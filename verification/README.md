# ClaimRush: a Dafny model

This project models the voting-escrow contract's accounting, the repository's tooling scripts, the
keeper's boot and shutdown code and the SDK's integer parser, and proves what they promise. Every
loop of the source is a method (or a method of a class) that is proved equal to a specification
function; the theorems are lemmas about those functions, over every input, every manifest, every
directory tree, every JSON tree, every run of the event loop and every run of contract calls.

## The parts

| files | what they model |
|---|---|
| `SlopeSchedule`, `VeLocks`, `VeModel`, `VeTheorems`, `VeRuns`, `VeCheckpoints`, `VeEffects` | the voting-escrow contract's locks, global sums, checkpoint and operations, what each call demands and does, and what every run of calls keeps |
| `TimeHeap`, `VeContract` | its storage and code: the indexed heap of scheduled times, the checkpoint's loop, and every operation as a method of a class |
| `GraphqlScanner`, `GraphqlLexemes`, `GraphqlPrinter`, `GraphqlPrefixes`, `GraphqlDefaults`, `Interpolation` | the hand-written scanner that lists an operation's root fields, and a printer's grammar that it inverts |
| `ManifestLines`, `ManifestPatterns`, `ManifestSync`, `ManifestRewrite`, `ManifestReports`, `ManifestTheorems`, `ManifestAbsorption`, `Graft`, `GraftOrder` | the manifest synchroniser, its four line patterns, its check mode, and the grafting injector |
| `PngStrip` | the PNG chunk stripper, byte for byte |
| `KeeperProcess`, `BootRetry` | fatal handlers, signals, timers and exits of the keeper; its boot retry loop |
| `DocReachability`, `PrunedWalk`, `SortedPaths`, `ShapeParity` | the documentation gates' worklist and directory walks, and the JSON shape comparison |
| `Doubles`, `StrictIntegers` | conversion of decimal strings through IEEE 754 doubles |
| `Text`, `Decimals`, `Powers` | shared vocabulary |

The main results:

- **The escrow's total covers the balances.** After every run of calls, by anyone, at any times that
  never go back, the balances of any distinct users together are at most the total, however stale the
  checkpoint; no call is ever refused for a broken invariant of the sums, and no clamp in the decay or
  in the slope ever changes anything: slope and bias are exactly what the schedule and the perpetual
  locks give. A contract that has caught up is above the balances by at most one unit for each decaying
  lock, and the dust of rounding, which is gone once nothing is scheduled. A checkpoint catches up
  exactly when no more changes are due than it may process, a backlog is cleared by exactly as many
  checkpoints as its changes need, and checkpoints in between leave no trace. The heap, its index, the
  checkpoint's loop and the ten operations are proved to compute just this.
- **Nobody's lock goes early.** For each operation it is stated, in terms of the lock it is about, when it
  is refused and with which error, and exactly what it leaves of locks, principal, slope, bias and
  schedule. Along every run no lock's end goes back and no lock's principal shrinks; a lock goes only by
  its owner's withdrawal at or after its end, by a burn from custody, or into another lock of its owner's
  that ends no earlier; and the locked principal is what came in less what was paid out.
- **The extractor inverts the printer.** For every printed operation (aliases, arguments,
  directives, nested selection sets, named spreads, inline fragments, with white space, commas and
  comments between its tokens) the extractor lists exactly the direct fields if and only if the
  selection set holds no typed inline fragment and no directive name set off from its `@`, other than
  ones named like the placeholder, which is never listed. For those two, what it lists instead is
  stated exactly. That the operation's prefix opens no brace is shown to be exact too: behind every
  prefix that opens one, some operation is misread, and when that brace opens a default object it is
  stated exactly what is listed of it. The GraphQL grammar meant is that of the October
  2021 specification, sections 2.1 and 2.4 to 2.12; what is printed is wider, since white space is all
  that Python's `isspace` accepts and argument lists and nested sets are any text that closes its
  brackets.
- **Synchronising, line by line.** The synchroniser's whole result, that is its text, its errors in their
  order and its drifts in theirs, is stated for each line in its place; and which lines name a data source or
  hold an address, a start block or a network, with what captured, in terms of texts.
- **Synchronising absorbs.** Between two deployments over one table, synchronising to the one and
  then to the other is synchronising to the other, on every manifest, exactly when the other deploys
  all that the first one does, with values that it can read back or that are its own; a second run
  repeats the first one's text and errors and notes no drift; check mode passes exactly the
  manifests that a write run accepts and leaves untouched; after a successful write run it passes
  exactly when the data sources the manifest names have values that can be read back. Grafting
  commutes with synchronising exactly when synchronising brings no hidden `graft:` or `features:` to
  light, which it never does where lines end in newlines.
- **PNG stripping** is stated in the format's own terms, with big-endian lengths and checksums. It keeps the other chunks in order, is idempotent, shortens a file by exactly what
  it drops, and copies a kept chunk byte for byte exactly when the chunk's checksum was right.
- **The keeper exits in time.** In every run a fatal trigger ends the process within 2500 ms and two
  event-loop lags: with code 1 and for a recorded reason, unless a shutdown's grace timer ends it first,
  and then with the signal's code; a shutdown ends within 1500 ms and one lag;
  the 5000 ms hard kill never fires; the signal's exit code is kept exactly when the grace timer ends
  the process; and only a fatal handler exits without an attempt to release the lock.
- **Strict integers are exact** for decimal strings of every length, by any rounding of ties and any
  treatment of digits behind the twentieth that ECMA-262 section 7.1.4.1 allows.
- **Worklist, walks and shapes**: the worklist computes the least closed set on every link graph; both
  pruned walks return the sorted list that walking everything and filtering returns, which lists exactly the
  files with the gates' suffixes that are the repository's own and public; two manifests
  flatten to the same keys exactly when they have the same shape; and the parity check passes exactly
  when they do without the known supplements and the same ones of these are lists.

## Where code and documentation differ

- The escrow's global slope is said to be possibly never zero again after all locks have expired, and
  the decay to absorb the rest (`src/VeClaimNFT.sol:1661-1670`). It is exactly zero once nothing is
  scheduled, and the total then exactly the perpetual principal.
- The total is said to exceed the balances, but for a tiny tail, by at most one unit less than there are
  decaying locks (`src/VeClaimNFT.sol:783-787`). It can be one unit for each: a first lock of the least
  amount and duration weighs one unit less than the total.
- The event that reports a clamped slope (`src/VeClaimNFT.sol:1602-1604`) is emitted exactly when the
  last scheduled slope falls due, and nothing is clamped then.
- `... on T { a }` makes the extractor report `T` as a root field, and `@ include(...)` makes it
  report `include` (`scripts/check_local_subgraph_schema.py:291-349`).
- A brace in the variable definitions is taken for the selection set
  (`scripts/check_local_subgraph_schema.py:310-323`): of a default value `{a: RED, b: "two words"}` the
  extractor reports `RED`, `two` and `words`, and nothing behind it.
- The comment above the boot call counts a sleep of 8000 ms and about 15 s in all
  (`keeper/src/run.ts:508-511`). The last attempt does not sleep: the total is at most 7500 ms.
- Both shutdown timers are unreferenced (`keeper/src/run.ts:569-578`), so that after a signal the
  process can also leave by itself, with code 0, when the command ends within the grace period; and a
  fatal handler that exits first does so with code 1. In turn a crash during the grace period leaves
  with the signal's code when the grace timer comes first.
- A negative start block, or an empty or quoted address, is written in a form that no later run
  recognises any more (`scripts/sync_subgraph_manifest_from_deployments.py:205-276`).
- The mark `path[]` of a list is not dropped with its path
  (`scripts/check_manifest_schema_parity.py:66-98`): a known supplement that is a list on one side only
  fails the check.
- An address, start block or network line that ends in another line break than a newline is written
  with a newline (`scripts/sync_subgraph_manifest_from_deployments.py:238-293`), so that a `graft:`
  right behind it, which the injector did not see before, refuses the manifest afterwards
  (`scripts/inject_subgraph_graft.py:35-41`).

## Model

| member | source | states |
|---|---|---|
| SlopeSchedule.AdjustIsSchedule | src/VeClaimNFT.sol:1736-1758 | a change at one time keeps the schedule in order and changes its sum by just that |
| SlopeSchedule.AdjustArea | src/VeClaimNFT.sol:1736-1758 | it changes what the schedule weighs by the change times the time left |
| SlopeSchedule.AreaShift | src/VeClaimNFT.sol:1635-1653 | as time passes the schedule's weight falls by its whole slope times the time passed |
| VeLocks.WeightBounds | src/VeClaimNFT.sol:1673-1689 | a lock's weight, rounded down, is covered by its slope, rounded up, and misses at most one unit of it |
| VeLocks.CoveredSums | src/VeClaimNFT.sol:1660-1686 | a schedule with enough slope at every time weighs at least what all locks weigh, and beyond that only what its surplus of slope weighs |
| VeTheorems.DecayExact | src/VeClaimNFT.sol:1633-1653 | no clamp in the decay changes anything as long as the bias covers it |
| VeTheorems.CheckpointSound | src/VeClaimNFT.sol:1576-1631 | a checkpoint keeps the books exact, and never raises the total |
| VeTheorems.TakeBalanced | src/VeClaimNFT.sol:892-916 | taking a lock out keeps slope, bias, schedule and remaining locks in balance, at the cost of one unit of dust |
| VeTheorems.GiveBalanced | src/VeClaimNFT.sol:918-929 | putting a lock in keeps them in balance |
| VeTheorems.SettleSound | src/VeClaimNFT.sol:1705-1734 | settling changes in balance is never refused for a broken invariant |
| VeRuns.CreateSound | src/VeClaimNFT.sol:1412-1472 | creating a lock keeps the invariant |
| VeRuns.AddToSound | src/VeClaimNFT.sol:1474-1537 | adding to a lock keeps the invariant, though the slope is rounded anew |
| VeRuns.ExtendSound | src/VeClaimNFT.sol:1135-1574 | extending a lock, or refreshing a perpetual one behind a backlog, keeps the invariant |
| VeRuns.AutoSound | src/VeClaimNFT.sol:967-1046 | making a lock perpetual, or no longer so, keeps the invariant |
| VeRuns.MergeSound | src/VeClaimNFT.sol:858-964 | merging two locks of any kinds keeps the invariant |
| VeRuns.UnlockSound | src/VeClaimNFT.sol:1064-1118 | unlocking an expired lock keeps the invariant, whether or not a backlog still counts it |
| VeRuns.BurnSound | src/VeClaimNFT.sol:1171-1230 | the Furnace's withdrawal of any lock in its custody keeps the invariant |
| VeRuns.ListSound | src/VeClaimNFT.sol:1234-1258 | listing and delisting keep the invariant |
| VeRuns.TransferSound | src/VeClaimNFT.sol:1280-1341 | a transfer into custody keeps the invariant |
| VeRuns.NeverViolated | src/VeClaimNFT.sol:1705-1758 | after every run, no call is refused for a broken invariant of the sums |
| VeRuns.BooksAreExact | src/VeClaimNFT.sol:1576-1758 | after every run, slope, bias, cached total and locked principal are exactly those of the schedule and the locks |
| VeRuns.TotalCoversBalances | src/VeClaimNFT.sol:711-790 | after every run and at every later time, the balances of distinct users are together at most the total, and those of all owners are what the locks weigh |
| VeCheckpoints.TotalIsClose | src/VeClaimNFT.sol:782-787 | a total that has caught up is above the balances by at most one unit for each decaying lock and the dust, which below thirty thousand million early removals is at most one unit more |
| VeCheckpoints.OneUnitIsMissed | src/VeClaimNFT.sol:782-787 | the unit for a decaying lock is reached, by one lock alone |
| VeCheckpoints.NothingScheduledIsExact | src/VeClaimNFT.sol:1661-1670 | once nothing is scheduled the slope is zero, and the total exactly the perpetual principal and the balances |
| VeCheckpoints.DriftIsNeverClamped | src/VeClaimNFT.sol:1600-1610 | the slope that falls due is never above the global slope, and equals it exactly when it is the last one |
| VeCheckpoints.CheckpointCatchesUp | src/VeClaimNFT.sol:1581-1628 | a checkpoint catches up exactly when no more than its turns are due; otherwise it takes that many off and stays behind |
| VeCheckpoints.CheckpointsLeaveNoTrace | src/VeClaimNFT.sol:1576-1631 | a checkpoint in between changes nothing about a later one that catches up |
| VeCheckpoints.BacklogClears | src/VeClaimNFT.sol:1581-1584 | a backlog is cleared by exactly as many checkpoints as its changes need, and the state is then as if it had never been |
| VeEffects.CreateExactly | src/VeClaimNFT.sol:1412-1472 | when a new lock is refused, in which order and why; otherwise it is done exactly if the books fit the contract's words, and leaves just this lock, principal, slope, bias and schedule |
| VeEffects.AddToExactly | src/VeClaimNFT.sol:1474-1537 | likewise for an added amount: who, how much, to which locks, and that the end stays but for perpetual ones |
| VeEffects.ExtendExactly | src/VeClaimNFT.sol:1135-1574 | likewise for a later end, at most a year from now, or the refresh of a perpetual lock |
| VeEffects.AutoExactly | src/VeClaimNFT.sol:967-1046 | likewise for making a lock perpetual or no longer so, the refresh and the silent case included |
| VeEffects.MergeExactly | src/VeClaimNFT.sol:858-964 | likewise for merging: the source is gone, its principal in the target, which ends when the later one does |
| VeEffects.WithdrawExactly | src/VeClaimNFT.sol:1064-1118 | only its owner withdraws a lock, not before its end, and not a listed or a perpetual one; exactly that lock and its principal are gone |
| VeEffects.BurnExactly | src/VeClaimNFT.sol:1171-1230 | the custodian burns a lock of its own that is not listed; exactly that lock and its principal are gone |
| VeEffects.ListExactly | src/VeClaimNFT.sol:1234-1258 | when listing is refused, and that only the one flag changes |
| VeEffects.TransferExactly | src/VeClaimNFT.sol:1280-1341 | a lock that is not listed goes from its owner to the Furnace and nowhere else; only its owner changes |
| VeEffects.DoneIsOrderly | src/VeClaimNFT.sol:841-1574 | what any call that is done does to every lock that there was, and to the principal |
| VeEffects.RunKeepsLocks | src/VeClaimNFT.sol:841-1574 | along every run a lock's end and principal never go back, and it goes only by withdrawal when it has ended, from custody, or into another lock that ends no earlier |
| VeEffects.RunConserves | src/VeClaimNFT.sol:841-1574 | along every run the locked principal is what came in less what was paid out |
| TimeHeap.RootIsLeast | src/VeClaimNFT.sol:1760-1763 | the root of the heap is its least time |
| TimeHeap.SwapUp | src/VeClaimNFT.sol:1812-1825 | one step up keeps the heap but for the cell that rose |
| TimeHeap.SwapDown | src/VeClaimNFT.sol:1827-1856 | one step down keeps the heap but for the cell that sank |
| TimeHeap.Moved | src/VeClaimNFT.sol:1784-1810 | with the last time in the cell of a removed one, the heap is kept but for that cell, in the direction the code then sifts |
| VeContract.VeClaim.HeapifyUp | src/VeClaimNFT.sol:1812-1825 | the loop restores heap and index, with the same times |
| VeContract.VeClaim.HeapifyDown | src/VeClaimNFT.sol:1827-1856 | the loop restores heap and index, with the same times |
| VeContract.VeClaim.HeapInsert | src/VeClaimNFT.sol:1767-1776 | exactly the time is added; a time that is there changes nothing, and zero is refused |
| VeContract.VeClaim.HeapRemove | src/VeClaimNFT.sol:1784-1810 | exactly the time is removed; a time that is not there changes nothing |
| VeContract.VeClaim.HeapPopMin | src/VeClaimNFT.sol:1778-1782 | exactly the root is removed |
| VeContract.VeClaim.HeapMin | src/VeClaimNFT.sol:1760-1763 | the first scheduled time, or zero exactly when nothing is scheduled |
| VeContract.VeClaim.ApplyDecayToBias | src/VeClaimNFT.sol:1635-1653 | the decay with its clamps |
| VeContract.VeClaim.CheckpointGlobalState | src/VeClaimNFT.sol:1576-1631 | the checkpoint's loop over heap, mapping and sums equals its specification |
| VeContract.VeClaim.ApplyGlobalDelta | src/VeClaimNFT.sol:1705-1734 | the change of the sums, its refusals and the cached total |
| VeContract.VeClaim.ApplySlopeChangeDelta | src/VeClaimNFT.sol:1736-1758 | mapping and heap change together to the adjusted schedule, or are refused |
| VeContract.VeClaim.CreateLockFor | src/VeClaimNFT.sol:1412-1472 | all refusals in order, and the new state |
| VeContract.VeClaim.AddToLockFor | src/VeClaimNFT.sol:1474-1537 | likewise |
| VeContract.VeClaim.ExtendLockToFor | src/VeClaimNFT.sol:1135-1574 | likewise, for both kinds of locks |
| VeContract.VeClaim.SetAutoMaxFor | src/VeClaimNFT.sol:967-1046 | likewise, the refresh and the silent case included |
| VeContract.VeClaim.MergeLocksFor | src/VeClaimNFT.sol:858-964 | likewise, for every mixture of kinds |
| VeContract.VeClaim.UnlockFor | src/VeClaimNFT.sol:1064-1118 | likewise, behind a backlog too |
| VeContract.VeClaim.FurnaceBurnAndWithdraw | src/VeClaimNFT.sol:1171-1230 | likewise |
| VeContract.VeClaim.SetListedFor | src/VeClaimNFT.sol:1234-1258 | likewise |
| VeContract.VeClaim.TransferFor | src/VeClaimNFT.sol:1280-1341 | likewise, with the cap on the receiver |
| VeContract.VeClaim.Transact | src/VeClaimNFT.sol:841-1351 | one call from outside: the operation's result, or the refusal with the storage as it was |
| VeContract.RunCalls | src/VeClaimNFT.sol:841-1351 | driving the methods by any run of calls takes the deployed contract through exactly that run's states |
| GraphqlScanner.SkipComment | scripts/check_local_subgraph_schema.py:223-226 | the loop stops at the first newline at or after the cursor, or at the end |
| GraphqlScanner.SkipString | scripts/check_local_subgraph_schema.py:229-244 | both forms of the string scanner: the first closing triple quote, or the first unescaped quote, or the end of the text |
| GraphqlScanner.SkipWsAndCommas | scripts/check_local_subgraph_schema.py:247-257 | the loop equals its specification on every text; the specification moves forward and stops at a character that is not ignored |
| GraphqlScanner.ReadName | scripts/check_local_subgraph_schema.py:260-264 | a name is read exactly where one starts; it is the longest run of name characters there, and the text between the two cursors |
| GraphqlScanner.SkipBalanced | scripts/check_local_subgraph_schema.py:267-288 | the depth-counting loop equals its specification, malformed texts included |
| GraphqlScanner.SkipDirectivesAndArgs | scripts/check_local_subgraph_schema.py:291-307 | the loop equals its specification and ends on every text |
| GraphqlScanner.SkipDirective | scripts/check_local_subgraph_schema.py:297-305 | one directive with its optional name and arguments |
| GraphqlScanner.FindFirstSelectionSet | scripts/check_local_subgraph_schema.py:310-323 | the first brace outside comments and strings |
| GraphqlScanner.SkipTail | scripts/check_local_subgraph_schema.py:379-383 | what is skipped behind a field or spread name |
| GraphqlScanner.SkipSpread | scripts/check_local_subgraph_schema.py:339-348 | a spread or inline fragment is skipped as the main loop does |
| GraphqlScanner.ScanField | scripts/check_local_subgraph_schema.py:362-383 | one field with its alias: the name it contributes and where the loop goes on |
| GraphqlScanner.TakeTurn | scripts/check_local_subgraph_schema.py:334-383 | one turn of the main loop, all branches |
| GraphqlScanner.ExtractTopLevelFields | scripts/check_local_subgraph_schema.py:326-385 | the main loop equals its specification and ends on every text |
| GraphqlLexemes.SkipCommentExact | scripts/check_local_subgraph_schema.py:223-226 | a printed comment is skipped up to its line end |
| GraphqlLexemes.SkipStringExact | scripts/check_local_subgraph_schema.py:229-244 | a printed string or block string is skipped to just past its closing quotes, whatever it holds |
| GraphqlLexemes.WsEndOverTrivia | scripts/check_local_subgraph_schema.py:247-257 | printed ignored tokens are passed over |
| GraphqlLexemes.SkipBalancedExact | scripts/check_local_subgraph_schema.py:267-288 | started on an opening bracket, the scanner stops just past its matching closer, whatever brackets stand in strings, block strings and comments |
| GraphqlLexemes.SkipBalancedUnclosed | scripts/check_local_subgraph_schema.py:267-288 | on a group that is never closed it stops at the end of the text |
| GraphqlLexemes.FirstBraceAfter | scripts/check_local_subgraph_schema.py:310-323 | the selection set is found behind any printed prefix that opens no brace |
| GraphqlPrinter.SkipArguments | scripts/check_local_subgraph_schema.py:294-296 | printed arguments are skipped whole |
| GraphqlPrinter.SkipDirectiveExact | scripts/check_local_subgraph_schema.py:297-305 | a directive whose name follows its `@` at once is skipped whole |
| GraphqlPrinter.StopAtGappedName | scripts/check_local_subgraph_schema.py:297-306 | a directive name set off from its `@` stops the scanner at that name |
| GraphqlPrinter.NameReported | scripts/check_local_subgraph_schema.py:362-383 | a printed name without alias is reported unless it is the placeholder, and the loop goes on behind its tail |
| GraphqlPrinter.AliasedFieldReported | scripts/check_local_subgraph_schema.py:368-383 | of an aliased field the field name is reported, not the alias |
| GraphqlPrinter.SpreadReported | scripts/check_local_subgraph_schema.py:339-349 | a named spread reports nothing |
| GraphqlPrinter.InlineReported | scripts/check_local_subgraph_schema.py:339-349 | an untyped inline fragment reports nothing |
| GraphqlPrinter.TypedInlineReported | scripts/check_local_subgraph_schema.py:339-349 | after `... on` the main loop goes on at the type name as if it were a field |
| GraphqlPrinter.TailReported | scripts/check_local_subgraph_schema.py:379-383 | what is reported between a name and the end of its selection |
| GraphqlPrinter.SelectionsReported | scripts/check_local_subgraph_schema.py:334-383 | the main loop over a whole printed selection set up to its closing brace |
| GraphqlPrinter.ExtractorReports | scripts/check_local_subgraph_schema.py:326-385 | for every printed operation, with any prefix and suffix, exactly which names are listed |
| GraphqlPrinter.ReportsAgree | scripts/check_local_subgraph_schema.py:326-385 | the list is the direct field names exactly when no selection is of the two kinds the scanner misreads |
| GraphqlPrinter.ExtractorInvertsPrinter | scripts/check_local_subgraph_schema.py:326-385 | the extractor returns exactly the direct field names, in order, if and only if the set holds no typed inline fragment and no set-off directive name |
| GraphqlPrinter.ReportsAreNames | scripts/check_local_subgraph_schema.py:362-378 | on every text, all that is reported is a name and never the placeholder |
| GraphqlPrefixes.NamesPlaces | scripts/check_local_subgraph_schema.py:334-383 | on every text, a reported name stands where the loop started, or not right behind an opening brace |
| GraphqlPrefixes.LongNameMissed | scripts/check_local_subgraph_schema.py:310-385 | behind any prefix that opens a brace, a field with a name longer than the prefix is not listed |
| GraphqlPrefixes.BracelessExactly | scripts/check_local_subgraph_schema.py:310-385 | every operation of faithful selections behind a prefix is read right exactly when the prefix opens no brace |
| GraphqlDefaults.ItemsListed | scripts/check_local_subgraph_schema.py:334-383 | the main loop over the items of any default object, up to its closing brace |
| GraphqlDefaults.DefaultListed | scripts/check_local_subgraph_schema.py:310-385 | of a default object with numbers, strings, enumeration values, lists and nested objects, exactly which words are listed, whatever operation follows |
| GraphqlDefaults.KeysAreNotListed | scripts/check_local_subgraph_schema.py:362-377 | of an object of numbers and nested objects nothing is listed |
| Interpolation.SkipJsString | scripts/check_local_subgraph_schema.py:199-211 | the quoted part of an interpolation; the cursor may overshoot by one |
| Interpolation.SkipHole | scripts/check_local_subgraph_schema.py:195-216 | the brace-counting loop over an interpolation's code |
| Interpolation.StripJsInterpolations | scripts/check_local_subgraph_schema.py:188-220 | the outer loop equals its specification and ends on every text |
| Interpolation.StripSanitises | scripts/check_local_subgraph_schema.py:188-220 | the result holds no `${`; it is the template exactly when that holds none; stripping is idempotent |
| Interpolation.SkipHoleExact | scripts/check_local_subgraph_schema.py:195-216 | a printed interpolation is skipped to just past the brace that closes it |
| Interpolation.StripInvertsPrinter | scripts/check_local_subgraph_schema.py:188-220 | every printed interpolation becomes one placeholder and the text around it is kept |
| Interpolation.TemplateFields | scripts/check_local_subgraph_schema.py:393-399 | from a template with interpolations to the root fields of its operation |
| Text.CharClasses | scripts/sync_subgraph_manifest_from_deployments.py:205-208 | white space, letters, digits and name characters, character by character |
| Text.LowerExactly | scripts/sync_subgraph_manifest_from_deployments.py:107-108 | capitals become small letters, nothing else changes |
| Text.StripExactly | scripts/check_public_doc_private_surface_refs.py:164-174 | what is stripped is the white space around a text that neither starts nor ends with any |
| ManifestLines.JoinSplit | scripts/sync_subgraph_manifest_from_deployments.py:191 | cutting a text into lines loses nothing |
| ManifestLines.SplitJoin | scripts/sync_subgraph_manifest_from_deployments.py:191-304 | lines are cut again where they were joined |
| ManifestLines.MatchWordSplit | scripts/sync_subgraph_manifest_from_deployments.py:205-208 | a word with blanks around it is captured by the name, start block and network patterns |
| ManifestLines.MatchWordSound | scripts/sync_subgraph_manifest_from_deployments.py:205-208 | what those patterns capture is a word with blanks around it |
| ManifestLines.MatchAddressExact | scripts/sync_subgraph_manifest_from_deployments.py:206 | the address matcher accepts exactly the texts of the pattern's form |
| ManifestPatterns.SplitExactly | scripts/sync_subgraph_manifest_from_deployments.py:191 | a text is cut behind every break, but for a carriage return and its newline, and nowhere else |
| ManifestPatterns.NameOfExactly | scripts/sync_subgraph_manifest_from_deployments.py:205-214 | a line names a data source exactly by four blanks, `name:` and a word, and that word is the name |
| ManifestPatterns.StartBlockExactly | scripts/sync_subgraph_manifest_from_deployments.py:207-264 | a start block line is exactly an indent, `startBlock:` and digits, and these are captured |
| ManifestPatterns.NetworkExactly | scripts/sync_subgraph_manifest_from_deployments.py:208-283 | a network line is exactly an indent, `network:` and a name, and that is captured |
| ManifestPatterns.AddressExactly | scripts/sync_subgraph_manifest_from_deployments.py:206-241 | an address line is exactly an indent, `address:` and a text of the pattern's form |
| ManifestPatterns.OnlyAddresses | scripts/sync_subgraph_manifest_from_deployments.py:206-241 | no line without that indent and key is one |
| ManifestPatterns.ClassesExactly | scripts/sync_subgraph_manifest_from_deployments.py:205-208 | of which characters names, numbers and networks consist |
| ManifestPatterns.BareCaptured | scripts/sync_subgraph_manifest_from_deployments.py:206 | an unquoted address is captured with the white space behind it, unless a quote closes it |
| ManifestSync.ValidateMeta | scripts/sync_subgraph_manifest_from_deployments.py:167-178 | the two validation errors in their order |
| ManifestSync.Synchroniser.PatchLine | scripts/sync_subgraph_manifest_from_deployments.py:238-295 | the three rewrites, their drifts and flags |
| ManifestSync.Synchroniser.ProcessLine | scripts/sync_subgraph_manifest_from_deployments.py:210-295 | the body of the loop, all branches, on all its variables |
| ManifestSync.ReportUnpatched | scripts/sync_subgraph_manifest_from_deployments.py:297-302 | the two errors of a source without its lines, in the order the sources were seen |
| ManifestSync.SyncManifestText | scripts/sync_subgraph_manifest_from_deployments.py:181-304 | text, errors and drifts of the whole pass |
| ManifestRewrite.AddressReadBack | scripts/sync_subgraph_manifest_from_deployments.py:206-258 | a written address line is read back as the address exactly when it is neither empty nor quoted |
| ManifestRewrite.StartBlockReadBack | scripts/sync_subgraph_manifest_from_deployments.py:207-275 | a written start block line is read back as the number exactly when it is not negative |
| ManifestRewrite.NetworkReadBack | scripts/sync_subgraph_manifest_from_deployments.py:208-293 | a written network line is read back as the network |
| ManifestRewrite.NormTwice | scripts/sync_subgraph_manifest_from_deployments.py:107-108 | normalising an address twice is normalising it once |
| ManifestReports.NormExactly | scripts/sync_subgraph_manifest_from_deployments.py:107-108 | a normal form has no white space around it, and small letters for capitals |
| ManifestReports.SyncExactly | scripts/sync_subgraph_manifest_from_deployments.py:181-304 | text, errors and drifts of the whole pass: for each line in order what is written, which errors and which drifts it gives rise to, and then the errors of the named sources in order of their naming |
| ManifestTheorems.ExpectedNetwork | scripts/sync_subgraph_manifest_from_deployments.py:62-66 | which network a chain id, as a number or as text, stands for; each is a name the network pattern captures |
| ManifestTheorems.Absorption | scripts/sync_subgraph_manifest_from_deployments.py:210-304 | synchronising to one deployment and then to another that covers it is synchronising to the other |
| ManifestAbsorption.AbsorptionExactly | scripts/sync_subgraph_manifest_from_deployments.py:210-304 | for deployments over one table of named sources, the later one decides every manifest exactly when it deploys all sources of the earlier one, reads back or writes alike what that one wrote, and has a network if that one has |
| ManifestTheorems.SecondRun | scripts/sync_subgraph_manifest_from_deployments.py:210-304 | a second run yields the same text, the same errors, and no drift |
| ManifestTheorems.SyncSoundness | scripts/sync_subgraph_manifest_from_deployments.py:213-302 | line by line: same count, same active source, unconcerned lines unchanged, all others read back as the deployment's value |
| ManifestTheorems.NoErrorsExactly | scripts/sync_subgraph_manifest_from_deployments.py:219-302 | no error is reported exactly when every block finds a valid deployment and every named source has both lines |
| ManifestTheorems.DriftChangesText | scripts/sync_subgraph_manifest_from_deployments.py:247-292 | a recorded drift means the text changes |
| ManifestTheorems.CheckAcceptsFixedPoints | scripts/sync_subgraph_manifest_from_deployments.py:354-377 | check mode returns 0 exactly when a write run succeeds and leaves the manifest untouched |
| ManifestTheorems.ScriptExactly | scripts/sync_subgraph_manifest_from_deployments.py:348-377 | the exit codes 0, 1 and 2, exactly when, and what each mode leaves of the manifest |
| ManifestTheorems.SecondRunNamed | scripts/sync_subgraph_manifest_from_deployments.py:210-304 | for a second run to repeat the first it is enough that the named data sources have values that can be read back |
| ManifestTheorems.WriteThenCheck | scripts/sync_subgraph_manifest_from_deployments.py:354-377 | after a successful write run check mode returns 0 exactly when every known data source the manifest names has a quotable address and no negative start block |
| ManifestTheorems.NegativeStartBlockSticks | scripts/sync_subgraph_manifest_from_deployments.py:207-276 | a negative start block, once written, is never replaced |
| ManifestTheorems.UnquotableAddressSticks | scripts/sync_subgraph_manifest_from_deployments.py:206-259 | an empty or quoted address, once written, is never replaced |
| Graft.InjectGraft | scripts/inject_subgraph_graft.py:34-57 | the one-shot insertion and its three refusals |
| Graft.InjectExactly | scripts/inject_subgraph_graft.py:34-57 | which manifests are refused and for what, in terms of texts; and of every other one the exact result |
| Graft.InjectInserts | scripts/inject_subgraph_graft.py:43-57 | an injection inserts the five lines behind the first `specVersion:` line and changes nothing else, so that deleting them recovers the manifest |
| Graft.SecondInjectRefused | scripts/inject_subgraph_graft.py:35-36 | a grafted manifest is always refused |
| GraftOrder.FindsInLines | scripts/inject_subgraph_graft.py:35-41 | the multi-line search finds a key exactly at the start of a line that is the first or stands behind a newline |
| GraftOrder.SyncKeepsTopLevel | scripts/inject_subgraph_graft.py:35-41 | on every text, synchronising makes no top-level block and removes none; it brings one to light exactly behind a line that gains a newline |
| GraftOrder.GraftCommutes | scripts/inject_subgraph_graft.py:34-57 | on every text, grafting the synchronised manifest is synchronising the grafted one, refusals included, exactly when no `graft:` or `features:` that decides comes to light |
| GraftOrder.NewlinesCommute | scripts/inject_subgraph_graft.py:34-57 | the order does not matter where every line but the last ends in a newline |
| GraftOrder.OrderMatters | scripts/inject_subgraph_graft.py:34-57 | it matters for a `graft:` behind an address line that ends in another break |
| Graft.DeploymentIdHasNoBreaks | scripts/inject_subgraph_graft.py:31 | the accepted base ids hold no line break |
| Graft.DeploymentIdExactly | scripts/inject_subgraph_graft.py:31 | the accepted base ids, character by character |
| PngStrip.WordRoundTrip | scripts/strip_png_text_chunks.py:34-67 | a 32-bit word survives its big-endian bytes |
| PngStrip.PngFile.StripFile | scripts/strip_png_text_chunks.py:48-76 | counts and new file contents; a file that is no PNG, or truncated, is left as it was |
| PngStrip.ReadEmitted | scripts/strip_png_text_chunks.py:29-67 | the reader inverts the writer on one chunk, wherever it stands |
| PngStrip.StripRoundTrip | scripts/strip_png_text_chunks.py:29-76 | re-parsing the stripped file yields the input's chunks in order without the textual ones |
| PngStrip.ReadsExactly | scripts/strip_png_text_chunks.py:29-52 | a file is read exactly when it is the signature and chunks stored with big-endian lengths, in the format's own terms |
| PngStrip.StripExactly | scripts/strip_png_text_chunks.py:48-76 | of every such file: the counts, and the remaining chunks in order with big-endian lengths and right checksums, or the file as it was |
| PngStrip.StripTwice | scripts/strip_png_text_chunks.py:48-76 | a second strip reports zero and changes nothing |
| PngStrip.StripConserves | scripts/strip_png_text_chunks.py:57-76 | kept and stripped add up; a rewritten file is shorter by the stripped chunks and by the bytes behind IEND |
| PngStrip.EmitIsCopy | scripts/strip_png_text_chunks.py:64-67 | rewriting a chunk copies its bytes exactly when its stored checksum is right |
| PngStrip.StripCopies | scripts/strip_png_text_chunks.py:57-76 | a rewritten file holds its kept chunks byte for byte exactly when each stored a right checksum |
| KeeperProcess.Keeper.OnFatal | keeper/src/run.ts:235-344 | the deadline is armed first; the alert is awaited, or a logging failure queues the exit; the exit code is set |
| KeeperProcess.Keeper.QueueExit | keeper/src/run.ts:250-265 | the handler's own deadline is cleared and its exit queued |
| KeeperProcess.Keeper.OnAlertSettled | keeper/src/run.ts:305-325 | a settled alert queues the exit |
| KeeperProcess.Keeper.OnSignal | keeper/src/run.ts:555-581 | only the first signal arms the two timers |
| KeeperProcess.Keeper.OnTimer | keeper/src/run.ts:241-578 | the callbacks of the three timers: release before exit for the shutdown timers |
| KeeperProcess.Keeper.OnImmediate | keeper/src/run.ts:257-264 | the queued exit with code 1 |
| KeeperProcess.Keeper.OnCommandEnd | keeper/src/run.ts:583-587 | the command's end releases the lock |
| KeeperProcess.Execute | keeper/src/run.ts:235-587 | driving the handlers by any run takes the process through exactly that run's states, and keeps it sound |
| KeeperProcess.StepIsSound | keeper/src/run.ts:235-587 | every step of every interleaving keeps the invariant, or exits for a recorded reason |
| KeeperProcess.RunIsSound | keeper/src/run.ts:235-587 | the invariant over every run |
| KeeperProcess.BoundedFatalExit | keeper/src/run.ts:217-265 | in every run, until the exit a handler's deadline is armed or its exit queued, and no trigger is outlived by more than 2500 ms and two lags |
| KeeperProcess.FatalExitIsJustified | keeper/src/run.ts:235-344 | in every run a triggered process exits with code 1 exactly unless a grace timer ends it, then with its signal's code; with code 1 not before an alert settled, logging failed or a deadline passed |
| KeeperProcess.GraceBeatsCrash | keeper/src/run.ts:560-578 | a run in which a crash during the grace period leaves with the signal's code, and for no fatal reason |
| KeeperProcess.QuietExitWasNeverFatal | keeper/src/run.ts:340-343 | a process that leaves by itself was never triggered |
| KeeperProcess.ShutdownIsKept | keeper/src/run.ts:555-559 | later signals change nothing about the shutdown |
| KeeperProcess.HardKillNeverFires | keeper/src/run.ts:560-578 | when timers fire in due order the grace callback always comes before the hard kill |
| KeeperProcess.SingleShutdown | keeper/src/run.ts:542-581 | in every run a shutdown ends within 1500 ms and one lag, never by the hard kill; the first signal's code is the exit's exactly when the grace timer ends it, which it does when nothing fatal happened and the command had not ended |
| KeeperProcess.ShutdownCodeExactly | keeper/src/run.ts:235-587 | which of the three exit codes a shutdown ends in, and exactly when |
| KeeperProcess.ReleasedUnlessFatal | keeper/src/run.ts:560-587 | in every run, an exit by the grace timer or by itself follows an attempted release |
| KeeperProcess.DrainedShutdownExitsZero | keeper/src/run.ts:569-587 | a run in which the process leaves with code 0 after a signal |
| KeeperProcess.NeverStuck | keeper/src/run.ts:235-587 | until the exit a queued exit can run, a due timer can fire, or time can pass |
| BootRetry.ProbeChainIdsWithRetry | keeper/src/run.ts:120-160 | which attempt decides, what is returned or thrown, and the sleeps before it |
| BootRetry.SucceedsExactly | keeper/src/run.ts:136-158 | success exactly when an attempt answers after transient failures only; a structural error is thrown at once |
| BootRetry.TransientExactly | keeper/src/run.ts:82-107 | which messages count as transient: those that hold one of fifteen phrases anywhere, in any case |
| BootRetry.RetriedExactly | keeper/src/run.ts:150-158 | an attempt is followed by another one exactly when it is not the last and fails with such a message |
| BootRetry.DelayAt | keeper/src/run.ts:151 | each sleep doubles, up to ten seconds |
| BootRetry.SleepBound | keeper/src/run.ts:151-156 | the time slept is at most ten seconds a sleep and at most the geometric sum |
| BootRetry.SleepExact | keeper/src/run.ts:151-156 | uncapped, the time slept is the geometric sum |
| BootRetry.BootSleep | keeper/src/run.ts:507-519 | the boot call sleeps at most 7500 ms, and so much when all attempts are made |
| DocReachability.CollectReachablePublicDocs | scripts/check_release_docs_consistency.py:357-377 | for every link graph the worklist ends and returns exactly the documents that a chain of public links leads to |
| DocReachability.ReachableIsLeast | scripts/check_release_docs_consistency.py:357-377 | that set is the least one that holds the public seeds and is closed under public links |
| DocReachability.CheckOrphanedDocs | scripts/check_release_docs_consistency.py:380-393 | the warnings, in the order of the sorted documents |
| DocReachability.OrphansExactly | scripts/check_release_docs_consistency.py:387-391 | warned of are exactly the versioned documents without a link path |
| DocReachability.OrphansInOrder | scripts/check_release_docs_consistency.py:387-391 | they are warned of in the order of the documents |
| DocReachability.VersionedExactly | scripts/check_release_docs_consistency.py:388 | versioned is a document whose file name, behind the last slash, holds `v1.0.0` |
| PrunedWalk.LoadPublicAllowlist | scripts/check_public_doc_private_surface_refs.py:164-174 | of the file's stripped lines, which become file entries and which directory entries |
| PrunedWalk.WalkPruned | scripts/check_public_doc_private_surface_refs.py:215-229 | the pruned walk over an explicit stack equals its recursive specification |
| PrunedWalk.PrunedTreeIsScanned | scripts/check_public_doc_private_surface_refs.py:145-229 | pruning excluded directories at all levels lists what walking everything and filtering lists |
| PrunedWalk.PublicIsKept | scripts/check_public_doc_private_surface_refs.py:177-213 | the first component of every public path is kept at the root, by both keep sets |
| PrunedWalk.RootIsPublic | scripts/check_public_doc_private_surface_refs.py:206-244 | pruning the root's other directories hides nothing public |
| PrunedWalk.IterTargetFiles | scripts/check_public_doc_private_surface_refs.py:190-244 | the first gate returns the sorted list of what walking everything and filtering lists, in every mode |
| PrunedWalk.IterMarkdownFiles | scripts/check_public_markdown_repo_paths.py:178-238 | the second gate likewise, with its own keep set |
| PrunedWalk.ListedExactly | scripts/check_public_doc_private_surface_refs.py:145-244 | both gates list exactly the files with their suffixes, outside ten kinds of directories, and in public mode those that the allowlist names or that lie below a directory it names, each as often as its directory lists it |
| SortedPaths.SortExact | scripts/check_public_doc_private_surface_refs.py:231-244 | the sorted list of some paths is the one list of them in the order of their components |
| SortedPaths.PathLeqExactly | scripts/check_public_doc_private_surface_refs.py:231-244 | paths are ordered by the first component that differs |
| SortedPaths.TextLeqExactly | scripts/check_public_doc_private_surface_refs.py:231-244 | components are ordered by the first character that differs |
| ShapeParity.FlattenKeys | scripts/check_manifest_schema_parity.py:48-71 | the recursion adds exactly the tree's key paths to the shared set |
| ShapeParity.FlatteningIsInjective | scripts/check_manifest_schema_parity.py:48-71 | with plain keys, two trees flatten to the same keys exactly when they have the same shape |
| ShapeParity.DotsCollide | scripts/check_manifest_schema_parity.py:58-64 | a key below any nonempty key has the key of its dotted continuation beside it, in manifests of different shape |
| ShapeParity.MarksCollide | scripts/check_manifest_schema_parity.py:66-68 | a list under any nonempty key has the keys of that key and of the marked one |
| ShapeParity.EmptyKeysCollide | scripts/check_manifest_schema_parity.py:58-64 | what lies below an empty key has the keys of what lies beside it |
| ShapeParity.DropPrefixes | scripts/check_manifest_schema_parity.py:92-98 | the loop drops exactly the keys at or below a prefix |
| ShapeParity.DropIsRemove | scripts/check_manifest_schema_parity.py:92-98 | dropping a path is flattening the tree without the subtree there, exactly when that is no list |
| ShapeParity.CheckParity | scripts/check_manifest_schema_parity.py:117-158 | the comparison with its two conditional drops |
| ShapeParity.LooksExactly | scripts/check_manifest_schema_parity.py:74-89 | which manifests are taken for the local chain's, and which for the main network's |
| ShapeParity.MarkMeansList | scripts/check_manifest_schema_parity.py:66-68 | a path with a list mark is among the keys exactly when a list stands there |
| ShapeParity.DroppedParity | scripts/check_manifest_schema_parity.py:92-98 | with several paths dropped, two manifests have equal keys exactly when they have the same shape without these subtrees and lists at the same ones of the paths |
| ShapeParity.ParityIsSameShape | scripts/check_manifest_schema_parity.py:117-158 | the check passes exactly when the manifests without their known supplements have the same shape, and the same ones of the dropped supplements are lists |
| Doubles.RoundIsNumber | agents/sdk/src/integers.ts:12-20 | the rounding used here gives, for every integer, a closest double or the infinity ECMA-262 prescribes |
| Doubles.TiesToEven | agents/sdk/src/integers.ts:12-20 | of two equally near values the one with the even significand is chosen |
| Doubles.SafeIsExact | agents/sdk/src/integers.ts:5-22 | by any rule for ties, a rounded integer is safe exactly when the integer is in the safe range, and then is that integer |
| StrictIntegers.ReadingKeepsRange | agents/sdk/src/integers.ts:20-21 | digits behind the twentieth cannot bring a value into the safe range |
| StrictIntegers.StringsAreExact | agents/sdk/src/integers.ts:15-22 | a string is accepted exactly when, trimmed, it is a decimal integer in the safe range, and its value is the result |
| StrictIntegers.DecimalTextIsRead | agents/sdk/src/integers.ts:15-22 | white space, an optional sign, digits and white space are read as the digits' value by their places, if that is below 2 to the 53rd |
| StrictIntegers.OnlyDecimalTexts | agents/sdk/src/integers.ts:1-22 | no other text is read |
| StrictIntegers.ReadingExactly | agents/sdk/src/integers.ts:20-21 | the readings of more than twenty digits that ECMA-262 section 7.1.4.1 allows |
| StrictIntegers.BigIntsAreExact | agents/sdk/src/integers.ts:10-13 | a bigint is accepted exactly in the safe range, and converted without loss |
| StrictIntegers.SafeResult | agents/sdk/src/integers.ts:5-22 | every result is a safe integer |
| StrictIntegers.ParsingIsExact | agents/sdk/src/integers.ts:5-22 | a value of any type is accepted exactly when it denotes a safe integer, and the result is that integer |
| StrictIntegers.SignVariantsAreExact | agents/sdk/src/integers.ts:24-34 | the sign variants accept exactly the safe integers of their sign, and return them |
| StrictIntegers.EmptyRangeExactly | agents/sdk/src/integers.ts:36-47 | for finite, infinite and NaN bounds, which ranges hold no number |
| StrictIntegers.ClampIsExact | agents/sdk/src/integers.ts:36-47 | for all such bounds a clamped value is the one closest number of the range, or the fallback untouched; what an empty range gives is stated too |
| StrictIntegers.PrintedIntegersParse | agents/sdk/src/integers.ts:15-22 | every integer printed with white space around it parses back, if it is safe |

## Left out

- Of the escrow contract: who may call what and how callers, custodian and sibling contracts are found, its calls into other contracts (the royalty checkpoints, the transfers of CLAIM, receivers of tokens), freezing of the configuration, metadata and events. A caller that the contract recognises is a parameter, and a call that one of these refuses is a refused one.
- VeRuns.TotalCoversBalances: `veBalanceOf` is the sum over the locks of an owner; the list of each owner's tokens, with its swap and pop, is not part of this model.
- VeContract.VeClaim.ApplyGlobalDelta: the words of slope, bias and scheduled slopes are bounded as the code's are; products, amounts and times on the way to them are not, so that a call that only overflows there is refused by the code and not by the model.
- VeContract.VeClaim.CheckpointGlobalState: without the case of a last checkpoint at time zero, which the constructor's block time excludes.
- HTTP requests, files, subprocesses and directories: files are byte sequences or texts, directories finite trees; symbolic links and encodings are not part of this model. Python's text mode turns CR LF and CR into newlines on reading, so that what is said of a manifest holds of its text and not of the bytes of a file with other line ends.
- The expressions that find templates in source files and links in markdown: templates are given strings, links an arbitrary relation.
- zlib's CRC-32: any function from bytes to 32-bit values.
- The alert, the lock and the RPC clients: an alert is a promise that settles at any time or never, a release is one recorded event, a probe is an outcome.
- Reload on SIGHUP, permission checks, key scrubbing and log messages.
- Escaped triple quotes in block strings, where the scanner closes the string, and comments ended by a carriage return alone, which the scanner takes to go on: the printer's grammar has neither. Nor has it U+FEFF, which GraphQL ignores and the scanner does not, except in the operation's prefix.
- GraphqlPrinter.ExtractorInvertsPrinter: asks that the operation's prefix opens no brace, which GraphqlPrefixes.BracelessExactly shows to be exact.
- GraphqlPrinter.ExtractorReports: asks the same, and for the same reason; GraphqlDefaults.DefaultListed states what is listed where the brace opens a default object.
- Interpolation.TemplateFields: asks the same.
- GraphqlDefaults.DefaultListed: strings in default values hold no braces, `#`, opening parenthesis, `@` or three dots in a row, all of which the scanner would take for more than text.
- Interpolation.StripInvertsPrinter: JavaScript comments and regular expressions in an interpolation's code are not told from code, so that a brace or quote in them counts; and an escaped `\${`, which JavaScript reads as text, is replaced like any other.
- ManifestSync.SyncManifestText: takes the table of known data sources as a parameter, so that what is proved holds of every table; letters outside A to Z are not changed by the model's `lower`.
- ManifestRewrite.NormTwice: lowers the letters A to Z only.
- ManifestAbsorption.AbsorptionExactly: asks that both deployments be over one table of sources whose names are words, and that the earlier one's values hold no line break.
- GraftOrder.GraftCommutes: asks that addresses and the base id hold no line break.
- ManifestTheorems.ExpectedNetwork: of a chain id given as text, takes the number that Python's `int` reads in it.
- ShapeParity.ParityIsSameShape: asks for plain keys, that is nonempty ones without a dot that do not end in a list mark; ShapeParity.DotsCollide, MarksCollide and EmptyKeysCollide show which others collide.
- StrictIntegers.StringsAreExact: negative zero is not told from zero.
- KeeperProcess.BoundedFatalExit: bounds the exit by the event loop's lag, which the process itself does not control.
- KeeperProcess.ReleasedUnlessFatal: takes the event loop to be never empty while the command is pending, since the lock's heartbeat timer is a referenced one (`keeper/src/shared/lock.ts:219-222`).
- `scripts/verify_deployment.py` compares deployed contracts' answers with the manifest one by one; the remaining `check_*` scripts compare sets of names; the renderers fill in templates.
