/** What the synchroniser keeps, what a second run does, and what check mode accepts. */
module ManifestTheorems {
  import opened Text
  import opened Decimals
  import opened ManifestLines
  import opened ManifestSync
  import opened ManifestRewrite

  // ---------------------------------------------------------------------------
  // Conditions on a deployment
  // ---------------------------------------------------------------------------

  predicate HasDeployment(cfg: Config, ds: string) { ds in cfg.nameMap && cfg.nameMap[ds] in cfg.contracts }

  function Deployment(cfg: Config, ds: string): Meta
    requires HasDeployment(cfg, ds)
  {
    cfg.contracts[cfg.nameMap[ds]]
  }

  /** Addresses hold no line break, and the network is a name. */
  ghost predicate BreakFree(cfg: Config) {
    && (forall ds | HasDeployment(cfg, ds) :: NoBreaks(Norm(Deployment(cfg, ds).address)))
    && (cfg.network.Some? ==> IsNetworkName(cfg.network.value))
  }

  predicate IsWritable(m: Meta) {
    Norm(m.address) != "" && '"' !in Norm(m.address) && m.startBlock >= 0
  }

  /** Moreover no address is empty or quoted, and no start block is negative. */
  ghost predicate Clean(cfg: Config) {
    BreakFree(cfg) && forall ds | HasDeployment(cfg, ds) :: IsWritable(Deployment(cfg, ds))
  }

  /** `b` deploys every data source that `a` does, and names a network if `a` does. */
  ghost predicate Covers(b: Config, a: Config) {
    && b.nameMap == a.nameMap
    && (forall ds | HasDeployment(a, ds) :: HasDeployment(b, ds))
    && (a.network.Some? ==> b.network.Some?)
  }

  const CHAIN_ID_TO_NETWORK: map<int, string> := map[31337 := "local", 84532 := "base-sepolia", 8453 := "base"]

  /** A manifest's chain id: a number, a text with the number Python's `int` reads in it, if any, or neither. */
  datatype ChainId = NumberId(n: int) | TextId(read: Option<int>) | NoId

  /** The network a deployments manifest's chain id stands for: it tells the three chains apart. */
  function ExpectedNetwork(chainId: ChainId): (r: Option<string>)
    ensures r.Some? ==> IsNetworkName(r.value)
    ensures r == Some("local") <==> chainId == NumberId(31337) || chainId == TextId(Some(31337))
    ensures r == Some("base-sepolia") <==> chainId == NumberId(84532) || chainId == TextId(Some(84532))
    ensures r == Some("base") <==> chainId == NumberId(8453) || chainId == TextId(Some(8453))
    ensures r.Some? ==> r.value == "local" || r.value == "base-sepolia" || r.value == "base"
  {
    var id := match chainId case NumberId(n) => Some(n) case TextId(read) => read case NoId => None;
    if id.Some? && id.value in CHAIN_ID_TO_NETWORK then Some(CHAIN_ID_TO_NETWORK[id.value]) else None
  }

  // ---------------------------------------------------------------------------
  // One line
  // ---------------------------------------------------------------------------

  /** What a line is after the rewrite. */
  function WrittenKind(cfg: Config, ds: Option<string>, line: string): Kind {
    if NameOf(line).Some? || MetaOf(cfg, ds).None? then KindOf(line)
    else match KindOf(line)
      case Address(indent, _) => Address(indent, Norm(MetaOf(cfg, ds).value.address))
      case StartBlock(indent, _) => StartBlock(indent, PrintInt(MetaOf(cfg, ds).value.startBlock))
      case Network(indent, current) => Network(indent, if cfg.network.None? then current else cfg.network.value)
      case Other => Other
  }

  /** A rewritten line is a line, names no data source, and starts as the old one did. */
  lemma LineWritten(cfg: Config, ds: Option<string>, line: string)
    requires IsLine(line) && BreakFree(cfg)
    ensures var line' := RewriteLine(cfg, ds, line);
      && IsLine(line') && NameOf(line') == NameOf(line) && line'[0] == line[0]
      && (line' == line || (BodyLen(line') < |line'| && line'[|line'| - 1] == '\n'))
  {
    hide NameOf, KindOf, IsLine, Norm, PrintInt, NoBreaks, AllSpace, IsNetworkName, BodyLen;
    if NameOf(line).None? && MetaOf(cfg, ds).Some? && KindOf(line) != Other {
      var m := MetaOf(cfg, ds).value;
      assert HasDeployment(cfg, ds.value);
      KindIndent(line);
      match KindOf(line) {
        case Address(indent, _) =>
          AddressReadBack(indent, Norm(m.address));
          WrittenEnd(indent + ("address:" + (" \"" + (Norm(m.address) + "\""))));
        case StartBlock(indent, _) =>
          StartBlockReadBack(indent, m.startBlock);
          WrittenEnd(indent + ("startBlock:" + (" " + PrintInt(m.startBlock))));
        case Network(indent, _) =>
          if cfg.network.Some? {
            NetworkReadBack(indent, cfg.network.value);
            WrittenEnd(indent + ("network:" + (" " + cfg.network.value)));
          }
        case Other =>
      }
    }
  }

  lemma WrittenEnd(body: string)
    requires IsLine(body + "\n")
    ensures BodyLen(body + "\n") < |body + "\n"|
  {
    var line := body + "\n";
    if BodyLen(line) == |line| {
      BodyFree(line);
      assert line[..|line|] == line;
      assert IsBreak(line[|line| - 1]);
    }
  }

  /** With a clean deployment, a rewritten line is read back as the value written. */
  lemma LineReadBack(cfg: Config, ds: Option<string>, line: string)
    requires IsLine(line) && Clean(cfg)
    ensures KindOf(RewriteLine(cfg, ds, line)) == WrittenKind(cfg, ds, line)
  {
    hide NameOf, KindOf, IsLine, Norm, PrintInt, NoBreaks, AllSpace, IsNetworkName, AddressLine, StartBlockLine,
      NetworkLine;
    if NameOf(line).None? && MetaOf(cfg, ds).Some? && KindOf(line) != Other {
      var m := MetaOf(cfg, ds).value;
      assert HasDeployment(cfg, ds.value) && IsWritable(m);
      KindIndent(line);
      match KindOf(line) {
        case Address(indent, _) => AddressReadBack(indent, Norm(m.address));
        case StartBlock(indent, _) => StartBlockReadBack(indent, m.startBlock);
        case Network(indent, _) =>
          if cfg.network.Some? {
            NetworkReadBack(indent, cfg.network.value);
          }
        case Other =>
      }
    }
  }

  predicate IsQuotable(address: string) { Norm(address) != "" && '"' !in Norm(address) }

  /** Whatever `a` writes in the block of `ds` is either read back by `b` or what `b` would write. */
  predicate AbsorbedAt(a: Config, b: Config, ds: string)
    requires HasDeployment(a, ds)
  {
    && HasDeployment(b, ds)
    && (IsQuotable(Deployment(a, ds).address)
        || Norm(Deployment(a, ds).address) == Norm(Deployment(b, ds).address))
    && (Deployment(a, ds).startBlock >= 0 || Deployment(a, ds).startBlock == Deployment(b, ds).startBlock)
    && (a.network.Some? ==> b.network.Some?)
  }

  /** `b` absorbs every data source that `a` deploys. */
  ghost predicate Absorbs(b: Config, a: Config) {
    b.nameMap == a.nameMap && forall ds | HasDeployment(a, ds) :: AbsorbedAt(a, b, ds)
  }

  lemma CoveringAbsorbs(a: Config, b: Config)
    requires Clean(a) && Covers(b, a)
    ensures BreakFree(a) && Absorbs(b, a)
  {
    hide Norm;
  }

  lemma RewriteTwice(a: Config, b: Config, ds: Option<string>, line: string)
    requires IsLine(line) && BreakFree(a) && Absorbs(b, a)
    ensures RewriteLine(b, ds, RewriteLine(a, ds, line)) == RewriteLine(b, ds, line)
  {
    hide NameOf, KindOf, IsLine, Norm, PrintInt, NoBreaks, AllSpace, IsNetworkName, AddressLine, StartBlockLine,
      NetworkLine;
    if NameOf(line).None? && MetaOf(a, ds).Some? && KindOf(line) != Other {
      var m := MetaOf(a, ds).value;
      assert HasDeployment(a, ds.value) && AbsorbedAt(a, b, ds.value);
      KindIndent(line);
      match KindOf(line) {
        case Address(indent, _) => AddressReadBack(indent, Norm(m.address));
        case StartBlock(indent, _) => StartBlockReadBack(indent, m.startBlock);
        case Network(indent, _) =>
          if a.network.Some? {
            NetworkReadBack(indent, a.network.value);
          }
        case Other =>
      }
    }
  }

  // ---------------------------------------------------------------------------
  // All lines
  // ---------------------------------------------------------------------------

  lemma LinedCons(lines: seq<string>)
    requires lines != [] && Lined(lines)
    ensures IsLine(lines[0]) && EndsBefore(lines[0], Join(lines[1..])) && Lined(lines[1..])
    ensures Join(lines) == lines[0] + Join(lines[1..])
  {
  }

  /** The rewritten lines are the lines of the text they make. */
  lemma {:induction false} RewriteIsLined(cfg: Config, ds: Option<string>, lines: seq<string>)
    requires Lined(lines) && BreakFree(cfg)
    ensures var lines' := RewriteAll(cfg, ds, lines);
      && Lined(lines') && |lines'| == |lines|
      && (Join(lines') == "" <==> Join(lines) == "")
      && (Join(lines) != "" ==> Join(lines')[0] == Join(lines)[0])
    decreases |lines|
  {
    hide RewriteLine, Next, BreakFree, IsLine, BodyLen;
    if lines != [] {
      hide Join, Lined;
      LinedCons(lines);
      LineWritten(cfg, ds, lines[0]);
      var line' := RewriteLine(cfg, ds, lines[0]);
      var rest' := RewriteAll(cfg, Next(ds, lines[0]), lines[1..]);
      RewriteIsLined(cfg, Next(ds, lines[0]), lines[1..]);
      JoinCons(line', rest');
      assert EndsBefore(line', Join(rest'));
    } else {
      NothingJoined();
    }
  }

  lemma {:induction false} RewriteAllTwice(a: Config, b: Config, ds: Option<string>, lines: seq<string>)
    requires Lined(lines) && BreakFree(a) && Absorbs(b, a)
    ensures RewriteAll(b, ds, RewriteAll(a, ds, lines)) == RewriteAll(b, ds, lines)
    decreases |lines|
  {
    hide RewriteLine, BreakFree, Absorbs, IsLine, NameOf;
    if lines != [] {
      hide Lined;
      LinedCons(lines);
      LineWritten(a, ds, lines[0]);
      RewriteTwice(a, b, ds, lines[0]);
      RewriteAllTwice(a, b, Next(ds, lines[0]), lines[1..]);
      var rest' := RewriteAll(a, Next(ds, lines[0]), lines[1..]);
      RewriteAllCons(b, ds, RewriteLine(a, ds, lines[0]), rest');
    }
  }

  lemma RewriteAllCons(cfg: Config, ds: Option<string>, line: string, rest: seq<string>)
    ensures RewriteAll(cfg, ds, [line] + rest) == [RewriteLine(cfg, ds, line)] + RewriteAll(cfg, Next(ds, line), rest)
  {
    assert ([line] + rest)[1..] == rest;
  }

  lemma CleanIsBreakFree(cfg: Config)
    requires Clean(cfg)
    ensures BreakFree(cfg)
  {
  }

  /** The lines of a synchronised text are the rewritten lines. */
  lemma SyncedLines(cfg: Config, text: string)
    requires BreakFree(cfg)
    ensures SplitLines(Sync(cfg, text).text) == RewriteAll(cfg, None, SplitLines(text))
  {
    hide SplitLines, Join, Lined, BreakFree, RewriteAll, Sync;
    JoinSplit(text);
    SyncWrites(cfg, text);
    RewriteIsLined(cfg, None, SplitLines(text));
    SplitJoin(RewriteAll(cfg, None, SplitLines(text)));
  }

  /** Synchronising to one deployment and then to another is synchronising to the other. */
  lemma Absorption(a: Config, b: Config, text: string)
    requires Clean(a) && Covers(b, a)
    ensures Sync(b, Sync(a, text).text).text == Sync(b, text).text
  {
    hide Clean, Covers, Absorbs, Sync;
    CoveringAbsorbs(a, b);
    AbsorbedText(a, b, text);
  }

  lemma AbsorbedText(a: Config, b: Config, text: string)
    requires BreakFree(a) && Absorbs(b, a)
    ensures Sync(b, Sync(a, text).text).text == Sync(b, text).text
  {
    hide SplitLines, Join, Lined, BreakFree, Absorbs, RewriteAll, Sync;
    SyncedLines(a, text);
    SyncWrites(b, Sync(a, text).text);
    SyncWrites(b, text);
    JoinSplit(text);
    RewriteAllTwice(a, b, None, SplitLines(text));
  }

  // ---------------------------------------------------------------------------
  // A second run
  // ---------------------------------------------------------------------------

  /** Two states that agree on all but what was written and which drifts were noted. */
  predicate Agree(s: State, t: State) {
    t == s.(out := t.out, drifts := t.drifts)
  }

  lemma StepAgain(cfg: Config, s: State, t: State, line: string)
    requires IsLine(line) && Clean(cfg) && Agree(s, t)
    ensures Agree(Step(cfg, s, line), Step(cfg, t, RewriteLine(cfg, s.current, line)))
    ensures Step(cfg, t, RewriteLine(cfg, s.current, line)).drifts == t.drifts
  {
    hide NameOf, KindOf, IsLine, Norm, PrintInt, AddressLine, StartBlockLine, NetworkLine, ValidationError, Clean;
    CleanIsBreakFree(cfg);
    LineWritten(cfg, s.current, line);
    LineReadBack(cfg, s.current, line);
    var line' := RewriteLine(cfg, s.current, line);
    assert t.drifts + [] == t.drifts;
    if NameOf(line).None? && MetaOf(cfg, s.current).Some? {
      var m := MetaOf(cfg, s.current).value;
      NormTwice(m.address);
      var ds := s.current.value;
      var key := cfg.nameMap[ds];
      PatchAgain(cfg, Validate(cfg, s, ds, key, m), Validate(cfg, t, ds, key, m), ds, m, line);
    }
  }

  lemma PatchAgain(cfg: Config, s: State, t: State, ds: string, m: Meta, line: string)
    requires Agree(s, t) && MetaOf(cfg, Some(ds)) == Some(m) && NameOf(line).None?
    requires KindOf(EditLine(cfg, m, line)) == WrittenKind(cfg, Some(ds), line)
    ensures Agree(Patch(cfg, s, ds, m, line), Patch(cfg, t, ds, m, EditLine(cfg, m, line)))
    ensures Patch(cfg, t, ds, m, EditLine(cfg, m, line)).drifts == t.drifts
  {
    hide NameOf, KindOf, Norm, PrintInt, AddressLine, StartBlockLine, NetworkLine;
    NormTwice(m.address);
    assert t.drifts + [] == t.drifts;
  }

  lemma {:induction false} RunAgain(cfg: Config, s: State, t: State, lines: seq<string>)
    requires Lined(lines) && Clean(cfg) && Agree(s, t)
    ensures Agree(Run(cfg, s, lines), Run(cfg, t, RewriteAll(cfg, s.current, lines)))
    ensures Run(cfg, t, RewriteAll(cfg, s.current, lines)).drifts == t.drifts
    decreases |lines|
  {
    hide Step, RewriteLine, Clean, IsLine, Next;
    if lines != [] {
      hide Lined;
      LinedCons(lines);
      StepWrites(cfg, s, lines[0]);
      StepAgain(cfg, s, t, lines[0]);
      var line' := RewriteLine(cfg, s.current, lines[0]);
      var rest' := RewriteAll(cfg, Next(s.current, lines[0]), lines[1..]);
      RunAgain(cfg, Step(cfg, s, lines[0]), Step(cfg, t, line'), lines[1..]);
      assert ([line'] + rest')[1..] == rest';
    }
  }

  /** A second run writes the same text, reports the same errors, and notes no drift. */
  lemma SecondRun(cfg: Config, text: string)
    requires Clean(cfg)
    ensures var once := Sync(cfg, text);
      Sync(cfg, once.text) == Result(once.text, once.errors, [])
  {
    hide SplitLines, Join, Lined, Clean, RewriteAll, Run;
    CleanIsBreakFree(cfg);
    assert Covers(cfg, cfg);
    Absorption(cfg, cfg, text);
    SyncedLines(cfg, text);
    JoinSplit(text);
    RunAgain(cfg, START, START, SplitLines(text));
  }

  // ---------------------------------------------------------------------------
  // Frame and soundness, line by line
  // ---------------------------------------------------------------------------

  /** The data source that is active before the `k`-th line. */
  function ActiveAt(ds: Option<string>, lines: seq<string>, k: nat): Option<string>
    requires k <= |lines|
    decreases k
  {
    if k == 0 then ds else ActiveAt(Next(ds, lines[0]), lines[1..], k - 1)
  }

  lemma {:induction false} RewriteAt(cfg: Config, ds: Option<string>, lines: seq<string>, k: nat)
    requires Lined(lines) && BreakFree(cfg) && k < |lines|
    ensures var lines' := RewriteAll(cfg, ds, lines);
      && |lines'| == |lines| && IsLine(lines[k])
      && lines'[k] == RewriteLine(cfg, ActiveAt(ds, lines, k), lines[k])
      && ActiveAt(ds, lines', k) == ActiveAt(ds, lines, k)
    decreases k
  {
    hide RewriteLine, BreakFree, IsLine, NameOf;
    LinedCons(lines);
    LineWritten(cfg, ds, lines[0]);
    RewriteIsLined(cfg, ds, lines);
    if k > 0 {
      hide Lined;
      var rest' := RewriteAll(cfg, Next(ds, lines[0]), lines[1..]);
      RewriteAt(cfg, Next(ds, lines[0]), lines[1..], k - 1);
      assert RewriteAll(cfg, ds, lines)[1..] == rest';
    }
  }

  /**
   The synchronised text has as many lines as the manifest. Line by line the active data source is
   the same; a line that is no address, start block or expected network line of a deployed source
   is the same too; and every other one is read back as the deployment's value, with its indent.
   */
  lemma SyncSoundness(cfg: Config, text: string, k: nat)
    requires Clean(cfg) && k < |SplitLines(text)|
    ensures var lines, lines' := SplitLines(text), SplitLines(Sync(cfg, text).text);
      && |lines'| == |lines|
      && ActiveAt(None, lines', k) == ActiveAt(None, lines, k)
      && NameOf(lines'[k]) == NameOf(lines[k])
      && KindOf(lines'[k]) == WrittenKind(cfg, ActiveAt(None, lines, k), lines[k])
      && (lines'[k] == lines[k] ||
          (NameOf(lines[k]).None? && MetaOf(cfg, ActiveAt(None, lines, k)).Some? && KindOf(lines[k]) != Other
           && (KindOf(lines[k]).Network? ==> cfg.network.Some?)))
  {
    hide SplitLines, Join, Lined, Clean, Sync, NameOf, KindOf, IsLine, RewriteAll, ActiveAt, WrittenKind;
    CleanIsBreakFree(cfg);
    SyncedLines(cfg, text);
    JoinSplit(text);
    var lines := SplitLines(text);
    RewriteAt(cfg, None, lines, k);
    LineWritten(cfg, ActiveAt(None, lines, k), lines[k]);
    LineReadBack(cfg, ActiveAt(None, lines, k), lines[k]);
  }

  // ---------------------------------------------------------------------------
  // When a run reports no error
  // ---------------------------------------------------------------------------

  predicate IsValidDeployment(cfg: Config, ds: string) {
    HasDeployment(cfg, ds) && ValidationError(cfg, cfg.nameMap[ds], Deployment(cfg, ds)) == None
  }

  /** A line in a known data source's block, whose deployment is there and valid. */
  predicate LineDeployed(cfg: Config, ds: Option<string>, line: string) {
    NameOf(line).None? && IsKnown(cfg, ds) ==> IsValidDeployment(cfg, ds.value)
  }

  predicate AllDeployed(cfg: Config, ds: Option<string>, lines: seq<string>)
    decreases |lines|
  {
    lines == [] || (LineDeployed(cfg, ds, lines[0]) && AllDeployed(cfg, Next(ds, lines[0]), lines[1..]))
  }

  /** The block of `target` has an address line. */
  predicate HasAddressLine(cfg: Config, ds: Option<string>, lines: seq<string>, target: string)
    decreases |lines|
  {
    lines != [] &&
    (|| (ds == Some(target) && NameOf(lines[0]).None? && HasDeployment(cfg, target) && KindOf(lines[0]).Address?)
     || HasAddressLine(cfg, Next(ds, lines[0]), lines[1..], target))
  }

  predicate HasStartBlockLine(cfg: Config, ds: Option<string>, lines: seq<string>, target: string)
    decreases |lines|
  {
    lines != [] &&
    (|| (ds == Some(target) && NameOf(lines[0]).None? && HasDeployment(cfg, target) && KindOf(lines[0]).StartBlock?)
     || HasStartBlockLine(cfg, Next(ds, lines[0]), lines[1..], target))
  }

  predicate IsNamed(lines: seq<string>, target: string) {
    lines != [] && (NameOf(lines[0]) == Some(target) || IsNamed(lines[1..], target))
  }

  /** Whatever was validated is deployed, and validly so as long as no error was noted. */
  ghost predicate ValidatedSound(cfg: Config, s: State) {
    forall ds | ds in s.validated :: HasDeployment(cfg, ds) && (s.errors == [] ==> IsValidDeployment(cfg, ds))
  }

  lemma StepErrors(cfg: Config, s: State, line: string)
    requires ValidatedSound(cfg, s)
    ensures ValidatedSound(cfg, Step(cfg, s, line))
    ensures Step(cfg, s, line).errors == [] <==> s.errors == [] && LineDeployed(cfg, s.current, line)
  {
    hide NameOf, KindOf, Norm, PrintInt, AddressLine, StartBlockLine, NetworkLine, ValidationError;
  }

  lemma {:induction false} RunErrors(cfg: Config, s: State, lines: seq<string>)
    requires ValidatedSound(cfg, s)
    ensures Run(cfg, s, lines).errors == [] <==> s.errors == [] && AllDeployed(cfg, s.current, lines)
    decreases |lines|
  {
    hide Step, ValidatedSound, LineDeployed, Next;
    if lines != [] {
      StepErrors(cfg, s, lines[0]);
      StepWrites(cfg, s, lines[0]);
      RunErrors(cfg, Step(cfg, s, lines[0]), lines[1..]);
    }
  }

  lemma StepFinds(cfg: Config, s: State, line: string, target: string)
    ensures var s' := Step(cfg, s, line);
      var here := s.current == Some(target) && NameOf(line).None? && HasDeployment(cfg, target);
      && (target in s'.addressed <==> target in s.addressed || (here && KindOf(line).Address?))
      && (target in s'.blocked <==> target in s.blocked || (here && KindOf(line).StartBlock?))
      && (target in s'.seen <==> target in s.seen || (target in cfg.nameMap && NameOf(line) == Some(target)))
  {
    hide NameOf, KindOf, Norm, PrintInt, AddressLine, StartBlockLine, NetworkLine, ValidationError;
  }

  lemma {:induction false} RunFinds(cfg: Config, s: State, lines: seq<string>, target: string)
    ensures var r := Run(cfg, s, lines);
      && (target in r.addressed <==> target in s.addressed || HasAddressLine(cfg, s.current, lines, target))
      && (target in r.blocked <==> target in s.blocked || HasStartBlockLine(cfg, s.current, lines, target))
      && (target in r.seen <==> target in s.seen || (target in cfg.nameMap && IsNamed(lines, target)))
    decreases |lines|
  {
    hide Step, KindOf, HasDeployment, NameOf;
    if lines != [] {
      StepFinds(cfg, s, lines[0], target);
      StepWrites(cfg, s, lines[0]);
      RunFinds(cfg, Step(cfg, s, lines[0]), lines[1..], target);
    }
  }

  lemma {:induction false} NothingUnpatched(seen: seq<string>, addressed: set<string>, blocked: set<string>)
    ensures Unpatched(seen, addressed, blocked) == [] <==> forall ds | ds in seen :: ds in addressed && ds in blocked
    decreases |seen|
  {
    if seen != [] {
      NothingUnpatched(seen[1..], addressed, blocked);
      assert seen == [seen[0]] + seen[1..];
    }
  }

  /**
   A run reports no error exactly when every line in a known data source's block finds a valid
   deployment, and every known data source that is named has an address and a start block line.
   */
  lemma NoErrorsExactly(cfg: Config, text: string)
    ensures var lines := SplitLines(text);
      Sync(cfg, text).errors == [] <==>
        && AllDeployed(cfg, None, lines)
        && forall ds | ds in cfg.nameMap && IsNamed(lines, ds) ::
             HasAddressLine(cfg, None, lines, ds) && HasStartBlockLine(cfg, None, lines, ds)
  {
    hide SplitLines, Run, AllDeployed, HasAddressLine, HasStartBlockLine, IsNamed, Unpatched, Join;
    var lines := SplitLines(text);
    var r := Run(cfg, START, lines);
    RunErrors(cfg, START, lines);
    NothingUnpatched(r.seen, r.addressed, r.blocked);
    forall ds: string
      ensures ds in r.addressed <==> HasAddressLine(cfg, None, lines, ds)
      ensures ds in r.blocked <==> HasStartBlockLine(cfg, None, lines, ds)
      ensures ds in r.seen <==> ds in cfg.nameMap && IsNamed(lines, ds)
    {
      RunFinds(cfg, START, lines, ds);
    }
  }

  // ---------------------------------------------------------------------------
  // Check mode
  // ---------------------------------------------------------------------------

  /** A line that is rewritten to itself notes no drift. */
  lemma UnchangedStep(cfg: Config, s: State, line: string)
    requires IsLine(line) && BreakFree(cfg) && RewriteLine(cfg, s.current, line) == line
    ensures Step(cfg, s, line).drifts == s.drifts
  {
    hide NameOf, KindOf, IsLine, Norm, PrintInt, AddressLine, StartBlockLine, NetworkLine, ValidationError, NoBreaks,
      AllSpace, IsNetworkName;
    assert s.drifts + [] == s.drifts;
    if NameOf(line).None? && MetaOf(cfg, s.current).Some? && KindOf(line) != Other {
      var m := MetaOf(cfg, s.current).value;
      assert HasDeployment(cfg, s.current.value);
      KindIndent(line);
      match KindOf(line) {
        case Address(indent, _) =>
          AddressReadBack(indent, Norm(m.address));
          NormTwice(m.address);
        case StartBlock(indent, _) => StartBlockReadBack(indent, m.startBlock);
        case Network(indent, _) =>
          if cfg.network.Some? {
            NetworkReadBack(indent, cfg.network.value);
          }
        case Other =>
      }
    }
  }

  lemma {:induction false} UnchangedRun(cfg: Config, s: State, lines: seq<string>)
    requires Lined(lines) && BreakFree(cfg) && RewriteAll(cfg, s.current, lines) == lines
    ensures Run(cfg, s, lines).drifts == s.drifts
    decreases |lines|
  {
    hide Step, RewriteLine, BreakFree, IsLine, Next;
    if lines != [] {
      hide Lined;
      LinedCons(lines);
      var rest' := RewriteAll(cfg, Next(s.current, lines[0]), lines[1..]);
      assert RewriteAll(cfg, s.current, lines)[1..] == rest';
      StepWrites(cfg, s, lines[0]);
      UnchangedStep(cfg, s, lines[0]);
      UnchangedRun(cfg, Step(cfg, s, lines[0]), lines[1..]);
    }
  }

  /** A recorded drift means that the text changes. */
  lemma DriftChangesText(cfg: Config, text: string)
    requires BreakFree(cfg) && Sync(cfg, text).drifts != []
    ensures Sync(cfg, text).text != text
  {
    hide SplitLines, Join, Lined, BreakFree, RewriteAll, Run;
    if Sync(cfg, text).text == text {
      JoinSplit(text);
      SyncedLines(cfg, text);
      UnchangedRun(cfg, START, SplitLines(text));
    }
  }

  /** The script's exit code and the manifest it leaves. */
  datatype Exit = Exit(code: nat, manifest: string)

  function RunScript(cfg: Config, text: string, check: bool): Exit {
    var r := Sync(cfg, text);
    if r.errors != [] then Exit(2, text)
    else if check then Exit(if r.drifts != [] || text != r.text then 1 else 0, text)
    else Exit(0, r.text)
  }

  /** Check mode passes exactly the manifests that a write run accepts and leaves untouched. */
  lemma CheckAcceptsFixedPoints(cfg: Config, text: string)
    requires BreakFree(cfg)
    ensures RunScript(cfg, text, true).code == 0 <==> RunScript(cfg, text, false) == Exit(0, text)
    ensures RunScript(cfg, text, true).manifest == text
  {
    hide Sync, BreakFree;
    if Sync(cfg, text).drifts != [] {
      DriftChangesText(cfg, text);
    }
  }

  /** The script's exit codes: 2 for errors, and 1 for a manifest that check mode finds out of step. */
  lemma ScriptExactly(cfg: Config, text: string)
    requires BreakFree(cfg)
    ensures var r := Sync(cfg, text);
      && RunScript(cfg, text, false) == (if r.errors != [] then Exit(2, text) else Exit(0, r.text))
      && RunScript(cfg, text, true)
           == Exit(if r.errors != [] then 2 else if r.text != text then 1 else 0, text)
  {
    hide Sync, BreakFree;
    if Sync(cfg, text).drifts != [] {
      DriftChangesText(cfg, text);
    }
  }

  // ---------------------------------------------------------------------------
  // Only the data sources that are named matter
  // ---------------------------------------------------------------------------

  function NamedIn(lines: seq<string>): set<string> {
    if lines == [] then {}
    else (match NameOf(lines[0]) case None => {} case Some(ds) => {ds}) + NamedIn(lines[1..])
  }

  lemma {:induction false} NamedExactly(lines: seq<string>, ds: string)
    ensures ds in NamedIn(lines) <==> IsNamed(lines, ds)
    decreases |lines|
  {
    hide NameOf;
    if lines != [] {
      NamedExactly(lines[1..], ds);
    }
  }

  lemma {:induction false} RewriteKeepsNames(cfg: Config, ds: Option<string>, lines: seq<string>)
    requires Lined(lines) && BreakFree(cfg)
    ensures NamedIn(RewriteAll(cfg, ds, lines)) == NamedIn(lines)
    decreases |lines|
  {
    hide RewriteLine, BreakFree, IsLine, NameOf;
    if lines != [] {
      hide Lined;
      LinedCons(lines);
      LineWritten(cfg, ds, lines[0]);
      RewriteKeepsNames(cfg, Next(ds, lines[0]), lines[1..]);
      assert RewriteAll(cfg, ds, lines)[1..] == RewriteAll(cfg, Next(ds, lines[0]), lines[1..]);
    }
  }

  /** The same deployment with a table of no other data sources than these. */
  function Restrict(cfg: Config, keep: set<string>): Config {
    cfg.(nameMap := map ds | ds in cfg.nameMap && ds in keep :: cfg.nameMap[ds])
  }

  lemma StepRestricted(cfg: Config, keep: set<string>, s: State, line: string)
    requires s.current.Some? ==> s.current.value in keep
    requires NameOf(line).Some? ==> NameOf(line).value in keep
    ensures Step(Restrict(cfg, keep), s, line) == Step(cfg, s, line)
  {
    hide NameOf, KindOf, Norm, PrintInt, AddressLine, StartBlockLine, NetworkLine;
  }

  lemma {:induction false} RunRestricted(cfg: Config, keep: set<string>, s: State, lines: seq<string>)
    requires (s.current.Some? ==> s.current.value in keep) && NamedIn(lines) <= keep
    ensures Run(Restrict(cfg, keep), s, lines) == Run(cfg, s, lines)
    decreases |lines|
  {
    hide Step, NameOf, Restrict;
    if lines != [] {
      StepRestricted(cfg, keep, s, lines[0]);
      StepWrites(cfg, s, lines[0]);
      RunRestricted(cfg, keep, Step(cfg, s, lines[0]), lines[1..]);
    }
  }

  /** Every data source that the manifest names is deployed with values that can be read back. */
  predicate NamedAreWritable(cfg: Config, text: string) {
    forall ds | ds in NamedIn(SplitLines(text)) && ds in cfg.nameMap ::
      HasDeployment(cfg, ds) && IsWritable(Deployment(cfg, ds))
  }

  lemma RestrictedIsClean(cfg: Config, text: string)
    requires BreakFree(cfg) && NamedAreWritable(cfg, text)
    ensures Clean(Restrict(cfg, NamedIn(SplitLines(text))))
  {
    hide NamedIn, SplitLines, Norm, IsWritable, NoBreaks, IsNetworkName;
    var c := Restrict(cfg, NamedIn(SplitLines(text)));
    forall ds | HasDeployment(c, ds)
      ensures NoBreaks(Norm(Deployment(c, ds).address)) && IsWritable(Deployment(c, ds))
    {
      assert HasDeployment(cfg, ds) && Deployment(cfg, ds) == Deployment(c, ds);
    }
  }

  /** A second run repeats the first as soon as the named data sources can be read back. */
  lemma SecondRunNamed(cfg: Config, text: string)
    requires BreakFree(cfg) && NamedAreWritable(cfg, text)
    ensures var once := Sync(cfg, text);
      Sync(cfg, once.text) == Result(once.text, once.errors, [])
  {
    hide SplitLines, Join, Lined, BreakFree, RewriteAll, Run, Restrict, NamedAreWritable, Clean, Unpatched, NamedIn;
    var keep := NamedIn(SplitLines(text));
    var once := Sync(cfg, text);
    RestrictedIsClean(cfg, text);
    RunRestricted(cfg, keep, START, SplitLines(text));
    SecondRun(Restrict(cfg, keep), text);
    SyncedLines(cfg, text);
    JoinSplit(text);
    RewriteKeepsNames(cfg, None, SplitLines(text));
    RunRestricted(cfg, keep, START, SplitLines(once.text));
  }

  /** An address line stays one only with a value that can be read back; a start block line likewise. */
  lemma KindAfter(cfg: Config, ds: Option<string>, line: string)
    requires IsLine(line) && BreakFree(cfg) && NameOf(line).None? && MetaOf(cfg, ds).Some?
    ensures var m := MetaOf(cfg, ds).value;
      && (KindOf(RewriteLine(cfg, ds, line)).Address? ==> Norm(m.address) != "" && '"' !in Norm(m.address))
      && (KindOf(RewriteLine(cfg, ds, line)).StartBlock? ==> m.startBlock >= 0)
  {
    hide NameOf, KindOf, IsLine, Norm, PrintInt, NoBreaks, AllSpace, IsNetworkName, AddressLine, StartBlockLine,
      NetworkLine;
    var m := MetaOf(cfg, ds).value;
    assert HasDeployment(cfg, ds.value);
    if KindOf(line) != Other {
      KindIndent(line);
      match KindOf(line) {
        case Address(indent, _) => AddressReadBack(indent, Norm(m.address));
        case StartBlock(indent, _) => StartBlockReadBack(indent, m.startBlock);
        case Network(indent, _) =>
          if cfg.network.Some? {
            NetworkReadBack(indent, cfg.network.value);
          }
        case Other =>
      }
    }
  }

  lemma {:induction false} LinesAfter(cfg: Config, ds: Option<string>, lines: seq<string>, target: string)
    requires Lined(lines) && BreakFree(cfg) && HasDeployment(cfg, target)
    ensures var m, lines' := Deployment(cfg, target), RewriteAll(cfg, ds, lines);
      && (HasAddressLine(cfg, ds, lines', target) ==> Norm(m.address) != "" && '"' !in Norm(m.address))
      && (HasStartBlockLine(cfg, ds, lines', target) ==> m.startBlock >= 0)
    decreases |lines|
  {
    hide RewriteLine, BreakFree, IsLine, NameOf, KindOf, Norm;
    if lines != [] {
      hide Lined;
      LinedCons(lines);
      LineWritten(cfg, ds, lines[0]);
      LinesAfter(cfg, Next(ds, lines[0]), lines[1..], target);
      assert RewriteAll(cfg, ds, lines)[1..] == RewriteAll(cfg, Next(ds, lines[0]), lines[1..]);
      if ds == Some(target) && NameOf(lines[0]).None? {
        KindAfter(cfg, ds, lines[0]);
      }
    }
  }

  lemma {:induction false} AddressLineDeployed(cfg: Config, ds: Option<string>, lines: seq<string>, target: string)
    requires HasAddressLine(cfg, ds, lines, target)
    ensures HasDeployment(cfg, target)
    decreases |lines|
  {
    hide NameOf, KindOf;
    if !HasDeployment(cfg, target) {
      AddressLineDeployed(cfg, Next(ds, lines[0]), lines[1..], target);
    }
  }

  /** Without errors, before and after, a named data source has values that can be read back. */
  lemma NamedIsWritable(cfg: Config, text: string, ds: string)
    requires BreakFree(cfg) && ds in cfg.nameMap && ds in NamedIn(SplitLines(text))
    requires Sync(cfg, Sync(cfg, text).text).errors == []
    ensures HasDeployment(cfg, ds) && IsWritable(Deployment(cfg, ds))
  {
    hide SplitLines, Join, Lined, BreakFree, RewriteAll, Sync, HasDeployment, HasAddressLine, HasStartBlockLine,
      IsNamed, NamedIn, Norm, AllDeployed;
    var lines := SplitLines(text);
    var lines' := RewriteAll(cfg, None, lines);
    JoinSplit(text);
    SyncedLines(cfg, text);
    RewriteKeepsNames(cfg, None, lines);
    NamedExactly(lines', ds);
    NoErrorsExactly(cfg, Sync(cfg, text).text);
    AddressLineDeployed(cfg, None, lines', ds);
    LinesAfter(cfg, None, lines, ds);
  }

  /**
   After a successful write run, check mode passes exactly when every known data source that the
   manifest names is deployed with a quotable address and a start block that is not negative.
   */
  lemma WriteThenCheck(cfg: Config, text: string)
    requires BreakFree(cfg) && RunScript(cfg, text, false).code == 0
    ensures RunScript(cfg, RunScript(cfg, text, false).manifest, true).code == 0 <==> NamedAreWritable(cfg, text)
  {
    hide Sync, BreakFree, SplitLines, NamedIn, HasDeployment, IsWritable;
    var once := Sync(cfg, text);
    if NamedAreWritable(cfg, text) {
      SecondRunNamed(cfg, text);
    } else if Sync(cfg, once.text).errors == [] {
      forall ds | ds in NamedIn(SplitLines(text)) && ds in cfg.nameMap
        ensures HasDeployment(cfg, ds) && IsWritable(Deployment(cfg, ds))
      {
        NamedIsWritable(cfg, text, ds);
      }
    }
  }

  /**
   Why the start blocks must not be negative: what such a deployment writes is no start block line
   any more, so that no later run, to whatever deployment, can put another value in its place.
   */
  lemma NegativeStartBlockSticks(a: Config, b: Config, ds: Option<string>, line: string)
    requires IsLine(line) && NameOf(line).None? && KindOf(line).StartBlock?
    requires MetaOf(a, ds).Some? && MetaOf(a, ds).value.startBlock < 0
    ensures RewriteLine(b, ds, RewriteLine(a, ds, line)) == RewriteLine(a, ds, line)
  {
    hide NameOf, KindOf, IsLine, Norm, PrintInt, StartBlockLine;
    KindIndent(line);
    StartBlockReadBack(KindOf(line).indent, MetaOf(a, ds).value.startBlock);
  }

  /** An address that is empty, or holds a quote, sticks in the same way. */
  lemma UnquotableAddressSticks(a: Config, b: Config, ds: Option<string>, line: string)
    requires IsLine(line) && NameOf(line).None? && KindOf(line).Address?
    requires MetaOf(a, ds).Some? && NoBreaks(Norm(MetaOf(a, ds).value.address))
    requires var value := Norm(MetaOf(a, ds).value.address); value == "" || '"' in value
    ensures RewriteLine(b, ds, RewriteLine(a, ds, line)) == RewriteLine(a, ds, line)
  {
    hide NameOf, KindOf, IsLine, Norm, PrintInt, AddressLine;
    KindIndent(line);
    AddressReadBack(KindOf(line).indent, Norm(MetaOf(a, ds).value.address));
  }
}
