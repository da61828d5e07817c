/**
 Grafting before or after a synchronisation.

 A search for a top-level key sees a line only behind a newline. A line that ends in another break, or
 in none, hides the key behind it; when the synchroniser rewrites such a line, the key comes to light.
 */
module GraftOrder {
  import opened Text
  import opened ManifestLines
  import opened ManifestSync
  import opened ManifestRewrite
  import opened ManifestTheorems
  import opened Graft

  predicate EndsInNewline(line: string) { line != "" && line[|line| - 1] == '\n' }

  // ---------------------------------------------------------------------------
  // Which lines a search sees
  // ---------------------------------------------------------------------------

  /** Some line that a search can see starts with the key; `visible` says whether it sees the first. */
  predicate SeesKey(lines: seq<string>, key: string, visible: bool) {
    lines != [] && ((visible && Starts(lines[0], key)) || SeesKey(lines[1..], key, EndsInNewline(lines[0])))
  }

  /** The search of a text whose start does or does not count as a line start. */
  predicate Finds(text: string, key: string, visible: bool) {
    exists i: nat | i < |text| :: FoundAt(text, key, visible, i)
  }

  predicate FoundAt(text: string, key: string, visible: bool, i: nat)
    requires i < |text|
  {
    At(text, i, key) && (if i == 0 then visible else text[i - 1] == '\n')
  }

  lemma FindsIsTopLevel(text: string, key: string)
    ensures Finds(text, key, true) <==> HasTopLevel(text, key)
  {
    if HasTopLevel(text, key) {
      var i: nat :| i < |text| && At(text, i, key) && (i == 0 || text[i - 1] == '\n');
      assert FoundAt(text, key, true, i);
    }
  }

  /** In a line, a newline is the last character. */
  lemma NewlineIsLast(line: string, j: nat)
    requires IsLine(line) && j < |line| && line[j] == '\n'
    ensures j == |line| - 1
  {
    var b := BodyLen(line);
    BodyFree(line);
    assert forall k | 0 <= k < b :: line[..b][k] == line[k];
  }

  /** A key at a line's start stands in that line. */
  lemma KeyFits(line: string, rest: string, key: string)
    requires IsLine(line) && EndsBefore(line, rest) && NoBreaks(key) && At(line + rest, 0, key)
    ensures Starts(line, key)
  {
    assert rest == "" ==> line + rest == line;
    forall k | 0 <= k < |key| && k < |line| ensures line[k] == key[k] {
      AtChar(line + rest, 0, key, k);
    }
  }

  lemma KeyStays(line: string, rest: string, key: string)
    requires Starts(line, key)
    ensures At(line + rest, 0, key)
  {
    forall k | 0 <= k < |key| ensures (line + rest)[k] == key[k] {
      AtChar(line, 0, key, k);
    }
  }

  lemma AtBehind(line: string, rest: string, i: nat, key: string)
    requires i >= |line| && At(line + rest, i, key)
    ensures At(rest, i - |line|, key)
  {
    forall k | 0 <= k < |key| ensures rest[i - |line| + k] == key[k] {
      AtChar(line + rest, i, key, k);
    }
  }

  /** What a search finds is in the first line or behind it. */
  lemma FindsFirst(line: string, rest: string, key: string, visible: bool)
    requires line != "" && IsLine(line) && EndsBefore(line, rest) && NoBreaks(key) && key != ""
    ensures Finds(line + rest, key, visible)
       <==> (visible && Starts(line, key)) || Finds(rest, key, EndsInNewline(line))
  {
    hide IsLine, EndsBefore, NoBreaks;
    var t := line + rest;
    if visible && Starts(line, key) {
      KeyStays(line, rest, key);
      assert FoundAt(t, key, visible, 0);
    }
    if Finds(rest, key, EndsInNewline(line)) {
      var i: nat :| i < |rest| && FoundAt(rest, key, EndsInNewline(line), i);
      AtShift(line, rest, i, key);
      assert t[|line| + i - 1] == if i == 0 then line[|line| - 1] else rest[i - 1];
      assert FoundAt(t, key, visible, |line| + i);
    }
    if Finds(t, key, visible) {
      var i: nat :| i < |t| && FoundAt(t, key, visible, i);
      if i == 0 {
        KeyFits(line, rest, key);
      } else {
        if i < |line| {
          NewlineIsLast(line, i - 1);
        }
        FoundBehind(line, rest, key, i);
      }
    }
  }

  lemma FoundBehind(line: string, rest: string, key: string, i: nat)
    requires line != "" && key != "" && |line| <= i && At(line + rest, i, key) && (line + rest)[i - 1] == '\n'
    ensures Finds(rest, key, EndsInNewline(line))
  {
    AtBehind(line, rest, i, key);
    var j: nat := i - |line|;
    assert (line + rest)[i - 1] == if j == 0 then line[|line| - 1] else rest[j - 1];
    assert FoundAt(rest, key, EndsInNewline(line), j);
  }

  lemma {:induction false} FindsInLines(text: string, key: string, visible: bool)
    requires NoBreaks(key) && key != ""
    ensures Finds(text, key, visible) <==> SeesKey(SplitLines(text), key, visible)
    decreases |text|
  {
    hide SplitLines, IsLine, EndsBefore, Finds, Starts, NoBreaks;
    if text == "" {
      NothingFound(key, visible);
    } else {
      var line, rest := SplitFirst(text);
      FindsFirst(line, rest, key, visible);
      FindsInLines(rest, key, EndsInNewline(line));
      assert ([line] + SplitLines(rest))[1..] == SplitLines(rest);
    }
  }

  lemma NothingFound(key: string, visible: bool)
    ensures !Finds("", key, visible) && SplitLines("") == []
  {
  }

  // ---------------------------------------------------------------------------
  // Keys that a synchronisation brings to light
  // ---------------------------------------------------------------------------

  /** The line is rewritten and gains the newline it did not end in. */
  predicate GainsNewline(cfg: Config, ds: Option<string>, line: string) {
    RewriteLine(cfg, ds, line) != line && !EndsInNewline(line)
  }

  /** A line that starts with the key stands right behind one that gains a newline. */
  predicate Uncovers(cfg: Config, ds: Option<string>, lines: seq<string>, key: string, gained: bool)
    decreases |lines|
  {
    lines != [] &&
    (|| (gained && Starts(lines[0], key))
     || Uncovers(cfg, Next(ds, lines[0]), lines[1..], key, GainsNewline(cfg, ds, lines[0])))
  }

  /** Synchronising the text brings a hidden top-level key to light. */
  predicate UncoversKey(cfg: Config, text: string, key: string) {
    Uncovers(cfg, None, SplitLines(text), key, false)
  }

  lemma RewrittenEnd(cfg: Config, ds: Option<string>, line: string)
    requires IsLine(line) && BreakFree(cfg)
    ensures EndsInNewline(RewriteLine(cfg, ds, line)) <==> EndsInNewline(line) || GainsNewline(cfg, ds, line)
  {
    hide RewriteLine, BreakFree, NameOf, BodyLen;
    LineWritten(cfg, ds, line);
  }

  lemma {:induction false} RewriteUncovers(
      cfg: Config, ds: Option<string>, lines: seq<string>, top: string, visible: bool, gained: bool)
    requires BreakFree(cfg) && IsTopKey(top) && forall line | line in lines :: IsLine(line)
    ensures SeesKey(RewriteAll(cfg, ds, lines), top, visible || gained)
       <==> SeesKey(lines, top, visible) || Uncovers(cfg, ds, lines, top, gained)
    decreases |lines|
  {
    hide RewriteLine, Next, BreakFree, IsLine, Starts, IsTopKey, EndsInNewline, GainsNewline;
    if lines != [] {
      RewriteKeepsTop(cfg, ds, lines[0], top);
      RewrittenEnd(cfg, ds, lines[0]);
      RewriteUncovers(cfg, Next(ds, lines[0]), lines[1..], top,
        EndsInNewline(lines[0]), GainsNewline(cfg, ds, lines[0]));
      assert RewriteAll(cfg, ds, lines)[1..] == RewriteAll(cfg, Next(ds, lines[0]), lines[1..]);
    }
  }

  lemma TopKeyHasNoBreaks(top: string)
    requires IsTopKey(top)
    ensures NoBreaks(top) && top != ""
  {
  }

  /**
   Synchronising makes no top-level key and removes none. It can only bring one to light: exactly when
   a line starting with it stands behind a line that gains a newline.
   */
  lemma SyncKeepsTopLevel(cfg: Config, text: string, top: string)
    requires BreakFree(cfg) && IsTopKey(top)
    ensures HasTopLevel(Sync(cfg, text).text, top) <==> HasTopLevel(text, top) || UncoversKey(cfg, text, top)
  {
    hide SplitLines, Join, HasTopLevel, Finds, BreakFree, RewriteAll, Lined, Sync, SeesKey, IsTopKey, Uncovers;
    TopKeyHasNoBreaks(top);
    JoinSplit(text);
    SyncedLines(cfg, text);
    LinedLines(SplitLines(text));
    FindsIsTopLevel(text, top);
    FindsIsTopLevel(Sync(cfg, text).text, top);
    FindsInLines(text, top, true);
    FindsInLines(Sync(cfg, text).text, top, true);
    RewriteUncovers(cfg, None, SplitLines(text), top, true, false);
  }

  /** Without a `specVersion:` line there is none after a synchronisation. */
  lemma SyncKeepsSpec(cfg: Config, text: string)
    requires BreakFree(cfg)
    ensures HasSpec(SplitLines(Sync(cfg, text).text)) <==> HasSpec(SplitLines(text))
  {
    hide SplitLines, BreakFree, RewriteAll, Lined, Sync, HasSpec;
    JoinSplit(text);
    SyncedLines(cfg, text);
    LinedLines(SplitLines(text));
    RewriteKeepsNoSpec(cfg, None, SplitLines(text));
  }

  // ---------------------------------------------------------------------------
  // The two orders
  // ---------------------------------------------------------------------------

  /**
   The order does not matter: grafting the synchronised manifest is synchronising the grafted one, and
   what refuses the one refuses the other for the same reason.
   */
  predicate Commutes(cfg: Config, text: string, base: string, block: int) {
    var direct := Inject(text, base, block);
    Inject(Sync(cfg, text).text, base, block) ==
      if direct.Injected? then Injected(Sync(cfg, direct.text).text) else direct
  }

  /**
   Grafting and synchronising commute, whether or not the `specVersion:` line ends in a newline,
   exactly when synchronising brings no `graft:` to light, nor a `features:`, that was not in sight
   and whose refusal was not decided already.
   */
  lemma GraftCommutes(cfg: Config, text: string, base: string, block: int)
    requires BreakFree(cfg) && NoBreaks(base)
    ensures Commutes(cfg, text, base, block)
       <==> HasTopLevel(text, GRAFT_KEY)
            || (!UncoversKey(cfg, text, GRAFT_KEY)
                && (HasTopLevel(text, FEATURES_KEY) || !UncoversKey(cfg, text, FEATURES_KEY)))
  {
    hide SplitLines, Join, HasTopLevel, BreakFree, Sync, UncoversKey, HasSpec, InjectLines, Block;
    SyncKeepsTopLevel(cfg, text, GRAFT_KEY);
    SyncKeepsTopLevel(cfg, text, FEATURES_KEY);
    SyncKeepsSpec(cfg, text);
    if HasSpec(SplitLines(text)) {
      GraftedSync(cfg, text, base, block);
    }
  }

  /** Every line but the last ends in a newline, alone or behind a carriage return. */
  predicate NewlineLines(lines: seq<string>) {
    forall k | 0 <= k < |lines| - 1 :: EndsInNewline(lines[k])
  }

  lemma {:induction false} NewlinesUncoverNothing(cfg: Config, ds: Option<string>, lines: seq<string>, key: string)
    requires NewlineLines(lines)
    ensures !Uncovers(cfg, ds, lines, key, false)
    decreases |lines|
  {
    hide RewriteLine, Next;
    if |lines| > 1 {
      assert EndsInNewline(lines[0]);
      assert forall k | 0 <= k < |lines[1..]| - 1 :: lines[1..][k] == lines[k + 1];
      NewlinesUncoverNothing(cfg, Next(ds, lines[0]), lines[1..], key);
    }
  }

  /** On a manifest whose lines end in newlines the order never matters. */
  lemma NewlinesCommute(cfg: Config, text: string, base: string, block: int)
    requires BreakFree(cfg) && NoBreaks(base) && NewlineLines(SplitLines(text))
    ensures Commutes(cfg, text, base, block)
  {
    hide SplitLines, Commutes, BreakFree, Uncovers, HasTopLevel, NoBreaks;
    GraftCommutes(cfg, text, base, block);
    NewlinesUncoverNothing(cfg, None, SplitLines(text), GRAFT_KEY);
    NewlinesUncoverNothing(cfg, None, SplitLines(text), FEATURES_KEY);
  }

  // ---------------------------------------------------------------------------
  // Manifests on which the order matters
  // ---------------------------------------------------------------------------

  /** An address line that ends in another break than a newline. */
  function OddLine(value: string, c: char): string { "    " + (ADDRESS_KEY + (" " + value)) + [c] }

  lemma OddLineIsLine(value: string, c: char)
    requires NoBreaks(value) && IsBreak(c)
    ensures IsLine(OddLine(value, c)) && BodyLen(OddLine(value, c)) < |OddLine(value, c)|
  {
    var body := "    " + (ADDRESS_KEY + (" " + value));
    NoBreaksConcat(" ", value);
    BodyHasNoBreaks("    ", ADDRESS_KEY, " " + value);
    assert OddLine(value, c)[..|body|] == body;
    BodyLenExact(OddLine(value, c), |body|);
  }

  /** The break is captured with the address. */
  lemma OddLineIsAddress(value: string, c: char)
    requires NoBreaks(value) && '"' !in value && IsBreak(c) && c != '\n'
    ensures NameOf(OddLine(value, c)) == None && KindOf(OddLine(value, c)).Address?
  {
    hide MatchAddress, MatchKey, MatchWord, Chomp;
    var rest := " " + (value + [c]);
    OddLineText(value, c);
    KeyedText("    ", ADDRESS_KEY, rest, NAME_KEY);
    KeyedText("    ", ADDRESS_KEY, rest, ADDRESS_KEY);
    OddAddressMatches(value, c);
  }

  lemma OddLineText(value: string, c: char)
    requires c != '\n'
    ensures Chomp(OddLine(value, c)) == OddLine(value, c) == "    " + (ADDRESS_KEY + (" " + (value + [c])))
  {
    Regroup("    ", ADDRESS_KEY + (" " + value), [c]);
    Regroup(ADDRESS_KEY, " " + value, [c]);
    Regroup(" ", value, [c]);
  }

  lemma OddAddressMatches(value: string, c: char)
    requires '"' !in value && IsBreak(c)
    ensures MatchAddress(" " + (value + [c])).Some?
  {
    hide MatchAddress;
    var rest := " " + (value + [c]);
    assert rest == " " + ("" + ((value + [c]) + ("" + "")));
    assert IsAddressSplit(rest, " ", "", value + [c], "", "");
    MatchAddressComplete(rest, " ", "", value + [c], "", "");
  }

  /** The line is rewritten, and gains a newline. */
  lemma OddLineGains(cfg: Config, name: string, value: string, c: char)
    requires BreakFree(cfg) && HasDeployment(cfg, name)
    requires NoBreaks(value) && '"' !in value && IsBreak(c) && c != '\n'
    ensures GainsNewline(cfg, Some(name), OddLine(value, c))
  {
    hide NameOf, KindOf, Norm, OddLine;
    OddLineIsAddress(value, c);
    OddLineEnd(value, c);
  }

  lemma OddLineEnd(value: string, c: char)
    ensures OddLine(value, c) != "" && OddLine(value, c)[|OddLine(value, c)| - 1] == c && OddLine(value, c)[0] == ' '
  {
  }

  lemma ThreeLines(a: string, b: string, c: string)
    requires IsLine(a) && IsLine(b) && IsLine(c) && EndsInNewline(a)
    requires BodyLen(a) < |a| && BodyLen(b) < |b| && c[0] != '\n'
    ensures SplitLines(a + (b + c)) == [a, b, c]
  {
    hide IsLine, BodyLen;
    assert [c][1..] == [] && Join([c]) == c && Lined([c]);
    JoinCons(b, [c]);
    JoinCons(a, [b] + [c]);
    assert [a] + ([b] + [c]) == [a, b, c];
    hide Lined, Join;
    SplitJoin([a, b, c]);
  }

  /**
   A `graft:` behind an address line that ends in a vertical tab, say, is not seen before the
   synchronisation, and is after it: the manifest is refused in one order only.
   */
  lemma OrderMatters(cfg: Config, name: string, value: string, c: char, base: string, block: int)
    requires BreakFree(cfg) && NoBreaks(base) && HasDeployment(cfg, name)
    requires name != "" && AllIn(name, WordClass)
    requires NoBreaks(value) && '"' !in value && IsBreak(c) && c != '\n'
    ensures !Commutes(cfg, NameLine(name) + (OddLine(value, c) + "graft:\n"), base, block)
  {
    hide IsLine, BodyLen, SplitLines, NameOf, KindOf, RewriteLine, Commutes, HasTopLevel, Finds, BreakFree, NoBreaks,
      AllIn, IsBreak, HasDeployment;
    var text := NameLine(name) + (OddLine(value, c) + "graft:\n");
    var lines := [NameLine(name), OddLine(value, c), "graft:\n"];
    NameLineNames(name);
    OddLineIsLine(value, c);
    OddLineEnd(value, c);
    LiteralBodies();
    NewlineLine("graft:");
    hide NameLine, OddLine;
    ThreeLines(NameLine(name), OddLine(value, c), "graft:\n");
    TopKeyHasNoBreaks(GRAFT_KEY);
    FindsIsTopLevel(text, GRAFT_KEY);
    FindsInLines(text, GRAFT_KEY, true);
    OddLineGains(cfg, name, value, c);
    OddLinesUncover(cfg, name, lines);
    GraftCommutes(cfg, text, base, block);
  }

  lemma OddLinesUncover(cfg: Config, name: string, lines: seq<string>)
    requires |lines| == 3 && lines[0] != "" && lines[1] != "" && lines[0][0] == lines[1][0] == ' '
    requires NameOf(lines[0]) == Some(name) && lines[2] == "graft:\n"
    requires GainsNewline(cfg, Some(name), lines[1])
    ensures Uncovers(cfg, None, lines, GRAFT_KEY, false) && !SeesKey(lines, GRAFT_KEY, true)
  {
    hide NameOf, RewriteLine;
    assert Starts(lines[2], GRAFT_KEY);
    assert lines[1..][0] == lines[1] && lines[1..][1..][0] == lines[2] && lines[1..][1..][1..] == [];
    assert !Starts(lines[0], GRAFT_KEY) by { NotTop(lines[0]); }
    assert !Starts(lines[1], GRAFT_KEY) by { NotTop(lines[1]); }
    assert Uncovers(cfg, Some(name), lines[1..], GRAFT_KEY, GainsNewline(cfg, None, lines[0]));
    assert !SeesKey(lines[1..][1..], GRAFT_KEY, EndsInNewline(lines[1]));
    assert !SeesKey(lines[1..], GRAFT_KEY, EndsInNewline(lines[0]));
  }

  lemma NotTop(line: string)
    requires line != "" && line[0] == ' '
    ensures !Starts(line, GRAFT_KEY)
  {
    if Starts(line, GRAFT_KEY) {
      AtChar(line, 0, GRAFT_KEY, 0);
    }
  }
}
