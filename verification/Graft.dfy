/**
 Injection of a grafting block into a manifest: a one-shot insertion behind its `specVersion:`
 line, and how it combines with the synchroniser.
 */
module Graft {
  import opened Text
  import opened Decimals
  import opened ManifestLines
  import opened ManifestSync
  import opened ManifestRewrite
  import opened ManifestTheorems

  const GRAFT_KEY := "graft:"
  const FEATURES_KEY := "features:"
  const SPEC_KEY := "specVersion:"

  /** `^key` in a multi-line search: a line start there is the text's start, or follows a newline. */
  predicate HasTopLevel(text: string, key: string) {
    exists i: nat | i < |text| :: At(text, i, key) && (i == 0 || text[i - 1] == '\n')
  }

  /** The five lines that are inserted. */
  function Block(base: string, block: int): seq<string> {
    ["features:\n", "  - grafting\n", "graft:\n", "  base: " + base + "\n", "  block: " + PrintInt(block) + "\n"]
  }

  predicate Starts(line: string, key: string) { At(line, 0, key) }

  function InjectLines(lines: seq<string>, block: seq<string>): seq<string> {
    if lines == [] then []
    else if Starts(lines[0], SPEC_KEY) then [lines[0]] + block + lines[1..]
    else [lines[0]] + InjectLines(lines[1..], block)
  }

  predicate HasSpec(lines: seq<string>) {
    lines != [] && (Starts(lines[0], SPEC_KEY) || HasSpec(lines[1..]))
  }

  datatype Outcome = Injected(text: string) | AlreadyGrafted | AlreadyFeatured | NoSpecVersion

  function Inject(text: string, base: string, block: int): Outcome {
    if HasTopLevel(text, GRAFT_KEY) then AlreadyGrafted
    else if HasTopLevel(text, FEATURES_KEY) then AlreadyFeatured
    else if !HasSpec(SplitLines(text)) then NoSpecVersion
    else Injected(Join(InjectLines(SplitLines(text), Block(base, block))))
  }

  method AppendBlock(before: seq<string>, base: string, block: int) returns (out: seq<string>)
    ensures out == before + Block(base, block)
  {
    out := before + ["features:\n"];
    out := out + ["  - grafting\n"];
    out := out + ["graft:\n"];
    out := out + ["  base: " + base + "\n"];
    out := out + ["  block: " + PrintInt(block) + "\n"];
  }

  method InjectGraft(text: string, base: string, block: int) returns (r: Outcome)
    ensures r == Inject(text, base, block)
  {
    hide SplitLines, Join, Starts, Block;
    if HasTopLevel(text, GRAFT_KEY) {
      return AlreadyGrafted;
    }
    if HasTopLevel(text, FEATURES_KEY) {
      return AlreadyFeatured;
    }
    var lines := SplitLines(text);
    var out: seq<string> := [];
    var inserted := false;
    for i := 0 to |lines|
      invariant inserted ==> HasSpec(lines) && InjectLines(lines, Block(base, block)) == out + lines[i..]
      invariant !inserted ==> out == lines[..i] && HasSpec(lines) == HasSpec(lines[i..])
      invariant !inserted ==>
        InjectLines(lines, Block(base, block)) == out + InjectLines(lines[i..], Block(base, block))
    {
      ghost var before := out;
      assert lines[i..] == [lines[i]] + lines[i + 1..];
      out := out + [lines[i]];
      if !inserted && Starts(lines[i], SPEC_KEY) {
        out := AppendBlock(out, base, block);
        inserted := true;
        assert out == before + ([lines[i]] + Block(base, block));
        Regroup(before, [lines[i]] + Block(base, block), lines[i + 1..]);
      } else if !inserted {
        Regroup(before, [lines[i]], InjectLines(lines[i + 1..], Block(base, block)));
      }
    }
    if !inserted {
      return NoSpecVersion;
    }
    assert out + lines[|lines|..] == out;
    return Injected(Join(out));
  }

  // ---------------------------------------------------------------------------
  // Where the block goes
  // ---------------------------------------------------------------------------

  lemma {:induction false} JoinConcat(a: seq<string>, b: seq<string>)
    ensures Join(a + b) == Join(a) + Join(b)
    decreases |a|
  {
    if a == [] {
      assert a + b == b;
    } else {
      assert a + b == [a[0]] + (a[1..] + b);
      JoinCons(a[0], a[1..] + b);
      JoinConcat(a[1..], b);
    }
  }

  /** The lines before the first `specVersion:` line, that line, and the lines behind it. */
  lemma {:induction false} SpecSplit(lines: seq<string>, block: seq<string>)
    returns (a: seq<string>, s: string, r: seq<string>)
    requires HasSpec(lines)
    ensures lines == a + ([s] + r) && Starts(s, SPEC_KEY) && !HasSpec(a)
    ensures InjectLines(lines, block) == a + ([s] + (block + r))
    decreases |lines|
  {
    if Starts(lines[0], SPEC_KEY) {
      a, s, r := [], lines[0], lines[1..];
      assert lines == [s] + r;
      assert [s] + block + r == [s] + (block + r);
    } else {
      var a': seq<string>;
      a', s, r := SpecSplit(lines[1..], block);
      a := [lines[0]] + a';
      assert a[1..] == a';
    }
  }

  lemma {:induction false} InjectAt(a: seq<string>, s: string, r: seq<string>, block: seq<string>)
    requires Starts(s, SPEC_KEY) && !HasSpec(a)
    ensures HasSpec(a + ([s] + r)) && InjectLines(a + ([s] + r), block) == a + ([s] + (block + r))
    decreases |a|
  {
    hide Starts, HasSpec, InjectLines;
    var tail, tail' := [s] + r, [s] + (block + r);
    if a == [] {
      InjectCons(s, r, block);
      assert a + tail == tail && a + tail' == tail';
      Regroup([s], block, r);
    } else {
      var first, rest := a[0], a[1..];
      assert a == [first] + rest;
      InjectCons(first, rest, block);
      InjectCons(first, rest + tail, block);
      Regroup([first], rest, tail);
      Regroup([first], rest, tail');
      InjectAt(rest, s, r, block);
    }
  }

  lemma InjectCons(line: string, rest: seq<string>, block: seq<string>)
    ensures HasSpec([line] + rest) <==> Starts(line, SPEC_KEY) || HasSpec(rest)
    ensures InjectLines([line] + rest, block)
         == if Starts(line, SPEC_KEY) then [line] + block + rest else [line] + InjectLines(rest, block)
  {
    hide Starts;
    assert ([line] + rest)[1..] == rest;
  }

  /**
   An injection inserts the five lines at one place and changes nothing else: deleting them there
   recovers the manifest. The place is the end of its first `specVersion:` line.
   */
  lemma InjectInserts(text: string, base: string, block: int) returns (p: nat)
    requires Inject(text, base, block).Injected?
    ensures p <= |text|
    ensures Inject(text, base, block).text == text[..p] + (Join(Block(base, block)) + text[p..])
    ensures exists a: seq<string>, s: string, r: seq<string> ::
      && SplitLines(text) == a + ([s] + r) && Starts(s, SPEC_KEY) && !HasSpec(a) && text[..p] == Join(a) + s
  {
    hide SplitLines, Join, Starts, Block;
    JoinSplit(text);
    var b := Block(base, block);
    var a, s, r := SpecSplit(SplitLines(text), b);
    JoinParts(a, s, r);
    JoinParts(a, s, b + r);
    JoinConcat(b, r);
    var head := Join(a) + s;
    p := |head|;
    assert text == head + Join(r);
    assert text[..p] == head && text[p..] == Join(r);
    assert Join(a) + (s + (Join(b) + Join(r))) == head + (Join(b) + Join(r));
  }

  lemma JoinParts(a: seq<string>, s: string, r: seq<string>)
    ensures Join(a + ([s] + r)) == Join(a) + (s + Join(r))
  {
    JoinConcat(a, [s] + r);
    JoinCons(s, r);
  }

  /** A grafted manifest is never grafted again. */
  lemma SecondInjectRefused(text: string, base: string, block: int, base': string, block': int)
    requires Inject(text, base, block).Injected?
    ensures Inject(Inject(text, base, block).text, base', block') == AlreadyGrafted
  {
    hide SplitLines, HasSpec, InjectLines, Starts;
    var p := InjectInserts(text, base, block);
    var t := Inject(text, base, block).text;
    var start := "features:\n" + "  - grafting\n";
    BlockStart(base, block);
    var rest :| Join(Block(base, block)) == start + (GRAFT_KEY + rest);
    assert t == (text[..p] + start) + GRAFT_KEY + (rest + text[p..]);
    AtAppend(text[..p] + start, GRAFT_KEY, rest + text[p..]);
    var i: nat := p + |start|;
    assert t[i - 1] == start[|start| - 1] == '\n';
    assert At(t, i, GRAFT_KEY);
  }

  lemma BlockStart(base: string, block: int)
    ensures exists rest: string ::
      Join(Block(base, block)) == ("features:\n" + "  - grafting\n") + (GRAFT_KEY + rest)
  {
    hide Join;
    var b := Block(base, block);
    assert b == [b[0]] + ([b[1]] + ([b[2]] + b[3..]));
    JoinCons(b[0], [b[1]] + ([b[2]] + b[3..]));
    JoinCons(b[1], [b[2]] + b[3..]);
    JoinCons(b[2], b[3..]);
    GraftLine(Join(b[3..]));
    Regroup(b[0], b[1], GRAFT_KEY + ("\n" + Join(b[3..])));
  }

  lemma GraftLine(rest: string)
    ensures "graft:\n" + rest == GRAFT_KEY + ("\n" + rest)
  {
  }

  // ---------------------------------------------------------------------------
  // Lines the synchroniser does not touch
  // ---------------------------------------------------------------------------

  predicate IsTopKey(key: string) { key == GRAFT_KEY || key == FEATURES_KEY || key == SPEC_KEY }

  /** The line is of no interest to the synchroniser. */
  predicate IsInert(line: string) { NameOf(line) == None && KindOf(line) == Other }

  lemma FirstTwo(line: string, top: string)
    requires Starts(line, top) && |top| > 1
    ensures |line| > 1 && line[0] == top[0] && line[1] == top[1]
  {
    AtChar(line, 0, top, 0);
    AtChar(line, 0, top, 1);
  }

  /** A keyed line does not start with a top-level key. */
  lemma KeyedIsNotTop(line: string, key: string, top: string)
    requires IsLine(line) && IsKey(key) && IsTopKey(top) && MatchKey(Chomp(line), key).Some?
    ensures !Starts(line, top)
  {
    var t := Chomp(line);
    var w := SpaceLen(t);
    ChompPrefix(line);
    SpaceLenSpaces(t);
    AtChar(t, w, key, 0);
    AtChar(t, w, key, 1);
    assert line[w] == t[w] && line[w + 1] == t[w + 1];
    assert w > 0 ==> IsSpace(t[..w][0]) && t[..w][0] == line[0];
    if Starts(line, top) {
      FirstTwo(line, top);
    }
  }

  lemma TopIsInert(line: string, top: string)
    requires IsLine(line) && IsTopKey(top) && Starts(line, top)
    ensures IsInert(line)
  {
    hide MatchKey, MatchWord, MatchAddress, Chomp, IsLine, Starts;
    forall key | IsKey(key) ensures MatchKey(Chomp(line), key).None? {
      if MatchKey(Chomp(line), key).Some? {
        KeyedIsNotTop(line, key, top);
      }
    }
    assert IsKey(NAME_KEY) && IsKey(ADDRESS_KEY) && IsKey(START_BLOCK_KEY) && IsKey(NETWORK_KEY);
  }

  /** Rewriting a line neither makes nor unmakes a top-level key. */
  lemma RewriteKeepsTop(cfg: Config, ds: Option<string>, line: string, top: string)
    requires IsLine(line) && BreakFree(cfg) && IsTopKey(top)
    ensures Starts(RewriteLine(cfg, ds, line), top) <==> Starts(line, top)
  {
    hide NameOf, KindOf, IsLine, Norm, PrintInt, Starts, AddressLine, StartBlockLine, NetworkLine, BreakFree;
    if Starts(line, top) {
      TopIsInert(line, top);
    } else if RewriteLine(cfg, ds, line) != line {
      LineWritten(cfg, ds, line);
      WrittenIsNotTop(cfg, ds, line, top);
    }
  }

  lemma WrittenIsNotTop(cfg: Config, ds: Option<string>, line: string, top: string)
    requires IsLine(line) && BreakFree(cfg) && IsTopKey(top) && RewriteLine(cfg, ds, line) != line
    ensures !Starts(RewriteLine(cfg, ds, line), top)
  {
    hide NameOf, KindOf, IsLine, Norm, PrintInt, BreakFree;
    KindIndent(line);
    var m := MetaOf(cfg, ds).value;
    match KindOf(line) {
      case Address(indent, _) => IndentedIsNotTop(indent, ADDRESS_KEY, " \"" + (Norm(m.address) + "\""), top);
      case StartBlock(indent, _) => IndentedIsNotTop(indent, START_BLOCK_KEY, " " + PrintInt(m.startBlock), top);
      case Network(indent, _) => IndentedIsNotTop(indent, NETWORK_KEY, " " + cfg.network.value, top);
      case Other =>
    }
  }

  lemma IndentedIsNotTop(indent: string, key: string, rest: string, top: string)
    requires AllSpace(indent) && IsKey(key) && IsTopKey(top)
    ensures !Starts(indent + (key + rest) + "\n", top)
  {
    var line := indent + (key + rest) + "\n";
    assert line[|indent|] == key[0] && line[|indent| + 1] == key[1];
    assert indent != "" ==> IsSpace(indent[0]) && line[0] == indent[0];
    if Starts(line, top) {
      FirstTwo(line, top);
    }
  }

  /** A line of blanks and a key of another kind. */
  lemma BlockEntryIsInert(indent: string, entry: string)
    requires AllSpace(indent) && NoBreaks(indent + entry) && |entry| > 1 && !IsSpace(entry[0])
    requires entry[0] == '-' || entry[0] == 'b'
    ensures IsInert(indent + entry + "\n")
  {
    var body := indent + entry;
    ChompNewline(body);
    assert body[..|indent|] == indent && body[|indent|] == entry[0];
    SpaceLenExact(body, |indent|);
    forall key | IsKey(key) ensures MatchKey(body, key).None? {
      if At(body, |indent|, key) {
        AtChar(body, |indent|, key, 0);
      }
    }
    assert IsKey(NAME_KEY) && IsKey(ADDRESS_KEY) && IsKey(START_BLOCK_KEY) && IsKey(NETWORK_KEY);
  }

  predicate AllInert(lines: seq<string>) { forall line | line in lines :: IsInert(line) }

  lemma FiveInert(a: string, b: string, c: string, d: string, e: string)
    requires IsInert(a) && IsInert(b) && IsInert(c) && IsInert(d) && IsInert(e)
    ensures AllInert([a, b, c, d, e])
  {
  }

  lemma BaseLineIsInert(base: string)
    requires NoBreaks(base)
    ensures IsInert("  base: " + base + "\n")
  {
    hide IsInert, NoBreaks;
    BlockBodies(base, 0);
    BlockEntryIsInert("  ", "base: " + base);
    assert "  " + ("base: " + base) + "\n" == "  base: " + base + "\n";
  }

  lemma NumberLineIsInert(block: int)
    ensures IsInert("  block: " + PrintInt(block) + "\n")
  {
    hide IsInert, NoBreaks, PrintInt;
    assert NoBreaks("") by { EmptyHasNoBreaks(); }
    BlockBodies("", block);
    BlockEntryIsInert("  ", "block: " + PrintInt(block));
    assert "  " + ("block: " + PrintInt(block)) + "\n" == "  block: " + PrintInt(block) + "\n";
  }

  lemma EmptyHasNoBreaks()
    ensures NoBreaks("")
  {
  }

  lemma FixedLinesAreInert()
    ensures IsInert("features:\n") && IsInert("  - grafting\n") && IsInert("graft:\n")
  {
    hide IsInert, NoBreaks;
    LiteralBodies();
    EmptyHasNoBreaks();
    BlockBodies("", 0);
    TopLineIsInert("features:");
    TopLineIsInert("graft:");
    BlockEntryIsInert("  ", "- grafting");
    assert "  " + "- grafting" + "\n" == "  - grafting\n";
  }

  lemma BlockIsInert(base: string, block: int)
    requires NoBreaks(base)
    ensures AllInert(Block(base, block))
  {
    hide IsInert, AllInert, NoBreaks, PrintInt;
    FixedLinesAreInert();
    BaseLineIsInert(base);
    NumberLineIsInert(block);
    var b := Block(base, block);
    FiveInert(b[0], b[1], b[2], b[3], b[4]);
  }

  lemma TopLineIsInert(key: string)
    requires IsTopKey(key) && NoBreaks(key)
    ensures IsInert(key + "\n")
  {
    NewlineLine(key);
    assert Starts(key + "\n", key);
    TopIsInert(key + "\n", key);
  }

  lemma BlockBodies(base: string, block: int)
    requires NoBreaks(base)
    ensures NoBreaks("  " + "- grafting") && NoBreaks("  " + ("base: " + base))
    ensures NoBreaks("  " + ("block: " + PrintInt(block)))
  {
    PrintNatIsDigits(if block < 0 then -block else block);
    DigitsAreWord(PrintNat(if block < 0 then -block else block));
    if block < 0 {
      NoBreaksConcat("-", PrintNat(-block));
    }
    NoBreaksConcat("block: ", PrintInt(block));
    NoBreaksConcat("  ", "block: " + PrintInt(block));
    NoBreaksConcat("base: ", base);
    NoBreaksConcat("  ", "base: " + base);
  }

  lemma PrependLine(body: string, lines: seq<string>)
    requires NoBreaks(body) && Lined(lines)
    ensures Lined([body + "\n"] + lines)
  {
    hide Lined, Join, NoBreaks;
    NewlineLine(body);
    JoinCons(body + "\n", lines);
  }

  lemma BlockIsLined(base: string, block: int, r: seq<string>)
    requires NoBreaks(base) && Lined(r)
    ensures Lined(Block(base, block) + r) && Lined(Block(base, block)[1..] + r)
  {
    hide Lined, NoBreaks, PrintInt;
    var b := Block(base, block);
    BlockBodies(base, block);
    assert "  " + ("base: " + base) + "\n" == b[3] && "  " + ("block: " + PrintInt(block)) + "\n" == b[4];
    LiteralBodies();
    PrependLine("  " + ("block: " + PrintInt(block)), r);
    PrependLine("  " + ("base: " + base), [b[4]] + r);
    PrependLine("graft:", [b[3]] + ([b[4]] + r));
    PrependLine("  - grafting", [b[2]] + ([b[3]] + ([b[4]] + r)));
    PrependLine("features:", [b[1]] + ([b[2]] + ([b[3]] + ([b[4]] + r))));
    assert b[1..] + r == [b[1]] + ([b[2]] + ([b[3]] + ([b[4]] + r)));
    assert b + r == [b[0]] + (b[1..] + r);
  }

  lemma LiteralBodies()
    ensures NoBreaks("graft:") && NoBreaks("features:") && NoBreaks("  - grafting")
    ensures "graft:" + "\n" == "graft:\n" && "features:" + "\n" == "features:\n"
    ensures "  - grafting" + "\n" == "  - grafting\n"
  {
  }

  // ---------------------------------------------------------------------------
  // Lines of the grafted manifest
  // ---------------------------------------------------------------------------

  /** Lines that stay lines in front of the text `rest`. */
  predicate LinedBefore(lines: seq<string>, rest: string) {
    lines == [] ||
    (IsLine(lines[0]) && EndsBefore(lines[0], Join(lines[1..]) + rest) && LinedBefore(lines[1..], rest))
  }

  lemma {:induction false} LinedSplit(a: seq<string>, b: seq<string>)
    requires Lined(a + b)
    ensures LinedBefore(a, Join(b)) && Lined(b)
    decreases |a|
  {
    if a == [] {
      assert a + b == b;
    } else {
      assert (a + b)[1..] == a[1..] + b;
      JoinConcat(a[1..], b);
      LinedSplit(a[1..], b);
    }
  }

  /** Whether lines stay lines depends only on how the text behind them starts. */
  lemma {:induction false} LinedBeforeAny(a: seq<string>, rest: string, rest': string)
    requires LinedBefore(a, rest) && rest != "" && rest' != "" && rest[0] == rest'[0]
    ensures LinedBefore(a, rest')
    decreases |a|
  {
    if a != [] {
      var tail := Join(a[1..]);
      assert (tail + rest)[0] == (tail + rest')[0] by {
        if tail == "" {
          assert tail + rest == rest && tail + rest' == rest';
        }
      }
      LinedBeforeAny(a[1..], rest, rest');
    }
  }

  lemma {:induction false} SplitBefore(a: seq<string>, rest: string)
    requires LinedBefore(a, rest)
    ensures SplitLines(Join(a) + rest) == a + SplitLines(rest)
    decreases |a|
  {
    hide IsLine, EndsBefore, SplitLines;
    if a == [] {
      assert Join(a) + rest == rest;
    } else {
      var tail := Join(a[1..]) + rest;
      hide SplitLines, LinedBefore;
      SplitBefore(a[1..], rest);
      assert Join(a) + rest == a[0] + tail;
      SplitAfterLine(a[0], tail);
      assert a + SplitLines(rest) == [a[0]] + (a[1..] + SplitLines(rest));
    }
  }

  lemma SplitAfterLine(line: string, rest: string)
    requires IsLine(line) && EndsBefore(line, rest)
    ensures SplitLines(line + rest) == [line] + SplitLines(rest)
  {
    LineLenAppend(line, rest);
    assert (line + rest)[..|line|] == line && (line + rest)[|line|..] == rest;
  }

  /** The `specVersion:` line and the block, cut into lines: an unterminated line swallows the first. */
  lemma GraftedTail(s: string, r: seq<string>, base: string, block: int) returns (tail: seq<string>)
    requires NoBreaks(base) && Starts(s, SPEC_KEY) && Lined([s] + r)
    ensures SplitLines(s + (Join(Block(base, block)) + Join(r))) == tail + r
    ensures AllInert(tail) && Join(tail) == s + Join(Block(base, block))
  {
    hide SplitLines, Join, Starts, Block, IsInert, Lined, NoBreaks;
    var b := Block(base, block);
    LinedHead(s, r);
    BlockIsInert(base, block);
    BlockIsLined(base, block, r);
    JoinConcat(b, r);
    TopIsInert(s, SPEC_KEY);
    if BodyLen(s) < |s| {
      tail := [s] + b;
      BlockText(base, block, r);
      SplitAfterLine(s, Join(b + r));
      SplitJoin(b + r);
      JoinCons(s, b);
      assert tail + r == [s] + (b + r);
    } else {
      BlockFirst(base, block);
      var h := s + b[0];
      tail := [h] + b[1..];
      SwallowedLine(s, "features:");
      TopIsInert(h, SPEC_KEY);
      assert AllInert(tail) by {
        forall line | line in tail ensures IsInert(line) {
          assert line == h || line in b;
        }
      }
      JoinCons(h, b[1..]);
      assert h + Join(b[1..]) == s + (b[0] + Join(b[1..]));
      JoinConcat(b[1..], r);
      SplitAfterLine(h, Join(b[1..] + r));
      SplitJoin(b[1..] + r);
      assert tail + r == [h] + (b[1..] + r);
      assert s + (Join(b) + Join(r)) == h + (Join(b[1..]) + Join(r));
    }
  }

  lemma LinedHead(s: string, r: seq<string>)
    requires Lined([s] + r)
    ensures IsLine(s) && EndsBefore(s, Join(r)) && Lined(r)
  {
    assert ([s] + r)[1..] == r;
  }

  lemma BlockFirst(base: string, block: int)
    ensures var b := Block(base, block);
      |b| == 5 && b[0] == "features:" + "\n" && NoBreaks("features:") && Join(b) == b[0] + Join(b[1..])
  {
    LiteralBodies();
  }

  lemma BlockText(base: string, block: int, r: seq<string>)
    ensures Join(Block(base, block) + r) != "" && Join(Block(base, block) + r)[0] == 'f'
  {
    var b := Block(base, block);
    BlockFirst(base, block);
    JoinConcat(b, r);
  }

  lemma SwallowedLine(s: string, body: string)
    requires IsLine(s) && BodyLen(s) == |s| && Starts(s, SPEC_KEY) && NoBreaks(body)
    ensures var h := s + (body + "\n");
      IsLine(h) && Starts(h, SPEC_KEY) && (forall rest: string :: EndsBefore(h, rest))
  {
    hide IsLine;
    BodyFree(s);
    assert s[..|s|] == s;
    NoBreaksConcat(s, body);
    NewlineLine(s + body);
    var h := (s + body) + "\n";
    assert s + (body + "\n") == h;
    forall k | 0 <= k < |SPEC_KEY| ensures h[k] == SPEC_KEY[k] {
      AtChar(s, 0, SPEC_KEY, k);
    }
  }

  // ---------------------------------------------------------------------------
  // Grafting and synchronising commute
  // ---------------------------------------------------------------------------

  function Last(ds: Option<string>, lines: seq<string>): Option<string>
    decreases |lines|
  {
    if lines == [] then ds else Last(Next(ds, lines[0]), lines[1..])
  }

  lemma {:induction false} RewriteAppend(cfg: Config, ds: Option<string>, a: seq<string>, b: seq<string>)
    ensures RewriteAll(cfg, ds, a + b) == RewriteAll(cfg, ds, a) + RewriteAll(cfg, Last(ds, a), b)
    decreases |a|
  {
    hide RewriteLine, Next;
    if a == [] {
      assert a + b == b;
    } else {
      assert a + b == [a[0]] + (a[1..] + b);
      assert (a + b)[1..] == a[1..] + b;
      RewriteAppend(cfg, Next(ds, a[0]), a[1..], b);
    }
  }

  lemma {:induction false} RewriteInert(cfg: Config, ds: Option<string>, a: seq<string>, r: seq<string>)
    requires AllInert(a)
    ensures RewriteAll(cfg, ds, a + r) == a + RewriteAll(cfg, ds, r)
    decreases |a|
  {
    hide NameOf, KindOf;
    if a == [] {
      assert a + r == r;
    } else {
      assert IsInert(a[0]);
      assert (a + r)[1..] == a[1..] + r;
      RewriteInert(cfg, ds, a[1..], r);
      assert a + RewriteAll(cfg, ds, r) == [a[0]] + (a[1..] + RewriteAll(cfg, ds, r));
    }
  }

  lemma {:induction false} RewriteKeepsNoSpec(cfg: Config, ds: Option<string>, lines: seq<string>)
    requires BreakFree(cfg) && forall line | line in lines :: IsLine(line)
    ensures HasSpec(RewriteAll(cfg, ds, lines)) <==> HasSpec(lines)
    decreases |lines|
  {
    hide RewriteLine, Next, BreakFree, IsLine, Starts;
    if lines != [] {
      RewriteKeepsTop(cfg, ds, lines[0], SPEC_KEY);
      RewriteKeepsNoSpec(cfg, Next(ds, lines[0]), lines[1..]);
      assert RewriteAll(cfg, ds, lines)[1..] == RewriteAll(cfg, Next(ds, lines[0]), lines[1..]);
    }
  }

  lemma {:induction false} LinedLines(lines: seq<string>)
    requires Lined(lines)
    ensures forall line | line in lines :: IsLine(line)
    decreases |lines|
  {
    hide IsLine;
    if lines != [] {
      LinedLines(lines[1..]);
      assert lines == [lines[0]] + lines[1..];
    }
  }

  /** On the lines: what grafting a manifest and synchronising it makes, in either order. */
  lemma GraftedSync(cfg: Config, text: string, base: string, block: int)
    requires BreakFree(cfg) && NoBreaks(base) && HasSpec(SplitLines(text))
    ensures var b := Block(base, block);
      && HasSpec(SplitLines(Sync(cfg, text).text))
      && Join(InjectLines(SplitLines(Sync(cfg, text).text), b))
           == Sync(cfg, Join(InjectLines(SplitLines(text), b))).text
  {
    hide SplitLines, Join, HasSpec, InjectLines, Block, BreakFree, NoBreaks, RewriteAll, Lined, Starts, Sync, IsInert,
      AllInert, Last;
    var b := Block(base, block);
    var lines := SplitLines(text);
    JoinSplit(text);
    var a, s, r := SpecSplit(lines, b);
    LinedSplit(a, [s] + r);
    LinedHead(s, r);
    TopIsInert(s, SPEC_KEY);
    OneInert(s);
    var ds := Last(None, a);
    var a', r' := RewriteAll(cfg, None, a), RewriteAll(cfg, ds, r);
    RewriteAppend(cfg, None, a, [s] + r);
    RewriteInert(cfg, ds, [s], r);
    SyncedLines(cfg, text);
    LinedLines(lines);
    assert forall line | line in a :: line in lines;
    RewriteKeepsNoSpec(cfg, None, a);
    InjectAt(a', s, r', b);
    JoinParts(a', s, b + r');
    JoinConcat(b, r');
    GraftedLines(cfg, a, s, r, base, block);
  }

  lemma OneInert(s: string)
    requires IsInert(s)
    ensures AllInert([s])
  {
  }

  lemma GraftedLines(cfg: Config, a: seq<string>, s: string, r: seq<string>, base: string, block: int)
    requires NoBreaks(base) && Starts(s, SPEC_KEY) && Lined([s] + r) && LinedBefore(a, Join([s] + r))
    ensures var b := Block(base, block);
      Sync(cfg, Join(a + ([s] + (b + r)))).text
        == Join(RewriteAll(cfg, None, a)) + (s + (Join(b) + Join(RewriteAll(cfg, Last(None, a), r))))
  {
    hide SplitLines, Join, Block, NoBreaks, RewriteAll, Lined, LinedBefore, Starts, Sync, IsInert, AllInert, Last;
    var b := Block(base, block);
    var ds := Last(None, a);
    var a', r' := RewriteAll(cfg, None, a), RewriteAll(cfg, ds, r);
    JoinParts(a, s, b + r);
    JoinConcat(b, r);
    JoinCons(s, r);
    var rest := s + (Join(b) + Join(r));
    SpecIsNotEmpty(s);
    LinedBeforeAny(a, Join([s] + r), rest);
    SplitBefore(a, rest);
    var tail := GraftedTail(s, r, base, block);
    SyncWrites(cfg, Join(a) + rest);
    RewriteAppend(cfg, None, a, tail + r);
    RewriteInert(cfg, ds, tail, r);
    JoinConcat(a', tail + r');
    JoinConcat(tail, r');
    assert (s + Join(b)) + Join(r') == s + (Join(b) + Join(r'));
  }

  lemma SpecIsNotEmpty(s: string)
    requires Starts(s, SPEC_KEY)
    ensures s != ""
  {
  }

  // ---------------------------------------------------------------------------
  // Deployment ids
  // ---------------------------------------------------------------------------

  predicate IsBase58(c: char) {
    '1' <= c <= '9' || ('A' <= c <= 'Z' && c != 'I' && c != 'O') || ('a' <= c <= 'z' && c != 'l')
  }

  predicate IsBase32(c: char) { 'a' <= c <= 'z' || '2' <= c <= '7' }

  /** The ids the script accepts as a base: CIDv0 or CIDv1. */
  predicate IsDeploymentId(s: string) {
    || (|s| == 46 && s[..2] == "Qm" && forall k | 2 <= k < |s| :: IsBase58(s[k]))
    || (|s| > 4 && s[..4] == "bafy" && forall k | 4 <= k < |s| :: IsBase32(s[k]))
  }

  lemma DeploymentIdHasNoBreaks(s: string)
    requires IsDeploymentId(s)
    ensures NoBreaks(s)
  {
    if s[..2] == "Qm" && |s| == 46 {
      assert s[0] == s[..2][0] && s[1] == s[..2][1];
    }
    if |s| > 4 && s[..4] == "bafy" {
      assert s[0] == s[..4][0] && s[1] == s[..4][1] && s[2] == s[..4][2] && s[3] == s[..4][3];
    }
  }

  predicate IsBase58Text(s: string) {
    forall k | 0 <= k < |s| ::
      s[k] in "123456789" || s[k] in "ABCDEFGHJKLMNPQRSTUVWXYZ" || s[k] in "abcdefghijkmnopqrstuvwxyz"
  }

  predicate IsBase32Text(s: string) {
    forall k | 0 <= k < |s| :: s[k] in "abcdefghijklmnopqrstuvwxyz" || s[k] in "234567"
  }

  /** The ids are `Qm` and 44 characters of base 58, or `bafy` and some of base 32. */
  lemma DeploymentIdExactly(s: string)
    ensures IsDeploymentId(s) <==>
      || (exists rest: string :: s == "Qm" + rest && |rest| == 44 && IsBase58Text(rest))
      || (exists rest: string :: s == "bafy" + rest && rest != "" && IsBase32Text(rest))
  {
    hide IsBase58, IsBase32, IsBase58Text, IsBase32Text;
    if |s| >= 2 {
      Base58Exactly(s[2..]);
      assert s == s[..2] + s[2..];
    }
    if |s| >= 4 {
      Base32Exactly(s[4..]);
      assert s == s[..4] + s[4..];
    }
    assert forall rest: string :: ("Qm" + rest)[2..] == rest && ("bafy" + rest)[4..] == rest;
  }

  lemma Base58Exactly(s: string)
    ensures IsBase58Text(s) <==> forall k | 0 <= k < |s| :: IsBase58(s[k])
  {
    hide IsBase58;
    forall k | 0 <= k < |s|
      ensures IsBase58(s[k]) <==>
        s[k] in "123456789" || s[k] in "ABCDEFGHJKLMNPQRSTUVWXYZ" || s[k] in "abcdefghijkmnopqrstuvwxyz"
    {
      Base58Char(s[k]);
    }
  }

  lemma Base58Char(c: char)
    ensures IsBase58(c) <==>
      c in "123456789" || c in "ABCDEFGHJKLMNPQRSTUVWXYZ" || c in "abcdefghijkmnopqrstuvwxyz"
  {
    Base58Capital(c);
    Base58Small(c);
  }

  lemma Base58Capital(c: char)
    ensures c in "ABCDEFGHJKLMNPQRSTUVWXYZ" <==> 'A' <= c <= 'Z' && c != 'I' && c != 'O'
  {
  }

  lemma Base58Small(c: char)
    ensures c in "abcdefghijkmnopqrstuvwxyz" <==> 'a' <= c <= 'z' && c != 'l'
  {
  }

  lemma Base32Exactly(s: string)
    ensures IsBase32Text(s) <==> forall k | 0 <= k < |s| :: IsBase32(s[k])
  {
    hide IsBase32;
    forall k | 0 <= k < |s| ensures IsBase32(s[k]) <==> s[k] in "abcdefghijklmnopqrstuvwxyz" || s[k] in "234567" {
      Base32Char(s[k]);
    }
  }

  lemma Base32Char(c: char)
    ensures IsBase32(c) <==> c in "abcdefghijklmnopqrstuvwxyz" || c in "234567"
  {
  }

  // ---------------------------------------------------------------------------
  // The insertion, in terms of texts
  // ---------------------------------------------------------------------------

  /** The key stands at the start of the text or right behind a newline. */
  ghost predicate HasKeyLine(text: string, key: string) {
    exists a: string, b: string :: IsKeyLine(text, a, key, b)
  }

  predicate IsKeyLine(text: string, a: string, key: string, b: string) {
    text == a + (key + b) && (a == "" || a[|a| - 1] == '\n')
  }

  lemma TopLevelExactly(text: string, key: string)
    requires key != ""
    ensures HasTopLevel(text, key) <==> HasKeyLine(text, key)
  {
    hide HasTopLevel, HasKeyLine;
    if HasTopLevel(text, key) {
      TopLevelIsKeyLine(text, key);
    }
    if HasKeyLine(text, key) {
      KeyLineIsTopLevel(text, key);
    }
  }

  lemma TopLevelIsKeyLine(text: string, key: string)
    requires HasTopLevel(text, key)
    ensures HasKeyLine(text, key)
  {
    var i: nat :| i < |text| && At(text, i, key) && (i == 0 || text[i - 1] == '\n');
    AtSlice(text, i, key);
    hide At, HasTopLevel;
    var a, b := text[..i], text[i + |key|..];
    assert text[i..] == key + b;
    assert IsKeyLine(text, a, key, b);
  }

  lemma KeyLineIsTopLevel(text: string, key: string)
    requires key != "" && HasKeyLine(text, key)
    ensures HasTopLevel(text, key)
  {
    var a: string, b: string :| IsKeyLine(text, a, key, b);
    Regroup(a, key, b);
    AtAppend(a, key, b);
    hide At;
    assert |a| < |text| && (a == "" || text[|a| - 1] == a[|a| - 1]);
  }

  lemma StartsExactly(line: string, key: string)
    ensures Starts(line, key) <==> key <= line
  {
    if Starts(line, key) {
      AtSlice(line, 0, key);
    }
  }

  function FiveLines(base: string, block: int): string {
    "features:\n" + ("  - grafting\n" + ("graft:\n"
      + (("  base: " + base + "\n") + ("  block: " + PrintInt(block) + "\n"))))
  }

  lemma BlockJoined(base: string, block: int)
    ensures Join(Block(base, block)) == FiveLines(base, block)
  {
    hide PrintInt, Join;
    var b := Block(base, block);
    NothingJoined();
    assert b == [b[0]] + ([b[1]] + ([b[2]] + ([b[3]] + ([b[4]] + []))));
    JoinCons(b[0], [b[1]] + ([b[2]] + ([b[3]] + ([b[4]] + []))));
    JoinCons(b[1], [b[2]] + ([b[3]] + ([b[4]] + [])));
    JoinCons(b[2], [b[3]] + ([b[4]] + []));
    JoinCons(b[3], [b[4]] + []);
    JoinCons(b[4], []);
  }

  lemma {:induction false} SpecExactly(lines: seq<string>)
    ensures HasSpec(lines) <==> exists k | 0 <= k < |lines| :: "specVersion:" <= lines[k]
    decreases |lines|
  {
    if lines != [] {
      SpecExactly(lines[1..]);
      StartsExactly(lines[0], SPEC_KEY);
      assert lines == [lines[0]] + lines[1..];
      if k :| 0 <= k < |lines[1..]| && "specVersion:" <= lines[1..][k] {
        assert lines[k + 1] == lines[1..][k];
      }
    }
  }

  /**
   A manifest with a top-level `graft:`, or else `features:`, or else without a line that starts with
   `specVersion:` is refused for that. Any other one gets the five lines behind its first such line.
   */
  lemma InjectExactly(text: string, base: string, block: int)
    ensures match Inject(text, base, block)
      case AlreadyGrafted => HasKeyLine(text, "graft:")
      case AlreadyFeatured => !HasKeyLine(text, "graft:") && HasKeyLine(text, "features:")
      case NoSpecVersion =>
        && !HasKeyLine(text, "graft:") && !HasKeyLine(text, "features:")
        && forall k | 0 <= k < |SplitLines(text)| :: !("specVersion:" <= SplitLines(text)[k])
      case Injected(t) =>
        && !HasKeyLine(text, "graft:") && !HasKeyLine(text, "features:")
        && exists a: seq<string>, s: string, r: seq<string> ::
             && SplitLines(text) == a + ([s] + r) && "specVersion:" <= s
             && (forall k | 0 <= k < |a| :: !("specVersion:" <= a[k]))
             && t == Join(a) + s + FiveLines(base, block) + Join(r)
  {
    hide FiveLines, SplitLines, Join, HasTopLevel, HasKeyLine, Starts, HasSpec, InjectLines, Block, PrintInt;
    TopLevelExactly(text, "graft:");
    TopLevelExactly(text, "features:");
    SpecExactly(SplitLines(text));
    if Inject(text, base, block).Injected? {
      var b := Block(base, block);
      var a, s, r := SpecSplit(SplitLines(text), b);
      JoinParts(a, s, b + r);
      JoinConcat(b, r);
      BlockJoined(base, block);
      StartsExactly(s, SPEC_KEY);
      SpecExactly(a);
      Regroup(Join(a), s, Join(b) + Join(r));
      Regroup(Join(a) + s, Join(b), Join(r));
    }
  }
}
