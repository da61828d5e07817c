/**
 The synchroniser's whole result, line by line: the text it writes, the errors it reports and the drifts
 it notes, each stated for one line in its place, without the pass's variables.
 */
module ManifestReports {
  import opened Text
  import opened Decimals
  import opened ManifestLines
  import opened ManifestSync
  import opened ManifestRewrite
  import opened ManifestTheorems

  // ---------------------------------------------------------------------------
  // One line
  // ---------------------------------------------------------------------------

  /** A line in the block of the active data source that may be rewritten: the source is deployed. */
  predicate Concerns(cfg: Config, ds: Option<string>, line: string) {
    NameOf(line).None? && ds.Some? && HasDeployment(cfg, ds.value)
  }

  /** The text written for a line. */
  function LineText(cfg: Config, ds: Option<string>, line: string): string {
    if !Concerns(cfg, ds, line) then line
    else
      var m := Deployment(cfg, ds.value);
      match KindOf(line)
      case Address(indent, _) => indent + "address: \"" + Norm(m.address) + "\"\n"
      case StartBlock(indent, _) => indent + "startBlock: " + PrintInt(m.startBlock) + "\n"
      case Network(indent, _) =>
        if cfg.network == None then line else indent + "network: " + cfg.network.value + "\n"
      case Other => line
  }

  /** A value that is not the deployment's is one drift, with what was read and what is expected. */
  function LineDrifts(cfg: Config, ds: Option<string>, line: string): seq<Drift> {
    if !Concerns(cfg, ds, line) then []
    else
      var m := Deployment(cfg, ds.value);
      match KindOf(line)
      case Address(_, read) =>
        if Norm(read) == Norm(m.address) then [] else [Drift(ds.value, "source.address", read, Norm(m.address))]
      case StartBlock(_, read) =>
        if read == PrintInt(m.startBlock) then []
        else [Drift(ds.value, "source.startBlock", read, PrintInt(m.startBlock))]
      case Network(_, read) =>
        if cfg.network == None || cfg.network == Some(read) then []
        else [Drift(ds.value, "network", read, cfg.network.value)]
      case Other => []
  }

  predicate IsZeroAddress(address: string) {
    |address| == 42 && address[..2] == "0x" && forall k | 2 <= k < 42 :: address[k] == '0'
  }

  /**
   A missing deployment is reported for every line of a known source's block; an address or a start block
   of zero that is not allowed only for the first one, and only the first of the two.
   */
  function LineErrors(cfg: Config, ds: Option<string>, line: string, begun: set<string>): seq<Error> {
    if NameOf(line).Some? || ds.None? || ds.value !in cfg.nameMap then []
    else
      var key := cfg.nameMap[ds.value];
      if !HasDeployment(cfg, ds.value) then [MissingContract(key, ds.value)]
      else if ds.value in begun then []
      else if IsZeroAddress(Norm(Deployment(cfg, ds.value).address)) && !cfg.allowZeroAddresses then [ZeroAddress(key)]
      else if Deployment(cfg, ds.value).startBlock == 0 && !cfg.allowStartBlockZero then [ZeroStartBlock(key)]
      else []
  }

  /** The deployed sources whose blocks have begun, behind one more line. */
  function Begun(cfg: Config, ds: Option<string>, line: string, begun: set<string>): set<string> {
    if Concerns(cfg, ds, line) then begun + {ds.value} else begun
  }

  // ---------------------------------------------------------------------------
  // All lines
  // ---------------------------------------------------------------------------

  function TextOf(cfg: Config, ds: Option<string>, lines: seq<string>): string
    decreases |lines|
  {
    if lines == [] then "" else LineText(cfg, ds, lines[0]) + TextOf(cfg, Next(ds, lines[0]), lines[1..])
  }

  function DriftsOf(cfg: Config, ds: Option<string>, lines: seq<string>): seq<Drift>
    decreases |lines|
  {
    if lines == [] then [] else LineDrifts(cfg, ds, lines[0]) + DriftsOf(cfg, Next(ds, lines[0]), lines[1..])
  }

  function ErrorsOf(cfg: Config, ds: Option<string>, lines: seq<string>, begun: set<string>): seq<Error>
    decreases |lines|
  {
    if lines == [] then []
    else
      LineErrors(cfg, ds, lines[0], begun)
      + ErrorsOf(cfg, Next(ds, lines[0]), lines[1..], Begun(cfg, ds, lines[0], begun))
  }

  /** The known data sources that the lines name, in the order of their first naming. */
  function FirstNamed(cfg: Config, lines: seq<string>, before: set<string>): seq<string>
    decreases |lines|
  {
    if lines == [] then []
    else match NameOf(lines[0])
      case None => FirstNamed(cfg, lines[1..], before)
      case Some(ds) =>
        if ds in cfg.nameMap && ds !in before then [ds] + FirstNamed(cfg, lines[1..], before + {ds})
        else FirstNamed(cfg, lines[1..], before)
  }

  /** A named source without an address line, and then one without a start block line. */
  function UnmatchedErrors(cfg: Config, lines: seq<string>, named: seq<string>): seq<Error>
    decreases |named|
  {
    if named == [] then []
    else
      (if HasAddressLine(cfg, None, lines, named[0]) then [] else [NoAddressLine(named[0])])
      + (if HasStartBlockLine(cfg, None, lines, named[0]) then [] else [NoStartBlockLine(named[0])])
      + UnmatchedErrors(cfg, lines, named[1..])
  }

  // ---------------------------------------------------------------------------
  // The pass does just this
  // ---------------------------------------------------------------------------

  lemma ZeroAddressExactly(address: string)
    ensures IsZeroAddress(address) <==> address == ZERO_ADDRESS
  {
    assert |ZERO_ADDRESS| == 42 && ZERO_ADDRESS[0] == '0' && ZERO_ADDRESS[1] == 'x';
    assert ZERO_ADDRESS[..2] == "0x";
    assert forall k | 2 <= k < 42 :: ZERO_ADDRESS[k] == '0';
    if IsZeroAddress(address) {
      assert address == address[..2] + address[2..] && ZERO_ADDRESS == "0x" + ZERO_ADDRESS[2..];
      assert address[2..] == ZERO_ADDRESS[2..];
    }
  }

  lemma WrittenTexts(indent: string, address: string, startBlock: int, network: string)
    ensures AddressLine(indent, address) == indent + "address: \"" + address + "\"\n"
    ensures StartBlockLine(indent, startBlock) == indent + "startBlock: " + PrintInt(startBlock) + "\n"
    ensures NetworkLine(indent, network) == indent + "network: " + network + "\n"
  {
    hide PrintInt;
    assert "address:" + (" \"" + (address + "\"")) + "\n" == "address: \"" + address + "\"\n";
    assert "startBlock:" + (" " + PrintInt(startBlock)) + "\n" == "startBlock: " + PrintInt(startBlock) + "\n";
    assert "network:" + (" " + network) + "\n" == "network: " + network + "\n";
  }

  lemma StepReports(cfg: Config, s: State, line: string)
    ensures var s' := Step(cfg, s, line);
      && s'.out == s.out + [LineText(cfg, s.current, line)]
      && s'.drifts == s.drifts + LineDrifts(cfg, s.current, line)
      && s'.errors == s.errors + LineErrors(cfg, s.current, line, s.validated)
      && s'.validated == Begun(cfg, s.current, line, s.validated)
      && s'.current == Next(s.current, line)
  {
    hide NameOf, KindOf, Norm, PrintInt, AddressLine, StartBlockLine, NetworkLine, IsZeroAddress;
    if Concerns(cfg, s.current, line) {
      var m := Deployment(cfg, s.current.value);
      ZeroAddressExactly(Norm(m.address));
      match KindOf(line) {
        case Address(indent, _) => WrittenTexts(indent, Norm(m.address), 0, "");
        case StartBlock(indent, _) => WrittenTexts(indent, "", m.startBlock, "");
        case Network(indent, _) =>
          if cfg.network.Some? {
            WrittenTexts(indent, "", 0, cfg.network.value);
          }
        case Other =>
      }
    }
  }

  lemma {:induction false} RunReports(cfg: Config, s: State, lines: seq<string>)
    ensures var r := Run(cfg, s, lines);
      && Join(r.out) == Join(s.out) + TextOf(cfg, s.current, lines)
      && r.drifts == s.drifts + DriftsOf(cfg, s.current, lines)
      && r.errors == s.errors + ErrorsOf(cfg, s.current, lines, s.validated)
    decreases |lines|
  {
    hide Step, LineText, LineDrifts, LineErrors, Begun, Next, Join;
    if lines != [] {
      var line := lines[0];
      StepReports(cfg, s, line);
      RunReports(cfg, Step(cfg, s, line), lines[1..]);
      JoinOne(s.out, LineText(cfg, s.current, line));
    }
  }

  lemma {:induction false} JoinOne(lines: seq<string>, line: string)
    ensures Join(lines + [line]) == Join(lines) + line
    decreases |lines|
  {
    if lines == [] {
      assert [] + [line] == [line] && [line][1..] == [];
    } else {
      assert (lines + [line])[1..] == lines[1..] + [line];
      JoinOne(lines[1..], line);
    }
  }

  lemma StepNames(cfg: Config, s: State, line: string, before: set<string>)
    requires before == set ds | ds in s.seen
    ensures var s' := Step(cfg, s, line);
      match NameOf(line)
      case Some(ds) =>
        s'.seen == s.seen + (if ds in cfg.nameMap && ds !in before then [ds] else [])
      case None => s'.seen == s.seen
  {
    hide NameOf, KindOf, Norm, PrintInt, AddressLine, StartBlockLine, NetworkLine, ValidationError;
  }

  lemma {:induction false} RunNames(cfg: Config, s: State, lines: seq<string>, before: set<string>)
    requires before == set ds | ds in s.seen
    ensures Run(cfg, s, lines).seen == s.seen + FirstNamed(cfg, lines, before)
    decreases |lines|
  {
    hide Step, NameOf;
    if lines != [] {
      StepNames(cfg, s, lines[0], before);
      var s' := Step(cfg, s, lines[0]);
      RunNames(cfg, s', lines[1..], set ds | ds in s'.seen);
      if s'.seen == s.seen {
        assert (set ds | ds in s'.seen) == before;
      } else {
        var name := NameOf(lines[0]).value;
        assert (set ds | ds in s'.seen) == before + {name};
        Regroup(s.seen, [name], FirstNamed(cfg, lines[1..], before + {name}));
      }
    } else {
      assert s.seen + [] == s.seen;
    }
  }

  lemma {:induction false} UnmatchedAreUnpatched(cfg: Config, lines: seq<string>, named: seq<string>)
    ensures var r := Run(cfg, START, lines);
      UnmatchedErrors(cfg, lines, named) == Unpatched(named, r.addressed, r.blocked)
    decreases |named|
  {
    hide Run, HasAddressLine, HasStartBlockLine;
    if named != [] {
      RunFinds(cfg, START, lines, named[0]);
      UnmatchedAreUnpatched(cfg, lines, named[1..]);
    }
  }

  /**
   The synchroniser's result: the text, line by line; for each line in order the errors and the drifts it
   gives rise to; and behind those errors the ones of the named sources, in order of their first naming.
   */
  lemma SyncExactly(cfg: Config, text: string)
    ensures var lines := SplitLines(text);
      Sync(cfg, text) == Result(
        TextOf(cfg, None, lines),
        ErrorsOf(cfg, None, lines, {}) + UnmatchedErrors(cfg, lines, FirstNamed(cfg, lines, {})),
        DriftsOf(cfg, None, lines))
  {
    hide SplitLines, Run, Join, Unpatched, UnmatchedErrors, TextOf, DriftsOf, ErrorsOf, FirstNamed;
    var lines := SplitLines(text);
    RunReports(cfg, START, lines);
    RunNames(cfg, START, lines, {});
    UnmatchedAreUnpatched(cfg, lines, FirstNamed(cfg, lines, {}));
    NothingJoined();
    var r := Run(cfg, START, lines);
    assert r.errors == ErrorsOf(cfg, None, lines, {}) && r.drifts == DriftsOf(cfg, None, lines);
    assert r.seen == FirstNamed(cfg, lines, {}) && Join(r.out) == TextOf(cfg, None, lines);
  }

  /** A normal form has no white space around it, and small letters for capitals. */
  lemma NormExactly(a: string, core: string, b: string)
    requires AllSpaces(a) && AllSpaces(b) && IsBare(core)
    ensures var n := Norm(a + core + b);
      |n| == |core| && forall k | 0 <= k < |core| ::
        if 'A' <= core[k] <= 'Z' then 'a' <= n[k] <= 'z' && core[k] - 'A' == n[k] - 'a' else n[k] == core[k]
  {
    hide Strip;
    StripExactly(a, core, b);
    forall k | 0 <= k < |core|
      ensures var c := LowerChar(core[k]);
        if 'A' <= core[k] <= 'Z' then 'a' <= c <= 'z' && core[k] - 'A' == c - 'a' else c == core[k]
    {
      LowerExactly(core[k]);
    }
  }
}
