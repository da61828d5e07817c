/**
 The manifest synchroniser: one pass over the lines of a subgraph manifest that rewrites the
 address, start block and network of every known data source from a deployments manifest.
 */
module ManifestSync {
  import opened Text
  import opened Decimals
  import opened ManifestLines

  const ZERO_ADDRESS := "0x0000000000000000000000000000000000000000"

  datatype Meta = Meta(address: string, startBlock: int)

  /** `nameMap` takes a data source's name to its key in the deployments manifest. */
  datatype Config = Config(
    nameMap: map<string, string>,
    contracts: map<string, Meta>,
    allowZeroAddresses: bool,
    allowStartBlockZero: bool,
    network: Option<string>)

  datatype Error =
    | MissingContract(key: string, ds: string)
    | ZeroAddress(key: string)
    | ZeroStartBlock(key: string)
    | NoAddressLine(ds: string)
    | NoStartBlockLine(ds: string)

  datatype Drift = Drift(ds: string, field: string, current: string, expected: string)

  datatype Result = Result(text: string, errors: seq<Error>, drifts: seq<Drift>)

  // ---------------------------------------------------------------------------
  // Addresses
  // ---------------------------------------------------------------------------

  /** `_norm_addr`: without surrounding white space, in lower case. */
  function Norm(address: string): string { Lower(Strip(address)) }

  function ValidationError(cfg: Config, key: string, m: Meta): Option<Error> {
    if !cfg.allowZeroAddresses && Norm(m.address) == ZERO_ADDRESS then Some(ZeroAddress(key))
    else if !cfg.allowStartBlockZero && m.startBlock == 0 then Some(ZeroStartBlock(key))
    else None
  }

  // ---------------------------------------------------------------------------
  // The pass, as a fold over the lines
  // ---------------------------------------------------------------------------

  datatype State = State(
    current: Option<string>,
    addressed: set<string>,
    blocked: set<string>,
    seen: seq<string>,
    validated: set<string>,
    out: seq<string>,
    errors: seq<Error>,
    drifts: seq<Drift>)

  const START := State(None, {}, {}, [], {}, [], [], [])

  predicate IsKnown(cfg: Config, ds: Option<string>) { ds.Some? && ds.value in cfg.nameMap }

  function Keep(s: State, line: string): State { s.(out := s.out + [line]) }

  function Enter(cfg: Config, s: State, ds: string, line: string): State {
    s.(current := Some(ds),
       seen := if ds in cfg.nameMap && ds !in s.seen then s.seen + [ds] else s.seen,
       out := s.out + [line])
  }

  /** A data source is validated once, on the first line of its block. */
  function Validate(cfg: Config, s: State, ds: string, key: string, m: Meta): State {
    if ds in s.validated then s
    else s.(
      validated := s.validated + {ds},
      errors := match ValidationError(cfg, key, m) case None => s.errors case Some(e) => s.errors + [e])
  }

  function DriftIf(differs: bool, ds: string, field: string, current: string, expected: string): seq<Drift> {
    if differs then [Drift(ds, field, current, expected)] else []
  }

  function AddressLine(indent: string, address: string): string {
    indent + ("address:" + (" \"" + (address + "\""))) + "\n"
  }

  function StartBlockLine(indent: string, startBlock: int): string {
    indent + ("startBlock:" + (" " + PrintInt(startBlock))) + "\n"
  }

  function NetworkLine(indent: string, network: string): string {
    indent + ("network:" + (" " + network)) + "\n"
  }

  /** A line of a data source's block whose deployment is known. */
  function Patch(cfg: Config, s: State, ds: string, m: Meta, line: string): State {
    match KindOf(line)
    case Address(indent, current) =>
      var target := Norm(m.address);
      s.(drifts := s.drifts + DriftIf(Norm(current) != target, ds, "source.address", current, target),
         out := s.out + [AddressLine(indent, target)],
         addressed := s.addressed + {ds})
    case StartBlock(indent, current) =>
      var target := PrintInt(m.startBlock);
      s.(drifts := s.drifts + DriftIf(current != target, ds, "source.startBlock", current, target),
         out := s.out + [StartBlockLine(indent, m.startBlock)],
         blocked := s.blocked + {ds})
    case Network(indent, current) =>
      if cfg.network.None? then Keep(s, line)
      else
        var target := cfg.network.value;
        s.(drifts := s.drifts + DriftIf(current != target, ds, "network", current, target),
           out := s.out + [NetworkLine(indent, target)])
    case Other => Keep(s, line)
  }

  function Step(cfg: Config, s: State, line: string): State {
    match NameOf(line)
    case Some(ds) => Enter(cfg, s, ds, line)
    case None =>
      if !IsKnown(cfg, s.current) then Keep(s, line)
      else
        var ds := s.current.value;
        var key := cfg.nameMap[ds];
        if key !in cfg.contracts then Keep(s.(errors := s.errors + [MissingContract(key, ds)]), line)
        else Patch(cfg, Validate(cfg, s, ds, key, cfg.contracts[key]), ds, cfg.contracts[key], line)
  }

  function Run(cfg: Config, s: State, lines: seq<string>): State
    decreases |lines|
  {
    if lines == [] then s else Run(cfg, Step(cfg, s, lines[0]), lines[1..])
  }

  function MissingLines(ds: string, addressed: set<string>, blocked: set<string>): seq<Error> {
    (if ds in addressed then [] else [NoAddressLine(ds)]) + (if ds in blocked then [] else [NoStartBlockLine(ds)])
  }

  /** The data sources seen without an address or a start block line. */
  function Unpatched(seen: seq<string>, addressed: set<string>, blocked: set<string>): seq<Error> {
    if seen == [] then [] else MissingLines(seen[0], addressed, blocked) + Unpatched(seen[1..], addressed, blocked)
  }

  function Sync(cfg: Config, text: string): Result {
    var s := Run(cfg, START, SplitLines(text));
    Result(Join(s.out), s.errors + Unpatched(s.seen, s.addressed, s.blocked), s.drifts)
  }

  // ---------------------------------------------------------------------------
  // The loop
  // ---------------------------------------------------------------------------

  method ValidateMeta(cfg: Config, key: string, m: Meta) returns (e: Option<Error>)
    ensures e == ValidationError(cfg, key, m)
  {
    if !cfg.allowZeroAddresses && Norm(m.address) == ZERO_ADDRESS {
      return Some(ZeroAddress(key));
    }
    if !cfg.allowStartBlockZero && m.startBlock == 0 {
      return Some(ZeroStartBlock(key));
    }
    return None;
  }

  /** The pass's variables, updated line by line. */
  class Synchroniser {
    const cfg: Config
    var current: Option<string>
    var addressed: set<string>
    var blocked: set<string>
    var seen: seq<string>
    var validated: set<string>
    var out: seq<string>
    var errors: seq<Error>
    var drifts: seq<Drift>

    constructor (cfg: Config)
      ensures this.cfg == cfg && Value() == START
    {
      this.cfg := cfg;
      current, addressed, blocked, seen, validated := None, {}, {}, [], {};
      out, errors, drifts := [], [], [];
    }

    function Value(): State
      reads this
    {
      State(current, addressed, blocked, seen, validated, out, errors, drifts)
    }

    method PatchLine(ds: string, m: Meta, line: string)
      modifies this
      ensures Value() == Patch(cfg, old(Value()), ds, m, line)
    {
      hide KindOf, Norm, PrintInt, AddressLine, StartBlockLine, NetworkLine;
      match KindOf(line) {
        case Address(indent, currentAddress) =>
          var target := Norm(m.address);
          if Norm(currentAddress) != target {
            drifts := drifts + [Drift(ds, "source.address", currentAddress, target)];
          }
          out := out + [AddressLine(indent, target)];
          addressed := addressed + {ds};
        case StartBlock(indent, currentBlock) =>
          if currentBlock != PrintInt(m.startBlock) {
            drifts := drifts + [Drift(ds, "source.startBlock", currentBlock, PrintInt(m.startBlock))];
          }
          out := out + [StartBlockLine(indent, m.startBlock)];
          blocked := blocked + {ds};
        case Network(indent, currentNetwork) =>
          if cfg.network.None? {
            out := out + [line];
            return;
          }
          if currentNetwork != cfg.network.value {
            drifts := drifts + [Drift(ds, "network", currentNetwork, cfg.network.value)];
          }
          out := out + [NetworkLine(indent, cfg.network.value)];
        case Other =>
          out := out + [line];
      }
    }

    method ProcessLine(line: string)
      modifies this
      ensures Value() == Step(cfg, old(Value()), line)
    {
      hide NameOf, Patch, ValidationError;
      var name := NameOf(line);
      if name.Some? {
        current := name;
        if name.value in cfg.nameMap && name.value !in seen {
          seen := seen + [name.value];
        }
        out := out + [line];
        return;
      }
      if !IsKnown(cfg, current) {
        out := out + [line];
        return;
      }
      var ds := current.value;
      var key := cfg.nameMap[ds];
      if key !in cfg.contracts {
        errors := errors + [MissingContract(key, ds)];
        out := out + [line];
        return;
      }
      var m := cfg.contracts[key];
      if ds !in validated {
        var e := ValidateMeta(cfg, key, m);
        if e.Some? {
          errors := errors + [e.value];
        }
        validated := validated + {ds};
      }
      PatchLine(ds, m, line);
    }
  }

  method ReportUnpatched(seen: seq<string>, addressed: set<string>, blocked: set<string>) returns (errors: seq<Error>)
    ensures errors == Unpatched(seen, addressed, blocked)
  {
    errors := [];
    for i := 0 to |seen|
      invariant errors + Unpatched(seen[i..], addressed, blocked) == Unpatched(seen, addressed, blocked)
    {
      ghost var before := errors;
      var ds := seen[i];
      if ds !in addressed {
        errors := errors + [NoAddressLine(ds)];
      }
      if ds !in blocked {
        errors := errors + [NoStartBlockLine(ds)];
      }
      assert errors == before + MissingLines(ds, addressed, blocked);
      assert seen[i..][1..] == seen[i + 1..];
      Regroup(before, MissingLines(ds, addressed, blocked), Unpatched(seen[i + 1..], addressed, blocked));
    }
  }

  method SyncManifestText(text: string, cfg: Config) returns (r: Result)
    ensures r == Sync(cfg, text)
  {
    hide Step, SplitLines, Join, Unpatched;
    var lines := SplitLines(text);
    var pass := new Synchroniser(cfg);
    for i := 0 to |lines|
      invariant pass.cfg == cfg
      invariant Run(cfg, pass.Value(), lines[i..]) == Run(cfg, START, lines)
    {
      pass.ProcessLine(lines[i]);
    }
    var unpatched := ReportUnpatched(pass.seen, pass.addressed, pass.blocked);
    return Result(Join(pass.out), pass.errors + unpatched, pass.drifts);
  }
}
