/**
 The pruned directory walks of the documentation gates, against walking everything and filtering.

 A directory is a finite tree; a file's path is the list of its components below the root. Both
 walks list files top-down, in the order the directories list their entries, and sort them at the end.
 */
module PrunedWalk {
  import opened Text
  import Lines = ManifestLines
  import opened SortedPaths

  datatype Tree = Dir(files: seq<string>, dirs: Forest)

  datatype Forest = Nil | Cons(name: string, tree: Tree, rest: Forest)

  const EXCLUDED_DIR_NAMES: set<string> :=
    {"node_modules", ".git", ".next", "dist", "build", "out", "cache", "broadcast", ".open-next", "lib"}

  const GITHUB := ".github"

  /** The public allowlist: single files, and directories with a trailing slash. */
  datatype Allowlist = Allowlist(files: set<string>, dirs: set<string>)

  // ---------------------------------------------------------------------------
  // Paths
  // ---------------------------------------------------------------------------

  predicate IsExcluded(path: Path) { exists part | part in path :: part in EXCLUDED_DIR_NAMES }

  /** The path as POSIX text. */
  function Posix(path: Path): string {
    if path == [] then "" else if |path| == 1 then path[0] else path[0] + ("/" + Posix(path[1..]))
  }

  predicate IsPrefix(prefix: string, s: string) { At(s, 0, prefix) }

  /** `_is_public_surface`. */
  predicate IsPublicSurface(rel: string, allow: Allowlist) {
    rel in allow.files || exists prefix | prefix in allow.dirs :: IsPrefix(prefix, rel)
  }

  /** `raw.split("/", 1)[0]`. */
  function Head(raw: string): string {
    if raw == "" || raw[0] == '/' then "" else [raw[0]] + Head(raw[1..])
  }

  predicate EndsWithAny(name: string, suffixes: seq<string>) {
    exists k | 0 <= k < |suffixes| :: |suffixes[k]| <= |name| && name[|name| - |suffixes[k]|..] == suffixes[k]
  }

  /** File and directory names are not empty and hold no slash. */
  predicate IsName(name: string) { name != "" && '/' !in name }

  predicate AllNames(names: seq<string>) { forall name | name in names :: IsName(name) }

  predicate WfTree(t: Tree) { AllNames(t.files) && WfForest(t.dirs) }

  predicate WfForest(f: Forest) { f.Cons? ==> IsName(f.name) && WfTree(f.tree) && WfForest(f.rest) }

  // ---------------------------------------------------------------------------
  // The allowlist file
  // ---------------------------------------------------------------------------

  /** A line of the allowlist file, stripped, is skipped, a directory, or a file. */
  predicate IsEntry(line: string) { line != "" && line[0] != '#' }

  predicate IsDirEntry(line: string) { line != "" && line[|line| - 1] == '/' }

  /** The text is a stripped line of the file. */
  predicate IsStrippedLine(lines: seq<string>, e: string) { exists k | 0 <= k < |lines| :: e == Strip(lines[k]) }

  method LoadPublicAllowlist(text: string) returns (allow: Allowlist)
    ensures forall e :: e in allow.dirs <==>
      IsStrippedLine(Lines.SplitLines(text), e) && e != "" && e[0] != '#' && e[|e| - 1] == '/'
    ensures forall e :: e in allow.files <==>
      IsStrippedLine(Lines.SplitLines(text), e) && e != "" && e[0] != '#' && e[|e| - 1] != '/'
    ensures WfAllowlist(allow)
  {
    hide Strip;
    var lines := Lines.SplitLines(text);
    var files: set<string>, dirs: set<string> := {}, {};
    for i := 0 to |lines|
      invariant forall e :: e in dirs <==> IsStrippedLine(lines[..i], e) && IsEntry(e) && IsDirEntry(e)
      invariant forall e :: e in files <==> IsStrippedLine(lines[..i], e) && IsEntry(e) && !IsDirEntry(e)
    {
      var line := Strip(lines[i]);
      StrippedNext(lines, i);
      if !IsEntry(line) {
        continue;
      }
      if IsDirEntry(line) {
        dirs := dirs + {line};
      } else {
        files := files + {line};
      }
    }
    assert lines[..|lines|] == lines;
    return Allowlist(files, dirs);
  }

  lemma StrippedNext(lines: seq<string>, i: nat)
    requires i < |lines|
    ensures forall e :: IsStrippedLine(lines[..i + 1], e) <==> IsStrippedLine(lines[..i], e) || e == Strip(lines[i])
  {
    hide Strip;
    assert lines[..i + 1] == lines[..i] + [lines[i]];
    forall e: string
      ensures IsStrippedLine(lines[..i + 1], e) <==> IsStrippedLine(lines[..i], e) || e == Strip(lines[i])
    {
      if IsStrippedLine(lines[..i], e) {
        var k :| 0 <= k < i && e == Strip(lines[..i][k]);
        assert lines[..i + 1][k] == lines[..i][k];
      }
      assert lines[..i + 1][i] == lines[i];
    }
  }

  predicate WfAllowlist(allow: Allowlist) { forall e | e in allow.dirs :: IsDirEntry(e) }

  /** The names the first gate keeps at the root. */
  function AllowedTopLevel(allow: Allowlist): set<string> {
    set raw | raw in allow.files + allow.dirs && Head(raw) != "" :: Head(raw)
  }

  /** The names the second gate keeps at the root. */
  function KeptTopLevel(allow: Allowlist): set<string> {
    (set p | p in allow.dirs :: Head(p)) + (set p | p in allow.files :: Head(p)) + {GITHUB}
  }

  // ---------------------------------------------------------------------------
  // The naive walk
  // ---------------------------------------------------------------------------

  function FilePaths(at: Path, files: seq<string>): seq<Path> {
    if files == [] then [] else [at + [files[0]]] + FilePaths(at, files[1..])
  }

  function WalkTree(at: Path, t: Tree): seq<Path>
    decreases t
  {
    FilePaths(at, t.files) + WalkForest(at, t.dirs)
  }

  function WalkForest(at: Path, f: Forest): seq<Path>
    decreases f
  {
    match f case Nil => [] case Cons(name, t, rest) => WalkTree(at + [name], t) + WalkForest(at, rest)
  }

  predicate IsScanned(path: Path, suffixes: seq<string>) {
    path != [] && EndsWithAny(path[|path| - 1], suffixes) && !IsExcluded(path)
  }

  function Scanned(paths: seq<Path>, suffixes: seq<string>): seq<Path> {
    if paths == [] then []
    else (if IsScanned(paths[0], suffixes) then [paths[0]] else []) + Scanned(paths[1..], suffixes)
  }

  function Public(paths: seq<Path>, allow: Allowlist): seq<Path> {
    if paths == [] then []
    else (if IsPublicSurface(Posix(paths[0]), allow) then [paths[0]] else []) + Public(paths[1..], allow)
  }

  // ---------------------------------------------------------------------------
  // The pruned walk
  // ---------------------------------------------------------------------------

  function TreeSize(t: Tree): nat
    decreases t
  {
    1 + ForestSize(t.dirs)
  }

  function ForestSize(f: Forest): nat
    decreases f
  {
    match f case Nil => 0 case Cons(_, t, rest) => 1 + TreeSize(t) + ForestSize(rest)
  }

  predicate IsDropped(name: string, keep: Option<set<string>>) {
    name in EXCLUDED_DIR_NAMES || (keep.Some? && name !in keep.value)
  }

  /** The subdirectories that are not excluded, and at the root only the kept ones. */
  function Prune(f: Forest, keep: Option<set<string>>): (r: Forest)
    ensures ForestSize(r) <= ForestSize(f)
    decreases f
  {
    match f
    case Nil => Nil
    case Cons(name, t, rest) =>
      if IsDropped(name, keep) then Prune(rest, keep) else Cons(name, t, Prune(rest, keep))
  }

  function PrunedTree(at: Path, t: Tree, keep: Option<set<string>>, suffixes: seq<string>): seq<Path>
    decreases TreeSize(t)
  {
    Scanned(FilePaths(at, t.files), suffixes) + PrunedForest(at, Prune(t.dirs, keep), suffixes)
  }

  function PrunedForest(at: Path, f: Forest, suffixes: seq<string>): seq<Path>
    decreases ForestSize(f)
  {
    match f
    case Nil => []
    case Cons(name, t, rest) => PrunedTree(at + [name], t, None, suffixes) + PrunedForest(at, rest, suffixes)
  }

  /** Directories still to be walked, the last one first. */
  datatype Frame = Frame(at: Path, dirs: Forest)

  function ToWalk(stack: seq<Frame>, suffixes: seq<string>): seq<Path> {
    if stack == [] then []
    else
      var top := stack[|stack| - 1];
      PrunedForest(top.at, top.dirs, suffixes) + ToWalk(stack[..|stack| - 1], suffixes)
  }

  function StackSize(stack: seq<Frame>): nat {
    if stack == [] then 0 else 1 + ForestSize(stack[|stack| - 1].dirs) + StackSize(stack[..|stack| - 1])
  }

  method ScanFiles(at: Path, files: seq<string>, suffixes: seq<string>) returns (results: seq<Path>)
    ensures results == Scanned(FilePaths(at, files), suffixes)
  {
    hide IsExcluded, EndsWithAny;
    results := [];
    for i := 0 to |files|
      invariant results + Scanned(FilePaths(at, files[i..]), suffixes) == Scanned(FilePaths(at, files), suffixes)
    {
      var full := at + [files[i]];
      assert files[i..][1..] == files[i + 1..];
      ScannedCons(full, FilePaths(at, files[i + 1..]), suffixes);
      if !EndsWithAny(files[i], suffixes) {
        continue;
      }
      if IsExcluded(full) {
        continue;
      }
      results := results + [full];
    }
  }

  lemma ScannedCons(path: Path, rest: seq<Path>, suffixes: seq<string>)
    ensures Scanned([path] + rest, suffixes)
         == (if IsScanned(path, suffixes) then [path] else []) + Scanned(rest, suffixes)
  {
    assert ([path] + rest)[1..] == rest;
  }

  /** The walk itself: a directory's files, then its remaining subdirectories, by an explicit stack. */
  method WalkPruned(root: Tree, keep: Option<set<string>>, suffixes: seq<string>) returns (results: seq<Path>)
    ensures results == PrunedTree([], root, keep, suffixes)
  {
    hide Scanned, FilePaths, Prune;
    results := ScanFiles([], root.files, suffixes);
    var stack := [Frame([], Prune(root.dirs, keep))];
    OneFrame(stack[0], suffixes);
    while stack != []
      invariant results + ToWalk(stack, suffixes) == PrunedTree([], root, keep, suffixes)
      decreases StackSize(stack)
    {
      ghost var before := stack;
      var Frame(at, dirs) := stack[|stack| - 1];
      stack := stack[..|stack| - 1];
      match dirs {
        case Nil =>
        case Cons(name, t, rest) =>
          var files := ScanFiles(at + [name], t.files, suffixes);
          var kept := Prune(t.dirs, None);
          PushFrames(stack, at, name, t, rest, suffixes);
          stack := stack + [Frame(at, rest)];
          stack := stack + [Frame(at + [name], kept)];
          Regroup(results, files, ToWalk(stack, suffixes));
          results := results + files;
      }
    }
  }

  lemma OneFrame(frame: Frame, suffixes: seq<string>)
    ensures ToWalk([frame], suffixes) == PrunedForest(frame.at, frame.dirs, suffixes)
  {
    assert [frame][..0] == [];
  }

  /** Replacing a directory by its files, its pruned subdirectories and its siblings. */
  lemma PushFrames(stack: seq<Frame>, at: Path, name: string, t: Tree, rest: Forest, suffixes: seq<string>)
    ensures var next := (stack + [Frame(at, rest)]) + [Frame(at + [name], Prune(t.dirs, None))];
      && Scanned(FilePaths(at + [name], t.files), suffixes) + ToWalk(next, suffixes)
           == PrunedForest(at, Cons(name, t, rest), suffixes) + ToWalk(stack, suffixes)
      && StackSize(next) < 1 + ForestSize(Cons(name, t, rest)) + StackSize(stack)
  {
    hide Scanned, FilePaths, Prune;
    var s1 := stack + [Frame(at, rest)];
    var kept := Prune(t.dirs, None);
    var next := s1 + [Frame(at + [name], kept)];
    assert s1[..|s1| - 1] == stack && next[..|next| - 1] == s1;
    var files := Scanned(FilePaths(at + [name], t.files), suffixes);
    var sub := PrunedForest(at + [name], kept, suffixes);
    assert PrunedTree(at + [name], t, None, suffixes) == files + sub;
    assert files + (sub + (PrunedForest(at, rest, suffixes) + ToWalk(stack, suffixes)))
        == ((files + sub) + PrunedForest(at, rest, suffixes)) + ToWalk(stack, suffixes);
  }

  method KeepPublic(paths: seq<Path>, allow: Allowlist) returns (results: seq<Path>)
    ensures results == Public(paths, allow)
  {
    hide IsPublicSurface, Posix;
    results := [];
    for i := 0 to |paths|
      invariant results + Public(paths[i..], allow) == Public(paths, allow)
    {
      assert paths[i..][1..] == paths[i + 1..];
      if IsPublicSurface(Posix(paths[i]), allow) {
        results := results + [paths[i]];
      }
    }
  }

  // ---------------------------------------------------------------------------
  // Filters
  // ---------------------------------------------------------------------------

  lemma {:induction false} ScannedAppend(a: seq<Path>, b: seq<Path>, suffixes: seq<string>)
    ensures Scanned(a + b, suffixes) == Scanned(a, suffixes) + Scanned(b, suffixes)
    decreases |a|
  {
    hide IsScanned;
    if a == [] {
      assert a + b == b;
    } else {
      hide Scanned;
      var first, rest := a[0], a[1..];
      assert a == [first] + rest && a + b == [first] + (rest + b);
      ScannedAppend(rest, b, suffixes);
      ScannedCons(first, rest, suffixes);
      ScannedCons(first, rest + b, suffixes);
      Regroup(if IsScanned(first, suffixes) then [first] else [], Scanned(rest, suffixes), Scanned(b, suffixes));
    }
  }

  lemma {:induction false} PublicAppend(a: seq<Path>, b: seq<Path>, allow: Allowlist)
    ensures Public(a + b, allow) == Public(a, allow) + Public(b, allow)
    decreases |a|
  {
    hide IsPublicSurface;
    if a == [] {
      assert a + b == b;
    } else {
      assert (a + b)[1..] == a[1..] + b;
      PublicAppend(a[1..], b, allow);
    }
  }

  lemma {:induction false} NothingScanned(paths: seq<Path>, suffixes: seq<string>)
    requires forall path | path in paths :: IsExcluded(path)
    ensures Scanned(paths, suffixes) == []
    decreases |paths|
  {
    hide IsExcluded;
    if paths != [] {
      NothingScanned(paths[1..], suffixes);
    }
  }

  lemma {:induction false} NothingPublic(paths: seq<Path>, suffixes: seq<string>, allow: Allowlist)
    requires forall path | path in paths :: !IsPublicSurface(Posix(path), allow)
    ensures Public(Scanned(paths, suffixes), allow) == []
    decreases |paths|
  {
    hide IsScanned, IsPublicSurface;
    if paths != [] {
      NothingPublic(paths[1..], suffixes, allow);
      var rest := Scanned(paths[1..], suffixes);
      assert Scanned(paths, suffixes) == if IsScanned(paths[0], suffixes) then [paths[0]] + rest else rest;
      assert ([paths[0]] + rest)[1..] == rest;
    }
  }

  lemma {:induction false} FilePathsBelow(at: Path, files: seq<string>, path: Path)
    requires path in FilePaths(at, files)
    ensures |path| > |at| && path[..|at|] == at
    decreases |files|
  {
    if path != at + [files[0]] {
      FilePathsBelow(at, files[1..], path);
    }
  }

  /** Every path of a directory's walk lies below the directory. */
  lemma {:induction false} TreeBelow(at: Path, t: Tree, path: Path)
    requires path in WalkTree(at, t)
    ensures |path| > |at| && path[..|at|] == at
    decreases t
  {
    if path in FilePaths(at, t.files) {
      FilePathsBelow(at, t.files, path);
    } else {
      ForestBelow(at, t.dirs, path);
    }
  }

  lemma {:induction false} ForestBelow(at: Path, f: Forest, path: Path)
    requires path in WalkForest(at, f)
    ensures |path| > |at| && path[..|at|] == at
    decreases f
  {
    if path in WalkTree(at + [f.name], f.tree) {
      TreeBelow(at + [f.name], f.tree, path);
      assert path[..|at|] == path[..|at| + 1][..|at|];
    } else {
      ForestBelow(at, f.rest, path);
    }
  }

  // ---------------------------------------------------------------------------
  // Pruning excluded directories changes nothing
  // ---------------------------------------------------------------------------

  /** All that an excluded directory holds is excluded. */
  lemma ExcludedSubtree(at: Path, name: string, t: Tree, suffixes: seq<string>)
    requires name in EXCLUDED_DIR_NAMES
    ensures Scanned(WalkTree(at + [name], t), suffixes) == []
  {
    forall path | path in WalkTree(at + [name], t) ensures IsExcluded(path) {
      TreeBelow(at + [name], t, path);
      assert path[|at|] == path[..|at| + 1][|at|] == name;
      assert name in path;
    }
    NothingScanned(WalkTree(at + [name], t), suffixes);
  }

  lemma {:induction false} PrunedTreeIsScanned(at: Path, t: Tree, suffixes: seq<string>)
    ensures PrunedTree(at, t, None, suffixes) == Scanned(WalkTree(at, t), suffixes)
    decreases t, 1
  {
    hide Scanned, FilePaths, WalkForest, PrunedForest, Prune;
    ScannedAppend(FilePaths(at, t.files), WalkForest(at, t.dirs), suffixes);
    PrunedForestIsScanned(at, t.dirs, suffixes);
  }

  lemma {:induction false} PrunedForestIsScanned(at: Path, f: Forest, suffixes: seq<string>)
    ensures PrunedForest(at, Prune(f, None), suffixes) == Scanned(WalkForest(at, f), suffixes)
    decreases f, 0
  {
    hide PrunedTree, WalkTree;
    if f.Cons? {
      ScannedAppend(WalkTree(at + [f.name], f.tree), WalkForest(at, f.rest), suffixes);
      PrunedForestIsScanned(at, f.rest, suffixes);
      if f.name in EXCLUDED_DIR_NAMES {
        ExcludedSubtree(at, f.name, f.tree, suffixes);
      } else {
        PrunedTreeIsScanned(at + [f.name], f.tree, suffixes);
      }
    }
  }

  // ---------------------------------------------------------------------------
  // Pruning the root's other directories hides nothing public
  // ---------------------------------------------------------------------------

  lemma {:induction false} HeadOf(name: string, rest: string)
    requires '/' !in name
    ensures Head(name + ("/" + rest)) == name
    decreases |name|
  {
    var raw := name + ("/" + rest);
    if name != "" {
      assert raw[1..] == name[1..] + ("/" + rest);
      HeadOf(name[1..], rest);
    }
  }

  /** A directory prefix of a path starts with the path's first component. */
  lemma PrefixHead(prefix: string, name: string, rest: string)
    requires IsName(name) && IsDirEntry(prefix) && IsPrefix(prefix, name + ("/" + rest))
    ensures Head(prefix) == name
  {
    var raw := name + ("/" + rest);
    AtChar(raw, 0, prefix, |prefix| - 1);
    assert forall k | 0 <= k < |name| :: raw[k] == name[k] && name[k] != '/';
    forall k | 0 <= k < |name| ensures prefix[k] == name[k] {
      AtChar(raw, 0, prefix, k);
    }
    AtChar(raw, 0, prefix, |name|);
    var tail := prefix[|name| + 1..];
    assert prefix == name + ("/" + tail);
    HeadOf(name, tail);
  }

  /** A public file below the root lies in a directory that some allowlist entry names first. */
  lemma PublicIsKept(path: Path, allow: Allowlist)
    requires |path| > 1 && IsName(path[0]) && WfAllowlist(allow) && IsPublicSurface(Posix(path), allow)
    ensures path[0] in AllowedTopLevel(allow) && path[0] in KeptTopLevel(allow)
  {
    var name, rest := path[0], Posix(path[1..]);
    var rel := Posix(path);
    assert rel == name + ("/" + rest);
    if rel in allow.files {
      HeadOf(name, rest);
      assert Head(rel) == name && rel in allow.files + allow.dirs;
    } else {
      var prefix :| prefix in allow.dirs && IsPrefix(prefix, rel);
      PrefixHead(prefix, name, rest);
      assert Head(prefix) == name && prefix in allow.files + allow.dirs;
    }
  }

  /** The names kept at the root include the first component of every public path. */
  ghost predicate KeepsPublic(keep: set<string>, allow: Allowlist) {
    forall path: Path | |path| > 1 && IsName(path[0]) && IsPublicSurface(Posix(path), allow) :: path[0] in keep
  }

  lemma BothKeepPublic(allow: Allowlist)
    requires WfAllowlist(allow)
    ensures KeepsPublic(AllowedTopLevel(allow), allow) && KeepsPublic(KeptTopLevel(allow), allow)
  {
    hide IsPublicSurface, Posix, AllowedTopLevel, KeptTopLevel;
    forall path: Path | |path| > 1 && IsName(path[0]) && IsPublicSurface(Posix(path), allow)
      ensures path[0] in AllowedTopLevel(allow) && path[0] in KeptTopLevel(allow)
    {
      PublicIsKept(path, allow);
    }
  }

  lemma PrivateSubtree(name: string, t: Tree, keep: set<string>, suffixes: seq<string>, allow: Allowlist)
    requires IsName(name) && name !in keep && KeepsPublic(keep, allow)
    ensures Public(Scanned(WalkTree([] + [name], t), suffixes), allow) == []
  {
    hide WalkTree, IsPublicSurface, Posix;
    forall path | path in WalkTree([] + [name], t) ensures !IsPublicSurface(Posix(path), allow) {
      TreeBelow([] + [name], t, path);
      assert path[0] == path[..1][0] == name;
    }
    NothingPublic(WalkTree([] + [name], t), suffixes, allow);
  }

  lemma {:induction false} RootForestIsPublic(f: Forest, keep: set<string>, suffixes: seq<string>, allow: Allowlist)
    requires WfForest(f) && KeepsPublic(keep, allow)
    ensures Public(PrunedForest([], Prune(f, Some(keep)), suffixes), allow)
         == Public(Scanned(WalkForest([], f), suffixes), allow)
    decreases f
  {
    hide PrunedTree, WalkTree, KeepsPublic, Public, Scanned;
    if f.Nil? {
      EmptyScan(suffixes);
    } else {
      var sub := WalkTree([] + [f.name], f.tree);
      ScannedAppend(sub, WalkForest([], f.rest), suffixes);
      PublicAppend(Scanned(sub, suffixes), Scanned(WalkForest([], f.rest), suffixes), allow);
      RootForestIsPublic(f.rest, keep, suffixes, allow);
      if f.name in EXCLUDED_DIR_NAMES {
        ExcludedSubtree([], f.name, f.tree, suffixes);
        NoPublic(allow);
      } else if f.name !in keep {
        PrivateSubtree(f.name, f.tree, keep, suffixes, allow);
      } else {
        PrunedTreeIsScanned([] + [f.name], f.tree, suffixes);
        PublicAppend(PrunedTree([] + [f.name], f.tree, None, suffixes),
                     PrunedForest([], Prune(f.rest, Some(keep)), suffixes), allow);
      }
    }
  }

  lemma EmptyScan(suffixes: seq<string>)
    ensures Scanned([], suffixes) == []
  {
  }

  lemma NoPublic(allow: Allowlist)
    ensures Public([], allow) == []
  {
  }

  lemma RootIsPublic(t: Tree, keep: set<string>, suffixes: seq<string>, allow: Allowlist)
    requires WfTree(t) && KeepsPublic(keep, allow)
    ensures Public(PrunedTree([], t, Some(keep), suffixes), allow) == Public(Scanned(WalkTree([], t), suffixes), allow)
  {
    hide Public, Scanned, FilePaths, WalkForest, PrunedForest, Prune, KeepsPublic;
    var files := FilePaths([], t.files);
    ScannedAppend(files, WalkForest([], t.dirs), suffixes);
    PublicAppend(Scanned(files, suffixes), Scanned(WalkForest([], t.dirs), suffixes), allow);
    PublicAppend(Scanned(files, suffixes), PrunedForest([], Prune(t.dirs, Some(keep)), suffixes), allow);
    RootForestIsPublic(t.dirs, keep, suffixes, allow);
  }

  // ---------------------------------------------------------------------------
  // The two gates
  // ---------------------------------------------------------------------------

  /** Walk everything, and then keep what is scanned, and in public mode what is public. */
  function NaiveFiles(root: Tree, suffixes: seq<string>, publicOnly: bool, allow: Option<Allowlist>): seq<Path> {
    var scanned := Scanned(WalkTree([], root), suffixes);
    if publicOnly && allow.Some? then Public(scanned, allow.value) else scanned
  }

  const TARGET_SUFFIXES := [".md", ".sol"]
  const MARKDOWN_SUFFIXES := [".md"]

  method IterTargetFiles(root: Tree, publicOnly: bool, allowlist: Option<Allowlist>) returns (r: seq<Path>)
    requires WfTree(root) && (allowlist.Some? ==> WfAllowlist(allowlist.value))
    ensures r == Sort(NaiveFiles(root, TARGET_SUFFIXES, publicOnly, allowlist))
  {
    hide WalkTree, Scanned, Public, PrunedTree, WfTree;
    var allow := if publicOnly then allowlist else None;
    var keep := if allow.Some? then Some(AllowedTopLevel(allow.value)) else None;
    var results := WalkPruned(root, keep, TARGET_SUFFIXES);
    if !publicOnly || allow.None? {
      PrunedTreeIsScanned([], root, TARGET_SUFFIXES);
      return Sort(results);
    }
    BothKeepPublic(allow.value);
    RootIsPublic(root, keep.value, TARGET_SUFFIXES, allow.value);
    var filtered := KeepPublic(results, allow.value);
    r := Sort(filtered);
  }

  method IterMarkdownFiles(root: Tree, publicOnly: bool, allowlist: Option<Allowlist>) returns (r: seq<Path>)
    requires WfTree(root) && (allowlist.Some? ==> WfAllowlist(allowlist.value))
    ensures r == Sort(NaiveFiles(root, MARKDOWN_SUFFIXES, publicOnly, allowlist))
  {
    hide WalkTree, Scanned, Public, PrunedTree, WfTree;
    var keep := if publicOnly && allowlist.Some? then Some(KeptTopLevel(allowlist.value)) else None;
    var results := WalkPruned(root, keep, MARKDOWN_SUFFIXES);
    if !publicOnly || allowlist.None? {
      PrunedTreeIsScanned([], root, MARKDOWN_SUFFIXES);
      return Sort(results);
    }
    BothKeepPublic(allowlist.value);
    RootIsPublic(root, keep.value, MARKDOWN_SUFFIXES, allowlist.value);
    var filtered := KeepPublic(results, allowlist.value);
    r := Sort(filtered);
  }

  // ---------------------------------------------------------------------------
  // What is listed
  // ---------------------------------------------------------------------------

  /** How often a directory, or its subdirectories, list a file at this path: once where names are distinct. */
  function FileCount(t: Tree, path: Path): nat
    decreases t
  {
    if path == [] then 0 else if |path| == 1 then multiset(t.files)[path[0]] else CountBelow(t.dirs, path)
  }

  function CountBelow(f: Forest, path: Path): nat
    requires path != []
    decreases f
  {
    match f
    case Nil => 0
    case Cons(name, t, rest) => (if name == path[0] then FileCount(t, path[1..]) else 0) + CountBelow(rest, path)
  }

  /** The components of a path, each but the last with a slash behind it. */
  function PathText(path: Path): string
    requires path != []
  {
    var n := |path| - 1;
    if n == 0 then path[0] else PathText(path[..n]) + "/" + path[n]
  }

  ghost predicate EndsIn(name: string, suffix: string) { exists stem: string :: name == stem + suffix }

  /** No component is a directory of dependencies, build products or version control. */
  predicate IsOwn(path: Path) {
    forall part | part in path ::
      part !in ["node_modules", ".git", ".next", "dist", "build", "out", "cache", "broadcast", ".open-next", "lib"]
  }

  /** The path is an entry of the allowlist, or below a directory that is one. */
  ghost predicate IsAllowed(path: Path, allow: Allowlist)
    requires path != []
  {
    || PathText(path) in allow.files
    || exists dir: string, rest: string :: dir in allow.dirs && PathText(path) == dir + rest
  }

  lemma {:induction false} FilesCount(at: Path, files: seq<string>, path: Path)
    ensures multiset(FilePaths(at, files))[at + path] == if |path| == 1 then multiset(files)[path[0]] else 0
    decreases |files|
  {
    if files != [] {
      var rest := FilePaths(at, files[1..]);
      FilesCount(at, files[1..], path);
      assert FilePaths(at, files) == [at + [files[0]]] + rest;
      assert files == [files[0]] + files[1..];
      assert (at + path)[|at|..] == path && (at + [files[0]])[|at|..] == [files[0]];
      assert path == [files[0]] <==> |path| == 1 && path[0] == files[0];
    }
  }

  lemma {:induction false} TreeCount(at: Path, t: Tree, path: Path)
    ensures multiset(WalkTree(at, t))[at + path] == FileCount(t, path)
    decreases t, 1
  {
    hide FilePaths, WalkForest;
    FilesCount(at, t.files, path);
    var files, below := FilePaths(at, t.files), WalkForest(at, t.dirs);
    assert multiset(files + below) == multiset(files) + multiset(below);
    if path == [] {
      if at in below {
        ForestBelow(at, t.dirs, at);
      }
      assert at + path == at;
    } else {
      ForestCount(at, t.dirs, path);
      if |path| == 1 {
        NoneBelow(t.dirs, path);
      }
    }
  }

  /** A path of one component is no path below a subdirectory. */
  lemma {:induction false} NoneBelow(f: Forest, path: Path)
    requires |path| == 1
    ensures CountBelow(f, path) == 0
    decreases f
  {
    if f.Cons? {
      NoneBelow(f.rest, path);
      assert path[1..] == [];
    }
  }

  lemma ElsewhereBelow(at: Path, name: string, t: Tree, path: Path)
    requires path != [] && name != path[0]
    ensures at + path !in WalkTree(at + [name], t)
  {
    hide WalkTree;
    var whole := at + path;
    assert whole[|at|] == path[0] && (at + [name])[|at|] == name;
    if whole in WalkTree(at + [name], t) {
      TreeBelow(at + [name], t, whole);
    }
  }

  lemma {:induction false} ForestCount(at: Path, f: Forest, path: Path)
    requires path != []
    ensures multiset(WalkForest(at, f))[at + path] == CountBelow(f, path)
    decreases f, 0
  {
    hide WalkTree;
    if f.Cons? {
      var sub, rest := WalkTree(at + [f.name], f.tree), WalkForest(at, f.rest);
      assert multiset(sub + rest) == multiset(sub) + multiset(rest);
      ForestCount(at, f.rest, path);
      if f.name == path[0] {
        TreeCount(at + [f.name], f.tree, path[1..]);
        assert (at + [f.name]) + path[1..] == at + path;
      } else {
        ElsewhereBelow(at, f.name, f.tree, path);
      }
    }
  }

  lemma {:induction false} ScannedCount(paths: seq<Path>, suffixes: seq<string>, path: Path)
    ensures multiset(Scanned(paths, suffixes))[path] == if IsScanned(path, suffixes) then multiset(paths)[path] else 0
    decreases |paths|
  {
    hide IsScanned;
    if paths != [] {
      ScannedCount(paths[1..], suffixes, path);
      assert paths == [paths[0]] + paths[1..];
    }
  }

  lemma {:induction false} PublicCount(paths: seq<Path>, allow: Allowlist, path: Path)
    ensures multiset(Public(paths, allow))[path]
         == if IsPublicSurface(Posix(path), allow) then multiset(paths)[path] else 0
    decreases |paths|
  {
    hide IsPublicSurface, Posix;
    if paths != [] {
      PublicCount(paths[1..], allow, path);
      assert paths == [paths[0]] + paths[1..];
    }
  }

  lemma {:induction false} PosixIsText(path: Path)
    requires path != []
    ensures Posix(path) == PathText(path)
    decreases |path|
  {
    var n := |path| - 1;
    if n > 0 {
      PosixIsText(path[..n]);
      PosixSnoc(path[..n], path[n]);
      assert path == path[..n] + [path[n]];
    }
  }

  lemma {:induction false} PosixSnoc(path: Path, name: string)
    requires path != []
    ensures Posix(path + [name]) == Posix(path) + "/" + name
    decreases |path|
  {
    assert (path + [name])[1..] == path[1..] + [name];
    if |path| == 1 {
      assert path[1..] + [name] == [name];
    } else {
      PosixSnoc(path[1..], name);
    }
  }

  lemma EndsInExactly(name: string, suffix: string)
    ensures EndsIn(name, suffix) <==> |suffix| <= |name| && name[|name| - |suffix|..] == suffix
  {
    if |suffix| <= |name| && name[|name| - |suffix|..] == suffix {
      assert name == name[..|name| - |suffix|] + suffix;
    }
  }

  lemma AllowedExactly(path: Path, allow: Allowlist)
    requires path != []
    ensures IsPublicSurface(Posix(path), allow) <==> IsAllowed(path, allow)
  {
    hide Posix, PathText;
    PosixIsText(path);
    var rel := PathText(path);
    if prefix :| prefix in allow.dirs && IsPrefix(prefix, rel) {
      AtSlice(rel, 0, prefix);
      assert rel == prefix + rel[|prefix|..];
    }
    if dir: string, rest: string :| dir in allow.dirs && rel == dir + rest {
      AtSplit(rel, 0, dir, rest);
      assert IsPrefix(dir, rel);
    }
  }

  lemma ScannedExactly(path: Path)
    requires path != []
    ensures var name := path[|path| - 1];
      && (IsScanned(path, TARGET_SUFFIXES) <==> (EndsIn(name, ".md") || EndsIn(name, ".sol")) && IsOwn(path))
      && (IsScanned(path, MARKDOWN_SUFFIXES) <==> EndsIn(name, ".md") && IsOwn(path))
  {
    hide EndsIn, EndsWithAny, IsExcluded, IsOwn;
    SuffixesExactly(path[|path| - 1]);
    OwnExactly(path);
  }

  lemma SuffixesExactly(name: string)
    ensures EndsWithAny(name, TARGET_SUFFIXES) <==> EndsIn(name, ".md") || EndsIn(name, ".sol")
    ensures EndsWithAny(name, MARKDOWN_SUFFIXES) <==> EndsIn(name, ".md")
  {
    hide EndsIn;
    EndsInExactly(name, ".md");
    EndsInExactly(name, ".sol");
    EndsWithOne(name, ".md");
    EndsWithTwo(name, ".md", ".sol");
  }

  lemma EndsWithOne(name: string, x: string)
    ensures EndsWithAny(name, [x]) <==> |x| <= |name| && name[|name| - |x|..] == x
  {
    assert [x][0] == x;
  }

  lemma EndsWithTwo(name: string, x: string, y: string)
    ensures EndsWithAny(name, [x, y]) <==>
      (|x| <= |name| && name[|name| - |x|..] == x) || (|y| <= |name| && name[|name| - |y|..] == y)
  {
    assert [x, y][0] == x && [x, y][1] == y;
  }

  lemma OwnExactly(path: Path)
    ensures IsOwn(path) <==> !IsExcluded(path)
  {
  }

  lemma NaiveCount(root: Tree, suffixes: seq<string>, publicOnly: bool, allow: Option<Allowlist>, path: Path)
    requires path != []
    ensures multiset(Sort(NaiveFiles(root, suffixes, publicOnly, allow)))[path] ==
      if IsScanned(path, suffixes) && (publicOnly && allow.Some? ==> IsAllowed(path, allow.value))
      then FileCount(root, path) else 0
  {
    hide WalkTree, Scanned, Public, FileCount, IsScanned, IsAllowed, Sort, Posix, IsPublicSurface;
    SortExact(NaiveFiles(root, suffixes, publicOnly, allow), Sort(NaiveFiles(root, suffixes, publicOnly, allow)));
    TreeCount([], root, path);
    assert [] + path == path;
    ScannedCount(WalkTree([], root), suffixes, path);
    if publicOnly && allow.Some? {
      PublicCount(Scanned(WalkTree([], root), suffixes), allow.value, path);
      AllowedExactly(path, allow.value);
    }
  }

  /**
   The gates list exactly the files of the repository with their suffixes, outside the directories of others,
   and in public mode those that the allowlist names or that lie below a directory it names.
   */
  lemma ListedExactly(root: Tree, publicOnly: bool, allow: Option<Allowlist>, path: Path)
    requires path != []
    ensures var name := path[|path| - 1];
      var wanted := IsOwn(path) && (publicOnly && allow.Some? ==> IsAllowed(path, allow.value));
      && multiset(Sort(NaiveFiles(root, TARGET_SUFFIXES, publicOnly, allow)))[path]
           == (if (EndsIn(name, ".md") || EndsIn(name, ".sol")) && wanted then FileCount(root, path) else 0)
      && multiset(Sort(NaiveFiles(root, MARKDOWN_SUFFIXES, publicOnly, allow)))[path]
           == (if EndsIn(name, ".md") && wanted then FileCount(root, path) else 0)
  {
    hide NaiveFiles, Sort, IsScanned, IsAllowed, IsOwn, EndsIn, FileCount;
    ScannedExactly(path);
    NaiveCount(root, TARGET_SUFFIXES, publicOnly, allow, path);
    NaiveCount(root, MARKDOWN_SUFFIXES, publicOnly, allow, path);
  }
}
