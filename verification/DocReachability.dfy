/**
 Reachability of public documents from the documentation's entry points, by a worklist over an
 arbitrary link graph, and the warnings drawn from it.
 */
module DocReachability {
  import opened Text

  type Doc = string

  /** The documents `d` refers to, in no particular order; they need not be public. */
  type Links = Doc -> set<Doc>

  const VERSION := "v1.0.0"

  // ---------------------------------------------------------------------------
  // What is reachable
  // ---------------------------------------------------------------------------

  /** A nonempty chain of links through public documents. */
  ghost predicate IsPath(path: seq<Doc>, shipped: set<Doc>, links: Links) {
    && path != [] && path[|path| - 1] in shipped
    && (|path| > 1 ==>
          path[|path| - 1] in links(path[|path| - 2]) && IsPath(path[..|path| - 1], shipped, links))
  }

  /** A public document that a chain of links leads to from a seed. */
  ghost predicate IsReachable(d: Doc, seeds: seq<Doc>, shipped: set<Doc>, links: Links) {
    exists path: seq<Doc> :: LeadsTo(path, d, seeds, shipped, links)
  }

  ghost predicate LeadsTo(path: seq<Doc>, d: Doc, seeds: seq<Doc>, shipped: set<Doc>, links: Links) {
    path != [] && path[0] in seeds && path[|path| - 1] == d && IsPath(path, shipped, links)
  }

  /** A set that holds the public seeds, and with a document the public ones it links to. */
  ghost predicate IsClosed(docs: set<Doc>, seeds: seq<Doc>, shipped: set<Doc>, links: Links) {
    && (forall d | d in seeds && d in shipped :: d in docs)
    && (forall d, e | d in docs && e in links(d) && e in shipped :: e in docs)
  }

  lemma SeedIsReachable(d: Doc, seeds: seq<Doc>, shipped: set<Doc>, links: Links)
    requires d in seeds && d in shipped
    ensures IsReachable(d, seeds, shipped, links)
  {
    assert LeadsTo([d], d, seeds, shipped, links);
  }

  lemma LinkIsReachable(d: Doc, e: Doc, seeds: seq<Doc>, shipped: set<Doc>, links: Links)
    requires IsReachable(d, seeds, shipped, links) && e in links(d) && e in shipped
    ensures IsReachable(e, seeds, shipped, links)
  {
    var path: seq<Doc> :| LeadsTo(path, d, seeds, shipped, links);
    var longer := path + [e];
    assert longer[..|longer| - 1] == path;
    assert LeadsTo(longer, e, seeds, shipped, links);
  }

  /** Every closed set holds the end of every path from a seed. */
  lemma {:induction false} ClosedHoldsPath(
      docs: set<Doc>, path: seq<Doc>, seeds: seq<Doc>, shipped: set<Doc>, links: Links)
    requires IsClosed(docs, seeds, shipped, links) && IsPath(path, shipped, links) && path[0] in seeds
    ensures path[|path| - 1] in docs
    decreases |path|
  {
    if |path| > 1 {
      ClosedHoldsPath(docs, path[..|path| - 1], seeds, shipped, links);
    }
  }

  /** The reachable documents are the least closed set. */
  lemma ReachableIsLeast(docs: set<Doc>, seeds: seq<Doc>, shipped: set<Doc>, links: Links)
    requires forall d: Doc :: d in docs <==> IsReachable(d, seeds, shipped, links)
    ensures IsClosed(docs, seeds, shipped, links) && docs <= shipped
    ensures forall other: set<Doc> | IsClosed(other, seeds, shipped, links) :: docs <= other
  {
    hide IsPath;
    forall d | d in seeds && d in shipped ensures d in docs {
      SeedIsReachable(d, seeds, shipped, links);
    }
    forall d, e | d in docs && e in links(d) && e in shipped ensures e in docs {
      LinkIsReachable(d, e, seeds, shipped, links);
    }
    forall d | d in docs ensures d in shipped {
      ReachableIsShipped(d, seeds, shipped, links);
    }
    forall other: set<Doc>, d | IsClosed(other, seeds, shipped, links) && d in docs ensures d in other {
      var path: seq<Doc> :| LeadsTo(path, d, seeds, shipped, links);
      ClosedHoldsPath(other, path, seeds, shipped, links);
    }
  }

  lemma ReachableIsShipped(d: Doc, seeds: seq<Doc>, shipped: set<Doc>, links: Links)
    requires IsReachable(d, seeds, shipped, links)
    ensures d in shipped
  {
  }

  // ---------------------------------------------------------------------------
  // The worklist
  // ---------------------------------------------------------------------------

  ghost predicate Pushed(stack: seq<Doc>, reachable: set<Doc>, d: Doc) { d in reachable || d in stack }

  /** What holds between the turns: `current` is the document whose links are being pushed. */
  ghost predicate WorklistSound(
      stack: seq<Doc>, reachable: set<Doc>, seeds: seq<Doc>, shipped: set<Doc>, links: Links)
  {
    && reachable <= shipped
    && (forall d | d in stack :: d in shipped)
    && (forall d | d in reachable || d in stack :: IsReachable(d, seeds, shipped, links))
    && (forall d | d in seeds && d in shipped :: Pushed(stack, reachable, d))
  }

  /** All public links of the documents in `done` have been pushed. */
  ghost predicate LinksPushed(done: set<Doc>, stack: seq<Doc>, reachable: set<Doc>, shipped: set<Doc>, links: Links) {
    forall d, e | d in done && e in links(d) && e in shipped :: Pushed(stack, reachable, e)
  }

  method SeedStack(seeds: seq<Doc>, shipped: set<Doc>, links: Links) returns (stack: seq<Doc>)
    ensures WorklistSound(stack, {}, seeds, shipped, links)
  {
    hide IsReachable;
    stack := [];
    for i := 0 to |seeds|
      invariant forall d | d in stack :: d in shipped && IsReachable(d, seeds, shipped, links)
      invariant forall k | 0 <= k < i && seeds[k] in shipped :: seeds[k] in stack
    {
      if seeds[i] in shipped {
        SeedIsReachable(seeds[i], seeds, shipped, links);
        stack := stack + [seeds[i]];
      }
    }
  }

  /** Pushes the public links of `d` that have not been reached. */
  method PushLinks(
      d: Doc, before: seq<Doc>, reachable: set<Doc>, ghost seeds: seq<Doc>, shipped: set<Doc>, links: Links)
    returns (stack: seq<Doc>)
    requires WorklistSound(before, reachable, seeds, shipped, links) && d in reachable
    requires LinksPushed(reachable - {d}, before, reachable, shipped, links)
    ensures WorklistSound(stack, reachable, seeds, shipped, links)
    ensures LinksPushed(reachable, stack, reachable, shipped, links)
  {
    hide IsReachable;
    stack := before;
    var refs := links(d);
    while refs != {}
      invariant refs <= links(d)
      invariant WorklistSound(stack, reachable, seeds, shipped, links)
      invariant LinksPushed(reachable - {d}, stack, reachable, shipped, links)
      invariant forall e | e in links(d) - refs && e in shipped :: Pushed(stack, reachable, e)
      decreases refs
    {
      var e :| e in refs;
      refs := refs - {e};
      if e in shipped && e !in reachable {
        LinkIsReachable(d, e, seeds, shipped, links);
        stack := stack + [e];
      }
    }
  }

  lemma PoppedSound(stack: seq<Doc>, reachable: set<Doc>, seeds: seq<Doc>, shipped: set<Doc>, links: Links)
    requires stack != [] && WorklistSound(stack, reachable, seeds, shipped, links)
    requires LinksPushed(reachable, stack, reachable, shipped, links)
    ensures var d, rest := stack[|stack| - 1], stack[..|stack| - 1];
      && d in shipped
      && WorklistSound(rest, reachable + {d}, seeds, shipped, links)
      && LinksPushed(reachable + {d} - {d}, rest, reachable + {d}, shipped, links)
      && (d in reachable ==> WorklistSound(rest, reachable, seeds, shipped, links)
                             && LinksPushed(reachable, rest, reachable, shipped, links))
  {
    hide IsReachable;
    var d, rest := stack[|stack| - 1], stack[..|stack| - 1];
    assert stack == rest + [d];
    assert d in stack;
    forall e | Pushed(stack, reachable, e) ensures Pushed(rest, reachable + {d}, e) {
    }
    if d in reachable {
      assert reachable + {d} == reachable;
    }
  }

  /** `collect_reachable_public_docs`: for every link graph, exactly the reachable documents. */
  method CollectReachablePublicDocs(seeds: seq<Doc>, shipped: set<Doc>, links: Links) returns (reachable: set<Doc>)
    ensures forall d: Doc :: d in reachable <==> IsReachable(d, seeds, shipped, links)
  {
    hide IsReachable, IsPath;
    reachable := {};
    var stack := SeedStack(seeds, shipped, links);
    while stack != []
      invariant WorklistSound(stack, reachable, seeds, shipped, links)
      invariant LinksPushed(reachable, stack, reachable, shipped, links)
      decreases shipped - reachable, |stack|
    {
      PoppedSound(stack, reachable, seeds, shipped, links);
      var rel := stack[|stack| - 1];
      stack := stack[..|stack| - 1];
      if rel in reachable {
        continue;
      }
      reachable := reachable + {rel};
      stack := PushLinks(rel, stack, reachable, seeds, shipped, links);
    }
    DoneIsReachable(reachable, seeds, shipped, links);
  }

  lemma DoneIsReachable(reachable: set<Doc>, seeds: seq<Doc>, shipped: set<Doc>, links: Links)
    requires WorklistSound([], reachable, seeds, shipped, links)
    requires LinksPushed(reachable, [], reachable, shipped, links)
    ensures forall d: Doc :: d in reachable <==> IsReachable(d, seeds, shipped, links)
  {
    hide IsPath;
    assert IsClosed(reachable, seeds, shipped, links);
    forall d: Doc | IsReachable(d, seeds, shipped, links) ensures d in reachable {
      var path: seq<Doc> :| LeadsTo(path, d, seeds, shipped, links);
      ClosedHoldsPath(reachable, path, seeds, shipped, links);
    }
  }

  // ---------------------------------------------------------------------------
  // Orphans
  // ---------------------------------------------------------------------------

  /** The last component of a path. */
  function Basename(path: string): string {
    if path == "" || path[|path| - 1] == '/' then "" else Basename(path[..|path| - 1]) + [path[|path| - 1]]
  }

  predicate IsVersioned(d: Doc) { exists i: nat | i <= |Basename(d)| :: At(Basename(d), i, VERSION) }

  ghost predicate IsOrphan(d: Doc, seeds: seq<Doc>, shipped: set<Doc>, links: Links) {
    IsVersioned(d) && !IsReachable(d, seeds, shipped, links)
  }

  ghost function Orphans(docs: seq<Doc>, seeds: seq<Doc>, shipped: set<Doc>, links: Links): seq<Doc> {
    if docs == [] then []
    else
      (if IsOrphan(docs[0], seeds, shipped, links) then [docs[0]] else [])
      + Orphans(docs[1..], seeds, shipped, links)
  }

  /**
   `check_orphaned_docs`: with an index, a warning for exactly the versioned documents that no chain
   of links leads to, in the order of the sorted list `ordered` of the public documents.
   */
  method CheckOrphanedDocs(indexExists: bool, ordered: seq<Doc>, seeds: seq<Doc>, links: Links)
    returns (warnings: seq<Doc>)
    ensures warnings == if indexExists then Orphans(ordered, seeds, (set d | d in ordered), links) else []
  {
    hide IsReachable, IsVersioned, Orphans;
    if !indexExists {
      return [];
    }
    var shipped := set d | d in ordered;
    var reachable := CollectReachablePublicDocs(seeds, shipped, links);
    warnings := [];
    for i := 0 to |ordered|
      invariant warnings + Orphans(ordered[i..], seeds, shipped, links) == Orphans(ordered, seeds, shipped, links)
    {
      var rel := ordered[i];
      OrphansStep(warnings, ordered, i, seeds, shipped, links);
      if !IsVersioned(rel) {
        continue;
      }
      if rel !in reachable {
        warnings := warnings + [rel];
      }
    }
    assert ordered[|ordered|..] == [];
    NoOrphans(seeds, shipped, links);
  }

  lemma NoOrphans(seeds: seq<Doc>, shipped: set<Doc>, links: Links)
    ensures Orphans([], seeds, shipped, links) == []
  {
  }

  lemma OrphansStep(warnings: seq<Doc>, ordered: seq<Doc>, i: nat, seeds: seq<Doc>, shipped: set<Doc>, links: Links)
    requires i < |ordered|
    ensures warnings + Orphans(ordered[i..], seeds, shipped, links) ==
      (if IsOrphan(ordered[i], seeds, shipped, links) then warnings + [ordered[i]] else warnings)
        + Orphans(ordered[i + 1..], seeds, shipped, links)
  {
    hide IsOrphan;
    assert ordered[i..][1..] == ordered[i + 1..];
  }

  /** The warnings name exactly the versioned public documents without a link path. */
  lemma {:induction false} OrphansExactly(docs: seq<Doc>, seeds: seq<Doc>, shipped: set<Doc>, links: Links, d: Doc)
    ensures d in Orphans(docs, seeds, shipped, links) <==>
      d in docs && IsVersioned(d) && !IsReachable(d, seeds, shipped, links)
    decreases |docs|
  {
    hide IsVersioned, IsReachable;
    if docs != [] {
      OrphansExactly(docs[1..], seeds, shipped, links, d);
      assert docs == [docs[0]] + docs[1..];
    }
  }

  /** They are warned of in the order of the documents, each as often as it is listed. */
  lemma {:induction false} OrphansInOrder(a: seq<Doc>, b: seq<Doc>, seeds: seq<Doc>, shipped: set<Doc>, links: Links)
    ensures Orphans(a + b, seeds, shipped, links)
         == Orphans(a, seeds, shipped, links) + Orphans(b, seeds, shipped, links)
    ensures |a| == 1 ==>
      Orphans(a, seeds, shipped, links)
        == if IsVersioned(a[0]) && !IsReachable(a[0], seeds, shipped, links) then a else []
    decreases |a|
  {
    hide IsVersioned, IsReachable;
    if a == [] {
      assert a + b == b;
    } else {
      assert (a + b)[1..] == a[1..] + b && (|a| == 1 ==> a == [a[0]] && a[1..] == []);
      OrphansInOrder(a[1..], b, seeds, shipped, links);
    }
  }

  /** Versioned is a document whose file name, behind the last slash, holds the release's version. */
  lemma VersionedExactly(dir: string, name: string)
    requires '/' !in name && (dir == "" || dir[|dir| - 1] == '/')
    ensures IsVersioned(dir + name) <==> exists a: string, b: string :: name == a + "v1.0.0" + b
  {
    BasenameExactly(dir, name);
    if i: nat :| i <= |name| && At(name, i, VERSION) {
      AtSlice(name, i, VERSION);
      assert name == name[..i] + "v1.0.0" + name[i + |VERSION|..];
    }
    if a: string, b: string :| name == a + "v1.0.0" + b {
      AtAppend(a, VERSION, b);
      assert At(name, |a|, VERSION);
    }
  }

  lemma {:induction false} BasenameExactly(dir: string, name: string)
    requires '/' !in name && (dir == "" || dir[|dir| - 1] == '/')
    ensures Basename(dir + name) == name
    decreases |name|
  {
    if name != "" {
      var n := |name| - 1;
      assert (dir + name)[..|dir + name| - 1] == dir + name[..n];
      assert name[n] in name && name == name[..n] + [name[n]];
      BasenameExactly(dir, name[..n]);
    } else {
      assert dir + name == dir;
    }
  }
}
