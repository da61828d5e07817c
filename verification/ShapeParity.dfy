/**
 Parity of two deployment manifests: JSON trees are flattened to sets of key paths, and the sets
 compared. The flattening is injective on shapes as long as no key can be mistaken for a path.
 */
module ShapeParity {
  import opened Text

  datatype Scalar = TextValue(s: string) | NumberValue(n: int) | OtherValue

  datatype Json = Obj(fields: Fields) | Arr(items: seq<Json>) | Prim(value: Scalar)

  /** An object's entries in document order. */
  datatype Fields = End | Field(key: string, value: Json, rest: Fields)

  function Size(j: Json): nat
    decreases j
  {
    match j case Obj(f) => 1 + FieldsSize(f) case _ => 1
  }

  function FieldsSize(f: Fields): nat
    decreases f
  {
    match f case End => 0 case Field(_, v, rest) => 1 + Size(v) + FieldsSize(rest)
  }

  function Names(f: Fields): set<string>
    decreases f
  {
    match f case End => {} case Field(k, _, rest) => {k} + Names(rest)
  }

  /** An object's keys are distinct. */
  predicate IsJson(j: Json)
    decreases j
  {
    j.Obj? ==> IsFields(j.fields)
  }

  predicate IsFields(f: Fields)
    decreases f
  {
    f.Field? ==> f.key !in Names(f.rest) && IsJson(f.value) && IsFields(f.rest)
  }

  function Get(f: Fields, k: string): (v: Json)
    requires k in Names(f)
    ensures Size(v) < FieldsSize(f)
    ensures IsFields(f) ==> IsJson(v)
    decreases f
  {
    if f.key == k then f.value else Get(f.rest, k)
  }

  // ---------------------------------------------------------------------------
  // Flattening
  // ---------------------------------------------------------------------------

  function Child(prefix: string, k: string): string {
    if prefix != "" then prefix + ("." + k) else k
  }

  function ListKey(prefix: string): string {
    if prefix != "" then prefix + "[]" else "[]"
  }

  function Keys(j: Json, prefix: string): set<string>
    decreases j
  {
    match j
    case Obj(f) => FieldKeys(f, prefix)
    case Arr(_) => {ListKey(prefix)}
    case Prim(_) => {}
  }

  function FieldKeys(f: Fields, prefix: string): set<string>
    decreases f
  {
    match f
    case End => {}
    case Field(k, v, rest) => {Child(prefix, k)} + Keys(v, Child(prefix, k)) + FieldKeys(rest, prefix)
  }

  /** The set that the flattening adds to. */
  class KeySet {
    var keys: set<string>

    constructor ()
      ensures keys == {}
    {
      keys := {};
    }
  }

  method FlattenKeys(obj: Json, prefix: string, out: KeySet)
    modifies out
    ensures out.keys == old(out.keys) + Keys(obj, prefix)
    decreases Size(obj)
  {
    match obj {
      case Obj(fields) =>
        var rest := fields;
        while rest.Field?
          invariant FieldsSize(rest) <= FieldsSize(fields)
          invariant out.keys + FieldKeys(rest, prefix) == old(out.keys) + FieldKeys(fields, prefix)
          decreases rest
        {
          var p := Child(prefix, rest.key);
          out.keys := out.keys + {p};
          FlattenKeys(rest.value, p, out);
          rest := rest.rest;
        }
      case Arr(_) =>
        out.keys := out.keys + {ListKey(prefix)};
      case Prim(_) =>
    }
  }

  // ---------------------------------------------------------------------------
  // Shapes
  // ---------------------------------------------------------------------------

  predicate IsLeaf(j: Json) { j.Prim? || j == Obj(End) }

  /** The same keys at every level; lists are opaque, and an empty object is as good as a value. */
  ghost predicate SameShape(a: Json, b: Json)
    decreases Size(a)
  {
    || (IsLeaf(a) && IsLeaf(b))
    || (a.Arr? && b.Arr?)
    || (a.Obj? && b.Obj? && Names(a.fields) == Names(b.fields)
        && forall k | k in Names(a.fields) :: SameShape(Get(a.fields, k), Get(b.fields, k)))
  }

  predicate EndsInMark(k: string) { |k| >= 2 && k[|k| - 2] == '[' && k[|k| - 1] == ']' }

  /** A key that cannot be mistaken for a path or a list. */
  predicate IsPlainKey(k: string) { k != "" && '.' !in k && !EndsInMark(k) }

  predicate HasPlainKeys(j: Json)
    decreases j
  {
    j.Obj? ==> HavePlainKeys(j.fields)
  }

  predicate HavePlainKeys(f: Fields)
    decreases f
  {
    f.Field? ==> IsPlainKey(f.key) && HasPlainKeys(f.value) && HavePlainKeys(f.rest)
  }

  predicate IsManifest(j: Json) { IsJson(j) && HasPlainKeys(j) }

  lemma {:induction false} GetIsManifest(f: Fields, k: string)
    requires IsFields(f) && HavePlainKeys(f) && k in Names(f)
    ensures IsManifest(Get(f, k)) && IsPlainKey(k)
    decreases f
  {
    if f.key != k {
      GetIsManifest(f.rest, k);
    }
  }

  // ---------------------------------------------------------------------------
  // Where a flattened key comes from
  // ---------------------------------------------------------------------------

  /** What may follow a key in a flattened path: nothing, a deeper path, or a list mark. */
  predicate IsTail(s: string) { s == "" || s[0] == '.' || s == "[]" }

  /** A flattened path determines the key below the prefix, and what follows it. */
  lemma ChildUnique(prefix: string, k: string, s: string, k': string, s': string)
    requires IsPlainKey(k) && IsPlainKey(k') && IsTail(s) && IsTail(s')
    requires Child(prefix, k) + s == Child(prefix, k') + s'
    ensures k == k' && s == s'
  {
    hide IsPlainKey, IsTail, Child;
    var lead := if prefix != "" then prefix + "." else "";
    ChildText(prefix, k, s);
    ChildText(prefix, k', s');
    SameSuffix(lead, k + s, k' + s');
    StemUnique(k, s, k', s');
  }

  lemma ChildText(prefix: string, k: string, s: string)
    ensures Child(prefix, k) + s == (if prefix != "" then prefix + "." else "") + (k + s)
  {
    if prefix != "" {
      assert (prefix + ("." + k)) + s == (prefix + ".") + (k + s);
    }
  }

  lemma SameSuffix(lead: string, t: string, t': string)
    requires lead + t == lead + t'
    ensures t == t'
  {
    assert (lead + t)[|lead|..] == t && (lead + t')[|lead|..] == t';
  }

  lemma StemUnique(k: string, s: string, k': string, s': string)
    requires IsPlainKey(k) && IsPlainKey(k') && IsTail(s) && IsTail(s') && k + s == k' + s'
    ensures k == k' && s == s'
  {
    StemNotShorter(k, s, k', s');
    StemNotShorter(k', s', k, s);
    assert k == (k + s)[..|k|] && s == (k + s)[|k|..];
    assert k' == (k' + s')[..|k'|] && s' == (k' + s')[|k'|..];
  }

  /** The first dot, or else a list mark at the end, shows where a key ends. */
  lemma StemNotShorter(k: string, s: string, k': string, s': string)
    requires IsPlainKey(k) && IsPlainKey(k') && IsTail(s) && IsTail(s') && k + s == k' + s'
    ensures |k| >= |k'|
  {
    var t := k + s;
    assert forall i | 0 <= i < |k'| :: t[i] == k'[i];
    assert s != "" ==> t[|k|] == s[0];
    assert s == "[]" ==> t[|k| + 1] == ']';
    assert s' != "" ==> t[|k'|] == s'[0];
  }

  /** Keys below a nonempty prefix are the prefix with a nonempty tail. */
  lemma {:induction false} KeysBelow(j: Json, prefix: string, x: string) returns (s: string)
    requires prefix != "" && x in Keys(j, prefix)
    ensures x == prefix + s && s != "" && IsTail(s)
    ensures j.Obj? ==> s[0] == '.'
    ensures j.Arr? ==> s == "[]"
    decreases j
  {
    if j.Arr? {
      s := "[]";
    } else {
      s := FieldKeysBelow(j.fields, prefix, x);
    }
  }

  lemma {:induction false} FieldKeysBelow(f: Fields, prefix: string, x: string) returns (s: string)
    requires prefix != "" && x in FieldKeys(f, prefix)
    ensures x == prefix + s && s != "" && s[0] == '.'
    decreases f
  {
    var p := Child(prefix, f.key);
    if x == p {
      s := "." + f.key;
    } else if x in Keys(f.value, p) {
      var t := KeysBelow(f.value, p, x);
      s := "." + (f.key + t);
      assert prefix + ("." + f.key) + t == prefix + s;
    } else {
      s := FieldKeysBelow(f.rest, prefix, x);
    }
  }

  /** The key is the path of field `k`, or a key of that field's value. */
  predicate ComesFrom(f: Fields, prefix: string, k: string, x: string)
    requires k in Names(f)
  {
    x == Child(prefix, k) || x in Keys(Get(f, k), Child(prefix, k))
  }

  lemma {:induction false} FieldKeysFrom(f: Fields, prefix: string, x: string) returns (k: string)
    requires IsFields(f) && x in FieldKeys(f, prefix)
    ensures k in Names(f) && ComesFrom(f, prefix, k, x)
    decreases f
  {
    var p := Child(prefix, f.key);
    if x == p || x in Keys(f.value, p) {
      k := f.key;
    } else {
      k := FieldKeysFrom(f.rest, prefix, x);
    }
  }

  lemma {:induction false} FieldKeysInto(f: Fields, prefix: string, k: string, x: string)
    requires IsFields(f) && k in Names(f) && ComesFrom(f, prefix, k, x)
    ensures x in FieldKeys(f, prefix)
    decreases f
  {
    if f.key != k {
      FieldKeysInto(f.rest, prefix, k, x);
    }
  }

  /** A key that comes from a field is that field's path with a tail, empty for the path itself. */
  lemma FromTail(f: Fields, prefix: string, k: string, x: string) returns (s: string)
    requires k in Names(f) && IsPlainKey(k) && ComesFrom(f, prefix, k, x)
    ensures x == Child(prefix, k) + s && IsTail(s)
    ensures s == "" || x in Keys(Get(f, k), Child(prefix, k))
    ensures s == "" ==> x !in Keys(Get(f, k), Child(prefix, k))
  {
    var p := Child(prefix, k);
    if x in Keys(Get(f, k), p) {
      s := KeysBelow(Get(f, k), p, x);
    } else {
      s := "";
      assert p + s == p;
    }
  }

  /** Two objects' equal keys come from equally named fields, and from the same place there. */
  lemma SameOrigin(f: Fields, g: Fields, prefix: string, k: string, x: string)
    requires IsManifest(Obj(f)) && IsManifest(Obj(g))
    requires k in Names(f) && ComesFrom(f, prefix, k, x) && x in FieldKeys(g, prefix)
    ensures k in Names(g)
    ensures x in Keys(Get(f, k), Child(prefix, k)) <==> x in Keys(Get(g, k), Child(prefix, k))
  {
    GetIsManifest(f, k);
    var k' := FieldKeysFrom(g, prefix, x);
    GetIsManifest(g, k');
    var s := FromTail(f, prefix, k, x);
    var s' := FromTail(g, prefix, k', x);
    ChildUnique(prefix, k, s, k', s');
  }

  // ---------------------------------------------------------------------------
  // Flattening is injective on shapes
  // ---------------------------------------------------------------------------

  lemma {:induction false} NamesKeyed(f: Fields, prefix: string, k: string)
    requires IsFields(f) && k in Names(f)
    ensures Child(prefix, k) in FieldKeys(f, prefix)
  {
    FieldKeysInto(f, prefix, k, Child(prefix, k));
  }

  lemma SameNames(f: Fields, g: Fields, prefix: string)
    requires IsManifest(Obj(f)) && IsManifest(Obj(g)) && FieldKeys(f, prefix) == FieldKeys(g, prefix)
    ensures Names(f) == Names(g)
  {
    hide FieldKeys;
    forall k | k in Names(f) ensures k in Names(g) {
      NamesKeyed(f, prefix, k);
      SameOrigin(f, g, prefix, k, Child(prefix, k));
    }
    forall k | k in Names(g) ensures k in Names(f) {
      NamesKeyed(g, prefix, k);
      SameOrigin(g, f, prefix, k, Child(prefix, k));
    }
  }

  lemma SameChildKeys(f: Fields, g: Fields, prefix: string, k: string)
    requires IsManifest(Obj(f)) && IsManifest(Obj(g)) && FieldKeys(f, prefix) == FieldKeys(g, prefix)
    requires k in Names(f) && k in Names(g)
    ensures Keys(Get(f, k), Child(prefix, k)) == Keys(Get(g, k), Child(prefix, k))
  {
    hide FieldKeys, Keys;
    forall x | x in Keys(Get(f, k), Child(prefix, k)) ensures x in Keys(Get(g, k), Child(prefix, k)) {
      FieldKeysInto(f, prefix, k, x);
      SameOrigin(f, g, prefix, k, x);
    }
    forall x | x in Keys(Get(g, k), Child(prefix, k)) ensures x in Keys(Get(f, k), Child(prefix, k)) {
      FieldKeysInto(g, prefix, k, x);
      SameOrigin(g, f, prefix, k, x);
    }
  }

  /** A list's key is no key of an object. */
  lemma ListIsNoObject(f: Fields, prefix: string)
    requires IsManifest(Obj(f))
    ensures ListKey(prefix) !in FieldKeys(f, prefix)
  {
    if ListKey(prefix) in FieldKeys(f, prefix) {
      var k := FieldKeysFrom(f, prefix, ListKey(prefix));
      GetIsManifest(f, k);
      var s := FromTail(f, prefix, k, ListKey(prefix));
      ListIsNoChild(prefix, k, s);
    }
  }

  lemma ListIsNoChild(prefix: string, k: string, s: string)
    requires IsPlainKey(k) && IsTail(s)
    ensures Child(prefix, k) + s != ListKey(prefix)
  {
    assert ListKey(prefix)[|prefix|] == '[' && |ListKey(prefix)| == |prefix| + 2;
    if prefix != "" {
      assert (Child(prefix, k) + s)[|prefix|] == '.';
    } else if s == "" {
      assert k + s == k;
    } else {
      assert (k + s)[|k|] == s[0];
    }
  }

  lemma {:induction false} FromShape(a: Json, b: Json, prefix: string)
    requires IsManifest(a) && IsManifest(b) && SameShape(a, b)
    ensures Keys(a, prefix) == Keys(b, prefix)
    decreases Size(a)
  {
    if a.Obj? && b.Obj? {
      var f, g := a.fields, b.fields;
      forall k | k in Names(f) && k in Names(g)
        ensures Keys(Get(f, k), Child(prefix, k)) == Keys(Get(g, k), Child(prefix, k))
      {
        GetIsManifest(f, k);
        GetIsManifest(g, k);
        FromShape(Get(f, k), Get(g, k), Child(prefix, k));
      }
      ShapeInto(f, g, prefix);
      ShapeInto(g, f, prefix);
    }
  }

  lemma ShapeInto(f: Fields, g: Fields, prefix: string)
    requires IsFields(f) && IsFields(g) && Names(f) == Names(g)
    requires forall k | k in Names(f) && k in Names(g) ::
      Keys(Get(f, k), Child(prefix, k)) == Keys(Get(g, k), Child(prefix, k))
    ensures FieldKeys(f, prefix) <= FieldKeys(g, prefix)
  {
    hide FieldKeys, Keys;
    forall x | x in FieldKeys(f, prefix) ensures x in FieldKeys(g, prefix) {
      var k := FieldKeysFrom(f, prefix, x);
      FieldKeysInto(g, prefix, k, x);
    }
  }

  lemma {:induction false} ToShape(a: Json, b: Json, prefix: string)
    requires IsManifest(a) && IsManifest(b) && Keys(a, prefix) == Keys(b, prefix)
    ensures SameShape(a, b)
    decreases Size(a)
  {
    if a.Obj? && b.Obj? {
      var f, g := a.fields, b.fields;
      SameNames(f, g, prefix);
      forall k | k in Names(f) ensures SameShape(Get(f, k), Get(g, k)) {
        GetIsManifest(f, k);
        GetIsManifest(g, k);
        SameChildKeys(f, g, prefix, k);
        ToShape(Get(f, k), Get(g, k), Child(prefix, k));
      }
    } else if a.Obj? {
      ListIsNoObject(a.fields, prefix);
    } else if b.Obj? {
      ListIsNoObject(b.fields, prefix);
    }
  }

  /** Two manifests flatten to the same keys exactly when they have the same shape. */
  lemma FlatteningIsInjective(a: Json, b: Json)
    requires IsManifest(a) && IsManifest(b)
    ensures Keys(a, "") == Keys(b, "") <==> SameShape(a, b)
  {
    if Keys(a, "") == Keys(b, "") {
      ToShape(a, b, "");
    } else if SameShape(a, b) {
      FromShape(a, b, "");
    }
  }

  /** A key and its dotted continuation are a key and a key below it. */
  lemma DotsCollide(p: string, q: string, v: Json)
    requires v.Prim? && p != ""
    ensures var deep := Obj(Field(p, Obj(Field(q, v, End)), End));
      var dotted := Obj(Field(p, v, Field(p + ("." + q), v, End)));
      IsJson(deep) && IsJson(dotted) && Keys(deep, "") == Keys(dotted, "") && !SameShape(deep, dotted)
  {
    hide Keys;
    assert |p + ("." + q)| > |p|;
    OneField(p, Obj(Field(q, v, End)), "");
    OneField(q, v, p);
    TwoFields(p, v, p + ("." + q), v, "");
    NoKeys(v);
    assert p + ("." + q) !in {p};
  }

  /** A key with a list mark is the mark of a list. */
  lemma MarksCollide(p: string, v: Json)
    requires v.Prim? && p != ""
    ensures var list := Obj(Field(p, Arr([]), End));
      var marked := Obj(Field(p, v, Field(p + "[]", v, End)));
      IsJson(list) && IsJson(marked) && Keys(list, "") == Keys(marked, "") && !SameShape(list, marked)
  {
    hide Keys;
    assert |p + "[]"| > |p|;
    OneField(p, Arr([]), "");
    ListKeys(p);
    TwoFields(p, v, p + "[]", v, "");
    NoKeys(v);
    assert p + "[]" !in {p};
  }

  /** What lies below an empty key lies beside it. */
  lemma EmptyKeysCollide(p: string, v: Json)
    requires v.Prim? && p != ""
    ensures var nested := Obj(Field("", Obj(Field(p, v, End)), End));
      var flat := Obj(Field("", v, Field(p, v, End)));
      IsJson(nested) && IsJson(flat) && Keys(nested, "") == Keys(flat, "") && !SameShape(nested, flat)
  {
    hide Keys;
    OneField("", Obj(Field(p, v, End)), "");
    OneField(p, v, "");
    TwoFields("", v, p, v, "");
    NoKeys(v);
    assert p !in {""};
  }

  lemma NoKeys(v: Json)
    requires v.Prim?
    ensures forall prefix: string :: Keys(v, prefix) == {}
  {
  }

  lemma ListKeys(p: string)
    requires p != ""
    ensures Keys(Arr([]), p) == {p + "[]"}
  {
  }

  lemma OneField(k: string, v: Json, prefix: string)
    ensures Keys(Obj(Field(k, v, End)), prefix) == {Child(prefix, k)} + Keys(v, Child(prefix, k))
    ensures Names(Field(k, v, End)) == {k} && (IsJson(Obj(Field(k, v, End))) <==> IsJson(v))
  {
    assert FieldKeys(End, prefix) == {} && Names(End) == {} && IsFields(End);
    assert FieldKeys(Field(k, v, End), prefix) == {Child(prefix, k)} + Keys(v, Child(prefix, k)) + {};
  }

  lemma TwoFields(k: string, v: Json, l: string, w: Json, prefix: string)
    ensures Keys(Obj(Field(k, v, Field(l, w, End))), prefix)
         == {Child(prefix, k), Child(prefix, l)} + Keys(v, Child(prefix, k)) + Keys(w, Child(prefix, l))
    ensures Names(Field(k, v, Field(l, w, End))) == {k, l}
    ensures IsJson(Obj(Field(k, v, Field(l, w, End)))) <==> k != l && IsJson(v) && IsJson(w)
  {
    OneField(l, w, prefix);
  }

  // ---------------------------------------------------------------------------
  // Dropping known supplements
  // ---------------------------------------------------------------------------

  predicate IsDropped(key: string, prefixes: seq<string>) {
    exists i | 0 <= i < |prefixes| :: key == prefixes[i] || At(key, 0, prefixes[i] + ".")
  }

  function Drop(keys: set<string>, prefixes: seq<string>): set<string> {
    set key | key in keys && !IsDropped(key, prefixes)
  }

  method DropPrefixes(keys: set<string>, prefixes: seq<string>) returns (out: set<string>)
    ensures out == Drop(keys, prefixes)
  {
    out := {};
    var todo := keys;
    while todo != {}
      invariant todo <= keys && out == Drop(keys - todo, prefixes)
      decreases todo
    {
      var key :| key in todo;
      todo := todo - {key};
      if IsDropped(key, prefixes) {
        continue;
      }
      out := out + {key};
    }
    assert keys - todo == keys;
  }

  /** The text of a path of keys below a prefix. */
  function PathText(prefix: string, path: seq<string>): string
    decreases |path|
  {
    if path == [] then prefix else PathText(Child(prefix, path[0]), path[1..])
  }

  predicate IsPlainPath(path: seq<string>) { path != [] && forall k | k in path :: IsPlainKey(k) }

  /** The tree without the subtree at a path. */
  function Remove(j: Json, path: seq<string>): Json
    requires path != []
    decreases j, |path|, 1
  {
    if j.Obj? then Obj(RemoveField(j.fields, path)) else j
  }

  function RemoveField(f: Fields, path: seq<string>): Fields
    requires path != []
    decreases f, |path|, 0
  {
    match f
    case End => End
    case Field(k, v, rest) =>
      if k != path[0] then Field(k, v, RemoveField(rest, path))
      else if |path| == 1 then rest
      else Field(k, Remove(v, path[1..]), rest)
  }

  /** The subtree at a path, if there is one. */
  function SubtreeAt(j: Json, path: seq<string>): Option<Json>
    decreases |path|
  {
    if path == [] then Some(j)
    else if !j.Obj? || path[0] !in Names(j.fields) then None
    else SubtreeAt(Get(j.fields, path[0]), path[1..])
  }

  predicate IsUnder(key: string, path: string) { key == path || At(key, 0, path + ".") }

  lemma UnderTail(key: string, path: string) returns (s: string)
    requires IsUnder(key, path)
    ensures key == path + s && (s == "" || s[0] == '.')
  {
    if key == path {
      s := "";
    } else {
      s := key[|path|..];
      AtSlice(key, 0, path + ".");
      assert key[..|path|] == (path + ".")[..|path|] == path;
      AtChar(key, 0, path + ".", |path|);
    }
  }

  lemma TailIsUnder(path: string, s: string)
    requires s == "" || s[0] == '.'
    ensures IsUnder(path + s, path)
  {
    if s == "" {
      assert path + s == path;
    } else {
      assert forall i | 0 <= i < |path + "."| :: (path + s)[i] == (path + ".")[i];
    }
  }

  lemma PlainStep(prefix: string, path: seq<string>)
    requires IsPlainPath(path)
    ensures IsPlainKey(path[0]) && Child(prefix, path[0]) != ""
    ensures forall k | k in path[1..] :: IsPlainKey(k)
  {
    assert path[0] in path;
  }

  lemma {:induction false} PathTail(prefix: string, path: seq<string>) returns (s: string)
    requires prefix != "" && forall k | k in path :: IsPlainKey(k)
    ensures PathText(prefix, path) == prefix + s && (s == "" || s[0] == '.')
    ensures s == "" <==> path == []
    decreases |path|
  {
    if path == [] {
      s := "";
      assert prefix + s == prefix;
    } else {
      var t := PathTail(Child(prefix, path[0]), path[1..]);
      s := "." + (path[0] + t);
      assert Child(prefix, path[0]) + t == prefix + s;
    }
  }

  /** The keys of a tree that lie neither at nor below a path, nor are the mark of a list there. */
  function Outside(j: Json, prefix: string, path: seq<string>): set<string> {
    var target := PathText(prefix, path);
    set x | x in Keys(j, prefix) && !IsUnder(x, target) && !(HasList(j, path) && x == target + "[]")
  }

  predicate HasList(j: Json, path: seq<string>) { SubtreeAt(j, path).Some? && SubtreeAt(j, path).value.Arr? }

  lemma {:induction false} RemoveFieldGet(f: Fields, path: seq<string>, k: string)
    requires IsFields(f) && IsPlainPath(path)
    ensures var g := RemoveField(f, path);
      && (k in Names(g) <==> k in Names(f) && !(|path| == 1 && k == path[0]))
      && (k in Names(g) ==> Get(g, k) == if k == path[0] then Remove(Get(f, k), path[1..]) else Get(f, k))
    decreases f
  {
    if f.Field? && f.key != path[0] {
      RemoveFieldGet(f.rest, path, k);
    }
  }

  /** What does not come from the first field of a path does not continue the path. */
  lemma OtherFieldElsewhere(f: Fields, prefix: string, path: seq<string>, k: string, x: string, u: string)
    requires IsManifest(Obj(f)) && IsPlainPath(path) && IsTail(u)
    requires k in Names(f) && k != path[0] && ComesFrom(f, prefix, k, x)
    ensures x != PathText(prefix, path) + u
  {
    hide ComesFrom, Child, HavePlainKeys, IsFields, IsPlainKey;
    GetIsManifest(f, k);
    PlainStep(prefix, path);
    var q := Child(prefix, path[0]);
    var t := PathTail(q, path[1..]);
    var s := FromTail(f, prefix, k, x);
    assert (q + t) + u == q + (t + u);
    TailTail(t, u);
    if Child(prefix, k) + s == q + (t + u) {
      ChildUnique(prefix, k, s, path[0], t + u);
    }
  }

  lemma TailTail(t: string, u: string)
    requires (t == "" || t[0] == '.') && IsTail(u)
    ensures IsTail(t + u)
  {
    if t == "" {
      assert t + u == u;
    }
  }

  lemma OtherFieldIsOutside(f: Fields, prefix: string, path: seq<string>, k: string, x: string)
    requires IsManifest(Obj(f)) && IsPlainPath(path)
    requires k in Names(f) && k != path[0] && ComesFrom(f, prefix, k, x)
    ensures var target := PathText(prefix, path); !IsUnder(x, target) && x != target + "[]"
  {
    hide IsUnder, ComesFrom, HavePlainKeys, IsFields;
    if IsUnder(x, PathText(prefix, path)) {
      var u := UnderTail(x, PathText(prefix, path));
      OtherFieldElsewhere(f, prefix, path, k, x, u);
    }
    OtherFieldElsewhere(f, prefix, path, k, x, "[]");
  }

  /** The first field of a longer path lies outside it. */
  lemma StepIsOutside(prefix: string, path: seq<string>)
    requires IsPlainPath(path) && |path| > 1
    ensures var target := PathText(prefix, path);
      !IsUnder(Child(prefix, path[0]), target) && Child(prefix, path[0]) != target + "[]"
  {
    PlainStep(prefix, path);
    var t := PathTail(Child(prefix, path[0]), path[1..]);
  }

  lemma {:induction false} RemovedKeys(j: Json, prefix: string, path: seq<string>)
    requires IsManifest(j) && IsPlainPath(path)
    ensures IsJson(Remove(j, path))
    ensures Keys(Remove(j, path), prefix) == Outside(j, prefix, path)
    decreases |path|
  {
    hide IsUnder;
    if j.Obj? {
      RemoveIsFields(j.fields, path);
      forall x | x in Keys(Remove(j, path), prefix) ensures x in Outside(j, prefix, path) {
        RemovedIsOutside(j.fields, prefix, path, x);
      }
      forall x | x in Outside(j, prefix, path) ensures x in Keys(Remove(j, path), prefix) {
        OutsideIsRemoved(j.fields, prefix, path, x);
      }
    } else if j.Arr? {
      ListIsOutside(prefix, path);
    }
  }

  lemma ListIsOutside(prefix: string, path: seq<string>)
    requires IsPlainPath(path)
    ensures !IsUnder(ListKey(prefix), PathText(prefix, path))
  {
    var q := Child(prefix, path[0]);
    PlainStep(prefix, path);
    var t := PathTail(q, path[1..]);
    if IsUnder(ListKey(prefix), PathText(prefix, path)) {
      var u := UnderTail(ListKey(prefix), PathText(prefix, path));
      assert (q + t) + u == q + (t + u);
      ListIsNoChild(prefix, path[0], t + u);
    }
  }

  lemma {:induction false} RemoveIsFields(f: Fields, path: seq<string>)
    requires IsFields(f) && HavePlainKeys(f) && IsPlainPath(path)
    ensures IsFields(RemoveField(f, path)) && HavePlainKeys(RemoveField(f, path))
    decreases f, |path|
  {
    if f.Field? {
      if f.key != path[0] {
        RemoveIsFields(f.rest, path);
        RemoveFieldGet(f.rest, path, f.key);
      } else if |path| > 1 && f.value.Obj? {
        RemoveIsFields(f.value.fields, path[1..]);
      }
    }
  }

  lemma {:induction false} RemovedIsOutside(f: Fields, prefix: string, path: seq<string>, x: string)
    requires IsManifest(Obj(f)) && IsPlainPath(path)
    requires x in FieldKeys(RemoveField(f, path), prefix)
    ensures x in Outside(Obj(f), prefix, path)
    decreases |path|, 0
  {
    hide IsUnder, FieldKeys, HavePlainKeys, RemoveField, PathText;
    RemoveIsFields(f, path);
    var k := FieldKeysFrom(RemoveField(f, path), prefix, x);
    RemoveFieldGet(f, path, k);
    GetIsManifest(f, k);
    if k != path[0] {
      OtherFieldIsOutside(f, prefix, path, k, x);
      FieldKeysInto(f, prefix, k, x);
    } else {
      StepIsOutside(prefix, path);
      PathTextStep(prefix, path);
      if x != Child(prefix, k) {
        RemovedKeys(Get(f, k), Child(prefix, k), path[1..]);
      }
      FieldKeysInto(f, prefix, k, x);
    }
  }

  lemma PathTextStep(prefix: string, path: seq<string>)
    requires path != []
    ensures PathText(prefix, path) == PathText(Child(prefix, path[0]), path[1..])
  {
  }

  lemma {:induction false} OutsideIsRemoved(f: Fields, prefix: string, path: seq<string>, x: string)
    requires IsManifest(Obj(f)) && IsPlainPath(path)
    requires x in Outside(Obj(f), prefix, path)
    ensures x in FieldKeys(RemoveField(f, path), prefix)
    decreases |path|, 0
  {
    hide IsUnder, FieldKeys, HavePlainKeys, RemoveField, PathText;
    RemoveIsFields(f, path);
    assert x in FieldKeys(f, prefix);
    var k := FieldKeysFrom(f, prefix, x);
    RemoveFieldGet(f, path, k);
    GetIsManifest(f, k);
    PathTextStep(prefix, path);
    if k == path[0] {
      if |path| == 1 {
        LastStepIsUnder(f, prefix, path, x);
      } else if x != Child(prefix, k) {
        RemovedKeys(Get(f, k), Child(prefix, k), path[1..]);
        assert x in Outside(Get(f, k), Child(prefix, k), path[1..]);
      }
    }
    if k != path[0] || |path| > 1 {
      FieldKeysInto(RemoveField(f, path), prefix, k, x);
    }
  }

  /** All that comes from the last field of a path lies at or below it, but for the mark of a list. */
  lemma LastStepIsUnder(f: Fields, prefix: string, path: seq<string>, x: string)
    requires |path| == 1 && path[0] in Names(f) && IsPlainKey(path[0]) && ComesFrom(f, prefix, path[0], x)
    ensures IsUnder(x, PathText(prefix, path)) || (HasList(Obj(f), path) && x == PathText(prefix, path) + "[]")
  {
    var q := Child(prefix, path[0]);
    assert path[1..] == [] && PathText(prefix, path) == q;
    assert SubtreeAt(Obj(f), path) == Some(Get(f, path[0]));
    TailIsUnder(q, "");
    assert q + "" == q;
    if x != q {
      var s := KeysBelow(Get(f, path[0]), q, x);
      if Get(f, path[0]).Obj? {
        TailIsUnder(q, s);
      }
    }
  }

  lemma DropOne(keys: set<string>, path: string)
    ensures Drop(keys, [path]) == set x | x in keys && !IsUnder(x, path)
  {
    forall key ensures IsDropped(key, [path]) <==> IsUnder(key, path) {
      if IsUnder(key, path) {
        assert [path][0] == path;
      }
    }
  }

  /**
   Dropping a path from the flattened keys is flattening the tree without the subtree there, exactly
   when that subtree is no list: the mark of a list is never dropped.
   */
  lemma DropIsRemove(j: Json, path: seq<string>)
    requires IsManifest(j) && IsPlainPath(path)
    ensures Drop(Keys(j, ""), [PathText("", path)]) == Keys(Remove(j, path), "") <==> !HasList(j, path)
  {
    hide IsUnder, Keys, Remove, PathText;
    RemovedKeys(j, "", path);
    var target := PathText("", path);
    DropOne(Keys(j, ""), target);
    if HasList(j, path) {
      ListMarkStays(j, "", path);
      assert target + "[]" in Drop(Keys(j, ""), [target]) && target + "[]" !in Outside(j, "", path);
    } else {
      assert Drop(Keys(j, ""), [target]) == Outside(j, "", path);
    }
  }

  lemma {:induction false} ListMarkStays(j: Json, prefix: string, path: seq<string>)
    requires IsManifest(j) && IsPlainPath(path) && HasList(j, path)
    ensures var mark := PathText(prefix, path) + "[]";
      mark in Keys(j, prefix) && !IsUnder(mark, PathText(prefix, path))
    decreases |path|
  {
    hide IsUnder, FieldKeys;
    var f, k := j.fields, path[0];
    var q := Child(prefix, k);
    var mark := PathText(prefix, path) + "[]";
    GetIsManifest(f, k);
    PlainStep(prefix, path);
    MarkIsNotUnder(PathText(prefix, path));
    if |path| == 1 {
      assert path[1..] == [] && PathText(prefix, path) == q;
      assert mark == ListKey(q) && SubtreeAt(j, path) == Some(Get(f, k));
    } else {
      ListMarkStays(Get(f, k), q, path[1..]);
    }
    FieldKeysInto(f, prefix, k, mark);
  }

  lemma MarkIsNotUnder(path: string)
    ensures !IsUnder(path + "[]", path)
  {
    assert (path + "[]")[|path|] == '[' && (path + ".")[|path|] == '.';
  }

  // ---------------------------------------------------------------------------
  // Dropping several paths
  // ---------------------------------------------------------------------------

  lemma RemoveIsManifest(j: Json, path: seq<string>)
    requires IsManifest(j) && IsPlainPath(path)
    ensures IsManifest(Remove(j, path))
  {
    if j.Obj? {
      RemoveIsFields(j.fields, path);
    }
  }

  /** Plain paths of which no two begin with the same key. */
  predicate AreApart(paths: seq<seq<string>>)
    decreases |paths|
  {
    paths != [] ==>
      && IsPlainPath(paths[0]) && AreApart(paths[1..])
      && forall q | q in paths[1..] :: q != [] && q[0] != paths[0][0]
  }

  function Texts(paths: seq<seq<string>>): (texts: seq<string>)
    ensures |texts| == |paths|
    decreases |paths|
  {
    if paths == [] then [] else [PathText("", paths[0])] + Texts(paths[1..])
  }

  function RemoveAll(j: Json, paths: seq<seq<string>>): Json
    requires AreApart(paths)
    decreases |paths|
  {
    if paths == [] then j else RemoveAll(Remove(j, paths[0]), paths[1..])
  }

  function Mark(path: seq<string>): string { PathText("", path) + "[]" }

  lemma {:induction false} PlainIfApart(paths: seq<seq<string>>, p: seq<string>)
    requires AreApart(paths) && p in paths
    ensures IsPlainPath(p)
    decreases |paths|
  {
    if p != paths[0] {
      PlainIfApart(paths[1..], p);
    }
  }

  /** The text of a path with a mark behind it is a key exactly of the trees with a list there. */
  lemma {:induction false} MarkMeansList(j: Json, prefix: string, path: seq<string>)
    requires IsManifest(j) && IsPlainPath(path)
    ensures PathText(prefix, path) + "[]" in Keys(j, prefix) <==> HasList(j, path)
    decreases |path|
  {
    hide IsUnder, FieldKeys, HavePlainKeys;
    var mark := PathText(prefix, path) + "[]";
    if HasList(j, path) {
      ListMarkStays(j, prefix, path);
    } else if mark in Keys(j, prefix) {
      if j.Arr? {
        MarkIsNoList(prefix, path);
      } else {
        MarkFromPath(j.fields, prefix, path);
      }
      assert false;
    }
  }

  lemma MarkIsNoList(prefix: string, path: seq<string>)
    requires IsPlainPath(path)
    ensures PathText(prefix, path) + "[]" != ListKey(prefix)
  {
    var q := Child(prefix, path[0]);
    PlainStep(prefix, path);
    var t := PathTail(q, path[1..]);
    assert (q + t) + "[]" == q + (t + "[]");
    TailTail(t, "[]");
    ListIsNoChild(prefix, path[0], t + "[]");
  }

  lemma {:induction false} MarkFromPath(f: Fields, prefix: string, path: seq<string>)
    requires IsManifest(Obj(f)) && IsPlainPath(path)
    requires PathText(prefix, path) + "[]" in FieldKeys(f, prefix)
    ensures HasList(Obj(f), path)
    decreases |path|, 0
  {
    hide IsUnder, FieldKeys, HavePlainKeys, IsPlainKey;
    var mark := PathText(prefix, path) + "[]";
    var k := FieldKeysFrom(f, prefix, mark);
    GetIsManifest(f, k);
    if k != path[0] {
      OtherFieldElsewhere(f, prefix, path, k, mark, "[]");
    }
    var q := Child(prefix, k);
    PlainStep(prefix, path);
    var t := PathTail(q, path[1..]);
    assert mark == q + (t + "[]");
    assert mark != q;
    var s := KeysBelow(Get(f, k), q, mark);
    assert s == mark[|q|..] == t + "[]";
    if |path| > 1 {
      MarkMeansList(Get(f, k), q, path[1..]);
    } else {
      assert path[1..] == [] && SubtreeAt(Obj(f), path) == Some(Get(f, k));
      assert s == "[]";
    }
  }

  /** A mark is dropped neither with its own path nor with one that begins otherwise. */
  lemma {:induction false} MarkIsKept(paths: seq<seq<string>>, p: seq<string>)
    requires AreApart(paths) && IsPlainPath(p)
    requires forall q | q in paths :: q != [] && (q == p || q[0] != p[0])
    ensures !IsDropped(Mark(p), Texts(paths))
    decreases |paths|
  {
    hide IsUnder;
    if paths != [] {
      var q := paths[0];
      MarkIsKept(paths[1..], p);
      DropFirst(Mark(p), PathText("", q), Texts(paths[1..]));
      if q == p {
        MarkIsNotUnder(PathText("", p));
      } else {
        MarkElsewhere(p, q);
      }
    }
  }

  lemma PathSplit(path: seq<string>) returns (s: string)
    requires IsPlainPath(path)
    ensures path != [] && IsPlainKey(path[0]) && PathText("", path) == path[0] + s && (s == "" || s[0] == '.')
  {
    PlainStep("", path);
    s := PathTail(path[0], path[1..]);
  }

  lemma MarkElsewhere(p: seq<string>, q: seq<string>)
    requires IsPlainPath(p) && IsPlainPath(q) && p[0] != q[0]
    ensures !IsUnder(Mark(p), PathText("", q))
  {
    hide IsUnder, IsPlainKey, PathText, IsPlainPath;
    if IsUnder(Mark(p), PathText("", q)) {
      var u := UnderTail(Mark(p), PathText("", q));
      var s := PathSplit(p);
      var t := PathSplit(q);
      assert (p[0] + s) + "[]" == p[0] + (s + "[]") && (q[0] + t) + u == q[0] + (t + u);
      TailTail(s, "[]");
      TailTail(t, u);
      StemUnique(p[0], s + "[]", q[0], t + u);
    }
  }

  lemma DropFirst(key: string, p: string, rest: seq<string>)
    ensures IsDropped(key, [p] + rest) <==> IsUnder(key, p) || IsDropped(key, rest)
  {
    var all := [p] + rest;
    assert all[0] == p && forall i | 0 <= i < |rest| :: all[i + 1] == rest[i];
    assert forall i | 0 < i < |all| :: all[i] == rest[i - 1];
  }

  lemma {:induction false} RemoveElsewhere(j: Json, path: seq<string>, q: seq<string>)
    requires IsManifest(j) && IsPlainPath(path) && q != [] && path[0] != q[0]
    ensures HasList(Remove(j, path), q) == HasList(j, q)
  {
    if j.Obj? {
      RemoveFieldGet(j.fields, path, q[0]);
    }
  }

  lemma {:induction false} RemovedIsNoList(j: Json, path: seq<string>)
    requires IsManifest(j) && IsPlainPath(path)
    ensures !HasList(Remove(j, path), path)
    decreases |path|
  {
    if j.Obj? {
      RemoveFieldGet(j.fields, path, path[0]);
      if |path| > 1 && path[0] in Names(j.fields) {
        GetIsManifest(j.fields, path[0]);
        PlainStep("", path);
        RemovedIsNoList(Get(j.fields, path[0]), path[1..]);
      }
    }
  }

  lemma {:induction false} RemoveAllElsewhere(j: Json, paths: seq<seq<string>>, q: seq<string>)
    requires IsManifest(j) && AreApart(paths) && q != [] && forall p | p in paths :: p != [] && p[0] != q[0]
    ensures IsManifest(RemoveAll(j, paths)) && HasList(RemoveAll(j, paths), q) == HasList(j, q)
    decreases |paths|
  {
    hide IsManifest, HasList;
    if paths != [] {
      RemoveIsManifest(j, paths[0]);
      RemoveElsewhere(j, paths[0], q);
      RemoveAllElsewhere(Remove(j, paths[0]), paths[1..], q);
    }
  }

  /**
   A key stays when several paths are dropped exactly when it is a key of the tree without the
   subtrees there, or the mark of a list at one of the paths.
   */
  lemma {:induction false} DroppedKeys(j: Json, paths: seq<seq<string>>, x: string)
    requires IsManifest(j) && AreApart(paths)
    ensures IsManifest(RemoveAll(j, paths))
    ensures x in Drop(Keys(j, ""), Texts(paths))
       <==> x in Keys(RemoveAll(j, paths), "") || exists p | p in paths :: x == Mark(p) && HasList(j, p)
    decreases |paths|
  {
    hide IsUnder, IsDropped, Keys, Remove, PathText, IsManifest, HasList, Mark;
    if paths != [] {
      var p, rest := paths[0], paths[1..];
      RemoveIsManifest(j, p);
      DroppedKeys(Remove(j, p), rest, x);
      DropFirst(x, PathText("", p), Texts(rest));
      RemovedKey(j, p, x);
      if x == Mark(p) {
        MarkIsKept(rest, p);
      }
      forall q | q in rest ensures HasList(Remove(j, p), q) == HasList(j, q) {
        RemoveElsewhere(j, p, q);
      }
    } else {
      NothingDropped(x);
    }
  }

  lemma NothingDropped(x: string)
    ensures !IsDropped(x, [])
  {
  }

  lemma RemovedKey(j: Json, path: seq<string>, x: string)
    requires IsManifest(j) && IsPlainPath(path)
    ensures x in Keys(j, "") && !IsUnder(x, PathText("", path))
       <==> x in Keys(Remove(j, path), "") || (x == Mark(path) && HasList(j, path))
  {
    hide IsUnder, Keys, Remove, PathText, HasList;
    RemovedKeys(j, "", path);
    MarkMeansList(j, "", path);
    MarkIsNotUnder(PathText("", path));
  }

  /** No list stands at a path that was removed. */
  lemma {:induction false} NoMarkLeft(j: Json, paths: seq<seq<string>>, p: seq<string>)
    requires IsManifest(j) && AreApart(paths) && p in paths
    ensures IsManifest(RemoveAll(j, paths)) && Mark(p) !in Keys(RemoveAll(j, paths), "")
    decreases |paths|
  {
    hide Keys, IsManifest, HasList, Remove, PathText;
    RemoveIsManifest(j, paths[0]);
    if p == paths[0] {
      RemovedIsNoList(j, p);
      RemoveAllElsewhere(Remove(j, p), paths[1..], p);
      MarkMeansList(RemoveAll(j, paths), "", p);
    } else {
      NoMarkLeft(Remove(j, paths[0]), paths[1..], p);
    }
  }

  ghost predicate SameLists(a: Json, b: Json, paths: seq<seq<string>>) {
    forall p | p in paths :: HasList(a, p) == HasList(b, p)
  }

  lemma {:induction false} MarkDecides(j: Json, paths: seq<seq<string>>, p: seq<string>)
    requires IsManifest(j) && AreApart(paths) && p in paths
    ensures Mark(p) in Drop(Keys(j, ""), Texts(paths)) <==> HasList(j, p)
  {
    hide Keys, IsManifest, HasList, PathText, IsDropped;
    PlainIfApart(paths, p);
    MarkMeansList(j, "", p);
    SameOrApart(paths, p);
    MarkIsKept(paths, p);
  }

  lemma {:induction false} SameOrApart(paths: seq<seq<string>>, p: seq<string>)
    requires AreApart(paths) && p in paths
    ensures p != [] && forall q | q in paths :: q != [] && (q == p || q[0] != p[0])
    decreases |paths|
  {
    var rest := paths[1..];
    if p != paths[0] {
      assert p in rest;
      SameOrApart(rest, p);
    }
    assert forall q | q in paths :: q == paths[0] || q in rest;
  }

  /**
   With several paths dropped, two manifests have the same keys exactly when they have the same shape
   without the subtrees there and have lists at the same ones of the paths.
   */
  lemma DroppedParity(a: Json, b: Json, paths: seq<seq<string>>)
    requires IsManifest(a) && IsManifest(b) && AreApart(paths)
    ensures Drop(Keys(a, ""), Texts(paths)) == Drop(Keys(b, ""), Texts(paths))
       <==> SameShape(RemoveAll(a, paths), RemoveAll(b, paths)) && SameLists(a, b, paths)
  {
    hide Drop, Keys, IsManifest, HasList, RemoveAll, Mark, SameShape, Texts, AreApart;
    DroppedKeys(a, paths, "");
    DroppedKeys(b, paths, "");
    FlatteningIsInjective(RemoveAll(a, paths), RemoveAll(b, paths));
    if Drop(Keys(a, ""), Texts(paths)) == Drop(Keys(b, ""), Texts(paths)) {
      forall p | p in paths ensures HasList(a, p) == HasList(b, p) {
        MarkDecides(a, paths, p);
        MarkDecides(b, paths, p);
      }
      KeysWithin(a, b, paths);
      KeysWithin(b, a, paths);
    } else if SameShape(RemoveAll(a, paths), RemoveAll(b, paths)) && SameLists(a, b, paths) {
      forall x ensures x in Drop(Keys(a, ""), Texts(paths)) <==> x in Drop(Keys(b, ""), Texts(paths)) {
        DroppedKeys(a, paths, x);
        DroppedKeys(b, paths, x);
      }
    }
  }

  lemma KeysWithin(a: Json, b: Json, paths: seq<seq<string>>)
    requires IsManifest(a) && IsManifest(b) && AreApart(paths)
    requires Drop(Keys(a, ""), Texts(paths)) == Drop(Keys(b, ""), Texts(paths))
    ensures Keys(RemoveAll(a, paths), "") <= Keys(RemoveAll(b, paths), "")
  {
    hide Drop, Keys, IsManifest, HasList, RemoveAll, Mark, Texts, AreApart;
    forall x | x in Keys(RemoveAll(a, paths), "") ensures x in Keys(RemoveAll(b, paths), "") {
      DroppedKeys(a, paths, x);
      DroppedKeys(b, paths, x);
      forall p | p in paths ensures x != Mark(p) {
        NoMarkLeft(a, paths, p);
      }
    }
  }

  // ---------------------------------------------------------------------------
  // The check
  // ---------------------------------------------------------------------------

  const AGENT_LENS: seq<string> := ["contracts", "AgentLens"]
  const LOCAL_DEX: seq<string> := ["localDex"]
  const SAFES: seq<string> := ["safes"]

  const KNOWN_LOCAL_ONLY := ["contracts.AgentLens", "localDex"]
  const KNOWN_MAINNET_ONLY := ["safes"]

  predicate HasValue(data: Json, k: string, v: Scalar) {
    data.Obj? && k in Names(data.fields) && Get(data.fields, k) == Prim(v)
  }

  predicate LooksLocal(stem: string, data: Json) { stem == "local" || HasValue(data, "chain", TextValue("local")) }

  predicate LooksMainnet(stem: string, data: Json) {
    || stem == "base_mainnet" || HasValue(data, "chain", TextValue("base_mainnet"))
    || HasValue(data, "chainId", NumberValue(8453))
  }

  /** An object's entry under the key, the first one if there were several, is this. */
  predicate IsEntry(f: Fields, k: string, v: Json)
    decreases f
  {
    f.Field? && if f.key == k then f.value == v else IsEntry(f.rest, k, v)
  }

  /** Which manifests are taken for the local chain's, and which for the main network's. */
  lemma LooksExactly(stem: string, data: Json)
    ensures LooksLocal(stem, data) <==>
      stem == "local" || (data.Obj? && IsEntry(data.fields, "chain", Prim(TextValue("local"))))
    ensures LooksMainnet(stem, data) <==>
      || stem == "base_mainnet"
      || (data.Obj? && IsEntry(data.fields, "chain", Prim(TextValue("base_mainnet"))))
      || (data.Obj? && IsEntry(data.fields, "chainId", Prim(NumberValue(8453))))
  {
    if data.Obj? {
      GetIsEntry(data.fields, "chain", Prim(TextValue("local")));
      GetIsEntry(data.fields, "chain", Prim(TextValue("base_mainnet")));
      GetIsEntry(data.fields, "chainId", Prim(NumberValue(8453)));
    }
  }

  lemma {:induction false} GetIsEntry(f: Fields, k: string, v: Json)
    ensures IsEntry(f, k, v) <==> k in Names(f) && Get(f, k) == v
    decreases f
  {
    if f.Field? {
      GetIsEntry(f.rest, k, v);
    }
  }

  /** The key sets that are compared. */
  function Compared(keys: set<string>, local: bool, mainnet: bool): set<string> {
    var k1 := if local then Drop(keys, KNOWN_LOCAL_ONLY) else keys;
    if mainnet then Drop(k1, KNOWN_MAINNET_ONLY) else k1
  }

  method CheckParity(stemA: string, a: Json, stemB: string, b: Json) returns (code: nat)
    ensures var local := LooksLocal(stemA, a) != LooksLocal(stemB, b);
      var mainnet := LooksMainnet(stemA, a) != LooksMainnet(stemB, b);
      code == if Compared(Keys(a, ""), local, mainnet) == Compared(Keys(b, ""), local, mainnet) then 0 else 1
  {
    hide Drop, Keys;
    var outA := new KeySet();
    var outB := new KeySet();
    FlattenKeys(a, "", outA);
    FlattenKeys(b, "", outB);
    var keysA, keysB := outA.keys, outB.keys;
    assert keysA == Keys(a, "") && keysB == Keys(b, "");
    if LooksLocal(stemA, a) != LooksLocal(stemB, b) {
      keysA := DropPrefixes(keysA, KNOWN_LOCAL_ONLY);
      keysB := DropPrefixes(keysB, KNOWN_LOCAL_ONLY);
    }
    if LooksMainnet(stemA, a) != LooksMainnet(stemB, b) {
      keysA := DropPrefixes(keysA, KNOWN_MAINNET_ONLY);
      keysB := DropPrefixes(keysB, KNOWN_MAINNET_ONLY);
    }
    var onlyA, onlyB := keysA - keysB, keysB - keysA;
    assert keysA == keysB <==> onlyA == {} && onlyB == {};
    if onlyA != {} || onlyB != {} {
      return 1;
    }
    return 0;
  }

  /** A manifest without its known supplements. */
  function Shared(j: Json, local: bool, mainnet: bool): Json {
    var j1 := if local then Remove(Remove(j, AGENT_LENS), LOCAL_DEX) else j;
    if mainnet then Remove(j1, SAFES) else j1
  }

  /** The known supplements that the check drops. */
  function Supplements(local: bool, mainnet: bool): seq<seq<string>> {
    (if local then [AGENT_LENS, LOCAL_DEX] else []) + (if mainnet then [SAFES] else [])
  }

  lemma KnownPaths()
    ensures PathText("", AGENT_LENS) == "contracts.AgentLens"
    ensures PathText("", LOCAL_DEX) == "localDex" && PathText("", SAFES) == "safes"
    ensures IsPlainPath(AGENT_LENS) && IsPlainPath(LOCAL_DEX) && IsPlainPath(SAFES)
  {
    assert AGENT_LENS[1..] == ["AgentLens"] && AGENT_LENS[1..][1..] == [];
    assert LOCAL_DEX[1..] == [] && SAFES[1..] == [];
    assert Child("contracts", "AgentLens") == "contracts.AgentLens";
  }

  /** A path in front of others. */
  lemma Leading(p: seq<string>, rest: seq<seq<string>>)
    ensures AreApart([]) && Texts([]) == []
    ensures AreApart([p] + rest)
       <==> IsPlainPath(p) && AreApart(rest) && forall q | q in rest :: q != [] && q[0] != p[0]
    ensures Texts([p] + rest) == [PathText("", p)] + Texts(rest)
  {
    assert ([p] + rest)[1..] == rest;
  }

  lemma NoneRemoved(j: Json)
    ensures AreApart([]) && RemoveAll(j, []) == j
  {
  }

  lemma LeadingRemoved(j: Json, p: seq<string>, rest: seq<seq<string>>)
    requires AreApart([p] + rest)
    ensures AreApart(rest) && RemoveAll(j, [p] + rest) == RemoveAll(Remove(j, p), rest)
  {
    assert ([p] + rest)[1..] == rest;
  }

  lemma SupplementsAreApart(local: bool, mainnet: bool)
    ensures AreApart(Supplements(local, mainnet))
    ensures Texts(Supplements(local, mainnet))
         == (if local then KNOWN_LOCAL_ONLY else []) + (if mainnet then KNOWN_MAINNET_ONLY else [])
  {
    hide PathText, IsPlainPath, AreApart, Texts;
    KnownPaths();
    Leading([], []);
    var last := if mainnet then [SAFES] else [];
    if mainnet {
      Leading(SAFES, []);
      assert [SAFES] + [] == last;
    }
    if local {
      Leading(LOCAL_DEX, last);
      Leading(AGENT_LENS, [LOCAL_DEX] + last);
      assert [AGENT_LENS] + ([LOCAL_DEX] + last) == Supplements(local, mainnet);
    } else {
      assert Supplements(local, mainnet) == last;
    }
  }

  lemma DropAppended(keys: set<string>, ps: seq<string>, qs: seq<string>)
    ensures Drop(Drop(keys, ps), qs) == Drop(keys, ps + qs)
  {
    forall key ensures IsDropped(key, ps + qs) <==> IsDropped(key, ps) || IsDropped(key, qs) {
      DroppedByEither(key, ps, qs);
    }
  }

  lemma DroppedByEither(key: string, ps: seq<string>, qs: seq<string>)
    ensures IsDropped(key, ps + qs) <==> IsDropped(key, ps) || IsDropped(key, qs)
  {
    var all := ps + qs;
    assert forall i | 0 <= i < |ps| :: all[i] == ps[i];
    assert forall i | 0 <= i < |qs| :: all[|ps| + i] == qs[i];
    assert forall i | |ps| <= i < |all| :: all[i] == qs[i - |ps|];
  }

  lemma DropNothing(keys: set<string>)
    ensures Drop(keys, []) == keys
  {
  }

  lemma ComparedIsDropped(j: Json, local: bool, mainnet: bool)
    ensures Compared(Keys(j, ""), local, mainnet) == Drop(Keys(j, ""), Texts(Supplements(local, mainnet)))
  {
    hide Drop, Keys, Texts, Supplements;
    SupplementsAreApart(local, mainnet);
    var first := if local then KNOWN_LOCAL_ONLY else [];
    var second := if mainnet then KNOWN_MAINNET_ONLY else [];
    DropAppended(Keys(j, ""), first, second);
    DropNothing(Keys(j, ""));
    DropNothing(Drop(Keys(j, ""), first));
  }

  /**
   The check passes two manifests exactly when, without the supplements that are known to be on one
   side only, they have the same shape, and the same ones of these supplements are lists: a list
   where the other manifest has none is what the dropping misses.
   */
  lemma ParityIsSameShape(a: Json, b: Json, local: bool, mainnet: bool)
    requires IsManifest(a) && IsManifest(b)
    ensures Compared(Keys(a, ""), local, mainnet) == Compared(Keys(b, ""), local, mainnet)
       <==> && SameShape(Shared(a, local, mainnet), Shared(b, local, mainnet))
            && (local ==> HasList(a, AGENT_LENS) == HasList(b, AGENT_LENS))
            && (local ==> HasList(a, LOCAL_DEX) == HasList(b, LOCAL_DEX))
            && (mainnet ==> HasList(a, SAFES) == HasList(b, SAFES))
  {
    hide Compared, Drop, Keys, IsManifest, SameShape, HasList, Texts, AreApart, Supplements, Shared;
    ComparedIsDropped(a, local, mainnet);
    ComparedIsDropped(b, local, mainnet);
    SupplementsAreApart(local, mainnet);
    SharedIsRemoveAll(a, local, mainnet);
    SharedIsRemoveAll(b, local, mainnet);
    SupplementLists(a, b, local, mainnet);
    DroppedParity(a, b, Supplements(local, mainnet));
  }

  lemma SharedIsRemoveAll(j: Json, local: bool, mainnet: bool)
    requires AreApart(Supplements(local, mainnet))
    ensures Shared(j, local, mainnet) == RemoveAll(j, Supplements(local, mainnet))
  {
    hide Remove, IsPlainPath, AreApart, RemoveAll;
    var ps := Supplements(local, mainnet);
    var last := if mainnet then [SAFES] else [];
    if local {
      assert ps == [AGENT_LENS] + ([LOCAL_DEX] + last);
      LeadingRemoved(j, AGENT_LENS, [LOCAL_DEX] + last);
      LeadingRemoved(Remove(j, AGENT_LENS), LOCAL_DEX, last);
    } else {
      assert ps == last;
    }
    var j1 := if local then Remove(Remove(j, AGENT_LENS), LOCAL_DEX) else j;
    NoneRemoved(j1);
    NoneRemoved(Remove(j1, SAFES));
    if mainnet {
      assert last == [SAFES] + [];
      LeadingRemoved(j1, SAFES, []);
    }
  }

  lemma SupplementLists(a: Json, b: Json, local: bool, mainnet: bool)
    ensures SameLists(a, b, Supplements(local, mainnet))
       <==> && (local ==> HasList(a, AGENT_LENS) == HasList(b, AGENT_LENS))
            && (local ==> HasList(a, LOCAL_DEX) == HasList(b, LOCAL_DEX))
            && (mainnet ==> HasList(a, SAFES) == HasList(b, SAFES))
  {
    hide HasList;
    var ps := Supplements(local, mainnet);
    assert forall p :: p in ps <==> (local && (p == AGENT_LENS || p == LOCAL_DEX)) || (mainnet && p == SAFES);
  }
}
