/** Character classes and positioned substrings shared by the text scanners. */
module Text {

  datatype Option<+T> = None | Some(value: T)

  /** Python's `str.isspace` on one character; also what `\s` matches in a `str` pattern. */
  predicate IsSpace(c: char) {
    || '\t' <= c <= '\r'
    || '\U{1C}' <= c <= ' '
    || c == '\U{85}' || c == '\U{A0}' || c == '\U{1680}'
    || '\U{2000}' <= c <= '\U{200A}'
    || c == '\U{2028}' || c == '\U{2029}' || c == '\U{202F}' || c == '\U{205F}' || c == '\U{3000}'
  }

  predicate IsDigit(c: char) { '0' <= c <= '9' }

  predicate IsLetter(c: char) { 'A' <= c <= 'Z' || 'a' <= c <= 'z' }

  predicate IsNameStart(c: char) { IsLetter(c) || c == '_' }

  predicate IsNameChar(c: char) { IsNameStart(c) || IsDigit(c) }

  /** `lower()` on the letters A to Z. */
  function LowerChar(c: char): char {
    if 'A' <= c <= 'Z' then (c as int + 32) as char else c
  }

  function Lower(s: string): (r: string)
    ensures |r| == |s| && forall k | 0 <= k < |s| :: r[k] == LowerChar(s[k])
  {
    seq(|s|, i requires 0 <= i < |s| => LowerChar(s[i]))
  }

  function StripLeft(s: string): string {
    if s != "" && IsSpace(s[0]) then StripLeft(s[1..]) else s
  }

  function StripRight(s: string): string {
    if s != "" && IsSpace(s[|s| - 1]) then StripRight(s[..|s| - 1]) else s
  }

  /** Python's `strip()`. */
  function Strip(s: string): string { StripRight(StripLeft(s)) }

  /** The text `p` stands in `s` at position `i`: Python's `s.startswith(p, i)`. */
  predicate At<T(==)>(s: seq<T>, i: nat, p: seq<T>) {
    i + |p| <= |s| && forall k | 0 <= k < |p| :: s[i + k] == p[k]
  }

  lemma AtSplit<T>(s: seq<T>, i: nat, a: seq<T>, b: seq<T>)
    requires At(s, i, a + b)
    ensures At(s, i, a) && At(s, i + |a|, b)
  {
    forall k | 0 <= k < |a| ensures s[i + k] == a[k] {
      assert (a + b)[k] == a[k];
    }
    forall k | 0 <= k < |b| ensures s[i + |a| + k] == b[k] {
      assert (a + b)[|a| + k] == b[k];
    }
  }

  lemma AtChar<T>(s: seq<T>, i: nat, p: seq<T>, k: nat)
    requires At(s, i, p) && k < |p|
    ensures i + k < |s| && s[i + k] == p[k]
  {
  }

  lemma AtShift<T>(a: seq<T>, b: seq<T>, i: nat, p: seq<T>)
    requires At(b, i, p)
    ensures At(a + b, |a| + i, p)
  {
    forall k | 0 <= k < |p| ensures (a + b)[|a| + i + k] == p[k] {
      assert (a + b)[|a| + i + k] == b[i + k];
    }
  }

  lemma AtSlice<T>(s: seq<T>, i: nat, p: seq<T>)
    requires At(s, i, p)
    ensures s[i..i + |p|] == p
  {
  }

  lemma AtSelf<T>(s: seq<T>)
    ensures At(s, 0, s)
  {
  }

  lemma DropSum<T>(s: seq<T>, i: nat, a: seq<T>, b: seq<T>)
    requires i <= |s| && s[i..] == a + b
    ensures i + |a| <= |s| && s[i + |a|..] == b
  {
    assert s[i..][|a|..] == b;
  }

  lemma Regroup<T>(a: seq<T>, b: seq<T>, c: seq<T>)
    ensures (a + b) + c == a + (b + c)
  {
  }

  lemma AtAppend<T>(a: seq<T>, p: seq<T>, b: seq<T>)
    ensures At(a + p + b, |a|, p)
  {
  }

  /** The code points that Python's `str.isspace` holds of. */
  const SPACE_CODES: set<int> := {
    9, 10, 11, 12, 13, 28, 29, 30, 31, 32, 133, 160, 5760, 8192, 8193, 8194, 8195, 8196, 8197, 8198, 8199, 8200, 8201,
    8202, 8232, 8233, 8239, 8287, 12288}

  /** The classes, character by character. */
  lemma CharClasses(c: char)
    ensures IsSpace(c) <==> c as int in SPACE_CODES
    ensures IsDigit(c) <==> c in "0123456789"
    ensures IsLetter(c) <==> c in "ABCDEFGHIJKLMNOPQRSTUVWXYZ" || c in "abcdefghijklmnopqrstuvwxyz"
    ensures IsNameStart(c) <==> c == '_' || IsLetter(c)
    ensures IsNameChar(c) <==> c == '_' || IsLetter(c) || IsDigit(c)
  {
    Capitals(c);
    SmallLetters(c);
  }

  lemma Capitals(c: char)
    ensures c in "ABCDEFGHIJKLMNOPQRSTUVWXYZ" <==> 'A' <= c <= 'Z'
  {
  }

  lemma SmallLetters(c: char)
    ensures c in "abcdefghijklmnopqrstuvwxyz" <==> 'a' <= c <= 'z'
  {
  }

  /** Capitals become small letters, and nothing else changes. */
  lemma LowerExactly(c: char)
    ensures if 'A' <= c <= 'Z' then 'a' <= LowerChar(c) <= 'z' && c - 'A' == LowerChar(c) - 'a' else LowerChar(c) == c
  {
  }

  predicate AllSpaces(s: string) { forall c | c in s :: IsSpace(c) }

  predicate IsBare(s: string) { s == "" || (!IsSpace(s[0]) && !IsSpace(s[|s| - 1])) }

  /** What is stripped is the white space around a text that neither starts nor ends with any. */
  lemma {:induction false} StripExactly(a: string, core: string, b: string)
    requires AllSpaces(a) && AllSpaces(b) && IsBare(core)
    ensures Strip(a + core + b) == core
    decreases |a| + |b|
  {
    var s := a + core + b;
    if a != "" {
      assert s[1..] == a[1..] + core + b;
      StripExactly(a[1..], core, b);
    } else if core != "" {
      assert s[0] == core[0];
      StripRightExactly(core, b);
      assert s == core + b;
    } else if b != "" {
      assert s == b && s[1..] == b[1..];
      assert b[1..] == "" + "" + b[1..];
      StripExactly("", "", b[1..]);
    }
  }

  lemma {:induction false} StripRightExactly(core: string, b: string)
    requires AllSpaces(b) && (core == "" || !IsSpace(core[|core| - 1]))
    ensures StripRight(core + b) == core
    decreases |b|
  {
    if b != "" {
      var n := |b| - 1;
      assert (core + b)[..|core + b| - 1] == core + b[..n];
      StripRightExactly(core, b[..n]);
    } else {
      assert core + b == core;
    }
  }
}
