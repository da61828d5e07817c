/**
 Lines of a manifest text as Python's `splitlines(keepends=True)` cuts them, and the four line
 patterns of the synchroniser as character-level matchers.
 */
module ManifestLines {
  import opened Text

  // ---------------------------------------------------------------------------
  // Lines
  // ---------------------------------------------------------------------------

  /** The characters `str.splitlines` breaks at. */
  predicate IsBreak(c: char) {
    || '\n' <= c <= '\r' || '\U{1C}' <= c <= '\U{1E}'
    || c == '\U{85}' || c == '\U{2028}' || c == '\U{2029}'
  }

  predicate NoBreaks(s: string) { forall k | 0 <= k < |s| :: !IsBreak(s[k]) }

  /** The characters before the first break. */
  function BodyLen(s: string): (n: nat)
    ensures n <= |s|
    ensures n < |s| ==> IsBreak(s[n])
  {
    if s == "" || IsBreak(s[0]) then 0 else 1 + BodyLen(s[1..])
  }

  /** The first line with its terminator; a CR LF pair is one terminator. */
  function LineLen(text: string): (n: nat)
    requires text != ""
    ensures 0 < n <= |text|
  {
    var b := BodyLen(text);
    if b == |text| then b
    else if text[b] == '\r' && b + 1 < |text| && text[b + 1] == '\n' then b + 2
    else b + 1
  }

  function SplitLines(text: string): seq<string> {
    if text == "" then [] else [text[..LineLen(text)]] + SplitLines(text[LineLen(text)..])
  }

  function Join(lines: seq<string>): string {
    if lines == [] then "" else lines[0] + Join(lines[1..])
  }

  predicate IsLine(line: string) { line != "" && LineLen(line) == |line| }

  /** `line` ends where the text `rest` behind it begins. */
  predicate EndsBefore(line: string, rest: string)
    requires line != ""
  {
    rest == "" || (BodyLen(line) < |line| && !(line[|line| - 1] == '\r' && rest[0] == '\n'))
  }

  /** Texts that are the lines of their concatenation. */
  predicate Lined(lines: seq<string>) {
    lines == [] || (IsLine(lines[0]) && EndsBefore(lines[0], Join(lines[1..])) && Lined(lines[1..]))
  }

  lemma {:induction false} BodyLenExact(s: string, n: nat)
    requires n <= |s| && NoBreaks(s[..n]) && (n < |s| ==> IsBreak(s[n]))
    ensures BodyLen(s) == n
    decreases n
  {
    if n > 0 {
      assert s[..n][0] == s[0];
      assert s[1..][..n - 1] == s[..n][1..];
      BodyLenExact(s[1..], n - 1);
    }
  }

  lemma {:induction false} BodyFree(s: string)
    ensures NoBreaks(s[..BodyLen(s)])
    decreases |s|
  {
    if s != "" && !IsBreak(s[0]) {
      BodyFree(s[1..]);
      var n := BodyLen(s[1..]);
      assert s[..n + 1] == [s[0]] + s[1..][..n];
    }
  }

  lemma LineLenAppend(line: string, rest: string)
    requires IsLine(line) && EndsBefore(line, rest)
    ensures LineLen(line + rest) == |line|
  {
    var t := line + rest;
    var b := BodyLen(line);
    BodyFree(line);
    assert t[..b] == line[..b];
    if rest == "" {
      assert t == line;
    } else {
      BodyLenExact(t, b);
    }
  }

  lemma FirstLineIsLine(text: string)
    requires text != ""
    ensures IsLine(text[..LineLen(text)]) && EndsBefore(text[..LineLen(text)], text[LineLen(text)..])
  {
    var n := LineLen(text);
    var line, b := text[..n], BodyLen(text);
    BodyFree(text);
    assert line[..b] == text[..b];
    BodyLenExact(line, b);
  }

  lemma SplitFirst(text: string) returns (line: string, rest: string)
    requires text != ""
    ensures line != "" && text == line + rest && |rest| < |text|
    ensures SplitLines(text) == [line] + SplitLines(rest)
    ensures IsLine(line) && EndsBefore(line, rest)
  {
    FirstLineIsLine(text);
    line, rest := text[..LineLen(text)], text[LineLen(text)..];
  }

  lemma JoinCons(line: string, lines: seq<string>)
    ensures Join([line] + lines) == line + Join(lines)
    ensures IsLine(line) && EndsBefore(line, Join(lines)) && Lined(lines) ==> Lined([line] + lines)
  {
    assert ([line] + lines)[1..] == lines;
  }

  /** Cutting a text into lines loses nothing, and what it yields are lines. */
  lemma {:induction false} JoinSplit(text: string)
    ensures Join(SplitLines(text)) == text
    ensures Lined(SplitLines(text))
    decreases |text|
  {
    hide Join, Lined, IsLine, EndsBefore;
    if text == "" {
      NothingJoined();
    } else {
      hide SplitLines;
      var line, rest := SplitFirst(text);
      JoinSplit(rest);
      JoinCons(line, SplitLines(rest));
    }
  }

  lemma NothingJoined()
    ensures Join([]) == "" && Lined([])
  {
  }

  /** Lines are cut again where they were joined. */
  lemma {:induction false} SplitJoin(lines: seq<string>)
    requires Lined(lines)
    ensures SplitLines(Join(lines)) == lines
    decreases |lines|
  {
    if lines != [] {
      var line, rest := lines[0], Join(lines[1..]);
      LineLenAppend(line, rest);
      SplitJoin(lines[1..]);
      assert (line + rest)[..|line|] == line && (line + rest)[|line|..] == rest;
      assert lines == [line] + lines[1..];
    }
  }

  /** A line without breaks but for a final newline. */
  lemma NewlineLine(body: string)
    requires NoBreaks(body)
    ensures IsLine(body + "\n") && BodyLen(body + "\n") == |body|
  {
    assert (body + "\n")[..|body|] == body;
    BodyLenExact(body + "\n", |body|);
  }

  /** `line.rstrip("\n")`. */
  function Chomp(line: string): string {
    if line != "" && line[|line| - 1] == '\n' then Chomp(line[..|line| - 1]) else line
  }

  // ---------------------------------------------------------------------------
  // Patterns
  // ---------------------------------------------------------------------------

  predicate AllSpace(s: string) { forall k | 0 <= k < |s| :: IsSpace(s[k]) }

  function SpaceLen(s: string): (n: nat)
    ensures n <= |s|
    ensures n < |s| ==> !IsSpace(s[n])
  {
    if s == "" || !IsSpace(s[0]) then 0 else 1 + SpaceLen(s[1..])
  }

  /** The character class of a captured word. */
  datatype Class = WordClass | DigitClass | NetworkClass

  predicate InClass(c: char, class_: Class) {
    match class_
    case WordClass => IsNameChar(c)
    case DigitClass => IsDigit(c)
    case NetworkClass => IsLetter(c) || IsDigit(c) || c == '.' || c == '_' || c == '-'
  }

  predicate AllIn(s: string, class_: Class) { forall k | 0 <= k < |s| :: InClass(s[k], class_) }

  function RunLen(s: string, class_: Class): (n: nat)
    ensures n <= |s|
    ensures n < |s| ==> !InClass(s[n], class_)
  {
    if s == "" || !InClass(s[0], class_) then 0 else 1 + RunLen(s[1..], class_)
  }

  /** `^\s*(C+)\s*$`. */
  function MatchWord(s: string, class_: Class): Option<string> {
    var r := s[SpaceLen(s)..];
    var n := RunLen(r, class_);
    if n > 0 && AllSpace(r[n..]) then Some(r[..n]) else None
  }

  function UnquotedLen(s: string): (n: nat)
    ensures n <= |s|
    ensures n < |s| ==> s[n] == '"'
  {
    if s == "" || s[0] == '"' then 0 else 1 + UnquotedLen(s[1..])
  }

  /** `\"?\s*$`. */
  predicate IsClosing(s: string) {
    AllSpace(s) || (s != "" && s[0] == '"' && AllSpace(s[1..]))
  }

  /**
   `^\s*\"?([^\"\n]+)\"?\s*$` on a text without newlines. The first alternative the matcher would
   try takes all white space; only if nothing is left to capture does it give one blank back.
   */
  function MatchAddress(s: string): Option<string> {
    var k := SpaceLen(s);
    var r := if k < |s| && s[k] == '"' then s[k + 1..] else s[k..];
    var n := UnquotedLen(r);
    if n > 0 then (if IsClosing(r[n..]) then Some(r[..n]) else None)
    else if k > 0 && (s[k..] == "" || s[k..] == "\"") then Some(s[k - 1..k])
    else None
  }

  /** What `key` captures behind a line's indent. */
  datatype Keyed = Keyed(indent: string, rest: string)

  /** `^(\s*)key` and the rest of the line; the key starts with no white space. */
  function MatchKey(line: string, key: string): Option<Keyed> {
    var w := SpaceLen(line);
    if At(line, w, key) then Some(Keyed(line[..w], line[w + |key|..])) else None
  }

  const NAME_KEY := "name:"
  const ADDRESS_KEY := "address:"
  const START_BLOCK_KEY := "startBlock:"
  const NETWORK_KEY := "network:"

  /** The data source a line names: four blanks, `name:`, and a word. */
  function NameOf(line: string): Option<string> {
    match MatchKey(Chomp(line), NAME_KEY)
    case None => None
    case Some(m) => if |m.indent| == 4 then MatchWord(m.rest, WordClass) else None
  }

  /** What a line in a data source's block is: the synchroniser tries the patterns in this order. */
  datatype Kind =
    | Address(indent: string, current: string)
    | StartBlock(indent: string, current: string)
    | Network(indent: string, current: string)
    | Other

  function AddressKind(line: string): Kind {
    match MatchKey(Chomp(line), ADDRESS_KEY)
    case None => Other
    case Some(m) => match MatchAddress(m.rest) case None => Other case Some(v) => Address(m.indent, v)
  }

  function StartBlockKind(line: string): Kind {
    match MatchKey(Chomp(line), START_BLOCK_KEY)
    case None => Other
    case Some(m) => match MatchWord(m.rest, DigitClass) case None => Other case Some(v) => StartBlock(m.indent, v)
  }

  function NetworkKind(line: string): Kind {
    match MatchKey(Chomp(line), NETWORK_KEY)
    case None => Other
    case Some(m) => match MatchWord(m.rest, NetworkClass) case None => Other case Some(v) => Network(m.indent, v)
  }

  function KindOf(line: string): Kind {
    if AddressKind(line) != Other then AddressKind(line)
    else if StartBlockKind(line) != Other then StartBlockKind(line)
    else NetworkKind(line)
  }

  // ---------------------------------------------------------------------------
  // The matchers accept exactly their patterns
  // ---------------------------------------------------------------------------

  lemma {:induction false} SpaceLenExact(s: string, n: nat)
    requires n <= |s| && AllSpace(s[..n]) && (n < |s| ==> !IsSpace(s[n]))
    ensures SpaceLen(s) == n
    decreases n
  {
    if n > 0 {
      assert s[..n][0] == s[0];
      assert s[1..][..n - 1] == s[..n][1..];
      SpaceLenExact(s[1..], n - 1);
    }
  }

  lemma {:induction false} SpaceLenSpaces(s: string)
    ensures AllSpace(s[..SpaceLen(s)])
    decreases |s|
  {
    if s != "" && IsSpace(s[0]) {
      SpaceLenSpaces(s[1..]);
      var n := SpaceLen(s[1..]);
      assert s[..n + 1] == [s[0]] + s[1..][..n];
    }
  }

  lemma {:induction false} SpaceLenAtLeast(s: string, n: nat)
    requires n <= |s| && AllSpace(s[..n])
    ensures n <= SpaceLen(s)
    decreases n
  {
    if n > 0 {
      assert s[..n][0] == s[0];
      assert s[1..][..n - 1] == s[..n][1..];
      SpaceLenAtLeast(s[1..], n - 1);
    }
  }

  lemma {:induction false} RunLenExact(s: string, class_: Class, n: nat)
    requires n <= |s| && AllIn(s[..n], class_) && (n < |s| ==> !InClass(s[n], class_))
    ensures RunLen(s, class_) == n
    decreases n
  {
    if n > 0 {
      assert s[..n][0] == s[0];
      assert s[1..][..n - 1] == s[..n][1..];
      RunLenExact(s[1..], class_, n - 1);
    }
  }

  lemma {:induction false} RunLenRun(s: string, class_: Class)
    ensures AllIn(s[..RunLen(s, class_)], class_)
    decreases |s|
  {
    if s != "" && InClass(s[0], class_) {
      RunLenRun(s[1..], class_);
      var n := RunLen(s[1..], class_);
      assert s[..n + 1] == [s[0]] + s[1..][..n];
    }
  }

  lemma {:induction false} UnquotedLenExact(s: string, n: nat)
    requires n <= |s| && '"' !in s[..n] && (n < |s| ==> s[n] == '"')
    ensures UnquotedLen(s) == n
    decreases n
  {
    if n > 0 {
      assert s[..n][0] == s[0];
      assert s[1..][..n - 1] == s[..n][1..];
      UnquotedLenExact(s[1..], n - 1);
    }
  }

  lemma {:induction false} UnquotedLenAtMost(s: string, n: nat)
    requires n < |s| && s[n] == '"'
    ensures UnquotedLen(s) <= n
    decreases n
  {
    if n > 0 {
      UnquotedLenAtMost(s[1..], n - 1);
    }
  }

  lemma {:induction false} UnquotedLenFree(s: string)
    ensures '"' !in s[..UnquotedLen(s)]
    decreases |s|
  {
    if s != "" && s[0] != '"' {
      UnquotedLenFree(s[1..]);
      var n := UnquotedLen(s[1..]);
      assert s[..n + 1] == [s[0]] + s[1..][..n];
    }
  }

  /** `s` is white space, a nonempty word of the class, and white space. */
  predicate IsWordSplit(s: string, before: string, word: string, after: string, class_: Class) {
    s == before + (word + after) && AllSpace(before) && AllSpace(after) && word != "" && AllIn(word, class_)
  }

  /** A word with blanks around it is captured; and nothing else is. */
  lemma MatchWordSplit(s: string, before: string, word: string, after: string, class_: Class)
    requires IsWordSplit(s, before, word, after, class_)
    ensures MatchWord(s, class_) == Some(word)
  {
    assert s[..|before|] == before && s[|before|] == word[0];
    SpaceLenExact(s, |before|);
    var r := s[|before|..];
    assert r == word + after && r[..|word|] == word && r[|word|..] == after;
    RunLenExact(r, class_, |word|);
  }

  lemma MatchWordSound(s: string, class_: Class)
    requires MatchWord(s, class_).Some?
    ensures exists before: string, after: string :: IsWordSplit(s, before, MatchWord(s, class_).value, after, class_)
  {
    var k := SpaceLen(s);
    SpaceLenSpaces(s);
    var r := s[k..];
    var n := RunLen(r, class_);
    RunLenRun(r, class_);
    assert s == s[..k] + (r[..n] + r[n..]);
    assert IsWordSplit(s, s[..k], r[..n], r[n..], class_);
  }

  /** The decomposition that the address pattern asks for. */
  predicate IsAddressSplit(s: string, before: string, q1: string, value: string, q2: string, after: string) {
    && s == before + (q1 + (value + (q2 + after)))
    && AllSpace(before) && AllSpace(after) && (q1 == "" || q1 == "\"") && (q2 == "" || q2 == "\"")
    && value != "" && '"' !in value
  }

  lemma MatchAddressSound(s: string)
    requires MatchAddress(s).Some?
    ensures exists before: string, q1: string, q2: string, after: string ::
      IsAddressSplit(s, before, q1, MatchAddress(s).value, q2, after)
  {
    var k := SpaceLen(s);
    var q1 := if k < |s| && s[k] == '"' then "\"" else "";
    if UnquotedLen(s[k + |q1|..]) > 0 {
      var q2, after := CapturedRun(s, k, q1);
    } else {
      CapturedBlank(s, k);
    }
  }

  lemma ClosingParts(tail: string) returns (q2: string, after: string)
    requires IsClosing(tail)
    ensures tail == q2 + after && (q2 == "" || q2 == "\"") && AllSpace(after)
  {
    q2 := if AllSpace(tail) then "" else "\"";
    after := tail[|q2|..];
  }

  lemma CapturedRun(s: string, k: nat, q1: string) returns (q2: string, after: string)
    requires k == SpaceLen(s) && q1 == if k < |s| && s[k] == '"' then "\"" else ""
    requires UnquotedLen(s[k + |q1|..]) > 0 && MatchAddress(s).Some?
    ensures IsAddressSplit(s, s[..k], q1, MatchAddress(s).value, q2, after)
  {
    var r := s[k + |q1|..];
    var n := UnquotedLen(r);
    assert MatchAddress(s) == Some(r[..n]) && IsClosing(r[n..]);
    hide MatchAddress, SpaceLen, UnquotedLen, IsClosing;
    SpaceLenSpaces(s);
    UnquotedLenFree(r);
    q2, after := ClosingParts(r[n..]);
    hide AllSpace;
    Reassemble(s, k, q1, r, n, q2, after);
  }

  lemma Reassemble(s: string, k: nat, q1: string, r: string, n: nat, q2: string, after: string)
    requires k + |q1| <= |s| && s[k..k + |q1|] == q1 && r == s[k + |q1|..] && n <= |r| && r[n..] == q2 + after
    ensures s == s[..k] + (q1 + (r[..n] + (q2 + after)))
  {
    assert r == r[..n] + r[n..];
    assert s == s[..k] + (q1 + r);
  }

  lemma CapturedBlank(s: string, k: nat)
    requires k == SpaceLen(s) && 0 < k && (s[k..] == "" || s[k..] == "\"")
    ensures IsAddressSplit(s, s[..k - 1], "", s[k - 1..k], s[k..], "")
  {
    SpaceLenSpaces(s);
    hide SpaceLen;
    assert AllSpace(s[..k - 1]) && IsSpace(s[k - 1]) by {
      assert s[..k][k - 1] == s[k - 1];
      assert forall j | 0 <= j < k - 1 :: s[..k - 1][j] == s[..k][j];
    }
    assert s[k - 1..k] == [s[k - 1]] && '"' !in s[k - 1..k];
    hide AllSpace;
    assert s == s[..k - 1] + ("" + (s[k - 1..k] + (s[k..] + ""))) by {
      assert s == s[..k - 1] + (s[k - 1..k] + s[k..]);
    }
    NoSpace();
  }

  lemma NoSpace()
    ensures AllSpace("")
  {
  }

  /** With a quote in front, the capture starts right behind it. */
  lemma QuotedAddressMatches(s: string, before: string, value: string, q2: string, after: string)
    requires IsAddressSplit(s, before, "\"", value, q2, after)
    ensures MatchAddress(s) == Some(if q2 == "" then value + after else value)
  {
    var k := |before|;
    assert s[..k] == before && s[k] == '"';
    SpaceLenExact(s, k);
    var r := s[k + 1..];
    assert r == value + (q2 + after);
    var n := if q2 == "" then |r| else |value|;
    if q2 == "" {
      assert r[..n] == value + after;
      assert '"' !in after by { assert forall j | 0 <= j < |after| :: IsSpace(after[j]); }
    } else {
      assert r[..n] == value && r[n] == '"' && r[n..][1..] == after;
    }
    UnquotedLenExact(r, n);
  }

  lemma SpaceIsUnquoted(s: string)
    requires AllSpace(s)
    ensures '"' !in s
  {
  }

  /** Every text of the pattern's form matches. */
  lemma MatchAddressComplete(s: string, before: string, q1: string, value: string, q2: string, after: string)
    requires IsAddressSplit(s, before, q1, value, q2, after)
    ensures MatchAddress(s).Some?
  {
    if q1 == "\"" {
      QuotedAddressMatches(s, before, value, q2, after);
    } else {
      BareAddressMatches(s, before, value, q2, after);
    }
  }

  /** The capture of an unquoted run at the start of `r`. */
  lemma UnquotedRun(r: string, value: string, q2: string, after: string)
    requires r == value + (q2 + after) && value != "" && '"' !in value
    requires AllSpace(after) && (q2 == "" || q2 == "\"")
    ensures UnquotedLen(r) > 0 && r[0] != '"' && IsClosing(r[UnquotedLen(r)..])
  {
    var n := if q2 == "" then |r| else |value|;
    if q2 == "" {
      SpaceIsUnquoted(after);
      assert r[..n] == value + after;
      assert r[n..] == "";
    } else {
      assert r[..n] == value && r[n..] == q2 + after && r[n..][1..] == after;
    }
    UnquotedLenExact(r, n);
  }

  lemma BareAddressMatches(s: string, before: string, value: string, q2: string, after: string)
    requires IsAddressSplit(s, before, "", value, q2, after)
    ensures MatchAddress(s).Some?
  {
    var k := SpaceLen(s);
    var e := |before| + |value|;
    assert s == (before + value) + (q2 + after);
    assert s[..|before|] == before && s[e..] == q2 + after;
    SpaceLenAtLeast(s, |before|);
    if k < e {
      var v := value[k - |before|..];
      assert s[k..] == v + (q2 + after);
      assert '"' !in v by { assert forall j | 0 <= j < |v| :: v[j] == value[k - |before| + j]; }
      UnquotedRun(s[k..], v, q2, after);
    } else {
      SpacesThenQuote(s, k, e, q2, after);
    }
  }

  lemma SpacesThenQuote(s: string, k: nat, e: nat, q2: string, after: string)
    requires k == SpaceLen(s) && 0 < e <= k && s[e..] == q2 + after
    requires AllSpace(after) && (q2 == "" || q2 == "\"")
    ensures MatchAddress(s).Some?
  {
    SpaceLenSpaces(s);
    assert AllSpace(s[..e]) by {
      assert forall j | 0 <= j < e :: s[..e][j] == s[..k][j];
    }
    DropSum(s, e, q2, after);
    if q2 == "" {
      BlankMatches(s, e);
    } else {
      assert s[e] == s[e..][0] == '"';
      SpaceLenExact(s, e);
      hide UnquotedLen, SpaceLen;
      if after == "" {
        assert s[k..] == "\"";
        UnquotedLenExact("", 0);
      } else {
        SpaceIsUnquoted(after);
        assert after[..|after|] == after && AllSpace(after[|after|..]);
        UnquotedLenExact(after, |after|);
      }
    }
  }

  lemma BlankMatches(s: string, e: nat)
    requires 0 < e <= |s| && AllSpace(s[..e]) && AllSpace(s[e..])
    ensures MatchAddress(s).Some?
  {
    hide UnquotedLen;
    assert forall j | 0 <= j < |s| :: s[j] == if j < e then s[..e][j] else s[e..][j - e];
    assert s[..|s|] == s;
    SpaceLenAtLeast(s, |s|);
    UnquotedLenExact("", 0);
  }

  /** The address matcher accepts exactly the texts of its pattern's form. */
  lemma MatchAddressExact(s: string)
    ensures MatchAddress(s).Some? <==>
      exists before: string, q1: string, value: string, q2: string, after: string ::
        IsAddressSplit(s, before, q1, value, q2, after)
  {
    if MatchAddress(s).Some? {
      MatchAddressSound(s);
      var before: string, q1: string, q2: string, after: string :|
        IsAddressSplit(s, before, q1, MatchAddress(s).value, q2, after);
      assert IsAddressSplit(s, before, q1, MatchAddress(s).value, q2, after);
    } else if exists before: string, q1: string, value: string, q2: string, after: string ::
        IsAddressSplit(s, before, q1, value, q2, after) {
      var before: string, q1: string, value: string, q2: string, after: string :|
        IsAddressSplit(s, before, q1, value, q2, after);
      MatchAddressComplete(s, before, q1, value, q2, after);
    }
  }
}
