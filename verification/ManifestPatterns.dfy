/**
 Lines and line patterns in terms of texts: where a manifest is cut, and which lines name a data source
 or hold an address, a start block or a network, with what captured.
 */
module ManifestPatterns {
  import opened Text
  import opened ManifestLines
  import opened ManifestRewrite

  // ---------------------------------------------------------------------------
  // Lines
  // ---------------------------------------------------------------------------

  const BREAK_CODES: set<int> := {10, 11, 12, 13, 28, 29, 30, 133, 8232, 8233}

  /** A line's end: one break, or a carriage return and a newline. */
  predicate IsEnd(end: string) { end == "\r\n" || (|end| == 1 && end[0] as int in BREAK_CODES) }

  predicate IsUnbroken(body: string) { forall c | c in body :: c as int !in BREAK_CODES }

  /** The line is an unbroken text and its end, which only the last line may lack. */
  ghost predicate IsCut(line: string, isLast: bool) {
    exists body: string, end: string ::
      line == body + end && IsUnbroken(body) && (IsEnd(end) || (isLast && end == "" && body != ""))
  }

  lemma BreakExactly(c: char)
    ensures IsBreak(c) <==> c as int in BREAK_CODES
  {
  }

  lemma LineIsCut(line: string, rest: string, isLast: bool)
    requires IsLine(line) && EndsBefore(line, rest) && (!isLast ==> rest != "")
    ensures IsCut(line, isLast)
  {
    var b := BodyLen(line);
    var body, end := line[..b], line[b..];
    BodyFree(line);
    assert line == body + end;
    forall c | c in body ensures c as int !in BREAK_CODES {
      BreakExactly(c);
    }
    if b < |line| {
      BreakExactly(line[b]);
      assert IsEnd(end);
    }
  }

  lemma {:induction false} LinedAt(lines: seq<string>, k: nat)
    requires Lined(lines) && k < |lines|
    ensures IsLine(lines[k]) && EndsBefore(lines[k], Join(lines[k + 1..]))
    decreases k
  {
    hide IsLine, EndsBefore, Join;
    if k > 0 {
      LinedAt(lines[1..], k - 1);
      assert lines[1..][k..] == lines[k + 1..];
    }
  }

  /** A text is cut behind every break, but for a carriage return and its newline, and nowhere else. */
  lemma SplitExactly(text: string, k: nat)
    requires k < |SplitLines(text)|
    ensures var lines := SplitLines(text);
      && Join(lines) == text && IsCut(lines[k], k == |lines| - 1)
      && (k < |lines| - 1 ==> lines[k + 1] != "" && !(lines[k][|lines[k]| - 1] == '\r' && lines[k + 1][0] == '\n'))
  {
    hide SplitLines, IsCut, BodyLen;
    JoinSplit(text);
    var lines := SplitLines(text);
    LinedAt(lines, k);
    if k < |lines| - 1 {
      LinedAt(lines, k + 1);
      assert lines[k + 1..][0] == lines[k + 1] && lines[k + 1..] != [];
    }
    LineIsCut(lines[k], Join(lines[k + 1..]), k == |lines| - 1);
  }

  // ---------------------------------------------------------------------------
  // Words
  // ---------------------------------------------------------------------------

  lemma ClassesExactly(c: char)
    ensures InClass(c, WordClass) <==> IsLetter(c) || c in "0123456789" || c == '_'
    ensures InClass(c, DigitClass) <==> c in "0123456789"
    ensures InClass(c, NetworkClass) <==> IsLetter(c) || c in "0123456789" || c in "._-"
  {
  }

  /** An indent, a key, and a word of the class with white space on either side. */
  predicate IsKeyed(line: string, indent: string, key: string, a: string, word: string, b: string, class_: Class) {
    && line == indent + (key + (a + (word + b)))
    && AllSpace(indent) && AllSpace(a) && AllSpace(b) && word != "" && AllIn(word, class_)
  }

  lemma {:induction false} ChompParts(line: string) returns (end: string)
    ensures line == Chomp(line) + end && AllSpace(end)
    decreases |line|
  {
    if line != "" && line[|line| - 1] == '\n' {
      end := ChompParts(line[..|line| - 1]);
      assert line == line[..|line| - 1] + "\n";
      end := end + "\n";
    } else {
      end := "";
    }
  }

  lemma {:induction false} ChompBehind(x: string, b: string)
    requires x != "" && x[|x| - 1] != '\n' && AllSpace(b)
    ensures exists b': string :: Chomp(x + b) == x + b' && AllSpace(b')
    decreases |b|
  {
    if b != "" && b[|b| - 1] == '\n' {
      var n := |b| - 1;
      assert (x + b)[..|x + b| - 1] == x + b[..n];
      ChompBehind(x, b[..n]);
    } else {
      assert b == "" ==> x + b == x;
      assert Chomp(x + b) == x + b;
    }
  }

  lemma KeyedIsMatched(
      line: string, indent: string, key: string, a: string, word: string, b: string, class_: Class, other: string)
    requires IsKey(key) && IsKey(other) && IsKeyed(line, indent, key, a, word, b, class_)
    ensures if key == other
      then MatchKey(Chomp(line), other).Some? && MatchKey(Chomp(line), other).value.indent == indent
           && MatchWord(MatchKey(Chomp(line), other).value.rest, class_) == Some(word)
      else MatchKey(Chomp(line), other).None?
  {
    hide MatchKey, MatchWord, Chomp, AllSpace, IsKey;
    var x := indent + (key + (a + word));
    assert line == x + b;
    assert x[|x| - 1] == word[|word| - 1];
    WordIsNoSpace(word, class_);
    ChompBehind(x, b);
    var b': string :| Chomp(line) == x + b' && AllSpace(b');
    assert Chomp(line) == indent + (key + (a + (word + b')));
    KeyedText(indent, key, a + (word + b'), other);
    assert IsWordSplit(a + (word + b'), a, word, b', class_);
    MatchWordSplit(a + (word + b'), a, word, b', class_);
  }

  lemma WordIsNoSpace(word: string, class_: Class)
    requires word != "" && AllIn(word, class_)
    ensures word[|word| - 1] != '\n'
  {
    assert InClass(word[|word| - 1], class_);
  }

  lemma MatchedIsKeyed(line: string, key: string, class_: Class) returns (a: string, b: string)
    requires IsKey(key) && MatchKey(Chomp(line), key).Some?
    requires MatchWord(MatchKey(Chomp(line), key).value.rest, class_).Some?
    ensures var m := MatchKey(Chomp(line), key).value;
      IsKeyed(line, m.indent, key, a, MatchWord(m.rest, class_).value, b, class_)
  {
    var m := MatchKey(Chomp(line), key).value;
    KeyParts(Chomp(line), key);
    hide MatchKey, MatchWord, Chomp, AllSpace, IsKey;
    var end := ChompParts(line);
    MatchWordSound(m.rest, class_);
    var word := MatchWord(m.rest, class_).value;
    var before: string, after: string :| IsWordSplit(m.rest, before, word, after, class_);
    a, b := before, after + end;
    LineParts(m.indent, key, before, word, after, end);
    SpacesConcat(after, end);
  }

  lemma LineParts(indent: string, key: string, before: string, word: string, after: string, end: string)
    ensures (indent + (key + (before + (word + after)))) + end
         == indent + (key + (before + (word + (after + end))))
  {
    Regroup(indent, key + (before + (word + after)), end);
    Regroup(key, before + (word + after), end);
    Regroup(before, word + after, end);
    Regroup(word, after, end);
  }

  lemma SpacesConcat(a: string, b: string)
    requires AllSpace(a) && AllSpace(b)
    ensures AllSpace(a + b)
  {
  }

  lemma KeyParts(s: string, key: string)
    requires MatchKey(s, key).Some?
    ensures var m := MatchKey(s, key).value; s == m.indent + (key + m.rest) && AllSpace(m.indent)
  {
    var w := SpaceLen(s);
    SpaceLenSpaces(s);
    AtSlice(s, w, key);
    assert s == s[..w] + (s[w..w + |key|] + s[w + |key|..]);
  }

  /** A line names a data source by four blanks, `name:` and a word, with white space on either side of it. */
  lemma NameOfExactly(line: string, name: string)
    ensures NameOf(line) == Some(name) <==>
      exists indent: string, a: string, b: string ::
        IsKeyed(line, indent, "name:", a, name, b, WordClass) && |indent| == 4
  {
    hide MatchKey, MatchWord, Chomp, IsKeyed;
    assert IsKey("name:");
    if NameOf(line) == Some(name) {
      var a, b := MatchedIsKeyed(line, "name:", WordClass);
    }
    if indent: string, a: string, b: string :|
        IsKeyed(line, indent, "name:", a, name, b, WordClass) && |indent| == 4 {
      KeyedIsMatched(line, indent, "name:", a, name, b, WordClass, "name:");
    }
  }

  /** A start block line: `startBlock:` and digits. */
  lemma StartBlockExactly(line: string, indent: string, digits: string)
    ensures KindOf(line) == StartBlock(indent, digits) <==>
      exists a: string, b: string :: IsKeyed(line, indent, "startBlock:", a, digits, b, DigitClass)
  {
    hide MatchKey, MatchWord, MatchAddress, Chomp, IsKeyed;
    assert IsKey("startBlock:") && IsKey("address:");
    if KindOf(line) == StartBlock(indent, digits) {
      var a, b := MatchedIsKeyed(line, "startBlock:", DigitClass);
    }
    if a: string, b: string :| IsKeyed(line, indent, "startBlock:", a, digits, b, DigitClass) {
      KeyedIsMatched(line, indent, "startBlock:", a, digits, b, DigitClass, "address:");
      KeyedIsMatched(line, indent, "startBlock:", a, digits, b, DigitClass, "startBlock:");
    }
  }

  /** A network line: `network:` and a name of letters, digits, dots, dashes and underscores. */
  lemma NetworkExactly(line: string, indent: string, network: string)
    ensures KindOf(line) == Network(indent, network) <==>
      exists a: string, b: string :: IsKeyed(line, indent, "network:", a, network, b, NetworkClass)
  {
    hide MatchKey, MatchWord, MatchAddress, Chomp, IsKeyed;
    assert IsKey("startBlock:") && IsKey("address:") && IsKey("network:");
    if KindOf(line) == Network(indent, network) {
      var a, b := MatchedIsKeyed(line, "network:", NetworkClass);
    }
    if a: string, b: string :| IsKeyed(line, indent, "network:", a, network, b, NetworkClass) {
      KeyedIsMatched(line, indent, "network:", a, network, b, NetworkClass, "address:");
      KeyedIsMatched(line, indent, "network:", a, network, b, NetworkClass, "startBlock:");
      KeyedIsMatched(line, indent, "network:", a, network, b, NetworkClass, "network:");
    }
  }

  // ---------------------------------------------------------------------------
  // Addresses
  // ---------------------------------------------------------------------------

  /** An unquoted address is captured with the white space behind it, unless a quote closes it. */
  lemma BareCaptured(s: string, before: string, value: string, q2: string, after: string)
    requires IsAddressSplit(s, before, "", value, q2, after) && !IsSpace(value[0])
    ensures MatchAddress(s) == Some(if q2 == "" then value + after else value)
  {
    var k := |before|;
    assert s[..k] == before && s[k] == value[0];
    SpaceLenExact(s, k);
    var r := s[k..];
    assert r == value + (q2 + after);
    UnquotedRun(r, value, q2, after);
    var n := if q2 == "" then |r| else |value|;
    if q2 == "" {
      SpaceIsUnquoted(after);
      assert r[..n] == value + after;
    } else {
      assert r[..n] == value && r[n] == '"';
    }
    UnquotedLenExact(r, n);
  }

  /** The address pattern applies to a chomped line behind its key, and before the other patterns. */
  lemma AddressExactly(line: string, indent: string, rest: string, value: string)
    requires AllSpace(indent) && Chomp(line) == indent + ("address:" + rest)
    ensures KindOf(line) == Address(indent, value) <==> MatchAddress(rest) == Some(value)
    ensures KindOf(line).Address? <==>
      exists before: string, q1: string, v: string, q2: string, after: string ::
        IsAddressSplit(rest, before, q1, v, q2, after)
  {
    hide MatchKey, MatchWord, MatchAddress, Chomp, AllSpace, IsAddressSplit;
    assert IsKey("address:") && IsKey("startBlock:") && IsKey("network:");
    KeyedText(indent, "address:", rest, "address:");
    KeyedText(indent, "address:", rest, "startBlock:");
    KeyedText(indent, "address:", rest, "network:");
    MatchAddressExact(rest);
  }

  /** Without an indent and `address:` in front no line is an address line. */
  lemma OnlyAddresses(line: string)
    requires KindOf(line).Address?
    ensures AllSpace(KindOf(line).indent)
    ensures exists rest: string :: Chomp(line) == KindOf(line).indent + ("address:" + rest)
  {
    hide MatchWord, MatchAddress, Chomp, AllSpace, At;
    KeyParts(Chomp(line), ADDRESS_KEY);
  }

  /** A line's newlines are chomped, and nothing else. */
  lemma {:induction false} ChompExactly(body: string, n: nat)
    requires body == "" || body[|body| - 1] != '\n'
    ensures Chomp(body + seq(n, _ => '\n')) == body
    decreases n
  {
    var line := body + seq(n, _ => '\n');
    if n > 0 {
      assert line[..|line| - 1] == body + seq(n - 1, _ => '\n');
      ChompExactly(body, n - 1);
    } else {
      assert line == body;
    }
  }
}
