/**
 What the synchroniser makes of a single line, and that the line it writes is read back as the
 value written.
 */
module ManifestRewrite {
  import opened Text
  import opened Decimals
  import opened ManifestLines
  import opened ManifestSync

  /** The deployment of the active data source, if it is known and deployed. */
  function MetaOf(cfg: Config, ds: Option<string>): Option<Meta> {
    if IsKnown(cfg, ds) && cfg.nameMap[ds.value] in cfg.contracts then Some(cfg.contracts[cfg.nameMap[ds.value]])
    else None
  }

  function EditLine(cfg: Config, m: Meta, line: string): string {
    match KindOf(line)
    case Address(indent, _) => AddressLine(indent, Norm(m.address))
    case StartBlock(indent, _) => StartBlockLine(indent, m.startBlock)
    case Network(indent, _) => if cfg.network.None? then line else NetworkLine(indent, cfg.network.value)
    case Other => line
  }

  /** The line written for `line` while `ds` is the active data source. */
  function RewriteLine(cfg: Config, ds: Option<string>, line: string): string {
    if NameOf(line).Some? || MetaOf(cfg, ds).None? then line else EditLine(cfg, MetaOf(cfg, ds).value, line)
  }

  function Next(ds: Option<string>, line: string): Option<string> {
    if NameOf(line).Some? then NameOf(line) else ds
  }

  function RewriteAll(cfg: Config, ds: Option<string>, lines: seq<string>): seq<string>
    decreases |lines|
  {
    if lines == [] then [] else [RewriteLine(cfg, ds, lines[0])] + RewriteAll(cfg, Next(ds, lines[0]), lines[1..])
  }

  lemma StepWrites(cfg: Config, s: State, line: string)
    ensures Step(cfg, s, line).out == s.out + [RewriteLine(cfg, s.current, line)]
    ensures Step(cfg, s, line).current == Next(s.current, line)
  {
    hide NameOf, KindOf, Norm, AddressLine, StartBlockLine, NetworkLine, PrintInt, ValidationError;
  }

  lemma {:induction false} RunWrites(cfg: Config, s: State, lines: seq<string>)
    ensures Run(cfg, s, lines).out == s.out + RewriteAll(cfg, s.current, lines)
    decreases |lines|
  {
    hide Step, RewriteLine, Next;
    if lines != [] {
      StepWrites(cfg, s, lines[0]);
      RunWrites(cfg, Step(cfg, s, lines[0]), lines[1..]);
    }
  }

  lemma SyncWrites(cfg: Config, text: string)
    ensures Sync(cfg, text).text == Join(RewriteAll(cfg, None, SplitLines(text)))
  {
    hide SplitLines, Join, Run, RewriteAll;
    RunWrites(cfg, START, SplitLines(text));
    assert [] + RewriteAll(cfg, None, SplitLines(text)) == RewriteAll(cfg, None, SplitLines(text));
  }

  // ---------------------------------------------------------------------------
  // Reading a written line
  // ---------------------------------------------------------------------------

  predicate IsKey(key: string) {
    key == NAME_KEY || key == ADDRESS_KEY || key == START_BLOCK_KEY || key == NETWORK_KEY
  }

  lemma KeysDiffer(s: string, i: nat, key: string, other: string)
    requires IsKey(key) && IsKey(other) && At(s, i, key)
    ensures At(s, i, other) <==> other == key
  {
    if other != key && At(s, i, other) {
      AtChar(s, i, key, 0);
      AtChar(s, i, other, 0);
      AtChar(s, i, key, 1);
      AtChar(s, i, other, 1);
    }
  }

  lemma ChompNewline(body: string)
    requires NoBreaks(body)
    ensures Chomp(body + "\n") == body
  {
    var line := body + "\n";
    assert line[..|line| - 1] == body;
    assert Chomp(body) == body;
  }

  lemma IndentLen(indent: string, key: string, rest: string)
    requires AllSpace(indent) && IsKey(key)
    ensures SpaceLen(indent + (key + rest)) == |indent| && At(indent + (key + rest), |indent|, key)
  {
    var body := indent + (key + rest);
    assert body[|indent|] == key[0];
    assert body[..|indent|] == indent;
    SpaceLenExact(body, |indent|);
  }

  /** A line of white space, a key and a rest is matched by that key's pattern only. */
  lemma KeyedLine(indent: string, key: string, rest: string, other: string)
    requires AllSpace(indent) && IsKey(key) && IsKey(other) && NoBreaks(indent + (key + rest))
    ensures MatchKey(Chomp(indent + (key + rest) + "\n"), other)
         == if other == key then Some(Keyed(indent, rest)) else None
  {
    hide MatchKey, Chomp, IsKey;
    ChompNewline(indent + (key + rest));
    KeyedText(indent, key, rest, other);
  }

  lemma KeyedText(indent: string, key: string, rest: string, other: string)
    requires AllSpace(indent) && IsKey(key) && IsKey(other)
    ensures MatchKey(indent + (key + rest), other) == if other == key then Some(Keyed(indent, rest)) else None
  {
    hide SpaceLen, IsKey, At;
    var body := indent + (key + rest);
    IndentLen(indent, key, rest);
    KeysDiffer(body, |indent|, key, other);
    assert body[..|indent|] == indent;
    DropSum(body, 0, indent, key + rest);
    DropSum(body, |indent|, key, rest);
  }

  lemma NoBreaksConcat(a: string, b: string)
    requires NoBreaks(a) && NoBreaks(b)
    ensures NoBreaks(a + b)
  {
  }

  lemma KeyHasNoBreaks(key: string)
    requires IsKey(key)
    ensures NoBreaks(key)
  {
  }

  lemma BodyHasNoBreaks(indent: string, key: string, rest: string)
    requires IsKey(key) && NoBreaks(indent) && NoBreaks(rest)
    ensures NoBreaks(indent + (key + rest))
  {
    KeyHasNoBreaks(key);
    NoBreaksConcat(key, rest);
    NoBreaksConcat(indent, key + rest);
  }

  /** A quoted value between a blank and the end of the line. */
  lemma QuotedValue(value: string)
    ensures MatchAddress(" \"" + (value + "\"")) == if value != "" && '"' !in value then Some(value) else None
  {
    hide MatchAddress;
    var s := " \"" + (value + "\"");
    if value != "" && '"' !in value {
      assert s == " " + ("\"" + (value + ("\"" + "")));
      assert IsAddressSplit(s, " ", "\"", value, "\"", "");
      QuotedAddressMatches(s, " ", value, "\"", "");
    } else {
      UnmatchedValue(value);
    }
  }

  lemma UnmatchedValue(value: string)
    requires value == "" || '"' in value
    ensures MatchAddress(" \"" + (value + "\"")) == None
  {
    hide UnquotedLen, SpaceLen, IsClosing;
    var s := " \"" + (value + "\"");
    assert s[..1] == " " && s[1] == '"';
    SpaceLenExact(s, 1);
    var r := s[2..];
    assert r == value + "\"" && s[1..] != "" && s[1..] != "\"" by {
      assert |s| > 2;
    }
    UnclosedValue(r, value);
  }

  /** Behind the opening quote, a value that is empty or holds a quote cannot be captured. */
  lemma UnclosedValue(r: string, value: string)
    requires r == value + "\"" && (value == "" || '"' in value)
    ensures UnquotedLen(r) == 0 || !IsClosing(r[UnquotedLen(r)..])
    ensures r != ""
  {
    var n := UnquotedLen(r);
    if value != "" {
      var j :| 0 <= j < |value| && value[j] == '"';
      assert r[j] == '"';
      UnquotedLenAtMost(r, j);
      var tail := r[n..];
      assert tail[|tail| - 1] == '"' && |tail| > 1;
      assert tail[1..][|tail| - 2] == '"';
    }
  }

  /** A written address line is read back as the address written exactly when a value stands in it. */
  lemma AddressReadBack(indent: string, value: string)
    requires AllSpace(indent) && NoBreaks(indent) && NoBreaks(value)
    ensures var line := AddressLine(indent, value);
      && IsLine(line) && NameOf(line) == None
      && KindOf(line) == if value != "" && '"' !in value then Address(indent, value) else Other
  {
    var rest := " \"" + (value + "\"");
    assert NoBreaks(rest) by {
      NoBreaksConcat(value, "\"");
      NoBreaksConcat(" \"", value + "\"");
    }
    BodyHasNoBreaks(indent, ADDRESS_KEY, rest);
    NewlineLine(indent + (ADDRESS_KEY + rest));
    hide MatchKey, MatchAddress, Chomp;
    KeyedLine(indent, ADDRESS_KEY, rest, NAME_KEY);
    KeyedLine(indent, ADDRESS_KEY, rest, ADDRESS_KEY);
    KeyedLine(indent, ADDRESS_KEY, rest, START_BLOCK_KEY);
    KeyedLine(indent, ADDRESS_KEY, rest, NETWORK_KEY);
    QuotedValue(value);
  }

  lemma BlankThenWord(word: string, class_: Class)
    requires word != "" && AllIn(word, class_)
    ensures MatchWord(" " + word, class_) == Some(word)
  {
    assert " " + word == " " + (word + "");
    assert IsWordSplit(" " + word, " ", word, "", class_);
    MatchWordSplit(" " + word, " ", word, "", class_);
  }

  lemma DigitsAreWord(s: string)
    requires AllDigits(s)
    ensures AllIn(s, DigitClass) && NoBreaks(s)
  {
    forall k | 0 <= k < |s| ensures InClass(s[k], DigitClass) && !IsBreak(s[k]) {
      assert IsDigit(s[k]);
    }
  }

  lemma NegativeIsNoWord(s: string)
    requires s != "" && s[0] == '-'
    ensures MatchWord(" " + s, DigitClass) == None
  {
    var t := " " + s;
    assert t[..1] == " ";
    SpaceLenExact(t, 1);
    assert t[1..] == s;
  }

  /** A written start block line is read back as the number written exactly when it is not negative. */
  lemma StartBlockReadBack(indent: string, n: int)
    requires AllSpace(indent) && NoBreaks(indent)
    ensures var line := StartBlockLine(indent, n);
      && IsLine(line) && NameOf(line) == None
      && KindOf(line) == if n >= 0 then StartBlock(indent, PrintInt(n)) else Other
  {
    var word := PrintInt(n);
    var rest := " " + word;
    PrintNatIsDigits(if n < 0 then -n else n);
    assert NoBreaks(rest) by {
      if n < 0 {
        DigitsAreWord(PrintNat(-n));
        NoBreaksConcat("-", PrintNat(-n));
      } else {
        DigitsAreWord(word);
      }
      NoBreaksConcat(" ", word);
    }
    BodyHasNoBreaks(indent, START_BLOCK_KEY, rest);
    NewlineLine(indent + (START_BLOCK_KEY + rest));
    if n < 0 {
      NegativeIsNoWord(word);
    } else {
      DigitsAreWord(word);
      BlankThenWord(word, DigitClass);
    }
    hide MatchKey, MatchWord, Chomp, PrintInt;
    KeyedLine(indent, START_BLOCK_KEY, rest, NAME_KEY);
    KeyedLine(indent, START_BLOCK_KEY, rest, ADDRESS_KEY);
    KeyedLine(indent, START_BLOCK_KEY, rest, START_BLOCK_KEY);
    KeyedLine(indent, START_BLOCK_KEY, rest, NETWORK_KEY);
  }

  /** A line that names a data source. */
  function NameLine(name: string): string { "    " + (NAME_KEY + (" " + name)) + "\n" }

  lemma NameLineNames(name: string)
    requires name != "" && AllIn(name, WordClass)
    ensures IsLine(NameLine(name)) && NameOf(NameLine(name)) == Some(name)
    ensures BodyLen(NameLine(name)) < |NameLine(name)|
    ensures NameLine(name)[0] == ' ' && NameLine(name)[|NameLine(name)| - 1] == '\n'
  {
    assert NoBreaks(" " + name) by {
      forall k | 0 <= k < |name| ensures !IsBreak(name[k]) {
        assert InClass(name[k], WordClass);
      }
      NoBreaksConcat(" ", name);
    }
    BodyHasNoBreaks("    ", NAME_KEY, " " + name);
    NewlineLine("    " + (NAME_KEY + (" " + name)));
    hide MatchKey, MatchWord, Chomp;
    KeyedLine("    ", NAME_KEY, " " + name, NAME_KEY);
    BlankThenWord(name, WordClass);
  }

  predicate IsNetworkName(s: string) { s != "" && AllIn(s, NetworkClass) }

  lemma NetworkReadBack(indent: string, network: string)
    requires AllSpace(indent) && NoBreaks(indent) && IsNetworkName(network)
    ensures var line := NetworkLine(indent, network);
      && IsLine(line) && NameOf(line) == None && KindOf(line) == Network(indent, network)
  {
    var rest := " " + network;
    assert NoBreaks(rest) by {
      forall k | 0 <= k < |network| ensures !IsBreak(network[k]) {
        assert InClass(network[k], NetworkClass);
      }
      NoBreaksConcat(" ", network);
    }
    BodyHasNoBreaks(indent, NETWORK_KEY, rest);
    NewlineLine(indent + (NETWORK_KEY + rest));
    BlankThenWord(network, NetworkClass);
    hide MatchKey, MatchWord, Chomp;
    KeyedLine(indent, NETWORK_KEY, rest, NAME_KEY);
    KeyedLine(indent, NETWORK_KEY, rest, ADDRESS_KEY);
    KeyedLine(indent, NETWORK_KEY, rest, START_BLOCK_KEY);
    KeyedLine(indent, NETWORK_KEY, rest, NETWORK_KEY);
  }

  // ---------------------------------------------------------------------------
  // Indents
  // ---------------------------------------------------------------------------

  lemma {:induction false} ChompPrefix(line: string)
    ensures |Chomp(line)| <= |line| && Chomp(line) == line[..|Chomp(line)|]
    decreases |line|
  {
    if line != "" && line[|line| - 1] == '\n' {
      var init := line[..|line| - 1];
      ChompPrefix(init);
      assert init[..|Chomp(init)|] == line[..|Chomp(init)|];
    }
  }

  /** In a line, what stands before a character that is no break holds no break. */
  lemma BeforeNonBreak(line: string, w: nat)
    requires IsLine(line) && w < |line| && !IsBreak(line[w])
    ensures NoBreaks(line[..w])
  {
    var b := BodyLen(line);
    BodyFree(line);
    assert w < b;
    assert forall j | 0 <= j < w :: line[..w][j] == line[..b][j];
  }

  lemma IndentOf(line: string, key: string)
    requires IsLine(line) && IsKey(key) && MatchKey(Chomp(line), key).Some?
    ensures var m := MatchKey(Chomp(line), key).value;
      AllSpace(m.indent) && NoBreaks(m.indent) && (line[0] == (m.indent + key)[0])
  {
    var t := Chomp(line);
    var w := SpaceLen(t);
    ChompPrefix(line);
    AtChar(t, w, key, 0);
    SpaceLenSpaces(t);
    assert line[w] == t[w] && t[..w] == line[..w];
    BeforeNonBreak(line, w);
    if w > 0 {
      assert t[..w][0] == line[0];
    }
  }

  /** The indent a pattern captures in a line is white space without breaks. */
  lemma KindIndent(line: string)
    requires IsLine(line) && KindOf(line) != Other
    ensures AllSpace(KindOf(line).indent) && NoBreaks(KindOf(line).indent)
    ensures line[0] == (KindOf(line).indent + KeyOf(KindOf(line)))[0]
  {
    hide MatchKey, MatchAddress, MatchWord, Chomp, IsLine;
    if AddressKind(line) != Other {
      IndentOf(line, ADDRESS_KEY);
    } else if StartBlockKind(line) != Other {
      IndentOf(line, START_BLOCK_KEY);
    } else {
      IndentOf(line, NETWORK_KEY);
    }
  }

  function KeyOf(kind: Kind): string {
    match kind
    case Address(_, _) => ADDRESS_KEY
    case StartBlock(_, _) => START_BLOCK_KEY
    case Network(_, _) => NETWORK_KEY
    case Other => ""
  }

  // ---------------------------------------------------------------------------
  // Addresses are normalised once
  // ---------------------------------------------------------------------------

  lemma LowerKeepsSpace(c: char)
    ensures IsSpace(LowerChar(c)) == IsSpace(c) && LowerChar(LowerChar(c)) == LowerChar(c)
  {
  }

  predicate IsStripped(s: string) {
    s == "" || (!IsSpace(s[0]) && !IsSpace(s[|s| - 1]))
  }

  lemma {:induction false} StripRightEnds(s: string)
    ensures StripRight(s) != "" ==> !IsSpace(StripRight(s)[|StripRight(s)| - 1]) && StripRight(s)[0] == s[0]
    decreases |s|
  {
    if s != "" && IsSpace(s[|s| - 1]) {
      StripRightEnds(s[..|s| - 1]);
    }
  }

  lemma {:induction false} StripLeftStarts(s: string)
    ensures StripLeft(s) != "" ==> !IsSpace(StripLeft(s)[0])
    decreases |s|
  {
    if s != "" && IsSpace(s[0]) {
      StripLeftStarts(s[1..]);
    }
  }

  lemma NormIsStripped(address: string)
    ensures IsStripped(Norm(address))
    ensures Lower(Norm(address)) == Norm(address)
  {
    var t := Strip(address);
    StripLeftStarts(address);
    StripRightEnds(StripLeft(address));
    var n := Norm(address);
    forall k | 0 <= k < |n| ensures IsSpace(n[k]) == IsSpace(t[k]) && LowerChar(n[k]) == n[k] {
      LowerKeepsSpace(t[k]);
    }
  }

  /** `_norm_addr` is idempotent. */
  lemma NormTwice(address: string)
    ensures Norm(Norm(address)) == Norm(address)
  {
    NormIsStripped(address);
    var n := Norm(address);
    assert StripLeft(n) == n && StripRight(n) == n;
  }
}
