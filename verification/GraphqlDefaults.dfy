/**
 A default value that is an object, before an operation's selection set.

 The extractor takes its brace for the selection set's. What it then lists is stated for every such
 object: of numbers, strings, enumeration values, lists and nested objects alike.
 */
module GraphqlDefaults {
  import opened Text
  import opened GraphqlScanner
  import opened GraphqlLexemes
  import opened GraphqlPrinter

  /** A name, a colon, a nested object, or one character of a number, a string or a list. */
  datatype Token = Word(name: string) | Colon | Mark(c: char) | Object(body: seq<Lexeme>)

  datatype Item = Item(lead: seq<Trivia>, token: Token)

  // ---------------------------------------------------------------------------
  // Printing
  // ---------------------------------------------------------------------------

  function PrintToken(t: Token): (s: string)
    ensures t.Word? || s != ""
  {
    match t
    case Word(name) => name
    case Colon => ":"
    case Mark(c) => [c]
    case Object(body) => PrintGroup('{', body, '}')
  }

  function PrintItem(x: Item): string { PrintTrivia(x.lead) + PrintToken(x.token) }

  function PrintItems(xs: seq<Item>): string {
    if xs == [] then "" else PrintItem(xs[0]) + PrintItems(xs[1..])
  }

  // ---------------------------------------------------------------------------
  // Well-formed objects
  // ---------------------------------------------------------------------------

  /** A character that opens, closes and separates nothing, and starts no name. */
  predicate IsMark(c: char) { !IsNameStart(c) && !IsSpace(c) && c !in ",#:{}(@" }

  /** A string in a nested object holds no brace and no `#`. */
  predicate IsSmooth(t: Lexeme) {
    t.Quoted? || t.Block? ==> forall c | c in PrintLexeme(t) :: c !in "{}#"
  }

  predicate WfToken(t: Token) {
    match t
    case Word(name) => IsName(name)
    case Colon => true
    case Mark(c) => IsMark(c)
    case Object(body) => Enclosed(body, '{', '}') && forall l | l in body :: IsSmooth(l)
  }

  predicate WfItem(x: Item) { WfTrivia(x.lead) && WfToken(x.token) }

  /** Two names, or a name and a digit, are set off from each other. */
  predicate AreApart(x: Item, y: Item) {
    x.token.Word? && (y.token.Word? || (y.token.Mark? && IsDigit(y.token.c))) ==> y.lead != []
  }

  predicate WfItems(xs: seq<Item>) {
    xs == [] || (WfItem(xs[0]) && (|xs| > 1 ==> AreApart(xs[0], xs[1])) && WfItems(xs[1..]))
  }

  /** No spread stands in the text from `i` to `j`. */
  predicate Dotless(s: string, i: nat, j: nat) { forall k: nat | i <= k < j :: !At(s, k, "...") }

  // ---------------------------------------------------------------------------
  // What is listed
  // ---------------------------------------------------------------------------

  /** A key is not listed; of what follows its colon only a name is, and an object behind a name is skipped. */
  function Listed(xs: seq<Item>): seq<string>
    decreases |xs|, 0
  {
    if xs == [] then []
    else if !xs[0].token.Word? then Listed(xs[1..])
    else if |xs| == 1 || !xs[1].token.Colon? then Shown(xs[0].token.name) + ListedBehind(xs[1..])
    else if |xs| == 2 || !xs[2].token.Word? then Listed(xs[2..])
    else Shown(xs[2].token.name) + ListedBehind(xs[3..])
  }

  function ListedBehind(xs: seq<Item>): seq<string>
    decreases |xs|, 1
  {
    if xs != [] && xs[0].token.Object? then Listed(xs[1..]) else Listed(xs)
  }

  /** An object of numbers and nested objects lists nothing: its only names are keys. */
  lemma {:induction false} KeysAreNotListed(xs: seq<Item>)
    requires forall k | 0 <= k < |xs| && xs[k].token.Word? ::
      k + 1 < |xs| && xs[k + 1].token.Colon? && (k + 2 < |xs| ==> !xs[k + 2].token.Word?)
    ensures Listed(xs) == []
    decreases |xs|
  {
    if xs != [] {
      var n := if xs[0].token.Word? then 2 else 1;
      var rest := xs[n..];
      assert forall k | 0 <= k < |rest| :: rest[k] == xs[k + n];
      KeysAreNotListed(rest);
    }
  }

  // ---------------------------------------------------------------------------
  // Nested objects
  // ---------------------------------------------------------------------------

  /** Inside a nested object one character is passed over at a time. */
  lemma DeepChar(src: string, i: nat, depth: int)
    requires i < |src| && depth >= 2 && src[i] != '#' && !At(src, i, "...")
    ensures FieldsFrom(src, i, depth)
         == FieldsFrom(src, i + 1, depth + if src[i] == '{' then 1 else if src[i] == '}' then -1 else 0)
  {
    hide At;
    if src[i] == ',' || IsSpace(src[i]) {
      hide FieldsFrom;
      FieldsFromSkipsWs(src, i, depth);
      FieldsFromSkipsWs(src, i + 1, depth);
    } else {
      hide WsEnd, SpreadEnd, FieldStep, ReadName;
      NoWsAt(src, i);
      assert TurnAt(src, i, depth)
          == Go([], i + 1, depth + if src[i] == '{' then 1 else if src[i] == '}' then -1 else 0);
    }
  }

  lemma NoWsAt(src: string, i: nat)
    requires i < |src| && src[i] != '#' && src[i] != ',' && !IsSpace(src[i])
    ensures WsEnd(src, i) == i
  {
  }

  lemma {:induction false} DeepText(src: string, i: nat, text: string, depth: int)
    requires depth >= 2 && At(src, i, text) && forall c | c in text :: c !in "{}#"
    requires Dotless(src, i, i + |text|)
    ensures FieldsFrom(src, i, depth) == FieldsFrom(src, i + |text|, depth)
    decreases |text|
  {
    hide FieldsFrom;
    if text != "" {
      assert text == [text[0]] + text[1..];
      AtSplit(src, i, [text[0]], text[1..]);
      AtChar(src, i, text, 0);
      assert text[0] in text;
      DeepChar(src, i, depth);
      DeepText(src, i + 1, text[1..], depth);
    }
  }

  lemma DeepLexeme(src: string, i: nat, t: Lexeme, depth: int)
    requires depth >= 2 && WfLexeme(t) && IsSmooth(t) && At(src, i, PrintLexeme(t))
    requires Dotless(src, i, i + |PrintLexeme(t)|)
    ensures FieldsFrom(src, i, depth)
         == FieldsFrom(src, i + |PrintLexeme(t)|, depth + Change(t, '{', '}'))
  {
    hide FieldsFrom;
    match t {
      case Plain(c) =>
        AtChar(src, i, [c], 0);
        DeepChar(src, i, depth);
      case Comment(text) =>
        WsEndOverTrivium(src, i, Remark(text));
        FieldsFromSkipsWs(src, i, depth);
        FieldsFromSkipsWs(src, i + |PrintLexeme(t)|, depth);
      case Quoted(_, _) => DeepText(src, i, PrintLexeme(t), depth);
      case Block(_) => DeepText(src, i, PrintLexeme(t), depth);
    }
  }

  lemma {:induction false} DeepLexemes(src: string, i: nat, ts: seq<Lexeme>, depth: int)
    requires Wf(ts) && StaysOpen(ts, '{', '}', depth) && forall l | l in ts :: IsSmooth(l)
    requires At(src, i, Print(ts)) && NoQuoteAt(src, i + |Print(ts)|)
    requires Dotless(src, i, i + |Print(ts)|)
    ensures FieldsFrom(src, i, depth + 1) == FieldsFrom(src, i + |Print(ts)|, Depth(ts, '{', '}', depth) + 1)
    decreases |ts|
  {
    hide FieldsFrom, Wf, StaysOpen, PrintLexeme, IsSmooth, At;
    if ts == [] {
      assert Print(ts) == "";
    } else {
      hide Print, Depth;
      Uncons(src, i, ts);
      StaysOpenCons(ts, '{', '}', depth);
      IsOpen(ts, depth);
      DeepLexeme(src, i, ts[0], depth + 1);
      DeepLexemes(src, i + |PrintLexeme(ts[0])|, ts[1..], depth + Change(ts[0], '{', '}'));
    }
  }

  lemma IsOpen(ts: seq<Lexeme>, depth: int)
    requires StaysOpen(ts, '{', '}', depth)
    ensures depth >= 1
  {
  }

  /** A nested object that stands where the loop does is passed over whole. */
  lemma ObjectPassed(src: string, i: nat, body: seq<Lexeme>)
    requires WfToken(Object(body)) && At(src, i, PrintGroup('{', body, '}'))
    requires Dotless(src, i, i + |PrintGroup('{', body, '}')|)
    ensures FieldsFrom(src, i, 1) == FieldsFrom(src, i + |PrintGroup('{', body, '}')|, 1)
  {
    hide FieldsFrom, Wf, StaysOpen, Print, IsSmooth, Depth;
    var e := i + 1 + |Print(body)|;
    assert PrintGroup('{', body, '}') == "{" + (Print(body) + "}");
    AtSplit(src, i, "{", Print(body) + "}");
    AtSplit(src, i + 1, Print(body), "}");
    AtChar(src, i, "{", 0);
    AtChar(src, e, "}", 0);
    Opened(src, i);
    DeepLexemes(src, i + 1, body, 1);
    DeepChar(src, e, 2);
  }

  lemma Opened(src: string, i: nat)
    requires i < |src| && src[i] == '{'
    ensures FieldsFrom(src, i, 1) == FieldsFrom(src, i + 1, 2)
  {
    hide WsEnd, FieldStep, SpreadEnd, At;
    NotDots(src, i);
    NoWsAt(src, i);
    assert TurnAt(src, i, 1) == Go([], i + 1, 2);
  }

  // ---------------------------------------------------------------------------
  // The items of an object
  // ---------------------------------------------------------------------------

  /** A character that starts no name is passed over. */
  lemma CharPassed(src: string, i: nat, c: char)
    requires (IsMark(c) || c == ':') && At(src, i, [c]) && !At(src, i, "...")
    ensures FieldsFrom(src, i, 1) == FieldsFrom(src, i + 1, 1)
  {
    hide WsEnd, FieldStep, SpreadEnd, At;
    AtChar(src, i, [c], 0);
    NoWsAt(src, i);
    assert TurnAt(src, i, 1) == Go([], i + 1, 1);
  }

  /** The first character of a token, or of the closing brace. */
  predicate StartsLike(c: char, xs: seq<Item>) {
    if xs == [] then c == '}'
    else match xs[0].token
      case Word(_) => IsNameStart(c)
      case Colon => c == ':'
      case Mark(m) => c == m
      case Object(_) => c == '{'
  }

  /** `xs` stand at `i`, and behind them the closing brace. */
  predicate Stands(src: string, i: nat, xs: seq<Item>, trail: seq<Trivia>) {
    && WfItems(xs) && WfTrivia(trail) && At(src, i, PrintItems(xs))
    && At(src, i + |PrintItems(xs)|, PrintTrivia(trail) + "}")
    && Dotless(src, i, i + |PrintItems(xs)|)
  }

  /** Where the token of the first item stands. */
  function TokenAt(i: nat, xs: seq<Item>): nat
    requires xs != []
  {
    i + |PrintTrivia(xs[0].lead)|
  }

  lemma ItemsCons(src: string, i: nat, xs: seq<Item>)
    requires xs != [] && At(src, i, PrintItems(xs))
    ensures var k := TokenAt(i, xs);
      && At(src, i, PrintTrivia(xs[0].lead)) && At(src, k, PrintToken(xs[0].token))
      && At(src, k + |PrintToken(xs[0].token)|, PrintItems(xs[1..]))
      && i + |PrintItems(xs)| == k + |PrintToken(xs[0].token)| + |PrintItems(xs[1..])|
  {
    hide At, PrintTrivia, PrintToken;
    AtSplit(src, i, PrintItem(xs[0]), PrintItems(xs[1..]));
    AtSplit(src, i, PrintTrivia(xs[0].lead), PrintToken(xs[0].token));
  }

  lemma StandsCons(src: string, i: nat, xs: seq<Item>, trail: seq<Trivia>)
    requires Stands(src, i, xs, trail) && xs != []
    ensures var k := TokenAt(i, xs);
      && WfItem(xs[0]) && At(src, i, PrintTrivia(xs[0].lead)) && At(src, k, PrintToken(xs[0].token))
      && Dotless(src, k, k + |PrintToken(xs[0].token)|)
      && Stands(src, k + |PrintToken(xs[0].token)|, xs[1..], trail)
      && (|xs| > 1 ==> AreApart(xs[0], xs[1]))
  {
    hide At, PrintTrivia, PrintToken, PrintItem, PrintItems, WfTrivia, WfToken, AreApart;
    ItemsCons(src, i, xs);
  }

  /** Ignored tokens, and then the first character of what follows. */
  lemma NextStart(src: string, i: nat, xs: seq<Item>, trail: seq<Trivia>)
    requires Stands(src, i, xs, trail)
    ensures var k := WsEnd(src, i);
      && k < |src| && StartsLike(src[k], xs)
      && (xs != [] ==> k == TokenAt(i, xs))
      && (NoNameAt(src, i) || (xs != [] && xs[0].lead == [] && IsNameChar(src[k])))
  {
    hide WsEnd, PrintTrivia, WfTrivia;
    if xs == [] {
      assert PrintItems(xs) == "";
      AtSplit(src, i, PrintTrivia(trail), "}");
      AtChar(src, i + |PrintTrivia(trail)|, "}", 0);
      TriviaThen(src, i, trail, '}');
    } else {
      StandsCons(src, i, xs, trail);
      var k := TokenAt(i, xs);
      TokenStart(src, k, xs[0].token);
      TriviaThen(src, i, xs[0].lead, src[k]);
      if xs[0].lead != [] {
        TriviaStart(src, i, xs[0].lead);
      }
    }
  }

  lemma TokenStart(src: string, k: nat, t: Token)
    requires WfToken(t) && At(src, k, PrintToken(t))
    ensures k < |src| && StartsLike(src[k], [Item([], t)])
    ensures src[k] != '#' && src[k] != ',' && !IsSpace(src[k])
  {
    hide Enclosed;
    AtChar(src, k, PrintToken(t), 0);
  }

  /** Behind a name, up to the end of its tail: a nested object there is skipped. */
  lemma BehindName(src: string, i: nat, xs: seq<Item>, trail: seq<Trivia>)
    requires Stands(src, i, xs, trail)
    ensures xs == [] || !xs[0].token.Colon? ==> NoColonAfter(src, i)
    ensures if xs != [] && xs[0].token.Object?
      then FieldsFrom(src, TailEnd(src, i), 1)
        == FieldsFrom(src, TokenAt(i, xs) + |PrintToken(xs[0].token)|, 1)
      else FieldsFrom(src, TailEnd(src, i), 1) == FieldsFrom(src, i, 1)
  {
    hide WsEnd, FieldsFrom, BalancedEnd, PrintTrivia, Enclosed, Print, PrintItems, WfTrivia;
    NextStart(src, i, xs, trail);
    WsEndTwice(src, i);
    if xs != [] && xs[0].token.Object? {
      StandsCons(src, i, xs, trail);
      SkipBalancedExact(src, TokenAt(i, xs), '{', xs[0].token.body, '}');
    } else {
      FieldsFromSkipsWs(src, i, 1);
    }
  }

  /** The first item is no name: it contributes nothing. */
  lemma PassedOver(src: string, i: nat, xs: seq<Item>, trail: seq<Trivia>)
    requires Stands(src, i, xs, trail) && xs != [] && !xs[0].token.Word?
    ensures FieldsFrom(src, i, 1) == FieldsFrom(src, TokenAt(i, xs) + |PrintToken(xs[0].token)|, 1)
  {
    hide WsEnd, FieldsFrom, PrintTrivia, Enclosed, Print, PrintItems, WfTrivia;
    StandsCons(src, i, xs, trail);
    var k := TokenAt(i, xs);
    NextStart(src, i, xs, trail);
    FieldsFromSkipsWs(src, i, 1);
    match xs[0].token {
      case Colon => CharPassed(src, k, ':');
      case Mark(c) => CharPassed(src, k, c);
      case Object(body) => ObjectPassed(src, k, body);
    }
  }

  /** A name ends where the next item starts. */
  lemma NameEnds(src: string, i: nat, xs: seq<Item>, trail: seq<Trivia>)
    requires xs != [] && xs[0].token.Word? && Stands(src, i, xs[1..], trail)
    requires |xs| > 1 ==> AreApart(xs[0], xs[1])
    ensures NoNameAt(src, i)
  {
    hide WsEnd, PrintTrivia, PrintItems;
    NextStart(src, i, xs[1..], trail);
  }

  lemma WordListed(src: string, i: nat, xs: seq<Item>, trail: seq<Trivia>)
    requires Stands(src, i, xs, trail) && xs != [] && xs[0].token.Word?
    requires |xs| == 1 || !xs[1].token.Colon?
    ensures var name := xs[0].token.name;
      FieldsFrom(src, i, 1) == Shown(name) + FieldsFrom(src, TailEnd(src, TokenAt(i, xs) + |name|), 1)
  {
    hide WsEnd, FieldsFrom, PrintTrivia, PrintItems, WfTrivia, TailEnd, Shown;
    StandsCons(src, i, xs, trail);
    var k, name := TokenAt(i, xs), xs[0].token.name;
    NextStart(src, i, xs, trail);
    FieldsFromSkipsWs(src, i, 1);
    NameEnds(src, k + |name|, xs, trail);
    BehindName(src, k + |name|, xs[1..], trail);
    NameReported(src, k, name);
  }

  /** A key's place, its colon's place, and the place behind the colon. */
  lemma KeyStands(src: string, i: nat, xs: seq<Item>, trail: seq<Trivia>)
    requires Stands(src, i, xs, trail) && |xs| > 1 && xs[0].token.Word? && xs[1].token.Colon?
    ensures var k, name := TokenAt(i, xs), xs[0].token.name;
      var j := k + |name| + |PrintTrivia(xs[1].lead)|;
      && WsEnd(src, i) == k < |src| && At(src, k, name) && IsName(name) && WfTrivia(xs[1].lead)
      && At(src, k + |name|, PrintTrivia(xs[1].lead)) && At(src, j, ":") && WsEnd(src, k + |name|) == j
      && ReadName(src, k) == Some(Read(name, k + |name|))
      && Stands(src, j + 1, xs[2..], trail)
  {
    hide WsEnd, PrintTrivia, PrintItems, WfTrivia, At, ReadName, StartsLike;
    StandsCons(src, i, xs, trail);
    NextStart(src, i, xs, trail);
    var k, name := TokenAt(i, xs), xs[0].token.name;
    StandsCons(src, k + |name|, xs[1..], trail);
    NextStart(src, k + |name|, xs[1..], trail);
    NameEnds(src, k + |name|, xs, trail);
    ReadNameExact(src, k, name);
    assert xs[1..][1..] == xs[2..];
  }

  /** A key whose value is no name: the loop goes on behind the colon. */
  lemma KeyPassed(src: string, i: nat, xs: seq<Item>, trail: seq<Trivia>)
    requires Stands(src, i, xs, trail) && |xs| > 1 && xs[0].token.Word? && xs[1].token.Colon?
    requires |xs| == 2 || !xs[2].token.Word?
    ensures var e := TokenAt(i, xs) + |xs[0].token.name| + |PrintTrivia(xs[1].lead)| + 1;
      e <= |src| && FieldsFrom(src, i, 1) == FieldsFrom(src, e, 1)
  {
    hide WsEnd, FieldsFrom, PrintTrivia, PrintItems, WfTrivia;
    KeyStands(src, i, xs, trail);
    var k, name := TokenAt(i, xs), xs[0].token.name;
    var j := k + |name| + |PrintTrivia(xs[1].lead)|;
    AtChar(src, j, ":", 0);
    NextStart(src, j + 1, xs[2..], trail);
    FieldsFromSkipsWs(src, i, 1);
    NoAliasStep(src, Read(name, k + |name|), j);
    FieldTurn(src, k, Read(name, k + |name|), Step([], j + 1));
  }

  lemma NoAliasStep(src: string, first: Read, j: nat)
    requires first.end <= |src| && WsEnd(src, first.end) == j < |src| && src[j] == ':'
    requires NoNameAfter(src, j + 1)
    ensures FieldStep(src, first) == Step([], j + 1)
  {
    hide WsEnd;
  }

  lemma AliasStep(src: string, first: Read, j: nat, k: nat, second: Read)
    requires first.end <= |src| && WsEnd(src, first.end) == j < |src| && src[j] == ':'
    requires WsEnd(src, j + 1) == k && ReadName(src, k) == Some(second)
    ensures second.end <= |src| && FieldStep(src, first) == Step(Shown(second.name), TailEnd(src, second.end))
  {
    hide WsEnd, ReadName, TailEnd, Shown, Reportable;
    ReportableIsShown(second.name);
  }

  /** A key whose value is a name: that name is listed. */
  lemma ValueListed(src: string, i: nat, xs: seq<Item>, trail: seq<Trivia>)
    requires Stands(src, i, xs, trail) && |xs| > 2
    requires xs[0].token.Word? && xs[1].token.Colon? && xs[2].token.Word?
    ensures var j := TokenAt(i, xs) + |xs[0].token.name| + |PrintTrivia(xs[1].lead)| + 1;
      var e := TokenAt(j, xs[2..]) + |xs[2].token.name|;
      && e <= |src| && Stands(src, e, xs[3..], trail)
      && FieldsFrom(src, i, 1) == Shown(xs[2].token.name) + FieldsFrom(src, TailEnd(src, e), 1)
  {
    hide WsEnd, FieldsFrom, PrintTrivia, PrintItems, WfTrivia, TailEnd, Shown, StartsLike, ReadName, FieldStep,
      Stands;
    KeyStands(src, i, xs, trail);
    var k, name := TokenAt(i, xs), xs[0].token.name;
    var j := k + |name| + |PrintTrivia(xs[1].lead)| + 1;
    StandsCons(src, j, xs[2..], trail);
    NextStart(src, j, xs[2..], trail);
    var l, value := TokenAt(j, xs[2..]), xs[2].token.name;
    NameEnds(src, l + |value|, xs[2..], trail);
    ReadNameExact(src, l, value);
    FieldsFromSkipsWs(src, i, 1);
    AtChar(src, j - 1, ":", 0);
    AliasStep(src, Read(name, k + |name|), j - 1, l, Read(value, l + |value|));
    FieldTurn(src, k, Read(name, k + |name|), Step(Shown(value), TailEnd(src, l + |value|)));
    assert xs[2..][1..] == xs[3..];
  }

  /** What the main loop lists of an object's items, up to the closing brace. */
  lemma {:induction false} ItemsListed(src: string, i: nat, xs: seq<Item>, trail: seq<Trivia>)
    requires Stands(src, i, xs, trail)
    ensures FieldsFrom(src, i, 1) == Listed(xs)
    decreases |xs|, 0
  {
    hide WsEnd, FieldsFrom, PrintTrivia, PrintGroup, PrintItems, Stands, TailEnd, Shown;
    if xs == [] {
      ObjectCloses(src, i, trail);
    } else if !xs[0].token.Word? {
      StandsCons(src, i, xs, trail);
      PassedOver(src, i, xs, trail);
      ItemsListed(src, TokenAt(i, xs) + |PrintToken(xs[0].token)|, xs[1..], trail);
    } else if |xs| == 1 || !xs[1].token.Colon? {
      StandsCons(src, i, xs, trail);
      WordListed(src, i, xs, trail);
      BehindListed(src, TokenAt(i, xs) + |xs[0].token.name|, xs[1..], trail);
    } else if |xs| == 2 || !xs[2].token.Word? {
      KeyStands(src, i, xs, trail);
      KeyPassed(src, i, xs, trail);
      ItemsListed(src, TokenAt(i, xs) + |xs[0].token.name| + |PrintTrivia(xs[1].lead)| + 1, xs[2..], trail);
    } else {
      ValueListed(src, i, xs, trail);
      var j := TokenAt(i, xs) + |xs[0].token.name| + |PrintTrivia(xs[1].lead)| + 1;
      BehindListed(src, TokenAt(j, xs[2..]) + |xs[2].token.name|, xs[3..], trail);
    }
  }

  lemma {:induction false} BehindListed(src: string, i: nat, xs: seq<Item>, trail: seq<Trivia>)
    requires Stands(src, i, xs, trail)
    ensures FieldsFrom(src, TailEnd(src, i), 1) == ListedBehind(xs)
    decreases |xs|, 1
  {
    hide WsEnd, FieldsFrom, PrintTrivia, PrintToken, Stands, TailEnd, Listed;
    BehindName(src, i, xs, trail);
    if xs != [] && xs[0].token.Object? {
      StandsCons(src, i, xs, trail);
      ItemsListed(src, TokenAt(i, xs) + |PrintToken(xs[0].token)|, xs[1..], trail);
    } else {
      ItemsListed(src, i, xs, trail);
    }
  }

  lemma ObjectCloses(src: string, i: nat, trail: seq<Trivia>)
    requires Stands(src, i, [], trail)
    ensures FieldsFrom(src, i, 1) == []
  {
    hide FieldsFrom;
    assert PrintItems([]) == "";
    ClosingBrace(src, i, trail);
  }

  // ---------------------------------------------------------------------------
  // Operations
  // ---------------------------------------------------------------------------

  /** What precedes the object's brace, the object, and the rest of the operation. */
  function PrintDefault(prefix: seq<Lexeme>, xs: seq<Item>, trail: seq<Trivia>, rest: string): string {
    Print(prefix) + ("{" + (PrintItems(xs) + ((PrintTrivia(trail) + "}") + rest)))
  }

  /**
   When the first brace opens an object, the extractor lists its values that are names, and every other
   name in it that is no key and stands in no nested object, whatever operation follows.
   */
  lemma DefaultListed(prefix: seq<Lexeme>, xs: seq<Item>, trail: seq<Trivia>, rest: string)
    requires Wf(prefix) && Plain('{') !in prefix && WfItems(xs) && WfTrivia(trail)
    requires Dotless(PrintItems(xs), 0, |PrintItems(xs)|)
    ensures TopLevelFields(PrintDefault(prefix, xs, trail, rest)) == Listed(xs)
  {
    hide FirstBrace, FieldsFrom, Print, PrintItems, PrintTrivia, Wf, WfItems, WfTrivia, Listed;
    var src := PrintDefault(prefix, xs, trail, rest);
    var close := PrintTrivia(trail) + "}";
    AtSelf(src);
    AtSplit(src, 0, Print(prefix), "{" + (PrintItems(xs) + (close + rest)));
    var b := |Print(prefix)|;
    AtSplit(src, b, "{", PrintItems(xs) + (close + rest));
    AtSplit(src, b + 1, PrintItems(xs), close + rest);
    AtSplit(src, b + 1 + |PrintItems(xs)|, close, rest);
    FirstBraceAfter(src, 0, prefix);
    NoDots(src, b + 1, PrintItems(xs), trail);
    ItemsListed(src, b + 1, xs, trail);
  }

  lemma NoDots(src: string, i: nat, text: string, trail: seq<Trivia>)
    requires At(src, i, text) && Dotless(text, 0, |text|) && WfTrivia(trail)
    requires At(src, i + |text|, PrintTrivia(trail) + "}")
    ensures Dotless(src, i, i + |text|)
  {
    CloseIsNoDot(src, i + |text|, trail);
    forall k: nat | i <= k < i + |text| ensures !At(src, k, "...") {
      if At(src, k, "...") && k + 3 <= i + |text| {
        WithinText(src, i, text, k);
      } else if At(src, k, "...") {
        AtChar(src, k, "...", i + |text| - k);
      }
    }
  }

  lemma WithinText(src: string, i: nat, text: string, k: nat)
    requires At(src, i, text) && i <= k && k + 3 <= i + |text| && At(src, k, "...")
    ensures At(text, k - i, "...")
  {
    forall m | 0 <= m < 3 ensures text[k - i + m] == "..."[m] {
      AtChar(src, i, text, k - i + m);
      AtChar(src, k, "...", m);
    }
  }

  lemma CloseIsNoDot(src: string, i: nat, trail: seq<Trivia>)
    requires WfTrivia(trail) && At(src, i, PrintTrivia(trail) + "}")
    ensures i < |src| && src[i] != '.'
  {
    AtChar(src, i, PrintTrivia(trail) + "}", 0);
    if trail != [] {
      PrintTriviaCons(trail);
    }
  }
}
