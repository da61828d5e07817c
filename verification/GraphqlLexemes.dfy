/**
 Printed lexemes and what the scanner's skipping functions do on them.

 A printed text is a flat list of lexemes; brackets are plain characters, so that any nesting,
 and any bracket inside a string or a comment, is covered.
 */
module GraphqlLexemes {
  import opened Text
  import opened GraphqlScanner

  datatype QuotedChar = Raw(c: char) | Escaped(c: char)

  datatype Lexeme =
    | Plain(c: char)
    | Quoted(quote: char, body: seq<QuotedChar>)
    | Block(text: string)
    | Comment(text: string)

  /** Ignored tokens: a white-space character or a comma, or a comment with its line end. */
  datatype Trivia = Blank(c: char) | Remark(text: string)

  // ---------------------------------------------------------------------------
  // Printing
  // ---------------------------------------------------------------------------

  function PrintBody(body: seq<QuotedChar>): string {
    if body == [] then "" else
    (match body[0] case Raw(c) => [c] case Escaped(c) => ['\\', c]) + PrintBody(body[1..])
  }

  function PrintLexeme(t: Lexeme): (s: string)
    ensures s != ""
  {
    match t
    case Plain(c) => [c]
    case Quoted(q, body) => [q] + PrintBody(body) + [q]
    case Block(text) => "\"\"\"" + text + "\"\"\""
    case Comment(text) => "#" + text + "\n"
  }

  function Print(ts: seq<Lexeme>): string {
    if ts == [] then "" else PrintLexeme(ts[0]) + Print(ts[1..])
  }

  function PrintTrivium(t: Trivia): string {
    match t case Blank(c) => [c] case Remark(text) => "#" + text + "\n"
  }

  function PrintTrivia(ts: seq<Trivia>): string {
    if ts == [] then "" else PrintTrivium(ts[0]) + PrintTrivia(ts[1..])
  }

  // ---------------------------------------------------------------------------
  // Well-formed lexemes
  // ---------------------------------------------------------------------------

  predicate WfBody(body: seq<QuotedChar>, quote: char) {
    forall k | 0 <= k < |body| && body[k].Raw? :: body[k].c != '\\' && body[k].c != quote
  }

  /** A block string's text holds no triple quote, none straddles its closing one, and none is escaped. */
  predicate WfBlock(text: string) {
    && (forall k | 0 <= k < |text| :: !At(text + TRIPLE, k, TRIPLE))
    && (text != "" ==> text[|text| - 1] != '\\')
  }

  /** A comment ends with its line: a carriage return may only stand right before the newline. */
  predicate IsCommentText(text: string) {
    '\n' !in text && forall k | 0 <= k < |text| - 1 :: text[k] != '\r'
  }

  predicate WfLexeme(t: Lexeme) {
    match t
    case Plain(c) => c != '#' && c != '"' && c != '\''
    case Quoted(q, body) => (q == '"' || q == '\'') && WfBody(body, q)
    case Block(text) => WfBlock(text)
    case Comment(text) => IsCommentText(text)
  }

  /** An empty string that a double quote follows would be read as a block string's start. */
  predicate IsEmptyString(t: Lexeme) { t == Quoted('"', []) }

  predicate StartsWithQuote(ts: seq<Lexeme>) {
    ts != [] && (ts[0].Block? || (ts[0].Quoted? && ts[0].quote == '"'))
  }

  predicate Wf(ts: seq<Lexeme>) {
    ts == [] || (WfLexeme(ts[0]) && (IsEmptyString(ts[0]) ==> !StartsWithQuote(ts[1..])) && Wf(ts[1..]))
  }

  predicate WfTrivium(t: Trivia) {
    match t case Blank(c) => c == ',' || IsSpace(c) case Remark(text) => IsCommentText(text)
  }

  predicate WfTrivia(ts: seq<Trivia>) {
    forall k | 0 <= k < |ts| :: WfTrivium(ts[k])
  }

  /** No double quote stands in `src` at `i`. */
  predicate NoQuoteAt(src: string, i: nat) { i < |src| ==> src[i] != '"' }

  // ---------------------------------------------------------------------------
  // Bracket depth of a lexeme list
  // ---------------------------------------------------------------------------

  function Change(t: Lexeme, open: char, close: char): int {
    if t == Plain(open) then 1 else if t == Plain(close) then -1 else 0
  }

  function Depth(ts: seq<Lexeme>, open: char, close: char, depth: int): int {
    if ts == [] then depth else Depth(ts[1..], open, close, depth + Change(ts[0], open, close))
  }

  /** With `depth` groups open before it, no prefix of the list closes the last of them. */
  predicate StaysOpen(ts: seq<Lexeme>, open: char, close: char, depth: int) {
    depth >= 1 && (ts == [] || StaysOpen(ts[1..], open, close, depth + Change(ts[0], open, close)))
  }

  /** The text between a group's brackets: it closes all the groups of that kind it opens. */
  predicate Enclosed(ts: seq<Lexeme>, open: char, close: char) {
    Wf(ts) && StaysOpen(ts, open, close, 1) && Depth(ts, open, close, 1) == 1
  }

  predicate IsBracketPair(open: char, close: char) {
    (open == '(' && close == ')') || (open == '{' && close == '}')
  }

  // ---------------------------------------------------------------------------
  // Skipping one lexeme
  // ---------------------------------------------------------------------------

  lemma {:induction false} QuoteEndOverBody(src: string, i: nat, body: seq<QuotedChar>, quote: char)
    requires WfBody(body, quote) && quote != '\\'
    requires At(src, i, PrintBody(body) + [quote])
    ensures QuoteEnd(src, i, quote) == i + |PrintBody(body)| + 1
    decreases |body|
  {
    if body == [] {
      assert PrintBody(body) + [quote] == [quote];
      AtChar(src, i, [quote], 0);
    } else {
      var h := match body[0] case Raw(c) => [c] case Escaped(c) => ['\\', c];
      assert PrintBody(body) + [quote] == h + (PrintBody(body[1..]) + [quote]);
      AtSplit(src, i, h, PrintBody(body[1..]) + [quote]);
      AtChar(src, i, h, 0);
      QuoteEndOverBody(src, i + |h|, body[1..], quote);
    }
  }

  lemma {:induction false} BlockEndOverText(src: string, i: nat, text: string, k: nat)
    requires WfBlock(text) && k <= |text|
    requires At(src, i, text + TRIPLE)
    ensures BlockEnd(src, i + k) == i + |text| + 3
    decreases |text| - k
  {
    if k == |text| {
      AtSplit(src, i, text, TRIPLE);
    } else {
      var whole := text + TRIPLE;
      assert !At(whole, k, TRIPLE);
      var m :| 0 <= m < 3 && whole[k + m] != TRIPLE[m];
      AtChar(src, i, whole, k + m);
      BlockEndOverText(src, i, text, k + 1);
    }
  }

  lemma {:induction false} CommentEndOverText(src: string, i: nat, text: string)
    requires '\n' !in text
    requires At(src, i, text + "\n")
    ensures CommentEnd(src, i) == i + |text| && src[i + |text|] == '\n'
    decreases |text|
  {
    AtChar(src, i, text + "\n", 0);
    if text != "" {
      assert text == [text[0]] + text[1..];
      assert text + "\n" == [text[0]] + (text[1..] + "\n");
      AtSplit(src, i, [text[0]], text[1..] + "\n");
      CommentEndOverText(src, i + 1, text[1..]);
    }
  }

  /** A printed comment is skipped up to its line end. */
  lemma SkipCommentExact(src: string, i: nat, text: string)
    requires '\n' !in text
    requires At(src, i, "#" + text + "\n")
    ensures src[i] == '#'
    ensures CommentEnd(src, i) == i + |text| + 1 && src[i + |text| + 1] == '\n'
  {
    assert "#" + text + "\n" == "#" + (text + "\n");
    AtSplit(src, i, "#", text + "\n");
    AtChar(src, i, "#", 0);
    CommentEndOverText(src, i + 1, text);
  }

  lemma OpensTriple(src: string, i: nat)
    requires i < |src|
    ensures At(src, i, TRIPLE) <==> i + 3 <= |src| && src[i] == src[i + 1] == src[i + 2] == '"'
  {
    assert TRIPLE[0] == TRIPLE[1] == TRIPLE[2] == '"';
    if At(src, i, TRIPLE) {
      AtChar(src, i, TRIPLE, 0);
      AtChar(src, i, TRIPLE, 1);
      AtChar(src, i, TRIPLE, 2);
    }
  }

  /** A printed string or block string is skipped to just past its closing quotes. */
  lemma SkipStringExact(src: string, i: nat, t: Lexeme)
    requires WfLexeme(t) && (t.Quoted? || t.Block?)
    requires At(src, i, PrintLexeme(t))
    requires IsEmptyString(t) ==> NoQuoteAt(src, i + 2)
    ensures src[i] == if t.Block? then '"' else t.quote
    ensures StringEnd(src, i) == i + |PrintLexeme(t)|
  {
    AtChar(src, i, PrintLexeme(t), 0);
    match t {
      case Block(text) =>
        assert PrintLexeme(t) == TRIPLE + (text + TRIPLE);
        AtSplit(src, i, TRIPLE, text + TRIPLE);
        BlockEndOverText(src, i + 3, text, 0);
      case Quoted(q, body) =>
        assert PrintLexeme(t) == [q] + (PrintBody(body) + [q]);
        AtSplit(src, i, [q], PrintBody(body) + [q]);
        QuoteEndOverBody(src, i + 1, body, q);
        NotTriple(src, i, q, body);
    }
  }

  lemma NotTriple(src: string, i: nat, q: char, body: seq<QuotedChar>)
    requires WfLexeme(Quoted(q, body))
    requires At(src, i, PrintLexeme(Quoted(q, body)))
    requires IsEmptyString(Quoted(q, body)) ==> NoQuoteAt(src, i + 2)
    ensures !At(src, i, TRIPLE)
  {
    var p := PrintLexeme(Quoted(q, body));
    AtChar(src, i, p, 0);
    AtChar(src, i, p, 1);
    OpensTriple(src, i);
    if q == '"' && body == [] {
      assert p == ['"', '"'];
    } else if q == '"' {
      assert p[1] != '"';
    }
  }

  /** The trivia scanner passes over printed trivia. */
  lemma PrintTriviaCons(ts: seq<Trivia>)
    requires ts != [] && WfTrivia(ts)
    ensures PrintTrivia(ts) == PrintTrivium(ts[0]) + PrintTrivia(ts[1..])
    ensures WfTrivium(ts[0]) && WfTrivia(ts[1..])
  {
  }

  lemma {:induction false} WsEndOverTrivia(src: string, i: nat, ts: seq<Trivia>)
    requires WfTrivia(ts) && At(src, i, PrintTrivia(ts))
    ensures WsEnd(src, i) == WsEnd(src, i + |PrintTrivia(ts)|)
    decreases |ts|
  {
    hide WsEnd, PrintTrivium, WfTrivia;
    if ts == [] {
      assert PrintTrivia(ts) == "";
    } else {
      hide PrintTrivia;
      PrintTriviaCons(ts);
      AtSplit(src, i, PrintTrivium(ts[0]), PrintTrivia(ts[1..]));
      WsEndOverTrivium(src, i, ts[0]);
      WsEndOverTrivia(src, i + |PrintTrivium(ts[0])|, ts[1..]);
    }
  }

  lemma WsEndOverTrivium(src: string, i: nat, t: Trivia)
    requires WfTrivium(t) && At(src, i, PrintTrivium(t))
    ensures WsEnd(src, i) == WsEnd(src, i + |PrintTrivium(t)|)
  {
    match t {
      case Blank(c) =>
        AtChar(src, i, [c], 0);
      case Remark(text) =>
        SkipCommentExact(src, i, text);
        assert WsEnd(src, i + |text| + 1) == WsEnd(src, i + |text| + 2);
    }
  }

  lemma WsEndTwice(src: string, i: nat)
    requires i <= |src|
    ensures WsEnd(src, WsEnd(src, i)) == WsEnd(src, i)
  {
  }

  // ---------------------------------------------------------------------------
  // Skipping groups
  // ---------------------------------------------------------------------------

  lemma BalancedOverLexeme(src: string, i: nat, t: Lexeme, open: char, close: char, depth: int)
    requires IsBracketPair(open, close) && WfLexeme(t)
    requires At(src, i, PrintLexeme(t))
    requires IsEmptyString(t) ==> NoQuoteAt(src, i + 2)
    requires t == Plain(close) ==> depth != 1
    ensures BalancedFrom(src, i, open, close, depth)
         == BalancedFrom(src, i + |PrintLexeme(t)|, open, close, depth + Change(t, open, close))
  {
    hide StringEnd, CommentEnd;
    match t {
      case Plain(c) =>
        AtChar(src, i, [c], 0);
      case Comment(text) =>
        BalancedOverComment(src, i, text, open, close, depth);
      case Quoted(_, _) =>
        SkipStringExact(src, i, t);
      case Block(_) =>
        SkipStringExact(src, i, t);
    }
  }

  lemma BalancedOverComment(src: string, i: nat, text: string, open: char, close: char, depth: int)
    requires IsBracketPair(open, close) && IsCommentText(text) && At(src, i, "#" + text + "\n")
    ensures BalancedFrom(src, i, open, close, depth) == BalancedFrom(src, i + |text| + 2, open, close, depth)
  {
    hide StringEnd, CommentEnd;
    SkipCommentExact(src, i, text);
    var j := i + |text| + 1;
    assert BalancedFrom(src, j, open, close, depth) == BalancedFrom(src, j + 1, open, close, depth);
  }

  lemma PrintCons(ts: seq<Lexeme>)
    requires ts != [] && Wf(ts)
    ensures Print(ts) == PrintLexeme(ts[0]) + Print(ts[1..])
    ensures WfLexeme(ts[0]) && Wf(ts[1..])
    ensures IsEmptyString(ts[0]) ==> !StartsWithQuote(ts[1..])
  {
  }

  lemma PrintNothing(ts: seq<Lexeme>)
    requires ts == []
    ensures Print(ts) == ""
  {
  }

  lemma StartsWithoutQuote(ts: seq<Lexeme>)
    requires ts != [] && Wf(ts) && !StartsWithQuote(ts)
    ensures Print(ts) != "" && Print(ts)[0] != '"'
  {
  }

  /** The first lexeme of a printed list, the rest behind it, and what may follow an empty string. */
  lemma Uncons(src: string, i: nat, ts: seq<Lexeme>)
    requires ts != [] && Wf(ts) && At(src, i, Print(ts))
    requires NoQuoteAt(src, i + |Print(ts)|)
    ensures |Print(ts)| == |PrintLexeme(ts[0])| + |Print(ts[1..])|
    ensures At(src, i, PrintLexeme(ts[0])) && At(src, i + |PrintLexeme(ts[0])|, Print(ts[1..]))
    ensures WfLexeme(ts[0]) && Wf(ts[1..])
    ensures IsEmptyString(ts[0]) ==> NoQuoteAt(src, i + 2)
  {
    hide Wf, WfLexeme, Print;
    PrintCons(ts);
    AtSplit(src, i, PrintLexeme(ts[0]), Print(ts[1..]));
    if IsEmptyString(ts[0]) {
      assert |PrintLexeme(ts[0])| == 2;
      if ts[1..] == [] {
        PrintNothing(ts[1..]);
      } else {
        StartsWithoutQuote(ts[1..]);
        AtChar(src, i + 2, Print(ts[1..]), 0);
      }
    }
  }

  lemma StaysOpenCons(ts: seq<Lexeme>, open: char, close: char, depth: int)
    requires ts != [] && StaysOpen(ts, open, close, depth)
    ensures var depth' := depth + Change(ts[0], open, close);
      depth' >= 1 && StaysOpen(ts[1..], open, close, depth')
      && Depth(ts, open, close, depth) == Depth(ts[1..], open, close, depth')
  {
  }

  lemma {:induction false} BalancedOverLexemes(
      src: string, i: nat, ts: seq<Lexeme>, open: char, close: char, depth: int)
    requires IsBracketPair(open, close) && Wf(ts) && StaysOpen(ts, open, close, depth)
    requires At(src, i, Print(ts)) && NoQuoteAt(src, i + |Print(ts)|)
    ensures BalancedFrom(src, i, open, close, depth)
         == BalancedFrom(src, i + |Print(ts)|, open, close, Depth(ts, open, close, depth))
    decreases |ts|
  {
    hide BalancedFrom, Wf, StaysOpen, PrintLexeme;
    if ts == [] {
      assert Print(ts) == "";
    } else {
      hide Print, Depth;
      Uncons(src, i, ts);
      StaysOpenCons(ts, open, close, depth);
      BalancedOverLexeme(src, i, ts[0], open, close, depth);
      BalancedOverLexemes(src, i + |PrintLexeme(ts[0])|, ts[1..], open, close, depth + Change(ts[0], open, close));
    }
  }

  /** The printed group: its brackets around its text. */
  function PrintGroup(open: char, body: seq<Lexeme>, close: char): string {
    [open] + Print(body) + [close]
  }

  lemma BalancedOpens(src: string, i: nat, open: char, close: char)
    requires IsBracketPair(open, close) && i < |src| && src[i] == open
    ensures BalancedEnd(src, i, open, close) == BalancedFrom(src, i + 1, open, close, 1)
  {
  }

  lemma BalancedCloses(src: string, i: nat, open: char, close: char)
    requires IsBracketPair(open, close) && i < |src| && src[i] == close
    ensures BalancedFrom(src, i, open, close, 1) == i + 1
  {
  }

  /** Started on the opening bracket of a group, the scanner stops just past its matching closer. */
  lemma SkipBalancedExact(src: string, i: nat, open: char, body: seq<Lexeme>, close: char)
    requires IsBracketPair(open, close) && Enclosed(body, open, close)
    requires At(src, i, PrintGroup(open, body, close))
    ensures i < |src| && src[i] == open
    ensures BalancedEnd(src, i, open, close) == i + |PrintGroup(open, body, close)|
  {
    hide BalancedFrom, BalancedEnd, Print, Wf, StaysOpen, Depth;
    assert PrintGroup(open, body, close) == [open] + (Print(body) + [close]);
    AtSplit(src, i, [open], Print(body) + [close]);
    AtSplit(src, i + 1, Print(body), [close]);
    AtChar(src, i, [open], 0);
    var e := i + 1 + |Print(body)|;
    AtChar(src, e, [close], 0);
    BalancedOpens(src, i, open, close);
    BalancedOverLexemes(src, i + 1, body, open, close, 1);
    BalancedCloses(src, e, open, close);
  }

  /** On a group that is never closed the scanner stops at the end of the text. */
  lemma SkipBalancedUnclosed(src: string, i: nat, open: char, body: seq<Lexeme>, close: char)
    requires IsBracketPair(open, close) && Wf(body) && StaysOpen(body, open, close, 1)
    requires At(src, i, [open] + Print(body)) && |src| == i + 1 + |Print(body)|
    ensures BalancedEnd(src, i, open, close) == |src|
  {
    hide Print, Wf, StaysOpen, Depth;
    AtSplit(src, i, [open], Print(body));
    AtChar(src, i, [open], 0);
    BalancedOverLexemes(src, i + 1, body, open, close, 1);
  }

  lemma FirstBraceHere(src: string, i: nat)
    requires At(src, i, "{")
    ensures FirstBrace(src, i) == Some(i)
  {
    AtChar(src, i, "{", 0);
  }

  /** The first selection set is found behind any printed prefix that opens no brace. */
  lemma {:induction false} FirstBraceAfter(src: string, i: nat, prefix: seq<Lexeme>)
    requires Wf(prefix) && Plain('{') !in prefix
    requires At(src, i, Print(prefix)) && At(src, i + |Print(prefix)|, "{")
    ensures FirstBrace(src, i) == Some(i + |Print(prefix)|)
    decreases |prefix|
  {
    hide FirstBrace, Wf, PrintLexeme;
    FirstBraceHere(src, i + |Print(prefix)|);
    if prefix == [] {
      assert Print(prefix) == "";
    } else {
      hide Print;
      AtChar(src, i + |Print(prefix)|, "{", 0);
      Uncons(src, i, prefix);
      FirstBraceOverLexeme(src, i, prefix[0]);
      FirstBraceAfter(src, i + |PrintLexeme(prefix[0])|, prefix[1..]);
    }
  }

  lemma FirstBraceOverLexeme(src: string, i: nat, t: Lexeme)
    requires WfLexeme(t) && t != Plain('{')
    requires At(src, i, PrintLexeme(t))
    requires IsEmptyString(t) ==> NoQuoteAt(src, i + 2)
    ensures FirstBrace(src, i) == FirstBrace(src, i + |PrintLexeme(t)|)
  {
    match t {
      case Plain(c) =>
        AtChar(src, i, [c], 0);
      case Comment(text) =>
        SkipCommentExact(src, i, text);
        assert FirstBrace(src, i + |text| + 1) == FirstBrace(src, i + |text| + 2);
      case Quoted(_, _) =>
        SkipStringExact(src, i, t);
      case Block(_) =>
        SkipStringExact(src, i, t);
    }
  }
}
