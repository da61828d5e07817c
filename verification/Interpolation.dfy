/** Removal of JavaScript `${...}` interpolations from a template literal's text. */
module Interpolation {
  import opened Text
  import opened GraphqlScanner
  import opened GraphqlLexemes
  import opened GraphqlPrinter

  predicate IsJsQuote(c: char) { c == '"' || c == '\'' || c == '`' }

  predicate OpensHole(t: string, i: nat) {
    i + 1 < |t| && t[i] == '$' && t[i + 1] == '{'
  }

  // ---------------------------------------------------------------------------
  // Specification functions
  // ---------------------------------------------------------------------------

  /** The cursor after a quoted part; a trailing backslash takes it one past the end. */
  function JsStringEnd(t: string, i: nat, quote: char): (j: nat)
    ensures i <= j && (i <= |t| + 1 ==> j <= |t| + 1)
    decreases |t| - i
  {
    if i >= |t| then i
    else if t[i] == '\\' then JsStringEnd(t, i + 2, quote)
    else if t[i] == quote then i + 1
    else JsStringEnd(t, i + 1, quote)
  }

  /** The cursor after an interpolation's code, with `depth` braces open at `i`. */
  function HoleEnd(t: string, i: nat, depth: int): (j: nat)
    ensures i <= j && (i <= |t| + 1 ==> j <= |t| + 1)
    decreases |t| - i
  {
    if i >= |t| || depth <= 0 then i
    else if IsJsQuote(t[i]) then HoleEnd(t, JsStringEnd(t, i + 1, t[i]), depth)
    else HoleEnd(t, i + 1, if t[i] == '{' then depth + 1 else if t[i] == '}' then depth - 1 else depth)
  }

  function StripFrom(t: string, i: nat): string
    decreases |t| - i
  {
    if i >= |t| then ""
    else if OpensHole(t, i) then INTERP + StripFrom(t, HoleEnd(t, i + 2, 1))
    else [t[i]] + StripFrom(t, i + 1)
  }

  function Sanitise(t: string): string { StripFrom(t, 0) }

  // ---------------------------------------------------------------------------
  // The loops
  // ---------------------------------------------------------------------------

  method SkipJsString(t: string, start: nat, quote: char) returns (i: nat)
    ensures i == JsStringEnd(t, start, quote)
  {
    i := start;
    while i < |t|
      invariant start <= i
      invariant JsStringEnd(t, i, quote) == JsStringEnd(t, start, quote)
      decreases |t| - i
    {
      var ch := t[i];
      if ch == '\\' {
        i := i + 2;
        continue;
      }
      if ch == quote {
        return i + 1;
      }
      i := i + 1;
    }
  }

  method SkipHole(t: string, start: nat) returns (i: nat)
    ensures i == HoleEnd(t, start, 1)
  {
    i := start;
    var depth := 1;
    while i < |t| && depth > 0
      invariant start <= i
      invariant HoleEnd(t, i, depth) == HoleEnd(t, start, 1)
      decreases |t| - i
    {
      var ch := t[i];
      if IsJsQuote(ch) {
        i := SkipJsString(t, i + 1, ch);
        continue;
      }
      if ch == '{' {
        depth := depth + 1;
      } else if ch == '}' {
        depth := depth - 1;
      }
      i := i + 1;
    }
  }

  method StripJsInterpolations(t: string) returns (out: string)
    ensures out == Sanitise(t)
  {
    out := "";
    var i := 0;
    while i < |t|
      invariant out + StripFrom(t, i) == Sanitise(t)
      decreases |t| - i
    {
      if OpensHole(t, i) {
        out := out + INTERP;
        i := SkipHole(t, i + 2);
      } else {
        out := out + [t[i]];
        i := i + 1;
      }
    }
  }

  // ---------------------------------------------------------------------------
  // Nothing is left to strip
  // ---------------------------------------------------------------------------

  predicate NoHoles(t: string) { forall k: nat | k < |t| :: !OpensHole(t, k) }

  lemma {:induction false} StripFromHoleFree(t: string, i: nat)
    ensures NoHoles(StripFrom(t, i))
    ensures StripFrom(t, i) != "" && StripFrom(t, i)[0] == '{' ==> i < |t| && t[i] == '{'
    decreases |t| - i
  {
    if i < |t| {
      var next := if OpensHole(t, i) then HoleEnd(t, i + 2, 1) else i + 1;
      var head := if OpensHole(t, i) then INTERP else [t[i]];
      var rest := StripFrom(t, next);
      StripFromHoleFree(t, next);
      assert StripFrom(t, i) == head + rest;
      assert head[|head| - 1] == '$' ==> rest == "" || rest[0] != '{';
      forall k: nat | k < |head + rest| ensures !OpensHole(head + rest, k) {
        if k >= |head| {
          assert !OpensHole(rest, k - |head|);
        }
      }
    }
  }

  lemma {:induction false} StripFromKeeps(t: string, i: nat)
    requires NoHoles(t) && i <= |t|
    ensures StripFrom(t, i) == t[i..]
    decreases |t| - i
  {
    if i < |t| {
      StripFromKeeps(t, i + 1);
      assert t[i..] == [t[i]] + t[i + 1..];
    }
  }

  /** The sanitised template holds no `${`; a template without any is returned as it is. */
  lemma StripSanitises(t: string)
    ensures NoHoles(Sanitise(t))
    ensures Sanitise(t) == t <==> NoHoles(t)
    ensures Sanitise(Sanitise(t)) == Sanitise(t)
  {
    StripFromHoleFree(t, 0);
    StripFromKeeps(Sanitise(t), 0);
    if NoHoles(t) {
      StripFromKeeps(t, 0);
    }
  }

  // ---------------------------------------------------------------------------
  // What is left of a printed template
  // ---------------------------------------------------------------------------

  /** A piece of a template: a character of its text, or an interpolation's code. */
  datatype Piece = Char(c: char) | Hole(code: seq<Lexeme>)

  predicate WfCode(code: seq<Lexeme>) {
    forall k | 0 <= k < |code| :: WfCodeLexeme(code[k])
  }

  predicate WfCodeLexeme(t: Lexeme) {
    match t
    case Plain(c) => c != '"' && c != '\'' && c != '`'
    case Quoted(q, body) => (q == '"' || q == '\'' || q == '`') && WfBody(body, q)
    case _ => false
  }

  predicate WfHole(code: seq<Lexeme>) {
    WfCode(code) && StaysOpen(code, '{', '}', 1) && Depth(code, '{', '}', 1) == 1
  }

  function PrintPiece(p: Piece): string {
    match p case Char(c) => [c] case Hole(code) => "${" + (Print(code) + "}")
  }

  function PrintPieces(ps: seq<Piece>): string {
    if ps == [] then "" else PrintPiece(ps[0]) + PrintPieces(ps[1..])
  }

  /** Every interpolation is balanced code, and no text piece looks like the start of one. */
  predicate WfPieces(ps: seq<Piece>) {
    && (forall k | 0 <= k < |ps| && ps[k].Hole? :: WfHole(ps[k].code))
    && (forall k | 0 <= k < |ps| - 1 :: !(ps[k] == Char('$') && ps[k + 1] == Char('{')))
  }

  function Sanitised(ps: seq<Piece>): string {
    if ps == [] then ""
    else (match ps[0] case Char(c) => [c] case Hole(_) => "__INTERP__") + Sanitised(ps[1..])
  }

  lemma {:induction false} JsStringEndOverBody(t: string, i: nat, body: seq<QuotedChar>, quote: char)
    requires WfBody(body, quote) && quote != '\\'
    requires At(t, i, PrintBody(body) + [quote])
    ensures JsStringEnd(t, i, quote) == i + |PrintBody(body)| + 1
    decreases |body|
  {
    if body == [] {
      assert PrintBody(body) + [quote] == [quote];
      AtChar(t, i, [quote], 0);
    } else {
      var h := match body[0] case Raw(c) => [c] case Escaped(c) => ['\\', c];
      assert PrintBody(body) + [quote] == h + (PrintBody(body[1..]) + [quote]);
      AtSplit(t, i, h, PrintBody(body[1..]) + [quote]);
      AtChar(t, i, h, 0);
      JsStringEndOverBody(t, i + |h|, body[1..], quote);
    }
  }

  lemma HoleEndOverLexeme(t: string, i: nat, l: Lexeme, depth: int)
    requires WfCodeLexeme(l) && depth >= 1 && At(t, i, PrintLexeme(l))
    ensures HoleEnd(t, i, depth) == HoleEnd(t, i + |PrintLexeme(l)|, depth + Change(l, '{', '}'))
  {
    AtChar(t, i, PrintLexeme(l), 0);
    if l.Quoted? {
      assert PrintLexeme(l) == [l.quote] + (PrintBody(l.body) + [l.quote]);
      AtSplit(t, i, [l.quote], PrintBody(l.body) + [l.quote]);
      JsStringEndOverBody(t, i + 1, l.body, l.quote);
    }
  }

  lemma CodeCons(code: seq<Lexeme>)
    requires code != [] && WfCode(code)
    ensures Print(code) == PrintLexeme(code[0]) + Print(code[1..])
    ensures WfCodeLexeme(code[0]) && WfCode(code[1..])
  {
  }

  lemma {:induction false} HoleEndOverCode(t: string, i: nat, code: seq<Lexeme>, depth: int)
    requires WfCode(code) && StaysOpen(code, '{', '}', depth) && At(t, i, Print(code))
    ensures HoleEnd(t, i, depth) == HoleEnd(t, i + |Print(code)|, Depth(code, '{', '}', depth))
    decreases |code|
  {
    hide HoleEnd, WfCode, StaysOpen, PrintLexeme;
    if code == [] {
      assert Print(code) == "";
    } else {
      hide Print, Depth;
      assert depth >= 1 by { PositiveDepth(code, depth); }
      CodeCons(code);
      StaysOpenCons(code, '{', '}', depth);
      AtSplit(t, i, PrintLexeme(code[0]), Print(code[1..]));
      HoleEndOverLexeme(t, i, code[0], depth);
      HoleEndOverCode(t, i + |PrintLexeme(code[0])|, code[1..], depth + Change(code[0], '{', '}'));
    }
  }

  lemma PositiveDepth(code: seq<Lexeme>, depth: int)
    requires StaysOpen(code, '{', '}', depth)
    ensures depth >= 1
  {
  }

  /** A printed interpolation is skipped to just past the brace that closes it. */
  lemma SkipHoleExact(t: string, i: nat, code: seq<Lexeme>)
    requires WfHole(code) && At(t, i, PrintPiece(Hole(code)))
    ensures OpensHole(t, i) && HoleEnd(t, i + 2, 1) == i + |PrintPiece(Hole(code))|
  {
    hide Print, WfCode, StaysOpen, Depth;
    AtSplit(t, i, "${", Print(code) + "}");
    AtChar(t, i, "${", 0);
    AtChar(t, i, "${", 1);
    AtSplit(t, i + 2, Print(code), "}");
    var e := i + 2 + |Print(code)|;
    AtChar(t, e, "}", 0);
    HoleEndOverCode(t, i + 2, code, 1);
  }

  lemma PiecesCons(t: string, i: nat, ps: seq<Piece>)
    requires ps != [] && WfPieces(ps) && At(t, i, PrintPieces(ps))
    ensures At(t, i, PrintPiece(ps[0])) && At(t, i + |PrintPiece(ps[0])|, PrintPieces(ps[1..]))
    ensures |PrintPieces(ps)| == |PrintPiece(ps[0])| + |PrintPieces(ps[1..])|
    ensures WfPieces(ps[1..]) && (ps[0].Hole? ==> WfHole(ps[0].code))
  {
    hide PrintPiece, WfHole;
    AtSplit(t, i, PrintPiece(ps[0]), PrintPieces(ps[1..]));
    assert forall k | 0 <= k < |ps[1..]| :: ps[1..][k] == ps[k + 1];
  }

  /** A text piece does not start an interpolation, whatever piece follows it. */
  lemma CharOpensNothing(t: string, i: nat, ps: seq<Piece>)
    requires ps != [] && ps[0].Char? && WfPieces(ps)
    requires At(t, i, PrintPieces(ps)) && i + |PrintPieces(ps)| == |t|
    ensures i < |t| && t[i] == ps[0].c && !OpensHole(t, i)
  {
    PiecesCons(t, i, ps);
    AtChar(t, i, PrintPiece(ps[0]), 0);
    if |ps| > 1 {
      PiecesCons(t, i + 1, ps[1..]);
      AtChar(t, i + 1, PrintPiece(ps[1]), 0);
    }
  }

  lemma StripCopies(t: string, i: nat)
    requires i < |t| && !OpensHole(t, i)
    ensures StripFrom(t, i) == [t[i]] + StripFrom(t, i + 1)
  {
  }

  lemma StripReplaces(t: string, i: nat)
    requires OpensHole(t, i)
    ensures StripFrom(t, i) == INTERP + StripFrom(t, HoleEnd(t, i + 2, 1))
  {
  }

  /** One turn of the stripping loop on a printed piece. */
  lemma StripPiece(t: string, i: nat, ps: seq<Piece>)
    requires ps != [] && WfPieces(ps) && At(t, i, PrintPieces(ps)) && i + |PrintPieces(ps)| == |t|
    ensures StripFrom(t, i) == Sanitised([ps[0]]) + StripFrom(t, i + |PrintPiece(ps[0])|)
  {
    hide WfPieces, WfHole, HoleEnd, PrintPieces, StripFrom, OpensHole;
    PiecesCons(t, i, ps);
    assert [ps[0]][1..] == [];
    match ps[0] {
      case Char(c) =>
        CharOpensNothing(t, i, ps);
        StripCopies(t, i);
      case Hole(code) =>
        SkipHoleExact(t, i, code);
        StripReplaces(t, i);
    }
  }

  lemma {:induction false} StripFromPrinted(t: string, i: nat, ps: seq<Piece>)
    requires WfPieces(ps) && At(t, i, PrintPieces(ps)) && i + |PrintPieces(ps)| == |t|
    ensures StripFrom(t, i) == Sanitised(ps)
    decreases |ps|
  {
    hide WfPieces, PrintPiece;
    if ps == [] {
      assert PrintPieces(ps) == "";
    } else {
      hide StripFrom, PrintPieces;
      PiecesCons(t, i, ps);
      StripPiece(t, i, ps);
      StripFromPrinted(t, i + |PrintPiece(ps[0])|, ps[1..]);
      SanitisedCons(ps);
    }
  }

  lemma SanitisedCons(ps: seq<Piece>)
    requires ps != []
    ensures Sanitised(ps) == Sanitised([ps[0]]) + Sanitised(ps[1..])
  {
    assert [ps[0]][1..] == [];
  }

  /** Every interpolation of a printed template becomes one placeholder; its text is kept. */
  lemma StripInvertsPrinter(ps: seq<Piece>)
    requires WfPieces(ps)
    ensures Sanitise(PrintPieces(ps)) == Sanitised(ps)
  {
    StripFromPrinted(PrintPieces(ps), 0, ps);
  }

  /** From a template with interpolations to its root fields. */
  lemma TemplateFields(ps: seq<Piece>, prefix: seq<Lexeme>, ss: seq<Selection>, trail: seq<Trivia>, suffix: string)
    requires WfPieces(ps) && WfOperation(prefix, ss, trail)
    requires Sanitised(ps) == PrintOperation(prefix, ss, trail, suffix)
    ensures TopLevelFields(Sanitise(PrintPieces(ps))) == RootFields(ss) <==> forall s | s in ss :: Faithful(s)
  {
    StripInvertsPrinter(ps);
    ExtractorInvertsPrinter(prefix, ss, trail, suffix);
  }
}
