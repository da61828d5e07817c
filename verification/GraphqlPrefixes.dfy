/**
 What precedes an operation's selection set: its name, variable definitions and directives.

 The extractor takes the first brace for the selection set. That is right behind every prefix that
 opens no brace, and behind no other: each prefix with a brace makes some operation be misread.
 */
module GraphqlPrefixes {
  import opened Text
  import opened GraphqlScanner
  import opened GraphqlLexemes
  import opened GraphqlPrinter

  /** The first brace of a printed prefix is found inside it. */
  lemma {:induction false} FirstBraceWithin(src: string, i: nat, prefix: seq<Lexeme>)
    requires Wf(prefix) && Plain('{') in prefix
    requires At(src, i, Print(prefix)) && NoQuoteAt(src, i + |Print(prefix)|)
    ensures var r := FirstBrace(src, i); r.Some? && r.value < i + |Print(prefix)|
    decreases |prefix|
  {
    hide FirstBrace, Wf, Print, PrintLexeme, At;
    Uncons(src, i, prefix);
    if prefix[0] == Plain('{') {
      PrintedBrace();
      FirstBraceHere(src, i);
    } else {
      assert Plain('{') in prefix[1..];
      FirstBraceOverLexeme(src, i, prefix[0]);
      FirstBraceWithin(src, i + |PrintLexeme(prefix[0])|, prefix[1..]);
    }
  }

  lemma PrintedBrace()
    ensures PrintLexeme(Plain('{')) == "{"
  {
  }

  // ---------------------------------------------------------------------------
  // No name right behind a later brace is ever reported
  // ---------------------------------------------------------------------------

  /** The scanner does not stand right behind an opening brace, unless at the end of the text. */
  predicate Clear(src: string, i: nat) { 0 < i <= |src| && (i < |src| ==> src[i - 1] != '{') }

  /** Behind ignored tokens stands a comma, white space or a line end. */
  lemma {:induction false} ClearAfterWs(src: string, i: nat)
    requires i <= |src|
    ensures WsEnd(src, i) > i ==> Clear(src, WsEnd(src, i))
    ensures Clear(src, i) ==> Clear(src, WsEnd(src, i))
    decreases |src| - i
  {
    if i < |src| {
      if src[i] == '#' {
        CommentStops(src, i);
        ClearAfterWs(src, CommentEnd(src, i));
      } else if src[i] == ',' || IsSpace(src[i]) {
        ClearAfterWs(src, i + 1);
      }
    }
  }

  /** A comment ends at the end of the text or before a line end, which is skipped next. */
  lemma {:induction false} CommentStops(src: string, i: nat)
    requires i <= |src|
    ensures var j := CommentEnd(src, i); j < |src| ==> src[j] == '\n' && WsEnd(src, j) > j
    decreases |src| - i
  {
    if i < |src| && src[i] != '\n' {
      CommentStops(src, i + 1);
    }
  }

  lemma {:induction false} ClearAfterGroup(src: string, i: nat, open: char, close: char, depth: int)
    requires i <= |src| && |src| > 0 && close != '{'
    ensures Clear(src, BalancedFrom(src, i, open, close, depth))
    decreases |src| - i
  {
    if i < |src| {
      if src[i] == '#' {
        ClearAfterGroup(src, CommentEnd(src, i), open, close, depth);
      } else if src[i] == '"' || src[i] == '\'' {
        ClearAfterGroup(src, StringEnd(src, i), open, close, depth);
      } else if src[i] == open {
        ClearAfterGroup(src, i + 1, open, close, depth + 1);
      } else if src[i] == close {
        if depth - 1 != 0 {
          ClearAfterGroup(src, i + 1, open, close, depth - 1);
        }
      } else {
        ClearAfterGroup(src, i + 1, open, close, depth);
      }
    }
  }

  lemma ClearAfterOptionalGroup(src: string, i: nat, open: char, close: char)
    requires Clear(src, i) && close != '{'
    ensures Clear(src, OptionalGroupEnd(src, i, open, close))
  {
    ClearAfterGroup(src, i, open, close, 0);
  }

  lemma ClearAfterRead(src: string, i: nat)
    requires i <= |src| && ReadName(src, i).Some?
    ensures Clear(src, ReadName(src, i).value.end)
  {
    var r := ReadName(src, i).value;
    assert src[r.end - 1] == r.name[|r.name| - 1];
  }

  lemma ClearAfterName(src: string, i: nat)
    requires Clear(src, i)
    ensures Clear(src, OptionalNameEnd(src, i))
  {
    if ReadName(src, i).Some? {
      ClearAfterRead(src, i);
    }
  }

  lemma ClearAfterDirective(src: string, i: nat)
    requires i < |src| && src[i] == '@'
    ensures Clear(src, DirectiveEnd(src, i))
  {
    hide WsEnd, OptionalNameEnd, OptionalGroupEnd;
    ClearAfterName(src, i + 1);
    var e := OptionalNameEnd(src, i + 1);
    ClearAfterWs(src, e);
    ClearAfterOptionalGroup(src, WsEnd(src, e), '(', ')');
  }

  lemma {:induction false} ClearAfterDecorations(src: string, i: nat)
    requires Clear(src, i)
    ensures Clear(src, DecorationsEnd(src, i))
    decreases |src| - i
  {
    hide WsEnd, BalancedEnd, DirectiveEnd;
    if i < |src| {
      var k := WsEnd(src, i);
      ClearAfterWs(src, i);
      if k < |src| && src[k] == '(' {
        ClearAfterBalanced(src, k);
        ClearAfterDecorations(src, BalancedEnd(src, k, '(', ')'));
      } else if k < |src| && src[k] == '@' {
        ClearAfterDirective(src, k);
        ClearAfterDecorations(src, DirectiveEnd(src, k));
      }
    }
  }

  lemma ClearAfterBalanced(src: string, i: nat)
    requires i < |src|
    ensures Clear(src, BalancedEnd(src, i, '(', ')'))
  {
    ClearAfterGroup(src, i, '(', ')', 0);
  }

  lemma ClearAfterTail(src: string, i: nat)
    requires Clear(src, i)
    ensures Clear(src, TailEnd(src, i))
  {
    hide WsEnd, DecorationsEnd, OptionalGroupEnd;
    ClearAfterDecorations(src, i);
    ClearAfterWs(src, DecorationsEnd(src, i));
    ClearAfterOptionalGroup(src, WsEnd(src, DecorationsEnd(src, i)), '{', '}');
  }

  lemma ClearAfterSpread(src: string, i: nat)
    requires At(src, i, "...")
    ensures Clear(src, SpreadEnd(src, i))
  {
    hide WsEnd, TailEnd, OptionalNameEnd;
    AtChar(src, i, "...", 2);
    ClearAfterWs(src, i + 3);
    ClearAfterName(src, WsEnd(src, i + 3));
    ClearAfterTail(src, OptionalNameEnd(src, WsEnd(src, i + 3)));
  }

  /** A name stands at `a`, and not right behind a brace. */
  predicate ReportedAt(src: string, a: nat, name: string) { At(src, a, name) && a > 0 && src[a - 1] != '{' }

  lemma ReadAt(src: string, i: nat)
    requires i <= |src| && ReadName(src, i).Some?
    ensures At(src, i, ReadName(src, i).value.name) && i < |src|
  {
  }

  /** A field's reported name stands where its first name was read, or not right behind a brace. */
  lemma FieldStepPlaces(src: string, k: nat, first: Read)
    requires k <= |src| && ReadName(src, k) == Some(first) && first.end <= |src|
    ensures var step := FieldStep(src, first);
      && Clear(src, step.next)
      && forall name | name in step.names :: At(src, k, name) || exists a: nat | a > k :: ReportedAt(src, a, name)
  {
    hide WsEnd, TailEnd, ReadName, DecorationsEnd;
    ClearAfterRead(src, k);
    ReadAt(src, k);
    var j := WsEnd(src, first.end);
    ClearAfterWs(src, first.end);
    if j < |src| && src[j] == ':' {
      assert Clear(src, j + 1);
      var l := WsEnd(src, j + 1);
      ClearAfterWs(src, j + 1);
      if ReadName(src, l).Some? {
        ClearAfterRead(src, l);
        ReadAt(src, l);
        ClearAfterTail(src, ReadName(src, l).value.end);
        assert ReportedAt(src, l, ReadName(src, l).value.name);
      }
    } else {
      ClearAfterTail(src, j);
    }
  }

  /** After a turn the main loop does not stand right behind a brace at depth one. */
  lemma TurnPlaces(src: string, i: nat, depth: int)
    requires i <= |src| && TurnAt(src, i, depth).Go?
    ensures var turn := TurnAt(src, i, depth);
      && (Clear(src, turn.next) || turn.depth != 1)
      && forall name | name in turn.names ::
           (At(src, i, name) && depth == 1) || exists a: nat | a > i :: ReportedAt(src, a, name)
  {
    hide WsEnd, SpreadEnd, FieldStep, ReadName;
    var k := WsEnd(src, i);
    ClearAfterWs(src, i);
    if At(src, k, "...") {
      ClearAfterSpread(src, k);
    } else if src[k] != '}' && depth == 1 && ReadName(src, k).Some? {
      var first := ReadName(src, k).value;
      ReadAt(src, k);
      FieldStepPlaces(src, k, first);
      forall name | name in FieldStep(src, first).names
        ensures (At(src, i, name) && depth == 1) || exists a: nat | a > i :: ReportedAt(src, a, name)
      {
        if At(src, k, name) && k > i {
          assert ReportedAt(src, k, name);
        }
      }
    }
  }

  /** Every reported name stands at the start of the loop, or not right behind a brace. */
  lemma {:induction false} NamesPlaces(src: string, i: nat, depth: int, name: string)
    requires i <= |src| && name in FieldsFrom(src, i, depth)
    ensures (At(src, i, name) && depth == 1) || exists a: nat | a > i :: ReportedAt(src, a, name)
    decreases |src| - i
  {
    hide TurnAt, At;
    match TurnAt(src, i, depth) {
      case Stop =>
      case Go(names, next, depth') =>
        TurnPlaces(src, i, depth);
        if name !in names {
          NamesPlaces(src, next, depth', name);
          if At(src, next, name) && depth' == 1 {
            NameIsNotEmpty(src, next, depth', name);
            AtNonempty(src, next, name);
            assert ReportedAt(src, next, name);
          }
        }
    }
  }

  lemma NameIsNotEmpty(src: string, i: nat, depth: int, name: string)
    requires i <= |src| && name in FieldsFrom(src, i, depth)
    ensures name != ""
  {
    ReportsAreNames(src, i, depth, name);
  }

  lemma AtNonempty(src: string, i: nat, name: string)
    requires At(src, i, name) && name != ""
    ensures i < |src|
  {
  }

  // ---------------------------------------------------------------------------
  // A field that is missed
  // ---------------------------------------------------------------------------

  /** A name longer than the prefix. */
  function LongName(n: nat): (s: string)
    ensures |s| == n + 1 && IsName(s) && s != INTERP
  {
    seq(n + 1, _ => 'a')
  }

  function OneField(name: string): seq<Selection> { [Selection([], Field(None, name), [], None)] }

  lemma OneFieldPrinted(prefix: seq<Lexeme>, name: string)
    requires IsName(name)
    ensures WfSelections(OneField(name)) && RootFields(OneField(name)) == Shown(name)
    ensures forall s | s in OneField(name) :: Faithful(s)
    ensures PrintOperation(prefix, OneField(name), [], "") == Print(prefix) + "{" + name + "}"
  {
    hide Print, IsName, Shown;
    var s := Selection([], Field(None, name), [], None);
    assert OneField(name) == [s] && [s][1..] == [];
    assert WfSelection(s) && Faithful(s);
    FieldPrinted(name);
    assert PrintSelections([s]) == name + "";
    assert PrintTrivia([]) + "}" == "}" && ("}" + "") == "}";
    assert Print(prefix) + ("{" + (name + "}")) == Print(prefix) + "{" + name + "}";
  }

  lemma FieldPrinted(name: string)
    ensures PrintSelection(Selection([], Field(None, name), [], None)) == name
  {
    assert PrintTail([], None) == "" && PrintTrivia([]) == "";
  }

  /** The long name stands in the printed operation at one place only: right behind its own brace. */
  lemma OnlyPlace(text: string, name: string, a: nat)
    requires IsName(name) && |name| > |text| && At(text + "{" + name + "}", a, name)
    ensures a == |text| + 1
  {
    var src := text + "{" + name + "}";
    var p := |text|;
    assert src[p] == '{' && src[p + 1 + |name|] == '}';
    if a <= p {
      AtChar(src, a, name, p - a);
    } else if a > p + 1 {
      AtChar(src, a, name, p + 1 + |name| - a);
    }
  }

  /** Behind a prefix with a brace, a field with a name longer than the prefix is not listed. */
  lemma LongNameMissed(prefix: seq<Lexeme>, name: string)
    requires Wf(prefix) && Plain('{') in prefix && IsName(name) && |name| > |Print(prefix)|
    ensures name !in TopLevelFields(PrintOperation(prefix, OneField(name), [], ""))
  {
    hide FieldsFrom, FirstBrace, Print, Wf;
    OneFieldPrinted(prefix, name);
    var src := Print(prefix) + "{" + name + "}";
    var p := |Print(prefix)|;
    assert src[p] == '{' && At(src, 0, Print(prefix));
    FirstBraceWithin(src, 0, prefix);
    var b := FirstBrace(src, 0).value;
    if name in FieldsFrom(src, b + 1, 1) {
      NamesPlaces(src, b + 1, 1, name);
      if At(src, b + 1, name) {
        OnlyPlace(Print(prefix), name, b + 1);
      } else {
        var a: nat :| a > b + 1 && ReportedAt(src, a, name);
        OnlyPlace(Print(prefix), name, a);
      }
      assert false;
    }
  }

  // ---------------------------------------------------------------------------
  // The condition on prefixes is exact
  // ---------------------------------------------------------------------------

  /** Behind the prefix, every selection set of faithful selections is read right. */
  ghost predicate ReadsRight(prefix: seq<Lexeme>) {
    forall ss, trail, suffix ::
      WfSelections(ss) && WfTrivia(trail) && (forall s | s in ss :: Faithful(s)) ==>
        TopLevelFields(PrintOperation(prefix, ss, trail, suffix)) == RootFields(ss)
  }

  /**
   The extractor reads the operations behind a printed prefix right exactly when that prefix opens no
   brace. With one, in a variable's default value say, some field is missed.
   */
  lemma BracelessExactly(prefix: seq<Lexeme>)
    requires Wf(prefix)
    ensures ReadsRight(prefix) <==> Plain('{') !in prefix
  {
    hide TopLevelFields, PrintOperation, WfSelections, RootFields, Faithful, Wf;
    if Plain('{') !in prefix {
      forall ss: seq<Selection>, trail: seq<Trivia>, suffix: string |
          WfSelections(ss) && WfTrivia(trail) && (forall s | s in ss :: Faithful(s))
        ensures TopLevelFields(PrintOperation(prefix, ss, trail, suffix)) == RootFields(ss)
      {
        ExtractorInvertsPrinter(prefix, ss, trail, suffix);
      }
    } else {
      var name := LongName(|Print(prefix)|);
      LongNameMissed(prefix, name);
      OneFieldPrinted(prefix, name);
      assert name in RootFields(OneField(name));
    }
  }
}
