/**
 A grammar of printed GraphQL operations, and the theorem that the extractor inverts the printer.

 Ignored tokens may stand wherever GraphQL allows them. Argument lists and nested selection sets
 are arbitrary enclosed lexeme lists, which every GraphQL argument list or selection set is.
 */
module GraphqlPrinter {
  import opened Text
  import opened GraphqlScanner
  import opened GraphqlLexemes

  datatype Alias = Alias(name: string, before: seq<Trivia>, after: seq<Trivia>)

  datatype Head =
    | Field(alias: Option<Alias>, name: string)
    | Spread(gap: seq<Trivia>, name: string)
    | Inline
    | TypedInline(gap: seq<Trivia>, mid: seq<Trivia>, typeName: string)

  /** A directive's arguments are the `Arguments` that follow it. */
  datatype Decoration =
    | Arguments(lead: seq<Trivia>, body: seq<Lexeme>)
    | Directive(lead: seq<Trivia>, gap: seq<Trivia>, name: string)

  datatype Nested = Nested(lead: seq<Trivia>, body: seq<Lexeme>)

  datatype Selection =
    Selection(lead: seq<Trivia>, head: Head, decorations: seq<Decoration>, nested: Option<Nested>)

  // ---------------------------------------------------------------------------
  // Printing
  // ---------------------------------------------------------------------------

  function PrintAlias(a: Alias): string {
    a.name + (PrintTrivia(a.before) + (":" + PrintTrivia(a.after)))
  }

  function PrintHead(h: Head): string {
    match h
    case Field(None, name) => name
    case Field(Some(a), name) => PrintAlias(a) + name
    case Spread(gap, name) => "..." + (PrintTrivia(gap) + name)
    case Inline => "..."
    case TypedInline(gap, mid, typeName) => "..." + (PrintTrivia(gap) + ("on" + (PrintTrivia(mid) + typeName)))
  }

  function PrintDecoration(d: Decoration): string {
    match d
    case Arguments(lead, body) => PrintTrivia(lead) + PrintGroup('(', body, ')')
    case Directive(lead, gap, name) => PrintTrivia(lead) + ("@" + (PrintTrivia(gap) + name))
  }

  function PrintNested(n: Option<Nested>): string {
    match n
    case None => ""
    case Some(g) => PrintTrivia(g.lead) + PrintGroup('{', g.body, '}')
  }

  function PrintTail(ds: seq<Decoration>, nested: Option<Nested>): string {
    if ds == [] then PrintNested(nested) else PrintDecoration(ds[0]) + PrintTail(ds[1..], nested)
  }

  function PrintSelection(s: Selection): string {
    PrintTrivia(s.lead) + (PrintHead(s.head) + PrintTail(s.decorations, s.nested))
  }

  function PrintSelections(ss: seq<Selection>): string {
    if ss == [] then "" else PrintSelection(ss[0]) + PrintSelections(ss[1..])
  }

  // ---------------------------------------------------------------------------
  // Well-formed selections
  // ---------------------------------------------------------------------------

  predicate WfHead(h: Head) {
    match h
    case Field(None, name) => IsName(name)
    case Field(Some(a), name) => IsName(a.name) && WfTrivia(a.before) && WfTrivia(a.after) && IsName(name)
    case Spread(gap, name) => WfTrivia(gap) && IsName(name) && name != "on"
    case Inline => true
    case TypedInline(gap, mid, typeName) => WfTrivia(gap) && WfTrivia(mid) && mid != [] && IsName(typeName)
  }

  predicate WfDecoration(d: Decoration) {
    match d
    case Arguments(lead, body) => WfTrivia(lead) && Enclosed(body, '(', ')')
    case Directive(lead, gap, name) => WfTrivia(lead) && WfTrivia(gap) && IsName(name)
  }

  predicate WfNested(n: Option<Nested>) {
    n.Some? ==> WfTrivia(n.value.lead) && Enclosed(n.value.body, '{', '}')
  }

  predicate WfTail(ds: seq<Decoration>, nested: Option<Nested>) {
    if ds == [] then WfNested(nested) else WfDecoration(ds[0]) && WfTail(ds[1..], nested)
  }

  predicate WfSelection(s: Selection) {
    WfTrivia(s.lead) && WfHead(s.head) && WfTail(s.decorations, s.nested) && (s.head.Inline? ==> s.nested.Some?)
  }

  /** The tail adds nothing to the name before it, or itself ends in a name. */
  predicate EndsInName(ds: seq<Decoration>, nested: Option<Nested>) {
    nested.None? && (ds == [] || ds[|ds| - 1].Directive?)
  }

  /** Two selections are separated where their names would otherwise run together. */
  predicate Separated(s: Selection, t: Selection) {
    EndsInName(s.decorations, s.nested) && t.head.Field? ==> t.lead != []
  }

  predicate WfSelections(ss: seq<Selection>) {
    ss == [] || (WfSelection(ss[0]) && (|ss| > 1 ==> Separated(ss[0], ss[1])) && WfSelections(ss[1..]))
  }

  // ---------------------------------------------------------------------------
  // What GraphQL means, and what the extractor reports
  // ---------------------------------------------------------------------------

  /** A name as it stands; the placeholder of an interpolation is not shown. */
  function Shown(name: string): seq<string> { if name == "__INTERP__" then [] else [name] }

  /** The direct fields of a selection set, in order, without interpolation placeholders. */
  function RootFields(ss: seq<Selection>): seq<string> {
    if ss == [] then [] else (if ss[0].head.Field? then Shown(ss[0].head.name) else []) + RootFields(ss[1..])
  }

  function HeadReports(h: Head): seq<string> {
    match h
    case Field(_, name) => Shown(name)
    case TypedInline(_, _, typeName) => Shown(typeName)
    case _ => []
  }

  /** A directive whose name is set off from its `@` is read as one more field. */
  function DecorationReports(d: Decoration): seq<string> {
    if d.Directive? && d.gap != [] then Shown(d.name) else []
  }

  function TailReports(ds: seq<Decoration>): seq<string> {
    if ds == [] then [] else DecorationReports(ds[0]) + TailReports(ds[1..])
  }

  function Reports(ss: seq<Selection>): seq<string> {
    if ss == [] then [] else HeadReports(ss[0].head) + TailReports(ss[0].decorations) + Reports(ss[1..])
  }

  /** No typed inline fragment, and no directive name set off from its `@`, unless of the unreported name. */
  predicate Faithful(s: Selection) {
    && (s.head.TypedInline? ==> s.head.typeName == "__INTERP__")
    && forall k | 0 <= k < |s.decorations| ::
         s.decorations[k].Directive? && s.decorations[k].gap != [] ==> s.decorations[k].name == "__INTERP__"
  }

  // ---------------------------------------------------------------------------
  // Names and white space
  // ---------------------------------------------------------------------------

  predicate NoNameAt(src: string, i: nat) { i < |src| ==> !IsNameChar(src[i]) }

  /** After ignored tokens comes a new selection or the closing brace. */
  predicate Boundary(src: string, i: nat) {
    i <= |src| &&
    var e := WsEnd(src, i);
    e < |src| && (src[e] == '}' || src[e] == '.' || IsNameStart(src[e]))
  }

  /** After ignored tokens comes a character that is no colon. */
  predicate NoColonAfter(src: string, i: nat) {
    i <= |src| &&
    var e := WsEnd(src, i);
    e < |src| && src[e] != ':'
  }

  /** After ignored tokens comes a character that starts no name. */
  predicate NoNameAfter(src: string, i: nat) {
    i <= |src| &&
    var e := WsEnd(src, i);
    e < |src| && !IsNameStart(src[e])
  }

  lemma {:induction false} NameRunExact(src: string, i: nat, run: string)
    requires At(src, i, run) && NoNameAt(src, i + |run|)
    requires forall k | 0 <= k < |run| :: IsNameChar(run[k])
    ensures NameRunEnd(src, i) == i + |run|
    decreases |run|
  {
    if run != "" {
      assert run == [run[0]] + run[1..];
      AtSplit(src, i, [run[0]], run[1..]);
      AtChar(src, i, run, 0);
      NameRunExact(src, i + 1, run[1..]);
    }
  }

  lemma ReadNameExact(src: string, i: nat, name: string)
    requires IsName(name) && At(src, i, name) && NoNameAt(src, i + |name|)
    ensures ReadName(src, i) == Some(Read(name, i + |name|))
  {
    assert name == [name[0]] + name[1..];
    AtSplit(src, i, [name[0]], name[1..]);
    AtChar(src, i, name, 0);
    NameRunExact(src, i + 1, name[1..]);
    assert src[i..i + |name|] == name;
  }

  lemma TriviaStart(src: string, i: nat, ts: seq<Trivia>)
    requires WfTrivia(ts) && ts != [] && At(src, i, PrintTrivia(ts))
    ensures i < |src| && !IsNameChar(src[i])
  {
    PrintTriviaCons(ts);
    AtSplit(src, i, PrintTrivium(ts[0]), PrintTrivia(ts[1..]));
    AtChar(src, i, PrintTrivium(ts[0]), 0);
  }

  /** Trivia and then a character that is none of them. */
  lemma TriviaThen(src: string, i: nat, ts: seq<Trivia>, c: char)
    requires WfTrivia(ts) && c != '#' && c != ',' && !IsSpace(c)
    requires At(src, i, PrintTrivia(ts))
    requires i + |PrintTrivia(ts)| < |src| && src[i + |PrintTrivia(ts)|] == c
    ensures WsEnd(src, i) == i + |PrintTrivia(ts)|
    ensures !IsNameChar(c) ==> NoNameAt(src, i)
  {
    WsEndOverTrivia(src, i, ts);
    if ts != [] {
      TriviaStart(src, i, ts);
    } else {
      assert PrintTrivia(ts) == "";
    }
  }

  lemma DecorationsEndSkipsWs(src: string, i: nat)
    requires i <= |src|
    ensures DecorationsEnd(src, WsEnd(src, i)) == DecorationsEnd(src, i)
    ensures TailEnd(src, WsEnd(src, i)) == TailEnd(src, i)
  {
    WsEndTwice(src, i);
  }

  lemma FieldsFromSkipsWs(src: string, i: nat, depth: int)
    requires i <= |src|
    ensures FieldsFrom(src, WsEnd(src, i), depth) == FieldsFrom(src, i, depth)
  {
    WsEndTwice(src, i);
    assert TurnAt(src, WsEnd(src, i), depth) == TurnAt(src, i, depth);
  }

  // ---------------------------------------------------------------------------
  // The tail of a selection
  // ---------------------------------------------------------------------------

  lemma GroupAfterTrivia(src: string, i: nat, lead: seq<Trivia>, open: char, body: seq<Lexeme>, close: char)
    requires IsBracketPair(open, close) && WfTrivia(lead) && Enclosed(body, open, close)
    requires At(src, i, PrintTrivia(lead) + PrintGroup(open, body, close))
    ensures var k := WsEnd(src, i);
      k < |src| && src[k] == open
      && BalancedEnd(src, k, open, close) == i + |PrintTrivia(lead) + PrintGroup(open, body, close)|
    ensures NoNameAt(src, i)
  {
    hide WsEnd, BalancedEnd, PrintGroup, Enclosed, PrintTrivia, WfTrivia;
    AtSplit(src, i, PrintTrivia(lead), PrintGroup(open, body, close));
    var k := i + |PrintTrivia(lead)|;
    SkipBalancedExact(src, k, open, body, close);
    TriviaThen(src, i, lead, open);
  }

  /** Arguments are skipped whole. */
  lemma SkipArguments(src: string, i: nat, d: Decoration)
    requires d.Arguments? && WfDecoration(d) && At(src, i, PrintDecoration(d))
    ensures DecorationsEnd(src, i) == DecorationsEnd(src, i + |PrintDecoration(d)|)
    ensures TailEnd(src, i) == TailEnd(src, i + |PrintDecoration(d)|)
  {
    hide WsEnd, BalancedEnd, PrintGroup, Enclosed, PrintTrivia, WfTrivia;
    GroupAfterTrivia(src, i, d.lead, '(', d.body, ')');
  }

  /** Up to a directive's `@`, what its gap and name look like. */
  lemma AtDirective(src: string, i: nat, d: Decoration)
    requires d.Directive? && WfDecoration(d) && At(src, i, PrintDecoration(d))
    ensures var k := WsEnd(src, i);
      && k < |src| && src[k] == '@' && At(src, k + 1, PrintTrivia(d.gap))
      && At(src, k + 1 + |PrintTrivia(d.gap)|, d.name)
      && k + 1 + |PrintTrivia(d.gap)| + |d.name| == i + |PrintDecoration(d)|
    ensures NoNameAt(src, i)
  {
    hide WsEnd, PrintTrivia, WfTrivia;
    var rest := PrintTrivia(d.gap) + d.name;
    AtSplit(src, i, PrintTrivia(d.lead), "@" + rest);
    var k := i + |PrintTrivia(d.lead)|;
    AtSplit(src, k, "@", rest);
    AtChar(src, k, "@", 0);
    TriviaThen(src, i, d.lead, '@');
    AtSplit(src, k + 1, PrintTrivia(d.gap), d.name);
  }

  /** A directive whose name follows its `@` at once is skipped whole. */
  lemma SkipDirectiveExact(src: string, i: nat, d: Decoration)
    requires d.Directive? && d.gap == [] && WfDecoration(d) && At(src, i, PrintDecoration(d))
    requires NoNameAt(src, i + |PrintDecoration(d)|)
    ensures DecorationsEnd(src, i) == DecorationsEnd(src, i + |PrintDecoration(d)|)
    ensures TailEnd(src, i) == TailEnd(src, i + |PrintDecoration(d)|)
  {
    hide WsEnd, BalancedEnd, PrintDecoration, ReadName;
    AtDirective(src, i, d);
    var k := WsEnd(src, i);
    var e := i + |PrintDecoration(d)|;
    assert PrintTrivia(d.gap) == "";
    ReadNameExact(src, k + 1, d.name);
    assert OptionalNameEnd(src, k + 1) == e;
    assert DecorationsEnd(src, i) == DecorationsEnd(src, DirectiveEnd(src, k));
    DecorationsEndSkipsWs(src, e);
  }

  /** After an `@` that no name follows at once, the scanner stops at the name set off from it. */
  lemma StopAtGappedName(src: string, i: nat, d: Decoration)
    requires d.Directive? && d.gap != [] && WfDecoration(d) && At(src, i, PrintDecoration(d))
    ensures TailEnd(src, i) == i + |PrintDecoration(d)| - |d.name|
    ensures At(src, TailEnd(src, i), d.name)
  {
    hide WsEnd, BalancedEnd, PrintDecoration, PrintTrivia, WfTrivia;
    AtDirective(src, i, d);
    var k := WsEnd(src, i);
    var p := k + 1 + |PrintTrivia(d.gap)|;
    AtChar(src, p, d.name, 0);
    TriviaStart(src, k + 1, d.gap);
    TriviaThen(src, k + 1, d.gap, d.name[0]);
    assert OptionalNameEnd(src, k + 1) == k + 1;
    assert DirectiveEnd(src, k) == p;
    WsEndTwice(src, k + 1);
    assert DecorationsEnd(src, p) == p;
  }

  /** A tail is no continuation of the name before it, and starts with no colon. */
  lemma TailStart(src: string, i: nat, ds: seq<Decoration>, nested: Option<Nested>)
    requires WfTail(ds, nested) && At(src, i, PrintTail(ds, nested))
    requires Boundary(src, i + |PrintTail(ds, nested)|)
    requires EndsInName(ds, nested) ==> NoNameAt(src, i + |PrintTail(ds, nested)|)
    ensures NoNameAt(src, i) && NoColonAfter(src, i)
    ensures ds != [] || nested.Some? ==> NoNameAfter(src, i)
  {
    hide WsEnd, PrintDecoration, PrintGroup, PrintTrivia, WfTrivia, Enclosed;
    if ds == [] {
      if nested.Some? {
        GroupAfterTrivia(src, i, nested.value.lead, '{', nested.value.body, '}');
      }
    } else {
      AtSplit(src, i, PrintDecoration(ds[0]), PrintTail(ds[1..], nested));
      DecorationStart(src, i, ds[0]);
    }
  }

  lemma DecorationStart(src: string, i: nat, d: Decoration)
    requires WfDecoration(d) && At(src, i, PrintDecoration(d))
    ensures NoNameAt(src, i) && NoColonAfter(src, i) && NoNameAfter(src, i)
  {
    hide WsEnd;
    match d {
      case Arguments(lead, body) => GroupAfterTrivia(src, i, lead, '(', body, ')');
      case Directive(_, _, _) => AtDirective(src, i, d);
    }
  }

  lemma ReportableIsShown(name: string)
    ensures Reportable(name) == Shown(name)
  {
  }

  /** A bare name at the scanner's position is reported, and its tail skipped. */
  lemma NameReported(src: string, i: nat, name: string)
    requires IsName(name) && At(src, i, name)
    requires NoNameAt(src, i + |name|) && NoColonAfter(src, i + |name|)
    ensures FieldsFrom(src, i, 1) == Shown(name) + FieldsFrom(src, TailEnd(src, i + |name|), 1)
  {
    hide TailEnd, ReadName;
    ReportableIsShown(name);
    AtChar(src, i, name, 0);
    assert WsEnd(src, i) == i;
    ReadNameExact(src, i, name);
    DecorationsEndSkipsWs(src, i + |name|);
    var first := Read(name, i + |name|);
    assert FieldStep(src, first) == Step(Shown(name), TailEnd(src, i + |name|));
    NotDots(src, i);
    assert TurnAt(src, i, 1) == Go(Shown(name), TailEnd(src, i + |name|), 1);
  }

  lemma NotDots(src: string, i: nat)
    requires i < |src| && src[i] != '.'
    ensures !At(src, i, "...")
  {
    if At(src, i, "...") {
      AtChar(src, i, "...", 0);
    }
  }

  lemma EmptyTail(src: string, i: nat, nested: Option<Nested>)
    requires WfNested(nested) && At(src, i, PrintNested(nested))
    requires Boundary(src, i + |PrintNested(nested)|)
    ensures FieldsFrom(src, TailEnd(src, i), 1) == FieldsFrom(src, i + |PrintNested(nested)|, 1)
  {
    hide WsEnd, BalancedEnd, PrintGroup, PrintTrivia, WfTrivia, Enclosed, FieldsFrom;
    if nested.Some? {
      GroupAfterTrivia(src, i, nested.value.lead, '{', nested.value.body, '}');
      WsEndTwice(src, i);
    } else {
      assert PrintNested(nested) == "";
      WsEndTwice(src, i);
      assert TailEnd(src, i) == WsEnd(src, i);
      FieldsFromSkipsWs(src, i, 1);
    }
  }

  lemma TailCons(src: string, i: nat, ds: seq<Decoration>, nested: Option<Nested>)
    requires ds != [] && WfTail(ds, nested) && At(src, i, PrintTail(ds, nested))
    ensures WfDecoration(ds[0]) && WfTail(ds[1..], nested)
    ensures At(src, i, PrintDecoration(ds[0]))
    ensures At(src, i + |PrintDecoration(ds[0])|, PrintTail(ds[1..], nested))
    ensures |PrintTail(ds, nested)| == |PrintDecoration(ds[0])| + |PrintTail(ds[1..], nested)|
  {
    hide WfDecoration, PrintDecoration;
    AtSplit(src, i, PrintDecoration(ds[0]), PrintTail(ds[1..], nested));
  }

  /** A decoration is passed over, or its set-off name reported. */
  lemma DecorationReported(src: string, i: nat, d: Decoration)
    requires WfDecoration(d) && At(src, i, PrintDecoration(d))
    requires d.Directive? ==> NoNameAt(src, i + |PrintDecoration(d)|) && NoColonAfter(src, i + |PrintDecoration(d)|)
    ensures FieldsFrom(src, TailEnd(src, i), 1)
         == DecorationReports(d) + FieldsFrom(src, TailEnd(src, i + |PrintDecoration(d)|), 1)
  {
    hide FieldsFrom, TailEnd, PrintDecoration, NoColonAfter, Shown;
    if d.Arguments? {
      SkipArguments(src, i, d);
    } else if d.gap == [] {
      SkipDirectiveExact(src, i, d);
    } else {
      StopAtGappedName(src, i, d);
      NameReported(src, i + |PrintDecoration(d)| - |d.name|, d.name);
    }
  }

  lemma EndsInNameCons(ds: seq<Decoration>, nested: Option<Nested>)
    requires ds != [] && EndsInName(ds[1..], nested) && (ds[1..] != [] || ds[0].Directive?)
    ensures EndsInName(ds, nested)
  {
  }

  lemma NoDecorations(nested: Option<Nested>)
    ensures PrintTail([], nested) == PrintNested(nested) && WfTail([], nested) == WfNested(nested)
    ensures TailReports([]) == []
  {
  }

  /** What is reported from the end of a selection's first name to the end of the selection. */
  lemma {:induction false} TailReported(src: string, i: nat, ds: seq<Decoration>, nested: Option<Nested>)
    requires WfTail(ds, nested) && At(src, i, PrintTail(ds, nested))
    requires Boundary(src, i + |PrintTail(ds, nested)|)
    requires ds != [] && EndsInName(ds, nested) ==> NoNameAt(src, i + |PrintTail(ds, nested)|)
    ensures FieldsFrom(src, TailEnd(src, i), 1) == TailReports(ds) + FieldsFrom(src, i + |PrintTail(ds, nested)|, 1)
    decreases |ds|
  {
    hide FieldsFrom, TailEnd, PrintDecoration, Boundary, WfDecoration, NoColonAfter, DecorationReports, NoNameAt,
      NoNameAfter, EndsInName;
    hide PrintTail, WfTail;
    if ds == [] {
      NoDecorations(nested);
      EmptyTail(src, i, nested);
    } else {
      TailCons(src, i, ds, nested);
      var e := i + |PrintDecoration(ds[0])|;
      if EndsInName(ds[1..], nested) && (ds[1..] != [] || ds[0].Directive?) {
        EndsInNameCons(ds, nested);
      }
      TailReported(src, e, ds[1..], nested);
      if ds[0].Directive? {
        TailStart(src, e, ds[1..], nested);
      }
      Regroup(DecorationReports(ds[0]), TailReports(ds[1..]), FieldsFrom(src, i + |PrintTail(ds, nested)|, 1));
      DecorationReported(src, i, ds[0]);
    }
  }

  // ---------------------------------------------------------------------------
  // The head of a selection
  // ---------------------------------------------------------------------------

  lemma DotsTurn(src: string, i: nat)
    requires At(src, i, "...")
    ensures FieldsFrom(src, i, 1) == FieldsFrom(src, SpreadEnd(src, i), 1)
  {
    hide SpreadEnd;
    AtChar(src, i, "...", 0);
    assert WsEnd(src, i) == i;
    assert TurnAt(src, i, 1) == Go([], SpreadEnd(src, i), 1);
  }

  lemma AliasedFieldReported(src: string, i: nat, a: Alias, name: string)
    requires WfHead(Field(Some(a), name)) && At(src, i, PrintAlias(a) + name)
    requires NoNameAt(src, i + |PrintAlias(a) + name|)
    ensures FieldsFrom(src, i, 1)
         == Shown(name) + FieldsFrom(src, TailEnd(src, i + |PrintAlias(a) + name|), 1)
  {
    hide WsEnd, TailEnd, ReadName, PrintTrivia, WfTrivia, Shown, Reportable, FieldsFrom, At;
    AliasParts(src, i, a, name);
    var first := Read(a.name, i + |a.name|);
    var j := first.end + |PrintTrivia(a.before)|;
    AtChar(src, j, ":", 0);
    TriviaThen(src, first.end, a.before, ':');
    var k := j + 1 + |PrintTrivia(a.after)|;
    AtChar(src, k, name, 0);
    TriviaThen(src, j + 1, a.after, name[0]);
    ReadNameExact(src, i, a.name);
    ReadNameExact(src, k, name);
    ReportableIsShown(name);
    var step := Step(Shown(name), TailEnd(src, k + |name|));
    assert FieldStep(src, first) == step;
    FieldTurn(src, i, first, step);
  }

  /** The alias, the ignored tokens around its colon, and the field name. */
  lemma AliasParts(src: string, i: nat, a: Alias, name: string)
    requires At(src, i, PrintAlias(a) + name)
    ensures At(src, i, a.name)
    ensures At(src, i + |a.name|, PrintTrivia(a.before))
    ensures At(src, i + |a.name| + |PrintTrivia(a.before)|, ":")
    ensures At(src, i + |a.name| + |PrintTrivia(a.before)| + 1, PrintTrivia(a.after))
    ensures |PrintAlias(a)| == |a.name| + |PrintTrivia(a.before)| + 1 + |PrintTrivia(a.after)|
    ensures At(src, i + |PrintAlias(a)|, name)
  {
    hide At, PrintTrivia;
    AtSplit(src, i, PrintAlias(a), name);
    AtSplit(src, i, a.name, PrintTrivia(a.before) + (":" + PrintTrivia(a.after)));
    AtSplit(src, i + |a.name|, PrintTrivia(a.before), ":" + PrintTrivia(a.after));
    AtSplit(src, i + |a.name| + |PrintTrivia(a.before)|, ":", PrintTrivia(a.after));
  }

  lemma FieldTurn(src: string, i: nat, first: Read, step: Step)
    requires i <= |src| && ReadName(src, i) == Some(first) && first.end <= |src|
    requires FieldStep(src, first) == step
    ensures FieldsFrom(src, i, 1) == step.names + FieldsFrom(src, step.next, 1)
  {
    assert WsEnd(src, i) == i;
    NotDots(src, i);
    assert TurnAt(src, i, 1) == Go(step.names, step.next, 1);
  }

  lemma SpreadReported(src: string, i: nat, gap: seq<Trivia>, name: string)
    requires WfTrivia(gap) && IsName(name) && At(src, i, "..." + (PrintTrivia(gap) + name))
    requires NoNameAt(src, i + 3 + |PrintTrivia(gap)| + |name|)
    ensures FieldsFrom(src, i, 1) == FieldsFrom(src, TailEnd(src, i + 3 + |PrintTrivia(gap)| + |name|), 1)
  {
    hide WsEnd, TailEnd, PrintTrivia, WfTrivia, FieldsFrom, ReadName;
    AtSplit(src, i, "...", PrintTrivia(gap) + name);
    AtSplit(src, i + 3, PrintTrivia(gap), name);
    DotsTurn(src, i);
    var k := i + 3 + |PrintTrivia(gap)|;
    AtChar(src, k, name, 0);
    TriviaThen(src, i + 3, gap, name[0]);
    ReadNameExact(src, k, name);
    assert OptionalNameEnd(src, k) == k + |name|;
  }

  lemma InlineReported(src: string, i: nat)
    requires At(src, i, "...") && NoNameAfter(src, i + 3)
    ensures FieldsFrom(src, i, 1) == FieldsFrom(src, TailEnd(src, i + 3), 1)
  {
    hide WsEnd, TailEnd, FieldsFrom;
    DotsTurn(src, i);
    assert OptionalNameEnd(src, WsEnd(src, i + 3)) == WsEnd(src, i + 3);
    DecorationsEndSkipsWs(src, i + 3);
  }

  lemma TypedInlineParts(src: string, i: nat, gap: seq<Trivia>, mid: seq<Trivia>, typeName: string)
    requires At(src, i, PrintHead(TypedInline(gap, mid, typeName)))
    ensures At(src, i, "..." + (PrintTrivia(gap) + "on"))
    ensures At(src, i + 5 + |PrintTrivia(gap)|, PrintTrivia(mid))
    ensures At(src, i + 5 + |PrintTrivia(gap)| + |PrintTrivia(mid)|, typeName)
  {
    hide At, PrintTrivia;
    var rest := PrintTrivia(mid) + typeName;
    assert PrintHead(TypedInline(gap, mid, typeName)) == ("..." + (PrintTrivia(gap) + "on")) + rest;
    AtSplit(src, i, "..." + (PrintTrivia(gap) + "on"), rest);
    AtSplit(src, i + 5 + |PrintTrivia(gap)|, PrintTrivia(mid), typeName);
  }

  /** After `... on` the scanner stands at the type name, and takes it for a field. */
  lemma TypedInlineReported(src: string, i: nat, gap: seq<Trivia>, mid: seq<Trivia>, typeName: string)
    requires WfHead(TypedInline(gap, mid, typeName)) && At(src, i, PrintHead(TypedInline(gap, mid, typeName)))
    ensures At(src, i + |PrintHead(TypedInline(gap, mid, typeName))| - |typeName|, typeName)
    ensures FieldsFrom(src, i, 1)
         == FieldsFrom(src, i + |PrintHead(TypedInline(gap, mid, typeName))| - |typeName|, 1)
  {
    hide WsEnd, PrintTrivia, WfTrivia, FieldsFrom, ReadName, DecorationsEnd, At, TailEnd;
    TypedInlineParts(src, i, gap, mid, typeName);
    var e := i + 5 + |PrintTrivia(gap)|;
    assert |PrintHead(TypedInline(gap, mid, typeName))| == 5 + |PrintTrivia(gap)| + |PrintTrivia(mid)| + |typeName|;
    TriviaStart(src, e, mid);
    SpreadReported(src, i, gap, "on");
    var p := e + |PrintTrivia(mid)|;
    AtChar(src, p, typeName, 0);
    TriviaThen(src, e, mid, typeName[0]);
    StopAtName(src, e);
  }

  /** Where only ignored tokens separate the scanner from a name, the tail ends at that name. */
  lemma StopAtName(src: string, i: nat)
    requires i <= |src| && WsEnd(src, i) < |src| && IsNameStart(src[WsEnd(src, i)])
    ensures TailEnd(src, i) == WsEnd(src, i)
  {
    hide WsEnd;
    WsEndTwice(src, i);
  }

  /** What is reported for a selection's head, and where its tail is then looked for. */
  lemma HeadReported(src: string, i: nat, h: Head)
    requires WfHead(h) && At(src, i, PrintHead(h))
    requires !h.Inline? ==> NoNameAt(src, i + |PrintHead(h)|) && NoColonAfter(src, i + |PrintHead(h)|)
    requires h.Inline? ==> NoNameAfter(src, i + |PrintHead(h)|)
    ensures FieldsFrom(src, i, 1) == HeadReports(h) + FieldsFrom(src, TailEnd(src, i + |PrintHead(h)|), 1)
  {
    hide WsEnd, TailEnd, FieldsFrom, PrintTrivia, WfTrivia, Shown;
    match h {
      case Field(None, name) => NameReported(src, i, name);
      case Field(Some(a), name) => AliasedFieldReported(src, i, a, name);
      case Spread(gap, name) => SpreadReported(src, i, gap, name);
      case Inline => InlineReported(src, i);
      case TypedInline(gap, mid, typeName) =>
        TypedInlineReported(src, i, gap, mid, typeName);
        NameReported(src, i + |PrintHead(h)| - |typeName|, typeName);
    }
  }

  /** One printed selection contributes its reports; the main loop then stands behind it. */
  lemma SelectionReported(src: string, i: nat, s: Selection)
    requires WfSelection(s) && At(src, i, PrintSelection(s))
    requires Boundary(src, i + |PrintSelection(s)|)
    requires EndsInName(s.decorations, s.nested) ==> NoNameAt(src, i + |PrintSelection(s)|)
    ensures FieldsFrom(src, i, 1)
         == HeadReports(s.head) + TailReports(s.decorations) + FieldsFrom(src, i + |PrintSelection(s)|, 1)
  {
    hide WsEnd, TailEnd, FieldsFrom, PrintTrivia, WfTrivia, PrintHead, PrintTail, WfHead, WfTail,
      HeadReports, TailReports, NoColonAfter, NoNameAfter, Boundary;
    AtSplit(src, i, PrintTrivia(s.lead), PrintHead(s.head) + PrintTail(s.decorations, s.nested));
    var h := i + |PrintTrivia(s.lead)|;
    AtSplit(src, h, PrintHead(s.head), PrintTail(s.decorations, s.nested));
    var t := h + |PrintHead(s.head)|;
    WsEndOverTrivia(src, i, s.lead);
    FieldsFromSkipsWs(src, i, 1);
    FieldsFromSkipsWs(src, h, 1);
    TailStart(src, t, s.decorations, s.nested);
    HeadReported(src, h, s.head);
    TailReported(src, t, s.decorations, s.nested);
  }

  // ---------------------------------------------------------------------------
  // Selection sets and operations
  // ---------------------------------------------------------------------------

  lemma HeadStart(src: string, i: nat, h: Head)
    requires WfHead(h) && At(src, i, PrintHead(h))
    ensures i < |src| && src[i] == PrintHead(h)[0]
    ensures if h.Field? then IsNameStart(src[i]) else src[i] == '.'
  {
    AtChar(src, i, PrintHead(h), 0);
  }

  lemma SelectionStart(src: string, i: nat, s: Selection)
    requires WfSelection(s) && At(src, i, PrintSelection(s))
    ensures Boundary(src, i)
    ensures s.lead != [] || !s.head.Field? ==> NoNameAt(src, i)
  {
    hide WsEnd, PrintTrivia, WfTrivia, PrintHead, PrintTail, WfHead, WfTail;
    AtSplit(src, i, PrintTrivia(s.lead), PrintHead(s.head) + PrintTail(s.decorations, s.nested));
    var h := i + |PrintTrivia(s.lead)|;
    AtSplit(src, h, PrintHead(s.head), PrintTail(s.decorations, s.nested));
    HeadStart(src, h, s.head);
    TriviaThen(src, i, s.lead, src[h]);
    if s.lead != [] {
      TriviaStart(src, i, s.lead);
    }
  }

  lemma SelectionsCons(src: string, i: nat, ss: seq<Selection>)
    requires ss != [] && WfSelections(ss) && At(src, i, PrintSelections(ss))
    ensures WfSelection(ss[0]) && WfSelections(ss[1..])
    ensures |ss| > 1 ==> Separated(ss[0], ss[1])
    ensures At(src, i, PrintSelection(ss[0]))
    ensures At(src, i + |PrintSelection(ss[0])|, PrintSelections(ss[1..]))
    ensures |PrintSelections(ss)| == |PrintSelection(ss[0])| + |PrintSelections(ss[1..])|
  {
    hide WfSelection, PrintSelection, Separated;
    AtSplit(src, i, PrintSelection(ss[0]), PrintSelections(ss[1..]));
  }

  /** The main loop reads the closing brace and ends. */
  lemma ClosingBrace(src: string, i: nat, trail: seq<Trivia>)
    requires WfTrivia(trail) && At(src, i, PrintTrivia(trail) + "}")
    ensures Boundary(src, i) && NoNameAt(src, i)
    ensures FieldsFrom(src, i, 1) == []
  {
    hide PrintTrivia, WfTrivia;
    AtSplit(src, i, PrintTrivia(trail), "}");
    var k := i + |PrintTrivia(trail)|;
    AtChar(src, k, "}", 0);
    TriviaThen(src, i, trail, '}');
    NotDots(src, k);
    assert TurnAt(src, i, 1) == Go([], k + 1, 0);
    assert TurnAt(src, k + 1, 0) == Stop;
  }

  lemma {:induction false} SelectionsReported(src: string, i: nat, ss: seq<Selection>, trail: seq<Trivia>)
    requires WfSelections(ss) && WfTrivia(trail)
    requires At(src, i, PrintSelections(ss)) && At(src, i + |PrintSelections(ss)|, PrintTrivia(trail) + "}")
    ensures FieldsFrom(src, i, 1) == Reports(ss)
    ensures Boundary(src, i)
    ensures ss == [] || ss[0].lead != [] || !ss[0].head.Field? ==> NoNameAt(src, i)
    decreases |ss|
  {
    hide WsEnd, FieldsFrom, PrintTrivia, WfTrivia, PrintSelection, WfSelection, HeadReports, TailReports, Boundary;
    if ss == [] {
      assert PrintSelections(ss) == "";
      ClosingBrace(src, i, trail);
    } else {
      hide PrintSelections, WfSelections;
      SelectionsCons(src, i, ss);
      SelectionStart(src, i, ss[0]);
      var e := i + |PrintSelection(ss[0])|;
      SelectionsReported(src, e, ss[1..], trail);
      SelectionReported(src, i, ss[0]);
    }
  }

  /** A printed operation: what precedes its selection set, the set, and any text behind it. */
  function PrintOperation(prefix: seq<Lexeme>, ss: seq<Selection>, trail: seq<Trivia>, suffix: string): string {
    Print(prefix) + ("{" + (PrintSelections(ss) + ((PrintTrivia(trail) + "}") + suffix)))
  }

  predicate WfOperation(prefix: seq<Lexeme>, ss: seq<Selection>, trail: seq<Trivia>) {
    Wf(prefix) && Plain('{') !in prefix && WfSelections(ss) && WfTrivia(trail)
  }

  /** What the extractor lists, for every printed operation. */
  lemma ExtractorReports(prefix: seq<Lexeme>, ss: seq<Selection>, trail: seq<Trivia>, suffix: string)
    requires WfOperation(prefix, ss, trail)
    ensures TopLevelFields(PrintOperation(prefix, ss, trail, suffix)) == Reports(ss)
  {
    hide FirstBrace, FieldsFrom, Print, PrintSelections, PrintTrivia, Wf, WfSelections, WfTrivia, Reports, At;
    var src := PrintOperation(prefix, ss, trail, suffix);
    var close := PrintTrivia(trail) + "}";
    AtSelf(src);
    AtSplit(src, 0, Print(prefix), "{" + (PrintSelections(ss) + (close + suffix)));
    var b := |Print(prefix)|;
    AtSplit(src, b, "{", PrintSelections(ss) + (close + suffix));
    AtSplit(src, b + 1, PrintSelections(ss), close + suffix);
    AtSplit(src, b + 1 + |PrintSelections(ss)|, close, suffix);
    FirstBraceAfter(src, 0, prefix);
    SelectionsReported(src, b + 1, ss, trail);
  }

  /** Every report is a name and no placeholder, on every text. */
  lemma {:induction false} ReportsAreNames(src: string, i: nat, depth: int, name: string)
    requires i <= |src| && name in FieldsFrom(src, i, depth)
    ensures IsName(name) && name != INTERP
    decreases |src| - i
  {
    match TurnAt(src, i, depth) {
      case Stop =>
      case Go(names, next, depth') =>
        if name !in names {
          ReportsAreNames(src, next, depth', name);
        } else {
          TurnNames(src, i, depth, name);
        }
    }
  }

  lemma TurnNames(src: string, i: nat, depth: int, name: string)
    requires i <= |src| && TurnAt(src, i, depth).Go? && name in TurnAt(src, i, depth).names
    ensures IsName(name) && name != INTERP
  {
    hide WsEnd, TailEnd, ReadName, IsName;
  }

  // ---------------------------------------------------------------------------
  // When the report is the set of root fields
  // ---------------------------------------------------------------------------

  lemma {:induction false} TailReportsNothing(ds: seq<Decoration>)
    ensures TailReports(ds) == [] <==>
      forall k | 0 <= k < |ds| :: ds[k].Directive? && ds[k].gap != [] ==> ds[k].name == "__INTERP__"
    decreases |ds|
  {
    if ds != [] {
      var rest := ds[1..];
      TailReportsNothing(rest);
      assert forall k | 0 <= k < |rest| :: rest[k] == ds[k + 1];
      assert forall k | 0 < k < |ds| :: ds[k] == rest[k - 1];
    }
  }

  lemma FaithfulReports(s: Selection)
    ensures var extra := HeadReports(s.head) + TailReports(s.decorations);
      var own := if s.head.Field? then Shown(s.head.name) else [];
      if Faithful(s) then extra == own else |extra| > |own|
  {
    TailReportsNothing(s.decorations);
  }

  lemma {:induction false} ReportsAgree(ss: seq<Selection>)
    ensures |Reports(ss)| >= |RootFields(ss)|
    ensures Reports(ss) == RootFields(ss) <==> forall s | s in ss :: Faithful(s)
    ensures |Reports(ss)| == |RootFields(ss)| ==> Reports(ss) == RootFields(ss)
    decreases |ss|
  {
    hide Faithful, HeadReports, TailReports, Shown;
    if ss != [] {
      FaithfulReports(ss[0]);
      ReportsAgree(ss[1..]);
      assert ss == [ss[0]] + ss[1..];
    }
  }

  /**
   The extractor inverts the printer: on a printed operation it lists exactly the direct field
   names, in order, if and only if the set holds no typed inline fragment and no directive name
   set off from its `@`; one whose type or name is the placeholder does no harm, for it is not
   reported.
   */
  lemma ExtractorInvertsPrinter(prefix: seq<Lexeme>, ss: seq<Selection>, trail: seq<Trivia>, suffix: string)
    requires WfOperation(prefix, ss, trail)
    ensures TopLevelFields(PrintOperation(prefix, ss, trail, suffix)) == RootFields(ss)
       <==> forall s | s in ss :: Faithful(s)
  {
    ExtractorReports(prefix, ss, trail, suffix);
    ReportsAgree(ss);
  }
}
