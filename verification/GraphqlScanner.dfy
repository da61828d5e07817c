/**
 The cursor-based GraphQL scanner that lists the root fields of an operation.

 Every scanning loop of the original is a method here, proved equal to a recursive
 function on the text and the cursor; the functions are what the lemmas speak about.
 Each function's own postcondition says that its cursor moves forward inside the text.
 */
module GraphqlScanner {
  import opened Text

  const TRIPLE := "\"\"\""
  const INTERP := "__INTERP__"

  predicate IsName(s: string) {
    |s| > 0 && IsNameStart(s[0]) && forall k | 0 <= k < |s| :: IsNameChar(s[k])
  }

  datatype Read = Read(name: string, end: nat)

  // ---------------------------------------------------------------------------
  // Specification functions
  // ---------------------------------------------------------------------------

  function CommentEnd(src: string, i: nat): (j: nat)
    requires i <= |src|
    ensures i <= j <= |src|
    ensures i < |src| && src[i] != '\n' ==> i < j
    decreases |src| - i
  {
    if i < |src| && src[i] != '\n' then CommentEnd(src, i + 1) else i
  }

  /** Just past the first triple quote at or after `i`, or the end of the text. */
  function BlockEnd(src: string, i: nat): (j: nat)
    requires i <= |src|
    ensures i <= j <= |src|
    decreases |src| - i
  {
    if At(src, i, TRIPLE) then i + 3
    else if i < |src| then BlockEnd(src, i + 1)
    else |src|
  }

  /** Just past the first unescaped `quote` at or after `i`, or the end of the text. */
  function QuoteEnd(src: string, i: nat, quote: char): (j: nat)
    ensures j <= |src| && (i <= |src| ==> i <= j)
    decreases |src| - i
  {
    if i >= |src| then |src|
    else if src[i] == '\\' then QuoteEnd(src, i + 2, quote)
    else if src[i] == quote then i + 1
    else QuoteEnd(src, i + 1, quote)
  }

  function StringEnd(src: string, i: nat): (j: nat)
    requires i < |src|
    ensures i < j <= |src|
  {
    if At(src, i, TRIPLE) then BlockEnd(src, i + 3) else QuoteEnd(src, i + 1, src[i])
  }

  function WsEnd(src: string, i: nat): (j: nat)
    requires i <= |src|
    ensures i <= j <= |src|
    ensures j < |src| ==> src[j] != '#' && src[j] != ',' && !IsSpace(src[j])
    decreases |src| - i
  {
    if i >= |src| then i
    else if src[i] == '#' then WsEnd(src, CommentEnd(src, i))
    else if src[i] == ',' || IsSpace(src[i]) then WsEnd(src, i + 1)
    else i
  }

  function NameRunEnd(src: string, i: nat): (j: nat)
    requires i <= |src|
    ensures i <= j <= |src|
    ensures forall k | i <= k < j :: IsNameChar(src[k])
    ensures j < |src| ==> !IsNameChar(src[j])
    decreases |src| - i
  {
    if i < |src| && IsNameChar(src[i]) then NameRunEnd(src, i + 1) else i
  }

  /** `NAME_RE.match(src, i)`: the longest name starting at `i`, if one does. */
  function ReadName(src: string, i: nat): (r: Option<Read>)
    requires i <= |src|
    ensures r.Some? ==> i < r.value.end <= |src| && r.value.name == src[i..r.value.end] && IsName(r.value.name)
    ensures r.Some? && r.value.end < |src| ==> !IsNameChar(src[r.value.end])
    ensures r.None? <==> i == |src| || !IsNameStart(src[i])
  {
    if i < |src| && IsNameStart(src[i]) then
      var e := NameRunEnd(src, i + 1);
      Some(Read(src[i..e], e))
    else None
  }

  /** Where the balanced-group loop stops when it stands at `i` with `depth` groups open. */
  function BalancedFrom(src: string, i: nat, open: char, close: char, depth: int): (j: nat)
    requires i <= |src|
    ensures i <= j <= |src|
    ensures i < |src| ==> i < j
    decreases |src| - i
  {
    if i >= |src| then |src|
    else if src[i] == '#' then BalancedFrom(src, CommentEnd(src, i), open, close, depth)
    else if src[i] == '"' || src[i] == '\'' then BalancedFrom(src, StringEnd(src, i), open, close, depth)
    else if src[i] == open then BalancedFrom(src, i + 1, open, close, depth + 1)
    else if src[i] == close then
      if depth - 1 == 0 then i + 1 else BalancedFrom(src, i + 1, open, close, depth - 1)
    else BalancedFrom(src, i + 1, open, close, depth)
  }

  function BalancedEnd(src: string, i: nat, open: char, close: char): (j: nat)
    requires i <= |src|
    ensures i <= j <= |src|
    ensures i < |src| ==> i < j
  {
    BalancedFrom(src, i, open, close, 0)
  }

  /** The end of the optional name that follows an `@` or a `...`. */
  function OptionalNameEnd(src: string, i: nat): (j: nat)
    requires i <= |src|
    ensures i <= j <= |src|
  {
    match ReadName(src, i) case None => i case Some(r) => r.end
  }

  /** The end of an optional group that starts exactly at `i`. */
  function OptionalGroupEnd(src: string, i: nat, open: char, close: char): (j: nat)
    requires i <= |src|
    ensures i <= j <= |src|
  {
    if i < |src| && src[i] == open then BalancedEnd(src, i, open, close) else i
  }

  /** The end of the directive whose `@` stands at `i`, with its optional arguments. */
  function DirectiveEnd(src: string, i: nat): (j: nat)
    requires i < |src|
    ensures i < j <= |src|
  {
    OptionalGroupEnd(src, WsEnd(src, OptionalNameEnd(src, i + 1)), '(', ')')
  }

  function DecorationsEnd(src: string, i: nat): (j: nat)
    requires i <= |src|
    ensures i <= j <= |src|
    decreases |src| - i
  {
    if i >= |src| then i
    else
      var k := WsEnd(src, i);
      if k < |src| && src[k] == '(' then DecorationsEnd(src, BalancedEnd(src, k, '(', ')'))
      else if k < |src| && src[k] == '@' then DecorationsEnd(src, DirectiveEnd(src, k))
      else k
  }

  /** What follows a field or spread name: arguments, directives, then a nested selection set. */
  function TailEnd(src: string, i: nat): (j: nat)
    requires i <= |src|
    ensures i <= j <= |src|
  {
    OptionalGroupEnd(src, WsEnd(src, DecorationsEnd(src, i)), '{', '}')
  }

  function FirstBrace(src: string, i: nat): (r: Option<nat>)
    requires i <= |src|
    ensures r.Some? ==> i <= r.value < |src| && src[r.value] == '{'
    decreases |src| - i
  {
    if i >= |src| then None
    else if src[i] == '#' then FirstBrace(src, CommentEnd(src, i))
    else if src[i] == '"' || src[i] == '\'' then FirstBrace(src, StringEnd(src, i))
    else if src[i] == '{' then Some(i)
    else FirstBrace(src, i + 1)
  }

  /** A name as it is reported: interpolation placeholders are not. */
  function Reportable(name: string): seq<string> {
    if name == INTERP then [] else [name]
  }

  /** The end of the spread or inline fragment whose dots stand at `i`. */
  function SpreadEnd(src: string, i: nat): (j: nat)
    requires i + 3 <= |src|
    ensures i + 3 <= j <= |src|
  {
    TailEnd(src, OptionalNameEnd(src, WsEnd(src, i + 3)))
  }

  /** The names one field contributes, and where the main loop goes on after it. */
  datatype Step = Step(names: seq<string>, next: nat)

  /** The field, with its optional alias, whose first name has been read. */
  function FieldStep(src: string, first: Read): (r: Step)
    requires first.end <= |src| 
    ensures first.end <= r.next <= |src|
  {
    var j := WsEnd(src, first.end);
    if j < |src| && src[j] == ':' then
      match ReadName(src, WsEnd(src, j + 1))
      case None => Step([], j + 1)
      case Some(second) => Step(Reportable(second.name), TailEnd(src, second.end))
    else Step(Reportable(first.name), TailEnd(src, j))
  }

  /** One turn of the main loop: it ends, or appends names and moves on. */
  datatype Turn = Stop | Go(names: seq<string>, next: nat, depth: int)

  function TurnAt(src: string, i: nat, depth: int): (r: Turn)
    requires i <= |src|
    ensures r.Go? ==> i < r.next <= |src|
  {
    if i >= |src| || depth <= 0 then Stop
    else
      var k := WsEnd(src, i);
      if k >= |src| then Stop
      else if At(src, k, "...") then Go([], SpreadEnd(src, k), depth)
      else if src[k] == '}' then Go([], k + 1, depth - 1)
      else
        var first := if depth != 1 then None else ReadName(src, k);
        match first
        case None => Go([], k + 1, if src[k] == '{' then depth + 1 else depth)
        case Some(name) => var step := FieldStep(src, name); Go(step.names, step.next, depth)
  }

  /** The names the main loop appends from position `i` on, with `depth` braces open. */
  function FieldsFrom(src: string, i: nat, depth: int): seq<string>
    requires i <= |src|
    decreases |src| - i
  {
    match TurnAt(src, i, depth)
    case Stop => []
    case Go(names, next, depth') => names + FieldsFrom(src, next, depth')
  }

  function TopLevelFields(query: string): seq<string>
  {
    match FirstBrace(query, 0)
    case None => []
    case Some(start) => FieldsFrom(query, start + 1, 1)
  }

  // ---------------------------------------------------------------------------
  // The loops
  // ---------------------------------------------------------------------------

  method SkipComment(src: string, start: nat) returns (i: nat)
    requires start <= |src|
    ensures i == CommentEnd(src, start)
  {
    i := start;
    while i < |src| && src[i] != '\n'
      invariant start <= i <= |src|
      invariant CommentEnd(src, i) == CommentEnd(src, start)
    {
      i := i + 1;
    }
  }

  method SkipString(src: string, start: nat) returns (i: nat)
    requires start < |src|
    ensures i == StringEnd(src, start)
  {
    if At(src, start, TRIPLE) {
      i := start + 3;
      while i < |src| && !At(src, i, TRIPLE)
        invariant start + 3 <= i <= |src|
        invariant BlockEnd(src, i) == BlockEnd(src, start + 3)
      {
        i := i + 1;
      }
      return if At(src, i, TRIPLE) then i + 3 else |src|;
    }
    var quote := src[start];
    i := start + 1;
    while i < |src|
      invariant start < i
      invariant QuoteEnd(src, i, quote) == QuoteEnd(src, start + 1, quote)
      decreases |src| - i
    {
      var ch := src[i];
      if ch == '\\' {
        i := i + 2;
        continue;
      }
      if ch == quote {
        return i + 1;
      }
      i := i + 1;
    }
    return |src|;
  }

  method SkipWsAndCommas(src: string, start: nat) returns (i: nat)
    requires start <= |src|
    ensures i == WsEnd(src, start)
  {
    i := start;
    while i < |src|
      invariant start <= i <= |src|
      invariant WsEnd(src, i) == WsEnd(src, start)
    {
      var ch := src[i];
      if ch == '#' {
        i := SkipComment(src, i);
        continue;
      }
      if ch == ',' || IsSpace(ch) {
        i := i + 1;
        continue;
      }
      break;
    }
  }

  method SkipBalanced(src: string, start: nat, open: char, close: char) returns (i: nat)
    requires start <= |src|
    ensures i == BalancedEnd(src, start, open, close)
  {
    var depth := 0;
    i := start;
    while i < |src|
      invariant start <= i <= |src|
      invariant BalancedFrom(src, i, open, close, depth) == BalancedEnd(src, start, open, close)
    {
      var ch := src[i];
      if ch == '#' {
        i := SkipComment(src, i);
        continue;
      }
      if ch == '"' || ch == '\'' {
        i := SkipString(src, i);
        continue;
      }
      if ch == open {
        depth := depth + 1;
        i := i + 1;
        continue;
      }
      if ch == close {
        depth := depth - 1;
        i := i + 1;
        if depth == 0 {
          return i;
        }
        continue;
      }
      i := i + 1;
    }
    return |src|;
  }

  method SkipDirective(src: string, start: nat) returns (i: nat)
    requires start < |src|
    ensures i == DirectiveEnd(src, start)
  {
    i := start + 1;
    var name := ReadName(src, i);
    if name.Some? {
      i := name.value.end;
    }
    i := SkipWsAndCommas(src, i);
    if i < |src| && src[i] == '(' {
      i := SkipBalanced(src, i, '(', ')');
    }
  }

  method SkipDirectivesAndArgs(src: string, start: nat) returns (i: nat)
    requires start <= |src|
    ensures i == DecorationsEnd(src, start)
  {
    i := start;
    while i < |src|
      invariant start <= i <= |src|
      invariant DecorationsEnd(src, i) == DecorationsEnd(src, start)
    {
      var k := SkipWsAndCommas(src, i);
      if k < |src| && src[k] == '(' {
        i := SkipBalanced(src, k, '(', ')');
        continue;
      }
      if k < |src| && src[k] == '@' {
        i := SkipDirective(src, k);
        continue;
      }
      return k;
    }
  }

  method FindFirstSelectionSet(query: string) returns (r: Option<nat>)
    ensures r == FirstBrace(query, 0)
  {
    var i := 0;
    while i < |query|
      invariant 0 <= i <= |query|
      invariant FirstBrace(query, i) == FirstBrace(query, 0)
    {
      var ch := query[i];
      if ch == '#' {
        i := SkipComment(query, i);
        continue;
      }
      if ch == '"' || ch == '\'' {
        i := SkipString(query, i);
        continue;
      }
      if ch == '{' {
        return Some(i);
      }
      i := i + 1;
    }
    return None;
  }

  /** The tail of a selection, as the main loop skips it after a name. */
  method SkipTail(query: string, start: nat) returns (i: nat)
    requires start <= |query|
    ensures i == TailEnd(query, start)
  {
    i := SkipDirectivesAndArgs(query, start);
    i := SkipWsAndCommas(query, i);
    if i < |query| && query[i] == '{' {
      i := SkipBalanced(query, i, '{', '}');
    }
  }

  method SkipSpread(query: string, start: nat) returns (i: nat)
    requires start + 3 <= |query|
    ensures i == SpreadEnd(query, start)
  {
    i := SkipWsAndCommas(query, start + 3);
    var name := ReadName(query, i);
    if name.Some? {
      i := name.value.end;
    }
    i := SkipTail(query, i);
  }

  method ScanField(query: string, first: Read) returns (step: Step)
    requires first.end <= |query| 
    ensures step == FieldStep(query, first)
  {
    hide WsEnd, TailEnd, ReadName;
    var fieldName := first.name;
    var j := SkipWsAndCommas(query, first.end);
    if j < |query| && query[j] == ':' {
      var k := SkipWsAndCommas(query, j + 1);
      var second := ReadName(query, k);
      if second.None? {
        return Step([], j + 1);
      }
      fieldName, j := second.value.name, second.value.end;
    }
    var names := if fieldName != INTERP then [fieldName] else [];
    j := SkipTail(query, j);
    return Step(names, j);
  }

  method TakeTurn(query: string, i: nat, depth: int) returns (turn: Turn)
    requires i < |query| && depth > 0
    ensures turn == TurnAt(query, i, depth)
  {
    var k := SkipWsAndCommas(query, i);
    if k >= |query| {
      return Stop;
    }
    if At(query, k, "...") {
      k := SkipSpread(query, k);
      return Go([], k, depth);
    }
    if query[k] == '}' {
      return Go([], k + 1, depth - 1);
    }
    var first := if depth != 1 then None else ReadName(query, k);
    if first.None? {
      return Go([], k + 1, if query[k] == '{' then depth + 1 else depth);
    }
    var step := ScanField(query, first.value);
    return Go(step.names, step.next, depth);
  }

  method ExtractTopLevelFields(query: string) returns (fields: seq<string>)
    ensures fields == TopLevelFields(query)
  {
    fields := [];
    var start := FindFirstSelectionSet(query);
    if start.None? {
      return;
    }
    var i := start.value + 1;
    var depth := 1;
    while i < |query| && depth > 0
      invariant i <= |query|
      invariant fields + FieldsFrom(query, i, depth) == TopLevelFields(query)
      decreases |query| - i
    {
      hide TurnAt;
      var turn := TakeTurn(query, i, depth);
      if turn.Stop? {
        break;
      }
      Regroup(fields, turn.names, FieldsFrom(query, turn.next, turn.depth));
      fields, i, depth := fields + turn.names, turn.next, turn.depth;
    }
  }
}
