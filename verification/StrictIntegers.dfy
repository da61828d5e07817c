/**
 Strict integer parsing: a regular expression, a conversion to a double, and a range test.

 The conversion may round, and of more than twenty digits ECMA-262 (section 7.1.4.1) lets an
 implementation ignore the rest. The result is nevertheless exact.
 */
module StrictIntegers {
  import opened Text
  import opened Decimals
  import opened Doubles
  import opened Powers

  datatype JsValue = JsNumber(n: Num) | JsBigInt(i: int) | JsString(s: string) | JsOther

  /** How an implementation reads a decimal of more than twenty digits. */
  datatype Reading = Exact | Truncated | Incremented

  /** WhiteSpace and LineTerminator code points of ECMA-262, sections 12.2 and 12.3. */
  predicate IsJsSpace(c: char) {
    || '\t' <= c <= '\r' || c == ' ' || c == '\U{A0}' || c == '\U{FEFF}' || c == '\U{1680}'
    || '\U{2000}' <= c <= '\U{200A}' || c == '\U{2028}' || c == '\U{2029}'
    || c == '\U{202F}' || c == '\U{205F}' || c == '\U{3000}'
  }

  function TrimStart(s: string): string {
    if s != "" && IsJsSpace(s[0]) then TrimStart(s[1..]) else s
  }

  function TrimEnd(s: string): string {
    if s != "" && IsJsSpace(s[|s| - 1]) then TrimEnd(s[..|s| - 1]) else s
  }

  function Trim(s: string): string { TrimEnd(TrimStart(s)) }

  /** The digits behind an optional sign. */
  function Digits(s: string): string {
    if s != "" && (s[0] == '+' || s[0] == '-') then s[1..] else s
  }

  /** The pattern `^[+-]?\d+$`. */
  predicate IsStrictInteger(s: string) { Digits(s) != "" && AllDigits(Digits(s)) }

  /** The mathematical value a strict integer denotes. */
  function Value(s: string): int
    requires IsStrictInteger(s)
  {
    if s[0] == '-' then -(Magnitude(Digits(s)) as int) else Magnitude(Digits(s))
  }

  function DigitCount(v: nat): nat { if v < 10 then 1 else 1 + DigitCount(v / 10) }

  /** `v` with its digits below the unit replaced by zeros. */
  function CutTo(v: nat, unit: nat): (r: nat)
    requires unit > 0
    ensures r <= v < r + unit
  {
    v - v % unit
  }

  lemma CutAtLeast(v: nat, unit: nat, k: nat)
    requires unit > 0 && k * unit <= v
    ensures k * unit <= CutTo(v, unit)
  {
    QuotientAtLeast(v, unit, k);
    DivParts(v, unit);
    MulMonotone(k, v / unit, unit);
  }

  /** The value the conversion rounds: all digits, or twenty of them by an allowed reading. */
  function ReadMagnitude(v: nat, reading: Reading): nat
  {
    if DigitCount(v) <= 20 || reading.Exact? then v
    else
      Pow10Positive(DigitCount(v) - 20);
      var unit := Pow10(DigitCount(v) - 20);
      if reading.Truncated? then CutTo(v, unit) else CutTo(v, unit) + unit
  }

  /** `Number(s)` on a strict integer. */
  function ToNumber(s: string, reading: Reading): Num
    requires IsStrictInteger(s)
  {
    var v: int := ReadMagnitude(Magnitude(Digits(s)), reading);
    Round(if s[0] == '-' then -v else v)
  }

  function ParseStrictSafeInteger(value: JsValue, reading: Reading): Option<Num> {
    match value
    case JsNumber(n) => if IsSafeInteger(n) then Some(n) else None
    case JsBigInt(i) => if i > MAX_SAFE || i < -MAX_SAFE then None else Some(Round(i))
    case JsOther => None
    case JsString(raw) =>
      var s := Trim(raw);
      if s == "" || !IsStrictInteger(s) then None
      else
        var n := ToNumber(s, reading);
        if IsSafeInteger(n) then Some(n) else None
  }

  function ParseStrictNonNegativeSafeInteger(value: JsValue, reading: Reading): Option<Num> {
    SafeResult(value, reading);
    var n := ParseStrictSafeInteger(value, reading);
    if n.None? || n.value.value < 0.0 then None else n
  }

  function ParseStrictPositiveSafeInteger(value: JsValue, reading: Reading): Option<Num> {
    SafeResult(value, reading);
    var n := ParseStrictSafeInteger(value, reading);
    if n.None? || n.value.value <= 0.0 then None else n
  }

  /** JavaScript's `<` on numbers: false as soon as one is not a number. */
  predicate Less(a: Num, b: Num) {
    match (a, b)
    case (NaN, _) => false
    case (_, NaN) => false
    case (Finite(x), Finite(y)) => x < y
    case (NegInf, _) => b != NegInf
    case (_, PosInf) => a != PosInf
    case _ => false
  }

  function ClampStrictSafeInteger(value: JsValue, fallback: Num, min: Num, max: Num, reading: Reading): Num {
    match ParseStrictSafeInteger(value, reading)
    case None => fallback
    case Some(n) => if Less(n, min) then min else if Less(max, n) then max else n
  }

  // ---------------------------------------------------------------------------
  // Twenty digits are enough
  // ---------------------------------------------------------------------------

  lemma {:induction false} Pow10Positive(n: nat)
    ensures Pow10(n) > 0
  {
    if n > 0 { Pow10Positive(n - 1); }
  }

  lemma {:induction false} Pow10Sum(m: nat, n: nat)
    ensures Pow10(m + n) == Pow10(m) * Pow10(n)
    decreases m
  {
    if m > 0 {
      Pow10Sum(m - 1, n);
      assert m + n - 1 == m - 1 + n;
      Associate(10, Pow10(m - 1), Pow10(n));
    }
  }

  lemma {:induction false} DigitCountBound(v: nat)
    ensures DigitCount(v) >= 1
    ensures DigitCount(v) > 1 ==> Pow10(DigitCount(v) - 1) <= v
    decreases v
  {
    if v >= 10 {
      DigitCountBound(v / 10);
      var n := DigitCount(v / 10);
      assert Pow10(n) == 10 * Pow10(n - 1);
      if n == 1 {
        assert Pow10(0) == 1;
      }
    }
  }

  lemma Pow10Of19()
    ensures Pow10(19) > MAX_SAFE + 1
  {
    assert Pow10(6) == 1_000_000;
    Pow10Sum(6, 6);
    Pow10Sum(12, 6);
    assert Pow10(19) == 10 * Pow10(18);
  }

  /** The first twenty digits alone put a longer number out of the safe range. */
  lemma CutIsLarge(v: nat)
    requires DigitCount(v) > 20
    ensures var unit := Pow10(DigitCount(v) - 20); unit > 0 && MAX_SAFE < CutTo(v, unit) <= v
  {
    hide Pow10, CutTo, DigitCount;
    var n := DigitCount(v);
    DigitCountBound(v);
    Pow10Of19();
    var unit, k := Pow10(n - 20), Pow10(19);
    Pow10Positive(n - 20);
    Pow10Sum(19, n - 20);
    assert 19 + (n - 20) == n - 1;
    CutAtLeast(v, unit, k);
    MulMonotone(1, unit, k);
    Products(k, unit);
  }

  lemma Products(a: int, b: int)
    ensures a * b == b * a && 1 * a == a
  {
  }

  /** Whatever an implementation does with the digits behind the twentieth, the value stays unsafe. */
  lemma ReadingKeepsRange(v: nat, reading: Reading)
    ensures ReadMagnitude(v, reading) <= MAX_SAFE <==> v <= MAX_SAFE
    ensures v <= MAX_SAFE ==> ReadMagnitude(v, reading) == v
  {
    hide CutTo, Pow10, DigitCount;
    if DigitCount(v) > 20 {
      CutIsLarge(v);
    }
  }

  lemma {:induction false} DigitCountExactly(v: nat, d: nat)
    requires d >= 1 && v < Pow10(d) && (d > 1 ==> Pow10(d - 1) <= v)
    ensures DigitCount(v) == d
    decreases d
  {
    if d == 1 {
      assert Pow10(1) == 10 * Pow10(0);
    } else {
      Pow10Positive(d - 2);
      assert Pow10(d) == 10 * Pow10(d - 1) && Pow10(d - 1) == 10 * Pow10(d - 2);
      DigitCountExactly(v / 10, d - 1);
    }
  }

  /**
   A number of twenty digits or fewer is read whole. Of a longer one an implementation may instead take the
   first twenty digits with zeros behind them, or those one higher.
   */
  lemma ReadingExactly(first: nat, n: nat, rest: nat, reading: Reading)
    requires rest < Pow10(n) && first < Pow10(20) && (n > 0 ==> Pow10(19) <= first)
    ensures var v := first * Pow10(n) + rest;
      ReadMagnitude(v, reading) ==
        match reading
        case Exact => v
        case Truncated => first * Pow10(n)
        case Incremented => if n == 0 then v else (first + 1) * Pow10(n)
  {
    hide Pow10;
    var unit := Pow10(n);
    var v := first * unit + rest;
    if n > 0 {
      LongNumber(first, n, rest);
      CutExactly(first, unit, rest);
    } else {
      ShortNumber(first, rest);
    }
  }

  lemma LongNumber(first: nat, n: nat, rest: nat)
    requires rest < Pow10(n) && Pow10(19) <= first < Pow10(20)
    ensures DigitCount(first * Pow10(n) + rest) == 20 + n
  {
    hide Pow10;
    Pow10Sum(19, n);
    Pow10Sum(20, n);
    MulMonotone(Pow10(19), first, Pow10(n));
    MulMonotone(first + 1, Pow10(20), Pow10(n));
    assert (first + 1) * Pow10(n) == first * Pow10(n) + Pow10(n);
    DigitCountExactly(first * Pow10(n) + rest, 20 + n);
  }

  lemma ShortNumber(first: nat, rest: nat)
    requires rest < Pow10(0) && first < Pow10(20)
    ensures first * Pow10(0) + rest == first && DigitCount(first) <= 20
  {
    DigitCountBound(first);
    if DigitCount(first) > 20 {
      Pow10Grows(20, DigitCount(first) - 1);
    }
  }

  lemma {:induction false} Pow10Grows(m: nat, n: nat)
    requires m <= n
    ensures Pow10(m) <= Pow10(n)
    decreases n
  {
    if m < n {
      Pow10Grows(m, n - 1);
    }
  }

  lemma CutExactly(first: nat, unit: nat, rest: nat)
    requires rest < unit
    ensures CutTo(first * unit + rest, unit) == first * unit
    ensures CutTo(first * unit + rest, unit) + unit == (first + 1) * unit
  {
    var v := first * unit + rest;
    DivParts(v, unit);
    var q := v / unit;
    assert (q + 1) * unit == q * unit + unit && (first + 1) * unit == first * unit + unit;
    if q < first {
      MulMonotone(q + 1, first, unit);
    } else if q > first {
      MulMonotone(first + 1, q, unit);
    }
  }

  // ---------------------------------------------------------------------------
  // Exactness
  // ---------------------------------------------------------------------------

  /** `ToNumber` of a strict integer is safe exactly when its value is, and then is that value. */
  lemma ToNumberExact(s: string, reading: Reading)
    requires IsStrictInteger(s)
    ensures IsSafeInteger(ToNumber(s, reading)) <==> -MAX_SAFE <= Value(s) <= MAX_SAFE
    ensures IsSafeInteger(ToNumber(s, reading)) ==> ToNumber(s, reading) == Finite(Value(s) as real)
  {
    var m := Magnitude(Digits(s));
    ReadingKeepsRange(m, reading);
    var v: int := ReadMagnitude(m, reading);
    var x: int := if s[0] == '-' then -v else v;
    RoundIsNumber(x);
    SafeIsExact(x, Round(x));
  }

  /**
   A string is accepted exactly when, trimmed, it is a decimal integer within the safe range, of
   any length and by any reading; and the result is then its mathematical value.
   */
  lemma StringsAreExact(raw: string, reading: Reading)
    ensures ParseStrictSafeInteger(JsString(raw), reading) ==
      if IsStrictInteger(Trim(raw)) && -MAX_SAFE <= Value(Trim(raw)) <= MAX_SAFE
      then Some(Finite(Value(Trim(raw)) as real)) else None
  {
    hide ToNumber, IsSafeInteger, Trim, Value, AllDigits;
    if IsStrictInteger(Trim(raw)) {
      ToNumberExact(Trim(raw), reading);
    }
  }

  lemma BigIntsAreExact(i: int, reading: Reading)
    ensures ParseStrictSafeInteger(JsBigInt(i), reading) ==
      if -MAX_SAFE <= i <= MAX_SAFE then Some(Finite(i as real)) else None
  {
    RoundIsNumber(i);
    SafeIsExact(i, Round(i));
  }

  /** Every result is a safe integer. */
  lemma SafeResult(value: JsValue, reading: Reading)
    ensures ParseStrictSafeInteger(value, reading).Some? ==> IsSafeInteger(ParseStrictSafeInteger(value, reading).value)
  {
    if value.JsBigInt? {
      RoundIsNumber(value.i);
      SafeIsExact(value.i, Round(value.i));
    }
  }

  /** The integer that a value denotes, if it does: a number's, a bigint's, or a trimmed decimal's. */
  function Denoted(value: JsValue): Option<int> {
    match value
    case JsNumber(n) => if n.Finite? && n.value == n.value.Floor as real then Some(n.value.Floor) else None
    case JsBigInt(i) => Some(i)
    case JsString(raw) => if IsStrictInteger(Trim(raw)) then Some(Value(Trim(raw))) else None
    case JsOther => None
  }

  predicate DenotesWithin(value: JsValue, low: int, high: int) {
    Denoted(value).Some? && low <= Denoted(value).value <= high
  }

  function Result(i: int): Option<Num> { Some(Finite(i as real)) }

  /** A value of any type is accepted exactly when it denotes a safe integer, and the result is that integer. */
  lemma ParsingIsExact(value: JsValue, reading: Reading)
    ensures ParseStrictSafeInteger(value, reading) ==
      if DenotesWithin(value, -MAX_SAFE, MAX_SAFE) then Result(Denoted(value).value) else None
  {
    hide IsStrictInteger, Trim, Value;
    match value {
      case JsNumber(n) =>
      case JsBigInt(i) => BigIntsAreExact(i, reading);
      case JsString(raw) => StringsAreExact(raw, reading);
      case JsOther =>
    }
  }

  /** The sign variants accept exactly the safe integers of their sign, and return them. */
  lemma SignVariantsAreExact(value: JsValue, reading: Reading)
    ensures ParseStrictNonNegativeSafeInteger(value, reading) ==
      if DenotesWithin(value, 0, MAX_SAFE) then Result(Denoted(value).value) else None
    ensures ParseStrictPositiveSafeInteger(value, reading) ==
      if DenotesWithin(value, 1, MAX_SAFE) then Result(Denoted(value).value) else None
  {
    hide ParseStrictSafeInteger, Denoted;
    ParsingIsExact(value, reading);
    SafeResult(value, reading);
  }

  /** The finite number is in the range; a bound that is not a number bounds nothing. */
  predicate IsWithin(y: real, min: Num, max: Num) {
    && min != PosInf && (min.Finite? ==> min.value <= y)
    && max != NegInf && (max.Finite? ==> y <= max.value)
  }

  predicate IsEmptyRange(min: Num, max: Num) {
    min == PosInf || max == NegInf || (min.Finite? && max.Finite? && max.value < min.value)
  }

  /** No other number of the range is as near to `x`. */
  ghost predicate IsClosestWithin(x: real, r: Num, min: Num, max: Num) {
    && r.Finite? && IsWithin(r.value, min, max)
    && forall y: real | IsWithin(y, min, max) && y != r.value :: Distance(r.value, x) < Distance(y, x)
  }

  /** A range is empty exactly when no number is in it. */
  lemma EmptyRangeExactly(min: Num, max: Num)
    ensures IsEmptyRange(min, max) <==> forall y: real :: !IsWithin(y, min, max)
  {
    if !IsEmptyRange(min, max) {
      var y := if min.Finite? then min.value else if max.Finite? then max.value else 0.0;
      assert IsWithin(y, min, max);
    }
  }

  /**
   A clamped value is the closest number of the range, or the fallback untouched. Of an empty range
   the minimum wins over values below it, and the maximum over all others.
   */
  lemma ClampIsExact(value: JsValue, fallback: Num, min: Num, max: Num, reading: Reading)
    ensures var r := ClampStrictSafeInteger(value, fallback, min, max, reading);
      if !DenotesWithin(value, -MAX_SAFE, MAX_SAFE) then r == fallback
      else
        var x := Denoted(value).value as real;
        if IsEmptyRange(min, max) then r == if min == PosInf || (min.Finite? && x < min.value) then min else max
        else IsClosestWithin(x, r, min, max)
  {
    hide ParseStrictSafeInteger, Denoted;
    ParsingIsExact(value, reading);
  }

  // ---------------------------------------------------------------------------
  // Printed integers
  // ---------------------------------------------------------------------------

  lemma PrintedValue(v: int)
    ensures IsStrictInteger(PrintInt(v)) && Value(PrintInt(v)) == v
  {
    PrintNatDigits(if v < 0 then -v else v);
    if v < 0 {
      assert Digits(PrintInt(v)) == PrintNat(-v);
    } else {
      assert IsDigit(PrintInt(v)[0]);
    }
  }

  predicate AllSpace(s: string) { forall k | 0 <= k < |s| :: IsJsSpace(s[k]) }

  lemma {:induction false} TrimStartPads(pad: string, s: string)
    requires AllSpace(pad) && s != "" && !IsJsSpace(s[0])
    ensures TrimStart(pad + s) == s
    decreases |pad|
  {
    if pad == "" {
      assert pad + s == s;
    } else {
      assert (pad + s)[1..] == pad[1..] + s;
      TrimStartPads(pad[1..], s);
    }
  }

  lemma {:induction false} TrimEndPads(s: string, pad: string)
    requires AllSpace(pad) && s != "" && !IsJsSpace(s[|s| - 1])
    ensures TrimEnd(s + pad) == s
    decreases |pad|
  {
    if pad == "" {
      assert s + pad == s;
    } else {
      var t := s + pad;
      assert t[|t| - 1] == pad[|pad| - 1];
      assert t[..|t| - 1] == s + pad[..|pad| - 1];
      TrimEndPads(s, pad[..|pad| - 1]);
    }
  }

  /** Every safe integer survives printing and parsing, with any white space around it. */
  lemma PrintedIntegersParse(v: int, before: string, after: string, reading: Reading)
    requires AllSpace(before) && AllSpace(after)
    ensures ParseStrictSafeInteger(JsString(before + (PrintInt(v) + after)), reading) ==
      if -MAX_SAFE <= v <= MAX_SAFE then Some(Finite(v as real)) else None
  {
    hide ParseStrictSafeInteger, Value, IsStrictInteger;
    var s := PrintInt(v);
    PrintNatDigits(if v < 0 then -v else v);
    assert s != "" && !IsJsSpace(s[0]) && !IsJsSpace(s[|s| - 1]) by {
      assert IsDigit(s[|s| - 1]);
      assert IsDigit(s[0]) || s[0] == '-';
    }
    PrintedValue(v);
    assert (s + after)[0] == s[0];
    TrimStartPads(before, s + after);
    TrimEndPads(s, after);
    StringsAreExact(before + (s + after), reading);
  }

  // ---------------------------------------------------------------------------
  // Accepted texts, character by character
  // ---------------------------------------------------------------------------

  const JS_SPACE_CODES: set<int> := {
    9, 10, 11, 12, 13, 32, 160, 5760, 8192, 8193, 8194, 8195, 8196, 8197, 8198, 8199, 8200, 8201, 8202, 8232, 8233,
    8239, 8287, 12288, 65279}

  /** White space, an optional sign, decimal digits, and white space. */
  predicate IsDecimalText(raw: string, a: string, sign: string, ds: string, b: string) {
    && raw == a + (sign + ds) + b && (forall c | c in a + b :: c as int in JS_SPACE_CODES)
    && (sign == "" || sign == "+" || sign == "-")
    && ds != "" && forall k | 0 <= k < |ds| :: ds[k] in "0123456789"
  }

  lemma JsSpaceExactly(c: char)
    ensures IsJsSpace(c) <==> c as int in JS_SPACE_CODES
  {
  }

  lemma {:induction false} TrimExactly(a: string, core: string, b: string)
    requires (forall c | c in a + b :: IsJsSpace(c)) && core != ""
    requires !IsJsSpace(core[0]) && !IsJsSpace(core[|core| - 1])
    ensures Trim(a + core + b) == core
    decreases |a|
  {
    if a != "" {
      assert (a + core + b)[1..] == a[1..] + core + b && a[0] in a + b;
      TrimExactly(a[1..], core, b);
    } else {
      assert a + core + b == core + b && (core + b)[0] == core[0];
      TrimEndExactly(core, b);
    }
  }

  lemma {:induction false} TrimEndExactly(core: string, b: string)
    requires (forall c | c in b :: IsJsSpace(c)) && core != "" && !IsJsSpace(core[|core| - 1])
    ensures TrimEnd(core + b) == core
    decreases |b|
  {
    if b != "" {
      var n := |b| - 1;
      assert (core + b)[..|core + b| - 1] == core + b[..n] && b[n] in b;
      TrimEndExactly(core, b[..n]);
    } else {
      assert core + b == core;
    }
  }

  lemma {:induction false} TrimParts(raw: string) returns (a: string, b: string)
    ensures raw == a + Trim(raw) + b && forall c | c in a + b :: IsJsSpace(c)
  {
    var m: string;
    a, m := TrimStartParts(raw);
    b := TrimEndParts(m);
    assert raw == a + (Trim(raw) + b);
  }

  lemma {:induction false} TrimStartParts(raw: string) returns (a: string, m: string)
    ensures m == TrimStart(raw) && raw == a + m && forall c | c in a :: IsJsSpace(c)
    decreases |raw|
  {
    if raw != "" && IsJsSpace(raw[0]) {
      a, m := TrimStartParts(raw[1..]);
      a := [raw[0]] + a;
    } else {
      a, m := "", raw;
    }
  }

  lemma {:induction false} TrimEndParts(m: string) returns (b: string)
    ensures m == TrimEnd(m) + b && forall c | c in b :: IsJsSpace(c)
    decreases |m|
  {
    if m != "" && IsJsSpace(m[|m| - 1]) {
      b := TrimEndParts(m[..|m| - 1]);
      assert m == m[..|m| - 1] + [m[|m| - 1]];
      b := b + [m[|m| - 1]];
    } else {
      b := "";
    }
  }

  lemma DigitClass(ds: string)
    ensures AllDigits(ds) <==> forall k | 0 <= k < |ds| :: ds[k] in "0123456789"
  {
    forall k | 0 <= k < |ds| ensures IsDigit(ds[k]) <==> ds[k] in "0123456789" {
      CharClasses(ds[k]);
    }
  }

  lemma SignedDigits(sign: string, ds: string)
    requires (sign == "" || sign == "+" || sign == "-") && ds != "" && AllDigits(ds)
    ensures IsStrictInteger(sign + ds)
    ensures Value(sign + ds) == if sign == "-" then -(PlaceValue(ds) as int) else PlaceValue(ds)
  {
    assert (sign + ds)[0] == if sign == "" then ds[0] else sign[0];
    assert IsDigit(ds[0]);
    assert Digits(sign + ds) == ds;
    MagnitudeIsPlaceValue(ds);
  }

  /** A decimal text is read as its digits' value, by their places, if that is below 2 to the 53rd. */
  lemma DecimalTextIsRead(raw: string, a: string, sign: string, ds: string, b: string, reading: Reading)
    requires IsDecimalText(raw, a, sign, ds, b)
    ensures AllDigits(ds)
    ensures var v: int := PlaceValue(ds);
      ParseStrictSafeInteger(JsString(raw), reading) ==
        if v < 0x20_0000_0000_0000 then Some(Finite((if sign == "-" then -v else v) as real)) else None
  {
    hide Trim, IsStrictInteger, Value, PlaceValue, ParseStrictSafeInteger;
    DigitClass(ds);
    SignedDigits(sign, ds);
    var core := sign + ds;
    assert core[0] == (if sign == "" then ds[0] else sign[0]) && core[|core| - 1] == ds[|ds| - 1];
    forall c | c in a + b ensures IsJsSpace(c) {
      JsSpaceExactly(c);
    }
    assert IsDigit(ds[0]) && IsDigit(ds[|ds| - 1]);
    TrimExactly(a, core, b);
    StringsAreExact(raw, reading);
  }

  /** And nothing else is read. */
  lemma OnlyDecimalTexts(raw: string, reading: Reading)
    requires ParseStrictSafeInteger(JsString(raw), reading).Some?
    ensures exists a: string, sign: string, ds: string, b: string :: IsDecimalText(raw, a, sign, ds, b)
  {
    hide ToNumber, IsSafeInteger, Trim;
    var a, b := TrimParts(raw);
    var core := Trim(raw);
    var ds := Digits(core);
    var sign := core[..|core| - |ds|];
    assert core == sign + ds;
    DigitClass(ds);
    forall c | c in a + b ensures c as int in JS_SPACE_CODES {
      JsSpaceExactly(c);
    }
    assert IsDecimalText(raw, a, sign, ds, b);
  }
}
