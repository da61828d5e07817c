/**
 IEEE 754 binary64 numbers as ECMA-262 uses them: which reals are Number values, and the rounding
 of an integer to the nearest one (section 6.1.6.1 of ECMA-262). Negative zero is not told from zero.
 */
module Doubles {
  import opened Powers

  datatype Num = Finite(value: real) | PosInf | NegInf | NaN

  const MAX_SAFE: int := 9007199254740991

  /** Two to an exponent of either sign. */
  function Scale(e: int): real {
    if e >= 0 then Pow2(e) as real else 1.0 / Pow2Pos(-e) as real
  }

  function Pow2Pos(n: nat): (r: nat)
    ensures r > 0 && r == Pow2(n)
  {
    Pow2Positive(n);
    Pow2(n)
  }

  predicate IsScaled(x: real, m: int, e: int) {
    -(Pow2(53) as int) < m < Pow2(53) && -1074 <= e <= 971 && x == Times(m as real, Scale(e))
  }

  function Times(x: real, y: real): real { x * y }

  /** The finite Number values. */
  ghost predicate IsDouble(x: real) { exists m: int, e: int :: IsScaled(x, m, e) }

  /** The values a real may round to: the finite ones, and two to the 1024 with either sign. */
  ghost predicate IsCandidate(x: real) {
    IsDouble(x) || x == Pow2(1024) as real || x == -(Pow2(1024) as real)
  }

  function Distance(x: real, y: real): real { if x <= y then y - x else x - y }

  ghost predicate IsClosest(x: real, v: real) {
    IsCandidate(v) && forall d: real | IsCandidate(d) :: Distance(v, x) <= Distance(d, x)
  }

  /** `n` is a Number value for `x`, by any rule for ties. */
  ghost predicate IsNumberFor(x: real, n: Num) {
    match n
    case Finite(v) => IsDouble(v) && IsClosest(x, v)
    case PosInf => IsClosest(x, Pow2(1024) as real)
    case NegInf => IsClosest(x, -(Pow2(1024) as real))
    case NaN => false
  }

  /** `Number.isSafeInteger`. */
  predicate IsSafeInteger(n: Num) {
    n.Finite? && n.value == n.value.Floor as real && -MAX_SAFE <= n.value.Floor <= MAX_SAFE
  }

  // ---------------------------------------------------------------------------
  // Rounding, ties to even
  // ---------------------------------------------------------------------------

  /** The exponent at which `v` has a significand of at most 53 bits. */
  function Exponent(v: nat): nat {
    if v < 0x20_0000_0000_0000 then 0 else 1 + Exponent(v / 2)
  }

  /** The multiple of two to the `e` that is nearest to `v`, and the even one of two. */
  function Significand(v: nat, e: nat): nat {
    var unit := Pow2Pos(e);
    var q, r := v / unit, v % unit;
    if 2 * r > unit || (2 * r == unit && q % 2 == 1) then q + 1 else q
  }

  function RoundMagnitude(v: nat): nat {
    var e := Exponent(v);
    Significand(v, e) * Pow2(e)
  }

  /** The Number value for an integer. */
  function Round(v: int): Num {
    var a := RoundMagnitude(if v < 0 then -v else v);
    if a >= Pow2(1024) then (if v < 0 then NegInf else PosInf)
    else Finite(if v < 0 then -(a as real) else a as real)
  }

  // ---------------------------------------------------------------------------
  // Powers of two
  // ---------------------------------------------------------------------------

  lemma Pow2Of53()
    ensures Pow2(53) == MAX_SAFE + 1 == 0x20_0000_0000_0000
    ensures Pow2(52) == 0x10_0000_0000_0000
  {
    assert Pow2(13) == 8192;
    Pow2Sum(13, 13);
    Pow2Sum(26, 26);
  }

  lemma ScaleGrows(f: int, e: nat)
    requires f <= e
    ensures 0.0 < Scale(f) <= Pow2(e) as real
  {
    if f >= 0 {
      Pow2Grows(f, e);
      Pow2Positive(f);
    } else {
      var p := Pow2Pos(-f);
      Pow2Positive(e);
      assert p as real >= 1.0;
      assert 1.0 / p as real <= 1.0;
    }
  }

  // ---------------------------------------------------------------------------
  // The rounded value is a closest candidate
  // ---------------------------------------------------------------------------

  lemma {:induction false} ExponentBounds(v: nat)
    ensures v < Pow2(53 + Exponent(v))
    ensures Exponent(v) > 0 ==> Pow2(52 + Exponent(v)) <= v
    decreases v
  {
    Pow2Of53();
    if v >= 0x20_0000_0000_0000 {
      ExponentBounds(v / 2);
      var e := Exponent(v / 2);
      assert Pow2(53 + (e + 1)) == 2 * Pow2(53 + e);
      if e == 0 {
        assert Pow2(52 + (e + 1)) == Pow2(53);
      } else {
        assert Pow2(52 + (e + 1)) == 2 * Pow2(52 + e);
      }
    }
  }

  lemma DivParts(v: nat, unit: nat)
    requires unit > 0
    ensures v == v / unit * unit + v % unit && 0 <= v % unit < unit
  {
  }

  lemma QuotientAtLeast(v: nat, unit: nat, k: nat)
    requires unit > 0 && k * unit <= v
    ensures k <= v / unit
  {
    var q, r := v / unit, v % unit;
    DivParts(v, unit);
    assert (q + 1) * unit == q * unit + unit;
    if q < k {
      MulMonotone(q + 1, k, unit);
    }
  }

  function Gap(x: int, y: int): int { if x <= y then y - x else x - y }

  /** No multiple of the unit is nearer to `v` than the chosen one. */
  lemma NearestMultiple(v: nat, e: nat, k: int)
    ensures Gap(Significand(v, e) * Pow2(e), v) <= Gap(k * Pow2(e), v)
  {
    var unit: int := Pow2Pos(e);
    DivParts(v, unit);
    var q: int, r: int := v / unit, v % unit;
    assert (q + 1) * unit == q * unit + unit;
    if k <= q {
      MulMonotone(k, q, unit);
    } else {
      MulMonotone(q + 1, k, unit);
    }
  }

  /** Of two multiples equally near to `v` the even one is chosen. */
  lemma TiesToEven(v: nat, e: nat, k: int)
    requires k != Significand(v, e) && Gap(k * Pow2(e), v) == Gap(Significand(v, e) * Pow2(e), v)
    ensures Significand(v, e) % 2 == 0
  {
    var unit: int := Pow2Pos(e);
    DivParts(v, unit);
    var q: int, r: int, s: int := v / unit, v % unit, Significand(v, e);
    assert s == if 2 * r > unit || (2 * r == unit && q % 2 == 1) then q + 1 else q;
    OtherMultiples(k, q, unit);
  }

  lemma OtherMultiples(k: int, q: int, unit: int)
    requires unit > 0
    ensures (q + 1) * unit == q * unit + unit
    ensures k < q ==> k * unit <= q * unit - unit
    ensures k > q + 1 ==> k * unit >= q * unit + 2 * unit
  {
    assert (q - 1) * unit == q * unit - unit;
    assert (q + 2) * unit == q * unit + 2 * unit;
    if k < q {
      MulMonotone(k, q - 1, unit);
    } else if k > q + 1 {
      MulMonotone(q + 2, k, unit);
    }
  }

  lemma MulMonotoneReal(a: real, b: real, c: real)
    requires a <= b && c >= 0.0
    ensures a * c <= b * c
  {
  }

  lemma StrictProduct(a: real, b: real, c: real)
    requires a < b && c > 0.0
    ensures a * c < b * c
  {
  }

  /** A double of a smaller exponent lies below two to the 52 + e. */
  lemma SmallScale(d: real, m: int, f: int, e: nat)
    requires IsScaled(d, m, f) && f < e && e > 0
    ensures d <= Pow2(52 + e) as real
  {
    hide Scale, Times;
    ScaleGrows(f, e - 1);
    Pow2Sum(53, e - 1);
    Pow2Positive(53);
    assert 53 + (e - 1) == 52 + e;
    ScaledBelow(m, Pow2(53), Scale(f), Pow2(e - 1));
  }

  lemma ScaledBelow(m: int, p: nat, s: real, q: nat)
    requires -(p as int) < m < p && 0.0 < s <= q as real
    ensures -((p * q) as real) < Times(m as real, s) < (p * q) as real
  {
    RealProduct(p, q);
    ProductBelow(m as real, p as real, s, q as real);
    ProductBelow(-(m as real), p as real, s, q as real);
    NegativeProduct(m as real, s);
  }

  lemma RealProduct(p: int, q: int)
    ensures (p * q) as real == p as real * q as real
  {
  }

  lemma NegativeProduct(x: real, s: real)
    ensures (-x) * s == -(x * s)
  {
  }

  lemma Commute(x: real, y: real)
    ensures x * y == y * x
  {
  }

  lemma ProductBelow(x: real, y: real, s: real, z: real)
    requires x < y && y >= 0.0 && 0.0 < s <= z
    ensures x * s < y * z
  {
    StrictProduct(x, y, s);
    MulMonotoneReal(s, z, y);
    Commute(y, s);
    Commute(y, z);
  }

  lemma Regroup(m: int, p: nat, q: nat)
    ensures Times(m as real, (p * q) as real) == (m * p * q) as real
  {
    assert m * (p * q) == m * p * q;
  }

  /** A double of a larger exponent is a multiple of the unit. */
  lemma LargeScale(d: real, m: int, f: int, e: nat) returns (k: int)
    requires IsScaled(d, m, f) && e <= f
    ensures d == (k * Pow2(e)) as real
  {
    var p, q := Pow2(f - e), Pow2(e);
    Pow2Sum(f - e, e);
    assert d == Times(m as real, (p * q) as real);
    hide Pow2, Scale, Times;
    k := m * p;
    Regroup(m, p, q);
  }

  /** The rounded magnitude is at least as near to `v` as any finite double. */
  lemma RoundBeatsDouble(v: nat, d: real)
    requires IsDouble(d)
    ensures Distance(RoundMagnitude(v) as real, v as real) <= Distance(d, v as real)
  {
    var m: int, f: int :| IsScaled(d, m, f);
    var e := Exponent(v);
    hide Pow2, Scale, Significand, Exponent;
    if e == 0 {
      SignificandBounds(v);
    } else if f < e {
      SmallScale(d, m, f, e);
      ExponentBounds(v);
      Pow2Sum(52, e);
      NearestMultiple(v, e, Pow2(52));
    } else {
      var k := LargeScale(d, m, f, e);
      NearestMultiple(v, e, k);
    }
  }

  lemma RoundBeatsMultiple(v: nat, n: nat)
    requires Exponent(v) <= n
    ensures Distance(RoundMagnitude(v) as real, v as real) <= Distance(Pow2(n) as real, v as real)
  {
    var e := Exponent(v);
    Pow2Sum(n - e, e);
    NearestMultiple(v, e, Pow2(n - e));
  }

  lemma SignificandBounds(v: nat)
    ensures Significand(v, Exponent(v)) <= Pow2(53)
    ensures Exponent(v) > 0 ==> Significand(v, Exponent(v)) >= Pow2(52)
    ensures Exponent(v) == 0 ==> RoundMagnitude(v) == v < Pow2(53)
  {
    var e := Exponent(v);
    var unit := Pow2Pos(e);
    ExponentBounds(v);
    Pow2Of53();
    Pow2Sum(53, e);
    DivParts(v, unit);
    if v / unit >= Pow2(53) {
      MulMonotone(Pow2(53), v / unit, unit);
    }
    if e > 0 {
      Pow2Sum(52, e);
      QuotientAtLeast(v, unit, Pow2(52));
    }
  }

  /** Doubles lie strictly within two to the 1024. */
  lemma DoubleBelowLimit(d: real)
    requires IsDouble(d)
    ensures -(Pow2(1024) as real) < d < Pow2(1024) as real
  {
    var m: int, f: int :| IsScaled(d, m, f);
    hide Pow2, Scale, Times;
    ScaleGrows(f, 971);
    Pow2Sum(53, 971);
    ScaledBelow(m, Pow2(53), Scale(f), Pow2(971));
  }

  /** A rounded magnitude below the limit is a double. */
  lemma RoundIsDouble(v: nat)
    requires RoundMagnitude(v) < Pow2(1024)
    ensures IsDouble(RoundMagnitude(v) as real)
  {
    var e := Exponent(v);
    var m := Significand(v, e);
    var a := RoundMagnitude(v);
    SignificandBounds(v);
    Pow2Of53();
    hide IsDouble, Pow2;
    assert a == m * Pow2(e);
    if e == 0 {
      UnscaledIsDouble(v);
    } else {
      Pow2Sum(52, e);
      MulMonotone(Pow2(52), m, Pow2(e));
      ExponentLimit(52 + e);
      if m == Pow2(53) {
        Pow2Sum(53, e);
        ExponentLimit(53 + e);
        Pow2Sum(52, e + 1);
        IntegerIsScaled(Pow2(52), e + 1);
      } else {
        IntegerIsScaled(m, e);
      }
    }
  }

  lemma UnscaledIsDouble(m: int)
    requires -(Pow2(53) as int) < m < Pow2(53)
    ensures IsDouble(m as real)
  {
    assert Scale(0) == 1.0;
    assert IsScaled(m as real, m, 0);
  }

  lemma TimesInt(m: int, q: nat)
    ensures Times(m as real, q as real) == (m * q) as real
  {
  }

  lemma IntegerIsScaled(m: nat, e: nat)
    requires m < Pow2(53) && e <= 971
    ensures IsDouble((m * Pow2(e)) as real)
  {
    var q := Pow2(e);
    assert Scale(e) == q as real;
    hide Pow2, Scale;
    TimesInt(m, q);
    assert IsScaled((m * q) as real, m, e);
  }

  lemma ExponentLimit(n: nat)
    requires Pow2(n) < Pow2(1024)
    ensures n < 1024
  {
    if n >= 1024 { Pow2Grows(1024, n); }
  }

  /** Below two to the 1024 a rounded magnitude does not exceed it. */
  lemma RoundWithinLimit(v: nat)
    requires v < Pow2(1024)
    ensures Exponent(v) <= 971 && RoundMagnitude(v) <= Pow2(1024)
  {
    var e := Exponent(v);
    ExponentBounds(v);
    SignificandBounds(v);
    if e > 971 {
      Pow2Grows(1024, 52 + e);
    }
    MulMonotone(Significand(v, e), Pow2(53), Pow2(e));
    Pow2Sum(53, e);
    Pow2Grows(53 + e, 1024);
  }

  /** The rounding of a magnitude, cut off at the limit, is closest among the candidates. */
  lemma MagnitudeIsClosest(v: nat)
    ensures var a := RoundMagnitude(v);
      IsClosest(v as real, if a >= Pow2(1024) then Pow2(1024) as real else a as real)
  {
    hide RoundMagnitude, Exponent, IsDouble;
    var a := RoundMagnitude(v);
    var limit := Pow2(1024);
    var w := if a >= limit then limit as real else a as real;
    if a < limit {
      RoundIsDouble(v);
    }
    if v < limit {
      RoundWithinLimit(v);
      assert w == a as real;
    } else if a < limit {
      RoundAboveLimit(v);
    }
    forall d: real | IsCandidate(d) ensures Distance(w, v as real) <= Distance(d, v as real) {
      if IsDouble(d) {
        DoubleBelowLimit(d);
        RoundBeatsDouble(v, d);
      } else if v < limit {
        RoundBeatsMultiple(v, 1024);
      }
    }
  }

  lemma RoundAboveLimit(v: nat)
    requires v >= Pow2(1024)
    ensures RoundMagnitude(v) >= Pow2(1024)
  {
    var e := Exponent(v);
    if e <= 1024 {
      RoundBeatsMultiple(v, 1024);
      NearestAbove(v, e);
    } else {
      SignificandBounds(v);
      MulMonotone(Pow2(52), Significand(v, e), Pow2(e));
      Pow2Sum(52, e);
      Pow2Grows(1024, 52 + e);
    }
  }

  /** Rounding does not pass below a multiple of the unit. */
  lemma NearestAbove(v: nat, e: nat)
    requires e == Exponent(v) && e <= 1024 && v >= Pow2(1024)
    ensures RoundMagnitude(v) >= Pow2(1024)
  {
    var unit := Pow2Pos(e);
    Pow2Sum(1024 - e, e);
    var k := Pow2(1024 - e);
    QuotientAtLeast(v, unit, k);
    MulMonotone(k, Significand(v, e), unit);
  }

  lemma TimesNegated(m: int, s: real)
    ensures Times((-m) as real, s) == -Times(m as real, s)
  {
    var x := m as real;
    assert (-m) as real == -x;
    assert (-x) * s == -(x * s);
  }

  lemma CandidatesSymmetric(d: real)
    requires IsCandidate(d)
    ensures IsCandidate(-d) && (IsDouble(d) ==> IsDouble(-d))
  {
    if IsDouble(d) {
      var m: int, e: int :| IsScaled(d, m, e);
      hide Pow2, Scale, Times;
      TimesNegated(m, Scale(e));
      assert IsScaled(-d, -m, e);
    }
  }

  /** `Round` gives a Number value for every integer, however large. */
  lemma RoundIsNumber(v: int)
    ensures IsNumberFor(v as real, Round(v))
  {
    hide IsDouble, RoundMagnitude, Pow2;
    var mag := if v < 0 then -v else v;
    var a := RoundMagnitude(mag);
    var w := if a >= Pow2(1024) then Pow2(1024) as real else a as real;
    MagnitudeIsClosest(mag);
    if a < Pow2(1024) {
      RoundIsDouble(mag);
    }
    CandidatesSymmetric(w);
    if v < 0 {
      forall d: real | IsCandidate(d) ensures Distance(-w, v as real) <= Distance(d, v as real) {
        CandidatesSymmetric(d);
        assert Distance(w, mag as real) <= Distance(-d, mag as real);
      }
    }
  }

  // ---------------------------------------------------------------------------
  // Safe integers are exact
  // ---------------------------------------------------------------------------

  lemma SafeIsDouble(x: int)
    requires -MAX_SAFE - 1 <= x <= MAX_SAFE + 1
    ensures IsDouble(x as real)
  {
    Pow2Of53();
    assert Scale(0) == 1.0 && Scale(53) == Pow2(53) as real;
    if x == MAX_SAFE + 1 {
      assert IsScaled(x as real, 1, 53);
    } else if x == -MAX_SAFE - 1 {
      assert IsScaled(x as real, -1, 53);
    } else {
      assert IsScaled(x as real, x, 0);
    }
  }

  /**
   By any rule for ties, the Number value for an integer is a safe integer exactly when that
   integer itself is in the safe range, and then it is that integer.
   */
  lemma SafeIsExact(x: int, n: Num)
    requires IsNumberFor(x as real, n)
    ensures IsSafeInteger(n) <==> -MAX_SAFE <= x <= MAX_SAFE
    ensures IsSafeInteger(n) ==> n == Finite(x as real)
  {
    hide IsDouble;
    var edge := MAX_SAFE + 1;
    if -MAX_SAFE <= x <= MAX_SAFE {
      SafeIsDouble(x);
      Pow2Grows(53, 1024);
      Pow2Of53();
      assert IsCandidate(x as real);
    } else {
      SafeIsDouble(edge);
      SafeIsDouble(-edge);
      assert IsCandidate(edge as real) && IsCandidate(-edge as real);
    }
  }
}
