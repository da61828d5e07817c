/** Decimal digits: their value, and the printing of integers. */
module Decimals {
  import opened Text

  predicate AllDigits(s: string) { forall k | 0 <= k < |s| :: IsDigit(s[k]) }

  function DigitValue(c: char): nat
    requires IsDigit(c)
  {
    c as int - '0' as int
  }

  function Magnitude(ds: string): nat
    requires AllDigits(ds)
  {
    if ds == "" then 0 else Magnitude(ds[..|ds| - 1]) * 10 + DigitValue(ds[|ds| - 1])
  }

  function PrintNat(v: nat): (s: string)
    ensures s != ""
  {
    if v < 10 then [(v + '0' as int) as char] else PrintNat(v / 10) + [(v % 10 + '0' as int) as char]
  }

  function PrintInt(v: int): string {
    if v < 0 then "-" + PrintNat(-v) else PrintNat(v)
  }

  lemma {:induction false} PrintNatDigits(v: nat)
    ensures AllDigits(PrintNat(v)) && Magnitude(PrintNat(v)) == v
    decreases v
  {
    if v < 10 {
      assert PrintNat(v)[..0] == "";
    } else {
      PrintNatDigits(v / 10);
      var s := PrintNat(v);
      assert s[..|s| - 1] == PrintNat(v / 10);
    }
  }

  lemma PrintNatIsDigits(v: nat)
    ensures PrintNat(v) != "" && AllDigits(PrintNat(v))
  {
    PrintNatDigits(v);
  }

  /** A printed number has no zero in front, unless it is one. */
  lemma {:induction false} NoLeadingZero(v: nat)
    ensures PrintNat(v)[0] == '0' <==> v == 0
    decreases v
  {
    if v >= 10 {
      NoLeadingZero(v / 10);
    }
  }

  function Pow10(n: nat): nat { if n == 0 then 1 else 10 * Pow10(n - 1) }

  /** The value of a digit string, place by place from the first on. */
  function PlaceValue(ds: string): nat
    requires AllDigits(ds)
  {
    if ds == "" then 0 else (ds[0] as int - '0' as int) * Pow10(|ds| - 1) + PlaceValue(ds[1..])
  }

  lemma {:induction false} MagnitudeIsPlaceValue(ds: string)
    requires AllDigits(ds)
    ensures Magnitude(ds) == PlaceValue(ds)
    decreases |ds|
  {
    if ds != "" {
      var n := |ds| - 1;
      MagnitudeIsPlaceValue(ds[..n]);
      PlaceValueSnoc(ds[..n], ds[n]);
      assert ds == ds[..n] + [ds[n]];
    }
  }

  lemma {:induction false} PlaceValueSnoc(ds: string, d: char)
    requires AllDigits(ds) && IsDigit(d)
    ensures AllDigits(ds + [d]) && PlaceValue(ds + [d]) == PlaceValue(ds) * 10 + (d as int - '0' as int)
    decreases |ds|
  {
    if ds == "" {
      assert [] + [d] == [d] && [d][1..] == [];
    } else {
      var rest := ds[1..] + [d];
      assert ds + [d] == [ds[0]] + rest && (ds + [d])[1..] == rest;
      PlaceValueSnoc(ds[1..], d);
      var x: int, p: int := ds[0] as int - '0' as int, Pow10(|ds| - 1);
      assert Pow10(|ds|) == 10 * p;
      assert x * (10 * p) == x * p * 10;
    }
  }
}
