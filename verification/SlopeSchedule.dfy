/**
 The schedule of slope removals: at which times the global slope falls, and by how much. It is held as
 a list in the order of time; the contract holds it as a mapping and a heap of times.
 */
module SlopeSchedule {

  /** At time `at` the global slope falls by `slope`. */
  datatype Change = Change(at: nat, slope: nat)

  type Schedule = seq<Change>

  predicate IsSchedule(p: Schedule) {
    p == [] || (p[0].slope > 0 && (|p| > 1 ==> p[0].at < p[1].at) && IsSchedule(p[1..]))
  }

  /** Everything scheduled lies behind time `t`. */
  predicate IsAfter(p: Schedule, t: nat) { p == [] || t < p[0].at }

  function SlopeSum(p: Schedule): nat {
    if p == [] then 0 else p[0].slope + SlopeSum(p[1..])
  }

  function Product(slope: int, dt: int): int { slope * dt }

  /** What the scheduled slopes still weigh at time `t`: each times the time until its removal. */
  function Area(p: Schedule, t: nat): int {
    if p == [] then 0 else Product(p[0].slope, p[0].at - t) + Area(p[1..], t)
  }

  function SlopeAt(p: Schedule, e: nat): nat {
    if p == [] then 0 else if p[0].at == e then p[0].slope else SlopeAt(p[1..], e)
  }

  /** The schedule with the slope at time `e` changed by `d`. */
  function Adjust(p: Schedule, e: nat, d: int): Schedule
    requires IsSchedule(p) && SlopeAt(p, e) + d >= 0
  {
    if d == 0 then p
    else if p == [] then [Change(e, d)]
    else if e < p[0].at then
      NothingBefore(p, e);
      [Change(e, d)] + p
    else if e > p[0].at then [p[0]] + Adjust(p[1..], e, d)
    else if p[0].slope + d == 0 then p[1..]
    else [Change(e, p[0].slope + d)] + p[1..]
  }

  lemma {:induction false} NothingBefore(p: Schedule, e: nat)
    requires IsSchedule(p) && (p == [] || e < p[0].at)
    ensures SlopeAt(p, e) == 0
    decreases |p|
  {
    if p != [] {
      NothingBefore(p[1..], e);
    }
  }

  // ---------------------------------------------------------------------------
  // An adjusted schedule
  // ---------------------------------------------------------------------------

  lemma Cons(c: Change, rest: Schedule)
    ensures IsSchedule([c] + rest) <==> c.slope > 0 && IsAfter(rest, c.at) && IsSchedule(rest)
    ensures SlopeSum([c] + rest) == c.slope + SlopeSum(rest)
    ensures forall t: nat :: Area([c] + rest, t) == Product(c.slope, c.at - t) + Area(rest, t)
    ensures forall e: nat :: SlopeAt([c] + rest, e) == if c.at == e then c.slope else SlopeAt(rest, e)
  {
    hide Product;
    assert ([c] + rest)[1..] == rest;
  }

  lemma AddProducts(a: int, b: int, dt: int)
    ensures Product(a + b, dt) == Product(a, dt) + Product(b, dt)
  {
  }

  lemma {:induction false} AdjustIsSchedule(p: Schedule, e: nat, d: int)
    requires IsSchedule(p) && SlopeAt(p, e) + d >= 0
    ensures IsSchedule(Adjust(p, e, d))
    ensures forall t: nat | IsAfter(p, t) && t < e :: IsAfter(Adjust(p, e, d), t)
    ensures SlopeSum(Adjust(p, e, d)) == SlopeSum(p) + d
    decreases |p|
  {
    if d != 0 {
      if p == [] {
        Cons(Change(e, d), []);
        assert [Change(e, d)] + [] == [Change(e, d)];
      } else {
        var first, rest := p[0], p[1..];
        assert p == [first] + rest;
        if e < first.at {
          NothingBefore(p, e);
          Cons(Change(e, d), p);
        } else if e > first.at {
          AdjustIsSchedule(rest, e, d);
          Cons(first, Adjust(rest, e, d));
        } else if first.slope + d != 0 {
          Cons(Change(e, first.slope + d), rest);
        }
      }
    }
  }

  lemma {:induction false} AdjustAt(p: Schedule, e: nat, d: int, x: nat)
    requires IsSchedule(p) && SlopeAt(p, e) + d >= 0
    ensures SlopeAt(Adjust(p, e, d), x) == SlopeAt(p, x) + if x == e then d else 0
    decreases |p|
  {
    if d != 0 && p != [] {
      var first, rest := p[0], p[1..];
      assert p == [first] + rest;
      if e < first.at {
        NothingBefore(p, e);
        Cons(Change(e, d), p);
      } else if e > first.at {
        AdjustAt(rest, e, d, x);
        Cons(first, Adjust(rest, e, d));
      } else {
        NothingBefore(rest, e);
        if first.slope + d != 0 {
          Cons(Change(e, first.slope + d), rest);
        }
      }
    }
  }

  lemma {:induction false} AdjustArea(p: Schedule, e: nat, d: int, t: nat)
    requires IsSchedule(p) && SlopeAt(p, e) + d >= 0
    ensures Area(Adjust(p, e, d), t) == Area(p, t) + Product(d, e - t)
    decreases |p|
  {
    hide Product;
    NoProduct(e - t);
    if d != 0 {
      if p == [] {
        Cons(Change(e, d), []);
        assert [Change(e, d)] + [] == [Change(e, d)];
      } else {
        var first, rest := p[0], p[1..];
        assert p == [first] + rest;
        if e < first.at {
          NothingBefore(p, e);
          Cons(Change(e, d), p);
        } else if e > first.at {
          AdjustArea(rest, e, d, t);
          Cons(first, Adjust(rest, e, d));
        } else {
          AddProducts(first.slope, d, e - t);
          if first.slope + d != 0 {
            Cons(Change(e, first.slope + d), rest);
          }
        }
      }
    }
  }

  lemma NoProduct(dt: int)
    ensures Product(0, dt) == 0
  {
  }

  // ---------------------------------------------------------------------------
  // The passing of time
  // ---------------------------------------------------------------------------

  lemma ShiftProduct(slope: int, a: int, b: int)
    ensures Product(slope, a) - Product(slope, b) == Product(slope, a - b)
  {
  }

  /** From `t` to `u` the area falls by the whole slope times the time passed. */
  lemma {:induction false} AreaShift(p: Schedule, t: nat, u: nat)
    ensures Area(p, t) - Area(p, u) == Product(SlopeSum(p), u - t)
    decreases |p|
  {
    hide Product;
    if p == [] {
      NoProduct(u - t);
    } else {
      AreaShift(p[1..], t, u);
      ShiftProduct(p[0].slope, p[0].at - t, p[0].at - u);
      AddProducts(p[0].slope, SlopeSum(p[1..]), u - t);
    }
  }

  lemma ProductMonotone(slope: nat, a: int, b: int)
    requires a <= b
    ensures Product(slope, a) <= Product(slope, b)
  {
  }

  /** As long as nothing falls due, the area covers the whole slope for the time passed. */
  lemma {:induction false} AreaCovers(p: Schedule, t: nat, dt: nat)
    requires IsSchedule(p) && (p == [] || t + dt <= p[0].at)
    ensures Area(p, t) >= Product(SlopeSum(p), dt)
    decreases |p|
  {
    hide Product;
    if p == [] {
      NoProduct(dt);
    } else {
      AreaCovers(p[1..], t, dt);
      ProductMonotone(p[0].slope, dt, p[0].at - t);
      AddProducts(p[0].slope, SlopeSum(p[1..]), dt);
    }
  }

  /** No change lies more than `span` behind `t`. */
  predicate IsWithin(p: Schedule, t: nat, span: nat) { forall c | c in p :: c.at <= t + span }

  lemma {:induction false} AreaBound(p: Schedule, t: nat, span: nat)
    requires IsWithin(p, t, span)
    ensures Area(p, t) <= Product(SlopeSum(p), span)
    decreases |p|
  {
    hide Product;
    if p == [] {
      NoProduct(span);
    } else {
      assert p[0] in p;
      AreaBound(p[1..], t, span);
      ProductMonotone(p[0].slope, p[0].at - t, span);
      AddProducts(p[0].slope, SlopeSum(p[1..]), span);
    }
  }

  lemma {:induction false} AdjustWithin(p: Schedule, e: nat, d: int, t: nat, span: nat)
    requires IsSchedule(p) && SlopeAt(p, e) + d >= 0 && IsWithin(p, t, span) && e <= t + span
    ensures IsWithin(Adjust(p, e, d), t, span)
    decreases |p|
  {
    if d != 0 && p != [] && e > p[0].at {
      AdjustWithin(p[1..], e, d, t, span);
    }
  }

  /** The scheduled times are the times with a slope. */
  lemma {:induction false} TimesAreSloped(p: Schedule, e: nat)
    requires IsSchedule(p)
    ensures SlopeAt(p, e) > 0 <==> exists c | c in p :: c.at == e
    decreases |p|
  {
    if p != [] {
      TimesAreSloped(p[1..], e);
      assert p == [p[0]] + p[1..];
      if exists c | c in p[1..] :: c.at == e {
        var c :| c in p[1..] && c.at == e;
        assert c in p;
      }
    }
  }

  /** Nothing is scheduled before the first change. */
  lemma {:induction false} FirstIsLeast(p: Schedule, e: nat)
    requires IsSchedule(p) && SlopeAt(p, e) > 0
    ensures p != [] && p[0].at <= e && SlopeAt(p, p[0].at) == p[0].slope
    decreases |p|
  {
    if e < p[0].at {
      NothingBefore(p, e);
    }
  }
}
