/**
 Locks, what they weigh, and when a schedule of slope removals covers them.

 A lock's own weight is rounded down; what it adds to the global slope is rounded up.
 */
module VeLocks {
  import opened SlopeSchedule

  const SLOPE_SCALE: nat := 1_000_000_000_000_000_000
  const MAX_LOCK_DURATION: nat := 31_536_000

  type Address = nat

  const NOBODY: Address := 0

  datatype Lock = Lock(owner: Address, amount: nat, start: nat, end: nat, autoMax: bool, listed: bool)

  /** A token id that was burned or never minted: the storage's zero values. */
  const DEAD := Lock(NOBODY, 0, 0, 0, false, false)

  // ---------------------------------------------------------------------------
  // Slopes and weights
  // ---------------------------------------------------------------------------

  function CeilDiv(a: nat, b: nat): nat
    requires b > 0
  {
    if a == 0 then 0 else (a - 1) / b + 1
  }

  /** `_slopeScaledAdd`. */
  function SlopeAdd(amount: nat): nat { CeilDiv(amount * SLOPE_SCALE, MAX_LOCK_DURATION) }

  /** `_slopeScaledRemove`. */
  function SlopeRemove(amount: nat): nat { amount * SLOPE_SCALE / MAX_LOCK_DURATION }

  /** A live lock that decays. */
  predicate IsSloped(l: Lock) { l.amount > 0 && !l.autoMax }

  function Decayed(amount: nat, remaining: nat): nat { amount * remaining / MAX_LOCK_DURATION }

  /** What `veBalanceOf` counts for a lock. */
  function VeOf(l: Lock, now: nat): nat {
    if l.amount == 0 then 0
    else if l.autoMax then l.amount
    else if l.end <= now then 0
    else Decayed(l.amount, l.end - now)
  }

  /** Quantities that are summed over all locks. */
  datatype Measure =
    | Principal
    | AutoPrincipal
    | SlopesAt(e: nat)
    | SlopesAfter(t: nat)
    | AreaAfter(t: nat)
    | VeAt(now: nat)
    | VeOwned(owner: Address, now: nat)
    | Decaying(t: nat)
    | Owned(owner: Address)

  function Weigh(m: Measure, l: Lock): (w: nat)
    ensures l == DEAD && (m.Owned? || m.VeOwned? ==> m.owner != NOBODY) ==> w == 0
  {
    match m
    case Principal => l.amount
    case AutoPrincipal => if l.autoMax then l.amount else 0
    case SlopesAt(e) => if IsSloped(l) && l.end == e then SlopeAdd(l.amount) else 0
    case SlopesAfter(t) => if IsSloped(l) && l.end > t then SlopeAdd(l.amount) else 0
    case AreaAfter(t) => if IsSloped(l) && l.end > t then SlopeAdd(l.amount) * (l.end - t) else 0
    case VeAt(now) => VeOf(l, now)
    case VeOwned(owner, now) => if l.owner == owner then VeOf(l, now) else 0
    case Decaying(t) => if IsSloped(l) && l.end > t then 1 else 0
    case Owned(owner) => if l.owner == owner then 1 else 0
  }

  function Sum(locks: seq<Lock>, m: Measure): nat {
    if locks == [] then 0 else Weigh(m, locks[0]) + Sum(locks[1..], m)
  }

  lemma {:induction false} SumUpdate(locks: seq<Lock>, m: Measure, i: nat, l: Lock)
    requires i < |locks|
    ensures Sum(locks[i := l], m) == Sum(locks, m) - Weigh(m, locks[i]) + Weigh(m, l)
    ensures Sum(locks, m) >= Weigh(m, locks[i])
    decreases |locks|
  {
    hide Weigh;
    if i == 0 {
      assert locks[0 := l][1..] == locks[1..];
    } else {
      assert locks[i := l][1..] == locks[1..][i - 1 := l];
      SumUpdate(locks[1..], m, i - 1, l);
    }
  }

  lemma {:induction false} SumAppend(locks: seq<Lock>, m: Measure, l: Lock)
    ensures Sum(locks + [l], m) == Sum(locks, m) + Weigh(m, l)
    decreases |locks|
  {
    hide Weigh;
    if locks == [] {
      assert [l][1..] == [];
    } else {
      assert (locks + [l])[1..] == locks[1..] + [l];
      SumAppend(locks[1..], m, l);
    }
  }

  // ---------------------------------------------------------------------------
  // Rounding
  // ---------------------------------------------------------------------------

  /** The ceiling of a quotient, between the products. */
  lemma CeilBounds(a: nat, b: nat)
    requires b > 0
    ensures a <= CeilDiv(a, b) * b < a + b
  {
    if a > 0 {
      var q := (a - 1) / b;
      assert a - 1 == q * b + (a - 1) % b;
      assert (q + 1) * b == q * b + b;
    }
  }

  lemma CeilMonotone(a: nat, c: nat, b: nat)
    requires b > 0 && a <= c
    ensures CeilDiv(a, b) <= CeilDiv(c, b)
  {
    CeilBounds(a, b);
    CeilBounds(c, b);
    var x, y := CeilDiv(a, b), CeilDiv(c, b);
    Distribute(x as int - 1, 1, b);
    if y < x {
      Factor(y, x - 1, b);
    }
  }

  lemma Factor(a: nat, c: nat, b: nat)
    requires a <= c
    ensures a * b <= c * b
  {
  }

  lemma SlopeBounds(amount: nat)
    ensures amount * SLOPE_SCALE <= SlopeAdd(amount) * MAX_LOCK_DURATION < amount * SLOPE_SCALE + MAX_LOCK_DURATION
    ensures SlopeRemove(amount) <= SlopeAdd(amount) <= SlopeRemove(amount) + 1
  {
    CeilBounds(amount * SLOPE_SCALE, MAX_LOCK_DURATION);
  }

  lemma SlopeGrows(a: nat, b: nat)
    requires a <= b
    ensures SlopeAdd(a) <= SlopeAdd(b)
  {
    CeilMonotone(a * SLOPE_SCALE, b * SLOPE_SCALE, MAX_LOCK_DURATION);
  }

  /** A decaying lock's rounded weight is covered by its slope, and misses less than one unit of it. */
  lemma WeightBounds(amount: nat, remaining: nat)
    ensures Decayed(amount, remaining) * SLOPE_SCALE <= SlopeAdd(amount) * remaining
    ensures remaining <= MAX_LOCK_DURATION ==>
      SlopeAdd(amount) * remaining <= (Decayed(amount, remaining) + 1) * SLOPE_SCALE
  {
    SlopeBounds(amount);
    DecayedBounds(amount, remaining);
    WeightProducts(amount, SlopeAdd(amount), Decayed(amount, remaining), remaining);
  }

  lemma DecayedBounds(amount: nat, remaining: nat)
    ensures Decayed(amount, remaining) * MAX_LOCK_DURATION <= amount * remaining
    ensures amount * remaining < (Decayed(amount, remaining) + 1) * MAX_LOCK_DURATION
  {
  }

  lemma WeightProducts(amount: nat, slope: nat, ve: nat, remaining: nat)
    requires amount * SLOPE_SCALE <= slope * MAX_LOCK_DURATION < amount * SLOPE_SCALE + MAX_LOCK_DURATION
    requires ve * MAX_LOCK_DURATION <= amount * remaining < (ve + 1) * MAX_LOCK_DURATION
    ensures ve * SLOPE_SCALE <= slope * remaining
    ensures remaining <= MAX_LOCK_DURATION ==> slope * remaining <= (ve + 1) * SLOPE_SCALE
  {
    Factor(amount * SLOPE_SCALE, slope * MAX_LOCK_DURATION, remaining);
    Factor(slope * MAX_LOCK_DURATION, amount * SLOPE_SCALE + MAX_LOCK_DURATION - 1, remaining);
    Reorder(amount, slope, remaining);
    var sr, ar := slope * remaining, amount * remaining;
    assert ar * SLOPE_SCALE <= sr * MAX_LOCK_DURATION <= ar * SLOPE_SCALE + (MAX_LOCK_DURATION - 1) * remaining;
  }

  lemma Reorder(amount: nat, slope: nat, remaining: nat)
    ensures amount * SLOPE_SCALE * remaining == amount * remaining * SLOPE_SCALE
    ensures slope * MAX_LOCK_DURATION * remaining == slope * remaining * MAX_LOCK_DURATION
    ensures (amount * SLOPE_SCALE + MAX_LOCK_DURATION - 1) * remaining
         == amount * remaining * SLOPE_SCALE + (MAX_LOCK_DURATION - 1) * remaining
  {
    var ar := amount * remaining;
    Three(amount, SLOPE_SCALE, remaining);
    Three(slope, MAX_LOCK_DURATION, remaining);
    Distribute(amount * SLOPE_SCALE, MAX_LOCK_DURATION - 1, remaining);
  }

  lemma Three(a: nat, b: nat, c: nat)
    ensures a * b * c == a * c * b
  {
  }

  lemma Distribute(a: int, b: int, c: int)
    ensures (a + b) * c == a * c + b * c
  {
  }

  // ---------------------------------------------------------------------------
  // Schedules that cover the locks
  // ---------------------------------------------------------------------------

  /** At every time behind `t` at least the slopes of the locks that end then are scheduled. */
  ghost predicate Covers(p: Schedule, locks: seq<Lock>, t: nat) {
    forall e: nat | e > t :: SlopeAt(p, e) >= Sum(locks, SlopesAt(e))
  }

  lemma EnoughScheduled(p: Schedule, locks: seq<Lock>, t: nat, i: nat)
    requires Covers(p, locks, t) && i < |locks| && IsSloped(locks[i]) && locks[i].end > t
    ensures SlopeAt(p, locks[i].end) >= SlopeAdd(locks[i].amount) >= SlopeRemove(locks[i].amount)
  {
    var l := locks[i];
    SumUpdate(locks, SlopesAt(l.end), i, DEAD);
    SlopeBounds(l.amount);
  }

  /** A lock is taken out with no more than its slope. */
  lemma TakenOut(p: Schedule, locks: seq<Lock>, t: nat, i: nat, r: nat)
    requires IsSchedule(p) && IsAfter(p, t) && Covers(p, locks, t)
    requires i < |locks| && IsSloped(locks[i]) && locks[i].end > t && r <= SlopeAdd(locks[i].amount)
    ensures SlopeAt(p, locks[i].end) >= r
    ensures var p' := Adjust(p, locks[i].end, -(r as int));
      && IsSchedule(p') && IsAfter(p', t) && Covers(p', locks[i := DEAD], t)
      && SlopeSum(p') == SlopeSum(p) - r && Area(p', t) == Area(p, t) - Product(r, locks[i].end - t)
  {
    hide Product, SlopeAdd;
    var l := locks[i];
    EnoughScheduled(p, locks, t, i);
    AdjustIsSchedule(p, l.end, -(r as int));
    AdjustArea(p, l.end, -(r as int), t);
    NegativeProduct(r, l.end - t);
    forall e: nat | e > t ensures SlopeAt(Adjust(p, l.end, -(r as int)), e) >= Sum(locks[i := DEAD], SlopesAt(e)) {
      AdjustAt(p, l.end, -(r as int), e);
      SumUpdate(locks, SlopesAt(e), i, DEAD);
    }
  }

  lemma NegativeProduct(a: int, b: int)
    ensures Product(-a, b) == -Product(a, b)
  {
  }

  /** A lock is put in where none was, with its whole slope. */
  lemma PutIn(p: Schedule, locks: seq<Lock>, t: nat, i: nat, l: Lock)
    requires IsSchedule(p) && IsAfter(p, t) && Covers(p, locks, t)
    requires i < |locks| && locks[i] == DEAD && IsSloped(l) && l.end > t
    ensures var p' := Adjust(p, l.end, SlopeAdd(l.amount));
      && IsSchedule(p') && IsAfter(p', t) && Covers(p', locks[i := l], t)
      && SlopeSum(p') == SlopeSum(p) + SlopeAdd(l.amount)
      && Area(p', t) == Area(p, t) + Product(SlopeAdd(l.amount), l.end - t)
  {
    hide Product, SlopeAdd;
    var a := SlopeAdd(l.amount);
    AdjustIsSchedule(p, l.end, a);
    AdjustArea(p, l.end, a, t);
    forall e: nat | e > t ensures SlopeAt(Adjust(p, l.end, a), e) >= Sum(locks[i := l], SlopesAt(e)) {
      AdjustAt(p, l.end, a, e);
      SumUpdate(locks, SlopesAt(e), i, l);
    }
  }

  /** A lock is replaced by one that schedules nothing more at any later time. */
  lemma Replaced(p: Schedule, locks: seq<Lock>, t: nat, i: nat, l: Lock)
    requires Covers(p, locks, t) && i < |locks|
    requires forall e: nat | e > t :: Weigh(SlopesAt(e), l) <= Weigh(SlopesAt(e), locks[i])
    ensures Covers(p, locks[i := l], t)
  {
    forall e: nat | e > t ensures SlopeAt(p, e) >= Sum(locks[i := l], SlopesAt(e)) {
      SumUpdate(locks, SlopesAt(e), i, l);
    }
  }

  // ---------------------------------------------------------------------------
  // What covering means for the sums
  // ---------------------------------------------------------------------------

  lemma {:induction false} NoLocks(locks: seq<Lock>, m: Measure)
    requires forall l | l in locks :: Weigh(m, l) == 0
    ensures Sum(locks, m) == 0
    decreases |locks|
  {
    hide Weigh;
    if locks != [] {
      NoLocks(locks[1..], m);
    }
  }

  function CountLive(locks: seq<Lock>): nat {
    if locks == [] then 0 else (if locks[0] == DEAD then 0 else 1) + CountLive(locks[1..])
  }

  lemma {:induction false} KillCounts(locks: seq<Lock>, i: nat)
    requires i < |locks| && locks[i] != DEAD
    ensures CountLive(locks[i := DEAD]) < CountLive(locks)
    decreases |locks|
  {
    if i == 0 {
      assert locks[0 := DEAD][1..] == locks[1..];
    } else {
      assert locks[i := DEAD][1..] == locks[1..][i - 1 := DEAD];
      KillCounts(locks[1..], i - 1);
    }
  }

  /**
   A covering schedule weighs at least what the locks weigh, and beyond that only what its surplus of
   slope weighs.
   */
  lemma {:induction false} CoveredSums(p: Schedule, locks: seq<Lock>, t: nat, span: nat)
    requires IsSchedule(p) && IsAfter(p, t) && Covers(p, locks, t)
    ensures SlopeSum(p) >= Sum(locks, SlopesAfter(t))
    ensures Area(p, t) >= Sum(locks, AreaAfter(t))
    ensures IsWithin(p, t, span) ==>
      Area(p, t) - Sum(locks, AreaAfter(t)) <= Product(SlopeSum(p) - Sum(locks, SlopesAfter(t)), span)
    decreases CountLive(locks)
  {
    hide Product, SlopeAdd, IsWithin;
    if i: nat :| i < |locks| && IsSloped(locks[i]) && locks[i].end > t {
      var l := locks[i];
      var a := SlopeAdd(l.amount);
      TakenOut(p, locks, t, i, a);
      KillCounts(locks, i);
      SumUpdate(locks, SlopesAfter(t), i, DEAD);
      SumUpdate(locks, AreaAfter(t), i, DEAD);
      AreaOfLock(l, t);
      if IsWithin(p, t, span) {
        EndIsWithin(p, locks, t, i, span);
        AdjustWithin(p, l.end, -(a as int), t, span);
      }
      CoveredSums(Adjust(p, l.end, -(a as int)), locks[i := DEAD], t, span);
    } else {
      NoneSloped(locks, t);
      AreaNotNegative(p, t);
      if IsWithin(p, t, span) {
        AreaBound(p, t, span);
      }
    }
  }

  lemma AreaOfLock(l: Lock, t: nat)
    requires IsSloped(l) && l.end > t
    ensures Weigh(AreaAfter(t), l) == Product(SlopeAdd(l.amount), l.end - t)
  {
    hide SlopeAdd;
  }

  lemma NoneSloped(locks: seq<Lock>, t: nat)
    requires forall i: nat | i < |locks| :: !(IsSloped(locks[i]) && locks[i].end > t)
    ensures Sum(locks, SlopesAfter(t)) == 0 && Sum(locks, AreaAfter(t)) == 0
  {
    NoLocks(locks, SlopesAfter(t));
    NoLocks(locks, AreaAfter(t));
  }

  lemma AreaNotNegative(p: Schedule, t: nat)
    requires IsSchedule(p) && IsAfter(p, t)
    ensures Area(p, t) >= 0
  {
    AreaCovers(p, t, 0);
    assert Product(SlopeSum(p), 0) == 0;
  }

  lemma EndIsWithin(p: Schedule, locks: seq<Lock>, t: nat, i: nat, span: nat)
    requires IsSchedule(p) && Covers(p, locks, t) && IsWithin(p, t, span)
    requires i < |locks| && IsSloped(locks[i]) && locks[i].end > t
    ensures locks[i].end <= t + span
  {
    EnoughScheduled(p, locks, t, i);
    SlopePositive(locks[i].amount);
    TimesAreSloped(p, locks[i].end);
  }

  lemma SlopePositive(amount: nat)
    requires amount > 0
    ensures SlopeAdd(amount) > 0
  {
  }
}
