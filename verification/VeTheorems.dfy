/**
 What every run of the voting-escrow contract keeps: the global slope and bias are exactly what the
 schedule and the perpetual locks make of them, and cover every lock.
 */
module VeTheorems {
  import opened Text
  import opened SlopeSchedule
  import opened VeLocks
  import opened VeModel

  // ---------------------------------------------------------------------------
  // The invariant
  // ---------------------------------------------------------------------------

  /** The global sums are those of the schedule and the perpetual locks, and the schedule covers the locks. */
  ghost predicate Ledger(s: Ve) {
    && IsSchedule(s.schedule) && IsAfter(s.schedule, s.lastTs) && Covers(s.schedule, s.locks, s.lastTs)
    && s.slope == SlopeSum(s.schedule)
    && s.bias == Area(s.schedule, s.lastTs) + SLOPE_SCALE * Sum(s.locks, AutoPrincipal)
    && s.slope <= MAX_UINT && s.bias <= MAX_UINT
  }

  predicate IsLive(l: Lock, now: nat) { l.owner != NOBODY && l.amount > 0 && l.end <= now + MAX_LOCK_DURATION }

  predicate WfLocks(locks: seq<Lock>, now: nat) {
    |locks| > 0 && locks[0] == DEAD && forall i: nat | i < |locks| :: locks[i] == DEAD || IsLive(locks[i], now)
  }

  /** `dust` bounds by how much rounding has left the global slope above the locks' own slopes. */
  ghost predicate Sound(s: Ve, now: nat, dust: nat) {
    && Ledger(s) && s.lastTs <= now
    && WfLocks(s.locks, now) && IsWithin(s.schedule, now, MAX_LOCK_DURATION)
    && s.cached == CeilDiv(s.bias, SLOPE_SCALE)
    && s.totalLocked == Sum(s.locks, Principal)
    && s.slope <= Sum(s.locks, SlopesAfter(s.lastTs)) + dust
  }

  // ---------------------------------------------------------------------------
  // The checkpoint
  // ---------------------------------------------------------------------------

  /** None of the clamps in the decay changes anything as long as the bias covers it. */
  lemma DecayExact(bias: nat, slope: nat, dt: nat)
    requires Product(slope, dt) <= bias <= MAX_UINT
    ensures Decay(bias, slope, dt) == bias - Product(slope, dt)
  {
    if slope > 0 {
      CeilBounds(bias, slope);
      if dt >= CeilDiv(bias, slope) {
        Factor(CeilDiv(bias, slope), dt, slope);
        Swap(slope, dt);
      } else if dt > MAX_UINT / slope {
        Factor(MAX_UINT / slope + 1, dt, slope);
        Swap(slope, dt);
        QuotientBound(MAX_UINT, slope);
      }
    } else {
      assert Product(0, dt) == 0;
    }
  }

  lemma Swap(a: nat, b: nat)
    ensures a * b == b * a && Product(a, b) == a * b
  {
  }

  lemma QuotientBound(a: nat, b: nat)
    requires b > 0
    ensures (a / b + 1) * b > a
  {
  }

  /** Ageing by no more than the first scheduled time is exact. */
  lemma AgeExact(s: Ve, t: nat)
    requires Ledger(s) && s.lastTs <= t && (s.schedule == [] || t <= s.schedule[0].at)
    ensures Decay(s.bias, s.slope, t - s.lastTs) == Area(s.schedule, t) + SLOPE_SCALE * Sum(s.locks, AutoPrincipal)
    ensures Decay(s.bias, s.slope, t - s.lastTs) <= s.bias
  {
    hide Product, Decay, Covers;
    AreaShift(s.schedule, s.lastTs, t);
    AreaCovers(s.schedule, s.lastTs, t - s.lastTs);
    PositiveProduct(s.slope, t - s.lastTs);
    DecayExact(s.bias, s.slope, t - s.lastTs);
  }

  lemma PositiveProduct(a: nat, b: nat)
    ensures Product(a, b) >= 0
  {
  }

  lemma ProcessFirstSound(s: Ve)
    requires Ledger(s) && s.schedule != []
    ensures Ledger(ProcessFirst(s)) && ProcessFirst(s).bias <= s.bias
  {
    hide Decay, Product;
    var first, rest := s.schedule[0], s.schedule[1..];
    assert s.schedule == [first] + rest;
    Cons(first, rest);
    AgeExact(s, first.at);
    NoTime(first.slope);
    forall e: nat | e > first.at ensures SlopeAt(rest, e) >= Sum(s.locks, SlopesAt(e)) {
      assert SlopeAt(s.schedule, e) >= Sum(s.locks, SlopesAt(e));
    }
  }

  lemma NoTime(slope: int)
    ensures Product(slope, 0) == 0
  {
  }

  lemma {:induction false} ProcessDueSound(s: Ve, now: nat, turns: nat)
    requires Ledger(s) && s.lastTs <= now
    ensures var r := ProcessDue(s, now, turns);
      && Ledger(r) && r.lastTs <= now && r.locks == s.locks && r.totalLocked == s.totalLocked && r.bias <= s.bias
      && forall c | c in r.schedule :: c in s.schedule
    decreases turns
  {
    hide Ledger;
    if turns > 0 && IsDue(s, now) {
      LedgerIsAged(s);
      ProcessFirstSound(s);
      ProcessDueSound(ProcessFirst(s), now, turns - 1);
    }
  }

  lemma LedgerIsAged(s: Ve)
    requires Ledger(s)
    ensures IsSchedule(s.schedule) && IsAfter(s.schedule, s.lastTs)
  {
  }

  lemma CatchUpSound(s: Ve, now: nat)
    requires Ledger(s) && s.lastTs <= now
    ensures Ledger(CatchUp(s, now)) && CatchUp(s, now).bias <= s.bias
  {
    hide Decay, Product, Area;
    if !IsDue(s, now) {
      AgeExact(s, now);
      forall e: nat | e > now ensures SlopeAt(s.schedule, e) >= Sum(s.locks, SlopesAt(e)) {
      }
    }
  }

  ghost predicate Dusty(s: Ve, dust: nat) { s.slope <= Sum(s.locks, SlopesAfter(s.lastTs)) + dust }

  /** Before the first scheduled time no lock ends. */
  lemma NoneEnds(s: Ve, l: Lock)
    requires Ledger(s) && l in s.locks && IsSloped(l) && l.end > s.lastTs
    ensures s.schedule != [] && s.schedule[0].at <= l.end
  {
    hide Area, IsSchedule, SlopeSum, SlopeAdd, SlopeAt;
    var i: nat :| i < |s.locks| && s.locks[i] == l;
    EnoughScheduled(s.schedule, s.locks, s.lastTs, i);
    SlopePositive(l.amount);
    FirstIsLeast(s.schedule, l.end);
  }

  lemma {:induction false} SplitSlopes(locks: seq<Lock>, t: nat, e: nat)
    requires t < e && forall l | l in locks && IsSloped(l) && l.end > t :: l.end >= e
    ensures Sum(locks, SlopesAfter(t)) == Sum(locks, SlopesAfter(e)) + Sum(locks, SlopesAt(e))
    decreases |locks|
  {
    hide SlopeAdd;
    if locks != [] {
      assert locks[0] in locks;
      SplitSlopes(locks[1..], t, e);
    }
  }

  lemma {:induction false} SameSlopes(locks: seq<Lock>, t: nat, e: nat)
    requires t <= e && forall l | l in locks && IsSloped(l) && l.end > t :: l.end > e
    ensures Sum(locks, SlopesAfter(t)) == Sum(locks, SlopesAfter(e))
    decreases |locks|
  {
    hide SlopeAdd;
    if locks != [] {
      assert locks[0] in locks;
      SameSlopes(locks[1..], t, e);
    }
  }

  lemma ProcessFirstDust(s: Ve, dust: nat)
    requires Ledger(s) && s.schedule != [] && Dusty(s, dust)
    ensures Dusty(ProcessFirst(s), dust)
  {
    hide Area, IsSchedule, SlopeAdd, Decay;
    var first := s.schedule[0];
    forall l | l in s.locks && IsSloped(l) && l.end > s.lastTs ensures l.end >= first.at {
      NoneEnds(s, l);
    }
    SplitSlopes(s.locks, s.lastTs, first.at);
    assert SlopeAt(s.schedule, first.at) == first.slope;
  }

  lemma CatchUpDust(s: Ve, now: nat, dust: nat)
    requires Ledger(s) && s.lastTs <= now && Dusty(s, dust)
    ensures Dusty(CatchUp(s, now), dust)
  {
    hide Area, IsSchedule, SlopeAdd, Decay, Ledger;
    if !IsDue(s, now) {
      forall l | l in s.locks && IsSloped(l) && l.end > s.lastTs ensures l.end > now {
        NoneEnds(s, l);
      }
      SameSlopes(s.locks, s.lastTs, now);
    }
  }

  lemma {:induction false} ProcessDueDust(s: Ve, now: nat, turns: nat, dust: nat)
    requires Ledger(s) && Dusty(s, dust)
    ensures Dusty(ProcessDue(s, now, turns), dust)
    decreases turns
  {
    hide Ledger, Dusty;
    LedgerIsAged(s);
    if turns > 0 && IsDue(s, now) {
      ProcessFirstSound(s);
      ProcessFirstDust(s, dust);
      ProcessDueDust(ProcessFirst(s), now, turns - 1, dust);
    }
  }

  /** A checkpoint keeps the books, and never raises the global bias. */
  lemma CheckpointSound(s: Ve, now: nat, clock: nat, dust: nat)
    requires Sound(s, clock, dust) && clock <= now
    ensures IsAged(s, now) && Sound(Checkpoint(s, now), now, dust)
    ensures Checkpoint(s, now).bias <= s.bias && Checkpoint(s, now).cached <= s.cached
  {
    hide Ledger, IsSchedule, CeilDiv, ProcessDue, CatchUp, Dusty, WfLocks;
    LedgerIsAged(s);
    assert Dusty(s, dust) by { SoundIsDusty(s, clock, dust); }
    ProcessDueSound(s, now, MAX_SLOPE_CHANGES_PER_CALL);
    ProcessDueDust(s, now, MAX_SLOPE_CHANGES_PER_CALL, dust);
    var p := ProcessDue(s, now, MAX_SLOPE_CHANGES_PER_CALL);
    CatchUpSound(p, now);
    CatchUpDust(p, now, dust);
    var u := CatchUp(p, now);
    CatchUpFrame(p, now);
    CachedOnly(u);
    CeilMonotone(u.bias, s.bias, SLOPE_SCALE);
    LaterWf(s.locks, clock, now);
    SyncedSound(u, now, dust);
  }

  lemma SoundIsDusty(s: Ve, now: nat, dust: nat)
    requires Sound(s, now, dust)
    ensures Dusty(s, dust)
  {
  }

  lemma CatchUpFrame(s: Ve, now: nat)
    requires s.lastTs <= now
    ensures var u := CatchUp(s, now);
      u.locks == s.locks && u.totalLocked == s.totalLocked && u.schedule == s.schedule && u.lastTs <= now
  {
  }

  lemma LaterWf(locks: seq<Lock>, clock: nat, now: nat)
    requires WfLocks(locks, clock) && clock <= now
    ensures WfLocks(locks, now)
  {
  }

  lemma SyncedSound(u: Ve, now: nat, dust: nat)
    requires Ledger(u) && Dusty(u, dust) && u.lastTs <= now && WfLocks(u.locks, now)
    requires IsWithin(u.schedule, now, MAX_LOCK_DURATION) && u.totalLocked == Sum(u.locks, Principal)
    ensures Sound(Synced(u), now, dust)
  {
    hide WfLocks, IsWithin, CeilDiv, IsSchedule, Area, SlopeSum;
  }

  lemma CachedOnly(s: Ve)
    requires Ledger(s)
    ensures Ledger(Synced(s))
  {
  }

  // ---------------------------------------------------------------------------
  // Operations on their way
  // ---------------------------------------------------------------------------

  /** With the changes still to be settled, the books fit the locks as they will be. */
  ghost predicate Balanced(c: Ve, now: nat, dust: nat, b: Booking, locks: seq<Lock>) {
    && b.Booked? && b.ve == c.(schedule := b.ve.schedule)
    && IsSchedule(b.ve.schedule) && IsAfter(b.ve.schedule, c.lastTs) && Covers(b.ve.schedule, locks, c.lastTs)
    && IsWithin(b.ve.schedule, now, MAX_LOCK_DURATION)
    && c.slope + b.slope == SlopeSum(b.ve.schedule) <= Sum(locks, SlopesAfter(c.lastTs)) + dust
    && c.bias + b.bias == Area(b.ve.schedule, c.lastTs) + SLOPE_SCALE * Sum(locks, AutoPrincipal)
  }

  lemma OpenBooks(c: Ve, now: nat, dust: nat)
    requires Sound(c, now, dust)
    ensures Balanced(c, now, dust, Booked(c, 0, 0), c.locks)
  {
  }

  /** A bound on the dust may be raised. */
  lemma MoreDust(s: Ve, now: nat, dust: nat, more: nat)
    requires Sound(s, now, dust) && dust <= more
    ensures Sound(s, now, more)
  {
    hide Ledger, WfLocks, IsWithin, CeilDiv;
  }

  /** The lock has something to take out, or will have. */
  predicate IsWeighty(l: Lock, t: nat, now: nat) {
    l.amount > 0 && (l.autoMax || l.end > t) && l.end <= now + MAX_LOCK_DURATION
  }

  lemma TakeBalanced(c: Ve, now: nat, dust: nat, b: Booking, locks: seq<Lock>, i: nat)
    requires Balanced(c, now, dust, b, locks) && i < |locks| && IsWeighty(locks[i], c.lastTs, now)
    ensures Balanced(c, now, dust + 1, Take(b, locks[i]), locks[i := DEAD])
  {
    hide Product, SlopeAdd, SlopeRemove, IsSchedule, Covers, Area, SlopeAt, SlopeSum, IsWithin;
    var l, t := locks[i], c.lastTs;
    SumUpdate(locks, AutoPrincipal, i, DEAD);
    SumUpdate(locks, SlopesAfter(t), i, DEAD);
    if l.autoMax {
      forall e: nat ensures Weigh(SlopesAt(e), l) == 0 {
      }
      Replaced(b.ve.schedule, locks, t, i, DEAD);
    } else {
      var r := SlopeRemove(l.amount);
      SlopeBounds(l.amount);
      TakenOut(b.ve.schedule, locks, t, i, r);
      AdjustWithin(b.ve.schedule, l.end, -(r as int), now, MAX_LOCK_DURATION);
      Swap(r, l.end - t);
    }
  }

  lemma GiveBalanced(c: Ve, now: nat, dust: nat, b: Booking, locks: seq<Lock>, i: nat, l: Lock)
    requires Balanced(c, now, dust, b, locks) && i < |locks| && locks[i] == DEAD && IsWeighty(l, c.lastTs, now)
    ensures var g := Give(b, l.amount, l.end, l.autoMax);
      g == Failed(Overflow) || Balanced(c, now, dust, g, locks[i := l])
  {
    hide Product, SlopeAdd, IsSchedule, Covers, Area, SlopeAt, SlopeSum, IsWithin;
    var t := c.lastTs;
    SumUpdate(locks, AutoPrincipal, i, l);
    SumUpdate(locks, SlopesAfter(t), i, l);
    if l.autoMax {
      forall e: nat ensures Weigh(SlopesAt(e), l) == 0 {
      }
      Replaced(b.ve.schedule, locks, t, i, l);
    } else {
      var a := SlopeAdd(l.amount);
      PutIn(b.ve.schedule, locks, t, i, l);
      AdjustWithin(b.ve.schedule, l.end, a, now, MAX_LOCK_DURATION);
      Swap(a, l.end - t);
    }
  }

  /** What is settled is sound, and only a word's size can refuse it. */
  lemma SettleSound(c: Ve, now: nat, dust: nat, b: Booking, locks: seq<Lock>)
    requires Balanced(c, now, dust, b, locks) && Sound(c, now, dust)
    ensures match Settle(b)
      case Reverted(e) => e == Overflow
      case Done(g) => IsSettled(c, now, dust, g, locks)
  {
    hide IsSchedule, Covers, Area, SlopeSum, CeilDiv, WfLocks;
    AreaNotNegative(b.ve.schedule, c.lastTs);
  }

  /** The books fit the locks as they will be, and nothing else has changed. */
  ghost predicate IsSettled(c: Ve, now: nat, dust: nat, g: Ve, locks: seq<Lock>) {
    && Ledger(g.(locks := locks)) && IsWithin(g.schedule, now, MAX_LOCK_DURATION)
    && g.cached == CeilDiv(g.bias, SLOPE_SCALE)
    && g.slope <= Sum(locks, SlopesAfter(g.lastTs)) + dust
    && g.locks == c.locks && g.lastTs == c.lastTs && g.totalLocked == c.totalLocked
  }

  /** With the locks in place and the principal counted, the state is sound again. */
  lemma InPlace(c: Ve, now: nat, dust: nat, g: Ve, locks: seq<Lock>, r: Ve)
    requires IsSettled(c, now, dust, g, locks) && c.lastTs <= now && WfLocks(locks, now)
    requires r == g.(locks := locks, totalLocked := r.totalLocked) && r.totalLocked == Sum(locks, Principal)
    ensures Sound(r, now, dust)
  {
    hide IsSchedule, Covers, Area, SlopeSum, CeilDiv, WfLocks;
  }

  // ---------------------------------------------------------------------------
  // Operations
  // ---------------------------------------------------------------------------

  /** An operation keeps the state sound, and is never refused for a broken invariant. */
  ghost predicate IsSound(o: Outcome, now: nat, dust: nat) {
    match o case Reverted(e) => e != InvariantViolation case Done(r) => Sound(r, now, dust)
  }

  lemma LiveLock(s: Ve, now: nat, id: nat)
    requires WfLocks(s.locks, now) && LockOf(s.locks, id) != DEAD
    ensures 0 < id < |s.locks| && IsLive(LockOf(s.locks, id), now)
  {
  }

  lemma MutableLock(s: Ve, now: nat, id: nat)
    requires WfLocks(s.locks, now) && Immutable(LockOf(s.locks, id), now).None?
    ensures 0 < id < |s.locks| && IsLive(LockOf(s.locks, id), now) && IsWeighty(LockOf(s.locks, id), now, now)
  {
  }

  lemma KeptWf(locks: seq<Lock>, now: nat, i: nat, l: Lock)
    requires WfLocks(locks, now) && 0 < i < |locks| && (l == DEAD || IsLive(l, now))
    ensures WfLocks(locks[i := l], now)
  {
  }

  lemma OpenLockSound(c: Ve, now: nat, dust: nat, l: Lock)
    requires Sound(c, now, dust) && IsLive(l, now) && IsWeighty(l, c.lastTs, now)
    ensures IsSound(OpenLock(c, l), now, dust)
  {
    hide Ledger, IsWithin, WfLocks, Give, Settle, CeilDiv, Balanced, IsSettled;
    var room, locks := c.locks + [DEAD], c.locks + [l];
    OpenBooks(c, now, dust);
    AppendDead(c, now, dust, Booked(c, 0, 0));
    GiveBalanced(c, now, dust, Booked(c, 0, 0), room, |c.locks|, l);
    assert room[|c.locks| := l] == locks;
    var g := Give(Booked(c, 0, 0), l.amount, l.end, l.autoMax);
    if g == Failed(Overflow) {
      FailedSettles(Overflow);
    } else {
      SettleSound(c, now, dust, g, locks);
      if Settle(g).Done? {
        SettledKeeps(c, now, dust, Settle(g).ve, locks);
        AppendWf(c.locks, now, l);
        SumAppend(c.locks, Principal, l);
        InPlace(c, now, dust, Settle(g).ve, locks, OpenLock(c, l).ve);
      }
    }
  }

  lemma FailedSettles(e: Error)
    ensures Settle(Failed(e)) == Reverted(e)
  {
  }

  lemma SettledKeeps(c: Ve, now: nat, dust: nat, g: Ve, locks: seq<Lock>)
    requires IsSettled(c, now, dust, g, locks)
    ensures g.locks == c.locks && g.lastTs == c.lastTs && g.totalLocked == c.totalLocked
  {
  }

  lemma AppendDead(c: Ve, now: nat, dust: nat, b: Booking)
    requires Balanced(c, now, dust, b, c.locks)
    ensures Balanced(c, now, dust, b, c.locks + [DEAD])
  {
    hide IsSchedule, Area, SlopeSum, SlopeAt, IsWithin;
    SumAppend(c.locks, AutoPrincipal, DEAD);
    SumAppend(c.locks, SlopesAfter(c.lastTs), DEAD);
    forall e: nat | e > c.lastTs ensures SlopeAt(b.ve.schedule, e) >= Sum(c.locks + [DEAD], SlopesAt(e)) {
      SumAppend(c.locks, SlopesAt(e), DEAD);
    }
  }

  lemma AppendWf(locks: seq<Lock>, now: nat, l: Lock)
    requires WfLocks(locks, now) && IsLive(l, now)
    ensures WfLocks(locks + [l], now)
  {
  }

  /** More principal in a lock: its rounded slope can only grow. */
  lemma TopUpBalanced(c: Ve, now: nat, dust: nat, b: Booking, locks: seq<Lock>, i: nat, amount: nat, l': Lock)
    requires Balanced(c, now, dust, b, locks) && i < |locks| && IsWeighty(locks[i], c.lastTs, now)
    requires l'.autoMax == locks[i].autoMax && l'.amount == locks[i].amount + amount
    requires !l'.autoMax ==> l'.end == locks[i].end
    ensures var g := TopUp(b, locks[i], amount);
      g == Failed(Overflow) || Balanced(c, now, dust, g, locks[i := l'])
  {
    hide Product, SlopeAdd, IsSchedule, Area, SlopeAt, SlopeSum, IsWithin;
    var l, t := locks[i], c.lastTs;
    SumUpdate(locks, AutoPrincipal, i, l');
    SumUpdate(locks, SlopesAfter(t), i, l');
    if l.autoMax {
      forall e: nat ensures Weigh(SlopesAt(e), l) == 0 && Weigh(SlopesAt(e), l') == 0 {
      }
      Replaced(b.ve.schedule, locks, t, i, l');
    } else {
      SlopeGrows(l.amount, l'.amount);
      var d: int := SlopeAdd(l'.amount) - SlopeAdd(l.amount);
      AdjustIsSchedule(b.ve.schedule, l.end, d);
      AdjustArea(b.ve.schedule, l.end, d, t);
      AdjustWithin(b.ve.schedule, l.end, d, now, MAX_LOCK_DURATION);
      Swap(d, l.end - t);
      forall e: nat | e > t ensures SlopeAt(Adjust(b.ve.schedule, l.end, d), e) >= Sum(locks[i := l'], SlopesAt(e)) {
        AdjustAt(b.ve.schedule, l.end, d, e);
        SumUpdate(locks, SlopesAt(e), i, l');
      }
    }
  }

  lemma RaiseLockSound(c: Ve, now: nat, dust: nat, id: nat, amount: nat)
    requires Sound(c, now, dust) && c.lastTs == now && 0 < id < |c.locks|
    requires IsLive(c.locks[id], now) && IsWeighty(c.locks[id], now, now)
    ensures IsSound(RaiseLock(c, now, id, amount), now, dust)
  {
    hide Ledger, IsWithin, WfLocks, TopUp, Settle, CeilDiv, Balanced, IsSettled;
    var l := c.locks[id];
    var end := if l.autoMax then now + MAX_LOCK_DURATION else l.end;
    var l' := l.(amount := l.amount + amount, start := now, end := end);
    var locks := c.locks[id := l'];
    OpenBooks(c, now, dust);
    TopUpBalanced(c, now, dust, Booked(c, 0, 0), c.locks, id, amount, l');
    var g := TopUp(Booked(c, 0, 0), l, amount);
    if g == Failed(Overflow) {
      FailedSettles(Overflow);
    } else {
      SettleSound(c, now, dust, g, locks);
      if Settle(g).Done? {
        SettledKeeps(c, now, dust, Settle(g).ve, locks);
        KeptWf(c.locks, now, id, l');
        SumUpdate(c.locks, Principal, id, l');
        InPlace(c, now, dust, Settle(g).ve, locks, RaiseLock(c, now, id, amount).ve);
      }
    }
  }

  /** A lock that is taken out and put in again, changed. */
  lemma FlipLockSound(c: Ve, now: nat, dust: nat, id: nat, enabled: bool)
    requires Sound(c, now, dust) && c.lastTs == now && 0 < id < |c.locks|
    requires IsLive(c.locks[id], now) && IsWeighty(c.locks[id], now, now)
    ensures IsSound(FlipLock(c, now, id, enabled), now, dust + 1)
  {
    hide Ledger, IsWithin, WfLocks, Give, Take, Settle, CeilDiv, Balanced, IsSettled;
    var l := c.locks[id];
    var l' := Flipped(l, now, enabled);
    var gone, locks := c.locks[id := DEAD], c.locks[id := l'];
    OpenBooks(c, now, dust);
    MoreDust(c, now, dust, dust + 1);
    TakeBalanced(c, now, dust, Booked(c, 0, 0), c.locks, id);
    var b := Take(Booked(c, 0, 0), l);
    GiveBalanced(c, now, dust + 1, b, gone, id, l');
    assert gone[id := l'] == locks;
    var g := Give(b, l.amount, now + MAX_LOCK_DURATION, enabled);
    if g == Failed(Overflow) {
      FailedSettles(Overflow);
    } else {
      SettleSound(c, now, dust + 1, g, locks);
      if Settle(g).Done? {
        SettledKeeps(c, now, dust + 1, Settle(g).ve, locks);
        KeptWf(c.locks, now, id, l');
        SumUpdate(c.locks, Principal, id, l');
        InPlace(c, now, dust + 1, Settle(g).ve, locks, FlipLock(c, now, id, enabled).ve);
      }
    }
  }

  lemma JoinLocksSound(c: Ve, now: nat, dust: nat, source: nat, target: nat)
    requires Sound(c, now, dust) && c.lastTs == now
    requires source != target && 0 < source < |c.locks| && 0 < target < |c.locks|
    requires IsLive(c.locks[source], now) && IsWeighty(c.locks[source], now, now)
    requires IsLive(c.locks[target], now) && IsWeighty(c.locks[target], now, now)
    ensures IsSound(JoinLocks(c, now, source, target), now, dust + 2)
  {
    hide Ledger, IsWithin, WfLocks, Give, Take, Settle, CeilDiv, Balanced, IsSettled;
    var a, b := c.locks[source], c.locks[target];
    var m := Merged(a, b, now);
    var locks1 := c.locks[source := DEAD];
    var locks2 := locks1[target := DEAD];
    var locks := locks1[target := m];
    OpenBooks(c, now, dust);
    MoreDust(c, now, dust, dust + 2);
    TakeBalanced(c, now, dust, Booked(c, 0, 0), c.locks, source);
    var b1 := Take(Booked(c, 0, 0), a);
    TakeBalanced(c, now, dust + 1, b1, locks1, target);
    var b2 := Take(b1, b);
    GiveBalanced(c, now, dust + 2, b2, locks2, target, m);
    assert locks2[target := m] == locks && c.locks[target := m][source := DEAD] == locks;
    var g := Give(b2, m.amount, m.end, m.autoMax);
    if g == Failed(Overflow) {
      FailedSettles(Overflow);
    } else {
      SettleSound(c, now, dust + 2, g, locks);
      if Settle(g).Done? {
        SettledKeeps(c, now, dust + 2, Settle(g).ve, locks);
        KeptWf(c.locks, now, source, DEAD);
        KeptWf(locks1, now, target, m);
        SumUpdate(c.locks, Principal, source, DEAD);
        SumUpdate(locks1, Principal, target, m);
        InPlace(c, now, dust + 2, Settle(g).ve, locks, JoinLocks(c, now, source, target).ve);
      }
    }
  }

  /** A decaying lock is taken out with its whole slope and put in behind its old end. */
  lemma MoveEndSound(c: Ve, now: nat, dust: nat, id: nat, newEnd: nat)
    requires Sound(c, now, dust) && c.lastTs == now && 0 < id < |c.locks|
    requires IsLive(c.locks[id], now) && IsWeighty(c.locks[id], now, now) && !c.locks[id].autoMax
    requires c.locks[id].end < newEnd <= now + MAX_LOCK_DURATION
    ensures IsSound(MoveEnd(c, now, id, newEnd), now, dust)
  {
    hide Product, SlopeAdd, IsSchedule, Covers, Area, SlopeAt, SlopeSum, IsWithin, WfLocks, CeilDiv, Adjust;
    var l := c.locks[id];
    var l' := l.(end := newEnd, start := now);
    var a := SlopeAdd(l.amount);
    var gone, locks := c.locks[id := DEAD], c.locks[id := l'];
    TakenOut(c.schedule, c.locks, now, id, a);
    var p1 := Adjust(c.schedule, l.end, -(a as int));
    PutIn(p1, gone, now, id, l');
    var p2 := Adjust(p1, newEnd, a);
    assert gone[id := l'] == locks;
    AdjustWithin(c.schedule, l.end, -(a as int), now, MAX_LOCK_DURATION);
    AdjustWithin(p1, newEnd, a, now, MAX_LOCK_DURATION);
    SumUpdate(c.locks, AutoPrincipal, id, l');
    SumUpdate(c.locks, SlopesAfter(now), id, l');
    SumUpdate(c.locks, Principal, id, l');
    KeptWf(c.locks, now, id, l');
    Swap(a, l.end - now);
    Swap(a, newEnd - now);
    Distribute(newEnd - l.end, l.end - now, a);
    Swap(a, newEnd - l.end);
    MoveEndDone(c, now, id, newEnd, p1, p2);
  }

  /** What is made of a lock whose end is moved. */
  lemma MoveEndDone(c: Ve, now: nat, id: nat, newEnd: nat, p1: Schedule, p2: Schedule)
    requires IsSchedule(c.schedule) && id < |c.locks| && now <= c.locks[id].end < newEnd
    requires var a := SlopeAdd(c.locks[id].amount);
      && SlopeAt(c.schedule, c.locks[id].end) >= a && p1 == Adjust(c.schedule, c.locks[id].end, -(a as int))
      && IsSchedule(p1) && p2 == Adjust(p1, newEnd, a)
    ensures match MoveEnd(c, now, id, newEnd)
      case Reverted(e) => e == Overflow
      case Done(r) =>
        && r.schedule == p2 && r.slope == c.slope && r.lastTs == c.lastTs && r.totalLocked == c.totalLocked
        && r.locks == c.locks[id := c.locks[id].(end := newEnd, start := now)]
        && r.bias == c.bias + SlopeAdd(c.locks[id].amount) * (newEnd - c.locks[id].end)
        && (c.bias <= MAX_UINT ==> r.bias <= MAX_UINT)
        && (c.cached == CeilDiv(c.bias, SLOPE_SCALE) ==> r.cached == CeilDiv(r.bias, SLOPE_SCALE))
  {
    hide SlopeAdd, IsSchedule, SlopeAt, CeilDiv;
    PositiveProduct(SlopeAdd(c.locks[id].amount), newEnd - c.locks[id].end);
  }

  // ---------------------------------------------------------------------------
  // Burning
  // ---------------------------------------------------------------------------

  lemma WithdrawnSettled(c: Ve, now: nat, dust: nat, id: nat)
    requires Sound(c, now, dust) && 0 < id < |c.locks| && IsLive(c.locks[id], now)
    ensures match Withdrawn(c, c.locks[id])
      case Reverted(e) => e == Overflow
      case Done(g) => IsSettled(c, now, dust + 1, g, c.locks[id := DEAD])
  {
    hide Ledger, IsWithin, WfLocks, Take, Settle, CeilDiv, Balanced, IsSettled;
    OpenBooks(c, now, dust);
    MoreDust(c, now, dust, dust + 1);
    if c.locks[id].autoMax || c.locks[id].end > c.lastTs {
      TakeBalanced(c, now, dust, Booked(c, 0, 0), c.locks, id);
      SettleSound(c, now, dust + 1, Take(Booked(c, 0, 0), c.locks[id]), c.locks[id := DEAD]);
    } else {
      OpenBooks(c, now, dust + 1);
      NothingLeft(c, now, dust + 1, Booked(c, 0, 0), id);
      SettleSound(c, now, dust + 1, Booked(c, 0, 0), c.locks[id := DEAD]);
    }
  }

  /** A lock whose end the checkpoint has passed contributes nothing any more. */
  lemma NothingLeft(c: Ve, now: nat, dust: nat, b: Booking, id: nat)
    requires Balanced(c, now, dust, b, c.locks) && id < |c.locks| && !c.locks[id].autoMax && c.locks[id].end <= c.lastTs
    ensures Balanced(c, now, dust, b, c.locks[id := DEAD])
  {
    hide IsSchedule, Area, SlopeAt, SlopeSum, IsWithin;
    SumUpdate(c.locks, AutoPrincipal, id, DEAD);
    SumUpdate(c.locks, SlopesAfter(c.lastTs), id, DEAD);
    Replaced(b.ve.schedule, c.locks, c.lastTs, id, DEAD);
  }

  /** Taking the expired lock out of the sums first is as good as last. */
  lemma ExpiredSettled(c: Ve, now: nat, dust: nat, id: nat)
    requires Sound(c, now, dust) && 0 < id < |c.locks| && IsLive(c.locks[id], now) && !c.locks[id].autoMax
    ensures match Expired(c, c.locks[id])
      case Reverted(e) => e == Overflow
      case Done(g) => IsSettled(c, now, dust + 1, g, c.locks[id := DEAD])
  {
    hide Ledger, IsWithin, WfLocks, CeilDiv, Balanced, IsSettled, Withdrawn;
    WithdrawnSettled(c, now, dust, id);
    if c.locks[id].end <= c.lastTs {
      hide Expired;
      MoreDust(c, now, dust, dust + 1);
      OpenBooks(c, now, dust + 1);
      NothingLeft(c, now, dust + 1, Booked(c, 0, 0), id);
      NothingSettled(c, now, dust + 1, c.locks[id := DEAD]);
      ExpiredIsNothing(c, c.locks[id]);
    } else {
      hide Expired;
      EnoughForExpired(c, now, dust, id);
      ExpiredIsWithdrawn(c, c.locks[id]);
    }
  }

  lemma ExpiredIsNothing(c: Ve, l: Lock)
    requires IsSchedule(c.schedule) && l.end <= c.lastTs
    ensures Expired(c, l) == Done(c)
  {
  }

  lemma NothingSettled(c: Ve, now: nat, dust: nat, locks: seq<Lock>)
    requires Sound(c, now, dust) && Balanced(c, now, dust, Booked(c, 0, 0), locks)
    ensures IsSettled(c, now, dust, c, locks)
  {
    hide IsSchedule, Covers, Area, SlopeSum, CeilDiv, WfLocks;
  }

  lemma EnoughForExpired(c: Ve, now: nat, dust: nat, id: nat)
    requires Sound(c, now, dust) && id < |c.locks| && IsSloped(c.locks[id]) && c.locks[id].end > c.lastTs
    ensures IsSchedule(c.schedule) && SlopeAt(c.schedule, c.locks[id].end) >= SlopeRemove(c.locks[id].amount)
  {
    EnoughScheduled(c.schedule, c.locks, c.lastTs, id);
  }

  /** The two orders of refusing and changing agree where nothing is refused for the schedule. */
  lemma ExpiredIsWithdrawn(c: Ve, l: Lock)
    requires IsSchedule(c.schedule) && !l.autoMax && l.end > c.lastTs
    requires SlopeAt(c.schedule, l.end) >= SlopeRemove(l.amount)
    ensures Expired(c, l) == Withdrawn(c, l)
  {
    hide SlopeRemove, IsSchedule, SlopeAt, CeilDiv;
    NegativeZero(SlopeRemove(l.amount), l.end - c.lastTs);
  }

  lemma NegativeZero(a: nat, b: nat)
    ensures a * b >= 0 && (a == 0 ==> a * b == 0)
  {
  }

  lemma BuriedSound(c: Ve, now: nat, dust: nat, id: nat, o: Outcome)
    requires Sound(c, now, dust) && 0 < id < |c.locks| && IsLive(c.locks[id], now)
    requires match o
      case Reverted(e) => e == Overflow
      case Done(g) => IsSettled(c, now, dust + 1, g, c.locks[id := DEAD])
    ensures o.Done? ==> id < |o.ve.locks|
    ensures IsSound(Buried(o, id, c.locks[id].amount), now, dust + 1)
  {
    hide Ledger, IsWithin, WfLocks, CeilDiv;
    if o.Done? {
      SumUpdate(c.locks, Principal, id, DEAD);
      KeptWf(c.locks, now, id, DEAD);
      InPlace(c, now, dust + 1, o.ve, c.locks[id := DEAD], Buried(o, id, c.locks[id].amount).ve);
    }
  }
}
