/** How close the total is to the balances, what a backlog costs, and that checkpoints leave no trace. */
module VeCheckpoints {
  import opened SlopeSchedule
  import opened VeLocks
  import opened VeModel
  import opened VeTheorems
  import opened VeRuns

  // ---------------------------------------------------------------------------
  // The total is close to the balances
  // ---------------------------------------------------------------------------

  lemma LockMissed(l: Lock, now: nat)
    requires l == DEAD || IsLive(l, now)
    ensures Weigh(AreaAfter(now), l) + SLOPE_SCALE * Weigh(AutoPrincipal, l)
         <= (Weigh(VeAt(now), l) + Weigh(Decaying(now), l)) * SLOPE_SCALE
  {
    hide SlopeAdd, Decayed;
    if IsSloped(l) && l.end > now {
      WeightBounds(l.amount, l.end - now);
    }
  }

  lemma {:induction false} LocksMissed(locks: seq<Lock>, now: nat)
    requires forall l | l in locks :: l == DEAD || IsLive(l, now)
    ensures Sum(locks, AreaAfter(now)) + SLOPE_SCALE * Sum(locks, AutoPrincipal)
         <= (Sum(locks, VeAt(now)) + Sum(locks, Decaying(now))) * SLOPE_SCALE
    decreases |locks|
  {
    hide Weigh, IsLive;
    if locks != [] {
      LockMissed(locks[0], now);
      LocksMissed(locks[1..], now);
    }
  }

  lemma BiasBound(s: Ve, now: nat, dust: nat)
    requires Sound(s, now, dust) && s.lastTs == now
    ensures s.bias
         <= (Sum(s.locks, VeAt(now)) + Sum(s.locks, Decaying(now))) * SLOPE_SCALE + Product(dust, MAX_LOCK_DURATION)
  {
    hide IsSchedule, Area, CeilDiv, IsWithin, Covers, Product, IsLive;
    CoveredSums(s.schedule, s.locks, now, MAX_LOCK_DURATION);
    forall l | l in s.locks ensures l == DEAD || IsLive(l, now) {
      var i: nat :| i < |s.locks| && s.locks[i] == l;
    }
    LocksMissed(s.locks, now);
    var surplus: int := SlopeSum(s.schedule) - Sum(s.locks, SlopesAfter(now));
    AddProducts(surplus, dust - surplus, MAX_LOCK_DURATION);
    PositiveProduct(dust - surplus, MAX_LOCK_DURATION);
  }

  lemma CeilAtMost(a: nat, b: nat, q: nat)
    requires b > 0 && a <= q * b
    ensures CeilDiv(a, b) <= q
  {
    CeilBounds(a, b);
    if CeilDiv(a, b) >= q + 1 {
      Factor(q + 1, CeilDiv(a, b), b);
      Distribute(q, 1, b);
    }
  }

  /**
   In every run that has caught up, the total is above the balances by at most one unit for each lock
   that still decays, and the dust: of fewer than thirty thousand million locks taken out early, it is at
   most one unit more.
   */
  lemma TotalIsClose(start: nat, run: seq<Call>)
    requires IsRun(start, run) && Reached(start, run).lastTs == EndOf(start, run)
    ensures var s := Reached(start, run);
      var now := EndOf(start, run);
      var balances := Sum(s.locks, VeAt(now)) + Sum(s.locks, Decaying(now));
      && s.bias <= balances * SLOPE_SCALE + Product(TakesIn(run), MAX_LOCK_DURATION)
      && (TakesIn(run) == 0 ==> s.cached <= balances)
      && (TakesIn(run) <= 30_000_000_000 ==> s.cached <= balances + 1)
  {
    hide Reached, IsRun, TakesIn, CeilDiv, Sound;
    var s, now := Reached(start, run), EndOf(start, run);
    var balances := Sum(s.locks, VeAt(now)) + Sum(s.locks, Decaying(now));
    BiasBound(s, now, TakesIn(run));
    CachedIsCeiling(s, now, TakesIn(run));
    if TakesIn(run) == 0 {
      NoTime(0);
      CeilAtMost(s.bias, SLOPE_SCALE, balances);
    }
    if TakesIn(run) <= 30_000_000_000 {
      CeilAtMost(s.bias, SLOPE_SCALE, balances + 1);
    }
  }

  /** The state behind the creation of a first lock, of the least amount and for the least time. */
  function FirstLock(start: nat, user: Address): Ve {
    var slope := 31_709_791_983_764_586_504_312_531_709_792;
    Ve([DEAD, Lock(user, MIN_LOCK_AMOUNT, start, start + MIN_LOCK_DURATION, false, false)],
       slope, slope * MIN_LOCK_DURATION, start, [Change(start + MIN_LOCK_DURATION, slope)],
       19_178_082_191_780_821_918, MIN_LOCK_AMOUNT)
  }

  lemma FirstLockCreated(start: nat, user: Address)
    requires user != NOBODY
    ensures IsAged(Deployed(start), start)
    ensures CreateLock(Deployed(start), start, user, MIN_LOCK_AMOUNT, MIN_LOCK_DURATION, false)
         == Done(FirstLock(start, user))
  {
    assert [DEAD][1..] == [];
    assert Sum([DEAD], Owned(user)) == Weigh(Owned(user), DEAD) + Sum([], Owned(user));
    assert SlopeAdd(MIN_LOCK_AMOUNT) == 31_709_791_983_764_586_504_312_531_709_792;
    assert Checkpoint(Deployed(start), start) == Deployed(start);
    assert [DEAD] + [Lock(user, MIN_LOCK_AMOUNT, start, start + MIN_LOCK_DURATION, false, false)]
        == FirstLock(start, user).locks;
  }

  /** The unit for a decaying lock is reached: a first lock weighs one unit less than the total. */
  lemma OneUnitIsMissed(start: nat, user: Address)
    requires user != NOBODY
    ensures var run := [Call(start, Create(user, MIN_LOCK_AMOUNT, MIN_LOCK_DURATION, false))];
      && IsRun(start, run)
      && var s := Reached(start, run);
         s.lastTs == start && Sum(s.locks, Decaying(start)) == 1 && s.cached == Sum(s.locks, VeAt(start)) + 1
  {
    hide CreateLock, Sound;
    FirstLockCreated(start, user);
    var run := [Call(start, Create(user, MIN_LOCK_AMOUNT, MIN_LOCK_DURATION, false))];
    assert run[1..] == [] && IsRun(start, run);
    var s := FirstLock(start, user);
    DeployedIsSound(start);
    assert Execute(Deployed(start), start, run[0].action) == Done(s);
    assert Next(Deployed(start), start, 0, run[0]) == s;
    assert Reached(start, run) == After(s, start, 0, run[1..]) == s;
    var l := s.locks[1];
    assert s.locks[1..] == [l] && [l][1..] == [];
    assert Sum([l], VeAt(start)) == Weigh(VeAt(start), l) + Sum([], VeAt(start));
    assert Sum([l], Decaying(start)) == Weigh(Decaying(start), l) + Sum([], Decaying(start));
  }

  lemma CachedIsCeiling(s: Ve, now: nat, dust: nat)
    requires Sound(s, now, dust)
    ensures s.cached == CeilDiv(s.bias, SLOPE_SCALE)
  {
  }

  lemma {:induction false} NoneDecays(locks: seq<Lock>, t: nat, now: nat)
    requires t <= now && forall l | l in locks :: !(IsSloped(l) && l.end > t)
    ensures Sum(locks, VeAt(now)) == Sum(locks, AutoPrincipal)
    decreases |locks|
  {
    hide Decayed;
    if locks != [] {
      assert locks[0] in locks;
      NoneDecays(locks[1..], t, now);
    }
  }

  lemma CeilExact(a: nat, b: nat)
    requires b > 0
    ensures CeilDiv(b * a, b) == a
  {
    CeilBounds(b * a, b);
    Swap(a, b);
    CeilAtMost(b * a, b, a);
    var q := CeilDiv(b * a, b);
    Distribute(q, 1, b);
    if q < a {
      Factor(q + 1, a, b);
    }
  }

  /**
   Once nothing is scheduled any more, no dust is left: the global slope is zero, and the total is exactly
   the perpetual principal, which is exactly what all balances come to.
   */
  lemma NothingScheduledIsExact(s: Ve, clock: nat, dust: nat, now: nat)
    requires Sound(s, clock, dust) && s.schedule == [] && s.lastTs <= now
    ensures s.slope == 0 && s.bias == SLOPE_SCALE * Sum(s.locks, AutoPrincipal)
    ensures s.cached == Sum(s.locks, AutoPrincipal) == Sum(s.locks, VeAt(now))
  {
    hide CeilDiv, WfLocks, IsWithin, Covers;
    CeilExact(Sum(s.locks, AutoPrincipal), SLOPE_SCALE);
    forall l | l in s.locks ensures !(IsSloped(l) && l.end > s.lastTs) {
      if IsSloped(l) && l.end > s.lastTs {
        NoneEnds(s, l);
      }
    }
    NoneDecays(s.locks, s.lastTs, now);
  }

  /**
   The slope that falls due is the whole global slope exactly when it is the last one scheduled, and never
   more: the event that reports a clamped drift is emitted then, and only then, with nothing clamped.
   */
  lemma DriftIsNeverClamped(s: Ve)
    requires Ledger(s) && s.schedule != []
    ensures s.schedule[0].slope <= s.slope
    ensures s.schedule[0].slope >= s.slope <==> |s.schedule| == 1
  {
    hide Area, Covers;
    var first, rest := s.schedule[0], s.schedule[1..];
    assert s.schedule == [first] + rest;
    Cons(first, rest);
  }

  // ---------------------------------------------------------------------------
  // Backlogs
  // ---------------------------------------------------------------------------

  function DueCount(p: Schedule, now: nat): nat {
    if p == [] || p[0].at > now then 0 else 1 + DueCount(p[1..], now)
  }

  lemma {:induction false} DueWithin(p: Schedule, now: nat)
    ensures DueCount(p, now) <= |p|
    decreases |p|
  {
    if p != [] {
      DueWithin(p[1..], now);
    }
  }

  lemma {:induction false} DueAre(p: Schedule, now: nat, k: nat)
    requires IsSchedule(p) && k < |p|
    ensures k < DueCount(p, now) <==> p[k].at <= now
    ensures k > 0 ==> p[k - 1].at < p[k].at
    decreases |p|
  {
    if k > 0 {
      DueAre(p[1..], now, k - 1);
      Increasing(p, k);
    }
  }

  lemma {:induction false} Increasing(p: Schedule, k: nat)
    requires IsSchedule(p) && 0 < k < |p|
    ensures p[0].at < p[k].at
    decreases |p|
  {
    if k > 1 {
      Increasing(p[1..], k - 1);
    }
  }

  lemma {:induction false} DueBehind(p: Schedule, now: nat, k: nat)
    requires k <= DueCount(p, now) && k <= |p|
    ensures DueCount(p[k..], now) == DueCount(p, now) - k
    decreases k
  {
    if k == 0 {
      assert p[0..] == p;
    } else {
      DueBehind(p[1..], now, k - 1);
      assert p[1..][k - 1..] == p[k..];
    }
  }

  function Min(a: nat, b: nat): nat { if a <= b then a else b }

  /** A checkpoint's loop takes what is due off the schedule, up to its turns. */
  lemma {:induction false} ProcessTakes(s: Ve, now: nat, turns: nat)
    requires Ledger(s)
    ensures var k, r := Min(DueCount(s.schedule, now), turns), ProcessDue(s, now, turns);
      && k <= |s.schedule| && r.schedule == s.schedule[k..] && Ledger(r)
      && r.locks == s.locks && r.totalLocked == s.totalLocked
      && (k > 0 ==> r.lastTs == s.schedule[k - 1].at) && (k == 0 ==> r == s)
    decreases turns
  {
    hide Ledger, Decay;
    LedgerIsAged(s);
    DueWithin(s.schedule, now);
    if turns > 0 && IsDue(s, now) {
      ProcessFirstSound(s);
      ProcessTakes(ProcessFirst(s), now, turns - 1);
      var k := Min(DueCount(s.schedule[1..], now), turns - 1);
      assert s.schedule[1..][k..] == s.schedule[k + 1..];
    }
  }

  /** The state has caught up with now: what was due is gone, and the books are those of the rest. */
  ghost predicate IsCaughtUp(s: Ve, now: nat, r: Ve) {
    && DueCount(s.schedule, now) <= |s.schedule| && r.schedule == s.schedule[DueCount(s.schedule, now)..]
    && r.locks == s.locks && r.totalLocked == s.totalLocked && r.lastTs == now
    && Ledger(r) && r.cached == CeilDiv(r.bias, SLOPE_SCALE)
  }

  lemma CaughtUpIsUnique(s: Ve, now: nat, r: Ve, r': Ve)
    requires IsCaughtUp(s, now, r) && IsCaughtUp(s, now, r')
    ensures r == r'
  {
    hide Area, IsSchedule, Covers;
  }

  /**
   A checkpoint catches up exactly when no more than its turns are due; otherwise it takes that many off
   the schedule and stays behind.
   */
  lemma CheckpointCatchesUp(s: Ve, clock: nat, dust: nat, now: nat)
    requires Sound(s, clock, dust) && clock <= now
    ensures IsAged(s, now)
    ensures var c, due := Checkpoint(s, now), DueCount(s.schedule, now);
      && (c.lastTs == now <==> due <= MAX_SLOPE_CHANGES_PER_CALL)
      && (due <= MAX_SLOPE_CHANGES_PER_CALL ==> IsCaughtUp(s, now, c))
      && (due > MAX_SLOPE_CHANGES_PER_CALL ==>
            DueCount(c.schedule, now) == due - MAX_SLOPE_CHANGES_PER_CALL
            && due <= |s.schedule| && c.schedule == s.schedule[MAX_SLOPE_CHANGES_PER_CALL..])
  {
    hide Ledger, CeilDiv, CatchUp, ProcessDue, IsSchedule;
    LedgerIsAged(s);
    CheckpointSound(s, now, clock, dust);
    var turns, due := MAX_SLOPE_CHANGES_PER_CALL, DueCount(s.schedule, now);
    ProcessTakes(s, now, turns);
    ProcessDueSound(s, now, turns);
    DueWithin(s.schedule, now);
    var r := ProcessDue(s, now, turns);
    CatchUpSound(r, now);
    CatchUpFrame(r, now);
    CachedOnly(CatchUp(r, now));
    if due <= turns {
      NoneDue(s.schedule, now);
      CatchUpNow(r, now);
    } else {
      DueBehind(s.schedule, now, turns);
      DueAre(s.schedule, now, turns);
      CatchUpBehind(r, now);
    }
  }

  lemma NoneDue(p: Schedule, now: nat)
    ensures DueCount(p, now) <= |p|
    ensures var rest := p[DueCount(p, now)..]; rest == [] || rest[0].at > now
  {
    DueWithin(p, now);
    DueBehind(p, now, DueCount(p, now));
  }

  lemma CatchUpNow(s: Ve, now: nat)
    requires s.lastTs <= now && !IsDue(s, now)
    ensures CatchUp(s, now).lastTs == now
  {
  }

  lemma CatchUpBehind(s: Ve, now: nat)
    requires s.lastTs <= now && IsDue(s, now)
    ensures CatchUp(s, now) == s
  {
  }

  lemma {:induction false} DueEarlier(p: Schedule, t: nat, now: nat)
    requires t <= now
    ensures DueCount(p, t) <= DueCount(p, now)
    decreases |p|
  {
    if p != [] {
      DueEarlier(p[1..], t, now);
    }
  }

  /** Checkpoints leave no trace: one in between changes nothing about a later one that catches up. */
  lemma CheckpointsLeaveNoTrace(s: Ve, clock: nat, dust: nat, t: nat, now: nat)
    requires Sound(s, clock, dust) && clock <= t <= now
    requires DueCount(s.schedule, now) <= MAX_SLOPE_CHANGES_PER_CALL
    ensures IsAged(s, now) && IsAged(s, t) && IsAged(Checkpoint(s, t), now)
    ensures Checkpoint(Checkpoint(s, t), now) == Checkpoint(s, now)
  {
    hide Sound, Checkpoint, IsCaughtUp, DueCount, IsSchedule;
    CheckpointSound(s, t, clock, dust);
    CheckpointSound(s, now, clock, dust);
    DueEarlier(s.schedule, t, now);
    CheckpointCatchesUp(s, clock, dust, t);
    CheckpointCatchesUp(s, clock, dust, now);
    var c := Checkpoint(s, t);
    CheckpointSound(c, now, t, dust);
    CaughtUpParts(s, t, c, now);
    CheckpointCatchesUp(c, t, dust, now);
    CaughtUpBehind(s, c, now, Checkpoint(c, now), DueCount(s.schedule, t));
    CaughtUpIsUnique(s, now, Checkpoint(c, now), Checkpoint(s, now));
  }

  lemma CaughtUpParts(s: Ve, t: nat, c: Ve, now: nat)
    requires IsCaughtUp(s, t, c) && t <= now
    ensures var j := DueCount(s.schedule, t);
      && j <= |s.schedule| && c.schedule == s.schedule[j..] && c.locks == s.locks && c.totalLocked == s.totalLocked
      && j <= DueCount(s.schedule, now) && DueCount(c.schedule, now) == DueCount(s.schedule, now) - j
  {
    hide Ledger, CeilDiv, DueCount;
    DueEarlier(s.schedule, t, now);
    DueBehind(s.schedule, now, DueCount(s.schedule, t));
  }

  lemma Behind(p: Schedule, j: nat, k: nat)
    requires j <= k <= |p|
    ensures p[j..][k - j..] == p[k..]
  {
  }

  /** The state after so many checkpoints at one time. */
  ghost function Checkpoints(s: Ve, clock: nat, dust: nat, now: nat, k: nat): (r: Ve)
    requires Sound(s, clock, dust) && clock <= now
    ensures Sound(r, now, dust)
    decreases k
  {
    if k == 0 then
      SoundLater(s, clock, now, dust);
      s
    else
      CheckpointSound(s, now, clock, dust);
      Checkpoints(Checkpoint(s, now), now, dust, now, k - 1)
  }

  /** A backlog is cleared by exactly as many checkpoints as its changes need, and then leaves no trace. */
  lemma {:induction false} BacklogClears(s: Ve, clock: nat, dust: nat, now: nat, k: nat)
    requires Sound(s, clock, dust) && clock <= now && k > 0
    ensures var r := Checkpoints(s, clock, dust, now, k);
      && (r.lastTs == now <==> DueCount(s.schedule, now) <= k * MAX_SLOPE_CHANGES_PER_CALL)
      && (r.lastTs == now ==> IsCaughtUp(s, now, r))
    decreases k
  {
    hide Sound, Checkpoint, Checkpoints, IsCaughtUp, DueCount, IsSchedule;
    CheckpointSound(s, now, clock, dust);
    CheckpointCatchesUp(s, clock, dust, now);
    CheckpointDrops(s, clock, dust, now);
    OneMore(s, clock, dust, now, k);
    var c, due := Checkpoint(s, now), DueCount(s.schedule, now);
    if k == 1 {
      NoneMore(c, now, dust);
    } else {
      BacklogClears(c, now, dust, now, k - 1);
      var r := Checkpoints(c, now, dust, now, k - 1);
      if r.lastTs == now {
        CaughtUpBehind(s, c, now, r, Min(due, MAX_SLOPE_CHANGES_PER_CALL));
      }
    }
  }

  lemma NoneMore(s: Ve, clock: nat, dust: nat)
    requires Sound(s, clock, dust)
    ensures Checkpoints(s, clock, dust, clock, 0) == s
  {
  }

  lemma OneMore(s: Ve, clock: nat, dust: nat, now: nat, k: nat)
    requires Sound(s, clock, dust) && clock <= now && k > 0
    ensures IsAged(s, now) && Sound(Checkpoint(s, now), now, dust)
    ensures Checkpoints(s, clock, dust, now, k) == Checkpoints(Checkpoint(s, now), now, dust, now, k - 1)
  {
    hide Sound, Checkpoint;
    CheckpointSound(s, now, clock, dust);
  }

  lemma CheckpointDrops(s: Ve, clock: nat, dust: nat, now: nat)
    requires Sound(s, clock, dust) && clock <= now
    ensures IsAged(s, now)
    ensures var c, j := Checkpoint(s, now), Min(DueCount(s.schedule, now), MAX_SLOPE_CHANGES_PER_CALL);
      && j <= |s.schedule| && c.schedule == s.schedule[j..] && c.locks == s.locks && c.totalLocked == s.totalLocked
      && DueCount(c.schedule, now) == DueCount(s.schedule, now) - j
  {
    hide Ledger, CeilDiv, CatchUp, ProcessDue, IsSchedule;
    LedgerIsAged(s);
    CheckpointSound(s, now, clock, dust);
    ProcessTakes(s, now, MAX_SLOPE_CHANGES_PER_CALL);
    ProcessDueSound(s, now, MAX_SLOPE_CHANGES_PER_CALL);
    CatchUpFrame(ProcessDue(s, now, MAX_SLOPE_CHANGES_PER_CALL), now);
    DueBehind(s.schedule, now, Min(DueCount(s.schedule, now), MAX_SLOPE_CHANGES_PER_CALL));
  }

  lemma CaughtUpBehind(s: Ve, c: Ve, now: nat, r: Ve, j: nat)
    requires IsCaughtUp(c, now, r) && j <= |s.schedule| && c.schedule == s.schedule[j..]
    requires c.locks == s.locks && c.totalLocked == s.totalLocked
    requires j <= DueCount(s.schedule, now) && DueCount(c.schedule, now) == DueCount(s.schedule, now) - j
    ensures IsCaughtUp(s, now, r)
  {
    hide Ledger, CeilDiv, DueCount;
    DueWithin(s.schedule, now);
    Behind(s.schedule, j, DueCount(s.schedule, now));
  }
}
