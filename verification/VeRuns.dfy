/**
 Runs of the voting-escrow contract: any operations, by anyone, at times that never go back. What they
 keep, what the total says of the balances, and what checkpoints cost.
 */
module VeRuns {
  import opened Text
  import opened SlopeSchedule
  import opened VeLocks
  import opened VeModel
  import opened VeTheorems

  // ---------------------------------------------------------------------------
  // Every operation is sound
  // ---------------------------------------------------------------------------

  /** How many locks an operation takes out of the sums: each leaves at most one unit of slope behind. */
  function Takes(a: Action): nat {
    match a
    case Merge(_, _, _) => 2
    case Auto(_, _, _) => 1
    case Withdraw(_, _) => 1
    case Burn(_, _, _) => 1
    case _ => 0
  }

  /** A lock is replaced by one of the same weight. */
  lemma SameWeight(c: Ve, now: nat, dust: nat, id: nat, l: Lock)
    requires Sound(c, now, dust) && 0 < id < |c.locks| && IsLive(l, now)
    requires l.amount == c.locks[id].amount && l.autoMax == c.locks[id].autoMax
    requires l.autoMax || l.end == c.locks[id].end
    ensures Sound(WithLock(c, id, l), now, dust)
  {
    hide IsSchedule, Area, SlopeSum, SlopeAt, IsWithin, CeilDiv, SlopeAdd;
    SumUpdate(c.locks, AutoPrincipal, id, l);
    SumUpdate(c.locks, Principal, id, l);
    SumUpdate(c.locks, SlopesAfter(c.lastTs), id, l);
    KeptWf(c.locks, now, id, l);
    Replaced(c.schedule, c.locks, c.lastTs, id, l);
  }

  /** A sound state stays sound as time passes. */
  lemma SoundLater(s: Ve, clock: nat, now: nat, dust: nat)
    requires Sound(s, clock, dust) && clock <= now
    ensures Sound(s, now, dust)
  {
    hide Ledger, CeilDiv;
  }

  lemma CreateSound(s: Ve, now: nat, dust: nat, user: Address, amount: nat, duration: nat, autoMax: bool)
    requires Sound(s, now, dust)
    ensures IsAged(s, now) && IsSound(CreateLock(s, now, user, amount, duration, autoMax), now, dust)
  {
    hide Sound, OpenLock, Checkpoint;
    CheckpointSound(s, now, now, dust);
    var c := Checkpoint(s, now);
    if CreateRefused(s.locks, user, amount, duration, autoMax).None? && c.lastTs == now {
      OpenLockSound(c, now, dust, Lock(user, amount, now, now + duration, autoMax, false));
    }
  }

  lemma AddToSound(s: Ve, now: nat, dust: nat, user: Address, id: nat, amount: nat)
    requires Sound(s, now, dust)
    ensures IsAged(s, now) && IsSound(AddToLock(s, now, user, id, amount), now, dust)
  {
    hide Ledger, RaiseLock, Checkpoint, IsWithin, CeilDiv;
    CheckpointSound(s, now, now, dust);
    if AddToRefused(s.locks, now, user, id, amount).None? && Checkpoint(s, now).lastTs == now {
      MutableLock(s, now, id);
      RaiseLockSound(Checkpoint(s, now), now, dust, id, amount);
    }
  }

  lemma ExtendSound(s: Ve, now: nat, dust: nat, user: Address, id: nat, newEnd: nat)
    requires Sound(s, now, dust)
    ensures IsAged(s, now) && IsSound(ExtendLock(s, now, user, id, newEnd), now, dust)
  {
    hide Ledger, MoveEnd, Checkpoint, IsWithin, CeilDiv;
    CheckpointSound(s, now, now, dust);
    var c, l := Checkpoint(s, now), LockOf(s.locks, id);
    if ExtendRefused(s.locks, now, user, id, newEnd).None? {
      MutableLock(s, now, id);
      if l.autoMax {
        SameWeight(c, now, dust, id, l.(end := now + MAX_LOCK_DURATION, start := now));
      } else if c.lastTs == now {
        MoveEndSound(c, now, dust, id, newEnd);
      }
    }
  }

  lemma AutoSound(s: Ve, now: nat, dust: nat, user: Address, id: nat, enabled: bool)
    requires Sound(s, now, dust)
    ensures IsAged(s, now) && IsSound(SetAutoMax(s, now, user, id, enabled), now, dust + 1)
  {
    hide Ledger, FlipLock, Checkpoint, IsWithin, CeilDiv;
    CheckpointSound(s, now, now, dust);
    var c, l := Checkpoint(s, now), LockOf(s.locks, id);
    MoreDust(s, now, dust, dust + 1);
    MoreDust(c, now, dust, dust + 1);
    if AutoRefused(s.locks, now, user, id).None? && c.lastTs == now {
      MutableLock(s, now, id);
      if l.autoMax && enabled {
        SameWeight(c, now, dust + 1, id, Flipped(l, now, enabled));
      }
      FlipLockSound(c, now, dust, id, enabled);
    }
  }

  lemma MergeSound(s: Ve, now: nat, dust: nat, user: Address, source: nat, target: nat)
    requires Sound(s, now, dust)
    ensures IsAged(s, now) && IsSound(MergeLocks(s, now, user, source, target), now, dust + 2)
  {
    hide Ledger, JoinLocks, Checkpoint, IsWithin, CeilDiv;
    CheckpointSound(s, now, now, dust);
    if MergeRefused(s.locks, now, user, source, target).None? && Checkpoint(s, now).lastTs == now {
      MutableLock(s, now, source);
      MutableLock(s, now, target);
      JoinLocksSound(Checkpoint(s, now), now, dust, source, target);
    }
  }

  lemma UnlockSound(s: Ve, now: nat, dust: nat, user: Address, id: nat)
    requires Sound(s, now, dust)
    ensures IsAged(s, now) && IsSound(Unlock(s, now, user, id), now, dust + 1)
  {
    hide Ledger, Expired, Checkpoint, IsWithin, CeilDiv, Buried;
    CheckpointSound(s, now, now, dust);
    var c := Checkpoint(s, now);
    if UnlockRefused(s.locks, now, user, id).None? {
      LiveLock(s, now, id);
      ExpiredSettled(c, now, dust, id);
      BuriedSound(c, now, dust, id, Expired(c, c.locks[id]));
    }
  }

  lemma BurnSound(s: Ve, now: nat, dust: nat, custodian: Address, id: nat, recipient: Address)
    requires Sound(s, now, dust)
    ensures IsAged(s, now) && IsSound(BurnAndWithdraw(s, now, custodian, id, recipient), now, dust + 1)
  {
    hide Ledger, Withdrawn, Checkpoint, IsWithin, CeilDiv, Buried;
    CheckpointSound(s, now, now, dust);
    var c := Checkpoint(s, now);
    if BurnRefused(s.locks, custodian, id, recipient).None? {
      LiveLock(s, now, id);
      WithdrawnSettled(c, now, dust, id);
      BuriedSound(c, now, dust, id, Withdrawn(c, c.locks[id]));
    }
  }

  lemma ListSound(s: Ve, now: nat, dust: nat, id: nat, listed: bool)
    requires Sound(s, now, dust)
    ensures IsSound(SetListed(s, now, id, listed), now, dust)
  {
    hide Ledger, IsWithin, CeilDiv;
    if OwnerOf(s.locks, id) != NOBODY {
      LiveLock(s, now, id);
      SameWeight(s, now, dust, id, LockOf(s.locks, id).(listed := listed));
    }
  }

  lemma TransferSound(s: Ve, now: nat, dust: nat, furnace: Address, from: Address, to: Address, id: nat)
    requires Sound(s, now, dust)
    ensures IsAged(s, now) && IsSound(TransferLock(s, now, furnace, from, to, id), now, dust)
  {
    hide Ledger, Checkpoint, IsWithin, CeilDiv;
    CheckpointSound(s, now, now, dust);
    if OwnerOf(s.locks, id) != NOBODY && to != NOBODY {
      LiveLock(s, now, id);
      SameWeight(Checkpoint(s, now), now, dust, id, LockOf(s.locks, id).(owner := to));
    }
  }

  lemma ExecuteSound(s: Ve, now: nat, dust: nat, a: Action)
    requires Sound(s, now, dust)
    ensures IsAged(s, now) && IsSound(Execute(s, now, a), now, dust + Takes(a))
  {
    hide Sound, CreateLock, AddToLock, ExtendLock, SetAutoMax, MergeLocks, Unlock, BurnAndWithdraw, SetListed,
      TransferLock, Checkpoint;
    match a {
      case Create(user, amount, duration, autoMax) => CreateSound(s, now, dust, user, amount, duration, autoMax);
      case AddTo(user, id, amount) => AddToSound(s, now, dust, user, id, amount);
      case Extend(user, id, newEnd) => ExtendSound(s, now, dust, user, id, newEnd);
      case Auto(user, id, enabled) => AutoSound(s, now, dust, user, id, enabled);
      case Merge(user, source, target) => MergeSound(s, now, dust, user, source, target);
      case Withdraw(user, id) => UnlockSound(s, now, dust, user, id);
      case Burn(custodian, id, recipient) => BurnSound(s, now, dust, custodian, id, recipient);
      case List(id, listed) =>
        CheckpointSound(s, now, now, dust);
        ListSound(s, now, dust, id, listed);
      case Transfer(furnace, from, to, id) => TransferSound(s, now, dust, furnace, from, to, id);
      case Touch => CheckpointSound(s, now, now, dust);
    }
  }

  // ---------------------------------------------------------------------------
  // Runs
  // ---------------------------------------------------------------------------

  datatype Call = Call(now: nat, action: Action)

  /** The times of the calls never go back. */
  predicate IsRun(clock: nat, run: seq<Call>)
    decreases |run|
  {
    run == [] || (clock <= run[0].now && IsRun(run[0].now, run[1..]))
  }

  function EndOf(clock: nat, run: seq<Call>): nat
    decreases |run|
  {
    if run == [] then clock else EndOf(run[0].now, run[1..])
  }

  function TakesIn(run: seq<Call>): nat {
    if run == [] then 0 else Takes(run[0].action) + TakesIn(run[1..])
  }

  /** The state behind one call; a refused call leaves the state as it was. */
  ghost function Next(s: Ve, clock: nat, dust: nat, call: Call): (r: Ve)
    requires Sound(s, clock, dust) && clock <= call.now
    ensures Sound(r, call.now, dust + Takes(call.action))
  {
    hide Sound, Execute;
    SoundLater(s, clock, call.now, dust);
    ExecuteSound(s, call.now, dust, call.action);
    MoreDust(s, call.now, dust, dust + Takes(call.action));
    var o := Execute(s, call.now, call.action);
    if o.Done? then o.ve else s
  }

  /** The state behind a run. */
  ghost function After(s: Ve, clock: nat, dust: nat, run: seq<Call>): (r: Ve)
    requires Sound(s, clock, dust) && IsRun(clock, run)
    ensures Sound(r, EndOf(clock, run), dust + TakesIn(run))
    decreases |run|
  {
    hide Sound, Next;
    if run == [] then s
    else After(Next(s, clock, dust, run[0]), run[0].now, dust + Takes(run[0].action), run[1..])
  }

  lemma DeployedIsSound(now: nat)
    ensures Sound(Deployed(now), now, 0)
  {
    assert [DEAD][1..] == [];
    forall m: Measure | m == Principal || m == AutoPrincipal || m == SlopesAfter(now) || m.SlopesAt?
      ensures Sum([DEAD], m) == 0
    {
      assert Sum([DEAD], m) == Weigh(m, DEAD) + Sum([], m);
    }
  }

  /** The state that a run from the deployment leads to. */
  ghost function Reached(start: nat, run: seq<Call>): (r: Ve)
    requires IsRun(start, run)
    ensures Sound(r, EndOf(start, run), TakesIn(run))
  {
    DeployedIsSound(start);
    After(Deployed(start), start, 0, run)
  }

  // ---------------------------------------------------------------------------
  // Over every run
  // ---------------------------------------------------------------------------

  /** No call is ever refused for a broken invariant of the sums. */
  lemma NeverViolated(start: nat, run: seq<Call>, now: nat, a: Action)
    requires IsRun(start, run) && EndOf(start, run) <= now
    ensures var s := Reached(start, run);
      IsAged(s, now) && Execute(s, now, a) != Reverted(InvariantViolation)
  {
    hide Sound, Execute;
    var s := Reached(start, run);
    SoundLater(s, EndOf(start, run), now, TakesIn(run));
    ExecuteSound(s, now, TakesIn(run), a);
  }

  /** The books after every run: the sums are exactly those of the schedule and the perpetual locks. */
  lemma BooksAreExact(start: nat, run: seq<Call>)
    requires IsRun(start, run)
    ensures var s := Reached(start, run);
      && s.slope == SlopeSum(s.schedule)
      && s.bias == Area(s.schedule, s.lastTs) + SLOPE_SCALE * Sum(s.locks, AutoPrincipal)
      && s.cached == CeilDiv(s.bias, SLOPE_SCALE)
      && s.totalLocked == Sum(s.locks, Principal)
      && Covers(s.schedule, s.locks, s.lastTs)
  {
  }

  // ---------------------------------------------------------------------------
  // The total covers the balances
  // ---------------------------------------------------------------------------

  lemma LockCovered(l: Lock, t: nat, now: nat)
    requires t <= now
    ensures Weigh(VeAt(now), l) * SLOPE_SCALE <= Weigh(AreaAfter(t), l) + SLOPE_SCALE * Weigh(AutoPrincipal, l)
  {
    hide SlopeAdd, Decayed;
    if IsSloped(l) && l.end > now {
      WeightBounds(l.amount, l.end - now);
      Factor(l.end - now, l.end - t, SlopeAdd(l.amount));
      Swap(l.end - now, SlopeAdd(l.amount));
      Swap(l.end - t, SlopeAdd(l.amount));
    } else if IsSloped(l) && l.end > t {
      PositiveProduct(SlopeAdd(l.amount), l.end - t);
      Swap(SlopeAdd(l.amount), l.end - t);
    }
  }

  lemma {:induction false} LocksCovered(locks: seq<Lock>, t: nat, now: nat)
    requires t <= now
    ensures Sum(locks, VeAt(now)) * SLOPE_SCALE <= Sum(locks, AreaAfter(t)) + SLOPE_SCALE * Sum(locks, AutoPrincipal)
    decreases |locks|
  {
    hide Weigh;
    if locks != [] {
      LockCovered(locks[0], t, now);
      LocksCovered(locks[1..], t, now);
    }
  }

  /** `veBalanceOf`: the weights of the locks that an address owns. */
  function VeBalanceOf(s: Ve, user: Address, now: nat): nat { Sum(s.locks, VeOwned(user, now)) }

  function Balances(s: Ve, users: seq<Address>, now: nat): nat {
    if users == [] then 0 else VeBalanceOf(s, users[0], now) + Balances(s, users[1..], now)
  }

  predicate AreDistinct(users: seq<Address>) { forall i, j | 0 <= i < j < |users| :: users[i] != users[j] }

  predicate AreAllOwners(locks: seq<Lock>, users: seq<Address>) {
    forall l | l in locks && l != DEAD :: l.owner in users
  }

  /** What one lock adds to the balances of some users. */
  function Shares(l: Lock, users: seq<Address>, now: nat): nat {
    if users == [] then 0 else Weigh(VeOwned(users[0], now), l) + Shares(l, users[1..], now)
  }

  lemma {:induction false} SharedOnce(l: Lock, users: seq<Address>, now: nat)
    requires AreDistinct(users)
    ensures Shares(l, users, now) <= VeOf(l, now)
    ensures Shares(l, users, now) == if l.owner in users then VeOf(l, now) else 0
    decreases |users|
  {
    hide VeOf;
    if users != [] {
      var rest := users[1..];
      assert forall i, j | 0 <= i < j < |rest| :: rest[i] == users[i + 1] && rest[j] == users[j + 1];
      SharedOnce(l, rest, now);
      assert forall k | 0 <= k < |rest| :: rest[k] == users[k + 1] && users[0] != users[k + 1];
    }
  }

  function AllShares(locks: seq<Lock>, users: seq<Address>, now: nat): nat {
    if locks == [] then 0 else Shares(locks[0], users, now) + AllShares(locks[1..], users, now)
  }

  lemma {:induction false} SharesOfFirst(locks: seq<Lock>, users: seq<Address>, now: nat)
    requires users != []
    ensures AllShares(locks, users, now) == Sum(locks, VeOwned(users[0], now)) + AllShares(locks, users[1..], now)
    decreases |locks|
  {
    hide Weigh;
    if locks != [] {
      SharesOfFirst(locks[1..], users, now);
    }
  }

  lemma {:induction false} NoShares(locks: seq<Lock>, now: nat)
    ensures AllShares(locks, [], now) == 0
    decreases |locks|
  {
    if locks != [] {
      NoShares(locks[1..], now);
    }
  }

  lemma {:induction false} BalancesAreShares(s: Ve, users: seq<Address>, now: nat)
    ensures Balances(s, users, now) == AllShares(s.locks, users, now)
    decreases |users|
  {
    hide Sum;
    if users == [] {
      NoShares(s.locks, now);
    } else {
      SharesOfFirst(s.locks, users, now);
      BalancesAreShares(s, users[1..], now);
    }
  }

  lemma {:induction false} SharesWithin(locks: seq<Lock>, users: seq<Address>, now: nat)
    requires AreDistinct(users)
    ensures AllShares(locks, users, now) <= Sum(locks, VeAt(now))
    ensures AreAllOwners(locks, users) ==> AllShares(locks, users, now) == Sum(locks, VeAt(now))
    decreases |locks|
  {
    hide AreDistinct, Decayed;
    if locks != [] {
      SharedOnce(locks[0], users, now);
      assert locks[0] in locks;
      SharesWithin(locks[1..], users, now);
    }
  }

  lemma BiasCovers(s: Ve, clock: nat, dust: nat, now: nat)
    requires Sound(s, clock, dust) && s.lastTs <= now
    ensures Sum(s.locks, VeAt(now)) * SLOPE_SCALE <= s.bias
    ensures Sum(s.locks, VeAt(now)) <= s.cached
  {
    hide IsSchedule, SlopeSum, Area, CeilDiv, WfLocks, IsWithin, Covers;
    CoveredSums(s.schedule, s.locks, s.lastTs, 0);
    LocksCovered(s.locks, s.lastTs, now);
    CeilBounds(s.bias, SLOPE_SCALE);
  }

  /**
   In every run, at every time from the last call on, and for any users: their balances together are at
   most the total, cached or recomputed, however stale the checkpoint. The balances of all owners are all
   that the locks weigh.
   */
  lemma TotalCoversBalances(start: nat, run: seq<Call>, now: nat, users: seq<Address>)
    requires IsRun(start, run) && EndOf(start, run) <= now && AreDistinct(users)
    ensures var s := Reached(start, run);
      && Balances(s, users, now) <= Sum(s.locks, VeAt(now)) <= CeilDiv(s.bias, SLOPE_SCALE) == s.cached
      && (AreAllOwners(s.locks, users) ==> Balances(s, users, now) == Sum(s.locks, VeAt(now)))
  {
    var s := Reached(start, run);
    BalancesAreShares(s, users, now);
    SharesWithin(s.locks, users, now);
    BiasCovers(s, EndOf(start, run), TakesIn(run), now);
  }
}
