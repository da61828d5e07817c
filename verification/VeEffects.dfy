/**
 What each call to the voting-escrow contract demands and does, in terms of the lock that it is about:
 when it is refused and why, what becomes of that lock and of the books, and that nothing else changes.
 */
module VeEffects {
  import opened Text
  import opened SlopeSchedule
  import opened VeLocks
  import opened VeModel
  import opened VeTheorems
  import opened VeRuns
  import opened VeCheckpoints

  const DAY: nat := 86_400
  const CLAIM: nat := 1_000_000_000_000_000_000

  /** The lock of a token, or zeros where there is none. */
  function Token(s: Ve, id: nat): Lock {
    if id < |s.locks| then s.locks[id] else Lock(0, 0, 0, 0, false, false)
  }

  function TokensOf(locks: seq<Lock>, user: Address): set<nat> {
    set id: nat | id < |locks| && locks[id].owner == user
  }

  /** More than 250 scheduled times have passed: one checkpoint does not catch up. */
  predicate IsBehind(s: Ve, now: nat) { DueCount(s.schedule, now) > 250 }

  /** A slope that a lock adds, rounded up, or that is taken away for it, rounded down. */
  predicate IsUp(slope: nat, amount: nat) {
    amount * CLAIM <= slope * (365 * DAY) < amount * CLAIM + 365 * DAY
  }

  predicate IsDown(slope: nat, amount: nat) {
    slope * (365 * DAY) <= amount * CLAIM < (slope + 1) * (365 * DAY)
  }

  lemma Roundings(amount: nat)
    ensures IsUp(SlopeAdd(amount), amount) && IsDown(SlopeRemove(amount), amount)
  {
    SlopeBounds(amount);
    assert amount * SLOPE_SCALE == SlopeRemove(amount) * MAX_LOCK_DURATION + amount * SLOPE_SCALE % MAX_LOCK_DURATION;
  }

  /** By how much slope, bias and the slope scheduled at each time change. */
  datatype Books = Books(slope: int, bias: int, at: nat -> int)

  function NoBooks(): Books { Books(0, 0, _ => 0) }

  /** The changed books fit the contract's words. */
  ghost predicate Fits(c: Ve, d: Books) {
    && c.slope + d.slope < 0x1_0000000000000000_0000000000000000_0000000000000000_0000000000000000
    && c.bias + d.bias < 0x1_0000000000000000_0000000000000000_0000000000000000_0000000000000000
    && forall e: nat ::
         SlopeAt(c.schedule, e) + d.at(e) < 0x1_0000000000000000_0000000000000000_0000000000000000_0000000000000000
  }

  /** The books have changed by just this. */
  ghost predicate HasSums(r: Ve, c: Ve, d: Books) {
    && r.slope == c.slope + d.slope && r.bias == c.bias + d.bias
    && forall e: nat :: SlopeAt(r.schedule, e) == SlopeAt(c.schedule, e) + d.at(e)
  }

  /**
   A call from `c` on is refused for the reason given. If none is, it is done exactly if the books that it
   makes fit the words; and then it leaves these locks, this much principal, and these books.
   */
  ghost predicate Ends(o: Outcome, c: Ve, refusal: Option<Error>, locks: seq<Lock>, total: int, d: Books) {
    match refusal
    case Some(e) => o == Reverted(e)
    case None =>
      match o
      case Reverted(e) => e == Overflow && !Fits(c, d)
      case Done(r) =>
        && Fits(c, d) && HasSums(r, c, d)
        && r.locks == locks && r.totalLocked == total && r.lastTs == c.lastTs
  }

  /** Whatever a sound state has come from, its books fit. */
  lemma SoundFits(r: Ve, now: nat, dust: nat, c: Ve)
    requires Sound(r, now, dust)
    ensures forall d: Books :: HasSums(r, c, d) ==> Fits(c, d)
  {
    hide IsSchedule, IsAfter, Covers, Area, WfLocks, IsWithin, CeilDiv;
    forall e: nat ensures SlopeAt(r.schedule, e) <= MAX_UINT {
      SlopeAtMost(r.schedule, e);
    }
  }

  // ---------------------------------------------------------------------------
  // What bookings come to
  // ---------------------------------------------------------------------------

  /** A booking on its way from `c`, with its changes of slope, bias and schedule so far. */
  ghost predicate IsBooked(b: Booking, c: Ve, d: Books) {
    && b.Booked? && IsSchedule(b.ve.schedule) && b.ve == c.(schedule := b.ve.schedule)
    && b.slope == d.slope && b.bias == d.bias
    && forall e: nat :: SlopeAt(b.ve.schedule, e) == SlopeAt(c.schedule, e) + d.at(e)
  }

  function Plus(d: Books, slope: int, bias: int, when: nat): Books {
    Books(d.slope + slope, d.bias + bias, (e: nat) => d.at(e) + if e == when then slope else 0)
  }

  /** The books with a contribution put in, at a slope for the time that is left. */
  function Gave(d: Books, autoMax: bool, amount: nat, slope: int, time: nat, end: nat): Books {
    if autoMax then Plus(d, 0, amount * CLAIM, 0) else Plus(d, slope, slope * time, end)
  }

  /** The books with a contribution taken out, at a slope for the time that is left. */
  function Removed(d: Books, autoMax: bool, amount: nat, slope: nat, time: nat, end: nat): Books {
    if autoMax then Plus(d, 0, -(amount * CLAIM as int), 0)
    else Plus(d, -(slope as int), -(slope * time as int), end)
  }

  lemma ChangeExactly(s: Ve, when: nat, slope: int)
    requires IsSchedule(s.schedule)
    ensures match ChangeDelta(s, when, slope)
      case Reverted(e) =>
        e == InvariantViolation || (e == Overflow && slope > 0 && SlopeAt(s.schedule, when) + slope > MAX_UINT)
      case Done(r) =>
        && IsSchedule(r.schedule) && r == s.(schedule := r.schedule)
        && forall e: nat :: SlopeAt(r.schedule, e) == SlopeAt(s.schedule, e) + if e == when then slope else 0
  {
    hide SlopeAt, IsSchedule, Adjust;
    if ChangeDelta(s, when, slope).Done? && slope != 0 {
      AdjustIsSchedule(s.schedule, when, slope);
      forall e: nat ensures SlopeAt(Adjust(s.schedule, when, slope), e)
        == SlopeAt(s.schedule, e) + if e == when then slope else 0
      {
        AdjustAt(s.schedule, when, slope, e);
      }
    }
  }

  lemma BookedChange(b: Booking, c: Ve, d: Books, when: nat, slope: int, bias: int)
    requires IsBooked(b, c, d)
    ensures match Reschedule(AddBias(b, bias), when, slope)
      case Failed(e) => e == InvariantViolation
        || (e == Overflow && slope > 0 && SlopeAt(c.schedule, when) + d.at(when) + slope > MAX_UINT)
      case Booked(_, _, _) => IsBooked(Reschedule(AddBias(b, bias), when, slope), c, Plus(d, slope, bias, when))
  {
    hide SlopeAt, IsSchedule, Adjust, ChangeDelta;
    ChangeExactly(b.ve, when, slope);
  }

  lemma BookedBias(b: Booking, c: Ve, d: Books, bias: int)
    requires IsBooked(b, c, d)
    ensures IsBooked(AddBias(b, bias), c, Plus(d, 0, bias, 0))
  {
  }

  lemma DeltaExactly(s: Ve, slope: int, bias: int)
    ensures match GlobalDelta(s, slope, bias)
      case Reverted(e) => e == InvariantViolation || (e == Overflow
        && ((slope > 0 && s.slope + slope > MAX_UINT) || (bias > 0 && s.bias + bias > MAX_UINT)))
      case Done(r) =>
        && r == s.(slope := r.slope, bias := r.bias, cached := r.cached)
        && r.slope == s.slope + slope && r.bias == s.bias + bias
  {
  }

  lemma GiveExactly(b: Booking, c: Ve, d: Books, amount: nat, end: nat, autoMax: bool)
    requires IsBooked(b, c, d)
    ensures var slope := SlopeAdd(amount);
      var d' := Gave(d, autoMax, amount, slope, Remaining(end, c.lastTs), end);
      match Give(b, amount, end, autoMax)
      case Failed(e) =>
        e == InvariantViolation || (e == Overflow && !Fits(c, d'))
      case Booked(_, _, _) => IsBooked(Give(b, amount, end, autoMax), c, d')
  {
    hide SlopeAdd, Remaining, SlopeAt, IsSchedule, ChangeDelta, IsBooked;
    if autoMax {
      BookedBias(b, c, d, amount * CLAIM);
    } else {
      var slope := SlopeAdd(amount);
      BookedState(b, c, d);
      BookedChange(b, c, d, end, slope, slope * Remaining(end, c.lastTs));
    }
  }

  lemma BookedState(b: Booking, c: Ve, d: Books)
    requires IsBooked(b, c, d)
    ensures b.Booked? && b.ve.lastTs == c.lastTs && IsOpen(b)
  {
  }

  lemma TakeExactly(b: Booking, c: Ve, d: Books, l: Lock)
    requires IsBooked(b, c, d)
    ensures var slope := SlopeRemove(l.amount);
      var d' := Removed(d, l.autoMax, l.amount, slope, Remaining(l.end, c.lastTs), l.end);
      match Take(b, l)
      case Failed(e) => e == InvariantViolation
      case Booked(_, _, _) => IsBooked(Take(b, l), c, d')
  {
    hide SlopeRemove, Remaining, SlopeAt, IsSchedule, ChangeDelta, IsBooked;
    if l.autoMax {
      BookedBias(b, c, d, -(l.amount * CLAIM as int));
    } else {
      var slope := SlopeRemove(l.amount);
      BookedState(b, c, d);
      BookedChange(b, c, d, l.end, -(slope as int), -(slope * Remaining(l.end, c.lastTs) as int));
    }
  }

  /** What is settled differs from `c` in just the books. */
  ghost predicate HasBooks(r: Ve, c: Ve, d: Books) {
    r.locks == c.locks && r.totalLocked == c.totalLocked && r.lastTs == c.lastTs && HasSums(r, c, d)
  }

  lemma SettleExactly(b: Booking, c: Ve, d: Books)
    requires IsBooked(b, c, d)
    ensures match Settle(b)
      case Reverted(e) =>
        e == InvariantViolation || (e == Overflow && !Fits(c, d) && (d.slope > 0 || d.bias > 0))
      case Done(r) => HasBooks(r, c, d)
  {
    hide SlopeAt, IsSchedule, GlobalDelta;
    DeltaExactly(b.ve, b.slope, b.bias);
  }

  lemma NothingBooked(c: Ve)
    requires IsSchedule(c.schedule)
    ensures IsBooked(Booked(c, 0, 0), c, NoBooks())
  {
  }

  lemma {:induction false} SlopeAtMost(p: Schedule, e: nat)
    ensures SlopeAt(p, e) <= SlopeSum(p)
    decreases |p|
  {
    if p != [] {
      SlopeAtMost(p[1..], e);
    }
  }

  // ---------------------------------------------------------------------------
  // Behind a checkpoint
  // ---------------------------------------------------------------------------

  /** What a checkpoint alone leaves: the state that an operation works on. */
  ghost function Touched(s: Ve, now: nat, dust: nat): Ve
    requires Sound(s, now, dust)
  {
    SoundIsAged(s, now, dust);
    Checkpoint(s, now)
  }

  lemma SoundIsAged(s: Ve, now: nat, dust: nat)
    requires Sound(s, now, dust)
    ensures IsAged(s, now)
  {
  }

  lemma TouchIs(s: Ve, now: nat, dust: nat)
    requires Sound(s, now, dust)
    ensures IsAged(s, now) && Execute(s, now, Touch) == Done(Touched(s, now, dust))
  {
    hide Checkpoint, CreateLock, AddToLock, ExtendLock, SetAutoMax, MergeLocks, Unlock, BurnAndWithdraw, SetListed,
      TransferLock, Sound;
    SoundIsAged(s, now, dust);
  }

  lemma TouchedKeeps(s: Ve, now: nat, dust: nat)
    requires Sound(s, now, dust)
    ensures var c := Touched(s, now, dust);
      && IsAged(s, now) && c == Checkpoint(s, now) && Sound(c, now, dust) && Execute(s, now, Touch) == Done(c)
      && c.locks == s.locks && c.totalLocked == s.totalLocked && IsSchedule(c.schedule)
      && (c.lastTs == now <==> !IsBehind(s, now))
      && forall e: nat :: SlopeAt(c.schedule, e) <= c.slope
  {
    hide Checkpoint, DueCount, SlopeAt, SlopeSum, Area, IsCaughtUp, CeilDiv, Execute;
    TouchIs(s, now, dust);
    CheckpointSound(s, now, now, dust);
    CheckpointCatchesUp(s, now, dust, now);
    CheckpointDrops(s, now, dust, now);
    var c := Checkpoint(s, now);
    forall e: nat ensures SlopeAt(c.schedule, e) <= c.slope {
      SlopeAtMost(c.schedule, e);
    }
  }

  /** The two roundings have no choice. */
  lemma UpIs(slope: nat, amount: nat)
    requires IsUp(slope, amount)
    ensures slope == SlopeAdd(amount)
  {
    Roundings(amount);
  }

  lemma DownIs(slope: nat, amount: nat)
    requires IsDown(slope, amount)
    ensures slope == SlopeRemove(amount)
  {
    Roundings(amount);
  }

  // ---------------------------------------------------------------------------
  // Opening and raising locks
  // ---------------------------------------------------------------------------

  lemma {:induction false} OwnedCount(locks: seq<Lock>, user: Address)
    ensures Sum(locks, Owned(user)) == |TokensOf(locks, user)|
    decreases |locks|
  {
    if locks == [] {
      assert TokensOf(locks, user) == {};
    } else {
      var n := |locks| - 1;
      var last := locks[n];
      assert locks == locks[..n] + [last];
      SumAppend(locks[..n], Owned(user), last);
      OwnedCount(locks[..n], user);
      assert TokensOf(locks, user) == TokensOf(locks[..n], user) + if last.owner == user then {n} else {};
    }
  }

  /**
   A new lock runs from now for the time asked for: between one week and one year, and the whole year if
   it is perpetual. It holds at least a thousand CLAIM, and nobody has more than 32.
   */
  lemma CreateExactly(s: Ve, now: nat, dust: nat, user: Address, amount: nat, duration: nat, autoMax: bool, slope: nat)
    requires Sound(s, now, dust) && IsUp(slope, amount)
    ensures IsAged(s, now)
    ensures var c := Touched(s, now, dust);
      var refusal :=
        if user == NOBODY then Some(ZeroAddress)
        else if amount == 0 then Some(AmountZero)
        else if amount < 1000 * CLAIM then Some(MinLockAmountNotMet)
        else if duration < 7 * DAY || duration > 365 * DAY then Some(InvalidDuration)
        else if autoMax && duration < 365 * DAY then Some(InvalidDuration)
        else if |TokensOf(s.locks, user)| >= 32 then Some(TooManyVeNFTs)
        else if IsBehind(s, now) then Some(CheckpointStale)
        else None;
      Ends(Execute(s, now, Create(user, amount, duration, autoMax)), c, refusal,
        s.locks + [Lock(user, amount, now, now + duration, autoMax, false)], s.totalLocked + amount,
        Gave(NoBooks(), autoMax, amount, slope, duration, now + duration))
  {
    hide Sound, Checkpoint, IsBehind, SlopeAdd, IsUp, IsAged, Sum, Give, Settle, IsBooked, SlopeAt;
    TouchedKeeps(s, now, dust);
    OwnedCount(s.locks, user);
    CreateSound(s, now, dust, user, amount, duration, autoMax);
    var o := Execute(s, now, Create(user, amount, duration, autoMax));
    if o.Done? {
      SoundFits(o.ve, now, dust, Touched(s, now, dust));
    }
    UpIs(slope, amount);
    if CreateRefused(s.locks, user, amount, duration, autoMax).None? && !IsBehind(s, now) {
      var c := Touched(s, now, dust);
        NothingBooked(c);
      var b := Booked(c, 0, 0);
      GiveExactly(b, c, NoBooks(), amount, now + duration, autoMax);
      var g := Give(b, amount, now + duration, autoMax);
      if g.Booked? {
        SettleExactly(g, c, Gave(NoBooks(), autoMax, amount, slope, duration, now + duration));
      } else {
        FailedSettles(g.error);
      }
    }
  }

  /** The locks with one of them replaced. */
  function With(s: Ve, id: nat, l: Lock): seq<Lock> { if id < |s.locks| then s.locks[id := l] else s.locks }

  lemma TopUpExactly(c: Ve, l: Lock, amount: nat)
    requires IsSchedule(c.schedule)
    ensures var slope: int := SlopeAdd(l.amount + amount) - SlopeAdd(l.amount);
      var d := Gave(NoBooks(), l.autoMax, amount, slope, Remaining(l.end, c.lastTs), l.end);
      match TopUp(Booked(c, 0, 0), l, amount)
      case Failed(e) => e == InvariantViolation || (e == Overflow && !Fits(c, d))
      case Booked(_, _, _) => IsBooked(TopUp(Booked(c, 0, 0), l, amount), c, d)
  {
    hide SlopeAdd, Remaining, SlopeAt, IsSchedule, ChangeDelta, IsBooked;
    var b := Booked(c, 0, 0);
    NothingBooked(c);
    if l.autoMax {
      BookedBias(b, c, NoBooks(), amount * CLAIM);
    } else {
      var slope: int := SlopeAdd(l.amount + amount) - SlopeAdd(l.amount);
      BookedChange(b, c, NoBooks(), l.end, slope, slope * Remaining(l.end, c.lastTs));
    }
  }

  /**
   At least one CLAIM is added, by the owner, to a lock that has neither expired nor is listed. The lock
   starts anew; a perpetual one runs for a year from now, any other one ends when it did.
   */
  lemma AddToExactly(
      s: Ve, now: nat, dust: nat, user: Address, id: nat, amount: nat, before: nat, after: nat)
    requires Sound(s, now, dust) && IsUp(before, Token(s, id).amount) && IsUp(after, Token(s, id).amount + amount)
    ensures IsAged(s, now)
    ensures var c, l := Touched(s, now, dust), Token(s, id);
      var refusal :=
        if user == NOBODY then Some(ZeroAddress)
        else if amount == 0 then Some(AmountZero)
        else if amount < CLAIM then Some(MinLockAmountNotMet)
        else if l.owner != user then Some(NotAuthorized)
        else if l.listed then Some(LockListedOrFrozen)
        else if !l.autoMax && l.end <= now then Some(LockExpired)
        else if IsBehind(s, now) then Some(CheckpointStale)
        else None;
      Ends(Execute(s, now, AddTo(user, id, amount)), c, refusal,
        With(s, id, Lock(user, l.amount + amount, now, if l.autoMax then now + 365 * DAY else l.end, l.autoMax, false)),
        s.totalLocked + amount,
        Gave(NoBooks(), l.autoMax, amount, after - before, if l.end > now then l.end - now else 0, l.end))
  {
    hide Sound, Checkpoint, IsBehind, SlopeAdd, IsUp, IsAged, TopUp, Settle, IsBooked, SlopeAt;
    TouchedKeeps(s, now, dust);
    AddToSound(s, now, dust, user, id, amount);
    var o := Execute(s, now, AddTo(user, id, amount));
    if o.Done? {
      SoundFits(o.ve, now, dust, Touched(s, now, dust));
    }
    if AddToRefused(s.locks, now, user, id, amount).None? && !IsBehind(s, now) {
      var c, l := Touched(s, now, dust), Token(s, id);
      LiveToken(s, now, dust, id);
      UpIs(before, l.amount);
      UpIs(after, l.amount + amount);
      TopUpExactly(c, l, amount);
      var g := TopUp(Booked(c, 0, 0), l, amount);
      if g.Booked? {
        SettleExactly(g, c, Gave(NoBooks(), l.autoMax, amount, after - before, Remaining(l.end, now), l.end));
      } else {
        FailedSettles(g.error);
      }
    }
  }

  lemma LiveToken(s: Ve, now: nat, dust: nat, id: nat)
    requires Sound(s, now, dust)
    ensures Token(s, id) == LockOf(s.locks, id) && Token(s, 0) == DEAD
    ensures Token(s, id).owner != NOBODY ==> 0 < id < |s.locks| && IsLive(s.locks[id], now)
    ensures Token(s, id).owner == NOBODY ==> Token(s, id) == DEAD
  {
  }

  // ---------------------------------------------------------------------------
  // Changing ends
  // ---------------------------------------------------------------------------

  /** The books for a slope that goes on until a later time. */
  function Moved(slope: nat, from: nat, to: nat): Books {
    Plus(Plus(NoBooks(), -(slope as int), 0, from), slope, slope * (to - from), to)
  }

  lemma MoveExactly(c: Ve, now: nat, id: nat, newEnd: nat)
    requires IsSchedule(c.schedule) && c.lastTs == now && id < |c.locks| && now < c.locks[id].end < newEnd
    ensures var l := c.locks[id];
      var slope := SlopeAdd(l.amount);
      match MoveEnd(c, now, id, newEnd)
      case Reverted(e) => e == InvariantViolation || (e == Overflow && !Fits(c, Moved(slope, l.end, newEnd)))
      case Done(r) =>
        && r.locks == c.locks[id := l.(end := newEnd, start := now)]
        && HasBooks(r.(locks := c.locks), c, Moved(slope, l.end, newEnd))
  {
    hide SlopeAdd, SlopeAt, Adjust, IsSchedule, CeilDiv, ChangeDelta, GlobalDelta;
    var l := c.locks[id];
    var slope := SlopeAdd(l.amount);
    var bias: int := slope * (newEnd - l.end);
    assert Remaining(newEnd, now) - Remaining(l.end, now) == newEnd - l.end;
    DeltaExactly(c, 0, bias);
    var o := GlobalDelta(c, 0, bias);
    if o.Done? {
      ChangeExactly(o.ve, l.end, -(slope as int));
      var o' := AndChange(o, l.end, -(slope as int));
      if o'.Done? {
        ChangeExactly(o'.ve, newEnd, slope);
      }
    }
  }

  /**
   The owner gives a lock a later end, at most a year from now. A perpetual one is only refreshed, whatever
   end is asked for, and even behind a backlog.
   */
  lemma ExtendExactly(s: Ve, now: nat, dust: nat, user: Address, id: nat, newEnd: nat, slope: nat)
    requires Sound(s, now, dust) && IsUp(slope, Token(s, id).amount)
    ensures IsAged(s, now)
    ensures var c, l := Touched(s, now, dust), Token(s, id);
      var refusal :=
        if user == NOBODY then Some(ZeroAddress)
        else if l.owner != user then Some(NotAuthorized)
        else if l.listed then Some(LockListedOrFrozen)
        else if l.autoMax then None
        else if l.end <= now then Some(LockExpired)
        else if newEnd <= l.end || newEnd > now + 365 * DAY then Some(InvalidDuration)
        else if IsBehind(s, now) then Some(CheckpointStale)
        else None;
      Ends(Execute(s, now, Extend(user, id, newEnd)), c, refusal,
        With(s, id, l.(start := now, end := if l.autoMax then now + 365 * DAY else newEnd)), s.totalLocked,
        if l.autoMax || newEnd <= l.end then NoBooks() else Moved(slope, l.end, newEnd))
  {
    hide Sound, Checkpoint, IsBehind, SlopeAdd, IsUp, IsAged, MoveEnd, SlopeAt, IsSchedule;
    TouchedKeeps(s, now, dust);
    ExtendSound(s, now, dust, user, id, newEnd);
    var o := Execute(s, now, Extend(user, id, newEnd));
    if o.Done? {
      SoundFits(o.ve, now, dust, Touched(s, now, dust));
    }
    var c, l := Touched(s, now, dust), Token(s, id);
    LiveToken(s, now, dust, id);
    if ExtendRefused(s.locks, now, user, id, newEnd).None? && !l.autoMax && !IsBehind(s, now) {
      UpIs(slope, l.amount);
        MoveExactly(c, now, id, newEnd);
    }
  }

  /** The last contribution is put in, and all is settled: only for want of room is it refused. */
  lemma GiveSettled(b: Booking, c: Ve, d: Books, amount: nat, end: nat, autoMax: bool, up: nat, time: nat)
    requires IsBooked(b, c, d) && IsUp(up, amount) && time == Remaining(end, c.lastTs)
    ensures var d' := Gave(d, autoMax, amount, up, time, end);
      match Settle(Give(b, amount, end, autoMax))
      case Reverted(e) => e == InvariantViolation || (e == Overflow && !Fits(c, d'))
      case Done(r) => HasBooks(r, c, d')
  {
    hide SlopeAdd, IsUp, Give, Settle, IsBooked, SlopeAt, Remaining;
    UpIs(up, amount);
    BookedState(b, c, d);
    GiveExactly(b, c, d, amount, end, autoMax);
    var g := Give(b, amount, end, autoMax);
    if g.Failed? {
      FailedSettles(g.error);
    } else {
      SettleExactly(g, c, Gave(d, autoMax, amount, up, time, end));
    }
  }

  /**
   The owner makes a lock perpetual or no longer so, or refreshes a perpetual one: it then runs for a
   year from now. To switch off what is off does nothing at all.
   */
  lemma AutoExactly(s: Ve, now: nat, dust: nat, user: Address, id: nat, enabled: bool, down: nat, up: nat)
    requires Sound(s, now, dust) && IsDown(down, Token(s, id).amount) && IsUp(up, Token(s, id).amount)
    ensures IsAged(s, now)
    ensures var l := Token(s, id);
      var idle := !l.autoMax && !enabled;
      var c := if idle then s else Touched(s, now, dust);
      var refusal :=
        if l.owner != user then Some(NotAuthorized)
        else if l.listed then Some(LockListedOrFrozen)
        else if !l.autoMax && l.end <= now then Some(LockExpired)
        else if !idle && IsBehind(s, now) then Some(CheckpointStale)
        else None;
      var time := if l.end > now then l.end - now else 0;
      Ends(Execute(s, now, Auto(user, id, enabled)), c, refusal,
        if idle then s.locks else With(s, id, l.(autoMax := enabled, start := now, end := now + 365 * DAY)),
        s.totalLocked,
        if l.autoMax == enabled then NoBooks()
        else Gave(Removed(NoBooks(), l.autoMax, l.amount, down, time, l.end),
                  enabled, l.amount, up, 365 * DAY, now + 365 * DAY))
  {
    hide Sound, Checkpoint, IsBehind, SlopeAdd, SlopeRemove, IsUp, IsDown, IsAged, Take, Give, Settle, IsBooked,
      SlopeAt, IsSchedule;
    TouchedKeeps(s, now, dust);
    AutoSound(s, now, dust, user, id, enabled);
    var o := Execute(s, now, Auto(user, id, enabled));
    if o.Done? {
      SoundFits(o.ve, now, dust + 1, if !Token(s, id).autoMax && !enabled then s else Touched(s, now, dust));
    }
    var c, l := Touched(s, now, dust), Token(s, id);
    LiveToken(s, now, dust, id);
    if AutoRefused(s.locks, now, user, id).None? && l.autoMax != enabled && !IsBehind(s, now) {
      FlipExactly(c, l, now, enabled, down, up);
    }
  }

  lemma FlipExactly(c: Ve, l: Lock, now: nat, enabled: bool, down: nat, up: nat)
    requires IsSchedule(c.schedule) && c.lastTs == now && IsDown(down, l.amount) && IsUp(up, l.amount)
    ensures var time := if l.end > now then l.end - now else 0;
      var d := Gave(Removed(NoBooks(), l.autoMax, l.amount, down, time, l.end),
                    enabled, l.amount, up, 365 * DAY, now + 365 * DAY);
      match Settle(Give(Take(Booked(c, 0, 0), l), l.amount, now + MAX_LOCK_DURATION, enabled))
      case Reverted(e) => e == InvariantViolation || (e == Overflow && !Fits(c, d))
      case Done(r) => HasBooks(r, c, d)
  {
    hide SlopeRemove, IsUp, IsDown, Take, Give, Settle, IsBooked, SlopeAt, IsSchedule, Fits, Removed, Gave,
      HasBooks;
    DownIs(down, l.amount);
    NothingBooked(c);
    var b := Booked(c, 0, 0);
    TakenOff(b, c, NoBooks(), l, down);
    var t := Take(b, l);
    if t.Failed? {
      FailedGives(t.error, l.amount, now + MAX_LOCK_DURATION, enabled);
    } else {
      var d := Removed(NoBooks(), l.autoMax, l.amount, down, Remaining(l.end, now), l.end);
      GiveSettled(t, c, d, l.amount, now + MAX_LOCK_DURATION, enabled, up, 365 * DAY);
    }
  }

  /** A contribution is taken out, with its slope rounded down. */
  lemma TakenOff(b: Booking, c: Ve, d: Books, l: Lock, down: nat)
    requires IsBooked(b, c, d) && down == SlopeRemove(l.amount)
    ensures match Take(b, l)
      case Failed(e) => e == InvariantViolation
      case Booked(_, _, _) =>
        IsBooked(Take(b, l), c, Removed(d, l.autoMax, l.amount, down, Remaining(l.end, c.lastTs), l.end))
  {
    hide SlopeRemove, Take, IsBooked, Remaining;
    TakeExactly(b, c, d, l);
  }

  lemma FailedGives(e: Error, amount: nat, end: nat, autoMax: bool)
    ensures Settle(Give(Failed(e), amount, end, autoMax)) == Reverted(e)
  {
  }

  // ---------------------------------------------------------------------------
  // Merging and paying out
  // ---------------------------------------------------------------------------

  /** The source's principal goes to the target, which ends when the later of the two does. */
  function Joined(a: Lock, b: Lock, now: nat): Lock {
    var auto := a.autoMax || b.autoMax;
    var later := if a.end > b.end then a.end else b.end;
    Lock(b.owner, a.amount + b.amount, now, if auto then now + 365 * DAY else later, auto, false)
  }

  /**
   The owner of two locks that have neither expired nor are listed merges one into the other: the source
   is gone, and its principal in the target.
   */
  lemma MergeExactly(
      s: Ve, now: nat, dust: nat, user: Address, source: nat, target: nat, downA: nat, downB: nat, up: nat)
    requires Sound(s, now, dust)
    requires IsDown(downA, Token(s, source).amount) && IsDown(downB, Token(s, target).amount)
    requires IsUp(up, Token(s, source).amount + Token(s, target).amount)
    ensures IsAged(s, now)
    ensures var c, a, b := Touched(s, now, dust), Token(s, source), Token(s, target);
      var m := Joined(a, b, now);
      var refusal :=
        if source == target || a.owner != user || b.owner != user then Some(NotAuthorized)
        else if a.listed then Some(LockListedOrFrozen)
        else if !a.autoMax && a.end <= now then Some(LockExpired)
        else if b.listed then Some(LockListedOrFrozen)
        else if !b.autoMax && b.end <= now then Some(LockExpired)
        else if IsBehind(s, now) then Some(CheckpointStale)
        else None;
      Ends(Execute(s, now, Merge(user, source, target)), c, refusal,
        if source < |s.locks| && target < |s.locks| then s.locks[source := DEAD][target := m] else s.locks,
        s.totalLocked,
        Gave(
          Removed(
            Removed(NoBooks(), a.autoMax, a.amount, downA, if a.end > now then a.end - now else 0, a.end),
            b.autoMax, b.amount, downB, if b.end > now then b.end - now else 0, b.end),
          m.autoMax, m.amount, up, if m.end > now then m.end - now else 0, m.end))
  {
    hide Sound, Checkpoint, IsBehind, SlopeAdd, SlopeRemove, IsUp, IsDown, IsAged, Take, Give, Settle, IsBooked,
      SlopeAt, IsSchedule, Removed, Gave, Fits;
    TouchedKeeps(s, now, dust);
    MergeSound(s, now, dust, user, source, target);
    var o := Execute(s, now, Merge(user, source, target));
    if o.Done? {
      SoundFits(o.ve, now, dust + 2, Touched(s, now, dust));
    }
    var c, a, b := Touched(s, now, dust), Token(s, source), Token(s, target);
    LiveToken(s, now, dust, source);
    LiveToken(s, now, dust, target);
    if MergeRefused(s.locks, now, user, source, target).None? && !IsBehind(s, now) {
      JoinExactly(c, a, b, now, downA, downB, up);
      assert Merged(a, b, now) == Joined(a, b, now);
    }
  }

  lemma JoinExactly(c: Ve, a: Lock, b: Lock, now: nat, downA: nat, downB: nat, up: nat)
    requires IsSchedule(c.schedule) && c.lastTs == now
    requires IsDown(downA, a.amount) && IsDown(downB, b.amount) && IsUp(up, a.amount + b.amount)
    ensures var m := Joined(a, b, now);
      var d := Gave(
          Removed(
            Removed(NoBooks(), a.autoMax, a.amount, downA, if a.end > now then a.end - now else 0, a.end),
            b.autoMax, b.amount, downB, if b.end > now then b.end - now else 0, b.end),
          m.autoMax, m.amount, up, if m.end > now then m.end - now else 0, m.end);
      match Settle(Give(Take(Take(Booked(c, 0, 0), a), b), m.amount, m.end, m.autoMax))
      case Reverted(e) => e == InvariantViolation || (e == Overflow && !Fits(c, d))
      case Done(r) => HasBooks(r, c, d)
  {
    hide SlopeRemove, IsUp, IsDown, Take, Give, Settle, IsBooked, SlopeAt, IsSchedule, Fits, Removed, Gave,
      HasBooks;
    var m := Joined(a, b, now);
    DownIs(downA, a.amount);
    DownIs(downB, b.amount);
    NothingBooked(c);
    TakenOff(Booked(c, 0, 0), c, NoBooks(), a, downA);
    var t := Take(Booked(c, 0, 0), a);
    if t.Failed? {
      FailedTakes(t.error, b, m.amount, m.end, m.autoMax);
    } else {
      var d := Removed(NoBooks(), a.autoMax, a.amount, downA, Remaining(a.end, now), a.end);
      TakenOff(t, c, d, b, downB);
      var t' := Take(t, b);
      if t'.Failed? {
        FailedGives(t'.error, m.amount, m.end, m.autoMax);
      } else {
        var d' := Removed(d, b.autoMax, b.amount, downB, Remaining(b.end, now), b.end);
        GiveSettled(t', c, d', m.amount, m.end, m.autoMax, up, Remaining(m.end, now));
      }
    }
  }

  lemma FailedTakes(e: Error, l: Lock, amount: nat, end: nat, autoMax: bool)
    ensures Settle(Give(Take(Failed(e), l), amount, end, autoMax)) == Reverted(e)
  {
  }

  /**
   Only its owner withdraws a lock, and not before its end; a listed or a perpetual one nobody does. Its
   principal leaves the total, and only a contribution that a backlog still counts leaves the books.
   */
  lemma WithdrawExactly(s: Ve, now: nat, dust: nat, user: Address, id: nat, down: nat)
    requires Sound(s, now, dust) && IsDown(down, Token(s, id).amount)
    ensures IsAged(s, now)
    ensures var c, l := Touched(s, now, dust), Token(s, id);
      var refusal :=
        if user == NOBODY then Some(ZeroAddress)
        else if l.owner != user then Some(NotAuthorized)
        else if l.listed then Some(LockListedOrFrozen)
        else if l.autoMax || now < l.end then Some(InvalidDuration)
        else None;
      Ends(Execute(s, now, Withdraw(user, id)), c, refusal,
        With(s, id, DEAD), s.totalLocked - l.amount,
        if l.end <= c.lastTs then NoBooks()
        else Removed(NoBooks(), false, l.amount, down, l.end - c.lastTs, l.end))
  {
    hide Sound, Checkpoint, IsBehind, SlopeRemove, IsDown, IsAged, Expired, SlopeAt, IsSchedule, Fits;
    TouchedKeeps(s, now, dust);
    UnlockSound(s, now, dust, user, id);
    var o := Execute(s, now, Withdraw(user, id));
    if o.Done? {
      SoundFits(o.ve, now, dust + 1, Touched(s, now, dust));
    }
    var c, l := Touched(s, now, dust), Token(s, id);
    LiveToken(s, now, dust, id);
    DownIs(down, l.amount);
    if UnlockRefused(s.locks, now, user, id).None? {
      ExpiredExactly(c, l, down);
      PrincipalCounted(s, now, dust, id);
    }
  }

  lemma PrincipalCounted(s: Ve, now: nat, dust: nat, id: nat)
    requires Sound(s, now, dust) && id < |s.locks|
    ensures s.locks[id].amount <= s.totalLocked
  {
    SumUpdate(s.locks, Principal, id, DEAD);
  }

  lemma ExpiredExactly(c: Ve, l: Lock, down: nat)
    requires IsSchedule(c.schedule) && down == SlopeRemove(l.amount)
    ensures match Expired(c, l)
      case Reverted(e) => e == InvariantViolation
      case Done(r) => HasBooks(r, c,
        if l.end <= c.lastTs then NoBooks()
        else Removed(NoBooks(), false, l.amount, down, l.end - c.lastTs, l.end))
  {
    hide SlopeRemove, SlopeAt, IsSchedule, ChangeDelta, Adjust;
    if l.end > c.lastTs {
      var slope, bias := -(down as int), -(down * (l.end - c.lastTs) as int);
      NegativeZero(down, l.end - c.lastTs);
      DeltaExactly(c, slope, bias);
      var o := GlobalDelta(c, slope, bias);
      if o.Done? {
        ChangeExactly(o.ve, l.end, slope);
      }
    }
  }

  /** The custodian burns any lock of its own that is not listed, before its end or after it. */
  lemma BurnExactly(s: Ve, now: nat, dust: nat, custodian: Address, id: nat, recipient: Address, down: nat)
    requires Sound(s, now, dust) && IsDown(down, Token(s, id).amount)
    ensures IsAged(s, now)
    ensures var c, l := Touched(s, now, dust), Token(s, id);
      var refusal :=
        if recipient == NOBODY then Some(ZeroAddress)
        else if l.owner != custodian then Some(NotAuthorized)
        else if l.listed then Some(LockListedOrFrozen)
        else if l.amount == 0 then Some(InvalidToken)
        else None;
      Ends(Execute(s, now, Burn(custodian, id, recipient)), c, refusal,
        With(s, id, DEAD), s.totalLocked - l.amount,
        if !l.autoMax && l.end <= c.lastTs then NoBooks()
        else Removed(NoBooks(), l.autoMax, l.amount, down, if l.autoMax then 0 else l.end - c.lastTs, l.end))
  {
    hide Sound, Checkpoint, IsBehind, SlopeRemove, IsDown, IsAged, Withdrawn, SlopeAt, IsSchedule, Fits;
    TouchedKeeps(s, now, dust);
    BurnSound(s, now, dust, custodian, id, recipient);
    var o := Execute(s, now, Burn(custodian, id, recipient));
    if o.Done? {
      SoundFits(o.ve, now, dust + 1, Touched(s, now, dust));
    }
    var c, l := Touched(s, now, dust), Token(s, id);
    LiveToken(s, now, dust, id);
    DownIs(down, l.amount);
    if BurnRefused(s.locks, custodian, id, recipient).None? {
      WithdrawnExactly(c, l, down);
      PrincipalCounted(s, now, dust, id);
    }
  }

  lemma WithdrawnExactly(c: Ve, l: Lock, down: nat)
    requires IsSchedule(c.schedule) && down == SlopeRemove(l.amount)
    ensures match Withdrawn(c, l)
      case Reverted(e) => e == InvariantViolation
      case Done(r) => HasBooks(r, c,
        if !l.autoMax && l.end <= c.lastTs then NoBooks()
        else Removed(NoBooks(), l.autoMax, l.amount, down, if l.autoMax then 0 else l.end - c.lastTs, l.end))
  {
    hide SlopeRemove, SlopeAt, IsSchedule, Take, Settle, IsBooked;
    NothingBooked(c);
    var b := Booked(c, 0, 0);
    if l.autoMax || l.end > c.lastTs {
      TakeExactly(b, c, NoBooks(), l);
      if Take(b, l).Failed? {
        FailedSettles(Take(b, l).error);
      } else {
        NegativeZero(down, Remaining(l.end, c.lastTs));
        SettleExactly(Take(b, l), c,
          Removed(NoBooks(), l.autoMax, l.amount, down, Remaining(l.end, c.lastTs), l.end));
      }
    } else {
      SettleExactly(b, c, NoBooks());
    }
  }

  // ---------------------------------------------------------------------------
  // Listing and transferring
  // ---------------------------------------------------------------------------

  /** A lock is listed unless it is gone, expired or listed; it is delisted unless it is gone. */
  lemma ListExactly(s: Ve, now: nat, dust: nat, id: nat, listed: bool)
    requires Sound(s, now, dust)
    ensures IsAged(s, now)
    ensures var l := Token(s, id);
      var refusal :=
        if l.owner == NOBODY then Some(InvalidToken)
        else if listed && !l.autoMax && l.end <= now then Some(LockExpired)
        else if listed && l.listed then Some(LockListedOrFrozen)
        else None;
      Ends(Execute(s, now, List(id, listed)), s, refusal,
        With(s, id, l.(listed := listed)), s.totalLocked, NoBooks())
  {
    hide Sound, IsAged, SlopeAt, Checkpoint, CreateLock, AddToLock, ExtendLock, SetAutoMax, MergeLocks, Unlock,
      BurnAndWithdraw, TransferLock;
    SoundIsAged(s, now, dust);
    ListSound(s, now, dust, id, listed);
    var o := Execute(s, now, List(id, listed));
    if o.Done? {
      SoundFits(o.ve, now, dust, s);
    }
    TouchedKeeps(s, now, dust);
    LiveToken(s, now, dust, id);
  }

  /** A lock that is not listed goes into the custody of the Furnace, from its owner, and nowhere else. */
  lemma TransferExactly(s: Ve, now: nat, dust: nat, furnace: Address, from: Address, to: Address, id: nat)
    requires Sound(s, now, dust)
    ensures IsAged(s, now)
    ensures var c, l := Touched(s, now, dust), Token(s, id);
      var locks' := With(s, id, l.(owner := to));
      var refusal :=
        if to == NOBODY then Some(ZeroAddress)
        else if l.owner == NOBODY then Some(InvalidToken)
        else if IsBehind(s, now) then Some(CheckpointStale)
        else if to != furnace then Some(MustTransferToFurnace)
        else if l.listed then Some(LockListedOrFrozen)
        else if |TokensOf(locks', to)| > 32 then Some(TooManyVeNFTs)
        else if l.owner != from then Some(IncorrectOwner)
        else None;
      Ends(Execute(s, now, Transfer(furnace, from, to, id)), c, refusal, locks', s.totalLocked, NoBooks())
  {
    hide Sound, Checkpoint, IsBehind, IsAged, Sum, Fits, SlopeAt;
    SoundIsAged(s, now, dust);
    TransferSound(s, now, dust, furnace, from, to, id);
    var o := Execute(s, now, Transfer(furnace, from, to, id));
    if o.Done? {
      SoundFits(o.ve, now, dust, Touched(s, now, dust));
    }
    TouchedKeeps(s, now, dust);
    LiveToken(s, now, dust, id);
    OwnedCount(With(s, id, Token(s, id).(owner := to)), to);
  }

  // ---------------------------------------------------------------------------
  // Over every run
  // ---------------------------------------------------------------------------

  /** The lock's principal is paid out: to its owner when it has ended, or from custody. */
  predicate IsPaid(s: Ve, now: nat, a: Action, id: nat) {
    var l := Token(s, id);
    || (a == Withdraw(l.owner, id) && !l.listed && !l.autoMax && l.end <= now)
    || (a.Burn? && a.custodian == l.owner && a.id == id && !l.listed)
  }

  /** The lock's principal goes into another one of its owner's, that ends no earlier. */
  predicate IsMerged(s: Ve, a: Action, id: nat, r: Ve) {
    a.Merge? && a.source == id && a.target != id &&
    var l, m := Token(s, id), Token(r, a.target);
    m.owner == l.owner == a.user && m.amount == l.amount + Token(s, a.target).amount && m.end >= l.end
  }

  /** A lock stays, or is paid out or merged; while it stays, neither its end nor its principal goes back. */
  predicate IsKept(s: Ve, now: nat, a: Action, id: nat, r: Ve) {
    var l, l' := Token(s, id), Token(r, id);
    if l == DEAD then l' == DEAD
    else if l' == DEAD then IsPaid(s, now, a, id) || IsMerged(s, a, id, r)
    else l'.end >= l.end && l'.amount >= l.amount && (l'.owner == l.owner || (a.Transfer? && l'.owner == a.furnace))
  }

  function Deposit(a: Action): nat {
    match a case Create(_, amount, _, _) => amount case AddTo(_, _, amount) => amount case _ => 0
  }

  function Payment(s: Ve, a: Action): nat {
    match a
    case Withdraw(_, id) => Token(s, id).amount
    case Burn(_, id, _) => Token(s, id).amount
    case _ => 0
  }

  /** What a call that is done does to every lock that there was, and to the principal. */
  ghost predicate IsOrderly(s: Ve, now: nat, a: Action, r: Ve) {
    && |r.locks| >= |s.locks| && (forall id: nat | id < |s.locks| :: IsKept(s, now, a, id, r))
    && r.totalLocked == s.totalLocked + Deposit(a) - Payment(s, a)
  }

  lemma OneChanged(s: Ve, now: nat, dust: nat, a: Action, id: nat, r: Ve)
    requires Sound(s, now, dust) && 0 < id < |s.locks| && s.locks[id] != DEAD
    requires r.locks == s.locks[id := Token(r, id)] && IsKept(s, now, a, id, r)
    requires r.totalLocked == s.totalLocked + Deposit(a) - Payment(s, a)
    ensures IsOrderly(s, now, a, r)
  {
    hide IsKept, Sound;
    forall i: nat | i < |s.locks| ensures IsKept(s, now, a, i, r) {
      if i != id {
        SameIsKept(s, now, a, i, r);
      }
    }
  }

  lemma SameIsKept(s: Ve, now: nat, a: Action, id: nat, r: Ve)
    requires Token(r, id) == Token(s, id)
    ensures IsKept(s, now, a, id, r)
  {
  }

  lemma OneAdded(s: Ve, now: nat, a: Action, l: Lock, r: Ve)
    requires a.Create? && r.locks == s.locks + [l] && r.totalLocked == s.totalLocked + a.amount
    ensures IsOrderly(s, now, a, r)
  {
    hide IsKept;
    forall i: nat | i < |s.locks| ensures IsKept(s, now, a, i, r) {
      SameIsKept(s, now, a, i, r);
    }
  }

  lemma NoneChanged(s: Ve, now: nat, a: Action, r: Ve)
    requires r.locks == s.locks && r.totalLocked == s.totalLocked && Deposit(a) == Payment(s, a) == 0
    ensures IsOrderly(s, now, a, r)
  {
    hide IsKept;
    forall i: nat | i < |s.locks| ensures IsKept(s, now, a, i, r) {
      SameIsKept(s, now, a, i, r);
    }
  }

  lemma TwoMerged(s: Ve, now: nat, dust: nat, a: Action, r: Ve)
    requires Sound(s, now, dust) && a.Merge? && a.source != a.target
    requires a.source < |s.locks| && a.target < |s.locks|
    requires s.locks[a.source] != DEAD && s.locks[a.target] != DEAD
    requires s.locks[a.source].owner == s.locks[a.target].owner == a.user
    requires r.totalLocked == s.totalLocked
    requires r.locks
          == s.locks[a.source := DEAD][a.target := Joined(s.locks[a.source], s.locks[a.target], now)]
    ensures IsOrderly(s, now, a, r)
  {
    hide Ledger, IsWithin, CeilDiv, Sum, IsKept;
    forall i: nat | i < |s.locks| ensures IsKept(s, now, a, i, r) {
      if i == a.source {
        SourceIsKept(s, now, a, r);
      } else if i == a.target {
        TargetIsKept(s, now, a, r);
      } else {
        SameIsKept(s, now, a, i, r);
      }
    }
  }

  lemma SourceIsKept(s: Ve, now: nat, a: Action, r: Ve)
    requires a.Merge? && a.source != a.target && Token(r, a.source) == DEAD
    requires Token(s, a.source).owner == Token(s, a.target).owner == a.user
    requires Token(r, a.target) == Joined(Token(s, a.source), Token(s, a.target), now)
    requires Token(s, a.source).end <= now + 365 * DAY
    ensures IsKept(s, now, a, a.source, r)
  {
  }

  lemma TargetIsKept(s: Ve, now: nat, a: Action, r: Ve)
    requires a.Merge? && Token(s, a.target) != DEAD && Token(s, a.target).owner != NOBODY
    requires Token(r, a.target) == Joined(Token(s, a.source), Token(s, a.target), now)
    requires Token(s, a.target).end <= now + 365 * DAY
    ensures IsKept(s, now, a, a.target, r)
  {
  }

  lemma CreateOrderly(s: Ve, now: nat, dust: nat, user: Address, amount: nat, duration: nat, autoMax: bool)
    requires Sound(s, now, dust)
    ensures IsAged(s, now)
    ensures var a := Create(user, amount, duration, autoMax);
      var o := Execute(s, now, a);
      o.Done? ==> IsOrderly(s, now, a, o.ve)
  {
    hide Execute, IsAged, SlopeAdd, SlopeRemove, IsBehind, Fits, IsUp, IsDown, Touched, Sound, SlopeAt, Sum, Removed,
      Gave, Moved, IsOrderly;
    Roundings(amount);
    CreateExactly(s, now, dust, user, amount, duration, autoMax, SlopeAdd(amount));
    var a := Create(user, amount, duration, autoMax);
    if Execute(s, now, a).Done? {
      OneAdded(s, now, a, Lock(user, amount, now, now + duration, autoMax, false), Execute(s, now, a).ve);
    }
  }

  lemma MergeOrderly(s: Ve, now: nat, dust: nat, user: Address, source: nat, target: nat)
    requires Sound(s, now, dust)
    ensures IsAged(s, now)
    ensures var a := Merge(user, source, target);
      var o := Execute(s, now, a);
      o.Done? ==> IsOrderly(s, now, a, o.ve)
  {
    hide Execute, IsAged, SlopeAdd, SlopeRemove, IsBehind, Fits, IsUp, IsDown, Touched, Sound, SlopeAt, Sum, Removed,
      Gave, Moved, IsOrderly;
    var x, y := Token(s, source).amount, Token(s, target).amount;
    Roundings(x);
    Roundings(y);
    Roundings(x + y);
    LiveToken(s, now, dust, source);
    LiveToken(s, now, dust, target);
    MergeExactly(s, now, dust, user, source, target, SlopeRemove(x), SlopeRemove(y), SlopeAdd(x + y));
    var a := Merge(user, source, target);
    if Execute(s, now, a).Done? {
      TwoMerged(s, now, dust, a, Execute(s, now, a).ve);
    }
  }

  lemma AddToOrderly(s: Ve, now: nat, dust: nat, user: Address, id: nat, amount: nat)
    requires Sound(s, now, dust)
    ensures IsAged(s, now)
    ensures var a := AddTo(user, id, amount);
      Execute(s, now, a).Done? ==> IsOrderly(s, now, a, Execute(s, now, a).ve)
  {
    hide Execute, IsAged, SlopeAdd, SlopeRemove, IsBehind, Fits, IsUp, IsDown, Touched, Sound, SlopeAt, Sum, Removed,
      Gave, Moved, IsOrderly;
    SoundIsAged(s, now, dust);
    LiveToken(s, now, dust, id);
    var l, o := Token(s, id), Execute(s, now, AddTo(user, id, amount));
    Roundings(l.amount);
    Roundings(l.amount + amount);
    RaiseDone(s, now, dust, user, id, amount, SlopeAdd(l.amount), SlopeAdd(l.amount + amount));
    if o.Done? {
      OneChanged(s, now, dust, AddTo(user, id, amount), id, o.ve);
    }
  }

  lemma RaiseDone(s: Ve, now: nat, dust: nat, user: Address, id: nat, amount: nat, before: nat, after: nat)
    requires Sound(s, now, dust) && IsUp(before, Token(s, id).amount) && IsUp(after, Token(s, id).amount + amount)
    ensures IsAged(s, now)
    ensures var l, o := Token(s, id), Execute(s, now, AddTo(user, id, amount));
      o.Done? ==>
        && l != DEAD && o.ve.totalLocked == s.totalLocked + amount
        && var end := if l.autoMax then now + 365 * DAY else l.end;
           o.ve.locks == With(s, id, Lock(l.owner, l.amount + amount, now, end, l.autoMax, false))
  {
    hide Execute, IsAged, IsUp, IsBehind, Fits, Touched, Sound, Gave, With;
    AddToExactly(s, now, dust, user, id, amount, before, after);
  }

  lemma ExtendOrderly(s: Ve, now: nat, dust: nat, user: Address, id: nat, newEnd: nat)
    requires Sound(s, now, dust)
    ensures IsAged(s, now)
    ensures var a := Extend(user, id, newEnd);
      Execute(s, now, a).Done? ==> IsOrderly(s, now, a, Execute(s, now, a).ve)
  {
    hide Execute, IsAged, SlopeAdd, SlopeRemove, IsBehind, Fits, IsUp, IsDown, Touched, Sound, SlopeAt, Sum, Removed,
      Gave, Moved, IsOrderly;
    SoundIsAged(s, now, dust);
    LiveToken(s, now, dust, id);
    var l, o := Token(s, id), Execute(s, now, Extend(user, id, newEnd));
    Roundings(l.amount);
    ExtendExactly(s, now, dust, user, id, newEnd, SlopeAdd(l.amount));
    if o.Done? {
      OneChanged(s, now, dust, Extend(user, id, newEnd), id, o.ve);
    }
  }

  lemma AutoOrderly(s: Ve, now: nat, dust: nat, user: Address, id: nat, enabled: bool)
    requires Sound(s, now, dust)
    ensures IsAged(s, now)
    ensures var a := Auto(user, id, enabled);
      Execute(s, now, a).Done? ==> IsOrderly(s, now, a, Execute(s, now, a).ve)
  {
    hide Execute, IsAged, SlopeAdd, SlopeRemove, IsBehind, Fits, IsUp, IsDown, Touched, Sound, SlopeAt, Sum, Removed,
      Gave, Moved, IsOrderly;
    SoundIsAged(s, now, dust);
    LiveToken(s, now, dust, id);
    var l, o := Token(s, id), Execute(s, now, Auto(user, id, enabled));
    Roundings(l.amount);
    AutoExactly(s, now, dust, user, id, enabled, SlopeRemove(l.amount), SlopeAdd(l.amount));
    if o.Done? && !l.autoMax && !enabled {
      NoneChanged(s, now, Auto(user, id, enabled), o.ve);
    }
    if o.Done? && (l.autoMax || enabled) {
      OneChanged(s, now, dust, Auto(user, id, enabled), id, o.ve);
    }
  }

  lemma WithdrawOrderly(s: Ve, now: nat, dust: nat, user: Address, id: nat)
    requires Sound(s, now, dust)
    ensures IsAged(s, now)
    ensures var a := Withdraw(user, id);
      Execute(s, now, a).Done? ==> IsOrderly(s, now, a, Execute(s, now, a).ve)
  {
    hide Execute, IsAged, SlopeAdd, SlopeRemove, IsBehind, Fits, IsUp, IsDown, Touched, Sound, SlopeAt, Sum, Removed,
      Gave, Moved, IsOrderly;
    SoundIsAged(s, now, dust);
    LiveToken(s, now, dust, id);
    var l, o := Token(s, id), Execute(s, now, Withdraw(user, id));
    Roundings(l.amount);
    WithdrawExactly(s, now, dust, user, id, SlopeRemove(l.amount));
    if o.Done? {
      OneChanged(s, now, dust, Withdraw(user, id), id, o.ve);
    }
  }

  lemma BurnOrderly(s: Ve, now: nat, dust: nat, custodian: Address, id: nat, recipient: Address)
    requires Sound(s, now, dust)
    ensures IsAged(s, now)
    ensures var a := Burn(custodian, id, recipient);
      Execute(s, now, a).Done? ==> IsOrderly(s, now, a, Execute(s, now, a).ve)
  {
    hide Execute, IsAged, SlopeAdd, SlopeRemove, IsBehind, Fits, IsUp, IsDown, Touched, Sound, SlopeAt, Sum, Removed,
      Gave, Moved, IsOrderly;
    SoundIsAged(s, now, dust);
    LiveToken(s, now, dust, id);
    var l, o := Token(s, id), Execute(s, now, Burn(custodian, id, recipient));
    Roundings(l.amount);
    BurnExactly(s, now, dust, custodian, id, recipient, SlopeRemove(l.amount));
    if o.Done? {
      OneChanged(s, now, dust, Burn(custodian, id, recipient), id, o.ve);
    }
  }

  lemma ListOrderly(s: Ve, now: nat, dust: nat, id: nat, listed: bool)
    requires Sound(s, now, dust)
    ensures IsAged(s, now)
    ensures var a := List(id, listed);
      Execute(s, now, a).Done? ==> IsOrderly(s, now, a, Execute(s, now, a).ve)
  {
    hide Execute, IsAged, SlopeAdd, SlopeRemove, IsBehind, Fits, IsUp, IsDown, Touched, Sound, SlopeAt, Sum, Removed,
      Gave, Moved, IsOrderly;
    SoundIsAged(s, now, dust);
    LiveToken(s, now, dust, id);
    var l, o := Token(s, id), Execute(s, now, List(id, listed));
    ListExactly(s, now, dust, id, listed);
    if o.Done? {
      OneChanged(s, now, dust, List(id, listed), id, o.ve);
    }
  }

  lemma TransferOrderly(s: Ve, now: nat, dust: nat, furnace: Address, from: Address, to: Address, id: nat)
    requires Sound(s, now, dust)
    ensures IsAged(s, now)
    ensures var a := Transfer(furnace, from, to, id);
      Execute(s, now, a).Done? ==> IsOrderly(s, now, a, Execute(s, now, a).ve)
  {
    hide Execute, IsAged, SlopeAdd, SlopeRemove, IsBehind, Fits, IsUp, IsDown, Touched, Sound, SlopeAt, Sum, Removed,
      Gave, Moved, IsOrderly;
    SoundIsAged(s, now, dust);
    LiveToken(s, now, dust, id);
    var l, o := Token(s, id), Execute(s, now, Transfer(furnace, from, to, id));
    TransferExactly(s, now, dust, furnace, from, to, id);
    if o.Done? {
      OneChanged(s, now, dust, Transfer(furnace, from, to, id), id, o.ve);
    }
  }

  /** Whatever a call that is done was, it was orderly. */
  lemma DoneIsOrderly(s: Ve, now: nat, dust: nat, a: Action)
    requires Sound(s, now, dust)
    ensures IsAged(s, now)
    ensures var o := Execute(s, now, a); o.Done? ==> IsOrderly(s, now, a, o.ve)
  {
    hide Execute, Sound, IsOrderly, IsAged;
    TouchedKeeps(s, now, dust);
    match a {
      case Create(user, amount, duration, autoMax) => CreateOrderly(s, now, dust, user, amount, duration, autoMax);
      case AddTo(user, id, amount) => AddToOrderly(s, now, dust, user, id, amount);
      case Extend(user, id, newEnd) => ExtendOrderly(s, now, dust, user, id, newEnd);
      case Auto(user, id, enabled) => AutoOrderly(s, now, dust, user, id, enabled);
      case Merge(user, source, target) => MergeOrderly(s, now, dust, user, source, target);
      case Withdraw(user, id) => WithdrawOrderly(s, now, dust, user, id);
      case Burn(custodian, id, recipient) => BurnOrderly(s, now, dust, custodian, id, recipient);
      case List(id, listed) => ListOrderly(s, now, dust, id, listed);
      case Transfer(furnace, from, to, id) => TransferOrderly(s, now, dust, furnace, from, to, id);
      case Touch =>
        TouchIs(s, now, dust);
        NoneChanged(s, now, a, Touched(s, now, dust));
    }
  }

  /** Somewhere along the run the lock is paid out or merged. */
  ghost predicate LeavesIn(s: Ve, clock: nat, dust: nat, run: seq<Call>, id: nat)
    requires Sound(s, clock, dust) && IsRun(clock, run)
    decreases |run|
  {
    hide Sound, Next;
    run != [] &&
    var Call(now, a) := run[0];
    var r := Next(s, clock, dust, run[0]);
    || (Token(s, id) != DEAD && Token(r, id) == DEAD && (IsPaid(s, now, a, id) || IsMerged(s, a, id, r)))
    || LeavesIn(r, now, dust + Takes(a), run[1..], id)
  }

  /** The principal that the run's calls bring in, and what they pay out. */
  ghost function DepositsIn(s: Ve, clock: nat, dust: nat, run: seq<Call>): nat
    requires Sound(s, clock, dust) && IsRun(clock, run)
    decreases |run|
  {
    hide Sound, Next, Execute;
    if run == [] then 0
    else
      var Call(now, a) := run[0];
      CallIsDone(s, clock, dust, run[0]);
      (if Execute(s, now, a).Done? then Deposit(a) else 0)
      + DepositsIn(Next(s, clock, dust, run[0]), now, dust + Takes(a), run[1..])
  }

  ghost function PaymentsIn(s: Ve, clock: nat, dust: nat, run: seq<Call>): nat
    requires Sound(s, clock, dust) && IsRun(clock, run)
    decreases |run|
  {
    hide Sound, Next, Execute;
    if run == [] then 0
    else
      var Call(now, a) := run[0];
      CallIsDone(s, clock, dust, run[0]);
      (if Execute(s, now, a).Done? then Payment(s, a) else 0)
      + PaymentsIn(Next(s, clock, dust, run[0]), now, dust + Takes(a), run[1..])
  }

  lemma CallIsDone(s: Ve, clock: nat, dust: nat, call: Call)
    requires Sound(s, clock, dust) && clock <= call.now
    ensures Sound(s, call.now, dust) && IsAged(s, call.now)
    ensures var o := Execute(s, call.now, call.action);
      Next(s, clock, dust, call) == if o.Done? then o.ve else s
  {
    hide Sound, Execute;
    SoundLater(s, clock, call.now, dust);
    ExecuteSound(s, call.now, dust, call.action);
  }

  /**
   Along every run a lock's end never goes back and its principal never shrinks, as long as it is there; it
   goes only by its owner's withdrawal when it has ended, by a burn from custody, or into another lock of
   its owner's that ends no earlier; and a token that is gone stays gone.
   */
  lemma {:induction false} RunKeepsLocks(s: Ve, clock: nat, dust: nat, run: seq<Call>, id: nat)
    requires Sound(s, clock, dust) && IsRun(clock, run) && id < |s.locks|
    ensures var r := After(s, clock, dust, run);
      && |r.locks| >= |s.locks|
      && if s.locks[id] == DEAD then r.locks[id] == DEAD
         else if r.locks[id] == DEAD then LeavesIn(s, clock, dust, run, id)
         else r.locks[id].end >= s.locks[id].end && r.locks[id].amount >= s.locks[id].amount
    decreases |run|
  {
    hide Sound, Execute, Next, IsPaid, IsMerged;
    if run != [] {
      var Call(now, a) := run[0];
      CallIsDone(s, clock, dust, run[0]);
      DoneIsOrderly(s, now, dust, a);
      var r := Next(s, clock, dust, run[0]);
      assert Execute(s, now, a).Done? ==> IsKept(s, now, a, id, r);
      RunKeepsLocks(r, now, dust + Takes(a), run[1..], id);
    }
  }

  /** Along every run the locked principal is what was there and came in, less what was paid out. */
  lemma {:induction false} RunConserves(s: Ve, clock: nat, dust: nat, run: seq<Call>)
    requires Sound(s, clock, dust) && IsRun(clock, run)
    ensures After(s, clock, dust, run).totalLocked
         == s.totalLocked + DepositsIn(s, clock, dust, run) - PaymentsIn(s, clock, dust, run)
    decreases |run|
  {
    hide Sound, Execute, Next, IsKept;
    if run != [] {
      var Call(now, a) := run[0];
      CallIsDone(s, clock, dust, run[0]);
      DoneIsOrderly(s, now, dust, a);
      RunConserves(Next(s, clock, dust, run[0]), now, dust + Takes(a), run[1..]);
    }
  }
}
