/**
 The voting-escrow contract's accounting: locks, the global slope and bias, the checkpoint that ages
 them, and every operation on locks, as functions from a state to the next state or a refusal.

 A refusal leaves the state as it was. Amounts are unbounded but for the global sums, which are bounded
 by the contract's word size.
 */
module VeModel {
  import opened Text
  import opened SlopeSchedule
  import opened VeLocks

  const MAX_UINT: nat := 0x1_0000000000000000_0000000000000000_0000000000000000_0000000000000000 - 1
  const MAX_SLOPE_CHANGES_PER_CALL: nat := 250
  const MIN_LOCK_DURATION: nat := 604_800
  const MIN_LOCK_AMOUNT: nat := 1_000_000_000_000_000_000_000
  const MIN_TOPUP_AMOUNT: nat := 1_000_000_000_000_000_000
  const MAX_VE_NFTS_PER_USER: nat := 32

  datatype Error =
    | ZeroAddress
    | AmountZero
    | MinLockAmountNotMet
    | InvalidDuration
    | TooManyVeNFTs
    | CheckpointStale
    | NotAuthorized
    | LockListedOrFrozen
    | LockExpired
    | InvalidToken
    | MustTransferToFurnace
    | IncorrectOwner
    | Overflow
    | InvariantViolation

  /** `locks[id]` is the lock of token `id`; ids start at one. */
  datatype Ve = Ve(
    locks: seq<Lock>,
    slope: nat,
    bias: nat,
    lastTs: nat,
    schedule: Schedule,
    cached: nat,
    totalLocked: nat)

  function Deployed(now: nat): Ve { Ve([DEAD], 0, 0, now, [], 0, 0) }

  datatype Outcome = Done(ve: Ve) | Reverted(error: Error)

  // ---------------------------------------------------------------------------
  // The checkpoint
  // ---------------------------------------------------------------------------

  /** `_applyDecayToBias`. */
  function Decay(bias: nat, slope: nat, dt: nat): nat {
    if slope == 0 then bias
    else if dt >= CeilDiv(bias, slope) then 0
    else if dt > MAX_UINT / slope then 0
    else if slope * dt >= bias then 0
    else bias - slope * dt
  }

  predicate IsDue(s: Ve, now: nat) { s.schedule != [] && s.schedule[0].at <= now }

  /** One turn of the checkpoint's loop: age up to the first scheduled time, and take its slope away. */
  function ProcessFirst(s: Ve): Ve
    requires s.schedule != [] && s.lastTs <= s.schedule[0].at
  {
    var Change(at, slope) := s.schedule[0];
    s.(bias := Decay(s.bias, s.slope, at - s.lastTs),
       slope := if slope >= s.slope then 0 else s.slope - slope,
       lastTs := at,
       schedule := s.schedule[1..])
  }

  function ProcessDue(s: Ve, now: nat, turns: nat): Ve
    requires IsSchedule(s.schedule) && IsAfter(s.schedule, s.lastTs)
    decreases turns
  {
    if turns == 0 || !IsDue(s, now) then s else ProcessDue(ProcessFirst(s), now, turns - 1)
  }

  /** Unless a backlog remains, age up to now. */
  function CatchUp(s: Ve, now: nat): Ve
    requires s.lastTs <= now
  {
    if IsDue(s, now) then s else s.(bias := Decay(s.bias, s.slope, now - s.lastTs), lastTs := now)
  }

  function Synced(s: Ve): Ve { s.(cached := CeilDiv(s.bias, SLOPE_SCALE)) }

  predicate IsAged(s: Ve, now: nat) {
    IsSchedule(s.schedule) && IsAfter(s.schedule, s.lastTs) && s.lastTs <= now
  }

  lemma {:induction false} ProcessDueAged(s: Ve, now: nat, turns: nat)
    requires IsAged(s, now)
    ensures IsAged(ProcessDue(s, now, turns), now) && ProcessDue(s, now, turns).locks == s.locks
    decreases turns
  {
    if turns > 0 && IsDue(s, now) {
      ProcessDueAged(ProcessFirst(s), now, turns - 1);
    }
  }

  /** `_checkpointGlobalStateInternal`. */
  function Checkpoint(s: Ve, now: nat): (r: Ve)
    requires IsAged(s, now)
    ensures r.locks == s.locks && IsAged(r, now)
  {
    ProcessDueAged(s, now, MAX_SLOPE_CHANGES_PER_CALL);
    Synced(CatchUp(ProcessDue(s, now, MAX_SLOPE_CHANGES_PER_CALL), now))
  }

  // ---------------------------------------------------------------------------
  // Changes of the global sums
  // ---------------------------------------------------------------------------

  /** `_applyGlobalDelta`. */
  function GlobalDelta(s: Ve, slope: int, bias: int): Outcome {
    if s.slope + slope < 0 then Reverted(InvariantViolation)
    else if slope > 0 && s.slope + slope > MAX_UINT then Reverted(Overflow)
    else if s.bias + bias < 0 then Reverted(InvariantViolation)
    else if bias > 0 && s.bias + bias > MAX_UINT then Reverted(Overflow)
    else
      var s' := s.(slope := s.slope + slope, bias := s.bias + bias);
      Done(if bias != 0 then Synced(s') else s')
  }

  /** An operation on its way: changes of the schedule are made at once, those of the sums at the end. */
  datatype Booking = Booked(ve: Ve, slope: int, bias: int) | Failed(error: Error)

  /** `_applySlopeChangeDelta`. */
  function ChangeDelta(s: Ve, when: nat, slope: int): Outcome
    requires IsSchedule(s.schedule)
  {
    if slope == 0 then Done(s)
    else if SlopeAt(s.schedule, when) + slope < 0 then Reverted(InvariantViolation)
    else if slope > 0 && SlopeAt(s.schedule, when) + slope > MAX_UINT then Reverted(Overflow)
    else if when == 0 && SlopeAt(s.schedule, when) == 0 then Reverted(InvariantViolation)
    else Done(s.(schedule := Adjust(s.schedule, when, slope)))
  }

  function Remaining(end: nat, t: nat): nat { if end > t then end - t else 0 }

  predicate IsOpen(b: Booking) { b.Booked? ==> IsSchedule(b.ve.schedule) }

  function Reschedule(b: Booking, when: nat, slope: int): (r: Booking)
    requires IsOpen(b)
    ensures IsOpen(r)
  {
    match b
    case Failed(_) => b
    case Booked(ve, _, _) =>
      match ChangeDelta(ve, when, slope)
      case Reverted(e) => Failed(e)
      case Done(ve') =>
        AdjustIsSchedule(ve.schedule, when, slope);
        b.(ve := ve', slope := b.slope + slope)
  }

  function AddBias(b: Booking, bias: int): (r: Booking)
    ensures IsOpen(b) ==> IsOpen(r)
  {
    if b.Failed? then b else b.(bias := b.bias + bias)
  }

  /** A lock's contribution is taken out, with its slope rounded down. */
  function Take(b: Booking, l: Lock): (r: Booking)
    requires IsOpen(b)
    ensures IsOpen(r)
  {
    if b.Failed? then b
    else if l.autoMax then AddBias(b, -(l.amount * SLOPE_SCALE as int))
    else
      var slope := SlopeRemove(l.amount);
      Reschedule(AddBias(b, -(slope * Remaining(l.end, b.ve.lastTs) as int)), l.end, -(slope as int))
  }

  /** A lock's contribution is put in, with its slope rounded up. */
  function Give(b: Booking, amount: nat, end: nat, autoMax: bool): (r: Booking)
    requires IsOpen(b)
    ensures IsOpen(r)
  {
    if b.Failed? then b
    else if autoMax then AddBias(b, amount * SLOPE_SCALE)
    else
      var slope := SlopeAdd(amount);
      Reschedule(AddBias(b, slope * Remaining(end, b.ve.lastTs)), end, slope)
  }

  function Settle(b: Booking): Outcome {
    match b case Failed(e) => Reverted(e) case Booked(ve, slope, bias) => GlobalDelta(ve, slope, bias)
  }

  /** One more change of the schedule, behind what was done. */
  function AndChange(o: Outcome, when: nat, slope: int): (r: Outcome)
    requires o.Done? ==> IsSchedule(o.ve.schedule)
    ensures r.Done? ==> IsSchedule(r.ve.schedule)
    ensures o.Done? ==> r == ChangeDelta(o.ve, when, slope)
  {
    match o
    case Reverted(_) => o
    case Done(s) =>
      if SlopeAt(s.schedule, when) + slope < 0 then Reverted(InvariantViolation)
      else
        AdjustIsSchedule(s.schedule, when, slope);
        ChangeDelta(s, when, slope)
  }

  // ---------------------------------------------------------------------------
  // Operations on locks
  // ---------------------------------------------------------------------------

  function LockOf(locks: seq<Lock>, id: nat): Lock { if id < |locks| then locks[id] else DEAD }

  function OwnerOf(locks: seq<Lock>, id: nat): Address { LockOf(locks, id).owner }

  function WithLock(s: Ve, id: nat, l: Lock): Ve
    requires id < |s.locks|
  {
    s.(locks := s.locks[id := l])
  }

  /** `_requireMutable`. */
  function Immutable(l: Lock, now: nat): Option<Error> {
    if l.listed then Some(LockListedOrFrozen)
    else if !l.autoMax && now >= l.end then Some(LockExpired)
    else None
  }

  /** A new lock, on a state that has caught up. */
  function OpenLock(c: Ve, l: Lock): Outcome
    requires IsSchedule(c.schedule)
  {
    match Settle(Give(Booked(c, 0, 0), l.amount, l.end, l.autoMax))
    case Reverted(e) => Reverted(e)
    case Done(g) => Done(g.(totalLocked := g.totalLocked + l.amount, locks := g.locks + [l]))
  }

  function CreateRefused(locks: seq<Lock>, user: Address, amount: nat, duration: nat, autoMax: bool): Option<Error> {
    if user == NOBODY then Some(ZeroAddress)
    else if amount == 0 then Some(AmountZero)
    else if amount < MIN_LOCK_AMOUNT then Some(MinLockAmountNotMet)
    else if duration < MIN_LOCK_DURATION || duration > MAX_LOCK_DURATION then Some(InvalidDuration)
    else if autoMax && duration != MAX_LOCK_DURATION then Some(InvalidDuration)
    else if Sum(locks, Owned(user)) >= MAX_VE_NFTS_PER_USER then Some(TooManyVeNFTs)
    else None
  }

  function CreateLock(s: Ve, now: nat, user: Address, amount: nat, duration: nat, autoMax: bool): Outcome
    requires IsAged(s, now)
  {
    match CreateRefused(s.locks, user, amount, duration, autoMax)
    case Some(e) => Reverted(e)
    case None =>
      var c := Checkpoint(s, now);
      if c.lastTs != now then Reverted(CheckpointStale)
      else OpenLock(c, Lock(user, amount, now, now + duration, autoMax, false))
  }

  /** The contribution of an added amount: the slopes before and after are rounded up each. */
  function TopUp(b: Booking, l: Lock, amount: nat): (r: Booking)
    requires IsOpen(b)
    ensures IsOpen(r)
  {
    if b.Failed? then b
    else if l.autoMax then AddBias(b, amount * SLOPE_SCALE)
    else
      var slope: int := SlopeAdd(l.amount + amount) - SlopeAdd(l.amount);
      Reschedule(AddBias(b, slope * Remaining(l.end, b.ve.lastTs)), l.end, slope)
  }

  function RaiseLock(c: Ve, now: nat, id: nat, amount: nat): Outcome
    requires IsSchedule(c.schedule) && id < |c.locks|
  {
    var l := c.locks[id];
    match Settle(TopUp(Booked(c, 0, 0), l, amount))
    case Reverted(e) => Reverted(e)
    case Done(g) => Done(WithLock(g.(totalLocked := g.totalLocked + amount), id,
      l.(amount := l.amount + amount, start := now, end := if l.autoMax then now + MAX_LOCK_DURATION else l.end)))
  }

  function AddToRefused(locks: seq<Lock>, now: nat, user: Address, id: nat, amount: nat): (r: Option<Error>)
    ensures r.None? ==> id < |locks|
  {
    if user == NOBODY then Some(ZeroAddress)
    else if amount == 0 then Some(AmountZero)
    else if amount < MIN_TOPUP_AMOUNT then Some(MinLockAmountNotMet)
    else if OwnerOf(locks, id) != user then Some(NotAuthorized)
    else Immutable(LockOf(locks, id), now)
  }

  function AddToLock(s: Ve, now: nat, user: Address, id: nat, amount: nat): Outcome
    requires IsAged(s, now)
  {
    match AddToRefused(s.locks, now, user, id, amount)
    case Some(e) => Reverted(e)
    case None =>
      var c := Checkpoint(s, now);
      if c.lastTs != now then Reverted(CheckpointStale) else RaiseLock(c, now, id, amount)
  }

  /** A decaying lock's end is moved: first the bias, then the schedule at both ends. */
  function MoveEnd(c: Ve, now: nat, id: nat, newEnd: nat): Outcome
    requires IsSchedule(c.schedule) && id < |c.locks|
  {
    var l := c.locks[id];
    var slope := SlopeAdd(l.amount);
    var bias: int := slope * (Remaining(newEnd, now) - Remaining(l.end, now));
    match AndChange(AndChange(GlobalDelta(c, 0, bias), l.end, -(slope as int)), newEnd, slope)
    case Reverted(e) => Reverted(e)
    case Done(g) => Done(WithLock(g, id, l.(end := newEnd, start := now)))
  }

  function ExtendRefused(locks: seq<Lock>, now: nat, user: Address, id: nat, newEnd: nat): (r: Option<Error>)
    ensures r.None? ==> id < |locks|
  {
    var l := LockOf(locks, id);
    if user == NOBODY then Some(ZeroAddress)
    else if l.owner != user then Some(NotAuthorized)
    else if Immutable(l, now).Some? then Immutable(l, now)
    else if !l.autoMax && (newEnd <= l.end || newEnd > now + MAX_LOCK_DURATION) then Some(InvalidDuration)
    else None
  }

  /** A perpetual lock is only refreshed, whatever end is asked for, and even behind a backlog. */
  function ExtendLock(s: Ve, now: nat, user: Address, id: nat, newEnd: nat): Outcome
    requires IsAged(s, now)
  {
    match ExtendRefused(s.locks, now, user, id, newEnd)
    case Some(e) => Reverted(e)
    case None =>
      var c, l := Checkpoint(s, now), LockOf(s.locks, id);
      if l.autoMax then Done(WithLock(c, id, l.(end := now + MAX_LOCK_DURATION, start := now)))
      else if c.lastTs != now then Reverted(CheckpointStale)
      else MoveEnd(c, now, id, newEnd)
  }

  function Flipped(l: Lock, now: nat, enabled: bool): Lock {
    l.(autoMax := enabled, end := now + MAX_LOCK_DURATION, start := now)
  }

  function FlipLock(c: Ve, now: nat, id: nat, enabled: bool): Outcome
    requires IsSchedule(c.schedule) && id < |c.locks|
  {
    var l := c.locks[id];
    match Settle(Give(Take(Booked(c, 0, 0), l), l.amount, now + MAX_LOCK_DURATION, enabled))
    case Reverted(e) => Reverted(e)
    case Done(g) => Done(WithLock(g, id, Flipped(l, now, enabled)))
  }

  function AutoRefused(locks: seq<Lock>, now: nat, user: Address, id: nat): Option<Error> {
    if OwnerOf(locks, id) != user then Some(NotAuthorized) else Immutable(LockOf(locks, id), now)
  }

  function SetAutoMax(s: Ve, now: nat, user: Address, id: nat, enabled: bool): Outcome
    requires IsAged(s, now)
  {
    match AutoRefused(s.locks, now, user, id)
    case Some(e) => Reverted(e)
    case None =>
      var l := LockOf(s.locks, id);
      if l.autoMax == enabled && !enabled then Done(s)
      else
        var c := Checkpoint(s, now);
        if c.lastTs != now then Reverted(CheckpointStale)
        else if l.autoMax == enabled then Done(WithLock(c, id, Flipped(l, now, enabled)))
        else FlipLock(c, now, id, enabled)
  }

  /** The lock that two locks are merged into: it ends when the later one does. */
  function Merged(a: Lock, b: Lock, now: nat): Lock {
    var auto := a.autoMax || b.autoMax;
    b.(amount := b.amount + a.amount, autoMax := auto, start := now,
       end := if auto then now + MAX_LOCK_DURATION else if b.end >= a.end then b.end else a.end)
  }

  function JoinLocks(c: Ve, now: nat, source: nat, target: nat): Outcome
    requires IsSchedule(c.schedule) && source < |c.locks| && target < |c.locks|
  {
    var a, b := c.locks[source], c.locks[target];
    var m := Merged(a, b, now);
    match Settle(Give(Take(Take(Booked(c, 0, 0), a), b), m.amount, m.end, m.autoMax))
    case Reverted(e) => Reverted(e)
    case Done(g) => Done(WithLock(WithLock(g, target, m), source, DEAD))
  }

  function MergeRefused(locks: seq<Lock>, now: nat, user: Address, source: nat, target: nat): (r: Option<Error>)
    ensures r.None? ==> source < |locks| && target < |locks|
  {
    if source == target then Some(NotAuthorized)
    else if OwnerOf(locks, source) != user || OwnerOf(locks, target) != user then Some(NotAuthorized)
    else if Immutable(LockOf(locks, source), now).Some? then Immutable(LockOf(locks, source), now)
    else Immutable(LockOf(locks, target), now)
  }

  function MergeLocks(s: Ve, now: nat, user: Address, source: nat, target: nat): Outcome
    requires IsAged(s, now)
  {
    match MergeRefused(s.locks, now, user, source, target)
    case Some(e) => Reverted(e)
    case None =>
      var c := Checkpoint(s, now);
      if c.lastTs != now then Reverted(CheckpointStale) else JoinLocks(c, now, source, target)
  }

  /** A burned lock's principal leaves the total. */
  function Buried(o: Outcome, id: nat, amount: nat): Outcome
    requires o.Done? ==> id < |o.ve.locks|
  {
    if o.Reverted? then o
    else if o.ve.totalLocked < amount then Reverted(Overflow)
    else Done(WithLock(o.ve.(totalLocked := o.ve.totalLocked - amount), id, DEAD))
  }

  /** An expired lock that the backlog still counts is taken out: first the sums, then the schedule. */
  function Expired(c: Ve, l: Lock): (r: Outcome)
    requires IsSchedule(c.schedule)
    ensures r.Done? ==> r.ve.locks == c.locks
  {
    if l.end <= c.lastTs then Done(c)
    else
      var slope := SlopeRemove(l.amount);
      AndChange(GlobalDelta(c, -(slope as int), -(slope * (l.end - c.lastTs) as int)), l.end, -(slope as int))
  }

  function UnlockRefused(locks: seq<Lock>, now: nat, user: Address, id: nat): (r: Option<Error>)
    ensures r.None? ==> id < |locks|
  {
    var l := LockOf(locks, id);
    if user == NOBODY then Some(ZeroAddress)
    else if l.owner != user then Some(NotAuthorized)
    else if l.listed then Some(LockListedOrFrozen)
    else if l.autoMax || now < l.end then Some(InvalidDuration)
    else if l.amount == 0 then Some(InvalidToken)
    else None
  }

  function Unlock(s: Ve, now: nat, user: Address, id: nat): Outcome
    requires IsAged(s, now)
  {
    match UnlockRefused(s.locks, now, user, id)
    case Some(e) => Reverted(e)
    case None => Buried(Expired(Checkpoint(s, now), LockOf(s.locks, id)), id, LockOf(s.locks, id).amount)
  }

  function BurnRefused(locks: seq<Lock>, custodian: Address, id: nat, recipient: Address): (r: Option<Error>)
    ensures r.None? ==> id < |locks|
  {
    var l := LockOf(locks, id);
    if recipient == NOBODY then Some(ZeroAddress)
    else if l.owner != custodian then Some(NotAuthorized)
    else if l.listed then Some(LockListedOrFrozen)
    else if l.amount == 0 then Some(InvalidToken)
    else None
  }

  /** What a lock still contributes is taken out. */
  function Withdrawn(c: Ve, l: Lock): (r: Outcome)
    requires IsSchedule(c.schedule)
    ensures r.Done? ==> r.ve.locks == c.locks
  {
    Settle(if l.autoMax || l.end > c.lastTs then Take(Booked(c, 0, 0), l) else Booked(c, 0, 0))
  }

  function BurnAndWithdraw(s: Ve, now: nat, custodian: Address, id: nat, recipient: Address): Outcome
    requires IsAged(s, now)
  {
    match BurnRefused(s.locks, custodian, id, recipient)
    case Some(e) => Reverted(e)
    case None => Buried(Withdrawn(Checkpoint(s, now), LockOf(s.locks, id)), id, LockOf(s.locks, id).amount)
  }

  function SetListed(s: Ve, now: nat, id: nat, listed: bool): Outcome {
    var l := LockOf(s.locks, id);
    if l.owner == NOBODY then Reverted(InvalidToken)
    else if !listed then Done(WithLock(s, id, l.(listed := false)))
    else if !l.autoMax && now >= l.end then Reverted(LockExpired)
    else if l.listed then Reverted(LockListedOrFrozen)
    else Done(WithLock(s, id, l.(listed := true)))
  }

  /** A transfer: only into the Furnace's custody. */
  function TransferLock(s: Ve, now: nat, furnace: Address, from: Address, to: Address, id: nat): Outcome
    requires IsAged(s, now)
  {
    var l := LockOf(s.locks, id);
    if to == NOBODY then Reverted(ZeroAddress)
    else if l.owner == NOBODY then Reverted(InvalidToken)
    else
      var c := Checkpoint(s, now);
      if c.lastTs != now then Reverted(CheckpointStale)
      else if to != furnace then Reverted(MustTransferToFurnace)
      else if l.listed then Reverted(LockListedOrFrozen)
      else
        var s' := WithLock(c, id, l.(owner := to));
        if Sum(s'.locks, Owned(to)) > MAX_VE_NFTS_PER_USER then Reverted(TooManyVeNFTs)
        else if l.owner != from then Reverted(IncorrectOwner)
        else Done(s')
  }

  // ---------------------------------------------------------------------------
  // Runs
  // ---------------------------------------------------------------------------

  datatype Action =
    | Create(user: Address, amount: nat, duration: nat, autoMax: bool)
    | AddTo(user: Address, id: nat, amount: nat)
    | Extend(user: Address, id: nat, newEnd: nat)
    | Auto(user: Address, id: nat, enabled: bool)
    | Merge(user: Address, source: nat, target: nat)
    | Withdraw(user: Address, id: nat)
    | Burn(custodian: Address, id: nat, recipient: Address)
    | List(id: nat, listed: bool)
    | Transfer(furnace: Address, from: Address, to: Address, id: nat)
    | Touch

  function Execute(s: Ve, now: nat, a: Action): Outcome
    requires IsAged(s, now)
  {
    match a
    case Create(user, amount, duration, autoMax) => CreateLock(s, now, user, amount, duration, autoMax)
    case AddTo(user, id, amount) => AddToLock(s, now, user, id, amount)
    case Extend(user, id, newEnd) => ExtendLock(s, now, user, id, newEnd)
    case Auto(user, id, enabled) => SetAutoMax(s, now, user, id, enabled)
    case Merge(user, source, target) => MergeLocks(s, now, user, source, target)
    case Withdraw(user, id) => Unlock(s, now, user, id)
    case Burn(custodian, id, recipient) => BurnAndWithdraw(s, now, custodian, id, recipient)
    case List(id, listed) => SetListed(s, now, id, listed)
    case Transfer(furnace, from, to, id) => TransferLock(s, now, furnace, from, to, id)
    case Touch => Done(Checkpoint(s, now))
  }
}
