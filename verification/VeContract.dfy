/**
 The voting-escrow contract's storage and the code that updates it: the heap of scheduled times, the
 checkpoint's loop, and the operations on locks. Every method is proved to do what the accounting says,
 and a refused call to leave the storage as it was.
 */
module VeContract {
  import opened Text
  import opened SlopeSchedule
  import opened VeLocks
  import opened VeModel
  import opened VeTheorems
  import opened VeRuns
  import Heap = TimeHeap

  class VeClaim {
    var locks: seq<Lock>
    var globalSlope: nat
    var globalBias: nat
    var globalLastTs: nat
    var slopeChanges: map<nat, nat>
    var slopeTimeHeap: seq<nat>
    var slopeTimeIndex: map<nat, nat>
    var totalVeCached: nat
    var totalLockedClaim: nat
    ghost var schedule: Schedule

    constructor (now: nat)
      ensures Valid() && Value() == Deployed(now)
    {
      locks, globalSlope, globalBias, globalLastTs := [DEAD], 0, 0, now;
      slopeChanges, slopeTimeHeap, slopeTimeIndex := map[], [0], map[];
      totalVeCached, totalLockedClaim, schedule := 0, 0, [];
    }

    ghost function Value(): Ve
      reads this
    {
      Ve(locks, globalSlope, globalBias, globalLastTs, schedule, totalVeCached, totalLockedClaim)
    }

    /** The mapping holds the scheduled slopes, and the heap their times. */
    ghost predicate Valid()
      reads this
    {
      && IsSchedule(schedule) && HeapValid()
      && (forall e: nat :: Heap.At(slopeChanges, e) == SlopeAt(schedule, e))
      && (forall e: nat :: e in Heap.Times(slopeTimeHeap) <==> SlopeAt(schedule, e) > 0)
    }

    ghost predicate HeapValid()
      reads `slopeTimeHeap, `slopeTimeIndex
    {
      Heap.IsPlaced(slopeTimeHeap, slopeTimeIndex) && Heap.IsHeap(slopeTimeHeap)
    }

    // -------------------------------------------------------------------------
    // The heap
    // -------------------------------------------------------------------------

    method HeapifyUp(start: nat)
      requires 1 <= start < |slopeTimeHeap|
      requires Heap.IsPlaced(slopeTimeHeap, slopeTimeIndex) && Heap.IsHeapUpTo(slopeTimeHeap, start)
      modifies `slopeTimeHeap, `slopeTimeIndex
      ensures HeapValid() && Heap.Times(slopeTimeHeap) == old(Heap.Times(slopeTimeHeap))
    {
      hide Heap.IsPlaced, Heap.IsHeapUpTo, Heap.Times;
      var idx := start;
      var val := slopeTimeHeap[idx];
      ghost var heap, places := slopeTimeHeap, slopeTimeIndex[val := idx];
      SameIndex(slopeTimeHeap, slopeTimeIndex, idx);
      while idx > 1
        invariant 1 <= idx < |slopeTimeHeap|
        invariant heap == slopeTimeHeap[idx := val] && places == slopeTimeIndex[val := idx]
        invariant Heap.IsPlaced(heap, places) && Heap.IsHeapUpTo(heap, idx)
        invariant Heap.Times(heap) == old(Heap.Times(slopeTimeHeap))
      {
        var parent := idx / 2;
        var parentVal := slopeTimeHeap[parent];
        if parentVal <= val {
          break;
        }
        Heap.SwapKeepsPlaces(heap, places, idx, parent);
        Heap.SwapUp(heap, idx);
        heap, places := Heap.Swapped(heap, idx, parent), places[parentVal := idx][val := parent];
        slopeTimeHeap := slopeTimeHeap[idx := parentVal];
        slopeTimeIndex := slopeTimeIndex[parentVal := idx];
        idx := parent;
      }
      UpToIsHeap(heap, idx);
      slopeTimeHeap := slopeTimeHeap[idx := val];
      slopeTimeIndex := slopeTimeIndex[val := idx];
    }

    method HeapifyDown(start: nat)
      requires 1 <= start < |slopeTimeHeap|
      requires Heap.IsPlaced(slopeTimeHeap, slopeTimeIndex) && Heap.IsHeapFrom(slopeTimeHeap, start)
      modifies `slopeTimeHeap, `slopeTimeIndex
      ensures HeapValid() && Heap.Times(slopeTimeHeap) == old(Heap.Times(slopeTimeHeap))
    {
      hide Heap.IsPlaced, Heap.IsHeap, Heap.IsHeapFrom, Heap.IsSmallestChild, Heap.Times;
      var idx := start;
      var size := |slopeTimeHeap| - 1;
      var val := slopeTimeHeap[idx];
      ghost var heap, places := slopeTimeHeap, slopeTimeIndex[val := idx];
      SameIndex(slopeTimeHeap, slopeTimeIndex, idx);
      while true
        invariant |slopeTimeHeap| == size + 1 && 1 <= idx <= size
        invariant heap == slopeTimeHeap[idx := val] && places == slopeTimeIndex[val := idx]
        invariant Heap.IsPlaced(heap, places) && Heap.IsHeapFrom(heap, idx)
        invariant Heap.Times(heap) == old(Heap.Times(slopeTimeHeap))
        decreases size - idx
      {
        var left := idx * 2;
        if left > size {
          LeafIsHeap(heap, idx);
          break;
        }
        var right := left + 1;
        var smallest, smallestVal := left, slopeTimeHeap[left];
        if right <= size {
          var rightVal := slopeTimeHeap[right];
          if rightVal < smallestVal {
            smallest, smallestVal := right, rightVal;
          }
        }
        SmallestChild(heap, idx, smallest);
        if val <= smallestVal {
          FromIsHeap(heap, idx, smallest);
          break;
        }
        Heap.SwapKeepsPlaces(heap, places, idx, smallest);
        Heap.SwapDown(heap, idx, smallest);
        heap, places := Heap.Swapped(heap, idx, smallest), places[smallestVal := idx][val := smallest];
        slopeTimeHeap := slopeTimeHeap[idx := smallestVal];
        slopeTimeIndex := slopeTimeIndex[smallestVal := idx];
        idx := smallest;
      }
      slopeTimeHeap := slopeTimeHeap[idx := val];
      slopeTimeIndex := slopeTimeIndex[val := idx];
    }

    method HeapInsert(t: nat) returns (e: Option<Error>)
      requires HeapValid()
      modifies `slopeTimeHeap, `slopeTimeIndex
      ensures HeapValid()
      ensures e == (if t == 0 then Some(InvariantViolation) else None)
      ensures Heap.Times(slopeTimeHeap) == old(Heap.Times(slopeTimeHeap)) + if t == 0 then {} else {t}
    {
      hide Heap.IsPlaced, Heap.IsHeapUpTo, Heap.Times, Heap.IsHeap;
      if t == 0 {
        return Some(InvariantViolation);
      }
      if Heap.At(slopeTimeIndex, t) != 0 {
        Heap.PlacedTimes(slopeTimeHeap, slopeTimeIndex, t);
        return None;
      }
      Heap.Pushed(slopeTimeHeap, slopeTimeIndex, t);
      HasSentinel(slopeTimeHeap, slopeTimeIndex);
      slopeTimeHeap := slopeTimeHeap + [t];
      var idx := |slopeTimeHeap| - 1;
      slopeTimeIndex := slopeTimeIndex[t := idx];
      HeapifyUp(idx);
      return None;
    }

    method HeapRemove(t: nat)
      requires HeapValid()
      modifies `slopeTimeHeap, `slopeTimeIndex
      ensures HeapValid() && Heap.Times(slopeTimeHeap) == old(Heap.Times(slopeTimeHeap)) - {t}
    {
      hide Heap.IsHeapUpTo, Heap.IsHeapFrom, Heap.Times, Heap.IsHeap;
      Heap.PlacedTimes(slopeTimeHeap, slopeTimeIndex, t);
      var idx := Heap.At(slopeTimeIndex, t);
      if idx == 0 {
        return;
      }
      var lastIdx := |slopeTimeHeap| - 1;
      var lastVal := slopeTimeHeap[lastIdx];
      if idx == lastIdx {
        Heap.Popped(slopeTimeHeap, slopeTimeIndex);
        slopeTimeIndex := slopeTimeIndex[t := 0];
        slopeTimeHeap := slopeTimeHeap[..lastIdx];
        return;
      }
      Heap.Moved(slopeTimeHeap, slopeTimeIndex, idx);
      slopeTimeIndex := slopeTimeIndex[t := 0];
      slopeTimeHeap := slopeTimeHeap[idx := lastVal];
      slopeTimeIndex := slopeTimeIndex[lastVal := idx];
      slopeTimeHeap := slopeTimeHeap[..lastIdx];
      if idx > 1 && slopeTimeHeap[idx] < slopeTimeHeap[idx / 2] {
        HeapifyUp(idx);
      } else {
        HeapifyDown(idx);
      }
    }

    /** The least scheduled time, or zero. */
    method HeapMin() returns (t: nat)
      requires Valid()
      ensures t == if schedule == [] then 0 else schedule[0].at
      ensures t > 0 <==> schedule != []
    {
      MinIsFirst(schedule, slopeTimeHeap, slopeTimeIndex);
      if |slopeTimeHeap| <= 1 {
        return 0;
      }
      return slopeTimeHeap[1];
    }

    method HeapPopMin()
      requires HeapValid()
      modifies `slopeTimeHeap, `slopeTimeIndex
      ensures HeapValid()
      ensures Heap.Times(slopeTimeHeap)
           == old(Heap.Times(slopeTimeHeap)) - if |old(slopeTimeHeap)| <= 1 then {} else {old(slopeTimeHeap)[1]}
    {
      if |slopeTimeHeap| <= 1 {
        return;
      }
      HeapRemove(slopeTimeHeap[1]);
    }

    // -------------------------------------------------------------------------
    // The checkpoint
    // -------------------------------------------------------------------------

    method ApplyDecayToBias(dt: nat)
      modifies `globalBias
      ensures globalBias == Decay(old(globalBias), globalSlope, dt)
    {
      var slope, bias := globalSlope, globalBias;
      if slope == 0 {
        return;
      }
      var dtToZero := CeilDiv(bias, slope);
      if dt >= dtToZero {
        globalBias := 0;
        return;
      }
      if dt > MAX_UINT / slope {
        globalBias := 0;
        return;
      }
      var decay := slope * dt;
      globalBias := if decay >= bias then 0 else bias - decay;
    }

    method SyncTotalVeCached()
      modifies `totalVeCached
      ensures totalVeCached == CeilDiv(globalBias, SLOPE_SCALE)
    {
      totalVeCached := CeilDiv(globalBias, SLOPE_SCALE);
    }

    /** One scheduled slope is taken away, and its time out of the heap. */
    method RemoveFirst(nextTime: nat)
      requires Valid() && schedule != [] && nextTime == schedule[0].at
      modifies `globalSlope, `slopeChanges, `slopeTimeHeap, `slopeTimeIndex, `schedule
      ensures Valid() && schedule == old(schedule)[1..]
      ensures globalSlope == if old(schedule)[0].slope >= old(globalSlope) then 0
                             else old(globalSlope) - old(schedule)[0].slope
    {
      hide Heap.IsPlaced, Heap.IsHeap, Heap.Times;
      MinIsFirst(schedule, slopeTimeHeap, slopeTimeIndex);
      FirstRemoved(schedule);
      var sc := Heap.At(slopeChanges, nextTime);
      if sc != 0 {
        if sc >= globalSlope {
          globalSlope := 0;
        } else {
          globalSlope := globalSlope - sc;
        }
        slopeChanges := slopeChanges[nextTime := 0];
      }
      HeapPopMin();
      schedule := schedule[1..];
    }

    method CheckpointGlobalState(now: nat)
      requires Valid() && IsAged(Value(), now)
      modifies this
      ensures Valid() && Value() == Checkpoint(old(Value()), now)
    {
      hide Decay, CeilDiv, HeapValid, Heap.Times, ProcessDue, IsSchedule, SlopeAt;
      var t: nat := globalLastTs;
      var i := 0;
      ghost var start := Value();
      while i < MAX_SLOPE_CHANGES_PER_CALL
        invariant i <= MAX_SLOPE_CHANGES_PER_CALL && Valid()
        invariant Value() == start.(bias := globalBias, slope := globalSlope, schedule := schedule)
        invariant IsAged(Value().(lastTs := t), now)
        invariant ProcessDue(Value().(lastTs := t), now, MAX_SLOPE_CHANGES_PER_CALL - i)
               == ProcessDue(start, now, MAX_SLOPE_CHANGES_PER_CALL)
      {
        var nextTime := HeapMin();
        if nextTime == 0 || nextTime > now {
          break;
        }
        NextTurn(Value().(lastTs := t), now, MAX_SLOPE_CHANGES_PER_CALL - i);
        var dt := nextTime - t;
        if dt > 0 {
          ApplyDecayToBias(dt);
        }
        t := nextTime;
        RemoveFirst(nextTime);
        i := i + 1;
      }
      LastTurn(Value().(lastTs := t), now, MAX_SLOPE_CHANGES_PER_CALL - i);
      var head := HeapMin();
      if head == 0 || head > now {
        var dt2 := now - t;
        NoDecay(globalBias, globalSlope);
        if dt2 > 0 {
          ApplyDecayToBias(dt2);
        }
        globalLastTs := now;
      } else {
        globalLastTs := t;
      }
      SyncTotalVeCached();
    }

    // -------------------------------------------------------------------------
    // Changes of the sums
    // -------------------------------------------------------------------------

    method ApplyGlobalDelta(dSlope: int, dBias: int) returns (e: Option<Error>)
      requires Valid()
      modifies `globalSlope, `globalBias, `totalVeCached
      ensures Valid()
      ensures match GlobalDelta(old(Value()), dSlope, dBias)
        case Done(v) => e == None && Value() == v
        case Reverted(x) => e == Some(x)
    {
      hide CeilDiv;
      if dSlope > 0 {
        if globalSlope + dSlope > MAX_UINT {
          return Some(Overflow);
        }
        globalSlope := globalSlope + dSlope;
      } else if dSlope < 0 {
        if -dSlope > globalSlope {
          return Some(InvariantViolation);
        }
        globalSlope := globalSlope + dSlope;
      }
      if dBias != 0 {
        if dBias > 0 {
          if globalBias + dBias > MAX_UINT {
            return Some(Overflow);
          }
          globalBias := globalBias + dBias;
        } else {
          if -dBias > globalBias {
            return Some(InvariantViolation);
          }
          globalBias := globalBias + dBias;
        }
        SyncTotalVeCached();
      }
      return None;
    }

    method ApplySlopeChangeDelta(when: nat, delta: int) returns (e: Option<Error>)
      requires Valid()
      modifies `slopeChanges, `slopeTimeHeap, `slopeTimeIndex, `schedule
      ensures match ChangeDelta(old(Value()), when, delta)
        case Done(v) => e == None && Value() == v && Valid()
        case Reverted(x) => e == Some(x)
    {
      hide Heap.IsPlaced, Heap.IsHeap, Heap.Times, IsSchedule, Adjust;
      if delta == 0 {
        return None;
      }
      var cur := Heap.At(slopeChanges, when);
      if delta < 0 && -delta > cur {
        return Some(InvariantViolation);
      }
      if delta > 0 && cur + delta > MAX_UINT {
        return Some(Overflow);
      }
      var next := cur + delta;
      Rescheduled(schedule, when, delta);
      if next == 0 {
        slopeChanges := slopeChanges[when := 0];
        if Heap.At(slopeTimeIndex, when) != 0 {
          HeapRemove(when);
        } else {
          Heap.PlacedTimes(slopeTimeHeap, slopeTimeIndex, when);
        }
      } else {
        slopeChanges := slopeChanges[when := next];
        if Heap.At(slopeTimeIndex, when) == 0 {
          Heap.PlacedTimes(slopeTimeHeap, slopeTimeIndex, when);
          e := HeapInsert(when);
          if e != None {
            return;
          }
        } else {
          Heap.PlacedTimes(slopeTimeHeap, slopeTimeIndex, when);
          ZeroHasNoPlace(slopeTimeHeap, slopeTimeIndex);
        }
      }
      schedule := Adjust(schedule, when, delta);
      return None;
    }

    /** A lock's contribution is taken out of the schedule, and its share of the sums noted. */
    method RemoveContribution(l: Lock, dSlope: int, dBias: int) returns (e: Option<Error>, dSlope': int, dBias': int)
      requires Valid()
      modifies `slopeChanges, `slopeTimeHeap, `slopeTimeIndex, `schedule
      ensures match Take(Booked(old(Value()), dSlope, dBias), l)
        case Booked(v, s, b) => e == None && Value() == v && Valid() && dSlope' == s && dBias' == b
        case Failed(x) => e == Some(x)
    {
      hide HeapValid, SlopeAt, SlopeRemove, Adjust;
      dSlope', dBias' := dSlope, dBias;
      if l.autoMax {
        dBias' := dBias' - l.amount * SLOPE_SCALE;
        return None, dSlope', dBias';
      }
      var slope := SlopeRemove(l.amount);
      dSlope' := dSlope' - slope;
      dBias' := dBias' - slope * Remaining(l.end, globalLastTs);
      e := ApplySlopeChangeDelta(l.end, -(slope as int));
    }

    /** A lock's contribution is put into the schedule, and its share of the sums noted. */
    method AddContribution(amount: nat, end: nat, autoMax: bool, dSlope: int, dBias: int)
      returns (e: Option<Error>, dSlope': int, dBias': int)
      requires Valid()
      modifies `slopeChanges, `slopeTimeHeap, `slopeTimeIndex, `schedule
      ensures match Give(Booked(old(Value()), dSlope, dBias), amount, end, autoMax)
        case Booked(v, s, b) => e == None && Value() == v && Valid() && dSlope' == s && dBias' == b
        case Failed(x) => e == Some(x)
    {
      hide HeapValid, SlopeAt, SlopeAdd, Adjust;
      dSlope', dBias' := dSlope, dBias;
      if autoMax {
        dBias' := dBias' + amount * SLOPE_SCALE;
        return None, dSlope', dBias';
      }
      var slope := SlopeAdd(amount);
      dSlope' := dSlope' + slope;
      dBias' := dBias' + slope * Remaining(end, globalLastTs);
      e := ApplySlopeChangeDelta(end, slope);
    }

    // -------------------------------------------------------------------------
    // Operations on locks; a refused one may leave the storage half changed
    // -------------------------------------------------------------------------

    method CreateLockFor(now: nat, user: Address, amount: nat, duration: nat, autoMax: bool)
      returns (e: Option<Error>)
      requires Valid() && IsAged(Value(), now)
      modifies this
      ensures Did(CreateLock(old(Value()), now, user, amount, duration, autoMax), e)
    {
      hide HeapValid, SlopeAt, SlopeAdd, SlopeRemove, ChangeDelta, Checkpoint, GlobalDelta, IsSchedule, Sum;
      e := CreateRefused(locks, user, amount, duration, autoMax);
      if e != None {
        return;
      }
      CheckpointGlobalState(now);
      if globalLastTs != now {
        return Some(CheckpointStale);
      }
      var dSlope, dBias := 0, 0;
      e, dSlope, dBias := AddContribution(amount, now + duration, autoMax, dSlope, dBias);
      if e != None {
        return;
      }
      e := ApplyGlobalDelta(dSlope, dBias);
      if e != None {
        return;
      }
      totalLockedClaim := totalLockedClaim + amount;
      locks := locks + [Lock(user, amount, now, now + duration, autoMax, false)];
    }

    method AddToLockFor(now: nat, user: Address, id: nat, amount: nat) returns (e: Option<Error>)
      requires Valid() && IsAged(Value(), now)
      modifies this
      ensures Did(AddToLock(old(Value()), now, user, id, amount), e)
    {
      hide HeapValid, SlopeAt, SlopeAdd, SlopeRemove, ChangeDelta, Checkpoint, GlobalDelta, IsSchedule, Sum;
      e := AddToRefused(locks, now, user, id, amount);
      if e != None {
        return;
      }
      CheckpointGlobalState(now);
      if globalLastTs != now {
        return Some(CheckpointStale);
      }
      var l := locks[id];
      var dSlope: int, dBias: int := 0, 0;
      if l.autoMax {
        dBias := amount * SLOPE_SCALE;
      } else {
        dSlope := SlopeAdd(l.amount + amount) - SlopeAdd(l.amount);
        dBias := dSlope * Remaining(l.end, globalLastTs);
        e := ApplySlopeChangeDelta(l.end, dSlope);
        if e != None {
          return;
        }
      }
      e := ApplyGlobalDelta(dSlope, dBias);
      if e != None {
        return;
      }
      totalLockedClaim := totalLockedClaim + amount;
      locks := locks[id := l.(amount := l.amount + amount, start := now,
                              end := if l.autoMax then now + MAX_LOCK_DURATION else l.end)];
    }

    method ExtendLockToFor(now: nat, user: Address, id: nat, newEnd: nat) returns (e: Option<Error>)
      requires Valid() && IsAged(Value(), now)
      modifies this
      ensures Did(ExtendLock(old(Value()), now, user, id, newEnd), e)
    {
      hide HeapValid, SlopeAt, SlopeAdd, SlopeRemove, ChangeDelta, Checkpoint, GlobalDelta, IsSchedule, Sum;
      e := ExtendRefused(locks, now, user, id, newEnd);
      if e != None {
        return;
      }
      CheckpointGlobalState(now);
      var l := locks[id];
      if l.autoMax {
        locks := locks[id := l.(end := now + MAX_LOCK_DURATION, start := now)];
        return;
      }
      if globalLastTs != now {
        return Some(CheckpointStale);
      }
      var slope := SlopeAdd(l.amount);
      e := ApplyGlobalDelta(0, slope * (Remaining(newEnd, now) - Remaining(l.end, now)));
      if e != None {
        return;
      }
      e := ApplySlopeChangeDelta(l.end, -(slope as int));
      if e != None {
        return;
      }
      e := ApplySlopeChangeDelta(newEnd, slope);
      if e != None {
        return;
      }
      locks := locks[id := l.(end := newEnd, start := now)];
    }

    method SetAutoMaxFor(now: nat, user: Address, id: nat, enabled: bool) returns (e: Option<Error>)
      requires Valid() && IsAged(Value(), now)
      modifies this
      ensures Did(SetAutoMax(old(Value()), now, user, id, enabled), e)
    {
      hide HeapValid, SlopeAt, SlopeAdd, SlopeRemove, ChangeDelta, Checkpoint, GlobalDelta, IsSchedule, Sum;
      e := AutoRefused(locks, now, user, id);
      if e != None {
        return;
      }
      var l := locks[id];
      if l.autoMax == enabled && !enabled {
        return;
      }
      CheckpointGlobalState(now);
      if globalLastTs != now {
        return Some(CheckpointStale);
      }
      if l.autoMax != enabled {
        var dSlope, dBias := 0, 0;
        e, dSlope, dBias := RemoveContribution(l, dSlope, dBias);
        if e != None {
          return;
        }
        e, dSlope, dBias := AddContribution(l.amount, now + MAX_LOCK_DURATION, enabled, dSlope, dBias);
        if e != None {
          return;
        }
        e := ApplyGlobalDelta(dSlope, dBias);
        if e != None {
          return;
        }
      }
      locks := locks[id := Flipped(l, now, enabled)];
    }

    method MergeLocksFor(now: nat, user: Address, source: nat, target: nat) returns (e: Option<Error>)
      requires Valid() && IsAged(Value(), now)
      modifies this
      ensures Did(MergeLocks(old(Value()), now, user, source, target), e)
    {
      hide HeapValid, SlopeAt, SlopeAdd, SlopeRemove, ChangeDelta, Checkpoint, GlobalDelta, IsSchedule, Sum;
      e := MergeRefused(locks, now, user, source, target);
      if e != None {
        return;
      }
      CheckpointGlobalState(now);
      if globalLastTs != now {
        return Some(CheckpointStale);
      }
      var m := Merged(locks[source], locks[target], now);
      var dSlope, dBias := 0, 0;
      e, dSlope, dBias := RemoveContribution(locks[source], dSlope, dBias);
      if e != None {
        return;
      }
      e, dSlope, dBias := RemoveContribution(locks[target], dSlope, dBias);
      if e != None {
        return;
      }
      e, dSlope, dBias := AddContribution(m.amount, m.end, m.autoMax, dSlope, dBias);
      if e != None {
        return;
      }
      e := ApplyGlobalDelta(dSlope, dBias);
      if e != None {
        return;
      }
      locks := locks[target := m];
      locks := locks[source := DEAD];
    }

    method UnlockFor(now: nat, user: Address, id: nat) returns (e: Option<Error>)
      requires Valid() && IsAged(Value(), now)
      modifies this
      ensures Did(Unlock(old(Value()), now, user, id), e)
    {
      hide HeapValid, SlopeAt, SlopeAdd, SlopeRemove, ChangeDelta, Checkpoint, GlobalDelta, IsSchedule, Sum;
      e := UnlockRefused(locks, now, user, id);
      if e != None {
        return;
      }
      CheckpointGlobalState(now);
      var l := locks[id];
      if l.end > globalLastTs {
        var slope := SlopeRemove(l.amount);
        e := ApplyGlobalDelta(-(slope as int), -(slope * (l.end - globalLastTs) as int));
        if e != None {
          return;
        }
        e := ApplySlopeChangeDelta(l.end, -(slope as int));
        if e != None {
          return;
        }
      }
      e := Bury(id);
    }

    method Bury(id: nat) returns (e: Option<Error>)
      requires Valid() && id < |locks|
      modifies `locks, `totalLockedClaim
      ensures Did(Buried(Done(old(Value())), id, old(locks)[id].amount), e)
    {
      hide HeapValid, SlopeAt, IsSchedule;
      var amount := locks[id].amount;
      if totalLockedClaim < amount {
        return Some(Overflow);
      }
      totalLockedClaim := totalLockedClaim - amount;
      locks := locks[id := DEAD];
      return None;
    }

    method FurnaceBurnAndWithdraw(now: nat, custodian: Address, id: nat, recipient: Address) returns (e: Option<Error>)
      requires Valid() && IsAged(Value(), now)
      modifies this
      ensures Did(BurnAndWithdraw(old(Value()), now, custodian, id, recipient), e)
    {
      hide HeapValid, SlopeAt, SlopeAdd, SlopeRemove, ChangeDelta, Checkpoint, GlobalDelta, IsSchedule, Sum;
      e := BurnRefused(locks, custodian, id, recipient);
      if e != None {
        return;
      }
      CheckpointGlobalState(now);
      var l := locks[id];
      var dSlope, dBias := 0, 0;
      if l.autoMax || l.end > globalLastTs {
        e, dSlope, dBias := RemoveContribution(l, dSlope, dBias);
        if e != None {
          return;
        }
      }
      e := ApplyGlobalDelta(dSlope, dBias);
      if e != None {
        return;
      }
      e := Bury(id);
    }

    method SetListedFor(now: nat, id: nat, listed: bool) returns (e: Option<Error>)
      requires Valid()
      modifies `locks
      ensures Did(SetListed(old(Value()), now, id, listed), e)
    {
      hide HeapValid, SlopeAt, IsSchedule;
      var l := LockOf(locks, id);
      if l.owner == NOBODY {
        return Some(InvalidToken);
      }
      if listed {
        if !l.autoMax && now >= l.end {
          return Some(LockExpired);
        }
        if l.listed {
          return Some(LockListedOrFrozen);
        }
      }
      locks := locks[id := l.(listed := listed)];
      return None;
    }

    method TransferFor(now: nat, furnace: Address, from: Address, to: Address, id: nat) returns (e: Option<Error>)
      requires Valid() && IsAged(Value(), now)
      modifies this
      ensures Did(TransferLock(old(Value()), now, furnace, from, to, id), e)
    {
      hide HeapValid, SlopeAt, SlopeAdd, SlopeRemove, ChangeDelta, Checkpoint, GlobalDelta, IsSchedule, Sum;
      if to == NOBODY {
        return Some(ZeroAddress);
      }
      var l := LockOf(locks, id);
      if l.owner == NOBODY {
        return Some(InvalidToken);
      }
      CheckpointGlobalState(now);
      if globalLastTs != now {
        return Some(CheckpointStale);
      }
      if to != furnace {
        return Some(MustTransferToFurnace);
      }
      if l.listed {
        return Some(LockListedOrFrozen);
      }
      locks := locks[id := l.(owner := to)];
      if Sum(locks, Owned(to)) > MAX_VE_NFTS_PER_USER {
        return Some(TooManyVeNFTs);
      }
      if l.owner != from {
        return Some(IncorrectOwner);
      }
      return None;
    }

    /** The operation ended as the accounting says: refused for the same reason, or in the same state. */
    ghost predicate Did(o: Outcome, e: Option<Error>)
      reads this
    {
      match o
      case Done(v) => e == None && Value() == v && Valid()
      case Reverted(x) => e == Some(x)
    }

    // -------------------------------------------------------------------------
    // Transactions
    // -------------------------------------------------------------------------

    method Dispatch(now: nat, a: Action) returns (e: Option<Error>)
      requires Valid() && IsAged(Value(), now)
      modifies this
      ensures Did(VeModel.Execute(old(Value()), now, a), e)
    {
      hide Valid, Checkpoint, CreateLock, AddToLock, ExtendLock, SetAutoMax, MergeLocks, Unlock, BurnAndWithdraw,
        SetListed, TransferLock, IsAged;
      match a {
        case Create(user, amount, duration, autoMax) => e := CreateLockFor(now, user, amount, duration, autoMax);
        case AddTo(user, id, amount) => e := AddToLockFor(now, user, id, amount);
        case Extend(user, id, newEnd) => e := ExtendLockToFor(now, user, id, newEnd);
        case Auto(user, id, enabled) => e := SetAutoMaxFor(now, user, id, enabled);
        case Merge(user, source, target) => e := MergeLocksFor(now, user, source, target);
        case Withdraw(user, id) => e := UnlockFor(now, user, id);
        case Burn(custodian, id, recipient) => e := FurnaceBurnAndWithdraw(now, custodian, id, recipient);
        case List(id, listed) => e := SetListedFor(now, id, listed);
        case Transfer(furnace, from, to, id) => e := TransferFor(now, furnace, from, to, id);
        case Touch =>
          CheckpointGlobalState(now);
          e := None;
      }
    }

    /** A call from outside: when it is refused, the storage is as it was. */
    method Transact(now: nat, a: Action) returns (e: Option<Error>)
      requires Valid() && IsAged(Value(), now)
      modifies this
      ensures Valid()
      ensures match VeModel.Execute(old(Value()), now, a)
        case Done(v) => e == None && Value() == v
        case Reverted(x) => e == Some(x) && Value() == old(Value())
    {
      hide Checkpoint, VeModel.Execute, IsAged, HeapValid, IsSchedule, SlopeAt;
      var locks0, slope0, bias0, lastTs0, cached0 := locks, globalSlope, globalBias, globalLastTs, totalVeCached;
      var changes0, heap0, index0, total0 := slopeChanges, slopeTimeHeap, slopeTimeIndex, totalLockedClaim;
      ghost var schedule0 := schedule;
      label before:
      e := Dispatch(now, a);
      if e != None {
        locks, globalSlope, globalBias, globalLastTs, totalVeCached := locks0, slope0, bias0, lastTs0, cached0;
        slopeChanges, slopeTimeHeap, slopeTimeIndex, totalLockedClaim := changes0, heap0, index0, total0;
        schedule := schedule0;
      }
    }
  }

  /** Calls from outside, one after the other, take the deployed contract through exactly the modelled run. */
  method RunCalls(start: nat, run: seq<Call>) returns (contract: VeClaim)
    requires IsRun(start, run)
    ensures fresh(contract) && contract.Valid() && contract.Value() == Reached(start, run)
  {
    hide Sound, VeModel.Execute, Next;
    contract := new VeClaim(start);
    DeployedIsSound(start);
    var clock: nat := start;
    ghost var dust: nat := 0;
    for i := 0 to |run|
      invariant fresh(contract) && contract.Valid()
      invariant IsRun(clock, run[i..]) && Sound(contract.Value(), clock, dust)
      invariant After(contract.Value(), clock, dust, run[i..]) == Reached(start, run)
    {
      assert run[i..][1..] == run[i + 1..];
      var Call(now, a) := run[i];
      NextCall(contract.Value(), clock, dust, run[i]);
      var e := contract.Transact(now, a);
      clock, dust := now, dust + Takes(a);
    }
  }

  lemma NextCall(s: Ve, clock: nat, dust: nat, call: Call)
    requires Sound(s, clock, dust) && clock <= call.now
    ensures IsAged(s, call.now)
    ensures var o := VeModel.Execute(s, call.now, call.action);
      Next(s, clock, dust, call) == if o.Done? then o.ve else s
  {
    SoundLater(s, clock, call.now, dust);
    ExecuteSound(s, call.now, dust, call.action);
  }

  // ---------------------------------------------------------------------------
  // Facts about the heap that its loops need
  // ---------------------------------------------------------------------------

  /** Writing a time's place again changes nothing. */
  lemma SameIndex(heap: seq<nat>, places: Heap.Places, idx: nat)
    requires Heap.IsPlaced(heap, places) && 1 <= idx < |heap|
    ensures places[heap[idx] := idx] == places && heap[idx := heap[idx]] == heap
  {
    assert Heap.At(places, heap[idx]) == idx;
  }

  lemma HasSentinel(heap: seq<nat>, places: Heap.Places)
    requires Heap.IsPlaced(heap, places)
    ensures |heap| > 0
  {
  }

  lemma UpToIsHeap(heap: seq<nat>, k: nat)
    requires Heap.IsHeapUpTo(heap, k) && 1 <= k < |heap| && (k > 1 ==> heap[k / 2] <= heap[k])
    ensures Heap.IsHeap(heap)
  {
  }

  lemma SmallestChild(heap: seq<nat>, k: nat, c: nat)
    requires k >= 1 && 2 * k < |heap| && c < |heap| && (c == 2 * k || c == 2 * k + 1)
    requires heap[c] <= heap[2 * k] && (2 * k + 1 < |heap| ==> heap[c] <= heap[2 * k + 1])
    ensures Heap.IsSmallestChild(heap, k, c)
  {
  }

  lemma LeafIsHeap(heap: seq<nat>, k: nat)
    requires Heap.IsHeapFrom(heap, k) && k >= 1 && 2 * k >= |heap|
    ensures Heap.IsHeap(heap)
  {
  }

  lemma FromIsHeap(heap: seq<nat>, k: nat, c: nat)
    requires Heap.IsHeapFrom(heap, k) && 1 <= k < |heap| && Heap.IsSmallestChild(heap, k, c) && heap[k] <= heap[c]
    ensures Heap.IsHeap(heap)
  {
  }

  /** The root of the heap is the first scheduled time. */
  lemma MinIsFirst(p: Schedule, heap: seq<nat>, places: Heap.Places)
    requires IsSchedule(p) && Heap.IsPlaced(heap, places) && Heap.IsHeap(heap)
    requires forall e: nat :: e in Heap.Times(heap) <==> SlopeAt(p, e) > 0
    ensures p == [] <==> |heap| <= 1
    ensures p != [] ==> heap[1] == p[0].at > 0
  {
    if |heap| > 1 {
      assert heap[1] in Heap.Times(heap);
      FirstIsLeast(p, heap[1]);
      assert p[0].at in Heap.Times(heap);
      var i :| 1 <= i < |heap| && heap[i] == p[0].at;
      Heap.RootIsLeast(heap, i);
    } else {
      assert Heap.Times(heap) == {};
      assert p != [] ==> SlopeAt(p, p[0].at) > 0;
    }
  }

  lemma ZeroHasNoPlace(heap: seq<nat>, places: Heap.Places)
    requires Heap.IsPlaced(heap, places)
    ensures Heap.At(places, 0) == 0
  {
  }

  // ---------------------------------------------------------------------------
  // Facts about the schedule that the methods need
  // ---------------------------------------------------------------------------

  lemma FirstRemoved(p: Schedule)
    requires IsSchedule(p) && p != []
    ensures IsSchedule(p[1..])
    ensures forall e: nat :: SlopeAt(p[1..], e) == if e == p[0].at then 0 else SlopeAt(p, e)
  {
    NothingBefore(p[1..], p[0].at);
  }

  lemma Rescheduled(p: Schedule, when: nat, delta: int)
    requires IsSchedule(p) && SlopeAt(p, when) + delta >= 0
    ensures IsSchedule(Adjust(p, when, delta))
    ensures forall e: nat :: SlopeAt(Adjust(p, when, delta), e) == SlopeAt(p, e) + if e == when then delta else 0
  {
    AdjustIsSchedule(p, when, delta);
    forall e: nat ensures SlopeAt(Adjust(p, when, delta), e) == SlopeAt(p, e) + if e == when then delta else 0 {
      AdjustAt(p, when, delta, e);
    }
  }

  lemma NextTurn(s: Ve, now: nat, turns: nat)
    requires IsAged(s, now) && turns > 0 && IsDue(s, now)
    ensures s.lastTs < s.schedule[0].at && IsAged(ProcessFirst(s), now)
    ensures ProcessDue(s, now, turns) == ProcessDue(ProcessFirst(s), now, turns - 1)
  {
    hide Decay;
  }

  lemma LastTurn(s: Ve, now: nat, turns: nat)
    requires IsAged(s, now) && (turns == 0 || !IsDue(s, now))
    ensures ProcessDue(s, now, turns) == s
  {
  }

  lemma NoDecay(bias: nat, slope: nat)
    ensures Decay(bias, slope, 0) == bias
  {
  }
}
