/**
 The keeper process from its fatal handlers and signal handlers to its exit, as a state machine
 over event-loop turns.

 The environment chooses: when a fatal handler is triggered and whether its logging throws, when an
 alert settles, which signal arrives, when the command finishes, how time passes. Timers fire in
 due order. `lag` bounds how late the event loop may run a due timer or a queued immediate.
 */
module KeeperProcess {
  import opened Text

  const FATAL_ALERT_TIMEOUT_MS := 2000
  const FATAL_HARD_DEADLINE_MS := FATAL_ALERT_TIMEOUT_MS + 500
  const SHUTDOWN_GRACE_MS := 1500
  const SHUTDOWN_HARD_DEADLINE_MS := 5000
  const SIGINT_CODE := 130
  const SIGTERM_CODE := 143

  datatype Timer =
    | FatalDeadline(id: nat, due: nat)
    | Grace(code: int, due: nat)
    | HardKill(code: int, due: nat)

  /** A queued `setImmediate` exit of the fatal handler `id`. */
  datatype Immediate = Immediate(id: nat, queuedAt: nat)

  datatype Shutdown = Shutdown(code: int, at: nat)

  datatype Cause = ByImmediate(id: nat) | ByDeadline(id: nat) | ByGrace | ByHardKill | ByItself

  datatype Exit = Exit(code: int, at: nat, cause: Cause)

  datatype Event =
    | AlertSettled(id: nat, at: nat)
    | LoggingFailed(id: nat, at: nat)
    | Released(at: nat)
    | Exited(code: int, at: nat)

  /** `triggers[id]` is when the fatal handler `id` was entered; `pending` are the unsettled alerts. */
  datatype State = State(
    now: nat,
    triggers: seq<nat>,
    pending: set<nat>,
    timers: set<Timer>,
    immediates: seq<Immediate>,
    shutdown: Option<Shutdown>,
    exitCode: int,
    finished: bool,
    history: seq<Event>,
    exited: Option<Exit>)

  const BOOT := State(0, [], {}, {}, [], None, 0, false, [], None)

  // ---------------------------------------------------------------------------
  // Handlers
  // ---------------------------------------------------------------------------

  function Record(s: State, e: Event): State { s.(history := s.history + [e]) }

  function Leave(s: State, code: int, cause: Cause): State {
    Record(s, Exited(code, s.now)).(exited := Some(Exit(code, s.now, cause)))
  }

  predicate IsDeadlineOf(t: Timer, id: nat) { t.FatalDeadline? && t.id == id }

  /** `exitNow`: the handler's deadline is cleared and its exit queued. */
  function ExitNow(s: State, id: nat): State {
    s.(timers := (set t | t in s.timers && !IsDeadlineOf(t, id)),
       immediates := s.immediates + [Immediate(id, s.now)])
  }

  /** `fatalExit`: the deadline is armed first; logging and the alert's start may throw. */
  function FatalExit(s: State, throws: bool): State {
    var id := |s.triggers|;
    var armed := s.(
      triggers := s.triggers + [s.now],
      timers := s.timers + {FatalDeadline(id, s.now + FATAL_HARD_DEADLINE_MS)},
      exitCode := 1);
    if throws then ExitNow(Record(armed, LoggingFailed(id, s.now)), id)
    else armed.(pending := armed.pending + {id})
  }

  function AlertSettles(s: State, id: nat): State {
    ExitNow(Record(s.(pending := s.pending - {id}), AlertSettled(id, s.now)), id)
  }

  function Cleanup(s: State): State { Record(s, Released(s.now)) }

  /** `gracefulExit`: only the first signal arms the two timers. */
  function GracefulExit(s: State, code: int): State {
    if s.shutdown.Some? then s
    else s.(
      shutdown := Some(Shutdown(code, s.now)),
      timers := s.timers + {HardKill(code, s.now + SHUTDOWN_HARD_DEADLINE_MS), Grace(code, s.now + SHUTDOWN_GRACE_MS)})
  }

  function TimerFires(s: State, t: Timer): State {
    var s' := s.(timers := s.timers - {t});
    match t
    case FatalDeadline(id, _) => Leave(s', 1, ByDeadline(id))
    case Grace(code, _) => Leave(Cleanup(s'), code, ByGrace)
    case HardKill(code, _) => Leave(Cleanup(s'), code, ByHardKill)
  }

  function ImmediateRuns(s: State): State
    requires s.immediates != []
  {
    Leave(s.(immediates := s.immediates[1..]), 1, ByImmediate(s.immediates[0].id))
  }

  /** The command ends; `finally` releases the lock. */
  function CommandEnds(s: State): State { Cleanup(s).(finished := true) }

  // ---------------------------------------------------------------------------
  // Runs
  // ---------------------------------------------------------------------------

  datatype Action =
    | Trigger(throws: bool)
    | Settle(id: nat)
    | Fire(t: Timer)
    | RunImmediate
    | Signal(code: int)
    | Finish
    | Drain
    | Pass(d: nat)

  /**
   Nothing keeps the event loop alive: no pending command, for the lock's heartbeat timer is referenced
   until the lock is released, no awaited alert, no queued exit, and no fatal deadline. The shutdown
   timers are unreferenced.
   */
  predicate LoopIsEmpty(s: State) {
    s.finished && s.immediates == [] && s.pending == {} && forall t | t in s.timers :: !t.FatalDeadline?
  }

  ghost predicate Enabled(s: State, a: Action, lag: nat) {
    s.exited.None? &&
    match a
    case Trigger(_) => true
    case Settle(id) => id in s.pending
    case Fire(t) => t in s.timers && t.due <= s.now && forall u | u in s.timers :: t.due <= u.due
    case RunImmediate => s.immediates != []
    case Signal(code) => IsSignalCode(code)
    case Finish => !s.finished
    case Drain => LoopIsEmpty(s)
    case Pass(d) =>
      && d > 0
      && (forall t | t in s.timers :: s.now + d <= t.due + lag)
      && (forall i | i in s.immediates :: s.now + d <= i.queuedAt + lag)
  }

  ghost function Apply(s: State, a: Action, lag: nat): State
    requires Enabled(s, a, lag)
  {
    match a
    case Trigger(throws) => FatalExit(s, throws)
    case Settle(id) => AlertSettles(s, id)
    case Fire(t) => TimerFires(s, t)
    case RunImmediate => ImmediateRuns(s)
    case Signal(code) => GracefulExit(s, code)
    case Finish => CommandEnds(s)
    case Drain => Leave(s, s.exitCode, ByItself)
    case Pass(d) => s.(now := s.now + d)
  }

  ghost predicate IsRun(s: State, run: seq<Action>, lag: nat)
    decreases |run|
  {
    run == [] || (Enabled(s, run[0], lag) && IsRun(Apply(s, run[0], lag), run[1..], lag))
  }

  ghost function After(s: State, run: seq<Action>, lag: nat): State
    requires IsRun(s, run, lag)
    decreases |run|
  {
    if run == [] then s else After(Apply(s, run[0], lag), run[1..], lag)
  }

  // ---------------------------------------------------------------------------
  // The handlers over the process's variables
  // ---------------------------------------------------------------------------

  class Keeper {
    var now: nat
    var triggers: seq<nat>
    var pending: set<nat>
    var timers: set<Timer>
    var immediates: seq<Immediate>
    var shutdown: Option<Shutdown>
    var exitCode: int
    var finished: bool
    var history: seq<Event>
    var exited: Option<Exit>

    constructor ()
      ensures Value() == BOOT
    {
      now, triggers, pending, timers, immediates := 0, [], {}, {}, [];
      shutdown, exitCode, finished, history, exited := None, 0, false, [], None;
    }

    function Value(): State
      reads this
    {
      State(now, triggers, pending, timers, immediates, shutdown, exitCode, finished, history, exited)
    }

    method OnFatal(throws: bool)
      modifies this
      ensures Value() == FatalExit(old(Value()), throws)
    {
      var id := |triggers|;
      triggers := triggers + [now];
      timers := timers + {FatalDeadline(id, now + FATAL_HARD_DEADLINE_MS)};
      if throws {
        history := history + [LoggingFailed(id, now)];
        QueueExit(id);
      } else {
        pending := pending + {id};
      }
      exitCode := 1;
    }

    method QueueExit(id: nat)
      modifies this
      ensures Value() == ExitNow(old(Value()), id)
    {
      timers := set t | t in timers && !IsDeadlineOf(t, id);
      immediates := immediates + [Immediate(id, now)];
    }

    method OnAlertSettled(id: nat)
      modifies this
      ensures Value() == AlertSettles(old(Value()), id)
    {
      pending := pending - {id};
      history := history + [AlertSettled(id, now)];
      QueueExit(id);
    }

    method Release()
      modifies this
      ensures Value() == Cleanup(old(Value()))
    {
      history := history + [Released(now)];
    }

    method ProcessExit(code: int, cause: Cause)
      modifies this
      ensures Value() == Leave(old(Value()), code, cause)
    {
      history := history + [Exited(code, now)];
      exited := Some(Exit(code, now, cause));
    }

    method OnSignal(code: int)
      modifies this
      ensures Value() == GracefulExit(old(Value()), code)
    {
      if shutdown.Some? {
        return;
      }
      shutdown := Some(Shutdown(code, now));
      timers := timers + {HardKill(code, now + SHUTDOWN_HARD_DEADLINE_MS)};
      timers := timers + {Grace(code, now + SHUTDOWN_GRACE_MS)};
      assert timers == old(timers)
        + {HardKill(code, now + SHUTDOWN_HARD_DEADLINE_MS), Grace(code, now + SHUTDOWN_GRACE_MS)};
    }

    method OnTimer(t: Timer)
      modifies this
      ensures Value() == TimerFires(old(Value()), t)
    {
      timers := timers - {t};
      match t {
        case FatalDeadline(id, _) =>
          ProcessExit(1, ByDeadline(id));
        case Grace(code, _) =>
          Release();
          ProcessExit(code, ByGrace);
        case HardKill(code, _) =>
          Release();
          ProcessExit(code, ByHardKill);
      }
    }

    method OnImmediate()
      requires immediates != []
      modifies this
      ensures Value() == ImmediateRuns(old(Value()))
    {
      var id := immediates[0].id;
      immediates := immediates[1..];
      ProcessExit(1, ByImmediate(id));
    }

    method OnCommandEnd()
      modifies this
      ensures Value() == CommandEnds(old(Value()))
    {
      Release();
      finished := true;
    }

    /** One turn of the event loop: the handler of the action that the environment chose. */
    method Turn(a: Action, ghost lag: nat)
      requires Enabled(Value(), a, lag)
      modifies this
      ensures Value() == Apply(old(Value()), a, lag)
    {
      match a {
        case Trigger(throws) => OnFatal(throws);
        case Settle(id) => OnAlertSettled(id);
        case Fire(t) => OnTimer(t);
        case RunImmediate => OnImmediate();
        case Signal(code) => OnSignal(code);
        case Finish => OnCommandEnd();
        case Drain => ProcessExit(exitCode, ByItself);
        case Pass(d) => now := now + d;
      }
    }
  }

  // ---------------------------------------------------------------------------
  // The invariant
  // ---------------------------------------------------------------------------

  function DeadlineOf(s: State, id: nat): Timer
    requires id < |s.triggers|
  {
    FatalDeadline(id, s.triggers[id] + FATAL_HARD_DEADLINE_MS)
  }

  ghost predicate IsQueued(s: State, id: nat) { exists i | i in s.immediates :: i.id == id }

  /** A fatal handler either awaits its alert under its armed deadline, or has queued its exit. */
  ghost predicate FatalSound(s: State) {
    && (forall id: nat | id < |s.triggers| :: id in s.pending || IsQueued(s, id))
    && (forall t | t in s.timers && t.FatalDeadline? ::
          t.id < |s.triggers| && t == DeadlineOf(s, t.id) && t.id in s.pending)
    && (forall id | id in s.pending :: id < |s.triggers| && DeadlineOf(s, id) in s.timers)
  }

  /** A queued exit follows the settling of its alert or the failure of its logging. */
  ghost predicate QueueSound(s: State) {
    forall i | i in s.immediates ::
      i.id < |s.triggers| && i.queuedAt <= s.now
      && (AlertSettled(i.id, i.queuedAt) in s.history || LoggingFailed(i.id, i.queuedAt) in s.history)
  }

  predicate IsSignalCode(code: int) { code == SIGINT_CODE || code == SIGTERM_CODE }

  /** A release of the lock was attempted. */
  ghost predicate WasReleased(s: State) { exists at: nat | at <= s.now :: Released(at) in s.history }

  /** Before a signal there is no shutdown timer; after one there are both, until the exit. */
  ghost predicate ShutdownSound(s: State) {
    match s.shutdown
    case None => forall t | t in s.timers :: t.FatalDeadline?
    case Some(sd) =>
      && sd.at <= s.now && IsSignalCode(sd.code)
      && Grace(sd.code, sd.at + SHUTDOWN_GRACE_MS) in s.timers
      && forall t | t in s.timers && !t.FatalDeadline? ::
           t == Grace(sd.code, sd.at + SHUTDOWN_GRACE_MS) || t == HardKill(sd.code, sd.at + SHUTDOWN_HARD_DEADLINE_MS)
  }

  ghost predicate TimeSound(s: State, lag: nat) {
    && (forall id: nat | id < |s.triggers| :: s.triggers[id] <= s.now)
    && (forall t | t in s.timers :: s.now <= t.due + lag)
    && (forall i | i in s.immediates :: s.now <= i.queuedAt + lag)
    && (forall i | i in s.immediates && i.id < |s.triggers| ::
          i.queuedAt <= s.triggers[i.id] + FATAL_HARD_DEADLINE_MS + lag)
    && (s.triggers != [] ==> s.exitCode == 1)
    && (s.triggers == [] ==> s.exitCode == 0)
  }

  /** What holds after every step of a process that has not exited. */
  ghost predicate Running(s: State, lag: nat) {
    && s.exited.None? && FatalSound(s) && QueueSound(s) && ShutdownSound(s) && TimeSound(s, lag)
    && (s.finished ==> WasReleased(s))
  }

  /** What is known of an exit from how it came about. */
  ghost predicate ExitSound(s: State, lag: nat) {
    s.exited.Some? &&
    var x := s.exited.value;
    && x.at == s.now && |s.history| > 0 && s.history[|s.history| - 1] == Exited(x.code, x.at)
    && (forall id: nat | id < |s.triggers| :: x.at <= s.triggers[id] + FATAL_HARD_DEADLINE_MS + 2 * lag)
    && (s.shutdown.Some? ==>
          IsSignalCode(s.shutdown.value.code) && x.at <= s.shutdown.value.at + SHUTDOWN_GRACE_MS + lag)
    && match x.cause
       case ByImmediate(id) =>
         && x.code == 1 && id < |s.triggers|
         && exists at: nat | at <= x.at :: AlertSettled(id, at) in s.history || LoggingFailed(id, at) in s.history
       case ByDeadline(id) =>
         x.code == 1 && id < |s.triggers| && x.at >= s.triggers[id] + FATAL_HARD_DEADLINE_MS
       case ByGrace =>
         && s.shutdown.Some? && x.code == s.shutdown.value.code && x.at >= s.shutdown.value.at + SHUTDOWN_GRACE_MS
         && |s.history| > 1 && s.history[|s.history| - 2] == Released(x.at)
       case ByHardKill => false
       case ByItself => x.code == 0 && s.triggers == [] && s.finished && WasReleased(s)
  }

  ghost predicate Sound(s: State, lag: nat) { Running(s, lag) || ExitSound(s, lag) }

  // ---------------------------------------------------------------------------
  // Every step keeps it
  // ---------------------------------------------------------------------------

  lemma BootIsSound(lag: nat)
    ensures Running(BOOT, lag)
  {
  }

  /** What a run has recorded stays recorded. */
  lemma StillReleased(s: State, s': State)
    requires WasReleased(s) && s.history <= s'.history && s.now <= s'.now
    ensures WasReleased(s')
  {
    var at: nat :| at <= s.now && Released(at) in s.history;
    assert Released(at) in s'.history;
  }

  lemma TriggerKeepsFatal(s: State, throws: bool)
    requires FatalSound(s)
    ensures FatalSound(FatalExit(s, throws))
  {
    var s' := FatalExit(s, throws);
    var id := |s.triggers|;
    assert forall k: nat | k < id :: DeadlineOf(s', k) == DeadlineOf(s, k);
    if throws {
      assert Immediate(id, s.now) in s'.immediates;
    }
    forall k: nat | k < |s'.triggers|
      ensures k in s'.pending || IsQueued(s', k)
    {
      if k < id && IsQueued(s, k) {
        var i :| i in s.immediates && i.id == k;
        assert i in s'.immediates;
      }
    }
  }

  lemma TriggerStep(s: State, throws: bool, lag: nat)
    requires Running(s, lag)
    ensures Running(FatalExit(s, throws), lag)
  {
    hide FatalSound, WasReleased;
    var s' := FatalExit(s, throws);
    TriggerKeepsFatal(s, throws);
    assert forall k: nat | k < |s.triggers| :: s'.triggers[k] == s.triggers[k];
    if throws {
      assert LoggingFailed(|s.triggers|, s.now) in s'.history;
    }
    if s.finished {
      StillReleased(s, s');
    }
  }

  lemma SettleStep(s: State, id: nat, lag: nat)
    requires Running(s, lag) && id in s.pending
    ensures Running(AlertSettles(s, id), lag)
  {
    var s' := AlertSettles(s, id);
    var mine := Immediate(id, s.now);
    assert mine in s'.immediates && AlertSettled(id, s.now) in s'.history;
    assert IsQueued(s', id);
    assert DeadlineOf(s, id) in s.timers;
    forall k: nat | k < |s'.triggers|
      ensures k in s'.pending || IsQueued(s', k)
    {
      if IsQueued(s, k) {
        var i :| i in s.immediates && i.id == k;
        assert i in s'.immediates;
      }
    }
  }

  lemma SignalStep(s: State, code: int, lag: nat)
    requires Running(s, lag) && IsSignalCode(code)
    ensures Running(GracefulExit(s, code), lag)
  {
    var s' := GracefulExit(s, code);
    assert forall k: nat | k < |s.triggers| ::
      DeadlineOf(s', k) == DeadlineOf(s, k) && (IsQueued(s', k) <==> IsQueued(s, k));
  }

  lemma FinishStep(s: State, lag: nat)
    requires Running(s, lag)
    ensures Running(CommandEnds(s), lag)
  {
    var s' := CommandEnds(s);
    assert Released(s.now) in s'.history;
    assert forall k: nat | k < |s.triggers| ::
      DeadlineOf(s', k) == DeadlineOf(s, k) && (IsQueued(s', k) <==> IsQueued(s, k));
  }

  lemma PassStep(s: State, d: nat, lag: nat)
    requires Running(s, lag) && Enabled(s, Pass(d), lag)
    ensures Running(s.(now := s.now + d), lag)
  {
    var s' := s.(now := s.now + d);
    assert forall k: nat | k < |s.triggers| ::
      DeadlineOf(s', k) == DeadlineOf(s, k) && (IsQueued(s', k) <==> IsQueued(s, k));
  }

  /** While the process runs, no fatal handler is older than its deadline and two lags. */
  lemma FatalBound(s: State, id: nat, lag: nat)
    requires Running(s, lag) && id < |s.triggers|
    ensures s.now <= s.triggers[id] + FATAL_HARD_DEADLINE_MS + 2 * lag
    ensures DeadlineOf(s, id) in s.timers || IsQueued(s, id)
  {
    if id in s.pending {
      assert DeadlineOf(s, id) in s.timers;
    } else {
      var i :| i in s.immediates && i.id == id;
      assert i.queuedAt <= s.triggers[i.id] + FATAL_HARD_DEADLINE_MS + lag;
    }
  }

  /** While the process runs, a shutdown is no older than its grace period and one lag. */
  lemma ShutdownBound(s: State, lag: nat)
    requires Running(s, lag) && s.shutdown.Some?
    ensures s.now <= s.shutdown.value.at + SHUTDOWN_GRACE_MS + lag
  {
    assert Grace(s.shutdown.value.code, s.shutdown.value.at + SHUTDOWN_GRACE_MS) in s.timers;
  }

  lemma Bounds(s: State, lag: nat)
    requires Running(s, lag)
    ensures forall id: nat | id < |s.triggers| :: s.now <= s.triggers[id] + FATAL_HARD_DEADLINE_MS + 2 * lag
    ensures s.shutdown.Some? ==> s.now <= s.shutdown.value.at + SHUTDOWN_GRACE_MS + lag
  {
    forall id: nat | id < |s.triggers|
      ensures s.now <= s.triggers[id] + FATAL_HARD_DEADLINE_MS + 2 * lag
    {
      FatalBound(s, id, lag);
    }
    if s.shutdown.Some? {
      ShutdownBound(s, lag);
    }
  }

  lemma ImmediateStep(s: State, lag: nat)
    requires Running(s, lag) && s.immediates != []
    ensures ExitSound(ImmediateRuns(s), lag)
  {
    var s' := ImmediateRuns(s);
    var i := s.immediates[0];
    Bounds(s, lag);
    assert i in s.immediates;
    if AlertSettled(i.id, i.queuedAt) in s.history {
      assert AlertSettled(i.id, i.queuedAt) in s'.history;
    } else {
      assert LoggingFailed(i.id, i.queuedAt) in s'.history;
    }
  }

  /** The hard kill never fires: the grace timer is due before it, and its callback exits. */
  lemma HardKillNeverFires(s: State, t: Timer, lag: nat)
    requires Running(s, lag) && Enabled(s, Fire(t), lag)
    ensures !t.HardKill?
  {
    assert s.shutdown.Some? ==>
      Grace(s.shutdown.value.code, s.shutdown.value.at + SHUTDOWN_GRACE_MS) in s.timers;
  }

  lemma FireStep(s: State, t: Timer, lag: nat)
    requires Running(s, lag) && Enabled(s, Fire(t), lag)
    ensures ExitSound(TimerFires(s, t), lag)
  {
    Bounds(s, lag);
    HardKillNeverFires(s, t, lag);
    assert t.FatalDeadline? ==> t == DeadlineOf(s, t.id);
  }

  lemma DrainStep(s: State, lag: nat)
    requires Running(s, lag) && LoopIsEmpty(s)
    ensures ExitSound(Leave(s, s.exitCode, ByItself), lag)
  {
    Bounds(s, lag);
    if s.triggers != [] {
      FatalBound(s, 0, lag);
    }
  }

  lemma StepIsSound(s: State, a: Action, lag: nat)
    requires Running(s, lag) && Enabled(s, a, lag)
    ensures Sound(Apply(s, a, lag), lag)
  {
    hide Running, ExitSound;
    match a {
      case Trigger(throws) => TriggerStep(s, throws, lag);
      case Settle(id) => SettleStep(s, id, lag);
      case Fire(t) => FireStep(s, t, lag);
      case RunImmediate => ImmediateStep(s, lag);
      case Signal(code) => SignalStep(s, code, lag);
      case Finish => FinishStep(s, lag);
      case Drain => DrainStep(s, lag);
      case Pass(d) => PassStep(s, d, lag);
    }
  }

  lemma {:induction false} RunIsSound(s: State, run: seq<Action>, lag: nat)
    requires Sound(s, lag) && IsRun(s, run, lag)
    ensures Sound(After(s, run, lag), lag)
    decreases |run|
  {
    hide Running, ExitSound, Apply;
    if run != [] {
      ExitedIsFinal(s, run[0], lag);
      StepIsSound(s, run[0], lag);
      RunIsSound(Apply(s, run[0], lag), run[1..], lag);
    }
  }

  /** Nothing happens after the exit. */
  lemma ExitedIsFinal(s: State, a: Action, lag: nat)
    requires Sound(s, lag) && Enabled(s, a, lag)
    ensures Running(s, lag)
  {
  }

  // ---------------------------------------------------------------------------
  // Over every run
  // ---------------------------------------------------------------------------

  /**
   In every run, from a fatal trigger until the exit the handler's deadline is armed or its exit is
   queued; and the exit comes at most the deadline and two lags after the trigger.
   */
  lemma BoundedFatalExit(run: seq<Action>, lag: nat, id: nat)
    requires IsRun(BOOT, run, lag) && id < |After(BOOT, run, lag).triggers|
    ensures var s := After(BOOT, run, lag);
      && s.now <= s.triggers[id] + FATAL_HARD_DEADLINE_MS + 2 * lag
      && (s.exited.None? ==> DeadlineOf(s, id) in s.timers || IsQueued(s, id))
  {
    hide FatalSound, QueueSound, ShutdownSound, TimeSound, After, IsRun;
    BootIsSound(lag);
    RunIsSound(BOOT, run, lag);
    var s := After(BOOT, run, lag);
    if Running(s, lag) {
      FatalBound(s, id, lag);
    }
  }

  /** The exit has a reason in the fatal handler `id`: its alert settled, its logging failed, or its deadline passed. */
  ghost predicate Justifies(s: State, id: nat)
    requires s.exited.Some?
  {
    id < |s.triggers| &&
    (|| s.exited.value.at >= s.triggers[id] + FATAL_HARD_DEADLINE_MS
     || exists at: nat | at <= s.exited.value.at ::
          AlertSettled(id, at) in s.history || LoggingFailed(id, at) in s.history)
  }

  /**
   In every run, a process that was triggered exits with code 1, and not before some trigger's alert
   settled, its logging failed, or its deadline passed; unless a shutdown's grace timer ends it first,
   with the signal's code.
   */
  lemma FatalExitIsJustified(run: seq<Action>, lag: nat)
    requires IsRun(BOOT, run, lag)
    ensures var s := After(BOOT, run, lag);
      s.exited.Some? && s.triggers != [] ==>
        var x := s.exited.value;
        && (x.code == 1 <==> x.cause != ByGrace)
        && (x.cause == ByGrace ==> s.shutdown.Some? && x.code == s.shutdown.value.code)
        && (x.cause != ByGrace ==> exists id: nat :: Justifies(s, id))
  {
    hide FatalSound, QueueSound, ShutdownSound, TimeSound, After, IsRun;
    BootIsSound(lag);
    RunIsSound(BOOT, run, lag);
    var s := After(BOOT, run, lag);
    if s.exited.Some? && s.triggers != [] && s.exited.value.cause != ByGrace {
      assert Justifies(s, s.exited.value.cause.id);
    }
  }

  /**
   A crash during a shutdown: the grace timer may end the process before the alert has settled, and
   then the exit code is the signal's and the crash does not show in it.
   */
  lemma GraceBeatsCrash()
    ensures var run := [Signal(SIGTERM_CODE), Trigger(false), Pass(1500), Fire(Grace(SIGTERM_CODE, 1500))];
      && IsRun(BOOT, run, 0)
      && After(BOOT, run, 0).triggers == [0]
      && After(BOOT, run, 0).exited == Some(Exit(SIGTERM_CODE, 1500, ByGrace))
      && forall id: nat :: !Justifies(After(BOOT, run, 0), id)
  {
    hide IsRun, After, Enabled, GracefulExit, FatalExit, TimerFires;
    var grace := Grace(SIGTERM_CODE, 1500);
    var s1 := GracefulExit(BOOT, SIGTERM_CODE);
    var s2 := FatalExit(s1, false);
    var s3 := s2.(now := 1500);
    CrashInGrace(s1, s2, s3);
    assert [Signal(SIGTERM_CODE), Trigger(false), Pass(1500), Fire(grace)]
        == [Signal(SIGTERM_CODE)] + [Trigger(false), Pass(1500), Fire(grace)];
    assert [Trigger(false), Pass(1500), Fire(grace)] == [Trigger(false)] + [Pass(1500), Fire(grace)];
    assert [Pass(1500), Fire(grace)] == [Pass(1500)] + [Fire(grace)] && [Fire(grace)] == [Fire(grace)] + [];
    NoAction(TimerFires(s3, grace), 0);
    FirstAction(s3, Fire(grace), [], 0);
    FirstAction(s2, Pass(1500), [Fire(grace)], 0);
    FirstAction(s1, Trigger(false), [Pass(1500), Fire(grace)], 0);
    FirstAction(BOOT, Signal(SIGTERM_CODE), [Trigger(false), Pass(1500), Fire(grace)], 0);
  }

  lemma CrashInGrace(s1: State, s2: State, s3: State)
    requires s1 == GracefulExit(BOOT, SIGTERM_CODE) && s2 == FatalExit(s1, false) && s3 == s2.(now := 1500)
    ensures Enabled(BOOT, Signal(SIGTERM_CODE), 0) && Enabled(s1, Trigger(false), 0) && Enabled(s2, Pass(1500), 0)
    ensures s2.now == 0
    ensures var grace := Grace(SIGTERM_CODE, 1500);
      var s := TimerFires(s3, grace);
      && Enabled(s3, Fire(grace), 0) && s.triggers == [0] && s.exited == Some(Exit(SIGTERM_CODE, 1500, ByGrace))
      && forall id: nat :: !Justifies(s, id)
  {
    hide Enabled, TimerFires, GracefulExit, FatalExit, Justifies;
    SignalAtBoot(s1);
    CrashBehind(s1, s2);
    GraceFires(s3);
  }

  lemma SignalAtBoot(s1: State)
    requires s1 == GracefulExit(BOOT, SIGTERM_CODE)
    ensures Enabled(BOOT, Signal(SIGTERM_CODE), 0) && Enabled(s1, Trigger(false), 0)
    ensures s1.timers == {Grace(SIGTERM_CODE, 1500), HardKill(SIGTERM_CODE, 5000)}
    ensures s1 == BOOT.(shutdown := Some(Shutdown(SIGTERM_CODE, 0)), timers := s1.timers)
  {
  }

  lemma CrashBehind(s1: State, s2: State)
    requires s1.exited.None? && s1.now == 0 && s1.triggers == [] && s1.immediates == [] && s1.history == []
    requires s1.timers == {Grace(SIGTERM_CODE, 1500), HardKill(SIGTERM_CODE, 5000)}
    requires s2 == FatalExit(s1, false)
    ensures Enabled(s2, Pass(1500), 0)
    ensures s2.timers == {Grace(SIGTERM_CODE, 1500), HardKill(SIGTERM_CODE, 5000), FatalDeadline(0, 2500)}
    ensures s2.now == 0 && s2.exited.None? && s2.triggers == [0] && s2.immediates == [] && s2.history == []
  {
  }

  lemma GraceFires(s3: State)
    requires s3.timers == {Grace(SIGTERM_CODE, 1500), HardKill(SIGTERM_CODE, 5000), FatalDeadline(0, 2500)}
    requires s3.now == 1500 && s3.exited.None? && s3.triggers == [0] && s3.history == []
    ensures var grace := Grace(SIGTERM_CODE, 1500);
      var s := TimerFires(s3, grace);
      && Enabled(s3, Fire(grace), 0) && s.triggers == [0] && s.exited == Some(Exit(SIGTERM_CODE, 1500, ByGrace))
      && forall id: nat :: !Justifies(s, id)
  {
  }

  lemma NoAction(s: State, lag: nat)
    ensures IsRun(s, [], lag) && After(s, [], lag) == s
  {
  }

  lemma FirstAction(s: State, a: Action, rest: seq<Action>, lag: nat)
    requires Enabled(s, a, lag) && IsRun(Apply(s, a, lag), rest, lag)
    ensures IsRun(s, [a] + rest, lag) && After(s, [a] + rest, lag) == After(Apply(s, a, lag), rest, lag)
  {
    hide Apply;
    assert ([a] + rest)[1..] == rest;
  }

  /** A process that leaves because its event loop is empty was never triggered. */
  lemma QuietExitWasNeverFatal(run: seq<Action>, lag: nat)
    requires IsRun(BOOT, run, lag)
    ensures var s := After(BOOT, run, lag);
      s.exited.Some? && s.exited.value.cause == ByItself ==> s.triggers == [] && s.exited.value.code == 0
  {
    hide FatalSound, QueueSound, ShutdownSound, TimeSound, After, IsRun;
    BootIsSound(lag);
    RunIsSound(BOOT, run, lag);
  }

  /** The first signal decides: whatever follows, the shutdown and its timers' code stay. */
  lemma {:induction false} ShutdownIsKept(s: State, run: seq<Action>, lag: nat)
    requires s.shutdown.Some? && IsRun(s, run, lag)
    ensures After(s, run, lag).shutdown == s.shutdown
    decreases |run|
  {
    if run != [] {
      assert Apply(s, run[0], lag).shutdown == s.shutdown;
      ShutdownIsKept(Apply(s, run[0], lag), run[1..], lag);
    }
  }

  /**
   In every run a shutdown ends within the grace period and one lag, and never by the hard kill. The
   code of the first signal is the exit's exactly when the grace timer ends the process, after an
   attempted release; so it is when no fatal handler was triggered and the command had not ended.
   */
  lemma SingleShutdown(before: seq<Action>, code: int, after: seq<Action>, lag: nat)
    requires IsRun(BOOT, before, lag) && After(BOOT, before, lag).shutdown.None?
    requires Enabled(After(BOOT, before, lag), Signal(code), lag)
    requires IsRun(Apply(After(BOOT, before, lag), Signal(code), lag), after, lag)
    ensures var s0 := After(BOOT, before, lag);
      var s := After(Apply(s0, Signal(code), lag), after, lag);
      && s.shutdown == Some(Shutdown(code, s0.now))
      && s.now <= s0.now + SHUTDOWN_GRACE_MS + lag
      && (s.exited.Some? ==>
            && s.exited.value.cause != ByHardKill
            && (s.exited.value.code == code <==> s.exited.value.cause == ByGrace)
            && (s.triggers == [] && !s.finished ==> s.exited.value.cause == ByGrace)
            && (s.exited.value.cause == ByItself ==> WasReleased(s))
            && (s.exited.value.cause == ByGrace ==>
                  && s.exited.value.at >= s0.now + SHUTDOWN_GRACE_MS
                  && |s.history| > 1 && s.history[|s.history| - 2] == Released(s.exited.value.at)))
  {
    hide FatalSound, QueueSound, TimeSound, After, IsRun;
    BootIsSound(lag);
    RunIsSound(BOOT, before, lag);
    var s0 := After(BOOT, before, lag);
    ExitedIsFinal(s0, Signal(code), lag);
    StepIsSound(s0, Signal(code), lag);
    var s1 := Apply(s0, Signal(code), lag);
    RunIsSound(s1, after, lag);
    ShutdownIsKept(s1, after, lag);
    var s := After(s1, after, lag);
    if Running(s, lag) {
      ShutdownBound(s, lag);
    }
  }

  /**
   The shutdown timers are unreferenced, so that the exit code of a signal is not certain: when the
   command ends within the grace period, the event loop drains and the process leaves with code 0.
   */
  lemma DrainedShutdownExitsZero()
    ensures var run := [Signal(SIGTERM_CODE), Finish, Drain];
      IsRun(BOOT, run, 0) && After(BOOT, run, 0).exited == Some(Exit(0, 0, ByItself))
  {
    hide IsRun, After;
    var s1 := GracefulExit(BOOT, SIGTERM_CODE);
    var s2 := CommandEnds(s1);
    assert [Signal(SIGTERM_CODE), Finish, Drain] == [Signal(SIGTERM_CODE)] + [Finish, Drain];
    assert [Finish, Drain] == [Finish] + [Drain] && [Drain] == [Drain] + [];
    NoAction(Leave(s2, 0, ByItself), 0);
    FirstAction(s2, Drain, [], 0);
    FirstAction(s1, Finish, [Drain], 0);
    FirstAction(BOOT, Signal(SIGTERM_CODE), [Finish, Drain], 0);
  }

  /**
   What becomes of a signal's exit code, in every run: it is kept exactly when the grace timer ends
   the process. A fatal handler exits with 1 instead, and a loop that drains after the command's end
   with 0; when neither of these happened, the grace timer it was.
   */
  lemma ShutdownCodeExactly(run: seq<Action>, lag: nat)
    requires IsRun(BOOT, run, lag)
    ensures var s := After(BOOT, run, lag);
      s.exited.Some? && s.shutdown.Some? ==>
        var x := s.exited.value;
        && (x.code == s.shutdown.value.code <==> x.cause == ByGrace)
        && (x.code == 1 <==> x.cause.ByImmediate? || x.cause.ByDeadline?)
        && (x.code == 0 <==> x.cause == ByItself)
        && (x.code == 1 ==> s.triggers != [])
        && (x.code == 0 ==> s.triggers == [] && s.finished)
  {
    hide FatalSound, QueueSound, ShutdownSound, TimeSound, After, IsRun;
    BootIsSound(lag);
    RunIsSound(BOOT, run, lag);
  }

  /**
   In every run, an exit by the grace timer or by an empty event loop follows an attempt to release
   the lock: only a fatal handler exits without one.
   */
  lemma ReleasedUnlessFatal(run: seq<Action>, lag: nat)
    requires IsRun(BOOT, run, lag)
    ensures var s := After(BOOT, run, lag);
      s.exited.Some? && !WasReleased(s) ==>
        (s.exited.value.cause.ByImmediate? || s.exited.value.cause.ByDeadline?) && s.exited.value.code == 1
  {
    hide FatalSound, QueueSound, ShutdownSound, TimeSound, After, IsRun;
    BootIsSound(lag);
    RunIsSound(BOOT, run, lag);
    var s := After(BOOT, run, lag);
    if s.exited.Some? && s.exited.value.cause == ByGrace {
      assert Released(s.exited.value.at) in s.history;
    }
  }

  // ---------------------------------------------------------------------------
  // The process, run
  // ---------------------------------------------------------------------------

  /** Booting a keeper and letting the environment act on it takes it through exactly the modelled run. */
  method Execute(run: seq<Action>, ghost lag: nat) returns (keeper: Keeper)
    requires IsRun(BOOT, run, lag)
    ensures fresh(keeper)
    ensures keeper.Value() == After(BOOT, run, lag) && Sound(keeper.Value(), lag)
  {
    keeper := new Keeper();
    for i := 0 to |run|
      invariant fresh(keeper)
      invariant IsRun(keeper.Value(), run[i..], lag)
      invariant After(keeper.Value(), run[i..], lag) == After(BOOT, run, lag)
    {
      assert run[i..][1..] == run[i + 1..];
      keeper.Turn(run[i], lag);
    }
    BootIsSound(lag);
    RunIsSound(BOOT, run, lag);
  }

  // ---------------------------------------------------------------------------
  // No run gets stuck
  // ---------------------------------------------------------------------------

  lemma {:induction false} EarliestTimer(timers: set<Timer>) returns (t: Timer)
    requires timers != {}
    ensures t in timers && forall u | u in timers :: t.due <= u.due
    decreases |timers|
  {
    t :| t in timers;
    var rest := timers - {t};
    if rest != {} {
      var u := EarliestTimer(rest);
      assert forall v | v in timers :: v == t || v in rest;
      if u.due < t.due {
        t := u;
      }
    }
  }

  /** Until the exit, a queued exit can run, a due timer can fire, or time can pass. */
  lemma NeverStuck(s: State, lag: nat)
    requires s.exited.None?
    ensures Enabled(s, RunImmediate, lag) || Enabled(s, Pass(1), lag) || exists t: Timer :: Enabled(s, Fire(t), lag)
  {
    if s.immediates == [] {
      if s.timers != {} {
        var t := EarliestTimer(s.timers);
        if t.due <= s.now {
          assert Enabled(s, Fire(t), lag);
        }
      }
    }
  }
}
