/**
 * The parent of a re-executed CLI: runCliRespawnPlan of src/entry.respawn.ts and
 * runOpenClawCompileCacheRespawnPlan of src/entry.compile-cache.ts, with the signal bridge of
 * src/process/child-process-bridge.ts.
 *
 * A run is a sequence of events. `exit` only writes to the log here, so what is proved of the
 * handlers holds even for a runtime whose `exit` returns; the process itself is gone after the first.
 */
module RespawnSupervisor {
  import opened Prelude

  const EXIT_GRACE_MS := 1000
  const FORCE_KILL_GRACE_MS := 1000

  datatype Wrapper = Cli | CompileCache

  /** A timer variable: undefined, holding a pending timer, or still holding one that has fired. */
  datatype Timer = Unset | Armed(due: nat) | Fired

  datatype Action = Forward(signal: string) | Terminate | ForceKill | Exit(code: int)

  /** What the parent did, and when; the newest entry is outermost. */
  datatype Log = Nothing | Then(before: Log, action: Action, at: nat)

  datatype State = State(
    wrapper: Wrapper,
    now: nat,
    exitTimer: Timer,
    killTimer: Timer,
    attached: bool,   // the signal listeners of the bridge are installed
    exited: bool,     // the child's exit has been observed
    failed: bool,     // the child's one error listener has been used
    log: Log)

  /** `fails`: the kill inside the handler makes the child emit an error before it returns. */
  datatype Event =
    | Signal(signal: string, fails: bool)
    | ExitTimer(fails: bool)
    | KillTimer(fails: bool)
    | ChildExit(code: Option<int>, signaled: bool)
    | ChildError
    | Tick(ms: nat)

  function Start(wrapper: Wrapper): State {
    State(wrapper, 0, Unset, Unset, true, false, false, Nothing)
  }

  // ---------------------------------------------------------------- the handlers

  function Record(s: State, action: Action): State {
    s.(log := Then(s.log, action, s.now))
  }

  /** The bridge detaches, then the timers are cleared. */
  function Release(s: State): State {
    s.(attached := false, exitTimer := Unset, killTimer := Unset)
  }

  function OnError(s: State): State {
    Record(Release(s.(failed := true)), Exit(1))
  }

  /** A second error has no listener; thrown inside kill, it is swallowed by the caller. */
  function Kill(s: State, action: Action, fails: bool): State {
    var sent := Record(s, action);
    if fails && !s.failed then OnError(sent) else sent
  }

  function CodeOr1(code: Option<int>): int {
    if code.Some? then code.value else 1
  }

  function Step(s: State, e: Event): State {
    match e
    case Signal(signal, fails) =>
      Kill(if s.exitTimer.Unset? then s.(exitTimer := Armed(s.now + EXIT_GRACE_MS)) else s, Forward(signal), fails)
    case ExitTimer(fails) =>
      Kill(s.(exitTimer := Fired), Terminate, fails).(killTimer := Armed(s.now + FORCE_KILL_GRACE_MS))
    case KillTimer(fails) =>
      Record(Kill(s.(killTimer := Fired), ForceKill, fails), Exit(1))
    case ChildExit(code, signaled) =>
      var released := Release(s.(exited := true));
      if signaled && s.wrapper == CompileCache then Record(Record(released, Exit(1)), Exit(CodeOr1(code)))
      else if signaled then Record(released, Exit(1))
      else Record(released, Exit(CodeOr1(code)))
    case ChildError => OnError(s)
    case Tick(ms) => s.(now := s.now + ms)
  }

  predicate IsDue(timer: Timer, now: nat) {
    timer.Armed? && timer.due <= now
  }

  /** Timers never fire early, and at most `slack` late. */
  predicate MayWaitUntil(timer: Timer, now: nat, slack: nat) {
    timer.Armed? ==> now <= timer.due + slack
  }

  predicate Enabled(s: State, e: Event, slack: nat) {
    match e
    case Signal(_, _) => s.attached
    case ExitTimer(_) => IsDue(s.exitTimer, s.now)
    case KillTimer(_) => IsDue(s.killTimer, s.now)
    case ChildExit(_, _) => !s.exited
    case ChildError => !s.failed
    case Tick(ms) => MayWaitUntil(s.exitTimer, s.now + ms, slack) && MayWaitUntil(s.killTimer, s.now + ms, slack)
  }

  class Supervisor {
    const wrapper: Wrapper
    var now: nat
    var signalExitTimer: Timer
    var signalForceKillTimer: Timer
    var attached: bool
    var exited: bool
    var failed: bool
    var log: Log

    ghost function Current(): State
      reads this
    {
      State(wrapper, now, signalExitTimer, signalForceKillTimer, attached, exited, failed, log)
    }

    constructor (wrapper: Wrapper)
      ensures Current() == Start(wrapper)
    {
      this.wrapper := wrapper;
      now := 0;
      signalExitTimer, signalForceKillTimer := Unset, Unset;
      attached, exited, failed := true, false, false;
      log := Nothing;
    }

    method Detach()
      modifies this`attached
      ensures !attached
    {
      attached := false;
    }

    method ClearSignalTimers()
      modifies this`signalExitTimer, this`signalForceKillTimer
      ensures signalExitTimer == Unset && signalForceKillTimer == Unset
    {
      if signalExitTimer != Unset {
        signalExitTimer := Unset;
      }
      if signalForceKillTimer != Unset {
        signalForceKillTimer := Unset;
      }
    }

    method Write(action: Action)
      modifies this`log
      ensures Current() == Record(old(Current()), action)
    {
      log := Then(log, action, now);
    }

    method OnChildError()
      modifies this
      ensures Current() == OnError(old(Current())) == Step(old(Current()), ChildError)
    {
      failed := true;
      Detach();
      ClearSignalTimers();
      Write(Exit(1));
    }

    method KillChild(action: Action, fails: bool)
      modifies this
      ensures Current() == Kill(old(Current()), action, fails)
    {
      Write(action);
      if fails && !failed {
        OnChildError();
      }
    }

    method ScheduleParentExit()
      modifies this`signalExitTimer
      ensures signalExitTimer == if old(signalExitTimer) == Unset then Armed(now + EXIT_GRACE_MS) else old(signalExitTimer)
    {
      if signalExitTimer != Unset {
        return;
      }
      signalExitTimer := Armed(now + EXIT_GRACE_MS);
    }

    method OnSignal(signal: string, fails: bool)
      modifies this
      ensures Current() == Step(old(Current()), Signal(signal, fails))
    {
      ScheduleParentExit();
      KillChild(Forward(signal), fails);
    }

    method RequestChildTermination(fails: bool)
      modifies this
      ensures Current() == Step(old(Current()), ExitTimer(fails))
    {
      signalExitTimer := Fired;
      KillChild(Terminate, fails);
      signalForceKillTimer := Armed(now + FORCE_KILL_GRACE_MS);
    }

    method ForceKillAndExit(fails: bool)
      modifies this
      ensures Current() == Step(old(Current()), KillTimer(fails))
    {
      signalForceKillTimer := Fired;
      KillChild(ForceKill, fails);
      Write(Exit(1));
    }

    method OnChildExit(code: Option<int>, signaled: bool)
      modifies this
      ensures Current() == Step(old(Current()), ChildExit(code, signaled))
    {
      exited := true;
      Detach();
      ClearSignalTimers();
      if signaled {
        Write(Exit(1));
        if wrapper == Cli {
          return;
        }
      }
      Write(Exit(CodeOr1(code)));
    }
  }

  // ---------------------------------------------------------------- reading the log

  function FirstForward(log: Log): Option<nat> {
    match log
    case Nothing => None
    case Then(before, action, at) =>
      if FirstForward(before).Some? then FirstForward(before) else if action.Forward? then Some(at) else None
  }

  function Termination(log: Log): Option<nat> {
    match log
    case Nothing => None
    case Then(before, action, at) =>
      if Termination(before).Some? then Termination(before) else if action.Terminate? then Some(at) else None
  }

  datatype Departure = Departure(code: int, at: nat)

  function FirstExit(log: Log): Option<Departure> {
    match log
    case Nothing => None
    case Then(before, action, at) =>
      if FirstExit(before).Some? then FirstExit(before) else if action.Exit? then Some(Departure(action.code, at)) else None
  }

  /** The signals sent to the child, oldest first. */
  function Kills(log: Log): seq<Action> {
    match log
    case Nothing => []
    case Then(before, action, _) => Kills(before) + (if action.Exit? then [] else [action])
  }

  /**
   * SIGTERM is sent once, a second after the first forwarded signal; the force-kill is sent once, a
   * second after SIGTERM; neither is sent out of order.
   */
  ghost predicate Escalates(log: Log, slack: nat) {
    match log
    case Nothing => true
    case Then(before, action, at) =>
      && Escalates(before, slack)
      && (action.Terminate? ==>
            && Termination(before).None? && FirstForward(before).Some?
            && FirstForward(before).value + 1000 <= at <= FirstForward(before).value + 1000 + slack)
      && (action.ForceKill? ==>
            && ForceKill !in Kills(before) && Termination(before).Some?
            && Termination(before).value + 1000 <= at <= Termination(before).value + 1000 + slack)
  }

  // ---------------------------------------------------------------- runs

  function After(wrapper: Wrapper, events: seq<Event>): State {
    if events == [] then Start(wrapper) else Step(After(wrapper, events[..|events| - 1]), events[|events| - 1])
  }

  predicate Legal(wrapper: Wrapper, events: seq<Event>, slack: nat) {
    events == []
    || (var earlier := events[..|events| - 1];
        Legal(wrapper, earlier, slack) && Enabled(After(wrapper, earlier), events[|events| - 1], slack))
  }

  /** How far the shutdown has come, read off the timers and the log. */
  ghost predicate Idle(s: State) {
    s.attached && s.exitTimer.Unset? && s.killTimer.Unset? && FirstForward(s.log).None? && Termination(s.log).None?
    && FirstExit(s.log).None?
  }

  ghost predicate Waiting(s: State, slack: nat) {
    && s.attached && s.killTimer.Unset? && FirstForward(s.log).Some? && Termination(s.log).None? && FirstExit(s.log).None?
    && s.exitTimer == Armed(FirstForward(s.log).value + EXIT_GRACE_MS)
    && MayWaitUntil(s.exitTimer, s.now, slack)
  }

  ghost predicate Terminating(s: State, slack: nat) {
    && FirstForward(s.log).Some? && Termination(s.log).Some? && ForceKill !in Kills(s.log)
    && s.killTimer == Armed(Termination(s.log).value + FORCE_KILL_GRACE_MS)
    && MayWaitUntil(s.killTimer, s.now, slack)
    && Termination(s.log).value <= FirstForward(s.log).value + EXIT_GRACE_MS + slack
    && (if s.attached then s.exitTimer.Fired? && FirstExit(s.log).None?
        else s.exitTimer.Unset? && s.failed && !s.exited && FirstExit(s.log).Some?)
  }

  ghost predicate Over(s: State) {
    && FirstExit(s.log).Some? && !s.exitTimer.Armed? && !s.killTimer.Armed?
    && (s.attached ==> s.exitTimer.Fired? && Termination(s.log).Some? && FirstForward(s.log).Some?)
  }

  /** No exit is later than two seconds, and twice the slack, after the first signal. */
  ghost predicate InTime(s: State, slack: nat) {
    FirstForward(s.log).Some? && FirstExit(s.log).Some? ==>
      FirstExit(s.log).value.at <= FirstForward(s.log).value + EXIT_GRACE_MS + FORCE_KILL_GRACE_MS + 2 * slack
  }

  ghost predicate Inv(s: State, slack: nat) {
    && Escalates(s.log, slack) && InTime(s, slack)
    && (s.exited || s.failed <==> !s.attached)
    && (Termination(s.log).None? ==> ForceKill !in Kills(s.log))
    && (Idle(s) || Waiting(s, slack) || Terminating(s, slack) || Over(s))
  }

  lemma KillIsRecorded(s: State, action: Action, fails: bool)
    requires !action.Exit?
    ensures var t := Kill(s, action, fails);
            && FirstForward(t.log) == FirstForward(Then(s.log, action, s.now))
            && Termination(t.log) == Termination(Then(s.log, action, s.now))
            && Kills(t.log) == Kills(s.log) + [action]
            && FirstExit(t.log) == if FirstExit(s.log).None? && fails && !s.failed then Some(Departure(1, s.now)) else FirstExit(s.log)
  {
    assert FirstExit(Then(s.log, action, s.now)) == FirstExit(s.log);
  }

  lemma SignalKeepsInv(s: State, signal: string, fails: bool, slack: nat)
    requires Inv(s, slack) && s.attached
    ensures Inv(Step(s, Signal(signal, fails)), slack)
  {
    var s1 := if s.exitTimer.Unset? then s.(exitTimer := Armed(s.now + EXIT_GRACE_MS)) else s;
    KillIsRecorded(s1, Forward(signal), fails);
    var t := Step(s, Signal(signal, fails));
    if fails {
      assert Over(t);
    } else if Idle(s) {
      assert Waiting(t, slack);
    }
  }

  lemma ExitTimerKeepsInv(s: State, fails: bool, slack: nat)
    requires Inv(s, slack) && IsDue(s.exitTimer, s.now)
    ensures Inv(Step(s, ExitTimer(fails)), slack)
  {
    assert Waiting(s, slack);
    KillIsRecorded(s.(exitTimer := Fired), Terminate, fails);
    assert Terminating(Step(s, ExitTimer(fails)), slack);
  }

  lemma KillTimerKeepsInv(s: State, fails: bool, slack: nat)
    requires Inv(s, slack) && IsDue(s.killTimer, s.now)
    ensures Inv(Step(s, KillTimer(fails)), slack)
  {
    assert Terminating(s, slack);
    KillIsRecorded(s.(killTimer := Fired), ForceKill, fails);
    assert Over(Step(s, KillTimer(fails)));
  }

  lemma ExitIsRecorded(s: State, code: Option<int>, signaled: bool)
    ensures var log := Step(s, ChildExit(code, signaled)).log;
            && Kills(log) == Kills(s.log) && FirstForward(log) == FirstForward(s.log) && Termination(log) == Termination(s.log)
            && FirstExit(log) == if FirstExit(s.log).Some? then FirstExit(s.log)
                                 else Some(Departure(if signaled then 1 else CodeOr1(code), s.now))
  {
    var once := Then(s.log, Exit(1), s.now);
    assert Kills(once) == Kills(s.log) && Termination(once) == Termination(s.log) && FirstForward(once) == FirstForward(s.log);
    assert FirstExit(Then(s.log, Exit(1), s.now)) == if FirstExit(s.log).Some? then FirstExit(s.log) else Some(Departure(1, s.now));
  }

  lemma StepKeepsInv(s: State, e: Event, slack: nat)
    requires Inv(s, slack) && Enabled(s, e, slack)
    ensures Inv(Step(s, e), slack)
  {
    match e
    case Signal(signal, fails) => SignalKeepsInv(s, signal, fails, slack);
    case ExitTimer(fails) => ExitTimerKeepsInv(s, fails, slack);
    case KillTimer(fails) => KillTimerKeepsInv(s, fails, slack);
    case ChildExit(code, signaled) =>
      ExitIsRecorded(s, code, signaled);
      assert Over(Step(s, e));
    case ChildError =>
      assert Over(Step(s, e));
    case Tick(_) =>
  }

  lemma {:induction false} LegalRunsKeepInv(wrapper: Wrapper, events: seq<Event>, slack: nat)
    requires Legal(wrapper, events, slack)
    ensures Inv(After(wrapper, events), slack)
  {
    if events == [] {
    } else {
      LegalRunsKeepInv(wrapper, events[..|events| - 1], slack);
      StepKeepsInv(After(wrapper, events[..|events| - 1]), events[|events| - 1], slack);
    }
  }

  // ---------------------------------------------------------------- the main results

  /**
   * In every run: once a signal has been forwarded, time cannot pass two seconds (and twice the
   * timers' slack) after the first one unless the parent has exited by then; no later signal moves
   * that deadline. SIGTERM and the force-kill keep their order and distance.
   */
  lemma ShutdownIsTimed(wrapper: Wrapper, events: seq<Event>, slack: nat)
    requires Legal(wrapper, events, slack)
    ensures var s := After(wrapper, events);
            && Escalates(s.log, slack)
            && (FirstForward(s.log).Some? ==>
                  var deadline := FirstForward(s.log).value + 2000 + 2 * slack;
                  s.now <= deadline || (FirstExit(s.log).Some? && FirstExit(s.log).value.at <= deadline))
  {
    LegalRunsKeepInv(wrapper, events, slack);
  }

  /** The run never gets stuck before the exit: time can pass, or a timer is due. */
  lemma TimeOrATimerMoves(wrapper: Wrapper, events: seq<Event>, slack: nat)
    requires Legal(wrapper, events, slack)
    ensures Legal(wrapper, events + [Tick(1)], slack)
      || Legal(wrapper, events + [ExitTimer(false)], slack)
      || Legal(wrapper, events + [KillTimer(false)], slack)
  {
    forall e: Event ensures (events + [e])[..|events + [e]| - 1] == events {
    }
  }

  // ---------------------------------------------------------------- after the child's exit

  lemma {:induction false} QuietAfterExit(wrapper: Wrapper, before: seq<Event>, exit: Event, later: seq<Event>, slack: nat)
    requires exit.ChildExit? && Legal(wrapper, before + [exit] + later, slack)
    ensures var s := After(wrapper, before + [exit] + later);
            && s.exited && !s.attached && s.exitTimer == Unset && s.killTimer == Unset
            && Kills(s.log) == Kills(After(wrapper, before).log)
  {
    var events := before + [exit] + later;
    var earlier := events[..|events| - 1];
    if later == [] {
      assert earlier == before;
    } else {
      assert earlier == before + [exit] + later[..|later| - 1];
      QuietAfterExit(wrapper, before, exit, later[..|later| - 1], slack);
    }
  }

  // ---------------------------------------------------------------- what is sent to the child

  /** What the events make the parent send: each signal on, SIGTERM when the exit timer fires, then SIGKILL. */
  function Sent(events: seq<Event>): seq<Action> {
    if events == [] then []
    else
      (match events[0]
       case Signal(signal, _) => [Forward(signal)]
       case ExitTimer(_) => [Terminate]
       case KillTimer(_) => [ForceKill]
       case _ => []) + Sent(events[1..])
  }

  lemma {:induction false} SentOneMore(events: seq<Event>, e: Event)
    ensures Sent(events + [e]) == Sent(events) + Sent([e])
  {
    assert [e][1..] == [];
    if events == [] {
      assert events + [e] == [e];
    } else {
      assert (events + [e])[1..] == events[1..] + [e];
      SentOneMore(events[1..], e);
    }
  }

  lemma KillsOfStep(s: State, e: Event)
    ensures Kills(Step(s, e).log) == Kills(s.log) + Sent([e])
  {
    assert [e][1..] == [];
    match e
    case Signal(signal, fails) =>
      KillIsRecorded(if s.exitTimer.Unset? then s.(exitTimer := Armed(s.now + EXIT_GRACE_MS)) else s, Forward(signal), fails);
    case ExitTimer(fails) => KillIsRecorded(s.(exitTimer := Fired), Terminate, fails);
    case KillTimer(fails) => KillIsRecorded(s.(killTimer := Fired), ForceKill, fails);
    case ChildExit(code, signaled) => ExitIsRecorded(s, code, signaled);
    case _ =>
  }

  /** Every signal is forwarded as it was received, and nothing else is sent than these, SIGTERM and SIGKILL, in that order of events. */
  lemma {:induction false} SignalsAreForwarded(wrapper: Wrapper, events: seq<Event>)
    ensures Kills(After(wrapper, events).log) == Sent(events)
  {
    if events == [] {
    } else {
      var earlier, e := events[..|events| - 1], events[|events| - 1];
      SignalsAreForwarded(wrapper, earlier);
      assert events == earlier + [e];
      SentOneMore(earlier, e);
      KillsOfStep(After(wrapper, earlier), e);
    }
  }

  // ---------------------------------------------------------------- the exit code

  /** The events that make the parent exit, and with which code. */
  function Ends(e: Event): Option<int> {
    match e
    case ChildExit(Some(code), false) => Some(code)
    case ChildExit(_, _) => Some(1)
    case ChildError => Some(1)
    case KillTimer(_) => Some(1)
    case Signal(_, fails) => if fails then Some(1) else None
    case ExitTimer(fails) => if fails then Some(1) else None
    case Tick(_) => None
  }

  /** The first event that ends the run. */
  function FirstEnd(events: seq<Event>): Option<int> {
    if events == [] then None
    else if Ends(events[0]).Some? then Ends(events[0])
    else FirstEnd(events[1..])
  }

  lemma {:induction false} FirstEndOfLonger(events: seq<Event>, e: Event)
    ensures FirstEnd(events + [e]) == if FirstEnd(events).Some? then FirstEnd(events) else Ends(e)
  {
    if events == [] {
    } else {
      assert (events + [e])[1..] == events[1..] + [e];
      FirstEndOfLonger(events[1..], e);
    }
  }

  lemma FirstExitOfStep(s: State, e: Event, slack: nat)
    requires Inv(s, slack) && Enabled(s, e, slack)
    ensures FirstExit(s.log).Some? ==> FirstExit(Step(s, e).log) == FirstExit(s.log)
    ensures FirstExit(s.log).None? ==>
      FirstExit(Step(s, e).log) == if Ends(e).Some? then Some(Departure(Ends(e).value, s.now)) else None
  {
    match e
    case Signal(signal, fails) =>
      KillIsRecorded(if s.exitTimer.Unset? then s.(exitTimer := Armed(s.now + EXIT_GRACE_MS)) else s, Forward(signal), fails);
    case ExitTimer(fails) =>
      KillIsRecorded(s.(exitTimer := Fired), Terminate, fails);
    case KillTimer(fails) =>
      KillIsRecorded(s.(killTimer := Fired), ForceKill, fails);
    case ChildExit(code, signaled) =>
      ExitIsRecorded(s, code, signaled);
    case ChildError =>
    case Tick(_) =>
  }

  /**
   * The parent has exited exactly when an ending event has happened, and its code is that of the first
   * one: the child's own code if the child exited normally before anything else, 1 otherwise.
   */
  lemma {:induction false} ExitCodeIsTheChilds(wrapper: Wrapper, events: seq<Event>, slack: nat)
    requires Legal(wrapper, events, slack)
    ensures var exit := FirstExit(After(wrapper, events).log);
            match FirstEnd(events)
            case Some(code) => exit.Some? && exit.value.code == code
            case None => exit.None?
  {
    if events == [] {
    } else {
      var earlier, e := events[..|events| - 1], events[|events| - 1];
      ExitCodeIsTheChilds(wrapper, earlier, slack);
      LegalRunsKeepInv(wrapper, earlier, slack);
      assert events == earlier + [e];
      FirstEndOfLonger(earlier, e);
      FirstExitOfStep(After(wrapper, earlier), e, slack);
    }
  }
}
