/**
 * runCommand of scripts/openclaw-cross-os-release-checks.ts: a promise settled by whichever comes
 * first of the child's error, its close, and a kill that was waited for in vain.
 */
module CommandRunner {
  import opened Prelude

  const KILL_WAIT_MS := 15000

  /** `timeoutMs` is None when the option is absent, zero or infinite. */
  datatype Options = Options(timeoutMs: Option<nat>, check: bool, heartbeatMs: nat)

  datatype Timer = Off | Armed(due: nat)

  datatype Outcome =
    | Fulfilled(exitCode: int, stdout: string, stderr: string)
    | Failed(exitCode: int)
    | TimedOut
    | NotTerminated
    | ChildFailed

  datatype Settlement = Settlement(outcome: Outcome, at: nat)

  datatype State = State(
    options: Options,
    now: nat,
    timer: Timer,
    killWaitTimer: Timer,
    heartbeatTimer: Timer,
    timedOut: bool,
    settled: bool,
    stdout: string,
    stderr: string,
    kills: seq<nat>,              // when the child was killed
    settlements: seq<Settlement>) // the calls of resolvePromise and rejectPromise

  /** `fails`: the kill makes the child emit an error before it returns. */
  datatype Event =
    | Stdout(text: string)
    | Stderr(text: string)
    | Timeout(fails: bool)
    | KillWait
    | Heartbeat
    | ChildError
    | Close(exitCode: Option<int>)
    | Tick(ms: nat)

  function Start(options: Options): State {
    var timer := if options.timeoutMs.Some? then Armed(options.timeoutMs.value) else Off;
    var heartbeat := if options.heartbeatMs > 0 then Armed(options.heartbeatMs) else Off;
    State(options, 0, timer, Off, heartbeat, false, false, "", "", [], [])
  }

  // ---------------------------------------------------------------- the handlers

  function Finalize(s: State, outcome: Outcome): State {
    if s.settled then s
    else s.(settled := true, timer := Off, killWaitTimer := Off, heartbeatTimer := Off,
            settlements := s.settlements + [Settlement(outcome, s.now)])
  }

  function ExitCodeOr1(exitCode: Option<int>): int {
    if exitCode.Some? then exitCode.value else 1
  }

  function OutcomeOfClose(options: Options, timedOut: bool, exitCode: int, stdout: string, stderr: string): Outcome {
    if timedOut then TimedOut
    else if options.check && exitCode != 0 then Failed(exitCode)
    else Fulfilled(exitCode, stdout, stderr)
  }

  function Step(s: State, e: Event): State {
    match e
    case Stdout(text) => s.(stdout := s.stdout + text)
    case Stderr(text) => s.(stderr := s.stderr + text)
    case Timeout(fails) =>
      var late := s.(timer := Off, timedOut := true, kills := s.kills + [s.now]);
      (if fails then Finalize(late, ChildFailed) else late).(killWaitTimer := Armed(s.now + KILL_WAIT_MS))
    case KillWait => Finalize(s.(killWaitTimer := Off), NotTerminated)
    case Heartbeat => s.(heartbeatTimer := Armed(s.now + s.options.heartbeatMs))
    case ChildError => Finalize(s, ChildFailed)
    case Close(exitCode) =>
      Finalize(s, OutcomeOfClose(s.options, s.timedOut, ExitCodeOr1(exitCode), s.stdout, s.stderr))
    case Tick(ms) => s.(now := s.now + ms)
  }

  predicate IsDue(timer: Timer, now: nat) {
    timer.Armed? && timer.due <= now
  }

  /** Timers never fire early, and at most `slack` late. */
  predicate MayWaitUntil(timer: Timer, now: nat, slack: nat) {
    timer.Armed? ==> now <= timer.due + slack
  }

  /** The child may emit anything at any time, as often as it likes. */
  predicate Enabled(s: State, e: Event, slack: nat) {
    match e
    case Timeout(_) => IsDue(s.timer, s.now)
    case KillWait => IsDue(s.killWaitTimer, s.now)
    case Heartbeat => IsDue(s.heartbeatTimer, s.now)
    case Tick(ms) => MayWaitUntil(s.timer, s.now + ms, slack) && MayWaitUntil(s.killWaitTimer, s.now + ms, slack)
    case _ => true
  }

  class Runner {
    const options: Options
    var now: nat
    var timer: Timer
    var killWaitTimer: Timer
    var heartbeatTimer: Timer
    var timedOut: bool
    var settled: bool
    var stdout: string
    var stderr: string
    var kills: seq<nat>
    var settlements: seq<Settlement>

    ghost function Current(): State
      reads this
    {
      State(options, now, timer, killWaitTimer, heartbeatTimer, timedOut, settled, stdout, stderr, kills, settlements)
    }

    constructor (options: Options)
      ensures Current() == Start(options)
    {
      this.options := options;
      now, timedOut, settled, stdout, stderr, kills, settlements := 0, false, false, "", "", [], [];
      killWaitTimer := Off;
      timer := if options.timeoutMs.Some? then Armed(options.timeoutMs.value) else Off;
      heartbeatTimer := if options.heartbeatMs > 0 then Armed(options.heartbeatMs) else Off;
    }

    method ClearTimers()
      modifies this`timer, this`killWaitTimer, this`heartbeatTimer
      ensures timer == killWaitTimer == heartbeatTimer == Off
    {
      timer, killWaitTimer, heartbeatTimer := Off, Off, Off;
    }

    method Settle(outcome: Outcome)
      modifies this
      ensures Current() == Finalize(old(Current()), outcome)
    {
      if settled {
        return;
      }
      settled := true;
      ClearTimers();
      settlements := settlements + [Settlement(outcome, now)];
    }

    method OnData(e: Event)
      requires e.Stdout? || e.Stderr?
      modifies this`stdout, this`stderr
      ensures Current() == Step(old(Current()), e)
    {
      if e.Stdout? {
        stdout := stdout + e.text;
      } else {
        stderr := stderr + e.text;
      }
    }

    method OnTimeout(fails: bool)
      modifies this
      ensures Current() == Step(old(Current()), Timeout(fails))
    {
      timer := Off;
      timedOut := true;
      kills := kills + [now];
      if fails {
        OnError();
      }
      killWaitTimer := Armed(now + KILL_WAIT_MS);
    }

    method OnKillWait()
      modifies this
      ensures Current() == Step(old(Current()), KillWait)
    {
      killWaitTimer := Off;
      Settle(NotTerminated);
    }

    method OnError()
      modifies this
      ensures Current() == Step(old(Current()), ChildError)
    {
      Settle(ChildFailed);
    }

    method OnClose(exitCode: Option<int>)
      modifies this
      ensures Current() == Step(old(Current()), Close(exitCode))
    {
      var code := ExitCodeOr1(exitCode);
      if timedOut {
        Settle(TimedOut);
      } else if options.check && code != 0 {
        Settle(Failed(code));
      } else {
        Settle(Fulfilled(code, stdout, stderr));
      }
    }
  }

  // ---------------------------------------------------------------- runs

  function After(options: Options, events: seq<Event>): State {
    if events == [] then Start(options) else Step(After(options, events[..|events| - 1]), events[|events| - 1])
  }

  predicate Legal(options: Options, events: seq<Event>, slack: nat) {
    events == []
    || (var earlier := events[..|events| - 1];
        Legal(options, earlier, slack) && Enabled(After(options, earlier), events[|events| - 1], slack))
  }

  /** The latest moment for the promise to be settled. */
  function Deadline(timeoutMs: nat, slack: nat): nat {
    timeoutMs + 15_000 + 2 * slack
  }

  ghost predicate Open(s: State, slack: nat) {
    && !s.settled && s.settlements == []
    && MayWaitUntil(s.timer, s.now, slack) && MayWaitUntil(s.killWaitTimer, s.now, slack)
    && (s.timer.Armed? <==> s.options.timeoutMs.Some? && !s.timedOut)
    && (s.timer.Armed? ==> s.timer.due == s.options.timeoutMs.value)
    && (s.killWaitTimer.Armed? <==> s.timedOut)
    && (s.timedOut ==> s.options.timeoutMs.Some? && s.options.timeoutMs.value <= s.now)
    && (s.timedOut ==> s.options.timeoutMs.value + 15_000 <= s.killWaitTimer.due <= s.options.timeoutMs.value + slack + 15_000)
  }

  ghost predicate Closed(s: State, slack: nat) {
    && s.settled && |s.settlements| == 1 && s.timer == Off && s.heartbeatTimer == Off
    && (s.killWaitTimer.Armed? ==> s.timedOut && s.settlements[0].outcome == ChildFailed)
    && (s.options.timeoutMs.Some? ==> s.settlements[0].at <= Deadline(s.options.timeoutMs.value, slack))
    && NotEarly(s.options, s.settlements[0])
  }

  /** The promise is not settled for a timeout before the timeout, nor for a failed kill before fifteen more seconds. */
  ghost predicate NotEarly(options: Options, settlement: Settlement) {
    && (settlement.outcome.TimedOut? ==> options.timeoutMs.Some? && settlement.at >= options.timeoutMs.value)
    && (settlement.outcome.NotTerminated? ==> options.timeoutMs.Some? && settlement.at >= options.timeoutMs.value + 15_000)
  }

  /** The child is killed once when the timeout has fired, and then at its time, and not otherwise. */
  ghost predicate KilledOnTimeout(s: State, slack: nat) {
    if s.timedOut then
      && |s.kills| == 1 && s.options.timeoutMs.Some?
      && s.options.timeoutMs.value <= s.kills[0] <= s.now && s.kills[0] <= s.options.timeoutMs.value + slack
    else s.kills == []
  }

  ghost predicate Inv(s: State, slack: nat) {
    Open(s, slack) || Closed(s, slack)
  }

  lemma StepKeepsInv(s: State, e: Event, slack: nat)
    requires Inv(s, slack) && Enabled(s, e, slack)
    ensures Inv(Step(s, e), slack)
  {
  }

  lemma {:induction false} LegalRunsKeepInv(options: Options, events: seq<Event>, slack: nat)
    requires Legal(options, events, slack)
    ensures Inv(After(options, events), slack) && After(options, events).options == options
  {
    if events == [] {
    } else {
      LegalRunsKeepInv(options, events[..|events| - 1], slack);
      StepKeepsInv(After(options, events[..|events| - 1]), events[|events| - 1], slack);
    }
  }

  lemma {:induction false} LegalRunsKill(options: Options, events: seq<Event>, slack: nat)
    requires Legal(options, events, slack)
    ensures KilledOnTimeout(After(options, events), slack)
  {
    if events == [] {
    } else {
      LegalRunsKill(options, events[..|events| - 1], slack);
      LegalRunsKeepInv(options, events[..|events| - 1], slack);
    }
  }

  /**
   * Whatever the child emits and in whatever order, the promise settles at most once; with a timeout,
   * time cannot pass the timeout and fifteen seconds (and twice the slack) before it has; and it is not
   * settled for a timeout or a failed kill before their time. The child is killed when the timeout fires.
   */
  lemma SettlesOnceInTime(options: Options, events: seq<Event>, slack: nat)
    requires Legal(options, events, slack)
    ensures var s := After(options, events);
            && |s.settlements| <= 1
            && (options.timeoutMs.Some? ==>
                  var deadline := Deadline(options.timeoutMs.value, slack);
                  if s.settlements == [] then s.now <= deadline else s.settlements[0].at <= deadline)
            && (s.settlements != [] ==> NotEarly(options, s.settlements[0]))
            && KilledOnTimeout(s, slack)
  {
    LegalRunsKeepInv(options, events, slack);
    LegalRunsKill(options, events, slack);
  }

  /** When the promise was last reported to be waited for, or the run began. */
  function LastBeat(options: Options, events: seq<Event>): nat {
    if events == [] then 0
    else
      var earlier := events[..|events| - 1];
      if events[|events| - 1].Heartbeat? then After(options, earlier).now else LastBeat(options, earlier)
  }

  /** As long as the promise is open the heartbeat is due its interval after the last one, and later it is off. */
  lemma {:induction false} HeartbeatsAreSpaced(options: Options, events: seq<Event>, slack: nat)
    requires Legal(options, events, slack)
    ensures var s := After(options, events);
            s.heartbeatTimer == if s.settlements == [] && options.heartbeatMs > 0
                                then Armed(LastBeat(options, events) + options.heartbeatMs) else Off
  {
    LegalRunsKeepInv(options, events, slack);
    if events != [] {
      LegalRunsKeepInv(options, events[..|events| - 1], slack);
      HeartbeatsAreSpaced(options, events[..|events| - 1], slack);
    }
  }

  /** The deadline does not hold for want of runs: time can pass or a timer is due. */
  lemma TimeOrATimerMoves(options: Options, events: seq<Event>, slack: nat)
    requires Legal(options, events, slack)
    ensures Legal(options, events + [Tick(1)], slack)
      || Legal(options, events + [Timeout(false)], slack)
      || Legal(options, events + [KillWait], slack)
  {
    forall e: Event ensures (events + [e])[..|events + [e]| - 1] == events {
    }
  }

  lemma OneMore(options: Options, events: seq<Event>, e: Event, slack: nat)
    requires Legal(options, events, slack) && Enabled(After(options, events), e, slack)
    ensures Legal(options, events + [e], slack) && After(options, events + [e]) == Step(After(options, events), e)
  {
    assert (events + [e])[..|events + [e]| - 1] == events;
  }

  lemma WaitForKill(options: Options, events: seq<Event>, slack: nat) returns (more: seq<Event>)
    requires Legal(options, events, slack) && Inv(After(options, events), slack)
    requires !After(options, events).settled && After(options, events).timedOut
    ensures Legal(options, events + more, slack) && After(options, events + more).settled
  {
    var s := After(options, events);
    var wait := Tick(if s.killWaitTimer.due > s.now then s.killWaitTimer.due - s.now else 0);
    OneMore(options, events, wait, slack);
    OneMore(options, events + [wait], KillWait, slack);
    more := [wait] + [KillWait];
    assert events + more == events + [wait] + [KillWait];
  }

  lemma WaitForTimeout(options: Options, events: seq<Event>, slack: nat) returns (more: seq<Event>)
    requires Legal(options, events, slack) && Inv(After(options, events), slack)
    requires After(options, events).timer.Armed? && !After(options, events).settled
    ensures Legal(options, events + more, slack) && Inv(After(options, events + more), slack)
    ensures !After(options, events + more).settled && After(options, events + more).timedOut
  {
    var s := After(options, events);
    var wait := Tick(if s.timer.due > s.now then s.timer.due - s.now else 0);
    OneMore(options, events, wait, slack);
    StepKeepsInv(s, wait, slack);
    OneMore(options, events + [wait], Timeout(false), slack);
    StepKeepsInv(Step(s, wait), Timeout(false), slack);
    more := [wait] + [Timeout(false)];
    assert events + more == events + [wait] + [Timeout(false)];
  }

  /** With a timeout every run can go on until the promise is settled. */
  lemma EveryRunCanSettle(options: Options, events: seq<Event>, slack: nat) returns (more: seq<Event>)
    requires Legal(options, events, slack) && options.timeoutMs.Some?
    ensures Legal(options, events + more, slack) && After(options, events + more).settled
  {
    LegalRunsKeepInv(options, events, slack);
    var s := After(options, events);
    if s.settled {
      more := [];
      assert events + more == events;
    } else if s.timedOut {
      more := WaitForKill(options, events, slack);
    } else {
      var first := WaitForTimeout(options, events, slack);
      var rest := WaitForKill(options, events + first, slack);
      more := first + rest;
      assert events + more == events + first + rest;
    }
  }

  // ---------------------------------------------------------------- with which outcome

  function Printed(events: seq<Event>): string {
    if events == [] then ""
    else
      var last := events[|events| - 1];
      Printed(events[..|events| - 1]) + (if last.Stdout? then last.text else "")
  }

  function Complained(events: seq<Event>): string {
    if events == [] then ""
    else
      var last := events[|events| - 1];
      Complained(events[..|events| - 1]) + (if last.Stderr? then last.text else "")
  }

  predicate HasTimedOut(events: seq<Event>) {
    exists i | 0 <= i < |events| :: events[i].Timeout?
  }

  /** What the history up to the first settling event makes of the promise, told without timers. */
  function Verdict(options: Options, events: seq<Event>): Option<Outcome> {
    if events == [] then None
    else
      var earlier, last := events[..|events| - 1], events[|events| - 1];
      if Verdict(options, earlier).Some? then Verdict(options, earlier)
      else
        match last
        case ChildError => Some(ChildFailed)
        case Timeout(fails) => if fails then Some(ChildFailed) else None
        case KillWait => Some(NotTerminated)
        case Close(None) => // killed by a signal
          Some(if HasTimedOut(earlier) then TimedOut
               else if options.check then Failed(1)
               else Fulfilled(1, Printed(earlier), Complained(earlier)))
        case Close(Some(code)) =>
          Some(if HasTimedOut(earlier) then TimedOut
               else if options.check && code != 0 then Failed(code)
               else Fulfilled(code, Printed(earlier), Complained(earlier)))
        case _ => None
  }

  lemma HasTimedOutOfLonger(events: seq<Event>, e: Event)
    ensures HasTimedOut(events + [e]) <==> HasTimedOut(events) || e.Timeout?
  {
    var longer := events + [e];
    if HasTimedOut(events) {
      var i :| 0 <= i < |events| && events[i].Timeout?;
      assert longer[i].Timeout?;
    } else if e.Timeout? {
      assert longer[|events|].Timeout?;
    }
  }

  lemma {:induction false} HistoryIsKept(options: Options, events: seq<Event>)
    ensures var s := After(options, events);
            && s.stdout == Printed(events) && s.stderr == Complained(events) && s.timedOut == HasTimedOut(events)
            && s.options == options
  {
    if events == [] {
    } else {
      var earlier, last := events[..|events| - 1], events[|events| - 1];
      HistoryIsKept(options, earlier);
      assert events == earlier + [last];
      HasTimedOutOfLonger(earlier, last);
    }
  }

  /** The first call of resolvePromise or rejectPromise, if there was one, and the first settling event agree. */
  ghost predicate Agree(s: State, verdict: Option<Outcome>) {
    if s.settlements == [] then verdict.None? else verdict == Some(s.settlements[0].outcome)
  }

  /** What the last event does to the promise is what it does to the verdict. */
  lemma VerdictOfLonger(options: Options, earlier: seq<Event>, e: Event, slack: nat)
    requires Inv(After(options, earlier), slack) && Enabled(After(options, earlier), e, slack)
    requires Agree(After(options, earlier), Verdict(options, earlier))
    ensures Agree(Step(After(options, earlier), e), Verdict(options, earlier + [e]))
  {
    var s := After(options, earlier);
    HistoryIsKept(options, earlier);
    assert (earlier + [e])[..|earlier|] == earlier;
    assert s.settled <==> s.settlements != [];
  }

  /**
   * The promise settles exactly when the history has a verdict, and with that verdict. In particular it
   * is fulfilled only by a close before the timeout fired, with exit code 0 or with the check off, and
   * then with all that the child had printed.
   */
  lemma {:induction false} OutcomeIsTheVerdict(options: Options, events: seq<Event>, slack: nat)
    requires Legal(options, events, slack)
    ensures Agree(After(options, events), Verdict(options, events))
  {
    if events == [] {
    } else {
      var earlier, last := events[..|events| - 1], events[|events| - 1];
      OutcomeIsTheVerdict(options, earlier, slack);
      LegalRunsKeepInv(options, earlier, slack);
      VerdictOfLonger(options, earlier, last, slack);
      assert events == earlier + [last];
    }
  }

  // ---------------------------------------------------------------- what is left armed

  /** There was a timeout whose kill failed on the spot, and the kill-wait timer has not fired since. */
  predicate FailedKillPending(events: seq<Event>) {
    events != []
    && (var last := events[|events| - 1];
        last == Timeout(true) || (!last.KillWait? && FailedKillPending(events[..|events| - 1])))
  }

  ghost predicate LeftArmed(s: State) {
    s.settled && s.killWaitTimer.Armed?
  }

  lemma StepLeavesArmed(s: State, e: Event, slack: nat)
    requires Inv(s, slack) && Enabled(s, e, slack)
    ensures LeftArmed(Step(s, e)) <==> e == Timeout(true) || (!e.KillWait? && LeftArmed(s))
  {
    match e
    case Timeout(_) => assert !s.settled;
    case _ =>
  }

  /**
   * Once the promise is settled the timeout and the heartbeat are off. The kill-wait timer is off too,
   * except after a timeout whose kill failed on the spot: that settles the promise, and the timer is
   * armed afterwards.
   */
  lemma {:induction false} WhatIsLeftArmed(options: Options, events: seq<Event>, slack: nat)
    requires Legal(options, events, slack)
    ensures var s := After(options, events);
            && (s.settled ==> s.timer == Off && s.heartbeatTimer == Off)
            && (LeftArmed(s) <==> FailedKillPending(events))
  {
    if events == [] {
    } else {
      var earlier, last := events[..|events| - 1], events[|events| - 1];
      LegalRunsKeepInv(options, earlier, slack);
      LegalRunsKeepInv(options, events, slack);
      WhatIsLeftArmed(options, earlier, slack);
      StepLeavesArmed(After(options, earlier), last, slack);
    }
  }

  lemma ATimerCanStayArmed()
    ensures exists options, events ::
      Legal(options, events, 0) && After(options, events).settled && After(options, events).killWaitTimer.Armed?
  {
    var options := Options(Some(1), true, 0);
    var events := [Tick(1), Timeout(true)];
    assert events[..1] == [Tick(1)] && [Tick(1)][..0] == [];
    assert Legal(options, [Tick(1)], 0);
    assert Legal(options, events, 0);
  }
}
