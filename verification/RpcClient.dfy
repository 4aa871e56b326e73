/**
 * PiRpcClient of scripts/control-ui-i18n.ts: prompts are serialised over one child process, and
 * each is settled by a line on stdout, by its timeout, by a write error or by the end of the process.
 *
 * The client is a step machine. Its events are adversarial: any line may arrive at any moment, any
 * number of calls may be waiting. Only timers are assumed to be punctual, so time does not move
 * past the deadline of an armed timer.
 */
module RpcClient {
  import opened Prelude
  import BatchPlanner
  import Translator

  /**
   * A line of the child's stdout. `about` says which prompt the agent was answering; an `agent_end`
   * line does not carry it and the client never reads it, so it only serves to state properties.
   */
  datatype Line =
    | Response(id: nat, success: bool)
    | AgentEnd(about: nat, answer: Result<string, string>)  // Err: extractTranslationResult throws
    | Noise                                                 // blank, not JSON, or of another type

  datatype Pending = Pending(id: nat, responseReceived: bool)

  /** Why a prompt was rejected. */
  datatype Reason =
    | TimedOut
    | Refused                 // by a response line
    | Unusable(error: string) // extractTranslationResult threw
    | WriteFailed
    | ProcessFailed
    | ProcessClosed
    | Unavailable             // the client was closed before the prompt's turn

  /** How the promise of a call was settled, and when. */
  datatype Settlement =
    | Resolved(at: nat, about: nat, answer: string)
    | Rejected(at: nat, reason: Reason)

  /** Request number k, that is `req-k`, is entry k - 1 of the start log. */
  datatype Start = Start(call: nat, at: nat)

  datatype Client = Client(
    now: nat,
    closed: bool,
    requestCount: nat,
    pending: Option<Pending>,
    timeouts: map<nat, nat>,       // armed timeouts, by request, with their deadlines
    heartbeats: set<nat>,          // armed heartbeat intervals, by request
    calls: nat,                    // calls of prompt() so far; the promise chain runs them in turn
    begun: nat,                    // calls the chain has reached
    started: seq<Start>,
    settled: map<nat, Settlement>  // by call
  )

  datatype Event =
    | Prompt                 // somebody calls prompt()
    | Begin                  // the promise chain reaches the next call
    | Stdout(line: Line)
    | Timeout(request: nat)
    | WriteError(request: nat)
    | ProcessError
    | ProcessClose
    | Close
    | Tick(ms: nat)

  const FRESH := Client(0, false, 0, None, map[], {}, 0, 0, [], map[])

  /** A promise is settled once; later attempts change nothing. */
  function Settle(s: Client, call: nat, settlement: Settlement): Client {
    if call in s.settled then s else s.(settled := s.settled[call := settlement])
  }

  /** The `reject` and `resolve` that prompt() stores: disarm both timers, then settle. */
  function Finish(s: Client, request: nat, settlement: Settlement): Client
    requires 0 < request <= |s.started|
  {
    Settle(s.(timeouts := s.timeouts - {request}, heartbeats := s.heartbeats - {request}),
           s.started[request - 1].call, settlement)
  }

  /** Every request that has a timer or is pending was started. */
  ghost predicate WellFormed(s: Client) {
    && |s.started| == s.requestCount
    && (s.pending.Some? ==> 0 < s.pending.value.id <= s.requestCount)
    && (forall request | request in s.timeouts :: 0 < request <= s.requestCount)
  }

  function RejectPending(s: Client, reason: Reason): Client
    requires s.pending.Some? ==> 0 < s.pending.value.id <= |s.started|
  {
    match s.pending
    case None => s
    case Some(p) => Finish(s.(pending := None), p.id, Rejected(s.now, reason))
  }

  function HandleLine(s: Client, line: Line): Client
    requires s.pending.Some? ==> 0 < s.pending.value.id <= |s.started|
  {
    match s.pending
    case None => s
    case Some(p) =>
      match line
      case Noise => s
      case Response(id, success) =>
        if id != p.id then s
        else if !success then Finish(s.(pending := None), p.id, Rejected(s.now, Refused))
        else s.(pending := Some(p.(responseReceived := true)))
      case AgentEnd(about, Ok(text)) => Finish(s.(pending := None), p.id, Resolved(s.now, about, text))
      case AgentEnd(_, Err(error)) => Finish(s.(pending := None), p.id, Rejected(s.now, Unusable(error)))
  }

  /** The body of the promise chain for the next call. */
  function BeginCall(s: Client, timeoutMs: nat): Client {
    var call, next := s.begun, s.(begun := s.begun + 1);
    if s.closed then Settle(next, call, Rejected(s.now, Unavailable))
    else
      var id := s.requestCount + 1;
      next.(requestCount := id,
            started := s.started + [Start(call, s.now)],
            timeouts := s.timeouts[id := s.now + timeoutMs],
            heartbeats := s.heartbeats + {id},
            pending := Some(Pending(id, false)))
  }

  function FireTimeout(s: Client, request: nat): Client
    requires 0 < request <= |s.started|
  {
    var fired := s.(timeouts := s.timeouts - {request});
    if s.pending.Some? && s.pending.value.id == request then
      Settle(fired.(pending := None, heartbeats := s.heartbeats - {request}, closed := true),
             s.started[request - 1].call, Rejected(s.now, TimedOut))
    else fired
  }

  function FailWrite(s: Client, request: nat): Client
    requires 0 < request <= |s.started|
  {
    var dropped := if s.pending.Some? && s.pending.value.id == request then s.(pending := None) else s;
    Finish(dropped, request, Rejected(s.now, WriteFailed))
  }

  ghost predicate Enabled(s: Client, e: Event) {
    match e
    case Begin => s.begun < s.calls && (s.begun == 0 || s.begun - 1 in s.settled)
    case Timeout(request) => request in s.timeouts && s.timeouts[request] <= s.now
    case WriteError(request) => 0 < request <= s.requestCount
    case Tick(ms) => forall request | request in s.timeouts :: s.now + ms <= s.timeouts[request]
    case _ => true
  }

  ghost function Step(s: Client, e: Event, timeoutMs: nat): Client
    requires WellFormed(s) && Enabled(s, e)
  {
    match e
    case Prompt => s.(calls := s.calls + 1)
    case Begin => BeginCall(s, timeoutMs)
    case Stdout(line) => HandleLine(s, line)
    case Timeout(request) => FireTimeout(s, request)
    case WriteError(request) => FailWrite(s, request)
    case ProcessError => RejectPending(s, ProcessFailed)
    case ProcessClose => RejectPending(s.(closed := true), ProcessClosed)
    case Close => s.(closed := true)
    case Tick(ms) => s.(now := s.now + ms)
  }

  /** The state after a sequence of events, each possible when it happens. */
  ghost predicate Reaches(s: Client, events: seq<Event>, end: Client, timeoutMs: nat)
    decreases |events|
  {
    if events == [] then s == end
    else WellFormed(s) && Enabled(s, events[0]) && Reaches(Step(s, events[0], timeoutMs), events[1..], end, timeoutMs)
  }

  // ---------------------------------------------------------------- the class

  class PiRpcClient {
    const timeoutMs: nat
    var closed: bool
    var pending: Option<Pending>
    var requestCount: nat
    var timeouts: map<nat, nat>
    var heartbeats: set<nat>
    var now: nat
    var calls: nat
    var begun: nat
    var started: seq<Start>
    var settled: map<nat, Settlement>

    ghost function State(): Client
      reads this
    {
      Client(now, closed, requestCount, pending, timeouts, heartbeats, calls, begun, started, settled)
    }

    constructor (timeoutMs: nat)
      ensures this.timeoutMs == timeoutMs
      ensures State() == FRESH
    {
      this.timeoutMs := timeoutMs;
      closed, pending, requestCount := false, None, 0;
      timeouts, heartbeats := map[], {};
      now, calls, begun, started, settled := 0, 0, 0, [], map[];
    }

    method SettleCall(call: nat, settlement: Settlement)
      modifies this`settled
      ensures State() == Settle(old(State()), call, settlement)
    {
      if call !in settled {
        settled := settled[call := settlement];
      }
    }

    method FinishRequest(request: nat, settlement: Settlement)
      requires 0 < request <= |started|
      modifies this`timeouts, this`heartbeats, this`settled
      ensures State() == Finish(old(State()), request, settlement)
    {
      timeouts := timeouts - {request};
      heartbeats := heartbeats - {request};
      SettleCall(started[request - 1].call, settlement);
    }

    method RejectPendingPrompt(reason: Reason)
      requires WellFormed(State())
      modifies this
      ensures State() == RejectPending(old(State()), reason)
    {
      var p := pending;
      pending := None;
      if p.Some? {
        FinishRequest(p.value.id, Rejected(now, reason));
      }
    }

    method OnProcessError()
      requires WellFormed(State())
      modifies this
      ensures State() == Step(old(State()), ProcessError, timeoutMs)
    {
      RejectPendingPrompt(ProcessFailed);
    }

    method OnProcessClose()
      requires WellFormed(State())
      modifies this
      ensures State() == Step(old(State()), ProcessClose, timeoutMs)
    {
      closed := true;
      RejectPendingPrompt(ProcessClosed);
    }

    method HandleStdoutLine(line: Line)
      requires WellFormed(State())
      modifies this
      ensures State() == Step(old(State()), Stdout(line), timeoutMs)
    {
      if pending.None? {
        return;
      }
      var p := pending.value;
      match line {
        case Noise =>
        case Response(id, success) =>
          if id != p.id {
            return;
          }
          if !success {
            pending := None;
            FinishRequest(p.id, Rejected(now, Refused));
            return;
          }
          pending := Some(p.(responseReceived := true));
        case AgentEnd(about, answer) =>
          pending := None;
          match answer {
            case Ok(text) => FinishRequest(p.id, Resolved(now, about, text));
            case Err(error) => FinishRequest(p.id, Rejected(now, Unusable(error)));
          }
      }
    }

    method EnqueuePrompt()
      requires WellFormed(State())
      modifies this`calls
      ensures State() == Step(old(State()), Prompt, timeoutMs)
    {
      calls := calls + 1;
    }

    method BeginNextCall()
      requires WellFormed(State()) && Enabled(State(), Begin)
      modifies this
      ensures State() == Step(old(State()), Begin, timeoutMs)
    {
      var call := begun;
      begun := begun + 1;
      if closed {
        SettleCall(call, Rejected(now, Unavailable));
        return;
      }
      requestCount := requestCount + 1;
      var id := requestCount;
      started := started + [Start(call, now)];
      heartbeats := heartbeats + {id};
      timeouts := timeouts[id := now + timeoutMs];
      pending := Some(Pending(id, false));
    }

    method OnTimeout(request: nat)
      requires WellFormed(State()) && Enabled(State(), Timeout(request))
      modifies this
      ensures State() == Step(old(State()), Timeout(request), timeoutMs)
    {
      timeouts := timeouts - {request};
      if pending.Some? && pending.value.id == request {
        pending := None;
        heartbeats := heartbeats - {request};
        closed := true;
        SettleCall(started[request - 1].call, Rejected(now, TimedOut));
      }
    }

    method OnWriteError(request: nat)
      requires WellFormed(State()) && Enabled(State(), WriteError(request))
      modifies this
      ensures State() == Step(old(State()), WriteError(request), timeoutMs)
    {
      timeouts := timeouts - {request};
      heartbeats := heartbeats - {request};
      if pending.Some? && pending.value.id == request {
        pending := None;
      }
      SettleCall(started[request - 1].call, Rejected(now, WriteFailed));
    }

    method CloseClient()
      requires WellFormed(State())
      modifies this`closed
      ensures State() == Step(old(State()), Close, timeoutMs)
    {
      if closed {
        return;
      }
      closed := true;
    }
  }

  // ---------------------------------------------------------------- one prompt at a time

  ghost predicate StartsInOrder(s: Client) {
    && (forall i | 0 <= i < |s.started| :: s.started[i].call < s.begun && s.started[i].at <= s.now)
    && (forall i, j | 0 <= i < j < |s.started| :: s.started[i].call < s.started[j].call)
  }

  ghost predicate SettledInTime(s: Client, timeoutMs: nat) {
    forall i | 0 <= i < |s.started| && s.started[i].call in s.settled ::
      s.started[i].at <= s.settled[s.started[i].call].at <= s.started[i].at + timeoutMs
  }

  /** What every reachable state satisfies. */
  ghost predicate Inv(s: Client, timeoutMs: nat) {
    && WellFormed(s)
    && s.begun <= s.calls
    && StartsInOrder(s)
    && SettledInTime(s, timeoutMs)
    && match s.pending
       case Some(p) =>
         && p.id == s.requestCount
         && var last := s.started[|s.started| - 1];
         && last.call + 1 == s.begun
         && s.timeouts == map[p.id := last.at + timeoutMs]
         && s.heartbeats == {p.id}
         && last.at <= s.now <= last.at + timeoutMs
         && (forall call: nat :: call in s.settled <==> call + 1 < s.begun)
       case None =>
         && s.timeouts == map[]
         && s.heartbeats == {}
         && (forall call: nat :: call in s.settled <==> call < s.begun)
  }

  /** Settling the pending prompt now leaves an idle client. */
  lemma FinishKeepsInv(s: Client, settlement: Settlement, timeoutMs: nat)
    requires Inv(s, timeoutMs) && s.pending.Some? && settlement.at == s.now
    ensures Inv(Finish(s.(pending := None), s.pending.value.id, settlement), timeoutMs)
  {
    var t := Finish(s.(pending := None), s.pending.value.id, settlement);
    assert t.timeouts == map[] && t.heartbeats == {};
  }

  lemma BeginKeepsInv(s: Client, timeoutMs: nat)
    requires Inv(s, timeoutMs) && Enabled(s, Begin)
    ensures Inv(BeginCall(s, timeoutMs), timeoutMs)
  {
    assert s.pending.None?;
  }

  lemma FailWriteKeepsInv(s: Client, request: nat, timeoutMs: nat)
    requires Inv(s, timeoutMs) && 0 < request <= s.requestCount
    ensures Inv(FailWrite(s, request), timeoutMs)
    ensures !(s.pending.Some? && s.pending.value.id == request) ==> FailWrite(s, request) == s
  {
    if s.pending.Some? && s.pending.value.id == request {
      FinishKeepsInv(s, Rejected(s.now, WriteFailed), timeoutMs);
    } else {
      assert request < s.requestCount || s.pending.None?;
      assert s.started[request - 1].call in s.settled;
      assert s.timeouts - {request} == s.timeouts && s.heartbeats - {request} == s.heartbeats;
    }
  }

  lemma FireTimeoutKeepsInv(s: Client, request: nat, timeoutMs: nat)
    requires Inv(s, timeoutMs) && Enabled(s, Timeout(request))
    ensures Inv(FireTimeout(s, request), timeoutMs)
    ensures FireTimeout(s, request) == Finish(s.(pending := None), request, Rejected(s.now, TimedOut)).(closed := true)
  {
    FinishKeepsInv(s, Rejected(s.now, TimedOut), timeoutMs);
  }

  lemma LineKeepsInv(s: Client, line: Line, timeoutMs: nat)
    requires Inv(s, timeoutMs)
    ensures Inv(HandleLine(s, line), timeoutMs)
  {
    if s.pending.Some? {
      FinishKeepsInv(s, Rejected(s.now, Refused), timeoutMs);
      if line.AgentEnd? {
        FinishKeepsInv(s, match line.answer case Ok(text) => Resolved(s.now, line.about, text) case Err(error) => Rejected(s.now, Unusable(error)),
                       timeoutMs);
      }
    }
  }

  lemma ProcessEndKeepsInv(s: Client, closed: bool, reason: Reason, timeoutMs: nat)
    requires Inv(s, timeoutMs)
    ensures Inv(RejectPending(s.(closed := closed), reason), timeoutMs)
  {
    if s.pending.Some? {
      FinishKeepsInv(s.(closed := closed), Rejected(s.now, reason), timeoutMs);
    }
  }

  lemma TickKeepsInv(s: Client, ms: nat, timeoutMs: nat)
    requires Inv(s, timeoutMs) && Enabled(s, Tick(ms))
    ensures Inv(s.(now := s.now + ms), timeoutMs)
  {
    if s.pending.Some? {
      assert s.requestCount in s.timeouts;
    }
  }

  lemma StepKeepsInv(s: Client, e: Event, timeoutMs: nat)
    requires Inv(s, timeoutMs) && Enabled(s, e)
    ensures Inv(Step(s, e, timeoutMs), timeoutMs)
  {
    match e {
      case Begin => BeginKeepsInv(s, timeoutMs);
      case WriteError(request) => FailWriteKeepsInv(s, request, timeoutMs);
      case Timeout(request) => FireTimeoutKeepsInv(s, request, timeoutMs);
      case ProcessError => ProcessEndKeepsInv(s, s.closed, ProcessFailed, timeoutMs);
      case ProcessClose => ProcessEndKeepsInv(s, true, ProcessClosed, timeoutMs);
      case Stdout(line) => LineKeepsInv(s, line, timeoutMs);
      case Tick(ms) => TickKeepsInv(s, ms, timeoutMs);
      case Prompt =>
      case Close =>
    }
  }

  lemma {:induction false} ReachableInv(s: Client, events: seq<Event>, end: Client, timeoutMs: nat)
    requires Inv(s, timeoutMs) && Reaches(s, events, end, timeoutMs)
    ensures Inv(end, timeoutMs)
    decreases |events|
  {
    if events == [] {
    } else {
      StepKeepsInv(s, events[0], timeoutMs);
      ReachableInv(Step(s, events[0], timeoutMs), events[1..], end, timeoutMs);
    }
  }

  /** Started, and neither resolved nor rejected yet. */
  ghost predicate Open(s: Client, i: nat) {
    i < |s.started| && s.started[i].call !in s.settled
  }

  /**
   * In every reachable state at most one prompt is open, prompts have started in the order of the
   * calls, every prompt is settled at most timeoutMs after its start, an open prompt has its heartbeat
   * and a timeout that is due exactly timeoutMs after its start, and a settled prompt has neither.
   */
  lemma PromptsAreSerialised(events: seq<Event>, s: Client, timeoutMs: nat)
    requires Reaches(FRESH, events, s, timeoutMs)
    ensures forall i: nat, j: nat | Open(s, i) && Open(s, j) :: i == j
    ensures forall i, j | 0 <= i < j < |s.started| :: s.started[i].call < s.started[j].call
    ensures forall i: nat | i < |s.started| ::
              if Open(s, i) then s.now <= s.started[i].at + timeoutMs
              else s.settled[s.started[i].call].at <= s.started[i].at + timeoutMs
    ensures forall i: nat | i < |s.started| && !Open(s, i) :: i + 1 !in s.timeouts && i + 1 !in s.heartbeats
    ensures forall i: nat | Open(s, i) ::
              i + 1 in s.heartbeats && i + 1 in s.timeouts && s.timeouts[i + 1] == s.started[i].at + timeoutMs
  {
    ReachableInv(FRESH, events, s, timeoutMs);
    if s.pending.Some? {
      forall i: nat | Open(s, i) ensures i == |s.started| - 1 {
      }
    }
  }

  /** The deadlines do not hold for want of runs: in every reachable state time can pass or a timeout is due. */
  lemma TimeOrATimerMoves(events: seq<Event>, s: Client, timeoutMs: nat)
    requires Reaches(FRESH, events, s, timeoutMs)
    ensures WellFormed(s)
    ensures Enabled(s, Tick(1)) || exists request :: Enabled(s, Timeout(request))
  {
    ReachableInv(FRESH, events, s, timeoutMs);
    if !Enabled(s, Tick(1)) {
      var request :| request in s.timeouts && s.now + 1 > s.timeouts[request];
      assert Enabled(s, Timeout(request));
    }
  }

  ghost predicate KeepsSettlement(s: Client, t: Client, call: nat)
    requires call in s.settled
  {
    call in t.settled && t.settled[call] == s.settled[call]
  }

  lemma LineKeepsSettlements(s: Client, line: Line, call: nat)
    requires WellFormed(s) && call in s.settled
    ensures KeepsSettlement(s, HandleLine(s, line), call)
  {
  }

  lemma StepKeepsSettlements(s: Client, e: Event, timeoutMs: nat, call: nat)
    requires WellFormed(s) && Enabled(s, e) && call in s.settled
    ensures KeepsSettlement(s, Step(s, e, timeoutMs), call)
  {
    match e {
      case Stdout(line) => LineKeepsSettlements(s, line, call);
      case WriteError(request) => assert KeepsSettlement(s, FailWrite(s, request), call);
      case Timeout(request) => assert KeepsSettlement(s, FireTimeout(s, request), call);
      case _ =>
    }
  }

  /** Once a call is settled it keeps its settlement, whatever happens later. */
  lemma {:induction false} SettledForGood(s: Client, events: seq<Event>, end: Client, timeoutMs: nat, call: nat)
    requires Inv(s, timeoutMs) && Reaches(s, events, end, timeoutMs) && call in s.settled
    ensures call in end.settled && end.settled[call] == s.settled[call]
    decreases |events|
  {
    if events == [] {
    } else {
      StepKeepsInv(s, events[0], timeoutMs);
      StepKeepsSettlements(s, events[0], timeoutMs, call);
      SettledForGood(Step(s, events[0], timeoutMs), events[1..], end, timeoutMs, call);
    }
  }

  // ---------------------------------------------------------------- what settles a call

  /** The call was started as this request, which waits for its answer. */
  ghost predicate Awaits(s: Client, call: nat, request: nat) {
    s.pending.Some? && s.pending.value.id == request && 0 < request <= |s.started| && s.started[request - 1].call == call
  }

  /**
   * The event settles the call in this way: the text of an `agent_end` line resolves what is pending; a
   * line that turns it down, its timeout, a write error and the end of the process reject it; a call that
   * comes to a closed client is rejected.
   */
  ghost predicate Settles(s: Client, e: Event, call: nat, settlement: Settlement) {
    match e
    case Stdout(AgentEnd(about, Ok(text))) => (exists request :: Awaits(s, call, request)) && settlement == Resolved(s.now, about, text)
    case Stdout(AgentEnd(_, Err(error))) => (exists request :: Awaits(s, call, request)) && settlement == Rejected(s.now, Unusable(error))
    case Stdout(Response(id, success)) => Awaits(s, call, id) && !success && settlement == Rejected(s.now, Refused)
    case Stdout(Noise) => false
    case Timeout(request) => Awaits(s, call, request) && settlement == Rejected(s.now, TimedOut)
    case WriteError(request) => Awaits(s, call, request) && settlement == Rejected(s.now, WriteFailed)
    case ProcessError => (exists request :: Awaits(s, call, request)) && settlement == Rejected(s.now, ProcessFailed)
    case ProcessClose => (exists request :: Awaits(s, call, request)) && settlement == Rejected(s.now, ProcessClosed)
    case Begin => s.closed && call == s.begun && settlement == Rejected(s.now, Unavailable)
    case _ => false
  }

  ghost predicate SettledAs(s: Client, call: nat, settlement: Settlement) {
    call in s.settled && s.settled[call] == settlement
  }

  lemma LineSettlesExactly(s: Client, line: Line, timeoutMs: nat, call: nat, settlement: Settlement)
    requires Inv(s, timeoutMs) && call !in s.settled
    ensures SettledAs(HandleLine(s, line), call, settlement) <==> Settles(s, Stdout(line), call, settlement)
  {
    if s.pending.Some? {
      assert Awaits(s, s.started[s.pending.value.id - 1].call, s.pending.value.id);
    }
  }

  lemma StepSettlesExactly(s: Client, e: Event, timeoutMs: nat, call: nat, settlement: Settlement)
    requires Inv(s, timeoutMs) && Enabled(s, e) && call !in s.settled
    ensures SettledAs(Step(s, e, timeoutMs), call, settlement) <==> Settles(s, e, call, settlement)
  {
    if s.pending.Some? {
      assert Awaits(s, s.started[s.pending.value.id - 1].call, s.pending.value.id);
    }
    match e {
      case Stdout(line) => LineSettlesExactly(s, line, timeoutMs, call, settlement);
      case WriteError(request) => FailWriteKeepsInv(s, request, timeoutMs);
      case _ =>
    }
  }

  /** The event at position i settles the call: `before` is the state in which it happens. */
  ghost predicate SettledAt(events: seq<Event>, i: nat, before: Client, call: nat, settlement: Settlement, timeoutMs: nat) {
    && i < |events| && Reaches(FRESH, events[..i], before, timeoutMs)
    && call !in before.settled && Settles(before, events[i], call, settlement)
  }

  lemma {:induction false} SettledBySomeEvent(s: Client, events: seq<Event>, end: Client, timeoutMs: nat, call: nat)
    returns (i: nat, before: Client)
    requires Inv(s, timeoutMs) && Reaches(s, events, end, timeoutMs) && call !in s.settled && call in end.settled
    ensures i < |events| && Reaches(s, events[..i], before, timeoutMs)
    ensures call !in before.settled && Settles(before, events[i], call, end.settled[call])
    decreases |events|
  {
    var next, later := Step(s, events[0], timeoutMs), events[1..];
    StepKeepsInv(s, events[0], timeoutMs);
    if call in next.settled {
      i, before := 0, s;
      StepSettlesExactly(s, events[0], timeoutMs, call, next.settled[call]);
      SettledForGood(next, later, end, timeoutMs, call);
    } else {
      i, before := SettledBySomeEvent(next, later, end, timeoutMs, call);
      assert events[..i + 1][0] == events[0] && events[..i + 1][1..] == later[..i];
      i := i + 1;
    }
  }

  /** A run goes through one state at each position. */
  lemma {:induction false} RunPassesThrough(s: Client, events: seq<Event>, i: nat, before: Client, end: Client, timeoutMs: nat)
    requires i <= |events| && Reaches(s, events[..i], before, timeoutMs) && Reaches(s, events, end, timeoutMs)
    ensures Reaches(before, events[i..], end, timeoutMs)
    decreases i
  {
    if i == 0 {
    } else {
      var later := events[1..];
      assert events[..i][0] == events[0] && events[..i][1..] == later[..i - 1] && events[i..] == later[i - 1..];
      RunPassesThrough(Step(s, events[0], timeoutMs), later, i - 1, before, end, timeoutMs);
    }
  }

  /**
   * A call is settled exactly when one of the events so far settled it, and as that event said. So a call
   * that was resolved got the text of an `agent_end` line that arrived while it was pending.
   */
  lemma EverySettlementHasItsEvent(events: seq<Event>, end: Client, timeoutMs: nat, call: nat, settlement: Settlement)
    requires Reaches(FRESH, events, end, timeoutMs)
    ensures SettledAs(end, call, settlement) <==> exists i, before :: SettledAt(events, i, before, call, settlement, timeoutMs)
  {
    if SettledAs(end, call, settlement) {
      var i, before := SettledBySomeEvent(FRESH, events, end, timeoutMs, call);
      assert SettledAt(events, i, before, call, settlement, timeoutMs);
    }
    forall i: nat, before | SettledAt(events, i, before, call, settlement, timeoutMs) ensures SettledAs(end, call, settlement) {
      ReachableInv(FRESH, events[..i], before, timeoutMs);
      RunPassesThrough(FRESH, events, i, before, end, timeoutMs);
      assert events[i..][0] == events[i];
      StepKeepsInv(before, events[i], timeoutMs);
      StepSettlesExactly(before, events[i], timeoutMs, call, settlement);
      SettledForGood(Step(before, events[i], timeoutMs), events[i..][1..], end, timeoutMs, call);
    }
  }

  /** The message of a prompt that timed out, between the label of the attempt and what the process wrote to stderr. */
  function TimeoutMessage(attempt: string, timeoutMs: string, stderr: string): string {
    attempt + ": translation prompt timed out after " + timeoutMs + "ms" + stderr
  }

  /** The translator recognises a prompt that timed out, so that it splits its batch. */
  lemma TimeoutsAreRecognised(attempt: string, timeoutMs: string, stderr: string)
    ensures Translator.IsPromptTimeout(TimeoutMessage(attempt, timeoutMs, stderr))
  {
    var message, part := TimeoutMessage(attempt, timeoutMs, stderr), "timed out";
    var i := |attempt| + |": translation prompt "|;
    assert message[i..i + |part|] == part;
    forall k | 0 <= k < |part| ensures Lower(message)[i + k] == part[k] {
      assert message[i + k] == message[i..i + |part|][k];
    }
    assert part <= Lower(message)[i..];
    ContainsMeans(Lower(message), part);
  }

  /** A success response for the request arrives while it is pending. */
  ghost predicate NotedAt(s: Client, events: seq<Event>, i: nat, before: Client, request: nat, timeoutMs: nat) {
    && i < |events| && Reaches(s, events[..i], before, timeoutMs)
    && before.pending.Some? && before.pending.value.id == request && events[i] == Stdout(Response(request, true))
  }

  ghost predicate IsPending(s: Client, request: nat) {
    s.pending.Some? && s.pending.value.id == request
  }

  lemma StepKeepsCount(s: Client, e: Event, timeoutMs: nat)
    requires Inv(s, timeoutMs) && Enabled(s, e)
    ensures Step(s, e, timeoutMs).requestCount >= s.requestCount
  {
    match e {
      case WriteError(other) => FailWriteKeepsInv(s, other, timeoutMs);
      case _ =>
    }
  }

  lemma StepPassesRequest(s: Client, e: Event, timeoutMs: nat, request: nat)
    requires Inv(s, timeoutMs) && Enabled(s, e) && request <= s.requestCount && IsPending(Step(s, e, timeoutMs), request)
    ensures IsPending(s, request)
  {
    match e {
      case WriteError(other) => FailWriteKeepsInv(s, other, timeoutMs);
      case _ =>
    }
  }

  /** A request that is not pending any more does not become pending again. */
  lemma {:induction false} RequestsPass(s: Client, events: seq<Event>, end: Client, timeoutMs: nat, request: nat)
    requires Inv(s, timeoutMs) && Reaches(s, events, end, timeoutMs)
    requires request <= s.requestCount && IsPending(end, request)
    ensures IsPending(s, request)
    decreases |events|
  {
    if events == [] {
    } else {
      var next := Step(s, events[0], timeoutMs);
      StepKeepsInv(s, events[0], timeoutMs);
      StepKeepsCount(s, events[0], timeoutMs);
      RequestsPass(next, events[1..], end, timeoutMs, request);
      StepPassesRequest(s, events[0], timeoutMs, request);
    }
  }

  lemma NotedLater(s: Client, events: seq<Event>, request: nat, timeoutMs: nat)
    requires events != [] && WellFormed(s) && Enabled(s, events[0])
    ensures (exists i, before :: NotedAt(s, events, i, before, request, timeoutMs))
      <==> (IsPending(s, request) && events[0] == Stdout(Response(request, true)))
           || exists i, before :: NotedAt(Step(s, events[0], timeoutMs), events[1..], i, before, request, timeoutMs)
  {
    var next, later := Step(s, events[0], timeoutMs), events[1..];
    if IsPending(s, request) && events[0] == Stdout(Response(request, true)) {
      assert NotedAt(s, events, 0, s, request, timeoutMs);
    }
    forall i: nat, before | NotedAt(next, later, i, before, request, timeoutMs)
      ensures NotedAt(s, events, i + 1, before, request, timeoutMs)
    {
      assert events[..i + 1][0] == events[0] && events[..i + 1][1..] == later[..i];
    }
    forall i: nat, before | NotedAt(s, events, i, before, request, timeoutMs)
      ensures i == 0 ==> IsPending(s, request)
      ensures i > 0 ==> NotedAt(next, later, i - 1, before, request, timeoutMs)
    {
      if i > 0 {
        assert events[..i][0] == events[0] && events[..i][1..] == later[..i - 1];
      }
    }
  }

  ghost predicate IsMarked(s: Client, request: nat) {
    IsPending(s, request) && s.pending.value.responseReceived
  }

  lemma StepMarks(s: Client, e: Event, timeoutMs: nat, request: nat)
    requires Inv(s, timeoutMs) && Enabled(s, e) && IsPending(Step(s, e, timeoutMs), request)
    ensures IsMarked(Step(s, e, timeoutMs), request)
      <==> IsMarked(s, request) || (IsPending(s, request) && e == Stdout(Response(request, true)))
  {
    match e {
      case WriteError(other) => FailWriteKeepsInv(s, other, timeoutMs);
      case _ =>
    }
  }

  /** A pending request is marked as received exactly when a success response for it has arrived since it became pending. */
  lemma {:induction false} ResponsesAreNoted(s: Client, events: seq<Event>, end: Client, timeoutMs: nat, request: nat)
    requires Inv(s, timeoutMs) && Reaches(s, events, end, timeoutMs) && IsPending(end, request)
    ensures IsMarked(end, request) <==> IsMarked(s, request) || exists i, before :: NotedAt(s, events, i, before, request, timeoutMs)
    decreases |events|
  {
    if events == [] {
    } else {
      var next := Step(s, events[0], timeoutMs);
      StepKeepsInv(s, events[0], timeoutMs);
      NotedLater(s, events, request, timeoutMs);
      ResponsesAreNoted(next, events[1..], end, timeoutMs, request);
      if IsPending(s, request) {
        StepKeepsCount(s, events[0], timeoutMs);
        RequestsPass(next, events[1..], end, timeoutMs, request);
      }
      if IsPending(next, request) {
        StepMarks(s, events[0], timeoutMs, request);
      }
    }
  }

  /** After these the client takes no more prompts. */
  ghost predicate Closes(e: Event) {
    e.Close? || e.ProcessClose? || e.Timeout?
  }

  lemma StepCloses(s: Client, e: Event, timeoutMs: nat)
    requires Inv(s, timeoutMs) && Enabled(s, e)
    ensures Step(s, e, timeoutMs).closed <==> s.closed || Closes(e)
    ensures s.closed ==> Step(s, e, timeoutMs).started == s.started
  {
  }

  /**
   * A client is closed exactly when it was closed, its process has ended, or a prompt has timed out; a
   * closed one starts nothing more.
   */
  lemma {:induction false} ClosedForGood(s: Client, events: seq<Event>, end: Client, timeoutMs: nat)
    requires Inv(s, timeoutMs) && Reaches(s, events, end, timeoutMs)
    ensures end.closed <==> s.closed || exists i | 0 <= i < |events| :: Closes(events[i])
    ensures s.closed ==> end.started == s.started
    decreases |events|
  {
    if events == [] {
    } else {
      var later := events[1..];
      StepKeepsInv(s, events[0], timeoutMs);
      StepCloses(s, events[0], timeoutMs);
      ClosedForGood(Step(s, events[0], timeoutMs), later, end, timeoutMs);
      assert forall i | 0 <= i < |later| :: later[i] == events[i + 1];
      if i :| 0 <= i < |events| && Closes(events[i]) {
        assert i > 0 ==> later[i - 1] == events[i];
      }
    }
  }

  // ---------------------------------------------------------------- answers belong to their prompts

  /**
   * The agent answers in order and ends each prompt at most once: an `agent_end` line is about a
   * prompt that was sent, and about a later one than the previous such line.
   */
  ghost predicate AgentAnswersInOrder(s: Client, e: Event, lastAbout: nat) {
    e.Stdout? && e.line.AgentEnd? ==> lastAbout < e.line.about <= s.requestCount
  }

  function NextAbout(e: Event, lastAbout: nat): nat {
    if e.Stdout? && e.line.AgentEnd? then e.line.about else lastAbout
  }

  ghost predicate AllResolved(s: Client) {
    forall call: nat | call < s.calls :: call in s.settled && s.settled[call].Resolved?
  }

  /** The caller prompts again only when everything it asked of this client was answered. */
  ghost predicate CallerDiscards(s: Client, e: Event) {
    e.Prompt? ==> AllResolved(s)
  }

  ghost predicate OrderlyRun(s: Client, lastAbout: nat, events: seq<Event>, end: Client, timeoutMs: nat)
    decreases |events|
  {
    if events == [] then s == end
    else
      && WellFormed(s) && Enabled(s, events[0])
      && AgentAnswersInOrder(s, events[0], lastAbout)
      && CallerDiscards(s, events[0])
      && OrderlyRun(Step(s, events[0], timeoutMs), NextAbout(events[0], lastAbout), events[1..], end, timeoutMs)
  }

  /** A resolved prompt carries the answer to that very prompt. */
  ghost predicate RightlyAttributed(s: Client) {
    forall i: nat | i < |s.started| && s.started[i].call in s.settled && s.settled[s.started[i].call].Resolved? ::
      s.settled[s.started[i].call].about == i + 1
  }

  /** Every call but the newest was answered, and its `agent_end` has been used up. */
  ghost predicate Attribution(s: Client, lastAbout: nat) {
    && RightlyAttributed(s)
    && (forall i | 0 <= i < |s.started| :: s.started[i].call == i)
    && (forall call: nat | call + 1 < s.calls :: call in s.settled && s.settled[call].Resolved?)
    && (forall call: nat | call in s.settled && s.settled[call].Resolved? :: call + 1 <= lastAbout)
    && (s.requestCount != s.begun ==>
          && s.requestCount + 1 == s.begun == s.calls
          && s.pending.None?
          && s.begun - 1 in s.settled && s.settled[s.begun - 1].Rejected?)
  }

  /** The pending prompt is rejected, or resolved by the line that is about it. */
  lemma FinishKeepsAttribution(s: Client, lastAbout: nat, settlement: Settlement, nextAbout: nat, timeoutMs: nat)
    requires Inv(s, timeoutMs) && Attribution(s, lastAbout) && s.pending.Some?
    requires lastAbout <= nextAbout
    requires settlement.Resolved? ==> settlement.about == s.pending.value.id <= nextAbout
    ensures Attribution(Finish(s.(pending := None), s.pending.value.id, settlement), nextAbout)
  {
    var call := s.begun - 1;
    assert s.started[|s.started| - 1].call == call;
    assert s.requestCount == s.begun;
  }

  /** An `agent_end` that arrives while a prompt is pending is about that prompt. */
  lemma NextAgentEndIsAboutPending(s: Client, lastAbout: nat, about: nat, timeoutMs: nat)
    requires Inv(s, timeoutMs) && Attribution(s, lastAbout) && s.pending.Some?
    requires lastAbout < about <= s.requestCount
    ensures about == s.pending.value.id
  {
    var call := s.begun - 1;
    assert s.requestCount == s.begun;
    if call > 0 {
      assert call - 1 in s.settled && s.settled[call - 1].Resolved?;
    }
  }

  lemma LineKeepsAttribution(s: Client, lastAbout: nat, line: Line, timeoutMs: nat)
    requires Inv(s, timeoutMs) && Attribution(s, lastAbout)
    requires line.AgentEnd? ==> lastAbout < line.about <= s.requestCount
    ensures Attribution(HandleLine(s, line), if line.AgentEnd? then line.about else lastAbout)
  {
    var nextAbout := if line.AgentEnd? then line.about else lastAbout;
    if s.pending.Some? {
      FinishKeepsAttribution(s, lastAbout, Rejected(s.now, Refused), nextAbout, timeoutMs);
      if line.AgentEnd? {
        NextAgentEndIsAboutPending(s, lastAbout, line.about, timeoutMs);
        FinishKeepsAttribution(s, lastAbout,
                               match line.answer case Ok(text) => Resolved(s.now, line.about, text) case Err(error) => Rejected(s.now, Unusable(error)),
                               nextAbout, timeoutMs);
      }
    }
  }

  lemma ProcessEndKeepsAttribution(s: Client, lastAbout: nat, closed: bool, reason: Reason, timeoutMs: nat)
    requires Inv(s, timeoutMs) && Attribution(s, lastAbout)
    ensures Attribution(RejectPending(s.(closed := closed), reason), lastAbout)
  {
    if s.pending.Some? {
      FinishKeepsAttribution(s.(closed := closed), lastAbout, Rejected(s.now, reason), lastAbout, timeoutMs);
    }
  }

  lemma BeginKeepsAttribution(s: Client, lastAbout: nat, timeoutMs: nat)
    requires Inv(s, timeoutMs) && Attribution(s, lastAbout) && Enabled(s, Begin)
    ensures Attribution(BeginCall(s, timeoutMs), lastAbout)
  {
    assert s.pending.None? && s.begun !in s.settled;
    assert s.begun + 1 == s.calls;
  }

  lemma PromptKeepsAttribution(s: Client, lastAbout: nat, timeoutMs: nat)
    requires Inv(s, timeoutMs) && Attribution(s, lastAbout) && AllResolved(s)
    ensures Attribution(s.(calls := s.calls + 1), lastAbout)
  {
    assert s.requestCount == s.begun;
  }

  lemma TimeoutKeepsAttribution(s: Client, lastAbout: nat, request: nat, timeoutMs: nat)
    requires Inv(s, timeoutMs) && Attribution(s, lastAbout) && Enabled(s, Timeout(request))
    ensures Attribution(FireTimeout(s, request), lastAbout)
  {
    FireTimeoutKeepsInv(s, request, timeoutMs);
    FinishKeepsAttribution(s, lastAbout, Rejected(s.now, TimedOut), lastAbout, timeoutMs);
  }

  lemma WriteErrorKeepsAttribution(s: Client, lastAbout: nat, request: nat, timeoutMs: nat)
    requires Inv(s, timeoutMs) && Attribution(s, lastAbout) && Enabled(s, WriteError(request))
    ensures Attribution(FailWrite(s, request), lastAbout)
  {
    FailWriteKeepsInv(s, request, timeoutMs);
    if s.pending.Some? && s.pending.value.id == request {
      FinishKeepsAttribution(s, lastAbout, Rejected(s.now, WriteFailed), lastAbout, timeoutMs);
    }
  }

  lemma ClockKeepsAttribution(s: Client, lastAbout: nat, now: nat, closed: bool)
    requires Attribution(s, lastAbout)
    ensures Attribution(s.(now := now, closed := closed), lastAbout)
  {
  }

  /** The events that settle a prompt that was started. */
  lemma SettlingKeepsAttribution(s: Client, lastAbout: nat, e: Event, timeoutMs: nat)
    requires e.Stdout? || e.Timeout? || e.WriteError?
    requires Inv(s, timeoutMs) && Attribution(s, lastAbout) && Enabled(s, e) && AgentAnswersInOrder(s, e, lastAbout)
    ensures Attribution(Step(s, e, timeoutMs), NextAbout(e, lastAbout))
  {
    match e {
      case Stdout(line) => LineKeepsAttribution(s, lastAbout, line, timeoutMs);
      case Timeout(request) => TimeoutKeepsAttribution(s, lastAbout, request, timeoutMs);
      case WriteError(request) => WriteErrorKeepsAttribution(s, lastAbout, request, timeoutMs);
    }
  }

  lemma StepKeepsAttribution(s: Client, lastAbout: nat, e: Event, timeoutMs: nat)
    requires Inv(s, timeoutMs) && Attribution(s, lastAbout) && Enabled(s, e)
    requires AgentAnswersInOrder(s, e, lastAbout) && CallerDiscards(s, e)
    ensures Attribution(Step(s, e, timeoutMs), NextAbout(e, lastAbout))
  {
    match e {
      case Begin => BeginKeepsAttribution(s, lastAbout, timeoutMs);
      case ProcessError => ProcessEndKeepsAttribution(s, lastAbout, s.closed, ProcessFailed, timeoutMs);
      case ProcessClose => ProcessEndKeepsAttribution(s, lastAbout, true, ProcessClosed, timeoutMs);
      case Prompt => PromptKeepsAttribution(s, lastAbout, timeoutMs);
      case Close => ClockKeepsAttribution(s, lastAbout, s.now, true);
      case Tick(ms) => ClockKeepsAttribution(s, lastAbout, s.now + ms, s.closed);
      case _ => SettlingKeepsAttribution(s, lastAbout, e, timeoutMs);
    }
  }

  lemma {:induction false} AnswersAreNotMisattributed(s: Client, lastAbout: nat, events: seq<Event>, end: Client, timeoutMs: nat)
    requires Inv(s, timeoutMs) && Attribution(s, lastAbout)
    requires OrderlyRun(s, lastAbout, events, end, timeoutMs)
    ensures RightlyAttributed(end)
    decreases |events|
  {
    if events == [] {
    } else {
      var e := events[0];
      StepKeepsInv(s, e, timeoutMs);
      StepKeepsAttribution(s, lastAbout, e, timeoutMs);
      AnswersAreNotMisattributed(Step(s, e, timeoutMs), NextAbout(e, lastAbout), events[1..], end, timeoutMs);
    }
  }

  /** A run of which only the agent's side is known: it answers in order, all the way through. */
  ghost predicate AgentOrderlyRun(s: Client, lastAbout: nat, events: seq<Event>, end: Client, timeoutMs: nat)
    decreases |events|
  {
    if events == [] then s == end
    else
      && WellFormed(s) && Enabled(s, events[0])
      && AgentAnswersInOrder(s, events[0], lastAbout)
      && AgentOrderlyRun(Step(s, events[0], timeoutMs), NextAbout(events[0], lastAbout), events[1..], end, timeoutMs)
  }

  /** An orderly run is one in which moreover the caller discards the client after a failure. */
  lemma {:induction false} OrderlyMeansBothSides(s: Client, lastAbout: nat, events: seq<Event>, end: Client, timeoutMs: nat)
    requires OrderlyRun(s, lastAbout, events, end, timeoutMs)
    ensures AgentOrderlyRun(s, lastAbout, events, end, timeoutMs)
    decreases |events|
  {
    if events == [] {
    } else {
      OrderlyMeansBothSides(Step(s, events[0], timeoutMs), NextAbout(events[0], lastAbout), events[1..], end, timeoutMs);
    }
  }

  lemma {:induction false} OrderlyRunsAreRuns(s: Client, lastAbout: nat, events: seq<Event>, end: Client, timeoutMs: nat)
    requires AgentOrderlyRun(s, lastAbout, events, end, timeoutMs)
    ensures Reaches(s, events, end, timeoutMs)
    decreases |events|
  {
    if events == [] {
    } else {
      OrderlyRunsAreRuns(Step(s, events[0], timeoutMs), NextAbout(events[0], lastAbout), events[1..], end, timeoutMs);
    }
  }

  /** An `agent_end` line that is about this request. */
  ghost predicate IsAbout(e: Event, request: nat) {
    e.Stdout? && e.line.AgentEnd? && e.line.about == request
  }

  /** The agent ends a request at most once, and none up to the one it ended last. */
  lemma {:induction false} OneLineForARequest(s: Client, lastAbout: nat, events: seq<Event>, end: Client, timeoutMs: nat, request: nat)
    requires AgentOrderlyRun(s, lastAbout, events, end, timeoutMs)
    ensures request <= lastAbout ==> forall i | 0 <= i < |events| :: !IsAbout(events[i], request)
    ensures forall i, j | 0 <= i < |events| && 0 <= j < |events| && IsAbout(events[i], request) && IsAbout(events[j], request) :: i == j
    decreases |events|
  {
    if events == [] {
    } else {
      var later := events[1..];
      OneLineForARequest(Step(s, events[0], timeoutMs), NextAbout(events[0], lastAbout), later, end, timeoutMs, request);
      forall i | 0 < i < |events| && IsAbout(events[i], request)
        ensures request > lastAbout && !IsAbout(events[0], request)
        ensures forall j | 0 < j < |events| && IsAbout(events[j], request) :: i == j
      {
        assert events[i] == later[i - 1];
        forall j | 0 < j < |events| && IsAbout(events[j], request) ensures i == j {
          assert events[j] == later[j - 1];
        }
      }
    }
  }

  /** The one line in which the agent ended this request holds this answer. */
  ghost predicate IsTheAnswer(events: seq<Event>, request: nat, answer: string) {
    && (exists i | 0 <= i < |events| :: events[i] == Stdout(AgentEnd(request, Ok(answer))))
    && (forall i, j | 0 <= i < |events| && 0 <= j < |events| && IsAbout(events[i], request) && IsAbout(events[j], request) :: i == j)
  }

  /** A resolved prompt carries the text of the one line in which the agent ended it. */
  ghost predicate RightlyAnswered(s: Client, events: seq<Event>) {
    forall i: nat | i < |s.started| && s.started[i].call in s.settled && s.settled[s.started[i].call].Resolved? ::
      IsTheAnswer(events, i + 1, s.settled[s.started[i].call].answer)
  }

  /** Every resolved prompt of an orderly run got the text of the one line about it. */
  lemma AnswersAreRight(events: seq<Event>, end: Client, timeoutMs: nat)
    requires OrderlyRun(FRESH, 0, events, end, timeoutMs)
    ensures RightlyAttributed(end) && RightlyAnswered(end, events)
  {
    AnswersAreNotMisattributed(FRESH, 0, events, end, timeoutMs);
    OrderlyMeansBothSides(FRESH, 0, events, end, timeoutMs);
    OrderlyRunsAreRuns(FRESH, 0, events, end, timeoutMs);
    forall i: nat | i < |end.started| && end.started[i].call in end.settled && end.settled[end.started[i].call].Resolved?
      ensures IsTheAnswer(events, i + 1, end.settled[end.started[i].call].answer)
    {
      var k, before := SettledBySomeEvent(FRESH, events, end, timeoutMs, end.started[i].call);
      OneLineForARequest(FRESH, 0, events, end, timeoutMs, i + 1);
      assert events[k] == Stdout(AgentEnd(i + 1, Ok(end.settled[end.started[i].call].answer)));
    }
  }

  /**
   * How translateBatch uses a client: `prompts` are the prompts it sends on it, in order. It awaits
   * each prompt before the next, and it only accepts an answer that the client resolved.
   */
  ghost predicate PromptedBy(prompts: seq<Translator.Prompt>, s: Client, lastAbout: nat, events: seq<Event>, end: Client, timeoutMs: nat)
    decreases |events|
  {
    if events == [] then s == end
    else
      var e := events[0];
      && WellFormed(s) && Enabled(s, e)
      && AgentAnswersInOrder(s, e, lastAbout)
      && (e.Prompt? ==>
            && s.calls < |prompts|
            && forall call: nat | call < s.calls ::
                 call in s.settled && (prompts[call].accepted ==> s.settled[call].Resolved?))
      && PromptedBy(prompts, Step(s, e, timeoutMs), NextAbout(e, lastAbout), events[1..], end, timeoutMs)
  }

  /** The prompts of a translation session that went to one client. */
  function PromptsOn(log: seq<Translator.Prompt>, client: nat): seq<Translator.Prompt> {
    if log == [] then []
    else (if log[0].client == client then [log[0]] else []) + PromptsOn(log[1..], client)
  }

  lemma {:induction false} OnlyTheLastPromptFails(log: seq<Translator.Prompt>, client: nat)
    requires forall i, j | 0 <= i < j < |log| && log[i].client == log[j].client :: log[i].accepted
    ensures forall k | 0 <= k < |PromptsOn(log, client)| :: PromptsOn(log, client)[k] in log && PromptsOn(log, client)[k].client == client
    ensures forall k | 0 <= k < |PromptsOn(log, client)| - 1 :: PromptsOn(log, client)[k].accepted
  {
    if log == [] {
    } else {
      var tail := log[1..];
      var rest := PromptsOn(tail, client);
      forall i, j | 0 <= i < j < |tail| && tail[i].client == tail[j].client ensures tail[i].accepted {
        assert tail[i] == log[i + 1] && tail[j] == log[j + 1];
      }
      OnlyTheLastPromptFails(tail, client);
      if log[0].client == client && rest != [] {
        assert rest[0] in tail && rest[0].client == client;
        var j :| 0 <= j < |tail| && tail[j] == rest[0];
        assert log[j + 1].client == client;
      }
    }
  }

  lemma {:induction false} PromptedRunsAreOrderly(
      prompts: seq<Translator.Prompt>, s: Client, lastAbout: nat, events: seq<Event>, end: Client, timeoutMs: nat)
    requires forall k | 0 <= k < |prompts| - 1 :: prompts[k].accepted
    requires PromptedBy(prompts, s, lastAbout, events, end, timeoutMs)
    ensures OrderlyRun(s, lastAbout, events, end, timeoutMs)
    decreases |events|
  {
    if events == [] {
    } else {
      PromptedRunsAreOrderly(prompts, Step(s, events[0], timeoutMs), NextAbout(events[0], lastAbout), events[1..], end, timeoutMs);
    }
  }

  /** On a client of a session in which failures end their client, answers belong to their prompts. */
  lemma DisciplineAttributes(session: Translator.Session, client: nat, events: seq<Event>, end: Client, timeoutMs: nat)
    requires Translator.Disciplined(session)
    requires PromptedBy(PromptsOn(session.log, client), FRESH, 0, events, end, timeoutMs)
    ensures RightlyAttributed(end) && RightlyAnswered(end, events)
  {
    OnlyTheLastPromptFails(session.log, client);
    PromptedRunsAreOrderly(PromptsOn(session.log, client), FRESH, 0, events, end, timeoutMs);
    AnswersAreRight(events, end, timeoutMs);
  }

  /**
   * In whatever way translateBatch fails, retries and splits, and in whatever order lines,
   * timeouts, write errors and exits arrive: on each client it uses, a resolved prompt carries the
   * text of the one line about that prompt. An `agent_end` left over from a failed prompt never reaches a later one.
   */
  lemma TranslationsAreNotMisattributed(
      items: seq<BatchPlanner.Item>, segment: string, agent: Translator.Agent, before: Translator.Session,
      client: nat, events: seq<Event>, end: Client, timeoutMs: nat)
    requires Translator.Disciplined(before)
    requires var session := Translator.Run(items, segment, 0, agent, before).1;
             PromptedBy(PromptsOn(session.log, client), FRESH, 0, events, end, timeoutMs)
    ensures RightlyAttributed(end) && RightlyAnswered(end, events)
  {
    Translator.FailureEndsTheClient(items, segment, 0, agent, before);
    DisciplineAttributes(Translator.Run(items, segment, 0, agent, before).1, client, events, end, timeoutMs);
  }

  lemma IdleAfterFailure(s: Client, timeoutMs: nat)
    requires s == Client(0, false, 1, None, map[1 := timeoutMs] - {1}, {1} - {1}, 1, 1, [Start(0, 0)], map[0 := Rejected(0, Refused)])
    ensures Inv(s, timeoutMs)
  {
    assert s.timeouts == map[] && s.heartbeats == {};
  }

  /** The agent turns the first prompt down. */
  lemma FirstPromptFails(timeoutMs: nat) returns (end: Client)
    ensures AgentOrderlyRun(FRESH, 0, [Prompt, Begin, Stdout(Response(1, false))], end, timeoutMs) && Inv(end, timeoutMs)
    ensures end.pending.None? && !end.closed && end.calls == end.begun == 1
    ensures 0 in end.settled && end.settled[0].Rejected? && |end.started| == 1
  {
    var s1 := Step(FRESH, Prompt, timeoutMs);
    var s2 := Step(s1, Begin, timeoutMs);
    end := Step(s2, Stdout(Response(1, false)), timeoutMs);
    var tail2 := [Stdout(Response(1, false))];
    var tail1 := [Begin] + tail2;
    assert tail2[1..] == [] && AgentOrderlyRun(s2, 0, tail2, end, timeoutMs);
    assert tail1[1..] == tail2 && AgentOrderlyRun(s1, 0, tail1, end, timeoutMs);
    assert ([Prompt] + tail1)[1..] == tail1 && AgentOrderlyRun(FRESH, 0, [Prompt] + tail1, end, timeoutMs);
    assert [Prompt] + tail1 == [Prompt, Begin, Stdout(Response(1, false))];
    IdleAfterFailure(end, timeoutMs);
  }

  lemma SecondIsMisattributed(s: Client, answer: string, timeoutMs: nat)
    requires WellFormed(s) && s.pending == Some(Pending(2, false)) && |s.started| == 2
    requires s.started[1].call == 1 && 1 !in s.settled
    ensures !RightlyAttributed(Step(s, Stdout(AgentEnd(1, Ok(answer))), timeoutMs))
  {
    var t := Step(s, Stdout(AgentEnd(1, Ok(answer))), timeoutMs);
    var i: nat := 1;
    assert i < |t.started| && t.settled[t.started[i].call] == Resolved(s.now, 1, answer);
  }

  /** The late answer to the first prompt arrives while the second one is pending. */
  lemma LeftoverAnswerArrives(s: Client, timeoutMs: nat) returns (end: Client)
    requires Inv(s, timeoutMs) && s.pending.None? && !s.closed && s.calls == s.begun == 1 && 0 in s.settled && |s.started| == 1
    ensures AgentOrderlyRun(s, 0, [Prompt, Begin, Stdout(AgentEnd(1, Ok("one")))], end, timeoutMs)
    ensures !RightlyAttributed(end)
  {
    var s1 := Step(s, Prompt, timeoutMs);
    var s2 := Step(s1, Begin, timeoutMs);
    var late := Stdout(AgentEnd(1, Ok("one")));
    end := Step(s2, late, timeoutMs);
    var tail2 := [late];
    var tail1 := [Begin] + tail2;
    assert tail2[1..] == [] && AgentOrderlyRun(s2, 0, tail2, end, timeoutMs);
    assert tail1[1..] == tail2 && AgentOrderlyRun(s1, 0, tail1, end, timeoutMs);
    assert ([Prompt] + tail1)[1..] == tail1 && AgentOrderlyRun(s, 0, [Prompt] + tail1, end, timeoutMs);
    assert [Prompt] + tail1 == [Prompt, Begin, late];
    SecondIsMisattributed(s2, "one", timeoutMs);
  }

  /**
   * The client alone does not guarantee this. The agent keeps its order throughout and turns the first
   * prompt down; the caller keeps the client and prompts again; then the `agent_end` that was still to
   * come for the first prompt resolves the second.
   */
  lemma DiscardingIsNeeded(timeoutMs: nat)
    ensures exists failed, end ::
              && AgentOrderlyRun(FRESH, 0, [Prompt, Begin, Stdout(Response(1, false))], failed, timeoutMs)
              && 0 in failed.settled && failed.settled[0].Rejected?
              && AgentOrderlyRun(failed, 0, [Prompt, Begin, Stdout(AgentEnd(1, Ok("one")))], end, timeoutMs)
              && !RightlyAttributed(end)
  {
    var failed := FirstPromptFails(timeoutMs);
    var end := LeftoverAnswerArrives(failed, timeoutMs);
  }
}
