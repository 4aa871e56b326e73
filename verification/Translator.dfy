/**
 * translateBatch of scripts/control-ui-i18n.ts: up to two attempts for a batch, a pause between
 * them, and a recursive split in two when a prompt timed out. Every failed attempt closes the
 * client, so that the next attempt starts a new one.
 */
module Translator {
  import opened Prelude
  import opened BatchPlanner

  const TRANSLATE_MAX_ATTEMPTS: nat := 2
  const TRANSLATE_BASE_DELAY_MS: nat := 15_000

  /** What an attempt gets from outside. */
  datatype Reply =
    | NoClient(message: string)           // no client could be started, so nothing was sent
    | PromptError(message: string)        // the prompt was rejected, or its answer is not JSON
    | Answer(values: map<string, string>) // the members of the answer that are strings

  /** The reply to each attempt of a run, by the attempt's number. */
  type Agent = nat -> Reply

  /** A prompt that was sent: on which client, for which strings, and whether its answer was accepted. */
  datatype Prompt = Prompt(number: nat, client: nat, items: seq<Item>, accepted: bool)

  /** A call of translateBatch: its segment label, its split depth and its strings. */
  datatype Call = Call(segment: string, depth: nat, items: seq<Item>)

  datatype Session = Session(
    attempts: nat,
    sleeps: nat,
    sleptMs: nat,
    clients: nat,      // clients started so far; the newest has this number
    live: bool,        // whether the newest client is still in use
    calls: seq<Call>,
    log: seq<Prompt>
  )

  /** isPromptTimeoutError */
  predicate IsPromptTimeout(message: string) {
    Contains(Lower(message), "timed out")
  }

  /** The loop over the answer: every string must have a translation that is not blank. */
  function Collect(items: seq<Item>, values: map<string, string>): Result<map<string, string>, string> {
    if items == [] then Ok(map[])
    else
      var key := items[0].key;
      if key !in values || Blank(values[key]) then Err("missing translation for " + key)
      else
        match Collect(items[1..], values)
        case Err(error) => Err(error)
        case Ok(rest) => Ok(map[key := values[key]] + rest)
  }

  /** The result of the loop when `translated` was gathered before the strings that give `rest`. */
  ghost function After(translated: map<string, string>, rest: Result<map<string, string>, string>)
    : Result<map<string, string>, string>
  {
    if rest.Ok? then Ok(translated + rest.value) else rest
  }

  lemma MapPlusAssociative(a: map<string, string>, b: map<string, string>, c: map<string, string>)
    ensures a + (b + c) == (a + b) + c
  {
  }

  function Outcome(items: seq<Item>, reply: Reply): Result<map<string, string>, string> {
    match reply
    case NoClient(message) => Err(message)
    case PromptError(message) => Err(message)
    case Answer(values) => Collect(items, values)
  }

  /** getClient and prompt: an open client is used again, otherwise one is started. */
  function Send(s: Session, items: seq<Item>, reply: Reply, accepted: bool): Session {
    if !s.live && reply.NoClient? then s.(attempts := s.attempts + 1)
    else
      var client := if s.live then s.clients else s.clients + 1;
      s.(attempts := s.attempts + 1, clients := client, live := true,
         log := s.log + [Prompt(s.attempts, client, items, accepted)])
  }

  function Midpoint(items: seq<Item>): nat {
    (|items| + 1) / 2
  }

  function Pause(s: Session, attempt: nat): Session {
    s.(sleeps := s.sleeps + 1, sleptMs := s.sleptMs + TRANSLATE_BASE_DELAY_MS * (attempt + 1))
  }

  /** The two recursive calls after a timeout. */
  function Halves(items: seq<Item>, segment: string, depth: nat, agent: Agent, s: Session)
    : (Result<map<string, string>, string>, Session)
    requires |items| > 1
    decreases |items|, 0
  {
    var mid := Midpoint(items);
    var (left, s1) := Run(items[..mid], segment + "a", depth + 1, agent, s);
    if left.Err? then (left, s1)
    else
      var (right, s2) := Run(items[mid..], segment + "b", depth + 1, agent, s1);
      if right.Err? then (right, s2) else (Ok(left.value + right.value), s2)
  }

  /** The attempts from `attempt` on. */
  function RunFrom(items: seq<Item>, segment: string, depth: nat, attempt: nat, lastError: string, agent: Agent, s: Session)
    : (Result<map<string, string>, string>, Session)
    requires attempt <= TRANSLATE_MAX_ATTEMPTS
    decreases |items|, TRANSLATE_MAX_ATTEMPTS - attempt
  {
    if attempt == TRANSLATE_MAX_ATTEMPTS then (Err(lastError), s)
    else
      var reply := agent(s.attempts);
      var outcome := Outcome(items, reply);
      var sent := Send(s, items, reply, outcome.Ok?);
      if outcome.Ok? then (outcome, sent)
      else
        var reset := sent.(live := false);
        if IsPromptTimeout(outcome.error) && |items| > 1 then
          Halves(items, segment, depth, agent, reset)
        else if IsPromptTimeout(outcome.error) then
          (Err(outcome.error), reset)
        else if attempt + 1 < TRANSLATE_MAX_ATTEMPTS then
          RunFrom(items, segment, depth, attempt + 1, outcome.error, agent, Pause(reset, attempt))
        else
          RunFrom(items, segment, depth, attempt + 1, outcome.error, agent, reset)
  }

  /** A whole call of translateBatch. */
  function Run(items: seq<Item>, segment: string, depth: nat, agent: Agent, s: Session)
    : (Result<map<string, string>, string>, Session)
    decreases |items|, 3
  {
    RunFrom(items, segment, depth, 0, "translation failed", agent, s.(calls := s.calls + [Call(segment, depth, items)]))
  }

  // ---------------------------------------------------------------- the imperative form

  method CollectAnswer(items: seq<Item>, values: map<string, string>) returns (r: Result<map<string, string>, string>)
    ensures r == Collect(items, values)
  {
    var translated: map<string, string> := map[];
    ghost var whole := Collect(items, values);
    assert items[0..] == items;
    assert whole.Ok? ==> map[] + whole.value == whole.value;
    for i := 0 to |items|
      invariant Collect(items, values) == After(translated, Collect(items[i..], values))
    {
      var item := items[i];
      assert items[i..][1..] == items[i + 1..];
      ghost var rest := Collect(items[i + 1..], values);
      ghost var one := if item.key in values then map[item.key := values[item.key]] else map[];
      if rest.Ok? {
        MapPlusAssociative(translated, one, rest.value);
      }
      if item.key !in values || Blank(values[item.key]) {
        return Err("missing translation for " + item.key);
      }
      assert translated[item.key := values[item.key]] == translated + one;
      translated := translated[item.key := values[item.key]];
    }
    assert translated + map[] == translated;
    r := Ok(translated);
  }

  class TranslationRun {
    const agent: Agent
    var attempts: nat
    var sleeps: nat
    var sleptMs: nat
    var clients: nat
    var live: bool
    ghost var calls: seq<Call>
    ghost var log: seq<Prompt>

    ghost function State(): Session
      reads this
    {
      Session(attempts, sleeps, sleptMs, clients, live, calls, log)
    }

    constructor (agent: Agent)
      ensures this.agent == agent
      ensures State() == Session(0, 0, 0, 0, false, [], [])
    {
      this.agent := agent;
      attempts, sleeps, sleptMs, clients, live := 0, 0, 0, 0, false;
      calls, log := [], [];
    }

    /** One attempt: get a client, send the prompt, check the answer. */
    method Try(items: seq<Item>) returns (outcome: Result<map<string, string>, string>)
      modifies this
      ensures outcome == Outcome(items, agent(old(attempts)))
      ensures State() == Send(old(State()), items, agent(old(attempts)), outcome.Ok?)
    {
      var reply := agent(attempts);
      match reply {
        case NoClient(message) => outcome := Err(message);
        case PromptError(message) => outcome := Err(message);
        case Answer(values) => outcome := CollectAnswer(items, values);
      }
      if live || !reply.NoClient? {
        if !live {
          clients := clients + 1;
          live := true;
        }
        log := log + [Prompt(attempts, clients, items, outcome.Ok?)];
      }
      attempts := attempts + 1;
    }

    method TranslateBatch(items: seq<Item>, segment: string, depth: nat)
      returns (result: Result<map<string, string>, string>)
      modifies this
      ensures (result, State()) == Run(items, segment, depth, agent, old(State()))
      decreases |items|
    {
      calls := calls + [Call(segment, depth, items)];
      var lastError := "translation failed";
      var attempt := 0;
      while attempt < TRANSLATE_MAX_ATTEMPTS
        invariant attempt <= TRANSLATE_MAX_ATTEMPTS
        invariant RunFrom(items, segment, depth, attempt, lastError, agent, State())
               == Run(items, segment, depth, agent, old(State()))
      {
        var outcome := Try(items);
        if outcome.Ok? {
          return outcome;
        }
        lastError := outcome.error;
        live := false;
        if IsPromptTimeout(lastError) && |items| > 1 {
          var mid := (|items| + 1) / 2;
          var left := TranslateBatch(items[..mid], segment + "a", depth + 1);
          if left.Err? {
            return left;
          }
          var right := TranslateBatch(items[mid..], segment + "b", depth + 1);
          if right.Err? {
            return right;
          }
          return Ok(left.value + right.value);
        }
        if IsPromptTimeout(lastError) {
          break;
        }
        if attempt + 1 < TRANSLATE_MAX_ATTEMPTS {
          sleeps := sleeps + 1;
          sleptMs := sleptMs + TRANSLATE_BASE_DELAY_MS * (attempt + 1);
        }
        attempt := attempt + 1;
      }
      result := Err(lastError);
    }
  }

  // ---------------------------------------------------------------- all or nothing

  ghost function KeysOf(items: seq<Item>): set<string> {
    set item | item in items :: item.key
  }

  ghost predicate Complete(items: seq<Item>, translated: map<string, string>) {
    && translated.Keys == KeysOf(items)
    && forall key | key in translated :: !Blank(translated[key])
  }

  lemma {:induction false} CollectIsComplete(items: seq<Item>, values: map<string, string>)
    ensures match Collect(items, values)
            case Ok(translated) => Complete(items, translated) && forall key | key in translated :: key in values && translated[key] == values[key]
            case Err(_) => exists item | item in items :: item.key !in values || Blank(values[item.key])
  {
    if items == [] {
    } else {
      CollectIsComplete(items[1..], values);
      assert items == [items[0]] + items[1..];
      assert KeysOf(items) == {items[0].key} + KeysOf(items[1..]);
    }
  }

  lemma CompleteHalves(a: seq<Item>, b: seq<Item>, x: map<string, string>, y: map<string, string>)
    requires Complete(a, x) && Complete(b, y)
    ensures Complete(a + b, x + y)
  {
    assert KeysOf(a + b) == KeysOf(a) + KeysOf(b);
  }

  lemma {:induction false} HalvesAreComplete(items: seq<Item>, segment: string, depth: nat, agent: Agent, s: Session)
    requires |items| > 1
    ensures var result := Halves(items, segment, depth, agent, s).0;
            result.Ok? ==> Complete(items, result.value)
    decreases |items|, 0
  {
    var mid := Midpoint(items);
    var (left, middle) := Run(items[..mid], segment + "a", depth + 1, agent, s);
    var right := Run(items[mid..], segment + "b", depth + 1, agent, middle).0;
    AllOrNothing(items[..mid], segment + "a", depth + 1, agent, s);
    AllOrNothing(items[mid..], segment + "b", depth + 1, agent, middle);
    assert items == items[..mid] + items[mid..];
    if left.Ok? && right.Ok? {
      CompleteHalves(items[..mid], items[mid..], left.value, right.value);
    }
  }

  lemma {:induction false} AllOrNothingFrom(
      items: seq<Item>, segment: string, depth: nat, attempt: nat, lastError: string, agent: Agent, s: Session)
    requires attempt <= TRANSLATE_MAX_ATTEMPTS
    ensures var result := RunFrom(items, segment, depth, attempt, lastError, agent, s).0;
            result.Ok? ==> Complete(items, result.value)
    decreases |items|, TRANSLATE_MAX_ATTEMPTS - attempt
  {
    if attempt < TRANSLATE_MAX_ATTEMPTS {
      var reply := agent(s.attempts);
      var outcome := Outcome(items, reply);
      if reply.Answer? {
        CollectIsComplete(items, reply.values);
      }
      if outcome.Err? {
        var reset := Send(s, items, reply, false).(live := false);
        if !IsPromptTimeout(outcome.error) {
          AllOrNothingFrom(items, segment, depth, attempt + 1, outcome.error, agent,
                           if attempt + 1 < TRANSLATE_MAX_ATTEMPTS then Pause(reset, attempt) else reset);
        } else if |items| > 1 {
          HalvesAreComplete(items, segment, depth, agent, reset);
        }
      }
    }
  }

  /** A call either throws or returns a translation that is not blank for exactly the keys it was given. */
  lemma {:induction false} AllOrNothing(items: seq<Item>, segment: string, depth: nat, agent: Agent, s: Session)
    ensures var result := Run(items, segment, depth, agent, s).0;
            result.Ok? ==> Complete(items, result.value)
    decreases |items|, 3
  {
    AllOrNothingFrom(items, segment, depth, 0, "translation failed", agent, s.(calls := s.calls + [Call(segment, depth, items)]));
  }

  // ---------------------------------------------------------------- effort

  /** From `s` to `end`: at most so many prompts and pauses, each pause of 15 seconds. */
  ghost predicate Spends(s: Session, end: Session, prompts: int, pauses: int) {
    && |s.log| <= |end.log| <= |s.log| + prompts
    && s.attempts <= end.attempts <= s.attempts + prompts
    && s.sleeps <= end.sleeps <= s.sleeps + pauses
    && end.sleptMs - s.sleptMs == 15_000 * (end.sleeps - s.sleeps)
  }

  ghost function Size(items: seq<Item>): nat {
    if items == [] then 1 else |items|
  }

  lemma SpendsInTurn(s: Session, middle: Session, end: Session, prompts: int, pauses: int, prompts': int, pauses': int)
    requires Spends(s, middle, prompts, pauses) && Spends(middle, end, prompts', pauses')
    ensures Spends(s, end, prompts + prompts', pauses + pauses')
  {
  }

  lemma AttemptSpends(s: Session, items: seq<Item>, reply: Reply, accepted: bool, attempt: nat)
    requires attempt < TRANSLATE_MAX_ATTEMPTS
    ensures var sent := Send(s, items, reply, accepted);
            && Spends(s, sent, 1, 0) && Spends(s, sent.(live := false), 1, 0)
            && (attempt == 0 ==> Spends(s, Pause(sent.(live := false), attempt), 1, 1))
  {
  }

  lemma {:induction false} HalvesAreBounded(items: seq<Item>, segment: string, depth: nat, agent: Agent, s: Session)
    requires |items| > 1
    ensures Spends(s, Halves(items, segment, depth, agent, s).1, 4 * |items| - 4, 2 * |items| - 2)
    decreases |items|, 0
  {
    var mid := Midpoint(items);
    var left, right := items[..mid], items[mid..];
    var (result, middle) := Run(left, segment + "a", depth + 1, agent, s);
    EffortIsBounded(left, segment + "a", depth + 1, agent, s);
    EffortIsBounded(right, segment + "b", depth + 1, agent, middle);
    if result.Ok? {
      var end := Run(right, segment + "b", depth + 1, agent, middle).1;
      SpendsInTurn(s, middle, end, 4 * |left| - 2, 2 * |left| - 1, 4 * |right| - 2, 2 * |right| - 1);
    }
  }

  lemma {:induction false} EffortIsBoundedFrom(
      items: seq<Item>, segment: string, depth: nat, attempt: nat, lastError: string, agent: Agent, s: Session)
    requires attempt <= TRANSLATE_MAX_ATTEMPTS
    ensures Spends(s, RunFrom(items, segment, depth, attempt, lastError, agent, s).1,
                   4 * Size(items) - 2 - attempt, 2 * Size(items) - (if attempt == 0 then 1 else 2))
    decreases |items|, TRANSLATE_MAX_ATTEMPTS - attempt
  {
    if attempt < TRANSLATE_MAX_ATTEMPTS {
      var reply := agent(s.attempts);
      var outcome := Outcome(items, reply);
      AttemptSpends(s, items, reply, outcome.Ok?, attempt);
      if outcome.Err? {
        var reset := Send(s, items, reply, false).(live := false);
        if !IsPromptTimeout(outcome.error) {
          EffortIsBoundedFrom(items, segment, depth, attempt + 1, outcome.error, agent,
                              if attempt + 1 < TRANSLATE_MAX_ATTEMPTS then Pause(reset, attempt) else reset);
        } else if |items| > 1 {
          HalvesAreBounded(items, segment, depth, agent, reset);
        }
      }
    }
  }

  /**
   * A batch of n strings costs at most 4n - 2 prompts and 2n - 1 pauses, each of 15 seconds.
   * (The empty batch, which the planner never makes, costs at most two prompts and one pause.)
   */
  lemma {:induction false} EffortIsBounded(items: seq<Item>, segment: string, depth: nat, agent: Agent, s: Session)
    ensures Spends(s, Run(items, segment, depth, agent, s).1, 4 * Size(items) - 2, 2 * Size(items) - 1)
    decreases |items|, 3
  {
    EffortIsBoundedFrom(items, segment, depth, 0, "translation failed", agent, s.(calls := s.calls + [Call(segment, depth, items)]));
  }

  // ---------------------------------------------------------------- segment labels

  /** The strings that a path of `a` and `b` turns selects by halving. */
  function Segment(items: seq<Item>, path: string): seq<Item>
    decreases |path|
  {
    if path == "" then items
    else
      var mid := Midpoint(items);
      if path[0] == 'a' then Segment(items[..mid], path[1..]) else Segment(items[mid..], path[1..])
  }

  /** A call made below the call (label, depth, items). */
  ghost predicate Below(call: Call, items: seq<Item>, segment: string, depth: nat) {
    && segment <= call.segment
    && call.depth - depth == |call.segment| - |segment|
    && call.items == Segment(items, call.segment[|segment|..])
  }

  ghost predicate DistinctLabels(calls: seq<Call>) {
    forall i, j | 0 <= i < j < |calls| :: calls[i].segment != calls[j].segment
  }

  /** `after` extends `before` by calls below (label, depth, items), all differently labelled. */
  ghost predicate LabelledGrowth(before: seq<Call>, after: seq<Call>, items: seq<Item>, segment: string, depth: nat) {
    && before <= after
    && DistinctLabels(after[|before|..])
    && forall call | call in after[|before|..] :: Below(call, items, segment, depth)
  }

  lemma BelowHalf(items: seq<Item>, segment: string, depth: nat, turn: char, half: seq<Item>, calls: seq<Call>)
    requires turn == 'a' || turn == 'b'
    requires half == if turn == 'a' then items[..Midpoint(items)] else items[Midpoint(items)..]
    requires forall call | call in calls :: Below(call, half, segment + [turn], depth + 1)
    ensures forall call | call in calls ::
              && Below(call, items, segment, depth)
              && |call.segment| > |segment|
              && call.segment[|segment|] == turn
  {
    forall call | call in calls
      ensures Below(call, items, segment, depth) && |call.segment| > |segment| && call.segment[|segment|] == turn
    {
      var path := call.segment[|segment|..];
      assert segment + [turn] <= call.segment;
      assert path[0] == turn;
      assert path[1..] == call.segment[|segment| + 1..];
    }
  }

  lemma {:induction false} LabelsOfHalves(items: seq<Item>, segment: string, depth: nat, agent: Agent, s: Session)
    requires |items| > 1
    ensures var end := Halves(items, segment, depth, agent, s).1;
            && LabelledGrowth(s.calls, end.calls, items, segment, depth)
            && forall call | call in end.calls[|s.calls|..] :: |call.segment| > |segment|
    decreases |items|, 0
  {
    var mid := Midpoint(items);
    var (left, s1) := Run(items[..mid], segment + "a", depth + 1, agent, s);
    LabelsIdentifySegments(items[..mid], segment + "a", depth + 1, agent, s);
    BelowHalf(items, segment, depth, 'a', items[..mid], s1.calls[|s.calls|..]);
    if left.Ok? {
      var s2 := Run(items[mid..], segment + "b", depth + 1, agent, s1).1;
      LabelsIdentifySegments(items[mid..], segment + "b", depth + 1, agent, s1);
      BelowHalf(items, segment, depth, 'b', items[mid..], s2.calls[|s1.calls|..]);
      assert s2.calls[|s.calls|..] == s1.calls[|s.calls|..] + s2.calls[|s1.calls|..];
    }
  }

  lemma {:induction false} LabelsIdentifySegmentsFrom(
      items: seq<Item>, segment: string, depth: nat, attempt: nat, lastError: string, agent: Agent, s: Session)
    requires attempt <= TRANSLATE_MAX_ATTEMPTS
    ensures var end := RunFrom(items, segment, depth, attempt, lastError, agent, s).1;
            && LabelledGrowth(s.calls, end.calls, items, segment, depth)
            && forall call | call in end.calls[|s.calls|..] :: |call.segment| > |segment|
    decreases |items|, TRANSLATE_MAX_ATTEMPTS - attempt
  {
    if attempt < TRANSLATE_MAX_ATTEMPTS {
      var reply := agent(s.attempts);
      var outcome := Outcome(items, reply);
      if outcome.Err? {
        var reset := Send(s, items, reply, false).(live := false);
        if !IsPromptTimeout(outcome.error) {
          LabelsIdentifySegmentsFrom(items, segment, depth, attempt + 1, outcome.error, agent,
                                     if attempt + 1 < TRANSLATE_MAX_ATTEMPTS then Pause(reset, attempt) else reset);
        } else if |items| > 1 {
          LabelsOfHalves(items, segment, depth, agent, reset);
        }
      }
    }
  }

  /**
   * Distinct sub-batches of one call have distinct labels; a label is as long as the splits above
   * it are many, and by itself tells which stretch of the strings the sub-batch holds.
   */
  lemma {:induction false} LabelsIdentifySegments(items: seq<Item>, segment: string, depth: nat, agent: Agent, s: Session)
    ensures LabelledGrowth(s.calls, Run(items, segment, depth, agent, s).1.calls, items, segment, depth)
    decreases |items|, 3
  {
    var root := Call(segment, depth, items);
    var s0 := s.(calls := s.calls + [root]);
    var end := Run(items, segment, depth, agent, s).1;
    LabelsIdentifySegmentsFrom(items, segment, depth, 0, "translation failed", agent, s0);
    assert end.calls[|s.calls|..] == [root] + end.calls[|s0.calls|..];
    assert segment[|segment|..] == "";
  }

  // ---------------------------------------------------------------- provenance

  function Accepted(log: seq<Prompt>): seq<Item> {
    if log == [] then []
    else (if log[0].accepted then log[0].items else []) + Accepted(log[1..])
  }

  ghost function Yield(prompt: Prompt, agent: Agent): map<string, string> {
    var outcome := Outcome(prompt.items, agent(prompt.number));
    if prompt.accepted && outcome.Ok? then outcome.value else map[]
  }

  /** The translations carried by the accepted answers of a log. */
  ghost function Harvest(log: seq<Prompt>, agent: Agent): map<string, string> {
    if log == [] then map[] else Yield(log[0], agent) + Harvest(log[1..], agent)
  }

  lemma AcceptedOfMore(a: seq<Prompt>, b: seq<Prompt>)
    requires a != []
    ensures Accepted(a + b) == (if a[0].accepted then a[0].items else []) + Accepted(a[1..] + b)
  {
    assert (a + b)[1..] == a[1..] + b;
  }

  lemma {:induction false} AcceptedConcat(a: seq<Prompt>, b: seq<Prompt>)
    ensures Accepted(a + b) == Accepted(a) + Accepted(b)
  {
    if a == [] {
      assert a + b == b;
    } else {
      AcceptedOfMore(a, b);
      AcceptedConcat(a[1..], b);
    }
  }

  lemma HarvestOfMore(a: seq<Prompt>, b: seq<Prompt>, agent: Agent)
    requires a != []
    ensures Harvest(a + b, agent) == Yield(a[0], agent) + Harvest(a[1..] + b, agent)
  {
    assert (a + b)[1..] == a[1..] + b;
  }

  lemma {:induction false} HarvestConcat(a: seq<Prompt>, b: seq<Prompt>, agent: Agent)
    ensures Harvest(a + b, agent) == Harvest(a, agent) + Harvest(b, agent)
  {
    if a == [] {
      assert a + b == b;
    } else {
      HarvestOfMore(a, b, agent);
      HarvestConcat(a[1..], b, agent);
      MapPlusAssociative(Yield(a[0], agent), Harvest(a[1..], agent), Harvest(b, agent));
    }
  }

  /** The agent's accepted answer to this prompt gives the string this value. */
  ghost predicate Answers(prompt: Prompt, agent: Agent, key: string, value: string) {
    && prompt.accepted && key in KeysOf(prompt.items)
    && var reply := agent(prompt.number);
    reply.Answer? && key in reply.values && value == reply.values[key]
  }

  lemma YieldIsAnswered(prompt: Prompt, agent: Agent, key: string)
    requires key in Yield(prompt, agent)
    ensures Answers(prompt, agent, key, Yield(prompt, agent)[key])
  {
    var reply := agent(prompt.number);
    if reply.Answer? {
      CollectIsComplete(prompt.items, reply.values);
    }
  }

  /** Everything in the harvest was said in answer to a prompt that asked for it. */
  lemma {:induction false} HarvestIsAnswered(log: seq<Prompt>, agent: Agent, key: string)
    requires key in Harvest(log, agent)
    ensures exists prompt | prompt in log :: Answers(prompt, agent, key, Harvest(log, agent)[key])
  {
    if key in Harvest(log[1..], agent) {
      HarvestIsAnswered(log[1..], agent, key);
      var prompt :| prompt in log[1..] && Answers(prompt, agent, key, Harvest(log[1..], agent)[key]);
      assert prompt in log;
    } else {
      YieldIsAnswered(log[0], agent, key);
      assert log[0] in log;
    }
  }

  /** When a call returns, its strings were accepted once each, in order, and the result is what those answers say. */
  ghost predicate Harvested(before: Session, after: Session, items: seq<Item>, agent: Agent, result: Result<map<string, string>, string>) {
    && before.log <= after.log
    && (result.Ok? ==>
          && Accepted(after.log[|before.log|..]) == items
          && Harvest(after.log[|before.log|..], agent) == result.value)
    && (result.Err? && items != [] ==> Accepted(after.log[|before.log|..]) < items)
  }

  /** One attempt: an accepted answer yields the strings of the batch, a failed one yields nothing. */
  lemma HarvestOfAttempt(items: seq<Item>, agent: Agent, s: Session)
    ensures var outcome := Outcome(items, agent(s.attempts));
            var sent := Send(s, items, agent(s.attempts), outcome.Ok?);
            && s.log <= sent.log
            && Accepted(sent.log[|s.log|..]) == (if outcome.Ok? then items else [])
            && Harvest(sent.log[|s.log|..], agent) == (if outcome.Ok? then outcome.value else map[])
  {
    var outcome := Outcome(items, agent(s.attempts));
    var prompts := Send(s, items, agent(s.attempts), outcome.Ok?).log[|s.log|..];
    if prompts != [] {
      assert prompts == [prompts[0]];
      assert prompts[1..] == [];
    }
  }

  lemma NothingBefore(s: Session, next: Session, end: Session, agent: Agent)
    requires s.log <= next.log <= end.log
    requires Accepted(next.log[|s.log|..]) == [] && Harvest(next.log[|s.log|..], agent) == map[]
    ensures Accepted(end.log[|s.log|..]) == Accepted(end.log[|next.log|..])
    ensures Harvest(end.log[|s.log|..], agent) == Harvest(end.log[|next.log|..], agent)
  {
    assert end.log[|s.log|..] == next.log[|s.log|..] + end.log[|next.log|..];
    AcceptedConcat(next.log[|s.log|..], end.log[|next.log|..]);
    HarvestConcat(next.log[|s.log|..], end.log[|next.log|..], agent);
    assert map[] + Harvest(end.log[|next.log|..], agent) == Harvest(end.log[|next.log|..], agent);
  }

  lemma HarvestAfterFailure(s: Session, next: Session, end: Session, items: seq<Item>, agent: Agent,
                            result: Result<map<string, string>, string>)
    requires s.log <= next.log
    requires Accepted(next.log[|s.log|..]) == [] && Harvest(next.log[|s.log|..], agent) == map[]
    requires Harvested(next, end, items, agent, result)
    ensures Harvested(s, end, items, agent, result)
  {
    NothingBefore(s, next, end, agent);
  }

  lemma {:induction false} HarvestOfHalves(items: seq<Item>, segment: string, depth: nat, agent: Agent, s: Session)
    requires |items| > 1
    ensures var (result, end) := Halves(items, segment, depth, agent, s);
            Harvested(s, end, items, agent, result)
    decreases |items|, 0
  {
    var mid := Midpoint(items);
    var (left, s1) := Run(items[..mid], segment + "a", depth + 1, agent, s);
    EveryStringIsAnsweredOnce(items[..mid], segment + "a", depth + 1, agent, s);
    assert items == items[..mid] + items[mid..];
    if left.Ok? {
      var (right, s2) := Run(items[mid..], segment + "b", depth + 1, agent, s1);
      EveryStringIsAnsweredOnce(items[mid..], segment + "b", depth + 1, agent, s1);
      assert s2.log[|s.log|..] == s1.log[|s.log|..] + s2.log[|s1.log|..];
      AcceptedConcat(s1.log[|s.log|..], s2.log[|s1.log|..]);
      HarvestConcat(s1.log[|s.log|..], s2.log[|s1.log|..], agent);
    }
  }

  lemma {:induction false} EveryStringIsAnsweredOnceFrom(
      items: seq<Item>, segment: string, depth: nat, attempt: nat, lastError: string, agent: Agent, s: Session)
    requires attempt <= TRANSLATE_MAX_ATTEMPTS
    ensures var (result, end) := RunFrom(items, segment, depth, attempt, lastError, agent, s);
            Harvested(s, end, items, agent, result)
    decreases |items|, TRANSLATE_MAX_ATTEMPTS - attempt
  {
    if attempt < TRANSLATE_MAX_ATTEMPTS {
      var reply := agent(s.attempts);
      var outcome := Outcome(items, reply);
      var sent := Send(s, items, reply, outcome.Ok?);
      HarvestOfAttempt(items, agent, s);
      if outcome.Err? {
        var reset := sent.(live := false);
        if !IsPromptTimeout(outcome.error) {
          var next := if attempt + 1 < TRANSLATE_MAX_ATTEMPTS then Pause(reset, attempt) else reset;
          var (result, end) := RunFrom(items, segment, depth, attempt + 1, outcome.error, agent, next);
          EveryStringIsAnsweredOnceFrom(items, segment, depth, attempt + 1, outcome.error, agent, next);
          HarvestAfterFailure(s, next, end, items, agent, result);
        } else if |items| > 1 {
          var (result, end) := Halves(items, segment, depth, agent, reset);
          HarvestOfHalves(items, segment, depth, agent, reset);
          HarvestAfterFailure(s, reset, end, items, agent, result);
        }
      }
    }
  }

  lemma {:induction false} EveryStringIsAnsweredOnce(items: seq<Item>, segment: string, depth: nat, agent: Agent, s: Session)
    ensures var (result, end) := Run(items, segment, depth, agent, s);
            Harvested(s, end, items, agent, result)
    decreases |items|, 3
  {
    EveryStringIsAnsweredOnceFrom(items, segment, depth, 0, "translation failed", agent, s.(calls := s.calls + [Call(segment, depth, items)]));
  }

  // ---------------------------------------------------------------- a failed attempt ends its client

  /** On one client only the last prompt can have failed, and then that client is not used any more. */
  ghost predicate Disciplined(s: Session) {
    && (forall i | 0 <= i < |s.log| :: s.log[i].client <= s.clients)
    && (forall i, j | 0 <= i < j < |s.log| && s.log[i].client == s.log[j].client :: s.log[i].accepted)
    && (forall i | 0 <= i < |s.log| && s.live && s.log[i].client == s.clients :: s.log[i].accepted)
  }

  lemma SendKeepsDiscipline(s: Session, items: seq<Item>, reply: Reply, accepted: bool)
    requires Disciplined(s)
    ensures accepted ==> Disciplined(Send(s, items, reply, accepted))
    ensures Disciplined(Send(s, items, reply, accepted).(live := false))
  {
    var sent := Send(s, items, reply, accepted);
    if sent.log != s.log {
      forall i | 0 <= i < |s.log| && s.log[i].client == sent.clients
        ensures s.log[i].accepted
      {
        assert sent.log[i] == s.log[i];
      }
    }
  }

  /** A call keeps the discipline, and a call that throws leaves no client behind. */
  lemma {:induction false} FailureEndsTheClient(items: seq<Item>, segment: string, depth: nat, agent: Agent, s: Session)
    requires Disciplined(s)
    ensures var (result, end) := Run(items, segment, depth, agent, s);
            Disciplined(end) && (result.Err? ==> !end.live)
    decreases |items|, 3
  {
    FailureEndsTheClientFrom(items, segment, depth, 0, "translation failed", agent, s.(calls := s.calls + [Call(segment, depth, items)]));
  }

  lemma {:induction false} FailureEndsTheClientFrom(
      items: seq<Item>, segment: string, depth: nat, attempt: nat, lastError: string, agent: Agent, s: Session)
    requires attempt <= TRANSLATE_MAX_ATTEMPTS
    requires Disciplined(s) && (attempt > 0 ==> !s.live)
    ensures var (result, end) := RunFrom(items, segment, depth, attempt, lastError, agent, s);
            Disciplined(end) && (result.Err? ==> !end.live)
    decreases |items|, TRANSLATE_MAX_ATTEMPTS - attempt
  {
    if attempt < TRANSLATE_MAX_ATTEMPTS {
      var reply := agent(s.attempts);
      var outcome := Outcome(items, reply);
      SendKeepsDiscipline(s, items, reply, outcome.Ok?);
      if outcome.Err? {
        var reset := Send(s, items, reply, false).(live := false);
        if !IsPromptTimeout(outcome.error) {
          FailureEndsTheClientFrom(items, segment, depth, attempt + 1, outcome.error, agent,
                                   if attempt + 1 < TRANSLATE_MAX_ATTEMPTS then Pause(reset, attempt) else reset);
        } else if |items| > 1 {
          var mid := Midpoint(items);
          var left := Run(items[..mid], segment + "a", depth + 1, agent, reset);
          FailureEndsTheClient(items[..mid], segment + "a", depth + 1, agent, reset);
          FailureEndsTheClient(items[mid..], segment + "b", depth + 1, agent, left.1);
        }
      }
    }
  }

  // ---------------------------------------------------------------- what a prompt asks for

  ghost predicate IsStretch(part: seq<Item>, items: seq<Item>) {
    exists before, after :: items == before + part + after
  }

  /** From `before` to `after`, only stretches of the strings were asked for, and no empty ones. */
  ghost predicate AsksForStretches(before: Session, after: Session, items: seq<Item>) {
    && before.log <= after.log
    && forall prompt | prompt in after.log[|before.log|..] :: IsStretch(prompt.items, items) && (items != [] ==> prompt.items != [])
  }

  lemma StretchWithin(part: seq<Item>, before: seq<Item>, middle: seq<Item>, after: seq<Item>)
    requires IsStretch(part, middle)
    ensures IsStretch(part, before + middle + after)
  {
    var x, y :| middle == x + part + y;
    assert before + middle + after == (before + x) + part + (y + after);
  }

  lemma StretchOfHalf(part: seq<Item>, items: seq<Item>, mid: nat)
    requires mid <= |items| && (IsStretch(part, items[..mid]) || IsStretch(part, items[mid..]))
    ensures IsStretch(part, items)
  {
    if IsStretch(part, items[..mid]) {
      StretchWithin(part, [], items[..mid], items[mid..]);
      assert items == [] + items[..mid] + items[mid..];
    } else {
      StretchWithin(part, items[..mid], items[mid..], []);
      assert items == items[..mid] + items[mid..] + [];
    }
  }

  lemma AsksInTurn(before: Session, middle: Session, after: Session, items: seq<Item>)
    requires AsksForStretches(before, middle, items) && AsksForStretches(middle, after, items)
    ensures AsksForStretches(before, after, items)
  {
    assert after.log[|before.log|..] == middle.log[|before.log|..] + after.log[|middle.log|..];
  }

  lemma SendAsks(s: Session, items: seq<Item>, reply: Reply, accepted: bool)
    ensures AsksForStretches(s, Send(s, items, reply, accepted), items)
  {
    assert items == [] + items + [];
  }

  lemma {:induction false} HalvesAsk(items: seq<Item>, segment: string, depth: nat, agent: Agent, s: Session)
    requires |items| > 1
    ensures AsksForStretches(s, Halves(items, segment, depth, agent, s).1, items)
    decreases |items|, 0
  {
    var mid := Midpoint(items);
    var (left, middle) := Run(items[..mid], segment + "a", depth + 1, agent, s);
    PromptsAreStretches(items[..mid], segment + "a", depth + 1, agent, s);
    forall prompt | prompt in middle.log[|s.log|..] ensures IsStretch(prompt.items, items) {
      StretchOfHalf(prompt.items, items, mid);
    }
    if left.Ok? {
      var end := Run(items[mid..], segment + "b", depth + 1, agent, middle).1;
      PromptsAreStretches(items[mid..], segment + "b", depth + 1, agent, middle);
      forall prompt | prompt in end.log[|middle.log|..] ensures IsStretch(prompt.items, items) {
        StretchOfHalf(prompt.items, items, mid);
      }
      AsksInTurn(s, middle, end, items);
    }
  }

  lemma {:induction false} PromptsAreStretchesFrom(
      items: seq<Item>, segment: string, depth: nat, attempt: nat, lastError: string, agent: Agent, s: Session)
    requires attempt <= TRANSLATE_MAX_ATTEMPTS
    ensures AsksForStretches(s, RunFrom(items, segment, depth, attempt, lastError, agent, s).1, items)
    decreases |items|, TRANSLATE_MAX_ATTEMPTS - attempt
  {
    if attempt < TRANSLATE_MAX_ATTEMPTS {
      var reply := agent(s.attempts);
      var outcome := Outcome(items, reply);
      SendAsks(s, items, reply, outcome.Ok?);
      if outcome.Err? {
        var reset := Send(s, items, reply, false).(live := false);
        if !IsPromptTimeout(outcome.error) {
          var next := if attempt + 1 < TRANSLATE_MAX_ATTEMPTS then Pause(reset, attempt) else reset;
          PromptsAreStretchesFrom(items, segment, depth, attempt + 1, outcome.error, agent, next);
          AsksInTurn(s, next, RunFrom(items, segment, depth, attempt + 1, outcome.error, agent, next).1, items);
        } else if |items| > 1 {
          HalvesAsk(items, segment, depth, agent, reset);
          AsksInTurn(s, reset, Halves(items, segment, depth, agent, reset).1, items);
        }
      }
    }
  }

  /** Whatever happens, each prompt of a call asks for a contiguous stretch of its strings. */
  lemma {:induction false} PromptsAreStretches(items: seq<Item>, segment: string, depth: nat, agent: Agent, s: Session)
    ensures AsksForStretches(s, Run(items, segment, depth, agent, s).1, items)
    decreases |items|, 3
  {
    PromptsAreStretchesFrom(items, segment, depth, 0, "translation failed", agent, s.(calls := s.calls + [Call(segment, depth, items)]));
  }

  // ---------------------------------------------------------------- one client for each stretch of successes

  /**
   * The clients of a session: the first prompt goes to the first one, a prompt goes to the client of the
   * prompt before exactly when that one was accepted, and a client is in use exactly behind an accepted prompt.
   */
  ghost predicate OneClientPerStretch(s: Session) {
    && ClientsFollow(s.log)
    && (if s.log == [] then s.clients == 0 && !s.live
        else s.log[|s.log| - 1].client == s.clients && (s.live <==> s.log[|s.log| - 1].accepted))
  }

  ghost predicate ClientsFollow(log: seq<Prompt>) {
    && (log != [] ==> log[0].client == 1)
    && (forall i | 0 <= i < |log| - 1 :: log[i + 1].client == log[i].client + (if log[i].accepted then 0 else 1))
  }

  lemma SendKeepsClients(s: Session, items: seq<Item>, reply: Reply)
    requires OneClientPerStretch(s)
    ensures !reply.NoClient? ==> OneClientPerStretch(Send(s, items, reply, true))
    ensures OneClientPerStretch(Send(s, items, reply, false).(live := false))
  {
    var sent := Send(s, items, reply, true);
    if sent.log != s.log {
      forall i | 0 <= i < |sent.log| - 1
        ensures sent.log[i + 1].client == sent.log[i].client + (if sent.log[i].accepted then 0 else 1)
      {
        assert i + 1 < |s.log| ==> sent.log[i + 1] == s.log[i + 1];
      }
    }
  }

  lemma {:induction false} ClientsAreKeptFrom(
      items: seq<Item>, segment: string, depth: nat, attempt: nat, lastError: string, agent: Agent, s: Session)
    requires attempt <= TRANSLATE_MAX_ATTEMPTS
    requires OneClientPerStretch(s)
    ensures OneClientPerStretch(RunFrom(items, segment, depth, attempt, lastError, agent, s).1)
    decreases |items|, TRANSLATE_MAX_ATTEMPTS - attempt
  {
    if attempt < TRANSLATE_MAX_ATTEMPTS {
      var reply := agent(s.attempts);
      var outcome := Outcome(items, reply);
      SendKeepsClients(s, items, reply);
      if outcome.Err? {
        var reset := Send(s, items, reply, false).(live := false);
        if !IsPromptTimeout(outcome.error) {
          ClientsAreKeptFrom(items, segment, depth, attempt + 1, outcome.error, agent,
                             if attempt + 1 < TRANSLATE_MAX_ATTEMPTS then Pause(reset, attempt) else reset);
        } else if |items| > 1 {
          var mid := Midpoint(items);
          ClientsAreKept(items[..mid], segment + "a", depth + 1, agent, reset);
          ClientsAreKept(items[mid..], segment + "b", depth + 1, agent, Run(items[..mid], segment + "a", depth + 1, agent, reset).1);
        }
      }
    }
  }

  /** A client is used on as long as its prompts are accepted, and a new one is started only after a failure. */
  lemma {:induction false} ClientsAreKept(items: seq<Item>, segment: string, depth: nat, agent: Agent, s: Session)
    requires OneClientPerStretch(s)
    ensures OneClientPerStretch(Run(items, segment, depth, agent, s).1)
    decreases |items|, 3
  {
    ClientsAreKeptFrom(items, segment, depth, 0, "translation failed", agent, s.(calls := s.calls + [Call(segment, depth, items)]));
  }

  // ---------------------------------------------------------------- when a call returns and when it throws

  ghost predicate HasAnswer(item: Item, values: map<string, string>) {
    item.key in values && !Blank(values[item.key])
  }

  /** The reply is an answer with a value that is not blank for every string. */
  ghost predicate FullyAnswers(items: seq<Item>, reply: Reply) {
    reply.Answer? && forall item | item in items :: HasAnswer(item, reply.values)
  }

  /** The reply makes the attempt fail with this message: an answer fails for its first missing or blank value. */
  ghost predicate FailsWith(items: seq<Item>, reply: Reply, message: string) {
    match reply
    case NoClient(reason) => message == reason
    case PromptError(reason) => message == reason
    case Answer(values) =>
      exists i | 0 <= i < |items| ::
        && !HasAnswer(items[i], values)
        && (forall j | 0 <= j < i :: HasAnswer(items[j], values))
        && message == "missing translation for " + items[i].key
  }

  lemma {:induction false} CollectFailsForTheFirst(items: seq<Item>, values: map<string, string>)
    ensures Collect(items, values).Err? ==> FailsWith(items, Answer(values), Collect(items, values).error)
  {
    if items == [] {
    } else if HasAnswer(items[0], values) && Collect(items[1..], values).Err? {
      var error := Collect(items[1..], values).error;
      CollectFailsForTheFirst(items[1..], values);
      var i :| 0 <= i < |items[1..]| && !HasAnswer(items[1..][i], values) && (forall j | 0 <= j < i :: HasAnswer(items[1..][j], values))
               && error == "missing translation for " + items[1..][i].key;
      assert items[1..][i] == items[i + 1];
      forall j | 0 <= j < i + 1 ensures HasAnswer(items[j], values) {
        assert j > 0 ==> items[j] == items[1..][j - 1];
      }
    }
  }

  /** An attempt succeeds exactly on full answers, and otherwise fails with one message. */
  lemma AttemptIsJudged(items: seq<Item>, reply: Reply)
    ensures Outcome(items, reply).Ok? <==> FullyAnswers(items, reply)
    ensures forall message :: FailsWith(items, reply, message) <==> Outcome(items, reply) == Err(message)
  {
    if reply.Answer? {
      CollectIsComplete(items, reply.values);
      CollectFailsForTheFirst(items, reply.values);
      if Collect(items, reply.values).Ok? {
        forall item | item in items ensures HasAnswer(item, reply.values) {
          assert item.key in KeysOf(items);
        }
      }
    }
  }

  /** The attempt with this number fails, by a timeout or otherwise. */
  ghost predicate Fails(items: seq<Item>, agent: Agent, attempt: nat, timedOut: bool) {
    exists message :: FailsWith(items, agent(attempt), message) && (IsPromptTimeout(message) <==> timedOut)
  }

  lemma AttemptFails(items: seq<Item>, agent: Agent, attempt: nat)
    ensures var outcome := Outcome(items, agent(attempt));
            && (outcome.Ok? <==> FullyAnswers(items, agent(attempt)))
            && (Fails(items, agent, attempt, true) <==> outcome.Err? && IsPromptTimeout(outcome.error))
            && (Fails(items, agent, attempt, false) <==> outcome.Err? && !IsPromptTimeout(outcome.error))
  {
    AttemptIsJudged(items, agent(attempt));
    var outcome := Outcome(items, agent(attempt));
    if outcome.Err? {
      assert FailsWith(items, agent(attempt), outcome.error);
    }
  }

  /** The state behind a failed attempt. */
  ghost function Failed(s: Session, items: seq<Item>, agent: Agent): Session {
    Send(s, items, agent(s.attempts), false).(live := false)
  }

  ghost function Called(s: Session, items: seq<Item>, segment: string, depth: nat): Session {
    s.(calls := s.calls + [Call(segment, depth, items)])
  }

  /** What the first attempt of a call makes of it. */
  lemma FirstAttempt(items: seq<Item>, segment: string, depth: nat, agent: Agent, s: Session)
    ensures var run, failed := Run(items, segment, depth, agent, s), Failed(Called(s, items, segment, depth), items, agent);
            && (FullyAnswers(items, agent(s.attempts)) ==>
                  run.0.Ok? && run.1.calls == failed.calls && run.1.attempts == failed.attempts == s.attempts + 1)
            && (Fails(items, agent, s.attempts, true) ==>
                  if |items| > 1 then run == Halves(items, segment, depth, agent, failed) else run.0.Err? && run.1 == failed)
            && (Fails(items, agent, s.attempts, false) ==> exists error ::
                  run == RunFrom(items, segment, depth, 1, error, agent, Pause(failed, 0)))
  {
    AttemptFails(items, agent, s.attempts);
    var outcome := Outcome(items, agent(s.attempts));
    if outcome.Err? && !IsPromptTimeout(outcome.error) {
      assert Run(items, segment, depth, agent, s)
          == RunFrom(items, segment, depth, 1, outcome.error, agent, Pause(Failed(Called(s, items, segment, depth), items, agent), 0));
    }
  }

  lemma SecondAttempt(items: seq<Item>, segment: string, depth: nat, lastError: string, agent: Agent, s: Session)
    ensures var run, failed := RunFrom(items, segment, depth, 1, lastError, agent, s), Failed(s, items, agent);
            && (FullyAnswers(items, agent(s.attempts)) ==> run.0.Ok? && run.1.calls == s.calls)
            && (Fails(items, agent, s.attempts, true) ==>
                  if |items| > 1 then run == Halves(items, segment, depth, agent, failed) else run.0.Err? && run.1 == failed)
            && (Fails(items, agent, s.attempts, false) ==> run.0.Err? && run.1 == failed)
  {
    AttemptFails(items, agent, s.attempts);
  }

  /** A call whose first attempt is answered in full is over with that attempt. */
  lemma AnsweredAtOnce(items: seq<Item>, segment: string, depth: nat, agent: Agent, s: Session)
    requires FullyAnswers(items, agent(s.attempts))
    ensures var (result, end) := Run(items, segment, depth, agent, s);
            result.Ok? && end.attempts == s.attempts + 1
  {
    FirstAttempt(items, segment, depth, agent, s);
  }

  /**
   * When every attempt after the first is answered in full, a call returns, whatever the first attempt
   * got, unless there is nothing to split and the first attempt timed out: then it throws.
   */
  lemma AnsweredCallsReturn(items: seq<Item>, segment: string, depth: nat, agent: Agent, s: Session)
    requires forall attempt: nat | attempt > s.attempts :: FullyAnswers(items, agent(attempt))
    ensures Run(items, segment, depth, agent, s).0.Ok? <==> |items| > 1 || !Fails(items, agent, s.attempts, true)
  {
    AttemptFails(items, agent, s.attempts);
    FirstAttempt(items, segment, depth, agent, s);
    var failed := Failed(Called(s, items, segment, depth), items, agent);
    if Fails(items, agent, s.attempts, false) {
      var error :| Run(items, segment, depth, agent, s) == RunFrom(items, segment, depth, 1, error, agent, Pause(failed, 0));
      SecondAttempt(items, segment, depth, error, agent, Pause(failed, 0));
    } else if |items| > 1 && Fails(items, agent, s.attempts, true) {
      var left, right := items[..Midpoint(items)], items[Midpoint(items)..];
      assert forall item | item in left :: item in items;
      assert forall item | item in right :: item in items;
      AnsweredAtOnce(left, segment + "a", depth + 1, agent, failed);
      AnsweredAtOnce(right, segment + "b", depth + 1, agent, Run(left, segment + "a", depth + 1, agent, failed).1);
    }
  }

  /**
   * How a session ends: with a full answer to the call made last when it returns; otherwise with a timeout
   * of a call that cannot be split, or with the second failure in a row of the same call, neither by a timeout.
   */
  ghost predicate EndsWith(first: nat, end: Session, agent: Agent, result: Result<map<string, string>, string>) {
    && end.calls != [] && end.attempts > first
    && var items, n := end.calls[|end.calls| - 1].items, end.attempts;
    match result
    case Ok(_) => FullyAnswers(items, agent(n - 1))
    case Err(message) =>
      && FailsWith(items, agent(n - 1), message)
      && (|| (IsPromptTimeout(message) && |items| <= 1)
          || (!IsPromptTimeout(message) && n - 2 >= first && Fails(items, agent, n - 2, false)))
  }

  /** The same from the second attempt on, when the first has failed, and not by a timeout. */
  lemma {:induction false} HowSecondAttemptsEnd(items: seq<Item>, segment: string, depth: nat, lastError: string, agent: Agent, s: Session)
    requires s.calls != [] && s.calls[|s.calls| - 1].items == items
    requires s.attempts > 0 && Fails(items, agent, s.attempts - 1, false)
    ensures var (result, end) := RunFrom(items, segment, depth, 1, lastError, agent, s);
            EndsWith(s.attempts - 1, end, agent, result)
    decreases |items|, 1
  {
    AttemptIsJudged(items, agent(s.attempts));
    var outcome := Outcome(items, agent(s.attempts));
    if outcome.Err? {
      var failed := Failed(s, items, agent);
      if IsPromptTimeout(outcome.error) && |items| > 1 {
        HowHalvesEnd(items, segment, depth, agent, failed);
      } else {
        assert RunFrom(items, segment, depth, 1, lastError, agent, s) == (Err(outcome.error), failed);
      }
    }
  }

  lemma {:induction false} HowHalvesEnd(items: seq<Item>, segment: string, depth: nat, agent: Agent, s: Session)
    requires |items| > 1
    ensures var (result, end) := Halves(items, segment, depth, agent, s);
            EndsWith(s.attempts, end, agent, result)
    decreases |items|, 0
  {
    var mid := Midpoint(items);
    var (left, middle) := Run(items[..mid], segment + "a", depth + 1, agent, s);
    HowCallsEnd(items[..mid], segment + "a", depth + 1, agent, s);
    if left.Ok? {
      var (right, end) := Run(items[mid..], segment + "b", depth + 1, agent, middle);
      HowCallsEnd(items[mid..], segment + "b", depth + 1, agent, middle);
      assert EndsWith(middle.attempts, end, agent, right);
    }
  }

  lemma {:induction false} HowCallsEnd(items: seq<Item>, segment: string, depth: nat, agent: Agent, s: Session)
    ensures var (result, end) := Run(items, segment, depth, agent, s);
            EndsWith(s.attempts, end, agent, result)
    decreases |items|, 3
  {
    var called := Called(s, items, segment, depth);
    var failed := Failed(called, items, agent);
    AttemptIsJudged(items, agent(s.attempts));
    AttemptFails(items, agent, s.attempts);
    var outcome := Outcome(items, agent(s.attempts));
    if outcome.Err? && !IsPromptTimeout(outcome.error) {
      HowSecondAttemptsEnd(items, segment, depth, outcome.error, agent, Pause(failed, 0));
      assert Run(items, segment, depth, agent, s) == RunFrom(items, segment, depth, 1, outcome.error, agent, Pause(failed, 0));
    } else if outcome.Err? && |items| > 1 {
      HowHalvesEnd(items, segment, depth, agent, failed);
      assert Run(items, segment, depth, agent, s) == Halves(items, segment, depth, agent, failed);
    }
  }

  lemma OneMoreCall(items: seq<Item>, segment: string, depth: nat, agent: Agent, s: Session)
    ensures |Run(items, segment, depth, agent, s).1.calls| > |s.calls|
  {
    var root := s.(calls := s.calls + [Call(segment, depth, items)]);
    LabelsIdentifySegmentsFrom(items, segment, depth, 0, "translation failed", agent, root);
  }

  lemma HalvesCall(items: seq<Item>, segment: string, depth: nat, agent: Agent, s: Session)
    requires |items| > 1
    ensures |Halves(items, segment, depth, agent, s).1.calls| > |s.calls|
  {
    var mid := Midpoint(items);
    var (left, middle) := Run(items[..mid], segment + "a", depth + 1, agent, s);
    LabelsIdentifySegments(items[..mid], segment + "a", depth + 1, agent, s);
    LabelsIdentifySegments(items[mid..], segment + "b", depth + 1, agent, middle);
    OneMoreCall(items[..mid], segment + "a", depth + 1, agent, s);
  }

  /** Among the first two attempts of a call there is a timeout, and no success before it. */
  ghost predicate TimesOut(items: seq<Item>, agent: Agent, first: nat) {
    || Fails(items, agent, first, true)
    || (Fails(items, agent, first, false) && Fails(items, agent, first + 1, true))
  }

  lemma SplitsAtOnce(items: seq<Item>, segment: string, depth: nat, agent: Agent, s: Session)
    requires Fails(items, agent, s.attempts, true)
    ensures |Run(items, segment, depth, agent, s).1.calls| > |s.calls| + 1 <==> |items| > 1
  {
    FirstAttempt(items, segment, depth, agent, s);
    var failed := Failed(Called(s, items, segment, depth), items, agent);
    if |items| > 1 {
      HalvesCall(items, segment, depth, agent, failed);
    }
  }

  lemma SplitsOnSecond(items: seq<Item>, segment: string, depth: nat, lastError: string, agent: Agent, s: Session)
    ensures |RunFrom(items, segment, depth, 1, lastError, agent, s).1.calls| > |s.calls| <==> |items| > 1 && Fails(items, agent, s.attempts, true)
  {
    AttemptFails(items, agent, s.attempts);
    SecondAttempt(items, segment, depth, lastError, agent, s);
    if |items| > 1 {
      HalvesCall(items, segment, depth, agent, Failed(s, items, agent));
    }
  }

  lemma SplitsLater(items: seq<Item>, segment: string, depth: nat, agent: Agent, s: Session)
    requires Fails(items, agent, s.attempts, false)
    ensures |Run(items, segment, depth, agent, s).1.calls| > |s.calls| + 1 <==> |items| > 1 && Fails(items, agent, s.attempts + 1, true)
  {
    FirstAttempt(items, segment, depth, agent, s);
    var paused := Pause(Failed(Called(s, items, segment, depth), items, agent), 0);
    var error :| Run(items, segment, depth, agent, s) == RunFrom(items, segment, depth, 1, error, agent, paused);
    SplitsOnSecond(items, segment, depth, error, agent, paused);
  }

  /** A call makes further calls exactly when it has several strings and one of its attempts times out. */
  lemma SplitsExactlyOnTimeout(items: seq<Item>, segment: string, depth: nat, agent: Agent, s: Session)
    ensures |Run(items, segment, depth, agent, s).1.calls| > |s.calls| + 1 <==> |items| > 1 && TimesOut(items, agent, s.attempts)
  {
    AttemptFails(items, agent, s.attempts);
    if Fails(items, agent, s.attempts, true) {
      SplitsAtOnce(items, segment, depth, agent, s);
    } else if Fails(items, agent, s.attempts, false) {
      SplitsLater(items, segment, depth, agent, s);
    } else {
      FirstAttempt(items, segment, depth, agent, s);
    }
  }

  /** Splitting a batch cuts it in two, in order, of which the first is as long as the second or one longer. */
  lemma {:induction false} SegmentsAreHalves(items: seq<Item>, path: string)
    ensures var a, b := Segment(items, path + "a"), Segment(items, path + "b");
            Segment(items, path) == a + b && 0 <= |a| - |b| <= 1
    decreases |path|
  {
    if path == "" {
      assert ("" + "a")[1..] == "" && ("" + "b")[1..] == "";
    } else {
      var mid := Midpoint(items);
      assert (path + "a")[1..] == path[1..] + "a" && (path + "b")[1..] == path[1..] + "b";
      SegmentsAreHalves(if path[0] == 'a' then items[..mid] else items[mid..], path[1..]);
    }
  }

  /** From `s` to `end`, attempts are made and pauses taken such that every call has one attempt and one more per pause. */
  ghost predicate PausesBeforeRetries(s: Session, end: Session, open: int) {
    end.attempts - s.attempts == |end.calls| - |s.calls| + open + end.sleeps - s.sleeps
  }

  lemma {:induction false} EveryRetryWaitsFrom(
      items: seq<Item>, segment: string, depth: nat, attempt: nat, lastError: string, agent: Agent, s: Session)
    requires attempt <= TRANSLATE_MAX_ATTEMPTS
    ensures PausesBeforeRetries(s, RunFrom(items, segment, depth, attempt, lastError, agent, s).1, if attempt < 2 then 1 else 0)
    decreases |items|, TRANSLATE_MAX_ATTEMPTS - attempt
  {
    if attempt < TRANSLATE_MAX_ATTEMPTS {
      var reply := agent(s.attempts);
      var outcome := Outcome(items, reply);
      if outcome.Err? {
        var reset := Send(s, items, reply, false).(live := false);
        if !IsPromptTimeout(outcome.error) {
          EveryRetryWaitsFrom(items, segment, depth, attempt + 1, outcome.error, agent,
                              if attempt + 1 < TRANSLATE_MAX_ATTEMPTS then Pause(reset, attempt) else reset);
        } else if |items| > 1 {
          var mid := Midpoint(items);
          EveryRetryWaits(items[..mid], segment + "a", depth + 1, agent, reset);
          EveryRetryWaits(items[mid..], segment + "b", depth + 1, agent, Run(items[..mid], segment + "a", depth + 1, agent, reset).1);
        }
      }
    }
  }

  /** There is a pause before every second attempt of a call, and no other: attempts are calls and pauses together. */
  lemma {:induction false} EveryRetryWaits(items: seq<Item>, segment: string, depth: nat, agent: Agent, s: Session)
    ensures PausesBeforeRetries(s, Run(items, segment, depth, agent, s).1, 0)
    decreases |items|, 3
  {
    EveryRetryWaitsFrom(items, segment, depth, 0, "translation failed", agent, s.(calls := s.calls + [Call(segment, depth, items)]));
  }
}
