/**
 * The worker pools: mapConcurrent of scripts/update-clawtributors.ts and readRuntimeSourceFiles of
 * scripts/check-temp-path-guardrails.ts. Several workers take indices from one shared counter and
 * write their results into one shared array; between two steps of a worker any others may move.
 */
module WorkerPool {
  import opened Prelude

  /** How the work on one index ends; a skipped index leaves its slot empty. */
  datatype Outcome<+R> = Value(value: R) | Skip | Reject

  /** A worker is at its loop head, awaits the work on an index, has returned, or has thrown. */
  datatype Worker = Ready | Busy(index: nat) | Done | Failed

  /** The two pools differ in one thing: whether a worker that finds no work moves the counter. */
  datatype Pool = MapConcurrent | ReadFiles

  datatype Call = Call(index: nat, worker: nat)

  datatype State<+R> = State(
    pool: Pool,
    nextIndex: nat,
    workers: seq<Worker>,
    results: seq<Option<R>>,
    calls: seq<Call>) // the calls of the mapper so far

  /** A worker passes its loop head, or the work that it awaits ends. */
  datatype Event = Turn(worker: nat) | Settle(worker: nat)

  function WorkerCount(limit: int, n: nat): nat {
    var wanted := if limit < n then limit else n;
    if wanted < 1 then 1 else wanted
  }

  function Start<R>(pool: Pool, limit: int, n: nat): State<R> {
    State(pool, 0, seq(WorkerCount(limit, n), _ => Ready), seq(n, _ => None), [])
  }

  predicate Enabled<R>(s: State<R>, e: Event) {
    && e.worker < |s.workers|
    && (match e
        case Turn(w) => s.workers[w].Ready?
        case Settle(w) => s.workers[w].Busy? && s.workers[w].index < |s.results|)
  }

  function Step<R>(outcomes: seq<Outcome<R>>, s: State<R>, e: Event): State<R>
    requires |s.results| == |outcomes| && Enabled(s, e)
  {
    match e
    case Turn(w) =>
      var index := s.nextIndex;
      if index < |outcomes| then
        s.(nextIndex := index + 1, workers := s.workers[w := Busy(index)], calls := s.calls + [Call(index, w)])
      else
        s.(nextIndex := if s.pool == ReadFiles then index + 1 else index, workers := s.workers[w := Done])
    case Settle(w) =>
      var index := s.workers[w].index;
      match outcomes[index]
      case Value(value) => s.(results := s.results[index := Some(value)], workers := s.workers[w := Ready])
      case Skip => s.(workers := s.workers[w := Ready])
      case Reject => s.(workers := s.workers[w := Failed])
  }

  class SharedPool<R> {
    const pool: Pool
    const results: array<Option<R>>
    var nextIndex: nat
    var workers: seq<Worker>
    ghost var calls: seq<Call>

    ghost function Current(): State<R>
      reads this, results
    {
      State(pool, nextIndex, workers, results[..], calls)
    }

    constructor (pool: Pool, limit: int, n: nat)
      ensures fresh(results) && results.Length == n
      ensures Current() == Start(pool, limit, n)
    {
      this.pool := pool;
      results := new Option<R>[n](_ => None);
      nextIndex := 0;
      workers := seq(WorkerCount(limit, n), _ => Ready);
      calls := [];
      new;
      assert results[..] == seq(n, _ => None);
    }

    method TakeTurn(w: nat, outcomes: seq<Outcome<R>>)
      requires |outcomes| == results.Length && Enabled(Current(), Turn(w))
      modifies this
      ensures Current() == Step(outcomes, old(Current()), Turn(w))
    {
      var index := nextIndex;
      if index >= results.Length {
        if pool == ReadFiles {
          nextIndex := nextIndex + 1;
        }
        workers := workers[w := Done];
        return;
      }
      nextIndex := nextIndex + 1;
      workers := workers[w := Busy(index)];
      calls := calls + [Call(index, w)];
    }

    method SettleWork(w: nat, outcomes: seq<Outcome<R>>)
      requires |outcomes| == results.Length && Enabled(Current(), Settle(w))
      modifies this`workers, results
      ensures Current() == Step(outcomes, old(Current()), Settle(w))
    {
      var index := workers[w].index;
      match outcomes[index] {
        case Value(value) =>
          results[index] := Some(value);
          workers := workers[w := Ready];
        case Skip =>
          workers := workers[w := Ready];
        case Reject =>
          workers := workers[w := Failed];
      }
    }
  }

  // ---------------------------------------------------------------- runs

  function Slot<R>(outcome: Outcome<R>): Option<R> {
    if outcome.Value? then Some(outcome.value) else None
  }

  /** What one worker that goes through the items in order would leave behind. */
  function Sequential<R>(outcomes: seq<Outcome<R>>): seq<Option<R>> {
    seq(|outcomes|, i requires 0 <= i < |outcomes| => Slot(outcomes[i]))
  }

  /** The work on an index is going on, or over and recorded, or has ended its worker. */
  ghost predicate Progress<R>(outcomes: seq<Outcome<R>>, s: State<R>, i: nat)
    requires i < |s.calls| && i < |s.results| && i < |outcomes|
  {
    var w := s.calls[i].worker;
    && w < |s.workers|
    && (|| s.workers[w] == Busy(i)
        || (s.results[i] == Slot(outcomes[i]) && (outcomes[i].Reject? ==> s.workers[w].Failed?)))
  }

  ghost predicate Inv<R>(outcomes: seq<Outcome<R>>, s: State<R>) {
    var n := |outcomes|;
    && |s.results| == n && |s.calls| <= n && s.nextIndex >= |s.calls|
    && (s.nextIndex > |s.calls| ==> |s.calls| == n)
    && (forall i | 0 <= i < |s.calls| :: s.calls[i].index == i)
    && (forall i | |s.calls| <= i < n :: s.results[i].None?)
    && (forall w | 0 <= w < |s.workers| ::
          match s.workers[w]
          case Busy(i) => i < |s.calls| && s.calls[i].worker == w && s.results[i].None?
          case Done => |s.calls| == n
          case _ => true)
    && (forall i | 0 <= i < |s.calls| :: Progress(outcomes, s, i))
  }

  function After<R>(outcomes: seq<Outcome<R>>, start: State<R>, events: seq<Event>): Option<State<R>> {
    if events == [] then Some(start)
    else
      var before := After(outcomes, start, events[..|events| - 1]);
      var e := events[|events| - 1];
      if before.Some? && |before.value.results| == |outcomes| && Enabled(before.value, e)
      then Some(Step(outcomes, before.value, e)) else None
  }

  lemma StartIsInv<R>(outcomes: seq<Outcome<R>>, pool: Pool, limit: int)
    ensures Inv(outcomes, Start<R>(pool, limit, |outcomes|))
  {
  }

  /** A worker that takes an index adds a call; all earlier ones go on as before. */
  lemma TakeKeepsProgress<R>(outcomes: seq<Outcome<R>>, s: State<R>, w: nat, i: nat)
    requires Inv(outcomes, s) && Enabled(s, Turn(w)) && i < |Step(outcomes, s, Turn(w)).calls|
    ensures Progress(outcomes, Step(outcomes, s, Turn(w)), i)
  {
    if i < |s.calls| {
      assert Progress(outcomes, s, i);
    }
  }

  lemma TakeKeepsInv<R>(outcomes: seq<Outcome<R>>, s: State<R>, w: nat)
    requires Inv(outcomes, s) && Enabled(s, Turn(w))
    ensures Inv(outcomes, Step(outcomes, s, Turn(w)))
  {
    forall i | 0 <= i < |Step(outcomes, s, Turn(w)).calls| ensures Progress(outcomes, Step(outcomes, s, Turn(w)), i) {
      TakeKeepsProgress(outcomes, s, w, i);
    }
  }

  lemma SettleKeepsProgress<R>(outcomes: seq<Outcome<R>>, s: State<R>, w: nat, i: nat)
    requires Inv(outcomes, s) && Enabled(s, Settle(w)) && i < |s.calls|
    ensures Progress(outcomes, Step(outcomes, s, Settle(w)), i)
  {
    assert Progress(outcomes, s, i);
    if s.workers[w] != Busy(i) {
      assert s.workers[w].index != i;
    }
  }

  lemma SettleKeepsInv<R>(outcomes: seq<Outcome<R>>, s: State<R>, w: nat)
    requires Inv(outcomes, s) && Enabled(s, Settle(w))
    ensures Inv(outcomes, Step(outcomes, s, Settle(w)))
  {
    var t := Step(outcomes, s, Settle(w));
    forall i | 0 <= i < |t.calls| ensures Progress(outcomes, t, i) {
      SettleKeepsProgress(outcomes, s, w, i);
    }
  }

  // ---------------------------------------------------------------- effort

  function BusyCount(workers: seq<Worker>): nat {
    if workers == [] then 0 else (if workers[0].Busy? then 1 else 0) + BusyCount(workers[1..])
  }

  function ActiveCount(workers: seq<Worker>): nat {
    if workers == [] then 0 else (if workers[0].Ready? || workers[0].Busy? then 1 else 0) + ActiveCount(workers[1..])
  }

  lemma {:induction false} CountsOfUpdate(workers: seq<Worker>, w: nat, x: Worker)
    requires w < |workers|
    ensures BusyCount(workers[w := x]) == BusyCount(workers) - (if workers[w].Busy? then 1 else 0) + (if x.Busy? then 1 else 0)
    ensures ActiveCount(workers[w := x]) == ActiveCount(workers)
      - (if workers[w].Ready? || workers[w].Busy? then 1 else 0) + (if x.Ready? || x.Busy? then 1 else 0)
  {
    if w > 0 {
      assert workers[w := x][1..] == workers[1..][w - 1 := x];
      CountsOfUpdate(workers[1..], w - 1, x);
    } else {
      assert workers[w := x][1..] == workers[1..];
    }
  }

  lemma {:induction false} CountsOfReady(k: nat)
    ensures BusyCount(seq(k, _ => Ready)) == 0 && ActiveCount(seq(k, _ => Ready)) == k
  {
    if k == 0 {
    } else {
      assert seq(k, _ => Ready)[1..] == seq(k - 1, _ => Ready);
      CountsOfReady(k - 1);
    }
  }

  lemma {:induction false} BusyAtMost(workers: seq<Worker>)
    ensures BusyCount(workers) <= |workers|
  {
    if workers == [] {
    } else {
      BusyAtMost(workers[1..]);
    }
  }

  /** An upper bound on the events still to come. */
  ghost function Effort<R>(outcomes: seq<Outcome<R>>, s: State<R>): int {
    2 * (|outcomes| - |s.calls|) + BusyCount(s.workers) + ActiveCount(s.workers)
  }

  lemma StepTakesEffort<R>(outcomes: seq<Outcome<R>>, s: State<R>, e: Event)
    requires Inv(outcomes, s) && Enabled(s, e)
    ensures |Step(outcomes, s, e).workers| == |s.workers|
    ensures Effort(outcomes, Step(outcomes, s, e)) < Effort(outcomes, s)
  {
    CountsOfUpdate(s.workers, e.worker, Step(outcomes, s, e).workers[e.worker]);
  }

  lemma StepKeepsInv<R>(outcomes: seq<Outcome<R>>, s: State<R>, e: Event)
    requires Inv(outcomes, s) && Enabled(s, e)
    ensures Inv(outcomes, Step(outcomes, s, e))
    ensures |Step(outcomes, s, e).workers| == |s.workers|
    ensures Effort(outcomes, Step(outcomes, s, e)) < Effort(outcomes, s)
  {
    StepTakesEffort(outcomes, s, e);
    match e
    case Turn(w) => TakeKeepsInv(outcomes, s, w);
    case Settle(w) => SettleKeepsInv(outcomes, s, w);
  }

  lemma {:induction false} RunInvariant<R>(outcomes: seq<Outcome<R>>, pool: Pool, limit: int, events: seq<Event>)
    requires After(outcomes, Start<R>(pool, limit, |outcomes|), events).Some?
    ensures var n := |outcomes|;
            var s := After(outcomes, Start<R>(pool, limit, n), events).value;
            && Inv(outcomes, s) && |s.workers| == WorkerCount(limit, n)
            && |events| + Effort(outcomes, s) <= 2 * n + WorkerCount(limit, n)
  {
    var n := |outcomes|;
    var start := Start<R>(pool, limit, n);
    if events == [] {
      StartIsInv(outcomes, pool, limit);
      CountsOfReady(WorkerCount(limit, n));
    } else {
      var earlier := events[..|events| - 1];
      RunInvariant(outcomes, pool, limit, earlier);
      StepKeepsInv(outcomes, After(outcomes, start, earlier).value, events[|events| - 1]);
    }
  }

  // ---------------------------------------------------------------- the main results

  predicate Quiet<R>(s: State<R>) {
    forall w | 0 <= w < |s.workers| :: s.workers[w].Done? || s.workers[w].Failed?
  }

  /** Every worker has returned, so Promise.all is fulfilled. */
  predicate Fulfilled<R>(s: State<R>) {
    forall w | 0 <= w < |s.workers| :: s.workers[w].Done?
  }

  lemma {:induction false} NoneBusy(workers: seq<Worker>)
    requires forall w | 0 <= w < |workers| :: !workers[w].Busy?
    ensures BusyCount(workers) == 0
  {
    if workers == [] {
    } else {
      NoneBusy(workers[1..]);
    }
  }

  /**
   * Under every interleaving: the mapper is called on the indices 0, 1, 2, ... once each, no index is
   * worked on by two workers, and no more than the limit (but one at least) are in flight, nor more
   * than there are items.
   */
  lemma EachIndexIsClaimedOnce<R>(outcomes: seq<Outcome<R>>, pool: Pool, limit: int, events: seq<Event>)
    requires After(outcomes, Start<R>(pool, limit, |outcomes|), events).Some?
    ensures var n := |outcomes|;
            var s := After(outcomes, Start<R>(pool, limit, n), events).value;
            && |s.calls| <= n && (forall i | 0 <= i < |s.calls| :: s.calls[i].index == i)
            && (forall v, w | 0 <= v < |s.workers| && 0 <= w < |s.workers| && s.workers[v].Busy? && s.workers[v] == s.workers[w] :: v == w)
            && BusyCount(s.workers) <= (if limit < 1 then 1 else limit)
            && BusyCount(s.workers) <= n
  {
    RunInvariant(outcomes, pool, limit, events);
    var s := After(outcomes, Start<R>(pool, limit, |outcomes|), events).value;
    BusyAtMost(s.workers);
    if |outcomes| == 0 {
      forall w | 0 <= w < |s.workers| ensures !s.workers[w].Busy? {
      }
      NoneBusy(s.workers);
    }
  }

  function Turns(k: nat): seq<Event> {
    if k == 0 then [] else Turns(k - 1) + [Turn(k - 1)]
  }

  /** The first k workers pass their loop heads one after the other. */
  lemma {:induction false} FirstTurns<R>(outcomes: seq<Outcome<R>>, pool: Pool, limit: int, k: nat)
    requires k <= WorkerCount(limit, |outcomes|) && k <= |outcomes|
    ensures var end := After(outcomes, Start<R>(pool, limit, |outcomes|), Turns(k));
            && end.Some? && |end.value.results| == |outcomes| && end.value.nextIndex == k
            && |end.value.workers| == WorkerCount(limit, |outcomes|)
            && (forall w | k <= w < |end.value.workers| :: end.value.workers[w].Ready?)
            && BusyCount(end.value.workers) == k
  {
    if k == 0 {
      CountsOfReady(WorkerCount(limit, |outcomes|));
    } else {
      FirstTurns(outcomes, pool, limit, k - 1);
      var events := Turns(k);
      assert events[..|events| - 1] == Turns(k - 1);
      var s := After(outcomes, Start<R>(pool, limit, |outcomes|), Turns(k - 1)).value;
      CountsOfUpdate(s.workers, k - 1, Busy(k - 1));
    }
  }

  /** The limit is used: for any items there is a run in which as many are in flight as the limit and the items allow. */
  lemma FullLoadHappens<R>(outcomes: seq<Outcome<R>>, pool: Pool, limit: int) returns (events: seq<Event>)
    ensures var end := After(outcomes, Start<R>(pool, limit, |outcomes|), events);
            end.Some? && BusyCount(end.value.workers) == if |outcomes| <= limit then |outcomes| else if limit >= 1 then limit
                                                         else if |outcomes| >= 1 then 1 else 0
  {
    var n := |outcomes|;
    var k := if n <= limit then n else if limit >= 1 then limit else if n >= 1 then 1 else 0;
    FirstTurns(outcomes, pool, limit, k);
    events := Turns(k);
  }

  /** A worker fails only on work that rejects. */
  lemma {:induction false} FailuresReject<R>(outcomes: seq<Outcome<R>>, pool: Pool, limit: int, events: seq<Event>)
    requires After(outcomes, Start<R>(pool, limit, |outcomes|), events).Some?
    ensures var s := After(outcomes, Start<R>(pool, limit, |outcomes|), events).value;
            (exists w | 0 <= w < |s.workers| :: s.workers[w].Failed?) ==> exists i | 0 <= i < |outcomes| :: outcomes[i].Reject?
  {
    if events == [] {
    } else {
      var earlier, e := events[..|events| - 1], events[|events| - 1];
      FailuresReject(outcomes, pool, limit, earlier);
      var s := After(outcomes, Start<R>(pool, limit, |outcomes|), earlier).value;
      if e.Settle? && outcomes[s.workers[e.worker].index].Reject? {
      } else {
        var t := Step(outcomes, s, e);
        assert forall w | 0 <= w < |t.workers| && t.workers[w].Failed? :: s.workers[w].Failed?;
      }
    }
  }

  /**
   * A run that can go no further is fulfilled exactly when no work rejects, and then the results are
   * those of a sequential map: result i belongs to item i.
   */
  lemma PoolIsASequentialMap<R>(outcomes: seq<Outcome<R>>, pool: Pool, limit: int, events: seq<Event>)
    requires After(outcomes, Start<R>(pool, limit, |outcomes|), events).Some?
    requires Quiet(After(outcomes, Start<R>(pool, limit, |outcomes|), events).value)
    ensures var s := After(outcomes, Start<R>(pool, limit, |outcomes|), events).value;
            && (Fulfilled(s) <==> forall i | 0 <= i < |outcomes| :: !outcomes[i].Reject?)
            && (Fulfilled(s) ==> s.results == Sequential(outcomes) && |s.calls| == |outcomes|)
  {
    RunInvariant(outcomes, pool, limit, events);
    FailuresReject(outcomes, pool, limit, events);
    var s := After(outcomes, Start<R>(pool, limit, |outcomes|), events).value;
    if Fulfilled(s) {
      assert s.workers[0].Done?;
      forall i | 0 <= i < |outcomes| ensures s.results[i] == Slot(outcomes[i]) && !outcomes[i].Reject? {
        assert Progress(outcomes, s, i);
      }
      assert s.results == Sequential(outcomes);
    }
  }

  /** Every run is short, and none gets stuck before it is quiet. */
  lemma RunsAreBounded<R>(outcomes: seq<Outcome<R>>, pool: Pool, limit: int, events: seq<Event>)
    requires After(outcomes, Start<R>(pool, limit, |outcomes|), events).Some?
    ensures |events| <= 2 * |outcomes| + WorkerCount(limit, |outcomes|)
    ensures var s := After(outcomes, Start<R>(pool, limit, |outcomes|), events).value;
            Quiet(s) || exists e :: Enabled(s, e)
  {
    RunInvariant(outcomes, pool, limit, events);
    var s := After(outcomes, Start<R>(pool, limit, |outcomes|), events).value;
    if !Quiet(s) {
      var w :| 0 <= w < |s.workers| && !s.workers[w].Done? && !s.workers[w].Failed?;
      assert Enabled(s, if s.workers[w].Ready? then Turn(w) else Settle(w));
    }
  }

  // ---------------------------------------------------------------- the order of the output

  /** The filter at the end of readRuntimeSourceFiles. */
  function Kept<R>(results: seq<Option<R>>): seq<R> {
    if results == [] then [] else (if results[0].Some? then [results[0].value] else []) + Kept(results[1..])
  }

  /** Reading the files one by one. */
  function ReadInOrder<R>(outcomes: seq<Outcome<R>>): seq<R> {
    if outcomes == [] then []
    else (match outcomes[0] case Value(value) => [value] case _ => []) + ReadInOrder(outcomes[1..])
  }

  lemma {:induction false} KeptIsReadInOrder<R>(outcomes: seq<Outcome<R>>)
    ensures Kept(Sequential(outcomes)) == ReadInOrder(outcomes)
  {
    if outcomes == [] {
    } else {
      assert Sequential(outcomes)[1..] == Sequential(outcomes[1..]);
      KeptIsReadInOrder(outcomes[1..]);
    }
  }

  /** The files that a fulfilled pool returns are those that could be read, in the order of the paths. */
  lemma OutputOrderIsInputOrder<R>(outcomes: seq<Outcome<R>>, limit: int, events: seq<Event>)
    requires After(outcomes, Start<R>(ReadFiles, limit, |outcomes|), events).Some?
    requires Fulfilled(After(outcomes, Start<R>(ReadFiles, limit, |outcomes|), events).value)
    ensures Kept(After(outcomes, Start<R>(ReadFiles, limit, |outcomes|), events).value.results) == ReadInOrder(outcomes)
  {
    PoolIsASequentialMap(outcomes, ReadFiles, limit, events);
    KeptIsReadInOrder(outcomes);
  }
}
