/**
 * How a run of syncLocale ends, when it may write, and what a completed write leaves in the metadata,
 * the glossary and the translation memory.
 */
module SyncOutcome {
  import opened Prelude
  import opened BatchPlanner
  import opened LocaleTree
  import opened Sorting
  import opened LocaleSync
  import opened SyncConvergence
  import Placeholders
  import Translator

  // ---------------------------------------------------------------- when a run writes

  /**
   * A run leaves every file alone unless it is to write and not only to check. One that finishes reports
   * a write exactly when it is to write, not only to check, and the files are not what they were.
   */
  lemma RunsWriteExactlyWhenAsked(cfg: Config, options: Options, english: Forest, sourceHash: string, disk: Disk,
                                  agent: Translator.Agent, now: string, stamp: string -> string)
    ensures var (outcome, after, _) := Sync(cfg, options, english, sourceHash, disk, agent, now, stamp);
            && (options.checkOnly || !options.write || !outcome.Finished? ==> after == disk)
            && (outcome.Finished? ==> (outcome.wrote <==> options.write && !options.checkOnly && after != disk))
  {
    if Sync(cfg, options, english, sourceHash, disk, agent, now, stamp).0.Finished? {
      FinishedRuns(cfg, options, english, sourceHash, disk, agent, now, stamp);
    }
  }

  /** The same options for a run that writes. */
  function Writing(options: Options): Options {
    options.(checkOnly := false, write := true)
  }

  lemma FinishReportsDrift(cfg: Config, options: Options, source: seq<Pair>, sourceHash: string, disk: Disk, f: Progress, now: string)
    ensures var (outcome, _) := Finish(cfg, options, source, sourceHash, disk, f, now);
            var (writing, left) := Finish(cfg, Writing(options), source, sourceHash, disk, f, now);
            && (outcome.Finished? <==> writing.Finished?)
            && (outcome.Finished? ==>
                  && outcome.fallbackCount == writing.fallbackCount
                  && (outcome.changed <==> writing.changed)
                  && (outcome.changed <==> left != disk))
            && (!outcome.Finished? ==> outcome == writing)
  {
  }

  /**
   * A run with whatever options reports a change exactly when the same run, asked to write, would leave
   * other files; it ends in the same way, counts the same fallbacks and sends the same prompts.
   */
  lemma ChangeMeansDrift(cfg: Config, options: Options, english: Forest, sourceHash: string, disk: Disk,
                         agent: Translator.Agent, now: string, stamp: string -> string)
    ensures var (outcome, _, session) := Sync(cfg, options, english, sourceHash, disk, agent, now, stamp);
            var (writing, left, session') := Sync(cfg, Writing(options), english, sourceHash, disk, agent, now, stamp);
            && session == session'
            && (outcome.Finished? <==> writing.Finished?)
            && (outcome.Finished? ==>
                  && outcome.fallbackCount == writing.fallbackCount
                  && (outcome.changed <==> left != disk))
            && (!outcome.Finished? ==> outcome == writing)
  {
    var source := Flatten(english, "");
    var f := Passes(cfg, options, source, disk, agent, stamp);
    if f.Ok? {
      FinishReportsDrift(cfg, options, source, sourceHash, disk, f.value, now);
    }
  }

  // ---------------------------------------------------------------- what the provider is asked

  lemma PromptsOfBatchAreAllowed(batch: seq<Item>, budget: real, agent: Translator.Agent, session: Translator.Session)
    requires Allowed(batch, budget)
    ensures var after := Translator.Run(batch, "", 0, agent, session).1;
            session.log <= after.log && forall prompt | prompt in after.log[|session.log|..] :: Allowed(prompt.items, budget)
  {
    Translator.PromptsAreStretches(batch, "", 0, agent, session);
    var after := Translator.Run(batch, "", 0, agent, session).1;
    forall prompt | prompt in after.log[|session.log|..] ensures Allowed(prompt.items, budget) {
      var front, back :| batch == front + prompt.items + back;
      AllowedStretch(front, prompt.items, back, budget);
    }
  }

  lemma {:induction false} PromptsAreAllowed(cfg: Config, p: Progress, batches: seq<seq<Item>>, agent: Translator.Agent,
                                             session: Translator.Session, stamp: string -> string)
    requires forall batch | batch in batches :: Allowed(batch, cfg.budget)
    requires forall prompt | prompt in session.log :: Allowed(prompt.items, cfg.budget)
    ensures forall prompt | prompt in TranslateAll(cfg, p, batches, agent, session, stamp).1.log :: Allowed(prompt.items, cfg.budget)
    decreases |batches|
  {
    if batches == [] {
    } else {
      var (result, after) := Translator.Run(batches[0], "", 0, agent, session);
      PromptsOfBatchAreAllowed(batches[0], cfg.budget, agent, session);
      assert after.log == session.log + after.log[|session.log|..];
      if result.Ok? {
        PromptsAreAllowed(cfg, Adopt(cfg, p, batches[0], result.value, stamp), batches[1..], agent, after, stamp);
      }
    }
  }

  /** The calls that were not made by splitting another one. */
  ghost function WholeBatches(calls: seq<Translator.Call>): seq<seq<Item>> {
    if calls == [] then []
    else
      var last := calls[|calls| - 1];
      WholeBatches(calls[..|calls| - 1]) + (if last.segment == "" then [last.items] else [])
  }

  lemma {:induction false} WholeBatchesOfSplits(calls: seq<Translator.Call>, more: seq<Translator.Call>)
    requires forall call | call in more :: call.segment != ""
    ensures WholeBatches(calls + more) == WholeBatches(calls)
  {
    if more == [] {
      assert calls + more == calls;
    } else {
      assert (calls + more)[..|calls + more| - 1] == calls + more[..|more| - 1];
      WholeBatchesOfSplits(calls, more[..|more| - 1]);
    }
  }

  /** A call for a whole batch adds that one. */
  lemma OneWholeBatch(batch: seq<Item>, agent: Translator.Agent, session: Translator.Session)
    ensures WholeBatches(Translator.Run(batch, "", 0, agent, session).1.calls) == WholeBatches(session.calls) + [batch]
  {
    var root := session.(calls := session.calls + [Translator.Call("", 0, batch)]);
    var end := Translator.Run(batch, "", 0, agent, session).1;
    Translator.LabelsIdentifySegmentsFrom(batch, "", 0, 0, "translation failed", agent, root);
    assert end.calls == root.calls + end.calls[|root.calls|..];
    WholeBatchesOfSplits(root.calls, end.calls[|root.calls|..]);
    assert root.calls[..|root.calls| - 1] == session.calls;
  }

  lemma {:induction false} BatchesAreCalled(cfg: Config, p: Progress, batches: seq<seq<Item>>, agent: Translator.Agent,
                                            session: Translator.Session, stamp: string -> string)
    ensures var (result, after) := TranslateAll(cfg, p, batches, agent, session, stamp);
            && WholeBatches(after.calls) <= WholeBatches(session.calls) + batches
            && (result.Ok? ==> WholeBatches(after.calls) == WholeBatches(session.calls) + batches)
    decreases |batches|
  {
    if batches == [] {
      assert WholeBatches(session.calls) + batches == WholeBatches(session.calls);
    } else {
      var (result, after) := Translator.Run(batches[0], "", 0, agent, session);
      OneWholeBatch(batches[0], agent, session);
      assert WholeBatches(session.calls) + [batches[0]] + batches[1..] == WholeBatches(session.calls) + batches;
      if result.Ok? {
        BatchesAreCalled(cfg, Adopt(cfg, p, batches[0], result.value, stamp), batches[1..], agent, after, stamp);
      }
    }
  }

  /**
   * The provider pass: every prompt, also after splits, obeys the planner's limits; the batches that it
   * starts with are those of the plan, in order, all of them when it does not throw; no other cut of the
   * pending strings that obeys the limits has fewer.
   */
  lemma ProviderAsksInFewBatches(cfg: Config, p: Progress, agent: Translator.Agent, stamp: string -> string)
    requires cfg.allowTranslate
    ensures var (result, session) := Provide(cfg, p, agent, stamp);
            var plan := Plan(p.pending, cfg.budget);
            && (forall prompt | prompt in session.log :: Allowed(prompt.items, cfg.budget))
            && WholeBatches(session.calls) <= plan && (result.Ok? ==> WholeBatches(session.calls) == plan)
            && IsPlan(plan, p.pending, cfg.budget)
            && forall other | IsPlan(other, p.pending, cfg.budget) :: |WholeBatches(session.calls)| <= |other|
  {
    PlanIsPlan([], p.pending, cfg.budget);
    assert [] + p.pending == p.pending;
    var plan := Plan(p.pending, cfg.budget);
    if p.pending != [] {
      PromptsAreAllowed(cfg, p, plan, agent, IDLE, stamp);
      BatchesAreCalled(cfg, p, plan, agent, IDLE, stamp);
    }
    forall other | IsPlan(other, p.pending, cfg.budget) ensures |plan| <= |other| {
      PlanIsShortest(p.pending, cfg.budget, other);
    }
  }

  // ---------------------------------------------------------------- how a run ends

  /** The provider pass ends as its last call does. */
  lemma {:induction false} BatchesEnd(cfg: Config, p: Progress, batches: seq<seq<Item>>, agent: Translator.Agent,
                                      session: Translator.Session, stamp: string -> string)
    ensures var (result, after) := TranslateAll(cfg, p, batches, agent, session, stamp);
            && after.attempts >= session.attempts
            && (result.Err? ==> Translator.EndsWith(session.attempts, after, agent, Err(result.error)))
            && (result.Ok? && batches != [] ==> Translator.EndsWith(session.attempts, after, agent, Ok(map[])))
    decreases |batches|
  {
    if batches == [] {
    } else {
      var (translated, middle) := Translator.Run(batches[0], "", 0, agent, session);
      Translator.HowCallsEnd(batches[0], "", 0, agent, session);
      if translated.Ok? {
        BatchesEnd(cfg, Adopt(cfg, p, batches[0], translated.value, stamp), batches[1..], agent, middle, stamp);
      }
    }
  }

  /** The session ended with a call that gave up, with this message. */
  ghost predicate GaveUp(session: Translator.Session, agent: Translator.Agent, message: string) {
    Translator.EndsWith(0, session, agent, Err(message))
  }

  lemma ProviderEnds(cfg: Config, p: Progress, agent: Translator.Agent, stamp: string -> string)
    ensures var (result, session) := Provide(cfg, p, agent, stamp);
            && (result.Err? ==> cfg.allowTranslate && GaveUp(session, agent, result.error))
            && (result.Ok? ==> forall message :: !GaveUp(session, agent, message))
  {
    if cfg.allowTranslate && p.pending != [] {
      PlanIsPlan([], p.pending, cfg.budget);
      assert [] + p.pending == p.pending;
      BatchesEnd(cfg, p, Plan(p.pending, cfg.budget), agent, IDLE, stamp);
      var (result, session) := TranslateAll(cfg, p, Plan(p.pending, cfg.budget), agent, IDLE, stamp);
      if result.Ok? {
        FullAnswersDoNotFail(session, agent);
      }
    }
  }

  lemma FullAnswersDoNotFail(session: Translator.Session, agent: Translator.Agent)
    requires Translator.EndsWith(0, session, agent, Ok(map[]))
    ensures forall message :: !GaveUp(session, agent, message)
  {
    var items := session.calls[|session.calls| - 1].items;
    Translator.AttemptIsJudged(items, agent(session.attempts - 1));
  }

  /** Every text and its translation mention the same placeholders. */
  ghost predicate KeepsPlaceholders(source: seq<Pair>, values: map<string, string>) {
    forall pair | pair in source :: pair.key in values && Placeholders.Parity(pair.text, values[pair.key])
  }

  lemma NoMismatchMeansParity(source: seq<Pair>, values: map<string, string>, le: Order)
    requires IsTotal(le) && forall pair | pair in source :: pair.key in values
    ensures Placeholders.MismatchesOf(Texts(source), values, le) == [] <==> KeepsPlaceholders(source, values)
  {
    var texts, mismatches := Texts(source), Placeholders.MismatchesOf(Texts(source), values, le);
    forall key ensures Placeholders.Reported(mismatches, key) <==> Placeholders.Differs(texts, values, key) {
      Placeholders.MismatchesAreExact(texts, values, le, key);
    }
    if mismatches == [] {
      forall pair | pair in source ensures Placeholders.Parity(pair.text, values[pair.key]) {
        var i := IndexOf(source, pair);
        assert texts[i] == (pair.key, pair.text) && !Placeholders.Reported(mismatches, pair.key);
        assert !Placeholders.Differs(texts, values, pair.key);
      }
    } else {
      assert Placeholders.Reported(mismatches, mismatches[0].key);
      var entry :| entry in texts && entry.0 == mismatches[0].key && !Placeholders.Parity(entry.1, Placeholders.TranslatedText(values, entry.0));
      var i :| 0 <= i < |texts| && texts[i] == entry;
      assert source[i] in source;
    }
  }

  /** The values that the passes of a run arrive at. */
  ghost function ValuesOf(cfg: Config, options: Options, english: Forest, disk: Disk, agent: Translator.Agent, stamp: string -> string)
    : map<string, string>
  {
    var f := Passes(cfg, options, Flatten(english, ""), disk, agent, stamp);
    if f.Ok? then f.value.next else map[]
  }

  /** How a run ends whose provider pass threw: it is skipped, with the fallbacks it had, or throws the same error. */
  lemma ThrowingRunsEnd(cfg: Config, options: Options, english: Forest, sourceHash: string, disk: Disk,
                        agent: Translator.Agent, now: string, stamp: string -> string)
    ensures var (outcome, _, session) := Sync(cfg, options, english, sourceHash, disk, agent, now, stamp);
            var f := Passes(cfg, options, Flatten(english, ""), disk, agent, stamp);
            f.Err? ==>
              && GaveUp(session, agent, f.error)
              && outcome == if cfg.authOptional && IsProviderAuthError(f.error)
                            then AuthSkipped(if disk.meta.Absent? then 0 else |disk.meta.value.fallbackKeys|) else Thrown(f.error)
  {
    ProviderEnds(cfg, Reuse(cfg, ViewOf(cfg, disk), LoadStored(disk.memory), Flatten(english, "")), agent, stamp);
  }

  /** How a run ends whose passes are complete. */
  lemma CompleteRunsEnd(cfg: Config, options: Options, english: Forest, sourceHash: string, disk: Disk,
                        agent: Translator.Agent, now: string, stamp: string -> string)
    requires Sane(cfg) && GoodKeys(english)
    requires Passes(cfg, options, Flatten(english, ""), disk, agent, stamp).Ok?
    ensures var (outcome, _, session) := Sync(cfg, options, english, sourceHash, disk, agent, now, stamp);
            && (forall message :: !GaveUp(session, agent, message))
            && !outcome.AuthSkipped?
            && (outcome.Finished? <==> KeepsPlaceholders(Flatten(english, ""), ValuesOf(cfg, options, english, disk, agent, stamp)))
  {
    var source := Flatten(english, "");
    ProviderEnds(cfg, Reuse(cfg, ViewOf(cfg, disk), LoadStored(disk.memory), source), agent, stamp);
    FlattenedKeysAreDistinct(english);
    PassesSettle(cfg, options, source, disk, agent, stamp);
    NoMismatchMeansParity(source, Passes(cfg, options, source, disk, agent, stamp).value.next, cfg.le);
    CompleteRunsConclude(cfg, options, english, sourceHash, disk, agent, now, stamp);
  }

  lemma CompleteRunsConclude(cfg: Config, options: Options, english: Forest, sourceHash: string, disk: Disk,
                             agent: Translator.Agent, now: string, stamp: string -> string)
    requires Passes(cfg, options, Flatten(english, ""), disk, agent, stamp).Ok?
    ensures var (outcome, after, session) := Sync(cfg, options, english, sourceHash, disk, agent, now, stamp);
            var f := Passes(cfg, options, Flatten(english, ""), disk, agent, stamp).value;
            && session == Provide(cfg, Reuse(cfg, ViewOf(cfg, disk), LoadStored(disk.memory), Flatten(english, "")), agent, stamp).1
            && (outcome, after) == Finish(cfg, options, Flatten(english, ""), sourceHash, disk, f, now)
  {
  }

  ghost predicate StandsAt(text: string, part: string, i: nat) {
    i + |part| <= |text| && text[i..i + |part|] == part
  }

  ghost predicate Stands(text: string, part: string) {
    exists i: nat :: StandsAt(text, part, i)
  }

  /** One of the four texts by which an authentication error is told stands in the message, in capital or small letters. */
  ghost predicate TellsOfAuthentication(message: string) {
    || Stands(Lower(message), "401")
    || Stands(Lower(message), "authentication_error")
    || Stands(Lower(message), "incorrect api key")
    || Stands(Lower(message), "invalid x-api-key")
  }

  lemma StandsAtMeans(text: string, part: string, i: nat)
    requires i <= |text|
    ensures StandsAt(text, part, i) <==> part <= text[i..]
  {
    if i + |part| <= |text| {
      assert text[i..][..|part|] == text[i..i + |part|];
    }
  }

  lemma ContainsStands(text: string, part: string)
    ensures Contains(text, part) <==> Stands(text, part)
  {
    ContainsMeans(text, part);
    forall i: nat | i <= |text| ensures StandsAt(text, part, i) <==> part <= text[i..] {
      StandsAtMeans(text, part, i);
    }
  }

  lemma AuthErrorsAreTold(message: string)
    ensures IsProviderAuthError(message) <==> TellsOfAuthentication(message)
  {
    ContainsStands(Lower(message), "401");
    ContainsStands(Lower(message), "authentication_error");
    ContainsStands(Lower(message), "incorrect api key");
    ContainsStands(Lower(message), "invalid x-api-key");
  }

  /**
   * A run throws the provider's error when a call of the translator gave up, unless it may skip the
   * locale and the error is about authentication; it throws when a value lost a placeholder; otherwise it
   * finishes. A skipped locale is reported with the fallbacks it had.
   */
  lemma HowRunsEnd(cfg: Config, options: Options, english: Forest, sourceHash: string, disk: Disk,
                   agent: Translator.Agent, now: string, stamp: string -> string)
    requires Sane(cfg) && GoodKeys(english)
    ensures var (outcome, _, session) := Sync(cfg, options, english, sourceHash, disk, agent, now, stamp);
            var kept := KeepsPlaceholders(Flatten(english, ""), ValuesOf(cfg, options, english, disk, agent, stamp));
            match outcome
            case Finished(_, _, _) => kept && forall message :: !GaveUp(session, agent, message)
            case AuthSkipped(count) =>
              && cfg.authOptional
              && (exists message :: GaveUp(session, agent, message) && TellsOfAuthentication(message))
              && count == (if disk.meta.Absent? then 0 else |disk.meta.value.fallbackKeys|)
            case Thrown(message) =>
              || (GaveUp(session, agent, message) && !(cfg.authOptional && TellsOfAuthentication(message)))
              || (!kept && forall message :: !GaveUp(session, agent, message))
  {
    ThrowingRunsEnd(cfg, options, english, sourceHash, disk, agent, now, stamp);
    forall message ensures IsProviderAuthError(message) <==> TellsOfAuthentication(message) {
      AuthErrorsAreTold(message);
    }
    if Passes(cfg, options, Flatten(english, ""), disk, agent, stamp).Ok? {
      CompleteRunsEnd(cfg, options, english, sourceHash, disk, agent, now, stamp);
    }
  }

  /** After a completed write every string of the locale file mentions the placeholders of its English text. */
  lemma WrittenPlaceholdersAreKept(cfg: Config, options: Options, english: Forest, sourceHash: string, disk: Disk,
                                   agent: Translator.Agent, now: string, stamp: string -> string)
    requires Sane(cfg) && GoodKeys(english)
    requires options.write && !options.checkOnly
    requires Sync(cfg, options, english, sourceHash, disk, agent, now, stamp).0.Finished?
    ensures var after := Sync(cfg, options, english, sourceHash, disk, agent, now, stamp).1;
            after.locale.Present? && KeepsPlaceholders(Flatten(english, ""), ToMap(Flatten(after.locale.value, "")))
  {
    FirstRun(cfg, options, english, sourceHash, disk, agent, now, stamp);
    var source := Flatten(english, "");
    var f := Passes(cfg, options, source, disk, agent, stamp).value;
    WrittenLocale(english, f.next);
    NoMismatchMeansParity(source, f.next, cfg.le);
  }

  // ---------------------------------------------------------------- the memory that is written

  /** A new entry for a string: its English text, the translation, who made it and when. */
  ghost predicate IsFresh(cfg: Config, stamp: string -> string, pair: Pair, value: string, entry: Entry) {
    && entry.cacheKey == cfg.cacheKey(pair.key, cfg.hashText(pair.text))
    && entry.segmentId == pair.key && entry.sourcePath == cfg.sourcePath
    && entry.srcLang == "en" && entry.text == pair.text && entry.textHash == cfg.hashText(pair.text)
    && entry.tgtLang == cfg.locale && entry.translated == value
    && entry.model == cfg.model && entry.provider == cfg.provider && entry.updatedAt == stamp(pair.key)
  }

  /** The same entry, filed under another string. */
  ghost predicate IsCopyOf(cfg: Config, original: Entry, pair: Pair, entry: Entry) {
    && entry.cacheKey == cfg.cacheKey(pair.key, cfg.hashText(pair.text))
    && entry.segmentId == pair.key && entry.sourcePath == cfg.sourcePath
    && entry.(cacheKey := original.cacheKey, segmentId := original.segmentId, sourcePath := original.sourcePath) == original
  }

  /**
   * The entry of a string afterwards: the loaded one; a copy, when the string is marked anew or not in the
   * file and there is one for the same text; a new one, when the provider was asked; or none.
   */
  ghost predicate EntryIsFounded(cfg: Config, view: View, memory: seq<Entry>, answers: map<string, string>, stamp: string -> string,
                                 pair: Pair, entry: Option<Entry>) {
    var textHash := cfg.hashText(pair.text);
    var refresh := pair.key in view.previousFallbacks;
    var stale := cfg.allowTranslate && refresh;
    var cached := Lookup(memory, Key(cfg, pair));
    var kept := pair.key in view.existing;
    var copied := textHash in view.byText && (refresh || !kept);
    && (cached.Some? && !stale ==> entry == cached)
    && ((cached.None? || stale) && copied ==> entry.Some? && IsCopyOf(cfg, view.byText[textHash], pair, entry.value))
    && ((cached.None? || stale) && !copied && (!kept || stale) && cfg.allowTranslate ==>
          pair.key in answers && entry.Some? && IsFresh(cfg, stamp, pair, answers[pair.key], entry.value))
    && (cached.None? && !copied && (if cfg.allowTranslate then kept && !stale else true) ==> entry.None?)
  }

  lemma EntryFoundedWithProvider(cfg: Config, stamp: string -> string, view: View, memory: seq<Entry>, source: seq<Pair>, p: Progress,
                                 answers: map<string, string>, q: Progress, pair: Pair)
    requires Sane(cfg) && DistinctPairs(source)
    requires cfg.allowTranslate && pair in source
    requires Reused(cfg, view, memory, source, p) && Adopted(cfg, stamp, p, q, p.pending)
    requires q.next == p.next + answers
    ensures EntryIsFounded(cfg, view, memory, answers, stamp, pair, Lookup(q.memory, Key(cfg, pair)))
  {
    assert DoneAsDecided(cfg, view, memory, p, pair);
    if DecideFor(cfg, view, memory, pair).Ask? {
      assert Recorded(cfg, stamp, q, ItemOf(cfg, pair.key, pair.text));
    } else {
      NotAsked(cfg, view, memory, source, p, pair);
    }
  }

  lemma EntryFoundedWithoutProvider(cfg: Config, stamp: string -> string, view: View, memory: seq<Entry>, source: seq<Pair>, p: Progress,
                                    answers: map<string, string>, pair: Pair)
    requires !cfg.allowTranslate && pair in source
    requires Reused(cfg, view, memory, source, p)
    ensures EntryIsFounded(cfg, view, memory, answers, stamp, pair, Lookup(p.memory, Key(cfg, pair)))
  {
    assert DoneAsDecided(cfg, view, memory, p, pair);
  }

  /** No string of the source has this cache key. */
  ghost predicate IsForeign(cfg: Config, source: seq<Pair>, cacheKey: string) {
    forall pair | pair in source :: Key(cfg, pair) != cacheKey
  }

  lemma ForeignIsNotPending(cfg: Config, view: View, memory: seq<Entry>, source: seq<Pair>, p: Progress, cacheKey: string)
    requires Reused(cfg, view, memory, source, p) && IsForeign(cfg, source, cacheKey)
    ensures forall item | item in p.pending :: item.cacheKey != cacheKey
  {
    forall item | item in p.pending ensures item.cacheKey != cacheKey {
      assert Asked(cfg, view, memory, source, item);
    }
  }

  /** The memory after the passes: founded entries for the strings, and the others untouched. */
  ghost predicate MemoryIsFounded(cfg: Config, view: View, loaded: seq<Entry>, source: seq<Pair>, answers: map<string, string>,
                                  stamp: string -> string, memory: seq<Entry>) {
    && (forall pair | pair in source :: EntryIsFounded(cfg, view, loaded, answers, stamp, pair, Lookup(memory, Key(cfg, pair))))
    && (forall cacheKey | IsForeign(cfg, source, cacheKey) :: Lookup(memory, cacheKey) == Lookup(loaded, cacheKey))
  }

  lemma ProvidedMemoryIsFounded(cfg: Config, view: View, memory: seq<Entry>, source: seq<Pair>, p: Progress, agent: Translator.Agent,
                                stamp: string -> string)
    requires Sane(cfg) && DistinctPairs(source) && cfg.allowTranslate
    requires Reused(cfg, view, memory, source, p) && Provide(cfg, p, agent, stamp).0.Ok?
    ensures var (result, session) := Provide(cfg, p, agent, stamp);
            MemoryIsFounded(cfg, view, memory, source, Translator.Harvest(session.log, agent), stamp, result.value.memory)
  {
    var (result, session) := Provide(cfg, p, agent, stamp);
    PendingIsWellKeyed(cfg, view, memory, source, p);
    ProviderAdopts(cfg, p, agent, stamp);
    ProviderHarvests(cfg, p, agent, stamp);
    forall pair | pair in source
      ensures EntryIsFounded(cfg, view, memory, Translator.Harvest(session.log, agent), stamp, pair, Lookup(result.value.memory, Key(cfg, pair)))
    {
      EntryFoundedWithProvider(cfg, stamp, view, memory, source, p, Translator.Harvest(session.log, agent), result.value, pair);
    }
    forall cacheKey | IsForeign(cfg, source, cacheKey) ensures Lookup(result.value.memory, cacheKey) == Lookup(memory, cacheKey) {
      ForeignIsNotPending(cfg, view, memory, source, p, cacheKey);
    }
  }

  lemma KeptMemoryIsFounded(cfg: Config, view: View, memory: seq<Entry>, source: seq<Pair>, p: Progress, answers: map<string, string>,
                            stamp: string -> string)
    requires !cfg.allowTranslate && Reused(cfg, view, memory, source, p)
    ensures MemoryIsFounded(cfg, view, memory, source, answers, stamp, p.memory)
  {
    forall pair | pair in source
      ensures EntryIsFounded(cfg, view, memory, answers, stamp, pair, Lookup(p.memory, Key(cfg, pair)))
    {
      EntryFoundedWithoutProvider(cfg, stamp, view, memory, source, p, answers, pair);
    }
  }

  lemma PassesFoundMemory(cfg: Config, options: Options, source: seq<Pair>, disk: Disk, agent: Translator.Agent, stamp: string -> string)
    requires Sane(cfg) && DistinctPairs(source)
    requires Passes(cfg, options, source, disk, agent, stamp).Ok?
    ensures var view, memory := ViewOf(cfg, disk), LoadStored(disk.memory);
            var session := Provide(cfg, Reuse(cfg, view, memory, source), agent, stamp).1;
            MemoryIsFounded(cfg, view, memory, source, Translator.Harvest(session.log, agent), stamp,
                            Passes(cfg, options, source, disk, agent, stamp).value.memory)
  {
    var view, memory := ViewOf(cfg, disk), LoadStored(disk.memory);
    var p := Reuse(cfg, view, memory, source);
    MemoryIsValid(disk);
    ReuseDoesAsDecided(cfg, view, memory, source);
    PendingIsWellKeyed(cfg, view, memory, source, p);
    var (result, session) := Provide(cfg, p, agent, stamp);
    if cfg.allowTranslate {
      ProviderAdopts(cfg, p, agent, stamp);
      SettledWithProvider(cfg, stamp, view, memory, source, p, result.value, options.force);
      ProvidedMemoryIsFounded(cfg, view, memory, source, p, agent, stamp);
    } else {
      SettledWithoutProvider(cfg, view, memory, source, p, options.force);
      KeptMemoryIsFounded(cfg, view, memory, source, p, Translator.Harvest(session.log, agent), stamp);
    }
  }

  /** The memory file lists its entries by cache key, each key once; it is absent only if it was and there is nothing to file. */
  ghost predicate IsTidy(cfg: Config, before: Stored<seq<Entry>>, after: Stored<seq<Entry>>) {
    if after.Absent? then before.Absent?
    else
      forall i, j | 0 <= i < j < |after.value| ::
        after.value[i].cacheKey != after.value[j].cacheKey && cfg.le(after.value[i].cacheKey, after.value[j].cacheKey)
  }

  lemma OrderedIsTidy(cfg: Config, memory: seq<Entry>, before: Stored<seq<Entry>>)
    requires Sane(cfg) && Valid(memory)
    ensures IsTidy(cfg, before, Present(Ordered(memory, cfg.le), true))
  {
    var key := (e: Entry) => e.cacheKey;
    OrderedMemory(memory, cfg.le);
    SortSorts(memory, key, cfg.le);
    var ordered := Ordered(memory, cfg.le);
    forall i, j | 0 <= i < j < |ordered| ensures cfg.le(ordered[i].cacheKey, ordered[j].cacheKey) {
      assert cfg.le(key(ordered[i]), key(ordered[j]));
    }
  }

  /**
   * What a completed write leaves in the memory: for every string the entry that it is due, all other
   * entries as they were, and the file in order. What is read back is what was filed.
   */
  lemma EveryWrittenEntryHasItsSource(cfg: Config, options: Options, english: Forest, sourceHash: string, disk: Disk,
                                      agent: Translator.Agent, now: string, stamp: string -> string)
    requires Sane(cfg) && GoodKeys(english)
    requires options.write && !options.checkOnly
    requires Sync(cfg, options, english, sourceHash, disk, agent, now, stamp).0.Finished?
    ensures var (_, after, session) := Sync(cfg, options, english, sourceHash, disk, agent, now, stamp);
            && IsTidy(cfg, disk.memory, after.memory)
            && MemoryIsFounded(cfg, ViewOf(cfg, disk), LoadStored(disk.memory), Flatten(english, ""),
                               Translator.Harvest(session.log, agent), stamp, LoadStored(after.memory))
  {
    FirstRun(cfg, options, english, sourceHash, disk, agent, now, stamp);
    SessionOfSync(cfg, options, english, sourceHash, disk, agent, now, stamp);
    var source := Flatten(english, "");
    PassesFoundMemory(cfg, options, source, disk, agent, stamp);
    var f := Passes(cfg, options, source, disk, agent, stamp).value;
    NextRunReads(cfg, english, sourceHash, disk, f, now);
    OrderedMemory(f.memory, cfg.le);
    OrderedIsTidy(cfg, f.memory, disk.memory);
    forall cacheKey ensures Lookup(Ordered(f.memory, cfg.le), cacheKey) == Lookup(f.memory, cacheKey) {
      SameEntriesSameLookup(Ordered(f.memory, cfg.le), f.memory, cacheKey);
    }
  }

  // ---------------------------------------------------------------- the metadata that is written

  ghost function Keys(source: seq<Pair>): set<string> {
    set pair | pair in source :: pair.key
  }

  ghost function Members(keys: seq<string>): set<string> {
    set key | key in keys
  }

  lemma {:induction false} DistinctMembersCount(keys: seq<string>)
    requires forall i, j | 0 <= i < j < |keys| :: keys[i] != keys[j]
    ensures |Members(keys)| == |keys|
  {
    if keys == [] {
    } else {
      var before, last := keys[..|keys| - 1], keys[|keys| - 1];
      DistinctMembersCount(before);
      assert keys == before + [last];
      assert Members(keys) == Members(before) + {last};
    }
  }

  lemma DistinctPairsCount(source: seq<Pair>)
    requires DistinctPairs(source)
    ensures |Keys(source)| == |source|
  {
    var keys := seq(|source|, i requires 0 <= i < |source| => source[i].key);
    DistinctMembersCount(keys);
    forall key ensures key in Keys(source) <==> key in Members(keys) {
      if key in Keys(source) {
        var pair :| pair in source && pair.key == key;
        var i := IndexOf(source, pair);
        assert keys[i] == key;
      }
      if key in keys {
        var i :| 0 <= i < |keys| && keys[i] == key;
        assert source[i] in source;
      }
    }
    assert Keys(source) == Members(keys);
  }

  lemma SortedSetIsSorted(keys: seq<string>, le: Order)
    requires IsTotal(le)
    ensures var sorted := SortedSet(keys, le);
            && Members(sorted) == Members(keys) && |Members(sorted)| == |sorted|
            && forall i, j | 0 <= i < j < |sorted| :: sorted[i] != sorted[j] && le(sorted[i], sorted[j])
  {
    var id := (x: string) => x;
    var sorted := SortedSet(keys, le);
    SortedSetIsCanonical(keys, keys, le);
    DedupeMembers(keys);
    assert DistinctKeys(Dedupe(keys), id);
    SortKeepsDistinctKeys(Dedupe(keys), id, le);
    SortSorts(Dedupe(keys), id, le);
    forall i, j | 0 <= i < j < |sorted| ensures sorted[i] != sorted[j] && le(sorted[i], sorted[j]) {
      assert id(sorted[i]) != id(sorted[j]) && le(id(sorted[i]), id(sorted[j]));
    }
    DistinctMembersCount(sorted);
  }

  /**
   * The metadata counts the strings and those that are no fallbacks, lists the fallbacks in order, names
   * the provider that was there, or the one before, and keeps its time exactly when nothing else in it is new.
   */
  ghost predicate MetaIsAccurate(cfg: Config, sourceHash: string, previous: Stored<Meta>, source: seq<Pair>, now: string, meta: Meta) {
    && meta.locale == cfg.locale && meta.sourceHash == sourceHash && meta.workflow == 1
    && meta.totalKeys == |Keys(source)|
    && meta.translatedKeys == |Keys(source) - Members(meta.fallbackKeys)|
    && (forall i, j | 0 <= i < j < |meta.fallbackKeys| ::
          meta.fallbackKeys[i] != meta.fallbackKeys[j] && cfg.le(meta.fallbackKeys[i], meta.fallbackKeys[j]))
    && (cfg.allowTranslate ==> meta.provider == cfg.provider && meta.model == cfg.model)
    && (!cfg.allowTranslate && previous.Present? ==> meta.provider == previous.value.provider && meta.model == previous.value.model)
    && (!cfg.allowTranslate && previous.Absent? ==> meta.provider == "" && meta.model == "")
    && meta.generatedAt == (if previous.Present? && meta == previous.value.(generatedAt := meta.generatedAt)
                            then previous.value.generatedAt else now)
  }

  lemma FewerTranslated(source: seq<Pair>, fallbacks: set<string>)
    requires DistinctPairs(source) && fallbacks <= Keys(source)
    ensures |source| - |fallbacks| == |Keys(source) - fallbacks|
  {
    DistinctPairsCount(source);
    assert Keys(source) == (Keys(source) - fallbacks) + fallbacks;
  }

  lemma FallbacksAreKeys(cfg: Config, source: seq<Pair>, f: Progress)
    requires Settled(cfg, source, f)
    ensures Members(f.fallbacks) <= Keys(source)
  {
    forall key | key in Members(f.fallbacks) ensures key in Keys(source) {
      assert HasKey(source, key);
    }
  }

  lemma NextMetaIsAccurate(cfg: Config, sourceHash: string, previous: Stored<Meta>, source: seq<Pair>, f: Progress, now: string)
    requires Sane(cfg) && DistinctPairs(source) && Settled(cfg, source, f)
    ensures MetaIsAccurate(cfg, sourceHash, previous, source, now, NextMeta(cfg, sourceHash, previous, source, f.fallbacks, now))
  {
    SortedSetIsSorted(f.fallbacks, cfg.le);
    FallbacksAreKeys(cfg, source, f);
    FewerTranslated(source, Members(f.fallbacks));
    DistinctPairsCount(source);
  }

  /** A glossary that has entries is kept; otherwise it lists ten names that are not to be translated. */
  ghost predicate GlossaryIsKept(before: Stored<seq<(string, string)>>, after: seq<(string, string)>) {
    if before.Present? && before.value != [] then after == before.value
    else |after| == 10 && forall i | 0 <= i < 10 :: after[i].0 == after[i].1
  }

  /** The metadata, the glossary and the number of fallbacks that a run reports; a memory file is started for its first entry. */
  ghost predicate ReportsAccurately(cfg: Config, sourceHash: string, disk: Disk, source: seq<Pair>, now: string, after: Disk, count: nat) {
    && after.meta.Present? && MetaIsAccurate(cfg, sourceHash, disk.meta, source, now, after.meta.value)
    && count == |after.meta.value.fallbackKeys|
    && after.glossary.Present? && GlossaryIsKept(disk.glossary, after.glossary.value)
    && (disk.memory.Absent? ==> after.memory.Absent? || after.memory.value != [])
    && (disk.memory.Present? ==> after.memory.Present?)
  }

  lemma DefaultGlossaryIsKept()
    ensures GlossaryIsKept(Absent, DEFAULT_GLOSSARY)
  {
  }

  lemma NextGlossaryIsKept(before: Stored<seq<(string, string)>>)
    ensures GlossaryIsKept(before, if before.Absent? || before.value == [] then DEFAULT_GLOSSARY else before.value)
  {
    DefaultGlossaryIsKept();
  }

  lemma ExpectedIsAccurate(cfg: Config, sourceHash: string, disk: Disk, source: seq<Pair>, f: Progress, now: string)
    requires Sane(cfg) && DistinctPairs(source) && Settled(cfg, source, f)
    ensures ReportsAccurately(cfg, sourceHash, disk, source, now, Expected(cfg, sourceHash, disk, source, f, now),
                              |SortedSet(f.fallbacks, cfg.le)|)
  {
    NextMetaIsAccurate(cfg, sourceHash, disk.meta, source, f, now);
    NextGlossaryIsKept(disk.glossary);
  }

  /**
   * What a completed write leaves in the metadata is accurate, the reported number of fallbacks is that of
   * the metadata, and a glossary that has entries is kept.
   */
  lemma WrittenMetaIsAccurate(cfg: Config, options: Options, english: Forest, sourceHash: string, disk: Disk,
                              agent: Translator.Agent, now: string, stamp: string -> string)
    requires Sane(cfg) && GoodKeys(english)
    requires options.write && !options.checkOnly
    requires Sync(cfg, options, english, sourceHash, disk, agent, now, stamp).0.Finished?
    ensures var (outcome, after, _) := Sync(cfg, options, english, sourceHash, disk, agent, now, stamp);
            ReportsAccurately(cfg, sourceHash, disk, Flatten(english, ""), now, after, outcome.fallbackCount)
  {
    FirstRun(cfg, options, english, sourceHash, disk, agent, now, stamp);
    var f := Passes(cfg, options, Flatten(english, ""), disk, agent, stamp).value;
    ExpectedIsAccurate(cfg, sourceHash, disk, Flatten(english, ""), f, now);
  }
}
