/**
 * syncLocale of scripts/control-ui-i18n.ts: it reconciles the English strings with the translation
 * memory, the existing locale file and the fallback keys of the previous run, asks the provider for
 * what is left, and writes the locale, its metadata, the glossary and the memory.
 *
 * Hashes, the clock and the provider are parameters. The rendered text of a file is represented by
 * the value that was rendered; a file on disk may also hold that value in some other text.
 */
module LocaleSync {
  import opened Prelude
  import opened BatchPlanner
  import opened LocaleTree
  import opened Sorting
  import Placeholders
  import Translator

  const WORKFLOW := 1
  const DEFAULT_GLOSSARY: seq<(string, string)> := [
    ("OpenClaw", "OpenClaw"), ("Gateway", "Gateway"), ("Control UI", "Control UI"), ("Skills", "Skills"),
    ("Tailscale", "Tailscale"), ("WhatsApp", "WhatsApp"), ("Telegram", "Telegram"), ("Discord", "Discord"),
    ("Signal", "Signal"), ("iMessage", "iMessage")]

  /** A translation memory entry. */
  datatype Entry = Entry(
    cacheKey: string,
    model: string,
    provider: string,
    segmentId: string,
    sourcePath: string,
    srcLang: string,
    text: string,
    textHash: string,
    tgtLang: string,
    translated: string,
    updatedAt: string)

  datatype Meta = Meta(
    fallbackKeys: seq<string>,
    generatedAt: string,
    locale: string,
    model: string,
    provider: string,
    sourceHash: string,
    totalKeys: nat,
    translatedKeys: int,
    workflow: int)

  /** A file: `exact` says that its text is what the script renders for the value. */
  datatype Stored<T> = Absent | Present(value: T, exact: bool)

  datatype Disk = Disk(
    locale: Stored<Forest>,
    meta: Stored<Meta>,
    glossary: Stored<seq<(string, string)>>,
    memory: Stored<seq<Entry>>)

  datatype Options = Options(checkOnly: bool, force: bool, write: bool)

  /** The locale entry, the environment and the hash functions. `cacheKey` has the namespace and locale built in. */
  datatype Config = Config(
    locale: string,
    sourcePath: string,
    allowTranslate: bool,
    authOptional: bool,
    provider: string,
    model: string,
    budget: real,
    hashText: string -> string,
    cacheKey: (string, string) -> string,
    le: Order)

  datatype Outcome =
    | Thrown(message: string)
    | AuthSkipped(fallbackCount: nat)
    | Finished(changed: bool, fallbackCount: nat, wrote: bool)

  // ---------------------------------------------------------------- the translation memory

  function Lookup(memory: seq<Entry>, cacheKey: string): Option<Entry> {
    if memory == [] then None
    else if memory[0].cacheKey == cacheKey then Some(memory[0])
    else Lookup(memory[1..], cacheKey)
  }

  /** `memory.set(entry.cache_key, entry)` on an insertion-ordered Map. */
  function Put(memory: seq<Entry>, entry: Entry): seq<Entry> {
    if memory == [] then [entry]
    else if memory[0].cacheKey == entry.cacheKey then [entry] + memory[1..]
    else [memory[0]] + Put(memory[1..], entry)
  }

  /** loadTranslationMemory, over the parsed lines. */
  function Load(lines: seq<Entry>): seq<Entry> {
    if lines == [] then []
    else
      var before, last := Load(lines[..|lines| - 1]), lines[|lines| - 1];
      if last.cacheKey != "" && !Blank(last.translated) then Put(before, last) else before
  }

  function LoadStored(file: Stored<seq<Entry>>): seq<Entry> {
    if file.Absent? then [] else Load(file.value)
  }

  /** renderTranslationMemory */
  function Ordered(memory: seq<Entry>, le: Order): seq<Entry> {
    Sort(memory, (e: Entry) => e.cacheKey, le)
  }

  predicate Usable(entry: Entry, locale: string) {
    entry.tgtLang == locale && entry.textHash != "" && !Blank(entry.translated)
  }

  /** buildTranslationMemoryByTextHash: the last usable entry of a text hash wins. */
  function ByTextHash(memory: seq<Entry>, locale: string): map<string, Entry> {
    if memory == [] then map[]
    else
      var before, last := ByTextHash(memory[..|memory| - 1], locale), memory[|memory| - 1];
      if Usable(last, locale) then before[last.textHash := last] else before
  }

  method BuildTranslationMemoryByTextHash(memory: seq<Entry>, locale: string) returns (byTextHash: map<string, Entry>)
    ensures byTextHash == ByTextHash(memory, locale)
  {
    byTextHash := map[];
    for i := 0 to |memory|
      invariant byTextHash == ByTextHash(memory[..i], locale)
    {
      var entry := memory[i];
      assert memory[..i + 1][..i] == memory[..i];
      if entry.tgtLang != locale || entry.textHash == "" || Blank(entry.translated) {
        continue;
      }
      byTextHash := byTextHash[entry.textHash := entry];
    }
    assert memory[..|memory|] == memory;
  }

  // ---------------------------------------------------------------- first pass: reuse

  /** What a run reads before it decides about the strings. */
  datatype View = View(existing: map<string, string>, previousFallbacks: set<string>, byText: map<string, Entry>)

  datatype Progress = Progress(
    next: map<string, string>,
    memory: seq<Entry>,
    pending: seq<Item>,
    fallbacks: seq<string>)

  datatype Decision =
    | FromCache(text: string, fallback: bool)
    | FromText(entry: Entry)
    | Keep(text: string, fallback: bool)
    | Ask

  function Decide(cfg: Config, view: View, memory: seq<Entry>, key: string, text: string): Decision {
    var textHash := cfg.hashText(text);
    var cached := Lookup(memory, cfg.cacheKey(key, textHash));
    var shouldRefreshFallback := key in view.previousFallbacks;
    if cached.Some? && !(cfg.allowTranslate && shouldRefreshFallback) then
      FromCache(cached.value.translated, shouldRefreshFallback)
    else if textHash in view.byText && (shouldRefreshFallback || key !in view.existing) then
      FromText(view.byText[textHash])
    else if key in view.existing && !(cfg.allowTranslate && shouldRefreshFallback) then
      Keep(view.existing[key], shouldRefreshFallback)
    else
      Ask
  }

  function ItemOf(cfg: Config, key: string, text: string): Item {
    Item(cfg.cacheKey(key, cfg.hashText(text)), key, text, cfg.hashText(text))
  }

  /** The copy of an entry that is filed under another segment with the same text. */
  function CopyFor(cfg: Config, entry: Entry, key: string, text: string): Entry {
    entry.(cacheKey := cfg.cacheKey(key, cfg.hashText(text)), segmentId := key, sourcePath := cfg.sourcePath)
  }

  function Apply(cfg: Config, p: Progress, key: string, text: string, decision: Decision): Progress {
    match decision
    case FromCache(value, fallback) =>
      p.(next := p.next[key := value], fallbacks := if fallback then p.fallbacks + [key] else p.fallbacks)
    case FromText(entry) =>
      p.(next := p.next[key := entry.translated], memory := Put(p.memory, CopyFor(cfg, entry, key, text)))
    case Keep(value, fallback) =>
      p.(next := p.next[key := value], fallbacks := if fallback then p.fallbacks + [key] else p.fallbacks)
    case Ask =>
      p.(pending := p.pending + [ItemOf(cfg, key, text)])
  }

  function Reuse(cfg: Config, view: View, memory: seq<Entry>, source: seq<Pair>): Progress {
    if source == [] then Progress(map[], memory, [], [])
    else
      var p, last := Reuse(cfg, view, memory, source[..|source| - 1]), source[|source| - 1];
      Apply(cfg, p, last.key, last.text, Decide(cfg, view, p.memory, last.key, last.text))
  }

  method ReuseStrings(cfg: Config, view: View, memory: seq<Entry>, source: seq<Pair>) returns (p: Progress)
    ensures p == Reuse(cfg, view, memory, source)
  {
    var next: map<string, string>, tm, pending: seq<Item>, fallbackKeys: seq<string> := map[], memory, [], [];
    for i := 0 to |source|
      invariant Progress(next, tm, pending, fallbackKeys) == Reuse(cfg, view, memory, source[..i])
    {
      var key, text := source[i].key, source[i].text;
      assert source[..i + 1][..i] == source[..i];
      var textHash := cfg.hashText(text);
      var segmentCacheKey := cfg.cacheKey(key, textHash);
      var cached := Lookup(tm, segmentCacheKey);
      var shouldRefreshFallback := key in view.previousFallbacks;
      if cached.Some? && !(cfg.allowTranslate && shouldRefreshFallback) {
        next := next[key := cached.value.translated];
        if shouldRefreshFallback {
          fallbackKeys := fallbackKeys + [key];
        }
        continue;
      }
      if textHash in view.byText && (shouldRefreshFallback || key !in view.existing) {
        var cachedByText := view.byText[textHash];
        next := next[key := cachedByText.translated];
        tm := Put(tm, cachedByText.(cacheKey := segmentCacheKey, segmentId := key, sourcePath := cfg.sourcePath));
        continue;
      }
      if key in view.existing && !(cfg.allowTranslate && shouldRefreshFallback) {
        next := next[key := view.existing[key]];
        if shouldRefreshFallback {
          fallbackKeys := fallbackKeys + [key];
        }
        continue;
      }
      pending := pending + [Item(segmentCacheKey, key, text, textHash)];
    }
    assert source[..|source|] == source;
    p := Progress(next, tm, pending, fallbackKeys);
  }

  // ---------------------------------------------------------------- second pass: the provider

  function EntryOf(cfg: Config, item: Item, value: string, stamp: string -> string): Entry {
    Entry(item.cacheKey, cfg.model, cfg.provider, item.key, cfg.sourcePath, "en", item.text, item.textHash,
          cfg.locale, value, stamp(item.key))
  }

  /** The loop over a translated batch. A missing or empty value is skipped. */
  function Adopt(cfg: Config, p: Progress, batch: seq<Item>, translated: map<string, string>, stamp: string -> string): Progress {
    if batch == [] then p
    else
      var before, item := Adopt(cfg, p, batch[..|batch| - 1], translated, stamp), batch[|batch| - 1];
      if item.key !in translated || translated[item.key] == "" then before
      else
        before.(next := before.next[item.key := translated[item.key]],
                memory := Put(before.memory, EntryOf(cfg, item, translated[item.key], stamp)))
  }

  method AdoptBatch(cfg: Config, p: Progress, batch: seq<Item>, translated: map<string, string>, stamp: string -> string)
    returns (after: Progress)
    ensures after == Adopt(cfg, p, batch, translated, stamp)
  {
    var next, tm := p.next, p.memory;
    for i := 0 to |batch|
      invariant p.(next := next, memory := tm) == Adopt(cfg, p, batch[..i], translated, stamp)
    {
      var item := batch[i];
      assert batch[..i + 1][..i] == batch[..i];
      if item.key !in translated || translated[item.key] == "" {
        continue;
      }
      var value := translated[item.key];
      next := next[item.key := value];
      tm := Put(tm, Entry(item.cacheKey, cfg.model, cfg.provider, item.key, cfg.sourcePath, "en", item.text,
                          item.textHash, cfg.locale, value, stamp(item.key)));
    }
    assert batch[..|batch|] == batch;
    after := p.(next := next, memory := tm);
  }

  /** The loop over the batches: the first batch that throws ends it. */
  function TranslateAll(cfg: Config, p: Progress, batches: seq<seq<Item>>, agent: Translator.Agent,
                        session: Translator.Session, stamp: string -> string)
    : (Result<Progress, string>, Translator.Session)
    decreases |batches|
  {
    if batches == [] then (Ok(p), session)
    else
      var (result, after) := Translator.Run(batches[0], "", 0, agent, session);
      match result
      case Err(error) => (Err(error), after)
      case Ok(translated) => TranslateAll(cfg, Adopt(cfg, p, batches[0], translated, stamp), batches[1..], agent, after, stamp)
  }

  method TranslateBatches(cfg: Config, p: Progress, batches: seq<seq<Item>>, run: Translator.TranslationRun, stamp: string -> string)
    returns (result: Result<Progress, string>)
    modifies run
    ensures (result, run.State()) == TranslateAll(cfg, p, batches, run.agent, old(run.State()), stamp)
  {
    var current := p;
    for i := 0 to |batches|
      invariant TranslateAll(cfg, current, batches[i..], run.agent, run.State(), stamp)
             == TranslateAll(cfg, p, batches, run.agent, old(run.State()), stamp)
    {
      assert batches[i..][0] == batches[i] && batches[i..][1..] == batches[i + 1..];
      var translated := run.TranslateBatch(batches[i], "", 0);
      if translated.Err? {
        return Err(translated.error);
      }
      current := AdoptBatch(cfg, current, batches[i], translated.value, stamp);
    }
    result := Ok(current);
  }

  /** isProviderAuthError */
  predicate IsProviderAuthError(message: string) {
    var lowered := Lower(message);
    || Contains(lowered, "401")
    || Contains(lowered, "authentication_error")
    || Contains(lowered, "incorrect api key")
    || Contains(lowered, "invalid x-api-key")
  }

  // ---------------------------------------------------------------- third pass: fallbacks

  function FillIn(view: View, force: bool, p: Progress, pending: seq<Item>): Progress {
    if pending == [] then p
    else
      var before, item := FillIn(view, force, p, pending[..|pending| - 1]), pending[|pending| - 1];
      if item.key in before.next then before
      else if item.key in view.existing && !force then
        before.(next := before.next[item.key := view.existing[item.key]],
                fallbacks := if item.key in view.previousFallbacks then before.fallbacks + [item.key] else before.fallbacks)
      else
        before.(next := before.next[item.key := item.text], fallbacks := before.fallbacks + [item.key])
  }

  method FillInPending(view: View, force: bool, p: Progress) returns (after: Progress)
    ensures after == FillIn(view, force, p, p.pending)
  {
    var next, fallbackKeys := p.next, p.fallbacks;
    for i := 0 to |p.pending|
      invariant p.(next := next, fallbacks := fallbackKeys) == FillIn(view, force, p, p.pending[..i])
    {
      var item := p.pending[i];
      assert p.pending[..i + 1][..i] == p.pending[..i];
      if item.key in next {
        continue;
      }
      if item.key in view.existing && !force {
        next := next[item.key := view.existing[item.key]];
        if item.key in view.previousFallbacks {
          fallbackKeys := fallbackKeys + [item.key];
        }
        continue;
      }
      next := next[item.key := item.text];
      fallbackKeys := fallbackKeys + [item.key];
    }
    assert p.pending[..|p.pending|] == p.pending;
    after := p.(next := next, fallbacks := fallbackKeys);
  }

  // ---------------------------------------------------------------- what is written

  function ToMap(pairs: seq<Pair>): map<string, string> {
    if pairs == [] then map[]
    else ToMap(pairs[..|pairs| - 1])[pairs[|pairs| - 1].key := pairs[|pairs| - 1].text]
  }

  function Texts(source: seq<Pair>): seq<(string, string)> {
    seq(|source|, i requires 0 <= i < |source| => (source[i].key, source[i].text))
  }

  /** `nextFlat.get(key) ?? value` for every source key, in source order. */
  function Final(source: seq<Pair>, next: map<string, string>): seq<Pair> {
    seq(|source|, i requires 0 <= i < |source| =>
          Pair(source[i].key, if source[i].key in next then next[source[i].key] else source[i].text))
  }

  function ViewOf(cfg: Config, disk: Disk): View {
    View(
      ToMap(if disk.locale.Absent? then [] else Flatten(disk.locale.value, "")),
      if disk.meta.Absent? then {} else (set key | key in disk.meta.value.fallbackKeys),
      ByTextHash(LoadStored(disk.memory), cfg.locale))
  }

  function NextMeta(cfg: Config, sourceHash: string, previous: Stored<Meta>, source: seq<Pair>, fallbacks: seq<string>, now: string): Meta {
    var sorted := SortedSet(fallbacks, cfg.le);
    var nextProvider := if cfg.allowTranslate then cfg.provider else if previous.Absent? then "" else previous.value.provider;
    var nextModel := if cfg.allowTranslate then cfg.model else if previous.Absent? then "" else previous.value.model;
    var translatedKeys := |source| - |sorted|;
    var semanticMetaChanged :=
      || previous.Absent?
      || previous.value.locale != cfg.locale
      || previous.value.sourceHash != sourceHash
      || previous.value.provider != nextProvider
      || previous.value.model != nextModel
      || previous.value.totalKeys != |source|
      || previous.value.translatedKeys != translatedKeys
      || previous.value.workflow != WORKFLOW
      || previous.value.fallbackKeys != sorted;
    Meta(sorted, if semanticMetaChanged then now else previous.value.generatedAt, cfg.locale, nextModel, nextProvider,
         sourceHash, |source|, translatedKeys, WORKFLOW)
  }

  /** The files as a completed write leaves them. */
  function Expected(cfg: Config, sourceHash: string, disk: Disk, source: seq<Pair>, p: Progress, now: string): Disk {
    var memory := Ordered(p.memory, cfg.le);
    Disk(
      Present(Rebuild(Empty, Final(source, p.next)), true),
      Present(NextMeta(cfg, sourceHash, disk.meta, source, p.fallbacks, now), true),
      Present(if disk.glossary.Absent? || disk.glossary.value == [] then DEFAULT_GLOSSARY else disk.glossary.value, true),
      if memory == [] && disk.memory.Absent? then Absent else Present(memory, true))
  }

  const IDLE := Translator.Session(0, 0, 0, 0, false, [], [])

  /** The provider is asked only when there is one and something is pending; its client is always closed. */
  function Provide(cfg: Config, reused: Progress, agent: Translator.Agent, stamp: string -> string)
    : (Result<Progress, string>, Translator.Session)
  {
    if cfg.allowTranslate && reused.pending != [] then
      var (result, session) := TranslateAll(cfg, reused, Plan(reused.pending, cfg.budget), agent, IDLE, stamp);
      (result, session.(live := false))
    else (Ok(reused), IDLE)
  }

  method ProvideTranslations(cfg: Config, reused: Progress, agent: Translator.Agent, stamp: string -> string)
    returns (result: Result<Progress, string>, ghost session: Translator.Session)
    ensures result == Provide(cfg, reused, agent, stamp).0
    ensures session == Provide(cfg, reused, agent, stamp).1
  {
    result := Ok(reused);
    session := IDLE;
    if cfg.allowTranslate && reused.pending != [] {
      var run := new Translator.TranslationRun(agent);
      var batches := BuildTranslationBatches(reused.pending, cfg.budget);
      result := TranslateBatches(cfg, reused, batches, run, stamp);
      run.live := false;
      session := run.State();
    }
  }

  /** The comparison with the files, the early return, and the write. */
  function WriteBack(options: Options, sourceHash: string, disk: Disk, expected: Disk): (Outcome, Disk)
    requires expected.meta.Present?
  {
    var changed := disk != expected;
    var fallbackCount := |expected.meta.value.fallbackKeys|;
    var sameSource := !disk.meta.Absent? && disk.meta.value.sourceHash == sourceHash;
    if !changed || (sameSource && !options.force && !options.checkOnly && !options.write) then
      (Finished(changed, fallbackCount, false), disk)
    else
      var wrote := !options.checkOnly && options.write && changed;
      (Finished(changed, fallbackCount, wrote), if wrote then expected else disk)
  }

  /** The placeholder check, then the files. */
  function Finish(cfg: Config, options: Options, source: seq<Pair>, sourceHash: string, disk: Disk, filled: Progress, now: string)
    : (Outcome, Disk)
  {
    if Placeholders.MismatchesOf(Texts(source), filled.next, cfg.le) != [] then
      (Thrown("control-ui-i18n placeholder mismatch detected"), disk)
    else
      WriteBack(options, sourceHash, disk, Expected(cfg, sourceHash, disk, source, filled, now))
  }

  /** From the translated strings to the end of the run. */
  function Conclude(cfg: Config, options: Options, source: seq<Pair>, sourceHash: string, disk: Disk, translated: Progress, now: string)
    : (Outcome, Disk)
  {
    Finish(cfg, options, source, sourceHash, disk,
           FillIn(ViewOf(cfg, disk), options.force, translated, translated.pending), now)
  }

  method ConcludeRun(cfg: Config, options: Options, source: seq<Pair>, sourceHash: string, disk: Disk, translated: Progress, now: string)
    returns (outcome: Outcome, after: Disk)
    ensures (outcome, after) == Conclude(cfg, options, source, sourceHash, disk, translated, now)
  {
    var filled := FillInPending(ViewOf(cfg, disk), options.force, translated);
    var mismatches := Placeholders.FindPlaceholderMismatches(Texts(source), filled.next, cfg.le);
    if mismatches != [] {
      return Thrown("control-ui-i18n placeholder mismatch detected"), disk;
    }
    var nextMap := RebuildMap(Final(source, filled.next));
    var expected := Expected(cfg, sourceHash, disk, source, filled, now);
    var changed := disk != expected;
    var fallbackCount := |expected.meta.value.fallbackKeys|;
    if !changed || (!disk.meta.Absent? && disk.meta.value.sourceHash == sourceHash
                    && !options.force && !options.checkOnly && !options.write) {
      return Finished(changed, fallbackCount, false), disk;
    }
    after := disk;
    if !options.checkOnly && options.write {
      after := expected.(locale := Present(nextMap, true));
    }
    outcome := Finished(changed, fallbackCount, !options.checkOnly && options.write && changed);
  }

  /** One run of syncLocale: how it ends, the files afterwards, and the prompts it sent. */
  function Sync(cfg: Config, options: Options, english: Forest, sourceHash: string, disk: Disk,
                agent: Translator.Agent, now: string, stamp: string -> string)
    : (Outcome, Disk, Translator.Session)
  {
    var source := Flatten(english, "");
    var reused := Reuse(cfg, ViewOf(cfg, disk), LoadStored(disk.memory), source);
    var (translated, session) := Provide(cfg, reused, agent, stamp);
    match translated
    case Err(error) =>
      if cfg.authOptional && IsProviderAuthError(error) then
        (AuthSkipped(if disk.meta.Absent? then 0 else |disk.meta.value.fallbackKeys|), disk, session)
      else (Thrown(error), disk, session)
    case Ok(p) =>
      var (outcome, after) := Conclude(cfg, options, source, sourceHash, disk, p, now);
      (outcome, after, session)
  }

  method SyncLocale(cfg: Config, options: Options, english: Forest, sourceHash: string, disk: Disk,
                    agent: Translator.Agent, now: string, stamp: string -> string)
    returns (outcome: Outcome, after: Disk, ghost session: Translator.Session)
    ensures (outcome, after, session) == Sync(cfg, options, english, sourceHash, disk, agent, now, stamp)
    ensures !(outcome.Finished? && outcome.wrote) ==> after == disk
  {
    var source := Flatten(english, "");
    var memory := LoadStored(disk.memory);
    var view := ViewOf(cfg, disk);
    var byText := BuildTranslationMemoryByTextHash(memory, cfg.locale);
    var reused := ReuseStrings(cfg, view.(byText := byText), memory, source);
    var translated;
    translated, session := ProvideTranslations(cfg, reused, agent, stamp);
    if translated.Err? {
      if cfg.authOptional && IsProviderAuthError(translated.error) {
        return AuthSkipped(if disk.meta.Absent? then 0 else |disk.meta.value.fallbackKeys|), disk, session;
      }
      return Thrown(translated.error), disk, session;
    }
    outcome, after := ConcludeRun(cfg, options, source, sourceHash, disk, translated.value, now);
  }
}
