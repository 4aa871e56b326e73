/**
 * A completed write is a fixed point of syncLocale: the next run of the same configuration asks the
 * provider for nothing, computes the same files, and reports no change.
 */
module SyncConvergence {
  import opened Prelude
  import opened BatchPlanner
  import opened LocaleTree
  import opened Sorting
  import opened LocaleSync
  import Placeholders
  import Translator

  /** The hashes are injective and never empty, and the comparison is a total order. */
  ghost predicate Sane(cfg: Config) {
    && IsTotal(cfg.le)
    && (forall key, textHash :: cfg.cacheKey(key, textHash) != "")
    && (forall k1, h1, k2, h2 :: cfg.cacheKey(k1, h1) == cfg.cacheKey(k2, h2) ==> k1 == k2 && h1 == h2)
    && (forall text :: cfg.hashText(text) != "")
  }

  // ---------------------------------------------------------------- facts about memories

  ghost predicate GoodEntry(entry: Entry) {
    entry.cacheKey != "" && !Blank(entry.translated)
  }

  /** A memory as loading leaves it: one usable entry per cache key. */
  ghost predicate Valid(memory: seq<Entry>) {
    && (forall i | 0 <= i < |memory| :: GoodEntry(memory[i]))
    && (forall i, j | 0 <= i < j < |memory| :: memory[i].cacheKey != memory[j].cacheKey)
  }

  /** An entry that can be copied to another string of the same text: of this locale, with a translation. */
  ghost predicate Serves(entry: Entry, locale: string, textHash: string) {
    entry.tgtLang == locale && entry.textHash == textHash != "" && !Blank(entry.translated)
  }

  ghost predicate HasText(memory: seq<Entry>, locale: string, textHash: string) {
    exists entry :: entry in memory && Serves(entry, locale, textHash)
  }

  lemma {:induction false} PutLookup(memory: seq<Entry>, entry: Entry, cacheKey: string)
    ensures Lookup(Put(memory, entry), cacheKey) == if cacheKey == entry.cacheKey then Some(entry) else Lookup(memory, cacheKey)
  {
    if memory != [] && memory[0].cacheKey != entry.cacheKey {
      PutLookup(memory[1..], entry, cacheKey);
    }
  }

  lemma {:induction false} PutMembers(memory: seq<Entry>, entry: Entry)
    ensures forall e | e in Put(memory, entry) :: e == entry || e in memory
  {
    if memory != [] && memory[0].cacheKey != entry.cacheKey {
      PutMembers(memory[1..], entry);
    }
  }

  lemma {:induction false} PutKeepsValid(memory: seq<Entry>, entry: Entry)
    requires Valid(memory) && GoodEntry(entry)
    ensures Valid(Put(memory, entry))
  {
    if memory != [] && memory[0].cacheKey != entry.cacheKey {
      PutKeepsValid(memory[1..], entry);
      PutMembers(memory[1..], entry);
      var tail := Put(memory[1..], entry);
      forall j | 0 <= j < |tail| ensures tail[j].cacheKey != memory[0].cacheKey {
        assert tail[j] in tail;
        if tail[j] != entry {
          var i := IndexOf(memory[1..], tail[j]);
          assert memory[i + 1] == tail[j];
        }
      }
    }
  }

  lemma {:induction false} LookupMember(memory: seq<Entry>, cacheKey: string)
    ensures match Lookup(memory, cacheKey)
            case Some(entry) => entry in memory && entry.cacheKey == cacheKey
            case None => forall entry | entry in memory :: entry.cacheKey != cacheKey
  {
    if memory == [] {
    } else {
      assert memory == [memory[0]] + memory[1..];
      if memory[0].cacheKey != cacheKey {
        LookupMember(memory[1..], cacheKey);
      }
    }
  }

  /** Two memories with the same entries answer every lookup alike. */
  lemma SameEntriesSameLookup(a: seq<Entry>, b: seq<Entry>, cacheKey: string)
    requires Valid(a) && Valid(b) && forall entry :: entry in a <==> entry in b
    ensures Lookup(a, cacheKey) == Lookup(b, cacheKey)
  {
    LookupMember(a, cacheKey);
    LookupMember(b, cacheKey);
    var x, y := Lookup(a, cacheKey), Lookup(b, cacheKey);
    if x.Some? && y.Some? {
      assert x.value in b;
      var i, j := IndexOf(b, x.value), IndexOf(b, y.value);
    }
  }

  lemma {:induction false} LoadIsValid(lines: seq<Entry>)
    ensures Valid(Load(lines))
  {
    if lines == [] {
    } else {
      LoadIsValid(lines[..|lines| - 1]);
      var last := lines[|lines| - 1];
      if last.cacheKey != "" && !Blank(last.translated) {
        PutKeepsValid(Load(lines[..|lines| - 1]), last);
      }
    }
  }

  /** The line at position i files a usable translation under the key, and none behind it does. */
  ghost predicate LastFiled(lines: seq<Entry>, cacheKey: string, i: nat) {
    && i < |lines| && lines[i].cacheKey == cacheKey && GoodEntry(lines[i])
    && forall j | i < j < |lines| :: !(lines[j].cacheKey == cacheKey && GoodEntry(lines[j]))
  }

  lemma LastFiledOfMore(lines: seq<Entry>, cacheKey: string, i: nat)
    requires lines != []
    ensures var n := |lines| - 1;
            LastFiled(lines, cacheKey, i) <==>
              if lines[n].cacheKey == cacheKey && GoodEntry(lines[n]) then i == n else LastFiled(lines[..n], cacheKey, i)
  {
  }

  /** Loading keeps, of the usable lines with one key, the last. */
  lemma {:induction false} LoadKeepsTheLast(lines: seq<Entry>, cacheKey: string)
    ensures match Lookup(Load(lines), cacheKey)
            case Some(entry) => exists i: nat :: LastFiled(lines, cacheKey, i) && lines[i] == entry
            case None => forall i | 0 <= i < |lines| && lines[i].cacheKey == cacheKey :: !GoodEntry(lines[i])
  {
    if lines == [] {
    } else {
      var n := |lines| - 1;
      var before, last := lines[..n], lines[n];
      LoadKeepsTheLast(before, cacheKey);
      PutLookup(Load(before), last, cacheKey);
      if last.cacheKey == cacheKey && GoodEntry(last) {
        LastFiledOfMore(lines, cacheKey, n);
      } else if Lookup(Load(before), cacheKey).Some? {
        var i: nat :| LastFiled(before, cacheKey, i) && before[i] == Lookup(Load(before), cacheKey).value;
        LastFiledOfMore(lines, cacheKey, i);
      }
    }
  }

  lemma {:induction false} PutAppends(memory: seq<Entry>, entry: Entry)
    requires forall i | 0 <= i < |memory| :: memory[i].cacheKey != entry.cacheKey
    ensures Put(memory, entry) == memory + [entry]
  {
    if memory == [] {
    } else {
      PutAppends(memory[1..], entry);
    }
  }

  /** The reload filter drops nothing from a valid memory. */
  lemma {:induction false} LoadOfValid(lines: seq<Entry>)
    requires Valid(lines)
    ensures Load(lines) == lines
  {
    if lines == [] {
    } else {
      var before, last := lines[..|lines| - 1], lines[|lines| - 1];
      LoadOfValid(before);
      assert GoodEntry(last);
      PutAppends(before, last);
      assert before + [last] == lines;
    }
  }

  /** The entry at position i serves, and none behind it does. */
  ghost predicate LastServing(memory: seq<Entry>, locale: string, textHash: string, i: nat) {
    && i < |memory| && Serves(memory[i], locale, textHash)
    && forall j | i < j < |memory| :: !Serves(memory[j], locale, textHash)
  }

  /** A text hash is mapped exactly when an entry serves it, and then to the last such entry. */
  lemma {:induction false} ByTextHashMeaning(memory: seq<Entry>, locale: string, textHash: string)
    ensures textHash in ByTextHash(memory, locale) <==> HasText(memory, locale, textHash)
    ensures textHash in ByTextHash(memory, locale) ==>
              exists i: nat :: LastServing(memory, locale, textHash, i) && ByTextHash(memory, locale)[textHash] == memory[i]
  {
    if memory == [] {
    } else {
      var n := |memory| - 1;
      ByTextHashMeaning(memory[..n], locale, textHash);
      assert memory == memory[..n] + [memory[n]];
      if Serves(memory[n], locale, textHash) {
        assert LastServing(memory, locale, textHash, n);
      } else if textHash in ByTextHash(memory[..n], locale) {
        var i: nat :| LastServing(memory[..n], locale, textHash, i) && ByTextHash(memory[..n], locale)[textHash] == memory[..n][i];
        assert LastServing(memory, locale, textHash, i);
      }
    }
  }

  // ---------------------------------------------------------------- facts about the first pass

  ghost predicate DistinctPairs(source: seq<Pair>) {
    forall i, j | 0 <= i < j < |source| :: source[i].key != source[j].key
  }

  ghost function Key(cfg: Config, pair: Pair): string {
    cfg.cacheKey(pair.key, cfg.hashText(pair.text))
  }

  ghost function DecideFor(cfg: Config, view: View, memory: seq<Entry>, pair: Pair): Decision {
    Decide(cfg, view, memory, pair.key, pair.text)
  }

  ghost predicate Marks(decision: Decision) {
    match decision
    case FromCache(_, fallback) => fallback
    case Keep(_, fallback) => fallback
    case _ => false
  }

  ghost function Value(decision: Decision): string
    requires !decision.Ask?
  {
    match decision
    case FromCache(text, _) => text
    case Keep(text, _) => text
    case FromText(entry) => entry.translated
  }

  /** The first pass did to this pair what its decision on the loaded memory says. */
  ghost predicate DoneAsDecided(cfg: Config, view: View, memory: seq<Entry>, p: Progress, pair: Pair) {
    var decision := DecideFor(cfg, view, memory, pair);
    && (decision.Ask? ==> pair.key !in p.next && ItemOf(cfg, pair.key, pair.text) in p.pending)
    && (!decision.Ask? ==> pair.key in p.next && p.next[pair.key] == Value(decision))
    && (pair.key in p.fallbacks <==> Marks(decision))
    && Lookup(p.memory, Key(cfg, pair)) ==
       (if decision.FromText? then Some(CopyFor(cfg, decision.entry, pair.key, pair.text)) else Lookup(memory, Key(cfg, pair)))
  }

  ghost predicate Asked(cfg: Config, view: View, memory: seq<Entry>, source: seq<Pair>, item: Item) {
    exists pair :: pair in source && item == ItemOf(cfg, pair.key, pair.text) && DecideFor(cfg, view, memory, pair).Ask?
  }

  ghost predicate HasKey(source: seq<Pair>, key: string) {
    exists pair :: pair in source && pair.key == key
  }

  ghost predicate Reused(cfg: Config, view: View, memory: seq<Entry>, source: seq<Pair>, p: Progress) {
    && Valid(p.memory)
    && (forall pair | pair in source :: DoneAsDecided(cfg, view, memory, p, pair))
    && (forall key | key in p.next :: HasKey(source, key))
    && (forall key | key in p.fallbacks :: HasKey(source, key))
    && (forall item | item in p.pending :: Asked(cfg, view, memory, source, item))
    && (forall cacheKey | (forall pair | pair in source :: Key(cfg, pair) != cacheKey) ::
          Lookup(p.memory, cacheKey) == Lookup(memory, cacheKey))
    && (forall textHash | HasText(p.memory, cfg.locale, textHash) :: HasText(memory, cfg.locale, textHash))
  }

  lemma ApplyKeepsOthers(cfg: Config, view: View, memory: seq<Entry>, p: Progress, pair: Pair, other: Pair, decision: Decision)
    requires Sane(cfg) && pair.key != other.key
    requires DoneAsDecided(cfg, view, memory, p, other)
    ensures DoneAsDecided(cfg, view, memory, Apply(cfg, p, pair.key, pair.text, decision), other)
  {
    if decision.FromText? {
      PutLookup(p.memory, CopyFor(cfg, decision.entry, pair.key, pair.text), Key(cfg, other));
    }
  }

  lemma CopyKeepsTexts(cfg: Config, memory: seq<Entry>, current: seq<Entry>, pair: Pair, entry: Entry)
    requires Valid(current) && Sane(cfg)
    requires entry in memory && Serves(entry, cfg.locale, entry.textHash)
    requires forall textHash | HasText(current, cfg.locale, textHash) :: HasText(memory, cfg.locale, textHash)
    ensures var after := Put(current, CopyFor(cfg, entry, pair.key, pair.text));
            && Valid(after)
            && forall textHash | HasText(after, cfg.locale, textHash) :: HasText(memory, cfg.locale, textHash)
  {
    var copy := CopyFor(cfg, entry, pair.key, pair.text);
    PutKeepsValid(current, copy);
    PutMembers(current, copy);
    forall textHash | HasText(Put(current, copy), cfg.locale, textHash) ensures HasText(memory, cfg.locale, textHash) {
      var e :| e in Put(current, copy) && Serves(e, cfg.locale, textHash);
      if e != copy {
        assert HasText(current, cfg.locale, textHash);
      }
    }
  }

  lemma PairIsDone(cfg: Config, view: View, memory: seq<Entry>, before: seq<Pair>, p: Progress, pair: Pair)
    requires Reused(cfg, view, memory, before, p)
    requires !HasKey(before, pair.key)
    requires forall other | other in before :: Key(cfg, other) != Key(cfg, pair)
    ensures DoneAsDecided(cfg, view, memory, Apply(cfg, p, pair.key, pair.text, DecideFor(cfg, view, memory, pair)), pair)
  {
    var decision := DecideFor(cfg, view, memory, pair);
    if decision.FromText? {
      PutLookup(p.memory, CopyFor(cfg, decision.entry, pair.key, pair.text), Key(cfg, pair));
    }
  }

  lemma HasKeyOfExtended(before: seq<Pair>, pair: Pair, key: string)
    ensures HasKey(before + [pair], key) <==> HasKey(before, key) || key == pair.key
  {
    assert forall other :: other in before + [pair] <==> other in before || other == pair;
  }

  lemma AskedOfExtended(cfg: Config, view: View, memory: seq<Entry>, before: seq<Pair>, pair: Pair, item: Item)
    ensures Asked(cfg, view, memory, before + [pair], item)
      <==> Asked(cfg, view, memory, before, item)
           || (item == ItemOf(cfg, pair.key, pair.text) && DecideFor(cfg, view, memory, pair).Ask?)
  {
    assert forall other :: other in before + [pair] <==> other in before || other == pair;
  }

  lemma ExtendKeys(cfg: Config, view: View, memory: seq<Entry>, before: seq<Pair>, p: Progress, pair: Pair)
    requires Reused(cfg, view, memory, before, p)
    ensures var q := Apply(cfg, p, pair.key, pair.text, DecideFor(cfg, view, memory, pair));
            && (forall key | key in q.next :: HasKey(before + [pair], key))
            && (forall key | key in q.fallbacks :: HasKey(before + [pair], key))
  {
    forall key ensures HasKey(before + [pair], key) <==> HasKey(before, key) || key == pair.key {
      HasKeyOfExtended(before, pair, key);
    }
  }

  lemma ExtendPending(cfg: Config, view: View, memory: seq<Entry>, before: seq<Pair>, p: Progress, pair: Pair)
    requires Reused(cfg, view, memory, before, p)
    ensures var q := Apply(cfg, p, pair.key, pair.text, DecideFor(cfg, view, memory, pair));
            forall item | item in q.pending :: Asked(cfg, view, memory, before + [pair], item)
  {
    var q := Apply(cfg, p, pair.key, pair.text, DecideFor(cfg, view, memory, pair));
    forall item | item in q.pending ensures Asked(cfg, view, memory, before + [pair], item) {
      AskedOfExtended(cfg, view, memory, before, pair, item);
    }
  }

  lemma ExtendDone(cfg: Config, view: View, memory: seq<Entry>, before: seq<Pair>, p: Progress, pair: Pair, other: Pair)
    requires Sane(cfg) && Reused(cfg, view, memory, before, p) && other in before + [pair]
    requires forall other | other in before :: other.key != pair.key && Key(cfg, other) != Key(cfg, pair)
    ensures DoneAsDecided(cfg, view, memory, Apply(cfg, p, pair.key, pair.text, DecideFor(cfg, view, memory, pair)), other)
  {
    if other in before {
      ApplyKeepsOthers(cfg, view, memory, p, pair, other, DecideFor(cfg, view, memory, pair));
    } else {
      PairIsDone(cfg, view, memory, before, p, pair);
    }
  }

  lemma ExtendMemory(cfg: Config, view: View, memory: seq<Entry>, before: seq<Pair>, p: Progress, pair: Pair)
    requires Sane(cfg) && Valid(memory)
    requires view.byText == ByTextHash(memory, cfg.locale)
    requires Reused(cfg, view, memory, before, p)
    ensures var after := Apply(cfg, p, pair.key, pair.text, DecideFor(cfg, view, memory, pair)).memory;
            && Valid(after)
            && (forall textHash | HasText(after, cfg.locale, textHash) :: HasText(memory, cfg.locale, textHash))
            && (forall cacheKey | cacheKey != Key(cfg, pair) :: Lookup(after, cacheKey) == Lookup(p.memory, cacheKey))
  {
    var decision := DecideFor(cfg, view, memory, pair);
    if decision.FromText? {
      var copy := CopyFor(cfg, decision.entry, pair.key, pair.text);
      ByTextHashMeaning(memory, cfg.locale, cfg.hashText(pair.text));
      CopyKeepsTexts(cfg, memory, p.memory, pair, decision.entry);
      forall cacheKey | cacheKey != Key(cfg, pair) ensures Lookup(Put(p.memory, copy), cacheKey) == Lookup(p.memory, cacheKey) {
        PutLookup(p.memory, copy, cacheKey);
      }
    }
  }

  lemma ExtendReuse(cfg: Config, view: View, memory: seq<Entry>, before: seq<Pair>, p: Progress, pair: Pair)
    requires Sane(cfg) && Valid(memory)
    requires view.byText == ByTextHash(memory, cfg.locale)
    requires Reused(cfg, view, memory, before, p)
    requires forall other | other in before :: other.key != pair.key && Key(cfg, other) != Key(cfg, pair)
    ensures Reused(cfg, view, memory, before + [pair],
                   Apply(cfg, p, pair.key, pair.text, DecideFor(cfg, view, memory, pair)))
  {
    var source := before + [pair];
    var q := Apply(cfg, p, pair.key, pair.text, DecideFor(cfg, view, memory, pair));
    ExtendKeys(cfg, view, memory, before, p, pair);
    ExtendPending(cfg, view, memory, before, p, pair);
    ExtendMemory(cfg, view, memory, before, p, pair);
    forall other | other in source ensures DoneAsDecided(cfg, view, memory, q, other) {
      ExtendDone(cfg, view, memory, before, p, pair, other);
    }
    forall cacheKey | forall other | other in source :: Key(cfg, other) != cacheKey
      ensures Lookup(q.memory, cacheKey) == Lookup(memory, cacheKey)
    {
      assert pair in source && forall other | other in before :: other in source;
    }
  }

  /** The loop decides about the next string as on the loaded memory: no copy was filed under its key. */
  lemma ReuseOneMore(cfg: Config, view: View, memory: seq<Entry>, before: seq<Pair>, p: Progress, pair: Pair)
    requires p == Reuse(cfg, view, memory, before) && Reused(cfg, view, memory, before, p)
    requires forall other | other in before :: Key(cfg, other) != Key(cfg, pair)
    ensures Reuse(cfg, view, memory, before + [pair]) == Apply(cfg, p, pair.key, pair.text, DecideFor(cfg, view, memory, pair))
  {
    assert (before + [pair])[..|before|] == before;
    assert Lookup(p.memory, Key(cfg, pair)) == Lookup(memory, Key(cfg, pair));
  }

  lemma LastIsNew(cfg: Config, before: seq<Pair>, pair: Pair)
    requires Sane(cfg) && DistinctPairs(before + [pair])
    ensures DistinctPairs(before)
    ensures forall other | other in before :: other.key != pair.key && Key(cfg, other) != Key(cfg, pair)
  {
    var source := before + [pair];
    assert forall i | 0 <= i < |before| :: source[i] == before[i];
    forall other | other in before ensures other.key != pair.key {
      var i := IndexOf(before, other);
      assert source[i] == other && source[|before|] == pair;
    }
  }

  lemma {:induction false} ReuseDoesAsDecided(cfg: Config, view: View, memory: seq<Entry>, source: seq<Pair>)
    requires Sane(cfg) && Valid(memory) && DistinctPairs(source)
    requires view.byText == ByTextHash(memory, cfg.locale)
    ensures Reused(cfg, view, memory, source, Reuse(cfg, view, memory, source))
  {
    if source == [] {
    } else {
      var before, pair := source[..|source| - 1], source[|source| - 1];
      assert source == before + [pair];
      LastIsNew(cfg, before, pair);
      ReuseDoesAsDecided(cfg, view, memory, before);
      var p := Reuse(cfg, view, memory, before);
      ReuseOneMore(cfg, view, memory, before, p, pair);
      ExtendReuse(cfg, view, memory, before, p, pair);
    }
  }

  // ---------------------------------------------------------------- what the provider answered

  ghost function Only(translated: map<string, string>, keys: set<string>): map<string, string> {
    map key | key in translated && key in keys :: translated[key]
  }

  lemma OnlyOneMore(base: map<string, string>, translated: map<string, string>, keys: set<string>, key: string)
    requires key in translated
    ensures base + Only(translated, keys + {key}) == (base + Only(translated, keys))[key := translated[key]]
  {
  }

  lemma AdoptOneMore(cfg: Config, p: Progress, before: seq<Item>, item: Item, translated: map<string, string>, stamp: string -> string)
    requires item.key in translated && !Blank(translated[item.key])
    ensures Adopt(cfg, p, before + [item], translated, stamp).next
         == Adopt(cfg, p, before, translated, stamp).next[item.key := translated[item.key]]
  {
    assert (before + [item])[..|before|] == before;
    assert translated[item.key] != "" by { assert !Blank(translated[item.key]); }
  }

  lemma KeysOfLonger(before: seq<Item>, item: Item)
    ensures Translator.KeysOf(before + [item]) == Translator.KeysOf(before) + {item.key}
  {
    assert forall other :: other in before + [item] <==> other in before || other == item;
  }

  lemma AdoptAddsOne(cfg: Config, p: Progress, before: seq<Item>, item: Item, translated: map<string, string>, stamp: string -> string)
    requires item.key in translated && !Blank(translated[item.key])
    requires Adopt(cfg, p, before, translated, stamp).next == p.next + Only(translated, Translator.KeysOf(before))
    ensures Adopt(cfg, p, before + [item], translated, stamp).next == p.next + Only(translated, Translator.KeysOf(before + [item]))
  {
    AdoptOneMore(cfg, p, before, item, translated, stamp);
    KeysOfLonger(before, item);
    OnlyOneMore(p.next, translated, Translator.KeysOf(before), item.key);
  }

  lemma {:induction false} AdoptAddsPrefix(cfg: Config, p: Progress, batch: seq<Item>, n: nat, translated: map<string, string>, stamp: string -> string)
    requires n <= |batch|
    requires forall item | item in batch :: item.key in translated && !Blank(translated[item.key])
    ensures Adopt(cfg, p, batch[..n], translated, stamp).next == p.next + Only(translated, Translator.KeysOf(batch[..n]))
    decreases n
  {
    if n == 0 {
    } else {
      var before, item := batch[..n - 1], batch[n - 1];
      AdoptAddsPrefix(cfg, p, batch, n - 1, translated, stamp);
      assert batch[..n] == before + [item] && item in batch;
      AdoptAddsOne(cfg, p, before, item, translated, stamp);
    }
  }

  /** Recording a batch adds its translations, and nothing else, to the values. */
  lemma AdoptAddsTranslations(cfg: Config, p: Progress, batch: seq<Item>, translated: map<string, string>, stamp: string -> string)
    requires Translator.Complete(batch, translated)
    ensures Adopt(cfg, p, batch, translated, stamp).next == p.next + translated
  {
    forall item | item in batch ensures item.key in translated && !Blank(translated[item.key]) {
      assert item.key in Translator.KeysOf(batch);
    }
    AdoptAddsPrefix(cfg, p, batch, |batch|, translated, stamp);
    assert batch[..|batch|] == batch;
    assert Only(translated, Translator.KeysOf(batch)) == translated;
  }

  /** The log of one batch in front of the log of the others. */
  lemma LogsConcat(before: Translator.Session, middle: Translator.Session, after: Translator.Session, agent: Translator.Agent)
    requires before.log <= middle.log && middle.log <= after.log
    ensures before.log <= after.log
    ensures Translator.Accepted(after.log[|before.log|..])
         == Translator.Accepted(middle.log[|before.log|..]) + Translator.Accepted(after.log[|middle.log|..])
    ensures Translator.Harvest(after.log[|before.log|..], agent)
         == Translator.Harvest(middle.log[|before.log|..], agent) + Translator.Harvest(after.log[|middle.log|..], agent)
  {
    assert after.log[|before.log|..] == middle.log[|before.log|..] + after.log[|middle.log|..];
    Translator.AcceptedConcat(middle.log[|before.log|..], after.log[|middle.log|..]);
    Translator.HarvestConcat(middle.log[|before.log|..], after.log[|middle.log|..], agent);
  }

  /** The batches add to the values exactly what the accepted answers of their prompts say. */
  ghost predicate AddsHarvest(p: Progress, q: Progress, items: seq<Item>, before: Translator.Session, after: Translator.Session,
                              agent: Translator.Agent) {
    && before.log <= after.log
    && Translator.Accepted(after.log[|before.log|..]) == items
    && q.next == p.next + Translator.Harvest(after.log[|before.log|..], agent)
  }

  lemma {:induction false} TranslateAllHarvests(cfg: Config, p: Progress, batches: seq<seq<Item>>, agent: Translator.Agent,
                                                session: Translator.Session, stamp: string -> string)
    ensures var (result, after) := TranslateAll(cfg, p, batches, agent, session, stamp);
            result.Ok? ==> AddsHarvest(p, result.value, Concat(batches), session, after, agent)
    decreases |batches|
  {
    if batches == [] {
      assert session.log[|session.log|..] == [];
    } else {
      var (translated, middle) := Translator.Run(batches[0], "", 0, agent, session);
      Translator.AllOrNothing(batches[0], "", 0, agent, session);
      Translator.EveryStringIsAnsweredOnce(batches[0], "", 0, agent, session);
      if translated.Ok? {
        var q := Adopt(cfg, p, batches[0], translated.value, stamp);
        var (rest, after) := TranslateAll(cfg, q, batches[1..], agent, middle, stamp);
        AdoptAddsTranslations(cfg, p, batches[0], translated.value, stamp);
        TranslateAllHarvests(cfg, q, batches[1..], agent, middle, stamp);
        if rest.Ok? {
          LogsConcat(session, middle, after, agent);
          Translator.MapPlusAssociative(p.next, translated.value, Translator.Harvest(after.log[|middle.log|..], agent));
        }
      }
    }
  }

  /**
   * With a provider, the pass adds exactly the answers that were accepted for the pending strings,
   * each of which was asked for in one accepted prompt.
   */
  lemma ProviderHarvests(cfg: Config, p: Progress, agent: Translator.Agent, stamp: string -> string)
    requires cfg.allowTranslate
    ensures var (result, session) := Provide(cfg, p, agent, stamp);
            result.Ok? ==>
              && Translator.Accepted(session.log) == p.pending
              && result.value.next == p.next + Translator.Harvest(session.log, agent)
  {
    if p.pending == [] {
    } else {
      PlanIsPlan([], p.pending, cfg.budget);
      assert [] + p.pending == p.pending;
      TranslateAllHarvests(cfg, p, Plan(p.pending, cfg.budget), agent, IDLE, stamp);
      var after := TranslateAll(cfg, p, Plan(p.pending, cfg.budget), agent, IDLE, stamp).1;
      assert after.log[|IDLE.log|..] == after.log;
    }
  }

  // ---------------------------------------------------------------- facts about the provider pass

  /** Every item is the item of its key, and no key has two items. */
  ghost predicate WellKeyed(cfg: Config, items: seq<Item>) {
    && (forall item | item in items :: item == ItemOf(cfg, item.key, item.text))
    && (forall a, b | a in items && b in items && a.key == b.key :: a == b)
  }

  ghost predicate Recorded(cfg: Config, stamp: string -> string, q: Progress, item: Item) {
    item.key in q.next && Lookup(q.memory, item.cacheKey) == Some(EntryOf(cfg, item, q.next[item.key], stamp))
  }

  ghost predicate Adopted(cfg: Config, stamp: string -> string, p: Progress, q: Progress, items: seq<Item>) {
    && Valid(q.memory)
    && q.pending == p.pending
    && q.fallbacks == p.fallbacks
    && (forall item | item in items :: Recorded(cfg, stamp, q, item))
    && (forall key | key in p.next && (forall item | item in items :: item.key != key) :: key in q.next && q.next[key] == p.next[key])
    && (forall cacheKey | (forall item | item in items :: item.cacheKey != cacheKey) ::
          Lookup(q.memory, cacheKey) == Lookup(p.memory, cacheKey))
  }

  lemma AdoptedConcat(cfg: Config, stamp: string -> string, p: Progress, q: Progress, r: Progress, a: seq<Item>, b: seq<Item>)
    requires Sane(cfg) && WellKeyed(cfg, a + b)
    requires Adopted(cfg, stamp, p, q, a) && Adopted(cfg, stamp, q, r, b)
    ensures Adopted(cfg, stamp, p, r, a + b)
  {
    var all := a + b;
    assert forall item | item in a :: item in all;
    assert forall item | item in b :: item in all;
    forall item | item in all ensures Recorded(cfg, stamp, r, item) {
      if item !in b {
        assert forall other | other in b :: other.key != item.key && other.cacheKey != item.cacheKey;
      }
    }
  }

  lemma AdoptOne(cfg: Config, q: Progress, item: Item, value: string, stamp: string -> string)
    requires Sane(cfg) && Valid(q.memory) && !Blank(value) && item == ItemOf(cfg, item.key, item.text)
    ensures Adopted(cfg, stamp, q, q.(next := q.next[item.key := value], memory := Put(q.memory, EntryOf(cfg, item, value, stamp))), [item])
  {
    var entry := EntryOf(cfg, item, value, stamp);
    PutKeepsValid(q.memory, entry);
    forall cacheKey
      ensures Lookup(Put(q.memory, entry), cacheKey) == if cacheKey == entry.cacheKey then Some(entry) else Lookup(q.memory, cacheKey)
    {
      PutLookup(q.memory, entry, cacheKey);
    }
    assert item in [item];
  }

  lemma {:induction false} AdoptPrefix(cfg: Config, p: Progress, batch: seq<Item>, n: nat, translated: map<string, string>, stamp: string -> string)
    requires Sane(cfg) && Valid(p.memory) && WellKeyed(cfg, batch) && n <= |batch|
    requires Translator.Complete(batch, translated)
    ensures Adopted(cfg, stamp, p, Adopt(cfg, p, batch[..n], translated, stamp), batch[..n])
    decreases n
  {
    if n == 0 {
    } else {
      AdoptPrefix(cfg, p, batch, n - 1, translated, stamp);
      var before, item := batch[..n - 1], batch[n - 1];
      assert batch[..n] == before + [item] && batch[..n][..n - 1] == before;
      assert item in batch && item.key in Translator.KeysOf(batch);
      var q := Adopt(cfg, p, before, translated, stamp);
      var value := translated[item.key];
      assert value != "" by { assert !Blank(value); }
      AdoptOne(cfg, q, item, value, stamp);
      forall a | a in before + [item] ensures a in batch {
      }
      AdoptedConcat(cfg, stamp, p, q, Adopt(cfg, p, batch[..n], translated, stamp), before, [item]);
    }
  }

  lemma {:induction false} AdoptAdopts(cfg: Config, p: Progress, batch: seq<Item>, translated: map<string, string>, stamp: string -> string)
    requires Sane(cfg) && Valid(p.memory) && WellKeyed(cfg, batch)
    requires Translator.Complete(batch, translated)
    ensures Adopted(cfg, stamp, p, Adopt(cfg, p, batch, translated, stamp), batch)
  {
    AdoptPrefix(cfg, p, batch, |batch|, translated, stamp);
    assert batch[..|batch|] == batch;
  }

  lemma {:induction false} TranslateAllAdopts(cfg: Config, p: Progress, batches: seq<seq<Item>>, agent: Translator.Agent,
                                              session: Translator.Session, stamp: string -> string)
    requires Sane(cfg) && Valid(p.memory) && WellKeyed(cfg, Concat(batches))
    ensures var (result, after) := TranslateAll(cfg, p, batches, agent, session, stamp);
            result.Ok? ==>
              && Adopted(cfg, stamp, p, result.value, Concat(batches))
              && AddsHarvest(p, result.value, Concat(batches), session, after, agent)
    decreases |batches|
  {
    TranslateAllHarvests(cfg, p, batches, agent, session, stamp);
    if batches == [] {
    } else {
      var (result, after) := Translator.Run(batches[0], "", 0, agent, session);
      Translator.AllOrNothing(batches[0], "", 0, agent, session);
      if result.Ok? {
        var all, rest := Concat(batches), Concat(batches[1..]);
        assert forall item | item in batches[0] :: item in all;
        assert forall item | item in rest :: item in all;
        AdoptAdopts(cfg, p, batches[0], result.value, stamp);
        var q := Adopt(cfg, p, batches[0], result.value, stamp);
        TranslateAllAdopts(cfg, q, batches[1..], agent, after, stamp);
        var end := TranslateAll(cfg, q, batches[1..], agent, after, stamp).0;
        if end.Ok? {
          AdoptedConcat(cfg, stamp, p, q, end.value, batches[0], rest);
        }
      }
    }
  }

  // ---------------------------------------------------------------- facts about the fallback pass

  lemma {:induction false} FillInSkipsAnswered(view: View, force: bool, p: Progress, pending: seq<Item>)
    requires forall item | item in pending :: item.key in p.next
    ensures FillIn(view, force, p, pending) == p
  {
    if pending == [] {
    } else {
      FillInSkipsAnswered(view, force, p, pending[..|pending| - 1]);
    }
  }

  /** Without a provider the pending strings have no existing translation: each gets its English text. */
  ghost predicate FilledIn(p: Progress, q: Progress, items: seq<Item>) {
    && q.memory == p.memory
    && q.pending == p.pending
    && (forall item | item in items :: item.key in q.next && q.next[item.key] == item.text && item.key in q.fallbacks)
    && (forall key | key in p.next :: key in q.next && q.next[key] == p.next[key])
    && (forall key | key in q.next && key !in p.next :: exists item :: item in items && item.key == key)
    && (forall key | key in p.fallbacks :: key in q.fallbacks)
    && (forall key | key in q.fallbacks && key !in p.fallbacks :: exists item :: item in items && item.key == key)
  }

  /** A string that is still open gets its English text and a mark. */
  lemma FillInOneMore(view: View, force: bool, p: Progress, before: seq<Item>, item: Item)
    requires item.key !in view.existing
    ensures var q := FillIn(view, force, p, before);
            FillIn(view, force, p, before + [item])
            == if item.key in q.next then q
               else q.(next := q.next[item.key := item.text], fallbacks := q.fallbacks + [item.key])
  {
    assert (before + [item])[..|before|] == before;
  }

  lemma FilledInOneMore(p: Progress, q: Progress, before: seq<Item>, item: Item)
    requires FilledIn(p, q, before) && item.key !in p.next
    requires forall other | other in before && other.key == item.key :: other == item
    ensures var r := if item.key in q.next then q
                     else q.(next := q.next[item.key := item.text], fallbacks := q.fallbacks + [item.key]);
            FilledIn(p, r, before + [item])
  {
    assert forall other :: other in before + [item] <==> other in before || other == item;
  }

  lemma {:induction false} FillInUsesEnglish(cfg: Config, view: View, force: bool, p: Progress, pending: seq<Item>)
    requires WellKeyed(cfg, pending)
    requires forall item | item in pending :: item.key !in view.existing && item.key !in p.next
    ensures FilledIn(p, FillIn(view, force, p, pending), pending)
  {
    if pending == [] {
    } else {
      var before, item := pending[..|pending| - 1], pending[|pending| - 1];
      assert pending == before + [item];
      assert forall other | other in before :: other in pending;
      FillInUsesEnglish(cfg, view, force, p, before);
      FillInOneMore(view, force, p, before, item);
      FilledInOneMore(p, FillIn(view, force, p, before), before, item);
    }
  }

  // ---------------------------------------------------------------- every string is settled

  /** The next run will take this value again, and mark it as a fallback again. */
  ghost predicate SettledPair(cfg: Config, memory: seq<Entry>, value: string, fallback: bool, pair: Pair) {
    && (fallback ==> !cfg.allowTranslate)
    && match Lookup(memory, Key(cfg, pair))
       case Some(entry) => entry.translated == value
       case None => fallback ==> !HasText(memory, cfg.locale, cfg.hashText(pair.text))
  }

  ghost predicate Settled(cfg: Config, source: seq<Pair>, f: Progress) {
    && Valid(f.memory)
    && (forall pair | pair in source :: pair.key in f.next && SettledPair(cfg, f.memory, f.next[pair.key], pair.key in f.fallbacks, pair))
    && (forall key | key in f.fallbacks :: HasKey(source, key))
  }

  lemma PendingIsWellKeyed(cfg: Config, view: View, memory: seq<Entry>, source: seq<Pair>, p: Progress)
    requires DistinctPairs(source) && Reused(cfg, view, memory, source, p)
    ensures WellKeyed(cfg, p.pending)
  {
    forall item | item in p.pending ensures item == ItemOf(cfg, item.key, item.text) {
      assert Asked(cfg, view, memory, source, item);
    }
    forall a, b | a in p.pending && b in p.pending && a.key == b.key ensures a == b {
      assert Asked(cfg, view, memory, source, a) && Asked(cfg, view, memory, source, b);
      var x :| x in source && a == ItemOf(cfg, x.key, x.text);
      var y :| y in source && b == ItemOf(cfg, y.key, y.text);
      var i, j := IndexOf(source, x), IndexOf(source, y);
      assert i == j;
    }
  }

  /** A pair that the first pass decided about stays settled when nothing touches its key. */
  lemma DecidedIsSettled(cfg: Config, view: View, memory: seq<Entry>, source: seq<Pair>, p: Progress, pair: Pair)
    requires Sane(cfg) && view.byText == ByTextHash(memory, cfg.locale)
    requires Reused(cfg, view, memory, source, p) && pair in source
    requires !DecideFor(cfg, view, memory, pair).Ask?
    ensures SettledPair(cfg, p.memory, p.next[pair.key], pair.key in p.fallbacks, pair)
    ensures cfg.allowTranslate ==> pair.key !in p.fallbacks
  {
    assert DoneAsDecided(cfg, view, memory, p, pair);
    ByTextHashMeaning(memory, cfg.locale, cfg.hashText(pair.text));
  }

  lemma ProviderLeavesNoFallback(cfg: Config, view: View, memory: seq<Entry>, source: seq<Pair>, p: Progress)
    requires cfg.allowTranslate && Reused(cfg, view, memory, source, p)
    ensures p.fallbacks == []
  {
    forall key ensures key !in p.fallbacks {
      if HasKey(source, key) {
        var pair :| pair in source && pair.key == key;
        assert DoneAsDecided(cfg, view, memory, p, pair);
      }
    }
    if p.fallbacks != [] {
      SomeMember(p.fallbacks);
      assert false;
    }
  }

  lemma NotAsked(cfg: Config, view: View, memory: seq<Entry>, source: seq<Pair>, p: Progress, pair: Pair)
    requires Sane(cfg) && DistinctPairs(source) && Reused(cfg, view, memory, source, p)
    requires pair in source && !DecideFor(cfg, view, memory, pair).Ask?
    ensures forall item | item in p.pending :: item.key != pair.key && item.cacheKey != Key(cfg, pair)
  {
    forall item | item in p.pending ensures item.key != pair.key && item.cacheKey != Key(cfg, pair) {
      assert Asked(cfg, view, memory, source, item);
      var x :| x in source && item == ItemOf(cfg, x.key, x.text) && DecideFor(cfg, view, memory, x).Ask?;
      var i, j := IndexOf(source, x), IndexOf(source, pair);
      assert i != j;
    }
  }

  lemma PairSettledWithProvider(cfg: Config, stamp: string -> string, view: View, memory: seq<Entry>, source: seq<Pair>, p: Progress, q: Progress, pair: Pair)
    requires Sane(cfg) && DistinctPairs(source) && view.byText == ByTextHash(memory, cfg.locale)
    requires cfg.allowTranslate && pair in source
    requires Reused(cfg, view, memory, source, p) && Adopted(cfg, stamp, p, q, p.pending)
    ensures pair.key in q.next && SettledPair(cfg, q.memory, q.next[pair.key], false, pair)
  {
    assert DoneAsDecided(cfg, view, memory, p, pair);
    if DecideFor(cfg, view, memory, pair).Ask? {
      assert Recorded(cfg, stamp, q, ItemOf(cfg, pair.key, pair.text));
    } else {
      DecidedIsSettled(cfg, view, memory, source, p, pair);
      NotAsked(cfg, view, memory, source, p, pair);
    }
  }

  lemma SettledWithProvider(cfg: Config, stamp: string -> string, view: View, memory: seq<Entry>, source: seq<Pair>, p: Progress, q: Progress, force: bool)
    requires Sane(cfg) && DistinctPairs(source) && view.byText == ByTextHash(memory, cfg.locale)
    requires cfg.allowTranslate
    requires Reused(cfg, view, memory, source, p) && Adopted(cfg, stamp, p, q, p.pending)
    ensures FillIn(view, force, q, q.pending) == q && Settled(cfg, source, q) && q.fallbacks == []
  {
    ProviderLeavesNoFallback(cfg, view, memory, source, p);
    forall item | item in p.pending ensures item.key in q.next {
      assert Recorded(cfg, stamp, q, item);
    }
    FillInSkipsAnswered(view, force, q, q.pending);
    forall pair | pair in source ensures pair.key in q.next && SettledPair(cfg, q.memory, q.next[pair.key], false, pair) {
      PairSettledWithProvider(cfg, stamp, view, memory, source, p, q, pair);
    }
  }

  lemma SettledWithoutProvider(cfg: Config, view: View, memory: seq<Entry>, source: seq<Pair>, p: Progress, force: bool)
    requires Sane(cfg) && DistinctPairs(source) && view.byText == ByTextHash(memory, cfg.locale)
    requires !cfg.allowTranslate
    requires Reused(cfg, view, memory, source, p)
    ensures Settled(cfg, source, FillIn(view, force, p, p.pending))
    ensures FilledIn(p, FillIn(view, force, p, p.pending), p.pending)
  {
    PendingIsWellKeyed(cfg, view, memory, source, p);
    forall item | item in p.pending ensures item.key !in view.existing && item.key !in p.next && HasKey(source, item.key) {
      assert Asked(cfg, view, memory, source, item);
      var x :| x in source && item == ItemOf(cfg, x.key, x.text) && DecideFor(cfg, view, memory, x).Ask?;
      assert DoneAsDecided(cfg, view, memory, p, x);
    }
    FillInUsesEnglish(cfg, view, force, p, p.pending);
    var f := FillIn(view, force, p, p.pending);
    forall pair | pair in source
      ensures pair.key in f.next && SettledPair(cfg, f.memory, f.next[pair.key], pair.key in f.fallbacks, pair)
    {
      assert DoneAsDecided(cfg, view, memory, p, pair);
      ByTextHashMeaning(memory, cfg.locale, cfg.hashText(pair.text));
      if DecideFor(cfg, view, memory, pair).Ask? {
        assert ItemOf(cfg, pair.key, pair.text) in p.pending;
      } else {
        DecidedIsSettled(cfg, view, memory, source, p, pair);
        NotAsked(cfg, view, memory, source, p, pair);
      }
    }
  }

  lemma ProviderAdopts(cfg: Config, p: Progress, agent: Translator.Agent, stamp: string -> string)
    requires Sane(cfg) && cfg.allowTranslate && Valid(p.memory) && WellKeyed(cfg, p.pending)
    ensures var result := Provide(cfg, p, agent, stamp).0;
            result.Ok? ==> Adopted(cfg, stamp, p, result.value, p.pending)
  {
    if p.pending != [] {
      PlanIsPlan([], p.pending, cfg.budget);
      assert [] + p.pending == p.pending;
      TranslateAllAdopts(cfg, p, Plan(p.pending, cfg.budget), agent, IDLE, stamp);
    }
  }

  lemma {:induction false} ForceIsNotRead(cfg: Config, view: View, memory: seq<Entry>, source: seq<Pair>, p: Progress, items: seq<Item>)
    requires !cfg.allowTranslate
    requires forall item | item in items :: Asked(cfg, view, memory, source, item)
    ensures FillIn(view, true, p, items) == FillIn(view, false, p, items)
  {
    if items == [] {
    } else {
      var item := items[|items| - 1];
      ForceIsNotRead(cfg, view, memory, source, p, items[..|items| - 1]);
      assert Asked(cfg, view, memory, source, item);
    }
  }

  /** After the three passes every string is settled, and with a provider none is a fallback. */
  lemma RunSettles(cfg: Config, view: View, memory: seq<Entry>, source: seq<Pair>, agent: Translator.Agent, stamp: string -> string, force: bool)
    requires Sane(cfg) && Valid(memory) && DistinctPairs(source) && view.byText == ByTextHash(memory, cfg.locale)
    ensures match Provide(cfg, Reuse(cfg, view, memory, source), agent, stamp).0
            case Ok(q) =>
              var f := FillIn(view, force, q, q.pending);
              && Settled(cfg, source, f)
              && (cfg.allowTranslate ==> f.fallbacks == [])
              && f == FillIn(view, !force, q, q.pending)
            case Err(_) => true
  {
    var p := Reuse(cfg, view, memory, source);
    ReuseDoesAsDecided(cfg, view, memory, source);
    PendingIsWellKeyed(cfg, view, memory, source, p);
    var result := Provide(cfg, p, agent, stamp).0;
    if result.Ok? && cfg.allowTranslate {
      ProviderAdopts(cfg, p, agent, stamp);
      SettledWithProvider(cfg, stamp, view, memory, source, p, result.value, force);
      SettledWithProvider(cfg, stamp, view, memory, source, p, result.value, !force);
    } else if result.Ok? {
      SettledWithoutProvider(cfg, view, memory, source, p, force);
      ForceIsNotRead(cfg, view, memory, source, p, p.pending);
    }
  }

  // ---------------------------------------------------------------- where a value comes from

  /**
   * The value of a string and its fallback mark, given what the run read and what the provider
   * answered. With a provider a marked string is translated anew, except that a translation of the
   * same text is copied; without one an unknown string gets its English text and a mark.
   */
  ghost predicate WellFounded(cfg: Config, view: View, memory: seq<Entry>, answers: map<string, string>, pair: Pair,
                              value: string, marked: bool) {
    var textHash := cfg.hashText(pair.text);
    var refresh := pair.key in view.previousFallbacks;
    var stale := cfg.allowTranslate && refresh;
    var cached := Lookup(memory, Key(cfg, pair));
    var kept := pair.key in view.existing;
    var copied := textHash in view.byText && (refresh || !kept);
    && (cached.Some? && !stale ==> value == cached.value.translated)
    && ((cached.None? || stale) && copied ==> value == view.byText[textHash].translated)
    && ((cached.None? || stale) && !copied && kept && !stale ==> value == view.existing[pair.key])
    && ((cached.None? || stale) && !copied && (!kept || stale) && cfg.allowTranslate ==>
          pair.key in answers && value == answers[pair.key])
    && (cached.None? && !copied && !kept && !cfg.allowTranslate ==> value == pair.text)
    && (marked <==> !cfg.allowTranslate && if refresh then cached.Some? || !copied else cached.None? && !copied && !kept)
  }

  /** The same of the values that a run has arrived at. */
  ghost predicate Founded(cfg: Config, view: View, memory: seq<Entry>, answers: map<string, string>, f: Progress, pair: Pair) {
    pair.key in f.next && WellFounded(cfg, view, memory, answers, pair, f.next[pair.key], pair.key in f.fallbacks)
  }

  lemma DecidedIsFounded(cfg: Config, view: View, memory: seq<Entry>, source: seq<Pair>, p: Progress,
                         answers: map<string, string>, f: Progress, pair: Pair)
    requires pair in source
    requires Reused(cfg, view, memory, source, p) && !DecideFor(cfg, view, memory, pair).Ask?
    requires pair.key in f.next && f.next[pair.key] == p.next[pair.key]
    requires pair.key in f.fallbacks <==> pair.key in p.fallbacks
    ensures Founded(cfg, view, memory, answers, f, pair)
  {
    assert DoneAsDecided(cfg, view, memory, p, pair);
  }

  lemma FoundedWithProvider(cfg: Config, stamp: string -> string, view: View, memory: seq<Entry>, source: seq<Pair>, p: Progress,
                            answers: map<string, string>, q: Progress, pair: Pair)
    requires Sane(cfg) && DistinctPairs(source)
    requires cfg.allowTranslate && pair in source
    requires Reused(cfg, view, memory, source, p) && Adopted(cfg, stamp, p, q, p.pending) && q.fallbacks == []
    requires q.next == p.next + answers
    ensures Founded(cfg, view, memory, answers, q, pair)
  {
    ProviderLeavesNoFallback(cfg, view, memory, source, p);
    assert DoneAsDecided(cfg, view, memory, p, pair);
    if DecideFor(cfg, view, memory, pair).Ask? {
      assert Recorded(cfg, stamp, q, ItemOf(cfg, pair.key, pair.text));
    } else {
      NotAsked(cfg, view, memory, source, p, pair);
      DecidedIsFounded(cfg, view, memory, source, p, answers, q, pair);
    }
  }

  lemma FoundedWithoutProvider(cfg: Config, view: View, memory: seq<Entry>, source: seq<Pair>, p: Progress,
                               answers: map<string, string>, f: Progress, pair: Pair)
    requires Sane(cfg) && DistinctPairs(source)
    requires !cfg.allowTranslate && pair in source
    requires Reused(cfg, view, memory, source, p) && FilledIn(p, f, p.pending)
    ensures Founded(cfg, view, memory, answers, f, pair)
  {
    assert DoneAsDecided(cfg, view, memory, p, pair);
    if DecideFor(cfg, view, memory, pair).Ask? {
      assert ItemOf(cfg, pair.key, pair.text) in p.pending;
    } else {
      NotAsked(cfg, view, memory, source, p, pair);
      DecidedIsFounded(cfg, view, memory, source, p, answers, f, pair);
    }
  }

  /** After the three passes every value is well founded; the answers are those of the session's accepted prompts. */
  lemma EveryValueHasItsSource(cfg: Config, view: View, memory: seq<Entry>, source: seq<Pair>, agent: Translator.Agent,
                               stamp: string -> string, force: bool, pair: Pair)
    requires Sane(cfg) && Valid(memory) && DistinctPairs(source) && view.byText == ByTextHash(memory, cfg.locale) && pair in source
    ensures var (result, session) := Provide(cfg, Reuse(cfg, view, memory, source), agent, stamp);
            result.Ok? ==>
              Founded(cfg, view, memory, Translator.Harvest(session.log, agent),
                      FillIn(view, force, result.value, result.value.pending), pair)
  {
    var p := Reuse(cfg, view, memory, source);
    ReuseDoesAsDecided(cfg, view, memory, source);
    PendingIsWellKeyed(cfg, view, memory, source, p);
    var (result, session) := Provide(cfg, p, agent, stamp);
    var answers := Translator.Harvest(session.log, agent);
    if result.Ok? && cfg.allowTranslate {
      ProviderAdopts(cfg, p, agent, stamp);
      ProviderHarvests(cfg, p, agent, stamp);
      SettledWithProvider(cfg, stamp, view, memory, source, p, result.value, force);
      FoundedWithProvider(cfg, stamp, view, memory, source, p, answers, result.value, pair);
    } else if result.Ok? {
      SettledWithoutProvider(cfg, view, memory, source, p, force);
      FoundedWithoutProvider(cfg, view, memory, source, p, answers, FillIn(view, force, p, p.pending), pair);
    }
  }

  // ---------------------------------------------------------------- the next run

  /** What the next run reads reproduces the values and marks of this one. */
  ghost predicate Reads(cfg: Config, view: View, memory: seq<Entry>, source: seq<Pair>, f: Progress) {
    && Valid(memory)
    && view.byText == ByTextHash(memory, cfg.locale)
    && (forall entry :: entry in memory <==> entry in f.memory)
    && (forall pair | pair in source && pair.key in f.next :: pair.key in view.existing && view.existing[pair.key] == f.next[pair.key])
    && (forall key :: key in view.previousFallbacks <==> key in f.fallbacks)
  }

  lemma PairIsReproduced(cfg: Config, view: View, memory: seq<Entry>, source: seq<Pair>, f: Progress, pair: Pair)
    requires Sane(cfg) && Settled(cfg, source, f) && Reads(cfg, view, memory, source, f) && pair in source
    ensures var decision := DecideFor(cfg, view, memory, pair);
            && !decision.Ask? && !decision.FromText?
            && Value(decision) == f.next[pair.key]
            && (Marks(decision) <==> pair.key in f.fallbacks)
  {
    SameEntriesSameLookup(memory, f.memory, Key(cfg, pair));
    ByTextHashMeaning(memory, cfg.locale, cfg.hashText(pair.text));
    assert SettledPair(cfg, f.memory, f.next[pair.key], pair.key in f.fallbacks, pair);
    if HasText(memory, cfg.locale, cfg.hashText(pair.text)) {
      var entry :| entry in memory && Serves(entry, cfg.locale, cfg.hashText(pair.text));
      assert entry in f.memory;
    }
  }

  /** The first n pairs came out of the second run as they went into the files. */
  ghost predicate Reproduced(memory: seq<Entry>, source: seq<Pair>, f: Progress, n: nat, p: Progress)
    requires n <= |source| && forall i | 0 <= i < n :: source[i].key in f.next
  {
    && p.memory == memory && p.pending == []
    && (forall i | 0 <= i < n :: source[i].key in p.next && p.next[source[i].key] == f.next[source[i].key])
    && (forall key :: key in p.fallbacks <==> key in f.fallbacks && HasKey(source[..n], key))
  }

  lemma HasKeyOfLonger(source: seq<Pair>, n: nat, key: string)
    requires 0 < n <= |source|
    ensures HasKey(source[..n], key) <==> HasKey(source[..n - 1], key) || key == source[n - 1].key
  {
    assert source[..n] == source[..n - 1] + [source[n - 1]];
    if HasKey(source[..n - 1], key) {
      var other :| other in source[..n - 1] && other.key == key;
      assert other in source[..n];
    }
    assert source[n - 1] in source[..n];
  }

  lemma ReproduceNext(cfg: Config, view: View, memory: seq<Entry>, source: seq<Pair>, f: Progress, n: nat, p: Progress)
    requires Sane(cfg) && Settled(cfg, source, f) && Reads(cfg, view, memory, source, f) && 0 < n <= |source|
    requires Reproduced(memory, source, f, n - 1, p)
    ensures var pair := source[n - 1];
            Reproduced(memory, source, f, n, Apply(cfg, p, pair.key, pair.text, DecideFor(cfg, view, memory, pair)))
  {
    PairIsReproduced(cfg, view, memory, source, f, source[n - 1]);
    forall key ensures HasKey(source[..n], key) <==> HasKey(source[..n - 1], key) || key == source[n - 1].key {
      HasKeyOfLonger(source, n, key);
    }
  }

  lemma {:induction false} NothingIsLeftToDo(cfg: Config, view: View, memory: seq<Entry>, source: seq<Pair>, f: Progress, n: nat)
    requires Sane(cfg) && Settled(cfg, source, f) && Reads(cfg, view, memory, source, f) && n <= |source|
    ensures Reproduced(memory, source, f, n, Reuse(cfg, view, memory, source[..n]))
    decreases n
  {
    if n == 0 {
    } else {
      NothingIsLeftToDo(cfg, view, memory, source, f, n - 1);
      assert source[..n][..n - 1] == source[..n - 1];
      ReproduceNext(cfg, view, memory, source, f, n, Reuse(cfg, view, memory, source[..n - 1]));
    }
  }

  lemma OrderedMemory(memory: seq<Entry>, le: Order)
    requires IsTotal(le) && Valid(memory)
    ensures Valid(Ordered(memory, le))
    ensures forall entry :: entry in Ordered(memory, le) <==> entry in memory
    ensures Load(Ordered(memory, le)) == Ordered(memory, le)
    ensures Ordered(Ordered(memory, le), le) == Ordered(memory, le)
  {
    var key := (e: Entry) => e.cacheKey;
    assert DistinctKeys(memory, key);
    SortKeepsDistinctKeys(memory, key, le);
    SortSorts(memory, key, le);
    SortOfSorted(Sort(memory, key, le), key, le);
    var ordered := Ordered(memory, le);
    forall i | 0 <= i < |ordered| ensures GoodEntry(ordered[i]) {
      var j := IndexOf(memory, ordered[i]);
    }
    assert forall i, j | 0 <= i < j < |ordered| :: key(ordered[i]) != key(ordered[j]);
    LoadOfValid(ordered);
  }

  lemma {:induction false} ToMapOfDistinct(pairs: seq<Pair>)
    requires DistinctPairs(pairs)
    ensures forall i | 0 <= i < |pairs| :: pairs[i].key in ToMap(pairs) && ToMap(pairs)[pairs[i].key] == pairs[i].text
  {
    if pairs == [] {
    } else {
      ToMapOfDistinct(pairs[..|pairs| - 1]);
    }
  }

  /** The written locale file flattens to the chosen value of every source key. */
  lemma WrittenLocale(english: Forest, next: map<string, string>)
    requires GoodKeys(english)
    requires forall pair | pair in Flatten(english, "") :: pair.key in next
    ensures DistinctPairs(Flatten(english, ""))
    ensures var source := Flatten(english, "");
            var existing := ToMap(Flatten(Rebuild(Empty, Final(source, next)), ""));
            forall pair | pair in source :: pair.key in existing && existing[pair.key] == next[pair.key]
  {
    var source := Flatten(english, "");
    FlattenedKeysAreDistinct(english);
    var chosen := (key: string) => if key in next then next[key] else "";
    forall i | 0 <= i < |source| ensures source[i].key in next {
      assert source[i] in source;
    }
    assert Final(source, next) == Chosen(source, chosen);
    RebuildChosen(english, chosen);
    ToMapOfDistinct(Final(source, next));
    forall pair | pair in source
      ensures var existing := ToMap(Final(source, next));
              pair.key in existing && existing[pair.key] == next[pair.key]
    {
      var i := IndexOf(source, pair);
      assert Final(source, next)[i] == Pair(pair.key, next[pair.key]);
    }
  }

  lemma {:induction false} SameTextsSameMismatches(source: seq<(string, string)>, a: map<string, string>, b: map<string, string>, le: Order)
    requires forall i | 0 <= i < |source| :: Placeholders.TranslatedText(a, source[i].0) == Placeholders.TranslatedText(b, source[i].0)
    ensures Placeholders.MismatchesOf(source, a, le) == Placeholders.MismatchesOf(source, b, le)
  {
    if source == [] {
    } else {
      SameTextsSameMismatches(source[..|source| - 1], a, b, le);
    }
  }

  /** The three passes of a run, with what it reads from disk. */
  ghost function Passes(cfg: Config, options: Options, source: seq<Pair>, disk: Disk, agent: Translator.Agent, stamp: string -> string)
    : Result<Progress, string>
  {
    var view := ViewOf(cfg, disk);
    match Provide(cfg, Reuse(cfg, view, LoadStored(disk.memory), source), agent, stamp).0
    case Err(error) => Err(error)
    case Ok(q) => Ok(FillIn(view, options.force, q, q.pending))
  }

  lemma FinishWrites(cfg: Config, options: Options, source: seq<Pair>, sourceHash: string, disk: Disk, f: Progress, now: string)
    requires options.write && !options.checkOnly
    requires Finish(cfg, options, source, sourceHash, disk, f, now).0.Finished?
    ensures var (outcome, after) := Finish(cfg, options, source, sourceHash, disk, f, now);
            && Placeholders.MismatchesOf(Texts(source), f.next, cfg.le) == []
            && after == Expected(cfg, sourceHash, disk, source, f, now)
            && outcome.fallbackCount == |SortedSet(f.fallbacks, cfg.le)|
  {
  }

  lemma WriteBackIgnoresForce(options: Options, sourceHash: string, disk: Disk, expected: Disk)
    requires expected.meta.Present?
    ensures WriteBack(options, sourceHash, disk, expected) == WriteBack(options.(force := !options.force), sourceHash, disk, expected)
  {
  }

  lemma FinishIgnoresForce(cfg: Config, options: Options, source: seq<Pair>, sourceHash: string, disk: Disk, f: Progress, now: string)
    ensures Finish(cfg, options, source, sourceHash, disk, f, now)
         == Finish(cfg, options.(force := !options.force), source, sourceHash, disk, f, now)
  {
    WriteBackIgnoresForce(options, sourceHash, disk, Expected(cfg, sourceHash, disk, source, f, now));
  }

  lemma FinishCountsFallbacks(cfg: Config, options: Options, source: seq<Pair>, sourceHash: string, disk: Disk, f: Progress, now: string)
    requires f.fallbacks == []
    ensures var (outcome, after) := Finish(cfg, options, source, sourceHash, disk, f, now);
            outcome.Finished? ==>
              && outcome.fallbackCount == 0
              && (outcome.wrote ==> after.meta.Present? && after.meta.value.fallbackKeys == [])
  {
  }

  lemma MemoryIsValid(disk: Disk)
    ensures Valid(LoadStored(disk.memory))
  {
    if disk.memory.Present? {
      LoadIsValid(disk.memory.value);
    }
  }

  /** A run that finishes has come through its passes. */
  lemma FinishedRuns(cfg: Config, options: Options, english: Forest, sourceHash: string, disk: Disk,
                     agent: Translator.Agent, now: string, stamp: string -> string)
    requires Sync(cfg, options, english, sourceHash, disk, agent, now, stamp).0.Finished?
    ensures var source := Flatten(english, "");
            var f := Passes(cfg, options, source, disk, agent, stamp);
            var (outcome, after, _) := Sync(cfg, options, english, sourceHash, disk, agent, now, stamp);
            f.Ok? && (outcome, after) == Finish(cfg, options, source, sourceHash, disk, f.value, now)
  {
  }

  lemma PassesSettle(cfg: Config, options: Options, source: seq<Pair>, disk: Disk, agent: Translator.Agent, stamp: string -> string)
    requires Sane(cfg) && DistinctPairs(source)
    ensures var f := Passes(cfg, options, source, disk, agent, stamp);
            f.Ok? ==> Settled(cfg, source, f.value) && (cfg.allowTranslate ==> f.value.fallbacks == [])
  {
    MemoryIsValid(disk);
    RunSettles(cfg, ViewOf(cfg, disk), LoadStored(disk.memory), source, agent, stamp, options.force);
  }

  lemma FirstRun(cfg: Config, options: Options, english: Forest, sourceHash: string, disk: Disk,
                 agent: Translator.Agent, now: string, stamp: string -> string)
    requires Sane(cfg) && GoodKeys(english)
    requires options.write && !options.checkOnly
    requires Sync(cfg, options, english, sourceHash, disk, agent, now, stamp).0.Finished?
    ensures var source := Flatten(english, "");
            var f := Passes(cfg, options, source, disk, agent, stamp);
            && f.Ok? && DistinctPairs(source) && Settled(cfg, source, f.value)
            && (cfg.allowTranslate ==> f.value.fallbacks == [])
            && Placeholders.MismatchesOf(Texts(source), f.value.next, cfg.le) == []
            && var (outcome, after, _) := Sync(cfg, options, english, sourceHash, disk, agent, now, stamp);
               && after == Expected(cfg, sourceHash, disk, source, f.value, now)
               && outcome.fallbackCount == |SortedSet(f.value.fallbacks, cfg.le)|
  {
    FlattenedKeysAreDistinct(english);
    FinishedRuns(cfg, options, english, sourceHash, disk, agent, now, stamp);
    var source := Flatten(english, "");
    PassesSettle(cfg, options, source, disk, agent, stamp);
    FinishWrites(cfg, options, source, sourceHash, disk, Passes(cfg, options, source, disk, agent, stamp).value, now);
  }

  /** What the next run reads from the files that a completed write left. */
  lemma NextRunReads(cfg: Config, english: Forest, sourceHash: string, disk: Disk, f: Progress, now: string)
    requires Sane(cfg) && GoodKeys(english)
    requires Settled(cfg, Flatten(english, ""), f)
    ensures var written := Expected(cfg, sourceHash, disk, Flatten(english, ""), f, now);
            && LoadStored(written.memory) == Ordered(f.memory, cfg.le)
            && Reads(cfg, ViewOf(cfg, written), LoadStored(written.memory), Flatten(english, ""), f)
  {
    var source := Flatten(english, "");
    OrderedMemory(f.memory, cfg.le);
    WrittenLocale(english, f.next);
    SortedSetIsCanonical(f.fallbacks, f.fallbacks, cfg.le);
  }

  /** The metadata of the second run is that of the first, down to the timestamp. */
  lemma SameMeta(cfg: Config, source: seq<Pair>, sourceHash: string, disk: Disk, f: Progress, now: string, fallbacks: seq<string>, now': string)
    requires SortedSet(fallbacks, cfg.le) == SortedSet(f.fallbacks, cfg.le)
    ensures var meta := Expected(cfg, sourceHash, disk, source, f, now).meta;
            NextMeta(cfg, sourceHash, meta, source, fallbacks, now') == meta.value
  {
  }

  /** What the second run would write is what is there. */
  lemma SameFiles(cfg: Config, source: seq<Pair>, sourceHash: string, disk: Disk, f: Progress, now: string, p: Progress, now': string)
    requires Sane(cfg) && Settled(cfg, source, f)
    requires p.memory == Ordered(f.memory, cfg.le)
    requires forall i | 0 <= i < |source| :: source[i].key in p.next && source[i].key in f.next && p.next[source[i].key] == f.next[source[i].key]
    requires forall key :: key in p.fallbacks <==> key in f.fallbacks
    ensures var written := Expected(cfg, sourceHash, disk, source, f, now);
            Expected(cfg, sourceHash, written, source, p, now') == written
  {
    assert Final(source, p.next) == Final(source, f.next);
    SortedSetIsCanonical(p.fallbacks, f.fallbacks, cfg.le);
    OrderedMemory(f.memory, cfg.le);
    SameMeta(cfg, source, sourceHash, disk, f, now, p.fallbacks, now');
  }

  lemma NothingChanged(cfg: Config, options: Options, source: seq<Pair>, sourceHash: string, disk: Disk, p: Progress, now: string)
    requires Placeholders.MismatchesOf(Texts(source), p.next, cfg.le) == []
    requires Expected(cfg, sourceHash, disk, source, p, now) == disk
    ensures Finish(cfg, options, source, sourceHash, disk, p, now)
         == (Finished(false, |SortedSet(p.fallbacks, cfg.le)|, false), disk)
  {
  }

  lemma NextRunConcludes(cfg: Config, options: Options, source: seq<Pair>, sourceHash: string, disk: Disk, f: Progress, now: string,
                         p: Progress, now': string)
    requires Sane(cfg) && Settled(cfg, source, f)
    requires p.memory == Ordered(f.memory, cfg.le) && p.pending == []
    requires forall i | 0 <= i < |source| :: source[i].key in p.next && source[i].key in f.next && p.next[source[i].key] == f.next[source[i].key]
    requires forall key :: key in p.fallbacks <==> key in f.fallbacks
    requires Placeholders.MismatchesOf(Texts(source), f.next, cfg.le) == []
    ensures var written := Expected(cfg, sourceHash, disk, source, f, now);
            Conclude(cfg, options, source, sourceHash, written, p, now')
            == (Finished(false, |SortedSet(f.fallbacks, cfg.le)|, false), written)
  {
    var written := Expected(cfg, sourceHash, disk, source, f, now);
    SameTextsSameMismatches(Texts(source), p.next, f.next, cfg.le);
    SameFiles(cfg, source, sourceHash, disk, f, now, p, now');
    NothingChanged(cfg, options, source, sourceHash, written, p, now');
    SortedSetIsCanonical(p.fallbacks, f.fallbacks, cfg.le);
  }

  lemma NothingToProvide(cfg: Config, view: View, force: bool, p: Progress, agent: Translator.Agent, stamp: string -> string)
    requires p.pending == []
    ensures Provide(cfg, p, agent, stamp) == (Ok(p), IDLE) && FillIn(view, force, p, p.pending) == p
  {
  }

  /** A run over the files that a completed write of these values left. */
  lemma RunOverWrittenFiles(cfg: Config, options: Options, english: Forest, sourceHash: string, disk: Disk, f: Progress, now: string,
                            agent: Translator.Agent, now': string, stamp: string -> string)
    requires Sane(cfg) && GoodKeys(english)
    requires Settled(cfg, Flatten(english, ""), f)
    requires Placeholders.MismatchesOf(Texts(Flatten(english, "")), f.next, cfg.le) == []
    ensures var written := Expected(cfg, sourceHash, disk, Flatten(english, ""), f, now);
            Sync(cfg, options, english, sourceHash, written, agent, now', stamp)
            == (Finished(false, |SortedSet(f.fallbacks, cfg.le)|, false), written, IDLE)
  {
    var source := Flatten(english, "");
    var written := Expected(cfg, sourceHash, disk, source, f, now);
    var view, memory := ViewOf(cfg, written), LoadStored(written.memory);
    NextRunReads(cfg, english, sourceHash, disk, f, now);
    NothingIsLeftToDo(cfg, view, memory, source, f, |source|);
    assert source[..|source|] == source;
    var p := Reuse(cfg, view, memory, source);
    NothingToProvide(cfg, view, options.force, p, agent, stamp);
    forall i | 0 <= i < |source| ensures source[i].key in f.next {
      assert source[i] in source;
    }
    NextRunConcludes(cfg, options, source, sourceHash, disk, f, now, p, now');
  }

  /**
   * Rerunning after a completed write changes nothing: no prompt is sent, the run finishes, the
   * number of fallbacks is the same, nothing is written and every file, down to the timestamp in
   * the metadata, is already what the run would write. The second run may have any options, any
   * provider behaviour and any clock.
   */
  lemma SyncConverges(cfg: Config, english: Forest, sourceHash: string, disk: Disk,
                      options: Options, agent: Translator.Agent, now: string, stamp: string -> string,
                      options': Options, agent': Translator.Agent, now': string, stamp': string -> string)
    requires Sane(cfg) && GoodKeys(english)
    requires options.write && !options.checkOnly
    requires Sync(cfg, options, english, sourceHash, disk, agent, now, stamp).0.Finished?
    ensures var (first, written, _) := Sync(cfg, options, english, sourceHash, disk, agent, now, stamp);
            Sync(cfg, options', english, sourceHash, written, agent', now', stamp')
            == (Finished(false, first.fallbackCount, false), written, IDLE)
  {
    FirstRun(cfg, options, english, sourceHash, disk, agent, now, stamp);
    var f := Passes(cfg, options, Flatten(english, ""), disk, agent, stamp).value;
    RunOverWrittenFiles(cfg, options', english, sourceHash, disk, f, now, agent', now', stamp');
  }

  /** A string's value and mark in the files afterwards, given the files before and the session with the agent. */
  ghost predicate FilesAreFounded(cfg: Config, disk: Disk, after: Disk, session: Translator.Session, agent: Translator.Agent, pair: Pair) {
    var answers := Translator.Harvest(session.log, agent);
    && after.locale.Present? && after.meta.Present?
    && var written := ToMap(Flatten(after.locale.value, ""));
    && pair.key in written
    && WellFounded(cfg, ViewOf(cfg, disk), LoadStored(disk.memory), answers, pair,
                   written[pair.key], pair.key in after.meta.value.fallbackKeys)
    && (pair.key in answers ==>
          exists prompt | prompt in session.log :: Translator.Answers(prompt, agent, pair.key, answers[pair.key]))
  }

  /** The files that are written hold the values and marks of the run. */
  lemma WrittenIsFounded(cfg: Config, english: Forest, sourceHash: string, disk: Disk, f: Progress, now: string,
                         session: Translator.Session, agent: Translator.Agent, pair: Pair)
    requires Sane(cfg) && GoodKeys(english) && pair in Flatten(english, "")
    requires forall other | other in Flatten(english, "") :: other.key in f.next
    requires Founded(cfg, ViewOf(cfg, disk), LoadStored(disk.memory), Translator.Harvest(session.log, agent), f, pair)
    ensures FilesAreFounded(cfg, disk, Expected(cfg, sourceHash, disk, Flatten(english, ""), f, now), session, agent, pair)
  {
    WrittenLocale(english, f.next);
    SortedSetIsCanonical(f.fallbacks, f.fallbacks, cfg.le);
    if pair.key in Translator.Harvest(session.log, agent) {
      Translator.HarvestIsAnswered(session.log, agent, pair.key);
    }
  }

  lemma SessionOfSync(cfg: Config, options: Options, english: Forest, sourceHash: string, disk: Disk,
                      agent: Translator.Agent, now: string, stamp: string -> string)
    ensures Sync(cfg, options, english, sourceHash, disk, agent, now, stamp).2
         == Provide(cfg, Reuse(cfg, ViewOf(cfg, disk), LoadStored(disk.memory), Flatten(english, "")), agent, stamp).1
  {
  }

  lemma PassesAreFounded(cfg: Config, options: Options, english: Forest, disk: Disk, agent: Translator.Agent,
                         stamp: string -> string, pair: Pair) returns (session: Translator.Session)
    requires Sane(cfg) && GoodKeys(english) && pair in Flatten(english, "")
    requires Passes(cfg, options, Flatten(english, ""), disk, agent, stamp).Ok?
    ensures session == Provide(cfg, Reuse(cfg, ViewOf(cfg, disk), LoadStored(disk.memory), Flatten(english, "")), agent, stamp).1
    ensures Founded(cfg, ViewOf(cfg, disk), LoadStored(disk.memory), Translator.Harvest(session.log, agent),
                    Passes(cfg, options, Flatten(english, ""), disk, agent, stamp).value, pair)
  {
    var source, view, memory := Flatten(english, ""), ViewOf(cfg, disk), LoadStored(disk.memory);
    FlattenedKeysAreDistinct(english);
    MemoryIsValid(disk);
    EveryValueHasItsSource(cfg, view, memory, source, agent, stamp, options.force, pair);
    session := Provide(cfg, Reuse(cfg, view, memory, source), agent, stamp).1;
  }

  /**
   * What a completed write leaves in the files: the locale flattens to a well-founded value for every
   * string, the metadata lists exactly the marked ones, and an answer that was used was given to an
   * accepted prompt of this run that asked for that string.
   */
  lemma EveryWrittenValueHasItsSource(cfg: Config, options: Options, english: Forest, sourceHash: string, disk: Disk,
                                      agent: Translator.Agent, now: string, stamp: string -> string, pair: Pair)
    requires Sane(cfg) && GoodKeys(english) && pair in Flatten(english, "")
    requires options.write && !options.checkOnly
    requires Sync(cfg, options, english, sourceHash, disk, agent, now, stamp).0.Finished?
    ensures var (_, after, session) := Sync(cfg, options, english, sourceHash, disk, agent, now, stamp);
            FilesAreFounded(cfg, disk, after, session, agent, pair)
  {
    FirstRun(cfg, options, english, sourceHash, disk, agent, now, stamp);
    SessionOfSync(cfg, options, english, sourceHash, disk, agent, now, stamp);
    var session := PassesAreFounded(cfg, options, english, disk, agent, stamp, pair);
    var f := Passes(cfg, options, Flatten(english, ""), disk, agent, stamp).value;
    WrittenIsFounded(cfg, english, sourceHash, disk, f, now, session, agent, pair);
  }

  /** With a provider, a run that finishes leaves no fallback key. */
  lemma ProviderClearsFallbacks(cfg: Config, options: Options, english: Forest, sourceHash: string, disk: Disk,
                                agent: Translator.Agent, now: string, stamp: string -> string)
    requires Sane(cfg) && GoodKeys(english) && cfg.allowTranslate
    ensures var (outcome, after, _) := Sync(cfg, options, english, sourceHash, disk, agent, now, stamp);
            outcome.Finished? ==>
              && outcome.fallbackCount == 0
              && (outcome.wrote ==> after.meta.Present? && after.meta.value.fallbackKeys == [])
  {
    FlattenedKeysAreDistinct(english);
    MemoryIsValid(disk);
    var source, view, memory := Flatten(english, ""), ViewOf(cfg, disk), LoadStored(disk.memory);
    RunSettles(cfg, view, memory, source, agent, stamp, options.force);
    var translated := Provide(cfg, Reuse(cfg, view, memory, source), agent, stamp).0;
    if translated.Ok? {
      var f := FillIn(view, options.force, translated.value, translated.value.pending);
      FinishCountsFallbacks(cfg, options, source, sourceHash, disk, f, now);
    }
  }

  /**
   * `--force` has no effect on a locale: the branch that would keep an existing translation only
   * without it is never reached, and it never decides whether files are written.
   */
  lemma ForceChangesNothing(cfg: Config, options: Options, english: Forest, sourceHash: string, disk: Disk,
                            agent: Translator.Agent, now: string, stamp: string -> string)
    requires Sane(cfg) && GoodKeys(english)
    ensures Sync(cfg, options, english, sourceHash, disk, agent, now, stamp)
         == Sync(cfg, options.(force := !options.force), english, sourceHash, disk, agent, now, stamp)
  {
    FlattenedKeysAreDistinct(english);
    MemoryIsValid(disk);
    var source, view, memory := Flatten(english, ""), ViewOf(cfg, disk), LoadStored(disk.memory);
    RunSettles(cfg, view, memory, source, agent, stamp, options.force);
    var translated := Provide(cfg, Reuse(cfg, view, memory, source), agent, stamp).0;
    if translated.Ok? {
      var f := FillIn(view, options.force, translated.value, translated.value.pending);
      FinishIgnoresForce(cfg, options, source, sourceHash, disk, f, now);
    }
  }
}
