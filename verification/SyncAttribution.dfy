/**
 * The RPC client, the translator and the synchronisation together: over a whole run of syncLocale, with
 * all its batches, retries and splits, no answer is attached to another prompt.
 */
module SyncAttribution {
  import opened Prelude
  import opened BatchPlanner
  import LocaleSync
  import LocaleTree
  import RpcClient
  import Translator

  lemma {:induction false} BatchesKeepDiscipline(
      cfg: LocaleSync.Config, p: LocaleSync.Progress, batches: seq<seq<Item>>, agent: Translator.Agent,
      session: Translator.Session, stamp: string -> string)
    requires Translator.Disciplined(session)
    ensures Translator.Disciplined(LocaleSync.TranslateAll(cfg, p, batches, agent, session, stamp).1)
    decreases |batches|
  {
    if batches == [] {
    } else {
      var (result, after) := Translator.Run(batches[0], "", 0, agent, session);
      Translator.FailureEndsTheClient(batches[0], "", 0, agent, session);
      if result.Ok? {
        BatchesKeepDiscipline(cfg, LocaleSync.Adopt(cfg, p, batches[0], result.value, stamp), batches[1..], agent, after, stamp);
      }
    }
  }

  /** In the session of a whole provider pass, only the last prompt on a client can have failed. */
  lemma ProviderKeepsDiscipline(cfg: LocaleSync.Config, reused: LocaleSync.Progress, agent: Translator.Agent, stamp: string -> string)
    ensures Translator.Disciplined(LocaleSync.Provide(cfg, reused, agent, stamp).1)
  {
    if cfg.allowTranslate && reused.pending != [] {
      BatchesKeepDiscipline(cfg, reused, Plan(reused.pending, cfg.budget), agent, LocaleSync.IDLE, stamp);
    }
  }

  lemma {:induction false} BatchesKeepClients(
      cfg: LocaleSync.Config, p: LocaleSync.Progress, batches: seq<seq<Item>>, agent: Translator.Agent,
      session: Translator.Session, stamp: string -> string)
    requires Translator.OneClientPerStretch(session)
    ensures Translator.OneClientPerStretch(LocaleSync.TranslateAll(cfg, p, batches, agent, session, stamp).1)
    decreases |batches|
  {
    if batches == [] {
    } else {
      var (result, after) := Translator.Run(batches[0], "", 0, agent, session);
      Translator.ClientsAreKept(batches[0], "", 0, agent, session);
      if result.Ok? {
        BatchesKeepClients(cfg, LocaleSync.Adopt(cfg, p, batches[0], result.value, stamp), batches[1..], agent, after, stamp);
      }
    }
  }

  /**
   * Over all batches of a run one client is used as long as its prompts are accepted, a new one is
   * started only after a failure, and none is left when the run is over.
   */
  lemma ProviderReusesClients(cfg: LocaleSync.Config, reused: LocaleSync.Progress, agent: Translator.Agent, stamp: string -> string)
    ensures var session := LocaleSync.Provide(cfg, reused, agent, stamp).1;
            Translator.ClientsFollow(session.log) && !session.live
  {
    if cfg.allowTranslate && reused.pending != [] {
      BatchesKeepClients(cfg, reused, Plan(reused.pending, cfg.budget), agent, LocaleSync.IDLE, stamp);
    }
  }

  /**
   * However a run of syncLocale goes, and in whatever order lines, timeouts, write errors and exits
   * arrive at the clients it uses: on each of them a resolved prompt carries the text of the one line in
   * which the agent ended that prompt.
   */
  lemma SyncedAnswersAreNotMisattributed(
      cfg: LocaleSync.Config, options: LocaleSync.Options, english: LocaleTree.Forest, sourceHash: string, disk: LocaleSync.Disk,
      agent: Translator.Agent, now: string, stamp: string -> string,
      client: nat, events: seq<RpcClient.Event>, end: RpcClient.Client, timeoutMs: nat)
    requires var session := LocaleSync.Sync(cfg, options, english, sourceHash, disk, agent, now, stamp).2;
             RpcClient.PromptedBy(RpcClient.PromptsOn(session.log, client), RpcClient.FRESH, 0, events, end, timeoutMs)
    ensures RpcClient.RightlyAttributed(end) && RpcClient.RightlyAnswered(end, events)
  {
    var source := LocaleTree.Flatten(english, "");
    var memory := LocaleSync.LoadStored(disk.memory);
    var reused := LocaleSync.Reuse(cfg, LocaleSync.ViewOf(cfg, disk), memory, source);
    ProviderKeepsDiscipline(cfg, reused, agent, stamp);
    var session := LocaleSync.Sync(cfg, options, english, sourceHash, disk, agent, now, stamp).2;
    RpcClient.DisciplineAttributes(session, client, events, end, timeoutMs);
  }
}
