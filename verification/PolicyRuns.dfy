/** Invariants of every policy run, through decides, flushes, failed writes and restarts. */
module PolicyRuns {
  import opened Numbers
  import opened Bandit
  import opened BanditBounds
  import opened Episodes
  import opened EpisodeHistory
  import opened Ledgers
  import opened Policy

  // ---------------------------------------------------------------- the pending credit

  /** The pending action is the choice for its bucket as it stands, last used at this tick. */
  ghost predicate Awaited(cfg: Config, s: Store, p: PendingCredit)
    requires Usable(cfg)
  {
    && p.key in s.buckets
    && s.buckets[p.key].lastUsed == s.tick
    && p.governor == Choose(cfg.math, s.buckets[p.key].tally, cfg.actions, cfg.prior(p.key)).governor
  }

  ghost predicate Linked(cfg: Config, s: System)
    requires Usable(cfg)
  {
    && Durable(cfg.cap, s.ledger)
    && (s.primed <==> s.pending.Some?)
    && (s.primed ==> s.last.Some?)
    && (s.pending.Some? ==> Awaited(cfg, s.ledger.store, s.pending.value))
  }

  lemma CreditKeepsStore(m: Ledger, op: Op, writes: bool)
    ensures Credited(m, op, writes).store == Apply(m.store, op)
    ensures History(Credited(m, op, writes)) == History(m) + [op]
    ensures Credited(m, op, writes).origin == m.origin
    ensures Credited(m, op, writes).base == m.base || Credited(m, op, writes).base == Apply(m.store, op)
    ensures var c := Credited(m, op, writes); c.synced == m.synced || c.synced == History(c)
  {
  }

  lemma SelectLinks(cfg: Config, m: Ledger, key: u64, victims: seq<u64>)
    requires Usable(cfg) && Legal(cfg.cap, m.store, Op.Select(key, victims))
    ensures Awaited(cfg, Apply(m.store, Op.Select(key, victims)),
                    PendingCredit(key, ChoiceFor(cfg, m, key).governor))
  {
    OpEffect(cfg.cap, m.store, Op.Select(key, victims), key);
  }

  lemma LinkedStep(cfg: Config, s: System, a: Action)
    requires Usable(cfg) && Linked(cfg, s) && Allowed(cfg, s, a)
    ensures Linked(cfg, Next(cfg, s, a)) && Next(cfg, s, a).ledger.origin == s.ledger.origin
  {
    match a
    case Decide(w, atCredit, atSelect, writes) =>
      var m := AfterCredit(s, w, atCredit, writes);
      if Credits(s) {
        CreditedIsDurable(cfg.cap, s.ledger, CreditOp(s, w, atCredit), writes);
      }
      SelectLinks(cfg, m, w.key, atSelect);
      RecordIsDurable(cfg.cap, m, Op.Select(w.key, atSelect));
    case Flush(writes) =>
      SyncIsDurable(cfg.cap, s.ledger);
    case Restart =>
      ReopenedIsDurable(cfg.cap, s.ledger);
  }

  lemma {:induction false} RunIsLinked(cfg: Config, s: Store, acts: seq<Action>)
    requires Usable(cfg) && AllowedRun(cfg, Start(s), acts)
    ensures Linked(cfg, Run(cfg, Start(s), acts))
    ensures Run(cfg, Start(s), acts).ledger.origin == s
  {
    if acts == [] {
    } else {
      var n := |acts| - 1;
      RunIsLinked(cfg, s, acts[..n]);
      LinkedStep(cfg, Run(cfg, Start(s), acts[..n]), acts[n]);
    }
  }

  /** A delayed credit always finds its bucket, so it can evict nothing and create nothing. */
  lemma CreditFindsItsBucket(cfg: Config, s: Store, acts: seq<Action>)
    requires Usable(cfg) && AllowedRun(cfg, Start(s), acts)
    ensures var now := Run(cfg, Start(s), acts);
            Credits(now) ==>
              && now.pending.value.key in now.ledger.store.buckets
              && forall w, victims :: Legal(cfg.cap, now.ledger.store, CreditOp(now, w, victims)) <==> victims == []
  {
    RunIsLinked(cfg, s, acts);
  }

  // ---------------------------------------------------------------- every bucket is guided

  ghost predicate GuidedAt(cfg: Config, log: seq<Op>, key: u64)
    requires Usable(cfg)
  {
    Guided(cfg.math, cfg.actions, cfg.prior(key), CreditsSince(log, key))
  }

  /** An operation keeps a bucket guided if a credit to it goes to the current choice. */
  lemma GuidedStep(cfg: Config, log: seq<Op>, op: Op, key: u64)
    requires Usable(cfg) && GuidedAt(cfg, log, key)
    requires op.Update? && op.key == key ==>
               op.governor == Choose(cfg.math, Fold(CreditsSince(log, key)), cfg.actions, cfg.prior(key)).governor
    ensures GuidedAt(cfg, log + [op], key)
  {
    HistoryStep(log, op, key);
    var cs := CreditsSince(log, key);
    if op.Update? && op.key == key {
      GuidedSnoc(cfg.math, cfg.actions, cfg.prior(key), cs, CreditOf(op));
    }
  }

  /** The tally of a bucket in a store reached from an empty one, by its history. */
  lemma TallyByHistory(cap: nat, m: Ledger, key: u64)
    requires cap >= 1 && Durable(cap, m) && m.origin == FRESH
    ensures Agrees(m.store, History(m), key)
    ensures TallyOf(m.store.buckets, key) == Fold(CreditsSince(History(m), key))
  {
    HistoryReplays(cap, m);
    StoreAgreesWithHistory(cap, History(m), key);
    if key !in m.store.buckets {
      DeadKeysHaveNoCredits(History(m), key);
    }
  }

  lemma CreditIsGuided(cfg: Config, s: System, w: Window, key: u64)
    requires Usable(cfg) && Linked(cfg, s) && s.ledger.origin == FRESH && Credits(s)
    requires GuidedAt(cfg, History(s.ledger), key)
    ensures GuidedAt(cfg, History(s.ledger) + [CreditOp(s, w, [])], key)
  {
    TallyByHistory(cfg.cap, s.ledger, key);
    GuidedStep(cfg, History(s.ledger), CreditOp(s, w, []), key);
  }

  ghost predicate GuidedBoth(cfg: Config, m: Ledger, key: u64)
    requires Usable(cfg)
  {
    GuidedAt(cfg, History(m), key) && GuidedAt(cfg, m.synced, key)
  }

  lemma CreditStepGuided(cfg: Config, s: System, w: Window, atCredit: seq<u64>, writes: bool, key: u64)
    requires Usable(cfg) && Linked(cfg, s) && s.ledger.origin == FRESH
    requires Credits(s) ==> atCredit == []
    requires GuidedBoth(cfg, s.ledger, key)
    ensures GuidedBoth(cfg, AfterCredit(s, w, atCredit, writes), key)
  {
    if Credits(s) {
      CreditIsGuided(cfg, s, w, key);
      CreditKeepsStore(s.ledger, CreditOp(s, w, []), writes);
    }
  }

  lemma SelectStepGuided(cfg: Config, m: Ledger, op: Op, key: u64)
    requires Usable(cfg) && op.Select? && GuidedBoth(cfg, m, key)
    ensures GuidedBoth(cfg, Record(m, op), key)
  {
    GuidedStep(cfg, History(m), op, key);
    assert History(Record(m, op)) == History(m) + [op];
  }

  lemma GuidedBothStep(cfg: Config, s: System, a: Action, key: u64)
    requires Usable(cfg) && Linked(cfg, s) && s.ledger.origin == FRESH && Allowed(cfg, s, a)
    requires GuidedBoth(cfg, s.ledger, key)
    ensures GuidedBoth(cfg, Next(cfg, s, a).ledger, key)
  {
    match a
    case Decide(w, atCredit, atSelect, writes) =>
      CreditStepGuided(cfg, s, w, atCredit, writes, key);
      var m := AfterCredit(s, w, atCredit, writes);
      SelectStepGuided(cfg, m, Op.Select(w.key, atSelect), key);
    case Flush(writes) =>
      assert History(Sync(s.ledger)) == History(s.ledger);
    case Restart =>
      assert History(Reopened(s.ledger)) == s.ledger.synced;
  }

  /**
   Runs decompose by bucket: the credits a bucket got since its last eviction all went to the
   governor chosen for it at that point, and its tally is the fold of those credits.
   */
  lemma {:induction false} BucketsAreGuided(cfg: Config, acts: seq<Action>, key: u64)
    requires Usable(cfg) && AllowedRun(cfg, Start(FRESH), acts)
    ensures var m := Run(cfg, Start(FRESH), acts).ledger;
            && GuidedBoth(cfg, m, key)
            && TallyOf(m.store.buckets, key) == Fold(CreditsSince(History(m), key))
  {
    RunIsLinked(cfg, FRESH, acts);
    TallyByHistory(cfg.cap, Run(cfg, Start(FRESH), acts).ledger, key);
    if acts == [] {
    } else {
      var n := |acts| - 1;
      BucketsAreGuided(cfg, acts[..n], key);
      RunIsLinked(cfg, FRESH, acts[..n]);
      GuidedBothStep(cfg, Run(cfg, Start(FRESH), acts[..n]), acts[n], key);
    }
  }
}
