/** What whole policy runs guarantee. */
module PolicyTheorems {
  import opened Numbers
  import opened Wrappers
  import opened Bandit
  import opened BanditBounds
  import opened Episodes
  import opened EpisodeHistory
  import opened Ledgers
  import opened Reward
  import opened Policy
  import opened PolicyRuns
  import opened Sequences

  /** The tally of a bucket after a run from an empty store. */
  function TallyAt(cfg: Config, acts: seq<Action>, key: u64): Tally
    requires Usable(cfg)
  {
    TallyOf(Run(cfg, Start(FRESH), acts).ledger.store.buckets, key)
  }

  /** The credits the bucket has got since its last eviction in such a run. */
  function CreditsAt(cfg: Config, acts: seq<Action>, key: u64): seq<Credit>
    requires Usable(cfg)
  {
    CreditsSince(History(Run(cfg, Start(FRESH), acts).ledger), key)
  }

  // ---------------------------------------------------------------- choices in every run

  /** A bucket without visits first gets the prior governor of its fingerprint. */
  lemma FreshBucketGetsPrior(cfg: Config, m: Ledger, key: u64)
    requires Usable(cfg) && cfg.prior(key) in cfg.actions && TallyOf(m.store.buckets, key) == EMPTY
    ensures ChoiceFor(cfg, m, key).governor == cfg.prior(key)
  {
    FirstChoiceIsPrior(cfg.math, cfg.actions, cfg.prior(key));
  }

  /** All averages of every reachable bucket lie in [0, 1] and belong to listed governors. */
  lemma AveragesInUnit(cfg: Config, acts: seq<Action>, key: u64)
    requires Usable(cfg) && AllowedRun(cfg, Start(FRESH), acts)
    ensures var t := TallyAt(cfg, acts, key);
            forall g :: g in t.arms ==> g in cfg.actions && InUnit(t.arms[g].ema)
  {
    BucketsAreGuided(cfg, acts, key);
    GuidedArms(cfg.math, cfg.actions, cfg.prior(key), CreditsAt(cfg, acts, key));
  }

  /** In every bucket of every run, a governor that earns d less gets few visits. */
  lemma RunsChooseWronglyRarely(cfg: Config, acts: seq<Action>, key: u64,
                                a: string, b: string, hi: real, d: real, dd: real)
    requires Usable(cfg) && AllowedRun(cfg, Start(FRESH), acts)
    requires Lawful(cfg.math) && b in cfg.actions
    requires d > 0.0 && dd == d * d && Separated(CreditsAt(cfg, acts, key), a, b, hi, d)
    ensures var t := TallyAt(cfg, acts, key);
            FewVisits(VisitsOf(t, a), cfg.math.ln((if t.total >= 1 then t.total else 1) as real + 1.0), dd)
  {
    BucketsAreGuided(cfg, acts, key);
    WrongChoicesAreLogarithmic(cfg.math, cfg.actions, cfg.prior(key), CreditsAt(cfg, acts, key), a, b, hi, d, dd);
  }

  /** In every bucket of every run, a governor that earns d more than its rivals gets all but few visits. */
  lemma RunsSettleOnTheBest(cfg: Config, acts: seq<Action>, key: u64,
                            b: string, hi: real, d: real, dd: real, most: nat)
    requires Usable(cfg) && AllowedRun(cfg, Start(FRESH), acts)
    requires Lawful(cfg.math) && b in cfg.actions
    requires d > 0.0 && dd == d * d && BestBy(CreditsAt(cfg, acts, key), cfg.actions, b, hi, d)
    requires var n := TallyAt(cfg, acts, key).total;
             most >= 5 && most as real * dd >= 0.49 * cfg.math.ln((if n >= 1 then n else 1) as real + 1.0)
    ensures var t := TallyAt(cfg, acts, key);
            VisitsOf(t, b) + most * |Rivals(cfg.actions, b)| >= t.total
  {
    BucketsAreGuided(cfg, acts, key);
    BestGovernorGetsTheRest(cfg.math, cfg.actions, cfg.prior(key), CreditsAt(cfg, acts, key), b, hi, d, dd, most);
  }

  /** In every run, a bucket with 5(k-1)+1 visits has tried each of the k listed governors. */
  lemma RunsTryEveryGovernor(cfg: Config, acts: seq<Action>, key: u64)
    requires Usable(cfg) && AllowedRun(cfg, Start(FRESH), acts) && Lawful(cfg.math)
    requires TallyAt(cfg, acts, key).total >= 5 * (|set a | a in cfg.actions| - 1) + 1
    ensures forall a :: a in cfg.actions ==> a in TallyAt(cfg, acts, key).arms
  {
    BucketsAreGuided(cfg, acts, key);
    EveryGovernorTried(cfg.math, cfg.actions, cfg.prior(key), CreditsAt(cfg, acts, key));
  }

  /** In every run, while a listed governor is unseen in a bucket, none with 5 visits is chosen there. */
  lemma RunsExploreFirst(cfg: Config, acts: seq<Action>, key: u64, unseen: string)
    requires Usable(cfg) && AllowedRun(cfg, Start(FRESH), acts) && Lawful(cfg.math)
    requires unseen in cfg.actions && unseen !in TallyAt(cfg, acts, key).arms
    ensures var t := TallyAt(cfg, acts, key);
            && VisitsOf(t, Choose(cfg.math, t, cfg.actions, cfg.prior(key)).governor) < 5
            && forall g :: VisitsOf(t, g) <= 5
  {
    BucketsAreGuided(cfg, acts, key);
    var cs := CreditsAt(cfg, acts, key);
    TriedYieldsToUnseen(cfg.math, cfg.actions, cfg.prior(key), cs, unseen);
    forall g
      ensures VisitsOf(Fold(cs), g) <= 5
    {
      FiveVisitsWhileUnseen(cfg.math, cfg.actions, cfg.prior(key), cs, unseen, g);
    }
  }

  /** In every bucket of every run, no listed governor falls behind another for ever. */
  lemma RunsAbandonNoGovernor(cfg: Config, acts: seq<Action>, key: u64, a: string, c: string)
    requires Usable(cfg) && AllowedRun(cfg, Start(FRESH), acts)
    requires Lawful(cfg.math) && a in cfg.actions
    ensures var t := TallyAt(cfg, acts, key);
            NotAbandoned(cfg.math, VisitsOf(t, a), VisitsOf(t, c))
  {
    BucketsAreGuided(cfg, acts, key);
    NoGovernorAbandoned(cfg.math, cfg.actions, cfg.prior(key), CreditsAt(cfg, acts, key), a, c);
  }

  /** In every bucket of every run, each listed governor gets at least a logarithmic share of the visits. */
  lemma RunsGiveEveryGovernorAShare(cfg: Config, acts: seq<Action>, key: u64, a: string, q: u32)
    requires Usable(cfg) && AllowedRun(cfg, Start(FRESH), acts)
    requires Lawful(cfg.math) && a in cfg.actions
    requires TallyAt(cfg, acts, key).total > q * |set g | g in cfg.actions|
    ensures HasShare(cfg.math, VisitsOf(TallyAt(cfg, acts, key), a), q)
  {
    BucketsAreGuided(cfg, acts, key);
    EveryGovernorGetsAShare(cfg.math, cfg.actions, cfg.prior(key), CreditsAt(cfg, acts, key), a, q);
  }

  /** Runs keep the number of buckets within the cap, in memory and in the file. */
  lemma RunsKeepCap(cfg: Config, acts: seq<Action>)
    requires Usable(cfg) && AllowedRun(cfg, Start(FRESH), acts)
    ensures var m := Run(cfg, Start(FRESH), acts).ledger;
            |m.store.buckets| <= cfg.cap && |m.base.buckets| <= cfg.cap
  {
    RunIsLinked(cfg, FRESH, acts);
    var m := Run(cfg, Start(FRESH), acts).ledger;
    CapIsKept(cfg.cap, FRESH, m.synced);
    CapIsKept(cfg.cap, m.base, m.unsaved);
  }

  // ---------------------------------------------------------------- unvisited buckets

  ghost predicate VisitedOrPending(s: System, key: u64) {
    key in s.ledger.store.buckets && s.ledger.store.buckets[key].tally.total == 0 ==>
      s.pending.Some? && s.pending.value.key == key
  }

  lemma CreditVisits(cfg: Config, s: System, w: Window, atCredit: seq<u64>, writes: bool, key: u64)
    requires Usable(cfg) && Linked(cfg, s) && VisitedOrPending(s, key)
    requires Credits(s) ==> atCredit == []
    ensures var bs := AfterCredit(s, w, atCredit, writes).store.buckets;
            key in bs ==> bs[key].tally.total > 0
  {
  }

  lemma VisitedStep(cfg: Config, s: System, a: Action, key: u64)
    requires Usable(cfg) && Linked(cfg, s) && Allowed(cfg, s, a) && !a.Restart? && VisitedOrPending(s, key)
    ensures VisitedOrPending(Next(cfg, s, a), key)
  {
    if a.Decide? {
      CreditVisits(cfg, s, a.window, a.atCredit, a.writes, key);
      var m := AfterCredit(s, a.window, a.atCredit, a.writes);
      OpEffect(cfg.cap, m.store, Op.Select(a.window.key, a.atSelect), key);
    }
  }

  /** Without a restart, only the bucket of the pending action can have no visits. */
  lemma {:induction false} OnlyPendingIsUnvisited(cfg: Config, acts: seq<Action>, key: u64)
    requires Usable(cfg) && AllowedRun(cfg, Start(FRESH), acts)
    requires forall a :: a in acts ==> !a.Restart?
    ensures VisitedOrPending(Run(cfg, Start(FRESH), acts), key)
  {
    if acts == [] {
    } else {
      var n := |acts| - 1;
      OnlyPendingIsUnvisited(cfg, acts[..n], key);
      RunIsLinked(cfg, FRESH, acts[..n]);
      VisitedStep(cfg, Run(cfg, Start(FRESH), acts[..n]), acts[n], key);
    }
  }

  // ---------------------------------------------------------------- exactly-once credits

  /** The credits in a log, in order. */
  function UpdatesOf(log: seq<Op>): seq<Op> {
    if log == [] then []
    else
      var n := |log| - 1;
      UpdatesOf(log[..n]) + (if log[n].Update? then [log[n]] else [])
  }

  predicate OneSession(acts: seq<Action>) {
    forall i :: 0 <= i < |acts| ==> acts[i].Decide?
  }

  /** The decisions of a session that starts with store `s`: fingerprints and chosen governors. */
  function DecisionsOf(cfg: Config, s: Store, acts: seq<Action>): (ds: seq<PendingCredit>)
    requires Usable(cfg) && OneSession(acts)
    ensures |ds| == |acts|
  {
    if acts == [] then []
    else
      var n := |acts| - 1;
      var before, a := Run(cfg, Start(s), acts[..n]), acts[n];
      var m := AfterCredit(before, a.window, a.atCredit, a.writes);
      DecisionsOf(cfg, s, acts[..n]) + [PendingCredit(a.window.key, ChoiceFor(cfg, m, a.window.key).governor)]
  }

  function ReadingsOf(acts: seq<Action>): seq<Reading>
    requires OneSession(acts)
  {
    seq(|acts|, i requires 0 <= i < |acts| => acts[i].window.reading)
  }

  /** The credit due to a decision: the reward of the window from its reading to the next. */
  function DueFor(d: PendingCredit, was: Reading, now: Reading): Op {
    Op.Update(d.key, [], d.governor, BalancedReward(WindowBetween(was, now), d.governor))
  }

  /** The credits due, in order: none for the last decision. */
  function AllDue(ds: seq<PendingCredit>, rs: seq<Reading>): seq<Op>
    requires |ds| == |rs|
  {
    seq(SatSub(|ds|, 1), i requires 0 <= i < |ds| - 1 => DueFor(ds[i], rs[i], rs[i + 1]))
  }

  lemma OneMoreDue(ds: seq<PendingCredit>, rs: seq<Reading>, d: PendingCredit, r: Reading)
    requires |ds| == |rs| > 0
    ensures AllDue(ds + [d], rs + [r]) == AllDue(ds, rs) + [DueFor(ds[|ds| - 1], rs[|rs| - 1], r)]
  {
  }

  lemma UpdatesStep(log: seq<Op>, op: Op)
    ensures UpdatesOf(log + [op]) == UpdatesOf(log) + (if op.Update? then [op] else [])
  {
    assert (log + [op])[..|log|] == log;
  }

  lemma CreditIsLogged(s: System, w: Window, atCredit: seq<u64>, writes: bool)
    requires Credits(s) ==> atCredit == []
    ensures UpdatesOf(History(AfterCredit(s, w, atCredit, writes))) ==
            UpdatesOf(History(s.ledger)) + (if Credits(s) then [CreditOp(s, w, [])] else [])
  {
    if Credits(s) {
      var op := CreditOp(s, w, []);
      CreditKeepsStore(s.ledger, op, writes);
      UpdatesStep(History(s.ledger), op);
    }
  }

  lemma SelectLogsNoCredit(m: Ledger, op: Op)
    requires op.Select?
    ensures UpdatesOf(History(Record(m, op))) == UpdatesOf(History(m))
  {
    assert History(Record(m, op)) == History(m) + [op];
    UpdatesStep(History(m), op);
  }

  /** A decide logs one credit if an action is pending, and no other. */
  lemma DecideLogsCredit(cfg: Config, s: System, a: Action)
    requires Usable(cfg) && Linked(cfg, s) && a.Decide? && Allowed(cfg, s, a)
    ensures UpdatesOf(History(Next(cfg, s, a).ledger)) ==
            UpdatesOf(History(s.ledger)) + (if Credits(s) then [CreditOp(s, a.window, [])] else [])
  {
    var m := AfterCredit(s, a.window, a.atCredit, a.writes);
    CreditIsLogged(s, a.window, a.atCredit, a.writes);
    SelectLogsNoCredit(m, Op.Select(a.window.key, a.atSelect));
  }

  /** After a session's last decide, its decision is pending. */
  lemma LastDecisionIsPending(cfg: Config, s: Store, acts: seq<Action>)
    requires Usable(cfg) && OneSession(acts) && acts != []
    ensures var n := |acts| - 1;
            var now, d := Run(cfg, Start(s), acts), DecisionsOf(cfg, s, acts)[n];
            && now.pending == Some(d) && now.primed
            && now.last == Some(ReadingsOf(acts)[n])
  {
  }

  lemma CreditOpIsDue(cfg: Config, s: Store, acts: seq<Action>, w: Window)
    requires Usable(cfg) && OneSession(acts) && acts != []
    ensures var n, now := |acts| - 1, Run(cfg, Start(s), acts);
            && Credits(now)
            && CreditOp(now, w, []) == DueFor(DecisionsOf(cfg, s, acts)[n], ReadingsOf(acts)[n], w.reading)
  {
    LastDecisionIsPending(cfg, s, acts);
  }

  lemma DecisionsGrow(cfg: Config, s: Store, acts: seq<Action>, a: Action) returns (d: PendingCredit)
    requires Usable(cfg) && OneSession(acts) && a.Decide?
    ensures DecisionsOf(cfg, s, acts + [a]) == DecisionsOf(cfg, s, acts) + [d]
  {
    assert (acts + [a])[..|acts|] == acts;
    d := DecisionsOf(cfg, s, acts + [a])[|acts|];
  }

  lemma ReadingsGrow(acts: seq<Action>, a: Action)
    requires OneSession(acts) && a.Decide?
    ensures ReadingsOf(acts + [a]) == ReadingsOf(acts) + [a.window.reading]
  {
  }

  lemma CreditsAfterFirst(cfg: Config, s: Store, acts: seq<Action>)
    requires Usable(cfg) && OneSession(acts)
    ensures Credits(Run(cfg, Start(s), acts)) <==> acts != []
  {
  }

  lemma DueStep(cfg: Config, s: Store, acts: seq<Action>, a: Action)
    requires Usable(cfg) && OneSession(acts) && acts != [] && a.Decide?
    requires Credits(Run(cfg, Start(s), acts))
    ensures AllDue(DecisionsOf(cfg, s, acts + [a]), ReadingsOf(acts + [a])) ==
            AllDue(DecisionsOf(cfg, s, acts), ReadingsOf(acts)) + [CreditOp(Run(cfg, Start(s), acts), a.window, [])]
  {
    var d := DecisionsGrow(cfg, s, acts, a);
    ReadingsGrow(acts, a);
    CreditOpIsDue(cfg, s, acts, a.window);
    OneMoreDue(DecisionsOf(cfg, s, acts), ReadingsOf(acts), d, a.window.reading);
  }

  /**
   After n decides of a session, exactly the first n-1 decisions have been credited, each once, in
   order, with the reward of the window that followed it; no credit evicted a bucket.
   */
  lemma {:induction false} CreditedExactlyOnce(cfg: Config, s: Store, acts: seq<Action>)
    requires Usable(cfg) && OneSession(acts) && AllowedRun(cfg, Start(s), acts)
    ensures UpdatesOf(History(Run(cfg, Start(s), acts).ledger)) ==
            AllDue(DecisionsOf(cfg, s, acts), ReadingsOf(acts))
  {
    if acts == [] {
    } else {
      var n := |acts| - 1;
      CreditedExactlyOnce(cfg, s, acts[..n]);
      RunIsLinked(cfg, s, acts[..n]);
      DecideLogsCredit(cfg, Run(cfg, Start(s), acts[..n]), acts[n]);
      CreditsAfterFirst(cfg, s, acts[..n]);
      SplitLast(acts);
      if n > 0 {
        DueStep(cfg, s, acts[..n], acts[n]);
      }
    }
  }

  // ---------------------------------------------------------------- every credit is earned

  /** Decide j is the next one after decide i, in the same session. */
  predicate NextDecide(acts: seq<Action>, i: nat, j: nat) {
    && i < j < |acts| && acts[i].Decide? && acts[j].Decide?
    && forall k :: i < k < j ==> acts[k].Flush?
  }

  /** The pending action stems from the last decide, in the current session. */
  lemma {:induction false} PendingHasDecide(cfg: Config, s: Store, acts: seq<Action>) returns (i: nat)
    requires Usable(cfg) && Run(cfg, Start(s), acts).pending.Some?
    ensures i < |acts| && acts[i].Decide? && forall k :: i < k < |acts| ==> acts[k].Flush?
    ensures var now := Run(cfg, Start(s), acts);
            now.pending.value.key == acts[i].window.key && now.last == Some(acts[i].window.reading)
  {
    var n := |acts| - 1;
    if acts[n].Flush? {
      i := PendingHasDecide(cfg, s, acts[..n]);
    } else {
      i := n;
    }
  }

  lemma DecideHistory(cfg: Config, s: System, a: Action)
    requires Usable(cfg) && Linked(cfg, s) && a.Decide? && Allowed(cfg, s, a)
    ensures History(Next(cfg, s, a).ledger) ==
            History(s.ledger) + (if Credits(s) then [CreditOp(s, a.window, [])] else []) +
            [Op.Select(a.window.key, a.atSelect)]
  {
    var m := AfterCredit(s, a.window, a.atCredit, a.writes);
    assert History(Record(m, Op.Select(a.window.key, a.atSelect))) ==
           History(m) + [Op.Select(a.window.key, a.atSelect)];
    if Credits(s) {
      CreditKeepsStore(s.ledger, CreditOp(s, a.window, []), a.writes);
    }
  }

  /** A step adds at most the pending action's credit to the credits in the history. */
  lemma NewCreditIsPending(cfg: Config, s: System, a: Action, op: Op)
    requires Usable(cfg) && Linked(cfg, s) && Allowed(cfg, s, a)
    requires op in History(Next(cfg, s, a).ledger) && op.Update? && op !in History(s.ledger)
    ensures a.Decide? && Credits(s) && op == CreditOp(s, a.window, [])
  {
    if a.Decide? {
      DecideHistory(cfg, s, a);
    }
  }

  lemma PendingIsDue(s: System, w: Window, was: Reading)
    requires s.pending.Some? && s.last == Some(was)
    ensures CreditOp(s, w, []) == DueFor(s.pending.value, was, w.reading)
  {
  }

  /** A credit that the last step made is due to the decide before it in the same session. */
  lemma NewCreditIsEarned(cfg: Config, s: Store, acts: seq<Action>, a: Action, op: Op)
    returns (i: nat, p: PendingCredit, was: Reading)
    requires Usable(cfg) && AllowedRun(cfg, Start(s), acts)
    requires var before := Run(cfg, Start(s), acts);
             && Allowed(cfg, before, a)
             && op in History(Next(cfg, before, a).ledger) && op.Update? && op !in History(before.ledger)
    ensures a.Decide? && NextDecide(acts + [a], i, |acts|) && i < |acts| && acts[i].Decide?
    ensures p.key == acts[i].window.key && was == acts[i].window.reading
    ensures op == DueFor(p, was, a.window.reading)
  {
    var before := Run(cfg, Start(s), acts);
    RunIsLinked(cfg, s, acts);
    NewCreditIsPending(cfg, before, a, op);
    i := PendingHasDecide(cfg, s, acts);
    p, was := before.pending.value, acts[i].window.reading;
    PendingIsDue(before, a.window, was);
  }

  /**
   Through flushes, failed writes and restarts, every credit in the history is due to a decide and
   paid for the window up to the next decide of the same session.
   */
  lemma {:induction false} EveryCreditIsEarned(cfg: Config, s: Store, acts: seq<Action>, op: Op)
    returns (i: nat, j: nat, p: PendingCredit, was: Reading, now: Reading)
    requires Usable(cfg) && AllowedRun(cfg, Start(s), acts)
    requires op in History(Run(cfg, Start(s), acts).ledger) && op.Update?
    ensures NextDecide(acts, i, j) && p.key == acts[i].window.key
    ensures was == acts[i].window.reading && now == acts[j].window.reading
    ensures op == DueFor(p, was, now)
  {
    var n := |acts| - 1;
    SplitLast(acts);
    if op in History(Run(cfg, Start(s), acts[..n]).ledger) {
      i, j, p, was, now := EveryCreditIsEarned(cfg, s, acts[..n], op);
    } else {
      i, p, was := NewCreditIsEarned(cfg, s, acts[..n], acts[n], op);
      j, now := n, acts[n].window.reading;
    }
  }

  // ---------------------------------------------------------------- an idle workload

  lemma {:induction false} CreditsComeFromUpdates(log: seq<Op>, key: u64, c: Credit) returns (op: Op)
    requires c in CreditsSince(log, key)
    ensures op in log && op.Update? && op.key == key && CreditOf(op) == c
  {
    var n := |log| - 1;
    if c in CreditsSince(log[..n], key) {
      op := CreditsComeFromUpdates(log[..n], key, c);
    } else {
      op := log[n];
    }
  }

  /** From each decide for this fingerprint to the next of its session, the counters show mostly idle ticks. */
  ghost predicate IdleAfter(acts: seq<Action>, key: u64) {
    forall i: nat, j: nat :: NextDecide(acts, i, j) && acts[i].window.key == key ==>
      MostlyIdle(acts[i].window.reading, acts[j].window.reading)
  }

  lemma DueKeepsKey(p: PendingCredit, was: Reading, now: Reading)
    ensures DueFor(p, was, now).Update? && DueFor(p, was, now).key == p.key
  {
  }

  lemma IdleCredit(p: PendingCredit, was: Reading, now: Reading)
    requires MostlyIdle(was, now)
    ensures var c := CreditOf(DueFor(p, was, now));
            && (c.governor == "performance" ==> c.reward <= 0.36)
            && (c.governor == "powersave" ==> c.reward >= 0.71)
  {
    SampledInRange(Some(was), now);
    MostlyIdleShows(was, now);
    ClampsAreIdle(WindowBetween(was, now), p.governor);
    IdleGap(WindowBetween(was, now));
  }

  lemma IdleSeparates(cfg: Config, acts: seq<Action>, key: u64)
    requires Usable(cfg) && AllowedRun(cfg, Start(FRESH), acts) && IdleAfter(acts, key)
    ensures Separated(CreditsAt(cfg, acts, key), "performance", "powersave", 0.36, 0.35)
  {
    forall c | c in CreditsAt(cfg, acts, key)
      ensures c.governor == "performance" ==> c.reward <= 0.36
      ensures c.governor == "powersave" ==> c.reward >= 0.71
    {
      var op := CreditsComeFromUpdates(History(Run(cfg, Start(FRESH), acts).ledger), key, c);
      var i, j, p, was, now := EveryCreditIsEarned(cfg, FRESH, acts, op);
      DueKeepsKey(p, was, now);
      IdleCredit(p, was, now);
    }
  }

  lemma FourLogs(v: u32, lnN: real)
    requires FewVisits(v, lnN, 0.1225)
    ensures v <= 5 || v as real <= 4.0 * lnN
  {
  }

  /**
   End to end, through flushes, failed writes and restarts: if the windows after a fingerprint stay
   mostly idle, "performance" has at most max(5, 4 ln_n) visits in its bucket, n counting its visits.
   */
  lemma IdleWorkloadRarelyGetsPerformance(cfg: Config, acts: seq<Action>, key: u64)
    requires Usable(cfg) && AllowedRun(cfg, Start(FRESH), acts)
    requires Lawful(cfg.math) && "powersave" in cfg.actions && IdleAfter(acts, key)
    ensures var t := TallyAt(cfg, acts, key);
            var v, n := VisitsOf(t, "performance"), t.total;
            v <= 5 || v as real <= 4.0 * cfg.math.ln((if n >= 1 then n else 1) as real + 1.0)
  {
    IdleSeparates(cfg, acts, key);
    RunsChooseWronglyRarely(cfg, acts, key, "performance", "powersave", 0.36, 0.35, 0.1225);
    var t := TallyAt(cfg, acts, key);
    FourLogs(VisitsOf(t, "performance"), cfg.math.ln((if t.total >= 1 then t.total else 1) as real + 1.0));
  }
}
