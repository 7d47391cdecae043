/** The clock of policy runs: last uses stay distinct, so evictions leave nothing to chance. */
module PolicyClock {
  import opened Numbers
  import opened Bandit
  import opened Episodes
  import opened Ledgers
  import opened Policy
  import opened PolicyRuns
  import opened Sequences

  /** No use lies in the future, and below the end of the clock all last uses are distinct. */
  ghost predicate Stamped(s: Store) {
    && (forall k :: k in s.buckets ==> s.buckets[k].lastUsed <= s.tick)
    && (s.tick < 0xFFFF_FFFF_FFFF_FFFF ==> DistinctUses(s.buckets))
  }

  /** A selection keeps last uses distinct exactly if the clock has not ended, or no other bucket saw its end. */
  lemma SelectStamps(cap: nat, s: Store, op: Op)
    requires op.Select? && Legal(cap, s, op)
    requires forall k :: k in s.buckets ==> s.buckets[k].lastUsed <= s.tick
    ensures var now := Apply(s, op);
            && (forall k :: k in now.buckets ==> now.buckets[k].lastUsed <= now.tick)
            && (DistinctUses(s.buckets) ==>
                  (DistinctUses(now.buckets) <==>
                     s.tick < 0xFFFF_FFFF_FFFF_FFFF ||
                     forall k :: k in now.buckets && k != op.key ==> now.buckets[k].lastUsed < 0xFFFF_FFFF_FFFF_FFFF))
  {
    var now := Apply(s, op);
    forall k | k in now.buckets
      ensures now.buckets[k].lastUsed <= now.tick
      ensures k == op.key ==> now.buckets[k].lastUsed == Succ64(s.tick)
      ensures k != op.key ==> k in s.buckets && now.buckets[k] == s.buckets[k]
    {
      OpEffect(cap, s, op, k);
    }
    OpEffect(cap, s, op, op.key);
  }

  /** A credit keeps last uses distinct exactly if no other surviving bucket was last used at this tick. */
  lemma CreditStamps(cap: nat, s: Store, op: Op)
    requires op.Update? && Legal(cap, s, op) && DistinctUses(s.buckets)
    ensures var now := Apply(s, op);
            DistinctUses(now.buckets) <==>
              forall k :: k in now.buckets && k != op.key ==> now.buckets[k].lastUsed != s.tick
  {
    var now := Apply(s, op);
    forall k | k in now.buckets
      ensures k == op.key ==> now.buckets[k].lastUsed == s.tick
      ensures k != op.key ==> k in s.buckets && now.buckets[k] == s.buckets[k]
    {
      OpEffect(cap, s, op, k);
    }
    OpEffect(cap, s, op, op.key);
  }

  lemma SelectStaysStamped(cap: nat, s: Store, op: Op)
    requires op.Select? && Legal(cap, s, op) && Stamped(s)
    ensures Stamped(Apply(s, op))
  {
    SelectStamps(cap, s, op);
  }

  /** A credit to the bucket used last changes no last use. */
  lemma CreditStaysStamped(s: Store, op: Op)
    requires op.Update? && op.key in s.buckets && s.buckets[op.key].lastUsed == s.tick && Stamped(s)
    ensures Stamped(Apply(s, op)) && Apply(s, op).tick == s.tick
  {
    var now := Apply(s, op);
    assert forall k :: k in now.buckets ==> k in s.buckets && now.buckets[k].lastUsed == s.buckets[k].lastUsed;
  }

  ghost predicate Timely(m: Ledger, n: nat) {
    Stamped(m.store) && Stamped(m.base) && m.store.tick <= n && m.base.tick <= n
  }

  lemma AfterCreditTimely(cfg: Config, s: System, w: Window, atCredit: seq<u64>, writes: bool, n: nat)
    requires Usable(cfg) && Linked(cfg, s) && Timely(s.ledger, n)
    ensures Timely(AfterCredit(s, w, atCredit, writes), n)
    ensures AfterCredit(s, w, atCredit, writes).store.tick == s.ledger.store.tick
  {
    if Credits(s) {
      var op := CreditOp(s, w, atCredit);
      CreditStaysStamped(s.ledger.store, op);
      CreditKeepsStore(s.ledger, op, writes);
    }
  }

  lemma TimelyStep(cfg: Config, s: System, a: Action, n: nat)
    requires Usable(cfg) && Linked(cfg, s) && Allowed(cfg, s, a) && Timely(s.ledger, n)
    ensures Timely(Next(cfg, s, a).ledger, n + 1)
  {
    if a.Decide? {
      AfterCreditTimely(cfg, s, a.window, a.atCredit, a.writes, n);
      var m := AfterCredit(s, a.window, a.atCredit, a.writes);
      SelectStaysStamped(cfg.cap, m.store, Op.Select(a.window.key, a.atSelect));
    }
  }

  /** In every run from an empty store, through restarts, last uses are distinct and not past the tick. */
  lemma {:induction false} RunIsTimely(cfg: Config, acts: seq<Action>)
    requires Usable(cfg) && AllowedRun(cfg, Start(FRESH), acts)
    ensures Timely(Run(cfg, Start(FRESH), acts).ledger, |acts|)
  {
    if acts == [] {
    } else {
      var n := |acts| - 1;
      RunIsTimely(cfg, acts[..n]);
      RunIsLinked(cfg, FRESH, acts[..n]);
      TimelyStep(cfg, Run(cfg, Start(FRESH), acts[..n]), acts[n], n);
    }
  }

  /** Equal but for the evictions. */
  predicate SameInput(a: Action, b: Action) {
    match a
    case Decide(w, _, _, writes) => b.Decide? && b.window == w && b.writes == writes
    case Flush(writes) => b == a
    case Restart => b == a
  }

  /** In a linked, stamped state below the end of the clock, a step can evict in one way only. */
  lemma OneWayToStep(cfg: Config, s: System, a: Action, b: Action, n: nat)
    requires Usable(cfg) && Linked(cfg, s) && Timely(s.ledger, n) && n < U64_MAX
    requires Allowed(cfg, s, a) && Allowed(cfg, s, b) && SameInput(a, b)
    ensures a == b
  {
    if a.Decide? {
      assert a.atCredit == b.atCredit == [];
      AfterCreditTimely(cfg, s, a.window, [], a.writes, n);
      var left := AfterCredit(s, a.window, [], a.writes).store;
      if a.window.key !in left.buckets {
        EvictionIsDeterministic(cfg.cap, left.buckets, a.atSelect, b.atSelect);
      }
    }
  }

  lemma OneWayToContinue(cfg: Config, acts: seq<Action>, a: Action, b: Action)
    requires Usable(cfg) && AllowedRun(cfg, Start(FRESH), acts) && |acts| < U64_MAX && SameInput(a, b)
    requires var s := Run(cfg, Start(FRESH), acts); Allowed(cfg, s, a) && Allowed(cfg, s, b)
    ensures a == b
  {
    RunIsLinked(cfg, FRESH, acts);
    RunIsTimely(cfg, acts);
    OneWayToStep(cfg, Run(cfg, Start(FRESH), acts), a, b, |acts|);
  }

  /**
   Policy runs are deterministic: the same windows, write outcomes and restarts lead to the same
   evictions and the same state, whatever order the hash map is traversed in.
   */
  lemma {:induction false} RunsAreDeterministic(cfg: Config, acts: seq<Action>, others: seq<Action>)
    requires Usable(cfg) && |acts| == |others| <= 0xFFFF_FFFF_FFFF_FFFF
    requires AllowedRun(cfg, Start(FRESH), acts) && AllowedRun(cfg, Start(FRESH), others)
    requires forall i :: 0 <= i < |acts| ==> SameInput(acts[i], others[i])
    ensures acts == others
  {
    if acts == [] {
    } else {
      var n := |acts| - 1;
      RunsAreDeterministic(cfg, acts[..n], others[..n]);
      SplitLast(acts);
      SplitLast(others);
      OneWayToContinue(cfg, acts[..n], acts[n], others[n]);
    }
  }

  // ---------------------------------------------------------------- without the policy's order of calls

  /** What one bare credit at tick 0 leaves. */
  const TIED := Bucket(CreditTally(EMPTY, "powersave", 1.0), 0)

  /** Credits to the keys below n, with no selection before them. */
  function BareCredits(n: nat): seq<Op>
    requires n <= U64_MAX
  {
    if n == 0 then [] else BareCredits(n - 1) + [Op.Update(n - 1, [], "powersave", 1.0)]
  }

  /** There is a bucket for each key below n, and each is `b`. */
  ghost predicate AllAre(bs: Buckets, n: nat, b: Bucket) {
    forall k: u64 :: (k in bs <==> k < n) && (k in bs ==> bs[k] == b)
  }

  lemma OneMoreAlike(bs: Buckets, n: u64, b: Bucket)
    requires AllAre(bs, n, b)
    ensures AllAre(bs[n := b], n + 1, b)
  {
  }

  lemma OneMoreKey(bs: Buckets, n: u64, b: Bucket)
    requires n !in bs
    ensures |bs[n := b]| == |bs| + 1
  {
    assert bs[n := b].Keys == bs.Keys + {n};
  }

  lemma AlikeAreLeast(bs: Buckets, n: nat, b: Bucket, k: u64)
    requires AllAre(bs, n, b) && k < n
    ensures IsLeast(bs, k)
  {
  }

  lemma BareCreditApplies(cap: nat, bs: Buckets, n: u64)
    requires n !in bs && |bs| < cap
    ensures var op := Op.Update(n, [], "powersave", 1.0);
            Legal(cap, Store(0, bs), op) && Apply(Store(0, bs), op) == Store(0, bs[n := TIED])
  {
    assert Drain(bs, []) == bs;
  }

  lemma OneMoreBareCredit(cap: nat, ops: seq<Op>, bs: Buckets, n: u64)
    requires LegalAll(cap, FRESH, ops) && ApplyAll(FRESH, ops) == Store(0, bs)
    requires n !in bs && |bs| < cap
    ensures var more := ops + [Op.Update(n, [], "powersave", 1.0)];
            LegalAll(cap, FRESH, more) && ApplyAll(FRESH, more) == Store(0, bs[n := TIED])
  {
    BareCreditApplies(cap, bs, n);
    OneMoreOp(cap, FRESH, ops, Op.Update(n, [], "powersave", 1.0));
  }

  lemma {:induction false} BareCreditsFill(cap: nat, n: nat) returns (bs: Buckets)
    requires n <= cap <= U64_MAX
    ensures LegalAll(cap, FRESH, BareCredits(n)) && ApplyAll(FRESH, BareCredits(n)) == Store(0, bs)
    ensures AllAre(bs, n, TIED) && |bs| == n
  {
    if n == 0 {
      bs := map[];
    } else {
      var less := BareCreditsFill(cap, n - 1);
      OneMoreBareCredit(cap, BareCredits(n - 1), less, n - 1);
      OneMoreAlike(less, n - 1, TIED);
      OneMoreKey(less, n - 1, TIED);
      bs := less[n - 1 := TIED];
    }
  }

  /**
   Without the policy's order of calls all buckets can tie: after one bare credit to each of `cap`
   keys, any of them may be the victim of the next miss.
   */
  lemma BareCreditsCanTie(cap: nat, k: u64)
    requires k < cap <= U64_MAX
    ensures LegalAll(cap, FRESH, BareCredits(cap))
    ensures Legal(cap, ApplyAll(FRESH, BareCredits(cap)), Op.Update(cap, [k], "powersave", 1.0))
  {
    var bs := BareCreditsFill(cap, cap);
    AlikeAreLeast(bs, cap, TIED, k);
    OneVictim(cap, bs, k);
  }

  /** So with the cap of 4096 two runs of the same bare credits can evict different buckets. */
  lemma BareCreditsAtTheCap()
    ensures var s := ApplyAll(FRESH, BareCredits(4096));
            && LegalAll(4096, FRESH, BareCredits(4096))
            && (forall k: u64 :: k < 4096 ==>
                  Legal(4096, s, Op.Update(4096, [k], "powersave", 1.0)))
  {
    var bs := BareCreditsFill(4096, 4096);
    forall k: u64 | k < 4096
      ensures Legal(4096, ApplyAll(FRESH, BareCredits(4096)),
                    Op.Update(4096, [k], "powersave", 1.0))
    {
      BareCreditsCanTie(4096, k);
    }
  }
}
