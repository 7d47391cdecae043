/**
 The store against its history: what any legal sequence of operations, from an empty
 store, leaves in each bucket.
 */
module EpisodeHistory {
  import opened Numbers
  import opened Bandit
  import opened BanditRuns
  import opened Episodes
  import opened Sequences

  /** `key` has been used since it was last evicted. */
  predicate Live(log: seq<Op>, key: u64) {
    log != [] &&
    var n := |log| - 1;
    log[n].key == key || (key !in log[n].victims && Live(log[..n], key))
  }

  function CreditOf(op: Op): Credit
    requires op.Update?
  {
    Credit(op.governor, Clamp(op.reward, 0.0, 1.0))
  }

  /** The credits to `key` since it was last evicted, oldest first. */
  function CreditsSince(log: seq<Op>, key: u64): seq<Credit> {
    if log == [] then []
    else
      var n := |log| - 1;
      if key in log[n].victims then []
      else if log[n].Update? && log[n].key == key then CreditsSince(log[..n], key) + [CreditOf(log[n])]
      else CreditsSince(log[..n], key)
  }

  /** The key has a bucket just if it is live, and its tally is the fold of its credits. */
  ghost predicate Agrees(s: Store, log: seq<Op>, key: u64) {
    && (key in s.buckets <==> Live(log, key))
    && (key in s.buckets ==> s.buckets[key].tally == Fold(CreditsSince(log, key)))
  }

  lemma {:induction false} DeadKeysHaveNoCredits(log: seq<Op>, key: u64)
    requires !Live(log, key)
    ensures CreditsSince(log, key) == []
  {
    if log == [] || key in log[|log| - 1].victims {
    } else {
      DeadKeysHaveNoCredits(log[..|log| - 1], key);
    }
  }

  lemma FoldStep(cs: seq<Credit>, c: Credit)
    ensures Fold(cs + [c]) == CreditTally(Fold(cs), c.governor, c.reward)
  {
    assert (cs + [c])[..|cs|] == cs;
  }

  lemma HistoryStep(log: seq<Op>, op: Op, key: u64)
    ensures Live(log + [op], key) <==> op.key == key || (key !in op.victims && Live(log, key))
    ensures CreditsSince(log + [op], key) ==
            if key in op.victims then []
            else CreditsSince(log, key) + (if op.Update? && op.key == key then [CreditOf(op)] else [])
  {
    assert (log + [op])[..|log|] == log;
  }

  lemma OwnTally(s: Store, log: seq<Op>, op: Op)
    requires Agrees(s, log, op.key) && op.key !in op.victims
    ensures TallyAfter(TallyOf(s.buckets, op.key), op) == Fold(CreditsSince(log + [op], op.key))
  {
    HistoryStep(log, op, op.key);
    if op.key !in s.buckets {
      DeadKeysHaveNoCredits(log, op.key);
    }
    assert TallyOf(s.buckets, op.key) == Fold(CreditsSince(log, op.key));
    if op.Update? {
      FoldStep(CreditsSince(log, op.key), CreditOf(op));
    }
  }

  lemma AgreesStep(s: Store, log: seq<Op>, op: Op, now: Store, key: u64)
    requires Agrees(s, log, key) && Effect(s, op, now, key)
    ensures Agrees(now, log + [op], key)
  {
    HistoryStep(log, op, key);
    if key == op.key {
      OwnTally(s, log, op);
    }
  }

  lemma LastOpEffect(cap: nat, log: seq<Op>, key: u64)
    requires log != [] && LegalAll(cap, FRESH, log)
    ensures var n := |log| - 1;
            Effect(ApplyAll(FRESH, log[..n]), log[n], ApplyAll(FRESH, log), key)
  {
    var n := |log| - 1;
    OpEffect(cap, ApplyAll(FRESH, log[..n]), log[n], key);
  }

  /** Through any hits, misses and evictions, the store agrees with its history. */
  lemma {:induction false} StoreAgreesWithHistory(cap: nat, log: seq<Op>, key: u64)
    requires cap >= 1 && LegalAll(cap, FRESH, log)
    ensures Agrees(ApplyAll(FRESH, log), log, key)
  {
    if log == [] {
      assert ApplyAll(FRESH, log) == FRESH;
    } else {
      var n := |log| - 1;
      StoreAgreesWithHistory(cap, log[..n], key);
      LastOpEffect(cap, log, key);
      SplitLast(log);
      AgreesStep(ApplyAll(FRESH, log[..n]), log[..n], log[n], ApplyAll(FRESH, log), key);
    }
  }

  /** Whatever reward an operation brings, what it credits is in [0, 1]. */
  lemma {:induction false} CreditsInUnit(log: seq<Op>, key: u64)
    ensures forall c :: c in CreditsSince(log, key) ==> InUnit(c.reward)
  {
    if log == [] {
    } else {
      CreditsInUnit(log[..|log| - 1], key);
    }
  }

  /** One governor's entry in a live bucket, from the rewards paid to it since the last eviction. */
  lemma EntryAgreesWithHistory(cap: nat, log: seq<Op>, key: u64, g: string)
    requires cap >= 1 && LegalAll(cap, FRESH, log)
    ensures var bs, rs := ApplyAll(FRESH, log).buckets, RewardsTo(CreditsSince(log, key), g);
            && (key in bs <==> Live(log, key))
            && (key in bs ==>
                  && var t := bs[key].tally;
                  && t.total == Min(0xFFFF_FFFF, |CreditsSince(log, key)|) == Min(0xFFFF_FFFF, SumVisits(t.arms))
                  && VisitsOf(t, g) == Min(0xFFFF_FFFF, |rs|)
                  && (g in t.arms <==> rs != [])
                  && (g in t.arms ==> t.arms[g].ema == Ema(rs) && InUnit(t.arms[g].ema)))
  {
    StoreAgreesWithHistory(cap, log, key);
    FoldAgrees(CreditsSince(log, key), g);
    VisitsConserved(CreditsSince(log, key));
    CreditsInUnit(log, key);
    if g in Fold(CreditsSince(log, key)).arms {
      ArmInRange(CreditsSince(log, key), g, 0.0, 1.0);
    }
  }

  // ---------------------------------------------------------------- visits are conserved

  function CreditCount(log: seq<Op>): nat {
    if log == [] then 0
    else CreditCount(log[..|log| - 1]) + (if log[|log| - 1].Update? then 1 else 0)
  }

  /** The visits of the buckets named in `keys`. */
  function VisitsIn(bs: Buckets, keys: seq<u64>): nat
    requires forall k :: k in keys ==> k in bs
  {
    if keys == [] then 0
    else VisitsIn(bs, keys[..|keys| - 1]) + bs[keys[|keys| - 1]].tally.total
  }

  /** The visits in all buckets. */
  ghost function LiveVisits(bs: Buckets): nat
    decreases |bs|
  {
    if bs == map[] then 0
    else
      var k :| k in bs;
      bs[k].tally.total + LiveVisits(bs - {k})
  }

  lemma LegalVictims(cap: nat, s: Store, op: Op)
    requires Legal(cap, s, op)
    ensures forall v :: v in op.victims ==> v in s.buckets
  {
    if op.key !in s.buckets {
      VictimsAreBuckets(cap, s.buckets, op.victims);
    }
  }

  /** The visits that evictions have dropped. */
  ghost function LostVisits(cap: nat, log: seq<Op>): nat
    requires cap >= 1 && LegalAll(cap, FRESH, log)
  {
    if log == [] then 0
    else
      var n := |log| - 1;
      var s := ApplyAll(FRESH, log[..n]);
      LegalVictims(cap, s, log[n]);
      LostVisits(cap, log[..n]) + VisitsIn(s.buckets, log[n].victims)
  }

  lemma {:induction false} LiveVisitsPick(bs: Buckets, k: u64)
    requires k in bs
    ensures LiveVisits(bs) == bs[k].tally.total + LiveVisits(bs - {k})
    decreases |bs|
  {
    var j :| j in bs && LiveVisits(bs) == bs[j].tally.total + LiveVisits(bs - {j});
    if j == k {
    } else {
      LiveVisitsPick(bs - {j}, k);
      LiveVisitsPick(bs - {k}, j);
      assert bs - {j} - {k} == bs - {k} - {j};
    }
  }

  lemma LiveVisitsPut(bs: Buckets, k: u64, b: Bucket)
    ensures LiveVisits(bs[k := b]) + (if k in bs then bs[k].tally.total else 0) == LiveVisits(bs) + b.tally.total
  {
    LiveVisitsPick(bs[k := b], k);
    assert bs[k := b] - {k} == bs - {k};
    if k in bs {
      LiveVisitsPick(bs, k);
    } else {
      assert bs - {k} == bs;
    }
  }

  lemma {:induction false} LiveVisitsDrained(bs: Buckets, victims: seq<u64>)
    requires NoDuplicates(victims) && forall v :: v in victims ==> v in bs
    ensures LiveVisits(bs) == LiveVisits(Drain(bs, victims)) + VisitsIn(bs, victims)
  {
    if victims == [] {
      assert Drain(bs, victims) == bs;
    } else {
      var n := |victims| - 1;
      var front, v := victims[..n], victims[n];
      assert victims == front + [v];
      LiveVisitsDrained(bs, front);
      DrainStep(bs, front, v);
      LiveVisitsPick(Drain(bs, front), v);
    }
  }

  lemma {:induction false} CreditsSinceCounted(log: seq<Op>, key: u64)
    ensures |CreditsSince(log, key)| <= CreditCount(log)
  {
    if log == [] {
    } else {
      CreditsSinceCounted(log[..|log| - 1], key);
    }
  }

  lemma TotalsBelowCredits(cap: nat, log: seq<Op>, key: u64)
    requires cap >= 1 && LegalAll(cap, FRESH, log) && key in ApplyAll(FRESH, log).buckets
    ensures ApplyAll(FRESH, log).buckets[key].tally.total <= CreditCount(log)
  {
    StoreAgreesWithHistory(cap, log, key);
    FoldAgrees(CreditsSince(log, key), "");
    CreditsSinceCounted(log, key);
  }

  /** On a miss, the victims' visits leave the buckets. */
  lemma MissMovesVisits(cap: nat, bs: Buckets, key: u64, victims: seq<u64>, b: Bucket)
    requires cap >= 1 && key !in bs && Evicts(cap, bs, victims)
    ensures forall v :: v in victims ==> v in bs
    ensures LiveVisits(Drain(bs, victims)[key := b]) + VisitsIn(bs, victims) == LiveVisits(bs) + b.tally.total
  {
    VictimsAreBuckets(cap, bs, victims);
    LiveVisitsDrained(bs, victims);
    LiveVisitsPut(Drain(bs, victims), key, b);
  }

  /** An operation moves its credit into the buckets and its victims' visits out of them. */
  lemma OpMovesVisits(cap: nat, s: Store, op: Op)
    requires cap >= 1 && Legal(cap, s, op)
    requires op.Update? && op.key in s.buckets ==> s.buckets[op.key].tally.total < U32_MAX
    ensures forall v :: v in op.victims ==> v in s.buckets
    ensures LiveVisits(Apply(s, op).buckets) + VisitsIn(s.buckets, op.victims) ==
            LiveVisits(s.buckets) + (if op.Update? then 1 else 0)
  {
    var own := Apply(s, op).buckets[op.key];
    if op.key in s.buckets {
      LiveVisitsPut(s.buckets, op.key, own);
    } else {
      MissMovesVisits(cap, s.buckets, op.key, op.victims, own);
    }
  }

  /** Below saturation, live visits plus visits lost to eviction equal the number of credits. */
  lemma {:induction false} CreditsAreConserved(cap: nat, log: seq<Op>)
    requires cap >= 1 && LegalAll(cap, FRESH, log) && CreditCount(log) <= 0xFFFF_FFFF
    ensures LiveVisits(ApplyAll(FRESH, log).buckets) + LostVisits(cap, log) == CreditCount(log)
  {
    if log == [] {
    } else {
      var n := |log| - 1;
      var s, op := ApplyAll(FRESH, log[..n]), log[n];
      CreditsAreConserved(cap, log[..n]);
      if op.key in s.buckets {
        TotalsBelowCredits(cap, log[..n], op.key);
      }
      OpMovesVisits(cap, s, op);
    }
  }
}
