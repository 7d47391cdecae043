/** From the probe's rewrite of a Steam child to the governor its first window gets. */
module Lineage {
  import opened Bandit
  import opened Bits
  import opened Episodes
  import opened Ledgers
  import opened Reward
  import opened Fingerprint
  import opened Steam
  import opened Policy
  import opened PolicyTheorems
  import opened Engine

  /**
   The first decision for a fingerprint, in terms of its window: "performance" if some event's name is a
   build tool or a game, the governor for light load if none is; the first listed if that one is not listed.
   */
  lemma FirstDecision(cfg: Config, efficiency: string, m: Ledger, names: seq<Bytes>)
    requires Usable(cfg) && cfg.prior == PriorFor(cfg.actions, efficiency)
    requires TallyOf(m.store.buckets, FingerprintOf(names)) == EMPTY
    ensures var want := if exists i: nat :: i < 31 && Hit(names, i) then "performance" else efficiency;
            ChoiceFor(cfg, m, FingerprintOf(names)).governor == if want in cfg.actions then want else cfg.actions[0]
  {
    var key := FingerprintOf(names);
    if i: nat :| i < 31 && Hit(names, i) {
      FingerprintBit(names, i);
    } else if AnyBit(key, 0, 31) {
      var i: nat :| i < 31 && Bit(key, i);
      FingerprintBit(names, i);
    }
    PriorByBits(cfg.actions, efficiency, key);
    FreshBucketGetsPrior(cfg, m, key);
  }

  /** The fingerprint of a window with a rewritten event is biased towards performance. */
  lemma SteamPrior(actions: seq<string>, efficiency: string, reading: Reading, events: seq<ProcessEvent>, k: nat)
    requires "performance" in actions && k < |events| && Rewritten(events[k].filename)
    ensures PriorFor(actions, efficiency)(WindowOf(reading, events).key) == "performance"
  {
    SteamWindowIsGaming(Names(events), events[k].filename, k);
    PriorByBits(actions, efficiency, FingerprintOf(Names(events)));
  }

  /**
   The first decision for a fingerprint whose window has a child of Steam is "performance", whatever
   else ran and whatever the other governors are.
   */
  lemma SteamStartsOnPerformance(cfg: Config, efficiency: string, m: Ledger,
                                 reading: Reading, events: seq<ProcessEvent>, k: nat)
    requires Usable(cfg) && cfg.prior == PriorFor(cfg.actions, efficiency) && "performance" in cfg.actions
    requires k < |events| && Rewritten(events[k].filename)
    requires TallyOf(m.store.buckets, WindowOf(reading, events).key) == EMPTY
    ensures ChoiceFor(cfg, m, WindowOf(reading, events).key).governor == "performance"
  {
    SteamPrior(cfg.actions, efficiency, reading, events, k);
    FreshBucketGetsPrior(cfg, m, WindowOf(reading, events).key);
  }
}
