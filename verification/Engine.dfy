/** The policy object: its memory, its sampler and the pending credit, updated in place. */
module Engine {
  import opened Numbers
  import opened Wrappers
  import opened Bandit
  import opened Episodes
  import opened Persistence
  import opened Ledgers
  import opened Memory
  import opened Reward
  import opened Fingerprint
  import opened Policy
  import opened PolicyRuns

  function Names(events: seq<ProcessEvent>): seq<Bytes> {
    seq(|events|, i requires 0 <= i < |events| => FilenameStr(events[i].filename))
  }

  function WindowOf(reading: Reading, events: seq<ProcessEvent>): Window {
    Window(reading, FingerprintOf(Names(events)))
  }

  /** The prior governor of every fingerprint; `efficiency` is the kernel's governor for light load. */
  function PriorFor(actions: seq<string>, efficiency: string): u64 -> string {
    (key: u64) => ResolvePrior(LabelOf(key), actions, efficiency)
  }

  /**
   The prior by fingerprint bits: "performance" if a word of the first two groups was seen, the governor
   for light load if not; the first listed governor if that one is not listed.
   */
  lemma PriorByBits(actions: seq<string>, efficiency: string, key: u64)
    ensures var want := if AnyBit(key, 0, 31) then "performance" else efficiency;
            PriorFor(actions, efficiency)(key) ==
            if want in actions then want else if actions != [] then actions[0] else "powersave"
  {
    HeavyByBits(key);
  }

  datatype Decision = Decision(workload: Workload, confidence: real, governor: string, fingerprint: u64)

  class PolicyEngine {
    const memory: EpisodeMemory
    const metrics: MetricSampler
    const efficiency: string
    var pending: Option<PendingCredit>
    var primed: bool
    /** The reading of the last decide. */
    ghost var last: Option<Reading>

    ghost function Cfg(): Config {
      Config(memory.math, memory.cap, memory.actions, PriorFor(memory.actions, efficiency))
    }

    ghost function View(): System
      reads this, memory
    {
      System(memory.View(), last, pending, primed)
    }

    ghost predicate Valid()
      reads this, memory, metrics
    {
      memory.Valid() && metrics.Remembers(last) && Linked(Cfg(), View())
    }

    constructor (memory: EpisodeMemory, efficiency: string)
      requires memory.Valid()
      ensures Valid() && fresh(metrics) && this.memory == memory && this.efficiency == efficiency
      ensures View() == System(memory.View(), None, None, false)
    {
      this.memory, this.efficiency := memory, efficiency;
      metrics := new MetricSampler();
      pending, primed, last := None, false, None;
    }

    /** Reads the memory file and starts a session on it. */
    static method Open(math: Math, disk: Option<MemoryFile>, actions: seq<string>, efficiency: string)
      returns (r: Option<PolicyEngine>)
      ensures r.None? <==> disk.Some? && exists name :: name in disk.value.buckets && Parse(name).None?
      ensures r.Some? ==> fresh(r.value) && fresh(r.value.memory) && fresh(r.value.metrics) && r.value.Valid()
      ensures r.Some? ==> r.value.memory.math == math && r.value.memory.disk == disk && r.value.efficiency == efficiency
      ensures r.Some? ==>
                r.value.memory.actions == if actions == [] then ["performance", "powersave"] else actions
      ensures r.Some? ==> r.value.memory.cap == 4096 && r.value.View() == Start(r.value.memory.View().store)
    {
      var m := EpisodeMemory.Open(math, MAX_BUCKETS, disk, actions);
      if m.None? {
        return None;
      }
      var p := new PolicyEngine(m.value, efficiency);
      r := Some(p);
    }

    /** The fingerprint and the soft label of a window's events. */
    method Label(events: seq<ProcessEvent>) returns (key: u64, workload: Workload)
      ensures key == FingerprintOf(Names(events)) && workload == LabelOf(key)
    {
      var hot := EncodeNames(Names(events));
      key := FingerprintBits(hot);
      workload := SoftLabel(hot);
      LabelIsOfFingerprint(hot);
    }

    /** Credits the pending action, if there is one, with the reward of the window just sampled. */
    method PayPending(ghost w: Window, sample: WindowMetrics, writes: bool) returns (ghost atCredit: seq<u64>)
      requires memory.Valid() && sample == Sampled(last, w.reading)
      modifies this`pending, memory
      ensures memory.Valid()
      ensures if old(Credits(View()))
              then Legal(memory.cap, old(memory.View().store), CreditOp(old(View()), w, atCredit))
              else atCredit == []
      ensures memory.View() == AfterCredit(old(View()), w, atCredit, writes)
      ensures old(memory.OwnFile()) ==> memory.OwnFile()
    {
      atCredit := [];
      if primed && pending.Some? {
        var prev := pending.value;
        pending := None;
        ghost var paid := memory.Update(prev.key, prev.governor, BalancedReward(sample, prev.governor), writes);
        atCredit := paid.victims;
      }
    }

    /** Credits the previous action, if any, then selects a governor for the window's events. */
    method Decide(reading: Reading, events: seq<ProcessEvent>, writes: bool) returns (d: Decision, ghost act: Action)
      requires Valid()
      modifies this, memory, metrics
      ensures Valid()
      ensures act.Decide? && act.window == WindowOf(reading, events) && act.writes == writes
      ensures Allowed(Cfg(), old(View()), act)
      ensures View() == Next(Cfg(), old(View()), act)
      ensures d.fingerprint == act.window.key && d.workload == LabelOf(d.fingerprint)
      ensures Choice(d.governor, d.confidence) ==
              ChoiceFor(Cfg(), AfterCredit(old(View()), act.window, act.atCredit, writes), d.fingerprint)
      ensures old(memory.OwnFile()) ==> memory.OwnFile()
    {
      ghost var was := View();
      ghost var w := WindowOf(reading, events);
      var sample := metrics.Sample(reading, last);
      ghost var atCredit := PayPending(w, sample, writes);
      last := Some(reading);
      primed := true;
      var key, workload := Label(events);
      var prior := ResolvePrior(workload, memory.actions, efficiency);
      assert w.key == key && Cfg().prior(key) == prior;
      ghost var paid := memory.View();
      var choice, op := memory.Select(key, prior);
      assert choice == ChoiceFor(Cfg(), paid, key) && op == Op.Select(key, op.victims);
      pending := Some(PendingCredit(key, choice.governor));
      d := Decision(workload, choice.confidence, choice.governor, key);
      act := Action.Decide(w, atCredit, op.victims, writes);
      assert View() == Next(Cfg(), was, act);
      LinkedStep(Cfg(), was, act);
    }

    method Flush(writes: bool) returns (ok: bool)
      requires Valid()
      modifies memory
      ensures Valid() && ok == writes
      ensures View() == Next(Cfg(), old(View()), Action.Flush(writes))
      ensures memory.disk == if writes then Some(Encode(memory.View().store)) else old(memory.disk)
      ensures writes || old(memory.OwnFile()) ==> memory.OwnFile()
    {
      LinkedStep(Cfg(), View(), Action.Flush(writes));
      ok := memory.Save(writes);
    }

    /** A new process on the file this engine leaves behind takes the restart step of the policy machine. */
    method Reopen() returns (r: PolicyEngine)
      requires Valid() && memory.OwnFile()
      ensures fresh(r) && fresh(r.memory) && fresh(r.metrics) && r.Valid() && r.memory.OwnFile()
      ensures r.memory.disk == memory.disk && r.memory.cap == 4096
      ensures r.memory.math == memory.math && r.memory.actions == memory.actions && r.efficiency == efficiency
      ensures memory.cap == 4096 ==> r.Cfg() == Cfg()
      ensures var s := Next(Cfg(), View(), Action.Restart);
              r.View() == s.(ledger := Opened(s.ledger.store))
    {
      EncodedNames(memory.base);
      var o := Open(memory.math, memory.disk, memory.actions, efficiency);
      if memory.disk.Some? {
        DecodesOneWay(memory.base, o.value.memory.base);
      }
      r := o.value;
    }
  }
}
