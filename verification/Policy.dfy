/**
 The policy as a step machine over the memory: sample, credit the previous action, select,
 and remember the action for the next credit. Runs may also flush, and restart from the file.
 */
module Policy {
  import opened Numbers
  import opened Wrappers
  import opened Bandit
  import opened Episodes
  import opened Ledgers
  import opened Reward

  /** What stays fixed while a daemon is installed; `prior` is the governor to try first. */
  datatype Config = Config(math: Math, cap: nat, actions: seq<string>, prior: u64 -> string)

  predicate Usable(cfg: Config) {
    cfg.cap >= 1 && cfg.actions != []
  }

  datatype PendingCredit = PendingCredit(key: u64, governor: string)

  /** `last` is the reading of the previous decide, if any since the process started. */
  datatype System = System(ledger: Ledger, last: Option<Reading>, pending: Option<PendingCredit>, primed: bool)

  /** What one decide sees: the counters, and the fingerprint of the window's exec events. */
  datatype Window = Window(reading: Reading, key: u64)

  /** The evictions of a step's credit and selection, and the outcome of a save, come with it. */
  datatype Action =
    | Decide(window: Window, atCredit: seq<u64>, atSelect: seq<u64>, writes: bool)
    | Flush(writes: bool)
    | Restart

  predicate Credits(s: System) {
    s.primed && s.pending.Some?
  }

  /** The credit a decide starts with: the pending action is paid for the window just ended. */
  function CreditOp(s: System, w: Window, victims: seq<u64>): Op
    requires s.pending.Some?
  {
    var p := s.pending.value;
    Op.Update(p.key, victims, p.governor, BalancedReward(Sampled(s.last, w.reading), p.governor))
  }

  function AfterCredit(s: System, w: Window, victims: seq<u64>, writes: bool): Ledger {
    if Credits(s) then Credited(s.ledger, CreditOp(s, w, victims), writes) else s.ledger
  }

  /** The choice for a fingerprint. */
  function ChoiceFor(cfg: Config, m: Ledger, key: u64): Choice
    requires Usable(cfg)
  {
    Choose(cfg.math, TallyOf(m.store.buckets, key), cfg.actions, cfg.prior(key))
  }

  function Start(s: Store): System {
    System(Opened(s), None, None, false)
  }

  function Next(cfg: Config, s: System, a: Action): System
    requires Usable(cfg)
  {
    match a
    case Decide(w, atCredit, atSelect, writes) =>
      var m := AfterCredit(s, w, atCredit, writes);
      System(Record(m, Op.Select(w.key, atSelect)),
             Some(w.reading), Some(PendingCredit(w.key, ChoiceFor(cfg, m, w.key).governor)), true)
    case Flush(writes) => s.(ledger := Saved(s.ledger, writes))
    case Restart => System(Reopened(s.ledger), None, None, false)
  }

  /** The evictions of a step are ones the eviction loop can make. */
  ghost predicate Allowed(cfg: Config, s: System, a: Action)
    requires Usable(cfg)
  {
    a.Decide? ==>
      && (if Credits(s) then Legal(cfg.cap, s.ledger.store, CreditOp(s, a.window, a.atCredit)) else a.atCredit == [])
      && Legal(cfg.cap, AfterCredit(s, a.window, a.atCredit, a.writes).store,
               Op.Select(a.window.key, a.atSelect))
  }

  function Run(cfg: Config, s: System, acts: seq<Action>): System
    requires Usable(cfg)
  {
    if acts == [] then s else Next(cfg, Run(cfg, s, acts[..|acts| - 1]), acts[|acts| - 1])
  }

  ghost predicate AllowedRun(cfg: Config, s: System, acts: seq<Action>)
    requires Usable(cfg)
  {
    acts == [] ||
    var n := |acts| - 1;
    AllowedRun(cfg, s, acts[..n]) && Allowed(cfg, Run(cfg, s, acts[..n]), acts[n])
  }
}
