/**
 The store together with its file: which operations the last successful save covers and
 which are only in memory. A write either replaces the whole file or fails and leaves it.
 */
module Ledgers {
  import opened Numbers
  import opened Episodes
  import opened EpisodeHistory

  const SAVE_EVERY := 12

  /**
   `origin` is the store this history starts from, `base` the store the file holds, `synced`
   the operations between the two, and `unsaved` those from `base` to the store in memory.
   */
  datatype Ledger = Ledger(
    origin: Store, synced: seq<Op>, base: Store, unsaved: seq<Op>, store: Store, dirty: u64)

  function Opened(s: Store): Ledger {
    Ledger(s, [], s, [], s, 0)
  }

  function History(m: Ledger): seq<Op> {
    m.synced + m.unsaved
  }

  /** What the file holds plus a replay of the unsaved operations is what memory holds. */
  ghost predicate Durable(cap: nat, m: Ledger) {
    && LegalAll(cap, m.origin, m.synced)
    && m.base == ApplyAll(m.origin, m.synced)
    && LegalAll(cap, m.base, m.unsaved)
    && m.store == ApplyAll(m.base, m.unsaved)
    && m.dirty == Min(U64_MAX, CreditCount(m.unsaved))
  }

  function Record(m: Ledger, op: Op): Ledger {
    m.(unsaved := m.unsaved + [op],
       store := Apply(m.store, op),
       dirty := if op.Update? then Succ64(m.dirty) else m.dirty)
  }

  /** A successful save. */
  function Sync(m: Ledger): Ledger {
    m.(synced := History(m), base := m.store, unsaved := [], dirty := 0)
  }

  function Saved(m: Ledger, writes: bool): Ledger {
    if writes then Sync(m) else m
  }

  /** A credit, with the save it triggers once enough credits are unsaved. */
  function Credited(m: Ledger, op: Op, writes: bool): Ledger {
    var r := Record(m, op);
    if r.dirty >= SAVE_EVERY then Saved(r, writes) else r
  }

  /** The process ends without saving and a new one reads the file. */
  function Reopened(m: Ledger): Ledger {
    m.(unsaved := [], store := m.base, dirty := 0)
  }

  lemma RecordIsDurable(cap: nat, m: Ledger, op: Op)
    requires Durable(cap, m) && Legal(cap, m.store, op)
    ensures Durable(cap, Record(m, op))
  {
    assert (m.unsaved + [op])[..|m.unsaved|] == m.unsaved;
  }

  lemma SyncIsDurable(cap: nat, m: Ledger)
    requires Durable(cap, m)
    ensures Durable(cap, Sync(m))
  {
    ApplyAllConcat(m.origin, m.synced, m.unsaved);
    LegalAllConcat(cap, m.origin, m.synced, m.unsaved);
  }

  lemma CreditedIsDurable(cap: nat, m: Ledger, op: Op, writes: bool)
    requires Durable(cap, m) && Legal(cap, m.store, op)
    ensures Durable(cap, Credited(m, op, writes))
  {
    RecordIsDurable(cap, m, op);
    SyncIsDurable(cap, Record(m, op));
  }

  lemma ReopenedIsDurable(cap: nat, m: Ledger)
    requires Durable(cap, m)
    ensures Durable(cap, Reopened(m))
  {
  }

  /** The whole history replayed from the origin gives the store in memory. */
  lemma HistoryReplays(cap: nat, m: Ledger)
    requires Durable(cap, m)
    ensures LegalAll(cap, m.origin, History(m)) && ApplyAll(m.origin, History(m)) == m.store
  {
    ApplyAllConcat(m.origin, m.synced, m.unsaved);
    LegalAllConcat(cap, m.origin, m.synced, m.unsaved);
  }

  /** The memory operations, with the outcome of any write they make. */
  datatype Event = Choosing(op: Op) | Crediting(op: Op, writes: bool) | Saving(writes: bool)

  function Step(m: Ledger, e: Event): Ledger {
    match e
    case Choosing(op) => Record(m, op)
    case Crediting(op, writes) => Credited(m, op, writes)
    case Saving(writes) => Saved(m, writes)
  }

  ghost predicate Possible(cap: nat, m: Ledger, e: Event) {
    match e
    case Choosing(op) => op.Select? && Legal(cap, m.store, op)
    case Crediting(op, _) => op.Update? && Legal(cap, m.store, op)
    case Saving(_) => true
  }

  function Steps(m: Ledger, es: seq<Event>): Ledger {
    if es == [] then m else Step(Steps(m, es[..|es| - 1]), es[|es| - 1])
  }

  ghost predicate AllPossible(cap: nat, m: Ledger, es: seq<Event>) {
    es == [] ||
    var n := |es| - 1;
    AllPossible(cap, m, es[..n]) && Possible(cap, Steps(m, es[..n]), es[n])
  }

  predicate WriteFails(e: Event) {
    (e.Crediting? || e.Saving?) && !e.writes
  }

  /**
   Through any operations and any write failures, the file plus the unsaved operations is the
   store, and the dirty counter counts the unsaved credits.
   */
  lemma {:induction false} DurablePrefix(cap: nat, s: Store, es: seq<Event>)
    requires AllPossible(cap, Opened(s), es)
    ensures Durable(cap, Steps(Opened(s), es)) && Steps(Opened(s), es).origin == s
  {
    if es == [] {
    } else {
      var n := |es| - 1;
      var m := Steps(Opened(s), es[..n]);
      DurablePrefix(cap, s, es[..n]);
      match es[n]
      case Choosing(op) =>
        RecordIsDurable(cap, m, op);
      case Crediting(op, writes) =>
        CreditedIsDurable(cap, m, op, writes);
      case Saving(writes) =>
        SyncIsDurable(cap, m);
    }
  }

  /** A credit is written out, with everything before it, just if 11 credits are unsaved and the write works. */
  lemma CreditReachesFile(cap: nat, m: Ledger, op: Op, writes: bool)
    requires Durable(cap, m) && op.Update?
    ensures var c := Credited(m, op, writes);
            && c.store == Apply(m.store, op)
            && (if CreditCount(m.unsaved) >= 11 && writes
                then c.base == c.store && c.synced == History(m) + [op] && c.unsaved == [] && c.dirty == 0
                else c.base == m.base && c.synced == m.synced && c.unsaved == m.unsaved + [op])
  {
    assert m.synced + (m.unsaved + [op]) == History(m) + [op];
  }

  lemma OneMoreUnsaved(cap: nat, m: Ledger, e: Event)
    requires Durable(cap, m) && Possible(cap, m, e) && !WriteFails(e)
    requires CreditCount(m.unsaved) <= 11
    ensures CreditCount(Step(m, e).unsaved) <= 11
  {
    if !e.Saving? {
      RecordIsDurable(cap, m, e.op);
      assert (m.unsaved + [e.op])[..|m.unsaved|] == m.unsaved;
    }
  }

  /** As long as no write fails, at most 11 credits are unsaved. */
  lemma {:induction false} AtMostElevenUnsaved(cap: nat, s: Store, es: seq<Event>)
    requires AllPossible(cap, Opened(s), es)
    requires forall e :: e in es ==> !WriteFails(e)
    ensures CreditCount(Steps(Opened(s), es).unsaved) <= 11
  {
    if es == [] {
    } else {
      var n := |es| - 1;
      AtMostElevenUnsaved(cap, s, es[..n]);
      DurablePrefix(cap, s, es[..n]);
      OneMoreUnsaved(cap, Steps(Opened(s), es[..n]), es[n]);
    }
  }

  lemma OneMoreOfTwelve(n: nat)
    ensures (n + 1) % 12 == if n % 12 == 11 then 0 else n % 12 + 1
  {
  }

  function CreditEvents(es: seq<Event>): nat {
    if es == [] then 0 else CreditEvents(es[..|es| - 1]) + (if es[|es| - 1].Crediting? then 1 else 0)
  }

  lemma TwelfthStep(cap: nat, m: Ledger, e: Event, n: nat)
    requires Durable(cap, m) && Possible(cap, m, e) && !WriteFails(e) && !e.Saving?
    requires CreditCount(m.unsaved) == n % 12
    ensures CreditCount(Step(m, e).unsaved) == (if e.Crediting? then n + 1 else n) % 12
  {
    assert (m.unsaved + [e.op])[..|m.unsaved|] == m.unsaved;
    if e.Crediting? {
      CreditReachesFile(cap, m, e.op, e.writes);
      OneMoreOfTwelve(n);
    }
  }

  /** Left alone, the file is written at every twelfth credit and at no other time. */
  lemma {:induction false} EveryTwelfthCreditSaves(cap: nat, s: Store, es: seq<Event>)
    requires AllPossible(cap, Opened(s), es)
    requires forall e :: e in es ==> !WriteFails(e) && !e.Saving?
    ensures CreditCount(Steps(Opened(s), es).unsaved) == CreditEvents(es) % 12
  {
    if es == [] {
    } else {
      var n := |es| - 1;
      var m, e := Steps(Opened(s), es[..n]), es[n];
      EveryTwelfthCreditSaves(cap, s, es[..n]);
      DurablePrefix(cap, s, es[..n]);
      TwelfthStep(cap, m, e, CreditEvents(es[..n]));
      assert Steps(Opened(s), es) == Step(m, e);
    }
  }
}
