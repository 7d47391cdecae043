/** The persistent episodic store: fingerprint to governor statistics. */
module Memory {
  import opened Numbers
  import opened Wrappers
  import opened Bandit
  import opened Episodes
  import opened Persistence
  import opened Ledgers

  const DEFAULT_ACTIONS := ["performance", "powersave"]

  class EpisodeMemory {
    const math: Math
    const cap: nat
    const actions: seq<string>
    var buckets: Buckets
    var tick: u64
    var dirty: u64
    /** The memory file, if there is one. */
    var disk: Option<MemoryFile>

    ghost var origin: Store
    ghost var synced: seq<Op>
    ghost var base: Store
    ghost var unsaved: seq<Op>

    ghost function View(): Ledger
      reads this
    {
      Ledger(origin, synced, base, unsaved, Store(tick, buckets), dirty)
    }

    ghost predicate Valid()
      reads this
    {
      && cap >= 1
      && actions != []
      && Durable(cap, View())
      && (disk.None? ==> base == FRESH)
      && (disk.Some? ==> Decodes(disk.value, base))
    }

    /** The file, if any, is one that `Save` wrote. */
    ghost predicate OwnFile()
      reads this
    {
      disk.Some? ==> disk.value == Encode(base)
    }

    constructor (math: Math, cap: nat, actions: seq<string>, disk: Option<MemoryFile>, s: Store)
      requires cap >= 1 && actions != []
      requires disk.None? ==> s == FRESH
      requires disk.Some? ==> Decodes(disk.value, s)
      ensures Valid() && View() == Opened(s) && this.disk == disk
      ensures this.math == math && this.cap == cap && this.actions == actions
    {
      this.math, this.cap, this.actions, this.disk := math, cap, actions, disk;
      tick, buckets, dirty := s.tick, s.buckets, 0;
      origin, synced, base, unsaved := s, [], s, [];
    }

    /** Fails exactly when the file has a key that is not a 64-bit decimal. */
    static method Open(math: Math, cap: nat, disk: Option<MemoryFile>, actions: seq<string>)
      returns (r: Option<EpisodeMemory>)
      requires cap >= 1
      ensures r.None? <==> disk.Some? && exists name :: name in disk.value.buckets && Parse(name).None?
      ensures r.Some? ==>
                var m := r.value;
                && fresh(m) && m.Valid() && m.disk == disk
                && m.math == math && m.cap == cap
                && m.actions == (if actions == [] then ["performance", "powersave"] else actions)
                && m.View() == Opened(m.View().store)
    {
      var listed := if actions == [] then DEFAULT_ACTIONS else actions;
      var s := FRESH;
      if disk.Some? {
        var bs := ReadNames(disk.value);
        if bs.None? {
          return None;
        }
        s := Store(disk.value.tick, bs.value);
      }
      var m := new EpisodeMemory(math, cap, listed, disk, s);
      r := Some(m);
    }

    /** `min_by` over the map's own order: keeps the first of equally small buckets it meets. */
    method LeastBucket() returns (k: u64)
      requires buckets != map[]
      ensures IsLeast(buckets, k)
      ensures forall j :: j in buckets ==>
                buckets[k].tally.total < buckets[j].tally.total ||
                (buckets[k].tally.total == buckets[j].tally.total && buckets[k].lastUsed <= buckets[j].lastUsed)
    {
      k :| k in buckets;
      var rest := buckets.Keys - {k};
      while rest != {}
        invariant rest <= buckets.Keys && k in buckets
        invariant forall j :: j in buckets.Keys - rest ==> AtMost(buckets[k], buckets[j])
        decreases |rest|
      {
        var j :| j in rest;
        if !AtMost(buckets[k], buckets[j]) {
          k := j;
        }
        rest := rest - {j};
      }
    }

    /** Removes least buckets until there is room for one more. */
    method EvictIfNeeded() returns (ghost victims: seq<u64>)
      requires cap >= 1
      modifies this`buckets
      ensures Evicts(cap, old(buckets), victims) && buckets == Drain(old(buckets), victims)
      ensures |buckets| == Min(old(|buckets|), cap - 1)
      ensures forall v, k :: v in old(buckets) && v !in buckets && k in buckets ==>
                old(buckets)[v].tally.total < buckets[k].tally.total ||
                (old(buckets)[v].tally.total == buckets[k].tally.total &&
                 old(buckets)[v].lastUsed <= buckets[k].lastUsed)
    {
      victims := [];
      while |buckets| >= cap
        invariant Evicting(cap, old(buckets), victims) && buckets == Drain(old(buckets), victims)
        decreases |buckets|
      {
        var victim := LeastBucket();
        DrainStep(old(buckets), victims, victim);
        EvictingSnoc(cap, old(buckets), victims, victim);
        victims := victims + [victim];
        buckets := buckets - {victim};
      }
      EvictionLeaves(cap, old(buckets), victims);
    }

    /** Before a key without a bucket gets one, makes room for it. */
    method MakeRoom(key: u64) returns (ghost victims: seq<u64>)
      requires cap >= 1
      modifies this`buckets
      ensures if key in old(buckets) then victims == [] else Evicts(cap, old(buckets), victims)
      ensures buckets == Kept(old(buckets), key, victims)
    {
      victims := [];
      if key !in buckets {
        victims := EvictIfNeeded();
      }
    }

    /** UCB selection of a governor for a fingerprint. */
    method Select(key: u64, prior: string) returns (c: Choice, ghost op: Op)
      requires Valid()
      modifies this
      ensures Valid() && disk == old(disk)
      ensures op.Select? && op.key == key && Legal(cap, old(View()).store, op)
      ensures View() == Record(old(View()), op)
      ensures c == Choose(math, TallyOf(old(buckets), key), actions, prior)
    {
      ghost var was := View();
      tick := Succ64(tick);
      ghost var victims := MakeRoom(key);
      var tally := TallyOf(buckets, key);
      buckets := buckets[key := Bucket(tally, tick)];
      op := Op.Select(key, victims);
      unsaved := unsaved + [op];
      RecordIsDurable(cap, was, op);
      c := Rank(math, tally, actions, prior);
    }

    /** Writes the file; a failed write leaves everything as it was. */
    method Save(writes: bool) returns (ok: bool)
      requires Valid()
      modifies this
      ensures Valid() && ok == writes
      ensures View() == Saved(old(View()), writes)
      ensures disk == if writes then Some(Encode(View().store)) else old(disk)
    {
      var file := WriteNames(tick, buckets);
      if !writes {
        return false;
      }
      SyncIsDurable(cap, View());
      EncodedDecodes(Store(tick, buckets));
      disk := Some(file);
      dirty := 0;
      synced, base, unsaved := synced + unsaved, Store(tick, buckets), [];
      ok := true;
    }

    /** Credit a fingerprint and governor with a reward; `writes` is the outcome of a save, if any. */
    method Update(key: u64, governor: string, reward: real, writes: bool) returns (ghost op: Op)
      requires Valid()
      modifies this
      ensures Valid()
      ensures op.Update? && op.key == key && op.governor == governor && op.reward == reward
      ensures Legal(cap, old(View()).store, op)
      ensures View() == Credited(old(View()), op, writes)
      ensures disk == if old(dirty) >= 11 && writes then Some(Encode(View().store)) else old(disk)
      ensures dirty == if old(dirty) >= 11 && writes then 0 else Succ64(old(dirty))
    {
      ghost var was := View();
      ghost var victims := MakeRoom(key);
      var tally := TallyOf(buckets, key);
      buckets := buckets[key := Bucket(CreditTally(tally, governor, Clamp(reward, 0.0, 1.0)), tick)];
      dirty := Succ64(dirty);
      op := Op.Update(key, victims, governor, reward);
      unsaved := unsaved + [op];
      RecordIsDurable(cap, was, op);
      if dirty >= SAVE_EVERY {
        var ok := Save(writes);
      }
    }
  }
}
