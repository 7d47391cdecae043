/**
 The episodic store as a value: buckets under a clock, the two operations on it, and
 eviction. The order in which a hash map is traversed is not known, so an operation
 carries the keys it evicts, and `Legal` says which evictions the eviction loop can make.
 */
module Episodes {
  import opened Numbers
  import opened Bandit
  import opened Sequences

  const MAX_BUCKETS := 4096

  datatype Bucket = Bucket(tally: Tally, lastUsed: u64)

  type Buckets = map<u64, Bucket>

  datatype Store = Store(tick: u64, buckets: Buckets)

  const FRESH := Store(0, map[])

  datatype Op =
    | Select(key: u64, victims: seq<u64>)
    | Update(key: u64, victims: seq<u64>, governor: string, reward: real)

  // ---------------------------------------------------------------- eviction

  /** The eviction order: by total visits, then by last use. */
  predicate AtMost(a: Bucket, b: Bucket) {
    || a.tally.total < b.tally.total
    || (a.tally.total == b.tally.total && a.lastUsed <= b.lastUsed)
  }

  ghost predicate IsLeast(bs: Buckets, k: u64) {
    k in bs && forall j :: j in bs ==> AtMost(bs[k], bs[j])
  }

  /** The buckets that survive the removal of the victims, unchanged. */
  function Drain(bs: Buckets, victims: seq<u64>): Buckets {
    map k | k in bs && k !in victims :: bs[k]
  }

  /** Each victim in turn is a least bucket of a store that is at its cap or over it. */
  ghost predicate Evicting(cap: nat, bs: Buckets, victims: seq<u64>) {
    victims == [] ||
    var n := |victims| - 1;
    && Evicting(cap, bs, victims[..n])
    && |Drain(bs, victims[..n])| >= cap
    && IsLeast(Drain(bs, victims[..n]), victims[n])
  }

  /** The runs of the eviction loop: it stops as soon as there is room. */
  ghost predicate Evicts(cap: nat, bs: Buckets, victims: seq<u64>) {
    Evicting(cap, bs, victims) && |Drain(bs, victims)| < cap
  }

  ghost predicate NoDuplicates(s: seq<u64>) {
    forall i, j :: 0 <= i < j < |s| ==> s[i] != s[j]
  }

  lemma DrainStep(bs: Buckets, front: seq<u64>, v: u64)
    ensures Drain(bs, front + [v]) == Drain(bs, front) - {v}
    ensures v in Drain(bs, front) ==> |Drain(bs, front + [v])| == |Drain(bs, front)| - 1
  {
    assert forall k :: k in front + [v] <==> k in front || k == v;
    var less, more := Drain(bs, front + [v]), Drain(bs, front);
    assert less.Keys == more.Keys - {v};
    assert less == more - {v};
  }

  lemma NoDuplicatesStep(front: seq<u64>, v: u64)
    requires NoDuplicates(front) && v !in front
    ensures NoDuplicates(front + [v])
  {
  }

  /** Every victim is another of the old buckets. */
  lemma {:induction false} VictimsAreBuckets(cap: nat, bs: Buckets, victims: seq<u64>)
    requires Evicting(cap, bs, victims)
    ensures NoDuplicates(victims)
    ensures forall v :: v in victims ==> v in bs
    ensures |Drain(bs, victims)| == |bs| - |victims|
  {
    if victims == [] {
      assert Drain(bs, victims) == bs;
    } else {
      var n := |victims| - 1;
      var front, v := victims[..n], victims[n];
      VictimsAreBuckets(cap, bs, front);
      assert victims == front + [v];
      assert v in Drain(bs, front);
      DrainStep(bs, front, v);
      NoDuplicatesStep(front, v);
    }
  }

  /** A victim has fewer visits than a survivor, or as many and was used no later. */
  lemma {:induction false} VictimsAreLeast(cap: nat, bs: Buckets, victims: seq<u64>, v: u64, k: u64)
    requires Evicting(cap, bs, victims) && v in victims && k in bs && k !in victims
    ensures v in bs
    ensures bs[v].tally.total < bs[k].tally.total ||
            (bs[v].tally.total == bs[k].tally.total && bs[v].lastUsed <= bs[k].lastUsed)
  {
    var n := |victims| - 1;
    VictimsAreBuckets(cap, bs, victims);
    assert victims == victims[..n] + [victims[n]];
    if v == victims[n] {
      assert k in Drain(bs, victims[..n]);
    } else {
      VictimsAreLeast(cap, bs, victims[..n], v, k);
    }
  }

  /**
   The loop removes exactly max(0, n - cap + 1) of n buckets; each has fewer visits than every survivor,
   or as many and was used no later.
   */
  lemma EvictsSmallest(cap: nat, bs: Buckets, victims: seq<u64>)
    requires cap >= 1 && Evicts(cap, bs, victims)
    ensures |victims| == SatSub(|bs| + 1, cap)
    ensures NoDuplicates(victims) && forall v :: v in victims ==> v in bs
    ensures |Drain(bs, victims)| == |bs| - |victims|
    ensures forall v, k :: v in victims && k in bs && k !in victims ==>
              bs[v].tally.total < bs[k].tally.total ||
              (bs[v].tally.total == bs[k].tally.total && bs[v].lastUsed <= bs[k].lastUsed)
  {
    VictimsAreBuckets(cap, bs, victims);
    if victims != [] {
      VictimsAreBuckets(cap, bs, victims[..|victims| - 1]);
    }
    forall v, k | v in victims && k in bs && k !in victims
      ensures bs[v].tally.total < bs[k].tally.total ||
              (bs[v].tally.total == bs[k].tally.total && bs[v].lastUsed <= bs[k].lastUsed)
    {
      VictimsAreLeast(cap, bs, victims, v, k);
    }
  }

  /** The loop leaves at most one bucket less than the cap, and none that a removed one is above. */
  lemma EvictionLeaves(cap: nat, bs: Buckets, victims: seq<u64>)
    requires cap >= 1 && Evicts(cap, bs, victims)
    ensures var left := Drain(bs, victims);
            && |left| == Min(|bs|, cap - 1)
            && forall v, k :: v in bs && v !in left && k in left ==>
                 bs[v].tally.total < left[k].tally.total ||
                 (bs[v].tally.total == left[k].tally.total && bs[v].lastUsed <= left[k].lastUsed)
  {
    EvictsSmallest(cap, bs, victims);
  }

  // ---------------------------------------------------------------- when the order of traversal matters

  /** Neither is above the other in the eviction order. */
  predicate Tied(a: Bucket, b: Bucket) {
    AtMost(a, b) && AtMost(b, a)
  }

  /** The buckets strictly below `k`. */
  function Smaller(bs: Buckets, k: u64): set<u64>
    requires k in bs
  {
    set j | j in bs && !AtMost(bs[k], bs[j])
  }

  /** Buckets that tie have enough smaller ones to fill the loop's victims. */
  ghost predicate TiesAreSafe(cap: nat, bs: Buckets) {
    forall j, k :: j in bs && k in bs && j != k && Tied(bs[j], bs[k]) ==> |Smaller(bs, j)| + cap > |bs|
  }

  function Members(s: seq<u64>): set<u64> {
    set x | x in s
  }

  lemma {:induction false} DistinctMembers(s: seq<u64>)
    requires NoDuplicates(s)
    ensures |Members(s)| == |s|
  {
    if s == [] {
      assert Members(s) == {};
    } else {
      var n := |s| - 1;
      DistinctMembers(s[..n]);
      SplitLast(s);
      assert Members(s) == Members(s[..n]) + {s[n]};
    }
  }

  lemma SubsetSize(a: set<u64>, b: set<u64>)
    requires a <= b
    ensures |a| <= |b|
    ensures |a| == |b| ==> a == b
  {
    assert b == a + (b - a);
  }

  /** When a bucket is least among the survivors, every smaller one has been evicted. */
  lemma SmallerAreGone(cap: nat, bs: Buckets, victims: seq<u64>, k: u64)
    requires Evicting(cap, bs, victims) && IsLeast(Drain(bs, victims), k)
    ensures k in bs && |Smaller(bs, k)| <= |victims|
  {
    VictimsAreBuckets(cap, bs, victims);
    DistinctMembers(victims);
    forall x | x in Smaller(bs, k)
      ensures x in Members(victims)
    {
      assert x !in victims ==> x in Drain(bs, victims);
    }
    SubsetSize(Smaller(bs, k), Members(victims));
  }

  lemma OneLeast(cap: nat, bs: Buckets, victims: seq<u64>, j: u64, k: u64)
    requires Evicting(cap, bs, victims) && |Drain(bs, victims)| >= cap && TiesAreSafe(cap, bs)
    requires IsLeast(Drain(bs, victims), j) && IsLeast(Drain(bs, victims), k)
    ensures j == k
  {
    VictimsAreBuckets(cap, bs, victims);
    SmallerAreGone(cap, bs, victims, j);
  }

  lemma {:induction false} VictimsAgree(cap: nat, bs: Buckets, v: seq<u64>, w: seq<u64>)
    requires Evicting(cap, bs, v) && Evicting(cap, bs, w) && TiesAreSafe(cap, bs) && |v| == |w|
    ensures v == w
  {
    if v == [] {
    } else {
      var n := |v| - 1;
      VictimsAgree(cap, bs, v[..n], w[..n]);
      OneLeast(cap, bs, v[..n], v[n], w[n]);
    }
  }

  lemma {:induction false} LeastExists(bs: Buckets) returns (k: u64)
    requires bs != map[]
    ensures IsLeast(bs, k)
    decreases |bs|
  {
    var j :| j in bs;
    var rest := bs - {j};
    assert forall m :: m in bs ==> m == j || m in rest;
    if rest == map[] {
      k := j;
    } else {
      k := LeastExists(rest);
      if AtMost(bs[j], bs[k]) {
        k := j;
      }
    }
  }

  lemma EvictingSnoc(cap: nat, bs: Buckets, front: seq<u64>, k: u64)
    requires Evicting(cap, bs, front) && |Drain(bs, front)| >= cap && IsLeast(Drain(bs, front), k)
    ensures Evicting(cap, bs, front + [k])
  {
    assert (front + [k])[..|front|] == front;
  }

  /** Any start of the loop can be continued to its end. */
  lemma {:induction false} EvictingCompletes(cap: nat, bs: Buckets, front: seq<u64>) returns (v: seq<u64>)
    requires cap >= 1 && Evicting(cap, bs, front)
    ensures Evicts(cap, bs, v) && front <= v
    decreases |Drain(bs, front)|
  {
    if |Drain(bs, front)| < cap {
      v := front;
    } else {
      var k := LeastExists(Drain(bs, front));
      EvictingSnoc(cap, bs, front, k);
      DrainStep(bs, front, k);
      v := EvictingCompletes(cap, bs, front + [k]);
    }
  }

  /** The loop can start with n of the buckets below j. */
  lemma {:induction false} EvictSmaller(cap: nat, bs: Buckets, j: u64, n: nat) returns (front: seq<u64>)
    requires cap >= 1 && j in bs && n <= |Smaller(bs, j)| && |Smaller(bs, j)| + cap <= |bs|
    ensures Evicting(cap, bs, front) && |front| == n && Members(front) <= Smaller(bs, j)
  {
    if n == 0 {
      front := [];
    } else {
      var less := EvictSmaller(cap, bs, j, n - 1);
      VictimsAreBuckets(cap, bs, less);
      DistinctMembers(less);
      var x := LeastExists(Drain(bs, less));
      if Smaller(bs, j) <= Members(less) {
        SubsetSize(Smaller(bs, j), Members(less));
      }
      var y :| y in Smaller(bs, j) && y !in Members(less);
      assert y in Drain(bs, less);
      EvictingSnoc(cap, bs, less, x);
      front := less + [x];
    }
  }

  /** Once all buckets below j are gone, whatever ties with j is least. */
  lemma TiedAreLeast(bs: Buckets, front: seq<u64>, j: u64, k: u64)
    requires j in bs && k in bs && Tied(bs[j], bs[k]) && Members(front) == Smaller(bs, j)
    ensures IsLeast(Drain(bs, front), k)
  {
    assert k !in Smaller(bs, j);
    assert k !in Members(front);
    forall x | x in Drain(bs, front)
      ensures AtMost(bs[k], bs[x])
    {
      assert x !in Members(front);
    }
  }

  /** Two buckets that tie with too few below them: either can be the next victim at some point. */
  lemma TieSplits(cap: nat, bs: Buckets, j: u64, k: u64) returns (v: seq<u64>, w: seq<u64>)
    requires cap >= 1 && j in bs && k in bs && j != k && Tied(bs[j], bs[k])
    requires |Smaller(bs, j)| + cap <= |bs|
    ensures Evicts(cap, bs, v) && Evicts(cap, bs, w) && v != w
  {
    var front := EvictSmaller(cap, bs, j, |Smaller(bs, j)|);
    VictimsAreBuckets(cap, bs, front);
    DistinctMembers(front);
    SubsetSize(Members(front), Smaller(bs, j));
    TiedAreLeast(bs, front, j, j);
    TiedAreLeast(bs, front, j, k);
    EvictingSnoc(cap, bs, front, j);
    EvictingSnoc(cap, bs, front, k);
    v := EvictingCompletes(cap, bs, front + [j]);
    w := EvictingCompletes(cap, bs, front + [k]);
    assert v[|front|] == j && w[|front|] == k;
  }

  /**
   The victims are the same in every order of traversal if and only if no two buckets tie that have
   fewer smaller buckets than the loop has victims.
   */
  lemma VictimForcedIff(cap: nat, bs: Buckets)
    requires cap >= 1
    ensures (forall v, w :: Evicts(cap, bs, v) && Evicts(cap, bs, w) ==> v == w) <==> TiesAreSafe(cap, bs)
  {
    if j, k :| j in bs && k in bs && j != k && Tied(bs[j], bs[k]) && |Smaller(bs, j)| + cap <= |bs| {
      var v, w := TieSplits(cap, bs, j, k);
    } else {
      forall v, w | Evicts(cap, bs, v) && Evicts(cap, bs, w)
        ensures v == w
      {
        EvictsSmallest(cap, bs, v);
        EvictsSmallest(cap, bs, w);
        VictimsAgree(cap, bs, v, w);
      }
    }
  }

  /** No two buckets were last used at the same tick. */
  ghost predicate DistinctUses(bs: Buckets) {
    forall j, k :: j in bs && k in bs && j != k ==> bs[j].lastUsed != bs[k].lastUsed
  }

  /** With distinct last uses the victims do not depend on the traversal order. */
  lemma EvictionIsDeterministic(cap: nat, bs: Buckets, v: seq<u64>, w: seq<u64>)
    requires cap >= 1 && Evicts(cap, bs, v) && Evicts(cap, bs, w) && DistinctUses(bs)
    ensures v == w
  {
    VictimForcedIff(cap, bs);
  }

  /** At the cap, every least bucket can be the victim. */
  lemma OneVictim(cap: nat, bs: Buckets, k: u64)
    requires |bs| == cap && IsLeast(bs, k)
    ensures Evicts(cap, bs, [k])
  {
    assert Drain(bs, []) == bs;
    EvictingSnoc(cap, bs, [], k);
    DrainStep(bs, [], k);
    assert [] + [k] == [k];
  }

  // ---------------------------------------------------------------- operations

  /** The buckets an operation on `key` works with: a missing key makes room first. */
  function Kept(bs: Buckets, key: u64, victims: seq<u64>): Buckets {
    if key in bs then bs else Drain(bs, victims)
  }

  /** The tally an operation on `key` starts from. */
  function TallyOf(bs: Buckets, key: u64): Tally {
    if key in bs then bs[key].tally else EMPTY
  }

  /** The tally an operation leaves in its own bucket. */
  function TallyAfter(t: Tally, op: Op): Tally {
    match op
    case Select(_, _) => t
    case Update(_, _, governor, reward) => CreditTally(t, governor, Clamp(reward, 0.0, 1.0))
  }

  function Apply(s: Store, op: Op): Store {
    var tick := if op.Select? then Succ64(s.tick) else s.tick;
    var own := Bucket(TallyAfter(TallyOf(s.buckets, op.key), op), tick);
    Store(tick, Kept(s.buckets, op.key, op.victims)[op.key := own])
  }

  /** A hit evicts nothing; a miss evicts what a run of the eviction loop does. */
  ghost predicate Legal(cap: nat, s: Store, op: Op) {
    if op.key in s.buckets then op.victims == [] else Evicts(cap, s.buckets, op.victims)
  }

  function ApplyAll(s: Store, ops: seq<Op>): Store {
    if ops == [] then s else Apply(ApplyAll(s, ops[..|ops| - 1]), ops[|ops| - 1])
  }

  ghost predicate LegalAll(cap: nat, s: Store, ops: seq<Op>) {
    ops == [] ||
    var n := |ops| - 1;
    LegalAll(cap, s, ops[..n]) && Legal(cap, ApplyAll(s, ops[..n]), ops[n])
  }

  lemma OneMoreOp(cap: nat, s: Store, ops: seq<Op>, op: Op)
    requires LegalAll(cap, s, ops) && Legal(cap, ApplyAll(s, ops), op)
    ensures LegalAll(cap, s, ops + [op]) && ApplyAll(s, ops + [op]) == Apply(ApplyAll(s, ops), op)
  {
    assert (ops + [op])[..|ops|] == ops;
  }

  lemma {:induction false} ApplyAllConcat(s: Store, ops: seq<Op>, more: seq<Op>)
    ensures ApplyAll(s, ops + more) == ApplyAll(ApplyAll(s, ops), more)
  {
    if more == [] {
      assert ops + more == ops;
    } else {
      var n := |more| - 1;
      assert (ops + more)[..|ops + more| - 1] == ops + more[..n];
      ApplyAllConcat(s, ops, more[..n]);
    }
  }

  lemma {:induction false} LegalAllConcat(cap: nat, s: Store, ops: seq<Op>, more: seq<Op>)
    requires LegalAll(cap, s, ops)
    ensures LegalAll(cap, s, ops + more) <==> LegalAll(cap, ApplyAll(s, ops), more)
  {
    if more == [] {
      assert ops + more == ops;
    } else {
      var n := |more| - 1;
      assert (ops + more)[..|ops + more| - 1] == ops + more[..n];
      LegalAllConcat(cap, s, ops, more[..n]);
      ApplyAllConcat(s, ops, more[..n]);
    }
  }

  /** What an operation does to one key's bucket. */
  ghost predicate Effect(s: Store, op: Op, now: Store, key: u64) {
    && op.key !in op.victims
    && (key in now.buckets <==> key == op.key || (key in s.buckets && key !in op.victims))
    && (key == op.key && key in now.buckets ==>
          && now.buckets[key] == Bucket(TallyAfter(TallyOf(s.buckets, key), op), now.tick))
    && (key != op.key && key in now.buckets ==> key in s.buckets && now.buckets[key] == s.buckets[key])
  }

  lemma OpEffect(cap: nat, s: Store, op: Op, key: u64)
    requires Legal(cap, s, op)
    ensures Effect(s, op, Apply(s, op), key)
  {
    if op.key !in s.buckets {
      VictimsAreBuckets(cap, s.buckets, op.victims);
    }
  }

  /** A hit keeps the number of buckets; a miss leaves at most `cap`, even of an oversized store. */
  lemma OpKeepsCap(cap: nat, s: Store, op: Op)
    requires cap >= 1 && Legal(cap, s, op)
    ensures op.key in s.buckets ==> Apply(s, op).buckets.Keys == s.buckets.Keys
    ensures op.key !in s.buckets ==> |Apply(s, op).buckets| <= cap
  {
    if op.key !in s.buckets {
      var left := Drain(s.buckets, op.victims);
      assert Apply(s, op).buckets.Keys == left.Keys + {op.key};
    }
  }

  /** No operation takes a store within its cap over it. */
  lemma {:induction false} CapIsKept(cap: nat, s: Store, ops: seq<Op>)
    requires cap >= 1 && |s.buckets| <= cap && LegalAll(cap, s, ops)
    ensures |ApplyAll(s, ops).buckets| <= cap
  {
    if ops == [] {
    } else {
      var n := |ops| - 1;
      CapIsKept(cap, s, ops[..n]);
      OpKeepsCap(cap, ApplyAll(s, ops[..n]), ops[n]);
      assert |ApplyAll(s, ops).buckets| == |ApplyAll(s, ops).buckets.Keys|;
    }
  }
}
