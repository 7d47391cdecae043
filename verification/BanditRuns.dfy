/**
 What a bucket can look like after credits: bookkeeping that holds for any credits, and
 bounds on the choices that hold when every credit went to the governor that was chosen.
 */
module BanditRuns {
  import opened Numbers
  import opened Bandit
  import opened RealArithmetic

  // ------------------------------------------------- the moving average in closed form

  lemma WeightStep(n: nat, i: nat)
    requires i < n
    ensures Weight(n + 1, i) == 0.8 * Weight(n, i)
  {
  }

  lemma Factor(a: real, w: real, x: real)
    ensures 0.8 * a + (0.8 * w) * x == 0.8 * (a + w * x)
  {
  }

  lemma {:induction false} WeightedSumStep(rs: seq<real>, r: real, n: nat, k: nat)
    requires 0 < k <= n && n == |rs|
    ensures WeightedSum(rs + [r], n + 1, k) == 0.8 * WeightedSum(rs, n, k)
  {
    WeightStep(n, k - 1);
    Factor(WeightedSum(rs, n, k - 1), Weight(n, k - 1), rs[k - 1]);
    if k == 1 {
    } else {
      WeightedSumStep(rs, r, n, k - 1);
    }
  }

  /** The closed form obeys the incremental rule of `update`. */
  lemma EmaStep(rs: seq<real>, r: real)
    ensures Ema(rs + [r]) == if rs == [] then r else 0.8 * Ema(rs) + 0.2 * r
  {
    var n := |rs|;
    assert (rs + [r])[n] == r;
    if n > 0 {
      WeightedSumStep(rs, r, n, n);
      assert Weight(n + 1, n) == 0.2 * Pow(0.8, 0);
    } else {
      assert rs + [r] == [r];
      assert WeightedSum([r], 1, 1) == WeightedSum([r], 1, 0) + Weight(1, 0) * r;
    }
  }

  /** The weights of the closed form sum to one. */
  lemma {:induction false} WeightsSumToOne(n: nat, k: nat)
    requires 0 < k <= n
    ensures WeightedSum(seq(n, _ => 1.0), n, k) == Pow(0.8, n - k)
  {
    if k > 1 {
      WeightsSumToOne(n, k - 1);
      assert Pow(0.8, n - k + 1) == 0.8 * Pow(0.8, n - k);
    } else {
      assert WeightedSum(seq(n, _ => 1.0), n, 0) == 0.0;
    }
  }

  /** The average of rewards in a range stays in the range. */
  lemma {:induction false} EmaInRange(rs: seq<real>, lo: real, hi: real)
    requires rs != []
    requires forall i :: 0 <= i < |rs| ==> lo <= rs[i] <= hi
    ensures lo <= Ema(rs) <= hi
  {
    var n := |rs| - 1;
    assert rs == rs[..n] + [rs[n]];
    EmaStep(rs[..n], rs[n]);
    if n == 0 {
    } else {
      EmaInRange(rs[..n], lo, hi);
    }
  }

  lemma Shrink(d: real, p: real, e: real)
    requires d == p * e
    ensures 0.8 * d == (0.8 * p) * e
  {
  }

  /** While the rewards equal r, the distance to r shrinks by exactly 0.8 per credit. */
  lemma {:induction false} EmaContracts(rs: seq<real>, r: real, k: nat)
    requires rs != []
    ensures Ema(rs + seq(k, _ => r)) - r == Pow(0.8, k) * (Ema(rs) - r)
  {
    if k == 0 {
      assert rs + seq(0, _ => r) == rs;
    } else {
      assert rs + seq(k, _ => r) == (rs + seq(k - 1, _ => r)) + [r];
      EmaStep(rs + seq(k - 1, _ => r), r);
      EmaContracts(rs, r, k - 1);
      Shrink(Ema(rs + seq(k - 1, _ => r)) - r, Pow(0.8, k - 1), Ema(rs) - r);
    }
  }

  // ------------------------------------------------- the tally agrees with its credits

  /** Every count and average of a tally is determined by the credits, one governor at a time. */
  lemma {:induction false} FoldAgrees(cs: seq<Credit>, g: string)
    ensures Fold(cs).total == Min(0xFFFF_FFFF, |cs|)
    ensures VisitsOf(Fold(cs), g) == Min(0xFFFF_FFFF, |RewardsTo(cs, g)|)
    ensures g in Fold(cs).arms <==> RewardsTo(cs, g) != []
    ensures g in Fold(cs).arms ==> Fold(cs).arms[g].ema == Ema(RewardsTo(cs, g))
  {
    if cs == [] {
    } else {
      var n := |cs| - 1;
      FoldAgrees(cs[..n], g);
      EmaStep(RewardsTo(cs[..n], g), cs[n].reward);
      assert cs[n].governor != g ==> RewardsTo(cs, g) == RewardsTo(cs[..n], g);
    }
  }

  lemma {:induction false} RewardsAreCredited(cs: seq<Credit>, g: string, i: nat)
    requires i < |RewardsTo(cs, g)|
    ensures Credit(g, RewardsTo(cs, g)[i]) in cs
  {
    var n := |cs| - 1;
    if i < |RewardsTo(cs[..n], g)| {
      RewardsAreCredited(cs[..n], g, i);
    } else {
      assert cs[n] == Credit(g, RewardsTo(cs, g)[i]);
    }
  }

  /** If all rewards to g lie in a range, so does its average. */
  lemma ArmInRange(cs: seq<Credit>, g: string, lo: real, hi: real)
    requires g in Fold(cs).arms
    requires forall c :: c in cs && c.governor == g ==> lo <= c.reward <= hi
    ensures lo <= Fold(cs).arms[g].ema <= hi
  {
    FoldAgrees(cs, g);
    forall i | 0 <= i < |RewardsTo(cs, g)|
      ensures lo <= RewardsTo(cs, g)[i] <= hi
    {
      RewardsAreCredited(cs, g, i);
    }
    EmaInRange(RewardsTo(cs, g), lo, hi);
  }

  /** No governor has more visits than its bucket. */
  lemma VisitsBelowTotal(cs: seq<Credit>, g: string)
    ensures VisitsOf(Fold(cs), g) <= Fold(cs).total
  {
    FoldAgrees(cs, g);
  }

  ghost function SumVisits(arms: map<string, Stats>): nat
    decreases |arms|
  {
    if arms == map[] then 0
    else
      var g :| g in arms;
      arms[g].visits + SumVisits(arms - {g})
  }

  lemma {:induction false} SumVisitsPick(arms: map<string, Stats>, g: string)
    requires g in arms
    ensures SumVisits(arms) == arms[g].visits + SumVisits(arms - {g})
    decreases |arms|
  {
    var h :| h in arms && SumVisits(arms) == arms[h].visits + SumVisits(arms - {h});
    if g == h {
    } else {
      SumVisitsPick(arms - {h}, g);
      SumVisitsPick(arms - {g}, h);
      assert arms - {h} - {g} == arms - {g} - {h};
    }
  }

  lemma SumVisitsUpdate(arms: map<string, Stats>, g: string, s: Stats)
    ensures SumVisits(arms[g := s]) == s.visits + SumVisits(arms - {g})
  {
    SumVisitsPick(arms[g := s], g);
    assert arms[g := s] - {g} == arms - {g};
  }

  /** A bucket's total is the saturated sum of its governors' visits. */
  lemma {:induction false} VisitsConserved(cs: seq<Credit>)
    ensures Fold(cs).total == Min(0xFFFF_FFFF, SumVisits(Fold(cs).arms))
  {
    if cs == [] {
    } else {
      var n := |cs| - 1;
      var t, g := Fold(cs[..n]), cs[n].governor;
      VisitsConserved(cs[..n]);
      SumVisitsUpdate(t.arms, g, Fold(cs).arms[g]);
      if g in t.arms {
        SumVisitsPick(t.arms, g);
      } else {
        assert t.arms - {g} == t.arms;
      }
    }
  }

  /** A product as repeated addition. */
  function Times(x: nat, n: nat): nat {
    if n == 0 then 0 else Times(x, n - 1) + x
  }

  lemma {:induction false} SumVisitsAtMost(arms: map<string, Stats>, bound: nat)
    requires forall g :: g in arms ==> arms[g].visits <= bound
    ensures SumVisits(arms) <= Times(bound, |arms|)
    decreases |arms|
  {
    if arms == map[] {
    } else {
      var g :| g in arms;
      var rest := arms - {g};
      SumVisitsPick(arms, g);
      SumVisitsAtMost(rest, bound);
      assert rest.Keys == arms.Keys - {g};
      assert |rest| == |arms| - 1;
    }
  }

  lemma {:induction false} TimesIsProduct(x: nat, n: nat)
    ensures Times(x, n) == x * n
  {
    if n == 0 {
    } else {
      TimesIsProduct(x, n - 1);
      assert x * n == x * (n - 1) + x;
    }
  }

  lemma {:induction false} TimesGrows(x: nat, n: nat, k: nat)
    requires n <= k
    ensures Times(x, n) <= Times(x, k)
  {
    if n == k {
    } else {
      TimesGrows(x, n, k - 1);
    }
  }

  // ------------------------------------------------- facts about the bonus

  lemma LogTermGrows(m: Math, n: u32, k: u32)
    requires Lawful(m) && n <= k
    ensures 0.0 <= LogTerm(m, n) <= LogTerm(m, k)
    ensures n >= 5 ==> LogTerm(m, n) >= 1.79
  {
    var x := (if n >= 1 then n else 1) as real + 1.0;
    var y := (if k >= 1 then k else 1) as real + 1.0;
    assert m.ln(2.0) <= m.ln(x) <= m.ln(y);
    assert n >= 5 ==> m.ln(6.0) <= m.ln(x);
  }

  /** The bonus is 0.7 times the root of its argument. */
  lemma BonusRoot(m: Math, lnN: real, v: u32)
    returns (s: real)
    requires Lawful(m) && lnN >= 0.0
    ensures IsRoot(s, lnN / (v as real + 1.0)) && Bonus(m, lnN, v) == UCB_C * s
  {
    assert lnN / (v as real + 1.0) >= 0.0;
    s := m.sqrt(lnN / (v as real + 1.0));
    assert IsRoot(m.sqrt(lnN / (v as real + 1.0)), lnN / (v as real + 1.0));
  }

  /** From 5 total visits on, an unseen arm's bonus makes up for any average. */
  lemma ExplorationGap(m: Math, lnN: real, v: u32)
    requires Lawful(m) && lnN >= 1.79 && v >= 5
    ensures 1.0 + Bonus(m, lnN, v) < 0.45 + Bonus(m, lnN, 0)
  {
    var s := BonusRoot(m, lnN, 0);
    var t := BonusRoot(m, lnN, v);
    assert lnN / (v as real + 1.0) <= lnN / 6.0;
    RootAtMost(t, lnN / (v as real + 1.0), s, lnN / 1.0, 0.4083);
    if s < 1.33 {
      SquareGrows(s, 1.33);
    }
  }
}
