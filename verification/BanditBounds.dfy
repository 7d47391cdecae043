/**
 Bounds on UCB choices. `Guided` credits are those of a bucket that started empty and whose
 every credit went to the governor chosen at that point, with a reward in [0, 1].
 */
module BanditBounds {
  import opened Numbers
  import opened Bandit
  import opened BanditRuns
  import opened RealArithmetic

  ghost predicate Guided(m: Math, actions: seq<string>, prior: string, cs: seq<Credit>)
    requires actions != []
  {
    cs == [] ||
    var n := |cs| - 1;
    && Guided(m, actions, prior, cs[..n])
    && cs[n].governor == Choose(m, Fold(cs[..n]), actions, prior).governor
    && InUnit(cs[n].reward)
  }

  lemma GuidedSnoc(m: Math, actions: seq<string>, prior: string, cs: seq<Credit>, c: Credit)
    requires actions != [] && Guided(m, actions, prior, cs) && InUnit(c.reward)
    requires c.governor == Choose(m, Fold(cs), actions, prior).governor
    ensures Guided(m, actions, prior, cs + [c])
  {
    assert (cs + [c])[..|cs|] == cs;
  }

  lemma {:induction false} GuidedCredits(m: Math, actions: seq<string>, prior: string, cs: seq<Credit>)
    requires actions != [] && Guided(m, actions, prior, cs)
    ensures forall c :: c in cs ==> c.governor in actions && InUnit(c.reward)
  {
    if cs == [] {
    } else {
      var n := |cs| - 1;
      GuidedCredits(m, actions, prior, cs[..n]);
      ChosenIsBest(m, Fold(cs[..n]), actions, prior);
      assert cs == cs[..n] + [cs[n]];
    }
  }

  /** In a guided bucket every tried governor is listed and has an average in [0, 1]. */
  lemma GuidedArms(m: Math, actions: seq<string>, prior: string, cs: seq<Credit>)
    requires actions != [] && Guided(m, actions, prior, cs)
    ensures forall g :: g in Fold(cs).arms ==> g in actions && InUnit(Fold(cs).arms[g].ema)
  {
    GuidedCredits(m, actions, prior, cs);
    forall g | g in Fold(cs).arms
      ensures g in actions && InUnit(Fold(cs).arms[g].ema)
    {
      FoldAgrees(cs, g);
      RewardsAreCredited(cs, g, 0);
      ArmInRange(cs, g, 0.0, 1.0);
    }
  }

  // ------------------------------------------------- exploration

  /** A fresh bucket first tries its prior governor. */
  lemma FirstChoiceIsPrior(m: Math, actions: seq<string>, prior: string)
    requires prior in actions
    ensures Choose(m, EMPTY, actions, prior).governor == prior
  {
    ChosenIsBest(m, EMPTY, actions, prior);
  }

  /** A governor with 5 visits is never chosen while a listed one is unseen. */
  lemma TriedYieldsToUnseen(m: Math, actions: seq<string>, prior: string, cs: seq<Credit>, unseen: string)
    requires unseen in actions && Lawful(m) && Guided(m, actions, prior, cs)
    requires unseen !in Fold(cs).arms
    ensures VisitsOf(Fold(cs), Choose(m, Fold(cs), actions, prior).governor) < 5
  {
    var t := Fold(cs);
    var g := Choose(m, t, actions, prior).governor;
    ChosenIsBest(m, t, actions, prior);
    if VisitsOf(t, g) >= 5 {
      GuidedArms(m, actions, prior, cs);
      VisitsBelowTotal(cs, g);
      LogTermGrows(m, t.total, t.total);
      ExplorationGap(m, LogTerm(m, t.total), t.arms[g].visits);
      assert false;
    }
  }

  /** While a listed governor is unseen, no governor gets past 5 visits. */
  lemma {:induction false} FiveVisitsWhileUnseen(
      m: Math, actions: seq<string>, prior: string, cs: seq<Credit>, unseen: string, g: string)
    requires unseen in actions && Lawful(m) && Guided(m, actions, prior, cs)
    requires unseen !in Fold(cs).arms
    ensures VisitsOf(Fold(cs), g) <= 5
  {
    if cs == [] {
    } else {
      var n := |cs| - 1;
      assert unseen !in Fold(cs[..n]).arms;
      FiveVisitsWhileUnseen(m, actions, prior, cs[..n], unseen, g);
      TriedYieldsToUnseen(m, actions, prior, cs[..n], unseen);
    }
  }

  lemma Subset(a: set<string>, b: set<string>)
    requires a <= b
    ensures |a| <= |b|
  {
    assert b == a + (b - a);
  }

  /** With k distinct governors, 5(k-1)+1 visits are enough to have tried every one. */
  lemma EveryGovernorTried(m: Math, actions: seq<string>, prior: string, cs: seq<Credit>)
    requires actions != [] && Lawful(m) && Guided(m, actions, prior, cs)
    requires Fold(cs).total >= 5 * (|set a | a in actions| - 1) + 1
    ensures forall a :: a in actions ==> a in Fold(cs).arms
  {
    var listed := set a | a in actions;
    var arms := Fold(cs).arms;
    forall u | u in actions
      ensures u in arms
    {
      if u !in arms {
        forall g | g in arms
          ensures arms[g].visits <= 5
        {
          FiveVisitsWhileUnseen(m, actions, prior, cs, u, g);
        }
        SumVisitsAtMost(arms, 5);
        TimesIsProduct(5, |arms|);
        VisitsConserved(cs);
        GuidedArms(m, actions, prior, cs);
        Subset(arms.Keys, listed - {u});
        assert false;
      }
    }
  }

  // ------------------------------------------------- the logarithmic bound

  /** A number of visits that a squared gap of dd and a log term of lnN allow. */
  ghost predicate FewVisits(v: u32, lnN: real, dd: real) {
    v <= 5 || v as real * dd <= 0.49 * lnN
  }

  lemma FewerVisits(v: u32, lnN: real, dd: real)
    requires dd <= 0.49 * (lnN / (v as real + 1.0)) && dd >= 0.0
    ensures FewVisits(Succ32(v), lnN, dd)
  {
    var n := v as real + 1.0;
    ProductGrows(dd, 0.49 * (lnN / n), n);
    assert 0.49 * (lnN / n) * n == 0.49 * lnN;
    ProductGrows(Succ32(v) as real, n, dd);
  }

  /** A bonus that makes up for a gap d needs a log term in proportion to the visits. */
  lemma BonusCoversGap(m: Math, lnN: real, v: u32, d: real, dd: real)
    requires Lawful(m) && lnN >= 0.0 && d > 0.0 && dd == d * d && Bonus(m, lnN, v) >= d
    ensures FewVisits(Succ32(v), lnN, dd)
  {
    var s := BonusRoot(m, lnN, v);
    var n := v as real + 1.0;
    var w := 0.7 * s;
    SquareGrowsWeakly(d, w);
    assert w * w == 0.49 * (lnN / n);
    FewerVisits(v, lnN, dd);
  }

  /** Every reward paid to a is at most hi, every reward paid to b at least hi + d. */
  ghost predicate Separated(cs: seq<Credit>, a: string, b: string, hi: real, d: real) {
    forall c :: c in cs ==> (c.governor == a ==> c.reward <= hi) && (c.governor == b ==> c.reward >= hi + d)
  }

  lemma SeparatedPrefix(cs: seq<Credit>, a: string, b: string, hi: real, d: real)
    requires cs != [] && Separated(cs, a, b, hi, d)
    ensures Separated(cs[..|cs| - 1], a, b, hi, d)
  {
  }

  /** If both have been tried, the average of b is at least d above that of a. */
  lemma AveragesApart(cs: seq<Credit>, a: string, b: string, hi: real, d: real)
    requires Separated(cs, a, b, hi, d)
    requires forall c :: c in cs ==> InUnit(c.reward)
    requires a in Fold(cs).arms && b in Fold(cs).arms
    ensures Fold(cs).arms[a].ema + d <= Fold(cs).arms[b].ema
  {
    ArmInRange(cs, a, 0.0, hi);
    ArmInRange(cs, b, hi + d, 1.0);
  }

  lemma BonusNonnegative(m: Math, lnN: real, v: u32)
    requires Lawful(m) && lnN >= 0.0
    ensures Bonus(m, lnN, v) >= 0.0
  {
    var s := BonusRoot(m, lnN, v);
  }

  lemma BetterAverageLoses(m: Math, t: Tally, actions: seq<string>, prior: string,
                           a: string, b: string, d: real, dd: real)
    requires b in actions && Lawful(m) && d > 0.0 && dd == d * d
    requires a in t.arms && b in t.arms && t.arms[a].ema + d <= t.arms[b].ema
    requires Choose(m, t, actions, prior).governor == a
    ensures FewVisits(Succ32(t.arms[a].visits), m.ln((if t.total >= 1 then t.total else 1) as real + 1.0), dd)
  {
    var lnN := LogTerm(m, t.total);
    LogTermGrows(m, t.total, t.total);
    ChosenIsBest(m, t, actions, prior);
    BonusNonnegative(m, lnN, t.arms[b].visits);
    assert Score(m, t, prior, b) <= Score(m, t, prior, a);
    BonusCoversGap(m, lnN, t.arms[a].visits, d, dd);
  }

  /** Choosing a although b averages at least d more is paid for by the log term. */
  lemma WrongChoiceIsRare(m: Math, actions: seq<string>, prior: string, cs: seq<Credit>,
                          a: string, b: string, hi: real, d: real, dd: real)
    requires b in actions && Lawful(m) && Guided(m, actions, prior, cs)
    requires d > 0.0 && dd == d * d && Separated(cs, a, b, hi, d)
    requires Choose(m, Fold(cs), actions, prior).governor == a
    ensures var t := Fold(cs);
            FewVisits(Succ32(VisitsOf(t, a)), m.ln((if t.total >= 1 then t.total else 1) as real + 1.0), dd)
  {
    var t := Fold(cs);
    if b !in t.arms {
      TriedYieldsToUnseen(m, actions, prior, cs, b);
    } else if a in t.arms {
      GuidedCredits(m, actions, prior, cs);
      AveragesApart(cs, a, b, hi, d);
      BetterAverageLoses(m, t, actions, prior, a, b, d, dd);
    }
  }

  lemma FewVisitsPersist(v: u32, lnN: real, lnK: real, dd: real)
    requires FewVisits(v, lnN, dd) && lnN <= lnK
    ensures FewVisits(v, lnK, dd)
  {
  }

  /**
   If every reward paid to a is at most hi, every reward paid to b at least hi + d, and d > 0,
   then a has at most 5 visits, or visits * d^2 is at most 0.49 ln_n.
   */
  lemma {:induction false} WrongChoicesAreLogarithmic(
      m: Math, actions: seq<string>, prior: string, cs: seq<Credit>,
      a: string, b: string, hi: real, d: real, dd: real)
    requires b in actions && Lawful(m) && Guided(m, actions, prior, cs)
    requires d > 0.0 && dd == d * d && Separated(cs, a, b, hi, d)
    ensures var t := Fold(cs);
            FewVisits(VisitsOf(t, a), m.ln((if t.total >= 1 then t.total else 1) as real + 1.0), dd)
  {
    if cs == [] {
    } else {
      var n := |cs| - 1;
      var t := Fold(cs[..n]);
      SeparatedPrefix(cs, a, b, hi, d);
      WrongChoicesAreLogarithmic(m, actions, prior, cs[..n], a, b, hi, d, dd);
      if cs[n].governor == a {
        WrongChoiceIsRare(m, actions, prior, cs[..n], a, b, hi, d, dd);
      }
      LogTermGrows(m, t.total, Fold(cs).total);
      FewVisitsPersist(VisitsOf(Fold(cs), a), LogTerm(m, t.total), LogTerm(m, Fold(cs).total), dd);
    }
  }

  // ------------------------------------------------- the best governor gets the rest

  /** b is worth at least d more than every other listed governor. */
  ghost predicate BestBy(cs: seq<Credit>, actions: seq<string>, b: string, hi: real, d: real) {
    forall a :: a in actions && a != b ==> Separated(cs, a, b, hi, d)
  }

  /** The listed governors other than b. */
  function Rivals(actions: seq<string>, b: string): set<string> {
    set a | a in actions && a != b
  }

  lemma AtMostAllowed(v: u32, lnN: real, dd: real, most: nat)
    requires FewVisits(v, lnN, dd) && dd > 0.0 && most >= 5 && most as real * dd >= 0.49 * lnN
    ensures v <= most
  {
    if v > 5 {
      ProductCancels(v as real, most as real, dd);
    }
  }

  lemma RivalsStayFew(m: Math, actions: seq<string>, prior: string, cs: seq<Credit>,
                      b: string, hi: real, d: real, dd: real, most: nat, a: string)
    requires b in actions && Lawful(m) && Guided(m, actions, prior, cs)
    requires d > 0.0 && dd == d * d && Separated(cs, a, b, hi, d)
    requires var n := Fold(cs).total;
             most >= 5 && most as real * dd >= 0.49 * m.ln((if n >= 1 then n else 1) as real + 1.0)
    ensures VisitsOf(Fold(cs), a) <= most
  {
    WrongChoicesAreLogarithmic(m, actions, prior, cs, a, b, hi, d, dd);
    SquarePositive(d, dd);
    AtMostAllowed(VisitsOf(Fold(cs), a), LogTerm(m, Fold(cs).total), dd, most);
  }

  lemma OthersAtMost(arms: map<string, Stats>, actions: seq<string>, b: string, most: nat)
    requires forall g :: g in arms ==> g in actions
    requires forall g :: g in arms && g != b ==> arms[g].visits <= most
    ensures SumVisits(arms) <= (if b in arms then arms[b].visits else 0) + Times(most, |Rivals(actions, b)|)
  {
    var rest := arms - {b};
    SumVisitsAtMost(rest, most);
    if b in arms {
      SumVisitsPick(arms, b);
    } else {
      assert rest == arms;
    }
    Subset(rest.Keys, Rivals(actions, b));
    TimesGrows(most, |rest|, |Rivals(actions, b)|);
  }

  /**
   If b is worth at least d more than each of its rivals, all visits but at most
   max(5, 0.49 ln_n / d^2) for each rival go to b; `most` is that maximum or any number above it.
   */
  lemma BestGovernorGetsTheRest(m: Math, actions: seq<string>, prior: string, cs: seq<Credit>,
                                b: string, hi: real, d: real, dd: real, most: nat)
    requires b in actions && Lawful(m) && Guided(m, actions, prior, cs)
    requires d > 0.0 && dd == d * d && BestBy(cs, actions, b, hi, d)
    requires var n := Fold(cs).total;
             most >= 5 && most as real * dd >= 0.49 * m.ln((if n >= 1 then n else 1) as real + 1.0)
    ensures VisitsOf(Fold(cs), b) + most * |Rivals(actions, b)| >= Fold(cs).total
  {
    var arms := Fold(cs).arms;
    GuidedArms(m, actions, prior, cs);
    forall g | g in arms && g != b
      ensures arms[g].visits <= most
    {
      RivalsStayFew(m, actions, prior, cs, b, hi, d, dd, most, g);
    }
    OthersAtMost(arms, actions, b, most);
    TimesIsProduct(most, |Rivals(actions, b)|);
    VisitsConserved(cs);
  }

  // ------------------------------------------------- no governor is abandoned

  /** The bonus of v_a visits beats any average plus the bonus of 4(v_a+1)-1 visits. */
  lemma StarvedBonusWins(m: Math, lnN: real, va: u32, vc: u32)
    requires Lawful(m)
    requires lnN > 4.0 / 0.49 * (va as real + 1.0)
    requires vc as int + 1 >= 4 * (va as int + 1)
    ensures 1.0 + Bonus(m, lnN, vc) < Bonus(m, lnN, va)
  {
    var s := BonusRoot(m, lnN, va);
    var t := BonusRoot(m, lnN, vc);
    var na, nc := va as real + 1.0, vc as real + 1.0;
    QuotientAtMost(lnN, na, nc);
    RootAtMost(t, lnN / nc, s, lnN / na, 0.5);
    DivideOutStrictly(4.0 / 0.49, na, lnN);
    if s <= 20.0 / 7.0 {
      ProductGrows(s, 20.0 / 7.0, s);
    }
  }

  /** However good c looks, it is passed over once a listed a has fallen behind by a factor of 4. */
  lemma StarvedIsPreferred(m: Math, t: Tally, actions: seq<string>, prior: string, a: string)
    requires Lawful(m) && a in actions
    requires forall g :: g in t.arms ==> InUnit(t.arms[g].ema)
    requires m.ln((if t.total >= 1 then t.total else 1) as real + 1.0) > 4.0 / 0.49 * (VisitsOf(t, a) as real + 1.0)
    ensures VisitsOf(t, Choose(m, t, actions, prior).governor) < 4 * (VisitsOf(t, a) + 1) - 1
  {
    var c := Choose(m, t, actions, prior).governor;
    ChosenIsBest(m, t, actions, prior);
    if VisitsOf(t, c) >= 4 * (VisitsOf(t, a) + 1) - 1 {
      StarvedBonusWins(m, LogTerm(m, t.total), VisitsOf(t, a), VisitsOf(t, c));
      assert false;
    }
  }

  /** Visits of any c are held down by those of any listed a, up to a log of c's own visits. */
  ghost predicate NotAbandoned(m: Math, va: u32, vc: u32) {
    || vc < 4 * (va + 1)
    || m.ln(vc as real) <= 4.0 / 0.49 * (va as real + 1.0)
  }

  lemma ChosenIsNotAhead(m: Math, actions: seq<string>, prior: string, cs: seq<Credit>, a: string, c: string)
    requires a in actions && Lawful(m) && Guided(m, actions, prior, cs)
    requires Choose(m, Fold(cs), actions, prior).governor == c
    ensures NotAbandoned(m, VisitsOf(Fold(cs), a), Succ32(VisitsOf(Fold(cs), c)))
  {
    var t := Fold(cs);
    var v := VisitsOf(t, c);
    GuidedArms(m, actions, prior, cs);
    VisitsBelowTotal(cs, c);
    if LogTerm(m, t.total) > 4.0 / 0.49 * (VisitsOf(t, a) as real + 1.0) {
      StarvedIsPreferred(m, t, actions, prior, a);
    } else if v > 0 {
      LogTermGrows(m, Succ32(v) - 1, t.total);
    }
  }

  lemma {:induction false} NoGovernorAbandoned(
      m: Math, actions: seq<string>, prior: string, cs: seq<Credit>, a: string, c: string)
    requires a in actions && Lawful(m) && Guided(m, actions, prior, cs)
    ensures NotAbandoned(m, VisitsOf(Fold(cs), a), VisitsOf(Fold(cs), c))
  {
    if cs == [] {
    } else {
      var n := |cs| - 1;
      NoGovernorAbandoned(m, actions, prior, cs[..n], a, c);
      if cs[n].governor == c {
        ChosenIsNotAhead(m, actions, prior, cs[..n], a, c);
      }
    }
  }

  lemma SomeoneIsAhead(arms: map<string, Stats>, q: nat) returns (c: string)
    requires SumVisits(arms) > Times(q, |arms|)
    ensures c in arms && arms[c].visits > q
  {
    if forall g :: g in arms ==> arms[g].visits <= q {
      SumVisitsAtMost(arms, q);
    }
    c :| c in arms && arms[c].visits > q;
  }

  /** Visits that a governor has once some governor has more than q. */
  ghost predicate HasShare(m: Math, va: u32, q: u32) {
    || q + 1 < 4 * (va + 1)
    || m.ln(q as real + 1.0) <= 4.0 / 0.49 * (va as real + 1.0)
  }

  /**
   Every listed governor gets a logarithmic share: with more than q visits for each of the k listed
   governors, a has more than (q+1)/4 - 1 visits, or at least (0.49/4) ln(q+1) - 1.
   */
  lemma EveryGovernorGetsAShare(m: Math, actions: seq<string>, prior: string, cs: seq<Credit>, a: string, q: u32)
    requires a in actions && Lawful(m) && Guided(m, actions, prior, cs)
    requires Fold(cs).total > q * |set g | g in actions|
    ensures HasShare(m, VisitsOf(Fold(cs), a), q)
  {
    var arms, listed := Fold(cs).arms, set g | g in actions;
    VisitsConserved(cs);
    GuidedArms(m, actions, prior, cs);
    Subset(arms.Keys, listed);
    TimesGrows(q, |arms|, |listed|);
    TimesIsProduct(q, |listed|);
    var c := SomeoneIsAhead(arms, q);
    NoGovernorAbandoned(m, actions, prior, cs, a, c);
    LogTermGrows(m, q, arms[c].visits - 1);
  }
}
