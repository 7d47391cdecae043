/**
 One bucket of the episodic memory seen as a bandit: per-governor visit counts and
 exponential moving averages, the UCB scores, and the choice of a governor.
 */
module Bandit {
  import opened Numbers
  import opened RealArithmetic
  import opened Wrappers

  const UCB_C := 0.7
  const EMA_ALPHA := 0.2

  /** The two transcendental functions the scores use; nothing is assumed until `Lawful`. */
  datatype Math = Math(ln: real -> real, sqrt: real -> real)

  datatype Stats = Stats(visits: u32, ema: real)

  datatype Tally = Tally(total: u32, arms: map<string, Stats>)

  const EMPTY := Tally(0, map[])

  datatype Choice = Choice(governor: string, confidence: real)

  /** A reward paid to a governor. */
  datatype Credit = Credit(governor: string, reward: real)

  /** What the theorems need of `ln` and `sqrt`; the usual functions satisfy it. */
  ghost predicate Lawful(m: Math) {
    && (forall x, y :: 2.0 <= x <= y ==> m.ln(x) <= m.ln(y))
    && 0.0 <= m.ln(2.0)
    && 1.79 <= m.ln(6.0)
    && (forall x {:trigger IsRoot(m.sqrt(x), x)} :: 0.0 <= x ==> IsRoot(m.sqrt(x), x))
  }

  // ---------------------------------------------------------------- scores

  /** `ln_n`: the logarithm of one more than the visits, counting at least one visit. */
  function LogTerm(m: Math, total: u32): real {
    m.ln((if total >= 1 then total else 1) as real + 1.0)
  }

  function Bonus(m: Math, lnN: real, visits: u32): real {
    UCB_C * m.sqrt(lnN / (visits as real + 1.0))
  }

  /** The visits and value an action enters the ranking with; unseen actions get a prior. */
  function Standing(t: Tally, prior: string, action: string): Stats {
    if action in t.arms then t.arms[action]
    else Stats(0, if action == prior then 0.72 else 0.45)
  }

  function Score(m: Math, t: Tally, prior: string, action: string): real {
    var s := Standing(t, prior, action);
    s.ema + Bonus(m, LogTerm(m, t.total), s.visits)
  }

  function Scores(m: Math, t: Tally, actions: seq<string>, prior: string): seq<real> {
    seq(|actions|, i requires 0 <= i < |actions| => Score(m, t, prior, actions[i]))
  }

  // ---------------------------------------------------------------- ranking

  ghost predicate IsFirstMax(s: seq<real>, i: nat) {
    && i < |s|
    && (forall j :: 0 <= j < |s| ==> s[j] <= s[i])
    && (forall j :: 0 <= j < i ==> s[j] < s[i])
  }

  /** The first index of a maximal score. */
  function ArgMax(s: seq<real>): (i: nat)
    requires s != []
    ensures i < |s|
  {
    var n := |s| - 1;
    if n == 0 then 0
    else
      var j := ArgMax(s[..n]);
      if s[n] > s[j] then n else j
  }

  lemma {:induction false} ArgMaxIsFirstMax(s: seq<real>)
    requires s != []
    ensures IsFirstMax(s, ArgMax(s))
  {
    var n := |s| - 1;
    if n == 0 {
    } else {
      ArgMaxIsFirstMax(s[..n]);
      var j := ArgMax(s[..n]);
      assert s[..n][j] == s[j];
    }
  }

  lemma FirstMaxIsUnique(s: seq<real>, i: nat, j: nat)
    requires IsFirstMax(s, i) && IsFirstMax(s, j)
    ensures i == j
  {
    assert s[i] <= s[j] && s[j] <= s[i];
  }

  /** `x` is the greatest score at an index other than `i`; there is none if `i` is alone. */
  ghost predicate IsRunnerUp(s: seq<real>, i: nat, x: Option<real>) {
    match x
    case None => |s| == 0 || (|s| == 1 && i == 0)
    case Some(v) =>
      && (exists j :: 0 <= j < |s| && j != i && s[j] == v)
      && (forall j :: 0 <= j < |s| && j != i ==> s[j] <= v)
  }

  /** The greatest score at an index other than `i`. */
  function RunnerUp(s: seq<real>, i: nat): Option<real> {
    if s == [] then None
    else
      var n := |s| - 1;
      var rest := RunnerUp(s[..n], i);
      if n == i then rest
      else if rest.None? || s[n] > rest.value then Some(s[n])
      else rest
  }

  lemma {:induction false} RunnerUpIsRunnerUp(s: seq<real>, i: nat)
    ensures IsRunnerUp(s, i, RunnerUp(s, i))
  {
    if s == [] {
    } else {
      var n := |s| - 1;
      var rest := RunnerUp(s[..n], i);
      RunnerUpIsRunnerUp(s[..n], i);
      assert forall j :: 0 <= j < n ==> s[..n][j] == s[j];
      if rest.Some? {
        var j :| 0 <= j < n && j != i && s[..n][j] == rest.value;
        assert s[j] == rest.value;
      }
      assert s[n] == s[|s| - 1];
    }
  }

  lemma RunnerUpIsUnique(s: seq<real>, i: nat, x: Option<real>, y: Option<real>)
    requires IsRunnerUp(s, i, x) && IsRunnerUp(s, i, y)
    ensures x == y
  {
    if x.Some? && y.Some? {
      var j :| 0 <= j < |s| && j != i && s[j] == x.value;
      var k :| 0 <= k < |s| && k != i && s[k] == y.value;
      assert s[j] <= s[k] && s[k] <= s[j];
    }
  }

  /** The confidence percentage, from the winner's visits and its lead over the runner-up. */
  function Confidence(best: real, second: Option<real>, visits: u32): (c: real)
    ensures 5.0 <= c <= 100.0
  {
    var margin := if second.Some? then MaxReal(best - second.value, 0.0) else 1.0;
    var visitConf := MinReal(visits as real * 5.0, 100.0);
    var marginConf := MinReal(margin * 80.0, 100.0);
    Clamp(MaxReal(visitConf, marginConf), 5.0, 100.0)
  }

  /** Full confidence needs 20 visits or a lead of 1.25; the least means at most 1 visit and a lead of 1/16. */
  lemma ConfidenceExtremes(best: real, second: real, visits: u32)
    requires second <= best
    ensures Confidence(best, Some(second), visits) == 100.0 <==> visits >= 20 || best - second >= 1.25
    ensures Confidence(best, Some(second), visits) == 5.0 <==> visits <= 1 && best - second <= 0.0625
    ensures Confidence(best, None, visits) ==
            if visits >= 20 then 100.0 else if visits > 16 then visits as real * 5.0 else 80.0
  {
  }

  /** In between, it is the greater of 5 per visit and 80 times the lead. */
  lemma ConfidenceBetween(best: real, second: real, visits: u32)
    requires second <= best && visits <= 20 && best - second <= 1.25 && (visits >= 1 || best - second >= 0.0625)
    ensures var c := Confidence(best, Some(second), visits);
            && c >= visits as real * 5.0 && c >= (best - second) * 80.0
            && (c == visits as real * 5.0 || c == (best - second) * 80.0)
  {
  }

  function Choose(m: Math, t: Tally, actions: seq<string>, prior: string): Choice
    requires actions != []
  {
    var s := Scores(m, t, actions, prior);
    var i := ArgMax(s);
    Choice(actions[i], Confidence(s[i], RunnerUp(s, i), Standing(t, prior, actions[i]).visits))
  }

  /** The chosen governor is listed, and no listed governor scores higher. */
  lemma ChosenIsBest(m: Math, t: Tally, actions: seq<string>, prior: string)
    requires actions != []
    ensures var g := Choose(m, t, actions, prior).governor;
            && g in actions
            && forall a :: a in actions ==> Score(m, t, prior, a) <= Score(m, t, prior, g)
  {
    var s := Scores(m, t, actions, prior);
    var i := ArgMax(s);
    ArgMaxIsFirstMax(s);
    forall a | a in actions
      ensures Score(m, t, prior, a) <= Score(m, t, prior, actions[i])
    {
      var j :| 0 <= j < |actions| && actions[j] == a;
      assert s[j] <= s[i];
    }
  }

  /**
   The rule in numbers: an action enters with its average and visits, an unseen one with 0.72 if it is
   the prior governor, else 0.45, and no visits. To that comes 0.7 sqrt(ln(max(total, 1) + 1) / (visits + 1)).
   The first action with the greatest sum is chosen, and its confidence is that of its visits and its
   lead over the runner-up.
   */
  lemma ChosenByUcb(m: Math, t: Tally, actions: seq<string>, prior: string)
    returns (u: seq<real>, at: nat, second: Option<real>)
    requires actions != []
    ensures |u| == |actions|
    ensures forall i :: 0 <= i < |u| ==>
              var a := actions[i];
              var visits := if a in t.arms then t.arms[a].visits else 0;
              var value := if a in t.arms then t.arms[a].ema else if a == prior then 0.72 else 0.45;
              var lnN := m.ln((if t.total >= 1 then t.total else 1) as real + 1.0);
              u[i] == value + 0.7 * m.sqrt(lnN / (visits as real + 1.0))
    ensures IsFirstMax(u, at) && IsRunnerUp(u, at, second)
    ensures var g := actions[at];
            Choose(m, t, actions, prior) ==
            Choice(g, Confidence(u[at], second, if g in t.arms then t.arms[g].visits else 0))
  {
    u := Scores(m, t, actions, prior);
    at, second := ArgMax(u), RunnerUp(u, ArgMax(u));
    ArgMaxIsFirstMax(u);
    RunnerUpIsRunnerUp(u, at);
  }

  /** One step of the ranking loop: how a new last score changes the leader and the runner-up. */
  lemma RankStep(s: seq<real>, at: nat, second: Option<real>, x: real)
    requires IsFirstMax(s, at) && IsRunnerUp(s, at, second)
    ensures x > s[at] ==> IsFirstMax(s + [x], |s|) && IsRunnerUp(s + [x], |s|, Some(s[at]))
    ensures x <= s[at] ==>
              IsFirstMax(s + [x], at) &&
              IsRunnerUp(s + [x], at, if second.None? || x > second.value then Some(x) else second)
  {
    var t := s + [x];
    assert t[at] == s[at] && t[|s|] == x;
    assert forall j :: 0 <= j < |s| ==> t[j] == s[j];
    if second.Some? {
      var j :| 0 <= j < |s| && j != at && s[j] == second.value;
      assert t[j] == second.value;
    }
  }

  /** Any first maximum with its runner-up determines the choice. */
  lemma ChooseByRank(m: Math, t: Tally, actions: seq<string>, prior: string, at: nat, second: Option<real>)
    requires actions != []
    requires var s := Scores(m, t, actions, prior); IsFirstMax(s, at) && IsRunnerUp(s, at, second)
    ensures Choose(m, t, actions, prior) ==
            Choice(actions[at], Confidence(Score(m, t, prior, actions[at]), second,
                                           Standing(t, prior, actions[at]).visits))
  {
    var s := Scores(m, t, actions, prior);
    ArgMaxIsFirstMax(s);
    FirstMaxIsUnique(s, at, ArgMax(s));
    RunnerUpIsRunnerUp(s, at);
    RunnerUpIsUnique(s, at, second, RunnerUp(s, at));
  }

  /** The one-pass ranking loop: keeps the best score and the runner-up. */
  method Rank(m: Math, t: Tally, actions: seq<string>, prior: string) returns (c: Choice)
    requires actions != []
    ensures c == Choose(m, t, actions, prior)
  {
    ghost var seen: seq<real>, at := [], 0;
    var lnN := LogTerm(m, t.total);
    var bestGov := actions[0];
    var best: Option<real>, second: Option<real> := None, None;
    var bestVisits: u32 := 0;
    for i := 0 to |actions|
      invariant |seen| == i && forall j :: 0 <= j < i ==> seen[j] == Score(m, t, prior, actions[j])
      invariant i == 0 ==> best == None && second == None
      invariant i > 0 ==> IsFirstMax(seen, at) && best == Some(seen[at]) && IsRunnerUp(seen, at, second)
      invariant i > 0 ==> bestGov == actions[at] && bestVisits == Standing(t, prior, bestGov).visits
    {
      var standing := Standing(t, prior, actions[i]);
      var ucb := standing.ema + Bonus(m, lnN, standing.visits);
      if i > 0 {
        RankStep(seen, at, second, ucb);
      }
      if best.None? || ucb > best.value {
        second := best;
        best, bestGov, bestVisits := Some(ucb), actions[i], standing.visits;
        at := i;
      } else if second.None? || ucb > second.value {
        second := Some(ucb);
      }
      seen := seen + [ucb];
    }
    assert seen == Scores(m, t, actions, prior);
    ChooseByRank(m, t, actions, prior, at, second);
    c := Choice(bestGov, Confidence(best.value, second, bestVisits));
  }

  // ---------------------------------------------------------------- credits

  function Absorb(s: Stats, reward: real): Stats {
    Stats(Succ32(s.visits),
          if s.visits == 0 then reward else (1.0 - EMA_ALPHA) * s.ema + EMA_ALPHA * reward)
  }

  function CreditTally(t: Tally, governor: string, reward: real): Tally {
    var was := if governor in t.arms then t.arms[governor] else Stats(0, 0.5);
    Tally(Succ32(t.total), t.arms[governor := Absorb(was, reward)])
  }

  /** The tally left by a sequence of credits, oldest first. */
  function Fold(cs: seq<Credit>): Tally {
    if cs == [] then EMPTY
    else
      var n := |cs| - 1;
      CreditTally(Fold(cs[..n]), cs[n].governor, cs[n].reward)
  }

  function VisitsOf(t: Tally, g: string): u32 {
    if g in t.arms then t.arms[g].visits else 0
  }

  /** The rewards paid to one governor, oldest first. */
  function RewardsTo(cs: seq<Credit>, g: string): (rs: seq<real>)
    ensures |rs| <= |cs|
  {
    if cs == [] then []
    else
      var n := |cs| - 1;
      RewardsTo(cs[..n], g) + (if cs[n].governor == g then [cs[n].reward] else [])
  }

  function Pow(b: real, n: nat): real {
    if n == 0 then 1.0 else b * Pow(b, n - 1)
  }

  /** The weight the closed form gives the i-th of n rewards. */
  function Weight(n: nat, i: nat): real
    requires i < n
  {
    if i == 0 then Pow(0.8, n - 1) else 0.2 * Pow(0.8, n - 1 - i)
  }

  /** The weighted sum of the first k of n rewards. */
  function WeightedSum(rs: seq<real>, n: nat, k: nat): real
    requires k <= |rs| && k <= n
  {
    if k == 0 then 0.0 else WeightedSum(rs, n, k - 1) + Weight(n, k - 1) * rs[k - 1]
  }

  /** The value of the average after the rewards `rs`, in closed form. */
  function Ema(rs: seq<real>): real {
    WeightedSum(rs, |rs|, |rs|)
  }
}
