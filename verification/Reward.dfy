/** Window metrics from raw counters, and the balanced reward. */
module Reward {
  import opened Numbers
  import opened RealArithmetic
  import opened Wrappers

  const T_COMFORT_MC := 70_000.0
  const T_CRIT_MC := 95_000.0

  datatype CpuTimes = CpuTimes(idle: u64, total: u64)

  /** What the kernel's files say at one moment; each may be missing. */
  datatype Reading = Reading(cpu: Option<CpuTimes>, tempMc: Option<real>, energyUj: Option<u64>)

  datatype WindowMetrics = WindowMetrics(busy: real, thermalPen: real, energyRate: real)

  // ---------------------------------------------------------------- sampling

  /** A missing reading counts as zeros. */
  function CpuOf(r: Reading): CpuTimes {
    if r.cpu.Some? then r.cpu.value else CpuTimes(0, 0)
  }

  function BusyFraction(prev: CpuTimes, cur: CpuTimes): real {
    var dTotal := SatSub(cur.total, prev.total);
    var dIdle := SatSub(cur.idle, prev.idle);
    if dTotal == 0 then 0.5 else Clamp(1.0 - dIdle as real / dTotal as real, 0.0, 1.0)
  }

  function EnergyRate(prev: Option<u64>, cur: Option<u64>): real {
    if prev.Some? && cur.Some? && cur.value >= prev.value
    then Clamp((cur.value - prev.value) as real / 50_000_000.0, 0.0, 1.0)
    else -1.0
  }

  function ThermalPenalty(tempMc: Option<real>): real {
    if tempMc.Some? then Clamp((tempMc.value - T_COMFORT_MC) / (T_CRIT_MC - T_COMFORT_MC), 0.0, 1.0) else 0.0
  }

  /** The metrics of the window between two readings. */
  function WindowBetween(prev: Reading, cur: Reading): WindowMetrics {
    WindowMetrics(BusyFraction(CpuOf(prev), CpuOf(cur)),
                  ThermalPenalty(cur.tempMc),
                  EnergyRate(prev.energyUj, cur.energyUj))
  }

  /** The neutral sample of the first reading. */
  function Baseline(cur: Reading): WindowMetrics {
    WindowMetrics(0.5, ThermalPenalty(cur.tempMc), -1.0)
  }

  /** The metrics of a reading after an earlier one, or without one. */
  function Sampled(prev: Option<Reading>, cur: Reading): WindowMetrics {
    if prev.Some? then WindowBetween(prev.value, cur) else Baseline(cur)
  }

  class MetricSampler {
    var prevCpu: Option<CpuTimes>
    var prevRapl: Option<u64>

    constructor ()
      ensures prevCpu == None && prevRapl == None
    {
      prevCpu, prevRapl := None, None;
    }

    /** The state after the reading `prev`, or before any reading. */
    ghost predicate Remembers(prev: Option<Reading>)
      reads this
    {
      match prev
      case None => prevCpu == None
      case Some(r) => prevCpu == Some(CpuOf(r)) && prevRapl == r.energyUj
    }

    method Sample(r: Reading, ghost prev: Option<Reading>) returns (m: WindowMetrics)
      requires Remembers(prev)
      modifies this
      ensures Remembers(Some(r))
      ensures m == Sampled(prev, r)
    {
      var cpu := CpuOf(r);
      var busy, energy := 0.5, -1.0;
      if prevCpu.Some? {
        busy := BusyFraction(prevCpu.value, cpu);
        energy := EnergyRate(prevRapl, r.energyUj);
      }
      prevCpu, prevRapl := Some(cpu), r.energyUj;
      m := WindowMetrics(busy, ThermalPenalty(r.tempMc), energy);
    }
  }

  // ---------------------------------------------------------------- reward

  function PerfScore(governor: string): real {
    if governor == "performance" then 1.0
    else if governor in ["schedutil", "ondemand", "conservative"] then 0.5
    else if governor == "powersave" then 0.0
    else 0.5
  }

  function PowerPenalty(m: WindowMetrics, perf: real): real {
    if m.energyRate >= 0.0 then
      var waste := m.energyRate * (1.0 - m.busy);
      var starve := (1.0 - m.energyRate) * m.busy * 0.5;
      Clamp(waste + starve, 0.0, 1.0)
    else if perf >= 0.9 then Clamp(1.0 - m.busy, 0.0, 1.0)
    else if perf <= 0.1 then Clamp(MaxReal(m.busy - 0.4, 0.0) * 0.8, 0.0, 1.0)
    else Clamp(Abs(m.busy - perf) * 0.3, 0.0, 1.0)
  }

  function BalancedReward(m: WindowMetrics, governor: string): real {
    var perf := PerfScore(governor);
    var align := 1.0 - Abs(m.busy - perf);
    Clamp(0.45 * align + 0.35 * (1.0 - PowerPenalty(m, perf)) + 0.20 * (1.0 - m.thermalPen), 0.0, 1.0)
  }

  // ---------------------------------------------------------------- ranges

  predicate InRange(m: WindowMetrics) {
    && InUnit(m.busy)
    && InUnit(m.thermalPen)
    && (m.energyRate == -1.0 || InUnit(m.energyRate))
  }

  /** Whatever the counters do, including running backwards, a sample is in range. */
  lemma SampledInRange(prev: Option<Reading>, cur: Reading)
    ensures InRange(Sampled(prev, cur))
  {
  }

  /** The power penalty without its clamps. */
  function RawPowerPenalty(m: WindowMetrics, perf: real): real {
    if m.energyRate >= 0.0 then m.energyRate * (1.0 - m.busy) + (1.0 - m.energyRate) * m.busy * 0.5
    else if perf >= 0.9 then 1.0 - m.busy
    else if perf <= 0.1 then MaxReal(m.busy - 0.4, 0.0) * 0.8
    else Abs(m.busy - perf) * 0.3
  }

  /** The reward without any clamp. */
  function RawReward(m: WindowMetrics, governor: string): real {
    var perf := PerfScore(governor);
    0.45 * (1.0 - Abs(m.busy - perf)) + 0.35 * (1.0 - RawPowerPenalty(m, perf)) + 0.20 * (1.0 - m.thermalPen)
  }

  lemma Halves(y: real, f: real)
    requires 0.0 <= y <= f
    ensures 0.0 <= y * 0.5 <= f
  {
  }

  lemma SumInUnit(x: real, y: real, e: real, f: real)
    requires 0.0 <= x <= e && 0.0 <= y <= f && e + f <= 1.0
    ensures InUnit(x + y)
  {
  }

  lemma Shrinks(x: real, c: real)
    requires x >= 0.0 && InUnit(c)
    ensures 0.0 <= x * c <= x
  {
    ProductGrows(c, 1.0, x);
    ProductGrows(0.0, c, x);
  }

  lemma MixInUnit(e: real, f: real, b: real, c: real)
    requires InUnit(b) && InUnit(c) && 0.0 <= e && 0.0 <= f && e + f <= 1.0
    ensures InUnit(e * c + f * b * 0.5)
  {
    Shrinks(e, c);
    Shrinks(f, b);
    Halves(f * b, f);
    SumInUnit(e * c, f * b * 0.5, e, f);
  }

  /** On metrics in range every clamp of the reward, and the clamp of `update`, changes nothing. */
  lemma ClampsAreIdle(m: WindowMetrics, governor: string)
    requires InRange(m)
    ensures PowerPenalty(m, PerfScore(governor)) == RawPowerPenalty(m, PerfScore(governor))
    ensures BalancedReward(m, governor) == RawReward(m, governor)
    ensures Clamp(BalancedReward(m, governor), 0.0, 1.0) == RawReward(m, governor)
    ensures InUnit(RawReward(m, governor))
  {
    if m.energyRate >= 0.0 {
      MixInUnit(m.energyRate, 1.0 - m.energyRate, m.busy, 1.0 - m.busy);
    }
  }

  // ---------------------------------------------------------------- what the metrics mean

  lemma IdleShare(i: real, t: real, q: real)
    requires 0.0 <= i <= t && t > 0.0 && q * t == i
    ensures 0.0 <= q <= 1.0 && (1.0 - q) * t == t - i
  {
    ProductCancels(0.0, q, t);
    ProductCancels(q, 1.0, t);
  }

  /** When the counters run forward, busy is the share of the elapsed ticks that were not idle. */
  lemma BusyIsShare(prev: CpuTimes, cur: CpuTimes)
    requires prev.idle <= cur.idle && prev.total < cur.total && cur.idle - prev.idle <= cur.total - prev.total
    ensures BusyFraction(prev, cur) * (cur.total - prev.total) as real ==
            (cur.total - prev.total) as real - (cur.idle - prev.idle) as real
  {
    var t, i := (cur.total - prev.total) as real, (cur.idle - prev.idle) as real;
    IdleShare(i, t, i / t);
  }

  /** Odd counters: no progress counts as half busy, idle time going back as busy, outrunning the total as idle. */
  lemma BusyOfOddCounters(prev: CpuTimes, cur: CpuTimes)
    ensures cur.total <= prev.total ==> BusyFraction(prev, cur) == 0.5
    ensures prev.total < cur.total && cur.idle <= prev.idle ==> BusyFraction(prev, cur) == 1.0
    ensures prev.total < cur.total && cur.idle - prev.idle >= cur.total - prev.total ==> BusyFraction(prev, cur) == 0.0
  {
    if prev.total < cur.total && cur.idle - prev.idle >= cur.total - prev.total {
      DivideOut(1.0, (cur.total - prev.total) as real, (cur.idle - prev.idle) as real);
    }
  }

  /** The thermal penalty starts above 70 degrees, is full from 95 on, and is linear in between. */
  lemma ThermalRange(t: real)
    ensures ThermalPenalty(None) == 0.0
    ensures ThermalPenalty(Some(t)) == 0.0 <==> t <= 70_000.0
    ensures ThermalPenalty(Some(t)) == 1.0 <==> t >= 95_000.0
    ensures 70_000.0 <= t <= 95_000.0 ==> 25_000.0 * ThermalPenalty(Some(t)) == t - 70_000.0
  {
  }

  /** Energy counts as unknown exactly if a reading is missing or the counter went backwards. */
  lemma EnergyUnknown(prev: Option<u64>, cur: Option<u64>)
    ensures EnergyRate(prev, cur) < 0.0 <==> prev.None? || cur.None? || cur.value < prev.value
    ensures EnergyRate(prev, cur) == 1.0 <==>
            prev.Some? && cur.Some? && cur.value - prev.value >= 50_000_000
  {
  }

  /** The first reading of a process measures no window: half busy, and no energy. */
  lemma FirstSample(cur: Reading)
    ensures Sampled(None, cur).busy == 0.5 && Sampled(None, cur).energyRate == -1.0
  {
  }

  /**
   Busy in terms of the two readings, the earlier one first and a missing one counting as zeros: the share
   of the elapsed ticks that were not idle, or the values odd counters give.
   */
  lemma SampledBusy(prev: Reading, cur: Reading)
    ensures var was := if prev.cpu.Some? then prev.cpu.value else CpuTimes(0, 0);
            var now := if cur.cpu.Some? then cur.cpu.value else CpuTimes(0, 0);
            var ticks, idle := now.total - was.total, now.idle - was.idle;
            var busy := Sampled(Some(prev), cur).busy;
            if ticks <= 0 then busy == 0.5
            else if idle <= 0 then busy == 1.0
            else if idle >= ticks then busy == 0.0
            else busy * ticks as real == ticks as real - idle as real
  {
    var was, now := CpuOf(prev), CpuOf(cur);
    BusyOfOddCounters(was, now);
    if was.total < now.total && was.idle <= now.idle && now.idle - was.idle <= now.total - was.total {
      BusyIsShare(was, now);
    }
  }

  /** Energy in terms of the two readings: what was used from the earlier to the later one, over 50 J. */
  lemma SampledEnergy(prev: Reading, cur: Reading)
    ensures var rate := Sampled(Some(prev), cur).energyRate;
            if prev.energyUj.None? || cur.energyUj.None? || cur.energyUj.value < prev.energyUj.value then rate == -1.0
            else
              var used := cur.energyUj.value - prev.energyUj.value;
              if used >= 50_000_000 then rate == 1.0 else rate * 50_000_000.0 == used as real
  {
  }

  /** Heat is that of the later reading, and the first sample has it too. */
  lemma SampledHeat(prev: Option<Reading>, cur: Reading)
    ensures var pen := Sampled(prev, cur).thermalPen;
            if cur.tempMc.None? || cur.tempMc.value <= 70_000.0 then pen == 0.0
            else if cur.tempMc.value >= 95_000.0 then pen == 1.0
            else pen * 25_000.0 == cur.tempMc.value - 70_000.0
  {
  }

  /** Heat costs exactly a fifth of its penalty, whatever the governor. */
  lemma HeatCosts(m: WindowMetrics, governor: string)
    requires InRange(m)
    ensures BalancedReward(m.(thermalPen := 0.0), governor) - BalancedReward(m, governor) == 0.2 * m.thermalPen
  {
    ClampsAreIdle(m, governor);
    ClampsAreIdle(m.(thermalPen := 0.0), governor);
  }

  lemma SignOfProduct(x: real, y: real)
    requires x > 0.0
    ensures x * y > 0.0 <==> y > 0.0
  {
    if y > 0.0 {
      ProductPositive(x, y);
    } else {
      ProductGrows(y, 0.0, x);
    }
  }

  /** Using more energy lowers the reward exactly if less than two thirds of the window was busy. */
  lemma EnergyCosts(m: WindowMetrics, more: real, governor: string)
    requires InRange(m) && 0.0 <= m.energyRate < more <= 1.0
    ensures BalancedReward(m.(energyRate := more), governor) < BalancedReward(m, governor) <==> m.busy < 2.0 / 3.0
  {
    var n := m.(energyRate := more);
    ClampsAreIdle(m, governor);
    ClampsAreIdle(n, governor);
    var perf := PerfScore(governor);
    var gain, slope := more - m.energyRate, 1.0 - 1.5 * m.busy;
    assert RawPowerPenalty(n, perf) - RawPowerPenalty(m, perf) == gain * slope;
    SignOfProduct(gain, slope);
  }

  lemma PerfScores()
    ensures PerfScore("performance") == 1.0
    ensures PerfScore("schedutil") == 0.5
    ensures PerfScore("powersave") == 0.0
  {
    assert "schedutil"[0] == 's' && "performance"[0] == 'p' && |"powersave"| == 9 && |"performance"| == 11;
    assert "powersave"[0] == 'p' && "ondemand"[0] == 'o' && "conservative"[0] == 'c';
    assert "schedutil" in ["schedutil", "ondemand", "conservative"];
  }

  // ---------------------------------------------------------------- preferences

  /** Every governor but the two extremes is rewarded like schedutil. */
  lemma OthersCountAsSchedutil(m: WindowMetrics, governor: string)
    requires governor != "performance" && governor != "powersave"
    ensures BalancedReward(m, governor) == BalancedReward(m, "schedutil")
  {
    PerfScores();
  }

  /** Without an energy reading the reward is piecewise linear in busy: what each governor earns. */
  lemma RewardsWithoutEnergy(m: WindowMetrics)
    requires InRange(m) && m.energyRate < 0.0
    ensures BalancedReward(m, "performance") == 0.2 * (1.0 - m.thermalPen) + 0.8 * m.busy
    ensures BalancedReward(m, "schedutil") ==
            0.2 * (1.0 - m.thermalPen) + (if m.busy <= 0.5 then 0.5225 + 0.555 * m.busy else 1.0775 - 0.555 * m.busy)
    ensures BalancedReward(m, "powersave") ==
            0.2 * (1.0 - m.thermalPen) + (if m.busy <= 0.4 then 0.8 - 0.45 * m.busy else 0.912 - 0.73 * m.busy)
  {
    PerfScores();
    ClampsAreIdle(m, "performance");
    ClampsAreIdle(m, "schedutil");
    ClampsAreIdle(m, "powersave");
  }

  lemma PowerTerm(m: WindowMetrics, perf: real)
    requires m.energyRate >= 0.0
    ensures RawPowerPenalty(m, perf) == m.energyRate + 0.5 * m.busy - 1.5 * (m.energyRate * m.busy)
  {
  }

  /** With one, energy used while idle and busy time without energy lower every reward alike. */
  lemma RewardsWithEnergy(m: WindowMetrics)
    requires InRange(m) && m.energyRate >= 0.0
    ensures var power := 0.35 * (1.0 - m.energyRate) + 0.525 * (m.energyRate * m.busy) - 0.175 * m.busy;
            var heat := 0.2 * (1.0 - m.thermalPen);
            && BalancedReward(m, "performance") == heat + power + 0.45 * m.busy
            && BalancedReward(m, "schedutil") ==
               heat + power + (if m.busy <= 0.5 then 0.225 + 0.45 * m.busy else 0.675 - 0.45 * m.busy)
            && BalancedReward(m, "powersave") == heat + power + 0.45 - 0.45 * m.busy
  {
    PowerTerm(m, 1.0);
    PowerTerm(m, 0.5);
    PowerTerm(m, 0.0);
    PerfScores();
    ClampsAreIdle(m, "performance");
    ClampsAreIdle(m, "schedutil");
    ClampsAreIdle(m, "powersave");
  }

  /** Without an energy reading the preferred governor changes at exactly 37/134 and 431/542. */
  lemma PreferenceWithoutEnergy(m: WindowMetrics)
    requires InRange(m) && m.energyRate < 0.0
    ensures var p, s, w := BalancedReward(m, "performance"), BalancedReward(m, "schedutil"),
                           BalancedReward(m, "powersave");
            && (w > s && w > p <==> m.busy < 37.0 / 134.0)
            && (s > w && s > p <==> 37.0 / 134.0 < m.busy < 431.0 / 542.0)
            && (p > s && p > w <==> m.busy > 431.0 / 542.0)
  {
    PerfScores();
    ClampsAreIdle(m, "performance");
    ClampsAreIdle(m, "schedutil");
    ClampsAreIdle(m, "powersave");
  }

  /** With an energy reading the power term is the same for all, and the changes are at 1/4 and 3/4. */
  lemma PreferenceWithEnergy(m: WindowMetrics)
    requires InRange(m) && m.energyRate >= 0.0
    ensures var p, s, w := BalancedReward(m, "performance"), BalancedReward(m, "schedutil"),
                           BalancedReward(m, "powersave");
            && (w > s && w > p <==> m.busy < 0.25)
            && (s > w && s > p <==> 0.25 < m.busy < 0.75)
            && (p > s && p > w <==> m.busy > 0.75)
  {
    PerfScores();
    ClampsAreIdle(m, "performance");
    ClampsAreIdle(m, "schedutil");
    ClampsAreIdle(m, "powersave");
  }

  /** At least four fifths of the ticks between the readings were idle, and the energy used is not known. */
  predicate MostlyIdle(prev: Reading, cur: Reading) {
    var was := if prev.cpu.Some? then prev.cpu.value else CpuTimes(0, 0);
    var now := if cur.cpu.Some? then cur.cpu.value else CpuTimes(0, 0);
    && was.total < now.total && 5 * (now.idle - was.idle) >= 4 * (now.total - was.total)
    && (prev.energyUj.None? || cur.energyUj.None? || cur.energyUj.value < prev.energyUj.value)
  }

  lemma AtMostFifth(x: real, t: real, xt: real)
    requires t > 0.0 && xt == x * t
    ensures x <= 0.2 <==> xt <= 0.2 * t
  {
    if x <= 0.2 {
      ProductGrows(x, 0.2, t);
    } else if xt <= 0.2 * t {
      ProductCancels(x, 0.2, t);
    }
  }

  /** The metrics of a window show exactly whether its counters say so. */
  lemma MostlyIdleShows(prev: Reading, cur: Reading)
    ensures var m := Sampled(Some(prev), cur);
            MostlyIdle(prev, cur) <==> m.busy <= 0.2 && m.energyRate < 0.0
  {
    var was, now := CpuOf(prev), CpuOf(cur);
    SampledBusy(prev, cur);
    SampledEnergy(prev, cur);
    if 0 < now.total - was.total && 0 < now.idle - was.idle < now.total - was.total {
      var ticks, idle := (now.total - was.total) as real, (now.idle - was.idle) as real;
      AtMostFifth(Sampled(Some(prev), cur).busy, ticks, ticks - idle);
    }
  }

  /** In mostly idle windows powersave earns at least 0.35 more than performance ever does. */
  lemma IdleGap(m: WindowMetrics)
    requires InRange(m) && m.energyRate < 0.0 && m.busy <= 0.2
    ensures BalancedReward(m, "performance") <= 0.36
    ensures BalancedReward(m, "powersave") >= 0.71
  {
    PerfScores();
    ClampsAreIdle(m, "performance");
    ClampsAreIdle(m, "powersave");
  }
}
