/** Calibration diagnostics (app/backtesting/calibration.py): binned calibration error and the walk-forward
    recalibration gain. The logarithms, the beta fit and its log-losses are parameters. */
module Calibration {
  import opened Prelude

  datatype Observation = Observation(fairProb: real, won: bool)

  datatype ReliabilityBin = ReliabilityBin(lo: real, hi: real, n: nat, meanPred: Option<real>, observed: Option<real>)

  datatype Estimates = Estimates(logLoss: real, brier: real, ece: real, mce: real, baseRate: real, meanPred: real,
    bins: seq<ReliabilityBin>)

  datatype Report = Report(n: nat, estimates: Option<Estimates>)

  datatype Result<+T> = Ok(value: T) | BadBinCount | DivisionByZero

  const EPS := 0.000000000001

  /** The clamped prediction of an observation. */
  function P(o: Observation): (p: real)
    ensures 0.0 < p < 1.0
  {
    Min(1.0 - EPS, Max(EPS, o.fairProb))
  }

  function Y(o: Observation): real { if o.won then 1.0 else 0.0 }

  function SquaredError(o: Observation): real { (P(o) - Y(o)) * (P(o) - Y(o)) }

  function One(o: Observation): real { 1.0 }

  function Ratio(a: real, b: real): real
    requires b != 0.0
  {
    a / b
  }

  type pos = n: nat | 1 <= n witness 1

  /** The equal-width bin of a prediction; the top edge belongs to the last bin. */
  function BinOf(bins: pos, o: Observation): (k: nat)
    ensures k < bins
  {
    var raw := Ratio(P(o), Ratio(1.0, bins as real)).Floor;
    if raw < bins - 1 then raw else bins - 1
  }

  function InBin(bins: pos, k: nat): Observation -> bool
  {
    (o: Observation) => BinOf(bins, o) == k
  }

  function Below(bins: pos, k: nat): Observation -> bool
  {
    (o: Observation) => BinOf(bins, o) < k
  }

  function InsideBin(bins: pos, k: nat, obs: seq<Observation>): seq<Observation>
  {
    Filter(InBin(bins, k), obs)
  }

  /** The gap between a bin's mean prediction and its observed frequency. */
  function Gap(members: seq<Observation>): real
    requires members != []
  {
    Abs(Ratio(Sum(P, members), |members| as real) - Ratio(Sum(Y, members), |members| as real))
  }

  function Weighted(count: nat, n: nat, gap: real): real
    requires n > 0
  {
    Times(Ratio(count as real, n as real), gap)
  }

  /** The count-weighted gaps of the first k bins. */
  function Ece(bins: pos, k: nat, obs: seq<Observation>): real
    requires obs != []
  {
    if k == 0 then 0.0
    else
      var members := InsideBin(bins, k - 1, obs);
      Ece(bins, k - 1, obs) + if members == [] then 0.0 else Weighted(|members|, |obs|, Gap(members))
  }

  function Mce(bins: pos, k: nat, obs: seq<Observation>): real
  {
    if k == 0 then 0.0
    else
      var members := InsideBin(bins, k - 1, obs);
      if members == [] then Mce(bins, k - 1, obs) else Max(Mce(bins, k - 1, obs), Gap(members))
  }

  function BinReport(bins: pos, k: nat, obs: seq<Observation>): ReliabilityBin
  {
    var members := InsideBin(bins, k, obs);
    var width := Ratio(1.0, bins as real);
    ReliabilityBin(Times(k as real, width), Times((k + 1) as real, width), |members|,
                   if members == [] then None else Some(Ratio(Sum(P, members), |members| as real)),
                   if members == [] then None else Some(Ratio(Sum(Y, members), |members| as real)))
  }

  method CalibrationReport(obs: seq<Observation>, bins: int, minN: int, logLoss: seq<Observation> -> real)
    returns (r: Result<Report>)
    ensures r == BadBinCount <==> bins < 1
    ensures r == DivisionByZero <==> bins >= 1 && |obs| == 0 && minN <= 0
    ensures r.Ok? ==> r.value.n == |obs| && (r.value.estimates.None? <==> |obs| < minN)
    ensures r.Ok? && r.value.estimates.Some? ==> Describes(r.value.estimates.value, bins, obs, logLoss)
  {
    hide Describes;
    if bins < 1 {
      return BadBinCount;
    }
    var n := |obs|;
    if n < minN {
      return Ok(Report(n, None));
    }
    if n == 0 {
      return DivisionByZero;
    }
    var e := Estimate(obs, bins, logLoss);
    r := Ok(Report(n, Some(e)));
  }

  ghost predicate Describes(e: Estimates, bins: pos, obs: seq<Observation>, logLoss: seq<Observation> -> real)
    requires obs != []
  {
    && e.ece == Ece(bins, bins, obs) && e.mce == Mce(bins, bins, obs)
    && e.baseRate == Ratio(Sum(Y, obs), |obs| as real) && e.meanPred == Ratio(Sum(P, obs), |obs| as real)
    && e.brier == Ratio(Sum(SquaredError, obs), |obs| as real) && e.logLoss == logLoss(obs)
    && |e.bins| == bins && forall k :: 0 <= k < bins ==> e.bins[k] == BinReport(bins, k, obs)
  }

  method Estimate(obs: seq<Observation>, bins: pos, logLoss: seq<Observation> -> real) returns (e: Estimates)
    requires obs != []
    ensures Describes(e, bins, obs, logLoss)
  {
    hide BinOf, P, SquaredError, Sum, Gap, Weighted, Ratio, BinReport;
    var n := |obs|;
    var predSum, obsSum, count := FillBins(obs, bins);
    var reliability, ece, mce := [], 0.0, 0.0;
    for k := 0 to bins
      invariant forall j :: 0 <= j < bins ==> BinSums(predSum[j], obsSum[j], count[j]) == SumsIn(bins, j, obs)
      invariant ece == Ece(bins, k, obs) && mce == Mce(bins, k, obs)
      invariant |reliability| == k && forall j :: 0 <= j < k ==> reliability[j] == BinReport(bins, j, obs)
    {
      var bin, gap := ReadBin(bins, k, obs, predSum[k], obsSum[k], count[k]);
      if gap.Some? {
        ece := ece + Weighted(count[k], n, gap.value);
        mce := Max(mce, gap.value);
      }
      reliability := reliability + [bin];
    }
    var total := n as real;
    e := Estimates(
      logLoss(obs), Ratio(Sum(SquaredError, obs), total), ece, mce, Ratio(Sum(Y, obs), total),
        Ratio(Sum(P, obs), total), reliability);
  }

  /** What a bin accumulates. */
  datatype BinSums = BinSums(pred: real, obs: real, count: nat)

  function SumsIn(bins: pos, k: nat, obs: seq<Observation>): BinSums
  {
    var members := InsideBin(bins, k, obs);
    BinSums(Sum(P, members), Sum(Y, members), |members|)
  }

  /** The three accumulators, filled in one pass over the observations. */
  method FillBins(obs: seq<Observation>, bins: pos)
    returns (predSum: array<real>, obsSum: array<real>, count: array<nat>)
    ensures predSum.Length == obsSum.Length == count.Length == bins
    ensures forall k :: 0 <= k < bins ==> BinSums(predSum[k], obsSum[k], count[k]) == SumsIn(bins, k, obs)
  {
    hide BinOf, P, Y, SumsIn;
    predSum := new real[bins](_ => 0.0);
    obsSum := new real[bins](_ => 0.0);
    count := new nat[bins](_ => 0);
    forall k | 0 <= k < bins ensures SumsIn(bins, k, obs[..0]) == BinSums(0.0, 0.0, 0) { EmptyBin(bins, k, obs[..0]); }
    for i := 0 to |obs|
      invariant forall k :: 0 <= k < bins ==> BinSums(predSum[k], obsSum[k], count[k]) == SumsIn(bins, k, obs[..i])
    {
      var o := obs[i];
      var idx := BinOf(bins, o);
      forall k | 0 <= k < bins ensures SumsIn(bins, k, obs[..i + 1])
        == AddTo(SumsIn(bins, k, obs[..i]), if k == idx then Some(o) else None) {
        OneMoreInBin(bins, k, obs, i);
      }
      predSum[idx] := predSum[idx] + P(o);
      obsSum[idx] := obsSum[idx] + Y(o);
      count[idx] := count[idx] + 1;
    }
    assert obs[..|obs|] == obs;
  }

  lemma EmptyBin(bins: pos, k: nat, obs: seq<Observation>)
    requires obs == []
    ensures SumsIn(bins, k, obs) == BinSums(0.0, 0.0, 0)
  {
  }

  function AddTo(b: BinSums, o: Option<Observation>): BinSums {
    if o.None? then b else BinSums(b.pred + P(o.value), b.obs + Y(o.value), b.count + 1)
  }

  lemma OneMoreInBin(bins: pos, k: nat, obs: seq<Observation>, i: nat)
    requires k < bins && i < |obs|
    ensures SumsIn(bins, k, obs[..i + 1]) ==
            AddTo(SumsIn(bins, k, obs[..i]), if k == BinOf(bins, obs[i]) then Some(obs[i]) else None)
  {
    hide BinOf, P;
    FilterSnoc(InBin(bins, k), obs, i);
    SumAppend(P, InsideBin(bins, k, obs[..i]), [obs[i]]);
    SumAppend(Y, InsideBin(bins, k, obs[..i]), [obs[i]]);
    assert [obs[i]][1..] == [];
    assert InsideBin(bins, k, obs[..i]) + [] == InsideBin(bins, k, obs[..i]);
  }

  method ReadBin(bins: pos, k: nat, ghost obs: seq<Observation>, predSum: real, obsSum: real, count: nat)
    returns (bin: ReliabilityBin, gap: Option<real>)
    requires k < bins
    requires BinSums(predSum, obsSum, count) == SumsIn(bins, k, obs)
    ensures bin == BinReport(bins, k, obs)
    ensures gap == if count == 0 then None else Some(Gap(InsideBin(bins, k, obs)))
  {
    hide InsideBin, P;
    var width := Ratio(1.0, bins as real);
    var lo, hi := Times(k as real, width), Times((k + 1) as real, width);
    if count == 0 {
      return ReliabilityBin(lo, hi, 0, None, None), None;
    }
    var mp, ob := Ratio(predSum, count as real), Ratio(obsSum, count as real);
    gap := Some(Abs(mp - ob));
    bin := ReliabilityBin(lo, hi, count, Some(mp), Some(ob));
  }

  // ---- bins partition the sample ----

  lemma {:induction false} OneMoreBin(f: Observation -> real, bins: pos, k: nat, obs: seq<Observation>)
    ensures Sum(f, Filter(Below(bins, k + 1), obs))
            == Sum(f, Filter(Below(bins, k), obs)) + Sum(f, InsideBin(bins, k, obs))
  {
    hide BinOf;
    if obs != [] { OneMoreBin(f, bins, k, obs[1..]); }
  }

  /** Any total over the sample splits into the totals of its bins. */
  function BinTotals(f: Observation -> real, bins: pos, k: nat, obs: seq<Observation>): (t: real)
    ensures t == Sum(f, Filter(Below(bins, k), obs))
  {
    if k == 0 then
      FilterNone(Below(bins, 0), obs);
      0.0
    else
      OneMoreBin(f, bins, k - 1, obs);
      BinTotals(f, bins, k - 1, obs) + Sum(f, InsideBin(bins, k - 1, obs))
  }

  lemma AllBins(f: Observation -> real, bins: pos, obs: seq<Observation>)
    ensures BinTotals(f, bins, bins, obs) == Sum(f, obs)
  {
    FilterAll(Below(bins, bins), obs);
  }

  lemma {:induction false} SumOfOnes(s: seq<Observation>)
    ensures Sum(One, s) == |s| as real
  {
    if s != [] { SumOfOnes(s[1..]); }
  }

  function CountTo(bins: pos, k: nat, obs: seq<Observation>): nat
  {
    if k == 0 then 0 else CountTo(bins, k - 1, obs) + |InsideBin(bins, k - 1, obs)|
  }

  lemma {:induction false} CountsAreTotals(bins: pos, k: nat, obs: seq<Observation>)
    ensures CountTo(bins, k, obs) as real == BinTotals(One, bins, k, obs)
  {
    hide InsideBin, BinOf;
    if k > 0 {
      CountsAreTotals(bins, k - 1, obs);
      SumOfOnes(InsideBin(bins, k - 1, obs));
    }
  }

  /** Every observation is counted in exactly one bin. */
  lemma BinCountsSumToN(bins: pos, obs: seq<Observation>)
    ensures CountTo(bins, bins, obs) == |obs|
  {
    CountsAreTotals(bins, bins, obs);
    AllBins(One, bins, obs);
    SumOfOnes(obs);
  }

  // ---- the error bounds ----

  lemma RatioTimes(a: real, b: real)
    requires b > 0.0
    ensures Times(Ratio(a, b), b) == a
    ensures 0.0 <= a <= b ==> 0.0 <= Ratio(a, b) <= 1.0
  {
    var q := Ratio(a, b);
    assert q * b == a;
    if 0.0 <= a <= b {
      assert q >= 0.0;
      assert (1.0 - q) * b == b - a;
      assert 1.0 - q >= 0.0;
    }
  }

  lemma TimesAbs(x: real, k: real)
    requires k > 0.0
    ensures Times(Abs(x), k) == Abs(Times(x, k))
  {
    if x >= 0.0 { assert x * k >= 0.0; } else { assert x * k < 0.0; }
  }

  lemma GapTimesCount(p: real, y: real, c: real)
    requires c > 0.0
    ensures Times(Abs(Ratio(p, c) - Ratio(y, c)), c) == Abs(p - y)
  {
    hide Times, Ratio;
    RatioTimes(p, c);
    RatioTimes(y, c);
    TimesDistribute(Ratio(p, c), Ratio(y, c), c);
    TimesAbs(Ratio(p, c) - Ratio(y, c), c);
  }

  lemma WeightedTimes(count: nat, n: nat, gap: real)
    requires n > 0
    ensures Times(Weighted(count, n, gap), n as real) == Times(gap, count as real)
  {
    RatioTimes(count as real, n as real);
    hide Times, Ratio;
  }

  lemma {:induction false} SumsInRange(s: seq<Observation>)
    ensures 0.0 <= Sum(P, s) <= |s| as real && 0.0 <= Sum(Y, s) <= |s| as real
  {
    if s != [] { SumsInRange(s[1..]); }
  }

  /** The absolute differences of the first k bins, before any division. */
  function Differences(bins: pos, k: nat, obs: seq<Observation>): real
  {
    if k == 0 then 0.0
    else
      var members := InsideBin(bins, k - 1, obs);
      Differences(bins, k - 1, obs) + Abs(Sum(P, members) - Sum(Y, members))
  }

  lemma {:induction false} EceTimesN(bins: pos, k: nat, obs: seq<Observation>)
    requires obs != []
    ensures Times(Ece(bins, k, obs), |obs| as real) == Differences(bins, k, obs)
  {
    hide InsideBin, P, BinOf, Times, Gap, Weighted, Sum;
    TimesOrder(0.0, 0.0, |obs| as real);
    if k > 0 {
      EceTimesN(bins, k - 1, obs);
      var members := InsideBin(bins, k - 1, obs);
      if members != [] {
        BinContribution(members, |obs|);
        TimesDistribute(Ece(bins, k - 1, obs), Weighted(|members|, |obs|, Gap(members)), |obs| as real);
      } else {
        NoMembers(members);
      }
    }
  }

  lemma NoMembers(members: seq<Observation>)
    requires members == []
    ensures Sum(P, members) == 0.0 == Sum(Y, members)
  {
  }

  lemma BinContribution(members: seq<Observation>, n: nat)
    requires members != [] && n > 0
    ensures Times(Weighted(|members|, n, Gap(members)), n as real) == Abs(Sum(P, members) - Sum(Y, members))
  {
    hide Times, Weighted, Ratio, P, Sum;
    WeightedTimes(|members|, n, Gap(members));
    GapTimesCount(Sum(P, members), Sum(Y, members), |members| as real);
  }

  lemma {:induction false} DifferencesBoundTotals(bins: pos, k: nat, obs: seq<Observation>)
    ensures Abs(BinTotals(P, bins, k, obs) - BinTotals(Y, bins, k, obs)) <= Differences(bins, k, obs)
  {
    hide InsideBin, P, BinOf;
    if k > 0 { DifferencesBoundTotals(bins, k - 1, obs); }
  }

  lemma {:induction false} MceBoundsGaps(bins: pos, k: nat, obs: seq<Observation>)
    ensures 0.0 <= Mce(bins, k, obs) <= 1.0
    ensures forall j :: 0 <= j < k && InsideBin(bins, j, obs) != [] ==>
            Gap(InsideBin(bins, j, obs)) <= Mce(bins, k, obs)
    ensures Mce(bins, k, obs) == 0.0
            || exists j :: 0 <= j < k && InsideBin(bins, j, obs) != []
                             && Gap(InsideBin(bins, j, obs)) == Mce(bins, k, obs)
  {
    if k > 0 {
      MceBoundsGaps(bins, k - 1, obs);
      var members := InsideBin(bins, k - 1, obs);
      if members != [] { GapIsAFraction(members); }
      hide Gap, InsideBin;
    }
  }

  lemma GapIsAFraction(members: seq<Observation>)
    requires members != []
    ensures 0.0 <= Gap(members) <= 1.0
  {
    SumsInRange(members);
    RatioTimes(Sum(P, members), |members| as real);
    RatioTimes(Sum(Y, members), |members| as real);
    hide Ratio;
  }

  lemma {:induction false} DifferencesAtMost(bins: pos, k: nat, obs: seq<Observation>, m: real)
    requires forall j :: 0 <= j < k && InsideBin(bins, j, obs) != [] ==> Gap(InsideBin(bins, j, obs)) <= m
    ensures Differences(bins, k, obs) <= Times(m, CountTo(bins, k, obs) as real)
  {
    hide InsideBin, P, BinOf, Times, Sum;
    TimesOrder(0.0, 0.0, m);
    if k > 0 {
      DifferencesAtMost(bins, k - 1, obs, m);
      var members := InsideBin(bins, k - 1, obs);
      if members != [] {
        assert Gap(InsideBin(bins, k - 1, obs)) <= m;
        GapTimesCount(Sum(P, members), Sum(Y, members), |members| as real);
        hide Ratio;
        TimesOrder(Gap(members), m, |members| as real);
      } else {
        NoMembers(members);
      }
      TimesDistribute(CountTo(bins, k - 1, obs) as real, |members| as real, m);
    }
  }

  /** For every sample and bin count: the overall bias is at most the expected calibration error, which is at
      most the worst bin, which is at most one. */
  lemma CalibrationErrorsAreOrdered(bins: pos, obs: seq<Observation>)
    requires obs != []
    ensures var n := |obs| as real;
            Abs(Ratio(Sum(P, obs), n) - Ratio(Sum(Y, obs), n)) <= Ece(bins, bins, obs) <= Mce(bins, bins, obs) <= 1.0
  {
    hide InsideBin, P, BinOf, Gap, Ece, Mce, Differences, CountTo, BinTotals, Times, Ratio, Sum;
    var n := |obs| as real;
    EceTimesN(bins, bins, obs);
    AllBins(P, bins, obs);
    AllBins(Y, bins, obs);
    DifferencesBoundTotals(bins, bins, obs);
    GapTimesCount(Sum(P, obs), Sum(Y, obs), n);
    MceBoundsGaps(bins, bins, obs);
    DifferencesAtMost(bins, bins, obs, Mce(bins, bins, obs));
    BinCountsSumToN(bins, obs);
    TimesCompare(Abs(Ratio(Sum(P, obs), n) - Ratio(Sum(Y, obs), n)), Ece(bins, bins, obs), n);
    TimesCompare(Ece(bins, bins, obs), Mce(bins, bins, obs), n);
  }

  // ---- the report, told from the observations ----

  /** The claimed probability, confined to where its logarithms are finite. */
  ghost function Claimed(o: Observation): real {
    if o.fairProb < 0.000000000001 then 0.000000000001
    else if o.fairProb > 0.999999999999 then 0.999999999999 else o.fairProb
  }

  ghost function Hit(o: Observation): real { if o.won then 1.0 else 0.0 }

  ghost function Missed(o: Observation): real { Times(Claimed(o) - Hit(o), Claimed(o) - Hit(o)) }

  ghost function Each(o: Observation): real { 1.0 }

  /** The claim lies in the k-th of the equal parts of the unit interval; the last part has no upper end. */
  ghost predicate Lies(bins: pos, k: nat, o: Observation) {
    && (k == 0 || k as real <= Times(Claimed(o), bins as real))
    && (k + 1 == bins || Times(Claimed(o), bins as real) < (k + 1) as real)
  }

  /** A figure of an observation, counted only in its own bin. */
  ghost function Within(bins: pos, k: nat, f: Observation -> real): Observation -> real {
    (o: Observation) => if Lies(bins, k, o) then f(o) else 0.0
  }

  ghost function GapOf(b: ReliabilityBin): real {
    if b.meanPred.Some? && b.observed.Some? then Abs(b.meanPred.value - b.observed.value) else 0.0
  }

  ghost function SizedGap(b: ReliabilityBin): real { Times(GapOf(b), b.n as real) }

  ghost predicate BinExactly(b: ReliabilityBin, bins: pos, k: nat, obs: seq<Observation>) {
    && Times(b.lo, bins as real) == k as real && Times(b.hi, bins as real) == (k + 1) as real
    && b.n as real == Sum(Within(bins, k, Each), obs)
    && (b.meanPred.Some? <==> b.n > 0) && (b.observed.Some? <==> b.n > 0)
    && (b.n > 0 ==>
          && Times(b.meanPred.value, b.n as real) == Sum(Within(bins, k, Claimed), obs)
          && Times(b.observed.value, b.n as real) == Sum(Within(bins, k, Hit), obs))
  }

  lemma ClaimedIsClamped(o: Observation)
    ensures P(o) == Claimed(o) && Y(o) == Hit(o)
  {
  }

  lemma FloorMeaning(x: real, k: nat)
    ensures x.Floor < k <==> x < k as real
  {
  }

  lemma LiesExactly(bins: pos, k: nat, o: Observation)
    requires k < bins
    ensures InBin(bins, k)(o) <==> Lies(bins, k, o)
  {
    ClaimedIsClamped(o);
    var p, b := P(o), bins as real;
    assert Ratio(p, Ratio(1.0, b)) == Times(p, b) by { RatioTimes(1.0, b); WidthQuotient(p, b); }
    hide P, Claimed, Times, Ratio;
    FloorMeaning(Times(p, b), k);
    FloorMeaning(Times(p, b), k + 1);
  }

  lemma WidthQuotient(p: real, b: real)
    requires b > 0.0 && Ratio(1.0, b) * b == 1.0
    ensures Ratio(1.0, b) != 0.0 && Ratio(p, Ratio(1.0, b)) == Times(p, b)
  {
    var w := Ratio(1.0, b);
    assert w != 0.0;
    assert Times(w, b) == 1.0;
    TimesRegroup(p, b, w);
    TimesOrder(0.0, 0.0, p);
    QuotientIs(p, w, Times(p, b));
  }

  lemma QuotientIs(p: real, w: real, q: real)
    requires w != 0.0 && q * w == p
    ensures Ratio(p, w) == q
  {
  }

  /** Everything a report says of a bin. */
  lemma BinReportExactly(bins: pos, k: nat, obs: seq<Observation>)
    requires k < bins
    ensures BinExactly(BinReport(bins, k, obs), bins, k, obs)
    ensures BinReport(bins, k, obs).n == |InsideBin(bins, k, obs)|
    ensures BinReport(bins, k, obs).n > 0 ==> GapOf(BinReport(bins, k, obs)) == Gap(InsideBin(bins, k, obs))
  {
    hide P, Y, Claimed, Hit, Lies, InBin, Within, Each, Times, Sum;
    SumsOfBin(bins, k, obs);
    WidthTimes(bins, k);
    WidthTimes(bins, k + 1);
    var members := InsideBin(bins, k, obs);
    if members != [] {
      RatioTimes(Sum(P, members), |members| as real);
      RatioTimes(Sum(Y, members), |members| as real);
    }
    hide Ratio;
  }

  lemma SumsOfBin(bins: pos, k: nat, obs: seq<Observation>)
    requires k < bins
    ensures var members := InsideBin(bins, k, obs);
            && |members| as real == Sum(Within(bins, k, Each), obs)
            && Sum(P, members) == Sum(Within(bins, k, Claimed), obs)
            && Sum(Y, members) == Sum(Within(bins, k, Hit), obs)
  {
    hide P, Y, Claimed, Hit, Lies, InBin, Sum;
    forall o: Observation
      ensures P(o) == Claimed(o) && Y(o) == Hit(o) && Each(o) == 1.0
      ensures Within(bins, k, Each)(o) == if InBin(bins, k)(o) then 1.0 else 0.0
      ensures Within(bins, k, Claimed)(o) == if InBin(bins, k)(o) then P(o) else 0.0
      ensures Within(bins, k, Hit)(o) == if InBin(bins, k)(o) then Y(o) else 0.0 {
      ClaimedIsClamped(o);
      LiesExactly(bins, k, o);
    }
    SumSelected(P, InBin(bins, k), Within(bins, k, Claimed), obs);
    SumSelected(Y, InBin(bins, k), Within(bins, k, Hit), obs);
    CountSelected(InBin(bins, k), Within(bins, k, Each), obs);
  }

  lemma WidthTimes(bins: pos, k: nat)
    ensures Times(Times(k as real, Ratio(1.0, bins as real)), bins as real) == k as real
  {
    RatioTimes(1.0, bins as real);
    var w := Ratio(1.0, bins as real);
    TimesRegroup(k as real, bins as real, w);
    TimesRegroup(k as real, w, bins as real);
    assert Times(w, bins as real) == Times(bins as real, w);
    TimesOrder(0.0, 0.0, k as real);
  }

  /** Every figure of a report is the one its observations give: the squared misses, the claims and the hits
      average to its Brier score, mean prediction and base rate; every bin holds the claims of its own part of
      the unit interval; the expected error weighs the bins' gaps by their sizes, and the maximum error is the
      largest gap. */
  lemma ReportExactly(e: Estimates, bins: pos, obs: seq<Observation>, logLoss: seq<Observation> -> real)
    requires obs != [] && Describes(e, bins, obs, logLoss)
    ensures var n := |obs| as real;
            && e.logLoss == logLoss(obs) && Times(e.brier, n) == Sum(Missed, obs)
            && Times(e.baseRate, n) == Sum(Hit, obs) && Times(e.meanPred, n) == Sum(Claimed, obs)
            && Times(e.ece, n) == Sum(SizedGap, e.bins)
    ensures |e.bins| == bins && forall k :: 0 <= k < bins ==> BinExactly(e.bins[k], bins, k, obs)
    ensures e.mce >= 0.0 && forall b :: b in e.bins ==> GapOf(b) <= e.mce
    ensures e.mce > 0.0 ==> exists b :: b in e.bins && GapOf(b) == e.mce
  {
    AveragesExactly(e, bins, obs, logLoss);
    hide P, Y, Claimed, Hit, Lies, InBin, Times, Sum, Ratio, BinReport, Gap, GapOf, InsideBin, Missed, BinExactly;
    forall k | 0 <= k < bins
      ensures BinExactly(e.bins[k], bins, k, obs) && e.bins[k] == BinReport(bins, k, obs) {
      BinReportExactly(bins, k, obs);
    }
    EceOfBins(e.bins, bins, bins, obs);
    assert e.bins[..bins] == e.bins;
    MceOfBins(e, bins, obs, logLoss);
  }

  lemma AveragesExactly(e: Estimates, bins: pos, obs: seq<Observation>, logLoss: seq<Observation> -> real)
    requires obs != [] && Describes(e, bins, obs, logLoss)
    ensures var n := |obs| as real;
            && Times(e.brier, n) == Sum(Missed, obs)
            && Times(e.baseRate, n) == Sum(Hit, obs) && Times(e.meanPred, n) == Sum(Claimed, obs)
  {
    hide P, Y, Claimed, Hit, Sum, Ratio, Ece, Mce, BinReport;
    forall o: Observation ensures P(o) == Claimed(o) && Y(o) == Hit(o) && SquaredError(o) == Missed(o) {
      ClaimedIsClamped(o);
    }
    hide Times, SquaredError, Missed;
    SumSame(P, Claimed, obs);
    SumSame(Y, Hit, obs);
    SumSame(SquaredError, Missed, obs);
    RatioTimes(Sum(SquaredError, obs), |obs| as real);
    RatioTimes(Sum(Y, obs), |obs| as real);
    RatioTimes(Sum(P, obs), |obs| as real);
  }

  lemma {:induction false} EceOfBins(reports: seq<ReliabilityBin>, bins: pos, k: nat, obs: seq<Observation>)
    requires obs != [] && k <= bins == |reports|
    requires forall j :: 0 <= j < bins ==> reports[j] == BinReport(bins, j, obs)
    ensures Times(Ece(bins, k, obs), |obs| as real) == Sum(SizedGap, reports[..k])
  {
    hide InsideBin, Times, Gap, Weighted, Ratio, BinReport, GapOf, BinExactly;
    TimesOrder(0.0, 0.0, |obs| as real);
    if k > 0 {
      EceOfBins(reports, bins, k - 1, obs);
      var members := InsideBin(bins, k - 1, obs);
      BinReportExactly(bins, k - 1, obs);
      assert reports[..k] == reports[..k - 1] + [reports[k - 1]];
      SumAppend(SizedGap, reports[..k - 1], [reports[k - 1]]);
      assert [reports[k - 1]][1..] == [];
      if members != [] {
        WeightedTimes(|members|, |obs|, Gap(members));
        TimesDistribute(Ece(bins, k - 1, obs), Weighted(|members|, |obs|, Gap(members)), |obs| as real);
      } else {
        TimesOrder(0.0, 0.0, GapOf(reports[k - 1]));
      }
    }
  }

  lemma MceOfBins(e: Estimates, bins: pos, obs: seq<Observation>, logLoss: seq<Observation> -> real)
    requires obs != [] && Describes(e, bins, obs, logLoss)
    ensures e.mce >= 0.0 && forall b :: b in e.bins ==> GapOf(b) <= e.mce
    ensures e.mce > 0.0 ==> exists b :: b in e.bins && GapOf(b) == e.mce
  {
    MceBoundsGaps(bins, bins, obs);
    hide InsideBin, Gap, Sum, Ratio, BinReport, Mce, Ece, GapOf, BinExactly;
    forall k | 0 <= k < bins
      ensures InsideBin(bins, k, obs) != [] ==> GapOf(e.bins[k]) == Gap(InsideBin(bins, k, obs))
      ensures InsideBin(bins, k, obs) == [] ==> GapOf(e.bins[k]) == 0.0 {
      BinReportExactly(bins, k, obs);
      if InsideBin(bins, k, obs) == [] { NoGap(e.bins[k], bins, k, obs); }
    }
    if e.mce > 0.0 {
      var k :| 0 <= k < bins && InsideBin(bins, k, obs) != [] && Gap(InsideBin(bins, k, obs)) == e.mce;
      assert e.bins[k] in e.bins;
    }
  }

  lemma NoGap(b: ReliabilityBin, bins: pos, k: nat, obs: seq<Observation>)
    requires b.n == 0 && BinExactly(b, bins, k, obs)
    ensures GapOf(b) == 0.0
  {
    hide Sum, Times, Within;
  }

  // ---- walk-forward recalibration gain ----

  datatype Beta = Beta(slope: real, intercept: real)

  datatype Lab = Lab(
    fit: seq<Observation> -> Beta,
    identityLoss: seq<Observation> -> real,
    recalLoss: (Beta, seq<Observation>) -> real,
    minTrain: int, minTest: int, minWarrantRelPct: real, requireAllFoldsPositive: bool)

  datatype Fold = Fold(period: int, n: nat, beta: Beta, identity: real, recal: real)

  function Gain(f: Fold): real { f.identity - f.recal }

  function Size(f: Fold): real { f.n as real }

  function SizedIdentity(f: Fold): real { Times(f.identity, f.n as real) }

  function SizedRecal(f: Fold): real { Times(f.recal, f.n as real) }

  function SizedGain(f: Fold): real { Times(Gain(f), f.n as real) }

  datatype Pooled = Pooled(identity: real, recal: real, gain: real, relGainPct: real, warrants: bool)

  datatype GainReport = GainReport(nTotal: nat, folds: seq<Fold>, pooled: Option<Pooled>)

  /** Everything observed before a point in the sequence of periods. */
  function Past(periods: seq<seq<Observation>>): seq<Observation> {
    if periods == [] then [] else Past(periods[..|periods| - 1]) + periods[|periods| - 1]
  }

  predicate Scored(lab: Lab, periods: seq<seq<Observation>>, i: nat)
    requires i < |periods|
  {
    |Past(periods[..i])| >= lab.minTrain && |periods[i]| >= lab.minTest
  }

  /** The fold that scores period i, fitted on what came before it. */
  function FoldAt(lab: Lab, periods: seq<seq<Observation>>, i: nat): Fold
    requires i < |periods|
  {
    var beta := lab.fit(Past(periods[..i]));
    Fold(i, |periods[i]|, beta, lab.identityLoss(periods[i]), lab.recalLoss(beta, periods[i]))
  }

  function FoldsTo(lab: Lab, periods: seq<seq<Observation>>, k: nat): (fs: seq<Fold>)
    requires k <= |periods|
    ensures forall f :: f in fs <==> exists i :: 0 <= i < k && Scored(lab, periods, i) && f == FoldAt(lab, periods, i)
  {
    if k == 0 then [] else FoldsTo(lab, periods, k - 1) + if Scored(lab, periods, k - 1)
      then [FoldAt(lab, periods, k - 1)] else []
  }

  method WalkForwardBetaGain(lab: Lab, periods: seq<seq<Observation>>) returns (r: Result<GainReport>)
    ensures r != BadBinCount
    ensures var fs := FoldsTo(lab, periods, |periods|);
            && (r == DivisionByZero <==> fs != [] && Sum(Size, fs) == 0.0)
            && (r.Ok? ==>
                  && r.value.folds == fs
                  && (r.value.pooled.None? <==> fs == [])
                  && (fs == [] ==> r.value.nTotal == |Past(periods)|)
                  && (fs != [] ==>
                        var p := r.value.pooled.value;
                        var n := Sum(Size, fs);
                        && r.value.nTotal as real == n
                        && p.identity == Ratio(Sum(SizedIdentity, fs), n)
                        && p.recal == Ratio(Sum(SizedRecal, fs), n)
                        && p.gain == p.identity - p.recal
                        && p.relGainPct == (if p.identity > 0.0 then Ratio(100.0 * p.gain, p.identity) else 0.0)
                        && p.warrants == (p.relGainPct >= lab.minWarrantRelPct
                                          && (!lab.requireAllFoldsPositive || forall f :: f in fs ==> Gain(f) > 0.0))))
  {
    var folds: seq<Fold>, hist := [], [];
    var wsumId, wsumRc := 0.0, 0.0;
    var nTot: nat := 0;
    for i := 0 to |periods|
      invariant hist == Past(periods[..i])
      invariant folds == FoldsTo(lab, periods, i)
      invariant wsumId == Sum(SizedIdentity, folds) && wsumRc == Sum(SizedRecal, folds)
                && nTot as real == Sum(Size, folds)
    {
      var obs := periods[i];
      assert periods[..i + 1][..i] == periods[..i];
      if |hist| >= lab.minTrain && |obs| >= lab.minTest {
        var beta := lab.fit(hist);
        var idLl := lab.identityLoss(obs);
        var rcLl := lab.recalLoss(beta, obs);
        var n := |obs|;
        var fold := Fold(i, n, beta, idLl, rcLl);
        SumAppend(SizedIdentity, folds, [fold]);
        SumAppend(SizedRecal, folds, [fold]);
        SumAppend(Size, folds, [fold]);
        folds := folds + [fold];
        wsumId := wsumId + SizedIdentity(fold);
        wsumRc := wsumRc + SizedRecal(fold);
        nTot := nTot + n;
      }
      hist := hist + obs;
    }
    assert periods[..|periods|] == periods;
    if folds == [] {
      return Ok(GainReport(|hist|, [], None));
    }
    if nTot == 0 {
      return DivisionByZero;
    }
    var pooledId := Ratio(wsumId, nTot as real);
    var pooledRc := Ratio(wsumRc, nTot as real);
    var gain := pooledId - pooledRc;
    var rel := if pooledId > 0.0 then Ratio(100.0 * gain, pooledId) else 0.0;
    var allPos := forall f :: f in folds ==> Gain(f) > 0.0;
    var warrants := rel >= lab.minWarrantRelPct && (if lab.requireAllFoldsPositive then allPos else true);
    r := Ok(GainReport(nTot, folds, Some(Pooled(pooledId, pooledRc, gain, rel, warrants))));
  }

  lemma {:induction false} SizedSums(fs: seq<Fold>)
    ensures Sum(SizedGain, fs) == Sum(SizedIdentity, fs) - Sum(SizedRecal, fs)
  {
    hide Times;
    if fs != [] {
      SizedSums(fs[1..]);
      TimesDistribute(fs[0].identity, fs[0].recal, fs[0].n as real);
    }
  }

  lemma {:induction false} SizedGainBounds(fs: seq<Fold>, lo: real, hi: real)
    requires forall f :: f in fs ==> lo <= Gain(f) <= hi
    ensures Times(lo, Sum(Size, fs)) <= Sum(SizedGain, fs) <= Times(hi, Sum(Size, fs))
  {
    hide Times, Gain;
    TimesOrder(0.0, 0.0, lo);
    TimesOrder(0.0, 0.0, hi);
    if fs != [] {
      SizedGainBounds(fs[1..], lo, hi);
      assert fs == [fs[0]] + fs[1..];
      TimesOrder(lo, Gain(fs[0]), Size(fs[0]));
      TimesOrder(Gain(fs[0]), hi, Size(fs[0]));
      TimesDistribute(Size(fs[0]), Sum(Size, fs[1..]), lo);
      TimesDistribute(Size(fs[0]), Sum(Size, fs[1..]), hi);
    }
  }

  /** The pooled gain is the size-weighted mean of the fold gains, so it lies between the worst and the best
      fold. */
  lemma PooledGainIsAMean(fs: seq<Fold>, lo: real, hi: real)
    requires Sum(Size, fs) > 0.0 && forall f :: f in fs ==> lo <= Gain(f) <= hi
    ensures var n := Sum(Size, fs);
            var pooled := Ratio(Sum(SizedIdentity, fs), n) - Ratio(Sum(SizedRecal, fs), n);
            Times(pooled, n) == Sum(SizedGain, fs) && lo <= pooled <= hi
  {
    hide Ratio, Times, SizedIdentity, SizedRecal, SizedGain, Size, Gain, Sum;
    var n := Sum(Size, fs);
    RatioTimes(Sum(SizedIdentity, fs), n);
    RatioTimes(Sum(SizedRecal, fs), n);
    SizedSums(fs);
    SizedGainBounds(fs, lo, hi);
    var u, v := Ratio(Sum(SizedIdentity, fs), n), Ratio(Sum(SizedRecal, fs), n);
    TimesDistribute(u, v, n);
    TimesCompare(lo, u - v, n);
    TimesCompare(u - v, hi, n);
  }

  function LeastGain(fs: seq<Fold>): (g: real)
    requires fs != []
    ensures forall f :: f in fs ==> g <= Gain(f)
    ensures exists f :: f in fs && g == Gain(f)
  {
    if |fs| == 1 then Gain(fs[0])
    else
      assert fs == [fs[0]] + fs[1..];
      Min(Gain(fs[0]), LeastGain(fs[1..]))
  }

  function MostGain(fs: seq<Fold>): (g: real)
    requires fs != []
    ensures forall f :: f in fs ==> Gain(f) <= g
    ensures exists f :: f in fs && g == Gain(f)
  {
    if |fs| == 1 then Gain(fs[0])
    else
      assert fs == [fs[0]] + fs[1..];
      Max(Gain(fs[0]), MostGain(fs[1..]))
  }

  /** If every fold improved, so did the pool; and a pool that improved has a fold that did. */
  lemma AllPositiveFoldsPoolPositive(fs: seq<Fold>)
    requires Sum(Size, fs) > 0.0
    ensures var n := Sum(Size, fs);
            var pooled := Ratio(Sum(SizedIdentity, fs), n) - Ratio(Sum(SizedRecal, fs), n);
            && ((forall f :: f in fs ==> Gain(f) > 0.0) ==> pooled > 0.0)
            && (pooled > 0.0 ==> exists f :: f in fs && Gain(f) > 0.0)
  {
    assert fs != [];
    PooledGainIsAMean(fs, LeastGain(fs), MostGain(fs));
  }

  /** Later periods add folds and change none: the folds of a prefix are a prefix of the folds. */
  lemma {:induction false} LaterPeriodsChangeNoFold(lab: Lab, periods: seq<seq<Observation>>, k: nat)
    requires k <= |periods|
    ensures FoldsTo(lab, periods[..k], k) == FoldsTo(lab, periods, k) <= FoldsTo(lab, periods, |periods|)
  {
    FoldsOfPrefix(lab, periods, k, k);
    FoldsGrow(lab, periods, k, |periods|);
  }

  lemma {:induction false} FoldsOfPrefix(lab: Lab, periods: seq<seq<Observation>>, k: nat, j: nat)
    requires j <= k <= |periods|
    ensures FoldsTo(lab, periods[..k], j) == FoldsTo(lab, periods, j)
  {
    if j > 0 {
      FoldsOfPrefix(lab, periods, k, j - 1);
      assert periods[..k][..j - 1] == periods[..j - 1];
    }
  }

  lemma {:induction false} FoldsGrow(lab: Lab, periods: seq<seq<Observation>>, k: nat, m: nat)
    requires k <= m <= |periods|
    ensures FoldsTo(lab, periods, k) <= FoldsTo(lab, periods, m)
    decreases m
  {
    if k < m { FoldsGrow(lab, periods, k, m - 1); }
  }

  // ---- the folds, told from the periods ----

  /** The observations of a list of periods, in order. */
  ghost function Joined(periods: seq<seq<Observation>>): seq<Observation> {
    if periods == [] then [] else periods[0] + Joined(periods[1..])
  }

  lemma {:induction false} PastIsJoined(periods: seq<seq<Observation>>)
    ensures Past(periods) == Joined(periods)
  {
    if periods != [] {
      var n := |periods| - 1;
      PastIsJoined(periods[..n]);
      JoinedSnoc(periods[..n], periods[n]);
      assert periods[..n] + [periods[n]] == periods;
    }
  }

  lemma {:induction false} JoinedSnoc(periods: seq<seq<Observation>>, last: seq<Observation>)
    ensures Joined(periods + [last]) == Joined(periods) + last
  {
    if periods == [] {
      assert Joined(([] + [last])[1..]) == [];
    } else {
      assert (periods + [last])[1..] == periods[1..] + [last];
      JoinedSnoc(periods[1..], last);
    }
  }

  /** The fold of a period was fitted on the periods before it and scored on that period. */
  ghost predicate FoldExactly(f: Fold, lab: Lab, periods: seq<seq<Observation>>) {
    && 0 <= f.period < |periods| && f.n == |periods[f.period]|
    && f.beta == lab.fit(Joined(periods[..f.period]))
    && f.identity == lab.identityLoss(periods[f.period])
    && f.recal == lab.recalLoss(f.beta, periods[f.period])
  }

  ghost predicate HasFold(fs: seq<Fold>, i: nat) { exists f :: f in fs && f.period == i }

  /** A period has a fold iff enough was observed before it and enough in it; each has one, in the order of
      the periods, and it is that period's. */
  lemma {:induction false} FoldsExactly(lab: Lab, periods: seq<seq<Observation>>, k: nat)
    requires k <= |periods|
    ensures var fs := FoldsTo(lab, periods, k);
            && (forall f :: f in fs ==> f.period < k && FoldExactly(f, lab, periods))
            && (forall i: nat :: i < k ==>
                  (HasFold(fs, i) <==> |Joined(periods[..i])| >= lab.minTrain && |periods[i]| >= lab.minTest))
            && forall x, y :: 0 <= x < y < |fs| ==> fs[x].period < fs[y].period
  {
    if k > 0 {
      FoldsExactly(lab, periods, k - 1);
      PastIsJoined(periods[..k - 1]);
      var before, now := FoldsTo(lab, periods, k - 1), FoldAt(lab, periods, k - 1);
      assert FoldExactly(now, lab, periods);
      hide FoldAt, FoldExactly, Joined, Past;
      forall i: nat | i < k
        ensures HasFold(FoldsTo(lab, periods, k), i)
                <==> HasFold(before, i) || (i == k - 1 && Scored(lab, periods, i)) {
        HasFoldSnoc(before, now, i);
      }
    }
  }

  lemma HasFoldSnoc(fs: seq<Fold>, f: Fold, i: nat)
    ensures HasFold(fs + [f], i) <==> HasFold(fs, i) || f.period == i
  {
    assert f in fs + [f];
    if g :| g in fs && g.period == i { assert g in fs + [f]; }
  }
}
