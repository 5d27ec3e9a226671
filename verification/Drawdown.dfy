/** Backtest bankroll arithmetic (app/backtesting/engine.py, walkforward.py bankroll_path_from_bets):
    compounding paths, the running drawdown and what fractional-Kelly caps guarantee. */
module Drawdown {
  import opened Prelude
  import StableSort
  import WF = WalkForward

  datatype Outcome = Won | Lost | Void

  /** `stake` is a fraction of the bankroll at bet time. */
  datatype SettledPick = SettledPick(stake: real, odds: real, outcome: Outcome)

  datatype Result<+T> = Ok(value: T) | StakeOutOfRange(stake: real)

  datatype Summary = Summary(n: nat, roi: real, finalBankroll: real, maxDrawdown: real)

  ghost predicate InRange(p: SettledPick) { 0.0 <= p.stake <= 1.0 }

  /** Where a pick takes a bankroll. */
  function Step(bankroll: real, p: SettledPick): real {
    match p.outcome
    case Void => bankroll
    case Won => bankroll + Times(Times(bankroll, p.stake), p.odds - 1.0)
    case Lost => bankroll - Times(bankroll, p.stake)
  }

  function Final(picks: seq<SettledPick>, starting: real): real {
    if picks == [] then starting else Step(Final(picks[..|picks| - 1], starting), picks[|picks| - 1])
  }

  /** The bankroll before the first pick and after each one. */
  function Path(picks: seq<SettledPick>, starting: real): (path: seq<real>)
    ensures |path| == |picks| + 1
    ensures forall i :: 0 <= i <= |picks| ==> path[i] == Final(picks[..i], starting)
  {
    seq(|picks| + 1, i requires 0 <= i <= |picks| => Final(picks[..i], starting))
  }

  /** The first stake that is no fraction of the bankroll. */
  ghost predicate FirstBadStake(picks: seq<SettledPick>, stake: real) {
    exists i :: 0 <= i < |picks| && picks[i].stake == stake && !(0.0 <= stake <= 1.0)
                && forall k :: 0 <= k < i ==> 0.0 <= picks[k].stake <= 1.0
  }

  method BankrollPath(picks: seq<SettledPick>, starting: real) returns (r: Result<seq<real>>)
    ensures r.Ok? <==> forall p :: p in picks ==> 0.0 <= p.stake <= 1.0
    ensures r.StakeOutOfRange? ==> FirstBadStake(picks, r.stake)
    ensures r.Ok? ==> r.value == Path(picks, starting)
  {
    hide Times;
    var path := [starting];
    var bankroll := starting;
    for i := 0 to |picks|
      invariant forall k :: 0 <= k < i ==> InRange(picks[k])
      invariant bankroll == Final(picks[..i], starting)
      invariant |path| == i + 1 && forall k :: 0 <= k <= i ==> path[k] == Final(picks[..k], starting)
    {
      var p := picks[i];
      if !(0.0 <= p.stake <= 1.0) {
        assert p in picks && !InRange(p);
        return StakeOutOfRange(p.stake);
      }
      assert picks[..i + 1][..i] == picks[..i];
      var stake := Times(bankroll, p.stake);
      match p.outcome {
        case Void =>
        case Won => bankroll := bankroll + Times(stake, p.odds - 1.0);
        case Lost => bankroll := bankroll - stake;
      }
      path := path + [bankroll];
    }
    r := Ok(path);
  }

  // ---- drawdown ----

  function Peak(path: seq<real>): (peak: real)
    requires path != []
    ensures forall i :: 0 <= i < |path| ==> path[i] <= peak
    ensures exists i :: 0 <= i < |path| && path[i] == peak
  {
    var last := path[|path| - 1];
    if |path| == 1 then last
    else
      var before := Peak(path[..|path| - 1]);
      assert forall i :: 0 <= i < |path| - 1 ==> path[i] == path[..|path| - 1][i];
      Max(before, last)
  }

  /** How far `low` lies below `high`, as a fraction of it. */
  function Fall(high: real, low: real): real
    requires high > 0.0
  {
    (high - low) / high
  }

  function RunningDrawdown(path: seq<real>): real {
    if path == [] then 0.0
    else
      var worst := RunningDrawdown(path[..|path| - 1]);
      if Peak(path) > 0.0 then Max(worst, Fall(Peak(path), path[|path| - 1])) else worst
  }

  /** One more point on the path. */
  lemma PathGrows(path: seq<real>, i: nat)
    requires 0 < i < |path|
    ensures Peak(path[..i + 1]) == Max(Peak(path[..i]), path[i])
    ensures RunningDrawdown(path[..i + 1]) ==
            if Peak(path[..i + 1]) > 0.0 then Max(RunningDrawdown(path[..i]), Fall(Peak(path[..i + 1]), path[i]))
            else RunningDrawdown(path[..i])
  {
    assert path[..i + 1][..i] == path[..i];
  }

  method MaxDrawdown(path: seq<real>) returns (worst: real)
    ensures worst == RunningDrawdown(path)
  {
    var peak: Option<real> := None;
    worst := 0.0;
    for i := 0 to |path|
      invariant peak == if i == 0 then None else Some(Peak(path[..i]))
      invariant worst == RunningDrawdown(path[..i])
    {
      var value := path[i];
      assert path[..i + 1][..i] == path[..i];
      peak := Some(if peak.None? then value else Max(peak.value, value));
      if peak.value > 0.0 {
        worst := Max(worst, Fall(peak.value, value));
      }
    }
    assert path[..|path|] == path;
  }

  lemma KeptPart(high: real, low: real) returns (kept: real)
    requires high > 0.0
    ensures kept == 1.0 - Fall(high, low) && Times(kept, high) == low
  {
    kept := 1.0 - Fall(high, low);
    assert Fall(high, low) * high == high - low;
  }

  lemma FallIsMonotone(high: real, higher: real, low: real)
    requires 0.0 < high <= higher
    ensures low >= 0.0 ==> Fall(high, low) <= Fall(higher, low)
    ensures low < 0.0 && high < higher ==> Fall(high, low) > Fall(higher, low)
  {
    var a := KeptPart(high, low);
    var b := KeptPart(higher, low);
    hide Fall;
    KeptOrder(a, b, high, higher, low);
  }

  lemma KeptOrder(a: real, b: real, high: real, higher: real, low: real)
    requires 0.0 < high <= higher && Times(a, high) == low == Times(b, higher)
    ensures low >= 0.0 ==> a >= b
    ensures low < 0.0 && high < higher ==> a < b
  {
    var gap := higher - high;
    assert (a - b) * high == b * gap;
    if low >= 0.0 {
      assert b >= 0.0;
      assert b * gap >= 0.0;
    } else if gap > 0.0 {
      assert b < 0.0;
      assert b * gap < 0.0;
    }
  }

  /** Where the fall from the running peak is the worst fall from any earlier positive value: exactly where
      the value is not negative, or no earlier positive value lies below the peak. */
  lemma PeakFallIsWorst(path: seq<real>, j: nat)
    requires j < |path| && Peak(path[..j + 1]) > 0.0
    ensures var peak := Peak(path[..j + 1]);
            (forall i :: 0 <= i <= j && path[i] > 0.0 ==> Fall(path[i], path[j]) <= Fall(peak, path[j]))
              <==> path[j] >= 0.0 || (forall i :: 0 <= i <= j && path[i] > 0.0 ==> path[i] == peak)
  {
    var peak := Peak(path[..j + 1]);
    assert forall i :: 0 <= i <= j ==> path[i] == path[..j + 1][i] <= peak;
    forall i | 0 <= i <= j && path[i] > 0.0
      ensures path[j] >= 0.0 ==> Fall(path[i], path[j]) <= Fall(peak, path[j])
      ensures path[j] < 0.0 && path[i] < peak ==> Fall(path[i], path[j]) > Fall(peak, path[j])
    {
      FallIsMonotone(path[i], peak, path[j]);
    }
  }

  ghost predicate NonNegative(path: seq<real>) { forall i :: 0 <= i < |path| ==> path[i] >= 0.0 }

  lemma {:induction false} RunningBoundsPairs(path: seq<real>, i: nat, j: nat)
    requires NonNegative(path) && i <= j < |path| && path[i] > 0.0
    ensures Fall(path[i], path[j]) <= RunningDrawdown(path)
  {
    var n := |path| - 1;
    if j < n {
      RunningBoundsPairs(path[..n], i, j);
    } else {
      FallIsMonotone(path[i], Peak(path), path[n]);
    }
    hide Fall;
  }

  lemma {:induction false} RunningIsAttained(path: seq<real>) returns (i: nat, j: nat)
    requires NonNegative(path) && RunningDrawdown(path) != 0.0
    ensures i <= j < |path| && path[i] > 0.0 && Fall(path[i], path[j]) == RunningDrawdown(path)
  {
    hide Fall;
    var n := |path| - 1;
    if RunningDrawdown(path) == RunningDrawdown(path[..n]) {
      i, j := RunningIsAttained(path[..n]);
    } else {
      i :| 0 <= i < |path| && path[i] == Peak(path);
      j := n;
    }
  }

  lemma {:induction false} RunningIsAFraction(path: seq<real>)
    requires NonNegative(path)
    ensures 0.0 <= RunningDrawdown(path) <= 1.0
  {
    if path != [] {
      var n := |path| - 1;
      RunningIsAFraction(path[..n]);
      if Peak(path) > 0.0 { FallIsAFraction(Peak(path), path[n]); }
      hide Fall;
    }
  }

  /** On a bankroll that never goes negative the running drawdown is the worst fall between any two points
      in time, it is attained (unless it is zero), and it is a fraction. */
  lemma RunningIsPairwise(path: seq<real>)
    requires NonNegative(path)
    ensures forall i, j :: 0 <= i <= j < |path| && path[i] > 0.0 ==> Fall(path[i], path[j]) <= RunningDrawdown(path)
    ensures RunningDrawdown(path) == 0.0
            || exists i, j :: 0 <= i <= j < |path| && path[i] > 0.0 && Fall(path[i], path[j]) == RunningDrawdown(path)
    ensures 0.0 <= RunningDrawdown(path) <= 1.0
  {
    hide Fall, RunningDrawdown;
    forall i, j | 0 <= i <= j < |path| && path[i] > 0.0 ensures Fall(path[i], path[j]) <= RunningDrawdown(path) {
      RunningBoundsPairs(path, i, j);
    }
    if RunningDrawdown(path) != 0.0 {
      var i, j := RunningIsAttained(path);
    }
    RunningIsAFraction(path);
  }

  lemma FallIsAFraction(high: real, low: real)
    requires high > 0.0 && low >= 0.0
    ensures Fall(high, low) <= 1.0
  {
    var kept := KeptPart(high, low);
    TimesCompare(0.0, kept, high);
    TimesOrder(0.0, 0.0, high);
    hide Fall, Times;
  }

  /** A bankroll that does go negative escapes the running figure. */
  lemma NegativeBankrollEscapes()
    ensures RunningDrawdown([1.0, 2.0, -1.0]) == 1.5 < Fall(1.0, -1.0)
  {
    var p := [1.0, 2.0, -1.0];
    assert p[..2] == [1.0, 2.0] && p[..2][..1] == [1.0] && p[..1] == [1.0];
    assert Peak([1.0]) == 1.0 && RunningDrawdown([1.0]) == 0.0;
    assert Peak([1.0, 2.0]) == 2.0 && RunningDrawdown([1.0, 2.0]) == 0.0;
    assert Peak(p) == 2.0;
  }

  lemma StepKeepsSign(bankroll: real, p: SettledPick)
    requires bankroll >= 0.0 && InRange(p) && p.odds >= 0.0
    ensures Step(bankroll, p) >= 0.0
  {
    hide Times;
    TimesOrder(0.0, p.stake, bankroll);
    TimesOrder(p.stake, 1.0, bankroll);
    var stake := Times(bankroll, p.stake);
    TimesOrder(-1.0, p.odds - 1.0, stake);
    TimesRegroup(stake, 0.0, 0.0);
  }

  lemma {:induction false} BankrollStaysNonNegative(picks: seq<SettledPick>, starting: real)
    requires starting >= 0.0 && forall p :: p in picks ==> InRange(p) && p.odds >= 0.0
    ensures Final(picks, starting) >= 0.0
    ensures NonNegative(Path(picks, starting))
  {
    hide Step;
    if picks != [] {
      var n := |picks| - 1;
      BankrollStaysNonNegative(picks[..n], starting);
      StepKeepsSign(Final(picks[..n], starting), picks[n]);
      var path := Path(picks, starting);
      forall i | 0 <= i < |path| ensures path[i] >= 0.0 {
        if i <= n {
          assert picks[..n][..i] == picks[..i];
          assert path[i] == Path(picks[..n], starting)[i];
        } else {
          assert picks[..i] == picks;
        }
      }
    }
  }

  // ---- the summary ----

  function Turnover(picks: seq<SettledPick>, starting: real): real {
    if picks == [] then 0.0
    else
      var n := |picks| - 1;
      Turnover(picks[..n], starting) + if picks[n].outcome.Void? then 0.0
        else Times(Final(picks[..n], starting), picks[n].stake)
  }

  method Delta(bankroll: real, p: SettledPick) returns (stake: real, delta: real)
    ensures stake == Times(bankroll, p.stake) && bankroll + delta == Step(bankroll, p)
  {
    hide Times;
    stake := Times(bankroll, p.stake);
    delta := match p.outcome case Void => 0.0 case Won => Times(stake, p.odds - 1.0) case Lost => -stake;
  }

  method ReturnOnTurnover(profit: real, turnover: real) returns (roi: real)
    ensures roi * turnover == profit <==> turnover > 0.0 || profit == 0.0
    ensures turnover <= 0.0 ==> roi == 0.0
  {
    roi := if turnover > 0.0 then profit / turnover else 0.0;
  }

  method Summarize(picks: seq<SettledPick>, starting: real) returns (r: Result<Summary>)
    ensures r.Ok? <==> forall p :: p in picks ==> 0.0 <= p.stake <= 1.0
    ensures r.StakeOutOfRange? ==> FirstBadStake(picks, r.stake)
    ensures r.Ok? ==>
              var s := r.value;
              var profit := Final(picks, starting) - starting;
              && s.n == |picks|
              && s.finalBankroll == starting + profit
              && s.maxDrawdown == RunningDrawdown(Path(picks, starting))
              && (s.roi * Turnover(picks, starting) == profit <==> Turnover(picks, starting) > 0.0 || profit == 0.0)
              && (Turnover(picks, starting) <= 0.0 ==> s.roi == 0.0)
  {
    hide RunningDrawdown, Final, Turnover;
    var path := BankrollPath(picks, starting);
    if path.StakeOutOfRange? {
      return StakeOutOfRange(path.stake);
    }
    var turnover, profit := Totals(picks, starting);
    var roi := ReturnOnTurnover(profit, turnover);
    var dd := MaxDrawdown(path.value);
    assert picks[..|picks|] == picks;
    r := Ok(Summary(|picks|, roi, path.value[|path.value| - 1], dd));
  }

  /** The second accumulation over the picks, which does not consult the path. */
  method Totals(picks: seq<SettledPick>, starting: real) returns (turnover: real, profit: real)
    ensures turnover == Turnover(picks, starting) && starting + profit == Final(picks, starting)
  {
    hide Step;
    turnover, profit := 0.0, 0.0;
    var bankroll := starting;
    for i := 0 to |picks|
      invariant bankroll == Final(picks[..i], starting) == starting + profit
      invariant turnover == Turnover(picks[..i], starting)
    {
      var p := picks[i];
      assert picks[..i + 1][..i] == picks[..i];
      var stake, delta := Delta(bankroll, p);
      turnover := turnover + if !p.outcome.Void? then stake else 0.0;
      profit := profit + delta;
      bankroll := bankroll + delta;
    }
    assert picks[..|picks|] == picks;
  }

  /** From a bankroll that is not negative there is no profit without turnover, so the return on turnover
      always accounts for the whole profit. */
  lemma {:induction false} NoProfitWithoutTurnover(picks: seq<SettledPick>, starting: real)
    requires starting >= 0.0 && forall p :: p in picks ==> InRange(p) && p.odds >= 0.0
    ensures Turnover(picks, starting) >= 0.0
    ensures Turnover(picks, starting) == 0.0 ==> Final(picks, starting) == starting
  {
    if picks != [] {
      var n := |picks| - 1;
      NoProfitWithoutTurnover(picks[..n], starting);
      BankrollStaysNonNegative(picks[..n], starting);
      hide Times;
      var stake := Times(Final(picks[..n], starting), picks[n].stake);
      TimesOrder(0.0, picks[n].stake, Final(picks[..n], starting));
      TimesOrder(0.0, 0.0, picks[n].odds - 1.0);
    }
  }

  // ---- fractional Kelly ----

  /** A bet sized by capped fractional Kelly at the model's probability. */
  function KellyPick(b: WF.Bet, fraction: real, cap: real): SettledPick
    requires b.oddsTaken != 1.0
  {
    SettledPick(Min(Times(Max(Kelly(b), 0.0), fraction), cap), b.oddsTaken, if b.won then Won else Lost)
  }

  function Kelly(b: WF.Bet): real
    requires b.oddsTaken != 1.0
  {
    ((b.oddsTaken - 1.0) * b.modelProb - (1.0 - b.modelProb)) / (b.oddsTaken - 1.0)
  }

  /** Kelly's fraction is the expected profit per unit of odds, so nothing is staked without an edge. */
  lemma KellyIsExpectationOverOdds(b: WF.Bet, fraction: real, cap: real)
    requires b.oddsTaken > 1.0
    ensures Times(Kelly(b), b.oddsTaken - 1.0) == WF.Ev(b.modelProb, b.oddsTaken)
    ensures Kelly(b) > 0.0 <==> WF.Ev(b.modelProb, b.oddsTaken) > 0.0
    ensures fraction > 0.0 && cap > 0.0 ==>
            (KellyPick(b, fraction, cap).stake > 0.0 <==> WF.Ev(b.modelProb, b.oddsTaken) > 0.0)
  {
    var k := b.oddsTaken - 1.0;
    assert Times(Kelly(b), k) == WF.Ev(b.modelProb, b.oddsTaken);
    TimesCompare(Kelly(b), 0.0, k);
    TimesOrder(0.0, 0.0, k);
    if fraction > 0.0 {
      TimesCompare(Max(Kelly(b), 0.0), 0.0, fraction);
      TimesOrder(0.0, 0.0, fraction);
    }
    hide Kelly, WF.Ev, Times;
  }

  function KellyPicks(bets: seq<WF.Bet>, fraction: real, cap: real): (ps: seq<SettledPick>)
    requires forall b :: b in bets ==> b.oddsTaken != 1.0
    ensures |ps| == |bets| && forall i :: 0 <= i < |bets| ==> ps[i] == KellyPick(bets[i], fraction, cap)
  {
    seq(|bets|, i requires 0 <= i < |bets| => KellyPick(bets[i], fraction, cap))
  }

  predicate Earlier(a: WF.Bet, b: WF.Bet) { a.day <= b.day }

  function Chronological(bets: seq<WF.Bet>): (r: seq<WF.Bet>)
    ensures forall b :: b in r <==> b in bets
  {
    assert forall b :: b in StableSort.Sort(Earlier, bets) <==> b in bets by {
      forall b ensures b in StableSort.Sort(Earlier, bets) <==> b in bets { StableSort.SortMembers(Earlier, bets, b); }
    }
    StableSort.Sort(Earlier, bets)
  }

  lemma StartingPath()
    ensures Peak([1.0]) == 1.0 && RunningDrawdown([1.0]) == 0.0
  {
  }

  method SettleBet(bankroll: real, b: WF.Bet, fraction: real, cap: real) returns (after: real)
    requires b.oddsTaken != 1.0
    ensures after == Step(bankroll, KellyPick(b, fraction, cap))
  {
    hide Times, Kelly;
    var kelly := Kelly(b);
    var frac := Min(Times(Max(kelly, 0.0), fraction), cap);
    var stake := Times(bankroll, frac);
    after := bankroll + if b.won then Times(stake, b.oddsTaken - 1.0) else -stake;
  }

  /** The walk-forward bankroll loop computes the engine's path and its drawdown without building the path. */
  method BankrollPathFromBets(bets: seq<WF.Bet>, fraction: real, cap: real) returns (finalMultiple: real, maxDd: real)
    requires forall b :: b in bets ==> b.oddsTaken != 1.0
    ensures var picks := KellyPicks(Chronological(bets), fraction, cap);
            finalMultiple == Final(picks, 1.0) && maxDd == RunningDrawdown(Path(picks, 1.0))
  {
    hide Step, KellyPick, Chronological, Peak, RunningDrawdown, Fall;
    var ordered := Chronological(bets);
    ghost var picks := KellyPicks(ordered, fraction, cap);
    ghost var path := Path(picks, 1.0);
    var bankroll, peak := 1.0, 1.0;
    maxDd := 0.0;
    assert path[..1] == [1.0] && picks[..0] == [];
    StartingPath();
    for i := 0 to |ordered|
      invariant bankroll == Final(picks[..i], 1.0)
      invariant peak == Peak(path[..i + 1])
      invariant maxDd == RunningDrawdown(path[..i + 1])
    {
      var b := ordered[i];
      assert picks[..i + 1][..i] == picks[..i];
      PathGrows(path, i + 1);
      bankroll := SettleBet(bankroll, b, fraction, cap);
      peak := Max(peak, bankroll);
      if peak > 0.0 {
        maxDd := Max(maxDd, Fall(peak, bankroll));
      }
    }
    assert picks[..|ordered|] == picks && path[..|ordered| + 1] == path;
    finalMultiple := bankroll;
  }

  function Pow(x: real, n: nat): real { if n == 0 then 1.0 else Times(x, Pow(x, n - 1)) }

  lemma {:induction false} PowStep(x: real, n: nat)
    requires 0.0 <= x <= 1.0
    ensures 0.0 <= Pow(x, n + 1) <= Pow(x, n) <= 1.0
    ensures x > 0.0 ==> Pow(x, n) > 0.0
  {
    if n == 0 {
      assert Pow(x, 1) == Times(x, Pow(x, 0)) == x;
    } else {
      PowStep(x, n - 1);
      TimesOrder(Pow(x, n), Pow(x, n - 1), x);
      TimesOrder(0.0, Pow(x, n), x);
    }
  }

  lemma {:induction false} PowDecreases(x: real, m: nat, n: nat)
    requires 0.0 <= x <= 1.0 && m <= n
    ensures 0.0 <= Pow(x, n) <= Pow(x, m) <= 1.0
    ensures x > 0.0 ==> Pow(x, n) > 0.0
    decreases n - m
  {
    PowStep(x, n);
    PowStep(x, m);
    hide Pow;
    if m < n { PowDecreases(x, m + 1, n); }
  }

  function Losses(picks: seq<SettledPick>): nat {
    if picks == [] then 0 else Losses(picks[..|picks| - 1]) + if picks[|picks| - 1].outcome.Lost? then 1 else 0
  }

  /** A stake of at most `cap`, never laying, at odds that cannot lose money on a win. */
  ghost predicate Capped(p: SettledPick, cap: real) { 0.0 <= p.stake <= cap && p.odds >= 1.0 }

  lemma {:induction false} FinalAppend(a: seq<SettledPick>, b: seq<SettledPick>, starting: real)
    ensures Final(a + b, starting) == Final(b, Final(a, starting))
    ensures Losses(a + b) == Losses(a) + Losses(b)
  {
    if b == [] {
      assert a + b == a;
    } else {
      assert (a + b)[..|a + b| - 1] == a + b[..|b| - 1];
      FinalAppend(a, b[..|b| - 1], starting);
    }
  }

  lemma StepLosesAtMostCap(bankroll: real, p: SettledPick, cap: real)
    requires bankroll >= 0.0 && Capped(p, cap)
    ensures Step(bankroll, p) >= if p.outcome.Lost? then Times(bankroll, 1.0 - cap) else bankroll
  {
    hide Times;
    TimesOrder(p.stake, cap, bankroll);
    TimesOrder(0.0, p.stake, bankroll);
    TimesRegroup(bankroll, cap, 0.0);
    TimesOrder(0.0, p.odds - 1.0, Times(bankroll, p.stake));
  }

  /** Only losses shrink a capped bankroll, and each by at most the cap. */
  lemma {:induction false} CappedBankrollFloor(picks: seq<SettledPick>, starting: real, cap: real)
    requires starting >= 0.0 && 0.0 <= cap <= 1.0 && forall p :: p in picks ==> Capped(p, cap)
    ensures Final(picks, starting) >= Times(starting, Pow(1.0 - cap, Losses(picks))) >= 0.0
  {
    hide Times, Step, Capped;
    if picks == [] {
      TimesOrder(0.0, 0.0, starting);
    } else {
      var n := |picks| - 1;
      CappedBankrollFloor(picks[..n], starting, cap);
      var before, floor := Final(picks[..n], starting), Pow(1.0 - cap, Losses(picks[..n]));
      StepLosesAtMostCap(before, picks[n], cap);
      TimesOrder(Times(starting, floor), before, 1.0 - cap);
      TimesRegroup(starting, floor, 1.0 - cap);
      TimesOrder(0.0, Times(starting, floor), 1.0 - cap);
    }
  }

  lemma KellyPicksAreCapped(bets: seq<WF.Bet>, fraction: real, cap: real)
    requires fraction >= 0.0 && cap >= 0.0 && forall b :: b in bets ==> b.oddsTaken > 1.0
    ensures forall p :: p in KellyPicks(bets, fraction, cap) ==> Capped(p, cap)
  {
    var picks := KellyPicks(bets, fraction, cap);
    forall i | 0 <= i < |picks| ensures Capped(picks[i], cap) {
      var b := bets[i];
      hide Kelly, Times;
      TimesOrder(0.0, Max(Kelly(b), 0.0), fraction);
    }
  }

  lemma {:induction false} LossesCount(bets: seq<WF.Bet>, fraction: real, cap: real)
    requires forall b :: b in bets ==> b.oddsTaken != 1.0
    ensures Losses(KellyPicks(bets, fraction, cap)) == |Filter((b: WF.Bet) => !b.won, bets)|
  {
    var lost := (b: WF.Bet) => !b.won;
    if bets != [] {
      var n := |bets| - 1;
      LossesCount(bets[..n], fraction, cap);
      assert KellyPicks(bets, fraction, cap)[..n] == KellyPicks(bets[..n], fraction, cap);
      FilterSnoc(lost, bets, n);
      assert bets[..n + 1] == bets;
    }
  }

  lemma ChronologyKeepsLosses(bets: seq<WF.Bet>)
    ensures |Filter((b: WF.Bet) => !b.won, Chronological(bets))| == |Filter((b: WF.Bet) => !b.won, bets)|
  {
    StableSort.SortFilter(Earlier, (b: WF.Bet) => !b.won, bets);
  }

  /** The fall between two moments is bounded by the losses between them. */
  lemma CappedFall(picks: seq<SettledPick>, i: nat, j: nat, cap: real)
    requires i <= j <= |picks| && 0.0 <= cap <= 1.0 && forall p :: p in picks ==> Capped(p, cap)
    requires Final(picks[..i], 1.0) > 0.0
    ensures Fall(Final(picks[..i], 1.0), Final(picks[..j], 1.0)) <= 1.0 - Pow(1.0 - cap, Losses(picks))
  {
    hide Times, Final, Losses, Pow, Fall, Capped;
    var high, between := Final(picks[..i], 1.0), picks[i..j];
    assert picks[..j] == picks[..i] + between && picks == picks[..j] + picks[j..];
    FinalAppend(picks[..i], between, 1.0);
    FinalAppend(picks[..j], picks[j..], 1.0);
    CappedBankrollFloor(between, high, cap);
    PowDecreases(1.0 - cap, Losses(between), Losses(picks));
    var floor, low := Pow(1.0 - cap, Losses(picks)), Final(picks[..j], 1.0);
    TimesOrder(floor, Pow(1.0 - cap, Losses(between)), high);
    FallBelow(high, low, floor);
  }

  lemma FallBelow(high: real, low: real, floor: real)
    requires high > 0.0 && low >= Times(high, floor)
    ensures Fall(high, low) <= 1.0 - floor
  {
    var kept := KeptPart(high, low);
    assert Times(high, floor) == Times(floor, high);
    TimesCompare(floor, kept, high);
    hide Fall, Times;
  }

  /** With stakes capped below the whole bankroll, a run of bets cannot fall further than its losses allow:
      it keeps at least (1 - cap) to the number of lost bets, and is never ruined. */
  lemma CappedKellyIsNeverRuined(bets: seq<WF.Bet>, fraction: real, cap: real)
    requires fraction >= 0.0 && 0.0 <= cap <= 1.0 && forall b :: b in bets ==> b.oddsTaken > 1.0
    ensures var picks := KellyPicks(Chronological(bets), fraction, cap);
            var lost := |Filter((b: WF.Bet) => !b.won, bets)|;
            && (forall i :: 0 <= i <= |picks| ==> Path(picks, 1.0)[i] >= Pow(1.0 - cap, lost))
            && 0.0 <= RunningDrawdown(Path(picks, 1.0)) <= 1.0 - Pow(1.0 - cap, lost)
            && (cap < 1.0 ==> RunningDrawdown(Path(picks, 1.0)) < 1.0)
  {
    hide Times, Final, Losses, Pow, Fall, Capped, KellyPick, Chronological, RunningDrawdown;
    var ordered := Chronological(bets);
    var picks := KellyPicks(ordered, fraction, cap);
    var path := Path(picks, 1.0);
    KellyPicksAreCapped(ordered, fraction, cap);
    LossesCount(ordered, fraction, cap);
    ChronologyKeepsLosses(bets);
    var lost := Losses(picks);
    PowDecreases(1.0 - cap, 0, lost);
    forall i | 0 <= i <= |picks| ensures path[i] >= Pow(1.0 - cap, lost) {
      CappedBankrollFloor(picks[..i], 1.0, cap);
      TimesOrder(0.0, 0.0, Pow(1.0 - cap, Losses(picks[..i])));
      assert picks == picks[..i] + picks[i..];
      FinalAppend(picks[..i], picks[i..], 1.0);
      PowDecreases(1.0 - cap, Losses(picks[..i]), lost);
    }
    RunningIsPairwise(path);
    if RunningDrawdown(path) != 0.0 {
      var i, j :| 0 <= i <= j < |path| && path[i] > 0.0 && Fall(path[i], path[j]) == RunningDrawdown(path);
      CappedFall(picks, i, j, cap);
    }
  }

  // ---- the path, told pick by pick ----

  /** A void pick leaves the bankroll alone, a win adds the stake's net return, a loss takes the stake. */
  lemma PathExactly(picks: seq<SettledPick>, starting: real)
    ensures var path := Path(picks, starting);
            && |path| == |picks| + 1 && path[0] == starting && path[|picks|] == Final(picks, starting)
            && forall i :: 0 <= i < |picks| ==>
                 var stake := Times(path[i], picks[i].stake);
                 path[i + 1] - path[i] ==
                   if picks[i].outcome == Void then 0.0
                   else if picks[i].outcome == Won then Times(stake, picks[i].odds) - stake else -stake
  {
    var path := Path(picks, starting);
    assert picks[..0] == [] && picks[..|picks|] == picks;
    forall i | 0 <= i < |picks|
      ensures path[i + 1] == Step(path[i], picks[i])
      ensures var stake := Times(path[i], picks[i].stake);
              Times(stake, picks[i].odds - 1.0) == Times(stake, picks[i].odds) - stake {
      assert picks[..i + 1][..i] == picks[..i];
      var stake := Times(path[i], picks[i].stake);
      TimesDistribute(picks[i].odds, 1.0, stake);
      TimesOrder(0.0, 0.0, stake);
      TimesSwap(stake, picks[i].odds - 1.0);
      TimesSwap(stake, picks[i].odds);
    }
    hide Path, Times;
  }

  lemma TimesSwap(x: real, y: real)
    ensures Times(x, y) == Times(y, x)
  {
  }

  /** What was staked in all: each pick's share of the bankroll it met, void picks apart. */
  lemma {:induction false} TurnoverExactly(picks: seq<SettledPick>, starting: real) returns (staked: seq<real>)
    ensures |staked| == |picks| && Turnover(picks, starting) == Sum((x: real) => x, staked)
    ensures forall i :: 0 <= i < |picks| ==>
              staked[i] == if picks[i].outcome == Void then 0.0 else Times(picks[i].stake, Path(picks, starting)[i])
  {
    hide Times, Step;
    staked := [];
    if picks != [] {
      var n := |picks| - 1;
      var before := TurnoverExactly(picks[..n], starting);
      forall i | 0 <= i < n ensures Path(picks, starting)[i] == Path(picks[..n], starting)[i] {
        assert picks[..n][..i] == picks[..i];
      }
      var last := if picks[n].outcome == Void then 0.0 else Times(picks[n].stake, Path(picks, starting)[n]);
      TimesSwap(picks[n].stake, Path(picks, starting)[n]);
      SumAppend((x: real) => x, before, [last]);
      assert [last][1..] == [];
      staked := before + [last];
    }
  }

  /** The running figure on any path: no value lies further below the highest one up to it, as a share of that
      one, and it is zero or some value lies just so far below. */
  lemma {:induction false} RunningExactly(path: seq<real>)
    ensures RunningDrawdown(path) >= 0.0
    ensures forall j :: 0 <= j < |path| ==> HighestLeaves(path, j, RunningDrawdown(path))
    ensures RunningDrawdown(path) == 0.0 || exists j :: 0 <= j < |path| && FallsBy(path, j, RunningDrawdown(path))
  {
    if path != [] {
      var n := |path| - 1;
      var init := path[..n];
      RunningExactly(init);
      LastStep(path);
      LastFall(path);
      var before, worst := RunningDrawdown(init), RunningDrawdown(path);
      hide *;
      assert forall i :: 0 <= i < n ==> init[i] == path[i];
      forall j | 0 <= j < n ensures HighestLeaves(path, j, worst) {
        assert HighestLeaves(init, j, before);
        LeavesMore(init, path, j, before, worst);
      }
      if before != 0.0 {
        var j :| 0 <= j < n && FallsBy(init, j, before);
        FallsAlike(init, path, j, before);
      }
    }
  }

  /** The highest value up to a moment, when positive, lies above the value then by no more than this share of
      itself. */
  ghost predicate HighestLeaves(path: seq<real>, j: nat, share: real)
    requires j < |path|
  {
    forall i :: 0 <= i <= j && path[i] > 0.0 && (forall k :: 0 <= k <= j ==> path[k] <= path[i]) ==>
      path[i] - path[j] <= Times(share, path[i])
  }

  ghost predicate FallsBy(path: seq<real>, j: nat, share: real)
    requires j < |path|
  {
    exists i :: 0 <= i <= j && path[i] > 0.0 && (forall k :: 0 <= k <= j ==> path[k] <= path[i])
                && path[i] - path[j] == Times(share, path[i])
  }

  lemma LeavesMore(a: seq<real>, b: seq<real>, j: nat, less: real, more: real)
    requires j < |a| && j < |b| && (forall i :: 0 <= i <= j ==> a[i] == b[i]) && less <= more
    requires HighestLeaves(a, j, less)
    ensures HighestLeaves(b, j, more)
  {
    forall i | 0 <= i <= j && b[i] > 0.0 && (forall k :: 0 <= k <= j ==> b[k] <= b[i])
      ensures b[i] - b[j] <= Times(more, b[i]) {
      assert forall k :: 0 <= k <= j ==> a[k] <= a[i];
      TimesOrder(less, more, b[i]);
    }
  }

  lemma FallsAlike(a: seq<real>, b: seq<real>, j: nat, share: real)
    requires j < |a| && j < |b| && (forall i :: 0 <= i <= j ==> a[i] == b[i])
    requires FallsBy(a, j, share)
    ensures FallsBy(b, j, share)
  {
    hide Times;
    var i :| 0 <= i <= j && a[i] > 0.0 && (forall k :: 0 <= k <= j ==> a[k] <= a[i])
      && a[i] - a[j] == Times(share, a[i]);
    assert b[i] - b[j] == Times(share, b[i]);
    assert forall k :: 0 <= k <= j ==> b[k] <= b[i];
  }

  lemma LastFall(path: seq<real>)
    requires path != []
    ensures var n, worst := |path| - 1, RunningDrawdown(path);
            && HighestLeaves(path, n, worst)
            && (worst == RunningDrawdown(path[..n]) || FallsBy(path, n, worst))
  {
    var n, worst, peak := |path| - 1, RunningDrawdown(path), Peak(path);
    LastStep(path);
    if peak > 0.0 { FallTimes(peak, path[n]); }
    hide *;
    if peak > 0.0 {
      var fall := Fall(peak, path[n]);
      TimesOrder(fall, worst, peak);
      PeakLeaves(path, worst);
      if worst == fall { PeakFalls(path, worst); }
    } else {
      PeakLeaves(path, worst);
    }
  }

  lemma LastStep(path: seq<real>)
    requires path != []
    ensures var n, before, worst := |path| - 1, RunningDrawdown(path[..|path| - 1]), RunningDrawdown(path);
            && worst >= before && (worst != before ==> Peak(path) > 0.0 && worst == Fall(Peak(path), path[n]))
            && (Peak(path) > 0.0 ==> worst >= Fall(Peak(path), path[n]))
  {
    hide Peak, Fall;
  }

  lemma FallTimes(high: real, low: real)
    requires high > 0.0
    ensures Times(Fall(high, low), high) == high - low
  {
  }

  lemma PeakLeaves(path: seq<real>, share: real)
    requires path != [] && (Peak(path) > 0.0 ==> Peak(path) - path[|path| - 1] <= Times(share, Peak(path)))
    ensures HighestLeaves(path, |path| - 1, share)
  {
    var peak := Peak(path);
    hide Peak, Times;
    var at :| 0 <= at < |path| && path[at] == peak;
    forall i | 0 <= i < |path| && path[i] > 0.0 && (forall k :: 0 <= k < |path| ==> path[k] <= path[i])
      ensures path[i] == peak {
      assert path[at] <= path[i];
    }
  }

  lemma PeakFalls(path: seq<real>, share: real)
    requires path != [] && Peak(path) > 0.0 && Peak(path) - path[|path| - 1] == Times(share, Peak(path))
    ensures FallsBy(path, |path| - 1, share)
  {
    var peak := Peak(path);
    hide Peak, Times;
    var at :| 0 <= at < |path| && path[at] == peak;
  }

  /** What a bet is settled as: fractional Kelly at the model's probability, never below nothing and never above the
      cap, at the odds taken. */
  lemma KellyPickExactly(b: WF.Bet, fraction: real, cap: real, kelly: real)
    requires b.oddsTaken != 1.0 && Times(kelly, b.oddsTaken - 1.0) == Times(b.modelProb, b.oddsTaken) - 1.0
    ensures var p, stake := KellyPick(b, fraction, cap), if kelly > 0.0 then Times(fraction, kelly) else 0.0;
            && p.stake == (if stake > cap then cap else stake) && p.odds == b.oddsTaken
            && (b.won ==> p.outcome == Won) && (!b.won ==> p.outcome == Lost)
  {
    var k := b.oddsTaken - 1.0;
    assert Times(Kelly(b), k) == k * b.modelProb - (1.0 - b.modelProb) == Times(b.modelProb, b.oddsTaken) - 1.0;
    SameProduct(kelly, Kelly(b), k);
    hide Kelly;
    TimesSwap(Max(kelly, 0.0), fraction);
    TimesOrder(0.0, 0.0, fraction);
    hide Times;
  }

  lemma SameProduct(x: real, y: real, k: real)
    requires k != 0.0 && Times(x, k) == Times(y, k)
    ensures x == y
  {
    assert (x - y) * k == 0.0;
  }

  /** The bets are settled by day, and as given within one day. */
  lemma ChronologicalExactly(bets: seq<WF.Bet>) returns (at: seq<nat>)
    ensures var r := Chronological(bets);
            && StableSort.Reorders(at, |bets|) && |r| == |bets|
            && (forall x :: 0 <= x < |r| ==> r[x] == bets[at[x]])
            && forall x, y :: 0 <= x < y < |r| ==> r[x].day < r[y].day || (r[x].day == r[y].day && at[x] < at[y])
  {
    at := StableSort.SortPositions(Earlier, bets);
    StableSort.SortOrdered(Earlier, bets);
    var r := Chronological(bets);
    forall x, y | 0 <= x < y < |r| ensures r[x].day < r[y].day || (r[x].day == r[y].day && at[x] < at[y]) {
      assert Earlier(r[x], r[y]);
      assert at[x] < at[y] || !Earlier(bets[at[y]], bets[at[x]]);
    }
  }
}
