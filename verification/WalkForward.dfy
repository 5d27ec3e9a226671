/** The walk-forward backtest (app/backtesting/walkforward.py): a chronological loop over the
    matches with a pricer that is refitted every few days. The fit callback, the pricer it
    returns, the devig solver and the logarithm are parameters; a fit that raises yields None. */
module WalkForward {
  import opened Prelude
  import StableSort

  datatype Triple<+T> = Triple(home: T, draw: T, away: T)

  datatype Side = Home | Draw | Away

  function Pick<T>(t: Triple<T>, side: Side): T {
    match side
    case Home => t.home
    case Draw => t.draw
    case Away => t.away
  }

  datatype MatchRow = MatchRow(
    day: int, home: string, away: string,
    homeGoals: int, awayGoals: int, result: Side,
    b365: Triple<Option<real>>, pinnacleClose: Triple<Option<real>>)

  /** `P` is the fitted model; `price` asks it for one matchup. */
  datatype Lab<!P> = Lab(
    fit: (seq<MatchRow>, int) -> Option<P>,
    price: (P, string, string) -> Option<Triple<real>>,
    devig: Triple<real> -> Triple<real>,
    ln: real -> real,
    warmupMatches: int, trainingWindowDays: int, refitEveryDays: int)

  datatype Bet = Bet(
    day: int, home: string, away: string, selection: Side,
    modelProb: real, fairProb: real, edge: real, ev: real, oddsTaken: real,
    won: bool, clv: Option<real>)

  datatype State<P> = State(pricer: Option<P>, lastFit: Option<int>, nEval: nat, nPriced: nat, bets: seq<Bet>)

  datatype Report = Report(nEval: nat, nPriced: nat, bets: seq<Bet>)

  const MIN_HISTORY := 100

  predicate NoLaterThan(a: MatchRow, b: MatchRow) { a.day <= b.day }

  predicate Quoted(o: Option<real>) { o.Some? && o.value > 1.0 }

  predicate AllQuoted(t: Triple<Option<real>>) { Quoted(t.home) && Quoted(t.draw) && Quoted(t.away) }

  predicate HasB365(m: MatchRow) { AllQuoted(m.b365) }

  function Values(t: Triple<Option<real>>): Triple<real>
    requires AllQuoted(t)
  {
    Triple(t.home.value, t.draw.value, t.away.value)
  }

  function InWindow(start: int, day: int): MatchRow -> bool { (h: MatchRow) => start <= h.day < day }

  /** The rows a fit dated `day` may see. */
  function History<P>(lab: Lab<P>, ordered: seq<MatchRow>, day: int): seq<MatchRow> {
    Filter(InWindow(day - lab.trainingWindowDays, day), ordered)
  }

  function FitOn<P>(lab: Lab<P>, ordered: seq<MatchRow>, day: int): Option<P> {
    var history := History(lab, ordered, day);
    if |history| >= MIN_HISTORY then lab.fit(history, day) else None
  }

  predicate RefitDue<P>(lab: Lab<P>, lastFit: Option<int>, day: int) {
    lastFit.None? || day - lastFit.value >= lab.refitEveryDays
  }

  function CloseFair<P>(lab: Lab<P>, m: MatchRow): Option<Triple<real>> {
    if AllQuoted(m.pinnacleClose) then Some(lab.devig(Values(m.pinnacleClose))) else None
  }

  /** Expected profit per unit staked. */
  function Ev(p: real, odds: real): real { p * (odds - 1.0) - (1.0 - p) }

  lemma EvMeaning(p: real, odds: real)
    ensures Ev(p, odds) == p * odds - 1.0
  {
  }

  function ClvLog(ln: real -> real, fillOdds: real, closingFair: real): real {
    ln(Times(fillOdds, closingFair))
  }

  /** The bet on one side of a priced match, if the model has both edge and positive expectation. */
  function SideBet<P>(lab: Lab<P>, priced: Triple<real>, m: MatchRow, side: Side): Option<Bet>
    requires HasB365(m)
  {
    var odds := Pick(Values(m.b365), side);
    var p := Pick(priced, side);
    var fair := Pick(lab.devig(Values(m.b365)), side);
    var edge := p - fair;
    var ev := Ev(p, odds);
    if edge <= 0.0 || ev <= 0.0 then None
    else
      var close := CloseFair(lab, m);
      Some(Bet(m.day, m.home, m.away, side, p, fair, edge, ev, odds, m.result == side,
               if close.None? then None else Some(ClvLog(lab.ln, odds, Pick(close.value, side)))))
  }

  function AsList<T>(o: Option<T>): seq<T> { if o.None? then [] else [o.value] }

  function MatchBets<P>(lab: Lab<P>, priced: Triple<real>, m: MatchRow): seq<Bet>
    requires HasB365(m)
  {
    AsList(SideBet(lab, priced, m, Home)) + AsList(SideBet(lab, priced, m, Draw))
      + AsList(SideBet(lab, priced, m, Away))
  }

  /** One iteration of the loop for the i-th eligible match. */
  function Step<P>(lab: Lab<P>, ordered: seq<MatchRow>, st: State<P>, i: nat, m: MatchRow): State<P>
    requires HasB365(m)
  {
    if i < lab.warmupMatches then st
    else
      var due := RefitDue(lab, st.lastFit, m.day);
      var pricer := if due then FitOn(lab, ordered, m.day) else st.pricer;
      var lastFit := if due then Some(m.day) else st.lastFit;
      var priced := if pricer.None? then None else lab.price(pricer.value, m.home, m.away);
      if priced.None? then State(pricer, lastFit, st.nEval + 1, st.nPriced, st.bets)
      else State(pricer, lastFit, st.nEval + 1, st.nPriced + 1, st.bets + MatchBets(lab, priced.value, m))
  }

  predicate AllEligible(rows: seq<MatchRow>) { forall i :: 0 <= i < |rows| ==> HasB365(rows[i]) }

  /** The state after the first `n` eligible matches. */
  function After<P>(lab: Lab<P>, ordered: seq<MatchRow>, eligible: seq<MatchRow>, n: nat): State<P>
    requires n <= |eligible| && AllEligible(eligible)
  {
    if n == 0 then State(None, None, 0, 0, [])
    else Step(lab, ordered, After(lab, ordered, eligible, n - 1), n - 1, eligible[n - 1])
  }

  function DatedUpTo(day: int): MatchRow -> bool { (m: MatchRow) => m.day <= day }

  function BetUpTo(day: int): Bet -> bool { (b: Bet) => b.day <= day }

  function Chronological(matches: seq<MatchRow>): seq<MatchRow> { StableSort.Sort(NoLaterThan, matches) }

  function Eligible(matches: seq<MatchRow>): (r: seq<MatchRow>)
    ensures AllEligible(r)
  {
    var r := Filter(HasB365, Chronological(matches));
    assert forall i :: 0 <= i < |r| ==> HasB365(r[i]) by {
      forall i | 0 <= i < |r| ensures HasB365(r[i]) {
        FilterMember(HasB365, Chronological(matches), r[i]);
      }
    }
    r
  }

  function FinalState<P>(lab: Lab<P>, matches: seq<MatchRow>): State<P> {
    After(lab, Chronological(matches), Eligible(matches), |Eligible(matches)|)
  }

  /** The bets of a whole run. */
  function Bets<P>(lab: Lab<P>, matches: seq<MatchRow>): seq<Bet> { FinalState(lab, matches).bets }

  /** The loop over the three selections of one priced match. */
  method BetOnMatch<P>(lab: Lab<P>, priced: Triple<real>, m: MatchRow) returns (bets: seq<Bet>)
    requires HasB365(m)
    ensures bets == MatchBets(lab, priced, m)
  {
    var fair := lab.devig(Values(m.b365));
    var closeFair := CloseFair(lab, m);
    var sides := [Home, Draw, Away];
    bets := [];
    ghost var h, d := AsList(SideBet(lab, priced, m, Home)), AsList(SideBet(lab, priced, m, Draw));
    for k := 0 to 3
      invariant bets == if k == 0 then [] else if k == 1 then h else if k == 2 then h + d else MatchBets(lab, priced, m)
    {
      var side := sides[k];
      var odds := Pick(Values(m.b365), side);
      var modelP := Pick(priced, side);
      var fairP := Pick(fair, side);
      var edge := modelP - fairP;
      var ev := Ev(modelP, odds);
      if edge <= 0.0 || ev <= 0.0 {
        assert SideBet(lab, priced, m, side) == None;
        continue;
      }
      var clv := if closeFair.None? then None else Some(ClvLog(lab.ln, odds, Pick(closeFair.value, side)));
      var bet := Bet(m.day, m.home, m.away, side, modelP, fairP, edge, ev, odds, m.result == side, clv);
      assert SideBet(lab, priced, m, side).value.clv == clv;
      assert SideBet(lab, priced, m, side) == Some(bet);
      bets := bets + [bet];
    }
  }

  method RunWalkForward<P>(lab: Lab<P>, matches: seq<MatchRow>) returns (report: Report)
    ensures var s := FinalState(lab, matches); report == Report(s.nEval, s.nPriced, s.bets)
  {
    var ordered := Chronological(matches);
    var eligible := Eligible(matches);
    var nEval, nPriced: nat, bets := 0, 0, [];
    var pricer: Option<P>, lastFit := None, None;
    for i := 0 to |eligible|
      invariant State(pricer, lastFit, nEval, nPriced, bets) == After(lab, ordered, eligible, i)
    {
      var m := eligible[i];
      if i < lab.warmupMatches {
        continue;
      }
      nEval := nEval + 1;
      if lastFit.None? || m.day - lastFit.value >= lab.refitEveryDays {
        var history := History(lab, ordered, m.day);
        if |history| >= MIN_HISTORY {
          pricer := lab.fit(history, m.day);
        } else {
          pricer := None;
        }
        lastFit := Some(m.day);
      }
      if pricer.None? {
        continue;
      }
      var priced := lab.price(pricer.value, m.home, m.away);
      if priced.None? {
        continue;
      }
      nPriced := nPriced + 1;
      var placed := BetOnMatch(lab, priced.value, m);
      bets := bets + placed;
    }
    report := Report(nEval, nPriced, bets);
  }

  // ---- what a fitted pricer has seen ----

  /** The live pricer was fitted on rows strictly before its fit date, is no older than the refit
      interval when it prices a match, and never comes from the future of that match. */
  ghost predicate PricerIsHonest<P(!new)>(lab: Lab<P>, ordered: seq<MatchRow>, st: State<P>, day: int) {
    && (st.pricer.Some? ==> st.lastFit.Some?)
    && (st.lastFit.Some? ==>
          var d := st.lastFit.value;
          && d <= day
          && (d == day || day - d < lab.refitEveryDays)
          && (st.pricer.Some? ==>
                && lab.fit(History(lab, ordered, d), d) == st.pricer
                && |History(lab, ordered, d)| >= MIN_HISTORY
                && forall h :: h in History(lab, ordered, d) ==>
                     h in ordered && d - lab.trainingWindowDays <= h.day < d))
  }

  lemma {:induction false} PricerNeverSeesTheFuture<P(!new)>(
    lab: Lab<P>, ordered: seq<MatchRow>, eligible: seq<MatchRow>, n: nat)
    requires 0 < n <= |eligible| && AllEligible(eligible) && StableSort.Ordered(NoLaterThan, eligible)
    requires lab.warmupMatches < n
    ensures PricerIsHonest(lab, ordered, After(lab, ordered, eligible, n), eligible[n - 1].day)
  {
    var st := After(lab, ordered, eligible, n);
    var m := eligible[n - 1];
    if n - 1 > 0 && lab.warmupMatches < n - 1 {
      PricerNeverSeesTheFuture(lab, ordered, eligible, n - 1);
      assert NoLaterThan(eligible[n - 2], m);
    } else {
      IdleBeforeWarmup(lab, ordered, eligible, n - 1);
    }
    if st.lastFit.Some? {
      HistoryIsPast(lab, ordered, st.lastFit.value);
    }
  }

  lemma HistoryIsPast<P(!new)>(lab: Lab<P>, ordered: seq<MatchRow>, d: int)
    ensures forall h :: h in History(lab, ordered, d) ==> h in ordered && d - lab.trainingWindowDays <= h.day < d
  {
    forall h | h in History(lab, ordered, d) ensures h in ordered && d - lab.trainingWindowDays <= h.day < d {
      FilterMember(InWindow(d - lab.trainingWindowDays, d), ordered, h);
    }
  }

  lemma {:induction false} IdleBeforeWarmup<P>(lab: Lab<P>, ordered: seq<MatchRow>, eligible: seq<MatchRow>, n: nat)
    requires n <= |eligible| && AllEligible(eligible) && (n == 0 || n <= lab.warmupMatches)
    ensures After(lab, ordered, eligible, n) == State(None, None, 0, 0, [])
  {
    if n > 0 { IdleBeforeWarmup(lab, ordered, eligible, n - 1); }
  }

  // ---- two runs ----

  /** The same fixture at the same pre-match prices; identical altogether when dated before `cutoff`. */
  ghost predicate SamePreMatch(cutoff: int, x: MatchRow, y: MatchRow) {
    && x.day == y.day && x.home == y.home && x.away == y.away && x.b365 == y.b365
    && (x.day < cutoff ==> x == y)
  }

  /** The same decisions: the same bets but for their settlement and their grade, and the same altogether when dated
      before `cutoff`. */
  ghost predicate BetsAgree(cutoff: int, a: seq<Bet>, b: seq<Bet>) {
    && |a| == |b|
    && forall i :: 0 <= i < |a| ==>
         a[i].(won := b[i].won, clv := b[i].clv) == b[i] && (a[i].day < cutoff ==> a[i] == b[i])
  }

  ghost predicate StatesAgree<P(!new)>(cutoff: int, s: State<P>, t: State<P>) {
    && s.pricer == t.pricer && s.lastFit == t.lastFit && s.nEval == t.nEval && s.nPriced == t.nPriced
    && BetsAgree(cutoff, s.bets, t.bets)
  }

  lemma {:induction false} RunsAgree<P(!new)>(
    lab: Lab<P>, cutoff: int, o1: seq<MatchRow>, e1: seq<MatchRow>, o2: seq<MatchRow>, e2: seq<MatchRow>, n: nat)
    requires n <= |e1| && n <= |e2| && AllEligible(e1) && AllEligible(e2)
    requires forall d :: d <= cutoff ==> History(lab, o1, d) == History(lab, o2, d)
    requires forall i :: 0 <= i < n ==> e1[i].day <= cutoff && SamePreMatch(cutoff, e1[i], e2[i])
    ensures StatesAgree(cutoff, After(lab, o1, e1, n), After(lab, o2, e2, n))
  {
    if n > 0 {
      RunsAgree(lab, cutoff, o1, e1, o2, e2, n - 1);
      StepAgrees(lab, cutoff, o1, o2, After(lab, o1, e1, n - 1), After(lab, o2, e2, n - 1), n - 1, e1[n - 1],
        e2[n - 1]);
    }
  }

  lemma StepAgrees<P(!new)>(
    lab: Lab<P>, cutoff: int, o1: seq<MatchRow>, o2: seq<MatchRow>, s: State<P>, t: State<P>, i: nat, x: MatchRow,
    y: MatchRow)
    requires HasB365(x) && SamePreMatch(cutoff, x, y)
    requires History(lab, o1, x.day) == History(lab, o2, x.day)
    requires StatesAgree(cutoff, s, t)
    ensures StatesAgree(cutoff, Step(lab, o1, s, i, x), Step(lab, o2, t, i, y))
  {
    var s', t' := Step(lab, o1, s, i, x), Step(lab, o2, t, i, y);
    if i >= lab.warmupMatches && s'.pricer.Some? {
      var priced := lab.price(s'.pricer.value, x.home, x.away);
      if priced.Some? {
        SideAgrees(lab, cutoff, priced.value, x, y);
        BetsAgreeAppend(cutoff, s.bets, t.bets, MatchBets(lab, priced.value, x), MatchBets(lab, priced.value, y));
      }
    }
  }

  lemma BetsAgreeAppend(cutoff: int, a: seq<Bet>, b: seq<Bet>, c: seq<Bet>, d: seq<Bet>)
    requires BetsAgree(cutoff, a, b) && BetsAgree(cutoff, c, d)
    ensures BetsAgree(cutoff, a + c, b + d)
  {
  }

  lemma SideAgrees<P>(lab: Lab<P>, cutoff: int, priced: Triple<real>, x: MatchRow, y: MatchRow)
    requires HasB365(x) && SamePreMatch(cutoff, x, y)
    ensures BetsAgree(cutoff, MatchBets(lab, priced, x), MatchBets(lab, priced, y))
  {
    assert SideBet(lab, priced, x, Home).Some? == SideBet(lab, priced, y, Home).Some?;
    assert SideBet(lab, priced, x, Draw).Some? == SideBet(lab, priced, y, Draw).Some?;
    assert SideBet(lab, priced, x, Away).Some? == SideBet(lab, priced, y, Away).Some?;
  }

  // ---- a date-ordered list is cut by a date into a prefix and a rest ----

  ghost predicate CutAt(rows: seq<MatchRow>, day: int, n: nat) {
    n <= |rows| && (forall i :: 0 <= i < n ==> rows[i].day <= day)
      && (forall i :: n <= i < |rows| ==> rows[i].day > day)
  }

  lemma {:induction false} Cut(rows: seq<MatchRow>, day: int) returns (n: nat)
    requires StableSort.Ordered(NoLaterThan, rows)
    ensures CutAt(rows, day, n)
    ensures Filter(DatedUpTo(day), rows) == rows[..n]
  {
    if rows == [] || rows[0].day > day {
      n := 0;
      forall i | 0 <= i < |rows| ensures rows[i].day > day {
        if i > 0 { assert NoLaterThan(rows[0], rows[i]); }
      }
      FilterNone(DatedUpTo(day), rows);
    } else {
      var k := Cut(rows[1..], day);
      n := k + 1;
      assert forall i :: 1 <= i < |rows| ==> rows[i] == rows[1..][i - 1];
    }
  }

  lemma SideBetDay<P>(lab: Lab<P>, priced: Triple<real>, m: MatchRow)
    requires HasB365(m)
    ensures forall b :: b in MatchBets(lab, priced, m) ==> b.day == m.day
  {
  }

  /** Matches after the cut add no bet dated up to the cut. */
  lemma {:induction false} BetsUpToCut<P(!new)>(
    lab: Lab<P>, ordered: seq<MatchRow>, eligible: seq<MatchRow>, day: int, cut: nat, n: nat)
    requires AllEligible(eligible) && CutAt(eligible, day, cut) && n <= |eligible|
    ensures Filter(BetUpTo(day), After(lab, ordered, eligible, n).bets)
         == After(lab, ordered, eligible, if n <= cut then n else cut).bets
  {
    if n > 0 {
      BetsUpToCut(lab, ordered, eligible, day, cut, n - 1);
      var before, now := After(lab, ordered, eligible, n - 1), After(lab, ordered, eligible, n);
      var m := eligible[n - 1];
      if now.bets != before.bets {
        var pricer := now.pricer;
        var priced := lab.price(pricer.value, m.home, m.away);
        var added := MatchBets(lab, priced.value, m);
        SideBetDay(lab, priced.value, m);
        FilterAppend(BetUpTo(day), before.bets, added);
        if n <= cut {
          FilterAll(BetUpTo(day), added);
        } else {
          FilterNone(BetUpTo(day), added);
        }
      }
    }
  }

  lemma ChronologicalOrdered(matches: seq<MatchRow>)
    ensures StableSort.Ordered(NoLaterThan, Chronological(matches))
    ensures StableSort.Ordered(NoLaterThan, Eligible(matches))
  {
    StableSort.SortOrdered(NoLaterThan, matches);
    FilterOrdered(HasB365, Chronological(matches));
  }

  lemma {:induction false} FilterOrdered(p: MatchRow -> bool, rows: seq<MatchRow>)
    requires StableSort.Ordered(NoLaterThan, rows)
    ensures StableSort.Ordered(NoLaterThan, Filter(p, rows))
  {
    if rows != [] {
      FilterOrdered(p, rows[1..]);
      var kept := Filter(p, rows[1..]);
      forall j | 0 <= j < |kept| ensures NoLaterThan(rows[0], kept[j]) {
        FilterMember(p, rows[1..], kept[j]);
      }
    }
  }

  /** The rows of a truncated run are the first rows of the full run. */
  lemma TruncatedRows(matches: seq<MatchRow>, day: int) returns (cut: nat)
    ensures var shorter := Filter(DatedUpTo(day), matches);
            && Chronological(shorter) == Filter(DatedUpTo(day), Chronological(matches))
            && CutAt(Eligible(matches), day, cut)
            && Eligible(shorter) == Eligible(matches)[..cut]
  {
    ChronologicalOrdered(matches);
    StableSort.SortFilter(NoLaterThan, DatedUpTo(day), matches);
    cut := Cut(Eligible(matches), day);
    FiltersCommute(DatedUpTo(day), HasB365, Chronological(matches));
  }

  lemma TruncatedHistory<P>(lab: Lab<P>, rows: seq<MatchRow>, day: int, d: int)
    requires d <= day + 1
    ensures History(lab, rows, d) == History(lab, Filter(DatedUpTo(day), rows), d)
  {
    var seen := InWindow(d - lab.trainingWindowDays, d);
    FilterFilter(seen, DatedUpTo(day), rows);
    FilterSame(seen, x => seen(x) && DatedUpTo(day)(x), rows);
  }

  lemma TruncatedRunAgrees<P(!new)>(lab: Lab<P>, matches: seq<MatchRow>, day: int, cut: nat)
    requires var shorter := Filter(DatedUpTo(day), matches);
             && Chronological(shorter) == Filter(DatedUpTo(day), Chronological(matches))
             && CutAt(Eligible(matches), day, cut)
             && Eligible(shorter) == Eligible(matches)[..cut]
    ensures BetsAgree(day + 1, After(lab, Chronological(matches), Eligible(matches), cut).bets,
            Bets(lab, Filter(DatedUpTo(day), matches)))
  {
    var shorter := Filter(DatedUpTo(day), matches);
    var o1, o2 := Chronological(matches), Chronological(shorter);
    forall d | d <= day + 1 ensures History(lab, o1, d) == History(lab, o2, d) {
      TruncatedHistory(lab, o1, day, d);
    }
    RunsAgree(lab, day + 1, o1, Eligible(matches), o2, Eligible(shorter), cut);
  }

  lemma EarlyBetsEqual(day: int, a: seq<Bet>, b: seq<Bet>)
    requires BetsAgree(day + 1, a, b) && Filter(BetUpTo(day), a) == a
    ensures a == b
  {
    forall i | 0 <= i < |a| ensures a[i] == b[i] {
      FilterMember(BetUpTo(day), a, a[i]);
    }
  }

  lemma FullRunUpToCut<P(!new)>(lab: Lab<P>, matches: seq<MatchRow>, day: int, cut: nat)
    requires CutAt(Eligible(matches), day, cut)
    ensures var early := After(lab, Chronological(matches), Eligible(matches), cut).bets;
            Filter(BetUpTo(day), Bets(lab, matches)) == early && Filter(BetUpTo(day), early) == early
  {
    var o, e := Chronological(matches), Eligible(matches);
    BetsUpToCut(lab, o, e, day, cut, |e|);
    BetsUpToCut(lab, o, e, day, cut, cut);
  }

  /** A run that stops at `day` makes exactly the bets the full run dates up to `day`. */
  lemma TruncatedRun<P(!new)>(lab: Lab<P>, matches: seq<MatchRow>, day: int)
    ensures Bets(lab, Filter(DatedUpTo(day), matches)) == Filter(BetUpTo(day), Bets(lab, matches))
  {
    var cut := TruncatedRows(matches, day);
    TruncatedRunAgrees(lab, matches, day, cut);
    FullRunUpToCut(lab, matches, day, cut);
    EarlyBetsEqual(day, Filter(BetUpTo(day), Bets(lab, matches)), Bets(lab, Filter(DatedUpTo(day), matches)));
  }

  lemma {:induction false} FilterPairwise(keep: MatchRow -> bool, cutoff: int, a: seq<MatchRow>, b: seq<MatchRow>)
    requires StableSort.Pairwise((x: MatchRow, y: MatchRow) => SamePreMatch(cutoff, x, y), a, b)
    requires forall x, y :: SamePreMatch(cutoff, x, y) ==> keep(x) == keep(y)
    ensures StableSort.Pairwise(
              (x: MatchRow, y: MatchRow) => SamePreMatch(cutoff, x, y), Filter(keep, a), Filter(keep, b))
  {
    if a != [] {
      assert SamePreMatch(cutoff, a[0], b[0]);
      forall i | 0 <= i < |a| - 1 ensures SamePreMatch(cutoff, a[1..][i], b[1..][i]) {
        assert SamePreMatch(cutoff, a[i + 1], b[i + 1]);
      }
      FilterPairwise(keep, cutoff, a[1..], b[1..]);
    }
  }

  lemma {:induction false} HistoryPairwise<P>(lab: Lab<P>, cutoff: int, d: int, a: seq<MatchRow>, b: seq<MatchRow>)
    requires StableSort.Pairwise((x: MatchRow, y: MatchRow) => SamePreMatch(cutoff, x, y), a, b)
    requires d <= cutoff
    ensures History(lab, a, d) == History(lab, b, d)
  {
    var keep := InWindow(d - lab.trainingWindowDays, d);
    FilterPairwise(keep, cutoff, a, b);
    var x, y := Filter(keep, a), Filter(keep, b);
    forall i | 0 <= i < |x| ensures x[i] == y[i] {
      assert SamePreMatch(cutoff, x[i], y[i]);
      FilterMember(keep, a, x[i]);
    }
  }

  /** Such rewritings agree on the fixtures the loop visits and on all histories up to the cutoff. */
  lemma InputsAgree<P(!new)>(lab: Lab<P>, cutoff: int, a: seq<MatchRow>, b: seq<MatchRow>)
    requires |a| == |b| && forall i :: 0 <= i < |a| ==> SamePreMatch(cutoff, a[i], b[i])
    ensures |Eligible(a)| == |Eligible(b)|
    ensures forall i :: 0 <= i < |Eligible(a)| ==> SamePreMatch(cutoff, Eligible(a)[i], Eligible(b)[i])
    ensures forall d :: d <= cutoff ==> History(lab, Chronological(a), d) == History(lab, Chronological(b), d)
  {
    var rel := (x: MatchRow, y: MatchRow) => SamePreMatch(cutoff, x, y);
    StableSort.SortPairwise(NoLaterThan, rel, a, b);
    var o1, o2 := Chronological(a), Chronological(b);
    FilterPairwise(HasB365, cutoff, o1, o2);
    forall d | d <= cutoff ensures History(lab, o1, d) == History(lab, o2, d) {
      HistoryPairwise(lab, cutoff, d, o1, o2);
    }
    forall i | 0 <= i < |Eligible(a)| ensures SamePreMatch(cutoff, Eligible(a)[i], Eligible(b)[i]) {
      assert rel(Eligible(a)[i], Eligible(b)[i]);
    }
  }

  /** No look-ahead: rewriting results and closing odds of matches dated on or after `cutoff`
      leaves every decision dated up to `cutoff`, and every bet dated before it, as it was. */
  lemma NoLookAhead<P(!new)>(lab: Lab<P>, cutoff: int, a: seq<MatchRow>, b: seq<MatchRow>)
    requires |a| == |b| && forall i :: 0 <= i < |a| ==> SamePreMatch(cutoff, a[i], b[i])
    ensures BetsAgree(cutoff, Filter(BetUpTo(cutoff), Bets(lab, a)), Filter(BetUpTo(cutoff), Bets(lab, b)))
  {
    var o1, o2 := Chronological(a), Chronological(b);
    var e1, e2 := Eligible(a), Eligible(b);
    InputsAgree(lab, cutoff, a, b);
    ChronologicalOrdered(a);
    hide Eligible, Chronological, SamePreMatch, BetsAgree, History;
    var cut := Cut(e1, cutoff);
    RunsAgree(lab, cutoff, o1, e1, o2, e2, cut);
    BetsUpToCut(lab, o1, e1, cutoff, cut, |e1|);
    BetsUpToCut(lab, o2, e2, cutoff, cut, |e2|);
  }

  // ---- what a bet says ----

  /** Every bet of a run is a positive-expectation bet, at the row's own pre-match price, where the
      model is above the market's fair value; and it is settled by that row's result alone. */
  ghost predicate Justified<P(!new)>(lab: Lab<P>, m: MatchRow, b: Bet) {
    && HasB365(m)
    && b.day == m.day && b.home == m.home && b.away == m.away
    && b.oddsTaken == Pick(m.b365, b.selection).value && b.oddsTaken > 1.0
    && b.fairProb == Pick(lab.devig(Values(m.b365)), b.selection)
    && b.edge == b.modelProb - b.fairProb && b.edge > 0.0
    && b.ev == b.modelProb * b.oddsTaken - 1.0 && b.ev > 0.0
    && b.won == (m.result == b.selection)
    && (b.clv.Some? <==> AllQuoted(m.pinnacleClose))
  }

  lemma SideBetJustified<P(!new)>(lab: Lab<P>, priced: Triple<real>, m: MatchRow, side: Side)
    requires HasB365(m)
    ensures SideBet(lab, priced, m, side).Some? <==>
              && Pick(priced, side) > Pick(lab.devig(Values(m.b365)), side)
              && Ev(Pick(priced, side), Pick(Values(m.b365), side)) > 0.0
    ensures SideBet(lab, priced, m, side).Some? ==>
              Justified(lab, m, SideBet(lab, priced, m, side).value)
              && SideBet(lab, priced, m, side).value.selection == side
              && SideBet(lab, priced, m, side).value.modelProb == Pick(priced, side)
  {
    EvMeaning(Pick(priced, side), Pick(Values(m.b365), side));
  }

  lemma {:induction false} BetsAreJustified<P(!new)>(
    lab: Lab<P>, ordered: seq<MatchRow>, eligible: seq<MatchRow>, n: nat, b: Bet) returns (m: MatchRow)
    requires n <= |eligible| && AllEligible(eligible) && b in After(lab, ordered, eligible, n).bets
    ensures m in eligible[..n] && Justified(lab, m, b)
  {
    var before := After(lab, ordered, eligible, n - 1);
    if b in before.bets {
      m := BetsAreJustified(lab, ordered, eligible, n - 1, b);
    } else {
      m := eligible[n - 1];
      var priced := lab.price(After(lab, ordered, eligible, n).pricer.value, m.home, m.away).value;
      SideBetJustified(lab, priced, m, Home);
      SideBetJustified(lab, priced, m, Draw);
      SideBetJustified(lab, priced, m, Away);
    }
  }

  // ---- a run told without its loop ----

  /** `x` is what the triple says of this side. */
  ghost predicate At(t: Triple<real>, side: Side, x: real) {
    && (side.Home? ==> x == t.home)
    && (side.Draw? ==> x == t.draw)
    && (side.Away? ==> x == t.away)
  }

  /** The listing order of the sides. */
  ghost function Place(side: Side): nat { if side.Home? then 0 else if side.Draw? then 1 else 2 }

  ghost predicate PriceOf(o: Option<real>, x: real) { o == Some(x) && x > 1.0 }

  /** All three Bet365 prices are there and above one. */
  ghost predicate Playable(m: MatchRow) {
    exists h, d, a :: PriceOf(m.b365.home, h) && PriceOf(m.b365.draw, d) && PriceOf(m.b365.away, a)
  }

  lemma PlayableMeans(m: MatchRow)
    ensures Playable(m) <==> HasB365(m)
  {
    if HasB365(m) {
      assert PriceOf(m.b365.home, m.b365.home.value) && PriceOf(m.b365.draw, m.b365.draw.value)
        && PriceOf(m.b365.away, m.b365.away.value);
    }
  }

  ghost predicate InDateOrder(rows: seq<MatchRow>) {
    forall i, j :: 0 <= i < j < |rows| ==> rows[i].day <= rows[j].day
  }

  lemma Selected(matches: seq<MatchRow>, p: MatchRow -> bool, x: MatchRow)
    ensures InDateOrder(Filter(p, Chronological(matches)))
    ensures multiset(Filter(p, Chronological(matches)))[x] == if p(x) then multiset(matches)[x] else 0
  {
    var all := Chronological(matches);
    var rows := Filter(p, all);
    StableSort.SortOrdered(NoLaterThan, matches);
    FilterOrdered(p, all);
    forall i, j | 0 <= i < j < |rows| ensures rows[i].day <= rows[j].day {
      assert NoLaterThan(rows[i], rows[j]);
    }
    StableSort.SortElements(NoLaterThan, matches);
    FilterMultiset(p, all, x);
  }

  /** The loop visits the playable matches, each as often as given, in date order. */
  lemma VisitsPlayable(matches: seq<MatchRow>)
    ensures InDateOrder(Eligible(matches))
    ensures forall x :: multiset(Eligible(matches))[x] == if Playable(x) then multiset(matches)[x] else 0
  {
    hide Playable, HasB365, Chronological, InDateOrder;
    forall x ensures multiset(Eligible(matches))[x] == if Playable(x) then multiset(matches)[x] else 0 {
      Selected(matches, HasB365, x);
      PlayableMeans(x);
    }
    Selected(matches, HasB365, MatchRow(0, "", "", 0, 0, Home, Triple(None, None, None), Triple(None, None, None)));
  }

  /** A fit dated `d` sees the rows of the window that ends just before `d`, each as often as given, in date order. */
  lemma HistoryIsTheWindow<P>(lab: Lab<P>, matches: seq<MatchRow>, d: int, x: MatchRow)
    ensures var history := History(lab, Chronological(matches), d);
            && InDateOrder(history)
            && multiset(history)[x] == if d - lab.trainingWindowDays <= x.day < d then multiset(matches)[x] else 0
  {
    hide Chronological, InDateOrder;
    Selected(matches, InWindow(d - lab.trainingWindowDays, d), x);
  }

  /** What the model fitted on day `d` says of the fixture. */
  ghost function PriceFrom<P>(lab: Lab<P>, matches: seq<MatchRow>, m: MatchRow, d: int): Option<Triple<real>> {
    var history := History(lab, Chronological(matches), d);
    if |history| < 100 then None
    else
      var model := lab.fit(history, d);
      if model.None? then None else lab.price(model.value, m.home, m.away)
  }

  /** `b` is a bet on `m` at the probabilities `priced`: one side of the fixture at its own Bet365 price, above the
      devigged fair value and with positive expectation, settled by the result and graded at the close. */
  ghost predicate BetAt<P(!new)>(lab: Lab<P>, m: MatchRow, priced: Triple<real>, b: Bet) {
    && b.day == m.day && b.home == m.home && b.away == m.away
    && At(priced, b.selection, b.modelProb)
    && Playable(m) && AllQuoted(m.b365)
    && At(Triple(m.b365.home.value, m.b365.draw.value, m.b365.away.value), b.selection, b.oddsTaken)
    && At(lab.devig(Triple(m.b365.home.value, m.b365.draw.value, m.b365.away.value)), b.selection, b.fairProb)
    && b.edge == b.modelProb - b.fairProb && b.edge > 0.0
    && b.ev == b.modelProb * b.oddsTaken - 1.0 && b.ev > 0.0
    && b.won == (b.selection == m.result)
    && (b.clv.Some? <==> AllQuoted(m.pinnacleClose))
    && (b.clv.Some? ==>
          var close := lab.devig(
            Triple(m.pinnacleClose.home.value, m.pinnacleClose.draw.value, m.pinnacleClose.away.value));
          && (b.selection.Home? ==> b.clv.value == lab.ln(Times(b.oddsTaken, close.home)))
          && (b.selection.Draw? ==> b.clv.value == lab.ln(Times(b.oddsTaken, close.draw)))
          && (b.selection.Away? ==> b.clv.value == lab.ln(Times(b.oddsTaken, close.away))))
  }

  lemma SideBetIsBetAt<P(!new)>(lab: Lab<P>, priced: Triple<real>, m: MatchRow, side: Side, b: Bet)
    requires HasB365(m)
    ensures SideBet(lab, priced, m, side) == Some(b) <==> b.selection == side && BetAt(lab, m, priced, b)
  {
    PlayableMeans(m);
    EvMeaning(Pick(priced, side), Pick(Values(m.b365), side));
    hide Times;
    var bet := SideBet(lab, priced, m, side);
    if b.selection == side && BetAt(lab, m, priced, b) {
      assert b.modelProb == Pick(priced, side) && b.oddsTaken == Pick(Values(m.b365), side);
      assert bet.Some? && b.ev == bet.value.ev && b.edge == bet.value.edge && b.won == bet.value.won;
      assert b.clv.Some? == bet.value.clv.Some?;
      assert b.clv.Some? ==> b.clv.value == bet.value.clv.value;
      assert b.clv == bet.value.clv;
    }
    if bet == Some(b) {
      assert b.ev == b.modelProb * b.oddsTaken - 1.0;
      assert At(priced, b.selection, b.modelProb);
      assert BetAt(lab, m, priced, b);
    }
  }

  /** The fit date in force at each visited match: the model is refitted at the first evaluated match and then at
      each one `refitEveryDays` or more after the fit in force. */
  ghost predicate FitDates<P(!new)>(lab: Lab<P>, e: seq<MatchRow>, days: seq<int>) {
    && |days| <= |e|
    && forall i :: 0 <= i < |days| && lab.warmupMatches <= i ==>
         days[i] == if i == 0 || i == lab.warmupMatches || e[i].day - days[i - 1] >= lab.refitEveryDays
                    then e[i].day else days[i - 1]
  }

  /** Bet `k` was placed on match `owner[k]`; bets come match by match, home before draw before away; and no bet
      that qualifies is missing. */
  ghost predicate Explained<P(!new)>(
    lab: Lab<P>, matches: seq<MatchRow>, e: seq<MatchRow>, days: seq<int>, owner: seq<nat>, bets: seq<Bet>)
    requires |days| <= |e|
  {
    && |owner| == |bets|
    && (forall k :: 0 <= k < |bets| ==>
          lab.warmupMatches <= owner[k] < |days| && Qualifies(lab, matches, e[owner[k]], days[owner[k]], bets[k]))
    && (forall k, l :: 0 <= k < l < |bets| ==>
          || owner[k] < owner[l]
          || (owner[k] == owner[l] && Place(bets[k].selection) < Place(bets[l].selection)))
    && (forall i: nat, b: Bet :: lab.warmupMatches <= i < |days| && Qualifies(lab, matches, e[i], days[i], b) ==>
          exists k :: 0 <= k < |bets| && owner[k] == i && bets[k] == b)
  }

  /** `b` is a bet on `m` at what the model fitted on day `d` says of it. */
  ghost predicate Qualifies<P(!new)>(lab: Lab<P>, matches: seq<MatchRow>, m: MatchRow, d: int, b: Bet) {
    PriceFrom(lab, matches, m, d).Some? && BetAt(lab, m, PriceFrom(lab, matches, m, d).value, b)
  }

  /** The bets on one priced match are those that qualify, home before draw before away. */
  lemma MatchBetsExactly<P(!new)>(lab: Lab<P>, priced: Triple<real>, m: MatchRow)
    requires HasB365(m)
    ensures var added := MatchBets(lab, priced, m);
            && (forall b :: b in added <==> BetAt(lab, m, priced, b))
            && forall k, l :: 0 <= k < l < |added| ==> Place(added[k].selection) < Place(added[l].selection)
  {
    var added := MatchBets(lab, priced, m);
    hide BetAt, SideBet;
    forall side, b
      ensures SideBet(lab, priced, m, side) == Some(b) <==> b.selection == side && BetAt(lab, m, priced, b)
    {
      SideBetIsBetAt(lab, priced, m, side, b);
    }
    var h, d, a := SideBet(lab, priced, m, Home), SideBet(lab, priced, m, Draw), SideBet(lab, priced, m, Away);
    forall b ensures b in added <==> h == Some(b) || d == Some(b) || a == Some(b) {
      assert b in AsList(h) <==> h == Some(b);
      assert b in AsList(d) <==> d == Some(b);
      assert b in AsList(a) <==> a == Some(b);
    }
  }

  lemma MoreExplained<P(!new)>(
    lab: Lab<P>, matches: seq<MatchRow>, e: seq<MatchRow>, days: seq<int>, owner: seq<nat>, bets: seq<Bet>,
    d: int, added: seq<Bet>)
    requires |days| < |e| && lab.warmupMatches <= |days| && Explained(lab, matches, e, days, owner, bets)
    requires forall b :: b in added <==> Qualifies(lab, matches, e[|days|], d, b)
    requires forall k, l :: 0 <= k < l < |added| ==> Place(added[k].selection) < Place(added[l].selection)
    ensures Explained(lab, matches, e, days + [d], owner + seq(|added|, _ => |days|), bets + added)
  {
    hide Qualifies, Place;
    var n, owner' := |days|, owner + seq(|added|, _ => |days|);
    forall i: nat, b: Bet | lab.warmupMatches <= i < n + 1 && Qualifies(lab, matches, e[i], (days + [d])[i], b)
      ensures exists k :: 0 <= k < |bets + added| && owner'[k] == i && (bets + added)[k] == b
    {
      StillListed(lab, matches, e, days, owner, bets, d, added, i, b);
    }
    forall k | |bets| <= k < |bets + added|
      ensures owner'[k] == n && Qualifies(lab, matches, e[n], d, (bets + added)[k])
    {
      assert (bets + added)[k] == added[k - |bets|];
    }
  }

  lemma StillListed<P(!new)>(
    lab: Lab<P>, matches: seq<MatchRow>, e: seq<MatchRow>, days: seq<int>, owner: seq<nat>, bets: seq<Bet>,
    d: int, added: seq<Bet>, i: nat, b: Bet)
    requires |days| < |e| && lab.warmupMatches <= i < |days| + 1 && Explained(lab, matches, e, days, owner, bets)
    requires forall b :: b in added <==> Qualifies(lab, matches, e[|days|], d, b)
    requires Qualifies(lab, matches, e[i], (days + [d])[i], b)
    ensures var owner' := owner + seq(|added|, _ => |days|);
            exists k :: 0 <= k < |bets + added| && owner'[k] == i && (bets + added)[k] == b
  {
    hide Qualifies, Place;
    var owner' := owner + seq(|added|, _ => |days|);
    if i < |days| {
      var k :| 0 <= k < |bets| && owner[k] == i && bets[k] == b;
      assert owner'[k] == i && (bets + added)[k] == b;
    } else {
      var k :| 0 <= k < |added| && added[k] == b;
      assert owner'[|bets| + k] == i && (bets + added)[|bets| + k] == b;
    }
  }

  /** The matches that a model priced. */
  ghost function PricedSoFar<P>(lab: Lab<P>, matches: seq<MatchRow>, e: seq<MatchRow>, days: seq<int>): set<nat>
    requires |days| <= |e|
  {
    set i: nat | i < |days| && lab.warmupMatches <= i && PriceFrom(lab, matches, e[i], days[i]).Some?
  }

  lemma OneMorePriced<P(!new)>(lab: Lab<P>, matches: seq<MatchRow>, e: seq<MatchRow>, days: seq<int>, d: int)
    requires |days| < |e|
    ensures |PricedSoFar(lab, matches, e, days + [d])| == |PricedSoFar(lab, matches, e, days)|
              + if lab.warmupMatches <= |days| && PriceFrom(lab, matches, e[|days|], d).Some? then 1 else 0
  {
    hide PriceFrom;
    var n := |days|;
    assert PricedSoFar(lab, matches, e, days + [d]) == PricedSoFar(lab, matches, e, days)
             + if lab.warmupMatches <= n && PriceFrom(lab, matches, e[n], d).Some? then {n} else {};
  }

  ghost function Evaluated<P>(lab: Lab<P>, n: nat): nat {
    if lab.warmupMatches <= 0 then n else if n <= lab.warmupMatches then 0 else n - lab.warmupMatches
  }

  /** The loop's state after `n` matches, given the fit dates so far. */
  ghost predicate StateAt<P(!new)>(lab: Lab<P>, matches: seq<MatchRow>, days: seq<int>, st: State<P>)
    requires |days| <= |Eligible(matches)|
  {
    var n := |days|;
    && st.nEval == Evaluated(lab, n)
    && st.nPriced == |PricedSoFar(lab, matches, Eligible(matches), days)|
    && (n == 0 || n <= lab.warmupMatches ==> st == State(None, None, 0, 0, []))
    && (n > 0 && n > lab.warmupMatches ==>
          st.lastFit == Some(days[n - 1]) && st.pricer == FitOn(lab, Chronological(matches), days[n - 1]))
  }

  /** The fit date of the next match, and the model in force there. */
  lemma NextFit<P(!new)>(lab: Lab<P>, matches: seq<MatchRow>, days: seq<int>, st: State<P>) returns (d: int)
    requires |days| < |Eligible(matches)| && lab.warmupMatches <= |days|
    requires StateAt(lab, matches, days, st) && FitDates(lab, Eligible(matches), days)
    ensures var e, n := Eligible(matches), |days|;
            var m := e[n];
            && FitDates(lab, e, days + [d])
            && d == (if RefitDue(lab, st.lastFit, m.day) then m.day else st.lastFit.value)
            && FitOn(lab, Chronological(matches), d)
               == (if RefitDue(lab, st.lastFit, m.day) then FitOn(lab, Chronological(matches), m.day) else st.pricer)
  {
    hide PricedSoFar, FitOn, Eligible, Chronological;
    var e, n := Eligible(matches), |days|;
    d := if RefitDue(lab, st.lastFit, e[n].day) then e[n].day else st.lastFit.value;
    var days' := days + [d];
    assert forall i :: 0 <= i < n ==> days'[i] == days[i];
    assert n == 0 || n == lab.warmupMatches ==> st.lastFit.None? && d == e[n].day;
    assert n > 0 && n > lab.warmupMatches ==> st.lastFit == Some(days[n - 1]) && days'[n - 1] == days[n - 1];
  }

  lemma StepPrices<P(!new)>(lab: Lab<P>, matches: seq<MatchRow>, days: seq<int>, st: State<P>)
    returns (d: int, added: seq<Bet>)
    requires |days| < |Eligible(matches)| && lab.warmupMatches <= |days|
    requires StateAt(lab, matches, days, st) && FitDates(lab, Eligible(matches), days)
    ensures var e, n := Eligible(matches), |days|;
            var st' := Step(lab, Chronological(matches), st, n, e[n]);
            && FitDates(lab, e, days + [d]) && StateAt(lab, matches, days + [d], st')
            && st'.bets == st.bets + added
            && (forall b :: b in added <==> Qualifies(lab, matches, e[n], d, b))
            && forall k, l :: 0 <= k < l < |added| ==> Place(added[k].selection) < Place(added[l].selection)
  {
    var e, n := Eligible(matches), |days|;
    var m := e[n];
    hide MatchBets, Eligible, Chronological, History, BetAt, PricedSoFar, FitDates, RefitDue;
    d := NextFit(lab, matches, days, st);
    OneMorePriced(lab, matches, e, days, d);
    var priced := PriceFrom(lab, matches, m, d);
    if priced.None? {
      added := [];
    } else {
      added := MatchBets(lab, priced.value, m);
      MatchBetsExactly(lab, priced.value, m);
    }
  }

  /** A whole run: its fit dates, whose bets it lists, and its two counters. */
  lemma {:induction false} RunExplained<P(!new)>(lab: Lab<P>, matches: seq<MatchRow>, n: nat)
    returns (days: seq<int>, owner: seq<nat>)
    requires n <= |Eligible(matches)|
    ensures var e := Eligible(matches);
            var st := After(lab, Chronological(matches), e, n);
            && |days| == n && FitDates(lab, e, days) && StateAt(lab, matches, days, st)
            && Explained(lab, matches, e, days, owner, st.bets)
  {
    hide Eligible, Chronological, Step, Explained, StateAt, FitDates;
    var o, e := Chronological(matches), Eligible(matches);
    if n == 0 {
      days, owner := [], [];
      NothingYet(lab, matches);
    } else {
      var days0, owner0 := RunExplained(lab, matches, n - 1);
      var before := After(lab, o, e, n - 1);
      if n - 1 < lab.warmupMatches {
        days, owner := days0 + [0], owner0;
        StillWarmingUp(lab, matches, days0, owner0, before);
      } else {
        var d, added := StepPrices(lab, matches, days0, before);
        days, owner := days0 + [d], owner0 + seq(|added|, _ => n - 1);
        MoreExplained(lab, matches, e, days0, owner0, before.bets, d, added);
      }
    }
  }

  lemma NothingYet<P(!new)>(lab: Lab<P>, matches: seq<MatchRow>)
    ensures FitDates(lab, Eligible(matches), []) && StateAt(lab, matches, [], State(None, None, 0, 0, []))
    ensures Explained(lab, matches, Eligible(matches), [], [], [])
  {
    assert PricedSoFar(lab, matches, Eligible(matches), []) == {};
  }

  lemma StillWarmingUp<P(!new)>(lab: Lab<P>, matches: seq<MatchRow>, days: seq<int>, owner: seq<nat>, st: State<P>)
    requires |days| < |Eligible(matches)| && |days| < lab.warmupMatches
    requires FitDates(lab, Eligible(matches), days) && StateAt(lab, matches, days, st)
    requires Explained(lab, matches, Eligible(matches), days, owner, st.bets)
    ensures var e, n := Eligible(matches), |days|;
            var st' := Step(lab, Chronological(matches), st, n, e[n]);
            && FitDates(lab, e, days + [0]) && StateAt(lab, matches, days + [0], st')
            && Explained(lab, matches, e, days + [0], owner, st'.bets)
  {
    OneMorePriced(lab, matches, Eligible(matches), days, 0);
    hide Eligible, Qualifies, PricedSoFar;
  }

  /** A backtest is its fit dates and the bets that qualify at them, all of them and in order. */
  lemma BacktestExplained<P(!new)>(lab: Lab<P>, matches: seq<MatchRow>) returns (days: seq<int>, owner: seq<nat>)
    ensures var e := Eligible(matches);
            && |days| == |e| && FitDates(lab, e, days)
            && Explained(lab, matches, e, days, owner, Bets(lab, matches))
            && FinalState(lab, matches).nPriced == |PricedSoFar(lab, matches, e, days)|
            && FinalState(lab, matches).nEval == Evaluated(lab, |e|)
  {
    days, owner := RunExplained(lab, matches, |Eligible(matches)|);
  }
}
