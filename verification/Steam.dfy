/** The line-movement gate (app/edge/steam.py): per-book price trajectories and the verdict on a fill book
    against an anchor book. Instants are seconds. */
module Steam {
  import opened Prelude
  import opened StableSort

  datatype Point = Point(at: int, odds: real)

  datatype Snapshot = Snapshot(
    event: string, market: string, detail: Option<string>, selection: string, book: string, at: int, odds: real)

  datatype MarketKey = MarketKey(event: string, market: string, detail: Option<string>)

  datatype SeriesKey = SeriesKey(selection: string, book: string)

  type MarketTrajectories = map<SeriesKey, seq<Point>>

  datatype Policy = Policy(
    lookback: int, minPoints: int, closeFrac: real, minInitialGap: real, staleness: int,
    steamAwayDelta: real, demoteOnSoftSteam: bool)

  datatype Reason = StaleAnchor | SoftSteamedAway | SoftTowardAnchor

  datatype Verdict = Verdict(
    toward: bool, stale: bool, steamed: bool, tripped: bool, reasons: seq<Reason>,
    closedFraction: Option<real>, anchorAge: Option<int>, softMove: Option<real>)

  datatype Result<+T> = Ok(value: T) | IndexError | ZeroDivision

  predicate Earlier(a: Point, b: Point) { a.at <= b.at }

  predicate Visible(at: int, odds: real, now: int, lookback: int) { now - lookback <= at <= now && odds > 1.0 }

  function InWindow(now: int, lookback: int): Point -> bool { (p: Point) => Visible(p.at, p.odds, now, lookback) }

  predicate Sane(w: seq<Point>) { forall p :: p in w ==> p.odds > 1.0 }

  function Window(traj: seq<Point>, now: int, lookback: int): (w: seq<Point>)
    ensures Sane(w)
  {
    SortedKeepsSane(now, lookback, traj);
    Sort(Earlier, Filter(InWindow(now, lookback), traj))
  }

  lemma SortedKeepsSane(now: int, lookback: int, traj: seq<Point>)
    ensures Sane(Sort(Earlier, Filter(InWindow(now, lookback), traj)))
  {
    var w := InWindow(now, lookback);
    forall p | p in Sort(Earlier, Filter(w, traj)) ensures p.odds > 1.0 {
      SortMembers(Earlier, Filter(w, traj), p);
      FilterMember(w, traj, p);
    }
  }

  function Implied(odds: real): real
    requires odds > 1.0
  {
    1.0 / odds
  }

  lemma WindowIsSane(traj: seq<Point>, now: int, lookback: int)
    ensures forall p :: p in Window(traj, now, lookback) <==> p in traj && Visible(p.at, p.odds, now, lookback)
    ensures Ordered(Earlier, Window(traj, now, lookback))
  {
    var w := InWindow(now, lookback);
    forall p ensures p in Window(traj, now, lookback) <==> p in traj && w(p) {
      SortMembers(Earlier, Filter(w, traj), p);
      FilterMember(w, traj, p);
    }
    SortOrdered(Earlier, Filter(w, traj));
  }

  // ---- the verdict, as a function of the two windows ----

  predicate IsStale(anchor: seq<Point>, now: int, p: Policy) {
    anchor == [] || now - anchor[|anchor| - 1].at > p.staleness
  }

  function Move(fill: seq<Point>): real
    requires fill != [] && Sane(fill)
  {
    Implied(fill[|fill| - 1].odds) - Implied(fill[0].odds)
  }

  function OpenGap(fill: seq<Point>, anchor: seq<Point>): real
    requires fill != [] && anchor != [] && Sane(fill) && Sane(anchor)
  {
    Implied(anchor[0].odds) - Implied(fill[0].odds)
  }

  function GapNow(fill: seq<Point>, anchor: seq<Point>): real
    requires fill != [] && anchor != [] && Sane(fill) && Sane(anchor)
  {
    Implied(anchor[|anchor| - 1].odds) - Implied(fill[|fill| - 1].odds)
  }

  function ShareClosed(open: real, now: real): real
    requires open != 0.0
  {
    (open - now) / open
  }

  lemma ShareOfGap(open: real, now: real)
    requires open != 0.0
    ensures Times(ShareClosed(open, now), open) == open - now
  {
  }

  /** The share of the opening gap that has closed; nothing when there was no gap worth the name. */
  function Closed(fill: seq<Point>, anchor: seq<Point>, p: Policy): Result<Option<real>>
    requires fill != [] && Sane(fill) && Sane(anchor)
  {
    if anchor == [] || OpenGap(fill, anchor) < p.minInitialGap then Ok(None)
    else if OpenGap(fill, anchor) == 0.0 then ZeroDivision
    else Ok(Some(ShareClosed(OpenGap(fill, anchor), GapNow(fill, anchor))))
  }

  function Judge(fill: seq<Point>, anchor: seq<Point>, now: int, p: Policy): Result<Verdict>
    requires Sane(fill) && Sane(anchor)
  {
    var stale := IsStale(anchor, now, p);
    var age := if anchor == [] then None else Some(now - anchor[|anchor| - 1].at);
    var why := if stale then [StaleAnchor] else [];
    if |fill| < p.minPoints then Ok(Verdict(false, stale, false, stale, why, None, age, None))
    else if fill == [] then IndexError
    else
      var closed := Closed(fill, anchor, p);
      if !closed.Ok? then ZeroDivision
      else
        var steamed := -Move(fill) >= p.steamAwayDelta;
        var toward := closed.value.Some? && GapNow(fill, anchor) < OpenGap(fill, anchor)
          && closed.value.value >= p.closeFrac;
        Ok(Verdict(
          toward, stale, steamed, toward || stale || (steamed && p.demoteOnSoftSteam),
          why + (if steamed then [SoftSteamedAway] else []) + (if toward then [SoftTowardAnchor] else []),
          closed.value, age, Some(Move(fill))))
  }

  /** The verdict on two raw series. */
  function VerdictOn(fill: seq<Point>, anchor: seq<Point>, now: int, p: Policy): Result<Verdict> {
    Judge(Window(fill, now, p.lookback), Window(anchor, now, p.lookback), now, p)
  }

  method EvaluateSteam(fillTrajectory: seq<Point>, anchorTrajectory: seq<Point>, now: int, p: Policy)
    returns (r: Result<Verdict>)
    ensures r == VerdictOn(fillTrajectory, anchorTrajectory, now, p)
  {
    var fill, anchor := Window(fillTrajectory, now, p.lookback), Window(anchorTrajectory, now, p.lookback);
    hide Window, Implied, ShareClosed;
    var reasons := [];
    var anchorAge: Option<int> := None;
    var stale := false;
    if anchor == [] {
      stale := true;
      reasons := reasons + [StaleAnchor];
    } else {
      anchorAge := Some(now - anchor[|anchor| - 1].at);
      if anchorAge.value > p.staleness {
        stale := true;
        reasons := reasons + [StaleAnchor];
      }
    }
    var closedFraction, softMove: Option<real> := None, None;
    var toward, steamed := false, false;
    if |fill| >= p.minPoints {
      if fill == [] {
        return IndexError;
      }
      var move := Implied(fill[|fill| - 1].odds) - Implied(fill[0].odds);
      softMove := Some(move);
      if -move >= p.steamAwayDelta {
        steamed := true;
        reasons := reasons + [SoftSteamedAway];
      }
      if anchor != [] {
        var gapOpen := Implied(anchor[0].odds) - Implied(fill[0].odds);
        var gapNow := Implied(anchor[|anchor| - 1].odds) - Implied(fill[|fill| - 1].odds);
        if gapOpen >= p.minInitialGap {
          if gapOpen == 0.0 {
            return ZeroDivision;
          }
          closedFraction := Some(ShareClosed(gapOpen, gapNow));
          if gapNow < gapOpen && closedFraction.value >= p.closeFrac {
            toward := true;
            reasons := reasons + [SoftTowardAnchor];
          }
        }
      }
    }
    var tripped := toward || stale || (steamed && p.demoteOnSoftSteam);
    assert reasons == (if stale then [StaleAnchor] else []) + (if steamed then [SoftSteamedAway] else [])
      + (if toward then [SoftTowardAnchor] else []);
    assert !steamed && !toward ==> reasons == if stale then [StaleAnchor] else [];
    r := Ok(Verdict(toward, stale, steamed, tripped, reasons, closedFraction, anchorAge, softMove));
  }

  /** The gate has a verdict for every pair of series exactly when a judgement needs a fill point and a
      positive opening gap. */
  lemma AlwaysJudgesCondition(p: Policy)
    requires p.lookback >= 0
    ensures (forall fill, anchor, now :: VerdictOn(fill, anchor, now, p).Ok?) <==>
            p.minPoints >= 1 && (p.minInitialGap > 0.0)
  {
    hide Window, Implied;
    if p.minPoints < 1 {
      assert Window([], 0, p.lookback) == [] by { WindowIsSane([], 0, p.lookback); NothingInside([], 0, p.lookback); }
      assert VerdictOn([], [], 0, p) == IndexError;
    } else if p.minInitialGap <= 0.0 {
      var steady := Steady(p.minPoints, 2.0);
      SteadyWindow(p.minPoints, 2.0, p.lookback);
      assert OpenGap(steady, steady) == 0.0;
      assert VerdictOn(steady, steady, 0, p) == ZeroDivision;
    }
  }

  lemma NothingInside(traj: seq<Point>, now: int, lookback: int)
    requires forall p :: p in traj ==> !Visible(p.at, p.odds, now, lookback)
    ensures Window(traj, now, lookback) == []
  {
    FilterNone(InWindow(now, lookback), traj);
  }

  function Steady(n: nat, odds: real): (s: seq<Point>)
    ensures |s| == n && forall i :: 0 <= i < n ==> s[i] == Point(0, odds)
  {
    seq(n, _ => Point(0, odds))
  }

  lemma SteadyWindow(n: nat, odds: real, lookback: int)
    requires odds > 1.0 && lookback >= 0
    ensures Window(Steady(n, odds), 0, lookback) == Steady(n, odds)
  {
    FilterAll(InWindow(0, lookback), Steady(n, odds));
    SortFixesOrdered(Earlier, Steady(n, odds));
  }

  /** What a verdict says about the prices: a stale anchor has no recent observation, a converged fill book
      has closed the required share of its opening gap, and only these trip the gate. */
  lemma VerdictMeaning(fill: seq<Point>, anchor: seq<Point>, now: int, p: Policy)
    requires VerdictOn(fill, anchor, now, p).Ok?
    ensures var v := VerdictOn(fill, anchor, now, p).value;
            var f, a := Window(fill, now, p.lookback), Window(anchor, now, p.lookback);
            && (v.stale <==> forall q :: q in anchor && Visible(q.at, q.odds, now, p.lookback) ==>
               now - q.at > p.staleness)
            && (v.anchorAge.Some? ==> 0 <= v.anchorAge.value <= p.lookback)
            && (v.closedFraction.Some? ==>
                  f != [] && a != [] && Times(v.closedFraction.value, OpenGap(f, a)) == OpenGap(f, a) - GapNow(f, a))
            && (v.toward ==> |f| >= p.minPoints && f != [] && a != [] && v.closedFraction.Some?
                              && v.closedFraction.value >= p.closeFrac && OpenGap(f, a) >= p.minInitialGap
                                 && GapNow(f, a) < OpenGap(f, a))
            && (v.tripped <==> v.toward || v.stale || (v.steamed && p.demoteOnSoftSteam))
            && (v.tripped ==> v.reasons != [])
  {
    WindowIsSane(fill, now, p.lookback);
    WindowIsSane(anchor, now, p.lookback);
    hide Window, Implied, ShareClosed, Times;
    var a := Window(anchor, now, p.lookback);
    var f := Window(fill, now, p.lookback);
    if f != [] && a != [] && OpenGap(f, a) != 0.0 { ShareOfGap(OpenGap(f, a), GapNow(f, a)); }
    if a != [] {
      assert a[|a| - 1] in a;
      forall q | q in anchor && Visible(q.at, q.odds, now, p.lookback) ensures q.at <= a[|a| - 1].at {
        assert q in a;
      }
    }
  }

  // ---- the verdict, told over the points ----

  /** `w` holds the points of the series that lie in the look-back window and are prices, each as often, oldest
      first. */
  ghost predicate Recent(traj: seq<Point>, now: int, lookback: int, w: seq<Point>) {
    && (forall i, j :: 0 <= i < j < |w| ==> w[i].at <= w[j].at)
    && forall x: Point ::
         multiset(w)[x] == if now - lookback <= x.at && x.at <= now && 1.0 < x.odds then multiset(traj)[x] else 0
  }

  lemma WindowIsRecent(traj: seq<Point>, now: int, lookback: int)
    ensures Recent(traj, now, lookback, Window(traj, now, lookback))
  {
    var inside := InWindow(now, lookback);
    var w := Window(traj, now, lookback);
    WindowIsSane(traj, now, lookback);
    forall i, j | 0 <= i < j < |w| ensures w[i].at <= w[j].at {
      assert Earlier(w[i], w[j]);
    }
    SortElements(Earlier, Filter(inside, traj));
    forall x: Point ensures multiset(w)[x] == if inside(x) then multiset(traj)[x] else 0 {
      FilterMultiset(inside, traj, x);
    }
  }

  /** The implied probability of a price. */
  ghost function Prob(p: Point): real
    requires p.odds > 1.0
  {
    1.0 / p.odds
  }

  /** The verdict on two windows of prices, oldest first. */
  ghost predicate JudgedSo(f: seq<Point>, a: seq<Point>, now: int, p: Policy, v: Verdict)
    requires forall x :: x in f || x in a ==> x.odds > 1.0
  {
    var enough := |f| >= p.minPoints && f != [];
    && (v.stale <==> a == [] || now - a[|a| - 1].at > p.staleness)
    && v.anchorAge == (if a == [] then None else Some(now - a[|a| - 1].at))
    && (v.softMove.Some? <==> enough) && (v.steamed ==> enough)
    && (enough ==>
          && v.softMove.value == Prob(f[|f| - 1]) - Prob(f[0])
          && (v.steamed <==> Prob(f[0]) - Prob(f[|f| - 1]) >= p.steamAwayDelta))
    && (v.closedFraction.Some? ==> enough && a != []) && (v.toward ==> v.closedFraction.Some?)
    && (enough && a != [] ==>
          var gap, left := Prob(a[0]) - Prob(f[0]), Prob(a[|a| - 1]) - Prob(f[|f| - 1]);
          && (v.closedFraction.Some? <==> gap >= p.minInitialGap)
          && (v.closedFraction.Some? ==>
                && Times(v.closedFraction.value, gap) == gap - left
                && (v.toward <==> left < gap && v.closedFraction.value >= p.closeFrac)))
    && (v.tripped <==> v.toward || v.stale || (v.steamed && p.demoteOnSoftSteam))
    && v.reasons == (if v.stale then [StaleAnchor] else []) + (if v.steamed then [SoftSteamedAway] else [])
         + (if v.toward then [SoftTowardAnchor] else [])
  }

  lemma JudgeExactly(f: seq<Point>, a: seq<Point>, now: int, p: Policy)
    requires Sane(f) && Sane(a)
    ensures var r := Judge(f, a, now, p);
            && (r.Ok? ==> JudgedSo(f, a, now, p, r.value))
            && (r.IndexError? <==> f == [] && p.minPoints <= 0)
            && (r.ZeroDivision? <==>
                  f != [] && |f| >= p.minPoints && a != [] && Prob(a[0]) == Prob(f[0]) && p.minInitialGap <= 0.0)
  {
    hide ShareClosed, Times;
    if f != [] && a != [] && OpenGap(f, a) != 0.0 {
      ShareOfGap(OpenGap(f, a), GapNow(f, a));
    }
  }

  /** The verdict of any two series; the two failures are an empty window where no point is asked for, and a gap
      of nothing where none is asked for. */
  lemma VerdictExactly(fill: seq<Point>, anchor: seq<Point>, now: int, p: Policy)
    ensures var f, a := Window(fill, now, p.lookback), Window(anchor, now, p.lookback);
            var r := VerdictOn(fill, anchor, now, p);
            && Recent(fill, now, p.lookback, f) && Recent(anchor, now, p.lookback, a)
            && (r.Ok? ==> JudgedSo(f, a, now, p, r.value))
            && (r.IndexError? <==> f == [] && p.minPoints <= 0)
            && (r.ZeroDivision? <==>
                  f != [] && |f| >= p.minPoints && a != [] && Prob(a[0]) == Prob(f[0]) && p.minInitialGap <= 0.0)
  {
    WindowIsRecent(fill, now, p.lookback);
    WindowIsRecent(anchor, now, p.lookback);
    hide Window, Recent, Judge, JudgedSo, Prob;
    JudgeExactly(Window(fill, now, p.lookback), Window(anchor, now, p.lookback), now, p);
  }

  // ---- building the trajectories ----

  function PointOf(s: Snapshot): Point { Point(s.at, s.odds) }

  function Points(s: seq<Snapshot>): (ps: seq<Point>)
    ensures |ps| == |s| && forall i :: 0 <= i < |s| ==> ps[i] == PointOf(s[i])
  {
    seq(|s|, i requires 0 <= i < |s| => PointOf(s[i]))
  }

  function KeyOf(s: Snapshot): MarketKey { MarketKey(s.event, s.market, s.detail) }

  function SeriesOf(norm: string -> string, s: Snapshot): SeriesKey { SeriesKey(s.selection, norm(s.book)) }

  predicate InSeries(norm: string -> string, key: MarketKey, series: SeriesKey, s: Snapshot) {
    KeyOf(s) == key && SeriesOf(norm, s) == series
  }

  predicate Keeps(norm: string -> string, key: MarketKey, series: SeriesKey, now: int, lookback: int, s: Snapshot) {
    Visible(s.at, s.odds, now, lookback) && InSeries(norm, key, series, s)
  }

  function Belongs(norm: string -> string, key: MarketKey, series: SeriesKey): Snapshot -> bool {
    (s: Snapshot) => InSeries(norm, key, series, s)
  }

  function Kept(norm: string -> string, key: MarketKey, series: SeriesKey, now: int, lookback: int): Snapshot -> bool {
    (s: Snapshot) => Keeps(norm, key, series, now, lookback, s)
  }

  /** The prices of one series, in the order the snapshots arrive. */
  function RawSeries(norm: string -> string, snaps: seq<Snapshot>, key: MarketKey, series: SeriesKey): seq<Point> {
    Points(Filter(Belongs(norm, key, series), snaps))
  }

  /** A series is the points of the snapshots of its event, market, line, selection and book. */
  lemma RawSeriesMembers(
    norm: string -> string, snaps: seq<Snapshot>, event: string, market: string, detail: Option<string>,
    selection: string, book: string, x: Point)
    ensures x in RawSeries(norm, snaps, MarketKey(event, market, detail), SeriesKey(selection, book)) <==>
              exists i :: 0 <= i < |snaps| && x == Point(snaps[i].at, snaps[i].odds)
                && snaps[i].event == event && snaps[i].market == market && snaps[i].detail == detail
                && snaps[i].selection == selection && norm(snaps[i].book) == book
  {
    var belongs := Belongs(norm, MarketKey(event, market, detail), SeriesKey(selection, book));
    var kept := Filter(belongs, snaps);
    var series := Points(kept);
    if x in series {
      var k :| 0 <= k < |series| && series[k] == x;
      FilterMember(belongs, snaps, kept[k]);
      var i :| 0 <= i < |snaps| && snaps[i] == kept[k];
      assert x == Point(snaps[i].at, snaps[i].odds);
    }
    forall i | 0 <= i < |snaps| && belongs(snaps[i]) && x == Point(snaps[i].at, snaps[i].odds) ensures x in series {
      FilterMember(belongs, snaps, snaps[i]);
      var k :| 0 <= k < |kept| && kept[k] == snaps[i];
      assert series[k] == x;
    }
  }

  function At(out: map<MarketKey, MarketTrajectories>, key: MarketKey, series: SeriesKey): seq<Point> {
    if key in out && series in out[key] then out[key][series] else []
  }

  method BuildTrajectories(
    norm: string -> string, snaps: seq<Snapshot>, now: int, lookback: int)
    returns (out: map<MarketKey, MarketTrajectories>)
    ensures forall key, series :: At(out, key, series) == Window(RawSeries(norm, snaps, key, series), now, lookback)
  {
    out := map[];
    for i := 0 to |snaps|
      invariant forall key, series ::
                  At(out, key, series) == Points(Filter(Kept(norm, key, series, now, lookback), snaps[..i]))
    {
      hide At;
      forall key, series
        ensures var kept := Kept(norm, key, series, now, lookback);
                Points(Filter(kept, snaps[..i + 1])) ==
                if Keeps(norm, key, series, now, lookback, snaps[i])
                  then Points(Filter(kept, snaps[..i])) + [PointOf(snaps[i])] else Points(Filter(kept, snaps[..i]))
      {
        KeptSnoc(norm, snaps, i, key, series, now, lookback);
      }
      out := AddSnapshot(norm, snaps[i], now, lookback, out);
    }
    assert snaps[..|snaps|] == snaps;
    ghost var unsorted := out;
    var keys := out.Keys;
    while keys != {}
      invariant keys <= out.Keys && out.Keys == unsorted.Keys
      invariant forall key :: key in keys ==> out[key] == unsorted[key]
      invariant forall key :: key in out && key !in keys ==> SortedCopy(unsorted[key], out[key])
      decreases |keys|
    {
      var key :| key in keys;
      var sorted := SortSeries(out[key]);
      out := out[key := sorted];
      keys := keys - {key};
    }
    forall key, series ensures At(out, key, series) == Window(RawSeries(norm, snaps, key, series), now, lookback) {
      KeptIsWindow(norm, snaps, key, series, now, lookback);
      assert At(unsorted, key, series) == Points(Filter(Kept(norm, key, series, now, lookback), snaps));
    }
  }

  ghost predicate SortedCopy(m: MarketTrajectories, sorted: MarketTrajectories) {
    sorted.Keys == m.Keys && forall k :: k in m ==> sorted[k] == Sort(Earlier, m[k])
  }

  method SortSeries(m: MarketTrajectories) returns (sorted: MarketTrajectories)
    ensures SortedCopy(m, sorted)
  {
    sorted := m;
    var todo := m.Keys;
    while todo != {}
      invariant todo <= m.Keys == sorted.Keys
      invariant forall k :: k in todo ==> sorted[k] == m[k]
      invariant forall k :: k in m && k !in todo ==> sorted[k] == Sort(Earlier, m[k])
      decreases |todo|
    {
      var k :| k in todo;
      sorted := sorted[k := Sort(Earlier, sorted[k])];
      todo := todo - {k};
    }
  }

  /** One snapshot joins its series, if it is in the window. */
  method AddSnapshot(
    norm: string -> string, s: Snapshot, now: int, lookback: int, out0: map<MarketKey, MarketTrajectories>)
    returns (out: map<MarketKey, MarketTrajectories>)
    ensures forall key, series ::
              At(out, key, series) ==
              if Keeps(norm, key, series, now, lookback, s) then At(out0, key, series) + [PointOf(s)]
                else At(out0, key, series)
  {
    out := out0;
    if !(now - lookback <= s.at <= now) {
      return;
    }
    if s.odds <= 1.0 {
      return;
    }
    var key, series := KeyOf(s), SeriesOf(norm, s);
    var market := if key in out then out[key] else map[];
    var prices := if series in market then market[series] else [];
    out := out[key := market[series := prices + [PointOf(s)]]];
  }

  lemma KeptSnoc(
    norm: string -> string, snaps: seq<Snapshot>, i: nat, key: MarketKey, series: SeriesKey, now: int, lookback: int)
    requires i < |snaps|
    ensures var kept := Kept(norm, key, series, now, lookback);
            Points(Filter(kept, snaps[..i + 1])) ==
            if Keeps(norm, key, series, now, lookback, snaps[i])
              then Points(Filter(kept, snaps[..i])) + [PointOf(snaps[i])] else Points(Filter(kept, snaps[..i]))
  {
    FilterSnoc(Kept(norm, key, series, now, lookback), snaps, i);
  }

  function VisibleSnapshot(now: int, lookback: int): Snapshot -> bool {
    (s: Snapshot) => Visible(s.at, s.odds, now, lookback)
  }

  lemma {:induction false} KeptPoints(
    norm: string -> string, snaps: seq<Snapshot>, key: MarketKey, series: SeriesKey, now: int, lookback: int)
    ensures Points(Filter(Kept(norm, key, series, now, lookback), snaps))
            == Filter(InWindow(now, lookback), RawSeries(norm, snaps, key, series))
  {
    if snaps != [] {
      KeptPoints(norm, snaps[1..], key, series, now, lookback);
      if InSeries(norm, key, series, snaps[0]) {
        assert RawSeries(norm, snaps, key, series)[1..] == RawSeries(norm, snaps[1..], key, series);
      }
    }
  }

  /** Grouping and filtering snapshots is taking the window of the raw series. */
  lemma KeptIsWindow(
    norm: string -> string, snaps: seq<Snapshot>, key: MarketKey, series: SeriesKey, now: int, lookback: int)
    ensures Sort(Earlier, Points(Filter(Kept(norm, key, series, now, lookback), snaps)))
            == Window(RawSeries(norm, snaps, key, series), now, lookback)
  {
    KeptPoints(norm, snaps, key, series, now, lookback);
  }

  function Lookup(norm: string -> string, market: MarketTrajectories, selection: string, book: string): seq<Point> {
    var k := SeriesKey(selection, norm(book));
    if k in market then market[k] else []
  }

  // ---- what can influence a verdict ----

  lemma WindowTwice(traj: seq<Point>, now: int, lookback: int)
    ensures Window(Window(traj, now, lookback), now, lookback) == Window(traj, now, lookback)
  {
    WindowIsSane(traj, now, lookback);
    FilterAll(InWindow(now, lookback), Window(traj, now, lookback));
    SortFixesOrdered(Earlier, Window(traj, now, lookback));
  }

  /** A verdict on the trajectories the builder assembled is the verdict on the raw per-book series. */
  lemma BuiltVerdictIsRawVerdict(
    norm: string -> string, snaps: seq<Snapshot>, market: MarketKey, out: map<MarketKey, MarketTrajectories>,
                                 selection: string, fillBook: string, anchorBook: string, now: int, p: Policy)
    requires forall key, series :: At(out, key, series) == Window(RawSeries(norm, snaps, key, series), now, p.lookback)
    ensures var mt := if market in out then out[market] else map[];
            VerdictOn(Lookup(norm, mt, selection, fillBook), Lookup(norm, mt, selection, anchorBook), now, p)
            == VerdictOn(RawSeries(norm, snaps, market, SeriesKey(selection, norm(fillBook))),
                         RawSeries(norm, snaps, market, SeriesKey(selection, norm(anchorBook))), now, p)
  {
    hide Window, Judge;
    var mt := if market in out then out[market] else map[];
    var f, a := SeriesKey(selection, norm(fillBook)), SeriesKey(selection, norm(anchorBook));
    assert Lookup(norm, mt, selection, fillBook) == At(out, market, f);
    assert Lookup(norm, mt, selection, anchorBook) == At(out, market, a);
    WindowTwice(RawSeries(norm, snaps, market, f), now, p.lookback);
    WindowTwice(RawSeries(norm, snaps, market, a), now, p.lookback);
  }

  /** Only the visible snapshots matter: adding or removing future, expired or degenerate observations anywhere
      changes no series. */
  lemma OnlyTheWindowMatters(
    norm: string -> string, a: seq<Snapshot>, b: seq<Snapshot>, now: int, lookback: int, key: MarketKey,
    series: SeriesKey)
    requires Filter(VisibleSnapshot(now, lookback), a) == Filter(VisibleSnapshot(now, lookback), b)
    ensures Window(RawSeries(norm, a, key, series), now, lookback)
            == Window(RawSeries(norm, b, key, series), now, lookback)
  {
    KeptOfVisible(norm, a, key, series, now, lookback);
    KeptOfVisible(norm, b, key, series, now, lookback);
    hide Sort, Filter, Window, RawSeries;
    KeptIsWindow(norm, a, key, series, now, lookback);
    KeptIsWindow(norm, b, key, series, now, lookback);
  }

  lemma {:induction false} KeptOfVisible(
    norm: string -> string, snaps: seq<Snapshot>, key: MarketKey, series: SeriesKey, now: int, lookback: int)
    ensures Filter(Kept(norm, key, series, now, lookback), Filter(VisibleSnapshot(now, lookback), snaps))
         == Filter(Kept(norm, key, series, now, lookback), snaps)
  {
    if snaps != [] {
      KeptOfVisible(norm, snaps[1..], key, series, now, lookback);
      var rest := Filter(VisibleSnapshot(now, lookback), snaps[1..]);
      assert ([snaps[0]] + rest)[1..] == rest;
    }
  }

  /** No verdict leaks: whatever future, expired or degenerate observations surround the visible ones, the gate
      says the same about every pair of books. */
  lemma VerdictCannotLeak(norm: string -> string, a: seq<Snapshot>, b: seq<Snapshot>, now: int, p: Policy,
                          market: MarketKey, selection: string, fillBook: string, anchorBook: string)
    requires Filter(VisibleSnapshot(now, p.lookback), a) == Filter(VisibleSnapshot(now, p.lookback), b)
    ensures var f, k := SeriesKey(selection, norm(fillBook)), SeriesKey(selection, norm(anchorBook));
            VerdictOn(RawSeries(norm, a, market, f), RawSeries(norm, a, market, k), now, p)
            == VerdictOn(RawSeries(norm, b, market, f), RawSeries(norm, b, market, k), now, p)
  {
    hide Window, RawSeries, Judge;
    OnlyTheWindowMatters(norm, a, b, now, p.lookback, market, SeriesKey(selection, norm(fillBook)));
    OnlyTheWindowMatters(norm, a, b, now, p.lookback, market, SeriesKey(selection, norm(anchorBook)));
  }

  /** No series shows two different prices at one instant inside the window. */
  ghost predicate DistinctTimes(norm: string -> string, snaps: seq<Snapshot>, now: int, lookback: int) {
    forall i, j :: 0 <= i < |snaps| && 0 <= j < |snaps|
      && Visible(snaps[i].at, snaps[i].odds, now, lookback) && Visible(snaps[j].at, snaps[j].odds, now, lookback)
      && KeyOf(snaps[i]) == KeyOf(snaps[j]) && SeriesOf(norm, snaps[i]) == SeriesOf(norm, snaps[j])
         && snaps[i].at == snaps[j].at
      ==> PointOf(snaps[i]) == PointOf(snaps[j])
  }

  /** With one price per instant and series, arrival order does not matter either. */
  lemma ArrivalOrderDoesNotMatter(
    norm: string -> string, a: seq<Snapshot>, b: seq<Snapshot>, now: int, lookback: int, key: MarketKey,
    series: SeriesKey)
    requires multiset(Filter(VisibleSnapshot(now, lookback), a)) == multiset(Filter(VisibleSnapshot(now, lookback), b))
    requires DistinctTimes(norm, a, now, lookback)
    ensures Window(RawSeries(norm, a, key, series), now, lookback)
            == Window(RawSeries(norm, b, key, series), now, lookback)
  {
    hide Sort, Filter, Window, RawSeries;
    var kept := Kept(norm, key, series, now, lookback);
    var ka, kb := Filter(kept, a), Filter(kept, b);
    SameKept(norm, a, b, now, lookback, key, series);
    PointsPermute(ka, kb);
    KeptHaveNoTies(norm, a, now, lookback, key, series);
    assert TotalPreorder(Earlier);
    SortForgetsOrder(Earlier, Points(ka), Points(kb));
    KeptIsWindow(norm, a, key, series, now, lookback);
    KeptIsWindow(norm, b, key, series, now, lookback);
  }

  function Showing(p: Point): Snapshot -> bool { (s: Snapshot) => PointOf(s) == p }

  lemma {:induction false} PointsCount(s: seq<Snapshot>, p: Point)
    ensures multiset(Points(s))[p] == |Filter(Showing(p), s)|
  {
    if s != [] {
      assert Points(s) == [PointOf(s[0])] + Points(s[1..]);
      PointsCount(s[1..], p);
    }
  }

  lemma PointsPermute(a: seq<Snapshot>, b: seq<Snapshot>)
    requires multiset(a) == multiset(b)
    ensures multiset(Points(a)) == multiset(Points(b))
  {
    hide Points;
    forall p ensures multiset(Points(a))[p] == multiset(Points(b))[p] {
      PointsCount(a, p);
      PointsCount(b, p);
      FilterSizes(Showing(p), a, b);
    }
    assert multiset(Points(a)) == multiset(Points(b));
  }

  lemma KeptHaveNoTies(
    norm: string -> string, a: seq<Snapshot>, now: int, lookback: int, key: MarketKey, series: SeriesKey)
    requires DistinctTimes(norm, a, now, lookback)
    ensures NoTies(Earlier, Points(Filter(Kept(norm, key, series, now, lookback), a)))
  {
    hide Filter;
    var kept := Kept(norm, key, series, now, lookback);
    var ka := Filter(kept, a);
    var ps := Points(ka);
    forall i, j | 0 <= i < |ps| && 0 <= j < |ps| && Earlier(ps[i], ps[j]) && Earlier(ps[j], ps[i])
      ensures ps[i] == ps[j] {
      FilterMember(kept, a, ka[i]);
      FilterMember(kept, a, ka[j]);
      var p :| 0 <= p < |a| && a[p] == ka[i];
      var q :| 0 <= q < |a| && a[q] == ka[j];
      assert Keeps(norm, key, series, now, lookback, a[p]) && Keeps(norm, key, series, now, lookback, a[q]);
    }
  }

  lemma SameKept(
    norm: string -> string, a: seq<Snapshot>, b: seq<Snapshot>, now: int, lookback: int, key: MarketKey,
    series: SeriesKey)
    requires multiset(Filter(VisibleSnapshot(now, lookback), a)) == multiset(Filter(VisibleSnapshot(now, lookback), b))
    ensures multiset(Filter(Kept(norm, key, series, now, lookback), a))
            == multiset(Filter(Kept(norm, key, series, now, lookback), b))
  {
    var kept, visible := Kept(norm, key, series, now, lookback), VisibleSnapshot(now, lookback);
    var ma, mb := multiset(Filter(kept, a)), multiset(Filter(kept, b));
    forall x ensures ma[x] == mb[x] {
      FilterMultiset(kept, a, x);
      FilterMultiset(kept, b, x);
      FilterMultiset(visible, a, x);
      FilterMultiset(visible, b, x);
    }
    assert ma == mb;
  }
}
