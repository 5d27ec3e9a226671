/** Stratified live evidence (app/backtesting/live_evidence.py): which settled picks may speak about closing
    line value, and what every stratum reports. */
module Evidence {
  import opened Prelude

  datatype Row = Row(
    tier: string, score: Option<real>, clv: Option<real>, beatClose: Option<bool>, stake: real, pnl: Option<real>,
    anchorType: Option<string>, sport: Option<string>, closingAnchorType: Option<string>, hasSnapshotClose: bool,
    independent: Option<bool>, closingFair: Option<real>, modelProb: Option<real>, odds: Option<real>,
    mintFellBack: Option<bool>, closeFellBack: Option<bool>)

  const SHARP_CLOSE_ANCHORS := {"pinnacle", "sharp"}
  const CLV_TAUTOLOGY_EPS := 0.001
  const CLV_IMPLAUSIBLE_CLOSE_EDGE := 0.20
  const CLV_IMPLAUSIBLE_LOG := 0.5

  predicate AsymmetricFallback(r: Row) {
    r.mintFellBack.Some? && r.closeFellBack.Some? && r.mintFellBack != r.closeFellBack
  }

  /** The close echoes the fair the pick was minted at. */
  predicate Tautological(r: Row) {
    && r.clv.Some? && r.closingFair.Some? && r.modelProb.Some?
    && Abs(r.closingFair.value - r.modelProb.value) <= CLV_TAUTOLOGY_EPS
  }

  /** The close is physically implausible; a zero price has no implied probability. */
  predicate Fabricated(r: Row) {
    && r.clv.Some?
    && ((r.odds.Some? && r.odds.value != 0.0 && r.closingFair.Some?
       && r.closingFair.value - 1.0 / r.odds.value > CLV_IMPLAUSIBLE_CLOSE_EDGE)
        || Abs(r.clv.value) > CLV_IMPLAUSIBLE_LOG)
  }

  /** The pick's own fill book priced its close. */
  predicate Circular(r: Row) { r.independent == Some(false) }

  predicate SharpClose(r: Row) {
    && r.hasSnapshotClose
    && r.closingAnchorType.Some? && r.closingAnchorType.value in SHARP_CLOSE_ANCHORS
    && !Circular(r) && !Tautological(r) && !AsymmetricFallback(r) && !Fabricated(r)
  }

  predicate Polluted(r: Row) { Circular(r) || Tautological(r) || Fabricated(r) }

  predicate Clean(r: Row) { !Polluted(r) }

  predicate HasClv(r: Row) { r.clv.Some? && Clean(r) }

  predicate HasBeat(r: Row) { r.beatClose.Some? && Clean(r) }

  predicate HasPnl(r: Row) { r.pnl.Some? }

  predicate Beats(r: Row) { r.beatClose == Some(true) }

  function Clv(r: Row): real { if r.clv.Some? then r.clv.value else 0.0 }

  function Pnl(r: Row): real { if r.pnl.Some? then r.pnl.value else 0.0 }

  function Stake(r: Row): real { r.stake }

  function StakedClv(r: Row): real { Times(Clv(r), r.stake) }

  /** A mean is only taken over something. */
  function Mean(total: real, size: real): Option<real> {
    if size > 0.0 then Some(total / size) else None
  }

  datatype Stats = Stats(
    n: nat, nClv: nat, nRoi: nat, meanClv: Option<real>, stakeWeightedClv: Option<real>,
    beatRate: Option<real>, roi: Option<real>, sufficient: bool)

  function StratumStats(rows: seq<Row>, minN: int): Stats {
    var clvRows, pnlRows, beatRows := Filter(HasClv, rows), Filter(HasPnl, rows), Filter(HasBeat, rows);
    var sufficient := |clvRows| >= minN;
    if !sufficient then Stats(|rows|, |clvRows|, |pnlRows|, None, None, None, None, false)
    else Stats(
      |rows|, |clvRows|, |pnlRows|,
      Mean(Sum(Clv, clvRows), |clvRows| as real),
      Mean(Sum(StakedClv, clvRows), Sum(Stake, clvRows)),
      Mean(|Filter(Beats, beatRows)| as real, |beatRows| as real),
      if pnlRows == [] then None else Mean(Sum(Pnl, pnlRows), Sum(Stake, pnlRows)),
      true)
  }

  function ScoreBucket(score: Option<real>, qStar: Option<real>): string {
    if score.None? then "unscored"
    else if qStar.None? then "scored"
    else if score.value >= qStar.value then "score_ge_q" else "score_lt_q"
  }

  datatype Dimension = ByScore(qStar: Option<real>) | ByTier | ByAnchor | ByCloseAnchor | BySport

  /** The stratum a row falls into along a dimension, if it carries that dimension at all. */
  function KeyOf(d: Dimension, r: Row): Option<string> {
    match d
    case ByScore(q) => Some(ScoreBucket(r.score, q))
    case ByTier => Some(r.tier)
    case ByAnchor => r.anchorType
    case ByCloseAnchor => r.closingAnchorType
    case BySport => r.sport
  }

  function In(d: Dimension, key: string): Row -> bool { (r: Row) => KeyOf(d, r) == Some(key) }

  function Stratum(d: Dimension, key: string, rows: seq<Row>): seq<Row> { Filter(In(d, key), rows) }

  /** A grouping holds exactly the non-empty strata. */
  ghost predicate Grouped(groups: map<string, seq<Row>>, d: Dimension, rows: seq<Row>) {
    forall key :: (key in groups <==> Stratum(d, key, rows) != [])
      && (key in groups ==> groups[key] == Stratum(d, key, rows))
  }

  method AddTo(
    groups0: map<string, seq<Row>>, d: Dimension, ghost rows: seq<Row>, i: nat, row: Row)
    returns (groups: map<string, seq<Row>>)
    requires i < |rows| && row == rows[i] && Grouped(groups0, d, rows[..i])
    ensures Grouped(groups, d, rows[..i + 1])
  {
    hide KeyOf, Stratum;
    groups := groups0;
    var key := KeyOf(d, row);
    if key.Some? {
      groups := groups[key.value := (if key.value in groups then groups[key.value] else []) + [row]];
    }
    forall k ensures (k in groups <==> Stratum(d, k, rows[..i + 1]) != [])
      && (k in groups ==> groups[k] == Stratum(d, k, rows[..i + 1])) {
      StratumGrows(d, k, rows, i);
    }
  }

  lemma StratumGrows(d: Dimension, key: string, rows: seq<Row>, i: nat)
    requires i < |rows|
    ensures Stratum(d, key, rows[..i + 1]) ==
            if KeyOf(d, rows[i]) == Some(key) then Stratum(d, key, rows[..i]) + [rows[i]]
              else Stratum(d, key, rows[..i])
  {
    FilterSnoc(In(d, key), rows, i);
  }

  datatype Report = Report(
    nSettled: nat, byScore: map<string, Stats>, byTier: map<string, Stats>,
    byAnchor: Option<map<string, Stats>>, byCloseAnchor: Option<map<string, Stats>>,
    bySport: Option<map<string, Stats>>,
    sharpClose: Stats)

  /** A reported dimension: one entry per non-empty stratum, with that stratum's own figures. */
  ghost predicate Reports(m: map<string, Stats>, d: Dimension, rows: seq<Row>, minN: int) {
    forall key :: (key in m <==> Stratum(d, key, rows) != [])
      && (key in m ==> m[key] == StratumStats(Stratum(d, key, rows), minN))
  }

  /** A dimension no row carries is reported as unavailable, not as empty. */
  ghost predicate ReportsIfAny(m: Option<map<string, Stats>>, d: Dimension, rows: seq<Row>, minN: int) {
    && (m.Some? <==> exists r :: r in rows && KeyOf(d, r).Some?)
    && (m.Some? ==> Reports(m.value, d, rows, minN))
  }

  method Summarise(groups: map<string, seq<Row>>, ghost d: Dimension, ghost rows: seq<Row>, minN: int)
    returns (m: map<string, Stats>)
    requires Grouped(groups, d, rows)
    ensures Reports(m, d, rows, minN) && m.Keys == groups.Keys
  {
    hide StratumStats, Stratum;
    m := map key | key in groups :: StratumStats(groups[key], minN);
  }

  method SummariseIfAny(
    groups: map<string, seq<Row>>, ghost d: Dimension, ghost rows: seq<Row>, minN: int)
    returns (m: Option<map<string, Stats>>)
    requires Grouped(groups, d, rows)
    ensures ReportsIfAny(m, d, rows, minN)
  {
    hide Reports;
    GroupsAreCarried(groups, d, rows);
    if groups == map[] {
      return None;
    }
    var strata := Summarise(groups, d, rows, minN);
    m := Some(strata);
  }

  lemma GroupsAreCarried(groups: map<string, seq<Row>>, d: Dimension, rows: seq<Row>)
    requires Grouped(groups, d, rows)
    ensures groups != map[] <==> exists r :: r in rows && KeyOf(d, r).Some?
  {
    if groups != map[] {
      var key :| key in groups;
      var r := Stratum(d, key, rows)[0];
      FilterMember(In(d, key), rows, r);
    }
    forall r | r in rows && KeyOf(d, r).Some? ensures KeyOf(d, r).value in groups {
      FilterMember(In(d, KeyOf(d, r).value), rows, r);
    }
  }

  method LiveEvidenceReport(rows: seq<Row>, qStar: Option<real>, minN: int) returns (r: Report)
    ensures r.nSettled == |rows|
    ensures Reports(r.byScore, ByScore(qStar), rows, minN) && Reports(r.byTier, ByTier, rows, minN)
    ensures ReportsIfAny(r.byAnchor, ByAnchor, rows, minN) && ReportsIfAny(r.byCloseAnchor, ByCloseAnchor, rows, minN)
    ensures ReportsIfAny(r.bySport, BySport, rows, minN)
    ensures r.sharpClose == StratumStats(Filter(SharpClose, rows), minN)
  {
    hide Grouped, Reports, ReportsIfAny, StratumStats, SharpClose;
    var byScore, byTier, byAnchor, byCloseAnchor, bySport: map<string, seq<Row>> := map[], map[], map[], map[], map[];
    NothingGrouped(ByScore(qStar));
    NothingGrouped(ByTier);
    NothingGrouped(ByAnchor);
    NothingGrouped(ByCloseAnchor);
    NothingGrouped(BySport);
    for i := 0 to |rows|
      invariant Grouped(byScore, ByScore(qStar), rows[..i]) && Grouped(byTier, ByTier, rows[..i])
      invariant Grouped(byAnchor, ByAnchor, rows[..i]) && Grouped(byCloseAnchor, ByCloseAnchor, rows[..i])
      invariant Grouped(bySport, BySport, rows[..i])
    {
      byScore := AddTo(byScore, ByScore(qStar), rows, i, rows[i]);
      byTier := AddTo(byTier, ByTier, rows, i, rows[i]);
      byAnchor := AddTo(byAnchor, ByAnchor, rows, i, rows[i]);
      byCloseAnchor := AddTo(byCloseAnchor, ByCloseAnchor, rows, i, rows[i]);
      bySport := AddTo(bySport, BySport, rows, i, rows[i]);
    }
    assert rows[..|rows|] == rows;
    var score := Summarise(byScore, ByScore(qStar), rows, minN);
    var tier := Summarise(byTier, ByTier, rows, minN);
    var anchor := SummariseIfAny(byAnchor, ByAnchor, rows, minN);
    var closeAnchor := SummariseIfAny(byCloseAnchor, ByCloseAnchor, rows, minN);
    var sport := SummariseIfAny(bySport, BySport, rows, minN);
    r := Report(|rows|, score, tier, anchor, closeAnchor, sport, StratumStats(Filter(SharpClose, rows), minN));
  }

  lemma NothingGrouped(d: Dimension)
    ensures Grouped(map[], d, [])
  {
  }

  // ---- strata partition the rows ----

  function SizesOver(d: Dimension, keys: seq<string>, rows: seq<Row>): nat {
    if keys == [] then 0 else SizesOver(d, keys[1..], rows) + |Stratum(d, keys[0], rows)|
  }

  ghost predicate Distinct(keys: seq<string>) { forall i, j :: 0 <= i < j < |keys| ==> keys[i] != keys[j] }

  lemma {:induction false} OneRowOneKey(d: Dimension, keys: seq<string>, rows: seq<Row>)
    requires rows != [] && Distinct(keys)
    ensures SizesOver(d, keys, rows) ==
            SizesOver(d, keys, rows[1..]) + if KeyOf(d, rows[0]).Some? && KeyOf(d, rows[0]).value in keys then 1 else 0
  {
    if keys != [] {
      OneRowOneKey(d, keys[1..], rows);
      assert keys == [keys[0]] + keys[1..];
    }
  }

  /** Along a dimension every row carries, the strata add up to the settled rows: each is counted once. */
  lemma {:induction false} StrataPartition(d: Dimension, keys: seq<string>, rows: seq<Row>)
    requires Distinct(keys) && forall r :: r in rows ==> KeyOf(d, r).Some? && KeyOf(d, r).value in keys
    ensures SizesOver(d, keys, rows) == |rows|
  {
    if rows == [] {
      EmptySizes(d, keys);
    } else {
      OneRowOneKey(d, keys, rows);
      StrataPartition(d, keys, rows[1..]);
    }
  }

  lemma {:induction false} EmptySizes(d: Dimension, keys: seq<string>)
    ensures SizesOver(d, keys, []) == 0
  {
    if keys != [] { EmptySizes(d, keys[1..]); }
  }

  /** The score buckets and the tiers of a report add up to its settled count. */
  lemma ReportIsAPartition(r: Report, rows: seq<Row>, qStar: Option<real>, minN: int, d: Dimension, keys: seq<string>)
    requires d == ByScore(qStar) || d == ByTier
    requires var m := if d == ByTier then r.byTier else r.byScore;
             Reports(m, d, rows, minN) && Distinct(keys) && forall k :: k in keys <==> k in m
    ensures var m := if d == ByTier then r.byTier else r.byScore;
            SumN(m, keys) == |rows|
  {
    var m := if d == ByTier then r.byTier else r.byScore;
    forall row | row in rows ensures KeyOf(d, row).value in keys {
      FilterMember(In(d, KeyOf(d, row).value), rows, row);
    }
    StrataPartition(d, keys, rows);
    ReportedSizes(m, d, keys, rows, minN);
  }

  function SumN(m: map<string, Stats>, keys: seq<string>): nat
    requires forall k :: k in keys ==> k in m
  {
    if keys == [] then 0 else SumN(m, keys[1..]) + m[keys[0]].n
  }

  lemma {:induction false} ReportedSizes(
    m: map<string, Stats>, d: Dimension, keys: seq<string>, rows: seq<Row>, minN: int)
    requires Reports(m, d, rows, minN) && forall k :: k in keys ==> k in m
    ensures SumN(m, keys) == SizesOver(d, keys, rows)
  {
    if keys != [] {
      assert keys == [keys[0]] + keys[1..];
      ReportedSizes(m, d, keys[1..], rows, minN);
    }
  }

  // ---- polluted rows have no say ----

  datatype ClvFigures = ClvFigures(nClv: nat, meanClv: Option<real>, stakeWeightedClv: Option<real>,
    beatRate: Option<real>, sufficient: bool)

  function FiguresOf(s: Stats): ClvFigures {
    ClvFigures(s.nClv, s.meanClv, s.stakeWeightedClv, s.beatRate, s.sufficient)
  }

  lemma {:induction false} OnlyCleanRowsCount(p: Row -> bool, rows: seq<Row>)
    requires forall r :: p(r) ==> Clean(r)
    ensures Filter(p, rows) == Filter(p, Filter(Clean, rows))
  {
    if rows != [] {
      OnlyCleanRowsCount(p, rows[1..]);
      assert ([rows[0]] + Filter(Clean, rows[1..]))[1..] == Filter(Clean, rows[1..]);
    }
  }

  lemma SameCleanSameFigures(a: seq<Row>, b: seq<Row>, minN: int)
    requires Filter(Clean, a) == Filter(Clean, b)
    ensures FiguresOf(StratumStats(a, minN)) == FiguresOf(StratumStats(b, minN))
  {
    hide Clean, Sum, Mean;
    OnlyCleanRowsCount(HasClv, a);
    OnlyCleanRowsCount(HasClv, b);
    OnlyCleanRowsCount(HasBeat, a);
    OnlyCleanRowsCount(HasBeat, b);
  }

  /** Circular, tautological and fabricated rows have no say: two samples with the same clean rows agree on
      every closing-line figure of every stratum of every dimension, and of the trusted subset. */
  lemma PollutedRowsHaveNoSay(d: Dimension, key: string, a: seq<Row>, b: seq<Row>, minN: int)
    requires Filter(Clean, a) == Filter(Clean, b)
    ensures FiguresOf(StratumStats(Stratum(d, key, a), minN)) == FiguresOf(StratumStats(Stratum(d, key, b), minN))
    ensures StratumStats(Filter(SharpClose, a), minN) == StratumStats(Filter(SharpClose, b), minN)
  {
    FiltersCommute(Clean, In(d, key), a);
    FiltersCommute(Clean, In(d, key), b);
    SameCleanSameFigures(Stratum(d, key, a), Stratum(d, key, b), minN);
    OnlyCleanRowsCount(SharpClose, a);
    OnlyCleanRowsCount(SharpClose, b);
  }

  /** In particular deleting one such row leaves every figure of the remaining strata as it was. */
  lemma DeletingPollutedRow(d: Dimension, key: string, rows: seq<Row>, i: nat, minN: int)
    requires i < |rows| && Polluted(rows[i])
    ensures var rest := rows[..i] + rows[i + 1..];
            FiguresOf(StratumStats(Stratum(d, key, rows), minN)) == FiguresOf(StratumStats(Stratum(d, key, rest), minN))
  {
    var rest := rows[..i] + rows[i + 1..];
    assert rows == rows[..i] + [rows[i]] + rows[i + 1..];
    FilterAppend(Clean, rows[..i] + [rows[i]], rows[i + 1..]);
    FilterAppend(Clean, rows[..i], [rows[i]]);
    FilterAppend(Clean, rows[..i], rows[i + 1..]);
    PollutedRowsHaveNoSay(d, key, rows, rest, minN);
  }

  /** Every trusted close with a closing-line value is in the sample of each stratum it belongs to, and the
      trusted stratum leaves none of its values out. */
  lemma TrustedClosesAreCounted(rows: seq<Row>, r: Row, d: Dimension)
    requires r in rows && SharpClose(r) && r.clv.Some? && KeyOf(d, r).Some?
    ensures r in Filter(HasClv, Stratum(d, KeyOf(d, r).value, rows))
    ensures multiset(Filter(HasClv, Stratum(d, KeyOf(d, r).value, rows)))[r] == multiset(rows)[r]
            == multiset(Filter(HasClv, Filter(SharpClose, rows)))[r]
  {
    var key := KeyOf(d, r).value;
    FilterMember(In(d, key), rows, r);
    FilterMember(HasClv, Stratum(d, key, rows), r);
    FilterMultiset(In(d, key), rows, r);
    FilterMultiset(HasClv, Stratum(d, key, rows), r);
    FilterMultiset(SharpClose, rows, r);
    FilterMultiset(HasClv, Filter(SharpClose, rows), r);
  }

  // ---- what the estimates can be ----

  lemma {:induction false} StakedBounds(rows: seq<Row>, lo: real, hi: real)
    requires forall r :: r in rows ==> r.stake >= 0.0 && lo <= Clv(r) <= hi
    ensures Times(lo, Sum(Stake, rows)) <= Sum(StakedClv, rows) <= Times(hi, Sum(Stake, rows))
    ensures Times(lo, |rows| as real) <= Sum(Clv, rows) <= Times(hi, |rows| as real)
  {
    hide Times, Clv;
    TimesOrder(0.0, 0.0, lo);
    TimesOrder(0.0, 0.0, hi);
    if rows != [] {
      assert rows == [rows[0]] + rows[1..];
      StakedBounds(rows[1..], lo, hi);
      TimesOrder(lo, Clv(rows[0]), rows[0].stake);
      TimesOrder(Clv(rows[0]), hi, rows[0].stake);
      TimesDistribute(rows[0].stake, Sum(Stake, rows[1..]), lo);
      TimesDistribute(rows[0].stake, Sum(Stake, rows[1..]), hi);
      TimesDistribute(1.0, |rows[1..]| as real, lo);
      TimesDistribute(1.0, |rows[1..]| as real, hi);
    }
  }

  lemma MeanBetween(total: real, size: real, lo: real, hi: real)
    requires size > 0.0 && Times(lo, size) <= total <= Times(hi, size)
    ensures Mean(total, size).Some? && lo <= Mean(total, size).value <= hi
  {
    var m := total / size;
    assert Times(m, size) == total;
    TimesCompare(lo, m, size);
    TimesCompare(m, hi, size);
  }

  /** Both averages lie between the extremes of the sample they are taken over, when stakes are not negative;
      a stratum with too few closing-line values shows no estimate at all. */
  lemma EstimatesAreHonest(rows: seq<Row>, minN: int, lo: real, hi: real)
    requires forall r :: r in rows && HasClv(r) ==> r.stake >= 0.0 && lo <= Clv(r) <= hi
    ensures var s := StratumStats(rows, minN);
            && (s.sufficient <==> s.nClv >= minN)
            && (s.nClv < minN ==> s.meanClv == s.stakeWeightedClv == s.beatRate == s.roi == None)
            && (s.stakeWeightedClv.Some? ==> lo <= s.stakeWeightedClv.value <= hi)
            && (s.meanClv.Some? ==> lo <= s.meanClv.value <= hi)
            && (s.meanClv.Some? <==> s.nClv >= minN && s.nClv > 0)
            && (s.beatRate.Some? ==> 0.0 <= s.beatRate.value <= 1.0)
  {
    var sample, beats := Filter(HasClv, rows), Filter(HasBeat, rows);
    forall r | r in sample ensures r.stake >= 0.0 && lo <= Clv(r) <= hi { FilterMember(HasClv, rows, r); }
    hide HasClv, HasBeat, Clv;
    StakedBounds(sample, lo, hi);
    if Sum(Stake, sample) > 0.0 { MeanBetween(Sum(StakedClv, sample), Sum(Stake, sample), lo, hi); }
    if |sample| > 0 { MeanBetween(Sum(Clv, sample), |sample| as real, lo, hi); }
    if |beats| > 0 {
      TimesOrder(0.0, 1.0, |beats| as real);
      MeanBetween(|Filter(Beats, beats)| as real, |beats| as real, 0.0, 1.0);
    }
    hide Mean;
  }

  // ---- the figures, told over the rows themselves ----

  /** The close moved by no more than 0.001 from the fair value the pick was minted at. */
  ghost predicate Echoes(r: Row) {
    exists c, m :: r.closingFair == Some(c) && r.modelProb == Some(m) && c <= m + 0.001 && m <= c + 0.001
  }

  /** No market gives away more than 0.20 at the close, or half a unit of log price. */
  ghost predicate Impossible(r: Row) {
    || (exists c, o :: r.closingFair == Some(c) && r.odds == Some(o) && o != 0.0 && c > 0.20 + 1.0 / o)
    || (exists v :: r.clv == Some(v) && (v > 0.5 || v < -0.5))
  }

  /** The row's closing-line value, if it has one, may be counted. */
  ghost predicate Credible(r: Row) {
    r.independent != Some(false) && (r.clv.Some? ==> !Echoes(r) && !Impossible(r))
  }

  /** The row's close is from a snapshot, set by a named sharp book, credible, and devigged as at the mint. */
  ghost predicate Trusted(r: Row) {
    && r.hasSnapshotClose
    && (r.closingAnchorType == Some("pinnacle") || r.closingAnchorType == Some("sharp"))
    && Credible(r)
    && (r.mintFellBack.None? || r.closeFellBack.None? || r.mintFellBack == r.closeFellBack)
  }

  lemma RowExactly(r: Row)
    ensures Clean(r) <==> Credible(r)
    ensures SharpClose(r) <==> Trusted(r)
    ensures HasClv(r) <==> r.clv.Some? && Credible(r)
    ensures HasBeat(r) <==> r.beatClose.Some? && Credible(r)
  {
    if r.closingFair.Some? && r.modelProb.Some? {
      assert Echoes(r) <==> Abs(r.closingFair.value - r.modelProb.value) <= 0.001;
    }
    if r.clv.Some? {
      assert Impossible(r) <==> Fabricated(r);
    }
  }

  /** Which stratum a row falls into. */
  lemma StratumExactly(r: Row, key: string, q: Option<real>)
    ensures In(ByScore(q), key)(r) <==>
              key == (if r.score == None then "unscored" else if q == None then "scored"
                      else if r.score.value < q.value then "score_lt_q" else "score_ge_q")
    ensures In(ByTier, key)(r) <==> r.tier == key
    ensures In(ByAnchor, key)(r) <==> r.anchorType == Some(key)
    ensures In(ByCloseAnchor, key)(r) <==> r.closingAnchorType == Some(key)
    ensures In(BySport, key)(r) <==> r.sport == Some(key)
  {
  }

  ghost function IfClv(value: Row -> real): Row -> real {
    (r: Row) => if r.clv.Some? && Credible(r) then value(r) else 0.0
  }

  ghost function IfBeat(value: Row -> real): Row -> real {
    (r: Row) => if r.beatClose.Some? && Credible(r) then value(r) else 0.0
  }

  ghost function IfPnl(value: Row -> real): Row -> real { (r: Row) => if r.pnl.Some? then value(r) else 0.0 }

  ghost function One(r: Row): real { 1.0 }

  ghost function TheClv(r: Row): real { match r.clv case Some(v) => v case None => 0.0 }

  ghost function ThePnl(r: Row): real { match r.pnl case Some(v) => v case None => 0.0 }

  ghost function TheStake(r: Row): real { r.stake }

  ghost function ClvTimesStake(r: Row): real { Times(TheClv(r), r.stake) }

  ghost function BeatOrNot(r: Row): real { if r.beatClose == Some(true) then 1.0 else 0.0 }

  /** `mean` is total over size, and nothing over nothing. */
  ghost predicate IsMean(mean: Option<real>, total: real, size: real) {
    (mean.Some? <==> size > 0.0) && (mean.Some? ==> Times(mean.value, size) == total)
  }

  /** All figures of a stratum: the three counts, and when the closing-line sample is large enough the mean and the
      stake-weighted closing-line value, the share that beat the close, and the profit per stake. */
  ghost predicate Figures(rows: seq<Row>, minN: int, s: Stats) {
    && s.n == |rows|
    && s.nClv as real == Sum(IfClv(One), rows)
    && s.nRoi as real == Sum(IfPnl(One), rows)
    && (s.sufficient <==> s.nClv >= minN)
    && (!s.sufficient ==> s.meanClv == s.stakeWeightedClv == s.beatRate == s.roi == None)
    && (s.sufficient ==>
          && IsMean(s.meanClv, Sum(IfClv(TheClv), rows), s.nClv as real)
          && IsMean(s.stakeWeightedClv, Sum(IfClv(ClvTimesStake), rows), Sum(IfClv(TheStake), rows))
          && IsMean(s.beatRate, Sum(IfBeat(BeatOrNot), rows), Sum(IfBeat(One), rows))
          && IsMean(s.roi, Sum(IfPnl(ThePnl), rows), Sum(IfPnl(TheStake), rows)))
  }

  lemma MeanIsMean(total: real, size: real)
    ensures IsMean(Mean(total, size), total, size)
  {
  }

  lemma ClvTotals(rows: seq<Row>)
    ensures var c := Filter(HasClv, rows);
            && |c| as real == Sum(IfClv(One), rows)
            && Sum(Clv, c) == Sum(IfClv(TheClv), rows)
            && Sum(StakedClv, c) == Sum(IfClv(ClvTimesStake), rows)
            && Sum(Stake, c) == Sum(IfClv(TheStake), rows)
  {
    forall r: Row ensures HasClv(r) <==> r.clv.Some? && Credible(r) { RowExactly(r); }
    hide HasClv, Credible, Times;
    forall r: Row ensures TheClv(r) == Clv(r) {}
    CountSelected(HasClv, IfClv(One), rows);
    SumSelected(Clv, HasClv, IfClv(TheClv), rows);
    SumSelected(StakedClv, HasClv, IfClv(ClvTimesStake), rows);
    SumSelected(Stake, HasClv, IfClv(TheStake), rows);
  }

  lemma BeatTotals(rows: seq<Row>)
    ensures var b := Filter(HasBeat, rows);
            && |b| as real == Sum(IfBeat(One), rows)
            && |Filter(Beats, b)| as real == Sum(IfBeat(BeatOrNot), rows)
  {
    forall r: Row ensures HasBeat(r) <==> r.beatClose.Some? && Credible(r) { RowExactly(r); }
    hide HasBeat, Credible;
    CountSelected(HasBeat, IfBeat(One), rows);
    CountSelected(Beats, BeatOrNot, Filter(HasBeat, rows));
    SumSelected(BeatOrNot, HasBeat, IfBeat(BeatOrNot), rows);
  }

  lemma PnlTotals(rows: seq<Row>)
    ensures var p := Filter(HasPnl, rows);
            && |p| as real == Sum(IfPnl(One), rows)
            && Sum(Pnl, p) == Sum(IfPnl(ThePnl), rows)
            && Sum(Stake, p) == Sum(IfPnl(TheStake), rows)
  {
    forall r: Row ensures ThePnl(r) == Pnl(r) {}
    CountSelected(HasPnl, IfPnl(One), rows);
    SumSelected(Pnl, HasPnl, IfPnl(ThePnl), rows);
    SumSelected(Stake, HasPnl, IfPnl(TheStake), rows);
  }

  lemma FiguresExactly(rows: seq<Row>, minN: int)
    ensures Figures(rows, minN, StratumStats(rows, minN))
  {
    hide HasClv, HasBeat, Times, Mean, IsMean, IfClv, IfBeat, IfPnl;
    var c, b, p := Filter(HasClv, rows), Filter(HasBeat, rows), Filter(HasPnl, rows);
    ClvTotals(rows);
    BeatTotals(rows);
    PnlTotals(rows);
    MeanIsMean(Sum(Clv, c), |c| as real);
    MeanIsMean(Sum(StakedClv, c), Sum(Stake, c));
    MeanIsMean(|Filter(Beats, b)| as real, |b| as real);
    MeanIsMean(Sum(Pnl, p), Sum(Stake, p));
    if p == [] {
      assert Sum(Stake, p) == 0.0;
      NoMean(Sum(IfPnl(ThePnl), rows));
    }
  }

  lemma NoMean(total: real)
    ensures IsMean(None, total, 0.0)
  {
  }
}
