/** Joining Betfair closes onto football-data rows (app/ingestion/betfair_bsp.py) through the strict event
    matcher (app/resolution/matching.py): a date-bucket index that must answer like a full scan. */
module BetfairJoin {
  import opened Prelude
  import opened BetfairStream
  import StableSort

  const DRAW_SELECTION_ID := 58805
  const OVER_25_SELECTION_ID := 47973
  const UNDER_25_SELECTION_ID := 47972
  const SECONDS_PER_DAY := 86400

  /** The match-odds market or the over/under 2.5 market. */
  datatype Kind = MatchOdds | OverUnder

  /** Name resolution and text conversion, which this model leaves abstract. */
  datatype Text = Text(
    canonical: string -> string, strip: string -> string, lower: string -> string,
    parseDate: string -> Option<int>, parseInt: string -> Option<int>, show: real -> string,
    splitTeams: string -> Option<(string, string)>, anonymousRef: (Kind, nat) -> string)

  datatype Candidate = Candidate(ref: string, home: string, away: string, kickoff: int)

  type Row = map<string, string>

  function Get(row: Row, key: string): string { if key in row then row[key] else "" }

  function Day(instant: int): int { instant / SECONDS_PER_DAY }

  function Distance(a: int, b: int): nat { if a >= b then a - b else b - a }

  // ---- the event matcher ----

  predicate InWindow(a: int, b: int, drift: int) { Distance(Day(a), Day(b)) <= drift }

  predicate Distinguishable(text: Text, home: string, away: string) {
    text.canonical(home) != "" && text.canonical(away) != "" && text.canonical(home) != text.canonical(away)
  }

  /** The candidate names the same ordered fixture within the day window. */
  function Qualifies(text: Text, home: string, away: string, kickoff: int, drift: int): Candidate -> bool {
    (c: Candidate) =>
      Distinguishable(text, home, away) && InWindow(kickoff, c.kickoff, drift)
      && text.canonical(c.home) == text.canonical(home) && text.canonical(c.away) == text.canonical(away)
  }

  predicate StringLe(a: string, b: string) {
    a == "" || (b != "" && (a[0] < b[0] || (a[0] == b[0] && StringLe(a[1..], b[1..]))))
  }

  lemma {:induction false} StringLeAntisymmetric(a: string, b: string)
    requires StringLe(a, b) && StringLe(b, a)
    ensures a == b
  {
    if a != "" && b != "" {
      StringLeAntisymmetric(a[1..], b[1..]);
      assert a == [a[0]] + a[1..] && b == [b[0]] + b[1..];
    }
  }

  lemma {:induction false} StringLeTransitive(a: string, b: string, c: string)
    requires StringLe(a, b) && StringLe(b, c)
    ensures StringLe(a, c)
  {
    if a != "" && b != "" && c != "" && a[0] == b[0] == c[0] { StringLeTransitive(a[1..], b[1..], c[1..]); }
  }

  lemma {:induction false} StringLeTotal(a: string, b: string)
    ensures StringLe(a, b) || StringLe(b, a)
  {
    if a != "" && b != "" { StringLeTotal(a[1..], b[1..]); }
  }

  /** Strictly nearer to the kickoff, ties broken by the reference. */
  predicate Nearer(kickoff: int, a: Candidate, b: Candidate) {
    || Distance(a.kickoff, kickoff) < Distance(b.kickoff, kickoff)
    || (Distance(a.kickoff, kickoff) == Distance(b.kickoff, kickoff) && !StringLe(b.ref, a.ref))
  }

  /** The first candidate that no later one beats. */
  function Nearest(kickoff: int, cs: seq<Candidate>): Option<Candidate> {
    if cs == [] then None
    else
      var best := Nearest(kickoff, cs[..|cs| - 1]);
      if best.None? || Nearer(kickoff, cs[|cs| - 1], best.value) then Some(cs[|cs| - 1]) else best
  }

  method MatchEvent(
    text: Text, home: string, away: string, kickoff: int, candidates: seq<Candidate>, drift: int)
    returns (m: Option<Candidate>)
    ensures m == Nearest(kickoff, Filter(Qualifies(text, home, away, kickoff, drift), candidates))
  {
    var q := Qualifies(text, home, away, kickoff, drift);
    var targetHome, targetAway := text.canonical(home), text.canonical(away);
    if targetHome == "" || targetAway == "" || targetHome == targetAway {
      assert forall c :: c in candidates ==> !q(c) by {
        assert !Distinguishable(text, home, away);
      }
      FilterNone(q, candidates);
      return None;
    }
    var matched := [];
    for i := 0 to |candidates|
      invariant matched == Filter(q, candidates[..i])
    {
      var c := candidates[i];
      FilterSnoc(q, candidates, i);
      if InWindow(kickoff, c.kickoff, drift) {
        var candHome, candAway := text.canonical(c.home), text.canonical(c.away);
        if candHome != "" && candAway != "" && candHome == targetHome && candAway == targetAway {
          matched := matched + [c];
        }
      }
    }
    assert candidates[..|candidates|] == candidates;
    m := None;
    for i := 0 to |matched|
      invariant m == Nearest(kickoff, matched[..i])
    {
      assert matched[..i + 1][..i] == matched[..i];
      if m.None? || Nearer(kickoff, matched[i], m.value) {
        m := Some(matched[i]);
      }
    }
    assert matched[..|matched|] == matched;
  }

  lemma {:induction false} NearestIsNearest(kickoff: int, cs: seq<Candidate>)
    ensures Nearest(kickoff, cs).None? <==> cs == []
    ensures Nearest(kickoff, cs).Some? ==>
              var best := Nearest(kickoff, cs).value;
              best in cs && forall c :: c in cs ==> !Nearer(kickoff, c, best)
  {
    if cs != [] {
      var n := |cs| - 1;
      var init, last := cs[..n], cs[n];
      assert cs == init + [last];
      NearestIsNearest(kickoff, init);
      StringLeTotal(last.ref, last.ref);
      if init != [] && Nearer(kickoff, last, Nearest(kickoff, init).value) {
        var was := Nearest(kickoff, init).value;
        forall c | c in init ensures !Nearer(kickoff, c, last) {
          assert !Nearer(kickoff, c, was);
          StringLeTotal(was.ref, last.ref);
          if StringLe(last.ref, was.ref) && StringLe(was.ref, c.ref) { StringLeTransitive(last.ref, was.ref, c.ref); }
        }
      }
    }
  }

  /** The match is a property of which candidates qualify, not of their order. */
  lemma SameMembersSameRef(kickoff: int, a: seq<Candidate>, b: seq<Candidate>)
    requires forall c :: c in a <==> c in b
    ensures Nearest(kickoff, a).Some? == Nearest(kickoff, b).Some?
    ensures Nearest(kickoff, a).Some? ==> Nearest(kickoff, a).value.ref == Nearest(kickoff, b).value.ref
  {
    NearestIsNearest(kickoff, a);
    NearestIsNearest(kickoff, b);
    assert a != [] ==> a[0] in b;
    assert b != [] ==> b[0] in a;
    if a != [] {
      StringLeAntisymmetricIf(Nearest(kickoff, a).value.ref, Nearest(kickoff, b).value.ref);
    }
  }

  lemma StringLeAntisymmetricIf(a: string, b: string)
    ensures StringLe(a, b) && StringLe(b, a) ==> a == b
  {
    if StringLe(a, b) && StringLe(b, a) { StringLeAntisymmetric(a, b); }
  }

  // ---- the index ----

  predicate IsDraw(text: Text, r: Runner) {
    r.id == DRAW_SELECTION_ID || (r.name.Some? && text.canonical(r.name.value) == "draw")
  }

  function Contenders(rs: seq<Runner>): seq<Runner> {
    Filter((r: Runner) => r.id != DRAW_SELECTION_ID && r.name.Some?, rs)
  }

  /** The fixture a market is about, when it can be told. */
  function TeamsOf(text: Text, kind: Kind, m: MarketClose): Option<(string, string)> {
    match kind
    case OverUnder => text.splitTeams(m.eventName)
    case MatchOdds =>
      var two := Contenders(m.runners);
      if |two| < 2 then None
      else Some((if two[0].name.Some? then two[0].name.value else "",
                 if two[1].name.Some? then two[1].name.value else ""))
  }

  datatype Index = Index(byRef: map<string, MarketClose>, candidates: seq<Candidate>)

  function RefOf(text: Text, kind: Kind, m: MarketClose, known: nat): string {
    if m.marketId != "" then m.marketId else text.anonymousRef(kind, known)
  }

  function AddMarket(text: Text, kind: Kind, ix: Index, m: MarketClose): Index {
    var teams := TeamsOf(text, kind, m);
    if m.kickoff.None? || teams.None? then ix
    else
      var ref := RefOf(text, kind, m, |ix.byRef|);
      Index(ix.byRef[ref := m], ix.candidates + [Candidate(ref, teams.value.0, teams.value.1, m.kickoff.value)])
  }

  function IndexOf(text: Text, kind: Kind, markets: seq<MarketClose>): (ix: Index)
    ensures forall c :: c in ix.candidates ==> c.ref in ix.byRef
  {
    if markets == [] then Index(map[], [])
    else AddMarket(text, kind, IndexOf(text, kind, markets[..|markets| - 1]), markets[|markets| - 1])
  }

  function OnDay(day: int): Candidate -> bool { (c: Candidate) => Day(c.kickoff) == day }

  function Bucket(byDate: map<int, seq<Candidate>>, day: int): seq<Candidate> {
    if day in byDate then byDate[day] else []
  }

  /** Every date bucket holds that day's candidates, in order. */
  ghost predicate Buckets(byDate: map<int, seq<Candidate>>, cs: seq<Candidate>) {
    forall day: int :: Bucket(byDate, day) == Filter(OnDay(day), cs)
  }

  method BuildIndex(
    text: Text, kind: Kind, markets: seq<MarketClose>)
    returns (byRef: map<string, MarketClose>, byDate: map<int, seq<Candidate>>)
    ensures byRef == IndexOf(text, kind, markets).byRef
    ensures Buckets(byDate, IndexOf(text, kind, markets).candidates)
  {
    hide AddMarket, Buckets;
    byRef, byDate := map[], map[];
    NoBuckets();
    for i := 0 to |markets|
      invariant byRef == IndexOf(text, kind, markets[..i]).byRef
      invariant Buckets(byDate, IndexOf(text, kind, markets[..i]).candidates)
    {
      assert markets[..i + 1][..i] == markets[..i];
      byRef, byDate := IndexMarket(text, kind, IndexOf(text, kind, markets[..i]), byRef, byDate, markets[i]);
    }
    assert markets[..|markets|] == markets;
  }

  lemma NoBuckets()
    ensures Buckets(map[], [])
  {
  }

  method IndexMarket(
    text: Text, kind: Kind, ghost ix: Index, byRef0: map<string, MarketClose>, byDate0: map<int, seq<Candidate>>,
    m: MarketClose)
    returns (byRef: map<string, MarketClose>, byDate: map<int, seq<Candidate>>)
    requires byRef0 == ix.byRef && Buckets(byDate0, ix.candidates)
    ensures byRef == AddMarket(text, kind, ix, m).byRef
    ensures Buckets(byDate, AddMarket(text, kind, ix, m).candidates)
  {
    hide TeamsOf, RefOf;
    byRef, byDate := byRef0, byDate0;
    var teams := TeamsOf(text, kind, m);
    if m.kickoff.Some? && teams.Some? {
      var ref := RefOf(text, kind, m, |byRef|);
      byRef := byRef[ref := m];
      var c := Candidate(ref, teams.value.0, teams.value.1, m.kickoff.value);
      byDate := byDate[Day(c.kickoff) := Bucket(byDate, Day(c.kickoff)) + [c]];
      forall day: int ensures Bucket(byDate, day) == Filter(OnDay(day), ix.candidates + [c]) {
        FilterAppend(OnDay(day), ix.candidates, [c]);
        assert Bucket(byDate0, day) == Filter(OnDay(day), ix.candidates);
      }
    }
  }

  /** The buckets of the days kday+lo up to, not including, kday+hi. */
  function BucketUnion(cs: seq<Candidate>, kday: int, lo: int, hi: int): seq<Candidate>
    decreases hi - lo
  {
    if hi <= lo then [] else BucketUnion(cs, kday, lo, hi - 1) + Filter(OnDay(kday + hi - 1), cs)
  }

  method Gather(byDate: map<int, seq<Candidate>>, kday: int, drift: int, ghost cs: seq<Candidate>)
    returns (local: seq<Candidate>)
    requires Buckets(byDate, cs)
    ensures local == BucketUnion(cs, kday, -drift, drift + 1)
  {
    local := [];
    var off := -drift;
    while off < drift + 1
      invariant -drift <= off && off <= (if drift >= 0 then drift + 1 else -drift)
      invariant local == BucketUnion(cs, kday, -drift, off)
    {
      assert Bucket(byDate, kday + off) == Filter(OnDay(kday + off), cs);
      local := local + Bucket(byDate, kday + off);
      off := off + 1;
    }
  }

  lemma {:induction false} BucketUnionCount(cs: seq<Candidate>, kday: int, lo: int, hi: int, x: Candidate)
    ensures multiset(BucketUnion(cs, kday, lo, hi))[x] == if lo <= Day(x.kickoff) - kday < hi then multiset(cs)[x]
            else 0
    decreases hi - lo
  {
    if lo < hi {
      BucketUnionCount(cs, kday, lo, hi - 1, x);
      FilterMultiset(OnDay(kday + hi - 1), cs, x);
    }
  }

  /** The union of the buckets around a day holds exactly the candidates of the window, each as often. */
  lemma BucketsAreTheWindow(cs: seq<Candidate>, kickoff: int, drift: int)
    ensures multiset(BucketUnion(cs, Day(kickoff), -drift, drift + 1))
            == multiset(Filter((c: Candidate) => InWindow(kickoff, c.kickoff, drift), cs))
  {
    hide BucketUnion, Filter;
    var p := (c: Candidate) => InWindow(kickoff, c.kickoff, drift);
    var a, b := multiset(BucketUnion(cs, Day(kickoff), -drift, drift + 1)), multiset(Filter(p, cs));
    forall x ensures a[x] == b[x] {
      BucketUnionCount(cs, Day(kickoff), -drift, drift + 1, x);
      FilterMultiset(p, cs, x);
    }
    assert a == b;
  }

  /** The reference matched by scanning every candidate. */
  function FullScan(
    text: Text, home: string, away: string, kickoff: int, drift: int, cs: seq<Candidate>): (ref: Option<string>)
    ensures ref.Some? ==> exists c :: c in cs && c.ref == ref.value
  {
    var q := Qualifies(text, home, away, kickoff, drift);
    var m := Nearest(kickoff, Filter(q, cs));
    if m.None? then None
    else
      NearestIsNearest(kickoff, Filter(q, cs)); FilterMember(q, cs, m.value);
      Some(m.value.ref)
  }

  lemma BucketMember(cs: seq<Candidate>, kickoff: int, drift: int, c: Candidate)
    ensures c in BucketUnion(cs, Day(kickoff), -drift, drift + 1) <==> c in cs && InWindow(kickoff, c.kickoff, drift)
  {
    var local := BucketUnion(cs, Day(kickoff), -drift, drift + 1);
    BucketUnionCount(cs, Day(kickoff), -drift, drift + 1, c);
    assert c in multiset(cs) <==> c in cs;
    assert c in multiset(local) <==> c in local;
  }

  lemma QualifiersAreInWindow(text: Text, home: string, away: string, kickoff: int, drift: int, c: Candidate)
    ensures Qualifies(text, home, away, kickoff, drift)(c) ==> InWindow(kickoff, c.kickoff, drift)
  {
  }

  /** Matching inside the buckets finds the market that matching against everything finds. */
  lemma IndexAgreesWithFullScan(text: Text, home: string, away: string, kickoff: int, drift: int, cs: seq<Candidate>)
    ensures var local := BucketUnion(cs, Day(kickoff), -drift, drift + 1);
            FullScan(text, home, away, kickoff, drift, local) == FullScan(text, home, away, kickoff, drift, cs)
  {
    hide BucketUnion, Nearest, Qualifies;
    var q := Qualifies(text, home, away, kickoff, drift);
    var local := BucketUnion(cs, Day(kickoff), -drift, drift + 1);
    forall c ensures c in Filter(q, local) <==> c in Filter(q, cs) {
      FilterMember(q, local, c);
      FilterMember(q, cs, c);
      BucketMember(cs, kickoff, drift, c);
      QualifiersAreInWindow(text, home, away, kickoff, drift, c);
    }
    SameMembersSameRef(kickoff, Filter(q, local), Filter(q, cs));
  }

  /** Whose close is attached when several candidates qualify: a reference is the answer exactly when one of
      its qualifying captures is nearer than every qualifying candidate with another reference. */
  lemma AttachedReference(
    text: Text, home: string, away: string, kickoff: int, drift: int, cs: seq<Candidate>, ref: string)
    ensures var q := Qualifies(text, home, away, kickoff, drift);
            FullScan(text, home, away, kickoff, drift, cs) == Some(ref) <==>
              exists c :: c in cs && q(c) && c.ref == ref
                && forall o :: o in cs && q(o) && o.ref != ref ==> Nearer(kickoff, c, o)
  {
    hide Qualifies;
    var q := Qualifies(text, home, away, kickoff, drift);
    var hits := Filter(q, cs);
    NearestIsNearest(kickoff, hits);
    forall c ensures c in hits <==> c in cs && q(c) {
      FilterMember(q, cs, c);
    }
    if hits != [] {
      var best := Nearest(kickoff, hits).value;
      forall o | o in hits && o.ref != best.ref ensures Nearer(kickoff, best, o) {
        StringLeAntisymmetricIf(best.ref, o.ref);
      }
    }
  }

  /** Every qualifying candidate stands for the answer, so that nothing was guessed, exactly when all of them
      share one reference. */
  lemma NothingIsGuessed(text: Text, home: string, away: string, kickoff: int, drift: int, cs: seq<Candidate>)
    ensures var q, ref := Qualifies(text, home, away, kickoff, drift), FullScan(text, home, away, kickoff, drift, cs);
            && (ref.None? <==> forall c :: c in cs ==> !q(c))
            && ((forall c :: c in cs && q(c) ==> ref == Some(c.ref)) <==>
                  forall c, o :: c in cs && q(c) && o in cs && q(o) ==> c.ref == o.ref)
  {
    hide Qualifies;
    var q := Qualifies(text, home, away, kickoff, drift);
    NearestIsNearest(kickoff, Filter(q, cs));
    forall c ensures c in Filter(q, cs) <==> c in cs && q(c) {
      FilterMember(q, cs, c);
    }
    assert Filter(q, cs) != [] ==> Filter(q, cs)[0] in Filter(q, cs);
  }

  // ---- reading a market in the row's orientation ----

  datatype Sides = Sides(home: Runner, draw: Option<Runner>, away: Runner)

  function Named(text: Text, team: string): Runner -> bool {
    (r: Runner) => !IsDraw(text, r) && r.name.Some? && text.canonical(r.name.value) == text.canonical(team)
  }

  function LastDraw(text: Text, rs: seq<Runner>): Option<Runner> {
    if rs == [] then None
    else if IsDraw(text, rs[|rs| - 1]) then Some(rs[|rs| - 1])
    else LastDraw(text, rs[..|rs| - 1])
  }

  /** Exactly one runner carries each team's name. */
  function SidesOf(text: Text, rs: seq<Runner>, home: string, away: string): Option<Sides> {
    var hs, aways := Filter(Named(text, home), rs), Filter(Named(text, away), rs);
    if Distinguishable(text, home, away) && |hs| == 1 && |aways| == 1
    then Some(Sides(hs[0], LastDraw(text, rs), aways[0])) else None
  }

  method HomeDrawAway(text: Text, rs: seq<Runner>, home: string, away: string) returns (sides: Option<Sides>)
    ensures sides == SidesOf(text, rs, home, away)
  {
    if !Distinguishable(text, home, away) {
      return None;
    }
    var h, d, a: Option<Runner> := None, None, None;
    for i := 0 to |rs|
      invariant Filter(Named(text, home), rs[..i]) == if h.Some? then [h.value] else []
      invariant Filter(Named(text, away), rs[..i]) == if a.Some? then [a.value] else []
      invariant d == LastDraw(text, rs[..i])
    {
      var r := rs[i];
      assert rs[..i + 1][..i] == rs[..i];
      FilterSnoc(Named(text, home), rs, i);
      FilterSnoc(Named(text, away), rs, i);
      if IsDraw(text, r) {
        d := Some(r);
      } else if r.name.Some? {
        var canon := text.canonical(r.name.value);
        if canon == text.canonical(home) {
          if h.Some? {
            SecondHit(Named(text, home), rs, i);
            return None;
          }
          h := Some(r);
        } else if canon == text.canonical(away) {
          if a.Some? {
            SecondHit(Named(text, away), rs, i);
            return None;
          }
          a := Some(r);
        }
      }
    }
    assert rs[..|rs|] == rs;
    if h.None? || a.None? {
      return None;
    }
    sides := Some(Sides(h.value, d, a.value));
  }

  lemma SecondHit<T>(p: T -> bool, s: seq<T>, i: nat)
    requires i < |s| && p(s[i]) && |Filter(p, s[..i])| == 1
    ensures |Filter(p, s)| >= 2
  {
    FilterSnoc(p, s, i);
    FilterAppend(p, s[..i + 1], s[i + 1..]);
    assert s == s[..i + 1] + s[i + 1..];
  }

  function ResultOf(s: Sides): string {
    if s.home.won == Some(true) then "H"
    else if s.away.won == Some(true) then "A"
    else if s.draw.Some? && s.draw.value.won == Some(true) then "D"
    else ""
  }

  // ---- the join ----

  datatype Outcome = Joined(row: Row) | Unmatched | Conflict

  const FTR_VALUES := {"H", "D", "A"}

  function MatchOddsOutcome(text: Text, m: MarketClose, ref: string, row: Row, home: string, away: string): Outcome {
    var s := SidesOf(text, m.runners, home, away);
    if s.None? || s.value.home.close.None? || s.value.away.close.None? then Unmatched
    else
      var ftr := text.strip(Get(row, "FTR"));
      if ResultOf(s.value) != "" && ftr in FTR_VALUES && ResultOf(s.value) != ftr then Conflict
      else
        var d := if s.value.draw.None? || s.value.draw.value.close.None? then None
                 else Some(text.show(s.value.draw.value.close.value));
        Joined(WithMatchOdds(row, text.show(s.value.home.close.value), d, text.show(s.value.away.close.value), ref))
  }

  function WithMatchOdds(row: Row, home: string, draw: Option<string>, away: string, ref: string): Row {
    var sided := row["PSCH" := home]["PSCA" := away]["MaxCH" := home]["MaxCA" := away];
    var drawn := if draw.Some? then sided["PSCD" := draw.value]["MaxCD" := draw.value] else sided;
    drawn["BetfairMarketId" := ref]
  }

  function IsOver(text: Text): Runner -> bool {
    (r: Runner) => r.id == OVER_25_SELECTION_ID
      || "over" <= text.lower(text.strip(if r.name.Some? then r.name.value else ""))
  }

  function IsUnder(text: Text): Runner -> bool {
    (r: Runner) => !IsOver(text)(r)
      && (r.id == UNDER_25_SELECTION_ID || "under" <= text.lower(text.strip(if r.name.Some? then r.name.value else "")))
  }

  /** The one Over and the one Under runner. */
  function OverUnderOf(text: Text, rs: seq<Runner>): Option<(Runner, Runner)> {
    var overs, unders := Filter(IsOver(text), rs), Filter(IsUnder(text), rs);
    if |overs| == 1 && |unders| == 1 then Some((overs[0], unders[0])) else None
  }

  method OverUnderClose(text: Text, rs: seq<Runner>) returns (ou: Option<(Runner, Runner)>)
    ensures ou == OverUnderOf(text, rs)
  {
    var over, under: Option<Runner> := None, None;
    for i := 0 to |rs|
      invariant Filter(IsOver(text), rs[..i]) == if over.Some? then [over.value] else []
      invariant Filter(IsUnder(text), rs[..i]) == if under.Some? then [under.value] else []
    {
      var r := rs[i];
      FilterSnoc(IsOver(text), rs, i);
      FilterSnoc(IsUnder(text), rs, i);
      var name := text.lower(text.strip(if r.name.Some? then r.name.value else ""));
      if r.id == OVER_25_SELECTION_ID || "over" <= name {
        if over.Some? {
          SecondHit(IsOver(text), rs, i);
          return None;
        }
        over := Some(r);
      } else if r.id == UNDER_25_SELECTION_ID || "under" <= name {
        if under.Some? {
          SecondHit(IsUnder(text), rs, i);
          return None;
        }
        under := Some(r);
      }
    }
    assert rs[..|rs|] == rs;
    if over.None? || under.None? {
      return None;
    }
    ou := Some((over.value, under.value));
  }

  /** The total goals of a row, when both scores are numbers. */
  function TotalGoals(text: Text, row: Row): Option<int> {
    if "FTHG" in row && "FTAG" in row && text.parseInt(row["FTHG"]).Some? && text.parseInt(row["FTAG"]).Some?
    then Some(text.parseInt(row["FTHG"]).value + text.parseInt(row["FTAG"]).value) else None
  }

  /** Some(true) when Over settled as the winner, Some(false) for Under. */
  function OverWon(ou: (Runner, Runner)): Option<bool> {
    if ou.0.won == Some(true) then Some(true) else if ou.1.won == Some(true) then Some(false) else None
  }

  function OverUnderOutcome(text: Text, m: MarketClose, ref: string, row: Row): Outcome {
    var ou := OverUnderOf(text, m.runners);
    if ou.None? || ou.value.0.close.None? || ou.value.1.close.None? then Unmatched
    else
      var total := TotalGoals(text, row);
      if OverWon(ou.value).Some? && total.Some? && (total.value >= 3) != OverWon(ou.value).value then Conflict
      else
        var over, under := text.show(ou.value.0.close.value), text.show(ou.value.1.close.value);
        Joined(row["PC>2.5" := over]["PC<2.5" := under]["MaxC>2.5" := over]["MaxC<2.5" := under]
              ["BetfairOuMarketId" := ref])
  }

  /** What becomes of a row when it is matched against every market. */
  function JoinRow(text: Text, kind: Kind, ix: Index, drift: int, row: Row): Outcome
    requires forall c :: c in ix.candidates ==> c.ref in ix.byRef
  {
    var home, away := text.strip(Get(row, "HomeTeam")), text.strip(Get(row, "AwayTeam"));
    var kickoff := text.parseDate(Get(row, "Date"));
    if home == "" || away == "" || kickoff.None? then Unmatched
    else
      var ref := FullScan(text, home, away, kickoff.value, drift, ix.candidates);
      if ref.None? then Unmatched
      else if kind.MatchOdds? then MatchOddsOutcome(text, ix.byRef[ref.value], ref.value, row, home, away)
      else OverUnderOutcome(text, ix.byRef[ref.value], ref.value, row)
  }

  function JoinedRows(os: seq<Outcome>): seq<Row> {
    if os == [] then []
    else JoinedRows(os[..|os| - 1]) + if os[|os| - 1].Joined? then [os[|os| - 1].row] else []
  }

  function CountOf(os: seq<Outcome>, o: Outcome): nat {
    if os == [] then 0 else CountOf(os[..|os| - 1], o) + if os[|os| - 1] == o then 1 else 0
  }

  function Outcomes(text: Text, kind: Kind, ix: Index, drift: int, rows: seq<Row>): (os: seq<Outcome>)
    requires forall c :: c in ix.candidates ==> c.ref in ix.byRef
    ensures |os| == |rows| && forall i :: 0 <= i < |rows| ==> os[i] == JoinRow(text, kind, ix, drift, rows[i])
  {
    seq(|rows|, i requires 0 <= i < |rows| => JoinRow(text, kind, ix, drift, rows[i]))
  }

  datatype JoinStats = JoinStats(rows: nat, markets: nat, joined: nat, unmatched: nat, conflicts: nat)

  /** One row against the index. */
  method JoinOne(
    text: Text, kind: Kind, byRef: map<string, MarketClose>, byDate: map<int, seq<Candidate>>, drift: int, row: Row,
    ghost ix: Index)
    returns (o: Outcome)
    requires byRef == ix.byRef && Buckets(byDate, ix.candidates) && forall c :: c in ix.candidates ==> c.ref in ix.byRef
    ensures o == JoinRow(text, kind, ix, drift, row)
  {
    hide SidesOf, OverUnderOf, ResultOf, OverWon, TotalGoals, Buckets, Nearest;
    var home, away := text.strip(Get(row, "HomeTeam")), text.strip(Get(row, "AwayTeam"));
    var kickoff := text.parseDate(Get(row, "Date"));
    if home == "" || away == "" || kickoff.None? {
      return Unmatched;
    }
    var local := Gather(byDate, Day(kickoff.value), drift, ix.candidates);
    var m := MatchEvent(text, home, away, kickoff.value, local, drift);
    IndexAgreesWithFullScan(text, home, away, kickoff.value, drift, ix.candidates);
    if m.None? {
      return Unmatched;
    }
    var market := byRef[m.value.ref];
    if kind.MatchOdds? {
      o := FillMatchOdds(text, market, m.value.ref, row, home, away);
    } else {
      o := FillOverUnder(text, market, m.value.ref, row);
    }
  }

  method FillMatchOdds(text: Text, market: MarketClose, ref: string, row: Row, home: string, away: string)
    returns (o: Outcome)
    ensures o == MatchOddsOutcome(text, market, ref, row, home, away)
  {
    var s := HomeDrawAway(text, market.runners, home, away);
    if s.None? || s.value.home.close.None? || s.value.away.close.None? {
      return Unmatched;
    }
    hide SidesOf;
    var ftr := text.strip(Get(row, "FTR"));
    if ResultOf(s.value) != "" && ftr in FTR_VALUES && ResultOf(s.value) != ftr {
      return Conflict;
    }
    var filled := row;
    filled := filled["PSCH" := text.show(s.value.home.close.value)];
    filled := filled["PSCA" := text.show(s.value.away.close.value)];
    filled := filled["MaxCH" := text.show(s.value.home.close.value)];
    filled := filled["MaxCA" := text.show(s.value.away.close.value)];
    if s.value.draw.Some? && s.value.draw.value.close.Some? {
      filled := filled["PSCD" := text.show(s.value.draw.value.close.value)];
      filled := filled["MaxCD" := text.show(s.value.draw.value.close.value)];
    }
    o := Joined(filled["BetfairMarketId" := ref]);
  }

  method FillOverUnder(text: Text, market: MarketClose, ref: string, row: Row) returns (o: Outcome)
    ensures o == OverUnderOutcome(text, market, ref, row)
  {
    var ou := OverUnderClose(text, market.runners);
    if ou.None? || ou.value.0.close.None? || ou.value.1.close.None? {
      return Unmatched;
    }
    hide OverUnderOf;
    var total := TotalGoals(text, row);
    if OverWon(ou.value).Some? && total.Some? && (total.value >= 3) != OverWon(ou.value).value {
      return Conflict;
    }
    var over, under := text.show(ou.value.0.close.value), text.show(ou.value.1.close.value);
    o := Joined(row["PC>2.5" := over]["PC<2.5" := under]["MaxC>2.5" := over]["MaxC<2.5" := under]
                  ["BetfairOuMarketId" := ref]);
  }

  /** The indexed join does to every row what matching it against all markets would do. */
  method AttachClose(
    text: Text, kind: Kind, rows: seq<Row>, markets: seq<MarketClose>, drift: int)
    returns (joined: seq<Row>, stats: JoinStats)
    ensures var os := Outcomes(text, kind, IndexOf(text, kind, markets), drift, rows);
            && joined == JoinedRows(os)
            && stats == JoinStats(|rows|, |markets|, |joined|, CountOf(os, Unmatched), CountOf(os, Conflict))
    ensures stats.joined + stats.unmatched + stats.conflicts == stats.rows
  {
    hide JoinRow;
    var byRef, byDate := BuildIndex(text, kind, markets);
    ghost var ix := IndexOf(text, kind, markets);
    ghost var os := Outcomes(text, kind, ix, drift, rows);
    joined := [];
    var unmatched, conflicts := 0, 0;
    for i := 0 to |rows|
      invariant joined == JoinedRows(os[..i]) && unmatched == CountOf(os[..i], Unmatched)
                && conflicts == CountOf(os[..i], Conflict)
    {
      assert os[..i + 1][..i] == os[..i];
      var o := JoinOne(text, kind, byRef, byDate, drift, rows[i], ix);
      match o {
        case Joined(filled) => joined := joined + [filled];
        case Unmatched => unmatched := unmatched + 1;
        case Conflict => conflicts := conflicts + 1;
      }
    }
    assert os[..|rows|] == os;
    EveryRowHasOneFate(os);
    stats := JoinStats(|rows|, |markets|, |joined|, unmatched, conflicts);
  }

  lemma {:induction false} EveryRowHasOneFate(os: seq<Outcome>)
    ensures |JoinedRows(os)| + CountOf(os, Unmatched) + CountOf(os, Conflict) == |os|
  {
    if os != [] { EveryRowHasOneFate(os[..|os| - 1]); }
  }

  const MATCH_ODDS_SLOTS := {"PSCH", "PSCD", "PSCA", "MaxCH", "MaxCD", "MaxCA", "BetfairMarketId"}
  const OVER_UNDER_SLOTS := {"PC>2.5", "PC<2.5", "MaxC>2.5", "MaxC<2.5", "BetfairOuMarketId"}

  /** The row `out` is `row` but for these columns. */
  ghost predicate ChangesOnly(row: Row, out: Row, slots: set<string>) {
    && (forall key :: key !in slots ==> (key in out <==> key in row) && (key in row ==> out[key] == row[key]))
    && (forall key :: key in row ==> key in out)
  }

  function FilledFrom(text: Text, kind: Kind, m: MarketClose, ref: string, row: Row): Outcome {
    if kind.OverUnder? then OverUnderOutcome(text, m, ref, row)
    else MatchOddsOutcome(text, m, ref, row, text.strip(Get(row, "HomeTeam")), text.strip(Get(row, "AwayTeam")))
  }

  /** `out` is `row` with the closes of a match-odds market under their own names, and the market did not settle
      against a known result. */
  ghost predicate HonestMatchOdds(text: Text, m: MarketClose, ref: string, row: Row, out: Row) {
    var s := SidesOf(text, m.runners, text.strip(Get(row, "HomeTeam")), text.strip(Get(row, "AwayTeam")));
    && ChangesOnly(row, out, MATCH_ODDS_SLOTS)
    && s.Some? && s.value.home.close.Some? && s.value.away.close.Some?
    && (ResultOf(s.value) == "" || text.strip(Get(row, "FTR")) !in FTR_VALUES
        || ResultOf(s.value) == text.strip(Get(row, "FTR")))
    && {"PSCH", "PSCA", "MaxCH", "MaxCA", "BetfairMarketId"} <= out.Keys
    && out["PSCH"] == out["MaxCH"] == text.show(s.value.home.close.value)
    && out["PSCA"] == out["MaxCA"] == text.show(s.value.away.close.value)
    && out["BetfairMarketId"] == ref
    && (s.value.draw.Some? && s.value.draw.value.close.Some? ==>
          && {"PSCD", "MaxCD"} <= out.Keys
          && out["PSCD"] == out["MaxCD"] == text.show(s.value.draw.value.close.value))
  }

  /** The same for an over/under market, judged against the row's total goals. */
  ghost predicate HonestOverUnder(text: Text, m: MarketClose, ref: string, row: Row, out: Row) {
    var ou := OverUnderOf(text, m.runners);
    && ChangesOnly(row, out, OVER_UNDER_SLOTS)
    && ou.Some? && ou.value.0.close.Some? && ou.value.1.close.Some?
    && (OverWon(ou.value).None? || TotalGoals(text, row).None?
        || (OverWon(ou.value).value <==> TotalGoals(text, row).value >= 3))
    && OVER_UNDER_SLOTS <= out.Keys
    && out["PC>2.5"] == out["MaxC>2.5"] == text.show(ou.value.0.close.value)
    && out["PC<2.5"] == out["MaxC<2.5"] == text.show(ou.value.1.close.value)
    && out["BetfairOuMarketId"] == ref
  }

  ghost predicate Honest(text: Text, kind: Kind, m: MarketClose, ref: string, row: Row, out: Row) {
    if kind.MatchOdds? then HonestMatchOdds(text, m, ref, row, out) else HonestOverUnder(text, m, ref, row, out)
  }

  lemma WrittenSlots(row: Row, home: string, draw: Option<string>, away: string, ref: string)
    ensures var out := WithMatchOdds(row, home, draw, away, ref);
            && ChangesOnly(row, out, MATCH_ODDS_SLOTS)
            && {"PSCH", "PSCA", "MaxCH", "MaxCA", "BetfairMarketId"} <= out.Keys
            && out["PSCH"] == out["MaxCH"] == home && out["PSCA"] == out["MaxCA"] == away
            && out["BetfairMarketId"] == ref
            && (draw.Some? ==> {"PSCD", "MaxCD"} <= out.Keys && out["PSCD"] == out["MaxCD"] == draw.value)
  {
  }

  lemma MatchOddsFillIsHonest(text: Text, m: MarketClose, ref: string, row: Row)
    requires FilledFrom(text, MatchOdds, m, ref, row).Joined?
    ensures HonestMatchOdds(text, m, ref, row, FilledFrom(text, MatchOdds, m, ref, row).row)
  {
    hide SidesOf, ResultOf, WithMatchOdds, ChangesOnly;
    var s := SidesOf(text, m.runners, text.strip(Get(row, "HomeTeam")), text.strip(Get(row, "AwayTeam"))).value;
    var draw := if s.draw.None? || s.draw.value.close.None? then None else Some(text.show(s.draw.value.close.value));
    WrittenSlots(row, text.show(s.home.close.value), draw, text.show(s.away.close.value), ref);
  }

  lemma OverUnderFillIsHonest(text: Text, m: MarketClose, ref: string, row: Row)
    requires FilledFrom(text, OverUnder, m, ref, row).Joined?
    ensures HonestOverUnder(text, m, ref, row, FilledFrom(text, OverUnder, m, ref, row).row)
  {
    hide OverUnderOf, OverWon;
  }

  lemma {:induction false} Origin(os: seq<Outcome>, out: Row) returns (i: nat)
    requires out in JoinedRows(os)
    ensures i < |os| && os[i] == Joined(out)
  {
    i := |os| - 1;
    if os[i] != Joined(out) {
      i := Origin(os[..i], out);
    }
  }

  /** Everything the join returns is one of its rows, changed in nothing but the closing slots and the market id,
      with the closes of a listed market that did not settle against the row's own known result or goals. */
  lemma EveryJoinedRowIsHonest(
    text: Text, kind: Kind, markets: seq<MarketClose>, drift: int, rows: seq<Row>, out: Row)
    requires out in JoinedRows(Outcomes(text, kind, IndexOf(text, kind, markets), drift, rows))
    ensures var ix := IndexOf(text, kind, markets);
            exists i, ref :: 0 <= i < |rows| && JoinRow(text, kind, ix, drift, rows[i]) == Joined(out)
              && ref in ix.byRef && ix.byRef[ref] in markets && Honest(text, kind, ix.byRef[ref], ref, rows[i], out)
  {
    hide IndexOf, FullScan, MatchOddsOutcome, OverUnderOutcome, HonestMatchOdds, HonestOverUnder;
    var ix := IndexOf(text, kind, markets);
    var i := Origin(Outcomes(text, kind, ix, drift, rows), out);
    var row := rows[i];
    var home, away := text.strip(Get(row, "HomeTeam")), text.strip(Get(row, "AwayTeam"));
    var ref := FullScan(text, home, away, text.parseDate(Get(row, "Date")).value, drift, ix.candidates).value;
    var c :| c in ix.candidates && c.ref == ref;
    ListedBehind(text, kind, markets, c);
    if kind.MatchOdds? {
      MatchOddsFillIsHonest(text, ix.byRef[ref], ref, row);
    } else {
      OverUnderFillIsHonest(text, ix.byRef[ref], ref, row);
    }
  }

  lemma ListedBehind(text: Text, kind: Kind, markets: seq<MarketClose>, c: Candidate)
    requires c in IndexOf(text, kind, markets).candidates
    ensures IndexOf(text, kind, markets).byRef[c.ref] in markets
  {
    var cs := IndexOf(text, kind, markets).candidates;
    var i :| 0 <= i < |cs| && cs[i] == c;
    var j := LastWithRef(cs, i);
    LastMarketWins(text, kind, markets, j);
    FilterMember(IsIndexed(text, kind), markets, Sources(text, kind, markets)[j]);
  }

  // ---- whose market a reference stands for ----

  function IsIndexed(text: Text, kind: Kind): MarketClose -> bool {
    (m: MarketClose) => m.kickoff.Some? && TeamsOf(text, kind, m).Some?
  }

  /** The markets that entered the index, in the order of their candidates. */
  function Sources(text: Text, kind: Kind, markets: seq<MarketClose>): seq<MarketClose> {
    Filter(IsIndexed(text, kind), markets)
  }

  /** The candidate was built from this market: its fixture, its kickoff and its id or a running number. */
  predicate BuiltFrom(text: Text, kind: Kind, c: Candidate, m: MarketClose, n: nat) {
    && m.kickoff == Some(c.kickoff) && TeamsOf(text, kind, m) == Some((c.home, c.away))
    && c.ref == RefOf(text, kind, m, n)
  }

  ghost predicate MadeOf(text: Text, kind: Kind, c: Candidate, m: MarketClose, below: nat) {
    exists n: nat :: n < below && BuiltFrom(text, kind, c, m, n)
  }

  lemma SourcesSnoc(text: Text, kind: Kind, markets: seq<MarketClose>)
    requires markets != []
    ensures var n := |markets| - 1;
            Sources(text, kind, markets) ==
              Sources(text, kind, markets[..n]) + if IsIndexed(text, kind)(markets[n]) then [markets[n]] else []
  {
    FilterSnoc(IsIndexed(text, kind), markets, |markets| - 1);
    assert markets[..|markets|] == markets;
  }

  lemma {:induction false} CandidatesAreSources(text: Text, kind: Kind, markets: seq<MarketClose>)
    ensures var ix, src := IndexOf(text, kind, markets), Sources(text, kind, markets);
            && |ix.candidates| == |src| && |ix.byRef| <= |src|
            && forall i :: 0 <= i < |src| ==> MadeOf(text, kind, ix.candidates[i], src[i], |src|)
  {
    hide TeamsOf, RefOf;
    if markets != [] {
      var n := |markets| - 1;
      CandidatesAreSources(text, kind, markets[..n]);
      SourcesSnoc(text, kind, markets);
      var ix, src := IndexOf(text, kind, markets[..n]), Sources(text, kind, markets[..n]);
      if IsIndexed(text, kind)(markets[n]) {
        var ix' := IndexOf(text, kind, markets);
        assert BuiltFrom(text, kind, ix'.candidates[|src|], markets[n], |ix.byRef|);
        forall i | 0 <= i < |src| ensures MadeOf(text, kind, ix'.candidates[i], src[i], |src| + 1) {
          assert MadeOf(text, kind, ix.candidates[i], src[i], |src|);
        }
      }
    }
  }

  /** No candidate after the `i`-th has its reference. */
  predicate IsLast(cs: seq<Candidate>, i: nat)
    requires i < |cs|
  {
    forall j :: i < j < |cs| ==> cs[j].ref != cs[i].ref
  }

  /** Behind a reference stands the last market that was indexed under it. */
  lemma {:induction false} LastMarketWins(text: Text, kind: Kind, markets: seq<MarketClose>, i: nat)
    requires var cs := IndexOf(text, kind, markets).candidates; i < |cs| && IsLast(cs, i)
    ensures |IndexOf(text, kind, markets).candidates| == |Sources(text, kind, markets)|
    ensures var ix := IndexOf(text, kind, markets);
            ix.byRef[ix.candidates[i].ref] == Sources(text, kind, markets)[i]
  {
    hide TeamsOf, RefOf;
    var n := |markets| - 1;
    CandidatesAreSources(text, kind, markets);
    CandidatesAreSources(text, kind, markets[..n]);
    SourcesSnoc(text, kind, markets);
    var ix, ix' := IndexOf(text, kind, markets[..n]), IndexOf(text, kind, markets);
    if i < |ix.candidates| {
      assert IsLast(ix.candidates, i) by {
        assert forall j :: 0 <= j < |ix.candidates| ==> ix'.candidates[j] == ix.candidates[j];
      }
      LastMarketWins(text, kind, markets[..n], i);
      assert |ix.candidates| < |ix'.candidates| ==> ix'.candidates[|ix.candidates|].ref != ix.candidates[i].ref;
    }
  }

  lemma {:induction false} LastWithRef(cs: seq<Candidate>, i: nat) returns (j: nat)
    requires i < |cs|
    ensures i <= j < |cs| && cs[j].ref == cs[i].ref && IsLast(cs, j)
    decreases |cs| - i
  {
    j := i;
    if !IsLast(cs, i) {
      var k :| i < k < |cs| && cs[k].ref == cs[i].ref;
      j := LastWithRef(cs, k);
    }
  }

  /** Every candidate finds its own market behind its reference. */
  ghost predicate KeepsOwnMarkets(text: Text, kind: Kind, markets: seq<MarketClose>) {
    var ix, src := IndexOf(text, kind, markets), Sources(text, kind, markets);
    forall i :: 0 <= i < |ix.candidates| && i < |src| ==> ix.byRef[ix.candidates[i].ref] == src[i]
  }

  /** They all do exactly when no reference is repeated for another market. */
  lemma OwnMarketsExactly(text: Text, kind: Kind, markets: seq<MarketClose>)
    ensures var cs, src := IndexOf(text, kind, markets).candidates, Sources(text, kind, markets);
            && |cs| == |src|
            && (KeepsOwnMarkets(text, kind, markets) <==>
                  forall i, j :: 0 <= i < j < |cs| && cs[i].ref == cs[j].ref ==> src[i] == src[j])
  {
    hide IndexOf, Sources, MadeOf;
    var ix, src := IndexOf(text, kind, markets), Sources(text, kind, markets);
    var cs := ix.candidates;
    CandidatesAreSources(text, kind, markets);
    if forall i, j :: 0 <= i < j < |cs| && cs[i].ref == cs[j].ref ==> src[i] == src[j] {
      forall i | 0 <= i < |cs| ensures ix.byRef[cs[i].ref] == src[i] {
        var j := LastWithRef(cs, i);
        LastMarketWins(text, kind, markets, j);
      }
    }
  }

  /** Market ids are not repeated, and a running number looks like no other number and no market id. */
  ghost predicate DistinctIds(text: Text, kind: Kind, markets: seq<MarketClose>) {
    && (forall i, j :: 0 <= i < j < |markets| && markets[i].marketId == markets[j].marketId ==>
       markets[i].marketId == "")
    && (forall a: nat, b: nat :: text.anonymousRef(kind, a) == text.anonymousRef(kind, b) ==> a == b)
    && (forall i, n: nat :: 0 <= i < |markets| ==> markets[i].marketId != text.anonymousRef(kind, n))
  }

  /** With distinct ids every reference is new when it enters the index. */
  lemma {:induction false} DistinctIdsGiveNewRefs(text: Text, kind: Kind, markets: seq<MarketClose>)
    requires DistinctIds(text, kind, markets)
    ensures var ix := IndexOf(text, kind, markets);
            && |ix.byRef| == |ix.candidates|
            && (forall ref :: ref in ix.byRef ==> KnownRef(text, kind, markets, |ix.byRef|, ref))
            && (forall i, j :: 0 <= i < j < |ix.candidates| ==> ix.candidates[i].ref != ix.candidates[j].ref)
  {
    hide TeamsOf;
    if markets != [] {
      var n := |markets| - 1;
      DistinctIdsGiveNewRefs(text, kind, markets[..n]);
      var ix := IndexOf(text, kind, markets[..n]);
      forall ref | ref in ix.byRef ensures KnownRef(text, kind, markets, |ix.byRef|, ref) {
        assert KnownRef(text, kind, markets[..n], |ix.byRef|, ref);
      }
      var ref := RefOf(text, kind, markets[n], |ix.byRef|);
      forall known | known in ix.byRef ensures known != ref {
        KnownIsNotNew(text, kind, markets, |ix.byRef|, known);
      }
    }
  }

  lemma KnownIsNotNew(text: Text, kind: Kind, markets: seq<MarketClose>, below: nat, known: string)
    requires markets != [] && DistinctIds(text, kind, markets)
    requires KnownRef(text, kind, markets[..|markets| - 1], below, known)
    ensures known != RefOf(text, kind, markets[|markets| - 1], below)
  {
  }

  ghost predicate KnownRef(text: Text, kind: Kind, markets: seq<MarketClose>, below: nat, ref: string) {
    || (exists i :: 0 <= i < |markets| && markets[i].marketId == ref && ref != "")
    || (exists n: nat :: n < below && ref == text.anonymousRef(kind, n))
  }

  /** With distinct ids every joined row was filled from the very market its candidate was built from: one about
      the row's fixture within the window, and nearest to its kickoff among those. */
  lemma JoinedRowsComeFromTheirMarket(text: Text, kind: Kind, markets: seq<MarketClose>, drift: int, row: Row)
    requires JoinRow(text, kind, IndexOf(text, kind, markets), drift, row).Joined? && DistinctIds(text, kind, markets)
    ensures var cs, src := IndexOf(text, kind, markets).candidates, Sources(text, kind, markets);
            var home, away := text.strip(Get(row, "HomeTeam")), text.strip(Get(row, "AwayTeam"));
            && |cs| == |src| && text.parseDate(Get(row, "Date")).Some?
            && var q := Qualifies(text, home, away, text.parseDate(Get(row, "Date")).value, drift);
            exists i :: 0 <= i < |cs| && q(cs[i]) && MadeOf(text, kind, cs[i], src[i], |src|)
              && (forall o :: o in cs && q(o) ==> !Nearer(text.parseDate(Get(row, "Date")).value, o, cs[i]))
              && JoinRow(text, kind, IndexOf(text, kind, markets), drift, row) ==
                   FilledFrom(text, kind, src[i], cs[i].ref, row)
  {
    hide MatchOddsOutcome, OverUnderOutcome, Nearer, Qualifies, IndexOf, Sources, MadeOf, DistinctIds;
    var ix, src := IndexOf(text, kind, markets), Sources(text, kind, markets);
    var home, away := text.strip(Get(row, "HomeTeam")), text.strip(Get(row, "AwayTeam"));
    var kickoff := text.parseDate(Get(row, "Date")).value;
    var q := Qualifies(text, home, away, kickoff, drift);
    NearestIsNearest(kickoff, Filter(q, ix.candidates));
    forall o ensures o in Filter(q, ix.candidates) <==> o in ix.candidates && q(o) {
      FilterMember(q, ix.candidates, o);
    }
    var c := Nearest(kickoff, Filter(q, ix.candidates)).value;
    var i :| 0 <= i < |ix.candidates| && ix.candidates[i] == c;
    CandidatesAreSources(text, kind, markets);
    OwnMarketOf(text, kind, markets, i);
  }

  lemma OwnMarketOf(text: Text, kind: Kind, markets: seq<MarketClose>, i: nat)
    requires DistinctIds(text, kind, markets) && i < |IndexOf(text, kind, markets).candidates|
    ensures |IndexOf(text, kind, markets).candidates| == |Sources(text, kind, markets)|
    ensures var ix := IndexOf(text, kind, markets);
            ix.byRef[ix.candidates[i].ref] == Sources(text, kind, markets)[i]
  {
    hide IndexOf, Sources, DistinctIds, KnownRef;
    DistinctIdsGiveNewRefs(text, kind, markets);
    LastMarketWins(text, kind, markets, i);
  }

  /** Without that an over/under row can carry another fixture's close: of two markets under one id, the row's
      own one is matched and the later one is read. */
  lemma RepeatedIdFillsFromAnotherFixture(
    text: Text, own: MarketClose, other: MarketClose, drift: int, row: Row, kickoff: int)
    requires own.marketId == other.marketId != "" && own.kickoff.Some? && other.kickoff.Some?
    requires text.splitTeams(own.eventName).Some? && text.splitTeams(other.eventName).Some?
    requires text.parseDate(Get(row, "Date")) == Some(kickoff)
    requires var home, away := text.strip(Get(row, "HomeTeam")), text.strip(Get(row, "AwayTeam"));
             var mine, theirs := text.splitTeams(own.eventName).value, text.splitTeams(other.eventName).value;
             && Distinguishable(text, home, away) && home != "" && away != "" && mine == (home, away)
             && InWindow(kickoff, own.kickoff.value, drift)
             && text.canonical(theirs.0) != text.canonical(home)
    ensures JoinRow(text, OverUnder, IndexOf(text, OverUnder, [own, other]), drift, row)
         == OverUnderOutcome(text, other, own.marketId, row)
  {
    hide OverUnderOutcome;
    var mine, theirs := text.splitTeams(own.eventName).value, text.splitTeams(other.eventName).value;
    var c := Candidate(own.marketId, mine.0, mine.1, own.kickoff.value);
    var d := Candidate(own.marketId, theirs.0, theirs.1, other.kickoff.value);
    assert [own, other][..1] == [own] && [own][..0] == [];
    assert IndexOf(text, OverUnder, []) == Index(map[], []);
    assert IndexOf(text, OverUnder, [own]) == Index(map[own.marketId := own], [] + [c]);
    var ix := IndexOf(text, OverUnder, [own, other]);
    assert ix.candidates == [c, d] && ix.byRef[own.marketId] == other;
    var q := Qualifies(text, mine.0, mine.1, kickoff, drift);
    assert q(c) && !q(d);
    assert Filter(q, [c, d]) == [c] by {
      assert [c, d][1..] == [d] && [d][1..] == [];
    }
    assert [c][..0] == [];
    assert Nearest(kickoff, []) == None;
    assert Nearest(kickoff, [c]) == Some(c);
  }

  // ---- a row's fate, told from the row and the runners ----

  /** Both teams are known and different, and the candidate names them in this order, at most so many calendar days
      away. */
  ghost predicate Fits(text: Text, home: string, away: string, kickoff: int, drift: int, c: Candidate) {
    var h, a := text.canonical(home), text.canonical(away);
    && h != "" && a != "" && h != a && text.canonical(c.home) == h && text.canonical(c.away) == a
    && kickoff / 86400 - c.kickoff / 86400 <= drift && c.kickoff / 86400 - kickoff / 86400 <= drift
  }

  /** Dictionary order, strictly. */
  ghost predicate Precedes(a: string, b: string) {
    exists k: nat :: PartAt(a, b, k)
  }

  ghost predicate PartAt(a: string, b: string, k: nat) {
    && k <= |a| && k < |b| && a[..k] == b[..k]
    && (k == |a| || (k < |a| && a[k] < b[k]))
  }

  /** Fewer seconds from the kickoff, or as many and an earlier reference. */
  ghost predicate Closer(kickoff: int, a: Candidate, b: Candidate) {
    var x := if a.kickoff < kickoff then kickoff - a.kickoff else a.kickoff - kickoff;
    var y := if b.kickoff < kickoff then kickoff - b.kickoff else b.kickoff - kickoff;
    x < y || (x == y && Precedes(a.ref, b.ref))
  }

  lemma FitsExactly(text: Text, home: string, away: string, kickoff: int, drift: int, c: Candidate)
    ensures Qualifies(text, home, away, kickoff, drift)(c) <==> Fits(text, home, away, kickoff, drift, c)
  {
  }

  lemma {:induction false} PrecedesExactly(a: string, b: string)
    ensures Precedes(a, b) <==> !StringLe(b, a)
  {
    if a == "" || b == "" || a[0] != b[0] {
      assert PartAt(a, b, 0) <==> !StringLe(b, a);
      forall k: nat | k > 0 ensures !PartAt(a, b, k) {
        if k <= |a| && k <= |b| { assert a[..k][0] == a[0] && b[..k][0] == b[0]; }
      }
    } else {
      PrecedesExactly(a[1..], b[1..]);
      if k: nat :| PartAt(a, b, k) {
        assert k > 0 && a[1..][..k - 1] == a[..k][1..] && b[1..][..k - 1] == b[..k][1..];
        assert PartAt(a[1..], b[1..], k - 1);
      }
      if k: nat :| PartAt(a[1..], b[1..], k) {
        assert a[..k + 1] == [a[0]] + a[1..][..k] && b[..k + 1] == [b[0]] + b[1..][..k];
        assert PartAt(a, b, k + 1);
      }
    }
  }

  lemma CloserExactly(kickoff: int, a: Candidate, b: Candidate)
    ensures Nearer(kickoff, a, b) <==> Closer(kickoff, a, b)
  {
    PrecedesExactly(a.ref, b.ref);
  }

  /** The runner bears the team's name and is not the draw. */
  ghost predicate Bears(text: Text, r: Runner, team: string) {
    && r.id != 58805 && r.name.Some? && text.canonical(r.name.value) != "draw"
    && text.canonical(r.name.value) == text.canonical(team)
  }

  ghost predicate Draws(text: Text, r: Runner) {
    r.id == 58805 || (r.name.Some? && text.canonical(r.name.value) == "draw")
  }

  /** The runner at this position, and no other, is such a runner. */
  ghost predicate OnlyAt(such: Runner -> bool, rs: seq<Runner>, i: nat) {
    i < |rs| && such(rs[i]) && forall k :: 0 <= k < |rs| && k != i ==> !such(rs[k])
  }

  ghost function Bearing(text: Text, team: string): Runner -> bool { (r: Runner) => Bears(text, r, team) }

  /** The last draw runner. */
  ghost predicate LastDraws(text: Text, rs: seq<Runner>, i: nat) {
    i < |rs| && Draws(text, rs[i]) && forall k :: i < k < |rs| ==> !Draws(text, rs[k])
  }

  lemma OnlyExactly(such: Runner -> bool, p: Runner -> bool, rs: seq<Runner>)
    requires forall r :: p(r) <==> such(r)
    ensures |Filter(p, rs)| == 1 <==> exists i: nat :: OnlyAt(such, rs, i)
    ensures forall i: nat :: OnlyAt(such, rs, i) ==> Filter(p, rs) == [rs[i]]
  {
    forall i: nat | OnlyAt(such, rs, i) ensures Filter(p, rs) == [rs[i]] { StableSort.OneLeft(p, rs, i); }
    if |Filter(p, rs)| == 1 {
      var r := Filter(p, rs)[0];
      FilterMember(p, rs, r);
      var i :| 0 <= i < |rs| && rs[i] == r;
      forall k | 0 <= k < |rs| && k != i ensures !p(rs[k]) {
        if p(rs[k]) { TwoKept(p, rs, if k < i then k else i, if k < i then i else k); }
      }
      assert OnlyAt(such, rs, i);
    }
  }

  lemma TwoKept(p: Runner -> bool, rs: seq<Runner>, i: nat, k: nat)
    requires i < k < |rs| && p(rs[i]) && p(rs[k])
    ensures |Filter(p, rs)| >= 2
  {
    FilterAt(p, rs, k);
    FilterAt(p, rs[..k], i);
    assert rs[..k][..i] == rs[..i];
  }

  lemma {:induction false} LastDrawExactly(text: Text, rs: seq<Runner>)
    ensures LastDraw(text, rs) == None <==> forall i :: 0 <= i < |rs| ==> !Draws(text, rs[i])
    ensures forall i: nat :: LastDraws(text, rs, i) ==> LastDraw(text, rs) == Some(rs[i])
    ensures LastDraw(text, rs).Some? ==> exists i: nat :: LastDraws(text, rs, i)
  {
    if rs != [] {
      var n := |rs| - 1;
      var init := rs[..n];
      LastDrawExactly(text, init);
      if Draws(text, rs[n]) {
        assert LastDraws(text, rs, n);
      } else {
        forall i: nat ensures LastDraws(text, rs, i) <==> LastDraws(text, init, i) {
        }
      }
    }
  }

  /** The home and the away runner of a row's fixture, each the only one of its name. */
  ghost predicate Pair(text: Text, rs: seq<Runner>, home: string, away: string, h: nat, a: nat) {
    && text.canonical(home) != "" && text.canonical(away) != "" && text.canonical(home) != text.canonical(away)
    && OnlyAt(Bearing(text, home), rs, h) && OnlyAt(Bearing(text, away), rs, a)
  }

  lemma PairExactly(text: Text, rs: seq<Runner>, home: string, away: string)
    ensures SidesOf(text, rs, home, away) == None <==> forall h: nat, a: nat :: !Pair(text, rs, home, away, h, a)
    ensures forall h: nat, a: nat :: Pair(text, rs, home, away, h, a) ==>
              SidesOf(text, rs, home, away) == Some(Sides(rs[h], LastDraw(text, rs), rs[a]))
  {
    OnlyExactly(Bearing(text, home), Named(text, home), rs);
    OnlyExactly(Bearing(text, away), Named(text, away), rs);
    hide OnlyAt, Filter, LastDraw, Bearing, Named;
    if h: nat, a: nat :| OnlyAt(Bearing(text, home), rs, h) && OnlyAt(Bearing(text, away), rs, a) {
      assert Distinguishable(text, home, away) ==> Pair(text, rs, home, away, h, a);
    }
  }

  /** What a match-odds market says of the result: its winner's letter, the home side first. */
  ghost predicate Settles(text: Text, rs: seq<Runner>, h: nat, a: nat, letter: string)
    requires h < |rs| && a < |rs|
  {
    || (letter == "H" && rs[h].won == Some(true))
    || (letter == "A" && rs[h].won != Some(true) && rs[a].won == Some(true))
    || (letter == "D" && rs[h].won != Some(true) && rs[a].won != Some(true)
        && exists d: nat :: LastDraws(text, rs, d) && rs[d].won == Some(true))
  }

  /** The value of a cell; a missing one reads as blank. */
  ghost function Cell(row: Row, key: string): string { if key !in row then "" else row[key] }

  /** What a match-odds market does to a row: nothing unless both sides are told and closed; a conflict if it
      settled on a letter other than the row's own; and otherwise it writes these cells and no more. */
  lemma MatchOddsExactly(text: Text, m: MarketClose, ref: string, row: Row, home: string, away: string)
    ensures var o, ftr := MatchOddsOutcome(text, m, ref, row, home, away), text.strip(Cell(row, "FTR"));
            && ((forall h: nat, a: nat :: !Pair(text, m.runners, home, away, h, a)) ==> o == Unmatched)
            && (forall h: nat, a: nat :: Pair(text, m.runners, home, away, h, a) ==>
                  MatchOddsWrites(text, m.runners, h, a, ref, row, ftr, o))
  {
    var rs := m.runners;
    PairExactly(text, rs, home, away);
    LastDrawExactly(text, rs);
    hide SidesOf, LastDraw, LastDraws, Pair, MatchOddsWrites;
    forall h: nat, a: nat | Pair(text, rs, home, away, h, a)
      ensures MatchOddsWrites(text, rs, h, a, ref, row, text.strip(Cell(row, "FTR")),
                MatchOddsOutcome(text, m, ref, row, home, away)) {
      PairPlaces(text, rs, home, away, h, a);
      WritesMatchOdds(text, m, ref, row, home, away, h, a);
    }
  }

  lemma PairPlaces(text: Text, rs: seq<Runner>, home: string, away: string, h: nat, a: nat)
    requires Pair(text, rs, home, away, h, a)
    ensures h < |rs| && a < |rs|
  {
  }

  ghost predicate MatchOddsWrites(
    text: Text, rs: seq<Runner>, h: nat, a: nat, ref: string, row: Row, ftr: string, o: Outcome)
  {
    && h < |rs| && a < |rs|
    && var disagrees := ftr in {"H", "D", "A"} && exists letter :: Settles(text, rs, h, a, letter) && letter != ftr;
       if rs[h].close == None || rs[a].close == None then o == Unmatched
       else if disagrees then o == Conflict
       else
         var hc, ac := text.show(rs[h].close.value), text.show(rs[a].close.value);
         var sides := map["PSCH" := hc, "MaxCH" := hc, "PSCA" := ac, "MaxCA" := ac, "BetfairMarketId" := ref];
         && o.Joined?
         && (forall d: nat :: LastDraws(text, rs, d) && rs[d].close.Some? ==>
               var dc := text.show(rs[d].close.value);
               o.row == row + sides + map["PSCD" := dc, "MaxCD" := dc])
         && ((forall d: nat :: LastDraws(text, rs, d) ==> rs[d].close.None?) ==> o.row == row + sides)
  }

  lemma WritesMatchOdds(
    text: Text, m: MarketClose, ref: string, row: Row, home: string, away: string, h: nat, a: nat)
    requires h < |m.runners| && a < |m.runners|
    requires SidesOf(text, m.runners, home, away) == Some(Sides(m.runners[h], LastDraw(text, m.runners), m.runners[a]))
    ensures MatchOddsWrites(text, m.runners, h, a, ref, row, text.strip(Cell(row, "FTR")),
              MatchOddsOutcome(text, m, ref, row, home, away))
  {
    var rs := m.runners;
    LastDrawExactly(text, rs);
    var s := Sides(rs[h], LastDraw(text, rs), rs[a]);
    hide SidesOf, LastDraw, LastDraws;
    ResultExactly(text, rs, h, a, text.strip(Cell(row, "FTR")));
    hide Settles, ResultOf;
    if s.home.close.Some? && s.away.close.Some? {
      var hc, ac := text.show(s.home.close.value), text.show(s.away.close.value);
      var d := if s.draw.None? || s.draw.value.close.None? then None else Some(text.show(s.draw.value.close.value));
      CellsWritten(row, hc, d, ac, ref);
      hide WithMatchOdds;
    }
  }

  lemma ResultExactly(text: Text, rs: seq<Runner>, h: nat, a: nat, ftr: string)
    requires h < |rs| && a < |rs|
    ensures var s := Sides(rs[h], LastDraw(text, rs), rs[a]);
            (exists letter :: Settles(text, rs, h, a, letter) && letter != ftr)
              <==> ResultOf(s) != "" && ResultOf(s) != ftr
  {
    LastDrawExactly(text, rs);
    hide LastDraw, LastDraws;
    var s := Sides(rs[h], LastDraw(text, rs), rs[a]);
    forall letter ensures Settles(text, rs, h, a, letter) <==> letter != "" && ResultOf(s) == letter {
    }
    hide Settles;
    if ResultOf(s) != "" { assert Settles(text, rs, h, a, ResultOf(s)); }
  }

  lemma CellsWritten(row: Row, hc: string, d: Option<string>, ac: string, ref: string)
    ensures var sides := map["PSCH" := hc, "MaxCH" := hc, "PSCA" := ac, "MaxCA" := ac, "BetfairMarketId" := ref];
            WithMatchOdds(row, hc, d, ac, ref) ==
              if d.None? then row + sides else row + sides + map["PSCD" := d.value, "MaxCD" := d.value]
  {
  }

  ghost function OverNamed(text: Text): Runner -> bool {
    (r: Runner) => r.id == 47973 || (r.name.Some? && "over" <= text.lower(text.strip(r.name.value)))
      || (r.name.None? && "over" <= text.lower(text.strip("")))
  }

  ghost function UnderNamed(text: Text): Runner -> bool {
    (r: Runner) => !OverNamed(text)(r)
      && (r.id == 47972 || (r.name.Some? && "under" <= text.lower(text.strip(r.name.value)))
          || (r.name.None? && "under" <= text.lower(text.strip(""))))
  }

  lemma NamesExactly(text: Text, r: Runner)
    ensures IsOver(text)(r) <==> OverNamed(text)(r)
    ensures IsUnder(text)(r) <==> UnderNamed(text)(r)
  {
  }

  /** Goals of the row, when both scores read as numbers. */
  ghost predicate Scored(text: Text, row: Row, goals: int) {
    && "FTHG" in row && "FTAG" in row
    && exists h, a :: text.parseInt(row["FTHG"]) == Some(h) && text.parseInt(row["FTAG"]) == Some(a) && goals == h + a
  }

  /** What an over/under market does to a row: nothing unless it has one runner of each kind, both closed; a
      conflict if the winner is not the side the goals are on; and otherwise it writes these cells and no more. */
  lemma OverUnderExactly(text: Text, m: MarketClose, ref: string, row: Row)
    ensures var o, rs := OverUnderOutcome(text, m, ref, row), m.runners;
            && ((forall x: nat, y: nat :: !(OnlyAt(OverNamed(text), rs, x) && OnlyAt(UnderNamed(text), rs, y))) ==>
                  o == Unmatched)
            && (forall x: nat, y: nat :: OnlyAt(OverNamed(text), rs, x) && OnlyAt(UnderNamed(text), rs, y) ==>
                  OverUnderWrites(text, rs, x, y, ref, row, o))
  {
    var rs := m.runners;
    forall r: Runner
      ensures IsOver(text)(r) <==> OverNamed(text)(r)
      ensures IsUnder(text)(r) <==> UnderNamed(text)(r) {
      NamesExactly(text, r);
    }
    OnlyExactly(OverNamed(text), IsOver(text), rs);
    OnlyExactly(UnderNamed(text), IsUnder(text), rs);
    hide Filter, IsOver, IsUnder, OverNamed, UnderNamed, OverUnderWrites;
    forall x: nat, y: nat | OnlyAt(OverNamed(text), rs, x) && OnlyAt(UnderNamed(text), rs, y)
      ensures OverUnderWrites(text, rs, x, y, ref, row, OverUnderOutcome(text, m, ref, row)) {
      WritesOverUnder(text, m, ref, row, x, y);
    }
  }

  ghost predicate OverUnderWrites(text: Text, rs: seq<Runner>, x: nat, y: nat, ref: string, row: Row, o: Outcome) {
    && x < |rs| && y < |rs|
    && var over, under := rs[x], rs[y];
       var wrong := (over.won == Some(true) && exists goals :: Scored(text, row, goals) && goals < 3)
                    || (over.won != Some(true) && under.won == Some(true)
                        && exists goals :: Scored(text, row, goals) && goals > 2);
       if over.close == None || under.close == None then o == Unmatched
       else if wrong then o == Conflict
       else
         var oc, uc := text.show(over.close.value), text.show(under.close.value);
         o == Joined(row + map["PC>2.5" := oc, "MaxC>2.5" := oc, "PC<2.5" := uc, "MaxC<2.5" := uc,
                               "BetfairOuMarketId" := ref])
  }

  lemma GoalsExactly(text: Text, row: Row, goals: int)
    ensures TotalGoals(text, row) == Some(goals) <==> Scored(text, row, goals)
  {
  }

  lemma WritesOverUnder(text: Text, m: MarketClose, ref: string, row: Row, x: nat, y: nat)
    requires x < |m.runners| && y < |m.runners|
    requires OverUnderOf(text, m.runners) == Some((m.runners[x], m.runners[y]))
    ensures OverUnderWrites(text, m.runners, x, y, ref, row, OverUnderOutcome(text, m, ref, row))
  {
    WrongExactly(text, row, m.runners[x], m.runners[y]);
    hide OverUnderOf, TotalGoals, Scored, OverWon;
    if m.runners[x].close.Some? && m.runners[y].close.Some? {
      var oc, uc := text.show(m.runners[x].close.value), text.show(m.runners[y].close.value);
      GoalCells(row, oc, uc, ref);
    }
  }

  lemma GoalCells(row: Row, oc: string, uc: string, ref: string)
    ensures row["PC>2.5" := oc]["PC<2.5" := uc]["MaxC>2.5" := oc]["MaxC<2.5" := uc]["BetfairOuMarketId" := ref] ==
            row + map["PC>2.5" := oc, "MaxC>2.5" := oc, "PC<2.5" := uc, "MaxC<2.5" := uc, "BetfairOuMarketId" := ref]
  {
  }

  lemma WrongExactly(text: Text, row: Row, over: Runner, under: Runner)
    ensures var won, total := OverWon((over, under)), TotalGoals(text, row);
            won.Some? && total.Some? && (total.value >= 3) != won.value <==>
              || (over.won == Some(true) && exists goals :: Scored(text, row, goals) && goals < 3)
              || (over.won != Some(true) && under.won == Some(true)
                  && exists goals :: Scored(text, row, goals) && goals > 2)
  {
    forall goals ensures TotalGoals(text, row) == Some(goals) <==> Scored(text, row, goals) {
      GoalsExactly(text, row, goals);
    }
    hide TotalGoals, Scored;
    var total := TotalGoals(text, row);
    if total.Some? { assert Scored(text, row, total.value); }
  }

  /** The fixture a match-odds market is about: the names of its first two named runners that are not the draw. */
  ghost predicate FirstTwo(rs: seq<Runner>, i: nat, j: nat) {
    && i < j < |rs| && Contends(rs[i]) && Contends(rs[j])
    && forall k :: 0 <= k < j && k != i ==> !Contends(rs[k])
  }

  ghost predicate Contends(r: Runner) { r.id != 58805 && r.name.Some? }

  lemma TeamsExactly(text: Text, m: MarketClose)
    ensures TeamsOf(text, OverUnder, m) == text.splitTeams(m.eventName)
    ensures forall i: nat, j: nat :: FirstTwo(m.runners, i, j) ==>
              TeamsOf(text, MatchOdds, m) == Some((m.runners[i].name.value, m.runners[j].name.value))
    ensures (forall i: nat, j: nat :: i < j < |m.runners| ==> !(Contends(m.runners[i]) && Contends(m.runners[j]))) ==>
              TeamsOf(text, MatchOdds, m) == None
  {
    var p := (r: Runner) => r.id != DRAW_SELECTION_ID && r.name.Some?;
    var rs := m.runners;
    assert Contenders(rs) == Filter(p, rs) by {
      FilterSame(p, (r: Runner) => r.id != DRAW_SELECTION_ID && r.name.Some?, rs);
    }
    forall i: nat, j: nat | FirstTwo(rs, i, j)
      ensures TeamsOf(text, MatchOdds, m) == Some((rs[i].name.value, rs[j].name.value)) {
      StableSort.OneLeft(p, rs[..j], i);
      FilterAt(p, rs, j);
      FilterAt(p, rs, i);
      FilterNone(p, rs[..i]);
    }
    if |Filter(p, rs)| >= 2 { TwoContend(p, rs); }
  }

  lemma TwoContend(p: Runner -> bool, rs: seq<Runner>)
    requires (forall r :: p(r) <==> Contends(r)) && |Filter(p, rs)| >= 2
    ensures exists i: nat, j: nat :: i < j < |rs| && Contends(rs[i]) && Contends(rs[j])
  {
    var r := Filter(p, rs)[0];
    FilterMember(p, rs, r);
    var i :| 0 <= i < |rs| && rs[i] == r;
    if forall k :: 0 <= k < |rs| && k != i ==> !p(rs[k]) {
      StableSort.OneLeft(p, rs, i);
      assert false;
    } else {
      var k :| 0 <= k < |rs| && k != i && p(rs[k]);
      var lo: nat, hi: nat := if k < i then k else i, if k < i then i else k;
      assert lo < hi < |rs| && Contends(rs[lo]) && Contends(rs[hi]);
    }
  }

  /** A candidate that fits a row's fixture and that none with another reference is as close as. */
  ghost predicate Meets(
    text: Text, home: string, away: string, kickoff: int, drift: int, cs: seq<Candidate>, c: Candidate)
  {
    && c in cs && Fits(text, home, away, kickoff, drift, c)
    && forall b :: b in cs && Fits(text, home, away, kickoff, drift, b) ==> b.ref == c.ref || Closer(kickoff, c, b)
  }

  /** Which market a row meets: none if a team or the date cannot be read or no candidate fits; otherwise the one
      behind the reference of the closest candidate that fits. */
  lemma RowExactly(text: Text, kind: Kind, ix: Index, drift: int, row: Row)
    requires forall c :: c in ix.candidates ==> c.ref in ix.byRef
    ensures var home, away := text.strip(Cell(row, "HomeTeam")), text.strip(Cell(row, "AwayTeam"));
            var date, o := text.parseDate(Cell(row, "Date")), JoinRow(text, kind, ix, drift, row);
            if home == "" || away == "" || date == None then o == Unmatched
            else
              && ((forall c :: c in ix.candidates ==> !Fits(text, home, away, date.value, drift, c)) ==> o == Unmatched)
              && forall c :: Meets(text, home, away, date.value, drift, ix.candidates, c) ==>
                   o == if kind == MatchOdds then MatchOddsOutcome(text, ix.byRef[c.ref], c.ref, row, home, away)
                        else OverUnderOutcome(text, ix.byRef[c.ref], c.ref, row)
  {
    var home, away := text.strip(Get(row, "HomeTeam")), text.strip(Get(row, "AwayTeam"));
    var date := text.parseDate(Get(row, "Date"));
    hide MatchOddsOutcome, OverUnderOutcome, FullScan;
    if home != "" && away != "" && date.Some? {
      ScanExactly(text, home, away, date.value, drift, ix.candidates);
      hide Fits, Meets;
    }
  }

  lemma ScanExactly(text: Text, home: string, away: string, kickoff: int, drift: int, cs: seq<Candidate>)
    ensures (forall c :: c in cs ==> !Fits(text, home, away, kickoff, drift, c)) <==>
            FullScan(text, home, away, kickoff, drift, cs) == None
    ensures forall c :: Meets(text, home, away, kickoff, drift, cs, c) ==>
              c in cs && FullScan(text, home, away, kickoff, drift, cs) == Some(c.ref)
  {
    forall c ensures Qualifies(text, home, away, kickoff, drift)(c) <==> Fits(text, home, away, kickoff, drift, c) {
      FitsExactly(text, home, away, kickoff, drift, c);
    }
    forall a, b ensures Nearer(kickoff, a, b) <==> Closer(kickoff, a, b) { CloserExactly(kickoff, a, b); }
    hide Qualifies, Fits, Nearer, Closer, FullScan;
    NothingIsGuessed(text, home, away, kickoff, drift, cs);
    forall c | Meets(text, home, away, kickoff, drift, cs, c)
      ensures FullScan(text, home, away, kickoff, drift, cs) == Some(c.ref) {
      AttachedReference(text, home, away, kickoff, drift, cs, c.ref);
    }
  }

  ghost function IsJoined(): Outcome -> bool { (o: Outcome) => o.Joined? }

  /** The joined rows come in the order of the input rows: a row follows as many as were joined before it. */
  lemma {:induction false} JoinedInOrder(os: seq<Outcome>, i: nat)
    requires i < |os| && os[i].Joined?
    ensures |JoinedRows(os)| == |Positions(IsJoined(), os)|
    ensures var k := |Positions(IsJoined(), os[..i])|; k < |JoinedRows(os)| && JoinedRows(os)[k] == os[i].row
  {
    JoinedCount(os);
    JoinedCount(os[..i]);
    JoinedAt(os, i);
  }

  lemma {:induction false} JoinedCount(os: seq<Outcome>)
    ensures |JoinedRows(os)| == |Positions(IsJoined(), os)|
  {
    if os != [] {
      var n := |os| - 1;
      JoinedCount(os[..n]);
      FilterCount(IsJoined(), os);
      FilterCount(IsJoined(), os[..n]);
      FilterSnoc(IsJoined(), os, n);
      assert os[..n + 1] == os;
    }
  }

  lemma {:induction false} JoinedAt(os: seq<Outcome>, i: nat)
    requires i < |os| && os[i].Joined?
    ensures var k := |JoinedRows(os[..i])|; k < |JoinedRows(os)| && JoinedRows(os)[k] == os[i].row
  {
    var n := |os| - 1;
    if i < n {
      JoinedAt(os[..n], i);
      assert os[..n][..i] == os[..i];
    }
  }

  /** The other counts are of the rows that met that fate. */
  lemma {:induction false} CountExactly(os: seq<Outcome>, o: Outcome)
    ensures CountOf(os, o) == |Positions((x: Outcome) => x == o, os)|
  {
    if os != [] {
      var n := |os| - 1;
      var p := (x: Outcome) => x == o;
      CountExactly(os[..n], o);
      FilterCount(p, os);
      FilterCount(p, os[..n]);
      FilterSnoc(p, os, n);
      assert os[..n + 1] == os;
      assert Positions((x: Outcome) => x == o, os[..n]) == Positions(p, os[..n]);
      assert Positions((x: Outcome) => x == o, os) == Positions(p, os);
    }
  }
}
