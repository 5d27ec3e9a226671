/** The off-window re-scrape queue (app/clv_trueup.py, order_offwindow_refs, select_offwindow_links and
    the attempt stamping of revalidate_offwindow_picks): a capped, stalest-attempt-first round-robin
    over the match links of open picks, premium-bearing links first. */
module OffWindow {
  import opened Prelude
  import StableSort

  datatype Tier = Premium | Volume

  /** One open pick, as the query returns it; `attempted` is its last scrape attempt. */
  datatype PickRow = PickRow(ref: string, tier: Tier, attempted: Option<int>)

  /** What the queue knows of one link: any premium pick, and the smallest recorded attempt. */
  datatype Standing = Standing(premium: bool, stamp: Option<int>)

  function EarlierStamp(a: Option<int>, b: Option<int>): Option<int> {
    if a.None? then b else if b.None? then a else Some(if a.value <= b.value then a.value else b.value)
  }

  function Join(a: Standing, b: Standing): Standing {
    Standing(a.premium || b.premium, EarlierStamp(a.stamp, b.stamp))
  }

  function StandingOf(row: PickRow): Standing { Standing(row.tier.Premium?, row.attempted) }

  /** The two dictionaries of order_offwindow_refs as one map. */
  function Standings(rows: seq<PickRow>): map<string, Standing> {
    if rows == [] then map[]
    else
      var rest := Standings(rows[..|rows| - 1]);
      var row := rows[|rows| - 1];
      rest[row.ref := if row.ref in rest then Join(rest[row.ref], StandingOf(row)) else StandingOf(row)]
  }

  /** Premium before volume, never-attempted before attempted, then the older attempt. */
  predicate Precedes(a: Standing, b: Standing) {
    if a.premium != b.premium then a.premium
    else if a.stamp.Some? != b.stamp.Some? then a.stamp.None?
    else a.stamp.None? || a.stamp.value <= b.stamp.value
  }

  predicate StandsBefore(m: map<string, Standing>, a: string, b: string) {
    if a in m && b in m then Precedes(m[a], m[b]) else a in m || b !in m
  }

  function ByStanding(m: map<string, Standing>): (string, string) -> bool {
    (a: string, b: string) => StandsBefore(m, a, b)
  }

  /** The distinct links, in order of first appearance. */
  function Links(rows: seq<PickRow>): seq<string> {
    if rows == [] then []
    else
      var rest := Links(rows[..|rows| - 1]);
      var ref := rows[|rows| - 1].ref;
      if ref in rest then rest else rest + [ref]
  }

  function OrderedRefs(rows: seq<PickRow>): seq<string> {
    StableSort.Sort(ByStanding(Standings(rows)), Links(rows))
  }

  method OrderOffwindowRefs(rows: seq<PickRow>) returns (refs: seq<string>)
    ensures refs == OrderedRefs(rows)
  {
    var standings: map<string, Standing> := map[];
    var links: seq<string> := [];
    for i := 0 to |rows|
      invariant standings == Standings(rows[..i]) && links == Links(rows[..i])
    {
      assert rows[..i + 1][..i] == rows[..i];
      var row := rows[i];
      if row.ref in standings {
        standings := standings[row.ref := Join(standings[row.ref], StandingOf(row))];
      } else {
        standings := standings[row.ref := StandingOf(row)];
      }
      if row.ref !in links {
        links := links + [row.ref];
      }
    }
    assert rows[..|rows|] == rows;
    refs := StableSort.Sort(ByStanding(standings), links);
  }

  /** Links of the allowed host and the wanted sport, not covered by this cycle; capped after filtering. */
  function SelectLinks(refs: seq<string>, eligible: string -> bool, cap: nat): seq<string> {
    var links := Filter(eligible, refs);
    if |links| <= cap then links else links[..cap]
  }

  class OpenPick {
    const ref: string
    const tier: Tier
    var attempted: Option<int>

    constructor (ref: string, tier: Tier, attempted: Option<int>)
      ensures this.ref == ref && this.tier == tier && this.attempted == attempted
    {
      this.ref, this.tier, this.attempted := ref, tier, attempted;
    }

    function Row(): PickRow reads this { PickRow(ref, tier, attempted) }
  }

  /** Every fetched link counts as an attempt for all its open picks, priced or not. */
  method StampAttempts(picks: seq<OpenPick>, links: seq<string>, attemptedAt: int)
    modifies picks
    ensures forall p :: p in picks ==>
              p.Row() == old(p.Row()).(attempted := if p.ref in links then Some(attemptedAt) else old(p.attempted))
  {
    forall p | p in picks && p.ref in links {
      p.attempted := Some(attemptedAt);
    }
  }

  // ---- what the ordering means ----

  /** The link has an open pick, and `s` says whether one of them is premium and which attempt is the oldest. */
  ghost predicate Summarises(rows: seq<PickRow>, ref: string, s: Standing) {
    && (exists i :: 0 <= i < |rows| && rows[i].ref == ref)
    && (s.premium <==> exists i :: 0 <= i < |rows| && rows[i].ref == ref && rows[i].tier.Premium?)
    && (s.stamp.None? <==> forall i :: 0 <= i < |rows| && rows[i].ref == ref ==> rows[i].attempted.None?)
    && (s.stamp.Some? ==>
          && (exists i :: 0 <= i < |rows| && rows[i].ref == ref && rows[i].attempted == s.stamp)
          && forall i :: 0 <= i < |rows| && rows[i].ref == ref && rows[i].attempted.Some? ==>
               s.stamp.value <= rows[i].attempted.value)
  }

  lemma {:induction false} StandingsAreExact(rows: seq<PickRow>, ref: string)
    ensures ref in Standings(rows) <==> exists i :: 0 <= i < |rows| && rows[i].ref == ref
    ensures ref in Links(rows) <==> ref in Standings(rows)
    ensures ref in Standings(rows) ==> Summarises(rows, ref, Standings(rows)[ref])
  {
    hide Summarises, Join, StandingOf;
    if rows != [] {
      var n := |rows| - 1;
      var init, row := rows[..n], rows[n];
      assert rows == init + [row];
      StandingsAreExact(init, ref);
      if row.ref != ref {
        if ref in Standings(init) { OtherRowSummarised(init, row, ref, Standings(init)[ref]); }
      } else if ref in Standings(init) {
        RowJoined(init, row, Standings(init)[ref]);
      } else {
        FirstRowSummarised(init, row);
      }
      assert forall i :: 0 <= i < n ==> init[i] == rows[i];
    }
  }

  lemma OtherRowSummarised(init: seq<PickRow>, row: PickRow, ref: string, s: Standing)
    requires Summarises(init, ref, s) && row.ref != ref
    ensures Summarises(init + [row], ref, s)
  {
    var rows := init + [row];
    assert forall i :: 0 <= i < |init| ==> rows[i] == init[i];
  }

  lemma FirstRowSummarised(init: seq<PickRow>, row: PickRow)
    requires forall i :: 0 <= i < |init| ==> init[i].ref != row.ref
    ensures Summarises(init + [row], row.ref, StandingOf(row))
  {
    var rows := init + [row];
    assert rows[|init|] == row && forall i :: 0 <= i < |init| ==> rows[i] == init[i];
  }

  lemma RowJoined(init: seq<PickRow>, row: PickRow, s: Standing)
    requires Summarises(init, row.ref, s)
    ensures Summarises(init + [row], row.ref, Join(s, StandingOf(row)))
  {
    var rows := init + [row];
    assert rows[|init|] == row && forall i :: 0 <= i < |init| ==> rows[i] == init[i];
  }

  lemma {:induction false} LinksAreDistinct(rows: seq<PickRow>)
    ensures NoRepeats(Links(rows))
  {
    if rows != [] { LinksAreDistinct(rows[..|rows| - 1]); }
  }

  ghost predicate NoRepeats(s: seq<string>) { forall i, j :: 0 <= i < j < |s| ==> s[i] != s[j] }

  /** `links` is a legitimate choice of one cycle, however equal standings are ordered: distinct
      eligible links, as many as the cap allows, none behind a link left out. */
  ghost predicate Chosen(m: map<string, Standing>, eligible: string -> bool, cap: nat, links: seq<string>) {
    && NoRepeats(links)
    && (forall x :: x in links ==> x in m && eligible(x))
    && |links| <= cap
    && (|links| < cap ==> forall x :: x in m && eligible(x) ==> x in links)
    && (forall x, y :: x in links && y in m && eligible(y) && y !in links ==> Precedes(m[x], m[y]))
  }

  lemma {:induction false} FilterNoRepeats(p: string -> bool, s: seq<string>)
    requires NoRepeats(s)
    ensures NoRepeats(Filter(p, s))
  {
    if s != [] {
      FilterNoRepeats(p, s[1..]);
      if p(s[0]) && s[0] in Filter(p, s[1..]) {
        FilterMember(p, s[1..], s[0]);
        assert false;
      }
    }
  }

  lemma {:induction false} InsertNoRepeats(le: (string, string) -> bool, x: string, s: seq<string>)
    requires NoRepeats(s) && x !in s
    ensures NoRepeats(StableSort.Insert(le, x, s))
  {
    if s != [] && !le(x, s[0]) {
      InsertNoRepeats(le, x, s[1..]);
      var rest := StableSort.Insert(le, x, s[1..]);
      StableSort.InsertElements(le, x, s[1..]);
      assert s[0] !in multiset(s[1..]) + multiset{x};
      assert s[0] !in multiset(rest);
    }
  }

  lemma {:induction false} SortNoRepeats(le: (string, string) -> bool, s: seq<string>)
    requires NoRepeats(s)
    ensures NoRepeats(StableSort.Sort(le, s))
  {
    if s != [] {
      SortNoRepeats(le, s[1..]);
      StableSort.SortMembers(le, s[1..], s[0]);
      InsertNoRepeats(le, s[0], StableSort.Sort(le, s[1..]));
    }
  }

  lemma {:induction false} FilterKeepsOrder(le: (string, string) -> bool, p: string -> bool, s: seq<string>)
    requires StableSort.Ordered(le, s)
    ensures StableSort.Ordered(le, Filter(p, s))
  {
    if s != [] {
      FilterKeepsOrder(le, p, s[1..]);
      var kept := Filter(p, s[1..]);
      forall j | 0 <= j < |kept| ensures le(s[0], kept[j]) {
        FilterMember(p, s[1..], kept[j]);
      }
    }
  }

  /** The code's selection is such a choice. */
  lemma SelectionIsChosen(rows: seq<PickRow>, eligible: string -> bool, cap: nat)
    ensures Chosen(Standings(rows), eligible, cap, SelectLinks(OrderedRefs(rows), eligible, cap))
  {
    var m := Standings(rows);
    var le := ByStanding(m);
    var refs := OrderedRefs(rows);
    LinksAreDistinct(rows);
    StableSort.SortOrdered(le, Links(rows));
    SortNoRepeats(le, Links(rows));
    FilterNoRepeats(eligible, refs);
    FilterKeepsOrder(le, eligible, refs);
    var all := Filter(eligible, refs);
    forall x ensures x in all <==> x in m && eligible(x) {
      FilterMember(eligible, refs, x);
      StableSort.SortMembers(le, Links(rows), x);
      StandingsAreExact(rows, x);
    }
    var links := SelectLinks(refs, eligible, cap);
    forall x, y | x in links && y in m && eligible(y) && y !in links ensures Precedes(m[x], m[y]) {
      var i :| 0 <= i < |links| && links[i] == x;
      var j :| 0 <= j < |all| && all[j] == y;
      assert all[i] == x && i < j;
      assert le(all[i], all[j]);
    }
  }

  // ---- the queue, told over the rows ----

  ghost predicate HasPremium(rows: seq<PickRow>, ref: string) {
    exists i :: 0 <= i < |rows| && rows[i].ref == ref && rows[i].tier == Premium
  }

  ghost predicate NeverTried(rows: seq<PickRow>, ref: string) {
    forall i :: 0 <= i < |rows| && rows[i].ref == ref ==> rows[i].attempted == None
  }

  /** The smallest recorded attempt of the link. */
  ghost predicate OldestTry(rows: seq<PickRow>, ref: string, at: int) {
    && (exists i :: 0 <= i < |rows| && rows[i].ref == ref && rows[i].attempted == Some(at))
    && forall i, t :: 0 <= i < |rows| && rows[i].ref == ref && rows[i].attempted == Some(t) ==> at <= t
  }

  /** Row `i` is the first of the link. */
  ghost predicate FirstRow(rows: seq<PickRow>, ref: string, i: int) {
    0 <= i < |rows| && rows[i].ref == ref && forall k :: 0 <= k < i ==> rows[k].ref != ref
  }

  /** Links with a premium pick go first, then those never tried, then those tried longest ago, and what is equal
      in all that in order of appearance. */
  ghost predicate QueuedBefore(rows: seq<PickRow>, x: string, y: string) {
    && (HasPremium(rows, y) ==> HasPremium(rows, x))
    && (HasPremium(rows, x) == HasPremium(rows, y) ==>
          && (NeverTried(rows, y) ==> NeverTried(rows, x))
          && (forall s, t :: OldestTry(rows, x, s) && OldestTry(rows, y, t) ==> s <= t)
          && ((NeverTried(rows, x) && NeverTried(rows, y))
              || (exists t :: OldestTry(rows, x, t) && OldestTry(rows, y, t)) ==>
                forall i, j :: FirstRow(rows, x, i) && FirstRow(rows, y, j) ==> i < j))
  }

  lemma StandingMeans(rows: seq<PickRow>, ref: string)
    requires ref in Standings(rows)
    ensures var s := Standings(rows)[ref];
            && (s.premium <==> HasPremium(rows, ref))
            && (s.stamp.None? <==> NeverTried(rows, ref))
            && forall t :: OldestTry(rows, ref, t) <==> s.stamp == Some(t)
  {
    hide Standings, Links;
    StandingsAreExact(rows, ref);
  }

  /** Links are listed in order of appearance. */
  lemma {:induction false} LinksAppear(rows: seq<PickRow>, a: nat, b: nat, i: int, j: int)
    requires a < b < |Links(rows)| && FirstRow(rows, Links(rows)[a], i) && FirstRow(rows, Links(rows)[b], j)
    ensures i < j
  {
    var n := |rows| - 1;
    var init, ref := rows[..n], rows[n].ref;
    forall k | 0 <= k < n ensures init[k] == rows[k] {
    }
    StandingsAreExact(init, ref);
    StandingsAreExact(init, Links(rows)[a]);
    hide Standings;
    if b < |Links(init)| {
      assert Links(rows)[a] == Links(init)[a] && Links(rows)[b] == Links(init)[b];
      StandingsAreExact(init, Links(rows)[b]);
      assert i < n && j < n;
      LinksAppear(init, a, b, i, j);
    } else {
      assert Links(rows)[b] == ref && ref !in Links(init);
    }
  }

  /** The queue lists every link of an open pick once, each before those that may wait longer. */
  lemma QueueExactly(rows: seq<PickRow>)
    ensures var q := OrderedRefs(rows);
            && NoRepeats(q)
            && (forall x :: x in q <==> exists i :: 0 <= i < |rows| && rows[i].ref == x)
            && forall a, b :: 0 <= a < b < |q| ==> QueuedBefore(rows, q[a], q[b])
  {
    var le, links, q := ByStanding(Standings(rows)), Links(rows), OrderedRefs(rows);
    LinksAreDistinct(rows);
    SortNoRepeats(le, links);
    forall x ensures x in q <==> exists i :: 0 <= i < |rows| && rows[i].ref == x {
      StableSort.SortMembers(le, links, x);
      StandingsAreExact(rows, x);
    }
    forall a, b | 0 <= a < b < |q| ensures QueuedBefore(rows, q[a], q[b]) {
      QueuedPair(rows, a, b);
    }
  }

  lemma QueuedPair(rows: seq<PickRow>, a: nat, b: nat)
    requires a < b < |OrderedRefs(rows)|
    ensures QueuedBefore(rows, OrderedRefs(rows)[a], OrderedRefs(rows)[b])
  {
    var m := Standings(rows);
    var le, links, q := ByStanding(m), Links(rows), OrderedRefs(rows);
    var x, y := q[a], q[b];
    StandsBeforeIsTotal(m);
    StableSort.SortOrdered(le, links);
    assert le(x, y);
    StableSort.SortMembers(le, links, x);
    StableSort.SortMembers(le, links, y);
    StandingsAreExact(rows, x);
    StandingsAreExact(rows, y);
    StandingMeans(rows, x);
    StandingMeans(rows, y);
    hide Standings, Links, HasPremium, NeverTried, OldestTry, FirstRow;
    if m[x].premium == m[y].premium && m[x].stamp == m[y].stamp {
      forall i, j | FirstRow(rows, x, i) && FirstRow(rows, y, j) ensures i < j {
        TiesAppear(rows, a, b, i, j);
      }
    }
  }

  lemma StandsBeforeIsTotal(m: map<string, Standing>)
    ensures StableSort.TotalPreorder(ByStanding(m))
  {
  }

  lemma TiesAppear(rows: seq<PickRow>, a: nat, b: nat, i: int, j: int)
    requires a < b < |OrderedRefs(rows)|
    requires FirstRow(rows, OrderedRefs(rows)[a], i) && FirstRow(rows, OrderedRefs(rows)[b], j)
    requires var m, x, y := Standings(rows), OrderedRefs(rows)[a], OrderedRefs(rows)[b];
             x in m && y in m && m[x].premium == m[y].premium && m[x].stamp == m[y].stamp
    ensures i < j
  {
    var m := Standings(rows);
    var le, links, q := ByStanding(m), Links(rows), OrderedRefs(rows);
    StandsBeforeIsTotal(m);
    LinksAreDistinct(rows);
    SortNoRepeats(le, links);
    StableSort.SortMembers(le, links, q[a]);
    StableSort.SortMembers(le, links, q[b]);
    var k :| 0 <= k < |links| && links[k] == q[a];
    var l :| 0 <= l < |links| && links[l] == q[b];
    if l < k {
      StableSort.SortKeepsTies(le, links, l, k, b, a);
      assert false;
    }
    LinksAppear(rows, k, l, i, j);
  }

  /** A cycle fetches the head of the queue's eligible links, up to the cap. */
  lemma SelectionExactly(rows: seq<PickRow>, eligible: string -> bool, cap: nat)
    ensures var waiting, links := Filter(eligible, OrderedRefs(rows)), SelectLinks(OrderedRefs(rows), eligible, cap);
            links <= waiting && |links| == if |waiting| < cap then |waiting| else cap
  {
  }

  // ---- bounded waiting ----

  /** A cycle whose fetch returned, as the eligible links see it: the chosen ones are stamped between `from` and
      `to`, after every earlier stamp, and the others keep their standing. What happens to any other link (a
      covered event, another sport, a pick minted or settled) is left open. */
  ghost predicate Cycle(
    m: map<string, Standing>, m': map<string, Standing>, eligible: string -> bool, links: seq<string>,
    from: int, to: int)
  {
    && from <= to
    && (forall x :: eligible(x) ==> (x in m <==> x in m'))
    && (forall x :: x in m && eligible(x) ==> m'[x].premium == m[x].premium)
    && (forall x :: x in m && eligible(x) && m[x].stamp.Some? ==> m[x].stamp.value < from)
    && (forall x :: x in links && x in m && eligible(x) ==> m'[x].stamp.Some? && from <= m'[x].stamp.value <= to)
    && (forall x :: x in m && eligible(x) && x !in links ==> m'[x].stamp == m[x].stamp)
  }

  /** Consecutive cycles over an unchanging set of eligible links, with a strictly increasing clock. */
  ghost predicate Cycles(
    ms: seq<map<string, Standing>>, eligible: string -> bool, cap: nat, picked: seq<seq<string>>, clock: seq<int>)
  {
    && |ms| == |picked| + 1 && |clock| == |picked| + 1
    && forall k :: 0 <= k < |picked| ==> CycleAt(ms[k], ms[k + 1], eligible, cap, picked[k], clock[k], clock[k + 1])
  }

  ghost predicate CycleAt(
    m: map<string, Standing>, m': map<string, Standing>, eligible: string -> bool, cap: nat, links: seq<string>,
    now: int, next: int)
  {
    now < next && Chosen(m, eligible, cap, links) && exists to :: to < next && Cycle(m, m', eligible, links, now, to)
  }

  function PremiumLinks(m: map<string, Standing>, eligible: string -> bool): set<string> {
    set x | x in m && eligible(x) && m[x].premium
  }

  /** The premium links that were served at or after `since`. */
  function Served(m: map<string, Standing>, eligible: string -> bool, since: int): set<string> {
    set x | x in m && eligible(x) && m[x].premium && m[x].stamp.Some? && m[x].stamp.value >= since
  }

  ghost predicate Waiting(m: map<string, Standing>, link: string, since: int) {
    link in m && m[link].premium && (m[link].stamp.Some? ==> m[link].stamp.value < since)
  }

  function AsSet(s: seq<string>): set<string> { set x | x in s }

  lemma {:induction false} DistinctSize(s: seq<string>)
    requires NoRepeats(s)
    ensures |AsSet(s)| == |s|
  {
    if s != [] {
      var n := |s| - 1;
      DistinctSize(s[..n]);
      assert AsSet(s) == AsSet(s[..n]) + {s[n]};
      assert s[n] !in AsSet(s[..n]);
    }
  }

  /** While a premium link waits, every cycle serves `cap` premium links not yet served. */
  lemma WaitingCycleServesOthers(
    m: map<string, Standing>, m': map<string, Standing>, eligible: string -> bool, cap: nat,
    links: seq<string>, from: int, to: int, link: string, since: int)
    requires Chosen(m, eligible, cap, links) && Cycle(m, m', eligible, links, from, to) && since <= from
    requires eligible(link) && Waiting(m, link, since) && link !in links
    ensures Waiting(m', link, since)
    ensures PremiumLinks(m', eligible) == PremiumLinks(m, eligible)
    ensures |Served(m', eligible, since)| == |Served(m, eligible, since)| + cap
  {
    forall x | x in links ensures m[x].premium && x !in Served(m, eligible, since) {
      assert Precedes(m[x], m[link]);
    }
    assert |links| == cap;
    DistinctSize(links);
    assert AsSet(links) !! Served(m, eligible, since);
    assert Served(m', eligible, since) == Served(m, eligible, since) + AsSet(links);
  }

  lemma SubsetSize(a: set<string>, b: set<string>)
    requires a <= b
    ensures |a| <= |b|
    ensures a == b || |a| < |b|
  {
    assert |b - a| == |b| - |a|;
    assert b == a + (b - a);
  }

  lemma MissingOne(a: set<string>, b: set<string>, x: string)
    requires a <= b && x in b && x !in a
    ensures |a| < |b|
  {
    SubsetSize(a, b);
  }

  lemma {:induction false} ServedGrows(
    ms: seq<map<string, Standing>>, eligible: string -> bool, cap: nat, picked: seq<seq<string>>, clock: seq<int>,
    link: string, n: nat)
    requires Cycles(ms, eligible, cap, picked, clock) && n <= |picked|
    requires eligible(link) && Waiting(ms[0], link, clock[0])
    requires forall k :: 0 <= k < n ==> link !in picked[k]
    ensures Waiting(ms[n], link, clock[0]) && clock[0] <= clock[n]
    ensures PremiumLinks(ms[n], eligible) == PremiumLinks(ms[0], eligible)
    ensures |Served(ms[n], eligible, clock[0])| >= n * cap
  {
    if n > 0 {
      ServedGrows(ms, eligible, cap, picked, clock, link, n - 1);
      assert CycleAt(ms[n - 1], ms[n], eligible, cap, picked[n - 1], clock[n - 1], clock[n]);
      var to :| to < clock[n] && Cycle(ms[n - 1], ms[n], eligible, picked[n - 1], clock[n - 1], to);
      WaitingCycleServesOthers(ms[n - 1], ms[n], eligible, cap, picked[n - 1], clock[n - 1], to, link, clock[0]);
      assert n * cap == (n - 1) * cap + cap;
    }
  }

  /** Every premium link is scraped within ceil(N / cap) cycles, N being the eligible premium links. */
  lemma BoundedWaiting(
    ms: seq<map<string, Standing>>, eligible: string -> bool, cap: nat, picked: seq<seq<string>>, clock: seq<int>,
    link: string)
    requires Cycles(ms, eligible, cap, picked, clock)
    requires link in ms[0] && eligible(link) && ms[0][link].premium
    requires ms[0][link].stamp.Some? ==> ms[0][link].stamp.value < clock[0]
    requires |picked| * cap >= |PremiumLinks(ms[0], eligible)|
    ensures exists k :: 0 <= k < |picked| && link in picked[k]
  {
    if forall k :: 0 <= k < |picked| ==> link !in picked[k] {
      var n := |picked|;
      ServedGrows(ms, eligible, cap, picked, clock, link, n);
      var served, all := Served(ms[n], eligible, clock[0]), PremiumLinks(ms[n], eligible);
      MissingOne(served, all, link);
    }
  }

  /** The least number of cycles that BoundedWaiting asks for. */
  lemma CeilingCycles(n: nat, cap: nat)
    requires cap > 0
    ensures var c := (n + cap - 1) / cap; c * cap >= n && (c > 0 ==> (c - 1) * cap < n)
  {
    var c := (n + cap - 1) / cap;
    assert n + cap - 1 == c * cap + (n + cap - 1) % cap;
    assert (c - 1) * cap == c * cap - cap;
  }

  /** Volume links wait for all of premium: one is scraped only in a cycle that takes every premium link. */
  lemma VolumeWaitsForPremium(
    m: map<string, Standing>, eligible: string -> bool, cap: nat, links: seq<string>, link: string)
    requires Chosen(m, eligible, cap, links) && link in links && !m[link].premium
    ensures PremiumLinks(m, eligible) <= AsSet(links) && |PremiumLinks(m, eligible)| < cap
  {
    forall x | x in PremiumLinks(m, eligible) ensures x in links {
      assert x !in links ==> Precedes(m[link], m[x]);
    }
    DistinctSize(links);
    assert link in AsSet(links) && link !in PremiumLinks(m, eligible);
    SubsetSize(PremiumLinks(m, eligible), AsSet(links));
  }

  /** The effect of a cycle on the pick rows: every pick of a fetched link is stamped with the attempt,
      or with the later time of its own successful re-price. */
  ghost predicate Stamped(rows: seq<PickRow>, rows': seq<PickRow>, links: seq<string>, from: int, to: int) {
    && |rows'| == |rows|
    && forall i :: 0 <= i < |rows| ==>
         && rows'[i].ref == rows[i].ref && rows'[i].tier == rows[i].tier
         && (if rows[i].ref in links then rows'[i].attempted.Some? && from <= rows'[i].attempted.value <= to
             else rows'[i].attempted == rows[i].attempted)
  }

  function OnEligible(eligible: string -> bool): PickRow -> bool { (r: PickRow) => eligible(r.ref) }

  /** What an eligible link stands for depends on the rows of eligible links alone. */
  lemma {:induction false} StandingOfEligible(rows: seq<PickRow>, eligible: string -> bool, x: string)
    requires eligible(x)
    ensures var kept := Standings(Filter(OnEligible(eligible), rows));
            && (x in Standings(rows) <==> x in kept)
            && (x in kept ==> Standings(rows)[x] == kept[x])
  {
    hide Join, StandingOf, Filter;
    if rows != [] {
      var n := |rows| - 1;
      StandingOfEligible(rows[..n], eligible, x);
      FilterSnoc(OnEligible(eligible), rows, n);
      assert rows[..n + 1] == rows;
      var before := Filter(OnEligible(eligible), rows[..n]);
      assert (before + [rows[n]])[..|before|] == before;
      assert before + [] == before;
    }
  }

  /** Stamping the fetched links is a cycle, whatever happens to the rows of other links, as long as the clock is
      ahead of the eligible links' stamps. */
  lemma StampingIsACycle(
    rows: seq<PickRow>, rows': seq<PickRow>, eligible: string -> bool, links: seq<string>, from: int, to: int)
    requires from <= to
    requires Stamped(Filter(OnEligible(eligible), rows), Filter(OnEligible(eligible), rows'), links, from, to)
    requires forall i :: 0 <= i < |rows| && eligible(rows[i].ref) && rows[i].attempted.Some? ==>
             rows[i].attempted.value < from
    ensures Cycle(Standings(rows), Standings(rows'), eligible, links, from, to)
  {
    var kept, kept' := Filter(OnEligible(eligible), rows), Filter(OnEligible(eligible), rows');
    var m, m' := Standings(rows), Standings(rows');
    forall x | eligible(x)
      ensures x in m <==> x in m'
      ensures x in m ==> m'[x].premium == m[x].premium
      ensures x in m && m[x].stamp.Some? ==> m[x].stamp.value < from
      ensures x in m && x in links ==> m'[x].stamp.Some? && from <= m'[x].stamp.value <= to
      ensures x in m && x !in links ==> m'[x].stamp == m[x].stamp
    {
      StandingOfEligible(rows, eligible, x);
      StandingOfEligible(rows', eligible, x);
      StampedRefs(kept, kept', links, from, to, x);
      StandingsAreExact(rows, x);
      if x in m { StampedStanding(kept, kept', links, from, to, x); }
    }
  }

  lemma {:induction false} StampedRefs(
    rows: seq<PickRow>, rows': seq<PickRow>, links: seq<string>, from: int, to: int, x: string)
    requires Stamped(rows, rows', links, from, to)
    ensures x in Standings(rows) <==> x in Standings(rows')
  {
    if rows != [] { StampedRefs(rows[..|rows| - 1], rows'[..|rows| - 1], links, from, to, x); }
  }

  lemma {:induction false} StampedStanding(
    rows: seq<PickRow>, rows': seq<PickRow>, links: seq<string>, from: int, to: int, x: string)
    requires Stamped(rows, rows', links, from, to) && x in Standings(rows)
    ensures x in Standings(rows') && Standings(rows')[x].premium == Standings(rows)[x].premium
    ensures var stamp := Standings(rows')[x].stamp;
            if x in links then stamp.Some? && from <= stamp.value <= to else stamp == Standings(rows)[x].stamp
  {
    var n := |rows| - 1;
    StampedRefs(rows[..n], rows'[..n], links, from, to, x);
    if x in Standings(rows[..n]) { StampedStanding(rows[..n], rows'[..n], links, from, to, x); }
  }

  // ---- the queue over the rows themselves ----

  /** The links one cycle fetches. */
  function Fetched(rows: seq<PickRow>, eligible: string -> bool, cap: nat): seq<string> {
    SelectLinks(OrderedRefs(rows), eligible, cap)
  }

  /** One cycle on the pick rows, begun at `now` and over before `next`: of the eligible links, the fetched ones
      are stamped; what happens to the rows of other links is left open. */
  ghost predicate RowCycle(
    rows: seq<PickRow>, rows': seq<PickRow>, eligible: string -> bool, cap: nat, now: int, next: int)
  {
    exists to :: now <= to < next
      && Stamped(Filter(OnEligible(eligible), rows), Filter(OnEligible(eligible), rows'),
           Fetched(rows, eligible, cap), now, to)
  }

  /** No eligible link bears a stamp from `now` on. */
  ghost predicate Behind(rows: seq<PickRow>, eligible: string -> bool, now: int) {
    forall r :: r in rows && eligible(r.ref) && r.attempted.Some? ==> r.attempted.value < now
  }

  ghost predicate RowCycles(tables: seq<seq<PickRow>>, eligible: string -> bool, cap: nat, clock: seq<int>) {
    && |tables| == |clock| > 0
    && forall k :: 0 <= k < |tables| - 1 ==>
         RowCycle(tables[k], tables[k + 1], eligible, cap, clock[k], clock[k + 1])
  }

  lemma RowCycleIsACycle(
    rows: seq<PickRow>, rows': seq<PickRow>, eligible: string -> bool, cap: nat, now: int, next: int)
    requires RowCycle(rows, rows', eligible, cap, now, next) && Behind(rows, eligible, now)
    ensures CycleAt(Standings(rows), Standings(rows'), eligible, cap, Fetched(rows, eligible, cap), now, next)
    ensures Behind(rows', eligible, next)
  {
    hide SelectLinks, OrderedRefs, Standings, Chosen, Cycle;
    var links := Fetched(rows, eligible, cap);
    var kept, kept' := Filter(OnEligible(eligible), rows), Filter(OnEligible(eligible), rows');
    var to :| now <= to < next && Stamped(kept, kept', links, now, to);
    SelectionIsChosen(rows, eligible, cap);
    StampingIsACycle(rows, rows', eligible, links, now, to);
    forall r | r in rows' && eligible(r.ref) && r.attempted.Some? ensures r.attempted.value < next {
      FilterMember(OnEligible(eligible), rows', r);
      var i :| 0 <= i < |kept'| && kept'[i] == r;
      FilterMember(OnEligible(eligible), rows, kept[i]);
    }
  }

  lemma {:induction false} StaysBehind(
    tables: seq<seq<PickRow>>, eligible: string -> bool, cap: nat, clock: seq<int>, k: nat)
    requires RowCycles(tables, eligible, cap, clock) && k < |tables| && Behind(tables[0], eligible, clock[0])
    ensures Behind(tables[k], eligible, clock[k])
  {
    if k > 0 {
      StaysBehind(tables, eligible, cap, clock, k - 1);
      assert RowCycle(tables[k - 1], tables[k], eligible, cap, clock[k - 1], clock[k]);
      RowCycleIsACycle(tables[k - 1], tables[k], eligible, cap, clock[k - 1], clock[k]);
    }
  }

  /** Every eligible link with an open premium pick is fetched within as many cycles as it takes `cap` to cover
      the eligible premium links. */
  lemma EveryPremiumLinkIsFetched(
    tables: seq<seq<PickRow>>, eligible: string -> bool, cap: nat, clock: seq<int>, pick: PickRow)
    requires RowCycles(tables, eligible, cap, clock) && Behind(tables[0], eligible, clock[0])
    requires pick in tables[0] && pick.tier.Premium? && eligible(pick.ref)
    requires (|tables| - 1) * cap >= |PremiumLinks(Standings(tables[0]), eligible)|
    ensures exists k :: 0 <= k < |tables| - 1 && pick.ref in Fetched(tables[k], eligible, cap)
  {
    hide Fetched, Standings, Cycle, Chosen;
    var n := |tables| - 1;
    var ms := seq(|tables|, k requires 0 <= k < |tables| => Standings(tables[k]));
    var picked := seq(n, k requires 0 <= k < n => Fetched(tables[k], eligible, cap));
    forall k | 0 <= k < n ensures CycleAt(ms[k], ms[k + 1], eligible, cap, picked[k], clock[k], clock[k + 1]) {
      StaysBehind(tables, eligible, cap, clock, k);
      assert RowCycle(tables[k], tables[k + 1], eligible, cap, clock[k], clock[k + 1]);
      RowCycleIsACycle(tables[k], tables[k + 1], eligible, cap, clock[k], clock[k + 1]);
    }
    StandingsAreExact(tables[0], pick.ref);
    BoundedWaiting(ms, eligible, cap, picked, clock, pick.ref);
    var k :| 0 <= k < |picked| && pick.ref in picked[k];
    assert pick.ref in Fetched(tables[k], eligible, cap);
  }
}
