/** The candidate loop of the value pipeline (app/pipeline.py run_value_pipeline) with the gate policy it
    consults (app/edge/value_policy.py) and the settings validators (app/config.py): every scanned
    candidate is rejected, kept in the shadow tier, demoted by exactly one gate, or deferred as premium. */
module TierChain {
  import opened Prelude
  import opened Books
  import Anchors

  datatype Tier = Premium | Volume

  /** One value bet of the scan, with what the gates look up for it. */
  datatype Candidate = Candidate(
    market: string, detail: Option<string>, edge: real, odds: real, sharpFair: real, implied: real,
    anchor: string, capturedAt: Option<int>, league: string, mlScore: Option<real>, steamTripped: bool)

  datatype VisibilityEntry = VisibilityEntry(sport: Option<string>, market: string)

  datatype MlFilter = MlFilter(threshold: real, shadow: bool)

  datatype Policy = Policy(
    sport: string, maxAgeSeconds: int,
    volumeMinEdge: real, minEdge: real, minEdgeByMarket: seq<(string, real)>,
    oddsBands: seq<(real, real)>, ahMaxOdds: real, ahMaxRatio: real, moneylineMaxOdds: Option<real>,
    majorLeagues: seq<string>, requireSharp: bool, visibilityOnly: seq<VisibilityEntry>, experimental: set<string>,
    mlEnabled: bool, mlFilter: Option<MlFilter>, steamEnabled: Option<bool>,
    normLeague: string -> string)

  const H2H := "h2h"

  // ---- the policy lookups ----

  /** The line-qualified key first, then the market family. */
  function LookupKeys(t: Tables, market: string, detail: Option<string>): seq<string> {
    var family := t.norm(market);
    if detail.Some? && t.norm(detail.value) != "" && t.norm(detail.value) != family
    then [t.norm(detail.value), family] else [family]
  }

  /** A dictionary built from pairs: the last entry of a key wins. */
  function DictGet(entries: seq<(string, real)>, key: string): Option<real> {
    if entries == [] then None
    else if entries[|entries| - 1].0 == key then Some(entries[|entries| - 1].1)
    else DictGet(entries[..|entries| - 1], key)
  }

  function FirstHit(entries: seq<(string, real)>, keys: seq<string>, default: real): real {
    if keys == [] then default
    else
      var hit := DictGet(entries, keys[0]);
      if hit.Some? then hit.value else FirstHit(entries, keys[1..], default)
  }

  function PremiumFloor(t: Tables, p: Policy, market: string, detail: Option<string>): real {
    FirstHit(p.minEdgeByMarket, LookupKeys(t, market, detail), p.minEdge)
  }

  function PickTier(edge: real, premium: real, volume: real): Option<Tier> {
    if edge >= premium then Some(Premium) else if edge >= volume then Some(Volume) else None
  }

  predicate SportInScope(entry: Option<string>, sport: string) {
    entry.None? || (sport != "" && (sport == entry.value || entry.value + "_" <= sport))
  }

  predicate EntryCaps(t: Tables, p: Policy, e: VisibilityEntry, market: string, detail: Option<string>) {
    && e.market != ""
    && SportInScope(e.sport, t.norm(p.sport))
    && (e.market in LookupKeys(t, market, detail)
        || (detail.Some? && t.norm(detail.value) != ""
           && (t.norm(detail.value) == e.market || e.market + "_" <= t.norm(detail.value))))
  }

  predicate VisibilityOnly(t: Tables, p: Policy, market: string, detail: Option<string>) {
    exists i :: 0 <= i < |p.visibilityOnly| && EntryCaps(t, p, p.visibilityOnly[i], market, detail)
  }

  predicate MajorLeague(p: Policy, league: string) {
    || p.majorLeagues == []
    || (p.normLeague(league) != ""
        && exists i :: 0 <= i < |p.majorLeagues| && p.normLeague(p.majorLeagues[i]) == p.normLeague(league))
  }

  predicate IsAsianHandicap(t: Tables, detail: Option<string>) {
    detail.Some? && detail.value != "" && "asian_handicap" <= t.norm(detail.value)
  }

  predicate AhPlausible(p: Policy, c: Candidate) {
    c.odds <= p.ahMaxOdds && c.implied > 0.0 && c.sharpFair / c.implied <= p.ahMaxRatio
  }

  predicate RejectedAsSentinel(t: Tables, p: Policy, c: Candidate) {
    IsAsianHandicap(t, c.detail) && !AhPlausible(p, c)
  }

  /** An unknown capture time is infinitely old; a future one is fresh. */
  predicate IsStale(p: Policy, now: int, c: Candidate) {
    c.capturedAt.None? || (if now - c.capturedAt.value >= 0 then now - c.capturedAt.value else 0) > p.maxAgeSeconds
  }

  predicate InBands(p: Policy, odds: real) {
    p.oddsBands == [] || exists i :: 0 <= i < |p.oddsBands| && p.oddsBands[i].0 <= odds <= p.oddsBands[i].1
  }

  // ---- the gates ----

  datatype Gate = Visibility | Moneyline | Major | NoSharp | Experimental | Ml | Steam

  const CHAIN: seq<Gate> := [Visibility, Moneyline, Major, NoSharp, Experimental, Ml, Steam]

  /** The gate is enabled and turns this candidate away from the premium tier. */
  predicate Fails(t: Tables, p: Policy, c: Candidate, g: Gate) {
    match g
    case Visibility => VisibilityOnly(t, p, c.market, c.detail)
    case Moneyline => c.market == H2H && p.moneylineMaxOdds.Some? && c.odds > p.moneylineMaxOdds.value
    case Major => !MajorLeague(p, c.league)
    case NoSharp => p.requireSharp && Anchors.AnchorTypeFor(t, c.anchor) == Consensus
    case Experimental => p.sport in p.experimental
    case Ml => p.mlEnabled && p.mlFilter.Some? && !p.mlFilter.value.shadow && c.mlScore.Some?
      && c.mlScore.value < p.mlFilter.value.threshold
    case Steam => p.steamEnabled == Some(true) && c.anchor != CONSENSUS_ANCHOR && c.steamTripped
  }

  datatype Verdict =
    | AhRejected | Stale | OffBand | BelowFloors | NativeVolume
    | Demoted(gate: Gate)
    | DeferredPremium

  /** The first gate of the chain, from the k-th on, that the candidate fails. */
  function FirstFailing(t: Tables, p: Policy, c: Candidate, k: nat): (g: Option<Gate>)
    requires k <= |CHAIN|
    ensures g.None? ==> forall i :: k <= i < |CHAIN| ==> !Fails(t, p, c, CHAIN[i])
    ensures g.Some? ==>
              && Fails(t, p, c, g.value)
              && exists i :: k <= i < |CHAIN| && CHAIN[i] == g.value
                             && forall j :: k <= j < i ==> !Fails(t, p, c, CHAIN[j])
    decreases |CHAIN| - k
  {
    if k == |CHAIN| then None
    else if Fails(t, p, c, CHAIN[k]) then Some(CHAIN[k])
    else FirstFailing(t, p, c, k + 1)
  }

  function Judge(t: Tables, p: Policy, now: int, c: Candidate): Verdict {
    if RejectedAsSentinel(t, p, c) then AhRejected
    else if IsStale(p, now, c) then Stale
    else if !InBands(p, c.odds) then OffBand
    else
      var tier := PickTier(c.edge, PremiumFloor(t, p, c.market, c.detail), p.volumeMinEdge);
      if tier.None? then BelowFloors
      else if tier.value.Volume? then NativeVolume
      else
        var g := FirstFailing(t, p, c, 0);
        if g.Some? then Demoted(g.value) else DeferredPremium
  }

  function Tally(t: Tables, p: Policy, now: int, cs: seq<Candidate>, v: Verdict): nat {
    if cs == [] then 0
    else Tally(t, p, now, cs[..|cs| - 1], v) + if Judge(t, p, now, cs[|cs| - 1]) == v then 1 else 0
  }

  function Deferred(t: Tables, p: Policy, now: int): Candidate -> bool {
    (c: Candidate) => Judge(t, p, now, c) == DeferredPremium
  }

  // ---- the loop ----

  datatype Counters = Counters(
    ahRejected: nat, freshness: nat, stale: nat, offBand: nat,
    visibility: nat, moneyline: nat, major: nat, noSharp: nat, experimental: nat, ml: nat, steam: nat)

  function DemotedBy(k: Counters, g: Gate): nat {
    match g
    case Visibility => k.visibility
    case Moneyline => k.moneyline
    case Major => k.major
    case NoSharp => k.noSharp
    case Experimental => k.experimental
    case Ml => k.ml
    case Steam => k.steam
  }

  function Bump(k: Counters, g: Gate): Counters {
    match g
    case Visibility => k.(visibility := k.visibility + 1)
    case Moneyline => k.(moneyline := k.moneyline + 1)
    case Major => k.(major := k.major + 1)
    case NoSharp => k.(noSharp := k.noSharp + 1)
    case Experimental => k.(experimental := k.experimental + 1)
    case Ml => k.(ml := k.ml + 1)
    case Steam => k.(steam := k.steam + 1)
  }

  /** The demotion chain of one candidate: seven guarded statements over a mutable tier. */
  method DemotionChain(t: Tables, p: Policy, c: Candidate, native: Tier, counters: Counters)
    returns (tier: Tier, k: Counters)
    ensures native.Volume? ==> tier == Volume && k == counters
    ensures native.Premium? ==>
              var g := FirstFailing(t, p, c, 0);
              if g.Some? then tier == Volume && k == Bump(counters, g.value) else tier == Premium && k == counters
  {
    hide FirstFailing, VisibilityOnly, MajorLeague, Anchors.AnchorTypeFor;
    tier, k := native, counters;
    if tier.Premium? && VisibilityOnly(t, p, c.market, c.detail) {
      tier := Volume;
      k := k.(visibility := k.visibility + 1);
    }
    if tier.Premium? && c.market == H2H && p.moneylineMaxOdds.Some? && c.odds > p.moneylineMaxOdds.value {
      tier := Volume;
      k := k.(moneyline := k.moneyline + 1);
    }
    if tier.Premium? {
      if !MajorLeague(p, c.league) {
        tier := Volume;
        k := k.(major := k.major + 1);
      }
    }
    if tier.Premium? && p.requireSharp && Anchors.AnchorTypeFor(t, c.anchor) == Consensus {
      tier := Volume;
      k := k.(noSharp := k.noSharp + 1);
    }
    if tier.Premium? && p.sport in p.experimental {
      tier := Volume;
      k := k.(experimental := k.experimental + 1);
    }
    if p.mlEnabled && p.mlFilter.Some? && !p.mlFilter.value.shadow && tier.Premium?
       && c.mlScore.Some? && c.mlScore.value < p.mlFilter.value.threshold {
      tier := Volume;
      k := k.(ml := k.ml + 1);
    }
    if p.steamEnabled.Some? && c.anchor != CONSENSUS_ANCHOR && c.steamTripped {
      if p.steamEnabled.value && tier.Premium? {
        tier := Volume;
        k := k.(steam := k.steam + 1);
      }
    }
    ChainUnrolled(t, p, c);
  }

  lemma ChainUnrolled(t: Tables, p: Policy, c: Candidate)
    ensures FirstFailing(t, p, c, 0) ==
      if Fails(t, p, c, Visibility) then Some(Visibility) else if Fails(t, p, c, Moneyline) then Some(Moneyline)
      else if Fails(t, p, c, Major) then Some(Major) else if Fails(t, p, c, NoSharp) then Some(NoSharp)
      else if Fails(t, p, c, Experimental) then Some(Experimental) else if Fails(t, p, c, Ml) then Some(Ml)
      else if Fails(t, p, c, Steam) then Some(Steam) else None
  {
    hide Fails;
    assert |CHAIN| == 7;
    assert FirstFailing(t, p, c, 7) == None;
    assert FirstFailing(t, p, c, 5) == if Fails(t, p, c, Ml) then Some(Ml) else FirstFailing(t, p, c, 6);
    assert FirstFailing(t, p, c, 3) == if Fails(t, p, c, NoSharp) then Some(NoSharp) else FirstFailing(t, p, c, 4);
    assert FirstFailing(t, p, c, 1) == if Fails(t, p, c, Moneyline) then Some(Moneyline) else FirstFailing(t, p, c, 2);
  }

  ghost predicate Counted(t: Tables, p: Policy, now: int, cs: seq<Candidate>, k: Counters) {
    && k.ahRejected == Tally(t, p, now, cs, AhRejected)
    && k.freshness == |cs| - k.ahRejected
    && k.stale == Tally(t, p, now, cs, Stale)
    && k.offBand == Tally(t, p, now, cs, OffBand)
    && forall g: Gate :: DemotedBy(k, g) == Tally(t, p, now, cs, Demoted(g))
  }

  /** What the counters become once a candidate is judged `v`. */
  function Record(k: Counters, v: Verdict): Counters {
    match v
    case AhRejected => k.(ahRejected := k.ahRejected + 1)
    case Stale => k.(freshness := k.freshness + 1, stale := k.stale + 1)
    case OffBand => k.(freshness := k.freshness + 1, offBand := k.offBand + 1)
    case Demoted(g) => Bump(k.(freshness := k.freshness + 1), g)
    case _ => k.(freshness := k.freshness + 1)
  }

  lemma CountedSnoc(t: Tables, p: Policy, now: int, cs: seq<Candidate>, i: nat, k: Counters)
    requires i < |cs| && Counted(t, p, now, cs[..i], k)
    ensures Counted(t, p, now, cs[..i + 1], Record(k, Judge(t, p, now, cs[i])))
  {
    hide Judge;
    assert cs[..i + 1][..i] == cs[..i];
    forall v
      ensures Tally(t, p, now, cs[..i + 1], v)
              == Tally(t, p, now, cs[..i], v) + if Judge(t, p, now, cs[i]) == v then 1 else 0 {
    }
  }

  method RunCandidates(t: Tables, p: Policy, now: int, cs: seq<Candidate>)
    returns (k: Counters, deferred: seq<Candidate>)
    ensures Counted(t, p, now, cs, k)
    ensures deferred == Filter(Deferred(t, p, now), cs)
  {
    hide Judge, Counted, Record;
    k := Counters(0, 0, 0, 0, 0, 0, 0, 0, 0, 0, 0);
    deferred := [];
    NothingCounted(t, p, now, cs[..0], k);
    for i := 0 to |cs|
      invariant Counted(t, p, now, cs[..i], k)
      invariant deferred == Filter(Deferred(t, p, now), cs[..i])
    {
      CountedSnoc(t, p, now, cs, i, k);
      FilterSnoc(Deferred(t, p, now), cs, i);
      var kept;
      kept, k := OneCandidate(t, p, now, cs[i], k);
      if kept {
        deferred := deferred + [cs[i]];
      }
    }
    assert cs[..|cs|] == cs;
  }

  lemma NothingCounted(t: Tables, p: Policy, now: int, cs: seq<Candidate>, k: Counters)
    requires cs == [] && k == Counters(0, 0, 0, 0, 0, 0, 0, 0, 0, 0, 0)
    ensures Counted(t, p, now, cs, k)
  {
  }

  /** One iteration of the loop: `kept` says that the candidate was deferred as premium. */
  method OneCandidate(t: Tables, p: Policy, now: int, c: Candidate, k0: Counters) returns (kept: bool, k: Counters)
    ensures kept <==> Judge(t, p, now, c) == DeferredPremium
    ensures k == Record(k0, Judge(t, p, now, c))
  {
    hide RejectedAsSentinel, IsStale, InBands, PremiumFloor, FirstFailing, Fails;
    kept, k := false, k0;
    if RejectedAsSentinel(t, p, c) {
      k := k.(ahRejected := k.ahRejected + 1);
      return;
    }
    k := k.(freshness := k.freshness + 1);
    if IsStale(p, now, c) {
      k := k.(stale := k.stale + 1);
      return;
    }
    if !InBands(p, c.odds) {
      k := k.(offBand := k.offBand + 1);
      return;
    }
    var native := PickTier(c.edge, PremiumFloor(t, p, c.market, c.detail), p.volumeMinEdge);
    if native.None? {
      return;
    }
    var tier;
    tier, k := DemotionChain(t, p, c, native.value, k);
    kept := tier.Premium?;
  }

  // ---- conservation ----

  /** The native-volume and below-both-floors candidates, which the source does not count. */
  function Uncounted(t: Tables, p: Policy, now: int, cs: seq<Candidate>): nat {
    Tally(t, p, now, cs, NativeVolume) + Tally(t, p, now, cs, BelowFloors)
  }

  function AllDemotions(t: Tables, p: Policy, now: int, cs: seq<Candidate>): nat {
    Tally(t, p, now, cs, Demoted(Visibility)) + Tally(t, p, now, cs, Demoted(Moneyline))
      + Tally(t, p, now, cs, Demoted(Major))
    + Tally(t, p, now, cs, Demoted(NoSharp)) + Tally(t, p, now, cs, Demoted(Experimental))
      + Tally(t, p, now, cs, Demoted(Ml))
    + Tally(t, p, now, cs, Demoted(Steam))
  }

  /** Every scanned candidate ends in exactly one place. */
  lemma {:induction false} TallyAccountsForAll(t: Tables, p: Policy, now: int, cs: seq<Candidate>)
    ensures |cs| == Tally(t, p, now, cs, AhRejected) + Tally(t, p, now, cs, Stale) + Tally(t, p, now, cs, OffBand)
                    + Uncounted(t, p, now, cs) + AllDemotions(t, p, now, cs) + Tally(t, p, now, cs, DeferredPremium)
  {
    hide Judge;
    if cs != [] {
      TallyAccountsForAll(t, p, now, cs[..|cs| - 1]);
      var v := Judge(t, p, now, cs[|cs| - 1]);
      match v {
        case Demoted(g) =>
          match g {
            case Visibility => case Moneyline => case Major => case NoSharp => case Experimental => case Ml =>
              case Steam =>
          }
        case _ =>
      }
    }
  }

  lemma {:induction false} TallyDeferred(t: Tables, p: Policy, now: int, cs: seq<Candidate>)
    ensures |Filter(Deferred(t, p, now), cs)| == Tally(t, p, now, cs, DeferredPremium)
  {
    hide Judge;
    if cs != [] {
      var n := |cs| - 1;
      TallyDeferred(t, p, now, cs[..n]);
      FilterSnoc(Deferred(t, p, now), cs, n);
      assert cs[..n + 1] == cs;
    }
  }

  function Demotions(k: Counters): nat {
    k.visibility + k.moneyline + k.major + k.noSharp + k.experimental + k.ml + k.steam
  }

  /** What the cycle's counters add up to. */
  lemma CountersAreConserved(t: Tables, p: Policy, now: int, cs: seq<Candidate>, k: Counters)
    requires Counted(t, p, now, cs, k)
    ensures |cs| == k.ahRejected + k.freshness
    ensures k.freshness == k.stale + k.offBand + Uncounted(t, p, now, cs) + Demotions(k)
            + |Filter(Deferred(t, p, now), cs)|
  {
    hide Judge, Tally;
    TallyAccountsForAll(t, p, now, cs);
    TallyDeferred(t, p, now, cs);
    assert DemotedBy(k, Visibility) == k.visibility && DemotedBy(k, Moneyline) == k.moneyline
      && DemotedBy(k, Major) == k.major;
    assert DemotedBy(k, NoSharp) == k.noSharp && DemotedBy(k, Experimental) == k.experimental;
    assert DemotedBy(k, Ml) == k.ml && DemotedBy(k, Steam) == k.steam;
  }

  /** A candidate is deferred as premium exactly when it passes every guard and every gate at once; a
      demotion blames the first failing gate of an edge that had earned premium. */
  lemma PremiumPassesEveryGate(t: Tables, p: Policy, now: int, c: Candidate)
    ensures Judge(t, p, now, c) == DeferredPremium <==>
              && !RejectedAsSentinel(t, p, c) && !IsStale(p, now, c) && InBands(p, c.odds)
              && c.edge >= PremiumFloor(t, p, c.market, c.detail)
              && forall g: Gate :: !Fails(t, p, c, g)
    ensures Judge(t, p, now, c).Demoted? ==>
              && c.edge >= PremiumFloor(t, p, c.market, c.detail)
              && Fails(t, p, c, Judge(t, p, now, c).gate)
  {
    ChainUnrolled(t, p, c);
    hide Fails, FirstFailing, RejectedAsSentinel, IsStale, InBands, PremiumFloor;
    if forall g: Gate :: !Fails(t, p, c, g) {
      assert FirstFailing(t, p, c, 0).None?;
    } else {
      var g: Gate :| Fails(t, p, c, g);
      match g { case Visibility => case Moneyline => case Major => case NoSharp => case Experimental => case Ml =>
        case Steam => }
    }
  }

  // ---- the settings make the last branch dead ----

  function LeastOverride(entries: seq<(string, real)>, floor: real): real {
    if entries == [] then floor else Min(entries[0].1, LeastOverride(entries[1..], floor))
  }

  /** The scan goes down to the lowest of the volume floor, the premium floor and the overrides. */
  function ScanMinEdge(p: Policy): real { LeastOverride(p.minEdgeByMarket, Min(p.volumeMinEdge, p.minEdge)) }

  /** What the Settings validators enforce at start-up. */
  ghost predicate Validated(p: Policy) {
    p.volumeMinEdge <= p.minEdge && forall i :: 0 <= i < |p.minEdgeByMarket| ==>
      p.volumeMinEdge <= p.minEdgeByMarket[i].1
  }

  lemma {:induction false} LeastOverrideBounds(entries: seq<(string, real)>, floor: real)
    ensures LeastOverride(entries, floor) <= floor
    ensures forall i :: 0 <= i < |entries| ==> LeastOverride(entries, floor) <= entries[i].1
    ensures LeastOverride(entries, floor) == floor
            || exists i :: 0 <= i < |entries| && LeastOverride(entries, floor) == entries[i].1
  {
    if entries != [] {
      LeastOverrideBounds(entries[1..], floor);
      assert forall i :: 1 <= i < |entries| ==> entries[i] == entries[1..][i - 1];
    }
  }

  lemma {:induction false} DictGetIsAnEntry(entries: seq<(string, real)>, key: string)
    ensures DictGet(entries, key).Some? ==>
            exists i :: 0 <= i < |entries| && entries[i].1 == DictGet(entries, key).value
  {
    if entries != [] && entries[|entries| - 1].0 != key { DictGetIsAnEntry(entries[..|entries| - 1], key); }
  }

  lemma {:induction false} FloorIsAnEntry(entries: seq<(string, real)>, keys: seq<string>, default: real)
    ensures var f := FirstHit(entries, keys, default);
            f == default || exists i :: 0 <= i < |entries| && entries[i].1 == f
  {
    if keys != [] {
      DictGetIsAnEntry(entries, keys[0]);
      FloorIsAnEntry(entries, keys[1..], default);
    }
  }

  /** A scanned edge can fall below both floors of a market exactly when the scan reaches below both. */
  lemma DeadBranchCondition(t: Tables, p: Policy, market: string, detail: Option<string>)
    ensures (forall edge :: edge >= ScanMinEdge(p) ==>
            PickTier(edge, PremiumFloor(t, p, market, detail), p.volumeMinEdge).Some?)
              <==> ScanMinEdge(p) >= Min(p.volumeMinEdge, PremiumFloor(t, p, market, detail))
  {
    hide ScanMinEdge, PremiumFloor;
    var scan := ScanMinEdge(p);
    assert PickTier(scan, PremiumFloor(t, p, market, detail), p.volumeMinEdge).Some?
           <==> scan >= Min(p.volumeMinEdge, PremiumFloor(t, p, market, detail));
  }

  /** Under the validators the scan stops at the volume floor, and no scanned candidate is below both. */
  lemma NoScannedCandidateIsTierless(t: Tables, p: Policy, now: int, c: Candidate)
    requires Validated(p) && c.edge >= ScanMinEdge(p)
    ensures ScanMinEdge(p) == p.volumeMinEdge
    ensures Judge(t, p, now, c) != BelowFloors
  {
    LeastOverrideBounds(p.minEdgeByMarket, Min(p.volumeMinEdge, p.minEdge));
    FloorIsAnEntry(p.minEdgeByMarket, LookupKeys(t, c.market, c.detail), p.minEdge);
    hide RejectedAsSentinel, IsStale, InBands, FirstFailing;
  }

  // ---- the verdict, told over the settings themselves ----

  /** Entry `i` is the last one under this key. */
  ghost predicate LastUnder(entries: seq<(string, real)>, key: string, i: int) {
    0 <= i < |entries| && entries[i].0 == key && forall j :: i < j < |entries| ==> entries[j].0 != key
  }

  ghost predicate Unlisted(entries: seq<(string, real)>, key: string) {
    forall j :: 0 <= j < |entries| ==> entries[j].0 != key
  }

  ghost predicate HasLine(t: Tables, detail: Option<string>) { detail.Some? && t.norm(detail.value) != "" }

  /** The premium floor of a market: the last override of its line, else the last override of its family, else the
      default. */
  ghost predicate IsFloor(t: Tables, p: Policy, market: string, detail: Option<string>, f: real) {
    && (HasLine(t, detail) ==>
          forall i :: LastUnder(p.minEdgeByMarket, t.norm(detail.value), i) ==> f == p.minEdgeByMarket[i].1)
    && (!HasLine(t, detail) || Unlisted(p.minEdgeByMarket, t.norm(detail.value)) ==>
          && (forall i :: LastUnder(p.minEdgeByMarket, t.norm(market), i) ==> f == p.minEdgeByMarket[i].1)
          && (Unlisted(p.minEdgeByMarket, t.norm(market)) ==> f == p.minEdge))
  }

  lemma {:induction false} DictGetIsLast(entries: seq<(string, real)>, key: string)
    ensures DictGet(entries, key).Some? ==>
              exists i :: LastUnder(entries, key, i) && DictGet(entries, key) == Some(entries[i].1)
    ensures DictGet(entries, key).None? ==> Unlisted(entries, key)
  {
    if entries != [] {
      var n := |entries| - 1;
      DictGetIsLast(entries[..n], key);
      assert forall j :: 0 <= j < n ==> entries[j] == entries[..n][j];
      if entries[n].0 == key {
        assert LastUnder(entries, key, n);
      } else if DictGet(entries, key).Some? {
        var i :| LastUnder(entries[..n], key, i) && DictGet(entries, key) == Some(entries[..n][i].1);
        assert LastUnder(entries, key, i);
      }
    }
  }

  lemma OneLastUnder(entries: seq<(string, real)>, key: string, i: int, j: int)
    requires LastUnder(entries, key, i)
    ensures LastUnder(entries, key, j) ==> j == i
    ensures !Unlisted(entries, key)
  {
  }

  /** The override in force is the floor, and the only one. */
  lemma PremiumFloorExactly(t: Tables, p: Policy, market: string, detail: Option<string>, f: real)
    ensures IsFloor(t, p, market, detail, f) <==> f == PremiumFloor(t, p, market, detail)
  {
    hide DictGet, LastUnder, Unlisted;
    var family := t.norm(market);
    KeyDecides(p.minEdgeByMarket, family);
    OneKey(p.minEdgeByMarket, family, p.minEdge);
    var keys := LookupKeys(t, market, detail);
    if HasLine(t, detail) {
      KeyDecides(p.minEdgeByMarket, t.norm(detail.value));
      if t.norm(detail.value) != family {
        assert keys[1..] == [family];
      }
    }
  }

  lemma OneKey(entries: seq<(string, real)>, key: string, default: real)
    ensures FirstHit(entries, [key], default) ==
            if DictGet(entries, key).Some? then DictGet(entries, key).value else default
  {
    assert [key][1..] == [];
  }

  lemma KeyDecides(entries: seq<(string, real)>, key: string)
    ensures DictGet(entries, key).None? <==> Unlisted(entries, key)
    ensures DictGet(entries, key).None? ==> forall i :: !LastUnder(entries, key, i)
    ensures DictGet(entries, key).Some? ==>
              && (exists i :: LastUnder(entries, key, i))
              && forall i :: LastUnder(entries, key, i) ==> entries[i].1 == DictGet(entries, key).value
  {
    hide DictGet;
    DictGetIsLast(entries, key);
    if DictGet(entries, key).Some? {
      var i :| LastUnder(entries, key, i) && DictGet(entries, key) == Some(entries[i].1);
      forall j | LastUnder(entries, key, j) ensures j == i {
        OneLastUnder(entries, key, i, j);
      }
      OneLastUnder(entries, key, i, i);
    }
  }

  ghost predicate StartsWith(s: string, prefix: string) { |prefix| <= |s| && s[..|prefix|] == prefix }

  /** The candidate is a corrupt handicap price: on an Asian handicap line, too long, worthless, or too far below
      the sharp fair value. */
  ghost predicate Corrupt(t: Tables, p: Policy, c: Candidate) {
    && c.detail.Some? && c.detail.value != "" && StartsWith(t.norm(c.detail.value), "asian_handicap")
    && (c.odds > p.ahMaxOdds || c.implied <= 0.0 || c.sharpFair / c.implied > p.ahMaxRatio)
  }

  /** The price was captured at a known time no longer ago than allowed. */
  ghost predicate Fresh(p: Policy, now: int, c: Candidate) {
    c.capturedAt.Some? && p.maxAgeSeconds >= 0 && now - c.capturedAt.value <= p.maxAgeSeconds
  }

  ghost predicate Banded(p: Policy, odds: real) {
    |p.oddsBands| > 0 ==> exists band :: band in p.oddsBands && band.0 <= odds && odds <= band.1
  }

  /** An entry caps a market in its sport, or in every sport if it names none: under the market's line or family, or
      under the family stem of the line. */
  ghost predicate Caps(t: Tables, p: Policy, e: VisibilityEntry, market: string, detail: Option<string>) {
    var sport, line := t.norm(p.sport), if detail.Some? then t.norm(detail.value) else "";
    && e.market != ""
    && (e.sport.Some? ==> sport != "" && (sport == e.sport.value || StartsWith(sport, e.sport.value + "_")))
    && (e.market == t.norm(market) || (line != "" && (line == e.market || StartsWith(line, e.market + "_"))))
  }

  /** The gate turns the candidate away from the premium tier. */
  ghost predicate TurnsAway(t: Tables, p: Policy, c: Candidate, g: Gate) {
    match g
    case Visibility => exists e :: e in p.visibilityOnly && Caps(t, p, e, c.market, c.detail)
    case Moneyline => c.market == "h2h" && p.moneylineMaxOdds.Some? && p.moneylineMaxOdds.value < c.odds
    case Major =>
      |p.majorLeagues| > 0
      && (p.normLeague(c.league) == "" || forall l :: l in p.majorLeagues ==> p.normLeague(l) != p.normLeague(c.league))
    case NoSharp =>
      p.requireSharp
      && (c.anchor == CONSENSUS_ANCHOR
          || (!Anchors.Contains(t.norm(c.anchor), "pinnacle") && t.norm(c.anchor) !in t.sharpBooks))
    case Experimental => p.sport in p.experimental
    case Ml =>
      p.mlEnabled && exists f, score ::
        p.mlFilter == Some(f) && c.mlScore == Some(score) && !f.shadow && score < f.threshold
    case Steam => p.steamEnabled == Some(true) && c.anchor != CONSENSUS_ANCHOR && c.steamTripped
  }

  /** The gates in the order they are tried. */
  ghost function Turn(g: Gate): nat {
    match g
    case Visibility => 0 case Moneyline => 1 case Major => 2 case NoSharp => 3
    case Experimental => 4 case Ml => 5 case Steam => 6
  }

  lemma CapsMeans(t: Tables, p: Policy, e: VisibilityEntry, market: string, detail: Option<string>)
    ensures Caps(t, p, e, market, detail) <==> EntryCaps(t, p, e, market, detail)
  {
    var keys := LookupKeys(t, market, detail);
    assert e.market in keys <==>
             e.market == t.norm(market) || (HasLine(t, detail) && t.norm(detail.value) == e.market);
  }

  lemma GateMeans(t: Tables, p: Policy, c: Candidate, g: Gate)
    ensures TurnsAway(t, p, c, g) <==> Fails(t, p, c, g)
  {
    hide Caps, EntryCaps;
    forall e ensures Caps(t, p, e, c.market, c.detail) <==> EntryCaps(t, p, e, c.market, c.detail) {
      CapsMeans(t, p, e, c.market, c.detail);
    }
    assert forall i :: 0 <= i < |p.visibilityOnly| ==> p.visibilityOnly[i] in p.visibilityOnly;
    assert forall i :: 0 <= i < |p.majorLeagues| ==> p.majorLeagues[i] in p.majorLeagues;
  }

  lemma GuardsMean(t: Tables, p: Policy, now: int, c: Candidate)
    ensures Corrupt(t, p, c) <==> RejectedAsSentinel(t, p, c)
    ensures Fresh(p, now, c) <==> !IsStale(p, now, c)
    ensures Banded(p, c.odds) <==> InBands(p, c.odds)
  {
    assert forall i :: 0 <= i < |p.oddsBands| ==> p.oddsBands[i] in p.oddsBands;
  }

  /** Every verdict, told without the chain: the guards in order, then the tier the edge earns against the floor in
      force, and for a premium edge the first gate that turns it away. */
  lemma VerdictExactly(t: Tables, p: Policy, now: int, c: Candidate, f: real)
    requires IsFloor(t, p, c.market, c.detail, f)
    ensures var v := Judge(t, p, now, c);
            var heard := !Corrupt(t, p, c) && Fresh(p, now, c) && Banded(p, c.odds);
            && (v == AhRejected <==> Corrupt(t, p, c))
            && (v == Stale <==> !Corrupt(t, p, c) && !Fresh(p, now, c))
            && (v == OffBand <==> !Corrupt(t, p, c) && Fresh(p, now, c) && !Banded(p, c.odds))
            && (v == BelowFloors <==> heard && c.edge < f && c.edge < p.volumeMinEdge)
            && (v == NativeVolume <==> heard && c.edge < f && c.edge >= p.volumeMinEdge)
            && (v == DeferredPremium <==> heard && c.edge >= f && forall g: Gate :: !TurnsAway(t, p, c, g))
            && forall g: Gate ::
                 v == Demoted(g) <==>
                   && heard && c.edge >= f && TurnsAway(t, p, c, g)
                   && forall h: Gate :: Turn(h) < Turn(g) ==> !TurnsAway(t, p, c, h)
  {
    PremiumFloorExactly(t, p, c.market, c.detail, f);
    GuardsMean(t, p, now, c);
    hide Fails, TurnsAway, FirstFailing, RejectedAsSentinel, IsStale, InBands, PremiumFloor, Corrupt, Fresh, Banded;
    hide IsFloor, Turn;
    forall g: Gate ensures TurnsAway(t, p, c, g) <==> Fails(t, p, c, g) { GateMeans(t, p, c, g); }
    FirstInTurn(t, p, c);
  }

  lemma FirstInTurn(t: Tables, p: Policy, c: Candidate)
    ensures var first := FirstFailing(t, p, c, 0);
            && (first.None? <==> forall g: Gate :: !Fails(t, p, c, g))
            && forall g: Gate ::
                 first == Some(g) <==> Fails(t, p, c, g) && forall h: Gate :: Turn(h) < Turn(g) ==> !Fails(t, p, c, h)
  {
    ChainUnrolled(t, p, c);
    hide Fails, FirstFailing;
    forall g: Gate
      ensures FirstFailing(t, p, c, 0) == Some(g) <==>
                Fails(t, p, c, g) && forall h: Gate :: Turn(h) < Turn(g) ==> !Fails(t, p, c, h)
    {
      EarlierGates(t, p, c, g);
    }
    if FirstFailing(t, p, c, 0).None? {
      forall g: Gate ensures !Fails(t, p, c, g) {
        match g { case Visibility => case Moneyline => case Major => case NoSharp => case Experimental => case Ml =>
          case Steam => }
      }
    }
  }

  lemma EarlierGates(t: Tables, p: Policy, c: Candidate, g: Gate)
    ensures (forall h: Gate :: Turn(h) < Turn(g) ==> !Fails(t, p, c, h)) <==>
              && (g != Visibility ==> !Fails(t, p, c, Visibility))
              && (Turn(g) > 1 ==> !Fails(t, p, c, Moneyline))
              && (Turn(g) > 2 ==> !Fails(t, p, c, Major))
              && (Turn(g) > 3 ==> !Fails(t, p, c, NoSharp))
              && (Turn(g) > 4 ==> !Fails(t, p, c, Experimental))
              && (Turn(g) > 5 ==> !Fails(t, p, c, Ml))
  {
    hide Fails;
    assert Turn(Visibility) == 0 && Turn(Moneyline) == 1 && Turn(Major) == 2 && Turn(NoSharp) == 3;
    assert Turn(Experimental) == 4 && Turn(Ml) == 5 && Turn(Steam) == 6;
  }
}
