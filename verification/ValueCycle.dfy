/** From scan to alert (app/pipeline.py run_value_pipeline, app/notifications/base.py build_pick_alert): the
    value scan feeds the candidate loop, and a premium pick is announced with the lowest price worth taking. */
module ValueCycle {
  import opened Prelude
  import opened Books
  import opened Anchors
  import opened ValueScan
  import TierChain

  /** The candidate a scanned bet becomes. */
  function CandidateOf(
    b: ValueBet, market: string, detail: Option<string>, capturedAt: Option<int>, league: string,
    mlScore: Option<real>, steamTripped: bool): TierChain.Candidate
  {
    TierChain.Candidate(market, detail, b.edge, b.odds, b.fair, b.implied, b.anchor, capturedAt, league, mlScore,
      steamTripped)
  }

  /** Under the settings validators every bet the scan hands over is judged by a tier, and one that is deferred
      as premium beats the premium floor of its own market at a soft book other than the anchor. */
  lemma ScannedBetsAreJudged(
    t: Tables, p: TierChain.Policy, limits: Limits, fair: seq<FairValue>, anchor: string, m: Market, tolerance: real,
    b: ValueBet, c: TierChain.Candidate, now: int)
    requires t.Valid() && TierChain.Validated(p) && limits.minEdge == TierChain.ScanMinEdge(p)
    requires b in Scan(t, limits, fair, anchor, m, tolerance)
    requires c == CandidateOf(b, c.market, c.detail, c.capturedAt, c.league, c.mlScore, c.steamTripped)
    ensures TierChain.Judge(t, p, now, c) != TierChain.BelowFloors
    ensures b.edge >= p.volumeMinEdge
    ensures TierChain.Judge(t, p, now, c) == TierChain.DeferredPremium ==>
              && b.edge >= TierChain.PremiumFloor(t, p, c.market, c.detail)
              && !t.Sharp(b.book) && t.norm(b.book) != t.norm(anchor)
  {
    hide TierChain.Judge, EffectiveOdds, TierChain.ScanMinEdge, TierChain.PremiumFloor, TierChain.Fails;
    ScanIsExact(t, limits, fair, anchor, m, tolerance);
    var i :| 0 <= i < |m| && Sound(t, limits, fair, anchor, m[i], b);
    TierChain.NoScannedCandidateIsTierless(t, p, now, c);
    TierChain.PremiumPassesEveryGate(t, p, now, c);
  }

  /** A scanned bet is deferred as premium only if its own figures pass: its price the odds bands and the limits on
      corrupt handicap lines and long moneylines, its edge the floor of its market, its anchor the sharp rule. */
  lemma PremiumBetsPass(
    t: Tables, p: TierChain.Policy, b: ValueBet, market: string, detail: Option<string>, capturedAt: Option<int>,
    league: string, mlScore: Option<real>, steamTripped: bool, now: int, f: real)
    requires TierChain.IsFloor(t, p, market, detail, f)
    requires TierChain.Judge(t, p, now, CandidateOf(b, market, detail, capturedAt, league, mlScore, steamTripped))
             == TierChain.DeferredPremium
    ensures b.edge >= f && capturedAt.Some? && 0 <= p.maxAgeSeconds && now - capturedAt.value <= p.maxAgeSeconds
    ensures p.oddsBands != [] ==> exists band :: band in p.oddsBands && band.0 <= b.odds <= band.1
    ensures detail.Some? && detail.value != "" && TierChain.StartsWith(t.norm(detail.value), "asian_handicap") ==>
              b.odds <= p.ahMaxOdds && b.implied > 0.0 && b.fair / b.implied <= p.ahMaxRatio
    ensures market == "h2h" && p.moneylineMaxOdds.Some? ==> b.odds <= p.moneylineMaxOdds.value
    ensures p.requireSharp ==> AnchorTypeFor(t, b.anchor) != Consensus
    ensures p.majorLeagues != [] ==> exists l :: l in p.majorLeagues && p.normLeague(l) == p.normLeague(league)
    ensures p.steamEnabled == Some(true) && steamTripped ==> b.anchor == CONSENSUS_ANCHOR
  {
    var c := CandidateOf(b, market, detail, capturedAt, league, mlScore, steamTripped);
    TierChain.VerdictExactly(t, p, now, c, f);
    assert forall g: TierChain.Gate :: !TierChain.TurnsAway(t, p, c, g);
    hide TierChain.Judge, TierChain.IsFloor, TierChain.Caps;
    assert !TierChain.TurnsAway(t, p, c, TierChain.Moneyline) && !TierChain.TurnsAway(t, p, c, TierChain.Major);
    assert !TierChain.TurnsAway(t, p, c, TierChain.NoSharp) && !TierChain.TurnsAway(t, p, c, TierChain.Steam);
  }

  // ---- the printed floor ----

  function Ceiling(x: real): int { -((-x).Floor) }

  lemma CeilingIsLeast(x: real, n: int)
    ensures x <= Ceiling(x) as real < x + 1.0
    ensures x <= n as real <==> Ceiling(x) <= n
  {
    if Ceiling(x) > n {
      assert Ceiling(x) as real >= n as real + 1.0;
    }
  }

  /** The least whole number of cents not below a price. */
  function RoundUp(odds: real): real { Ceiling(odds * 100.0) as real / 100.0 }

  predicate InCents(odds: real) { (odds * 100.0).Floor as real == odds * 100.0 }

  lemma RoundUpIsLeast(odds: real)
    ensures odds <= RoundUp(odds) < odds + 0.01
    ensures InCents(RoundUp(odds))
    ensures forall p :: InCents(p) ==> (odds <= p <==> RoundUp(odds) <= p)
  {
    hide Ceiling;
    var c := Ceiling(odds * 100.0);
    CeilingIsLeast(odds * 100.0, c);
    assert RoundUp(odds) * 100.0 == c as real;
    forall p | InCents(p) ensures odds <= p <==> RoundUp(odds) <= p {
      var n := (p * 100.0).Floor;
      CeilingIsLeast(odds * 100.0, n);
      assert c <= n <==> c as real <= n as real;
    }
  }

  /** The price below which the alert says to skip; the line is left out when there is no such price. */
  function PrintedFloor(t: Tables, fair: real, globalMinEdge: real, book: string): Option<real> {
    var floor := MinAcceptableOdds(t, fair, globalMinEdge, book);
    if floor.AtLeast? then Some(RoundUp(floor.odds)) else None
  }

  predicate TellsToSkip(t: Tables, fair: real, globalMinEdge: real, book: string, odds: real) {
    PrintedFloor(t, fair, globalMinEdge, book).Some? && odds < PrintedFloor(t, fair, globalMinEdge, book).value
  }

  /** The edge a displayed price leaves at a book. */
  ghost function EdgeLeft(t: Tables, fair: real, book: string, odds: real): (e: real)
    requires t.Valid() && odds > 1.0
  {
    EffectiveAboveOne(t, book, odds);
    fair - 1.0 / EffectiveOdds(t, book, odds)
  }

  lemma LongerPriceMoreEdge(t: Tables, fair: real, book: string, a: real, b: real)
    requires t.Valid() && a > 1.0 && b > 1.0
    ensures a <= b <==> EdgeLeft(t, fair, book, a) <= EdgeLeft(t, fair, book, b)
    ensures EdgeLeft(t, fair, book, a) < fair
  {
    EffectiveAboveOne(t, book, a);
    EffectiveAboveOne(t, book, b);
    EffectiveMonotone(t, book, a, b);
    ReciprocalOrder(EffectiveOdds(t, book, a), EffectiveOdds(t, book, b));
    QuotientPositive(1.0, EffectiveOdds(t, book, a));
  }

  /** A line is printed iff the fair value is above the global floor; its price then keeps that edge, and less
      than a cent off it no longer does. */
  lemma PrintedFloorKeepsTheEdge(t: Tables, fair: real, globalMinEdge: real, book: string)
    requires t.Valid() && 0.0 < fair < 1.0 && globalMinEdge >= 0.0
    ensures var printed := PrintedFloor(t, fair, globalMinEdge, book);
            && (printed.Some? <==> globalMinEdge < fair)
            && (printed.Some? ==>
                  && InCents(printed.value) && printed.value > 1.0
                  && EdgeLeft(t, fair, book, printed.value) >= globalMinEdge
                  && forall odds :: odds > 1.0 && EdgeLeft(t, fair, book, odds) >= globalMinEdge ==>
                       printed.value < odds + 0.01)
  {
    hide EffectiveOdds, MinAcceptableOdds;
    if globalMinEdge >= fair {
      NoFloorAboveFair(t, fair, globalMinEdge, book);
    } else {
      FloorIsTight(t, fair, globalMinEdge, book);
      var floor := MinAcceptableOdds(t, fair, globalMinEdge, book).odds;
      RoundUpIsLeast(floor);
      LongerPriceMoreEdge(t, fair, book, floor, RoundUp(floor));
      forall odds | odds > 1.0 && EdgeLeft(t, fair, book, odds) >= globalMinEdge
        ensures RoundUp(floor) < odds + 0.01
      {
        LongerPriceMoreEdge(t, fair, book, floor, odds);
      }
    }
  }

  /** The alert of a scanned bet advises against its own price exactly when the bet's edge is below that of the
      printed floor; for a price in whole cents, exactly when it is below the global premium floor. */
  lemma AlertAgainstItself(
    t: Tables, limits: Limits, fair: seq<FairValue>, anchor: string, m: Market, tolerance: real, b: ValueBet,
    globalMinEdge: real)
    requires t.Valid() && globalMinEdge >= 0.0 && 0.0 < b.fair < 1.0 && b in Scan(t, limits, fair, anchor, m, tolerance)
    ensures var printed := PrintedFloor(t, b.fair, globalMinEdge, b.book);
            var skip := TellsToSkip(t, b.fair, globalMinEdge, b.book, b.odds);
            && (printed.Some? <==> globalMinEdge < b.fair) && (printed.Some? ==> printed.value > 1.0)
            && (skip <==> printed.Some? && b.edge < EdgeLeft(t, b.fair, b.book, printed.value))
            && (InCents(b.odds) ==> (skip <==> b.edge < globalMinEdge < b.fair))
  {
    hide EffectiveOdds, Scan, MinAcceptableOdds, RoundUp;
    ScannedEdge(t, limits, fair, anchor, m, tolerance, b);
    PrintedFloorKeepsTheEdge(t, b.fair, globalMinEdge, b.book);
    if globalMinEdge < b.fair {
      var floor := MinAcceptableOdds(t, b.fair, globalMinEdge, b.book);
      FloorIsExact(t, b.fair, globalMinEdge, b.book, b.odds);
      FloorIsTight(t, b.fair, globalMinEdge, b.book);
      RoundUpIsLeast(floor.odds);
      LongerPriceMoreEdge(t, b.fair, b.book, RoundUp(floor.odds), b.odds);
    }
  }

  lemma ScannedEdge(
    t: Tables, limits: Limits, fair: seq<FairValue>, anchor: string, m: Market, tolerance: real, b: ValueBet)
    requires t.Valid() && b in Scan(t, limits, fair, anchor, m, tolerance)
    ensures b.odds > 1.0 && EffectiveOdds(t, b.book, b.odds) > 0.0
            && b.edge == b.fair - 1.0 / EffectiveOdds(t, b.book, b.odds)
  {
    hide EffectiveOdds, Bets, Disagrees;
    ScanIsExact(t, limits, fair, anchor, m, tolerance);
    var i :| 0 <= i < |m| && Sound(t, limits, fair, anchor, m[i], b);
  }

  /** The price at the floor keeps the edge with nothing to spare. */
  lemma FloorIsTight(t: Tables, fair: real, minEdge: real, book: string)
    requires t.Valid() && 0.0 < fair < 1.0 && 0.0 <= minEdge < fair
    ensures var floor := MinAcceptableOdds(t, fair, minEdge, book);
            floor.AtLeast? && floor.odds > 1.0 && EffectiveOdds(t, book, floor.odds) > 0.0
            && fair - 1.0 / EffectiveOdds(t, book, floor.odds) == minEdge
  {
    var headroom, k := fair - minEdge, 1.0 - t.Commission(book);
    var target := 1.0 / headroom;
    TargetAboveOne(headroom);
    QuotientPositive(target - 1.0, k);
    var x := (target - 1.0) / k;
    assert x * k == target - 1.0;
    assert EffectiveOdds(t, book, 1.0 + x) == 1.0 + x * k == target;
    assert target * headroom == 1.0;
    assert 1.0 / target == headroom by {
      var inv := 1.0 / target;
      assert inv * target == 1.0;
      SameFactor(inv, headroom, target);
    }
  }

  /** Some price a market admits as premium is announced with the advice to skip it, unless no line is printed or
      the market's premium floor reaches the edge of the printed one. */
  lemma OverrideDecidesTheAlert(t: Tables, fair: real, premiumFloor: real, globalMinEdge: real, book: string)
    requires t.Valid() && 0.0 < fair < 1.0 && premiumFloor >= 0.0 && globalMinEdge >= 0.0
    ensures var printed := PrintedFloor(t, fair, globalMinEdge, book);
            && (printed.Some? <==> globalMinEdge < fair) && (printed.Some? ==> printed.value > 1.0)
            && ((forall odds :: Admitted(t, fair, premiumFloor, book, odds) ==>
                   !TellsToSkip(t, fair, globalMinEdge, book, odds))
                  <==> printed.None? || premiumFloor >= EdgeLeft(t, fair, book, printed.value))
  {
    hide EffectiveOdds, MinAcceptableOdds, RoundUp;
    PrintedFloorKeepsTheEdge(t, fair, globalMinEdge, book);
    var printed := PrintedFloor(t, fair, globalMinEdge, book);
    if printed.Some? {
      if premiumFloor >= EdgeLeft(t, fair, book, printed.value) {
        forall odds | Admitted(t, fair, premiumFloor, book, odds)
          ensures !TellsToSkip(t, fair, globalMinEdge, book, odds)
        {
          LongerPriceMoreEdge(t, fair, book, printed.value, odds);
        }
      } else {
        LongerPriceMoreEdge(t, fair, book, printed.value, printed.value);
        FloorIsTight(t, fair, premiumFloor, book);
        var odds := MinAcceptableOdds(t, fair, premiumFloor, book).odds;
        LongerPriceMoreEdge(t, fair, book, printed.value, odds);
        assert Admitted(t, fair, premiumFloor, book, odds) && TellsToSkip(t, fair, globalMinEdge, book, odds);
      }
    }
  }

  /** For prices in whole cents, exactly when the premium floor's own printed price falls short of the global
      one's: never without an override below the global floor. */
  lemma CentPricesNeedAnOverride(t: Tables, fair: real, premiumFloor: real, globalMinEdge: real, book: string)
    requires t.Valid() && 0.0 < fair < 1.0 && premiumFloor >= 0.0 && globalMinEdge >= 0.0
    ensures var own, printed := PrintedFloor(t, fair, premiumFloor, book), PrintedFloor(t, fair, globalMinEdge, book);
            && ((forall odds :: InCents(odds) && Admitted(t, fair, premiumFloor, book, odds) ==>
                   !TellsToSkip(t, fair, globalMinEdge, book, odds))
                  <==> printed.None? || own.None? || own.value >= printed.value)
            && (premiumFloor >= globalMinEdge ==> printed.None? || own.None? || own.value >= printed.value)
  {
    hide EffectiveOdds, MinAcceptableOdds, RoundUp;
    PrintedFloorKeepsTheEdge(t, fair, globalMinEdge, book);
    PrintedFloorKeepsTheEdge(t, fair, premiumFloor, book);
    CentsAdmitted(t, fair, premiumFloor, book);
    CentsAdmitted(t, fair, globalMinEdge, book);
    var own, printed := PrintedFloor(t, fair, premiumFloor, book), PrintedFloor(t, fair, globalMinEdge, book);
    if printed.Some? && own.Some? && own.value < printed.value {
      assert InCents(own.value) && Admitted(t, fair, premiumFloor, book, own.value);
      assert TellsToSkip(t, fair, globalMinEdge, book, own.value);
    }
  }

  /** A price in cents keeps an edge exactly when it reaches that edge's printed price. */
  lemma CentsAdmitted(t: Tables, fair: real, edge: real, book: string)
    requires t.Valid() && 0.0 < fair < 1.0 && edge >= 0.0
    ensures var printed := PrintedFloor(t, fair, edge, book);
            forall odds :: InCents(odds) && odds > 1.0 ==>
              (Admitted(t, fair, edge, book, odds) <==> printed.Some? && odds >= printed.value)
  {
    hide EffectiveOdds, MinAcceptableOdds, RoundUp;
    forall odds | InCents(odds) && odds > 1.0
      ensures var printed := PrintedFloor(t, fair, edge, book);
              Admitted(t, fair, edge, book, odds) <==> printed.Some? && odds >= printed.value
    {
      FloorIsExact(t, fair, edge, book, odds);
      var floor := MinAcceptableOdds(t, fair, edge, book);
      if floor.AtLeast? { RoundUpIsLeast(floor.odds); }
    }
  }

  /** A price of the book that keeps the premium floor's edge. */
  ghost predicate Admitted(t: Tables, fair: real, premiumFloor: real, book: string, odds: real)
    requires t.Valid()
  {
    odds > 1.0 && EdgeLeft(t, fair, book, odds) >= premiumFloor
  }

  lemma NoFloorAboveFair(t: Tables, fair: real, minEdge: real, book: string)
    requires minEdge >= fair
    ensures !MinAcceptableOdds(t, fair, minEdge, book).AtLeast?
  {
  }
}
