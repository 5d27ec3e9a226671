/** The value scan (app/edge/value.py): per selection the best effective price among soft, non-anchor
    books is held against the anchor's fair value; and the inverse, the lowest displayed price at which
    a pick still keeps its edge. */
module ValueScan {
  import opened Prelude
  import opened Books
  import opened Anchors
  import StableSort

  /** `maxEdge` None is the unbounded ceiling. */
  datatype Limits = Limits(minEdge: real, minOdds: real, maxEdge: Option<real>)

  datatype ValueBet = ValueBet(
    selection: string, book: string, odds: real, effective: real, anchor: string,
    fair: real, implied: real, edge: real, ev: real)

  /** A price that can be taken: at a soft book, not the anchor's, and above one. */
  function Takeable(t: Tables, anchor: string): Quote -> bool {
    (q: Quote) => t.norm(q.book) != t.norm(anchor) && !t.Sharp(q.book) && q.odds > 1.0
  }

  function FairOf(fair: seq<FairValue>, selection: string): Option<real> {
    if fair == [] then None
    else if fair[0].selection == selection then Some(fair[0].prob)
    else FairOf(fair[1..], selection)
  }

  predicate InLimits(limits: Limits, effective: real, edge: real) {
    effective >= limits.minOdds && edge >= limits.minEdge && (limits.maxEdge.Some? ==> edge <= limits.maxEdge.value)
  }

  /** Expected profit per unit at the effective price. */
  function Ev(fair: real, effective: real): real { fair * (effective - 1.0) - (1.0 - fair) }

  function EdgeOf(fair: real, effective: real): real { fair - Inverse(effective) }

  function BetOn(
    t: Tables, limits: Limits, fair: seq<FairValue>, anchor: string, s: SelectionQuotes): Option<ValueBet>
  {
    var p := FairOf(fair, s.selection);
    var best := Best(t, Takeable(t, anchor), s.quotes);
    if p.None? || best.None? then None
    else
      var eff := EffectiveOdds(t, best.value.book, best.value.odds);
      var edge := EdgeOf(p.value, eff);
      if InLimits(limits, eff, edge) then
        Some(ValueBet(s.selection, best.value.book, best.value.odds, eff, anchor, p.value, Inverse(eff), edge,
          Ev(p.value, eff)))
      else None
  }

  function Bets(t: Tables, limits: Limits, fair: seq<FairValue>, anchor: string, m: Market): seq<ValueBet> {
    if m == [] then []
    else
      var before := Bets(t, limits, fair, anchor, m[..|m| - 1]);
      var bet := BetOn(t, limits, fair, anchor, m[|m| - 1]);
      if bet.None? then before else before + [bet.value]
  }

  predicate LongerEdge(a: ValueBet, b: ValueBet) { a.edge >= b.edge }

  /** Nothing at all when the anchor is untrustworthy, else the bets by descending edge. */
  function Scan(
    t: Tables, limits: Limits, fair: seq<FairValue>, anchor: string, m: Market, tolerance: real): seq<ValueBet>
  {
    if Disagrees(t, m, fair, tolerance) then []
    else StableSort.Sort(LongerEdge, Bets(t, limits, fair, anchor, m))
  }

  method BestOtherBook(t: Tables, quotes: seq<Quote>, anchor: string) returns (best: Option<Quote>)
    ensures best == Best(t, Takeable(t, anchor), quotes)
  {
    hide EffectiveOdds;
    best := None;
    for i := 0 to |quotes|
      invariant best == Best(t, Takeable(t, anchor), quotes[..i])
    {
      assert quotes[..i + 1][..i] == quotes[..i];
      var q := quotes[i];
      if t.norm(q.book) == t.norm(anchor) || t.norm(q.book) in t.sharpBooks {
        continue;
      }
      if q.odds <= 1.0 {
        continue;
      }
      if best.None? || EffectiveOdds(t, q.book, q.odds) > EffectiveOdds(t, best.value.book, best.value.odds) {
        best := Some(q);
      }
    }
    assert quotes[..|quotes|] == quotes;
  }

  method ScanAgainstFair(
    t: Tables, m: Market, fair: seq<FairValue>, anchor: string, limits: Limits,
    tolerance: real := ANCHOR_SWAP_TOLERANCE)
    returns (out: seq<ValueBet>)
    ensures out == Scan(t, limits, fair, anchor, m, tolerance)
  {
    hide EffectiveOdds, Ev, EdgeOf;
    if Disagrees(t, m, fair, tolerance) {
      return [];
    }
    out := [];
    for i := 0 to |m|
      invariant out == Bets(t, limits, fair, anchor, m[..i])
    {
      assert m[..i + 1][..i] == m[..i];
      var p := FairOf(fair, m[i].selection);
      if p.None? {
        continue;
      }
      var best := BestOtherBook(t, m[i].quotes, anchor);
      if best.None? {
        continue;
      }
      var eff := EffectiveOdds(t, best.value.book, best.value.odds);
      if eff < limits.minOdds {
        continue;
      }
      var edge := EdgeOf(p.value, eff);
      if edge < limits.minEdge || (limits.maxEdge.Some? && edge > limits.maxEdge.value) {
        continue;
      }
      out := out + [ValueBet(m[i].selection, best.value.book, best.value.odds, eff, anchor, p.value, Inverse(eff),
        edge, Ev(p.value, eff))];
    }
    assert m[..|m|] == m;
    out := StableSort.Sort(LongerEdge, out);
  }

  // ---- soundness and completeness ----

  /** The best takeable price of a selection clears the floor and keeps an admissible edge. */
  ghost predicate Clears(
    t: Tables, limits: Limits, fair: seq<FairValue>, anchor: string, s: SelectionQuotes, q: Quote)
  {
    && IsBest(t, Takeable(t, anchor), s.quotes, q)
    && FairOf(fair, s.selection).Some?
    && var eff := EffectiveOdds(t, q.book, q.odds);
       eff > 0.0 && InLimits(limits, eff, FairOf(fair, s.selection).value - 1.0 / eff)
  }

  ghost predicate Sound(
    t: Tables, limits: Limits, fair: seq<FairValue>, anchor: string, s: SelectionQuotes, b: ValueBet)
  {
    && b.selection == s.selection && b.anchor == anchor
    && Clears(t, limits, fair, anchor, s, Quote(b.book, b.odds))
    && b.effective == EffectiveOdds(t, b.book, b.odds) && 1.0 < b.effective <= b.odds
    && Some(b.fair) == FairOf(fair, s.selection)
    && b.implied == 1.0 / b.effective
    && b.edge == b.fair - b.implied
    && b.ev == b.effective * b.edge
  }

  lemma BestQuoteNetsMoreThanOne(t: Tables, anchor: string, quotes: seq<Quote>)
    requires t.Valid()
    ensures Best(t, Takeable(t, anchor), quotes).Some? ==>
              var q := Best(t, Takeable(t, anchor), quotes).value;
              IsBest(t, Takeable(t, anchor), quotes, q) && 1.0 < EffectiveOdds(t, q.book, q.odds) <= q.odds
  {
    BestIsBest(t, Takeable(t, anchor), quotes);
    var best := Best(t, Takeable(t, anchor), quotes);
    if best.Some? { EffectiveAboveOne(t, best.value.book, best.value.odds); }
  }

  lemma BetOnIsExact(t: Tables, limits: Limits, fair: seq<FairValue>, anchor: string, s: SelectionQuotes)
    requires t.Valid()
    ensures BetOn(t, limits, fair, anchor, s).Some? ==>
            Sound(t, limits, fair, anchor, s, BetOn(t, limits, fair, anchor, s).value)
    ensures forall q :: Clears(t, limits, fair, anchor, s, q) ==> BetOn(t, limits, fair, anchor, s).Some?
  {
    BestQuoteNetsMoreThanOne(t, anchor, s.quotes);
    BestIsBest(t, Takeable(t, anchor), s.quotes);
    var best := Best(t, Takeable(t, anchor), s.quotes);
    var p := FairOf(fair, s.selection);
    hide EffectiveOdds, Ev;
    if best.Some? && p.Some? {
    }
    forall q | Clears(t, limits, fair, anchor, s, q) ensures BetOn(t, limits, fair, anchor, s).Some? {
      assert q in s.quotes && Takeable(t, anchor)(q);
      assert EffectiveOdds(t, q.book, q.odds) == EffectiveOdds(t, best.value.book, best.value.odds);
    }
  }

  lemma {:induction false} BetsComeFromSelections(
    t: Tables, limits: Limits, fair: seq<FairValue>, anchor: string, m: Market, b: ValueBet)
    ensures b in Bets(t, limits, fair, anchor, m) <==>
            exists i :: 0 <= i < |m| && BetOn(t, limits, fair, anchor, m[i]) == Some(b)
  {
    hide BetOn;
    if m != [] {
      var n := |m| - 1;
      BetsComeFromSelections(t, limits, fair, anchor, m[..n], b);
      if b in Bets(t, limits, fair, anchor, m[..n]) {
        var i :| 0 <= i < n && BetOn(t, limits, fair, anchor, m[..n][i]) == Some(b);
        assert BetOn(t, limits, fair, anchor, m[i]) == Some(b);
      }
      if i :| 0 <= i < |m| && BetOn(t, limits, fair, anchor, m[i]) == Some(b) {
        if i < n { assert m[..n][i] == m[i]; }
      }
    }
  }

  /** A scan that passes the guard returns exactly the selections whose best takeable price clears the
      limits, each with the price it clears at, by descending edge. */
  lemma ScanIsExact(t: Tables, limits: Limits, fair: seq<FairValue>, anchor: string, m: Market, tolerance: real)
    requires t.Valid() && !Disagrees(t, m, fair, tolerance)
    ensures var out := Scan(t, limits, fair, anchor, m, tolerance);
            && (forall b :: b in out ==> exists i :: 0 <= i < |m| && Sound(t, limits, fair, anchor, m[i], b))
            && (forall i, q :: 0 <= i < |m| && Clears(t, limits, fair, anchor, m[i], q) ==>
                  exists b :: b in out && b.selection == m[i].selection && Sound(t, limits, fair, anchor, m[i], b))
            && StableSort.Ordered(LongerEdge, out)
  {
    hide BetOn, Sound, Clears;
    var bets := Bets(t, limits, fair, anchor, m);
    var out := Scan(t, limits, fair, anchor, m, tolerance);
    StableSort.SortOrdered(LongerEdge, bets);
    forall b | b in out ensures exists i :: 0 <= i < |m| && Sound(t, limits, fair, anchor, m[i], b) {
      StableSort.SortMembers(LongerEdge, bets, b);
      BetsComeFromSelections(t, limits, fair, anchor, m, b);
      var i :| 0 <= i < |m| && BetOn(t, limits, fair, anchor, m[i]) == Some(b);
      BetOnIsExact(t, limits, fair, anchor, m[i]);
    }
    forall i, q | 0 <= i < |m| && Clears(t, limits, fair, anchor, m[i], q)
      ensures exists b :: b in out && b.selection == m[i].selection && Sound(t, limits, fair, anchor, m[i], b)
    {
      BetOnIsExact(t, limits, fair, anchor, m[i]);
      var b := BetOn(t, limits, fair, anchor, m[i]).value;
      BetsComeFromSelections(t, limits, fair, anchor, m, b);
      StableSort.SortMembers(LongerEdge, bets, b);
      SoundSelection(t, limits, fair, anchor, m[i], b);
    }
  }

  lemma SoundSelection(t: Tables, limits: Limits, fair: seq<FairValue>, anchor: string, s: SelectionQuotes, b: ValueBet)
    ensures Sound(t, limits, fair, anchor, s, b) ==> b.selection == s.selection
  {
    hide EffectiveOdds;
  }

  /** One bet at most per selection. */
  lemma {:induction false} OneBetPerSelection(
    t: Tables, limits: Limits, fair: seq<FairValue>, anchor: string, m: Market)
    requires DistinctSelections(m)
    ensures var bets := Bets(t, limits, fair, anchor, m);
            forall i, j :: 0 <= i < j < |bets| ==> bets[i].selection != bets[j].selection
  {
    hide EffectiveOdds, Ev;
    if m != [] {
      var n := |m| - 1;
      var before := Bets(t, limits, fair, anchor, m[..n]);
      OneBetPerSelection(t, limits, fair, anchor, m[..n]);
      forall i | 0 <= i < |before| ensures before[i].selection != m[n].selection {
        BetsComeFromSelections(t, limits, fair, anchor, m[..n], before[i]);
        var k :| 0 <= k < n && BetOn(t, limits, fair, anchor, m[..n][k]) == Some(before[i]);
        assert m[..n][k] == m[k];
      }
    }
  }

  // ---- the guard, at the level of the scan ----

  /** Exchanging two clearly separated values of an accepted anchor silences the whole market. */
  lemma SwappedAnchorMintsNothing(
    t: Tables, limits: Limits, fair: seq<FairValue>, anchor: string, m: Market, tolerance: real, i: nat, j: nat)
    requires i < |fair| && j < |fair| && tolerance >= 0.0 && !Disagrees(t, m, fair, tolerance)
    requires Reference(t, m, fair).Some? && Reference(t, m, fair).value[i] - Reference(t, m, fair).value[j] > tolerance
    ensures Scan(t, limits, Exchange(fair, i, j), anchor, m, tolerance) == []
  {
    SwappedAnchorIsCaught(t, m, fair, tolerance, i, j);
  }

  // ---- the inverse: the lowest price that keeps the edge ----

  datatype Floor = Invalid | NoPrice | AtLeast(odds: real)

  function MinAcceptableOdds(t: Tables, fair: real, minEdge: real, book: string): Floor {
    if !(0.0 < fair < 1.0) || minEdge < 0.0 || t.Commission(book) == 1.0 then Invalid
    else
      var headroom := fair - minEdge;
      if headroom <= 0.0 then NoPrice
      else AtLeast(1.0 + (1.0 / headroom - 1.0) / (1.0 - t.Commission(book)))
  }

  /** A displayed price keeps the edge exactly when it reaches the floor; no price does exactly when
      there is no floor. */
  lemma FloorIsExact(t: Tables, fair: real, minEdge: real, book: string, odds: real)
    requires t.Valid() && 0.0 < fair < 1.0 && minEdge >= 0.0 && odds > 1.0
    ensures var floor := MinAcceptableOdds(t, fair, minEdge, book);
            && EffectiveOdds(t, book, odds) > 0.0
            && (fair - 1.0 / EffectiveOdds(t, book, odds) >= minEdge <==> floor.AtLeast? && odds >= floor.odds)
            && (floor.AtLeast? ==> floor.odds > 1.0)
  {
    var eff, headroom, k := EffectiveOdds(t, book, odds), fair - minEdge, 1.0 - t.Commission(book);
    EffectiveAboveOne(t, book, odds);
    if headroom > 0.0 {
      var x, target := odds - 1.0, 1.0 / headroom;
      assert eff == 1.0 + x * k;
      HeadroomReciprocal(eff, headroom);
      TargetAboveOne(headroom);
      QuotientPositive(target - 1.0, k);
      DivideThrough(x, target - 1.0, k);
      hide EffectiveOdds;
    }
  }

  /** When there is no answer, when no price will do, and what the floor is: the displayed price whose net price
      implies the fair value less the required edge. */
  lemma FloorExactly(t: Tables, fair: real, minEdge: real, book: string)
    ensures var floor := MinAcceptableOdds(t, fair, minEdge, book);
            && (floor.Invalid? <==> fair <= 0.0 || fair >= 1.0 || minEdge < 0.0 || Rate(t, book) == 1.0)
            && (floor.NoPrice? <==> !floor.Invalid? && fair <= minEdge)
            && (floor.AtLeast? ==> Times(NetPrice(t, Quote(book, floor.odds)), fair - minEdge) == 1.0)
  {
    var floor, headroom, k := MinAcceptableOdds(t, fair, minEdge, book), fair - minEdge, 1.0 - t.Commission(book);
    if floor.AtLeast? {
      var target := 1.0 / headroom;
      var x := (target - 1.0) / k;
      assert target * headroom == 1.0 && x * k == target - 1.0;
      NetPriceExactly(t, Quote(book, floor.odds));
      assert NetPrice(t, Quote(book, floor.odds)) == target;
    }
  }

  lemma DivideThrough(a: real, b: real, k: real)
    requires k > 0.0
    ensures a >= b / k <==> a * k >= b
  {
    var d := b / k;
    assert d * k == b;
    ScaleOrder(d, a, k);
  }

  lemma QuotientPositive(a: real, k: real)
    requires a > 0.0 && k > 0.0
    ensures a / k > 0.0
  {
    var d := a / k;
    assert d * k == a;
  }

  lemma TargetAboveOne(headroom: real)
    requires 0.0 < headroom < 1.0
    ensures 1.0 / headroom > 1.0
  {
    ReciprocalOrder(1.0, headroom);
    ReciprocalOrder(headroom, 1.0);
  }

  lemma HeadroomReciprocal(eff: real, headroom: real)
    requires eff > 0.0 && headroom > 0.0
    ensures 1.0 / eff <= headroom <==> eff >= 1.0 / headroom
  {
    var target := 1.0 / headroom;
    assert target * headroom == 1.0;
    ReciprocalOrder(target, eff);
    assert 1.0 / target == headroom by {
      assert (1.0 / target) * target == 1.0;
      SameFactor(1.0 / target, headroom, target);
    }
  }

  lemma SameFactor(a: real, b: real, k: real)
    requires k > 0.0 && a * k == b * k
    ensures a == b
  {
    ScaleOrder(a, b, k);
    ScaleOrder(b, a, k);
  }

  /** Every bet of a scan is quoted at or above the floor of its own fair value. */
  lemma BetsReachTheirFloor(
    t: Tables, limits: Limits, fair: seq<FairValue>, anchor: string, s: SelectionQuotes, b: ValueBet)
    requires t.Valid() && limits.minEdge >= 0.0 && 0.0 < b.fair < 1.0 && Sound(t, limits, fair, anchor, s, b)
    ensures var floor := MinAcceptableOdds(t, b.fair, limits.minEdge, b.book); floor.AtLeast? && b.odds >= floor.odds
  {
    FloorIsExact(t, b.fair, limits.minEdge, b.book, b.odds);
    hide EffectiveOdds, MinAcceptableOdds;
  }

  // ---- the scan, told from the quotes ----

  /** A price that may be taken: above one, at a book that is no sharp book and not the anchor's. */
  ghost predicate MayTake(t: Tables, anchor: string, q: Quote) {
    && q.odds > 1.0 && t.norm(q.book) != t.norm(anchor)
    && forall k :: 0 <= k < |t.sharpBooks| ==> t.sharpBooks[k] != t.norm(q.book)
  }

  /** The first of the quotes that net the most among those that may be taken. */
  ghost predicate TakesQuote(t: Tables, anchor: string, quotes: seq<Quote>, j: nat) {
    && j < |quotes| && MayTake(t, anchor, quotes[j])
    && (forall k :: 0 <= k < |quotes| && MayTake(t, anchor, quotes[k]) ==>
          NetPrice(t, quotes[k]) <= NetPrice(t, quotes[j]))
    && (forall k :: 0 <= k < j && MayTake(t, anchor, quotes[k]) ==> NetPrice(t, quotes[k]) < NetPrice(t, quotes[j]))
  }

  /** The first fair value under a name. */
  ghost predicate FirstFair(fair: seq<FairValue>, selection: string, f: nat) {
    && f < |fair| && fair[f].selection == selection
    && forall g :: 0 <= g < f ==> fair[g].selection != selection
  }

  /** The figures of a bet at a net price against a fair value. */
  ghost predicate Figures(limits: Limits, b: ValueBet, net: real, p: real) {
    && b.fair == p && b.effective == net && Times(b.implied, net) == 1.0
    && b.edge == p - b.implied && b.ev == Times(p, net) - 1.0
    && net >= limits.minOdds && b.edge >= limits.minEdge && (limits.maxEdge == None || b.edge <= limits.maxEdge.value)
  }

  /** A bet on a selection, field by field: at that quote, against that fair value, within the limits. */
  ghost predicate IsBet(
    t: Tables, limits: Limits, fair: seq<FairValue>, anchor: string, s: SelectionQuotes, b: ValueBet)
  {
    && b.selection == s.selection && b.anchor == anchor
    && (exists j: nat :: TakesQuote(t, anchor, s.quotes, j) && s.quotes[j] == Quote(b.book, b.odds))
    && (exists f: nat :: FirstFair(fair, s.selection, f) && fair[f].prob == b.fair)
    && Figures(limits, b, NetPrice(t, Quote(b.book, b.odds)), b.fair)
  }

  lemma {:induction false} FairOfExactly(fair: seq<FairValue>, selection: string)
    ensures FairOf(fair, selection) == None <==> forall f :: 0 <= f < |fair| ==> fair[f].selection != selection
    ensures forall f: nat :: FirstFair(fair, selection, f) ==> FairOf(fair, selection) == Some(fair[f].prob)
    ensures FairOf(fair, selection).Some? ==> exists f: nat :: FirstFair(fair, selection, f)
  {
    if fair != [] {
      var rest := fair[1..];
      assert forall f :: 0 <= f < |rest| ==> rest[f] == fair[f + 1];
      FairOfExactly(rest, selection);
      if fair[0].selection == selection {
        assert FirstFair(fair, selection, 0);
      } else {
        forall f: nat | FirstFair(fair, selection, f) ensures FairOf(fair, selection) == Some(fair[f].prob) {
          assert FirstFair(rest, selection, f - 1);
        }
        if FairOf(fair, selection).Some? {
          var f: nat :| FirstFair(rest, selection, f);
          assert FirstFair(fair, selection, f + 1);
        }
      }
    }
  }

  lemma TakesOnce(t: Tables, anchor: string, quotes: seq<Quote>, i: nat, j: nat)
    requires TakesQuote(t, anchor, quotes, i) && TakesQuote(t, anchor, quotes, j)
    ensures i == j
  {
    hide MayTake, NetPrice;
  }

  lemma BestTaken(t: Tables, anchor: string, quotes: seq<Quote>)
    ensures Best(t, Takeable(t, anchor), quotes) == None <==>
            forall j :: 0 <= j < |quotes| ==> !MayTake(t, anchor, quotes[j])
    ensures forall j: nat :: TakesQuote(t, anchor, quotes, j) ==>
              Best(t, Takeable(t, anchor), quotes) == Some(quotes[j])
    ensures Best(t, Takeable(t, anchor), quotes).Some? ==> exists j: nat :: TakesQuote(t, anchor, quotes, j)
  {
    forall q: Quote ensures Takeable(t, anchor)(q) <==> MayTake(t, anchor, q) { TakeableExactly(t, anchor, q); }
    BestIsBest(t, Takeable(t, anchor), quotes);
    hide EffectiveOdds, NetPrice, MayTake, Best, Takeable, TakesQuote, IsBest;
    if Best(t, Takeable(t, anchor), quotes).Some? {
      var i := BestPlace(t, anchor, quotes);
      forall j: nat | TakesQuote(t, anchor, quotes, j) ensures j == i { TakesOnce(t, anchor, quotes, i, j); }
    } else {
      forall j: nat ensures !TakesQuote(t, anchor, quotes, j) { NothingTaken(t, anchor, quotes, j); }
    }
  }

  lemma NothingTaken(t: Tables, anchor: string, quotes: seq<Quote>, j: nat)
    requires forall k :: 0 <= k < |quotes| ==> !MayTake(t, anchor, quotes[k])
    ensures !TakesQuote(t, anchor, quotes, j)
  {
    hide MayTake, NetPrice;
  }

  lemma BestPlace(t: Tables, anchor: string, quotes: seq<Quote>) returns (i: nat)
    requires Best(t, Takeable(t, anchor), quotes).Some?
    ensures TakesQuote(t, anchor, quotes, i) && quotes[i] == Best(t, Takeable(t, anchor), quotes).value
  {
    BestIsFirst(t, Takeable(t, anchor), quotes);
    forall q: Quote ensures EffectiveOdds(t, q.book, q.odds) == NetPrice(t, q) { NetPriceExactly(t, q); }
    forall q: Quote ensures Takeable(t, anchor)(q) <==> MayTake(t, anchor, q) { TakeableExactly(t, anchor, q); }
    hide EffectiveOdds, NetPrice, MayTake, Best, Takeable;
    var best := Best(t, Takeable(t, anchor), quotes).value;
    i :| 0 <= i < |quotes| && quotes[i] == best && Takeable(t, anchor)(quotes[i])
      && (forall k :: 0 <= k < |quotes| && Takeable(t, anchor)(quotes[k]) ==>
            EffectiveOdds(t, quotes[k].book, quotes[k].odds) <= EffectiveOdds(t, quotes[i].book, quotes[i].odds))
      && (forall k :: 0 <= k < i && Takeable(t, anchor)(quotes[k]) ==>
            EffectiveOdds(t, quotes[k].book, quotes[k].odds) < EffectiveOdds(t, quotes[i].book, quotes[i].odds));
  }

  lemma TakeableExactly(t: Tables, anchor: string, q: Quote)
    ensures Takeable(t, anchor)(q) <==> MayTake(t, anchor, q)
  {
  }

  lemma BetFigures(p: real, eff: real, implied: real)
    requires eff != 0.0
    ensures Times(implied, eff) == 1.0 <==> implied == Inverse(eff)
    ensures Ev(p, eff) == Times(p, eff) - 1.0
  {
    var y := Inverse(eff);
    assert y * eff == 1.0;
    if Times(implied, eff) == 1.0 { assert (implied - y) * eff == 0.0; }
  }

  lemma IsBetMeans(t: Tables, limits: Limits, fair: seq<FairValue>, anchor: string, s: SelectionQuotes, b: ValueBet)
    ensures var best, p := Best(t, Takeable(t, anchor), s.quotes), FairOf(fair, s.selection);
            IsBet(t, limits, fair, anchor, s, b) <==>
              && best == Some(Quote(b.book, b.odds)) && p.Some? && b.selection == s.selection && b.anchor == anchor
              && Figures(limits, b, NetPrice(t, best.value), p.value)
  {
    hide Best, Takeable, FairOf, TakesQuote, FirstFair, NetPrice, Times;
    BestTaken(t, anchor, s.quotes);
    FairOfExactly(fair, s.selection);
  }

  /** A selection has a bet exactly when the best price that may be taken is within the limits, and its fields are
      then these. */
  lemma BetOnExactly(
    t: Tables, limits: Limits, fair: seq<FairValue>, anchor: string, s: SelectionQuotes, b: ValueBet)
    requires t.Valid()
    ensures BetOn(t, limits, fair, anchor, s) == Some(b) <==> IsBet(t, limits, fair, anchor, s, b)
  {
    IsBetMeans(t, limits, fair, anchor, s, b);
    BestQuoteNetsMoreThanOne(t, anchor, s.quotes);
    var best, p := Best(t, Takeable(t, anchor), s.quotes), FairOf(fair, s.selection);
    hide IsBet, EffectiveOdds, NetPrice, Best, Takeable, FairOf, Ev, Times, Inverse, IsBest;
    if best.Some? && p.Some? {
      NetPriceExactly(t, best.value);
      var eff := NetPrice(t, best.value);
      BetFigures(p.value, eff, b.implied);
      BetFigures(p.value, eff, Inverse(eff));
    }
  }

  lemma {:induction false} BetPositions(
    t: Tables, limits: Limits, fair: seq<FairValue>, anchor: string, m: Market) returns (from: seq<nat>)
    ensures var bets := Bets(t, limits, fair, anchor, m);
            && |from| == |bets| && (forall x, y :: 0 <= x < y < |from| ==> from[x] < from[y])
            && (forall x :: 0 <= x < |from| ==>
                  from[x] < |m| && BetOn(t, limits, fair, anchor, m[from[x]]) == Some(bets[x]))
            && (forall i: nat :: i < |m| && BetOn(t, limits, fair, anchor, m[i]).Some? ==> i in from)
  {
    hide BetOn;
    from := [];
    if m != [] {
      var n := |m| - 1;
      var before := BetPositions(t, limits, fair, anchor, m[..n]);
      assert forall i :: 0 <= i < n ==> m[..n][i] == m[i];
      from := before + if BetOn(t, limits, fair, anchor, m[n]).Some? then [n] else [];
    }
  }

  /** A scan that passes the guard lists one bet for each selection that has one, the longest edge first, and of
      equal edges the selection listed first. */
  lemma ScanByPosition(
    t: Tables, limits: Limits, fair: seq<FairValue>, anchor: string, m: Market, tolerance: real)
    returns (at: seq<nat>)
    requires t.Valid() && !Disagrees(t, m, fair, tolerance)
    ensures var out := Scan(t, limits, fair, anchor, m, tolerance);
            && |at| == |out|
            && (forall x :: 0 <= x < |out| ==> at[x] < |m| && IsBet(t, limits, fair, anchor, m[at[x]], out[x]))
            && (forall i, b :: 0 <= i < |m| && IsBet(t, limits, fair, anchor, m[i], b) ==> i in at)
            && (forall x, y :: 0 <= x < y < |out| ==>
                  out[x].edge > out[y].edge || (out[x].edge == out[y].edge && at[x] < at[y]))
  {
    hide BetOn, IsBet, Disagrees;
    var bets := Bets(t, limits, fair, anchor, m);
    var out := Scan(t, limits, fair, anchor, m, tolerance);
    var from := BetPositions(t, limits, fair, anchor, m);
    var moved := StableSort.SortPositions(LongerEdge, bets);
    StableSort.SortOrdered(LongerEdge, bets);
    at := seq(|out|, x requires 0 <= x < |out| => from[moved[x]]);
    forall i, b | 0 <= i < |m| && IsBet(t, limits, fair, anchor, m[i], b) ensures i in at {
      BetOnExactly(t, limits, fair, anchor, m[i], b);
      var k :| 0 <= k < |from| && from[k] == i;
      assert k in moved;
      var x :| 0 <= x < |moved| && moved[x] == k;
      assert at[x] == i;
    }
    forall x | 0 <= x < |out| ensures at[x] < |m| && IsBet(t, limits, fair, anchor, m[at[x]], out[x]) {
      BetOnExactly(t, limits, fair, anchor, m[at[x]], out[x]);
    }
    hide Scan, Bets;
    forall x, y | 0 <= x < y < |out|
      ensures out[x].edge > out[y].edge || (out[x].edge == out[y].edge && at[x] < at[y]) {
      assert LongerEdge(out[x], out[y]);
      assert moved[x] < moved[y] || !LongerEdge(bets[moved[y]], bets[moved[x]]);
    }
  }
}
