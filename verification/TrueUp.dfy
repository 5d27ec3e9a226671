/** Closing-line-value true-up (app/clv_trueup.py): two paths overwrite the same pick row, the poll-time
    re-price (revalidate_open_picks) and the snapshot close (finalize_closing_from_snapshots); a volume
    pick may in between be upgraded in place (app/storage/repositories.py persist_pick). The fair value
    of a market and the logarithm are inputs. Stored values are not rounded. */
module TrueUp {
  import opened Prelude
  import opened Books

  const IMPLAUSIBLE_CLOSE_EDGE := 0.20

  const TAUTOLOGY_EPS := 0.001

  /** What was bet: the fill book, its price, the pick-time fair value and its devig-fallback flag. */
  datatype Fill = Fill(bookmaker: string, decimalOdds: real, modelProbability: Option<real>, fellBack: Option<bool>)

  /** The closing grade and where it came from. */
  datatype CloseColumns = CloseColumns(
    fair: Option<real>, clvLog: Option<real>, beatClose: Option<bool>, fellBack: Option<bool>,
    anchor: Option<AnchorType>, independent: Option<bool>, odds: Option<real>, isSnapshot: Option<bool>)

  /** The price now, the book it is quoted at, and its edge. */
  datatype LiveColumns = LiveColumns(odds: Option<real>, bookmaker: Option<string>, edge: Option<real>)

  const NO_CLOSE := CloseColumns(None, None, None, None, None, None, None, None)

  const NO_PRICE := LiveColumns(None, None, None)

  /** The columns of a pick row that pricing reads or writes. */
  datatype PickState = PickState(
    open: bool, fill: Fill, close: CloseColumns, live: LiveColumns, revalidatedAt: Option<int>,
    attemptedAt: Option<int>)

  /** The pricing of one selection: its fair value with the anchor that set it, and the books' quotes. */
  datatype Pricing = Pricing(fair: Option<real>, anchor: string, anchorType: AnchorType, fellBack: bool,
    quotes: seq<Quote>)

  predicate Usable(fair: Option<real>) { fair.Some? && 0.0 < fair.value < 1.0 }

  function FillOdds(t: Tables, f: Fill): real { EffectiveOdds(t, f.bookmaker, f.decimalOdds) }

  predicate Plausible(t: Tables, f: Fill, fair: real)
    requires FillOdds(t, f) > 1.0
  {
    fair - 1.0 / FillOdds(t, f) <= IMPLAUSIBLE_CLOSE_EDGE
  }

  /** The close was not priced by the fill's own book. */
  predicate IndependentOfFill(t: Tables, anchor: string, fillBook: string) {
    anchor == "" || anchor == CONSENSUS_ANCHOR || t.norm(anchor) != t.norm(fillBook)
  }

  predicate Moved(pickFair: Option<real>, closingFair: real) {
    pickFair.Some? && Abs(closingFair - pickFair.value) > TAUTOLOGY_EPS
  }

  function OwnQuote(quotes: seq<Quote>, book: string): Option<Quote> {
    if quotes == [] then None
    else if quotes[0].book == book then Some(quotes[0])
    else OwnQuote(quotes[1..], book)
  }

  /** The fill book if it still quotes the selection, else the best remaining soft book. */
  function PriceNow(t: Tables, fillBook: string, quotes: seq<Quote>): Option<Quote> {
    var own := OwnQuote(quotes, fillBook);
    if own.Some? then own else BestSoft(t, quotes)
  }

  /** Python's `current_bookmaker or bookmaker`. */
  function RecordedBook(live: LiveColumns, fillBook: string): string {
    if live.bookmaker.Some? && live.bookmaker.value != "" then live.bookmaker.value else fillBook
  }

  /** None stands for the division by zero that no price above 1 can cause. */
  function EdgeAt(t: Tables, fair: real, book: string, odds: real): Option<real> {
    var eff := EffectiveOdds(t, book, odds);
    if eff == 0.0 then None else Some(fair - 1.0 / eff)
  }

  /** The edge of the last known price against a refreshed fair value. */
  function Reconciled(t: Tables, live: LiveColumns, fillBook: string, fair: real): LiveColumns {
    live.(edge := if live.odds.None? then None else EdgeAt(t, fair, RecordedBook(live, fillBook), live.odds.value))
  }

  /** clv_log: positive exactly when the fill beat the fair closing price (see ClvSign). */
  function ClvLog(ln: real -> real, fillOdds: real, fair: real): real { ln(Times(fillOdds, fair)) }

  function Graded(t: Tables, ln: real -> real, f: Fill, close: CloseColumns, m: Pricing): CloseColumns
    requires m.fair.Some?
  {
    var fair := m.fair.value;
    var clv := ClvLog(ln, FillOdds(t, f), fair);
    var named := m.anchor != "";
    CloseColumns(
      Some(fair), Some(clv), Some(clv > 0.0), Some(m.fellBack),
      if named then Some(m.anchorType) else close.anchor,
      if named then Some(IndependentOfFill(t, m.anchor, f.bookmaker) && Moved(f.modelProbability, fair))
        else close.independent,
      close.odds, close.isSnapshot)
  }

  // ---- the poll-time re-price ----

  predicate Repriceable(t: Tables, p: PickState, started: bool, m: Pricing)
    requires FillOdds(t, p.fill) > 1.0
  {
    p.open && !started && Usable(m.fair) && Plausible(t, p.fill, m.fair.value)
  }

  function LiveAfter(t: Tables, p: PickState, m: Pricing): LiveColumns
    requires m.fair.Some?
  {
    var price := PriceNow(t, p.fill.bookmaker, m.quotes);
    if price.Some? && price.value.odds > 1.0 then
      LiveColumns(Some(price.value.odds), Some(price.value.book),
        EdgeAt(t, m.fair.value, price.value.book, price.value.odds))
    else
      Reconciled(t, p.live, p.fill.bookmaker, m.fair.value)
  }

  function Revalidated(t: Tables, ln: real -> real, p: PickState, started: bool, m: Pricing, now: int): PickState
    requires FillOdds(t, p.fill) > 1.0
  {
    if Repriceable(t, p, started, m) then
      PickState(p.open, p.fill, Graded(t, ln, p.fill, p.close, m), LiveAfter(t, p, m), Some(now), Some(now))
    else p
  }

  // ---- the snapshot close ----

  /** What the snapshot store offers at a kickoff: capture clocks, and the market priced from soft and
      sharp rows together, or from the sharp archive rows alone. */
  datatype CloseEvidence = CloseEvidence(
    kickoff: Option<int>, softLast: Option<int>, sharpLast: Option<int>, maxGap: int, together: Pricing,
    sharpOnly: Pricing)

  predicate Within(last: Option<int>, kickoff: int, maxGap: int) { last.Some? && kickoff - last.value <= maxGap }

  /** The rows the close is priced from; None when neither source is fresh at kickoff. */
  function CloseRows(e: CloseEvidence): Option<Pricing> {
    if e.kickoff.None? then None
    else if Within(e.softLast, e.kickoff.value, e.maxGap) then Some(e.together)
    else if Within(e.sharpLast, e.kickoff.value, e.maxGap) then Some(e.sharpOnly)
    else None
  }

  predicate Finalizable(t: Tables, f: Fill, e: CloseEvidence)
    requires FillOdds(t, f) > 1.0
  {
    CloseRows(e).Some? && Usable(CloseRows(e).value.fair) && Plausible(t, f, CloseRows(e).value.fair.value)
  }

  function SnapshotClose(t: Tables, ln: real -> real, p: PickState, m: Pricing): CloseColumns
    requires m.fair.Some?
  {
    var g := Graded(t, ln, p.fill, p.close, m);
    var price := PriceNow(t, p.fill.bookmaker, m.quotes);
    g.(isSnapshot := Some(true), odds := if price.Some? && price.value.odds > 1.0 then Some(price.value.odds)
      else g.odds)
  }

  function Finalized(t: Tables, ln: real -> real, p: PickState, e: CloseEvidence): PickState
    requires FillOdds(t, p.fill) > 1.0
  {
    if Finalizable(t, p.fill, e) then
      var m := CloseRows(e).value;
      p.(close := SnapshotClose(t, ln, p, m), live := Reconciled(t, p.live, p.fill.bookmaker, m.fair.value))
    else p
  }

  // ---- the in-place upgrade of a volume row ----

  /** The promoting detection's fill; the row keeps its own mint flag and its close-side fallback flag. */
  function Upgraded(p: PickState, promotion: Fill): PickState {
    p.(fill := promotion.(fellBack := p.fill.fellBack), close := NO_CLOSE.(fellBack := p.close.fellBack),
       live := NO_PRICE, revalidatedAt := None)
  }

  function Minted(f: Fill): PickState { PickState(true, f, NO_CLOSE, NO_PRICE, None, None) }

  // ---- the mutable row ----

  class Pick {
    var open: bool
    var fill: Fill
    var close: CloseColumns
    var live: LiveColumns
    var revalidatedAt: Option<int>
    var attemptedAt: Option<int>

    function View(): PickState
      reads this
    {
      PickState(open, fill, close, live, revalidatedAt, attemptedAt)
    }

    constructor (f: Fill)
      ensures View() == Minted(f)
    {
      open, fill, close, live, revalidatedAt, attemptedAt := true, f, NO_CLOSE, NO_PRICE, None, None;
    }

    method StampClose(t: Tables, ln: real -> real, m: Pricing)
      requires m.fair.Some?
      modifies this`close
      ensures close == Graded(t, ln, fill, old(close), m)
    {
      var fair := m.fair.value;
      var clv := ClvLog(ln, FillOdds(t, fill), fair);
      close := close.(fair := Some(fair), clvLog := Some(clv), beatClose := Some(clv > 0.0));
      close := close.(fellBack := Some(m.fellBack));
      if m.anchor != "" {
        close := close.(anchor := Some(m.anchorType));
        close := close.(independent := Some(IndependentOfFill(t, m.anchor, fill.bookmaker)
          && Moved(fill.modelProbability, fair)));
      }
    }

    method Revalidate(t: Tables, ln: real -> real, started: bool, m: Pricing, now: int) returns (updated: bool)
      requires FillOdds(t, fill) > 1.0
      modifies this
      ensures View() == Revalidated(t, ln, old(View()), started, m, now)
      ensures updated == Repriceable(t, old(View()), started, m)
    {
      if !open || started {
        return false;
      }
      if m.fair.None? || !(0.0 < m.fair.value < 1.0) {
        return false;
      }
      if m.fair.value - 1.0 / FillOdds(t, fill) > IMPLAUSIBLE_CLOSE_EDGE {
        return false;
      }
      StampClose(t, ln, m);
      var price := PriceNow(t, fill.bookmaker, m.quotes);
      if price.Some? && price.value.odds > 1.0 {
        live := live.(odds := Some(price.value.odds));
        live := live.(bookmaker := Some(price.value.book));
        live := live.(edge := EdgeAt(t, m.fair.value, price.value.book, price.value.odds));
      } else {
        live := Reconciled(t, live, fill.bookmaker, m.fair.value);
      }
      revalidatedAt := Some(now);
      attemptedAt := Some(now);
      return true;
    }

    method FinalizeClosing(t: Tables, ln: real -> real, e: CloseEvidence) returns (applied: bool)
      requires FillOdds(t, fill) > 1.0
      modifies this
      ensures View() == Finalized(t, ln, old(View()), e)
      ensures applied == Finalizable(t, old(fill), e)
    {
      if e.kickoff.None? {
        return false;
      }
      var softFresh := e.softLast.Some? && e.kickoff.value - e.softLast.value <= e.maxGap;
      var sharpFresh := e.sharpLast.Some? && e.kickoff.value - e.sharpLast.value <= e.maxGap;
      if !softFresh && !sharpFresh {
        return false;
      }
      var m := if softFresh then e.together else e.sharpOnly;
      if m.fair.None? || !(0.0 < m.fair.value < 1.0) {
        return false;
      }
      if m.fair.value - 1.0 / FillOdds(t, fill) > IMPLAUSIBLE_CLOSE_EDGE {
        return false;
      }
      var price := PriceNow(t, fill.bookmaker, m.quotes);
      StampClose(t, ln, m);
      close := close.(isSnapshot := Some(true));
      live := Reconciled(t, live, fill.bookmaker, m.fair.value);
      if price.Some? && price.value.odds > 1.0 {
        close := close.(odds := Some(price.value.odds));
      }
      return true;
    }

    method Upgrade(promotion: Fill)
      modifies this
      ensures View() == Upgraded(old(View()), promotion)
    {
      fill := Fill(promotion.bookmaker, promotion.decimalOdds, promotion.modelProbability, fill.fellBack);
      close := close.(fair := None, clvLog := None, beatClose := None);
      close := close.(odds := None, anchor := None, isSnapshot := None, independent := None);
      live := LiveColumns(None, None, None);
      revalidatedAt := None;
    }
  }

  ghost function ViewsOf(picks: seq<Pick>): (s: seq<PickState>)
    reads picks
    ensures |s| == |picks| && forall i :: 0 <= i < |picks| ==> s[i] == picks[i].View()
  {
    if picks == [] then [] else ViewsOf(picks[..|picks| - 1]) + [picks[|picks| - 1].View()]
  }

  /** The first n rows a poll re-prices: those still open, not started, and with a fair value their fill takes. */
  ghost function Repriced(
    t: Tables, rows: seq<PickState>, started: seq<bool>, markets: seq<Pricing>, n: nat): set<nat>
    requires n <= |rows| == |started| == |markets|
  {
    set i: nat | i < n && WillReprice(t, rows[i], started[i], markets[i])
  }

  ghost predicate WillReprice(t: Tables, p: PickState, started: bool, m: Pricing) {
    p.open && !started && NetFill(t, p) > 1.0 && TakesFair(t, p, m.fair)
  }

  lemma WillRepriceMeans(t: Tables, p: PickState, started: bool, m: Pricing)
    requires FillOdds(t, p.fill) > 1.0
    ensures WillReprice(t, p, started, m) <==> Repriceable(t, p, started, m)
  {
    hide EffectiveOdds;
  }

  lemma OneMoreRepriced(t: Tables, rows: seq<PickState>, started: seq<bool>, markets: seq<Pricing>, n: nat)
    requires n < |rows| == |started| == |markets| && FillOdds(t, rows[n].fill) > 1.0
    ensures |Repriced(t, rows, started, markets, n + 1)| ==
            |Repriced(t, rows, started, markets, n)| + if Repriceable(t, rows[n], started[n], markets[n]) then 1 else 0
  {
    WillRepriceMeans(t, rows[n], started[n], markets[n]);
    hide WillReprice, Repriceable;
    assert Repriced(t, rows, started, markets, n + 1) == Repriced(t, rows, started, markets, n)
        + if WillReprice(t, rows[n], started[n], markets[n]) then {n} else {};
  }

  /** One poll over the open picks: each row is re-priced from its own market, no row touches another, and the
      count returned is of the rows it re-priced. */
  method RevalidateOpenPicks(
    t: Tables, ln: real -> real, picks: seq<Pick>, started: seq<bool>, markets: seq<Pricing>, now: int)
    returns (updated: nat)
    requires |picks| == |started| == |markets|
    requires forall i, j :: 0 <= i < j < |picks| ==> picks[i] != picks[j]
    requires forall i :: 0 <= i < |picks| ==> FillOdds(t, picks[i].fill) > 1.0
    modifies picks
    ensures forall i :: 0 <= i < |picks| ==>
            picks[i].View() == Revalidated(t, ln, old(picks[i].View()), started[i], markets[i], now)
    ensures updated == |Repriced(t, old(ViewsOf(picks)), started, markets, |picks|)|
    ensures updated == 0 ==> forall i :: 0 <= i < |picks| ==> picks[i].View() == old(picks[i].View())
  {
    hide EffectiveOdds, Revalidated, Repriceable, Repriced;
    ghost var views := ViewsOf(picks);
    updated := 0;
    NothingRepriced(t, views, started, markets);
    for i := 0 to |picks|
      invariant forall k :: 0 <= k < i ==>
                picks[k].View() == Revalidated(t, ln, views[k], started[k], markets[k], now)
      invariant forall k :: i <= k < |picks| ==> picks[k].View() == views[k]
      invariant updated == |Repriced(t, views, started, markets, i)|
    {
      assert picks[i].View() == views[i];
      OneMoreRepriced(t, views, started, markets, i);
      var one := picks[i].Revalidate(t, ln, started[i], markets[i], now);
      if one {
        updated := updated + 1;
      }
    }
    if updated == 0 {
      forall i | 0 <= i < |picks| ensures picks[i].View() == views[i] {
        NotRepriced(t, ln, views, started, markets, now, i);
      }
    }
  }

  lemma NotRepriced(
    t: Tables, ln: real -> real, rows: seq<PickState>, started: seq<bool>, markets: seq<Pricing>, now: int, i: nat)
    requires i < |rows| == |started| == |markets| && FillOdds(t, rows[i].fill) > 1.0
    requires |Repriced(t, rows, started, markets, |rows|)| == 0
    ensures Revalidated(t, ln, rows[i], started[i], markets[i], now) == rows[i]
  {
    WillRepriceMeans(t, rows[i], started[i], markets[i]);
    hide WillReprice;
    assert i !in Repriced(t, rows, started, markets, |rows|);
  }

  lemma NothingRepriced(t: Tables, rows: seq<PickState>, started: seq<bool>, markets: seq<Pricing>)
    requires |rows| == |started| == |markets|
    ensures Repriced(t, rows, started, markets, 0) == {}
  {
  }

  // ---- the row invariant ----

  ghost predicate LogSign(ln: real -> real) { forall x :: x > 0.0 ==> (ln(x) > 0.0 <==> x > 1.0) }

  /** The dashboard's edge can never contradict its fair value. */
  ghost predicate EdgeConsistent(t: Tables, p: PickState) {
    && (p.live.edge.Some? <==> p.live.odds.Some?)
    && (p.live.odds.Some? ==>
          && p.close.fair.Some? && p.live.bookmaker.Some? && p.live.odds.value > 1.0
          && p.live.edge == EdgeAt(t, p.close.fair.value, RecordedBook(p.live, p.fill.bookmaker), p.live.odds.value))
  }

  /** The fill was longer than the fair closing price. */
  predicate BeatsClose(fillOdds: real, fair: real) { fillOdds * fair > 1.0 }

  ghost predicate GradeConsistent(t: Tables, p: PickState) {
    && p.fill.decimalOdds > 1.0 && FillOdds(t, p.fill) > 1.0
    && (p.close.beatClose.Some? <==> p.close.fair.Some?)
    && (p.close.clvLog.Some? <==> p.close.fair.Some?)
    && (p.close.fair.Some? ==>
          && 0.0 < p.close.fair.value < 1.0
          && Plausible(t, p.fill, p.close.fair.value)
          && (p.close.beatClose.value <==> BeatsClose(FillOdds(t, p.fill), p.close.fair.value)))
  }

  /** A re-price never shows a sharp book, unless the bet itself is held there. */
  ghost predicate ShowsTakeablePrice(t: Tables, p: PickState) {
    p.live.bookmaker.Some? ==> p.live.bookmaker.value == p.fill.bookmaker || !t.Sharp(p.live.bookmaker.value)
  }

  /** Provenance describes the stored close. */
  ghost predicate ProvenanceConsistent(p: PickState) {
    && (p.close.fair.None? ==>
          p.close.anchor.None? && p.close.independent.None? && p.close.odds.None? && p.close.isSnapshot.None?)
    && (p.close.independent == Some(true) ==> Moved(p.fill.modelProbability, p.close.fair.value))
  }

  ghost predicate RowInv(t: Tables, p: PickState) {
    GradeConsistent(t, p) && EdgeConsistent(t, p) && ShowsTakeablePrice(t, p) && ProvenanceConsistent(p)
  }

  datatype Op =
    | Revalidate(started: bool, market: Pricing, now: int)
    | Finalize(evidence: CloseEvidence)
    | Upgrade(promotion: Fill)
    | Settle

  function Apply(t: Tables, ln: real -> real, p: PickState, op: Op): PickState {
    match op
    case Revalidate(started, market, now) => if FillOdds(t, p.fill) > 1.0
      then Revalidated(t, ln, p, started, market, now) else p
    case Finalize(evidence) => if FillOdds(t, p.fill) > 1.0 then Finalized(t, ln, p, evidence) else p
    case Upgrade(promotion) => Upgraded(p, promotion)
    case Settle => p.(open := false)
  }

  /** A priced market names its anchor, and a quote without a book is charged like the fill book. */
  predicate NamedMarket(t: Tables, f: Fill, m: Pricing) {
    && m.anchor != ""
    && forall i :: 0 <= i < |m.quotes| && m.quotes[i].book == "" ==> t.Commission("") == t.Commission(f.bookmaker)
  }

  /** Anchors are named, a shown quote is charged like the book it records, and promoted prices are prices. */
  predicate Legal(t: Tables, p: PickState, op: Op) {
    match op
    case Revalidate(_, market, _) => NamedMarket(t, p.fill, market)
    case Finalize(e) => e.together.anchor != "" && e.sharpOnly.anchor != ""
    case Upgrade(f) => f.decimalOdds > 1.0
    case Settle => true
  }

  lemma {:induction false} OwnQuoteIsOwn(quotes: seq<Quote>, book: string)
    ensures OwnQuote(quotes, book).Some? ==>
            OwnQuote(quotes, book).value in quotes && OwnQuote(quotes, book).value.book == book
    ensures OwnQuote(quotes, book).None? ==> forall q :: q in quotes ==> q.book != book
  {
    if quotes != [] { OwnQuoteIsOwn(quotes[1..], book); }
  }

  lemma PriceNowIsTakeable(t: Tables, fillBook: string, quotes: seq<Quote>)
    ensures PriceNow(t, fillBook, quotes).Some? ==>
              var q := PriceNow(t, fillBook, quotes).value; q in quotes && (q.book == fillBook || !t.Sharp(q.book))
  {
    OwnQuoteIsOwn(quotes, fillBook);
    BestIsBest(t, IsSoft(t), quotes);
  }

  lemma ClvSign(ln: real -> real, fillOdds: real, fair: real)
    requires LogSign(ln) && fillOdds > 0.0 && fair > 0.0
    ensures ClvLog(ln, fillOdds, fair) > 0.0 <==> BeatsClose(fillOdds, fair)
  {
    var x := fillOdds * fair;
    assert ln(x) > 0.0 <==> x > 1.0;
  }

  lemma EdgeIsDefined(t: Tables, fair: real, book: string, odds: real)
    requires t.Valid() && odds > 1.0
    ensures EffectiveOdds(t, book, odds) > 1.0
    ensures EdgeAt(t, fair, book, odds) == Some(fair - 1.0 / EffectiveOdds(t, book, odds))
  {
    EffectiveAboveOne(t, book, odds);
  }

  lemma RevalidateKeepsInv(t: Tables, ln: real -> real, p: PickState, started: bool, m: Pricing, now: int)
    requires t.Valid() && LogSign(ln) && RowInv(t, p) && NamedMarket(t, p.fill, m)
    ensures RowInv(t, Revalidated(t, ln, p, started, m, now))
  {
    hide EffectiveOdds;
    if Repriceable(t, p, started, m) {
      var price := PriceNow(t, p.fill.bookmaker, m.quotes);
      PriceNowIsTakeable(t, p.fill.bookmaker, m.quotes);
      if price.Some? && price.value.odds > 1.0 {
        EdgeIsDefined(t, m.fair.value, price.value.book, price.value.odds);
        if price.value.book == "" {
          EqualEdgeEqualCommission(t, m.fair.value, "", p.fill.bookmaker, price.value.odds);
        }
      }
    }
  }

  lemma ApplyKeepsInv(t: Tables, ln: real -> real, p: PickState, op: Op)
    requires t.Valid() && LogSign(ln) && RowInv(t, p) && Legal(t, p, op)
    ensures RowInv(t, Apply(t, ln, p, op))
  {
    hide EffectiveOdds;
    match op {
      case Revalidate(started, market, now) => RevalidateKeepsInv(t, ln, p, started, market, now);
      case Finalize(e) =>
      case Upgrade(f) => EffectiveAboveOne(t, f.bookmaker, f.decimalOdds);
      case Settle =>
    }
  }

  function ApplyAll(t: Tables, ln: real -> real, p: PickState, ops: seq<Op>): PickState {
    if ops == [] then p else Apply(t, ln, ApplyAll(t, ln, p, ops[..|ops| - 1]), ops[|ops| - 1])
  }

  /** The `i`-th operation is legal for the row its predecessors leave. */
  predicate LegalAt(t: Tables, ln: real -> real, p: PickState, ops: seq<Op>, i: nat)
    requires i < |ops|
  {
    Legal(t, ApplyAll(t, ln, p, ops[..i]), ops[i])
  }

  /** Every interleaving of re-prices, closes and upgrades leaves a consistent row. */
  lemma {:induction false} EveryInterleavingKeepsInv(t: Tables, ln: real -> real, p: PickState, ops: seq<Op>)
    requires t.Valid() && LogSign(ln) && RowInv(t, p) && forall i :: 0 <= i < |ops| ==> LegalAt(t, ln, p, ops, i)
    ensures RowInv(t, ApplyAll(t, ln, p, ops))
  {
    if ops != [] {
      var n := |ops| - 1;
      forall i | 0 <= i < n ensures LegalAt(t, ln, p, ops[..n], i) {
        assert LegalAt(t, ln, p, ops, i) && ops[..n][..i] == ops[..i];
      }
      EveryInterleavingKeepsInv(t, ln, p, ops[..n]);
      assert LegalAt(t, ln, p, ops, n);
      ApplyKeepsInv(t, ln, ApplyAll(t, ln, p, ops[..n]), ops[n]);
    }
  }

  lemma MintedRowIsConsistent(t: Tables, f: Fill)
    requires t.Valid() && f.decimalOdds > 1.0
    ensures RowInv(t, Minted(f))
  {
    EffectiveAboveOne(t, f.bookmaker, f.decimalOdds);
  }

  // ---- a row, column by column ----

  /** The fill's price net of commission. */
  ghost function NetFill(t: Tables, p: PickState): real { EffectiveOdds(t, p.fill.bookmaker, p.fill.decimalOdds) }

  /** A fair value between 0 and 1, no more than 0.20 above what the fill implies. */
  ghost predicate TakesFair(t: Tables, p: PickState, fair: Option<real>)
    requires NetFill(t, p) > 1.0
  {
    fair.Some? && 0.0 < fair.value < 1.0 && fair.value - 1.0 / NetFill(t, p) <= 0.20
  }

  /** The closing grade of the row against a fair value and the anchor that set it. */
  ghost predicate GradedBy(t: Tables, ln: real -> real, p: PickState, m: Pricing, c: CloseColumns)
    requires m.fair.Some?
  {
    && c.fair == m.fair && c.fellBack == Some(m.fellBack)
    && c.clvLog == Some(ln(Times(NetFill(t, p), m.fair.value)))
    && (c.beatClose == Some(true) <==> c.clvLog.value > 0.0) && c.beatClose.Some?
    && (m.anchor == "" ==> c.anchor == p.close.anchor && c.independent == p.close.independent)
    && (m.anchor != "" ==>
          && c.anchor == Some(m.anchorType) && c.independent.Some?
          && (c.independent.value <==>
                && (m.anchor == "consensus(median)" || t.norm(m.anchor) != t.norm(p.fill.bookmaker))
                && p.fill.modelProbability.Some?
                && (m.fair.value - p.fill.modelProbability.value > 0.001
                    || p.fill.modelProbability.value - m.fair.value > 0.001)))
  }

  /** The quote a bettor could take now: the first one at the fill's own book; without one, the first of the best
      net prices among the books that are not sharp. */
  ghost predicate TakeableNow(t: Tables, book: string, quotes: seq<Quote>, i: nat)
    requires i < |quotes|
  {
    if exists k :: 0 <= k < |quotes| && quotes[k].book == book then
      quotes[i].book == book && forall k :: 0 <= k < i ==> quotes[k].book != book
    else
      && !t.Sharp(quotes[i].book)
      && (forall k :: 0 <= k < |quotes| && !t.Sharp(quotes[k].book) ==>
            EffectiveOdds(t, quotes[k].book, quotes[k].odds) <= EffectiveOdds(t, quotes[i].book, quotes[i].odds))
      && (forall k :: 0 <= k < i && !t.Sharp(quotes[k].book) ==>
            EffectiveOdds(t, quotes[k].book, quotes[k].odds) < EffectiveOdds(t, quotes[i].book, quotes[i].odds))
  }

  lemma {:induction false} OwnQuoteIsFirst(quotes: seq<Quote>, book: string)
    ensures OwnQuote(quotes, book).Some? ==>
              exists i :: 0 <= i < |quotes| && quotes[i] == OwnQuote(quotes, book).value && quotes[i].book == book
                && forall k :: 0 <= k < i ==> quotes[k].book != book
    ensures OwnQuote(quotes, book).None? ==> forall k :: 0 <= k < |quotes| ==> quotes[k].book != book
  {
    if quotes != [] && quotes[0].book != book {
      OwnQuoteIsFirst(quotes[1..], book);
      if OwnQuote(quotes, book).Some? {
        var i :| 0 <= i < |quotes[1..]| && quotes[1..][i] == OwnQuote(quotes, book).value && quotes[1..][i].book == book
          && forall k :: 0 <= k < i ==> quotes[1..][k].book != book;
        assert quotes[i + 1] == quotes[1..][i];
        assert forall k :: 1 <= k < i + 1 ==> quotes[k] == quotes[1..][k - 1];
      } else {
        assert forall k :: 1 <= k < |quotes| ==> quotes[k] == quotes[1..][k - 1];
      }
    }
  }

  /** The price now is the takeable quote; there is none iff neither the fill's book nor a soft book quotes. */
  lemma PriceNowIsTheTakeableQuote(t: Tables, book: string, quotes: seq<Quote>)
    ensures PriceNow(t, book, quotes).Some? ==>
              exists i :: 0 <= i < |quotes| && quotes[i] == PriceNow(t, book, quotes).value
                && TakeableNow(t, book, quotes, i)
    ensures PriceNow(t, book, quotes).None? <==>
              forall k :: 0 <= k < |quotes| ==> quotes[k].book != book && t.Sharp(quotes[k].book)
  {
    hide EffectiveOdds;
    OwnQuoteIsFirst(quotes, book);
    BestIsFirst(t, IsSoft(t), quotes);
    BestIsBest(t, IsSoft(t), quotes);
    assert forall k :: 0 <= k < |quotes| ==> quotes[k] in quotes;
    if OwnQuote(quotes, book).Some? {
      OwnQuoteIsOwn(quotes, book);
    }
  }

  lemma TakeableIsUnique(t: Tables, book: string, quotes: seq<Quote>, i: nat, j: nat)
    requires i < |quotes| && j < |quotes| && TakeableNow(t, book, quotes, i) && TakeableNow(t, book, quotes, j)
    ensures i == j
  {
    hide EffectiveOdds;
  }

  lemma GradedExactly(t: Tables, ln: real -> real, p: PickState, m: Pricing)
    requires m.fair.Some?
    ensures GradedBy(t, ln, p, m, Graded(t, ln, p.fill, p.close, m))
    ensures var g := Graded(t, ln, p.fill, p.close, m); g.odds == p.close.odds && g.isSnapshot == p.close.isSnapshot
  {
    hide EffectiveOdds, Times;
    assert NetFill(t, p) == FillOdds(t, p.fill);
  }

  /** The net price at a book, with one in place of zero. */
  ghost function NetAt(t: Tables, book: string, odds: real): (net: real)
    ensures net != 0.0
  {
    var net := EffectiveOdds(t, book, odds);
    if net == 0.0 then 1.0 else net
  }

  /** The last price and its book are kept, with the edge of that price at the recorded book. */
  ghost predicate KeepsPrice(t: Tables, p: PickState, fair: real, live: LiveColumns) {
    && live.odds == p.live.odds && live.bookmaker == p.live.bookmaker
    && (live.odds.None? ==> live.edge.None?)
    && (live.odds.Some? && live.odds.value > 1.0 ==>
          var named := live.bookmaker.Some? && live.bookmaker.value != "";
          var book := if named then live.bookmaker.value else p.fill.bookmaker;
          live.edge == Some(fair - 1.0 / NetAt(t, book, live.odds.value)))
  }

  /** The live columns show a takeable quote above one with its edge, or keep the last price if there is none. */
  ghost predicate ShowsNow(t: Tables, p: PickState, m: Pricing, live: LiveColumns)
    requires m.fair.Some?
  {
    && (forall i :: 0 <= i < |m.quotes| && TakeableNow(t, p.fill.bookmaker, m.quotes, i) && m.quotes[i].odds > 1.0 ==>
          live == LiveColumns(Some(m.quotes[i].odds), Some(m.quotes[i].book),
            Some(m.fair.value - 1.0 / NetAt(t, m.quotes[i].book, m.quotes[i].odds))))
    && ((forall i :: 0 <= i < |m.quotes| && TakeableNow(t, p.fill.bookmaker, m.quotes, i) ==> m.quotes[i].odds <= 1.0)
        ==> KeepsPrice(t, p, m.fair.value, live))
  }

  lemma KeptExactly(t: Tables, p: PickState, fair: real)
    requires t.Valid()
    ensures KeepsPrice(t, p, fair, Reconciled(t, p.live, p.fill.bookmaker, fair))
  {
    hide EffectiveOdds;
    if p.live.odds.Some? && p.live.odds.value > 1.0 {
      EdgeIsDefined(t, fair, RecordedBook(p.live, p.fill.bookmaker), p.live.odds.value);
    }
  }

  lemma ShownExactly(t: Tables, p: PickState, m: Pricing)
    requires t.Valid() && m.fair.Some?
    ensures ShowsNow(t, p, m, LiveAfter(t, p, m))
  {
    hide EffectiveOdds, PriceNow, TakeableNow, Reconciled, KeepsPrice;
    var book, price := p.fill.bookmaker, PriceNow(t, p.fill.bookmaker, m.quotes);
    PriceNowIsTheTakeableQuote(t, book, m.quotes);
    KeptExactly(t, p, m.fair.value);
    if price.Some? {
      var i :| 0 <= i < |m.quotes| && m.quotes[i] == price.value && TakeableNow(t, book, m.quotes, i);
      forall k | 0 <= k < |m.quotes| && TakeableNow(t, book, m.quotes, k) ensures k == i {
        TakeableIsUnique(t, book, m.quotes, k, i);
      }
      if price.value.odds > 1.0 {
        EdgeIsDefined(t, m.fair.value, price.value.book, price.value.odds);
      }
    } else {
      forall k | 0 <= k < |m.quotes| ensures !TakeableNow(t, book, m.quotes, k) {
        NothingTakeable(t, book, m.quotes, k);
      }
    }
  }

  lemma NothingTakeable(t: Tables, book: string, quotes: seq<Quote>, i: nat)
    requires i < |quotes| && forall k :: 0 <= k < |quotes| ==> quotes[k].book != book && t.Sharp(quotes[k].book)
    ensures !TakeableNow(t, book, quotes, i)
  {
    hide EffectiveOdds;
  }

  /** A re-price of a started or settled row, or at a fair value that is unusable or implausible against the fill,
      changes nothing; any other writes these columns and no more. */
  lemma RepriceExactly(t: Tables, ln: real -> real, p: PickState, started: bool, m: Pricing, now: int)
    requires t.Valid() && NetFill(t, p) > 1.0
    ensures var r := Revalidated(t, ln, p, started, m, now);
            && (started || !p.open || !TakesFair(t, p, m.fair) ==> r == p)
            && (!started && p.open && TakesFair(t, p, m.fair) ==>
                  && r.open && r.fill == p.fill && r.revalidatedAt == Some(now) == r.attemptedAt
                  && GradedBy(t, ln, p, m, r.close)
                  && r.close.odds == p.close.odds && r.close.isSnapshot == p.close.isSnapshot
                  && ShowsNow(t, p, m, r.live))
  {
    hide EffectiveOdds, Graded, GradedBy, LiveAfter, ShowsNow;
    if m.fair.Some? {
      GradedExactly(t, ln, p, m);
      ShownExactly(t, p, m);
    }
  }

  /** A snapshot close takes the rows of both sources when the soft ones are fresh at a known kickoff, the sharp rows
      alone when only they are, and nothing otherwise; it writes these columns and no more. */
  lemma CloseExactly(t: Tables, ln: real -> real, p: PickState, e: CloseEvidence)
    requires t.Valid() && NetFill(t, p) > 1.0
    ensures var soft := e.kickoff.Some? && e.softLast.Some? && e.kickoff.value - e.softLast.value <= e.maxGap;
            var sharp := e.kickoff.Some? && e.sharpLast.Some? && e.kickoff.value - e.sharpLast.value <= e.maxGap;
            var m := if soft then e.together else e.sharpOnly;
            var r := Finalized(t, ln, p, e);
            && (!(soft || sharp) || !TakesFair(t, p, m.fair) ==> r == p)
            && ((soft || sharp) && TakesFair(t, p, m.fair) ==>
                  && r.open == p.open && r.fill == p.fill
                  && r.revalidatedAt == p.revalidatedAt && r.attemptedAt == p.attemptedAt
                  && GradedBy(t, ln, p, m, r.close) && r.close.isSnapshot == Some(true)
                  && ClosingPrice(t, p, m, r.close.odds)
                  && KeepsPrice(t, p, m.fair.value, r.live))
  {
    hide EffectiveOdds, Graded, PriceNow, TakeableNow, Reconciled, KeepsPrice, Times;
    var soft := e.kickoff.Some? && e.softLast.Some? && e.kickoff.value - e.softLast.value <= e.maxGap;
    var m := if soft then e.together else e.sharpOnly;
    if m.fair.Some? {
      GradedExactly(t, ln, p, m);
      KeptExactly(t, p, m.fair.value);
      ClosedAt(t, ln, p, m);
    }
  }

  /** The closing price is the takeable quote above one; without one the old mark stays. */
  ghost predicate ClosingPrice(t: Tables, p: PickState, m: Pricing, odds: Option<real>) {
    && (forall i :: 0 <= i < |m.quotes| && TakeableNow(t, p.fill.bookmaker, m.quotes, i) && m.quotes[i].odds > 1.0 ==>
          odds == Some(m.quotes[i].odds))
    && ((forall i :: 0 <= i < |m.quotes| && TakeableNow(t, p.fill.bookmaker, m.quotes, i) ==> m.quotes[i].odds <= 1.0)
        ==> odds == p.close.odds)
  }

  lemma ClosedAt(t: Tables, ln: real -> real, p: PickState, m: Pricing)
    requires t.Valid() && m.fair.Some?
    ensures ClosingPrice(t, p, m, SnapshotClose(t, ln, p, m).odds)
    ensures var c := SnapshotClose(t, ln, p, m); c.isSnapshot == Some(true)
    ensures SnapshotClose(t, ln, p, m).(odds := None, isSnapshot := None)
         == Graded(t, ln, p.fill, p.close, m).(odds := None, isSnapshot := None)
  {
    hide EffectiveOdds, PriceNow, TakeableNow, Times;
    var book, price := p.fill.bookmaker, PriceNow(t, p.fill.bookmaker, m.quotes);
    PriceNowIsTheTakeableQuote(t, book, m.quotes);
    if price.Some? {
      var i :| 0 <= i < |m.quotes| && m.quotes[i] == price.value && TakeableNow(t, book, m.quotes, i);
      forall k | 0 <= k < |m.quotes| && TakeableNow(t, book, m.quotes, k) ensures k == i {
        TakeableIsUnique(t, book, m.quotes, k, i);
      }
    } else {
      forall k | 0 <= k < |m.quotes| ensures !TakeableNow(t, book, m.quotes, k) {
        NothingTakeable(t, book, m.quotes, k);
      }
    }
  }

  /** An upgrade takes over the promoting fill but for its own fallback flag, and forgets every closing and live
      column but the closing fallback flag; it stays open, and its attempt clock stays. */
  lemma UpgradeExactly(p: PickState, promotion: Fill)
    ensures Upgraded(p, promotion) == PickState(
              p.open, Fill(promotion.bookmaker, promotion.decimalOdds, promotion.modelProbability, p.fill.fellBack),
              CloseColumns(None, None, None, p.close.fellBack, None, None, None, None),
              LiveColumns(None, None, None), None, p.attemptedAt)
  {
  }

  // ---- runs over a started or settled event ----

  ghost predicate IsReprice(op: Op) { op.Revalidate? }

  ghost function NotReprice(): Op -> bool { (op: Op) => !IsReprice(op) }

  /** Once the event has started or the pick is settled, re-prices do nothing: the row is what the other operations
      alone make of it. */
  lemma {:induction false} RepricesAreInert(t: Tables, ln: real -> real, p: PickState, ops: seq<Op>)
    requires t.Valid()
    requires forall i :: 0 <= i < |ops| && ops[i].Revalidate? ==>
               ops[i].started || !p.open || exists j :: 0 <= j < i && ops[j].Settle?
    ensures ApplyAll(t, ln, p, ops) == ApplyAll(t, ln, p, Filter(NotReprice(), ops))
    ensures !p.open || (exists j :: 0 <= j < |ops| && ops[j].Settle?) ==> !ApplyAll(t, ln, p, ops).open
  {
    hide EffectiveOdds, Graded, LiveAfter, Finalizable, CloseRows;
    if ops != [] {
      var n := |ops| - 1;
      var init := ops[..n];
      assert forall i :: 0 <= i < n ==> init[i] == ops[i];
      RepricesAreInert(t, ln, p, init);
      FilterSnoc(NotReprice(), ops, n);
      assert ops[..n + 1] == ops;
      var rest := Filter(NotReprice(), init);
      assert (rest + [ops[n]])[..|rest|] == rest && rest + [] == rest;
      var before := ApplyAll(t, ln, p, init);
      if IsReprice(ops[n]) {
        assert ops[n].started || !before.open;
        assert Apply(t, ln, before, ops[n]) == before;
      } else {
        assert Filter(NotReprice(), ops) == rest + [ops[n]];
      }
    }
  }

  // ---- what leaves a row alone ----

  /** A stale soft book set never prices a close. */
  lemma StaleSoftRowsNeverPriceTheClose(t: Tables, ln: real -> real, p: PickState, e: CloseEvidence, other: Pricing)
    requires FillOdds(t, p.fill) > 1.0
    requires e.kickoff.None? || !Within(e.softLast, e.kickoff.value, e.maxGap)
    ensures Finalized(t, ln, p, e.(together := other)) == Finalized(t, ln, p, e)
    ensures Finalized(t, ln, p, e) != p ==> e.kickoff.Some? && Within(e.sharpLast, e.kickoff.value, e.maxGap)
  {
    hide EffectiveOdds;
    assert CloseRows(e.(together := other)) == CloseRows(e);
  }

  // ---- where the row stops agreeing with itself ----

  /** A close at the fair value of the re-price before it changes neither price nor fair value; it keeps the
      shown edge too, exactly when the re-price's book has a name or is charged like the fill book. (The
      blank name is read as "no book recorded", and the fill book's commission is netted instead.) */
  lemma CloseKeepsTheEdge(t: Tables, ln: real -> real, p: PickState, m: Pricing, now: int, e: CloseEvidence)
    requires t.Valid() && FillOdds(t, p.fill) > 1.0 && Repriceable(t, p, false, m)
    requires Finalizable(t, p.fill, e) && CloseRows(e).value.fair == m.fair
    requires var price := PriceNow(t, p.fill.bookmaker, m.quotes); price.Some? && price.value.odds > 1.0
    ensures var book := PriceNow(t, p.fill.bookmaker, m.quotes).value.book;
            var repriced := Revalidated(t, ln, p, false, m, now);
            var closed := Finalized(t, ln, repriced, e);
            && closed.live.odds == repriced.live.odds && closed.close.fair == repriced.close.fair
            && (closed.live.edge == repriced.live.edge <==>
                  book != "" || t.Commission("") == t.Commission(p.fill.bookmaker))
  {
    hide EffectiveOdds;
    var price := PriceNow(t, p.fill.bookmaker, m.quotes).value;
    EdgeIsDefined(t, m.fair.value, price.book, price.odds);
    EdgeIsDefined(t, m.fair.value, p.fill.bookmaker, price.odds);
    EqualEdgeEqualCommission(t, m.fair.value, "", p.fill.bookmaker, price.odds);
  }

  lemma EqualEdgeEqualCommission(t: Tables, fair: real, a: string, b: string, odds: real)
    requires t.Valid() && odds > 1.0
    ensures EdgeAt(t, fair, a, odds) == EdgeAt(t, fair, b, odds) <==> t.Commission(a) == t.Commission(b)
  {
    EdgeIsDefined(t, fair, a, odds);
    EdgeIsDefined(t, fair, b, odds);
    EffectiveAboveOne(t, a, odds);
    EffectiveAboveOne(t, b, odds);
    SameReciprocal(EffectiveOdds(t, a, odds), EffectiveOdds(t, b, odds));
    SameNet(t, a, b, odds);
    hide EffectiveOdds;
  }

  lemma SameReciprocal(x: real, y: real)
    requires x > 0.0 && y > 0.0
    ensures 1.0 / x == 1.0 / y <==> x == y
  {
    ReciprocalOrder(x, y);
    ReciprocalOrder(y, x);
  }

  lemma SameNet(t: Tables, a: string, b: string, odds: real)
    requires odds > 1.0
    ensures EffectiveOdds(t, a, odds) == EffectiveOdds(t, b, odds) <==> t.Commission(a) == t.Commission(b)
  {
    var p, q, k := 1.0 - t.Commission(a), 1.0 - t.Commission(b), odds - 1.0;
    ScaleOrder(p, q, k);
    ScaleOrder(q, p, k);
    assert EffectiveOdds(t, a, odds) == 1.0 + p * k && EffectiveOdds(t, b, odds) == 1.0 + q * k;
  }

  /** The upgrade clears every close column except the devig-fallback flag, so a promoted row carries a
      close flag without a close whenever the shadow row had been graded. */
  lemma UpgradeLeavesFallbackFlag(
    t: Tables, ln: real -> real, p: PickState, started: bool, m: Pricing, now: int, promotion: Fill)
    requires FillOdds(t, p.fill) > 1.0
    ensures var promoted := Upgraded(Revalidated(t, ln, p, started, m, now), promotion);
            && promoted.close.fair.None?
            && (promoted.close.fellBack.None? <==> p.close.fellBack.None? && !Repriceable(t, p, started, m))
            && promoted.fill.fellBack == p.fill.fellBack
  {
    hide EffectiveOdds;
  }

  /** Each step of a run from a consistent row meets a fill that can be graded, and does what its operation does. */
  lemma RunsTakeTheOperations(t: Tables, ln: real -> real, p: PickState, ops: seq<Op>, i: nat)
    requires t.Valid() && LogSign(ln) && RowInv(t, p) && i < |ops|
    requires forall k :: 0 <= k < |ops| ==> LegalAt(t, ln, p, ops, k)
    ensures var before, after := ApplyAll(t, ln, p, ops[..i]), ApplyAll(t, ln, p, ops[..i + 1]);
            && NetFill(t, before) > 1.0
            && match ops[i]
               case Revalidate(started, m, now) => after == Revalidated(t, ln, before, started, m, now)
               case Finalize(e) => after == Finalized(t, ln, before, e)
               case Upgrade(f) => after == Upgraded(before, f)
               case Settle => after == before.(open := false)
  {
    hide EffectiveOdds, RowInv, Legal, Revalidated, Finalized, Upgraded;
    forall k | 0 <= k < i ensures LegalAt(t, ln, p, ops[..i], k) {
      assert LegalAt(t, ln, p, ops, k) && ops[..i][..k] == ops[..k];
    }
    EveryInterleavingKeepsInv(t, ln, p, ops[..i]);
    Gradable(t, ApplyAll(t, ln, p, ops[..i]));
    assert ops[..i + 1][..i] == ops[..i];
  }

  lemma Gradable(t: Tables, p: PickState)
    requires RowInv(t, p)
    ensures FillOdds(t, p.fill) > 1.0
  {
    hide EffectiveOdds;
  }
}
