/** Bookmaker names and commission (app/edge/value.py): names are compared after normalisation, and
    exchange commission is taken from the winnings before any price is compared. */
module Books {
  import opened Prelude

  /** `norm` is the normalisation of names; the two tables are the module's constants. */
  datatype Tables = Tables(norm: string -> string, commission: map<string, real>, sharpBooks: seq<string>)
  {
    /** Normalising is idempotent, the tables hold normal names, and no commission eats the winnings. */
    ghost predicate Valid() {
      && (forall s :: norm(norm(s)) == norm(s))
      && (forall b :: b in commission ==> 0.0 <= commission[b] < 1.0)
      && (forall i :: 0 <= i < |sharpBooks| ==> norm(sharpBooks[i]) == sharpBooks[i] && sharpBooks[i] != "")
      && norm(CONSENSUS_ANCHOR) == CONSENSUS_ANCHOR && CONSENSUS_ANCHOR !in sharpBooks && norm("") == ""
    }

    function Commission(book: string): real {
      if norm(book) in commission then commission[norm(book)] else 0.0
    }

    predicate Sharp(book: string) { norm(book) in sharpBooks }
  }

  const CONSENSUS_ANCHOR := "consensus(median)"

  function SharpBooks(): seq<string> { ["pinnacle", "pinnacle sports", "betfair exchange", "smarkets"] }

  function ExchangeCommission(): map<string, real> {
    map["betfair exchange" := 0.05, "betfair" := 0.05, "smarkets" := 0.02, "matchbook" := 0.02]
  }

  datatype AnchorType = Pinnacle | OtherSharp | Consensus

  datatype Quote = Quote(book: string, odds: real)

  /** Decimal odds net of exchange commission on winnings. */
  function EffectiveOdds(t: Tables, book: string, odds: real): real {
    1.0 + (odds - 1.0) * (1.0 - t.Commission(book))
  }

  lemma EffectiveAboveOne(t: Tables, book: string, odds: real)
    requires t.Valid() && odds > 1.0
    ensures 1.0 < EffectiveOdds(t, book, odds) <= odds
  {
    var x, k := odds - 1.0, 1.0 - t.Commission(book);
    assert EffectiveOdds(t, book, odds) == 1.0 + x * k;
  }

  lemma ScaleOrder(a: real, b: real, k: real)
    requires k > 0.0
    ensures a <= b <==> a * k <= b * k
  {
    if a > b {
      var d := a - b;
      assert d * k > 0.0;
      assert a * k == b * k + d * k;
    } else {
      var d := b - a;
      assert d * k >= 0.0;
      assert b * k == a * k + d * k;
    }
  }

  /** At one book a longer price nets more. */
  lemma EffectiveMonotone(t: Tables, book: string, a: real, b: real)
    requires t.Valid()
    ensures a <= b <==> EffectiveOdds(t, book, a) <= EffectiveOdds(t, book, b)
  {
    var x, y, k := a - 1.0, b - 1.0, 1.0 - t.Commission(book);
    ScaleOrder(x, y, k);
    assert EffectiveOdds(t, book, a) == 1.0 + x * k && EffectiveOdds(t, book, b) == 1.0 + y * k;
  }

  lemma ReciprocalOrder(a: real, b: real)
    requires a > 0.0 && b > 0.0
    ensures a <= b <==> 1.0 / b <= 1.0 / a
  {
    var p, q := 1.0 / a, 1.0 / b;
    assert p * a == 1.0 && q * b == 1.0;
    ScaleOrder(a, b, p * q);
    assert a * (p * q) == q && b * (p * q) == p;
  }

  /** The first of the eligible quotes with the best effective odds. */
  function Best(t: Tables, eligible: Quote -> bool, quotes: seq<Quote>): Option<Quote> {
    if quotes == [] then None
    else
      var best := Best(t, eligible, quotes[..|quotes| - 1]);
      var q := quotes[|quotes| - 1];
      if !eligible(q) then best
      else if best.Some? && EffectiveOdds(t, q.book, q.odds) <= EffectiveOdds(t, best.value.book, best.value.odds)
        then best
      else Some(q)
  }

  ghost predicate IsBest(t: Tables, eligible: Quote -> bool, quotes: seq<Quote>, b: Quote) {
    && b in quotes && eligible(b)
    && forall q :: q in quotes && eligible(q) ==> EffectiveOdds(t, q.book, q.odds) <= EffectiveOdds(t, b.book, b.odds)
  }

  lemma {:induction false} BestIsBest(t: Tables, eligible: Quote -> bool, quotes: seq<Quote>)
    ensures Best(t, eligible, quotes).None? <==> forall q :: q in quotes ==> !eligible(q)
    ensures Best(t, eligible, quotes).Some? ==> IsBest(t, eligible, quotes, Best(t, eligible, quotes).value)
  {
    hide EffectiveOdds;
    if quotes != [] {
      var n := |quotes| - 1;
      BestIsBest(t, eligible, quotes[..n]);
      assert quotes == quotes[..n] + [quotes[n]];
    }
  }

  /** Of equally good quotes, the first one listed. */
  lemma {:induction false} BestIsFirst(t: Tables, eligible: Quote -> bool, quotes: seq<Quote>)
    ensures Best(t, eligible, quotes).Some? ==>
              exists i :: 0 <= i < |quotes| && quotes[i] == Best(t, eligible, quotes).value && eligible(quotes[i])
                && (forall k :: 0 <= k < |quotes| && eligible(quotes[k]) ==>
                      EffectiveOdds(t, quotes[k].book, quotes[k].odds)
                      <= EffectiveOdds(t, quotes[i].book, quotes[i].odds))
                && (forall k :: 0 <= k < i && eligible(quotes[k]) ==>
                      EffectiveOdds(t, quotes[k].book, quotes[k].odds)
                      < EffectiveOdds(t, quotes[i].book, quotes[i].odds))
  {
    hide EffectiveOdds;
    if quotes != [] {
      var n := |quotes| - 1;
      var init, last := quotes[..n], quotes[n];
      BestIsFirst(t, eligible, init);
      BestIsBest(t, eligible, init);
      assert quotes == init + [last];
      if Best(t, eligible, quotes).Some? {
        if Best(t, eligible, quotes) == Best(t, eligible, init) {
          var i :| 0 <= i < n && init[i] == Best(t, eligible, init).value && eligible(init[i])
            && (forall k :: 0 <= k < n && eligible(init[k]) ==>
                  EffectiveOdds(t, init[k].book, init[k].odds) <= EffectiveOdds(t, init[i].book, init[i].odds))
            && (forall k :: 0 <= k < i && eligible(init[k]) ==>
                  EffectiveOdds(t, init[k].book, init[k].odds) < EffectiveOdds(t, init[i].book, init[i].odds));
          assert quotes[i] == init[i];
        } else {
          assert quotes[n] == last;
        }
      }
    }
  }

  /** The re-price fallback: the best soft quote. */
  function BestSoft(t: Tables, quotes: seq<Quote>): Option<Quote> { Best(t, IsSoft(t), quotes) }

  function IsSoft(t: Tables): Quote -> bool { (q: Quote) => !t.Sharp(q.book) }

  /** The tables of the source are well formed for any normalisation that fixes their own names. */
  lemma SourceTablesAreValid(norm: string -> string)
    requires forall s :: norm(norm(s)) == norm(s)
    requires forall i :: 0 <= i < |SharpBooks()| ==> norm(SharpBooks()[i]) == SharpBooks()[i]
    requires norm(CONSENSUS_ANCHOR) == CONSENSUS_ANCHOR && norm("") == ""
    ensures Tables(norm, ExchangeCommission(), SharpBooks()).Valid()
  {
    var names := SharpBooks();
    assert |names[0]| == 8 && |names[1]| == 15 && |names[2]| == 16 && |names[3]| == 8;
    assert |CONSENSUS_ANCHOR| == 17;
  }

  // ---- net prices, from the table ----

  /** The share of the winnings a book keeps. */
  ghost function Rate(t: Tables, book: string): real {
    if t.norm(book) !in t.commission then 0.0 else t.commission[t.norm(book)]
  }

  ghost function NetPrice(t: Tables, q: Quote): real { q.odds - Times(Rate(t, q.book), q.odds - 1.0) }

  /** A price nets what is displayed less its book's share of the winnings. */
  lemma NetPriceExactly(t: Tables, q: Quote)
    ensures EffectiveOdds(t, q.book, q.odds) == NetPrice(t, q)
  {
    var x, c := q.odds - 1.0, Rate(t, q.book);
    assert x * (1.0 - c) == x - c * x;
  }

  /** With the tables of the source a price at Betfair loses 5 % of its winnings, one at Smarkets or Matchbook 2 %, and
      any other none; the sharp books are Pinnacle under two names, the Betfair exchange and Smarkets. */
  lemma SourceTablesExactly(norm: string -> string, book: string, odds: real)
    ensures var t, n := Tables(norm, ExchangeCommission(), SharpBooks()), norm(book);
            && EffectiveOdds(t, book, odds) ==
                 (if n == "betfair exchange" || n == "betfair" then 0.95 * odds + 0.05
                  else if n == "smarkets" || n == "matchbook" then 0.98 * odds + 0.02
                  else odds)
            && (t.Sharp(book) <==>
                  n == "pinnacle" || n == "pinnacle sports" || n == "betfair exchange" || n == "smarkets")
  {
    var t := Tables(norm, ExchangeCommission(), SharpBooks());
    NetPriceExactly(t, Quote(book, odds));
    var names := SharpBooks();
    assert names[0] == "pinnacle" && names[1] == "pinnacle sports";
    assert names[2] == "betfair exchange" && names[3] == "smarkets";
  }
}
