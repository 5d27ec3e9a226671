/** Fair-value anchoring (app/edge/value.py): a named sharp book that prices the whole market, else the
    median of the books that do; and the cross-book reference that exposes a swapped anchor line.
    Dictionaries are ordered lists with unique keys. */
module Anchors {
  import opened Prelude
  import opened Books
  import StableSort

  datatype SelectionQuotes = SelectionQuotes(selection: string, quotes: seq<Quote>)

  type Market = seq<SelectionQuotes>

  datatype FairValue = FairValue(selection: string, prob: real)

  const MIN_CONSENSUS_BOOKS := 3

  const ANCHOR_SWAP_TOLERANCE := 0.10

  // ---- the median ----

  predicate AtMost(a: real, b: real) { a <= b }

  /** statistics.median */
  function Median(s: seq<real>): real
    requires s != []
  {
    var t := StableSort.Sort(AtMost, s);
    var h := |t| / 2;
    if |t| % 2 == 1 then t[h] else (t[h - 1] + t[h]) / 2.0
  }

  function Below(x: real): real -> bool { (y: real) => y < x }

  function Above(x: real): real -> bool { (y: real) => y > x }

  /** One value out of three or more cannot drag the median past all the others. */
  lemma MedianResistsOneOutlier(s: seq<real>, lo: real, hi: real)
    requires |s| >= 3 && |Filter(Below(lo), s)| <= 1 && |Filter(Above(hi), s)| <= 1
    ensures lo <= Median(s) <= hi
  {
    var t := StableSort.Sort(AtMost, s);
    StableSort.SortOrdered(AtMost, s);
    StableSort.SortFilter(AtMost, Below(lo), s);
    StableSort.SortFilter(AtMost, Above(hi), s);
    SecondIsInside(t, lo);
    SecondToLastIsInside(t, hi);
    var h := |t| / 2;
    forall k | 1 <= k <= |t| - 2 ensures lo <= t[k] <= hi {
      assert k > 1 ==> AtMost(t[1], t[k]);
      assert k < |t| - 2 ==> AtMost(t[k], t[|t| - 2]);
    }
  }

  lemma SecondIsInside(t: seq<real>, lo: real)
    requires |t| >= 2 && StableSort.Ordered(AtMost, t) && |Filter(Below(lo), t)| <= 1
    ensures lo <= t[1]
  {
    assert AtMost(t[0], t[1]);
    FilterSnoc(Below(lo), t, 0);
    FilterSnoc(Below(lo), t, 1);
    FilterAppend(Below(lo), t[..2], t[2..]);
    assert t == t[..2] + t[2..];
  }

  lemma SecondToLastIsInside(t: seq<real>, hi: real)
    requires |t| >= 2 && StableSort.Ordered(AtMost, t) && |Filter(Above(hi), t)| <= 1
    ensures t[|t| - 2] <= hi
  {
    var n := |t|;
    assert AtMost(t[n - 2], t[n - 1]);
    FilterSnoc(Above(hi), t, n - 1);
    FilterSnoc(Above(hi), t, n - 2);
    assert t[..n] == t;
  }

  // ---- one price per book ----

  datatype Entry = Entry(book: string, value: real)

  function IndexOf(entries: seq<Entry>, book: string): (i: Option<nat>)
    ensures i.Some? ==> i.value < |entries| && entries[i.value].book == book
    ensures i.None? ==> forall k :: 0 <= k < |entries| ==> entries[k].book != book
  {
    if entries == [] then None
    else if entries[|entries| - 1].book == book then Some(|entries| - 1)
    else
      var i := IndexOf(entries[..|entries| - 1], book);
      i
  }

  function Put(entries: seq<Entry>, e: Entry, better: (real, real) -> bool): seq<Entry> {
    var i := IndexOf(entries, e.book);
    if i.None? then entries + [e]
    else if better(e.value, entries[i.value].value) then entries[i.value := e]
    else entries
  }

  /** Quotes deduplicated by normalised book name, the better value kept. */
  function PerBook(t: Tables, value: Quote -> real, better: (real, real) -> bool, quotes: seq<Quote>): (r: seq<Entry>)
    ensures quotes != [] ==> r != []
  {
    if quotes == [] then []
    else
      var q := quotes[|quotes| - 1];
      Put(PerBook(t, value, better, quotes[..|quotes| - 1]), Entry(t.norm(q.book), value(q)), better)
  }

  function Values(entries: seq<Entry>): (r: seq<real>)
    ensures |r| == |entries|
    ensures forall i :: 0 <= i < |r| ==> r[i] == entries[i].value
  {
    if entries == [] then [] else [entries[0].value] + Values(entries[1..])
  }

  ghost predicate UniqueBooks(entries: seq<Entry>) {
    forall i, j :: 0 <= i < j < |entries| ==> entries[i].book != entries[j].book
  }

  function EntryBooks(entries: seq<Entry>): set<string> { set e | e in entries :: e.book }

  function BooksOf(t: Tables, quotes: seq<Quote>): set<string> { set q | q in quotes :: t.norm(q.book) }

  lemma {:induction false} PerBookIsUnique(
    t: Tables, value: Quote -> real, better: (real, real) -> bool, quotes: seq<Quote>)
    ensures UniqueBooks(PerBook(t, value, better, quotes))
    ensures EntryBooks(PerBook(t, value, better, quotes)) == BooksOf(t, quotes)
  {
    if quotes != [] {
      var n := |quotes| - 1;
      PerBookIsUnique(t, value, better, quotes[..n]);
      var before := PerBook(t, value, better, quotes[..n]);
      var e := Entry(t.norm(quotes[n].book), value(quotes[n]));
      PutBooks(before, e, better);
      assert quotes == quotes[..n] + [quotes[n]];
      assert BooksOf(t, quotes) == BooksOf(t, quotes[..n]) + {e.book};
    }
  }

  lemma PutBooks(entries: seq<Entry>, e: Entry, better: (real, real) -> bool)
    requires UniqueBooks(entries)
    ensures UniqueBooks(Put(entries, e, better))
    ensures EntryBooks(Put(entries, e, better)) == EntryBooks(entries) + {e.book}
  {
    var i := IndexOf(entries, e.book);
    var after := Put(entries, e, better);
    if i.Some? {
      assert entries[i.value] in entries;
      assert |after| == |entries| && forall k :: 0 <= k < |entries| ==> after[k].book == entries[k].book;
      SameBooks(entries, after);
    }
  }

  lemma SameBooks(a: seq<Entry>, b: seq<Entry>)
    requires |a| == |b| && forall k :: 0 <= k < |a| ==> a[k].book == b[k].book
    ensures EntryBooks(a) == EntryBooks(b)
  {
    forall x | x in EntryBooks(a) ensures x in EntryBooks(b) {
      var k :| 0 <= k < |a| && a[k].book == x;
      assert b[k] in b;
    }
    forall x | x in EntryBooks(b) ensures x in EntryBooks(a) {
      var k :| 0 <= k < |b| && b[k].book == x;
      assert a[k] in a;
    }
  }

  lemma {:induction false} UniqueCount(entries: seq<Entry>)
    requires UniqueBooks(entries)
    ensures |EntryBooks(entries)| == |entries|
  {
    if entries != [] {
      var n := |entries| - 1;
      UniqueCount(entries[..n]);
      assert entries == entries[..n] + [entries[n]];
      assert EntryBooks(entries) == EntryBooks(entries[..n]) + {entries[n].book};
    }
  }

  function NotQuotedBy(t: Tables, b: string): Quote -> bool { (q: Quote) => t.norm(q.book) != b }

  /** With one entry per book, at most one of them can be the odd one out. */
  lemma {:induction false} OneOddEntry(entries: seq<Entry>, b: string, odd: real -> bool)
    requires UniqueBooks(entries) && forall e :: e in entries && e.book != b ==> !odd(e.value)
    ensures |Filter(odd, Values(entries))| <= 1
  {
    if entries != [] {
      var rest := entries[1..];
      assert entries[0] in entries && forall e :: e in rest ==> e in entries;
      OneOddEntry(rest, b, odd);
      if entries[0].book == b {
        forall x | x in Values(rest) ensures !odd(x) {
          var k :| 0 <= k < |rest| && Values(rest)[k] == x;
          assert rest[k] in entries && entries[k + 1].book != entries[0].book;
        }
        FilterNone(odd, Values(rest));
      }
    }
  }

  lemma MedianOfBooks(entries: seq<Entry>, b: string, lo: real, hi: real)
    requires |entries| >= 3 && UniqueBooks(entries)
    requires forall e :: e in entries && e.book != b ==> lo <= e.value <= hi
    ensures lo <= Median(Values(entries)) <= hi
  {
    OneOddEntry(entries, b, Below(lo));
    OneOddEntry(entries, b, Above(hi));
    MedianResistsOneOutlier(Values(entries), lo, hi);
  }

  // ---- the consensus anchor ----

  predicate More(a: real, b: real) { a > b }

  predicate Less(a: real, b: real) { a < b }

  function Net(t: Tables): Quote -> real { (q: Quote) => EffectiveOdds(t, q.book, q.odds) }

  function Inverse(x: real): real { if x == 0.0 then 0.0 else 1.0 / x }

  function Implied(t: Tables): Quote -> real { (q: Quote) => Inverse(EffectiveOdds(t, q.book, q.odds)) }

  function Overround(odds: seq<real>): real { Sum(Inverse, odds) - 1.0 }

  /** The books that quote every selection. */
  function FullBooks(t: Tables, m: Market): set<string>
    requires m != []
  {
    set b | b in BooksOf(t, m[0].quotes) && forall i :: 0 <= i < |m| ==> b in BooksOf(t, m[i].quotes)
  }

  function QuotedIn(t: Tables, books: set<string>): Quote -> bool { (q: Quote) => t.norm(q.book) in books }

  function FullEntries(t: Tables, books: set<string>, quotes: seq<Quote>): seq<Entry> {
    PerBook(t, Net(t), More, Filter(QuotedIn(t, books), quotes))
  }

  lemma FullEntriesCount(t: Tables, m: Market, i: nat)
    requires i < |m|
    ensures var entries := FullEntries(t, FullBooks(t, m), m[i].quotes);
            UniqueBooks(entries) && EntryBooks(entries) == FullBooks(t, m) && |entries| == |FullBooks(t, m)|
  {
    var books := FullBooks(t, m);
    var kept := Filter(QuotedIn(t, books), m[i].quotes);
    PerBookIsUnique(t, Net(t), More, kept);
    UniqueCount(PerBook(t, Net(t), More, kept));
    forall b ensures b in BooksOf(t, kept) <==> b in books {
      if b in books {
        var q :| q in m[i].quotes && t.norm(q.book) == b;
        FilterMember(QuotedIn(t, books), m[i].quotes, q);
      }
      if b in BooksOf(t, kept) {
        var q :| q in kept && t.norm(q.book) == b;
        FilterMember(QuotedIn(t, books), m[i].quotes, q);
      }
    }
    assert BooksOf(t, kept) == books;
  }

  /** The median effective price of one selection. */
  function MedianPrice(t: Tables, m: Market, i: nat): real
    requires i < |m| && |FullBooks(t, m)| >= MIN_CONSENSUS_BOOKS
  {
    FullEntriesCount(t, m, i);
    Median(Values(FullEntries(t, FullBooks(t, m), m[i].quotes)))
  }

  function MedianPrices(t: Tables, m: Market): seq<real>
    requires m != [] && |FullBooks(t, m)| >= MIN_CONSENSUS_BOOKS
  {
    seq(|m|, i requires 0 <= i < |m| => MedianPrice(t, m, i))
  }

  function ConsensusAnchor(t: Tables, m: Market, maxOverround: real): Option<seq<real>>
    requires m != []
  {
    if |FullBooks(t, m)| < MIN_CONSENSUS_BOOKS then None
    else
      var med := MedianPrices(t, m);
      if 0.0 <= Overround(med) <= maxOverround then Some(med) else None
  }

  /** A dictionary loop: deduplicate the eligible quotes by book. */
  method Deduplicate(
    t: Tables, value: Quote -> real, better: (real, real) -> bool, eligible: Quote -> bool, quotes: seq<Quote>)
    returns (entries: seq<Entry>)
    ensures entries == PerBook(t, value, better, Filter(eligible, quotes))
  {
    entries := [];
    for i := 0 to |quotes|
      invariant entries == PerBook(t, value, better, Filter(eligible, quotes[..i]))
    {
      FilterSnoc(eligible, quotes, i);
      ghost var kept := Filter(eligible, quotes[..i]);
      if !eligible(quotes[i]) {
        assert kept + [] == kept;
        continue;
      }
      ghost var more := kept + [quotes[i]];
      assert more[..|more| - 1] == kept && more[|more| - 1] == quotes[i];
      var e := Entry(t.norm(quotes[i].book), value(quotes[i]));
      var at := IndexOf(entries, e.book);
      if at.None? {
        entries := entries + [e];
      } else if better(e.value, entries[at.value].value) {
        entries := entries[at.value := e];
      }
    }
    assert quotes[..|quotes|] == quotes;
  }

  method ConsensusAnchorOdds(t: Tables, m: Market, maxOverround: real) returns (odds: Option<seq<real>>)
    requires m != []
    ensures odds == ConsensusAnchor(t, m, maxOverround)
  {
    var books := FullBooks(t, m);
    if |books| < MIN_CONSENSUS_BOOKS {
      return None;
    }
    var med: seq<real> := [];
    for i := 0 to |m|
      invariant med == MedianPrices(t, m)[..i]
    {
      FullEntriesCount(t, m, i);
      var entries := Deduplicate(t, Net(t), More, QuotedIn(t, books), m[i].quotes);
      med := med + [Median(Values(entries))];
      assert MedianPrices(t, m)[..i + 1] == MedianPrices(t, m)[..i] + [MedianPrices(t, m)[i]];
    }
    assert med == MedianPrices(t, m);
    if !(0.0 <= Overround(med) <= maxOverround) {
      return None;
    }
    return Some(med);
  }

  /** Two markets that differ at most in what one book quotes. */
  ghost predicate SameBut(t: Tables, b: string, m: Market, m': Market) {
    && |m| == |m'|
    && forall i :: 0 <= i < |m| ==>
         && m[i].selection == m'[i].selection
         && Filter(NotQuotedBy(t, b), m[i].quotes) == Filter(NotQuotedBy(t, b), m'[i].quotes)
  }

  lemma OtherQuotes(t: Tables, b: string, m: Market, m': Market, i: nat, q: Quote)
    requires SameBut(t, b, m, m') && i < |m| && q in m'[i].quotes && t.norm(q.book) != b
    ensures q in m[i].quotes
  {
    FilterMember(NotQuotedBy(t, b), m'[i].quotes, q);
    FilterMember(NotQuotedBy(t, b), m[i].quotes, q);
  }

  lemma {:induction false} EntryFromQuote(
    t: Tables, value: Quote -> real, better: (real, real) -> bool, quotes: seq<Quote>, e: Entry)
    requires e in PerBook(t, value, better, quotes)
    ensures exists q :: q in quotes && t.norm(q.book) == e.book && value(q) == e.value
  {
    var n := |quotes| - 1;
    var before := PerBook(t, value, better, quotes[..n]);
    if e in before {
      EntryFromQuote(t, value, better, quotes[..n], e);
      var q :| q in quotes[..n] && t.norm(q.book) == e.book && value(q) == e.value;
      assert q in quotes;
    } else {
      assert e == Entry(t.norm(quotes[n].book), value(quotes[n]));
      assert quotes[n] in quotes;
    }
  }

  /** Whatever one book comes to quote, every consensus price stays within what the others quote. */
  lemma ConsensusResistsOneBook(t: Tables, b: string, m: Market, m': Market, i: nat, lo: real, hi: real)
    requires SameBut(t, b, m, m') && i < |m| && |FullBooks(t, m')| >= MIN_CONSENSUS_BOOKS
    requires forall q :: q in m[i].quotes && t.norm(q.book) != b ==> lo <= EffectiveOdds(t, q.book, q.odds) <= hi
    ensures lo <= MedianPrice(t, m', i) <= hi
  {
    hide EffectiveOdds;
    var books := FullBooks(t, m');
    var kept := Filter(QuotedIn(t, books), m'[i].quotes);
    var entries := FullEntries(t, books, m'[i].quotes);
    FullEntriesCount(t, m', i);
    forall e | e in entries && e.book != b ensures lo <= e.value <= hi {
      EntryFromQuote(t, Net(t), More, kept, e);
      var q :| q in kept && t.norm(q.book) == e.book && Net(t)(q) == e.value;
      FilterMember(QuotedIn(t, books), m'[i].quotes, q);
      OtherQuotes(t, b, m, m', i, q);
    }
    MedianOfBooks(entries, b, lo, hi);
  }

  // ---- the named sharp anchor ----

  function Lookup(t: Tables, quotes: seq<Quote>, name: string): (q: Option<Quote>)
    ensures q.Some? ==> q.value in quotes && t.norm(q.value.book) == name
    ensures q.None? ==> forall x :: x in quotes ==> t.norm(x.book) != name
  {
    if quotes == [] then None
    else if t.norm(quotes[0].book) == name then Some(quotes[0])
    else Lookup(t, quotes[1..], name)
  }

  predicate PricesAll(t: Tables, m: Market, name: string) {
    forall i :: 0 <= i < |m| ==> Lookup(t, m[i].quotes, name).Some?
  }

  function GrossOdds(t: Tables, m: Market, name: string): seq<real>
    requires PricesAll(t, m, name)
  {
    seq(|m|, i requires 0 <= i < |m| => Lookup(t, m[i].quotes, name).value.odds)
  }

  function NetOdds(t: Tables, m: Market, name: string): seq<real>
    requires PricesAll(t, m, name)
  {
    seq(|m|, i requires 0 <= i < |m| => EffectiveOdds(t, name, Lookup(t, m[i].quotes, name).value.odds))
  }

  /** Membership is judged on the commission-netted overround. */
  predicate Qualifies(t: Tables, m: Market, name: string, maxOverround: real) {
    PricesAll(t, m, name) && 0.0 <= Overround(NetOdds(t, m, name)) <= maxOverround
  }

  datatype Anchor = Anchor(book: string, odds: seq<real>, named: bool)

  /** The first preferred book, from the k-th on, that qualifies; its displayed odds are returned. */
  function NamedAnchor(t: Tables, m: Market, maxOverround: real, k: nat): Option<Anchor>
    requires m != [] && k <= |t.sharpBooks|
    decreases |t.sharpBooks| - k
  {
    if k == |t.sharpBooks| then None
    else if Qualifies(t, m, t.sharpBooks[k], maxOverround) then
      Some(Anchor(Lookup(t, m[0].quotes, t.sharpBooks[k]).value.book, GrossOdds(t, m, t.sharpBooks[k]), true))
    else NamedAnchor(t, m, maxOverround, k + 1)
  }

  /** The netted and the displayed odds of one preferred book, if it prices every selection. */
  method FullMarketOdds(t: Tables, m: Market, pref: string) returns (complete: bool, net: seq<real>, gross: seq<real>)
    ensures complete == PricesAll(t, m, pref)
    ensures complete ==> net == NetOdds(t, m, pref) && gross == GrossOdds(t, m, pref)
  {
    hide EffectiveOdds;
    net, gross := [], [];
    for s := 0 to |m|
      invariant |net| == |gross| == s
      invariant forall i :: 0 <= i < s ==>
                  var o := Lookup(t, m[i].quotes, pref);
                  o.Some? && gross[i] == o.value.odds && net[i] == EffectiveOdds(t, pref, o.value.odds)
    {
      var o := Lookup(t, m[s].quotes, pref);
      if o.None? {
        return false, net, gross;
      }
      net := net + [EffectiveOdds(t, pref, o.value.odds)];
      gross := gross + [o.value.odds];
    }
    complete := true;
  }

  method NamedSharpAnchor(t: Tables, m: Market, maxOverround: real) returns (anchor: Option<Anchor>)
    requires m != []
    ensures anchor == NamedAnchor(t, m, maxOverround, 0)
  {
    hide EffectiveOdds;
    for k := 0 to |t.sharpBooks|
      invariant NamedAnchor(t, m, maxOverround, 0) == NamedAnchor(t, m, maxOverround, k)
    {
      var pref := t.sharpBooks[k];
      var complete, net, gross := FullMarketOdds(t, m, pref);
      if complete && 0.0 <= Overround(net) <= maxOverround {
        return Some(Anchor(Lookup(t, m[0].quotes, pref).value.book, gross, true));
      }
    }
    return None;
  }

  /** The anchor of a market: named if one qualifies, else the consensus, else none. */
  function ChooseAnchor(t: Tables, m: Market, maxOverround: real): Option<Anchor> {
    if |m| < 2 then None
    else
      var named := NamedAnchor(t, m, maxOverround, 0);
      if named.Some? then named
      else
        var med := ConsensusAnchor(t, m, maxOverround);
        if med.Some? then Some(Anchor(CONSENSUS_ANCHOR, med.value, false)) else None
  }

  predicate Contains(s: string, part: string) {
    |part| <= |s| && (s[..|part|] == part || (s != [] && Contains(s[1..], part)))
  }

  function AnchorTypeFor(t: Tables, book: string): AnchorType {
    if book == CONSENSUS_ANCHOR then Consensus
    else if Contains(t.norm(book), "pinnacle") then Pinnacle
    else if t.norm(book) in t.sharpBooks then OtherSharp
    else Consensus
  }

  lemma {:induction false} NamedAnchorIsSharp(t: Tables, m: Market, maxOverround: real, k: nat)
    requires t.Valid() && m != [] && k <= |t.sharpBooks|
    ensures NamedAnchor(t, m, maxOverround, k).Some? ==>
              var a := NamedAnchor(t, m, maxOverround, k).value;
              a.named && t.norm(a.book) in t.sharpBooks && |a.odds| == |m|
    decreases |t.sharpBooks| - k
  {
    if k < |t.sharpBooks| { NamedAnchorIsSharp(t, m, maxOverround, k + 1); }
  }

  /** The stored anchor type says consensus exactly when no named sharp book set the fair value; and an
      anchor always has a name. */
  lemma AnchorTypeIsHonest(t: Tables, m: Market, maxOverround: real)
    requires t.Valid() && ChooseAnchor(t, m, maxOverround).Some?
    ensures var a := ChooseAnchor(t, m, maxOverround).value;
            && (AnchorTypeFor(t, a.book) == Consensus <==> !a.named)
            && a.book != "" && |a.odds| == |m|
            && (a.named <==> exists k :: 0 <= k < |t.sharpBooks| && Qualifies(t, m, t.sharpBooks[k], maxOverround))
  {
    NamedAnchorIsSharp(t, m, maxOverround, 0);
    NamedAnchorComplete(t, m, maxOverround, 0);
    var a := ChooseAnchor(t, m, maxOverround).value;
    if a.named {
      var k :| 0 <= k < |t.sharpBooks| && t.sharpBooks[k] == t.norm(a.book);
    }
  }

  lemma {:induction false} NamedAnchorComplete(t: Tables, m: Market, maxOverround: real, k: nat)
    requires m != [] && k <= |t.sharpBooks|
    ensures NamedAnchor(t, m, maxOverround, k).Some? <==>
              exists j :: k <= j < |t.sharpBooks| && Qualifies(t, m, t.sharpBooks[j], maxOverround)
    decreases |t.sharpBooks| - k
  {
    hide GrossOdds, Overround, NetOdds, Lookup;
    if k < |t.sharpBooks| { NamedAnchorComplete(t, m, maxOverround, k + 1); }
  }

  // ---- the cross-book reference and the swap guard ----

  function QuotesFor(m: Market, selection: string): seq<Quote> {
    if m == [] then [] else if m[0].selection == selection then m[0].quotes else QuotesFor(m[1..], selection)
  }

  function Priced(): Quote -> bool { (q: Quote) => q.odds > 1.0 }

  function ImpliedEntries(t: Tables, quotes: seq<Quote>): seq<Entry> {
    PerBook(t, Implied(t), Less, Filter(Priced(), quotes))
  }

  /** Per selection the median implied probability; None as soon as one selection is thinly quoted. */
  function ImpliedMedians(t: Tables, m: Market, fair: seq<FairValue>): (r: Option<seq<real>>)
    ensures r.Some? ==> |r.value| == |fair|
  {
    if fair == [] then Some([])
    else
      var n := |fair| - 1;
      var before := ImpliedMedians(t, m, fair[..n]);
      var entries := ImpliedEntries(t, QuotesFor(m, fair[n].selection));
      if before.None? || |entries| < MIN_CONSENSUS_BOOKS then None
      else Some(before.value + [Median(Values(entries))])
  }

  function Total(xs: seq<real>): real { Sum((x: real) => x, xs) }

  function Reference(t: Tables, m: Market, fair: seq<FairValue>): (r: Option<seq<real>>)
    ensures r.Some? ==> |r.value| == |fair|
  {
    var med := ImpliedMedians(t, m, fair);
    if med.None? || Total(med.value) <= 0.0 then None
    else Some(seq(|fair|, i requires 0 <= i < |fair| => med.value[i] / Total(med.value)))
  }

  method ConsensusImplied(t: Tables, m: Market, fair: seq<FairValue>) returns (reference: Option<seq<real>>)
    ensures reference == Reference(t, m, fair)
  {
    hide EffectiveOdds;
    var med: seq<real> := [];
    for i := 0 to |fair|
      invariant ImpliedMedians(t, m, fair[..i]) == Some(med)
    {
      assert fair[..i + 1][..i] == fair[..i];
      var entries := Deduplicate(t, Implied(t), Less, Priced(), QuotesFor(m, fair[i].selection));
      if |entries| < MIN_CONSENSUS_BOOKS {
        ThinSelection(t, m, fair, i + 1);
        return None;
      }
      med := med + [Median(Values(entries))];
    }
    assert fair[..|fair|] == fair;
    var total := Total(med);
    if total <= 0.0 {
      return None;
    }
    return Some(seq(|fair|, i requires 0 <= i < |fair| => med[i] / total));
  }

  lemma {:induction false} ThinSelection(t: Tables, m: Market, fair: seq<FairValue>, n: nat)
    requires n <= |fair| && ImpliedMedians(t, m, fair[..n]).None?
    ensures ImpliedMedians(t, m, fair).None?
    decreases |fair| - n
  {
    if n < |fair| {
      assert fair[..n + 1][..n] == fair[..n];
      ThinSelection(t, m, fair, n + 1);
    } else {
      assert fair[..n] == fair;
    }
  }

  /** The anchor ranks two selections against a clear cross-book order. */
  predicate Disagrees(t: Tables, m: Market, fair: seq<FairValue>, tolerance: real) {
    var reference := Reference(t, m, fair);
    reference.Some? &&
    exists i, j :: 0 <= i < |fair| && 0 <= j < |fair|
                   && reference.value[i] - reference.value[j] > tolerance && fair[i].prob <= fair[j].prob
  }

  lemma {:induction false} ReferenceIgnoresProbs(t: Tables, m: Market, fair: seq<FairValue>, fair': seq<FairValue>)
    requires |fair| == |fair'| && forall k :: 0 <= k < |fair| ==> fair[k].selection == fair'[k].selection
    ensures ImpliedMedians(t, m, fair) == ImpliedMedians(t, m, fair')
    ensures Reference(t, m, fair) == Reference(t, m, fair')
  {
    if fair != [] {
      ReferenceIgnoresProbs(t, m, fair[..|fair| - 1], fair'[..|fair| - 1]);
    }
  }

  function Exchange(fair: seq<FairValue>, i: nat, j: nat): seq<FairValue>
    requires i < |fair| && j < |fair|
  {
    fair[i := FairValue(fair[i].selection, fair[j].prob)][j := FairValue(fair[j].selection, fair[i].prob)]
  }

  /** Swapping the anchor's values of two selections the books clearly separate trips the guard. */
  lemma SwappedAnchorIsCaught(t: Tables, m: Market, fair: seq<FairValue>, tolerance: real, i: nat, j: nat)
    requires i < |fair| && j < |fair| && tolerance >= 0.0
    requires Reference(t, m, fair).Some?
             && Reference(t, m, fair).value[i] - Reference(t, m, fair).value[j] > tolerance
    requires !Disagrees(t, m, fair, tolerance)
    ensures Disagrees(t, m, Exchange(fair, i, j), tolerance)
  {
    var fair' := Exchange(fair, i, j);
    ReferenceIgnoresProbs(t, m, fair, fair');
    var r := Reference(t, m, fair).value;
    assert fair[i].prob > fair[j].prob;
    assert i != j;
    assert fair'[i].prob == fair[j].prob && fair'[j].prob == fair[i].prob;
  }

  /** One book cannot move a median implied probability out of the others' range either. */
  lemma ImpliedMedianResistsOneBook(t: Tables, b: string, quotes: seq<Quote>, quotes': seq<Quote>, lo: real, hi: real)
    requires Filter(NotQuotedBy(t, b), quotes) == Filter(NotQuotedBy(t, b), quotes')
    requires |ImpliedEntries(t, quotes')| >= MIN_CONSENSUS_BOOKS
    requires forall q :: q in quotes && q.odds > 1.0 && t.norm(q.book) != b ==> lo <= Implied(t)(q) <= hi
    ensures lo <= Median(Values(ImpliedEntries(t, quotes'))) <= hi
  {
    hide EffectiveOdds;
    var kept := Filter(Priced(), quotes');
    var entries := ImpliedEntries(t, quotes');
    PerBookIsUnique(t, Implied(t), Less, kept);
    forall e | e in entries && e.book != b ensures lo <= e.value <= hi {
      EntryFromQuote(t, Implied(t), Less, kept, e);
      var q :| q in kept && t.norm(q.book) == e.book && Implied(t)(q) == e.value;
      FilterMember(Priced(), quotes', q);
      FilterMember(NotQuotedBy(t, b), quotes', q);
      FilterMember(NotQuotedBy(t, b), quotes, q);
    }
    MedianOfBooks(entries, b, lo, hi);
  }

  lemma {:induction false} QuotesForSameBut(t: Tables, b: string, m: Market, m': Market, selection: string)
    requires SameBut(t, b, m, m')
    ensures Filter(NotQuotedBy(t, b), QuotesFor(m, selection)) == Filter(NotQuotedBy(t, b), QuotesFor(m', selection))
  {
    if m != [] {
      forall k | 0 <= k < |m| - 1
        ensures m[1..][k].selection == m'[1..][k].selection
        ensures Filter(NotQuotedBy(t, b), m[1..][k].quotes) == Filter(NotQuotedBy(t, b), m'[1..][k].quotes)
      {
        assert m[1..][k] == m[k + 1] && m'[1..][k] == m'[k + 1];
      }
      QuotesForSameBut(t, b, m[1..], m'[1..], selection);
    }
  }

  /** What the other books imply for every selection lies between these bounds. */
  ghost predicate OthersWithin(t: Tables, b: string, m: Market, fair: seq<FairValue>, lo: seq<real>, hi: seq<real>) {
    && |lo| == |hi| == |fair|
    && forall k, q :: 0 <= k < |fair| && q in QuotesFor(m, fair[k].selection) && q.odds > 1.0 && t.norm(q.book) != b ==>
         lo[k] <= Implied(t)(q) <= hi[k]
  }

  lemma {:induction false} MediansWithin(
    t: Tables, b: string, m: Market, m': Market, fair: seq<FairValue>, lo: seq<real>, hi: seq<real>, n: nat)
    requires SameBut(t, b, m, m') && OthersWithin(t, b, m, fair, lo, hi)
    requires n <= |fair| && ImpliedMedians(t, m', fair[..n]).Some?
    ensures forall k :: 0 <= k < n ==> lo[k] <= ImpliedMedians(t, m', fair[..n]).value[k] <= hi[k]
  {
    hide EffectiveOdds, ImpliedEntries, SameBut;
    if n > 0 {
      assert fair[..n][..n - 1] == fair[..n - 1];
      MediansWithin(t, b, m, m', fair, lo, hi, n - 1);
      var selection := fair[n - 1].selection;
      QuotesForSameBut(t, b, m, m', selection);
      ImpliedMedianResistsOneBook(t, b, QuotesFor(m, selection), QuotesFor(m', selection), lo[n - 1], hi[n - 1]);
    }
  }

  lemma {:induction false} TotalsOrdered(a: seq<real>, b: seq<real>)
    requires |a| == |b| && forall k :: 0 <= k < |a| ==> a[k] <= b[k]
    ensures Total(a) <= Total(b)
  {
    if a != [] { TotalsOrdered(a[1..], b[1..]); }
  }

  lemma {:induction false} TotalWithout(a: seq<real>, i: nat)
    requires i < |a|
    ensures Total(a[i := 0.0]) == Total(a) - a[i]
  {
    if i == 0 {
      assert a[0 := 0.0][1..] == a[1..];
    } else {
      assert a[i := 0.0][1..] == a[1..][i - 1 := 0.0];
      TotalWithout(a[1..], i - 1);
    }
  }

  lemma TotalBetween(lo: seq<real>, x: seq<real>, hi: seq<real>, i: nat)
    requires |lo| == |x| == |hi| && i < |x| && forall k :: 0 <= k < |x| ==> 0.0 < lo[k] <= x[k] <= hi[k]
    ensures 0.0 <= Total(lo) - lo[i] <= Total(x) - x[i] <= Total(hi) - hi[i]
  {
    TotalWithout(lo, i);
    TotalWithout(x, i);
    TotalWithout(hi, i);
    var zeros := seq(|lo|, _ => 0.0);
    NoTotal(zeros);
    TotalsOrdered(zeros, lo[i := 0.0]);
    TotalsOrdered(lo[i := 0.0], x[i := 0.0]);
    TotalsOrdered(x[i := 0.0], hi[i := 0.0]);
  }

  lemma {:induction false} NoTotal(zeros: seq<real>)
    requires forall k :: 0 <= k < |zeros| ==> zeros[k] == 0.0
    ensures Total(zeros) == 0.0
  {
    if zeros != [] { NoTotal(zeros[1..]); }
  }

  lemma ShareWithin(x: real, rest: real, lo: real, hi: real, least: real, most: real)
    requires 0.0 < lo <= x <= hi && 0.0 <= least <= rest <= most
    ensures Times(x / (x + rest), lo + most) >= lo && Times(x / (x + rest), hi + least) <= hi
  {
    TimesOrder(lo, x, most);
    TimesOrder(rest, most, lo);
    TimesOrder(x, hi, rest);
    TimesOrder(least, rest, x);
    ShareTimes(x, rest, lo, most);
    ShareTimes(x, rest, hi, least);
    hide Times;
    TimesCompare(lo, Times(x / (x + rest), lo + most), x + rest);
    TimesCompare(Times(x / (x + rest), hi + least), hi, x + rest);
  }

  lemma ShareTimes(x: real, rest: real, bound: real, other: real)
    requires x > 0.0 && rest >= 0.0
    ensures Times(Times(x / (x + rest), bound + other), x + rest) == Times(bound, x) + Times(x, other)
    ensures Times(bound, x + rest) == Times(bound, x) + Times(bound, rest)
    ensures Times(bound, rest) == Times(rest, bound) && Times(x, other) == Times(other, x)
  {
    var share, total := x / (x + rest), x + rest;
    assert Times(share, total) == x;
    TimesRegroup(share, bound + other, total);
    TimesRegroup(share, total, bound + other);
    TimesDistribute(bound, other, x);
    TimesDistribute(x, rest, bound);
  }

  /** Nor can it move the normalised reference the guard compares beyond what the others allow: at least the
      lowest share, every other selection at its highest, and at most the highest share, every other at its
      lowest. */
  lemma ReferenceResistsOneBook(
    t: Tables, b: string, m: Market, m': Market, fair: seq<FairValue>, lo: seq<real>, hi: seq<real>, i: nat)
    requires SameBut(t, b, m, m') && OthersWithin(t, b, m, fair, lo, hi) && i < |fair|
    requires (forall k :: 0 <= k < |lo| ==> lo[k] > 0.0) && Reference(t, m', fair).Some?
    ensures var share := Reference(t, m', fair).value[i];
            && Times(share, lo[i] + (Total(hi) - hi[i])) >= lo[i]
            && Times(share, hi[i] + (Total(lo) - lo[i])) <= hi[i]
  {
    hide EffectiveOdds, OthersWithin, SameBut, Total, ImpliedMedians, Times;
    assert fair[..|fair|] == fair;
    MediansWithin(t, b, m, m', fair, lo, hi, |fair|);
    var med := ImpliedMedians(t, m', fair).value;
    LengthsMatch(t, b, m, fair, lo, hi);
    TotalBetween(lo, med, hi, i);
    ShareWithin(med[i], Total(med) - med[i], lo[i], hi[i], Total(lo) - lo[i], Total(hi) - hi[i]);
  }

  lemma LengthsMatch(t: Tables, b: string, m: Market, fair: seq<FairValue>, lo: seq<real>, hi: seq<real>)
    requires OthersWithin(t, b, m, fair, lo, hi)
    ensures |lo| == |hi| == |fair|
  {
  }

  ghost predicate DistinctSelections(m: Market) {
    forall a, b :: 0 <= a < b < |m| ==> m[a].selection != m[b].selection
  }

  // ---- double chance ----

  /** Double-chance values are derived as pairwise sums of the three-way fair values. */
  function DoubleChanceFair(home: FairValue, draw: FairValue, away: FairValue): seq<FairValue> {
    [FairValue(home.selection + " or " + draw.selection, home.prob + draw.prob),
     FairValue(home.selection + " or " + away.selection, home.prob + away.prob),
     FairValue(draw.selection + " or " + away.selection, draw.prob + away.prob)]
  }

  /** Each derived value is the complement of the outcome it leaves out, and the three sum to two. */
  lemma DoubleChanceIsComplement(home: FairValue, draw: FairValue, away: FairValue)
    requires home.prob > 0.0 && draw.prob > 0.0 && away.prob > 0.0 && home.prob + draw.prob + away.prob == 1.0
    ensures var dc := DoubleChanceFair(home, draw, away);
            && dc[0].prob == 1.0 - away.prob && dc[1].prob == 1.0 - draw.prob && dc[2].prob == 1.0 - home.prob
            && (forall k :: 0 <= k < 3 ==> 0.0 < dc[k].prob < 1.0)
            && dc[0].prob + dc[1].prob + dc[2].prob == 2.0
            && |dc| == 3 && dc[0].selection == home.selection + " or " + draw.selection
            && dc[1].selection == home.selection + " or " + away.selection
            && dc[2].selection == draw.selection + " or " + away.selection
  {
  }

  // ---- the anchor, told from the quotes ----

  /** The middle value, or the midpoint of the two middle values, of the list put in order. */
  ghost predicate IsMedian(s: seq<real>, x: real) {
    s != [] && exists u: seq<real> :: multiset(u) == multiset(s) && MidOf(u, |s|, x)
  }

  ghost predicate MidOf(u: seq<real>, n: nat, x: real)
    requires n > 0
  {
    && |u| == n && (forall i, j :: 0 <= i < j < n ==> u[i] <= u[j])
    && x + x == u[(n - 1) / 2] + u[n / 2]
  }

  lemma MedianIsMedian(s: seq<real>)
    requires s != []
    ensures IsMedian(s, Median(s))
  {
    var u := StableSort.Sort(AtMost, s);
    StableSort.SortElements(AtMost, s);
    StableSort.SortOrdered(AtMost, s);
    assert MidOf(u, |s|, Median(s)) by {
      forall i, j | 0 <= i < j < |s| ensures u[i] <= u[j] { assert AtMost(u[i], u[j]); }
    }
  }

  /** One entry for every book with an eligible quote, at one of its eligible quotes that no other of them
      beats. */
  ghost predicate OnePerBook(
    t: Tables, quotes: seq<Quote>, eligible: Quote -> bool, worth: Quote -> real, beats: (real, real) -> bool,
    entries: seq<Entry>)
  {
    && (forall i, j :: 0 <= i < j < |entries| ==> entries[i].book != entries[j].book)
    && (forall q :: q in quotes && eligible(q) ==> exists e :: e in entries && e.book == t.norm(q.book))
    && (forall e :: e in entries ==> BestOfBook(t, quotes, eligible, worth, beats, e))
  }

  ghost predicate BestOfBook(
    t: Tables, quotes: seq<Quote>, eligible: Quote -> bool, worth: Quote -> real, beats: (real, real) -> bool, e: Entry)
  {
    && (exists q :: q in quotes && eligible(q) && t.norm(q.book) == e.book && worth(q) == e.value)
    && (forall q :: q in quotes && eligible(q) && t.norm(q.book) == e.book ==> !beats(worth(q), e.value))
  }

  ghost predicate StrictOrder(beats: (real, real) -> bool) {
    && (forall x :: !beats(x, x)) && (forall x, y, z :: beats(x, y) && beats(y, z) ==> beats(x, z))
  }

  lemma {:induction false} NothingBeats(
    t: Tables, worth: Quote -> real, beats: (real, real) -> bool, quotes: seq<Quote>, e: Entry, q: Quote)
    requires StrictOrder(beats) && e in PerBook(t, worth, beats, quotes) && q in quotes && t.norm(q.book) == e.book
    ensures !beats(worth(q), e.value)
  {
    hide *;
    var n := |quotes| - 1;
    var kept := LastPut(t, worth, beats, quotes, e);
    if q in quotes[..n] {
      EntryFor(t, worth, beats, quotes[..n], q);
      NothingBeats(t, worth, beats, quotes[..n], kept.value, q);
      var w, held: real := worth(q), kept.value.value;
      assert beats(w, e.value) ==> beats(w, held);
    } else {
      assert quotes == quotes[..n] + [quotes[n]];
    }
  }

  lemma LastPut(t: Tables, worth: Quote -> real, beats: (real, real) -> bool, quotes: seq<Quote>, e: Entry)
    returns (kept: Option<Entry>)
    requires StrictOrder(beats) && quotes != [] && e in PerBook(t, worth, beats, quotes)
    ensures var n := |quotes| - 1;
            var before, last := PerBook(t, worth, beats, quotes[..n]), quotes[n];
            && (e.book == t.norm(last.book) ==> !beats(worth(last), e.value))
            && (kept.Some? ==> kept.value in before && kept.value.book == e.book)
            && (kept.Some? ==> forall x :: beats(x, e.value) ==> beats(x, kept.value.value))
            && (kept.None? ==> forall f :: f in before ==> f.book != e.book)
  {
    var n := |quotes| - 1;
    var before, last := PerBook(t, worth, beats, quotes[..n]), Entry(t.norm(quotes[n].book), worth(quotes[n]));
    PerBookIsUnique(t, worth, beats, quotes[..n]);
    assert PerBook(t, worth, beats, quotes) == Put(before, last, beats);
    hide *;
    kept := PutExactly(before, last, beats, e);
  }

  /** An entry after one more was put: untouched, or of that book and beaten by neither it nor the one kept
      before. */
  lemma PutExactly(entries: seq<Entry>, last: Entry, beats: (real, real) -> bool, e: Entry)
    returns (kept: Option<Entry>)
    requires StrictOrder(beats) && UniqueBooks(entries) && e in Put(entries, last, beats)
    ensures e.book != last.book ==> kept == Some(e)
    ensures e.book == last.book ==> !beats(last.value, e.value)
    ensures kept.Some? ==> kept.value in entries && kept.value.book == e.book
                           && forall x :: beats(x, e.value) ==> beats(x, kept.value.value)
    ensures kept.None? ==> forall f :: f in entries ==> f.book != e.book
  {
    PutBooks(entries, last, beats);
    var at := IndexOf(entries, last.book);
    if e.book != last.book {
      kept := Some(e);
    } else if at.Some? {
      kept := Some(entries[at.value]);
      var winner := if beats(last.value, kept.value.value) then last else kept.value;
      assert Put(entries, last, beats)[at.value] == winner;
      OnlyEntry(Put(entries, last, beats), e, winner);
    } else {
      kept := None;
      assert Put(entries, last, beats)[|entries|] == last;
      OnlyEntry(Put(entries, last, beats), e, last);
    }
  }

  lemma EntryFor(t: Tables, worth: Quote -> real, beats: (real, real) -> bool, quotes: seq<Quote>, q: Quote)
    requires q in quotes
    ensures exists e :: e in PerBook(t, worth, beats, quotes) && e.book == t.norm(q.book)
  {
    PerBookIsUnique(t, worth, beats, quotes);
    assert t.norm(q.book) in BooksOf(t, quotes);
  }

  lemma OnlyEntry(entries: seq<Entry>, e: Entry, f: Entry)
    requires UniqueBooks(entries) && e in entries && f in entries && e.book == f.book
    ensures e == f
  {
    var i :| 0 <= i < |entries| && entries[i] == e;
    var j :| 0 <= j < |entries| && entries[j] == f;
    assert i == j;
  }

  lemma PerBookExactly(
    t: Tables, worth: Quote -> real, beats: (real, real) -> bool, eligible: Quote -> bool, quotes: seq<Quote>)
    requires StrictOrder(beats)
    ensures OnePerBook(t, quotes, eligible, worth, beats, PerBook(t, worth, beats, Filter(eligible, quotes)))
  {
    var kept := Filter(eligible, quotes);
    var entries := PerBook(t, worth, beats, kept);
    PerBookIsUnique(t, worth, beats, kept);
    forall q | q in quotes && eligible(q) ensures exists e :: e in entries && e.book == t.norm(q.book) {
      FilterMember(eligible, quotes, q);
      assert t.norm(q.book) in BooksOf(t, kept);
    }
    forall e | e in entries ensures BestOfBook(t, quotes, eligible, worth, beats, e) {
      EntryFromQuote(t, worth, beats, kept, e);
      var q :| q in kept && t.norm(q.book) == e.book && worth(q) == e.value;
      FilterMember(eligible, quotes, q);
      forall p | p in quotes && eligible(p) && t.norm(p.book) == e.book ensures !beats(worth(p), e.value) {
        FilterMember(eligible, quotes, p);
        NothingBeats(t, worth, beats, kept, e, p);
      }
    }
  }

  /** A book quotes every selection. */
  ghost predicate QuotesAll(t: Tables, m: Market, name: string) {
    forall i :: 0 <= i < |m| ==> exists q :: q in m[i].quotes && t.norm(q.book) == name
  }

  ghost function Quoting(t: Tables, m: Market): set<string>
    requires m != []
  {
    set q | q in m[0].quotes && QuotesAll(t, m, t.norm(q.book)) :: t.norm(q.book)
  }

  ghost function OfFullBook(t: Tables, m: Market): Quote -> bool { (q: Quote) => QuotesAll(t, m, t.norm(q.book)) }

  ghost predicate Higher(a: real, b: real) { a > b }

  ghost function Nets(t: Tables): Quote -> real { (q: Quote) => NetPrice(t, q) }

  /** The median of the best net price of each book that quotes every selection. */
  ghost predicate ConsensusPrice(t: Tables, m: Market, i: nat, x: real)
    requires i < |m|
  {
    exists entries ::
      && OnePerBook(t, m[i].quotes, OfFullBook(t, m), Nets(t), Higher, entries)
      && IsMedian(Values(entries), x)
  }

  /** What a book keeps of a stake spread over the selections: the shares that return one unit each, less one. */
  ghost predicate HasMargin(odds: seq<real>, margin: real) {
    exists shares: seq<real> ::
      && |shares| == |odds| && (forall i :: 0 <= i < |odds| && odds[i] != 0.0 ==> Times(shares[i], odds[i]) == 1.0)
      && (forall i :: 0 <= i < |odds| && odds[i] == 0.0 ==> shares[i] == 0.0)
      && margin + 1.0 == Sum((x: real) => x, shares)
  }

  lemma {:induction false} SharesOf(odds: seq<real>) returns (shares: seq<real>)
    ensures |shares| == |odds| && (forall i :: 0 <= i < |odds| && odds[i] != 0.0 ==> Times(shares[i], odds[i]) == 1.0)
    ensures forall i :: 0 <= i < |odds| && odds[i] == 0.0 ==> shares[i] == 0.0
    ensures Sum(Inverse, odds) == Sum((x: real) => x, shares)
  {
    shares := [];
    if odds != [] {
      var rest := SharesOf(odds[1..]);
      shares := [Inverse(odds[0])] + rest;
      assert shares[1..] == rest;
    }
  }

  lemma OverroundExactly(odds: seq<real>)
    ensures HasMargin(odds, Overround(odds))
  {
    var shares := SharesOf(odds);
  }

  /** The consensus prices every selection at the median of its full-market books, when there are three of them
      and its margin is acceptable. */
  lemma ConsensusExactly(t: Tables, m: Market, maxOverround: real)
    returns (prices: seq<real>, margin: real)
    requires m != []
    ensures |Quoting(t, m)| >= 3 ==>
              && |prices| == |m| && (forall i :: 0 <= i < |m| ==> ConsensusPrice(t, m, i, prices[i]))
              && HasMargin(prices, margin)
    ensures ConsensusAnchor(t, m, maxOverround) ==
            if |Quoting(t, m)| >= 3 && 0.0 <= margin <= maxOverround then Some(prices) else None
  {
    FullBooksQuoteAll(t, m);
    assert FullBooks(t, m) == Quoting(t, m);
    if |Quoting(t, m)| >= 3 {
      prices := MedianPrices(t, m);
      margin := Overround(prices);
      OverroundExactly(prices);
      forall i | 0 <= i < |m| ensures ConsensusPrice(t, m, i, prices[i]) { MedianPriceExactly(t, m, i); }
      hide HasMargin, ConsensusPrice, Overround;
    } else {
      prices, margin := [], 0.0;
    }
  }

  lemma FullBooksQuoteAll(t: Tables, m: Market)
    requires m != []
    ensures forall b :: b in FullBooks(t, m) <==> QuotesAll(t, m, b)
    ensures forall b :: b in Quoting(t, m) <==> QuotesAll(t, m, b)
  {
    forall b ensures b in FullBooks(t, m) <==> QuotesAll(t, m, b) {
      if QuotesAll(t, m, b) {
        forall i | 0 <= i < |m| ensures b in BooksOf(t, m[i].quotes) {
          var q :| q in m[i].quotes && t.norm(q.book) == b;
        }
      }
    }
    forall b | QuotesAll(t, m, b) ensures b in Quoting(t, m) {
      var q :| q in m[0].quotes && t.norm(q.book) == b;
    }
  }

  lemma MedianPriceExactly(t: Tables, m: Market, i: nat)
    requires i < |m| && |FullBooks(t, m)| >= MIN_CONSENSUS_BOOKS
    ensures ConsensusPrice(t, m, i, MedianPrice(t, m, i))
  {
    hide QuotesAll, EffectiveOdds, NetPrice, IsMedian, Median, FullBooks, OnePerBook;
    FullBooksQuoteAll(t, m);
    FullEntriesCount(t, m, i);
    var books, quotes := FullBooks(t, m), m[i].quotes;
    var entries := FullEntries(t, books, quotes);
    FilterSame(QuotedIn(t, books), OfFullBook(t, m), quotes);
    PerBookExactly(t, Net(t), More, OfFullBook(t, m), quotes);
    forall q | q in quotes ensures Net(t)(q) == Nets(t)(q) { NetPriceExactly(t, q); }
    SameWorth(t, quotes, OfFullBook(t, m), entries, Net(t), More, Nets(t), Higher);
    MedianIsMedian(Values(entries));
  }

  lemma SameWorth(
    t: Tables, quotes: seq<Quote>, eligible: Quote -> bool, entries: seq<Entry>,
    worth: Quote -> real, beats: (real, real) -> bool, worth': Quote -> real, beats': (real, real) -> bool)
    requires OnePerBook(t, quotes, eligible, worth, beats, entries)
    requires forall q | q in quotes && eligible(q) :: worth(q) == worth'(q)
    requires forall x, y :: beats(x, y) == beats'(x, y)
    ensures OnePerBook(t, quotes, eligible, worth', beats', entries)
  {
    forall e | e in entries ensures BestOfBook(t, quotes, eligible, worth', beats', e) {
      assert BestOfBook(t, quotes, eligible, worth, beats, e);
    }
  }

  /** The first quote under a name. */
  ghost predicate FirstUnder(t: Tables, quotes: seq<Quote>, name: string, j: nat) {
    && j < |quotes| && t.norm(quotes[j].book) == name
    && forall k :: 0 <= k < j ==> t.norm(quotes[k].book) != name
  }

  lemma {:induction false} LookupExactly(t: Tables, quotes: seq<Quote>, name: string, j: nat)
    requires FirstUnder(t, quotes, name, j)
    ensures Lookup(t, quotes, name) == Some(quotes[j])
  {
    if j > 0 {
      assert forall k :: 0 <= k < j - 1 ==> quotes[1..][k] == quotes[k + 1];
      LookupExactly(t, quotes[1..], name, j - 1);
    } else {
      assert quotes[0] == quotes[j];
    }
  }

  lemma {:induction false} LookupFindsFirst(t: Tables, quotes: seq<Quote>, name: string) returns (j: nat)
    requires Lookup(t, quotes, name).Some?
    ensures FirstUnder(t, quotes, name, j)
  {
    if t.norm(quotes[0].book) == name {
      j := 0;
    } else {
      var k := LookupFindsFirst(t, quotes[1..], name);
      j := k + 1;
    }
  }

  /** A book quotes every selection, first at these positions, and keeps an acceptable margin net of its
      commission. */
  ghost predicate FullMarket(t: Tables, m: Market, name: string, maxOverround: real, at: seq<nat>) {
    && |at| == |m| && (forall i :: 0 <= i < |m| ==> FirstUnder(t, m[i].quotes, name, at[i]))
    && exists net: seq<real>, margin: real ::
         && |net| == |m| && HasMargin(net, margin) && 0.0 <= margin <= maxOverround
         && forall i :: 0 <= i < |m| ==> net[i] == NetPrice(t, Quote(name, m[i].quotes[at[i]].odds))
  }

  lemma MarginIsUnique(odds: seq<real>, margin: real)
    requires HasMargin(odds, margin)
    ensures margin == Overround(odds)
  {
    var shares: seq<real> :|
      && |shares| == |odds| && (forall i :: 0 <= i < |odds| && odds[i] != 0.0 ==> Times(shares[i], odds[i]) == 1.0)
      && (forall i :: 0 <= i < |odds| && odds[i] == 0.0 ==> shares[i] == 0.0)
      && margin + 1.0 == Sum((x: real) => x, shares);
    SharesAddUp(odds, shares);
  }

  lemma {:induction false} SharesAddUp(odds: seq<real>, shares: seq<real>)
    requires |shares| == |odds|
    requires forall i :: 0 <= i < |odds| && odds[i] != 0.0 ==> Times(shares[i], odds[i]) == 1.0
    requires forall i :: 0 <= i < |odds| && odds[i] == 0.0 ==> shares[i] == 0.0
    ensures Sum(Inverse, odds) == Sum((x: real) => x, shares)
  {
    if odds != [] {
      SharesAddUp(odds[1..], shares[1..]);
      ShareIsInverse(odds[0], shares[0]);
    }
  }

  lemma ShareIsInverse(x: real, share: real)
    requires x != 0.0 ==> Times(share, x) == 1.0
    requires x == 0.0 ==> share == 0.0
    ensures share == Inverse(x)
  {
    if x != 0.0 {
      var y := Inverse(x);
      assert y * x == 1.0;
      assert (share - y) * x == 0.0;
    }
  }

  lemma QualifiesExactly(t: Tables, m: Market, name: string, maxOverround: real)
    ensures Qualifies(t, m, name, maxOverround) <==> exists at :: FullMarket(t, m, name, maxOverround, at)
    ensures forall at :: FullMarket(t, m, name, maxOverround, at) ==>
              && PricesAll(t, m, name)
              && forall i :: 0 <= i < |m| ==> Lookup(t, m[i].quotes, name) == Some(m[i].quotes[at[i]])
  {
    hide Lookup, HasMargin, EffectiveOdds, NetPrice, Overround;
    forall at | FullMarket(t, m, name, maxOverround, at)
      ensures Qualifies(t, m, name, maxOverround)
      ensures PricesAll(t, m, name)
      ensures forall i :: 0 <= i < |m| ==> Lookup(t, m[i].quotes, name) == Some(m[i].quotes[at[i]]) {
      forall i | 0 <= i < |m| ensures Lookup(t, m[i].quotes, name) == Some(m[i].quotes[at[i]]) {
        LookupExactly(t, m[i].quotes, name, at[i]);
      }
      var net: seq<real>, margin: real :|
        && |net| == |m| && HasMargin(net, margin) && 0.0 <= margin <= maxOverround
        && forall i :: 0 <= i < |m| ==> net[i] == NetPrice(t, Quote(name, m[i].quotes[at[i]].odds));
      forall i | 0 <= i < |m| ensures net[i] == NetOdds(t, m, name)[i] {
        NetPriceExactly(t, Quote(name, m[i].quotes[at[i]].odds));
      }
      assert net == NetOdds(t, m, name);
      MarginIsUnique(net, margin);
    }
    if Qualifies(t, m, name, maxOverround) {
      var at := Places(t, m, name);
      var net := NetOdds(t, m, name);
      OverroundExactly(net);
      forall i | 0 <= i < |m| ensures net[i] == NetPrice(t, Quote(name, m[i].quotes[at[i]].odds)) {
        NetPriceExactly(t, Quote(name, m[i].quotes[at[i]].odds));
      }
      assert FullMarket(t, m, name, maxOverround, at);
    }
  }

  lemma {:induction false} Places(t: Tables, m: Market, name: string) returns (at: seq<nat>)
    requires PricesAll(t, m, name)
    ensures |at| == |m| && forall i :: 0 <= i < |m| ==>
              FirstUnder(t, m[i].quotes, name, at[i]) && Lookup(t, m[i].quotes, name) == Some(m[i].quotes[at[i]])
  {
    at := [];
    if m != [] {
      assert forall i :: 0 <= i < |m| - 1 ==> m[1..][i] == m[i + 1];
      var j := LookupFindsFirst(t, m[0].quotes, name);
      LookupExactly(t, m[0].quotes, name, j);
      var rest := Places(t, m[1..], name);
      at := [j] + rest;
    }
  }

  /** What a named anchor is. */
  ghost predicate NamedBy(t: Tables, m: Market, maxOverround: real, k: nat, at: seq<nat>, a: Anchor)
    requires m != []
  {
    && k < |t.sharpBooks| && FullMarket(t, m, t.sharpBooks[k], maxOverround, at)
    && a.named && a.book == m[0].quotes[at[0]].book && |a.odds| == |m|
    && forall i :: 0 <= i < |m| ==> a.odds[i] == m[i].quotes[at[i]].odds
  }

  ghost predicate SomeSharp(t: Tables, m: Market, maxOverround: real, k: nat) {
    k < |t.sharpBooks| && exists at :: FullMarket(t, m, t.sharpBooks[k], maxOverround, at)
  }

  /** A market of two selections or more is anchored at the displayed odds of the first preferred sharp book that
      quotes all of it at an acceptable net margin, under the name it goes by there; without one at the consensus;
      and not at all if that fails too. */
  lemma AnchorExactly(t: Tables, m: Market, maxOverround: real)
    ensures var a := ChooseAnchor(t, m, maxOverround);
            && (|m| < 2 ==> a.None?)
            && (forall k: nat :: |m| >= 2 && SomeSharp(t, m, maxOverround, k)
                                 && (forall j: nat :: j < k ==> !SomeSharp(t, m, maxOverround, j)) ==>
                  a.Some? && exists at :: NamedBy(t, m, maxOverround, k, at, a.value))
            && (|m| >= 2 && (forall k: nat :: !SomeSharp(t, m, maxOverround, k)) ==>
                  a == match ConsensusAnchor(t, m, maxOverround)
                       case None => None
                       case Some(odds) => Some(Anchor("consensus(median)", odds, false)))
  {
    hide *;
    if |m| >= 2 {
      NamedAnchorExactly(t, m, maxOverround);
      AnchorChoice(t, m, maxOverround);
    } else {
      NoAnchor(t, m, maxOverround);
    }
  }

  lemma NoAnchor(t: Tables, m: Market, maxOverround: real)
    requires |m| < 2
    ensures ChooseAnchor(t, m, maxOverround) == None
  {
  }

  lemma AnchorChoice(t: Tables, m: Market, maxOverround: real)
    requires |m| >= 2
    ensures var a, named := ChooseAnchor(t, m, maxOverround), NamedAnchor(t, m, maxOverround, 0);
            && (named.Some? ==> a == named)
            && (named.None? ==>
                  a == match ConsensusAnchor(t, m, maxOverround)
                       case None => None
                       case Some(odds) => Some(Anchor("consensus(median)", odds, false)))
  {
    hide NamedAnchor, ConsensusAnchor;
  }

  lemma NamedAnchorExactly(t: Tables, m: Market, maxOverround: real)
    requires m != []
    ensures (forall k: nat :: !SomeSharp(t, m, maxOverround, k)) ==> NamedAnchor(t, m, maxOverround, 0).None?
    ensures forall k: nat ::
              SomeSharp(t, m, maxOverround, k) && (forall j: nat :: j < k ==> !SomeSharp(t, m, maxOverround, j)) ==>
                NamedAnchor(t, m, maxOverround, 0).Some?
                && exists at :: NamedBy(t, m, maxOverround, k, at, NamedAnchor(t, m, maxOverround, 0).value)
  {
    hide FullMarket, NamedAnchor, NamedBy, Qualifies;
    forall k: nat ensures SomeSharp(t, m, maxOverround, k)
                          <==> k < |t.sharpBooks| && Qualifies(t, m, t.sharpBooks[k], maxOverround) {
      if k < |t.sharpBooks| { QualifiesExactly(t, m, t.sharpBooks[k], maxOverround); }
    }
    hide SomeSharp;
    NamedAnchorComplete(t, m, maxOverround, 0);
    forall k: nat | SomeSharp(t, m, maxOverround, k) && (forall j: nat :: j < k ==> !SomeSharp(t, m, maxOverround, j))
      ensures NamedAnchor(t, m, maxOverround, 0).Some?
      ensures exists at :: NamedBy(t, m, maxOverround, k, at, NamedAnchor(t, m, maxOverround, 0).value) {
      NamedFirst(t, m, maxOverround, 0, k);
    }
  }

  lemma {:induction false} NamedFirst(t: Tables, m: Market, maxOverround: real, j: nat, k: nat)
    requires m != [] && j <= k < |t.sharpBooks| && Qualifies(t, m, t.sharpBooks[k], maxOverround)
    requires forall i :: j <= i < k ==> !Qualifies(t, m, t.sharpBooks[i], maxOverround)
    ensures NamedAnchor(t, m, maxOverround, j).Some?
            && exists at :: NamedBy(t, m, maxOverround, k, at, NamedAnchor(t, m, maxOverround, j).value)
    decreases k - j
  {
    hide FullMarket, Overround, NetOdds, Lookup;
    if j < k {
      NamedFirst(t, m, maxOverround, j + 1, k);
    } else {
      QualifiesExactly(t, m, t.sharpBooks[k], maxOverround);
      var at :| FullMarket(t, m, t.sharpBooks[k], maxOverround, at);
      PlacesMatch(t, m, t.sharpBooks[k], maxOverround, at);
      assert NamedBy(t, m, maxOverround, k, at, NamedAnchor(t, m, maxOverround, j).value);
    }
  }

  lemma PlacesMatch(t: Tables, m: Market, name: string, maxOverround: real, at: seq<nat>)
    requires FullMarket(t, m, name, maxOverround, at)
    ensures |at| == |m| && forall i :: 0 <= i < |m| ==> at[i] < |m[i].quotes|
  {
    hide HasMargin, NetPrice;
  }

  /** The stored type of an anchor, by its name: a name that spells Pinnacle anywhere, another sharp book, or
      consensus for anything else. */
  lemma AnchorTypeExactly(t: Tables, book: string)
    ensures var name := t.norm(book);
            var spelled := exists i :: SpeltAt(name, "pinnacle", i);
            && (AnchorTypeFor(t, book) == Pinnacle <==> book != "consensus(median)" && spelled)
            && (AnchorTypeFor(t, book) == OtherSharp <==>
                  && book != "consensus(median)" && !spelled
                  && exists k :: 0 <= k < |t.sharpBooks| && t.sharpBooks[k] == name)
  {
    ContainsExactly(t.norm(book), "pinnacle");
    hide Contains, SpeltAt;
  }

  ghost predicate SpeltAt(s: string, part: string, i: nat) { i + |part| <= |s| && s[i..i + |part|] == part }

  lemma {:induction false} ContainsExactly(s: string, part: string)
    ensures Contains(s, part) <==> exists i :: SpeltAt(s, part, i)
  {
    if |part| <= |s| {
      assert SpeltAt(s, part, 0) <==> s[..|part|] == part;
      if s != [] {
        ContainsExactly(s[1..], part);
        forall i: nat | i + |part| < |s| ensures SpeltAt(s[1..], part, i) <==> SpeltAt(s, part, i + 1) {
          assert s[1..][i..i + |part|] == s[i + 1..i + 1 + |part|];
        }
        if i: nat :| SpeltAt(s, part, i) && i > 0 { assert SpeltAt(s[1..], part, i - 1); }
        if i: nat :| SpeltAt(s[1..], part, i) { assert SpeltAt(s, part, i + 1); }
      }
    }
  }

  // ---- the swap guard, told from the quotes ----

  /** The quotes a market lists under a name: those of its first selection of that name, or none. */
  ghost predicate Listed(m: Market, selection: string, quotes: seq<Quote>) {
    if exists i :: 0 <= i < |m| && m[i].selection == selection then
      exists i :: 0 <= i < |m| && quotes == m[i].quotes && m[i].selection == selection
                  && forall k :: 0 <= k < i ==> m[k].selection != selection
    else quotes == []
  }

  lemma {:induction false} QuotesForExactly(m: Market, selection: string)
    ensures Listed(m, selection, QuotesFor(m, selection))
  {
    if m != [] && m[0].selection != selection {
      var rest := m[1..];
      assert forall i :: 0 <= i < |rest| ==> rest[i] == m[i + 1];
      QuotesForExactly(rest, selection);
      if i :| 0 <= i < |m| && m[i].selection == selection {
        assert rest[i - 1].selection == selection;
        var j :| 0 <= j < |rest| && QuotesFor(rest, selection) == rest[j].quotes && rest[j].selection == selection
          && forall k :: 0 <= k < j ==> rest[k].selection != selection;
        assert forall k :: 0 <= k < j + 1 ==> m[k].selection != selection;
        assert m[j + 1].quotes == QuotesFor(m, selection);
      }
    }
  }

  ghost function AboveOne(): Quote -> bool { (q: Quote) => q.odds > 1.0 }

  ghost function ImpliedBy(t: Tables): Quote -> real {
    (q: Quote) => if NetPrice(t, q) > 0.0 then 1.0 / NetPrice(t, q) else 0.0
  }

  ghost predicate Lower(a: real, b: real) { a < b }

  /** What each book that prices a selection implies at its best. */
  ghost predicate ImpliedPrices(t: Tables, m: Market, selection: string, entries: seq<Entry>) {
    exists quotes :: Listed(m, selection, quotes) && OnePerBook(t, quotes, AboveOne(), ImpliedBy(t), Lower, entries)
  }

  ghost predicate Thin(t: Tables, m: Market, selection: string) {
    exists entries :: ImpliedPrices(t, m, selection, entries) && |entries| < 3
  }

  ghost predicate ReferencePrice(t: Tables, m: Market, selection: string, x: real) {
    exists entries :: ImpliedPrices(t, m, selection, entries) && |entries| >= 3 && IsMedian(Values(entries), x)
  }

  lemma ImpliedEntriesExactly(t: Tables, m: Market, selection: string)
    requires t.Valid()
    ensures ImpliedPrices(t, m, selection, ImpliedEntries(t, QuotesFor(m, selection)))
  {
    var quotes := QuotesFor(m, selection);
    QuotesForExactly(m, selection);
    PerBookExactly(t, Implied(t), Less, Priced(), quotes);
    forall q: Quote | q.odds > 1.0 ensures Implied(t)(q) == ImpliedBy(t)(q) {
      NetPriceExactly(t, q);
      EffectiveAboveOne(t, q.book, q.odds);
    }
    hide EffectiveOdds, NetPrice, Listed;
    SameEligible(t, quotes, Priced(), AboveOne(), ImpliedEntries(t, quotes), Implied(t), Less);
    SameWorth(t, quotes, AboveOne(), ImpliedEntries(t, quotes), Implied(t), Less, ImpliedBy(t), Lower);
  }

  lemma SameEligible(
    t: Tables, quotes: seq<Quote>, eligible: Quote -> bool, eligible': Quote -> bool, entries: seq<Entry>,
    worth: Quote -> real, beats: (real, real) -> bool)
    requires OnePerBook(t, quotes, eligible, worth, beats, entries)
    requires forall q | q in quotes :: eligible(q) == eligible'(q)
    ensures OnePerBook(t, quotes, eligible', worth, beats, entries)
  {
    forall e | e in entries ensures BestOfBook(t, quotes, eligible', worth, beats, e) {
      assert BestOfBook(t, quotes, eligible, worth, beats, e);
    }
  }

  ghost function EligibleBooks(t: Tables, quotes: seq<Quote>, eligible: Quote -> bool): set<string> {
    set q | q in quotes && eligible(q) :: t.norm(q.book)
  }

  /** There are as many entries as books with an eligible quote. */
  lemma EntriesCount(
    t: Tables, quotes: seq<Quote>, eligible: Quote -> bool, worth: Quote -> real, beats: (real, real) -> bool,
    entries: seq<Entry>)
    requires OnePerBook(t, quotes, eligible, worth, beats, entries)
    ensures |entries| == |EligibleBooks(t, quotes, eligible)|
  {
    UniqueCount(entries);
    forall x | x in EntryBooks(entries) ensures x in EligibleBooks(t, quotes, eligible) {
      var e :| e in entries && e.book == x;
      assert BestOfBook(t, quotes, eligible, worth, beats, e);
    }
    hide BestOfBook;
    forall x | x in EligibleBooks(t, quotes, eligible) ensures x in EntryBooks(entries) {
      var q :| q in quotes && eligible(q) && t.norm(q.book) == x;
      var e :| e in entries && e.book == t.norm(q.book);
    }
    assert EntryBooks(entries) == EligibleBooks(t, quotes, eligible);
  }

  lemma ThinExactly(t: Tables, m: Market, selection: string)
    requires t.Valid()
    ensures Thin(t, m, selection) <==> |ImpliedEntries(t, QuotesFor(m, selection))| < 3
  {
    ImpliedEntriesExactly(t, m, selection);
    var mine := ImpliedEntries(t, QuotesFor(m, selection));
    hide ImpliedEntries, QuotesFor, OnePerBook, IsMedian, Listed;
    if Thin(t, m, selection) {
      var entries :| ImpliedPrices(t, m, selection, entries) && |entries| < 3;
      var q1 :| Listed(m, selection, q1) && OnePerBook(t, q1, AboveOne(), ImpliedBy(t), Lower, entries);
      var q2 :| Listed(m, selection, q2) && OnePerBook(t, q2, AboveOne(), ImpliedBy(t), Lower, mine);
      ListedOnce(m, selection, q1, q2);
      EntriesCount(t, q1, AboveOne(), ImpliedBy(t), Lower, entries);
      EntriesCount(t, q1, AboveOne(), ImpliedBy(t), Lower, mine);
    }
  }

  lemma ListedOnce(m: Market, selection: string, a: seq<Quote>, b: seq<Quote>)
    requires Listed(m, selection, a) && Listed(m, selection, b)
    ensures a == b
  {
  }

  lemma {:induction false} ImpliedMediansExactly(t: Tables, m: Market, fair: seq<FairValue>)
    requires t.Valid()
    ensures var med := ImpliedMedians(t, m, fair);
            && (med.None? <==> exists k :: 0 <= k < |fair| && Thin(t, m, fair[k].selection))
            && (med.Some? ==> forall k :: 0 <= k < |fair| ==> ReferencePrice(t, m, fair[k].selection, med.value[k]))
  {
    hide Thin, ReferencePrice, ImpliedEntries;
    if fair != [] {
      var n := |fair| - 1;
      ImpliedMediansExactly(t, m, fair[..n]);
      ThinExactly(t, m, fair[n].selection);
      PricedExactly(t, m, fair[n].selection);
      assert forall k :: 0 <= k < n ==> fair[..n][k] == fair[k];
    }
  }

  lemma PricedExactly(t: Tables, m: Market, selection: string)
    requires t.Valid()
    ensures var entries := ImpliedEntries(t, QuotesFor(m, selection));
            |entries| >= 3 ==> ReferencePrice(t, m, selection, Median(Values(entries)))
  {
    var entries := ImpliedEntries(t, QuotesFor(m, selection));
    ImpliedEntriesExactly(t, m, selection);
    if |entries| >= 3 { MedianIsMedian(Values(entries)); }
    hide IsMedian, Median, ImpliedPrices, ImpliedEntries;
  }

  /** The guard passes any market with a selection that fewer than three books price. Otherwise it speaks exactly
      when the medians of what the books imply, taken as shares of their total, separate two selections by more
      than the tolerance and the anchor does not rank them so. */
  lemma DisagreesExactly(t: Tables, m: Market, fair: seq<FairValue>, tolerance: real) returns (med: seq<real>)
    requires t.Valid()
    ensures (exists k :: 0 <= k < |fair| && Thin(t, m, fair[k].selection)) ==> !Disagrees(t, m, fair, tolerance)
    ensures (forall k :: 0 <= k < |fair| ==> !Thin(t, m, fair[k].selection)) ==>
              && |med| == |fair| && (forall k :: 0 <= k < |fair| ==> ReferencePrice(t, m, fair[k].selection, med[k]))
              && (Disagrees(t, m, fair, tolerance) <==> Separates(med, fair, tolerance))
  {
    ImpliedMediansExactly(t, m, fair);
    var medians := ImpliedMedians(t, m, fair);
    hide Thin, ReferencePrice, Disagrees, ImpliedMedians;
    if medians.None? {
      med := [];
      NoReference(t, m, fair, tolerance);
    } else {
      med := medians.value;
      SharesSeparate(t, m, fair, tolerance);
    }
  }

  ghost predicate Separates(med: seq<real>, fair: seq<FairValue>, tolerance: real)
    requires |med| == |fair|
  {
    var total := Sum((x: real) => x, med);
    && total > 0.0
    && exists i, j ::
         && 0 <= i < |fair| && 0 <= j < |fair|
         && med[i] - med[j] > Times(tolerance, total) && fair[i].prob <= fair[j].prob
  }

  lemma NoReference(t: Tables, m: Market, fair: seq<FairValue>, tolerance: real)
    requires ImpliedMedians(t, m, fair).None?
    ensures !Disagrees(t, m, fair, tolerance)
  {
  }

  lemma SharesSeparate(t: Tables, m: Market, fair: seq<FairValue>, tolerance: real)
    requires ImpliedMedians(t, m, fair).Some?
    ensures Disagrees(t, m, fair, tolerance) <==> Separates(ImpliedMedians(t, m, fair).value, fair, tolerance)
  {
    var med := ImpliedMedians(t, m, fair).value;
    var total := Total(med);
    assert total == Sum((x: real) => x, med) by { SumSame((x: real) => x, (x: real) => x, med); }
    hide ImpliedMedians, Sum, Total, Times;
    if total > 0.0 {
      forall i, j | 0 <= i < |fair| && 0 <= j < |fair|
        ensures med[i] / total - med[j] / total > tolerance <==> med[i] - med[j] > Times(tolerance, total) {
        SharesApart(med[i], med[j], tolerance, total);
      }
    }
  }

  lemma SharesApart(x: real, y: real, tolerance: real, total: real)
    requires total > 0.0
    ensures x / total - y / total > tolerance <==> x - y > Times(tolerance, total)
  {
    var a, b := x / total, y / total;
    assert Times(a, total) == x && Times(b, total) == y;
    TimesDistribute(a, b, total);
    TimesCompare(a - b, tolerance, total);
    hide Times;
  }
}
