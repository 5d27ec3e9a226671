/** A second spelling of a book (app/edge/value.py): what it changes when one market lists the same normalised
    book twice, the repeat at a no-better price and anywhere in the list. */
module Respelling {
  import opened Prelude
  import opened Books
  import opened Anchors
  import opened ValueScan
  import StableSort

  function Inserted(quotes: seq<Quote>, at: nat, q: Quote): seq<Quote>
    requires at <= |quotes|
  {
    quotes[..at] + [q] + quotes[at..]
  }

  lemma InsertedMembers(quotes: seq<Quote>, at: nat, q: Quote)
    requires at <= |quotes|
    ensures forall x :: x in Inserted(quotes, at, q) <==> x in quotes || x == q
  {
    assert quotes == quotes[..at] + quotes[at..];
  }

  /** The market with one more quote, at any place of one selection. */
  function WithQuote(m: Market, i: nat, at: nat, q: Quote): Market
    requires i < |m| && at <= |m[i].quotes|
  {
    m[i := SelectionQuotes(m[i].selection, Inserted(m[i].quotes, at, q))]
  }

  /** `q` repeats, under another name, a book that already quotes the selection at least as well. */
  ghost predicate Respells(t: Tables, quotes: seq<Quote>, q: Quote) {
    && (exists q0 :: q0 in quotes && t.norm(q0.book) == t.norm(q.book) && 1.0 < q.odds <= q0.odds)
    && (forall x :: x in quotes ==> x.book != q.book)
  }

  lemma SameBookOrder(t: Tables, a: Quote, b: Quote)
    requires t.Valid() && t.norm(a.book) == t.norm(b.book) && 1.0 < a.odds <= b.odds
    ensures Net(t)(a) <= Net(t)(b) && Implied(t)(b) <= Implied(t)(a)
  {
    assert t.Commission(a.book) == t.Commission(b.book);
    assert Net(t)(a) == EffectiveOdds(t, b.book, a.odds);
    EffectiveMonotone(t, b.book, a.odds, b.odds);
    EffectiveAboveOne(t, b.book, a.odds);
    EffectiveAboveOne(t, b.book, b.odds);
    ReciprocalOrder(Net(t)(a), Net(t)(b));
  }

  // ---- medians see the best price of each book, wherever it is listed ----

  /** The kept value of a book is never worse than any of its quotes. */
  lemma {:induction false} KeptIsBest(
    t: Tables, value: Quote -> real, better: (real, real) -> bool, quotes: seq<Quote>, q: Quote)
    requires q in quotes
    requires forall x, y, z :: !better(x, y) && !better(y, z) ==> !better(x, z)
    requires forall x :: !better(x, x)
    requires forall x, y :: !(better(x, y) && better(y, x)) && (!better(x, y) && !better(y, x) ==> x == y)
    ensures var i := IndexOf(PerBook(t, value, better, quotes), t.norm(q.book));
            i.Some? && !better(value(q), PerBook(t, value, better, quotes)[i.value].value)
  {
    var n := |quotes| - 1;
    var b := t.norm(q.book);
    var before := PerBook(t, value, better, quotes[..n]);
    var e := Entry(t.norm(quotes[n].book), value(quotes[n]));
    PerBookIsUnique(t, value, better, quotes[..n]);
    PerBookIsUnique(t, value, better, quotes);
    var after := PerBook(t, value, better, quotes);
    var at := IndexOf(before, e.book);
    if q in quotes[..n] {
      KeptIsBest(t, value, better, quotes[..n], q);
      var i := IndexOf(before, b).value;
      assert after[i].book == b;
      var j := IndexOf(after, b).value;
      assert i == j;
      assert better(e.value, before[i].value) ==> !better(before[i].value, e.value);
    } else {
      assert q == quotes[n];
      var j := IndexOf(after, b);
      if at.Some? {
        assert after[at.value].book == b && j.value == at.value;
      } else {
        assert after == before + [e];
        assert after[|before|].book == b && j.value == |before|;
      }
    }
  }

  /** A kept entry is the value of one quote of its book, and no other quote of the book is better. */
  lemma EntryIsBest(t: Tables, value: Quote -> real, better: (real, real) -> bool, quotes: seq<Quote>, e: Entry)
    requires e in PerBook(t, value, better, quotes)
    requires forall x, y, z :: !better(x, y) && !better(y, z) ==> !better(x, z)
    requires forall x :: !better(x, x)
    requires forall x, y :: !(better(x, y) && better(y, x)) && (!better(x, y) && !better(y, x) ==> x == y)
    ensures exists x :: x in quotes && t.norm(x.book) == e.book && value(x) == e.value
    ensures forall x :: x in quotes && t.norm(x.book) == e.book ==> !better(value(x), e.value)
  {
    hide PerBook;
    var kept := PerBook(t, value, better, quotes);
    EntryFromQuote(t, value, better, quotes, e);
    PerBookIsUnique(t, value, better, quotes);
    forall x | x in quotes && t.norm(x.book) == e.book ensures !better(value(x), e.value) {
      KeptIsBest(t, value, better, quotes, x);
      assert kept[IndexOf(kept, e.book).value] == e;
    }
  }

  /** One more quote `q`, dominated by a quote `q0` of its book, changes no kept entry. */
  lemma SameEntries(
    t: Tables, value: Quote -> real, better: (real, real) -> bool, few: seq<Quote>, many: seq<Quote>, q: Quote,
    q0: Quote,
    e: Entry, e': Entry)
    requires forall x, y, z :: !better(x, y) && !better(y, z) ==> !better(x, z)
    requires forall x :: !better(x, x)
    requires forall x, y :: !(better(x, y) && better(y, x)) && (!better(x, y) && !better(y, x) ==> x == y)
    requires forall x :: x in many ==> x in few || x == q
    requires forall x :: x in few ==> x in many
    requires q in many ==> q0 in few && t.norm(q0.book) == t.norm(q.book) && !better(value(q), value(q0))
    requires e in PerBook(t, value, better, few) && e' in PerBook(t, value, better, many) && e.book == e'.book
    ensures e == e'
  {
    hide PerBook;
    EntryIsBest(t, value, better, few, e);
    EntryIsBest(t, value, better, many, e');
    var x :| x in few && t.norm(x.book) == e.book && value(x) == e.value;
    assert !better(e.value, e'.value);
    var y :| y in many && t.norm(y.book) == e.book && value(y) == e'.value;
    if y !in few {
      var v, v0 := value(q), value(q0);
      assert !better(v, v0) && !better(v0, e.value);
    }
    assert !better(e'.value, e.value);
  }

  lemma {:induction false} UniqueMultiset(entries: seq<Entry>, e: Entry)
    requires UniqueBooks(entries)
    ensures multiset(entries)[e] == if e in entries then 1 else 0
  {
    if entries != [] {
      assert entries == [entries[0]] + entries[1..];
      UniqueMultiset(entries[1..], e);
      assert entries[0] !in entries[1..];
    }
  }

  function Worth(x: real): Entry -> bool { (e: Entry) => e.value == x }

  lemma {:induction false} ValuesCount(a: seq<Entry>, x: real)
    ensures multiset(Values(a))[x] == |Filter(Worth(x), a)|
  {
    if a != [] {
      assert Values(a) == [a[0].value] + Values(a[1..]);
      ValuesCount(a[1..], x);
    }
  }

  lemma SameEntriesSameBag(a: seq<Entry>, b: seq<Entry>)
    requires UniqueBooks(a) && UniqueBooks(b) && forall e :: e in a <==> e in b
    ensures multiset(a) == multiset(b)
  {
    hide UniqueBooks;
    forall e ensures multiset(a)[e] == multiset(b)[e] {
      UniqueMultiset(a, e);
      UniqueMultiset(b, e);
    }
  }

  lemma SameEntriesSameValues(a: seq<Entry>, b: seq<Entry>)
    requires multiset(a) == multiset(b)
    ensures multiset(Values(a)) == multiset(Values(b))
  {
    hide *;
    forall x ensures multiset(Values(a))[x] == multiset(Values(b))[x] {
      ValuesCount(a, x);
      ValuesCount(b, x);
      FilterSizes(Worth(x), a, b);
    }
  }

  lemma SameEntriesSameMedian(a: seq<Entry>, b: seq<Entry>)
    requires UniqueBooks(a) && UniqueBooks(b) && forall e :: e in a <==> e in b
    ensures |a| == |b|
    ensures a != [] ==> Median(Values(a)) == Median(Values(b))
  {
    hide *;
    SameEntriesSameBag(a, b);
    assert |a| == |multiset(a)| == |multiset(b)| == |b|;
    SameEntriesSameValues(a, b);
    MedianForgetsOrder(Values(a), Values(b));
  }

  lemma MedianForgetsOrder(a: seq<real>, b: seq<real>)
    requires multiset(a) == multiset(b)
    ensures |a| == |b|
    ensures a != [] ==> Median(a) == Median(b)
  {
    assert |a| == |multiset(a)| == |multiset(b)| == |b|;
    StableSort.SortForgetsOrder(AtMost, a, b);
  }

  /** Inserting a dominated repeat leaves the kept entries what they were, up to their order. */
  lemma RespellingKeepsEntries(
    t: Tables, value: Quote -> real, better: (real, real) -> bool, keep: Quote -> bool, quotes: seq<Quote>, at: nat,
    q: Quote, q0: Quote)
    requires at <= |quotes|
    requires forall x, y, z :: !better(x, y) && !better(y, z) ==> !better(x, z)
    requires forall x :: !better(x, x)
    requires forall x, y :: !(better(x, y) && better(y, x)) && (!better(x, y) && !better(y, x) ==> x == y)
    requires q0 in quotes && t.norm(q0.book) == t.norm(q.book) && !better(value(q), value(q0))
    requires keep(q) ==> keep(q0)
    ensures var a := PerBook(t, value, better, Filter(keep, Inserted(quotes, at, q)));
            var b := PerBook(t, value, better, Filter(keep, quotes));
            |a| == |b| && (a != [] ==> Median(Values(a)) == Median(Values(b)))
  {
    var many, few := Filter(keep, Inserted(quotes, at, q)), Filter(keep, quotes);
    InsertedMembers(quotes, at, q);
    forall x ensures x in many <==> (x in quotes || x == q) && keep(x) {
      FilterMember(keep, Inserted(quotes, at, q), x);
    }
    forall x ensures x in few <==> x in quotes && keep(x) { FilterMember(keep, quotes, x); }
    RespellingKeepsKept(t, value, better, few, many, q, q0);
  }

  lemma RespellingKeepsKept(
    t: Tables, value: Quote -> real, better: (real, real) -> bool, few: seq<Quote>, many: seq<Quote>, q: Quote,
    q0: Quote)
    requires forall x, y, z :: !better(x, y) && !better(y, z) ==> !better(x, z)
    requires forall x :: !better(x, x)
    requires forall x, y :: !(better(x, y) && better(y, x)) && (!better(x, y) && !better(y, x) ==> x == y)
    requires forall x :: x in many ==> x in few || x == q
    requires forall x :: x in few ==> x in many
    requires q in many ==> q0 in few && t.norm(q0.book) == t.norm(q.book) && !better(value(q), value(q0))
    ensures var a, b := PerBook(t, value, better, many), PerBook(t, value, better, few);
            |a| == |b| && (a != [] ==> Median(Values(a)) == Median(Values(b)))
  {
    hide PerBook, Median;
    var a, b := PerBook(t, value, better, many), PerBook(t, value, better, few);
    PerBookIsUnique(t, value, better, many);
    PerBookIsUnique(t, value, better, few);
    assert BooksOf(t, many) == BooksOf(t, few);
    forall e | e in a ensures e in b {
      assert e.book in EntryBooks(b);
      var e0 :| e0 in b && e0.book == e.book;
      SameEntries(t, value, better, few, many, q, q0, e0, e);
    }
    forall e | e in b ensures e in a {
      assert e.book in EntryBooks(a);
      var e0 :| e0 in a && e0.book == e.book;
      SameEntries(t, value, better, few, many, q, q0, e, e0);
    }
    SameEntriesSameMedian(a, b);
  }

  // ---- the consensus anchor ----

  lemma RespellingKeepsBooks(t: Tables, m: Market, i: nat, at: nat, q: Quote)
    requires i < |m| && at <= |m[i].quotes| && Respells(t, m[i].quotes, q)
    ensures FullBooks(t, WithQuote(m, i, at, q)) == FullBooks(t, m)
  {
    var m' := WithQuote(m, i, at, q);
    InsertedMembers(m[i].quotes, at, q);
    forall k | 0 <= k < |m| ensures BooksOf(t, m'[k].quotes) == BooksOf(t, m[k].quotes) {
      if k == i {
        var q0 :| q0 in m[i].quotes && t.norm(q0.book) == t.norm(q.book);
        assert t.norm(q.book) in BooksOf(t, m[i].quotes);
      }
    }
  }

  lemma RespellingKeepsMedian(t: Tables, m: Market, i: nat, at: nat, q: Quote, k: nat)
    requires t.Valid() && i < |m| && at <= |m[i].quotes| && k < |m|
    requires Respells(t, m[i].quotes, q) && |FullBooks(t, m)| >= MIN_CONSENSUS_BOOKS
    ensures FullBooks(t, WithQuote(m, i, at, q)) == FullBooks(t, m)
    ensures MedianPrice(t, WithQuote(m, i, at, q), k) == MedianPrice(t, m, k)
  {
    RespellingKeepsBooks(t, m, i, at, q);
    hide EffectiveOdds;
    if k == i {
      var q0 :| q0 in m[i].quotes && t.norm(q0.book) == t.norm(q.book) && 1.0 < q.odds <= q0.odds;
      SameBookOrder(t, q, q0);
      FullEntriesCount(t, m, i);
      FullEntriesCount(t, WithQuote(m, i, at, q), i);
      RespellingKeepsEntries(t, Net(t), More, QuotedIn(t, FullBooks(t, m)), m[i].quotes, at, q, q0);
    }
  }

  /** Wherever the second spelling is listed, the consensus anchor is the same. */
  lemma SecondSpellingChangesNoConsensus(t: Tables, m: Market, i: nat, at: nat, q: Quote, maxOverround: real)
    requires t.Valid() && i < |m| && at <= |m[i].quotes| && Respells(t, m[i].quotes, q)
    ensures ConsensusAnchor(t, WithQuote(m, i, at, q), maxOverround) == ConsensusAnchor(t, m, maxOverround)
  {
    RespellingKeepsBooks(t, m, i, at, q);
    if |FullBooks(t, m)| >= MIN_CONSENSUS_BOOKS {
      forall k | 0 <= k < |m| ensures MedianPrice(t, WithQuote(m, i, at, q), k) == MedianPrice(t, m, k) {
        RespellingKeepsMedian(t, m, i, at, q, k);
      }
      assert MedianPrices(t, WithQuote(m, i, at, q)) == MedianPrices(t, m);
    }
  }

  lemma {:induction false} QuotesForUpdated(m: Market, i: nat, quotes: seq<Quote>, selection: string)
    requires i < |m| && DistinctSelections(m)
    ensures QuotesFor(m[i := SelectionQuotes(m[i].selection, quotes)], selection)
         == if selection == m[i].selection then quotes else QuotesFor(m, selection)
  {
    var m' := m[i := SelectionQuotes(m[i].selection, quotes)];
    if i == 0 {
      assert m'[1..] == m[1..];
    } else {
      assert m'[1..] == m[1..][i - 1 := SelectionQuotes(m[i].selection, quotes)];
      assert m[0].selection != m[i].selection;
      QuotesForUpdated(m[1..], i - 1, quotes, selection);
    }
  }

  lemma {:induction false} QuotesForHit(m: Market, i: nat)
    requires i < |m| && DistinctSelections(m)
    ensures QuotesFor(m, m[i].selection) == m[i].quotes
  {
    if i > 0 {
      assert m[0].selection != m[i].selection;
      QuotesForHit(m[1..], i - 1);
    }
  }

  /** Nor does it change the cross-book reference, hence the verdict of the swap guard. */
  lemma {:induction false} SecondSpellingChangesNoReference(
    t: Tables, m: Market, i: nat, at: nat, q: Quote, fair: seq<FairValue>)
    requires t.Valid() && i < |m| && at <= |m[i].quotes| && Respells(t, m[i].quotes, q) && DistinctSelections(m)
    ensures ImpliedMedians(t, WithQuote(m, i, at, q), fair) == ImpliedMedians(t, m, fair)
    ensures Reference(t, WithQuote(m, i, at, q), fair) == Reference(t, m, fair)
  {
    hide EffectiveOdds;
    if fair != [] {
      SecondSpellingChangesNoReference(t, m, i, at, q, fair[..|fair| - 1]);
      QuotesForUpdated(m, i, Inserted(m[i].quotes, at, q), fair[|fair| - 1].selection);
      QuotesForHit(m, i);
      var q0 :| q0 in m[i].quotes && t.norm(q0.book) == t.norm(q.book) && 1.0 < q.odds <= q0.odds;
      SameBookOrder(t, q, q0);
      RespellingKeepsEntries(t, Implied(t), Less, Priced(), m[i].quotes, at, q, q0);
    }
  }

  // ---- the named anchor reads the first spelling ----

  lemma {:induction false} InsertedLookup(t: Tables, quotes: seq<Quote>, at: nat, q: Quote, name: string)
    requires at <= |quotes|
    ensures Lookup(t, Inserted(quotes, at, q), name) ==
            if t.norm(q.book) == name && Lookup(t, quotes[..at], name).None? then Some(q) else Lookup(t, quotes, name)
  {
    if at == 0 {
      assert Inserted(quotes, 0, q) == [q] + quotes;
    } else {
      assert Inserted(quotes, at, q)[0] == quotes[0];
      assert Inserted(quotes, at, q)[1..] == Inserted(quotes[1..], at - 1, q);
      assert quotes[..at][0] == quotes[0] && quotes[..at][1..] == quotes[1..][..at - 1];
      InsertedLookup(t, quotes[1..], at - 1, q, name);
    }
  }

  /** The repeat is not of a preferred sharp book, or comes after that book's first spelling. */
  predicate Late(t: Tables, quotes: seq<Quote>, at: nat, q: Quote)
    requires at <= |quotes|
  {
    !t.Sharp(q.book) || Lookup(t, quotes[..at], t.norm(q.book)).Some?
  }

  /** Two markets that show a preferred book the same displayed prices under the same name. */
  ghost predicate SameLine(t: Tables, m: Market, m': Market, name: string) {
    && |m| == |m'| && m != []
    && (Lookup(t, m[0].quotes, name).Some? && Lookup(t, m'[0].quotes, name).Some? ==>
          Lookup(t, m[0].quotes, name).value.book == Lookup(t, m'[0].quotes, name).value.book)
    && forall k :: 0 <= k < |m| ==>
         && Lookup(t, m[k].quotes, name).Some? == Lookup(t, m'[k].quotes, name).Some?
         && (Lookup(t, m[k].quotes, name).Some? ==>
               Lookup(t, m[k].quotes, name).value.odds == Lookup(t, m'[k].quotes, name).value.odds)
  }

  lemma SameLineQualifies(t: Tables, m: Market, m': Market, name: string, maxOverround: real)
    requires SameLine(t, m, m', name)
    ensures PricesAll(t, m, name) == PricesAll(t, m', name)
    ensures PricesAll(t, m, name) ==> GrossOdds(t, m, name) == GrossOdds(t, m', name)
    ensures Qualifies(t, m, name, maxOverround) == Qualifies(t, m', name, maxOverround)
  {
    hide EffectiveOdds;
    if PricesAll(t, m, name) {
      assert PricesAll(t, m', name);
      assert NetOdds(t, m', name) == NetOdds(t, m, name);
    } else {
      var k :| 0 <= k < |m| && Lookup(t, m[k].quotes, name).None?;
      assert Lookup(t, m'[k].quotes, name).None?;
    }
  }

  /** The named anchor is set by this book. */
  predicate SetBy(t: Tables, a: Option<Anchor>, name: string) {
    a.Some? && a.value.named && t.norm(a.value.book) == name
  }

  /** Two markets that agree on every preferred book but one choose alike unless that one is chosen. */
  lemma {:induction false} SameNamed(t: Tables, m: Market, m': Market, maxOverround: real, k: nat, name: string)
    requires k <= |t.sharpBooks| && |m| == |m'| && m != []
    requires forall x :: x in t.sharpBooks && x != name ==> SameLine(t, m, m', x)
    requires SameLine(t, m, m', name)
             || (!SetBy(t, NamedAnchor(t, m, maxOverround, k), name)
                && !SetBy(t, NamedAnchor(t, m', maxOverround, k), name))
    ensures NamedAnchor(t, m', maxOverround, k) == NamedAnchor(t, m, maxOverround, k)
    decreases |t.sharpBooks| - k
  {
    hide Qualifies;
    if k < |t.sharpBooks| {
      var pref := t.sharpBooks[k];
      if pref != name || SameLine(t, m, m', name) {
        assert SameLine(t, m, m', pref);
        SameLineQualifies(t, m, m', pref, maxOverround);
      }
      QualifiesPrices(t, m, pref, maxOverround);
      QualifiesPrices(t, m', pref, maxOverround);
      if !Qualifies(t, m, pref, maxOverround) && !Qualifies(t, m', pref, maxOverround) {
        SameNamed(t, m, m', maxOverround, k + 1, name);
      }
    }
  }

  lemma QualifiesPrices(t: Tables, m: Market, name: string, maxOverround: real)
    ensures Qualifies(t, m, name, maxOverround) ==> PricesAll(t, m, name)
  {
    hide EffectiveOdds;
  }

  lemma {:induction false} SetByMeans(t: Tables, m: Market, maxOverround: real, k: nat, name: string)
    requires m != [] && k <= |t.sharpBooks| && SetBy(t, NamedAnchor(t, m, maxOverround, k), name)
    ensures PricesAll(t, m, name)
    ensures NamedAnchor(t, m, maxOverround, k).value.book == Lookup(t, m[0].quotes, name).value.book
    ensures NamedAnchor(t, m, maxOverround, k).value.odds == GrossOdds(t, m, name)
    decreases |t.sharpBooks| - k
  {
    hide EffectiveOdds, Overround;
    if k < |t.sharpBooks| && !Qualifies(t, m, t.sharpBooks[k], maxOverround) {
      SetByMeans(t, m, maxOverround, k + 1, name);
    }
  }

  lemma OtherLinesSame(t: Tables, m: Market, i: nat, at: nat, q: Quote, name: string)
    requires i < |m| && at <= |m[i].quotes| && Respells(t, m[i].quotes, q)
    requires name != t.norm(q.book) || Lookup(t, m[i].quotes[..at], name).Some?
             || (i != 0 && Lookup(t, m[i].quotes, name).Some? && Lookup(t, m[i].quotes, name).value.odds == q.odds)
    ensures SameLine(t, m, WithQuote(m, i, at, q), name)
  {
    InsertedLookup(t, m[i].quotes, at, q, name);
  }

  /** The preferred books from the `k`-th to the `j`-th are all others than `name`. */
  predicate Ahead(t: Tables, name: string, k: nat, j: nat)
    requires k <= j < |t.sharpBooks|
  {
    name !in t.sharpBooks[k..j + 1]
  }

  /** A book listed before `name` among the preferred ones, the `k`-th or later, qualifies. */
  predicate Outranked(t: Tables, m: Market, name: string, maxOverround: real, k: nat) {
    exists j :: k <= j < |t.sharpBooks| && Ahead(t, name, k, j) && Qualifies(t, m, t.sharpBooks[j], maxOverround)
  }

  /** A preferred book sets the named anchor iff it qualifies and no preferred book ahead of it does. */
  lemma {:induction false} SetByExactly(t: Tables, m: Market, maxOverround: real, k: nat, name: string)
    requires t.Valid() && m != [] && k <= |t.sharpBooks|
    ensures SetBy(t, NamedAnchor(t, m, maxOverround, k), name) <==>
              && name in t.sharpBooks[k..] && Qualifies(t, m, name, maxOverround)
              && !Outranked(t, m, name, maxOverround, k)
    decreases |t.sharpBooks| - k
  {
    hide Qualifies, Outranked, GrossOdds, Lookup;
    if k < |t.sharpBooks| {
      var pref := t.sharpBooks[k];
      assert t.sharpBooks[k..] == [pref] + t.sharpBooks[k + 1..];
      if Qualifies(t, m, pref, maxOverround) {
        QualifiesPrices(t, m, pref, maxOverround);
        LookupNamesTheBook(t, m[0].quotes, pref);
        HeadOutranksOthers(t, m, name, maxOverround, k);
      } else {
        SetByExactly(t, m, maxOverround, k + 1, name);
        OutrankedLater(t, m, name, maxOverround, k);
      }
    } else {
      NoneOutranks(t, m, name, maxOverround);
    }
  }

  lemma NoneOutranks(t: Tables, m: Market, name: string, maxOverround: real)
    ensures !Outranked(t, m, name, maxOverround, |t.sharpBooks|)
  {
  }

  lemma HeadOutranksOthers(t: Tables, m: Market, name: string, maxOverround: real, k: nat)
    requires k < |t.sharpBooks| && Qualifies(t, m, t.sharpBooks[k], maxOverround)
    ensures Outranked(t, m, name, maxOverround, k) <==> name != t.sharpBooks[k]
  {
    hide Qualifies;
    NothingAheadOfHead(t, k);
    assert Ahead(t, name, k, k) <==> name != t.sharpBooks[k];
  }

  lemma LookupNamesTheBook(t: Tables, quotes: seq<Quote>, name: string)
    ensures Lookup(t, quotes, name).Some? ==> t.norm(Lookup(t, quotes, name).value.book) == name
  {
  }

  lemma NothingAheadOfHead(t: Tables, k: nat)
    requires k < |t.sharpBooks|
    ensures forall j :: k <= j < |t.sharpBooks| ==> !Ahead(t, t.sharpBooks[k], k, j)
  {
    forall j | k <= j < |t.sharpBooks| ensures !Ahead(t, t.sharpBooks[k], k, j) {
      assert t.sharpBooks[k..j + 1][0] == t.sharpBooks[k];
    }
  }

  lemma OutrankedLater(t: Tables, m: Market, name: string, maxOverround: real, k: nat)
    requires k < |t.sharpBooks| && !Qualifies(t, m, t.sharpBooks[k], maxOverround)
    ensures name != t.sharpBooks[k] ==>
              Outranked(t, m, name, maxOverround, k) == Outranked(t, m, name, maxOverround, k + 1)
    ensures name == t.sharpBooks[k] ==> !Outranked(t, m, name, maxOverround, k)
  {
    hide Qualifies;
    NothingAheadOfHead(t, k);
    forall j | k < j < |t.sharpBooks|
      ensures Ahead(t, name, k, j) <==> name != t.sharpBooks[k] && Ahead(t, name, k + 1, j)
    {
      assert t.sharpBooks[k..j + 1] == [t.sharpBooks[k]] + t.sharpBooks[k + 1..j + 1];
    }
  }

  /** A book's rivals do not see the second spelling. */
  lemma SameRivals(t: Tables, m: Market, i: nat, at: nat, q: Quote, maxOverround: real)
    requires i < |m| && at <= |m[i].quotes| && Respells(t, m[i].quotes, q)
    ensures var name := t.norm(q.book);
            Outranked(t, WithQuote(m, i, at, q), name, maxOverround, 0) == Outranked(t, m, name, maxOverround, 0)
  {
    hide Qualifies, Respells;
    var name := t.norm(q.book);
    forall j | 0 <= j < |t.sharpBooks| && Ahead(t, name, 0, j)
      ensures Qualifies(t, WithQuote(m, i, at, q), t.sharpBooks[j], maxOverround)
           == Qualifies(t, m, t.sharpBooks[j], maxOverround)
    {
      assert t.sharpBooks[0..j + 1][j] == t.sharpBooks[j];
      OtherLinesSame(t, m, i, at, q, t.sharpBooks[j]);
      SameLineQualifies(t, m, WithQuote(m, i, at, q), t.sharpBooks[j], maxOverround);
    }
  }

  /** The exact condition: a second spelling keeps the anchor iff the market is too small for one; or it does not
      come before the first spelling of a preferred sharp book; or it repeats its price on a selection other than
      the first; or a preferred book ahead of that one qualifies; or that book qualifies neither without nor with
      the second spelling. */
  lemma SecondSpellingDecidesTheAnchor(t: Tables, m: Market, i: nat, at: nat, q: Quote, maxOverround: real)
    requires t.Valid() && i < |m| && at <= |m[i].quotes| && Respells(t, m[i].quotes, q)
    ensures var m' := WithQuote(m, i, at, q);
            var name := t.norm(q.book);
            Lookup(t, m[i].quotes, name).Some?
            && (ChooseAnchor(t, m', maxOverround) == ChooseAnchor(t, m, maxOverround) <==>
                  || |m| < 2
                  || Late(t, m[i].quotes, at, q)
                  || (i != 0 && q.odds == Lookup(t, m[i].quotes, name).value.odds)
                  || Outranked(t, m, name, maxOverround, 0)
                  || !(Qualifies(t, m, name, maxOverround) || Qualifies(t, m', name, maxOverround)))
  {
    hide Qualifies, Outranked, ChooseAnchor, NamedAnchor, Respells;
    var m' := WithQuote(m, i, at, q);
    var name := t.norm(q.book);
    AnchorStaysUnlessSet(t, m, i, at, q, maxOverround);
    SetByExactly(t, m, maxOverround, 0, name);
    SetByExactly(t, m', maxOverround, 0, name);
    SameRivals(t, m, i, at, q, maxOverround);
    OnlyNamedIsSet(t, m, maxOverround, name);
    OnlyNamedIsSet(t, m', maxOverround, name);
    assert t.sharpBooks[0..] == t.sharpBooks;
  }

  lemma OnlyNamedIsSet(t: Tables, m: Market, maxOverround: real, name: string)
    ensures SetBy(t, ChooseAnchor(t, m, maxOverround), name) <==>
              |m| >= 2 && SetBy(t, NamedAnchor(t, m, maxOverround, 0), name)
  {
    hide NamedAnchor, ConsensusAnchor;
  }

  lemma AnchorStaysUnlessSet(t: Tables, m: Market, i: nat, at: nat, q: Quote, maxOverround: real)
    requires t.Valid() && i < |m| && at <= |m[i].quotes| && Respells(t, m[i].quotes, q)
    ensures var m' := WithQuote(m, i, at, q);
            var name := t.norm(q.book);
            Lookup(t, m[i].quotes, name).Some?
            && (ChooseAnchor(t, m', maxOverround) == ChooseAnchor(t, m, maxOverround) <==>
                  || Late(t, m[i].quotes, at, q)
                  || (i != 0 && q.odds == Lookup(t, m[i].quotes, name).value.odds)
                  || !(SetBy(t, ChooseAnchor(t, m, maxOverround), name)
                     || SetBy(t, ChooseAnchor(t, m', maxOverround), name)))
  {
    hide EffectiveOdds, Qualifies, ConsensusAnchor, NamedAnchor, Respells;
    var m' := WithQuote(m, i, at, q);
    var name := t.norm(q.book);
    RespelledIsListed(t, m[i].quotes, q);
    SecondSpellingChangesNoConsensus(t, m, i, at, q, maxOverround);
    forall x | x in t.sharpBooks && x != name ensures SameLine(t, m, m', x) { OtherLinesSame(t, m, i, at, q, x); }
    var now, then' := NamedAnchor(t, m, maxOverround, 0), NamedAnchor(t, m', maxOverround, 0);
    if !t.Sharp(q.book) {
      NamedIsPreferred(t, m, maxOverround, name);
      NamedIsPreferred(t, m', maxOverround, name);
      SameNamed(t, m, m', maxOverround, 0, name);
    } else if Late(t, m[i].quotes, at, q) || (i != 0 && q.odds == Lookup(t, m[i].quotes, name).value.odds) {
      OtherLinesSame(t, m, i, at, q, name);
      SameNamed(t, m, m', maxOverround, 0, name);
    } else if !SetBy(t, now, name) && !SetBy(t, then', name) {
      SameNamed(t, m, m', maxOverround, 0, name);
    } else {
      EarlySpellingShows(t, m, i, at, q, maxOverround);
    }
  }

  lemma RespelledIsListed(t: Tables, quotes: seq<Quote>, q: Quote)
    requires Respells(t, quotes, q)
    ensures Lookup(t, quotes, t.norm(q.book)).Some? && Lookup(t, quotes, t.norm(q.book)).value.book != q.book
  {
  }

  lemma NamedIsPreferred(t: Tables, m: Market, maxOverround: real, name: string)
    requires t.Valid() && m != [] && name !in t.sharpBooks
    ensures !SetBy(t, NamedAnchor(t, m, maxOverround, 0), name)
  {
    NamedAnchorIsSharp(t, m, maxOverround, 0);
  }

  lemma EarlySpellingShows(t: Tables, m: Market, i: nat, at: nat, q: Quote, maxOverround: real)
    requires i < |m| && at <= |m[i].quotes| && Respells(t, m[i].quotes, q) && !Late(t, m[i].quotes, at, q)
    requires Lookup(t, m[i].quotes, t.norm(q.book)).Some?
    requires i == 0 || q.odds != Lookup(t, m[i].quotes, t.norm(q.book)).value.odds
    requires SetBy(t, NamedAnchor(t, m, maxOverround, 0), t.norm(q.book))
             || SetBy(t, NamedAnchor(t, WithQuote(m, i, at, q), maxOverround, 0), t.norm(q.book))
    ensures NamedAnchor(t, WithQuote(m, i, at, q), maxOverround, 0) != NamedAnchor(t, m, maxOverround, 0)
  {
    hide EffectiveOdds, NamedAnchor, Qualifies;
    var m' := WithQuote(m, i, at, q);
    var name := t.norm(q.book);
    RespelledIsListed(t, m[i].quotes, q);
    InsertedLookup(t, m[i].quotes, at, q, name);
    if SetBy(t, NamedAnchor(t, m, maxOverround, 0), name) && SetBy(t, NamedAnchor(t, m', maxOverround, 0), name) {
      SetByMeans(t, m, maxOverround, 0, name);
      SetByMeans(t, m', maxOverround, 0, name);
      assert GrossOdds(t, m', name)[i] == q.odds;
      assert GrossOdds(t, m, name)[i] == Lookup(t, m[i].quotes, name).value.odds;
    }
  }

  /** An input on which it shows: a lower-case repeat in front of the sharp book's own line becomes the anchor. */
  lemma EarlySpellingExample(norm: string -> string)
    requires norm("Pinnacle") == "pinnacle" == norm("pinnacle")
    ensures var t := Tables(norm, ExchangeCommission(), SharpBooks());
            var m := [SelectionQuotes("home", [Quote("Pinnacle", 2.0)]),
              SelectionQuotes("away", [Quote("Pinnacle", 2.0)])];
            && Respells(t, m[0].quotes, Quote("pinnacle", 1.9))
            && ChooseAnchor(t, m, 0.1) == Some(Anchor("Pinnacle", [2.0, 2.0], true))
            && ChooseAnchor(t, WithQuote(m, 0, 0, Quote("pinnacle", 1.9)), 0.1)
               == Some(Anchor("pinnacle", [1.9, 2.0], true))
  {
    var t := Tables(norm, ExchangeCommission(), SharpBooks());
    var own, repeat := Quote("Pinnacle", 2.0), Quote("pinnacle", 1.9);
    var m := [SelectionQuotes("home", [own]), SelectionQuotes("away", [own])];
    var m' := WithQuote(m, 0, 0, repeat);
    assert "Pinnacle"[0] != "pinnacle"[0];
    assert own in m[0].quotes;
    assert Inserted([own], 0, repeat) == [repeat, own];
    PinnacleIsFree(t);
    LineQualifies(t, m, [own.odds, own.odds]);
    LineQualifies(t, m', [repeat.odds, own.odds]);
    assert t.sharpBooks[0] == "pinnacle";
  }

  lemma PinnacleIsFree(t: Tables)
    requires t.commission == ExchangeCommission() && t.norm("pinnacle") == "pinnacle"
    ensures t.Commission("pinnacle") == 0.0
  {
    assert |"pinnacle"| == 8 && |"betfair exchange"| == 16 && |"betfair"| == 7 && |"matchbook"| == 9;
    assert "smarkets"[0] != "pinnacle"[0];
  }

  lemma LineQualifies(t: Tables, m: Market, odds: seq<real>)
    requires t.Commission("pinnacle") == 0.0
    requires |m| == 2 == |odds| && forall k :: 0 <= k < 2 ==>
               Lookup(t, m[k].quotes, "pinnacle").Some? && Lookup(t, m[k].quotes, "pinnacle").value.odds == odds[k]
    requires odds == [2.0, 2.0] || odds == [1.9, 2.0]
    ensures Qualifies(t, m, "pinnacle", 0.1) && GrossOdds(t, m, "pinnacle") == odds
  {
    var net := NetOdds(t, m, "pinnacle");
    assert net == odds;
    assert odds[1..] == [2.0] && odds[1..][1..] == [];
    assert Sum(Inverse, odds) == Inverse(odds[0]) + (Inverse(2.0) + Sum(Inverse, []));
    assert 1.0 / 1.9 == 10.0 / 19.0;
  }

  // ---- the bets ----

  /** The repeat becomes the best quote: strictly better than what precedes it, at least as good as the rest. */
  ghost predicate TakesOver(t: Tables, eligible: Quote -> bool, quotes: seq<Quote>, at: nat, q: Quote)
    requires at <= |quotes|
  {
    && eligible(q)
    && (forall x :: x in quotes && eligible(x) ==> Net(t)(x) <= Net(t)(q))
    && (forall x :: x in quotes[..at] && eligible(x) ==> Net(t)(x) < Net(t)(q))
  }

  lemma BestSnoc(t: Tables, eligible: Quote -> bool, s: seq<Quote>, x: Quote)
    ensures var best := Best(t, eligible, s);
            Best(t, eligible, s + [x]) ==
            if eligible(x) && (best.None? || Net(t)(x) > Net(t)(best.value)) then Some(x) else best
  {
    hide EffectiveOdds;
    assert (s + [x])[..|s|] == s;
  }

  lemma {:induction false} InsertedBest(t: Tables, eligible: Quote -> bool, quotes: seq<Quote>, at: nat, q: Quote)
    requires at <= |quotes|
    ensures Best(t, eligible, Inserted(quotes, at, q)) ==
            if TakesOver(t, eligible, quotes, at, q) then Some(q) else Best(t, eligible, quotes)
  {
    hide EffectiveOdds, Best;
    if at == |quotes| {
      assert Inserted(quotes, at, q) == quotes + [q] && quotes[..at] == quotes;
      BestIsBest(t, eligible, quotes);
      BestSnoc(t, eligible, quotes, q);
    } else {
      var n := |quotes| - 1;
      var init, last := quotes[..n], quotes[n];
      InsertedBest(t, eligible, init, at, q);
      assert Inserted(quotes, at, q) == Inserted(init, at, q) + [last];
      assert init[..at] == quotes[..at] && quotes == init + [last];
      BestIsBest(t, eligible, init);
      BestSnoc(t, eligible, init, last);
      BestSnoc(t, eligible, Inserted(init, at, q), last);
      LastTakesOver(t, eligible, init, last, at, q);
      hide TakesOver, Inserted;
    }
  }

  lemma LastTakesOver(t: Tables, eligible: Quote -> bool, init: seq<Quote>, last: Quote, at: nat, q: Quote)
    requires at <= |init|
    ensures TakesOver(t, eligible, init + [last], at, q) <==>
              TakesOver(t, eligible, init, at, q) && (eligible(last) ==> Net(t)(last) <= Net(t)(q))
    ensures TakesOver(t, eligible, init, at, q) ==> eligible(q) && forall x :: x in init && eligible(x) ==>
            Net(t)(x) <= Net(t)(q)
  {
    hide EffectiveOdds;
    assert (init + [last])[..at] == init[..at];
  }

  /** The same bet, but for which of equally good quotes it names. */
  predicate SameValue(a: ValueBet, b: ValueBet) {
    && a.selection == b.selection && a.effective == b.effective && a.anchor == b.anchor
    && a.fair == b.fair && a.implied == b.implied && a.edge == b.edge && a.ev == b.ev
  }

  lemma RespellingKeepsBet(
    t: Tables, limits: Limits, fair: seq<FairValue>, anchor: string, s: SelectionQuotes, at: nat, q: Quote)
    requires t.Valid() && at <= |s.quotes| && Respells(t, s.quotes, q)
    ensures var a := BetOn(t, limits, fair, anchor, SelectionQuotes(s.selection, Inserted(s.quotes, at, q)));
            var b := BetOn(t, limits, fair, anchor, s);
            && a.Some? == b.Some?
            && (a.Some? ==> SameValue(a.value, b.value))
            && (!TakesOver(t, Takeable(t, anchor), s.quotes, at, q) ==> a == b)
            && (a.Some? && TakesOver(t, Takeable(t, anchor), s.quotes, at, q) ==> a.value.book == q.book)
            && (b.Some? ==> b.value.book != q.book)
  {
    hide EffectiveOdds, Ev, EdgeOf;
    var eligible := Takeable(t, anchor);
    var q0 :| q0 in s.quotes && t.norm(q0.book) == t.norm(q.book) && 1.0 < q.odds <= q0.odds;
    SameBookOrder(t, q, q0);
    InsertedBest(t, eligible, s.quotes, at, q);
    BestIsBest(t, eligible, s.quotes);
  }

  lemma {:induction false} PairedBets(
    t: Tables, limits: Limits, fair: seq<FairValue>, anchor: string, m: Market, m': Market)
    requires |m| == |m'| && forall k :: 0 <= k < |m| ==>
               var a, b := BetOn(t, limits, fair, anchor, m'[k]), BetOn(t, limits, fair, anchor, m[k]);
               a.Some? == b.Some? && (a.Some? ==> SameValue(a.value, b.value))
    ensures StableSort.Pairwise(SameValue, Bets(t, limits, fair, anchor, m'), Bets(t, limits, fair, anchor, m))
    ensures (forall k :: 0 <= k < |m| ==> BetOn(t, limits, fair, anchor, m'[k]) == BetOn(t, limits, fair, anchor, m[k]))
              ==> Bets(t, limits, fair, anchor, m') == Bets(t, limits, fair, anchor, m)
  {
    hide BetOn;
    if m != [] {
      var a, b := m[..|m| - 1], m'[..|m| - 1];
      assert forall k :: 0 <= k < |a| ==> a[k] == m[k] && b[k] == m'[k];
      PairedBets(t, limits, fair, anchor, a, b);
    }
  }

  lemma WithQuoteBets(
    t: Tables, limits: Limits, fair: seq<FairValue>, anchor: string, m: Market, i: nat, at: nat, q: Quote)
    requires t.Valid() && i < |m| && at <= |m[i].quotes| && Respells(t, m[i].quotes, q)
    ensures StableSort.Pairwise(SameValue, Bets(t, limits, fair, anchor, WithQuote(m, i, at, q)),
            Bets(t, limits, fair, anchor, m))
    ensures !TakesOver(t, Takeable(t, anchor), m[i].quotes, at, q) ==>
              Bets(t, limits, fair, anchor, WithQuote(m, i, at, q)) == Bets(t, limits, fair, anchor, m)
  {
    hide BetOn;
    RespellingKeepsBet(t, limits, fair, anchor, m[i], at, q);
    PairedBets(t, limits, fair, anchor, m, WithQuote(m, i, at, q));
  }

  /** Wherever a second spelling is listed, the scan finds the same bets at the same net prices, edges and
      expectations in the same order; it is the very same list iff the guard fails, or the repeat is not the first
      of the best quotes of its selection, or that selection is not bet. */
  lemma SecondSpellingChangesNoBet(
    t: Tables, limits: Limits, fair: seq<FairValue>, anchor: string, m: Market, tolerance: real, i: nat, at: nat,
    q: Quote)
    requires t.Valid() && i < |m| && at <= |m[i].quotes| && Respells(t, m[i].quotes, q) && DistinctSelections(m)
    ensures var after, before := Scan(t, limits, fair, anchor, WithQuote(m, i, at, q), tolerance),
            Scan(t, limits, fair, anchor, m, tolerance);
            && StableSort.Pairwise(SameValue, after, before)
            && (after == before <==>
                  || Disagrees(t, m, fair, tolerance)
                  || !TakesOver(t, Takeable(t, anchor), m[i].quotes, at, q)
                  || BetOn(t, limits, fair, anchor, m[i]).None?)
  {
    hide EffectiveOdds, Disagrees, TakesOver, Bets, BetOn, Reference, ImpliedMedians;
    var m' := WithQuote(m, i, at, q);
    SameGuard(t, m, i, at, q, fair, tolerance);
    WithQuoteBets(t, limits, fair, anchor, m, i, at, q);
    StableSort.SortPairwise(LongerEdge, SameValue, Bets(t, limits, fair, anchor, m'), Bets(t, limits, fair, anchor, m));
    var after, before := Scan(t, limits, fair, anchor, m', tolerance), Scan(t, limits, fair, anchor, m, tolerance);
    var bet := BetOn(t, limits, fair, anchor, m[i]);
    if !Disagrees(t, m, fair, tolerance) && TakesOver(t, Takeable(t, anchor), m[i].quotes, at, q) {
      if bet.Some? {
        BetIsScanned(t, limits, fair, anchor, m, tolerance, i);
        RepeatIsNamed(t, limits, fair, anchor, m, i, at, q, tolerance, bet.value);
      } else {
        NoBetNoChange(t, limits, fair, anchor, m, i, at, q);
      }
    }
  }

  lemma BetIsScanned(
    t: Tables, limits: Limits, fair: seq<FairValue>, anchor: string, m: Market, tolerance: real, i: nat)
    requires i < |m| && !Disagrees(t, m, fair, tolerance) && BetOn(t, limits, fair, anchor, m[i]).Some?
    ensures var b := BetOn(t, limits, fair, anchor, m[i]).value;
            b in Scan(t, limits, fair, anchor, m, tolerance) && b.selection == m[i].selection
  {
    hide EffectiveOdds, Disagrees, Ev, EdgeOf;
    var b := BetOn(t, limits, fair, anchor, m[i]).value;
    BetsComeFromSelections(t, limits, fair, anchor, m, b);
    StableSort.SortMembers(LongerEdge, Bets(t, limits, fair, anchor, m), b);
  }

  lemma SameGuard(t: Tables, m: Market, i: nat, at: nat, q: Quote, fair: seq<FairValue>, tolerance: real)
    requires t.Valid() && i < |m| && at <= |m[i].quotes| && Respells(t, m[i].quotes, q) && DistinctSelections(m)
    ensures Disagrees(t, WithQuote(m, i, at, q), fair, tolerance) == Disagrees(t, m, fair, tolerance)
  {
    SecondSpellingChangesNoReference(t, m, i, at, q, fair);
  }

  /** A scanned bet comes from its own selection. */
  lemma BetOfSelection(
    t: Tables, limits: Limits, fair: seq<FairValue>, anchor: string, m: Market, tolerance: real, i: nat, b: ValueBet)
    requires i < |m| && DistinctSelections(m) && b in Scan(t, limits, fair, anchor, m, tolerance)
             && b.selection == m[i].selection
    ensures BetOn(t, limits, fair, anchor, m[i]) == Some(b)
  {
    hide EffectiveOdds, Ev, EdgeOf, Disagrees;
    StableSort.SortMembers(LongerEdge, Bets(t, limits, fair, anchor, m), b);
    BetsComeFromSelections(t, limits, fair, anchor, m, b);
    var k :| 0 <= k < |m| && BetOn(t, limits, fair, anchor, m[k]) == Some(b);
  }

  lemma RepeatIsNamed(
    t: Tables, limits: Limits, fair: seq<FairValue>, anchor: string, m: Market, i: nat, at: nat, q: Quote,
    tolerance: real, b: ValueBet)
    requires t.Valid() && i < |m| && at <= |m[i].quotes| && Respells(t, m[i].quotes, q) && DistinctSelections(m)
    requires b in Scan(t, limits, fair, anchor, m, tolerance) && b.selection == m[i].selection
    requires TakesOver(t, Takeable(t, anchor), m[i].quotes, at, q)
    ensures Scan(t, limits, fair, anchor, WithQuote(m, i, at, q), tolerance) != Scan(t, limits, fair, anchor, m,
            tolerance)
  {
    hide EffectiveOdds, Disagrees, TakesOver, Scan, BetOn;
    RespellingKeepsBet(t, limits, fair, anchor, m[i], at, q);
    BetOfSelection(t, limits, fair, anchor, m, tolerance, i, b);
    var m' := WithQuote(m, i, at, q);
    if Scan(t, limits, fair, anchor, m', tolerance) == Scan(t, limits, fair, anchor, m, tolerance) {
      BetOfSelection(t, limits, fair, anchor, m', tolerance, i, b);
      assert false;
    }
  }

  lemma NoBetNoChange(
    t: Tables, limits: Limits, fair: seq<FairValue>, anchor: string, m: Market, i: nat, at: nat, q: Quote)
    requires t.Valid() && i < |m| && at <= |m[i].quotes| && Respells(t, m[i].quotes, q)
    requires BetOn(t, limits, fair, anchor, m[i]).None?
    ensures Bets(t, limits, fair, anchor, WithQuote(m, i, at, q)) == Bets(t, limits, fair, anchor, m)
  {
    hide BetOn;
    RespellingKeepsBet(t, limits, fair, anchor, m[i], at, q);
    PairedBets(t, limits, fair, anchor, m, WithQuote(m, i, at, q));
  }
}
