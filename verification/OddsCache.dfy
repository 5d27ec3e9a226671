/** The bounded cache of last-written odds and its sweep (app/pipeline.py, _sweep_odds_seen). */
module OddsCache {
  import opened Prelude
  import StableSort

  datatype Key = Key(event: string, bookmaker: string, market: string, selection: string)

  datatype Seen = Seen(odds: real, at: int)

  type Cache = map<Key, Seen>

  const ODDS_SEEN_TTL := 3 * 24 * 3600

  const ODDS_SEEN_MAX := 100_000

  // ---- the sweep ----

  function Stale(cache: Cache, now: int): set<Key> {
    set k | k in cache && cache[k].at < now - ODDS_SEEN_TTL
  }

  /** The sets of keys a sweep may evict: ties in age are broken by dictionary order, left open here. */
  ghost predicate SweepMayEvict(cache: Cache, now: int, maxSize: nat, evicted: set<Key>) {
    if |cache| <= maxSize then evicted == {}
    else
      var stale := Stale(cache, now);
      && stale <= evicted <= cache.Keys
      && (if |cache| - |stale| <= maxSize then evicted == stale else |cache| - |evicted| == maxSize)
      && forall e, k :: e in evicted && k in cache && k !in evicted ==> cache[e].at <= cache[k].at
  }

  lemma SweepEndsWithinCap(cache: Cache, now: int, maxSize: nat, evicted: set<Key>)
    requires SweepMayEvict(cache, now, maxSize, evicted)
    ensures |cache - evicted| <= maxSize
    ensures |cache| <= maxSize ==> cache - evicted == cache
    ensures forall e, k :: e in cache && e !in cache - evicted && k in cache - evicted ==> cache[e].at <= cache[k].at
  {
    RemovedSize(cache, evicted * cache.Keys);
    assert cache - evicted == cache - evicted * cache.Keys;
  }

  /** Over its cap the sweep drops every key not seen for three days, and recently seen ones only if those alone do
      not bring it back to the cap. */
  lemma SweepExactly(cache: Cache, now: int, maxSize: nat, evicted: set<Key>)
    requires SweepMayEvict(cache, now, maxSize, evicted) && |cache| > maxSize
    ensures forall k :: k in cache && now - cache[k].at > 259200 ==> k in evicted
    ensures (exists k :: k in evicted && k in cache && now - cache[k].at <= 259200) ==> |cache - evicted| == maxSize
  {
    RemovedSize(cache, evicted);
    if |cache| - |Stale(cache, now)| <= maxSize {
      assert forall k :: k in evicted ==> cache[k].at < now - ODDS_SEEN_TTL;
    }
  }

  lemma RemovedSize(cache: Cache, gone: set<Key>)
    requires gone <= cache.Keys
    ensures |cache - gone| == |cache| - |gone|
  {
    assert (cache - gone).Keys == cache.Keys - gone;
    assert |cache.Keys| == |cache| && |(cache - gone).Keys| == |cache - gone|;
  }

  // ---- choosing the oldest ----

  predicate OlderEntry(a: (Key, Seen), b: (Key, Seen)) { a.1.at <= b.1.at }

  ghost predicate AreOldest(cache: Cache, gone: set<Key>) {
    gone <= cache.Keys && forall e, k :: e in gone && k in cache && k !in gone ==> cache[e].at <= cache[k].at
  }

  /** A listing of the cache: every entry once, in any order. */
  ghost predicate Lists(cache: Cache, items: seq<(Key, Seen)>) {
    && |items| == |cache|
    && (forall i :: 0 <= i < |items| ==> items[i].0 in cache && items[i].1 == cache[items[i].0])
    && (forall i, j :: 0 <= i < j < |items| ==> items[i].0 != items[j].0)
    && (forall k :: k in cache ==> (k, cache[k]) in items)
  }

  method Items(cache: Cache) returns (items: seq<(Key, Seen)>)
    ensures Lists(cache, items)
  {
    items := [];
    var rest := cache.Keys;
    while rest != {}
      invariant rest <= cache.Keys && |items| + |rest| == |cache|
      invariant forall i :: 0 <= i < |items| ==>
                items[i].0 in cache && items[i].0 !in rest && items[i].1 == cache[items[i].0]
      invariant forall i, j :: 0 <= i < j < |items| ==> items[i].0 != items[j].0
      invariant forall k :: k in cache && k !in rest ==> (k, cache[k]) in items
      decreases rest
    {
      var k :| k in rest;
      rest := rest - {k};
      items := items + [(k, cache[k])];
    }
  }

  /** The `count` entries last seen longest ago: the head of the items sorted by last-seen time. */
  method OldestKeys(cache: Cache, count: nat) returns (gone: set<Key>)
    requires count <= |cache|
    ensures |gone| == count && AreOldest(cache, gone)
  {
    var items := Items(cache);
    var sorted := StableSort.Sort(OlderEntry, items);
    gone := {};
    for i := 0 to count
      invariant gone == Head(sorted, i)
    {
      gone := gone + {sorted[i].0};
    }
    SortedLists(cache, items);
    HeadIsOldest(cache, sorted, count);
  }

  function Head(items: seq<(Key, Seen)>, n: nat): set<Key>
    requires n <= |items|
  {
    set j | 0 <= j < n :: items[j].0
  }

  lemma SortedLists(cache: Cache, items: seq<(Key, Seen)>)
    requires Lists(cache, items)
    ensures Lists(cache, StableSort.Sort(OlderEntry, items))
    ensures StableSort.Ordered(OlderEntry, StableSort.Sort(OlderEntry, items))
  {
    var sorted := StableSort.Sort(OlderEntry, items);
    StableSort.SortElements(OlderEntry, items);
    StableSort.SortOrdered(OlderEntry, items);
    forall x ensures x in sorted <==> x in items {
      StableSort.SortMembers(OlderEntry, items, x);
    }
    forall i | 0 <= i < |sorted| ensures sorted[i].0 in cache && sorted[i].1 == cache[sorted[i].0] {
      assert sorted[i] in items;
    }
    NoRepeats(items);
    forall i, j | 0 <= i < j < |sorted| ensures sorted[i].0 != sorted[j].0 {
      if sorted[i].0 == sorted[j].0 {
        RepeatCounts(sorted, i, j);
        assert false;
      }
    }
  }

  lemma {:induction false} HeadSize(sorted: seq<(Key, Seen)>, n: nat)
    requires n <= |sorted| && forall i, j :: 0 <= i < j < |sorted| ==> sorted[i].0 != sorted[j].0
    ensures |Head(sorted, n)| == n
  {
    if n > 0 {
      HeadSize(sorted, n - 1);
      assert sorted[n - 1].0 !in Head(sorted, n - 1);
      assert Head(sorted, n) == Head(sorted, n - 1) + {sorted[n - 1].0};
    }
  }

  lemma HeadIsOldest(cache: Cache, sorted: seq<(Key, Seen)>, count: nat)
    requires Lists(cache, sorted) && StableSort.Ordered(OlderEntry, sorted) && count <= |sorted|
    ensures |Head(sorted, count)| == count && AreOldest(cache, Head(sorted, count))
  {
    HeadSize(sorted, count);
    var gone := Head(sorted, count);
    forall e, k | e in gone && e in cache && k in cache && k !in gone ensures cache[e].at <= cache[k].at {
      var x :| 0 <= x < count && sorted[x].0 == e;
      var y :| 0 <= y < |sorted| && sorted[y] == (k, cache[k]);
      assert OlderEntry(sorted[x], sorted[y]);
    }
  }

  lemma {:induction false} NoRepeats(items: seq<(Key, Seen)>)
    requires forall i, j :: 0 <= i < j < |items| ==> items[i].0 != items[j].0
    ensures forall x :: multiset(items)[x] <= 1
  {
    if items != [] {
      assert items == [items[0]] + items[1..];
      NoRepeats(items[1..]);
      assert items[0] !in items[1..];
    }
  }

  lemma RepeatCounts<T>(s: seq<T>, i: nat, j: nat)
    requires i < j < |s| && s[i] == s[j]
    ensures multiset(s)[s[i]] >= 2
  {
    assert s == s[..i] + [s[i]] + s[i + 1..j] + [s[j]] + s[j + 1..];
  }

  lemma OverflowIsOldest(cache: Cache, now: int, maxSize: nat, stale: set<Key>, gone: set<Key>)
    requires stale == Stale(cache, now) && |cache - stale| > maxSize
    requires AreOldest(cache - stale, gone) && |gone| == |cache - stale| - maxSize
    ensures SweepMayEvict(cache, now, maxSize, stale + gone)
    ensures cache - (stale + gone) == cache - stale - gone
  {
    RemovedSize(cache, stale);
    RemovedSize(cache, stale + gone);
    assert |stale + gone| == |stale| + |gone|;
    var rest := cache - stale;
    forall e, k | e in stale + gone && k in cache && k !in stale + gone ensures cache[e].at <= cache[k].at {
      assert k in rest && k !in gone;
      if e !in stale {
        assert e in gone && rest[e].at <= rest[k].at;
      }
    }
  }
}
