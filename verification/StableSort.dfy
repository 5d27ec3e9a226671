/** The stable ordering of Python's sorted/list.sort: equal elements keep their input order. */
module StableSort {
  import opened Prelude

  ghost predicate Transitive<T(!new)>(le: (T, T) -> bool) {
    forall x, y, z :: le(x, y) && le(y, z) ==> le(x, z)
  }

  ghost predicate TotalPreorder<T(!new)>(le: (T, T) -> bool) {
    Transitive(le) && forall x, y :: le(x, y) || le(y, x)
  }

  ghost predicate Ordered<T>(le: (T, T) -> bool, s: seq<T>) {
    forall i, j :: 0 <= i < j < |s| ==> le(s[i], s[j])
  }

  function Insert<T>(le: (T, T) -> bool, x: T, s: seq<T>): (r: seq<T>)
    ensures |r| == |s| + 1
  {
    if s == [] || le(x, s[0]) then [x] + s else [s[0]] + Insert(le, x, s[1..])
  }

  function Sort<T>(le: (T, T) -> bool, s: seq<T>): (r: seq<T>)
    ensures |r| == |s|
  {
    if s == [] then [] else Insert(le, s[0], Sort(le, s[1..]))
  }

  lemma {:induction false} InsertElements<T>(le: (T, T) -> bool, x: T, s: seq<T>)
    ensures multiset(Insert(le, x, s)) == multiset(s) + multiset{x}
  {
    if s != [] && !le(x, s[0]) {
      assert s == [s[0]] + s[1..];
      InsertElements(le, x, s[1..]);
    }
  }

  /** A sort loses and invents nothing. */
  lemma {:induction false} SortElements<T>(le: (T, T) -> bool, s: seq<T>)
    ensures multiset(Sort(le, s)) == multiset(s)
  {
    if s != [] {
      assert s == [s[0]] + s[1..];
      SortElements(le, s[1..]);
      InsertElements(le, s[0], Sort(le, s[1..]));
    }
  }

  lemma SortMembers<T>(le: (T, T) -> bool, s: seq<T>, x: T)
    ensures x in Sort(le, s) <==> x in s
  {
    SortElements(le, s);
    assert x in multiset(s) <==> x in s;
    assert x in multiset(Sort(le, s)) <==> x in Sort(le, s);
  }

  lemma {:induction false} InsertOrdered<T(!new)>(le: (T, T) -> bool, x: T, s: seq<T>)
    requires TotalPreorder(le) && Ordered(le, s)
    ensures Ordered(le, Insert(le, x, s))
  {
    if s == [] || le(x, s[0]) {
    } else {
      InsertOrdered(le, x, s[1..]);
      var t := Insert(le, x, s[1..]);
      forall j | 0 <= j < |t| ensures le(s[0], t[j]) {
        InsertElements(le, x, s[1..]);
        assert t[j] in multiset(t);
      }
    }
  }

  lemma {:induction false} SortOrdered<T(!new)>(le: (T, T) -> bool, s: seq<T>)
    requires TotalPreorder(le)
    ensures Ordered(le, Sort(le, s))
  {
    if s != [] {
      SortOrdered(le, s[1..]);
      InsertOrdered(le, s[0], Sort(le, s[1..]));
    }
  }

  /** Sorting an already ordered list changes nothing (stability). */
  lemma {:induction false} SortFixesOrdered<T>(le: (T, T) -> bool, s: seq<T>)
    requires Ordered(le, s)
    ensures Sort(le, s) == s
  {
    if s != [] {
      SortFixesOrdered(le, s[1..]);
      if |s| > 1 {
        assert le(s[0], s[1]);
      }
    }
  }

  lemma {:induction false} InsertFilterKept<T(!new)>(le: (T, T) -> bool, p: T -> bool, x: T, s: seq<T>)
    requires Transitive(le) && Ordered(le, s) && p(x)
    ensures Filter(p, Insert(le, x, s)) == Insert(le, x, Filter(p, s))
  {
    if s == [] {
    } else if le(x, s[0]) {
      AheadOfFilter(le, p, x, s);
      assert ([x] + s)[1..] == s;
    } else {
      var r := Insert(le, x, s[1..]);
      assert ([s[0]] + r)[1..] == r;
      InsertFilterKept(le, p, x, s[1..]);
    }
  }

  /** What may go ahead of an ordered list may go ahead of what is kept of it. */
  lemma {:induction false} AheadOfFilter<T(!new)>(le: (T, T) -> bool, p: T -> bool, x: T, s: seq<T>)
    requires Transitive(le) && Ordered(le, s) && s != [] && le(x, s[0])
    ensures var f := Filter(p, s); f == [] || le(x, f[0])
  {
    if !p(s[0]) && |s| > 1 {
      assert le(s[0], s[1]);
      AheadOfFilter(le, p, x, s[1..]);
    }
  }

  lemma {:induction false} InsertFilterDropped<T(!new)>(le: (T, T) -> bool, p: T -> bool, x: T, s: seq<T>)
    requires !p(x)
    ensures Filter(p, Insert(le, x, s)) == Filter(p, s)
  {
    if s == [] || le(x, s[0]) {
      assert ([x] + s)[1..] == s;
    } else {
      var r := Insert(le, x, s[1..]);
      assert ([s[0]] + r)[1..] == r;
      InsertFilterDropped(le, p, x, s[1..]);
    }
  }

  /** Dropping rows before or after a stable sort is the same. */
  lemma {:induction false} SortFilter<T(!new)>(le: (T, T) -> bool, p: T -> bool, s: seq<T>)
    requires TotalPreorder(le)
    ensures Filter(p, Sort(le, s)) == Sort(le, Filter(p, s))
  {
    if s != [] {
      var x, rest := s[0], s[1..];
      SortFilter(le, p, rest);
      if p(x) {
        SortOrdered(le, rest);
        InsertFilterKept(le, p, x, Sort(le, rest));
        assert ([x] + Filter(p, rest))[1..] == Filter(p, rest);
      } else {
        InsertFilterDropped(le, p, x, Sort(le, rest));
      }
    }
  }

  /** Rows of two lists are related pairwise. */
  ghost predicate Pairwise<T>(rel: (T, T) -> bool, a: seq<T>, b: seq<T>) {
    |a| == |b| && forall i :: 0 <= i < |a| ==> rel(a[i], b[i])
  }

  lemma {:induction false} InsertPairwise<T(!new)>(
    le: (T, T) -> bool, rel: (T, T) -> bool, x: T, y: T, a: seq<T>, b: seq<T>)
    requires forall p, q, r, s :: rel(p, q) && rel(r, s) ==> le(p, r) == le(q, s)
    requires rel(x, y) && Pairwise(rel, a, b)
    ensures Pairwise(rel, Insert(le, x, a), Insert(le, y, b))
  {
    if a != [] && !le(x, a[0]) {
      InsertPairwise(le, rel, x, y, a[1..], b[1..]);
    }
  }

  /** A relation that the order cannot tell apart survives sorting. */
  lemma {:induction false} SortPairwise<T(!new)>(le: (T, T) -> bool, rel: (T, T) -> bool, a: seq<T>, b: seq<T>)
    requires forall p, q, r, s :: rel(p, q) && rel(r, s) ==> le(p, r) == le(q, s)
    requires Pairwise(rel, a, b)
    ensures Pairwise(rel, Sort(le, a), Sort(le, b))
  {
    if a != [] {
      SortPairwise(le, rel, a[1..], b[1..]);
      InsertPairwise(le, rel, a[0], b[0], Sort(le, a[1..]), Sort(le, b[1..]));
    }
  }

  lemma HeadIsLeast<T(!new)>(le: (T, T) -> bool, a: seq<T>, x: T)
    requires TotalPreorder(le) && Ordered(le, a) && x in multiset(a)
    ensures le(a[0], x)
  {
    var k :| 0 <= k < |a| && a[k] == x;
    if k == 0 {
      assert le(x, x) || le(x, x);
    } else {
      assert le(a[0], a[k]);
    }
  }

  lemma TailElements<T>(a: seq<T>)
    requires a != []
    ensures multiset(a[1..]) == multiset(a) - multiset{a[0]}
  {
    assert a == [a[0]] + a[1..];
  }

  /** The order never ties two different elements of `a`. */
  ghost predicate NoTies<T>(le: (T, T) -> bool, a: seq<T>) {
    forall i, j :: 0 <= i < |a| && 0 <= j < |a| && le(a[i], a[j]) && le(a[j], a[i]) ==> a[i] == a[j]
  }

  /** Without ties an ordered list is determined by its elements. */
  lemma {:induction false} OrderedUnique<T(!new)>(le: (T, T) -> bool, a: seq<T>, b: seq<T>)
    requires TotalPreorder(le) && Ordered(le, a) && Ordered(le, b)
    requires multiset(a) == multiset(b)
    requires NoTies(le, a)
    ensures a == b
  {
    assert |a| == |multiset(a)| == |multiset(b)| == |b|;
    if a != [] {
      assert a[0] in multiset(a) && b[0] in multiset(b);
      HeadIsLeast(le, a, b[0]);
      HeadIsLeast(le, b, a[0]);
      var k :| 0 <= k < |a| && a[k] == b[0];
      assert a[0] == b[0];
      TailElements(a);
      TailElements(b);
      assert NoTies(le, a[1..]) by {
        forall i, j | 0 <= i < |a| - 1 && 0 <= j < |a| - 1 && le(a[1..][i], a[1..][j]) && le(a[1..][j], a[1..][i])
          ensures a[1..][i] == a[1..][j]
        {
          assert le(a[i + 1], a[j + 1]) && le(a[j + 1], a[i + 1]);
        }
      }
      OrderedUnique(le, a[1..], b[1..]);
      assert a == [a[0]] + a[1..] && b == [b[0]] + b[1..];
    }
  }

  /** Without ties, sorting forgets the input order. */
  lemma SortForgetsOrder<T(!new)>(le: (T, T) -> bool, a: seq<T>, b: seq<T>)
    requires TotalPreorder(le) && multiset(a) == multiset(b) && NoTies(le, a)
    ensures Sort(le, a) == Sort(le, b)
  {
    SortElements(le, a);
    SortElements(le, b);
    SortOrdered(le, a);
    SortOrdered(le, b);
    var s := Sort(le, a);
    forall i, j | 0 <= i < |s| && 0 <= j < |s| && le(s[i], s[j]) && le(s[j], s[i]) ensures s[i] == s[j] {
      SortMembers(le, a, s[i]);
      SortMembers(le, a, s[j]);
      assert s[i] in a && s[j] in a;
    }
    OrderedUnique(le, s, Sort(le, b));
  }

  /** Two different elements that tie keep their order, when neither occurs twice. */
  lemma SortKeepsTies<T(!new)>(le: (T, T) -> bool, s: seq<T>, i: nat, j: nat, a: nat, b: nat)
    requires TotalPreorder(le) && i < j < |s| && le(s[i], s[j])
    requires forall k :: 0 <= k < |s| ==> (s[k] == s[i] ==> k == i) && (s[k] == s[j] ==> k == j)
    requires a < |Sort(le, s)| && b < |Sort(le, s)| && Sort(le, s)[a] == s[i] && Sort(le, s)[b] == s[j]
    ensures a < b
  {
    var x, y := s[i], s[j];
    var p := (z: T) => z == x || z == y;
    var t := Sort(le, s);
    SortFilter(le, p, s);
    PairLeft(p, s, i, j);
    assert Sort(le, [x, y]) == [x, y] by {
      assert [x, y][1..] == [y] && [y][1..] == [];
      assert Sort(le, [y]) == [y];
    }
    FilterAt(p, t, a);
    FilterAt(p, t, b);
    if b < a {
      FilterSnoc(p, t, b);
      assert t[..a] == t[..b + 1] + t[b + 1..a];
      FilterAppend(p, t[..b + 1], t[b + 1..a]);
    }
  }

  lemma {:induction false} PairLeft<T>(p: T -> bool, s: seq<T>, i: nat, j: nat)
    requires i < j < |s| && p(s[i]) && p(s[j]) && forall k :: 0 <= k < |s| && k != i && k != j ==> !p(s[k])
    ensures Filter(p, s) == [s[i], s[j]]
  {
    assert forall k :: 0 <= k < |s| - 1 ==> s[1..][k] == s[k + 1];
    if i > 0 {
      PairLeft(p, s[1..], i - 1, j - 1);
    } else {
      OneLeft(p, s[1..], j - 1);
    }
  }

  lemma {:induction false} OneLeft<T>(p: T -> bool, s: seq<T>, j: nat)
    requires j < |s| && p(s[j]) && forall k :: 0 <= k < |s| && k != j ==> !p(s[k])
    ensures Filter(p, s) == [s[j]]
  {
    assert forall k :: 0 <= k < |s| - 1 ==> s[1..][k] == s[k + 1];
    if j > 0 {
      OneLeft(p, s[1..], j - 1);
    } else {
      forall x | x in s[1..] ensures !p(x) {
        var k :| 0 <= k < |s[1..]| && s[1..][k] == x;
        assert s[k + 1] == x;
      }
      FilterNone(p, s[1..]);
    }
  }

  // ---- where every element comes from ----

  /** `at` lists the positions of a list of n in a new order. */
  ghost predicate Reorders(at: seq<nat>, n: nat) {
    && |at| == n && (forall x :: 0 <= x < n ==> at[x] < n)
    && (forall x, y :: 0 <= x < y < n ==> at[x] != at[y])
    && forall i: nat :: i < n ==> i in at
  }

  lemma {:induction false} InsertSpot<T>(le: (T, T) -> bool, x: T, s: seq<T>) returns (k: nat)
    ensures k <= |s| && Insert(le, x, s) == s[..k] + [x] + s[k..]
    ensures forall j :: 0 <= j < k ==> !le(x, s[j])
  {
    if s == [] || le(x, s[0]) {
      k := 0;
    } else {
      var j := InsertSpot(le, x, s[1..]);
      k := j + 1;
      assert s == [s[0]] + s[1..];
      assert s[..k] == [s[0]] + s[1..][..j] && s[k..] == s[1..][j..];
    }
  }

  /** Every position moves up by one, and position 0 goes in at k. */
  function Shifted(rest: seq<nat>, k: nat): (at: seq<nat>)
    requires k <= |rest|
    ensures |at| == |rest| + 1 && at[k] == 0
    ensures forall x :: 0 <= x < k ==> at[x] == rest[x] + 1
    ensures forall x :: k < x < |at| ==> at[x] == rest[x - 1] + 1
  {
    seq(|rest| + 1, x requires 0 <= x <= |rest| => if x < k then rest[x] + 1 else if x == k then 0 else rest[x - 1] + 1)
  }

  lemma ShiftedReorders(rest: seq<nat>, k: nat)
    requires k <= |rest| && Reorders(rest, |rest|)
    ensures Reorders(Shifted(rest, k), |rest| + 1)
  {
    var at := Shifted(rest, k);
    hide Shifted;
    forall i: nat | i <= |rest| ensures i in at {
      assert i == 0 || i - 1 in rest;
      ShiftedReaches(rest, k, i);
    }
  }

  lemma ShiftedReaches(rest: seq<nat>, k: nat, i: nat)
    requires k <= |rest| && (i == 0 || i - 1 in rest)
    ensures i in Shifted(rest, k)
  {
    var at := Shifted(rest, k);
    if i == 0 {
      assert at[k] in at;
    } else {
      var y :| 0 <= y < |rest| && rest[y] == i - 1;
      assert at[if y < k then y else y + 1] == i;
    }
  }

  lemma ShiftedValues<T>(head: T, tail: seq<T>, sorted: seq<T>, rest: seq<nat>, k: nat)
    requires k <= |rest| == |sorted| == |tail|
    requires forall x :: 0 <= x < |tail| ==> rest[x] < |tail| && sorted[x] == tail[rest[x]]
    ensures var s, t, at := [head] + tail, sorted[..k] + [head] + sorted[k..], Shifted(rest, k);
            forall x :: 0 <= x < |s| ==> at[x] < |s| && t[x] == s[at[x]]
  {
  }

  lemma ShiftedTies<T(!new)>(le: (T, T) -> bool, head: T, tail: seq<T>, rest: seq<nat>, k: nat, x: nat, y: nat)
    requires k <= |rest| == |tail| && x < y <= |tail| && forall z :: 0 <= z < |tail| ==> rest[z] < |tail|
    requires forall z :: 0 <= z < k ==> !le(head, tail[rest[z]])
    requires forall a, b :: 0 <= a < b < |tail| ==> rest[a] < rest[b] || !le(tail[rest[b]], tail[rest[a]])
    ensures var s, at := [head] + tail, Shifted(rest, k);
            at[x] < |s| && at[y] < |s| && (at[x] < at[y] || !le(s[at[y]], s[at[x]]))
  {
    var a, b := if x < k then x else x - 1, if y < k then y else y - 1;
    if x != k && y != k { assert rest[a] < rest[b] || !le(tail[rest[b]], tail[rest[a]]); }
  }

  /** A stable sort moves positions: an element goes before another either because it stood before it, or because
      that one may not go first. */
  lemma {:induction false} SortPositions<T(!new)>(le: (T, T) -> bool, s: seq<T>) returns (at: seq<nat>)
    ensures Reorders(at, |s|) && forall x :: 0 <= x < |s| ==> Sort(le, s)[x] == s[at[x]]
    ensures forall x, y :: 0 <= x < y < |s| ==> at[x] < at[y] || !le(s[at[y]], s[at[x]])
  {
    at := [];
    if s != [] {
      var head, tail := s[0], s[1..];
      var rest := SortPositions(le, tail);
      var k := InsertSpot(le, head, Sort(le, tail));
      ShiftedReorders(rest, k);
      assert forall x :: 0 <= x < |tail| ==> rest[x] < |tail|;
      assert forall z :: 0 <= z < k ==> !le(head, tail[rest[z]]);
      ShiftedValues(head, tail, Sort(le, tail), rest, k);
      at := Shifted(rest, k);
      assert s == [head] + tail;
      hide Reorders, Sort, Shifted;
      forall x, y | 0 <= x < y < |s| ensures at[x] < |s| && at[y] < |s| && (at[x] < at[y] || !le(s[at[y]], s[at[x]])) {
        ShiftedTies(le, head, tail, rest, k, x, y);
      }
    }
  }
}
