/** Small generic vocabulary shared by the model: optional values, filtering and real sums. */
module Prelude {

  datatype Option<+T> = None | Some(value: T)

  /** The elements of `s` that satisfy `p`, in order. */
  function Filter<T>(p: T -> bool, s: seq<T>): (r: seq<T>)
    ensures |r| <= |s|
  {
    if s == [] then [] else if p(s[0]) then [s[0]] + Filter(p, s[1..]) else Filter(p, s[1..])
  }

  lemma {:induction false} FilterMember<T>(p: T -> bool, s: seq<T>, x: T)
    ensures x in Filter(p, s) <==> x in s && p(x)
  {
    if s != [] {
      assert s == [s[0]] + s[1..];
      FilterMember(p, s[1..], x);
    }
  }

  lemma {:induction false} FilterAppend<T>(p: T -> bool, a: seq<T>, b: seq<T>)
    ensures Filter(p, a + b) == Filter(p, a) + Filter(p, b)
  {
    if a == [] {
      assert a + b == b;
    } else {
      assert (a + b)[1..] == a[1..] + b;
      FilterAppend(p, a[1..], b);
    }
  }

  lemma FilterSnoc<T>(p: T -> bool, s: seq<T>, i: nat)
    requires i < |s|
    ensures Filter(p, s[..i + 1]) == Filter(p, s[..i]) + if p(s[i]) then [s[i]] else []
  {
    assert s[..i + 1] == s[..i] + [s[i]];
    FilterAppend(p, s[..i], [s[i]]);
  }

  lemma {:induction false} FilterFilter<T>(p: T -> bool, q: T -> bool, s: seq<T>)
    ensures Filter(p, Filter(q, s)) == Filter(x => p(x) && q(x), s)
  {
    if s != [] {
      FilterFilter(p, q, s[1..]);
      assert ([s[0]] + Filter(q, s[1..]))[1..] == Filter(q, s[1..]);
    }
  }

  lemma {:induction false} FiltersCommute<T>(p: T -> bool, q: T -> bool, s: seq<T>)
    ensures Filter(p, Filter(q, s)) == Filter(q, Filter(p, s))
  {
    if s != [] {
      FiltersCommute(p, q, s[1..]);
      assert ([s[0]] + Filter(q, s[1..]))[1..] == Filter(q, s[1..]);
      assert ([s[0]] + Filter(p, s[1..]))[1..] == Filter(p, s[1..]);
    }
  }

  /** Two predicates that agree on `s` filter it alike. */
  lemma {:induction false} FilterSame<T>(p: T -> bool, q: T -> bool, s: seq<T>)
    requires forall x :: x in s ==> p(x) == q(x)
    ensures Filter(p, s) == Filter(q, s)
  {
    if s != [] {
      FilterSame(p, q, s[1..]);
    }
  }

  lemma {:induction false} FilterAll<T>(p: T -> bool, s: seq<T>)
    requires forall x :: x in s ==> p(x)
    ensures Filter(p, s) == s
  {
    if s != [] {
      FilterAll(p, s[1..]);
    }
  }

  lemma {:induction false} FilterNone<T>(p: T -> bool, s: seq<T>)
    requires forall x :: x in s ==> !p(x)
    ensures Filter(p, s) == []
  {
    if s != [] {
      FilterNone(p, s[1..]);
    }
  }

  lemma {:induction false} FilterMultiset<T>(p: T -> bool, a: seq<T>, x: T)
    ensures multiset(Filter(p, a))[x] == if p(x) then multiset(a)[x] else 0
  {
    if a != [] {
      assert a == [a[0]] + a[1..];
      FilterMultiset(p, a[1..], x);
    }
  }

  /** Take the head of `a` out of a permutation of it. */
  lemma TakeOut<T>(a: seq<T>, b: seq<T>) returns (k: nat, rest: seq<T>)
    requires a != [] && multiset(a) == multiset(b)
    ensures k < |b| && b[k] == a[0] && rest == b[..k] + b[k + 1..] && multiset(rest) == multiset(a[1..])
  {
    assert a[0] in multiset(b);
    k :| 0 <= k < |b| && b[k] == a[0];
    rest := b[..k] + b[k + 1..];
    assert b == b[..k] + [b[k]] + b[k + 1..];
    assert a == [a[0]] + a[1..];
    assert multiset(b) == multiset(rest) + multiset{b[k]} && multiset(a) == multiset(a[1..]) + multiset{a[0]};
    assert multiset(rest) == multiset(b) - multiset{a[0]} == multiset(a[1..]);
  }

  /** The positions of the selected elements. */
  function Positions<T>(p: T -> bool, s: seq<T>): set<nat> { set i: nat | i < |s| && p(s[i]) }

  lemma {:induction false} FilterCount<T>(p: T -> bool, s: seq<T>)
    ensures |Filter(p, s)| == |Positions(p, s)|
  {
    if s != [] {
      var n := |s| - 1;
      FilterCount(p, s[..n]);
      FilterSnoc(p, s, n);
      assert s[..n + 1] == s;
      assert Positions(p, s) == Positions(p, s[..n]) + if p(s[n]) then {n} else {};
    }
  }

  /** A selected element comes after as many selected ones as it did before. */
  lemma FilterAt<T>(p: T -> bool, s: seq<T>, k: nat)
    requires k < |s| && p(s[k])
    ensures |Filter(p, s[..k])| < |Filter(p, s)| && Filter(p, s)[|Filter(p, s[..k])|] == s[k]
  {
    FilterSnoc(p, s, k);
    FilterAppend(p, s[..k + 1], s[k + 1..]);
    assert s == s[..k + 1] + s[k + 1..];
  }

  /** A predicate keeps as many elements of a list as of a permutation of it. */
  lemma {:induction false} FilterSizes<T>(p: T -> bool, a: seq<T>, b: seq<T>)
    requires multiset(a) == multiset(b)
    ensures |Filter(p, a)| == |Filter(p, b)|
  {
    assert |a| == |multiset(a)| == |multiset(b)| == |b|;
    if a != [] {
      var k, rest := TakeOut(a, b);
      FilterSizes(p, a[1..], rest);
      assert b == b[..k] + ([b[k]] + b[k + 1..]);
      FilterAppend(p, b[..k], [b[k]] + b[k + 1..]);
      FilterAppend(p, b[..k], b[k + 1..]);
    }
  }

  function Max(a: real, b: real): real { if a >= b then a else b }

  function Min(a: real, b: real): real { if a <= b then a else b }

  function Abs(a: real): real { if a >= 0.0 then a else -a }

  /** The sum of f over s. */
  function Sum<T>(f: T -> real, s: seq<T>): real
  {
    if s == [] then 0.0 else f(s[0]) + Sum(f, s[1..])
  }

  lemma {:induction false} SumAppend<T>(f: T -> real, a: seq<T>, b: seq<T>)
    ensures Sum(f, a + b) == Sum(f, a) + Sum(f, b)
  {
    if a == [] {
      assert a + b == b;
    } else {
      assert (a + b)[1..] == a[1..] + b;
      SumAppend(f, a[1..], b);
    }
  }

  lemma {:induction false} SumSame<T>(f: T -> real, g: T -> real, s: seq<T>)
    requires forall x :: x in s ==> f(x) == g(x)
    ensures Sum(f, s) == Sum(g, s)
  {
    if s != [] { SumSame(f, g, s[1..]); }
  }

  /** A sum over the selected elements is a sum over all, counting nothing for the others. */
  lemma {:induction false} SumSelected<T>(f: T -> real, p: T -> bool, g: T -> real, s: seq<T>)
    requires forall x :: x in s ==> g(x) == if p(x) then f(x) else 0.0
    ensures Sum(f, Filter(p, s)) == Sum(g, s)
  {
    if s != [] {
      SumSelected(f, p, g, s[1..]);
      var rest := Filter(p, s[1..]);
      assert ([s[0]] + rest)[1..] == rest;
    }
  }

  /** The number of selected elements is a sum of ones. */
  lemma {:induction false} CountSelected<T>(p: T -> bool, g: T -> real, s: seq<T>)
    requires forall x :: x in s ==> g(x) == if p(x) then 1.0 else 0.0
    ensures |Filter(p, s)| as real == Sum(g, s)
  {
    if s != [] {
      CountSelected(p, g, s[1..]);
    }
  }

  lemma {:induction false} SumUpdate<T>(f: T -> real, s: seq<T>, i: nat, x: T)
    requires i < |s|
    ensures Sum(f, s[i := x]) == Sum(f, s) - f(s[i]) + f(x)
  {
    assert s == s[..i] + [s[i]] + s[i + 1..];
    assert s[i := x] == s[..i] + [x] + s[i + 1..];
    SumAppend(f, s[..i] + [s[i]], s[i + 1..]);
    SumAppend(f, s[..i], [s[i]]);
    SumAppend(f, s[..i] + [x], s[i + 1..]);
    SumAppend(f, s[..i], [x]);
  }

  /** A product the solver sees through only where a lemma needs it to. */
  function Times(x: real, y: real): real { x * y }

  lemma TimesOrder(x: real, y: real, k: real)
    ensures x <= y && k >= 0.0 ==> Times(k, x) <= Times(k, y) && Times(x, k) <= Times(y, k)
    ensures Times(k, 0.0) == 0.0 == Times(0.0, k)
    ensures Times(k, 1.0) == k == Times(1.0, k)
  {
  }

  lemma TimesRegroup(x: real, y: real, z: real)
    ensures Times(Times(x, y), z) == Times(x, Times(z, y))
    ensures Times(x, 1.0 - y) == x - Times(x, y)
    ensures Times(x, -1.0) == -x
  {
  }

  lemma TimesDistribute(x: real, y: real, k: real)
    ensures Times(x + y, k) == Times(x, k) + Times(y, k)
    ensures Times(x - y, k) == Times(x, k) - Times(y, k)
    ensures Times(k, x + y) == Times(k, x) + Times(k, y)
  {
  }

  /** Multiplying by something positive keeps the order. */
  lemma TimesCompare(x: real, y: real, k: real)
    requires k > 0.0
    ensures Times(x, k) <= Times(y, k) <==> x <= y
    ensures Times(x, k) == Times(y, k) <==> x == y
  {
  }
}
