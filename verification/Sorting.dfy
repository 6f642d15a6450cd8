/** Stable sorting by a comparison, as `sort_by` and `sort_by_key` do it, and filtering,
    as `retain` does it. Nothing here depends on what the elements are, only on the
    comparison being a total order that may have ties. */
module Sorting {

  /** `le(a, b)`: `a` may stand before `b`. */
  ghost predicate Ranking<T(!new)>(le: (T, T) -> bool) {
    && (forall a, b :: le(a, b) || le(b, a))
    && (forall a, b, c :: le(a, b) && le(b, c) ==> le(a, c))
  }

  /** `x` goes in front of the first element it may stand before, so that equals stay
      in their old order. */
  function Insert<T>(x: T, sorted: seq<T>, le: (T, T) -> bool): (r: seq<T>)
    ensures |r| == |sorted| + 1
  {
    if sorted == [] || le(x, sorted[0]) then [x] + sorted
    else [sorted[0]] + Insert(x, sorted[1..], le)
  }

  function Sort<T>(xs: seq<T>, le: (T, T) -> bool): (r: seq<T>)
    ensures |r| == |xs|
  {
    if xs == [] then [] else Insert(xs[0], Sort(xs[1..], le), le)
  }

  predicate Sorted<T>(xs: seq<T>, le: (T, T) -> bool) {
    forall i, j :: 0 <= i < j < |xs| ==> le(xs[i], xs[j])
  }

  /** The elements that rank with `t`, in order. */
  function Ties<T>(xs: seq<T>, t: T, le: (T, T) -> bool): seq<T> {
    if xs == [] then []
    else (if le(xs[0], t) && le(t, xs[0]) then [xs[0]] else []) + Ties(xs[1..], t, le)
  }

  lemma {:induction false} InsertSorts<T(!new)>(x: T, sorted: seq<T>, le: (T, T) -> bool)
    requires Ranking(le) && Sorted(sorted, le)
    ensures Sorted(Insert(x, sorted, le), le)
    ensures multiset(Insert(x, sorted, le)) == multiset{x} + multiset(sorted)
  {
    if sorted == [] || le(x, sorted[0]) {
    } else {
      var rest := Insert(x, sorted[1..], le);
      InsertSorts(x, sorted[1..], le);
      assert sorted == [sorted[0]] + sorted[1..];
      forall j | 0 <= j < |rest| ensures le(sorted[0], rest[j]) {
        assert rest[j] in multiset(rest);
        if rest[j] != x {
          assert rest[j] in sorted[1..];
        }
      }
    }
  }

  lemma {:induction false} InsertKeepsTies<T(!new)>(x: T, sorted: seq<T>, t: T, le: (T, T) -> bool)
    requires Ranking(le)
    ensures Ties(Insert(x, sorted, le), t, le) == Ties([x], t, le) + Ties(sorted, t, le)
  {
    assert [x][1..] == [];
    if sorted == [] || le(x, sorted[0]) {
      assert ([x] + sorted)[1..] == sorted;
    } else {
      InsertKeepsTies(x, sorted[1..], t, le);
      assert ([sorted[0]] + Insert(x, sorted[1..], le))[1..] == Insert(x, sorted[1..], le);
    }
  }

  /** The sort yields the same elements in order, and those that rank alike as they
      came; no other sequence does. */
  lemma {:induction false} SortSorts<T(!new)>(xs: seq<T>, t: T, le: (T, T) -> bool)
    requires Ranking(le)
    ensures Sorted(Sort(xs, le), le)
    ensures multiset(Sort(xs, le)) == multiset(xs)
    ensures Ties(Sort(xs, le), t, le) == Ties(xs, t, le)
  {
    if xs != [] {
      var rest := xs[1..];
      SortSorts(rest, t, le);
      InsertSorts(xs[0], Sort(rest, le), le);
      InsertKeepsTies(xs[0], Sort(rest, le), t, le);
      TiesCons(xs, t, le);
      assert xs == [xs[0]] + rest;
    }
  }

  lemma TiesCons<T>(xs: seq<T>, t: T, le: (T, T) -> bool)
    requires xs != []
    ensures Ties(xs, t, le) == Ties([xs[0]], t, le) + Ties(xs[1..], t, le)
  {
    assert [xs[0]][1..] == [];
  }

  lemma {:induction false} SortedStays<T>(xs: seq<T>, le: (T, T) -> bool)
    requires Sorted(xs, le)
    ensures Sort(xs, le) == xs
  {
    if xs != [] {
      SortedStays(xs[1..], le);
      assert |xs| > 1 ==> xs[1..][0] == xs[1];
    }
  }

  lemma SortKeepsMembers<T(!new)>(xs: seq<T>, le: (T, T) -> bool, x: T)
    requires Ranking(le)
    ensures x in Sort(xs, le) <==> x in xs
  {
    SortSorts(xs, x, le);
    assert x in Sort(xs, le) <==> x in multiset(Sort(xs, le));
    assert x in xs <==> x in multiset(xs);
  }

  function Filter<T>(xs: seq<T>, p: T -> bool): (r: seq<T>)
    ensures |r| <= |xs|
  {
    if xs == [] then [] else if p(xs[0]) then [xs[0]] + Filter(xs[1..], p) else Filter(xs[1..], p)
  }

  lemma FilterCons<T>(x: T, xs: seq<T>, p: T -> bool)
    ensures Filter([x] + xs, p) == if p(x) then [x] + Filter(xs, p) else Filter(xs, p)
  {
    assert ([x] + xs)[1..] == xs;
  }

  lemma {:induction false} FilterMembers<T>(xs: seq<T>, p: T -> bool, x: T)
    ensures x in Filter(xs, p) <==> x in xs && p(x)
  {
    if xs != [] {
      FilterMembers(xs[1..], p, x);
      assert xs == [xs[0]] + xs[1..];
    }
  }

  lemma {:induction false} FilterConcat<T>(a: seq<T>, b: seq<T>, p: T -> bool)
    ensures Filter(a + b, p) == Filter(a, p) + Filter(b, p)
  {
    if a == [] {
      assert a + b == b && [] + Filter(b, p) == Filter(b, p);
    } else {
      var x, rest := a[0], a[1..];
      FilterConcat(rest, b, p);
      assert a + b == [x] + (rest + b);
      FilterCons(x, rest + b, p);
      ConsConcat(x, Filter(rest, p), Filter(b, p));
    }
  }

  lemma ConsConcat<T>(x: T, a: seq<T>, b: seq<T>)
    ensures [x] + (a + b) == ([x] + a) + b
  {
  }

  lemma {:induction false} FilterInsert<T(!new)>(x: T, sorted: seq<T>, le: (T, T) -> bool, p: T -> bool)
    requires Ranking(le) && Sorted(sorted, le)
    ensures Filter(Insert(x, sorted, le), p) == if p(x) then Insert(x, Filter(sorted, p), le) else Filter(sorted, p)
  {
    var kept := Filter(sorted, p);
    if sorted == [] || le(x, sorted[0]) {
      FilterCons(x, sorted, p);
      if kept != [] {
        FilterMembers(sorted, p, kept[0]);
      }
    } else {
      var y, rest := sorted[0], sorted[1..];
      FilterInsert(x, rest, le, p);
      FilterCons(y, Insert(x, rest, le), p);
      assert p(y) ==> kept[1..] == Filter(rest, p);
    }
  }

  /** Sorting what is left is leaving out of what is sorted. */
  lemma {:induction false} SortOfFilter<T(!new)>(xs: seq<T>, le: (T, T) -> bool, p: T -> bool)
    requires Ranking(le)
    ensures Sort(Filter(xs, p), le) == Filter(Sort(xs, le), p)
  {
    if xs != [] {
      SortOfFilter(xs[1..], le, p);
      SortSorts(xs[1..], xs[0], le);
      FilterInsert(xs[0], Sort(xs[1..], le), le, p);
    }
  }

  lemma {:induction false} FilterAgree<T>(xs: seq<T>, p: T -> bool, q: T -> bool)
    requires forall i :: 0 <= i < |xs| ==> p(xs[i]) == q(xs[i])
    ensures Filter(xs, p) == Filter(xs, q)
  {
    if xs != [] { FilterAgree(xs[1..], p, q); }
  }

  function Both<T>(p: T -> bool, q: T -> bool): T -> bool { x => p(x) && q(x) }

  lemma {:induction false} FilterTwice<T>(xs: seq<T>, p: T -> bool, q: T -> bool)
    ensures Filter(Filter(xs, p), q) == Filter(xs, Both(p, q))
  {
    if xs != [] {
      FilterTwice(xs[1..], p, q);
      FilterCons(xs[0], Filter(xs[1..], p), q);
    }
  }

  lemma {:induction false} FilterAll<T>(xs: seq<T>, p: T -> bool)
    requires forall i :: 0 <= i < |xs| ==> p(xs[i])
    ensures Filter(xs, p) == xs
  {
    if xs != [] { FilterAll(xs[1..], p); }
  }

  predicate Distinct<T(==)>(xs: seq<T>) { forall i, j :: 0 <= i < j < |xs| ==> xs[i] != xs[j] }

  lemma {:induction false} FilterKeepsDistinct<T>(xs: seq<T>, p: T -> bool)
    requires Distinct(xs)
    ensures Distinct(Filter(xs, p))
  {
    if xs != [] {
      FilterKeepsDistinct(xs[1..], p);
      FilterMembers(xs[1..], p, xs[0]);
    }
  }

  lemma {:induction false} InsertMembers<T>(x: T, sorted: seq<T>, le: (T, T) -> bool, e: T)
    ensures e in Insert(x, sorted, le) <==> e == x || e in sorted
  {
    if sorted == [] || le(x, sorted[0]) {
    } else {
      InsertMembers(x, sorted[1..], le, e);
      assert sorted == [sorted[0]] + sorted[1..];
    }
  }

  lemma {:induction false} InsertKeepsDistinct<T>(x: T, sorted: seq<T>, le: (T, T) -> bool)
    requires Distinct(sorted) && x !in sorted
    ensures Distinct(Insert(x, sorted, le))
  {
    if sorted == [] || le(x, sorted[0]) {
    } else {
      InsertKeepsDistinct(x, sorted[1..], le);
      InsertMembers(x, sorted[1..], le, sorted[0]);
    }
  }

  lemma {:induction false} SortKeepsDistinct<T(!new)>(xs: seq<T>, le: (T, T) -> bool)
    requires Ranking(le) && Distinct(xs)
    ensures Distinct(Sort(xs, le))
  {
    if xs != [] {
      SortKeepsDistinct(xs[1..], le);
      SortKeepsMembers(xs[1..], le, xs[0]);
      InsertKeepsDistinct(xs[0], Sort(xs[1..], le), le);
    }
  }

  /** `truncate` on a vector: no effect when it is short enough. */
  function Take<T>(xs: seq<T>, n: nat): seq<T> { if |xs| <= n then xs else xs[..n] }
}
