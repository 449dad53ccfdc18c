/** Stable sorting and filtering of sequences, as the standard library's `sort_by_key` and `retain` do it. */
module Sorting {

  function Filter<T(!new)>(xs: seq<T>, p: T -> bool): (kept: seq<T>)
    ensures forall x :: x in kept <==> x in xs && p(x)
    ensures |kept| <= |xs|
  {
    if xs == [] then []
    else
      var n := |xs| - 1;
      assert xs == xs[..n] + [xs[n]];
      Filter(xs[..n], p) + if p(xs[n]) then [xs[n]] else []
  }

  lemma {:induction false} FilterConcat<T(!new)>(xs: seq<T>, ys: seq<T>, p: T -> bool)
    ensures Filter(xs + ys, p) == Filter(xs, p) + Filter(ys, p)
  {
    if ys == [] {
      assert xs + ys == xs;
    } else {
      var n := |ys| - 1;
      assert (xs + ys)[..|xs + ys| - 1] == xs + ys[..n];
      FilterConcat(xs, ys[..n], p);
    }
  }

  lemma {:induction false} FilterNone<T(!new)>(xs: seq<T>, p: T -> bool)
    requires forall x :: x in xs ==> !p(x)
    ensures Filter(xs, p) == []
  {
    if xs != [] {
      var n := |xs| - 1;
      assert xs == xs[..n] + [xs[n]];
      FilterNone(xs[..n], p);
    }
  }

  lemma {:induction false} FilterAll<T(!new)>(xs: seq<T>, p: T -> bool)
    requires forall x :: x in xs ==> p(x)
    ensures Filter(xs, p) == xs
  {
    if xs != [] {
      var n := |xs| - 1;
      var init, last := xs[..n], xs[n];
      assert xs == init + [last];
      assert p(last);
      FilterAll(init, p);
    }
  }

  /** What stands at two positions occurs twice. */
  lemma TwiceCounts<T>(s: seq<T>, i: nat, j: nat)
    requires i < j < |s| && s[i] == s[j]
    ensures multiset(s)[s[i]] >= 2
  {
    assert s == s[..j] + [s[j]] + s[j + 1..];
    assert s[i] in s[..j];
  }

  /** `before` is the strict part of a total preorder. */
  ghost predicate Ordering<T(!new)>(before: (T, T) -> bool) {
    && (forall a, b :: before(a, b) ==> !before(b, a))
    && (forall a, b, c :: !before(a, b) && !before(b, c) ==> !before(a, c))
  }

  ghost predicate Sorted<T(!new)>(xs: seq<T>, before: (T, T) -> bool) {
    forall i, j :: 0 <= i < j < |xs| ==> !before(xs[j], xs[i])
  }

  /** Inserts behind everything that need not come after `x`. */
  function Insert<T(!new)>(xs: seq<T>, x: T, before: (T, T) -> bool): (ys: seq<T>)
    ensures |ys| == |xs| + 1
    ensures multiset(ys) == multiset(xs) + multiset{x}
  {
    if xs == [] then [x]
    else
      var n := |xs| - 1;
      assert xs == xs[..n] + [xs[n]];
      if before(x, xs[n]) then Insert(xs[..n], x, before) + [xs[n]] else xs + [x]
  }

  function StableSort<T(!new)>(xs: seq<T>, before: (T, T) -> bool): (ys: seq<T>)
    ensures |ys| == |xs|
    ensures multiset(ys) == multiset(xs)
  {
    if xs == [] then []
    else
      var n := |xs| - 1;
      assert xs == xs[..n] + [xs[n]];
      Insert(StableSort(xs[..n], before), xs[n], before)
  }

  lemma SortKeepsElements<T(!new)>(xs: seq<T>, before: (T, T) -> bool)
    ensures forall x :: x in StableSort(xs, before) <==> x in xs
  {
    forall x
      ensures x in StableSort(xs, before) <==> x in xs
    {
      assert x in StableSort(xs, before) <==> x in multiset(StableSort(xs, before));
      assert x in xs <==> x in multiset(xs);
    }
  }

  lemma {:induction false} InsertSorts<T(!new)>(xs: seq<T>, x: T, before: (T, T) -> bool)
    requires Ordering(before) && Sorted(xs, before)
    ensures Sorted(Insert(xs, x, before), before)
  {
    if xs != [] {
      var n := |xs| - 1;
      if before(x, xs[n]) {
        InsertSorts(xs[..n], x, before);
        var ys := Insert(xs[..n], x, before);
        forall i | 0 <= i < |ys|
          ensures !before(xs[n], ys[i])
        {
          assert ys[i] in multiset(ys);
          assert ys[i] in xs[..n] || ys[i] == x;
        }
      } else {
        forall i | 0 <= i < |xs|
          ensures !before(x, xs[i])
        {
          assert i < n ==> !before(xs[n], xs[i]);
        }
      }
    }
  }

  lemma {:induction false} SortSorts<T(!new)>(xs: seq<T>, before: (T, T) -> bool)
    requires Ordering(before)
    ensures Sorted(StableSort(xs, before), before)
  {
    if xs != [] {
      var n := |xs| - 1;
      SortSorts(xs[..n], before);
      InsertSorts(StableSort(xs[..n], before), xs[n], before);
    }
  }

  /** All elements with property `p` are tied. */
  ghost predicate Tied<T(!new)>(p: T -> bool, before: (T, T) -> bool) {
    forall a, b :: p(a) && p(b) ==> !before(a, b)
  }

  lemma {:induction false} InsertIsStable<T(!new)>(xs: seq<T>, x: T, before: (T, T) -> bool, p: T -> bool)
    requires Tied(p, before)
    ensures Filter(Insert(xs, x, before), p) == Filter(xs + [x], p)
  {
    hide Filter;
    FilterConcat(xs, [x], p);
    if xs != [] {
      var n := |xs| - 1;
      if before(x, xs[n]) {
        InsertIsStable(xs[..n], x, before, p);
        FilterConcat(Insert(xs[..n], x, before), [xs[n]], p);
        FilterConcat(xs[..n], [x], p);
        FilterConcat(xs[..n], [xs[n]], p);
        assert xs == xs[..n] + [xs[n]];
        FilterOne(x, p);
        FilterOne(xs[n], p);
      }
    }
  }

  lemma FilterOne<T(!new)>(x: T, p: T -> bool)
    ensures Filter([x], p) == if p(x) then [x] else []
  {
    assert [x][..0] == [];
  }

  /** Tied elements keep their order. */
  lemma {:induction false} SortIsStable<T(!new)>(xs: seq<T>, before: (T, T) -> bool, p: T -> bool)
    requires Tied(p, before)
    ensures Filter(StableSort(xs, before), p) == Filter(xs, p)
  {
    hide Filter, Tied, Insert;
    if xs != [] {
      var n := |xs| - 1;
      var init, sorted := xs[..n], StableSort(xs[..n], before);
      assert StableSort(xs, before) == Insert(sorted, xs[n], before);
      hide StableSort;
      SortIsStable(init, before, p);
      InsertIsStable(sorted, xs[n], before, p);
      FilterConcat(sorted, [xs[n]], p);
      FilterConcat(init, [xs[n]], p);
      assert xs == init + [xs[n]];
    }
  }

  /** Whatever satisfies `p` first in a sequence is what is left first by filtering with `p`. */
  lemma FilterHead<T(!new)>(xs: seq<T>, p: T -> bool, i: nat)
    requires i < |xs| && p(xs[i]) && forall j :: 0 <= j < i ==> !p(xs[j])
    ensures Filter(xs, p) != [] && Filter(xs, p)[0] == xs[i]
  {
    hide Filter;
    var rest := xs[i + 1..];
    assert xs == xs[..i] + ([xs[i]] + rest);
    FilterConcat(xs[..i], [xs[i]] + rest, p);
    FilterConcat([xs[i]], rest, p);
    FilterOne(xs[i], p);
    FilterNone(xs[..i], p);
  }

  lemma {:induction false} FirstSatisfying<T(!new)>(xs: seq<T>, p: T -> bool, from: nat) returns (i: nat)
    requires from <= |xs| && (forall j :: 0 <= j < from ==> !p(xs[j]))
    requires exists j :: 0 <= j < |xs| && p(xs[j])
    ensures i < |xs| && p(xs[i]) && forall j :: 0 <= j < i ==> !p(xs[j])
    decreases |xs| - from
  {
    if from < |xs| && p(xs[from]) {
      i := from;
    } else {
      i := FirstSatisfying(xs, p, from + 1);
    }
  }

  /** If two sequences have the same elements with `p` in the same order, they begin with the same one. */
  lemma SameFirst<T(!new)>(xs: seq<T>, ys: seq<T>, p: T -> bool, s: nat) returns (i: nat)
    requires Filter(xs, p) == Filter(ys, p)
    requires s < |ys| && p(ys[s]) && forall j :: 0 <= j < s ==> !p(ys[j])
    ensures i < |xs| && xs[i] == ys[s] && forall j :: 0 <= j < i ==> !p(xs[j])
  {
    FilterHead(ys, p, s);
    assert Filter(xs, p)[0] in Filter(xs, p);
    assert ys[s] in xs;
    i := FirstSatisfying(xs, p, 0);
    FilterHead(xs, p, i);
  }

  lemma AppendSorted<T(!new)>(xs: seq<T>, x: T, before: (T, T) -> bool)
    requires xs != [] ==> !before(x, xs[|xs| - 1])
    ensures Insert(xs, x, before) == xs + [x]
  {
  }

  lemma {:induction false} FilterIsPart<T(!new)>(xs: seq<T>, p: T -> bool)
    ensures multiset(Filter(xs, p)) <= multiset(xs)
  {
    if xs != [] {
      var n := |xs| - 1;
      FilterIsPart(xs[..n], p);
      assert xs == xs[..n] + [xs[n]];
    }
  }

  /** Sorting what is in order already changes nothing. */
  lemma {:induction false} SortOfSorted<T(!new)>(xs: seq<T>, before: (T, T) -> bool)
    requires Sorted(xs, before)
    ensures StableSort(xs, before) == xs
  {
    if xs != [] {
      var n := |xs| - 1;
      SortOfSorted(xs[..n], before);
      assert xs == xs[..n] + [xs[n]];
      AppendSorted(xs[..n], xs[n], before);
    }
  }
}
