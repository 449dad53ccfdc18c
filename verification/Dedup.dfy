/** Deduplication of candidates by key, preferring low priority values and early arrivals. */
module Dedups {
  import opened Candidates
  import opened Sorting

  datatype Dedup<!Item(!new)> = Dedup(key: Candidate<Item> -> string, priority: Candidate<Item> -> int)
  {
    function Before(): (Candidate<Item>, Candidate<Item>) -> bool {
      (a: Candidate<Item>, b: Candidate<Item>) => priority(a) < priority(b)
    }
  }

  predicate HasKey<Item>(cs: seq<Candidate<Item>>, key: Candidate<Item> -> string, k: string) {
    exists i :: 0 <= i < |cs| && key(cs[i]) == k
  }

  /** The first candidate of each key, in order. */
  function FirstPerKey<Item>(cs: seq<Candidate<Item>>, key: Candidate<Item> -> string): (firsts: seq<Candidate<Item>>)
    ensures |firsts| <= |cs|
  {
    if cs == [] then []
    else
      var n := |cs| - 1;
      FirstPerKey(cs[..n], key) + if HasKey(cs[..n], key, key(cs[n])) then [] else [cs[n]]
  }

  function Deduped<Item(!new)>(d: Dedup<Item>, cs: seq<Candidate<Item>>): seq<Candidate<Item>> {
    FirstPerKey(StableSort(cs, d.Before()), d.key)
  }

  /** `Dedup::apply`: a stable sort, then one pass that retains a candidate if its key is new. */
  method Apply<Item(!new)>(d: Dedup<Item>, candidates: seq<Candidate<Item>>) returns (retained: seq<Candidate<Item>>)
    ensures retained == Deduped(d, candidates)
  {
    var sorted := StableSort(candidates, d.Before());
    var seen := {};
    retained := [];
    for i := 0 to |sorted|
      invariant retained == FirstPerKey(sorted[..i], d.key)
      invariant forall k :: k in seen <==> HasKey(sorted[..i], d.key, k)
    {
      assert sorted[..i + 1][..i] == sorted[..i];
      var k := d.key(sorted[i]);
      HasKeyAppend(sorted[..i], sorted[i], d.key);
      assert sorted[..i + 1] == sorted[..i] + [sorted[i]];
      if k !in seen {
        seen := seen + {k};
        retained := retained + [sorted[i]];
      }
    }
    assert sorted[..|sorted|] == sorted;
  }

  lemma HasKeyAppend<Item>(cs: seq<Candidate<Item>>, c: Candidate<Item>, key: Candidate<Item> -> string)
    ensures forall k :: HasKey(cs + [c], key, k) <==> HasKey(cs, key, k) || key(c) == k
  {
    forall k
      ensures HasKey(cs + [c], key, k) <==> HasKey(cs, key, k) || key(c) == k
    {
      if HasKey(cs, key, k) {
        var i :| 0 <= i < |cs| && key(cs[i]) == k;
        assert (cs + [c])[i] == cs[i];
      }
      if key(c) == k {
        assert (cs + [c])[|cs|] == c;
      }
    }
  }

  ghost predicate DistinctKeys<Item>(cs: seq<Candidate<Item>>, key: Candidate<Item> -> string) {
    forall i, j :: 0 <= i < j < |cs| ==> key(cs[i]) != key(cs[j])
  }

  /** `i` is the first position of its key. */
  ghost predicate FirstOfKey<Item>(cs: seq<Candidate<Item>>, key: Candidate<Item> -> string, i: nat) {
    i < |cs| && forall j :: 0 <= j < i ==> key(cs[j]) != key(cs[i])
  }

  lemma {:induction false} FirstPerKeySource<Item>(cs: seq<Candidate<Item>>, key: Candidate<Item> -> string, p: nat) returns (i: nat)
    requires p < |FirstPerKey(cs, key)|
    ensures FirstOfKey(cs, key, i) && cs[i] == FirstPerKey(cs, key)[p]
  {
    var n := |cs| - 1;
    if p < |FirstPerKey(cs[..n], key)| {
      i := FirstPerKeySource(cs[..n], key, p);
    } else {
      i := n;
      assert forall j :: 0 <= j < n ==> cs[..n][j] == cs[j];
    }
  }

  lemma {:induction false} FirstPerKeyDistinct<Item>(cs: seq<Candidate<Item>>, key: Candidate<Item> -> string)
    ensures DistinctKeys(FirstPerKey(cs, key), key)
  {
    if cs != [] {
      var n := |cs| - 1;
      var before := FirstPerKey(cs[..n], key);
      FirstPerKeyDistinct(cs[..n], key);
      forall p | 0 <= p < |before|
        ensures HasKey(cs[..n], key, key(before[p]))
      {
        var i := FirstPerKeySource(cs[..n], key, p);
        assert key(cs[..n][i]) == key(before[p]);
      }
    }
  }

  lemma {:induction false} FirstPerKeyComplete<Item>(cs: seq<Candidate<Item>>, key: Candidate<Item> -> string, k: string)
    ensures HasKey(FirstPerKey(cs, key), key, k) <==> HasKey(cs, key, k)
  {
    if cs != [] {
      var n := |cs| - 1;
      FirstPerKeyComplete(cs[..n], key, k);
      HasKeyAppend(cs[..n], cs[n], key);
      var firsts := FirstPerKey(cs[..n], key);
      HasKeyAppend(firsts, cs[n], key);
      assert cs == cs[..n] + [cs[n]];
      assert FirstPerKey(cs, key) == firsts || FirstPerKey(cs, key) == firsts + [cs[n]];
    }
  }

  lemma {:induction false} FirstPerKeyKeepsOrder<Item(!new)>(cs: seq<Candidate<Item>>, key: Candidate<Item> -> string,
                                                         before: (Candidate<Item>, Candidate<Item>) -> bool)
    requires Sorted(cs, before)
    ensures Sorted(FirstPerKey(cs, key), before)
  {
    if cs != [] {
      var n := |cs| - 1;
      var firsts := FirstPerKey(cs[..n], key);
      FirstPerKeyKeepsOrder(cs[..n], key, before);
      forall p | 0 <= p < |firsts|
        ensures !before(cs[n], firsts[p])
      {
        var i := FirstPerKeySource(cs[..n], key, p);
        assert cs[i] == firsts[p];
      }
    }
  }

  lemma {:induction false} FirstPerKeyOfDistinct<Item>(cs: seq<Candidate<Item>>, key: Candidate<Item> -> string)
    requires DistinctKeys(cs, key)
    ensures FirstPerKey(cs, key) == cs
  {
    if cs != [] {
      var n := |cs| - 1;
      FirstPerKeyOfDistinct(cs[..n], key);
      assert cs == cs[..n] + [cs[n]];
    }
  }

  lemma {:induction false} FirstPerKeyIsPart<Item>(cs: seq<Candidate<Item>>, key: Candidate<Item> -> string)
    ensures multiset(FirstPerKey(cs, key)) <= multiset(cs)
  {
    if cs != [] {
      var n := |cs| - 1;
      var init, last := cs[..n], cs[n];
      FirstPerKeyIsPart(init, key);
      var firsts := FirstPerKey(init, key);
      assert FirstPerKey(cs, key) == firsts || FirstPerKey(cs, key) == firsts + [last];
      hide FirstPerKey, HasKey;
      assert cs == init + [last];
    }
  }

  lemma BeforeIsOrdering<Item(!new)>(d: Dedup<Item>)
    ensures Ordering(d.Before())
  {
  }

  /** Position `i` wins its key: no other has a lower priority value, and among equals none arrived earlier. */
  ghost predicate Wins<Item(!new)>(d: Dedup<Item>, cs: seq<Candidate<Item>>, i: nat) {
    && i < |cs|
    && forall j :: 0 <= j < |cs| && d.key(cs[j]) == d.key(cs[i]) ==>
         d.priority(cs[i]) < d.priority(cs[j]) || (d.priority(cs[i]) == d.priority(cs[j]) && i <= j)
  }

  /** In priority order, the first candidate of a key has the lowest priority value of that key. */
  lemma FirstIsLeast<Item(!new)>(d: Dedup<Item>, sorted: seq<Candidate<Item>>, s: nat, c: Candidate<Item>)
    requires Sorted(sorted, d.Before()) && FirstOfKey(sorted, d.key, s)
    requires c in sorted && d.key(c) == d.key(sorted[s])
    ensures d.priority(sorted[s]) <= d.priority(c)
  {
    var q :| 0 <= q < |sorted| && sorted[q] == c;
    assert q >= s;
    assert q > s ==> !d.Before()(sorted[q], sorted[s]);
  }

  /** Each retained candidate is the winner of its key. */
  lemma RetainedWins<Item(!new)>(d: Dedup<Item>, cs: seq<Candidate<Item>>, p: nat) returns (i: nat)
    requires p < |Deduped(d, cs)|
    ensures Wins(d, cs, i) && cs[i] == Deduped(d, cs)[p]
  {
    var sorted := StableSort(cs, d.Before());
    var s := FirstPerKeySource(sorted, d.key, p);
    var r := sorted[s];
    var tied := (c: Candidate<Item>) => d.key(c) == d.key(r) && d.priority(c) == d.priority(r);
    BeforeIsOrdering(d);
    SortSorts(cs, d.Before());
    SortKeepsElements(cs, d.Before());
    SortIsStable(cs, d.Before(), tied);
    hide StableSort, Filter, FirstPerKey, Sorted, Ordering;
    i := SameFirst(cs, sorted, tied, s);
    forall j | 0 <= j < |cs| && d.key(cs[j]) == d.key(r)
      ensures d.priority(r) <= d.priority(cs[j])
    {
      assert cs[j] in sorted;
      FirstIsLeast(d, sorted, s, cs[j]);
    }
  }

  lemma DedupKeepsKeys<Item(!new)>(d: Dedup<Item>, cs: seq<Candidate<Item>>, k: string)
    ensures HasKey(Deduped(d, cs), d.key, k) <==> HasKey(cs, d.key, k)
  {
    var sorted := StableSort(cs, d.Before());
    hide HasKey, StableSort, FirstPerKey;
    FirstPerKeyComplete(sorted, d.key, k);
    SameKeys(cs, sorted, d.key, k);
  }

  lemma DedupIsSorted<Item(!new)>(d: Dedup<Item>, cs: seq<Candidate<Item>>)
    ensures DistinctKeys(Deduped(d, cs), d.key)
    ensures Sorted(Deduped(d, cs), d.Before())
  {
    var sorted := StableSort(cs, d.Before());
    hide Sorted, StableSort, FirstPerKey, DistinctKeys, Ordering;
    FirstPerKeyDistinct(sorted, d.key);
    BeforeIsOrdering(d);
    SortSorts(cs, d.Before());
    FirstPerKeyKeepsOrder(sorted, d.key, d.Before());
  }

  /** A retained candidate is the winner of its key in the input. */
  ghost predicate IsWinner<Item(!new)>(d: Dedup<Item>, cs: seq<Candidate<Item>>, c: Candidate<Item>) {
    exists i: nat :: Wins(d, cs, i) && cs[i] == c
  }

  /** One candidate per key of the input, namely its winner, in priority order. */
  lemma {:induction false} DedupKeepsWinners<Item(!new)>(d: Dedup<Item>, cs: seq<Candidate<Item>>)
    ensures DistinctKeys(Deduped(d, cs), d.key)
    ensures forall k :: HasKey(Deduped(d, cs), d.key, k) <==> HasKey(cs, d.key, k)
    ensures forall p :: 0 <= p < |Deduped(d, cs)| ==> IsWinner(d, cs, Deduped(d, cs)[p])
    ensures Sorted(Deduped(d, cs), d.Before())
  {
    DedupIsSorted(d, cs);
    forall k
      ensures HasKey(Deduped(d, cs), d.key, k) <==> HasKey(cs, d.key, k)
    {
      DedupKeepsKeys(d, cs, k);
    }
    hide Deduped, HasKey, DistinctKeys, Sorted, Wins;
    forall p | 0 <= p < |Deduped(d, cs)|
      ensures IsWinner(d, cs, Deduped(d, cs)[p])
    {
      var i := RetainedWins(d, cs, p);
    }
  }

  lemma SameKeys<Item>(a: seq<Candidate<Item>>, b: seq<Candidate<Item>>, key: Candidate<Item> -> string, k: string)
    requires multiset(a) == multiset(b)
    ensures HasKey(a, key, k) <==> HasKey(b, key, k)
  {
    if HasKey(a, key, k) {
      var i :| 0 <= i < |a| && key(a[i]) == k;
      assert a[i] in multiset(b);
    }
    if HasKey(b, key, k) {
      var i :| 0 <= i < |b| && key(b[i]) == k;
      assert b[i] in multiset(a);
    }
  }

  /** Deduplicating again changes nothing. */
  lemma {:induction false} DedupIsIdempotent<Item(!new)>(d: Dedup<Item>, cs: seq<Candidate<Item>>)
    ensures Deduped(d, Deduped(d, cs)) == Deduped(d, cs)
  {
    DedupIsSorted(d, cs);
    SortOfSorted(Deduped(d, cs), d.Before());
    FirstPerKeyOfDistinct(Deduped(d, cs), d.key);
  }
}
