/** Candidates of a feed pipeline and the groups that quotas refer to. */
module Candidates {
  datatype Candidate<Item> = Candidate(item: Item, score: real, source: string, group: string)

  /** The number of candidates of `cs` tagged with `group`. */
  function CountGroup<Item>(cs: seq<Candidate<Item>>, group: string): (count: nat)
    ensures count <= |cs|
    ensures count > 0 <==> exists i :: 0 <= i < |cs| && cs[i].group == group
  {
    if cs == [] then 0
    else CountGroup(cs[..|cs| - 1], group) + if cs[|cs| - 1].group == group then 1 else 0
  }

  /** `Vec::swap_remove`: the last element takes the place of the removed one. */
  function SwapRemove<T>(s: seq<T>, i: nat): (rest: seq<T>)
    requires i < |s|
    ensures |rest| == |s| - 1
  {
    var last := |s| - 1;
    if i == last then s[..last] else s[..last][i := s[last]]
  }

  lemma {:induction false} SwapRemoveTakesOne<T>(s: seq<T>, i: nat)
    requires i < |s|
    ensures multiset(SwapRemove(s, i)) + multiset{s[i]} == multiset(s)
  {
    assert s == s[..|s| - 1] + [s[|s| - 1]];
  }

  /** The last element moves into the gap, and all others stay where they are. */
  lemma {:induction false} SwapRemovePlaces<T>(s: seq<T>, i: nat, j: nat)
    requires i < |s| && j < |s| - 1
    ensures SwapRemove(s, i)[j] == if j == i then s[|s| - 1] else s[j]
  {
  }

  lemma {:induction false} CountGroupUpdate<Item>(cs: seq<Candidate<Item>>, i: nat, c: Candidate<Item>, group: string)
    requires i < |cs|
    ensures CountGroup(cs[i := c], group) + (if cs[i].group == group then 1 else 0)
         == CountGroup(cs, group) + (if c.group == group then 1 else 0)
  {
    var n := |cs| - 1;
    if i == n {
      assert cs[i := c][..n] == cs[..n];
    } else {
      assert cs[i := c][..n] == cs[..n][i := c];
      CountGroupUpdate(cs[..n], i, c, group);
    }
  }

  lemma CountGroupAppend<Item>(cs: seq<Candidate<Item>>, c: Candidate<Item>, group: string)
    ensures CountGroup(cs + [c], group) == CountGroup(cs, group) + if c.group == group then 1 else 0
  {
    assert (cs + [c])[..|cs|] == cs;
  }

  lemma CountGroupSwapRemove<Item>(cs: seq<Candidate<Item>>, i: nat, group: string)
    requires i < |cs|
    ensures CountGroup(SwapRemove(cs, i), group) + (if cs[i].group == group then 1 else 0) == CountGroup(cs, group)
  {
    var n := |cs| - 1;
    if i < n {
      CountGroupUpdate(cs[..n], i, cs[n], group);
      assert cs[..n][i] == cs[i];
    }
  }
}
