/** In which order a sampler takes candidates, group by group. */
module SamplerOrder {
  import opened Wrappers
  import opened Candidates
  import opened Samplers

  /** Within every group, what was taken earlier scores at least as much as what was taken later or not at all. */
  ghost predicate BestFirst<Item>(p: Progress<Item>) {
    && (forall i, j :: 0 <= i < j < |p.selected| && p.selected[i].group == p.selected[j].group ==>
          p.selected[i].score >= p.selected[j].score)
    && (forall i, j :: 0 <= i < |p.selected| && 0 <= j < |p.remaining| && p.selected[i].group == p.remaining[j].group ==>
          p.selected[i].score >= p.remaining[j].score)
  }

  /** Whichever rule applies, the picked candidate is a best one of its own group. */
  lemma PickIsBestOfItsGroup<Item>(sampler: Sampler, remaining: seq<Candidate<Item>>, selected: seq<Candidate<Item>>, j: nat)
    requires j < |remaining|
    ensures var i := PickIndex(sampler, remaining, selected).value;
              remaining[j].group == remaining[i].group ==> remaining[j].score <= remaining[i].score
  {
    hide TotalWeight, LargestDeficit;
    assert Admits(None, remaining[j]);
    assert Admits(Some(remaining[j].group), remaining[j]);
  }

  lemma DrawKeepsBestFirst<Item>(sampler: Sampler, p: Progress<Item>)
    requires BestFirst(p)
    ensures BestFirst(Draw(sampler, p))
  {
    hide PickIndex;
    match PickIndex(sampler, p.remaining, p.selected)
    case None =>
    case Some(i) =>
      forall j | 0 <= j < |p.remaining|
        ensures p.remaining[j].group == p.remaining[i].group ==> p.remaining[j].score <= p.remaining[i].score
      {
        PickIsBestOfItsGroup(sampler, p.remaining, p.selected, j);
      }
  }

  lemma {:induction false} RunIsBestFirst<Item>(sampler: Sampler, candidates: seq<Candidate<Item>>, n: nat)
    ensures BestFirst(Run(sampler, candidates, n))
  {
    hide Draw;
    if n > 0 {
      RunIsBestFirst(sampler, candidates, n - 1);
      DrawKeepsBestFirst(sampler, Run(sampler, candidates, n - 1));
    }
  }

  /** Some quota refers to the candidate's group. */
  ghost predicate Quoted<Item>(quotas: seq<GroupQuota>, c: Candidate<Item>) {
    exists q :: 0 <= q < |quotas| && quotas[q].group == c.group
  }

  /** Unquoted candidates only fill up: after one is taken, no quoted one is taken later, and none is left. */
  ghost predicate FilledUp<Item>(quotas: seq<GroupQuota>, p: Progress<Item>) {
    forall i :: 0 <= i < |p.selected| && !Quoted(quotas, p.selected[i]) ==>
      && (forall j :: i <= j < |p.selected| ==> !Quoted(quotas, p.selected[j]))
      && (forall c :: c in p.remaining ==> !Quoted(quotas, c))
  }

  lemma DrawKeepsFilledUp<Item>(quotas: seq<GroupQuota>, p: Progress<Item>)
    requires TotalWeight(quotas) > 0.0
    requires FilledUp(quotas, p)
    ensures FilledUp(quotas, Draw(Quota(quotas), p))
  {
    hide Draw, Quoted;
    DrawTakesFrom(Quota(quotas), p);
    DrawPrefersQuoted(quotas, p);
  }

  lemma {:induction false} UnquotedFillUp<Item>(quotas: seq<GroupQuota>, candidates: seq<Candidate<Item>>, n: nat)
    requires TotalWeight(quotas) > 0.0
    ensures FilledUp(quotas, Run(Quota(quotas), candidates, n))
  {
    hide Draw, Quoted;
    if n > 0 {
      UnquotedFillUp(quotas, candidates, n - 1);
      DrawKeepsFilledUp(quotas, Run(Quota(quotas), candidates, n - 1));
    }
  }

  /** A draw moves one candidate and keeps the others. */
  lemma DrawTakesFrom<Item>(sampler: Sampler, p: Progress<Item>)
    ensures p.selected <= Draw(sampler, p).selected
    ensures |Draw(sampler, p).selected| <= |p.selected| + 1
    ensures |Draw(sampler, p).selected| == |p.selected| + 1 ==> Draw(sampler, p).selected[|p.selected|] in p.remaining
    ensures forall c :: c in Draw(sampler, p).remaining ==> c in p.remaining
  {
    hide PickIndex;
    match PickIndex(sampler, p.remaining, p.selected)
    case None =>
    case Some(i) =>
      SwapRemoveTakesOne(p.remaining, i);
      forall c | c in SwapRemove(p.remaining, i)
        ensures c in p.remaining
      {
        assert c in multiset(SwapRemove(p.remaining, i));
      }
  }

  lemma DrawPrefersQuoted<Item>(quotas: seq<GroupQuota>, p: Progress<Item>)
    requires TotalWeight(quotas) > 0.0
    ensures |Draw(Quota(quotas), p).selected| == |p.selected| + 1
            && !Quoted(quotas, Draw(Quota(quotas), p).selected[|p.selected|])
        ==> forall c :: c in p.remaining ==> !Quoted(quotas, c)
  {
    hide LargestDeficit, TotalWeight, Deficit;
    forall c | c in p.remaining && Quoted(quotas, c)
      ensures PickIndex(Quota(quotas), p.remaining, p.selected).Some?
           && Quoted(quotas, p.remaining[PickIndex(Quota(quotas), p.remaining, p.selected).value])
    {
      var q :| 0 <= q < |quotas| && quotas[q].group == c.group;
      LargestDeficitIsLargest(quotas, TotalWeight(quotas), p.remaining, p.selected, q);
    }
  }

  /** The scores of the candidates of one group, in order. */
  function GroupScores<Item>(cs: seq<Candidate<Item>>, group: string): (scores: seq<real>)
    ensures |scores| == CountGroup(cs, group)
  {
    if cs == [] then []
    else
      var last := cs[|cs| - 1];
      GroupScores(cs[..|cs| - 1], group) + if last.group == group then [last.score] else []
  }

  /** The candidates of one group, in order. */
  function OfGroup<Item>(cs: seq<Candidate<Item>>, group: string): (own: seq<Candidate<Item>>)
    ensures forall c :: c in own ==> c.group == group
  {
    if cs == [] then []
    else
      var last := cs[|cs| - 1];
      OfGroup(cs[..|cs| - 1], group) + if last.group == group then [last] else []
  }

  lemma {:induction false} GroupScoresConcat<Item>(a: seq<Candidate<Item>>, b: seq<Candidate<Item>>, group: string)
    ensures GroupScores(a + b, group) == GroupScores(a, group) + GroupScores(b, group)
  {
    if b == [] {
      assert a + b == a;
    } else {
      var n := |b| - 1;
      assert (a + b)[..|a + b| - 1] == a + b[..n];
      GroupScoresConcat(a, b[..n], group);
    }
  }

  lemma {:induction false} OfGroupScores<Item>(cs: seq<Candidate<Item>>, group: string)
    ensures GroupScores(OfGroup(cs, group), group) == GroupScores(cs, group)
    ensures |OfGroup(cs, group)| == CountGroup(cs, group)
  {
    if cs != [] {
      var n := |cs| - 1;
      OfGroupScores(cs[..n], group);
      var own := OfGroup(cs[..n], group);
      if cs[n].group == group {
        assert OfGroup(cs, group) == own + [cs[n]];
        assert (own + [cs[n]])[..|own|] == own;
      } else {
        assert OfGroup(cs, group) == own;
        assert GroupScores(cs, group) == GroupScores(cs[..n], group);
      }
    }
  }

  lemma {:induction false} GroupScoresPermutation<Item>(a: seq<Candidate<Item>>, b: seq<Candidate<Item>>, group: string)
    requires multiset(a) == multiset(b)
    ensures multiset(GroupScores(a, group)) == multiset(GroupScores(b, group))
  {
    if a == [] {
      assert |multiset(b)| == 0;
      assert b == [];
    } else {
      var n := |a| - 1;
      hide GroupScores;
      assert a[n] in multiset(b);
      var i :| 0 <= i < |b| && b[i] == a[n];
      var rest := b[..i] + b[i + 1..];
      assert a[..n] == a[..n] + a[n + 1..];
      assert multiset(a[..n]) == multiset(rest) by {
        MultisetWithout(a, n);
        MultisetWithout(b, i);
      }
      GroupScoresPermutation(a[..n], rest, group);
      GroupScoresWithout(a, n, group);
      GroupScoresWithout(b, i, group);
    }
  }

  lemma MultisetWithout<T>(s: seq<T>, i: nat)
    requires i < |s|
    ensures multiset(s[..i] + s[i + 1..]) == multiset(s) - multiset{s[i]}
  {
    assert s == s[..i] + [s[i]] + s[i + 1..];
  }

  lemma GroupScoresWithout<Item>(b: seq<Candidate<Item>>, i: nat, group: string)
    requires i < |b|
    ensures multiset(GroupScores(b, group))
         == multiset(GroupScores(b[..i] + b[i + 1..], group)) + if b[i].group == group then multiset{b[i].score} else multiset{}
  {
    assert b == b[..i + 1] + b[i + 1..];
    GroupScoresConcat(b[..i + 1], b[i + 1..], group);
    GroupScoresConcat(b[..i], b[i + 1..], group);
    assert b[..i + 1][..i] == b[..i];
  }

  ghost predicate Descending(scores: seq<real>) {
    forall i, j :: 0 <= i < j < |scores| ==> scores[i] >= scores[j]
  }

  ghost predicate Above(taken: seq<real>, left: seq<real>) {
    forall x, y :: x in taken && y in left ==> x >= y
  }

  lemma {:induction false} GroupScoreSource<Item>(cs: seq<Candidate<Item>>, group: string, k: nat) returns (i: nat)
    requires k < |GroupScores(cs, group)|
    ensures i < |cs| && cs[i].group == group && cs[i].score == GroupScores(cs, group)[k]
    ensures CountGroup(cs[..i], group) == k
  {
    var n := |cs| - 1;
    if k < |GroupScores(cs[..n], group)| {
      i := GroupScoreSource(cs[..n], group, k);
      assert cs[..n][..i] == cs[..i];
    } else {
      i := n;
    }
  }

  lemma {:induction false} CountGroupMonotone<Item>(cs: seq<Candidate<Item>>, i: nat, j: nat, group: string)
    requires i <= j <= |cs|
    ensures CountGroup(cs[..i], group) <= CountGroup(cs[..j], group)
  {
    if i < j {
      CountGroupMonotone(cs, i, j - 1, group);
      assert cs[..j][..j - 1] == cs[..j - 1];
    }
  }

  /** A group's part of the selection is descending and above what is left of the group. */
  lemma GroupPartIsTop<Item>(p: Progress<Item>, group: string)
    requires BestFirst(p)
    ensures Descending(GroupScores(p.selected, group))
    ensures Above(GroupScores(p.selected, group), GroupScores(p.remaining, group))
  {
    var taken, left := GroupScores(p.selected, group), GroupScores(p.remaining, group);
    forall a, b | 0 <= a < b < |taken|
      ensures taken[a] >= taken[b]
    {
      var i := GroupScoreSource(p.selected, group, a);
      var j := GroupScoreSource(p.selected, group, b);
      if j <= i {
        CountGroupMonotone(p.selected, j, i, group);
        assert false;
      }
    }
    forall x, y | x in taken && y in left
      ensures x >= y
    {
      var a :| 0 <= a < |taken| && taken[a] == x;
      var b :| 0 <= b < |left| && left[b] == y;
      var i := GroupScoreSource(p.selected, group, a);
      var j := GroupScoreSource(p.remaining, group, b);
    }
  }

  /** A descending sequence above its leftovers is determined by its length and the multiset it comes from. */
  lemma {:induction false} TopIsUnique(a: seq<real>, aLeft: seq<real>, b: seq<real>, bLeft: seq<real>)
    requires |a| == |b|
    requires multiset(a) + multiset(aLeft) == multiset(b) + multiset(bLeft)
    requires Descending(a) && Above(a, aLeft)
    requires Descending(b) && Above(b, bLeft)
    ensures a == b
  {
    if a != [] {
      HeadIsMaximum(a, aLeft);
      HeadIsMaximum(b, bLeft);
      assert a[0] in multiset(a) + multiset(aLeft);
      assert b[0] in multiset(b) + multiset(bLeft);
      assert a[0] == b[0];
      WithoutHead(a, aLeft);
      WithoutHead(b, bLeft);
      TopIsUnique(a[1..], aLeft, b[1..], bLeft);
      assert a == [a[0]] + a[1..] && b == [b[0]] + b[1..];
    }
  }

  lemma WithoutHead(a: seq<real>, left: seq<real>)
    requires a != [] && Descending(a) && Above(a, left)
    ensures Descending(a[1..]) && Above(a[1..], left)
    ensures multiset(a[1..]) + multiset(left) == multiset(a) + multiset(left) - multiset{a[0]}
  {
    assert a == [a[0]] + a[1..];
    assert multiset(a) == multiset{a[0]} + multiset(a[1..]);
    assert forall x :: x in a[1..] ==> x in a;
  }

  lemma HeadIsMaximum(a: seq<real>, left: seq<real>)
    requires a != [] && Descending(a) && Above(a, left)
    ensures forall x :: x in multiset(a) + multiset(left) ==> x <= a[0]
  {
    forall x | x in multiset(a) + multiset(left)
      ensures x <= a[0]
    {
      assert x in a || x in left;
      assert a[0] in a;
    }
  }

  /** The scores a run takes from a group are those `TopK` would take from that group on its own. */
  lemma {:induction false} GroupPartIsTopK<Item>(sampler: Sampler, candidates: seq<Candidate<Item>>, n: nat, group: string)
    ensures GroupScores(Run(sampler, candidates, n).selected, group)
         == GroupScores(Run(TopK, OfGroup(candidates, group), CountGroup(Run(sampler, candidates, n).selected, group)).selected, group)
  {
    hide Draw, Run, CountGroup;
    var p := Run(sampler, candidates, n);
    var own := OfGroup(candidates, group);
    var k := CountGroup(p.selected, group);
    var t := Run(TopK, own, k);
    RunIsBestFirst(sampler, candidates, n);
    RunIsBestFirst(TopK, own, k);
    GroupPartIsTop(p, group);
    GroupPartIsTop(t, group);
    ScoresConserved(sampler, candidates, n, group);
    ScoresConserved(TopK, own, k, group);
    OfGroupScores(candidates, group);
    OnlyGroup(TopK, own, k, group);
    SamplingConserves(TopK, own, k);
    assert |multiset(GroupScores(candidates, group))| == |multiset(GroupScores(p.selected, group))| + |multiset(GroupScores(p.remaining, group))|;
    TopIsUnique(GroupScores(p.selected, group), GroupScores(p.remaining, group),
                GroupScores(t.selected, group), GroupScores(t.remaining, group));
  }

  lemma ScoresConserved<Item>(sampler: Sampler, candidates: seq<Candidate<Item>>, n: nat, group: string)
    ensures multiset(GroupScores(Run(sampler, candidates, n).selected, group))
          + multiset(GroupScores(Run(sampler, candidates, n).remaining, group))
         == multiset(GroupScores(candidates, group))
  {
    hide Run;
    var p := Run(sampler, candidates, n);
    SamplingConserves(sampler, candidates, n);
    GroupScoresPermutation(p.selected + p.remaining, candidates, group);
    GroupScoresConcat(p.selected, p.remaining, group);
  }

  /** If all candidates belong to one group, all selections do. */
  lemma OnlyGroup<Item>(sampler: Sampler, candidates: seq<Candidate<Item>>, n: nat, group: string)
    requires forall c :: c in candidates ==> c.group == group
    ensures |GroupScores(Run(sampler, candidates, n).selected, group)| == |Run(sampler, candidates, n).selected|
  {
    hide Run;
    var s := Run(sampler, candidates, n).selected;
    SamplingConserves(sampler, candidates, n);
    forall c | c in s
      ensures c.group == group
    {
      assert c in multiset(candidates);
    }
    CountAll(s, group);
  }

  lemma {:induction false} CountAll<Item>(cs: seq<Candidate<Item>>, group: string)
    requires forall c :: c in cs ==> c.group == group
    ensures CountGroup(cs, group) == |cs|
  {
    if cs != [] {
      assert cs[|cs| - 1] in cs;
      CountAll(cs[..|cs| - 1], group);
    }
  }
}
