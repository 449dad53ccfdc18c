/** Which candidate a sampler takes, by the rule and in numbers. */
module SamplerChoice {
  import opened Wrappers
  import opened Candidates
  import opened Samplers
  import opened SamplerOrder
  import opened CupGame
  import opened Fairness

  ghost function PlacesOf<Item>(cs: seq<Candidate<Item>>, group: string): set<int> {
    set i | 0 <= i < |cs| && cs[i].group == group
  }

  lemma PlacesStep<Item>(cs: seq<Candidate<Item>>, group: string)
    requires cs != []
    ensures var n := |cs| - 1;
            PlacesOf(cs, group) == PlacesOf(cs[..n], group) + (if cs[n].group == group then {n} else {}) && n !in PlacesOf(cs[..n], group)
  {
    var n := |cs| - 1;
    assert forall i :: 0 <= i < n ==> cs[..n][i] == cs[i];
  }

  /** The count of a group is the number of positions at which it stands. */
  lemma {:induction false} CountGroupCounts<Item>(cs: seq<Candidate<Item>>, group: string)
    ensures CountGroup(cs, group) == |PlacesOf(cs, group)|
  {
    if cs == [] {
      assert PlacesOf(cs, group) == {};
    } else {
      CountGroupCounts(cs[..|cs| - 1], group);
      PlacesStep(cs, group);
    }
  }

  ghost function Weights(quotas: seq<GroupQuota>): seq<real> {
    seq(|quotas|, i requires 0 <= i < |quotas| => quotas[i].weight)
  }

  lemma {:induction false} TotalIsSum(quotas: seq<GroupQuota>)
    ensures TotalWeight(quotas) == Sum(Weights(quotas))
  {
    if quotas != [] {
      var n := |quotas| - 1;
      TotalIsSum(quotas[..n]);
      assert Weights(quotas)[..n] == Weights(quotas[..n]);
    }
  }

  /** The best score among some candidates, and of several best ones the last. */
  ghost predicate IsBest<Item>(cs: seq<Candidate<Item>>, i: nat) {
    && i < |cs|
    && (forall j :: 0 <= j < |cs| ==> cs[j].score <= cs[i].score)
    && (forall j :: i < j < |cs| ==> cs[j].score < cs[i].score)
  }

  ghost predicate IsBestOfGroup<Item>(cs: seq<Candidate<Item>>, group: string, i: nat) {
    && i < |cs| && cs[i].group == group
    && (forall j :: 0 <= j < |cs| && cs[j].group == group ==> cs[j].score <= cs[i].score)
    && (forall j :: i < j < |cs| && cs[j].group == group ==> cs[j].score < cs[i].score)
  }

  /** Some quota names a group of which something remains. */
  ghost predicate SomethingQuoted<Item>(quotas: seq<GroupQuota>, remaining: seq<Candidate<Item>>) {
    exists q, i :: 0 <= q < |quotas| && 0 <= i < |remaining| && remaining[i].group == quotas[q].group
  }

  /** Without weights, or with nothing quoted left, the best of all is taken; and so it is by the plain sampler. */
  lemma {:induction false} PicksBestOfAll<Item>(sampler: Sampler, remaining: seq<Candidate<Item>>, selected: seq<Candidate<Item>>)
    requires remaining != []
    requires sampler.TopK? || Sum(Weights(sampler.quotas)) <= 0.0 || !SomethingQuoted(sampler.quotas, remaining)
    ensures PickIndex(sampler, remaining, selected).Some?
    ensures IsBest(remaining, PickIndex(sampler, remaining, selected).value)
  {
    if sampler.Quota? {
      TotalIsSum(sampler.quotas);
    }
    hide TotalWeight, LargestDeficit, Sum;
    assert forall j :: 0 <= j < |remaining| ==> Admits(None, remaining[j]);
  }

  /** What a quota wants of the next selection: its share of the weights, less its share of the selections so far and the next. */
  ghost function Want<Item>(quotas: seq<GroupQuota>, q: nat, selected: seq<Candidate<Item>>): real
    requires q < |quotas| && Sum(Weights(quotas)) > 0.0
  {
    quotas[q].weight / Sum(Weights(quotas))
    - |PlacesOf(selected, quotas[q].group)| as real / (|selected| + 1) as real
  }

  ghost predicate Remains<Item>(remaining: seq<Candidate<Item>>, group: string) {
    exists i :: 0 <= i < |remaining| && remaining[i].group == group
  }

  lemma WantIsDeficit<Item>(quotas: seq<GroupQuota>, q: nat, selected: seq<Candidate<Item>>)
    requires q < |quotas| && Sum(Weights(quotas)) > 0.0
    ensures TotalWeight(quotas) > 0.0 && Want(quotas, q, selected) == Deficit(quotas[q], TotalWeight(quotas), selected)
  {
    hide Sum, TotalWeight;
    TotalIsSum(quotas);
    CountGroupCounts(selected, quotas[q].group);
  }

  /**
    * The rule of quota sampling: among the quotas whose group still has candidates, the first that wants most; and of its
    * group the best candidate.
    */
  lemma {:induction false} PicksForNeediest<Item>(quotas: seq<GroupQuota>, remaining: seq<Candidate<Item>>, selected: seq<Candidate<Item>>)
    returns (q: nat)
    requires Sum(Weights(quotas)) > 0.0 && SomethingQuoted(quotas, remaining)
    ensures q < |quotas| && Remains(remaining, quotas[q].group)
    ensures forall r :: 0 <= r < |quotas| && Remains(remaining, quotas[r].group) ==> Want(quotas, r, selected) <= Want(quotas, q, selected)
    ensures forall r :: 0 <= r < q && Remains(remaining, quotas[r].group) ==> Want(quotas, r, selected) < Want(quotas, q, selected)
    ensures PickIndex(Quota(quotas), remaining, selected).Some?
    ensures IsBestOfGroup(remaining, quotas[q].group, PickIndex(Quota(quotas), remaining, selected).value)
  {
    TotalIsSum(quotas);
    hide TotalWeight, LargestDeficit, Sum, Want, Deficit;
    var total := TotalWeight(quotas);
    var r0, i0 :| 0 <= r0 < |quotas| && 0 <= i0 < |remaining| && remaining[i0].group == quotas[r0].group;
    assert Available(remaining, quotas[r0].group);
    LargestDeficitIsLargest(quotas, total, remaining, selected, r0);
    q := LargestDeficit(quotas, total, remaining, selected).value;
    WantIsDeficit(quotas, q, selected);
    forall r | 0 <= r < |quotas| && Remains(remaining, quotas[r].group)
      ensures Want(quotas, r, selected) <= Want(quotas, q, selected)
      ensures r < q ==> Want(quotas, r, selected) < Want(quotas, q, selected)
    {
      assert Available(remaining, quotas[r].group);
      LargestDeficitIsLargest(quotas, total, remaining, selected, r);
      WantIsDeficit(quotas, r, selected);
    }
    PickedOfGroup(quotas, remaining, selected, q);
  }

  lemma PickedOfGroup<Item>(quotas: seq<GroupQuota>, remaining: seq<Candidate<Item>>, selected: seq<Candidate<Item>>, q: nat)
    requires TotalWeight(quotas) > 0.0
    requires LargestDeficit(quotas, TotalWeight(quotas), remaining, selected) == Some(q)
    ensures q < |quotas| && Remains(remaining, quotas[q].group)
    ensures PickIndex(Quota(quotas), remaining, selected).Some?
    ensures IsBestOfGroup(remaining, quotas[q].group, PickIndex(Quota(quotas), remaining, selected).value)
  {
    hide TotalWeight, LargestDeficit;
    var i :| 0 <= i < |remaining| && remaining[i].group == quotas[q].group;
    assert Admits(Some(quotas[q].group), remaining[i]);
    assert forall j :: 0 <= j < |remaining| ==> (Admits(Some(quotas[q].group), remaining[j]) <==> remaining[j].group == quotas[q].group);
  }

  /** Whatever was taken earlier scores at least as much as what was taken later, or not at all. */
  ghost predicate BestOverall<Item>(p: Progress<Item>) {
    && (forall i, j :: 0 <= i < j < |p.selected| ==> p.selected[i].score >= p.selected[j].score)
    && (forall i, c :: 0 <= i < |p.selected| && c in p.remaining ==> p.selected[i].score >= c.score)
  }

  /** A pick, and what it leaves: everything that remains then remained before. */
  lemma BestDraw<Item>(p: Progress<Item>) returns (c: Candidate<Item>)
    requires p.remaining != []
    ensures c in p.remaining && forall d :: d in p.remaining ==> d.score <= c.score
    ensures Draw(TopK, p).selected == p.selected + [c]
    ensures forall d :: d in Draw(TopK, p).remaining ==> d in p.remaining
  {
    PicksBestOfAll(TopK, p.remaining, p.selected);
    DrawTakesFrom(TopK, p);
    hide PickIndex;
    c := p.remaining[PickIndex(TopK, p.remaining, p.selected).value];
  }

  lemma DrawKeepsBestOverall<Item>(p: Progress<Item>)
    requires BestOverall(p)
    ensures BestOverall(Draw(TopK, p))
  {
    if p.remaining != [] {
      hide Draw;
      var c := BestDraw(p);
    }
  }

  /** The plain sampler takes the best scores of all, best first. */
  lemma {:induction false} TopKTakesTheBest<Item>(candidates: seq<Candidate<Item>>, n: nat)
    ensures BestOverall(Run(TopK, candidates, n))
  {
    if n > 0 {
      hide Draw, BestOverall;
      TopKTakesTheBest(candidates, n - 1);
      DrawKeepsBestOverall(Run(TopK, candidates, n - 1));
    } else {
      assert BestOverall(Run<Item>(TopK, candidates, 0));
    }
  }
}
