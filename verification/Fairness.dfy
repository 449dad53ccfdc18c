/** How closely quota sampling follows its weights, for every prefix of its output. */
module Fairness {
  import opened Wrappers
  import opened Candidates
  import opened Samplers
  import opened CupGame

  /** Weights are non-negative, not all zero, and no group has two quotas. */
  ghost predicate FairQuotas(quotas: seq<GroupQuota>) {
    && (forall i :: 0 <= i < |quotas| ==> quotas[i].weight >= 0.0)
    && TotalWeight(quotas) > 0.0
    && (forall i, j :: 0 <= i < j < |quotas| ==> quotas[i].group != quotas[j].group)
  }

  function Share(quotas: seq<GroupQuota>, i: nat): real
    requires i < |quotas| && TotalWeight(quotas) > 0.0
  {
    quotas[i].weight / TotalWeight(quotas)
  }

  function ShareVector(quotas: seq<GroupQuota>, total: real): seq<real>
    requires total > 0.0
  {
    seq(|quotas|, i requires 0 <= i < |quotas| => quotas[i].weight / total)
  }

  lemma ShareSumStep(a: real, b: real, total: real)
    requires total > 0.0
    ensures a / total + b / total == (a + b) / total
  {
  }

  lemma {:induction false} ShareSum(quotas: seq<GroupQuota>, total: real)
    requires total > 0.0
    ensures Sum(ShareVector(quotas, total)) == TotalWeight(quotas) / total
  {
    if quotas != [] {
      var last := |quotas| - 1;
      ShareSum(quotas[..last], total);
      assert ShareVector(quotas, total)[..last] == ShareVector(quotas[..last], total);
      ShareSumStep(TotalWeight(quotas[..last]), quotas[last].weight, total);
    }
  }

  lemma QuotientNonNegative(a: real, b: real)
    requires a >= 0.0 && b > 0.0
    ensures a / b >= 0.0
  {
  }

  lemma SharesAddUp(quotas: seq<GroupQuota>)
    requires FairQuotas(quotas)
    ensures Shares(ShareVector(quotas, TotalWeight(quotas)))
  {
    hide TotalWeight;
    var total := TotalWeight(quotas);
    ShareSum(quotas, total);
    assert total / total == 1.0;
    forall i | 0 <= i < |quotas|
      ensures quotas[i].weight / total >= 0.0
    {
      QuotientNonNegative(quotas[i].weight, total);
    }
  }

  /** By how much a group with the given share is short of it in a selection. */
  function Shortfall<Item>(share: real, selected: seq<Candidate<Item>>, group: string): real {
    |selected| as real * share - CountGroup(selected, group) as real
  }

  function Levels<Item>(quotas: seq<GroupQuota>, selected: seq<Candidate<Item>>): seq<real>
    requires TotalWeight(quotas) > 0.0
  {
    seq(|quotas|, i requires 0 <= i < |quotas| => Shortfall(Share(quotas, i), selected, quotas[i].group))
  }

  /** The quotas whose groups can still be picked. */
  function Open<Item>(quotas: seq<GroupQuota>, remaining: seq<Candidate<Item>>): set<nat> {
    set i: nat | i < |quotas| && Available(remaining, quotas[i].group)
  }

  lemma {:induction false} CountConserved<Item>(sampler: Sampler, candidates: seq<Candidate<Item>>, n: nat, group: string)
    ensures CountGroup(Run(sampler, candidates, n).selected, group)
          + CountGroup(Run(sampler, candidates, n).remaining, group)
         == CountGroup(candidates, group)
  {
    hide Draw;
    if n == 0 {
      assert CountGroup<Item>([], group) == 0;
    } else {
      hide CountGroup;
      CountConserved(sampler, candidates, n - 1, group);
      DrawConservesCount(sampler, Run(sampler, candidates, n - 1), group);
    }
  }

  lemma DrawConservesCount<Item>(sampler: Sampler, p: Progress<Item>, group: string)
    ensures CountGroup(Draw(sampler, p).selected, group) + CountGroup(Draw(sampler, p).remaining, group)
         == CountGroup(p.selected, group) + CountGroup(p.remaining, group)
    ensures CountGroup(Draw(sampler, p).remaining, group) <= CountGroup(p.remaining, group)
  {
    hide PickIndex, CountGroup;
    match PickIndex(sampler, p.remaining, p.selected)
    case None =>
    case Some(i) =>
      CountGroupSwapRemove(p.remaining, i, group);
      CountGroupAppend(p.selected, p.remaining[i], group);
  }

  lemma OpenShrinks<Item>(quotas: seq<GroupQuota>, candidates: seq<Candidate<Item>>, n: nat)
    ensures Open(quotas, Run(Quota(quotas), candidates, n + 1).remaining)
         <= Open(quotas, Run(Quota(quotas), candidates, n).remaining)
  {
    hide Draw;
    var p, p' := Run(Quota(quotas), candidates, n), Run(Quota(quotas), candidates, n + 1);
    forall i | i in Open(quotas, p'.remaining)
      ensures i in Open(quotas, p.remaining)
    {
      DrawConservesCount(Quota(quotas), p, quotas[i].group);
      assert CountGroup(p'.remaining, quotas[i].group) > 0;
      assert CountGroup(p.remaining, quotas[i].group) > 0;
    }
  }

  /** Comparing deficits is comparing what each group is short of once the next pick's share is added. */
  lemma DeficitScales<Item>(quotas: seq<GroupQuota>, selected: seq<Candidate<Item>>, i: nat)
    requires i < |quotas| && TotalWeight(quotas) > 0.0
    ensures Shortfall(Share(quotas, i), selected, quotas[i].group) + Share(quotas, i)
         == (|selected| + 1) as real * Deficit(quotas[i], TotalWeight(quotas), selected)
  {
    hide CountGroup;
    hide TotalWeight;
    ScaleDifference(|selected| as real, Share(quotas, i), CountGroup(selected, quotas[i].group) as real);
  }

  lemma ScaleDifference(n: real, s: real, c: real)
    requires n >= 0.0
    ensures n * s - c + s == (n + 1.0) * (s - c / (n + 1.0))
  {
    var m := n + 1.0;
    assert m * (c / m) == c;
    assert m * (s - c / m) == m * s - m * (c / m);
  }

  /** As long as a quoted group is available, the next candidate comes from one with the largest deficit. */
  lemma DrawFromNeediest<Item>(quotas: seq<GroupQuota>, p: Progress<Item>) returns (drained: nat, picked: Candidate<Item>)
    requires TotalWeight(quotas) > 0.0
    requires Open(quotas, p.remaining) != {}
    ensures drained in Open(quotas, p.remaining)
    ensures picked.group == quotas[drained].group
    ensures Draw(Quota(quotas), p).selected == p.selected + [picked]
    ensures forall i :: i in Open(quotas, p.remaining) ==>
              Deficit(quotas[i], TotalWeight(quotas), p.selected) <= Deficit(quotas[drained], TotalWeight(quotas), p.selected)
  {
    hide LargestDeficit, Deficit, TotalWeight;
    var total := TotalWeight(quotas);
    var open := Open(quotas, p.remaining);
    var some :| some in open;
    LargestDeficitIsLargest(quotas, total, p.remaining, p.selected, some);
    drained := LargestDeficit(quotas, total, p.remaining, p.selected).value;
    forall i | i in open
      ensures Deficit(quotas[i], total, p.selected) <= Deficit(quotas[drained], total, p.selected)
    {
      LargestDeficitIsLargest(quotas, total, p.remaining, p.selected, i);
    }
    picked := p.remaining[PickIndex(Quota(quotas), p.remaining, p.selected).value];
  }

  /** Such a draw is one round of the cup game. */
  lemma {:induction false} DrawIsRound<Item>(quotas: seq<GroupQuota>, p: Progress<Item>) returns (drained: nat)
    requires FairQuotas(quotas)
    requires Open(quotas, p.remaining) != {}
    ensures Round(Levels(quotas, p.selected), ShareVector(quotas, TotalWeight(quotas)), Open(quotas, p.remaining), drained,
                  Levels(quotas, Draw(Quota(quotas), p).selected))
  {
    hide Shortfall, Deficit, TotalWeight, Draw;
    var picked;
    drained, picked := DrawFromNeediest(quotas, p);
    var total := TotalWeight(quotas);
    var n := (|p.selected| + 1) as real;
    forall i | i in Open(quotas, p.remaining)
      ensures Levels(quotas, p.selected)[i] + Share(quotas, i)
           <= Levels(quotas, p.selected)[drained] + Share(quotas, drained)
    {
      DeficitScales(quotas, p.selected, i);
      DeficitScales(quotas, p.selected, drained);
      MulLe(n, Deficit(quotas[i], total, p.selected), Deficit(quotas[drained], total, p.selected));
    }
    forall i: nat | i < |quotas|
      ensures Levels(quotas, Draw(Quota(quotas), p).selected)[i]
           == Levels(quotas, p.selected)[i] + Share(quotas, i) - if i == drained then 1.0 else 0.0
    {
      DrawChangesShortfall(Share(quotas, i), p.selected, picked, quotas[i].group);
      assert i != drained ==> quotas[i].group != quotas[drained].group;
    }
  }

  lemma DrawChangesShortfall<Item>(share: real, selected: seq<Candidate<Item>>, picked: Candidate<Item>, group: string)
    ensures Shortfall(share, selected + [picked], group)
         == Shortfall(share, selected, group) + share - if picked.group == group then 1.0 else 0.0
  {
    hide CountGroup;
    CountGroupAppend(selected, picked, group);
    assert (|selected| as real + 1.0) * share == |selected| as real * share + share;
  }

  lemma {:induction false} ZeroSum(v: seq<real>, s: set<nat>)
    requires forall i :: 0 <= i < |v| ==> v[i] == 0.0
    ensures SumOver(v, s) == 0.0 && Sum(v) == 0.0
  {
    if v != [] {
      var last := |v| - 1;
      ZeroSum(v[..last], s);
      ZeroSum(v[..last], s - {last});
    }
  }

  lemma NoShortfallYet<Item>(quotas: seq<GroupQuota>)
    requires TotalWeight(quotas) > 0.0
    ensures |Levels<Item>(quotas, [])| == |quotas|
    ensures forall i :: 0 <= i < |quotas| ==> Levels<Item>(quotas, [])[i] == 0.0
  {
    hide TotalWeight, Share;
  }

  lemma StartsBalanced<Item>(quotas: seq<GroupQuota>, inPlay: set<nat>)
    requires TotalWeight(quotas) > 0.0 && Within(inPlay, |quotas|)
    ensures Balanced(Levels<Item>(quotas, []), inPlay)
  {
    hide SumOver, Sum, Allowance;
    var level := Levels<Item>(quotas, []);
    NoShortfallYet<Item>(quotas);
    hide Levels;
    forall s: set<nat> | s <= inPlay
      ensures SumOver(level, s) <= Allowance(|level|, |s|)
    {
      ZeroSum(level, s);
      CardinalityBound(s, |quotas|);
      AllowanceNonNegative(|quotas|, |s|);
    }
  }

  /**
    * After any number of draws, every set of `j` groups that were still available at the last draw is short of
    * its share by at most `j * (H(k) - H(j))` in total.
    */
  lemma {:induction false} RunStaysBalanced<Item>(quotas: seq<GroupQuota>, candidates: seq<Candidate<Item>>, n: nat)
    requires FairQuotas(quotas)
    ensures Balanced(Levels(quotas, Run(Quota(quotas), candidates, n + 1).selected),
                     Open(quotas, Run(Quota(quotas), candidates, n).remaining))
    ensures Balanced(Levels(quotas, Run(Quota(quotas), candidates, n).selected),
                     Open(quotas, Run(Quota(quotas), candidates, n).remaining))
  {
    hide Draw, Shortfall, TotalWeight, Balanced, Round, Shares, ShareVector;
    var p, p' := Run(Quota(quotas), candidates, n), Run(Quota(quotas), candidates, n + 1);
    var open := Open(quotas, p.remaining);
    if n == 0 {
      StartsBalanced<Item>(quotas, open);
    } else {
      RunStaysBalanced(quotas, candidates, n - 1);
      OpenShrinks(quotas, candidates, n - 1);
      FewerInPlay(Levels(quotas, p.selected), Open(quotas, Run(Quota(quotas), candidates, n - 1).remaining), open);
    }
    if open == {} {
      NothingOpen(Levels(quotas, p'.selected), open);
    } else {
      var drained := DrawIsRound(quotas, p);
      SharesAddUp(quotas);
      RoundKeepsBalance(Levels(quotas, p.selected), ShareVector(quotas, TotalWeight(quotas)), open, drained,
                        Levels(quotas, p'.selected));
    }
  }

  lemma {:induction false} SumOverEmpty(v: seq<real>)
    ensures SumOver(v, {}) == 0.0
  {
    if v != [] {
      SumOverEmpty(v[..|v| - 1]);
    }
  }

  lemma FewerInPlay(level: seq<real>, inPlay: set<nat>, fewer: set<nat>)
    requires Balanced(level, inPlay) && fewer <= inPlay
    ensures Balanced(level, fewer)
  {
  }

  lemma NothingOpen(level: seq<real>, inPlay: set<nat>)
    requires inPlay == {}
    ensures Balanced(level, inPlay)
  {
    SumOverEmpty(level);
  }

  /**
    * Starvation bound. Each quoted group that still had a candidate left at the `n`-th draw has at least its
    * share of the first `n` selections less `H(k) - 1`, even if other groups have long run out.
    */
  lemma {:induction false} NoStarvation<Item>(quotas: seq<GroupQuota>, candidates: seq<Candidate<Item>>, limit: nat, n: nat, i: nat)
    requires FairQuotas(quotas) && i < |quotas|
    requires 0 < n <= |Run(Quota(quotas), candidates, limit).selected|
    requires CountGroup(Run(Quota(quotas), candidates, limit).selected[..n - 1], quotas[i].group)
           < CountGroup(candidates, quotas[i].group)
    ensures CountGroup(Run(Quota(quotas), candidates, limit).selected[..n], quotas[i].group) as real
         >= n as real * Share(quotas, i) - (Harmonic(|quotas|) - 1.0)
  {
    hide Run, TotalWeight, Share, CountGroup, Harmonic, NoneExhausted;
    Prefixes(Quota(quotas), candidates, n, limit);
    ShortfallBound(quotas, candidates, n, i);
  }

  lemma ShortfallBound<Item>(quotas: seq<GroupQuota>, candidates: seq<Candidate<Item>>, n: nat, i: nat)
    requires FairQuotas(quotas) && i < |quotas| && n > 0
    requires CountGroup(Run(Quota(quotas), candidates, n - 1).selected, quotas[i].group)
           < CountGroup(candidates, quotas[i].group)
    ensures Shortfall(Share(quotas, i), Run(Quota(quotas), candidates, n).selected, quotas[i].group)
         <= Harmonic(|quotas|) - 1.0
  {
    hide Run, Share, Balanced, TotalWeight, Shortfall;
    var p, p' := Run(Quota(quotas), candidates, n - 1), Run(Quota(quotas), candidates, n);
    CountConserved(Quota(quotas), candidates, n - 1, quotas[i].group);
    assert CountGroup(p.remaining, quotas[i].group) > 0;
    RunStaysBalanced(quotas, candidates, n - 1);
    SingleLevel(Levels(quotas, p'.selected), Open(quotas, p.remaining), i);
  }

  /** A balanced cup in play holds at most `H(k) - 1`. */
  lemma SingleLevel(level: seq<real>, inPlay: set<nat>, i: nat)
    requires Balanced(level, inPlay) && i in inPlay && i < |level|
    ensures level[i] <= Harmonic(|level|) - 1.0
  {
    hide SumOver;
    var one := {i};
    assert SumOver(level, one) <= Allowance(|level|, |one|);
    SumOverEmpty(level);
    SumOverInsert(level, {}, i);
    assert {} + {i} == one;
    assert Harmonic(1) == 1.0;
  }

  /** The first `n` and `n - 1` selections of a run are runs themselves. */
  lemma Prefixes<Item>(sampler: Sampler, candidates: seq<Candidate<Item>>, n: nat, limit: nat)
    requires 0 < n <= |Run(sampler, candidates, limit).selected|
    ensures |Run(sampler, candidates, n).selected| == n
    ensures Run(sampler, candidates, limit).selected[..n] == Run(sampler, candidates, n).selected
    ensures Run(sampler, candidates, limit).selected[..n - 1] == Run(sampler, candidates, n - 1).selected
  {
    hide Draw;
    SamplingConserves(sampler, candidates, limit);
    SamplingConserves(sampler, candidates, n);
    SamplingConserves(sampler, candidates, n - 1);
    RunPrefix(sampler, candidates, n, limit);
    RunPrefix(sampler, candidates, n - 1, limit);
  }

  /** No quoted group had run out at the `n`-th draw. */
  ghost predicate NoneExhausted<Item>(quotas: seq<GroupQuota>, candidates: seq<Candidate<Item>>, selected: seq<Candidate<Item>>) {
    forall i :: 0 <= i < |quotas| ==>
      CountGroup(selected, quotas[i].group) < CountGroup(candidates, quotas[i].group)
  }

  lemma StartsFloored<Item>(quotas: seq<GroupQuota>)
    requires FairQuotas(quotas)
    ensures Floored(Levels<Item>(quotas, []))
  {
    ZeroSum(Levels<Item>(quotas, []), {});
    assert quotas != [];
    MulLe(1.0 / |quotas| as real, 1.0, |quotas| as real);
  }

  lemma {:induction false} RunKeepsFloor<Item>(quotas: seq<GroupQuota>, candidates: seq<Candidate<Item>>, n: nat)
    requires FairQuotas(quotas)
    requires n > 0 ==> NoneExhausted(quotas, candidates, Run(Quota(quotas), candidates, n - 1).selected)
    ensures Floored(Levels(quotas, Run(Quota(quotas), candidates, n).selected))
  {
    if n == 0 {
      StartsFloored<Item>(quotas);
    } else {
      hide Draw, Shortfall, Share, ShareVector, Shares, Round, Floored, TotalWeight;
      var p := Run(Quota(quotas), candidates, n - 1);
      if n > 1 {
        StillAvailableBefore(quotas, candidates, n - 1);
      }
      RunKeepsFloor(quotas, candidates, n - 1);
      AllOpen(quotas, candidates, n - 1);
      var drained := DrawIsRound(quotas, p);
      SharesAddUp(quotas);
      RoundKeepsFloor(Levels(quotas, p.selected), ShareVector(quotas, TotalWeight(quotas)), Open(quotas, p.remaining),
                      drained, Levels(quotas, Draw(Quota(quotas), p).selected));
    }
  }

  lemma AllOpen<Item>(quotas: seq<GroupQuota>, candidates: seq<Candidate<Item>>, n: nat)
    requires FairQuotas(quotas)
    requires NoneExhausted(quotas, candidates, Run(Quota(quotas), candidates, n).selected)
    ensures forall i :: 0 <= i < |quotas| ==> i in Open(quotas, Run(Quota(quotas), candidates, n).remaining)
    ensures 0 in Open(quotas, Run(Quota(quotas), candidates, n).remaining)
  {
    hide Run;
    forall i: nat | i < |quotas|
      ensures i in Open(quotas, Run(Quota(quotas), candidates, n).remaining)
    {
      CountConserved(Quota(quotas), candidates, n, quotas[i].group);
      assert CountGroup(Run(Quota(quotas), candidates, n).remaining, quotas[i].group) > 0;
    }
    assert quotas != [];
  }

  lemma {:induction false} CountPrefix<Item>(cs: seq<Candidate<Item>>, more: seq<Candidate<Item>>, group: string)
    requires cs <= more
    ensures CountGroup(cs, group) <= CountGroup(more, group)
  {
    if |cs| < |more| {
      assert cs <= more[..|more| - 1];
      CountPrefix(cs, more[..|more| - 1], group);
    } else {
      assert cs == more;
    }
  }

  lemma StillAvailableBefore<Item>(quotas: seq<GroupQuota>, candidates: seq<Candidate<Item>>, n: nat)
    requires n > 0
    requires NoneExhausted(quotas, candidates, Run(Quota(quotas), candidates, n).selected)
    ensures NoneExhausted(quotas, candidates, Run(Quota(quotas), candidates, n - 1).selected)
  {
    forall i | 0 <= i < |quotas|
      ensures CountGroup(Run(Quota(quotas), candidates, n - 1).selected, quotas[i].group)
           < CountGroup(candidates, quotas[i].group)
    {
      RunPrefix(Quota(quotas), candidates, n - 1, n);
      CountPrefix(Run(Quota(quotas), candidates, n - 1).selected, Run(Quota(quotas), candidates, n).selected, quotas[i].group);
    }
  }

  /** While no quoted group has run out, no group exceeds its share of a prefix by more than `1 - 1/k`. */
  lemma {:induction false} NoFavouritism<Item>(quotas: seq<GroupQuota>, candidates: seq<Candidate<Item>>, limit: nat, n: nat, i: nat)
    requires FairQuotas(quotas) && i < |quotas|
    requires 0 < n <= |Run(Quota(quotas), candidates, limit).selected|
    requires NoneExhausted(quotas, candidates, Run(Quota(quotas), candidates, limit).selected[..n - 1])
    ensures CountGroup(Run(Quota(quotas), candidates, limit).selected[..n], quotas[i].group) as real
         <= n as real * Share(quotas, i) + 1.0 - 1.0 / |quotas| as real
  {
    hide Run, TotalWeight, Share, CountGroup, NoneExhausted;
    Prefixes(Quota(quotas), candidates, n, limit);
    ShortfallFloor(quotas, candidates, n, i);
  }

  lemma ShortfallFloor<Item>(quotas: seq<GroupQuota>, candidates: seq<Candidate<Item>>, n: nat, i: nat)
    requires FairQuotas(quotas) && i < |quotas| && n > 0
    requires NoneExhausted(quotas, candidates, Run(Quota(quotas), candidates, n - 1).selected)
    ensures Shortfall(Share(quotas, i), Run(Quota(quotas), candidates, n).selected, quotas[i].group)
         >= 1.0 / |quotas| as real - 1.0
  {
    hide Run, TotalWeight, Share, Shortfall, Floored, NoneExhausted;
    RunKeepsFloor(quotas, candidates, n);
    FlooredAt(Levels(quotas, Run(Quota(quotas), candidates, n).selected), i);
  }

  lemma FlooredAt(level: seq<real>, i: nat)
    requires Floored(level) && i < |level|
    ensures level[i] >= 1.0 / |level| as real - 1.0
  {
  }

  /**
    * With at most three quotas, none exhausted, every count is less than one away from its target, so a whole
    * target is met exactly.
    */
  lemma {:induction false} ExactOnWholeTargets<Item>(quotas: seq<GroupQuota>, candidates: seq<Candidate<Item>>, limit: nat, n: nat, i: nat, t: int)
    requires FairQuotas(quotas) && i < |quotas| <= 3
    requires 0 < n <= |Run(Quota(quotas), candidates, limit).selected|
    requires NoneExhausted(quotas, candidates, Run(Quota(quotas), candidates, limit).selected[..n - 1])
    ensures var count := CountGroup(Run(Quota(quotas), candidates, limit).selected[..n], quotas[i].group);
            && n as real * Share(quotas, i) - 1.0 < count as real < n as real * Share(quotas, i) + 1.0
            && (n as real * Share(quotas, i) == t as real ==> count == t)
  {
    hide Run, Share, FairQuotas;
    NoStarvation(quotas, candidates, limit, n, i);
    NoFavouritism(quotas, candidates, limit, n, i);
    HarmonicUpTo3(|quotas|);
  }

  lemma HarmonicUpTo3(k: nat)
    requires 0 < k <= 3
    ensures Harmonic(k) - 1.0 < 1.0 && 1.0 / k as real > 0.0
  {
    assert Harmonic(1) == 1.0;
    assert Harmonic(2) == 1.5;
    assert Harmonic(3) == 1.5 + 1.0 / 3.0;
  }
}
