/** The samplers of the feed crate and the loop that drives them. */
module Samplers {
  import opened Wrappers
  import opened Candidates

  datatype GroupQuota = GroupQuota(group: string, weight: real)

  /** The implementations of the sampler trait. */
  datatype Sampler = TopK | Quota(quotas: seq<GroupQuota>)

  function TotalWeight(quotas: seq<GroupQuota>): real {
    if quotas == [] then 0.0
    else TotalWeight(quotas[..|quotas| - 1]) + quotas[|quotas| - 1].weight
  }

  /** Whether a candidate takes part in a choice; `None` admits every group. */
  predicate Admits<Item>(only: Option<string>, c: Candidate<Item>) {
    only == None || only == Some(c.group)
  }

  /** `max_by` on the score: of several best candidates the last one wins. */
  function HighestScored<Item>(cs: seq<Candidate<Item>>, only: Option<string>): (best: Option<nat>)
    ensures best == None <==> forall j :: 0 <= j < |cs| ==> !Admits(only, cs[j])
    ensures best.Some? ==>
              && best.value < |cs|
              && Admits(only, cs[best.value])
              && (forall j :: 0 <= j < |cs| && Admits(only, cs[j]) ==> cs[j].score <= cs[best.value].score)
              && (forall j :: best.value < j < |cs| && Admits(only, cs[j]) ==> cs[j].score < cs[best.value].score)
  {
    if cs == [] then None
    else
      var n := |cs| - 1;
      assert cs == cs[..n] + [cs[n]];
      var before := HighestScored(cs[..n], only);
      if Admits(only, cs[n]) && (before == None || cs[n].score >= cs[before.value].score) then Some(n) else before
  }

  /** A group is available while one of its candidates has not been selected. */
  predicate Available<Item>(remaining: seq<Candidate<Item>>, group: string) {
    exists i :: 0 <= i < |remaining| && remaining[i].group == group
  }

  /** How far a group is below its target share if `n` candidates were selected. */
  function Deficit<Item>(quota: GroupQuota, total: real, selected: seq<Candidate<Item>>): real
    requires total > 0.0
  {
    quota.weight / total - CountGroup(selected, quota.group) as real / (|selected| + 1) as real
  }

  /** The first available quota with the largest deficit. */
  function LargestDeficit<Item>(quotas: seq<GroupQuota>, total: real, remaining: seq<Candidate<Item>>,
                                selected: seq<Candidate<Item>>): (best: Option<nat>)
    requires total > 0.0
    ensures best.Some? ==> best.value < |quotas| && Available(remaining, quotas[best.value].group)
  {
    if quotas == [] then None
    else
      var n := |quotas| - 1;
      var before := LargestDeficit(quotas[..n], total, remaining, selected);
      if Available(remaining, quotas[n].group)
         && (before == None
             || Deficit(quotas[n], total, selected) > Deficit(quotas[before.value], total, selected))
      then Some(n) else before
  }

  /** What the quota loop finds: nothing only if no quoted group is available, and of several equals the first. */
  lemma {:induction false} LargestDeficitIsLargest<Item>(quotas: seq<GroupQuota>, total: real, remaining: seq<Candidate<Item>>,
                                                         selected: seq<Candidate<Item>>, j: nat)
    requires total > 0.0
    requires j < |quotas| && Available(remaining, quotas[j].group)
    ensures var best := LargestDeficit(quotas, total, remaining, selected);
            && best.Some?
            && Deficit(quotas[j], total, selected) <= Deficit(quotas[best.value], total, selected)
            && (j < best.value ==> Deficit(quotas[j], total, selected) < Deficit(quotas[best.value], total, selected))
  {
    var n := |quotas| - 1;
    if j < n {
      LargestDeficitIsLargest(quotas[..n], total, remaining, selected, j);
    }
  }

  /** The index a sampler picks; `None` exactly when nothing remains. */
  function PickIndex<Item>(sampler: Sampler, remaining: seq<Candidate<Item>>, selected: seq<Candidate<Item>>): (pick: Option<nat>)
    ensures pick == None <==> remaining == []
    ensures pick.Some? ==> pick.value < |remaining|
  {
    assert remaining != [] ==> Admits(None, remaining[0]);
    if remaining == [] then None
    else if sampler.TopK? || TotalWeight(sampler.quotas) <= 0.0 then HighestScored(remaining, None)
    else
      match LargestDeficit(sampler.quotas, TotalWeight(sampler.quotas), remaining, selected)
      case Some(q) =>
        assert exists j :: 0 <= j < |remaining| && Admits(Some(sampler.quotas[q].group), remaining[j]);
        HighestScored(remaining, Some(sampler.quotas[q].group))
      case None => HighestScored(remaining, None)
  }

  /** `QuotaSampler::pick`. */
  method Pick<Item>(quotas: seq<GroupQuota>, remaining: seq<Candidate<Item>>, selected: seq<Candidate<Item>>)
    returns (pick: Option<nat>)
    ensures pick == PickIndex(Quota(quotas), remaining, selected)
  {
    if remaining == [] {
      return None;
    }
    var total := TotalWeight(quotas);
    if total <= 0.0 {
      return HighestScored(remaining, None);
    }
    var n := |selected| + 1;
    var best: Option<nat>, bestDeficit := None, 0.0;
    for i := 0 to |quotas|
      invariant best == LargestDeficit(quotas[..i], total, remaining, selected)
      invariant best.Some? ==> bestDeficit == Deficit(quotas[best.value], total, selected)
    {
      assert quotas[..i + 1][..i] == quotas[..i];
      var quota := quotas[i];
      if !Available(remaining, quota.group) {
        continue;
      }
      var target := quota.weight / total;
      var actual := CountGroup(selected, quota.group) as real / n as real;
      if best == None || target - actual > bestDeficit {
        bestDeficit := target - actual;
        best := Some(i);
      }
    }
    assert quotas[..|quotas|] == quotas;
    match best {
      case Some(q) => pick := HighestScored(remaining, Some(quotas[q].group));
      case None => pick := HighestScored(remaining, None);
    }
  }

  /** What `sample` has selected so far, and what it can still select. */
  datatype Progress<Item> = Progress(selected: seq<Candidate<Item>>, remaining: seq<Candidate<Item>>)

  /** One round of the sampling loop. */
  function Draw<Item>(sampler: Sampler, p: Progress<Item>): Progress<Item> {
    match PickIndex(sampler, p.remaining, p.selected)
    case None => p
    case Some(i) => Progress(p.selected + [p.remaining[i]], SwapRemove(p.remaining, i))
  }

  /** The state of the sampling loop after `n` rounds. */
  function Run<Item>(sampler: Sampler, candidates: seq<Candidate<Item>>, n: nat): Progress<Item> {
    if n == 0 then Progress([], candidates) else Draw(sampler, Run(sampler, candidates, n - 1))
  }

  /** Sampling neither invents nor loses candidates, and stops early only when nothing remains. */
  lemma {:induction false} SamplingConserves<Item>(sampler: Sampler, candidates: seq<Candidate<Item>>, n: nat)
    ensures multiset(Run(sampler, candidates, n).selected) + multiset(Run(sampler, candidates, n).remaining)
         == multiset(candidates)
    ensures |Run(sampler, candidates, n).selected| == if n <= |candidates| then n else |candidates|
    ensures |Run(sampler, candidates, n).selected| + |Run(sampler, candidates, n).remaining| == |candidates|
  {
    hide Draw;
    if n > 0 {
      SamplingConserves(sampler, candidates, n - 1);
      DrawConserves(sampler, Run(sampler, candidates, n - 1));
    }
  }

  lemma DrawConserves<Item>(sampler: Sampler, p: Progress<Item>)
    ensures multiset(Draw(sampler, p).selected) + multiset(Draw(sampler, p).remaining)
         == multiset(p.selected) + multiset(p.remaining)
    ensures |Draw(sampler, p).selected| == |p.selected| + if p.remaining == [] then 0 else 1
    ensures |Draw(sampler, p).selected| + |Draw(sampler, p).remaining| == |p.selected| + |p.remaining|
  {
    hide PickIndex;
    match PickIndex(sampler, p.remaining, p.selected)
    case None =>
    case Some(i) => SwapRemoveTakesOne(p.remaining, i);
  }

  /** `sample`: draws at most `n` candidates. */
  method Sample<Item>(sampler: Sampler, input: seq<Candidate<Item>>, n: nat) returns (selected: seq<Candidate<Item>>)
    ensures selected == Run(sampler, input, n).selected
  {
    selected := [];
    var candidates := input;
    for round := 0 to n
      invariant Progress(selected, candidates) == Run(sampler, input, round)
    {
      if candidates == [] {
        RunEnds(sampler, input, round, n);
        break;
      }
      var pick := None;
      match sampler {
        case TopK => pick := HighestScored(candidates, None);
        case Quota(quotas) => pick := Pick(quotas, candidates, selected);
      }
      assert pick == PickIndex(sampler, candidates, selected);
      selected, candidates := selected + [candidates[pick.value]], SwapRemove(candidates, pick.value);
    }
  }

  /** Once nothing remains, further rounds change nothing. */
  lemma {:induction false} RunEnds<Item>(sampler: Sampler, candidates: seq<Candidate<Item>>, m: nat, n: nat)
    requires m <= n
    requires Run(sampler, candidates, m).remaining == []
    ensures Run(sampler, candidates, n) == Run(sampler, candidates, m)
  {
    if m < n {
      RunEnds(sampler, candidates, m, n - 1);
    }
  }

  /** A round appends to the selection, and takes from what remains. */
  lemma DrawExtends<Item>(sampler: Sampler, p: Progress<Item>)
    ensures p.selected <= Draw(sampler, p).selected
  {
  }

  /** The first `m` selections of a longer run are the selections of a run of `m` rounds. */
  lemma {:induction false} RunPrefix<Item>(sampler: Sampler, candidates: seq<Candidate<Item>>, m: nat, n: nat)
    requires m <= n
    ensures Run(sampler, candidates, m).selected <= Run(sampler, candidates, n).selected
  {
    hide Draw;
    if m < n {
      RunPrefix(sampler, candidates, m, n - 1);
      DrawExtends(sampler, Run(sampler, candidates, n - 1));
    }
  }
}
