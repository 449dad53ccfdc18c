/** How the home feed configures its pipeline, and what that means for the pool it caches. */
module HomePool {
  import opened Wrappers
  import opened Candidates
  import opened Samplers
  import opened Sorting
  import opened Posts
  import opened Dedups
  import opened Pipelines
  import opened CupGame
  import opened Fairness
  import opened HomeFeed
  import opened HomeHistory
  import opened HomePaging

  /** The ActivityPub uri, or the url if a post has none. */
  function Identity(c: Candidate<Post>): string {
    match c.item.uri case Some(uri) => uri case None => c.item.url
  }

  const POOL_SIZE: nat := 300

  function HomeQuotas(hasVector: bool): seq<GroupQuota> {
    if hasVector then [GroupQuota("network", 0.60), GroupQuota("recommended", 0.30), GroupQuota("trending", 0.10)]
    else [GroupQuota("network", 0.70), GroupQuota("trending", 0.30)]
  }

  function HomeDedup(): Dedup<Post> {
    Dedup((c: Candidate<Post>) => Identity(c), (c: Candidate<Post>) => 0)
  }

  const REPEAT_PENALTY: real := 0.15

  /** The diversity scorer: whoever has appeared before among the candidates is penalised. */
  function Diversified(cs: seq<Candidate<Post>>): (scored: seq<Candidate<Post>>)
    ensures SameButScores(cs, scored)
  {
    if cs == [] then []
    else
      var n := |cs| - 1;
      var repeated := exists i :: 0 <= i < n && cs[i].item.author == cs[n].item.author;
      Diversified(cs[..n]) + [if repeated then cs[n].(score := cs[n].score * REPEAT_PENALTY) else cs[n]]
  }

  /** Only repeated authors lose score: the first post of each keeps its own. */
  lemma {:induction false} RepeatsArePenalised(cs: seq<Candidate<Post>>, i: nat)
    requires i < |cs|
    ensures (forall j :: 0 <= j < i ==> cs[j].item.author != cs[i].item.author) ==> Diversified(cs)[i] == cs[i]
    ensures (exists j :: 0 <= j < i && cs[j].item.author == cs[i].item.author) ==> Diversified(cs)[i].score == cs[i].score * 0.15
  {
    var n := |cs| - 1;
    if i < n {
      RepeatsArePenalised(cs[..n], i);
    }
  }

  /** The pipeline of the home feed; `sources` are what the sources returned, and `allowed` is the user's policy. */
  function HomePipeline(sources: seq<SourceSpec<Post>>, allowed: Candidate<Post> -> bool, hasVector: bool): Pipeline<Post> {
    Pipeline(
      sources,
      [],
      [(cs: seq<Candidate<Post>>) => Deduped(HomeDedup(), cs), (cs: seq<Candidate<Post>>) => Filter(cs, allowed)],
      [(cs: seq<Candidate<Post>>) => Diversified(cs)],
      Quota(HomeQuotas(hasVector))
    )
  }

  lemma DedupDropsOnly<Item(!new)>(d: Dedup<Item>, cs: seq<Candidate<Item>>)
    ensures multiset(Deduped(d, cs)) <= multiset(cs)
  {
    FirstPerKeyIsPart(StableSort(cs, d.Before()), d.key);
  }

  /** The home pipeline meets what the theorems about pipelines ask for. */
  lemma {:induction false} HomePipelineIsWellBuilt(sources: seq<SourceSpec<Post>>, allowed: Candidate<Post> -> bool, hasVector: bool)
    ensures WellBuilt(HomePipeline(sources, allowed, hasVector), HomeDedup())
  {
    var p := HomePipeline(sources, allowed, hasVector);
    var d := HomeDedup();
    hide Deduped, Filter, Diversified, HomeQuotas;
    forall cs: seq<Candidate<Post>>
      ensures multiset(p.filters[0](cs)) <= multiset(cs)
      ensures multiset(p.filters[1](cs)) <= multiset(cs)
    {
      DedupDropsOnly(d, cs);
      FilterIsPart(cs, allowed);
    }
    assert DropsOnly(p.filters[0]) && DropsOnly(p.filters[1]);
    assert Is(p.filters[0], d);
    assert ScoresOnly(p.scorers[0]);
  }

  /** `rebuild_pool`: the selected candidates as cached entries, under their uri, or their url if they have none. */
  function PoolEntries(items: seq<Candidate<Post>>): (pool: seq<Entry>)
    ensures |pool| == |items|
    ensures forall i :: 0 <= i < |items| ==>
              && pool[i].uri == (if items[i].item.uri.Some? then items[i].item.uri.value else items[i].item.url)
              && pool[i].group == items[i].group && pool[i].item == items[i].item.content
  {
    seq(|items|, i requires 0 <= i < |items| => Entry(Identity(items[i]), items[i].group, items[i].item.content))
  }

  /** The pool that a rebuild caches. */
  function RebuiltPool(sources: seq<SourceSpec<Post>>, allowed: Candidate<Post> -> bool, hasVector: bool): seq<Entry> {
    PoolEntries(Items(HomePipeline(sources, allowed, hasVector), POOL_SIZE))
  }

  /** Whatever the sources return, a rebuilt pool holds each identity once and fits under the seen cap. */
  lemma {:induction false} RebuiltPoolIsDistinct(sources: seq<SourceSpec<Post>>, allowed: Candidate<Post> -> bool, hasVector: bool)
    ensures DistinctUris(RebuiltPool(sources, allowed, hasVector))
    ensures |RebuiltPool(sources, allowed, hasVector)| <= 300 < CAP
  {
    var p, d := HomePipeline(sources, allowed, hasVector), HomeDedup();
    HomePipelineIsWellBuilt(sources, allowed, hasVector);
    hide Items, HomePipeline, WellBuilt;
    ItemsAreDistinct(p, POOL_SIZE, d);
    ItemsAreSurvivors(p, POOL_SIZE, d);
    var items := Items(p, POOL_SIZE);
    forall i, j | 0 <= i < j < |items|
      ensures Identity(items[i]) != Identity(items[j])
    {
      assert d.key(items[i]) != d.key(items[j]);
    }
  }

  /**
    * Paging by continuation therefore serves a rebuilt pool without repeats and, of what the user had not seen, completely
    * and in rank order, before it is rebuilt again; whatever the seen list was.
    */
  lemma {:induction false} RebuiltPoolIsPagedExhaustively(sources: seq<SourceSpec<Post>>, allowed: Candidate<Post> -> bool, hasVector: bool,
                                       c: Cached, rs: seq<Request>, n: nat)
    requires c.pool == Some(RebuiltPool(sources, allowed, hasVector)) && c.pool.value != [] && |SeenList(c)| <= CAP
    requires forall i :: 0 <= i < |rs| ==> !rs[i].isReload
    requires n < |rs| && NoRebuild(c, rs, n)
    ensures DistinctUris(Concat(Pages(c, rs, n)))
    ensures Kept(Concat(Pages(c, rs, n)), SeenList(c), false) <= Kept(c.pool.value, SeenList(c), false)
    ensures Exhausted(Cache(c, rs, n), rs[n]) ==>
              Kept(Concat(Pages(c, rs, n)), SeenList(c), false) == Kept(c.pool.value, SeenList(c), false)
    ensures n == 300 ==> Exhausted(Cache(c, rs, n), rs[n])
  {
    hide RebuiltPool, DistinctUris, Exhausted, Kept, Last, NoRebuild, Concat, Pages;
    RebuiltPoolIsDistinct(sources, allowed, hasVector);
    PagingBetweenRebuilds(c, c.pool.value, rs, n);
    if n == POOL_SIZE && !Exhausted(Cache(c, rs, n), rs[n]) {
      OneMoreRequest(c, rs, n);
      RunKeepsPaging(c, c.pool.value, rs, n + 1);
      NoMoreThan(c.pool.value, Concat(Pages(c, rs, n + 1)));
    }
  }

  lemma OneMoreRequest(c: Cached, rs: seq<Request>, n: nat)
    requires n < |rs| && NoRebuild(c, rs, n) && !Exhausted(Cache(c, rs, n), rs[n])
    ensures NoRebuild(c, rs, n + 1)
  {
  }

  lemma HomeQuotasAreFair(hasVector: bool)
    ensures FairQuotas(HomeQuotas(hasVector)) && TotalWeight(HomeQuotas(hasVector)) == 1.0
  {
    var quotas := HomeQuotas(hasVector);
    assert TotalWeight(quotas[..1]) == quotas[0].weight by {
      assert quotas[..1][..0] == [];
    }
    assert quotas[..2][..1] == quotas[..1];
    assert TotalWeight(quotas[..2]) == quotas[0].weight + quotas[1].weight;
    if hasVector {
      assert TotalWeight(quotas) == 1.0;
    } else {
      assert quotas[..2] == quotas;
    }
    GroupsDiffer(hasVector);
  }

  lemma GroupsDiffer(hasVector: bool)
    ensures var quotas := HomeQuotas(hasVector);
              forall i, j :: 0 <= i < j < |quotas| ==> quotas[i].group != quotas[j].group
  {
    assert "network"[0] != "recommended"[0] && "network"[0] != "trending"[0] && "recommended"[0] != "trending"[0];
  }

  /** Every ten selections split exactly as configured, as long as no group has run out. */
  lemma {:induction false} HomeSplitIsExact(hasVector: bool, candidates: seq<Candidate<Post>>, limit: nat, t: nat, i: nat)
    requires i < |HomeQuotas(hasVector)|
    requires 0 < 10 * t <= |Run(Quota(HomeQuotas(hasVector)), candidates, limit).selected|
    requires NoneExhausted(HomeQuotas(hasVector), candidates,
                           Run(Quota(HomeQuotas(hasVector)), candidates, limit).selected[..10 * t - 1])
    ensures HomeQuotas(hasVector)[i].group == (if hasVector then ["network", "recommended", "trending"] else ["network", "trending"])[i]
    ensures CountGroup(Run(Quota(HomeQuotas(hasVector)), candidates, limit).selected[..10 * t], HomeQuotas(hasVector)[i].group)
         == t * (if hasVector then [6, 3, 1] else [7, 3])[i]
  {
    hide Run, CountGroup, NoneExhausted;
    var quotas := HomeQuotas(hasVector);
    HomeQuotasAreFair(hasVector);
    var whole := t * (if hasVector then [6, 3, 1] else [7, 3])[i];
    WholeTarget(hasVector, t, i);
    ExactOnWholeTargets(quotas, candidates, limit, 10 * t, i, whole);
  }

  lemma WholeTarget(hasVector: bool, t: nat, i: nat)
    requires i < |HomeQuotas(hasVector)| && TotalWeight(HomeQuotas(hasVector)) == 1.0
    ensures (10 * t) as real * Share(HomeQuotas(hasVector), i) == (t * (if hasVector then [6, 3, 1] else [7, 3])[i]) as real
  {
    hide TotalWeight;
    assert Share(HomeQuotas(hasVector), i) == HomeQuotas(hasVector)[i].weight;
    assert (10 * t) as real == 10.0 * t as real;
  }
}
