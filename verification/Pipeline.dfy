/** The feed pipeline: sources, fallback, filters, scorers and a sampler. */
module Pipelines {
  import opened Wrappers
  import opened Candidates
  import opened Samplers
  import opened Sorting
  import opened Dedups

  /** What one source returned, and the group its candidates are put in, if one is prescribed. */
  datatype SourceSpec<Item> = SourceSpec(batch: seq<Candidate<Item>>, overrideGroup: Option<string>)

  type Stage<!Item> = seq<Candidate<Item>> -> seq<Candidate<Item>>

  datatype Pipeline<!Item> = Pipeline(
    sources: seq<SourceSpec<Item>>,
    fallback: seq<SourceSpec<Item>>,
    filters: seq<Stage<Item>>,
    scorers: seq<Stage<Item>>,
    sampler: Sampler
  )

  function Regrouped<Item>(spec: SourceSpec<Item>): (batch: seq<Candidate<Item>>)
    ensures |batch| == |spec.batch|
    ensures spec.overrideGroup.Some? ==> forall c :: c in batch ==> c.group == spec.overrideGroup.value
  {
    match spec.overrideGroup
    case None => spec.batch
    case Some(group) =>
      seq(|spec.batch|, i requires 0 <= i < |spec.batch| => spec.batch[i].(group := group))
  }

  function Collected<Item>(specs: seq<SourceSpec<Item>>): seq<Candidate<Item>> {
    if specs == [] then [] else Collected(specs[..|specs| - 1]) + Regrouped(specs[|specs| - 1])
  }

  /** Fallback sources are asked only if the main ones brought less than half of what is wanted. */
  predicate NeedsFallback<Item>(p: Pipeline<Item>, limit: nat) {
    p.fallback != [] && |Collected(p.sources)| < limit / 2
  }

  function Pool<Item>(p: Pipeline<Item>, limit: nat): seq<Candidate<Item>> {
    Collected(p.sources) + if NeedsFallback(p, limit) then Collected(p.fallback) else []
  }

  function Through<Item>(stages: seq<Stage<Item>>, cs: seq<Candidate<Item>>): seq<Candidate<Item>> {
    if stages == [] then cs else stages[|stages| - 1](Through(stages[..|stages| - 1], cs))
  }

  function Survivors<Item>(p: Pipeline<Item>, limit: nat): seq<Candidate<Item>> {
    Through(p.filters, Pool(p, limit))
  }

  /** `execute`: the selected items, and how many candidates the main sources brought. */
  method Execute<Item>(p: Pipeline<Item>, limit: nat) returns (items: seq<Candidate<Item>>, collected: nat)
    ensures items == Run(p.sampler, Through(p.scorers, Survivors(p, limit)), limit).selected
    ensures collected == |Collected(p.sources)|
  {
    hide Run, Collected;
    var candidates := Collected(p.sources);
    collected := |candidates|;
    if p.fallback != [] && |candidates| < limit / 2 {
      candidates := candidates + Collected(p.fallback);
    }
    assert candidates == Pool(p, limit);
    for i := 0 to |p.filters|
      invariant candidates == Through(p.filters[..i], Pool(p, limit))
    {
      assert p.filters[..i + 1][..i] == p.filters[..i];
      candidates := p.filters[i](candidates);
    }
    assert p.filters[..|p.filters|] == p.filters;
    for i := 0 to |p.scorers|
      invariant candidates == Through(p.scorers[..i], Survivors(p, limit))
    {
      assert p.scorers[..i + 1][..i] == p.scorers[..i];
      candidates := p.scorers[i](candidates);
    }
    assert p.scorers[..|p.scorers|] == p.scorers;
    items := Sample(p.sampler, candidates, limit);
  }

  /** A filter that only drops candidates. */
  ghost predicate DropsOnly<Item(!new)>(f: Stage<Item>) {
    forall cs: seq<Candidate<Item>> :: multiset(f(cs)) <= multiset(cs)
  }

  /** A scorer that changes nothing but scores. */
  ghost predicate ScoresOnly<Item(!new)>(f: Stage<Item>) {
    forall cs: seq<Candidate<Item>> :: SameButScores(cs, f(cs))
  }

  ghost predicate SameButScores<Item>(cs: seq<Candidate<Item>>, cs': seq<Candidate<Item>>) {
    |cs'| == |cs| && forall i :: 0 <= i < |cs| ==> cs'[i] == cs[i].(score := cs'[i].score)
  }

  /** The key does not look at the score. */
  ghost predicate IgnoresScore<Item(!new)>(key: Candidate<Item> -> string) {
    forall c: Candidate<Item>, score: real :: key(c.(score := score)) == key(c)
  }

  ghost predicate Is<Item(!new)>(f: Stage<Item>, d: Dedup<Item>) {
    forall cs: seq<Candidate<Item>> :: f(cs) == Deduped(d, cs)
  }

  /** Distinctness of keys, as a property of the multiset. */
  lemma DistinctPart<Item>(cs: seq<Candidate<Item>>, part: seq<Candidate<Item>>, key: Candidate<Item> -> string)
    requires DistinctKeys(cs, key) && multiset(part) <= multiset(cs)
    ensures DistinctKeys(part, key)
  {
    forall i, j | 0 <= i < j < |part|
      ensures key(part[i]) != key(part[j])
    {
      assert part[i] in multiset(cs) && part[j] in multiset(cs);
      var p :| 0 <= p < |cs| && cs[p] == part[i];
      var q :| 0 <= q < |cs| && cs[q] == part[j];
      if p == q {
        TwiceCounts(part, i, j);
        OnceInDistinct(cs, key, p);
      }
    }
  }

  lemma OnceInDistinct<Item>(cs: seq<Candidate<Item>>, key: Candidate<Item> -> string, p: nat)
    requires DistinctKeys(cs, key) && p < |cs|
    ensures multiset(cs)[cs[p]] == 1
  {
    assert cs == cs[..p] + [cs[p]] + cs[p + 1..];
    assert cs[p] !in cs[..p] && cs[p] !in cs[p + 1..];
  }

  lemma {:induction false} FiltersDropOnly<Item(!new)>(filters: seq<Stage<Item>>, cs: seq<Candidate<Item>>)
    requires forall f :: f in filters ==> DropsOnly(f)
    ensures multiset(Through(filters, cs)) <= multiset(cs)
  {
    if filters != [] {
      FiltersDropOnly(filters[..|filters| - 1], cs);
      assert DropsOnly(filters[|filters| - 1]);
    }
  }

  /** Wherever the deduplication stands among the filters, what passes all of them has distinct keys. */
  lemma {:induction false} FiltersLeaveDistinct<Item(!new)>(filters: seq<Stage<Item>>, cs: seq<Candidate<Item>>, d: Dedup<Item>)
    requires forall f :: f in filters ==> DropsOnly(f)
    requires exists i :: 0 <= i < |filters| && Is(filters[i], d)
    ensures DistinctKeys(Through(filters, cs), d.key)
  {
    var n := |filters| - 1;
    var before := Through(filters[..n], cs);
    if Is(filters[n], d) {
      DedupIsSorted(d, before);
    } else {
      var i :| 0 <= i < |filters| && Is(filters[i], d);
      assert filters[..n][i] == filters[i];
      FiltersLeaveDistinct(filters[..n], cs, d);
      assert DropsOnly(filters[n]);
      DistinctPart(before, filters[n](before), d.key);
    }
  }

  lemma {:induction false} ScorersKeepRest<Item(!new)>(scorers: seq<Stage<Item>>, cs: seq<Candidate<Item>>)
    requires forall f :: f in scorers ==> ScoresOnly(f)
    ensures SameButScores(cs, Through(scorers, cs))
  {
    if scorers != [] {
      var n := |scorers| - 1;
      ScorersKeepRest(scorers[..n], cs);
      assert ScoresOnly(scorers[n]);
      assert SameButScores(Through(scorers[..n], cs), Through(scorers, cs));
    }
  }

  /** Drop-only filters including a deduplication, and scorers that only score. */
  ghost predicate WellBuilt<Item(!new)>(p: Pipeline<Item>, d: Dedup<Item>) {
    && (forall f :: f in p.filters ==> DropsOnly(f))
    && (exists i :: 0 <= i < |p.filters| && Is(p.filters[i], d))
    && (forall f :: f in p.scorers ==> ScoresOnly(f))
    && IgnoresScore(d.key)
  }

  function Items<Item>(p: Pipeline<Item>, limit: nat): seq<Candidate<Item>> {
    Run(p.sampler, Through(p.scorers, Survivors(p, limit)), limit).selected
  }

  /** The result has pairwise distinct keys, whatever the sources returned. */
  lemma {:induction false} ItemsAreDistinct<Item(!new)>(p: Pipeline<Item>, limit: nat, d: Dedup<Item>)
    requires WellBuilt(p, d)
    ensures DistinctKeys(Items(p, limit), d.key)
  {
    var survivors := Survivors(p, limit);
    var scored := Through(p.scorers, survivors);
    FiltersLeaveDistinct(p.filters, Pool(p, limit), d);
    ScorersKeepRest(p.scorers, survivors);
    assert DistinctKeys(scored, d.key);
    SamplingConserves(p.sampler, scored, limit);
    DistinctPart(scored, Items(p, limit), d.key);
  }

  /** It contains only collected candidates that survived every filter, rescored, and as many as there can be. */
  lemma {:induction false} ItemsAreSurvivors<Item(!new)>(p: Pipeline<Item>, limit: nat, d: Dedup<Item>)
    requires WellBuilt(p, d)
    ensures |Items(p, limit)| == if limit <= |Survivors(p, limit)| then limit else |Survivors(p, limit)|
    ensures forall c :: c in Items(p, limit) ==>
              exists u :: u in Survivors(p, limit) && u in Pool(p, limit) && c == u.(score := c.score)
  {
    hide Run, Survivors, Through, Pool;
    var survivors := Survivors(p, limit);
    var scored := Through(p.scorers, survivors);
    SurvivorsAreCollected(p, limit, d);
    ScorersKeepRest(p.scorers, survivors);
    SamplingConserves(p.sampler, scored, limit);
    forall c | c in Items(p, limit)
      ensures exists u :: u in survivors && u in Pool(p, limit) && c == u.(score := c.score)
    {
      assert c in multiset(scored);
      var i :| 0 <= i < |scored| && scored[i] == c;
      assert survivors[i] in survivors;
    }
  }

  lemma SurvivorsAreCollected<Item(!new)>(p: Pipeline<Item>, limit: nat, d: Dedup<Item>)
    requires WellBuilt(p, d)
    ensures forall u :: u in Survivors(p, limit) ==> u in Pool(p, limit)
  {
    FiltersDropOnly(p.filters, Pool(p, limit));
    forall u | u in Survivors(p, limit)
      ensures u in Pool(p, limit)
    {
      assert u in multiset(Survivors(p, limit));
      assert u in multiset(Pool(p, limit));
    }
  }

  /** A fallback candidate is selected only if the main sources brought less than half of what was wanted. */
  lemma {:induction false} FallbackOnlyWhenShort<Item(!new)>(p: Pipeline<Item>, limit: nat, d: Dedup<Item>, c: Candidate<Item>)
    requires WellBuilt(p, d)
    requires c in Items(p, limit)
    requires forall u :: u in Collected(p.sources) ==> c != u.(score := c.score)
    ensures |Collected(p.sources)| < limit / 2
    ensures exists u :: u in Collected(p.fallback) && c == u.(score := c.score)
  {
    hide Items, Survivors, Collected;
    ItemsAreSurvivors(p, limit, d);
  }
}
