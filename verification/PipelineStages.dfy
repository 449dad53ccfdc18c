/** The pipeline step by step: what is collected, and what each stage makes of it. */
module PipelineStages {
  import opened Wrappers
  import opened Candidates
  import opened Samplers
  import opened Sorting
  import opened Dedups
  import opened Pipelines

  /** A candidate as its source delivered it, put in the prescribed group if there is one. */
  function InGroup<Item>(c: Candidate<Item>, group: Option<string>): Candidate<Item> {
    if group.Some? then Candidate(c.item, c.score, c.source, group.value) else c
  }

  /** From `offset` on, the candidates are those of the batch. */
  ghost predicate BatchAt<Item>(spec: SourceSpec<Item>, cs: seq<Candidate<Item>>, offset: nat) {
    && offset + |spec.batch| <= |cs|
    && forall i :: 0 <= i < |spec.batch| ==> cs[offset + i] == InGroup(spec.batch[i], spec.overrideGroup)
  }

  /** The batches lie one after the other, at the given offsets. */
  ghost predicate LaidOut<Item>(specs: seq<SourceSpec<Item>>, cs: seq<Candidate<Item>>, offsets: seq<nat>) {
    && |offsets| == |specs| + 1 && offsets[0] == 0 && offsets[|specs|] == |cs|
    && (forall j :: 0 <= j < |specs| ==> offsets[j + 1] == offsets[j] + |specs[j].batch|)
    && (forall j :: 0 <= j < |specs| ==> BatchAt(specs[j], cs, offsets[j]))
  }

  lemma RegroupedAt<Item>(spec: SourceSpec<Item>, cs: seq<Candidate<Item>>)
    ensures BatchAt(spec, cs + Regrouped(spec), |cs|)
  {
  }

  lemma BatchStays<Item>(spec: SourceSpec<Item>, cs: seq<Candidate<Item>>, more: seq<Candidate<Item>>, offset: nat)
    requires BatchAt(spec, cs, offset)
    ensures BatchAt(spec, cs + more, offset)
  {
    hide InGroup;
  }

  lemma LaidOutLonger<Item>(specs: seq<SourceSpec<Item>>, spec: SourceSpec<Item>, cs: seq<Candidate<Item>>, more: seq<Candidate<Item>>, offsets: seq<nat>)
    requires LaidOut(specs, cs, offsets)
    requires |more| == |spec.batch| && BatchAt(spec, cs + more, |cs|)
    ensures LaidOut(specs + [spec], cs + more, offsets + [|cs| + |more|])
  {
    hide BatchAt;
    forall j | 0 <= j < |specs|
      ensures BatchAt(specs[j], cs + more, offsets[j])
    {
      BatchStays(specs[j], cs, more, offsets[j]);
    }
  }

  /** Everything the sources returned is collected, source by source, in order, and only the groups may differ. */
  lemma {:induction false} CollectedInOrder<Item>(specs: seq<SourceSpec<Item>>) returns (offsets: seq<nat>)
    ensures LaidOut(specs, Collected(specs), offsets)
  {
    if specs == [] {
      offsets := [0];
    } else {
      hide Regrouped, InGroup, LaidOut, BatchAt;
      var n := |specs| - 1;
      offsets := CollectedInOrder(specs[..n]);
      var cs, last := Collected(specs[..n]), Regrouped(specs[n]);
      RegroupedAt(specs[n], cs);
      LaidOutLonger(specs[..n], specs[n], cs, last, offsets);
      offsets := offsets + [|cs| + |last|];
      assert specs == specs[..n] + [specs[n]];
    }
  }

  /** The main candidates are used as they are if there is no fallback or they are at least half of what is wanted. */
  lemma {:induction false} PoolByCase<Item>(p: Pipeline<Item>, limit: nat)
    ensures p.fallback == [] || |Collected(p.sources)| >= limit / 2 ==> Pool(p, limit) == Collected(p.sources)
    ensures p.fallback != [] && |Collected(p.sources)| < limit / 2 ==> Pool(p, limit) == Collected(p.sources) + Collected(p.fallback)
  {
  }

  /** What each of some stages was given, and what it made of that. */
  ghost predicate InTurn<Item>(stages: seq<Stage<Item>>, cs: seq<Candidate<Item>>, vs: seq<seq<Candidate<Item>>>) {
    |vs| == |stages| + 1 && vs[0] == cs && forall i :: 0 <= i < |stages| ==> vs[i + 1] == stages[i](vs[i])
  }

  lemma {:induction false} ThroughInTurn<Item>(stages: seq<Stage<Item>>, cs: seq<Candidate<Item>>) returns (vs: seq<seq<Candidate<Item>>>)
    ensures InTurn(stages, cs, vs) && vs[|stages|] == Through(stages, cs)
  {
    if stages == [] {
      vs := [cs];
    } else {
      var n := |stages| - 1;
      vs := ThroughInTurn(stages[..n], cs);
      assert forall i :: 0 <= i < n ==> stages[..n][i] == stages[i];
      vs := vs + [stages[n](vs[n])];
    }
  }

  /**
    * What is selected: every filter in turn, from the pool on, then every scorer in turn, then the sampler on what the
    * last scorer left.
    */
  lemma {:induction false} ItemsStageByStage<Item>(p: Pipeline<Item>, limit: nat) returns (vs: seq<seq<Candidate<Item>>>, ws: seq<seq<Candidate<Item>>>)
    ensures InTurn(p.filters, Pool(p, limit), vs)
    ensures InTurn(p.scorers, vs[|p.filters|], ws)
    ensures Items(p, limit) == Run(p.sampler, ws[|p.scorers|], limit).selected
  {
    hide Run, Pool, Through;
    vs := ThroughInTurn(p.filters, Pool(p, limit));
    ws := ThroughInTurn(p.scorers, vs[|p.filters|]);
  }
}
