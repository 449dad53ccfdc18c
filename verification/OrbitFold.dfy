/** What folding does to a vector, one engagement after the other. */
module OrbitFold {
  import opened Wrappers
  import opened Sorting
  import opened Orbit
  import opened OrbitVectors
  import opened OrbitWorker
  import opened OrbitDelivery
  import opened OrbitReplay

  /** Each vector comes from the one before it, the embedding given for the engagement, and the engagement's kind. */
  ghost predicate Trajectory(vs: seq<Vec>, own: seq<Engagement>, given: seq<Vec>, config: Config) {
    && |given| == |own| && |vs| == |own| + 1
    && forall i :: 0 <= i < |own| ==> vs[i + 1] == config.ema(vs[i], given[i], own[i].kind)
  }

  lemma TrajectoryStep(vs: seq<Vec>, own: seq<Engagement>, given: seq<Vec>, config: Config, e: Engagement, v: Vec)
    requires Trajectory(vs, own, given, config)
    ensures Trajectory(vs + [config.ema(vs[|own|], v, e.kind)], own + [e], given + [v], config)
  {
  }

  /** The engagements of the account whose targets have an embedding, in the given order. */
  ghost function EmbeddedOf(es: seq<Engagement>, account: int, embeddings: map<string, Vec>): seq<Engagement> {
    Filter(es, (e: Engagement) => e.account == account && e.text in embeddings)
  }

  lemma EmbeddedOfStep(es: seq<Engagement>, account: int, embeddings: map<string, Vec>)
    requires es != []
    ensures var e := es[|es| - 1];
            EmbeddedOf(es, account, embeddings)
            == EmbeddedOf(es[..|es| - 1], account, embeddings) + if e.account == account && e.text in embeddings then [e] else []
  {
  }

  /** Folding an account's engagements, spelled out in vectors. */
  lemma {:induction false} FoldTrajectory(start: UserState, es: seq<Engagement>, account: int, embeddings: map<string, Vec>, config: Config)
    returns (vs: seq<Vec>, given: seq<Vec>)
    ensures var own := EmbeddedOf(es, account, embeddings);
            && Trajectory(vs, own, given, config)
            && (forall i :: 0 <= i < |own| ==> own[i].text in embeddings && given[i] == embeddings[own[i].text])
            && vs[0] == start.vector
            && AccountState(start, es, account, embeddings, config) == UserState(vs[|own|], start.count + |own|)
  {
    if es == [] {
      vs, given := [start.vector], [];
    } else {
      var n := |es| - 1;
      EmbeddedOfStep(es, account, embeddings);
      vs, given := FoldTrajectory(start, es[..n], account, embeddings, config);
      var own := EmbeddedOf(es[..n], account, embeddings);
      hide EmbeddedOf, Trajectory;
      if es[n].account == account && es[n].text in embeddings {
        var v := embeddings[es[n].text];
        TrajectoryStep(vs, own, given, config, es[n], v);
        assert Trajectory(vs, own, given, config) ==> |vs| == |own| + 1 && |given| == |own| by {
          TrajectoryLengths(vs, own, given, config);
        }
        vs, given := vs + [config.ema(vs[|own|], v, es[n].kind)], given + [v];
      }
    }
  }

  lemma TrajectoryLengths(vs: seq<Vec>, own: seq<Engagement>, given: seq<Vec>, config: Config)
    ensures Trajectory(vs, own, given, config) ==> |vs| == |own| + 1 && |given| == |own|
  {
  }

  /**
    * What processing stores for an account whose write succeeds: beginning with its stored vector, or with zeros, one
    * average per embedded engagement, in order, and as many more on the count. Other accounts keep what they had.
    */
  lemma {:induction false} StoredTrajectory(vectors: Vectors, es: seq<Engagement>, embeddings: map<string, Vec>, config: Config,
                                            upsertOk: int -> bool, vectors': Vectors, a: int) returns (vs: seq<Vec>, given: seq<Vec>)
    requires Stored(vectors, es, embeddings, config, upsertOk, vectors')
    ensures var own := EmbeddedOf(es, a, embeddings);
            && Trajectory(vs, own, given, config)
            && (forall i :: 0 <= i < |own| ==> own[i].text in embeddings && given[i] == embeddings[own[i].text])
            && vs[0] == (if a in vectors then vectors[a].vector else seq(config.dims, _ => 0.0))
            && if own != [] && upsertOk(a) then
                 && a in vectors'
                 && vectors'[a] == UserState(vs[|own|], (if a in vectors then vectors[a].count else 0) + |own|)
               else (a in vectors' <==> a in vectors) && (a in vectors ==> vectors'[a] == vectors[a])
  {
    vs, given := FoldTrajectory(InitialState(vectors, a, config), es, a, embeddings, config);
    TouchedMeansEmbedded(es, a, embeddings);
    hide AccountState, Touched, EmbeddedOf, Trajectory;
    TrajectoryLengths(vs, EmbeddedOf(es, a, embeddings), given, config);
  }

  lemma TouchedMeansEmbedded(es: seq<Engagement>, a: int, embeddings: map<string, Vec>)
    ensures Touched(es, a, embeddings) <==> EmbeddedOf(es, a, embeddings) != []
  {
    var own := EmbeddedOf(es, a, embeddings);
    if own != [] {
      assert own[0] in own;
      var i :| 0 <= i < |es| && es[i] == own[0];
    }
    if i :| 0 <= i < |es| && es[i].account == a && es[i].text in embeddings {
      assert es[i] in own;
    }
  }

  /** The folds of a log that are about one account. */
  ghost function FoldsOf(log: seq<Fold>, account: int): seq<Fold> {
    Filter(log, (f: Fold) => f.row.account == account)
  }

  ghost function Embeddings(log: seq<Fold>): seq<Vec> {
    seq(|log|, i requires 0 <= i < |log| => log[i].embedding)
  }

  lemma {:induction false} ReplayTrajectory(start: UserState, log: seq<Fold>, account: int, config: Config) returns (vs: seq<Vec>)
    ensures var own := FoldsOf(log, account);
            && Trajectory(vs, Rows(own), Embeddings(own), config)
            && vs[0] == start.vector
            && Replay(start, log, account, config) == UserState(vs[|own|], start.count + |own|)
  {
    if log == [] {
      vs := [start.vector];
    } else {
      var n := |log| - 1;
      vs := ReplayTrajectory(start, log[..n], account, config);
      var own := FoldsOf(log[..n], account);
      if log[n].row.account == account {
        TrajectoryStep(vs, Rows(own), Embeddings(own), config, log[n].row, log[n].embedding);
        assert FoldsOf(log, account) == own + [log[n]];
        hide FoldsOf, Trajectory;
        assert Rows(own + [log[n]]) == Rows(own) + [log[n].row];
        assert Embeddings(own + [log[n]]) == Embeddings(own) + [log[n].embedding];
        TrajectoryLengths(vs, Rows(own), Embeddings(own), config);
        vs := vs + [config.ema(vs[|own|], log[n].embedding, log[n].row.kind)];
      } else {
        assert FoldsOf(log, account) == own;
      }
    }
  }

  /**
    * The vector of an account after any run: beginning with what it was, one average per row that a cycle folded into
    * it, each with the embedding that this cycle was given.
    */
  lemma {:induction false} RunTrajectory(config: Config, states: seq<WorkerState>, inputs: seq<CycleInput>, n: nat, a: int)
    returns (own: seq<Fold>, vs: seq<Vec>)
    requires IsRun(config, states, inputs) && n <= |inputs| < |states|
    ensures own == FoldsOf(RunLog(states, inputs, config, n, a), a)
    ensures forall f :: f in own ==> FoldedBefore(states, inputs, config, n, a, f)
    ensures Trajectory(vs, Rows(own), Embeddings(own), config)
    ensures var start, end := states[0].vectors, states[n].vectors;
            && vs[0] == (if a in start then start[a].vector else seq(config.dims, _ => 0.0))
            && vs[|own|] == (if a in end then end[a].vector else seq(config.dims, _ => 0.0))
            && (if a in end then end[a].count else 0) == (if a in start then start[a].count else 0) + |own|
  {
    hide Replay, RunLog, Trajectory, FoldedBefore;
    VectorsReplayTheLog(config, states, inputs, n, a);
    var log := RunLog(states, inputs, config, n, a);
    own := FoldsOf(log, a);
    vs := ReplayTrajectory(InitialState(states[0].vectors, a, config), log, a, config);
    assert forall f :: f in own ==> f in log;
    hide FoldsOf;
    TrajectoryLengths(vs, Rows(own), Embeddings(own), config);
  }
}
