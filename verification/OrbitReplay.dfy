/** What the user vectors are after any number of cycles, in terms of the log of applied rows. */
module OrbitReplay {
  import opened Wrappers
  import opened Sorting
  import opened Orbit
  import opened OrbitVectors
  import opened OrbitWorker
  import opened OrbitDelivery

  /** An applied row with the embedding it was applied with. */
  datatype Fold = Fold(row: Engagement, embedding: Vec)

  function Rows(log: seq<Fold>): seq<Engagement> {
    seq(|log|, i requires 0 <= i < |log| => log[i].row)
  }

  /** The state of an account after its rows in a log, in order. */
  function Replay(start: UserState, log: seq<Fold>, account: int, config: Config): UserState {
    if log == [] then start
    else
      var last := log[|log| - 1];
      var before := Replay(start, log[..|log| - 1], account, config);
      if last.row.account == account then Applied(before, last.row, last.embedding, config) else before
  }

  function Folds(es: seq<Engagement>, embeddings: map<string, Vec>): seq<Fold> {
    if es == [] then []
    else
      var e := es[|es| - 1];
      Folds(es[..|es| - 1], embeddings) + if e.text in embeddings then [Fold(e, embeddings[e.text])] else []
  }

  lemma {:induction false} ReplayConcat(start: UserState, a: seq<Fold>, b: seq<Fold>, account: int, config: Config)
    ensures Replay(start, a + b, account, config) == Replay(Replay(start, a, account, config), b, account, config)
  {
    if b == [] {
      assert a + b == a;
    } else {
      assert (a + b)[..|a + b| - 1] == a + b[..|b| - 1];
      ReplayConcat(start, a, b[..|b| - 1], account, config);
    }
  }

  lemma RowsConcat(a: seq<Fold>, b: seq<Fold>)
    ensures Rows(a + b) == Rows(a) + Rows(b)
  {
  }

  lemma {:induction false} FoldsAreEmbedded(es: seq<Engagement>, embeddings: map<string, Vec>)
    ensures Rows(Folds(es, embeddings)) == Embedded(es, embeddings)
  {
    if es != [] {
      var n := |es| - 1;
      var own := if es[n].text in embeddings then [Fold(es[n], embeddings[es[n].text])] else [];
      FoldsAreEmbedded(es[..n], embeddings);
      RowsConcat(Folds(es[..n], embeddings), own);
      assert Embedded(es, embeddings) == Embedded(es[..n], embeddings) + if es[n].text in embeddings then [es[n]] else [];
    }
  }

  /** Rows are folded with the embedding that the service returned for their text in that cycle. */
  lemma {:induction false} FoldsUseGivenEmbeddings(es: seq<Engagement>, embeddings: map<string, Vec>)
    ensures forall f :: f in Folds(es, embeddings) ==>
              f.row in es && f.row.text in embeddings && f.embedding == embeddings[f.row.text]
  {
    if es != [] {
      assert es == es[..|es| - 1] + [es[|es| - 1]];
      FoldsUseGivenEmbeddings(es[..|es| - 1], embeddings);
    }
  }

  lemma {:induction false} ReplayIsAccountState(start: UserState, es: seq<Engagement>, account: int, embeddings: map<string, Vec>, config: Config)
    ensures Replay(start, Folds(es, embeddings), account, config) == AccountState(start, es, account, embeddings, config)
  {
    if es != [] {
      hide Applied;
      var n := |es| - 1;
      ReplayIsAccountState(start, es[..n], account, embeddings, config);
      if es[n].text in embeddings {
        var f := Fold(es[n], embeddings[es[n].text]);
        assert Folds(es, embeddings)[..|Folds(es, embeddings)| - 1] == Folds(es[..n], embeddings);
        assert Folds(es, embeddings)[|Folds(es, embeddings)| - 1] == f;
      } else {
        assert Folds(es, embeddings) == Folds(es[..n], embeddings);
      }
    }
  }

  /** What a cycle folds into the vector of an account: nothing if its write fails. */
  ghost function CycleLog(s: WorkerState, input: CycleInput, config: Config, account: int): seq<Fold>
    requires config.chunkSize > 0
  {
    var sorted := InTime(Batch(s.cursors, input, config));
    if Proceeds(s, input, config) && input.upsertOk(account) then Folds(sorted, AllEmbeddings(sorted, config, input.replies))
    else []
  }

  ghost function RunLog(states: seq<WorkerState>, inputs: seq<CycleInput>, config: Config, n: nat, account: int): seq<Fold>
    requires config.chunkSize > 0 && n <= |inputs| <= |states|
  {
    if n == 0 then []
    else RunLog(states, inputs, config, n - 1, account) + CycleLog(states[n - 1], inputs[n - 1], config, account)
  }

  /** A stored vector is the fold of the cycle, or what it was. */
  lemma StoredState(vectors: Vectors, es: seq<Engagement>, embeddings: map<string, Vec>, config: Config, upsertOk: int -> bool,
                    vectors': Vectors, a: int)
    requires Stored(vectors, es, embeddings, config, upsertOk, vectors')
    ensures InitialState(vectors', a, config) ==
              if upsertOk(a) then AccountState(InitialState(vectors, a, config), es, a, embeddings, config)
              else InitialState(vectors, a, config)
  {
    if !Touched(es, a, embeddings) {
      UntouchedStays(InitialState(vectors, a, config), es, a, embeddings, config);
    }
  }

  lemma CycleReplays(s: WorkerState, input: CycleInput, config: Config, s': WorkerState, a: int)
    requires config.chunkSize > 0 && CycleStep(s, input, config, s')
    ensures InitialState(s'.vectors, a, config) == Replay(InitialState(s.vectors, a, config), CycleLog(s, input, config, a), a, config)
    ensures input.upsertOk(a) ==> s'.applied == s.applied + Rows(CycleLog(s, input, config, a))
  {
    hide Stored, InTime, Batch, AllEmbeddings, Advanced, Embedded, InitialState, AccountState;
    if Proceeds(s, input, config) {
      var sorted := InTime(Batch(s.cursors, input, config));
      var embeddings := AllEmbeddings(sorted, config, input.replies);
      StoredState(s.vectors, sorted, embeddings, config, input.upsertOk, s'.vectors, a);
      FoldsAreEmbedded(sorted, embeddings);
      ReplayIsAccountState(InitialState(s.vectors, a, config), sorted, a, embeddings, config);
    }
  }

  lemma NoLogYet(states: seq<WorkerState>, inputs: seq<CycleInput>, config: Config, account: int)
    requires config.chunkSize > 0 && |inputs| <= |states|
    ensures RunLog(states, inputs, config, 0, account) == []
    ensures Rows(RunLog(states, inputs, config, 0, account)) == []
  {
  }

  lemma RunLogStep(states: seq<WorkerState>, inputs: seq<CycleInput>, config: Config, n: nat, account: int)
    requires config.chunkSize > 0 && 0 < n <= |inputs| <= |states|
    ensures RunLog(states, inputs, config, n, account)
         == RunLog(states, inputs, config, n - 1, account) + CycleLog(states[n - 1], inputs[n - 1], config, account)
  {
    hide CycleLog;
  }

  /** The cycle applied the row, with the embedding that the service returned for its text in that cycle. */
  ghost predicate FoldedIn(s: WorkerState, input: CycleInput, config: Config, f: Fold)
    requires config.chunkSize > 0
  {
    var sorted := InTime(Batch(s.cursors, input, config));
    var embeddings := AllEmbeddings(sorted, config, input.replies);
    Proceeds(s, input, config) && f.row in sorted && f.row.text in embeddings && f.embedding == embeddings[f.row.text]
  }

  lemma CycleLogIsFolded(s: WorkerState, input: CycleInput, config: Config, account: int)
    requires config.chunkSize > 0
    ensures forall f :: f in CycleLog(s, input, config, account) ==> input.upsertOk(account) && FoldedIn(s, input, config, f)
  {
    hide InTime, Batch, AllEmbeddings;
    var sorted := InTime(Batch(s.cursors, input, config));
    FoldsUseGivenEmbeddings(sorted, AllEmbeddings(sorted, config, input.replies));
  }

  /** One of the first `n` cycles applied the row, and wrote the account's vector. */
  ghost predicate FoldedBefore(states: seq<WorkerState>, inputs: seq<CycleInput>, config: Config, n: nat, account: int, f: Fold)
    requires config.chunkSize > 0 && n <= |inputs| <= |states|
  {
    exists i :: 0 <= i < n && inputs[i].upsertOk(account) && FoldedIn(states[i], inputs[i], config, f)
  }

  lemma FoldedLater(states: seq<WorkerState>, inputs: seq<CycleInput>, config: Config, n: nat, account: int, f: Fold)
    requires config.chunkSize > 0 && 0 < n <= |inputs| <= |states|
    requires FoldedBefore(states, inputs, config, n - 1, account, f)
             || (inputs[n - 1].upsertOk(account) && FoldedIn(states[n - 1], inputs[n - 1], config, f))
    ensures FoldedBefore(states, inputs, config, n, account, f)
  {
    hide FoldedIn;
  }

  lemma {:induction false} LogIsFolded(states: seq<WorkerState>, inputs: seq<CycleInput>, config: Config, n: nat, account: int, f: Fold)
    requires config.chunkSize > 0 && n <= |inputs| <= |states|
    requires f in RunLog(states, inputs, config, n, account)
    ensures FoldedBefore(states, inputs, config, n, account, f)
  {
    hide *;
    if n == 0 {
      NoLogYet(states, inputs, config, account);
    } else {
      RunLogStep(states, inputs, config, n, account);
      if f in RunLog(states, inputs, config, n - 1, account) {
        LogIsFolded(states, inputs, config, n - 1, account, f);
      } else {
        CycleLogIsFolded(states[n - 1], inputs[n - 1], config, account);
      }
      FoldedLater(states, inputs, config, n, account, f);
    }
  }

  /**
    * Over any run, the state of an account is the fold, in order, of the rows that the cycles whose write succeeded applied
    * to it, each with the embedding of its own cycle.
    */
  lemma {:induction false} VectorsReplayTheLog(config: Config, states: seq<WorkerState>, inputs: seq<CycleInput>, n: nat, a: int)
    requires IsRun(config, states, inputs) && n <= |inputs|
    ensures InitialState(states[n].vectors, a, config)
         == Replay(InitialState(states[0].vectors, a, config), RunLog(states, inputs, config, n, a), a, config)
    ensures forall f :: f in RunLog(states, inputs, config, n, a) ==> FoldedBefore(states, inputs, config, n, a, f)
  {
    hide *;
    RunShape(config, states, inputs);
    StatesReplayTheLog(config, states, inputs, n, a);
    forall f | f in RunLog(states, inputs, config, n, a)
      ensures FoldedBefore(states, inputs, config, n, a, f)
    {
      LogIsFolded(states, inputs, config, n, a, f);
    }
  }

  lemma NothingReplayed(states: seq<WorkerState>, inputs: seq<CycleInput>, config: Config, account: int)
    requires config.chunkSize > 0 && |inputs| <= |states|
    ensures forall start :: Replay(start, RunLog(states, inputs, config, 0, account), account, config) == start
  {
  }

  lemma {:induction false} StatesReplayTheLog(config: Config, states: seq<WorkerState>, inputs: seq<CycleInput>, n: nat, a: int)
    requires IsRun(config, states, inputs) && n <= |inputs|
    ensures InitialState(states[n].vectors, a, config)
         == Replay(InitialState(states[0].vectors, a, config), RunLog(states, inputs, config, n, a), a, config)
  {
    hide *;
    RunShape(config, states, inputs);
    if n == 0 {
      NothingReplayed(states, inputs, config, a);
    } else {
      CycleOf(config, states, inputs, n - 1);
      StatesReplayTheLog(config, states, inputs, n - 1, a);
      CycleReplays(states[n - 1], inputs[n - 1], config, states[n], a);
      RunLogStep(states, inputs, config, n, a);
      ReplayConcat(InitialState(states[0].vectors, a, config), RunLog(states, inputs, config, n - 1, a),
                   CycleLog(states[n - 1], inputs[n - 1], config, a), a, config);
    }
  }

  /** If all writes for an account succeed, the rows folded into its vector are those of the log of everything applied. */
  lemma {:induction false} LogIsApplied(config: Config, states: seq<WorkerState>, inputs: seq<CycleInput>, n: nat, a: int)
    requires IsRun(config, states, inputs) && n <= |inputs|
    requires states[0].applied == []
    requires forall i :: 0 <= i < n ==> inputs[i].upsertOk(a)
    ensures Rows(RunLog(states, inputs, config, n, a)) == states[n].applied
  {
    hide *;
    RunShape(config, states, inputs);
    if n == 0 {
      NoLogYet(states, inputs, config, a);
    } else {
      CycleOf(config, states, inputs, n - 1);
      LogIsApplied(config, states, inputs, n - 1, a);
      CycleReplays(states[n - 1], inputs[n - 1], config, states[n], a);
      RunLogStep(states, inputs, config, n, a);
      RowsConcat(RunLog(states, inputs, config, n - 1, a), CycleLog(states[n - 1], inputs[n - 1], config, a));
    }
  }

  lemma {:induction false} ReplayCounts(start: UserState, log: seq<Fold>, a: int, config: Config)
    ensures Replay(start, log, a, config).count == start.count + |OfAccount(Rows(log), a)|
  {
    if log != [] {
      var n := |log| - 1;
      ReplayCounts(start, log[..n], a, config);
      assert Rows(log) == Rows(log[..n]) + [log[n].row];
      OfAccountStep(Rows(log[..n]), log[n].row, a);
    } else {
      NoEngagements(a);
    }
  }

  /** If all writes for an account succeed, its count grows by the number of its rows in the log, each counted once. */
  lemma {:induction false} CountsMatchTheLog(config: Config, states: seq<WorkerState>, inputs: seq<CycleInput>, n: nat, a: int)
    requires IsRun(config, states, inputs) && n <= |inputs|
    requires states[0].applied == []
    requires forall i :: 0 <= i < n ==> inputs[i].upsertOk(a)
    ensures InitialState(states[n].vectors, a, config).count
         == InitialState(states[0].vectors, a, config).count + |OfAccount(states[n].applied, a)|
    ensures Unique(OfAccount(states[n].applied, a))
  {
    hide InitialState, Replay, RunLog, OfAccount;
    VectorsReplayTheLog(config, states, inputs, n, a);
    LogIsApplied(config, states, inputs, n, a);
    ReplayCounts(InitialState(states[0].vectors, a, config), RunLog(states, inputs, config, n, a), a, config);
    AtMostOnce(config, states, inputs, n);
    OwnRowsUnique(states[n].applied, a);
  }

  lemma OwnRowsUnique(es: seq<Engagement>, a: int)
    requires Unique(es)
    ensures Unique(OfAccount(es, a))
  {
    FilterUnique(es, (e: Engagement) => e.account == a);
  }
}
