/** Exactly when the worker applies every row it moves its cursor past. */
module OrbitExact {
  import opened Wrappers
  import opened Sorting
  import opened Orbit
  import opened OrbitVectors
  import opened OrbitWorker
  import opened OrbitDelivery

  /** `e` was polled for this cycle, and the cycle goes on to save cursors. */
  ghost predicate Handled(s: WorkerState, input: CycleInput, config: Config, e: Engagement)
    requires config.chunkSize > 0
  {
    Proceeds(s, input, config) && e in InTime(Batch(s.cursors, input, config))
  }

  ghost predicate GotEmbedding(s: WorkerState, input: CycleInput, config: Config, e: Engagement)
    requires config.chunkSize > 0
  {
    e.text in AllEmbeddings(InTime(Batch(s.cursors, input, config)), config, input.replies)
  }

  /** A row without embedding lies below a row of its kind with one. */
  ghost predicate Hole(s: WorkerState, input: CycleInput, config: Config, k: Kind)
    requires config.chunkSize > 0
  {
    exists e, f :: && Handled(s, input, config, e) && Handled(s, input, config, f)
                   && e.kind == k && f.kind == k && e.id < f.id
                   && !GotEmbedding(s, input, config, e) && GotEmbedding(s, input, config, f)
  }

  /** A cycle moves the cursor past a row that its source lists. */
  ghost predicate PassedBy(s: WorkerState, input: CycleInput, s': WorkerState, k: Kind, r: Engagement) {
    r in input.rows(k) && CursorOf(s.cursors, k) < r.id <= CursorOf(s'.cursors, k)
  }

  /** One of the first `n` cycles moves the cursor past the row. */
  ghost predicate Passed(states: seq<WorkerState>, inputs: seq<CycleInput>, n: nat, k: Kind, r: Engagement)
    requires n <= |inputs| < |states|
  {
    exists i :: 0 <= i < n && PassedBy(states[i], inputs[i], states[i + 1], k, r)
  }

  /** Some row was passed without being applied. */
  ghost predicate Missed(states: seq<WorkerState>, inputs: seq<CycleInput>, n: nat, k: Kind)
    requires n <= |inputs| < |states|
  {
    exists r :: Passed(states, inputs, n, k, r) && r !in states[n].applied
  }

  /** What a cycle does to one kind, in terms of the polled rows. */
  lemma CycleEffect(s: WorkerState, input: CycleInput, config: Config, s': WorkerState, e: Engagement)
    requires config.chunkSize > 0 && RowsOk(input.rows) && CycleStep(s, input, config, s')
    ensures e in s'.applied <==> e in s.applied || (Handled(s, input, config, e) && GotEmbedding(s, input, config, e))
    ensures Handled(s, input, config, e) ==> e in input.rows(e.kind) && e.id > CursorOf(s.cursors, e.kind)
    ensures Handled(s, input, config, e) && GotEmbedding(s, input, config, e) ==> e.id <= CursorOf(s'.cursors, e.kind)
  {
    if Proceeds(s, input, config) {
      hide InTime, Batch, AllEmbeddings, Stored, MaxProcessed, Advanced, PolledKind, CursorOf;
      var sorted := InTime(Batch(s.cursors, input, config));
      var embeddings := AllEmbeddings(sorted, config, input.replies);
      SortedMembers(s.cursors, input, config);
      PartMembers(s.cursors, input, config, e.kind);
      CursorAdvances(s.cursors, sorted, embeddings, e.kind);
      MaxProcessedFacts(sorted, e.kind, embeddings);
    }
  }

  /** A cursor that moved stands on a row that was applied in this cycle. */
  lemma CursorStandsOnApplied(s: WorkerState, input: CycleInput, config: Config, s': WorkerState, k: Kind) returns (f: Engagement)
    requires config.chunkSize > 0 && RowsOk(input.rows) && CycleStep(s, input, config, s')
    requires CursorOf(s'.cursors, k) != CursorOf(s.cursors, k)
    ensures Handled(s, input, config, f) && GotEmbedding(s, input, config, f)
    ensures f.kind == k && f.id == CursorOf(s'.cursors, k)
  {
    hide InTime, Batch, AllEmbeddings, Stored, MaxProcessed, Advanced, PolledKind, CursorOf;
    var sorted := InTime(Batch(s.cursors, input, config));
    var embeddings := AllEmbeddings(sorted, config, input.replies);
    CursorAdvances(s.cursors, sorted, embeddings, k);
    MaxProcessedFacts(sorted, k, embeddings);
    f :| f in sorted && f.kind == k && f.text in embeddings && f.id == CursorOf(s'.cursors, k);
  }

  /** Rows below a handled row of the same kind, and above the cursor, are handled too. */
  lemma HandledHasNoGap(s: WorkerState, input: CycleInput, config: Config, r: Engagement, f: Engagement)
    requires config.chunkSize > 0 && RowsOk(input.rows)
    requires Handled(s, input, config, f) && r.kind == f.kind
    requires r in input.rows(r.kind) && CursorOf(s.cursors, r.kind) < r.id <= f.id
    ensures Handled(s, input, config, r)
    ensures r.id == f.id ==> r == f
  {
    hide InTime, Batch, Proceeds, Polled;
    SortedMembers(s.cursors, input, config);
    PolledHasNoGap(input.rows(r.kind), CursorOf(s.cursors, r.kind), config.batchSize, r, f);
    var sorted := InTime(Batch(s.cursors, input, config));
    var i :| 0 <= i < |sorted| && sorted[i] == r;
    var j :| 0 <= j < |sorted| && sorted[j] == f;
    assert r.id == f.id ==> SameRow(sorted[i], sorted[j]);
  }

  /**
    * The retry promise, exactly: a polled row whose embedding failed stays ahead of the saved cursor if and only
    * if no row of its kind that was embedded in the same cycle has a larger id.
    */
  lemma {:induction false} RetriedIffNothingAbove(s: WorkerState, input: CycleInput, config: Config, s': WorkerState, e: Engagement)
    requires config.chunkSize > 0 && RowsOk(input.rows) && CycleStep(s, input, config, s')
    requires Handled(s, input, config, e) && !GotEmbedding(s, input, config, e)
    ensures e.id > CursorOf(s'.cursors, e.kind) <==>
              forall f :: Handled(s, input, config, f) && GotEmbedding(s, input, config, f) && f.kind == e.kind ==> f.id < e.id
  {
    hide *;
    forall f | Handled(s, input, config, f) && GotEmbedding(s, input, config, f) && f.kind == e.kind
      ensures f.id <= CursorOf(s'.cursors, e.kind)
    {
      CycleEffect(s, input, config, s', f);
    }
    CycleEffect(s, input, config, s', e);
    if CursorOf(s'.cursors, e.kind) != CursorOf(s.cursors, e.kind) {
      var top := CursorStandsOnApplied(s, input, config, s', e.kind);
      if e.id == top.id {
        HandledHasNoGap(s, input, config, e, top);
      }
    }
  }

  /** Without a hole, a cycle applies every row it passes. */
  lemma PassedIsApplied(s: WorkerState, input: CycleInput, config: Config, s': WorkerState, k: Kind, r: Engagement)
    requires config.chunkSize > 0 && RowsOk(input.rows) && CycleStep(s, input, config, s')
    requires PassedBy(s, input, s', k, r)
    ensures r in s'.applied || Hole(s, input, config, k)
  {
    OwnKind(input.rows, k, r);
    hide CycleStep, RowsOk, Handled, GotEmbedding, CursorOf;
    var f := CursorStandsOnApplied(s, input, config, s', k);
    HandledHasNoGap(s, input, config, r, f);
    CycleEffect(s, input, config, s', r);
  }

  lemma OwnKind(rows: Kind -> seq<Engagement>, k: Kind, r: Engagement)
    requires RowsOk(rows) && r in rows(k)
    ensures r.kind == k
  {
  }

  /** A hole is a row that the cycle passes and does not apply. */
  lemma HoleIsMissed(s: WorkerState, input: CycleInput, config: Config, s': WorkerState, k: Kind) returns (e: Engagement)
    requires config.chunkSize > 0 && RowsOk(input.rows) && CycleStep(s, input, config, s') && AppliedOnce(s)
    requires Hole(s, input, config, k)
    ensures PassedBy(s, input, s', k, e) && e !in s'.applied
  {
    hide CycleStep, RowsOk, Handled, GotEmbedding, CursorOf;
    var f;
    e, f :| && Handled(s, input, config, e) && Handled(s, input, config, f)
            && e.kind == k && f.kind == k && e.id < f.id
            && !GotEmbedding(s, input, config, e) && GotEmbedding(s, input, config, f);
    CycleEffect(s, input, config, s', e);
    CycleEffect(s, input, config, s', f);
  }

  ghost predicate NoHoles(config: Config, states: seq<WorkerState>, inputs: seq<CycleInput>, n: nat, k: Kind)
    requires config.chunkSize > 0 && n <= |inputs| < |states|
  {
    forall i :: 0 <= i < n ==> !Hole(states[i], inputs[i], config, k)
  }

  lemma PassedStep(states: seq<WorkerState>, inputs: seq<CycleInput>, n: nat, k: Kind, r: Engagement)
    requires 0 < n <= |inputs| < |states|
    ensures Passed(states, inputs, n, k, r) <==>
              Passed(states, inputs, n - 1, k, r) || PassedBy(states[n - 1], inputs[n - 1], states[n], k, r)
  {
    hide PassedBy;
  }

  lemma NoHolesStep(config: Config, states: seq<WorkerState>, inputs: seq<CycleInput>, n: nat, k: Kind)
    requires config.chunkSize > 0 && 0 < n <= |inputs| < |states|
    ensures NoHoles(config, states, inputs, n, k) <==>
              NoHoles(config, states, inputs, n - 1, k) && !Hole(states[n - 1], inputs[n - 1], config, k)
  {
    hide Hole;
  }

  /** What was passed lies behind the cursor. */
  lemma {:induction false} PassedIsBehind(config: Config, states: seq<WorkerState>, inputs: seq<CycleInput>, n: nat, k: Kind, r: Engagement)
    requires IsRun(config, states, inputs) && n <= |inputs| < |states|
    requires states[0].applied == []
    requires Passed(states, inputs, n, k, r)
    ensures r.id <= CursorOf(states[n].cursors, k)
  {
    hide *;
    if n == 0 {
      NothingPassedYet(states, inputs, k, r);
    } else {
      PassedStep(states, inputs, n, k, r);
      AtMostOnce(config, states, inputs, n);
      if Passed(states, inputs, n - 1, k, r) {
        PassedIsBehind(config, states, inputs, n - 1, k, r);
        assert CursorOf(states[n - 1].cursors, k) <= CursorOf(states[n].cursors, k);
      } else {
        PassedByIsBehind(states[n - 1], inputs[n - 1], states[n], k, r);
      }
    }
  }

  lemma NothingPassedYet(states: seq<WorkerState>, inputs: seq<CycleInput>, k: Kind, r: Engagement)
    requires |inputs| < |states|
    ensures !Passed(states, inputs, 0, k, r)
  {
  }

  lemma PassedByIsBehind(s: WorkerState, input: CycleInput, s': WorkerState, k: Kind, r: Engagement)
    requires PassedBy(s, input, s', k, r)
    ensures r.id <= CursorOf(s'.cursors, k)
  {
  }

  /** Whatever is applied has been passed. */
  lemma {:induction false} AppliedIsPassed(config: Config, states: seq<WorkerState>, inputs: seq<CycleInput>, n: nat, r: Engagement)
    requires IsRun(config, states, inputs) && n <= |inputs| < |states|
    requires states[0].applied == [] && r in states[n].applied
    ensures Passed(states, inputs, n, r.kind, r)
  {
    hide *;
    if n > 0 {
      CycleOf(config, states, inputs, n - 1);
      PassedStep(states, inputs, n, r.kind, r);
      if r in states[n - 1].applied {
        AppliedIsPassed(config, states, inputs, n - 1, r);
      } else {
        AppliedNowIsPassed(states[n - 1], inputs[n - 1], config, states[n], r);
      }
    }
  }

  lemma AppliedNowIsPassed(s: WorkerState, input: CycleInput, config: Config, s': WorkerState, r: Engagement)
    requires config.chunkSize > 0 && RowsOk(input.rows) && CycleStep(s, input, config, s')
    requires r in s'.applied && r !in s.applied
    ensures PassedBy(s, input, s', r.kind, r)
  {
    hide CycleStep, RowsOk, Handled, GotEmbedding, CursorOf;
    CycleEffect(s, input, config, s', r);
  }

  /** A cycle leaves a row behind exactly if it has a hole; what was left behind stays behind. */
  lemma MissedStep(config: Config, states: seq<WorkerState>, inputs: seq<CycleInput>, n: nat, k: Kind)
    requires IsRun(config, states, inputs) && 0 < n <= |inputs| < |states|
    requires states[0].applied == []
    ensures config.chunkSize > 0
    ensures Missed(states, inputs, n, k) <==>
              Missed(states, inputs, n - 1, k) || Hole(states[n - 1], inputs[n - 1], config, k)
  {
    hide IsRun, CycleStep, RowsOk, AppliedOnce, Passed, PassedBy, Hole, Handled, GotEmbedding, CursorOf;
    var s, input, s' := states[n - 1], inputs[n - 1], states[n];
    CycleOf(config, states, inputs, n - 1);
    AtMostOnce(config, states, inputs, n - 1);
    if r :| Passed(states, inputs, n, k, r) && r !in s'.applied {
      PassedStep(states, inputs, n, k, r);
      CycleEffect(s, input, config, s', r);
      if !Passed(states, inputs, n - 1, k, r) {
        PassedIsApplied(s, input, config, s', k, r);
      }
    }
    if r :| Passed(states, inputs, n - 1, k, r) && r !in s.applied {
      PassedStep(states, inputs, n, k, r);
      PassedIsBehind(config, states, inputs, n - 1, k, r);
      PassedKind(config, states, inputs, n - 1, k, r);
      CycleEffect(s, input, config, s', r);
    }
    if Hole(s, input, config, k) {
      var e := HoleIsMissed(s, input, config, s', k);
      PassedStep(states, inputs, n, k, e);
    }
  }

  lemma PassedKind(config: Config, states: seq<WorkerState>, inputs: seq<CycleInput>, n: nat, k: Kind, r: Engagement)
    requires IsRun(config, states, inputs) && n <= |inputs| < |states|
    requires Passed(states, inputs, n, k, r)
    ensures r.kind == k
  {
    hide CycleStep, CursorOf;
    var i :| 0 <= i < n && PassedBy(states[i], inputs[i], states[i + 1], k, r);
    OwnKind(inputs[i].rows, k, r);
  }

  lemma NothingMissedYet(config: Config, states: seq<WorkerState>, inputs: seq<CycleInput>, k: Kind)
    requires config.chunkSize > 0 && |inputs| < |states|
    ensures !Missed(states, inputs, 0, k) && NoHoles(config, states, inputs, 0, k)
  {
  }

  lemma {:induction false} MissedIffHole(config: Config, states: seq<WorkerState>, inputs: seq<CycleInput>, n: nat, k: Kind)
    requires IsRun(config, states, inputs) && n <= |inputs| < |states|
    requires states[0].applied == []
    ensures config.chunkSize > 0
    ensures Missed(states, inputs, n, k) <==> !NoHoles(config, states, inputs, n, k)
  {
    hide *;
    RunShape(config, states, inputs);
    if n == 0 {
      NothingMissedYet(config, states, inputs, k);
    } else {
      MissedIffHole(config, states, inputs, n - 1, k);
      MissedStep(config, states, inputs, n, k);
      NoHolesStep(config, states, inputs, n, k);
    }
  }

  /**
    * Exactly once, over every run: the applied rows of a kind are precisely those that some cycle listed and moved the
    * cursor past, if and only if no cycle had a hole for that kind. Rows may appear, change and vanish between cycles.
    */
  lemma {:induction false} ExactlyOnceIffNoHoles(config: Config, states: seq<WorkerState>, inputs: seq<CycleInput>, n: nat, k: Kind)
    requires IsRun(config, states, inputs) && n <= |inputs| < |states|
    requires states[0].applied == []
    ensures config.chunkSize > 0
    ensures (forall r :: r in states[n].applied && r.kind == k <==> Passed(states, inputs, n, k, r))
       <==> NoHoles(config, states, inputs, n, k)
  {
    hide IsRun, Passed, NoHoles;
    MissedIffHole(config, states, inputs, n, k);
    forall r | r in states[n].applied && r.kind == k
      ensures Passed(states, inputs, n, k, r)
    {
      AppliedIsPassed(config, states, inputs, n, r);
    }
    forall r | Passed(states, inputs, n, k, r)
      ensures r.kind == k
    {
      PassedKind(config, states, inputs, n, k, r);
    }
  }

  /** Between two cycles, rows may appear, but none at or below a cursor, and none there changes or disappears. */
  ghost predicate Settled(cursors: Cursors, rows: Kind -> seq<Engagement>, rows': Kind -> seq<Engagement>) {
    forall k, r: Engagement :: r.id <= CursorOf(cursors, k) ==> (r in rows(k) <==> r in rows'(k))
  }

  ghost predicate IsSettledRun(config: Config, states: seq<WorkerState>, inputs: seq<CycleInput>) {
    && IsRun(config, states, inputs)
    && (forall i :: 0 < i < |inputs| ==> Settled(states[i].cursors, inputs[i - 1].rows, inputs[i].rows))
  }

  /** If the rows behind the cursors are settled, the passed rows are those between the first cursor and the last. */
  lemma {:induction false} PassedWhenSettled(config: Config, states: seq<WorkerState>, inputs: seq<CycleInput>, n: nat, k: Kind, r: Engagement)
    requires IsSettledRun(config, states, inputs) && 0 < n <= |inputs| < |states|
    requires states[0].applied == []
    ensures CursorOf(states[0].cursors, k) <= CursorOf(states[n].cursors, k)
    ensures Passed(states, inputs, n, k, r) <==>
              r in inputs[n - 1].rows(k) && CursorOf(states[0].cursors, k) < r.id <= CursorOf(states[n].cursors, k)
  {
    hide IsRun, AppliedOnce, CursorOf;
    AtMostOnce(config, states, inputs, n);
    assert CursorOf(states[n - 1].cursors, k) <= CursorOf(states[n].cursors, k);
    PassedStep(states, inputs, n, k, r);
    if n > 1 {
      PassedWhenSettled(config, states, inputs, n - 1, k, r);
      assert Settled(states[n - 1].cursors, inputs[n - 2].rows, inputs[n - 1].rows);
    }
  }

  /** The rows of a kind between the first cursor and the last are the applied ones if and only if there was no hole. */
  lemma {:induction false} SettledExactlyOnceIffNoHoles(config: Config, states: seq<WorkerState>, inputs: seq<CycleInput>, k: Kind)
    requires IsSettledRun(config, states, inputs) && inputs != []
    requires states[0].applied == []
    ensures (forall r :: r in states[|inputs|].applied && r.kind == k <==>
                r in inputs[|inputs| - 1].rows(k)
                && CursorOf(states[0].cursors, k) < r.id <= CursorOf(states[|inputs|].cursors, k))
       <==> NoHoles(config, states, inputs, |inputs|, k)
  {
    hide CycleStep, Passed, NoHoles, CursorOf, Settled;
    ExactlyOnceIffNoHoles(config, states, inputs, |inputs|, k);
    forall r {
      PassedWhenSettled(config, states, inputs, |inputs|, k, r);
    }
  }

  /** No chunk failed or came back short, and no polled text was empty. */
  ghost predicate CompleteReplies(s: WorkerState, input: CycleInput, config: Config)
    requires config.chunkSize > 0
  {
    var sorted := InTime(Batch(s.cursors, input, config));
    && (forall e :: e in sorted ==> e.text != "")
    && (forall p: nat :: p < |UniqueTexts(sorted)| ==> EmbeddingAt(p, config.chunkSize, input.replies).Some?)
  }

  lemma {:induction false} AllTextsEmbedded(texts: seq<string>, n: nat, config: Config, replies: Replies, p: nat)
    requires config.chunkSize > 0 && p < n <= |texts|
    requires forall q: nat :: q < n ==> EmbeddingAt(q, config.chunkSize, replies).Some?
    ensures texts[p] in Embeddings(texts, n, config, replies)
  {
    hide EmbeddingAt;
    assert EmbeddingAt(n - 1, config.chunkSize, replies).Some?;
    if p < n - 1 {
      AllTextsEmbedded(texts, n - 1, config, replies, p);
    }
  }

  /** A cycle whose embedding requests all succeed has no hole, whatever else fails. */
  lemma {:induction false} CompleteRepliesLeaveNoHole(s: WorkerState, input: CycleInput, config: Config, k: Kind)
    requires config.chunkSize > 0 && CompleteReplies(s, input, config)
    ensures !Hole(s, input, config, k)
  {
    hide InTime, Batch, Proceeds, Embeddings, EmbeddingAt;
    var sorted := InTime(Batch(s.cursors, input, config));
    var texts := UniqueTexts(sorted);
    forall e | e in sorted
      ensures GotEmbedding(s, input, config, e)
    {
      assert e.text in texts;
      var p :| 0 <= p < |texts| && texts[p] == e.text;
      AllTextsEmbedded(texts, |texts|, config, input.replies, p);
    }
  }

  lemma OnlyLikes(cursors: Cursors, input: CycleInput, config: Config, rows: seq<Engagement>)
    requires PolledKind(cursors, input, config, Like) == rows
    requires forall k :: k != Like ==> PolledKind(cursors, input, config, k) == []
    ensures Batch(cursors, input, config) == rows
  {
    hide PolledKind;
    assert BatchUpTo(cursors, input, config, 1) == rows;
    assert BatchUpTo(cursors, input, config, 2) == rows;
    assert BatchUpTo(cursors, input, config, 3) == rows;
    assert BatchUpTo(cursors, input, config, 4) == rows;
  }

  lemma TwoRows(a: Engagement, b: Engagement, p: Engagement -> bool)
    requires p(a) && p(b)
    ensures Filter([a, b], p) == [a, b]
  {
    FilterConcat([a], [b], p);
    FilterOne(a, p);
    FilterOne(b, p);
    assert [a] + [b] == [a, b];
  }

  lemma PolledTwo(a: Engagement, b: Engagement, cursor: int, limit: nat)
    requires a.id > cursor && b.id > cursor && limit >= 2
    ensures Polled([a, b], cursor, limit) == [a, b]
    ensures Polled([], cursor, limit) == []
  {
    TwoRows(a, b, (e: Engagement) => e.id > cursor);
  }

  lemma TwoTexts(a: Engagement, b: Engagement)
    requires a.text != "" && b.text != "" && a.text != b.text
    ensures UniqueTexts([a, b]) == [a.text, b.text]
  {
    assert [a, b][..1] == [a] && [a][..0] == [];
    assert UniqueTexts([a]) == [a.text];
  }

  const LOST := Engagement(1, 7, 0, Like, "a")
  const KEPT := Engagement(2, 7, 1, Like, "b")

  lemma SecondChunkOnly(config: Config, v: Vec)
    requires config.chunkSize == 1
    ensures var replies := (chunk: nat) => if chunk == 0 then None else Some([v]);
              AllEmbeddings([LOST, KEPT], config, replies) == map["b" := config.shrink(v)]
  {
    var replies := (chunk: nat) => if chunk == 0 then None else Some([v]);
    TwoTexts(LOST, KEPT);
    assert EmbeddingAt(0, 1, replies) == None;
    assert EmbeddingAt(1, 1, replies) == Some(v);
    assert Embeddings(["a", "b"], 1, config, replies) == map[];
  }

  /**
    * The comment on cursor saving promises more than taking the maximum delivers: here the chunk of the first row
    * fails, and the cursor moves past that row without its being applied.
    */
  lemma {:induction false} FailedRowIsSkipped(v: Vec, shrink: Vec -> Vec, ema: (Vec, Vec, Kind) -> Vec) returns (config: Config, s: WorkerState, input: CycleInput)
    ensures config.chunkSize > 0 && RowsOk(input.rows)
    ensures Hole(s, input, config, Like)
    ensures forall s' :: CycleStep(s, input, config, s') ==> LOST !in s'.applied && LOST.id < CursorOf(s'.cursors, LOST.kind)
  {
    hide Polled, AllEmbeddings, InTime, Batch;
    config := Config(10, 1, 0, ema, shrink);
    s := WorkerState(map[], map[], []);
    var rows := [LOST, KEPT];
    var replies := (chunk: nat) => if chunk == 0 then None else Some([v]);
    input := CycleInput((k: Kind) => if k == Like then rows else [], true, (k: Kind) => true, replies, true, (a: int) => true);
    PolledTwo(LOST, KEPT, 0, 10);
    assert PolledKind(s.cursors, input, config, Like) == rows;
    OnlyLikes(s.cursors, input, config, rows);
    InTimeAlready(rows);
    SecondChunkOnly(config, v);
    assert rows[0] == LOST && rows[1] == KEPT;
    var embeddings := AllEmbeddings(InTime(Batch(s.cursors, input, config)), config, input.replies);
    assert LOST.text !in embeddings && KEPT.text in embeddings && embeddings != map[];
    assert Handled(s, input, config, LOST) && !GotEmbedding(s, input, config, LOST);
    assert Handled(s, input, config, KEPT) && GotEmbedding(s, input, config, KEPT);
    hide CycleStep, Handled, GotEmbedding, RowsOk, Hole;
    forall s' | CycleStep(s, input, config, s')
      ensures LOST !in s'.applied && LOST.id < CursorOf(s'.cursors, LOST.kind)
    {
      CycleEffect(s, input, config, s', LOST);
      CycleEffect(s, input, config, s', KEPT);
    }
  }

  lemma InTimeAlready(es: seq<Engagement>)
    requires forall i, j :: 0 <= i < j < |es| ==> es[i].createdAt <= es[j].createdAt
    ensures InTime(es) == es
  {
    SortOfSorted(es, (a: Engagement, b: Engagement) => a.createdAt < b.createdAt);
  }
}
