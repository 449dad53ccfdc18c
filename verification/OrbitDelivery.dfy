/** How often an engagement is applied, over any number of cycles. */
module OrbitDelivery {
  import opened Wrappers
  import opened Sorting
  import opened Orbit
  import opened OrbitVectors
  import opened OrbitWorker

  predicate SameRow(a: Engagement, b: Engagement) {
    a.kind == b.kind && a.id == b.id
  }

  ghost predicate Unique(es: seq<Engagement>) {
    forall i, j :: 0 <= i < j < |es| ==> !SameRow(es[i], es[j])
  }

  ghost predicate Ascending(es: seq<Engagement>) {
    forall i, j :: 0 <= i < j < |es| ==> es[i].id < es[j].id
  }

  /** A source lists its own rows in id order. */
  ghost predicate RowsOk(rows: Kind -> seq<Engagement>) {
    forall k :: Ascending(rows(k)) && forall e :: e in rows(k) ==> e.kind == k
  }

  lemma {:induction false} FilterAscending(es: seq<Engagement>, p: Engagement -> bool)
    requires Ascending(es)
    ensures Ascending(Filter(es, p))
  {
    if es != [] {
      var n := |es| - 1;
      FilterAscending(es[..n], p);
      assert forall e :: e in Filter(es[..n], p) ==> e.id < es[n].id;
    }
  }

  lemma {:induction false} FilterUnique(es: seq<Engagement>, p: Engagement -> bool)
    requires Unique(es)
    ensures Unique(Filter(es, p))
  {
    if es != [] {
      var n := |es| - 1;
      FilterUnique(es[..n], p);
      assert forall e :: e in Filter(es[..n], p) ==> !SameRow(e, es[n]);
    }
  }

  lemma UniqueConcat(a: seq<Engagement>, b: seq<Engagement>)
    requires Unique(a) && Unique(b)
    requires forall x, y :: x in a && y in b ==> !SameRow(x, y)
    ensures Unique(a + b)
  {
  }

  lemma UniqueCount(es: seq<Engagement>, x: Engagement)
    requires Unique(es)
    ensures multiset(es)[x] <= 1
  {
    if x in es {
      var i :| 0 <= i < |es| && es[i] == x;
      assert es == es[..i] + [x] + es[i + 1..];
      assert x !in es[..i] && x !in es[i + 1..];
    }
  }

  lemma UniquePermutation(a: seq<Engagement>, b: seq<Engagement>)
    requires Unique(a) && multiset(a) == multiset(b)
    ensures Unique(b)
  {
    forall i, j | 0 <= i < j < |b|
      ensures !SameRow(b[i], b[j])
    {
      assert b[i] in multiset(a) && b[j] in multiset(a);
      var p :| 0 <= p < |a| && a[p] == b[i];
      var q :| 0 <= q < |a| && a[q] == b[j];
      if SameRow(b[i], b[j]) {
        assert p == q;
        TwiceCounts(b, i, j);
        UniqueCount(a, b[i]);
      }
    }
  }

  lemma PolledMembers(rows: seq<Engagement>, cursor: int, limit: nat)
    requires Ascending(rows)
    ensures Ascending(Polled(rows, cursor, limit))
    ensures forall e :: e in Polled(rows, cursor, limit) ==> e in rows && e.id > cursor
  {
    FilterAscending(rows, (e: Engagement) => e.id > cursor);
  }

  /** Polling leaves no gap: what lies between the cursor and a polled row is polled too. */
  lemma {:induction false} PolledHasNoGap(rows: seq<Engagement>, cursor: int, limit: nat, r: Engagement, p: Engagement)
    requires Ascending(rows)
    requires r in rows && cursor < r.id
    requires p in Polled(rows, cursor, limit) && r.id <= p.id
    ensures r in Polled(rows, cursor, limit)
  {
    var after := (e: Engagement) => e.id > cursor;
    var above := Filter(rows, after);
    FilterAscending(rows, after);
    var i :| 0 <= i < |above| && above[i] == r;
    var j :| 0 <= j < |Polled(rows, cursor, limit)| && Polled(rows, cursor, limit)[j] == p;
    assert above[j] == p;
    assert i <= j;
    assert Polled(rows, cursor, limit)[i] == r;
  }

  /** `es` holds each row polled from the given sources once, and rows of a kind come from that kind's source. */
  ghost predicate Holds(es: seq<Engagement>, kinds: seq<Kind>, cursors: Cursors, input: CycleInput, config: Config) {
    && Unique(es)
    && forall e :: e in es <==> e.kind in kinds && e in PolledKind(cursors, input, config, e.kind)
  }

  lemma HoldsOneMore(es: seq<Engagement>, kinds: seq<Kind>, k: Kind, cursors: Cursors, input: CycleInput, config: Config)
    requires RowsOk(input.rows) && Holds(es, kinds, cursors, input, config) && k !in kinds
    ensures Holds(es + PolledKind(cursors, input, config, k), kinds + [k], cursors, input, config)
  {
    hide PolledKind, RowsOk;
    var part := PolledKind(cursors, input, config, k);
    PartMembers(cursors, input, config, k);
    UniqueConcat(es, part);
    forall e
      ensures e in es + part <==> e.kind in kinds + [k] && e in PolledKind(cursors, input, config, e.kind)
    {
      assert e in es + part <==> e in es || e in part;
      assert e.kind in kinds + [k] <==> e.kind in kinds || e.kind == k;
    }
  }

  lemma {:induction false} BatchMembers(cursors: Cursors, input: CycleInput, config: Config, n: nat)
    requires RowsOk(input.rows) && n <= |KINDS|
    ensures Holds(BatchUpTo(cursors, input, config, n), KINDS[..n], cursors, input, config)
  {
    if n == 0 {
    } else {
      hide *;
      BatchMembers(cursors, input, config, n - 1);
      KindsStep(n);
      BatchStep(cursors, input, config, n);
      HoldsOneMore(BatchUpTo(cursors, input, config, n - 1), KINDS[..n - 1], KINDS[n - 1], cursors, input, config);
    }
  }

  lemma BatchStep(cursors: Cursors, input: CycleInput, config: Config, n: nat)
    requires 0 < n <= |KINDS|
    ensures BatchUpTo(cursors, input, config, n)
         == BatchUpTo(cursors, input, config, n - 1) + PolledKind(cursors, input, config, KINDS[n - 1])
  {
  }

  lemma KindsStep(n: nat)
    requires 0 < n <= |KINDS|
    ensures KINDS[n - 1] !in KINDS[..n - 1]
    ensures KINDS[..n] == KINDS[..n - 1] + [KINDS[n - 1]]
  {
  }

  lemma PartMembers(cursors: Cursors, input: CycleInput, config: Config, k: Kind)
    requires RowsOk(input.rows)
    ensures Unique(PolledKind(cursors, input, config, k))
    ensures forall e :: e in PolledKind(cursors, input, config, k) ==>
              e.kind == k && e in input.rows(k) && e.id > CursorOf(cursors, k)
  {
    hide Polled;
    PolledMembers(input.rows(k), CursorOf(cursors, k), config.batchSize);
  }

  lemma SortedMembers(cursors: Cursors, input: CycleInput, config: Config)
    requires RowsOk(input.rows)
    ensures forall e :: e in InTime(Batch(cursors, input, config)) <==> e in PolledKind(cursors, input, config, e.kind)
    ensures Unique(InTime(Batch(cursors, input, config)))
  {
    hide BatchUpTo, PolledKind;
    var batch := Batch(cursors, input, config);
    BatchMembers(cursors, input, config, |KINDS|);
    assert forall k: Kind :: k in KINDS[..|KINDS|] by {
      forall k: Kind
        ensures k in KINDS[..|KINDS|]
      {
        assert KINDS[0] == Like && KINDS[1] == Repost && KINDS[2] == Reply && KINDS[3] == Bookmark;
        match k case Like => case Repost => case Reply => case Bookmark =>
      }
    }
    SortKeepsElements(batch, (a: Engagement, b: Engagement) => a.createdAt < b.createdAt);
    UniquePermutation(batch, InTime(batch));
  }

  lemma {:induction false} CursorAfterSaving(cursors: Cursors, es: seq<Engagement>, embeddings: map<string, Vec>, n: nat, k: Kind)
    requires n <= |KINDS|
    ensures CursorOf(SavedUpTo(cursors, es, embeddings, n), k)
         == if k in KINDS[..n] && MaxProcessed(es, k, embeddings).Some? then MaxProcessed(es, k, embeddings).value
            else CursorOf(cursors, k)
  {
    if n > 0 {
      hide MaxProcessed;
      CursorAfterSaving(cursors, es, embeddings, n - 1, k);
      assert KINDS[..n] == KINDS[..n - 1] + [KINDS[n - 1]];
    }
  }

  /** A cycle moves the cursor of a kind to the largest id it applied for that kind, if it applied any. */
  lemma CursorAdvances(cursors: Cursors, es: seq<Engagement>, embeddings: map<string, Vec>, k: Kind)
    ensures CursorOf(Advanced(cursors, es, embeddings), k)
         == match MaxProcessed(es, k, embeddings) case Some(id) => id case None => CursorOf(cursors, k)
  {
    hide MaxProcessed, SavedUpTo;
    CursorAfterSaving(cursors, es, embeddings, |KINDS|, k);
    assert KINDS[0] == Like && KINDS[1] == Repost && KINDS[2] == Reply && KINDS[3] == Bookmark;
    assert k in KINDS[..|KINDS|] by {
      match k case Like => case Repost => case Reply => case Bookmark =>
    }
  }

  /** Everything applied is behind its cursor, and nothing is applied twice. */
  ghost predicate AppliedOnce(s: WorkerState) {
    && Unique(s.applied)
    && forall e :: e in s.applied ==> e.id <= CursorOf(s.cursors, e.kind)
  }

  lemma {:induction false} CycleAppliesOnce(s: WorkerState, input: CycleInput, config: Config, s': WorkerState)
    requires config.chunkSize > 0 && RowsOk(input.rows)
    requires CycleStep(s, input, config, s') && AppliedOnce(s)
    ensures AppliedOnce(s')
    ensures forall k :: CursorOf(s.cursors, k) <= CursorOf(s'.cursors, k)
  {
    if Proceeds(s, input, config) {
      hide InTime, Batch, AllEmbeddings, Stored, MaxProcessed, Advanced, PolledKind, CursorOf;
      var sorted := InTime(Batch(s.cursors, input, config));
      var embeddings := AllEmbeddings(sorted, config, input.replies);
      SortedMembers(s.cursors, input, config);
      FilterUnique(sorted, (e: Engagement) => e.text in embeddings);
      assert forall e :: e in sorted ==> e.id > CursorOf(s.cursors, e.kind) by {
        forall e | e in sorted
          ensures e.id > CursorOf(s.cursors, e.kind)
        {
          PartMembers(s.cursors, input, config, e.kind);
        }
      }
      forall k
        ensures CursorOf(s.cursors, k) <= CursorOf(s'.cursors, k)
        ensures forall e :: e in sorted && e.kind == k && e.text in embeddings ==> e.id <= CursorOf(s'.cursors, k)
      {
        CursorAdvances(s.cursors, sorted, embeddings, k);
        MaxProcessedFacts(sorted, k, embeddings);
      }
      UniqueConcat(s.applied, Embedded(sorted, embeddings));
    }
  }

  lemma MaxProcessedFacts(es: seq<Engagement>, k: Kind, embeddings: map<string, Vec>)
    ensures var max := MaxProcessed(es, k, embeddings);
      && (max == None <==> forall e :: e in es && e.kind == k ==> e.text !in embeddings)
      && (max.Some? ==> exists e :: e in es && e.kind == k && e.text in embeddings && e.id == max.value)
      && (max.Some? ==> forall e :: e in es && e.kind == k && e.text in embeddings ==> e.id <= max.value)
  {
  }

  /** A sequence of cycles, each with its own rows, outages and replies; cursor writes succeed. */
  ghost predicate IsRun(config: Config, states: seq<WorkerState>, inputs: seq<CycleInput>) {
    && config.chunkSize > 0
    && |states| == |inputs| + 1
    && (forall i :: 0 <= i < |inputs| ==> RowsOk(inputs[i].rows) && CycleStep(states[i], inputs[i], config, states[i + 1]))
  }

  lemma RunShape(config: Config, states: seq<WorkerState>, inputs: seq<CycleInput>)
    requires IsRun(config, states, inputs)
    ensures config.chunkSize > 0 && |states| == |inputs| + 1
  {
  }

  lemma NothingAppliedYet(s: WorkerState)
    requires s.applied == []
    ensures AppliedOnce(s)
  {
  }

  /** At most once: over any run no row of any source is applied twice, and cursors never move back. */
  lemma {:induction false} AtMostOnce(config: Config, states: seq<WorkerState>, inputs: seq<CycleInput>, n: nat)
    requires IsRun(config, states, inputs) && n <= |inputs|
    requires states[0].applied == []
    ensures AppliedOnce(states[n])
    ensures n > 0 ==> forall k :: CursorOf(states[n - 1].cursors, k) <= CursorOf(states[n].cursors, k)
  {
    hide *;
    RunShape(config, states, inputs);
    if n == 0 {
      NothingAppliedYet(states[0]);
    } else {
      AtMostOnce(config, states, inputs, n - 1);
      CycleOf(config, states, inputs, n - 1);
      CycleAppliesOnce(states[n - 1], inputs[n - 1], config, states[n]);
    }
  }

  lemma CycleOf(config: Config, states: seq<WorkerState>, inputs: seq<CycleInput>, i: nat)
    requires IsRun(config, states, inputs) && i < |inputs|
    ensures config.chunkSize > 0 && |states| == |inputs| + 1
    ensures RowsOk(inputs[i].rows) && CycleStep(states[i], inputs[i], config, states[i + 1])
  {
    hide CycleStep, RowsOk;
  }
}
