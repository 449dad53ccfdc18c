/** What a cycle gets done when nothing fails, and in which order. */
module OrbitProgress {
  import opened Wrappers
  import opened Sorting
  import opened Orbit
  import opened OrbitVectors
  import opened OrbitWorker
  import opened OrbitDelivery
  import opened OrbitExact

  /** The rows of a source from position `m` on lie ahead of the cursor, and no others. */
  ghost predicate AheadFrom(rows: seq<Engagement>, cursor: int, m: nat) {
    && m <= |rows|
    && (forall i :: 0 <= i < m ==> rows[i].id <= cursor)
    && (forall i :: m <= i < |rows| ==> rows[i].id > cursor)
  }

  lemma {:induction false} FindAhead(rows: seq<Engagement>, cursor: int, from: nat) returns (m: nat)
    requires Ascending(rows) && from <= |rows|
    requires forall i :: 0 <= i < from ==> rows[i].id <= cursor
    ensures AheadFrom(rows, cursor, m)
    decreases |rows| - from
  {
    if from < |rows| && rows[from].id <= cursor {
      m := FindAhead(rows, cursor, from + 1);
    } else {
      m := from;
    }
  }

  lemma AheadIsSuffix(rows: seq<Engagement>, cursor: int, m: nat)
    requires AheadFrom(rows, cursor, m)
    ensures Filter(rows, (e: Engagement) => e.id > cursor) == rows[m..]
  {
    var ahead := (e: Engagement) => e.id > cursor;
    assert rows == rows[..m] + rows[m..];
    FilterConcat(rows[..m], rows[m..], ahead);
    forall e | e in rows[..m]
      ensures !ahead(e)
    {
      var i :| 0 <= i < m && rows[i] == e;
    }
    FilterNone(rows[..m], ahead);
    forall e | e in rows[m..]
      ensures ahead(e)
    {
      var i :| m <= i < |rows| && rows[i] == e;
    }
    FilterAll(rows[m..], ahead);
  }

  /** Polling takes the rows right behind the cursor, as many as the batch size allows. */
  lemma {:induction false} PolledIsNext(rows: seq<Engagement>, cursor: int, limit: nat) returns (m: nat)
    requires Ascending(rows)
    ensures AheadFrom(rows, cursor, m)
    ensures Polled(rows, cursor, limit) == rows[m..][..Min(limit, |rows| - m)]
  {
    m := FindAhead(rows, cursor, 0);
    hide Filter;
    AheadIsSuffix(rows, cursor, m);
  }

  /**
    * Which embedding a text gets: the one at its offset in the reply to its chunk, shortened; none if that chunk failed
    * or its reply is too short.
    */
  lemma {:induction false} EmbeddingByChunk(texts: seq<string>, config: Config, replies: Replies, chunk: nat, offset: nat)
    requires config.chunkSize > 0 && offset < config.chunkSize && chunk * config.chunkSize + offset < |texts|
    requires forall i, j :: 0 <= i < j < |texts| ==> texts[i] != texts[j]
    ensures var text, found := texts[chunk * config.chunkSize + offset], Embeddings(texts, |texts|, config, replies);
            if replies(chunk).Some? && offset < |replies(chunk).value|
            then text in found && found[text] == config.shrink(replies(chunk).value[offset])
            else text !in found
  {
    var p := chunk * config.chunkSize + offset;
    PositionInChunk(chunk, offset, config.chunkSize);
    EmbeddingOf(texts, |texts|, p, config, replies);
  }

  lemma {:induction false} EmbeddingOf(texts: seq<string>, n: nat, p: nat, config: Config, replies: Replies)
    requires config.chunkSize > 0 && n <= |texts| && p < |texts|
    requires forall i, j :: 0 <= i < j < |texts| ==> texts[i] != texts[j]
    ensures var found := Embeddings(texts, n, config, replies);
            match EmbeddingAt(p, config.chunkSize, replies)
            case None => texts[p] !in found
            case Some(v) => if p < n then texts[p] in found && found[texts[p]] == config.shrink(v) else texts[p] !in found
  {
    hide EmbeddingAt;
    if n > 0 {
      EmbeddingOf(texts, n - 1, p, config, replies);
      assert p != n - 1 ==> texts[p] != texts[n - 1];
    }
  }

  /** A cycle goes through what it polled by creation time; what was created at once stays in polling order. */
  lemma {:induction false} CycleOrder(cursors: Cursors, input: CycleInput, config: Config, t: int)
    ensures var polled := PolledKind(cursors, input, config, Like) + PolledKind(cursors, input, config, Repost)
                          + PolledKind(cursors, input, config, Reply) + PolledKind(cursors, input, config, Bookmark);
            var sorted := InTime(Batch(cursors, input, config));
            && multiset(sorted) == multiset(polled)
            && (forall i, j :: 0 <= i < j < |sorted| ==> sorted[i].createdAt <= sorted[j].createdAt)
            && Filter(sorted, (e: Engagement) => e.createdAt == t) == Filter(polled, (e: Engagement) => e.createdAt == t)
  {
    var before := (a: Engagement, b: Engagement) => a.createdAt < b.createdAt;
    var batch := Batch(cursors, input, config);
    BatchInOrder(cursors, input, config);
    hide Filter, PolledKind, StableSort, Batch;
    SortSorts(batch, before);
    SortIsStable(batch, before, (e: Engagement) => e.createdAt == t);
  }

  lemma BatchInOrder(cursors: Cursors, input: CycleInput, config: Config)
    ensures Batch(cursors, input, config)
         == PolledKind(cursors, input, config, Like) + PolledKind(cursors, input, config, Repost)
            + PolledKind(cursors, input, config, Reply) + PolledKind(cursors, input, config, Bookmark)
  {
    hide PolledKind;
    BatchStep(cursors, input, config, 1);
    BatchStep(cursors, input, config, 2);
    BatchStep(cursors, input, config, 3);
    BatchStep(cursors, input, config, 4);
    assert KINDS[0] == Like && KINDS[1] == Repost && KINDS[2] == Reply && KINDS[3] == Bookmark;
    assert BatchUpTo(cursors, input, config, 0) == [];
  }

  /** If cursors or vectors cannot be loaded, or no text gets an embedding, a cycle changes nothing. */
  lemma {:induction false} FailuresChangeNothing(s: WorkerState, input: CycleInput, config: Config, s': WorkerState)
    requires config.chunkSize > 0 && CycleStep(s, input, config, s')
    requires !input.cursorsLoad || !input.vectorsLoad || forall chunk: nat :: input.replies(chunk) == None
    ensures s' == s
  {
    hide InTime, Batch, UniqueTexts;
    if forall chunk: nat :: input.replies(chunk) == None {
      var texts := UniqueTexts(InTime(Batch(s.cursors, input, config)));
      SkipUnembedded(texts, 0, |texts|, config, input.replies);
    }
  }

  /** Nothing fails, every chunk is answered in full, and every text says something. */
  ghost predicate Flawless(input: CycleInput, config: Config) {
    && input.cursorsLoad && input.vectorsLoad
    && (forall k :: input.pollOk(k))
    && (forall chunk: nat :: input.replies(chunk).Some? && |input.replies(chunk).value| >= config.chunkSize)
    && (forall k, e :: e in input.rows(k) ==> e.text != "")
  }

  lemma FlawlessIsComplete(s: WorkerState, input: CycleInput, config: Config)
    requires config.chunkSize > 0 && RowsOk(input.rows) && Flawless(input, config)
    ensures CompleteReplies(s, input, config)
  {
    hide InTime, Batch, PolledKind, UniqueTexts;
    SortedMembers(s.cursors, input, config);
    forall e | e in InTime(Batch(s.cursors, input, config))
      ensures e.text != ""
    {
      PartMembers(s.cursors, input, config, e.kind);
    }
  }

  /** Everything polled in a flawless cycle is handled, and gets an embedding. */
  lemma FlawlessHandles(s: WorkerState, input: CycleInput, config: Config, k: Kind, e: Engagement)
    requires config.chunkSize > 0 && RowsOk(input.rows) && Flawless(input, config)
    requires e in Polled(input.rows(k), CursorOf(s.cursors, k), config.batchSize)
    ensures e.kind == k && Handled(s, input, config, e) && GotEmbedding(s, input, config, e)
  {
    assert e in PolledKind(s.cursors, input, config, k);
    hide InTime, Batch, PolledKind, UniqueTexts, Flawless, EmbeddingAt;
    PartMembers(s.cursors, input, config, k);
    SortedMembers(s.cursors, input, config);
    FlawlessIsComplete(s, input, config);
    var sorted := InTime(Batch(s.cursors, input, config));
    var texts := UniqueTexts(sorted);
    assert e in sorted && e.text in texts;
    var p :| 0 <= p < |texts| && texts[p] == e.text;
    AllTextsEmbedded(texts, |texts|, config, input.replies, p);
    assert Flawless(input, config) ==> input.cursorsLoad && input.vectorsLoad by {
      NothingFails(input, config);
    }
  }

  lemma NothingFails(input: CycleInput, config: Config)
    requires Flawless(input, config)
    ensures input.cursorsLoad && input.vectorsLoad
  {
  }

  /**
    * Progress: a flawless cycle applies the next rows of every source, as many as the batch size allows, and leaves the
    * cursor on the last of them.
    */
  lemma {:induction false} FlawlessCycleAppliesBatch(s: WorkerState, input: CycleInput, config: Config, s': WorkerState, k: Kind) returns (m: nat)
    requires config.chunkSize > 0 && RowsOk(input.rows) && CycleStep(s, input, config, s') && Flawless(input, config)
    ensures AheadFrom(input.rows(k), CursorOf(s.cursors, k), m)
    ensures var next := input.rows(k)[m..][..Min(config.batchSize, |input.rows(k)| - m)];
            && (forall e :: e in next ==> e in s'.applied)
            && CursorOf(s'.cursors, k) == if next == [] then CursorOf(s.cursors, k) else next[|next| - 1].id
  {
    hide Ascending, AheadFrom, RowsOk, CycleStep, Flawless, Polled, Handled, GotEmbedding, CursorOf;
    var cursor := CursorOf(s.cursors, k);
    var rows := input.rows(k);
    SourceAscends(input.rows, k);
    m := PolledIsNext(rows, cursor, config.batchSize);
    AheadLength(rows, cursor, m);
    var next := rows[m..][..Min(config.batchSize, |rows| - m)];
    forall e | e in next
      ensures e.kind == k && e in s'.applied && e.id <= CursorOf(s'.cursors, k)
    {
      FlawlessHandles(s, input, config, k, e);
      CycleEffect(s, input, config, s', e);
    }
    if CursorOf(s'.cursors, k) != cursor {
      var f := CursorStandsOnApplied(s, input, config, s', k);
      HandledWasPolled(s, input, config, f);
      assert f in next;
      LastIsGreatest(rows, next, m, f);
    }
    if next != [] {
      assert next[|next| - 1] in next;
      LastIsAhead(rows, cursor, m, next);
    }
  }

  lemma SourceAscends(rows: Kind -> seq<Engagement>, k: Kind)
    requires RowsOk(rows)
    ensures Ascending(rows(k))
  {
  }

  lemma AheadLength(rows: seq<Engagement>, cursor: int, m: nat)
    requires AheadFrom(rows, cursor, m)
    ensures m <= |rows|
  {
  }

  lemma HandledWasPolled(s: WorkerState, input: CycleInput, config: Config, f: Engagement)
    requires config.chunkSize > 0 && RowsOk(input.rows) && Handled(s, input, config, f)
    ensures f in Polled(input.rows(f.kind), CursorOf(s.cursors, f.kind), config.batchSize)
  {
    hide InTime, Batch, Polled;
    SortedMembers(s.cursors, input, config);
  }

  lemma LastIsGreatest(rows: seq<Engagement>, next: seq<Engagement>, m: nat, f: Engagement)
    requires Ascending(rows) && m <= |rows| && next <= rows[m..] && f in next
    ensures f.id <= next[|next| - 1].id
  {
    var i :| 0 <= i < |next| && next[i] == f;
    assert rows[m..][i] == f && rows[m..][|next| - 1] == next[|next| - 1];
  }

  lemma LastIsAhead(rows: seq<Engagement>, cursor: int, m: nat, next: seq<Engagement>)
    requires AheadFrom(rows, cursor, m) && next <= rows[m..] && next != []
    ensures next[|next| - 1].id > cursor
  {
    assert rows[m..][|next| - 1] == next[|next| - 1];
  }

  /** With the cursor on the last of the next rows, the rows behind those lie ahead. */
  lemma AheadMoves(rows: seq<Engagement>, cursor: int, m: nat, n: nat, cursor': int)
    requires Ascending(rows) && AheadFrom(rows, cursor, m) && m <= n <= |rows|
    requires cursor' == if m == n then cursor else rows[n - 1].id
    ensures AheadFrom(rows, cursor', n)
  {
  }

  lemma AheadIsUnique(rows: seq<Engagement>, cursor: int, m: nat, n: nat)
    requires AheadFrom(rows, cursor, m) && AheadFrom(rows, cursor, n)
    ensures m == n
  {
    assert m < |rows| ==> rows[m].id > cursor;
    assert n < |rows| ==> rows[n].id > cursor;
  }

  /** Cycles in a row in which nothing fails, and a source that lists the same rows in all of them. */
  ghost predicate FlawlessRun(config: Config, states: seq<WorkerState>, inputs: seq<CycleInput>, k: Kind, rows: seq<Engagement>) {
    && IsRun(config, states, inputs)
    && (forall i :: 0 <= i < |inputs| ==> Flawless(inputs[i], config) && inputs[i].rows(k) == rows)
  }

  lemma CycleOfFlawless(config: Config, states: seq<WorkerState>, inputs: seq<CycleInput>, k: Kind, rows: seq<Engagement>, i: nat)
    requires FlawlessRun(config, states, inputs, k, rows) && i < |inputs|
    ensures IsRun(config, states, inputs) && config.chunkSize > 0 && |states| == |inputs| + 1
    ensures RowsOk(inputs[i].rows) && CycleStep(states[i], inputs[i], config, states[i + 1])
    ensures Flawless(inputs[i], config) && inputs[i].rows(k) == rows
  {
    hide RowsOk, CycleStep, Flawless;
  }

  /** The rows from `m` to `reached` have been applied, and the cursor stands on the last of them. */
  ghost predicate Delivered(s: WorkerState, rows: seq<Engagement>, k: Kind, m: nat, reached: nat) {
    && m <= reached <= |rows|
    && AheadFrom(rows, CursorOf(s.cursors, k), reached)
    && forall e :: e in rows[m..reached] ==> e in s.applied
  }

  lemma DeliveryStep(s: WorkerState, input: CycleInput, config: Config, s': WorkerState, k: Kind, m: nat, before: nat)
    requires config.chunkSize > 0 && RowsOk(input.rows) && CycleStep(s, input, config, s') && Flawless(input, config)
    requires Delivered(s, input.rows(k), k, m, before)
    ensures Delivered(s', input.rows(k), k, m, Min(before + config.batchSize, |input.rows(k)|))
  {
    hide RowsOk, CycleStep, Flawless, CursorOf, AheadFrom, Ascending;
    var rows := input.rows(k);
    SourceAscends(input.rows, k);
    var from := FlawlessCycleAppliesBatch(s, input, config, s', k);
    AheadIsUnique(rows, CursorOf(s.cursors, k), from, before);
    var reached := Min(before + config.batchSize, |rows|);
    assert rows[before..][..Min(config.batchSize, |rows| - before)] == rows[before..reached];
    AheadMoves(rows, CursorOf(s.cursors, k), before, reached, CursorOf(s'.cursors, k));
    StaysApplied(s, input, config, s');
    AppliedTogether(rows, m, before, reached, s.applied, s'.applied);
  }

  lemma NothingDeliveredYet(s: WorkerState, rows: seq<Engagement>, k: Kind, m: nat)
    requires AheadFrom(rows, CursorOf(s.cursors, k), m)
    ensures Delivered(s, rows, k, m, m) && m <= |rows|
  {
  }

  /** How many rows of a source some cycles can take. */
  function Capacity(n: nat, size: nat): (rows: nat)
    ensures rows == n * size
  {
    n * size
  }

  /**
    * Delivery in the end: after `n` flawless cycles, the `n * batchSize` rows that lay right behind the cursor have been
    * applied, or all there are.
    */
  lemma {:induction false} EverythingIsDelivered(config: Config, states: seq<WorkerState>, inputs: seq<CycleInput>, k: Kind,
                                                 rows: seq<Engagement>, n: nat, m: nat)
    requires FlawlessRun(config, states, inputs, k, rows) && n <= |inputs| < |states|
    requires AheadFrom(rows, CursorOf(states[0].cursors, k), m)
    ensures Delivered(states[n], rows, k, m, Min(m + Capacity(n, config.batchSize), |rows|))
  {
    hide FlawlessRun, IsRun, RowsOk, CycleStep, Flawless, CursorOf, AheadFrom, Delivered, Capacity;
    NothingDeliveredYet(states[0], rows, k, m);
    if n > 0 {
      EverythingIsDelivered(config, states, inputs, k, rows, n - 1, m);
      CycleOfFlawless(config, states, inputs, k, rows, n - 1);
      DeliveryStep(states[n - 1], inputs[n - 1], config, states[n], k, m, Min(m + Capacity(n - 1, config.batchSize), |rows|));
      OneMoreBatch(m, n, config.batchSize, |rows|);
    }
  }

  lemma AppliedTogether(rows: seq<Engagement>, m: nat, before: nat, reached: nat, applied: seq<Engagement>, applied': seq<Engagement>)
    requires m <= before <= reached <= |rows|
    requires forall e :: e in rows[m..before] ==> e in applied
    requires forall e :: e in applied ==> e in applied'
    requires forall e :: e in rows[before..reached] ==> e in applied'
    ensures forall e :: e in rows[m..reached] ==> e in applied'
  {
    assert rows[m..reached] == rows[m..before] + rows[before..reached];
  }

  lemma OneMoreBatch(m: nat, n: nat, size: nat, length: nat)
    requires n > 0
    ensures Min(Min(m + Capacity(n - 1, size), length) + size, length) == Min(m + Capacity(n, size), length)
  {
    assert n * size == (n - 1) * size + size;
  }

  lemma StaysApplied(s: WorkerState, input: CycleInput, config: Config, s': WorkerState)
    requires config.chunkSize > 0 && RowsOk(input.rows) && CycleStep(s, input, config, s')
    ensures forall e :: e in s.applied ==> e in s'.applied
  {
    hide CycleStep, RowsOk, Handled, GotEmbedding;
    forall e | e in s.applied
      ensures e in s'.applied
    {
      CycleEffect(s, input, config, s', e);
    }
  }
}
