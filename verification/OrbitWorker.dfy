/** One polling cycle of the orbit worker. */
module OrbitWorker {
  import opened Wrappers
  import opened Sorting
  import opened Orbit
  import opened OrbitVectors

  type Cursors = map<Kind, int>

  function CursorOf(cursors: Cursors, kind: Kind): int {
    if kind in cursors then cursors[kind] else 0
  }

  /** `applied` records every engagement that was folded into a vector. */
  datatype WorkerState = WorkerState(cursors: Cursors, vectors: Vectors, applied: seq<Engagement>)

  /** What a cycle meets: the visible rows of each source in id order, and what succeeds. */
  datatype CycleInput = CycleInput(
    rows: Kind -> seq<Engagement>,
    cursorsLoad: bool,
    pollOk: Kind -> bool,
    replies: Replies,
    vectorsLoad: bool,
    upsertOk: int -> bool
  )

  /** The rows after the cursor, in id order, up to the limit. */
  function Polled(rows: seq<Engagement>, cursor: int, limit: nat): seq<Engagement> {
    var above := Filter(rows, (e: Engagement) => e.id > cursor);
    if |above| <= limit then above else above[..limit]
  }

  function PolledKind(cursors: Cursors, input: CycleInput, config: Config, kind: Kind): seq<Engagement> {
    if input.pollOk(kind) then Polled(input.rows(kind), CursorOf(cursors, kind), config.batchSize) else []
  }

  /** The order in which a cycle goes through the sources. */
  const KINDS: seq<Kind> := [Like, Repost, Reply, Bookmark]

  function BatchUpTo(cursors: Cursors, input: CycleInput, config: Config, n: nat): seq<Engagement>
    requires n <= |KINDS|
  {
    if n == 0 then [] else BatchUpTo(cursors, input, config, n - 1) + PolledKind(cursors, input, config, KINDS[n - 1])
  }

  function Batch(cursors: Cursors, input: CycleInput, config: Config): seq<Engagement> {
    BatchUpTo(cursors, input, config, |KINDS|)
  }

  function InTime(es: seq<Engagement>): seq<Engagement> {
    StableSort(es, (a: Engagement, b: Engagement) => a.createdAt < b.createdAt)
  }

  function AllEmbeddings(es: seq<Engagement>, config: Config, replies: Replies): map<string, Vec>
    requires config.chunkSize > 0
  {
    Embeddings(UniqueTexts(es), |UniqueTexts(es)|, config, replies)
  }

  function Embedded(es: seq<Engagement>, embeddings: map<string, Vec>): seq<Engagement> {
    Filter(es, (e: Engagement) => e.text in embeddings)
  }

  /** The largest id of the kind among the embedded engagements. */
  function MaxProcessed(es: seq<Engagement>, kind: Kind, embeddings: map<string, Vec>): (max: Option<int>)
    ensures max == None <==> forall e :: e in es && e.kind == kind ==> e.text !in embeddings
    ensures max.Some? ==> exists e :: e in es && e.kind == kind && e.text in embeddings && e.id == max.value
    ensures max.Some? ==> forall e :: e in es && e.kind == kind && e.text in embeddings ==> e.id <= max.value
  {
    if es == [] then None
    else
      var n := |es| - 1;
      assert es == es[..n] + [es[n]];
      var before := MaxProcessed(es[..n], kind, embeddings);
      if es[n].kind == kind && es[n].text in embeddings && (before == None || es[n].id > before.value) then Some(es[n].id)
      else before
  }

  function SaveCursor(cursors: Cursors, es: seq<Engagement>, kind: Kind, embeddings: map<string, Vec>): Cursors {
    match MaxProcessed(es, kind, embeddings)
    case None => cursors
    case Some(id) => cursors[kind := id]
  }

  function SavedUpTo(cursors: Cursors, es: seq<Engagement>, embeddings: map<string, Vec>, n: nat): Cursors
    requires n <= |KINDS|
  {
    if n == 0 then cursors else SaveCursor(SavedUpTo(cursors, es, embeddings, n - 1), es, KINDS[n - 1], embeddings)
  }

  function Advanced(cursors: Cursors, es: seq<Engagement>, embeddings: map<string, Vec>): Cursors {
    SavedUpTo(cursors, es, embeddings, |KINDS|)
  }

  /** The cycle gets as far as applying engagements and saving cursors. */
  ghost predicate Proceeds(s: WorkerState, input: CycleInput, config: Config)
    requires config.chunkSize > 0
  {
    var sorted := InTime(Batch(s.cursors, input, config));
    input.cursorsLoad && sorted != [] && AllEmbeddings(sorted, config, input.replies) != map[] && input.vectorsLoad
  }

  /** `poll_cycle` as a relation between states. */
  ghost predicate CycleStep(s: WorkerState, input: CycleInput, config: Config, s': WorkerState)
    requires config.chunkSize > 0
  {
    if !Proceeds(s, input, config) then s' == s
    else
      var sorted := InTime(Batch(s.cursors, input, config));
      var embeddings := AllEmbeddings(sorted, config, input.replies);
      && Stored(s.vectors, sorted, embeddings, config, input.upsertOk, s'.vectors)
      && s'.applied == s.applied + Embedded(sorted, embeddings)
      && s'.cursors == Advanced(s.cursors, sorted, embeddings)
  }

  /** The hash map yields each account that has engagements once, in some order. */
  ghost predicate VisitsAccounts(order: seq<int>, es: seq<Engagement>) {
    && (forall i, j :: 0 <= i < j < |order| ==> order[i] != order[j])
    && (forall a :: a in order <==> OfAccount(es, a) != [])
  }

  class Worker {
    const config: Config
    var cursors: Cursors
    var vectors: Vectors
    ghost var applied: seq<Engagement>

    ghost function View(): WorkerState
      reads this
    {
      WorkerState(cursors, vectors, applied)
    }

    constructor (config: Config, cursors: Cursors, vectors: Vectors)
      ensures this.config == config && View() == WorkerState(cursors, vectors, [])
    {
      this.config, this.cursors, this.vectors, this.applied := config, cursors, vectors, [];
    }

    method PollCycle(input: CycleInput, order: seq<int>)
      requires config.chunkSize > 0
      requires VisitsAccounts(order, InTime(Batch(cursors, input, config)))
      modifies this
      ensures CycleStep(old(View()), input, config, View())
    {
      hide Batch, InTime, Embeddings, UniqueTexts, Stored, Embedded, Advanced;
      if !input.cursorsLoad {
        return;
      }
      var engagements := PollAll(cursors, input, config);
      engagements := InTime(engagements);
      if engagements == [] {
        return;
      }
      var embeddings := EmbedEngagements(engagements, config, input.replies);
      if embeddings == map[] || !input.vectorsLoad {
        return;
      }
      vectors := ProcessEngagements(vectors, engagements, embeddings, config, input.upsertOk, order);
      applied := applied + Embedded(engagements, embeddings);
      cursors := AdvanceCursors(cursors, engagements, embeddings);
    }
  }

  method PollAll(cursors: Cursors, input: CycleInput, config: Config) returns (engagements: seq<Engagement>)
    ensures engagements == Batch(cursors, input, config)
  {
    engagements := [];
    for i := 0 to |KINDS|
      invariant engagements == BatchUpTo(cursors, input, config, i)
    {
      if input.pollOk(KINDS[i]) {
        engagements := engagements + Polled(input.rows(KINDS[i]), CursorOf(cursors, KINDS[i]), config.batchSize);
      }
    }
  }

  method AdvanceCursors(cursors: Cursors, engagements: seq<Engagement>, embeddings: map<string, Vec>) returns (saved: Cursors)
    ensures saved == Advanced(cursors, engagements, embeddings)
  {
    saved := cursors;
    for i := 0 to |KINDS|
      invariant saved == SavedUpTo(cursors, engagements, embeddings, i)
    {
      var max := MaxProcessed(engagements, KINDS[i], embeddings);
      if max.Some? {
        saved := saved[KINDS[i] := max.value];
      }
    }
  }
}
