/** The orbit worker: polls engagements, embeds their targets, folds them into user vectors, advances its cursors. */
module Orbit {
  import opened Wrappers
  import opened Sorting

  datatype Kind = Like | Repost | Reply | Bookmark

  type Vec = seq<real>

  /** A polled row; `text` is its rendered target, which is what gets embedded. */
  datatype Engagement = Engagement(id: int, account: int, createdAt: int, kind: Kind, text: string)

  datatype UserState = UserState(vector: Vec, count: nat)

  /** `ema` and `shrink` stand for the arithmetic on vectors. */
  datatype Config = Config(batchSize: nat, chunkSize: nat, dims: nat, ema: (Vec, Vec, Kind) -> Vec, shrink: Vec -> Vec)

  /** The replies of the embedding service, chunk by chunk; `None` is a failed request. */
  type Replies = nat -> Option<seq<Vec>>

  /** The non-empty texts in order of first appearance. */
  function UniqueTexts(es: seq<Engagement>): (texts: seq<string>)
    ensures forall i, j :: 0 <= i < j < |texts| ==> texts[i] != texts[j]
    ensures forall t :: t in texts <==> t != "" && exists e :: e in es && e.text == t
  {
    if es == [] then []
    else
      var n := |es| - 1;
      assert es == es[..n] + [es[n]];
      var before := UniqueTexts(es[..n]);
      if es[n].text != "" && es[n].text !in before then before + [es[n].text] else before
  }

  /** What the service returned for the text at position `p`; a short reply leaves the end of its chunk without. */
  function EmbeddingAt(p: nat, size: nat, replies: Replies): Option<Vec>
    requires size > 0
  {
    match replies(p / size)
    case None => None
    case Some(vectors) => if p % size < |vectors| then Some(vectors[p % size]) else None
  }

  /** The embeddings of the first `n` texts. */
  function Embeddings(texts: seq<string>, n: nat, config: Config, replies: Replies): map<string, Vec>
    requires n <= |texts| && config.chunkSize > 0
  {
    if n == 0 then map[]
    else
      var before := Embeddings(texts, n - 1, config, replies);
      match EmbeddingAt(n - 1, config.chunkSize, replies)
      case None => before
      case Some(v) => before[texts[n - 1] := config.shrink(v)]
  }

  lemma PositionInChunk(chunk: nat, offset: nat, size: nat)
    requires offset < size
    ensures (chunk * size + offset) / size == chunk
    ensures (chunk * size + offset) % size == offset
  {
    var p := chunk * size + offset;
    var q, r := p / size, p % size;
    assert p == q * size + r;
    assert (q - chunk) * size == offset - r;
    MulAtLeast(q - chunk, size);
    MulAtLeast(chunk - q, size);
    assert (chunk - q) * size == r - offset;
  }

  lemma MulAtLeast(a: int, b: nat)
    ensures a >= 1 ==> a * b >= b
  {
    if a >= 1 {
      assert (a - 1) * b >= 0;
    }
  }

  lemma NextChunk(chunk: nat, size: nat)
    ensures (chunk + 1) * size == chunk * size + size
  {
  }

  lemma {:induction false} SkipUnembedded(texts: seq<string>, m: nat, n: nat, config: Config, replies: Replies)
    requires m <= n <= |texts| && config.chunkSize > 0
    requires forall p :: m <= p < n ==> EmbeddingAt(p, config.chunkSize, replies) == None
    ensures Embeddings(texts, n, config, replies) == Embeddings(texts, m, config, replies)
  {
    if m < n {
      SkipUnembedded(texts, m, n - 1, config, replies);
    }
  }

  method DedupTexts(engagements: seq<Engagement>) returns (uniqueTexts: seq<string>)
    ensures uniqueTexts == UniqueTexts(engagements)
  {
    uniqueTexts := [];
    var seen := {};
    for i := 0 to |engagements|
      invariant uniqueTexts == UniqueTexts(engagements[..i])
      invariant forall t :: t in seen <==> t in uniqueTexts
    {
      assert engagements[..i + 1][..i] == engagements[..i];
      var rendered := engagements[i].text;
      if rendered != "" && rendered !in seen {
        seen := seen + {rendered};
        uniqueTexts := uniqueTexts + [rendered];
      }
    }
    assert engagements[..|engagements|] == engagements;
  }

  /** `embed_engagements`: one request per chunk of distinct texts; a failed chunk is skipped. */
  method EmbedEngagements(engagements: seq<Engagement>, config: Config, replies: Replies) returns (results: map<string, Vec>)
    requires config.chunkSize > 0
    ensures results == Embeddings(UniqueTexts(engagements), |UniqueTexts(engagements)|, config, replies)
  {
    hide Embeddings, UniqueTexts, EmbeddingAt;
    var texts := DedupTexts(engagements);
    results := map[];
    NoTexts(texts, config, replies);
    var start, chunk := 0, 0;
    while start < |texts|
      invariant start == chunk * config.chunkSize || start == |texts|
      invariant start <= |texts|
      invariant results == Embeddings(texts, start, config, replies)
      decreases |texts| - start
    {
      var end := if start + config.chunkSize < |texts| then start + config.chunkSize else |texts|;
      results := EmbedChunk(texts, start, end, chunk, config, replies, results);
      NextChunk(chunk, config.chunkSize);
      start, chunk := end, chunk + 1;
    }
  }

  lemma NoTexts(texts: seq<string>, config: Config, replies: Replies)
    requires config.chunkSize > 0
    ensures Embeddings(texts, 0, config, replies) == map[]
  {
  }

  method EmbedChunk(texts: seq<string>, start: nat, end: nat, chunk: nat, config: Config, replies: Replies,
                    before: map<string, Vec>) returns (results: map<string, Vec>)
    requires config.chunkSize > 0
    requires start == chunk * config.chunkSize && start < end <= |texts| && end - start <= config.chunkSize
    requires before == Embeddings(texts, start, config, replies)
    ensures results == Embeddings(texts, end, config, replies)
  {
    results := before;
    forall p | start <= p < end
      ensures EmbeddingAt(p, config.chunkSize, replies)
           == match replies(chunk) case None => None case Some(vs) => if p - start < |vs| then Some(vs[p - start]) else None
    {
      PositionInChunk(chunk, p - start, config.chunkSize);
    }
    match replies(chunk) {
      case None =>
        SkipUnembedded(texts, start, end, config, replies);
      case Some(vectors) =>
        var zipped := if |vectors| < end - start then |vectors| else end - start;
        for j := 0 to zipped
          invariant results == Embeddings(texts, start + j, config, replies)
        {
          results := results[texts[start + j] := config.shrink(vectors[j])];
        }
        SkipUnembedded(texts, start + zipped, end, config, replies);
    }
  }
}
