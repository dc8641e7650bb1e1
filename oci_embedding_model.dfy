/**
 * OCIEmbeddingModel: embeds a list of text chunks with the OCI Generative AI service, at most 96
 * chunks per request. The service client is an abstract function from a request to the list of
 * vectors it answers with, one per input.
 */
module EmbeddingModel {
  import opened Common
  import opened Batching
  import opened Embeddings
  import opened ServingModes

  /** EMBEDDING_BATCH_SIZE: the largest number of inputs one request may carry. */
  const EmbeddingBatchSize: nat := 96

  /** EmbedTextDetails.Truncate: which end of an over-long input the service cuts. */
  datatype Truncate = TruncateNone | TruncateStart | TruncateEnd

  /** The SDK's ServingMode: on demand names a model, dedicated names an endpoint. */
  datatype ServingMode =
    | OnDemandServingMode(modelId: Option<string>)
    | DedicatedServingMode(endpointId: Option<string>)

  /** The EmbedTextDetails an EmbedTextRequest carries. */
  datatype EmbedTextRequest = EmbedTextRequest(
    servingMode: ServingMode,
    compartmentId: Option<string>,
    inputs: seq<string>,
    truncate: Truncate)

  /** The model's final fields; `client` is aiClient.embedText reduced to the vectors of the
      response's EmbedTextResult. */
  datatype OCIEmbeddingModel = OCIEmbeddingModel(
    model: Option<string>,
    compartmentId: Option<string>,
    client: EmbedTextRequest -> seq<seq<real>>,
    servingMode: ServingMode,
    truncate: Option<Truncate>)

  /** servingMode(ServingModeType): a dedicated mode names `model` as its endpoint, an on-demand
      mode names it as its model. */
  function ServingModeFor(model: Option<string>, servingModeType: ServingModeType): (r: ServingMode)
    ensures r.DedicatedServingMode? <==> servingModeType == Dedicated
    ensures r.DedicatedServingMode? ==> r.endpointId == model
    ensures r.OnDemandServingMode? ==> r.modelId == model
  {
    match servingModeType
    case Dedicated => DedicatedServingMode(model)
    case OnDemand => OnDemandServingMode(model)
  }

  /** The @Builder constructor: a null truncate becomes NONE and a null serving-mode type
      ON_DEMAND; the other arguments are kept as given. */
  function NewOCIEmbeddingModel(servingModeType: Option<ServingModeType>, model: Option<string>,
                                compartmentId: Option<string>,
                                client: EmbedTextRequest -> seq<seq<real>>,
                                truncate: Option<Truncate>): (r: OCIEmbeddingModel)
    ensures r.model == model && r.compartmentId == compartmentId && r.client == client
    ensures r.truncate.Some?
    ensures truncate == None ==> r.truncate == Some(TruncateNone)
    ensures truncate.Some? ==> r.truncate == truncate
    ensures servingModeType == None ==> r.servingMode == OnDemandServingMode(model)
    ensures servingModeType.Some? ==> r.servingMode == ServingModeFor(model, servingModeType.value)
  {
    OCIEmbeddingModel(model, compartmentId, client,
                      ServingModeFor(model, servingModeType.GetOr(OnDemand)),
                      Some(truncate.GetOr(TruncateNone)))
  }

  /** getTruncateOrDefault(): the configured truncation, NONE when it is unset. */
  function TruncateOrDefault(m: OCIEmbeddingModel): (r: Truncate)
    ensures m.truncate == None ==> r == TruncateNone
    ensures m.truncate.Some? ==> r == m.truncate.value
  {
    m.truncate.GetOr(TruncateNone)
  }

  /** A model built by the constructor always has the truncation it was given, or NONE. */
  lemma ConstructedTruncate(servingModeType: Option<ServingModeType>, model: Option<string>,
                            compartmentId: Option<string>,
                            client: EmbedTextRequest -> seq<seq<real>>,
                            truncate: Option<Truncate>)
    ensures TruncateOrDefault(NewOCIEmbeddingModel(servingModeType, model, compartmentId, client, truncate))
      == truncate.GetOr(TruncateNone)
  {
  }

  /** toEmbedTextRequest(batch): one request for the batch, with the model's serving mode,
      compartment and truncation. */
  function ToEmbedTextRequest(m: OCIEmbeddingModel, batch: seq<string>): (r: EmbedTextRequest)
    ensures r.inputs == batch
    ensures r.servingMode == m.servingMode && r.compartmentId == m.compartmentId
    ensures r.truncate == TruncateOrDefault(m)
  {
    EmbedTextRequest(m.servingMode, m.compartmentId, batch, TruncateOrDefault(m))
  }

  /** toBatches(textSegments): slices of 96 segments, stepping the start index by 96. */
  method ToBatches<T>(segments: seq<T>) returns (batches: seq<seq<T>>)
    ensures batches == Batches(segments, EmbeddingBatchSize)
  {
    var size := |segments|;
    batches := [];
    var i := 0;
    while i < size
      invariant i % EmbeddingBatchSize == 0
      invariant i < size + EmbeddingBatchSize
      invariant batches == Batches(segments[..if i < size then i else size], EmbeddingBatchSize)
    {
      var end := if i + EmbeddingBatchSize < size then i + EmbeddingBatchSize else size;
      BatchesExtend(segments, EmbeddingBatchSize, i, end);
      batches := batches + [segments[i..end]];
      i := i + EmbeddingBatchSize;
    }
    assert segments[..size] == segments;
  }

  /** toEmbeddings(response): one embedding per response entry, in order, each with content ""
      and a new array holding the entry's values. */
  method ToEmbeddings(response: seq<seq<real>>) returns (embeddings: seq<Embedding>)
    ensures |embeddings| == |response|
    ensures forall i :: 0 <= i < |response| ==>
      embeddings[i].content == Some("") && fresh(embeddings[i].vector)
    ensures Snapshot(embeddings) == response
    ensures DistinctVectors(embeddings)
  {
    embeddings := [];
    for j := 0 to |response|
      invariant |embeddings| == j
      invariant forall i :: 0 <= i < j ==>
        embeddings[i].content == Some("") && fresh(embeddings[i].vector)
      invariant forall i :: 0 <= i < j ==> embeddings[i].vector[..] == response[i]
      invariant DistinctVectors(embeddings)
    {
      var vector := NewVector(response[j]);
      embeddings := embeddings + [Embedding(vector, Some(""))];
    }
  }

  /** The requests embedAll sends for the given batches, in order. */
  function Requests(m: OCIEmbeddingModel, batches: seq<seq<string>>): (r: seq<EmbedTextRequest>)
    ensures |r| == |batches|
    ensures forall i :: 0 <= i < |batches| ==> r[i] == ToEmbedTextRequest(m, batches[i])
  {
    seq(|batches|, i requires 0 <= i < |batches| => ToEmbedTextRequest(m, batches[i]))
  }

  /** The client's answer to each of those requests. */
  function Replies(m: OCIEmbeddingModel, batches: seq<seq<string>>): (r: seq<seq<seq<real>>>)
    ensures |r| == |batches|
    ensures forall i :: 0 <= i < |batches| ==> r[i] == m.client(ToEmbedTextRequest(m, batches[i]))
  {
    seq(|batches|, i requires 0 <= i < |batches| => m.client(ToEmbedTextRequest(m, batches[i])))
  }

  /** The vectors embedAll returns for `chunks`: the replies to its batches, concatenated. */
  function EmbeddedVectors(m: OCIEmbeddingModel, chunks: seq<string>): (r: seq<seq<real>>)
    ensures chunks == [] ==> r == []
  {
    Concat(Replies(m, Batches(chunks, EmbeddingBatchSize)))
  }

  lemma RepliesSnoc(m: OCIEmbeddingModel, batches: seq<seq<string>>, b: nat)
    requires b < |batches|
    ensures Concat(Replies(m, batches[..b + 1]))
      == Concat(Replies(m, batches[..b])) + m.client(ToEmbedTextRequest(m, batches[b]))
  {
    var last := m.client(ToEmbedTextRequest(m, batches[b]));
    assert Replies(m, batches[..b + 1]) == Replies(m, batches[..b]) + [last];
    ConcatAppend(Replies(m, batches[..b]), [last]);
    assert Concat([last]) == last + Concat([]);
  }

  lemma RequestsSnoc(m: OCIEmbeddingModel, batches: seq<seq<string>>, b: nat)
    requires b < |batches|
    ensures Requests(m, batches[..b + 1]) == Requests(m, batches[..b]) + [ToEmbedTextRequest(m, batches[b])]
  {
  }

  lemma SnapshotAppend(a: seq<Embedding>, b: seq<Embedding>)
    ensures Snapshot(a + b) == Snapshot(a) + Snapshot(b)
  {
    assert forall i :: 0 <= i < |a| + |b| ==> Snapshot(a + b)[i] == (Snapshot(a) + Snapshot(b))[i];
  }

  /** One turn of embedAll's loop: appending the converted reply to batch b extends the vectors
      gathered for the batches before b to those for the batches up to b. */
  lemma ReplyAppended(m: OCIEmbeddingModel, batches: seq<seq<string>>, b: nat,
                      embeddings: seq<Embedding>, converted: seq<Embedding>)
    requires b < |batches|
    requires Snapshot(embeddings) == Concat(Replies(m, batches[..b]))
    requires Snapshot(converted) == m.client(ToEmbedTextRequest(m, batches[b]))
    ensures Snapshot(embeddings + converted) == Concat(Replies(m, batches[..b + 1]))
  {
    RepliesSnoc(m, batches, b);
    SnapshotAppend(embeddings, converted);
  }

  /** embedAll(chunks): one client call per batch of at most 96 chunks, in batch order; the
      embeddings are the replies' vectors concatenated, each with content "" and its own new
      array. `requests` records the calls made. */
  method EmbedAll(m: OCIEmbeddingModel, chunks: seq<string>)
    returns (embeddings: seq<Embedding>, ghost requests: seq<EmbedTextRequest>)
    ensures requests == Requests(m, Batches(chunks, EmbeddingBatchSize))
    ensures Snapshot(embeddings) == EmbeddedVectors(m, chunks)
    ensures forall i :: 0 <= i < |embeddings| ==>
      embeddings[i].content == Some("") && fresh(embeddings[i].vector)
    ensures DistinctVectors(embeddings)
  {
    var batches := ToBatches(chunks);
    embeddings, requests := EmbedBatches(m, batches);
  }

  /** The loop of embedAll over its batches: one request per batch, in order, whose reply's
      vectors are appended to the result. */
  method EmbedBatches(m: OCIEmbeddingModel, batches: seq<seq<string>>)
    returns (embeddings: seq<Embedding>, ghost requests: seq<EmbedTextRequest>)
    ensures requests == Requests(m, batches)
    ensures Snapshot(embeddings) == Concat(Replies(m, batches))
    ensures forall i :: 0 <= i < |embeddings| ==>
      embeddings[i].content == Some("") && fresh(embeddings[i].vector)
    ensures DistinctVectors(embeddings)
  {
    embeddings := [];
    requests := [];
    for b := 0 to |batches|
      invariant requests == Requests(m, batches[..b])
      invariant Snapshot(embeddings) == Concat(Replies(m, batches[..b]))
      invariant forall i :: 0 <= i < |embeddings| ==>
        embeddings[i].content == Some("") && fresh(embeddings[i].vector)
      invariant DistinctVectors(embeddings)
    {
      var request := ToEmbedTextRequest(m, batches[b]);
      var response := m.client(request);
      var converted := ToEmbeddings(response);
      assert forall i, j :: 0 <= i < |embeddings| && 0 <= j < |converted| ==>
        embeddings[i].vector != converted[j].vector;
      DistinctAppend(embeddings, converted);
      RequestsSnoc(m, batches, b);
      ReplyAppended(m, batches, b, embeddings, converted);
      embeddings := embeddings + converted;
      requests := requests + [request];
    }
    assert batches[..|batches|] == batches;
  }

  /** The inputs of the requests, concatenated, are the chunks in order; every request carries
      1 to 96 inputs; there are ceil(n / 96) requests. */
  lemma {:induction false} RequestsPartitionChunks(m: OCIEmbeddingModel, chunks: seq<string>)
    ensures var rs := Requests(m, Batches(chunks, EmbeddingBatchSize));
      && |rs| == BatchCount(|chunks|, EmbeddingBatchSize)
      && Concat(seq(|rs|, i requires 0 <= i < |rs| => rs[i].inputs)) == chunks
      && (forall i :: 0 <= i < |rs| ==> 0 < |rs[i].inputs| <= EmbeddingBatchSize)
  {
    var bs := Batches(chunks, EmbeddingBatchSize);
    var rs := Requests(m, bs);
    BatchesCount(chunks, EmbeddingBatchSize);
    BatchesConcat(chunks, EmbeddingBatchSize);
    BatchesSizes(chunks, EmbeddingBatchSize);
    assert seq(|rs|, i requires 0 <= i < |rs| => rs[i].inputs) == bs;
  }

  /** embedAll of no chunks makes no call and returns nothing. */
  lemma EmbedAllEmpty(m: OCIEmbeddingModel)
    ensures Requests(m, Batches([], EmbeddingBatchSize)) == []
    ensures EmbeddedVectors(m, []) == []
  {
  }

  /** Embedding is compositional at batch boundaries: when `a` fills whole requests, the vectors
      for a + b are those for a followed by those for b. */
  lemma EmbeddedVectorsAppend(m: OCIEmbeddingModel, a: seq<string>, b: seq<string>, k: nat)
    requires |a| == k * EmbeddingBatchSize
    ensures EmbeddedVectors(m, a + b) == EmbeddedVectors(m, a) + EmbeddedVectors(m, b)
  {
    var ba, bb := Batches(a, EmbeddingBatchSize), Batches(b, EmbeddingBatchSize);
    BatchesAppend(a, b, EmbeddingBatchSize, k);
    assert Replies(m, ba + bb) == Replies(m, ba) + Replies(m, bb);
    ConcatAppend(Replies(m, ba), Replies(m, bb));
  }
}
