# oracle-database-embedding-flow, modelled in Dafny

The system is a small ingestion pipeline. It lists and reads text documents from an OCI Object
Storage bucket, splits them into lines, embeds the lines with the OCI Generative AI service at
most 96 per request, and stores the embeddings in an Oracle Database 23ai table. It then answers
similarity searches against that table.

This project models the sequential logic of that pipeline and proves what it promises:

- **Vector store** (`oracle_vector_store.dfy`, module `VectorStore`).
  - `OracleVectorStore` is a class. Its state is the database it writes to: the schema objects, the table rows keyed by id, the JDBC batch being staged (`pending`) and the log of executed batches (`flushes`).
  - `addAll` is an imperative loop. It stages one merge per embedding under a new id from an injected id supply. It executes the batch after every 50th row, once more for a non-empty remainder, and once more unconditionally.
  - The proofs show:
    - the resulting table is the ordered application of the staged merges, with merge-on-id semantics;
    - every embedding lands under its own new id and existing rows are untouched;
    - the executed batches partition the input in order, none larger than 50, and there are `n/50 + (n%50 != 0 ? 1 : 0) + 1` of them;
    - `add(e)` is `addAll([e])`.
  - `search` normalises the query vector in the caller's array and runs the query. Its result rows are turned into embeddings in result order.
- **The search query** (`search_query.dfy`, module `SearchQuery`): the SQL of `search` stated as rank by score (descending), keep score >= minScore, take maxResults. The proofs show the result is sorted, above the threshold, at most maxResults long, and the best of the qualifying rows. A stricter query returns a leading part of a looser one.
- **Normalisation** (`oracle_data_adapter.dfy`, module `DataAdapter`).
  - `normalize` is an in-place loop over an array and returns that same array. It keeps the length, leaves a zero-magnitude vector untouched and otherwise scales every element by `1/magnitude`.
  - With exact arithmetic the result has unit length and normalising is idempotent.
  - `toVECTOR` encodes the normalised values; `toFloatArray` narrows element by element.
- **Embedding model** (`oci_embedding_model.dfy`, module `EmbeddingModel`).
  - `toBatches` is the stride-96 slicing loop. It is proved equal to the chunking in `batching.dfy`, which is also what `addAll`'s flushes follow.
  - `embedAll` makes one client call per batch and returns the replies concatenated in batch order.
  - The proofs also cover the constructor defaults for truncation and serving mode.
- **Serving modes** (`serving_mode_type.dfy`), **search request defaults** (`search_request.dfy`).
- **Line splitting** (`line_splitter.dfy`): Java's `s.split("\\r?\\n|\\r")` with limit 0.
  - "\r\n" is one terminator.
  - Trailing empty chunks are dropped, while leading and interior ones are kept.
  - Input with no terminator (including "") comes back whole.
  - Input made only of terminators gives no chunk.
  - Joining with "\n" restores "\n"-only input that does not end in "\n" (a trailing terminator is dropped by split).
- **Document loader** (`oci_document_loader.dfy`).
  - `listObjects` is a pagination loop. Each follow-up request starts at the previous page's `nextStartWith`.
  - `toObjectNames` drops exactly the names ending in "/".
  - `streamDocuments` skips a failed read and goes on with the rest.

Shared pieces:

- `common.dfy`: `Option` for Java's nullable references, and list concatenation.
- `batching.dfy`: the chunking both write paths follow.
- `embeddings.dfy`: the `Embedding` record, a float array and nullable content. Its source file `com/example/model/Embedding.java` is not part of this model; its shape is the one its uses show.

Outside calls are parameters of the model:

- `UUID.randomUUID` is an injective supply `gen: nat -> Id`.
- The similarity score is an abstract function of two vectors.
- The database's resolution of an identifier written into DDL (`canon`) is an abstract function of the store.
- `Math.sqrt` and the `(float)` cast are abstract functions in `FloatOps`.
- The embedding client, the Object Storage list call and the object read are abstract functions from request to response.
- The order in which the database scans the table is an input of `search`.

## Model

| member | source | states |
|---|---|---|
| Batching.BatchesConcat | src/main/java/com/example/embeddingmodel/OCIEmbeddingModel.java:66-73 | concatenating the chunks of a list gives back the list, in order |
| Batching.Batches | src/main/java/com/example/embeddingmodel/OCIEmbeddingModel.java:66-73 | the chunking of toBatches and of addAll's flushes: no chunk exactly for empty input; BatchesConcat, BatchesSizes and BatchesCount give its meaning |
| Batching.BatchesSizes | src/main/java/com/example/embeddingmodel/OCIEmbeddingModel.java:69-70 | every chunk but the last holds exactly `size` elements, the last holds 1 to `size` |
| Batching.BatchesCount | src/main/java/com/example/embeddingmodel/OCIEmbeddingModel.java:69 | there are n/size + (n%size != 0 ? 1 : 0) chunks, and none exactly when the input is empty |
| Batching.BatchesExtend | src/main/java/com/example/embeddingmodel/OCIEmbeddingModel.java:69-70 | the slice [i, min(i + size, n)) after whole chunks of the first i elements extends the chunking of the first i elements to the chunking of the first min(i + size, n) |
| Batching.BatchesAppend | src/main/java/com/example/embeddingmodel/OCIEmbeddingModel.java:66-73 | the chunking of a + b, when a fills whole chunks, is the chunking of a followed by that of b |
| Embeddings.NewVector | src/main/java/com/example/embeddingmodel/OCIEmbeddingModel.java:90-93 | a new array holding the given values in order |
| DataAdapter.Normalize | src/main/java/com/example/vectorstore/OracleDataAdapter.java:21-39 | returns the very array it was given, whose contents become the normalisation of the old contents |
| DataAdapter.Normalized | src/main/java/com/example/vectorstore/OracleDataAdapter.java:21-39 | what normalize leaves in the array: same length; NormalizedIsUniformScaling, NormalizedUnit and NormalizedIdempotent give its meaning |
| DataAdapter.ToVector | src/main/java/com/example/vectorstore/OracleDataAdapter.java:16-19 | the caller's array is normalised in place, and the encoded VECTOR carries the normalised values, never the raw ones |
| DataAdapter.ToFloatArray | src/main/java/com/example/vectorstore/OracleDataAdapter.java:8-14 | a new array of the same length whose element i is the narrowing of input element i |
| DataAdapter.NormalizedIsUniformScaling | src/main/java/com/example/vectorstore/OracleDataAdapter.java:28-36 | the length is kept; with a positive magnitude every element is multiplied by the same 1/magnitude, otherwise the vector is unchanged |
| DataAdapter.NormalizedZero | src/main/java/com/example/vectorstore/OracleDataAdapter.java:22-36 | the zero vector comes back unchanged whatever sqrt and the narrowing do |
| DataAdapter.SquaredSumNonneg | src/main/java/com/example/vectorstore/OracleDataAdapter.java:22-26 | the accumulated sum of squares is non-negative, and zero exactly for the zero vector |
| DataAdapter.SquaredSumScale | src/main/java/com/example/vectorstore/OracleDataAdapter.java:31-35 | multiplying every element by c multiplies the sum of squares by c² |
| DataAdapter.NormalizedUnit | src/main/java/com/example/vectorstore/OracleDataAdapter.java:21-39 | with exact sqrt and narrowing, a vector with a non-zero element is normalised to unit length |
| DataAdapter.NormalizedIdempotent | src/main/java/com/example/vectorstore/OracleDataAdapter.java:21-39 | with exact sqrt and narrowing, normalising twice gives what normalising once gives |
| SearchRequests.NewSearchRequest | src/main/java/com/example/vectorstore/SearchRequest.java:16-21 | a missing maxResults becomes 1 and a missing minScore 0.0; supplied values, text and the caller's vector array are kept as given |
| ServingModes.ModeStrings | src/main/java/com/example/embeddingmodel/ServingModeType.java:11-12 | ON_DEMAND carries "on-demand" and DEDICATED carries "dedicated" |
| ServingModes.ExactlyTwo | src/main/java/com/example/embeddingmodel/ServingModeType.java:9-12 | there are exactly two serving modes |
| ServingModes.ModeInjective | src/main/java/com/example/embeddingmodel/ServingModeType.java:11-18 | different constants carry different mode strings |
| EmbeddingModel.ServingModeFor | src/main/java/com/example/embeddingmodel/OCIEmbeddingModel.java:106-111 | DEDICATED gives a dedicated mode whose endpoint id is the model, ON_DEMAND an on-demand mode whose model id is the model |
| EmbeddingModel.NewOCIEmbeddingModel | src/main/java/com/example/embeddingmodel/OCIEmbeddingModel.java:40-47 | a null truncate becomes NONE and a null serving-mode type ON_DEMAND; model, compartment and client are kept |
| EmbeddingModel.TruncateOrDefault | src/main/java/com/example/embeddingmodel/OCIEmbeddingModel.java:99-104 | NONE when the truncation is unset, the configured value otherwise |
| EmbeddingModel.ConstructedTruncate | src/main/java/com/example/embeddingmodel/OCIEmbeddingModel.java:45 | a constructed model always answers the truncation it was given, or NONE |
| EmbeddingModel.ToEmbedTextRequest | src/main/java/com/example/embeddingmodel/OCIEmbeddingModel.java:75-83 | the request carries the batch as inputs with the model's serving mode, compartment and truncation |
| EmbeddingModel.ToBatches | src/main/java/com/example/embeddingmodel/OCIEmbeddingModel.java:66-73 | the stride-96 loop returns exactly the chunks of 96 of its input |
| EmbeddingModel.ToEmbeddings | src/main/java/com/example/embeddingmodel/OCIEmbeddingModel.java:85-97 | one embedding per response entry, in order, each with content "" and a new array of the entry's values, no two sharing an array |
| EmbeddingModel.EmbedBatches | src/main/java/com/example/embeddingmodel/OCIEmbeddingModel.java:58-62 | the loop over any list of batches: one request per batch in order, the vectors returned are the replies concatenated in batch order, each embedding with content "" and its own new array |
| EmbeddingModel.EmbeddedVectors | src/main/java/com/example/embeddingmodel/OCIEmbeddingModel.java:55-64 | the vectors embedAll returns for the chunks; none for no chunks, and by EmbeddedVectorsAppend those of a + b are those of a then b when a fills whole requests |
| EmbeddingModel.EmbedAll | src/main/java/com/example/embeddingmodel/OCIEmbeddingModel.java:55-64 | exactly one client call per batch of 96, in order; the vectors returned are the replies concatenated in batch order, each embedding with content "" and its own new array |
| EmbeddingModel.RequestsPartitionChunks | src/main/java/com/example/embeddingmodel/OCIEmbeddingModel.java:57-70 | the request inputs, concatenated, are the chunks in order; each request carries 1 to 96 inputs; there are ceil(n/96) requests |
| EmbeddingModel.EmbedAllEmpty | src/main/java/com/example/embeddingmodel/OCIEmbeddingModel.java:55-64 | no chunks means no client call and no embedding |
| EmbeddingModel.EmbeddedVectorsAppend | src/main/java/com/example/embeddingmodel/OCIEmbeddingModel.java:55-64 | when the first part fills whole requests, embedding a + b returns the vectors of a followed by those of b |
| LineSplitter.Pieces | src/main/java/com/example/splitter/LineSplitter.java:9 | splitting at every match gives at least one string |
| LineSplitter.DropTrailingEmpty | src/main/java/com/example/splitter/LineSplitter.java:9 | limit 0 removes exactly the run of trailing empty strings: a prefix remains, and it does not end in "" |
| LineSplitter.Split | src/main/java/com/example/splitter/LineSplitter.java:9 | input without a terminator comes back whole; otherwise a prefix of the pieces that does not end in "" |
| LineSplitter.SplitHasNoTerminator | src/main/java/com/example/splitter/LineSplitter.java:9 | no chunk contains '\n' or '\r' |
| LineSplitter.PiecesHaveNoTerminator | src/main/java/com/example/splitter/LineSplitter.java:9 | no string between matches contains a terminator |
| LineSplitter.JoinPieces | src/main/java/com/example/splitter/LineSplitter.java:9 | joining the strings between matches with "\n" gives the input with every terminator written as "\n" |
| LineSplitter.PiecesCanonical | src/main/java/com/example/splitter/LineSplitter.java:9 | writing every terminator as "\n" does not change where the input is cut |
| LineSplitter.SplitCanonical | src/main/java/com/example/splitter/LineSplitter.java:9 | "\r\n", "\r" and "\n" are interchangeable terminators for split |
| LineSplitter.CanonicalTerminators | src/main/java/com/example/splitter/LineSplitter.java:9 | rewriting terminators as "\n" keeps whether there is one, and leaves no '\r' |
| LineSplitter.LastPieceNonEmpty | src/main/java/com/example/splitter/LineSplitter.java:9 | input ending in a non-terminator has a non-empty last piece |
| LineSplitter.SplitJoin | src/main/java/com/example/splitter/LineSplitter.java:9 | for input not ending in a terminator, joining the chunks with "\n" gives the input with terminators as "\n", and the input itself when it has no '\r' |
| LineSplitter.OnlyTerminators | src/main/java/com/example/splitter/LineSplitter.java:9 | non-empty input made only of terminators gives an empty list |
| LineSplitter.NoTerminator | src/main/java/com/example/splitter/LineSplitter.java:9 | input without a terminator, "" included, gives the single chunk equal to the input |
| LineSplitter.SplitKeepsAllButTrailingEmpty | src/main/java/com/example/splitter/LineSplitter.java:9 | with a terminator, the result is the pieces up to the run of trailing empty strings, and it does not end in "" |
| LineSplitter.CarriageReturnLineFeedExample | src/main/java/com/example/splitter/LineSplitter.java:9 | "a\r\nb" splits into ["a", "b"]: "\r\n" is one terminator |
| LineSplitter.TrailingEmptyExample | src/main/java/com/example/splitter/LineSplitter.java:9 | "a\n\n" splits into ["a"] |
| LineSplitter.LeadingEmptyExample | src/main/java/com/example/splitter/LineSplitter.java:9 | "\na" splits into ["", "a"] |
| DocumentLoader.ToObjectNames | src/main/java/com/example/documentloader/OCIDocumentLoader.java:80-87 | a name is kept exactly when it is on the page and does not end in "/"; never more names than the page has |
| DocumentLoader.ToObjectNamesAppend | src/main/java/com/example/documentloader/OCIDocumentLoader.java:80-87 | the filter distributes over concatenation, so kept names keep their order |
| DocumentLoader.ToObjectNamesExamples | src/main/java/com/example/documentloader/OCIDocumentLoader.java:84-85 | the filter looks only at the name: a "docs/" entry is dropped and any name without a trailing "/" is kept, so a zero-byte object is kept whatever the comment says |
| DocumentLoader.Chain | src/main/java/com/example/documentloader/OCIDocumentLoader.java:66-76 | the list requests sent: at least one, the first without a start |
| DocumentLoader.ChainLinks | src/main/java/com/example/documentloader/OCIDocumentLoader.java:68-75 | each follow-up request starts at the previous page's nextStartWith, fetching stops at the first page without one, and a first page without one means a single request |
| DocumentLoader.Listed | src/main/java/com/example/documentloader/OCIDocumentLoader.java:67-75 | the names gathered from the pages answering the requests, in page order, never one ending in "/" |
| DocumentLoader.ListObjects | src/main/java/com/example/documentloader/OCIDocumentLoader.java:61-78 | sends exactly the chain of requests and returns the filtered names of every page, in page order |
| DocumentLoader.ReadSucceeded | src/main/java/com/example/documentloader/OCIDocumentLoader.java:32-40 | never more texts than names |
| DocumentLoader.ReadSucceededAppend | src/main/java/com/example/documentloader/OCIDocumentLoader.java:32-40 | reading a + b yields the texts of a then those of b |
| DocumentLoader.FailedReadSkipped | src/main/java/com/example/documentloader/OCIDocumentLoader.java:34-40 | a failed read is dropped and the objects after it are still read |
| DocumentLoader.AllReadsSucceed | src/main/java/com/example/documentloader/OCIDocumentLoader.java:31-41 | when every read succeeds there is one text per name, in listing order |
| DocumentLoader.StreamDocuments | src/main/java/com/example/documentloader/OCIDocumentLoader.java:31-41 | the texts of the listed objects whose read succeeds, in listing order, never more than the names listed |
| SearchQuery.Insert | src/main/java/com/example/vectorstore/OracleVectorStore.java:135 | one ranking step keeps every row: the multiset grows by the inserted row |
| SearchQuery.Ranked | src/main/java/com/example/vectorstore/OracleVectorStore.java:135 | ordering keeps exactly the rows, with their multiplicities |
| SearchQuery.RankedSorted | src/main/java/com/example/vectorstore/OracleVectorStore.java:135 | the ranking is in non-increasing score order |
| SearchQuery.AtLeast | src/main/java/com/example/vectorstore/OracleVectorStore.java:137 | every row kept scores at least minScore, and no more rows than given |
| SearchQuery.AtLeastCount | src/main/java/com/example/vectorstore/OracleVectorStore.java:137 | the filter keeps every copy of a row that reaches the threshold and no copy of one that does not |
| SearchQuery.Take | src/main/java/com/example/vectorstore/OracleVectorStore.java:138 | the result is a prefix of min(n, length) rows, none when n <= 0 |
| SearchQuery.Query | src/main/java/com/example/vectorstore/OracleVectorStore.java:131-139 | every row returned reaches minScore, at most maxResults rows (none when maxResults <= 0) and no more than the table holds; QuerySelects gives the ordering and the best-of property |
| SearchQuery.SortedAtLeastIsPrefix | src/main/java/com/example/vectorstore/OracleVectorStore.java:132-137 | on ranked rows the filter keeps a prefix, and every row after it is below the threshold |
| SearchQuery.QuerySelects | src/main/java/com/example/vectorstore/OracleVectorStore.java:131-139 | every result scores at least minScore, results are in non-increasing score order, there are min(maxResults, qualifying) of them, they lead the qualifying rows and no qualifying row left out scores higher, all taken from the table |
| SearchQuery.QualifyingRows | src/main/java/com/example/vectorstore/OracleVectorStore.java:131-139 | the rows the filter passes are exactly the table's rows at or above minScore, with their multiplicities |
| SearchQuery.QueryMonotone | src/main/java/com/example/vectorstore/OracleVectorStore.java:131-139 | a higher threshold or a smaller limit returns a leading part of the same answer |
| SearchQuery.QueryEmpty | src/main/java/com/example/vectorstore/OracleVectorStore.java:131-139 | a threshold no row reaches, or a limit of 0 or less, returns no rows |
| VectorStore.EnsureSchema | src/main/java/com/example/vectorstore/OracleVectorStore.java:51-77 | with names resolved as the database resolves identifiers, the table is added only when no table resolves to its name, and vector_index only when no index of that name exists, recorded on this table; both exist afterwards |
| VectorStore.EnsureSchemaIdempotent | src/main/java/com/example/vectorstore/OracleVectorStore.java:53-73 | creating the table twice leaves the schema as creating it once |
| VectorStore.EnsureSchemaFirstWins | src/main/java/com/example/vectorstore/OracleVectorStore.java:53-70 | a later call for any table keeps the existing indexes and the first table's dimension, and a call whose table name resolves to the same identifier ("Foo" and "FOO" unquoted) changes nothing |
| VectorStore.Merge | src/main/java/com/example/vectorstore/OracleVectorStore.java:94-97 | an existing id has content and embedding replaced, an absent id is inserted, other rows are unchanged |
| VectorStore.ApplyAllAppend | src/main/java/com/example/vectorstore/OracleVectorStore.java:111-119 | executing one batch after another is executing their concatenation |
| VectorStore.ApplyAllLastWins | src/main/java/com/example/vectorstore/OracleVectorStore.java:94-97 | executing a batch never removes a row, and the last merge of the batch for an id decides that row |
| VectorStore.ApplyAllDistinct | src/main/java/com/example/vectorstore/OracleVectorStore.java:94-97 | merges with distinct ids all land under their ids; the table gains exactly those ids and other rows are unchanged |
| VectorStore.BatchStep | src/main/java/com/example/vectorstore/OracleVectorStore.java:110-117 | executing the rows since the last flush extends both the table and the batch log to all rows staged so far |
| VectorStore.StagedRows | src/main/java/com/example/vectorstore/OracleVectorStore.java:100-108 | embedding i is staged with the (start + i)-th id, its content or "", and its normalised vector |
| VectorStore.StagedIds | src/main/java/com/example/vectorstore/OracleVectorStore.java:103 | a supply of distinct ids gives the staged rows distinct ids, exactly the ones drawn |
| VectorStore.AddAllWrites | src/main/java/com/example/vectorstore/OracleVectorStore.java:100-108 | every embedding is written under its own new id with its content ("" for null) and normalised vector, existing rows are unchanged, unused ids stay unused |
| VectorStore.FlushLog | src/main/java/com/example/vectorstore/OracleVectorStore.java:110-119 | the executed batches concatenate to the staged rows in order, none holds more than 50, there are n/50 + (n%50 != 0 ? 1 : 0) + 1 of them, and the last is empty |
| VectorStore.AddAllEmpty | src/main/java/com/example/vectorstore/OracleVectorStore.java:116-119 | addAll of nothing changes no row and executes one empty batch |
| VectorStore.BatchCursor | src/main/java/com/example/vectorstore/OracleVectorStore.java:111-116 | with the last flush at a multiple of 50, i % 50 == 49 holds exactly when the batch has 50 rows, and n % 50 == 0 exactly when nothing is pending |
| VectorStore.OracleVectorStore.constructor | src/main/java/com/example/vectorstore/OracleVectorStore.java:45-49 | keeps table name and dimension; nothing staged, no batch executed, no id drawn |
| VectorStore.OracleVectorStore.CreateTableIfNotExists | src/main/java/com/example/vectorstore/OracleVectorStore.java:51-77 | the schema becomes EnsureSchema of the old one; nothing else changes |
| VectorStore.OracleVectorStore.ExecuteBatch | src/main/java/com/example/vectorstore/OracleVectorStore.java:112 | the pending merges are applied in order, logged as one batch, and the batch is emptied |
| VectorStore.OracleVectorStore.AddAll | src/main/java/com/example/vectorstore/OracleVectorStore.java:92-123 | the table becomes the old table with the staged merges applied in order; the batch log grows by the 50-row chunks of the staged rows and one empty batch; each caller array is normalised in place; one id drawn per embedding; the store stays valid |
| VectorStore.OracleVectorStore.StageAll | src/main/java/com/example/vectorstore/OracleVectorStore.java:100-114 | after the loop every full batch of 50 has been executed, the remainder is pending, and every array is normalised |
| VectorStore.OracleVectorStore.StageOne | src/main/java/com/example/vectorstore/OracleVectorStore.java:100-113 | one turn stages embedding i and keeps the loop's state: whole batches executed, the rest pending |
| VectorStore.OracleVectorStore.FlushIfFull | src/main/java/com/example/vectorstore/OracleVectorStore.java:110-113 | the batch is executed exactly when it has 50 rows, keeping table and log in step with the rows flushed |
| VectorStore.OracleVectorStore.FlushRemaining | src/main/java/com/example/vectorstore/OracleVectorStore.java:115-119 | a non-empty remainder is executed, then one more (empty) batch; nothing stays pending |
| VectorStore.OracleVectorStore.AddBatch | src/main/java/com/example/vectorstore/OracleVectorStore.java:101-108 | stages a merge with the next id, the content or "", and the vector normalised in the embedding's own array; no other array changes |
| VectorStore.OracleVectorStore.Add | src/main/java/com/example/vectorstore/OracleVectorStore.java:83-85 | exactly the effect of addAll of the one-element list |
| VectorStore.OracleVectorStore.Search | src/main/java/com/example/vectorstore/OracleVectorStore.java:125-158 | the request's array is normalised in place; the result is one embedding per row of the query over the table, in result order, with the row's content and a new array of the narrowed stored values |
| VectorStore.OracleVectorStore.ReadResultSet | src/main/java/com/example/vectorstore/OracleVectorStore.java:146-153 | one embedding per result row, in order, with its content and a new narrowed array |

## Left out

- JDBC, connections, SQL text and the Oracle `VECTOR` encoding are not modelled as such. The database is the store's state, a `VECTOR` is the sequence of values it carries, and `vector_distance` is an abstract score.
- Floating point: floats and doubles are reals, and `Math.sqrt` and the `(float)` cast are abstract. Rounding and NaN are not modelled. So unit length and idempotence of normalisation are proved only under exact arithmetic.
- The approximate (IVF index) search is not modelled. The query is the exact ORDER BY / WHERE / FETCH FIRST. Ties in score come back in the database's scan order, which is an input of `Search`.
- `UUID.randomUUID` is an injected supply of distinct ids. The model assumes, as the source does, that a new UUID is never already a row id.
- `VectorStore.OracleVectorStore.AddAll`: requires the embeddings' arrays to be pairwise distinct. The source would normalise a shared array twice, which the model does not follow. Lists from `EmbedAll` always meet this requirement.
- `VectorStore.OracleVectorStore.Search`: requires a non-null request vector. The source throws a NullPointerException from `normalize` then.
- `VectorStore.OracleVectorStore.Search`: does not check that the vector's length matches the table's dimension, and neither does the source before the database rejects it.
- SQL errors and `RuntimeException` wrapping are not modelled, and neither is a partly executed `addAll` after a failed batch. That depends on autocommit settings outside this code.
- `VectorStore.EnsureSchema`: how the database resolves an identifier spliced into the DDL (upper-case folding when unquoted, quoting) is an abstract function `canon` of the store, not computed.
- Oracle stores "" as NULL, so content "" reads back as null. The model stores and reads "" as "".
- `EmbeddingModel.ToBatches`: the Java `int` index `i += 96` could overflow for lists near 2^31 elements; the model's index is unbounded.
- `OCIDocumentLoader.getObjectText` (a byte-stream read loop) is left out. A read is an abstract function that answers the text or `None` for a failed read. The error log line is left out too.
- `DocumentLoader.ListObjects`: it and `DocumentLoader.StreamDocuments` are defined only for page chains that end within a ghost bound `fuel`. On a chain that never ends, the source never returns.
- `DocumentLoader.StreamDocuments`: the result is a list, not a lazy `Stream`, so read order and laziness are not modelled.
- The integration test `src/test/java/com/example/EmbedddingWorkflowIT.java` is not part of this model.
