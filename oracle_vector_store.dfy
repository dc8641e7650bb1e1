/**
 * OracleVectorStore: stores embeddings in an Oracle Database 23ai table and answers similarity
 * searches against it. The database seen through the DataSource is modelled as the store's own
 * state: the schema objects, the rows of its table keyed by id, the JDBC batch being staged and
 * the log of the batches executed. UUID.randomUUID is an injected supply of distinct ids, and
 * the query's similarity score is an abstract function of the stored and the query vector.
 */
module VectorStore {
  import opened Common
  import opened Batching
  import opened Embeddings
  import opened DataAdapter
  import opened SearchRequests
  import opened SearchQuery

  /** BATCH_SIZE: the number of staged rows after which addAll executes its batch. */
  const BatchSize: nat := 50

  /** The name the vector index is created under, whatever the table. */
  const VectorIndexName: string := "vector_index"

  /** A UUID string. */
  type Id = string

  /** One row of the embeddings table: its content and embedding columns. */
  datatype Row = Row(content: string, embedding: Vector)

  /** The three parameters bound for one merge before addBatch. */
  datatype Staged = Staged(id: Id, content: string, embedding: Vector)

  /** The schema objects the store creates: tables by resolved name with their vector
      dimension, and indexes by resolved name with the resolved name of the table each was
      built on. */
  datatype Schema = Schema(tables: map<string, int>, indexes: map<string, string>)

  /** Each id of the supply is different from every other. */
  ghost predicate Injective(gen: nat -> Id) {
    forall a: nat, b: nat :: gen(a) == gen(b) ==> a == b
  }

  /** createTableIfNotExists on a schema. The table and index names are spliced into the DDL
      text, so the database resolves them as identifiers: `canon` is that resolution (Oracle
      folds an unquoted identifier to upper case and keeps a quoted one as written). "create
      table if not exists" adds the table only when no table resolves to the same name, and
      "create vector index if not exists vector_index" adds the index only when no index of
      that name exists, whichever table it was built on. */
  function EnsureSchema(s: Schema, canon: string -> string, tableName: string, dimensions: int)
    : (r: Schema)
    ensures canon(tableName) in r.tables && canon(VectorIndexName) in r.indexes
    ensures canon(tableName) in s.tables ==> r.tables == s.tables
    ensures canon(tableName) !in s.tables ==> r.tables == s.tables[canon(tableName) := dimensions]
    ensures canon(VectorIndexName) in s.indexes ==> r.indexes == s.indexes
    ensures canon(VectorIndexName) !in s.indexes
      ==> r.indexes == s.indexes[canon(VectorIndexName) := canon(tableName)]
  {
    var table := canon(tableName);
    var index := canon(VectorIndexName);
    var tables := if table in s.tables then s.tables else s.tables[table := dimensions];
    var indexes := if index in s.indexes then s.indexes else s.indexes[index := table];
    Schema(tables, indexes)
  }

  /** Creating the table twice leaves the schema as creating it once. */
  lemma EnsureSchemaIdempotent(s: Schema, canon: string -> string, tableName: string, dimensions: int)
    ensures EnsureSchema(EnsureSchema(s, canon, tableName, dimensions), canon, tableName, dimensions)
      == EnsureSchema(s, canon, tableName, dimensions)
  {
  }

  /** A second store over a table name that resolves to the same table ("Foo" and "FOO" when
      unquoted) changes nothing, whatever its dimension; a store over another table gets no
      index of its own once vector_index exists, and the first table keeps its dimension. */
  lemma EnsureSchemaFirstWins(s: Schema, canon: string -> string, t1: string, d1: int, t2: string, d2: int)
    ensures var s1 := EnsureSchema(s, canon, t1, d1);
      var s2 := EnsureSchema(s1, canon, t2, d2);
      && s2.indexes == s1.indexes
      && s2.tables[canon(t1)] == s1.tables[canon(t1)]
      && (canon(t1) == canon(t2) ==> s2 == s1)
  {
  }

  /** The merge of one staged row: an existing id has its content and embedding replaced, an
      absent id is inserted, and every other row is unchanged. */
  function Merge(table: map<Id, Row>, row: Staged): (r: map<Id, Row>)
    ensures r.Keys == table.Keys + {row.id}
    ensures r[row.id] == Row(row.content, row.embedding)
    ensures forall id :: id in table && id != row.id ==> r[id] == table[id]
  {
    table[row.id := Row(row.content, row.embedding)]
  }

  /** executeBatch: the staged merges applied in order. */
  function ApplyAll(table: map<Id, Row>, rows: seq<Staged>): map<Id, Row>
    decreases |rows|
  {
    if rows == [] then table else ApplyAll(Merge(table, rows[0]), rows[1..])
  }

  function Ids(rows: seq<Staged>): set<Id> {
    set i | 0 <= i < |rows| :: rows[i].id
  }

  predicate DistinctIds(rows: seq<Staged>) {
    forall i, j :: 0 <= i < j < |rows| ==> rows[i].id != rows[j].id
  }

  /** A batch never removes a row, and the last merge of the batch decides the row it names. */
  lemma {:induction false} ApplyAllLastWins(table: map<Id, Row>, rows: seq<Staged>)
    ensures table.Keys <= ApplyAll(table, rows).Keys
    ensures rows != [] ==> var last := rows[|rows| - 1];
      last.id in ApplyAll(table, rows) && ApplyAll(table, rows)[last.id] == Row(last.content, last.embedding)
    decreases |rows|
  {
    if rows != [] {
      ApplyAllLastWins(Merge(table, rows[0]), rows[1..]);
    }
  }

  /** Executing one batch after another is executing their concatenation. */
  lemma {:induction false} ApplyAllAppend(table: map<Id, Row>, a: seq<Staged>, b: seq<Staged>)
    ensures ApplyAll(table, a + b) == ApplyAll(ApplyAll(table, a), b)
    decreases |a|
  {
    if a == [] {
      assert a + b == b;
    } else {
      assert (a + b)[0] == a[0] && (a + b)[1..] == a[1..] + b;
      ApplyAllAppend(Merge(table, a[0]), a[1..], b);
    }
  }

  /** Rows with distinct ids all land: each under its own id, with its content and embedding;
      the table gains exactly their ids, and rows under other ids are unchanged. */
  lemma {:induction false} ApplyAllDistinct(table: map<Id, Row>, rows: seq<Staged>)
    requires DistinctIds(rows)
    ensures ApplyAll(table, rows).Keys == table.Keys + Ids(rows)
    ensures forall i :: 0 <= i < |rows| ==>
      ApplyAll(table, rows)[rows[i].id] == Row(rows[i].content, rows[i].embedding)
    ensures forall id :: id in table && id !in Ids(rows) ==> ApplyAll(table, rows)[id] == table[id]
    decreases |rows|
  {
    if rows != [] {
      var rest := rows[1..];
      ApplyAllDistinct(Merge(table, rows[0]), rest);
      IdsCons(rows);
      forall i | 0 < i < |rows|
        ensures ApplyAll(table, rows)[rows[i].id] == Row(rows[i].content, rows[i].embedding)
      {
        assert rows[i] == rest[i - 1];
      }
    }
  }

  lemma IdsCons(rows: seq<Staged>)
    requires rows != [] && DistinctIds(rows)
    ensures Ids(rows) == {rows[0].id} + Ids(rows[1..])
    ensures DistinctIds(rows[1..]) && rows[0].id !in Ids(rows[1..])
  {
    var rest := rows[1..];
    assert forall i :: 0 <= i < |rest| ==> rest[i] == rows[i + 1];
    assert forall i :: 0 < i < |rows| ==> rows[i] == rest[i - 1];
  }

  /** Executing the rows [done, end) after whole batches of the rows before `done`: the table
      and the batch log are those of the rows before `end`. */
  lemma BatchStep(table: map<Id, Row>, staged: seq<Staged>, done: nat, end: nat)
    requires done % BatchSize == 0 && done < end <= |staged| && end - done <= BatchSize
    ensures ApplyAll(ApplyAll(table, staged[..done]), staged[done..end]) == ApplyAll(table, staged[..end])
    ensures Batches(staged[..done], BatchSize) + [staged[done..end]] == Batches(staged[..end], BatchSize)
  {
    BatchesExtend(staged, BatchSize, done, end);
    assert staged[..done] + staged[done..end] == staged[..end];
    ApplyAllAppend(table, staged[..done], staged[done..end]);
  }

  /** The rows addAll stages for `es`: embedding i gets id gen(start + i), its content or "" when
      it has none, and its vector normalised. */
  function StagedRows(gen: nat -> Id, start: nat, contents: seq<Option<string>>,
                      vectors: seq<seq<real>>, ops: FloatOps): (r: seq<Staged>)
    requires |contents| == |vectors|
    ensures |r| == |contents|
    ensures forall i :: 0 <= i < |r| ==>
      r[i] == Staged(gen(start + i), contents[i].GetOr(""), Vector(Normalized(vectors[i], ops)))
  {
    seq(|contents|, i requires 0 <= i < |contents| =>
      Staged(gen(start + i), contents[i].GetOr(""), Vector(Normalized(vectors[i], ops))))
  }

  /** The ids drawn from the supply for `n` rows starting at draw `start`. */
  function DrawnIds(gen: nat -> Id, start: nat, n: nat): set<Id> {
    set k: nat | start <= k < start + n :: gen(k)
  }

  /** A supply of distinct ids gives the staged rows distinct ids, exactly those drawn. */
  lemma StagedIds(gen: nat -> Id, start: nat, contents: seq<Option<string>>,
                  vectors: seq<seq<real>>, ops: FloatOps)
    requires |contents| == |vectors|
    requires Injective(gen)
    ensures var rows := StagedRows(gen, start, contents, vectors, ops);
      DistinctIds(rows) && Ids(rows) == DrawnIds(gen, start, |contents|)
  {
    var rows := StagedRows(gen, start, contents, vectors, ops);
    forall id | id in DrawnIds(gen, start, |contents|)
      ensures id in Ids(rows)
    {
      var k: nat :| start <= k < start + |contents| && gen(k) == id;
      assert rows[k - start].id == id;
    }
  }

  /** With a supply of distinct ids not yet in the table, addAll writes every embedding under its
      own new id with its content ("" for none) and its normalised vector, leaves every existing
      row as it was, and the ids it has not used are still unused afterwards. */
  lemma AddAllWrites(table: map<Id, Row>, gen: nat -> Id, start: nat,
                     contents: seq<Option<string>>, vectors: seq<seq<real>>, ops: FloatOps)
    requires |contents| == |vectors|
    requires Injective(gen)
    requires forall k: nat :: k >= start ==> gen(k) !in table
    ensures var after := ApplyAll(table, StagedRows(gen, start, contents, vectors, ops));
      && after.Keys == table.Keys + DrawnIds(gen, start, |contents|)
      && (forall k: nat :: start <= k < start + |contents| ==>
            after[gen(k)] == Row(contents[k - start].GetOr(""), Vector(Normalized(vectors[k - start], ops))))
      && (forall id :: id in table ==> after[id] == table[id])
      && (forall k: nat :: k >= start + |contents| ==> gen(k) !in after)
  {
    var rows := StagedRows(gen, start, contents, vectors, ops);
    var after := ApplyAll(table, rows);
    StagedIds(gen, start, contents, vectors, ops);
    ApplyAllDistinct(table, rows);
    forall k: nat | start <= k < start + |contents|
      ensures after[gen(k)] == Row(contents[k - start].GetOr(""), Vector(Normalized(vectors[k - start], ops)))
    {
      assert rows[k - start].id == gen(k);
    }
    forall id | id in table
      ensures after[id] == table[id]
    {
      assert id !in DrawnIds(gen, start, |contents|);
    }
  }

  /** The batches addAll executes for n staged rows: one per 50 rows and one for the remainder,
      in order and covering every row, plus the final empty one; so n / 50 + (n % 50 != 0 ? 1 : 0)
      + 1 executions, none with more than 50 rows. */
  lemma FlushLog(staged: seq<Staged>)
    ensures var log := Batches(staged, BatchSize) + [[]];
      && |log| == BatchCount(|staged|, BatchSize) + 1
      && Concat(log) == staged
      && (forall i :: 0 <= i < |log| ==> |log[i]| <= BatchSize)
      && log[|log| - 1] == []
  {
    var batches := Batches(staged, BatchSize);
    BatchesCount(staged, BatchSize);
    BatchesSizes(staged, BatchSize);
    BatchesConcat(staged, BatchSize);
    var empty: seq<seq<Staged>> := [[]];
    ConcatAppend(batches, empty);
    assert Concat(empty) == empty[0] + Concat(empty[1..]);
  }

  /** addAll of no embeddings writes nothing and executes exactly one (empty) batch. */
  lemma AddAllEmpty(table: map<Id, Row>, gen: nat -> Id, start: nat, ops: FloatOps)
    ensures var staged := StagedRows(gen, start, [], [], ops);
      && ApplyAll(table, staged) == table
      && Batches(staged, BatchSize) + [[]] == [[]]
  {
  }

  /** The score the query computes for a stored row against the query vector. */
  function ScoreAgainst(similarity: (Vector, Vector) -> real, query: Vector): Row -> real {
    (row: Row) => similarity(row.embedding, query)
  }

  /** The table's rows in the order the database reads them. */
  function Entries(table: map<Id, Row>, scan: seq<Id>): (r: seq<Row>)
    requires forall i :: 0 <= i < |scan| ==> scan[i] in table
    ensures |r| == |scan|
    ensures forall i :: 0 <= i < |scan| ==> r[i] == table[scan[i]]
  {
    seq(|scan|, i requires 0 <= i < |scan| => table[scan[i]])
  }

  /** `scan` reads every row of the table exactly once. */
  ghost predicate Enumerates(scan: seq<Id>, table: map<Id, Row>) {
    && (forall i :: 0 <= i < |scan| ==> scan[i] in table)
    && (forall id :: id in table ==> id in scan)
    && (forall i, j :: 0 <= i < j < |scan| ==> scan[i] != scan[j])
  }

  /** The narrowing of every element. */
  function Narrowed(s: seq<real>, ops: FloatOps): (r: seq<real>)
    ensures |r| == |s|
    ensures forall i :: 0 <= i < |s| ==> r[i] == ops.toFloat(s[i])
  {
    seq(|s|, i requires 0 <= i < |s| => ops.toFloat(s[i]))
  }

  /** Where addAll's running batch stands: with the last flush at `done`, a multiple of
      BatchSize, position n is its first row exactly when n == done, and its last when n + 1
      completes BatchSize rows. */
  lemma BatchCursor(n: nat, done: nat)
    requires done % BatchSize == 0 && done <= n < done + BatchSize
    ensures (n % BatchSize == 0) == (n == done)
    ensures (n % BatchSize == BatchSize - 1) == (n + 1 == done + BatchSize)
    ensures (done + BatchSize) % BatchSize == 0
  {
    DivMod(n, BatchSize, done / BatchSize, n - done);
    DivMod(done + BatchSize, BatchSize, done / BatchSize + 1, 0);
  }

  class OracleVectorStore {
    const tableName: string
    const dimensions: Int32
    /** UUID.randomUUID, one id per call in order. */
    const gen: nat -> Id
    const ops: FloatOps
    /** How the database resolves an identifier written into the DDL. */
    const canon: string -> string
    /** 1 - vector_distance(embedding, ?, COSINE). */
    const similarity: (Vector, Vector) -> real

    var schema: Schema
    var table: map<Id, Row>
    /** The merges added to the prepared statement's batch and not yet executed. */
    var pending: seq<Staged>
    /** Every executeBatch, with the merges it carried. */
    var flushes: seq<seq<Staged>>
    /** How many ids have been drawn from the supply. */
    var issued: nat

    /** Between calls nothing is staged, and the ids still to be drawn are distinct and not in
        the table. */
    ghost predicate Valid()
      reads this
    {
      && pending == []
      && Injective(gen)
      && forall k: nat :: k >= issued ==> gen(k) !in table
    }

    /** new OracleVectorStore(dataSource, tableName, dimensions), over a database holding
        `schema` and the rows `table`. */
    constructor(tableName: string, dimensions: Int32, gen: nat -> Id, ops: FloatOps,
                canon: string -> string, similarity: (Vector, Vector) -> real,
                schema: Schema, table: map<Id, Row>)
      requires Injective(gen)
      requires forall k: nat :: gen(k) !in table
      ensures Valid()
      ensures this.tableName == tableName && this.dimensions == dimensions
      ensures this.gen == gen && this.ops == ops && this.canon == canon && this.similarity == similarity
      ensures this.schema == schema && this.table == table
      ensures flushes == [] && issued == 0
    {
      this.tableName := tableName;
      this.dimensions := dimensions;
      this.gen := gen;
      this.ops := ops;
      this.canon := canon;
      this.similarity := similarity;
      this.schema := schema;
      this.table := table;
      pending := [];
      flushes := [];
      issued := 0;
    }

    /** createTableIfNotExists(): the table and the vector index, each only if absent. */
    method CreateTableIfNotExists()
      modifies this`schema
      ensures schema == EnsureSchema(old(schema), canon, tableName, dimensions)
    {
      schema := EnsureSchema(schema, canon, tableName, dimensions);
    }

    /** stmt.executeBatch(): runs the staged merges in order and empties the batch. */
    method ExecuteBatch()
      modifies this`table, this`pending, this`flushes
      ensures table == ApplyAll(old(table), old(pending))
      ensures flushes == old(flushes) + [old(pending)]
      ensures pending == []
    {
      table := ApplyAll(table, pending);
      flushes := flushes + [pending];
      pending := [];
    }

    /** addAll(embeddings): stages one merge per embedding, under a new id, with its content or
        "" and its vector normalised in the caller's own array; executes the batch after every
        50th row, once more when rows remain, and then once more unconditionally. */
    method AddAll(es: seq<Embedding>)
      requires Valid()
      requires DistinctVectors(es)
      modifies this`table, this`pending, this`flushes, this`issued, Vectors(es)
      ensures Valid()
      ensures issued == old(issued) + |es|
      ensures var staged := StagedRows(gen, old(issued), Contents(es), old(Snapshot(es)), ops);
        && table == ApplyAll(old(table), staged)
        && flushes == old(flushes) + Batches(staged, BatchSize) + [[]]
      ensures forall i :: 0 <= i < |es| ==> es[i].vector[..] == Normalized(old(es[i].vector[..]), ops)
    {
      ghost var original := Snapshot(es);
      ghost var staged := StagedRows(gen, issued, Contents(es), original, ops);
      ghost var done := StageAll(es, staged, original);
      FlushRemaining(|es|, old(table), old(flushes), staged, done);
      AddAllWrites(old(table), gen, old(issued), Contents(es), original, ops);
    }

    /** addAll's loop: stages every embedding in order and executes the batch after every
        BatchSize-th row; `done` is the last flush point, and the rows after it are pending. */
    method StageAll(es: seq<Embedding>, ghost staged: seq<Staged>, ghost original: seq<seq<real>>)
      returns (ghost done: nat)
      requires pending == [] && DistinctVectors(es)
      requires original == Snapshot(es)
      requires staged == StagedRows(gen, issued, Contents(es), original, ops)
      modifies this`table, this`pending, this`flushes, this`issued, Vectors(es)
      ensures done % BatchSize == 0 && done <= |es| < done + BatchSize
      ensures issued == old(issued) + |es|
      ensures pending == staged[done..|es|]
      ensures flushes == old(flushes) + Batches(staged[..done], BatchSize)
      ensures table == ApplyAll(old(table), staged[..done])
      ensures forall j :: 0 <= j < |es| ==> es[j].vector[..] == Normalized(original[j], ops)
    {
      done := 0;
      var i := 0;
      while i < |es|
        invariant 0 <= done <= i <= |es| && done % BatchSize == 0 && i - done < BatchSize
        invariant issued == old(issued) + i
        invariant pending == staged[done..i]
        invariant flushes == old(flushes) + Batches(staged[..done], BatchSize)
        invariant table == ApplyAll(old(table), staged[..done])
        invariant forall j :: 0 <= j < i ==> es[j].vector[..] == Normalized(original[j], ops)
        invariant forall j :: i <= j < |es| ==> es[j].vector[..] == original[j]
      {
        done := StageOne(es, i, old(issued), old(table), old(flushes), staged, original, done);
        i := i + 1;
      }
    }

    /** One turn of addAll's loop: stages embedding i and executes the batch when it is full. */
    method StageOne(es: seq<Embedding>, i: nat, ghost start: nat, ghost before: map<Id, Row>,
                    ghost log: seq<seq<Staged>>, ghost staged: seq<Staged>,
                    ghost original: seq<seq<real>>, ghost done: nat)
      returns (ghost done': nat)
      requires i < |es| && DistinctVectors(es) && |original| == |es|
      requires staged == StagedRows(gen, start, Contents(es), original, ops)
      requires done % BatchSize == 0 && done <= i < done + BatchSize
      requires issued == start + i
      requires pending == staged[done..i]
      requires flushes == log + Batches(staged[..done], BatchSize)
      requires table == ApplyAll(before, staged[..done])
      requires forall j :: 0 <= j < i ==> es[j].vector[..] == Normalized(original[j], ops)
      requires forall j :: i <= j < |es| ==> es[j].vector[..] == original[j]
      modifies this`table, this`pending, this`flushes, this`issued, es[i].vector
      ensures done' % BatchSize == 0 && done' <= i + 1 < done' + BatchSize
      ensures issued == start + i + 1
      ensures pending == staged[done'..i + 1]
      ensures flushes == log + Batches(staged[..done'], BatchSize)
      ensures table == ApplyAll(before, staged[..done'])
      ensures forall j :: 0 <= j <= i ==> es[j].vector[..] == Normalized(original[j], ops)
      ensures forall j :: i < j < |es| ==> es[j].vector[..] == original[j]
    {
      assert es[i].vector[..] == original[i];
      assert Contents(es)[i] == es[i].content;
      assert staged[i] == Staged(gen(issued), es[i].content.GetOr(""), Vector(Normalized(original[i], ops)));
      SliceSnoc(staged, done, i);
      AddBatch(es, i);
      done' := FlushIfFull(i, before, log, staged, done);
    }

    /** Inside addAll's loop, once row i is staged: executes the batch when i % BatchSize ==
        BatchSize - 1, that is, when it holds BatchSize rows. `done'` is the new flush point. */
    method FlushIfFull(i: nat, ghost start: map<Id, Row>, ghost before: seq<seq<Staged>>,
                       ghost staged: seq<Staged>, ghost done: nat) returns (ghost done': nat)
      requires done % BatchSize == 0 && done <= i < done + BatchSize && i < |staged|
      requires pending == staged[done..i + 1]
      requires table == ApplyAll(start, staged[..done])
      requires flushes == before + Batches(staged[..done], BatchSize)
      modifies this`table, this`pending, this`flushes
      ensures done' % BatchSize == 0 && done' <= i + 1 < done' + BatchSize
      ensures pending == staged[done'..i + 1]
      ensures table == ApplyAll(start, staged[..done'])
      ensures flushes == before + Batches(staged[..done'], BatchSize)
    {
      BatchCursor(i, done);
      done' := done;
      if i % BatchSize == BatchSize - 1 {
        ExecuteBatch();
        BatchStep(start, staged, done, i + 1);
        done' := i + 1;
      }
    }

    /** The end of addAll: executes the batch when the row count is not a multiple of
        BatchSize, then executes it once more, which flushes an empty batch. */
    method FlushRemaining(n: nat, ghost start: map<Id, Row>, ghost before: seq<seq<Staged>>,
                          ghost staged: seq<Staged>, ghost done: nat)
      requires |staged| == n
      requires done % BatchSize == 0 && done <= n < done + BatchSize
      requires pending == staged[done..n]
      requires table == ApplyAll(start, staged[..done])
      requires flushes == before + Batches(staged[..done], BatchSize)
      modifies this`table, this`pending, this`flushes
      ensures pending == []
      ensures table == ApplyAll(start, staged)
      ensures flushes == before + Batches(staged, BatchSize) + [[]]
    {
      BatchCursor(n, done);
      if n % BatchSize != 0 {
        ExecuteBatch();
        BatchStep(start, staged, done, n);
      }
      assert staged[..n] == staged;
      ExecuteBatch();
    }

    /** The body of addAll's loop up to addBatch, for embedding i: binds a new id, the content
        or "", and the vector normalised in the embedding's own array, and adds the merge to
        the batch. No other embedding's array changes. */
    method AddBatch(es: seq<Embedding>, i: nat)
      requires i < |es| && DistinctVectors(es)
      modifies this`pending, this`issued, es[i].vector
      ensures issued == old(issued) + 1
      ensures pending == old(pending)
        + [Staged(gen(old(issued)), es[i].content.GetOr(""), Vector(Normalized(old(es[i].vector[..]), ops)))]
      ensures es[i].vector[..] == Normalized(old(es[i].vector[..]), ops)
      ensures forall j :: 0 <= j < |es| && j != i ==> es[j].vector[..] == old(es[j].vector[..])
    {
      var e := es[i];
      var id := gen(issued);
      issued := issued + 1;
      var content := e.content.GetOr("");
      var vector := ToVector(e.vector, ops);
      pending := pending + [Staged(id, content, vector)];
      assert forall j :: 0 <= j < |es| && j != i ==> es[j].vector != e.vector;
    }

    /** add(embedding): addAll of the one-element list. */
    method Add(e: Embedding)
      requires Valid()
      modifies this`table, this`pending, this`flushes, this`issued, e.vector
      ensures Valid()
      ensures issued == old(issued) + 1
      ensures var staged := StagedRows(gen, old(issued), Contents([e]), old(Snapshot([e])), ops);
        && table == ApplyAll(old(table), staged)
        && flushes == old(flushes) + Batches(staged, BatchSize) + [[]]
      ensures e.vector[..] == Normalized(old(e.vector[..]), ops)
    {
      assert forall a :: a in Vectors([e]) ==> a == e.vector;
      AddAll([e]);
    }

    /** search(searchRequest): normalises the request's own vector, runs the query over the
        table read in `scan` order, and turns each result row, in result order, into an
        embedding with the row's content and a new array of the narrowed stored values. */
    method Search(request: SearchRequest, scan: seq<Id>) returns (matches: seq<Embedding>)
      requires request.vector != null
      requires Enumerates(scan, table)
      modifies request.vector
      ensures var query := Vector(Normalized(old(request.vector[..]), ops));
        var resultSet := Query(Entries(table, scan), ScoreAgainst(similarity, query),
                               request.minScore, request.maxResults);
        && |matches| == |resultSet|
        && forall i :: 0 <= i < |resultSet| ==>
             && matches[i].content == Some(resultSet[i].content)
             && matches[i].vector[..] == Narrowed(resultSet[i].embedding.values, ops)
             && fresh(matches[i].vector)
      ensures request.vector[..] == Normalized(old(request.vector[..]), ops)
    {
      var searchVector := ToVector(request.vector, ops);
      var resultSet := Query(Entries(table, scan), ScoreAgainst(similarity, searchVector),
                             request.minScore, request.maxResults);
      matches := ReadResultSet(resultSet);
    }

    /** The `while (rs.next())` loop of search: one embedding per result row, in result order,
        with the row's content and a new float array narrowed from the stored doubles. */
    method ReadResultSet(resultSet: seq<Row>) returns (matches: seq<Embedding>)
      ensures |matches| == |resultSet|
      ensures forall i :: 0 <= i < |resultSet| ==>
        && matches[i].content == Some(resultSet[i].content)
        && matches[i].vector[..] == Narrowed(resultSet[i].embedding.values, ops)
        && fresh(matches[i].vector)
    {
      matches := [];
      for i := 0 to |resultSet|
        invariant |matches| == i
        invariant forall k :: 0 <= k < i ==>
          && matches[k].content == Some(resultSet[k].content)
          && matches[k].vector[..] == Narrowed(resultSet[k].embedding.values, ops)
          && fresh(matches[k].vector)
      {
        var stored := NewVector(resultSet[i].embedding.values);
        var vector := ToFloatArray(stored, ops);
        assert vector[..] == Narrowed(resultSet[i].embedding.values, ops);
        matches := matches + [Embedding(vector, Some(resultSet[i].content))];
      }
    }
  }
}
