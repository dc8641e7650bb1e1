/**
 * The `Embedding` record passed between the embedding model and the vector store. Its source
 * file (com/example/model/Embedding.java) is not part of this model; its shape is the one its
 * uses show: `new Embedding(vector, content)`, `embedding.vector()`, `embedding.content()`.
 * The vector is the Java `float[]` itself, so that writes through it are visible to the caller.
 */
module Embeddings {
  import opened Common

  /** A float vector (floats as reals) and text content, which may be null. */
  datatype Embedding = Embedding(vector: array<real>, content: Option<string>)

  /** The arrays held by a list of embeddings. */
  ghost function Vectors(es: seq<Embedding>): set<array<real>> {
    set i | 0 <= i < |es| :: es[i].vector
  }

  /** No two embeddings of the list share a vector array. */
  ghost predicate DistinctVectors(es: seq<Embedding>) {
    forall i, j :: 0 <= i < j < |es| ==> es[i].vector != es[j].vector
  }

  /** Two lists without shared arrays, neither of which repeats one, join into one that does not. */
  lemma DistinctAppend(a: seq<Embedding>, b: seq<Embedding>)
    requires DistinctVectors(a) && DistinctVectors(b)
    requires forall i, j :: 0 <= i < |a| && 0 <= j < |b| ==> a[i].vector != b[j].vector
    ensures DistinctVectors(a + b)
  {
  }

  /** The current contents of every embedding's vector, in list order. */
  ghost function Snapshot(es: seq<Embedding>): (r: seq<seq<real>>)
    reads Vectors(es)
    ensures |r| == |es|
    ensures forall i :: 0 <= i < |es| ==> r[i] == es[i].vector[..]
  {
    seq(|es|, i requires 0 <= i < |es| reads Vectors(es) => es[i].vector[..])
  }

  /** The content of every embedding, in list order. */
  function Contents(es: seq<Embedding>): (r: seq<Option<string>>)
    ensures |r| == |es|
    ensures forall i :: 0 <= i < |es| ==> r[i] == es[i].content
  {
    seq(|es|, i requires 0 <= i < |es| => es[i].content)
  }

  /** A new array filled element by element from `values`, as the model's float[] loop and the
      driver's double[] both are. */
  method NewVector(values: seq<real>) returns (vector: array<real>)
    ensures fresh(vector)
    ensures vector[..] == values
  {
    vector := new real[|values|];
    for i := 0 to |values|
      invariant vector[..i] == values[..i]
    {
      vector[i] := values[i];
    }
    assert vector[..] == vector[..|values|];
  }
}
