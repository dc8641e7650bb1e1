/**
 * The chunking both write paths rely on: the embedding client cuts its input into requests of
 * at most 96 texts, and the vector store flushes its JDBC batch every 50 staged rows. Both are
 * proved against the one definition here, `Batches`.
 */
module Batching {
  import opened Common

  /** Consecutive chunks of `size` elements, in order; only the last may be shorter, and empty
      input has no chunk at all. */
  function Batches<T>(s: seq<T>, size: nat): (r: seq<seq<T>>)
    requires size > 0
    ensures (r == []) == (s == [])
    decreases |s|
  {
    if |s| == 0 then []
    else if |s| <= size then [s]
    else [s[..size]] + Batches(s[size..], size)
  }

  /** ceil(n / size), written as the source's flush count is: full chunks plus a remainder. */
  function BatchCount(n: nat, size: nat): nat
    requires size > 0
  {
    n / size + (if n % size != 0 then 1 else 0)
  }

  /** Concatenating the chunks gives back the input, in order. */
  lemma {:induction false} BatchesConcat<T>(s: seq<T>, size: nat)
    requires size > 0
    ensures Concat(Batches(s, size)) == s
    decreases |s|
  {
    if |s| == 0 {
    } else if |s| <= size {
      assert Concat([s]) == s + Concat([]);
    } else {
      BatchesConcat(s[size..], size);
      assert s == s[..size] + s[size..];
    }
  }

  /** Every chunk but the last holds exactly `size` elements; the last holds 1 to `size`. */
  lemma {:induction false} BatchesSizes<T>(s: seq<T>, size: nat)
    requires size > 0
    ensures forall i :: 0 <= i < |Batches(s, size)| - 1 ==> |Batches(s, size)[i]| == size
    ensures |Batches(s, size)| > 0 ==> 0 < |Batches(s, size)[|Batches(s, size)| - 1]| <= size
    decreases |s|
  {
    if |s| > size {
      BatchesSizes(s[size..], size);
      var rest := Batches(s[size..], size);
      assert Batches(s, size) == [s[..size]] + rest;
    }
  }

  /** There are ceil(n / size) chunks; in particular none for empty input. */
  lemma {:induction false} BatchesCount<T>(s: seq<T>, size: nat)
    requires size > 0
    ensures |Batches(s, size)| == BatchCount(|s|, size)
    ensures |Batches(s, size)| == 0 <==> |s| == 0
    decreases |s|
  {
    var n := |s|;
    if 0 < n <= size {
      BatchCountOne(n, size);
    } else if n > size {
      BatchesCount(s[size..], size);
      BatchCountStep(n, size);
    }
  }

  /** One to `size` elements make one chunk. */
  lemma BatchCountOne(n: nat, size: nat)
    requires 0 < n <= size
    ensures BatchCount(n, size) == 1
  {
    if n < size {
      DivMod(n, size, 0, n);
    } else {
      DivMod(n, size, 1, 0);
    }
  }

  /** Taking one full chunk off the front takes one off the count. */
  lemma BatchCountStep(n: nat, size: nat)
    requires 0 < size < n
    ensures BatchCount(n, size) == BatchCount(n - size, size) + 1
  {
    var q, r := (n - size) / size, (n - size) % size;
    DivMod(n - size, size, q, r);
    DivMod(n, size, q + 1, r);
  }

  /** Euclidean division is determined by quotient and remainder. */
  lemma DivMod(n: nat, size: nat, q: int, r: int)
    requires size > 0 && 0 <= r < size && n == q * size + r
    ensures n / size == q && n % size == r
  {
    var d := n / size - q;
    assert d * size == r - n % size;
    MulBounds(d, size);
  }

  lemma MulBounds(d: int, size: nat)
    ensures d >= 1 ==> d * size >= size
    ensures d <= -1 ==> d * size <= -(size as int)
  {
    if d >= 1 {
      MulNonneg(d - 1, size);
      assert d * size == (d - 1) * size + size;
    } else if d <= -1 {
      MulNonneg(-d - 1, size);
      assert d * size == -((-d - 1) * size) - size;
    }
  }

  lemma {:induction false} MulNonneg(a: nat, b: nat)
    ensures a * b >= 0
  {
    if a > 0 {
      MulNonneg(a - 1, b);
      assert a * b == (a - 1) * b + b;
    }
  }

  /** Chunking a prefix whose length is a multiple of `size` is independent of what follows. */
  lemma {:induction false} BatchesAppend<T>(a: seq<T>, b: seq<T>, size: nat, m: nat)
    requires size > 0 && |a| == m * size
    ensures Batches(a + b, size) == Batches(a, size) + Batches(b, size)
    decreases m
  {
    if m == 0 {
      assert a + b == b;
    } else if |a + b| <= size {
      assert |a| == size && b == [];
      assert a + b == a;
    } else {
      assert (a + b)[..size] == a[..size];
      assert (a + b)[size..] == a[size..] + b;
      BatchesAppend(a[size..], b, size, m - 1);
      if |a| == size {
        assert a[size..] == [];
        assert a[size..] + b == b;
      }
    }
  }

  /** One more chunk [d, e) after a prefix of whole chunks: how both loops grow their output. */
  lemma BatchesExtend<T>(s: seq<T>, size: nat, d: nat, e: nat)
    requires size > 0 && d % size == 0 && d < e <= |s| && e - d <= size
    ensures Batches(s[..d], size) + [s[d..e]] == Batches(s[..e], size)
  {
    DivMod(d, size, d / size, 0);
    BatchesAppend(s[..d], s[d..e], size, d / size);
    assert s[..d] + s[d..e] == s[..e];
  }
}
