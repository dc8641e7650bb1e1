/**
 * OracleDataAdapter: vector normalisation and the conversions to and from the database's
 * VECTOR type. Floats and doubles are reals; Math.sqrt and the (float) narrowing cast are
 * abstract functions supplied in a `FloatOps` value.
 */
module DataAdapter {

  /** The numeric primitives the adapter uses without the model computing them. */
  datatype FloatOps = FloatOps(sqrt: real -> real, toFloat: real -> real)

  /** An oracle.sql.VECTOR built by VECTOR.ofFloat64Values: the values it carries. */
  datatype Vector = Vector(values: seq<real>)

  /** Sum of squares, accumulated left to right as the source's first loop does. */
  function SquaredSum(s: seq<real>): real {
    if s == [] then 0.0 else SquaredSum(s[..|s| - 1]) + s[|s| - 1] * s[|s| - 1]
  }

  /** `(float) Math.sqrt(squaredSum)`. */
  function Magnitude(s: seq<real>, ops: FloatOps): real {
    ops.toFloat(ops.sqrt(SquaredSum(s)))
  }

  /** Every element multiplied by `c`. */
  function Scale(s: seq<real>, c: real): (r: seq<real>)
    ensures |r| == |s|
  {
    seq(|s|, i requires 0 <= i < |s| => s[i] * c)
  }

  /** What `normalize` leaves in the array: scaled by 1/magnitude when the magnitude is
      positive, untouched otherwise. The length is kept and a zero element stays zero. */
  function Normalized(s: seq<real>, ops: FloatOps): (r: seq<real>)
    ensures |r| == |s|
  {
    var m := Magnitude(s, ops);
    if m > 0.0 then Scale(s, 1.0 / m) else s
  }

  /** A square root that is exact on non-negative arguments and a narrowing that loses
      nothing: the conditions under which the source's intent can be stated exactly. */
  ghost predicate Exact(ops: FloatOps) {
    && (forall x :: x >= 0.0 ==> ops.sqrt(x) >= 0.0 && ops.sqrt(x) * ops.sqrt(x) == x)
    && (forall x :: ops.toFloat(x) == x)
  }

  /** normalize(float[] v): scales v in place and returns the same array. */
  method Normalize(v: array<real>, ops: FloatOps) returns (r: array<real>)
    modifies v
    ensures r == v
    ensures v[..] == Normalized(old(v[..]), ops)
  {
    var squaredSum := 0.0;
    for i := 0 to v.Length
      invariant v[..] == old(v[..])
      invariant squaredSum == SquaredSum(v[..i])
    {
      SquaredSumStep(v[..], i);
      squaredSum := squaredSum + v[i] * v[i];
    }
    assert v[..v.Length] == v[..];
    assert squaredSum == SquaredSum(old(v[..]));
    var magnitude := ops.toFloat(ops.sqrt(squaredSum));
    if magnitude > 0.0 {
      var multiplier := 1.0 / magnitude;
      for i := 0 to v.Length
        invariant forall k :: 0 <= k < i ==> v[k] == old(v[k]) * multiplier
        invariant forall k :: i <= k < v.Length ==> v[k] == old(v[k])
      {
        v[i] := v[i] * multiplier;
      }
      assert forall k :: 0 <= k < v.Length ==> v[..][k] == Scale(old(v[..]), multiplier)[k];
      assert v[..] == Scale(old(v[..]), multiplier);
    }
    r := v;
  }

  /** toVECTOR(float[] vector): normalises the caller's array in place, then encodes it. */
  method ToVector(v: array<real>, ops: FloatOps) returns (enc: Vector)
    modifies v
    ensures v[..] == Normalized(old(v[..]), ops)
    ensures enc == Vector(Normalized(old(v[..]), ops))
  {
    var normalized := Normalize(v, ops);
    enc := Vector(normalized[..]);
  }

  /** toFloatArray(double[] vector): a new array, element i narrowed from element i. */
  method ToFloatArray(v: array<real>, ops: FloatOps) returns (r: array<real>)
    ensures fresh(r)
    ensures r.Length == v.Length
    ensures forall i :: 0 <= i < v.Length ==> r[i] == ops.toFloat(v[i])
  {
    r := new real[v.Length];
    for i := 0 to v.Length
      invariant forall k :: 0 <= k < i ==> r[k] == ops.toFloat(v[k])
    {
      r[i] := ops.toFloat(v[i]);
    }
  }

  // Properties of the normalisation itself.

  /** Normalisation keeps the length and scales every element by one common factor, which
      is 1/magnitude when it scales at all. */
  lemma NormalizedIsUniformScaling(s: seq<real>, ops: FloatOps)
    ensures |Normalized(s, ops)| == |s|
    ensures Magnitude(s, ops) > 0.0 ==>
      forall i :: 0 <= i < |s| ==> Normalized(s, ops)[i] == s[i] * (1.0 / Magnitude(s, ops))
    ensures Magnitude(s, ops) <= 0.0 ==> Normalized(s, ops) == s
  {
  }

  /** The zero vector comes back unchanged, whatever sqrt and the narrowing do. */
  lemma NormalizedZero(s: seq<real>, ops: FloatOps)
    requires forall i :: 0 <= i < |s| ==> s[i] == 0.0
    ensures Normalized(s, ops) == s
  {
  }

  lemma {:induction false} SquaredSumNonneg(s: seq<real>)
    ensures SquaredSum(s) >= 0.0
    ensures SquaredSum(s) == 0.0 <==> forall i :: 0 <= i < |s| ==> s[i] == 0.0
    decreases |s|
  {
    if s != [] {
      var init, x := s[..|s| - 1], s[|s| - 1];
      SquaredSumNonneg(init);
      SquareNonneg(x);
      assert forall i :: 0 <= i < |init| ==> init[i] == s[i];
    }
  }

  lemma SquareNonneg(x: real)
    ensures x * x >= 0.0
    ensures x * x == 0.0 <==> x == 0.0
  {
    ProductZero(x, x);
  }

  lemma SquaredSumStep(s: seq<real>, i: nat)
    requires i < |s|
    ensures SquaredSum(s[..i + 1]) == SquaredSum(s[..i]) + s[i] * s[i]
  {
    assert s[..i + 1][..i] == s[..i];
  }

  lemma ScalePrefix(s: seq<real>, c: real, n: nat)
    requires n <= |s|
    ensures Scale(s, c)[..n] == Scale(s[..n], c)
  {
    assert forall i :: 0 <= i < n ==> Scale(s, c)[..n][i] == s[i] * c == Scale(s[..n], c)[i];
  }

  lemma SquareOfProduct(x: real, c: real)
    ensures (x * c) * (x * c) == c * c * (x * x)
  {
  }

  lemma ProductZero(a: real, b: real)
    ensures a * b == 0.0 ==> a == 0.0 || b == 0.0
  {
  }

  /** Scaling every element by c scales the sum of squares by c². */
  lemma {:induction false} SquaredSumScale(s: seq<real>, c: real)
    ensures SquaredSum(Scale(s, c)) == c * c * SquaredSum(s)
    decreases |s|
  {
    if s != [] {
      var init, x := s[..|s| - 1], s[|s| - 1];
      SquaredSumScale(init, c);
      ScalePrefix(s, c, |s| - 1);
      var a, y := SquaredSum(init), x * x;
      SquareOfProduct(x, c);
      assert SquaredSum(Scale(s, c)) == c * c * a + c * c * y;
    }
  }

  /** With exact arithmetic a vector with a non-zero element is normalised to unit length. */
  lemma NormalizedUnit(s: seq<real>, ops: FloatOps)
    requires Exact(ops)
    requires exists i :: 0 <= i < |s| && s[i] != 0.0
    ensures SquaredSum(Normalized(s, ops)) == 1.0
  {
    SquaredSumNonneg(s);
    var sum := SquaredSum(s);
    var m := Magnitude(s, ops);
    assert m == ops.sqrt(sum) && m * m == sum;
    SquareNonneg(m);
    SquaredSumScale(s, 1.0 / m);
    assert (1.0 / m) * (1.0 / m) * sum == 1.0;
  }

  /** With exact arithmetic normalising twice is the same as normalising once. */
  lemma NormalizedIdempotent(s: seq<real>, ops: FloatOps)
    requires Exact(ops)
    ensures Normalized(Normalized(s, ops), ops) == Normalized(s, ops)
  {
    var n := Normalized(s, ops);
    SquaredSumNonneg(s);
    if Magnitude(s, ops) > 0.0 {
      assert SquaredSum(s) != 0.0;
      NormalizedUnit(s, ops);
      var one := ops.sqrt(1.0);
      assert one >= 0.0 && one * one == 1.0;
      ProductZero(one - 1.0, one + 1.0);
      assert (one - 1.0) * (one + 1.0) == one * one - 1.0;
      assert Normalized(n, ops) == Scale(n, 1.0);
    }
  }
}
