/**
 * Dense vectors and matrices over the reals, as the SiconosVector and
 * SimpleMatrix operations used by the integrators see them.  Matrices are
 * row-major sequences of rows.  IEEE rounding is not modelled.
 */
module LinAlg {
  import opened Wrappers

  type Vec = seq<real>
  type Mat = seq<seq<real>>

  /**
   * A dense solver as PLUForwardBackwardInPlace is used: it overwrites the
   * right-hand side by the answer, so the answer has the right-hand side's length.
   */
  type Solver = s: (Mat, Vec) -> Vec | forall W: Mat, b: Vec :: |s(W, b)| == |b|
    witness (W: Mat, b: Vec) => b

  /** m has `rows` rows, each of length `cols`. */
  predicate IsMat(m: Mat, rows: nat, cols: nat) {
    |m| == rows && forall i :: 0 <= i < rows ==> |m[i]| == cols
  }

  function Zeros(n: nat): (z: Vec)
    ensures |z| == n && forall i :: 0 <= i < n ==> z[i] == 0.0
  {
    seq(n, _ => 0.0)
  }

  function Add(a: Vec, b: Vec): (r: Vec)
    requires |a| == |b|
    ensures |r| == |a| && forall i :: 0 <= i < |a| ==> r[i] == a[i] + b[i]
  {
    seq(|a|, i requires 0 <= i < |a| => a[i] + b[i])
  }

  function Sub(a: Vec, b: Vec): (r: Vec)
    requires |a| == |b|
    ensures |r| == |a| && forall i :: 0 <= i < |a| ==> r[i] == a[i] - b[i]
  {
    seq(|a|, i requires 0 <= i < |a| => a[i] - b[i])
  }

  function Scale(k: real, a: Vec): (r: Vec)
    ensures |r| == |a| && forall i :: 0 <= i < |a| ==> r[i] == k * a[i]
  {
    seq(|a|, i requires 0 <= i < |a| => k * a[i])
  }

  /** y with its first |v| entries replaced by v. */
  function Overwrite(y: Vec, v: Vec): (r: Vec)
    requires |v| <= |y|
    ensures |r| == |y| && forall i :: 0 <= i < |y| ==> r[i] == if i < |v| then v[i] else y[i]
  {
    v + y[|v|..]
  }

  /** y with v added to its first |v| entries. */
  function Accumulate(y: Vec, v: Vec): (r: Vec)
    requires |v| <= |y|
    ensures |r| == |y| && forall i :: 0 <= i < |y| ==> r[i] == if i < |v| then y[i] + v[i] else y[i]
  {
    Add(y[..|v|], v) + y[|v|..]
  }

  /** Inner product, summed from the first component. */
  function Dot(a: Vec, b: Vec): real
    requires |a| == |b|
  {
    if |a| == 0 then 0.0 else a[0] * b[0] + Dot(a[1..], b[1..])
  }

  /** Matrix-vector product m·x. */
  function MatVec(m: Mat, x: Vec): (r: Vec)
    requires forall i :: 0 <= i < |m| ==> |m[i]| == |x|
    ensures |r| == |m| && forall i :: 0 <= i < |m| ==> r[i] == Dot(m[i], x)
  {
    seq(|m|, i requires 0 <= i < |m| => Dot(m[i], x))
  }

  /** Transposed product mᵀ·y of a matrix with `cols` columns, as a sum of scaled rows. */
  function TMatVec(m: Mat, y: Vec, cols: nat): (r: Vec)
    requires |m| == |y| && forall i :: 0 <= i < |m| ==> |m[i]| == cols
    ensures |r| == cols
  {
    if |m| == 0 then Zeros(cols) else Add(Scale(y[0], m[0]), TMatVec(m[1..], y[1..], cols))
  }

  function MatAdd(a: Mat, b: Mat): (r: Mat)
    requires |a| == |b| && forall i :: 0 <= i < |a| ==> |a[i]| == |b[i]|
    ensures |r| == |a|
    ensures forall i :: 0 <= i < |a| ==> |r[i]| == |a[i]| && forall j :: 0 <= j < |a[i]| ==> r[i][j] == a[i][j] + b[i][j]
  {
    seq(|a|, i requires 0 <= i < |a| => Add(a[i], b[i]))
  }

  function MatScale(k: real, a: Mat): (r: Mat)
    ensures |r| == |a|
    ensures forall i :: 0 <= i < |a| ==> |r[i]| == |a[i]| && forall j :: 0 <= j < |a[i]| ==> r[i][j] == k * a[i][j]
  {
    seq(|a|, i requires 0 <= i < |a| => Scale(k, a[i]))
  }

  /** Column j of a matrix whose rows all have more than j entries. */
  function Column(m: Mat, j: nat): (c: Vec)
    requires forall i :: 0 <= i < |m| ==> j < |m[i]|
    ensures |c| == |m| && forall i :: 0 <= i < |m| ==> c[i] == m[i][j]
  {
    seq(|m|, i requires 0 <= i < |m| => m[i][j])
  }

  /** Matrix product a·b, with b of `cols` columns. */
  function MatMul(a: Mat, b: Mat, cols: nat): (r: Mat)
    requires forall i :: 0 <= i < |a| ==> |a[i]| == |b|
    requires forall k :: 0 <= k < |b| ==> |b[k]| == cols
    ensures IsMat(r, |a|, cols)
    ensures forall i, j :: 0 <= i < |a| && 0 <= j < cols ==> r[i][j] == Dot(a[i], Column(b, j))
  {
    seq(|a|, i requires 0 <= i < |a| => seq(cols, j requires 0 <= j < cols => Dot(a[i], Column(b, j))))
  }

  /** The entry (i, j) of an optional matrix, an absent matrix counting as zero. */
  function EntryOr0(m: Option<Mat>, i: nat, j: nat): real
  {
    if m.Some? && i < |m.value| && j < |m.value[i]| then m.value[i][j] else 0.0
  }

  lemma {:induction false} DotAddLeft(a: Vec, b: Vec, x: Vec)
    requires |a| == |b| == |x|
    ensures Dot(Add(a, b), x) == Dot(a, x) + Dot(b, x)
  {
    if |a| > 0 {
      DotAddLeft(a[1..], b[1..], x[1..]);
      assert Add(a, b)[1..] == Add(a[1..], b[1..]);
    }
  }

  lemma {:induction false} DotScaleLeft(k: real, a: Vec, x: Vec)
    requires |a| == |x|
    ensures Dot(Scale(k, a), x) == k * Dot(a, x)
  {
    if |a| > 0 {
      var s := Scale(k, a);
      assert forall i :: 0 <= i < |a| - 1 ==> s[1..][i] == Scale(k, a[1..])[i];
      assert s[1..] == Scale(k, a[1..]);
      DotScaleLeft(k, a[1..], x[1..]);
      var a0, x0, d := a[0], x[0], Dot(a[1..], x[1..]);
      assert Dot(s, x) == (k * a0) * x0 + k * d;
      assert (k * a0) * x0 + k * d == k * (a0 * x0 + d);
    }
  }

  lemma {:induction false} DotZerosLeft(n: nat, x: Vec)
    requires |x| == n
    ensures Dot(Zeros(n), x) == 0.0
  {
    if n > 0 {
      assert Zeros(n)[1..] == Zeros(n - 1);
      DotZerosLeft(n - 1, x[1..]);
    }
  }

  lemma {:induction false} DotSymmetric(a: Vec, b: Vec)
    requires |a| == |b|
    ensures Dot(a, b) == Dot(b, a)
  {
    if |a| > 0 { DotSymmetric(a[1..], b[1..]); }
  }

  /** Duality of the product and the transposed product: ⟨y, m·x⟩ = ⟨mᵀ·y, x⟩. */
  lemma {:induction false} Duality(m: Mat, x: Vec, y: Vec)
    requires |m| == |y| && forall i :: 0 <= i < |m| ==> |m[i]| == |x|
    ensures Dot(y, MatVec(m, x)) == Dot(TMatVec(m, y, |x|), x)
  {
    if |m| == 0 {
      DotZerosLeft(|x|, x);
    } else {
      var rest := TMatVec(m[1..], y[1..], |x|);
      assert MatVec(m, x)[1..] == MatVec(m[1..], x);
      Duality(m[1..], x, y[1..]);
      DotAddLeft(Scale(y[0], m[0]), rest, x);
      DotScaleLeft(y[0], m[0], x);
    }
  }

  /** The product is linear: m·(a − b) = m·a − m·b. */
  lemma MatVecSub(m: Mat, a: Vec, b: Vec)
    requires |a| == |b| && forall i :: 0 <= i < |m| ==> |m[i]| == |a|
    ensures MatVec(m, Sub(a, b)) == Sub(MatVec(m, a), MatVec(m, b))
  {
    forall i | 0 <= i < |m| ensures Dot(m[i], Sub(a, b)) == Dot(m[i], a) - Dot(m[i], b) {
      DotSubRight(m[i], a, b);
    }
  }

  lemma {:induction false} DotSubRight(r: Vec, a: Vec, b: Vec)
    requires |r| == |a| == |b|
    ensures Dot(r, Sub(a, b)) == Dot(r, a) - Dot(r, b)
  {
    if |r| > 0 {
      assert Sub(a, b)[1..] == Sub(a[1..], b[1..]);
      DotSubRight(r[1..], a[1..], b[1..]);
    }
  }

  lemma {:induction false} DotAddRight(r: Vec, a: Vec, b: Vec)
    requires |r| == |a| == |b|
    ensures Dot(r, Add(a, b)) == Dot(r, a) + Dot(r, b)
  {
    if |r| > 0 {
      assert Add(a, b)[1..] == Add(a[1..], b[1..]);
      DotAddRight(r[1..], a[1..], b[1..]);
    }
  }
}
