/**
 * Export of a friction-contact problem to the fclib "local" format: the
 * header fields of the fclib problem, and the conversion of a dense
 * column-major matrix into fclib's compressed-row layout (row pointers p,
 * values x stored row by row).
 */
module FclibInterface {
  import opened Wrappers

  // ---------------------------------------------------------------------------
  // Index arithmetic of the two dense layouts
  // ---------------------------------------------------------------------------

  lemma MulMono(a: nat, b: nat, n: nat)
    requires a <= b
    ensures a * n <= b * n
  {
    assert b * n == a * n + (b - a) * n;
  }

  /** A row (or column) of n entries starting at i * n ends inside an m * n block. */
  lemma MulBelow(i: nat, m: nat, n: nat)
    requires i < m
    ensures i * n + n <= m * n
  {
    MulMono(i + 1, m, n);
    assert (i + 1) * n == i * n + n;
  }

  /** Offset of entry (i, j) of a rows × cols matrix stored row by row. */
  function RowMajor(i: nat, j: nat, rows: nat, cols: nat): (k: nat)
    requires i < rows && j < cols
    ensures k < rows * cols
  {
    MulBelow(i, rows, cols);
    i * cols + j
  }

  /** Offset of entry (i, j) of a rows × cols matrix stored column by column. */
  function ColMajor(i: nat, j: nat, rows: nat, cols: nat): (k: nat)
    requires i < rows && j < cols
    ensures k < rows * cols
  {
    MulBelow(j, cols, rows);
    j * rows + i
  }

  /** Every row-major offset is the offset of exactly the entry its quotient and remainder name. */
  lemma Decompose(k: nat, rows: nat, cols: nat)
    requires k < rows * cols
    ensures cols > 0 && k / cols < rows && k % cols < cols
    ensures RowMajor(k / cols, k % cols, rows, cols) == k
  {
    assert cols > 0;
    var q, r := k / cols, k % cols;
    assert k == q * cols + r;
  }

  /** The row-major offset of (i, j) gives back i and j. */
  lemma Compose(i: nat, j: nat, rows: nat, cols: nat)
    requires i < rows && j < cols
    ensures RowMajor(i, j, rows, cols) / cols == i && RowMajor(i, j, rows, cols) % cols == j
  {
    var k := RowMajor(i, j, rows, cols);
    Decompose(k, rows, cols);
    var q, r := k / cols, k % cols;
    assert q * cols + r == i * cols + j;
    if q > i {
      MulMono(i + 1, q, cols);
      assert false;
    } else if q < i {
      MulMono(q + 1, i, cols);
      assert false;
    }
  }

  /**
   * The values of a rows × cols matrix given column by column, laid out row
   * by row: entry k of the result is entry (k / cols, k % cols) of the matrix.
   */
  function ToRowMajor(a: seq<real>, rows: nat, cols: nat): (x: seq<real>)
    requires |a| == rows * cols
    ensures |x| == rows * cols
  {
    seq(rows * cols, (k: int) requires 0 <= k < rows * cols =>
      Decompose(k, rows, cols);
      a[ColMajor(k / cols, k % cols, rows, cols)])
  }

  /** The conversion moves entry (i, j) from its column-major to its row-major place. */
  lemma ToRowMajorAt(a: seq<real>, rows: nat, cols: nat, i: nat, j: nat)
    requires |a| == rows * cols && i < rows && j < cols
    ensures ToRowMajor(a, rows, cols)[RowMajor(i, j, rows, cols)] == a[ColMajor(i, j, rows, cols)]
  {
    Compose(i, j, rows, cols);
  }

  /**
   * A row-major rows × cols array is the column-major array of the transposed
   * cols × rows matrix, so converting it again restores the original.
   */
  lemma ToRowMajorRoundTrip(a: seq<real>, rows: nat, cols: nat)
    requires |a| == rows * cols
    ensures |a| == cols * rows
    ensures ToRowMajor(ToRowMajor(a, rows, cols), cols, rows) == a
  {
    var x := ToRowMajor(a, rows, cols);
    var y := ToRowMajor(x, cols, rows);
    forall k | 0 <= k < |a|
      ensures y[k] == a[k]
    {
      Decompose(k, cols, rows);
      var i, j := k / rows, k % rows;
      // y[k] is entry (i, j) of the cols × rows matrix x holds column by column
      assert y[k] == x[ColMajor(i, j, cols, rows)];
      assert ColMajor(i, j, cols, rows) == RowMajor(j, i, rows, cols);
      ToRowMajorAt(a, rows, cols, j, i);
      assert ColMajor(j, i, rows, cols) == k;
    }
  }

  // ---------------------------------------------------------------------------
  // Row pointers
  // ---------------------------------------------------------------------------

  /** The row pointers of a full rows × cols matrix stored row by row: row k starts at k * cols. */
  function RowPointers(rows: nat, cols: nat): (p: seq<int>)
    ensures |p| == rows + 1
  {
    seq(rows + 1, (k: int) => k * cols)
  }

  /**
   * The row pointers describe a complete compressed-row structure: the first
   * pointer is 0, each row holds exactly cols entries, and the last pointer is
   * the number of stored values.
   */
  lemma RowPointersComplete(rows: nat, cols: nat)
    ensures RowPointers(rows, cols)[0] == 0
    ensures RowPointers(rows, cols)[rows] == rows * cols
    ensures forall k :: 0 <= k < rows ==> RowPointers(rows, cols)[k + 1] - RowPointers(rows, cols)[k] == cols
  {
    var p := RowPointers(rows, cols);
    forall k | 0 <= k < rows
      ensures p[k + 1] - p[k] == cols
    {
      assert (k + 1) * cols == k * cols + cols;
    }
  }

  /** A store through a C array index: defined only inside the array. */
  function StoreAt(a: seq<int>, k: int, v: int): (r: Option<seq<int>>)
    ensures r.Some? <==> 0 <= k < |a|
    ensures r.Some? ==> r.value == a[k := v]
  {
    if 0 <= k < |a| then Some(a[k := v]) else None
  }

  /**
   * The row-pointer array as the dense branch writes it: m + 1 slots, the
   * first m set in the loop, the last one not yet written (`unset`), then the
   * final store to slot m + 1.
   */
  function DensePointersAsWritten(m: nat, cols: nat, unset: int): (r: Option<seq<int>>)
  {
    var p := RowPointers(m, cols)[m := unset];
    StoreAt(p, m + 1, (m + 1) * cols)
  }

  /** Whatever the matrix, the final store of the dense branch lands one past the end of p. */
  lemma DensePointersOutOfBounds(m: nat, cols: nat, unset: int)
    ensures DensePointersAsWritten(m, cols, unset).None?
  {
    assert |RowPointers(m, cols)[m := unset]| == m + 1;
  }

  // ---------------------------------------------------------------------------
  // The problem and the fclib structures
  // ---------------------------------------------------------------------------

  /** A sparse matrix in compressed form, as the sparse-block conversion produces it. */
  class SparseMatrix {
    var nzmax: int
    var p: array<int>
    var i: array<int>
    var x: array<real>

    constructor (nzmax: int, p: array<int>, i: array<int>, x: array<real>)
      ensures this.nzmax == nzmax && this.p == p && this.i == i && this.x == x
    {
      this.nzmax := nzmax;
      this.p := p;
      this.i := i;
      this.x := x;
    }
  }

  /** A Numerics matrix: storage 0 is dense column-major in matrix0, storage 1 sparse block. */
  class NumericsMatrix {
    var storageType: int
    var size0: nat
    var size1: nat
    var matrix0: array<real>

    constructor (storageType: int, size0: nat, size1: nat, matrix0: array<real>)
      ensures this.storageType == storageType && this.size0 == size0 && this.size1 == size1
      ensures this.matrix0 == matrix0
    {
      this.storageType := storageType;
      this.size0 := size0;
      this.size1 := size1;
      this.matrix0 := matrix0;
    }
  }

  class FrictionContactProblem {
    var dimension: int
    var M: NumericsMatrix
    var q: array<real>
    var mu: array<real>

    constructor (dimension: int, M: NumericsMatrix, q: array<real>, mu: array<real>)
      ensures this.dimension == dimension && this.M == M && this.q == q && this.mu == mu
    {
      this.dimension := dimension;
      this.M := M;
      this.q := q;
      this.mu := mu;
    }
  }

  datatype FclibInfo = FclibInfo(title: string, description: string, mathInfo: string)

  /** An fclib matrix; nz == -2 marks the compressed-row format. */
  class FclibMatrix {
    var m: int
    var n: int
    var nz: int
    var nzmax: int
    var p: array<int>
    var i: array<int>
    var x: array<real>

    constructor (m: int, n: int, nz: int, nzmax: int, p: array<int>, i: array<int>, x: array<real>)
      ensures this.m == m && this.n == n && this.nz == nz && this.nzmax == nzmax
      ensures this.p == p && this.i == i && this.x == x
    {
      this.m := m;
      this.n := n;
      this.nz := nz;
      this.nzmax := nzmax;
      this.p := p;
      this.i := i;
      this.x := x;
    }
  }

  /** An fclib local problem; absent pointers (s, R, V) are None. */
  class FclibLocal {
    var spacedim: int
    var mu: array<real>
    var q: array<real>
    var s: Option<array<real>>
    var info: FclibInfo
    var W: FclibMatrix
    var R: Option<FclibMatrix>
    var V: Option<FclibMatrix>

    constructor (spacedim: int, mu: array<real>, q: array<real>, info: FclibInfo, W: FclibMatrix)
      ensures this.spacedim == spacedim && this.mu == mu && this.q == q && this.info == info
      ensures this.W == W && this.s == None && this.R == None && this.V == None
    {
      this.spacedim := spacedim;
      this.mu := mu;
      this.q := q;
      this.s := None;
      this.info := info;
      this.W := W;
      this.R := None;
      this.V := None;
    }
  }

  datatype FclibError = UnknownStorageType

  // ---------------------------------------------------------------------------
  // The conversion
  // ---------------------------------------------------------------------------

  /**
   * The dense branch: allocates p with rows + 1 entries and i, x with
   * rows * cols entries, sets the row pointers and copies the column-major
   * values row by row.  The final pointer goes to p[rows] (see
   * DensePointersAsWritten for the store as the branch writes it); i is
   * allocated and left unwritten.
   */
  method FillDense(rows: nat, cols: nat, matrix0: array<real>) returns (p: array<int>, i: array<int>, x: array<real>)
    requires matrix0.Length == rows * cols
    ensures fresh(p) && fresh(i) && fresh(x)
    ensures i.Length == rows * cols
    ensures p[..] == RowPointers(rows, cols)
    ensures x[..] == ToRowMajor(matrix0[..], rows, cols)
  {
    var nzmax := rows * cols;
    p := new int[rows + 1];
    i := new int[nzmax];
    x := new real[nzmax];
    ghost var target := ToRowMajor(matrix0[..], rows, cols);
    var r := 0;
    while r < rows
      invariant 0 <= r <= rows
      invariant forall k :: 0 <= k < r ==> p[k] == k * cols
      invariant r * cols <= nzmax
      invariant forall k :: 0 <= k < r * cols ==> x[k] == target[k]
    {
      p[r] := r * cols;
      MulBelow(r, rows, cols);
      var c := 0;
      while c < cols
        invariant 0 <= c <= cols
        invariant forall k :: 0 <= k <= r ==> p[k] == k * cols
        invariant forall k :: 0 <= k < r * cols + c ==> x[k] == target[k]
      {
        ToRowMajorAt(matrix0[..], rows, cols, r, c);
        x[r * cols + c] := matrix0[c * rows + r];
        c := c + 1;
      }
      assert r * cols + cols == (r + 1) * cols;
      r := r + 1;
    }
    p[rows] := rows * cols;
  }

  /**
   * frictionContact_fclib_write up to the file write: the fclib problem it
   * hands to the writer.  mu and q are shared with the problem, not copied; an
   * unknown storage type is an error.  For sparse-block storage, `spmat` is the
   * result of the sparse-block conversion, whose arrays W takes over.
   */
  method ToFclibLocal(problem: FrictionContactProblem, title: string, description: string, mathInfo: string,
                      spmat: SparseMatrix)
    returns (r: Result<FclibLocal, FclibError>)
    requires problem.M.storageType == 0 ==> problem.M.matrix0.Length == problem.M.size0 * problem.M.size1
    ensures r.Failure? <==> problem.M.storageType != 0 && problem.M.storageType != 1
    ensures r.Success? ==> fresh(r.value) && fresh(r.value.W)
    ensures r.Success? ==> r.value.spacedim == problem.dimension && r.value.info == FclibInfo(title, description, mathInfo)
    ensures r.Success? ==> r.value.mu == problem.mu && r.value.q == problem.q
    ensures r.Success? ==> r.value.s == None && r.value.R == None && r.value.V == None
    ensures r.Success? ==> r.value.W.m == problem.M.size0 && r.value.W.n == problem.M.size1 && r.value.W.nz == -2
    ensures r.Success? && problem.M.storageType == 0 ==>
      var W := r.value.W;
      fresh(W.p) && fresh(W.i) && fresh(W.x)
      && W.nzmax == problem.M.size0 * problem.M.size1 && W.i.Length == W.nzmax
      && W.p[..] == RowPointers(problem.M.size0, problem.M.size1)
      && W.x[..] == ToRowMajor(problem.M.matrix0[..], problem.M.size0, problem.M.size1)
    ensures r.Success? && problem.M.storageType == 1 ==>
      var W := r.value.W;
      W.nzmax == spmat.nzmax && W.p == spmat.p && W.i == spmat.i && W.x == spmat.x
  {
    var M := problem.M;
    var info := FclibInfo(title, description, mathInfo);
    if M.storageType == 0 {
      var p, i, x := FillDense(M.size0, M.size1, M.matrix0);
      var W := new FclibMatrix(M.size0, M.size1, -2, M.size0 * M.size1, p, i, x);
      var local := new FclibLocal(problem.dimension, problem.mu, problem.q, info, W);
      return Success(local);
    } else if M.storageType == 1 {
      var W := new FclibMatrix(M.size0, M.size1, -2, spmat.nzmax, spmat.p, spmat.i, spmat.x);
      var local := new FclibLocal(problem.dimension, problem.mu, problem.q, info, W);
      return Success(local);
    } else {
      return Failure(UnknownStorageType);
    }
  }
}
