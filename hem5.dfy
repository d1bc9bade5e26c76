/**
 * Hem5: the event-driven integrator built on Lubich's HEM5 half-explicit
 * solver for constrained mechanical systems.  Positions, velocities and
 * accelerations of the Lagrangian systems are block vectors; HEM5 calls back
 * fprob for the mass matrix, the forces and q̇ = v; after a successful call
 * the multipliers go back to the active interactions.
 */
module Hem5 {
  import opened Wrappers
  import opened LinAlg
  import opened BlockVectors
  import opened IntegratorCommon
  import M = MoreauJeanGOSI

  // ---------------------------------------------------------------------------
  // Slots of the integer parameter array (intData)
  // ---------------------------------------------------------------------------

  const Nq := 0
  const Nv := 1
  const Nu := 2
  const Nl := 3
  const Itol := 4
  const Iout := 5
  const Lwk := 6
  const Liwk := 7
  const ModeSlot := 8

  /** Full linear algebra with DEC: the only mode the integrator selects. */
  const DenseMode := 0

  /** Slots of the real work space: WK(1) the rounding unit, WK(6) the maximal step size. */
  const Uround := 0
  const MaxStepSize := 5

  /** Slots of the integer work space: IWK(11) the maximal number of steps, IWK(12) the projection switch. */
  const MaxSteps := 10
  const ProjectionSwitch := 11

  datatype Hem5Error =
    | SparseModeNotImplemented    // updateIntData with MODE > 3
    | OnlyLagrangian              // a system that is not Lagrangian where only those are allowed
    | NewtonEulerNotImplemented   // a Newton–Euler system in the force or q̇ loop
    | OnlyMechanical              // another kind of system in the q̇ loop
    | IntegrationFailed(idid: int) // HEM5 returned a negative idid

  // ---------------------------------------------------------------------------
  // Work space sizes
  // ---------------------------------------------------------------------------

  datatype WorkSizes = WorkSizes(lwk: int, liwk: int)

  function Max(a: int, b: int): int {
    if a < b then b else a
  }

  /**
   * updateIntData's sizes of the real (LWK) and integer (LIWK) work spaces
   * for nq positions, nv velocities, nu external states and nl constraints;
   * the sparse modes (MODE > 3) are refused.
   */
  function WorkSpace(nq: nat, nv: nat, nu: nat, nl: nat, mode: int): (r: Result<WorkSizes, Hem5Error>)
    ensures r.Failure? <==> mode > 3
    ensures r.Failure? ==> r.error == SparseModeNotImplemented
  {
    if mode > 3 then Failure(SparseModeNotImplemented)
    else
      var nmrc := nv;
      var nblk := 1;
      var ll := 8 * (nv * nl) + 4 * (nv + nl) * (nv + nl);
      var ldg := nl;
      var ldf := nl;
      var nza := ldg + Max(ldg, ldf) + nmrc * nmrc * nblk;
      var imem := 0;
      var ixs := 0;
      Success(WorkSizes(
        19 + 27 * nq + 28 * nv + 27 * nu + 5 * (nv + nl) + 4 * nza + 2 * ixs + ll,
        2 * (95 + 2 * (nv + nl) + 2 * imem + 12 * ldg + 4 * ldf + 4 * nza)))
  }

  /**
   * With dense algebra and no external states the sizes in closed form:
   * LWK = 19 + 27·nq + 33·nv + 13·nl + 4·nv² + 8·nv·nl + 4·(nv + nl)² and
   * LIWK = 190 + 4·nv + 52·nl + 8·nv²; both leave room for every slot the
   * integrator writes (WK(1..8), IWK(11..16)).
   */
  lemma DenseWorkSpace(nq: nat, nv: nat, nl: nat)
    ensures WorkSpace(nq, nv, 0, nl, DenseMode).Success?
    ensures WorkSpace(nq, nv, 0, nl, DenseMode).value ==
      WorkSizes(19 + 27 * nq + 33 * nv + 13 * nl + 4 * (nv * nv) + 8 * (nv * nl) + 4 * ((nv + nl) * (nv + nl)),
                190 + 4 * nv + 52 * nl + 8 * (nv * nv))
    ensures WorkSpace(nq, nv, 0, nl, DenseMode).value.lwk >= 19
    ensures WorkSpace(nq, nv, 0, nl, DenseMode).value.liwk >= 190
  {
  }

  // ---------------------------------------------------------------------------
  // setMaxNstep: the slot it writes
  // ---------------------------------------------------------------------------

  /** setMaxNstep as written: the value goes to iwork[11], which is IWK(12). */
  function MaxNstepAsWritten(iwork: seq<int>, n: int): (r: seq<int>)
    requires |iwork| > ProjectionSwitch
    ensures |r| == |iwork|
  {
    iwork[11 := n]
  }

  /** As written, the maximal number of steps is never set and the projection switch receives it instead. */
  lemma MaxNstepAsWrittenHitsProjectionSwitch(iwork: seq<int>, n: int)
    requires |iwork| > ProjectionSwitch
    ensures MaxNstepAsWritten(iwork, n)[MaxSteps] == iwork[MaxSteps]
    ensures MaxNstepAsWritten(iwork, n)[ProjectionSwitch] == n
  {
  }

  /** setMaxNstep as intended: IWK(11), the maximal number of allowed steps. */
  function MaxNstep(iwork: seq<int>, n: int): (r: seq<int>)
    requires |iwork| > ProjectionSwitch
    ensures |r| == |iwork|
  {
    iwork[MaxSteps := n]
  }

  lemma MaxNstepSetsMaxSteps(iwork: seq<int>, n: int)
    requires |iwork| > ProjectionSwitch
    ensures MaxNstep(iwork, n)[MaxSteps] == n
    ensures MaxNstep(iwork, n)[ProjectionSwitch] == iwork[ProjectionSwitch]
    ensures forall i :: 0 <= i < |iwork| && i != MaxSteps ==> MaxNstep(iwork, n)[i] == iwork[i]
  {
  }

  // ---------------------------------------------------------------------------
  // Systems and interactions
  // ---------------------------------------------------------------------------

  /** A Lagrangian system as Hem5 sees it: its kind, size, mass matrix and state vectors. */
  datatype Hem5System = Hem5System(
    kind: M.DsType, dim: nat, mass: Mat,
    q: array<real>, velocity: array<real>, acceleration: array<real>, forces: array<real>)

  /** An active interaction (index set 2) and its multiplier vector at level 2. */
  datatype Interaction = Interaction(lambda2: array<real>)

  predicate IsLagrangian(kind: M.DsType) {
    kind == M.LagrangianDS || kind == M.LagrangianLinearTIDS
  }

  /** Where the loops over the systems stop: the first system that is not Lagrangian, or the end. */
  function FirstNonLagrangian(systems: seq<Hem5System>): (k: nat)
    ensures k <= |systems|
    ensures forall j :: 0 <= j < k ==> IsLagrangian(systems[j].kind)
    ensures k < |systems| ==> !IsLagrangian(systems[k].kind)
  {
    if |systems| == 0 || !IsLagrangian(systems[0].kind) then 0
    else 1 + FirstNonLagrangian(systems[1..])
  }

  /** A loop that stops at k has found the first non-Lagrangian system. */
  lemma FirstNonLagrangianIs(systems: seq<Hem5System>, k: nat)
    requires k <= |systems| && forall j :: 0 <= j < k ==> IsLagrangian(systems[j].kind)
    requires k < |systems| ==> !IsLagrangian(systems[k].kind)
    ensures FirstNonLagrangian(systems) == k
  {
  }

  /** A Lagrangian system at k, with none before it, puts the first non-Lagrangian one past k. */
  lemma FirstNonLagrangianPast(systems: seq<Hem5System>, k: nat)
    requires k <= FirstNonLagrangian(systems) && k < |systems| && IsLagrangian(systems[k].kind)
    ensures k + 1 <= FirstNonLagrangian(systems)
  {
  }

  /** The systems' sizes added up: where the next system starts in q, v and AM. */
  function DimSum(systems: seq<Hem5System>): nat
  {
    if |systems| == 0 then 0 else DimSum(systems[..|systems| - 1]) + systems[|systems| - 1].dim
  }

  lemma DimSumStep(systems: seq<Hem5System>, k: nat)
    requires k < |systems|
    ensures DimSum(systems[..k + 1]) == DimSum(systems[..k]) + systems[k].dim
  {
    assert systems[..k + 1][..k] == systems[..k];
  }

  lemma {:induction false} DimSumMono(systems: seq<Hem5System>, i: nat, j: nat)
    requires i <= j <= |systems|
    ensures DimSum(systems[..i]) <= DimSum(systems[..j])
    decreases j - i
  {
    if i < j {
      DimSumStep(systems, i);
      DimSumMono(systems, i + 1, j);
    }
  }

  /** Every system's mass matrix is square of its size, and all fit in NV. */
  predicate MassesFit(systems: seq<Hem5System>, nv: nat) {
    DimSum(systems) <= nv && forall k :: 0 <= k < |systems| ==> IsMat(systems[k].mass, systems[k].dim, systems[k].dim)
  }

  /** numberOfConstraints: one constraint per interaction of index set 2. */
  method NumberOfConstraints(indexSet2: seq<Interaction>) returns (n: nat)
    ensures n == |indexSet2|
  {
    n := 0;
    var k := 0;
    while k < |indexSet2|
      invariant 0 <= k <= |indexSet2| && n == k
    {
      n := n + 1;
      k := k + 1;
    }
  }

  // ---------------------------------------------------------------------------
  // The IFCN dispatch of fprob
  // ---------------------------------------------------------------------------

  /** What one fprob call computes, by its IFCN argument. */
  datatype FprobTasks = FprobTasks(
    mass: bool, forces: bool, constraints: bool, constraintJacobian: bool,
    constraintHessian: bool, constraintTimeDerivative: bool, udot: bool, qdot: bool)

  function Tasks(ifcn: int): (t: FprobTasks)
  {
    FprobTasks(ifcn == 1 || ifcn >= 7, ifcn == 1 || ifcn == 5 || ifcn == 7 || ifcn == 8, ifcn == 4,
      ifcn == 6 || ifcn >= 10, ifcn == 5 || ifcn == 7, ifcn == 3 || ifcn == 6 || ifcn >= 10,
      ifcn == 0, ifcn == 1 || ifcn == 2 || ifcn == 10)
  }

  /** Only IFCN = 1 asks for the mass, the forces and q̇ together; IFCN = 0 only for u̇. */
  lemma TasksOfFullEvaluation()
    ensures Tasks(1).mass && Tasks(1).forces && Tasks(1).qdot && !Tasks(1).constraintJacobian
    ensures forall ifcn :: Tasks(ifcn).mass && Tasks(ifcn).forces && Tasks(ifcn).qdot ==> ifcn == 1
    ensures Tasks(0) == FprobTasks(false, false, false, false, false, false, true, false)
  {
  }

  // ---------------------------------------------------------------------------
  // The mass matrix AM, column-major with leading dimension NV
  // ---------------------------------------------------------------------------

  function RowOf(idx: nat, nv: nat): nat
    requires nv > 0
  {
    idx % nv
  }

  function ColOf(idx: nat, nv: nat): nat
    requires nv > 0
  {
    idx / nv
  }

  lemma MulAtLeast(nv: int, d: int)
    requires nv > 0 && d >= 1
    ensures nv * d >= nv
  {
    assert nv * d == nv + nv * (d - 1);
    if d > 1 {
      MulAtLeast(nv, d - 1);
    }
  }

  /** Entry (i, j) of an NV-row column-major matrix sits at i + j·NV. */
  lemma ColumnMajor(i: nat, j: nat, nv: nat)
    requires i < nv
    ensures RowOf(i + j * nv, nv) == i && ColOf(i + j * nv, nv) == j
  {
    var idx := i + j * nv;
    var q := idx / nv;
    var r := idx % nv;
    assert idx == nv * q + r;
    var d := q - j;
    assert nv * d == i - r by {
      assert nv * q - nv * j == nv * (q - j);
    }
    if d >= 1 {
      MulAtLeast(nv, d);
    } else if d <= -1 {
      MulAtLeast(nv, -d);
    }
    assert d == 0;
  }

  lemma Recompose(idx: nat, nv: nat)
    requires nv > 0
    ensures idx == RowOf(idx, nv) + ColOf(idx, nv) * nv && RowOf(idx, nv) < nv
  {
  }

  /** An entry of an NV × NV matrix lies inside its NV·NV array. */
  lemma IndexInSquare(i: nat, j: nat, nv: nat)
    requires i < nv && j < nv
    ensures i + j * nv < nv * nv
  {
    assert j * nv <= (nv - 1) * nv by {
      assert (nv - 1) * nv - j * nv == (nv - 1 - j) * nv;
    }
  }

  /**
   * AM with the d × d block at (off, off) filled from m for its first ii
   * rows, and for row ii up to column jj: the state of the two nested loops.
   */
  function Filled(am: seq<real>, m: Mat, off: nat, d: nat, nv: nat, ii: nat, jj: nat): (r: seq<real>)
    requires IsMat(m, d, d) && off + d <= nv && ii <= d && jj <= d && (ii < d || jj == 0)
    ensures |r| == |am|
  {
    if nv == 0 then am
    else
      seq(|am|, idx requires 0 <= idx < |am| =>
        var row := RowOf(idx, nv);
        var col := ColOf(idx, nv);
        if Covered(row, col, off, d, ii, jj) then m[row - off][col - off] else am[idx])
  }

  /** Cell (row, col) of the block at (off, off) is written once the loops reach row ii, column jj. */
  predicate Covered(row: nat, col: nat, off: nat, d: nat, ii: nat, jj: nat) {
    off <= row && off <= col < off + d && (row < off + ii || (row == off + ii && col < off + jj))
  }

  /** AM with the d × d block at (off, off) holding m. */
  function WriteBlock(am: seq<real>, m: Mat, off: nat, d: nat, nv: nat): (r: seq<real>)
    requires IsMat(m, d, d) && off + d <= nv
    ensures |r| == |am|
  {
    Filled(am, m, off, d, nv, d, 0)
  }

  /** Writing m[ii][jj] at the cell w of row off + ii, column off + jj advances the inner loop. */
  lemma FilledStep(am: seq<real>, m: Mat, off: nat, d: nat, nv: nat, ii: nat, jj: nat, w: nat)
    requires IsMat(m, d, d) && off + d <= nv && ii < d && jj < d && w < |am|
    requires RowOf(w, nv) == off + ii && ColOf(w, nv) == off + jj
    ensures Filled(am, m, off, d, nv, ii, jj)[w := m[ii][jj]] == Filled(am, m, off, d, nv, ii, jj + 1)
  {
    var a := Filled(am, m, off, d, nv, ii, jj)[w := m[ii][jj]];
    var b := Filled(am, m, off, d, nv, ii, jj + 1);
    forall idx | 0 <= idx < |am|
      ensures a[idx] == b[idx]
    {
      if idx != w && RowOf(idx, nv) == off + ii && ColOf(idx, nv) == off + jj {
        SameCell(idx, w, nv);
      }
    }
  }

  /** Two indices with the same row and column are the same index. */
  lemma SameCell(x: nat, y: nat, nv: nat)
    requires nv > 0 && RowOf(x, nv) == RowOf(y, nv) && ColOf(x, nv) == ColOf(y, nv)
    ensures x == y
  {
    Recompose(x, nv);
    Recompose(y, nv);
  }

  lemma FilledNextRow(am: seq<real>, m: Mat, off: nat, d: nat, nv: nat, ii: nat)
    requires IsMat(m, d, d) && off + d <= nv && ii < d
    ensures Filled(am, m, off, d, nv, ii, d) == Filled(am, m, off, d, nv, ii + 1, 0)
  {
  }

  lemma FilledNone(am: seq<real>, m: Mat, off: nat, d: nat, nv: nat)
    requires IsMat(m, d, d) && off + d <= nv
    ensures Filled(am, m, off, d, nv, 0, 0) == am
  {
  }

  /** The mass matrices of the systems, one diagonal block each, in system order. */
  function MassMatrix(am: seq<real>, systems: seq<Hem5System>, nv: nat): (r: seq<real>)
    requires MassesFit(systems, nv)
    ensures |r| == |am|
  {
    if |systems| == 0 then am
    else
      var init := systems[..|systems| - 1];
      var last := systems[|systems| - 1];
      assert forall k :: 0 <= k < |init| ==> init[k] == systems[k];
      WriteBlock(MassMatrix(am, init, nv), last.mass, DimSum(init), last.dim, nv)
  }

  lemma MassesFitPrefix(systems: seq<Hem5System>, nv: nat, k: nat)
    requires MassesFit(systems, nv) && k <= |systems|
    ensures MassesFit(systems[..k], nv)
  {
    DimSumMono(systems, k, |systems|);
    assert systems[..|systems|] == systems;
  }

  /** Where system k's block starts. */
  function Offset(systems: seq<Hem5System>, k: nat): nat
    requires k <= |systems|
  {
    DimSum(systems[..k])
  }

  /** The position of entry (i, j) of system k's block in AM. */
  function BlockIndex(systems: seq<Hem5System>, nv: nat, k: nat, i: nat, j: nat): nat
    requires k <= |systems|
  {
    (Offset(systems, k) + i) + (Offset(systems, k) + j) * nv
  }

  /** The cell of row off + i, column off + j of a written block holds m[i][j]. */
  lemma WriteBlockAt(am: seq<real>, m: Mat, off: nat, d: nat, nv: nat, i: nat, j: nat)
    requires IsMat(m, d, d) && off + d <= nv && |am| == nv * nv && i < d && j < d
    ensures (off + i) + (off + j) * nv < nv * nv
    ensures WriteBlock(am, m, off, d, nv)[(off + i) + (off + j) * nv] == m[i][j]
  {
    IndexInSquare(off + i, off + j, nv);
    ColumnMajor(off + i, off + j, nv);
  }

  /** Writing a block leaves the rows above it untouched. */
  lemma WriteBlockAbove(am: seq<real>, m: Mat, off: nat, d: nat, nv: nat, idx: nat)
    requires IsMat(m, d, d) && off + d <= nv && nv > 0 && idx < |am| && RowOf(idx, nv) < off
    ensures WriteBlock(am, m, off, d, nv)[idx] == am[idx]
  {
  }

  /** The last system's block, at off, holds its mass matrix. */
  lemma MassMatrixLast(am: seq<real>, systems: seq<Hem5System>, nv: nat, off: nat, i: nat, j: nat, w: nat)
    requires MassesFit(systems, nv) && |am| == nv * nv && |systems| > 0
    requires off == DimSum(systems[..|systems| - 1])
    requires i < systems[|systems| - 1].dim && j < systems[|systems| - 1].dim
    requires w == (off + i) + (off + j) * nv && w < |am|
    ensures MassMatrix(am, systems, nv)[w] == systems[|systems| - 1].mass[i][j]
  {
    var init := systems[..|systems| - 1];
    var last := systems[|systems| - 1];
    MassesFitPrefix(systems, nv, |systems| - 1);
    WriteBlockAt(MassMatrix(am, init, nv), last.mass, off, last.dim, nv, i, j);
  }

  /** Rows above the last system's block hold what the earlier systems wrote. */
  lemma MassMatrixPeel(am: seq<real>, systems: seq<Hem5System>, nv: nat, idx: nat)
    requires MassesFit(systems, nv) && |systems| > 0 && nv > 0 && idx < |am|
    requires RowOf(idx, nv) < DimSum(systems[..|systems| - 1])
    ensures MassesFit(systems[..|systems| - 1], nv)
    ensures MassMatrix(am, systems, nv)[idx] == MassMatrix(am, systems[..|systems| - 1], nv)[idx]
  {
    var init := systems[..|systems| - 1];
    var last := systems[|systems| - 1];
    MassesFitPrefix(systems, nv, |systems| - 1);
    WriteBlockAbove(MassMatrix(am, init, nv), last.mass, DimSum(init), last.dim, nv, idx);
  }

  /** Entry (i, j) of system k's block holds its mass M(i, j), inside AM. */
  lemma {:induction false} MassMatrixEntry(am: seq<real>, systems: seq<Hem5System>, nv: nat, k: nat, i: nat, j: nat)
    requires MassesFit(systems, nv) && |am| == nv * nv
    requires k < |systems| && i < systems[k].dim && j < systems[k].dim
    ensures Offset(systems, k) + systems[k].dim <= nv
    ensures BlockIndex(systems, nv, k, i, j) < nv * nv
    ensures MassMatrix(am, systems, nv)[BlockIndex(systems, nv, k, i, j)] == systems[k].mass[i][j]
    decreases |systems|, 1
  {
    var n := |systems|;
    var off := Offset(systems, k);
    DimSumStep(systems, k);
    DimSumMono(systems, k + 1, n);
    assert systems[..n] == systems;
    IndexInSquare(off + i, off + j, nv);
    if k == n - 1 {
      MassMatrixLast(am, systems, nv, off, i, j, BlockIndex(systems, nv, k, i, j));
    } else {
      MassMatrixEarlier(am, systems, nv, k, i, j);
    }
  }

  /** The induction step of MassMatrixEntry for a system before the last one. */
  lemma {:induction false} MassMatrixEarlier(am: seq<real>, systems: seq<Hem5System>, nv: nat, k: nat, i: nat, j: nat)
    requires MassesFit(systems, nv) && |am| == nv * nv
    requires k < |systems| - 1 && i < systems[k].dim && j < systems[k].dim
    ensures BlockIndex(systems, nv, k, i, j) < |am|
    ensures MassMatrix(am, systems, nv)[BlockIndex(systems, nv, k, i, j)] == systems[k].mass[i][j]
    decreases |systems|, 0
  {
    var n := |systems|;
    var init := systems[..n - 1];
    assert init[..k] == systems[..k];
    assert init[k] == systems[k];
    MassesFitPrefix(systems, nv, n - 1);
    MassMatrixEntry(am, init, nv, k, i, j);
    var off := Offset(systems, k);
    var idx := BlockIndex(systems, nv, k, i, j);
    assert BlockIndex(init, nv, k, i, j) == idx;
    DimSumStep(systems, k);
    DimSumMono(systems, k + 1, n - 1);
    ColumnMajor(off + i, off + j, nv);
    MassMatrixPeel(am, systems, nv, idx);
  }

  /** Entry idx lies in the d × d block at (off, off). */
  predicate InBlock(idx: nat, off: nat, d: nat, nv: nat)
    requires nv > 0
  {
    off <= RowOf(idx, nv) < off + d && off <= ColOf(idx, nv) < off + d
  }

  /** Entries outside every system's block keep what AM held. */
  lemma {:induction false} MassMatrixOffBlocks(am: seq<real>, systems: seq<Hem5System>, nv: nat, idx: nat)
    requires MassesFit(systems, nv) && nv > 0 && idx < |am|
    requires forall k :: 0 <= k < |systems| ==> !InBlock(idx, Offset(systems, k), systems[k].dim, nv)
    ensures MassMatrix(am, systems, nv)[idx] == am[idx]
  {
    var n := |systems|;
    if n > 0 {
      var init := systems[..n - 1];
      assert !InBlock(idx, Offset(systems, n - 1), systems[n - 1].dim, nv);
      forall k | 0 <= k < |init|
        ensures !InBlock(idx, Offset(init, k), init[k].dim, nv)
      {
        assert init[..k] == systems[..k];
        assert !InBlock(idx, Offset(systems, k), systems[k].dim, nv);
      }
      MassesFitPrefix(systems, nv, n - 1);
      MassMatrixOffBlocks(am, init, nv, idx);
    }
  }

  /** The two nested loops that copy one system's mass matrix into its block of AM. */
  method WriteMassBlock(am: array<real>, m: Mat, off: nat, d: nat, nv: nat)
    requires IsMat(m, d, d) && off + d <= nv && am.Length == nv * nv
    modifies am
    ensures am[..] == WriteBlock(old(am[..]), m, off, d, nv)
  {
    ghost var am0 := am[..];
    FilledNone(am0, m, off, d, nv);
    var ii := 0;
    while ii < d
      invariant 0 <= ii <= d && am[..] == Filled(am0, m, off, d, nv, ii, 0)
    {
      var jj := 0;
      while jj < d
        invariant 0 <= jj <= d && am[..] == Filled(am0, m, off, d, nv, ii, jj)
      {
        var w := (off + ii) + (off + jj) * nv;
        IndexInSquare(off + ii, off + jj, nv);
        ColumnMajor(off + ii, off + jj, nv);
        FilledStep(am0, m, off, d, nv, ii, jj, w);
        am[w] := m[ii][jj];
        jj := jj + 1;
      }
      FilledNextRow(am0, m, off, d, nv, ii);
      ii := ii + 1;
    }
  }

  /**
   * The mass part of fprob: each Lagrangian system's mass goes into its own
   * diagonal block; the loop raises at the first other system, with the
   * blocks before it written.
   */
  method FillMass(systems: seq<Hem5System>, nv: nat, am: array<real>) returns (ok: bool)
    requires MassesFit(systems, nv) && am.Length == nv * nv
    modifies am
    ensures ok <==> FirstNonLagrangian(systems) == |systems|
    ensures MassesFit(systems[..FirstNonLagrangian(systems)], nv)
    ensures am[..] == MassMatrix(old(am[..]), systems[..FirstNonLagrangian(systems)], nv)
  {
    var k := 0;
    var pos := 0;
    MassesFitPrefix(systems, nv, 0);
    while k < |systems|
      invariant 0 <= k <= |systems| && pos == DimSum(systems[..k])
      invariant forall j :: 0 <= j < k ==> IsLagrangian(systems[j].kind)
      invariant MassesFit(systems[..k], nv)
      invariant am[..] == MassMatrix(old(am[..]), systems[..k], nv)
    {
      if !IsLagrangian(systems[k].kind) {
        FirstNonLagrangianIs(systems, k);
        return false;
      }
      DimSumStep(systems, k);
      MassesFitPrefix(systems, nv, k + 1);
      WriteMassBlock(am, systems[k].mass, pos, systems[k].dim, nv);
      assert systems[..k + 1][..k] == systems[..k];
      pos := pos + systems[k].dim;
      k := k + 1;
    }
    FirstNonLagrangianIs(systems, k);
    ok := true;
  }

  /** The index the mass loop writes as written: AM[ii + jj·NV] for ii, jj from pos to pos + NV − 1. */
  function MassIndexAsWritten(nv: nat, ii: nat, jj: nat): nat {
    ii + jj * nv
  }

  /**
   * Whether the as-written loop for a system of size dim whose block starts
   * at pos stays in bounds: every AM index it writes lies among the NV·NV
   * entries, and every M(ii, jj) it reads lies in the dim × dim mass matrix.
   */
  predicate MassFillAsWrittenInBounds(pos: nat, nv: nat, dim: nat) {
    (forall ii, jj :: pos <= ii < pos + nv && pos <= jj < pos + nv ==> MassIndexAsWritten(nv, ii, jj) < nv * nv)
    && pos + nv <= dim
  }

  /** The mass loop as written, for one system; None when it leaves AM or the system's mass matrix. */
  function MassFillAsWritten(am: seq<real>, m: Mat, pos: nat, dim: nat, nv: nat): (r: Option<seq<real>>)
    requires IsMat(m, dim, dim) && |am| == nv * nv
    ensures r.Some? <==> MassFillAsWrittenInBounds(pos, nv, dim)
    ensures r.Some? ==> |r.value| == |am|
  {
    if !MassFillAsWrittenInBounds(pos, nv, dim) then None
    else if nv == 0 then Some(am)
    else
      Some(seq(|am|, idx requires 0 <= idx < |am| =>
        var row := RowOf(idx, nv);
        var col := ColOf(idx, nv);
        if pos <= row < pos + nv && pos <= col < pos + nv then m[row][col] else am[idx]))
  }

  /** Every entry of an NV × NV matrix lies in column NV − 1 or before. */
  lemma ColumnBelow(idx: nat, nv: nat)
    requires nv > 0 && idx < nv * nv
    ensures ColOf(idx, nv) < nv
  {
    var c := ColOf(idx, nv);
    Recompose(idx, nv);
    if c >= nv {
      MulMono(c, nv, nv);
    }
  }

  lemma MulMono(a: int, b: int, k: int)
    requires a >= b && k >= 0
    ensures a * k >= b * k
  {
    assert a * k - b * k == (a - b) * k;
  }

  /** For a system holding all of NV, the as-written loop stays in bounds. */
  lemma MassFillAsWrittenFirstInBounds(nv: nat)
    ensures MassFillAsWrittenInBounds(0, nv, nv)
  {
    forall ii, jj | 0 <= ii < nv && 0 <= jj < nv
      ensures MassIndexAsWritten(nv, ii, jj) < nv * nv
    {
      IndexInSquare(ii, jj, nv);
    }
  }

  /**
   * The one case the as-written loop handles: a single system filling all of
   * NV.  There it stays in bounds and writes exactly the corrected matrix.
   */
  lemma MassFillAsWrittenSingleSystem(am: seq<real>, s: Hem5System, nv: nat)
    requires s.dim == nv && IsMat(s.mass, nv, nv) && |am| == nv * nv
    ensures MassesFit([s], nv)
    ensures MassFillAsWritten(am, s.mass, 0, nv, nv) == Some(MassMatrix(am, [s], nv))
  {
    assert [s][..0] == [];
    MassFillAsWrittenFirstInBounds(nv);
    if nv > 0 {
      var a := MassFillAsWritten(am, s.mass, 0, nv, nv).value;
      var b := MassMatrix(am, [s], nv);
      var init := [s][..0];
      assert init == [];
      assert MassMatrix(am, init, nv) == am && DimSum(init) == 0;
      assert b == WriteBlock(am, s.mass, 0, nv, nv);
      forall idx | 0 <= idx < |am|
        ensures a[idx] == b[idx]
      {
        ColumnBelow(idx, nv);
        assert Covered(RowOf(idx, nv), ColOf(idx, nv), 0, nv, nv, 0);
      }
      assert a == b;
    }
  }

  /** A system after the first (pos ≥ 1) makes the as-written loop write past the NV·NV entries of AM. */
  lemma MassFillAsWrittenOutOfBounds(pos: nat, nv: nat, dim: nat)
    requires pos >= 1 && nv >= 1
    ensures !MassFillAsWrittenInBounds(pos, nv, dim)
  {
    var last := pos + nv - 1;
    MulMono(last, nv, nv);
    assert MassIndexAsWritten(nv, last, last) >= nv * nv;
  }

  /**
   * Two one-degree-of-freedom systems (NV = 2): the first one reads M(1, 1)
   * of its 1 × 1 mass matrix, the second one writes AM(7) of a 2 × 2 matrix.
   */
  lemma MassFillAsWrittenTwoSystems()
    ensures !MassFillAsWrittenInBounds(0, 2, 1)
    ensures MassIndexAsWritten(2, 2, 2) == 6 && !MassFillAsWrittenInBounds(1, 2, 1)
  {
    MassFillAsWrittenOutOfBounds(1, 2, 1);
  }

  // ---------------------------------------------------------------------------
  // The forces and q̇ parts of fprob
  // ---------------------------------------------------------------------------

  /** The error the force and q̇ loops raise at a system that is not Lagrangian. */
  function KindError(kind: M.DsType, otherwise: Hem5Error): Hem5Error {
    if kind == M.NewtonEulerDS then NewtonEulerNotImplemented else otherwise
  }

  function LoopStatus(systems: seq<Hem5System>, otherwise: Hem5Error): (r: Result<(), Hem5Error>)
  {
    var k := FirstNonLagrangian(systems);
    if k == |systems| then Success(()) else Failure(KindError(systems[k].kind, otherwise))
  }

  /**
   * The force part of fprob: every system must be Lagrangian (its forces are
   * computed by its own plugin), then F receives the first NV entries of the
   * forces block vector.
   */
  method FillForces(systems: seq<Hem5System>, forces: Vec, nv: nat, f: array<real>) returns (status: Result<(), Hem5Error>)
    requires nv <= |forces| && nv <= f.Length
    modifies f
    ensures status == LoopStatus(systems, OnlyLagrangian)
    ensures status.Success? ==> f[..] == Overwrite(old(f[..]), forces[..nv])
    ensures status.Failure? ==> f[..] == old(f[..])
  {
    var k := 0;
    while k < |systems|
      invariant 0 <= k <= |systems| && forall j :: 0 <= j < k ==> IsLagrangian(systems[j].kind)
    {
      if !IsLagrangian(systems[k].kind) {
        FirstNonLagrangianIs(systems, k);
        return Failure(KindError(systems[k].kind, OnlyLagrangian));
      }
      k := k + 1;
    }
    FirstNonLagrangianIs(systems, k);
    var ii := 0;
    while ii < nv
      invariant 0 <= ii <= nv
      invariant forall j :: 0 <= j < f.Length ==> f[j] == if j < ii then forces[j] else old(f[j])
    {
      f[ii] := forces[ii];
      ii := ii + 1;
    }
    status := Success(());
  }

  /** The q̇ part of fprob: q̇ = v over each Lagrangian system's slice, in order. */
  method FillQdot(systems: seq<Hem5System>, v: Vec, qdot: array<real>) returns (status: Result<(), Hem5Error>)
    requires DimSum(systems) <= |v| && DimSum(systems) <= qdot.Length
    modifies qdot
    ensures status == LoopStatus(systems, OnlyMechanical)
    ensures DimSum(systems[..FirstNonLagrangian(systems)]) <= DimSum(systems)
    ensures qdot[..] == Overwrite(old(qdot[..]), v[..DimSum(systems[..FirstNonLagrangian(systems)])])
  {
    var k := 0;
    var pos := 0;
    assert systems[..|systems|] == systems;
    while k < |systems|
      invariant 0 <= k <= |systems| && pos == DimSum(systems[..k])
      invariant k <= FirstNonLagrangian(systems)
      invariant pos <= DimSum(systems)
      invariant qdot[..] == Overwrite(old(qdot[..]), v[..pos])
    {
      if !IsLagrangian(systems[k].kind) {
        FirstNonLagrangianIs(systems, k);
        return Failure(KindError(systems[k].kind, OnlyMechanical));
      }
      FirstNonLagrangianPast(systems, k);
      CopySystemSlice(systems, k, pos, v, qdot, old(qdot[..]));
      pos := pos + systems[k].dim;
      k := k + 1;
    }
    FirstNonLagrangianIs(systems, k);
    assert systems[..k] == systems;
    status := Success(());
  }

  /** One turn of the q̇ loop: system k's slice of v is copied after the slices of the systems before it. */
  method CopySystemSlice(systems: seq<Hem5System>, k: nat, pos: nat, v: Vec, qdot: array<real>, ghost q0: Vec)
    requires k < |systems| && pos == DimSum(systems[..k]) && pos <= DimSum(systems)
    requires DimSum(systems) <= |v| && DimSum(systems) <= qdot.Length
    requires |q0| == qdot.Length && qdot[..] == Overwrite(q0, v[..pos])
    modifies qdot
    ensures DimSum(systems[..k + 1]) == pos + systems[k].dim <= DimSum(systems)
    ensures qdot[..] == Overwrite(q0, v[..pos + systems[k].dim])
  {
    DimSumStep(systems, k);
    DimSumMono(systems, k + 1, |systems|);
    assert systems[..|systems|] == systems;
    OverwriteExtend(q0, v, pos, systems[k].dim);
    CopySlice(v, qdot, pos, systems[k].dim);
  }

  /** Copying v's next slice after its first pos entries are in place leaves the first pos + dim in place. */
  lemma OverwriteExtend(b: Vec, v: Vec, pos: nat, dim: nat)
    requires pos + dim <= |v| && pos + dim <= |b|
    ensures var a := Overwrite(b, v[..pos]);
      a[..pos] + v[pos..pos + dim] + a[pos + dim..] == Overwrite(b, v[..pos + dim])
  {
    var a := Overwrite(b, v[..pos]);
    assert a[..pos] + v[pos..pos + dim] == v[..pos + dim];
  }

  /** q̇ = v over one system's slice [pos, pos + dim). */
  method CopySlice(v: Vec, qdot: array<real>, pos: nat, dim: nat)
    requires pos + dim <= |v| && pos + dim <= qdot.Length
    modifies qdot
    ensures qdot[..] == old(qdot[..])[..pos] + v[pos..pos + dim] + old(qdot[..])[pos + dim..]
  {
    var i := 0;
    while i < dim
      invariant 0 <= i <= dim
      invariant forall j :: 0 <= j < qdot.Length ==> qdot[j] == if pos <= j < pos + i then v[j] else old(qdot[j])
    {
      qdot[i + pos] := v[i + pos];
      i := i + 1;
    }
    assert qdot[..] == old(qdot[..])[..pos] + v[pos..pos + dim] + old(qdot[..])[pos + dim..];
  }

  // ---------------------------------------------------------------------------
  // One fprob evaluation
  // ---------------------------------------------------------------------------

  /** The sizes fprob relies on: the masses fit in NV, AM is NV × NV, F, v and q̇ hold NV entries. */
  predicate FprobArgs(systems: seq<Hem5System>, nv: nat, forces: Vec, v: Vec, amLen: nat, fLen: nat, qdotLen: nat) {
    MassesFit(systems, nv) && amLen == nv * nv && nv <= |forces| && nv <= fLen && |v| == nv && nv <= qdotLen
  }

  /** What one fprob call leaves in AM, F and q̇, and whether it raised. */
  datatype FprobOut = FprobOut(am: seq<real>, f: seq<real>, qdot: seq<real>, status: Result<(), Hem5Error>)

  /**
   * fprob's effect for the tasks IFCN selects, in its order: the mass loop,
   * then the force loop, then the q̇ loop; the first loop that meets a
   * system it cannot handle raises and ends the call.
   */
  function FprobEffect(ifcn: int, systems: seq<Hem5System>, nv: nat, forces: Vec, v: Vec, am: seq<real>, f: seq<real>, qdot: seq<real>): (out: FprobOut)
    requires FprobArgs(systems, nv, forces, v, |am|, |f|, |qdot|)
    ensures |out.am| == |am| && |out.f| == |f| && |out.qdot| == |qdot|
  {
    var t := Tasks(ifcn);
    var k := FirstNonLagrangian(systems);
    MassesFitPrefix(systems, nv, k);
    DimSumMono(systems, k, |systems|);
    assert systems[..|systems|] == systems;
    var am1 := if t.mass then MassMatrix(am, systems[..k], nv) else am;
    if t.mass && k < |systems| then FprobOut(am1, f, qdot, Failure(OnlyLagrangian))
    else if t.forces && k < |systems| then FprobOut(am1, f, qdot, LoopStatus(systems, OnlyLagrangian))
    else
      var f1 := if t.forces then Overwrite(f, forces[..nv]) else f;
      if t.qdot then FprobOut(am1, f1, Overwrite(qdot, v[..DimSum(systems[..k])]), LoopStatus(systems, OnlyMechanical))
      else FprobOut(am1, f1, qdot, Success(()))
  }

  /**
   * fprob raises exactly when one of the loops it runs meets a system that is
   * not Lagrangian; the mass loop reports it as such, the other two name a
   * Newton–Euler system.
   */
  lemma FprobStatus(ifcn: int, systems: seq<Hem5System>, nv: nat, forces: Vec, v: Vec, am: seq<real>, f: seq<real>, qdot: seq<real>)
    requires FprobArgs(systems, nv, forces, v, |am|, |f|, |qdot|)
    ensures var out := FprobEffect(ifcn, systems, nv, forces, v, am, f, qdot);
      var t := Tasks(ifcn);
      (out.status.Success? <==> (!(t.mass || t.forces || t.qdot) || FirstNonLagrangian(systems) == |systems|)) &&
      (out.status.Failure? && t.mass ==> out.status.error == OnlyLagrangian) &&
      (out.status.Failure? && !t.mass ==>
        (out.status.error == NewtonEulerNotImplemented <==> systems[FirstNonLagrangian(systems)].kind == M.NewtonEulerDS))
  {
  }

  /** A failing call leaves F and q̇ as they were when the mass or the force loop raised. */
  lemma FprobFailureKeepsOutputs(ifcn: int, systems: seq<Hem5System>, nv: nat, forces: Vec, v: Vec, am: seq<real>, f: seq<real>, qdot: seq<real>)
    requires FprobArgs(systems, nv, forces, v, |am|, |f|, |qdot|)
    requires FirstNonLagrangian(systems) < |systems| && (Tasks(ifcn).mass || Tasks(ifcn).forces)
    ensures FprobEffect(ifcn, systems, nv, forces, v, am, f, qdot).f == f
    ensures FprobEffect(ifcn, systems, nv, forces, v, am, f, qdot).qdot == qdot
  {
  }

  /**
   * IFCN selects what fprob writes: AM is left as it was unless the mass is
   * asked for, F unless the forces are, and q̇ unless q̇ is.
   */
  lemma FprobUntaskedKept(ifcn: int, systems: seq<Hem5System>, nv: nat, forces: Vec, v: Vec, am: seq<real>, f: seq<real>, qdot: seq<real>)
    requires FprobArgs(systems, nv, forces, v, |am|, |f|, |qdot|)
    ensures var out := FprobEffect(ifcn, systems, nv, forces, v, am, f, qdot);
      (!Tasks(ifcn).mass ==> out.am == am) &&
      (!Tasks(ifcn).forces ==> out.f == f) &&
      (!Tasks(ifcn).qdot ==> out.qdot == qdot)
  {
  }

  /**
   * With Lagrangian systems only, IFCN = 1 fills every system's diagonal
   * block of AM with its mass, the first NV entries of F with the forces, and
   * q̇ with v.
   */
  lemma FprobFullEvaluation(systems: seq<Hem5System>, nv: nat, forces: Vec, v: Vec, am: seq<real>, f: seq<real>, qdot: seq<real>)
    requires FprobArgs(systems, nv, forces, v, |am|, |f|, |qdot|)
    requires forall k :: 0 <= k < |systems| ==> IsLagrangian(systems[k].kind)
    ensures var out := FprobEffect(1, systems, nv, forces, v, am, f, qdot);
      out.status.Success? &&
      (forall k, i, j :: 0 <= k < |systems| && 0 <= i < systems[k].dim && 0 <= j < systems[k].dim ==>
         BlockIndex(systems, nv, k, i, j) < |am| && out.am[BlockIndex(systems, nv, k, i, j)] == systems[k].mass[i][j]) &&
      out.f[..nv] == forces[..nv] && out.f[nv..] == f[nv..] &&
      out.qdot[..DimSum(systems)] == v[..DimSum(systems)] && out.qdot[DimSum(systems)..] == qdot[DimSum(systems)..]
  {
    FirstNonLagrangianIs(systems, |systems|);
    assert systems[..|systems|] == systems;
    var out := FprobEffect(1, systems, nv, forces, v, am, f, qdot);
    assert out.am == MassMatrix(am, systems, nv);
    forall k, i, j | 0 <= k < |systems| && 0 <= i < systems[k].dim && 0 <= j < systems[k].dim
      ensures BlockIndex(systems, nv, k, i, j) < |am| && out.am[BlockIndex(systems, nv, k, i, j)] == systems[k].mass[i][j]
    {
      MassMatrixEntry(am, systems, nv, k, i, j);
    }
  }

  /** fprob computes the systems' forces: F is asked for, and the mass loop, when it runs, does not raise. */
  predicate ForcesComputed(ifcn: int, systems: seq<Hem5System>) {
    Tasks(ifcn).forces && !(Tasks(ifcn).mass && FirstNonLagrangian(systems) < |systems|)
  }

  /** One fprob evaluation on the arrays HEM5 passes, for the given systems and forces. */
  method Evaluate(ifcn: int, systems: seq<Hem5System>, nv: nat, forces: Vec, v: Vec,
                  am: array<real>, f: array<real>, qdot: array<real>) returns (status: Result<(), Hem5Error>)
    requires FprobArgs(systems, nv, forces, v, am.Length, f.Length, qdot.Length)
    requires am != f && am != qdot && f != qdot
    modifies am, f, qdot
    ensures var out := FprobEffect(ifcn, systems, nv, forces, v, old(am[..]), old(f[..]), old(qdot[..]));
      am[..] == out.am && f[..] == out.f && qdot[..] == out.qdot && status == out.status
  {
    var t := Tasks(ifcn);
    var k := FirstNonLagrangian(systems);
    DimSumMono(systems, k, |systems|);
    assert systems[..|systems|] == systems;
    if t.mass {
      var ok := FillMass(systems, nv, am);
      if !ok {
        return Failure(OnlyLagrangian);
      }
    }
    if t.forces {
      status := FillForces(systems, forces, nv, f);
      if status.Failure? {
        return;
      }
    }
    if t.qdot {
      status := FillQdot(systems, v, qdot);
      return;
    }
    status := Success(());
  }

  // ---------------------------------------------------------------------------
  // The HEM5 call
  // ---------------------------------------------------------------------------

  /**
   * What one call of HEM5 receives; u and xl are absent (null) when NU or NL
   * is zero.  nf is the length of the systems' force vectors, which fprob
   * fills.
   */
  datatype Hem5Call = Hem5Call(
    nq: int, nv: int, nu: int, nl: int, t: real, q: Vec, v: Vec, u: Option<Vec>, a: Vec, xl: Option<Vec>,
    tend: real, h: real, rtol: seq<real>, atol: seq<real>, itol: int, iout: int,
    rwork: seq<real>, lwk: int, iwork: seq<int>, liwk: int, nf: int)

  /**
   * What fprob leaves in the systems' blocks during one HEM5 call.  Every
   * call of fprob copies the q and v it receives into the position and
   * velocity blocks, and one that runs the force loop has the systems
   * compute their forces into their force vectors.  q and v are those of the
   * last call, forces those of the last call that ran the force loop (None
   * when none did).
   */
  datatype FprobTrace = FprobTrace(q: Vec, v: Vec, forces: Option<Vec>)

  /**
   * What it hands back through its reference arguments, including what it
   * left in its work arrays (its statistics NSTEP..NSOL in IWK(31..36)),
   * and what its fprob callbacks left in the blocks (None when it called
   * fprob not at all).
   */
  datatype Hem5Return = Hem5Return(t: real, q: Vec, v: Vec, a: Vec, xl: Option<Vec>, tend: real, h: real, idid: int,
    rwork: seq<real>, iwork: seq<int>, fprob: Option<FprobTrace>)

  /**
   * The vectors integrated in place and the work arrays keep their lengths;
   * fprob receives q and v of the integrated lengths, and the forces fill
   * the nf entries of the force vectors.
   */
  predicate KeepsShape(c: Hem5Call, ret: Hem5Return) {
    |ret.q| == |c.q| && |ret.v| == |c.v| && |ret.a| == |c.a| &&
    (ret.xl.Some? <==> c.xl.Some?) && (c.xl.Some? ==> |ret.xl.value| == |c.xl.value|) &&
    |ret.rwork| == |c.rwork| && |ret.iwork| == |c.iwork| &&
    (ret.fprob.Some? ==>
      |ret.fprob.value.q| == |c.q| && |ret.fprob.value.v| == |c.v| &&
      (ret.fprob.value.forces.Some? ==> |ret.fprob.value.forces.value| == c.nf))
  }

  /** The Fortran routine, seen as a function of its inputs. */
  type Hem5Solver = f: Hem5Call -> Hem5Return | forall c :: KeepsShape(c, f(c))
    witness (c: Hem5Call) => Hem5Return(c.t, c.q, c.v, c.a, c.xl, c.tend, c.h, 0, c.rwork, c.iwork, None)

  /** The times integrate returns through its reference arguments: tout and the next tend. */
  datatype Step = Step(tout: real, tend: real)

  /** The integer parameters updateIntData stores for nq positions, nv velocities and nl constraints. */
  function IntDataFor(nq: nat, nv: nat, nl: nat): (r: seq<int>)
    ensures |r| == 9 && r[Nq] == nq && r[Nv] == nv && r[Nu] == 0 && r[Nl] == nl
    ensures r[Itol] == 0 && r[Iout] == 0 && r[ModeSlot] == DenseMode
    ensures r[Lwk] >= 19 && r[Liwk] >= 190
  {
    DenseWorkSpace(nq, nv, nl);
    var ws := WorkSpace(nq, nv, 0, nl, DenseMode).value;
    [nq, nv, 0, nl, 0, 0, ws.lwk, ws.liwk, DenseMode]
  }

  function Min(a: int, b: int): int {
    if a < b then a else b
  }

  /**
   * The multiplier buffer for nl constraints: a new one is zero; an existing
   * one is resized keeping its leading entries, and the entries it gains are
   * zero (ublas value-initialises them).
   */
  predicate ResizedFrom(before: Option<seq<real>>, nl: nat, after: seq<real>) {
    |after| == nl &&
    (before.None? ==> after == Zeros(nl)) &&
    (before.Some? ==> after[..Min(nl, |before.value|)] == before.value[..Min(nl, |before.value|)]) &&
    (before.Some? ==> forall i :: |before.value| <= i < nl ==> after[i] == 0.0)
  }

  /** The positions, velocities, accelerations and forces of the systems, in order. */
  function Positions(systems: seq<Hem5System>): seq<array<real>>
  {
    seq(|systems|, k requires 0 <= k < |systems| => systems[k].q)
  }

  function Velocities(systems: seq<Hem5System>): seq<array<real>>
  {
    seq(|systems|, k requires 0 <= k < |systems| => systems[k].velocity)
  }

  function Accelerations(systems: seq<Hem5System>): seq<array<real>>
  {
    seq(|systems|, k requires 0 <= k < |systems| => systems[k].acceleration)
  }

  function ForceBlocks(systems: seq<Hem5System>): seq<array<real>>
  {
    seq(|systems|, k requires 0 <= k < |systems| => systems[k].forces)
  }

  /** The multiplier vectors of the interactions, in order. */
  function Multipliers(indexSet2: seq<Interaction>): seq<array<real>>
  {
    seq(|indexSet2|, k requires 0 <= k < |indexSet2| => indexSet2[k].lambda2)
  }

  /** Each interaction's multiplier vector has an entry 0 and none is shared. */
  ghost predicate MultipliersFit(indexSet2: seq<Interaction>) {
    Distinct(Multipliers(indexSet2)) && forall k :: 0 <= k < |indexSet2| ==> indexSet2[k].lambda2.Length > 0
  }

  /** Copies each interaction's value into entry 0 of its multiplier vector. */
  method StoreMultipliers(indexSet2: seq<Interaction>, values: Vec)
    requires MultipliersFit(indexSet2) && |values| == |indexSet2|
    modifies set b | b in Multipliers(indexSet2)
    ensures forall k :: 0 <= k < |indexSet2| ==>
      indexSet2[k].lambda2[..] == old(indexSet2[k].lambda2[..])[0 := values[k]]
  {
    var pos := 0;
    while pos < |indexSet2|
      invariant 0 <= pos <= |indexSet2|
      invariant forall k :: 0 <= k < |indexSet2| ==>
        indexSet2[k].lambda2[..] == if k < pos then old(indexSet2[k].lambda2[..])[0 := values[k]] else old(indexSet2[k].lambda2[..])
    {
      var ms := Multipliers(indexSet2);
      forall k | 0 <= k < |indexSet2| && k != pos
        ensures indexSet2[k].lambda2 != indexSet2[pos].lambda2
      {
        assert ms[k] == indexSet2[k].lambda2 && ms[pos] == indexSet2[pos].lambda2;
      }
      assert ms[pos] == indexSet2[pos].lambda2;
      indexSet2[pos].lambda2[0] := values[pos];
      pos := pos + 1;
    }
  }

  // ---------------------------------------------------------------------------
  // The integrator
  // ---------------------------------------------------------------------------

  /**
   * The work arrays integrate hands HEM5, given the sizes LWK and LIWK: zero
   * but for the rounding unit in WK(1), and zero but for IWK(15) = IWK(16) = 1.
   * Zero asks HEM5 for its defaults.
   */
  predicate PreparedWork(lwk: nat, liwk: nat, machinePrec: real, rw: seq<real>, iw: seq<int>) {
    Uround < lwk && rw == Zeros(lwk)[Uround := machinePrec] && |iw| == liwk &&
    forall i :: 0 <= i < |iw| ==> iw[i] == if i == 14 || i == 15 then 1 else 0
  }

  /** The contents of the blocks integrate reads and writes: q, v, a, the forces and the multiplier vectors. */
  datatype Blocks = Blocks(q: seq<seq<real>>, v: seq<seq<real>>, a: seq<seq<real>>, forces: seq<seq<real>>,
    lambdas: seq<seq<real>>)

  /** The vectors of a trace are as long as the blocks they are copied into. */
  predicate TraceFits(trace: Option<FprobTrace>, before: Blocks) {
    trace.Some? ==>
      |trace.value.q| == Sum(Lengths(before.q)) && |trace.value.v| == Sum(Lengths(before.v)) &&
      (trace.value.forces.Some? ==> |trace.value.forces.value| == Sum(Lengths(before.forces)))
  }

  /**
   * The blocks once fprob's writes during a HEM5 call are done: the
   * positions and velocities of its last call and the forces of its last
   * force loop, cut at the blocks' lengths.  The accelerations and the
   * multipliers are not touched.
   */
  function AfterFprob(trace: Option<FprobTrace>, before: Blocks): (after: Blocks)
    requires TraceFits(trace, before)
    ensures Lengths(after.q) == Lengths(before.q) && Lengths(after.v) == Lengths(before.v)
    ensures Lengths(after.forces) == Lengths(before.forces)
    ensures after.a == before.a && after.lambdas == before.lambdas
    ensures trace.None? ==> after == before
  {
    match trace
    case None => before
    case Some(t) =>
      var q := Split(t.q, Lengths(before.q));
      var v := Split(t.v, Lengths(before.v));
      var forces := if t.forces.Some? then Split(t.forces.value, Lengths(before.forces)) else before.forces;
      assert Lengths(q) == Lengths(before.q) && Lengths(v) == Lengths(before.v);
      assert Lengths(forces) == Lengths(before.forces);
      Blocks(q, v, before.a, forces, before.lambdas)
  }

  /**
   * What integrate leaves in the blocks once HEM5 returned ret, given what
   * they held before.  A negative idid is an error, raised before the
   * copy-back: the blocks hold what fprob left in them.  Otherwise the
   * position, velocity and acceleration blocks receive the returned vectors
   * cut at their lengths, the force vectors keep what fprob left in them,
   * entry 0 of each multiplier vector receives its interaction's value of
   * xl, and the result is the reached time and HEM5's tend.
   */
  predicate Returned(r: Result<Step, Hem5Error>, ret: Hem5Return, before: Blocks, after: Blocks) {
    TraceFits(ret.fprob, before) &&
    (r.Failure? <==> ret.idid < 0) &&
    (r.Failure? ==> r.error == IntegrationFailed(ret.idid) && after == AfterFprob(ret.fprob, before)) &&
    (r.Success? ==>
      r.value == Step(ret.t, ret.tend) &&
      after.forces == AfterFprob(ret.fprob, before).forces &&
      |ret.q| == Sum(Lengths(before.q)) && |ret.v| == Sum(Lengths(before.v)) && |ret.a| == Sum(Lengths(before.a)) &&
      after.q == Split(ret.q, Lengths(before.q)) &&
      after.v == Split(ret.v, Lengths(before.v)) &&
      after.a == Split(ret.a, Lengths(before.a)) &&
      |after.lambdas| == |before.lambdas| &&
      (|before.lambdas| > 0 ==>
        ret.xl.Some? && |ret.xl.value| == |before.lambdas| &&
        forall k :: 0 <= k < |before.lambdas| ==>
          |before.lambdas[k]| > 0 && after.lambdas[k] == before.lambdas[k][0 := ret.xl.value[k]]))
  }

  /**
   * After a failed call the position and velocity blocks hold the last q and
   * v fprob received and the force vectors the last forces it had computed;
   * the accelerations and the multipliers are as before, and without any
   * fprob call nothing changed.
   */
  lemma FailureKeepsFprobWrites(r: Result<Step, Hem5Error>, ret: Hem5Return, before: Blocks, after: Blocks)
    requires Returned(r, ret, before, after) && r.Failure?
    ensures ret.idid < 0 && after.a == before.a && after.lambdas == before.lambdas
    ensures ret.fprob.None? ==> after == before
    ensures ret.fprob.Some? ==>
      after.q == Split(ret.fprob.value.q, Lengths(before.q)) && after.v == Split(ret.fprob.value.v, Lengths(before.v))
    ensures ret.fprob.Some? && ret.fprob.value.forces.Some? ==>
      after.forces == Split(ret.fprob.value.forces.value, Lengths(before.forces))
    ensures ret.fprob.Some? && ret.fprob.value.forces.None? ==> after.forces == before.forces
  {
  }

  /** A non-negative idid, with the blocks cut from what HEM5 returned and its multipliers stored, is a success. */
  lemma SuccessReturned(ret: Hem5Return, before: Blocks, after: Blocks, xl: Vec)
    requires ret.idid >= 0 && TraceFits(ret.fprob, before)
    requires after.forces == AfterFprob(ret.fprob, before).forces
    requires |ret.q| == Sum(Lengths(before.q)) && |ret.v| == Sum(Lengths(before.v)) && |ret.a| == Sum(Lengths(before.a))
    requires after.q == Split(ret.q, Lengths(before.q)) && after.v == Split(ret.v, Lengths(before.v))
    requires after.a == Split(ret.a, Lengths(before.a))
    requires |xl| == |before.lambdas| == |after.lambdas| && (|before.lambdas| > 0 ==> ret.xl == Some(xl))
    requires forall k :: 0 <= k < |before.lambdas| ==> |before.lambdas[k]| > 0 && after.lambdas[k] == before.lambdas[k][0 := xl[k]]
    ensures Returned(Success(Step(ret.t, ret.tend)), ret, before, after)
  {
  }

  class Hem5 {
    var intData: array<int>
    var rtol: array<real>
    var atol: array<real>
    var rwork: array<real>
    var iwork: array<int>
    var qWork: seq<array<real>>
    var vWork: seq<array<real>>
    var aWork: seq<array<real>>
    var forcesWork: seq<array<real>>
    var lambdaTmp: Option<seq<real>>
    var timeStep: real
    var idid: int
    var sizeMem: int

    /** The parameter array has its nine slots and is not the integer work space. */
    predicate Valid()
      reads this`intData, this`iwork
    {
      intData.Length == 9 && intData != iwork
    }

    /**
     * The arguments integrate passes to HEM5 for the given vectors, step size
     * and work spaces, with the parameters and tolerances of the current state.
     */
    ghost function CallWith(tinit: real, tend: real, q: Vec, v: Vec, a: Vec, xl: Option<Vec>, h: real,
                            rw: seq<real>, iw: seq<int>): Hem5Call
      reads this`intData, this`rtol, this`atol, this`iwork, this`forcesWork, intData, rtol, atol
      requires Valid()
    {
      Hem5Call(intData[Nq], intData[Nv], intData[Nu], intData[Nl], tinit, q, v,
        if intData[Nu] == 0 then None else Some(Zeros(1)), a, xl, tend, h, rtol[..], atol[..],
        intData[Itol], intData[Iout], rw, intData[Lwk], iw, intData[Liwk], Sum(Sizes(forcesWork)))
    }

    /** The arguments of the HEM5 call in the current state: the block vectors read out, xl absent when NL = 0. */
    ghost function Call(tinit: real, tend: real): Hem5Call
      reads this`intData, this`rtol, this`atol, this`rwork, this`iwork, this`qWork, this`vWork, this`aWork
      reads this`forcesWork, this`lambdaTmp, this`timeStep, intData, rtol, atol, rwork, iwork, set b | b in qWork + vWork + aWork
      requires Valid()
    {
      CallWith(tinit, tend, Concat(Contents(qWork)), Concat(Contents(vWork)), Concat(Contents(aWork)),
        if intData[Nl] == 0 then None else lambdaTmp, timeStep, rwork[..], iwork[..])
    }

    /** The parameter array starts with nine zeros; two past states are kept. */
    constructor ()
      ensures Valid() && intData[..] == seq(9, _ => 0) && sizeMem == 2
      ensures qWork == [] && vWork == [] && aWork == [] && forcesWork == [] && lambdaTmp == None
      ensures rtol.Length == 0 && atol.Length == 0 && rwork.Length == 0 && iwork.Length == 0
    {
      intData := new int[9](_ => 0);
      sizeMem := 2;
      rtol := new real[0];
      atol := new real[0];
      rwork := new real[0];
      iwork := new int[0];
      qWork := [];
      vWork := [];
      aWork := [];
      forcesWork := [];
      lambdaTmp := None;
    }

    /** setTol with arrays: itol is recorded and the given arrays become the tolerances. */
    method SetTolArrays(newItol: int, newRtol: array<real>, newAtol: array<real>)
      requires Valid()
      modifies intData, this`rtol, this`atol
      ensures Valid()
      ensures intData[..] == old(intData[..])[Itol := newItol]
      ensures rtol == newRtol && atol == newAtol
    {
      intData[Itol] := newItol;
      rtol := newRtol;
      atol := newAtol;
    }

    /** setTol with scalars, as written: atol(1) receives newRtol. */
    method SetTolAsWritten(newItol: int, newRtol: real, newAtol: real)
      requires Valid() && rtol.Length > 0 && atol.Length > 0 && rtol != atol
      modifies intData, rtol, atol
      ensures intData[..] == old(intData[..])[Itol := newItol]
      ensures (rtol[..], atol[..]) == ScalarTolAsWritten(old(rtol[..]), old(atol[..]), newRtol, newAtol)
    {
      intData[Itol] := newItol;
      rtol[0] := newRtol;
      atol[0] := newRtol;
    }

    /** setTol with scalars, corrected: atol(1) receives newAtol. */
    method SetTol(newItol: int, newRtol: real, newAtol: real)
      requires Valid() && rtol.Length > 0 && atol.Length > 0 && rtol != atol
      modifies intData, rtol, atol
      ensures intData[..] == old(intData[..])[Itol := newItol]
      ensures (rtol[..], atol[..]) == ScalarTol(old(rtol[..]), old(atol[..]), newRtol, newAtol)
    {
      intData[Itol] := newItol;
      rtol[0] := newRtol;
      atol[0] := newAtol;
    }

    /** setMaxStepSize: WK(6), the maximal step size. */
    method SetMaxStepSize(maxStep: real)
      requires rwork.Length > MaxStepSize
      modifies rwork
      ensures rwork[..] == old(rwork[..])[MaxStepSize := maxStep]
    {
      rwork[5] := maxStep;
    }

    /** setMaxNstep as written: the value lands in IWK(12). */
    method SetMaxNstepAsWritten(maxNumberSteps: int)
      requires iwork.Length > ProjectionSwitch
      modifies iwork
      ensures iwork[..] == MaxNstepAsWritten(old(iwork[..]), maxNumberSteps)
    {
      iwork[11] := maxNumberSteps;
    }

    /** setMaxNstep, corrected: the value goes to IWK(11). */
    method SetMaxNstep(maxNumberSteps: int)
      requires iwork.Length > ProjectionSwitch
      modifies iwork
      ensures iwork[..] == MaxNstep(old(iwork[..]), maxNumberSteps)
    {
      iwork[MaxSteps] := maxNumberSteps;
    }

    /**
     * updateIntData: the problem sizes (NQ and NV from the block vectors, no
     * external states, one constraint per active interaction), scalar
     * tolerances, no dense output, dense algebra, and the work space sizes.
     */
    method UpdateIntData(indexSet2: seq<Interaction>)
      requires Valid()
      modifies intData
      ensures intData[..] == IntDataFor(Sum(Sizes(qWork)), Sum(Sizes(vWork)), |indexSet2|)
    {
      var nq := Sum(Sizes(qWork));
      var nv := Sum(Sizes(vWork));
      intData[Nq] := nq;
      intData[Nv] := nv;
      intData[Nu] := 0;
      var nl := NumberOfConstraints(indexSet2);
      intData[Nl] := nl;
      intData[Itol] := 0;
      intData[Iout] := 0;
      intData[ModeSlot] := DenseMode;
      DenseWorkSpace(nq, nv, nl);
      var ws := WorkSpace(nq, nv, 0, nl, DenseMode);
      intData[Lwk] := ws.value.lwk;
      intData[Liwk] := ws.value.liwk;
    }

    /**
     * updateData: tolerances and work spaces are reallocated to the sizes the
     * parameter array gives; all but rtol are zero-filled.
     */
    method UpdateData()
      requires Valid() && intData[Nq] >= 0 && intData[Lwk] >= 0 && intData[Liwk] >= 0
      modifies this`rtol, this`atol, this`iwork, this`rwork
      ensures Valid()
      ensures fresh(rtol) && fresh(atol) && fresh(iwork) && fresh(rwork)
      ensures rtol != atol && rwork != rtol && rwork != atol
      ensures rtol.Length == intData[Nq] && atol[..] == Zeros(intData[Nq])
      ensures iwork.Length == intData[Liwk] && forall i :: 0 <= i < iwork.Length ==> iwork[i] == 0
      ensures rwork[..] == Zeros(intData[Lwk])
    {
      rtol := new real[intData[Nq]];
      atol := NewZeroReals(intData[Nq]);
      iwork := NewZeroInts(intData[Liwk]);
      rwork := NewZeroReals(intData[Lwk]);
    }

    /** fillqWork: the positions HEM5 works on are copied into the systems' blocks. */
    method FillQWork(q: Vec)
      requires Distinct(qWork) && |q| == Sum(Sizes(qWork))
      modifies set b | b in qWork
      ensures Contents(qWork) == Split(q, Sizes(qWork))
      ensures Concat(Contents(qWork)) == q
    {
      Scatter(qWork, q);
      ConcatSplit(q, Sizes(qWork));
    }

    /** fillvWork: the same for the velocities. */
    method FillVWork(v: Vec)
      requires Distinct(vWork) && |v| == Sum(Sizes(vWork))
      modifies set b | b in vWork
      ensures Contents(vWork) == Split(v, Sizes(vWork))
      ensures Concat(Contents(vWork)) == v
    {
      Scatter(vWork, v);
      ConcatSplit(v, Sizes(vWork));
    }

    /**
     * initialize: the position, velocity, acceleration and force vectors of
     * the systems are inserted in order; a system that is not Lagrangian
     * raises, after those before it were inserted.  The initial step size
     * guess is 1e-3.
     */
    method Initialize(systems: seq<Hem5System>) returns (r: Result<(), Hem5Error>)
      modifies this`qWork, this`vWork, this`aWork, this`forcesWork, this`timeStep
      ensures var k := FirstNonLagrangian(systems);
        qWork == Positions(systems[..k]) && vWork == Velocities(systems[..k]) &&
        aWork == Accelerations(systems[..k]) && forcesWork == ForceBlocks(systems[..k])
      ensures r.Success? <==> FirstNonLagrangian(systems) == |systems|
      ensures r.Failure? ==> r.error == OnlyLagrangian && timeStep == old(timeStep)
      ensures r.Success? ==> timeStep == 0.001
    {
      qWork := [];
      vWork := [];
      aWork := [];
      forcesWork := [];
      var k := 0;
      while k < |systems|
        invariant 0 <= k <= |systems| && forall j :: 0 <= j < k ==> IsLagrangian(systems[j].kind)
        invariant qWork == Positions(systems[..k]) && vWork == Velocities(systems[..k])
        invariant aWork == Accelerations(systems[..k]) && forcesWork == ForceBlocks(systems[..k])
        invariant timeStep == old(timeStep)
      {
        var ds := systems[k];
        if !IsLagrangian(ds.kind) {
          FirstNonLagrangianIs(systems, k);
          return Failure(OnlyLagrangian);
        }
        assert Positions(systems[..k + 1]) == Positions(systems[..k]) + [ds.q];
        assert Velocities(systems[..k + 1]) == Velocities(systems[..k]) + [ds.velocity];
        assert Accelerations(systems[..k + 1]) == Accelerations(systems[..k]) + [ds.acceleration];
        assert ForceBlocks(systems[..k + 1]) == ForceBlocks(systems[..k]) + [ds.forces];
        qWork := qWork + [ds.q];
        vWork := vWork + [ds.velocity];
        aWork := aWork + [ds.acceleration];
        forcesWork := forcesWork + [ds.forces];
        k := k + 1;
      }
      FirstNonLagrangianIs(systems, k);
      timeStep := 0.001;
      r := Success(());
    }

    /**
     * fprob: the positions and velocities HEM5 passes go into the systems'
     * blocks, then the tasks IFCN selects fill AM, F and q̇.  computed holds
     * what computeForces(time) gives the systems at those positions and
     * velocities, one system after the other.  When the force loop runs, the
     * systems' force vectors receive it and F is read from them.  The force
     * vectors are those initialize gathered, which are those of the systems
     * before the first that is not Lagrangian: exactly the ones the force
     * loop reaches before it raises.
     */
    method Fprob(ifcn: int, systems: seq<Hem5System>, nv: nat, q: Vec, v: Vec, computed: Vec,
                 am: array<real>, f: array<real>, qdot: array<real>) returns (status: Result<(), Hem5Error>)
      requires Distinct(qWork + vWork) && |q| == Sum(Sizes(qWork)) && |v| == Sum(Sizes(vWork))
      requires Distinct(forcesWork) && Apart(forcesWork, qWork + vWork)
      requires forcesWork == ForceBlocks(systems[..FirstNonLagrangian(systems)])
      requires |computed| == Sum(Sizes(forcesWork))
      requires am !in qWork + vWork && f !in qWork + vWork && qdot !in qWork + vWork
      requires am !in forcesWork && f !in forcesWork && qdot !in forcesWork
      requires am != f && am != qdot && f != qdot
      requires FprobArgs(systems, nv, computed, v, am.Length, f.Length, qdot.Length)
      modifies (set b | b in qWork + vWork), (set b | b in forcesWork), am, f, qdot
      ensures Contents(qWork) == Split(q, Sizes(qWork)) && Contents(vWork) == Split(v, Sizes(vWork))
      ensures ForcesComputed(ifcn, systems) ==>
        Contents(forcesWork) == Split(computed, Sizes(forcesWork)) && Concat(Contents(forcesWork)) == computed
      ensures !ForcesComputed(ifcn, systems) ==> Contents(forcesWork) == old(Contents(forcesWork))
      ensures var out := FprobEffect(ifcn, systems, nv, computed, v, old(am[..]), old(f[..]), old(qdot[..]));
        am[..] == out.am && f[..] == out.f && qdot[..] == out.qdot && status == out.status
    {
      ghost var entry := (am[..], f[..], qdot[..]);
      FillState(q, v);
      ComputeForces(ifcn, systems, computed);
      assert (am[..], f[..], qdot[..]) == entry;
      status := EvaluateKeepingBlocks(ifcn, systems, nv, computed, v, am, f, qdot);
    }

    /** Evaluate, seen through the blocks' contents: AM, F and q̇ are none of the blocks.  A proof step of Fprob. */
    method EvaluateKeepingBlocks(ifcn: int, systems: seq<Hem5System>, nv: nat, computed: Vec, v: Vec,
                                 am: array<real>, f: array<real>, qdot: array<real>) returns (status: Result<(), Hem5Error>)
      requires am !in qWork + vWork && f !in qWork + vWork && qdot !in qWork + vWork
      requires am !in forcesWork && f !in forcesWork && qdot !in forcesWork
      requires am != f && am != qdot && f != qdot
      requires FprobArgs(systems, nv, computed, v, am.Length, f.Length, qdot.Length)
      modifies am, f, qdot
      ensures Contents(qWork) == old(Contents(qWork)) && Contents(vWork) == old(Contents(vWork))
      ensures Contents(forcesWork) == old(Contents(forcesWork))
      ensures var out := FprobEffect(ifcn, systems, nv, computed, v, old(am[..]), old(f[..]), old(qdot[..]));
        am[..] == out.am && f[..] == out.f && qdot[..] == out.qdot && status == out.status
    {
      label start:
      status := Evaluate(ifcn, systems, nv, computed, v, am, f, qdot);
      assert forall b :: b in qWork ==> b in qWork + vWork;
      assert forall b :: b in vWork ==> b in qWork + vWork;
      ContentsKept@start(qWork);
      ContentsKept@start(vWork);
      ContentsKept@start(forcesWork);
    }

    /**
     * The force loop's computeForces calls, when fprob reaches them: the force
     * vectors receive the computed forces; the other blocks keep theirs.
     */
    method ComputeForces(ifcn: int, systems: seq<Hem5System>, computed: Vec)
      requires Distinct(forcesWork) && Apart(forcesWork, qWork + vWork) && |computed| == Sum(Sizes(forcesWork))
      modifies set b | b in forcesWork
      ensures ForcesComputed(ifcn, systems) ==>
        Contents(forcesWork) == Split(computed, Sizes(forcesWork)) && Concat(Contents(forcesWork)) == computed
      ensures !ForcesComputed(ifcn, systems) ==> Contents(forcesWork) == old(Contents(forcesWork))
      ensures Contents(qWork) == old(Contents(qWork)) && Contents(vWork) == old(Contents(vWork))
    {
      label start:
      if ForcesComputed(ifcn, systems) {
        Scatter(forcesWork, computed);
        ConcatSplit(computed, Sizes(forcesWork));
      }
      assert forall b :: b in qWork ==> b in qWork + vWork;
      assert forall b :: b in vWork ==> b in qWork + vWork;
      ContentsKept@start(qWork);
      ContentsKept@start(vWork);
    }

    /** The positions and velocities HEM5 passes, copied into the systems' blocks; the force vectors are others. */
    method FillState(q: Vec, v: Vec)
      requires Distinct(qWork + vWork) && |q| == Sum(Sizes(qWork)) && |v| == Sum(Sizes(vWork))
      requires Apart(forcesWork, qWork + vWork)
      modifies set b | b in qWork + vWork
      ensures Contents(qWork) == Split(q, Sizes(qWork)) && Contents(vWork) == Split(v, Sizes(vWork))
      ensures Contents(forcesWork) == old(Contents(forcesWork))
    {
      label start:
      DistinctSplit(qWork, vWork);
      FillQWork(q);
      label filledQ:
      FillVWork(v);
      ContentsKept@filledQ(qWork);
      ContentsKept@start(forcesWork);
    }

    /** The multiplier buffer is allocated as zeros, or resized keeping its leading entries and zero-filling the rest. */
    method ResizeLambda(nl: nat)
      modifies this`lambdaTmp
      ensures lambdaTmp.Some? && ResizedFrom(old(lambdaTmp), nl, lambdaTmp.value)
    {
      if lambdaTmp.None? {
        lambdaTmp := Some(Zeros(nl));
      } else {
        var before := lambdaTmp.value;
        if nl <= |before| {
          lambdaTmp := Some(before[..nl]);
        } else {
          lambdaTmp := Some(before + Zeros(nl - |before|));
        }
      }
    }

    /**
     * The options integrate writes before the call: the rounding unit in
     * WK(1), HEM5's defaults (zero) for WK(2..4) and WK(6..8) and IWK(11..13),
     * the algebra mode in IWK(14), and IWK(15) = IWK(16) = 1 (compute the
     * acceleration, and GII numerically).
     */
    method SetSolverOptions(machinePrec: real)
      requires Valid() && rwork.Length > 7 && iwork.Length > 15
      modifies rwork, iwork
      ensures rwork[..] == old(rwork[..])[Uround := machinePrec][1 := 0.0][2 := 0.0][3 := 0.0]
                             [MaxStepSize := 0.0][6 := 0.0][7 := 0.0]
      ensures iwork[..] == old(iwork[..])[MaxSteps := 0][ProjectionSwitch := 0][12 := 0]
                             [13 := old(intData[ModeSlot])][14 := 1][15 := 1]
    {
      rwork[0] := machinePrec;
      rwork[1] := 0.0;
      rwork[2] := 0.0;
      rwork[3] := 0.0;
      rwork[5] := 0.0;
      rwork[6] := 0.0;
      rwork[7] := 0.0;
      iwork[10] := 0;
      iwork[11] := 0;
      iwork[12] := 0;
      iwork[13] := intData[ModeSlot];
      iwork[14] := 1;
      iwork[15] := 1;
    }

    /** The default tolerances go into the first entries of rtol and atol. */
    method StoreDefaultTolerances(rtolDefault: real, atolDefault: real)
      requires rtol.Length > 0 && atol.Length > 0 && rtol != atol
      modifies rtol, atol
      ensures rtol[..] == old(rtol[..])[0 := rtolDefault] && atol[..] == old(atol[..])[0 := atolDefault]
    {
      rtol[0] := rtolDefault;
      atol[0] := atolDefault;
    }

    /**
     * The parameters and tolerances integrate sets up for nl constraints,
     * which HEM5 only reads: those of updateIntData, and fresh tolerances
     * holding the defaults in their first entries.
     */
    ghost predicate PreparedParams(nl: nat, rtolDefault: real, atolDefault: real)
      reads this`intData, this`rtol, this`atol, this`iwork, this`qWork, this`vWork, intData, rtol, atol
    {
      var nq := Sum(Sizes(qWork));
      Valid() && nq > 0 &&
      intData[..] == IntDataFor(nq, Sum(Sizes(vWork)), nl) &&
      rtol.Length == nq && rtol[0] == rtolDefault && atol[..] == [atolDefault] + Zeros(nq - 1)
    }

    /** The state integrate sets up before calling HEM5: the parameters, and the work arrays PreparedWork describes. */
    ghost predicate Prepared(nl: nat, machinePrec: real, rtolDefault: real, atolDefault: real)
      reads this`intData, this`rtol, this`atol, this`rwork, this`iwork, this`qWork, this`vWork
      reads intData, rtol, atol, rwork, iwork
    {
      PreparedParams(nl, rtolDefault, atolDefault) &&
      PreparedWork(intData[Lwk], intData[Liwk], machinePrec, rwork[..], iwork[..])
    }

    /**
     * What setMaxStepSize and setMaxNstep stored before integrate is gone:
     * the maximal step size, the maximal number of steps and the projection
     * switch are back at HEM5's defaults (zero).
     */
    lemma PreparedDiscardsSettings(nl: nat, machinePrec: real, rtolDefault: real, atolDefault: real)
      requires Prepared(nl, machinePrec, rtolDefault, atolDefault)
      ensures rwork.Length > MaxStepSize && rwork[MaxStepSize] == 0.0
      ensures iwork.Length > ProjectionSwitch && iwork[MaxSteps] == 0 && iwork[ProjectionSwitch] == 0
      ensures atol[0] == atolDefault && forall i :: 1 <= i < atol.Length ==> atol[i] == 0.0
    {
      assert rwork[MaxStepSize] == rwork[..][MaxStepSize];
      assert forall i :: 0 <= i < atol.Length ==> atol[i] == atol[..][i];
    }

    /** The part of integrate before the HEM5 call. */
    method Prepare(indexSet2: seq<Interaction>, machinePrec: real, rtolDefault: real, atolDefault: real)
      requires Valid() && Sum(Sizes(qWork)) > 0
      modifies intData, this`lambdaTmp, this`rtol, this`atol, this`iwork, this`rwork
      ensures Prepared(|indexSet2|, machinePrec, rtolDefault, atolDefault)
      ensures fresh(rtol) && fresh(atol) && fresh(iwork) && fresh(rwork) && rwork != rtol && rwork != atol
      ensures lambdaTmp.Some? && ResizedFrom(old(lambdaTmp), |indexSet2|, lambdaTmp.value)
    {
      UpdateIntData(indexSet2);
      ResizeLambda(intData[Nl]);
      UpdateData();
      SetDefaults(machinePrec, rtolDefault, atolDefault);
    }

    /** On freshly zeroed work spaces and tolerances: the solver options, then the default tolerances. */
    method SetDefaults(machinePrec: real, rtolDefault: real, atolDefault: real)
      requires Valid() && intData[Lwk] >= 19 && intData[Liwk] >= 190 && intData[ModeSlot] == DenseMode
      requires intData[Nq] > 0 && rtol.Length == intData[Nq] && atol[..] == Zeros(intData[Nq])
      requires rtol != atol && rwork != rtol && rwork != atol
      requires rwork[..] == Zeros(intData[Lwk])
      requires iwork.Length == intData[Liwk] && forall i :: 0 <= i < iwork.Length ==> iwork[i] == 0
      modifies rtol, atol, rwork, iwork
      ensures rtol[0] == rtolDefault && atol[..] == [atolDefault] + Zeros(intData[Nq] - 1)
      ensures rwork[..] == Zeros(intData[Lwk])[Uround := machinePrec]
      ensures forall i :: 0 <= i < iwork.Length ==> iwork[i] == if i == 14 || i == 15 then 1 else 0
    {
      SetSolverOptions(machinePrec);
      StoreDefaultTolerances(rtolDefault, atolDefault);
      assert forall i :: 0 <= i < rwork.Length ==> rwork[..][i] == Zeros(intData[Lwk])[Uround := machinePrec][i];
      assert rwork[..] == Zeros(intData[Lwk])[Uround := machinePrec];
      assert atol[..] == [atolDefault] + Zeros(intData[Nq] - 1);
    }


    /**
     * The HEM5 call: the block vectors are read out and the multipliers go
     * in when there are constraints.  The vectors integrated in place come
     * back as long as the blocks.  HEM5 works on the copies; what its fprob
     * callbacks write into the blocks during the call is applied by Called.
     */
    method Launch(tinit: real, tend: real, solver: Hem5Solver, ghost indexSet2: seq<Interaction>) returns (ret: Hem5Return)
      requires Valid()
      ensures ret == solver(old(Call(tinit, tend)))
      ensures |ret.q| == Sum(Sizes(qWork)) && |ret.v| == Sum(Sizes(vWork)) && |ret.a| == Sum(Sizes(aWork))
      ensures |ret.rwork| == rwork.Length && |ret.iwork| == iwork.Length
      ensures Snapshot(indexSet2) == old(Snapshot(indexSet2))
      ensures TraceFits(ret.fprob, Snapshot(indexSet2))
    {
      label entry:
      ConcatSize(qWork);
      ConcatSize(vWork);
      ConcatSize(aWork);
      var q := Gather(qWork);
      var v := Gather(vWork);
      var a := Gather(aWork);
      var u := if intData[Nu] == 0 then None else Some(Zeros(1));
      var xl := if intData[Nl] == 0 then None else lambdaTmp;
      var call := Hem5Call(intData[Nq], intData[Nv], intData[Nu], intData[Nl], tinit, q, v, u, a, xl,
        tend, timeStep, rtol[..], atol[..], intData[Itol], intData[Iout], rwork[..], intData[Lwk],
        iwork[..], intData[Liwk], Sum(Sizes(forcesWork)));
      ret := solver(call);
      ContentsKept@entry(qWork);
      ContentsKept@entry(vWork);
      ContentsKept@entry(aWork);
      ContentsKept@entry(forcesWork);
      ContentsKept@entry(Multipliers(indexSet2));
    }

    /**
     * What fprob leaves in the blocks: the q and v of its last call through
     * fillqWork and fillvWork, and the forces of its last force loop.  The
     * accelerations and the multipliers are not touched.
     */
    method Called(trace: Option<FprobTrace>, ghost indexSet2: seq<Interaction>)
      requires Distinct(qWork + vWork + aWork) && Apart(Multipliers(indexSet2), qWork + vWork + aWork)
      requires Distinct(forcesWork) && Apart(forcesWork, qWork + vWork + aWork + Multipliers(indexSet2))
      requires TraceFits(trace, Snapshot(indexSet2))
      requires Apart([rtol, atol, rwork], qWork + vWork + aWork + forcesWork + Multipliers(indexSet2))
      modifies (set b | b in qWork + vWork), set b | b in forcesWork
      ensures intData[..] == old(intData[..]) && rtol[..] == old(rtol[..]) && atol[..] == old(atol[..])
      ensures Snapshot(indexSet2) == AfterFprob(trace, old(Snapshot(indexSet2)))
    {
      label start:
      forall b | b in qWork + vWork
        ensures b in qWork + vWork + aWork && b in qWork + vWork + aWork + Multipliers(indexSet2)
      {
      }
      forall b | b in aWork
        ensures b in qWork + vWork + aWork && b in qWork + vWork + aWork + Multipliers(indexSet2)
      {
      }
      forall b | b in Multipliers(indexSet2)
        ensures b in qWork + vWork + aWork + Multipliers(indexSet2)
      {
      }
      forall b | b in qWork + vWork + forcesWork
        ensures b in qWork + vWork + aWork + forcesWork + Multipliers(indexSet2)
      {
      }
      assert rtol in [rtol, atol, rwork] && atol in [rtol, atol, rwork];
      DistinctSplit(qWork + vWork, aWork);
      if trace.Some? {
        FillState(trace.value.q, trace.value.v);
        if trace.value.forces.Some? {
          label filled:
          Scatter(forcesWork, trace.value.forces.value);
          ContentsKept@filled(qWork);
          ContentsKept@filled(vWork);
        }
      }
      ContentsKept@start(aWork);
      ContentsKept@start(Multipliers(indexSet2));
    }

    /** What HEM5 hands back through its arguments: the step size guess, idid and, with constraints, the multipliers. */
    method Record(ret: Hem5Return, ghost indexSet2: seq<Interaction>)
      requires Valid()
      modifies this`timeStep, this`idid, this`lambdaTmp
      ensures timeStep == ret.h && idid == ret.idid
      ensures lambdaTmp == if intData[Nl] == 0 then old(lambdaTmp) else ret.xl
      ensures Snapshot(indexSet2) == old(Snapshot(indexSet2))
    {
      timeStep := ret.h;
      idid := ret.idid;
      if intData[Nl] != 0 {
        lambdaTmp := ret.xl;
      }
    }

    /**
     * rwork and iwork receive in place what HEM5 left in them.  rwork is none
     * of the blocks and iwork holds integers, so the blocks keep their contents.
     */
    method StoreWork(ret: Hem5Return, ghost indexSet2: seq<Interaction>)
      requires |ret.rwork| == rwork.Length && |ret.iwork| == iwork.Length
      requires Apart([rtol, atol, rwork], qWork + vWork + aWork + forcesWork + Multipliers(indexSet2))
      requires intData != iwork && rwork != rtol && rwork != atol
      modifies rwork, iwork
      ensures rwork[..] == ret.rwork && iwork[..] == ret.iwork
      ensures intData[..] == old(intData[..]) && rtol[..] == old(rtol[..]) && atol[..] == old(atol[..])
      ensures Snapshot(indexSet2) == old(Snapshot(indexSet2))
    {
      label start:
      StoreReals(rwork, ret.rwork);
      StoreInts(iwork, ret.iwork);
      assert rwork in [rtol, atol, rwork];
      assert forall b :: b in qWork ==> b in qWork + vWork + aWork + forcesWork + Multipliers(indexSet2);
      assert forall b :: b in vWork ==> b in qWork + vWork + aWork + forcesWork + Multipliers(indexSet2);
      assert forall b :: b in aWork ==> b in qWork + vWork + aWork + forcesWork + Multipliers(indexSet2);
      assert forall b :: b in forcesWork ==> b in qWork + vWork + aWork + forcesWork + Multipliers(indexSet2);
      assert forall b :: b in Multipliers(indexSet2) ==> b in qWork + vWork + aWork + forcesWork + Multipliers(indexSet2);
      ContentsKept@start(qWork);
      ContentsKept@start(vWork);
      ContentsKept@start(aWork);
      ContentsKept@start(forcesWork);
      ContentsKept@start(Multipliers(indexSet2));
    }

    /** The integrated positions, velocities and accelerations go back into the systems' blocks. */
    method StoreState(q: Vec, v: Vec, a: Vec)
      requires Distinct(qWork + vWork + aWork)
      requires |q| == Sum(Sizes(qWork)) && |v| == Sum(Sizes(vWork)) && |a| == Sum(Sizes(aWork))
      modifies set b | b in qWork + vWork + aWork
      ensures Contents(qWork) == Split(q, Sizes(qWork))
      ensures Contents(vWork) == Split(v, Sizes(vWork))
      ensures Contents(aWork) == Split(a, Sizes(aWork))
    {
      DistinctSplit(qWork + vWork, aWork);
      DistinctSplit(qWork, vWork);
      assert forall x :: x in qWork ==> x in qWork + vWork;
      assert forall x :: x in vWork ==> x in qWork + vWork;
      Scatter(qWork, q);
      label scatteredQ:
      Scatter(vWork, v);
      ContentsKept@scatteredQ(qWork);
      label scatteredV:
      Scatter(aWork, a);
      ContentsKept@scatteredV(qWork);
      ContentsKept@scatteredV(vWork);
    }

    /** After a successful call: the state goes back into the blocks and the multipliers to the interactions. */
    method Accept(ret: Hem5Return, indexSet2: seq<Interaction>)
      requires Distinct(qWork + vWork + aWork) && MultipliersFit(indexSet2)
      requires Apart(Multipliers(indexSet2), qWork + vWork + aWork)
      requires |ret.q| == Sum(Sizes(qWork)) && |ret.v| == Sum(Sizes(vWork)) && |ret.a| == Sum(Sizes(aWork))
      requires lambdaTmp.Some? && |lambdaTmp.value| == |indexSet2|
      modifies (set b | b in qWork + vWork + aWork), set b | b in Multipliers(indexSet2)
      ensures Contents(qWork) == Split(ret.q, Sizes(qWork))
      ensures Contents(vWork) == Split(ret.v, Sizes(vWork))
      ensures Contents(aWork) == Split(ret.a, Sizes(aWork))
      ensures forall k :: 0 <= k < |indexSet2| ==>
        indexSet2[k].lambda2[..] == old(indexSet2[k].lambda2[..])[0 := lambdaTmp.value[k]]
    {
      StoreState(ret.q, ret.v, ret.a);
      assert forall x :: x in qWork ==> x in qWork + vWork + aWork;
      assert forall x :: x in vWork ==> x in qWork + vWork + aWork;
      assert forall x :: x in aWork ==> x in qWork + vWork + aWork;
      forall k | 0 <= k < |indexSet2|
        ensures indexSet2[k].lambda2[..] == old(indexSet2[k].lambda2[..])
      {
        assert Multipliers(indexSet2)[k] == indexSet2[k].lambda2;
      }
      label stored:
      StoreMultipliers(indexSet2, lambdaTmp.value);
      ContentsKept@stored(qWork);
      ContentsKept@stored(vWork);
      ContentsKept@stored(aWork);
    }

    /**
     * The part of integrate before the HEM5 call: the parameters and work
     * spaces are set up afresh and the block vectors are read out into the
     * call, which is given back as a ghost result.  No block and no
     * multiplier changes, and the new arrays are none of them.  Begin and
     * Run are the two halves of Integrate, split to keep each proof small;
     * neither is a separate step of the source.
     */
    method Begin(tinit: real, tend: real, indexSet2: seq<Interaction>, machinePrec: real,
                 rtolDefault: real, atolDefault: real)
      returns (ghost call: Hem5Call)
      requires Valid() && Sum(Sizes(qWork)) > 0
      modifies intData, this`lambdaTmp, this`rtol, this`atol, this`iwork, this`rwork
      ensures Prepared(|indexSet2|, machinePrec, rtolDefault, atolDefault)
      ensures lambdaTmp.Some? && |lambdaTmp.value| == |indexSet2|
      ensures call == Call(tinit, tend)
      ensures PreparedWork(intData[Lwk], intData[Liwk], machinePrec, call.rwork, call.iwork)
      ensures call == CallWith(tinit, tend, old(Concat(Contents(qWork))), old(Concat(Contents(vWork))),
                               old(Concat(Contents(aWork))), call.xl, timeStep, call.rwork, call.iwork)
      ensures |call.q| == Sum(Sizes(qWork)) && |call.v| == Sum(Sizes(vWork)) && |call.a| == Sum(Sizes(aWork))
      ensures call.xl.Some? <==> |indexSet2| > 0
      ensures call.xl.Some? ==> ResizedFrom(old(lambdaTmp), |indexSet2|, call.xl.value)
      ensures timeStep == old(timeStep) && qWork == old(qWork) && vWork == old(vWork) && aWork == old(aWork)
      ensures forcesWork == old(forcesWork)
      ensures Snapshot(indexSet2) == old(Snapshot(indexSet2))
      ensures Apart([rtol, atol, rwork], qWork + vWork + aWork + forcesWork + Multipliers(indexSet2))
      ensures rwork != rtol && rwork != atol && fresh(rwork) && fresh(iwork)
    {
      label start:
      PrepareKeepingBlocks(indexSet2, machinePrec, rtolDefault, atolDefault);
      FreshApart@start([rtol, atol, rwork], qWork + vWork + aWork + forcesWork + Multipliers(indexSet2));
      ConcatSize(qWork);
      ConcatSize(vWork);
      ConcatSize(aWork);
      call := Call(tinit, tend);
    }

    /** Prepare touches neither the blocks nor the multipliers.  A proof step of Begin. */
    method PrepareKeepingBlocks(indexSet2: seq<Interaction>, machinePrec: real, rtolDefault: real, atolDefault: real)
      requires Valid() && Sum(Sizes(qWork)) > 0
      modifies intData, this`lambdaTmp, this`rtol, this`atol, this`iwork, this`rwork
      ensures Prepared(|indexSet2|, machinePrec, rtolDefault, atolDefault)
      ensures fresh(rtol) && fresh(atol) && fresh(rwork) && fresh(iwork) && rwork != rtol && rwork != atol
      ensures lambdaTmp.Some? && ResizedFrom(old(lambdaTmp), |indexSet2|, lambdaTmp.value)
      ensures timeStep == old(timeStep) && qWork == old(qWork) && vWork == old(vWork) && aWork == old(aWork)
      ensures forcesWork == old(forcesWork)
      ensures Snapshot(indexSet2) == old(Snapshot(indexSet2))
    {
      label start:
      Prepare(indexSet2, machinePrec, rtolDefault, atolDefault);
      ContentsKept@start(qWork);
      ContentsKept@start(vWork);
      ContentsKept@start(aWork);
      ContentsKept@start(forcesWork);
      ContentsKept@start(Multipliers(indexSet2));
    }

    /** What the position, velocity, acceleration and force blocks and the interactions' multiplier vectors hold. */
    ghost function Snapshot(indexSet2: seq<Interaction>): (b: Blocks)
      reads this`qWork, this`vWork, this`aWork, this`forcesWork
      reads (set b | b in qWork + vWork + aWork), (set b | b in forcesWork), set b | b in Multipliers(indexSet2)
      ensures Lengths(b.q) == Sizes(qWork) && Lengths(b.v) == Sizes(vWork) && Lengths(b.a) == Sizes(aWork)
      ensures Lengths(b.forces) == Sizes(forcesWork)
      ensures |b.lambdas| == |indexSet2| && forall k :: 0 <= k < |indexSet2| ==> |b.lambdas[k]| == indexSet2[k].lambda2.Length
    {
      Blocks(Contents(qWork), Contents(vWork), Contents(aWork), Contents(forcesWork), Contents(Multipliers(indexSet2)))
    }

    /**
     * The part of integrate after the HEM5 call: the blocks hold what fprob
     * wrote into them during the call, and rwork and iwork what HEM5 left in
     * them, whatever idid says.  A negative idid is an error raised before
     * the copy-back; otherwise the result is accepted and the reached time
     * and HEM5's tend are returned.
     */
    method Conclude(ret: Hem5Return, indexSet2: seq<Interaction>, ghost before: Blocks) returns (r: Result<Step, Hem5Error>)
      requires TraceFits(ret.fprob, before) && Snapshot(indexSet2) == before
      requires Distinct(qWork + vWork + aWork) && MultipliersFit(indexSet2)
      requires Apart(Multipliers(indexSet2), qWork + vWork + aWork)
      requires Distinct(forcesWork) && Apart(forcesWork, qWork + vWork + aWork + Multipliers(indexSet2))
      requires |ret.q| == Sum(Sizes(qWork)) && |ret.v| == Sum(Sizes(vWork)) && |ret.a| == Sum(Sizes(aWork))
      requires lambdaTmp.Some? && |lambdaTmp.value| == |indexSet2|
      requires |indexSet2| > 0 ==> lambdaTmp == ret.xl
      requires Apart([rtol, atol, rwork], qWork + vWork + aWork + forcesWork + Multipliers(indexSet2))
      requires |ret.rwork| == rwork.Length && |ret.iwork| == iwork.Length
      requires intData != iwork && rwork != rtol && rwork != atol
      modifies rwork, iwork, (set b | b in qWork + vWork + aWork), (set b | b in forcesWork), set b | b in Multipliers(indexSet2)
      ensures rwork[..] == ret.rwork && iwork[..] == ret.iwork
      ensures intData[..] == old(intData[..]) && rtol[..] == old(rtol[..]) && atol[..] == old(atol[..])
      ensures Returned(r, ret, before, Snapshot(indexSet2))
    {
      Called(ret.fprob, indexSet2);
      StoreWork(ret, indexSet2);
      r := Settle(ret, indexSet2, before);
    }

    /**
     * Conclude once the work arrays are stored: the idid test and what
     * follows it.  A proof step of Conclude, which stands for no separate
     * step of the source.
     */
    method Settle(ret: Hem5Return, indexSet2: seq<Interaction>, ghost before: Blocks) returns (r: Result<Step, Hem5Error>)
      requires TraceFits(ret.fprob, before) && Snapshot(indexSet2) == AfterFprob(ret.fprob, before)
      requires Distinct(qWork + vWork + aWork) && MultipliersFit(indexSet2)
      requires Apart(Multipliers(indexSet2), qWork + vWork + aWork)
      requires Distinct(forcesWork) && Apart(forcesWork, qWork + vWork + aWork + Multipliers(indexSet2))
      requires |ret.q| == Sum(Sizes(qWork)) && |ret.v| == Sum(Sizes(vWork)) && |ret.a| == Sum(Sizes(aWork))
      requires lambdaTmp.Some? && |lambdaTmp.value| == |indexSet2|
      requires |indexSet2| > 0 ==> lambdaTmp == ret.xl
      requires Apart([rtol, atol, rwork], qWork + vWork + aWork + forcesWork + Multipliers(indexSet2))
      modifies (set b | b in qWork + vWork + aWork), set b | b in Multipliers(indexSet2)
      ensures intData[..] == old(intData[..]) && rtol[..] == old(rtol[..]) && atol[..] == old(atol[..])
      ensures rwork[..] == old(rwork[..]) && iwork[..] == old(iwork[..])
      ensures Returned(r, ret, before, Snapshot(indexSet2))
    {
      if ret.idid < 0 {
        r := Failure(IntegrationFailed(ret.idid));
        return;
      }
      AcceptKeepingWork(ret, indexSet2);
      SuccessReturned(ret, before, Snapshot(indexSet2), lambdaTmp.value);
      r := Success(Step(ret.t, ret.tend));
    }

    /**
     * Accept, seen through the blocks' contents; the parameter and work
     * arrays are none of the blocks.  A proof step of Settle.
     */
    method AcceptKeepingWork(ret: Hem5Return, indexSet2: seq<Interaction>)
      requires Distinct(qWork + vWork + aWork) && MultipliersFit(indexSet2)
      requires Apart(Multipliers(indexSet2), qWork + vWork + aWork)
      requires Distinct(forcesWork) && Apart(forcesWork, qWork + vWork + aWork + Multipliers(indexSet2))
      requires |ret.q| == Sum(Sizes(qWork)) && |ret.v| == Sum(Sizes(vWork)) && |ret.a| == Sum(Sizes(aWork))
      requires lambdaTmp.Some? && |lambdaTmp.value| == |indexSet2|
      requires Apart([rtol, atol, rwork], qWork + vWork + aWork + forcesWork + Multipliers(indexSet2))
      modifies (set b | b in qWork + vWork + aWork), set b | b in Multipliers(indexSet2)
      ensures intData[..] == old(intData[..]) && rtol[..] == old(rtol[..]) && atol[..] == old(atol[..])
      ensures rwork[..] == old(rwork[..]) && iwork[..] == old(iwork[..])
      ensures Contents(qWork) == Split(ret.q, Sizes(qWork))
      ensures Contents(vWork) == Split(ret.v, Sizes(vWork))
      ensures Contents(aWork) == Split(ret.a, Sizes(aWork))
      ensures Contents(forcesWork) == old(Contents(forcesWork))
      ensures forall k :: 0 <= k < |indexSet2| ==>
        Contents(Multipliers(indexSet2))[k] == old(Contents(Multipliers(indexSet2)))[k][0 := lambdaTmp.value[k]]
    {
      assert rtol in [rtol, atol, rwork] && atol in [rtol, atol, rwork] && rwork in [rtol, atol, rwork];
      forall b | b in qWork + vWork + aWork
        ensures b in qWork + vWork + aWork + forcesWork + Multipliers(indexSet2)
      {
      }
      forall b | b in Multipliers(indexSet2)
        ensures b in qWork + vWork + aWork + forcesWork + Multipliers(indexSet2)
      {
      }
      forall b | b in forcesWork
        ensures b in qWork + vWork + aWork + forcesWork + Multipliers(indexSet2)
      {
      }
      label start:
      Accept(ret, indexSet2);
      ContentsKept@start(forcesWork);
      forall k | 0 <= k < |indexSet2|
        ensures Contents(Multipliers(indexSet2))[k] == old(Contents(Multipliers(indexSet2)))[k][0 := lambdaTmp.value[k]]
      {
        assert Multipliers(indexSet2)[k] == indexSet2[k].lambda2;
      }
    }

    /**
     * The HEM5 call of integrate and what follows it, on the prepared state:
     * the solver receives the call the current state makes, the blocks and
     * the work arrays receive what it and its fprob callbacks left in them,
     * and the result is concluded.  The
     * parameters and tolerances, which HEM5 only reads, stay as they are.
     * The second half of Integrate (see Begin).
     */
    method Run(tinit: real, tend: real, indexSet2: seq<Interaction>, solver: Hem5Solver, ghost before: Blocks)
      returns (r: Result<Step, Hem5Error>, ghost call: Hem5Call)
      requires Valid() && intData[Nl] == |indexSet2| && Snapshot(indexSet2) == before
      requires lambdaTmp.Some? && |lambdaTmp.value| == |indexSet2|
      requires Distinct(qWork + vWork + aWork) && MultipliersFit(indexSet2)
      requires Apart(Multipliers(indexSet2), qWork + vWork + aWork)
      requires Distinct(forcesWork) && Apart(forcesWork, qWork + vWork + aWork + Multipliers(indexSet2))
      requires Apart([rtol, atol, rwork], qWork + vWork + aWork + forcesWork + Multipliers(indexSet2))
      requires rwork != rtol && rwork != atol
      modifies this`timeStep, this`idid, this`lambdaTmp, rwork, iwork
      modifies (set b | b in qWork + vWork + aWork), (set b | b in forcesWork), set b | b in Multipliers(indexSet2)
      ensures intData[..] == old(intData[..]) && rtol[..] == old(rtol[..]) && atol[..] == old(atol[..])
      ensures call == old(Call(tinit, tend))
      ensures rwork[..] == solver(call).rwork && iwork[..] == solver(call).iwork
      ensures timeStep == solver(call).h && idid == solver(call).idid
      ensures Returned(r, solver(call), before, Snapshot(indexSet2))
    {
      var ret;
      ret, call := LaunchAndRecord(tinit, tend, indexSet2, solver, before);
      r := Conclude(ret, indexSet2, before);
    }

    /**
     * The HEM5 call itself and what integrate records from it before looking
     * at idid: the step size guess, idid and the multipliers.  A proof step
     * of Run, which stands for no separate step of the source.
     */
    method LaunchAndRecord(tinit: real, tend: real, indexSet2: seq<Interaction>, solver: Hem5Solver, ghost before: Blocks)
      returns (ret: Hem5Return, ghost call: Hem5Call)
      requires Valid() && intData[Nl] == |indexSet2| && Snapshot(indexSet2) == before
      requires lambdaTmp.Some? && |lambdaTmp.value| == |indexSet2|
      modifies this`timeStep, this`idid, this`lambdaTmp
      ensures call == old(Call(tinit, tend)) && ret == solver(call)
      ensures |ret.q| == Sum(Sizes(qWork)) && |ret.v| == Sum(Sizes(vWork)) && |ret.a| == Sum(Sizes(aWork))
      ensures timeStep == ret.h && idid == ret.idid
      ensures lambdaTmp.Some? && |lambdaTmp.value| == |indexSet2| && (|indexSet2| > 0 ==> lambdaTmp == ret.xl)
      ensures |ret.rwork| == rwork.Length && |ret.iwork| == iwork.Length
      ensures TraceFits(ret.fprob, before) && Snapshot(indexSet2) == before
    {
      call := Call(tinit, tend);
      ret := Launch(tinit, tend, solver, indexSet2);
      Record(ret, indexSet2);
    }

    /**
     * integrate: one HEM5 call from tinit towards tend.  The parameters and
     * work spaces are set up afresh, the solver receives them with the block
     * vectors read out, the work arrays keep what it left in them, and the
     * blocks hold what it returns and what fprob wrote during the call, as
     * Returned says.  The call is given back as a ghost result.
     */
    method Integrate(tinit: real, tend: real, indexSet2: seq<Interaction>, machinePrec: real,
                     rtolDefault: real, atolDefault: real, solver: Hem5Solver)
      returns (r: Result<Step, Hem5Error>, ghost call: Hem5Call)
      requires Valid() && Sum(Sizes(qWork)) > 0 && Distinct(qWork + vWork + aWork)
      requires MultipliersFit(indexSet2) && Apart(Multipliers(indexSet2), qWork + vWork + aWork)
      requires Distinct(forcesWork) && Apart(forcesWork, qWork + vWork + aWork + Multipliers(indexSet2))
      modifies intData, this`lambdaTmp, this`rtol, this`atol, this`iwork, this`rwork, this`timeStep, this`idid
      modifies (set b | b in qWork + vWork + aWork), (set b | b in forcesWork), set b | b in Multipliers(indexSet2)
      ensures PreparedParams(|indexSet2|, rtolDefault, atolDefault)
      ensures PreparedWork(intData[Lwk], intData[Liwk], machinePrec, call.rwork, call.iwork)
      ensures rwork[..] == solver(call).rwork && iwork[..] == solver(call).iwork
      ensures call == CallWith(tinit, tend, old(Concat(Contents(qWork))), old(Concat(Contents(vWork))),
                               old(Concat(Contents(aWork))), call.xl, old(timeStep), call.rwork, call.iwork)
      ensures |call.q| == Sum(Sizes(qWork)) && |call.v| == Sum(Sizes(vWork)) && |call.a| == Sum(Sizes(aWork))
      ensures call.xl.Some? <==> |indexSet2| > 0
      ensures call.xl.Some? ==> ResizedFrom(old(lambdaTmp), |indexSet2|, call.xl.value)
      ensures timeStep == solver(call).h && idid == solver(call).idid
      ensures Returned(r, solver(call), old(Snapshot(indexSet2)), Snapshot(indexSet2))
    {
      call := Begin(tinit, tend, indexSet2, machinePrec, rtolDefault, atolDefault);
      ghost var made;
      r, made := Run(tinit, tend, indexSet2, solver, old(Snapshot(indexSet2)));
      assert made == call;
    }
  }
}
