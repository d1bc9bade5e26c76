/**
 * The Moreau–Jean θ-scheme one-step integrator in its global (velocity)
 * formulation: the iteration matrix W of each dynamical system, the
 * elimination of prescribed velocities from W, the free and corrected
 * velocities, the θ-blended position update, the residual reduction and the
 * impact law's effect on the free output.
 */
module MoreauJeanGOSI {
  import opened Wrappers
  import opened LinAlg

  /** A double that may be NaN, the constructor's marker for "no γ given". */
  datatype Double = NaN | Num(value: real)

  /** The dynamical system types the integrator tells apart. */
  datatype DsType = LagrangianDS | LagrangianLinearTIDS | NewtonEulerDS | OtherDsType

  datatype OsiError =
    | NullSystem              // the system or its graph descriptor is null
    | NotHandledByThisOsi     // the system does not belong to the integrator
    | WAlreadyInitialized     // W of the system is already in the graph
    | WBoundaryConditionsAlreadyInitialized
    | UnsupportedSystemType
    | UnhandledNonSmoothLaw   // a law the restitution visitor has no case for

  datatype Status = Ok | Raised(error: OsiError)

  /** Prescribed velocity components: indices into v and the values imposed on them. */
  datatype BoundaryConditions = BoundaryConditions(velocityIndices: seq<nat>, prescribedVelocity: Vec)

  /** The forces of a Lagrangian or Newton–Euler system: at the step start, and at (t, q, v). */
  datatype Forces = Forces(memory: Vec, current: Vec)

  /** The external force of a linear time-invariant system at the start and at the end of the step. */
  datatype ExternalForce = ExternalForce(atStart: Vec, atEnd: Vec)

  ghost predicate BCValid(bc: BoundaryConditions, dim: nat) {
    |bc.prescribedVelocity| == |bc.velocityIndices|
    && forall c :: 0 <= c < |bc.velocityIndices| ==> bc.velocityIndices[c] < dim
  }

  ghost predicate Distinct(idx: seq<nat>) {
    forall a, b :: 0 <= a < b < |idx| ==> idx[a] != idx[b]
  }

  /**
   * The state of one dynamical system as the integrator reads and writes it:
   * its vectors, its operators (plugins already evaluated), its two workspaces,
   * and the W and WBoundaryConditions entries the integrator keeps for it.
   */
  class DynamicalSystem {
    const kind: DsType
    const dim: nat            // size of the velocity
    const qDim: nat           // size of the position (dim for Lagrangian systems)
    var q: Vec
    var v: Vec
    var qMemory: Vec          // q at the start of the step
    var vMemory: Vec          // v at the start of the step
    var mass: Mat
    var C: Option<Mat>        // velocity Jacobian of the forces, or the damping matrix
    var K: Option<Mat>        // position Jacobian of the forces, or the stiffness matrix
    var T: Mat                // Newton–Euler map from velocity to dq/dt
    var forces: Option<Forces>
    var fExt: Option<ExternalForce>
    var p: seq<Option<Vec>>   // p(level), possibly absent
    var free: Vec             // workspace "free"
    var freeResidu: Vec       // workspace "freeresidu"
    var bc: Option<BoundaryConditions>
    var W: Option<Mat>
    var WBC: Option<seq<Vec>> // the saved columns of W, one per prescribed index
    var reactionToBC: Vec

    ghost predicate Valid()
      reads this
    {
      StateShape() && OperatorShape() && WorkspaceShape() && IterationShape() && ReactionShape()
    }

    /** Sizes of the position and velocity and of their values at the start of the step. */
    ghost predicate StateShape()
      reads this`q, this`v, this`qMemory, this`vMemory
    {
      (kind == LagrangianDS || kind == LagrangianLinearTIDS ==> qDim == dim)
      && |q| == qDim && |qMemory| == qDim && |v| == dim && |vMemory| == dim
    }

    /** Sizes of the operators, the forces and the impulses. */
    ghost predicate OperatorShape()
      reads this`mass, this`C, this`K, this`T, this`forces, this`fExt, this`p
    {
      IsMat(mass, dim, dim)
      && (C.Some? ==> IsMat(C.value, dim, dim))
      && (K.Some? ==> IsMat(K.value, dim, qDim))
      && IsMat(T, qDim, dim)
      && (forces.Some? ==> |forces.value.memory| == dim && |forces.value.current| == dim)
      && (fExt.Some? ==> |fExt.value.atStart| == dim && |fExt.value.atEnd| == dim)
      && (forall l :: 0 <= l < |p| && p[l].Some? ==> |p[l].value| == dim)
    }

    ghost predicate WorkspaceShape()
      reads this`free, this`freeResidu
    {
      |free| == dim && |freeResidu| == dim
    }

    /** Sizes of W and of the saved columns, one per prescribed index. */
    ghost predicate IterationShape()
      reads this`bc, this`W, this`WBC
    {
      (bc.Some? ==> BCValid(bc.value, dim))
      && (W.Some? ==> IsMat(W.value, dim, dim))
      && (WBC.Some? ==> bc.Some? && |WBC.value| == |bc.value.velocityIndices|
                        && forall c :: 0 <= c < |WBC.value| ==> |WBC.value[c]| == dim)
    }

    ghost predicate ReactionShape()
      reads this`bc, this`reactionToBC
    {
      bc.Some? ==> |reactionToBC| == |bc.value.velocityIndices|
    }

    /** What computeResidu needs of a system: valid, with p(1) slot and saved columns for its conditions. */
    ghost predicate ReadyForResidu()
      reads this
    {
      Valid() && Residuable()
    }

    /** The shapes computeResidu's results depend on, with the p(1) slot and the saved columns present. */
    ghost predicate Residuable()
      reads this`q, this`v, this`qMemory, this`vMemory, this`mass, this`C, this`K, this`T, this`forces, this`fExt, this`p
      reads this`bc, this`W, this`WBC
    {
      StateShape() && OperatorShape() && IterationShape() && 1 < |p| && (bc.Some? ==> WBC.Some?)
    }
  }

  // ---------------------------------------------------------------------------
  // Iteration matrices

  /** W1 + k·X when the optional matrix X is present, W1 otherwise. */
  function AddScaled(W1: Mat, k: real, X: Option<Mat>, n: nat): (r: Mat)
    requires IsMat(W1, n, n)
    requires X.Some? ==> IsMat(X.value, n, n)
    ensures IsMat(r, n, n)
    ensures forall i, j :: 0 <= i < n && 0 <= j < n ==> r[i][j] == W1[i][j] + k * EntryOr0(X, i, j)
  {
    if X.Some? then MatAdd(W1, MatScale(k, X.value)) else W1
  }

  /** W of a nonlinear Lagrangian system: M − hθ·C − h²θ²·K. */
  function LagrangianW(M: Mat, C: Option<Mat>, K: Option<Mat>, h: real, theta: real, n: nat): (W: Mat)
    requires IsMat(M, n, n)
    requires C.Some? ==> IsMat(C.value, n, n)
    requires K.Some? ==> IsMat(K.value, n, n)
    ensures IsMat(W, n, n)
    ensures forall i, j :: 0 <= i < n && 0 <= j < n ==>
      W[i][j] == M[i][j] - h * theta * EntryOr0(C, i, j) - h * h * theta * theta * EntryOr0(K, i, j)
  {
    AddScaled(AddScaled(M, -h * theta, C, n), -h * h * theta * theta, K, n)
  }

  /** W of a linear time-invariant Lagrangian system: M + hθ·C + h²θ²·K. */
  function LinearTIDSW(M: Mat, C: Option<Mat>, K: Option<Mat>, h: real, theta: real, n: nat): (W: Mat)
    requires IsMat(M, n, n)
    requires C.Some? ==> IsMat(C.value, n, n)
    requires K.Some? ==> IsMat(K.value, n, n)
    ensures IsMat(W, n, n)
    ensures forall i, j :: 0 <= i < n && 0 <= j < n ==>
      W[i][j] == M[i][j] + h * theta * EntryOr0(C, i, j) + h * h * theta * theta * EntryOr0(K, i, j)
  {
    AddScaled(AddScaled(M, h * theta, C, n), h * h * theta * theta, K, n)
  }

  /** The product K·T of a Newton–Euler system's stiffness with its velocity-to-position operator, when K is present. */
  function StiffnessTimesT(K: Option<Mat>, T: Mat, n: nat, nq: nat): (KT: Option<Mat>)
    requires IsMat(T, nq, n)
    requires K.Some? ==> IsMat(K.value, n, nq)
    ensures KT.Some? == K.Some?
    ensures KT.Some? ==> IsMat(KT.value, n, n)
    ensures KT.Some? ==> forall i, j :: 0 <= i < n && 0 <= j < n ==> KT.value[i][j] == Dot(K.value[i], Column(T, j))
  {
    if K.Some? then Some(MatMul(K.value, T, n)) else None
  }

  /** W of a Newton–Euler system: M − hθ·C − h²θ²·(K·T). */
  function NewtonEulerW(M: Mat, C: Option<Mat>, K: Option<Mat>, T: Mat, h: real, theta: real, n: nat, nq: nat): (W: Mat)
    requires IsMat(M, n, n) && IsMat(T, nq, n)
    requires C.Some? ==> IsMat(C.value, n, n)
    requires K.Some? ==> IsMat(K.value, n, nq)
    ensures IsMat(W, n, n)
    ensures forall i, j :: 0 <= i < n && 0 <= j < n ==>
      W[i][j] == M[i][j] - h * theta * EntryOr0(C, i, j) - h * h * theta * theta * EntryOr0(StiffnessTimesT(K, T, n, nq), i, j)
  {
    AddScaled(AddScaled(M, -h * theta, C, n), -h * h * theta * theta, StiffnessTimesT(K, T, n, nq), n)
  }

  // ---------------------------------------------------------------------------
  // Elimination of prescribed velocities from W

  ghost predicate IndicesBelow(idx: seq<nat>, n: nat) {
    forall c :: 0 <= c < |idx| ==> idx[c] < n
  }

  /** W with column k replaced by col. */
  function SetColumn(W: Mat, k: nat, col: Vec): (r: Mat)
    requires IsMat(W, |W|, |W|) && k < |W| && |col| == |W|
    ensures IsMat(r, |W|, |W|)
    ensures forall i, j :: 0 <= i < |W| && 0 <= j < |W| ==> r[i][j] == if j == k then col[i] else W[i][j]
  {
    seq(|W|, i requires 0 <= i < |W| => W[i][k := col[i]])
  }

  /** The step for one prescribed index k: column k of W is kept aside, then row and column k become diag·e_k. */
  function ClearRowColumn(W: Mat, k: nat): (r: Mat)
    requires IsMat(W, |W|, |W|) && k < |W|
    ensures IsMat(r, |W|, |W|)
  {
    var col := Zeros(|W|)[k := W[k][k]];
    SetColumn(W, k, col)[k := col]
  }

  /** W after the prescribed indices idx have been processed in order. */
  function Eliminated(W: Mat, idx: seq<nat>): (r: Mat)
    requires IsMat(W, |W|, |W|) && IndicesBelow(idx, |W|)
    ensures IsMat(r, |W|, |W|)
    decreases |idx|
  {
    if idx == [] then W else ClearRowColumn(Eliminated(W, idx[..|idx| - 1]), idx[|idx| - 1])
  }

  /** The columns saved into WBoundaryConditions: column idx[c] of W as it stood when idx[c] was reached. */
  function SavedColumns(W: Mat, idx: seq<nat>): (r: seq<Vec>)
    requires IsMat(W, |W|, |W|) && IndicesBelow(idx, |W|)
    ensures |r| == |idx| && forall c :: 0 <= c < |idx| ==> |r[c]| == |W|
  {
    seq(|idx|, c requires 0 <= c < |idx| => Column(Eliminated(W, idx[..c]), idx[c]))
  }

  /** Processing one more prescribed index is one more ClearRowColumn; the column saved is the current one. */
  lemma EliminatedStep(W: Mat, idx: seq<nat>, c: nat)
    requires IsMat(W, |W|, |W|) && IndicesBelow(idx, |W|) && c < |idx|
    ensures Eliminated(W, idx[..c + 1]) == ClearRowColumn(Eliminated(W, idx[..c]), idx[c])
    ensures SavedColumns(W, idx)[c] == Column(Eliminated(W, idx[..c]), idx[c])
  {
    var pre := idx[..c + 1];
    assert IndicesBelow(pre, |W|) && IndicesBelow(idx[..c], |W|);
    assert pre[..|pre| - 1] == idx[..c] && pre[|pre| - 1] == idx[c];
  }

  /**
   * The loop of computeWBoundaryConditions on W and the preallocated WBC:
   * every column of WBC is overwritten, in order.
   */
  method EliminatePrescribed(W0: Mat, idx: seq<nat>, wbc0: seq<Vec>) returns (W: Mat, wbc: seq<Vec>)
    requires IsMat(W0, |W0|, |W0|) && IndicesBelow(idx, |W0|)
    requires |wbc0| == |idx| && forall c :: 0 <= c < |idx| ==> |wbc0[c]| == |W0|
    ensures W == Eliminated(W0, idx) && wbc == SavedColumns(W0, idx)
  {
    var n := |W0|;
    W := W0;
    wbc := wbc0;
    var columnindex := 0;
    while columnindex < |idx|
      invariant 0 <= columnindex <= |idx|
      invariant IsMat(W, n, n) && W == Eliminated(W0, idx[..columnindex])
      invariant |wbc| == |idx| && forall c :: 0 <= c < |idx| ==> |wbc[c]| == n
      invariant forall c :: 0 <= c < columnindex ==> wbc[c] == SavedColumns(W0, idx)[c]
    {
      var k := idx[columnindex];
      var columntmp := Column(W, k);
      wbc := wbc[columnindex := columntmp];
      var diag := columntmp[k];
      columntmp := Zeros(n)[k := diag];
      ghost var before := W;
      W := SetColumn(W, k, columntmp);
      W := W[k := columntmp];
      assert W == ClearRowColumn(before, k);
      EliminatedStep(W0, idx, columnindex);
      columnindex := columnindex + 1;
    }
    assert idx[..|idx|] == idx;
    assert wbc == SavedColumns(W0, idx);
  }

  /** One step zeroes row and column k except the diagonal and changes nothing else. */
  lemma ClearRowColumnEntries(W: Mat, k: nat, i: nat, j: nat)
    requires IsMat(W, |W|, |W|) && k < |W| && i < |W| && j < |W|
    ensures ClearRowColumn(W, k)[i][j] == if (i == k || j == k) && i != j then 0.0 else W[i][j]
  {
  }

  /**
   * Closed form of the elimination: an off-diagonal entry in a prescribed row
   * or column is zero, every other entry (the diagonal included) keeps its value.
   */
  lemma {:induction false} EliminatedEntries(W: Mat, idx: seq<nat>, i: nat, j: nat)
    requires IsMat(W, |W|, |W|) && IndicesBelow(idx, |W|) && i < |W| && j < |W|
    ensures Eliminated(W, idx)[i][j] == if i != j && (i in idx || j in idx) then 0.0 else W[i][j]
    decreases |idx|
  {
    if idx != [] {
      var init, k := idx[..|idx| - 1], idx[|idx| - 1];
      assert idx == init + [k];
      EliminatedEntries(W, init, i, j);
      ClearRowColumnEntries(Eliminated(W, init), k, i, j);
    }
  }

  /** Saved column c holds the original column idx[c], zeroed at the rows already eliminated. */
  lemma SavedColumnEntries(W: Mat, idx: seq<nat>, c: nat, i: nat)
    requires IsMat(W, |W|, |W|) && IndicesBelow(idx, |W|) && c < |idx| && i < |W|
    ensures SavedColumns(W, idx)[c][i] ==
      if i != idx[c] && (i in idx[..c] || idx[c] in idx[..c]) then 0.0 else W[i][idx[c]]
  {
    EliminatedEntries(W, idx[..c], i, idx[c]);
  }

  /** A column saved later has a zero at every row prescribed earlier. */
  lemma LaterSavedColumnZeroAtEarlierRow(W: Mat, idx: seq<nat>, earlier: nat, later: nat)
    requires IsMat(W, |W|, |W|) && IndicesBelow(idx, |W|)
    requires earlier < later < |idx| && idx[earlier] != idx[later]
    ensures SavedColumns(W, idx)[later][idx[earlier]] == 0.0
  {
    assert idx[..later][earlier] == idx[earlier];
    SavedColumnEntries(W, idx, later, idx[earlier]);
  }

  // ---------------------------------------------------------------------------
  // Residuals

  /** Dot(m[i], x), an absent matrix counting as zero. */
  function RowDotOr0(m: Option<Mat>, i: nat, x: Vec): real
  {
    if m.Some? && i < |m.value| && |m.value[i]| == |x| then Dot(m.value[i], x) else 0.0
  }

  /** residuFree of a nonlinear Lagrangian or Newton–Euler system: M(v − vold) − h(1−θ)·f_old − hθ·f(t, q, v). */
  function MassResidu(M: Mat, v: Vec, vold: Vec, forces: Option<Forces>, h: real, theta: real): (r: Vec)
    requires |v| == |vold| && IsMat(M, |v|, |v|)
    requires forces.Some? ==> |forces.value.memory| == |v| && |forces.value.current| == |v|
    ensures |r| == |v|
    ensures forall i :: 0 <= i < |v| ==>
      r[i] == Dot(M[i], Sub(v, vold))
              - (if forces.Some? then h * (1.0 - theta) * forces.value.memory[i] + h * theta * forces.value.current[i] else 0.0)
  {
    var r0 := MatVec(M, Sub(v, vold));
    if forces.None? then r0 else SubThetaBlend(r0, forces.value.memory, forces.value.current, h, theta)
  }

  /** r + k·(m·x), an absent matrix adding nothing. */
  function AddProduct(r: Vec, k: real, m: Option<Mat>, x: Vec): (r': Vec)
    requires m.Some? ==> IsMat(m.value, |r|, |x|)
    ensures |r'| == |r| && forall i :: 0 <= i < |r| ==> r'[i] == r[i] + k * RowDotOr0(m, i, x)
  {
    if m.Some? then Add(r, Scale(k, MatVec(m.value, x))) else r
  }

  /** residuFree of a linear time-invariant system (see LinearTIDSResiduEntries). */
  function LinearTIDSResidu(C: Option<Mat>, K: Option<Mat>, fExt: Option<ExternalForce>,
                            qold: Vec, vold: Vec, h: real, theta: real): (r: Vec)
    requires |qold| == |vold|
    requires C.Some? ==> IsMat(C.value, |vold|, |vold|)
    requires K.Some? ==> IsMat(K.value, |vold|, |vold|)
    requires fExt.Some? ==> |fExt.value.atStart| == |vold| && |fExt.value.atEnd| == |vold|
    ensures |r| == |vold|
  {
    var r1 := AddProduct(Zeros(|vold|), h, C, vold);
    var r2 := AddProduct(AddProduct(r1, h * h * theta, K, vold), h, K, qold);
    if fExt.Some? then SubThetaBlend(r2, fExt.value.atStart, fExt.value.atEnd, h, theta) else r2
  }

  /**
   * residuFree of a linear time-invariant system, component by component:
   * h·C·vold + h²θ·K·vold + h·K·qold − h(1−θ)·Fext(told) − hθ·Fext(t).
   */
  lemma LinearTIDSResiduEntries(C: Option<Mat>, K: Option<Mat>, fExt: Option<ExternalForce>,
                                qold: Vec, vold: Vec, h: real, theta: real, i: nat)
    requires |qold| == |vold| && i < |vold|
    requires C.Some? ==> IsMat(C.value, |vold|, |vold|)
    requires K.Some? ==> IsMat(K.value, |vold|, |vold|)
    requires fExt.Some? ==> |fExt.value.atStart| == |vold| && |fExt.value.atEnd| == |vold|
    ensures LinearTIDSResidu(C, K, fExt, qold, vold, h, theta)[i] ==
      h * RowDotOr0(C, i, vold) + h * h * theta * RowDotOr0(K, i, vold) + h * RowDotOr0(K, i, qold)
      - (if fExt.Some? then h * (1.0 - theta) * fExt.value.atStart[i] + h * theta * fExt.value.atEnd[i] else 0.0)
  {
    var r1 := AddProduct(Zeros(|vold|), h, C, vold);
    var r15 := AddProduct(r1, h * h * theta, K, vold);
    var r2 := AddProduct(r15, h, K, qold);
    assert r1[i] == 0.0 + h * RowDotOr0(C, i, vold);
    assert r15[i] == r1[i] + h * h * theta * RowDotOr0(K, i, vold);
    assert r2[i] == r15[i] + h * RowDotOr0(K, i, qold);
  }

  /** r − h(1−θ)·a − hθ·b. */
  function SubThetaBlend(r: Vec, a: Vec, b: Vec, h: real, theta: real): (r': Vec)
    requires |a| == |r| && |b| == |r|
    ensures |r'| == |r| && forall i :: 0 <= i < |r| ==> r'[i] == r[i] - (h * (1.0 - theta) * a[i] + h * theta * b[i])
  {
    Add(Add(r, Scale(-h * (1.0 - theta), a)), Scale(-h * theta, b))
  }

  ghost predicate BCShape(R: Vec, wbc: seq<Vec>, idx: seq<nat>, prescribed: Vec, vref: Vec) {
    |wbc| == |idx| && |prescribed| == |idx| && |vref| == |R|
    && (forall c :: 0 <= c < |wbc| ==> |wbc[c]| == |R|) && IndicesBelow(idx, |R|)
  }

  ghost predicate ColumnsShape(n: nat, wbc: seq<Vec>, idx: seq<nat>) {
    |wbc| == |idx| && (forall c :: 0 <= c < |wbc| ==> |wbc[c]| == n) && IndicesBelow(idx, n)
  }

  /** The velocity defects δ_c = prescribed_c − vref[idx_c] at the prescribed indices. */
  function Deltas(idx: seq<nat>, prescribed: Vec, vref: Vec): (r: Vec)
    requires |prescribed| == |idx| && IndicesBelow(idx, |vref|)
    ensures |r| == |idx| && forall c :: 0 <= c < |idx| ==> r[c] == prescribed[c] - vref[idx[c]]
  {
    seq(|idx|, c requires 0 <= c < |idx| => prescribed[c] - vref[idx[c]])
  }

  /**
   * The boundary-condition correction of residuFree, index after index:
   * R += s·δ_c·WBC_c, then R[idx_c] := −WBC_c[idx_c]·δ_c.  s is −1 for
   * nonlinear and Newton–Euler systems (δ against v) and +1 for linear
   * time-invariant ones (δ against vold).
   */
  function BCResiduCorrection(R: Vec, wbc: seq<Vec>, idx: seq<nat>, deltas: Vec, s: real): (r: Vec)
    requires ColumnsShape(|R|, wbc, idx) && |deltas| == |idx|
    ensures |r| == |R|
    decreases |idx|
  {
    if |idx| == 0 then R
    else
      var n := |idx| - 1;
      var prev := BCResiduCorrection(R, wbc[..n], idx[..n], deltas[..n], s);
      var scaled := Scale(deltas[n], wbc[n]);
      Add(prev, Scale(s, scaled))[idx[n] := -scaled[idx[n]]]
  }

  /**
   * When every saved column vanishes at the rows prescribed before it, the
   * correction leaves R[idx_c] = −(δ_c·WBC_c)[idx_c] at every prescribed index:
   * the later columns add nothing there.
   */
  lemma {:induction false} BCResiduCorrectionAtPrescribed(R: Vec, wbc: seq<Vec>, idx: seq<nat>, deltas: Vec, s: real, c: nat)
    requires ColumnsShape(|R|, wbc, idx) && |deltas| == |idx| && Distinct(idx) && c < |idx|
    requires forall e, d :: 0 <= e < d < |idx| ==> wbc[d][idx[e]] == 0.0
    ensures BCResiduCorrection(R, wbc, idx, deltas, s)[idx[c]] == -Scale(deltas[c], wbc[c])[idx[c]]
    decreases |idx|
  {
    var n := |idx| - 1;
    if c < n {
      PrefixVanish(|R|, wbc, idx, deltas, n);
      BCResiduCorrectionAtPrescribed(R, wbc[..n], idx[..n], deltas[..n], s, c);
      assert wbc[..n][c] == wbc[c] && idx[..n][c] == idx[c] && deltas[..n][c] == deltas[c];
      var prev := BCResiduCorrection(R, wbc[..n], idx[..n], deltas[..n], s);
      AddScaledZeroAt(prev, wbc[n], deltas[n], s, idx[c]);
    }
  }

  /** The prefix of the first n conditions keeps the shape, distinctness and vanishing rows. */
  lemma PrefixVanish(m: nat, wbc: seq<Vec>, idx: seq<nat>, deltas: Vec, n: nat)
    requires ColumnsShape(m, wbc, idx) && |deltas| == |idx| && n <= |idx|
    requires Distinct(idx) && forall e, d :: 0 <= e < d < |idx| ==> wbc[d][idx[e]] == 0.0
    ensures Distinct(idx[..n]) && forall e, d :: 0 <= e < d < n ==> wbc[..n][d][idx[..n][e]] == 0.0
  {
  }

  /**
   * With saved columns that vanish at the earlier prescribed rows (the columns the
   * elimination of W saves do, SavedColumnsVanishAtEarlierRows) and whose own entry
   * is W[idx_c][idx_c] (SavedColumnDiagonal), residuFree at the c-th prescribed
   * index is −δ_c·W[idx_c][idx_c].
   */
  lemma BCResiduAtPrescribedIndex(R: Vec, wbc: seq<Vec>, idx: seq<nat>, deltas: Vec, s: real, c: nat, diag: real)
    requires ColumnsShape(|R|, wbc, idx) && |deltas| == |idx| && Distinct(idx) && c < |idx|
    requires forall e, d :: 0 <= e < d < |idx| ==> wbc[d][idx[e]] == 0.0
    requires wbc[c][idx[c]] == diag
    ensures BCResiduCorrection(R, wbc, idx, deltas, s)[idx[c]] == -(deltas[c] * diag)
  {
    BCResiduCorrectionAtPrescribed(R, wbc, idx, deltas, s, c);
    ScaleEntry(deltas[c], wbc[c], idx[c], diag);
  }

  lemma ScaleEntry(d: real, col: Vec, k: nat, x: real)
    requires k < |col| && col[k] == x
    ensures Scale(d, col)[k] == d * x
  {
  }

  /** The saved column c holds the original diagonal entry W[idx_c][idx_c] at its own row. */
  lemma SavedColumnDiagonal(W: Mat, idx: seq<nat>, c: nat)
    requires IsMat(W, |W|, |W|) && IndicesBelow(idx, |W|) && c < |idx|
    ensures SavedColumns(W, idx)[c][idx[c]] == W[idx[c]][idx[c]]
  {
    SavedColumnEntries(W, idx, c, idx[c]);
  }

  /** Adding s·(δ·col) leaves an entry where col vanishes unchanged. */
  lemma AddScaledZeroAt(prev: Vec, col: Vec, delta: real, s: real, k: nat)
    requires |col| == |prev| && k < |prev| && col[k] == 0.0
    ensures Add(prev, Scale(s, Scale(delta, col)))[k] == prev[k]
  {
  }

  /** The columns the elimination saves vanish at every row prescribed before them. */
  lemma SavedColumnsVanishAtEarlierRows(W: Mat, idx: seq<nat>)
    requires IsMat(W, |W|, |W|) && IndicesBelow(idx, |W|) && Distinct(idx)
    ensures forall e, d :: 0 <= e < d < |idx| ==> SavedColumns(W, idx)[d][idx[e]] == 0.0
  {
    forall e, d | 0 <= e < d < |idx|
      ensures SavedColumns(W, idx)[d][idx[e]] == 0.0
    {
      LaterSavedColumnZeroAtEarlierRow(W, idx, e, d);
    }
  }

  /** x with vals[c] written at idx[c], one index after the other (a later write wins). */
  function WriteAt(x: Vec, idx: seq<nat>, vals: Vec): (r: Vec)
    requires |vals| == |idx| && IndicesBelow(idx, |x|)
    ensures |r| == |x|
    decreases |idx|
  {
    if |idx| == 0 then x
    else
      var n := |idx| - 1;
      WriteAt(x, idx[..n], vals[..n])[idx[n] := vals[n]]
  }

  /** With distinct indices every write survives, and an index never written keeps its value. */
  lemma {:induction false} WriteAtEntries(x: Vec, idx: seq<nat>, vals: Vec, i: nat)
    requires |vals| == |idx| && IndicesBelow(idx, |x|) && Distinct(idx) && i < |x|
    ensures i !in idx ==> WriteAt(x, idx, vals)[i] == x[i]
    ensures forall c :: 0 <= c < |idx| && idx[c] == i ==> WriteAt(x, idx, vals)[i] == vals[c]
    decreases |idx|
  {
    if |idx| > 0 {
      var n := |idx| - 1;
      assert idx == idx[..n] + [idx[n]];
      WriteAtEntries(x, idx[..n], vals[..n], i);
      forall c | 0 <= c < |idx| && idx[c] == i
        ensures WriteAt(x, idx, vals)[i] == vals[c]
      {
        if c < n {
          assert idx[..n][c] == i && vals[..n][c] == vals[c];
          assert idx[n] != i;
        }
      }
    }
  }

  /** One write more: the fold over the first c + 1 indices extends the fold over the first c. */
  lemma WriteAtStep(x: Vec, idx: seq<nat>, vals: Vec, c: nat)
    requires |vals| == |idx| && IndicesBelow(idx, |x|) && c < |idx|
    ensures IndicesBelow(idx[..c], |x|) && IndicesBelow(idx[..c + 1], |x|)
    ensures WriteAt(x, idx[..c + 1], vals[..c + 1]) == WriteAt(x, idx[..c], vals[..c])[idx[c] := vals[c]]
  {
    assert idx[..c + 1][..c] == idx[..c] && vals[..c + 1][..c] == vals[..c];
  }

  /** What the fix-up writes for condition c: −WBC_c[idx_c]·(prescribed_c − v[idx_c]). */
  function BCDefects(wbc: seq<Vec>, idx: seq<nat>, prescribed: Vec, v: Vec): (r: Vec)
    requires BCShape(v, wbc, idx, prescribed, v)
    ensures |r| == |idx| && forall c :: 0 <= c < |idx| ==> r[c] == -wbc[c][idx[c]] * (prescribed[c] - v[idx[c]])
  {
    seq(|idx|, c requires 0 <= c < |idx| => -wbc[c][idx[c]] * (prescribed[c] - v[idx[c]]))
  }

  /** The final fix-up of the free workspace: F[idx_c] := −WBC_c[idx_c]·δ_c, index after index. */
  function BCFreeFixup(F: Vec, wbc: seq<Vec>, idx: seq<nat>, prescribed: Vec, v: Vec): (r: Vec)
    requires BCShape(F, wbc, idx, prescribed, v)
    ensures |r| == |F|
  {
    WriteAt(F, idx, BCDefects(wbc, idx, prescribed, v))
  }

  /**
   * After the fix-up, a prescribed component of the residual is the reaction of
   * the saved column to the velocity defect there, and every other component is untouched.
   */
  lemma BCFreeFixupEntries(F: Vec, wbc: seq<Vec>, idx: seq<nat>, prescribed: Vec, v: Vec, i: nat)
    requires BCShape(F, wbc, idx, prescribed, v) && Distinct(idx) && i < |F|
    ensures i !in idx ==> BCFreeFixup(F, wbc, idx, prescribed, v)[i] == F[i]
    ensures forall c :: 0 <= c < |idx| && idx[c] == i ==>
      BCFreeFixup(F, wbc, idx, prescribed, v)[i] == -wbc[c][idx[c]] * (prescribed[c] - v[idx[c]])
  {
    WriteAtEntries(F, idx, BCDefects(wbc, idx, prescribed, v), i);
  }

  // ---------------------------------------------------------------------------
  // Velocities and positions

  /** q := qold + hθ·v + h(1−θ)·vold, the θ-blended position. */
  function ThetaPosition(qold: Vec, v: Vec, vold: Vec, h: real, theta: real): (q: Vec)
    requires |qold| == |v| == |vold|
    ensures |q| == |v|
    ensures forall i :: 0 <= i < |v| ==> q[i] == qold[i] + h * theta * v[i] + h * (1.0 - theta) * vold[i]
  {
    Add(Add(Scale(h * theta, v), Scale(h * (1.0 - theta), vold)), qold)
  }

  /** p with the components at the prescribed indices set to zero. */
  function ZeroedAt(x: Vec, idx: seq<nat>): (r: Vec)
    ensures |r| == |x| && forall i :: 0 <= i < |x| ==> r[i] == if i in idx then 0.0 else x[i]
  {
    seq(|x|, i requires 0 <= i < |x| => if i in idx then 0.0 else x[i])
  }

  /** The reaction to boundary condition c: −⟨WBC_c, v⟩, plus p[idx_c] when an impulse was applied. */
  function Reaction(wbcColumn: Vec, v: Vec, impulse: Option<Vec>, k: nat): real
    requires |wbcColumn| == |v| && (impulse.Some? ==> k < |impulse.value|)
  {
    -Dot(wbcColumn, v) + (if impulse.Some? then impulse.value[k] else 0.0)
  }

  /** The solver solved W·x = b exactly. */
  ghost predicate SolvesSystem(solve: Solver, W: Mat, b: Vec)
  {
    (forall i :: 0 <= i < |W| ==> |W[i]| == |b|) && MatVec(W, solve(W, b)) == b
  }

  /** If x solves W·x = R, then v − (v − x) is x and W·(v − vfree) = R. */
  lemma FreeVelocityDefect(W: Mat, v: Vec, x: Vec, R: Vec)
    requires |v| == |x| && (forall i :: 0 <= i < |W| ==> |W[i]| == |x|) && MatVec(W, x) == R
    ensures MatVec(W, Sub(v, Sub(v, x))) == R
  {
    assert Sub(v, Sub(v, x)) == x;
  }

  // ---------------------------------------------------------------------------
  // The restitution law's effect on the free output

  datatype LawKind =
    | NewtonImpactNSL(e: real)
    | NewtonImpactFrictionNSL(en: real, et: real, mu: real)
    | EqualityConditionNSL
    | MixedComplementarityConditionNSL
    | OtherLaw

  datatype NonSmoothLaw = NonSmoothLaw(size: nat, kind: LawKind)

  datatype RelationType = Lagrangian | NewtonEuler | FirstOrder | OtherRelation

  /**
   * NSLcontrib: the impact law rewrites the free output only for Lagrangian and
   * Newton–Euler relations.  yk is y at the problem's input/output level.
   */
  function NSLContrib(relation: RelationType, law: NonSmoothLaw, yk: Vec, yForNS: Vec): (r: Result<Vec, OsiError>)
    requires law.kind.NewtonImpactNSL? ==> law.size <= |yk| && law.size <= |yForNS|
    requires law.kind.NewtonImpactFrictionNSL? ==> 0 < |yk| && 0 < |yForNS|
    ensures relation != Lagrangian && relation != NewtonEuler ==> r == Success(yForNS)
    ensures (relation == Lagrangian || relation == NewtonEuler) && law.kind.OtherLaw? ==> r == Failure(UnhandledNonSmoothLaw)
    ensures r.Success? ==> |r.value| == |yForNS|
    ensures (relation == Lagrangian || relation == NewtonEuler) && law.kind.NewtonImpactNSL? ==>
      r.Success? && forall i :: 0 <= i < |yForNS| ==>
        r.value[i] == if i < law.size then law.kind.e * yk[i] else yForNS[i]
    ensures (relation == Lagrangian || relation == NewtonEuler) && law.kind.NewtonImpactFrictionNSL? ==>
      r.Success? && r.value[0] == law.kind.en * yk[0] && r.value[1..] == yForNS[1..]
    ensures relation in {Lagrangian, NewtonEuler} && law.kind in {EqualityConditionNSL, MixedComplementarityConditionNSL} ==>
      r == Success(yForNS)
  {
    if relation != Lagrangian && relation != NewtonEuler then Success(yForNS)
    else match law.kind
      case NewtonImpactNSL(e) => Success(Scale(e, yk[..law.size]) + yForNS[law.size..])
      case NewtonImpactFrictionNSL(en, _, _) => Success(yForNS[0 := en * yk[0]])
      case EqualityConditionNSL => Success(yForNS)
      case MixedComplementarityConditionNSL => Success(yForNS)
      case OtherLaw => Failure(UnhandledNonSmoothLaw)
  }

  // ---------------------------------------------------------------------------
  // The integrator

  class MoreauJeanGOSI {
    var theta: real
    var gamma: real
    var useGamma: bool
    var useGammaForRelation: bool
    var explicitNewtonEulerDSOperators: bool

    /** γ used by the activation tests: the constructor's γ when one was given, 1/2 otherwise. */
    function ActivationGamma(): real
      reads this
    {
      if useGamma then gamma else 0.5
    }

    constructor (theta: real, gamma: Double)
      ensures this.theta == theta
      ensures gamma.Num? ==> this.gamma == gamma.value && useGamma
      ensures gamma.NaN? ==> this.gamma == 1.0 && !useGamma
      ensures !useGammaForRelation && !explicitNewtonEulerDSOperators
      ensures ActivationGamma() == if gamma.Num? then gamma.value else 0.5
    {
      this.theta := theta;
      useGammaForRelation := false;
      explicitNewtonEulerDSOperators := false;
      if gamma.Num? {
        this.gamma := gamma.value;
        useGamma := true;
      } else {
        this.gamma := 1.0;
        useGamma := false;
      }
    }

    /** addInteractionInIndexSet: y0 + γ·h·y1 ≤ 0 activates the contact (only index set 1 is handled). */
    predicate AddInteractionInIndexSet(y: seq<Vec>, i: nat, h: real)
      reads this
      requires i == 1 && |y| >= 2 && |y[0]| > 0 && |y[1]| > 0
      // with a non-negative γ·h, a closed contact that approaches is activated
      // and an open one that separates is not
      ensures ActivationGamma() * h >= 0.0 && y[0][0] <= 0.0 && y[1][0] <= 0.0 ==>
        AddInteractionInIndexSet(y, i, h)
      ensures ActivationGamma() * h >= 0.0 && y[0][0] > 0.0 && y[1][0] >= 0.0 ==>
        !AddInteractionInIndexSet(y, i, h)
    {
      y[0][0] + ActivationGamma() * h * y[1][0] <= 0.0
    }

    /** removeInteractionInIndexSet: y0 + γ·h·y1 > 0; exactly the complement of activation. */
    predicate RemoveInteractionInIndexSet(y: seq<Vec>, i: nat, h: real)
      reads this
      requires i == 1 && |y| >= 2 && |y[0]| > 0 && |y[1]| > 0
      ensures RemoveInteractionInIndexSet(y, i, h) <==> !AddInteractionInIndexSet(y, i, h)
    {
      y[0][0] + ActivationGamma() * h * y[1][0] > 0.0
    }

    /** updatePosition for Lagrangian systems. */
    method UpdatePosition(ds: DynamicalSystem, h: real)
      requires ds.Valid() && (ds.kind == LagrangianDS || ds.kind == LagrangianLinearTIDS)
      modifies ds`q
      ensures ds.Valid()
      ensures ds.q == ThetaPosition(ds.qMemory, ds.v, ds.vMemory, h, theta)
      ensures forall i :: 0 <= i < ds.dim ==>
        ds.q[i] == ds.qMemory[i] + h * theta * ds.v[i] + h * (1.0 - theta) * ds.vMemory[i]
    {
      var q := Scale(h * theta, ds.v);
      q := Add(q, Scale(h * (1.0 - theta), ds.vMemory));
      ds.q := Add(q, ds.qMemory);
    }

    /** computeW: recomputes W for nonlinear and Newton–Euler systems; a linear time-invariant W stays. */
    method ComputeW(ds: DynamicalSystem, h: real) returns (s: Status)
      requires ds.Valid() && ds.W.Some?
      modifies ds`W
      ensures ds.Valid() && ds.W.Some?
      ensures s.Ok? <==> ds.kind != OtherDsType
      ensures ds.kind == LagrangianDS ==> ds.W == Some(LagrangianW(ds.mass, ds.C, ds.K, h, theta, ds.dim))
      ensures ds.kind == NewtonEulerDS ==> ds.W == Some(NewtonEulerW(ds.mass, ds.C, ds.K, ds.T, h, theta, ds.dim, ds.qDim))
      ensures ds.kind == LagrangianLinearTIDS || ds.kind == OtherDsType ==> ds.W == old(ds.W)
    {
      match ds.kind
      case LagrangianLinearTIDS => s := Ok;
      case LagrangianDS =>
        ds.W := Some(LagrangianW(ds.mass, ds.C, ds.K, h, theta, ds.dim));
        s := Ok;
      case NewtonEulerDS =>
        ds.W := Some(NewtonEulerW(ds.mass, ds.C, ds.K, ds.T, h, theta, ds.dim, ds.qDim));
        s := Ok;
      case OtherDsType => s := Raised(UnsupportedSystemType);
    }

    /**
     * computeWBoundaryConditions: for each prescribed index k in order, saves
     * column k of W into the next column of WBC, then replaces row and column k
     * of W by diag·e_k.
     */
    method ComputeWBoundaryConditions(ds: DynamicalSystem) returns (s: Status)
      requires ds.Valid() && ds.bc.Some? && ds.W.Some? && ds.WBC.Some?
      modifies ds`W, ds`WBC
      ensures ds.Valid() && ds.W.Some? && ds.WBC.Some?
      ensures s.Ok? <==> ds.kind != OtherDsType
      ensures s.Ok? ==> ds.W == Some(Eliminated(old(ds.W.value), ds.bc.value.velocityIndices))
      ensures s.Ok? ==> ds.WBC == Some(SavedColumns(old(ds.W.value), ds.bc.value.velocityIndices))
      ensures !s.Ok? ==> ds.W == old(ds.W) && ds.WBC == old(ds.WBC)
    {
      if ds.kind == OtherDsType {
        return Raised(UnsupportedSystemType);
      }
      var W, wbc := EliminatePrescribed(ds.W.value, ds.bc.value.velocityIndices, ds.WBC.value);
      ds.W := Some(W);
      ds.WBC := Some(wbc);
      s := Ok;
    }

    /** initWBoundaryConditions: allocates WBC (dim × number of prescribed indices) and fills it. */
    method InitWBoundaryConditions(ds: DynamicalSystem) returns (s: Status)
      requires ds.Valid() && ds.bc.Some? && ds.W.Some?
      modifies ds`W, ds`WBC
      ensures ds.Valid() && ds.W.Some?
      ensures old(ds.WBC).Some? && ds.kind != OtherDsType ==>
        s == Raised(WBoundaryConditionsAlreadyInitialized) && ds.W == old(ds.W) && ds.WBC == old(ds.WBC)
      ensures old(ds.WBC).None? && ds.kind == OtherDsType ==> s == Raised(UnsupportedSystemType) && ds.W == old(ds.W) && ds.WBC == old(ds.WBC)
      ensures old(ds.WBC).None? && ds.kind != OtherDsType ==>
        s.Ok?
        && ds.W == Some(Eliminated(old(ds.W.value), ds.bc.value.velocityIndices))
        && ds.WBC == Some(SavedColumns(old(ds.W.value), ds.bc.value.velocityIndices))
    {
      if ds.kind == OtherDsType {
        return Raised(UnsupportedSystemType);
      }
      if ds.WBC.Some? {
        return Raised(WBoundaryConditionsAlreadyInitialized);
      }
      var nbc := |ds.bc.value.velocityIndices|;
      ds.WBC := Some(seq(nbc, _ => Zeros(ds.dim)));
      s := ComputeWBoundaryConditions(ds);
    }

    /**
     * initW: creates W for a system that does not have one yet, then runs the
     * boundary-condition elimination when the system has prescribed velocities.
     */
    method InitW(ds: DynamicalSystem?, hasDescriptor: bool, belongsToOsi: bool, h: real) returns (s: Status)
      requires ds != null ==> ds.Valid()
      modifies ds
      ensures ds != null ==> ds.Valid()
      ensures ds == null || !hasDescriptor ==> s == Raised(NullSystem)
      ensures ds != null && hasDescriptor && !belongsToOsi ==> s == Raised(NotHandledByThisOsi)
      ensures ds != null && hasDescriptor && belongsToOsi && old(ds.W).Some? ==> s == Raised(WAlreadyInitialized)
      ensures ds != null && hasDescriptor && belongsToOsi && old(ds.W).None? && ds.kind == OtherDsType ==>
        s == Raised(UnsupportedSystemType)
      ensures ds != null && s.Raised? && s.error != WBoundaryConditionsAlreadyInitialized ==>
        ds.W == old(ds.W) && ds.WBC == old(ds.WBC)
      ensures ds != null && s.Ok? ==> ds.W.Some? && old(ds.W).None? && ds.kind != OtherDsType
      ensures ds != null && hasDescriptor && belongsToOsi && old(ds.W).None? && ds.kind != OtherDsType && ds.bc.None? ==>
        s.Ok? && ds.W == Some(InitialW(ds, h))
      ensures ds != null && hasDescriptor && belongsToOsi && old(ds.W).None? && ds.kind != OtherDsType && ds.bc.Some? ==>
        (old(ds.WBC).Some? ==> s == Raised(WBoundaryConditionsAlreadyInitialized))
        && (old(ds.WBC).None? ==>
              s.Ok?
              && ds.W == Some(Eliminated(InitialW(ds, h), ds.bc.value.velocityIndices))
              && ds.WBC == Some(SavedColumns(InitialW(ds, h), ds.bc.value.velocityIndices)))
      ensures ds != null ==> unchanged(ds`q, ds`v, ds`mass, ds`C, ds`K, ds`T, ds`bc, ds`p, ds`free, ds`freeResidu)
    {
      if ds == null || !hasDescriptor {
        return Raised(NullSystem);
      }
      if !belongsToOsi {
        return Raised(NotHandledByThisOsi);
      }
      if ds.W.Some? {
        return Raised(WAlreadyInitialized);
      }
      if ds.kind == OtherDsType {
        return Raised(UnsupportedSystemType);
      }
      s := CreateW(ds, h);
    }

    /** The part of initW past its guards: W from the mass matrix, then the boundary-condition elimination. */
    method CreateW(ds: DynamicalSystem, h: real) returns (s: Status)
      requires ds.Valid() && ds.W.None? && ds.kind != OtherDsType
      modifies ds`W, ds`WBC
      ensures ds.Valid() && ds.W.Some?
      ensures s.Raised? ==> s.error == WBoundaryConditionsAlreadyInitialized
      ensures ds.bc.None? ==> s.Ok? && ds.W == Some(InitialW(ds, h)) && ds.WBC == old(ds.WBC)
      ensures ds.bc.Some? ==>
        (old(ds.WBC).Some? ==> s == Raised(WBoundaryConditionsAlreadyInitialized))
        && (old(ds.WBC).None? ==>
              s.Ok?
              && ds.W == Some(Eliminated(InitialW(ds, h), ds.bc.value.velocityIndices))
              && ds.WBC == Some(SavedColumns(InitialW(ds, h), ds.bc.value.velocityIndices)))
    {
      SetInitialW(ds, h);
      s := Ok;
      if ds.bc.Some? {
        s := InitWBoundaryConditions(ds);
      }
    }

    /** W starts as a copy of the mass matrix and is then assembled for the system's kind. */
    method SetInitialW(ds: DynamicalSystem, h: real)
      requires ds.Valid() && ds.kind != OtherDsType
      modifies ds`W
      ensures ds.Valid() && ds.W == Some(InitialW(ds, h))
    {
      ds.W := Some(ds.mass);
      if ds.kind == LagrangianLinearTIDS {
        ds.W := Some(LinearTIDSW(ds.mass, ds.C, ds.K, h, theta, ds.dim));
      } else {
        var _ := ComputeW(ds, h);
      }
    }

    /** The W that initW creates before any boundary condition is eliminated. */
    ghost function InitialW(ds: DynamicalSystem, h: real): Mat
      reads this, ds
      requires ds.Valid() && ds.kind != OtherDsType
    {
      match ds.kind
      case LagrangianDS => LagrangianW(ds.mass, ds.C, ds.K, h, theta, ds.dim)
      case LagrangianLinearTIDS => LinearTIDSW(ds.mass, ds.C, ds.K, h, theta, ds.dim)
      case NewtonEulerDS => NewtonEulerW(ds.mass, ds.C, ds.K, ds.T, h, theta, ds.dim, ds.qDim)
    }

    /**
     * computeFreeState for one system: vfree = v − x (nonlinear Lagrangian and
     * Newton–Euler, after recomputing W) or vfree = vold − x (linear
     * time-invariant), where x is the solver's answer to W·x = residuFree.
     */
    method ComputeFreeState(ds: DynamicalSystem, h: real, solve: Solver) returns (s: Status)
      requires ds.Valid() && ds.W.Some?
      modifies ds`free, ds`W
      ensures ds.Valid() && ds.W.Some?
      ensures s.Ok? <==> ds.kind != OtherDsType
      ensures ds.kind == LagrangianDS ==> ds.W == Some(LagrangianW(ds.mass, ds.C, ds.K, h, theta, ds.dim))
      ensures ds.kind == NewtonEulerDS ==> ds.W == Some(NewtonEulerW(ds.mass, ds.C, ds.K, ds.T, h, theta, ds.dim, ds.qDim))
      ensures ds.kind == LagrangianLinearTIDS || ds.kind == OtherDsType ==> ds.W == old(ds.W)
      ensures ds.kind == LagrangianDS || ds.kind == NewtonEulerDS ==>
        ds.free == Sub(ds.v, solve(ds.W.value, ds.freeResidu))
      ensures ds.kind == LagrangianLinearTIDS ==> ds.free == Sub(ds.vMemory, solve(ds.W.value, ds.freeResidu))
      ensures ds.kind == OtherDsType ==> ds.free == old(ds.free)
      ensures (ds.kind == LagrangianDS || ds.kind == NewtonEulerDS) && SolvesSystem(solve, ds.W.value, ds.freeResidu) ==>
        MatVec(ds.W.value, Sub(ds.v, ds.free)) == ds.freeResidu
      ensures ds.kind == LagrangianLinearTIDS && SolvesSystem(solve, ds.W.value, ds.freeResidu) ==>
        MatVec(ds.W.value, Sub(ds.vMemory, ds.free)) == ds.freeResidu
    {
      if ds.kind == OtherDsType {
        return Raised(UnsupportedSystemType);
      }
      var vfree := ds.freeResidu;
      if ds.kind != LagrangianLinearTIDS {
        s := ComputeW(ds, h);
      }
      var x := solve(ds.W.value, vfree);
      var base := if ds.kind == LagrangianLinearTIDS then ds.vMemory else ds.v;
      ds.free := Add(Scale(-1.0, x), base);
      assert ds.free == Sub(base, x);
      if SolvesSystem(solve, ds.W.value, ds.freeResidu) {
        FreeVelocityDefect(ds.W.value, base, x, ds.freeResidu);
      }
      s := Ok;
    }

    /**
     * updateState for one system: the corrected velocity
     * v = vfree + x with W·x = p(level) zeroed at the prescribed indices, when
     * an impulse p(level) is available, otherwise v = vfree; then the reactions
     * to the boundary conditions and, for Lagrangian systems, the new position.
     */
    method UpdateState(ds: DynamicalSystem, level: nat, levelMax: nat, h: real, solve: Solver) returns (s: Status)
      requires ds.Valid() && ds.W.Some? && (ds.bc.Some? ==> ds.WBC.Some?)
      requires level == levelMax || level < |ds.p|
      modifies ds`v, ds`q, ds`reactionToBC
      ensures ds.Valid()
      ensures s.Ok? <==> ds.kind != OtherDsType
      ensures !s.Ok? ==> ds.v == old(ds.v) && ds.q == old(ds.q) && ds.reactionToBC == old(ds.reactionToBC)
      ensures s.Ok? ==> ds.v == CorrectedVelocity(ds.W.value, ds.free, Impulse(ds.p, level, levelMax), ds.bc, solve)
      ensures s.Ok? && ds.bc.Some? ==>
        forall c :: 0 <= c < |ds.bc.value.velocityIndices| ==>
          ds.reactionToBC[c] == Reaction(ds.WBC.value[c], ds.v, Impulse(ds.p, level, levelMax), ds.bc.value.velocityIndices[c])
      ensures s.Ok? && ds.bc.None? ==> ds.reactionToBC == old(ds.reactionToBC)
      ensures s.Ok? && ds.kind != NewtonEulerDS ==> ds.q == ThetaPosition(ds.qMemory, ds.v, ds.vMemory, h, theta)
    {
      if ds.kind == OtherDsType {
        return Raised(UnsupportedSystemType);
      }
      var impulse := Impulse(ds.p, level, levelMax);
      var v := VelocityFromImpulse(ds, impulse, solve);
      StoreVelocity(ds, v, impulse);
      if ds.kind != NewtonEulerDS {
        UpdatePosition(ds, h);
      }
      s := Ok;
    }

    /** The new velocity goes into the system, then the reactions to its boundary conditions. */
    method StoreVelocity(ds: DynamicalSystem, v: Vec, impulse: Option<Vec>)
      requires ds.Valid() && |v| == ds.dim && (ds.bc.Some? ==> ds.WBC.Some?)
      requires impulse.Some? ==> |impulse.value| == ds.dim
      modifies ds`v, ds`reactionToBC
      ensures ds.Valid() && ds.v == v
      ensures ds.bc.Some? ==>
        forall c :: 0 <= c < |ds.bc.value.velocityIndices| ==>
          ds.reactionToBC[c] == Reaction(ds.WBC.value[c], v, impulse, ds.bc.value.velocityIndices[c])
      ensures ds.bc.None? ==> ds.reactionToBC == old(ds.reactionToBC)
    {
      ds.v := v;
      if ds.bc.Some? {
        ds.reactionToBC := ReactionsToBC(ds.WBC.value, v, impulse, ds.bc.value.velocityIndices);
      }
    }

    /** The velocity updateState stores: vfree plus the solver's answer for the impulse with its prescribed entries zeroed. */
    method VelocityFromImpulse(ds: DynamicalSystem, impulse: Option<Vec>, solve: Solver) returns (v: Vec)
      requires ds.Valid() && ds.W.Some? && (impulse.Some? ==> |impulse.value| == ds.dim)
      ensures v == CorrectedVelocity(ds.W.value, ds.free, impulse, ds.bc, solve)
    {
      if impulse.Some? {
        var rhs := impulse.value;
        if ds.bc.Some? {
          rhs := ZeroPrescribed(rhs, ds.bc.value.velocityIndices);
        }
        assert rhs == ImpulseRhs(impulse.value, ds.bc);
        v := Add(solve(ds.W.value, rhs), ds.free);
      } else {
        v := ds.free;
      }
    }

    /** The first half of computeResidu for one system: residuFree with the boundary conditions applied. */
    method WriteResiduFree(ds: DynamicalSystem, h: real)
      requires ds.ReadyForResidu() && ds.kind != OtherDsType
      modifies ds`freeResidu
      ensures ds.ReadyForResidu() && ds.freeResidu == ResiduFree(ds, h)
    {
      var linear := ds.kind == LagrangianLinearTIDS;
      var residuFree: Vec;
      if linear {
        residuFree := LinearTIDSResidu(ds.C, ds.K, ds.fExt, ds.qMemory, ds.vMemory, h, theta);
      } else {
        residuFree := MassResidu(ds.mass, ds.v, ds.vMemory, ds.forces, h, theta);
      }
      if ds.bc.Some? {
        residuFree := CorrectResiduForBC(residuFree, ds.WBC.value, ds.bc.value.velocityIndices, ds.bc.value.prescribedVelocity,
                                         if linear then ds.vMemory else ds.v, if linear then 1.0 else -1.0);
      }
      ds.freeResidu := residuFree;
    }

    /** The second half: free = residuFree − p(1), with the prescribed entries fixed up afterwards. */
    method WriteFree(ds: DynamicalSystem, h: real)
      requires ds.ReadyForResidu() && ds.kind != OtherDsType && ds.freeResidu == ResiduFree(ds, h)
      modifies ds`free
      ensures ds.ReadyForResidu() && ds.free == FreeResidual(ds, h)
    {
      var f := ds.freeResidu;
      if ds.p[1].Some? {
        f := Sub(f, ds.p[1].value);
      }
      if ds.bc.Some? && ds.kind != LagrangianLinearTIDS {
        f := FixupFreeForBC(f, ds.WBC.value, ds.bc.value.velocityIndices, ds.bc.value.prescribedVelocity, ds.v);
      }
      ds.free := f;
    }

    /** The norm one system contributes to computeResidu: none for a linear time-invariant system. */
    ghost function SystemNorm(ds: DynamicalSystem, norm: Vec -> real): real
      reads ds`free
    {
      if ds.kind == LagrangianLinearTIDS then 0.0 else norm(ds.free)
    }

    /** The computeResidu contribution of one system, writing residuFree and the free workspace. */
    method ComputeSystemResidu(ds: DynamicalSystem, h: real, norm: Vec -> real) returns (r: Result<real, OsiError>)
      requires ds.ReadyForResidu()
      modifies ds`freeResidu, ds`free
      ensures ds.Valid()
      ensures r.Success? <==> ds.kind != OtherDsType
      ensures r.Success? ==> r.value == SystemNorm(ds, norm)
      ensures r.Success? ==> ds.freeResidu == ResiduFree(ds, h)
      ensures r.Success? ==> ds.free == FreeResidual(ds, h)
      ensures !r.Success? ==> ds.freeResidu == old(ds.freeResidu) && ds.free == old(ds.free)
    {
      if ds.kind == OtherDsType {
        return Failure(UnsupportedSystemType);
      }
      WriteResiduFree(ds, h);
      WriteFree(ds, h);
      var linear := ds.kind == LagrangianLinearTIDS;
      if linear {
        r := Success(0.0);
      } else {
        r := Success(norm(ds.free));
      }
    }

    /** The residuFree workspace computeResidu leaves for a system. */
    ghost function ResiduFree(ds: DynamicalSystem, h: real): (r: Vec)
      reads this`theta, ds`q, ds`v, ds`qMemory, ds`vMemory, ds`mass, ds`C, ds`K, ds`T, ds`forces, ds`fExt, ds`p
      reads ds`bc, ds`W, ds`WBC
      requires ds.StateShape() && ds.OperatorShape() && ds.IterationShape()
      requires ds.kind != OtherDsType && (ds.bc.Some? ==> ds.WBC.Some?)
      ensures |r| == ds.dim
    {
      var linear := ds.kind == LagrangianLinearTIDS;
      var R := if linear then LinearTIDSResidu(ds.C, ds.K, ds.fExt, ds.qMemory, ds.vMemory, h, theta)
               else MassResidu(ds.mass, ds.v, ds.vMemory, ds.forces, h, theta);
      if ds.bc.None? then R
      else
        var idx := ds.bc.value.velocityIndices;
        var deltas := Deltas(idx, ds.bc.value.prescribedVelocity, if linear then ds.vMemory else ds.v);
        BCResiduCorrection(R, ds.WBC.value, idx, deltas, if linear then 1.0 else -1.0)
    }

    /** The free workspace computeResidu leaves: residuFree − p(1), with the prescribed components fixed up. */
    ghost function FreeResidual(ds: DynamicalSystem, h: real): (r: Vec)
      reads this`theta, ds`q, ds`v, ds`qMemory, ds`vMemory, ds`mass, ds`C, ds`K, ds`T, ds`forces, ds`fExt, ds`p
      reads ds`bc, ds`W, ds`WBC
      requires ds.Residuable() && ds.kind != OtherDsType
      ensures |r| == ds.dim
    {
      var R := ResiduFree(ds, h);
      var F := if ds.p[1].Some? then Sub(R, ds.p[1].value) else R;
      if ds.bc.Some? && ds.kind != LagrangianLinearTIDS
      then BCFreeFixup(F, ds.WBC.value, ds.bc.value.velocityIndices, ds.bc.value.prescribedVelocity, ds.v)
      else F
    }

    /**
     * computeResidu: the maximum, starting from 0, of the systems' residual norms
     * (a linear time-invariant system contributes 0); an unsupported system raises.
     */
    method ComputeResidu(systems: seq<DynamicalSystem>, h: real, norm: Vec -> real) returns (r: Result<real, OsiError>, ghost norms: seq<real>)
      requires forall a, b :: 0 <= a < b < |systems| ==> systems[a] != systems[b]
      requires forall k :: 0 <= k < |systems| ==> systems[k].ReadyForResidu()
      modifies set k | 0 <= k < |systems| :: systems[k]
      ensures r.Success? <==> forall k :: 0 <= k < |systems| ==> systems[k].kind != OtherDsType
      ensures r.Success? ==> |norms| == |systems| && r.value == MaxResidu(norms)
      ensures r.Success? ==> forall k :: 0 <= k < |systems| ==> norms[k] == SystemNorm(systems[k], norm)
    {
      var maxResidu := 0.0;
      norms := [];
      var k := 0;
      while k < |systems|
        invariant 0 <= k <= |systems| && |norms| == k
        invariant forall j :: k <= j < |systems| ==> systems[j].ReadyForResidu()
        invariant forall j :: 0 <= j < k ==> systems[j].kind != OtherDsType
        invariant maxResidu == MaxResidu(norms)
        invariant forall j :: 0 <= j < k ==> norms[j] == SystemNorm(systems[j], norm)
      {
        var ds := systems[k];
        assert forall j :: 0 <= j < |systems| && j != k ==> systems[j] != ds;
        var one := ComputeSystemResidu(ds, h, norm);
        if one.Failure? {
          return Failure(one.error), norms;
        }
        var normResidu := one.value;
        norms := norms + [normResidu];
        if normResidu > maxResidu {
          maxResidu := normResidu;
        }
        k := k + 1;
      }
      r := Success(maxResidu);
    }
  }

  /** The running maximum computeResidu keeps: it starts from 0 and takes each norm that exceeds it. */
  function MaxResidu(norms: seq<real>): real
  {
    if |norms| == 0 then 0.0
    else
      var m := MaxResidu(norms[..|norms| - 1]);
      if norms[|norms| - 1] > m then norms[|norms| - 1] else m
  }

  /** The reduction is an upper bound of every norm, and never negative. */
  lemma {:induction false} MaxResiduBounds(norms: seq<real>)
    ensures MaxResidu(norms) >= 0.0
    ensures forall k :: 0 <= k < |norms| ==> norms[k] <= MaxResidu(norms)
  {
    if |norms| > 0 {
      var init := norms[..|norms| - 1];
      MaxResiduBounds(init);
      assert forall k :: 0 <= k < |init| ==> norms[k] == init[k];
    }
  }

  /** The reduction is attained: it is 0 or one of the norms. */
  lemma {:induction false} MaxResiduAttained(norms: seq<real>)
    ensures MaxResidu(norms) == 0.0 || exists k :: 0 <= k < |norms| && norms[k] == MaxResidu(norms)
  {
    if |norms| > 0 {
      var init := norms[..|norms| - 1];
      MaxResiduAttained(init);
      if MaxResidu(norms) != 0.0 && MaxResidu(norms) != norms[|norms| - 1] {
        var k :| 0 <= k < |init| && init[k] == MaxResidu(init);
        assert norms[k] == MaxResidu(norms);
      }
    }
  }

  /** The first boundary-condition loop of computeResidu, on residuFree. */
  method CorrectResiduForBC(R0: Vec, wbc: seq<Vec>, idx: seq<nat>, pv: Vec, vref: Vec, sign: real) returns (R: Vec)
    requires BCShape(R0, wbc, idx, pv, vref)
    ensures R == BCResiduCorrection(R0, wbc, idx, Deltas(idx, pv, vref), sign)
  {
    ghost var deltas := Deltas(idx, pv, vref);
    assert ColumnsShape(|R0|, wbc, idx);
    R := R0;
    var columnindex := 0;
    while columnindex < |idx|
      invariant 0 <= columnindex <= |idx| && |R| == |R0|
      invariant ColumnsShape(|R0|, wbc[..columnindex], idx[..columnindex])
      invariant R == BCResiduCorrection(R0, wbc[..columnindex], idx[..columnindex], deltas[..columnindex], sign)
    {
      BCResiduCorrectionStep(R0, wbc, idx, deltas, sign, columnindex);
      var delta := pv[columnindex] - vref[idx[columnindex]];
      assert delta == deltas[columnindex];
      var scaled := Scale(delta, wbc[columnindex]);
      R := Add(R, Scale(sign, scaled))[idx[columnindex] := -scaled[idx[columnindex]]];
      columnindex := columnindex + 1;
    }
    PrefixAll(wbc, idx, deltas);
  }

  /** The second boundary-condition loop of computeResidu, on the free workspace. */
  method FixupFreeForBC(F0: Vec, wbc: seq<Vec>, idx: seq<nat>, pv: Vec, v: Vec) returns (F: Vec)
    requires BCShape(F0, wbc, idx, pv, v)
    ensures F == BCFreeFixup(F0, wbc, idx, pv, v)
  {
    ghost var vals := BCDefects(wbc, idx, pv, v);
    F := F0;
    var columnindex := 0;
    while columnindex < |idx|
      invariant 0 <= columnindex <= |idx| && |F| == |F0|
      invariant IndicesBelow(idx[..columnindex], |F0|)
      invariant F == WriteAt(F0, idx[..columnindex], vals[..columnindex])
    {
      WriteAtStep(F0, idx, vals, columnindex);
      F := F[idx[columnindex] := -wbc[columnindex][idx[columnindex]] * (pv[columnindex] - v[idx[columnindex]])];
      columnindex := columnindex + 1;
    }
    assert idx[..|idx|] == idx && vals[..|idx|] == vals;
  }

  /** The loop of updateState that zeroes the impulse at the prescribed indices. */
  method ZeroPrescribed(x: Vec, idx: seq<nat>) returns (r: Vec)
    requires IndicesBelow(idx, |x|)
    ensures r == ZeroedAt(x, idx)
  {
    r := x;
    var c := 0;
    while c < |idx|
      invariant 0 <= c <= |idx|
      invariant r == ZeroedAt(x, idx[..c])
    {
      r := r[idx[c] := 0.0];
      assert idx[..c + 1] == idx[..c] + [idx[c]];
      c := c + 1;
    }
    assert idx[..|idx|] == idx;
  }

  /** The loop of updateState that computes the reactions to the boundary conditions. */
  method ReactionsToBC(wbc: seq<Vec>, v: Vec, impulse: Option<Vec>, idx: seq<nat>) returns (r: Vec)
    requires |wbc| == |idx| && (forall c :: 0 <= c < |wbc| ==> |wbc[c]| == |v|)
    requires impulse.Some? ==> IndicesBelow(idx, |impulse.value|)
    ensures |r| == |idx| && forall c :: 0 <= c < |idx| ==> r[c] == Reaction(wbc[c], v, impulse, idx[c])
  {
    r := Zeros(|idx|);
    var bc := 0;
    while bc < |idx|
      invariant 0 <= bc <= |idx| && |r| == |idx|
      invariant forall c :: 0 <= c < bc ==> r[c] == Reaction(wbc[c], v, impulse, idx[c])
    {
      var value := -Dot(wbc[bc], v);
      if impulse.Some? {
        value := value + impulse.value[idx[bc]];
      }
      r := r[bc := value];
      bc := bc + 1;
    }
  }

  /** p(level) when updateState uses it: level ≠ LEVELMAX, p(level) present and nonempty. */
  function Impulse(p: seq<Option<Vec>>, level: nat, levelMax: nat): (r: Option<Vec>)
    requires level == levelMax || level < |p|
    ensures r.Some? <==> level != levelMax && p[level].Some? && |p[level].value| > 0
    ensures r.Some? ==> r == p[level]
  {
    if level != levelMax && p[level].Some? && |p[level].value| > 0 then p[level] else None
  }

  /** The right-hand side updateState solves with: the impulse with its prescribed entries zeroed. */
  function ImpulseRhs(impulse: Vec, bc: Option<BoundaryConditions>): (r: Vec)
    requires bc.Some? ==> IndicesBelow(bc.value.velocityIndices, |impulse|)
    ensures |r| == |impulse|
  {
    if bc.Some? then ZeroedAt(impulse, bc.value.velocityIndices) else impulse
  }

  /** The velocity updateState computes: v = vfree + W⁻¹·p′, or vfree when there is no impulse. */
  ghost function CorrectedVelocity(W: Mat, free: Vec, impulse: Option<Vec>, bc: Option<BoundaryConditions>, solve: Solver): (v: Vec)
    requires impulse.Some? ==> |impulse.value| == |free|
    requires impulse.Some? && bc.Some? ==> IndicesBelow(bc.value.velocityIndices, |free|)
  {
    if impulse.None? then free
    else Add(solve(W, ImpulseRhs(impulse.value, bc)), free)
  }

  /** The corrected velocity solves W·(v − vfree) = p′ when the solver is exact. */
  lemma CorrectedVelocityDefect(W: Mat, free: Vec, p: Vec, bc: Option<BoundaryConditions>, solve: Solver)
    requires |p| == |free| && IsMat(W, |free|, |free|)
    requires bc.Some? ==> IndicesBelow(bc.value.velocityIndices, |free|)
    requires SolvesSystem(solve, W, ImpulseRhs(p, bc))
    ensures MatVec(W, Sub(CorrectedVelocity(W, free, Some(p), bc, solve), free)) == ImpulseRhs(p, bc)
  {
    var x := solve(W, ImpulseRhs(p, bc));
    assert Sub(Add(x, free), free) == x;
  }

  lemma BCResiduCorrectionStep(R: Vec, wbc: seq<Vec>, idx: seq<nat>, deltas: Vec, s: real, c: nat)
    requires ColumnsShape(|R|, wbc, idx) && |deltas| == |idx| && c < |idx|
    ensures ColumnsShape(|R|, wbc[..c], idx[..c]) && ColumnsShape(|R|, wbc[..c + 1], idx[..c + 1])
    ensures var scaled := Scale(deltas[c], wbc[c]);
      BCResiduCorrection(R, wbc[..c + 1], idx[..c + 1], deltas[..c + 1], s)
      == Add(BCResiduCorrection(R, wbc[..c], idx[..c], deltas[..c], s), Scale(s, scaled))[idx[c] := -scaled[idx[c]]]
  {
    PrefixStep(wbc, idx, deltas, c);
  }

  lemma PrefixStep(wbc: seq<Vec>, idx: seq<nat>, pv: Vec, c: nat)
    requires c < |idx| && |wbc| == |idx| && |pv| == |idx|
    ensures wbc[..c + 1][..c] == wbc[..c] && idx[..c + 1][..c] == idx[..c] && pv[..c + 1][..c] == pv[..c]
    ensures wbc[..c + 1][c] == wbc[c] && idx[..c + 1][c] == idx[c] && pv[..c + 1][c] == pv[c]
  {
  }

  lemma PrefixAll(wbc: seq<Vec>, idx: seq<nat>, pv: Vec)
    ensures wbc[..|wbc|] == wbc && idx[..|idx|] == idx && pv[..|pv|] == pv
  {
  }
}
