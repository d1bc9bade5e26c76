/**
 * The scleronomic Lagrangian relation y = h(q, z): the output y at derivative
 * level 0 (h itself), 1 (J·q̇) and 2 (J·q̈ + J̇·q̇), where J = ∇_q h, and the
 * input p += Jᵀ·λ that the multipliers give back to the systems.  The user's
 * plugin functions are given as Dafny functions.
 */
module LagrangianScleronomousR {
  import opened Wrappers
  import opened LinAlg

  /** A plugin: its name, and the function when one is connected (fPtr). */
  datatype PluggedObject<!F> = PluggedObject(name: string, fPtr: Option<F>)

  /** h(q, z). */
  type HPlugin = (Vec, Vec) -> Vec
  /** ∇_q h(q, z). */
  type JacobianPlugin = (Vec, Vec) -> Mat
  /** The time derivative of ∇_q h at (q, z, q̇). */
  type DotJacobianPlugin = (Vec, Vec, Vec) -> Mat

  datatype RelationError =
    | LevelOutOfRange     // computeOutput at a derivative level other than 0, 1, 2
    | InconsistentSizes   // prod with non-conforming operands
    | NullDotJacobian     // J̇ used before initComponents allocated it

  datatype Status = Ok | Raised(error: RelationError)

  /** The Jacobian computeJachq leaves: the plugin's value at (q, z), or the current one without a plugin. */
  function Jacobian(plugin: PluggedObject<JacobianPlugin>, current: Mat, q: Vec, z: Vec): Mat
  {
    if plugin.fPtr.Some? then plugin.fPtr.value(q, z) else current
  }

  /** The same for computeDotJachq; the plugin writes into an allocated J̇ only. */
  function DotJacobian(plugin: PluggedObject<DotJacobianPlugin>, current: Option<Mat>, q: Vec, z: Vec, qDot: Vec): Option<Mat>
  {
    if plugin.fPtr.Some? && current.Some? then Some(plugin.fPtr.value(q, z, qDot)) else current
  }

  /** The zero matrix SimpleMatrix(rows, cols) allocates. */
  function ZeroMatrix(rows: nat, cols: nat): (m: Mat)
    ensures IsMat(m, rows, cols) && forall i, j :: 0 <= i < rows && 0 <= j < cols ==> m[i][j] == 0.0
  {
    seq(rows, _ => Zeros(cols))
  }

  /** Power balance: output level 1 and the input use the same J, so ⟨λ, J·v⟩ = ⟨Jᵀ·λ, v⟩. */
  lemma PowerBalance(plugin: PluggedObject<JacobianPlugin>, current: Mat, q: Vec, z: Vec, v: Vec, lambda: Vec)
    requires IsMat(Jacobian(plugin, current, q, z), |lambda|, |v|)
    ensures Dot(lambda, MatVec(Jacobian(plugin, current, q, z), v)) ==
            Dot(TMatVec(Jacobian(plugin, current, q, z), lambda, |v|), v)
  {
    Duality(Jacobian(plugin, current, q, z), v, lambda);
  }

  /** The interaction's y and λ levels and, through its link, the q0, q1, q2, z and p blocks of its systems. */
  class Interaction {
    var y: seq<Vec>
    var lambda: seq<Vec>
    var q0: Vec
    var q1: Vec
    var q2: Vec
    var z: Vec
    var p: seq<Vec>

    constructor (y: seq<Vec>, lambda: seq<Vec>, q0: Vec, q1: Vec, q2: Vec, z: Vec, p: seq<Vec>)
      ensures this.y == y && this.lambda == lambda && this.q0 == q0 && this.q1 == q1
      ensures this.q2 == q2 && this.z == z && this.p == p
    {
      this.y, this.lambda, this.q0, this.q1, this.q2, this.z, this.p := y, lambda, q0, q1, q2, z, p;
    }
  }

  class ScleronomousRelation {
    var hPlugin: PluggedObject<HPlugin>
    var jachqPlugin: PluggedObject<JacobianPlugin>
    var dotJachqPlugin: PluggedObject<DotJacobianPlugin>
    var jachq: Mat
    var dotjachq: Option<Mat>

    /** The constructors: h and its Jacobian, and the Jacobian's derivative for event-driven schemes (else unplugged). */
    constructor (h: PluggedObject<HPlugin>, jac: PluggedObject<JacobianPlugin>, dotJac: PluggedObject<DotJacobianPlugin>, jachq: Mat)
      ensures hPlugin == h && jachqPlugin == jac && dotJachqPlugin == dotJac
      ensures this.jachq == jachq && dotjachq.None?
    {
      hPlugin, jachqPlugin, dotJachqPlugin := h, jac, dotJac;
      this.jachq := jachq;
      dotjachq := None;
    }

    /** initComponents: allocates a zero J̇ of size sizeY × sizeDS, only when the J̇ plugin is set and J̇ is absent. */
    method InitComponents(sizeY: nat, sizeDS: nat)
      modifies this`dotjachq
      ensures dotJachqPlugin.fPtr.Some? && old(dotjachq).None? ==> dotjachq == Some(ZeroMatrix(sizeY, sizeDS))
      ensures dotJachqPlugin.fPtr.None? || old(dotjachq).Some? ==> dotjachq == old(dotjachq)
    {
      if dotJachqPlugin.fPtr.Some? && dotjachq.None? {
        dotjachq := Some(ZeroMatrix(sizeY, sizeDS));
      }
    }

    /** computeh: y is written only through the h plugin; without one it is left as it is. */
    function ComputeH(q: Vec, z: Vec, y: Vec): (r: Vec)
      reads this`hPlugin
      ensures hPlugin.fPtr.None? ==> r == y
      ensures hPlugin.fPtr.Some? ==> r == hPlugin.fPtr.value(q, z)
    {
      match hPlugin.fPtr
      case None => y
      case Some(h) => h(q, z)
    }

    /** computeJachq: J is recomputed by its plugin; without one it stays. */
    method ComputeJachq(q: Vec, z: Vec)
      modifies this`jachq
      ensures jachq == Jacobian(jachqPlugin, old(jachq), q, z)
      ensures jachqPlugin.fPtr.None? ==> jachq == old(jachq)
    {
      if jachqPlugin.fPtr.Some? {
        jachq := jachqPlugin.fPtr.value(q, z);
      }
    }

    /** computeDotJachq: J̇ is recomputed by its plugin; without one it stays. */
    method ComputeDotJachq(q: Vec, z: Vec, qDot: Vec) returns (s: Status)
      modifies this`dotjachq
      ensures s.Raised? <==> dotJachqPlugin.fPtr.Some? && old(dotjachq).None?
      ensures s.Raised? ==> s.error == NullDotJacobian
      ensures dotjachq == DotJacobian(dotJachqPlugin, old(dotjachq), q, z, qDot)
      ensures dotJachqPlugin.fPtr.None? ==> dotjachq == old(dotjachq)
    {
      s := Ok;
      if dotJachqPlugin.fPtr.Some? {
        if dotjachq.None? {
          return Raised(NullDotJacobian);
        }
        dotjachq := Some(dotJachqPlugin.fPtr.value(q, z, qDot));
      }
    }

    /**
     * computeOutput at a derivative level: 0 gives h(q, z), 1 gives J·q1,
     * 2 gives J·q2 + J̇·q1; any other level raises after J was recomputed.
     * A product whose operands do not conform raises before writing; at level 2
     * the second product runs after the first has already written y.
     */
    method ComputeOutput(inter: Interaction, level: nat) returns (s: Status)
      requires level < |inter.y|
      modifies this`jachq, this`dotjachq, inter`y
      ensures |inter.y| == |old(inter.y)|
      ensures forall l :: 0 <= l < |inter.y| && l != level ==> inter.y[l] == old(inter.y[l])
      ensures level == 0 ==> s.Ok? && jachq == old(jachq) && dotjachq == old(dotjachq)
                             && inter.y[0] == ComputeH(inter.q0, inter.z, old(inter.y[0]))
      ensures level >= 1 ==> jachq == Jacobian(jachqPlugin, old(jachq), inter.q0, inter.z)
      ensures level == 1 || level > 2 ==> dotjachq == old(dotjachq)
      ensures level == 1 ==> (s.Ok? <==> IsMat(jachq, |old(inter.y[1])|, |inter.q1|))
      ensures level == 1 && s.Ok? ==> inter.y[1] == MatVec(jachq, inter.q1)
      ensures level == 1 && s.Raised? ==> s.error == InconsistentSizes && inter.y == old(inter.y)
      ensures level > 2 ==> s == Raised(LevelOutOfRange) && inter.y == old(inter.y)
      ensures level == 2 ==> dotjachq == DotJacobian(dotJachqPlugin, old(dotjachq), inter.q0, inter.z, inter.q1)
      ensures level == 2 && dotJachqPlugin.fPtr.Some? && old(dotjachq).None? ==>
        s == Raised(NullDotJacobian) && inter.y == old(inter.y)
      ensures level == 2 && !(dotJachqPlugin.fPtr.Some? && old(dotjachq).None?) ==>
        if !IsMat(jachq, |old(inter.y[2])|, |inter.q2|) then
          s == Raised(InconsistentSizes) && inter.y == old(inter.y)
        else if dotjachq.None? then
          s == Raised(NullDotJacobian) && inter.y[2] == MatVec(jachq, inter.q2)
        else if !IsMat(dotjachq.value, |old(inter.y[2])|, |inter.q1|) then
          s == Raised(InconsistentSizes) && inter.y[2] == MatVec(jachq, inter.q2)
        else
          s.Ok? && inter.y[2] == Add(MatVec(jachq, inter.q2), MatVec(dotjachq.value, inter.q1))
    {
      var q, z := inter.q0, inter.z;
      if level == 0 {
        inter.y := inter.y[0 := ComputeH(q, z, inter.y[0])];
        return Ok;
      }
      ComputeJachq(q, z);
      if level == 1 {
        if !IsMat(jachq, |inter.y[1]|, |inter.q1|) {
          return Raised(InconsistentSizes);
        }
        inter.y := inter.y[1 := MatVec(jachq, inter.q1)];
        s := Ok;
      } else if level == 2 {
        s := ComputeDotJachq(q, z, inter.q1);
        if s.Raised? {
          return;
        }
        var n := |inter.y[2]|;
        if !IsMat(jachq, n, |inter.q2|) {
          return Raised(InconsistentSizes);
        }
        inter.y := inter.y[2 := MatVec(jachq, inter.q2)];
        if dotjachq.None? {
          return Raised(NullDotJacobian);
        }
        if !IsMat(dotjachq.value, n, |inter.q1|) {
          return Raised(InconsistentSizes);
        }
        inter.y := inter.y[2 := Add(inter.y[2], MatVec(dotjachq.value, inter.q1))];
      } else {
        s := Raised(LevelOutOfRange);
      }
    }

    /** computeInput: p(level) += Jᵀ·λ(level), accumulating into p; J is recomputed first. */
    method ComputeInput(inter: Interaction, level: nat) returns (s: Status)
      requires level < |inter.lambda| && level < |inter.p|
      modifies this`jachq, inter`p
      ensures jachq == Jacobian(jachqPlugin, old(jachq), inter.q0, inter.z)
      ensures s.Ok? <==> IsMat(jachq, |inter.lambda[level]|, |old(inter.p[level])|)
      ensures s.Raised? ==> s.error == InconsistentSizes && inter.p == old(inter.p)
      ensures s.Ok? ==> inter.p == old(inter.p)[level := Add(old(inter.p[level]), TMatVec(jachq, inter.lambda[level], |old(inter.p[level])|))]
    {
      ComputeJachq(inter.q0, inter.z);
      var lambda, n := inter.lambda[level], |inter.p[level]|;
      if !IsMat(jachq, |lambda|, n) {
        return Raised(InconsistentSizes);
      }
      inter.p := inter.p[level := Add(inter.p[level], TMatVec(jachq, lambda, n))];
      s := Ok;
    }

    /** computeJach: recomputes J at (q0, z) and J̇ at (q0, z, q1). */
    method ComputeJach(inter: Interaction) returns (s: Status)
      modifies this`jachq, this`dotjachq
      ensures jachq == Jacobian(jachqPlugin, old(jachq), inter.q0, inter.z)
      ensures dotjachq == DotJacobian(dotJachqPlugin, old(dotjachq), inter.q0, inter.z, inter.q1)
      ensures s.Raised? <==> dotJachqPlugin.fPtr.Some? && old(dotjachq).None?
    {
      ComputeJachq(inter.q0, inter.z);
      s := ComputeDotJachq(inter.q0, inter.z, inter.q1);
    }

    /** getJachqName: the Jacobian plugin's name when it is connected, "unamed" otherwise. */
    function GetJachqName(): (r: string)
      reads this`jachqPlugin
      ensures jachqPlugin.fPtr.Some? ==> r == jachqPlugin.name
      ensures jachqPlugin.fPtr.None? ==> r == "unamed"
    {
      if jachqPlugin.fPtr.Some? then jachqPlugin.name else "unamed"
    }
  }
}
