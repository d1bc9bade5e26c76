/**
 * LsodarOSI: the event-driven integrator built on ODEPACK's DLSODAR.  Its
 * integer parameters live in a nine-slot array handed to the Fortran routine
 * by address; tolerances and work spaces are C arrays it reallocates; the
 * integrated state is a block vector whose blocks are the systems' own
 * vectors.
 */
module LsodarOSI {
  import opened Wrappers
  import opened LinAlg
  import opened BlockVectors
  import opened IntegratorCommon
  import M = MoreauJeanGOSI

  // ---------------------------------------------------------------------------
  // Slots of the integer parameter array (intData), as DLSODAR names them
  // ---------------------------------------------------------------------------

  const Neq := 0
  const Ng := 1
  const Itol := 2
  const Itask := 3
  const Istate := 4
  const Iopt := 5
  const Lrw := 6
  const Liw := 7
  const Jt := 8

  /** Length of the real work space: 22 + neq·max(16, neq + 9) + 3·ng. */
  function RealWorkSize(neq: nat, ng: nat): (n: nat)
  {
    22 + neq * (if 16 < neq + 9 then neq + 9 else 16) + 3 * ng
  }

  /** Length of the integer work space: 20 + neq. */
  function IntWorkSize(neq: nat): (n: nat)
  {
    20 + neq
  }

  /**
   * The work spaces always hold the optional-input slots the setters write
   * (rwork[5..6], iwork[5..8]) and the counters DLSODAR reports (iwork[10..11]),
   * and grow with the problem as DLSODAR's documented minimum does.
   */
  lemma WorkSizesHoldOptionSlots(neq: nat, ng: nat)
    ensures RealWorkSize(neq, ng) > 6 && IntWorkSize(neq) > 11
    ensures RealWorkSize(neq, ng) >= 22 + 16 * neq + 3 * ng
    ensures RealWorkSize(neq, ng) >= 22 + neq * (neq + 9) + 3 * ng
  {
  }

  lemma RealWorkSizeMonotone(neq: nat, ng: nat, neq': nat, ng': nat)
    requires neq <= neq' && ng <= ng'
    ensures RealWorkSize(neq, ng) <= RealWorkSize(neq', ng')
  {
    var m := if 16 < neq + 9 then neq + 9 else 16;
    var m' := if 16 < neq' + 9 then neq' + 9 else 16;
    assert m <= m';
    assert neq * m <= neq' * m by {
      assert neq' * m == neq * m + (neq' - neq) * m;
    }
    assert neq' * m <= neq' * m' by {
      assert neq' * m' == neq' * m + neq' * (m' - m);
    }
  }

  // ---------------------------------------------------------------------------
  // The systems and the state block vector
  // ---------------------------------------------------------------------------

  /** A dynamical system as the integrator sees it: its kind and its state vectors. */
  datatype OdeSystem = OdeSystem(kind: M.DsType, q: array<real>, velocity: array<real>, x: array<real>)

  /** The blocks initialize inserts: q then velocity for a Lagrangian system, x otherwise. */
  function StateBlocks(systems: seq<OdeSystem>): (r: seq<array<real>>)
  {
    if |systems| == 0 then []
    else
      var ds := systems[|systems| - 1];
      StateBlocks(systems[..|systems| - 1]) +
        (if ds.kind == M.LagrangianDS || ds.kind == M.LagrangianLinearTIDS then [ds.q, ds.velocity] else [ds.x])
  }

  /** Every system contributes its own vectors: two blocks for a Lagrangian system, one otherwise. */
  lemma {:induction false} StateBlocksShape(systems: seq<OdeSystem>)
    ensures |StateBlocks(systems)| == |LagrangianIndices(systems)| + |systems|
    ensures forall b :: b in StateBlocks(systems) ==>
      exists k :: 0 <= k < |systems| && (b == systems[k].x || b == systems[k].q || b == systems[k].velocity)
  {
    if |systems| > 0 {
      var init := systems[..|systems| - 1];
      StateBlocksShape(init);
      forall b | b in StateBlocks(systems)
        ensures exists k :: 0 <= k < |systems| && (b == systems[k].x || b == systems[k].q || b == systems[k].velocity)
      {
        if b in StateBlocks(init) {
          var k :| 0 <= k < |init| && (b == init[k].x || b == init[k].q || b == init[k].velocity);
          assert systems[k] == init[k];
        } else {
          assert b == systems[|systems| - 1].x || b == systems[|systems| - 1].q || b == systems[|systems| - 1].velocity;
        }
      }
    }
  }

  /** The indices of the Lagrangian systems (each adds a second block). */
  function LagrangianIndices(systems: seq<OdeSystem>): seq<nat>
  {
    if |systems| == 0 then []
    else
      var ds := systems[|systems| - 1];
      LagrangianIndices(systems[..|systems| - 1]) +
        (if ds.kind == M.LagrangianDS || ds.kind == M.LagrangianLinearTIDS then [|systems| - 1] else [])
  }

  // ---------------------------------------------------------------------------
  // The DLSODAR call
  // ---------------------------------------------------------------------------

  /** What one call of DLSODAR receives. */
  datatype LsodarCall = LsodarCall(
    neq: int, x: Vec, t: real, tout: real, itol: int, rtol: seq<real>, atol: seq<real>,
    itask: int, istate: int, iopt: int, rwork: seq<real>, lrw: int, iwork: seq<int>, liw: int,
    jt: int, ng: int, jroot: seq<int>)

  /**
   * What it hands back through its reference arguments: the state it
   * integrated in place, the time reached t, tout, istate, and what it left
   * in its work arrays: its integration history in rwork and iwork, with the
   * step and right-hand-side counts in iwork(11) and iwork(12), and in jroot
   * a 1 for every constraint function with a root at t.  evaluated is the
   * state DLSODAR passed to the last of its callbacks f, g and jacobianf,
   * which the simulation copies into the systems' blocks (fillXWork) before
   * it evaluates anything; it is None when DLSODAR called none of them.
   */
  datatype LsodarReturn = LsodarReturn(x: Vec, t: real, tout: real, istate: int,
    rwork: seq<real>, iwork: seq<int>, jroot: seq<int>, evaluated: Option<Vec>)

  /** DLSODAR keeps the lengths of the state and of the arrays it works in, and calls back with states of that length. */
  predicate KeepsSizes(c: LsodarCall, ret: LsodarReturn) {
    |ret.x| == |c.x| && |ret.rwork| == |c.rwork| && |ret.iwork| == |c.iwork| && |ret.jroot| == |c.jroot| &&
    (ret.evaluated.Some? ==> |ret.evaluated.value| == |c.x|)
  }

  /** The Fortran routine, seen as a function of its inputs. */
  type Dlsodar = f: LsodarCall -> LsodarReturn | forall c :: KeepsSizes(c, f(c))
    witness (c: LsodarCall) => LsodarReturn(c.x, c.t, c.tout, c.istate, c.rwork, c.iwork, c.jroot, None)

  /** The times and the state flag integrate returns through its reference arguments. */
  datatype Step = Step(tout: real, tend: real, istate: int)

  datatype LsodarError =
    | IntegrationFailed(istate: int)   // DLSODAR returned a negative istate
    | WrongProblem                     // computeFreeOutput for a problem that is neither impact nor acceleration
    | RheonomousAtAcceleration         // rheonomous relation on the acceleration problem
    | RheonomousNotImplemented         // rheonomous relation on another problem than the velocity one
    | RelationNotImplemented           // a relation that is not Lagrangian
    | UnhandledNonSmoothLaw            // a law the restitution visitor has no case for

  /** The istate integrate passes on: a request to restart (3) becomes a first call (1). */
  function RestartIstate(istate: int): int
  {
    if istate == 3 then 1 else istate
  }

  // ---------------------------------------------------------------------------
  // The integrator
  // ---------------------------------------------------------------------------

  class LsodarOSI {
    var intData: array<int>
    var rtol: array<real>
    var atol: array<real>
    var rwork: array<real>
    var iwork: array<int>
    var jroot: array<int>
    var xWork: seq<array<real>>
    var sizeMem: int
    var countNST: int
    var countNFE: int

    /** The parameter array has its nine slots; it, the integer work space and jroot are three arrays. */
    predicate Valid()
      reads this
    {
      intData.Length == 9 && intData != iwork && intData != jroot && iwork != jroot
    }

    /** The arguments integrate passes to DLSODAR, in the current state. */
    ghost function Call(tinit: real, tend: real, istate: int): LsodarCall
      reads this, intData, rtol, atol, rwork, iwork, jroot, set b | b in xWork
      requires Valid()
    {
      LsodarCall(intData[Neq], Concat(Contents(xWork)), tinit, tend, intData[Itol], rtol[..], atol[..],
        intData[Itask], RestartIstate(istate), intData[Iopt], rwork[..], intData[Lrw], iwork[..], intData[Liw],
        intData[Jt], intData[Ng], jroot[..])
    }

    /** The parameter array starts with nine zeros; two past states are kept. */
    constructor ()
      ensures Valid() && intData[..] == seq(9, _ => 0) && sizeMem == 2
      ensures xWork == [] && rtol.Length == 0 && atol.Length == 0
      ensures rwork.Length == 0 && iwork.Length == 0 && jroot.Length == 0
    {
      intData := new int[9](_ => 0);
      sizeMem := 2;
      rtol := new real[0];
      atol := new real[0];
      rwork := new real[0];
      iwork := new int[0];
      jroot := new int[0];
      xWork := [];
    }

    /** setTol with arrays: itol is recorded and the given arrays become the tolerances. */
    method SetTolArrays(newItol: int, newRtol: array<real>, newAtol: array<real>)
      requires Valid()
      modifies intData, this`rtol, this`atol
      ensures Valid()
      ensures intData[..] == old(intData[..])[Itol := newItol]
      ensures rtol == newRtol && atol == newAtol
    {
      intData[Itol] := newItol;
      rtol := newRtol;
      atol := newAtol;
    }

    /** setMinMaxStepSizes: optional inputs are switched on and rwork(6), rwork(7) set. */
    method SetMinMaxStepSizes(minStep: real, maxStep: real)
      requires Valid() && rwork.Length > 6
      modifies intData, rwork
      ensures intData[..] == old(intData[..])[Iopt := 1]
      ensures rwork[..] == old(rwork[..])[5 := minStep][6 := maxStep]
    {
      intData[Iopt] := 1;
      rwork[5] := minStep;
      rwork[6] := maxStep;
    }

    /** setMaxNstep: optional inputs are switched on and iwork(6) set. */
    method SetMaxNstep(maxNumberSteps: int)
      requires Valid() && iwork.Length > 5
      modifies intData, iwork
      ensures intData[..] == old(intData[..])[Iopt := 1]
      ensures iwork[..] == old(iwork[..])[5 := maxNumberSteps]
    {
      intData[Iopt] := 1;
      iwork[5] := maxNumberSteps;
    }

    /** setTol with scalars, as written: atol(1) receives newRtol. */
    method SetTolAsWritten(newItol: int, newRtol: real, newAtol: real)
      requires Valid() && rtol.Length > 0 && atol.Length > 0 && rtol != atol
      modifies intData, rtol, atol
      ensures intData[..] == old(intData[..])[Itol := newItol]
      ensures (rtol[..], atol[..]) == ScalarTolAsWritten(old(rtol[..]), old(atol[..]), newRtol, newAtol)
    {
      intData[Itol] := newItol;
      rtol[0] := newRtol;
      atol[0] := newRtol;
    }

    /** setTol with scalars, corrected: atol(1) receives newAtol. */
    method SetTol(newItol: int, newRtol: real, newAtol: real)
      requires Valid() && rtol.Length > 0 && atol.Length > 0 && rtol != atol
      modifies intData, rtol, atol
      ensures intData[..] == old(intData[..])[Itol := newItol]
      ensures (rtol[..], atol[..]) == ScalarTol(old(rtol[..]), old(atol[..]), newRtol, newAtol)
    {
      intData[Itol] := newItol;
      rtol[0] := newRtol;
      atol[0] := newAtol;
    }

    /** setMaxOrder: optional inputs are switched on and iwork(8), iwork(9) set. */
    method SetMaxOrder(maxorderNonStiff: int, maxorderStiff: int)
      requires Valid() && iwork.Length > 8
      modifies intData, iwork
      ensures intData[..] == old(intData[..])[Iopt := 1]
      ensures iwork[..] == old(iwork[..])[7 := maxorderNonStiff][8 := maxorderStiff]
    {
      intData[Iopt] := 1;
      iwork[7] := maxorderNonStiff;
      iwork[8] := maxorderStiff;
    }

    /**
     * updateData: tolerances and work spaces are reallocated to the sizes the
     * parameter array gives; all but rtol are zero-filled.
     */
    method UpdateData()
      requires Valid()
      requires intData[Neq] >= 0 && intData[Ng] >= 0 && intData[Lrw] >= 0 && intData[Liw] >= 0
      modifies this`rtol, this`atol, this`iwork, this`rwork, this`jroot
      ensures Valid()
      ensures fresh(rtol) && fresh(atol) && fresh(iwork) && fresh(rwork) && fresh(jroot) && rtol != atol
      ensures rtol.Length == intData[Neq] && atol[..] == Zeros(intData[Neq])
      ensures iwork.Length == intData[Liw] && forall i :: 0 <= i < iwork.Length ==> iwork[i] == 0
      ensures rwork[..] == Zeros(intData[Lrw])
      ensures jroot.Length == intData[Ng] && forall i :: 0 <= i < jroot.Length ==> jroot[i] == 0
    {
      rtol := new real[intData[Neq]];
      atol := NewZeroReals(intData[Neq]);
      iwork := NewZeroInts(intData[Liw]);
      rwork := NewZeroReals(intData[Lrw]);
      jroot := NewZeroInts(intData[Ng]);
    }

    /** fillXWork: the state vector DLSODAR works on is copied into the systems' blocks. */
    method FillXWork(x: seq<real>)
      requires Distinct(xWork) && |x| == Sum(Sizes(xWork))
      modifies set b | b in xWork
      ensures Contents(xWork) == Split(x, Sizes(xWork))
      ensures Concat(Contents(xWork)) == x
    {
      Scatter(xWork, x);
      ConcatSplit(x, Sizes(xWork));
    }

    /** The blocks of the systems, inserted in order. */
    method CollectStateBlocks(systems: seq<OdeSystem>) returns (blocks: seq<array<real>>)
      ensures blocks == StateBlocks(systems)
    {
      blocks := [];
      var k := 0;
      while k < |systems|
        invariant 0 <= k <= |systems| && blocks == StateBlocks(systems[..k])
      {
        assert systems[..k + 1][..k] == systems[..k];
        var ds := systems[k];
        if ds.kind == M.LagrangianDS || ds.kind == M.LagrangianLinearTIDS {
          blocks := blocks + [ds.q, ds.velocity];
        } else {
          blocks := blocks + [ds.x];
        }
        k := k + 1;
      }
      assert systems[..k] == systems;
    }

    /**
     * initialize: gathers the state blocks, sizes DLSODAR's problem, allocates
     * and zeroes the work spaces and stores the default tolerances.  ng is the
     * number of constraint functions the simulation reports.
     */
    method Initialize(systems: seq<OdeSystem>, ng: nat, rtolDefault: real, atolDefault: real)
      requires Valid() && Sum(Sizes(StateBlocks(systems))) > 0
      modifies this, intData
      ensures Valid() && xWork == StateBlocks(systems)
      ensures var neq := Sum(Sizes(xWork));
        intData[..] == [neq, ng, 1, 1, 1, 0, RealWorkSize(neq, ng), IntWorkSize(neq), 2]
      ensures var neq := Sum(Sizes(xWork));
        rtol.Length == neq && rtol[0] == rtolDefault &&
        atol[..] == [atolDefault] + Zeros(neq - 1) &&
        rwork[..] == Zeros(RealWorkSize(neq, ng)) &&
        iwork.Length == IntWorkSize(neq) && (forall i :: 0 <= i < iwork.Length ==> iwork[i] == 0) &&
        jroot.Length == ng && forall i :: 0 <= i < ng ==> jroot[i] == 0
      ensures rwork.Length > 6 && iwork.Length > 11
      ensures intData == old(intData) && sizeMem == old(sizeMem)
      ensures countNST == old(countNST) && countNFE == old(countNFE)
    {
      xWork := CollectStateBlocks(systems);
      var neq := Sum(Sizes(xWork));
      SetProblemSizes(neq, ng);
      AllocateWork(neq, ng, rtolDefault, atolDefault);
    }

    /** The tolerances and work spaces of initialize, sized by the parameters already stored. */
    method AllocateWork(neq: nat, ng: nat, rtolDefault: real, atolDefault: real)
      requires Valid() && neq > 0
      requires intData[..] == [neq, ng, 1, 1, 1, 0, RealWorkSize(neq, ng), IntWorkSize(neq), 2]
      modifies this`rtol, this`atol, this`iwork, this`rwork, this`jroot
      ensures Valid()
      ensures rtol.Length == neq && rtol[0] == rtolDefault &&
        atol[..] == [atolDefault] + Zeros(neq - 1) &&
        rwork[..] == Zeros(RealWorkSize(neq, ng)) &&
        iwork.Length == IntWorkSize(neq) && (forall i :: 0 <= i < iwork.Length ==> iwork[i] == 0) &&
        jroot.Length == ng && forall i :: 0 <= i < ng ==> jroot[i] == 0
      ensures rwork.Length > 6 && iwork.Length > 11
    {
      assert intData[Neq] == neq && intData[Ng] == ng;
      assert intData[Lrw] == RealWorkSize(neq, ng) && intData[Liw] == IntWorkSize(neq);
      UpdateData();
      WorkSizesHoldOptionSlots(neq, ng);
      ClearOptionalInputs();
      StoreDefaultTolerances(rtolDefault, atolDefault);
    }

    /** The parameter slots initialize sets: sizes, itol = itask = istate = 1, no optional input, jt = 2. */
    method SetProblemSizes(neq: nat, ng: nat)
      requires Valid()
      modifies intData
      ensures intData[..] == [neq, ng, 1, 1, 1, 0, RealWorkSize(neq, ng), IntWorkSize(neq), 2]
    {
      intData[Neq] := neq;
      intData[Ng] := ng;
      intData[Itol] := 1;
      intData[Itask] := 1;
      intData[Iopt] := 0;
      intData[Istate] := 1;
      intData[Lrw] := RealWorkSize(neq, ng);
      intData[Liw] := IntWorkSize(neq);
      intData[Jt] := 2;
    }

    /** iwork(5) to iwork(9) are reset, so that DLSODAR takes its defaults for them. */
    method ClearOptionalInputs()
      requires iwork.Length > 8
      modifies iwork
      ensures forall i :: 0 <= i < iwork.Length ==> iwork[i] == if 4 <= i <= 8 then 0 else old(iwork[i])
    {
      iwork[4] := 0;
      iwork[5] := 0;
      iwork[6] := 0;
      iwork[7] := 0;
      iwork[8] := 0;
    }

    /** The default tolerances go into the first entries of rtol and atol. */
    method StoreDefaultTolerances(rtolDefault: real, atolDefault: real)
      requires rtol.Length > 0 && atol.Length > 0 && rtol != atol
      modifies rtol, atol
      ensures rtol[..] == old(rtol[..])[0 := rtolDefault] && atol[..] == old(atol[..])[0 := atolDefault]
    {
      rtol[0] := rtolDefault;
      atol[0] := atolDefault;
    }

    /**
     * integrate: one DLSODAR call from tinit towards tend.  A restart request
     * (istate 3) reaches DLSODAR as a first call (1).  Whatever the outcome,
     * intData(5) holds the istate DLSODAR returned and rwork, iwork and jroot
     * what it left in them.  A negative istate is an error: the systems' blocks
     * hold the state the last callback received, or their old state when
     * DLSODAR called back none; otherwise the integrated state goes back into the
     * systems' blocks, the reached time and DLSODAR's tout are returned with
     * its istate, and the step counters are read from iwork(11) and iwork(12).
     * rwork must be none of the state blocks.
     */
    method Integrate(tinit: real, tend: real, istate: int, dlsodar: Dlsodar) returns (r: Result<Step, LsodarError>)
      requires Valid() && iwork.Length > 11 && Distinct(xWork) && rwork !in xWork
      modifies intData, rwork, iwork, jroot, set b | b in xWork, this`countNST, this`countNFE
      ensures Valid()
      ensures old(Call(tinit, tend, istate)).istate == if istate == 3 then 1 else istate
      ensures var ret := dlsodar(old(Call(tinit, tend, istate)));
        intData[..] == old(intData[..])[Istate := ret.istate] &&
        rwork[..] == ret.rwork && iwork[..] == ret.iwork && jroot[..] == ret.jroot
      ensures var ret := dlsodar(old(Call(tinit, tend, istate)));
        (r.Failure? <==> ret.istate < 0) &&
        (r.Failure? ==> (r.error == IntegrationFailed(ret.istate) &&
           (ret.evaluated.None? ==> Contents(xWork) == old(Contents(xWork))) &&
           countNST == old(countNST) && countNFE == old(countNFE)))
      ensures var ret := dlsodar(old(Call(tinit, tend, istate)));
        ret.evaluated.Some? && r.Failure? ==>
          |ret.evaluated.value| == Sum(Sizes(xWork)) && Contents(xWork) == Split(ret.evaluated.value, Sizes(xWork))
      ensures var ret := dlsodar(old(Call(tinit, tend, istate)));
        r.Success? ==>
          r.value == Step(ret.t, ret.tout, ret.istate) &&
          |ret.x| == Sum(Sizes(xWork)) &&
          Contents(xWork) == Split(ret.x, Sizes(xWork)) &&
          Concat(Contents(xWork)) == ret.x &&
          |ret.iwork| > 11 && countNST == ret.iwork[10] && countNFE == ret.iwork[11]
    {
      var ret := Launch(tinit, tend, istate, dlsodar);
      if ret.istate < 0 {
        return Failure(IntegrationFailed(ret.istate));
      }
      Accept(ret);
      r := Success(Step(ret.t, ret.tout, ret.istate));
    }

    /** After a successful call: the state goes back into the blocks and the counters are read. */
    method Accept(ret: LsodarReturn)
      requires Valid() && Distinct(xWork)
      requires |ret.x| == |Concat(Contents(xWork))| && iwork.Length > 11 && iwork[..] == ret.iwork
      modifies set b | b in xWork, this`countNST, this`countNFE
      ensures |ret.x| == Sum(Sizes(xWork))
      ensures Contents(xWork) == Split(ret.x, Sizes(xWork)) && Concat(Contents(xWork)) == ret.x
      ensures countNST == ret.iwork[10] && countNFE == ret.iwork[11]
    {
      ConcatSize(xWork);
      FillXWork(ret.x);
      countNST := iwork[10];
      countNFE := iwork[11];
    }

    /**
     * The DLSODAR call itself: the state is copied out of the blocks and the
     * istate it is started with goes in through intData(5).  istate comes
     * back there, and rwork, iwork and jroot receive in place what DLSODAR
     * left in them.  DLSODAR works on the copy; the blocks receive only what
     * its callbacks copy into them, the state the last one received.
     */
    method Launch(tinit: real, tend: real, istate: int, dlsodar: Dlsodar) returns (ret: LsodarReturn)
      requires Valid() && Distinct(xWork) && rwork !in xWork
      modifies intData, rwork, iwork, jroot, set b | b in xWork
      ensures old(Call(tinit, tend, istate)).istate == if istate == 3 then 1 else istate
      ensures ret == dlsodar(old(Call(tinit, tend, istate)))
      ensures |ret.x| == |Concat(Contents(xWork))|
      ensures intData[..] == old(intData[..])[Istate := ret.istate]
      ensures rwork[..] == ret.rwork && iwork[..] == ret.iwork && jroot[..] == ret.jroot
      ensures ret.evaluated.Some? ==>
        |ret.evaluated.value| == Sum(Sizes(xWork)) && Contents(xWork) == Split(ret.evaluated.value, Sizes(xWork))
      ensures ret.evaluated.None? ==> Contents(xWork) == old(Contents(xWork))
    {
      ret := Invoke(tinit, tend, istate, dlsodar);
      Called(ret.evaluated);
      ConcatSize(xWork);
    }

    /**
     * Launch with the blocks as DLSODAR's copy leaves them, before the
     * callbacks' writes are accounted for.  A proof step of Launch.
     */
    method Invoke(tinit: real, tend: real, istate: int, dlsodar: Dlsodar) returns (ret: LsodarReturn)
      requires Valid() && rwork !in xWork
      modifies intData, rwork, iwork, jroot
      ensures old(Call(tinit, tend, istate)).istate == if istate == 3 then 1 else istate
      ensures ret == dlsodar(old(Call(tinit, tend, istate)))
      ensures |ret.x| == Sum(Sizes(xWork))
      ensures ret.evaluated.Some? ==> |ret.evaluated.value| == Sum(Sizes(xWork))
      ensures intData[..] == old(intData[..])[Istate := ret.istate]
      ensures rwork[..] == ret.rwork && iwork[..] == ret.iwork && jroot[..] == ret.jroot
      ensures Contents(xWork) == old(Contents(xWork))
    {
      label entry:
      ConcatSize(xWork);
      var xtmp := Gather(xWork);
      var start := RestartIstate(istate);
      var call := LsodarCall(intData[Neq], xtmp, tinit, tend, intData[Itol], rtol[..], atol[..],
        intData[Itask], start, intData[Iopt], rwork[..], intData[Lrw], iwork[..], intData[Liw],
        intData[Jt], intData[Ng], jroot[..]);
      intData[Istate] := start;
      ret := dlsodar(call);
      StoreReturn(ret);
      ContentsKept@entry(xWork);
    }

    /**
     * What the callbacks leave in the systems' blocks: each copies the state
     * it receives into them (fillXWork), so they hold the last one's.
     */
    method Called(evaluated: Option<Vec>)
      requires Distinct(xWork) && (evaluated.Some? ==> |evaluated.value| == Sum(Sizes(xWork)))
      modifies set b | b in xWork
      ensures evaluated.Some? ==> Contents(xWork) == Split(evaluated.value, Sizes(xWork))
      ensures evaluated.None? ==> Contents(xWork) == old(Contents(xWork))
    {
      if evaluated.Some? {
        FillXWork(evaluated.value);
      }
    }

    /** istate, rwork, iwork and jroot receive what DLSODAR returned; rwork is none of the blocks.  A proof step of Launch. */
    method StoreReturn(ret: LsodarReturn)
      requires Valid() && rwork !in xWork
      requires |ret.rwork| == rwork.Length && |ret.iwork| == iwork.Length && |ret.jroot| == jroot.Length
      modifies intData, rwork, iwork, jroot
      ensures intData[..] == old(intData[..])[Istate := ret.istate]
      ensures rwork[..] == ret.rwork && iwork[..] == ret.iwork && jroot[..] == ret.jroot
      ensures Contents(xWork) == old(Contents(xWork))
    {
      label start:
      intData[Istate] := ret.istate;
      StoreReals(rwork, ret.rwork);
      StoreInts(iwork, ret.iwork);
      StoreInts(jroot, ret.jroot);
      ContentsKept@start(xWork);
    }
  }

  // ---------------------------------------------------------------------------
  // computeFreeOutput
  // ---------------------------------------------------------------------------

  /** The laws the restitution visitor of this integrator knows, and the others. */
  datatype ImpactLaw = NewtonImpact(e: real) | MultipleImpact | OtherImpactLaw

  datatype RelationSubType = ScleronomousR | RheonomousR | OtherSubType

  /**
   * Where the problems stand in the simulation's list: the one-step problem is
   * recognised by the slot it occupies.
   */
  datatype Slots = Slots(edImpact: int, edSmoothAcc: int, tsVelocity: int)

  datatype FreeOutputInput = FreeOutputInput(
    slot: int,              // the slot of the problem asking
    relation: M.RelationType,
    subType: RelationSubType,
    C: Option<Mat>,         // the relation's C, when it has one
    lawSize: nat,
    law: ImpactLaw,
    xfree: Vec,             // the systems' free acceleration (acceleration problem)
    q1: Vec,                // the systems' velocity (impact problem)
    yOld: Vec,              // y at the problem's input/output level, before the step
    hDot: Vec,              // ∂h/∂t of a rheonomous relation
    dotjacqhXqdot: Vec)     // the non-linear acceleration term of a scleronomous relation

  /** The sizes every operation of computeFreeOutput relies on. */
  predicate WellSized(inp: FreeOutputInput, ySize: nat) {
    inp.lawSize <= ySize &&
    (inp.C.Some? ==> IsMat(inp.C.value, inp.lawSize, |inp.xfree|) && |inp.q1| == |inp.xfree|) &&
    inp.lawSize <= |inp.yOld| && inp.lawSize <= |inp.hDot| && inp.lawSize <= |inp.dotjacqhXqdot|
  }

  /** The vector the C product is taken with: xfree for acceleration, q1 for impact. */
  function Xfree(slots: Slots, inp: FreeOutputInput): Vec {
    if inp.slot == slots.edSmoothAcc then inp.xfree else inp.q1
  }

  datatype FreeOutput = FreeOutput(y: Vec, status: Result<(), LsodarError>)

  /** y with its first lawSize entries replaced by C·Xfree when the relation has a C. */
  function ProjectedOutput(slots: Slots, inp: FreeOutputInput, y0: Vec): (y1: Vec)
    requires WellSized(inp, |y0|)
    ensures |y1| == |y0|
    ensures forall i :: 0 <= i < |y0| ==>
      y1[i] == if i < inp.lawSize && inp.C.Some? then Dot(inp.C.value[i], Xfree(slots, inp)) else y0[i]
  {
    if inp.C.Some? then Overwrite(y0, MatVec(inp.C.value, Xfree(slots, inp))) else y0
  }

  /** The projected output plus the relation's own term: ḣ for a rheonomous relation, Ḣq̇ for a scleronomous one at acceleration level. */
  function WithRelationTerm(slots: Slots, inp: FreeOutputInput, y0: Vec): (y2: Vec)
    requires WellSized(inp, |y0|)
    ensures |y2| == |y0|
    ensures forall i :: 0 <= i < |y0| ==>
      y2[i] == ProjectedOutput(slots, inp, y0)[i] +
        if i >= inp.lawSize then 0.0
        else if inp.subType == RheonomousR then inp.hDot[i]
        else if inp.subType == ScleronomousR && inp.slot == slots.edSmoothAcc then inp.dotjacqhXqdot[i]
        else 0.0
  {
    var n := inp.lawSize;
    var y1 := ProjectedOutput(slots, inp, y0);
    if inp.subType == RheonomousR then Accumulate(y1, inp.hDot[..n])
    else if inp.subType == ScleronomousR && inp.slot == slots.edSmoothAcc then Accumulate(y1, inp.dotjacqhXqdot[..n])
    else y1
  }

  /**
   * computeFreeOutput, step by step: yForNSsolver may be partly written when
   * an error is raised, so each outcome carries the vector as it then is.
   */
  function FreeOutputOf(slots: Slots, inp: FreeOutputInput, y0: Vec): (r: FreeOutput)
    requires WellSized(inp, |y0|)
    ensures |r.y| == |y0|
  {
    var n := inp.lawSize;
    if inp.slot != slots.edSmoothAcc && inp.slot != slots.edImpact then FreeOutput(y0, Failure(WrongProblem))
    else if inp.relation != M.Lagrangian then FreeOutput(y0, Failure(RelationNotImplemented))
    else
      var y1 := ProjectedOutput(slots, inp, y0);
      if inp.subType == RheonomousR && inp.slot == slots.edSmoothAcc then FreeOutput(y1, Failure(RheonomousAtAcceleration))
      else if inp.subType == RheonomousR && inp.slot != slots.tsVelocity then FreeOutput(y1, Failure(RheonomousNotImplemented))
      else
        var y2 := WithRelationTerm(slots, inp, y0);
        if inp.slot != slots.edImpact then FreeOutput(y2, Success(()))
        else match inp.law
          case NewtonImpact(e) => FreeOutput(Accumulate(y2, Scale(e, inp.yOld[..n])), Success(()))
          case MultipleImpact => FreeOutput(y2, Success(()))
          case OtherImpactLaw => FreeOutput(y2, Failure(UnhandledNonSmoothLaw))
  }

  /** When computeFreeOutput succeeds, and which error it raises otherwise. */
  lemma FreeOutputStatus(slots: Slots, inp: FreeOutputInput, y0: Vec)
    requires WellSized(inp, |y0|)
    ensures var r := FreeOutputOf(slots, inp, y0);
      r.status.Success? <==>
        (inp.slot == slots.edSmoothAcc || inp.slot == slots.edImpact) &&
        inp.relation == M.Lagrangian &&
        (inp.subType == RheonomousR ==> inp.slot != slots.edSmoothAcc && inp.slot == slots.tsVelocity) &&
        (inp.slot == slots.edImpact ==> !inp.law.OtherImpactLaw?)
    ensures var r := FreeOutputOf(slots, inp, y0);
      r.status == Failure(WrongProblem) || r.status == Failure(RelationNotImplemented) ==> r.y == y0
    ensures var r := FreeOutputOf(slots, inp, y0);
      (inp.slot == slots.edSmoothAcc || inp.slot == slots.edImpact) && inp.relation != M.Lagrangian ==>
        r.status == Failure(RelationNotImplemented)
  {
  }

  /**
   * On success the first lawSize entries of y are C·Xfree (or what y held when
   * the relation has no C), plus the relation's own term, plus e·yOld for a
   * Newton impact law on the impact problem; the other entries are untouched.
   */
  lemma {:induction false} FreeOutputEntries(slots: Slots, inp: FreeOutputInput, y0: Vec, i: nat)
    requires WellSized(inp, |y0|) && FreeOutputOf(slots, inp, y0).status.Success? && i < |y0|
    ensures var y := FreeOutputOf(slots, inp, y0).y;
      i >= inp.lawSize ==> y[i] == y0[i]
    ensures var y := FreeOutputOf(slots, inp, y0).y;
      i < inp.lawSize ==>
        y[i] ==
          (if inp.C.Some? then Dot(inp.C.value[i], Xfree(slots, inp)) else y0[i])
          + (if inp.subType == RheonomousR then inp.hDot[i]
             else if inp.subType == ScleronomousR && inp.slot == slots.edSmoothAcc then inp.dotjacqhXqdot[i]
             else 0.0)
          + (if inp.slot == slots.edImpact && inp.law.NewtonImpact? then inp.law.e * inp.yOld[i] else 0.0)
  {
    var n := inp.lawSize;
    var y2 := WithRelationTerm(slots, inp, y0);
    if inp.slot == slots.edImpact && inp.law.NewtonImpact? {
      assert FreeOutputOf(slots, inp, y0).y == Accumulate(y2, Scale(inp.law.e, inp.yOld[..n]));
    } else {
      assert FreeOutputOf(slots, inp, y0).y == y2;
    }
  }

  /** y[..|v|] := v, entry by entry. */
  method StorePrefix(y: array<real>, v: Vec)
    requires |v| <= y.Length
    modifies y
    ensures y[..] == Overwrite(old(y[..]), v)
  {
    var i := 0;
    while i < |v|
      invariant 0 <= i <= |v|
      invariant forall j :: 0 <= j < y.Length ==> y[j] == if j < i then v[j] else old(y[j])
    {
      y[i] := v[i];
      i := i + 1;
    }
  }

  /** y[..|v|] += v, entry by entry. */
  method AddToPrefix(y: array<real>, v: Vec)
    requires |v| <= y.Length
    modifies y
    ensures y[..] == Accumulate(old(y[..]), v)
  {
    var i := 0;
    while i < |v|
      invariant 0 <= i <= |v|
      invariant forall j :: 0 <= j < y.Length ==> y[j] == if j < i then old(y[j]) + v[j] else old(y[j])
    {
      y[i] := y[i] + v[i];
      i := i + 1;
    }
  }

  /** computeFreeOutput on the interaction's yForNSsolver, in place. */
  method ComputeFreeOutput(slots: Slots, inp: FreeOutputInput, y: array<real>) returns (status: Result<(), LsodarError>)
    requires WellSized(inp, y.Length)
    modifies y
    ensures var r := FreeOutputOf(slots, inp, old(y[..]));
      y[..] == r.y && status == r.status
  {
    var n := inp.lawSize;
    if inp.slot != slots.edSmoothAcc && inp.slot != slots.edImpact {
      return Failure(WrongProblem);
    }
    if inp.relation != M.Lagrangian {
      return Failure(RelationNotImplemented);
    }
    if inp.C.Some? {
      StorePrefix(y, MatVec(inp.C.value, Xfree(slots, inp)));
    }
    if inp.subType == RheonomousR {
      if inp.slot == slots.edSmoothAcc {
        return Failure(RheonomousAtAcceleration);
      } else if inp.slot == slots.tsVelocity {
        AddToPrefix(y, inp.hDot[..n]);
      } else {
        return Failure(RheonomousNotImplemented);
      }
    }
    if inp.subType == ScleronomousR && inp.slot == slots.edSmoothAcc {
      AddToPrefix(y, inp.dotjacqhXqdot[..n]);
    }
    status := Success(());
    if inp.slot == slots.edImpact {
      match inp.law {
        case NewtonImpact(e) =>
          AddToPrefix(y, Scale(e, inp.yOld[..n]));
        case MultipleImpact =>
        case OtherImpactLaw =>
          status := Failure(UnhandledNonSmoothLaw);
      }
    }
  }
}
