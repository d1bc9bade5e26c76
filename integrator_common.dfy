/**
 * What the two Fortran-backed event-driven integrators (LsodarOSI and Hem5)
 * share: zero-filled work space allocation, the scalar tolerance setter and
 * the level dispatch of updateState.
 */
module IntegratorCommon {
  import opened Wrappers
  import opened LinAlg

  // ---------------------------------------------------------------------------
  // Zero-filled allocations
  // ---------------------------------------------------------------------------

  method NewZeroInts(n: nat) returns (a: array<int>)
    ensures fresh(a) && a.Length == n && forall i :: 0 <= i < n ==> a[i] == 0
  {
    a := new int[n];
    var i := 0;
    while i < n
      invariant 0 <= i <= n && forall j :: 0 <= j < i ==> a[j] == 0
    {
      a[i] := 0;
      i := i + 1;
    }
  }

  method NewZeroReals(n: nat) returns (a: array<real>)
    ensures fresh(a) && a.Length == n && a[..] == Zeros(n)
  {
    a := new real[n];
    var i := 0;
    while i < n
      invariant 0 <= i <= n && forall j :: 0 <= j < i ==> a[j] == 0.0
    {
      a[i] := 0.0;
      i := i + 1;
    }
  }

  /** A work array receives, in place, what the Fortran routine left in it. */
  method StoreReals(a: array<real>, s: seq<real>)
    requires |s| == a.Length
    modifies a
    ensures a[..] == s
  {
    var i := 0;
    while i < a.Length
      invariant 0 <= i <= a.Length && forall j :: 0 <= j < i ==> a[j] == s[j]
    {
      a[i] := s[i];
      i := i + 1;
    }
  }

  method StoreInts(a: array<int>, s: seq<int>)
    requires |s| == a.Length
    modifies a
    ensures a[..] == s
  {
    var i := 0;
    while i < a.Length
      invariant 0 <= i <= a.Length && forall j :: 0 <= j < i ==> a[j] == s[j]
    {
      a[i] := s[i];
      i := i + 1;
    }
  }

  // ---------------------------------------------------------------------------
  // The scalar tolerances
  // ---------------------------------------------------------------------------

  /** The scalar setTol as written: the relative tolerance is stored in both first slots. */
  function ScalarTolAsWritten(rtol: seq<real>, atol: seq<real>, newRtol: real, newAtol: real): (r: (seq<real>, seq<real>))
    requires |rtol| > 0 && |atol| > 0
    ensures |r.0| == |rtol| && |r.1| == |atol|
  {
    (rtol[0 := newRtol], atol[0 := newRtol])
  }

  /** The as-written setter never stores the requested absolute tolerance when it differs from the relative one. */
  lemma ScalarTolAsWrittenDropsAtol(rtol: seq<real>, atol: seq<real>, newRtol: real, newAtol: real)
    requires |rtol| > 0 && |atol| > 0 && newRtol != newAtol
    ensures ScalarTolAsWritten(rtol, atol, newRtol, newAtol).1[0] != newAtol
  {
  }

  /** The scalar setTol as intended: rtol(1) = newRtol and atol(1) = newAtol. */
  function ScalarTol(rtol: seq<real>, atol: seq<real>, newRtol: real, newAtol: real): (r: (seq<real>, seq<real>))
    requires |rtol| > 0 && |atol| > 0
    ensures |r.0| == |rtol| && |r.1| == |atol|
  {
    (rtol[0 := newRtol], atol[0 := newAtol])
  }

  /** The corrected setter stores both requested tolerances and leaves the other entries. */
  lemma ScalarTolStoresBoth(rtol: seq<real>, atol: seq<real>, newRtol: real, newAtol: real)
    requires |rtol| > 0 && |atol| > 0
    ensures ScalarTol(rtol, atol, newRtol, newAtol).0[0] == newRtol
    ensures ScalarTol(rtol, atol, newRtol, newAtol).1[0] == newAtol
    ensures ScalarTol(rtol, atol, newRtol, newAtol).0[1..] == rtol[1..]
    ensures ScalarTol(rtol, atol, newRtol, newAtol).1[1..] == atol[1..]
  {
  }

  // ---------------------------------------------------------------------------
  // updateState
  // ---------------------------------------------------------------------------

  /** What updateState does to every system of the integrator. */
  datatype SystemUpdate =
    | PostImpactVelocity   // level 1: each (Lagrangian) system computes its post-impact velocity
    | UpdateAt(time: real) // level 2: each system updates its data at the model's current time

  /** The action for a level; None when the level is out of range and the integrator raises. */
  function UpdateState(level: int, time: real): Option<SystemUpdate>
  {
    if level == 1 then Some(PostImpactVelocity)
    else if level == 2 then Some(UpdateAt(time))
    else None
  }

  /** One action applied to the system at a position of the integrator's set. */
  datatype Applied = Applied(system: nat, action: SystemUpdate)

  /** updateState with a level that is neither 1 nor 2. */
  datatype LevelError = LevelOutOfRange(level: int)

  /**
   * updateState over the integrator's n systems: a level out of range raises
   * before any system is touched; otherwise every system receives the
   * level's action once, in the set's order.  The result is the sequence of
   * actions applied.
   */
  method UpdateSystems(level: int, time: real, n: nat) returns (r: Result<seq<Applied>, LevelError>)
    ensures r.Failure? <==> level != 1 && level != 2
    ensures r.Failure? ==> r.error == LevelOutOfRange(level)
    ensures r.Success? ==> |r.value| == n
    ensures r.Success? && level == 1 ==> forall k :: 0 <= k < n ==> r.value[k] == Applied(k, PostImpactVelocity)
    ensures r.Success? && level == 2 ==> forall k :: 0 <= k < n ==> r.value[k] == Applied(k, UpdateAt(time))
  {
    var action := UpdateState(level, time);
    if action.None? {
      return Failure(LevelOutOfRange(level));
    }
    var applied := [];
    var k := 0;
    while k < n
      invariant 0 <= k <= n && |applied| == k
      invariant forall j :: 0 <= j < k ==> applied[j] == Applied(j, action.value)
    {
      applied := applied + [Applied(k, action.value)];
      k := k + 1;
    }
    r := Success(applied);
  }
}
