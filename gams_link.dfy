/**
 * The GAMS link's file-name composition and its status bookkeeping: the
 * names of the data and log files built in fixed-size caller buffers with
 * the C string functions, the ".gdx" names of a solve, and how a solve
 * turns the outcomes of the GAMS calls into a return code and updates the
 * solver options.
 */
module GamsLink {
  import opened Wrappers

  const NUL: char := '\0'

  /** The status every failing GAMS step stores in infos[1] (-ETERMINATE). */
  const ETerminate: int := 4242

  const TotalTimeUsed: nat := 2
  const TotalIter: nat := 2
  const LastModelStatus: nat := 3
  const LastSolveStatus: nat := 4

  // ---------------------------------------------------------------------------
  // C strings in character buffers
  // ---------------------------------------------------------------------------

  predicate NoNul(s: string) {
    forall k :: 0 <= k < |s| ==> s[k] != NUL
  }

  /** The C string a buffer holds: its characters before the first NUL; None when there is no NUL. */
  function CString(buf: seq<char>): (r: Option<string>)
  {
    if |buf| == 0 then None
    else if buf[0] == NUL then Some([])
    else match CString(buf[1..])
      case None => None
      case Some(t) => Some([buf[0]] + t)
  }

  /** What a buffer holding a C string looks like: the characters, then a NUL. */
  lemma {:induction false} CStringShape(buf: seq<char>)
    requires CString(buf).Some?
    ensures NoNul(CString(buf).value) && |CString(buf).value| < |buf|
    ensures buf[..|CString(buf).value|] == CString(buf).value && buf[|CString(buf).value|] == NUL
  {
    if buf[0] != NUL {
      CStringShape(buf[1..]);
    }
  }

  /** A NUL-free s followed by a NUL is the C string of the buffer. */
  lemma {:induction false} CStringOf(buf: seq<char>, s: string)
    requires NoNul(s) && |s| < |buf| && buf[..|s|] == s && buf[|s|] == NUL
    ensures CString(buf) == Some(s)
  {
    if |s| > 0 {
      assert buf[0] == s[0];
      assert buf[1..][..|s| - 1] == s[1..];
      CStringOf(buf[1..], s[1..]);
      assert [buf[0]] + s[1..] == s;
    }
  }

  /** At most n characters of s: what a bounded copy keeps. */
  function Bounded(s: string, n: nat): (r: string)
    ensures |r| <= n && (|s| <= n ==> r == s)
    ensures r == s[..|r|]
  {
    if |s| <= n then s else s[..n]
  }

  /** Bounding twice, with something appended in between, is bounding once. */
  lemma BoundedAppend(a: string, b: string, n: nat)
    ensures Bounded(Bounded(a, n) + b, n) == Bounded(a + b, n)
  {
    if |a| > n {
      assert (Bounded(a, n) + b)[..n] == (a + b)[..n];
    }
  }

  /**
   * strncpy(dst, src, n): the first n characters of dst become src, padded
   * with NULs when src is shorter; the rest of dst is untouched.
   */
  method StrNCpy(dst: array<char>, src: string, n: nat)
    requires n <= dst.Length
    modifies dst
    ensures forall k :: 0 <= k < n ==> dst[k] == if k < |src| then src[k] else NUL
    ensures forall k :: n <= k < dst.Length ==> dst[k] == old(dst[k])
  {
    var k := 0;
    while k < n
      invariant 0 <= k <= n
      invariant forall q :: 0 <= q < k ==> dst[q] == if q < |src| then src[q] else NUL
      invariant forall q :: k <= q < dst.Length ==> dst[q] == old(dst[q])
    {
      dst[k] := if k < |src| then src[k] else NUL;
      k := k + 1;
    }
  }

  /** A copy that fits leaves the same C string in the buffer. */
  lemma StrNCpyFits(buf: seq<char>, src: string, n: nat)
    requires NoNul(src) && |src| < n <= |buf|
    requires forall k :: 0 <= k < n ==> buf[k] == if k < |src| then src[k] else NUL
    ensures CString(buf) == Some(src)
  {
    CStringOf(buf, src);
  }

  /** strlen: the length of the C string in the buffer, found by scanning for the NUL. */
  method StrLen(buf: array<char>) returns (n: nat)
    requires CString(buf[..]).Some?
    ensures n == |CString(buf[..]).value|
  {
    ghost var s := CString(buf[..]).value;
    CStringShape(buf[..]);
    n := 0;
    while buf[n] != NUL
      invariant n <= |s|
      decreases |s| - n
    {
      n := n + 1;
    }
  }

  /**
   * strncat(dst, src, n): appends at most n characters of src to the C
   * string in dst and terminates it; characters after the new NUL are untouched.
   */
  method StrNCat(dst: array<char>, src: string, n: nat)
    requires CString(dst[..]).Some?
    requires |CString(dst[..]).value| + (if |src| < n then |src| else n) < dst.Length
    requires NoNul(src)
    modifies dst
    ensures CString(dst[..]) == Some(old(CString(dst[..])).value + Bounded(src, n))
  {
    ghost var s := CString(dst[..]).value;
    CStringShape(dst[..]);
    var len := StrLen(dst);
    var m := if |src| < n then |src| else n;
    var k := 0;
    while k < m
      invariant 0 <= k <= m
      invariant forall q :: 0 <= q < len ==> dst[q] == s[q]
      invariant forall q :: 0 <= q < k ==> dst[len + q] == src[q]
    {
      dst[len + k] := src[k];
      k := k + 1;
    }
    dst[len + m] := NUL;
    ghost var t := s + Bounded(src, n);
    assert dst[..|t|] == t;
    CStringOf(dst[..], t);
  }

  // ---------------------------------------------------------------------------
  // Decimal numerals (printf's %d)
  // ---------------------------------------------------------------------------

  function DigitChar(d: nat): char
    requires d < 10
  {
    "0123456789"[d]
  }

  function DigitValue(c: char): nat
  {
    if '0' <= c <= '9' then (c as int - '0' as int) as nat else 0
  }

  /** The decimal numeral of n, most significant digit first, without leading zeros. */
  function NatDecimal(n: nat): (s: string)
    ensures 1 <= |s| && NoNul(s)
    ensures forall k :: 0 <= k < |s| ==> '0' <= s[k] <= '9'
  {
    if n < 10 then [DigitChar(n)] else NatDecimal(n / 10) + [DigitChar(n % 10)]
  }

  /** %d: a minus sign before the digits of a negative number. */
  function Decimal(i: int): (s: string)
    ensures NoNul(s)
  {
    if i < 0 then "-" + NatDecimal(-i) else NatDecimal(i)
  }

  function ParseNat(s: string): nat
  {
    if |s| == 0 then 0 else ParseNat(s[..|s| - 1]) * 10 + DigitValue(s[|s| - 1])
  }

  function ParseDecimal(s: string): int
  {
    if 0 < |s| && s[0] == '-' then -(ParseNat(s[1..]) as int) else ParseNat(s)
  }

  /** Reading a numeral back gives the number printed. */
  lemma {:induction false} NatDecimalRoundTrip(n: nat)
    ensures ParseNat(NatDecimal(n)) == n
  {
    var s := NatDecimal(n);
    if n < 10 {
      assert s[..0] == [];
    } else {
      NatDecimalRoundTrip(n / 10);
      assert s[..|s| - 1] == NatDecimal(n / 10);
    }
  }

  lemma DecimalRoundTrip(i: int)
    ensures ParseDecimal(Decimal(i)) == i
  {
    var s := Decimal(i);
    if i < 0 {
      var n: nat := -i;
      assert s == "-" + NatDecimal(n);
      assert s[1..] == NatDecimal(n);
      NatDecimalRoundTrip(n);
      assert ParseDecimal(s) == -(ParseNat(s[1..]) as int);
    } else {
      assert s == NatDecimal(i) && '0' <= s[0] <= '9';
      NatDecimalRoundTrip(i);
    }
  }

  // ---------------------------------------------------------------------------
  // filename_datafiles
  // ---------------------------------------------------------------------------

  /** The iteration suffix, printed with snprintf into a 40-character buffer. */
  function IterSuffix(iter: int, solverName: string): (r: string)
    ensures |r| <= 39
    ensures NoNul(solverName) ==> NoNul(r)
  {
    var full := "-i" + Decimal(iter) + "-" + solverName;
    assert NoNul(solverName) ==> NoNul(full) by {
      if NoNul(solverName) {
        forall k | 0 <= k < |full|
          ensures full[k] != NUL
        {
          if k >= 3 + |Decimal(iter)| {
            assert full[k] == solverName[k - 3 - |Decimal(iter)|];
          } else if 2 <= k < 2 + |Decimal(iter)| {
            assert full[k] == Decimal(iter)[k - 2];
          }
        }
      }
    }
    Bounded(full, 39)
  }

  /** The suffix names the iteration and the solver whenever they fit. */
  lemma IterSuffixFits(iter: int, solverName: string)
    requires 4 + |Decimal(iter)| + |solverName| <= 39
    ensures IterSuffix(iter, solverName) == "-i" + Decimal(iter) + "-" + solverName
    ensures ParseDecimal(IterSuffix(iter, solverName)[2..2 + |Decimal(iter)|]) == iter
  {
    var s := IterSuffix(iter, solverName);
    assert s[2..2 + |Decimal(iter)|] == Decimal(iter);
    DecimalRoundTrip(iter);
  }

  function DefaultTemplate(): string { "fc3d_avi-condensed" }
  function DefaultLog(): string { "fc3d_avi-condense-log" }

  function TemplateStart(baseName: Option<string>): (r: string)
    ensures (baseName.Some? ==> NoNul(baseName.value)) ==> NoNul(r)
  {
    if baseName.Some? then baseName.value else DefaultTemplate()
  }

  function LogStart(baseName: Option<string>): (r: string)
    ensures (baseName.Some? ==> NoNul(baseName.value)) ==> NoNul(r)
  {
    if baseName.Some? then baseName.value else DefaultLog()
  }

  /**
   * filename_datafiles: the template name is its start followed by the
   * iteration suffix, the log name its start, the suffix and ".log", each cut
   * to the len - 1 characters the caller's buffers hold.  The start must fit
   * its buffer: a base name of len characters or more leaves strncpy's copy
   * unterminated, and the strlen after it undefined.
   */
  method FilenameDatafiles(iter: int, solverName: string, baseName: Option<string>, len: nat,
                           templateName: array<char>, logFilename: array<char>)
    requires templateName != logFilename && len <= templateName.Length && len <= logFilename.Length
    requires NoNul(solverName) && (baseName.Some? ==> NoNul(baseName.value))
    requires |TemplateStart(baseName)| < len && |LogStart(baseName)| < len
    modifies templateName, logFilename
    ensures CString(templateName[..]) == Some(Bounded(TemplateStart(baseName) + IterSuffix(iter, solverName), len - 1))
    ensures CString(logFilename[..]) == Some(Bounded(LogStart(baseName) + IterSuffix(iter, solverName) + ".log", len - 1))
  {
    var iterStr := IterSuffix(iter, solverName);
    var l := LogStart(baseName);
    CopyThenCat(templateName, TemplateStart(baseName), iterStr, len);
    ghost var template := templateName[..];
    CopyThenCat(logFilename, l, iterStr, len);
    BoundedCat(logFilename, ".log", len);
    assert templateName[..] == template;
    BoundedAppend(l + iterStr, ".log", len - 1);
  }

  /** strncpy(buf, start, len) followed by the bounded strncat of src. */
  method CopyThenCat(buf: array<char>, start: string, src: string, len: nat)
    requires NoNul(start) && NoNul(src) && |start| < len <= buf.Length
    modifies buf
    ensures CString(buf[..]) == Some(Bounded(start + src, len - 1))
  {
    StrNCpy(buf, start, len);
    StrNCpyFits(buf[..], start, len);
    BoundedCat(buf, src, len);
  }

  /**
   * strncat(buf, src, len - strlen(buf) - 1): appends to the C string in a
   * buffer of len characters as much of src as keeps it within len - 1.
   */
  method BoundedCat(buf: array<char>, src: string, len: nat)
    requires NoNul(src) && len <= buf.Length
    requires CString(buf[..]).Some? && |CString(buf[..]).value| < len
    modifies buf
    ensures CString(buf[..]) == Some(Bounded(old(CString(buf[..])).value + src, len - 1))
  {
    ghost var s := CString(buf[..]).value;
    var n := StrLen(buf);
    StrNCat(buf, src, len - n - 1);
    BoundedSplit(s, src, len - 1);
  }

  /** Appending at most n - |a| characters of b to a is bounding a + b to n. */
  lemma BoundedSplit(a: string, b: string, n: nat)
    requires |a| <= n
    ensures a + Bounded(b, n - |a|) == Bounded(a + b, n)
  {
    if |b| > n - |a| {
      assert (a + b)[..n] == a + b[..n - |a|];
    }
  }

  /** The names are complete when they fit: nothing is cut. */
  lemma FilenamesFit(start: string, suffix: string, len: nat)
    requires |start| + |suffix| + 4 < len
    ensures Bounded(start + suffix, len - 1) == start + suffix
    ensures Bounded(start + suffix + ".log", len - 1) == start + suffix + ".log"
  {
  }

  // ---------------------------------------------------------------------------
  // SN_gams_solve
  // ---------------------------------------------------------------------------

  /**
   * The gdx names of a solve, built in two buffers of ssSize characters:
   * the data file base + ".gdx" and the solution file base + "_sol" + ".gdx",
   * each cut to ssSize - 1 characters.
   */
  method GdxFileNames(baseName: string, ssSize: nat) returns (gdxFileName: string, solFileName: string)
    requires NoNul(baseName) && |baseName| < ssSize
    ensures gdxFileName == Bounded(baseName + ".gdx", ssSize - 1)
    ensures solFileName == Bounded(baseName + "_sol.gdx", ssSize - 1)
  {
    var gdx := new char[ssSize];
    CopyThenCat(gdx, baseName, ".gdx", ssSize);
    gdxFileName := CString(gdx[..]).value;
    var sol := new char[ssSize];
    CopyThenCat(sol, baseName, "_sol", ssSize);
    BoundedCat(sol, ".gdx", ssSize);
    SolutionName(baseName, ssSize - 1);
    solFileName := CString(sol[..]).value;
  }

  lemma SolutionName(baseName: string, n: nat)
    ensures Bounded(Bounded(baseName + "_sol", n) + ".gdx", n) == Bounded(baseName + "_sol.gdx", n)
  {
    BoundedAppend(baseName + "_sol", ".gdx", n);
    assert baseName + "_sol" + ".gdx" == baseName + "_sol.gdx";
  }

  /** The (int) conversion of a double: truncation toward zero. */
  function Trunc(r: real): (i: int)
    ensures r >= 0.0 ==> 0 <= i && i as real <= r < i as real + 1.0
    ensures r < 0.0 ==> i <= 0 && i as real - 1.0 < r <= i as real
  {
    if r >= 0.0 then r.Floor else -((-r).Floor)
  }

  /** The infos vector a solve reads back: model status, solve status, iterations, time. */
  datatype Infos = Infos(modelStatus: real, solveStatus: real, iterations: real, time: real)

  /**
   * The outcomes of the GAMS API calls of one solve, in call order: object
   * creation, the status of each matrix and vector write, of the GAMS run,
   * of each vector read and of the infos read, and the infos read back.
   */
  datatype GamsCalls = GamsCalls(
    gamsxCreated: bool, idxCreated: bool, gmoCreated: bool,
    matrixWrites: seq<int>, vectorWrites: seq<int>, gamsRun: int,
    vectorReads: seq<int>, infosRead: int, infos: Infos)

  predicate AllZero(s: seq<int>) {
    forall k :: 0 <= k < |s| ==> s[k] == 0
  }

  predicate Created(c: GamsCalls) {
    c.gamsxCreated && c.idxCreated && c.gmoCreated
  }

  /** Some write, the GAMS run or some read failed. */
  predicate Terminated(c: GamsCalls) {
    !AllZero(c.matrixWrites) || !AllZero(c.vectorWrites) || c.gamsRun != 0
    || !AllZero(c.vectorReads) || c.infosRead != 0
  }

  class SolverOptions {
    var iparam: array<int>
    var dparam: array<real>

    constructor (iparam: array<int>, dparam: array<real>)
      ensures this.iparam == iparam && this.dparam == dparam
    {
      this.iparam := iparam;
      this.dparam := dparam;
    }
  }

  /** The first index of a failed status in s, or |s| when all succeed. */
  method FirstFailure(s: seq<int>) returns (k: nat)
    ensures k <= |s| && (forall q :: 0 <= q < k ==> s[q] == 0)
    ensures k < |s| ==> s[k] != 0
    ensures k == |s| <==> AllZero(s)
  {
    k := 0;
    while k < |s| && s[k] == 0
      invariant k <= |s| && forall q :: 0 <= q < k ==> s[q] == 0
    {
      k := k + 1;
    }
  }

  /**
   * SN_gams_solve's bookkeeping: a failed object creation returns 1; a
   * failed write, run or read stores -4242 in infos[1] and returns it with
   * the options unchanged; a successful solve adds the iterations and the
   * time to the totals, records the last model and solve status and returns
   * the solve status.
   */
  method SolveBookkeeping(c: GamsCalls, options: SolverOptions) returns (ret: int)
    requires options.iparam.Length > LastSolveStatus && options.dparam.Length > TotalTimeUsed
    modifies options.iparam, options.dparam
    ensures !Created(c) ==> ret == 1
    ensures Created(c) && Terminated(c) ==> ret == -ETerminate
    ensures !Created(c) || Terminated(c) ==> options.iparam[..] == old(options.iparam[..]) && options.dparam[..] == old(options.dparam[..])
    ensures Created(c) && !Terminated(c) ==>
      ret == Trunc(c.infos.solveStatus)
      && options.iparam[..] == old(options.iparam[..])
           [TotalIter := old(options.iparam[TotalIter]) + Trunc(c.infos.iterations)]
           [LastModelStatus := Trunc(c.infos.modelStatus)]
           [LastSolveStatus := Trunc(c.infos.solveStatus)]
      && options.dparam[..] == old(options.dparam[..])[TotalTimeUsed := old(options.dparam[TotalTimeUsed]) + c.infos.time]
  {
    if !c.gamsxCreated || !c.idxCreated || !c.gmoCreated {
      return 1;
    }
    var infos := [0.0, 0.0, 0.0, 0.0];
    var failed := false;
    var k := FirstFailure(c.matrixWrites);
    if k < |c.matrixWrites| {
      failed := true;
    }
    if !failed {
      k := FirstFailure(c.vectorWrites);
      failed := k < |c.vectorWrites|;
    }
    if !failed {
      failed := c.gamsRun != 0;
    }
    if !failed {
      k := FirstFailure(c.vectorReads);
      failed := k < |c.vectorReads|;
    }
    if !failed {
      infos := [c.infos.modelStatus, c.infos.solveStatus, c.infos.iterations, c.infos.time];
      failed := c.infosRead != 0;
    }
    if failed {
      infos := infos[1 := -ETerminate as real];
    } else {
      var iparam, dparam := options.iparam, options.dparam;
      iparam[TotalIter] := iparam[TotalIter] + Trunc(infos[2]);
      iparam[LastModelStatus] := Trunc(infos[0]);
      iparam[LastSolveStatus] := Trunc(infos[1]);
      dparam[TotalTimeUsed] := dparam[TotalTimeUsed] + infos[3];
    }
    ret := Trunc(infos[1]);
  }
}
