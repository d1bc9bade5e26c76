/**
 * A block vector of pointers: the state vectors of several systems seen as
 * one flat vector.  Reading it concatenates the blocks; assigning a flat
 * vector to it writes each slice back into the block it belongs to.
 */
module BlockVectors {

  function Sum(lens: seq<nat>): nat
  {
    if |lens| == 0 then 0 else Sum(lens[..|lens| - 1]) + lens[|lens| - 1]
  }

  function Concat(bs: seq<seq<real>>): (r: seq<real>)
  {
    if |bs| == 0 then [] else Concat(bs[..|bs| - 1]) + bs[|bs| - 1]
  }

  function Lengths(bs: seq<seq<real>>): (r: seq<nat>)
    ensures |r| == |bs| && forall k :: 0 <= k < |bs| ==> r[k] == |bs[k]|
  {
    seq(|bs|, k requires 0 <= k < |bs| => |bs[k]|)
  }

  /** Cuts a flat vector into consecutive blocks of the given lengths. */
  function Split(flat: seq<real>, lens: seq<nat>): (r: seq<seq<real>>)
    requires |flat| == Sum(lens)
    ensures |r| == |lens| && forall k :: 0 <= k < |lens| ==> |r[k]| == lens[k]
    decreases |lens|
  {
    if |lens| == 0 then []
    else
      var n := |flat| - lens[|lens| - 1];
      Split(flat[..n], lens[..|lens| - 1]) + [flat[n..]]
  }

  /** The flat vector is as long as all blocks together. */
  lemma {:induction false} ConcatLength(bs: seq<seq<real>>)
    ensures |Concat(bs)| == Sum(Lengths(bs))
  {
    if |bs| > 0 {
      ConcatLength(bs[..|bs| - 1]);
      assert Lengths(bs[..|bs| - 1]) == Lengths(bs)[..|bs| - 1];
    }
  }

  /** Cutting the concatenation at the block lengths gives the blocks back. */
  lemma {:induction false} SplitConcat(bs: seq<seq<real>>)
    ensures |Concat(bs)| == Sum(Lengths(bs))
    ensures Split(Concat(bs), Lengths(bs)) == bs
  {
    ConcatLength(bs);
    if |bs| > 0 {
      var init := bs[..|bs| - 1];
      SplitConcat(init);
      assert Lengths(init) == Lengths(bs)[..|bs| - 1];
      var n := |Concat(bs)| - |bs[|bs| - 1]|;
      assert Concat(bs)[..n] == Concat(init);
      assert Concat(bs)[n..] == bs[|bs| - 1];
      assert bs == init + [bs[|bs| - 1]];
    }
  }

  /** Concatenating the blocks of a cut gives the flat vector back. */
  lemma {:induction false} ConcatSplit(flat: seq<real>, lens: seq<nat>)
    requires |flat| == Sum(lens)
    ensures Concat(Split(flat, lens)) == flat
    decreases |lens|
  {
    if |lens| > 0 {
      var n := |flat| - lens[|lens| - 1];
      ConcatSplit(flat[..n], lens[..|lens| - 1]);
      var r := Split(flat, lens);
      assert r[..|r| - 1] == Split(flat[..n], lens[..|lens| - 1]);
      assert flat == flat[..n] + flat[n..];
    }
  }

  /** Where block k starts in the flat vector. */
  function Offset(lens: seq<nat>, k: nat): nat
    requires k <= |lens|
  {
    Sum(lens[..k])
  }

  lemma OffsetStep(lens: seq<nat>, k: nat)
    requires k < |lens|
    ensures Offset(lens, k + 1) == Offset(lens, k) + lens[k]
  {
    assert lens[..k + 1][..k] == lens[..k];
  }

  /** Block k of a cut is the slice of the flat vector between its offsets. */
  lemma {:induction false} SplitAt(flat: seq<real>, lens: seq<nat>, k: nat)
    requires |flat| == Sum(lens) && k < |lens|
    ensures Offset(lens, k) + lens[k] <= |flat|
    ensures Split(flat, lens)[k] == flat[Offset(lens, k)..Offset(lens, k) + lens[k]]
    decreases |lens|
  {
    var last := |lens| - 1;
    var n := |flat| - lens[last];
    assert lens[..|lens|] == lens;
    if k < last {
      var init := lens[..last];
      SplitAt(flat[..n], init, k);
      assert init[..k] == lens[..k];
      assert Offset(init, k) == Offset(lens, k);
      assert Split(flat, lens)[k] == Split(flat[..n], init)[k];
      assert flat[..n][Offset(lens, k)..Offset(lens, k) + lens[k]]
          == flat[Offset(lens, k)..Offset(lens, k) + lens[k]];
    } else {
      assert Offset(lens, k) == n;
      assert Split(flat, lens)[k] == flat[n..];
    }
  }

  lemma {:induction false} OffsetMono(lens: seq<nat>, i: nat, j: nat)
    requires i <= j <= |lens|
    ensures Offset(lens, i) <= Offset(lens, j)
    decreases j - i
  {
    if i < j {
      OffsetStep(lens, i);
      OffsetMono(lens, i + 1, j);
    }
  }

  // ---------------------------------------------------------------------------
  // Blocks held in arrays
  // ---------------------------------------------------------------------------

  ghost predicate Distinct(blocks: seq<array<real>>) {
    forall i, j :: 0 <= i < j < |blocks| ==> blocks[i] != blocks[j]
  }

  /** The blocks of a concatenation are distinct on each side and shared by neither. */
  lemma DistinctSplit(a: seq<array<real>>, b: seq<array<real>>)
    requires Distinct(a + b)
    ensures Distinct(a) && Distinct(b)
    ensures Apart(a, b)
  {
    forall x | x in a
      ensures x !in b
    {
      var i :| 0 <= i < |a| && a[i] == x;
      forall j | 0 <= j < |b|
        ensures b[j] != x
      {
        assert (a + b)[i] == x && (a + b)[|a| + j] == b[j];
      }
    }
    forall i, j | 0 <= i < j < |a|
      ensures a[i] != a[j]
    {
      assert (a + b)[i] == a[i] && (a + b)[j] == a[j];
    }
    forall i, j | 0 <= i < j < |b|
      ensures b[i] != b[j]
    {
      assert (a + b)[|a| + i] == b[i] && (a + b)[|a| + j] == b[j];
    }
  }

  /** No block of xs is a block of ys. */
  ghost predicate Apart(xs: seq<array<real>>, ys: seq<array<real>>) {
    forall x :: x in xs ==> x !in ys
  }

  /** Arrays allocated since the old state are none of the blocks that existed in it. */
  twostate lemma FreshApart(new xs: seq<array<real>>, ys: seq<array<real>>)
    requires forall x :: x in xs ==> fresh(x)
    ensures Apart(xs, ys)
  {
  }

  ghost function Contents(blocks: seq<array<real>>): (r: seq<seq<real>>)
    reads set b | b in blocks
    ensures |r| == |blocks| && forall k :: 0 <= k < |blocks| ==> r[k] == blocks[k][..]
  {
    seq(|blocks|, k reads set b | b in blocks requires 0 <= k < |blocks| => blocks[k][..])
  }

  /** Blocks none of whose arrays changed hold what they held. */
  twostate lemma ContentsKept(blocks: seq<array<real>>)
    requires forall b :: b in blocks ==> unchanged(b)
    ensures Contents(blocks) == old(Contents(blocks))
  {
    forall k | 0 <= k < |blocks|
      ensures Contents(blocks)[k] == old(Contents(blocks))[k]
    {
      assert blocks[k] in blocks;
    }
  }

  function Sizes(blocks: seq<array<real>>): (r: seq<nat>)
    ensures |r| == |blocks| && forall k :: 0 <= k < |blocks| ==> r[k] == blocks[k].Length
  {
    seq(|blocks|, k requires 0 <= k < |blocks| => blocks[k].Length)
  }

  /** The flat vector read out of the blocks is as long as the blocks together. */
  lemma ConcatSize(blocks: seq<array<real>>)
    ensures |Concat(Contents(blocks))| == Sum(Sizes(blocks))
  {
    ConcatLength(Contents(blocks));
    assert Lengths(Contents(blocks)) == Sizes(blocks);
  }

  /** Reading the block vector: the blocks one after the other (`*xtmp = *xWork`). */
  method Gather(blocks: seq<array<real>>) returns (flat: seq<real>)
    ensures flat == Concat(Contents(blocks))
  {
    flat := [];
    var k := 0;
    while k < |blocks|
      invariant 0 <= k <= |blocks|
      invariant flat == Concat(Contents(blocks[..k]))
    {
      assert blocks[..k + 1][..k] == blocks[..k];
      assert Contents(blocks[..k + 1])[..k] == Contents(blocks[..k]);
      flat := flat + blocks[k][..];
      k := k + 1;
    }
    assert blocks[..k] == blocks;
  }

  /** Assigning a flat vector to the block vector: each block receives its slice. */
  method Scatter(blocks: seq<array<real>>, flat: seq<real>)
    requires Distinct(blocks) && |flat| == Sum(Sizes(blocks))
    modifies set b | b in blocks
    ensures Contents(blocks) == Split(flat, Sizes(blocks))
  {
    ghost var target := Split(flat, Sizes(blocks));
    var k := 0;
    var off := 0;
    while k < |blocks|
      invariant 0 <= k <= |blocks| && off == Offset(Sizes(blocks), k)
      invariant forall j :: 0 <= j < k ==> blocks[j][..] == target[j]
    {
      SplitAt(flat, Sizes(blocks), k);
      CopyInto(blocks[k], flat, off);
      OffsetStep(Sizes(blocks), k);
      off := off + blocks[k].Length;
      k := k + 1;
    }
  }

  /** Copies the slice of flat starting at off into a. */
  method CopyInto(a: array<real>, flat: seq<real>, off: nat)
    requires off + a.Length <= |flat|
    modifies a
    ensures a[..] == flat[off..off + a.Length]
  {
    var i := 0;
    while i < a.Length
      invariant 0 <= i <= a.Length
      invariant forall j :: 0 <= j < i ==> a[j] == flat[off + j]
    {
      a[i] := flat[off + i];
      i := i + 1;
    }
  }
}
