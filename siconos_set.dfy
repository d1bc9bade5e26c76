/**
 * SiconosSet: a set of objects kept in increasing order of the key their
 * `getSort` member returns, at most one object per key (the underlying
 * ordered set treats objects with equal keys as the same element).  Objects
 * also carry a `number`, which the linear scans search for.
 */
module SiconosSet {
  import opened Wrappers
  import Cmp

  /** An object of the set, seen through its sort key and its number. */
  datatype Item = Item(sortKey: int, number: int)

  /** The criterion the set is built with: getSort, normal mode. */
  function Order(): Cmp.Cmp<Item>
  {
    Cmp.NewCmp((e: Item) => e.sortKey)
  }

  datatype SetError = NotInSet | NumberNotFound

  datatype Status = Ok | Raised(error: SetError)

  /** Strictly increasing keys: ordered and without two elements of equal key. */
  ghost predicate Sorted(s: seq<Item>) {
    forall i, j :: 0 <= i < j < |s| ==> s[i].sortKey < s[j].sortKey
  }

  /** Every key of s is above k. */
  ghost predicate Above(k: int, s: seq<Item>) {
    forall i :: 0 <= i < |s| ==> k < s[i].sortKey
  }

  function Keys(s: seq<Item>): set<int> {
    set e | e in s :: e.sortKey
  }

  function Elements(s: seq<Item>): set<Item> {
    set e | e in s
  }

  lemma KeysCons(x: Item, s: seq<Item>)
    ensures Keys([x] + s) == {x.sortKey} + Keys(s)
    ensures Elements([x] + s) == {x} + Elements(s)
  {
  }

  lemma KeysSnoc(s: seq<Item>, x: Item)
    ensures Keys(s + [x]) == Keys(s) + {x.sortKey}
  {
  }

  lemma KeysOfAbove(k: int, s: seq<Item>)
    requires Above(k, s)
    ensures k !in Keys(s)
  {
  }

  /** The set's order is the one the comparison functor defines. */
  lemma SortedUnderOrder(s: seq<Item>)
    ensures Sorted(s) <==> forall i, j :: 0 <= i < j < |s| ==> Cmp.Less(Order(), s[i], s[j])
  {
  }

  // ---------------------------------------------------------------------------
  // Key-wise operations of the ordered set

  /**
   * Insertion into the ordered set: t goes in at its place in key order, unless
   * an element with the same key is already present, in which case nothing changes.
   */
  function InsertSorted(s: seq<Item>, t: Item): (r: seq<Item>)
    requires Sorted(s)
    ensures Sorted(r)
    ensures forall k :: Above(k, s) && k < t.sortKey ==> Above(k, r)
  {
    if |s| == 0 then [t]
    else if t.sortKey < s[0].sortKey then [t] + s
    else if t.sortKey == s[0].sortKey then s
    else
      assert Above(s[0].sortKey, s[1..]);
      [s[0]] + InsertSorted(s[1..], t)
  }

  lemma {:induction false} InsertSortedKeys(s: seq<Item>, t: Item)
    requires Sorted(s)
    ensures Keys(InsertSorted(s, t)) == Keys(s) + {t.sortKey}
  {
    if |s| == 0 {
      KeysCons(t, []);
    } else if t.sortKey < s[0].sortKey {
      KeysCons(t, s);
    } else if t.sortKey == s[0].sortKey {
      assert s[0] in s;
    } else {
      InsertSortedKeys(s[1..], t);
      assert s == [s[0]] + s[1..];
      KeysCons(s[0], s[1..]);
      KeysCons(s[0], InsertSorted(s[1..], t));
    }
  }

  /** An equal key leaves the set as it was. */
  lemma {:induction false} InsertSortedPresent(s: seq<Item>, t: Item)
    requires Sorted(s) && t.sortKey in Keys(s)
    ensures InsertSorted(s, t) == s
  {
    if t.sortKey > s[0].sortKey {
      assert s == [s[0]] + s[1..];
      KeysCons(s[0], s[1..]);
      InsertSortedPresent(s[1..], t);
    }
  }

  /** A new key adds exactly t. */
  lemma {:induction false} InsertSortedAbsent(s: seq<Item>, t: Item)
    requires Sorted(s) && t.sortKey !in Keys(s)
    ensures Elements(InsertSorted(s, t)) == Elements(s) + {t}
    ensures |InsertSorted(s, t)| == |s| + 1
  {
    if |s| == 0 {
      KeysCons(t, []);
    } else if t.sortKey < s[0].sortKey {
      KeysCons(t, s);
    } else {
      assert s[0] in s;
      assert s == [s[0]] + s[1..];
      KeysCons(s[0], s[1..]);
      InsertSortedAbsent(s[1..], t);
      KeysCons(s[0], InsertSorted(s[1..], t));
    }
  }

  /** Removal of the element whose key is k; nothing changes when there is none. */
  function RemoveKey(s: seq<Item>, k: int): (r: seq<Item>)
    requires Sorted(s)
    ensures Sorted(r)
    ensures forall m :: Above(m, s) ==> Above(m, r)
  {
    if |s| == 0 then []
    else if s[0].sortKey == k then s[1..]
    else
      assert Above(s[0].sortKey, s[1..]);
      [s[0]] + RemoveKey(s[1..], k)
  }

  lemma {:induction false} RemoveKeyKeys(s: seq<Item>, k: int)
    requires Sorted(s)
    ensures Keys(RemoveKey(s, k)) == Keys(s) - {k}
  {
    if |s| > 0 {
      assert s == [s[0]] + s[1..];
      KeysCons(s[0], s[1..]);
      if s[0].sortKey == k {
        assert Above(k, s[1..]);
        KeysOfAbove(k, s[1..]);
      } else {
        RemoveKeyKeys(s[1..], k);
        var rest := RemoveKey(s[1..], k);
        KeysCons(s[0], rest);
        assert Keys(RemoveKey(s, k)) == {s[0].sortKey} + Keys(rest);
        assert ({s[0].sortKey} + Keys(s[1..])) - {k} == {s[0].sortKey} + (Keys(s[1..]) - {k});
      }
    }
  }

  lemma {:induction false} RemoveKeyCount(s: seq<Item>, k: int)
    requires Sorted(s)
    ensures k !in Keys(s) ==> RemoveKey(s, k) == s
    ensures k in Keys(s) ==> |RemoveKey(s, k)| == |s| - 1
  {
    if |s| > 0 {
      assert s == [s[0]] + s[1..];
      KeysCons(s[0], s[1..]);
      if s[0].sortKey != k {
        RemoveKeyCount(s[1..], k);
      }
    }
  }

  /** Inserting a new key and removing it again gives back the set. */
  lemma {:induction false} RemoveInserted(s: seq<Item>, t: Item)
    requires Sorted(s) && t.sortKey !in Keys(s)
    ensures RemoveKey(InsertSorted(s, t), t.sortKey) == s
  {
    if |s| > 0 && t.sortKey > s[0].sortKey {
      assert s == [s[0]] + s[1..];
      KeysCons(s[0], s[1..]);
      RemoveInserted(s[1..], t);
    }
  }

  /** Removing a present element and inserting it again gives back the set. */
  lemma {:induction false} ReinsertRemoved(s: seq<Item>, i: nat)
    requires Sorted(s) && i < |s|
    ensures InsertSorted(RemoveKey(s, s[i].sortKey), s[i]) == s
  {
    if i == 0 {
      assert Above(s[0].sortKey, s[1..]);
      if |s| > 1 {
        assert s == [s[0]] + s[1..];
      }
    } else {
      ReinsertRemoved(s[1..], i - 1);
      assert s == [s[0]] + s[1..];
    }
  }

  /** In a sorted sequence, elements and keys are in one-to-one correspondence. */
  lemma {:induction false} SortedKeyCount(s: seq<Item>)
    requires Sorted(s)
    ensures |Keys(s)| == |s|
  {
    if |s| > 0 {
      SortedKeyCount(s[1..]);
      assert s == [s[0]] + s[1..];
      KeysCons(s[0], s[1..]);
      assert Above(s[0].sortKey, s[1..]);
      KeysOfAbove(s[0].sortKey, s[1..]);
    }
  }

  // ---------------------------------------------------------------------------
  // Accumulation into an output set, as the inserter of the set algorithms does

  /** The elements xs inserted one after the other into s. */
  function InsertAll(s: seq<Item>, xs: seq<Item>): (r: seq<Item>)
    requires Sorted(s)
    ensures Sorted(r)
    decreases |xs|
  {
    if |xs| == 0 then s else InsertSorted(InsertAll(s, xs[..|xs| - 1]), xs[|xs| - 1])
  }

  lemma {:induction false} InsertAllKeys(s: seq<Item>, xs: seq<Item>)
    requires Sorted(s)
    ensures Keys(InsertAll(s, xs)) == Keys(s) + Keys(xs)
    decreases |xs|
  {
    if |xs| > 0 {
      var n := |xs| - 1;
      InsertAllKeys(s, xs[..n]);
      InsertSortedKeys(InsertAll(s, xs[..n]), xs[n]);
      assert xs == xs[..n] + [xs[n]];
      KeysSnoc(xs[..n], xs[n]);
      assert (Keys(s) + Keys(xs[..n])) + {xs[n].sortKey} == Keys(s) + (Keys(xs[..n]) + {xs[n].sortKey});
    }
  }

  lemma InsertAllStep(c: seq<Item>, xs: seq<Item>, x: Item)
    requires Sorted(c)
    ensures InsertAll(c, xs + [x]) == InsertSorted(InsertAll(c, xs), x)
  {
    assert (xs + [x])[..|xs|] == xs;
  }

  /** The elements of a, in order, whose key is (keep) or is not (!keep) a key of b. */
  function Filter(a: seq<Item>, b: seq<Item>, keep: bool): (r: seq<Item>)
    decreases |a|
  {
    if |a| == 0 then []
    else
      var n := |a| - 1;
      Filter(a[..n], b, keep) + (if (a[n].sortKey in Keys(b)) == keep then [a[n]] else [])
  }

  lemma {:induction false} FilterKeys(a: seq<Item>, b: seq<Item>, keep: bool)
    ensures keep ==> Keys(Filter(a, b, keep)) == Keys(a) * Keys(b)
    ensures !keep ==> Keys(Filter(a, b, keep)) == Keys(a) - Keys(b)
    decreases |a|
  {
    if |a| > 0 {
      var n := |a| - 1;
      FilterKeys(a[..n], b, keep);
      assert a == a[..n] + [a[n]];
      KeysSnoc(a[..n], a[n]);
      var f := Filter(a[..n], b, keep);
      if (a[n].sortKey in Keys(b)) == keep {
        KeysSnoc(f, a[n]);
      } else {
        assert Filter(a, b, keep) == f;
        var x, ka := a[n].sortKey, Keys(a[..n]);
        assert Keys(a) == ka + {x};
        if keep {
          assert (ka + {x}) * Keys(b) == ka * Keys(b);
        } else {
          assert (ka + {x}) - Keys(b) == ka - Keys(b);
        }
      }
    }
  }

  lemma FilterTake(a: seq<Item>, b: seq<Item>, keep: bool, i: nat)
    requires i < |a| && (a[i].sortKey in Keys(b)) == keep
    ensures Filter(a[..i + 1], b, keep) == Filter(a[..i], b, keep) + [a[i]]
  {
    assert a[..i + 1][..i] == a[..i];
  }

  lemma FilterSkip(a: seq<Item>, b: seq<Item>, keep: bool, i: nat)
    requires i < |a| && (a[i].sortKey in Keys(b)) != keep
    ensures Filter(a[..i + 1], b, keep) == Filter(a[..i], b, keep)
  {
    assert a[..i + 1][..i] == a[..i];
    assert Filter(a[..i + 1], b, keep) == Filter(a[..i], b, keep) + [];
  }

  /** Once no key of a from i on is a key of b, the common part stops at i. */
  lemma {:induction false} FilterRestPrefix(a: seq<Item>, b: seq<Item>, keep: bool, i: nat)
    requires i <= |a|
    requires keep && forall k :: i <= k < |a| ==> a[k].sortKey !in Keys(b)
    ensures Filter(a, b, keep) == Filter(a[..i], b, keep)
    decreases |a| - i
  {
    if i < |a| {
      FilterRestPrefix(a, b, keep, i + 1);
      FilterSkip(a, b, keep, i);
    } else {
      assert a[..i] == a;
    }
  }

  /** Elements of the output set after intersection: what it held, plus the common keys. */
  lemma IntersectionKeys(c: seq<Item>, a: seq<Item>, b: seq<Item>)
    requires Sorted(c)
    ensures Keys(InsertAll(c, Filter(a, b, true))) == Keys(c) + (Keys(a) * Keys(b))
  {
    InsertAllKeys(c, Filter(a, b, true));
    FilterKeys(a, b, true);
  }

  /** Elements of the output set after difference: what it held, plus the keys of a not in b. */
  lemma DifferenceKeys(c: seq<Item>, a: seq<Item>, b: seq<Item>)
    requires Sorted(c)
    ensures Keys(InsertAll(c, Filter(a, b, false))) == Keys(c) + (Keys(a) - Keys(b))
  {
    InsertAllKeys(c, Filter(a, b, false));
    FilterKeys(a, b, false);
  }

  /** Below every key of b from j on, and above every key before j: not a key of b. */
  lemma NotInGap(a: seq<Item>, b: seq<Item>, i: nat, j: nat)
    requires Sorted(b) && i < |a| && j <= |b|
    requires forall q :: 0 <= q < j ==> b[q].sortKey < a[i].sortKey
    requires j == |b| || a[i].sortKey < b[j].sortKey
    ensures a[i].sortKey !in Keys(b)
  {
    forall q | 0 <= q < |b| ensures b[q].sortKey != a[i].sortKey {
      if q >= j { assert b[j].sortKey <= b[q].sortKey; }
    }
  }

  /** Once all of b lies below a[i], no key of a from i on is a key of b. */
  lemma NoneLeft(a: seq<Item>, b: seq<Item>, i: nat)
    requires Sorted(a) && i < |a|
    requires forall q :: 0 <= q < |b| ==> b[q].sortKey < a[i].sortKey
    ensures forall k :: i <= k < |a| ==> a[k].sortKey !in Keys(b)
  {
    forall k | i <= k < |a| ensures a[k].sortKey !in Keys(b) {
      forall q | 0 <= q < |b| ensures b[q].sortKey != a[k].sortKey {
        assert b[q].sortKey < a[i].sortKey <= a[k].sortKey;
      }
    }
  }

  /**
   * The merge loops of set_intersection and set_difference over two ranges in
   * key order, each output element inserted into c0: the elements of a whose
   * key is (keep) or is not (!keep) a key of b.
   */
  method MergeInto(a: seq<Item>, b: seq<Item>, c0: seq<Item>, keep: bool) returns (acc: seq<Item>)
    requires Sorted(a) && Sorted(b) && Sorted(c0)
    ensures Sorted(acc) && acc == InsertAll(c0, Filter(a, b, keep))
  {
    acc := c0;
    var i, j := 0, 0;
    while i < |a| && (j < |b| || !keep)
      invariant i <= |a| && j <= |b|
      invariant Sorted(acc) && acc == InsertAll(c0, Filter(a[..i], b, keep))
      invariant i < |a| ==> forall q :: 0 <= q < j ==> b[q].sortKey < a[i].sortKey
      decreases |a| - i + |b| - j
    {
      if j == |b| || a[i].sortKey < b[j].sortKey {
        NotInGap(a, b, i, j);
        if keep {
          FilterSkip(a, b, keep, i);
        } else {
          FilterTake(a, b, keep, i);
          InsertAllStep(c0, Filter(a[..i], b, keep), a[i]);
          acc := InsertSorted(acc, a[i]);
        }
        i := i + 1;
      } else if b[j].sortKey < a[i].sortKey {
        j := j + 1;
      } else {
        assert b[j] in b;
        if keep {
          FilterTake(a, b, keep, i);
          InsertAllStep(c0, Filter(a[..i], b, keep), a[i]);
          acc := InsertSorted(acc, a[i]);
        } else {
          FilterSkip(a, b, keep, i);
        }
        i, j := i + 1, j + 1;
      }
    }
    if i < |a| {
      NoneLeft(a, b, i);
      FilterRestPrefix(a, b, keep, i);
    } else {
      assert a[..i] == a;
    }
  }

  /** intersection(s1, s2, commonT): commonT receives the elements of s1 whose key is in s2; it is not emptied first. */
  method Intersection(s1: SiconosSet, s2: SiconosSet, common: SiconosSet)
    requires s1.Valid() && s2.Valid() && common.Valid()
    modifies common`elems
    ensures common.Valid()
    ensures common.elems == InsertAll(old(common.elems), Filter(old(s1.elems), old(s2.elems), true))
    ensures Keys(common.elems) == Keys(old(common.elems)) + (Keys(old(s1.elems)) * Keys(old(s2.elems)))
  {
    var acc := MergeInto(s1.elems, s2.elems, common.elems, true);
    IntersectionKeys(common.elems, s1.elems, s2.elems);
    common.elems := acc;
  }

  /** difference(s1, s2, commonT): commonT receives the elements of s1 whose key is not in s2. */
  method Difference(s1: SiconosSet, s2: SiconosSet, common: SiconosSet)
    requires s1.Valid() && s2.Valid() && common.Valid()
    modifies common`elems
    ensures common.Valid()
    ensures common.elems == InsertAll(old(common.elems), Filter(old(s1.elems), old(s2.elems), false))
    ensures Keys(common.elems) == Keys(old(common.elems)) + (Keys(old(s1.elems)) - Keys(old(s2.elems)))
  {
    var acc := MergeInto(s1.elems, s2.elems, common.elems, false);
    DifferenceKeys(common.elems, s1.elems, s2.elems);
    common.elems := acc;
  }

  // ---------------------------------------------------------------------------
  // The set object

  class SiconosSet {
    var elems: seq<Item>

    ghost predicate Valid()
      reads this
    {
      Sorted(elems)
    }

    constructor ()
      ensures Valid() && elems == []
    {
      elems := [];
    }

    /** size(): the number of elements, which is the number of distinct keys. */
    function Size(): (n: nat)
      reads this
      requires Valid()
      ensures n == |Keys(elems)|
    {
      SortedKeyCount(elems);
      |elems|
    }

    /** isEmpty(): no element, that is, size 0. */
    predicate IsEmpty()
      reads this
      requires Valid()
      ensures IsEmpty() <==> Size() == 0
      ensures IsEmpty() <==> Keys(elems) == {}
    {
      assert |elems| > 0 ==> elems[0].sortKey in Keys(elems);
      |elems| == 0
    }

    /** isIn(t): an element with t's key is present (lookup through the order, not by identity). */
    predicate IsIn(t: Item)
      reads this
      ensures IsIn(t) <==> exists i :: 0 <= i < |elems| && elems[i].sortKey == t.sortKey
    {
      t.sortKey in Keys(elems)
    }

    /** find(num): the first position in key order holding number num; |elems| ("end") if none. */
    method FindNumber(num: int) returns (it: nat)
      ensures it <= |elems|
      ensures forall j :: 0 <= j < it ==> elems[j].number != num
      ensures it < |elems| ==> elems[it].number == num
    {
      it := 0;
      while it < |elems|
        invariant it <= |elems|
        invariant forall j :: 0 <= j < it ==> elems[j].number != num
      {
        if elems[it].number == num {
          return;
        }
        it := it + 1;
      }
    }

    /** isIn(num): some element has number num. */
    method IsInNumber(num: int) returns (out: bool)
      ensures out <==> exists i :: 0 <= i < |elems| && elems[i].number == num
    {
      out := false;
      var k := 0;
      while k < |elems|
        invariant k <= |elems|
        invariant forall j :: 0 <= j < k ==> elems[j].number != num
      {
        if elems[k].number == num {
          out := true;
          break;
        }
        k := k + 1;
      }
    }

    /** getPtr(num): the first element in key order with number num; an error when there is none. */
    method GetPtr(num: int) returns (r: Result<Item, SetError>)
      ensures r.Failure? <==> forall i :: 0 <= i < |elems| ==> elems[i].number != num
      ensures r.Failure? ==> r.error == NumberNotFound
      ensures r.Success? ==> exists i :: 0 <= i < |elems| && elems[i] == r.value && r.value.number == num
                                         && forall j :: 0 <= j < i ==> elems[j].number != num
    {
      var it := FindNumber(num);
      if it == |elems| {
        return Failure(NumberNotFound);
      }
      r := Success(elems[it]);
    }

    /** insert(t): false, and no change, when an element with t's key is already present. */
    method Insert(t: Item) returns (inserted: bool)
      requires Valid()
      modifies this`elems
      ensures Valid()
      ensures inserted <==> !old(IsIn(t))
      ensures elems == InsertSorted(old(elems), t)
      ensures !inserted ==> elems == old(elems)
      ensures inserted ==> Elements(elems) == Elements(old(elems)) + {t} && |elems| == |old(elems)| + 1
      ensures Keys(elems) == Keys(old(elems)) + {t.sortKey}
    {
      inserted := t.sortKey !in Keys(elems);
      if inserted {
        InsertSortedAbsent(elems, t);
      } else {
        InsertSortedPresent(elems, t);
      }
      InsertSortedKeys(elems, t);
      elems := InsertSorted(elems, t);
    }

    /** erase(t): removes the element with t's key; raises when there is none. */
    method Erase(t: Item) returns (s: Status)
      requires Valid()
      modifies this`elems
      ensures Valid()
      ensures s.Raised? <==> !old(IsIn(t))
      ensures s.Raised? ==> s.error == NotInSet && elems == old(elems)
      ensures s.Ok? ==> elems == RemoveKey(old(elems), t.sortKey)
      ensures s.Ok? ==> Keys(elems) == Keys(old(elems)) - {t.sortKey} && |elems| == |old(elems)| - 1
    {
      if t.sortKey !in Keys(elems) {
        return Raised(NotInSet);
      }
      RemoveKeyKeys(elems, t.sortKey);
      RemoveKeyCount(elems, t.sortKey);
      elems := RemoveKey(elems, t.sortKey);
      s := Ok;
    }

    /** clear(): no element is left. */
    method Clear()
      requires Valid()
      modifies this`elems
      ensures Valid() && Size() == 0 && IsEmpty()
    {
      elems := [];
    }
  }
}
