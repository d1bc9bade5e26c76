/**
 * The comparison functor that orders the elements of a SiconosSet: two
 * elements are compared through the sort key a member function of theirs
 * returns, in normal (increasing) or reverse order.  The key type is taken as
 * `int`, whose `<` is the strict order the functor relies on.
 */
module Cmp {

  datatype CmpMode = Normal | Reverse

  /** A member function bound to its object: calling it applies the member to the object. */
  datatype SpecificFunctor<!T> = SpecificFunctor(obj: T, fpt: T -> int)

  /** myTSpecificFunctor::Call. */
  function Call<T>(f: SpecificFunctor<T>): (r: int)
  {
    f.fpt(f.obj)
  }

  /** A sorting criterion: the key member function and the mode. */
  datatype Cmp<!T> = Cmp(fpt: T -> int, mode: CmpMode)

  /** The two-argument constructor; the mode defaults to normal. */
  function NewCmp<T>(fpt: T -> int, mode: CmpMode := Normal): (c: Cmp<T>)
  {
    Cmp(fpt, mode)
  }

  /** operator(): "t1 comes before t2" under the criterion. */
  function Less<T>(c: Cmp<T>, t1: T, t2: T): bool
  {
    var i1 := Call(SpecificFunctor(t1, c.fpt));
    var i2 := Call(SpecificFunctor(t2, c.fpt));
    if c.mode == Normal then i1 < i2 else i2 < i1
  }

  /** operator==: two criteria are equal when their modes are, whatever their key functions. */
  function SameCriterion<T>(c1: Cmp<T>, c2: Cmp<T>): (r: bool)
  {
    c1.mode == c2.mode
  }

  lemma DefaultModeIsNormal<T>(fpt: T -> int)
    ensures NewCmp(fpt).mode == Normal
    ensures forall a: T, b: T :: Less(NewCmp(fpt), a, b) <==> fpt(a) < fpt(b)
  {
  }

  /** The functor applies the stored member to the stored object. */
  lemma CallAppliesMember<T>(obj: T, fpt: T -> int)
    ensures Call(SpecificFunctor(obj, fpt)) == fpt(obj)
  {
  }

  /** Normal mode compares keys increasingly, reverse mode decreasingly. */
  lemma LessByKey<T>(c: Cmp<T>, a: T, b: T)
    ensures c.mode == Normal ==> (Less(c, a, b) <==> c.fpt(a) < c.fpt(b))
    ensures c.mode == Reverse ==> (Less(c, a, b) <==> c.fpt(b) < c.fpt(a))
  {
  }

  /** Reversing the mode swaps the arguments. */
  lemma ReverseSwaps<T>(fpt: T -> int, a: T, b: T)
    ensures Less(Cmp(fpt, Reverse), a, b) <==> Less(Cmp(fpt, Normal), b, a)
  {
  }

  /**
   * The criterion is a strict weak ordering: irreflexive, asymmetric and
   * transitive, and "neither is less" (equal keys) is an equivalence that
   * the order respects.
   */
  lemma StrictWeakOrdering<T>(c: Cmp<T>, a: T, b: T, d: T)
    ensures !Less(c, a, a)
    ensures Less(c, a, b) ==> !Less(c, b, a)
    ensures Less(c, a, b) && Less(c, b, d) ==> Less(c, a, d)
    ensures (!Less(c, a, b) && !Less(c, b, a)) <==> c.fpt(a) == c.fpt(b)
    ensures !Less(c, a, b) && !Less(c, b, a) && !Less(c, b, d) && !Less(c, d, b) ==>
      !Less(c, a, d) && !Less(c, d, a)
  {
  }

  /** Equality of criteria ignores the key function. */
  lemma SameCriterionIgnoresKey<T>(f1: T -> int, f2: T -> int, m: CmpMode)
    ensures SameCriterion(Cmp(f1, m), Cmp(f2, m))
    ensures !SameCriterion(Cmp(f1, Normal), Cmp(f2, Reverse))
  {
  }
}
