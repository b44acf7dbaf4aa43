/** Option, Result and finite sums shared by every other module. */
module Basics {

  datatype Option<+T> = None | Some(value: T)

  /** A database transaction either commits a value or rolls back with an error. */
  datatype Result<+T, +E> = Ok(value: T) | Err(error: E) {
    predicate IsFailure() { Err? }
    function PropagateFailure<U>(): Result<U, E>
      requires Err?
    {
      Err(error)
    }
    function Extract(): T
      requires Ok?
    {
      value
    }
  }

  function Filter<T(!new)>(s: seq<T>, keep: T -> bool): (kept: seq<T>)
    ensures forall x :: x in kept <==> x in s && keep(x)
  {
    if s == [] then [] else if keep(s[0]) then [s[0]] + Filter(s[1..], keep) else Filter(s[1..], keep)
  }

  // --- Finite sums: f(0) + ... + f(k - 1), the shape of every SQL SUM and COUNT ---

  function Sum(k: nat, f: nat -> nat): nat {
    if k == 0 then 0 else Sum(k - 1, f) + f(k - 1)
  }

  lemma {:induction false} SumMonotone(k: nat, f: nat -> nat, g: nat -> nat)
    requires forall i: nat :: i < k ==> f(i) <= g(i)
    ensures Sum(k, f) <= Sum(k, g)
  {
    if k > 0 { SumMonotone(k - 1, f, g); }
  }

  lemma SumEqual(k: nat, f: nat -> nat, g: nat -> nat)
    requires forall i: nat :: i < k ==> f(i) == g(i)
    ensures Sum(k, f) == Sum(k, g)
  {
    SumMonotone(k, f, g);
    SumMonotone(k, g, f);
  }

  lemma {:induction false} SumAdds(k: nat, f: nat -> nat, g: nat -> nat, h: nat -> nat)
    requires forall i: nat :: i < k ==> h(i) <= f(i) + g(i)
    ensures Sum(k, h) <= Sum(k, f) + Sum(k, g)
  {
    if k > 0 { SumAdds(k - 1, f, g, h); }
  }

  lemma {:induction false} SumSplits(k: nat, f: nat -> nat, g: nat -> nat, h: nat -> nat)
    requires forall i: nat :: i < k ==> h(i) == f(i) + g(i)
    ensures Sum(k, h) == Sum(k, f) + Sum(k, g)
  {
    if k > 0 { SumSplits(k - 1, f, g, h); }
  }

  /** Changing one summand changes the sum by the difference. */
  lemma {:induction false} SumAt(k: nat, f: nat -> nat, g: nat -> nat, x: nat)
    requires x < k
    requires forall i: nat :: i < k && i != x ==> f(i) == g(i)
    ensures Sum(k, f) + g(x) == Sum(k, g) + f(x)
  {
    if x < k - 1 { SumAt(k - 1, f, g, x); } else { SumEqual(k - 1, f, g); }
  }

  lemma {:induction false} SumZero(k: nat, f: nat -> nat)
    requires forall i: nat :: i < k ==> f(i) == 0
    ensures Sum(k, f) == 0
  {
    if k > 0 { SumZero(k - 1, f); }
  }

  lemma SumSingle(k: nat, f: nat -> nat, x: nat)
    requires x < k
    requires forall i: nat :: i < k && i != x ==> f(i) == 0
    ensures Sum(k, f) == f(x)
  {
    var zero := (i: nat) => 0;
    SumZero(k, zero);
    SumAt(k, f, zero, x);
  }

  lemma {:induction false} SumHasTerm(k: nat, f: nat -> nat, x: nat)
    requires x < k
    ensures f(x) <= Sum(k, f)
  {
    if x < k - 1 { SumHasTerm(k - 1, f, x); }
  }

  /** The numbers below `k` with the property. */
  function Below(k: nat, p: nat -> bool): set<nat> {
    set j: nat | j < k && p(j)
  }

  lemma BelowNext(k: nat, p: nat -> bool)
    ensures |Below(k + 1, p)| == |Below(k, p)| + (if p(k) then 1 else 0)
  {
    if p(k) {
      assert Below(k + 1, p) == Below(k, p) + {k};
    } else {
      assert Below(k + 1, p) == Below(k, p);
    }
  }

  /** A subset that is as large as the whole set is the whole set. */
  lemma {:induction false} FullSubset<T>(part: set<T>, whole: set<T>)
    requires part <= whole
    ensures |part| <= |whole|
    ensures |part| == |whole| <==> part == whole
  {
    assert whole == part + (whole - part);
    assert |whole| == |part| + |whole - part|;
  }
}
