/** Weighted sums over sequences, and what permuting or thinning a sequence does to them. */
module Sums {

  function Sum<T>(w: T -> real, xs: seq<T>): real {
    if xs == [] then 0.0 else Sum(w, xs[..|xs| - 1]) + w(xs[|xs| - 1])
  }

  function Without<T>(xs: seq<T>, i: nat): seq<T>
    requires i < |xs|
  {
    xs[..i] + xs[i + 1..]
  }

  lemma SumOfOne<T>(w: T -> real, x: T)
    ensures Sum(w, [x]) == w(x)
  {
    assert [x][..0] == [];
  }

  lemma {:induction false} SumConcat<T>(w: T -> real, a: seq<T>, b: seq<T>)
    ensures Sum(w, a + b) == Sum(w, a) + Sum(w, b)
  {
    if b == [] {
      assert a + b == a;
    } else {
      SumConcat(w, a, b[..|b| - 1]);
      assert (a + b)[..|a + b| - 1] == a + b[..|b| - 1];
    }
  }

  lemma SumAppend<T>(w: T -> real, a: seq<T>, x: T)
    ensures Sum(w, a + [x]) == Sum(w, a) + w(x)
  {
    SumConcat(w, a, [x]);
    SumOfOne(w, x);
  }

  lemma SumMiddle<T>(w: T -> real, a: seq<T>, x: T, b: seq<T>)
    ensures Sum(w, a + [x] + b) == Sum(w, a + b) + w(x)
  {
    SumConcat(w, a + [x], b);
    SumAppend(w, a, x);
    SumConcat(w, a, b);
  }

  lemma SplitAt<T>(xs: seq<T>, i: nat)
    requires i < |xs|
    ensures xs[..i] + [xs[i]] + xs[i + 1..] == xs
  {}

  lemma SumWithout<T>(w: T -> real, xs: seq<T>, i: nat)
    requires i < |xs|
    ensures Sum(w, xs) == Sum(w, Without(xs, i)) + w(xs[i])
  {
    SplitAt(xs, i);
    SumMiddle(w, xs[..i], xs[i], xs[i + 1..]);
  }

  lemma MultisetWithout<T>(xs: seq<T>, i: nat)
    requires i < |xs|
    ensures multiset(xs) == multiset(Without(xs, i)) + multiset{xs[i]}
    ensures multiset(Without(xs, i)) == multiset(xs) - multiset{xs[i]}
  {
    assert xs == xs[..i] + ([xs[i]] + xs[i + 1..]);
  }

  lemma CountWithout<T>(xs: seq<T>, i: nat, x: T)
    requires i < |xs|
    ensures multiset(xs)[x] == multiset(Without(xs, i))[x] + (if x == xs[i] then 1 else 0)
  {
    MultisetWithout(xs, i);
  }

  lemma {:induction false} SumOfPart<T>(w: T -> real, part: seq<T>, whole: seq<T>)
    requires multiset(part) <= multiset(whole)
    requires forall x :: x in whole ==> w(x) >= 0.0
    ensures Sum(w, part) <= Sum(w, whole)
    decreases |part|
  {
    if part == [] {
      SumNonNegative(w, whole);
    } else {
      var n := |part| - 1;
      assert part == part[..n] + [part[n]];
      assert part[n] in multiset(whole);
      var i :| 0 <= i < |whole| && whole[i] == part[n];
      MultisetWithout(whole, i);
      SumOfPart(w, part[..n], Without(whole, i));
      SumWithout(w, whole, i);
    }
  }

  lemma {:induction false} SumNonNegative<T>(w: T -> real, xs: seq<T>)
    requires forall x :: x in xs ==> w(x) >= 0.0
    ensures Sum(w, xs) >= 0.0
  {
    if xs != [] {
      SumNonNegative(w, xs[..|xs| - 1]);
    }
  }

  lemma {:induction false} SumOfPermutation<T>(w: T -> real, a: seq<T>, b: seq<T>)
    requires multiset(a) == multiset(b)
    ensures Sum(w, a) == Sum(w, b)
    decreases |a|
  {
    if a == [] {
      assert |b| == |multiset(b)| == 0;
    } else {
      var n := |a| - 1;
      assert a == a[..n] + [a[n]];
      assert a[n] in multiset(b);
      var i :| 0 <= i < |b| && b[i] == a[n];
      MultisetWithout(b, i);
      SumOfPermutation(w, a[..n], Without(b, i));
      SumWithout(w, b, i);
    }
  }

  lemma {:induction false} SumIsZero<T>(w: T -> real, xs: seq<T>)
    requires forall x :: x in xs ==> w(x) == 0.0
    ensures Sum(w, xs) == 0.0
  {
    if xs != [] {
      SumIsZero(w, xs[..|xs| - 1]);
    }
  }

  /** Two weights that are ordered on every element have ordered sums. */
  lemma {:induction false} SumIsMonotone<T>(v: T -> real, w: T -> real, xs: seq<T>)
    requires forall x :: x in xs ==> v(x) <= w(x)
    ensures Sum(v, xs) <= Sum(w, xs)
  {
    if xs != [] {
      SumIsMonotone(v, w, xs[..|xs| - 1]);
    }
  }
}
