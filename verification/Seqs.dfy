/** The ends of a sequence, Python slices, and putting sequences end to end. */
module Seqs {

  function Front<T>(s: seq<T>): seq<T>
    requires s != []
  {
    s[..|s| - 1]
  }

  function Last<T>(s: seq<T>): T
    requires s != []
  {
    s[|s| - 1]
  }

  /** s[from:to] in Python, which stops at the end of the sequence. */
  function PySlice<T>(s: seq<T>, from: nat, to: nat): seq<T> {
    var end := if to <= |s| then to else |s|;
    if from <= end then s[from..end] else []
  }

  function Concat<T>(groups: seq<seq<T>>): seq<T> {
    if groups == [] then [] else Concat(Front(groups)) + Last(groups)
  }

  lemma ConcatAppend<T>(groups: seq<seq<T>>, g: seq<T>)
    ensures Concat(groups + [g]) == Concat(groups) + g
  {
    assert Front(groups + [g]) == groups;
  }

  lemma {:induction false} ConcatCons<T>(g: seq<T>, groups: seq<seq<T>>)
    ensures Concat([g] + groups) == g + Concat(groups)
  {
    if groups == [] {
      assert [g] + groups == [g];
      assert Front([g]) == [];
    } else {
      ConcatCons(g, Front(groups));
      assert Front([g] + groups) == [g] + Front(groups);
    }
  }

  lemma {:induction false} InConcat<T>(groups: seq<seq<T>>, k: nat)
    requires k < |groups|
    ensures forall x :: x in groups[k] ==> x in Concat(groups)
  {
    if k < |groups| - 1 {
      InConcat(Front(groups), k);
    }
  }

  /** The parts that `f` takes from each element, put end to end. */
  function Gather<A, B>(f: A -> seq<B>, xs: seq<A>): seq<B> {
    if xs == [] then [] else Gather(f, Front(xs)) + f(Last(xs))
  }

  lemma GatherAppend<A, B>(f: A -> seq<B>, xs: seq<A>, y: A)
    ensures Gather(f, xs + [y]) == Gather(f, xs) + f(y)
  {
    assert Front(xs + [y]) == xs;
  }

  /** Replacing one element exchanges its part and no other. */
  lemma {:induction false} GatherReplaced<A, B>(f: A -> seq<B>, xs: seq<A>, k: nat, y: A, b: B)
    requires k < |xs|
    ensures multiset(Gather(f, xs[k := y]))[b] + multiset(f(xs[k]))[b]
         == multiset(Gather(f, xs))[b] + multiset(f(y))[b]
    ensures multiset(f(xs[k]))[b] <= multiset(Gather(f, xs))[b]
  {
    if k == |xs| - 1 {
      assert Front(xs[k := y]) == Front(xs);
    } else {
      assert Front(xs[k := y]) == Front(xs)[k := y];
      GatherReplaced(f, Front(xs), k, y, b);
    }
  }

  lemma {:induction false} InGather<A, B>(f: A -> seq<B>, xs: seq<A>, k: nat)
    requires k < |xs|
    ensures forall b :: b in f(xs[k]) ==> b in Gather(f, xs)
  {
    if k < |xs| - 1 {
      InGather(f, Front(xs), k);
    }
  }

  lemma {:induction false} GatherNothing<A, B>(f: A -> seq<B>, xs: seq<A>)
    requires forall k :: 0 <= k < |xs| ==> f(xs[k]) == []
    ensures Gather(f, xs) == []
  {
    if xs != [] {
      GatherNothing(f, Front(xs));
    }
  }
}
