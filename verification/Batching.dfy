/**
  Packing sentences into batches (inference/pipeline/long_text.py, make_batches), and the size of
  a batch (inference/pipeline/decoder.py, _max_batch_chars).
 */
module Batching {
  import opened Wrappers
  import opened PyText
  import opened LongText
  import opened Seqs
  import opened Arithmetic

  /** Where the loop of make_batches puts the next sentence: a new group, or the last one. */
  function Place(groups: seq<seq<string>>, sentence: string, maxChars: int): seq<seq<string>> {
    if groups == [] || (|Join(Last(groups))| + |sentence| > maxChars && Join(Last(groups)) != [])
    then groups + [[sentence]]
    else Front(groups) + [Last(groups) + [sentence]]
  }

  /** The groups of sentences behind the batches. */
  function Greedy(sentences: seq<string>, maxChars: int): seq<seq<string>> {
    if sentences == [] then []
    else Place(Greedy(Front(sentences), maxChars), Last(sentences), maxChars)
  }

  /** What make_batches returns. */
  function Batches(text: string, maxChars: int): seq<string> {
    if |text| < maxChars then [text] else JoinAll(Greedy(Sentences(text), maxChars))
  }

  lemma JoinAppend(g: seq<string>, s: string)
    ensures Join(g + [s]) == if g == [] then s else Join(g) + " " + s
  {
    assert Front(g + [s]) == g;
  }

  lemma GreedyNext(sentences: seq<string>, k: nat, maxChars: int)
    requires k < |sentences|
    ensures Greedy(sentences[..k + 1], maxChars) == Place(Greedy(sentences[..k], maxChars), sentences[k], maxChars)
  {
    assert Front(sentences[..k + 1]) == sentences[..k];
  }

  lemma JoinAllAppend(groups: seq<seq<string>>, g: seq<string>)
    ensures JoinAll(groups + [g]) == JoinAll(groups) + [Join(g)]
  {}

  ghost predicate Solid(groups: seq<seq<string>>) {
    forall k :: 0 <= k < |groups| ==> groups[k] != [] && Join(groups[k]) != []
  }

  lemma PlaceIsSolid(groups: seq<seq<string>>, s: string, maxChars: int)
    requires Solid(groups) && s != []
    ensures Solid(Place(groups, s, maxChars))
  {
    JoinAppend([], s);
    assert [] + [s] == [s];
    if groups != [] {
      JoinAppend(Last(groups), s);
    }
  }

  lemma PlaceAppends(groups: seq<seq<string>>, s: string, maxChars: int)
    ensures Concat(Place(groups, s, maxChars)) == Concat(groups) + [s]
  {
    assert Front(groups + [[s]]) == groups;
    if groups != [] {
      var grown := Front(groups) + [Last(groups) + [s]];
      assert Front(grown) == Front(groups);
      assert Concat(grown) == Concat(Front(groups)) + Last(groups) + [s];
    }
  }

  lemma {:induction false} GreedyGroups(sentences: seq<string>, maxChars: int)
    requires forall i :: 0 <= i < |sentences| ==> sentences[i] != []
    ensures Concat(Greedy(sentences, maxChars)) == sentences
    ensures Solid(Greedy(sentences, maxChars))
  {
    if sentences != [] {
      var before := Greedy(Front(sentences), maxChars);
      GreedyGroups(Front(sentences), maxChars);
      PlaceIsSolid(before, Last(sentences), maxChars);
      PlaceAppends(before, Last(sentences), maxChars);
      assert Greedy(sentences, maxChars) == Place(before, Last(sentences), maxChars);
      assert Concat(before) + [Last(sentences)] == sentences;
    }
  }

  /** The two variables of the loop, as the groups behind them. */
  ghost predicate Renders(batches: seq<string>, current: string, groups: seq<seq<string>>) {
    if groups == [] then batches == [] && current == []
    else batches == JoinAll(Front(groups)) && current == Join(Last(groups)) && current != []
  }

  lemma PlaceRenders(groups: seq<seq<string>>, s: string, maxChars: int, batches: seq<string>, current: string)
    requires Renders(batches, current, groups) && s != []
    ensures var groups' := Place(groups, s, maxChars);
            if current != [] && |current| + |s| > maxChars then Renders(batches + [current], s, groups')
            else Renders(batches, if current == [] then s else current + " " + s, groups')
  {
    JoinAppend([], s);
    assert [] + [s] == [s];
    if groups != [] {
      JoinAppend(Last(groups), s);
      JoinAllAppend(Front(groups), Last(groups));
      assert groups == Front(groups) + [Last(groups)];
      assert Front(groups + [[s]]) == groups;
    }
  }

  method MakeBatches(text: string, maxChars: int) returns (batches: seq<string>)
    ensures batches == Batches(text, maxChars)
  {
    if |text| < maxChars {
      return [text];
    }
    var sentences := SplitTextIntoSentences(text);
    SentencesAreLong(text);
    batches := [];
    var current := "";
    for k := 0 to |sentences|
      invariant Renders(batches, current, Greedy(sentences[..k], maxChars))
    {
      var sentence := sentences[k];
      GreedyNext(sentences, k, maxChars);
      PlaceRenders(Greedy(sentences[..k], maxChars), sentence, maxChars, batches, current);
      if |current| + |sentence| > maxChars && current != "" {
        batches := batches + [current];
        current := sentence;
      } else {
        if current != "" {
          current := current + " ";
        }
        current := current + sentence;
      }
    }
    assert sentences[..|sentences|] == sentences;
    if current != "" {
      ghost var groups := Greedy(sentences, maxChars);
      JoinAllAppend(Front(groups), Last(groups));
      assert groups == Front(groups) + [Last(groups)];
      batches := batches + [current];
    }
  }

  /** Batching keeps every visible character of the text, in order. */
  lemma BatchesKeepText(text: string, maxChars: int)
    ensures Visible(Batches(text, maxChars)) == NonSpace(text)
  {
    if |text| < maxChars {
      VisibleOfOne(text);
    } else {
      SentencesKeepText(text);
      SentencesAreLong(text);
      GreedyGroups(Sentences(text), maxChars);
      VisibleOfGroups(Greedy(Sentences(text), maxChars));
    }
  }

  // ---------------------------------------------------------------- optimality

  /** A group that may be a batch: a single sentence, or a text that is not too long. */
  ghost predicate Fits(g: seq<string>, maxChars: int) {
    |g| == 1 || (|g| > 1 && |Join(g)| <= maxChars + 1)
  }

  /** The sentences cut into consecutive groups that may be batches. */
  ghost predicate IsPacking(groups: seq<seq<string>>, sentences: seq<string>, maxChars: int) {
    && Concat(groups) == sentences
    && forall k :: 0 <= k < |groups| ==> Fits(groups[k], maxChars)
  }

  lemma PlaceFits(groups: seq<seq<string>>, s: string, maxChars: int)
    requires Solid(groups) && forall k :: 0 <= k < |groups| ==> Fits(groups[k], maxChars)
    ensures forall k :: 0 <= k < |Place(groups, s, maxChars)| ==> Fits(Place(groups, s, maxChars)[k], maxChars)
  {
    if groups != [] {
      JoinAppend(Last(groups), s);
    }
  }

  lemma {:induction false} GreedyFits(sentences: seq<string>, maxChars: int)
    requires forall i :: 0 <= i < |sentences| ==> sentences[i] != []
    ensures IsPacking(Greedy(sentences, maxChars), sentences, maxChars)
  {
    GreedyGroups(sentences, maxChars);
    if sentences != [] {
      GreedyFits(Front(sentences), maxChars);
      GreedyGroups(Front(sentences), maxChars);
      PlaceFits(Greedy(Front(sentences), maxChars), Last(sentences), maxChars);
    }
  }

  lemma {:induction false} SuffixIsShorter(g: seq<string>, n: nat)
    requires n < |g|
    ensures |Join(g[n..])| <= |Join(g)|
  {
    if n == |g| - 1 {
      assert g[n..] == [g[n]];
    } else {
      SuffixIsShorter(Front(g), n);
      assert Front(g)[n..] == Front(g[n..]);
    }
  }

  /** A packing of all but the last sentence, out of one of all of them. */
  lemma WithoutLast(groups: seq<seq<string>>, sentences: seq<string>, maxChars: int) returns (shorter: seq<seq<string>>)
    requires sentences != [] && IsPacking(groups, sentences, maxChars)
    ensures groups != [] && Last(Last(groups)) == Last(sentences)
    ensures IsPacking(shorter, Front(sentences), maxChars)
    ensures |Last(groups)| == 1 ==> |shorter| == |groups| - 1
    ensures |Last(groups)| > 1 ==> |shorter| == |groups| && Last(shorter) == Front(Last(groups))
  {
    var g := Last(groups);
    assert Fits(g, maxChars);
    assert sentences == Concat(Front(groups)) + g;
    if |g| == 1 {
      shorter := Front(groups);
      assert Concat(shorter) == Front(sentences);
    } else {
      shorter := Front(groups) + [Front(g)];
      JoinAppend(Front(g), Last(g));
      assert g == Front(g) + [Last(g)];
      assert Front(shorter) == Front(groups);
      assert Concat(shorter) == Front(sentences);
    }
  }

  /** Greedy needs no more groups than any packing, and with as many, its last one is no longer. */
  ghost predicate Ahead(greedy: seq<seq<string>>, groups: seq<seq<string>>) {
    |greedy| < |groups|
    || (|greedy| == |groups| && (greedy != [] ==> |Last(greedy)| <= |Last(groups)|))
  }

  lemma {:induction false} GreedyStaysAhead(sentences: seq<string>, maxChars: int, groups: seq<seq<string>>)
    requires forall i :: 0 <= i < |sentences| ==> sentences[i] != []
    requires IsPacking(groups, sentences, maxChars)
    ensures Ahead(Greedy(sentences, maxChars), groups)
    decreases |sentences|
  {
    if sentences != [] {
      var s := Last(sentences);
      var before := Greedy(Front(sentences), maxChars);
      var shorter := WithoutLast(groups, sentences, maxChars);
      GreedyStaysAhead(Front(sentences), maxChars, shorter);
      GreedyGroups(Front(sentences), maxChars);
      var g := Last(groups);
      if |g| > 1 && |before| == |shorter| && before != [] {
        LastFits(before, shorter, Front(sentences), s, maxChars);
      }
    }
  }

  /** When the greedy last group is no longer than the packing's, it can grow if that one can. */
  lemma LastFits(before: seq<seq<string>>, shorter: seq<seq<string>>, sentences: seq<string>, s: string, maxChars: int)
    requires before != [] && shorter != [] && Concat(before) == sentences && Concat(shorter) == sentences
    requires Last(before) != [] && |Last(before)| <= |Last(shorter)|
    requires Fits(Last(shorter) + [s], maxChars)
    ensures |Join(Last(before))| + |s| <= maxChars
  {
    var a, b := Last(before), Last(shorter);
    var n := |b| - |a|;
    assert b[n..] == a by {
      assert sentences[|sentences| - |a|..] == a;
      assert sentences[|sentences| - |b|..] == b;
    }
    SuffixIsShorter(b, n);
    JoinAppend(b, s);
  }

  /** The batches are the rendering of a packing that no other one undercuts. */
  ghost predicate IsOptimal(batches: seq<string>, sentences: seq<string>, maxChars: int) {
    && (exists p :: IsPacking(p, sentences, maxChars) && batches == JoinAll(p))
    && forall p :: IsPacking(p, sentences, maxChars) ==> |batches| <= |p|
  }

  /**
    Greedy batching is optimal: the batches of a text that is not short are its sentences, in
    consecutive groups that are each a single sentence or no longer than maxChars + 1, and no such
    grouping has fewer groups.
   */
  lemma GreedyIsOptimal(text: string, maxChars: int)
    requires |text| >= maxChars
    ensures IsOptimal(Batches(text, maxChars), Sentences(text), maxChars)
  {
    var greedy := Greedy(Sentences(text), maxChars);
    SentencesAreLong(text);
    GreedyFits(Sentences(text), maxChars);
    assert IsPacking(greedy, Sentences(text), maxChars) && Batches(text, maxChars) == JoinAll(greedy);
    forall p | IsPacking(p, Sentences(text), maxChars)
      ensures |Batches(text, maxChars)| <= |p|
    {
      GreedyStaysAhead(Sentences(text), maxChars, p);
    }
  }

  /** A text that is short is one batch, and every batch of another is one sentence or not too long. */
  lemma EveryBatchFits(text: string, maxChars: int)
    ensures |text| < maxChars ==> Batches(text, maxChars) == [text]
    ensures |text| >= maxChars ==> forall b :: b in Batches(text, maxChars) ==>
              b in Sentences(text) || |b| <= maxChars + 1
  {
    if |text| >= maxChars {
      GreedyIsOptimal(text, maxChars);
      var p :| IsPacking(p, Sentences(text), maxChars) && Batches(text, maxChars) == JoinAll(p);
      forall b | b in Batches(text, maxChars)
        ensures b in Sentences(text) || |b| <= maxChars + 1
      {
        var k :| 0 <= k < |p| && JoinAll(p)[k] == b;
        assert Fits(p[k], maxChars);
        if |p[k]| == 1 {
          InConcat(p, k);
          assert p[k] == [b];
        }
      }
    }
  }

  // ---------------------------------------------------------------- the size of a batch

  /** _max_batch_chars: budget / 6.5 * 0.7 is budget * 7 / 65. */
  function MaxBatchChars(explicitChars: Option<int>, budget: int): int {
    if explicitChars.Some? then Max(80, explicitChars.value)
    else Max(200, Min(1000, Truncate(budget * 7, 65)))
  }

  /** At 6.5 tokens per character, `chars` characters stay within the budget. */
  predicate WithinBudget(chars: int, budget: int) {
    13 * chars <= 2 * budget
  }

  /**
    With no explicit size, every length a multi-sentence batch may have stays within the token
    budget exactly when the budget is at least 1307.
   */
  lemma BudgetIff(budget: int)
    ensures (forall chars :: chars <= MaxBatchChars(None, budget) + 1 ==> WithinBudget(chars, budget))
       <==> budget >= 1307
  {
    var top := MaxBatchChars(None, budget) + 1;
    assert WithinBudget(top, budget) <==> budget >= 1307;
  }

  /** So no batch but a single long sentence is cut off by the budget. */
  lemma BatchWithinBudget(text: string, budget: int)
    requires budget >= 1307
    ensures forall b :: b in Batches(text, MaxBatchChars(None, budget)) ==>
              b in Sentences(text) || WithinBudget(|b|, budget)
  {
    BudgetIff(budget);
    EveryBatchFits(text, MaxBatchChars(None, budget));
    assert WithinBudget(MaxBatchChars(None, budget) + 1, budget);
  }

  /** The default size is what seven tenths of the budget hold, rounded down, from 200 to 1000 characters. */
  lemma DefaultSize(budget: int)
    ensures var size := MaxBatchChars(None, budget);
            && 200 <= size <= 1000
            && (65 * 200 <= 7 * budget < 65 * 1001 ==> 65 * size <= 7 * budget < 65 * (size + 1))
            && (7 * budget < 65 * 200 ==> size == 200)
            && (7 * budget >= 65 * 1000 ==> size == 1000)
  {}

  /** A size that is asked for is taken, but not below 80 characters. */
  lemma AskedSize(size: int, budget: int)
    ensures size >= 80 ==> MaxBatchChars(Some(size), budget) == size
    ensures size < 80 ==> MaxBatchChars(Some(size), budget) == 80
  {}
}
