/**
  The hand-off from the decoder thread to the response generator (inference/pipeline/speechpipe.py,
  tokens_decoder_sync): a bounded queue, closed by a sentinel, between a producer that may raise
  and a consumer that pulls.
 */
module HandOff {
  import opened Wrappers
  import opened Pcm16
  import opened TokenText
  import opened Snac

  // ---------------------------------------------------------------- token batching

  /** Yields a batch token by token. */
  method PassOn(before: seq<string>, batch: seq<string>) returns (out: seq<string>)
    ensures out == before + batch
  {
    out := before;
    for j := 0 to |batch|
      invariant out == before + batch[..j]
    {
      out := out + [batch[j]];
    }
  }

  /**
    async_token_gen: tokens are passed on in batches, the rest at the end. If the source raises
    after `raisesAt` tokens, the `full` batches before that come through and the one being
    collected is lost.
   */
  method BatchTokens(tokens: seq<string>, batchSize: nat, raisesAt: Option<nat>)
    returns (out: seq<string>, ghost full: nat)
    requires batchSize > 0
    requires raisesAt.Some? ==> raisesAt.value <= |tokens|
    ensures raisesAt.None? ==> out == tokens
    ensures raisesAt.Some? ==>
      && full * batchSize <= raisesAt.value < full * batchSize + batchSize
      && out == tokens[..full * batchSize]
  {
    out, full := [], 0;
    var batch: seq<string> := [];
    var available := if raisesAt.Some? then raisesAt.value else |tokens|;
    for k := 0 to available
      invariant |out| == full * batchSize && |batch| < batchSize
      invariant out + batch == tokens[..k]
    {
      batch := batch + [tokens[k]];
      assert tokens[..k + 1] == tokens[..k] + [tokens[k]];
      if |batch| >= batchSize {
        out := PassOn(out, batch);
        full := full + 1;
        batch := [];
      }
    }
    if raisesAt.Some? {
      assert out == tokens[..available][..|out|];
      return;
    }
    out := PassOn(out, batch);
  }

  // ---------------------------------------------------------------- the queue

  datatype Item = Audio(pcm: Pcm) | Sentinel

  datatype State = State(
    capacity: nat,
    todo: seq<Pcm>,         // what tokens_decoder has yet to yield
    raised: bool,
    closed: bool,           // the sentinel has been put
    queue: seq<Item>,
    yielded: seq<Pcm>,
    finished: bool)         // the consumer has met the sentinel

  /** One step of either thread: the producer skips, puts, raises or closes; the consumer gets. */
  datatype Step = Skip | Put | Raise | Close | Get

  function Start(chunks: seq<Pcm>, capacity: nat): State {
    State(capacity, chunks, false, false, [], [], false)
  }

  /** A put blocks while the queue is full, a get while it is empty. */
  predicate Enabled(s: State, a: Step) {
    match a
    case Skip => !s.closed && !s.raised && s.todo != [] && s.todo[0] == []
    case Put => !s.closed && !s.raised && s.todo != [] && s.todo[0] != [] && |s.queue| < s.capacity
    case Raise => !s.closed && !s.raised
    case Close => !s.closed && (s.raised || s.todo == []) && |s.queue| < s.capacity
    case Get => !s.finished && s.queue != []
  }

  function Do(s: State, a: Step): State
    requires Enabled(s, a)
  {
    match a
    case Skip => s.(todo := s.todo[1..])
    case Put => s.(todo := s.todo[1..], queue := s.queue + [Audio(s.todo[0])])
    case Raise => s.(raised := true)
    case Close => s.(closed := true, queue := s.queue + [Sentinel])
    case Get =>
      if s.queue[0].Sentinel? then s.(queue := s.queue[1..], finished := true)
      else s.(queue := s.queue[1..], yielded := s.yielded + [s.queue[0].pcm])
  }

  function After(chunks: seq<Pcm>, capacity: nat, run: seq<Step>): State {
    if run == [] then Start(chunks, capacity)
    else
      var s := After(chunks, capacity, run[..|run| - 1]);
      if Enabled(s, run[|run| - 1]) then Do(s, run[|run| - 1]) else s
  }

  function Queued(queue: seq<Item>): seq<Pcm> {
    if queue == [] then []
    else (if queue[0].Audio? then [queue[0].pcm] else []) + Queued(queue[1..])
  }

  lemma {:induction false} QueuedAppend(queue: seq<Item>, x: Item)
    ensures Queued(queue + [x]) == Queued(queue) + if x.Audio? then [x.pcm] else []
  {
    if queue == [] {
      assert queue + [x] == [x];
    } else {
      QueuedAppend(queue[1..], x);
      assert (queue + [x])[1..] == queue[1..] + [x];
    }
  }

  /** Nothing is lost, reordered or made up; the sentinel is last; the queue keeps to its bound. */
  ghost predicate Inv(s: State, chunks: seq<Pcm>) {
    && |s.queue| <= s.capacity
    && s.yielded + Queued(s.queue) + NonEmpty(s.todo) == NonEmpty(chunks)
    && (s.closed ==> s.raised || s.todo == [])
    && (forall i :: 0 <= i < |s.queue| && s.queue[i].Sentinel? ==> s.closed && !s.finished && i == |s.queue| - 1)
    && (s.finished ==> s.closed && s.queue == [])
    && (s.closed && !s.finished ==> s.queue != [] && s.queue[|s.queue| - 1].Sentinel?)
  }

  lemma PutKeepsInv(s: State, chunks: seq<Pcm>)
    requires Inv(s, chunks) && Enabled(s, Put)
    ensures Inv(Do(s, Put), chunks)
  {
    QueuedAppend(s.queue, Audio(s.todo[0]));
    assert s.yielded + (Queued(s.queue) + [s.todo[0]]) + NonEmpty(s.todo[1..])
        == s.yielded + Queued(s.queue) + ([s.todo[0]] + NonEmpty(s.todo[1..]));
  }

  lemma GetKeepsInv(s: State, chunks: seq<Pcm>)
    requires Inv(s, chunks) && Enabled(s, Get)
    ensures Inv(Do(s, Get), chunks)
  {
    if s.queue[0].Audio? {
      assert s.yielded + [s.queue[0].pcm] + Queued(s.queue[1..]) == s.yielded + Queued(s.queue);
    }
  }

  lemma StepKeepsInv(s: State, a: Step, chunks: seq<Pcm>)
    requires Inv(s, chunks) && Enabled(s, a)
    ensures Inv(Do(s, a), chunks)
  {
    match a
    case Put => PutKeepsInv(s, chunks);
    case Get => GetKeepsInv(s, chunks);
    case Close => QueuedAppend(s.queue, Sentinel);
    case _ =>
  }

  lemma {:induction false} AlwaysInv(chunks: seq<Pcm>, capacity: nat, run: seq<Step>)
    ensures Inv(After(chunks, capacity, run), chunks) && After(chunks, capacity, run).capacity == capacity
    decreases |run|
  {
    if run != [] {
      var n := |run| - 1;
      AlwaysInv(chunks, capacity, run[..n]);
      var s := After(chunks, capacity, run[..n]);
      if Enabled(s, run[n]) {
        StepKeepsInv(s, run[n], chunks);
      }
    }
  }

  /**
    In every interleaving the consumer has received a prefix of the non-empty chunks, in order; once
    it is finished it has received all of them but those the producer had not been given when it
    raised, so all of them if nothing raised or the error came after the last.
   */
  lemma HandOffIsFaithful(chunks: seq<Pcm>, capacity: nat, run: seq<Step>)
    ensures
      var s := After(chunks, capacity, run);
      && s.yielded <= NonEmpty(chunks)
      && |s.queue| <= capacity
      && (s.finished ==> s.yielded + NonEmpty(s.todo) == NonEmpty(chunks) && (!s.raised ==> s.todo == []))
  {
    AlwaysInv(chunks, capacity, run);
  }

  /** No reachable state before the end is stuck, even if nothing raises. */
  lemma NoDeadlock(chunks: seq<Pcm>, capacity: nat, run: seq<Step>)
    requires capacity > 0
    ensures
      var s := After(chunks, capacity, run);
      !s.finished ==> exists a: Step :: a != Raise && Enabled(s, a)
  {
    AlwaysInv(chunks, capacity, run);
    var s := After(chunks, capacity, run);
    if s.queue != [] {
      assert s.finished || Enabled(s, Get);
    } else if s.raised || s.todo == [] {
      assert s.closed || Enabled(s, Close);
    } else if s.todo[0] == [] {
      assert Enabled(s, Skip);
    } else {
      assert Enabled(s, Put);
    }
  }

  /** An upper bound on the steps that are left. */
  function Left(s: State): nat {
    2 * |s.todo| + |s.queue| + (if s.closed then 0 else 2) + if s.raised then 0 else 1
  }

  lemma EveryStepProgresses(s: State, a: Step)
    requires Enabled(s, a)
    ensures Left(Do(s, a)) < Left(s)
  {}

  /** A run in which every step was possible when it was taken. */
  ghost predicate Proper(chunks: seq<Pcm>, capacity: nat, run: seq<Step>) {
    forall k :: 0 <= k < |run| ==> Enabled(After(chunks, capacity, run[..k]), run[k])
  }

  lemma ProperFront(chunks: seq<Pcm>, capacity: nat, run: seq<Step>)
    requires Proper(chunks, capacity, run) && run != []
    ensures var n := |run| - 1;
            && Proper(chunks, capacity, run[..n])
            && Enabled(After(chunks, capacity, run[..n]), run[n])
            && After(chunks, capacity, run) == Do(After(chunks, capacity, run[..n]), run[n])
  {
    var n := |run| - 1;
    assert forall k :: 0 <= k < n ==> run[..n][..k] == run[..k] && run[..n][k] == run[k];
  }

  lemma {:induction false} RunsAreShort(chunks: seq<Pcm>, capacity: nat, run: seq<Step>)
    requires Proper(chunks, capacity, run)
    ensures |run| + Left(After(chunks, capacity, run)) <= 2 * |chunks| + 3
    ensures Raise !in run ==> !After(chunks, capacity, run).raised
    decreases |run|
  {
    if run != [] {
      var n := |run| - 1;
      ProperFront(chunks, capacity, run);
      RunsAreShort(chunks, capacity, run[..n]);
      EveryStepProgresses(After(chunks, capacity, run[..n]), run[n]);
      assert Raise !in run ==> run[n] != Raise && Raise !in run[..n];
    }
  }

  /**
    Termination: no run takes more than twice the chunks plus three steps, and one that can only
    go on by raising, or not at all, has finished - with every non-empty chunk if nothing raised.
   */
  lemma EveryRunEnds(chunks: seq<Pcm>, capacity: nat, run: seq<Step>)
    requires capacity > 0 && Proper(chunks, capacity, run)
    ensures |run| <= 2 * |chunks| + 3
    ensures
      var s := After(chunks, capacity, run);
      (forall a: Step :: a != Raise ==> !Enabled(s, a)) ==>
        s.finished && (Raise !in run ==> s.yielded == NonEmpty(chunks))
  {
    RunsAreShort(chunks, capacity, run);
    NoDeadlock(chunks, capacity, run);
    HandOffIsFaithful(chunks, capacity, run);
  }

  // ---------------------------------------------------------------- what a raise leaves of a stream

  /**
    A source that raises cuts the stream short but does not change it: what the loop yields for
    the first `m` tokens is a prefix of what the whole stream yields.
   */
  lemma RaisedIsPrefix(tokens: seq<string>, m: nat, parse: Parser, decode: Decoder)
    requires m <= |tokens|
    ensures InLoop(Accepted(tokens[..m], parse), decode).chunks <= Streamed(Accepted(tokens, parse), decode).chunks
  {
    AcceptedGrows(tokens, m, parse);
    LoopWithinStream(Accepted(tokens[..m], parse), Accepted(tokens, parse), decode);
  }
}
