/**
  The opening bound of a stream: how it can pass the balance it was admitted on by more than its
  slack, which takes a refresh that returns an older row of the wallet.
 */
module MoneyOpening {
  import opened Wrappers
  import opened Billing
  import opened Sums
  import opened Delivery
  import opened MoneyPipeline
  import opened MoneyConservation
  import opened MoneyBudget

  // ---------------------------------------------------------------- one step

  /** A refresh of request `i` that takes effect. */
  ghost predicate Refreshes(s: State, a: Action, i: nat) {
    a.Refresh? && a.i == i && Enabled(s, a)
  }

  /** One that returns a row older than the admission's. */
  ghost predicate GoesBack(s: State, a: Action, i: nat) {
    Refreshes(s, a, i) && a.row.Some? && a.row.value < s.streams[i].version
  }

  function Cost(m: Stream, price: string -> real): real {
    CostForSeconds(m.session.delivered, price(m.User()))
  }

  function ChunkCost(p: real): Action -> real {
    (a: Action) => if a.Chunk? then CostForSeconds(SecondsFromPCM(a.bytes, a.sampleRate), p) else 0.0
  }

  /** The stream has delivered its opening balance and its slack, or more. */
  predicate Past(m: Stream, price: string -> real) {
    m.session.mode == HttpStream && Cost(m, price) >= m.opening + m.slack
  }

  /** It has not, and its budget does not allow it to. */
  predicate Calm(m: Stream, price: string -> real) {
    !Past(m, price) && (m.session.open ==> Cost(m, price) + m.session.budget <= m.opening + m.slack)
  }

  /** The cost of the chunk that a step delivers to request `i`: it is written and within the budget. */
  function Accepted(s: State, a: Action, price: string -> real, i: nat): real
    requires i < |s.streams|
  {
    var m := s.streams[i];
    var c := ChunkCost(price(m.User()))(a);
    if a.Chunk? && a.i == i && Enabled(s, a) && a.writeOk && c < m.session.budget then c else 0.0
  }

  lemma ChunkAccepted(m: Stream, price: real, ceiling: real, a: Action)
    requires Within(m, price, ceiling) && m.session.open && m.session.mode == HttpStream && price >= 0.0 && a.Chunk?
    ensures
      var c := ChunkCost(price)(a);
      var x := m.session.Chunk(a.bytes, a.sampleRate, a.writeOk, a.t).0;
      && x.mode == HttpStream && x.coal.user == m.User()
      && CostForSeconds(x.delivered, price)
           == CostForSeconds(m.session.delivered, price) + (if a.writeOk && c < m.session.budget then c else 0.0)
      && (x.open <==> a.writeOk && c < m.session.budget)
      && (x.open ==> x.budget == m.session.budget - c && x.budget > 0.0 && x.snap.price == price)
  {
    CostIsAdditive(m.session.delivered, SecondsFromPCM(a.bytes, a.sampleRate), price);
  }

  /** A step that does not refresh the request adds what it delivers, and leaves the rest of the bound. */
  lemma StepDelivers(s: State, a: Action, price: string -> real, i: nat)
    requires i < |s.streams| && Enabled(s, a) && !Refreshes(s, a, i)
    requires StreamBounded(s, s.streams[i], price) && price(s.streams[i].User()) >= 0.0
    requires s.streams[i].session.mode == HttpStream
    ensures
      var m, s' := s.streams[i], Step(s, a, price);
      && i < |s'.streams|
      && s'.streams[i].session.mode == HttpStream && s'.streams[i].User() == m.User()
      && s'.streams[i].opening == m.opening && s'.streams[i].slack == m.slack
      && Cost(s'.streams[i], price) == Cost(m, price) + Accepted(s, a, price, i)
      && (Calm(m, price) ==> Calm(s'.streams[i], price))
  {
    var m := s.streams[i];
    if a.Chunk? && a.i == i {
      ChunkAccepted(m, price(m.User()), Ceiling(s, m), a);
      assert Step(s, a, price).streams[i] == m.(session := m.session.Chunk(a.bytes, a.sampleRate, a.writeOk, a.t).0);
    } else if a.Finish? && a.i == i {
      assert Step(s, a, price).streams[i] == m.(session := m.session.Finish(a.t).0);
    } else {
      assert Step(s, a, price).streams[i] == m;
    }
  }

  /** A refresh that fails, or returns a row of the admission or later, calms the request. */
  lemma RefreshCalms(s: State, a: Action, price: string -> real, i: nat)
    requires i < |s.streams| && Refreshes(s, a, i) && !GoesBack(s, a, i)
    requires StreamBounded(s, s.streams[i], price) && !Past(s.streams[i], price)
    ensures Calm(Step(s, a, price).streams[i], price)
  {
    var m := s.streams[i];
    if a.row.Some? {
      assert BackedAt(s, m, a.row.value);
      assert Step(s, a, price).streams[i] == Refreshed(s, m, a.row.value, price(m.User()));
    } else {
      assert Step(s, a, price).streams[i] == m.(session := m.session.Rebase(None));
    }
  }

  /** A refresh that goes back moves all that was delivered into the slack. */
  lemma GoingBack(s: State, a: Action, price: string -> real, i: nat)
    requires i < |s.streams| && GoesBack(s, a, i) && StreamBounded(s, s.streams[i], price)
    ensures
      var m, m' := s.streams[i], Step(s, a, price).streams[i];
      && m' == Refreshed(s, m, a.row.value, price(m.User()))
      && m'.slack == Cost(m, price) == Cost(m', price) && !Past(m', price)
      && m'.session.mode == m.session.mode == HttpStream
  {
    var m := s.streams[i];
    assert UndebitedAt(s, m, a.row.value);
    assert Step(s, a, price).streams[i] == Refreshed(s, m, a.row.value, price(m.User()));
  }

  /** What a step does to the age of the rows a request has been given. */
  lemma StepAges(s: State, a: Action, price: string -> real, i: nat)
    requires Enabled(s, a) && i < |s.streams|
    ensures
      var m, s' := s.streams[i], Step(s, a, price);
      && i < |s'.streams| && |s.streams| <= |s'.streams|
      && s'.streams[i].session.mode == m.session.mode
      && s'.streams[i].version == m.version && s'.streams[i].oldest <= m.oldest
      && (s'.streams[i].oldest < m.version <==> m.oldest < m.version || GoesBack(s, a, i))
  {}

  lemma AdmittedFresh(s: State, a: Action, price: string -> real, i: nat)
    requires Enabled(s, a) && |s.streams| <= i < |Step(s, a, price).streams|
    ensures Step(s, a, price).streams[i].oldest == Step(s, a, price).streams[i].version
    ensures Calm(Step(s, a, price).streams[i], price)
  {}

  lemma StreamsGrow(s: State, a: Action, price: string -> real)
    requires Enabled(s, a)
    ensures |s.streams| <= |Step(s, a, price).streams|
  {}

  // ---------------------------------------------------------------- whole runs

  /** The states of a run, before each of its steps and after the last. */
  function Trace(balances: map<string, real>, run: seq<Action>, price: string -> real): (ss: seq<State>)
    ensures |ss| == |run| + 1
  {
    seq(|run| + 1, n requires 0 <= n <= |run| => After(balances, run[..n], price))
  }

  ghost predicate Next(ss: seq<State>, run: seq<Action>, price: string -> real, n: nat)
    requires n < |run| && |ss| == |run| + 1
  {
    ss[n + 1] == if Enabled(ss[n], run[n]) then Step(ss[n], run[n], price) else ss[n]
  }

  ghost predicate Bounds(ss: seq<State>, price: string -> real, n: nat)
    requires n < |ss|
  {
    Bounded(ss[n], price)
  }

  /** What is used of a run: it starts without requests, goes step by step, and keeps the bounds. */
  ghost predicate Tracks(ss: seq<State>, run: seq<Action>, price: string -> real) {
    && |ss| == |run| + 1 && ss[0].streams == []
    && (forall u :: price(u) >= 0.0)
    && (forall n :: 0 <= n < |run| ==> Next(ss, run, price, n))
    && (forall n :: 0 <= n <= |run| ==> Bounds(ss, price, n))
  }

  lemma TraceTracks(balances: map<string, real>, run: seq<Action>, price: string -> real)
    requires NonNegative(balances) && forall u :: price(u) >= 0.0
    ensures Tracks(Trace(balances, run, price), run, price)
  {
    var ss := Trace(balances, run, price);
    forall n | 0 <= n < |run|
      ensures Next(ss, run, price, n)
    {
      assert run[..n + 1][..n] == run[..n];
    }
    forall n | 0 <= n <= |run|
      ensures Bounds(ss, price, n)
    {
      AlwaysBounded(balances, run[..n], price);
    }
  }

  /** The k-th step refreshes request `i` with a row older than the admission's. */
  ghost predicate OlderRow(ss: seq<State>, run: seq<Action>, k: nat, i: nat)
    requires k < |run| && |ss| == |run| + 1
  {
    GoesBack(ss[k], run[k], i)
  }

  ghost predicate AnyOlderRow(ss: seq<State>, run: seq<Action>, n: nat, i: nat)
    requires n <= |run| && |ss| == |run| + 1
  {
    exists k :: 0 <= k < n && OlderRow(ss, run, k, i)
  }

  lemma {:induction false} StreamStays(ss: seq<State>, run: seq<Action>, price: string -> real, k: nat, n: nat)
    requires Tracks(ss, run, price) && k <= n <= |run|
    ensures |ss[k].streams| <= |ss[n].streams|
    decreases n
  {
    if k < n {
      StreamStays(ss, run, price, k, n - 1);
      assert Next(ss, run, price, n - 1);
      if Enabled(ss[n - 1], run[n - 1]) {
        StreamsGrow(ss[n - 1], run[n - 1], price);
      }
    }
  }

  /** The oldest row is older than the admission's exactly when some refresh has returned such a row. */
  lemma {:induction false} OldestAt(ss: seq<State>, run: seq<Action>, price: string -> real, n: nat, i: nat)
    requires Tracks(ss, run, price) && n <= |run| && i < |ss[n].streams|
    ensures var m := ss[n].streams[i];
            m.oldest <= m.version && (m.oldest < m.version <==> AnyOlderRow(ss, run, n, i))
    decreases n
  {
    var s, a := ss[n - 1], run[n - 1];
    assert Next(ss, run, price, n - 1);
    assert AnyOlderRow(ss, run, n, i) <==> AnyOlderRow(ss, run, n - 1, i) || OlderRow(ss, run, n - 1, i);
    if i < |s.streams| {
      OldestAt(ss, run, price, n - 1, i);
      if Enabled(s, a) {
        StepAges(s, a, price, i);
      }
    } else {
      AdmittedFresh(s, a, price, i);
      forall k | 0 <= k < n
        ensures !OlderRow(ss, run, k, i)
      {
        StreamStays(ss, run, price, k, n - 1);
      }
    }
  }

  lemma OldestIffOlderRow(balances: map<string, real>, run: seq<Action>, price: string -> real, i: nat)
    requires NonNegative(balances) && forall u :: price(u) >= 0.0
    requires i < |After(balances, run, price).streams|
    ensures var m := After(balances, run, price).streams[i];
            m.oldest < m.version <==> AnyOlderRow(Trace(balances, run, price), run, |run|, i)
  {
    TraceTracks(balances, run, price);
    assert run[..|run|] == run;
    OldestAt(Trace(balances, run, price), run, price, |run|, i);
  }

  /** While no refresh returns an older row, a stream stays below its opening balance plus its slack. */
  lemma OpeningBound(balances: map<string, real>, run: seq<Action>, price: string -> real, i: nat)
    requires NonNegative(balances) && forall u :: price(u) >= 0.0
    requires i < |After(balances, run, price).streams|
    requires !AnyOlderRow(Trace(balances, run, price), run, |run|, i)
    ensures
      var m := After(balances, run, price).streams[i];
      if m.session.mode == HttpStream then Cost(m, price) < m.opening + m.slack else Cost(m, price) <= m.opening
  {
    AlwaysBounded(balances, run, price);
    OldestIffOlderRow(balances, run, price, i);
    var s := After(balances, run, price);
    assert StreamBounded(s, s.streams[i], price) && s.streams[i].oldest == s.streams[i].version;
  }

  // ---------------------------------------------------------------- when the opening bound fails

  ghost predicate PastAt(ss: seq<State>, price: string -> real, n: nat, i: nat)
    requires n < |ss|
  {
    i < |ss[n].streams| && Past(ss[n].streams[i], price)
  }

  ghost predicate RefreshedAt(ss: seq<State>, run: seq<Action>, l: nat, i: nat)
    requires l < |run| && |ss| == |run| + 1
  {
    Refreshes(ss[l], run[l], i)
  }

  /** No refresh of request `i` takes effect after step `k` and before step `j`. */
  ghost predicate Unrefreshed(ss: seq<State>, run: seq<Action>, k: nat, j: nat, i: nat)
    requires j <= |run| && |ss| == |run| + 1
  {
    forall l :: k < l < j ==> !RefreshedAt(ss, run, l, i)
  }

  /** The cost of the chunks delivered to request `i` from step `k` to step `j`. */
  function Spent(ss: seq<State>, run: seq<Action>, price: string -> real, k: nat, j: nat, i: nat): real
    requires k <= j <= |run| && |ss| == |run| + 1
    decreases j
  {
    if j == k then 0.0
    else
      Spent(ss, run, price, k, j - 1, i)
        + if i < |ss[j - 1].streams| then Accepted(ss[j - 1], run[j - 1], price, i) else 0.0
  }

  /** Since an older row, and before any other, the request has been delivered its opening balance. */
  ghost predicate Overspends(ss: seq<State>, run: seq<Action>, price: string -> real, k: nat, j: nat, i: nat)
    requires k < j <= |run| && |ss| == |run| + 1
  {
    && OlderRow(ss, run, k, i)
    && Unrefreshed(ss, run, k, j, i)
    && Spent(ss, run, price, k, j, i) >= ss[k].streams[i].opening
  }

  /** The request since a refresh that went back, with what has been delivered to it since. */
  ghost predicate MovedOn(before: Stream, m: Stream, spent: real, price: string -> real) {
    && m.session.mode == HttpStream && m.User() == before.User()
    && m.opening == before.opening && m.slack == Cost(before, price)
    && Cost(m, price) == Cost(before, price) + spent
  }

  ghost predicate MovedTo(ss: seq<State>, run: seq<Action>, price: string -> real, k: nat, j: nat, i: nat)
    requires k <= j <= |run| && |ss| == |run| + 1
  {
    && i < |ss[k].streams| && i < |ss[j].streams|
    && MovedOn(ss[k].streams[i], ss[j].streams[i], Spent(ss, run, price, k, j, i), price)
  }

  lemma MovesBack(ss: seq<State>, run: seq<Action>, price: string -> real, k: nat, i: nat)
    requires Tracks(ss, run, price) && k < |run| && OlderRow(ss, run, k, i)
    ensures MovedTo(ss, run, price, k, k + 1, i)
  {
    assert Next(ss, run, price, k) && Bounds(ss, price, k);
    assert StreamBounded(ss[k], ss[k].streams[i], price);
    GoingBack(ss[k], run[k], price, i);
    assert Spent(ss, run, price, k, k + 1, i) == Spent(ss, run, price, k, k, i) == 0.0;
  }

  lemma MovesTo(ss: seq<State>, run: seq<Action>, price: string -> real, k: nat, j: nat, i: nat)
    requires Tracks(ss, run, price) && k <= j < |run| && MovedTo(ss, run, price, k, j, i)
    requires !RefreshedAt(ss, run, j, i)
    ensures MovedTo(ss, run, price, k, j + 1, i)
  {
    assert Next(ss, run, price, j) && Bounds(ss, price, j);
    assert StreamBounded(ss[j], ss[j].streams[i], price);
    if Enabled(ss[j], run[j]) {
      StepDelivers(ss[j], run[j], price, i);
    }
    assert Spent(ss, run, price, k, j + 1, i)
        == Spent(ss, run, price, k, j, i) + Accepted(ss[j], run[j], price, i);
  }

  /** Between two refreshes, the first of which went back, exactly the spending decides. */
  lemma {:induction false} SinceOlderRow(
    ss: seq<State>, run: seq<Action>, price: string -> real, k: nat, j: nat, i: nat)
    requires Tracks(ss, run, price) && k < j <= |run|
    requires OlderRow(ss, run, k, i) && Unrefreshed(ss, run, k, j, i)
    ensures MovedTo(ss, run, price, k, j, i)
    decreases j
  {
    if j == k + 1 {
      MovesBack(ss, run, price, k, i);
    } else {
      SinceOlderRow(ss, run, price, k, j - 1, i);
      MovesTo(ss, run, price, k, j - 1, i);
    }
  }

  lemma OverspendsIsPast(ss: seq<State>, run: seq<Action>, price: string -> real, k: nat, j: nat, i: nat)
    requires Tracks(ss, run, price) && k < j <= |run|
    requires OlderRow(ss, run, k, i) && Unrefreshed(ss, run, k, j, i)
    ensures Overspends(ss, run, price, k, j, i) <==> PastAt(ss, price, j, i)
  {
    SinceOlderRow(ss, run, price, k, j, i);
  }

  ghost predicate SinceBack(ss: seq<State>, run: seq<Action>, n: nat, i: nat)
    requires n <= |run| && |ss| == |run| + 1
  {
    exists k :: 0 <= k < n && OlderRow(ss, run, k, i) && Unrefreshed(ss, run, k, n, i)
  }

  lemma SinceBackNext(ss: seq<State>, run: seq<Action>, n: nat, i: nat)
    requires |ss| == |run| + 1 && n < |run|
    requires OlderRow(ss, run, n, i) || (SinceBack(ss, run, n, i) && !RefreshedAt(ss, run, n, i))
    ensures SinceBack(ss, run, n + 1, i)
  {
    if OlderRow(ss, run, n, i) {
      assert Unrefreshed(ss, run, n, n + 1, i);
    } else {
      var k :| 0 <= k < n && OlderRow(ss, run, k, i) && Unrefreshed(ss, run, k, n, i);
      assert Unrefreshed(ss, run, k, n + 1, i);
    }
  }

  /** One step from a moment at which the request is calm, or its last refresh went back. */
  lemma StepFromCalm(ss: seq<State>, run: seq<Action>, price: string -> real, n: nat, i: nat)
    requires Tracks(ss, run, price) && n < |run|
    requires i < |ss[n].streams| && ss[n].streams[i].session.mode == HttpStream && !PastAt(ss, price, n, i)
    requires Calm(ss[n].streams[i], price) || SinceBack(ss, run, n, i)
    ensures i < |ss[n + 1].streams|
    ensures Calm(ss[n + 1].streams[i], price) || SinceBack(ss, run, n + 1, i)
  {
    var s, a := ss[n], run[n];
    assert Next(ss, run, price, n) && Bounds(ss, price, n);
    assert StreamBounded(s, s.streams[i], price);
    if Enabled(s, a) {
      StreamsGrow(s, a, price);
    }
    if OlderRow(ss, run, n, i) || (SinceBack(ss, run, n, i) && !RefreshedAt(ss, run, n, i)) {
      SinceBackNext(ss, run, n, i);
    } else if RefreshedAt(ss, run, n, i) {
      RefreshCalms(s, a, price, i);
    } else if Enabled(s, a) {
      StepDelivers(s, a, price, i);
    }
  }

  /** Until a stream is first past its bound it is calm, or its last refresh went back. */
  lemma {:induction false} CalmOrBack(ss: seq<State>, run: seq<Action>, price: string -> real, n: nat, i: nat)
    requires Tracks(ss, run, price) && n <= |run|
    requires i < |ss[n].streams| && ss[n].streams[i].session.mode == HttpStream
    requires forall l :: 0 <= l < n ==> !PastAt(ss, price, l, i)
    ensures Calm(ss[n].streams[i], price) || SinceBack(ss, run, n, i)
    decreases n
  {
    var s, a := ss[n - 1], run[n - 1];
    assert Next(ss, run, price, n - 1);
    if i < |s.streams| {
      if Enabled(s, a) {
        StepAges(s, a, price, i);
      }
      CalmOrBack(ss, run, price, n - 1, i);
      StepFromCalm(ss, run, price, n - 1, i);
    } else {
      AdmittedFresh(s, a, price, i);
    }
  }

  /** The first moment past the bound is since a refresh that went back, so it overspends. */
  lemma {:induction false} FirstPast(ss: seq<State>, run: seq<Action>, price: string -> real, n: nat, i: nat)
    returns (k: nat, j: nat)
    requires Tracks(ss, run, price) && n <= |run| && PastAt(ss, price, n, i)
    ensures k < j <= n && Overspends(ss, run, price, k, j, i)
    decreases n
  {
    if l :| 0 <= l < n && PastAt(ss, price, l, i) {
      k, j := FirstPast(ss, run, price, l, i);
    } else {
      CalmOrBack(ss, run, price, n, i);
      k :| 0 <= k < n && OlderRow(ss, run, k, i) && Unrefreshed(ss, run, k, n, i);
      j := n;
      OverspendsIsPast(ss, run, price, k, j, i);
    }
  }

  /**
    The opening bound fails exactly when an older row is overspent: in every run, some moment finds
    the stream at or past its opening balance plus slack if and only if, after some refresh that
    returned a row older than the admission's and before the next refresh, chunks that cost at
    least the opening balance were delivered.
   */
  lemma EverPastIff(balances: map<string, real>, run: seq<Action>, price: string -> real, i: nat)
    requires NonNegative(balances) && forall u :: price(u) >= 0.0
    ensures var ss := Trace(balances, run, price);
            (exists n :: 0 <= n <= |run| && PastAt(ss, price, n, i))
              <==> (exists k, j :: 0 <= k < j <= |run| && Overspends(ss, run, price, k, j, i))
  {
    var ss := Trace(balances, run, price);
    TraceTracks(balances, run, price);
    if n :| 0 <= n <= |run| && PastAt(ss, price, n, i) {
      var k, j := FirstPast(ss, run, price, n, i);
    }
    if k, j :| 0 <= k < j <= |run| && Overspends(ss, run, price, k, j, i) {
      OverspendsIsPast(ss, run, price, k, j, i);
    }
  }

  // ---------------------------------------------------------------- chunks right after an older row

  /** Chunks are delivered until their sum reaches the balance. */
  function Taken(balance: real, p: real, chunks: seq<Action>): real {
    if chunks == [] then 0.0
    else if Sum(ChunkCost(p), chunks) < balance then Sum(ChunkCost(p), chunks)
    else Taken(balance, p, chunks[..|chunks| - 1])
  }

  lemma {:induction false} PrefixCost(p: real, chunks: seq<Action>, k: nat)
    requires p >= 0.0 && k <= |chunks|
    ensures 0.0 <= Sum(ChunkCost(p), chunks[..k]) <= Sum(ChunkCost(p), chunks)
  {
    assert chunks == chunks[..k] + chunks[k..];
    SumConcat(ChunkCost(p), chunks[..k], chunks[k..]);
    SumNonNegative(ChunkCost(p), chunks[..k]);
    SumNonNegative(ChunkCost(p), chunks[k..]);
  }

  lemma {:induction false} TakenIff(balance: real, p: real, chunks: seq<Action>, least: real)
    requires p >= 0.0 && least > 0.0
    ensures Taken(balance, p, chunks) >= least
       <==> exists k :: 0 <= k <= |chunks| && least <= Sum(ChunkCost(p), chunks[..k]) < balance
  {
    var n := |chunks|;
    assert chunks[..n] == chunks;
    if chunks == [] {
    } else if Sum(ChunkCost(p), chunks) < balance {
      forall k | 0 <= k <= n
        ensures Sum(ChunkCost(p), chunks[..k]) <= Sum(ChunkCost(p), chunks)
      {
        PrefixCost(p, chunks, k);
      }
    } else {
      var front := chunks[..n - 1];
      TakenIff(balance, p, front, least);
      assert forall k :: 0 <= k <= n - 1 ==> front[..k] == chunks[..k];
    }
  }

  ghost predicate Writes(chunks: seq<Action>, i: nat) {
    forall k :: 0 <= k < |chunks| ==> chunks[k].Chunk? && chunks[k].i == i && chunks[k].writeOk
  }

  /** The session while chunks follow a refresh: open while their sum is below the balance. */
  ghost predicate Following(m: Stream, before: Stream, balance: real, price: string -> real, chunks: seq<Action>) {
    var p := price(before.User());
    && m.session.mode == HttpStream && m.User() == before.User()
    && m.opening == before.opening && m.slack == Cost(before, price)
    && Cost(m, price) == Cost(before, price) + Taken(balance, p, chunks)
    && (m.session.open <==> Sum(ChunkCost(p), chunks) < balance)
    && (m.session.open ==> m.session.budget == balance - Sum(ChunkCost(p), chunks) && m.session.snap.price == p)
  }

  ghost predicate FollowedBy(
    balances: map<string, real>, run: seq<Action>, price: string -> real, i: nat, v: nat, chunks: seq<Action>)
    requires Enabled(After(balances, run, price), Refresh(i, Some(v)))
  {
    var s := After(balances, run, price);
    var s' := After(balances, run + [Refresh(i, Some(v))] + chunks, price);
    && i < |s'.streams|
    && Following(s'.streams[i], s.streams[i], s.versions[v].balances[s.streams[i].User()], price, chunks)
  }

  lemma AfterAppend(balances: map<string, real>, run: seq<Action>, a: Action, price: string -> real)
    ensures After(balances, run + [a], price)
         == var s := After(balances, run, price); if Enabled(s, a) then Step(s, a, price) else s
  {
    assert (run + [a])[..|run|] == run;
  }

  lemma FollowedByNone(balances: map<string, real>, run: seq<Action>, price: string -> real, i: nat, v: nat)
    requires NonNegative(balances) && forall u :: price(u) >= 0.0
    requires Enabled(After(balances, run, price), Refresh(i, Some(v)))
    requires v < After(balances, run, price).streams[i].version
    ensures FollowedBy(balances, run, price, i, v, [])
  {
    assert run + [Refresh(i, Some(v))] + [] == run + [Refresh(i, Some(v))];
    AfterAppend(balances, run, Refresh(i, Some(v)), price);
    AlwaysBounded(balances, run, price);
    RefreshFollows(After(balances, run, price), i, v, price);
  }

  lemma DeliveredNonNegative(balances: map<string, real>, run: seq<Action>, price: string -> real, i: nat)
    requires i < |After(balances, run, price).streams|
    ensures After(balances, run, price).streams[i].session.delivered >= 0.0
  {
    AlwaysTraced(balances, run, price);
    assert KeptBy(After(balances, run, price).streams[i].session, After(balances, run, price).published);
  }

  lemma FollowedByNext(
    balances: map<string, real>, run: seq<Action>, price: string -> real, i: nat, v: nat, chunks: seq<Action>)
    requires (forall u :: price(u) >= 0.0) && chunks != [] && Writes(chunks, i)
    requires Enabled(After(balances, run, price), Refresh(i, Some(v)))
    requires FollowedBy(balances, run, price, i, v, chunks[..|chunks| - 1])
    ensures FollowedBy(balances, run, price, i, v, chunks)
  {
    var s := After(balances, run, price);
    var n := |chunks| - 1;
    var before := run + [Refresh(i, Some(v))] + chunks[..n];
    assert run + [Refresh(i, Some(v))] + chunks == before + [chunks[n]];
    AfterAppend(balances, before, chunks[n], price);
    DeliveredNonNegative(balances, before, price, i);
    NextFollows(After(balances, before, price), s.streams[i],
                s.versions[v].balances[s.streams[i].User()], price, i, chunks);
  }

  lemma {:induction false} ChunksFollow(
    balances: map<string, real>, run: seq<Action>, price: string -> real, i: nat, v: nat, chunks: seq<Action>)
    requires NonNegative(balances) && forall u :: price(u) >= 0.0
    requires Enabled(After(balances, run, price), Refresh(i, Some(v)))
    requires v < After(balances, run, price).streams[i].version && Writes(chunks, i)
    ensures FollowedBy(balances, run, price, i, v, chunks)
    decreases |chunks|
  {
    if chunks == [] {
      FollowedByNone(balances, run, price, i, v);
    } else {
      ChunksFollow(balances, run, price, i, v, chunks[..|chunks| - 1]);
      FollowedByNext(balances, run, price, i, v, chunks);
    }
  }

  lemma RefreshFollows(s: State, i: nat, v: nat, price: string -> real)
    requires Versioned(s) && Bounded(s, price)
    requires Enabled(s, Refresh(i, Some(v))) && v < s.streams[i].version
    ensures
      var s' := Step(s, Refresh(i, Some(v)), price);
      && i < |s'.streams|
      && Following(s'.streams[i], s.streams[i], s.versions[v].balances[s.streams[i].User()], price, [])
  {
    var m := s.streams[i];
    assert StreamBounded(s, m, price);
    GoingBack(s, Refresh(i, Some(v)), price, i);
    OlderIsPositive(s, m, v);
  }

  lemma OlderIsPositive(s: State, m: Stream, v: nat)
    requires Versioned(s) && Backed(s, m) && v < m.version && m.User() in s.versions[v].balances
    ensures s.versions[v].balances[m.User()] > 0.0
  {
    assert Shrinks(s.versions[v], s.versions[m.version]);
  }

  lemma NextFollows(s: State, before: Stream, balance: real, price: string -> real, i: nat, chunks: seq<Action>)
    requires chunks != [] && Writes(chunks, i) && price(before.User()) >= 0.0
    requires i < |s.streams| && s.streams[i].session.delivered >= 0.0
    requires Following(s.streams[i], before, balance, price, chunks[..|chunks| - 1])
    ensures
      var a := chunks[|chunks| - 1];
      var s' := if Enabled(s, a) then Step(s, a, price) else s;
      i < |s'.streams| && Following(s'.streams[i], before, balance, price, chunks)
  {
    var a := chunks[|chunks| - 1];
    var m := s.streams[i];
    assert a.Chunk? && a.i == i && a.writeOk;
    if m.session.open {
      var x := m.session.Chunk(a.bytes, a.sampleRate, true, a.t).0;
      assert Step(s, a, price).streams[i] == m.(session := x);
      ChunkFollows(m, before, balance, price, chunks);
    } else {
      StaysClosed(m, before, balance, price, chunks);
    }
  }

  lemma ChunkFollows(m: Stream, before: Stream, balance: real, price: string -> real, chunks: seq<Action>)
    requires chunks != [] && chunks[|chunks| - 1].Chunk? && price(before.User()) >= 0.0
    requires Following(m, before, balance, price, chunks[..|chunks| - 1]) && m.session.open
    requires m.session.delivered >= 0.0
    ensures var a := chunks[|chunks| - 1];
            Following(m.(session := m.session.Chunk(a.bytes, a.sampleRate, true, a.t).0),
                      before, balance, price, chunks)
  {
    var a := chunks[|chunks| - 1];
    CostIsAdditive(m.session.delivered, SecondsFromPCM(a.bytes, a.sampleRate), price(before.User()));
  }

  lemma StaysClosed(m: Stream, before: Stream, balance: real, price: string -> real, chunks: seq<Action>)
    requires chunks != [] && price(before.User()) >= 0.0
    requires Following(m, before, balance, price, chunks[..|chunks| - 1]) && !m.session.open
    ensures Following(m, before, balance, price, chunks)
  {
    PrefixCost(price(before.User()), chunks, |chunks| - 1);
  }

  /**
    In terms of what is sent: after a refresh that returns an older row, chunks leave the stream at
    or past its opening balance plus slack if and only if the sum of some first of them is at least
    the opening balance and less than the balance of that row.
   */
  lemma PastOpeningIff(
    balances: map<string, real>, run: seq<Action>, price: string -> real, i: nat, v: nat, chunks: seq<Action>)
    requires NonNegative(balances) && forall u :: price(u) >= 0.0
    requires Enabled(After(balances, run, price), Refresh(i, Some(v)))
    requires v < After(balances, run, price).streams[i].version && Writes(chunks, i)
    ensures
      var s := After(balances, run, price);
      var m := s.streams[i];
      var s' := After(balances, run + [Refresh(i, Some(v))] + chunks, price);
      && i < |s'.streams|
      && (Past(s'.streams[i], price) <==>
            exists k :: 0 <= k <= |chunks|
              && m.opening <= Sum(ChunkCost(price(m.User())), chunks[..k]) < s.versions[v].balances[m.User()])
  {
    var s := After(balances, run, price);
    var m := s.streams[i];
    AlwaysBounded(balances, run, price);
    assert StreamBounded(s, m, price);
    ChunksFollow(balances, run, price, i, v, chunks);
    TakenIff(s.versions[v].balances[m.User()], price(m.User()), chunks, m.opening);
  }
}
