/**
  Conservation in the money pipeline: no event is duplicated or lost track of, and every second
  that was delivered is in the open window of its request or in exactly one event.
 */
module MoneyConservation {
  import opened Wrappers
  import opened Billing
  import opened Sums
  import opened Seqs
  import opened Delivery
  import opened Metering
  import opened MoneyPipeline

  // ---------------------------------------------------------------- tracing events

  /** How many times `e` occurs in the places an event can be in. */
  ghost function Copies(s: State, e: Event): nat {
    multiset(s.bus)[e] + multiset(Pending(s))[e] + multiset(Batch(s))[e] + multiset(Todo(s))[e]
      + multiset(Events(s.ledger.rows))[e] + multiset(s.dropped)[e]
  }

  /** Every published event is in exactly one place, as often as it was published. */
  ghost predicate Traced(s: State) {
    forall e :: Copies(s, e) == multiset(s.published)[e]
  }

  ghost function Holding(w: Worker, e: Event): nat {
    multiset(w.pending)[e] + multiset(w.batch)[e] + multiset(w.Todo())[e]
  }

  /** A step of one consumer changes the copies by what it holds before and after. */
  lemma WorkerCopies(s: State, c: nat, w: Worker, e: Event)
    requires c < |s.workers|
    ensures Copies(PutWorker(s, c, w), e) + Holding(s.workers[c], e) == Copies(s, e) + Holding(w, e)
  {
    GatherReplaced(PendingOf, s.workers, c, w, e);
    GatherReplaced(BatchOf, s.workers, c, w, e);
    GatherReplaced(TodoOf, s.workers, c, w, e);
  }

  /** A consumer that passes events on to the rows or gives them up. */
  lemma WorkerStepCopies(s: State, c: nat, w: Worker, l: Ledger, lost: seq<Event>, e: Event)
    requires c < |s.workers|
    requires Holding(w, e) + multiset(Events(l.rows))[e] + multiset(lost)[e]
          == Holding(s.workers[c], e) + multiset(Events(s.ledger.rows))[e]
    ensures Copies(PutWorker(s, c, w).(ledger := l, dropped := s.dropped + lost), e) == Copies(s, e)
  {
    WorkerCopies(s, c, w, e);
    var put := PutWorker(s, c, w);
    assert Copies(put.(ledger := l, dropped := s.dropped + lost), e) + multiset(Events(s.ledger.rows))[e]
        == Copies(put, e) + multiset(Events(l.rows))[e] + multiset(lost)[e];
  }

  lemma EventsAppend(rows: seq<Row>, x: Row)
    ensures Events(rows + [x]) == Events(rows) + [x.event]
  {}

  lemma {:induction false} SplitByUser(user: string, events: seq<Event>)
    ensures multiset(OfUser(user, events)) + multiset(ExceptUser(user, events)) == multiset(events)
  {
    if events != [] {
      var n := |events| - 1;
      var e, mine, others := events[n], OfUser(user, events[..n]), ExceptUser(user, events[..n]);
      SplitByUser(user, events[..n]);
      assert events == events[..n] + [e];
      assert multiset(events) == multiset(mine) + multiset(others) + multiset{e};
      if e.user == user {
        assert ExceptUser(user, events) == others;
      } else {
        assert OfUser(user, events) == mine;
      }
    }
  }

  lemma Parts(s: State)
    requires Traced(s)
    ensures multiset(s.published) == multiset(Everywhere(s))
  {
    forall e
      ensures multiset(Everywhere(s))[e] == multiset(s.published)[e]
    {
      assert Copies(s, e) == multiset(s.published)[e];
    }
  }

  ghost predicate DistinctKeys(events: seq<Event>) {
    forall i, j :: 0 <= i < j < |events| ==> events[i].key != events[j].key
  }

  lemma {:induction false} CountedOnce(events: seq<Event>, e: Event)
    requires DistinctKeys(events)
    ensures multiset(events)[e] <= 1
  {
    if events != [] {
      var n := |events| - 1;
      CountedOnce(events[..n], e);
      assert events == events[..n] + [events[n]];
      if e == events[n] {
        assert e !in events[..n];
      }
    }
  }

  ghost predicate IssuedBy(e: Event, c: Coalesced) {
    && e.request == c.request && e.user == c.user && e.transport == c.transport && e.seconds > 0.0
    && exists n :: 1 <= n <= c.seqNo && e.key == Key(c.request, n)
  }

  ghost predicate Issued(s: State) {
    && (forall i, j :: 0 <= i < j < |s.streams| ==> s.streams[i].Request() != s.streams[j].Request())
    && (forall e :: e in s.published ==>
          exists i :: 0 <= i < |s.streams| && IssuedBy(e, s.streams[i].session.coal))
    && DistinctKeys(s.published)
  }

  ghost predicate KeptBy(x: Session, published: seq<Event>) {
    && x.coal.Valid()
    && x.delivered >= 0.0
    && x.delivered == x.coal.OpenSeconds() + Sum(OfRequest(x.coal.request), published)
    && (x.finished ==> !x.open && x.coal.OpenSeconds() == 0.0)
  }

  ghost predicate Kept(s: State) {
    forall i :: 0 <= i < |s.streams| ==> KeptBy(s.streams[i].session, s.published)
  }

  /** The event a consumer is about to insert is a published one that no usage row holds yet. */
  lemma NoConflict(s: State, c: nat)
    requires Traced(s) && DistinctKeys(s.published) && c < |s.workers| && s.workers[c].Todo() != []
    ensures !HasKey(s.ledger.rows, s.workers[c].Todo()[0].key)
  {
    var e := s.workers[c].Todo()[0];
    InGather(TodoOf, s.workers, c);
    assert e in TodoOf(s.workers[c]);
    assert Copies(s, e) == multiset(s.published)[e];
    assert e in multiset(s.published);
    var i :| 0 <= i < |s.published| && s.published[i] == e;
    forall k | 0 <= k < |s.ledger.rows|
      ensures s.ledger.rows[k].event.key != e.key
    {
      var f := Events(s.ledger.rows)[k];
      assert Copies(s, f) == multiset(s.published)[f];
      assert f in multiset(s.published);
      var j :| 0 <= j < |s.published| && s.published[j] == f;
      CountedOnce(s.published, f);
      assert f != e by {
        assert multiset(Events(s.ledger.rows))[f] >= 1;
        assert multiset(Todo(s))[f] == 0;
      }
    }
  }

  /** An insert of a new key moves its event to the rows, or leaves it with the abandoned ones. */
  lemma RecordCounts(l: Ledger, d: Debit, priceOk: bool, p: real, insertion: Insertion, f: Event)
    requires d.todo != [] && !HasKey(l.rows, d.todo[0].key)
    ensures
      var (l', d', go) := Record(l, d, if priceOk then Some(p) else None, insertion);
      multiset(Events(l'.rows))[f] + multiset(if go then d'.todo else Abandoned(d, priceOk, insertion))[f]
        == multiset(Events(l.rows))[f] + multiset(d.todo)[f]
  {
    assert d.todo == [d.todo[0]] + d.todo[1..];
    EventsAppend(l.rows, Row(d.todo[0], EventCost(d.todo[0], p)));
  }

  lemma InsertCopies(s: State, a: Action, price: string -> real, f: Event)
    requires a.Insert? && Enabled(s, a)
    requires !HasKey(s.ledger.rows, s.workers[a.c].Todo()[0].key)
    ensures Copies(Step(s, a, price), f) == Copies(s, f)
  {
    var d := s.workers[a.c].debit.value;
    var s' := Step(s, a, price);
    RecordCounts(s.ledger, d, a.priceOk, price(d.user), a.insertion, f);
    var w := s'.workers[a.c];
    var lost := if w.debit.Some? then [] else Abandoned(d, a.priceOk, a.insertion);
    assert s'.dropped == s.dropped + lost;
    WorkerStepCopies(s, a.c, w, s'.ledger, lost, f);
  }

  lemma InsertTraces(s: State, a: Action, price: string -> real)
    requires Traced(s) && DistinctKeys(s.published) && a.Insert? && Enabled(s, a)
    ensures Traced(Step(s, a, price))
  {
    NoConflict(s, a.c);
    forall f
      ensures Copies(Step(s, a, price), f) == multiset(Step(s, a, price).published)[f]
    {
      assert Copies(s, f) == multiset(s.published)[f];
      InsertCopies(s, a, price, f);
    }
  }

  lemma BeginTraces(s: State, a: Action, price: string -> real)
    requires Traced(s) && a.Begin? && Enabled(s, a)
    ensures Traced(Step(s, a, price))
  {
    var w := s.workers[a.c];
    SplitByUser(a.user, w.batch);
    var s' := Step(s, a, price);
    forall f
      ensures Copies(s', f) == multiset(s'.published)[f]
    {
      assert Copies(s, f) == multiset(s.published)[f];
      WorkerCopies(s, a.c, s'.workers[a.c], f);
      assert multiset(OfUser(a.user, w.batch))[f] + multiset(ExceptUser(a.user, w.batch))[f] == multiset(w.batch)[f];
    }
  }

  lemma ArriveCopies(s: State, a: Action, price: string -> real, f: Event)
    requires a.Arrive? && Enabled(s, a)
    ensures Copies(Step(s, a, price), f) == Copies(s, f)
  {
    WorkerCopies(s, a.c, Step(s, a, price).workers[a.c], f);
    CountWithout(s.bus, a.j, f);
  }

  lemma StopCopies(s: State, a: Action, price: string -> real, f: Event)
    requires a.Stop? && Enabled(s, a)
    ensures Copies(Step(s, a, price), f) == Copies(s, f)
  {
    WorkerCopies(s, a.c, IDLE, f);
  }

  lemma SwapOrSettleCopies(s: State, a: Action, price: string -> real, f: Event)
    requires (a.Swap? || a.Settle?) && Enabled(s, a)
    ensures Copies(Step(s, a, price), f) == Copies(s, f)
  {
    var s' := Step(s, a, price);
    assert s'.dropped == s.dropped + [];
    WorkerStepCopies(s, a.c, s'.workers[a.c], s'.ledger, [], f);
  }

  /** Steps in which an event arrives, or a consumer renames, finishes or gives up what it holds. */
  lemma MoveTraces(s: State, a: Action, price: string -> real)
    requires Traced(s) && Enabled(s, a)
    requires a.Arrive? || a.Stop? || a.Swap? || a.Settle?
    ensures Traced(Step(s, a, price))
  {
    forall f
      ensures Copies(Step(s, a, price), f) == multiset(Step(s, a, price).published)[f]
    {
      assert Copies(s, f) == multiset(s.published)[f];
      if a.Arrive? {
        ArriveCopies(s, a, price, f);
      } else if a.Stop? {
        StopCopies(s, a, price, f);
      } else {
        SwapOrSettleCopies(s, a, price, f);
      }
    }
  }

  lemma LoseTraces(s: State, j: nat, price: string -> real)
    requires Traced(s) && Enabled(s, Lose(j))
    ensures Traced(Step(s, Lose(j), price))
  {
    var s' := Step(s, Lose(j), price);
    forall f
      ensures Copies(s', f) == multiset(s'.published)[f]
    {
      assert Copies(s, f) == multiset(s.published)[f];
      CountWithout(s.bus, j, f);
    }
  }

  lemma JoinTraces(s: State, price: string -> real)
    requires Traced(s)
    ensures Traced(Step(s, Join, price))
  {
    var s' := Step(s, Join, price);
    GatherAppend(PendingOf, s.workers, IDLE);
    GatherAppend(BatchOf, s.workers, IDLE);
    GatherAppend(TodoOf, s.workers, IDLE);
    forall f
      ensures Copies(s', f) == multiset(s'.published)[f]
    {
      assert Copies(s, f) == multiset(s.published)[f];
    }
  }

  lemma EmitTraces(s: State, e: Option<Event>, publishOk: bool)
    requires Traced(s)
    ensures Traced(Emit(s, e, publishOk))
  {
    var s' := Emit(s, e, publishOk);
    forall f
      ensures Copies(s', f) == multiset(s'.published)[f]
    {
      assert Copies(s, f) == multiset(s.published)[f];
    }
  }

  lemma StillTraces(s: State, a: Action, price: string -> real)
    requires Traced(s) && Enabled(s, a) && (a.Admit? || a.Refresh?)
    ensures Traced(Step(s, a, price))
  {
    var s' := Step(s, a, price);
    forall f
      ensures Copies(s', f) == multiset(s'.published)[f]
    {
      assert Copies(s, f) == multiset(s.published)[f];
    }
  }

  lemma StepTraces(s: State, a: Action, price: string -> real)
    requires Traced(s) && DistinctKeys(s.published) && Enabled(s, a)
    ensures Traced(Step(s, a, price))
  {
    match a
    case Lose(j) => LoseTraces(s, j, price);
    case Join => JoinTraces(s, price);
    case Begin(_, _) => BeginTraces(s, a, price);
    case Insert(_, _, _) => InsertTraces(s, a, price);
    case Chunk(i, bytes, rate, writeOk, publishOk, t) =>
      var (x, e) := s.streams[i].session.Chunk(bytes, rate, writeOk, t);
      PutTraces(s, i, x);
      EmitTraces(Put(s, i, x), e, publishOk);
    case Finish(i, publishOk, t) =>
      var (x, e) := s.streams[i].session.Finish(t);
      PutTraces(s, i, x);
      EmitTraces(Put(s, i, x), e, publishOk);
    case Admit(_, _, _, _, _) => StillTraces(s, a, price);
    case Refresh(_, _) => StillTraces(s, a, price);
    case _ => MoveTraces(s, a, price);
  }

  lemma PutTraces(s: State, i: nat, x: Session)
    requires Traced(s) && i < |s.streams|
    ensures Traced(Put(s, i, x))
  {
    var s' := Put(s, i, x);
    forall f
      ensures Copies(s', f) == multiset(s'.published)[f]
    {
      assert Copies(s, f) == multiset(s.published)[f];
    }
  }

  // ---------------------------------------------------------------- sessions

  /** A chunk or the final flush of a session, seen from its coalescer. */
  lemma SessionAccounts(x: Session, a: Action, sec: real, x': Session, e: Option<Event>)
    requires x.coal.Valid()
    requires a.Chunk? || a.Finish?
    requires a.Chunk? ==> (x', e) == x.Chunk(a.bytes, a.sampleRate, a.writeOk, a.t)
    requires a.Finish? ==> (x', e) == x.Finish(a.t)
    requires sec == x'.delivered - x.delivered
    ensures sec >= 0.0 && Accounts(x.coal, sec, x'.coal, e)
    ensures a.Finish? ==> x'.coal.OpenSeconds() == 0.0 && x'.finished && !x'.open
    ensures a.Chunk? ==> x'.finished == x.finished
  {
    if a.Chunk? {
      AddAccounts(x.coal, SecondsFromPCM(a.bytes, a.sampleRate), a.t);
    } else {
      FlushAccounts(x.coal, a.t);
    }
  }

  lemma EmitKeepsIssued(s: State, i: nat, x: Session, sec: real, e: Option<Event>, publishOk: bool)
    requires Issued(s) && i < |s.streams|
    requires Accounts(s.streams[i].session.coal, sec, x.coal, e)
    ensures Issued(Emit(Put(s, i, x), e, publishOk))
  {
    var s' := Emit(Put(s, i, x), e, publishOk);
    var c, c' := s.streams[i].session.coal, x.coal;
    forall f | f in s.published
      ensures exists k :: 0 <= k < |s'.streams| && IssuedBy(f, s'.streams[k].session.coal)
      ensures e.Some? ==> f.key != e.value.key
    {
      var k :| 0 <= k < |s.streams| && IssuedBy(f, s.streams[k].session.coal);
      assert IssuedBy(f, s'.streams[k].session.coal);
      var ck := s.streams[k].session.coal;
      var n :| 1 <= n <= ck.seqNo && f.key == Key(ck.request, n);
      KeyIsInjective(ck.request, n, c.request, c'.seqNo);
      if k == i {
        assert n < c'.seqNo || e.None?;
      } else {
        assert s.streams[k].Request() != s.streams[i].Request();
      }
    }
    if e.Some? {
      assert IssuedBy(e.value, s'.streams[i].session.coal);
    }
  }

  lemma EmitKeepsKept(s: State, i: nat, x: Session, sec: real, e: Option<Event>, publishOk: bool)
    requires Issued(s) && Kept(s) && i < |s.streams|
    requires sec >= 0.0 && x.delivered == s.streams[i].session.delivered + sec
    requires Accounts(s.streams[i].session.coal, sec, x.coal, e)
    requires x.finished ==> !x.open && x.coal.OpenSeconds() == 0.0
    ensures Kept(Emit(Put(s, i, x), e, publishOk))
  {
    var s' := Emit(Put(s, i, x), e, publishOk);
    forall k | 0 <= k < |s'.streams|
      ensures KeptBy(s'.streams[k].session, s'.published)
    {
      assert KeptBy(s.streams[k].session, s.published);
      if e.Some? {
        SumAppend(OfRequest(s.streams[k].Request()), s.published, e.value);
        assert k != i ==> s.streams[k].Request() != s.streams[i].Request();
      }
    }
  }

  lemma AdmitKeeps(s: State, a: Action, price: string -> real)
    requires Issued(s) && Kept(s) && a.Admit? && Enabled(s, a)
    ensures Issued(Step(s, a, price)) && Kept(Step(s, a, price))
  {
    var s' := Step(s, a, price);
    forall e | e in s.published
      ensures exists i :: 0 <= i < |s'.streams| && IssuedBy(e, s'.streams[i].session.coal)
      ensures e.request != a.request
    {
      var i :| 0 <= i < |s.streams| && IssuedBy(e, s.streams[i].session.coal);
      assert s.streams[i].Request() != a.request;
      assert IssuedBy(e, s'.streams[i].session.coal);
    }
    SumIsZero(OfRequest(a.request), s.published);
  }

  lemma RefreshKeeps(s: State, a: Action, price: string -> real)
    requires Issued(s) && Kept(s) && a.Refresh? && Enabled(s, a)
    ensures Issued(Step(s, a, price)) && Kept(Step(s, a, price))
  {
    var s' := Step(s, a, price);
    assert forall k :: 0 <= k < |s.streams| ==> s'.streams[k].session.coal == s.streams[k].session.coal;
  }

  lemma StepKeeps(s: State, a: Action, price: string -> real)
    requires Issued(s) && Kept(s) && Enabled(s, a)
    ensures Issued(Step(s, a, price)) && Kept(Step(s, a, price))
  {
    match a
    case Admit(_, _, _, _, _) => AdmitKeeps(s, a, price);
    case Refresh(_, _) => RefreshKeeps(s, a, price);
    case Chunk(i, bytes, rate, writeOk, publishOk, t) =>
      var x := s.streams[i].session;
      var (x', e) := x.Chunk(bytes, rate, writeOk, t);
      SessionAccounts(x, a, x'.delivered - x.delivered, x', e);
      EmitKeepsIssued(s, i, x', x'.delivered - x.delivered, e, publishOk);
      EmitKeepsKept(s, i, x', x'.delivered - x.delivered, e, publishOk);
    case Finish(i, publishOk, t) =>
      var x := s.streams[i].session;
      var (x', e) := x.Finish(t);
      SessionAccounts(x, a, x'.delivered - x.delivered, x', e);
      EmitKeepsIssued(s, i, x', x'.delivered - x.delivered, e, publishOk);
      EmitKeepsKept(s, i, x', x'.delivered - x.delivered, e, publishOk);
    case _ =>
  }

  // ---------------------------------------------------------------- every run

  lemma {:induction false} AlwaysTraced(balances: map<string, real>, run: seq<Action>, price: string -> real)
    ensures var s := After(balances, run, price); Traced(s) && Issued(s) && Kept(s)
    decreases |run|
  {
    if run != [] {
      var n := |run| - 1;
      AlwaysTraced(balances, run[..n], price);
      var s := After(balances, run[..n], price);
      if Enabled(s, run[n]) {
        StepTraces(s, run[n], price);
        StepKeeps(s, run[n], price);
      }
    }
  }

  /** The seconds of request `r` in a part of the pipeline. */
  function Seconds(r: string, events: seq<Event>): real {
    Sum(OfRequest(r), events)
  }

  /**
    Conservation, in every run and whatever fails: the delivered seconds of a request are in its
    open window, on the bus, in a pending map, in a swapped batch, in a debit under way, in the
    usage rows, or among the events a failure dropped - each second in exactly one of them, however
    many consumers share the queue.
   */
  lemma Conservation(balances: map<string, real>, run: seq<Action>, price: string -> real, i: nat)
    requires i < |After(balances, run, price).streams|
    ensures
      var s := After(balances, run, price);
      var r := s.streams[i].Request();
      s.streams[i].session.delivered
        == s.streams[i].session.coal.OpenSeconds()
           + Seconds(r, s.bus) + Seconds(r, Pending(s)) + Seconds(r, Batch(s)) + Seconds(r, Todo(s))
           + Seconds(r, Events(s.ledger.rows)) + Seconds(r, s.dropped)
  {
    var s := After(balances, run, price);
    var w := OfRequest(s.streams[i].Request());
    AlwaysTraced(balances, run, price);
    Parts(s);
    SumOfPermutation(w, s.published, Everywhere(s));
    SumConcat(w, s.bus + Pending(s) + Batch(s) + Todo(s) + Events(s.ledger.rows), s.dropped);
    SumConcat(w, s.bus + Pending(s) + Batch(s) + Todo(s), Events(s.ledger.rows));
    SumConcat(w, s.bus + Pending(s) + Batch(s), Todo(s));
    SumConcat(w, s.bus + Pending(s), Batch(s));
    SumConcat(w, s.bus, Pending(s));
  }

  /** Nothing is dropped in a run without faults. */
  lemma {:induction false} NothingDropped(balances: map<string, real>, run: seq<Action>, price: string -> real)
    requires forall k :: 0 <= k < |run| ==> Faultless(run[k])
    ensures After(balances, run, price).dropped == []
    decreases |run|
  {
    if run != [] {
      NothingDropped(balances, run[..|run| - 1], price);
      assert Faultless(run[|run| - 1]);
    }
  }

  ghost predicate Drained(s: State) {
    s.bus == [] && forall c :: 0 <= c < |s.workers| ==> s.workers[c] == IDLE
  }

  /** A finished request and drained consumers: the usage rows alone hold every written chunk. */
  lemma LedgerIsComplete(balances: map<string, real>, run: seq<Action>, price: string -> real, i: nat)
    requires forall k :: 0 <= k < |run| ==> Faultless(run[k])
    requires i < |After(balances, run, price).streams|
    requires Drained(After(balances, run, price))
    requires After(balances, run, price).streams[i].session.finished
    ensures
      var s := After(balances, run, price);
      Seconds(s.streams[i].Request(), Events(s.ledger.rows)) == s.streams[i].session.delivered
  {
    var s := After(balances, run, price);
    Conservation(balances, run, price, i);
    NothingDropped(balances, run, price);
    AlwaysTraced(balances, run, price);
    GatherNothing(PendingOf, s.workers);
    GatherNothing(BatchOf, s.workers);
    GatherNothing(TodoOf, s.workers);
  }
}
