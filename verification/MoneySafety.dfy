/**
  What users pay in the money pipeline: never more than was delivered, each recorded row at most
  once, and never out of a wallet below zero.
 */
module MoneySafety {
  import opened Wrappers
  import opened Billing
  import opened Sums
  import opened Seqs
  import opened Delivery
  import opened Metering
  import opened MoneyPipeline
  import opened MoneyConservation

  ghost predicate RowPriced(x: Row, price: string -> real) {
    x.cost == EventCost(x.event, price(x.event.user))
  }

  /** A debit adds up its own user's rows. */
  ghost predicate DebitPriced(d: Debit, price: string -> real) {
    && (forall e :: e in d.todo ==> e.user == d.user)
    && (forall x :: x in d.charged ==> x.event.user == d.user && RowPriced(x, price))
    && d.total == Sum(UserCost(d.user), d.charged)
  }

  ghost predicate WorkerPriced(w: Worker, price: string -> real) {
    w.debit.Some? ==> DebitPriced(w.debit.value, price)
  }

  /** Rows carry the user's price, and so do the debits under way. */
  ghost predicate Priced(s: State, price: string -> real) {
    && (forall x :: x in s.ledger.rows ==> RowPriced(x, price))
    && (forall c :: 0 <= c < |s.workers| ==> WorkerPriced(s.workers[c], price))
  }

  /** No row is settled twice, and none that is not in the ledger. */
  ghost predicate OncePerRow(s: State) {
    forall x :: multiset(s.ledger.settled)[x] + multiset(Charged(s))[x] <= multiset(s.ledger.rows)[x]
  }

  ghost predicate PaidForSettled(l: Ledger) {
    forall u :: Sum(UserPaid(u), l.txs) <= Sum(UserCost(u), l.settled)
  }

  lemma {:induction false} OfUserOnly(user: string, events: seq<Event>)
    ensures forall e :: e in OfUser(user, events) ==> e.user == user
  {
    if events != [] {
      OfUserOnly(user, events[..|events| - 1]);
    }
  }

  lemma RecordKeepsPrices(l: Ledger, d: Debit, priceOk: bool, insertion: Insertion, price: string -> real)
    requires DebitPriced(d, price) && d.todo != [] && forall x :: x in l.rows ==> RowPriced(x, price)
    ensures var (l', d', _) := Record(l, d, if priceOk then Some(price(d.user)) else None, insertion);
            DebitPriced(d', price) && forall x :: x in l'.rows ==> RowPriced(x, price)
  {
    var x := Row(d.todo[0], EventCost(d.todo[0], price(d.user)));
    assert d.todo[0] in d.todo;
    SumAppend(UserCost(d.user), d.charged, x);
  }

  lemma InsertKeepsPrices(s: State, a: Action, price: string -> real)
    requires Priced(s, price) && a.Insert? && Enabled(s, a)
    ensures Priced(Step(s, a, price), price)
  {
    assert WorkerPriced(s.workers[a.c], price);
    RecordKeepsPrices(s.ledger, s.workers[a.c].debit.value, a.priceOk, a.insertion, price);
  }

  /** A step of one consumer that settles or charges no more than it charged or wrote. */
  lemma WorkerKeepsOnce(s: State, c: nat, w: Worker, l: Ledger)
    requires OncePerRow(s) && c < |s.workers|
    requires forall y :: multiset(l.settled)[y] + multiset(w.Charged())[y] + multiset(s.ledger.rows)[y]
                      <= multiset(s.ledger.settled)[y] + multiset(s.workers[c].Charged())[y] + multiset(l.rows)[y]
    ensures OncePerRow(PutWorker(s, c, w).(ledger := l))
  {
    var s' := PutWorker(s, c, w).(ledger := l);
    forall y
      ensures multiset(s'.ledger.settled)[y] + multiset(Charged(s'))[y] <= multiset(s'.ledger.rows)[y]
    {
      assert multiset(s.ledger.settled)[y] + multiset(Charged(s))[y] <= multiset(s.ledger.rows)[y];
      GatherReplaced(ChargedOf, s.workers, c, w, y);
    }
  }

  /** Only the ledger and the consumers matter to how often a row is settled. */
  lemma SameOnce(s: State, s': State)
    requires OncePerRow(s) && s'.workers == s.workers && s'.ledger == s.ledger
    ensures OncePerRow(s')
  {
    assert forall y :: multiset(s.ledger.settled)[y] + multiset(Charged(s))[y] <= multiset(s.ledger.rows)[y];
  }

  lemma InsertKeepsOnce(s: State, a: Action, price: string -> real)
    requires Traced(s) && Issued(s) && OncePerRow(s) && a.Insert? && Enabled(s, a)
    ensures OncePerRow(Step(s, a, price))
  {
    var s' := Step(s, a, price);
    NoConflict(s, a.c);
    WorkerKeepsOnce(s, a.c, s'.workers[a.c], s'.ledger);
    SameOnce(PutWorker(s, a.c, s'.workers[a.c]).(ledger := s'.ledger), s');
  }

  lemma SettleMoves(l: Ledger, d: Debit, o: Settlement, y: Row)
    ensures Metering.Settle(l, d, o).0.rows == l.rows
    ensures multiset(Metering.Settle(l, d, o).0.settled)[y] <= multiset(l.settled)[y] + multiset(d.charged)[y]
  {}

  lemma SettleKeepsOnce(s: State, a: Action, price: string -> real)
    requires OncePerRow(s) && a.Settle? && Enabled(s, a)
    ensures OncePerRow(Step(s, a, price))
  {
    var s' := Step(s, a, price);
    forall y
      ensures multiset(s'.ledger.settled)[y]
           <= multiset(s.ledger.settled)[y] + multiset(s.workers[a.c].Charged())[y]
    {
      SettleMoves(s.ledger, s.workers[a.c].debit.value, a.settlement, y);
    }
    WorkerKeepsOnce(s, a.c, s'.workers[a.c], s'.ledger);
    SameOnce(PutWorker(s, a.c, s'.workers[a.c]).(ledger := s'.ledger), s');
  }

  lemma SettlePays(l: Ledger, d: Debit, o: Settlement)
    requires PaidForSettled(l)
    requires forall x :: x in d.charged ==> x.event.user == d.user
    requires d.total == Sum(UserCost(d.user), d.charged)
    ensures PaidForSettled(Metering.Settle(l, d, o).0)
  {
    var l' := Metering.Settle(l, d, o).0;
    forall u
      ensures Sum(UserPaid(u), l'.txs) <= Sum(UserCost(u), l'.settled)
    {
      assert Sum(UserPaid(u), l.txs) <= Sum(UserCost(u), l.settled);
      SettledBy(l, d, u);
      if d.charged != [] {
        SumAppend(UserPaid(u), l.txs, Tx(d.user, -d.total, d.charged[0].event.request));
      }
    }
  }

  /** Charging a debit adds its total to its own user's settled cost, and nothing to others. */
  lemma SettledBy(l: Ledger, d: Debit, u: string)
    requires forall x :: x in d.charged ==> x.event.user == d.user
    requires d.total == Sum(UserCost(d.user), d.charged)
    ensures Sum(UserCost(u), l.settled + d.charged)
         == Sum(UserCost(u), l.settled) + if u == d.user then d.total else 0.0
  {
    SumConcat(UserCost(u), l.settled, d.charged);
    if u != d.user {
      SumIsZero(UserCost(u), d.charged);
    }
  }

  /** A consumer that takes events in, begins a debit or stops charges nothing. */
  lemma MoveKeepsPrices(s: State, a: Action, price: string -> real)
    requires Priced(s, price) && (a.Stop? || a.Arrive? || a.Swap? || a.Begin?) && Enabled(s, a)
    ensures Priced(Step(s, a, price), price)
  {
    var w := Step(s, a, price).workers[a.c];
    assert WorkerPriced(s.workers[a.c], price);
    if a.Begin? {
      OfUserOnly(a.user, s.workers[a.c].batch);
      assert WorkerPriced(w, price);
    } else {
      assert w.debit.None? || w.debit == s.workers[a.c].debit;
    }
  }

  lemma MoveKeepsOnce(s: State, a: Action, price: string -> real)
    requires OncePerRow(s) && (a.Stop? || a.Arrive? || a.Swap? || a.Begin?) && Enabled(s, a)
    ensures OncePerRow(Step(s, a, price))
  {
    var s' := Step(s, a, price);
    var w := s'.workers[a.c];
    assert w.Charged() == [] || w.Charged() == s.workers[a.c].Charged();
    WorkerKeepsOnce(s, a.c, w, s.ledger);
    SameOnce(PutWorker(s, a.c, w).(ledger := s.ledger), s');
  }

  lemma JoinKeeps(s: State, price: string -> real)
    requires Priced(s, price) && OncePerRow(s)
    ensures Priced(Step(s, Join, price), price) && OncePerRow(Step(s, Join, price))
  {
    GatherAppend(ChargedOf, s.workers, IDLE);
    assert forall y :: multiset(s.ledger.settled)[y] + multiset(Charged(s))[y] <= multiset(s.ledger.rows)[y];
  }

  lemma SettlesPriced(s: State, a: Action, price: string -> real)
    requires Priced(s, price) && PaidForSettled(s.ledger) && a.Settle? && Enabled(s, a)
    ensures Priced(Step(s, a, price), price) && PaidForSettled(Step(s, a, price).ledger)
  {
    assert WorkerPriced(s.workers[a.c], price);
    SettlePays(s.ledger, s.workers[a.c].debit.value, a.settlement);
  }

  lemma StepCharges(s: State, a: Action, price: string -> real)
    requires Traced(s) && Issued(s) && Priced(s, price) && OncePerRow(s) && PaidForSettled(s.ledger)
    requires Enabled(s, a)
    ensures var s' := Step(s, a, price);
            Priced(s', price) && OncePerRow(s') && PaidForSettled(s'.ledger)
  {
    if a.Insert? {
      InsertKeepsPrices(s, a, price);
      InsertKeepsOnce(s, a, price);
    } else if a.Settle? {
      SettleKeepsOnce(s, a, price);
      SettlesPriced(s, a, price);
    } else {
      OthersKeep(s, a, price);
    }
  }

  /** The other steps leave the tables, and charge nothing. */
  lemma OthersKeep(s: State, a: Action, price: string -> real)
    requires Priced(s, price) && OncePerRow(s) && Enabled(s, a) && !a.Insert? && !a.Settle?
    ensures var s' := Step(s, a, price);
            s'.ledger == s.ledger && Priced(s', price) && OncePerRow(s')
  {
    if a.Join? {
      JoinKeeps(s, price);
    } else if a.Stop? || a.Arrive? || a.Swap? || a.Begin? {
      MoveKeepsPrices(s, a, price);
      MoveKeepsOnce(s, a, price);
    } else {
      SameOnce(s, Step(s, a, price));
    }
  }

  lemma {:induction false} AlwaysCharged(balances: map<string, real>, run: seq<Action>, price: string -> real)
    ensures var s := After(balances, run, price);
            Priced(s, price) && OncePerRow(s) && PaidForSettled(s.ledger)
    decreases |run|
  {
    if run != [] {
      var n := |run| - 1;
      AlwaysCharged(balances, run[..n], price);
      AlwaysTraced(balances, run[..n], price);
      var s := After(balances, run[..n], price);
      if Enabled(s, run[n]) {
        StepCharges(s, run[n], price);
      }
    }
  }

  // ---------------------------------------------------------------- seconds of a user

  function UserSeconds(u: string): Event -> real {
    (e: Event) => if e.user == u then e.seconds else 0.0
  }

  function DeliveredTo(u: string): Stream -> real {
    (m: Stream) => if m.User() == u then m.session.delivered else 0.0
  }

  function SecondsIn(u: string, events: seq<Event>): Stream -> real {
    (m: Stream) => if m.User() == u then Seconds(m.Request(), events) else 0.0
  }

  function Share(u: string, e: Event): Stream -> real {
    (m: Stream) => if m.User() == u && m.Request() == e.request then e.seconds else 0.0
  }

  lemma {:induction false} SharesAddUp(u: string, events: seq<Event>, e: Event, ms: seq<Stream>)
    ensures Sum(SecondsIn(u, events + [e]), ms) == Sum(SecondsIn(u, events), ms) + Sum(Share(u, e), ms)
  {
    if ms != [] {
      var m := ms[|ms| - 1];
      SharesAddUp(u, events, e, ms[..|ms| - 1]);
      SumAppend(OfRequest(m.Request()), events, e);
    }
  }

  /** Each event belongs to exactly one request, so adding up by request adds up by user. */
  lemma {:induction false} SecondsByRequest(s: State, u: string, events: seq<Event>)
    requires Issued(s)
    requires forall e :: e in events ==> e in s.published
    ensures Sum(SecondsIn(u, events), s.streams) == Sum(UserSeconds(u), events)
  {
    if events == [] {
      SumIsZero(SecondsIn(u, events), s.streams);
    } else {
      var n := |events| - 1;
      var e := events[n];
      SecondsByRequest(s, u, events[..n]);
      assert events == events[..n] + [e] && e in events;
      SharesAddUp(u, events[..n], e, s.streams);
      var i :| 0 <= i < |s.streams| && IssuedBy(e, s.streams[i].session.coal);
      SumWithout(Share(u, e), s.streams, i);
      OnlyShare(s, u, e, i);
    }
  }

  lemma OnlyShare(s: State, u: string, e: Event, i: nat)
    requires Issued(s) && i < |s.streams| && s.streams[i].Request() == e.request
    ensures Sum(Share(u, e), Without(s.streams, i)) == 0.0
  {
    var rest := Without(s.streams, i);
    forall m | m in rest
      ensures Share(u, e)(m) == 0.0
    {
      var k :| 0 <= k < |rest| && rest[k] == m;
      var j := if k < i then k else k + 1;
      assert m == s.streams[j] && s.streams[j].Request() != s.streams[i].Request();
    }
    SumIsZero(Share(u, e), rest);
  }

  lemma {:induction false} CostOfRows(w: Row -> real, v: Event -> real, rows: seq<Row>, p: real)
    requires forall x :: x in rows ==> w(x) == AtPrice(v(x.event), p)
    ensures Sum(w, rows) == AtPrice(Sum(v, Events(rows)), p)
  {
    if rows != [] {
      var n := |rows| - 1;
      CostOfRows(w, v, rows[..n], p);
      assert rows == rows[..n] + [rows[n]];
      EventsAppend(rows[..n], rows[n]);
      SumAppend(v, Events(rows[..n]), rows[n].event);
      AtPriceIsAdditive(Sum(v, Events(rows[..n])), v(rows[n].event), p);
    }
  }

  lemma AtPriceIsAdditive(a: real, b: real, p: real)
    ensures AtPrice(a + b, p) == AtPrice(a, p) + AtPrice(b, p)
  {
    assert (a + b) / 60.0 == a / 60.0 + b / 60.0;
  }

  // ---------------------------------------------------------------- never overcharge

  /** What the ledger holds for a request is at most what was delivered to it. */
  lemma RecordedWithinDelivered(balances: map<string, real>, run: seq<Action>, price: string -> real, i: nat)
    requires i < |After(balances, run, price).streams|
    ensures var s := After(balances, run, price);
            Seconds(s.streams[i].Request(), Events(s.ledger.rows)) <= s.streams[i].session.delivered
  {
    var s := After(balances, run, price);
    var w := OfRequest(s.streams[i].Request());
    AlwaysTraced(balances, run, price);
    assert KeptBy(s.streams[i].session, s.published);
    RowsArePublished(s);
    SumOfPart(w, Events(s.ledger.rows), s.published);
  }

  lemma RowsArePublished(s: State)
    requires Traced(s) && Issued(s)
    ensures multiset(Events(s.ledger.rows)) <= multiset(s.published)
    ensures forall e :: e in Events(s.ledger.rows) ==> e in s.published
    ensures forall e :: e in s.published ==> e.seconds > 0.0
  {
    forall e
      ensures multiset(Events(s.ledger.rows))[e] <= multiset(s.published)[e]
    {
      assert Copies(s, e) == multiset(s.published)[e];
    }
    forall e | e in Events(s.ledger.rows)
      ensures e in s.published
    {
      assert e in multiset(Events(s.ledger.rows));
      assert e in multiset(s.published);
    }
  }

  /**
    Never overcharge: in every run, whatever fails, a user's wallet transactions are covered by
    the debits that took effect, those by the user's usage rows, and those by the price of the
    audio delivered to the user.
   */
  lemma NeverOvercharge(balances: map<string, real>, run: seq<Action>, price: string -> real, u: string)
    requires price(u) >= 0.0
    ensures
      var s := After(balances, run, price);
      Sum(UserPaid(u), s.ledger.txs)
        <= Sum(UserCost(u), s.ledger.settled)
        <= Sum(UserCost(u), s.ledger.rows)
        <= CostForSeconds(Sum(DeliveredTo(u), s.streams), price(u))
  {
    var s := After(balances, run, price);
    AlwaysTraced(balances, run, price);
    AlwaysCharged(balances, run, price);
    SettledWithinRows(s, price, u);
    forall i | 0 <= i < |s.streams|
      ensures Seconds(s.streams[i].Request(), Events(s.ledger.rows)) <= s.streams[i].session.delivered
    {
      RecordedWithinDelivered(balances, run, price, i);
    }
    RecordedCost(s, price, u);
  }

  lemma RecordedSeconds(s: State, u: string)
    requires Traced(s) && Issued(s)
    requires forall i :: 0 <= i < |s.streams| ==>
               Seconds(s.streams[i].Request(), Events(s.ledger.rows)) <= s.streams[i].session.delivered
    ensures 0.0 <= Sum(UserSeconds(u), Events(s.ledger.rows)) <= Sum(DeliveredTo(u), s.streams)
  {
    var rows := Events(s.ledger.rows);
    RowsArePublished(s);
    SecondsByRequest(s, u, rows);
    SumIsMonotone(SecondsIn(u, rows), DeliveredTo(u), s.streams);
    SumNonNegative(UserSeconds(u), rows);
  }

  lemma RecordedCost(s: State, price: string -> real, u: string)
    requires Traced(s) && Issued(s) && Priced(s, price) && price(u) >= 0.0
    requires forall i :: 0 <= i < |s.streams| ==>
               Seconds(s.streams[i].Request(), Events(s.ledger.rows)) <= s.streams[i].session.delivered
    ensures Sum(UserCost(u), s.ledger.rows) <= CostForSeconds(Sum(DeliveredTo(u), s.streams), price(u))
  {
    RecordedSeconds(s, u);
    CostOfRows(UserCost(u), UserSeconds(u), s.ledger.rows, price(u));
    CostIsMonotone(Sum(UserSeconds(u), Events(s.ledger.rows)), Sum(DeliveredTo(u), s.streams), price(u));
  }

  lemma CostNonNegative(e: Event, p: real)
    requires e.seconds >= 0.0 && p >= 0.0
    ensures EventCost(e, p) >= 0.0
  {}

  lemma SettledWithinRows(s: State, price: string -> real, u: string)
    requires Traced(s) && Issued(s) && Priced(s, price) && OncePerRow(s) && price(u) >= 0.0
    ensures multiset(s.ledger.settled) <= multiset(s.ledger.rows)
    ensures forall x :: x in s.ledger.rows ==> UserCost(u)(x) >= 0.0
    ensures forall x :: x in s.ledger.settled ==> x in s.ledger.rows
    ensures Sum(UserCost(u), s.ledger.settled) <= Sum(UserCost(u), s.ledger.rows)
  {
    RowsArePublished(s);
    forall x | x in s.ledger.rows
      ensures UserCost(u)(x) >= 0.0
    {
      var k :| 0 <= k < |s.ledger.rows| && s.ledger.rows[k] == x;
      assert Events(s.ledger.rows)[k] == x.event;
      CostNonNegative(x.event, price(u));
    }
    forall x
      ensures multiset(s.ledger.settled)[x] <= multiset(s.ledger.rows)[x]
    {
      assert multiset(s.ledger.settled)[x] + multiset(Charged(s))[x] <= multiset(s.ledger.rows)[x];
    }
    forall x | x in s.ledger.settled
      ensures x in s.ledger.rows
    {
      assert x in multiset(s.ledger.settled);
      assert x in multiset(s.ledger.rows);
    }
    SumOfPart(UserCost(u), s.ledger.settled, s.ledger.rows);
  }
}
