/**
  The metering consumer (metering/internal/consumer/consumer.go): events are collected per user,
  swapped out on a ticker, and each user's batch is written to the usage ledger and charged to
  the wallet. Every database and cache statement may fail.
 */
module Metering {
  import opened Wrappers
  import opened Billing
  import opened Sums

  datatype Row = Row(event: Event, cost: real)

  datatype Tx = Tx(user: string, amount: real, reference: string)

  /**
    The three tables. `settled` is an observation: the rows covered by the wallet UPDATE
    statements that took effect, which is what the system has asked users to pay.
   */
  datatype Ledger = Ledger(rows: seq<Row>, balances: map<string, real>, txs: seq<Tx>, settled: seq<Row>)

  // ---------------------------------------------------------------- prices

  /**
    One price lookup: the price in the cached wallet snapshot if there was a readable one, and
    the users row - absent when the query fails, with an absent price when the column is NULL.
   */
  datatype Lookup = Lookup(cached: Option<real>, row: Option<Option<real>>)

  function PricePerMinute(l: Lookup, defaultPrice: real): Option<real> {
    if l.cached.Some? && l.cached.value > 0.0 then l.cached
    else if l.row.None? then None
    else if l.row.value.Some? then l.row.value
    else Some(defaultPrice)
  }

  /**
    The only snapshots in the cache are those the gateway wrote, which already hold the
    effective price. While that price is fixed, a lookup yields it or fails.
   */
  lemma FixedPrice(l: Lookup, defaultPrice: real, price: real)
    requires l.cached.Some? ==> l.cached.value == price
    requires l.row.Some? ==> price == (if l.row.value.Some? then l.row.value.value else defaultPrice)
    ensures PricePerMinute(l, defaultPrice) == Some(price) || PricePerMinute(l, defaultPrice) == None
    ensures PricePerMinute(l, defaultPrice) == None
       <==> l.row.None? && !(l.cached.Some? && price > 0.0)
  {}

  // ---------------------------------------------------------------- one user's debit, statement by statement

  /** A debit in progress: the events still to insert, the rows already accounted, and their sum. */
  datatype Debit = Debit(user: string, todo: seq<Event>, charged: seq<Row>, total: real)

  function Opened(user: string, events: seq<Event>): Debit {
    Debit(user, events, [], 0.0)
  }

  /** A statement that reports an error may still have been applied by the server. */
  datatype Insertion = Inserted | InsertFailed(applied: bool)

  datatype Attempt = Attempt(lookup: Lookup, insertion: Insertion)

  datatype Settlement = Updated(recorded: bool) | UpdateFailed(applied: bool)

  predicate HasKey(rows: seq<Row>, key: string) {
    exists i :: 0 <= i < |rows| && rows[i].event.key == key
  }

  /** INSERT ... ON CONFLICT (idempotency_key) DO NOTHING. */
  function Upsert(rows: seq<Row>, row: Row): seq<Row> {
    if HasKey(rows, row.event.key) then rows else rows + [row]
  }

  /** The consumer's own pricing, without the guard that CostForSeconds has. */
  function EventCost(e: Event, price: real): real {
    AtPrice(e.seconds, price)
  }

  /** One round of the loop; the last component says whether the debit goes on. */
  function Record(l: Ledger, d: Debit, price: Option<real>, insertion: Insertion): (Ledger, Debit, bool)
    requires d.todo != []
  {
    if price.None? then (l, d, false)
    else
      var row := Row(d.todo[0], EventCost(d.todo[0], price.value));
      var d' := Debit(d.user, d.todo[1..], d.charged + [row], d.total + row.cost);
      match insertion
      case Inserted => (l.(rows := Upsert(l.rows, row)), d', true)
      case InsertFailed(applied) => (if applied then l.(rows := Upsert(l.rows, row)) else l, d', false)
  }

  function Larger(a: real, b: real): real {
    if a >= b then a else b
  }

  function Charge(l: Ledger, d: Debit): Ledger {
    l.(balances := if d.user in l.balances
                   then l.balances[d.user := Larger(l.balances[d.user] - d.total, 0.0)] else l.balances,
       settled := l.settled + d.charged)
  }

  /** The UPDATE and the transaction row, once every event has been inserted. */
  function Settle(l: Ledger, d: Debit, o: Settlement): (Ledger, bool) {
    if d.total <= 0.0 || d.charged == [] then (l, true)
    else
      match o
      case UpdateFailed(applied) => (if applied then Charge(l, d) else l, false)
      case Updated(recorded) =>
        var l' := Charge(l, d);
        (if recorded then l'.(txs := l'.txs + [Tx(d.user, -d.total, d.charged[0].event.request)]) else l', true)
  }

  /** The loop of debitUser; the k-th event meets the k-th attempt. */
  function RecordAll(l: Ledger, d: Debit, defaultPrice: real, attempts: (string, nat) -> Attempt): (Ledger, Debit, bool)
    decreases |d.todo|
  {
    if d.todo == [] then (l, d, true)
    else
      var a := attempts(d.user, |d.charged|);
      var (l', d', go) := Record(l, d, PricePerMinute(a.lookup, defaultPrice), a.insertion);
      if go then RecordAll(l', d', defaultPrice, attempts) else (l', d', false)
  }

  function DebitOf(l: Ledger, user: string, events: seq<Event>, defaultPrice: real,
                   attempts: (string, nat) -> Attempt, settlement: Settlement): (Ledger, bool)
  {
    var (l', d', go) := RecordAll(l, Opened(user, events), defaultPrice, attempts);
    if go then Settle(l', d', settlement) else (l', false)
  }

  // ---------------------------------------------------------------- what a debit comes to

  /** The price is known and the row is written. */
  predicate Succeeds(a: Attempt, defaultPrice: real) {
    a.insertion.Inserted? && PricePerMinute(a.lookup, defaultPrice).Some?
  }

  ghost predicate AllSucceed(user: string, from: nat, to: nat, defaultPrice: real,
                             attempts: (string, nat) -> Attempt)
  {
    forall k :: from <= k < to ==> Succeeds(attempts(user, k), defaultPrice)
  }

  function RowCost(x: Row): real {
    x.cost
  }

  /** A row at the price its own lookup gave. */
  ghost predicate IsRow(x: Row, e: Event, a: Attempt, defaultPrice: real) {
    var p := PricePerMinute(a.lookup, defaultPrice);
    p.Some? && x == Row(e, e.seconds / 60.0 * p.value)
  }

  /** The loop leaves everything but the rows alone, and gets through exactly when every event succeeds. */
  lemma {:induction false} RecordingOnlyRows(
    l: Ledger, d: Debit, defaultPrice: real, attempts: (string, nat) -> Attempt)
    ensures var (l', d', go) := RecordAll(l, d, defaultPrice, attempts);
            && l'.balances == l.balances && l'.txs == l.txs && l'.settled == l.settled
            && (go <==> AllSucceed(d.user, |d.charged|, |d.charged| + |d.todo|, defaultPrice, attempts))
    decreases |d.todo|
  {
    if d.todo != [] {
      var n := |d.charged|;
      var a := attempts(d.user, n);
      var (l1, d1, go) := Record(l, d, PricePerMinute(a.lookup, defaultPrice), a.insertion);
      assert go <==> Succeeds(a, defaultPrice);
      if go {
        RecordingOnlyRows(l1, d1, defaultPrice, attempts);
        assert AllSucceed(d.user, n, n + |d.todo|, defaultPrice, attempts)
          <==> AllSucceed(d.user, n + 1, n + |d.todo|, defaultPrice, attempts);
      }
    }
  }

  /** The rows of a debit that gets through follow those it had, one per event, and are added up. */
  ghost predicate Recorded(d: Debit, d': Debit, defaultPrice: real, attempts: (string, nat) -> Attempt) {
    var n := |d.charged|;
    && d'.user == d.user && d'.todo == []
    && |d'.charged| == n + |d.todo| && d.charged == d'.charged[..n]
    && (forall k :: n <= k < |d'.charged| ==>
          IsRow(d'.charged[k], d.todo[k - n], attempts(d.user, k), defaultPrice))
    && d'.total - d.total == Sum(RowCost, d'.charged) - Sum(RowCost, d.charged)
  }

  lemma RecordedNext(d: Debit, d1: Debit, d': Debit, row: Row, defaultPrice: real, attempts: (string, nat) -> Attempt)
    requires d.todo != [] && Recorded(d1, d', defaultPrice, attempts)
    requires d1 == Debit(d.user, d.todo[1..], d.charged + [row], d.total + row.cost)
    requires IsRow(row, d.todo[0], attempts(d.user, |d.charged|), defaultPrice)
    ensures Recorded(d, d', defaultPrice, attempts)
  {
    SumAppend(RowCost, d.charged, row);
    assert d.charged == d1.charged[..|d.charged|] == d'.charged[..|d.charged|];
    assert d'.charged[|d.charged|] == d1.charged[|d.charged|] == row;
  }

  lemma {:induction false} RecordingCharges(
    l: Ledger, d: Debit, defaultPrice: real, attempts: (string, nat) -> Attempt)
    requires RecordAll(l, d, defaultPrice, attempts).2
    ensures Recorded(d, RecordAll(l, d, defaultPrice, attempts).1, defaultPrice, attempts)
    decreases |d.todo|
  {
    if d.todo == [] {
      assert d.charged == d.charged[..|d.charged|];
    } else {
      var a := attempts(d.user, |d.charged|);
      var (l1, d1, _) := Record(l, d, PricePerMinute(a.lookup, defaultPrice), a.insertion);
      RecordingCharges(l1, d1, defaultPrice, attempts);
      var d' := RecordAll(l1, d1, defaultPrice, attempts).1;
      RecordedNext(d, d1, d', d1.charged[|d.charged|], defaultPrice, attempts);
    }
  }

  /** A debit with a failing lookup or insert charges nobody anything, and reports it. */
  lemma FailedDebitChargesNothing(
    l: Ledger, user: string, events: seq<Event>, defaultPrice: real,
    attempts: (string, nat) -> Attempt, settlement: Settlement)
    requires !AllSucceed(user, 0, |events|, defaultPrice, attempts)
    ensures var (l', ok) := DebitOf(l, user, events, defaultPrice, attempts, settlement);
            !ok && l'.balances == l.balances && l'.txs == l.txs && l'.settled == l.settled
  {
    RecordingOnlyRows(l, Opened(user, events), defaultPrice, attempts);
  }

  /** What the wallet update and the transaction of some charged rows come to. */
  ghost predicate ChargesFor(l: Ledger, l': Ledger, ok: bool, user: string, charged: seq<Row>, settlement: Settlement) {
    var total := Sum(RowCost, charged);
    var due := total > 0.0;
    var taken := due && (settlement.Updated? || settlement.applied);
    && (ok <==> !due || settlement.Updated?)
    && l'.settled == l.settled + (if taken then charged else [])
    && l'.balances.Keys == l.balances.Keys
    && (forall u :: u in l.balances ==>
          && (taken && u == user ==> l'.balances[u] == if l.balances[u] > total then l.balances[u] - total else 0.0)
          && (!taken || u != user ==> l'.balances[u] == l.balances[u]))
    && (due && settlement.Updated? && settlement.recorded ==>
          charged != [] && l'.txs == l.txs + [Tx(user, -total, charged[0].event.request)])
    && (!(due && settlement.Updated? && settlement.recorded) ==> l'.txs == l.txs)
  }

  lemma SettlesFor(l: Ledger, d: Debit, o: Settlement)
    requires d.total == Sum(RowCost, d.charged)
    ensures var (l', ok) := Settle(l, d, o); ChargesFor(l, l', ok, d.user, d.charged, o)
  {}

  /**
    A debit whose events all go through charges the sum of their costs at the prices found, if that
    is positive: the wallet once, cut at zero, and one transaction that names the first request.
   */
  lemma DebitCharges(
    l: Ledger, user: string, events: seq<Event>, defaultPrice: real,
    attempts: (string, nat) -> Attempt, settlement: Settlement) returns (charged: seq<Row>)
    requires AllSucceed(user, 0, |events|, defaultPrice, attempts)
    ensures |charged| == |events|
    ensures forall k :: 0 <= k < |events| ==> IsRow(charged[k], events[k], attempts(user, k), defaultPrice)
    ensures var (l', ok) := DebitOf(l, user, events, defaultPrice, attempts, settlement);
            ChargesFor(l, l', ok, user, charged, settlement)
  {
    var d := Opened(user, events);
    RecordingOnlyRows(l, d, defaultPrice, attempts);
    RecordingCharges(l, d, defaultPrice, attempts);
    var (l1, d', _) := RecordAll(l, d, defaultPrice, attempts);
    charged := d'.charged;
    SettlesFor(l1, d', settlement);
  }

  /** The events of one user, in order, and the rest. */
  function OfUser(user: string, events: seq<Event>): seq<Event> {
    if events == [] then []
    else
      var n := |events| - 1;
      OfUser(user, events[..n]) + if events[n].user == user then [events[n]] else []
  }

  function ExceptUser(user: string, events: seq<Event>): seq<Event> {
    if events == [] then []
    else
      var n := |events| - 1;
      ExceptUser(user, events[..n]) + if events[n].user == user then [] else [events[n]]
  }

  /** Taking out one user's events keeps their order. */
  lemma {:induction false} OfUserConcat(user: string, a: seq<Event>, b: seq<Event>)
    ensures OfUser(user, a + b) == OfUser(user, a) + OfUser(user, b)
    ensures ExceptUser(user, a + b) == ExceptUser(user, a) + ExceptUser(user, b)
  {
    if b == [] {
      assert a + b == a;
    } else {
      OfUserConcat(user, a, b[..|b| - 1]);
      assert (a + b)[..|a + b| - 1] == a + b[..|b| - 1];
    }
  }

  lemma OfUserOne(user: string, e: Event)
    ensures OfUser(user, [e]) == (if e.user == user then [e] else [])
    ensures ExceptUser(user, [e]) == (if e.user == user then [] else [e])
  {
    assert [e][..0] == [];
  }

  /** The faults of one flush, per user. */
  datatype Faults = Faults(attempts: (string, nat) -> Attempt, settlement: string -> Settlement)

  function FlushInOrder(l: Ledger, batch: map<string, seq<Event>>, order: seq<string>,
                        defaultPrice: real, faults: Faults): Ledger
    requires forall i :: 0 <= i < |order| ==> order[i] in batch
  {
    if order == [] then l
    else
      var n := |order| - 1;
      var u := order[n];
      DebitOf(FlushInOrder(l, batch, order[..n], defaultPrice, faults), u, batch[u], defaultPrice,
              faults.attempts, faults.settlement(u)).0
  }

  lemma FlushNext(l: Ledger, batch: map<string, seq<Event>>, order: seq<string>, u: string,
                  defaultPrice: real, faults: Faults)
    requires u in batch && forall i :: 0 <= i < |order| ==> order[i] in batch
    ensures FlushInOrder(l, batch, order + [u], defaultPrice, faults)
         == DebitOf(FlushInOrder(l, batch, order, defaultPrice, faults), u, batch[u], defaultPrice,
                    faults.attempts, faults.settlement(u)).0
  {
    assert (order + [u])[..|order|] == order;
  }

  /** No user comes twice. */
  ghost predicate Distinct(order: seq<string>) {
    forall i, j :: 0 <= i < j < |order| ==> order[i] != order[j]
  }

  // ---------------------------------------------------------------- the consumer

  class Consumer {
    const defaultPrice: real
    var pending: map<string, seq<Event>>
    var ledger: Ledger
    /** Every event received since the last swap, in order of arrival. */
    ghost var arrived: seq<Event>

    ghost predicate Valid()
      reads this
    {
      forall u :: if u in pending then pending[u] == OfUser(u, arrived) && pending[u] != []
                  else OfUser(u, arrived) == []
    }

    constructor (defaultPrice: real, ledger: Ledger)
      ensures Valid() && this.ledger == ledger && arrived == []
    {
      this.defaultPrice, pending, this.ledger, arrived := defaultPrice, map[], ledger, [];
    }

    method OnMessage(e: Event)
      requires Valid()
      modifies this
      ensures Valid()
      ensures arrived == old(arrived) + [e] && ledger == old(ledger)
    {
      var held := if e.user in pending then pending[e.user] else [];
      pending := pending[e.user := held + [e]];
      arrived := arrived + [e];
      assert arrived[..|arrived| - 1] == old(arrived);
    }

    /** Swaps the pending map out and debits its users one after the other, in some order. */
    method Flush(faults: Faults) returns (ghost order: seq<string>)
      requires Valid()
      modifies this
      ensures Valid() && arrived == []
      ensures forall u :: u in order <==> OfUser(u, old(arrived)) != []
      ensures Distinct(order)
      ensures forall u :: u in order ==> u in old(pending) && old(pending)[u] == OfUser(u, old(arrived))
      ensures ledger == FlushInOrder(old(ledger), old(pending), order, defaultPrice, faults)
    {
      var batch := pending;
      assert forall u :: u in batch <==> OfUser(u, arrived) != [];
      pending, arrived := map[], [];
      order := DebitUsers(batch, faults);
    }

    method DebitUsers(batch: map<string, seq<Event>>, faults: Faults) returns (ghost order: seq<string>)
      modifies this`ledger
      ensures forall u :: u in order <==> u in batch
      ensures Distinct(order)
      ensures ledger == FlushInOrder(old(ledger), batch, order, defaultPrice, faults)
    {
      order := [];
      var left := batch.Keys;
      while left != {}
        invariant left <= batch.Keys
        invariant forall u :: u in order <==> u in batch.Keys - left
        invariant Distinct(order)
        invariant forall i :: 0 <= i < |order| ==> order[i] in batch
        invariant ledger == FlushInOrder(old(ledger), batch, order, defaultPrice, faults)
        decreases left
      {
        var u :| u in left;
        left := left - {u};
        var _ := DebitUser(u, batch[u], faults.attempts, faults.settlement(u));
        assert u !in order;
        FlushNext(old(ledger), batch, order, u, defaultPrice, faults);
        order := order + [u];
      }
    }

    method DebitUser(user: string, events: seq<Event>, attempts: (string, nat) -> Attempt, settlement: Settlement)
      returns (ok: bool)
      modifies this`ledger
      ensures (ledger, ok) == DebitOf(old(ledger), user, events, defaultPrice, attempts, settlement)
    {
      var totalCost, charged: seq<Row> := 0.0, [];
      var k := 0;
      while k < |events|
        invariant k <= |events|
        invariant k == 0 ==> totalCost == 0.0
        invariant |charged| == k
        invariant RecordAll(ledger, Debit(user, events[k..], charged, totalCost), defaultPrice, attempts)
               == RecordAll(old(ledger), Opened(user, events), defaultPrice, attempts)
      {
        var e := events[k];
        var a := attempts(user, k);
        var ppm := PricePerMinute(a.lookup, defaultPrice);
        if ppm.None? {
          return false;
        }
        var cost := EventCost(e, ppm.value);
        ghost var round := Record(ledger, Debit(user, events[k..], charged, totalCost), ppm, a.insertion);
        totalCost := totalCost + cost;
        if a.insertion.Inserted? || a.insertion.applied {
          ledger := ledger.(rows := Upsert(ledger.rows, Row(e, cost)));
        }
        charged := charged + [Row(e, cost)];
        assert events[k..][1..] == events[k + 1..];
        assert round == (ledger, Debit(user, events[k + 1..], charged, totalCost), a.insertion.Inserted?);
        if a.insertion.InsertFailed? {
          return false;
        }
        k := k + 1;
      }
      ok := SettleUser(user, charged, totalCost, settlement);
    }

    /** The statements after the loop of debitUser; charged[0] is the row of events[0]. */
    method SettleUser(user: string, charged: seq<Row>, totalCost: real, settlement: Settlement) returns (ok: bool)
      requires totalCost > 0.0 ==> charged != []
      modifies this`ledger
      ensures (ledger, ok) == Settle(old(ledger), Debit(user, [], charged, totalCost), settlement)
    {
      if totalCost <= 0.0 {
        return true;
      }
      if settlement.Updated? || settlement.applied {
        var balances := ledger.balances;
        if user in balances {
          balances := balances[user := Larger(balances[user] - totalCost, 0.0)];
        }
        ledger := Ledger(ledger.rows, balances, ledger.txs, ledger.settled + charged);
      }
      if settlement.UpdateFailed? {
        return false;
      }
      if settlement.recorded {
        ledger := ledger.(txs := ledger.txs + [Tx(user, -totalCost, charged[0].event.request)]);
      }
      ok := true;
    }
  }
}
