/**
  What at-most-once delivery is needed for: the usage ledger ignores a repeated event, the wallet
  debit does not (metering/internal/consumer/consumer.go, debitUser).
 */
module Redelivery {
  import opened Wrappers
  import opened Billing
  import opened Sums
  import opened Metering

  function RecordedCost(rows: seq<Row>): real {
    Sum(RowCost, rows)
  }

  /** No event's key is in the table or repeated in the batch. */
  ghost predicate FreshKeys(rows: seq<Row>, events: seq<Event>) {
    && (forall i :: 0 <= i < |events| ==> !HasKey(rows, events[i].key))
    && (forall i, j :: 0 <= i < j < |events| ==> events[i].key != events[j].key)
  }

  lemma FreshTail(rows: seq<Row>, events: seq<Event>, row: Row)
    requires events != [] && row.event == events[0]
    ensures FreshKeys(rows, events) <==> !HasKey(rows, row.event.key) && FreshKeys(rows + [row], events[1..])
  {
    var rows' := rows + [row];
    assert rows'[|rows|].event.key == events[0].key;
    if FreshKeys(rows, events) {
      forall i | 0 <= i < |events[1..]|
        ensures !HasKey(rows', events[1..][i].key)
      {
        assert events[1..][i] == events[i + 1];
      }
    }
    if !HasKey(rows, row.event.key) && FreshKeys(rows', events[1..]) {
      forall i | 0 <= i < |events|
        ensures !HasKey(rows, events[i].key)
        ensures i > 0 ==> events[i].key != events[0].key
      {
        if i > 0 {
          assert events[i] == events[1..][i - 1];
          assert forall k :: 0 <= k < |rows| ==> rows'[k] == rows[k];
        }
      }
      forall i, j | 0 <= i < j < |events|
        ensures events[i].key != events[j].key
      {
        if i > 0 {
          assert events[i] == events[1..][i - 1] && events[j] == events[1..][j - 1];
        }
      }
    }
  }

  ghost predicate AllAtPrice(user: string, defaultPrice: real, attempts: (string, nat) -> Attempt, price: real) {
    forall k: nat :: attempts(user, k).insertion == Inserted
                  && PricePerMinute(attempts(user, k).lookup, defaultPrice) == Some(price)
  }

  /** Lookups yield the price or fail. */
  ghost predicate FixedPriced(user: string, defaultPrice: real, attempts: (string, nat) -> Attempt, price: real) {
    forall k: nat ::
      var p := PricePerMinute(attempts(user, k).lookup, defaultPrice);
      p == None || p == Some(price)
  }

  /**
    At a fixed positive price and whatever fails, a debit never asks for less than it adds to the
    ledger; one that goes through asks for exactly that if and only if all its events are new.
   */
  lemma {:induction false} ChargedOnceIffFresh(l: Ledger, d: Debit, defaultPrice: real,
                                               attempts: (string, nat) -> Attempt, price: real)
    requires FixedPriced(d.user, defaultPrice, attempts, price) && price > 0.0
    requires forall i :: 0 <= i < |d.todo| ==> d.todo[i].seconds > 0.0
    ensures
      var (l', d', go) := RecordAll(l, d, defaultPrice, attempts);
      && RecordedCost(l'.rows) - RecordedCost(l.rows) <= d'.total - d.total
      && (go ==> (RecordedCost(l'.rows) - RecordedCost(l.rows) == d'.total - d.total <==> FreshKeys(l.rows, d.todo)))
    decreases |d.todo|
  {
    if d.todo != [] {
      var e := d.todo[0];
      var row := Row(e, EventCost(e, price));
      var a := attempts(d.user, |d.charged|);
      var (l1, d1, go) := Record(l, d, PricePerMinute(a.lookup, defaultPrice), a.insertion);
      assert row.cost > 0.0;
      SumAppend(RowCost, l.rows, row);
      FreshTail(l.rows, d.todo, row);
      if go {
        ChargedOnceIffFresh(l1, d1, defaultPrice, attempts, price);
        assert RecordAll(l, d, defaultPrice, attempts) == RecordAll(l1, d1, defaultPrice, attempts);
      }
    }
  }

  /** One minute of audio, delivered twice by the bus: one usage row, but two minutes charged. */
  lemma RedeliveryChargesTwice(attempts: (string, nat) -> Attempt)
    requires AllAtPrice("u", 1.0, attempts, 1.0)
    ensures
      var e := Event("r:1", "u", "r", "http_stream", 60.0, 0);
      var l := Ledger([], map["u" := 10.0], [], []);
      var l' := DebitOf(l, "u", [e, e], 1.0, attempts, Updated(true)).0;
      l'.rows == [Row(e, 1.0)] && l'.balances == map["u" := 8.0] && l'.txs == [Tx("u", -2.0, "r")]
  {
    var e := Event("r:1", "u", "r", "http_stream", 60.0, 0);
    var l := Ledger([], map["u" := 10.0], [], []);
    var x := Row(e, 1.0);
    assert EventCost(e, 1.0) == 1.0;
    var l1 := l.(rows := [x]);
    assert l1.rows[0] == x;
    assert [e, e][1..] == [e] && [e][1..] == [];
    calc {
      RecordAll(l, Opened("u", [e, e]), 1.0, attempts);
      { assert Upsert(l.rows, x) == [x]; }
      RecordAll(l1, Debit("u", [e], [x], 1.0), 1.0, attempts);
      { assert Upsert(l1.rows, x) == [x]; assert [x] + [x] == [x, x]; }
      RecordAll(l1, Debit("u", [], [x, x], 2.0), 1.0, attempts);
    }
  }
}
