/**
  The order in which a flush goes through its users is Go's map order, which is arbitrary; the
  wallets it leaves behind do not depend on it (metering/internal/consumer/consumer.go, flush).
 */
module FlushOrder {
  import opened Wrappers
  import opened Billing
  import opened Metering

  /** How far a debit gets and what it asks for depend on its own attempts, not on the tables. */
  lemma {:induction false} RecordingIgnoresTables(
    l1: Ledger, l2: Ledger, d: Debit, defaultPrice: real, attempts: (string, nat) -> Attempt)
    ensures var (m1, d1, go1) := RecordAll(l1, d, defaultPrice, attempts);
            var (m2, d2, go2) := RecordAll(l2, d, defaultPrice, attempts);
            && d1 == d2 && go1 == go2 && d1.user == d.user
            && m1.balances == l1.balances && m2.balances == l2.balances
    decreases |d.todo|
  {
    if d.todo != [] {
      var a := attempts(d.user, |d.charged|);
      var price := PricePerMinute(a.lookup, defaultPrice);
      var (n1, e1, go1) := Record(l1, d, price, a.insertion);
      var (n2, e2, go2) := Record(l2, d, price, a.insertion);
      if go1 {
        RecordingIgnoresTables(n1, n2, e1, defaultPrice, attempts);
      }
    }
  }

  /** A user's wallet in a table, if there is one. */
  function WalletOf(l: Ledger, u: string): Option<real> {
    if u in l.balances then Some(l.balances[u]) else None
  }

  lemma SettleOnlyOwnWallet(l1: Ledger, l2: Ledger, d: Debit, o: Settlement, u: string)
    requires WalletOf(l1, u) == WalletOf(l2, u)
    ensures WalletOf(Settle(l1, d, o).0, u) == WalletOf(Settle(l2, d, o).0, u)
    ensures u != d.user ==> WalletOf(Settle(l1, d, o).0, u) == WalletOf(l1, u)
  {}

  lemma DebitOnlyOwnWallet(
    l1: Ledger, l2: Ledger, v: string, events: seq<Event>, defaultPrice: real,
    attempts: (string, nat) -> Attempt, o: Settlement, u: string)
    requires WalletOf(l1, u) == WalletOf(l2, u)
    ensures WalletOf(DebitOf(l1, v, events, defaultPrice, attempts, o).0, u)
         == WalletOf(DebitOf(l2, v, events, defaultPrice, attempts, o).0, u)
    ensures u != v ==> WalletOf(DebitOf(l1, v, events, defaultPrice, attempts, o).0, u) == WalletOf(l1, u)
  {
    RecordingIgnoresTables(l1, l2, Opened(v, events), defaultPrice, attempts);
    var (m1, d, go) := RecordAll(l1, Opened(v, events), defaultPrice, attempts);
    var m2 := RecordAll(l2, Opened(v, events), defaultPrice, attempts).0;
    SettleOnlyOwnWallet(m1, m2, d, o, u);
  }

  /** After a flush, a wallet is what debiting its own user alone would have left. */
  lemma {:induction false} FlushIsPerUser(
    l: Ledger, batch: map<string, seq<Event>>, order: seq<string>, defaultPrice: real, faults: Faults, u: string)
    requires Distinct(order) && forall i :: 0 <= i < |order| ==> order[i] in batch
    ensures u in order ==> u in batch
    ensures WalletOf(FlushInOrder(l, batch, order, defaultPrice, faults), u)
         == if u !in order then WalletOf(l, u)
            else WalletOf(DebitOf(l, u, batch[u], defaultPrice, faults.attempts, faults.settlement(u)).0, u)
  {
    if order != [] {
      var n := |order| - 1;
      var v := order[n];
      var before := FlushInOrder(l, batch, order[..n], defaultPrice, faults);
      FlushIsPerUser(l, batch, order[..n], defaultPrice, faults, u);
      assert v !in order[..n];
      assert order == order[..n] + [v];
      if u == v {
        DebitOnlyOwnWallet(before, l, v, batch[v], defaultPrice, faults.attempts, faults.settlement(v), u);
      } else {
        DebitOnlyOwnWallet(before, before, v, batch[v], defaultPrice, faults.attempts, faults.settlement(v), u);
      }
    }
  }

  /** Two orders of the same users leave every wallet the same. */
  lemma WalletsIgnoreOrder(
    l: Ledger, batch: map<string, seq<Event>>, order1: seq<string>, order2: seq<string>,
    defaultPrice: real, faults: Faults, u: string)
    requires Distinct(order1) && Distinct(order2) && forall v :: v in order1 <==> v in order2
    requires forall i :: 0 <= i < |order1| ==> order1[i] in batch
    requires forall i :: 0 <= i < |order2| ==> order2[i] in batch
    ensures WalletOf(FlushInOrder(l, batch, order1, defaultPrice, faults), u)
         == WalletOf(FlushInOrder(l, batch, order2, defaultPrice, faults), u)
  {
    FlushIsPerUser(l, batch, order1, defaultPrice, faults, u);
    FlushIsPerUser(l, batch, order2, defaultPrice, faults, u);
  }
}
