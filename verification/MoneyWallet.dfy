/** The wallet rows of the money pipeline, exactly. */
module MoneyWallet {
  import opened Billing
  import opened Sums
  import opened Delivery
  import opened Metering
  import opened MoneyPipeline
  import opened MoneyConservation
  import opened MoneySafety

  /** The wallet is the opening balance less everything settled for the user, cut at zero. */
  ghost predicate Exact(l: Ledger, u: string, opening: real) {
    u in l.balances && l.balances[u] == Larger(opening - Sum(UserCost(u), l.settled), 0.0)
  }

  lemma SettleKeepsExact(l: Ledger, d: Debit, o: Settlement, u: string, opening: real)
    requires Exact(l, u, opening)
    requires forall x :: x in d.charged ==> x.event.user == d.user
    requires d.total == Sum(UserCost(d.user), d.charged)
    ensures Exact(Metering.Settle(l, d, o).0, u, opening)
  {
    SettledBy(l, d, u);
  }

  lemma StepKeepsExact(s: State, a: Action, price: string -> real, u: string, opening: real)
    requires Enabled(s, a) && Priced(s, price) && Exact(s.ledger, u, opening)
    ensures Exact(Step(s, a, price).ledger, u, opening)
  {
    if a.Settle? {
      assert WorkerPriced(s.workers[a.c], price);
      SettleKeepsExact(s.ledger, s.workers[a.c].debit.value, a.settlement, u, opening);
    } else {
      StepKeepsWallets(s, a, price);
    }
  }

  lemma StepKeepsWallets(s: State, a: Action, price: string -> real)
    requires Enabled(s, a) && !a.Settle?
    ensures Step(s, a, price).ledger.balances == s.ledger.balances
    ensures Step(s, a, price).ledger.settled == s.ledger.settled
  {}

  lemma {:induction false} WalletIsExact(
    balances: map<string, real>, run: seq<Action>, price: string -> real, u: string)
    requires u in balances && balances[u] >= 0.0
    ensures Exact(After(balances, run, price).ledger, u, balances[u])
    decreases |run|
  {
    if run != [] {
      var n := |run| - 1;
      WalletIsExact(balances, run[..n], price, u);
      AlwaysCharged(balances, run[..n], price);
      var s := After(balances, run[..n], price);
      if Enabled(s, run[n]) {
        StepKeepsExact(s, run[n], price, u, balances[u]);
      }
    }
  }

  /** The seconds of a request that have left neither its window nor the way to a usage row. */
  function InFlight(s: State, i: nat): real
    requires i < |s.streams|
  {
    var r := s.streams[i].Request();
    s.streams[i].session.coal.OpenSeconds() + Seconds(r, s.bus) + Seconds(r, Pending(s))
      + Seconds(r, Batch(s)) + Seconds(r, Todo(s)) + Seconds(r, s.dropped)
  }

  lemma OwnRows(s: State, i: nat, x: Row)
    requires Traced(s) && Issued(s) && i < |s.streams| && x in s.ledger.rows
    requires x.event.request == s.streams[i].Request()
    ensures x.event.user == s.streams[i].User()
  {
    var k :| 0 <= k < |s.ledger.rows| && s.ledger.rows[k] == x;
    assert Events(s.ledger.rows)[k] == x.event;
    RowsArePublished(s);
    assert x.event in s.published;
    var j :| 0 <= j < |s.streams| && IssuedBy(x.event, s.streams[j].session.coal);
    assert s.streams[j].Request() == s.streams[i].Request();
  }

  lemma OwnRowCost(s: State, i: nat, x: Row, price: string -> real)
    requires Traced(s) && Issued(s) && Priced(s, price) && i < |s.streams| && x in s.ledger.rows
    ensures var u, r := s.streams[i].User(), s.streams[i].Request();
            RequestCost(u, r)(x) == AtPrice(OfRequest(r)(x.event), price(u))
  {
    assert RowPriced(x, price);
    if x.event.request == s.streams[i].Request() {
      OwnRows(s, i, x);
    }
  }

  lemma OwnCost(s: State, i: nat, price: string -> real)
    requires Traced(s) && Issued(s) && Priced(s, price) && i < |s.streams|
    ensures Sum(RequestCost(s.streams[i].User(), s.streams[i].Request()), s.ledger.rows)
         == AtPrice(Seconds(s.streams[i].Request(), Events(s.ledger.rows)), price(s.streams[i].User()))
  {
    var u, r := s.streams[i].User(), s.streams[i].Request();
    forall x | x in s.ledger.rows
      ensures RequestCost(u, r)(x) == AtPrice(OfRequest(r)(x.event), price(u))
    {
      OwnRowCost(s, i, x, price);
    }
    CostOfRows(RequestCost(u, r), OfRequest(r), s.ledger.rows, price(u));
  }

  lemma CostSplits(delivered: real, inFlight: real, recorded: real, p: real)
    requires delivered == inFlight + recorded && delivered >= 0.0
    ensures CostForSeconds(delivered, p) == AtPrice(inFlight, p) + AtPrice(recorded, p)
  {
    AtPriceIsAdditive(inFlight, recorded, p);
  }

  /** What a refresh on the current wallet row finds delivered but not debited. */
  function Undebited(s: State, i: nat, price: string -> real): real
    requires i < |s.streams|
  {
    var m := s.streams[i];
    CostForSeconds(m.session.delivered, price(m.User()))
      - Debited(s, m.User(), m.Request(), |s.ledger.settled|)
  }

  function UnsettledCost(s: State, u: string, r: string): real {
    Sum(RequestCost(u, r), s.ledger.rows) - Sum(RequestCost(u, r), s.ledger.settled)
  }

  /**
    That is exactly the price of the request's audio still in flight or dropped, plus its rows
    that no debit has settled.
   */
  lemma UndebitedIsUnsettled(balances: map<string, real>, run: seq<Action>, price: string -> real, i: nat)
    requires i < |After(balances, run, price).streams|
    ensures
      var s := After(balances, run, price);
      var u, r := s.streams[i].User(), s.streams[i].Request();
      Undebited(s, i, price) == AtPrice(InFlight(s, i), price(u)) + UnsettledCost(s, u, r)
  {
    var s := After(balances, run, price);
    var u, r := s.streams[i].User(), s.streams[i].Request();
    DeliveredIsSplit(balances, run, price, i);
    OwnCostOf(balances, run, price, i);
    UndebitedSplits(s, i, price, Seconds(r, Events(s.ledger.rows)));
  }

  lemma DeliveredIsSplit(balances: map<string, real>, run: seq<Action>, price: string -> real, i: nat)
    requires i < |After(balances, run, price).streams|
    ensures
      var s := After(balances, run, price);
      && s.streams[i].session.delivered == InFlight(s, i) + Seconds(s.streams[i].Request(), Events(s.ledger.rows))
      && s.streams[i].session.delivered >= 0.0
  {
    var s := After(balances, run, price);
    Conservation(balances, run, price, i);
    AlwaysTraced(balances, run, price);
    assert KeptBy(s.streams[i].session, s.published);
  }

  lemma OwnCostOf(balances: map<string, real>, run: seq<Action>, price: string -> real, i: nat)
    requires i < |After(balances, run, price).streams|
    ensures
      var s := After(balances, run, price);
      Sum(RequestCost(s.streams[i].User(), s.streams[i].Request()), s.ledger.rows)
        == AtPrice(Seconds(s.streams[i].Request(), Events(s.ledger.rows)), price(s.streams[i].User()))
  {
    AlwaysTraced(balances, run, price);
    AlwaysCharged(balances, run, price);
    OwnCost(After(balances, run, price), i, price);
  }

  lemma UndebitedSplits(s: State, i: nat, price: string -> real, recorded: real)
    requires i < |s.streams|
    requires s.streams[i].session.delivered == InFlight(s, i) + recorded && s.streams[i].session.delivered >= 0.0
    requires Sum(RequestCost(s.streams[i].User(), s.streams[i].Request()), s.ledger.rows)
          == AtPrice(recorded, price(s.streams[i].User()))
    ensures
      var u, r := s.streams[i].User(), s.streams[i].Request();
      Undebited(s, i, price) == AtPrice(InFlight(s, i), price(u)) + UnsettledCost(s, u, r)
  {
    CostSplits(s.streams[i].session.delivered, InFlight(s, i), recorded, price(s.streams[i].User()));
    assert s.ledger.settled[..|s.ledger.settled|] == s.ledger.settled;
  }
}
