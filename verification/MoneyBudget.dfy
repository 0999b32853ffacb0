/**
  The delivery budget against the wallet: how far a request can out-run the balance it was
  admitted on, when debits settle behind it in any order.
 */
module MoneyBudget {
  import opened Wrappers
  import opened Billing
  import opened Sums
  import opened Seqs
  import opened Delivery
  import opened Metering
  import opened MoneyPipeline
  import opened MoneyConservation
  import opened MoneySafety

  // ---------------------------------------------------------------- wallet versions

  ghost predicate NonNegative(balances: map<string, real>) {
    forall u :: u in balances ==> balances[u] >= 0.0
  }

  ghost predicate Shrinks(a: Version, b: Version) {
    && a.settled <= b.settled
    && forall u :: u in a.balances ==> u in b.balances && b.balances[u] <= a.balances[u]
  }

  /** Wallets only shrink from version to version, and the last version is the current one. */
  ghost predicate Versioned(s: State) {
    && s.versions != []
    && s.versions[|s.versions| - 1] == Version(s.ledger.balances, |s.ledger.settled|)
    && NonNegative(s.ledger.balances)
    && forall j, k :: 0 <= j <= k < |s.versions| ==> Shrinks(s.versions[j], s.versions[k])
  }

  lemma SettleShrinks(s: State, a: Action, price: string -> real)
    requires Versioned(s) && a.Settle? && Enabled(s, a)
    ensures Versioned(Step(s, a, price))
    ensures s.ledger.settled <= Step(s, a, price).ledger.settled
  {
    var s' := Step(s, a, price);
    var n := |s.versions|;
    assert Shrinks(s.versions[n - 1], s'.versions[n]);
    forall j | 0 <= j < n
      ensures Shrinks(s'.versions[j], s'.versions[n])
    {
      assert Shrinks(s.versions[j], s.versions[n - 1]);
    }
  }

  // ---------------------------------------------------------------- one request

  /** The balance of the oldest row the request has been given. */
  function Ceiling(s: State, m: Stream): real
    requires m.oldest < |s.versions|
  {
    if m.User() in s.versions[m.oldest].balances then s.versions[m.oldest].balances[m.User()] else 0.0
  }

  /** The wallet version `k` has lost at least the request's own debits since its admission. */
  ghost predicate BackedAt(s: State, m: Stream, k: nat)
    requires k < |s.versions|
  {
    && m.User() in s.versions[k].balances
    && s.versions[k].balances[m.User()]
         <= Larger(m.opening - Debited(s, m.User(), m.Request(), s.versions[k].settled), 0.0)
  }

  /** Nothing of the request had been settled when it was admitted. */
  ghost predicate UndebitedAt(s: State, m: Stream, k: nat)
    requires k < |s.versions|
  {
    Debited(s, m.User(), m.Request(), s.versions[k].settled) == 0.0
  }

  ghost predicate Backed(s: State, m: Stream) {
    && m.oldest <= m.version < |s.versions|
    && m.User() in s.versions[m.oldest].balances
    && m.User() in s.versions[m.version].balances
    && 0.0 < m.opening == s.versions[m.version].balances[m.User()] <= Ceiling(s, m)
    && (forall k :: 0 <= k <= m.version ==> UndebitedAt(s, m, k))
    && (forall k :: m.version <= k < |s.versions| ==> BackedAt(s, m, k))
  }

  /** How delivered cost, budget and slack relate, by the mode of the request. */
  ghost predicate Within(m: Stream, price: real, ceiling: real) {
    var x := m.session;
    var cost := CostForSeconds(x.delivered, price);
    && x.delivered >= 0.0
    && 0.0 <= m.slack <= cost
    && (x.mode == HttpStream ==> cost < ceiling + m.slack)
    && (x.mode == HttpAsync ==> cost <= m.opening && m.slack == 0.0 && m.oldest == m.version)
    && (x.open ==>
          && cost + x.budget <= ceiling + m.slack
          && (x.mode == HttpAsync ==> cost + x.budget <= m.opening && x.budget >= 0.0)
          && (x.snap.price == price || (x.mode == HttpStream && x.budget == 0.0 && x.snap == ZERO_SNAPSHOT)))
  }

  lemma ChunkWithin(m: Stream, price: real, ceiling: real, bytes: nat, rate: int, writeOk: bool, t: Clock)
    requires Within(m, price, ceiling) && m.session.open && price >= 0.0
    ensures Within(m.(session := m.session.Chunk(bytes, rate, writeOk, t).0), price, ceiling)
  {
    CostIsAdditive(m.session.delivered, SecondsFromPCM(bytes, rate), price);
  }

  /** The request after a refresh that returned row `v`. */
  function Refreshed(s: State, m: Stream, v: nat, price: real): Stream
    requires v < |s.versions| && m.User() in s.versions[v].balances
  {
    var undebited := CostForSeconds(m.session.delivered, price)
                     - Debited(s, m.User(), m.Request(), s.versions[v].settled);
    m.(session := m.session.Rebase(Some(WalletSnapshot(s.versions[v].balances[m.User()], price))),
       oldest := if v < m.oldest then v else m.oldest,
       slack := Larger(m.slack, undebited))
  }

  /** Backing is about the request and its admission, not about what it was given since. */
  lemma BackedSince(s: State, m: Stream, m': Stream)
    requires Backed(s, m) && m'.version == m.version && m'.opening == m.opening
    requires m'.User() == m.User() && m'.Request() == m.Request()
    ensures forall k :: 0 <= k <= m.version ==> UndebitedAt(s, m', k)
    ensures forall k :: m.version <= k < |s.versions| ==> BackedAt(s, m', k)
  {
    forall k | 0 <= k <= m.version
      ensures UndebitedAt(s, m', k)
    {
      assert UndebitedAt(s, m, k);
    }
    forall k | m.version <= k < |s.versions|
      ensures BackedAt(s, m', k)
    {
      assert BackedAt(s, m, k);
    }
  }

  /** What a row holds, whenever it is from: nothing of the request was debited before its admission. */
  lemma RowIsBacked(s: State, m: Stream, v: nat, ceiling: real)
    requires Versioned(s) && Backed(s, m) && v < |s.versions| && m.User() in s.versions[v].balances
    requires ceiling >= m.opening && (v < m.version ==> ceiling >= s.versions[v].balances[m.User()])
    ensures s.versions[v].balances[m.User()]
         <= Larger(ceiling - Debited(s, m.User(), m.Request(), s.versions[v].settled), 0.0)
  {
    if v < m.version {
      assert UndebitedAt(s, m, v);
    } else {
      assert BackedAt(s, m, v);
    }
  }

  lemma RefreshBacked(s: State, m: Stream, v: nat, price: real)
    requires Versioned(s) && Backed(s, m) && v < |s.versions| && m.User() in s.versions[v].balances
    ensures Backed(s, Refreshed(s, m, v, price))
    ensures Ceiling(s, Refreshed(s, m, v, price)) >= Ceiling(s, m)
    ensures s.versions[v].balances[m.User()]
         <= Larger(Ceiling(s, Refreshed(s, m, v, price))
                     - Debited(s, m.User(), m.Request(), s.versions[v].settled), 0.0)
  {
    var m' := Refreshed(s, m, v, price);
    assert Shrinks(s.versions[m'.oldest], s.versions[m.oldest]);
    assert Shrinks(s.versions[m'.oldest], s.versions[v]);
    BackedSince(s, m, m');
    RowIsBacked(s, m, v, Ceiling(s, m'));
  }

  lemma RefreshWithin(s: State, m: Stream, price: real, v: nat)
    requires Versioned(s) && Backed(s, m) && v < |s.versions| && m.User() in s.versions[v].balances
    requires Within(m, price, Ceiling(s, m)) && m.session.open && m.session.mode == HttpStream
    requires Debited(s, m.User(), m.Request(), s.versions[v].settled) >= 0.0
    ensures Within(Refreshed(s, m, v, price), price, Ceiling(s, Refreshed(s, m, v, price)))
  {
    RefreshBacked(s, m, v, price);
  }

  ghost predicate StreamBounded(s: State, m: Stream, price: string -> real) {
    Backed(s, m) && Within(m, price(m.User()), Ceiling(s, m))
  }

  ghost predicate Bounded(s: State, price: string -> real) {
    forall i :: 0 <= i < |s.streams| ==> StreamBounded(s, s.streams[i], price)
  }

  // ---------------------------------------------------------------- steps

  lemma SettledIsIssued(s: State, x: Row)
    requires Traced(s) && Issued(s) && OncePerRow(s) && x in s.ledger.settled
    ensures x in s.ledger.rows
    ensures exists i :: 0 <= i < |s.streams| && IssuedBy(x.event, s.streams[i].session.coal)
  {
    assert x in multiset(s.ledger.settled);
    assert multiset(s.ledger.settled)[x] + multiset(Charged(s))[x] <= multiset(s.ledger.rows)[x];
    assert x in multiset(s.ledger.rows);
    var k :| 0 <= k < |s.ledger.rows| && s.ledger.rows[k] == x;
    assert Events(s.ledger.rows)[k] == x.event;
    RowsArePublished(s);
    assert x.event in s.published;
  }

  /** No settled row belongs to a request that has not been admitted. */
  lemma NotYetDebited(s: State, u: string, r: string, n: nat)
    requires Traced(s) && Issued(s) && OncePerRow(s)
    requires forall i :: 0 <= i < |s.streams| ==> s.streams[i].Request() != r
    ensures Debited(s, u, r, n) == 0.0
  {
    var rows := if n <= |s.ledger.settled| then s.ledger.settled[..n] else s.ledger.settled;
    forall x | x in rows
      ensures RequestCost(u, r)(x) == 0.0
    {
      SettledIsIssued(s, x);
      var i :| 0 <= i < |s.streams| && IssuedBy(x.event, s.streams[i].session.coal);
      assert s.streams[i].Request() != r;
    }
    SumIsZero(RequestCost(u, r), rows);
  }

  lemma AdmitBounded(s: State, a: Action, price: string -> real)
    requires Traced(s) && Issued(s) && Priced(s, price) && OncePerRow(s)
    requires Versioned(s) && Bounded(s, price) && a.Admit? && Enabled(s, a)
    ensures Bounded(Step(s, a, price), price)
  {
    var s' := Step(s, a, price);
    var m := s'.streams[|s.streams|];
    forall k | 0 <= k < |s.versions|
      ensures UndebitedAt(s', m, k)
      ensures a.version <= k ==> BackedAt(s', m, k)
    {
      NotYetDebited(s, m.User(), m.Request(), s.versions[k].settled);
      assert a.version <= k ==> Shrinks(s.versions[a.version], s.versions[k]);
    }
    assert Backed(s', m);
    forall i | 0 <= i < |s.streams|
      ensures StreamBounded(s', s'.streams[i], price)
    {
      BoundedKeeps(s, s', s.streams[i], price);
    }
  }

  /** Backing depends only on the versions and the settled rows. */
  lemma BackedKeeps(s: State, s': State, m: Stream, m': Stream)
    requires Backed(s, m) && s'.versions == s.versions && s'.ledger.settled == s.ledger.settled
    requires m'.version == m.version && m'.oldest == m.oldest && m'.opening == m.opening
    requires m'.User() == m.User() && m'.Request() == m.Request()
    ensures Backed(s', m') && Ceiling(s', m') == Ceiling(s, m)
  {
    assert forall k :: 0 <= k <= m.version ==> UndebitedAt(s, m, k) && UndebitedAt(s', m', k);
    assert forall k :: m.version <= k < |s.versions| ==> BackedAt(s, m, k) && BackedAt(s', m', k);
  }

  lemma BoundedKeeps(s: State, s': State, m: Stream, price: string -> real)
    requires StreamBounded(s, m, price) && s'.versions == s.versions && s'.ledger.settled == s.ledger.settled
    ensures StreamBounded(s', m, price)
  {
    BackedKeeps(s, s', m, m);
  }

  /** A step that replaces one request needs to look at that request only. */
  lemma ReplacedBounded(s: State, s': State, i: nat, m: Stream, price: string -> real)
    requires Bounded(s, price) && i < |s.streams|
    requires s'.streams == s.streams[i := m]
    requires s'.versions == s.versions && s'.ledger.settled == s.ledger.settled
    requires StreamBounded(s, m, price)
    ensures Bounded(s', price)
  {
    forall k | 0 <= k < |s'.streams|
      ensures StreamBounded(s', s'.streams[k], price)
    {
      BoundedKeeps(s, s', s'.streams[k], price);
    }
  }

  /** A chunk or a flush keeps what a request is backed by. */
  lemma SessionBounded(s: State, i: nat, x: Session, price: string -> real)
    requires Bounded(s, price) && i < |s.streams|
    requires x.coal.user == s.streams[i].User() && x.coal.request == s.streams[i].Request()
    requires Within(s.streams[i].(session := x), price(x.coal.user), Ceiling(s, s.streams[i]))
    ensures StreamBounded(s, s.streams[i].(session := x), price)
  {
    assert StreamBounded(s, s.streams[i], price);
    BackedKeeps(s, s, s.streams[i], s.streams[i].(session := x));
  }

  lemma ChunkBounded(s: State, a: Action, price: string -> real)
    requires Bounded(s, price) && a.Chunk? && Enabled(s, a) && price(s.streams[a.i].User()) >= 0.0
    ensures Bounded(Step(s, a, price), price)
  {
    var m := s.streams[a.i];
    assert StreamBounded(s, m, price);
    ChunkWithin(m, price(m.User()), Ceiling(s, m), a.bytes, a.sampleRate, a.writeOk, a.t);
    var x := m.session.Chunk(a.bytes, a.sampleRate, a.writeOk, a.t).0;
    SessionBounded(s, a.i, x, price);
    ReplacedBounded(s, Step(s, a, price), a.i, m.(session := x), price);
  }

  lemma FinishBounded(s: State, a: Action, price: string -> real)
    requires Bounded(s, price) && a.Finish? && Enabled(s, a)
    ensures Bounded(Step(s, a, price), price)
  {
    var m := s.streams[a.i];
    assert StreamBounded(s, m, price);
    var x := m.session.Finish(a.t).0;
    SessionBounded(s, a.i, x, price);
    ReplacedBounded(s, Step(s, a, price), a.i, m.(session := x), price);
  }

  lemma DebitedNonNegative(s: State, u: string, r: string, n: nat)
    requires forall x :: x in s.ledger.settled ==> x.cost >= 0.0
    ensures Debited(s, u, r, n) >= 0.0
  {
    var rows := if n <= |s.ledger.settled| then s.ledger.settled[..n] else s.ledger.settled;
    SumNonNegative(RequestCost(u, r), rows);
  }

  lemma RefreshedBounded(s: State, m: Stream, v: nat, price: string -> real)
    requires Versioned(s) && StreamBounded(s, m, price) && m.session.open && m.session.mode == HttpStream
    requires v < |s.versions| && m.User() in s.versions[v].balances
    requires forall x :: x in s.ledger.settled ==> x.cost >= 0.0
    ensures StreamBounded(s, Refreshed(s, m, v, price(m.User())), price)
  {
    DebitedNonNegative(s, m.User(), m.Request(), s.versions[v].settled);
    RefreshWithin(s, m, price(m.User()), v);
    RefreshBacked(s, m, v, price(m.User()));
  }

  lemma RefreshStep(s: State, a: Action, price: string -> real)
    requires a.Refresh? && a.row.Some? && Enabled(s, a)
    ensures var m := s.streams[a.i];
            Step(s, a, price) == s.(streams := s.streams[a.i := Refreshed(s, m, a.row.value, price(m.User()))])
  {}

  lemma RowRefreshBounded(s: State, a: Action, price: string -> real)
    requires Versioned(s) && Bounded(s, price) && a.Refresh? && a.row.Some? && Enabled(s, a)
    requires forall x :: x in s.ledger.settled ==> x.cost >= 0.0
    ensures Bounded(Step(s, a, price), price)
  {
    var m := s.streams[a.i];
    assert StreamBounded(s, m, price);
    RefreshedBounded(s, m, a.row.value, price);
    RefreshStep(s, a, price);
    ReplacedBounded(s, Step(s, a, price), a.i, Refreshed(s, m, a.row.value, price(m.User())), price);
  }

  lemma FailedRefreshBounded(s: State, a: Action, price: string -> real)
    requires Bounded(s, price) && a.Refresh? && a.row.None? && Enabled(s, a)
    ensures Bounded(Step(s, a, price), price)
  {
    var m := s.streams[a.i];
    assert StreamBounded(s, m, price);
    SessionBounded(s, a.i, m.session.Rebase(None), price);
    ReplacedBounded(s, Step(s, a, price), a.i, m.(session := m.session.Rebase(None)), price);
  }

  /** Settling appends to the settled rows, so what an old version says does not change. */
  lemma OlderBacked(s: State, s': State, m: Stream, k: nat)
    requires k < |s.versions|
    requires s.versions <= s'.versions && s.ledger.settled <= s'.ledger.settled
    requires s.versions[k].settled <= |s.ledger.settled|
    ensures BackedAt(s, m, k) ==> BackedAt(s', m, k)
    ensures UndebitedAt(s, m, k) ==> UndebitedAt(s', m, k)
  {
    var n := s.versions[k].settled;
    assert s'.ledger.settled[..n] == s.ledger.settled[..n];
  }

  /** The wallet has lost at least the request's own debits. */
  ghost predicate LedgerBacked(l: Ledger, u: string, r: string, opening: real) {
    u in l.balances && l.balances[u] <= Larger(opening - Sum(RequestCost(u, r), l.settled), 0.0)
  }

  /** The wallet a debit leaves behind, against the balance the request was admitted on. */
  lemma NewestBacked(l: Ledger, d: Debit, o: Settlement, u: string, r: string, opening: real)
    requires LedgerBacked(l, u, r, opening)
    requires forall x :: x in d.charged ==> x.event.user == d.user && x.cost >= 0.0
    requires d.total == Sum(UserCost(d.user), d.charged)
    ensures LedgerBacked(Metering.Settle(l, d, o).0, u, r, opening)
  {
    OwnShare(l, d, u, r);
  }

  lemma DebitedAll(s: State, u: string, r: string)
    ensures Debited(s, u, r, |s.ledger.settled|) == Sum(RequestCost(u, r), s.ledger.settled)
  {
    assert s.ledger.settled[..|s.ledger.settled|] == s.ledger.settled;
  }

  /** Backing by the newest version, in terms of the ledger. */
  lemma BackedByLedger(s: State, m: Stream)
    requires s.versions != []
    requires s.versions[|s.versions| - 1] == Version(s.ledger.balances, |s.ledger.settled|)
    ensures BackedAt(s, m, |s.versions| - 1) <==> LedgerBacked(s.ledger, m.User(), m.Request(), m.opening)
  {
    DebitedAll(s, m.User(), m.Request());
  }

  lemma SettledLedger(s: State, a: Action, price: string -> real, u: string, r: string, opening: real)
    requires Priced(s, price) && a.Settle? && Enabled(s, a) && LedgerBacked(s.ledger, u, r, opening)
    requires forall x :: x in s.workers[a.c].Charged() ==> x.cost >= 0.0
    ensures LedgerBacked(Step(s, a, price).ledger, u, r, opening)
  {
    assert WorkerPriced(s.workers[a.c], price);
    NewestBacked(s.ledger, s.workers[a.c].debit.value, a.settlement, u, r, opening);
  }

  lemma SettledVersions(s: State, a: Action, price: string -> real)
    requires a.Settle? && Enabled(s, a)
    ensures var s' := Step(s, a, price);
            s'.versions == s.versions + [Version(s'.ledger.balances, |s'.ledger.settled|)]
  {}

  lemma NewestBackedAt(s: State, a: Action, m: Stream, price: string -> real)
    requires Versioned(s) && Priced(s, price) && a.Settle? && Enabled(s, a)
    requires BackedAt(s, m, |s.versions| - 1)
    requires forall x :: x in s.workers[a.c].Charged() ==> x.cost >= 0.0
    ensures |Step(s, a, price).versions| == |s.versions| + 1
    ensures BackedAt(Step(s, a, price), m, |s.versions|)
  {
    BackedByLedger(s, m);
    SettledLedger(s, a, price, m.User(), m.Request(), m.opening);
    SettledVersions(s, a, price);
    BackedByLedger(Step(s, a, price), m);
  }

  /** A debit takes at least the request's own share from the wallet it was admitted on. */
  lemma SettleBacked(s: State, a: Action, m: Stream, price: string -> real)
    requires Versioned(s) && Priced(s, price) && Backed(s, m) && a.Settle? && Enabled(s, a)
    requires forall x :: x in s.workers[a.c].Charged() ==> x.cost >= 0.0
    ensures Backed(Step(s, a, price), m) && Ceiling(Step(s, a, price), m) == Ceiling(s, m)
  {
    var s' := Step(s, a, price);
    SettleShrinks(s, a, price);
    NewestBackedAt(s, a, m, price);
    forall k | 0 <= k < |s.versions|
      ensures k <= m.version ==> UndebitedAt(s', m, k)
      ensures m.version <= k ==> BackedAt(s', m, k)
    {
      assert Shrinks(s.versions[k], s.versions[|s.versions| - 1]);
      OlderBacked(s, s', m, k);
      assert k <= m.version ==> UndebitedAt(s, m, k);
      assert m.version <= k ==> BackedAt(s, m, k);
    }
  }

  lemma OwnShare(l: Ledger, d: Debit, u: string, r: string)
    requires forall x :: x in d.charged ==> x.event.user == d.user && x.cost >= 0.0
    requires d.total == Sum(UserCost(d.user), d.charged)
    ensures Sum(RequestCost(u, r), l.settled + d.charged)
         <= Sum(RequestCost(u, r), l.settled) + (if u == d.user then d.total else 0.0)
  {
    SumConcat(RequestCost(u, r), l.settled, d.charged);
    if u == d.user {
      SumIsMonotone(RequestCost(u, r), UserCost(u), d.charged);
    } else {
      SumIsZero(RequestCost(u, r), d.charged);
    }
  }

  lemma RowsNonNegative(s: State, price: string -> real)
    requires Traced(s) && Issued(s) && Priced(s, price)
    requires forall u :: price(u) >= 0.0
    ensures forall x :: x in s.ledger.rows ==> x.cost >= 0.0
  {
    RowsArePublished(s);
    forall x | x in s.ledger.rows
      ensures x.cost >= 0.0
    {
      var k :| 0 <= k < |s.ledger.rows| && s.ledger.rows[k] == x;
      assert Events(s.ledger.rows)[k] == x.event;
      CostNonNegative(x.event, price(x.event.user));
    }
  }

  lemma ChargedNonNegative(s: State, price: string -> real)
    requires Traced(s) && Issued(s) && Priced(s, price) && OncePerRow(s)
    requires forall u :: price(u) >= 0.0
    ensures forall x :: x in Charged(s) || x in s.ledger.settled ==> x.cost >= 0.0
  {
    RowsNonNegative(s, price);
    forall x | x in Charged(s) || x in s.ledger.settled
      ensures x.cost >= 0.0
    {
      assert x in multiset(Charged(s)) || x in multiset(s.ledger.settled);
      assert multiset(s.ledger.settled)[x] + multiset(Charged(s))[x] <= multiset(s.ledger.rows)[x];
      assert x in multiset(s.ledger.rows);
    }
  }

  lemma SettleBounded(s: State, a: Action, price: string -> real)
    requires Versioned(s) && Priced(s, price) && Bounded(s, price) && a.Settle? && Enabled(s, a)
    requires forall x :: x in Charged(s) ==> x.cost >= 0.0
    ensures Bounded(Step(s, a, price), price)
  {
    var s' := Step(s, a, price);
    InGather(ChargedOf, s.workers, a.c);
    assert forall x :: x in s.workers[a.c].Charged() ==> x in ChargedOf(s.workers[a.c]);
    forall i | 0 <= i < |s'.streams|
      ensures StreamBounded(s', s'.streams[i], price)
    {
      assert StreamBounded(s, s.streams[i], price);
      SettleBacked(s, a, s.streams[i], price);
    }
  }

  lemma OthersBounded(s: State, a: Action, price: string -> real)
    requires Bounded(s, price) && Enabled(s, a)
    requires !a.Admit? && !a.Chunk? && !a.Refresh? && !a.Finish? && !a.Settle?
    ensures Bounded(Step(s, a, price), price)
  {
    var s' := Step(s, a, price);
    assert s'.streams == s.streams;
    forall i | 0 <= i < |s'.streams|
      ensures StreamBounded(s', s'.streams[i], price)
    {
      BoundedKeeps(s, s', s.streams[i], price);
    }
  }

  lemma StepVersioned(s: State, a: Action, price: string -> real)
    requires Versioned(s) && Enabled(s, a)
    ensures Versioned(Step(s, a, price))
  {
    if a.Settle? {
      SettleShrinks(s, a, price);
    } else {
      OthersVersioned(s, a, price);
    }
  }

  lemma OthersVersioned(s: State, a: Action, price: string -> real)
    requires Versioned(s) && Enabled(s, a) && !a.Settle?
    ensures Versioned(Step(s, a, price))
  {
    var s' := Step(s, a, price);
    assert s'.versions == s.versions;
    assert s'.ledger.balances == s.ledger.balances && s'.ledger.settled == s.ledger.settled;
  }

  lemma StepBounded(s: State, a: Action, price: string -> real)
    requires Traced(s) && Issued(s) && Priced(s, price) && OncePerRow(s)
    requires Versioned(s) && Bounded(s, price) && Enabled(s, a)
    requires forall u :: price(u) >= 0.0
    ensures Bounded(Step(s, a, price), price)
  {
    if a.Admit? {
      AdmitBounded(s, a, price);
    } else if a.Chunk? {
      ChunkBounded(s, a, price);
    } else if a.Refresh? {
      ChargedNonNegative(s, price);
      if a.row.Some? {
        RowRefreshBounded(s, a, price);
      } else {
        FailedRefreshBounded(s, a, price);
      }
    } else if a.Finish? {
      FinishBounded(s, a, price);
    } else if a.Settle? {
      ChargedNonNegative(s, price);
      SettleBounded(s, a, price);
    } else {
      OthersBounded(s, a, price);
    }
  }

  lemma {:induction false} AlwaysBounded(balances: map<string, real>, run: seq<Action>, price: string -> real)
    requires NonNegative(balances) && forall u :: price(u) >= 0.0
    ensures var s := After(balances, run, price); Versioned(s) && Bounded(s, price)
    decreases |run|
  {
    if run != [] {
      var n := |run| - 1;
      AlwaysBounded(balances, run[..n], price);
      AlwaysTraced(balances, run[..n], price);
      AlwaysCharged(balances, run[..n], price);
      var s := After(balances, run[..n], price);
      if Enabled(s, run[n]) {
        StepVersioned(s, run[n], price);
        StepBounded(s, run[n], price);
      }
    }
  }

  // ---------------------------------------------------------------- over-delivery

  /**
    Over-delivery is bounded: in every run the delivered cost of a stream stays strictly below
    the balance of the oldest wallet row it has been given - at admission or by a refresh - plus
    its slack, the largest cost that was delivered but not in the row a refresh returned; and an
    async job, which never refreshes, stays within the balance it was admitted on.
   */
  lemma OverDeliveryBound(balances: map<string, real>, run: seq<Action>, price: string -> real, i: nat)
    requires NonNegative(balances) && forall u :: price(u) >= 0.0
    requires i < |After(balances, run, price).streams|
    ensures
      var s := After(balances, run, price);
      var m := s.streams[i];
      var cost := CostForSeconds(m.session.delivered, price(m.User()));
      && m.oldest <= m.version < |s.versions|
      && if m.session.mode == HttpStream then cost < Ceiling(s, m) + m.slack else cost <= m.opening
  {
    AlwaysBounded(balances, run, price);
    var s := After(balances, run, price);
    assert StreamBounded(s, s.streams[i], price);
  }
}
