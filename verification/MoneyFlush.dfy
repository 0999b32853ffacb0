/**
  A flush of the consumer is a run of steps of the money pipeline: one swap, and for every user a
  debit that begins, inserts statement by statement, and settles if nothing failed. So what the
  runs of the pipeline keep, the consumer's flush keeps.
 */
module MoneyFlush {
  import opened Wrappers
  import opened Billing
  import opened Sums
  import opened Delivery
  import opened Metering
  import opened MoneyPipeline

  /** A run continued from some state. */
  function Steps(s: State, run: seq<Action>, price: string -> real): State
    decreases |run|
  {
    if run == [] then s
    else Steps(if Enabled(s, run[0]) then Step(s, run[0], price) else s, run[1..], price)
  }

  lemma {:induction false} StepsConcat(s: State, a: seq<Action>, b: seq<Action>, price: string -> real)
    ensures Steps(s, a + b, price) == Steps(Steps(s, a, price), b, price)
    decreases |a|
  {
    if a == [] {
      assert a + b == b;
    } else {
      assert (a + b)[1..] == a[1..] + b;
      StepsConcat(if Enabled(s, a[0]) then Step(s, a[0], price) else s, a[1..], b, price);
    }
  }

  lemma {:induction false} AfterSteps(balances: map<string, real>, run: seq<Action>, more: seq<Action>,
                                      price: string -> real)
    ensures After(balances, run + more, price) == Steps(After(balances, run, price), more, price)
    decreases |more|
  {
    if more == [] {
      assert run + more == run;
    } else {
      assert run + more == (run + [more[0]]) + more[1..];
      assert (run + [more[0]])[..|run|] == run;
      AfterSteps(balances, run + [more[0]], more[1..], price);
    }
  }

  /** Lookups yield the user's price or fail. */
  ghost predicate AtPrices(defaultPrice: real, faults: Faults, price: string -> real) {
    forall u, k: nat ::
      var p := PricePerMinute(faults.attempts(u, k).lookup, defaultPrice);
      p == None || p == Some(price(u))
  }

  // ---------------------------------------------------------------- one debit

  /** The statements of a debit under way, up to the first that fails. */
  function DebitSteps(c: nat, d: Debit, defaultPrice: real, attempts: (string, nat) -> Attempt, o: Settlement)
    : seq<Action>
    decreases |d.todo|
  {
    if d.todo == [] then [Settle(c, o)]
    else
      var a := attempts(d.user, |d.charged|);
      var p := PricePerMinute(a.lookup, defaultPrice);
      [Insert(c, p.Some?, a.insertion)]
        + if p.None? || a.insertion.InsertFailed? then []
          else
            var row := Row(d.todo[0], EventCost(d.todo[0], p.value));
            DebitSteps(c, Debit(d.user, d.todo[1..], d.charged + [row], d.total + row.cost), defaultPrice, attempts, o)
  }

  /** The rest of a debit, on the ledger. */
  function DebitRest(l: Ledger, d: Debit, defaultPrice: real, attempts: (string, nat) -> Attempt, o: Settlement)
    : Ledger
  {
    var (l', d', go) := RecordAll(l, d, defaultPrice, attempts);
    if go then Metering.Settle(l', d', o).0 else l'
  }

  /** The ledger and the consumer after a debit; nothing else in the consumer has changed. */
  ghost predicate Concluded(s: State, s': State, c: nat, l: Ledger)
    requires c < |s.workers|
  {
    s'.ledger == l && s'.workers == s.workers[c := s.workers[c].(debit := None)]
  }

  lemma InsertStep(s: State, c: nat, d: Debit, p: Option<real>, insertion: Insertion, price: string -> real)
    requires c < |s.workers| && s.workers[c].debit == Some(d) && d.todo != []
    requires p == None || p == Some(price(d.user))
    ensures
      var a := Insert(c, p.Some?, insertion);
      var (l', d', go) := Record(s.ledger, d, p, insertion);
      && Enabled(s, a)
      && Step(s, a, price).ledger == l'
      && Step(s, a, price).workers == s.workers[c := s.workers[c].(debit := if go then Some(d') else None)]
  {}

  lemma SettleStep(s: State, c: nat, d: Debit, o: Settlement, price: string -> real)
    requires c < |s.workers| && s.workers[c].debit == Some(d) && d.todo == []
    ensures Enabled(s, Settle(c, o))
    ensures Concluded(s, Step(s, Settle(c, o), price), c, Metering.Settle(s.ledger, d, o).0)
  {}

  lemma {:induction false} DebitIsSteps(
    s: State, c: nat, d: Debit, defaultPrice: real, faults: Faults, o: Settlement, price: string -> real)
    requires c < |s.workers| && s.workers[c].debit == Some(d) && AtPrices(defaultPrice, faults, price)
    ensures Concluded(s, Steps(s, DebitSteps(c, d, defaultPrice, faults.attempts, o), price), c,
                     DebitRest(s.ledger, d, defaultPrice, faults.attempts, o))
    decreases |d.todo|
  {
    var run := DebitSteps(c, d, defaultPrice, faults.attempts, o);
    if d.todo == [] {
      SettleStep(s, c, d, o, price);
      assert run[1..] == [];
    } else {
      var a := faults.attempts(d.user, |d.charged|);
      var p := PricePerMinute(a.lookup, defaultPrice);
      InsertStep(s, c, d, p, a.insertion, price);
      var s1 := Step(s, run[0], price);
      var (l1, d1, go) := Record(s.ledger, d, p, a.insertion);
      if go {
        DebitIsSteps(s1, c, d1, defaultPrice, faults, o, price);
        assert run[1..] == DebitSteps(c, d1, defaultPrice, faults.attempts, o);
        assert s1.workers[c := s1.workers[c].(debit := None)] == s.workers[c := s.workers[c].(debit := None)];
      } else {
        assert run[1..] == [];
      }
    }
  }

  // ---------------------------------------------------------------- a whole flush

  function UserSteps(c: nat, user: string, events: seq<Event>, defaultPrice: real, faults: Faults): seq<Action> {
    [Begin(c, user)]
      + DebitSteps(c, Opened(user, events), defaultPrice, faults.attempts, faults.settlement(user))
  }

  function UsersSteps(c: nat, batch: map<string, seq<Event>>, order: seq<string>, defaultPrice: real, faults: Faults)
    : seq<Action>
    requires forall i :: 0 <= i < |order| ==> order[i] in batch
  {
    if order == [] then []
    else
      var n := |order| - 1;
      UsersSteps(c, batch, order[..n], defaultPrice, faults)
        + UserSteps(c, order[n], batch[order[n]], defaultPrice, faults)
  }

  /** The swap, and then the debits of the users in order. */
  function FlushSteps(c: nat, batch: map<string, seq<Event>>, order: seq<string>, defaultPrice: real, faults: Faults)
    : seq<Action>
    requires forall i :: 0 <= i < |order| ==> order[i] in batch
  {
    [Swap(c)] + UsersSteps(c, batch, order, defaultPrice, faults)
  }

  /** What is left of a batch once some users are debited. */
  function Undebited(events: seq<Event>, order: seq<string>): seq<Event> {
    if order == [] then events else ExceptUser(order[|order| - 1], Undebited(events, order[..|order| - 1]))
  }

  lemma {:induction false} OthersStay(u: string, v: string, events: seq<Event>)
    requires u != v
    ensures OfUser(u, ExceptUser(v, events)) == OfUser(u, events)
  {
    if events != [] {
      var n := |events| - 1;
      OthersStay(u, v, events[..n]);
      OfUserConcat(u, ExceptUser(v, events[..n]), if events[n].user == v then [] else [events[n]]);
      OfUserOne(u, events[n]);
    }
  }

  lemma {:induction false} NotYetDebited(u: string, events: seq<Event>, order: seq<string>)
    requires u !in order
    ensures OfUser(u, Undebited(events, order)) == OfUser(u, events)
  {
    if order != [] {
      var n := |order| - 1;
      NotYetDebited(u, events, order[..n]);
      OthersStay(u, order[n], Undebited(events, order[..n]));
    }
  }

  lemma UserIsSteps(s: State, c: nat, user: string, events: seq<Event>, defaultPrice: real, faults: Faults,
                    price: string -> real)
    requires c < |s.workers| && s.workers[c].debit == None && AtPrices(defaultPrice, faults, price)
    requires events != [] && events == OfUser(user, s.workers[c].batch)
    ensures
      var s' := Steps(s, UserSteps(c, user, events, defaultPrice, faults), price);
      && s'.ledger == DebitOf(s.ledger, user, events, defaultPrice, faults.attempts, faults.settlement(user)).0
      && s'.workers == s.workers[c := s.workers[c].(batch := ExceptUser(user, s.workers[c].batch))]
  {
    var w := s.workers[c];
    var s1 := Step(s, Begin(c, user), price);
    var run := UserSteps(c, user, events, defaultPrice, faults);
    var d := Opened(user, events);
    assert run[1..] == DebitSteps(c, d, defaultPrice, faults.attempts, faults.settlement(user));
    DebitIsSteps(s1, c, d, defaultPrice, faults, faults.settlement(user), price);
    assert s1.workers[c := s1.workers[c].(debit := None)]
        == s.workers[c := w.(batch := ExceptUser(user, w.batch))];
  }

  /** The consumer's own batch: each user's events, taken out of those that arrived. */
  ghost predicate Swapped(batch: map<string, seq<Event>>, events: seq<Event>, order: seq<string>) {
    && Distinct(order)
    && forall i :: 0 <= i < |order| ==>
         && order[i] in batch && batch[order[i]] == OfUser(order[i], events) && batch[order[i]] != []
  }

  lemma {:induction false} UsersAreSteps(
    s: State, c: nat, batch: map<string, seq<Event>>, events: seq<Event>, order: seq<string>,
    defaultPrice: real, faults: Faults, price: string -> real)
    requires c < |s.workers| && s.workers[c] == Worker(s.workers[c].pending, events, None)
    requires Swapped(batch, events, order) && AtPrices(defaultPrice, faults, price)
    ensures
      var s' := Steps(s, UsersSteps(c, batch, order, defaultPrice, faults), price);
      && s'.ledger == FlushInOrder(s.ledger, batch, order, defaultPrice, faults)
      && s'.workers == s.workers[c := s.workers[c].(batch := Undebited(events, order))]
    decreases |order|
  {
    if order == [] {
      assert s.workers[c := s.workers[c].(batch := events)] == s.workers;
    } else {
      var n := |order| - 1;
      var u := order[n];
      UsersAreSteps(s, c, batch, events, order[..n], defaultPrice, faults, price);
      var before := Steps(s, UsersSteps(c, batch, order[..n], defaultPrice, faults), price);
      assert u !in order[..n];
      NotYetDebited(u, events, order[..n]);
      UserIsSteps(before, c, u, batch[u], defaultPrice, faults, price);
      StepsConcat(s, UsersSteps(c, batch, order[..n], defaultPrice, faults),
                  UserSteps(c, u, batch[u], defaultPrice, faults), price);
    }
  }

  lemma SomeElement(events: seq<Event>)
    ensures events != [] ==> exists e :: e in events
  {
    if events != [] {
      assert events[0] in events;
    }
  }

  lemma NoneLeft(events: seq<Event>, order: seq<string>)
    requires forall e :: e in events ==> e.user in order
    ensures Undebited(events, order) == []
  {
    StillUndebited(events, order);
    SomeElement(Undebited(events, order));
  }

  lemma {:induction false} StillUndebited(events: seq<Event>, order: seq<string>)
    ensures forall e :: e in Undebited(events, order) ==> e in events && e.user !in order
  {
    if order != [] {
      var n := |order| - 1;
      StillUndebited(events, order[..n]);
      OnlyOthers(order[n], Undebited(events, order[..n]));
      assert order == order[..n] + [order[n]];
    }
  }

  lemma {:induction false} OnlyOthers(u: string, events: seq<Event>)
    ensures forall e :: e in ExceptUser(u, events) ==> e in events && e.user != u
  {
    if events != [] {
      OnlyOthers(u, events[..|events| - 1]);
    }
  }

  lemma {:induction false} HasEvents(events: seq<Event>, e: Event)
    requires e in events
    ensures OfUser(e.user, events) != []
  {
    var n := |events| - 1;
    if e != events[n] {
      assert e in events[..n];
      HasEvents(events[..n], e);
    }
  }

  /**
    The flush of a consumer, seen from the pipeline: in every reachable state, from a consumer that
    has `events` in its pending map, the steps of a flush leave the ledger that Consumer.Flush
    leaves, and the consumer with nothing in hand.
   */
  lemma FlushIsSteps(
    balances: map<string, real>, run: seq<Action>, price: string -> real, c: nat,
    batch: map<string, seq<Event>>, events: seq<Event>, order: seq<string>, defaultPrice: real, faults: Faults)
    requires c < |After(balances, run, price).workers|
    requires After(balances, run, price).workers[c] == Worker(events, [], None)
    requires Swapped(batch, events, order) && AtPrices(defaultPrice, faults, price)
    requires forall u :: u in order <==> OfUser(u, events) != []
    ensures
      var s := After(balances, run, price);
      var s' := After(balances, run + FlushSteps(c, batch, order, defaultPrice, faults), price);
      && s'.ledger == FlushInOrder(s.ledger, batch, order, defaultPrice, faults)
      && s'.workers == s.workers[c := IDLE]
  {
    var s := After(balances, run, price);
    var steps := FlushSteps(c, batch, order, defaultPrice, faults);
    AfterSteps(balances, run, steps, price);
    var s1 := Step(s, Swap(c), price);
    assert steps[1..] == UsersSteps(c, batch, order, defaultPrice, faults);
    assert s1.workers[c] == Worker([], events, None);
    UsersAreSteps(s1, c, batch, events, order, defaultPrice, faults, price);
    forall e | e in events
      ensures e.user in order
    {
      HasEvents(events, e);
    }
    NoneLeft(events, order);
  }
}
