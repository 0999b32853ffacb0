/**
  The money pipeline as one transition system: HTTP requests that deliver audio against a local
  budget, the bus, any number of metering consumers, and the wallet rows the budgets are re-read
  from. Each step is one callback, one bus event or one database statement, so any interleaving of
  them is a run; publishing, the bus, price lookups and statements may fail at every step, and a
  consumer may stop at any moment.
 */
module MoneyPipeline {
  import opened Wrappers
  import opened Billing
  import opened Sums
  import opened Seqs
  import opened Delivery
  import opened Metering

  /**
    A request with what its bound refers to: the balance it was admitted on, the wallet version
    that balance was read from, the oldest version it has been given since, and the largest
    delivered-but-not-yet-debited cost that a refresh has met so far (zero at admission).
   */
  datatype Stream = Stream(session: Session, opening: real, version: nat, oldest: nat, slack: real) {
    function User(): string { session.coal.user }
    function Request(): string { session.coal.request }
  }

  /**
    One consumer process of the queue group: its pending map, in order of arrival, the swapped-out
    map without the users already debited, and the debit under way.
   */
  datatype Worker = Worker(pending: seq<Event>, batch: seq<Event>, debit: Option<Debit>) {
    function Todo(): seq<Event> { if debit.Some? then debit.value.todo else [] }
    function Charged(): seq<Row> { if debit.Some? then debit.value.charged else [] }
  }

  const IDLE := Worker([], [], None)

  /** The wallets after some debit, with the number of rows settled by then. */
  datatype Version = Version(balances: map<string, real>, settled: nat)

  datatype State = State(
    streams: seq<Stream>,
    published: seq<Event>,      // every event ever handed to the publisher
    bus: seq<Event>,
    workers: seq<Worker>,
    ledger: Ledger,
    dropped: seq<Event>,        // events lost to a failure
    versions: seq<Version>)

  datatype Action =
    | Admit(mode: Mode, user: string, request: string, interval: int, version: nat)
    | Chunk(i: nat, bytes: nat, sampleRate: int, writeOk: bool, publishOk: bool, t: Clock)
    | Refresh(i: nat, row: Option<nat>)
    | Finish(i: nat, publishOk: bool, t: Clock)
    | Lose(j: nat)
    | Join
    | Stop(c: nat)
    | Arrive(j: nat, c: nat)
    | Swap(c: nat)
    | Begin(c: nat, user: string)
    | Insert(c: nat, priceOk: bool, insertion: Insertion)
    | Settle(c: nat, settlement: Settlement)

  function Initial(balances: map<string, real>): State {
    State([], [], [], [], Ledger([], balances, [], []), [], [Version(balances, 0)])
  }

  // ---------------------------------------------------------------- steps

  /** Admission needs a positive cached balance; a refresh may return any row there has been. */
  predicate Enabled(s: State, a: Action) {
    match a
    case Admit(_, user, request, _, v) =>
      && v < |s.versions| && user in s.versions[v].balances && s.versions[v].balances[user] > 0.0
      && forall i :: 0 <= i < |s.streams| ==> s.streams[i].Request() != request
    case Chunk(i, _, _, _, _, _) => i < |s.streams| && s.streams[i].session.open
    case Refresh(i, v) =>
      && i < |s.streams| && s.streams[i].session.open && s.streams[i].session.mode == HttpStream
      && (v.Some? ==> v.value < |s.versions| && s.streams[i].User() in s.versions[v.value].balances)
    case Finish(i, _, _) => i < |s.streams| && !s.streams[i].session.finished
    case Lose(j) => j < |s.bus|
    case Join => true
    case Stop(c) => c < |s.workers|
    case Arrive(j, c) => j < |s.bus| && c < |s.workers|
    case Swap(c) => c < |s.workers| && s.workers[c].batch == [] && s.workers[c].debit.None?
    case Begin(c, user) =>
      c < |s.workers| && s.workers[c].debit.None? && OfUser(user, s.workers[c].batch) != []
    case Insert(c, _, _) => c < |s.workers| && s.workers[c].Todo() != []
    case Settle(c, _) => c < |s.workers| && s.workers[c].debit.Some? && s.workers[c].Todo() == []
  }

  function Emit(s: State, e: Option<Event>, publishOk: bool): State {
    if e.None? then s
    else if publishOk then s.(published := s.published + [e.value], bus := s.bus + [e.value])
    else s.(published := s.published + [e.value], dropped := s.dropped + [e.value])
  }

  function Put(s: State, i: nat, x: Session): State
    requires i < |s.streams|
  {
    s.(streams := s.streams[i := s.streams[i].(session := x)])
  }

  function PutWorker(s: State, c: nat, w: Worker): State
    requires c < |s.workers|
  {
    s.(workers := s.workers[c := w])
  }

  /** What request `r` of user `u` owes for the first `n` settled rows. */
  function Debited(s: State, u: string, r: string, n: nat): real {
    Sum(RequestCost(u, r), if n <= |s.ledger.settled| then s.ledger.settled[..n] else s.ledger.settled)
  }

  /** What a failing insert abandons: the rest, and its own event unless that row was written. */
  function Abandoned(d: Debit, priceOk: bool, insertion: Insertion): seq<Event>
    requires d.todo != []
  {
    if priceOk && (insertion.Inserted? || insertion.applied) then d.todo[1..] else d.todo
  }

  function Step(s: State, a: Action, price: string -> real): State
    requires Enabled(s, a)
  {
    match a
    case Admit(mode, user, request, interval, v) =>
      var opening := s.versions[v].balances[user];
      var session := Admitted(mode, user, request, interval, WalletSnapshot(opening, price(user)));
      s.(streams := s.streams + [Stream(session, opening, v, v, 0.0)])
    case Chunk(i, bytes, rate, writeOk, publishOk, t) =>
      var (x, e) := s.streams[i].session.Chunk(bytes, rate, writeOk, t);
      Emit(Put(s, i, x), e, publishOk)
    case Refresh(i, None) => Put(s, i, s.streams[i].session.Rebase(None))
    case Refresh(i, Some(v)) =>
      var m := s.streams[i];
      var undebited := CostForSeconds(m.session.delivered, price(m.User()))
                       - Debited(s, m.User(), m.Request(), s.versions[v].settled);
      var x := m.session.Rebase(Some(WalletSnapshot(s.versions[v].balances[m.User()], price(m.User()))));
      var oldest := if v < m.oldest then v else m.oldest;
      s.(streams := s.streams[i := m.(session := x, oldest := oldest, slack := Larger(m.slack, undebited))])
    case Finish(i, publishOk, t) =>
      var (x, e) := s.streams[i].session.Finish(t);
      Emit(Put(s, i, x), e, publishOk)
    case Lose(j) => s.(bus := Without(s.bus, j), dropped := s.dropped + [s.bus[j]])
    case Join => s.(workers := s.workers + [IDLE])
    case Stop(c) =>
      var w := s.workers[c];
      PutWorker(s, c, IDLE).(dropped := s.dropped + w.pending + w.batch + w.Todo())
    case Arrive(j, c) =>
      var w := s.workers[c];
      PutWorker(s, c, w.(pending := w.pending + [s.bus[j]])).(bus := Without(s.bus, j))
    case Swap(c) => PutWorker(s, c, s.workers[c].(batch := s.workers[c].pending, pending := []))
    case Begin(c, user) =>
      var w := s.workers[c];
      PutWorker(s, c, w.(debit := Some(Opened(user, OfUser(user, w.batch))), batch := ExceptUser(user, w.batch)))
    case Insert(c, priceOk, insertion) =>
      var w := s.workers[c];
      var d := w.debit.value;
      var (l, d', go) := Record(s.ledger, d, if priceOk then Some(price(d.user)) else None, insertion);
      if go then PutWorker(s, c, w.(debit := Some(d'))).(ledger := l)
      else PutWorker(s, c, w.(debit := None)).(ledger := l, dropped := s.dropped + Abandoned(d, priceOk, insertion))
    case Settle(c, settlement) =>
      var w := s.workers[c];
      var l := Metering.Settle(s.ledger, w.debit.value, settlement).0;
      PutWorker(s, c, w.(debit := None)).(ledger := l, versions := s.versions + [Version(l.balances, |l.settled|)])
  }

  /** The state after a run; an action that is not enabled does nothing. */
  function After(balances: map<string, real>, run: seq<Action>, price: string -> real): State {
    if run == [] then Initial(balances)
    else
      var s := After(balances, run[..|run| - 1], price);
      var a := run[|run| - 1];
      if Enabled(s, a) then Step(s, a, price) else s
  }

  /** Steps that lose no event: no publish, bus, lookup or insert error, and no consumer that stops. */
  predicate Faultless(a: Action) {
    match a
    case Chunk(_, _, _, _, publishOk, _) => publishOk
    case Finish(_, publishOk, _) => publishOk
    case Lose(_) => false
    case Stop(_) => false
    case Insert(_, priceOk, insertion) => priceOk && insertion.Inserted?
    case _ => true
  }

  // ---------------------------------------------------------------- weights

  function OfRequest(r: string): Event -> real {
    (e: Event) => if e.request == r then e.seconds else 0.0
  }

  function RequestCost(u: string, r: string): Row -> real {
    (x: Row) => if x.event.user == u && x.event.request == r then x.cost else 0.0
  }

  function UserCost(u: string): Row -> real {
    (x: Row) => if x.event.user == u then x.cost else 0.0
  }

  function UserPaid(u: string): Tx -> real {
    (x: Tx) => if x.user == u then -x.amount else 0.0
  }

  function Events(rows: seq<Row>): seq<Event> {
    seq(|rows|, i requires 0 <= i < |rows| => rows[i].event)
  }

  // ---------------------------------------------------------------- what the consumers hold

  function PendingOf(w: Worker): seq<Event> { w.pending }

  function BatchOf(w: Worker): seq<Event> { w.batch }

  function TodoOf(w: Worker): seq<Event> { w.Todo() }

  function ChargedOf(w: Worker): seq<Row> { w.Charged() }

  function Pending(s: State): seq<Event> { Gather(PendingOf, s.workers) }

  function Batch(s: State): seq<Event> { Gather(BatchOf, s.workers) }

  function Todo(s: State): seq<Event> { Gather(TodoOf, s.workers) }

  function Charged(s: State): seq<Row> { Gather(ChargedOf, s.workers) }

  /** Every place an event can be in. */
  function Everywhere(s: State): seq<Event> {
    s.bus + Pending(s) + Batch(s) + Todo(s) + Events(s.ledger.rows) + s.dropped
  }
}
