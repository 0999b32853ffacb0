/**
  A run of the money pipeline in which a refresh returns a wallet row older than the one the
  request was admitted on, and the request delivers more than that one held: Redis keeps the row
  from before another request's debit, cannot be read at admission, and cannot be deleted later.
 */
module MoneyOlderRow {
  import opened Wrappers
  import opened Billing
  import opened Sums
  import opened Delivery
  import opened Metering
  import opened MoneyPipeline
  import opened MoneyOpening

  const BALANCES: map<string, real> := map["u" := 10.0]
  const T := Clock(0, 0, 0, 0)
  const HOUR := 3600000000000

  /** A dollar a second. */
  function Price(u: string): real {
    60.0
  }

  /** Another request of the user delivers nine seconds and flushes them. */
  const DELIVER: seq<Action> :=
    [Admit(HttpStream, "u", "a", HOUR, 0), Chunk(0, 432000, 24000, true, true, T), Finish(0, true, T)]

  /** A consumer debits them. */
  const SETTLE: seq<Action> :=
    [Join, Arrive(0, 0), Swap(0), Begin(0, "u"), Insert(0, true, Inserted), Settle(0, Updated(true))]

  /** The request is admitted on the dollar that is left. */
  const ADMIT := Admit(HttpStream, "u", "b", HOUR, 1)

  lemma Next(run: seq<Action>, a: Action, s: State)
    requires After(BALANCES, run, Price) == s && Enabled(s, a)
    ensures After(BALANCES, run + [a], Price) == Step(s, a, Price)
  {
    assert (run + [a])[..|run + [a]| - 1] == run;
  }

  function Spoken(): Event {
    Event(Key("a", 1), "u", "a", "http_stream", 9.0, 0)
  }

  function Speaker(window: Option<Window>, seqNo: nat, left: real, seconds: real, finished: bool): Stream {
    var coal := Coalesced("u", "a", "http_stream", HOUR, window, seqNo);
    var session := Session(HttpStream, coal, WalletSnapshot(10.0, 60.0), left, seconds, seconds, !finished, finished);
    Stream(session, 10.0, 0, 0, 0.0)
  }

  function Delivering(window: Option<Window>, left: real, seconds: real): State {
    Initial(BALANCES).(streams := [Speaker(window, 0, left, seconds, false)])
  }

  function Delivered(): State {
    Initial(BALANCES).(streams := [Speaker(Some(Window(0.0, 0)), 1, 1.0, 9.0, true)],
                       published := [Spoken()], bus := [Spoken()])
  }

  lemma AdmitStep()
    ensures Step(Initial(BALANCES), DELIVER[0], Price) == Delivering(None, 10.0, 0.0)
  {}

  lemma ChunkStep()
    ensures Step(Delivering(None, 10.0, 0.0), DELIVER[1], Price) == Delivering(Some(Window(9.0, 0)), 1.0, 9.0)
  {
    assert SecondsFromPCM(432000, 24000) == 9.0;
    var m, w := Speaker(None, 0, 10.0, 0.0, false), Speaker(Some(Window(9.0, 0)), 0, 1.0, 9.0, false);
    assert m.session.Chunk(432000, 24000, true, T) == (w.session, None);
    assert [m][0 := w] == [w];
  }

  lemma FinishStep()
    ensures Step(Delivering(Some(Window(9.0, 0)), 1.0, 9.0), DELIVER[2], Price) == Delivered()
  {
    var m, w := Speaker(Some(Window(9.0, 0)), 0, 1.0, 9.0, false), Speaker(Some(Window(0.0, 0)), 1, 1.0, 9.0, true);
    assert m.session.Finish(T) == (w.session, Some(Spoken()));
    assert [m][0 := w] == [w];
  }

  lemma DeliverSteps()
    ensures After(BALANCES, DELIVER, Price) == Delivered()
  {
    AdmitStep();
    ChunkStep();
    FinishStep();
    Next([], DELIVER[0], Initial(BALANCES));
    Next([] + [DELIVER[0]], DELIVER[1], Delivering(None, 10.0, 0.0));
    Next([] + [DELIVER[0]] + [DELIVER[1]], DELIVER[2], Delivering(Some(Window(9.0, 0)), 1.0, 9.0));
    assert DELIVER == [] + [DELIVER[0]] + [DELIVER[1]] + [DELIVER[2]];
  }

  function Billed(): Row {
    Row(Spoken(), 9.0)
  }

  /** One dollar is left, in the second version of the wallets. */
  function Settled(): State {
    var balances := map["u" := 1.0];
    Delivered().(bus := [], workers := [IDLE],
      ledger := Ledger([Billed()], balances, [Tx("u", -9.0, "a")], [Billed()]),
      versions := [Version(BALANCES, 0), Version(balances, 1)])
  }

  /** The one consumer, with the event wherever it is. */
  function Working(bus: seq<Event>, w: Worker): State {
    Delivered().(bus := bus, workers := [w])
  }

  lemma JoinAndArrive()
    ensures Step(Delivered(), Join, Price) == Working([Spoken()], IDLE)
    ensures Step(Working([Spoken()], IDLE), Arrive(0, 0), Price) == Working([], Worker([Spoken()], [], None))
  {
    assert Without([Spoken()], 0) == [] && [] + [Spoken()] == [Spoken()];
    assert [IDLE][0 := Worker([Spoken()], [], None)] == [Worker([Spoken()], [], None)];
  }

  lemma SwapStep()
    ensures Step(Working([], Worker([Spoken()], [], None)), Swap(0), Price) == Working([], Worker([], [Spoken()], None))
  {}

  lemma OneUser(e: Event)
    ensures OfUser(e.user, [e]) == [e] && ExceptUser(e.user, [e]) == []
  {
    assert [e][..0] == [];
  }

  lemma BeginStep()
    ensures Enabled(Working([], Worker([], [Spoken()], None)), Begin(0, "u"))
    ensures Step(Working([], Worker([], [Spoken()], None)), Begin(0, "u"), Price)
         == Working([], Worker([], [], Some(Opened("u", [Spoken()]))))
  {
    OneUser(Spoken());
    var w := Worker([], [Spoken()], None);
    assert [w][0 := w.(debit := Some(Opened("u", [Spoken()])), batch := [])]
        == [Worker([], [], Some(Opened("u", [Spoken()])))];
  }

  lemma ArriveSteps()
    ensures After(BALANCES, DELIVER + SETTLE[..2], Price) == Working([], Worker([Spoken()], [], None))
  {
    DeliverSteps();
    JoinAndArrive();
    Next(DELIVER, Join, Delivered());
    Next(DELIVER + [Join], Arrive(0, 0), Working([Spoken()], IDLE));
    assert DELIVER + SETTLE[..2] == DELIVER + [Join] + [Arrive(0, 0)];
  }

  lemma BeginSteps()
    ensures After(BALANCES, DELIVER + SETTLE[..4], Price)
         == Working([], Worker([], [], Some(Opened("u", [Spoken()]))))
  {
    var run := DELIVER + SETTLE[..2];
    ArriveSteps();
    SwapStep();
    BeginStep();
    Next(run, Swap(0), Working([], Worker([Spoken()], [], None)));
    Next(run + [Swap(0)], Begin(0, "u"), Working([], Worker([], [Spoken()], None)));
    assert DELIVER + SETTLE[..4] == run + [Swap(0)] + [Begin(0, "u")];
  }

  /** The row is written, and not yet charged. */
  function Inserting(): State {
    Working([], Worker([], [], Some(Debit("u", [], [Billed()], 9.0)))).(ledger := Ledger([Billed()], BALANCES, [], []))
  }

  lemma InsertStep()
    ensures Step(Working([], Worker([], [], Some(Opened("u", [Spoken()])))), Insert(0, true, Inserted), Price)
         == Inserting()
  {
    var s := Working([], Worker([], [], Some(Opened("u", [Spoken()]))));
    assert EventCost(Spoken(), 60.0) == 9.0;
    assert [Spoken()][1..] == [] && Upsert([], Billed()) == [Billed()] && [] + [Billed()] == [Billed()];
    assert Record(s.ledger, Opened("u", [Spoken()]), Some(60.0), Inserted)
        == (Inserting().ledger, Debit("u", [], [Billed()], 9.0), true);
    assert s.workers[0 := Inserting().workers[0]] == Inserting().workers;
  }

  lemma SettleStep()
    ensures Step(Inserting(), Settle(0, Updated(true)), Price) == Settled()
  {
    assert BALANCES["u" := 1.0] == Settled().ledger.balances && Inserting().workers[0 := IDLE] == [IDLE];
    assert Metering.Settle(Inserting().ledger, Debit("u", [], [Billed()], 9.0), Updated(true)).0 == Settled().ledger;
  }

  lemma SettleSteps()
    ensures After(BALANCES, DELIVER + SETTLE, Price) == Settled()
  {
    BeginSteps();
    InsertStep();
    SettleStep();
    var run := DELIVER + SETTLE[..4];
    Next(run, Insert(0, true, Inserted), Working([], Worker([], [], Some(Opened("u", [Spoken()])))));
    Next(run + [Insert(0, true, Inserted)], Settle(0, Updated(true)), Inserting());
    assert DELIVER + SETTLE == run + [Insert(0, true, Inserted)] + [Settle(0, Updated(true))];
  }

  /**
    Admitted on one dollar, given the row of ten from before the debit, and then five seconds of
    audio: five dollars are delivered, four more than the opening balance plus the slack.
   */
  lemma OlderRowGoesPast()
    ensures
      var run := DELIVER + SETTLE + [ADMIT, Refresh(1, Some(0)), Chunk(1, 240000, 24000, true, true, T)];
      var s := After(BALANCES, run, Price);
      && |s.streams| == 2 && s.streams[1].opening == 1.0 && s.streams[1].slack == 0.0
      && CostForSeconds(s.streams[1].session.delivered, 60.0) == 5.0
  {
    SettleSteps();
    var s1 := Step(Settled(), ADMIT, Price);
    var s2 := Step(s1, Refresh(1, Some(0)), Price);
    var run := DELIVER + SETTLE;
    Next(run, ADMIT, Settled());
    Next(run + [ADMIT], Refresh(1, Some(0)), s1);
    assert Settled().ledger.settled[..0] == [];
    assert s2.streams[1].session.budget == 10.0 && s2.streams[1].slack == 0.0;
    assert SecondsFromPCM(240000, 24000) == 5.0;
    Next(run + [ADMIT] + [Refresh(1, Some(0))], Chunk(1, 240000, 24000, true, true, T), s2);
    assert run + [ADMIT, Refresh(1, Some(0)), Chunk(1, 240000, 24000, true, true, T)]
        == run + [ADMIT] + [Refresh(1, Some(0))] + [Chunk(1, 240000, 24000, true, true, T)];
  }

  /** No chunk need cost that much: two of sixty cents pass the dollar as well. */
  lemma SmallChunksGoPast()
    ensures
      var c := Chunk(1, 28800, 24000, true, true, T);
      var s := After(BALANCES, DELIVER + SETTLE + [ADMIT] + [Refresh(1, Some(0))] + [c, c], Price);
      |s.streams| > 1 && Past(s.streams[1], Price)
  {
    var run := DELIVER + SETTLE;
    var c := Chunk(1, 28800, 24000, true, true, T);
    SettleSteps();
    Next(run, ADMIT, Settled());
    assert SecondsFromPCM(28800, 24000) == 0.6;
    var cost := ChunkCost(Price("u"));
    assert cost(c) == 0.6;
    SumOfOne(cost, c);
    SumAppend(cost, [c], c);
    assert [c, c][..2] == [c] + [c];
    PastOpeningIff(BALANCES, run + [ADMIT], Price, 1, 0, [c, c]);
  }
}
