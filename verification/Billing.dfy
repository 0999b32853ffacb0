/**
  Billable events and the per-request coalescer of the gateway
  (api/internal/billing/event.go and coalescer.go).

  Seconds and USD are exact reals; clock readings are integer nanoseconds.
 */
module Billing {
  import opened Wrappers
  import Decimal

  datatype Event = Event(
    key: string,
    user: string,
    request: string,
    transport: string,
    seconds: real,
    occurredAt: int)

  /** Go's integer division by two, which truncates toward zero. */
  function Halve(bytes: int): int {
    if bytes >= 0 then bytes / 2 else -(-bytes / 2)
  }

  function SecondsFromPCM(bytes: int, sampleRate: int): (seconds: real)
    ensures bytes >= 0 ==> seconds >= 0.0
  {
    var rate := if sampleRate <= 0 then 24000 else sampleRate;
    Halve(bytes) as real / rate as real
  }

  function AtPrice(seconds: real, pricePerMinute: real): real {
    seconds / 60.0 * pricePerMinute
  }

  function CostForSeconds(seconds: real, pricePerMinute: real): (cost: real)
    ensures pricePerMinute >= 0.0 ==> cost >= 0.0
  {
    if seconds <= 0.0 then 0.0 else AtPrice(seconds, pricePerMinute)
  }

  /** Two bytes a sample; a rate that is not given counts as 24 kHz. */
  lemma OneSecond(rate: int)
    ensures rate > 0 ==> SecondsFromPCM(2 * rate, rate) == 1.0
    ensures rate <= 0 ==> SecondsFromPCM(48000, rate) == 1.0
  {
    if rate > 0 {
      assert Halve(2 * rate) == rate;
      WholeQuotient(rate as real);
    }
  }

  lemma WholeQuotient(x: real)
    requires x > 0.0
    ensures x / x == 1.0
  {}

  /** An odd last byte is no sample, and otherwise more bytes are that much more time. */
  lemma SecondsAddUp(samples: nat, more: nat, rate: int)
    ensures SecondsFromPCM(2 * samples + 1, rate) == SecondsFromPCM(2 * samples, rate)
    ensures SecondsFromPCM(2 * (samples + more), rate)
         == SecondsFromPCM(2 * samples, rate) + SecondsFromPCM(2 * more, rate)
  {
    var r := if rate <= 0 then 24000 else rate;
    assert (samples + more) as real / r as real == samples as real / r as real + more as real / r as real;
  }

  /** A minute costs the price of a minute. */
  lemma OneMinute(pricePerMinute: real)
    ensures CostForSeconds(60.0, pricePerMinute) == pricePerMinute
  {}

  /** Cost is additive, so pricing a window is pricing its chunks. */
  lemma CostIsAdditive(a: real, b: real, pricePerMinute: real)
    requires a >= 0.0 && b >= 0.0
    ensures CostForSeconds(a + b, pricePerMinute)
         == CostForSeconds(a, pricePerMinute) + CostForSeconds(b, pricePerMinute)
  {
    assert (a + b) / 60.0 == a / 60.0 + b / 60.0;
    assert (a / 60.0 + b / 60.0) * pricePerMinute == a / 60.0 * pricePerMinute + b / 60.0 * pricePerMinute;
  }

  lemma CostIsMonotone(a: real, b: real, pricePerMinute: real)
    requires a <= b && pricePerMinute >= 0.0
    ensures CostForSeconds(a, pricePerMinute) <= CostForSeconds(b, pricePerMinute)
  {
    if a > 0.0 {
      CostIsAdditive(a, b - a, pricePerMinute);
    }
  }

  // ---------------------------------------------------------------- keys

  function Key(request: string, seqNo: nat): string {
    request + ":" + Decimal.Print(seqNo)
  }

  /** The colon of the longer request falls on a digit of the other key. */
  lemma ColonsApart(r1: string, n1: nat, r2: string, n2: nat)
    requires |r1| < |r2|
    ensures Key(r1, n1) != Key(r2, n2)
  {
    var k1, k2 := Key(r1, n1), Key(r2, n2);
    if |k1| == |k2| {
      assert k1[|r2|] == Decimal.Print(n1)[|r2| - |r1| - 1];
      assert k2[|r2|] == ':';
    }
  }

  /**
    The numeral after the last ':' never contains a ':', so a key determines its request and
    its number for every request id, including ids that contain ':' themselves.
   */
  lemma KeyIsInjective(r1: string, n1: nat, r2: string, n2: nat)
    ensures Key(r1, n1) == Key(r2, n2) <==> r1 == r2 && n1 == n2
  {
    if |r1| < |r2| {
      ColonsApart(r1, n1, r2, n2);
    } else if |r2| < |r1| {
      ColonsApart(r2, n2, r1, n1);
    } else {
      Decimal.ValueOfPrint(n1);
      Decimal.ValueOfPrint(n2);
      assert Key(r1, n1)[..|r1|] == r1 && Key(r1, n1)[|r1| + 1..] == Decimal.Print(n1);
      assert Key(r2, n2)[..|r2|] == r2 && Key(r2, n2)[|r2| + 1..] == Decimal.Print(n2);
    }
  }

  // ---------------------------------------------------------------- the coalescer as a value

  datatype Window = Window(audioSeconds: real, lastFlush: int)

  /** The clock readings of one call, in the order in which the call may take them. */
  datatype Clock = Clock(created: int, checked: int, flushed: int, stamped: int)

  datatype Coalesced = Coalesced(
    user: string, request: string, transport: string, interval: int,
    window: Option<Window>, seqNo: nat)
  {
    ghost predicate Valid() {
      window.Some? ==> window.value.audioSeconds >= 0.0
    }

    function OpenSeconds(): real {
      if window.Some? then window.value.audioSeconds else 0.0
    }

    function FlushWindow(w: Window, t: Clock): (Coalesced, Option<Event>) {
      (this.(window := Some(Window(0.0, t.flushed)), seqNo := seqNo + 1),
       Some(Event(Key(request, seqNo + 1), user, request, transport, w.audioSeconds, t.stamped)))
    }

    function Add(sec: real, t: Clock): (Coalesced, Option<Event>) {
      if sec <= 0.0 then (this, None)
      else
        var w := if window.Some? then window.value else Window(0.0, t.created);
        var grown := w.(audioSeconds := w.audioSeconds + sec);
        if t.checked - grown.lastFlush >= interval then FlushWindow(grown, t)
        else (this.(window := Some(grown)), None)
    }

    function Flush(t: Clock): (Coalesced, Option<Event>) {
      if window.None? || window.value.audioSeconds <= 0.0 then (this, None)
      else FlushWindow(window.value, t)
    }
  }

  function FreshCoalescer(user: string, request: string, transport: string, interval: int): Coalesced {
    Coalesced(user, request, transport, interval, None, 0)
  }

  function SecondsOf(published: Option<Event>): real {
    if published.Some? then published.value.seconds else 0.0
  }

  /**
    What one call does, stated without its branches: it keeps seconds, it publishes at most one
    event, and that event is a positive amount under the next number.
   */
  ghost predicate Accounts(before: Coalesced, sec: real, after: Coalesced, published: Option<Event>) {
    && after.Valid()
    && after.user == before.user && after.request == before.request
    && after.transport == before.transport && after.interval == before.interval
    && before.OpenSeconds() + sec == after.OpenSeconds() + SecondsOf(published)
    && after.seqNo == before.seqNo + (if published.Some? then 1 else 0)
    && (published.Some? ==>
          && published.value.seconds > 0.0
          && after.OpenSeconds() == 0.0
          && published.value.user == before.user
          && published.value.request == before.request
          && published.value.transport == before.transport
          && published.value.key == Key(before.request, after.seqNo))
  }

  lemma AddAccounts(c: Coalesced, sec: real, t: Clock)
    requires c.Valid() && sec >= 0.0
    ensures Accounts(c, sec, c.Add(sec, t).0, c.Add(sec, t).1)
  {}

  lemma FlushAccounts(c: Coalesced, t: Clock)
    requires c.Valid()
    ensures Accounts(c, 0.0, c.Flush(t).0, c.Flush(t).1)
    ensures c.Flush(t).0.OpenSeconds() == 0.0
  {}

  // ---------------------------------------------------------------- the coalescer as an object

  class Coalescer {
    const user: string
    const request: string
    const transport: string
    const interval: int
    var windows: map<string, Window>
    var seqNo: nat

    ghost predicate Valid()
      reads this
    {
      windows.Keys <= {request} && State().Valid()
    }

    ghost function State(): Coalesced
      reads this
    {
      Coalesced(user, request, transport, interval,
                if request in windows then Some(windows[request]) else None, seqNo)
    }

    constructor (user: string, request: string, transport: string, interval: int)
      ensures Valid()
      ensures State() == FreshCoalescer(user, request, transport, interval)
    {
      this.user, this.request, this.transport, this.interval := user, request, transport, interval;
      windows, seqNo := map[], 0;
    }

    method AddPCM(bytes: int, sampleRate: int, t: Clock) returns (published: Option<Event>)
      requires Valid()
      modifies this
      ensures Valid()
      ensures (State(), published) == old(State()).Add(SecondsFromPCM(bytes, sampleRate), t)
    {
      var sec := SecondsFromPCM(bytes, sampleRate);
      if sec <= 0.0 {
        return None;
      }
      var w := Window(0.0, t.created);
      if request in windows {
        w := windows[request];
      }
      w := w.(audioSeconds := w.audioSeconds + sec);
      windows := windows[request := w];
      published := None;
      if t.checked - w.lastFlush >= interval {
        published := FlushLocked(t);
      }
    }

    method Flush(t: Clock) returns (published: Option<Event>)
      requires Valid()
      modifies this
      ensures Valid()
      ensures (State(), published) == old(State()).Flush(t)
    {
      if request !in windows || windows[request].audioSeconds <= 0.0 {
        return None;
      }
      published := FlushLocked(t);
    }

    method FlushLocked(t: Clock) returns (published: Option<Event>)
      requires Valid() && request in windows
      modifies this
      ensures Valid()
      ensures (State(), published) == old(State()).FlushWindow(old(windows[request]), t)
    {
      var sec := windows[request].audioSeconds;
      windows := windows[request := Window(0.0, t.flushed)];
      seqNo := seqNo + 1;
      published := Some(Event(Key(request, seqNo), user, request, transport, sec, t.stamped));
    }
  }

  // ---------------------------------------------------------------- runs of one coalescer

  datatype Call = AddCall(bytes: nat, sampleRate: int, t: Clock) | FlushCall(t: Clock)

  function Perform(c: Coalesced, call: Call): (Coalesced, Option<Event>) {
    match call
    case AddCall(bytes, rate, t) => c.Add(SecondsFromPCM(bytes, rate), t)
    case FlushCall(t) => c.Flush(t)
  }

  function Published(c: Coalesced, calls: seq<Call>): seq<Event>
    decreases |calls|
  {
    if calls == [] then []
    else
      var (c', e) := Perform(c, calls[0]);
      (if e.Some? then [e.value] else []) + Published(c', calls[1..])
  }

  /** How many of the events of a run were published by AddPCM. */
  function AddPublications(c: Coalesced, calls: seq<Call>): nat
    decreases |calls|
  {
    if calls == [] then 0
    else
      var (c', e) := Perform(c, calls[0]);
      (if calls[0].AddCall? && e.Some? then 1 else 0) + AddPublications(c', calls[1..])
  }

  function FlushCalls(calls: seq<Call>): nat {
    if calls == [] then 0 else (if calls[0].FlushCall? then 1 else 0) + FlushCalls(calls[1..])
  }

  /** Every clock reading from `start` to `end` is taken in order. */
  ghost predicate Monotone(calls: seq<Call>, start: int, end: int) {
    if calls == [] then start <= end
    else
      var t := calls[0].t;
      start <= t.created <= t.checked <= t.flushed && Monotone(calls[1..], t.flushed, end)
  }

  lemma {:induction false} MonotoneSpan(calls: seq<Call>, start: int, end: int)
    requires Monotone(calls, start, end)
    ensures start <= end
  {
    if calls != [] {
      MonotoneSpan(calls[1..], calls[0].t.flushed, end);
    }
  }

  lemma Distribute(n: nat, interval: int)
    ensures (1 + n) * interval == interval + n * interval
  {}

  /** The moment from which the next interval of `c` is measured. */
  function Base(c: Coalesced, start: int): int {
    if c.window.Some? then c.window.value.lastFlush else start
  }

  lemma {:induction false} AddRate(c: Coalesced, calls: seq<Call>, start: int, end: int)
    requires Base(c, start) <= start && Monotone(calls, start, end)
    ensures AddPublications(c, calls) * c.interval <= end - Base(c, start)
    decreases |calls|
  {
    MonotoneSpan(calls, start, end);
    if calls != [] {
      var (c', e) := Perform(c, calls[0]);
      AddRate(c', calls[1..], calls[0].t.flushed, end);
      Distribute(AddPublications(c', calls[1..]), c.interval);
    }
  }

  /**
    Between the first AddPCM and time `end`, AddPCM publishes at most one event per interval, and
    the whole run publishes at most one more per Flush call.
   */
  lemma PublishRate(c: Coalesced, calls: seq<Call>, end: int)
    requires c.window.None?
    requires calls != [] && calls[0].AddCall?
    requires Monotone(calls, calls[0].t.created, end)
    ensures AddPublications(c, calls) * c.interval <= end - calls[0].t.created
    ensures |Published(c, calls)| <= AddPublications(c, calls) + FlushCalls(calls)
  {
    AddRate(c, calls, calls[0].t.created, end);
    PublishedCount(c, calls);
  }

  lemma {:induction false} PublishedCount(c: Coalesced, calls: seq<Call>)
    ensures |Published(c, calls)| <= AddPublications(c, calls) + FlushCalls(calls)
    decreases |calls|
  {
    if calls != [] {
      PublishedCount(Perform(c, calls[0]).0, calls[1..]);
    }
  }

  /** The i-th event of a run carries the next key, so no two events of a run share one. */
  lemma {:induction false} PublishedKeys(c: Coalesced, calls: seq<Call>, i: nat)
    requires c.Valid() && i < |Published(c, calls)|
    ensures Published(c, calls)[i].key == Key(c.request, c.seqNo + i + 1)
    decreases |calls|
  {
    var (c', e) := Perform(c, calls[0]);
    PerformAccounts(c, calls[0]);
    if e.None? {
      assert Published(c, calls) == Published(c', calls[1..]);
      PublishedKeys(c', calls[1..], i);
    } else if i > 0 {
      assert Published(c, calls)[i] == Published(c', calls[1..])[i - 1];
      PublishedKeys(c', calls[1..], i - 1);
    }
  }

  lemma PerformAccounts(c: Coalesced, call: Call)
    requires c.Valid()
    ensures Accounts(c, if call.AddCall? then SecondsFromPCM(call.bytes, call.sampleRate) else 0.0,
                     Perform(c, call).0, Perform(c, call).1)
  {}

  /** Keys are distinct within a run and across runs of different requests. */
  lemma KeysAreDistinct(c1: Coalesced, calls1: seq<Call>, i: nat, c2: Coalesced, calls2: seq<Call>, j: nat)
    requires c1.Valid() && c2.Valid() && c1.seqNo == 0 && c2.seqNo == 0
    requires i < |Published(c1, calls1)| && j < |Published(c2, calls2)|
    ensures Published(c1, calls1)[i].key == Published(c2, calls2)[j].key
       <==> c1.request == c2.request && i == j
  {
    PublishedKeys(c1, calls1, i);
    PublishedKeys(c2, calls2, j);
    KeyIsInjective(c1.request, i + 1, c2.request, j + 1);
  }

  // ---------------------------------------------------------------- when a call publishes

  function StateAfter(c: Coalesced, calls: seq<Call>): Coalesced
    decreases |calls|
  {
    if calls == [] then c else StateAfter(Perform(c, calls[0]).0, calls[1..])
  }

  lemma {:induction false} RunAppend(c: Coalesced, calls: seq<Call>, call: Call)
    ensures StateAfter(c, calls + [call]) == Perform(StateAfter(c, calls), call).0
    ensures var e := Perform(StateAfter(c, calls), call).1;
            Published(c, calls + [call]) == Published(c, calls) + if e.Some? then [e.value] else []
    decreases |calls|
  {
    var all := calls + [call];
    if calls == [] {
      assert all[1..] == [];
    } else {
      RunAppend(Perform(c, calls[0]).0, calls[1..], call);
      assert all[1..] == calls[1..] + [call];
    }
  }

  /** The last of the calls has published. */
  predicate LastPublishes(c: Coalesced, calls: seq<Call>)
    requires calls != []
  {
    |Published(c, calls)| > |Published(c, calls[..|calls| - 1])|
  }

  predicate AddsAudio(call: Call) {
    call.AddCall? && SecondsFromPCM(call.bytes, call.sampleRate) > 0.0
  }

  /** When the first audio came in. */
  function FirstAudio(calls: seq<Call>): Option<int> {
    if calls == [] then None
    else
      var before := FirstAudio(calls[..|calls| - 1]);
      var last := calls[|calls| - 1];
      if before.Some? then before else if AddsAudio(last) then Some(last.t.created) else None
  }

  /** When the open window was started: at the last publication, or else when the first audio came in. */
  function Started(c: Coalesced, calls: seq<Call>): Option<int> {
    if calls == [] then None
    else if LastPublishes(c, calls) then Some(calls[|calls| - 1].t.flushed)
    else
      var before := Started(c, calls[..|calls| - 1]);
      if before.Some? then before else FirstAudio(calls)
  }

  lemma {:induction false} WindowStarted(c: Coalesced, calls: seq<Call>)
    requires c.Valid() && c.window.None?
    ensures StateAfter(c, calls).Valid() && StateAfter(c, calls).interval == c.interval
    ensures var w := StateAfter(c, calls).window;
            Started(c, calls) == if w.Some? then Some(w.value.lastFlush) else None
    ensures StateAfter(c, calls).window.None? ==> FirstAudio(calls).None?
  {
    if calls != [] {
      var n := |calls| - 1;
      WindowStarted(c, calls[..n]);
      RunAppend(c, calls[..n], calls[n]);
      assert calls == calls[..n] + [calls[n]];
      PerformAccounts(StateAfter(c, calls[..n]), calls[n]);
    }
  }

  /**
    Exactly when AddPCM publishes: once audio has come in for an interval, measured from the last
    publication or else from the first audio - this very one if there was none before. The event
    carries the clock reading of the publication, and after it every added second is published.
   */
  lemma AddPublishesIff(c: Coalesced, calls: seq<Call>, call: Call)
    requires c.Valid() && c.window.None? && call.AddCall?
    ensures
      var all := calls + [call];
      var since := Started(c, calls);
      var start := if since.Some? then since.value else call.t.created;
      LastPublishes(c, all) <==> AddsAudio(call) && call.t.checked - start >= c.interval
    ensures
      var all := calls + [call];
      LastPublishes(c, all) ==>
        && Published(c, all)[|Published(c, all)| - 1].occurredAt == call.t.stamped
        && StateAfter(c, all).OpenSeconds() == 0.0
  {
    WindowStarted(c, calls);
    RunAppend(c, calls, call);
    assert (calls + [call])[..|calls|] == calls;
  }

  predicate PublishesAt(c: Coalesced, calls: seq<Call>, k: nat)
    requires k < |calls|
  {
    LastPublishes(c, calls[..k + 1])
  }

  /** No publication from call `j` on. */
  ghost predicate UnpublishedFrom(c: Coalesced, calls: seq<Call>, j: nat) {
    forall k :: j <= k < |calls| ==> !PublishesAt(c, calls, k)
  }

  lemma {:induction false} StartedStays(c: Coalesced, calls: seq<Call>, j: nat)
    requires j <= |calls| && UnpublishedFrom(c, calls, j) && Started(c, calls[..j]).Some?
    ensures Started(c, calls) == Started(c, calls[..j])
  {
    if j == |calls| {
      assert calls[..j] == calls;
    } else {
      var front := calls[..|calls| - 1];
      assert calls[..|calls|] == calls;
      assert front[..j] == calls[..j];
      forall k | j <= k < |front|
        ensures !PublishesAt(c, front, k)
      {
        assert front[..k + 1] == calls[..k + 1] && !PublishesAt(c, calls, k);
      }
      assert !PublishesAt(c, calls, |front|) && calls[..|front| + 1] == calls;
      StartedStays(c, front, j);
    }
  }

  /** So audio that is still in the window came in less than an interval after the window was started. */
  lemma WindowIsYoung(c: Coalesced, calls: seq<Call>, j: nat)
    requires c.Valid() && c.window.None?
    requires j < |calls| && AddsAudio(calls[j]) && UnpublishedFrom(c, calls, j)
    ensures Started(c, calls).Some? && calls[j].t.checked < Started(c, calls).value + c.interval
  {
    var before := calls[..j];
    assert calls[..j + 1] == before + [calls[j]];
    assert !PublishesAt(c, calls, j);
    assert (before + [calls[j]])[..j] == before;
    AddPublishesIff(c, before, calls[j]);
    WindowStarted(c, before);
    assert FirstAudio(calls[..j + 1]).Some?;
    StartedStays(c, calls, j + 1);
  }

  function Added(calls: seq<Call>): real {
    if calls == [] then 0.0
    else
      var call := calls[|calls| - 1];
      Added(calls[..|calls| - 1]) + if AddsAudio(call) then SecondsFromPCM(call.bytes, call.sampleRate) else 0.0
  }

  function TotalSeconds(events: seq<Event>): real {
    if events == [] then 0.0 else TotalSeconds(events[..|events| - 1]) + events[|events| - 1].seconds
  }

  /** The events and the open window hold the added seconds, and a final Flush leaves them to the events. */
  lemma {:induction false} SecondsArePublished(c: Coalesced, calls: seq<Call>)
    requires c.Valid() && c.window.None?
    ensures TotalSeconds(Published(c, calls)) + StateAfter(c, calls).OpenSeconds() == Added(calls)
    ensures calls != [] && calls[|calls| - 1].FlushCall? ==> TotalSeconds(Published(c, calls)) == Added(calls)
  {
    if calls != [] {
      var n := |calls| - 1;
      var e := Perform(StateAfter(c, calls[..n]), calls[n]).1;
      SecondsArePublished(c, calls[..n]);
      WindowStarted(c, calls[..n]);
      RunAppend(c, calls[..n], calls[n]);
      assert calls == calls[..n] + [calls[n]];
      PerformAccounts(StateAfter(c, calls[..n]), calls[n]);
      if e.Some? {
        assert Published(c, calls)[..|Published(c, calls)| - 1] == Published(c, calls[..n]);
      } else {
        assert Published(c, calls) == Published(c, calls[..n]);
      }
    }
  }
}
