/**
  The chunk callbacks of the HTTP gateway (api/internal/handler/server.go, StreamTTS and
  runAsyncJob): each chunk is charged to a local budget, written, and only then billed; a stream
  re-reads the wallet from time to time.
 */
module Delivery {
  import opened Wrappers
  import opened Billing
  import opened Sums

  datatype Mode = HttpStream | HttpAsync

  function Transport(mode: Mode): string {
    if mode == HttpStream then "http_stream" else "http_async"
  }

  datatype WalletSnapshot = WalletSnapshot(balance: real, price: real)

  /** What Go leaves in `snap` when Refresh returns an error that the caller ignores. */
  const ZERO_SNAPSHOT := WalletSnapshot(0.0, 0.0)

  /**
    The variables that one request's callback closes over. `delivered` is the observation the
    accounting is about: the seconds of audio whose write succeeded. `open` turns false when the
    callback returns an error, `finished` turns true with the final flush.
   */
  datatype Session = Session(
    mode: Mode,
    coal: Coalesced,
    snap: WalletSnapshot,
    budget: real,
    audioSeconds: real,
    delivered: real,
    open: bool,
    finished: bool)
  {
    /** StreamTTS stops at zero, runAsyncJob only below it. */
    predicate Exhausts(left: real) {
      if mode == HttpStream then left <= 0.0 else left < 0.0
    }

    function Chunk(bytes: nat, sampleRate: int, writeOk: bool, t: Clock): (Session, Option<Event>) {
      var sec := SecondsFromPCM(bytes, sampleRate);
      var left := budget - CostForSeconds(sec, snap.price);
      if Exhausts(left) then
        (this.(budget := left, open := false), None)
      else if mode == HttpStream && !writeOk then
        (this.(budget := left, audioSeconds := audioSeconds + sec, open := false), None)
      else
        var (coal', published) := coal.Add(sec, t);
        (this.(budget := left, audioSeconds := audioSeconds + sec, delivered := delivered + sec, coal := coal'),
         published)
    }

    function Rebase(refreshed: Option<WalletSnapshot>): Session {
      var snap' := if refreshed.Some? then refreshed.value else ZERO_SNAPSHOT;
      this.(snap := snap', budget := snap'.balance)
    }

    function Finish(t: Clock): (Session, Option<Event>) {
      var (coal', published) := coal.Flush(t);
      (this.(coal := coal', open := false, finished := true), published)
    }
  }

  function Admitted(mode: Mode, user: string, request: string, interval: int, snap: WalletSnapshot): Session {
    Session(mode, FreshCoalescer(user, request, Transport(mode), interval), snap, snap.balance, 0.0, 0.0, true, false)
  }

  /** The clock, network and cache results that one run of the callback observes. */
  datatype Observed = Observed(
    t: Clock, writeOk: bool, sinceCheckedAt: int, refreshed: Option<WalletSnapshot>, refreshedAt: int)

  class HttpDelivery {
    const mode: Mode
    const refreshEvery: int
    const coal: Coalescer
    var snap: WalletSnapshot
    var budget: real
    var audioSeconds: real
    var delivered: real
    var lastRefresh: int
    var open: bool
    var finished: bool

    ghost predicate Valid()
      reads this, coal
    {
      coal.Valid()
    }

    ghost function State(): Session
      reads this, coal
    {
      Session(mode, coal.State(), snap, budget, audioSeconds, delivered, open, finished)
    }

    constructor (mode: Mode, user: string, request: string, interval: int, refreshEvery: int,
                 snap: WalletSnapshot, now: int)
      ensures Valid() && fresh(coal)
      ensures State() == Admitted(mode, user, request, interval, snap) && lastRefresh == now
    {
      this.mode, this.refreshEvery := mode, refreshEvery;
      coal := new Coalescer(user, request, Transport(mode), interval);
      this.snap, budget, audioSeconds, delivered := snap, snap.balance, 0.0, 0.0;
      lastRefresh, open, finished := now, true, false;
    }

    /** One invocation of the callback; it reports whether the copy loop may go on. */
    method OnChunk(bytes: nat, sampleRate: int, o: Observed) returns (ok: bool, published: Option<Event>)
      requires Valid() && open
      modifies this, coal
      ensures Valid()
      ensures ok == open
      ensures var (charged, event) := old(State()).Chunk(bytes, sampleRate, o.writeOk, o.t);
              && published == event
              && if charged.open && mode == HttpStream && o.sinceCheckedAt - old(lastRefresh) >= refreshEvery
                 then State() == charged.Rebase(o.refreshed) && lastRefresh == o.refreshedAt
                 else State() == charged && lastRefresh == old(lastRefresh)
    {
      published := None;
      var sec := SecondsFromPCM(bytes, sampleRate);
      budget := budget - CostForSeconds(sec, snap.price);
      if mode == HttpAsync {
        if budget < 0.0 {
          open := false;
          return false, None;
        }
        audioSeconds := audioSeconds + sec;
        delivered := delivered + sec;
        published := coal.AddPCM(bytes, sampleRate, o.t);
        return true, published;
      }
      if budget <= 0.0 {
        open := false;
        return false, None;
      }
      audioSeconds := audioSeconds + sec;
      if !o.writeOk {
        open := false;
        return false, None;
      }
      delivered := delivered + sec;
      published := coal.AddPCM(bytes, sampleRate, o.t);
      if o.sinceCheckedAt - lastRefresh >= refreshEvery {
        snap := if o.refreshed.Some? then o.refreshed.value else ZERO_SNAPSHOT;
        budget := snap.balance;
        lastRefresh := o.refreshedAt;
      }
      ok := true;
    }

    /** The flush after the copy loop, whether it ended by EOF or by an error. */
    method Finish(t: Clock) returns (published: Option<Event>)
      requires Valid()
      modifies this, coal
      ensures Valid()
      ensures (State(), published) == old(State()).Finish(t)
    {
      open, finished := false, true;
      published := coal.Flush(t);
    }
  }

  // ---------------------------------------------------------------- what a request delivers

  /** A chunk from the inference side. */
  datatype Sent = Sent(bytes: nat, sampleRate: int, t: Clock)

  function SentSeconds(c: Sent): real {
    SecondsFromPCM(c.bytes, c.sampleRate)
  }

  function SentCost(p: real): Sent -> real {
    (c: Sent) => CostForSeconds(SentSeconds(c), p)
  }

  /** The session once the chunks have come in and, as far as they were let through, been written. */
  function Copied(x: Session, chunks: seq<Sent>): Session {
    if chunks == [] then x
    else
      var n := |chunks| - 1;
      var before := Copied(x, chunks[..n]);
      if before.open then before.Chunk(chunks[n].bytes, chunks[n].sampleRate, true, chunks[n].t).0 else before
  }

  /** A job may spend its balance; a stream must keep some of it. */
  predicate Affords(mode: Mode, cost: real, balance: real) {
    if mode == HttpAsync then cost <= balance else cost < balance
  }

  /** The longest first part that can be afforded. */
  ghost predicate LongestAffordable(mode: Mode, p: real, balance: real, chunks: seq<Sent>, k: nat) {
    && k <= |chunks|
    && Affords(mode, Sum(SentCost(p), chunks[..k]), balance)
    && (k < |chunks| ==> !Affords(mode, Sum(SentCost(p), chunks[..k + 1]), balance))
  }

  /** The session in terms of what it has let through. */
  ghost predicate HasDelivered(x: Session, mode: Mode, snap: WalletSnapshot, chunks: seq<Sent>, k: nat) {
    && LongestAffordable(mode, snap.price, snap.balance, chunks, k)
    && x.mode == mode && x.snap == snap
    && x.delivered == Sum(SentSeconds, chunks[..k])
    && (x.open <==> k == |chunks|)
    && (x.open ==> x.budget == snap.balance - Sum(SentCost(snap.price), chunks))
  }

  lemma NextDelivered(x: Session, mode: Mode, snap: WalletSnapshot, chunks: seq<Sent>, k: nat) returns (k': nat)
    requires chunks != [] && HasDelivered(x, mode, snap, chunks[..|chunks| - 1], k)
    ensures
      var c := chunks[|chunks| - 1];
      HasDelivered(if x.open then x.Chunk(c.bytes, c.sampleRate, true, c.t).0 else x, mode, snap, chunks, k')
  {
    var n := |chunks| - 1;
    var front, c := chunks[..n], chunks[n];
    assert front[..k] == chunks[..k];
    if x.open {
      assert chunks[..n + 1] == chunks && front[..n] == front;
      k' := if Affords(mode, Sum(SentCost(snap.price), chunks), snap.balance) then n + 1 else n;
    } else {
      assert front[..k + 1] == chunks[..k + 1];
      k' := k;
    }
  }

  lemma {:induction false} LetsThrough(
    mode: Mode, user: string, request: string, interval: int, snap: WalletSnapshot, chunks: seq<Sent>)
    returns (k: nat)
    requires Affords(mode, 0.0, snap.balance)
    ensures HasDelivered(Copied(Admitted(mode, user, request, interval, snap), chunks), mode, snap, chunks, k)
  {
    if chunks == [] {
      k := 0;
    } else {
      var before := LetsThrough(mode, user, request, interval, snap, chunks[..|chunks| - 1]);
      var x := Copied(Admitted(mode, user, request, interval, snap), chunks[..|chunks| - 1]);
      k := NextDelivered(x, mode, snap, chunks, before);
    }
  }

  lemma PartCost(p: real, chunks: seq<Sent>, k: nat)
    requires p >= 0.0 && k <= |chunks|
    ensures Sum(SentCost(p), chunks[..k]) <= Sum(SentCost(p), chunks)
  {
    assert chunks == chunks[..k] + chunks[k..];
    SumConcat(SentCost(p), chunks[..k], chunks[k..]);
    SumNonNegative(SentCost(p), chunks[k..]);
  }

  /**
    Neither too much nor too little: an admitted request whose writes succeed delivers the longest
    first part of its chunks whose cost its balance affords, and is open exactly while it affords
    all of them. A job may spend the whole balance, a stream must stay below it.
   */
  lemma DeliversWhatItAffords(
    mode: Mode, user: string, request: string, interval: int, snap: WalletSnapshot, chunks: seq<Sent>)
    returns (k: nat)
    requires snap.price >= 0.0 && Affords(mode, 0.0, snap.balance)
    ensures var x := Copied(Admitted(mode, user, request, interval, snap), chunks);
            && LongestAffordable(mode, snap.price, snap.balance, chunks, k)
            && x.delivered == Sum(SentSeconds, chunks[..k])
            && (x.open <==> Affords(mode, Sum(SentCost(snap.price), chunks), snap.balance))
  {
    k := LetsThrough(mode, user, request, interval, snap, chunks);
    if k < |chunks| {
      PartCost(snap.price, chunks, k + 1);
    } else {
      assert chunks[..k] == chunks;
    }
  }

  /** Only what is written is billed: a chunk that is refused or cannot be written adds nothing anywhere. */
  lemma RefusedIsNotBilled(x: Session, bytes: nat, sampleRate: int, writeOk: bool, t: Clock)
    requires x.open
    ensures
      var (x', e) := x.Chunk(bytes, sampleRate, writeOk, t);
      var sec := SecondsFromPCM(bytes, sampleRate);
      && (x'.open ==>
            && x'.delivered == x.delivered + sec && x'.audioSeconds == x.audioSeconds + sec
            && (x'.coal, e) == x.coal.Add(sec, t))
      && (!x'.open ==> x'.delivered == x.delivered && x'.coal == x.coal && e.None?)
      && (x.mode == HttpStream && !writeOk ==> !x'.open)
  {}

  /** A refresh that fails leaves no budget: the next chunk, whatever it costs, ends the stream undelivered. */
  lemma FailedRefreshEnds(x: Session, bytes: nat, sampleRate: int, writeOk: bool, t: Clock)
    requires x.mode == HttpStream && x.open
    ensures var x' := x.Rebase(None).Chunk(bytes, sampleRate, writeOk, t).0;
            !x'.open && x'.delivered == x.delivered
  {}
}
