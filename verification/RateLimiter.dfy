/**
  The three nested fixed windows of the rate limiter (api/internal/ratelimit/ratelimit.go).

  Times are integer milliseconds since the epoch; Redis and the gateway share one clock, and one
  call of Allow is one moment. Redis drops a counter when its expiry is reached.
 */
module RateLimiter {
  import opened Wrappers

  datatype Limits = Limits(rpm: int, rph: int, rpd: int)

  type Window = i: nat | i < 3

  function Limit(lim: Limits, i: Window): int {
    if i == 0 then lim.rpm else if i == 1 then lim.rph else lim.rpd
  }

  /** The span of a window and the expiry its counters are given, in seconds. */
  function Span(i: Window): nat {
    if i == 0 then 60 else if i == 1 then 3600 else 86400
  }

  function Expiry(i: Window): nat {
    if i == 0 then 120 else if i == 1 then 7200 else 172800
  }

  /** The key "rl:<user>:<window>:<bucket>". */
  datatype Key = Key(user: string, window: Window, bucket: nat)

  function Bucket(now: nat, i: Window): nat {
    now / 1000 / Span(i)
  }

  /** The first moment after a bucket. */
  function End(k: Key): nat {
    (k.bucket + 1) * Span(k.window) * 1000
  }

  lemma BucketSpan(now: nat, i: Window, user: string)
    ensures now < End(Key(user, i, Bucket(now, i))) <= now + Span(i) * 1000
  {
    var seconds := now / 1000;
    assert seconds == Bucket(now, i) * Span(i) + seconds % Span(i);
  }

  datatype Counter = Counter(n: int, expires: Option<nat>)

  predicate Alive(c: Counter, now: nat) {
    c.expires.None? || now < c.expires.value
  }

  /**
    One request: who and when, under which limits, and how far the pipeline of INCR and EXPIRE
    commands got. `ok` says that Exec and every reply arrived without an error.
   */
  datatype Request = Request(user: string, now: nat, limits: Limits, applied: nat, ok: bool) {
    predicate WellFormed() {
      ok ==> applied >= 6
    }

    function KeyOf(i: Window): Key {
      Key(user, i, Bucket(now, i))
    }
  }

  datatype Verdict = Allowed | Rejected(window: Window, retry: nat) | Failed

  // ---------------------------------------------------------------- one call

  function Purged(counters: map<Key, Counter>, now: nat): map<Key, Counter> {
    map k | k in counters && Alive(counters[k], now) :: counters[k]
  }

  /** INCR and EXPIRE on the counter of window `i`, as far as they were applied. */
  function Bumped(counters: map<Key, Counter>, r: Request, i: Window): map<Key, Counter> {
    var k := r.KeyOf(i);
    var c := if k in counters then counters[k] else Counter(0, None);
    if r.applied <= 2 * i then counters
    else if r.applied <= 2 * i + 1 then counters[k := c.(n := c.n + 1)]
    else counters[k := Counter(c.n + 1, Some(r.now + Expiry(i) * 1000))]
  }

  function Executed(counters: map<Key, Counter>, r: Request): map<Key, Counter> {
    Bumped(Bumped(Bumped(Purged(counters, r.now), r, 0), r, 1), r, 2)
  }

  function Count(counters: map<Key, Counter>, k: Key): int {
    if k in counters then counters[k].n else 0
  }

  /** The first window, from `i` on, whose counter is over its limit. */
  function Judged(counters: map<Key, Counter>, r: Request, i: nat): Verdict
    requires i <= 3
    decreases 3 - i
  {
    if i == 3 then Allowed
    else if Count(counters, r.KeyOf(i)) > Limit(r.limits, i) then Rejected(i, Retry(r.now, i))
    else Judged(counters, r, i + 1)
  }

  /** Seconds until the next minute, or the whole expiry of the longer windows. */
  function Retry(now: nat, i: Window): nat {
    if i == 0 then 60 - now / 1000 % 60 else Expiry(i)
  }

  function VerdictOf(counters: map<Key, Counter>, r: Request): Verdict {
    if !r.ok then Failed else Judged(Executed(counters, r), r, 0)
  }

  /** Waiting the returned number of seconds always lands in a later bucket of the rejecting window. */
  lemma RetryLandsInFreshBucket(counters: map<Key, Counter>, r: Request)
    requires VerdictOf(counters, r).Rejected?
    ensures var v := VerdictOf(counters, r);
            && Bucket(r.now + v.retry * 1000, v.window) > Bucket(r.now, v.window)
            && (v.window == 0 ==> Bucket(r.now + v.retry * 1000, 0) == Bucket(r.now, 0) + 1)
  {
    JudgedRetry(Executed(counters, r), r, 0);
    var v := VerdictOf(counters, r);
    var seconds := r.now / 1000;
    assert (r.now + v.retry * 1000) / 1000 == seconds + v.retry;
    if v.window == 0 {
      assert seconds + v.retry == (seconds / 60 + 1) * 60;
    }
  }

  lemma JudgedRetry(counters: map<Key, Counter>, r: Request, i: nat)
    requires i <= 3
    ensures var v := Judged(counters, r, i); v.Rejected? ==> v.retry == Retry(r.now, v.window)
    decreases 3 - i
  {}

  class Limiter {
    var counters: map<Key, Counter>

    constructor ()
      ensures counters == map[]
    {
      counters := map[];
    }

    /** `lim` is the answer of the limit store; without one, no counter is touched. */
    method Allow(r: Request, lim: Option<Limits>) returns (v: Verdict)
      requires r.WellFormed() && (lim.Some? ==> r.limits == lim.value)
      modifies this
      ensures lim.None? ==> v == Failed && counters == old(counters)
      ensures lim.Some? ==> v == VerdictOf(old(counters), r) && counters == Executed(old(counters), r)
    {
      if lim.None? {
        return Failed;
      }
      counters := Purged(counters, r.now);
      ghost var purged := counters;
      var i := 0;
      while i < 3
        invariant i <= 3
        invariant i == 0 ==> counters == purged
        invariant i == 1 ==> counters == Bumped(purged, r, 0)
        invariant i == 2 ==> counters == Bumped(Bumped(purged, r, 0), r, 1)
        invariant i == 3 ==> counters == Executed(old(counters), r)
      {
        var k := r.KeyOf(i);
        if r.applied > 2 * i {
          var c := if k in counters then counters[k] else Counter(0, None);
          counters := counters[k := c.(n := c.n + 1)];
        }
        if r.applied > 2 * i + 1 {
          counters := counters[k := counters[k].(expires := Some(r.now + Expiry(i) * 1000))];
        }
        i := i + 1;
      }
      if !r.ok {
        return Failed;
      }
      i := 0;
      while i < 3
        invariant i <= 3
        invariant Judged(counters, r, 0) == Judged(counters, r, i)
      {
        if Count(counters, r.KeyOf(i)) > Limit(lim.value, i) {
          var retry := Expiry(i);
          if i == 0 {
            retry := 60 - r.now / 1000 % 60;
          }
          return Rejected(i, retry);
        }
        i := i + 1;
      }
      v := Allowed;
    }
  }

  // ---------------------------------------------------------------- runs

  function CountersAfter(run: seq<Request>): map<Key, Counter> {
    if run == [] then map[]
    else Executed(CountersAfter(run[..|run| - 1]), run[|run| - 1])
  }

  /** The verdict on the j-th request of a run. */
  function VerdictAt(run: seq<Request>, j: nat): Verdict
    requires j < |run|
  {
    VerdictOf(CountersAfter(run[..j]), run[j])
  }

  ghost predicate Clocked(run: seq<Request>) {
    && (forall j :: 0 <= j < |run| ==> run[j].WellFormed())
    && (forall j, k :: 0 <= j <= k < |run| ==> run[j].now <= run[k].now)
  }

  /** How many requests of a run incremented a counter. */
  function Hits(run: seq<Request>, k: Key): nat {
    if run == [] then 0
    else
      var r := run[|run| - 1];
      Hits(run[..|run| - 1], k) + if r.KeyOf(k.window) == k && r.applied > 2 * k.window then 1 else 0
  }

  /** How many of the first `n` requests were allowed in a bucket. */
  function AllowedIn(run: seq<Request>, n: nat, k: Key): nat
    requires n <= |run|
  {
    if n == 0 then 0
    else
      AllowedIn(run, n - 1, k)
        + if run[n - 1].KeyOf(k.window) == k && VerdictAt(run, n - 1) == Allowed then 1 else 0
  }

  /**
    No counter expires inside its bucket: until the bucket of `k` ends, Redis holds exactly the
    number of increments, even if the expiry command was lost.
   */
  ghost predicate Faithful(counters: map<Key, Counter>, k: Key, hits: nat) {
    && (k in counters <==> hits > 0)
    && (k in counters ==> counters[k].n == hits && (counters[k].expires.Some? ==> counters[k].expires.value >= End(k)))
  }

  lemma BumpedOther(counters: map<Key, Counter>, r: Request, i: Window, k: Key)
    requires r.KeyOf(i) != k
    ensures (k in Bumped(counters, r, i) <==> k in counters)
    ensures k in counters ==> Bumped(counters, r, i)[k] == counters[k]
  {}

  lemma ExecutedFaithful(counters: map<Key, Counter>, r: Request, k: Key, hits: nat)
    requires Faithful(counters, k, hits) && r.now < End(k)
    ensures Faithful(Executed(counters, r), k,
                     hits + if r.KeyOf(k.window) == k && r.applied > 2 * k.window then 1 else 0)
  {
    var p := Purged(counters, r.now);
    assert Faithful(p, k, hits);
    var a := Bumped(p, r, 0);
    var b := Bumped(a, r, 1);
    BucketSpan(r.now, k.window, k.user);
    assert r.KeyOf(k.window) == k ==> r.now + Expiry(k.window) * 1000 >= End(k);
    if k.window != 0 || r.KeyOf(0) != k { BumpedOther(p, r, 0, k); }
    if k.window != 1 || r.KeyOf(1) != k { BumpedOther(a, r, 1, k); }
    if k.window != 2 || r.KeyOf(2) != k { BumpedOther(b, r, 2, k); }
  }

  lemma {:induction false} CountersAreFaithful(run: seq<Request>, k: Key)
    requires Clocked(run)
    requires run != [] ==> run[|run| - 1].now < End(k)
    ensures Faithful(CountersAfter(run), k, Hits(run, k))
    decreases |run|
  {
    if run != [] {
      var n := |run| - 1;
      CountersAreFaithful(run[..n], k);
      ExecutedFaithful(CountersAfter(run[..n]), run[n], k, Hits(run[..n], k));
    }
  }

  lemma JudgedAllowed(counters: map<Key, Counter>, r: Request, i: nat)
    requires i <= 3
    ensures Judged(counters, r, i) == Allowed
       <==> forall w: Window :: i <= w ==> Count(counters, r.KeyOf(w)) <= Limit(r.limits, w)
    decreases 3 - i
  {
    if i < 3 {
      JudgedAllowed(counters, r, i + 1);
    }
  }

  /**
    Exactly when a request is allowed: its own attempt is within the limit of each window, where
    every earlier attempt of the bucket counts, whether it was allowed, rejected or failed.
   */
  lemma AllowedIffWithinLimits(run: seq<Request>, j: nat)
    requires Clocked(run) && j < |run|
    ensures VerdictAt(run, j) == Allowed
       <==> run[j].ok && forall w: Window :: Hits(run[..j], run[j].KeyOf(w)) + 1 <= Limit(run[j].limits, w)
  {
    var r := run[j];
    var prefix := run[..j + 1];
    assert prefix[..j] == run[..j];
    JudgedAllowed(CountersAfter(prefix), r, 0);
    if r.ok {
      forall w: Window
        ensures Count(CountersAfter(prefix), r.KeyOf(w)) == Hits(run[..j], r.KeyOf(w)) + 1
      {
        BucketSpan(r.now, w, r.user);
        CountersAreFaithful(prefix, r.KeyOf(w));
      }
    }
  }

  lemma {:induction false} JudgedRejects(counters: map<Key, Counter>, r: Request, i: nat, w: Window)
    requires i <= w
    ensures Judged(counters, r, i) == Rejected(w, Retry(r.now, w))
       <==> Count(counters, r.KeyOf(w)) > Limit(r.limits, w)
            && forall v: Window :: i <= v < w ==> Count(counters, r.KeyOf(v)) <= Limit(r.limits, v)
    decreases 3 - i
  {
    if i < w {
      JudgedRejects(counters, r, i + 1, w);
    }
  }

  /** The whole waiting times of the hour and the day, and the seconds to the next minute. */
  function WaitFor(now: nat, w: Window): nat {
    if w == 0 then 60 - now / 1000 % 60 else if w == 1 then 7200 else 172800
  }

  /**
    And exactly when and with what it is rejected: the window named is the first whose attempts, this
    one included, are over its limit. It fails exactly when a reply did not arrive.
   */
  lemma RejectedIffOverLimit(run: seq<Request>, j: nat, w: Window)
    requires Clocked(run) && j < |run|
    ensures VerdictAt(run, j) == Rejected(w, WaitFor(run[j].now, w))
       <==> run[j].ok && Hits(run[..j], run[j].KeyOf(w)) + 1 > Limit(run[j].limits, w)
            && forall v: Window :: v < w ==> Hits(run[..j], run[j].KeyOf(v)) + 1 <= Limit(run[j].limits, v)
    ensures VerdictAt(run, j) == Failed <==> !run[j].ok
  {
    var r := run[j];
    var prefix := run[..j + 1];
    assert prefix[..j] == run[..j];
    JudgedRejects(CountersAfter(prefix), r, 0, w);
    NeverFails(CountersAfter(prefix), r, 0);
    if r.ok {
      forall v: Window
        ensures Count(CountersAfter(prefix), r.KeyOf(v)) == Hits(run[..j], r.KeyOf(v)) + 1
      {
        BucketSpan(r.now, v, r.user);
        CountersAreFaithful(prefix, r.KeyOf(v));
      }
    }
  }

  lemma NeverFails(counters: map<Key, Counter>, r: Request, i: nat)
    requires i <= 3
    ensures Judged(counters, r, i) != Failed
    decreases 3 - i
  {}

  lemma {:induction false} AllowedAreHits(run: seq<Request>, n: nat, k: Key)
    requires Clocked(run) && n <= |run|
    ensures AllowedIn(run, n, k) <= Hits(run[..n], k)
  {
    if n > 0 {
      AllowedAreHits(run, n - 1, k);
      assert run[..n][..n - 1] == run[..n - 1];
    }
  }

  /**
    Safety over runs: when a request is allowed, the requests allowed so far in its minute, hour
    and day - itself included - are within the limits in force for it.
   */
  lemma WindowSafety(run: seq<Request>, j: nat, w: Window)
    requires Clocked(run) && j < |run| && VerdictAt(run, j) == Allowed
    ensures AllowedIn(run, j + 1, run[j].KeyOf(w)) <= Limit(run[j].limits, w)
  {
    AllowedIffWithinLimits(run, j);
    AllowedAreHits(run, j, run[j].KeyOf(w));
  }

  // ---------------------------------------------------------------- any sixty seconds

  /** The requests of a user allowed at a moment in [from, to). */
  function AllowedBetween(run: seq<Request>, n: nat, user: string, from: nat, to: nat): nat
    requires n <= |run|
  {
    if n == 0 then 0
    else
      AllowedBetween(run, n - 1, user, from, to)
        + if run[n - 1].user == user && from <= run[n - 1].now < to && VerdictAt(run, n - 1) == Allowed then 1 else 0
  }

  lemma {:induction false} BucketTotal(run: seq<Request>, n: nat, k: Key, limit: nat)
    requires Clocked(run) && n <= |run|
    requires forall j :: 0 <= j < |run| && run[j].user == k.user ==> Limit(run[j].limits, k.window) == limit
    ensures AllowedIn(run, n, k) <= limit
  {
    if n > 0 {
      BucketTotal(run, n - 1, k, limit);
      if run[n - 1].KeyOf(k.window) == k && VerdictAt(run, n - 1) == Allowed {
        WindowSafety(run, n - 1, k.window);
      }
    }
  }

  /** An interval no longer than a window meets at most two of its buckets. */
  lemma {:induction false} TwoBuckets(run: seq<Request>, n: nat, user: string, w: Window, from: nat, to: nat)
    requires n <= |run| && to <= from + Span(w) * 1000
    ensures var b := Bucket(from, w);
            AllowedBetween(run, n, user, from, to)
              <= AllowedIn(run, n, Key(user, w, b)) + AllowedIn(run, n, Key(user, w, b + 1))
  {
    if n > 0 {
      TwoBuckets(run, n - 1, user, w, from, to);
      var now := run[n - 1].now;
      if from <= now < to {
        NextBucket(from, now, w);
      }
    }
  }

  lemma NextBucket(from: nat, now: nat, w: Window)
    requires from <= now < from + Span(w) * 1000
    ensures Bucket(from, w) <= Bucket(now, w) <= Bucket(from, w) + 1
  {
    var a, b := from / 1000, now / 1000;
    assert a <= b <= a + Span(w);
    if b == a + Span(w) {
      assert b / Span(w) == a / Span(w) + 1;
    }
  }

  /** Under a fixed limit, any interval of one window's length admits at most twice the limit. */
  lemma IntervalSafety(run: seq<Request>, user: string, w: Window, limit: nat, from: nat)
    requires Clocked(run)
    requires forall j :: 0 <= j < |run| && run[j].user == user ==> Limit(run[j].limits, w) == limit
    ensures AllowedBetween(run, |run|, user, from, from + Span(w) * 1000) <= 2 * limit
  {
    TwoBuckets(run, |run|, user, w, from, from + Span(w) * 1000);
    BucketTotal(run, |run|, Key(user, w, Bucket(from, w)), limit);
    BucketTotal(run, |run|, Key(user, w, Bucket(from, w) + 1), limit);
  }
}
