/**
  Per-user limit overrides: a table, and a Redis cache over it with a lifetime of five minutes
  (api/internal/ratelimit/store.go). Each call is one moment; Redis and the database may fail.
 */
module LimitStore {
  import opened RateLimiter

  const TTL := 300000

  predicate Positive(lim: Limits) {
    lim.rpm > 0 && lim.rph > 0 && lim.rpd > 0
  }

  datatype Cached = Cached(limits: Limits, expires: int)

  /** A Redis command: whether it took effect, and whether it reported success. */
  datatype Command = Command(applied: bool, ok: bool)

  /** A statement that reports an error may have been applied. */
  datatype Statement = Done | Refused | AppliedWithError

  datatype Answer = Answer(limits: Limits, overridden: bool) | Error

  // ---------------------------------------------------------------- the store as a value

  datatype Config = Config(hasRedis: bool, hasPool: bool, defaults: Limits)

  /** The table, and what Redis holds over it. */
  datatype Contents = Contents(table: map<string, Limits>, cache: map<string, Cached>)

  datatype Call =
    | Read(user: string, now: int, getOk: bool, readable: bool, queryOk: bool, write: Command)
    | Set(user: string, now: int, lim: Limits, exec: Statement, write: Command)
    | Clear(user: string, now: int, exec: Statement, delApplied: bool)

  /** The limits in force: the override if there is one, and otherwise the defaults. */
  function InForce(c: Config, table: map<string, Limits>, user: string): Answer {
    if c.hasPool && user in table then Answer(table[user], true) else Answer(c.defaults, false)
  }

  /** The entry has not expired and would be accepted. */
  predicate Live(s: Contents, user: string, now: int) {
    user in s.cache && now < s.cache[user].expires && Positive(s.cache[user].limits)
  }

  function AnswerOf(
    c: Config, s: Contents, user: string, now: int, getOk: bool, readable: bool, queryOk: bool): Answer
  {
    if c.hasRedis && !getOk then Error
    else if c.hasRedis && Live(s, user, now) && readable then Answer(s.cache[user].limits, true)
    else if c.hasPool && !queryOk then Error
    else InForce(c, s.table, user)
  }

  function Stored(s: Contents, user: string, lim: Limits, now: int): Contents {
    s.(cache := s.cache[user := Cached(lim, now + TTL)])
  }

  function Step(c: Config, s: Contents, call: Call): Contents {
    match call
    case Read(user, now, getOk, readable, queryOk, write) =>
      var hit := Live(s, user, now) && readable;
      if c.hasRedis && getOk && !hit && c.hasPool && queryOk && user in s.table && write.applied
      then Stored(s, user, s.table[user], now) else s
    case Set(user, now, lim, exec, write) =>
      if !Positive(lim) || !c.hasPool || exec.Refused? then s
      else
        var s' := s.(table := s.table[user := lim]);
        if exec.Done? && c.hasRedis && write.applied then Stored(s', user, lim, now) else s'
    case Clear(user, now, exec, delApplied) =>
      var s' := if c.hasPool && !exec.Refused? then s.(table := s.table - {user}) else s;
      if (!c.hasPool || exec.Done?) && c.hasRedis && delApplied then s'.(cache := s'.cache - {user}) else s'
  }

  function After(c: Config, table: map<string, Limits>, run: seq<Call>): Contents {
    if run == [] then Contents(table, map[])
    else Step(c, After(c, table, run[..|run| - 1]), run[|run| - 1])
  }

  // ---------------------------------------------------------------- agreement, over runs

  /** The cache agrees with the table wherever it still answers. */
  ghost predicate Coherent(s: Contents, now: int) {
    forall u :: Live(s, u, now) ==> u in s.table && s.cache[u].limits == s.table[u]
  }

  /** Every answer, whatever fails on the way to it, is the limits in force. */
  ghost predicate Agrees(c: Config, s: Contents, now: int) {
    forall user, getOk, readable, queryOk ::
      var a := AnswerOf(c, s, user, now, getOk, readable, queryOk);
      a.Error? || a == InForce(c, s.table, user)
  }

  /** Without Redis or a table there is nothing in the cache. */
  ghost predicate Backed(c: Config, s: Contents) {
    !c.hasRedis || !c.hasPool ==> s.cache == map[]
  }

  lemma AgreesIffCoherent(c: Config, s: Contents, now: int)
    requires Backed(c, s)
    ensures Agrees(c, s, now) <==> Coherent(s, now)
  {
    if Agrees(c, s, now) {
      forall u | Live(s, u, now)
        ensures u in s.table && s.cache[u].limits == s.table[u]
      {
        assert AnswerOf(c, s, u, now, true, true, true) == Answer(s.cache[u].limits, true);
      }
    }
  }

  /**
    What a caller can see of a call that keeps the cache in agreement: the row does not change, or
    the entry changes with it, or no entry answers for the user, or it already holds the new limits.
   */
  predicate Keeps(c: Config, s: Contents, call: Call) {
    match call
    case Read(_, _, _, _, _, _) => true
    case Set(user, now, lim, exec, write) =>
      || !Positive(lim) || !c.hasPool || exec.Refused?
      || (exec.Done? && c.hasRedis && write.applied)
      || !Live(s, user, now) || s.cache[user].limits == lim
    case Clear(user, now, exec, delApplied) =>
      || !c.hasPool || exec.Refused?
      || (exec.Done? && c.hasRedis && delApplied)
      || !Live(s, user, now)
  }

  lemma CoherentIffKeeps(c: Config, s: Contents, call: Call)
    requires Backed(c, s) && Coherent(s, call.now)
    ensures Backed(c, Step(c, s, call))
    ensures Coherent(Step(c, s, call), call.now) <==> Keeps(c, s, call)
  {
    var s' := Step(c, s, call);
    if Coherent(s', call.now) && !call.Read? {
      assert Live(s', call.user, call.now) ==> call.user in s'.table;
    }
    if Keeps(c, s, call) {
      forall u | Live(s', u, call.now)
        ensures u in s'.table && s'.cache[u].limits == s'.table[u]
      {
        assert u != call.user ==> Live(s, u, call.now);
      }
    }
  }

  ghost predicate Ordered(run: seq<Call>) {
    forall i, j :: 0 <= i < j < |run| ==> run[i].now <= run[j].now
  }

  /** A moment at or after the first `k` calls. */
  ghost predicate Since(run: seq<Call>, k: nat, t: int)
    requires k <= |run|
  {
    k > 0 ==> run[k - 1].now <= t
  }

  ghost predicate KeptUpTo(c: Config, table: map<string, Limits>, run: seq<Call>, n: nat)
    requires n <= |run|
  {
    forall k :: 0 <= k < n ==> Keeps(c, After(c, table, run[..k]), run[k])
  }

  lemma AfterNext(c: Config, table: map<string, Limits>, run: seq<Call>, k: nat)
    requires k < |run|
    ensures After(c, table, run[..k + 1]) == Step(c, After(c, table, run[..k]), run[k])
  {
    assert run[..k + 1][..k] == run[..k];
  }

  lemma {:induction false} AlwaysBacked(c: Config, table: map<string, Limits>, run: seq<Call>)
    ensures Backed(c, After(c, table, run))
  {
    if run != [] {
      AlwaysBacked(c, table, run[..|run| - 1]);
    }
  }

  lemma {:induction false} KeptIsCoherent(c: Config, table: map<string, Limits>, run: seq<Call>, k: nat, t: int)
    requires Ordered(run) && k <= |run| && Since(run, k, t) && KeptUpTo(c, table, run, k)
    ensures Coherent(After(c, table, run[..k]), t)
  {
    if k > 0 {
      var s := After(c, table, run[..k - 1]);
      KeptIsCoherent(c, table, run, k - 1, run[k - 1].now);
      AlwaysBacked(c, table, run[..k - 1]);
      AfterNext(c, table, run, k - 1);
      CoherentIffKeeps(c, s, run[k - 1]);
    }
  }

  /** If every answer up to the k-th call is right, and right after it too, then that call kept it so. */
  lemma AgreeingIsKept(c: Config, table: map<string, Limits>, run: seq<Call>, k: nat)
    requires Ordered(run) && k < |run|
    requires Agrees(c, After(c, table, run[..k]), run[k].now)
    requires Agrees(c, After(c, table, run[..k + 1]), run[k].now)
    ensures Keeps(c, After(c, table, run[..k]), run[k])
  {
    AlwaysBacked(c, table, run[..k]);
    AlwaysBacked(c, table, run[..k + 1]);
    AfterNext(c, table, run, k);
    AgreesIffCoherent(c, After(c, table, run[..k]), run[k].now);
    AgreesIffCoherent(c, After(c, table, run[..k + 1]), run[k].now);
    CoherentIffKeeps(c, After(c, table, run[..k]), run[k]);
  }

  /**
    Over every sequence of calls, under every pattern of failures: all answers that can be given
    at any time are the current override or the defaults if and only if every call keeps agreement.
   */
  lemma AnswersAgreeIff(c: Config, table: map<string, Limits>, run: seq<Call>)
    requires Ordered(run)
    ensures (forall k, t :: 0 <= k <= |run| && Since(run, k, t) ==> Agrees(c, After(c, table, run[..k]), t))
       <==> KeptUpTo(c, table, run, |run|)
  {
    if KeptUpTo(c, table, run, |run|) {
      forall k, t | 0 <= k <= |run| && Since(run, k, t)
        ensures Agrees(c, After(c, table, run[..k]), t)
      {
        KeptIsCoherent(c, table, run, k, t);
        AlwaysBacked(c, table, run[..k]);
        AgreesIffCoherent(c, After(c, table, run[..k]), t);
      }
    }
    if forall k, t :: 0 <= k <= |run| && Since(run, k, t) ==> Agrees(c, After(c, table, run[..k]), t) {
      forall k | 0 <= k < |run|
        ensures Keeps(c, After(c, table, run[..k]), run[k])
      {
        assert Since(run, k, run[k].now) && Since(run, k + 1, run[k].now);
        AgreeingIsKept(c, table, run, k);
      }
    }
  }

  /** A call in which Redis works and no statement is applied while reporting an error. */
  predicate Certain(call: Call) {
    match call
    case Read(_, _, _, _, _, _) => true
    case Set(_, _, _, exec, write) => !exec.AppliedWithError? && write.applied
    case Clear(_, _, exec, delApplied) => !exec.AppliedWithError? && delApplied
  }

  lemma CertainCallsKeep(c: Config, table: map<string, Limits>, run: seq<Call>)
    requires forall k :: 0 <= k < |run| ==> Certain(run[k])
    ensures KeptUpTo(c, table, run, |run|)
  {
    forall k | 0 <= k < |run|
      ensures Keeps(c, After(c, table, run[..k]), run[k])
    {
      AlwaysBacked(c, table, run[..k]);
      assert Certain(run[k]);
    }
  }

  // ---------------------------------------------------------------- what a user is told

  /** An error is answered exactly when Redis cannot be asked, or the table must be and cannot. */
  lemma ErrorIff(c: Config, s: Contents, user: string, now: int, getOk: bool, readable: bool, queryOk: bool)
    ensures AnswerOf(c, s, user, now, getOk, readable, queryOk) == Error
       <==> (c.hasRedis && !getOk) || (!(c.hasRedis && Live(s, user, now) && readable) && c.hasPool && !queryOk)
  {}

  /** A user without an override is answered the defaults, after every run of calls that keep agreement. */
  lemma DefaultsWithoutOverride(c: Config, table: map<string, Limits>, run: seq<Call>, user: string, now: int,
                                getOk: bool, readable: bool, queryOk: bool)
    requires Ordered(run) && KeptUpTo(c, table, run, |run|) && Since(run, |run|, now)
    requires getOk && queryOk && user !in After(c, table, run).table
    ensures AnswerOf(c, After(c, table, run), user, now, getOk, readable, queryOk) == Answer(c.defaults, false)
  {
    KeptIsCoherent(c, table, run, |run|, now);
    assert run[..|run|] == run;
  }

  /** An override that is set without an error is answered, whatever was there before. */
  lemma SetIsAnswered(c: Config, s: Contents, user: string, lim: Limits, now: int, later: int, readable: bool, ok: bool)
    requires Backed(c, s) && c.hasPool && Positive(lim) && now <= later
    ensures var s' := Step(c, s, Set(user, now, lim, Done, Command(true, ok)));
            AnswerOf(c, s', user, later, true, readable, true) == Answer(lim, true)
  {}

  /** One that is removed is forgotten. */
  lemma ClearIsForgotten(c: Config, s: Contents, user: string, now: int, later: int, readable: bool)
    requires Backed(c, s)
    ensures var s' := Step(c, s, Clear(user, now, Done, true));
            AnswerOf(c, s', user, later, true, readable, true) == Answer(c.defaults, false)
  {}

  /** An override read from the table is answered from Redis for the next five minutes. */
  lemma ReadFillsCache(c: Config, s: Contents, user: string, now: int, later: int, readable: bool, ok: bool)
    requires c.hasRedis && c.hasPool && user in s.table && Positive(s.table[user]) && now <= later < now + 300000
    requires !(Live(s, user, now) && readable)
    ensures var s' := Step(c, s, Read(user, now, true, readable, true, Command(true, ok)));
            AnswerOf(c, s', user, later, true, true, false) == Answer(s.table[user], true)
  {}

  // ---------------------------------------------------------------- the store as an object

  /** The table as it stood at some moment. */
  datatype Moment = Moment(time: int, table: map<string, Limits>)

  class LimitStore {
    const config: Config
    var table: map<string, Limits>
    var cache: map<string, Cached>
    /** The table at the end of every call so far. */
    ghost var history: seq<Moment>
    /** The moment each cached entry was taken from. */
    ghost var source: map<string, nat>

    function State(): Contents
      reads this
    {
      Contents(table, cache)
    }

    /** The limits were the user's override at some moment in [from, to]. */
    ghost predicate WasEffective(user: string, lim: Limits, from: int, to: int)
      reads this
    {
      exists i :: 0 <= i < |history| && from <= history[i].time <= to
                  && InForce(config, history[i].table, user) == Answer(lim, true)
    }

    /** A cached override is positive and was in force when the entry was written. */
    ghost predicate Dated(user: string)
      requires user in cache
      reads this
    {
      && Positive(cache[user].limits)
      && user in source && source[user] < |history|
      && history[source[user]].time == cache[user].expires - TTL
      && InForce(config, history[source[user]].table, user) == Answer(cache[user].limits, true)
    }

    ghost predicate Valid()
      reads this
    {
      && Backed(config, State())
      && (forall u :: u in table ==> Positive(table[u]))
      && (forall u :: u in cache ==> Dated(u))
    }

    /** The clock has not gone back. */
    ghost predicate Later(now: int)
      reads this
    {
      forall i :: 0 <= i < |history| ==> history[i].time <= now
    }

    constructor (config: Config, table: map<string, Limits>)
      requires forall u :: u in table ==> Positive(table[u])
      ensures Valid() && history == [] && this.config == config && State() == After(config, table, [])
    {
      this.config, this.table, cache, history, source := config, table, map[], [], map[];
    }

    /**
      The effective limits. A coherent cache makes them the current ones; otherwise an override
      it answers was in force at some moment of the last five minutes.
     */
    method Effective(user: string, now: int, getOk: bool, readable: bool, queryOk: bool, write: Command)
      returns (a: Answer)
      requires Valid() && Later(now)
      modifies this
      ensures Valid() && Later(now) && history == old(history) + [Moment(now, table)]
      ensures a == AnswerOf(config, old(State()), user, now, getOk, readable, queryOk)
      ensures State() == Step(config, old(State()), Read(user, now, getOk, readable, queryOk, write))
      ensures a.Answer? && old(Coherent(State(), now)) ==> a == InForce(config, table, user)
      ensures a.Answer? && a.overridden ==> Positive(a.limits) && WasEffective(user, a.limits, now - TTL, now)
      ensures a.Answer? && !a.overridden ==> a == InForce(config, table, user)
      ensures old(Coherent(State(), now)) ==> Coherent(State(), now)
    {
      history := history + [Moment(now, table)];
      if config.hasRedis {
        if !getOk {
          return Error;
        }
        if user in cache && now < cache[user].expires && readable && Positive(cache[user].limits) {
          return Answer(cache[user].limits, true);
        }
      }
      if config.hasPool {
        if !queryOk {
          return Error;
        }
        if user in table {
          var _ := Cache(user, now, table[user], write);
          return Answer(table[user], true);
        }
      }
      a := Answer(config.defaults, false);
    }

    method Cache(user: string, now: int, lim: Limits, write: Command) returns (ok: bool)
      requires Valid() && Positive(lim) && history != []
      requires history[|history| - 1].time == now
      requires InForce(config, history[|history| - 1].table, user) == Answer(lim, true)
      modifies this`cache, this`source
      ensures Valid()
      ensures State() == if config.hasRedis && write.applied then Stored(old(State()), user, lim, now) else old(State())
      ensures ok <==> !config.hasRedis || write.ok
    {
      if !config.hasRedis {
        return true;
      }
      if write.applied {
        cache := cache[user := Cached(lim, now + TTL)];
        source := source[user := |history| - 1];
      }
      ok := write.ok;
    }

    /** Limits that are not positive are refused; row and entry change together or the call says when not. */
    method SetOverride(user: string, lim: Limits, now: int, exec: Statement, write: Command) returns (ok: bool)
      requires Valid() && Later(now)
      modifies this
      ensures Valid() && Later(now) && history == old(history) + [Moment(now, table)]
      ensures State() == Step(config, old(State()), Set(user, now, lim, exec, write))
      ensures ok <==> Positive(lim) && config.hasPool && exec.Done? && (!config.hasRedis || write.ok)
      ensures old(Coherent(State(), now)) && Positive(lim) && config.hasPool ==>
        (Coherent(State(), now) <==>
           || exec.Refused? || (exec.Done? && config.hasRedis && write.applied)
           || !old(Live(State(), user, now)) || old(cache)[user].limits == lim)
    {
      CoherentIfKept(Set(user, now, lim, exec, write));
      if !Positive(lim) || !config.hasPool {
        history := history + [Moment(now, table)];
        return false;
      }
      if !exec.Refused? {
        table := table[user := lim];
      }
      history := history + [Moment(now, table)];
      if !exec.Done? {
        return false;
      }
      ok := Cache(user, now, lim, write);
    }

    /** Deletes the row, then the entry; a failed delete of the entry is not reported. */
    method ClearOverride(user: string, now: int, exec: Statement, delApplied: bool) returns (ok: bool)
      requires Valid() && Later(now)
      modifies this
      ensures Valid() && Later(now) && history == old(history) + [Moment(now, table)]
      ensures State() == Step(config, old(State()), Clear(user, now, exec, delApplied))
      ensures ok <==> !config.hasPool || exec.Done?
      ensures old(Coherent(State(), now)) && config.hasPool ==>
        (Coherent(State(), now) <==>
           || exec.Refused? || (exec.Done? && config.hasRedis && delApplied)
           || !old(Live(State(), user, now)))
    {
      CoherentIfKept(Clear(user, now, exec, delApplied));
      if config.hasPool && !exec.Refused? {
        table := table - {user};
      }
      history := history + [Moment(now, table)];
      if config.hasPool && !exec.Done? {
        return false;
      }
      if config.hasRedis && delApplied {
        cache := cache - {user};
      }
      ok := true;
    }

    /** The exact condition, for a call about to be made. */
    lemma CoherentIfKept(call: Call)
      requires Valid()
      ensures Coherent(State(), call.now) ==>
                (Coherent(Step(config, State(), call), call.now) <==> Keeps(config, State(), call))
    {
      if Coherent(State(), call.now) {
        CoherentIffKeeps(config, State(), call);
      }
    }
  }

  /**
    Agreement needs more than a working Redis: with a live entry, an override whose statement is
    applied but reports an error never reaches the cache, which goes on answering the previous one.
   */
  method UncertainStatementGoesStale(user: string, older: Limits, newer: Limits)
    returns (current: Limits, answered: Answer)
    requires Positive(older) && Positive(newer) && older != newer
    ensures current == newer && answered == Answer(older, true)
  {
    var s := new LimitStore(Config(true, true, older), map[]);
    var works := Command(true, true);
    var _ := s.SetOverride(user, older, 0, Done, works);
    var _ := s.SetOverride(user, newer, 1, AppliedWithError, works);
    current := s.table[user];
    answered := s.Effective(user, 2, true, true, true, works);
  }

  /** And without a live entry it is harmless: the next answer is the new row. */
  method UncertainStatementOnNoEntry(user: string, defaults: Limits, newer: Limits) returns (answered: Answer)
    requires Positive(newer)
    ensures answered == Answer(newer, true)
  {
    var s := new LimitStore(Config(true, true, defaults), map[]);
    var works := Command(true, true);
    var _ := s.SetOverride(user, newer, 0, AppliedWithError, works);
    answered := s.Effective(user, 1, true, true, true, works);
  }
}
