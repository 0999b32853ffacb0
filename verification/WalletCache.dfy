/**
  The two-tier wallet cache of the gateways (api/internal/cache/wallet.go): a tier in each process
  over one Redis tier over the database row, both with a lifetime of 45 seconds.

  Times are integer milliseconds; calls, by any gateway, follow one another. `db` is the history
  of the joined wallet row: what a query for a user would return at each moment. Redis commands
  may fail without the caller noticing.
 */
module WalletCache {
  import opened Wrappers
  import opened Delivery

  const TTL := 45000

  datatype Entry = Entry(snap: WalletSnapshot, expires: int)

  /**
    What one call observes, in the order in which it may happen: the Redis DEL, the Redis GET, the
    query, the Redis SET and the store into the first tier.
   */
  datatype Io = Io(
    delApplied: bool,
    getAt: int, readable: bool,
    dbAt: int, row: Option<WalletSnapshot>,
    setAt: int, setApplied: bool,
    storedAt: int)

  /** What a query for a user would return at each moment. */
  type Rows = (string, int) -> Option<WalletSnapshot>

  /** The snapshot was the row at some past moment, no more than `age` before it expires. */
  ghost predicate Dated(db: Rows, now: int, user: string, e: Entry, age: int) {
    exists t :: t <= now && e.expires <= t + age && db(user, t) == Some(e.snap)
  }

  ghost predicate WasRow(db: Rows, user: string, snap: WalletSnapshot, from: int, to: int) {
    exists t :: from <= t <= to && db(user, t) == Some(snap)
  }

  ghost predicate FirstDated(db: Rows, now: int, latency: nat, l1: map<(string, string), Entry>) {
    forall k :: k in l1 ==> Dated(db, now, k.1, l1[k], 2 * (TTL + latency))
  }

  ghost predicate SecondDated(db: Rows, now: int, latency: nat, l2: map<string, Entry>) {
    forall u :: u in l2 ==> Dated(db, now, u, l2[u], TTL + latency)
  }

  /** Later moments date every older entry. */
  lemma StillDated(
    db: Rows, before: int, now: int, latency: nat, l1: map<(string, string), Entry>, l2: map<string, Entry>)
    requires before <= now && FirstDated(db, before, latency, l1) && SecondDated(db, before, latency, l2)
    ensures FirstDated(db, now, latency, l1) && SecondDated(db, now, latency, l2)
  {
    forall k | k in l1
      ensures Dated(db, now, k.1, l1[k], 2 * (TTL + latency))
    {
      assert Dated(db, before, k.1, l1[k], 2 * (TTL + latency));
    }
    forall u | u in l2
      ensures Dated(db, now, u, l2[u], TTL + latency)
    {
      assert Dated(db, before, u, l2[u], TTL + latency);
    }
  }

  /** The call starts at `start`, after every earlier call, and sees the row as it was then. */
  ghost predicate Observation(db: Rows, now: int, latency: nat, user: string, start: int, io: Io) {
    && now <= start <= io.getAt <= io.dbAt <= io.setAt <= io.storedAt <= start + latency
    && (io.row.Some? ==> db(user, io.dbAt) == io.row)
  }

  /** The second tier answers the call. */
  predicate Holds(l2: map<string, Entry>, user: string, io: Io) {
    user in l2 && io.getAt < l2[user].expires && io.readable
  }

  /** The second tier after a load: the queried row is stored, if there is one and the SET works. */
  function AfterLoad(l2: map<string, Entry>, user: string, io: Io): map<string, Entry> {
    if !Holds(l2, user, io) && io.row.Some? && io.setApplied then l2[user := Entry(io.row.value, io.setAt + TTL)]
    else l2
  }

  /** What a load returns was the row at most 45 seconds ago, and what it stores is dated. */
  lemma LoadIsDated(db: Rows, now: int, latency: nat, l2: map<string, Entry>, user: string, start: int, io: Io)
    requires SecondDated(db, now, latency, l2) && Observation(db, now, latency, user, start, io)
    ensures SecondDated(db, io.storedAt, latency, AfterLoad(l2, user, io))
    ensures var r := if Holds(l2, user, io) then Some(l2[user].snap) else io.row;
            r.Some? ==> WasRow(db, user, r.value, io.getAt - (TTL + latency), io.storedAt)
  {
    StillDated(db, now, io.storedAt, latency, map[], l2);
    if Holds(l2, user, io) {
      assert Dated(db, now, user, l2[user], TTL + latency);
    } else if io.row.Some? {
      assert Dated(db, io.storedAt, user, Entry(io.row.value, io.setAt + TTL), TTL + latency);
    }
  }

  /** What is stored in a first tier right after such a load is dated too. */
  lemma StoredIsDated(db: Rows, latency: nat, user: string, snap: WalletSnapshot, start: int, io: Io)
    requires start <= io.getAt <= io.storedAt <= start + latency
    requires WasRow(db, user, snap, io.getAt - (TTL + latency), io.storedAt)
    ensures Dated(db, io.storedAt, user, Entry(snap, io.storedAt + TTL), 2 * (TTL + latency))
    ensures WasRow(db, user, snap, start - 2 * (TTL + latency), io.storedAt)
  {}

  class WalletCache {
    ghost const db: Rows
    /** No call takes longer than this. */
    ghost const latency: nat
    /** The first tiers, by gateway process and user. */
    var l1: map<(string, string), Entry>
    var l2: map<string, Entry>
    /** The end of the last call. */
    ghost var now: int

    ghost predicate Valid()
      reads this
    {
      FirstDated(db, now, latency, l1) && SecondDated(db, now, latency, l2)
    }

    ghost predicate Observes(user: string, start: int, io: Io)
      reads this
    {
      Observation(db, now, latency, user, start, io)
    }

    /** The first tier of the gateway answers the call. */
    ghost predicate Hit(gateway: string, user: string, start: int)
      reads this
    {
      (gateway, user) in l1 && start <= l1[(gateway, user)].expires
    }

    constructor (ghost db: Rows, ghost latency: nat, ghost start: int)
      ensures Valid() && this.db == db && this.latency == latency && now == start
      ensures l1 == map[] && l2 == map[]
    {
      l1, l2 := map[], map[];
      this.db, this.latency, this.now := db, latency, start;
    }

    /**
      The second tier, else the row. Absent when the query fails. With the entry gone or
      unreadable this is the row at the moment of the query.
     */
    method LoadL2OrDB(user: string, ghost start: int, io: Io) returns (r: Option<WalletSnapshot>)
      requires Valid() && Observes(user, start, io)
      modifies this`l2, this`now
      ensures Valid() && now == io.storedAt
      ensures r == if Holds(old(l2), user, io) then Some(old(l2)[user].snap) else io.row
      ensures l2 == AfterLoad(old(l2), user, io)
      ensures r.Some? ==> WasRow(db, user, r.value, io.getAt - (TTL + latency), io.storedAt)
    {
      LoadIsDated(db, now, latency, l2, user, start, io);
      StillDated(db, now, io.storedAt, latency, l1, l2);
      now := io.storedAt;
      if user in l2 && io.getAt < l2[user].expires && io.readable {
        return Some(l2[user].snap);
      }
      if io.row.None? {
        return None;
      }
      r := io.row;
      if io.setApplied {
        l2 := l2[user := Entry(io.row.value, io.setAt + TTL)];
      }
    }

    /**
      Whatever Redis does, and whichever gateway is asked, a cached balance and price were the row
      at some moment of the last 90 seconds (plus twice the latency of a call).
     */
    method Get(gateway: string, user: string, start: int, io: Io) returns (r: Option<WalletSnapshot>)
      requires Valid() && Observes(user, start, io)
      modifies this`l1, this`l2, this`now
      ensures Valid() && now == io.storedAt
      ensures r == if old(Hit(gateway, user, start)) then Some(old(l1)[(gateway, user)].snap)
                   else if Holds(old(l2), user, io) then Some(old(l2)[user].snap) else io.row
      ensures l1 == if old(Hit(gateway, user, start)) || r.None? then old(l1)
                    else old(l1)[(gateway, user) := Entry(r.value, io.storedAt + TTL)]
      ensures l2 == if old(Hit(gateway, user, start)) then old(l2) else AfterLoad(old(l2), user, io)
      ensures r.Some? ==> WasRow(db, user, r.value, start - 2 * (TTL + latency), io.storedAt)
    {
      if (gateway, user) in l1 && start <= l1[(gateway, user)].expires {
        assert Dated(db, now, user, l1[(gateway, user)], 2 * (TTL + latency));
        StillDated(db, now, io.storedAt, latency, l1, l2);
        now := io.storedAt;
        return Some(l1[(gateway, user)].snap);
      }
      r := LoadL2OrDB(user, start, io);
      if r.Some? {
        StoredIsDated(db, latency, user, r.value, start, io);
        l1 := l1[(gateway, user) := Entry(r.value, io.storedAt + TTL)];
      }
    }

    /** Admission: the balance of the cached snapshot is positive. */
    method HasBalance(gateway: string, user: string, start: int, io: Io)
      returns (ok: bool, r: Option<WalletSnapshot>)
      requires Valid() && Observes(user, start, io)
      modifies this`l1, this`l2, this`now
      ensures Valid() && now == io.storedAt
      ensures r == if old(Hit(gateway, user, start)) then Some(old(l1)[(gateway, user)].snap)
                   else if Holds(old(l2), user, io) then Some(old(l2)[user].snap) else io.row
      ensures ok <==> r.Some? && r.value.balance > 0.0
      ensures l1 == if old(Hit(gateway, user, start)) || r.None? then old(l1)
                    else old(l1)[(gateway, user) := Entry(r.value, io.storedAt + TTL)]
      ensures l2 == if old(Hit(gateway, user, start)) then old(l2) else AfterLoad(old(l2), user, io)
      ensures r.Some? ==> WasRow(db, user, r.value, start - 2 * (TTL + latency), io.storedAt)
    {
      r := Get(gateway, user, start, io);
      ok := r.Some? && r.value.balance > 0.0;
    }

    /** Only the asking gateway's first tier forgets the user. */
    method Invalidate(gateway: string, user: string, delApplied: bool)
      requires Valid()
      modifies this`l1, this`l2
      ensures Valid()
      ensures l1 == old(l1) - {(gateway, user)}
      ensures l2 == if delApplied then old(l2) - {user} else old(l2)
    {
      l1 := l1 - {(gateway, user)};
      if delApplied {
        l2 := l2 - {user};
      }
    }

    /**
      The balance a stream's budget is reset to: the row of this very moment unless the Redis
      delete failed and its entry survives, and even then one of the last 45 seconds.
     */
    method Refresh(gateway: string, user: string, start: int, io: Io) returns (r: Option<WalletSnapshot>)
      requires Valid() && Observes(user, start, io)
      modifies this`l1, this`l2, this`now
      ensures Valid() && now == io.storedAt
      ensures r == if !io.delApplied && Holds(old(l2), user, io) then Some(old(l2)[user].snap) else io.row
      ensures l1 == old(l1) - {(gateway, user)}
      ensures l2 == if !io.delApplied then AfterLoad(old(l2), user, io)
                    else if io.row.Some? && io.setApplied then old(l2)[user := Entry(io.row.value, io.setAt + TTL)]
                    else old(l2) - {user}
      ensures io.delApplied && r.Some? ==> db(user, io.dbAt) == r
      ensures r.Some? ==> WasRow(db, user, r.value, start - (TTL + latency), io.storedAt)
    {
      Invalidate(gateway, user, io.delApplied);
      r := LoadL2OrDB(user, start, io);
    }

    /** The metering consumer's own DEL after a debit, which may also fail silently. */
    method DropByConsumer(user: string, delApplied: bool)
      requires Valid()
      modifies this`l2
      ensures Valid()
      ensures l2 == if delApplied then old(l2) - {user} else old(l2)
    {
      if delApplied {
        l2 := l2 - {user};
      }
    }
  }

  /**
    The 90 seconds are reached: an entry that one gateway's refresh left in Redis is copied to
    another's first tier in its last millisecond, and served from there in that tier's last one.
   */
  method StalenessIsReached(user: string, older: WalletSnapshot, newer: WalletSnapshot)
    returns (served: Option<WalletSnapshot>, at: int)
    requires older != newer
    ensures served == Some(older) && at == 2 * TTL - 1
  {
    ghost var db: Rows := (u, t) => if t <= 0 then Some(older) else Some(newer);
    var c := new WalletCache(db, 0, 0);
    var _ := c.Refresh("first", user, 0, Io(true, 0, true, 0, Some(older), 0, true, 0));
    var half := TTL - 1;
    var r := c.Get("second", user, half, Io(true, half, true, half, Some(newer), half, true, half));
    at := 2 * TTL - 1;
    served := c.Get("second", user, at, Io(true, at, true, at, Some(newer), at, true, at));
  }

  /**
    A refresh may return a row older than the one the request was admitted on: Redis holds the old
    row, admission cannot read it there or write over it, and the refresh cannot delete it.
   */
  method RefreshGoesBack(user: string, older: WalletSnapshot, newer: WalletSnapshot)
    returns (admitted: Option<WalletSnapshot>, refreshed: Option<WalletSnapshot>)
    requires newer.balance > 0.0
    ensures admitted == Some(newer) && refreshed == Some(older)
  {
    ghost var db: Rows := (u, t) => if t <= 0 then Some(older) else Some(newer);
    var c := new WalletCache(db, 0, 0);
    var _ := c.Refresh("first", user, 0, Io(true, 0, true, 0, Some(older), 0, true, 0));
    var ok;
    ok, admitted := c.HasBalance("second", user, 1, Io(false, 1, false, 1, Some(newer), 1, false, 1));
    refreshed := c.Refresh("second", user, 2, Io(false, 2, true, 2, Some(newer), 2, true, 2));
  }
}
