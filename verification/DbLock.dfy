/** The advisory lock: a server that grants it to sessions, the pool of connections a
    process keeps, and the handle on a held lock. Sources: internal/dblock/dblock.go,
    internal/dblock/engines.go. */
module DbLock {
  import opened Wrappers
  import Protocol

  datatype Error = NoConnection | NotAcquired | NotHeld | Broken

  /** A granted lock counts how often its session took it. */
  datatype Hold = Hold(session: nat, count: nat)

  /** What the server keeps: the sessions that are open and the locks they hold. */
  datatype Locks = Locks(sessions: set<nat>, holds: map<string, Hold>) {

    ghost predicate Valid() {
      forall k :: k in holds ==> holds[k].session in sessions && holds[k].count > 0
    }

    predicate HeldBy(session: nat, key: string) {
      key in holds && holds[key].session == session
    }

    /** The lock granted, or nothing while another session holds it. */
    function Lock(session: nat, key: string): Option<Locks> {
      if key !in holds then Some(this.(holds := holds[key := Hold(session, 1)]))
      else if holds[key].session == session then
        Some(this.(holds := holds[key := Hold(session, holds[key].count + 1)]))
      else None
    }

    /** One unlock, or nothing when the session does not hold the lock. */
    function Unlock(session: nat, key: string): Option<Locks> {
      if !HeldBy(session, key) then None
      else if holds[key].count > 1 then
        Some(this.(holds := holds[key := Hold(session, holds[key].count - 1)]))
      else Some(this.(holds := map k | k in holds && k != key :: holds[k]))
    }

    /** The session ends, and the server frees everything it held. */
    function End(session: nat): Locks {
      Locks(sessions - {session}, map k | k in holds && holds[k].session != session :: holds[k])
    }

    /** What a release leaves: the unlock took effect or failed, and the connection went
        back to the pool with its session or was dropped. */
    function Release(session: nat, key: string, unlocked: bool, dropped: bool): Locks
      requires unlocked ==> HeldBy(session, key)
    {
      var after := if unlocked then Unlock(session, key).value else this;
      if dropped then after.End(session) else after
    }
  }

  // ----- What a release frees -----

  /** After a release the session still holds the lock unless the connection was dropped
      or the unlock took effect on a lock taken once. No other lock of another session is
      touched. */
  lemma ReleaseFrees(locks: Locks, session: nat, key: string, unlocked: bool, dropped: bool)
    requires locks.Valid() && locks.HeldBy(session, key)
    ensures var after := locks.Release(session, key, unlocked, dropped);
            && after.Valid()
            && (!after.HeldBy(session, key) <==> dropped || (unlocked && locks.holds[key].count == 1))
            && forall k :: k in locks.holds && locks.holds[k].session != session ==>
                 k in after.holds && after.holds[k] == locks.holds[k]
  {
    var after := locks.Release(session, key, unlocked, dropped);
    forall k | k in after.holds
      ensures k in locks.holds && after.holds[k].session == locks.holds[k].session && after.holds[k].count > 0
      ensures dropped ==> after.holds[k].session != session
    {
    }
  }

  lemma EndFrees(locks: Locks, session: nat)
    ensures forall s, k :: locks.End(session).HeldBy(s, k) <==> locks.HeldBy(s, k) && s != session
  {
  }

  /** When the unlock fails and the connection returns to the pool, every other session is
      refused; the next acquire on the pooled session takes the lock a second time, and
      the release after that hands back only one of the two. */
  lemma FailedUnlockKeepsTheLock(locks: Locks, session: nat, other: nat, key: string)
    requires locks.Valid() && locks.HeldBy(session, key) && other != session
    ensures var pooled := locks.Release(session, key, false, false);
            && pooled.Lock(other, key) == None
            && pooled.Lock(session, key).Some?
            && var again := pooled.Lock(session, key).value;
               && again.holds[key] == Hold(session, locks.holds[key].count + 1)
               && again.Release(session, key, true, false).HeldBy(session, key)
               && again.Release(session, key, true, false).Lock(other, key) == None
  {
    var again := locks.Lock(session, key).value;
    assert again.holds[key].count > 1;
  }

  /** The least such case: one lock taken once, its unlock failing, and a second session. */
  lemma SecondSessionIsRefused()
    ensures var locks := Locks({1, 2}, map["dbtools" := Hold(1, 1)]);
            && locks.Release(1, "dbtools", false, false).Lock(2, "dbtools") == None
            && locks.Release(1, "dbtools", true, false).Lock(2, "dbtools").Some?
            && locks.Release(1, "dbtools", false, true).Lock(2, "dbtools").Some?
  {
  }

  // ----- The lock of the protocol -----

  /** The protocol's view of one key, when process `p` owns the session that holds it. */
  function Seen(locks: Locks, key: string, p: nat): Option<Protocol.Hold> {
    if key in locks.holds then Some(Protocol.Hold(p, locks.holds[key].count)) else None
  }

  /** Taking and releasing the lock on the server is what the protocol says it is. */
  lemma ProtocolLocks(locks: Locks, session: nat, key: string, p: nat)
    requires locks.Valid()
    ensures locks.Lock(session, key).Some? ==>
              Seen(locks.Lock(session, key).value, key, p) == Protocol.Relocked(Seen(locks, key, p), p)
    ensures locks.HeldBy(session, key) ==>
              && Seen(locks.Release(session, key, true, false), key, p) ==
                 Protocol.Released(Seen(locks, key, p), Protocol.Unlocked)
              && Seen(locks.Release(session, key, false, false), key, p) ==
                 Protocol.Released(Seen(locks, key, p), Protocol.Kept)
              && (forall unlocked :: Seen(locks.Release(session, key, unlocked, true), key, p) ==
                                     Protocol.Released(Seen(locks, key, p), Protocol.Discarded))
  {
  }

  // ----- The code -----

  /** The database server. */
  class Server {
    var locks: Locks

    constructor ()
      ensures locks == Locks({}, map[])
    {
      locks := Locks({}, map[]);
    }

    /** A new session, or none when the server cannot be reached. */
    method Open() returns (r: Result<nat, Error>)
      modifies this
      ensures r.Ok? ==>
                && r.value !in old(locks.sessions)
                && locks == old(locks).(sessions := old(locks.sessions) + {r.value})
      ensures r.Err? ==> locks == old(locks)
    {
      var s: nat, reachable := *, *;
      if !reachable || s in locks.sessions {
        return Err(NoConnection);
      }
      locks := locks.(sessions := locks.sessions + {s});
      r := Ok(s);
    }

    /** Waits until the lock is free, or gives up with the caller's deadline: a lock that
        another session holds is never granted. */
    method Lock(session: nat, key: string) returns (ok: bool)
      modifies this
      ensures ok ==> old(locks).Lock(session, key) == Some(locks)
      ensures !ok ==> locks == old(locks)
    {
      ok := *;
      var granted := locks.Lock(session, key);
      if granted == None {
        ok := false;
      }
      if ok {
        locks := granted.value;
      }
    }

    /** One unlock; it is an error when the session does not hold the lock. */
    method Unlock(session: nat, key: string) returns (err: Option<Error>)
      modifies this
      ensures err == None ==> old(locks).Unlock(session, key) == Some(locks)
      ensures err != None ==> locks == old(locks)
      ensures !old(locks).HeldBy(session, key) ==> err != None
    {
      var reachable := *;
      if !reachable {
        return Some(Broken);
      }
      var unlocked := locks.Unlock(session, key);
      if unlocked == None {
        return Some(NotHeld);
      }
      locks := unlocked.value;
      err := None;
    }

    method End(session: nat)
      modifies this
      ensures locks == old(locks).End(session)
    {
      locks := locks.End(session);
    }
  }

  /** A process's connections to one server: a connection that is closed goes back to the
      idle ones and keeps its session, unless it is broken or there are idle ones enough. */
  class Pool {
    const server: Server
    var idle: set<nat>
    var busy: set<nat>

    ghost predicate Valid()
      reads this, server
    {
      server.locks.Valid() && idle !! busy && idle + busy <= server.locks.sessions
    }

    constructor (server: Server)
      requires server.locks.Valid()
      ensures Valid() && this.server == server && idle == {} && busy == {}
    {
      this.server := server;
      idle, busy := {}, {};
    }

    /** A connection: an idle one with the session it already has, or a new one. */
    method Conn() returns (r: Result<nat, Error>)
      requires Valid()
      modifies this, server
      ensures Valid() && server.locks.holds == old(server.locks.holds)
      ensures r.Ok? ==> r.value !in old(busy) && busy == old(busy) + {r.value} && idle == old(idle) - {r.value}
      ensures r.Ok? && r.value !in old(idle) ==> r.value !in old(server.locks.sessions)
      ensures r.Err? ==> busy == old(busy) && idle == old(idle)
    {
      var s: nat, usable := *, *;
      if usable && s in idle {
        idle, busy := idle - {s}, busy + {s};
        return Ok(s);
      }
      r := server.Open();
      if r.Ok? {
        busy := busy + {r.value};
      }
    }

    /** Gives a connection back; `dropped` says that its session ended. */
    method Put(session: nat) returns (dropped: bool)
      requires Valid() && session in busy
      modifies this, server
      ensures Valid() && busy == old(busy) - {session}
      ensures idle == if dropped then old(idle) else old(idle) + {session}
      ensures server.locks == if dropped then old(server.locks).End(session) else old(server.locks)
    {
      dropped := *;
      busy := busy - {session};
      if dropped {
        server.End(session);
      } else {
        idle := idle + {session};
      }
    }

    /** Closing the database ends every idle session, and with it any lock left on one. */
    method Close()
      requires Valid() && busy == {}
      modifies this, server
      ensures Valid() && idle == {}
      ensures forall s, k :: s in old(idle) ==> !server.locks.HeldBy(s, k)
      ensures forall k :: k in old(server.locks.holds) && old(server.locks.holds)[k].session !in old(idle) ==>
                k in server.locks.holds && server.locks.holds[k] == old(server.locks.holds)[k]
    {
      ghost var gone := {};
      while idle != {}
        invariant Valid() && busy == {} && gone + idle == old(idle) && gone !! idle
        invariant forall s, k :: s in gone ==> !server.locks.HeldBy(s, k)
        invariant forall k :: k in old(server.locks.holds) && old(server.locks.holds)[k].session !in old(idle) ==>
                    k in server.locks.holds && server.locks.holds[k] == old(server.locks.holds)[k]
        decreases idle
      {
        var s :| s in idle;
        EndFrees(server.locks, s);
        server.End(s);
        idle := idle - {s};
        gone := gone + {s};
      }
    }
  }

  /** A held lock: its connection stays checked out until the first release. */
  class Lock {
    const pool: Pool
    const key: string
    const session: nat
    var done: bool
    var relErr: Option<Error>

    /** How the first release went: whether the unlock took effect, and whether the
        connection was dropped. */
    ghost var unlocked: bool
    ghost var dropped: bool

    ghost predicate Valid()
      reads this, pool, pool.server
    {
      pool.Valid() && (!done ==> session in pool.busy)
    }

    constructor (pool: Pool, key: string, session: nat)
      requires pool.Valid() && session in pool.busy
      ensures Valid() && !done && this.pool == pool && this.key == key && this.session == session
    {
      this.pool, this.key, this.session := pool, key, session;
      done, relErr := false, None;
      unlocked, dropped := false, false;
    }

    /** The first call unlocks and gives the connection back; when the unlock fails it
        says so, and the lock stays on the pooled session unless the pool drops it. Every
        later call changes nothing, so it can never take the lock from the next holder,
        and reports the same error again. */
    method Release() returns (err: Option<Error>)
      requires Valid()
      modifies this, pool, pool.server
      ensures Valid() && done && err == relErr
      ensures old(done) ==> relErr == old(relErr) && pool.server.locks == old(pool.server.locks)
      ensures old(done) ==> pool.idle == old(pool.idle) && pool.busy == old(pool.busy)
      ensures !old(done) ==>
                && (unlocked ==> old(pool.server.locks).HeldBy(session, key))
                && pool.server.locks == old(pool.server.locks).Release(session, key, unlocked, dropped)
                && pool.busy == old(pool.busy) - {session}
                && pool.idle == (if dropped then old(pool.idle) else old(pool.idle) + {session})
                && (!unlocked ==> err != None)
      ensures !old(done) && old(pool.server.locks).HeldBy(session, key) ==>
                (!pool.server.locks.HeldBy(session, key) <==>
                   dropped || (unlocked && old(pool.server.locks).holds[key].count == 1))
    {
      if !done {
        ghost var before := pool.server.locks;
        done := true;
        var unlockErr := pool.server.Unlock(session, key);
        unlocked := unlockErr == None;
        UnlockKeepsSessions(before, session, key);
        var closed := pool.Put(session);
        dropped := closed;
        var closeErr: Option<Error> := *;
        relErr := if unlockErr == None then closeErr else unlockErr;
        if before.HeldBy(session, key) {
          ReleaseFrees(before, session, key, unlocked, dropped);
        }
      }
      err := relErr;
    }
  }

  lemma UnlockKeepsSessions(locks: Locks, session: nat, key: string)
    requires locks.Valid()
    ensures var after := locks.Unlock(session, key);
            after.Some? ==> after.value.Valid() && after.value.sessions == locks.sessions
  {
  }

  /** Takes a connection and the lock on it; a connection that does not get the lock is
      given back. Nobody but the session granted it held the lock before: a pooled session
      that still holds it from a failed unlock takes it once more. */
  method Acquire(pool: Pool, key: string) returns (r: Result<Lock, Error>)
    requires pool.Valid()
    modifies pool, pool.server
    ensures pool.Valid()
    ensures r.Err? ==>
              forall k ::
                k in old(pool.server.locks.holds) && old(pool.server.locks.holds)[k].session !in old(pool.idle) ==>
                k in pool.server.locks.holds && pool.server.locks.holds[k] == old(pool.server.locks.holds)[k]
    ensures r.Ok? ==>
              && fresh(r.value) && r.value.Valid() && !r.value.done && r.value.pool == pool && r.value.key == key
              && var s := r.value.session;
                 && s !in old(pool.busy) && s in pool.busy
                 && (key in old(pool.server.locks.holds) ==>
                       old(pool.server.locks).HeldBy(s, key) && s in old(pool.idle))
                 && pool.server.locks.holds ==
                    old(pool.server.locks.holds)[key := Hold(s,
                      if key in old(pool.server.locks.holds) then old(pool.server.locks.holds)[key].count + 1 else 1)]
  {
    var s := pool.Conn();
    if s.Err? {
      return Err(NoConnection);
    }
    var ok := pool.server.Lock(s.value, key);
    if !ok {
      var _ := pool.Put(s.value);
      return Err(NotAcquired);
    }
    var lock := new Lock(pool, key, s.value);
    r := Ok(lock);
  }

  // ----- Keys -----

  const PREFIX := "dbtools-"
  const GLOBAL := "dbtools"

  function KeyFor(database: string): string {
    if database == "" then GLOBAL else PREFIX + database
  }

  /** `mysqlKey` and `mssqlKey`: names longer than the server allows are cut. */
  function Cut(key: string, limit: nat): string {
    if |key| <= limit then key else key[..limit]
  }

  const MYSQL: nat := 64
  const MSSQL: nat := 255

  /** Two databases exclude each other's migrations if and only if they are the same one
      or agree on as much of their names as the server keeps. */
  lemma KeysCollide(a: string, b: string, limit: nat)
    requires limit > |PREFIX|
    ensures var room := limit - |PREFIX|;
            Cut(KeyFor(a), limit) == Cut(KeyFor(b), limit) <==>
            a == b || (a != "" && b != "" && |a| >= room && |b| >= room && a[..room] == b[..room])
  {
    var room := limit - |PREFIX|;
    CutKey(a, limit);
    CutKey(b, limit);
    if a != "" && b != "" {
      PrefixedEqual(Cut(a, room), Cut(b, room));
    } else {
      assert |GLOBAL| < |PREFIX|;
    }
  }

  lemma CutKey(a: string, limit: nat)
    requires limit > |PREFIX|
    ensures Cut(KeyFor(a), limit) == if a == "" then GLOBAL else PREFIX + Cut(a, limit - |PREFIX|)
    ensures a != "" ==> Cut(a, limit - |PREFIX|) != ""
  {
    if a != "" && |PREFIX + a| > limit {
      assert (PREFIX + a)[..limit] == PREFIX + a[..limit - |PREFIX|];
    }
  }

  lemma PrefixedEqual(x: string, y: string)
    ensures PREFIX + x == PREFIX + y <==> x == y
  {
    assert (PREFIX + x)[|PREFIX|..] == x && (PREFIX + y)[|PREFIX|..] == y;
  }

  /** Databases whose names are short enough never wait for each other; the same database
      always does. */
  lemma ShortNamesHaveTheirOwnKeys(a: string, b: string, limit: nat)
    requires limit == MYSQL || limit == MSSQL
    requires |a| <= limit - |PREFIX| && |b| <= limit - |PREFIX|
    ensures Cut(KeyFor(a), limit) == Cut(KeyFor(b), limit) <==> a == b
  {
    KeysCollide(a, b, limit);
    assert |a| == limit - |PREFIX| ==> a[..|a|] == a;
    assert |b| == limit - |PREFIX| ==> b[..|b|] == b;
  }
}
