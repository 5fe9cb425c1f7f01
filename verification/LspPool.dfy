/**
  The pool of language-server sessions shared by all tasks. The critical sections under the pool's
  lock are methods of `SessionPool`; everything between them interleaves, so whole runs are runs of
  the state machine of `LspPoolRuns`, whose steps use the functions those methods are proved against.
 */
module LspPool {
  import opened Basics

  const MAX_POOLED: nat := 8
  const IDLE_SECS: nat := 300

  type Key = nat       // workspace root, server root and command
  type Session = nat   // one started server process
  type Task = nat

  datatype Entry = Entry(session: Session, lastUsed: nat)

  type Pool = map<Key, Entry>

  // ---- The critical sections --------------------------------------------------------------

  /** Entries nobody else holds (`Arc::strong_count == 1`) and nobody used for a while. */
  function IdleKeys(pool: Pool, held: set<Session>, now: nat): set<Key> {
    set k | k in pool && pool[k].session !in held && now >= pool[k].lastUsed + IDLE_SECS
  }

  function SessionsOf(pool: Pool, keys: set<Key>): set<Session>
    requires keys <= pool.Keys
  {
    set k | k in keys :: pool[k].session
  }

  /** `key` may be evicted for capacity: not held, and least recently used among such. */
  predicate Oldest(pool: Pool, held: set<Session>, key: Key) {
    && key in pool && pool[key].session !in held
    && forall k | k in pool && pool[k].session !in held :: pool[key].lastUsed <= pool[k].lastUsed
  }

  predicate AllHeld(pool: Pool, held: set<Session>) {
    forall k | k in pool :: pool[k].session in held
  }

  /** The keys the first critical section of `acquire_lsp_session` removes: idle ones always, and
      the oldest free one if the key is absent and the pool still full. */
  ghost predicate Removes(pool: Pool, held: set<Session>, key: Key, now: nat, removed: set<Key>) {
    var idle := IdleKeys(pool, held, now);
    var rest := pool - idle;
    if key in rest || |rest| < MAX_POOLED || AllHeld(rest, held) then removed == idle
    else exists victim :: Oldest(rest, held, victim) && removed == idle + {victim}
  }

  /** Nothing could be removed to make room. */
  predicate Full(pool: Pool, held: set<Session>, key: Key, now: nat) {
    var rest := pool - IdleKeys(pool, held, now);
    key !in rest && |rest| >= MAX_POOLED && AllHeld(rest, held)
  }

  /** The pool after it. */
  function Touched(pool: Pool, removed: set<Key>, key: Key, now: nat): Pool {
    var rest := pool - removed;
    if key in rest then rest[key := rest[key].(lastUsed := now)] else rest
  }

  lemma OldestExists(pool: Pool, held: set<Session>) returns (oldest: Key)
    requires !AllHeld(pool, held)
    ensures Oldest(pool, held, oldest)
  {
    var free := set k | k in pool && pool[k].session !in held;
    var some :| some in pool && pool[some].session !in held;
    assert some in free;
    oldest := OldestOf(pool, free);
  }

  lemma {:induction false} OldestOf(pool: Pool, keys: set<Key>) returns (oldest: Key)
    requires keys != {} && keys <= pool.Keys
    ensures oldest in keys && forall k | k in keys :: pool[oldest].lastUsed <= pool[k].lastUsed
  {
    var some :| some in keys;
    oldest := some;
    var rest := keys - {some};
    if rest != {} {
      var least := OldestOf(pool, rest);
      if pool[least].lastUsed < pool[some].lastUsed {
        oldest := least;
      }
      assert forall k | k in keys :: k == some || k in rest;
    } else {
      assert keys == {some} + rest;
    }
  }

  /** What is removed is free; it is everything free that was last used 300 seconds ago or longer, and
      otherwise at most one entry, of a full pool, that no free entry left behind is older than. */
  ghost predicate Fair(pool: Pool, held: set<Session>, now: nat, removed: set<Key>) {
    && (forall k | k in removed :: k in pool && pool[k].session !in held)
    && (forall k | k in pool && pool[k].session !in held && now >= pool[k].lastUsed + 300 :: k in removed)
    && (forall k, j | k in removed && now < pool[k].lastUsed + 300 && j in pool && j !in removed ::
          pool[j].session in held || pool[k].lastUsed <= pool[j].lastUsed)
    && (forall k, j | k in removed && now < pool[k].lastUsed + 300
                      && j in removed && now < pool[j].lastUsed + 300 :: k == j)
  }

  /** The sessions stay where they are; the entry of `key` counts as used now, and no other does. */
  ghost predicate UsedNow(before: Pool, after: Pool, key: Key, now: nat) {
    && after.Keys <= before.Keys
    && (forall k | k in after :: after[k].session == before[k].session)
    && (forall k | k in after :: after[k].lastUsed == if k == key then now else before[k].lastUsed)
  }

  lemma RemovesFairly(pool: Pool, held: set<Session>, key: Key, now: nat, removed: set<Key>)
    requires Removes(pool, held, key, now, removed)
    ensures Fair(pool, held, now, removed)
    ensures UsedNow(pool, Touched(pool, removed, key, now), key, now)
    ensures Touched(pool, removed, key, now).Keys == pool.Keys - removed
  {
    var idle := IdleKeys(pool, held, now);
    var rest := pool - idle;
    if removed != idle {
      var victim :| Oldest(rest, held, victim) && removed == idle + {victim};
      assert forall k | k in removed && now < pool[k].lastUsed + 300 :: k == victim;
      assert forall j | j in pool && j !in removed :: j in rest && rest[j] == pool[j];
    }
  }

  /** What the second critical section decides about a started session. */
  datatype Verdict = Duplicate(existing: Session) | Inserted | Rejected

  function Decide(pool: Pool, key: Key): Verdict {
    if key in pool then Duplicate(pool[key].session)
    else if |pool| < MAX_POOLED then Inserted
    else Rejected
  }

  function Decided(pool: Pool, key: Key, session: Session, now: nat): Pool {
    match Decide(pool, key)
    case Duplicate(_) => pool[key := pool[key].(lastUsed := now)]
    case Inserted => pool[key := Entry(session, now)]
    case Rejected => pool
  }

  class SessionPool {
    var entries: Pool

    constructor ()
      ensures entries == map[]
    {
      entries := map[];
    }

    method RemoveIdle(held: set<Session>, now: nat) returns (evicted: set<Session>)
      modifies this
      ensures entries == old(entries) - IdleKeys(old(entries), held, now)
      ensures evicted == SessionsOf(old(entries), IdleKeys(old(entries), held, now))
    {
      var idleKeys := IdleKeys(entries, held, now);
      evicted := {};
      var pending := idleKeys;
      while pending != {}
        invariant pending <= idleKeys
        invariant entries == old(entries) - (idleKeys - pending)
        invariant evicted == SessionsOf(old(entries), idleKeys - pending)
        decreases |pending|
      {
        var k :| k in pending;
        evicted := evicted + {entries[k].session};
        entries := entries - {k};
        pending := pending - {k};
      }
    }

    method BeginAcquire(held: set<Session>, key: Key, now: nat)
      returns (evicted: set<Session>, existing: Option<Session>, atCapacity: bool, ghost removed: set<Key>)
      modifies this
      ensures removed <= old(entries).Keys && Removes(old(entries), held, key, now, removed)
      ensures entries == Touched(old(entries), removed, key, now)
      ensures evicted == SessionsOf(old(entries), removed)
      ensures existing == if key in entries then Some(entries[key].session) else None
      ensures atCapacity <==> Full(old(entries), held, key, now)
      ensures atCapacity ==> key !in entries && |entries| >= 8 && forall k | k in entries :: entries[k].session in held
      ensures !atCapacity && |old(entries)| <= 8 ==> key in entries || |entries| < 8
      ensures Fair(old(entries), held, now, removed)
      ensures UsedNow(old(entries), entries, key, now) && entries.Keys == old(entries).Keys - removed
    {
      hide Fair, UsedNow;
      evicted := RemoveIdle(held, now);
      removed := IdleKeys(old(entries), held, now);
      atCapacity := false;
      if key in entries {
        existing := Some(entries[key].session);
        entries := entries[key := entries[key].(lastUsed := now)];
        RemovesFairly(old(entries), held, key, now, removed);
        return;
      }
      existing := None;
      if |entries| >= MAX_POOLED {
        if AllHeld(entries, held) {
          atCapacity := true;
        } else {
          ghost var some := OldestExists(entries, held);
          var oldest :| oldest in entries && Oldest(entries, held, oldest);
          evicted := evicted + {entries[oldest].session};
          entries := entries - {oldest};
          removed := removed + {oldest};
          assert entries == old(entries) - removed;
        }
      }
      RemovesFairly(old(entries), held, key, now, removed);
    }

    method FinishAcquire(key: Key, session: Session, now: nat) returns (verdict: Verdict)
      modifies this
      ensures verdict == Decide(old(entries), key)
      ensures entries == Decided(old(entries), key, session, now)
      ensures verdict.Duplicate? ==>
                key in entries && verdict.existing == entries[key].session && UsedNow(old(entries), entries, key, now)
      ensures verdict.Inserted? ==>
                key !in old(entries) && entries[key] == Entry(session, now) && entries - {key} == old(entries)
      ensures verdict.Rejected? ==> key !in old(entries) && |old(entries)| >= 8 && entries == old(entries)
    {
      if key in entries {
        entries := entries[key := entries[key].(lastUsed := now)];
        return Duplicate(entries[key].session);
      }
      if |entries| < MAX_POOLED {
        entries := entries[key := Entry(session, now)];
        return Inserted;
      }
      return Rejected;
    }

    /** `invalidate_pooled_session`: only the very session of the lease is removed. */
    method Invalidate(key: Key, session: Session) returns (removed: bool)
      modifies this
      ensures removed <==> key in old(entries) && old(entries)[key].session == session
      ensures entries == if removed then old(entries) - {key} else old(entries)
    {
      removed := key in entries && entries[key].session == session;
      if removed {
        entries := entries - {key};
      }
    }

    method Drain() returns (sessions: set<Session>)
      modifies this
      ensures entries == map[] && sessions == SessionsOf(old(entries), old(entries).Keys)
    {
      sessions := set k | k in entries :: entries[k].session;
      entries := map[];
    }
  }
}
