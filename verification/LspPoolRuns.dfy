/**
  All interleavings of acquiring, invalidating, releasing and shutting down language-server
  sessions. One step is one critical section, one completed start or one completed close; any task
  may take its next step at any time.
 */
module LspPoolRuns {
  import opened Basics
  import opened LspPool

  /** Where a task stands, with the session handles it holds. */
  datatype Activity =
    | Idle
    | Evicting(key: Key, doomed: set<Session>, existing: Option<Session>, full: bool)
    | Starting(key: Key)
    | Started(key: Key, session: Session)
    | Discarding(key: Key, session: Session, existing: Option<Session>)
    | Leased(key: Key, session: Session)
    | Closing(doomed: set<Session>, lease: Option<Session>)

  /** `startedFor[s]` is the key session `s` was started for; `closed` lists every close. */
  datatype State = State(pool: Pool, tasks: map<Task, Activity>, startedFor: seq<Key>, closed: seq<Session>)

  const INITIAL := State(map[], map[], [], [])

  function Of(s: State, t: Task): Activity {
    if t in s.tasks then s.tasks[t] else Idle
  }

  function AsSet(s: Option<Session>): set<Session> {
    match s case None => {} case Some(x) => {x}
  }

  /** Handles a task holds; together they are what `strong_count` counts beside the pool's own. */
  function Holds(a: Activity): set<Session> {
    match a
    case Idle => {}
    case Evicting(_, doomed, existing, _) => doomed + AsSet(existing)
    case Starting(_) => {}
    case Started(_, x) => {x}
    case Discarding(_, x, existing) => {x} + AsSet(existing)
    case Leased(_, x) => {x}
    case Closing(doomed, lease) => doomed + AsSet(lease)
  }

  /** Sessions a task alone is responsible for: out of the pool, to be closed or not yet in it. */
  function Owns(a: Activity): set<Session> {
    match a
    case Evicting(_, doomed, _, _) => doomed
    case Started(_, x) => {x}
    case Discarding(_, x, _) => {x}
    case Closing(doomed, _) => doomed
    case _ => {}
  }

  function Held(s: State): set<Session> {
    set t, x | t in s.tasks && x in Holds(s.tasks[t]) :: x
  }

  datatype Step =
    | Begin(task: Task, key: Key, now: nat, removed: set<Key>)
    | CloseOne(task: Task, session: Session)
    | Proceed(task: Task)
    | Start(task: Task)
    | StartFails(task: Task)
    | Finish(task: Task, now: nat)
    | Invalidate(task: Task)
    | Release(task: Task)
    | Shutdown(task: Task)

  ghost predicate Enabled(s: State, step: Step) {
    var a := Of(s, step.task);
    match step
    case Begin(_, key, now, removed) =>
      a.Idle? && removed <= s.pool.Keys && Removes(s.pool, Held(s), key, now, removed)
    case CloseOne(_, x) => (a.Evicting? || a.Closing? || a.Discarding?) && x in Owns(a)
    case Proceed(_) => a.Evicting? && a.doomed == {}
    case Start(_) => a.Starting?
    case StartFails(_) => a.Starting?
    case Finish(_, _) => a.Started?
    case Invalidate(_) => a.Leased?
    case Release(_) => a.Leased? || (a.Closing? && a.doomed == {})
    case Shutdown(_) => a.Idle?
  }

  function Become(s: State, t: Task, a: Activity): State {
    s.(tasks := s.tasks[t := a])
  }

  /** A lease on `existing`, or no session at all. */
  function LeaseOr(key: Key, existing: Option<Session>, otherwise: Activity): Activity {
    match existing case Some(x) => Leased(key, x) case None => otherwise
  }

  /** One handle of those to be closed is closed. */
  function HavingClosed(a: Activity, x: Session): Activity {
    match a
    case Evicting(key, doomed, existing, full) => Evicting(key, doomed - {x}, existing, full)
    case Closing(doomed, lease) => Closing(doomed - {x}, lease)
    case Discarding(key, _, existing) => LeaseOr(key, existing, Idle)
    case _ => a
  }

  ghost function After(s: State, step: Step): State
    requires Enabled(s, step)
  {
    var t, a := step.task, Of(s, step.task);
    match step
    case Begin(_, key, now, removed) =>
      var pool := Touched(s.pool, removed, key, now);
      var existing := if key in pool then Some(pool[key].session) else None;
      Become(s.(pool := pool), t,
             Evicting(key, SessionsOf(s.pool, removed), existing, Full(s.pool, Held(s), key, now)))
    case CloseOne(_, x) => Become(s.(closed := s.closed + [x]), t, HavingClosed(a, x))
    case Proceed(_) => Become(s, t, LeaseOr(a.key, a.existing, if a.full then Idle else Starting(a.key)))
    case Start(_) => Become(s.(startedFor := s.startedFor + [a.key]), t, Started(a.key, |s.startedFor|))
    case StartFails(_) => Become(s, t, Idle)
    case Finish(_, now) => (
      var s' := s.(pool := Decided(s.pool, a.key, a.session, now));
      match Decide(s.pool, a.key)
      case Duplicate(existing) => Become(s', t, Discarding(a.key, a.session, Some(existing)))
      case Inserted => Become(s', t, Leased(a.key, a.session))
      case Rejected => Become(s', t, Discarding(a.key, a.session, None))
    )
    case Invalidate(_) =>
      if a.key in s.pool && s.pool[a.key].session == a.session
      then Become(s.(pool := s.pool - {a.key}), t, Closing({a.session}, Some(a.session)))
      else Become(s, t, Closing({}, Some(a.session)))
    case Release(_) => Become(s, t, Idle)
    case Shutdown(_) => Become(s.(pool := map[]), t, Closing(SessionsOf(s.pool, s.pool.Keys), None))
  }

  // ---- The invariant ----------------------------------------------------------------------

  predicate Pooled(s: State, x: Session) {
    x < |s.startedFor| && s.startedFor[x] in s.pool && s.pool[s.startedFor[x]].session == x
  }

  /** A session is where task `t` can see it: pooled, owned by `t`, or closed. */
  predicate Seen(s: State, t: Task, x: Session) {
    Pooled(s, x) || x in Owns(Of(s, t)) || x in s.closed
  }

  ghost predicate PoolOk(s: State) {
    && |s.pool| <= MAX_POOLED
    && forall k | k in s.pool :: s.pool[k].session < |s.startedFor| && s.startedFor[s.pool[k].session] == k
  }

  ghost predicate TaskOk(s: State, t: Task) {
    && (forall x | x in Owns(Of(s, t)) :: x < |s.startedFor| && !Pooled(s, x) && x !in s.closed)
    && (forall x | x in Holds(Of(s, t)) :: x < |s.startedFor|)
    && LeaseOk(s, Of(s, t))
  }

  /** Leases, existing or handed out, are for the key that was asked for. */
  ghost predicate LeaseOk(s: State, a: Activity) {
    match a
    case Evicting(key, _, Some(x), _) => x < |s.startedFor| && s.startedFor[x] == key
    case Discarding(key, _, Some(x)) => x < |s.startedFor| && s.startedFor[x] == key
    case Started(key, x) => x < |s.startedFor| && s.startedFor[x] == key
    case Leased(key, x) => x < |s.startedFor| && s.startedFor[x] == key
    case _ => true
  }

  ghost predicate ClosedOk(s: State) {
    && (forall i, j | 0 <= i < j < |s.closed| :: s.closed[i] != s.closed[j])
    && (forall x | x in s.closed :: x < |s.startedFor| && !Pooled(s, x))
  }

  /** Every started session is in exactly one place: the pool, one task's charge, or closed. */
  ghost predicate Inv(s: State) {
    && PoolOk(s) && ClosedOk(s)
    && (forall t | t in s.tasks :: TaskOk(s, t))
    && (forall t, u | t in s.tasks && u in s.tasks && t != u :: Owns(s.tasks[t]) !! Owns(s.tasks[u]))
    && (forall x | 0 <= x < |s.startedFor| ::
          Pooled(s, x) || x in s.closed || exists t :: t in s.tasks && x in Owns(s.tasks[t]))
  }

  /** If one task moves sessions only among the pool, its own charge and the closed list, and takes
      charge of any it started, the invariant carries over. */
  lemma Transfer(s: State, s': State, t: Task, a: Activity)
    requires Inv(s) && s'.tasks == s.tasks[t := a] && s.startedFor <= s'.startedFor
    requires PoolOk(s') && ClosedOk(s') && TaskOk(s', t)
    requires forall x | 0 <= x < |s'.startedFor| :: Seen(s', t, x) <==> Seen(s, t, x) || x >= |s.startedFor|
    ensures Inv(s')
  {
    forall u | u in s'.tasks
      ensures TaskOk(s', u)
      ensures u != t ==> Owns(s'.tasks[u]) !! Owns(s'.tasks[t])
    {
      if u != t {
        OtherTask(s, s', t, a, u);
      }
    }
    forall x | 0 <= x < |s'.startedFor|
      ensures Pooled(s', x) || x in s'.closed || exists u :: u in s'.tasks && x in Owns(s'.tasks[u])
    {
      if Seen(s', t, x) {
        assert t in s'.tasks && Of(s', t) == a;
      } else {
        var u :| u in s.tasks && x in Owns(s.tasks[u]);
        assert u != t;
        assert u in s'.tasks && x in Owns(s'.tasks[u]);
      }
    }
  }

  lemma OtherTask(s: State, s': State, t: Task, a: Activity, u: Task)
    requires Inv(s) && s'.tasks == s.tasks[t := a] && s.startedFor <= s'.startedFor
    requires forall x | 0 <= x < |s'.startedFor| :: Seen(s', t, x) <==> Seen(s, t, x) || x >= |s.startedFor|
    requires TaskOk(s', t)
    requires u in s.tasks && u != t
    ensures TaskOk(s', u) && Owns(s'.tasks[u]) !! Owns(s'.tasks[t])
  {
    assert TaskOk(s, u);
    forall x | x in Owns(s.tasks[u])
      ensures x < |s.startedFor| && !Seen(s', t, x)
    {
      assert t in s.tasks ==> x !in Owns(s.tasks[t]);
      assert !Seen(s, t, x);
    }
  }

  // ---- Every step keeps it ----------------------------------------------------------------

  lemma InitialInv()
    ensures Inv(INITIAL)
  {
  }

  lemma TouchedSessions(pool: Pool, removed: set<Key>, key: Key, now: nat)
    requires removed <= pool.Keys
    ensures var after := Touched(pool, removed, key, now);
            && after.Keys == pool.Keys - removed
            && |after| <= |pool|
            && forall k | k in after :: after[k].session == pool[k].session
  {
    var rest := pool - removed;
    assert rest.Keys == pool.Keys - removed;
    SubsetSize(rest.Keys, pool.Keys);
    assert Touched(pool, removed, key, now).Keys == rest.Keys;
  }

  lemma {:induction false} SubsetSize(a: set<Key>, b: set<Key>)
    requires a <= b
    ensures |a| <= |b|
  {
    if a != {} {
      var x :| x in a;
      SubsetSize(a - {x}, b - {x});
    }
  }

  /** The first critical section takes sessions out of the pool and moves none. */
  lemma BeginPool(s: State, s': State, removed: set<Key>, key: Key, now: nat)
    requires PoolOk(s) && removed <= s.pool.Keys
    requires s'.pool == Touched(s.pool, removed, key, now) && s'.startedFor == s.startedFor
    ensures PoolOk(s')
    ensures forall x: nat | x < |s.startedFor| ::
              && (Pooled(s', x) <==> Pooled(s, x) && s.startedFor[x] !in removed)
              && (x in SessionsOf(s.pool, removed) <==> Pooled(s, x) && s.startedFor[x] in removed)
  {
    hide Touched;
    TouchedSessions(s.pool, removed, key, now);
    forall x: nat | x < |s.startedFor|
      ensures x in SessionsOf(s.pool, removed) <==> Pooled(s, x) && s.startedFor[x] in removed
    {
      if x in SessionsOf(s.pool, removed) {
        var k :| k in removed && s.pool[k].session == x;
        assert s.startedFor[x] == k;
      }
    }
  }

  lemma BeginKeepsInv(s: State, step: Step)
    requires Inv(s) && step.Begin? && Enabled(s, step)
    ensures Inv(After(s, step))
  {
    hide Removes, Full, IdleKeys, Touched, Held;
    var s' := After(s, step);
    var removed := step.removed;
    BeginPool(s, s', removed, step.key, step.now);
    assert Of(s', step.task) == s'.tasks[step.task];
    Transfer(s, s', step.task, s'.tasks[step.task]);
  }

  lemma ShutdownKeepsInv(s: State, step: Step)
    requires Inv(s) && step.Shutdown? && Enabled(s, step)
    ensures Inv(After(s, step))
  {
    var s' := After(s, step);
    forall x | 0 <= x < |s.startedFor|
      ensures x in SessionsOf(s.pool, s.pool.Keys) <==> Pooled(s, x)
    {
      if Pooled(s, x) {
        assert s.startedFor[x] in s.pool.Keys;
      }
    }
    Transfer(s, s', step.task, s'.tasks[step.task]);
  }

  lemma SamePool(s: State, s': State)
    requires PoolOk(s) && s'.pool == s.pool && s'.startedFor == s.startedFor
    ensures PoolOk(s') && forall x: nat :: Pooled(s', x) == Pooled(s, x)
  {
  }

  lemma ClosedOneMore(s: State, s': State, x: Session)
    requires ClosedOk(s) && x < |s.startedFor| && !Pooled(s, x) && x !in s.closed
    requires s'.closed == s.closed + [x] && s'.startedFor == s.startedFor && s'.pool == s.pool
    ensures ClosedOk(s') && forall y :: y in s'.closed <==> y in s.closed || y == x
  {
  }

  lemma HavingClosedOwnsLess(s: State, a: Activity, x: Session)
    requires (a.Evicting? || a.Closing? || a.Discarding?) && x in Owns(a) && LeaseOk(s, a)
    ensures var a' := HavingClosed(a, x);
            Owns(a') == Owns(a) - {x} && Holds(a') <= Holds(a) && LeaseOk(s, a')
  {
  }

  lemma CloseKeepsInv(s: State, step: Step)
    requires Inv(s) && step.CloseOne? && Enabled(s, step)
    ensures Inv(After(s, step))
  {
    var s', t, a := After(s, step), step.task, Of(s, step.task);
    assert TaskOk(s, t);
    SamePool(s, s');
    ClosedOneMore(s, s', step.session);
    HavingClosedOwnsLess(s, a, step.session);
    hide Pooled, PoolOk, ClosedOk, HavingClosed, Holds, Owns, LeaseOk;
    LeaseOkSame(s, s', Of(s', t));
    Transfer(s, s', t, s'.tasks[t]);
  }

  lemma LeaseOkSame(s: State, s': State, a: Activity)
    requires s'.startedFor == s.startedFor
    ensures LeaseOk(s', a) == LeaseOk(s, a)
  {
  }

  lemma PoolWithout(s: State, s': State, key: Key)
    requires PoolOk(s) && key in s.pool && s'.pool == s.pool - {key} && s'.startedFor == s.startedFor
    ensures PoolOk(s') && !Pooled(s', s.pool[key].session)
    ensures forall x: nat | x != s.pool[key].session :: Pooled(s', x) == Pooled(s, x)
  {
    SubsetSize(s'.pool.Keys, s.pool.Keys);
  }

  lemma ClosedSame(s: State, s': State)
    requires ClosedOk(s) && s'.closed == s.closed && s'.startedFor == s.startedFor
    requires forall x: nat | x in s.closed :: !Pooled(s', x)
    ensures ClosedOk(s')
  {
  }

  /** The lease's own session leaves the pool and becomes the invalidator's to close. */
  lemma RemovalKeepsInv(s: State, t: Task, key: Key, x: Session)
    requires Inv(s) && Of(s, t) == Leased(key, x) && key in s.pool && s.pool[key].session == x
    ensures Inv(Become(s.(pool := s.pool - {key}), t, Closing({x}, Some(x))))
  {
    var s' := Become(s.(pool := s.pool - {key}), t, Closing({x}, Some(x)));
    assert TaskOk(s, t) && Pooled(s, x);
    PoolWithout(s, s', key);
    hide Pooled, PoolOk;
    ClosedSame(s, s');
    Transfer(s, s', t, Closing({x}, Some(x)));
  }

  lemma InvalidateKeepsInv(s: State, step: Step)
    requires Inv(s) && step.Invalidate? && Enabled(s, step)
    ensures Inv(After(s, step))
  {
    hide Inv;
    var t, a := step.task, Of(s, step.task);
    if a.key in s.pool && s.pool[a.key].session == a.session {
      RemovalKeepsInv(s, t, a.key, a.session);
    } else {
      RefusalKeepsInv(s, t, a.key, a.session);
    }
  }

  lemma RefusalKeepsInv(s: State, t: Task, key: Key, x: Session)
    requires Inv(s) && Of(s, t) == Leased(key, x)
    ensures Inv(Become(s, t, Closing({}, Some(x))))
  {
    hide Pooled, PoolOk, LeaseOk, Inv, TaskOk, ClosedOk, Seen;
    var s' := Become(s, t, Closing({}, Some(x)));
    InvParts(s, t);
    SamePool(s, s');
    ClosedStays(s, s');
    RefusedTask(s, s', t, key, x);
    Transfer(s, s', t, Closing({}, Some(x)));
  }

  lemma InvParts(s: State, t: Task)
    requires Inv(s)
    ensures PoolOk(s) && ClosedOk(s) && (t in s.tasks ==> TaskOk(s, t))
  {
  }

  lemma ClosedStays(s: State, s': State)
    requires ClosedOk(s) && s'.closed == s.closed && s'.startedFor == s.startedFor && s'.pool == s.pool
    ensures ClosedOk(s')
  {
  }

  lemma RefusedTask(s: State, s': State, t: Task, key: Key, x: Session)
    requires TaskOk(s, t) && Of(s, t) == Leased(key, x) && s' == Become(s, t, Closing({}, Some(x)))
    ensures TaskOk(s', t) && forall y :: Seen(s', t, y) <==> Seen(s, t, y)
  {
  }

  lemma StartKeepsInv(s: State, step: Step)
    requires Inv(s) && step.Start? && Enabled(s, step)
    ensures Inv(After(s, step))
  {
    var s' := After(s, step);
    assert forall x | 0 <= x < |s.startedFor| :: Pooled(s', x) <==> Pooled(s, x);
    Transfer(s, s', step.task, s'.tasks[step.task]);
  }

  /** Rewriting the time of an entry changes nothing about sessions. */
  lemma UsedPool(s: State, s': State, key: Key, now: nat)
    requires PoolOk(s) && key in s.pool && s'.startedFor == s.startedFor
    requires s'.pool == s.pool[key := s.pool[key].(lastUsed := now)]
    ensures PoolOk(s')
    ensures forall y: nat :: Pooled(s', y) == Pooled(s, y)
  {
    assert s'.pool.Keys == s.pool.Keys;
    assert |s'.pool| == |s.pool|;
  }

  lemma InsertedPool(s: State, s': State, key: Key, x: Session, now: nat)
    requires PoolOk(s) && key !in s.pool && |s.pool| < MAX_POOLED && s'.startedFor == s.startedFor
    requires x < |s.startedFor| && s.startedFor[x] == key
    requires s'.pool == s.pool[key := Entry(x, now)]
    ensures PoolOk(s') && Pooled(s', x)
    ensures forall y: nat | y != x :: Pooled(s', y) == Pooled(s, y)
  {
    OneMoreEntry(s.pool, key, Entry(x, now));
  }

  lemma OneMoreEntry(pool: Pool, key: Key, e: Entry)
    requires key !in pool
    ensures |pool[key := e]| == |pool| + 1
  {
    var after := pool[key := e];
    assert after.Keys == pool.Keys + {key};
    assert |after.Keys| == |pool.Keys| + 1;
  }

  lemma DecidedPool(s: State, s': State, key: Key, x: Session, now: nat)
    requires PoolOk(s) && x < |s.startedFor| && s.startedFor[x] == key
    requires s'.pool == Decided(s.pool, key, x, now) && s'.startedFor == s.startedFor
    ensures PoolOk(s')
    ensures forall y: nat | y != x :: Pooled(s', y) == Pooled(s, y)
    ensures if Decide(s.pool, key).Inserted? then Pooled(s', x) else Pooled(s', x) == Pooled(s, x)
  {
    hide PoolOk, Pooled;
    match Decide(s.pool, key)
    case Duplicate(_) => UsedPool(s, s', key, now);
    case Inserted => InsertedPool(s, s', key, x, now);
    case Rejected => SamePool(s, s');
  }

  /** The started session goes into the pool or stays the task's to close. */
  lemma FinishedKeepsInv(s: State, s': State, t: Task, key: Key, x: Session, a: Activity)
    requires Inv(s) && Of(s, t) == Started(key, x)
    requires s' == Become(s.(pool := s'.pool), t, a)
    requires PoolOk(s') && forall y: nat | y != x :: Pooled(s', y) == Pooled(s, y)
    requires Owns(a) == if Pooled(s', x) then {} else {x}
    requires LeaseOk(s', a) && forall y | y in Holds(a) :: y < |s.startedFor|
    ensures Inv(s')
  {
    assert TaskOk(s, t);
    hide Pooled, PoolOk, LeaseOk;
    ClosedSame(s, s');
    Transfer(s, s', t, a);
  }

  /** What finishing makes of the task, by the verdict. */
  lemma FinishedTask(s: State, step: Step)
    requires Inv(s) && step.Finish? && Enabled(s, step)
    ensures
      var s', a := After(s, step), Of(s, step.task);
      var b := Of(s', step.task);
      && s' == Become(s.(pool := s'.pool), step.task, b)
      && s'.pool == Decided(s.pool, a.key, a.session, step.now)
      && a.session < |s.startedFor| && s.startedFor[a.session] == a.key && !Pooled(s, a.session)
      && Owns(b) == (if Decide(s.pool, a.key).Inserted? then {} else {a.session})
      && LeaseOk(s', b) && forall y | y in Holds(b) :: y < |s.startedFor|
  {
    var a := Of(s, step.task);
    assert TaskOk(s, step.task);
    assert Decide(s.pool, a.key).Duplicate? ==>
        s.pool[a.key].session < |s.startedFor| && s.startedFor[s.pool[a.key].session] == a.key;
  }

  lemma FinishKeepsInv(s: State, step: Step)
    requires Inv(s) && step.Finish? && Enabled(s, step)
    ensures Inv(After(s, step))
  {
    FinishedTask(s, step);
    assert PoolOk(s);
    hide Pooled, PoolOk, Decided, Decide, Inv, LeaseOk, After;
    var s', a := After(s, step), Of(s, step.task);
    DecidedPool(s, s', a.key, a.session, step.now);
    FinishedKeepsInv(s, s', step.task, a.key, a.session, Of(s', step.task));
  }

  lemma QuietStepKeepsInv(s: State, step: Step)
    requires Inv(s) && (step.Proceed? || step.StartFails? || step.Release?) && Enabled(s, step)
    ensures Inv(After(s, step))
  {
    var s' := After(s, step);
    assert TaskOk(s, step.task);
    Transfer(s, s', step.task, s'.tasks[step.task]);
  }

  lemma StepKeepsInv(s: State, step: Step)
    requires Inv(s) && Enabled(s, step)
    ensures Inv(After(s, step))
  {
    hide *;
    match step
    case Begin(_, _, _, _) => BeginKeepsInv(s, step);
    case CloseOne(_, _) => CloseKeepsInv(s, step);
    case Proceed(_) => QuietStepKeepsInv(s, step);
    case Start(_) => StartKeepsInv(s, step);
    case StartFails(_) => QuietStepKeepsInv(s, step);
    case Finish(_, _) => FinishKeepsInv(s, step);
    case Invalidate(_) => InvalidateKeepsInv(s, step);
    case Release(_) => QuietStepKeepsInv(s, step);
    case Shutdown(_) => ShutdownKeepsInv(s, step);
  }

  // ---- Whole runs -------------------------------------------------------------------------

  /** `run` is a sequence of states, each from the one before by some enabled step. */
  ghost predicate IsRun(run: seq<State>) {
    && run != [] && run[0] == INITIAL
    && forall i | 0 <= i < |run| - 1 :: Moves(run[i], run[i + 1])
  }

  ghost predicate Takes(s: State, step: Step, s': State) {
    Enabled(s, step) && s' == After(s, step)
  }

  ghost predicate Moves(s: State, s': State) {
    exists step :: Takes(s, step, s')
  }

  lemma {:induction false} RunsKeepInv(run: seq<State>)
    requires IsRun(run)
    ensures forall i | 0 <= i < |run| :: Inv(run[i])
    decreases |run|
  {
    hide Inv, Enabled, After;
    if |run| == 1 {
      InitialInv();
    } else {
      var n := |run| - 1;
      var front := run[..n];
      assert forall i | 0 <= i < n :: front[i] == run[i];
      assert IsRun(front) by {
        assert forall i | 0 <= i < n - 1 :: Moves(run[i], run[i + 1]);
      }
      RunsKeepInv(front);
      assert Moves(run[n - 1], run[n - 1 + 1]);
      assert Inv(front[n - 1]);
      var step :| Takes(run[n - 1], step, run[n]);
      StepKeepsInv(run[n - 1], step);
    }
  }

  /** In every run: at most eight pooled sessions; a lease is always on a session started for the
      key asked for; no session is ever closed twice; and when every task is done and the pool is
      empty, every session ever started has been closed, exactly once. */
  lemma PoolIsSound(run: seq<State>, i: nat)
    requires IsRun(run) && i < |run|
    ensures var s := run[i];
            && |s.pool| <= MAX_POOLED
            && (forall t | t in s.tasks && s.tasks[t].Leased? ::
                  s.tasks[t].session < |s.startedFor| && s.startedFor[s.tasks[t].session] == s.tasks[t].key)
            && (forall x | x in s.closed :: multiset(s.closed)[x] == 1)
            && (s.pool == map[] && (forall t | t in s.tasks :: s.tasks[t].Idle?) ==>
                  forall x: nat | x < |s.startedFor| :: multiset(s.closed)[x] == 1)
  {
    RunsKeepInv(run);
    var s := run[i];
    assert Inv(s);
    forall t | t in s.tasks && s.tasks[t].Leased?
      ensures s.tasks[t].session < |s.startedFor| && s.startedFor[s.tasks[t].session] == s.tasks[t].key
    {
      assert TaskOk(s, t);
    }
    forall x | x in s.closed
      ensures multiset(s.closed)[x] == 1
    {
      OnceOnly(s.closed, x);
    }
  }

  lemma {:induction false} OnceOnly(list: seq<Session>, x: Session)
    requires forall i, j | 0 <= i < j < |list| :: list[i] != list[j]
    ensures multiset(list)[x] == if x in list then 1 else 0
  {
    if list != [] {
      OnceOnly(list[1..], x);
      assert list == [list[0]] + list[1..];
    }
  }

  /** Besides the idle entries, one of a full pool may go. */
  lemma EvictsOneMore(s: State, step: Step)
    requires Inv(s) && step.Begin? && Enabled(s, step)
    ensures var removed := s.pool.Keys - After(s, step).pool.Keys;
            && removed == step.removed
            && (forall k | k in removed :: s.pool[k].session !in Held(s))
            && (forall k | k in removed && step.now < s.pool[k].lastUsed + IDLE_SECS ::
                  |s.pool - IdleKeys(s.pool, Held(s), step.now)| == MAX_POOLED
                  && removed == IdleKeys(s.pool, Held(s), step.now) + {k}
                  && step.key !in s.pool)
  {
    TouchedSessions(s.pool, step.removed, step.key, step.now);
    var idle := IdleKeys(s.pool, Held(s), step.now);
    var rest := s.pool - idle;
    SubsetSize(rest.Keys, s.pool.Keys);
    assert s.pool.Keys - After(s, step).pool.Keys == step.removed;
  }

  lemma SparesLeastUsed(s: State, step: Step)
    requires step.Begin? && Enabled(s, step)
    ensures var after := After(s, step).pool;
            && Fair(s.pool, Held(s), step.now, step.removed) && UsedNow(s.pool, after, step.key, step.now)
            && after.Keys == s.pool.Keys - step.removed
  {
    hide Held, UsedNow, Fair;
    RemovesFairly(s.pool, Held(s), step.key, step.now, step.removed);
  }

  lemma HeldIff(s: State, x: Session)
    ensures x in Held(s) <==> exists t :: t in s.tasks && x in Holds(s.tasks[t])
  {
  }

  /** Whoever makes room, an eviction never takes a session some task still holds; and what it
      takes were idle entries, or one more that no free session left behind was used before. The
      entry asked for counts as used now, and no other entry changes. */
  lemma EvictionSparesHeldSessions(s: State, step: Step)
    requires Inv(s) && step.Begin? && Enabled(s, step)
    ensures var removed := s.pool.Keys - After(s, step).pool.Keys;
            && (forall k | k in removed :: forall t | t in s.tasks :: s.pool[k].session !in Holds(s.tasks[t]))
            && (forall k | k in removed && step.now < s.pool[k].lastUsed + IDLE_SECS ::
                  |s.pool - IdleKeys(s.pool, Held(s), step.now)| == MAX_POOLED
                  && removed == IdleKeys(s.pool, Held(s), step.now) + {k}
                  && step.key !in s.pool)
            && (forall k, j | k in removed && step.now < s.pool[k].lastUsed + IDLE_SECS && j in After(s, step).pool ::
                  (exists t :: t in s.tasks && s.pool[j].session in Holds(s.tasks[t]))
                  || s.pool[k].lastUsed <= s.pool[j].lastUsed)
            && UsedNow(s.pool, After(s, step).pool, step.key, step.now)
  {
    hide Inv, Enabled, After, Held, Holds, IdleKeys, UsedNow;
    EvictsOneMore(s, step);
    SparesLeastUsed(s, step);
    forall x
      ensures x in Held(s) <==> exists t :: t in s.tasks && x in Holds(s.tasks[t])
    {
      HeldIff(s, x);
    }
  }

  /** What an acquire comes to: the pooled session of its key if there is one; a refusal only while
      eight sessions are pooled, at first only if all of them are held; and else a session started for
      the key, which is given back to be closed if another task was faster or the pool has filled. */
  lemma WhatAnAcquireGets(s: State, step: Step)
    requires Enabled(s, step)
    ensures
      var a, b, pool' := Of(s, step.task), Of(After(s, step), step.task), After(s, step).pool;
      match step
      case Begin(_, key, _, _) =>
        && b.Evicting? && b.key == key
        && (if key in pool' then key in s.pool && b.existing == Some(s.pool[key].session) && !b.full
            else b.existing == None)
        && (b.full ==> |pool'| >= 8 && forall k | k in pool' :: pool'[k].session in Held(s))
      case Proceed(_) =>
        b == (match a.existing
              case Some(x) => Leased(a.key, x)
              case None => if a.full then Idle else Starting(a.key))
      case Start(_) => b == Started(a.key, |s.startedFor|) && After(s, step).startedFor == s.startedFor + [a.key]
      case Finish(_, now) =>
        if a.key in s.pool then b == Discarding(a.key, a.session, Some(s.pool[a.key].session))
        else if |s.pool| < 8 then b == Leased(a.key, a.session) && pool' == s.pool[a.key := Entry(a.session, now)]
        else b == Discarding(a.key, a.session, None) && pool' == s.pool
      case CloseOne(_, x) =>
        a.Discarding? ==> b == (match a.existing case Some(y) => Leased(a.key, y) case None => Idle)
      case _ => true
  {
    if step.Begin? {
      var idle := IdleKeys(s.pool, Held(s), step.now);
      assert Full(s.pool, Held(s), step.key, step.now) ==> step.removed == idle;
    }
  }

  /** Invalidating a lease whose session has been replaced leaves the replacement alone. */
  lemma InvalidationSparesReplacements(s: State, step: Step)
    requires Inv(s) && step.Invalidate? && Enabled(s, step)
    ensures var a, pool' := Of(s, step.task), After(s, step).pool;
            && (forall k | k in s.pool && s.pool[k].session != a.session :: k in pool' && pool'[k] == s.pool[k])
            && (forall k | k in pool' :: pool'[k].session != a.session)
  {
  }
}
