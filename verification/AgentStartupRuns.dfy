/**
  Many callers and one gate. A run is any interleaving of the atomic steps of `acquire` and of
  `mark_requested`; taking the gate and comparing the counter is one step, because only the holder
  of the gate changes the counter, and counting and releasing the gate is one step, because nothing
  but the gate is left to touch.
 */
module AgentStartupRuns {
  import opened Basics
  import opened AgentStartup

  /** How a caller got its answer: from the startup it ran, which was the `at`th counted, or from
      the failure of the `at`th. */
  datatype Source = Ran(at: nat) | Shared(at: nat)

  datatype Progress =
    | Waiting
    | Checking(stale: bool)
    | Beginning
    | Launching(calls: nat)
    | Counting(r: Outcome)
    | Done(r: Outcome, source: Source)

  datatype Caller = Caller(model: string, seen: nat, progress: Progress)

  datatype Startup = Startup(caller: nat, model: string, r: Outcome)

  /** `counted` are the finished startups in order; its length is the counter of the source. */
  datatype State = State(
    shown: Option<Shown>, counted: seq<Startup>, gate: Option<nat>, callers: map<nat, Caller>, calls: nat)

  const INITIAL := State(None, [], None, map[], 0)

  datatype Event =
    | Mark(model: string)
    | Arrive(i: nat, m: string)
    | Take(i: nat)
    | Check(i: nat)
    | Begin(i: nat)
    | Call(i: nat, loading: bool)
    | Finish(i: nat, r: Outcome)
    | Count(i: nat)

  function ProgressOf(s: State, i: nat): Option<Progress> {
    if i in s.callers then Some(s.callers[i].progress) else None
  }

  predicate Enabled(s: State, e: Event) {
    match e
    case Mark(_) => true
    case Arrive(i, _) => i !in s.callers
    case Take(i) => ProgressOf(s, i) == Some(Waiting) && s.gate == None
    case Check(i) => i in s.callers && s.callers[i].progress.Checking?
    case Begin(i) => ProgressOf(s, i) == Some(Beginning)
    case Call(i, _) => i in s.callers && s.callers[i].progress.Launching?
    case Finish(i, _) => i in s.callers && s.callers[i].progress.Launching? && s.callers[i].progress.calls > 0
    case Count(i) => i in s.callers && s.callers[i].progress.Counting?
  }

  function Moved(s: State, i: nat, p: Progress): State
    requires i in s.callers
  {
    s.(callers := s.callers[i := s.callers[i].(progress := p)])
  }

  function After(s: State, e: Event): State
    requires Enabled(s, e)
  {
    match e
    case Mark(model) => s.(shown := ShownMark(s.shown, model))
    case Arrive(i, m) => s.(callers := s.callers[i := Caller(m, |s.counted|, Waiting)])
    case Take(i) => Moved(s, i, Checking(|s.counted| != s.callers[i].seen)).(gate := Some(i))
    case Check(i) =>
      var error := if s.callers[i].progress.stale then FailedError(s.shown, s.callers[i].model) else None;
      if error.Some? then
        Moved(s, i, Done(Err(ModelLoadFailed(error.value)), Shared(|s.counted|))).(gate := None)
      else Moved(s, i, Beginning)
    case Begin(i) => Moved(s, i, Launching(0)).(shown := ShownBegin(s.shown, s.callers[i].model))
    case Call(i, loading) =>
      Moved(s, i, Launching(s.callers[i].progress.calls + 1)).(
      calls := s.calls + 1,
      shown := if loading then ShownLoading(s.shown, s.callers[i].model) else s.shown)
    case Finish(i, r) => Moved(s, i, Counting(r)).(shown := Some(ShownResult(s.callers[i].model, r)))
    case Count(i) =>
      var r := s.callers[i].progress.r;
      Moved(s, i, Done(r, Ran(|s.counted| + 1))).(
      gate := None, counted := s.counted + [Startup(i, s.callers[i].model, r)])
  }

  ghost predicate Moves(s: State, e: Event, t: State) { Enabled(s, e) && t == After(s, e) }

  ghost predicate IsRun(events: seq<Event>, states: seq<State>) {
    && |states| == |events| + 1
    && forall k | 0 <= k < |events| :: Moves(states[k], events[k], states[k + 1])
  }

  // ---- What every reachable state satisfies -------------------------------------------------

  predicate Holding(p: Progress) { !p.Waiting? && !p.Done? }

  /** The `at`th startup was of the caller's model, gave `r` and was counted after it arrived. */
  predicate CountedSince(s: State, c: Caller, at: nat, r: Outcome) {
    c.seen < at <= |s.counted| && s.counted[at - 1].model == c.model && s.counted[at - 1].r == r
  }

  /** The failure with the recorded reason, as it is told to those who share it. */
  predicate SameFailure(r: Outcome, told: Outcome) {
    r.Err? && told == Err(ModelLoadFailed(Recorded(r.error)))
  }

  predicate CallerOk(s: State, i: nat) {
    i in s.callers ==>
      var c := s.callers[i];
      && c.seen <= |s.counted|
      && (s.gate == Some(i) <==> Holding(c.progress))
      && match c.progress
         case Checking(stale) => stale <==> c.seen < |s.counted|
         case Done(r, Ran(at)) => CountedSince(s, c, at, r) && s.counted[at - 1].caller == i
         case Done(r, Shared(at)) =>
           c.seen < at <= |s.counted| && CountedSince(s, c, at, s.counted[at - 1].r)
           && SameFailure(s.counted[at - 1].r, r)
         case _ => true
  }

  predicate ShowsError(s: State) { s.shown.Some? && s.shown.value.phase == Error }

  /** A shown failure is always that of the latest startup: of the last counted one, or of the one
      that is finished and about to be counted. While one is under way no failure is shown. */
  predicate ShownIsLast(s: State) {
    && (s.gate.Some? ==> s.gate.value in s.callers)
    && (ShowsError(s) ==>
          if s.gate.Some? && s.callers[s.gate.value].progress.Launching? then false
          else if s.gate.Some? && s.callers[s.gate.value].progress.Counting? then
            s.shown == Some(ShownResult(s.callers[s.gate.value].model, s.callers[s.gate.value].progress.r))
          else s.counted != [] && s.shown == Some(ShownResult(Last(s).model, Last(s).r)))
  }

  function Last(s: State): Startup
    requires s.counted != []
  {
    s.counted[|s.counted| - 1]
  }

  ghost predicate Inv(s: State) {
    ShownIsLast(s) && forall i :: CallerOk(s, i)
  }

  lemma InvAtStart()
    ensures Inv(INITIAL)
  {
  }

  /** What other callers rely on: their entries stay, and counted startups are never lost. */
  lemma OthersStayOk(s: State, t: State, j: nat)
    requires CallerOk(s, j) && j in s.callers ==> j in t.callers && t.callers[j] == s.callers[j]
    requires j !in s.callers ==> j !in t.callers
    requires CallerOk(s, j)
    requires s.counted <= t.counted
    requires (s.gate == Some(j)) == (t.gate == Some(j))
    requires s.gate == Some(j) ==> |t.counted| == |s.counted|
    ensures CallerOk(t, j)
  {
  }

  lemma StepKeepsShown(s: State, e: Event)
    requires Inv(s) && Enabled(s, e)
    ensures ShownIsLast(After(s, e))
  {
    assert !e.Mark? ==> CallerOk(s, e.i);
  }

  lemma StepKeepsCaller(s: State, e: Event, j: nat)
    requires Inv(s) && Enabled(s, e)
    ensures CallerOk(After(s, e), j)
  {
    assert CallerOk(s, j);
    if e.Mark? || j != e.i {
      assert !e.Mark? ==> CallerOk(s, e.i);
      OthersStayOk(s, After(s, e), j);
    }
  }

  lemma StepKeepsInv(s: State, e: Event)
    requires Inv(s) && Enabled(s, e)
    ensures Inv(After(s, e))
  {
    hide After, ShownIsLast, CallerOk;
    StepKeepsShown(s, e);
    forall j ensures CallerOk(After(s, e), j) {
      StepKeepsCaller(s, e, j);
    }
  }

  lemma {:induction false} RunsKeepInv(events: seq<Event>, states: seq<State>, k: nat)
    requires IsRun(events, states) && states[0] == INITIAL && k < |states|
    ensures Inv(states[k])
  {
    hide After, Inv;
    if k == 0 {
      InvAtStart();
    } else {
      RunsKeepInv(events, states, k - 1);
      assert Moves(states[k - 1], events[k - 1], states[k]);
      StepKeepsInv(states[k - 1], events[k - 1]);
    }
  }

  // ---- Single flight -----------------------------------------------------------------------

  lemma AtMostOneStartup(events: seq<Event>, states: seq<State>, k: nat, i: nat, j: nat)
    requires IsRun(events, states) && states[0] == INITIAL && k < |states|
    requires i in states[k].callers && Holding(states[k].callers[i].progress)
    requires j in states[k].callers && Holding(states[k].callers[j].progress)
    ensures i == j
  {
    RunsKeepInv(events, states, k);
    assert CallerOk(states[k], i) && CallerOk(states[k], j);
  }

  /** Every answer is that of a startup of the caller's own model which was counted after the caller
      arrived. An endpoint is only ever given to the caller that ran the startup; a failure is given
      to it and, with the same reason, to those that share it. */
  lemma AnswersAreFresh(events: seq<Event>, states: seq<State>, k: nat, i: nat)
    requires IsRun(events, states) && states[0] == INITIAL && k < |states|
    requires i in states[k].callers && states[k].callers[i].progress.Done?
    ensures
      var c, counted := states[k].callers[i], states[k].counted;
      var at := c.progress.source.at;
      && c.seen < at <= |counted| && counted[at - 1].model == c.model
      && (c.progress.source.Ran? ==> counted[at - 1].caller == i && counted[at - 1].r == c.progress.r)
      && (c.progress.source.Shared? ==> SameFailure(counted[at - 1].r, c.progress.r))
  {
    RunsKeepInv(events, states, k);
    assert CallerOk(states[k], i);
  }

  /** While callers remain, one of them can step: the gate is never lost. */
  lemma NeverStuck(events: seq<Event>, states: seq<State>, k: nat, i: nat)
    requires IsRun(events, states) && states[0] == INITIAL && k < |states|
    requires i in states[k].callers && !states[k].callers[i].progress.Done?
    ensures exists e: Event :: Enabled(states[k], e) && !e.Mark? && !e.Arrive?
  {
    RunsKeepInv(events, states, k);
    var s := states[k];
    var j := if s.gate.Some? then s.gate.value else i;
    assert CallerOk(s, j) && CallerOk(s, i);
    var e := match s.callers[j].progress
             case Waiting => Take(j)
             case Checking(_) => Check(j)
             case Beginning => Begin(j)
             case Launching(_) => Call(j, false)
             case Counting(_) => Count(j)
             case Done(_, _) => Mark("");
    assert Enabled(s, e);
  }

  // ---- A batch of waiters shares one failure -------------------------------------------------

  predicate ShowsFailure(s: State, m: string, reason: Reason) {
    s.shown == Some(Shown(m, Error, Some(reason)))
  }

  /** A step of the batch: no new request rewrites the record, and the gate is only taken by
      callers for `m` that arrived before startup number `c` was counted. */
  predicate OfBatch(s: State, e: Event, m: string, c: nat) {
    && !e.Mark?
    && (e.Take? && e.i in s.callers ==> s.callers[e.i].model == m && s.callers[e.i].seen < c)
  }

  ghost predicate BatchInv(s: State, t: State, m: string, reason: Reason) {
    && t.shown == s.shown && t.counted == s.counted && t.calls == s.calls
    && (t.gate.Some? ==> t.gate.value in t.callers && t.callers[t.gate.value].model == m)
    && forall i :: InBatch(s, t, i, reason)
  }

  predicate InBatch(s: State, t: State, i: nat, reason: Reason) {
    && (i in s.callers && s.callers[i].progress.Done? ==> i in t.callers && t.callers[i] == s.callers[i])
    && (i in t.callers ==>
          match t.callers[i].progress
          case Waiting => t.gate != Some(i)
          case Checking(stale) => stale && t.gate == Some(i)
          case Done(r, source) =>
            (i in s.callers && s.callers[i].progress.Done?)
            || (r == Err(ModelLoadFailed(reason)) && source == Shared(|s.counted|))
          case _ => false)
  }

  lemma BatchStep(s: State, t: State, e: Event, m: string, reason: Reason)
    requires ShowsFailure(s, m, reason) && BatchInv(s, t, m, reason)
    requires Enabled(t, e) && OfBatch(t, e, m, |s.counted|)
    ensures BatchInv(s, After(t, e), m, reason)
  {
    var u := After(t, e);
    assert InBatch(s, t, e.i, reason);
    forall j ensures InBatch(s, u, j, reason) {
      assert InBatch(s, t, j, reason);
    }
  }

  /** Callers for one model that arrived before a failed startup was counted, and that take the gate
      while its failure is shown, all get its error, in whatever order they come: nothing is launched
      and nothing is counted. */
  lemma {:induction false} BatchSharesTheFailure(events: seq<Event>, states: seq<State>, k: nat, m: string,
                                                 reason: Reason)
    requires IsRun(events, states) && k < |states|
    requires Inv(states[0]) && states[0].gate == None && ShowsFailure(states[0], m, reason)
    requires forall j | 0 <= j < |events| :: OfBatch(states[j], events[j], m, |states[0].counted|)
    ensures states[k].calls == states[0].calls && states[k].counted == states[0].counted
            && ShowsFailure(states[k], m, reason)
    ensures forall i | i in states[k].callers && states[k].callers[i].progress.Done? ::
              (i in states[0].callers && states[0].callers[i].progress.Done?)
              || states[k].callers[i].progress == Done(Err(ModelLoadFailed(reason)), Shared(|states[0].counted|))
    ensures BatchInv(states[0], states[k], m, reason)
  {
    var s := states[0];
    if k == 0 {
      forall i ensures InBatch(s, s, i, reason) {
        assert CallerOk(s, i);
      }
    } else {
      BatchSharesTheFailure(events, states, k - 1, m, reason);
      assert Moves(states[k - 1], events[k - 1], states[k]);
      assert OfBatch(states[k - 1], events[k - 1], m, |s.counted|);
      BatchStep(s, states[k - 1], events[k - 1], m, reason);
    }
    assert forall i :: InBatch(s, states[k], i, reason);
  }

  // ---- A caller that arrives later starts afresh ---------------------------------------------

  /** Caller `i` is on its own way: it calls the launcher before it is done. */
  predicate OnItsOwn(s: State, i: nat, before: nat) {
    && i in s.callers && s.calls >= before
    && match s.callers[i].progress
       case Waiting => false
       case Checking(stale) => !stale
       case Beginning => true
       case Launching(calls) => s.calls >= before + calls
       case Counting(_) => s.calls > before
       case Done(_, source) => source.Ran? && s.calls > before
  }

  lemma OwnStep(s: State, e: Event, i: nat, before: nat)
    requires OnItsOwn(s, i, before) && Enabled(s, e)
    ensures OnItsOwn(After(s, e), i, before)
  {
  }

  /** A caller that finds the counter as it was when it arrived makes a fresh attempt, whatever
      failure is shown and whatever happens around it. */
  lemma {:induction false} LaterCallerStartsAfresh(events: seq<Event>, states: seq<State>, k: nat, i: nat)
    requires IsRun(events, states) && 0 < k < |states|
    requires events[0] == Take(i) && i in states[0].callers && states[0].callers[i].seen == |states[0].counted|
    ensures OnItsOwn(states[k], i, states[0].calls)
  {
    assert Moves(states[k - 1], events[k - 1], states[k]);
    if k > 1 {
      LaterCallerStartsAfresh(events, states, k - 1, i);
      OwnStep(states[k - 1], events[k - 1], i, states[0].calls);
    }
  }
}
