/**
  One startup of the coding model: what the shared record shows, and the two polling loops.
  Times are milliseconds of one monotonic clock.
 */
module AgentStartup {
  import opened Basics

  const POLL_INTERVAL: nat := 500

  datatype Phase = Starting | LoadingModel | Ready | Error

  /** Why a startup failed. `Said` is text from the launcher or the server. */
  datatype Reason = Said(text: string) | StayedBusy | DidNotFinish(seconds: nat)

  datatype Failure = LauncherError(text: string) | ModelLoadFailed(reason: Reason)

  type Outcome = Result<string, Failure>

  /** The part of the record that decides what callers and users are told. */
  datatype Shown = Shown(model: string, phase: Phase, error: Option<Reason>)

  datatype Record = Record(shown: Shown, startedAt: nat, lastStartup: Option<nat>)

  function Recorded(f: Failure): Reason {
    match f
    case LauncherError(text) => Said(text)
    case ModelLoadFailed(reason) => reason
  }

  function ShownStart(model: string): Shown { Shown(model, Starting, None) }

  function ShownResult(model: string, r: Outcome): Shown {
    match r
    case Ok(_) => Shown(model, Ready, None)
    case Err(f) => Shown(model, Error, Some(Recorded(f)))
  }

  /** A startup of `model` is already shown as under way. */
  predicate UnderWay(shown: Option<Shown>, model: string) {
    shown.Some? && shown.value.model == model && shown.value.phase in {Starting, LoadingModel}
  }

  function ShownMark(shown: Option<Shown>, model: string): Option<Shown> {
    if UnderWay(shown, model) then shown else Some(ShownStart(model))
  }

  function ShownBegin(shown: Option<Shown>, model: string): Option<Shown> {
    if shown.Some? && shown.value.model == model && shown.value.phase == Starting then shown
    else Some(ShownStart(model))
  }

  function ShownLoading(shown: Option<Shown>, model: string): Option<Shown> {
    if shown.Some? && shown.value.model == model then Some(shown.value.(phase := LoadingModel)) else shown
  }

  /** The failure a caller for `model` shares instead of starting again. */
  function FailedError(shown: Option<Shown>, model: string): Option<Reason> {
    if shown.Some? && shown.value.model == model && shown.value.phase == Error then shown.value.error else None
  }

  // ---- The launcher -----------------------------------------------------------------------

  datatype LaunchAnswer = Refused(text: string) | Resident(endpoint: string) | Started | Busy

  datatype ProbeAnswer = Healthy(endpoint: string) | Failed(reason: string) | Loading

  /** The outside world: every answer and every delay is arbitrary, but a sleep lasts at least
      the time asked for. */
  class World {
    const launchAnswer: nat -> LaunchAnswer
    const probeAnswer: nat -> ProbeAnswer
    const delay: nat -> nat
    var now: nat
    var ticks: nat
    var launches: nat
    var probes: nat
    var aborts: nat

    constructor (launchAnswer: nat -> LaunchAnswer, probeAnswer: nat -> ProbeAnswer, delay: nat -> nat, now: nat)
      ensures this.launchAnswer == launchAnswer && this.probeAnswer == probeAnswer && this.delay == delay
      ensures this.now == now && launches == 0 && probes == 0 && aborts == 0
    {
      this.launchAnswer, this.probeAnswer, this.delay, this.now := launchAnswer, probeAnswer, delay, now;
      ticks, launches, probes, aborts := 0, 0, 0, 0;
    }

    method Wait(atLeast: nat)
      modifies this`now, this`ticks
      ensures now >= old(now) + atLeast
    {
      now, ticks := now + atLeast + delay(ticks), ticks + 1;
    }

    method Launch() returns (a: LaunchAnswer)
      modifies this`now, this`ticks, this`launches
      ensures a == launchAnswer(old(launches)) && launches == old(launches) + 1 && now >= old(now)
    {
      a := launchAnswer(launches);
      launches := launches + 1;
      Wait(0);
    }

    method Probe() returns (a: ProbeAnswer)
      modifies this`now, this`ticks, this`probes
      ensures a == probeAnswer(old(probes)) && probes == old(probes) + 1 && now >= old(now)
    {
      a := probeAnswer(probes);
      probes := probes + 1;
      Wait(0);
    }

    method Abort()
      modifies this`now, this`ticks, this`aborts
      ensures aborts == old(aborts) + 1 && now >= old(now)
    {
      aborts := aborts + 1;
      Wait(0);
    }
  }

  // ---- What a startup may do ---------------------------------------------------------------

  /** Polls that fit into the timeout, rounded up. */
  function Polls(timeout: nat): (n: nat)
    ensures timeout <= n * POLL_INTERVAL < timeout + POLL_INTERVAL
  {
    (timeout + POLL_INTERVAL - 1) / POLL_INTERVAL
  }

  /** The result that the last answer of each kind calls for; `Busy` and `Loading` are last only
      when time ran out. */
  function Verdict(launch: LaunchAnswer, probe: ProbeAnswer, timeout: nat): Outcome {
    match launch
    case Refused(text) => Err(LauncherError(text))
    case Resident(endpoint) => Ok(endpoint)
    case Busy => Err(ModelLoadFailed(StayedBusy))
    case Started =>
      match probe
      case Healthy(endpoint) => Ok(endpoint)
      case Failed(reason) => Err(ModelLoadFailed(Said(reason)))
      case Loading => Err(ModelLoadFailed(DidNotFinish(timeout / 1000)))
  }

  /** Launch calls `l0..l` and probe calls `p0..p` are those of one complete startup: only the
      last launch was not answered `Busy`, probing began exactly when the launcher said `Started`,
      and only the last probe was not answered `Loading` - unless time ran out on that answer. */
  ghost predicate Complete(launch: nat -> LaunchAnswer, probe: nat -> ProbeAnswer, l0: nat, l: nat, p0: nat, p: nat,
                           timedOut: bool) {
    && l0 < l && p0 <= p
    && (forall k | l0 <= k < l - 1 :: launch(k) == Busy)
    && (forall k | p0 <= k < p - 1 :: probe(k) == Loading)
    && (p0 < p <==> launch(l - 1) == Started)
    && (timedOut <==> launch(l - 1) == Busy || (p0 < p && probe(p - 1) == Loading))
  }

  function LastProbe(probe: nat -> ProbeAnswer, p0: nat, p: nat): ProbeAnswer {
    if p0 < p then probe(p - 1) else Loading
  }

  /** `n` whole polls fit in less than the timeout, so one more call stays within the bound. */
  lemma PollsFit(n: nat, elapsed: nat, timeout: nat)
    requires n * POLL_INTERVAL <= elapsed < timeout
    ensures n + 1 <= Polls(timeout)
  {
  }

  lemma FirstIsUnique<T>(f: nat -> T, keep: T, from: nat, a: nat, b: nat)
    requires from <= a && from <= b && f(a) != keep && f(b) != keep
    requires forall k | from <= k < a :: f(k) == keep
    requires forall k | from <= k < b :: f(k) == keep
    ensures a == b
  {
  }

  /** Two complete startups that hear the same answers agree on the outcome unless time runs out
      on one of them: the clock decides only whether the caller gives up. */
  lemma AnswersDecide(launch: nat -> LaunchAnswer, probe: nat -> ProbeAnswer, l0: nat, p0: nat,
                      l: nat, p: nat, l': nat, p': nat, timeout: nat)
    requires Complete(launch, probe, l0, l, p0, p, false) && Complete(launch, probe, l0, l', p0, p', false)
    ensures l == l' && p == p'
    ensures Verdict(launch(l - 1), LastProbe(probe, p0, p), timeout)
            == Verdict(launch(l' - 1), LastProbe(probe, p0, p'), timeout)
  {
    FirstIsUnique(launch, Busy, l0, l - 1, l' - 1);
    if p0 < p {
      FirstIsUnique(probe, Loading, p0, p - 1, p' - 1);
    }
  }

  class Coordinator {
    var record: Option<Record>
    var completed: nat
    var lastUse: Option<nat>

    constructor ()
      ensures record == None && completed == 0 && lastUse == None
    {
      record, completed, lastUse := None, 0, None;
    }

    function View(): Option<Shown>
      reads this
    {
      if record.None? then None else Some(record.value.shown)
    }

    predicate StartedBy(now: nat)
      reads this
    {
      record.Some? ==> record.value.startedAt <= now
    }

    function LastStartup(): Option<nat>
      reads this
    {
      if record.None? then None else record.value.lastStartup
    }

    method MarkRequested(model: string, now: nat)
      modifies this`record
      ensures View() == ShownMark(old(View()), model)
      ensures LastStartup() == old(LastStartup())
      ensures record == old(record) || record.value.startedAt == now
      ensures View().Some? && View().value.model == model && View().value.phase in {Starting, LoadingModel}
      ensures (old(View()).Some? && old(View()).value.model == model
               && old(View()).value.phase in {Starting, LoadingModel}) ==> record == old(record)
    {
      if !UnderWay(View(), model) {
        record := Some(Record(ShownStart(model), now, LastStartup()));
      }
    }

    /** Keeps the time of an earlier request, so that waiting counts towards the timeout. */
    method Begin(model: string, now: nat) returns (started: nat)
      requires StartedBy(now)
      modifies this`record
      ensures View() == ShownBegin(old(View()), model)
      ensures View().Some? && View().value.model == model && View().value.phase == Starting
      ensures started <= now && record.Some? && record.value.startedAt == started
      ensures started == if old(View()) == View() && old(record).Some? then old(record).value.startedAt else now
      ensures LastStartup() == old(LastStartup())
    {
      if record.Some? && record.value.shown.model == model && record.value.shown.phase == Starting {
        return record.value.startedAt;
      }
      record := Some(Record(ShownStart(model), now, LastStartup()));
      started := now;
    }

    method SetLoading(model: string)
      modifies this`record
      ensures View() == ShownLoading(old(View()), model)
      ensures old(View()).Some? && old(View()).value.model == model ==>
                View() == Some(Shown(model, LoadingModel, old(View()).value.error))
      ensures record.Some? == old(record).Some?
      ensures record.Some? ==> record.value.startedAt == old(record).value.startedAt
    {
      if record.Some? && record.value.shown.model == model {
        record := Some(record.value.(shown := record.value.shown.(phase := LoadingModel)));
      }
    }

    method Finish(model: string, r: Outcome, started: nat, now: nat)
      requires started <= now
      modifies this`record
      ensures View() == Some(ShownResult(model, r)) && record.value.startedAt == started
      ensures LastStartup() == if r.Ok? then Some(now - started) else None
    {
      record := Some(Record(ShownResult(model, r), started, if r.Ok? then Some(now - started) else None));
    }

    method FinishResident(model: string, endpoint: string, now: nat)
      modifies this`record
      ensures View() == Some(ShownResult(model, Ok(endpoint))) && record.value.startedAt == now
      ensures LastStartup() ==
              if old(View()).Some? && old(View()).value.model == model then old(LastStartup()) else None
    {
      var last := if record.Some? && record.value.shown.model == model then record.value.lastStartup else None;
      record := Some(Record(ShownResult(model, Ok(endpoint)), now, last));
    }

    /** Asks for a launch until the launcher is no longer busy. No outcome yet means that probing
        may begin. */
    method AwaitLaunch(model: string, w: World, timeout: nat, started: nat)
      returns (r: Option<Outcome>, ghost sleeps: nat)
      requires started <= w.now && record.Some? && record.value.startedAt == started
      modifies this`record, w`now, w`ticks, w`launches
      ensures w.launches == old(w.launches) + sleeps + 1
      ensures forall k | old(w.launches) <= k < w.launches - 1 :: w.launchAnswer(k) == Busy
      ensures r.None? <==> w.launchAnswer(w.launches - 1) == Started
      ensures r.Some? ==> r.value == Verdict(w.launchAnswer(w.launches - 1), Loading, timeout)
      ensures r.Some? ==> View() == Some(ShownResult(model, r.value))
      ensures sleeps <= Polls(timeout) && sleeps * POLL_INTERVAL <= w.now - started
      ensures old(w.now) <= w.now && StartedBy(w.now) && record.Some?
      ensures w.launchAnswer(w.launches - 1) in {Started, Busy} ==> record.value.startedAt == started
      ensures w.launchAnswer(w.launches - 1) == Busy ==> w.now - started >= timeout
    {
      hide Polls, ShownLoading;
      sleeps := 0;
      while true
        invariant started <= w.now && old(w.now) <= w.now
        invariant w.launches == old(w.launches) + sleeps
        invariant sleeps <= Polls(timeout) && sleeps * POLL_INTERVAL <= w.now - started
        invariant forall k | old(w.launches) <= k < w.launches :: w.launchAnswer(k) == Busy
        invariant record == old(record)
        decreases Polls(timeout) - sleeps
      {
        var answer := w.Launch();
        match answer
        case Refused(text) =>
          r := Some(Err(LauncherError(text)));
          Finish(model, r.value, started, w.now);
          return;
        case Resident(endpoint) =>
          r := Some(Ok(endpoint));
          FinishResident(model, endpoint, w.now);
          return;
        case Started =>
          r := None;
          SetLoading(model);
          return;
        case Busy =>
          if w.now - started >= timeout {
            r := Some(Err(ModelLoadFailed(StayedBusy)));
            Finish(model, r.value, started, w.now);
            return;
          }
          PollsFit(sleeps, w.now - started, timeout);
          w.Wait(POLL_INTERVAL);
          sleeps := sleeps + 1;
      }
    }

    /** Probes the loading model until it is ready, has failed or has run out of time. */
    method AwaitReady(model: string, w: World, timeout: nat, started: nat, ghost slept: nat) returns (r: Outcome)
      requires started <= w.now && slept <= Polls(timeout) && slept * POLL_INTERVAL <= w.now - started
      modifies this`record, w`now, w`ticks, w`probes, w`aborts
      ensures old(w.probes) < w.probes && slept + (w.probes - old(w.probes)) <= Polls(timeout) + 1
      ensures forall k | old(w.probes) <= k < w.probes - 1 :: w.probeAnswer(k) == Loading
      ensures r == Verdict(Started, w.probeAnswer(w.probes - 1), timeout)
      ensures w.aborts == old(w.aborts) + if w.probeAnswer(w.probes - 1) == Loading then 1 else 0
      ensures View() == Some(ShownResult(model, r)) && record.value.startedAt == started <= w.now
      ensures old(w.now) <= w.now
      ensures w.probeAnswer(w.probes - 1) == Loading ==> w.now - started >= timeout
    {
      hide Polls;
      ghost var sleeps := slept;
      while true
        invariant started <= w.now && old(w.now) <= w.now && w.aborts == old(w.aborts)
        invariant slept + (w.probes - old(w.probes)) == sleeps && old(w.probes) <= w.probes
        invariant sleeps <= Polls(timeout) && sleeps * POLL_INTERVAL <= w.now - started
        invariant forall k | old(w.probes) <= k < w.probes :: w.probeAnswer(k) == Loading
        decreases Polls(timeout) - sleeps
      {
        var answer := w.Probe();
        match answer
        case Healthy(endpoint) =>
          r := Ok(endpoint);
          Finish(model, r, started, w.now);
          return;
        case Failed(reason) =>
          r := Err(ModelLoadFailed(Said(reason)));
          Finish(model, r, started, w.now);
          return;
        case Loading =>
          if w.now - started >= timeout {
            w.Abort();
            r := Err(ModelLoadFailed(DidNotFinish(timeout / 1000)));
            Finish(model, r, started, w.now);
            return;
          }
          PollsFit(sleeps, w.now - started, timeout);
          w.Wait(POLL_INTERVAL);
          sleeps := sleeps + 1;
      }
    }

    /** A failure and its recorded reason are in the words of the launcher or of the server, or say
        which of the two loops ran out of time. */
    ghost predicate SaidBy(w: World, f: Failure, reason: Reason, timeout: nat)
      reads w
      requires w.launches > 0
    {
      && (match f
          case LauncherError(text) => reason == Said(text) && w.launchAnswer(w.launches - 1) == Refused(text)
          case ModelLoadFailed(why) =>
            && reason == why
            && match why
               case Said(text) => w.probes > 0 && w.probeAnswer(w.probes - 1) == Failed(text)
               case StayedBusy => w.launchAnswer(w.launches - 1) == Busy
               case DidNotFinish(seconds) =>
                 w.probes > 0 && w.probeAnswer(w.probes - 1) == Loading && seconds == timeout / 1000)
    }

    /** Every startup ends within the stated number of calls, gives the outcome its last answers
        call for, aborts exactly when the probe loop ran out of time, and leaves a record that
        matches the outcome. */
    method StartLocked(model: string, w: World, timeout: nat) returns (r: Outcome, ghost timedOut: bool)
      requires StartedBy(w.now)
      modifies this`record, w`now, w`ticks, w`launches, w`probes, w`aborts
      ensures Complete(w.launchAnswer, w.probeAnswer, old(w.launches), w.launches, old(w.probes), w.probes, timedOut)
      ensures r == Verdict(w.launchAnswer(w.launches - 1), LastProbe(w.probeAnswer, old(w.probes), w.probes), timeout)
      ensures (w.launches - old(w.launches)) + (w.probes - old(w.probes)) <= Polls(timeout) + 2
      ensures w.aborts == old(w.aborts) + if timedOut && w.probes > old(w.probes) then 1 else 0
      ensures View() == Some(ShownResult(model, r)) && StartedBy(w.now) && w.now >= old(w.now)
      ensures timedOut ==> w.now - record.value.startedAt >= timeout
      ensures r.Ok? <==> w.launchAnswer(w.launches - 1).Resident?
                         || (w.probes > old(w.probes) && w.probeAnswer(w.probes - 1).Healthy?)
      ensures r.Ok? ==> w.launchAnswer(w.launches - 1) == Resident(r.value)
                        || (w.probes > old(w.probes) && w.probeAnswer(w.probes - 1) == Healthy(r.value))
      ensures r.Ok? ==> record.value.shown == Shown(model, Ready, None)
      ensures r.Err? ==>
                && record.value.shown.model == model && record.value.shown.phase == Error
                && record.value.shown.error.Some? && SaidBy(w, r.error, record.value.shown.error.value, timeout)
    {
      hide Polls;
      var started := Begin(model, w.now);
      var early;
      ghost var sleeps;
      early, sleeps := AwaitLaunch(model, w, timeout, started);
      if early.Some? {
        return early.value, w.launchAnswer(w.launches - 1) == Busy;
      }
      r := AwaitReady(model, w, timeout, started, sleeps);
      timedOut := w.probeAnswer(w.probes - 1) == Loading;
    }

    /** What a caller that read `seen` does once it holds the gate. */
    method AcquireHoldingGate(model: string, seen: nat, w: World, timeout: nat) returns (r: Outcome)
      requires StartedBy(w.now)
      modifies this, w`now, w`ticks, w`launches, w`probes, w`aborts
      ensures lastUse == Some(old(w.now))
      ensures StartedBy(w.now)
      ensures
        var shared := if old(completed) != seen then FailedError(old(View()), model) else None;
        match shared
        case Some(error) =>
          && r == Err(ModelLoadFailed(error)) && record == old(record) && completed == old(completed)
          && w.launches == old(w.launches) && w.probes == old(w.probes) && w.aborts == old(w.aborts)
        case None =>
          && completed == old(completed) + 1 && w.launches > old(w.launches)
          && (w.launches - old(w.launches)) + (w.probes - old(w.probes)) <= Polls(timeout) + 2
          && View() == Some(ShownResult(model, r))
      ensures w.launches == old(w.launches) <==>
              && old(completed) != seen && old(View()).Some? && old(View()).value.model == model
              && old(View()).value.phase == Error && old(View()).value.error.Some?
      ensures w.launches == old(w.launches) ==> r == Err(ModelLoadFailed(old(View()).value.error.value))
    {
      lastUse := Some(w.now);
      if completed != seen {
        var error := FailedError(View(), model);
        if error.Some? {
          return Err(ModelLoadFailed(error.value));
        }
      }
      ghost var timedOut;
      r, timedOut := StartLocked(model, w, timeout);
      completed := completed + 1;
    }
  }
}
