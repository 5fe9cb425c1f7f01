/**
  Assembling the repository context: roots are read by a few workers at a time, and their sections
  are joined up to a budget.
 */
module RepoContext {
  import opened Basics

  // ---- Collecting --------------------------------------------------------------------------

  /** What reading one root gives; a worker may also panic. */
  datatype Answer = Found(sections: seq<string>) | Failed(error: string) | Panicked

  type Collected = Result<seq<string>, string>

  function Joined(a: Answer): Collected {
    match a
    case Found(sections) => Ok(sections)
    case Failed(error) => Err(error)
    case Panicked => Err("repository worker panicked")
  }

  /** First one, then the other, unless the first fails. */
  function Then(first: Collected, second: Collected): Collected {
    match first
    case Err(error) => Err(error)
    case Ok(sections) =>
      match second
      case Err(error) => Err(error)
      case Ok(rest) => Ok(sections + rest)
  }

  /** One root after the other, up to the first error. */
  function InOrder(answers: seq<Answer>): Collected {
    if answers == [] then Ok([]) else Then(Joined(answers[0]), InOrder(answers[1..]))
  }

  /** The position of the first root that is not read, or the number of roots. */
  function FirstBad(answers: seq<Answer>): (f: nat)
    ensures f <= |answers|
    ensures forall k | 0 <= k < f :: answers[k].Found?
    ensures f < |answers| ==> !answers[f].Found?
  {
    if answers == [] || !answers[0].Found? then 0 else 1 + FirstBad(answers[1..])
  }

  /** Which error wins: that of the first root that is not read. */
  lemma {:induction false} InOrderFails(answers: seq<Answer>)
    ensures InOrder(answers).Err? <==> FirstBad(answers) < |answers|
    ensures InOrder(answers).Err? ==> InOrder(answers) == Err(Joined(answers[FirstBad(answers)]).error)
  {
    if answers != [] {
      InOrderFails(answers[1..]);
    }
  }

  predicate AllFound(answers: seq<Answer>) {
    forall k | 0 <= k < |answers| :: answers[k].Found?
  }

  /** What the roots gave, root by root. */
  function Finds(answers: seq<Answer>): seq<seq<string>>
    requires AllFound(answers)
  {
    seq(|answers|, i requires 0 <= i < |answers| => answers[i].sections)
  }

  /** If every root is read, all their sections come out in order; else the text of the first
      failure, or that a worker panicked. */
  lemma {:induction false} InOrderIs(answers: seq<Answer>)
    ensures AllFound(answers) ==> InOrder(answers) == Ok(Flatten(Finds(answers)))
    ensures !AllFound(answers) ==>
              exists f :: 0 <= f < |answers| && AllFound(answers[..f]) &&
                          ((answers[f].Failed? && InOrder(answers) == Err(answers[f].error))
                           || (answers[f].Panicked? && InOrder(answers) == Err("repository worker panicked")))
  {
    if AllFound(answers) {
      if answers != [] {
        InOrderIs(answers[1..]);
        assert Finds(answers)[1..] == Finds(answers[1..]);
      }
    } else {
      InOrderFails(answers);
      var f := FirstBad(answers);
      assert AllFound(answers[..f]);
    }
  }

  lemma ThenAssociates(a: Collected, b: Collected, c: Collected)
    ensures Then(a, Then(b, c)) == Then(Then(a, b), c)
    ensures Then(Ok([]), a) == a && Then(a, Ok([])) == a
  {
    if a.Ok? && b.Ok? && c.Ok? {
      assert a.value + (b.value + c.value) == (a.value + b.value) + c.value;
    }
    assert a.Ok? ==> [] + a.value == a.value == a.value + [];
  }

  lemma {:induction false} InOrderConcat(a: seq<Answer>, b: seq<Answer>)
    ensures InOrder(a + b) == Then(InOrder(a), InOrder(b))
  {
    hide Then, Joined;
    if a == [] {
      assert a + b == b;
      ThenAssociates(InOrder(b), Ok([]), Ok([]));
    } else {
      InOrderConcat(a[1..], b);
      assert (a + b)[1..] == a[1..] + b;
      ThenAssociates(Joined(a[0]), InOrder(a[1..]), InOrder(b));
    }
  }

  lemma InOrderOne(a: Answer)
    ensures InOrder([a]) == Joined(a)
  {
    assert InOrder([a][1..]) == Ok([]);
    ThenAssociates(Joined(a), Ok([]), Ok([]));
  }

  /** A scope that ends with a panicked worker nobody joined panics itself. */
  datatype Scoped<T> = Ended(value: T) | ScopePanics

  /** A worker panics behind the first failure and in the same chunk. */
  predicate PanicIsMissed(answers: seq<Answer>, workers: nat)
    requires 0 < workers
  {
    var f := FirstBad(answers);
    exists j | f < j < |answers| && j < f - f % workers + workers :: answers[j].Panicked?
  }

  function Clamp(n: nat): (w: nat)
    ensures 1 <= w <= 4 && (1 <= n <= 4 ==> w == n)
    ensures n > 4 ==> w == 4
  {
    if n < 1 then 1 else if n > 4 then 4 else n
  }

  /** The workers of one chunk, in whatever order the schedule finishes them. */
  method RunWorkers(chunk: seq<Answer>, schedule: nat -> nat) returns (slots: seq<Answer>)
    ensures slots == chunk
  {
    var done: seq<Option<Answer>> := seq(|chunk|, _ => None);
    var running: seq<nat> := seq(|chunk|, i => i);
    var tick := 0;
    forall k: nat | k < |chunk| ensures k in running {
      assert running[k] == k;
    }
    while running != []
      invariant |done| == |chunk|
      invariant forall i | 0 <= i < |running| :: running[i] < |chunk|
      invariant forall k | 0 <= k < |chunk| :: k in running || done[k] == Some(chunk[k])
      decreases |running|
    {
      var pick := schedule(tick) % |running|;
      var k := running[pick];
      done := done[k := Some(chunk[k])];
      ghost var before := running;
      running := running[..pick] + running[pick + 1..];
      assert forall x | x in before :: x == k || x in running;
      tick := tick + 1;
    }
    slots := seq(|chunk|, i requires 0 <= i < |chunk| => if done[i].Some? then done[i].value else Panicked);
  }

  /** Joins the handles in order and stops at the first that is not fine. A handle that is dropped
      unjoined has its panic reported by the scope. */
  method JoinInOrder(slots: seq<Answer>) returns (r: Scoped<Collected>)
    ensures r == if PanicBehind(slots) then ScopePanics else Ended(InOrder(slots))
  {
    var sections: seq<string> := [];
    for i := 0 to |slots|
      invariant InOrder(slots[..i]) == Ok(sections)
      invariant forall k | 0 <= k < i :: slots[k].Found?
    {
      InOrderConcat(slots[..i], [slots[i]]);
      assert slots[..i] + [slots[i]] == slots[..i + 1];
      InOrderOne(slots[i]);
      match Joined(slots[i])
      case Err(error) =>
        assert FirstBad(slots) == i;
        InOrderFails(slots);
        if exists j | i < j < |slots| :: slots[j].Panicked? {
          return ScopePanics;
        }
        return Ended(Err(error));
      case Ok(found) =>
        sections := sections + found;
    }
    assert slots[..|slots|] == slots;
    assert FirstBad(slots) == |slots|;
    return Ended(Ok(sections));
  }

  /** Chunk by chunk. Whatever the number of workers and the order in which they finish, the outcome
      is that of reading the roots one after the other - except that a panic behind the first failure,
      in the same chunk, is not caught. */
  method Collect(answers: seq<Answer>, maxWorkers: nat, schedule: nat -> nat) returns (r: Scoped<Collected>)
    ensures r == if PanicIsMissed(answers, Clamp(maxWorkers)) then ScopePanics else Ended(InOrder(answers))
  {
    var workers := Clamp(maxWorkers);
    var sections: seq<string> := [];
    var start := 0;
    while start < |answers|
      invariant start <= |answers| && (start < |answers| ==> start % workers == 0)
      invariant InOrder(answers[..start]) == Ok(sections)
    {
      hide InOrder, PanicIsMissed, FirstBad;
      var end := if start + workers <= |answers| then start + workers else |answers|;
      var chunk := answers[start..end];
      var slots := RunWorkers(chunk, schedule);
      var joined := JoinInOrder(slots);
      ChunkJoins(answers, start, end, sections);
      ChunkDecides(answers, start, end, workers);
      match joined
      case ScopePanics =>
        return ScopePanics;
      case Ended(Err(error)) =>
        return Ended(Err(error));
      case Ended(Ok(found)) =>
        sections := sections + found;
      NextChunk(start, workers);
      start := end;
    }
    assert answers[..start] == answers;
    NoPanicMissed(answers, workers);
    return Ended(Ok(sections));
  }

  lemma NextChunk(start: nat, workers: nat)
    requires 1 <= workers <= 4 && start % workers == 0
    ensures (start + workers) % workers == 0
  {
    match workers
    case 1 =>
    case 2 =>
    case 3 =>
    case 4 =>
  }

  lemma NoPanicMissed(answers: seq<Answer>, workers: nat)
    requires 0 < workers && InOrder(answers).Ok?
    ensures !PanicIsMissed(answers, workers)
  {
    InOrderFails(answers);
  }

  lemma ChunkStart(f: nat, start: nat, workers: nat)
    requires 1 <= workers <= 4 && start % workers == 0 && start <= f < start + workers
    ensures f - f % workers == start
  {
    match workers
    case 1 =>
    case 2 =>
    case 3 =>
    case 4 =>
  }

  /** A chunk read in full extends what has been collected; one that fails decides the outcome. */
  lemma ChunkJoins(answers: seq<Answer>, start: nat, end: nat, sections: seq<string>)
    requires start < end <= |answers| && InOrder(answers[..start]) == Ok(sections)
    ensures match InOrder(answers[start..end])
            case Err(error) => InOrder(answers) == Err(error)
            case Ok(found) => InOrder(answers[..end]) == Ok(sections + found)
  {
    hide InOrder;
    InOrderConcat(answers[..start], answers[start..end]);
    assert answers[..start] + answers[start..end] == answers[..end];
    InOrderConcat(answers[..end], answers[end..]);
    assert answers[..end] + answers[end..] == answers;
  }

  ghost predicate PanicBehind(chunk: seq<Answer>) {
    exists j | FirstBad(chunk) < j < |chunk| :: chunk[j].Panicked?
  }

  /** The chunk in which the first failure lies decides whether a panic is missed. */
  lemma ChunkDecides(answers: seq<Answer>, start: nat, end: nat, workers: nat)
    requires 1 <= workers <= 4 && start % workers == 0 && start < |answers|
    requires end == if start + workers <= |answers| then start + workers else |answers|
    requires InOrder(answers[..start]).Ok?
    ensures InOrder(answers[start..end]).Ok? ==> !PanicBehind(answers[start..end])
    ensures InOrder(answers[start..end]).Err? ==>
              (PanicIsMissed(answers, workers) <==> PanicBehind(answers[start..end]))
  {
    hide InOrder;
    var chunk := answers[start..end];
    var f := FirstBad(chunk);
    InOrderFails(answers[..start]);
    InOrderFails(chunk);
    if f < |chunk| {
      FirstBadOfChunk(answers, start, end);
      ChunkStart(start + f, start, workers);
      hide FirstBad;
      SameWindow(answers, start, end, f);
    }
  }

  lemma SameWindow(answers: seq<Answer>, start: nat, end: nat, f: nat)
    requires start <= end <= |answers|
    ensures (exists j | start + f < j < end :: answers[j].Panicked?)
            <==> (exists j | f < j < end - start :: answers[start..end][j].Panicked?)
  {
    if j :| start + f < j < end && answers[j].Panicked? {
      assert answers[start..end][j - start].Panicked?;
    }
    if j :| f < j < end - start && answers[start..end][j].Panicked? {
      assert answers[start + j].Panicked?;
    }
  }

  lemma FirstBadOfChunk(answers: seq<Answer>, start: nat, end: nat)
    requires start < end <= |answers| && FirstBad(answers[..start]) == start
    requires FirstBad(answers[start..end]) < end - start
    ensures FirstBad(answers) == start + FirstBad(answers[start..end])
  {
    hide FirstBad;
    var before, chunk := answers[..start], answers[start..end];
    var f := FirstBad(chunk);
    forall k | 0 <= k < start + f
      ensures answers[k].Found?
    {
      assert answers[k] == if k < start then before[k] else chunk[k - start];
    }
    FirstBadIs(answers, start + f);
  }

  lemma FirstBadIs(answers: seq<Answer>, f: nat)
    requires f < |answers| && !answers[f].Found? && forall k | 0 <= k < f :: answers[k].Found?
    ensures FirstBad(answers) == f
  {
  }

  /** Without panics, or with one worker, the outcome is always that of reading in order. */
  lemma WorkersDoNotMatter(answers: seq<Answer>, workers: nat)
    requires 0 < workers && (workers == 1 || forall k | 0 <= k < |answers| :: !answers[k].Panicked?)
    ensures !PanicIsMissed(answers, workers)
  {
    if workers == 1 {
      assert FirstBad(answers) % 1 == 0;
    }
  }

  /** The same two roots read by several workers and by one: a panic behind a failure brings the
      first call down, while the second ends with the failure. */
  method MissedPanic(error: string, workers: nat, schedule: nat -> nat)
    returns (many: Scoped<Collected>, one: Scoped<Collected>)
    requires workers >= 2
    ensures many == ScopePanics && one == Ended(Err(error))
  {
    var answers := [Failed(error), Panicked];
    assert FirstBad(answers) == 0 && answers[1].Panicked?;
    many := Collect(answers, workers, schedule);
    WorkersDoNotMatter(answers, 1);
    one := Collect(answers, 1, schedule);
  }

  // ---- Compressing -------------------------------------------------------------------------

  const MARK: string := "…[compressed]"

  function Bounded(value: string, max: nat): string {
    if |value| <= max then value else value[..max] + MARK
  }

  function Remaining(output: string, budget: nat): nat {
    if |output| < budget then budget - |output| else 0
  }

  function Append(output: string, section: string): string {
    if output == "" then section else output + "\n\n" + section
  }

  function CompressFrom(output: string, sections: seq<string>, budget: nat): string
    decreases sections
  {
    if sections == [] || Remaining(output, budget) < 120 then output
    else CompressFrom(Append(output, Bounded(sections[0], Remaining(output, budget) - 2)), sections[1..], budget)
  }

  /** All sections in full, with blank lines between them. */
  function Whole(sections: seq<string>): string {
    if sections == [] then "" else Append(Whole(sections[..|sections| - 1]), sections[|sections| - 1])
  }

  /** Each section with a blank line in front of it. */
  function Separated(sections: seq<string>): seq<string> {
    seq(|sections|, i requires 0 <= i < |sections| => "\n\n" + sections[i])
  }

  /** No blank line comes in front of the first section that says anything. */
  lemma {:induction false} WholeIsJoined(sections: seq<string>)
    requires sections != []
    ensures sections[0] != "" ==> Whole(sections) == sections[0] + Flatten(Separated(sections[1..]))
    ensures sections[0] == "" ==> Whole(sections) == Whole(sections[1..])
  {
    var m := |sections| - 1;
    if m == 0 {
      assert Whole(sections[..0]) == "";
      assert Separated(sections[1..]) == [];
    } else {
      var init, last := sections[..m], sections[m];
      WholeIsJoined(init);
      if sections[0] != "" {
        assert Separated(sections[1..]) == Separated(init[1..]) + ["\n\n" + last];
        FlattenAppend(Separated(init[1..]), "\n\n" + last);
      } else {
        assert sections[1..][..|sections[1..]| - 1] == init[1..];
      }
    }
  }

  method CompressSections(sections: seq<string>, budget: nat) returns (output: string)
    ensures output == CompressFrom("", sections, budget)
  {
    output := "";
    for i := 0 to |sections|
      invariant CompressFrom("", sections, budget) == CompressFrom(output, sections[i..], budget)
    {
      var remaining := Remaining(output, budget);
      if remaining < 120 {
        break;
      }
      assert sections[i..][0] == sections[i] && sections[i..][1..] == sections[i + 1..];
      var bounded := Bounded(sections[i], remaining - 2);
      ghost var next := Append(output, bounded);
      assert CompressFrom(output, sections[i..], budget) == CompressFrom(next, sections[i + 1..], budget);
      if output != "" {
        output := output + "\n\n";
      }
      output := output + bounded;
      assert output == next;
    }
  }

  /** `output` holds the first `m` sections in full, or the first `m - 1` in full and the beginning
      of the next with the mark, as much of it as the budget leaves. */
  predicate Holds(output: string, sections: seq<string>, budget: nat, m: nat) {
    && m <= |sections|
    && (output == Whole(sections[..m])
        || (m > 0
            && var before := Whole(sections[..m - 1]);
            && |before| + 120 <= budget
            && Remaining(before, budget) - 2 < |sections[m - 1]|
            && output == Append(before, sections[m - 1][..Remaining(before, budget) - 2] + MARK)))
  }

  ghost predicate Shape(output: string, all: seq<string>, budget: nat) {
    exists m: nat :: m <= |all| && Holds(output, all, budget, m) && (m < |all| ==> |output| + 120 > budget)
  }

  lemma WholeStep(all: seq<string>, i: nat)
    requires i < |all|
    ensures Whole(all[..i + 1]) == Append(Whole(all[..i]), all[i])
  {
    assert all[..i + 1][..i] == all[..i];
  }

  lemma CompressStep(output: string, all: seq<string>, i: nat, budget: nat)
    requires i <= |all|
    ensures CompressFrom(output, all[i..], budget) ==
            if i == |all| || Remaining(output, budget) < 120 then output
            else CompressFrom(Append(output, Bounded(all[i], Remaining(output, budget) - 2)), all[i + 1..], budget)
  {
    if i < |all| {
      assert all[i..][0] == all[i] && all[i..][1..] == all[i + 1..];
    }
  }

  lemma {:induction false} CompressFromShape(all: seq<string>, i: nat, budget: nat)
    requires i <= |all| && |Whole(all[..i])| <= budget
    ensures
      var output := CompressFrom(Whole(all[..i]), all[i..], budget);
      |output| <= budget + |MARK| && Shape(output, all, budget)
    decreases |all| - i
  {
    hide CompressFrom, Whole;
    var before := Whole(all[..i]);
    CompressStep(before, all, i, budget);
    if i == |all| || Remaining(before, budget) < 120 {
      assert Holds(before, all, budget, i);
    } else {
      var section, room := all[i], Remaining(before, budget) - 2;
      if |section| <= room {
        WholeStep(all, i);
        CompressFromShape(all, i + 1, budget);
      } else {
        var cut := Append(before, section[..room] + MARK);
        CompressStep(cut, all, i + 1, budget);
        assert Holds(cut, all, budget, i + 1);
      }
    }
  }

  /** The text exceeds the budget by the mark at most; all the sections it holds, except possibly
      the last, are verbatim; and sections are left out only when the budget is nearly used up. */
  lemma CompressedShape(sections: seq<string>, budget: nat)
    ensures
      var output := CompressFrom("", sections, budget);
      |output| <= budget + 13 && Shape(output, sections, budget)
  {
    hide CompressFrom;
    assert sections[..0] == [] && sections[0..] == sections;
    CompressFromShape(sections, 0, budget);
  }

  lemma {:induction false} WholeGrows(sections: seq<string>, i: nat)
    requires i <= |sections|
    ensures |Whole(sections[..i])| <= |Whole(sections)|
  {
    if i == |sections| {
      assert sections[..i] == sections;
    } else {
      var init := sections[..|sections| - 1];
      WholeGrows(init, i);
      assert init[..i] == sections[..i];
    }
  }

  /** Text that leaves the last stretch of the budget free is passed on unchanged. */
  lemma ShortTextIsWhole(sections: seq<string>, budget: nat)
    requires |Whole(sections)| + 120 <= budget
    ensures CompressFrom("", sections, budget) == Whole(sections)
  {
    hide CompressFrom, Whole;
    CompressedShape(sections, budget);
    var output := CompressFrom("", sections, budget);
    var m: nat :| m <= |sections| && Holds(output, sections, budget, m) && (m < |sections| ==> |output| + 120 > budget);
    WholeGrows(sections, m);
    assert sections[..|sections|] == sections;
    if m > 0 {
      WholeGrows(sections, m - 1);
      WholeStep(sections, m - 1);
    }
  }

  // ---- Together ----------------------------------------------------------------------------

  const MAX_CONTEXT_CHARS: nat := 28000

  /** What looking at each root gives, in order. */
  function Answers<Root>(roots: seq<Root>, look: Root -> Answer): seq<Answer> {
    seq(|roots|, i requires 0 <= i < |roots| => look(roots[i]))
  }

  /** The context that reading the roots in order gives, with up to 28000 characters and the mark. */
  function Context(header: seq<string>, answers: seq<Answer>): (r: Result<string, string>)
    ensures r.Ok? ==> |r.value| <= MAX_CONTEXT_CHARS + |MARK|
  {
    match InOrder(answers)
    case Err(error) => Err(error)
    case Ok(sections) =>
      CompressedShape(header + sections, MAX_CONTEXT_CHARS);
      Ok(CompressFrom("", header + sections, MAX_CONTEXT_CHARS))
  }

  /** The context for the given roots: the same for every number of workers and every schedule,
      unless a panic is missed. */
  method BuildRepositoryContext<Root>(header: seq<string>, roots: seq<Root>, look: Root -> Answer,
                                      maxWorkers: nat, schedule: nat -> nat)
    returns (r: Scoped<Result<string, string>>)
    ensures if PanicIsMissed(Answers(roots, look), Clamp(maxWorkers)) then r == ScopePanics
            else r == Ended(Context(header, Answers(roots, look)))
  {
    hide PanicIsMissed, CompressFrom, InOrder;
    var collected := Collect(Answers(roots, look), maxWorkers, schedule);
    match collected
    case ScopePanics => return ScopePanics;
    case Ended(Err(error)) => return Ended(Err(error));
    case Ended(Ok(sections)) =>
      var output := CompressSections(header + sections, MAX_CONTEXT_CHARS);
      return Ended(Ok(output));
  }
}
