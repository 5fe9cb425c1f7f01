/**
  Which patches can be crash safe at all. While a patch is applied, directories are made on the way
  to its targets. A directory on a path that the patch itself targets can never be undone, and that
  is met exactly by the patches that clash.
 */
module PatchClash {
  import opened Basics
  import opened WorkspaceDisk
  import opened PatchPlan
  import opened PatchJournal
  import opened PatchProgress
  import opened PatchApply
  import opened PatchTransaction
  import opened PatchRecovery
  import opened PatchHistory

  /** The disk once directory `q` and those above it are made. */
  function MadeDownTo(d: Disk, q: Path): Disk {
    d.(dirs := d.dirs + (ParentDirs(q) + {q}))
  }

  /** On the way to target `n`, with the changes before it carried out, the missing ancestor `q` is
      made; a loss of power right then leaves a disk from which no workspace can be recovered. */
  ghost predicate Endangers(d: Disk, id: TxId, plan: seq<Change>, n: nat, q: Path) {
    && n < |plan| && q in ParentDirs(plan[n].path)
    && var mid := Applied(d, id, plan, n);
    && mid.Some? && !Exists(mid.value, q)
    && forall h :: !Safe(MadeDownTo(mid.value, q), h)
  }

  /** A missing ancestor of target `n` is itself a target. */
  ghost predicate TargetAbove(d: Disk, plan: seq<Change>, n: nat)
    requires n < |plan|
  {
    exists q :: q in ParentDirs(plan[n].path) && !Exists(d, q) && Planned(plan, q)
  }

  // ---- One change --------------------------------------------------------------------------

  lemma ParentsAreShorter(p: Path, q: Path)
    requires q in ParentDirs(p)
    ensures q < p && 0 < |q| && ParentDirs(q) <= ParentDirs(p)
  {
    var k :| 0 < k < |p| && q == p[..k];
    forall r | r in ParentDirs(q)
      ensures r in ParentDirs(p)
    {
      var m :| 0 < m < |q| && r == q[..m];
      assert r == p[..m];
    }
  }

  /** Making ancestors that are no targets leaves the commit as far as it was. */
  lemma ParentsAreHarmless(d: Disk, id: TxId, plan: seq<Change>, g: Files, n: nat, more: set<Path>)
    requires Progress(d, id, plan, g, n, false) && n < |plan| && more <= ParentDirs(plan[n].path)
    requires !TargetAbove(d, plan, n) && !FileAbove(d.files, plan[n].path)
    ensures Progress(d.(dirs := d.dirs + more), id, plan, g, n, false)
  {
    hide Progress, Planned;
    forall q | q in d.dirs + more && q !in d.dirs
      ensures !Planned(plan, q)
    {
      var k :| 0 < k < |plan[n].path| && q == plan[n].path[..k];
      assert !Exists(d, q);
    }
    AdvanceParents(d, d.(dirs := d.dirs + more), id, plan, g, n);
  }

  lemma HasAllParents(d: Disk, p: Path)
    ensures HasParents(WithParents(d, p), p)
  {
  }

  /** A change carried out takes the commit on. */
  lemma ChangeAdvances(d: Disk, id: TxId, plan: seq<Change>, g: Files, n: nat)
    requires Progress(d, id, plan, g, n, false) && n < |plan| && !TargetAbove(d, plan, n)
    requires ApplyOne(d, id, plan[n], n).Some?
    ensures Progress(ApplyOne(d, id, plan[n], n).value, id, plan, g, n + 1, false)
  {
    hide Progress, TargetAbove, HasParents, Exec;
    var p := plan[n].path;
    ParentsAreHarmless(d, id, plan, g, n, ParentDirs(p));
    HasAllParents(d, p);
    var made := WithParents(d, p);
    PathsOfProgress(made, id, plan, g, n);
    AdvanceOut(made, id, plan, g, n);
    MovedOutKeepsParents(made, p, id, Backup(n));
    var moved := if Exists(made, p) then Exec(made, MoveOut(p, id, Backup(n))).value else made;
    AdvanceIn(moved, id, plan, g, n);
  }

  lemma {:induction false} EarlierApplied(d: Disk, id: TxId, plan: seq<Change>, n: nat, m: nat)
    requires n <= m <= |plan| && Applied(d, id, plan, m).Some?
    ensures Applied(d, id, plan, n).Some?
    decreases m
  {
    if n < m {
      EarlierApplied(d, id, plan, n, m - 1);
    }
  }

  // ---- No clash, no danger -----------------------------------------------------------------

  lemma {:induction false} NoClashNoDanger(d: Disk, id: TxId, plan: seq<Change>, g: Files, n: nat)
    requires Progress(d, id, plan, g, 0, false) && n <= |plan| && !Clash(plan)
    requires Applied(d, id, plan, |plan|).Some?
    ensures Applied(d, id, plan, n).Some? && Progress(Applied(d, id, plan, n).value, id, plan, g, n, false)
  {
    hide Progress, Clash, TargetAbove, ApplyOne;
    EarlierApplied(d, id, plan, n, |plan|);
    if n > 0 {
      NoClashNoDanger(d, id, plan, g, n - 1);
      NoTargetAbove(Applied(d, id, plan, n - 1).value, id, plan, g, n - 1);
      ChangeAdvances(Applied(d, id, plan, n - 1).value, id, plan, g, n - 1);
    }
  }

  lemma NoTargetAbove(d: Disk, id: TxId, plan: seq<Change>, g: Files, n: nat)
    requires Progress(d, id, plan, g, n, false) && n < |plan| && !Clash(plan)
    ensures !TargetAbove(d, plan, n)
  {
    hide Progress, Clash, Planned;
    forall q | q in ParentDirs(plan[n].path) && !Exists(d, q)
      ensures !Planned(plan, q)
    {
      ParentsAreShorter(plan[n].path, q);
      NewParentsAreNoTargets(d, id, plan, g, n, q);
    }
  }

  lemma NoDanger(d: Disk, id: TxId, plan: seq<Change>, g: Files, n: nat, q: Path)
    requires Progress(d, id, plan, g, 0, false) && n < |plan| && !Clash(plan)
    requires Applied(d, id, plan, |plan|).Some?
    ensures !Endangers(d, id, plan, n, q)
  {
    hide Progress, Clash, TargetAbove, Safe, ParentDirs;
    NoClashNoDanger(d, id, plan, g, n);
    EarlierApplied(d, id, plan, n + 1, |plan|);
    var mid := Applied(d, id, plan, n).value;
    NoTargetAbove(mid, id, plan, g, n);
    if q in ParentDirs(plan[n].path) {
      ParentsAreShorter(plan[n].path, q);
      ParentsAreHarmless(mid, id, plan, g, n, ParentDirs(q) + {q});
      ProgressIsJournaled(MadeDownTo(mid, q), id, plan, g, n, false);
    }
  }

  // ---- A clash is met ----------------------------------------------------------------------

  /** The two changes that clash. */
  predicate ClashPair(plan: seq<Change>, i: nat, k: nat) {
    && i < k < |plan|
    && (|| (plan[i].kind == Deleted && plan[i].path < plan[k].path)
        || (plan[i].kind == Created && plan[k].kind == Created && plan[k].path < plan[i].path))
  }

  /** When the deeper one of them has its turn, the other is a missing ancestor. */
  function Turn(plan: seq<Change>, i: nat, k: nat): nat
    requires ClashPair(plan, i, k)
  {
    if plan[i].kind == Deleted then k else i
  }

  lemma TurnIsDangerous(d: Disk, id: TxId, plan: seq<Change>, g: Files, i: nat, k: nat)
    requires ClashPair(plan, i, k) && Progress(d, id, plan, g, Turn(plan, i, k), false)
    ensures TargetAbove(d, plan, Turn(plan, i, k))
  {
    var n := Turn(plan, i, k);
    var q := plan[if n == k then i else k].path;
    assert Stands(d, d.txs[id], plan[i], i, g, n, false);
    assert Stands(d, d.txs[id], plan[k], k, g, n, false);
    assert EntryOk(JournalFor(id, plan).entries[i], i) && EntryOk(JournalFor(id, plan).entries[k], k);
    assert plan[n].path[..|q|] == q;
    assert q in ParentDirs(plan[n].path);
    assert !Exists(d, q);
    assert Planned(plan, q);
  }

  lemma DangerHere(d: Disk, id: TxId, plan: seq<Change>, g: Files, n: nat) returns (q: Path)
    requires n < |plan| && Progress(d, id, plan, g, n, false) && TargetAbove(d, plan, n)
    ensures q in ParentDirs(plan[n].path) && !Exists(d, q) && forall h :: !Safe(MadeDownTo(d, q), h)
  {
    hide Progress, Safe;
    q :| q in ParentDirs(plan[n].path) && !Exists(d, q) && Planned(plan, q);
    DirectoriesOnTarget(d, id, plan, g, n, ParentDirs(q) + {q}, q);
  }

  /** Danger is met by the turn of the clash at the latest. */
  lemma DangerAhead(d: Disk, id: TxId, plan: seq<Change>, g: Files, i: nat, k: nat) returns (n: nat, q: Path)
    requires Progress(d, id, plan, g, 0, false) && Applied(d, id, plan, |plan|).Some? && ClashPair(plan, i, k)
    ensures Endangers(d, id, plan, n, q)
  {
    hide Progress, TargetAbove, Safe, ApplyOne;
    var mid := d;
    n := 0;
    while n < Turn(plan, i, k) && !TargetAbove(mid, plan, n)
      invariant n <= Turn(plan, i, k) && Applied(d, id, plan, n) == Some(mid)
      invariant Progress(mid, id, plan, g, n, false)
      decreases Turn(plan, i, k) - n
    {
      EarlierApplied(d, id, plan, n + 1, |plan|);
      ChangeAdvances(mid, id, plan, g, n);
      mid, n := ApplyOne(mid, id, plan[n], n).value, n + 1;
    }
    if n == Turn(plan, i, k) {
      TurnIsDangerous(mid, id, plan, g, i, k);
    }
    q := DangerHere(mid, id, plan, g, n);
  }

  // ---- Both ways ---------------------------------------------------------------------------

  /** A patch whose apply loop can run to its end passes a disk from which no workspace can be
      recovered if and only if it clashes. */
  lemma ClashIff(d: Disk, id: TxId, plan: seq<Change>, g: Files)
    requires Progress(d, id, plan, g, 0, false) && Applied(d, id, plan, |plan|).Some?
    ensures Clash(plan) <==> exists n: nat, q :: Endangers(d, id, plan, n, q)
  {
    hide Progress, Endangers;
    if Clash(plan) {
      var i, k :| 0 <= i < k < |plan| && (
        || (plan[i].kind == Deleted && plan[i].path < plan[k].path)
        || (plan[i].kind == Created && plan[k].kind == Created && plan[k].path < plan[i].path));
      assert ClashPair(plan, i, k);
      assert Applied(d, id, plan, 0) == Some(d);
      var n, q := DangerAhead(d, id, plan, g, i, k);
    } else {
      forall n: nat, q ensures !Endangers(d, id, plan, n, q) {
        if n < |plan| {
          NoDanger(d, id, plan, g, n, q);
        } else {
          NoTargetNoDanger(d, id, plan, n, q);
        }
      }
    }
  }

  lemma NoTargetNoDanger(d: Disk, id: TxId, plan: seq<Change>, n: nat, q: Path)
    requires n >= |plan|
    ensures !Endangers(d, id, plan, n, q)
  {
  }

  /** The same for the operations of a request: `d` is the disk of a transaction staged for them. */
  lemma ClashingIff(clean: Disk, d: Disk, id: TxId, ops: seq<Operation>, plan: seq<Change>, digest: Digest)
    requires Plans(clean, ops, digest, plan) && |plan| == |ops|
    requires Staged(d, id, plan, clean.files, |plan|) && Applied(d, id, plan, |plan|).Some?
    ensures Clashing(ops) <==> exists n: nat, q :: Endangers(d, id, plan, n, q)
  {
    hide Endangers, Clash, Clashing, Plans, Staged;
    StagedIsProgress(d, id, plan, clean.files);
    PlanLiesAlike(clean, ops, plan, digest);
    ClashIff(d, id, plan, clean.files);
  }

  // ---- An example --------------------------------------------------------------------------

  const A: Path := ["a"]
  const BELOW_A: Path := ["a", "b"]
  const DELETE_THEN_CREATE: seq<Operation> := [Delete(A, NoHash), Create(BELOW_A, [1])]
  const CLEAN := Disk(map[A := [0]], {}, map[])
  const PLANNED: seq<Change> := [Change(A, Some([0]), None, Deleted), Change(BELOW_A, None, Some([1]), Created)]
  const ARTIFACTS: TxDir :=
    map[JournalFile := JournalDoc(JournalFor(1, PLANNED)), Original(0) := Data([0]), Stage(1) := Data([1])]
  const STAGED := CLEAN.(txs := map[1 := ARTIFACTS])

  lemma ExampleIsPlanned(digest: Digest)
    ensures Plans(CLEAN, DELETE_THEN_CREATE, digest, PLANNED) && Fits(CLEAN, PLANNED)
  {
    assert "a" != TRANSACTION_DIR && "b" != TRANSACTION_DIR;
    assert ValidPath(A) && ValidPath(BELOW_A) && A != BELOW_A;
    assert PlanOne(CLEAN, DELETE_THEN_CREATE[0], digest) == Ok(PLANNED[0]);
    assert PlanOne(CLEAN, DELETE_THEN_CREATE[1], digest) == Ok(PLANNED[1]);
    assert FitsOne(CLEAN, PLANNED[0]) && FitsOne(CLEAN, PLANNED[1]);
  }

  lemma ExampleIsStaged(digest: Digest)
    ensures Plans(CLEAN, DELETE_THEN_CREATE, digest, PLANNED)
    ensures Staged(STAGED, 1, PLANNED, CLEAN.files, 2)
  {
    ExampleIsPlanned(digest);
    hide Plans, PlanOne, Fits;
    FitsTheSame(CLEAN, STAGED, PLANNED);
  }

  const MID := Disk(map[], {}, map[1 := ARTIFACTS[Backup(0) := Data([0])]])

  lemma NothingAboveA()
    ensures ParentDirs(A) == {} && ParentDirs(BELOW_A) == {A} && A < BELOW_A
  {
    assert |A| == 1 && |BELOW_A| == 2 && BELOW_A[..1] == A;
    forall q ensures q in ParentDirs(BELOW_A) <==> q == A {
      assert BELOW_A[..1] in ParentDirs(BELOW_A);
    }
  }

  lemma FirstStep()
    ensures ApplyOne(STAGED, 1, PLANNED[0], 0) == Some(MID)
  {
    NothingAboveA();
    hide ParentDirs;
    assert WithParents(STAGED, A) == STAGED;
    var moved := Exec(STAGED, MoveOut(A, 1, Backup(0)));
    assert moved.Some? && moved.value.files == MID.files;
    assert moved.value.txs == MID.txs;
  }

  lemma SecondStep()
    ensures ApplyOne(MID, 1, PLANNED[1], 1).Some?
  {
    NothingAboveA();
    hide ParentDirs;
    var made := WithParents(MID, BELOW_A);
    assert forall k | 0 < k < |BELOW_A| :: BELOW_A[..k] == A;
    assert A != BELOW_A && !Exists(made, BELOW_A);
    assert Stage(1) in made.txs[1] && made.txs[1][Stage(1)] == Data([1]);
  }

  lemma ExampleEndangers(digest: Digest)
    ensures Applied(STAGED, 1, PLANNED, 2).Some? && Endangers(STAGED, 1, PLANNED, 1, A)
  {
    ExampleIsStaged(digest);
    StagedIsProgress(STAGED, 1, PLANNED, CLEAN.files);
    NothingAboveA();
    FirstStep();
    SecondStep();
    hide Progress, Staged, Plans, ApplyOne, Safe, ParentDirs;
    assert Applied(STAGED, 1, PLANNED, 0) == Some(STAGED);
    assert Applied(STAGED, 1, PLANNED, 1) == Some(MID);
    ChangeAdvances(STAGED, 1, PLANNED, CLEAN.files, 0);
    assert PLANNED[0].path == A;
    DirectoriesOnTarget(MID, 1, PLANNED, CLEAN.files, 1, ParentDirs(A) + {A}, A);
  }

  /** Deleting a file and creating one below its path: the loop can run to its end, and a loss of
      power right after the directory is made leaves a disk from which neither the old workspace nor
      the new one, nor any other, can be recovered. */
  lemma DeleteThenCreateBelow(digest: Digest)
    ensures Plans(CLEAN, DELETE_THEN_CREATE, digest, PLANNED) && Clashing(DELETE_THEN_CREATE)
    ensures Staged(STAGED, 1, PLANNED, CLEAN.files, 2)
    ensures Applied(STAGED, 1, PLANNED, 2).Some? && Endangers(STAGED, 1, PLANNED, 1, A)
  {
    ExampleIsStaged(digest);
    ExampleEndangers(digest);
    hide Endangers, Staged, Plans, Applied;
    ClashingIff(CLEAN, STAGED, 1, DELETE_THEN_CREATE, PLANNED, digest);
  }
}
