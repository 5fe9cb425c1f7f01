/**
  Two refused steps are enough to lose both workspaces: the bound in `CommitOutcome` is tight.
 */
module PatchFaults {
  import opened Basics
  import opened WorkspaceDisk
  import opened PatchPlan
  import opened PatchJournal
  import opened PatchProgress
  import opened PatchTransaction

  const A: Path := ["a"]
  const B: Path := ["b"]
  const BEFORE: Files := map[A := [0], B := [1]]
  const PLANNED: seq<Change> := [Change(A, Some([0]), None, Deleted), Change(B, Some([1]), None, Deleted)]
  const ARTIFACTS: TxDir :=
    map[JournalFile := JournalDoc(JournalFor(1, PLANNED)), Original(0) := Data([0]), Original(1) := Data([1])]
  const STAGED := Disk(BEFORE, {}, map[1 := ARTIFACTS])

  lemma ExampleIsStaged()
    ensures Staged(STAGED, 1, PLANNED, BEFORE, 2) && IsTree(STAGED) && !Clash(PLANNED)
    ensures PLANNED[0].path == A && PLANNED[1].path == B && HasParents(STAGED, A) && A != B
  {
    assert "a" != "b";
    assert |A| == 1 && |B| == 1 && A[0] != B[0];
    assert ValidPath(A) && ValidPath(B);
    assert FitsOne(STAGED, PLANNED[0]) && FitsOne(STAGED, PLANNED[1]);
    assert Fits(STAGED, PLANNED);
  }

  lemma TopLevel(d: Disk)
    ensures HasParents(d, A) && HasParents(d, B)
  {
  }

  /** With one of the two deletions done, the files are neither the old nor the new workspace. */
  lemma HalfwayIsNeither()
    ensures Updated(BEFORE, PLANNED[..1]) != BEFORE
    ensures Updated(BEFORE, PLANNED[..1]) != Updated(BEFORE, PLANNED)
  {
    ExampleIsStaged();
    var one := PLANNED[..1];
    assert one == [PLANNED[0]];
    assert DistinctPaths(one) && DistinctPaths(PLANNED);
    UpdatedAt(BEFORE, one);
    UpdatedAt(BEFORE, PLANNED);
    assert Lookup(Updated(BEFORE, one), one[0].path) == None;
    assert Lookup(Updated(BEFORE, one), B) == Some([1]);
    assert Lookup(Updated(BEFORE, PLANNED), PLANNED[1].path) == None;
  }

  /** Deleting two files: the second deletion is refused, and so is the first step of the rollback.
      The commit then deletes its backups, and neither workspace can be recovered. */
  method TwoFaultsLoseBoth() returns (host: Host)
    ensures fresh(host) && host.Valid() && host.disk.txs == map[]
    ensures !Safe(host.disk, BEFORE) && !Safe(host.disk, Updated(BEFORE, PLANNED))
  {
    hide Safe, Progress, Staged, IsTree, Clash, Journaled, Undoable, Updated, BEFORE, PLANNED, STAGED;
    Deletions();
    ExampleIsStaged();
    HalfwayIsNeither();
    StagedIsProgress(STAGED, 1, PLANNED, BEFORE);
    host := new Host(STAGED, [Done, Refused, Refused]);
    var done := ApplyChange(host, 1, PLANNED, 0, BEFORE);
    ghost var half := host.disk;
    ProgressFiles(half, 1, PLANNED, BEFORE, 1);
    ProgressIsJournaled(half, 1, PLANNED, BEFORE, 1, false);
    TopLevel(half);
    done := ApplyChange(host, 1, PLANNED, 1, BEFORE);
    assert host.disk == half;
    var rolledBack := Abandon(host, 1, JournalFor(1, PLANNED), BEFORE);
    NothingElse(host.disk, BEFORE);
    NothingElse(host.disk, Updated(BEFORE, PLANNED));
  }

  lemma Deletions()
    ensures |PLANNED| == 2 && PLANNED[0].kind == Deleted && PLANNED[1].kind == Deleted
  {
  }

  lemma NothingElse(d: Disk, h: Files)
    ensures d.txs == map[] && d.files != h ==> !Safe(d, h)
  {
  }
}
