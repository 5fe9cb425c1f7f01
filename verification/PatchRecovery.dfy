/**
  Recovery before every transaction, and the transaction as a whole: recover, plan, commit.
 */
module PatchRecovery {
  import opened Basics
  import opened WorkspaceDisk
  import opened PatchPlan
  import opened PatchJournal
  import opened PatchProgress
  import opened PatchApply
  import opened PatchTransaction

  /** `validate_journal`. */
  method ValidateJournal(id: TxId, j: Journal) returns (ok: bool)
    ensures ok <==> JournalOk(id, j)
  {
    if !(1 <= j.version <= JOURNAL_VERSION) {
      return false;
    }
    if |j.entries| == 0 || |j.entries| > MAX_OPERATIONS {
      return false;
    }
    if j.id != id {
      return false;
    }
    var paths: set<Path> := {};
    for i := 0 to |j.entries|
      invariant paths == set k | 0 <= k < i :: j.entries[k].path
      invariant forall k | 0 <= k < i :: EntryOk(j.entries[k], k)
      invariant forall k, m | 0 <= k < m < i :: j.entries[k].path != j.entries[m].path
    {
      var e := j.entries[i];
      if !ValidPath(e.path) || e.path in paths || e.backup != Backup(i) || e.staged != Stage(i) {
        assert EntryOk(j.entries[i], i) ==> e.path in paths;
        return false;
      }
      paths := paths + {e.path};
    }
    return true;
  }

  /** What makes recovery refuse a transaction directory instead of guessing. */
  ghost function Corruption(id: TxId, dir: TxDir): Option<RecoveryError> {
    if JournalFile !in dir then
      if HasPayload(dir) then Some(IncompleteTransaction) else None
    else if !dir[JournalFile].JournalDoc? then
      if HasPayload(dir) then Some(InvalidJournal) else None
    else if !JournalOk(id, dir[JournalFile].journal) then Some(UnsafeJournal)
    else None
  }

  /** What recovery acts on: a journal of this very transaction, of version 1 or 2, with 1 to 64 entries
      on distinct paths inside the workspace; or, without a readable journal, a directory with nothing
      in it that the transaction had begun to use. */
  ghost predicate Trusted(id: TxId, dir: TxDir) {
    if JournalFile in dir && dir[JournalFile].JournalDoc? then
      var j := dir[JournalFile].journal;
      && j.id == id && j.version in {1, 2} && 1 <= |j.entries| <= 64
      && (forall i | 0 <= i < |j.entries| :: j.entries[i].backup == Backup(i) && j.entries[i].staged == Stage(i))
      && (forall i | 0 <= i < |j.entries| :: ValidPath(j.entries[i].path))
      && (forall i, k | 0 <= i < k < |j.entries| :: j.entries[i].path != j.entries[k].path)
    else forall name | name in dir :: name in {JournalFile, JournalTemp, MarkerTemp}
  }

  lemma RefusedUnlessTrusted(id: TxId, dir: TxDir)
    ensures Corruption(id, dir) == None <==> Trusted(id, dir)
  {
    hide ValidPath;
    if JournalFile in dir && dir[JournalFile].JournalDoc? {
      var j := dir[JournalFile].journal;
      assert JournalOk(id, j) ==> forall i | 0 <= i < |j.entries| :: EntryOk(j.entries[i], i);
    }
  }

  /** A disk that is safe holds at most one transaction, and none that recovery would refuse. */
  lemma SafeDirectory(d: Disk, id: TxId, g: Files)
    requires Safe(d, g) && id in d.txs
    ensures d.txs.Keys == {id} && Corruption(id, d.txs[id]) == None
    ensures var dir := d.txs[id];
            if JournalFile in dir && dir[JournalFile].JournalDoc? && !Committed(id, dir)
            then Journaled(d, id, dir[JournalFile].journal, g)
            else d.files == g
  {
    assert TxSafe(d, id, g);
  }

  lemma DroppedIsSafe(d: Disk, id: TxId, g: Files)
    requires Safe(d, g) && d.files == g && id in d.txs
    ensures Safe(d.(txs := d.txs - {id}), g)
  {
    assert d.txs.Keys == {id};
    assert d.txs - {id} == map[];
  }

  lemma JournaledUnmarked(d: Disk, id: TxId, j: Journal, g: Files)
    requires Journaled(d, id, j, g)
    ensures id in d.txs
    ensures Held(d, id, MarkerFile) != Some(MarkerDoc(Marker(MARKER_VERSION, id))) ==> Safe(d, g)
  {
    assert id in d.txs.Keys;
    if Held(d, id, MarkerFile) != Some(MarkerDoc(Marker(MARKER_VERSION, id))) {
      JournaledIsSafe(d, id, j, g);
    }
  }

  /** Removes a directory there is nothing to undo for. */
  method Discard(host: Host, id: TxId, ghost g: Files) returns (ok: bool)
    requires host.Valid() && id in host.disk.txs
    modifies host
    ensures host.Valid() && host.Onward() && host.lateMarker == old(host.lateMarker)
    ensures host.disk.dirs == old(host.disk.dirs)
    ensures ok ==> host.disk.txs == old(host.disk.txs) - {id}
    ensures old(Safe(host.disk, g) && host.disk.files == g) ==> Safe(host.disk, g) && (!ok ==> host.Hit())
  {
    hide Safe;
    if Safe(host.disk, g) && host.disk.files == g {
      DroppedIsSafe(host.disk, id, g);
    }
    ok := host.Perform(DropTx(id));
  }

  /** Recovery of one transaction directory. */
  method RecoverOne(host: Host, id: TxId, ghost g: Files) returns (r: Option<RecoveryError>)
    requires host.Valid() && id in host.disk.txs
    modifies host
    ensures host.Valid() && host.Onward() && host.lateMarker == old(host.lateMarker)
    ensures r == None ==> host.disk.txs.Keys == old(host.disk.txs.Keys) - {id}
    ensures var corruption := Corruption(id, old(host.disk.txs[id]));
            if corruption.Some? then r == corruption && host.disk == old(host.disk) else r == None || r == Some(Io)
    ensures !Trusted(id, old(host.disk.txs[id])) ==> r.Some? && r != Some(Io) && host.disk == old(host.disk)
    ensures old(Safe(host.disk, g)) ==>
              && Safe(host.disk, g) && host.disk.dirs == old(host.disk.dirs)
              && (r != None ==> host.Hit())
  {
    hide Safe, Journaled, JournalOk, IsTree, HasPayload, Trusted;
    RefusedUnlessTrusted(id, host.disk.txs[id]);
    ghost var sound := Safe(host.disk, g);
    if sound {
      SafeDirectory(host.disk, id, g);
    }
    var dir := host.disk.txs[id];
    if JournalFile !in dir || !dir[JournalFile].JournalDoc? {
      if HasPayload(dir) {
        return Some(if JournalFile !in dir then IncompleteTransaction else InvalidJournal);
      }
      var ok := Discard(host, id, g);
      return if ok then None else Some(Io);
    }
    var journal := dir[JournalFile].journal;
    var valid := ValidateJournal(id, journal);
    if !valid {
      return Some(UnsafeJournal);
    }
    if Committed(id, dir) {
      var ok := Discard(host, id, g);
      return if ok then None else Some(Io);
    }
    var undone := Rollback(host, id, journal, g);
    if sound {
      JournaledUnmarked(host.disk, id, journal, g);
    }
    if !undone {
      return Some(Io);
    }
    var ok := Discard(host, id, g);
    return if ok then None else Some(Io);
  }

  /** Some directory name comes first. */
  lemma {:induction false} Least(ids: set<TxId>) returns (first: TxId)
    requires ids != {}
    ensures first in ids && forall id | id in ids :: first <= id
  {
    var some :| some in ids;
    var rest := ids - {some};
    if rest == {} {
      first := some;
      assert ids == {some};
    } else {
      var least := Least(rest);
      first := if least < some then least else some;
      assert forall id | id in ids :: id == some || id in rest;
    }
  }

  /** `recover_interrupted_transactions`: every directory in name order. Whatever happens on the
      way, the disk logically holds what it held; on success there is no transaction left, so the
      workspace is exactly that; and only trouble with the machine stops it on a safe disk. */
  method Recover(host: Host, ghost g: Files) returns (r: Result<nat, RecoveryError>)
    requires host.Valid()
    modifies host
    ensures host.Valid() && host.Onward() && host.lateMarker == old(host.lateMarker)
    ensures r.Ok? ==> host.disk.txs == map[] && r.value == old(|host.disk.txs|)
    ensures r.Err? && r.error != Io ==>
                exists id | id in host.disk.txs :: Corruption(id, host.disk.txs[id]) == Some(r.error)
    ensures old(Safe(host.disk, g)) ==>
              && Safe(host.disk, g) && host.disk.dirs == old(host.disk.dirs)
              && (r.Ok? ==> host.disk.files == g)
              && (r.Err? ==> r.error == Io && host.Hit())
  {
    hide Safe, IsTree, Corruption;
    ghost var sound := Safe(host.disk, g);
    var pending := host.disk.txs.Keys;
    var recovered := 0;
    while pending != {}
      invariant host.Valid() && host.Onward() && host.lateMarker == old(host.lateMarker)
      invariant pending == host.disk.txs.Keys
      invariant recovered + |pending| == old(|host.disk.txs|)
      invariant sound ==> Safe(host.disk, g) && host.disk.dirs == old(host.disk.dirs)
      decreases |pending|
    {
      ghost var first := Least(pending);
      var id :| id in pending && forall other | other in pending :: id <= other;
      ghost var before := host.disk;
      if sound {
        SafeDirectory(before, id, g);
      }
      var failed := RecoverOne(host, id, g);
      if failed.Some? {
        return Err(failed.value);
      }
      pending := pending - {id};
      recovered := recovered + 1;
    }
    assert host.disk.txs.Keys == {};
    assert host.disk.txs == map[];
    if sound {
      SafeWithoutTransactions(host.disk, g);
    }
    return Ok(recovered);
  }

  // ---- How the targets of a patch lie ------------------------------------------------------

  /** A file is deleted before something is created below it, or something is created below a path
      before a file is created at that path. */
  ghost predicate Clashing(ops: seq<Operation>) {
    exists i, k | 0 <= i < k < |ops| ::
      || (ops[i].Delete? && ops[i].path < ops[k].path)
      || (ops[i].Create? && ops[k].Create? && ops[k].path < ops[i].path)
  }

  /** The second of the two. */
  ghost predicate Swallowing(ops: seq<Operation>) {
    exists i, k | 0 <= i < k < |ops| :: ops[i].Create? && ops[k].Create? && ops[k].path < ops[i].path
  }

  /** A target lies below a file when its turn comes, the operations before it being carried out. */
  ghost predicate BlockedOps(g: Files, dirs: set<Path>, ops: seq<Operation>, digest: Digest) {
    exists n | 0 <= n < |ops| :: BlockedOp(g, dirs, ops, digest, n)
  }

  ghost predicate BlockedOp(g: Files, dirs: set<Path>, ops: seq<Operation>, digest: Digest, n: nat)
    requires n < |ops|
  {
    var before := StageAll(Disk(g, dirs, map[]), ops[..n], digest);
    before.Ok? && FileAbove(before.value, ops[n].path)
  }

  /** All proper ancestors of the targets. */
  function TargetParents(ops: seq<Operation>): set<Path> {
    set i, k | 0 <= i < |ops| && 0 < k < |ops[i].path| :: ops[i].path[..k]
  }

  /** Files that are no targets are as they were. */
  ghost predicate OnlyTargeted(before: Files, after: Files, ops: seq<Operation>) {
    forall p | !Targeted(ops, p) :: Lookup(after, p) == Lookup(before, p)
  }

  lemma KindOfPlanned(d: Disk, op: Operation, digest: Digest)
    requires PlanOne(d, op, digest).Ok?
    ensures var c := PlanOne(d, op, digest).value;
            c.path == op.path && c.path != [] && (c.kind == Created <==> op.Create?)
                && (c.kind == Deleted <==> op.Delete?)
  {
  }

  /** The plan of a patch lies as the patch does. */
  lemma PlanLiesAlike(d: Disk, ops: seq<Operation>, plan: seq<Change>, digest: Digest)
    requires Plans(d, ops, digest, plan) && |plan| == |ops|
    ensures Clash(plan) <==> Clashing(ops)
    ensures Swallows(plan, |plan|) <==> Swallowing(ops)
    ensures ParentsOf(plan, |plan|) == TargetParents(ops)
    ensures forall before, after :: Confined(before, after, plan) <==> OnlyTargeted(before, after, ops)
  {
    hide PlanOne;
    forall i | 0 <= i < |ops|
      ensures plan[i].path == ops[i].path && plan[i].path != []
      ensures (plan[i].kind == Created <==> ops[i].Create?) && (plan[i].kind == Deleted <==> ops[i].Delete?)
    {
      KindOfPlanned(d, ops[i], digest);
    }
    SameSwallowing(ops, plan);
    SameParents(ops, plan);
    forall p ensures Planned(plan, p) <==> Targeted(ops, p) {
      SameTargets(ops, plan, p);
    }
  }

  lemma SameTargets(ops: seq<Operation>, plan: seq<Change>, p: Path)
    requires |plan| == |ops| && forall i | 0 <= i < |ops| :: plan[i].path == ops[i].path
    ensures Planned(plan, p) <==> Targeted(ops, p)
  {
    if Planned(plan, p) {
      var i :| 0 <= i < |plan| && plan[i].path == p;
      assert ops[i].path == p;
    }
    if Targeted(ops, p) {
      var i :| 0 <= i < |ops| && ops[i].path == p;
      assert plan[i].path == p;
    }
  }

  lemma SameParents(ops: seq<Operation>, plan: seq<Change>)
    requires |plan| == |ops| && forall i | 0 <= i < |ops| :: plan[i].path == ops[i].path
    ensures ParentsOf(plan, |plan|) == TargetParents(ops)
  {
    forall q
      ensures q in ParentsOf(plan, |plan|) <==> q in TargetParents(ops)
    {
      if q in ParentsOf(plan, |plan|) {
        var i, k :| 0 <= i < |plan| && 0 < k < |plan[i].path| && q == plan[i].path[..k];
        assert q == ops[i].path[..k];
      }
      if q in TargetParents(ops) {
        var i, k :| 0 <= i < |ops| && 0 < k < |ops[i].path| && q == ops[i].path[..k];
        assert q == plan[i].path[..k];
      }
    }
  }

  /** And is blocked as the patch is. */
  lemma PlanIsBlockedAlike(d: Disk, ops: seq<Operation>, plan: seq<Change>, digest: Digest)
    requires Plans(d, ops, digest, plan) && |plan| == |ops| && DistinctPaths(plan) && d.txs == map[]
    ensures Blocked(d.files, plan) <==> BlockedOps(d.files, d.dirs, ops, digest)
  {
    hide PlanOne, StageAll, Updated, FileAbove;
    forall n | 0 <= n < |ops|
      ensures BlockedAt(d.files, plan, n) <==> BlockedOp(d.files, d.dirs, ops, digest, n)
    {
      assert forall i | 0 <= i < n :: plan[..n][i] == plan[i] && ops[..n][i] == ops[i];
      SnapshotAgreesWithStaging(d, ops[..n], plan[..n], digest);
      assert plan[n].path == ops[n].path;
    }
    if Blocked(d.files, plan) {
      var n :| 0 <= n < |plan| && BlockedAt(d.files, plan, n);
      assert BlockedOp(d.files, d.dirs, ops, digest, n);
    }
    if BlockedOps(d.files, d.dirs, ops, digest) {
      var n :| 0 <= n < |ops| && BlockedOp(d.files, d.dirs, ops, digest, n);
      assert BlockedAt(d.files, plan, n);
    }
  }

  lemma SameSwallowing(ops: seq<Operation>, plan: seq<Change>)
    requires |plan| == |ops|
    requires forall i | 0 <= i < |ops| :: plan[i].path == ops[i].path && (plan[i].kind == Created <==> ops[i].Create?)
    ensures Swallows(plan, |plan|) <==> Swallowing(ops)
  {
    if Swallowing(ops) {
      var i, k :| 0 <= i < k < |ops| && ops[i].Create? && ops[k].Create? && ops[k].path < ops[i].path;
      assert Swallowed(plan, i, k);
    }
    if Swallows(plan, |plan|) {
      var i, k :| 0 <= i < k < |plan| && Swallowed(plan, i, k);
      assert ops[k].path < ops[i].path;
    }
  }

  // ---- The whole call ---------------------------------------------------------------------

  /** What the operations mean, said of each file for itself. `StagedIsObeyed` says that it is what
      they come to one after the other. */
  ghost predicate Means(g: Files, dirs: set<Path>, ops: seq<Operation>, digest: Digest, after: Files) {
    Obeyed(Disk(g, dirs, map[]), ops, digest, after)
  }

  /** What every operation asks is there. */
  ghost predicate AllGranted(g: Files, dirs: set<Path>, ops: seq<Operation>, digest: Digest) {
    forall i | 0 <= i < |ops| :: Granted(ops[i], dirs, digest, Lookup(g, ops[i].path))
  }

  /** The failure has a cause in the request, on the workspace and the directories that are there. */
  ghost predicate HasCause(g: Files, dirs: set<Path>, ops: seq<Operation>, digest: Digest, failure: Failure) {
    || (failure == NoOperations && ops == [])
    || (failure == TooManyOperations && |ops| > MAX_OPERATIONS)
    || (failure.PreflightFailed? && Inadmissible(Disk(g, dirs, map[]), ops, digest, failure.problem))
    || (failure == RolledBack && !Clashing(ops) && BlockedOps(g, dirs, ops, digest))
    || (failure in {RolledBack, RollbackFailed} && Clashing(ops))
  }

  /** Nothing in the request keeps it from being carried out. */
  ghost predicate Admissible(g: Files, dirs: set<Path>, ops: seq<Operation>, digest: Digest) {
    && 1 <= |ops| <= MAX_OPERATIONS
    && (forall problem :: !Inadmissible(Disk(g, dirs, map[]), ops, digest, problem))
    && (Clashing(ops) || !BlockedOps(g, dirs, ops, digest))
  }

  /** How the directories may change: only by ancestors of the targets, and by all of them on success;
      only a patch that swallows takes some away again. */
  ghost predicate DirsAfter(before: set<Path>, after: set<Path>, ops: seq<Operation>, r: Result<Report, Failure>) {
    && after <= before + TargetParents(ops)
    && (!(r.Ok? && Swallowing(ops)) ==> before <= after)
    && (r.Ok? && !Swallowing(ops) ==> after == before + TargetParents(ops))
    && (r.Err? && r.error !in {RolledBack, RollbackFailed} ==> after == before)
  }

  /** A patch that clashes was begun and not carried through: nothing is promised from here on. */
  predicate BegunInVain(r: Result<Report, Failure>) {
    r in {Err(RolledBack), Err(RollbackFailed)}
  }

  /** Each file is as in `g` or as the operations make it; some may be missing. */
  ghost predicate MixedWith(g: Files, dirs: set<Path>, ops: seq<Operation>, digest: Digest, left: Files) {
    exists meant :: Means(g, dirs, ops, digest, meant) && Between(g, left, meant)
  }

  /** What a success reports: every target in order, and how many operations created, deleted and
      replaced. */
  ghost predicate Reports(r: Report, id: TxId, ops: seq<Operation>, recovered: nat, d: Disk) {
    && r.id == id && r.recovered == recovered
    && r.changed == |ops| == |r.paths| && (forall i | 0 <= i < |ops| :: r.paths[i] == ops[i].path)
    && r.created == |set i | 0 <= i < |ops| && ops[i].Create?|
    && r.deleted == |set i | 0 <= i < |ops| && ops[i].Delete?|
    && r.created + r.replaced + r.deleted == |ops|
    && (!r.cleanupDeferred ==> id !in d.txs)
  }

  lemma ReportIsOfOps(r: Report, id: TxId, before: Disk, ops: seq<Operation>, plan: seq<Change>, digest: Digest,
                      recovered: nat, d: Disk)
    requires Plans(before, ops, digest, plan) && |plan| == |ops|
    requires ReportMatches(r, id, plan, recovered, d)
    ensures Reports(r, id, ops, recovered, d)
  {
    hide PlanOne, CountKind;
    CountKindIs(plan, Created);
    CountKindIs(plan, Deleted);
    forall i | 0 <= i < |ops|
      ensures plan[i].path == ops[i].path
      ensures (plan[i].kind == Created <==> ops[i].Create?) && (plan[i].kind == Deleted <==> ops[i].Delete?)
    {
      KindOfPlanned(before, ops[i], digest);
    }
    assert (set i | 0 <= i < |plan| && plan[i].kind == Created) == (set i | 0 <= i < |ops| && ops[i].Create?);
    assert (set i | 0 <= i < |plan| && plan[i].kind == Deleted) == (set i | 0 <= i < |ops| && ops[i].Delete?);
  }

  /** What a call comes to, where `g` is the workspace the disk held before and `left` the one it holds
      afterwards. */
  ghost predicate Settles(g: Files, dirs: set<Path>, ops: seq<Operation>, digest: Digest,
                          left: Files, r: Result<Report, Failure>) {
    match r
    case Ok(_) =>
      && Admissible(g, dirs, ops, digest) && OnlyTargeted(g, left, ops)
      && AllGranted(g, dirs, ops, digest)
      && (Means(g, dirs, ops, digest, left) <==> !Swallowing(ops))
    case Err(failure) =>
      if failure == RollbackFailed then
        && OnlyTargeted(g, left, ops)
        && (left == g || MixedWith(g, dirs, ops, digest, left))
      else left == g
  }

  /** What `apply_patch_transaction` promises about the workspace the disk holds: all of the patch or
      none of it. The in-process rollback is the one thing that may fail; even then the disk goes on
      holding a workspace, in which each target is as before, as the operations make it, or missing,
      and everything else is as before. It does not differ at all if power was
      lost, unless the marker was late; and to make it differ takes an error of the machine, and two
      faults unless a target is blocked. Without a fault, the patch succeeds exactly if nothing in
      the request is against it. */
  twostate predicate AllOrNothing(host: Host, g: Files, ops: seq<Operation>, digest: Digest,
                                  new left: Files, new r: Result<Report, Failure>)
    reads host
  {
    var dirs := old(host.disk.dirs);
    && Safe(host.disk, left) && Settles(g, dirs, ops, digest, left, r)
    && (r.Ok? ==> host.disk.files == left)
    && (r.Err? && !host.Hit() ==> host.disk.files == g && host.disk.txs == map[])
    && (r.Err? && left != g && !old(host.lateMarker) ==>
          && host.Errors() < old(host.Errors())
          && (host.down ==> host.lateMarker && host.Left(Late) < old(host.Left(Late)))
          && (!BlockedOps(g, dirs, ops, digest) ==> host.Faults() + 2 <= old(host.Faults())))
    && DirsAfter(dirs, host.disk.dirs, ops, r)
  }

  /** `apply_patch_transaction`. A patch that does not clash, or clashes and succeeds or is refused, is
      all or nothing, unless its own rollback fails. It is all or nothing without exception if
      crashes are the only faults, however many, and also if only one fault of any kind is to come
      and no target is blocked. A failure without a fault has a cause in the request, for the files
      and directories that are there. A success leaves what the operations mean exactly if it
      swallows nothing. */
  method ApplyPatch(host: Host, id: TxId, ops: seq<Operation>, digest: Digest, ghost g: Files)
    returns (r: Result<Report, Failure>, ghost plan: seq<Change>, ghost left: Files)
    requires host.Valid()
    modifies host
    ensures host.Valid() && host.Onward()
    ensures old(Safe(host.disk, g)) && !(Clashing(ops) && BegunInVain(r)) ==>
              AllOrNothing(host, g, ops, digest, left, r)
    ensures old(Safe(host.disk, g) && OnlyCrashes(host.script) && !host.lateMarker) && !Clashing(ops) && r.Err? ==>
              left == g
    ensures old(Safe(host.disk, g) && host.Faults() <= 1 && !host.lateMarker) && !Clashing(ops) && r.Err?
            && !BlockedOps(g, old(host.disk.dirs), ops, digest) ==>
              left == g
    ensures old(Safe(host.disk, g)) && r.Err? && !host.Hit() ==>
              HasCause(g, old(host.disk.dirs), ops, digest, r.error)
    ensures old(Safe(host.disk, g)) && r.Err? && r.error.PreflightFailed? ==>
              Inadmissible(Disk(g, old(host.disk.dirs), map[]), ops, digest, r.error.problem)
    ensures old(Safe(host.disk, g)) && r.Ok? ==>
              && Means(g, old(host.disk.dirs), ops, digest, Updated(g, plan))
              && Reports(r.value, id, ops, old(|host.disk.txs|), host.disk)
              && (r.value.cleanupDeferred ==> host.Hit())
  {
    hide Safe, IsTree, Clash, Fits, Updated, Inadmissible, Reports, Plans, HasCause, StageAll, Means, AllGranted;
    hide Clashing, Swallowing, BlockedOps, Count, OnlyCrashes, TargetParents, Admissible, OnlyTargeted;
    plan, left := [], g;
    NotTouched(g, ops);
    CrashesOnly(host.script);
    var recovered := Recover(host, g);
    if recovered.Err? {
      return Err(RecoveryFailed(recovered.error)), plan, left;
    }
    Causes(host.disk.files, host.disk.dirs, ops, digest);
    if |ops| == 0 {
      return Err(NoOperations), plan, left;
    }
    if |ops| > MAX_OPERATIONS {
      return Err(TooManyOperations), plan, left;
    }
    assert host.disk == Disk(host.disk.files, host.disk.dirs, map[]);
    var planned := Preflight(host.disk, ops, digest);
    if planned.Err? {
      return Err(PreflightFailed(planned.error)), plan, left;
    }
    plan := planned.value;
    r, left := CommitPlanned(host, id, ops, planned.value, recovered.value, digest);
  }

  /** The commit of what was planned for the operations. */
  method CommitPlanned(host: Host, id: TxId, ops: seq<Operation>, plan: seq<Change>, recovered: nat,
                       ghost digest: Digest)
    returns (r: Result<Report, Failure>, ghost left: Files)
    requires host.Valid() && host.disk.txs == map[] && 1 <= |ops| <= MAX_OPERATIONS
    requires Plans(host.disk, ops, digest, plan) && |plan| == |ops|
    requires Fits(host.disk, plan) && TotalBytes(plan) <= MAX_BYTES
    modifies host
    ensures host.Valid() && host.Onward()
    ensures !(Clashing(ops) && BegunInVain(r)) ==> AllOrNothing(host, old(host.disk.files), ops, digest, left, r)
    ensures r.Err? && !host.Hit() ==> HasCause(old(host.disk.files), old(host.disk.dirs), ops, digest, r.error)
    ensures r.Err? ==> r.error in {Interrupted, RolledBack, RollbackFailed}
    ensures r.Ok? ==>
              && Means(old(host.disk.files), old(host.disk.dirs), ops, digest, Updated(old(host.disk.files), plan))
              && Reports(r.value, id, ops, recovered, host.disk)
              && (r.value.cleanupDeferred ==> host.Hit())
  {
    hide Safe, IsTree, Clash, Fits, Updated, Blocked, Reports, ReportMatches, Plans, HasCause, Means;
    hide AllGranted, Confined, OnlyTargeted;
    hide Clashing, Swallowing, BlockedOps, Swallows, Count, OnlyCrashes, ParentsOf, TargetParents, Admissible;
    hide Inadmissible;
    ghost var clean := host.disk;
    left := clean.files;
    NotTouched(left, ops);
    Causes(clean.files, clean.dirs, ops, digest);
    PlanIsSound(clean, ops, plan, digest);
    SafeWithoutTransactions(clean, clean.files);
    r := Commit(host, id, plan, recovered);
    if r.Ok? {
      ReportIsOfOps(r.value, id, clean, ops, plan, digest, recovered, host.disk);
    }
    if r.Ok? || (r == Err(RollbackFailed) && !Safe(host.disk, clean.files)) {
      left := host.disk.files;
    }
  }

  lemma NotTouched(g: Files, ops: seq<Operation>)
    ensures OnlyTargeted(g, g, ops)
  {
  }

  lemma CrashesOnly(script: seq<Outcome>)
    ensures OnlyCrashes(script) <==> Count(script, Refused) + Count(script, Late) == 0
  {
  }

  /** The failures a request can cause. */
  lemma Causes(g: Files, dirs: set<Path>, ops: seq<Operation>, digest: Digest)
    ensures ops == [] ==> HasCause(g, dirs, ops, digest, NoOperations)
    ensures |ops| > MAX_OPERATIONS ==> HasCause(g, dirs, ops, digest, TooManyOperations)
    ensures forall problem | Inadmissible(Disk(g, dirs, map[]), ops, digest, problem) ::
              HasCause(g, dirs, ops, digest, PreflightFailed(problem))
    ensures BlockedOps(g, dirs, ops, digest) || Clashing(ops) ==> HasCause(g, dirs, ops, digest, RolledBack)
    ensures Clashing(ops) ==> HasCause(g, dirs, ops, digest, RollbackFailed)
  {
  }

  /** What an admitted plan says about the patch. */
  lemma PlanIsSound(d: Disk, ops: seq<Operation>, plan: seq<Change>, digest: Digest)
    requires Plans(d, ops, digest, plan) && |plan| == |ops| && Fits(d, plan) && TotalBytes(plan) <= MAX_BYTES
    requires d.txs == map[] && 1 <= |ops| <= MAX_OPERATIONS
    ensures Clash(plan) <==> Clashing(ops)
    ensures Swallows(plan, |plan|) <==> Swallowing(ops)
    ensures ParentsOf(plan, |plan|) == TargetParents(ops)
    ensures Blocked(d.files, plan) <==> BlockedOps(d.files, d.dirs, ops, digest)
    ensures forall after :: Means(d.files, d.dirs, ops, digest, after) <==> after == Updated(d.files, plan)
    ensures AllGranted(d.files, d.dirs, ops, digest)
    ensures !Blocked(d.files, plan) || Clash(plan) ==> Admissible(d.files, d.dirs, ops, digest)
    ensures forall before, after :: Confined(before, after, plan) <==> OnlyTargeted(before, after, ops)
  {
    hide Clash, Clashing, Swallows, Swallowing, ParentsOf, TargetParents, Blocked, BlockedOps, StageAll, Updated;
    hide Inadmissible, Plans, Confined, OnlyTargeted, Means, AllGranted;
    PlanLiesAlike(d, ops, plan, digest);
    PlanIsBlockedAlike(d, ops, plan, digest);
    SnapshotMeansStaging(d, ops, plan, digest);
    PlannedIsGranted(d, ops, plan, digest);
    forall problem ensures !Inadmissible(d, ops, digest, problem) {
      PlannedIsAdmissible(d, ops, plan, digest, problem);
    }
    assert d == Disk(d.files, d.dirs, map[]);
  }

  lemma PlannedIsAdmissible(d: Disk, ops: seq<Operation>, plan: seq<Change>, digest: Digest, problem: Problem)
    requires Plans(d, ops, digest, plan) && |plan| == |ops| && DistinctPaths(plan) && TotalBytes(plan) <= MAX_BYTES
    ensures !Inadmissible(d, ops, digest, problem)
  {
    hide PlanOne, TotalBytes;
    forall planned | Plans(d, ops, digest, planned)
      ensures TotalBytes(planned) <= MAX_BYTES
    {
      forall i | 0 <= i < |planned|
        ensures planned[i] == plan[i]
      {
        assert PlanOne(d, ops[i], digest) == Ok(planned[i]) && PlanOne(d, ops[i], digest) == Ok(plan[i]);
      }
      assert planned == plan[..|planned|];
      BytesOfFirst(plan, |planned|);
    }
    NoDuplicates(d, ops, plan, digest);
    assert forall i | 0 <= i < |ops| :: PlanOne(d, ops[i], digest) == Ok(plan[i]);
  }

  lemma NoDuplicates(d: Disk, ops: seq<Operation>, plan: seq<Change>, digest: Digest)
    requires Plans(d, ops, digest, plan) && |plan| == |ops| && DistinctPaths(plan)
    ensures !exists i, j | 0 <= i < j < |ops| :: ops[i].path == ops[j].path
  {
    hide PlanOne;
    assert forall i | 0 <= i < |ops| :: ops[i].path == plan[i].path;
  }

  lemma {:induction false} BytesOfFirst(plan: seq<Change>, n: nat)
    requires n <= |plan|
    ensures TotalBytes(plan[..n]) <= TotalBytes(plan)
    decreases |plan|
  {
    if n == |plan| {
      assert plan[..n] == plan;
    } else {
      var front := plan[..|plan| - 1];
      BytesOfFirst(front, n);
      assert front[..n] == plan[..n];
    }
  }

  lemma SnapshotMeansStaging(d: Disk, ops: seq<Operation>, plan: seq<Change>, digest: Digest)
    requires Plans(d, ops, digest, plan) && |plan| == |ops| && DistinctPaths(plan) && d.txs == map[]
    ensures forall after :: Means(d.files, d.dirs, ops, digest, after) <==> after == Updated(d.files, plan)
  {
    hide PlanOne, StageAll, Obeyed, Updated;
    SnapshotAgreesWithStaging(d, ops, plan, digest);
    assert d == Disk(d.files, d.dirs, map[]);
    assert forall i | 0 <= i < |ops| :: plan[i].path == ops[i].path;
    forall after ensures Means(d.files, d.dirs, ops, digest, after) <==> after == Updated(d.files, plan) {
      StagedIsObeyed(d, ops, digest, after);
    }
  }

  lemma PlannedIsGranted(d: Disk, ops: seq<Operation>, plan: seq<Change>, digest: Digest)
    requires Plans(d, ops, digest, plan) && |plan| == |ops|
    ensures AllGranted(d.files, d.dirs, ops, digest)
  {
    hide PlanOne, Granted, Made;
    PlansAnswer(d, ops, digest, plan);
    assert forall i | 0 <= i < |ops| :: Answers(d, ops[i], digest, plan[i]);
  }
}
