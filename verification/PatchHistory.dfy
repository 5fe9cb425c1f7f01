/**
  Runs of many transactions with crashes and restarts between and inside them, and the exact
  places where the protocol's promise ends.
 */
module PatchHistory {
  import opened Basics
  import opened WorkspaceDisk
  import opened PatchPlan
  import opened PatchJournal
  import opened PatchProgress
  import opened PatchApply
  import opened PatchTransaction
  import opened PatchRecovery

  /** A disk logically holds one workspace only: recovery has no choice of outcome. */
  lemma SafeIsUnique(d: Disk, g: Files, h: Files)
    requires Safe(d, g) && Safe(d, h)
    ensures g == h
  {
    if id :| id in d.txs {
      SafeDirectory(d, id, g);
      SafeDirectory(d, id, h);
      var dir := d.txs[id];
      if JournalFile in dir && dir[JournalFile].JournalDoc? && !Committed(id, dir) {
        JournaledIsUnique(d, id, dir[JournalFile].journal, g, h);
      }
    }
  }

  lemma JournaledIsUnique(d: Disk, id: TxId, j: Journal, g: Files, h: Files)
    requires Journaled(d, id, j, g) && Journaled(d, id, j, h)
    ensures g == h
  {
    forall p
      ensures Lookup(g, p) == Lookup(h, p)
    {
      if Targets(j, p) {
        var i :| 0 <= i < |j.entries| && j.entries[i].path == p;
        assert EntrySafe(d, d.txs[id], j.entries[i], g) && EntrySafe(d, d.txs[id], j.entries[i], h);
      } else {
        assert Lookup(d.files, p) == Lookup(g, p) == Lookup(h, p);
      }
    }
    SameLookups(g, h);
  }

  // ---- Whole runs -------------------------------------------------------------------------

  datatype Request = Request(id: TxId, ops: seq<Operation>)

  /** What becomes of a call. `CutOff` is a call whose rollback a loss of power prevented. */
  datatype Reply = Succeeded(report: Report) | Failed(why: Failure) | CutOff

  function AsResult(reply: Reply): Result<Report, Failure> {
    match reply
    case Succeeded(report) => Ok(report)
    case Failed(why) => Err(why)
    case CutOff => Err(RollbackFailed)
  }

  /** The workspace a disk holds, and the directories that are there. */
  datatype World = World(files: Files, dirs: set<Path>)

  /** A call that succeeded had the whole effect of its operations - or swallowed some of it - and
      nothing was against it. Any other had none, but for a failed rollback, which may have changed
      targets. Directories only appeared above targets. */
  ghost predicate Told(before: World, request: Request, reply: Reply, digest: Digest, after: World) {
    && Settles(before.files, before.dirs, request.ops, digest, after.files, AsResult(reply))
    && DirsAfter(before.dirs, after.dirs, request.ops, AsResult(reply))
  }

  /** None of the first `n` calls began a patch that clashes in vain. */
  ghost predicate Settled(requests: seq<Request>, replies: seq<Reply>, n: nat) {
    && n <= |requests| && n <= |replies|
    && forall k | 0 <= k < n :: !(Clashing(requests[k].ops) && BegunInVain(AsResult(replies[k])))
  }

  predicate Aligned(worlds: seq<World>, requests: seq<Request>, replies: seq<Reply>) {
    |replies| <= |requests| && |worlds| == |replies| + 1
  }

  /** What is counted over a run: failures without a cause in the request, failures that changed the
      workspace, and those of them that were cut off by a loss of power. */
  datatype Tally = Unexplained | Damaged | DamagedByCut

  ghost function Cost(t: Tally, w: World, request: Request, reply: Reply, digest: Digest, next: World): nat {
    var damaged := !reply.Succeeded? && !Clashing(request.ops) && next.files != w.files;
    match t
    case Unexplained =>
      if reply.Succeeded? || HasCause(w.files, w.dirs, request.ops, digest, AsResult(reply).error) then 0
      else if damaged && !BlockedOps(w.files, w.dirs, request.ops, digest) then 2
      else 1
    case Damaged => if damaged then 1 else 0
    case DamagedByCut => if damaged && reply.CutOff? then 1 else 0
  }

  /** What pays for it: faults, errors and late reports of the machine. */
  function Budget(script: seq<Outcome>, t: Tally): nat {
    match t
    case Unexplained => Count(script, Refused) + Count(script, Late) + Count(script, PowerLoss)
    case Damaged => Count(script, Refused) + Count(script, Late)
    case DamagedByCut => Count(script, Late)
  }

  ghost function Total(t: Tally, worlds: seq<World>, requests: seq<Request>, replies: seq<Reply>, digest: Digest,
                       n: nat): nat
    requires Aligned(worlds, requests, replies) && n <= |replies|
  {
    if n == 0 then 0
    else
      Total(t, worlds, requests, replies, digest, n - 1)
      + Cost(t, worlds[n - 1], requests[n - 1], replies[n - 1], digest, worlds[n])
  }

  lemma {:induction false} TotalSoFar(t: Tally, worlds: seq<World>, requests: seq<Request>, replies: seq<Reply>,
                                      digest: Digest, next: World, reply: Reply, n: nat)
    requires Aligned(worlds, requests, replies) && n <= |replies| < |requests|
    ensures Total(t, worlds + [next], requests, replies + [reply], digest, n)
            == Total(t, worlds, requests, replies, digest, n)
  {
    hide Cost;
    if n > 0 {
      TotalSoFar(t, worlds, requests, replies, digest, next, reply, n - 1);
    }
  }

  lemma TotalOneMore(t: Tally, worlds: seq<World>, requests: seq<Request>, replies: seq<Reply>, digest: Digest,
                     next: World, reply: Reply)
    requires Aligned(worlds, requests, replies) && |replies| < |requests|
    ensures Total(t, worlds + [next], requests, replies + [reply], digest, |replies| + 1)
            == Total(t, worlds, requests, replies, digest, |replies|)
               + Cost(t, worlds[|replies|], requests[|replies|], reply, digest, next)
  {
    hide Cost;
    TotalSoFar(t, worlds, requests, replies, digest, next, reply, |replies|);
  }

  ghost predicate Paid(t: Tally, worlds: seq<World>, requests: seq<Request>, replies: seq<Reply>, digest: Digest,
                       n: nat, script: seq<Outcome>)
    requires Aligned(worlds, requests, replies) && n <= |replies|
  {
    Total(t, worlds, requests, replies, digest, n) <= Budget(script, t)
  }

  ghost predicate AllPaid(worlds: seq<World>, requests: seq<Request>, replies: seq<Reply>, digest: Digest,
                          n: nat, script: seq<Outcome>)
    requires Aligned(worlds, requests, replies) && n <= |replies|
  {
    forall t :: Paid(t, worlds, requests, replies, digest, n, script)
  }

  /** What a run that began with `script` has come to after some of its calls. */
  ghost predicate Story(worlds: seq<World>, requests: seq<Request>, replies: seq<Reply>, digest: Digest,
                        script: seq<Outcome>) {
    && Aligned(worlds, requests, replies)
    && (forall k | 0 <= k < |replies| && Settled(requests, replies, k + 1) ::
          Told(worlds[k], requests[k], replies[k], digest, worlds[k + 1]))
    && (forall k | 0 <= k < |replies| && Settled(requests, replies, k) ::
          AllPaid(worlds, requests, replies, digest, k + 1, script))
  }

  lemma SettledSoFar(requests: seq<Request>, replies: seq<Reply>, reply: Reply, n: nat)
    requires n <= |replies|
    ensures Settled(requests, replies + [reply], n) <==> Settled(requests, replies, n)
  {
    forall k | 0 <= k < n
      ensures (replies + [reply])[k] == replies[k]
    {
    }
  }

  lemma SettledOneMore(requests: seq<Request>, replies: seq<Reply>, reply: Reply)
    requires |replies| < |requests|
    ensures Settled(requests, replies + [reply], |replies| + 1) <==>
            && Settled(requests, replies, |replies|)
            && !(Clashing(requests[|replies|].ops) && BegunInVain(AsResult(reply)))
  {
    SettledSoFar(requests, replies, reply, |replies|);
  }

  lemma StoryOneMore(worlds: seq<World>, requests: seq<Request>, replies: seq<Reply>, digest: Digest,
                     script: seq<Outcome>, next: World, reply: Reply)
    requires Story(worlds, requests, replies, digest, script) && |replies| < |requests|
    requires var n := |replies|;
             && (Settled(requests, replies + [reply], n + 1) ==> Told(worlds[n], requests[n], reply, digest, next))
             && (Settled(requests, replies, n) ==> forall t ::
                   Total(t, worlds, requests, replies, digest, n)
                   + Cost(t, worlds[n], requests[n], reply, digest, next) <= Budget(script, t))
    ensures Story(worlds + [next], requests, replies + [reply], digest, script)
  {
    hide Settled, Told, Cost, Total, Budget;
    var worlds', replies' := worlds + [next], replies + [reply];
    forall k | 0 <= k < |replies'|
      ensures Settled(requests, replies', k + 1) ==> Told(worlds'[k], requests[k], replies'[k], digest, worlds'[k + 1])
    {
      if k < |replies| {
        SettledSoFar(requests, replies, reply, k + 1);
      }
    }
    hide AllPaid;
    forall k | 0 <= k < |replies'| && Settled(requests, replies', k)
      ensures AllPaid(worlds', requests, replies', digest, k + 1, script)
    {
      SettledSoFar(requests, replies, reply, k);
      if k < |replies| {
        PaidSoFar(worlds, requests, replies, digest, k + 1, script, next, reply);
      } else {
        PaidOneMore(worlds, requests, replies, digest, script, next, reply);
      }
    }
  }

  lemma PaidSoFar(worlds: seq<World>, requests: seq<Request>, replies: seq<Reply>, digest: Digest, n: nat,
                  script: seq<Outcome>, next: World, reply: Reply)
    requires Aligned(worlds, requests, replies) && n <= |replies| < |requests|
    requires AllPaid(worlds, requests, replies, digest, n, script)
    ensures AllPaid(worlds + [next], requests, replies + [reply], digest, n, script)
  {
    hide Total, Budget;
    forall t ensures Paid(t, worlds + [next], requests, replies + [reply], digest, n, script) {
      assert Paid(t, worlds, requests, replies, digest, n, script);
      TotalSoFar(t, worlds, requests, replies, digest, next, reply, n);
    }
  }

  lemma PaidOneMore(worlds: seq<World>, requests: seq<Request>, replies: seq<Reply>, digest: Digest,
                    script: seq<Outcome>, next: World, reply: Reply)
    requires Aligned(worlds, requests, replies) && |replies| < |requests|
    requires forall t ::
               Total(t, worlds, requests, replies, digest, |replies|)
               + Cost(t, worlds[|replies|], requests[|replies|], reply, digest, next) <= Budget(script, t)
    ensures AllPaid(worlds + [next], requests, replies + [reply], digest, |replies| + 1, script)
  {
    hide Total, Budget, Cost;
    var worlds', replies', n := worlds + [next], replies + [reply], |replies| + 1;
    forall t ensures Paid(t, worlds', requests, replies', digest, n, script) {
      TotalOneMore(t, worlds, requests, replies, digest, next, reply);
    }
  }

  /** Any number of patch calls under any script of outcomes, with a restart before each. The disk
      always holds the workspace that the calls make, and once a last recovery completes, so do the
      files. Errors, crashes, deferred cleanups and failed rollbacks may all occur in one run; only
      after a patch that clashes was begun in vain is nothing promised. */
  method Session(host: Host, requests: seq<Request>, digest: Digest, ghost g: Files)
    returns (replies: seq<Reply>, clean: bool, ghost worlds: seq<World>)
    requires host.Valid() && Safe(host.disk, g)
    modifies host
    ensures host.Valid() && |replies| == |requests|
    ensures Story(worlds, requests, replies, digest, old(host.script)) && worlds[0] == World(g, old(host.disk.dirs))
    ensures Settled(requests, replies, |requests|) ==>
              && Safe(host.disk, worlds[|requests|].files) && host.disk.dirs == worlds[|requests|].dirs
              && (clean ==> host.disk.files == worlds[|requests|].files && host.disk.txs == map[])
              && Total(Unexplained, worlds, requests, replies, digest, |requests|) + (if clean then 0 else 1)
                 <= Budget(old(host.script), Unexplained)
  {
    hide Safe, Settled, Told, HasCause, Total, Story, Count, OnlyCrashes, Clashing, BlockedOps, Cost, Settles;
    hide DirsAfter;
    replies, worlds := [], [World(g, host.disk.dirs)];
    ghost var script := host.script;
    StoryBegins(requests, digest, script, worlds[0]);
    for i := 0 to |requests|
      invariant host.Valid() && |replies| == i && |worlds| == i + 1
      invariant worlds[0] == World(g, old(host.disk.dirs))
      invariant Story(worlds, requests, replies, digest, script)
      invariant Settled(requests, replies, i) ==>
                  && Safe(host.disk, worlds[i].files) && host.disk.dirs == worlds[i].dirs
                  && forall t :: Total(t, worlds, requests, replies, digest, i) + Budget(host.script, t)
                                 <= Budget(script, t)
    {
      host.Restart();
      var reply;
      ghost var next;
      reply, next := Call(host, requests[i], digest, worlds[i]);
      SettledOneMore(requests, replies, reply);
      StoryOneMore(worlds, requests, replies, digest, script, next, reply);
      forall t
        ensures Total(t, worlds + [next], requests, replies + [reply], digest, i + 1)
                == Total(t, worlds, requests, replies, digest, i) + Cost(t, worlds[i], requests[i], reply, digest, next)
      {
        TotalOneMore(t, worlds, requests, replies, digest, next, reply);
      }
      replies, worlds := replies + [reply], worlds + [next];
    }
    host.Restart();
    var last := Recover(host, worlds[|requests|].files);
    clean := last.Ok?;
  }

  /** One call of a run, on a machine just restarted. */
  method Call(host: Host, request: Request, digest: Digest, ghost w: World) returns (reply: Reply, ghost next: World)
    requires host.Valid() && !host.down && !host.lateMarker
    modifies host
    ensures host.Valid() && next.dirs == host.disk.dirs
    ensures old(Safe(host.disk, w.files) && host.disk.dirs == w.dirs) ==>
              && (!(Clashing(request.ops) && BegunInVain(AsResult(reply))) ==>
                    Safe(host.disk, next.files) && Told(w, request, reply, digest, next))
              && forall t :: Cost(t, w, request, reply, digest, next) + Budget(host.script, t)
                             <= Budget(old(host.script), t)
  {
    hide Safe, HasCause, Count, OnlyCrashes, Clashing, BlockedOps, Settles, DirsAfter;
    var r;
    ghost var plan, left;
    r, plan, left := ApplyPatch(host, request.id, request.ops, digest, w.files);
    next := World(left, host.disk.dirs);
    reply := match r
             case Ok(report) => Succeeded(report)
             case Err(why) => if why == RollbackFailed && host.down then CutOff else Failed(why);
    assert AsResult(reply) == r;
    forall t | old(Safe(host.disk, w.files) && host.disk.dirs == w.dirs)
      ensures Cost(t, w, request, reply, digest, next) + Budget(host.script, t) <= Budget(old(host.script), t)
    {
      match t
      case Unexplained =>
      case Damaged =>
      case DamagedByCut =>
    }
  }

  lemma StoryBegins(requests: seq<Request>, digest: Digest, script: seq<Outcome>, w: World)
    ensures Story([w], requests, [], digest, script)
    ensures forall t :: Total(t, [w], requests, [], digest, 0) == 0
  {
  }

  lemma {:induction false} TotalCountsEach(t: Tally, worlds: seq<World>, requests: seq<Request>, replies: seq<Reply>,
                                           digest: Digest, n: nat, k: nat)
    requires Aligned(worlds, requests, replies) && k < n <= |replies|
    ensures Cost(t, worlds[k], requests[k], replies[k], digest, worlds[k + 1])
            <= Total(t, worlds, requests, replies, digest, n)
  {
    hide Cost;
    if k < n - 1 {
      TotalCountsEach(t, worlds, requests, replies, digest, n - 1, k);
    }
  }

  /** Call `k` failed without a cause in its request, or changed the workspace without success, or did
      so while a loss of power cut it off. */
  ghost predicate Charged(t: Tally, worlds: seq<World>, requests: seq<Request>, replies: seq<Reply>, digest: Digest,
                          k: nat)
    requires Aligned(worlds, requests, replies) && k < |replies|
  {
    && !replies[k].Succeeded?
    && match t
       case Unexplained =>
         !HasCause(worlds[k].files, worlds[k].dirs, requests[k].ops, digest, AsResult(replies[k]).error)
       case Damaged => worlds[k + 1].files != worlds[k].files
       case DamagedByCut => replies[k].CutOff? && worlds[k + 1].files != worlds[k].files
  }

  ghost function ChargedCalls(t: Tally, worlds: seq<World>, requests: seq<Request>, replies: seq<Reply>,
                              digest: Digest, n: nat): set<nat>
    requires Aligned(worlds, requests, replies) && n <= |replies|
  {
    set k: nat | k < n && Charged(t, worlds, requests, replies, digest, k)
  }

  lemma ChargedIsCost(t: Tally, worlds: seq<World>, requests: seq<Request>, replies: seq<Reply>, digest: Digest,
                      k: nat)
    requires Aligned(worlds, requests, replies) && k < |replies| && !Clashing(requests[k].ops)
    requires Charged(t, worlds, requests, replies, digest, k)
    ensures Cost(t, worlds[k], requests[k], replies[k], digest, worlds[k + 1]) >= 1
  {
    hide Clashing, HasCause, BlockedOps;
  }

  lemma {:induction false} ChargedCosts(t: Tally, worlds: seq<World>, requests: seq<Request>, replies: seq<Reply>,
                                        digest: Digest, n: nat)
    requires Aligned(worlds, requests, replies) && n <= |replies|
    requires forall i | 0 <= i < |requests| :: !Clashing(requests[i].ops)
    ensures |ChargedCalls(t, worlds, requests, replies, digest, n)| <= Total(t, worlds, requests, replies, digest, n)
  {
    hide Clashing, Charged, Cost;
    if n > 0 {
      ChargedCosts(t, worlds, requests, replies, digest, n - 1);
      var before := ChargedCalls(t, worlds, requests, replies, digest, n - 1);
      var now := ChargedCalls(t, worlds, requests, replies, digest, n);
      if Charged(t, worlds, requests, replies, digest, n - 1) {
        ChargedIsCost(t, worlds, requests, replies, digest, n - 1);
        assert now == before + {n - 1};
      } else {
        assert now == before;
      }
    }
  }

  /** Over a whole run: no more calls fail without a cause than there are faults, no more failures
      change the workspace than there are errors, and no more of those that are cut off do than there
      are late reports. */
  lemma FaultsPayForFailures(worlds: seq<World>, requests: seq<Request>, replies: seq<Reply>, digest: Digest,
                             script: seq<Outcome>)
    requires Story(worlds, requests, replies, digest, script)
    requires forall i | 0 <= i < |requests| :: !Clashing(requests[i].ops)
    ensures |ChargedCalls(Unexplained, worlds, requests, replies, digest, |replies|)|
            <= Count(script, Refused) + Count(script, Late) + Count(script, PowerLoss)
    ensures |ChargedCalls(Damaged, worlds, requests, replies, digest, |replies|)|
            <= Count(script, Refused) + Count(script, Late)
    ensures |ChargedCalls(DamagedByCut, worlds, requests, replies, digest, |replies|)|
            <= Count(script, Late)
  {
    hide Clashing, HasCause, BlockedOps, Told, ChargedCalls, Cost, Total;
    var n := |replies|;
    ChargedCosts(Unexplained, worlds, requests, replies, digest, n);
    ChargedCosts(Damaged, worlds, requests, replies, digest, n);
    ChargedCosts(DamagedByCut, worlds, requests, replies, digest, n);
    if n > 0 {
      assert Settled(requests, replies, n - 1);
      assert AllPaid(worlds, requests, replies, digest, n, script);
      assert Paid(Unexplained, worlds, requests, replies, digest, n, script);
      assert Paid(Damaged, worlds, requests, replies, digest, n, script);
      assert Paid(DamagedByCut, worlds, requests, replies, digest, n, script);
    } else {
      NothingPaid(worlds, requests, replies, digest);
    }
  }

  lemma NothingPaid(worlds: seq<World>, requests: seq<Request>, replies: seq<Reply>, digest: Digest)
    requires Aligned(worlds, requests, replies)
    ensures forall t :: Total(t, worlds, requests, replies, digest, 0) == 0
  {
  }

  /** With crashes as the only faults, as many as there may be, no failed call changes anything. */
  lemma CrashesDoNoDamage(worlds: seq<World>, requests: seq<Request>, replies: seq<Reply>, digest: Digest,
                          script: seq<Outcome>, k: nat)
    requires Story(worlds, requests, replies, digest, script) && OnlyCrashes(script) && k < |replies|
    requires forall i | 0 <= i < |requests| :: !Clashing(requests[i].ops)
    ensures !replies[k].Succeeded? ==> worlds[k + 1].files == worlds[k].files
  {
    hide Clashing, HasCause, BlockedOps, Told;
    assert Settled(requests, replies, k);
    assert Paid(Damaged, worlds, requests, replies, digest, k + 1, script);
    TotalCountsEach(Damaged, worlds, requests, replies, digest, k + 1, k);
  }

  /** Unless some step reports an error late, a crash does no damage either, whatever errors, failed
      rollbacks and deferred cleanups there are besides. */
  lemma CutsDoNoDamage(worlds: seq<World>, requests: seq<Request>, replies: seq<Reply>, digest: Digest,
                       script: seq<Outcome>, k: nat)
    requires Story(worlds, requests, replies, digest, script) && Count(script, Late) == 0 && k < |replies|
    requires forall i | 0 <= i < |requests| :: !Clashing(requests[i].ops)
    ensures replies[k].CutOff? ==> worlds[k + 1].files == worlds[k].files
  {
    hide Clashing, HasCause, BlockedOps, Told;
    assert Settled(requests, replies, k);
    assert Paid(DamagedByCut, worlds, requests, replies, digest, k + 1, script);
    TotalCountsEach(DamagedByCut, worlds, requests, replies, digest, k + 1, k);
  }

  // ---- Where the promise ends -------------------------------------------------------------

  /** After an in-process rollback that failed, the backups are deleted all the same. From then on
      the disk holds whatever the files were, so the transaction is still all or nothing exactly
      when they already were one of the two. */
  lemma CleanupAfterFailedRollback(d: Disk, id: TxId, h: Files)
    requires d.txs.Keys == {id}
    ensures Exec(d, DropTx(id)).Some? && (Safe(Exec(d, DropTx(id)).value, h) <==> d.files == h)
  {
  }

  /** And they need not be: a commit fails after its last change, say, its rollback restores the last
      entry and is then refused a step. Up to here recovery would still give the old workspace; the
      deletion of the backups is what leaves neither the old one nor the new one. */
  lemma FailedRollbackThenCleanup(d: Disk, id: TxId, plan: seq<Change>, g: Files)
    requires Progress(d, id, plan, g, |plan|, false) && |plan| >= 2 && id in d.txs
    requires plan[0].original != plan[0].replacement
    requires var last := plan[|plan| - 1];
             last.original.Some? && last.replacement.Some? && last.original != last.replacement
    ensures var halfway := PutBack(d, id, plan[|plan| - 1].path, |plan| - 1);
            && halfway.Some? && Safe(halfway.value, g)
            && var deleted := Exec(halfway.value, DropTx(id));
            deleted.Some? && !Safe(deleted.value, g) && !Safe(deleted.value, Updated(g, plan))
  {
    hide Progress, Safe, Journaled, PutBack;
    var n := |plan| - 1;
    LastRestored(d, d, id, plan, g);
    EndsStand(d, id, plan, g);
    ProgressIsJournaled(d, id, plan, g, |plan|, false);
    PutBackIsSound(d, id, JournalFor(id, plan), n, g);
    var halfway := PutBack(d, id, plan[n].path, n).value;
    JournaledUnmarkedIsSafe(halfway, id, JournalFor(id, plan), g);
    UpdatedAt(g, plan);
    CleanupAfterFailedRollback(halfway, id, g);
    CleanupAfterFailedRollback(halfway, id, Updated(g, plan));
  }

  /** The two steps that restore a replaced file: the new one removed, the backup moved home. */
  function PutBack(d: Disk, id: TxId, p: Path, n: nat): Option<Disk> {
    match Exec(d, RemoveFile(p)) case None => None case Some(cleared) => Exec(cleared, MoveIn(id, Backup(n), p))
  }

  lemma PutBackEffect(d: Disk, id: TxId, p: Path, n: nat, bytes: Bytes)
    requires id in d.txs && p in d.files && p !in d.dirs && p != [] && HasParents(d, p)
    requires Lookup(d.txs[id], Backup(n)) == Some(Data(bytes))
    ensures var e := PutBack(d, id, p, n);
            && e.Some? && e.value.files == d.files[p := bytes] && e.value.txs.Keys == d.txs.Keys
            && forall a | a != Backup(n) :: Lookup(e.value.txs[id], a) == Lookup(d.txs[id], a)
  {
  }

  lemma PutBackIsSound(d: Disk, id: TxId, j: Journal, n: nat, g: Files)
    requires Journaled(d, id, j, g) && n < |j.entries| && j.entries[n].originalExisted
             && j.entries[n].backup == Backup(n)
    requires j.entries[n].path in d.files && id in d.txs && Backup(n) in d.txs[id]
    ensures var e := PutBack(d, id, j.entries[n].path, n);
            e.Some? && Journaled(e.value, id, j, g) && Held(e.value, id, MarkerFile) == Held(d, id, MarkerFile)
  {
    hide Journaled, Restored, EntrySafe;
    UndoRemove(d, id, j, n, g);
    UndoMoveIn(Exec(d, RemoveFile(j.entries[n].path)).value, id, j, n, g);
  }

  /** With a marker in place the files are final. */
  lemma MarkedIsFinal(d: Disk, id: TxId, j: Journal, h: Files)
    requires d.txs.Keys == {id} && Committed(id, d.txs[id])
    requires Lookup(d.txs[id], JournalFile) == Some(JournalDoc(j)) && JournalOk(id, j)
    ensures Safe(d, h) <==> d.files == h
  {
    assert id in d.txs.Keys;
    if d.files == h {
      CommittedIsSafe(d, id, j, h);
    } else {
      assert !TxSafe(d, id, h);
    }
  }

  /** The directory of a commit whose marker rename was done but reported an error. */
  function Marked(d: Disk, id: TxId): Disk
    requires id in d.txs
  {
    WithDir(d, id, d.txs[id][MarkerFile := MarkerDoc(Marker(MARKER_VERSION, id))])
  }

  /** Such a commit rolls back in process. If power is lost after its last entry is restored and
      before its first is, recovery sees the marker and keeps a workspace that is neither the old
      one nor the new one. */
  lemma LateMarkerThenPowerLoss(d: Disk, id: TxId, plan: seq<Change>, g: Files)
    requires Progress(d, id, plan, g, |plan|, false) && |plan| >= 2 && id in d.txs
    requires plan[0].original != plan[0].replacement
    requires var last := plan[|plan| - 1];
             last.original.Some? && last.replacement.Some? && last.original != last.replacement
    ensures var halfway := PutBack(Marked(d, id), id, plan[|plan| - 1].path, |plan| - 1);
            halfway.Some? && !Safe(halfway.value, g) && !Safe(halfway.value, Updated(g, plan))
  {
    hide Progress, Safe, Committed, JournalOk, WithDir, PutBack;
    var n := |plan| - 1;
    MarkedIsAlike(d, id);
    LastRestored(d, Marked(d, id), id, plan, g);
    EndsStand(d, id, plan, g);
    var halfway := PutBack(Marked(d, id), id, plan[n].path, n).value;
    CommittedStays(Marked(d, id), halfway, id);
    UpdatedAt(g, plan);
    MarkedIsFinal(halfway, id, JournalFor(id, plan), g);
    MarkedIsFinal(halfway, id, JournalFor(id, plan), Updated(g, plan));
  }

  lemma MarkedIsAlike(d: Disk, id: TxId)
    requires id in d.txs
    ensures Alike(d, Marked(d, id), id) && Committed(id, Marked(d, id).txs[id])
  {
  }

  lemma CommittedStays(d: Disk, d': Disk, id: TxId)
    requires id in d.txs && id in d'.txs && Committed(id, d.txs[id])
    requires Lookup(d'.txs[id], MarkerFile) == Lookup(d.txs[id], MarkerFile)
    ensures Committed(id, d'.txs[id])
  {
  }

  /** Nothing differs but the marker. */
  ghost predicate Alike(d: Disk, m: Disk, id: TxId) {
    && id in d.txs && m.files == d.files && m.dirs == d.dirs && m.txs.Keys == d.txs.Keys
    && forall a | a != MarkerFile :: Lookup(m.txs[id], a) == Lookup(d.txs[id], a)
  }

  /** The last entry of a commit restored, marked or not. */
  lemma LastRestored(d: Disk, m: Disk, id: TxId, plan: seq<Change>, g: Files)
    requires Progress(d, id, plan, g, |plan|, false) && |plan| >= 2 && Alike(d, m, id)
    requires var last := plan[|plan| - 1]; last.original.Some? && last.replacement.Some?
    ensures var last, halfway := plan[|plan| - 1], PutBack(m, id, plan[|plan| - 1].path, |plan| - 1);
            && halfway.Some? && halfway.value.txs.Keys == {id}
            && Lookup(halfway.value.txs[id], MarkerFile) == Lookup(m.txs[id], MarkerFile)
            && Lookup(halfway.value.txs[id], JournalFile) == Some(JournalDoc(JournalFor(id, plan)))
            && Lookup(halfway.value.files, plan[0].path) == plan[0].replacement
            && Lookup(halfway.value.files, last.path) == last.original
  {
    hide PutBack, Progress, DistinctPaths, JournalOk;
    var n := |plan| - 1;
    EndsStand(d, id, plan, g);
    PathsOfProgressAt(d, id, plan, g, n);
    assert Lookup(m.txs[id], Backup(n)) == Lookup(d.txs[id], Backup(n));
    assert Lookup(m.txs[id], JournalFile) == Lookup(d.txs[id], JournalFile);
    PutBackEffect(m, id, plan[n].path, n, plan[n].original.value);
  }

  /** What progress to the end says of the first and the last change. */
  lemma EndsStand(d: Disk, id: TxId, plan: seq<Change>, g: Files)
    requires Progress(d, id, plan, g, |plan|, false) && |plan| >= 2 && id in d.txs
    ensures DistinctPaths(plan) && JournalOk(id, JournalFor(id, plan)) && plan[0].path != plan[|plan| - 1].path
    ensures d.txs.Keys == {id} && Held(d, id, MarkerFile) == None
    ensures Lookup(d.txs[id], JournalFile) == Some(JournalDoc(JournalFor(id, plan)))
    ensures Stands(d, d.txs[id], plan[0], 0, g, |plan|, false)
    ensures Stands(d, d.txs[id], plan[|plan| - 1], |plan| - 1, g, |plan|, false)
  {
  }

  lemma PathsOfProgressAt(d: Disk, id: TxId, plan: seq<Change>, g: Files, n: nat)
    requires Progress(d, id, plan, g, |plan|, false) && n < |plan|
    ensures plan[n].path != []
  {
    assert EntryOk(JournalFor(id, plan).entries[n], n);
  }

  /** Removing a directory is one step here. Were the marker unlinked before the backups, the
      disk would go back from the new workspace to the old one. */
  lemma UnlinkingTheMarkerFirst(d: Disk, id: TxId, j: Journal, g: Files)
    requires Journaled(d, id, j, g) && id in d.txs && Committed(id, d.txs[id])
    ensures Safe(d, d.files)
    ensures var next := Exec(d, RemoveArtifact(id, MarkerFile));
            next.Some? && Safe(next.value, g)
  {
    MarkedIsFinal(d, id, j, d.files);
    var d' := Exec(d, RemoveArtifact(id, MarkerFile)).value;
    NeutralStep(d, d', id, j, g);
    JournaledIsSafe(d', id, j, g);
  }

  /** Making a directory on the way to target `n` is harmless exactly when no other change targets
      that very path. If one does, the plan clashes, the file or absence recorded there can never be
      restored (rollback and recovery are refused at a directory), and no workspace is safe. */
  lemma ParentIsSafeExactlyOffTarget(d: Disk, id: TxId, plan: seq<Change>, g: Files, n: nat, q: Path)
    requires Progress(d, id, plan, g, n, false) && n < |plan|
    requires q < plan[n].path && 0 < |q| && HasParents(d, q) && !Exists(d, q)
    ensures var made := Exec(d, MakeDir(q));
            && made.Some?
            && (Safe(made.value, g) <==> !Planned(plan, q))
            && (Planned(plan, q) <==> forall h :: !Safe(made.value, h))
            && (Planned(plan, q) ==> Clash(plan) && Exec(made.value, RemoveFile(q)) == None)
  {
    hide Progress, Safe, Clash, Planned;
    if Planned(plan, q) {
      DirectoryOnTarget(d, id, plan, g, n, q);
      if !Clash(plan) {
        NewParentsAreNoTargets(d, id, plan, g, n, q);
      }
    } else {
      var made := Exec(d, MakeDir(q)).value;
      AdvanceParents(d, made, id, plan, g, n);
      ProgressIsJournaled(made, id, plan, g, n, false);
    }
  }

  lemma DirectoryOnTarget(d: Disk, id: TxId, plan: seq<Change>, g: Files, n: nat, q: Path)
    requires Progress(d, id, plan, g, n, false) && Planned(plan, q)
    ensures forall h :: !Safe(d.(dirs := d.dirs + {q}), h)
  {
    DirectoriesOnTarget(d, id, plan, g, n, {q}, q);
  }

  /** With a directory on a target, among any others, no workspace can be recovered. */
  lemma DirectoriesOnTarget(d: Disk, id: TxId, plan: seq<Change>, g: Files, n: nat, more: set<Path>, q: Path)
    requires Progress(d, id, plan, g, n, false) && Planned(plan, q) && q in more
    ensures forall h :: !Safe(d.(dirs := d.dirs + more), h)
  {
    hide Stands, JournalOk;
    var made := d.(dirs := d.dirs + more);
    var k :| 0 <= k < |plan| && plan[k].path == q;
    assert id in made.txs.Keys;
    assert id in made.txs && Lookup(made.txs[id], MarkerFile) == None;
    forall h
      ensures !Safe(made, h)
    {
      assert !EntrySafe(made, made.txs[id], JournalFor(id, plan).entries[k], h);
    }
  }

  /** When nothing fails, a clash may still go through: a file created below a path, then a file
      created at that path. The second change moves the new directory away as if it were an old
      file, so the apply loop completes and the first file is gone. `AppliedIsUpdateIff` and `Commit`
      say that nothing else can go wrong in this way. */
  lemma CreateBelowThenCreate(d: Disk, id: TxId, plan: seq<Change>, g: Files)
    requires Progress(d, id, plan, g, 0, false) && IsTree(d) && d.files == g && id in d.txs
    requires |plan| == 2 && plan[0].kind == Created && plan[1].kind == Created
    requires plan[1].path < plan[0].path && !FileAbove(d.files, plan[0].path)
    ensures var after := Applied(d, id, plan, 2);
            after.Some? && plan[0].path !in after.value.files && after.value.files != Updated(g, plan)
  {
    hide Progress, IsTree, Exec;
    CreatedHasContent(d, id, plan, g);
    assert Swallowed(plan, 0, 1);
    StagedIsGoing(d, id, plan, g);
    SecondIsStaged(d, id, plan, g);
    BothGoThrough(d, id, plan, g);
    AppliedIsUpdateIff(d, id, plan, g);
    SwallowingLoses(d, id, plan, 2);
    var after := Applied(d, id, plan, 2).value;
    assert plan[1].path in after.files;
    FileHidesBelow(after, plan[1].path, plan[0].path);
  }

  lemma SecondIsStaged(d: Disk, id: TxId, plan: seq<Change>, g: Files)
    requires Progress(d, id, plan, g, 0, false) && |plan| == 2
    ensures plan[1].path != [] && id in d.txs && Backup(1) !in d.txs[id]
  {
    assert Stands(d, d.txs[id], plan[1], 1, g, 0, false);
    assert EntryOk(JournalFor(id, plan).entries[1], 1);
  }

  lemma BothGoThrough(d: Disk, id: TxId, plan: seq<Change>, g: Files)
    requires Going(d, id, plan, g, 0) && |plan| == 2 && plan[0].kind == Created && plan[1].kind == Created
    requires plan[0].replacement.Some? && plan[1].replacement.Some? && plan[1].path != []
    requires plan[1].path < plan[0].path && !FileAbove(d.files, plan[0].path) && Backup(1) !in d.txs[id]
    ensures Applied(d, id, plan, 2).Some? && plan[1].path in Applied(d, id, plan, 2).value.files
  {
    var p, q := plan[1].path, plan[0].path;
    assert q[..|p|] == p;
    var mid := ApplyOne(d, id, plan[0], 0);
    assert mid.Some?;
    assert p in mid.value.dirs;
    forall k | 0 < k < |p| ensures p[..k] !in mid.value.files {
      assert q[..k] == p[..k];
    }
    assert Applied(d, id, plan, 0) == Some(d);
    assert Applied(d, id, plan, 1) == mid;
  }
}
