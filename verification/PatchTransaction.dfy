/**
  The crash-safe patch transaction: commit, rollback and recovery as programs over a machine
  whose next steps may each be done, be refused, report an error after being done, or be cut off
  by a loss of power. A machine that is down does nothing until it is restarted, so running these
  programs with every possible script covers a crash between any two steps.
 */
module PatchTransaction {
  import opened Basics
  import opened WorkspaceDisk
  import opened PatchPlan
  import opened PatchJournal
  import opened PatchProgress
  import opened PatchApply

  /** What becomes of one step. */
  datatype Outcome = Done | Refused | Late | PowerLoss

  /** How often an outcome is among those of the next steps. */
  function Count(script: seq<Outcome>, o: Outcome): nat {
    if script == [] then 0 else (if script[0] == o then 1 else 0) + Count(script[1..], o)
  }

  /** Power may be lost, any number of times, but no step is refused or reports an error. */
  predicate OnlyCrashes(script: seq<Outcome>) {
    Count(script, Refused) == 0 && Count(script, Late) == 0
  }

  class Host {
    var disk: Disk
    var script: seq<Outcome>   // outcomes of the next steps; every later step is done
    var down: bool
    ghost var lateMarker: bool // since the last restart, the rename of a commit marker was done
                               // but reported an error

    ghost predicate Valid()
      reads this
    {
      IsTree(disk)
    }

    /** How many of the steps to come will have this outcome. */
    ghost function Left(o: Outcome): nat
      reads this
    {
      Count(script, o)
    }

    /** The steps to come that will report an error. */
    ghost function Errors(): nat
      reads this
    {
      Left(Refused) + Left(Late)
    }

    /** The steps to come that will not simply be done. */
    ghost function Faults(): nat
      reads this
    {
      Errors() + Left(PowerLoss)
    }

    /** Nothing is forgotten, and nothing happens while the machine is down. It goes down on a loss of
        power and on nothing else, and a marker is only late where a step was. */
    twostate predicate Onward()
      reads this
    {
      && (old(lateMarker) ==> lateMarker)
      && (old(down) ==> down && disk == old(disk) && script == old(script))
      && Left(Refused) <= old(Left(Refused)) && Left(Late) <= old(Left(Late))
      && Left(PowerLoss) <= old(Left(PowerLoss))
      && (down && !old(down) <==> Left(PowerLoss) < old(Left(PowerLoss)))
      && (lateMarker && !old(lateMarker) ==> Left(Late) < old(Left(Late)))
    }

    /** Something went wrong with the machine: it was down, or a step was not simply done. */
    twostate predicate Hit()
      reads this
    {
      old(down) || Faults() < old(Faults())
    }

    /** The very next step is refused. */
    predicate NextRefused()
      reads this
    {
      !down && script != [] && script[0] == Refused
    }

    /** A program that began with a refusal to come succeeds without a step, or stops at its first. */
    twostate predicate StopsAtRefusal(new ok: bool)
      reads this
    {
      old(NextRefused()) ==>
        && disk == old(disk) && !down
        && (script == old(script) || (!ok && script == old(script)[1..]))
    }

    constructor (disk: Disk, script: seq<Outcome>)
      requires IsTree(disk)
      ensures Valid() && this.disk == disk && this.script == script && !down && !lateMarker
    {
      this.disk, this.script, down, lateMarker := disk, script, false, false;
    }

    method Restart()
      requires Valid()
      modifies this`down, this`lateMarker
      ensures Valid() && !down && !lateMarker
    {
      down, lateMarker := false, false;
    }

    /** One atomic step of the file system. */
    method Perform(op: Op) returns (ok: bool)
      requires Valid()
      modifies this
      ensures Valid() && Onward()
      ensures StopsAtRefusal(ok) && (old(NextRefused()) ==> !ok)
      ensures !old(down) && old(script) != [] ==>
                script == old(script)[1..] && (old(script)[0] == Done ==> (ok <==> Exec(old(disk), op).Some?))
      ensures ok ==> !down && Exec(old(disk), op) == Some(disk)
      ensures !ok ==>
                || disk == old(disk)
                || (Exec(old(disk), op) == Some(disk) && !down && (IsMarkerRename(op) ==> lateMarker))
      ensures !ok ==> Hit() || Exec(old(disk), op).None?
      ensures down ==> disk == old(disk) && lateMarker == old(lateMarker)
      ensures !IsMarkerRename(op) ==> lateMarker == old(lateMarker)
    {
      if down {
        return false;
      }
      var outcome := Done;
      if script != [] {
        outcome, script := script[0], script[1..];
      }
      if outcome == PowerLoss {
        down := true;
        return false;
      }
      var next := Exec(disk, op);
      if outcome == Refused || next.None? {
        return false;
      }
      ExecKeepsTree(disk, op);
      disk := next.value;
      if outcome == Late {
        lateMarker := lateMarker || IsMarkerRename(op);
        return false;
      }
      ok := true;
    }
  }

  predicate IsMarkerRename(op: Op) {
    op.RenameArtifact? && op.to == MarkerFile
  }

  function Held(d: Disk, id: TxId, name: Artifact): Option<Content> {
    if id in d.txs then Lookup(d.txs[id], name) else None
  }

  // ---- Writing artifacts ------------------------------------------------------------------

  ghost predicate OnlyArtifacts(d: Disk, d': Disk, id: TxId, names: set<Artifact>) {
    && d'.files == d.files && d'.dirs == d.dirs && d'.txs.Keys == d.txs.Keys
    && (forall a | a !in names :: Held(d', id, a) == Held(d, id, a))
  }

  /** `write_synced_bytes_new`: the file exists, empty or torn, before it holds its content. */
  method WriteNew(host: Host, id: TxId, name: Artifact, content: Content) returns (ok: bool)
    requires host.Valid()
    modifies host
    ensures host.Valid() && host.Onward() && host.lateMarker == old(host.lateMarker)
    ensures OnlyArtifacts(old(host.disk), host.disk, id, {name})
    ensures ok ==> Held(host.disk, id, name) == Some(content)
    ensures !ok ==> host.Hit() || id !in host.disk.txs || old(Held(host.disk, id, name)).Some?
  {
    hide Count, Host.Left, OnlyCrashes, IsTree;
    ok := host.Perform(CreateArtifact(id, name));
    if ok {
      ok := host.Perform(FillArtifact(id, name, content));
    }
  }

  lemma RemovedArtifact(d: Disk, id: TxId, name: Artifact)
    ensures Exec(d, RemoveArtifact(id, name)).Some? <==> Held(d, id, name).Some?
    ensures Exec(d, RemoveArtifact(id, name)).Some? ==>
              var d' := Exec(d, RemoveArtifact(id, name)).value;
              OnlyArtifacts(d, d', id, {name}) && Held(d', id, name) == None
  {
  }

  lemma RenamedArtifact(d: Disk, id: TxId, name: Artifact, to: Artifact)
    requires name != to
    ensures Exec(d, RenameArtifact(id, name, to)).Some? <==> Held(d, id, name).Some?
    ensures Exec(d, RenameArtifact(id, name, to)).Some? ==>
              var d' := Exec(d, RenameArtifact(id, name, to)).value;
              OnlyArtifacts(d, d', id, {name, to}) && Held(d', id, to) == Held(d, id, name)
                  && Held(d', id, name) == None
  {
  }

  /** Removes what an earlier attempt may have left at `name`. */
  method RemoveOld(host: Host, id: TxId, name: Artifact) returns (ok: bool)
    requires host.Valid() && name != MarkerFile
    modifies host
    ensures host.Valid() && host.Onward() && host.lateMarker == old(host.lateMarker)
    ensures OnlyArtifacts(old(host.disk), host.disk, id, {name})
    ensures ok ==> Held(host.disk, id, name) == None
    ensures !ok ==> host.Hit()
  {
    hide Exec, IsTree, Count, OnlyCrashes, Held, OnlyArtifacts;
    KeptArtifacts(host.disk, id, {name});
    ok := true;
    if Held(host.disk, id, name).Some? {
      RemovedArtifact(host.disk, id, name);
      ok := host.Perform(RemoveArtifact(id, name));
    }
  }

  /** `write_synced_json_atomic`: written beside its place and renamed into it. */
  method WriteAtomic(host: Host, id: TxId, temp: Artifact, name: Artifact, content: Content) returns (ok: bool)
    requires host.Valid() && temp != name && temp != MarkerFile
    modifies host
    ensures host.Valid() && host.Onward()
    ensures OnlyArtifacts(old(host.disk), host.disk, id, {temp, name})
    ensures Held(host.disk, id, name) == old(Held(host.disk, id, name))
         || Held(host.disk, id, name) == Some(content)
    ensures ok ==> Held(host.disk, id, name) == Some(content) && Held(host.disk, id, temp) == None
    ensures !ok ==> host.Hit() || id !in host.disk.txs
    ensures !ok && !host.lateMarker && name == MarkerFile ==>
              Held(host.disk, id, name) == old(Held(host.disk, id, name))
    ensures name != MarkerFile ==> host.lateMarker == old(host.lateMarker)
    ensures host.down ==> host.lateMarker == old(host.lateMarker)
  {
    hide Exec, IsTree, Count, OnlyCrashes, Held, OnlyArtifacts;
    ghost var start := host.disk;
    KeptArtifacts(start, id, {temp, name});
    ok := RemoveOld(host, id, temp);
    OnlyThen(start, start, host.disk, id, {temp}, {temp, name});
    if !ok {
      return;
    }
    ghost var cleared := host.disk;
    ok := WriteNew(host, id, temp, content);
    ghost var written := host.disk;
    OnlyThen(start, cleared, written, id, {temp}, {temp, name});
    if ok {
      RenamedArtifact(written, id, temp, name);
      ok := host.Perform(RenameArtifact(id, temp, name));
      OnlyThen(start, written, host.disk, id, {temp, name}, {temp, name});
    }
  }

  lemma KeptArtifacts(d: Disk, id: TxId, names: set<Artifact>)
    ensures OnlyArtifacts(d, d, id, names)
  {
  }

  /** Steps on some artifacts, seen as steps on more. */
  lemma OnlyThen(d: Disk, mid: Disk, d': Disk, id: TxId, few: set<Artifact>, names: set<Artifact>)
    requires few <= names
    ensures OnlyArtifacts(d, mid, id, names) && (OnlyArtifacts(mid, d', id, few) || d' == mid) ==>
                OnlyArtifacts(d, d', id, names)
    ensures OnlyArtifacts(mid, d', id, few) ==>
              (forall a | a !in few :: Held(d', id, a) == Held(mid, id, a)) && (id in d'.txs <==> id in mid.txs)
  {
    if OnlyArtifacts(mid, d', id, few) {
      assert id in d'.txs.Keys <==> id in mid.txs.Keys;
    }
  }

  // ---- Parent directories -----------------------------------------------------------------

  /** `create_scoped_parent_directories`, outermost first; a file in the way is an error. */
  method CreateParents(host: Host, p: Path) returns (ok: bool)
    requires host.Valid()
    modifies host
    ensures host.Valid() && host.Onward() && host.lateMarker == old(host.lateMarker)
    ensures host.StopsAtRefusal(ok)
    ensures host.disk == old(host.disk).(dirs := host.disk.dirs) && old(host.disk.dirs) <= host.disk.dirs
    ensures forall q | q in host.disk.dirs && q !in old(host.disk.dirs) ::
              q < p && 0 < |q| && !Exists(old(host.disk), q)
    ensures ok ==> HasParents(host.disk, p)
    ensures HasParents(old(host.disk), p) && p !in old(host.disk.dirs) ==>
              ok && host.disk == old(host.disk) && host.script == old(host.script) && host.down == old(host.down)
    ensures !ok ==> host.Hit() || exists k | 0 < k < |p| :: p[..k] in host.disk.files
  {
    hide Count, Host.Left, OnlyCrashes;
    var k := 1;
    while k < |p|
      invariant 1 <= k && (k <= |p| || |p| == 0)
      invariant host.Valid() && host.Onward() && host.lateMarker == old(host.lateMarker)
      invariant host.disk == old(host.disk).(dirs := host.disk.dirs) && old(host.disk.dirs) <= host.disk.dirs
      invariant forall q | q in host.disk.dirs && q !in old(host.disk.dirs) ::
                  q < p && 0 < |q| && !Exists(old(host.disk), q)
      invariant forall m | 0 < m < k && m < |p| :: p[..m] in host.disk.dirs
      invariant host.StopsAtRefusal(true)
      invariant HasParents(old(host.disk), p) ==>
                  host.disk == old(host.disk) && host.script == old(host.script) && host.down == old(host.down)
    {
      var current := p[..k];
      assert forall m | 0 < m < k :: current[..m] == p[..m];
      if current in host.disk.files {
        OnATreeNoFileIsADirectory(old(host.disk), current);
        return false;
      }
      if current !in host.disk.dirs {
        var made := host.Perform(MakeDir(current));
        if !made {
          return false;
        }
      }
      k := k + 1;
    }
    return true;
  }

  lemma OnATreeNoFileIsADirectory(d: Disk, p: Path)
    requires IsTree(d) && p in d.files
    ensures p !in d.dirs
  {
    assert p in d.files.Keys;
  }

  // ---- Rollback ---------------------------------------------------------------------------

  /** Entries other than `i` that were restored still are, and the marker is not touched. */
  ghost predicate Keeps(d: Disk, d': Disk, id: TxId, j: Journal, i: nat) {
    && Held(d', id, MarkerFile) == Held(d, id, MarkerFile)
    && (id in d.txs ==>
          && id in d'.txs
          && forall k | 0 <= k < |j.entries| && k != i && Restored(d, d.txs[id], j.entries[k]) ::
               Restored(d', d'.txs[id], j.entries[k]))
  }

  /** Clearing the target of an entry that is backed up, or that did not exist, loses nothing. */
  lemma UndoRemove(d: Disk, id: TxId, j: Journal, i: nat, g: Files)
    requires Journaled(d, id, j, g) && i < |j.entries| && j.entries[i].path in d.files
    requires j.entries[i].originalExisted ==> j.entries[i].backup in d.txs[id]
    ensures var d' := Exec(d, RemoveFile(j.entries[i].path)).value;
            && Journaled(d', id, j, g) && Keeps(d, d', id, j, i) && Between(d.files, d'.files, g)
            && (!j.entries[i].originalExisted ==> Restored(d', d'.txs[id], j.entries[i]))
  {
    var d' := Exec(d, RemoveFile(j.entries[i].path)).value;
    assert EntrySafe(d, d.txs[id], j.entries[i], g);
    EntryStep(d, d', id, j, i, g);
  }

  /** Moving the backup home restores its entry. */
  lemma UndoMoveIn(d: Disk, id: TxId, j: Journal, i: nat, g: Files)
    requires Journaled(d, id, j, g) && i < |j.entries|
    requires j.entries[i].originalExisted && j.entries[i].backup in d.txs[id]
    ensures var next := Exec(d, MoveIn(id, j.entries[i].backup, j.entries[i].path));
            && next.Some? && Journaled(next.value, id, j, g) && Keeps(d, next.value, id, j, i)
            && Restored(next.value, next.value.txs[id], j.entries[i]) && Between(d.files, next.value.files, g)
  {
    var e := j.entries[i];
    assert EntryOk(e, i) && EntrySafe(d, d.txs[id], e, g);
    EntryStep(d, Exec(d, MoveIn(id, e.backup, e.path)).value, id, j, i, g);
  }

  lemma KeepsTwice(d: Disk, mid: Disk, d': Disk, id: TxId, j: Journal, i: nat)
    requires Keeps(d, mid, id, j, i) && Keeps(mid, d', id, j, i)
    ensures Keeps(d, d', id, j, i)
  {
  }

  /** What soundness says about entry `i`. In particular a file that existed and is not backed up
      is in its place, so the `.original` copy is never asked for. */
  lemma SoundEntry(d: Disk, id: TxId, j: Journal, i: nat, g: Files)
    requires Journaled(d, id, j, g) && i < |j.entries|
    ensures var e := j.entries[i];
            && ValidPath(e.path) && e.path !in d.dirs && id in d.txs && Keeps(d, d, id, j, i)
            && (e.originalExisted ==> HasParents(d, e.path))
            && (e.originalExisted && e.backup !in d.txs[id] ==>
                  e.path in d.files && Restored(d, d.txs[id], e))
            && (!e.originalExisted && e.path !in d.files ==> Restored(d, d.txs[id], e))
  {
    assert EntryOk(j.entries[i], i) && EntrySafe(d, d.txs[id], j.entries[i], g);
  }

  /** `durable_copy_new` from the `.original` copy. */
  method RestoreCopy(host: Host, id: TxId, i: nat, p: Path) returns (ok: bool)
    requires host.Valid()
    modifies host
    ensures host.Valid() && host.Onward() && host.lateMarker == old(host.lateMarker)
    ensures host.StopsAtRefusal(ok)
    ensures host.disk.txs.Keys == old(host.disk.txs.Keys)
  {
    hide Count, Host.Left, OnlyCrashes, IsTree;
    var copy := Held(host.disk, id, Original(i));
    if copy.None? || !copy.value.Data? {
      return false;
    }
    ok := CreateParents(host, p);
    if ok {
      ok := host.Perform(CreateFile(p));
    }
    if ok {
      ok := host.Perform(FillFile(p, copy.value.bytes));
    }
  }

  /** Removes whatever stands where the backup of entry `i` belongs. */
  method ClearTarget(host: Host, id: TxId, j: Journal, i: nat, ghost g: Files) returns (ok: bool)
    requires host.Valid() && i < |j.entries|
    requires j.entries[i].originalExisted && Held(host.disk, id, j.entries[i].backup).Some?
    modifies host
    ensures host.Valid() && host.Onward() && host.lateMarker == old(host.lateMarker)
    ensures host.StopsAtRefusal(ok)
    ensures host.disk.txs == old(host.disk.txs) && host.disk.dirs == old(host.disk.dirs)
    ensures old(Journaled(host.disk, id, j, g)) ==>
              && Journaled(host.disk, id, j, g) && Keeps(old(host.disk), host.disk, id, j, i) && (!ok ==> host.Hit())
              && Between(old(host.disk.files), host.disk.files, g)
  {
    hide Journaled, EntrySafe, Keeps, Between, IsTree, JournalOk, Count, Host.Left, OnlyCrashes;
    var e := j.entries[i];
    ghost var sound := Journaled(host.disk, id, j, g);
    if sound {
      SoundEntry(host.disk, id, j, i, g);
    }
    BetweenSame(host.disk.files, g);
    ok := true;
    if Exists(host.disk, e.path) {
      if sound {
        UndoRemove(host.disk, id, j, i, g);
      }
      ok := host.Perform(RemoveFile(e.path));
    }
  }

  /** Moves the backup of entry `i` home, over whatever is there. */
  method RestoreBackup(host: Host, id: TxId, j: Journal, i: nat, ghost g: Files) returns (ok: bool)
    requires host.Valid() && i < |j.entries|
    requires j.entries[i].originalExisted && Held(host.disk, id, j.entries[i].backup).Some?
    modifies host
    ensures host.Valid() && host.Onward() && host.lateMarker == old(host.lateMarker)
    ensures host.StopsAtRefusal(ok)
    ensures host.disk.txs.Keys == old(host.disk.txs.Keys)
    ensures old(Journaled(host.disk, id, j, g)) ==>
              && Journaled(host.disk, id, j, g) && Keeps(old(host.disk), host.disk, id, j, i)
              && host.disk.dirs == old(host.disk.dirs) && Between(old(host.disk.files), host.disk.files, g)
              && (!ok ==> host.Hit())
              && (ok ==> Restored(host.disk, host.disk.txs[id], j.entries[i]))
  {
    hide Journaled, EntrySafe, Keeps, Between, IsTree, JournalOk, Count, Host.Left, OnlyCrashes, Restored;
    var e := j.entries[i];
    ghost var before, sound := host.disk, Journaled(host.disk, id, j, g);
    BetweenSame(host.disk.files, g);
    ok := ClearTarget(host, id, j, i, g);
    if !ok {
      return;
    }
    if sound {
      SoundEntry(host.disk, id, j, i, g);
      UndoMoveIn(host.disk, id, j, i, g);
    }
    ghost var cleared := host.disk;
    ok := CreateParents(host, e.path);
    if !ok {
      return;
    }
    ok := host.Perform(MoveIn(id, e.backup, e.path));
    if sound {
      BetweenSame(cleared.files, g);
      BetweenThen(before.files, cleared.files, host.disk.files, g);
      KeepsTwice(before, cleared, host.disk, id, j, i);
    }
  }

  /** Undoes entry `i`: a backup goes back over whatever is at the target; a target that did not
      exist goes away. On a sound journal only trouble with the machine can stop it. */
  method RollbackEntry(host: Host, id: TxId, j: Journal, i: nat, ghost g: Files) returns (ok: bool)
    requires host.Valid() && i < |j.entries|
    modifies host
    ensures host.Valid() && host.Onward() && host.lateMarker == old(host.lateMarker)
    ensures host.StopsAtRefusal(ok)
    ensures host.disk.txs.Keys == old(host.disk.txs.Keys)
    ensures old(Journaled(host.disk, id, j, g)) ==>
              && Journaled(host.disk, id, j, g) && Keeps(old(host.disk), host.disk, id, j, i)
              && host.disk.dirs == old(host.disk.dirs) && Between(old(host.disk.files), host.disk.files, g)
              && (!ok ==> host.Hit())
              && (ok ==> Restored(host.disk, host.disk.txs[id], j.entries[i]))
  {
    hide Journaled, EntrySafe, Keeps, Between, IsTree, JournalOk, Count, Host.Left, OnlyCrashes;
    var e := j.entries[i];
    ghost var before, sound := host.disk, Journaled(host.disk, id, j, g);
    BetweenSame(host.disk.files, g);
    if sound {
      SoundEntry(host.disk, id, j, i, g);
    }
    if !ValidPath(e.path) {
      return false;
    }
    if e.originalExisted {
      if Held(host.disk, id, e.backup).Some? {
        ok := RestoreBackup(host, id, j, i, g);
      } else if !Exists(host.disk, e.path) && Held(host.disk, id, Original(i)).Some? {
        ok := RestoreCopy(host, id, i, e.path);
      } else {
        ok := true;
      }
    } else if Exists(host.disk, e.path) {
      if sound {
        UndoRemove(host.disk, id, j, i, g);
      }
      ok := host.Perform(RemoveFile(e.path));
    } else {
      ok := true;
    }
  }

  ghost predicate RestoredFrom(d: Disk, id: TxId, j: Journal, n: nat) {
    id in d.txs && forall k | n <= k < |j.entries| :: Restored(d, d.txs[id], j.entries[k])
  }

  lemma RestoredOneMore(d: Disk, d': Disk, id: TxId, j: Journal, i: nat)
    requires i < |j.entries| && RestoredFrom(d, id, j, i + 1) && Keeps(d, d', id, j, i)
    requires id in d'.txs && Restored(d', d'.txs[id], j.entries[i])
    ensures RestoredFrom(d', id, j, i)
    ensures Held(d', id, MarkerFile) == Held(d, id, MarkerFile)
  {
  }

  /** `rollback_transaction`, last entry first. Wherever it stops, the journal still undoes to
      `g`; where it completes, the workspace is `g`. */
  method Rollback(host: Host, id: TxId, j: Journal, ghost g: Files) returns (ok: bool)
    requires host.Valid()
    modifies host
    ensures host.Valid() && host.Onward() && host.lateMarker == old(host.lateMarker)
    ensures host.StopsAtRefusal(ok)
    ensures host.disk.txs.Keys == old(host.disk.txs.Keys)
    ensures old(Journaled(host.disk, id, j, g)) ==>
              && Journaled(host.disk, id, j, g)
              && Held(host.disk, id, MarkerFile) == old(Held(host.disk, id, MarkerFile))
              && host.disk.dirs == old(host.disk.dirs) && Between(old(host.disk.files), host.disk.files, g)
              && (if ok then host.disk.files == g else host.Hit())
  {
    hide Journaled, Keeps, Restored, Held, IsTree, Between;
    ghost var before, sound := host.disk, Journaled(host.disk, id, j, g);
    if sound {
      NothingToRestoreYet(host.disk, id, j, g);
    }
    BetweenSame(before.files, g);
    var i: nat := |j.entries|;
    while i > 0
      invariant i <= |j.entries|
      invariant host.Valid() && host.Onward() && host.lateMarker == old(host.lateMarker)
      invariant host.disk.txs.Keys == before.txs.Keys
      invariant host.StopsAtRefusal(true)
      invariant sound ==>
                  && host.disk.dirs == before.dirs && Between(before.files, host.disk.files, g)
                  && Journaled(host.disk, id, j, g) && RestoredFrom(host.disk, id, j, i)
                  && Held(host.disk, id, MarkerFile) == Held(before, id, MarkerFile)
    {
      i := i - 1;
      ghost var d := host.disk;
      ok := RollbackEntry(host, id, j, i, g);
      if sound {
        BetweenThen(before.files, d.files, host.disk.files, g);
        KeepsMarker(d, host.disk, id, j, i);
      }
      if !ok {
        return;
      }
      if sound {
        NothingToRestoreYet(host.disk, id, j, g);
        RestoredOneMore(d, host.disk, id, j, i);
      }
    }
    if sound {
      AllRestored(host.disk, id, j, g);
    }
    return true;
  }

  lemma NothingToRestoreYet(d: Disk, id: TxId, j: Journal, g: Files)
    requires Journaled(d, id, j, g)
    ensures id in d.txs && RestoredFrom(d, id, j, |j.entries|)
  {
    assert id in d.txs.Keys;
  }

  lemma KeepsMarker(d: Disk, d': Disk, id: TxId, j: Journal, i: nat)
    requires Keeps(d, d', id, j, i)
    ensures Held(d', id, MarkerFile) == Held(d, id, MarkerFile)
  {
  }

  // ---- Commit: journal, stages and original copies ----------------------------------------

  /** The journal is in place and the artifacts of the first `n` changes are written. */
  ghost predicate Staged(d: Disk, id: TxId, plan: seq<Change>, g: Files, n: nat) {
    && d.txs.Keys == {id} && d.files == g && Fits(d, plan)
    && Lookup(d.txs[id], JournalFile) == Some(JournalDoc(JournalFor(id, plan)))
    && (forall a | a in d.txs[id] :: a == JournalFile || ((a.Stage? || a.Original?) && a.index < n))
    && (forall i | 0 <= i < n && i < |plan| && plan[i].replacement.Some? ::
          Lookup(d.txs[id], Stage(i)) == Some(Data(plan[i].replacement.value)))
  }

  /** Up to the first rename of the apply loop, undoing is leaving the workspace alone. */
  lemma StagedIsProgress(d: Disk, id: TxId, plan: seq<Change>, g: Files)
    requires Staged(d, id, plan, g, |plan|)
    ensures Progress(d, id, plan, g, 0, false)
  {
    WrittenJournalsValidate(d, id, plan);
    assert id in d.txs.Keys;
    forall i | 0 <= i < |plan|
      ensures Stands(d, d.txs[id], plan[i], i, g, 0, false)
    {
      assert FitsOne(d, plan[i]);
      assert Backup(i) !in d.txs[id];
    }
  }

  /** A directory with the journal, and nothing but stages and originals beside it, is safe. */
  lemma StagingIsSafe(d: Disk, id: TxId, plan: seq<Change>, g: Files)
    requires d.txs.Keys == {id} && d.files == g && Fits(d, plan)
    requires Lookup(d.txs[id], JournalFile) == Some(JournalDoc(JournalFor(id, plan)))
    requires forall a | a in d.txs[id] :: !a.Backup? && a != MarkerFile
    ensures Safe(d, g)
  {
    var j := JournalFor(id, plan);
    WrittenJournalsValidate(d, id, plan);
    assert id in d.txs.Keys;
    forall i | 0 <= i < |j.entries|
      ensures EntrySafe(d, d.txs[id], j.entries[i], g)
    {
      assert FitsOne(d, plan[i]);
      assert Backup(i) !in d.txs[id];
    }
    JournaledIsSafe(d, id, j, g);
  }

  /** A directory without a journal and without payload is safe. */
  lemma BareDirectoryIsSafe(d: Disk, id: TxId, g: Files)
    requires d.txs.Keys == {id} && d.files == g
    requires forall a | a in d.txs[id] :: a == JournalTemp
    ensures Safe(d, g)
  {
    assert id in d.txs.Keys;
  }

  /** Makes the transaction directory and its journal. */
  method WriteJournal(host: Host, id: TxId, plan: seq<Change>) returns (ok: bool)
    requires host.Valid() && host.disk.txs == map[] && Fits(host.disk, plan)
    modifies host
    ensures host.Valid() && host.Onward() && host.lateMarker == old(host.lateMarker)
    ensures Safe(host.disk, old(host.disk.files)) && host.disk.files == old(host.disk.files)
    ensures host.disk.dirs == old(host.disk.dirs)
    ensures ok ==> Staged(host.disk, id, plan, old(host.disk.files), 0)
    ensures !ok ==> host.Hit()
  {
    hide Fits, IsTree, Safe;
    ghost var start := host.disk;
    SafeWithoutTransactions(start, start.files);
    ok := host.Perform(MakeTx(id));
    if host.disk != start {
      assert host.disk.txs.Keys == {id};
      BareDirectoryIsSafe(host.disk, id, start.files);
    }
    if !ok {
      return;
    }
    ghost var made := host.disk;
    assert made.txs == map[id := map[]];
    FitsTheSame(start, made, plan);
    ok := WriteAtomic(host, id, JournalTemp, JournalFile, JournalDoc(JournalFor(id, plan)));
    JournalWritten(made, host.disk, id, plan, start.files);
  }

  lemma JournalWritten(made: Disk, d: Disk, id: TxId, plan: seq<Change>, g: Files)
    requires made.txs == map[id := map[]] && made.files == g && Fits(made, plan)
    requires OnlyArtifacts(made, d, id, {JournalTemp, JournalFile})
    requires Held(d, id, JournalFile) == None
          || Held(d, id, JournalFile) == Some(JournalDoc(JournalFor(id, plan)))
    ensures Safe(d, g)
    ensures Held(d, id, JournalFile).Some? && Held(d, id, JournalTemp).None? ==> Staged(d, id, plan, g, 0)
  {
    assert id in d.txs.Keys;
    forall a | a in d.txs[id]
      ensures a == JournalTemp || a == JournalFile
    {
      assert Held(d, id, a).Some?;
    }
    FitsTheSame(made, d, plan);
    if Held(d, id, JournalFile).None? {
      BareDirectoryIsSafe(d, id, g);
    } else {
      StagingIsSafe(d, id, plan, g);
    }
  }

  lemma FitsTheSame(d: Disk, d': Disk, plan: seq<Change>)
    requires Fits(d, plan) && d'.files == d.files && d'.dirs == d.dirs
    ensures Fits(d', plan)
  {
    forall i | 0 <= i < |plan|
      ensures FitsOne(d', plan[i])
    {
      assert FitsOne(d, plan[i]);
    }
  }

  lemma StagedWrite(d: Disk, d': Disk, id: TxId, plan: seq<Change>, g: Files, n: nat, name: Artifact)
    requires Staged(d, id, plan, g, n) && n < |plan| && OnlyArtifacts(d, d', id, {name})
    requires (name == Stage(n) || name == Original(n))
    ensures Safe(d', g) && id in d'.txs && d'.files == g && d'.txs.Keys == {id}
    ensures forall a | a in d'.txs[id] :: a == JournalFile || ((a.Stage? || a.Original?) && a.index <= n)
    ensures forall i | 0 <= i < n && plan[i].replacement.Some? ::
              Lookup(d'.txs[id], Stage(i)) == Some(Data(plan[i].replacement.value))
    ensures Fits(d', plan) && Lookup(d'.txs[id], JournalFile) == Some(JournalDoc(JournalFor(id, plan)))
  {
    hide Fits, IsTree;
    assert id in d.txs.Keys && id in d'.txs.Keys;
    FitsTheSame(d, d', plan);
    assert Held(d', id, JournalFile) == Held(d, id, JournalFile);
    forall a | a in d'.txs[id]
      ensures a == JournalFile || ((a.Stage? || a.Original?) && a.index <= n)
    {
      assert a != name ==> Held(d', id, a) == Held(d, id, a);
    }
    forall i | 0 <= i < n && plan[i].replacement.Some?
      ensures Lookup(d'.txs[id], Stage(i)) == Some(Data(plan[i].replacement.value))
    {
      assert Held(d', id, Stage(i)) == Held(d, id, Stage(i));
    }
    StagingIsSafe(d', id, plan, g);
  }

  /** Writes the stages and original copies of all changes. */
  method WriteStages(host: Host, id: TxId, plan: seq<Change>, ghost g: Files) returns (ok: bool)
    requires host.Valid() && Staged(host.disk, id, plan, g, 0)
    modifies host
    ensures host.Valid() && host.Onward() && host.lateMarker == old(host.lateMarker)
    ensures Safe(host.disk, g) && host.disk.files == g && host.disk.dirs == old(host.disk.dirs)
    ensures ok ==> Staged(host.disk, id, plan, g, |plan|)
    ensures !ok ==> host.Hit()
  {
    hide Fits, IsTree, Safe;
    var n := 0;
    while n < |plan|
      invariant n <= |plan|
      invariant host.Valid() && host.Onward() && host.lateMarker == old(host.lateMarker)
      invariant Staged(host.disk, id, plan, g, n) && host.disk.dirs == old(host.disk.dirs)
    {
      ok := WriteStage(host, id, plan, g, n);
      if !ok {
        return;
      }
      n := n + 1;
    }
    StagedIsSafe(host.disk, id, plan, g, n);
    return true;
  }

  lemma StagedIsSafe(d: Disk, id: TxId, plan: seq<Change>, g: Files, n: nat)
    requires Staged(d, id, plan, g, n)
    ensures Safe(d, g)
  {
    assert id in d.txs.Keys;
    StagingIsSafe(d, id, plan, g);
  }

  /** The artifacts of change `n`. */
  method WriteStage(host: Host, id: TxId, plan: seq<Change>, ghost g: Files, n: nat) returns (ok: bool)
    requires host.Valid() && Staged(host.disk, id, plan, g, n) && n < |plan|
    modifies host
    ensures host.Valid() && host.Onward() && host.lateMarker == old(host.lateMarker)
    ensures Safe(host.disk, g) && host.disk.files == g && host.disk.dirs == old(host.disk.dirs)
    ensures ok ==> Staged(host.disk, id, plan, g, n + 1)
    ensures !ok ==> host.Hit()
  {
    hide Fits, IsTree, Safe;
    ghost var d := host.disk;
    assert id in d.txs.Keys;
    StagedIsSafe(d, id, plan, g, n);
    ok := true;
    if plan[n].replacement.Some? {
      ok := WriteNew(host, id, Stage(n), Data(plan[n].replacement.value));
      StagedWrite(d, host.disk, id, plan, g, n, Stage(n));
      if !ok {
        return;
      }
    }
    ghost var mid := host.disk;
    assert mid.txs[id].Keys <= d.txs[id].Keys + {Stage(n)} by {
      forall a | a in mid.txs[id]
        ensures a in d.txs[id].Keys + {Stage(n)}
      {
        assert a != Stage(n) ==> Held(mid, id, a) == Held(d, id, a);
      }
    }
    if plan[n].original.Some? {
      ok := WriteNew(host, id, Original(n), Data(plan[n].original.value));
      StagedTwice(d, mid, host.disk, id, plan, g, n);
    } else {
      StagedTwice(d, mid, host.disk, id, plan, g, n);
    }
  }

  /** Both artifacts of change `n` written, or as far as they were. */
  lemma StagedTwice(d: Disk, mid: Disk, d': Disk, id: TxId, plan: seq<Change>, g: Files, n: nat)
    requires Staged(d, id, plan, g, n) && n < |plan|
    requires OnlyArtifacts(d, mid, id, {Stage(n)}) && OnlyArtifacts(mid, d', id, {Original(n)})
    ensures Safe(d', g) && d'.files == g
    ensures (plan[n].replacement.Some? ==> Held(mid, id, Stage(n)) == Some(Data(plan[n].replacement.value))) ==>
              Staged(d', id, plan, g, n + 1)
  {
    hide Fits, IsTree;
    assert id in d.txs.Keys && id in d'.txs.Keys;
    FitsTheSame(d, d', plan);
    assert Held(d', id, JournalFile) == Held(mid, id, JournalFile) == Held(d, id, JournalFile);
    assert Held(d', id, Stage(n)) == Held(mid, id, Stage(n));
    forall a | a in d'.txs[id]
      ensures a == JournalFile || ((a.Stage? || a.Original?) && a.index <= n)
    {
      assert a != Original(n) ==> Held(d', id, a) == Held(mid, id, a);
      assert a != Stage(n) ==> Held(mid, id, a) == Held(d, id, a);
    }
    forall i | 0 <= i < n && plan[i].replacement.Some?
      ensures Lookup(d'.txs[id], Stage(i)) == Some(Data(plan[i].replacement.value))
    {
      assert Held(d', id, Stage(i)) == Held(mid, id, Stage(i)) == Held(d, id, Stage(i));
    }
    StagingIsSafe(d', id, plan, g);
  }

  // ---- Commit: the renames ----------------------------------------------------------------

  /** Changes the workspace for change `n`: parents, then the file out, then the new one in. */
  method ApplyChange(host: Host, id: TxId, plan: seq<Change>, n: nat, ghost g: Files) returns (ok: bool)
    requires host.Valid() && n < |plan|
    modifies host
    ensures host.Valid() && host.Onward() && host.lateMarker == old(host.lateMarker)
    ensures ok ==> ApplyOne(old(host.disk), id, plan[n], n) == Some(host.disk)
    ensures host.StopsAtRefusal(ok)
    ensures old(Progress(host.disk, id, plan, g, n, false) && !host.down && host.script != []
                && HasParents(host.disk, plan[n].path)) && !Clash(plan) && plan[n].kind == Deleted ==>
              host.script == old(host.script)[1..] && (old(host.script)[0] == Done ==> ok)
    ensures old(Progress(host.disk, id, plan, g, n, false)) && !Clash(plan) ==>
              && Undoable(host.disk, id, plan, g)
              && (ok ==> Progress(host.disk, id, plan, g, n + 1, false) && !BlockedAt(g, plan, n))
              && (!ok ==> host.Hit() || BlockedAt(g, plan, n))
              && (if ok then host.disk.dirs == old(host.disk.dirs) + ParentDirs(plan[n].path)
                  else old(host.disk.dirs) <= host.disk.dirs <= old(host.disk.dirs) + ParentDirs(plan[n].path))
  {
    hide Progress, Clash, BlockedAt, Undoable, Count, Host.Left, OnlyCrashes, Exchanged;
    ghost var sound := Progress(host.disk, id, plan, g, n, false) && !Clash(plan);
    ghost var before := host.disk;
    if sound {
      TargetIsNoDirectory(before, id, plan, g, n);
    }
    ok := CreateParents(host, plan[n].path);
    SomeParents(before.dirs, host.disk.dirs, plan[n].path);
    if sound {
      ParentsMade(before, host.disk, id, plan, g, n);
      BlockedInProgress(before, id, plan, g, n);
    }
    if ok {
      MadeParents(before, host.disk, plan[n].path);
      ok := Exchange(host, id, plan, n, g);
    }
  }

  lemma SomeParents(before: set<Path>, after: set<Path>, p: Path)
    requires forall q | q in after && q !in before :: q < p && 0 < |q|
    ensures after <= before + ParentDirs(p)
  {
    forall q | q in after && q !in before
      ensures q in ParentDirs(p)
    {
      assert q == p[..|q|];
    }
  }

  /** In progress, whether a target is blocked can be seen from the disk. */
  lemma BlockedInProgress(d: Disk, id: TxId, plan: seq<Change>, g: Files, n: nat)
    requires Progress(d, id, plan, g, n, false) && n < |plan|
    ensures BlockedAt(g, plan, n) <==> FileAbove(d.files, plan[n].path)
  {
    ProgressFiles(d, id, plan, g, n);
  }

  /** The two renames of change `n`. */
  method Exchange(host: Host, id: TxId, plan: seq<Change>, n: nat, ghost g: Files) returns (ok: bool)
    requires host.Valid() && n < |plan|
    modifies host
    ensures host.Valid() && host.Onward() && host.lateMarker == old(host.lateMarker)
    ensures host.StopsAtRefusal(ok)
    ensures old(Progress(host.disk, id, plan, g, n, false) && !host.down && host.script != [])
            && plan[n].kind == Deleted ==>
              host.script == old(host.script)[1..] && (old(host.script)[0] == Done ==> ok)
    ensures ok ==> Exchanged(old(host.disk), id, plan[n], n) == Some(host.disk)
    ensures old(Progress(host.disk, id, plan, g, n, false) && HasParents(host.disk, plan[n].path))
            && plan[n].path != [] ==>
              && Undoable(host.disk, id, plan, g)
              && (ok ==> Progress(host.disk, id, plan, g, n + 1, false))
              && (!ok ==> host.Hit())
              && host.disk.dirs == old(host.disk.dirs)
  {
    hide Progress, IsTree, Undoable, Count, Host.Left, OnlyCrashes;
    ghost var sound := Progress(host.disk, id, plan, g, n, false) && HasParents(host.disk, plan[n].path)
              && plan[n].path != [];
    if Progress(host.disk, id, plan, g, n, false) {
      TargetIsNoDirectory(host.disk, id, plan, g, n);
      AdvanceOut(host.disk, id, plan, g, n);
      ProgressIsUndoable(host.disk, id, plan, g, n, false);
    }
    ok := true;
    if Exists(host.disk, plan[n].path) {
      ghost var full := host.disk;
      ok := host.Perform(MoveOut(plan[n].path, id, Backup(n)));
      if sound {
        MovedOutKeepsParents(full, plan[n].path, id, Backup(n));
        TargetIsNoDirectory(full, id, plan, g, n);
        if host.disk != full {
          ProgressIsUndoable(host.disk, id, plan, g, n, true);
        }
      }
      if !ok {
        return;
      }
    }
    if sound {
      ProgressIsUndoable(host.disk, id, plan, g, n, true);
      AdvanceIn(host.disk, id, plan, g, n);
    }
    if plan[n].replacement.Some? {
      ghost var empty := host.disk;
      ok := host.Perform(MoveIn(id, Stage(n), plan[n].path));
      if sound && host.disk != empty {
        ProgressIsUndoable(host.disk, id, plan, g, n + 1, false);
      }
    }
  }

  lemma TargetIsNoDirectory(d: Disk, id: TxId, plan: seq<Change>, g: Files, n: nat)
    requires Progress(d, id, plan, g, n, false) && n < |plan|
    ensures plan[n].path !in d.dirs
    ensures plan[n].kind == Deleted ==> plan[n].original.Some? && plan[n].replacement.None? && Exists(d, plan[n].path)
  {
    assert Stands(d, d.txs[id], plan[n], n, g, n, false);
  }

  /** Moving a target away leaves its ancestors. */
  lemma MovedOutKeepsParents(d: Disk, p: Path, id: TxId, name: Artifact)
    requires HasParents(d, p)
    ensures var next := Exec(d, MoveOut(p, id, name)); next.Some? ==> HasParents(next.value, p)
  {
  }

  /** The journal undoes this disk, and no marker has been written. */
  ghost predicate Undoable(d: Disk, id: TxId, plan: seq<Change>, g: Files) {
    && Journaled(d, id, JournalFor(id, plan), g) && Held(d, id, MarkerFile) == None && Safe(d, g)
    && Between(g, d.files, Updated(g, plan))
  }

  lemma ProgressIsUndoable(d: Disk, id: TxId, plan: seq<Change>, g: Files, n: nat, half: bool)
    requires Progress(d, id, plan, g, n, half)
    ensures Undoable(d, id, plan, g)
  {
    ProgressIsJournaled(d, id, plan, g, n, half);
    ProgressIsBetween(d, id, plan, g, n, half);
  }

  lemma ParentsMade(d: Disk, d': Disk, id: TxId, plan: seq<Change>, g: Files, n: nat)
    requires Progress(d, id, plan, g, n, false) && n < |plan| && !Clash(plan)
    requires d' == d.(dirs := d'.dirs) && d.dirs <= d'.dirs
    requires forall q | q in d'.dirs && q !in d.dirs :: q < plan[n].path && 0 < |q| && !Exists(d, q)
    ensures Progress(d', id, plan, g, n, false) && Undoable(d', id, plan, g)
    ensures plan[n].path != []
  {
    hide Progress, Undoable, Clash;
    forall q | q in d'.dirs && q !in d.dirs
      ensures !Planned(plan, q)
    {
      NewParentsAreNoTargets(d, id, plan, g, n, q);
    }
    AdvanceParents(d, d', id, plan, g, n);
    ProgressIsUndoable(d', id, plan, g, n, false);
    PathsOfProgress(d, id, plan, g, n);
  }

  lemma PathsOfProgress(d: Disk, id: TxId, plan: seq<Change>, g: Files, n: nat)
    requires Progress(d, id, plan, g, n, false) && n < |plan|
    ensures plan[n].path != []
  {
    assert EntryOk(JournalFor(id, plan).entries[n], n);
  }

  /** The apply loop. Wherever it stops, the journal undoes what it did. */
  method ApplyAll(host: Host, id: TxId, plan: seq<Change>, ghost g: Files) returns (ok: bool)
    requires host.Valid()
    modifies host
    ensures host.Valid() && host.Onward() && host.lateMarker == old(host.lateMarker)
    ensures ok ==> Applied(old(host.disk), id, plan, |plan|) == Some(host.disk)
    ensures old(Progress(host.disk, id, plan, g, 0, false)) && !Clash(plan) ==>
              && Undoable(host.disk, id, plan, g)
              && (ok ==> host.disk.files == Updated(g, plan))
              && (ok ==> Held(host.disk, id, MarkerTemp) == None)
              && (ok ==> !Blocked(g, plan))
              && (!ok ==> host.Hit() || Blocked(g, plan))
              && DirsGrown(old(host.disk.dirs), host.disk.dirs, plan, ok)
  {
    hide Progress, Clash, BlockedAt, IsTree, Undoable, Held, ApplyOne, Count, Host.Left, OnlyCrashes, ParentsOf,
        ParentDirs;
    ghost var sound := Progress(host.disk, id, plan, g, 0, false) && !Clash(plan);
    var n := 0;
    assert ParentsOf(plan, 0) == {} by { NoParentsYet(plan); }
    while n < |plan|
      invariant n <= |plan|
      invariant Applied(old(host.disk), id, plan, n) == Some(host.disk)
      invariant host.Valid() && host.Onward() && host.lateMarker == old(host.lateMarker)
      invariant sound ==> Progress(host.disk, id, plan, g, n, false)
      invariant sound ==> forall m | 0 <= m < n :: !BlockedAt(g, plan, m)
      invariant sound ==> host.disk.dirs == old(host.disk.dirs) + ParentsOf(plan, n)
    {
      ParentsOneMore(plan, n);
      ok := ApplyChange(host, id, plan, n, g);
      if !ok {
        return;
      }
      n := n + 1;
    }
    if sound {
      AllInstalled(host.disk, id, plan, g);
      ProgressIsUndoable(host.disk, id, plan, g, n, false);
      NoMarkerYet(host.disk, id, plan, g, n);
    }
    return true;
  }

  /** Directories only appear above targets, and above all of them when the loop completes. */
  ghost predicate DirsGrown(before: set<Path>, after: set<Path>, plan: seq<Change>, all: bool) {
    && before <= after <= before + ParentsOf(plan, |plan|)
    && (all ==> after == before + ParentsOf(plan, |plan|))
  }

  lemma NoMarkerYet(d: Disk, id: TxId, plan: seq<Change>, g: Files, n: nat)
    requires Progress(d, id, plan, g, n, false)
    ensures Held(d, id, MarkerTemp) == None
  {
  }

  // ---- Commit -----------------------------------------------------------------------------

  datatype Report = Report(
    id: TxId, changed: nat, created: nat, replaced: nat, deleted: nat,
    paths: seq<Path>, recovered: nat, cleanupDeferred: bool)

  datatype Failure =
    | RecoveryFailed(reason: RecoveryError)
    | NoOperations | TooManyOperations
    | PreflightFailed(problem: Problem)
    | Interrupted      // before the first rename; the transaction directory stays
    | RolledBack
    | RollbackFailed

  datatype RecoveryError = Io | IncompleteTransaction | InvalidJournal | UnsafeJournal

  /** `cleanup_transaction_dir`. */
  method Cleanup(host: Host, id: TxId) returns (ok: bool)
    requires host.Valid()
    modifies host
    ensures host.Valid() && host.Onward() && host.lateMarker == old(host.lateMarker)
    ensures host.StopsAtRefusal(ok)
    ensures host.disk == old(host.disk)
            || (host.disk == old(host.disk).(txs := host.disk.txs) && host.disk.txs == old(host.disk.txs) - {id})
    ensures ok ==> id !in host.disk.txs
    ensures !ok ==> host.Hit()
    ensures host.down ==> host.disk == old(host.disk)
  {
    if id !in host.disk.txs {
      return true;
    }
    ok := host.Perform(DropTx(id));
  }

  /** What writing the marker does: all of the transaction happens at the one rename. */
  lemma MarkerWritten(d: Disk, d': Disk, id: TxId, plan: seq<Change>, g: Files)
    requires Undoable(d, id, plan, g) && OnlyArtifacts(d, d', id, {MarkerTemp, MarkerFile})
    ensures Journaled(d', id, JournalFor(id, plan), g)
    ensures Held(d', id, MarkerFile) == Some(MarkerDoc(Marker(MARKER_VERSION, id))) ==> Safe(d', d'.files)
    ensures Held(d', id, MarkerFile) == None ==> Undoable(d', id, plan, g)
  {
    var j := JournalFor(id, plan);
    assert id in d.txs.Keys && id in d'.txs.Keys;
    assert Held(d', id, JournalFile) == Held(d, id, JournalFile);
    forall i: nat
      ensures Lookup(d'.txs[id], Backup(i)) == Lookup(d.txs[id], Backup(i))
    {
      assert Held(d', id, Backup(i)) == Held(d, id, Backup(i));
    }
    NeutralStep(d, d', id, j, g);
    if Held(d', id, MarkerFile) == Some(MarkerDoc(Marker(MARKER_VERSION, id))) {
      CommittedIsSafe(d', id, j, d'.files);
    }
    if Held(d', id, MarkerFile) == None {
      JournaledIsSafe(d', id, j, g);
    }
  }

  /** Dropping the directory of a transaction whose undoing would change nothing, or leaving it. */
  lemma CleanedUp(d: Disk, d': Disk, id: TxId, j: Journal, g: Files)
    requires Journaled(d, id, j, g) && d.files == g
    requires d' == d || (d'.files == d.files && d'.txs == d.txs - {id})
    requires Held(d, id, MarkerFile) == None || Held(d, id, MarkerFile) == Some(MarkerDoc(Marker(MARKER_VERSION, id)))
    ensures Safe(d', g) && (id in d'.txs || d'.txs == map[])
  {
    if d' == d {
      assert id in d.txs.Keys;
      if Committed(id, d.txs[id]) {
        CommittedIsSafe(d, id, j, g);
      } else {
        JournaledIsSafe(d, id, j, g);
      }
    } else {
      assert d'.txs.Keys == {};
      assert d'.txs == map[];
    }
  }

  /** Dropping a committed transaction's directory, or leaving it. */
  lemma CleanedUpCommit(d: Disk, d': Disk, id: TxId, g: Files)
    requires Safe(d, g) && d.files == g && d.txs.Keys <= {id}
    requires d' == d || (d'.files == d.files && d'.txs == d.txs - {id})
    ensures Safe(d', g)
  {
    if d' != d {
      assert d'.txs.Keys == {};
      assert d'.txs == map[];
    }
  }

  /** What one commit of `plan` on the workspace `g` may come to. Success means the disk holds the
      whole update. Failure means it holds what it held, except when the in-process rollback itself
      fails: its backups are deleted all the same, unless power is lost, in which case recovery will
      do it - but for a marker whose rename was done and reported an error. That takes two faults
      of the machine in one commit, unless a target is blocked. Without a fault, the commit succeeds
      exactly if no target is blocked. */
  twostate predicate CommitOutcome(host: Host, plan: seq<Change>, g: Files, new r: Result<Report, Failure>)
    reads host
  {
    && (r.Ok? ==> Safe(host.disk, Updated(g, plan)) && host.disk.files == Updated(g, plan))
    && (r.Err? && r.error != RollbackFailed ==> Safe(host.disk, g) && host.disk.files == g)
    && (r == Err(RollbackFailed) && host.down && !host.lateMarker ==> Safe(host.disk, g))
    && (r.Ok? ==> !Blocked(g, plan))
    && (r == Err(RollbackFailed) ==>
          || Safe(host.disk, g)
          || (Safe(host.disk, host.disk.files) && Confined(g, host.disk.files, plan)
              && Between(g, host.disk.files, Updated(g, plan))))
    && (r.Err? && !host.Hit() ==> r.error == RolledBack && host.disk.txs == map[] && Blocked(g, plan))
    && DirsGrown(old(host.disk.dirs), host.disk.dirs, plan, r.Ok?)
    && (r == Err(RollbackFailed) && !Blocked(g, plan) && !old(host.down) && !old(host.lateMarker) ==>
          (host.down && !host.lateMarker) || host.Faults() + 2 <= old(host.Faults()))
  }

  ghost predicate ReportMatches(r: Report, id: TxId, plan: seq<Change>, recovered: nat, d: Disk) {
    && r.id == id && r.recovered == recovered
    && r.changed == |plan| == r.created + r.replaced + r.deleted
    && r.created == CountKind(plan, Created) && r.deleted == CountKind(plan, Deleted)
    && |r.paths| == |plan| && (forall i | 0 <= i < |plan| :: r.paths[i] == plan[i].path)
    && (!r.cleanupDeferred ==> id !in d.txs)
  }

  /** Whatever the targets are, a transaction with its marker written holds the files as they are,
      and those are the update of the patch exactly when nothing was swallowed. */
  lemma CommittedAnyway(staged: Disk, applied: Disk, marked: Disk, id: TxId, plan: seq<Change>, g: Files)
    requires Staged(staged, id, plan, g, |plan|) && IsTree(staged)
    requires Applied(staged, id, plan, |plan|) == Some(applied)
    requires OnlyArtifacts(applied, marked, id, {MarkerTemp, MarkerFile})
    requires Held(marked, id, MarkerFile) == Some(MarkerDoc(Marker(MARKER_VERSION, id)))
    ensures Safe(marked, marked.files) && marked.txs.Keys == {id}
    ensures marked.files == Updated(g, plan) <==> !Swallows(plan, |plan|)
    ensures Confined(g, marked.files, plan) && marked.dirs <= staged.dirs + ParentsOf(plan, |plan|)
    ensures !Swallows(plan, |plan|) ==> marked.dirs == staged.dirs + ParentsOf(plan, |plan|)
  {
    hide IsTree, ApplyOne, Applied, Updated, Swallows, Fits, ParentsOf, Confined;
    assert id in staged.txs.Keys;
    StagedIsProgress(staged, id, plan, g);
    StagedIsGoing(staged, id, plan, g);
    TargetsAreFree(staged, plan);
    AppliedConfined(staged, id, plan, |plan|);
    if !Swallows(plan, |plan|) {
      GoesWithParents(staged, id, plan, g, |plan|);
    }
    AppliedIsUpdateIff(staged, id, plan, g);
    AppliedKeepsJournal(staged, id, plan, |plan|);
    WrittenJournalsValidate(staged, id, plan);
    assert id in applied.txs.Keys && id in marked.txs.Keys;
    assert Held(marked, id, JournalFile) == Held(applied, id, JournalFile);
    CommittedIsSafe(marked, id, JournalFor(id, plan), marked.files);
  }

  lemma TargetsAreFree(d: Disk, plan: seq<Change>)
    requires Fits(d, plan)
    ensures DistinctPaths(plan) && forall k | 0 <= k < |plan| :: plan[k].path !in d.dirs && plan[k].path != []
  {
    assert forall k | 0 <= k < |plan| :: FitsOne(d, plan[k]);
  }

  /** The end of a commit that failed in the apply loop or at the marker: rollback, then cleanup
      whatever came of it. */
  method Abandon(host: Host, id: TxId, journal: Journal, ghost g: Files) returns (rolledBack: bool)
    requires host.Valid()
    modifies host
    ensures host.Valid() && host.Onward() && host.lateMarker == old(host.lateMarker)
    ensures old(Journaled(host.disk, id, journal, g) && MarkerIsOurs(host.disk, id)) ==>
              && (rolledBack ==> Safe(host.disk, g) && host.disk.files == g && (host.Hit() || host.disk.txs == map[]))
              && (!rolledBack ==> host.Hit())
              && host.disk.dirs == old(host.disk.dirs)
              && (!rolledBack && host.down && old(Held(host.disk, id, MarkerFile)) == None ==> Safe(host.disk, g))
              && (Safe(host.disk, g) || (Safe(host.disk, host.disk.files) && OnlyTargets(g, host.disk.files, journal)))
              && Between(old(host.disk.files), host.disk.files, g)
    ensures old(Journaled(host.disk, id, journal, g) && host.script == [Refused] && !host.down
                && host.disk.files != g) ==>
              !rolledBack && host.disk == old(host.disk).(txs := map[])
  {
    hide Safe, Journaled, IsTree, Count, OnlyCrashes, Held, OnlyTargets, Between;
    ghost var sound := Journaled(host.disk, id, journal, g) && MarkerIsOurs(host.disk, id);
    ghost var before := host.disk;
    rolledBack := Rollback(host, id, journal, g);
    ghost var undone := host.disk;
    OneFault();
    var cleaned := Cleanup(host, id);
    if Journaled(before, id, journal, g) {
      JournaledHasDirectory(before, id, journal, g);
      WithoutItsDirectory(before, host.disk, id);
    }
    if sound {
      JournaledHasDirectory(undone, id, journal, g);
      AbandonedIsHeld(undone, host.disk, id, journal, g);
      if rolledBack {
        CleanedUp(undone, host.disk, id, journal, g);
      } else if host.down && Held(before, id, MarkerFile) == None {
        JournaledUnmarkedIsSafe(undone, id, journal, g);
      }
    }
  }

  /** Files that are no targets of the journal are as they were. */
  ghost predicate OnlyTargets(before: Files, after: Files, j: Journal) {
    forall p | !Targets(j, p) :: Lookup(after, p) == Lookup(before, p)
  }

  /** However the rollback ended, the disk holds the old workspace or the files as they are. */
  lemma AbandonedIsHeld(d: Disk, d': Disk, id: TxId, j: Journal, g: Files)
    requires Journaled(d, id, j, g) && MarkerIsOurs(d, id)
    requires d' == d || (d' == d.(txs := d'.txs) && d'.txs == d.txs - {id})
    ensures Safe(d', g) || (Safe(d', d'.files) && OnlyTargets(g, d'.files, j))
  {
    assert id in d.txs.Keys;
    if d' != d {
      assert d'.txs.Keys == {};
      assert d'.txs == map[];
      SafeWithoutTransactions(d', d'.files);
    } else if Held(d, id, MarkerFile) == None {
      JournaledUnmarkedIsSafe(d, id, j, g);
    } else {
      CommittedIsSafe(d, id, j, d.files);
    }
  }

  lemma OneFault()
    ensures forall o :: Count([], o) == 0 && Count([Refused], o) == if o == Refused then 1 else 0
  {
    forall o ensures Count([Refused], o) == if o == Refused then 1 else 0 {
      assert Count([Refused], o) == (if o == Refused then 1 else 0) + Count([Refused][1..], o);
    }
  }

  lemma WithoutItsDirectory(d: Disk, d': Disk, id: TxId)
    requires d.txs.Keys == {id}
    ensures d' == d.(txs := d'.txs) && d'.txs == d.txs - {id} ==> d' == d.(txs := map[])
  {
    assert (d.txs - {id}).Keys == {};
  }

  predicate MarkerIsOurs(d: Disk, id: TxId) {
    Held(d, id, MarkerFile) in {None, Some(MarkerDoc(Marker(MARKER_VERSION, id)))}
  }

  /** The renames and the marker. */
  method ApplyAndMark(host: Host, id: TxId, plan: seq<Change>, ghost g: Files) returns (ok: bool)
    requires host.Valid() && Staged(host.disk, id, plan, g, |plan|)
    modifies host
    ensures host.Valid() && host.Onward()
    ensures ok ==>
              && Safe(host.disk, host.disk.files) && host.disk.txs.Keys == {id}
              && (host.disk.files == Updated(g, plan) <==> !Swallows(plan, |plan|))
              && Confined(g, host.disk.files, plan)
              && host.disk.dirs <= old(host.disk.dirs) + ParentsOf(plan, |plan|)
              && (!Swallows(plan, |plan|) ==> host.disk.dirs == old(host.disk.dirs) + ParentsOf(plan, |plan|))
    ensures !Clash(plan) ==>
              && Journaled(host.disk, id, JournalFor(id, plan), g) && MarkerIsOurs(host.disk, id)
              && (!ok && !host.lateMarker ==> Held(host.disk, id, MarkerFile) == None)
              && (ok ==> !Blocked(g, plan))
              && (!ok ==> host.Hit() || Blocked(g, plan))
              && DirsGrown(old(host.disk.dirs), host.disk.dirs, plan, ok)
              && Between(g, host.disk.files, Updated(g, plan))
    ensures host.down ==> host.lateMarker == old(host.lateMarker)
  {
    hide Safe, IsTree, Clash, Blocked, Updated, Undoable, Journaled, Staged, Progress, OnlyArtifacts, ParentsOf;
    hide Count, Host.Left, OnlyCrashes, Swallows, Applied, Held, Confined, Between;
    ghost var staged, fine := host.disk, !Clash(plan);
    StagedIsProgress(staged, id, plan, g);
    ok := ApplyAll(host, id, plan, g);
    ghost var applied := host.disk;
    if fine {
      UndoableIsJournaled(applied, id, plan, g);
    }
    if !ok {
      return;
    }
    ArtifactsLeaveTree(applied, id, {MarkerTemp, MarkerFile});
    ok := WriteAtomic(host, id, MarkerTemp, MarkerFile, MarkerDoc(Marker(MARKER_VERSION, id)));
    if fine {
      MarkerWritten(applied, host.disk, id, plan, g);
    }
    if ok {
      CommittedAnyway(staged, applied, host.disk, id, plan, g);
    }
  }

  lemma ArtifactsLeaveTree(d: Disk, id: TxId, names: set<Artifact>)
    ensures forall d' :: OnlyArtifacts(d, d', id, names) ==> d'.dirs == d.dirs && d'.files == d.files
  {
  }

  /** `commit_transaction`. The second promise on success holds for every plan, clashing or not. */
  method Commit(host: Host, id: TxId, plan: seq<Change>, recovered: nat) returns (r: Result<Report, Failure>)
    requires host.Valid() && host.disk.txs == map[] && Fits(host.disk, plan)
    modifies host
    ensures host.Valid() && host.Onward()
    ensures !Clash(plan) ==> CommitOutcome(host, plan, old(host.disk.files), r)
    ensures r.Ok? ==> Safe(host.disk, host.disk.files)
    ensures r.Ok? ==> (host.disk.files == Updated(old(host.disk.files), plan) <==> !Swallows(plan, |plan|))
    ensures r.Ok? ==> ReportMatches(r.value, id, plan, recovered, host.disk)
    ensures r.Ok? && r.value.cleanupDeferred ==> host.Hit()
    ensures r.Err? ==> r.error in {Interrupted, RolledBack, RollbackFailed}
    ensures r.Ok? ==>
              && Confined(old(host.disk.files), host.disk.files, plan)
              && host.disk.dirs <= old(host.disk.dirs) + ParentsOf(plan, |plan|)
              && (!Swallows(plan, |plan|) ==> host.disk.dirs == old(host.disk.dirs) + ParentsOf(plan, |plan|))
    ensures r == Err(Interrupted) ==>
              && host.Hit() && Safe(host.disk, old(host.disk.files))
              && host.disk.files == old(host.disk.files) && host.disk.dirs == old(host.disk.dirs)
  {
    hide Safe, IsTree, Fits, Clash, Blocked, Updated, Journaled, Staged, MarkerIsOurs, ParentsOf, Confined,
        OnlyTargets, Between;
    hide Count, Host.Left, OnlyCrashes, Swallows, Held, ReportMatches, Reported;
    ghost var g := host.disk.files;
    var journal := JournalFor(id, plan);
    var ok := WriteJournal(host, id, plan);
    if ok {
      ok := WriteStages(host, id, plan, g);
    }
    if !ok {
      return Err(Interrupted);
    }
    ok := ApplyAndMark(host, id, plan, g);
    if !ok {
      ghost var mid := host.disk;
      var rolledBack := Abandon(host, id, journal, g);
      if !Clash(plan) {
        ThereAndBack(g, mid.files, host.disk.files, Updated(g, plan));
      }
      TargetsAreChanges(id, plan, g, host.disk.files);
      return Err(if rolledBack then RolledBack else RollbackFailed);
    }
    SwallowsIsClash(plan);
    var report := Conclude(host, id, plan, recovered);
    return Ok(report);
  }

  /** The end of a commit that succeeded: its report, and the cleanup, which may be deferred. */
  method Conclude(host: Host, id: TxId, plan: seq<Change>, recovered: nat) returns (report: Report)
    requires host.Valid() && Safe(host.disk, host.disk.files) && host.disk.txs.Keys == {id}
    modifies host
    ensures host.Valid() && host.Onward() && host.lateMarker == old(host.lateMarker)
    ensures host.disk.files == old(host.disk.files) && host.disk.dirs == old(host.disk.dirs)
    ensures Safe(host.disk, host.disk.files) && ReportMatches(report, id, plan, recovered, host.disk)
    ensures report.cleanupDeferred ==> host.Hit()
  {
    hide Safe, ReportMatches, Reported, Count, Host.Left, IsTree;
    ghost var marked := host.disk;
    var ok := Cleanup(host, id);
    CleanedUpCommit(marked, host.disk, id, marked.files);
    ReportIsRight(id, plan, recovered, !ok, host.disk);
    report := Reported(id, plan, recovered, !ok);
  }

  lemma TargetsAreChanges(id: TxId, plan: seq<Change>, before: Files, after: Files)
    ensures OnlyTargets(before, after, JournalFor(id, plan)) <==> Confined(before, after, plan)
  {
    forall p ensures Targets(JournalFor(id, plan), p) <==> Planned(plan, p) {
      TargetsArePlanned(id, plan, p);
    }
  }

  function Reported(id: TxId, plan: seq<Change>, recovered: nat, deferred: bool): Report {
    var paths := seq(|plan|, i requires 0 <= i < |plan| => plan[i].path);
    Report(id, |plan|, CountKind(plan, Created), CountKind(plan, Replaced), CountKind(plan, Deleted),
           paths, recovered, deferred)
  }

  lemma ReportIsRight(id: TxId, plan: seq<Change>, recovered: nat, deferred: bool, d: Disk)
    requires !deferred ==> id !in d.txs
    ensures ReportMatches(Reported(id, plan, recovered, deferred), id, plan, recovered, d)
    ensures Reported(id, plan, recovered, deferred).cleanupDeferred == deferred
  {
    KindsAddUp(plan);
  }

  lemma UndoableIsJournaled(d: Disk, id: TxId, plan: seq<Change>, g: Files)
    requires Undoable(d, id, plan, g)
    ensures Journaled(d, id, JournalFor(id, plan), g) && Held(d, id, MarkerFile) == None && Safe(d, g)
    ensures d.txs.Keys == {id} && id in d.txs && Between(g, d.files, Updated(g, plan))
  {
    assert id in d.txs.Keys;
  }

  lemma JournaledHasDirectory(d: Disk, id: TxId, j: Journal, g: Files)
    requires Journaled(d, id, j, g)
    ensures d.txs.Keys == {id} && id in d.txs
  {
    assert id in d.txs.Keys;
  }

  lemma JournaledUnmarkedIsSafe(d: Disk, id: TxId, j: Journal, g: Files)
    requires Journaled(d, id, j, g) && Held(d, id, MarkerFile) == None
    ensures Safe(d, g)
  {
    assert id in d.txs.Keys;
    JournaledIsSafe(d, id, j, g);
  }
}
