/**
  The rollback journal: what a transaction directory must contain so that an interrupted
  transaction can be undone, and the invariant `Safe` that ties a disk to the workspace it
  logically holds, that is, to the files a completed recovery leaves.
 */
module PatchJournal {
  import opened Basics
  import opened WorkspaceDisk
  import opened PatchPlan

  const JOURNAL_VERSION: nat := 2
  const MARKER_VERSION: nat := 1

  /** What `validate_journal` demands of the journal found in the directory of `id`. */
  ghost predicate JournalOk(id: TxId, j: Journal) {
    && 1 <= j.version <= JOURNAL_VERSION
    && 1 <= |j.entries| <= MAX_OPERATIONS
    && j.id == id
    && (forall i | 0 <= i < |j.entries| :: EntryOk(j.entries[i], i))
    && (forall i, k | 0 <= i < k < |j.entries| :: j.entries[i].path != j.entries[k].path)
  }

  predicate EntryOk(e: JournalEntry, i: nat) {
    ValidPath(e.path) && e.backup == Backup(i) && e.staged == Stage(i)
  }

  /** The journal `commit_transaction` writes. */
  function JournalFor(id: TxId, plan: seq<Change>): (j: Journal)
    ensures |j.entries| == |plan|
    ensures forall i | 0 <= i < |plan| ::
              j.entries[i] == JournalEntry(plan[i].path, plan[i].original.Some?, Backup(i), Stage(i))
  {
    Journal(JOURNAL_VERSION, id,
            seq(|plan|, i requires 0 <= i < |plan| =>
                JournalEntry(plan[i].path, plan[i].original.Some?, Backup(i), Stage(i))))
  }

  /** Every journal a commit writes passes the validation recovery puts it through. */
  lemma WrittenJournalsValidate(d: Disk, id: TxId, plan: seq<Change>)
    requires Fits(d, plan)
    ensures JournalOk(id, JournalFor(id, plan))
  {
    var j := JournalFor(id, plan);
    forall i | 0 <= i < |j.entries|
      ensures EntryOk(j.entries[i], i)
    {
      assert FitsOne(d, plan[i]);
    }
  }

  /** `transaction_dir_has_payload`. */
  predicate HasPayload(dir: TxDir) {
    exists name | name in dir :: name.Backup? || name.Original? || name.Stage? || name == MarkerFile
  }

  /** `committed_marker_matches`. */
  predicate Committed(id: TxId, dir: TxDir) {
    Lookup(dir, MarkerFile) == Some(MarkerDoc(Marker(MARKER_VERSION, id)))
  }

  ghost predicate Targets(j: Journal, p: Path) {
    exists i | 0 <= i < |j.entries| :: j.entries[i].path == p
  }

  /** What makes one entry undoable. An entry whose file existed is either untouched or has its
      original in the backup; the `.original` copy is never needed. */
  ghost predicate EntrySafe(d: Disk, dir: TxDir, e: JournalEntry, g: Files) {
    && e.path !in d.dirs
    && if e.originalExisted then
         && e.path in g && HasParents(d, e.path)
         && if e.backup in dir then dir[e.backup] == Data(g[e.path])
            else Lookup(d.files, e.path) == Some(g[e.path])
       else e.path !in g
  }

  /** Transaction `id` with journal `j` is the only one, and undoing it gives `g`. */
  ghost predicate Journaled(d: Disk, id: TxId, j: Journal, g: Files) {
    && d.txs.Keys == {id}
    && Lookup(d.txs[id], JournalFile) == Some(JournalDoc(j))
    && JournalOk(id, j)
    && (forall i | 0 <= i < |j.entries| :: EntrySafe(d, d.txs[id], j.entries[i], g))
    && (forall p | !Targets(j, p) :: Lookup(d.files, p) == Lookup(g, p))
  }

  ghost predicate TxSafe(d: Disk, id: TxId, g: Files)
    requires id in d.txs
  {
    var dir := d.txs[id];
    if JournalFile !in dir then !HasPayload(dir) && d.files == g
    else
      && dir[JournalFile].JournalDoc?
      && var j := dir[JournalFile].journal;
      JournalOk(id, j) && if Committed(id, dir) then d.files == g else Journaled(d, id, j, g)
  }

  /** The disk logically holds the workspace `g`: a completed recovery leaves exactly `g`. */
  ghost predicate Safe(d: Disk, g: Files) {
    && (d.txs == map[] ==> d.files == g)
    && (forall id | id in d.txs :: d.txs.Keys == {id} && TxSafe(d, id, g))
  }

  lemma SafeWithoutTransactions(d: Disk, g: Files)
    requires d.txs == map[]
    ensures Safe(d, g) <==> d.files == g
  {
  }

  lemma JournaledIsSafe(d: Disk, id: TxId, j: Journal, g: Files)
    requires Journaled(d, id, j, g) && !Committed(id, d.txs[id])
    ensures Safe(d, g)
  {
    assert id in d.txs.Keys;
  }

  lemma CommittedIsSafe(d: Disk, id: TxId, j: Journal, g: Files)
    requires d.txs.Keys == {id} && Lookup(d.txs[id], JournalFile) == Some(JournalDoc(j)) && JournalOk(id, j)
    requires Committed(id, d.txs[id]) && d.files == g
    ensures Safe(d, g)
  {
    assert id in d.txs.Keys;
  }

  // ---- Steps that keep the journal sound --------------------------------------------------

  /** Steps outside the entries: new directories off the targets, other artifacts. */
  lemma NeutralStep(d: Disk, d': Disk, id: TxId, j: Journal, g: Files)
    requires Journaled(d, id, j, g)
    requires d'.txs.Keys == {id} && d'.files == d.files && d.dirs <= d'.dirs
    requires forall p | p in d'.dirs && p !in d.dirs :: !Targets(j, p)
    requires Lookup(d'.txs[id], JournalFile) == Lookup(d.txs[id], JournalFile)
    requires forall i: nat :: Lookup(d'.txs[id], Backup(i)) == Lookup(d.txs[id], Backup(i))
    ensures Journaled(d', id, j, g)
  {
    forall i | 0 <= i < |j.entries|
      ensures EntrySafe(d', d'.txs[id], j.entries[i], g)
    {
      var e := j.entries[i];
      assert EntryOk(e, i) && EntrySafe(d, d.txs[id], e, g);
      assert Lookup(d'.txs[id], Backup(i)) == Lookup(d.txs[id], Backup(i));
      assert Targets(j, e.path);
    }
  }

  /** Each file of `b` is as in `a` or as in `g`; some may be missing. */
  ghost predicate Between(a: Files, b: Files, g: Files) {
    forall p :: Lookup(b, p) in {None, Lookup(a, p), Lookup(g, p)}
  }

  lemma BetweenSame(a: Files, g: Files)
    ensures Between(a, a, g) && Between(a, g, g)
  {
  }

  lemma BetweenThen(a: Files, b: Files, c: Files, g: Files)
    requires Between(a, b, g) && Between(b, c, g)
    ensures Between(a, c, g)
  {
    forall p ensures Lookup(c, p) in {None, Lookup(a, p), Lookup(g, p)} {
      assert Lookup(b, p) in {None, Lookup(a, p), Lookup(g, p)};
    }
  }

  /** Going from `g` towards `m` and back towards `g` stays between the two. */
  lemma ThereAndBack(g: Files, mid: Files, after: Files, m: Files)
    requires Between(g, mid, m) && Between(mid, after, g)
    ensures Between(g, after, m)
  {
    forall p ensures Lookup(after, p) in {None, Lookup(g, p), Lookup(m, p)} {
      assert Lookup(mid, p) in {None, Lookup(g, p), Lookup(m, p)};
    }
  }

  /** Entry `i` needs no more undoing. */
  ghost predicate Restored(d: Disk, dir: TxDir, e: JournalEntry) {
    if e.originalExisted then e.backup !in dir else e.path !in d.files
  }

  /** Nothing but the file and the backup of entry `i` changes. */
  ghost predicate OnlyEntry(d: Disk, d': Disk, id: TxId, e: JournalEntry)
    requires id in d.txs
  {
    && d'.dirs == d.dirs && d'.txs.Keys == d.txs.Keys
    && (forall p | p != e.path :: Lookup(d'.files, p) == Lookup(d.files, p))
    && (forall a | a != e.backup && !a.Stage? :: Lookup(d'.txs[id], a) == Lookup(d.txs[id], a))
  }

  /** A step on entry `i` that leaves it undoable leaves everything undoable. */
  lemma EntryStep(d: Disk, d': Disk, id: TxId, j: Journal, i: nat, g: Files)
    requires Journaled(d, id, j, g) && i < |j.entries|
    requires OnlyEntry(d, d', id, j.entries[i])
    requires EntrySafe(d', d'.txs[id], j.entries[i], g)
    ensures Journaled(d', id, j, g)
    ensures forall k | 0 <= k < |j.entries| && k != i && Restored(d, d.txs[id], j.entries[k]) ::
              Restored(d', d'.txs[id], j.entries[k])
  {
    var e := j.entries[i];
    assert EntryOk(e, i);
    forall k | 0 <= k < |j.entries| && k != i
      ensures EntrySafe(d', d'.txs[id], j.entries[k], g)
      ensures Restored(d, d.txs[id], j.entries[k]) ==> Restored(d', d'.txs[id], j.entries[k])
    {
      OtherEntry(d, d', id, j, i, k, g);
    }
    forall p | !Targets(j, p)
      ensures Lookup(d'.files, p) == Lookup(g, p)
    {
      assert p != e.path;
    }
  }

  lemma OtherEntry(d: Disk, d': Disk, id: TxId, j: Journal, i: nat, k: nat, g: Files)
    requires Journaled(d, id, j, g) && i < |j.entries| && k < |j.entries| && i != k
    requires OnlyEntry(d, d', id, j.entries[i])
    ensures EntrySafe(d', d'.txs[id], j.entries[k], g)
    ensures Restored(d, d.txs[id], j.entries[k]) ==> Restored(d', d'.txs[id], j.entries[k])
  {
    var e, f := j.entries[i], j.entries[k];
    assert EntryOk(e, i) && EntryOk(f, k) && EntrySafe(d, d.txs[id], f, g);
    assert e.path != f.path;
    assert Lookup(d'.files, f.path) == Lookup(d.files, f.path);
    assert Lookup(d'.txs[id], f.backup) == Lookup(d.txs[id], f.backup);
  }

  /** When every entry is restored, the workspace is back. */
  lemma AllRestored(d: Disk, id: TxId, j: Journal, g: Files)
    requires Journaled(d, id, j, g)
    requires forall i | 0 <= i < |j.entries| :: Restored(d, d.txs[id], j.entries[i])
    ensures d.files == g
  {
    forall p
      ensures Lookup(d.files, p) == Lookup(g, p)
    {
      if Targets(j, p) {
        var i :| 0 <= i < |j.entries| && j.entries[i].path == p;
        assert EntrySafe(d, d.txs[id], j.entries[i], g) && Restored(d, d.txs[id], j.entries[i]);
      }
    }
    SameLookups(d.files, g);
  }
}
