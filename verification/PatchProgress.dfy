/**
  How far a commit has come: which changes are in the workspace, which one is between its two
  renames, and which are still only staged. Every such disk can be undone.
 */
module PatchProgress {
  import opened Basics
  import opened WorkspaceDisk
  import opened PatchPlan
  import opened PatchJournal

  /** Change `c`, number `i`, as it stands while changes up to `n` are in and, with `half`, change
      `n` has had its file moved away but not replaced. */
  ghost predicate Stands(d: Disk, dir: TxDir, c: Change, i: nat, g: Files, n: nat, half: bool) {
    && c.path !in d.dirs
    && Lookup(g, c.path) == c.original
    && (c.original.None? ==> c.replacement.Some?) && c.kind == KindOf(c)
    && (c.original.Some? ==> HasParents(d, c.path))
    && (i < n ==> Lookup(d.files, c.path) == c.replacement)
    && (i == n && half ==> c.path !in d.files)
    && (i > n || (i == n && !half) ==> Lookup(d.files, c.path) == c.original && Backup(i) !in dir)
    && (i < n || (i == n && half) ==>
          (c.original.Some? ==> Lookup(dir, Backup(i)) == Some(Data(c.original.value))))
    && (i >= n && c.replacement.Some? ==> Lookup(dir, Stage(i)) == Some(Data(c.replacement.value)))
  }

  ghost predicate Planned(plan: seq<Change>, p: Path) {
    exists i | 0 <= i < |plan| :: plan[i].path == p
  }

  ghost predicate Progress(d: Disk, id: TxId, plan: seq<Change>, g: Files, n: nat, half: bool) {
    && d.txs.Keys == {id}
    && Lookup(d.txs[id], JournalFile) == Some(JournalDoc(JournalFor(id, plan)))
    && JournalOk(id, JournalFor(id, plan))
    && MarkerFile !in d.txs[id] && MarkerTemp !in d.txs[id]
    && DistinctPaths(plan)
    && (forall i | 0 <= i < |plan| :: Stands(d, d.txs[id], plan[i], i, g, n, half))
    && (forall p | !Planned(plan, p) :: Lookup(d.files, p) == Lookup(g, p))
  }

  lemma TargetsArePlanned(id: TxId, plan: seq<Change>, p: Path)
    ensures Targets(JournalFor(id, plan), p) <==> Planned(plan, p)
  {
    var j := JournalFor(id, plan);
    if Targets(j, p) {
      var i :| 0 <= i < |j.entries| && j.entries[i].path == p;
      assert plan[i].path == p;
    }
    if Planned(plan, p) {
      var i :| 0 <= i < |plan| && plan[i].path == p;
      assert j.entries[i].path == p;
    }
  }

  /** However far a commit has come, it can be undone. */
  lemma ProgressIsJournaled(d: Disk, id: TxId, plan: seq<Change>, g: Files, n: nat, half: bool)
    requires Progress(d, id, plan, g, n, half)
    ensures Journaled(d, id, JournalFor(id, plan), g)
    ensures !Committed(id, d.txs[id]) && Safe(d, g)
  {
    var j := JournalFor(id, plan);
    forall i | 0 <= i < |j.entries|
      ensures EntrySafe(d, d.txs[id], j.entries[i], g)
    {
      assert Stands(d, d.txs[id], plan[i], i, g, n, half);
    }
    forall p | !Targets(j, p)
      ensures Lookup(d.files, p) == Lookup(g, p)
    {
      TargetsArePlanned(id, plan, p);
    }
    JournaledIsSafe(d, id, j, g);
  }

  /** Nothing of the plan moves but change `n` and its artifacts. */
  ghost predicate OnlyChange(d: Disk, d': Disk, id: TxId, plan: seq<Change>, n: nat)
    requires id in d.txs && n < |plan|
  {
    && d'.txs.Keys == d.txs.Keys
    && d.dirs <= d'.dirs && (forall p | p in d'.dirs && p !in d.dirs :: !Planned(plan, p))
    && (forall p | p != plan[n].path :: Lookup(d'.files, p) == Lookup(d.files, p))
    && (forall a | a != Backup(n) && a != Stage(n) :: Lookup(d'.txs[id], a) == Lookup(d.txs[id], a))
  }

  /** Moving change `n` on moves the whole commit on. */
  lemma Advance(d: Disk, d': Disk, id: TxId, plan: seq<Change>, g: Files, n: nat, half: bool, n': nat, half': bool)
    requires Progress(d, id, plan, g, n, half) && n < |plan|
    requires (n' == n && half ==> half') && (n' == n || (n' == n + 1 && !half'))
    requires OnlyChange(d, d', id, plan, n)
    requires Stands(d', d'.txs[id], plan[n], n, g, n', half')
    ensures Progress(d', id, plan, g, n', half')
  {
    forall i | 0 <= i < |plan|
      ensures Stands(d', d'.txs[id], plan[i], i, g, n', half')
    {
      assert Stands(d, d.txs[id], plan[i], i, g, n, half);
      if i != n {
        assert plan[i].path != plan[n].path;
        assert Planned(plan, plan[i].path);
        assert Lookup(d'.files, plan[i].path) == Lookup(d.files, plan[i].path);
        assert Lookup(d'.txs[id], Backup(i)) == Lookup(d.txs[id], Backup(i));
        assert Lookup(d'.txs[id], Stage(i)) == Lookup(d.txs[id], Stage(i));
      }
    }
    forall p | !Planned(plan, p)
      ensures Lookup(d'.files, p) == Lookup(g, p)
    {
      assert Planned(plan, plan[n].path);
    }
    assert Lookup(d'.txs[id], JournalFile) == Lookup(d.txs[id], JournalFile);
    assert Lookup(d'.txs[id], MarkerFile) == Lookup(d.txs[id], MarkerFile);
    assert Lookup(d'.txs[id], MarkerTemp) == Lookup(d.txs[id], MarkerTemp);
  }

  /** New directories off the targets change nothing. */
  lemma AdvanceParents(d: Disk, d': Disk, id: TxId, plan: seq<Change>, g: Files, n: nat)
    requires Progress(d, id, plan, g, n, false) && n < |plan|
    requires d' == d.(dirs := d'.dirs) && d.dirs <= d'.dirs
    requires forall p | p in d'.dirs && p !in d.dirs :: !Planned(plan, p)
    ensures Progress(d', id, plan, g, n, false)
  {
    assert Stands(d, d.txs[id], plan[n], n, g, n, false);
    assert Planned(plan, plan[n].path);
    Advance(d, d', id, plan, g, n, false, n, false);
  }

  /** The first rename, if there is a file to move away. */
  lemma AdvanceOut(d: Disk, id: TxId, plan: seq<Change>, g: Files, n: nat)
    requires Progress(d, id, plan, g, n, false) && n < |plan|
    ensures Exists(d, plan[n].path) <==> plan[n].original.Some?
    ensures if plan[n].original.None? then Progress(d, id, plan, g, n, true)
            else
              var next := Exec(d, MoveOut(plan[n].path, id, Backup(n)));
              next.Some? && Progress(next.value, id, plan, g, n, true)
  {
    assert Stands(d, d.txs[id], plan[n], n, g, n, false);
    if plan[n].original.None? {
      Advance(d, d, id, plan, g, n, false, n, true);
    } else {
      Advance(d, Exec(d, MoveOut(plan[n].path, id, Backup(n))).value, id, plan, g, n, false, n, true);
    }
  }

  /** The second rename, if there is a replacement to move in. */
  lemma AdvanceIn(d: Disk, id: TxId, plan: seq<Change>, g: Files, n: nat)
    requires Progress(d, id, plan, g, n, true) && n < |plan|
    requires plan[n].replacement.Some? ==> plan[n].path != [] && HasParents(d, plan[n].path)
    ensures if plan[n].replacement.None? then Progress(d, id, plan, g, n + 1, false)
            else
              var next := Exec(d, MoveIn(id, Stage(n), plan[n].path));
              next.Some? && Progress(next.value, id, plan, g, n + 1, false)
  {
    if plan[n].replacement.None? {
      assert Stands(d, d.txs[id], plan[n], n, g, n, true);
      Advance(d, d, id, plan, g, n, true, n + 1, false);
    } else {
      MovedIn(d, id, plan, g, n);
      hide Progress, Stands, OnlyChange, HasParents;
      Advance(d, Exec(d, MoveIn(id, Stage(n), plan[n].path)).value, id, plan, g, n, true, n + 1, false);
    }
  }

  lemma MovedIn(d: Disk, id: TxId, plan: seq<Change>, g: Files, n: nat)
    requires Progress(d, id, plan, g, n, true) && n < |plan| && plan[n].replacement.Some?
    requires plan[n].path != [] && HasParents(d, plan[n].path)
    ensures id in d.txs
    ensures var next := Exec(d, MoveIn(id, Stage(n), plan[n].path));
            && next.Some? && OnlyChange(d, next.value, id, plan, n)
            && id in next.value.txs && Stands(next.value, next.value.txs[id], plan[n], n, g, n + 1, false)
  {
    assert id in d.txs.Keys;
    assert Stands(d, d.txs[id], plan[n], n, g, n, true);
  }

  /** With every change in, the workspace is the simultaneous update. */
  lemma AllInstalled(d: Disk, id: TxId, plan: seq<Change>, g: Files)
    requires Progress(d, id, plan, g, |plan|, false)
    ensures d.files == Updated(g, plan)
  {
    forall i | 0 <= i < |plan|
      ensures Lookup(d.files, plan[i].path) == plan[i].replacement
    {
      assert Stands(d, d.txs[id], plan[i], i, g, |plan|, false);
    }
    forall p | (forall i | 0 <= i < |plan| :: plan[i].path != p)
      ensures Lookup(d.files, p) == Lookup(g, p)
    {
      assert !Planned(plan, p);
    }
    UpdatedIsUnique(g, plan, d.files);
  }

  /** However far a commit has come, every file is the old one, the new one, or away. */
  lemma ProgressIsBetween(d: Disk, id: TxId, plan: seq<Change>, g: Files, n: nat, half: bool)
    requires Progress(d, id, plan, g, n, half)
    ensures Between(g, d.files, Updated(g, plan))
  {
    UpdatedAt(g, plan);
    forall p ensures Lookup(d.files, p) in {None, Lookup(g, p), Lookup(Updated(g, plan), p)} {
      if Planned(plan, p) {
        var i :| 0 <= i < |plan| && plan[i].path == p;
        assert Stands(d, d.txs[id], plan[i], i, g, n, half);
      }
    }
  }

  /** With `n` changes in, the files are the update of those. */
  lemma ProgressFiles(d: Disk, id: TxId, plan: seq<Change>, g: Files, n: nat)
    requires Progress(d, id, plan, g, n, false) && n <= |plan|
    ensures d.files == Updated(g, plan[..n])
  {
    var some := plan[..n];
    forall i | 0 <= i < |some|
      ensures Lookup(d.files, some[i].path) == some[i].replacement
    {
      assert Stands(d, d.txs[id], plan[i], i, g, n, false);
    }
    forall p | (forall i | 0 <= i < |some| :: some[i].path != p)
      ensures Lookup(d.files, p) == Lookup(g, p)
    {
      assert forall i | 0 <= i < n :: some[i].path == plan[i].path;
      if Planned(plan, p) {
        var i :| 0 <= i < |plan| && plan[i].path == p;
        assert Stands(d, d.txs[id], plan[i], i, g, n, false);
      }
    }
    UpdatedIsUnique(g, some, d.files);
  }

  // ---- Paths that get in each other's way -------------------------------------------------

  /** Two changes that break the protocol: a file deleted before something is created below it,
      or something created below a path before a file is created at that path. */
  ghost predicate Clash(plan: seq<Change>) {
    exists i, k | 0 <= i < k < |plan| ::
      || (plan[i].kind == Deleted && plan[i].path < plan[k].path)
      || (plan[i].kind == Created && plan[k].kind == Created && plan[k].path < plan[i].path)
  }

  /** Without a clash, no directory made on the way to target `n` is a target itself. */
  lemma NewParentsAreNoTargets(d: Disk, id: TxId, plan: seq<Change>, g: Files, n: nat, q: Path)
    requires Progress(d, id, plan, g, n, false) && n < |plan| && !Clash(plan)
    requires q < plan[n].path && 0 < |q| && !Exists(d, q)
    ensures !Planned(plan, q)
  {
    assert Stands(d, d.txs[id], plan[n], n, g, n, false);
    assert plan[n].path[..|q|] == q;
    forall k | 0 <= k < |plan|
      ensures plan[k].path != q
    {
      assert Stands(d, d.txs[id], plan[k], k, g, n, false);
    }
  }
}
