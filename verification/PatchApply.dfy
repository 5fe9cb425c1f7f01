/**
  What an apply loop that runs to its end does to the disk, as a function, and when that is the
  update the patch asks for. No assumption is made here on how the targets lie to each other.
 */
module PatchApply {
  import opened Basics
  import opened WorkspaceDisk
  import opened PatchPlan
  import opened PatchJournal
  import opened PatchProgress

  /** All proper ancestors of `p` below the root. */
  function ParentDirs(p: Path): set<Path> {
    set k | 0 < k < |p| :: p[..k]
  }

  function WithParents(d: Disk, p: Path): Disk {
    d.(dirs := d.dirs + ParentDirs(p))
  }

  ghost predicate FileAbove(files: Files, p: Path) {
    exists k | 0 < k < |p| :: p[..k] in files
  }

  /** Some target lies below a file when its turn comes. */
  ghost predicate Blocked(g: Files, plan: seq<Change>) {
    exists n | 0 <= n < |plan| :: BlockedAt(g, plan, n)
  }

  ghost predicate BlockedAt(g: Files, plan: seq<Change>, n: nat)
    requires n < |plan|
  {
    FileAbove(Updated(g, plan[..n]), plan[n].path)
  }

  /** The ancestors of the first `n` targets. */
  function ParentsOf(plan: seq<Change>, n: nat): set<Path> {
    set i, k | 0 <= i < n && i < |plan| && 0 < k < |plan[i].path| :: plan[i].path[..k]
  }

  lemma ParentsOneMore(plan: seq<Change>, n: nat)
    requires n < |plan|
    ensures ParentsOf(plan, n + 1) == ParentsOf(plan, n) + ParentDirs(plan[n].path)
    ensures ParentsOf(plan, n + 1) <= ParentsOf(plan, |plan|)
  {
    forall q
      ensures q in ParentsOf(plan, n + 1) <==> q in ParentsOf(plan, n) || q in ParentDirs(plan[n].path)
    {
      if q in ParentsOf(plan, n + 1) {
        var i, k :| 0 <= i < n + 1 && 0 < k < |plan[i].path| && q == plan[i].path[..k];
        assert i == n ==> q in ParentDirs(plan[n].path);
      }
    }
  }

  /** The two renames of change `c`, number `n`: whatever is at the target moves to the backup. */
  function Exchanged(d: Disk, id: TxId, c: Change, n: nat): Option<Disk> {
    var moved := if Exists(d, c.path) then Exec(d, MoveOut(c.path, id, Backup(n))) else Some(d);
    if moved.None? || c.replacement.None? then moved else Exec(moved.value, MoveIn(id, Stage(n), c.path))
  }

  /** The change carried out. */
  ghost function ApplyOne(d: Disk, id: TxId, c: Change, n: nat): Option<Disk> {
    if FileAbove(d.files, c.path) then None else Exchanged(WithParents(d, c.path), id, c, n)
  }

  /** Making the missing ancestors gives all of them. */
  lemma MadeParents(d: Disk, d': Disk, p: Path)
    requires IsTree(d') && HasParents(d', p) && d' == d.(dirs := d'.dirs) && d.dirs <= d'.dirs
    requires forall q | q in d'.dirs && q !in d.dirs :: q < p && 0 < |q|
    ensures d' == WithParents(d, p) && !FileAbove(d.files, p)
  {
    forall q | q in d'.dirs && q !in d.dirs
      ensures q in ParentDirs(p)
    {
      assert q == p[..|q|];
    }
    assert d'.dirs == d.dirs + ParentDirs(p);
    assert forall k | 0 < k < |p| :: p[..k] in d'.dirs;
    assert d'.files.Keys !! d'.dirs;
  }

  /** The first `n` changes carried out. */
  ghost function Applied(d: Disk, id: TxId, plan: seq<Change>, n: nat): Option<Disk>
    requires n <= |plan|
  {
    if n == 0 then Some(d)
    else
      match Applied(d, id, plan, n - 1)
      case None => None
      case Some(mid) => ApplyOne(mid, id, plan[n - 1], n - 1)
  }

  /** Among the first `n` changes, a file is created at a path below which an earlier one created a
      file: the directory made for the earlier one is moved away like an old file. */
  ghost predicate Swallows(plan: seq<Change>, n: nat) {
    exists i, k | 0 <= i < k < n && n <= |plan| :: Swallowed(plan, i, k)
  }

  predicate Swallowed(plan: seq<Change>, i: nat, k: nat)
    requires i < |plan| && k < |plan|
  {
    plan[i].kind == Created && plan[k].kind == Created && plan[k].path < plan[i].path
  }

  lemma SwallowsIsClash(plan: seq<Change>)
    ensures Swallows(plan, |plan|) ==> Clash(plan)
  {
  }

  // ---- One change --------------------------------------------------------------------------

  lemma WithParentsKeepsTree(d: Disk, p: Path)
    requires IsTree(d) && !FileAbove(d.files, p)
    ensures IsTree(WithParents(d, p))
  {
    var e := WithParents(d, p);
    forall q | Exists(e, q)
      ensures HasParents(e, q)
    {
      if !Exists(d, q) {
        var k :| 0 < k < |p| && q == p[..k];
        forall m | 0 < m < |q| ensures q[..m] in e.dirs {
          assert q[..m] == p[..m];
        }
      } else {
        assert HasParents(d, q);
      }
    }
  }

  lemma ApplyOneKeepsTree(d: Disk, id: TxId, c: Change, n: nat)
    requires IsTree(d) && ApplyOne(d, id, c, n).Some?
    ensures IsTree(ApplyOne(d, id, c, n).value)
  {
    hide IsTree, Exec;
    WithParentsKeepsTree(d, c.path);
    var made := WithParents(d, c.path);
    var out := MoveOut(c.path, id, Backup(n));
    if Exists(made, c.path) {
      ExecKeepsTree(made, out);
    }
    if c.replacement.Some? {
      var moved := if Exists(made, c.path) then Exec(made, out).value else made;
      ExecKeepsTree(moved, MoveIn(id, Stage(n), c.path));
    }
  }

  /** No file appears but the one of the change. */
  lemma ApplyOneAddsOne(d: Disk, id: TxId, c: Change, n: nat)
    requires ApplyOne(d, id, c, n).Some?
    ensures var e := ApplyOne(d, id, c, n).value;
            && e.files.Keys <= d.files.Keys + {c.path}
            && (c.replacement.Some? ==> c.path in e.files)
            && e.txs.Keys == d.txs.Keys
            && (id in d.txs ==>
                  forall a: Artifact | !a.Backup? && !a.Stage? :: Lookup(e.txs[id], a) == Lookup(d.txs[id], a))
  {
  }

  /** A target that is a file, or free, is exchanged for the staged content. */
  lemma ApplyOneInstalls(d: Disk, id: TxId, c: Change, n: nat)
    requires ApplyOne(d, id, c, n).Some? && c.path !in d.dirs && id in d.txs
    requires c.replacement.Some? ==> Lookup(d.txs[id], Stage(n)) == Some(Data(c.replacement.value))
    ensures var e := ApplyOne(d, id, c, n).value;
            && e.files == Install(d.files, c) && e.dirs == d.dirs + ParentDirs(c.path)
            && id in e.txs
            && (forall k: nat | k != n :: Lookup(e.txs[id], Stage(k)) == Lookup(d.txs[id], Stage(k)))
  {
    assert c.path !in ParentDirs(c.path);
  }

  // ---- Without swallowing the result is the update ------------------------------------------

  /** The first `n` changes are in; the targets of the others are as planned. */
  ghost predicate Going(d: Disk, id: TxId, plan: seq<Change>, g: Files, n: nat) {
    && n <= |plan| && IsTree(d) && id in d.txs
    && d.files == Updated(g, plan[..n])
    && (forall k | n <= k < |plan| ::
          && plan[k].path !in d.dirs && Lookup(d.files, plan[k].path) == plan[k].original
          && plan[k].kind == KindOf(plan[k])
          && (plan[k].replacement.Some? ==> Lookup(d.txs[id], Stage(k)) == Some(Data(plan[k].replacement.value))))
  }

  lemma UpdatedOneMore(g: Files, plan: seq<Change>, n: nat)
    requires n < |plan|
    ensures Updated(g, plan[..n + 1]) == Install(Updated(g, plan[..n]), plan[n])
  {
    assert plan[..n + 1][..n] == plan[..n];
  }

  /** No directory is made on a target to come: it would be a swallowing, or it was there, or a file
      is in the way. */
  lemma ParentsMissTargets(d: Disk, id: TxId, plan: seq<Change>, g: Files, n: nat, k: nat)
    requires Going(d, id, plan, g, n) && n < k < |plan| && !Swallows(plan, |plan|)
    requires !FileAbove(d.files, plan[n].path)
    ensures plan[k].path !in ParentDirs(plan[n].path)
  {
    assert !Swallowed(plan, n, k);
    assert plan[n].original.Some? ==> HasParents(d, plan[n].path);
    forall m | 0 < m < |plan[n].path|
      ensures plan[k].path != plan[n].path[..m]
    {
      assert plan[n].path[..m] !in d.files;
    }
  }

  lemma GoesOn(d: Disk, id: TxId, plan: seq<Change>, g: Files, n: nat)
    requires Going(d, id, plan, g, n) && n < |plan| && DistinctPaths(plan) && !Swallows(plan, |plan|)
    requires ApplyOne(d, id, plan[n], n).Some?
    ensures Going(ApplyOne(d, id, plan[n], n).value, id, plan, g, n + 1)
  {
    var e := ApplyOne(d, id, plan[n], n).value;
    ApplyOneKeepsTree(d, id, plan[n], n);
    ApplyOneInstalls(d, id, plan[n], n);
    UpdatedOneMore(g, plan, n);
    forall k | n < k < |plan|
      ensures plan[k].path !in e.dirs && Lookup(e.files, plan[k].path) == plan[k].original
    {
      ParentsMissTargets(d, id, plan, g, n, k);
      assert plan[k].path != plan[n].path;
    }
    hide ApplyOne, IsTree, Swallows, Updated, KindOf, Install;
  }

  lemma {:induction false} GoesToTheEnd(d: Disk, id: TxId, plan: seq<Change>, g: Files, n: nat)
    requires Going(d, id, plan, g, 0) && n <= |plan| && DistinctPaths(plan) && !Swallows(plan, |plan|)
    requires Applied(d, id, plan, n).Some?
    ensures Going(Applied(d, id, plan, n).value, id, plan, g, n)
  {
    hide Going, ApplyOne, Swallows, DistinctPaths;
    if n > 0 {
      GoesToTheEnd(d, id, plan, g, n - 1);
      GoesOn(Applied(d, id, plan, n - 1).value, id, plan, g, n - 1);
    }
  }

  /** And then the directories above the targets are there. */
  lemma {:induction false} GoesWithParents(d: Disk, id: TxId, plan: seq<Change>, g: Files, n: nat)
    requires Going(d, id, plan, g, 0) && n <= |plan| && DistinctPaths(plan) && !Swallows(plan, |plan|)
    requires Applied(d, id, plan, n).Some?
    ensures Applied(d, id, plan, n).value.dirs == d.dirs + ParentsOf(plan, n)
  {
    hide ApplyOne, Swallows, DistinctPaths, IsTree, ParentsOf, ParentDirs, Updated, KindOf;
    if n == 0 {
      assert ParentsOf(plan, 0) == {} by { NoParentsYet(plan); }
    } else {
      GoesWithParents(d, id, plan, g, n - 1);
      GoesToTheEnd(d, id, plan, g, n - 1);
      ApplyOneInstalls(Applied(d, id, plan, n - 1).value, id, plan[n - 1], n - 1);
      ParentsOneMore(plan, n - 1);
    }
  }

  lemma NoParentsYet(plan: seq<Change>)
    ensures ParentsOf(plan, 0) == {}
  {
  }

  // ---- Whatever the plan ---------------------------------------------------------------------

  /** Files that are no targets are as they were. */
  ghost predicate Confined(before: Files, after: Files, plan: seq<Change>) {
    forall p | !Planned(plan, p) :: Lookup(after, p) == Lookup(before, p)
  }

  lemma ApplyOneBelow(d: Disk, id: TxId, c: Change, n: nat, x: Path)
    requires ApplyOne(d, id, c, n).Some? && x != c.path
    ensures var e := ApplyOne(d, id, c, n).value;
            && e.dirs <= d.dirs + ParentDirs(c.path)
            && (Lookup(e.files, x) == Lookup(d.files, x) || (c.path < x && x !in e.files))
  {
  }

  lemma NothingBelowTargets(d: Disk, p: Path, x: Path)
    requires IsTree(d) && p !in d.dirs && p != [] && p < x
    ensures x !in d.files
  {
    assert x[..|p|] == p;
    assert x in d.files ==> HasParents(d, x);
  }

  /** An apply loop touches its targets only, and makes no directories but above them. */
  lemma {:induction false} AppliedConfined(d: Disk, id: TxId, plan: seq<Change>, n: nat)
    requires IsTree(d) && n <= |plan| && Applied(d, id, plan, n).Some?
    requires forall k | 0 <= k < |plan| :: plan[k].path !in d.dirs && plan[k].path != []
    ensures Confined(d.files, Applied(d, id, plan, n).value.files, plan)
    ensures Applied(d, id, plan, n).value.dirs <= d.dirs + ParentsOf(plan, n)
  {
    hide ApplyOne, IsTree, ParentsOf, ParentDirs;
    if n > 0 {
      AppliedConfined(d, id, plan, n - 1);
      var c, mid := plan[n - 1], Applied(d, id, plan, n - 1).value;
      var e := ApplyOne(mid, id, c, n - 1).value;
      ParentsOneMore(plan, n - 1);
      ApplyOneBelow(mid, id, c, n - 1, c.path + [""]);
      forall x | !Planned(plan, x)
        ensures Lookup(e.files, x) == Lookup(d.files, x)
      {
        assert Planned(plan, c.path);
        ApplyOneBelow(mid, id, c, n - 1, x);
        if c.path < x {
          NothingBelowTargets(d, c.path, x);
        }
      }
    }
  }

  // ---- With swallowing it is not -----------------------------------------------------------

  /** A file some earlier change created has been moved away. */
  ghost predicate Lost(d: Disk, plan: seq<Change>, n: nat) {
    exists i | 0 <= i < n && n <= |plan| :: plan[i].kind == Created && plan[i].path !in d.files
  }

  lemma FileHidesBelow(d: Disk, p: Path, q: Path)
    requires IsTree(d) && p in d.files && p < q
    ensures q !in d.files
  {
    assert q[..|p|] == p;
    assert p !in d.dirs by { assert p in d.files.Keys; }
    assert q in d.files ==> HasParents(d, q);
    assert p != [];
  }

  lemma {:induction false} SwallowingLoses(d: Disk, id: TxId, plan: seq<Change>, n: nat)
    requires IsTree(d) && n <= |plan| && DistinctPaths(plan) && Applied(d, id, plan, n).Some?
    requires forall k | 0 <= k < |plan| && plan[k].kind == Created :: plan[k].replacement.Some?
    ensures IsTree(Applied(d, id, plan, n).value)
    ensures Swallows(plan, n) ==> Lost(Applied(d, id, plan, n).value, plan, n)
  {
    hide ApplyOne, IsTree;
    if n > 0 {
      var c, mid := plan[n - 1], Applied(d, id, plan, n - 1).value;
      SwallowingLoses(d, id, plan, n - 1);
      ApplyOneKeepsTree(mid, id, c, n - 1);
      ApplyOneAddsOne(mid, id, c, n - 1);
      var e := ApplyOne(mid, id, c, n - 1).value;
      if Swallows(plan, n) {
        var i, k :| 0 <= i < k < n && Swallowed(plan, i, k);
        if k == n - 1 {
          FileHidesBelow(e, c.path, plan[i].path);
        } else {
          assert Swallows(plan, n - 1);
          var j :| 0 <= j < n - 1 && plan[j].kind == Created && plan[j].path !in mid.files;
          assert plan[j].path != c.path && plan[j].path !in e.files;
        }
      }
    }
  }

  // ---- Both ways ---------------------------------------------------------------------------

  lemma StagedIsGoing(d: Disk, id: TxId, plan: seq<Change>, g: Files)
    requires Progress(d, id, plan, g, 0, false) && IsTree(d) && d.files == g && id in d.txs
    ensures Going(d, id, plan, g, 0)
  {
    forall k | 0 <= k < |plan|
      ensures
        && plan[k].path !in d.dirs && Lookup(d.files, plan[k].path) == plan[k].original
        && plan[k].kind == KindOf(plan[k])
        && (plan[k].replacement.Some? ==> Lookup(d.txs[id], Stage(k)) == Some(Data(plan[k].replacement.value)))
    {
      assert Stands(d, d.txs[id], plan[k], k, g, 0, false);
    }
  }

  /** An apply loop that runs to its end from a staged transaction makes the update of the patch if
      and only if no file is created at a path below which an earlier change created one. */
  lemma AppliedIsUpdateIff(d: Disk, id: TxId, plan: seq<Change>, g: Files)
    requires Progress(d, id, plan, g, 0, false) && IsTree(d) && d.files == g && id in d.txs
    requires Applied(d, id, plan, |plan|).Some?
    ensures Applied(d, id, plan, |plan|).value.files == Updated(g, plan) <==> !Swallows(plan, |plan|)
  {
    var e := Applied(d, id, plan, |plan|).value;
    StagedIsGoing(d, id, plan, g);
    CreatedHasContent(d, id, plan, g);
    if Swallows(plan, |plan|) {
      SwallowingLoses(d, id, plan, |plan|);
      var i :| 0 <= i < |plan| && plan[i].kind == Created && plan[i].path !in e.files;
      UpdatedAt(g, plan);
      assert Lookup(Updated(g, plan), plan[i].path) == plan[i].replacement;
    } else {
      GoesToTheEnd(d, id, plan, g, |plan|);
      assert plan[..|plan|] == plan;
    }
  }

  lemma CreatedHasContent(d: Disk, id: TxId, plan: seq<Change>, g: Files)
    requires Progress(d, id, plan, g, 0, false)
    ensures DistinctPaths(plan)
    ensures forall k | 0 <= k < |plan| && plan[k].kind == Created :: plan[k].replacement.Some?
  {
    forall k | 0 <= k < |plan| && plan[k].kind == Created
      ensures plan[k].replacement.Some?
    {
      assert Stands(d, d.txs[id], plan[k], k, g, 0, false);
    }
  }

  /** The loop touches no metadata of the transaction. */
  lemma {:induction false} AppliedKeepsJournal(d: Disk, id: TxId, plan: seq<Change>, n: nat)
    requires n <= |plan| && id in d.txs && Applied(d, id, plan, n).Some?
    ensures var e := Applied(d, id, plan, n).value;
            && e.txs.Keys == d.txs.Keys
            && forall a: Artifact | !a.Backup? && !a.Stage? :: Lookup(e.txs[id], a) == Lookup(d.txs[id], a)
  {
    hide ApplyOne;
    if n > 0 {
      AppliedKeepsJournal(d, id, plan, n - 1);
      var mid := Applied(d, id, plan, n - 1).value;
      assert id in mid.txs.Keys;
      ApplyOneAddsOne(mid, id, plan[n - 1], n - 1);
    }
  }
}
