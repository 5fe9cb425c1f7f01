/**
  Links from continued runs to the runs they continue. Each run has at most one parent; its lineage
  is itself and all its ancestors.
 */
module RunLineage {
  import opened Basics

  type Run = nat

  type Links = map<Run, Run>

  /** The run `n` links above `run`. */
  function Up(links: Links, run: Run, n: nat): Option<Run>
    decreases n
  {
    if n == 0 then Some(run)
    else if run in links then Up(links, links[run], n - 1)
    else None
  }

  ghost predicate InLineage(links: Links, run: Run, a: Run) {
    exists n: nat :: Up(links, run, n) == Some(a)
  }

  ghost predicate Ranks(rank: Run -> nat, links: Links) {
    forall c | c in links :: rank(links[c]) < rank(c)
  }

  /** Every parent can be given a smaller rank than its child. */
  ghost predicate Acyclic(links: Links) {
    exists rank: Run -> nat :: Ranks(rank, links)
  }

  /** Walking up from `run` comes to an end. */
  ghost predicate Ends(links: Links, run: Run) {
    exists n: nat :: Up(links, run, n) == None
  }

  lemma {:induction false} WalkEnds(links: Links, rank: Run -> nat, run: Run)
    requires Ranks(rank, links)
    ensures Up(links, run, rank(run) + 1) == None
    decreases rank(run)
  {
    if run in links {
      WalkEnds(links, rank, links[run]);
      NoneStays(links, links[run], rank(links[run]) + 1, rank(run));
    }
  }

  lemma {:induction false} NoneStays(links: Links, run: Run, n: nat, m: nat)
    requires n <= m && Up(links, run, n) == None
    ensures Up(links, run, m) == None
    decreases n
  {
    if n > 0 && run in links {
      NoneStays(links, links[run], n - 1, m - 1);
    }
  }

  /** The number of runs in the lineage of `run`, if the walk ends within `fuel` links. */
  function Height(links: Links, run: Run, fuel: nat): nat
    decreases fuel
  {
    if fuel == 0 || run !in links then 0 else 1 + Height(links, links[run], fuel - 1)
  }

  lemma {:induction false} HeightIsSettled(links: Links, run: Run, n: nat, m: nat)
    requires n <= m && Up(links, run, n) == None
    ensures Height(links, run, n) == Height(links, run, m)
    decreases n
  {
    if run in links {
      HeightIsSettled(links, links[run], n - 1, m - 1);
    }
  }

  ghost function Depth(links: Links, run: Run): nat
    requires Ends(links, run)
  {
    var n: nat :| Up(links, run, n) == None;
    Height(links, run, n)
  }

  lemma DepthIsHeight(links: Links, run: Run, n: nat)
    requires Up(links, run, n) == None
    ensures Ends(links, run) && Depth(links, run) == Height(links, run, n)
  {
    forall m: nat | Up(links, run, m) == None
      ensures Height(links, run, m) == Height(links, run, n)
    {
      if m <= n { HeightIsSettled(links, run, m, n); } else { HeightIsSettled(links, run, n, m); }
    }
  }

  /** The lineage query ends for every run exactly when the links are acyclic. */
  lemma QueryEndsIffAcyclic(links: Links)
    ensures (forall run :: Ends(links, run)) <==> Acyclic(links)
  {
    if Acyclic(links) {
      var rank: Run -> nat :| Ranks(rank, links);
      forall run ensures Ends(links, run) {
        WalkEnds(links, rank, run);
      }
    }
    if forall run :: Ends(links, run) {
      DepthsRank(links);
    }
  }

  lemma DepthsRank(links: Links)
    requires forall run :: Ends(links, run)
    ensures Acyclic(links)
  {
    var rank := map c | c in links.Keys + links.Values :: Depth(links, c);
    var f := (c: Run) => if c in rank then rank[c] else 0;
    forall c | c in links
      ensures f(links[c]) < f(c)
    {
      assert links[c] in links.Values;
      assert Ends(links, c);
      var n: nat :| Up(links, c, n) == None;
      DepthIsHeight(links, c, n);
      DepthIsHeight(links, links[c], n - 1);
    }
    assert Ranks(f, links);
  }

  lemma InLineageOfParent(links: Links, run: Run, a: Run)
    requires run in links
    ensures InLineage(links, run, a) <==> a == run || InLineage(links, links[run], a)
  {
    if InLineage(links, run, a) && a != run {
      var n: nat :| Up(links, run, n) == Some(a);
      assert Up(links, links[run], n - 1) == Some(a);
    }
    if InLineage(links, links[run], a) {
      var n: nat :| Up(links, links[run], n) == Some(a);
      assert Up(links, run, n + 1) == Some(a);
    }
    assert Up(links, run, 0) == Some(run);
  }

  /** The runs are ranked downwards along a lineage. */
  lemma {:induction false} AncestorsRankLower(links: Links, rank: Run -> nat, run: Run, n: nat)
    requires Ranks(rank, links)
    ensures Up(links, run, n).Some? ==> rank(Up(links, run, n).value) + n <= rank(run)
    decreases n
  {
    if n > 0 && run in links {
      AncestorsRankLower(links, rank, links[run], n - 1);
    }
  }

  /** Walking up from `run` meets neither `child` nor, therefore, its new link. */
  lemma {:induction false} WalkUnchanged(links: Links, child: Run, parent: Run, run: Run, n: nat)
    requires forall k: nat | k < n :: Up(links, run, k) != Some(child)
    ensures Up(links[child := parent], run, n) == Up(links, run, n)
    decreases n
  {
    if n > 0 {
      assert Up(links, run, 0) == Some(run);
      if run in links {
        forall k: nat | k < n - 1
          ensures Up(links, links[run], k) != Some(child)
        {
          assert Up(links, run, k + 1) == Up(links, links[run], k);
        }
        WalkUnchanged(links, child, parent, links[run], n - 1);
      }
    }
  }

  /** Linking `child` below `parent`, in place of any link it had, keeps the links acyclic exactly
      when `child` is not in the lineage of `parent`. */
  lemma LinkKeepsAcyclic(links: Links, parent: Run, child: Run)
    requires Acyclic(links)
    ensures Acyclic(links[child := parent]) <==> !InLineage(links, parent, child)
  {
    if InLineage(links, parent, child) {
      LinkMakesCycle(links, parent, child);
    } else {
      LinkIsRanked(links, parent, child);
    }
  }

  lemma FirstMeeting(links: Links, run: Run, a: Run, n: nat) returns (m: nat)
    requires Up(links, run, n) == Some(a)
    ensures m <= n && Up(links, run, m) == Some(a) && forall k: nat | k < m :: Up(links, run, k) != Some(a)
  {
    m := 0;
    while Up(links, run, m) != Some(a)
      decreases n - m
      invariant m <= n && forall k: nat | k < m :: Up(links, run, k) != Some(a)
    {
      m := m + 1;
    }
  }

  lemma LinkMakesCycle(links: Links, parent: Run, child: Run)
    requires InLineage(links, parent, child)
    ensures !Acyclic(links[child := parent])
  {
    var n: nat :| Up(links, parent, n) == Some(child);
    var m := FirstMeeting(links, parent, child, n);
    var after := links[child := parent];
    WalkUnchanged(links, child, parent, parent, m);
    assert Up(after, child, m + 1) == Some(child);
    forall rank: Run -> nat
      ensures !Ranks(rank, after)
    {
      if Ranks(rank, after) {
        AncestorsRankLower(after, rank, child, m + 1);
        assert false;
      }
    }
  }

  lemma LinkIsRanked(links: Links, parent: Run, child: Run)
    requires Acyclic(links) && !InLineage(links, parent, child)
    ensures Acyclic(links[child := parent])
  {
    var after := links[child := parent];
    var rank: Run -> nat :| Ranks(rank, links);
    var below := set c | c in links.Keys + {child} && InLineage(links, c, child);
    var f := (c: Run) => if c in below then rank(c) + rank(parent) + 1 else rank(c);
    assert Up(links, child, 0) == Some(child);
    forall c | c in after
      ensures f(after[c]) < f(c)
    {
      if c != child {
        InLineageOfParent(links, c, child);
        assert links[c] in below ==> c in below;
      }
    }
    assert Ranks(f, after);
  }

  lemma {:induction false} AncestorsAreParents(links: Links, run: Run, n: nat)
    requires n > 0 && Up(links, run, n).Some?
    ensures Up(links, run, n).value in links.Values
    decreases n
  {
    assert links[run] in links.Values;
    if n > 1 {
      AncestorsAreParents(links, links[run], n - 1);
    }
  }

  /** A run that was just started is nobody's parent yet, so it is in no other lineage, and linking it
      to the run it continues always keeps the links acyclic. */
  lemma FreshChildIsSafe(links: Links, parent: Run, child: Run)
    requires Acyclic(links) && child !in links.Values && child != parent
    ensures !InLineage(links, parent, child) && Acyclic(links[child := parent])
  {
    forall n: nat
      ensures Up(links, parent, n) != Some(child)
    {
      if n > 0 && Up(links, parent, n).Some? {
        AncestorsAreParents(links, parent, n);
      }
    }
    LinkKeepsAcyclic(links, parent, child);
  }
}
