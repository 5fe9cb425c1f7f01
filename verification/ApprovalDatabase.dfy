/**
  The calls that request, decide and consume approvals, each a short sequence of statements on the
  database, any of which may fail.
 */
module ApprovalDatabase {
  import opened Basics
  import opened RunLineage
  import opened ApprovalLedger

  datatype Error = Broken | InvalidDecision | NotPending | NotFound

  class Database {
    const breaks: nat -> bool
    var tick: nat
    var store: Store
    ghost var stmts: seq<Statement>  // every statement that took effect, ...
    ghost var stores: seq<Store>     // ... and the store before and after each

    constructor (breaks: nat -> bool)
      ensures Valid() && store == EMPTY && stmts == [] && this.breaks == breaks && tick == 0
    {
      this.breaks := breaks;
      tick, store, stmts, stores := 0, EMPTY, [], [EMPTY];
    }

    /** The store is what the recorded history led to. */
    ghost predicate Valid()
      reads this
    {
      IsHistory(stmts, stores) && stores[|stmts|] == store
    }

    /** How often an approval of this action was consumed so far, by any run. */
    ghost function Uses(action: string): nat
      reads this
      requires Valid()
    {
      CountMoves(stmts, stores, |stmts|, action, Consumed)
    }

    /** How often a user approved this action so far. */
    ghost function Approvals(action: string): nat
      reads this
      requires Valid()
    {
      CountMoves(stmts, stores, |stmts|, action, Approved)
    }

    /** No statement is going to fail. */
    ghost predicate Unbroken()
      reads this
    {
      forall t: nat | tick <= t :: !breaks(t)
    }

    /** One statement: it takes effect as a whole or not at all. */
    method Execute(stmt: Statement) returns (ok: bool)
      requires Valid() && Enabled(store, stmt)
      modifies this
      ensures old(Unbroken()) ==> ok && Unbroken()
      ensures Valid() && Inv(store)
      ensures store == (if ok then After(old(store), stmt) else old(store))
      ensures stmts == if ok then old(stmts) + [stmt] else old(stmts)
      ensures forall action :: Uses(action) ==
                old(Uses(action)) + if ok && MovesRow(old(store).approvals, stmt, action, Consumed) then 1 else 0
      ensures forall action :: Approvals(action) ==
                old(Approvals(action)) + if ok && MovesRow(old(store).approvals, stmt, action, Approved) then 1 else 0
    {
      hide After, Enabled, Inv, IsHistory, CountMoves, MovesRow;
      HistoryOneMore(stmts, stores, stmt);
      HistoryShape(stmts, stores);
      ghost var stmts', stores' := stmts + [stmt], stores + [After(store, stmt)];
      forall action, to
        ensures CountMoves(stmts', stores', |stmts'|, action, to) ==
                CountMoves(stmts, stores, |stmts|, action, to)
                    + if MovesRow(store.approvals, stmt, action, to) then 1 else 0
      {
        CountOneMore(stmts, stores, stmt, After(store, stmt), action, to);
      }
      ok := !breaks(tick);
      tick := tick + 1;
      if ok {
        store := After(store, stmt);
        stmts, stores := stmts', stores';
      }
      HistoriesKeepInv(stmts, stores, |stmts|);
    }

    predicate Matches(k: int, runs: set<Run>, action: string, statuses: set<Status>)
      reads this
    {
      && 0 <= k < |store.approvals| && store.approvals[k].run in runs
      && store.approvals[k].action == action && store.approvals[k].status in statuses
    }

    /** A latest requested row among those that match. */
    method Latest(runs: set<Run>, action: string, statuses: set<Status>) returns (best: Option<nat>)
      ensures best.None? ==> forall k :: !Matches(k, runs, action, statuses)
      ensures best.Some? ==> Matches(best.value, runs, action, statuses)
      ensures best.Some? ==> forall k | Matches(k, runs, action, statuses) ::
                               store.approvals[k].requestedAt <= store.approvals[best.value].requestedAt
    {
      best := None;
      for i := 0 to |store.approvals|
        invariant best.None? ==> forall k | k < i :: !Matches(k, runs, action, statuses)
        invariant best.Some? ==> best.value < i && Matches(best.value, runs, action, statuses)
        invariant best.Some? ==> forall k | k < i && Matches(k, runs, action, statuses) ::
                                   store.approvals[k].requestedAt <= store.approvals[best.value].requestedAt
      {
        if Matches(i, runs, action, statuses)
           && (best.None? || store.approvals[best.value].requestedAt < store.approvals[i].requestedAt)
        {
          best := Some(i);
        }
      }
    }

    /** The recursive lineage query, for a run whose links come to an end. */
    method Lineage(run: Run) returns (line: set<Run>)
      requires Ends(store.links, run)
      ensures forall a :: a in line <==> InLineage(store.links, run, a)
    {
      ghost var left: nat :| Up(store.links, run, left) == None;
      var at := run;
      line := {run};
      SelfInLineage(store.links, run);
      while at in store.links
        invariant forall a :: a in line || InLineage(store.links, at, a) <==> InLineage(store.links, run, a)
        invariant at in line
        invariant forall a | a in line :: InLineage(store.links, run, a)
        invariant Up(store.links, at, left) == None
        decreases left
      {
        forall a ensures InLineage(store.links, at, a) <==> a == at || InLineage(store.links, store.links[at], a) {
          InLineageOfParent(store.links, at, a);
        }
        SelfInLineage(store.links, store.links[at]);
        at, left := store.links[at], left - 1;
        line := line + {at};
      }
      TopIsAlone(store.links, at);
    }

    /** Asking again while an approval is pending or approved gives that one; otherwise a new one is
        filed. At no time are there two. */
    method RequestApproval(run: Run, tool: string, json: string, id: nat, now: nat) returns (r: Result<Approval, Error>)
      requires Valid() && !HasId(store.approvals, id)
      modifies this
      ensures old(Unbroken()) ==> r.Ok? && Unbroken()
      ensures Valid()
      ensures r.Ok? ==>
                && r.value in store.approvals && r.value.status in {Pending, Approved}
                && r.value.run == run && r.value.action == Action(tool, json)
      ensures old(HasLive(store.approvals, run, Action(tool, json))) ==> r.Ok? && store == old(store)
      ensures old(exists k :: Matches(k, {run}, Action(tool, json), {Pending, Approved}))
              <==> r.Ok? && store == old(store)
      ensures
        var row := Approval(id, run, Action(tool, json), Pending, now);
        var filed := After(old(store), InsertApproval(row));
        !old(HasLive(store.approvals, run, Action(tool, json))) ==>
          && (r.Ok? ==> r.value == row && store == After(filed, InsertEvent(run, "approval")))
          && (r.Err? ==> r.error == Broken && store in {old(store), filed})
      ensures forall a :: Uses(a) == old(Uses(a)) && Approvals(a) == old(Approvals(a))
    {
      hide Inv, InLineage, IsHistory, CountMoves, MovesRow;
      var action := Action(tool, json);
      var found := Latest({run}, action, {Pending, Approved});
      if found.Some? {
        return Ok(store.approvals[found.value]);
      }
      assert forall k :: !Matches(k, {run}, action, {Pending, Approved});
      assert forall k | 0 <= k < |store.approvals| && store.approvals[k].run == run
             && store.approvals[k].action == action ::
          Matches(k, {run}, action, {Pending, Approved}) || !Live(store.approvals[k]);
      var row := Approval(id, run, action, Pending, now);
      NoMove(store.approvals, InsertApproval(row));
      var ok := Execute(InsertApproval(row));
      if !ok {
        return Err(Broken);
      }
      NoMove(store.approvals, InsertEvent(run, "approval"));
      ok := Execute(InsertEvent(run, "approval"));
      if !ok {
        return Err(Broken);
      }
      found := Latest({run}, action, {Pending});
      assert Matches(|store.approvals| - 1, {run}, action, {Pending});
      if found.None? {
        return Err(NotFound);
      }
      InvHolds(store);
      OnlyLive(store.approvals, found.value, |store.approvals| - 1);
      return Ok(store.approvals[found.value]);
    }

    /** Consumes the latest requested approval of the run or its ancestors, if there is one. */
    method ConsumeExactApproval(run: Run, tool: string, json: string) returns (r: Result<bool, Error>)
      requires Valid() && Ends(store.links, run)
      modifies this
      ensures old(Unbroken()) ==> r.Ok? && Unbroken()
      ensures Valid()
      ensures forall a :: Approvals(a) == old(Approvals(a))
      ensures forall a | a != Action(tool, json) :: Uses(a) == old(Uses(a))
      ensures r.Ok? ==> Uses(Action(tool, json)) == old(Uses(Action(tool, json))) + if r.value then 1 else 0
      ensures r == Ok(true) ==> exists k ::
                && old(Consumable(run, Action(tool, json), k))
                && store.approvals == old(store).approvals[k := old(store).approvals[k].(status := Consumed)]
                && forall j | old(Consumable(run, Action(tool, json), j)) ::
                     old(store).approvals[j].requestedAt <= old(store).approvals[k].requestedAt
      ensures r.Ok? && r.value ==> exists id :: stmts == old(stmts) + [Consume(run, id), InsertEvent(run, "approval")]
      ensures
        var action := Action(tool, json);
        match r
        case Ok(false) => store == old(store) && forall k :: !old(Consumable(run, action, k))
        case Ok(true) =>
          exists k :: old(Chosen(run, action, k))
            && store == After(After(old(store), Consume(run, old(store).approvals[k].id)), InsertEvent(run, "approval"))
        case Err(e) =>
          && e == Broken && (exists k :: old(Consumable(run, action, k)))
          && (store == old(store)
              || exists k :: old(Chosen(run, action, k))
                  && store == After(old(store), Consume(run, old(store).approvals[k].id)))
    {
      var action := Action(tool, json);
      var line := Lineage(run);
      hide Inv, InLineage, IsHistory, CountMoves, MovesRow, After;
      var found := Latest(line, action, {Approved});
      assert forall k :: Consumable(run, action, k) <==> Matches(k, line, action, {Approved});
      if found.None? {
        forall k ensures !old(Consumable(run, action, k)) {
          assert !Consumable(run, action, k);
        }
        return Ok(false);
      }
      assert Chosen(run, action, found.value);
      assert Usable(store, run, found.value, store.approvals[found.value].id);
      var ok := UseRow(run, found.value);
      return if ok then Ok(true) else Err(Broken);
    }

    /** Consumes one row and records the event. */
    method UseRow(run: Run, k: nat) returns (ok: bool)
      requires Valid() && k < |store.approvals| && Usable(store, run, k, store.approvals[k].id)
      modifies this
      ensures old(Unbroken()) ==> ok && Unbroken()
      ensures Valid()
      ensures
        var id := old(store).approvals[k].id;
        var used := After(old(store), Consume(run, id));
        if ok then
          && store == After(used, InsertEvent(run, "approval"))
          && stmts == old(stmts) + [Consume(run, id), InsertEvent(run, "approval")]
        else store in {old(store), used}
      ensures ok ==> store.approvals == old(store).approvals[k := old(store).approvals[k].(status := Consumed)]
      ensures forall a :: Approvals(a) == old(Approvals(a))
      ensures forall a | a != old(store).approvals[k].action :: Uses(a) == old(Uses(a))
      ensures ok ==> Uses(old(store).approvals[k].action) == old(Uses(store.approvals[k].action)) + 1
    {
      hide Inv, InLineage, IsHistory, CountMoves, MovesRow, After;
      ConsumeMovesOne(store, stmts, stores, run, k);
      ConsumeReplaces(store, stmts, stores, run, k);
      var id := store.approvals[k].id;
      ok := Execute(Consume(run, id));
      if ok {
        NoMove(store.approvals, InsertEvent(run, "approval"));
        ok := Execute(InsertEvent(run, "approval"));
      }
    }

    ghost predicate Consumable(run: Run, action: string, k: int)
      reads this
    {
      && 0 <= k < |store.approvals| && store.approvals[k].action == action
      && store.approvals[k].status == Approved && InLineage(store.links, run, store.approvals[k].run)
    }

    /** A consumable row that no other consumable row was requested after. */
    ghost predicate Chosen(run: Run, action: string, k: int)
      reads this
    {
      Consumable(run, action, k)
      && forall j | Consumable(run, action, j) :: store.approvals[j].requestedAt <= store.approvals[k].requestedAt
    }

    /** Decides a pending approval; anything else is refused and changes nothing. */
    method DecideApproval(id: nat, decision: string) returns (r: Result<Approval, Error>)
      requires Valid()
      modifies this
      ensures old(Unbroken()) ==>
                && Unbroken()
                && (r.Ok? <==> decision in ["approved", "rejected"]
                               && exists k :: RowIs(old(store).approvals, k, id, Pending))
      ensures Valid()
      ensures r == Err(InvalidDecision) <==> decision !in ["approved", "rejected"]
      ensures
        var status := if decision == "approved" then Approved else Rejected;
        var decided := After(old(store), Decide(id, status));
        if decision !in ["approved", "rejected"] then store == old(store)
        else if exists k :: RowIs(old(store).approvals, k, id, Pending) then
          match r
          case Ok(row) =>
            && row.id == id && row.status == status && row in decided.approvals
            && store == After(decided, InsertEvent(row.run, "approval"))
          case Err(e) => e == Broken && store in {old(store), decided}
        else store == old(store) && r.Err? && r.error in {NotPending, Broken}
      ensures forall a :: Uses(a) == old(Uses(a))
      ensures r.Ok? ==> forall a ::
                Approvals(a) == old(Approvals(a)) + if decision == "approved" && a == r.value.action then 1 else 0
    {
      hide Inv, InLineage, IsHistory, CountMoves, MovesRow;
      if decision !in ["approved", "rejected"] {
        return Err(InvalidDecision);
      }
      hide After, RowIs;
      var status := if decision == "approved" then Approved else Rejected;
      ghost var before := store;
      var pending := Find(id, Pending);
      DecideMovesOne(store, stmts, stores, id, status);
      DecideEffect(store, id, status);
      var ok := Execute(Decide(id, status));
      if !ok {
        return Err(Broken);
      }
      if pending.None? {
        return Err(NotPending);
      }
      FoundIsRow(before.approvals, pending.value, id, Pending);
      var row := store.approvals[pending.value];
      NoMove(store.approvals, InsertEvent(row.run, "approval"));
      ok := Execute(InsertEvent(row.run, "approval"));
      if !ok {
        return Err(Broken);
      }
      return Ok(row);
    }

    method Find(id: nat, status: Status) returns (found: Option<nat>)
      ensures found.None? ==> forall k :: !RowIs(store.approvals, k, id, status)
      ensures found.Some? ==> RowIs(store.approvals, found.value, id, status)
    {
      for i := 0 to |store.approvals|
        invariant forall k | k < i :: !RowIs(store.approvals, k, id, status)
      {
        if RowIs(store.approvals, i, id, status) {
          return Some(i);
        }
      }
      found := None;
    }

    /** Links a continuation to the run it continues, in place of any earlier link. Acyclic links stay
        so exactly if the child is not in the lineage of the parent; a run just started never is
        (`FreshChildIsSafe`). */
    method LinkRuns(parent: Run, child: Run) returns (ok: bool)
      requires Valid()
      modifies this
      ensures old(Unbroken()) ==> ok && Unbroken()
      ensures Valid()
      ensures
        var linked := After(old(store), ReplaceLink(parent, child));
        if ok then store == After(linked, InsertEvent(child, "resume")) else store in {old(store), linked}
      ensures ok && old(Acyclic(store.links)) ==>
                  (Acyclic(store.links) <==> !InLineage(old(store).links, parent, child))
      ensures forall a :: Uses(a) == old(Uses(a)) && Approvals(a) == old(Approvals(a))
    {
      hide Inv, InLineage, IsHistory, CountMoves, MovesRow, Acyclic;
      if Acyclic(store.links) {
        LinkKeepsAcyclic(store.links, parent, child);
      }
      NoMove(store.approvals, ReplaceLink(parent, child));
      ok := Execute(ReplaceLink(parent, child));
      if ok {
        NoMove(store.approvals, InsertEvent(child, "resume"));
        ok := Execute(InsertEvent(child, "resume"));
      }
    }
  }

  /** On a live database: an action was never used more often than it was approved, and what was
      approved and not yet used is still there. */
  lemma UsesNeverExceedApprovals(db: Database, action: string)
    requires db.Valid()
    ensures db.Approvals(action) == db.Uses(action) + CountRows(db.store.approvals, action, {Approved})
  {
    ConsumptionsNeverExceedDecisions(db.stmts, db.stores, |db.stmts|, action);
  }

  /** On a live database: every use had its own approval, of the using run or of one of its
      ancestors at the time, decided before. */
  lemma UsesHadTheirApprovals(db: Database, k: nat) returns (row: nat, j: nat)
    requires db.Valid() && k < |db.stmts| && db.stmts[k].Consume?
    ensures k < |db.stores| && Usable(db.stores[k], db.stmts[k].consumer, row, db.stmts[k].id)
    ensures j < k && db.stmts[j] == Decide(db.stmts[k].id, Approved)
    ensures forall m | 0 <= m < |db.stmts| && m != k && db.stmts[m].Consume? :: db.stmts[m].id != db.stmts[k].id
  {
    row, j := ConsumptionWasApproved(db.stmts, db.stores, k);
    forall m | 0 <= m < |db.stmts| && m != k && db.stmts[m].Consume?
      ensures db.stmts[m].id != db.stmts[k].id
    {
      if m < k {
        ConsumedOnce(db.stmts, db.stores, m, k);
      } else {
        ConsumedOnce(db.stmts, db.stores, k, m);
      }
    }
  }

  /** What a decision does to the rows: the pending one moves, or nothing does. */
  lemma DecideEffect(s: Store, id: nat, status: Status)
    ensures |After(s, Decide(id, status)).approvals| == |s.approvals|
    ensures forall k | RowIs(s.approvals, k, id, Pending) ::
              After(s, Decide(id, status)).approvals[k] == s.approvals[k].(status := status)
    ensures (forall k :: !RowIs(s.approvals, k, id, Pending)) ==> After(s, Decide(id, status)) == s
  {
    if forall k :: !RowIs(s.approvals, k, id, Pending) {
      UpdatedIsSame(s.approvals, id, Pending, status);
    }
  }

  lemma FoundIsRow(rows: seq<Approval>, k: nat, id: nat, status: Status)
    requires RowIs(rows, k, id, status)
    ensures k < |rows| && rows[k].id == id
  {
  }

  lemma InvHolds(s: Store)
    requires Inv(s)
    ensures UniqueIds(s.approvals) && OneLive(s.approvals)
  {
  }

  lemma HistoryShape(stmts: seq<Statement>, stores: seq<Store>)
    ensures IsHistory(stmts, stores) ==> |stores| == |stmts| + 1
  {
  }

  lemma NoMove(rows: seq<Approval>, stmt: Statement)
    requires !stmt.Decide? && !stmt.Consume?
    ensures forall action, to :: !MovesRow(rows, stmt, action, to)
  {
  }

  lemma ConsumeMovesOne(s: Store, stmts: seq<Statement>, stores: seq<Store>, run: Run, k: nat)
    requires IsHistory(stmts, stores) && stores[|stmts|] == s && k < |s.approvals| && s.approvals[k].status == Approved
    ensures forall a ::
              MovesRow(s.approvals, Consume(run, s.approvals[k].id), a, Consumed) <==> a == s.approvals[k].action
    ensures forall a :: !MovesRow(s.approvals, Consume(run, s.approvals[k].id), a, Approved)
  {
    HistoriesKeepInv(stmts, stores, |stmts|);
    hide IsHistory;
    assert RowIs(s.approvals, k, s.approvals[k].id, Approved);
    assert forall j :: RowIs(s.approvals, j, s.approvals[k].id, Approved) ==> j == k;
  }

  lemma ConsumeReplaces(s: Store, stmts: seq<Statement>, stores: seq<Store>, run: Run, k: nat)
    requires IsHistory(stmts, stores) && stores[|stmts|] == s && k < |s.approvals| && s.approvals[k].status == Approved
    ensures After(After(s, Consume(run, s.approvals[k].id)), InsertEvent(run, "approval")).approvals
            == s.approvals[k := s.approvals[k].(status := Consumed)]
  {
    hide Updated;
    HistoriesKeepInv(stmts, stores, |stmts|);
    UpdatedIsReplaced(s.approvals, s.approvals[k].id, Approved, Consumed, k);
  }

  lemma DecideMovesOne(s: Store, stmts: seq<Statement>, stores: seq<Store>, id: nat, status: Status)
    requires IsHistory(stmts, stores) && stores[|stmts|] == s && status in {Approved, Rejected}
    ensures forall a :: !MovesRow(s.approvals, Decide(id, status), a, Consumed)
    ensures forall k, a | RowIs(s.approvals, k, id, Pending) ::
              MovesRow(s.approvals, Decide(id, status), a, Approved) <==>
              status == Approved && a == s.approvals[k].action
  {
    HistoriesKeepInv(stmts, stores, |stmts|);
    hide IsHistory;
    assert forall j, k :: RowIs(s.approvals, j, id, Pending) && RowIs(s.approvals, k, id, Pending) ==> j == k;
  }

  lemma SelfInLineage(links: Links, run: Run)
    ensures InLineage(links, run, run)
  {
    assert Up(links, run, 0) == Some(run);
  }

  lemma TopIsAlone(links: Links, run: Run)
    requires run !in links
    ensures forall a :: InLineage(links, run, a) <==> a == run
  {
    SelfInLineage(links, run);
    forall n: nat ensures Up(links, run, n) in {None, Some(run)} {}
  }

  lemma OnlyLive(rows: seq<Approval>, i: nat, j: nat)
    requires i < |rows| && j < |rows| && OneLive(rows) && Live(rows[i]) && Live(rows[j])
    requires rows[i].run == rows[j].run && rows[i].action == rows[j].action
    ensures i == j
  {
  }
}
