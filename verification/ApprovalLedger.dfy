/**
  The ledger of approvals: rows, the SQL statements that change them, and what every history of
  statements keeps. A statement is atomic; a function of the source may be cut short between two of
  its statements, so histories are sequences of statements, not of whole calls.
 */
module ApprovalLedger {
  import opened Basics
  import opened RunLineage

  datatype Status = Pending | Approved | Rejected | Consumed

  datatype Approval = Approval(id: nat, run: Run, action: string, status: Status, requestedAt: nat)

  datatype Event = Event(run: Run, sequence: nat, kind: string)

  datatype Store = Store(approvals: seq<Approval>, events: seq<Event>, links: Links)

  const EMPTY := Store([], [], map[])

  datatype Statement =
    | InsertApproval(row: Approval)
    | Decide(id: nat, decision: Status)
    | Consume(consumer: Run, id: nat)
    | InsertEvent(run: Run, kind: string)
    | ReplaceLink(parent: Run, child: Run)

  // ---- What an action is -------------------------------------------------------------------

  const NUL: char := '\0'

  /** The bytes that are hashed to identify an action; the hash is taken to be injective, so this
      text stands for it. */
  function Action(tool: string, json: string): string { tool + [NUL] + json }

  /** Two actions are the same exactly when tool and arguments are, for tool names without NUL. */
  lemma ActionIsExact(tool: string, json: string, tool': string, json': string)
    requires NUL !in tool && NUL !in tool'
    ensures Action(tool, json) == Action(tool', json') <==> tool == tool' && json == json'
  {
    var a, b := Action(tool, json), Action(tool', json');
    if a == b {
      assert a[|tool|] == NUL && b[|tool'|] == NUL;
      assert forall k | 0 <= k < |tool| :: a[k] == tool[k] != NUL;
      assert forall k | 0 <= k < |tool'| :: b[k] == tool'[k] != NUL;
      assert tool == a[..|tool|] && tool' == b[..|tool|];
      assert json == a[|tool| + 1..] && json' == b[|tool| + 1..];
    }
  }

  // ---- Statements --------------------------------------------------------------------------

  /** `UPDATE … SET status = to WHERE id = id AND status = from`. */
  function Updated(rows: seq<Approval>, id: nat, from: Status, to: Status): (r: seq<Approval>)
    ensures |r| == |rows|
    ensures forall k | 0 <= k < |rows| ::
              r[k] == if rows[k].id == id && rows[k].status == from then rows[k].(status := to) else rows[k]
  {
    if rows == [] then []
    else
      [if rows[0].id == id && rows[0].status == from then rows[0].(status := to) else rows[0]]
      + Updated(rows[1..], id, from, to)
  }

  /** `COALESCE(MAX(sequence), 0)` over the events of one run. */
  function MaxSequence(events: seq<Event>, run: Run): nat {
    if events == [] then 0
    else
      var init, last := events[..|events| - 1], events[|events| - 1];
      var max := MaxSequence(init, run);
      if last.run == run && last.sequence > max then last.sequence else max
  }

  function After(s: Store, stmt: Statement): Store {
    match stmt
    case InsertApproval(row) => s.(approvals := s.approvals + [row])
    case Decide(id, decision) => s.(approvals := Updated(s.approvals, id, Pending, decision))
    case Consume(_, id) => s.(approvals := Updated(s.approvals, id, Approved, Consumed))
    case InsertEvent(run, kind) => s.(events := s.events + [Event(run, MaxSequence(s.events, run) + 1, kind)])
    case ReplaceLink(parent, child) => s.(links := s.links[child := parent])
  }

  predicate Live(row: Approval) { row.status in {Pending, Approved} }

  ghost predicate HasLive(rows: seq<Approval>, run: Run, action: string) {
    exists k :: 0 <= k < |rows| && rows[k].run == run && rows[k].action == action && Live(rows[k])
  }

  ghost predicate HasId(rows: seq<Approval>, id: nat) {
    exists k :: 0 <= k < |rows| && rows[k].id == id
  }

  /** A row with this identity, in this status. */
  predicate RowIs(rows: seq<Approval>, k: int, id: nat, status: Status) {
    0 <= k < |rows| && rows[k].id == id && rows[k].status == status
  }

  /** Row `k` may be consumed on behalf of `run`. */
  ghost predicate Usable(s: Store, run: Run, k: int, id: nat) {
    RowIs(s.approvals, k, id, Approved) && InLineage(s.links, run, s.approvals[k].run)
  }

  /** When the functions of the source issue each statement. Fresh identities stand for random
      UUIDs. */
  ghost predicate Enabled(s: Store, stmt: Statement) {
    match stmt
    case InsertApproval(row) =>
      row.status == Pending && !HasId(s.approvals, row.id) && !HasLive(s.approvals, row.run, row.action)
    case Decide(_, decision) => decision in {Approved, Rejected}
    case Consume(consumer, id) => exists k :: Usable(s, consumer, k, id)
    case InsertEvent(_, _) => true
    case ReplaceLink(_, _) => true
  }

  // ---- Invariants --------------------------------------------------------------------------

  ghost predicate UniqueIds(rows: seq<Approval>) {
    forall i, j | 0 <= i < j < |rows| :: rows[i].id != rows[j].id
  }

  ghost predicate OneLive(rows: seq<Approval>) {
    forall i, j | 0 <= i < j < |rows| && Live(rows[i]) && Live(rows[j]) ::
      rows[i].run != rows[j].run || rows[i].action != rows[j].action
  }

  /** The event numbers of `run`, in order of recording. */
  function Numbers(events: seq<Event>, run: Run): seq<nat> {
    if events == [] then []
    else
      var init, last := events[..|events| - 1], events[|events| - 1];
      Numbers(init, run) + if last.run == run then [last.sequence] else []
  }

  predicate CountsUp(numbers: seq<nat>) {
    forall k | 0 <= k < |numbers| :: numbers[k] == k + 1
  }

  ghost predicate Numbered(events: seq<Event>) {
    forall run :: CountsUp(Numbers(events, run))
  }

  ghost predicate Inv(s: Store) {
    UniqueIds(s.approvals) && OneLive(s.approvals) && Numbered(s.events)
  }

  lemma InvAtStart()
    ensures Inv(EMPTY)
  {
  }

  lemma {:induction false} MaxIsCount(events: seq<Event>, run: Run)
    requires CountsUp(Numbers(events, run))
    ensures MaxSequence(events, run) == |Numbers(events, run)|
  {
    if events != [] {
      var init := events[..|events| - 1];
      var n, all := Numbers(init, run), Numbers(events, run);
      assert n == all[..|n|];
      assert |all| > |n| ==> all[|n|] == |n| + 1;
      MaxIsCount(init, run);
    }
  }

  lemma RecordingKeepsNumbered(events: seq<Event>, run: Run, kind: string)
    requires Numbered(events)
    ensures Numbered(events + [Event(run, MaxSequence(events, run) + 1, kind)])
  {
    var e := Event(run, MaxSequence(events, run) + 1, kind);
    forall r ensures CountsUp(Numbers(events + [e], r)) {
      assert CountsUp(Numbers(events, r));
      MaxIsCount(events, r);
      assert (events + [e])[..|events|] == events;
    }
  }

  lemma StatementKeepsInv(s: Store, stmt: Statement)
    requires Inv(s) && Enabled(s, stmt)
    ensures Inv(After(s, stmt))
  {
    hide InLineage, Numbered;
    match stmt
    case InsertApproval(row) =>
    case Decide(id, decision) =>
    case Consume(consumer, id) =>
    case InsertEvent(run, kind) => RecordingKeepsNumbered(s.events, run, kind);
    case ReplaceLink(_, _) =>
  }

  /** What a statement does to each table, and that it leaves the others alone: an event is numbered
      by the events its run had, a decision moves what was pending, a consumption what was approved. */
  lemma StatementEffect(s: Store, stmt: Statement)
    requires Inv(s)
    ensures var t := After(s, stmt);
            && t.links == (if stmt.ReplaceLink? then s.links[stmt.child := stmt.parent] else s.links)
            && t.events == (if stmt.InsertEvent?
                            then s.events + [Event(stmt.run, |Numbers(s.events, stmt.run)| + 1, stmt.kind)]
                            else s.events)
            && (stmt.InsertApproval? ==> t.approvals == s.approvals + [stmt.row])
            && (stmt.InsertEvent? || stmt.ReplaceLink? ==> t.approvals == s.approvals)
            && (stmt.Decide? || stmt.Consume? ==>
                  && |t.approvals| == |s.approvals|
                  && var from, to := if stmt.Decide? then Pending else Approved,
                                     if stmt.Decide? then stmt.decision else Consumed;
                  forall k | 0 <= k < |s.approvals| ::
                    t.approvals[k] == if RowIs(s.approvals, k, stmt.id, from) then s.approvals[k].(status := to)
                                      else s.approvals[k])
  {
    if stmt.InsertEvent? {
      MaxIsCount(s.events, stmt.run);
    }
  }

  // ---- Histories ---------------------------------------------------------------------------

  ghost predicate Moves(s: Store, stmt: Statement, t: Store) { Enabled(s, stmt) && t == After(s, stmt) }

  ghost predicate IsHistory(stmts: seq<Statement>, stores: seq<Store>) {
    && |stores| == |stmts| + 1 && stores[0] == EMPTY
    && forall k | 0 <= k < |stmts| :: Moves(stores[k], stmts[k], stores[k + 1])
  }

  lemma {:induction false} HistoriesKeepInv(stmts: seq<Statement>, stores: seq<Store>, k: nat)
    requires IsHistory(stmts, stores) && k < |stores|
    ensures Inv(stores[k])
  {
    hide Inv, Enabled, After;
    if k == 0 {
      InvAtStart();
    } else {
      HistoriesKeepInv(stmts, stores, k - 1);
      assert Moves(stores[k - 1], stmts[k - 1], stores[k]);
      StatementKeepsInv(stores[k - 1], stmts[k - 1]);
    }
  }

  /** At any time, a run has at most one approval for an action that is pending or approved, and the
      events of every run are numbered 1, 2, 3 and so on without gaps. */
  lemma LedgerIsSound(stmts: seq<Statement>, stores: seq<Store>, k: nat)
    requires IsHistory(stmts, stores) && k < |stores|
    ensures
      var rows := stores[k].approvals;
      forall i, j | 0 <= i < |rows| && 0 <= j < |rows|
                    && rows[i].status in {Pending, Approved} && rows[j].status in {Pending, Approved}
                    && rows[i].run == rows[j].run && rows[i].action == rows[j].action :: i == j
    ensures forall run :: CountsUp(Numbers(stores[k].events, run))
  {
    HistoriesKeepInv(stmts, stores, k);
  }

  // ---- Rows only move forward --------------------------------------------------------------

  predicate Follows(a: Status, b: Status) {
    a == b || a == Pending || (a == Approved && b == Consumed)
  }

  ghost predicate Forward(s: seq<Approval>, t: seq<Approval>) {
    && |s| <= |t|
    && forall k | 0 <= k < |s| :: t[k] == s[k].(status := t[k].status) && Follows(s[k].status, t[k].status)
  }

  /** No row is ever lost or changed but in its status; a rejected or consumed row stays so, and an
      approved one can only be consumed. */
  lemma {:induction false} RowsMoveForward(stmts: seq<Statement>, stores: seq<Store>, j: nat, k: nat)
    requires IsHistory(stmts, stores) && j <= k < |stores|
    ensures Forward(stores[j].approvals, stores[k].approvals)
    decreases k
  {
    if j < k {
      RowsMoveForward(stmts, stores, j, k - 1);
      assert Moves(stores[k - 1], stmts[k - 1], stores[k]);
      hide InLineage, HasLive, HasId;
      assert Forward(stores[k - 1].approvals, stores[k].approvals);
    }
  }

  /** No approval is consumed twice. */
  lemma ConsumedOnce(stmts: seq<Statement>, stores: seq<Store>, j: nat, k: nat)
    requires IsHistory(stmts, stores) && j < k < |stmts| && stmts[j].Consume? && stmts[k].Consume?
    ensures stmts[j].id != stmts[k].id
  {
    assert Moves(stores[j], stmts[j], stores[j + 1]) && Moves(stores[k], stmts[k], stores[k + 1]);
    RowsMoveForward(stmts, stores, j + 1, k);
    HistoriesKeepInv(stmts, stores, k);
    var a :| Usable(stores[j], stmts[j].consumer, a, stmts[j].id);
    var b :| Usable(stores[k], stmts[k].consumer, b, stmts[k].id);
    assert stores[k].approvals[a].status == Consumed && stores[k].approvals[a].id == stmts[j].id;
  }

  /** Before a row became approved or consumed, an approve decision was made on it while pending. */
  lemma {:induction false} ApprovedByDecision(stmts: seq<Statement>, stores: seq<Store>, k: nat, row: nat)
    returns (j: nat)
    requires IsHistory(stmts, stores) && k < |stores|
    requires row < |stores[k].approvals| && stores[k].approvals[row].status in {Approved, Consumed}
    ensures j < k && stmts[j] == Decide(stores[k].approvals[row].id, Approved)
    ensures RowIs(stores[j].approvals, row, stores[k].approvals[row].id, Pending)
  {
    assert Moves(stores[k - 1], stmts[k - 1], stores[k]);
    var before := stores[k - 1].approvals;
    if row < |before| && before[row].status in {Approved, Consumed} {
      j := ApprovedByDecision(stmts, stores, k - 1, row);
      RowsMoveForward(stmts, stores, k - 1, k);
    } else {
      j := k - 1;
    }
  }

  /** Every consumption is of an approval of the consuming run or of one of its ancestors, which a
      user had approved before. With `ConsumedOnce`: one approval decision, at most one use. */
  lemma ConsumptionWasApproved(stmts: seq<Statement>, stores: seq<Store>, k: nat) returns (row: nat, j: nat)
    requires IsHistory(stmts, stores) && k < |stmts| && stmts[k].Consume?
    ensures Usable(stores[k], stmts[k].consumer, row, stmts[k].id)
    ensures j < k && stmts[j] == Decide(stmts[k].id, Approved)
    ensures RowIs(stores[j].approvals, row, stmts[k].id, Pending)
    ensures stores[k].approvals[row].action == stores[j].approvals[row].action
  {
    assert Moves(stores[k], stmts[k], stores[k + 1]);
    var r :| Usable(stores[k], stmts[k].consumer, r, stmts[k].id);
    row := r;
    j := ApprovedByDecision(stmts, stores, k, row);
    RowsMoveForward(stmts, stores, j, k);
  }

  // ---- Counting by action --------------------------------------------------------------------

  /** The rows of an action whose status is in `statuses`. */
  function CountRows(rows: seq<Approval>, action: string, statuses: set<Status>): nat {
    if rows == [] then 0
    else CountRows(rows[..|rows| - 1], action, statuses)
         + Hit(rows[|rows| - 1], action, statuses)
  }

  /** The statements among the first `k` that moved a row of `action` to `to`. */
  ghost function CountMoves(stmts: seq<Statement>, stores: seq<Store>, k: nat, action: string, to: Status): nat
    requires k <= |stmts| < |stores|
  {
    if k == 0 then 0
    else CountMoves(stmts, stores, k - 1, action, to)
         + if MovesRow(stores[k - 1].approvals, stmts[k - 1], action, to) then 1 else 0
  }

  ghost predicate MovesRow(rows: seq<Approval>, stmt: Statement, action: string, to: Status) {
    match stmt
    case Decide(id, decision) => decision == to && (exists k :: RowIs(rows, k, id, Pending) && rows[k].action == action)
    case Consume(_, id) => to == Consumed && (exists k :: RowIs(rows, k, id, Approved) && rows[k].action == action)
    case _ => false
  }

  function Hit(row: Approval, action: string, statuses: set<Status>): nat {
    if row.action == action && row.status in statuses then 1 else 0
  }

  lemma {:induction false} CountReplaced(rows: seq<Approval>, m: nat, row: Approval, action: string,
                                         statuses: set<Status>)
    requires m < |rows|
    ensures CountRows(rows[m := row], action, statuses) + Hit(rows[m], action, statuses)
            == CountRows(rows, action, statuses) + Hit(row, action, statuses)
  {
    var n := |rows| - 1;
    if m < n {
      CountReplaced(rows[..n], m, row, action, statuses);
      assert rows[m := row][..n] == rows[..n][m := row];
    } else {
      assert rows[m := row][..n] == rows[..n];
    }
  }

  lemma UpdatedIsReplaced(rows: seq<Approval>, id: nat, from: Status, to: Status, m: nat)
    requires UniqueIds(rows) && RowIs(rows, m, id, from)
    ensures Updated(rows, id, from, to) == rows[m := rows[m].(status := to)]
  {
  }

  lemma UpdatedIsSame(rows: seq<Approval>, id: nat, from: Status, to: Status)
    requires forall k :: !RowIs(rows, k, id, from)
    ensures Updated(rows, id, from, to) == rows
  {
    var r := Updated(rows, id, from, to);
    forall k | 0 <= k < |rows| ensures r[k] == rows[k] {
      assert !RowIs(rows, k, id, from);
    }
  }

  /** Moving the one row with this identity changes each count by what the two statuses say. */
  lemma CountUpdated(rows: seq<Approval>, id: nat, from: Status, to: Status, action: string, statuses: set<Status>)
    requires UniqueIds(rows)
    ensures
      var moved := exists k :: RowIs(rows, k, id, from) && rows[k].action == action;
      CountRows(Updated(rows, id, from, to), action, statuses)
      == CountRows(rows, action, statuses)
         + if moved && from !in statuses && to in statuses then 1
           else if moved && from in statuses && to !in statuses then -1 else 0
  {
    hide CountRows, Updated;
    if k :| RowIs(rows, k, id, from) {
      UpdatedIsReplaced(rows, id, from, to, k);
      CountReplaced(rows, k, rows[k].(status := to), action, statuses);
      assert forall j :: RowIs(rows, j, id, from) ==> j == k;
    } else {
      UpdatedIsSame(rows, id, from, to);
    }
  }

  lemma CountAppended(rows: seq<Approval>, row: Approval, action: string, statuses: set<Status>)
    ensures CountRows(rows + [row], action, statuses)
            == CountRows(rows, action, statuses) + Hit(row, action, statuses)
  {
    assert (rows + [row])[..|rows|] == rows;
  }

  lemma {:induction false} CountsMatchMoves(stmts: seq<Statement>, stores: seq<Store>, k: nat, action: string)
    requires IsHistory(stmts, stores) && k <= |stmts|
    ensures CountMoves(stmts, stores, k, action, Consumed) == CountRows(stores[k].approvals, action, {Consumed})
    ensures CountMoves(stmts, stores, k, action, Approved)
            == CountRows(stores[k].approvals, action, {Approved, Consumed})
  {
    if k > 0 {
      CountsMatchMoves(stmts, stores, k - 1, action);
      HistoriesKeepInv(stmts, stores, k - 1);
      CountStep(stores[k - 1], stmts[k - 1], stores[k], action);
    }
  }

  lemma CountStep(s: Store, stmt: Statement, t: Store, action: string)
    requires Moves(s, stmt, t) && Inv(s)
    ensures CountRows(t.approvals, action, {Consumed})
            == CountRows(s.approvals, action, {Consumed})
                + if MovesRow(s.approvals, stmt, action, Consumed) then 1 else 0
    ensures CountRows(t.approvals, action, {Approved, Consumed})
            == CountRows(s.approvals, action, {Approved, Consumed})
                + if MovesRow(s.approvals, stmt, action, Approved) then 1 else 0
  {
    hide CountRows, InLineage, Numbered, OneLive, HasId, HasLive;
    match stmt
    case InsertApproval(row) =>
      CountAppended(s.approvals, row, action, {Consumed});
      CountAppended(s.approvals, row, action, {Approved, Consumed});
    case Decide(id, decision) =>
      CountUpdated(s.approvals, id, Pending, decision, action, {Consumed});
      CountUpdated(s.approvals, id, Pending, decision, action, {Approved, Consumed});
    case Consume(_, id) =>
      CountUpdated(s.approvals, id, Approved, Consumed, action, {Consumed});
      CountUpdated(s.approvals, id, Approved, Consumed, action, {Approved, Consumed});
    case InsertEvent(_, _) =>
    case ReplaceLink(_, _) =>
  }

  lemma {:induction false} FewerStatusesFewerRows(rows: seq<Approval>, action: string)
    ensures CountRows(rows, action, {Approved, Consumed})
            == CountRows(rows, action, {Approved}) + CountRows(rows, action, {Consumed})
  {
    if rows != [] {
      FewerStatusesFewerRows(rows[..|rows| - 1], action);
    }
  }

  /** The approve decisions of an action are its consumptions so far plus the approvals still open:
      an action is never carried out more often than it was approved. */
  lemma ConsumptionsNeverExceedDecisions(stmts: seq<Statement>, stores: seq<Store>, k: nat, action: string)
    requires IsHistory(stmts, stores) && k <= |stmts|
    ensures CountMoves(stmts, stores, k, action, Approved)
            == CountMoves(stmts, stores, k, action, Consumed) + CountRows(stores[k].approvals, action, {Approved})
  {
    CountsMatchMoves(stmts, stores, k, action);
    FewerStatusesFewerRows(stores[k].approvals, action);
  }

  /** Later statements do not change what was counted. */
  lemma {:induction false} CountedSoFar(stmts: seq<Statement>, stores: seq<Store>, k: nat, action: string, to: Status,
                                        stmt: Statement, store: Store)
    requires k <= |stmts| < |stores|
    ensures CountMoves(stmts + [stmt], stores + [store], k, action, to) == CountMoves(stmts, stores, k, action, to)
  {
    hide MovesRow;
    if k > 0 {
      CountedSoFar(stmts, stores, k - 1, action, to, stmt, store);
    }
  }

  lemma CountOneMore(stmts: seq<Statement>, stores: seq<Store>, stmt: Statement, store: Store, action: string,
                     to: Status)
    requires |stores| == |stmts| + 1
    ensures CountMoves(stmts + [stmt], stores + [store], |stmts| + 1, action, to) ==
            CountMoves(stmts, stores, |stmts|, action, to)
            + if MovesRow(stores[|stmts|].approvals, stmt, action, to) then 1 else 0
  {
    hide MovesRow;
    CountedSoFar(stmts, stores, |stmts|, action, to, stmt, store);
  }

  lemma HistoryOneMore(stmts: seq<Statement>, stores: seq<Store>, stmt: Statement)
    requires IsHistory(stmts, stores) && Enabled(stores[|stmts|], stmt)
    ensures IsHistory(stmts + [stmt], stores + [After(stores[|stmts|], stmt)])
  {
    hide Enabled, After;
    var stmts', stores' := stmts + [stmt], stores + [After(stores[|stmts|], stmt)];
    forall k | 0 <= k < |stmts'|
      ensures Moves(stores'[k], stmts'[k], stores'[k + 1])
    {
      assert k < |stmts| ==> Moves(stores[k], stmts[k], stores[k + 1]);
    }
  }
}
