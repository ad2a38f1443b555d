/** The Kanban board (src/components/issues/kanban-board.tsx): five status
    columns, each showing the issues whose status is its id, and the drag
    handlers. A drop decides a target status, rewrites the dragged issue in
    the list at once, calls the server, and puts the old list back when the
    server reports an error. */
module Kanban {
  import opened Wrappers
  import opened Seqs
  import Enums

  /** The fields of an issue the board holds. */
  datatype BoardIssue = BoardIssue(id: string, key: string, title: string, status: string,
                                   priority: Option<string>, issueType: string)

  datatype Column = Column(id: string, title: string)

  const COLUMNS: seq<Column> := [
    Column("backlog", "Backlog"),
    Column("todo", "Todo"),
    Column("in_progress", "In Progress"),
    Column("in_review", "In Review"),
    Column("done", "Done")]

  const COLUMN_IDS: seq<string> := seq(|COLUMNS|, i requires 0 <= i < |COLUMNS| => COLUMNS[i].id)

  /** The issues a column shows: `issues.filter((i) => i.status === col.id)`. */
  function ColumnIssues(issues: seq<BoardIssue>, columnId: string): seq<BoardIssue> {
    Filter(issues, (i: BoardIssue) => i.status == columnId)
  }

  /** `issues.find((i) => i.key === key)`. */
  function FindByKey(issues: seq<BoardIssue>, key: string): (r: Option<BoardIssue>)
    ensures r.Some? <==> exists i :: 0 <= i < |issues| && issues[i].key == key
    ensures r.Some? ==>
      exists i :: 0 <= i < |issues| && issues[i] == r.value && r.value.key == key && (forall j :: 0 <= j < i ==> issues[j].key != key)
  {
    match FirstIndex(issues, (x: BoardIssue) => x.key == key)
    case None => None
    case Some(i) => Some(issues[i])
  }

  /** The status a drop asks for: that of the issue dropped onto, or else the
      drop target's id itself (a column id). */
  function TargetStatus(issues: seq<BoardIssue>, overId: string): string {
    match FindByKey(issues, overId)
    case Some(over) => over.status
    case None => overId
  }

  /** The optimistic update: the issues with that key get the new status. */
  function SetStatusByKey(issues: seq<BoardIssue>, key: string, status: string): (r: seq<BoardIssue>)
    ensures |r| == |issues|
    ensures forall i :: 0 <= i < |issues| ==>
      r[i] == if issues[i].key == key then issues[i].(status := status) else issues[i]
  {
    seq(|issues|, i requires 0 <= i < |issues| => if issues[i].key == key then issues[i].(status := status) else issues[i])
  }

  /** No two issues on the board share a key. */
  ghost predicate KeysDistinct(issues: seq<BoardIssue>) {
    forall i, j :: 0 <= i < j < |issues| ==> issues[i].key != issues[j].key
  }

  // ----- The columns partition the issues -----

  lemma ColumnIdsAreStatuses()
    ensures COLUMN_IDS == ["backlog", "todo", "in_progress", "in_review", "done"]
    ensures forall c :: c in COLUMN_IDS ==> c in Enums.WORK_ITEM_STATUSES
    ensures "cancelled" in Enums.WORK_ITEM_STATUSES && "cancelled" !in COLUMN_IDS
  {
    assert COLUMN_IDS == ["backlog", "todo", "in_progress", "in_review", "done"];
  }

  /** An issue is shown in a column exactly when its status is one of the
      column ids, and then in that one column only; a "cancelled" issue is
      in no column. */
  lemma ColumnsPartitionIssues(issues: seq<BoardIssue>, x: BoardIssue)
    requires x in issues
    ensures x.status in COLUMN_IDS <==> exists c :: c in COLUMN_IDS && x in ColumnIssues(issues, c)
    ensures forall c :: x in ColumnIssues(issues, c) ==> c == x.status
    ensures x.status == "cancelled" ==> forall c :: c in COLUMN_IDS ==> x !in ColumnIssues(issues, c)
  {
    ColumnIdsAreStatuses();
    if x.status in COLUMN_IDS {
      assert x in ColumnIssues(issues, x.status);
    }
  }

  /** The number of cards the given columns hold together. */
  function ColumnTotal(issues: seq<BoardIssue>, columnIds: seq<string>): nat {
    if columnIds == [] then 0 else |ColumnIssues(issues, columnIds[0])| + ColumnTotal(issues, columnIds[1..])
  }

  /** Whether an issue's status is one of `columnIds`. */
  function InColumns(columnIds: seq<string>): BoardIssue -> bool {
    (x: BoardIssue) => x.status in columnIds
  }

  /** The issues whose status is one of `columnIds`: those the columns show. */
  function Shown(issues: seq<BoardIssue>, columnIds: seq<string>): seq<BoardIssue> {
    Filter(issues, InColumns(columnIds))
  }

  /** The number of issues whose status is one of `columnIds`. */
  function CountShown(issues: seq<BoardIssue>, columnIds: seq<string>): nat {
    |Shown(issues, columnIds)|
  }

  lemma {:induction false} CountShownSplit(issues: seq<BoardIssue>, columnIds: seq<string>)
    requires columnIds != [] && columnIds[0] !in columnIds[1..]
    ensures CountShown(issues, columnIds) == |ColumnIssues(issues, columnIds[0])| + CountShown(issues, columnIds[1..])
  {
    if issues != [] {
      CountShownSplit(issues[1..], columnIds);
      assert issues[0].status in columnIds <==> issues[0].status == columnIds[0] || issues[0].status in columnIds[1..];
    }
  }

  /** Over distinct column ids, the columns together hold as many cards as
      there are issues with one of those statuses. */
  lemma {:induction false} ColumnTotalCountsShown(issues: seq<BoardIssue>, columnIds: seq<string>)
    requires forall i, j :: 0 <= i < j < |columnIds| ==> columnIds[i] != columnIds[j]
    ensures ColumnTotal(issues, columnIds) == CountShown(issues, columnIds)
    decreases |columnIds|
  {
    if columnIds == [] {
      FilterNoneKept(issues, InColumns(columnIds));
    } else {
      ColumnTotalCountsShown(issues, columnIds[1..]);
      assert columnIds[0] !in columnIds[1..] by {
        forall k | 0 <= k < |columnIds[1..]| ensures columnIds[1..][k] != columnIds[0] {
          assert columnIds[k + 1] != columnIds[0];
        }
      }
      CountShownSplit(issues, columnIds);
    }
  }

  /** The five columns show every issue whose status is a column id, each
      once. */
  lemma ColumnsCountShownIssues(issues: seq<BoardIssue>)
    ensures ColumnTotal(issues, COLUMN_IDS) == CountShown(issues, COLUMN_IDS)
  {
    ColumnIdsAreStatuses();
    ColumnTotalCountsShown(issues, COLUMN_IDS);
  }

  // ----- The optimistic update -----

  /** With distinct keys, the optimistic update moves the dragged issue, and
      only it, into the column of the target status; every other issue stays
      in the column it was in. */
  lemma OptimisticMove(issues: seq<BoardIssue>, key: string, target: string, k: int)
    requires KeysDistinct(issues) && 0 <= k < |issues| && issues[k].key == key
    ensures var r := SetStatusByKey(issues, key, target);
      && issues[k].(status := target) in ColumnIssues(r, target)
      && (forall c :: issues[k] in ColumnIssues(r, c) ==> issues[k].status == target)
      && (forall y, c :: y in issues && y.key != key ==> (y in ColumnIssues(r, c) <==> y in ColumnIssues(issues, c)))
  {
    var r := SetStatusByKey(issues, key, target);
    assert r[k] == issues[k].(status := target);
    assert r[k] in r;
    forall y | y in issues && y.key != key ensures y in r {
      var i :| 0 <= i < |issues| && issues[i] == y;
      assert r[i] == y;
    }
    forall c | issues[k] in ColumnIssues(r, c) ensures issues[k].status == target {
      var i :| 0 <= i < |r| && r[i] == issues[k];
      assert r[i].key == key;
      assert i == k;
    }
  }

  /** Dropping onto another issue asks for that issue's status, so after
      the optimistic update both issues are in the same column. */
  lemma DropOnIssueJoinsItsColumn(issues: seq<BoardIssue>, activeKey: string, overKey: string, k: int)
    requires KeysDistinct(issues) && 0 <= k < |issues| && issues[k].key == activeKey
    requires FindByKey(issues, overKey).Some? && overKey != activeKey
    ensures var over := FindByKey(issues, overKey).value;
      var r := SetStatusByKey(issues, activeKey, TargetStatus(issues, overKey));
      && over in ColumnIssues(r, over.status)
      && issues[k].(status := over.status) in ColumnIssues(r, over.status)
  {
    var over := FindByKey(issues, overKey).value;
    var r := SetStatusByKey(issues, activeKey, over.status);
    var j :| 0 <= j < |issues| && issues[j] == over && over.key == overKey;
    assert r[j] == over && r[j] in r;
    OptimisticMove(issues, activeKey, over.status, k);
  }

  // ----- The board component -----

  /** The server call a drop makes: updateIssueStatusAction(projectKey, key, status). */
  datatype StatusCall = StatusCall(projectKey: string, issueKey: string, status: string)

  /** What the action returns: `{ success: true }` or `{ error }`. */
  datatype ActionResult = ActionResult(error: Option<string>)

  /** `result && result.error`: the action reported an error. */
  predicate Failed(result: ActionResult) {
    result.error.Some? && result.error.value != ""
  }

  class KanbanBoard {
    const projectKey: string
    var issues: seq<BoardIssue>
    var activeIssue: Option<BoardIssue>

    constructor (projectKey: string, initialIssues: seq<BoardIssue>)
      ensures this.projectKey == projectKey && issues == initialIssues && activeIssue == None
    {
      this.projectKey := projectKey;
      issues := initialIssues;
      activeIssue := None;
    }

    /** onDragStart: the dragged issue becomes active when its key is on the
        board; otherwise nothing changes. */
    method OnDragStart(activeId: string)
      modifies this
      ensures issues == old(issues)
      ensures activeIssue == if FindByKey(issues, activeId).Some? then FindByKey(issues, activeId) else old(activeIssue)
    {
      var found := FindByKey(issues, activeId);
      if found.Some? {
        activeIssue := found;
      }
    }

    /** onDragEnd. A drop onto nothing, or of a key not on the board, changes
        nothing. A drop that asks for the issue's own status only clears the
        active issue. Any other drop rewrites the dragged issue's status,
        calls the server, restores the list from before the drop when the
        server reports an error, and clears the active issue. */
    method OnDragEnd(activeId: string, overId: Option<string>, serverResult: ActionResult)
      returns (call: Option<StatusCall>)
      modifies this
      ensures overId.None? || FindByKey(old(issues), activeId).None? ==>
        call == None && issues == old(issues) && activeIssue == old(activeIssue)
      ensures overId.Some? && FindByKey(old(issues), activeId).Some? ==>
        var target := TargetStatus(old(issues), overId.value);
        && activeIssue == None
        && (FindByKey(old(issues), activeId).value.status == target ==> call == None && issues == old(issues))
        && (FindByKey(old(issues), activeId).value.status != target ==>
              && call == Some(StatusCall(projectKey, activeId, target))
              && issues == if Failed(serverResult) then old(issues) else SetStatusByKey(old(issues), activeId, target))
    {
      if overId.None? {
        return None;
      }
      var before := issues;
      var newStatus := TargetStatus(issues, overId.value);
      var current := FindByKey(issues, activeId);
      if current.None? {
        return None;
      }
      call := None;
      if current.value.status != newStatus {
        issues := SetStatusByKey(issues, activeId, newStatus);
        call := Some(StatusCall(projectKey, activeId, newStatus));
        if Failed(serverResult) {
          issues := before;
        }
      }
      activeIssue := None;
    }
  }

  /** A drop that the server accepts changes the dragged issue's status and
      nothing else: same length, same order, same other issues and fields. */
  lemma AcceptedDropChangesOneIssue(issues: seq<BoardIssue>, activeId: string, target: string, k: int)
    requires KeysDistinct(issues) && 0 <= k < |issues| && issues[k].key == activeId
    ensures var r := SetStatusByKey(issues, activeId, target);
      && |r| == |issues|
      && r[k] == issues[k].(status := target)
      && (forall i :: 0 <= i < |issues| && i != k ==> r[i] == issues[i])
      && KeysDistinct(r)
  {
  }
}
