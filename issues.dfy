/** The issue operations of src/server/issues.ts: the project's issue list,
    one issue's details, creating an issue (which takes the next number from
    the project's counter inside a transaction), and changing an issue's
    status. Every operation first passes the membership-gated project
    lookup. */
module Issues {
  import opened Wrappers
  import opened Errors
  import opened IssueKeys
  import opened Seqs
  import opened Schema
  import opened Projects
  import opened IssueSchema

  /** The `{ id, name, avatarUrl }` projection of a user row. */
  datatype UserSummary = UserSummary(id: UserId, name: string, avatarUrl: Option<string>)

  function Summary(t: Tables, uid: UserId): UserSummary
    requires uid in t.users
  {
    UserSummary(uid, t.users[uid].name, t.users[uid].avatarUrl)
  }

  // ----- getProjectIssues -----

  /** A row of the issue list. */
  datatype IssueListRow = IssueListRow(
    id: WorkItemId,
    key: string,
    title: string,
    itemType: string,
    status: string,
    priority: Option<string>,
    createdAt: Timestamp,
    assignee: Option<UserSummary>)

  /** LEFT JOIN on the assignee: None when the item has no assignee or the
      id matches no user. */
  function AssigneeJoin(t: Tables, w: WorkItem): Option<UserSummary> {
    if w.assigneeUserId.Some? && w.assigneeUserId.value in t.users then Some(Summary(t, w.assigneeUserId.value))
    else None
  }

  function ListRow(t: Tables, w: WorkItem): IssueListRow {
    IssueListRow(w.id, w.key, w.title, w.itemType, w.status, w.priority, w.createdAt, AssigneeJoin(t, w))
  }

  function ListRows(t: Tables, rows: seq<WorkItem>): (r: seq<IssueListRow>)
    ensures |r| == |rows|
    ensures forall i :: 0 <= i < |rows| ==> r[i] == ListRow(t, rows[i])
  {
    seq(|rows|, i requires 0 <= i < |rows| => ListRow(t, rows[i]))
  }

  /** ORDER BY created_at DESC. */
  ghost predicate NewestFirst(s: seq<IssueListRow>) {
    forall i, j :: 0 <= i < j < |s| ==> s[i].createdAt >= s[j].createdAt
  }

  /** A row no older than any row of a newest-first list can go in front. */
  lemma PrependNewest(h: IssueListRow, s: seq<IssueListRow>)
    requires NewestFirst(s)
    requires forall i :: 0 <= i < |s| ==> s[i].createdAt <= h.createdAt
    ensures NewestFirst([h] + s)
  {
    var r := [h] + s;
    forall i, j | 0 <= i < j < |r| ensures r[i].createdAt >= r[j].createdAt {
      assert r[j] == s[j - 1];
      if i > 0 {
        assert r[i] == s[i - 1];
      }
    }
  }

  /** Every row of `rest`, which holds `x` and the rows of `s[1..]`, is no
      newer than the head of `s`. */
  lemma HeadIsNewest(x: IssueListRow, s: seq<IssueListRow>, rest: seq<IssueListRow>)
    requires NewestFirst(s) && s != [] && x.createdAt < s[0].createdAt
    requires multiset(rest) == multiset(s[1..]) + multiset{x}
    ensures forall i :: 0 <= i < |rest| ==> rest[i].createdAt <= s[0].createdAt
  {
    forall i | 0 <= i < |rest| ensures rest[i].createdAt <= s[0].createdAt {
      var e := rest[i];
      assert e in multiset(rest);
      if e != x {
        assert e in multiset(s[1..]);
        var k :| 0 <= k < |s[1..]| && s[1..][k] == e;
        assert s[k + 1] == e;
      }
    }
  }

  /** Puts `x` into a list already ordered newest first. */
  function InsertByCreatedAt(x: IssueListRow, s: seq<IssueListRow>): (r: seq<IssueListRow>)
    requires NewestFirst(s)
    ensures multiset(r) == multiset(s) + multiset{x}
    ensures NewestFirst(r)
  {
    if s == [] || x.createdAt >= s[0].createdAt then
      PrependNewest(x, s);
      [x] + s
    else
      var rest := InsertByCreatedAt(x, s[1..]);
      HeadIsNewest(x, s, rest);
      PrependNewest(s[0], rest);
      assert s == [s[0]] + s[1..];
      [s[0]] + rest
  }

  /** The rows ordered newest first: a permutation of the input. */
  function SortNewestFirst(s: seq<IssueListRow>): (r: seq<IssueListRow>)
    ensures multiset(r) == multiset(s)
    ensures NewestFirst(r)
  {
    if s == [] then []
    else
      assert s == [s[0]] + s[1..];
      InsertByCreatedAt(s[0], SortNewestFirst(s[1..]))
  }

  /** getProjectIssues: the project's issues with their assignees, newest
      first; notFound() when the caller may not see the project. */
  function GetProjectIssues(t: Tables, currentUser: UserId, projectKey: string): (r: Result<seq<IssueListRow>, Error>)
    requires UniqueProjectKeys(t.projects)
    ensures r.Failure? <==> GetProjectByKey(t, currentUser, projectKey).Failure?
    ensures r.Failure? ==> r.error == NotFound
    ensures r.Success? ==>
      var pid := GetProjectByKey(t, currentUser, projectKey).value.id;
      && NewestFirst(r.value)
      && multiset(r.value) == multiset(ListRows(t, ProjectItems(t.workItems, pid)))
  {
    match GetProjectByKey(t, currentUser, projectKey)
    case Failure(e) => Failure(e)
    case Success(p) => Success(SortNewestFirst(ListRows(t, ProjectItems(t.workItems, p.id))))
  }

  /** Sorting the rows of some work items keeps one row per item. */
  lemma SortedRowsMatchItems(t: Tables, items: seq<WorkItem>)
    ensures var rows := SortNewestFirst(ListRows(t, items));
      && |rows| == |items|
      && (forall row :: row in rows ==> exists w :: w in items && row == ListRow(t, w))
      && (forall w :: w in items ==> ListRow(t, w) in rows)
  {
    var listed := ListRows(t, items);
    var rows := SortNewestFirst(listed);
    assert |rows| == |listed| by {
      assert |multiset(rows)| == |rows| && |multiset(listed)| == |listed|;
    }
    forall row | row in rows ensures exists w :: w in items && row == ListRow(t, w) {
      assert row in multiset(listed);
      var i :| 0 <= i < |listed| && listed[i] == row;
      assert items[i] in items;
    }
    forall w | w in items ensures ListRow(t, w) in rows {
      var i :| 0 <= i < |items| && items[i] == w;
      assert listed[i] in multiset(listed);
    }
  }

  /** The list holds one row per work item of the project and no other, and
      it is as long as the statistics' total. */
  lemma ProjectIssuesAreProjectRows(t: Tables, currentUser: UserId, projectKey: string)
    requires UniqueProjectKeys(t.projects)
    requires GetProjectIssues(t, currentUser, projectKey).Success?
    ensures var pid := GetProjectByKey(t, currentUser, projectKey).value.id;
      var rows := GetProjectIssues(t, currentUser, projectKey).value;
      && |rows| == GetProjectStats(t, pid).totalIssues
      && (forall row :: row in rows ==> exists w :: w in t.workItems && w.projectId == pid && row == ListRow(t, w))
      && (forall w :: w in t.workItems && w.projectId == pid ==> ListRow(t, w) in rows)
  {
    var pid := GetProjectByKey(t, currentUser, projectKey).value.id;
    var items := ProjectItems(t.workItems, pid);
    assert GetProjectIssues(t, currentUser, projectKey).value == SortNewestFirst(ListRows(t, items));
    SortedRowsMatchItems(t, items);
  }

  // ----- getIssueDetails -----

  /** The detail view of an issue. */
  datatype IssueDetails = IssueDetails(
    id: WorkItemId,
    key: string,
    title: string,
    description: Option<string>,
    itemType: string,
    status: string,
    priority: Option<string>,
    createdAt: Timestamp,
    updatedAt: Timestamp,
    reporter: UserSummary,
    assigneeId: Option<UserId>,
    assignee: Option<UserSummary>)

  /** The WHERE clause and the INNER JOIN on the reporter. */
  predicate DetailsMatch(t: Tables, pid: ProjectId, issueKey: string, w: WorkItem) {
    w.projectId == pid && w.key == issueKey && w.reporterUserId in t.users
  }

  /** The assignee is looked up only when the id is truthy (set and not
      empty); the lookup yields nothing when no user has that id. */
  function AssigneeLookup(t: Tables, assigneeId: Option<UserId>): Option<UserSummary> {
    if assigneeId.Some? && assigneeId.value != "" && assigneeId.value in t.users then Some(Summary(t, assigneeId.value))
    else None
  }

  function Details(t: Tables, w: WorkItem): IssueDetails
    requires w.reporterUserId in t.users
  {
    IssueDetails(w.id, w.key, w.title, w.description, w.itemType, w.status, w.priority, w.createdAt, w.updatedAt,
                 Summary(t, w.reporterUserId), w.assigneeUserId, AssigneeLookup(t, w.assigneeUserId))
  }

  /** getIssueDetails: the first matching row with its reporter and
      assignee, None (null) when there is none, notFound() when the caller
      may not see the project. */
  function GetIssueDetails(t: Tables, currentUser: UserId, projectKey: string, issueKey: string): (r: Result<Option<IssueDetails>, Error>)
    requires UniqueProjectKeys(t.projects)
    ensures r.Failure? <==> GetProjectByKey(t, currentUser, projectKey).Failure?
    ensures r.Failure? ==> r.error == NotFound
    ensures r.Success? ==>
      var pid := GetProjectByKey(t, currentUser, projectKey).value.id;
      && (r.value.None? <==> forall w :: w in t.workItems ==> !DetailsMatch(t, pid, issueKey, w))
      && (r.value.Some? ==>
            exists i :: 0 <= i < |t.workItems| && DetailsMatch(t, pid, issueKey, t.workItems[i])
                        && (forall j :: 0 <= j < i ==> !DetailsMatch(t, pid, issueKey, t.workItems[j]))
                        && r.value.value == Details(t, t.workItems[i]))
  {
    match GetProjectByKey(t, currentUser, projectKey)
    case Failure(e) => Failure(e)
    case Success(p) =>
      match FirstIndex(t.workItems, (w: WorkItem) => DetailsMatch(t, p.id, issueKey, w))
      case None => Success(None)
      case Some(i) => Success(Some(Details(t, t.workItems[i])))
  }

  /** In a consistent database the details are exactly those of the one
      row of the project with that key, and the assignee is present exactly
      when the assignee id is set and non-empty. */
  lemma DetailsOfUniqueRow(t: Tables, currentUser: UserId, projectKey: string, w: WorkItem)
    requires Consistent(t)
    requires GetProjectByKey(t, currentUser, projectKey).Success?
    requires w in t.workItems && w.projectId == GetProjectByKey(t, currentUser, projectKey).value.id
    ensures w.reporterUserId in t.users
    ensures GetIssueDetails(t, currentUser, projectKey, w.key) == Success(Some(Details(t, w)))
    ensures Details(t, w).assignee.Some? <==> w.assigneeUserId.Some? && w.assigneeUserId.value != ""
  {
    var pid := w.projectId;
    assert RowValid(t, w);
    ValidImpliesKeysUnique(t);
    var r := GetIssueDetails(t, currentUser, projectKey, w.key);
    assert DetailsMatch(t, pid, w.key, w);
    var v :| v in t.workItems && DetailsMatch(t, pid, w.key, v) && r.value.value == Details(t, v);
    var i :| 0 <= i < |t.workItems| && t.workItems[i] == w;
    var j :| 0 <= j < |t.workItems| && t.workItems[j] == v;
    assert i == j;
  }

  // ----- createIssue -----

  /** `value || null`: an absent or empty string becomes null. */
  function NullIfEmpty(o: Option<string>): (r: Option<string>)
    ensures r.Some? <==> o.Some? && o.value != ""
    ensures r.Some? ==> r == o
  {
    if o.Some? && o.value != "" then o else None
  }

  /** The counter update: `next_issue_number = next_issue_number + 1`. */
  function Bump(t: Tables, pid: ProjectId): Tables
    requires pid in t.projects
  {
    t.(projects := t.projects[pid := t.projects[pid].(nextIssueNumber := t.projects[pid].nextIssueNumber + 1)])
  }

  /** The row createIssue inserts into project `pid`: the number is the
      counter before the update, the key is derived from it, the status is
      "backlog" and the caller is the reporter. */
  function IssueRow(t: Tables, pid: ProjectId, currentUser: UserId, input: CreateIssueInput,
                    newId: WorkItemId, now: Timestamp): (w: WorkItem)
    requires pid in t.projects && t.projects[pid].nextIssueNumber >= 1
    ensures w.id == newId && w.projectId == pid && w.reporterUserId == currentUser
    ensures w.number == t.projects[pid].nextIssueNumber
    ensures w.key == t.projects[pid].key + "-" + NatToString(w.number)
    ensures w.status == "backlog" && w.priority == Some(input.priority.Name())
    ensures w.title == input.title && w.description == input.description && w.itemType == input.issueType.Name()
    ensures w.assigneeUserId == NullIfEmpty(input.assigneeUserId) && w.parentId == NullIfEmpty(input.parentId)
    ensures w.assigneeUserId.Some? <==> input.assigneeUserId.Some? && input.assigneeUserId.value != ""
    ensures w.parentId.Some? <==> input.parentId.Some? && input.parentId.value != ""
    ensures w.createdAt == now && w.updatedAt == now
  {
    var number := t.projects[pid].nextIssueNumber;
    NewWorkItem(newId, pid, number, IssueKey(t.projects[pid].key, number), input.title, input.description,
                input.issueType.Name(), Some("backlog"), Some(input.priority.Name()), NullIfEmpty(input.parentId),
                currentUser, NullIfEmpty(input.assigneeUserId), now)
  }

  /** In a consistent database neither unique index on work_items can reject
      the new row: the insert fails only on a taken id or a missing user or
      parent. */
  lemma InsertAllowedIffRefsExist(t: Tables, pid: ProjectId, w: WorkItem)
    requires Consistent(t) && pid in t.projects
    requires w.projectId == pid && w.number == t.projects[pid].nextIssueNumber
    requires w.key == IssueKey(t.projects[pid].key, w.number)
    ensures InsertAllowed(Bump(t, pid), w) <==>
      && !HasItem(t.workItems, w.id)
      && w.reporterUserId in t.users
      && (w.assigneeUserId.Some? ==> w.assigneeUserId.value in t.users)
      && (w.parentId.Some? ==> HasItem(t.workItems + [w], w.parentId.value))
  {
    var pk := t.projects[pid].key;
    forall v | v in t.workItems && v.projectId == pid ensures v.number != w.number && v.key != w.key {
      assert RowValid(t, v);
      if v.key == w.key {
        IssueKeyInjective(pk, v.number, w.number);
      }
    }
  }

  /** Inserting the new row after the counter update keeps the database
      consistent. */
  lemma CreateKeepsConsistent(t: Tables, pid: ProjectId, w: WorkItem)
    requires Consistent(t) && pid in t.projects
    requires w.projectId == pid && w.number == t.projects[pid].nextIssueNumber
    requires w.key == IssueKey(t.projects[pid].key, w.number)
    requires InsertAllowed(Bump(t, pid), w)
    ensures Consistent(Bump(t, pid).(workItems := t.workItems + [w]))
  {
    var t' := Bump(t, pid).(workItems := t.workItems + [w]);
    InsertAllowedIffRefsExist(t, pid, w);
    forall v | v in t'.workItems ensures RowValid(t', v) {
      if v in t.workItems {
        assert RowValid(t, v);
        if v.parentId.Some? {
          var k :| 0 <= k < |t.workItems| && t.workItems[k].id == v.parentId.value;
          assert t'.workItems[k].id == v.parentId.value;
        }
      } else {
        assert v == w;
      }
    }
    forall i, j | 0 <= i < j < |t'.workItems| ensures t'.workItems[i].id != t'.workItems[j].id {
      if j == |t.workItems| {
        assert t'.workItems[i] == t.workItems[i];
        assert t'.workItems[j] == w;
      }
    }
    forall i, j | 0 <= i < j < |t'.workItems| && t'.workItems[i].projectId == t'.workItems[j].projectId
      ensures t'.workItems[i].number != t'.workItems[j].number
    {
      if j == |t.workItems| {
        assert t'.workItems[i] in t.workItems;
      }
    }
  }

  /** Creating an issue keeps every project's numbers gapless: the new
      number is exactly the one the counter moves past. */
  lemma CreateKeepsGapless(t: Tables, pid: ProjectId, w: WorkItem, q: ProjectId)
    requires pid in t.projects && q in t.projects && CountersPositive(t.projects)
    requires w.projectId == pid && w.number == t.projects[pid].nextIssueNumber
    requires Gapless(t, q)
    ensures q in Bump(t, pid).projects
    ensures Gapless(Bump(t, pid).(workItems := t.workItems + [w]), q)
  {
    var t' := Bump(t, pid).(workItems := t.workItems + [w]);
    forall n ensures n in NumbersOf(t'.workItems, q) <==> 1 <= n < t'.projects[q].nextIssueNumber {
      assert n in NumbersOf(t.workItems, q) ==> n in NumbersOf(t'.workItems, q) by {
        if n in NumbersOf(t.workItems, q) {
          var v :| v in t.workItems && v.projectId == q && v.number == n;
          assert v in t'.workItems;
        }
      }
      if n in NumbersOf(t'.workItems, q) {
        var v :| v in t'.workItems && v.projectId == q && v.number == n;
        if v != w {
          assert v in t.workItems;
        }
      }
      if q == pid && n == w.number {
        assert w in t'.workItems;
      }
    }
  }

  /** createIssue. The counter update and the insert form one transaction:
      when the insert violates a constraint the counter update is rolled
      back and nothing changes. */
  method CreateIssue(db: Database, currentUser: UserId, projectKey: string, input: CreateIssueInput,
                     newId: WorkItemId, now: Timestamp) returns (r: Result<WorkItem, Error>)
    requires db.Valid()
    modifies db
    ensures db.Valid()
    ensures var t := old(db.Snapshot());
      var access := GetProjectByKey(t, currentUser, projectKey);
      if access.Failure? then
        r == Failure(NotFound) && db.Snapshot() == t
      else
        var w := IssueRow(t, access.value.id, currentUser, input, newId, now);
        if InsertAllowed(Bump(t, access.value.id), w) then
          r == Success(w) && db.Snapshot() == Bump(t, access.value.id).(workItems := t.workItems + [w])
        else
          r == Failure(ConstraintViolation) && db.Snapshot() == t
  {
    var t := db.Snapshot();
    var access := GetProjectByKey(t, currentUser, projectKey);
    if access.Failure? {
      return Failure(NotFound);
    }
    var project := access.value;
    var saved := db.projects;
    var updated := db.projects[project.id].nextIssueNumber + 1;
    db.projects := db.projects[project.id := db.projects[project.id].(nextIssueNumber := updated)];
    assert db.Snapshot() == Bump(t, project.id);
    var issueNumber := updated - 1;
    assert issueNumber == t.projects[project.id].nextIssueNumber >= 1;
    var issueKey := IssueKey(project.key, issueNumber);
    var item := NewWorkItem(newId, project.id, issueNumber, issueKey, input.title, input.description,
                            input.issueType.Name(), Some("backlog"), Some(input.priority.Name()),
                            NullIfEmpty(input.parentId), currentUser, NullIfEmpty(input.assigneeUserId), now);
    assert item == IssueRow(t, project.id, currentUser, input, newId, now);
    if !InsertAllowed(db.Snapshot(), item) {
      db.projects := saved;
      return Failure(ConstraintViolation);
    }
    db.workItems := db.workItems + [item];
    assert db.Snapshot() == Bump(t, project.id).(workItems := t.workItems + [item]);
    CreateKeepsConsistent(t, project.id, item);
    r := Success(item);
  }

  /** A created issue can be looked up by the key it was given. */
  lemma CreatedIssueIsFound(t: Tables, currentUser: UserId, projectKey: string, input: CreateIssueInput,
                            newId: WorkItemId, now: Timestamp)
    requires Consistent(t)
    requires GetProjectByKey(t, currentUser, projectKey).Success?
    requires var pid := GetProjectByKey(t, currentUser, projectKey).value.id;
      InsertAllowed(Bump(t, pid), IssueRow(t, pid, currentUser, input, newId, now))
    ensures var pid := GetProjectByKey(t, currentUser, projectKey).value.id;
      var w := IssueRow(t, pid, currentUser, input, newId, now);
      var t' := Bump(t, pid).(workItems := t.workItems + [w]);
      && Consistent(t')
      && w.reporterUserId in t'.users
      && GetIssueDetails(t', currentUser, projectKey, w.key) == Success(Some(Details(t', w)))
  {
    var pid := GetProjectByKey(t, currentUser, projectKey).value.id;
    var w := IssueRow(t, pid, currentUser, input, newId, now);
    var t' := Bump(t, pid).(workItems := t.workItems + [w]);
    CreateKeepsConsistent(t, pid, w);
    assert IsMemberProject(t', currentUser, pid, projectKey);
    assert GetProjectByKey(t', currentUser, projectKey).value.id == pid;
    assert w in t'.workItems;
    DetailsOfUniqueRow(t', currentUser, projectKey, w);
  }

  /** The first keys a fresh project hands out. */
  lemma FirstKeys()
    ensures IssueKey("ABC", 1) == "ABC-1"
    ensures IssueKey("ABC", 2) == "ABC-2"
    ensures IssueKey("ABC", 12) == "ABC-12"
  {
    assert NatToString(1) == "1";
    assert NatToString(2) == "2";
    assert NatToString(12) == NatToString(1) + [DigitChar(2)] == "12";
  }

  // ----- updateIssueStatus -----

  predicate KeyMatch(pid: ProjectId, issueKey: string, w: WorkItem) {
    w.projectId == pid && w.key == issueKey
  }

  /** UPDATE work_items SET status, updated_at WHERE project and key match. */
  function SetStatus(rows: seq<WorkItem>, pid: ProjectId, issueKey: string, status: string, now: Timestamp): (r: seq<WorkItem>)
    ensures |r| == |rows|
    ensures forall i :: 0 <= i < |rows| ==>
      r[i] == if KeyMatch(pid, issueKey, rows[i]) then rows[i].(status := status, updatedAt := now) else rows[i]
  {
    seq(|rows|, i requires 0 <= i < |rows| =>
      if KeyMatch(pid, issueKey, rows[i]) then rows[i].(status := status, updatedAt := now) else rows[i])
  }

  /** A status change touches no column any constraint reads. */
  lemma SetStatusKeepsConsistent(t: Tables, pid: ProjectId, issueKey: string, status: string, now: Timestamp)
    requires Consistent(t)
    ensures Consistent(t.(workItems := SetStatus(t.workItems, pid, issueKey, status, now)))
  {
    var rows' := SetStatus(t.workItems, pid, issueKey, status, now);
    var t' := t.(workItems := rows');
    forall v' | v' in rows' ensures RowValid(t', v') {
      var i :| 0 <= i < |rows'| && rows'[i] == v';
      assert RowValid(t, t.workItems[i]);
      if v'.parentId.Some? {
        var k :| 0 <= k < |t.workItems| && t.workItems[k].id == v'.parentId.value;
        assert rows'[k].id == v'.parentId.value;
      }
    }
  }

  /** In a consistent database at most one row changes, and it is the row
      of the project with that key. */
  lemma SetStatusChangesOneRow(t: Tables, pid: ProjectId, issueKey: string, status: string, now: Timestamp, i: int, j: int)
    requires Consistent(t)
    requires 0 <= i < |t.workItems| && 0 <= j < |t.workItems|
    requires SetStatus(t.workItems, pid, issueKey, status, now)[i] != t.workItems[i]
    requires SetStatus(t.workItems, pid, issueKey, status, now)[j] != t.workItems[j]
    ensures i == j
  {
    ValidImpliesKeysUnique(t);
    assert KeyMatch(pid, issueKey, t.workItems[i]) && KeyMatch(pid, issueKey, t.workItems[j]);
  }

  /** updateIssueStatus: every row of the project with that key gets the
      status and a new updated_at; the first updated row is returned, or
      None when no row matched. Any status text is accepted. */
  method UpdateIssueStatus(db: Database, currentUser: UserId, projectKey: string, issueKey: string,
                           status: string, now: Timestamp) returns (r: Result<Option<WorkItem>, Error>)
    requires db.Valid()
    modifies db
    ensures db.Valid()
    ensures var t := old(db.Snapshot());
      var access := GetProjectByKey(t, currentUser, projectKey);
      if access.Failure? then
        r == Failure(NotFound) && db.Snapshot() == t
      else
        && db.Snapshot() == t.(workItems := SetStatus(t.workItems, access.value.id, issueKey, status, now))
        && r.Success?
        && (r.value.None? <==> forall w :: w in t.workItems ==> !KeyMatch(access.value.id, issueKey, w))
        && (r.value.Some? ==>
             exists w :: w in t.workItems && KeyMatch(access.value.id, issueKey, w)
                         && r.value.value == w.(status := status, updatedAt := now))
  {
    var t := db.Snapshot();
    var access := GetProjectByKey(t, currentUser, projectKey);
    if access.Failure? {
      return Failure(NotFound);
    }
    var pid := access.value.id;
    db.workItems := SetStatus(db.workItems, pid, issueKey, status, now);
    SetStatusKeepsConsistent(t, pid, issueKey, status, now);
    match FirstIndex(t.workItems, (w: WorkItem) => KeyMatch(pid, issueKey, w)) {
      case None =>
        r := Success(None);
      case Some(i) =>
        assert t.workItems[i] in t.workItems;
        r := Success(Some(db.workItems[i]));
    }
  }

  /** After a status change the issue's details show the new status. */
  lemma UpdatedStatusIsShown(t: Tables, currentUser: UserId, projectKey: string, w: WorkItem, status: string, now: Timestamp)
    requires Consistent(t)
    requires GetProjectByKey(t, currentUser, projectKey).Success?
    requires w in t.workItems && w.projectId == GetProjectByKey(t, currentUser, projectKey).value.id
    ensures var t' := t.(workItems := SetStatus(t.workItems, w.projectId, w.key, status, now));
      && GetIssueDetails(t', currentUser, projectKey, w.key).Success?
      && GetIssueDetails(t', currentUser, projectKey, w.key).value.Some?
      && GetIssueDetails(t', currentUser, projectKey, w.key).value.value.status == status
  {
    var t' := t.(workItems := SetStatus(t.workItems, w.projectId, w.key, status, now));
    SetStatusKeepsConsistent(t, w.projectId, w.key, status, now);
    var i :| 0 <= i < |t.workItems| && t.workItems[i] == w;
    var w' := t'.workItems[i];
    assert w' in t'.workItems;
    DetailsOfUniqueRow(t', currentUser, projectKey, w');
  }
}
