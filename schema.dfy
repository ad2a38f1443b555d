/** The tables of the tracker (src/db/schema/projects.ts, with the columns of
    the user table the server reads), their column defaults, the constraints
    the database enforces (primary keys, unique indexes, foreign keys), the
    invariant that ties issue numbers to the project counter, and the
    cascade rules of the foreign keys. */
module Schema {
  import opened Wrappers
  import opened IssueKeys
  import opened Seqs
  import Enums

  /** Identifiers are opaque strings (cuid2 values in the database). */
  type UserId = string
  type ProjectId = string
  type WorkItemId = string

  /** CURRENT_TIMESTAMP values, used only for their order. */
  type Timestamp = int

  /** The columns of the user table the core reads. */
  datatype User = User(name: string, email: string, avatarUrl: Option<string>)

  /** A row of `projects`; its id is the key of the projects map. */
  datatype Project = Project(
    key: string,
    name: string,
    description: Option<string>,
    linkedRepoId: Option<string>,
    nextIssueNumber: int,
    createdByUser: UserId,
    createdAt: Timestamp,
    updatedAt: Timestamp)

  /** A row of `project_memberships`; (projectId, userId) is its key in the map. */
  datatype Membership = Membership(role: string, createdAt: Timestamp, updatedAt: Timestamp)

  /** A row of `work_items`. Status, type and priority are free text columns. */
  datatype WorkItem = WorkItem(
    id: WorkItemId,
    projectId: ProjectId,
    number: int,
    key: string,
    title: string,
    description: Option<string>,
    itemType: string,
    status: string,
    priority: Option<string>,
    labelsJson: string,
    dueDate: Option<string>,
    parentId: Option<WorkItemId>,
    reporterUserId: UserId,
    assigneeUserId: Option<UserId>,
    createdAt: Timestamp,
    updatedAt: Timestamp,
    closedAt: Option<Timestamp>)

  /** The database. Projects are keyed by id and memberships by their
      composite primary key, so each of those keys names at most one row;
      work items are kept in row order. */
  datatype Tables = Tables(
    users: map<UserId, User>,
    projects: map<ProjectId, Project>,
    memberships: map<(ProjectId, UserId), Membership>,
    workItems: seq<WorkItem>)

  // Column defaults.
  const DEFAULT_NEXT_ISSUE_NUMBER := 1
  const DEFAULT_MEMBERSHIP_ROLE := "member"
  const DEFAULT_STATUS := "backlog"
  const DEFAULT_PRIORITY := "medium"
  const DEFAULT_LABELS_JSON := "[]"

  /** A projects row inserted with only the required columns. */
  function NewProject(key: string, name: string, description: Option<string>, createdBy: UserId, now: Timestamp): Project {
    Project(key, name, description, None, DEFAULT_NEXT_ISSUE_NUMBER, createdBy, now, now)
  }

  /** A membership row; an omitted role takes the column default. */
  function NewMembership(role: Option<string>, now: Timestamp): Membership {
    Membership(role.GetOr(DEFAULT_MEMBERSHIP_ROLE), now, now)
  }

  /** A work_items row; an omitted status or priority takes the column default. */
  function NewWorkItem(id: WorkItemId, projectId: ProjectId, number: int, key: string, title: string,
                       description: Option<string>, itemType: string, status: Option<string>,
                       priority: Option<string>, parentId: Option<WorkItemId>, reporter: UserId,
                       assignee: Option<UserId>, now: Timestamp): WorkItem
  {
    WorkItem(id, projectId, number, key, title, description, itemType, status.GetOr(DEFAULT_STATUS),
             Some(priority.GetOr(DEFAULT_PRIORITY)), DEFAULT_LABELS_JSON, None, parentId, reporter,
             assignee, now, now, None)
  }

  /** What an insert that omits the defaulted columns stores, and that the
      defaults are the ones the enumeration module names. */
  lemma ColumnDefaults(key: string, name: string, description: Option<string>, user: UserId, now: Timestamp,
                       id: WorkItemId, pid: ProjectId, n: int, ikey: string, itemType: string)
    ensures NewProject(key, name, description, user, now).nextIssueNumber == 1
    ensures NewMembership(None, now).role == "member" == Enums.DEFAULT_PROJECT_ROLE.Name()
    ensures var w := NewWorkItem(id, pid, n, ikey, name, description, itemType, None, None, None, user, None, now);
      w.status == "backlog" == Enums.DEFAULT_WORK_ITEM_STATUS.Name() &&
      w.priority == Some("medium") && "medium" == Enums.DEFAULT_WORK_ITEM_PRIORITY.Name()
  {
  }

  // ----- Constraints and invariants -----

  /** `user.email` is unique. */
  ghost predicate UniqueEmails(users: map<UserId, User>) {
    forall a, b :: a in users && b in users && users[a].email == users[b].email ==> a == b
  }

  /** `project_key_ux`: no two projects share a key. */
  ghost predicate UniqueProjectKeys(projects: map<ProjectId, Project>) {
    forall p, q :: p in projects && q in projects && projects[p].key == projects[q].key ==> p == q
  }

  ghost predicate CountersPositive(projects: map<ProjectId, Project>) {
    forall p :: p in projects ==> projects[p].nextIssueNumber >= 1
  }

  /** Every project's creator is an existing user (`created_by_user`,
      on delete restrict). */
  ghost predicate ProjectRefsValid(t: Tables) {
    forall p :: p in t.projects ==> t.projects[p].createdByUser in t.users
  }

  /** Memberships reference existing projects and users. */
  ghost predicate MembershipRefsValid(t: Tables) {
    forall k :: k in t.memberships ==> k.0 in t.projects && k.1 in t.users
  }

  predicate HasItem(rows: seq<WorkItem>, id: WorkItemId) {
    exists i :: 0 <= i < |rows| && rows[i].id == id
  }

  /** The primary key of work_items. */
  ghost predicate ItemIdsUnique(rows: seq<WorkItem>) {
    forall i, j :: 0 <= i < j < |rows| ==> rows[i].id != rows[j].id
  }

  /** `wi_project_number_ux`. */
  ghost predicate NumbersUnique(rows: seq<WorkItem>) {
    forall i, j :: 0 <= i < j < |rows| && rows[i].projectId == rows[j].projectId ==> rows[i].number != rows[j].number
  }

  /** `wi_project_key_ux`. */
  ghost predicate KeysUnique(rows: seq<WorkItem>) {
    forall i, j :: 0 <= i < j < |rows| && rows[i].projectId == rows[j].projectId ==> rows[i].key != rows[j].key
  }

  /** A row's foreign keys hold, its number was taken from its project's
      counter (1 <= number < nextIssueNumber), and its key is derived from
      the project key and the number. */
  ghost predicate RowValid(t: Tables, w: WorkItem) {
    && w.projectId in t.projects
    && 1 <= w.number < t.projects[w.projectId].nextIssueNumber
    && w.key == IssueKey(t.projects[w.projectId].key, w.number)
    && w.reporterUserId in t.users
    && (w.assigneeUserId.Some? ==> w.assigneeUserId.value in t.users)
    && (w.parentId.Some? ==> HasItem(t.workItems, w.parentId.value))
  }

  /** Everything the database and the server code keep true between requests. */
  ghost predicate Consistent(t: Tables) {
    && UniqueEmails(t.users)
    && UniqueProjectKeys(t.projects)
    && CountersPositive(t.projects)
    && ProjectRefsValid(t)
    && MembershipRefsValid(t)
    && ItemIdsUnique(t.workItems)
    && NumbersUnique(t.workItems)
    && forall w :: w in t.workItems ==> RowValid(t, w)
  }

  /** The unique index on (project, key) follows from the one on
      (project, number), because keys are derived from numbers. */
  lemma ValidImpliesKeysUnique(t: Tables)
    requires Consistent(t)
    ensures KeysUnique(t.workItems)
  {
    var rows := t.workItems;
    forall i, j | 0 <= i < j < |rows| && rows[i].projectId == rows[j].projectId
      ensures rows[i].key != rows[j].key
    {
      assert RowValid(t, rows[i]) && RowValid(t, rows[j]);
      var pk := t.projects[rows[i].projectId].key;
      if rows[i].key == rows[j].key {
        IssueKeyInjective(pk, rows[i].number, rows[j].number);
      }
    }
  }

  /** The numbers used so far in project `pid`. */
  ghost function NumbersOf(rows: seq<WorkItem>, pid: ProjectId): set<int> {
    set w | w in rows && w.projectId == pid :: w.number
  }

  /** The numbers of project `pid` are exactly 1 .. nextIssueNumber - 1: none
      skipped. Holds while issues are only created, never deleted. */
  ghost predicate Gapless(t: Tables, pid: ProjectId)
    requires pid in t.projects
  {
    forall n :: n in NumbersOf(t.workItems, pid) <==> 1 <= n < t.projects[pid].nextIssueNumber
  }

  /** The checks the database makes when a work_items row is inserted: the
      primary key, both unique indexes and the foreign keys (a parent may be
      the row itself, as the constraints are enforced after the insert). */
  predicate InsertAllowed(t: Tables, w: WorkItem) {
    && !HasItem(t.workItems, w.id)
    && (forall v :: v in t.workItems && v.projectId == w.projectId ==> v.number != w.number)
    && (forall v :: v in t.workItems && v.projectId == w.projectId ==> v.key != w.key)
    && w.projectId in t.projects
    && w.reporterUserId in t.users
    && (w.assigneeUserId.Some? ==> w.assigneeUserId.value in t.users)
    && (w.parentId.Some? ==> HasItem(t.workItems + [w], w.parentId.value))
  }

  // ----- Cascade rules -----

  /** ON DELETE SET NULL on parent_id, for the deleted ids `gone`. */
  function ClearParent(w: WorkItem, gone: set<WorkItemId>): WorkItem {
    if w.parentId.Some? && w.parentId.value in gone then w.(parentId := None) else w
  }

  function ClearParents(rows: seq<WorkItem>, gone: set<WorkItemId>): (r: seq<WorkItem>)
    ensures |r| == |rows| && forall i :: 0 <= i < |rows| ==> r[i] == ClearParent(rows[i], gone)
  {
    seq(|rows|, i requires 0 <= i < |rows| => ClearParent(rows[i], gone))
  }

  /** DELETE FROM projects: its memberships and work items go with it (ON
      DELETE CASCADE), and rows whose parent was one of those work items lose
      their parent (ON DELETE SET NULL). */
  function DeleteProject(t: Tables, pid: ProjectId): Tables {
    var gone := set w | w in t.workItems && w.projectId == pid :: w.id;
    var kept := Filter(t.workItems, (w: WorkItem) => w.projectId != pid);
    Tables(t.users,
           map p | p in t.projects && p != pid :: t.projects[p],
           map k | k in t.memberships && k.0 != pid :: t.memberships[k],
           ClearParents(kept, gone))
  }

  /** DELETE FROM work_items: children of the row lose their parent. */
  function DeleteWorkItem(t: Tables, id: WorkItemId): Tables {
    var kept := Filter(t.workItems, (w: WorkItem) => w.id != id);
    t.(workItems := ClearParents(kept, {id}))
  }

  /** Deleting a project leaves no project, membership or work item of it,
      keeps every other project and membership, and keeps every other work
      item except for clearing parents that were deleted. */
  lemma DeleteProjectCascades(t: Tables, pid: ProjectId)
    ensures var t' := DeleteProject(t, pid);
      && pid !in t'.projects
      && (forall k :: k in t'.memberships ==> k.0 != pid)
      && (forall w :: w in t'.workItems ==> w.projectId != pid)
      && (forall p :: p in t.projects && p != pid ==> p in t'.projects && t'.projects[p] == t.projects[p])
      && (forall k :: k in t.memberships && k.0 != pid ==> k in t'.memberships && t'.memberships[k] == t.memberships[k])
      && (forall w :: w in t.workItems && w.projectId != pid ==>
            ClearParent(w, set v | v in t.workItems && v.projectId == pid :: v.id) in t'.workItems)
  {
    var gone := set v | v in t.workItems && v.projectId == pid :: v.id;
    var kept := Filter(t.workItems, (w: WorkItem) => w.projectId != pid);
    var rows' := ClearParents(kept, gone);
    forall w | w in rows' ensures w.projectId != pid {
      var i :| 0 <= i < |rows'| && rows'[i] == w;
      assert kept[i] in kept;
    }
    forall w | w in t.workItems && w.projectId != pid ensures ClearParent(w, gone) in rows' {
      assert w in kept;
      var i :| 0 <= i < |kept| && kept[i] == w;
      assert rows'[i] == ClearParent(w, gone);
    }
  }

  /** Deleting a work item removes it and clears the parent of its children;
      every other row stays, with at most its parent cleared. */
  lemma DeleteWorkItemSetsNull(t: Tables, id: WorkItemId)
    ensures var rows' := DeleteWorkItem(t, id).workItems;
      && !HasItem(rows', id)
      && (forall w :: w in rows' ==> w.parentId != Some(id))
      && (forall w :: w in t.workItems && w.id != id ==> ClearParent(w, {id}) in rows')
  {
    var kept := Filter(t.workItems, (w: WorkItem) => w.id != id);
    var rows' := ClearParents(kept, {id});
    forall i | 0 <= i < |rows'| ensures rows'[i].id != id && rows'[i].parentId != Some(id) {
      assert kept[i] in kept;
    }
    forall w | w in t.workItems && w.id != id ensures ClearParent(w, {id}) in rows' {
      assert w in kept;
      var i :| 0 <= i < |kept| && kept[i] == w;
      assert rows'[i] == ClearParent(w, {id});
    }
  }

  /** Clearing parents from a filtered table keeps the table-wide
      uniqueness of ids and numbers. */
  lemma ClearedFilterKeepsUnique(rows: seq<WorkItem>, keep: WorkItem -> bool, gone: set<WorkItemId>)
    requires ItemIdsUnique(rows) && NumbersUnique(rows)
    ensures ItemIdsUnique(ClearParents(Filter(rows, keep), gone))
    ensures NumbersUnique(ClearParents(Filter(rows, keep), gone))
  {
    var kept := Filter(rows, keep);
    FilterKeepsPairwise(rows, keep, (a: WorkItem, b: WorkItem) => a.id != b.id);
    FilterKeepsPairwise(rows, keep, (a: WorkItem, b: WorkItem) => a.projectId == b.projectId ==> a.number != b.number);
    assert forall i, j :: 0 <= i < j < |kept| ==> kept[i].id != kept[j].id;
  }

  /** A row of `kept` (cleared of the parents in `gone`) still has its parent
      when that parent is not in `gone` and was kept. */
  lemma ParentSurvives(rows: seq<WorkItem>, keep: WorkItem -> bool, gone: set<WorkItemId>, q: WorkItemId)
    requires HasItem(rows, q)
    requires forall v :: v in rows && v.id == q ==> keep(v)
    ensures HasItem(ClearParents(Filter(rows, keep), gone), q)
  {
    var i :| 0 <= i < |rows| && rows[i].id == q;
    var kept := Filter(rows, keep);
    assert rows[i] in kept;
    var k :| 0 <= k < |kept| && kept[k] == rows[i];
    assert ClearParents(kept, gone)[k].id == q;
  }

  /** Deleting a project keeps the database valid. */
  lemma DeleteProjectKeepsValid(t: Tables, pid: ProjectId)
    requires Consistent(t)
    ensures Consistent(DeleteProject(t, pid))
  {
    var t' := DeleteProject(t, pid);
    var gone := set v | v in t.workItems && v.projectId == pid :: v.id;
    var keep := (w: WorkItem) => w.projectId != pid;
    var kept := Filter(t.workItems, keep);
    assert t'.workItems == ClearParents(kept, gone);
    ClearedFilterKeepsUnique(t.workItems, keep, gone);
    forall w' | w' in t'.workItems ensures RowValid(t', w') {
      var i :| 0 <= i < |t'.workItems| && t'.workItems[i] == w';
      var w := kept[i];
      assert w in kept;
      assert RowValid(t, w);
      if w'.parentId.Some? {
        var q := w'.parentId.value;
        assert q !in gone && w.parentId == Some(q);
        assert forall v :: v in t.workItems && v.id == q ==> keep(v);
        ParentSurvives(t.workItems, keep, gone, q);
      }
    }
  }

  /** Deleting a work item keeps the database valid. */
  lemma DeleteWorkItemKeepsValid(t: Tables, id: WorkItemId)
    requires Consistent(t)
    ensures Consistent(DeleteWorkItem(t, id))
  {
    var t' := DeleteWorkItem(t, id);
    var keep := (w: WorkItem) => w.id != id;
    var kept := Filter(t.workItems, keep);
    assert t'.workItems == ClearParents(kept, {id});
    ClearedFilterKeepsUnique(t.workItems, keep, {id});
    forall w' | w' in t'.workItems ensures RowValid(t', w') {
      var i :| 0 <= i < |t'.workItems| && t'.workItems[i] == w';
      var w := kept[i];
      assert w in kept;
      assert RowValid(t, w);
      if w'.parentId.Some? {
        var q := w'.parentId.value;
        assert q != id && w.parentId == Some(q);
        ParentSurvives(t.workItems, keep, {id}, q);
      }
    }
  }

  /** The database object the server functions share (`db`). Each table is a
      field the operations reassign. */
  class Database {
    var users: map<UserId, User>
    var projects: map<ProjectId, Project>
    var memberships: map<(ProjectId, UserId), Membership>
    var workItems: seq<WorkItem>

    /** A database with the given users and no projects. */
    constructor (users: map<UserId, User>)
      requires UniqueEmails(users)
      ensures Valid()
      ensures this.users == users && projects == map[] && memberships == map[] && workItems == []
    {
      this.users := users;
      projects := map[];
      memberships := map[];
      workItems := [];
    }

    function Snapshot(): Tables
      reads this
    {
      Tables(users, projects, memberships, workItems)
    }

    ghost predicate Valid()
      reads this
    {
      Consistent(Snapshot())
    }
  }
}
