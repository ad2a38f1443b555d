/** The read side of projects (src/server/projects.ts): the membership-gated
    lookup by key, the caller's project list, and the issue statistics. */
module Projects {
  import opened Wrappers
  import opened Errors
  import opened Schema
  import opened Seqs

  /** A row of projects joined with the caller's membership. */
  datatype ProjectAccess = ProjectAccess(id: ProjectId, name: string, key: string, description: Option<string>, role: string)

  /** Project `pid` has key `projectKey` and `user` holds a membership in it. */
  predicate IsMemberProject(t: Tables, user: UserId, pid: ProjectId, projectKey: string) {
    pid in t.projects && t.projects[pid].key == projectKey && (pid, user) in t.memberships
  }

  function AccessRow(t: Tables, pid: ProjectId, user: UserId): ProjectAccess
    requires pid in t.projects && (pid, user) in t.memberships
  {
    var p := t.projects[pid];
    ProjectAccess(pid, p.name, p.key, p.description, t.memberships[(pid, user)].role)
  }

  /** getProjectByKey: the project with this key, if the caller is a member
      of it, with the caller's role; notFound() otherwise. The unique index
      on the key makes the row unique. */
  function GetProjectByKey(t: Tables, currentUser: UserId, projectKey: string): (r: Result<ProjectAccess, Error>)
    requires UniqueProjectKeys(t.projects)
    ensures r.Success? <==> exists pid :: IsMemberProject(t, currentUser, pid, projectKey)
    ensures r.Success? ==>
      && IsMemberProject(t, currentUser, r.value.id, projectKey)
      && r.value.key == projectKey
      && r.value.role == t.memberships[(r.value.id, currentUser)].role
      && r.value == AccessRow(t, r.value.id, currentUser)
    ensures r.Failure? ==> r.error == NotFound
  {
    if exists pid :: pid in t.projects && IsMemberProject(t, currentUser, pid, projectKey) then
      var pid :| pid in t.projects && IsMemberProject(t, currentUser, pid, projectKey);
      Success(AccessRow(t, pid, currentUser))
    else
      Failure(NotFound)
  }

  /** getUserProjects: one row per project the caller is a member of. */
  function GetUserProjects(t: Tables, currentUser: UserId): (r: set<ProjectAccess>)
    ensures forall a :: a in r ==>
      a.id in t.projects && (a.id, currentUser) in t.memberships && a == AccessRow(t, a.id, currentUser)
    ensures forall pid :: pid in t.projects && (pid, currentUser) in t.memberships ==>
      AccessRow(t, pid, currentUser) in r
  {
    set pid | pid in t.projects && (pid, currentUser) in t.memberships :: AccessRow(t, pid, currentUser)
  }

  /** The caller's project list and the gated lookup agree: a row is listed
      exactly when looking its key up returns that row. */
  lemma UserProjectsAgreeWithLookup(t: Tables, user: UserId, a: ProjectAccess)
    requires UniqueProjectKeys(t.projects)
    ensures a in GetUserProjects(t, user) <==> GetProjectByKey(t, user, a.key) == Success(a)
  {
    var r := GetProjectByKey(t, user, a.key);
    if a in GetUserProjects(t, user) {
      assert IsMemberProject(t, user, a.id, a.key);
      assert r.Success?;
      assert t.projects[r.value.id].key == t.projects[a.id].key;
    }
  }

  // ----- getProjectStats -----

  /** A row of `SELECT status, count() ... GROUP BY status`. */
  datatype StatusCount = StatusCount(status: string, count: nat)

  datatype ProjectStats = ProjectStats(totalIssues: nat, doneIssues: nat)

  /** The work items of one project, in row order. */
  function ProjectItems(rows: seq<WorkItem>, pid: ProjectId): seq<WorkItem> {
    Filter(rows, (w: WorkItem) => w.projectId == pid)
  }

  /** The number of rows with status `s`. */
  function CountStatus(rows: seq<WorkItem>, s: string): nat {
    Count(rows, (w: WorkItem) => w.status == s)
  }

  /** One row into GROUP BY status: its group's count grows, or a group starts. */
  function AddToGroups(groups: seq<StatusCount>, s: string): seq<StatusCount> {
    if groups == [] then [StatusCount(s, 1)]
    else if groups[0].status == s then [groups[0].(count := groups[0].count + 1)] + groups[1..]
    else [groups[0]] + AddToGroups(groups[1..], s)
  }

  /** GROUP BY status, with groups in the order their status first occurs. */
  function GroupByStatus(rows: seq<WorkItem>): seq<StatusCount>
    decreases |rows|
  {
    if rows == [] then [] else AddToGroups(GroupByStatus(rows[..|rows| - 1]), rows[|rows| - 1].status)
  }

  /** `stats.reduce((acc, curr) => acc + curr.count, 0)`. */
  function SumCounts(groups: seq<StatusCount>): nat {
    if groups == [] then 0 else groups[0].count + SumCounts(groups[1..])
  }

  /** `stats.find((s) => s.status === status)`. */
  function FindGroup(groups: seq<StatusCount>, status: string): Option<StatusCount> {
    if groups == [] then None
    else if groups[0].status == status then Some(groups[0])
    else FindGroup(groups[1..], status)
  }

  /** `stats.find(...)?.count || 0`. */
  function GroupCount(groups: seq<StatusCount>, status: string): nat {
    match FindGroup(groups, status)
    case Some(g) => g.count
    case None => 0
  }

  lemma {:induction false} AddToGroupsSum(groups: seq<StatusCount>, s: string)
    ensures SumCounts(AddToGroups(groups, s)) == SumCounts(groups) + 1
  {
    if groups != [] && groups[0].status != s {
      AddToGroupsSum(groups[1..], s);
      assert AddToGroups(groups, s)[1..] == AddToGroups(groups[1..], s);
    } else if groups != [] {
      assert AddToGroups(groups, s)[1..] == groups[1..];
    }
  }

  lemma {:induction false} AddToGroupsCount(groups: seq<StatusCount>, s: string, x: string)
    ensures GroupCount(AddToGroups(groups, s), x) == GroupCount(groups, x) + (if x == s then 1 else 0)
  {
    var added := AddToGroups(groups, s);
    if groups == [] {
      assert added[1..] == [];
    } else if groups[0].status != s {
      AddToGroupsCount(groups[1..], s, x);
      assert added[1..] == AddToGroups(groups[1..], s);
    } else {
      assert added[1..] == groups[1..];
    }
  }

  /** The group counts add up to the number of rows grouped. */
  lemma {:induction false} GroupSumIsRowCount(rows: seq<WorkItem>)
    ensures SumCounts(GroupByStatus(rows)) == |rows|
    decreases |rows|
  {
    if rows != [] {
      GroupSumIsRowCount(rows[..|rows| - 1]);
      AddToGroupsSum(GroupByStatus(rows[..|rows| - 1]), rows[|rows| - 1].status);
    }
  }

  /** The group of a status counts the rows with that status (0 when absent). */
  lemma {:induction false} GroupCountIsStatusCount(rows: seq<WorkItem>, x: string)
    ensures GroupCount(GroupByStatus(rows), x) == CountStatus(rows, x)
    decreases |rows|
  {
    if rows != [] {
      var prefix, last := rows[..|rows| - 1], rows[|rows| - 1];
      GroupCountIsStatusCount(prefix, x);
      AddToGroupsCount(GroupByStatus(prefix), last.status, x);
      assert rows == prefix + [last];
      FilterAppend(prefix, [last], (w: WorkItem) => w.status == x);
    }
  }

  /** getProjectStats: the number of the project's issues, and the number of
      them whose status is "done". */
  function GetProjectStats(t: Tables, projectId: ProjectId): (r: ProjectStats)
    ensures r.totalIssues == |ProjectItems(t.workItems, projectId)|
    ensures r.doneIssues == CountStatus(ProjectItems(t.workItems, projectId), "done")
    ensures r.doneIssues <= r.totalIssues
  {
    var items := ProjectItems(t.workItems, projectId);
    var groups := GroupByStatus(items);
    GroupSumIsRowCount(items);
    GroupCountIsStatusCount(items, "done");
    ProjectStats(SumCounts(groups), GroupCount(groups, "done"))
  }
}
