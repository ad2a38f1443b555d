/** The closed value lists of the database layer (src/db/enums.ts), the
    membership test over them, and their default members. Each list is kept as
    the list of strings the source declares, and as a datatype whose `Name`
    gives the string. */
module Enums {
  import opened Wrappers

  const SYSTEM_ROLES: seq<string> := ["admin", "user", "project_manager"]
  const WORK_ITEM_TYPES: seq<string> := ["epic", "story", "task", "bug", "subtask"]
  const WORK_ITEM_STATUSES: seq<string> := ["backlog", "todo", "in_progress", "in_review", "done", "cancelled"]
  const WORK_ITEM_PRIORITIES: seq<string> := ["lowest", "low", "medium", "high", "highest"]
  const PROJECT_ROLES: seq<string> := ["owner", "admin", "member", "viewer"]
  const PR_STATES: seq<string> := ["open", "closed", "merged"]

  /** `enumValues.includes(value)`: a scan from the front of the list. */
  function IsValidEnum(value: string, enumValues: seq<string>): (b: bool)
    ensures b <==> value in enumValues
  {
    if enumValues == [] then false
    else enumValues[0] == value || IsValidEnum(value, enumValues[1..])
  }

  predicate Distinct(xs: seq<string>) {
    forall i, j :: 0 <= i < j < |xs| ==> xs[i] != xs[j]
  }

  /** No list names a value twice. */
  lemma ValueListsDistinct()
    ensures Distinct(SYSTEM_ROLES) && Distinct(WORK_ITEM_TYPES) && Distinct(WORK_ITEM_STATUSES)
    ensures Distinct(WORK_ITEM_PRIORITIES) && Distinct(PROJECT_ROLES) && Distinct(PR_STATES)
  {
  }

  datatype SystemRole = SystemAdmin | SystemUser | ProjectManager {
    function Name(): (s: string)
      ensures s in SYSTEM_ROLES
    {
      match this
      case SystemAdmin => "admin"
      case SystemUser => "user"
      case ProjectManager => "project_manager"
    }
  }

  function ParseSystemRole(s: string): (r: Option<SystemRole>)
    ensures r.Some? <==> IsValidEnum(s, SYSTEM_ROLES)
    ensures r.Some? ==> r.value.Name() == s
  {
    if s == "admin" then Some(SystemAdmin)
    else if s == "user" then Some(SystemUser)
    else if s == "project_manager" then Some(ProjectManager)
    else None
  }

  datatype WorkItemType = Epic | Story | Task | Bug | Subtask {
    function Name(): (s: string)
      ensures s in WORK_ITEM_TYPES
    {
      match this
      case Epic => "epic"
      case Story => "story"
      case Task => "task"
      case Bug => "bug"
      case Subtask => "subtask"
    }
  }

  function ParseWorkItemType(s: string): (r: Option<WorkItemType>)
    ensures r.Some? <==> IsValidEnum(s, WORK_ITEM_TYPES)
    ensures r.Some? ==> r.value.Name() == s
  {
    if s == "epic" then Some(Epic)
    else if s == "story" then Some(Story)
    else if s == "task" then Some(Task)
    else if s == "bug" then Some(Bug)
    else if s == "subtask" then Some(Subtask)
    else None
  }

  datatype WorkItemStatus = Backlog | Todo | InProgress | InReview | Done | Cancelled {
    function Name(): (s: string)
      ensures s in WORK_ITEM_STATUSES
    {
      match this
      case Backlog => "backlog"
      case Todo => "todo"
      case InProgress => "in_progress"
      case InReview => "in_review"
      case Done => "done"
      case Cancelled => "cancelled"
    }
  }

  function ParseWorkItemStatus(s: string): (r: Option<WorkItemStatus>)
    ensures r.Some? <==> IsValidEnum(s, WORK_ITEM_STATUSES)
    ensures r.Some? ==> r.value.Name() == s
  {
    if s == "backlog" then Some(Backlog)
    else if s == "todo" then Some(Todo)
    else if s == "in_progress" then Some(InProgress)
    else if s == "in_review" then Some(InReview)
    else if s == "done" then Some(Done)
    else if s == "cancelled" then Some(Cancelled)
    else None
  }

  datatype WorkItemPriority = Lowest | Low | Medium | High | Highest {
    function Name(): (s: string)
      ensures s in WORK_ITEM_PRIORITIES
    {
      match this
      case Lowest => "lowest"
      case Low => "low"
      case Medium => "medium"
      case High => "high"
      case Highest => "highest"
    }
  }

  function ParseWorkItemPriority(s: string): (r: Option<WorkItemPriority>)
    ensures r.Some? <==> IsValidEnum(s, WORK_ITEM_PRIORITIES)
    ensures r.Some? ==> r.value.Name() == s
  {
    if s == "lowest" then Some(Lowest)
    else if s == "low" then Some(Low)
    else if s == "medium" then Some(Medium)
    else if s == "high" then Some(High)
    else if s == "highest" then Some(Highest)
    else None
  }

  datatype ProjectRole = Owner | Admin | Member | Viewer {
    function Name(): (s: string)
      ensures s in PROJECT_ROLES
    {
      match this
      case Owner => "owner"
      case Admin => "admin"
      case Member => "member"
      case Viewer => "viewer"
    }
  }

  function ParseProjectRole(s: string): (r: Option<ProjectRole>)
    ensures r.Some? <==> IsValidEnum(s, PROJECT_ROLES)
    ensures r.Some? ==> r.value.Name() == s
  {
    if s == "owner" then Some(Owner)
    else if s == "admin" then Some(Admin)
    else if s == "member" then Some(Member)
    else if s == "viewer" then Some(Viewer)
    else None
  }

  datatype PrState = Open | Closed | Merged {
    function Name(): (s: string)
      ensures s in PR_STATES
    {
      match this
      case Open => "open"
      case Closed => "closed"
      case Merged => "merged"
    }
  }

  function ParsePrState(s: string): (r: Option<PrState>)
    ensures r.Some? <==> IsValidEnum(s, PR_STATES)
    ensures r.Some? ==> r.value.Name() == s
  {
    if s == "open" then Some(Open)
    else if s == "closed" then Some(Closed)
    else if s == "merged" then Some(Merged)
    else None
  }

  const DEFAULT_SYSTEM_ROLE: SystemRole := SystemUser
  const DEFAULT_WORK_ITEM_STATUS: WorkItemStatus := Backlog
  const DEFAULT_WORK_ITEM_PRIORITY: WorkItemPriority := Medium
  const DEFAULT_PROJECT_ROLE: ProjectRole := Member

  /** Every default is a member of its list; the status default is "backlog",
      and the status list also holds "cancelled". */
  lemma DefaultsAreListed()
    ensures IsValidEnum(DEFAULT_SYSTEM_ROLE.Name(), SYSTEM_ROLES)
    ensures IsValidEnum(DEFAULT_WORK_ITEM_STATUS.Name(), WORK_ITEM_STATUSES)
    ensures IsValidEnum(DEFAULT_WORK_ITEM_PRIORITY.Name(), WORK_ITEM_PRIORITIES)
    ensures IsValidEnum(DEFAULT_PROJECT_ROLE.Name(), PROJECT_ROLES)
    ensures DEFAULT_WORK_ITEM_STATUS.Name() == "backlog" && IsValidEnum("cancelled", WORK_ITEM_STATUSES)
  {
  }

  /** Parsing a value's name gives the value back: the datatypes and the
      lists describe the same closed sets. */
  lemma ParseSystemRoleName(a: SystemRole)
    ensures ParseSystemRole(a.Name()) == Some(a)
  {
  }

  lemma ParseWorkItemTypeName(b: WorkItemType)
    ensures ParseWorkItemType(b.Name()) == Some(b)
  {
  }

  lemma ParseWorkItemStatusName(c: WorkItemStatus)
    ensures ParseWorkItemStatus(c.Name()) == Some(c)
  {
  }

  lemma ParseWorkItemPriorityName(d: WorkItemPriority)
    ensures ParseWorkItemPriority(d.Name()) == Some(d)
  {
  }

  lemma ParseProjectRoleName(e: ProjectRole)
    ensures ParseProjectRole(e.Name()) == Some(e)
  {
  }

  lemma ParsePrStateName(f: PrState)
    ensures ParsePrState(f.Name()) == Some(f)
  {
  }
}
