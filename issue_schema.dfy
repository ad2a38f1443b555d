/** The issue validation schemas (src/schemas/issue.ts): the create schema and
    the update schema derived from it. These enumerations differ from the
    database lists in Enums and are kept apart from them on purpose. */
module IssueSchema {
  import opened Wrappers
  import Enums

  const ISSUE_TYPES: seq<string> := ["epic", "feature", "task", "bug"]
  const ISSUE_STATUSES: seq<string> := ["backlog", "todo", "in_progress", "in_review", "done"]
  const ISSUE_PRIORITIES: seq<string> := ["low", "medium", "high"]

  const TITLE_MIN := 1
  const TITLE_MAX := 255

  datatype IssueType = Epic | Feature | Task | Bug {
    function Name(): (s: string)
      ensures s in ISSUE_TYPES
    {
      match this
      case Epic => "epic"
      case Feature => "feature"
      case Task => "task"
      case Bug => "bug"
    }
  }

  function ParseIssueType(s: string): (r: Option<IssueType>)
    ensures r.Some? <==> s in ISSUE_TYPES
    ensures r.Some? ==> r.value.Name() == s
  {
    if s == "epic" then Some(Epic)
    else if s == "feature" then Some(Feature)
    else if s == "task" then Some(Task)
    else if s == "bug" then Some(Bug)
    else None
  }

  datatype IssueStatus = Backlog | Todo | InProgress | InReview | Done {
    function Name(): (s: string)
      ensures s in ISSUE_STATUSES
    {
      match this
      case Backlog => "backlog"
      case Todo => "todo"
      case InProgress => "in_progress"
      case InReview => "in_review"
      case Done => "done"
    }
  }

  function ParseIssueStatus(s: string): (r: Option<IssueStatus>)
    ensures r.Some? <==> s in ISSUE_STATUSES
    ensures r.Some? ==> r.value.Name() == s
  {
    if s == "backlog" then Some(Backlog)
    else if s == "todo" then Some(Todo)
    else if s == "in_progress" then Some(InProgress)
    else if s == "in_review" then Some(InReview)
    else if s == "done" then Some(Done)
    else None
  }

  datatype IssuePriority = Low | Medium | High {
    function Name(): (s: string)
      ensures s in ISSUE_PRIORITIES
    {
      match this
      case Low => "low"
      case Medium => "medium"
      case High => "high"
    }
  }

  function ParseIssuePriority(s: string): (r: Option<IssuePriority>)
    ensures r.Some? <==> s in ISSUE_PRIORITIES
    ensures r.Some? ==> r.value.Name() == s
  {
    if s == "low" then Some(Low)
    else if s == "medium" then Some(Medium)
    else if s == "high" then Some(High)
    else None
  }

  /** The priority an omitted priority field takes. */
  const DEFAULT_PRIORITY: IssuePriority := Medium

  /** The fields a validation error is reported on. */
  datatype IssueField = Title | Description | Type | Priority | AssigneeUserId | ParentId | Status

  /** A request as sent by a client: closed sets still arrive as strings, an
      absent optional field is None. */
  datatype CreateIssueRequest = CreateIssueRequest(
    title: string,
    description: Option<string>,
    issueType: string,
    priority: Option<string>,
    assigneeUserId: Option<string>,
    parentId: Option<string>)

  /** The parsed input, CreateIssueInput: priority is always present. */
  datatype CreateIssueInput = CreateIssueInput(
    title: string,
    description: Option<string>,
    issueType: IssueType,
    priority: IssuePriority,
    assigneeUserId: Option<string>,
    parentId: Option<string>)

  predicate ValidTitle(title: string) {
    TITLE_MIN <= |title| <= TITLE_MAX
  }

  /** `issuePriorityEnum.default("medium")`: absent gives the default, present must be listed. */
  function PriorityOrDefault(p: Option<string>): (r: Option<IssuePriority>)
    ensures r.Some? <==> (p.None? || p.value in ISSUE_PRIORITIES)
    ensures r.Some? ==> r.value.Name() == p.GetOr("medium")
  {
    if p.None? then Some(DEFAULT_PRIORITY) else ParseIssuePriority(p.value)
  }

  /** The fields createIssueSchema reports, in the order of the schema. */
  function CreateIssueErrors(req: CreateIssueRequest): seq<IssueField> {
    (if ValidTitle(req.title) then [] else [Title]) +
    (if ParseIssueType(req.issueType).Some? then [] else [Type]) +
    (if PriorityOrDefault(req.priority).Some? then [] else [Priority])
  }

  /** `createIssueSchema.safeParse`. */
  function ParseCreateIssue(req: CreateIssueRequest): (r: Result<CreateIssueInput, seq<IssueField>>)
    ensures r.Success? <==>
      ValidTitle(req.title) && req.issueType in ISSUE_TYPES &&
      (req.priority.None? || req.priority.value in ISSUE_PRIORITIES)
    ensures r.Success? ==>
      && r.value.title == req.title
      && r.value.description == req.description
      && r.value.issueType.Name() == req.issueType
      && r.value.priority.Name() == req.priority.GetOr("medium")
      && r.value.assigneeUserId == req.assigneeUserId
      && r.value.parentId == req.parentId
    ensures r.Failure? ==>
      && r.error != []
      && (Title in r.error <==> !ValidTitle(req.title))
      && (Type in r.error <==> req.issueType !in ISSUE_TYPES)
      && (Priority in r.error <==> (req.priority.Some? && req.priority.value !in ISSUE_PRIORITIES))
      && Description !in r.error && AssigneeUserId !in r.error && ParentId !in r.error
  {
    var t := ParseIssueType(req.issueType);
    var p := PriorityOrDefault(req.priority);
    if ValidTitle(req.title) && t.Some? && p.Some? then
      Success(CreateIssueInput(req.title, req.description, t.value, p.value, req.assigneeUserId, req.parentId))
    else
      Failure(CreateIssueErrors(req))
  }

  /** A request to the update schema: every field may be absent. */
  datatype UpdateIssueRequest = UpdateIssueRequest(
    title: Option<string>,
    description: Option<string>,
    issueType: Option<string>,
    priority: Option<string>,
    assigneeUserId: Option<string>,
    parentId: Option<string>,
    status: Option<string>)

  datatype UpdateIssueInput = UpdateIssueInput(
    title: Option<string>,
    description: Option<string>,
    issueType: Option<IssueType>,
    priority: IssuePriority,
    assigneeUserId: Option<string>,
    parentId: Option<string>,
    status: Option<IssueStatus>)

  function UpdateIssueErrors(req: UpdateIssueRequest): seq<IssueField> {
    (if req.title.None? || ValidTitle(req.title.value) then [] else [Title]) +
    (if req.issueType.None? || ParseIssueType(req.issueType.value).Some? then [] else [Type]) +
    (if PriorityOrDefault(req.priority).Some? then [] else [Priority]) +
    (if req.status.None? || ParseIssueStatus(req.status.value).Some? then [] else [Status])
  }

  /** `updateIssueSchema.safeParse`: `createIssueSchema.partial()` extended by
      an optional status. The priority field keeps its default inside the
      optional wrapper, so an absent priority still parses as "medium". */
  function ParseUpdateIssue(req: UpdateIssueRequest): (r: Result<UpdateIssueInput, seq<IssueField>>)
    ensures r.Success? <==>
      && (req.title.None? || ValidTitle(req.title.value))
      && (req.issueType.None? || req.issueType.value in ISSUE_TYPES)
      && (req.priority.None? || req.priority.value in ISSUE_PRIORITIES)
      && (req.status.None? || req.status.value in ISSUE_STATUSES)
    ensures r.Success? ==>
      && r.value.title == req.title
      && r.value.description == req.description
      && (r.value.issueType.Some? <==> req.issueType.Some?)
      && (r.value.issueType.Some? ==> r.value.issueType.value.Name() == req.issueType.value)
      && r.value.priority.Name() == req.priority.GetOr("medium")
      && r.value.assigneeUserId == req.assigneeUserId
      && r.value.parentId == req.parentId
      && (r.value.status.Some? <==> req.status.Some?)
      && (r.value.status.Some? ==> r.value.status.value.Name() == req.status.value)
    ensures r.Failure? ==>
      && r.error != []
      && (Status in r.error <==> (req.status.Some? && req.status.value !in ISSUE_STATUSES))
      && (Title in r.error <==> (req.title.Some? && !ValidTitle(req.title.value)))
      && (Type in r.error <==> (req.issueType.Some? && req.issueType.value !in ISSUE_TYPES))
      && (Priority in r.error <==> (req.priority.Some? && req.priority.value !in ISSUE_PRIORITIES))
      && Description !in r.error && AssigneeUserId !in r.error && ParentId !in r.error
  {
    var t := if req.issueType.None? then Some(None) else
      match ParseIssueType(req.issueType.value)
      case Some(v) => Some(Some(v))
      case None => None;
    var s := if req.status.None? then Some(None) else
      match ParseIssueStatus(req.status.value)
      case Some(v) => Some(Some(v))
      case None => None;
    var p := PriorityOrDefault(req.priority);
    if (req.title.None? || ValidTitle(req.title.value)) && t.Some? && p.Some? && s.Some? then
      Success(UpdateIssueInput(req.title, req.description, t.value, p.value,
                               req.assigneeUserId, req.parentId, s.value))
    else
      Failure(UpdateIssueErrors(req))
  }

  /** The update schema accepts every request the create schema accepts,
      sent as an update without a status. */
  lemma CreateAcceptedIsUpdateAccepted(req: CreateIssueRequest)
    requires ParseCreateIssue(req).Success?
    ensures ParseUpdateIssue(UpdateIssueRequest(Some(req.title), req.description, Some(req.issueType),
      req.priority, req.assigneeUserId, req.parentId, None)).Success?
  {
  }

  /** The status of an update may be any of the five board statuses but not
      "cancelled", which the database status list holds. */
  lemma UpdateStatusExcludesCancelled(s: IssueStatus)
    ensures s.Name() in Enums.WORK_ITEM_STATUSES
    ensures Enums.IsValidEnum("cancelled", Enums.WORK_ITEM_STATUSES)
    ensures ParseIssueStatus("cancelled") == None
  {
  }

  /** The schema's priorities are a strict subset of the database's, and the
      schema default is the database default. */
  lemma PrioritiesWithinDatabaseList(p: IssuePriority)
    ensures Enums.IsValidEnum(p.Name(), Enums.WORK_ITEM_PRIORITIES)
    ensures ParseIssuePriority("lowest") == None && ParseIssuePriority("highest") == None
    ensures DEFAULT_PRIORITY.Name() == Enums.DEFAULT_WORK_ITEM_PRIORITY.Name()
  {
  }

  /** The two type lists disagree: "feature" validates but is not a database
      type, while "story" and "subtask" are database types the schema refuses. */
  lemma IssueTypeListsDisagree()
    ensures ParseIssueType("feature").Some? && !Enums.IsValidEnum("feature", Enums.WORK_ITEM_TYPES)
    ensures Enums.IsValidEnum("story", Enums.WORK_ITEM_TYPES) && ParseIssueType("story").None?
    ensures Enums.IsValidEnum("subtask", Enums.WORK_ITEM_TYPES) && ParseIssueType("subtask").None?
  {
  }
}
