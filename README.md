# dhania core, modelled in Dafny

dhania is a multi-tenant project tracker. Users register, create projects,
add members with roles, and manage work items ("issues") that move through
status columns on a Kanban board. This project models the part of it that
holds decisions:

- the database schema: projects with their issue counters, memberships keyed
  by (project, user), work items with per-project numbers and keys; the
  cascade and set-null deletes; the enum value lists and their defaults.
- the validation schemas: login and registration, project creation, issue
  creation and update.
- the server functions for projects (membership-gated lookup by key, the
  caller's project list, issue statistics), for members (list, add by
  e-mail, remove, change role, with the admin check) and for issues (create
  with counter allocation, list newest first, details by key, status update).
- the Kanban board component (columns, drag start, drag end with the
  optimistic update and the revert on a server error).
- the create-project form (name-to-key suggestion and when it overwrites the
  key field).

The database is a value, `Schema.Tables`: maps for users, projects and
memberships, and a sequence of work-item rows in insertion order.
`Schema.Database` is the mutable handle that the state-changing server
functions update. Its invariant `Valid()` includes `Schema.Consistent`:
- the unique indexes hold;
- references resolve, including each project's creator;
- counters are positive;
- every issue key is `<project key>-<number>`.

The read functions are Dafny functions over `Tables`. The board and the
form are classes whose fields the component's state setters reassign.
Two places in the code disagree with each other. The model keeps both
sides as written and proves the disagreement:
- The issue form's type list (src/schemas/issue.ts:3) contains "feature",
  which the database's list (src/db/enums.ts:4) lacks. It also lacks "story"
  and "subtask", which the database lists. See
  `IssueSchema.IssueTypeListsDisagree`.
- The create-project form's hint (src/components/projects/create-project-form.tsx:110)
  says keys have 2-10 characters, but the schema (src/schemas/project.ts:5-9)
  allows at most 8. See `ProjectForm.HintDisagreesWithSchema`.

A caller who is not a member of the project gets `notFound()` from
getProjectByKey (src/server/projects.ts:58-60), never an authorization
error. Every issue and member function calls getProjectByKey first (for
example src/server/issues.ts:17). The model returns `NotFound` in that case.

Files:
- `wrappers.dfy`, `errors.dfy`, `seqs.dfy`: Option/Result/Outcome, the
  error kinds, and sequence filtering and search.
- `enums.dfy`, `schema.dfy`, `issue_keys.dfy`: the data model.
- `auth_schema.dfy`, `project_schema.dfy`, `issue_schema.dfy`: input
  validation.
- `projects.dfy`, `members.dfy`, `issues.dfy`: the server functions.
- `kanban.dfy`, `project_form.dfy`: the two components.

## Model

| member | source | states |
|---|---|---|
| Enums.IsValidEnum | src/db/enums.ts:19-24 | isValidEnum accepts a string exactly when it is one of the listed values |
| Enums.ValueListsDistinct | src/db/enums.ts:1-17 | no enum value list repeats a value |
| Enums.ParseSystemRole | src/db/enums.ts:1-2 | a role string parses exactly when it is listed, and the parsed role names that string |
| Enums.ParseWorkItemType | src/db/enums.ts:4-5 | a work-item type parses exactly when it is listed, and names that string |
| Enums.ParseWorkItemStatus | src/db/enums.ts:7-8 | a status parses exactly when it is listed, and names that string |
| Enums.ParseWorkItemPriority | src/db/enums.ts:10-11 | a priority parses exactly when it is listed, and names that string |
| Enums.ParseProjectRole | src/db/enums.ts:13-14 | a project role parses exactly when it is listed, and names that string |
| Enums.ParsePrState | src/db/enums.ts:16-17 | a pull-request state parses exactly when it is listed, and names that string |
| Enums.ParseSystemRoleName | src/db/enums.ts:1-2 | every system role's name parses back to that role |
| Enums.ParseWorkItemTypeName | src/db/enums.ts:4-5 | every work-item type's name parses back to that type |
| Enums.ParseWorkItemStatusName | src/db/enums.ts:7-8 | every status's name parses back to that status |
| Enums.ParseWorkItemPriorityName | src/db/enums.ts:10-11 | every priority's name parses back to that priority |
| Enums.ParseProjectRoleName | src/db/enums.ts:13-14 | every project role's name parses back to that role |
| Enums.ParsePrStateName | src/db/enums.ts:16-17 | every pull-request state's name parses back to that state |
| Enums.DefaultsAreListed | src/db/enums.ts:26-29 | each default is a value of its own list; the default status is "backlog"; "cancelled" is a valid status |
| IssueKeys.DigitChar | src/server/issues.ts:43 | each digit maps to a decimal digit character of that value |
| IssueKeys.NatToString | src/server/issues.ts:43 | a number's decimal text is non-empty, all digits, and has no leading zero unless the number is 0 |
| IssueKeys.DecimalRoundTrip | src/server/issues.ts:43 | reading a number's decimal text back gives the number |
| IssueKeys.NatToStringInjective | src/server/issues.ts:43 | different numbers have different decimal texts |
| IssueKeys.IssueKeyInjective | src/server/issues.ts:42-43 | within one project, different issue numbers give different issue keys |
| IssueKeys.IssueKeyParts | src/server/issues.ts:43 | an issue key is the project key, one dash, then the number's digits |
| Seqs.Filter | src/server/projects.ts:78 | filtering keeps exactly the matching elements, no more than the input holds, in their original order |
| Seqs.FilterKeepsPairwise | src/server/issues.ts:89-90 | a relation that holds between every earlier and later input element still holds after filtering |
| Seqs.FilterAppend | src/server/projects.ts:78 | filtering a concatenation filters each part |
| Seqs.FilterNoneKept | src/components/issues/kanban-board.tsx:114 | filtering gives nothing when no element satisfies the test |
| Seqs.FirstIndex | src/server/issues.ts:126 | the search finds the first matching index, and finds nothing exactly when no element matches |
| AuthSchema.ParseLogin | src/schemas/auth.ts:3-6 | login input passes exactly when the e-mail is valid and the password is non-empty; each failing field is reported |
| AuthSchema.ParseRegister | src/schemas/auth.ts:8-20 | registration passes exactly when the name, e-mail and password rules hold and the confirmation equals the password; each failing field is reported, the mismatch under confirmPassword |
| AuthSchema.RegisteredCredentialsLogIn | src/schemas/auth.ts:3-20 | credentials that pass registration also pass login |
| ProjectSchema.ParseCreateProject | src/schemas/project.ts:3-11 | a new project passes exactly when its name has at least 3 characters and its key is 2 to 8 characters of A-Z0-9; each failing field is reported |
| ProjectSchema.ValidKeyHasNoDash | src/schemas/project.ts:5-9 | an accepted project key contains no dash, so the dash in an issue key separates the project key from the number |
| IssueSchema.ParseIssueType | src/schemas/issue.ts:3 | an issue type parses exactly when it is in the form's list |
| IssueSchema.ParseIssueStatus | src/schemas/issue.ts:4 | a status parses exactly when it is in the form's list |
| IssueSchema.ParseIssuePriority | src/schemas/issue.ts:5 | a priority parses exactly when it is in the form's list |
| IssueSchema.PriorityOrDefault | src/schemas/issue.ts:11 | an absent priority becomes "medium"; a present one is kept if listed and rejected otherwise |
| IssueSchema.ParseCreateIssue | src/schemas/issue.ts:7-14 | issue creation passes exactly when the title has 1 to 255 characters and type and priority are listed; the parsed input keeps every field; each failing field is reported |
| IssueSchema.ParseUpdateIssue | src/schemas/issue.ts:18-20 | an update passes exactly when every present field passes its rule; absent fields stay absent except priority, which defaults to "medium" as in zod 4; each failing field is reported |
| IssueSchema.CreateAcceptedIsUpdateAccepted | src/schemas/issue.ts:7-20 | every accepted creation input, given as an update, is also accepted |
| IssueSchema.UpdateStatusExcludesCancelled | src/schemas/issue.ts:4 | every status the form accepts is a database status, but the database's "cancelled" is not accepted |
| IssueSchema.PrioritiesWithinDatabaseList | src/schemas/issue.ts:5 | every accepted priority is a database priority; "lowest" and "highest" are not accepted; both layers default to "medium" |
| IssueSchema.IssueTypeListsDisagree | src/schemas/issue.ts:3 | the form accepts "feature", which the database type list lacks, and rejects "story" and "subtask", which the database lists |
| Schema.ColumnDefaults | src/db/schema/projects.ts:23-72 | a new project's counter starts at 1; a membership's role defaults to "member"; a new work item defaults to status "backlog" and priority "medium" |
| Schema.ValidImpliesKeysUnique | src/db/schema/projects.ts:95-96 | in a consistent database no two work items share a key |
| Schema.ClearParents | src/db/schema/projects.ts:76-81 | clearing parents rewrites each row in place and keeps the length |
| Schema.DeleteProjectCascades | src/db/schema/projects.ts:36-62 | deleting a project removes it, its memberships and its work items, clears parents that pointed to deleted items, and leaves every other row in order |
| Schema.DeleteWorkItemSetsNull | src/db/schema/projects.ts:76-81 | deleting a work item removes only that row and sets to null every parent reference to it |
| Schema.ClearedFilterKeepsUnique | src/db/schema/projects.ts:95-96 | removing rows and clearing parents keeps ids unique and per-project numbers unique |
| Schema.ParentSurvives | src/db/schema/projects.ts:76-81 | a row that is not removed is still present after clearing parents |
| Schema.DeleteProjectKeepsValid | src/db/schema/projects.ts:36-62 | deleting a project keeps the database consistent |
| Schema.DeleteWorkItemKeepsValid | src/db/schema/projects.ts:76-81 | deleting a work item keeps the database consistent |
| Schema.Database.constructor | src/db/schema/projects.ts:14-103 | a database with given users and no other rows is valid |
| Projects.GetProjectByKey | src/server/projects.ts:36-63 | a lookup succeeds exactly when the key names a project the caller is a member of; it returns that project with the caller's role; otherwise it fails with not-found |
| Projects.GetUserProjects | src/server/projects.ts:11-30 | the project list holds one project-and-role row for each membership of the caller, and only those |
| Projects.UserProjectsAgreeWithLookup | src/server/projects.ts:11-63 | a row is in the caller's project list exactly when looking up its key returns that row |
| Projects.AddToGroupsSum | src/server/projects.ts:72-79 | adding one row to the GROUP BY groups raises their total by one |
| Projects.AddToGroupsCount | src/server/projects.ts:72-79 | adding a row raises the count of its own status by one and leaves every other status's count unchanged |
| Projects.GroupSumIsRowCount | src/server/projects.ts:72-81 | the group counts add up to the number of rows grouped |
| Projects.GroupCountIsStatusCount | src/server/projects.ts:72-82 | the count read for a status equals the number of rows with that status, and 0 when there are none |
| Projects.GetProjectStats | src/server/projects.ts:71-88 | the total is the number of the project's work items; "done" counts those with status "done"; done never exceeds total |
| Issues.ListRows | src/server/issues.ts:69-93 | there is one list row per work item, in the same order |
| Issues.PrependNewest | src/server/issues.ts:90 | a row no older than every row of a newest-first list can go in front of it |
| Issues.HeadIsNewest | src/server/issues.ts:90 | after inserting an older row into the tail of a newest-first list, the head is still no older than any tail row |
| Issues.InsertByCreatedAt | src/server/issues.ts:90 | inserting into a newest-first list keeps it newest first and adds exactly that row |
| Issues.SortNewestFirst | src/server/issues.ts:90 | the sort result is a permutation of its input, ordered by creation time, newest first |
| Issues.GetProjectIssues | src/server/issues.ts:69-93 | the listing fails with not-found exactly when the caller cannot see the project; otherwise it is newest first and a permutation of the list rows of the project's work items, with the assignee joined when present |
| Issues.SortedRowsMatchItems | src/server/issues.ts:86-90 | the sorted list has one row per work item, and its rows are exactly the list rows of those items |
| Issues.ProjectIssuesAreProjectRows | src/server/issues.ts:69-93 | the listing has as many rows as the statistics count, every row is some project issue's row, and every project issue is listed |
| Issues.GetIssueDetails | src/server/issues.ts:98-157 | details fail with not-found exactly when the caller cannot see the project; null means no issue in the project has the key; otherwise they are the details of the first row, in row order, with the key and an existing reporter |
| Issues.DetailsOfUniqueRow | src/server/issues.ts:98-157 | in a consistent database, an issue of a visible project is found by its key and returns its own details; the assignee is present exactly when the assignee id is set and non-empty |
| Issues.NullIfEmpty | src/server/issues.ts:57-58 | a missing or empty id becomes null; any other id is kept |
| Issues.IssueRow | src/server/issues.ts:42-60 | a new issue takes the counter's number and the key `<project key>-<number>`; it gets status "backlog", the caller as reporter, and the input's title, description, type and priority; its assignee and parent are the input's ids with an empty id stored as null |
| Issues.InsertAllowedIffRefsExist | src/server/issues.ts:45-60 | the insert passes the constraints exactly when the id is new and the reporter, assignee and parent exist and belong where required |
| Issues.CreateKeepsConsistent | src/server/issues.ts:20-63 | raising the counter and then inserting the new row keeps the database consistent |
| Issues.CreateKeepsGapless | src/server/issues.ts:25-43 | if a project's issue numbers were exactly 1 up to counter minus 1, they still are after a creation |
| Issues.CreateIssue | src/server/issues.ts:13-64 | without membership it fails with not-found and changes nothing; otherwise the insert either passes, raising the counter and appending the row, or a constraint fails and the whole transaction rolls back; either way the database stays valid |
| Issues.CreatedIssueIsFound | src/server/issues.ts:13-157 | a newly created issue can be looked up by its key and returns its own details |
| Issues.FirstKeys | src/server/issues.ts:42-43 | project ABC's first issues get keys ABC-1, ABC-2 and, later, ABC-12 |
| Issues.SetStatus | src/server/issues.ts:165-177 | the update keeps the number of rows, sets the status and timestamp of rows matching project and key, and leaves every other row alone |
| Issues.SetStatusKeepsConsistent | src/server/issues.ts:165-177 | a status update keeps the database consistent |
| Issues.SetStatusChangesOneRow | src/server/issues.ts:165-177 | in a consistent database a status update changes at most one row |
| Issues.UpdateIssueStatus | src/server/issues.ts:162-181 | without membership it fails with not-found and changes nothing; otherwise matching rows get the new status; the result is null exactly when no row matched, else the updated row |
| Issues.UpdatedStatusIsShown | src/server/issues.ts:98-181 | after a status update, the issue's details show the new status |
| Members.GetProjectMembers | src/server/members.ts:11-28 | listing fails with not-found exactly when the caller cannot see the project; otherwise it holds one row with user and role for each membership of the project |
| Members.MembersAreThoseWithAccess | src/server/members.ts:11-28 | a user is listed as a member exactly when that user can look the project up |
| Members.FindUserByEmail | src/server/members.ts:54-60 | the e-mail lookup finds a user exactly when one has that e-mail, and returns that user |
| Members.AssignableRole.Name | src/server/members.ts:125 | every assignable role is a project role other than "owner" |
| Members.AddGrantsAccess | src/server/members.ts:75-79 | after adding a membership, the new member can look the project up, with role "member"; every other user's lookups are unchanged |
| Members.RemoveRevokesAccess | src/server/members.ts:107-114 | after removing a membership, the removed user's lookup of that key fails; every other user's lookups are unchanged |
| Members.SetRoleShowsRole | src/server/members.ts:142-156 | a role change makes the member's lookup show the new role, keeps the database consistent, and does nothing for a non-member |
| Members.RemoveKeepsCallerAdmin | src/server/members.ts:103-114 | an admin removing someone else stays admin |
| Members.SelfDemotionLeavesNoAdmin | src/server/members.ts:122-159 | an example: the only admin demoting themself leaves the project with no admin, because the update has no self-check |
| Members.AddMemberByEmail | src/server/members.ts:34-82 | the checks run in order: not-found, unauthorized unless admin, user-not-found, already-member; a failed check changes nothing; if all pass, the user is added with role "member" |
| Members.RemoveMember | src/server/members.ts:87-117 | the checks run in order: not-found, unauthorized unless admin, cannot-remove-self; a failed check changes nothing; if all pass, the membership is deleted |
| Members.UpdateMemberRole | src/server/members.ts:122-159 | the checks run in order: not-found, then unauthorized unless admin; a failed check changes nothing; if both pass, the member's role is set and nothing is inserted |
| Kanban.FindByKey | src/components/issues/kanban-board.tsx:78 | an issue is found exactly when one on the board has the key, and it is the first such issue |
| Kanban.SetStatusByKey | src/components/issues/kanban-board.tsx:83-86 | the optimistic update keeps length and order, sets the status of issues with the key, and leaves the rest alone |
| Kanban.ColumnIdsAreStatuses | src/components/issues/kanban-board.tsx:22-28 | the columns are backlog, todo, in progress, in review, done; each is a database status; "cancelled" has no column |
| Kanban.ColumnsPartitionIssues | src/components/issues/kanban-board.tsx:114 | an issue is shown in a column exactly when its status has one; it is shown only in its own status's column; a cancelled issue is shown nowhere |
| Kanban.CountShownSplit | src/components/issues/kanban-board.tsx:114 | over distinct columns, the number of issues shown is the first column's size plus the number shown under the other columns |
| Kanban.ColumnTotalCountsShown | src/components/issues/kanban-board.tsx:114 | summed over distinct columns, the column sizes equal the number of issues whose status has a column |
| Kanban.ColumnsCountShownIssues | src/components/issues/kanban-board.tsx:22-114 | the five columns together show each issue with a column status once |
| Kanban.OptimisticMove | src/components/issues/kanban-board.tsx:83-86 | the optimistic update moves the dragged issue, and only it, into the target column |
| Kanban.DropOnIssueJoinsItsColumn | src/components/issues/kanban-board.tsx:72-76 | dropping on another issue puts the dragged issue in that issue's column |
| Kanban.KanbanBoard.constructor | src/components/issues/kanban-board.tsx:44-46 | the board starts with the issues it is given and nothing being dragged |
| Kanban.KanbanBoard.OnDragStart | src/components/issues/kanban-board.tsx:56-62 | drag start records the issue with the dragged key, if there is one, and changes nothing else |
| Kanban.KanbanBoard.OnDragEnd | src/components/issues/kanban-board.tsx:64-98 | no target or an unknown key changes nothing; the same status only clears the drag; otherwise the status is set, the server is called with the key and status, the list is restored on a reported error, and the drag is cleared |
| Kanban.AcceptedDropChangesOneIssue | src/components/issues/kanban-board.tsx:83-86 | a drop the server accepts changes only the dragged issue's status and keeps keys distinct |
| ProjectForm.Upper | src/components/projects/create-project-form.tsx:62-63 | upper-casing keeps the length and maps each character |
| ProjectForm.Take | src/components/projects/create-project-form.tsx:65 | the slice is the first four characters, or all of them when there are fewer |
| ProjectForm.SuggestionShape | src/components/projects/create-project-form.tsx:62-65 | the suggestion is at most four characters of A-Z0-9: the first of the name's upper-cased letters and digits, in order; it is exactly four when the name has that many |
| ProjectForm.KeepKeyCharsSnoc | src/components/projects/create-project-form.tsx:64 | typing one more character adds it to the kept characters exactly when it is A-Z0-9 |
| ProjectForm.TypingOneMoreCharacter | src/components/projects/create-project-form.tsx:62-65 | typing one more character adds it to the suggestion exactly when it upper-cases to A-Z or 0-9 and the suggestion is shorter than four; otherwise the suggestion stays the same |
| ProjectForm.FilterKeepsAll | src/components/projects/create-project-form.tsx:64 | a string of only A-Z0-9 is kept whole |
| ProjectForm.SuggestKeyIdempotent | src/components/projects/create-project-form.tsx:62-65 | a suggested key, typed as a name, suggests itself |
| ProjectForm.SuggestionValidIff | src/components/projects/create-project-form.tsx:62-65 | the suggestion is an acceptable project key exactly when the name has at least two letters or digits |
| ProjectForm.SuggestionExample | src/components/projects/create-project-form.tsx:62-65 | the name "Pay" suggests "PAY" |
| ProjectForm.KeyOverwrittenOnlyWhenShort | src/components/projects/create-project-form.tsx:67-69 | a name change replaces a key shorter than two characters and keeps a longer one |
| ProjectForm.KeyFreezesAfterTwoCharacters | src/components/projects/create-project-form.tsx:55-70 | typing "P", "Pa", "Pay" leaves the key "PA" |
| ProjectForm.HintDisagreesWithSchema | src/components/projects/create-project-form.tsx:110 | every accepted key fits the 2-10 hint, but a 9-letter key fits it and is rejected |
| ProjectForm.CreateProjectForm.constructor | src/components/projects/create-project-form.tsx:30-34 | the form starts with every field empty |
| ProjectForm.CreateProjectForm.HandleNameChange | src/components/projects/create-project-form.tsx:55-70 | the name is always set and the description kept; the key becomes the suggestion exactly when it was empty or shorter than two characters |

## Left out

- Concurrency and transaction isolation: each server function is one atomic step on the database value. The transaction in createIssue is modelled as all-or-nothing.
- The ORM and SQL themselves: queries are written as functions over the tables they read.
- Ids generated by cuid2 and `CURRENT_TIMESTAMP`/`new Date()` values are parameters (`newId`, `now`) supplied by the caller.
- Authentication and sessions (src/server/auth.ts, src/lib/auth.ts) are not part of this model. The current user is a parameter.
- `notFound()` and `redirect()` are Next.js control flow. Here they are the error value `NotFound`.
- AuthSchema.ValidEmail: zod's e-mail regular expression is not modelled. It is a stand-in (one `@` with text on both sides and a dot after it), so ParseLogin and ParseRegister are exact only up to it.
- String lengths count `char`s, whereas zod counts UTF-16 code units. Upper-casing is ASCII only, not the Unicode `toUpperCase`.
- Rendering, dnd-kit's sensors and collision detection, router refreshes and toasts are left out. A drop is given as the ids dnd-kit reports.
- Kanban.KanbanBoard.OnDragEnd: the server's result is a parameter received before the revert. Interleaving with other updates to the board between the optimistic update and the revert is not modelled.
- The pull-request, comment and attachment tables and src/db/schema/git.ts are not part of this model, apart from their enum lists.
- Deleting users, with its cascade and restrict rules, is not modelled. Users are never deleted here.
- Projects.GetUserProjects and Members.GetProjectMembers return sets: neither query has an ORDER BY, so SQL gives no row order.
- Issues.GetProjectIssues: rows with equal creation times may come in any order. The contract states newest-first order and the multiset of rows, not the order within ties.
- Issues.GetIssueDetails: the result is stated for the first matching row. Uniqueness of that row comes from Issues.DetailsOfUniqueRow under the schema's unique indexes.
- Integer width: SQLite integers are 64-bit. The issue counter is unbounded here, so overflow after 2^63 issues is not modelled.
- The server actions creating a project and wiring forms to server functions (src/app/.../_actions) are not part of this model, apart from the status call the board makes.
- Members.UpdateMemberRole takes a typed role (admin, member, viewer). Its caller passes a string cast without checking, and that path is not modelled.
- Issues.UpdateIssueStatus accepts any status string as its caller does. Only the typed schema limits it.
