/** Membership administration (src/server/members.ts): listing a project's
    members, and adding, removing and re-roling members. Each write passes
    the project lookup and then an ordered series of guards, the first of
    which is that the caller's own role is exactly "admin"; after the guards
    exactly one membership row changes (or none, for a removal or role
    change of a non-member). */
module Members {
  import opened Wrappers
  import opened Errors
  import opened Schema
  import opened Projects
  import Enums

  /** A row of the member list: memberships joined with their users. */
  datatype MemberRow = MemberRow(userId: UserId, name: string, email: string, avatarUrl: Option<string>,
                                 role: string, joinedAt: Timestamp)

  function MemberRowOf(t: Tables, pid: ProjectId, uid: UserId): MemberRow
    requires (pid, uid) in t.memberships && uid in t.users
  {
    var u := t.users[uid];
    var m := t.memberships[(pid, uid)];
    MemberRow(uid, u.name, u.email, u.avatarUrl, m.role, m.createdAt)
  }

  /** getProjectMembers: one row per membership of the project whose user
      exists (the INNER JOIN on users). */
  function GetProjectMembers(t: Tables, currentUser: UserId, projectKey: string): (r: Result<set<MemberRow>, Error>)
    requires UniqueProjectKeys(t.projects)
    ensures r.Failure? <==> GetProjectByKey(t, currentUser, projectKey).Failure?
    ensures r.Failure? ==> r.error == NotFound
    ensures r.Success? ==>
      var pid := GetProjectByKey(t, currentUser, projectKey).value.id;
      forall m :: m in r.value <==>
        (pid, m.userId) in t.memberships && m.userId in t.users && m == MemberRowOf(t, pid, m.userId)
  {
    match GetProjectByKey(t, currentUser, projectKey)
    case Failure(e) => Failure(e)
    case Success(p) =>
      Success(set k | k in t.memberships && k.0 == p.id && k.1 in t.users :: MemberRowOf(t, k.0, k.1))
  }

  /** The member list names exactly the users who pass the project lookup
      themselves, each with the role the lookup reports. */
  lemma MembersAreThoseWithAccess(t: Tables, currentUser: UserId, projectKey: string, u: UserId)
    requires UniqueProjectKeys(t.projects)
    requires GetProjectMembers(t, currentUser, projectKey).Success?
    ensures var members := GetProjectMembers(t, currentUser, projectKey).value;
      (exists m :: m in members && m.userId == u) <==> u in t.users && GetProjectByKey(t, u, projectKey).Success?
    ensures var members := GetProjectMembers(t, currentUser, projectKey).value;
      forall m :: m in members && m.userId == u ==> m.role == GetProjectByKey(t, u, projectKey).value.role
  {
    var pid := GetProjectByKey(t, currentUser, projectKey).value.id;
    var members := GetProjectMembers(t, currentUser, projectKey).value;
    var mine := GetProjectByKey(t, u, projectKey);
    if mine.Success? {
      assert t.projects[mine.value.id].key == t.projects[pid].key;
      if u in t.users {
        assert MemberRowOf(t, pid, u) in members;
      }
    }
    if exists m :: m in members && m.userId == u {
      assert IsMemberProject(t, u, pid, projectKey);
    }
  }

  // ----- Guards -----

  /** The permission check of every write: the caller's membership in the
      project has role exactly "admin" (an "owner" role does not pass). */
  predicate IsAdmin(t: Tables, pid: ProjectId, uid: UserId) {
    (pid, uid) in t.memberships && t.memberships[(pid, uid)].role == "admin"
  }

  /** `db.query.user.findFirst({ where: eq(user.email, email) })`; the unique
      index on email makes the match unique. */
  function FindUserByEmail(users: map<UserId, User>, email: string): (r: Option<UserId>)
    requires UniqueEmails(users)
    ensures r.Some? <==> exists u :: u in users && users[u].email == email
    ensures r.Some? ==> r.value in users && users[r.value].email == email
  {
    if exists u :: u in users && users[u].email == email then
      var u :| u in users && users[u].email == email;
      Some(u)
    else
      None
  }

  /** The roles updateMemberRole accepts. */
  datatype AssignableRole = Admin | Member | Viewer {
    function Name(): (s: string)
      ensures s in Enums.PROJECT_ROLES && s != "owner"
    {
      match this
      case Admin => "admin"
      case Member => "member"
      case Viewer => "viewer"
    }
  }

  // ----- The row changes -----

  /** INSERT INTO project_memberships with role "member". */
  function AddMembership(t: Tables, pid: ProjectId, uid: UserId, now: Timestamp): Tables {
    t.(memberships := t.memberships[(pid, uid) := NewMembership(Some("member"), now)])
  }

  /** DELETE FROM project_memberships WHERE (project, user) match. */
  function RemoveMembership(t: Tables, pid: ProjectId, uid: UserId): Tables {
    t.(memberships := t.memberships - {(pid, uid)})
  }

  /** UPDATE project_memberships SET role WHERE (project, user) match:
      updates the row if there is one, inserts none. */
  function SetRole(t: Tables, pid: ProjectId, uid: UserId, role: string): Tables {
    if (pid, uid) in t.memberships then
      t.(memberships := t.memberships[(pid, uid) := t.memberships[(pid, uid)].(role := role)])
    else
      t
  }

  /** After an add, the new member passes the project lookup with role
      "member"; every other user's lookups are unchanged. */
  lemma AddGrantsAccess(t: Tables, pid: ProjectId, uid: UserId, now: Timestamp, v: UserId, key: string)
    requires Consistent(t) && pid in t.projects && uid in t.users
    ensures Consistent(AddMembership(t, pid, uid, now))
    ensures GetProjectByKey(AddMembership(t, pid, uid, now), uid, t.projects[pid].key)
         == Success(ProjectAccess(pid, t.projects[pid].name, t.projects[pid].key, t.projects[pid].description, "member"))
    ensures v != uid ==> GetProjectByKey(AddMembership(t, pid, uid, now), v, key) == GetProjectByKey(t, v, key)
  {
    var t' := AddMembership(t, pid, uid, now);
    var pk := t.projects[pid].key;
    assert IsMemberProject(t', uid, pid, pk);
    var r := GetProjectByKey(t', uid, pk);
    assert t'.projects[r.value.id].key == t'.projects[pid].key;
    if v != uid {
      var a, b := GetProjectByKey(t', v, key), GetProjectByKey(t, v, key);
      assert forall q :: IsMemberProject(t', v, q, key) <==> IsMemberProject(t, v, q, key);
      if a.Success? && b.Success? {
        assert t.projects[a.value.id].key == t.projects[b.value.id].key;
      }
    }
  }

  /** After a removal, the removed user no longer passes the project lookup
      for that project; every other user's lookups are unchanged. */
  lemma RemoveRevokesAccess(t: Tables, pid: ProjectId, uid: UserId, v: UserId, key: string)
    requires Consistent(t) && pid in t.projects
    ensures Consistent(RemoveMembership(t, pid, uid))
    ensures GetProjectByKey(RemoveMembership(t, pid, uid), uid, t.projects[pid].key).Failure?
    ensures v != uid ==> GetProjectByKey(RemoveMembership(t, pid, uid), v, key) == GetProjectByKey(t, v, key)
  {
    var t' := RemoveMembership(t, pid, uid);
    var pk := t.projects[pid].key;
    assert forall q :: IsMemberProject(t', uid, q, pk) ==> t.projects[q].key == t.projects[pid].key && q != pid;
    if v != uid {
      var a, b := GetProjectByKey(t', v, key), GetProjectByKey(t, v, key);
      assert forall q :: IsMemberProject(t', v, q, key) <==> IsMemberProject(t, v, q, key);
      if a.Success? && b.Success? {
        assert t.projects[a.value.id].key == t.projects[b.value.id].key;
      }
    }
  }

  /** A role change of a member shows in that member's project lookup; a
      role change of a non-member changes nothing. */
  lemma SetRoleShowsRole(t: Tables, pid: ProjectId, uid: UserId, role: string)
    requires Consistent(t) && pid in t.projects
    ensures Consistent(SetRole(t, pid, uid, role))
    ensures (pid, uid) in t.memberships ==>
      GetProjectByKey(SetRole(t, pid, uid, role), uid, t.projects[pid].key)
        == Success(ProjectAccess(pid, t.projects[pid].name, t.projects[pid].key, t.projects[pid].description, role))
    ensures (pid, uid) !in t.memberships ==> SetRole(t, pid, uid, role) == t
  {
    var t' := SetRole(t, pid, uid, role);
    if (pid, uid) in t.memberships {
      var pk := t.projects[pid].key;
      assert IsMemberProject(t', uid, pid, pk);
      var r := GetProjectByKey(t', uid, pk);
      assert t'.projects[r.value.id].key == t'.projects[pid].key;
    }
  }

  /** A removal the guards let through keeps the caller an admin, so it can
      never leave a project without the admin who made it. */
  lemma RemoveKeepsCallerAdmin(t: Tables, pid: ProjectId, caller: UserId, target: UserId)
    requires IsAdmin(t, pid, caller) && target != caller
    ensures IsAdmin(RemoveMembership(t, pid, target), pid, caller)
  {
  }

  /** Self-update is allowed, so the only admin of a project can demote
      themselves, after which no member is an admin and every later add,
      removal or role change is refused. */
  lemma SelfDemotionLeavesNoAdmin()
    ensures var t := Tables(map["u" := User("Ann", "ann@example.com", None)],
                            map["p" := NewProject("ABC", "Alpha", None, "u", 0)],
                            map[("p", "u") := Membership("admin", 0, 0)], []);
      && Consistent(t)
      && IsAdmin(t, "p", "u")
      && forall v :: !IsAdmin(SetRole(t, "p", "u", Member.Name()), "p", v)
  {
    var t := Tables(map["u" := User("Ann", "ann@example.com", None)],
                    map["p" := NewProject("ABC", "Alpha", None, "u", 0)],
                    map[("p", "u") := Membership("admin", 0, 0)], []);
    var t' := SetRole(t, "p", "u", Member.Name());
    forall v ensures !IsAdmin(t', "p", v) {
      if ("p", v) in t'.memberships {
        assert v == "u";
      }
    }
  }

  // ----- The server functions -----

  /** addMemberByEmail: the caller must pass the lookup and be an admin, a
      user with that email must exist and must not be a member yet; then
      exactly that one membership row, with role "member", is added. */
  method AddMemberByEmail(db: Database, currentUser: UserId, projectKey: string, email: string, now: Timestamp)
    returns (r: Outcome<Error>)
    requires db.Valid()
    modifies db
    ensures db.Valid()
    ensures var t := old(db.Snapshot());
      var access := GetProjectByKey(t, currentUser, projectKey);
      if access.Failure? then r == Fail(NotFound) && db.Snapshot() == t
      else if !IsAdmin(t, access.value.id, currentUser) then r == Fail(Unauthorized) && db.Snapshot() == t
      else if FindUserByEmail(t.users, email).None? then r == Fail(UserNotFound) && db.Snapshot() == t
      else if (access.value.id, FindUserByEmail(t.users, email).value) in t.memberships then
        r == Fail(AlreadyMember) && db.Snapshot() == t
      else
        r == Pass && db.Snapshot() == AddMembership(t, access.value.id, FindUserByEmail(t.users, email).value, now)
  {
    var t := db.Snapshot();
    var access := GetProjectByKey(t, currentUser, projectKey);
    if access.Failure? {
      return Fail(NotFound);
    }
    var pid := access.value.id;
    if !((pid, currentUser) in db.memberships && db.memberships[(pid, currentUser)].role == "admin") {
      return Fail(Unauthorized);
    }
    var target := FindUserByEmail(db.users, email);
    if target.None? {
      return Fail(UserNotFound);
    }
    if (pid, target.value) in db.memberships {
      return Fail(AlreadyMember);
    }
    db.memberships := db.memberships[(pid, target.value) := NewMembership(Some("member"), now)];
    AddGrantsAccess(t, pid, target.value, now, currentUser, projectKey);
    r := Pass;
  }

  /** removeMember: the caller must pass the lookup, be an admin and not be
      the target; then the target's membership of the project is deleted,
      which succeeds and changes nothing when there is none. */
  method RemoveMember(db: Database, currentUser: UserId, projectKey: string, userIdToRemove: UserId)
    returns (r: Outcome<Error>)
    requires db.Valid()
    modifies db
    ensures db.Valid()
    ensures var t := old(db.Snapshot());
      var access := GetProjectByKey(t, currentUser, projectKey);
      if access.Failure? then r == Fail(NotFound) && db.Snapshot() == t
      else if !IsAdmin(t, access.value.id, currentUser) then r == Fail(Unauthorized) && db.Snapshot() == t
      else if userIdToRemove == currentUser then r == Fail(CannotRemoveSelf) && db.Snapshot() == t
      else r == Pass && db.Snapshot() == RemoveMembership(t, access.value.id, userIdToRemove)
  {
    var t := db.Snapshot();
    var access := GetProjectByKey(t, currentUser, projectKey);
    if access.Failure? {
      return Fail(NotFound);
    }
    var pid := access.value.id;
    if !((pid, currentUser) in db.memberships && db.memberships[(pid, currentUser)].role == "admin") {
      return Fail(Unauthorized);
    }
    if userIdToRemove == currentUser {
      return Fail(CannotRemoveSelf);
    }
    db.memberships := db.memberships - {(pid, userIdToRemove)};
    RemoveRevokesAccess(t, pid, userIdToRemove, currentUser, projectKey);
    r := Pass;
  }

  /** updateMemberRole: the caller must pass the lookup and be an admin
      (changing one's own role is allowed); then the target's role in the
      project is set, and nothing else changes, not even updated_at. */
  method UpdateMemberRole(db: Database, currentUser: UserId, projectKey: string, userIdToUpdate: UserId,
                          newRole: AssignableRole) returns (r: Outcome<Error>)
    requires db.Valid()
    modifies db
    ensures db.Valid()
    ensures var t := old(db.Snapshot());
      var access := GetProjectByKey(t, currentUser, projectKey);
      if access.Failure? then r == Fail(NotFound) && db.Snapshot() == t
      else if !IsAdmin(t, access.value.id, currentUser) then r == Fail(Unauthorized) && db.Snapshot() == t
      else r == Pass && db.Snapshot() == SetRole(t, access.value.id, userIdToUpdate, newRole.Name())
  {
    var t := db.Snapshot();
    var access := GetProjectByKey(t, currentUser, projectKey);
    if access.Failure? {
      return Fail(NotFound);
    }
    var pid := access.value.id;
    if !((pid, currentUser) in db.memberships && db.memberships[(pid, currentUser)].role == "admin") {
      return Fail(Unauthorized);
    }
    if (pid, userIdToUpdate) in db.memberships {
      db.memberships := db.memberships[(pid, userIdToUpdate) := db.memberships[(pid, userIdToUpdate)].(role := newRole.Name())];
    }
    SetRoleShowsRole(t, pid, userIdToUpdate, newRole.Name());
    r := Pass;
  }
}
