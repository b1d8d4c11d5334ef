/** What one Prisma call on `workspaces`, `workspace_members` or `workspace_invitations`
    does: the specification of both workspace repositories (the
    `PrismaWorkspaceRepository` class and the functions of `workspace.repository.ts`). */
module WorkspaceTables {
  import opened Prelude
  import opened Errors
  import opened Domain

  /** The `data` of `addMember` (`None` for an omitted or `null` field). */
  datatype AddMemberData = AddMemberData(
    workspaceId: int,
    userId: int,
    invitedBy: Option<int>,
    canView: Option<bool>,
    canCreate: Option<bool>,
    canEdit: Option<bool>,
    canDelete: Option<bool>)

  /** The `data` of `createInvitation`. */
  datatype CreateInvitationData = CreateInvitationData(
    workspaceId: int,
    tokenHash: string,
    email: Option<string>,
    expiresAt: Timestamp,
    createdBy: int,
    canView: Option<bool>,
    canCreate: Option<bool>,
    canEdit: Option<bool>,
    canDelete: Option<bool>)

  // ---------------------------------------------------------------- reads

  function WorkspaceHasId(id: int): Workspace -> bool {
    (w: Workspace) => w.id == id
  }

  function MemberKey(workspaceId: int, userId: int): Member -> bool {
    (m: Member) => m.workspaceId == workspaceId && m.userId == userId
  }

  function MemberUser(userId: int): Member -> bool {
    (m: Member) => m.userId == userId
  }

  function InvitationHash(tokenHash: string): Invitation -> bool {
    (i: Invitation) => i.tokenHash == tokenHash
  }

  function InvitationHasId(id: int): Invitation -> bool {
    (i: Invitation) => i.id == id
  }

  /** `workspaces.findUnique({ where: { id } })`. */
  function FindById(t: Tables, workspaceId: int): (r: Option<Workspace>)
    ensures r.Some? ==> r.value in t.workspaces && r.value.id == workspaceId
    ensures r.None? <==> forall k :: 0 <= k < |t.workspaces| ==> t.workspaces[k].id != workspaceId
  {
    var k := FirstMatch(t.workspaces, WorkspaceHasId(workspaceId));
    if k.Some? then Some(t.workspaces[k.value]) else None
  }

  /** `findMember`: the membership row keyed by (workspace, user). */
  function FindMember(t: Tables, workspaceId: int, userId: int): (r: Option<Member>)
    ensures r.Some? ==> r.value in t.members && r.value.workspaceId == workspaceId && r.value.userId == userId
    ensures r.None? <==> forall k :: 0 <= k < |t.members| ==> !(t.members[k].workspaceId == workspaceId && t.members[k].userId == userId)
  {
    var k := FirstMatch(t.members, MemberKey(workspaceId, userId));
    if k.Some? then Some(t.members[k.value]) else None
  }

  /** `findFirstWorkspaceIdForUser`: the workspace of the user's first membership row. */
  function FirstWorkspaceIdForUser(t: Tables, userId: int): (r: Option<int>)
    ensures r.None? <==> forall k :: 0 <= k < |t.members| ==> t.members[k].userId != userId
    ensures r.Some? ==> exists k :: 0 <= k < |t.members| && t.members[k].userId == userId && t.members[k].workspaceId == r.value
  {
    var k := FirstMatch(t.members, MemberUser(userId));
    if k.Some? then Some(t.members[k.value].workspaceId) else None
  }

  /** A sequence holding the workspace id of each row holds exactly the rows' workspace ids. */
  lemma WorkspaceIdsOfRows(rows: seq<Member>, r: seq<int>)
    requires |r| == |rows|
    requires forall i :: 0 <= i < |r| ==> r[i] == rows[i].workspaceId
    ensures forall w :: w in r <==> exists m :: m in rows && m.workspaceId == w
  {
    forall w ensures w in r <==> exists m :: m in rows && m.workspaceId == w {
      if w in r {
        var i :| 0 <= i < |r| && r[i] == w;
        assert rows[i] in rows;
      }
      if exists m :: m in rows && m.workspaceId == w {
        var m :| m in rows && m.workspaceId == w;
        var i :| 0 <= i < |rows| && rows[i] == m;
        assert r[i] == w;
      }
    }
  }

  /** `listWorkspaceIdsForUser`: the workspace of every membership row of the user, in
      table order. */
  function ListWorkspaceIdsForUser(t: Tables, userId: int): (r: seq<int>)
    ensures |r| == |Filter(t.members, MemberUser(userId))|
    ensures forall i :: 0 <= i < |r| ==> r[i] == Filter(t.members, MemberUser(userId))[i].workspaceId
    ensures forall w :: w in r <==> exists m :: m in t.members && m.userId == userId && m.workspaceId == w
  {
    var rows := Filter(t.members, MemberUser(userId));
    var r := seq(|rows|, i requires 0 <= i < |rows| => rows[i].workspaceId);
    WorkspaceIdsOfRows(rows, r);
    r
  }

  /** The first workspace id the repository finds for a user is the head of the list of
      their workspace ids, and there is none exactly when the list is empty. */
  lemma {:induction false} FirstWorkspaceIsHeadOfList(t: Tables, userId: int)
    ensures FirstWorkspaceIdForUser(t, userId).None? <==> ListWorkspaceIdsForUser(t, userId) == []
    ensures FirstWorkspaceIdForUser(t, userId).Some? ==>
              FirstWorkspaceIdForUser(t, userId).value == ListWorkspaceIdsForUser(t, userId)[0]
  {
    FirstMatchHeadsFilter(t.members, MemberUser(userId));
  }

  lemma {:induction false} FirstMatchHeadsFilter<T(!new)>(s: seq<T>, p: T -> bool)
    ensures FirstMatch(s, p).None? <==> Filter(s, p) == []
    ensures FirstMatch(s, p).Some? ==> Filter(s, p) != [] && Filter(s, p)[0] == s[FirstMatch(s, p).value]
  {
    if |s| > 0 && !p(s[0]) {
      FirstMatchHeadsFilter(s[1..], p);
    }
  }

  predicate HasMembership(members: seq<Member>, workspaceId: int, userId: int) {
    exists k :: 0 <= k < |members| && members[k].workspaceId == workspaceId && members[k].userId == userId
  }

  function CreatedAt(w: Workspace): int {
    w.createdAt
  }

  function SharedWith(members: seq<Member>, userId: int): Workspace -> bool {
    (w: Workspace) => HasMembership(members, w.id, userId)
  }

  /** `listWorkspacesForUser`: the workspaces the user has a membership row in, the most
      recently created first. */
  function ListWorkspacesForUser(t: Tables, userId: int): (r: seq<Workspace>)
    ensures forall w :: w in r <==> w in t.workspaces && HasMembership(t.members, w.id, userId)
    ensures multiset(r) == multiset(Filter(t.workspaces, SharedWith(t.members, userId)))
    ensures SortedDesc(r, CreatedAt)
  {
    SortedFilterMembers(t.workspaces, SharedWith(t.members, userId), CreatedAt);
    SortDesc(Filter(t.workspaces, SharedWith(t.members, userId)), CreatedAt)
  }

  /** `findUnique({ where: { token_hash } })`. */
  function FindInvitationByTokenHash(t: Tables, tokenHash: string): (r: Option<Invitation>)
    ensures r.Some? ==> r.value in t.invitations && r.value.tokenHash == tokenHash
    ensures r.None? <==> forall k :: 0 <= k < |t.invitations| ==> t.invitations[k].tokenHash != tokenHash
  {
    var k := FirstMatch(t.invitations, InvitationHash(tokenHash));
    if k.Some? then Some(t.invitations[k.value]) else None
  }

  // ---------------------------------------------------------------- writes

  /** The membership row `workspace_members.create` writes for `data`: view access defaults
      to granted, the other permissions to denied, the inviter to none. */
  function NewMember(data: AddMemberData): Member {
    Member(
      workspaceId := data.workspaceId,
      userId := data.userId,
      canView := data.canView.GetOr(true),
      canCreate := data.canCreate.GetOr(false),
      canEdit := data.canEdit.GetOr(false),
      canDelete := data.canDelete.GetOr(false),
      invitedBy := data.invitedBy)
  }

  /** `addMember`: `workspace_members.create`. The table is keyed by (workspace, user), so
      when that pair already has a row the insert is refused and nothing is written;
      otherwise the membership is appended. */
  function AddMember(t: Tables, data: AddMemberData): (r: Effect<Result<Member>>)
    ensures FindMember(t, data.workspaceId, data.userId).Some? <==> r.out.Err?
    ensures r.out.Err? ==> r == Effect(t, Err(RuntimeError(UniqueViolation)))
    ensures r.out.Ok? ==>
      && r.db == t.(members := t.members + [r.out.value])
      && r.out.value.workspaceId == data.workspaceId && r.out.value.userId == data.userId
      && r.out.value.invitedBy == data.invitedBy
      && r.out.value.canView == data.canView.GetOr(true)
      && r.out.value.canCreate == data.canCreate.GetOr(false)
      && r.out.value.canEdit == data.canEdit.GetOr(false)
      && r.out.value.canDelete == data.canDelete.GetOr(false)
  {
    if FindMember(t, data.workspaceId, data.userId).Some? then Effect(t, Err(RuntimeError(UniqueViolation)))
    else
      var m := NewMember(data);
      Effect(t.(members := t.members + [m]), Ok(m))
  }

  /** After a successful `addMember`, looking the pair up finds the new row. */
  lemma {:induction false} AddedMemberIsFound(t: Tables, data: AddMemberData)
    requires AddMember(t, data).out.Ok?
    ensures FindMember(AddMember(t, data).db, data.workspaceId, data.userId) == Some(AddMember(t, data).out.value)
  {
    var m := NewMember(data);
    var key := MemberKey(data.workspaceId, data.userId);
    FirstMatchAppend(t.members, [m], key);
    assert FirstMatch([m], key) == Some(0);
  }

  /** `createWorkspace` (and `createDefault`, with the name "Personal"): inserts the workspace
      with the next id, owned, created and last updated by the owner, then the owner's
      membership with every permission, invited by the owner. Nothing else changes. The
      membership insert is written here rather than through `addMember`; its (workspace,
      user) key is not checked, since the workspace has just been created. */
  function CreateWorkspace(t: Tables, name: string, ownerUserId: int, now: Timestamp): (r: Effect<Workspace>)
    ensures r.out == Workspace(|t.workspaces| + 1, name, ownerUserId, ownerUserId, ownerUserId, now)
    ensures r.db.workspaces == t.workspaces + [r.out]
    ensures r.db.members == t.members + [Member(r.out.id, ownerUserId, true, true, true, true, Some(ownerUserId))]
    ensures r.db.(workspaces := t.workspaces, members := t.members) == t
    ensures WellFormed(t) ==> FindById(r.db, r.out.id) == Some(r.out)
    ensures WellFormed(t) ==> WellFormed(r.db)
  {
    var w := Workspace(
      id := |t.workspaces| + 1,
      name := name,
      ownerUserId := ownerUserId,
      createdBy := ownerUserId,
      updatedBy := ownerUserId,
      createdAt := now);
    var t1 := t.(workspaces := t.workspaces + [w]);
    FirstMatchAppend(t.workspaces, [w], WorkspaceHasId(w.id));
    assert FirstMatch([w], WorkspaceHasId(w.id)) == Some(0);
    Effect(t1.(members := t.members + [Member(w.id, ownerUserId, true, true, true, true, Some(ownerUserId))]), w)
  }

  /** `createDefault`: the user's "Personal" workspace. */
  function CreateDefault(t: Tables, userId: int, now: Timestamp): (r: Effect<Workspace>)
    ensures r == CreateWorkspace(t, "Personal", userId, now)
    ensures r.out.name == "Personal" && r.out.ownerUserId == userId
  {
    CreateWorkspace(t, "Personal", userId, now)
  }

  /** `createInvitation`: a pending invitation with the next id; view access defaults to
      granted, the other permissions to denied. */
  function CreateInvitation(t: Tables, data: CreateInvitationData): (r: Effect<Invitation>)
    ensures r.db == t.(invitations := t.invitations + [r.out])
    ensures r.out == Invitation(|t.invitations| + 1, data.workspaceId, data.tokenHash,
      data.email, data.expiresAt, data.createdBy, data.canView.GetOr(true), data.canCreate.GetOr(false),
      data.canEdit.GetOr(false), data.canDelete.GetOr(false), Pending)
    ensures WellFormed(t) ==> WellFormed(r.db)
  {
    var i := Invitation(
      id := |t.invitations| + 1,
      workspaceId := data.workspaceId,
      tokenHash := data.tokenHash,
      email := data.email,
      expiresAt := data.expiresAt,
      createdBy := data.createdBy,
      canView := data.canView.GetOr(true),
      canCreate := data.canCreate.GetOr(false),
      canEdit := data.canEdit.GetOr(false),
      canDelete := data.canDelete.GetOr(false),
      status := Pending);
    Effect(t.(invitations := t.invitations + [i]), i)
  }

  /** `acceptInvitation`: sets the status of the invitation with that id to accepted and
      changes nothing else; a missing row fails. */
  function AcceptInvitation(t: Tables, invitationId: int): (r: Effect<Result<Invitation>>)
    ensures r.out.Err? <==> forall k :: 0 <= k < |t.invitations| ==> t.invitations[k].id != invitationId
    ensures r.out.Err? ==> r.out.error == RuntimeError(RecordNotFound) && r.db == t
    ensures r.out.Ok? ==>
      && FirstMatch(t.invitations, InvitationHasId(invitationId)).Some?
      && var k := FirstMatch(t.invitations, InvitationHasId(invitationId)).value;
      && r.out.value == t.invitations[k].(status := Accepted)
      && r.db == t.(invitations := t.invitations[k := r.out.value])
  {
    var k := FirstMatch(t.invitations, InvitationHasId(invitationId));
    if k.None? then Effect(t, Err(RuntimeError(RecordNotFound)))
    else
      var i := t.invitations[k.value].(status := Accepted);
      Effect(t.(invitations := t.invitations[k.value := i]), Ok(i))
  }
}
