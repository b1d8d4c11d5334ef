/** What `WorkspaceService` (and the free functions of `workspaces.service.ts`) do to the
    database, as functions of the tables. The invitation token is an input and its hash an
    uninterpreted function `hash`; the clock is the input `now`, in milliseconds. */
module WorkspaceServiceSpec {
  import opened Prelude
  import opened Errors
  import opened Domain
  import WorkspaceTables

  const MillisPerHour: int := 60 * 60 * 1000
  const DefaultInvitationHours: int := 72

  /** The name check of `createUserWorkspace`: a missing, empty or all-white-space name is
      BAD_REQUEST; otherwise the name is stored trimmed. */
  function CheckWorkspaceName(name: string): (r: Result<string>)
    ensures r.Err? <==> forall k :: 0 <= k < |name| ==> IsJsWhitespace(name[k])
    ensures r.Err? ==> r.error == HttpError(BadRequest)
    ensures r.Ok? ==> r.value != [] && |r.value| <= |name|
    ensures r.Ok? ==> !IsJsWhitespace(r.value[0]) && !IsJsWhitespace(r.value[|r.value| - 1])
    ensures r.Ok? ==> LeadingSpace(name) + |r.value| <= |name| && r.value == name[LeadingSpace(name)..LeadingSpace(name) + |r.value|]
  {
    if |name| == 0 || IsBlank(name) then Err(HttpError(BadRequest)) else Ok(Trim(name))
  }

  /** `createUserWorkspace`. */
  function CreateUserWorkspace(t: Tables, userId: int, name: string, now: Timestamp): (r: Effect<Result<Workspace>>)
    ensures CheckWorkspaceName(name).Err? ==> r == Effect(t, Err(HttpError(BadRequest)))
    ensures CheckWorkspaceName(name).Ok? ==>
      var c := WorkspaceTables.CreateWorkspace(t, Trim(name), userId, now);
      r == Effect(c.db, Ok(c.out)) && c.out.name == Trim(name) && c.out.ownerUserId == userId
  {
    var checked := CheckWorkspaceName(name);
    if checked.Err? then Effect(t, Err(checked.error))
    else
      var c := WorkspaceTables.CreateWorkspace(t, checked.value, userId, now);
      Effect(c.db, Ok(c.out))
  }

  /** When an invitation made at `now` expires: `expiresInHours` hours later, 72 when it is
      not given. With the route's bound of 1 to 168 hours it lies strictly after `now` and at
      most a week later. */
  function InvitationExpiry(now: Timestamp, expiresInHours: Option<int>): (e: Timestamp)
    ensures expiresInHours.None? ==> e == now + 259_200_000
    ensures 1 <= expiresInHours.GetOr(DefaultInvitationHours) <= 168 ==> now < e <= now + 604_800_000
    ensures expiresInHours.Some? ==> e - now == expiresInHours.value * MillisPerHour
  {
    now + expiresInHours.GetOr(DefaultInvitationHours) * MillisPerHour
  }

  /** Who may invite: the workspace must exist, and the caller must own it or hold any
      membership in it, whatever its flags. */
  function InviteAccess(t: Tables, workspaceId: int, userId: int): (r: Result<()>)
    ensures WorkspaceTables.FindById(t, workspaceId).None? <==> r == Err(HttpError(NotFound))
    ensures r.Ok? <==>
      && WorkspaceTables.FindById(t, workspaceId).Some?
      && (|| WorkspaceTables.FindById(t, workspaceId).value.ownerUserId == userId
          || exists k :: 0 <= k < |t.members| && t.members[k].workspaceId == workspaceId && t.members[k].userId == userId)
    ensures r.Err? && WorkspaceTables.FindById(t, workspaceId).Some? ==> r == Err(HttpError(Forbidden))
  {
    var workspace := WorkspaceTables.FindById(t, workspaceId);
    if workspace.None? then Err(HttpError(NotFound))
    else
      var isOwner := workspace.value.ownerUserId == userId;
      var member := WorkspaceTables.FindMember(t, workspaceId, userId);
      if !isOwner && member.None? then Err(HttpError(Forbidden)) else Ok(())
  }

  datatype CreateInvitationInput = CreateInvitationInput(
    userId: int,
    workspaceId: int,
    email: Option<string>,
    expiresInHours: Option<int>,
    canView: Option<bool>,
    canCreate: Option<bool>,
    canEdit: Option<bool>,
    canDelete: Option<bool>)

  /** What `createInvitation` hands back: the token itself (only its hash is stored) and the
      expiry. */
  datatype IssuedInvitation = IssuedInvitation(token: string, expiresAt: Timestamp)

  function InvitationData(input: CreateInvitationInput, tokenHash: string, now: Timestamp): WorkspaceTables.CreateInvitationData {
    WorkspaceTables.CreateInvitationData(input.workspaceId, tokenHash, input.email,
      InvitationExpiry(now, input.expiresInHours), input.userId,
      input.canView, input.canCreate, input.canEdit, input.canDelete)
  }

  /** `createInvitation`: after the access check, stores one pending invitation under the
      hash of the token, made by the caller, with the requested flags (view granted and the
      others denied when not given), and returns the token with its expiry. A failure
      writes nothing. */
  function CreateInvitation(t: Tables, input: CreateInvitationInput, token: string, hash: string -> string, now: Timestamp)
    : (r: Effect<Result<IssuedInvitation>>)
    ensures r.out.Ok? <==> InviteAccess(t, input.workspaceId, input.userId).Ok?
    ensures r.out.Err? ==> r == Effect(t, Err(InviteAccess(t, input.workspaceId, input.userId).error))
    ensures r.out.Ok? ==>
      && r.out.value == IssuedInvitation(token, InvitationExpiry(now, input.expiresInHours))
      && r.db == t.(invitations := t.invitations + [Invitation(|t.invitations| + 1, input.workspaceId, hash(token),
           input.email, InvitationExpiry(now, input.expiresInHours), input.userId,
           input.canView.GetOr(true), input.canCreate.GetOr(false), input.canEdit.GetOr(false),
           input.canDelete.GetOr(false), Pending)])
  {
    var access := InviteAccess(t, input.workspaceId, input.userId);
    if access.Err? then Effect(t, Err(access.error))
    else
      var c := WorkspaceTables.CreateInvitation(t, InvitationData(input, hash(token), now));
      Effect(c.db, Ok(IssuedInvitation(token, InvitationExpiry(now, input.expiresInHours))))
  }

  /** The membership an accepted invitation grants: its four flags, invited by its maker. */
  function InvitedMember(invitation: Invitation, userId: int): WorkspaceTables.AddMemberData {
    WorkspaceTables.AddMemberData(invitation.workspaceId, userId, Some(invitation.createdBy),
      Some(invitation.canView), Some(invitation.canCreate), Some(invitation.canEdit), Some(invitation.canDelete))
  }

  /** `acceptInvitationToken`: the invitation state machine. An unknown token is NOT_FOUND;
      an invitation no longer pending, or whose expiry lies strictly before `now`, is
      BAD_REQUEST. A caller who already holds a membership of the invitation's workspace
      makes `addMember` hit the table's (workspace, user) key, and that error escapes with
      the invitation still pending. None of these writes anything. Otherwise the caller
      becomes a member with exactly the invitation's flags, the invitation becomes accepted,
      and its workspace id is returned. */
  function AcceptInvitationToken(t: Tables, userId: int, token: string, hash: string -> string, now: Timestamp)
    : (r: Effect<Result<int>>)
    ensures WorkspaceTables.FindInvitationByTokenHash(t, hash(token)).None? ==> r == Effect(t, Err(HttpError(NotFound)))
    ensures WorkspaceTables.FindInvitationByTokenHash(t, hash(token)).Some? ==>
      var inv := WorkspaceTables.FindInvitationByTokenHash(t, hash(token)).value;
      && (inv.status != Pending || inv.expiresAt < now ==> r == Effect(t, Err(HttpError(BadRequest))))
      && (inv.status == Pending && inv.expiresAt >= now && WorkspaceTables.FindMember(t, inv.workspaceId, userId).Some? ==>
            r == Effect(t, Err(RuntimeError(UniqueViolation))))
      && (inv.status == Pending && inv.expiresAt >= now && WorkspaceTables.FindMember(t, inv.workspaceId, userId).None? ==>
            && r.out == Ok(inv.workspaceId)
            && r.db.members == t.members + [Member(inv.workspaceId, userId, inv.canView, inv.canCreate,
                                                   inv.canEdit, inv.canDelete, Some(inv.createdBy))]
            && FirstMatch(t.invitations, WorkspaceTables.InvitationHasId(inv.id)).Some?
            && var k := FirstMatch(t.invitations, WorkspaceTables.InvitationHasId(inv.id)).value;
            && r.db.invitations == t.invitations[k := t.invitations[k].(status := Accepted)]
            && r.db.(members := t.members, invitations := t.invitations) == t)
  {
    var found := WorkspaceTables.FindInvitationByTokenHash(t, hash(token));
    if found.None? then Effect(t, Err(HttpError(NotFound)))
    else
      var inv := found.value;
      if inv.status != Pending then Effect(t, Err(HttpError(BadRequest)))
      else if inv.expiresAt < now then Effect(t, Err(HttpError(BadRequest)))
      else
        var added := WorkspaceTables.AddMember(t, InvitedMember(inv, userId));
        if added.out.Err? then Effect(added.db, Err(added.out.error))
        else
          // the row just found has that id, so the update by id finds one too
          var accepted := WorkspaceTables.AcceptInvitation(added.db, inv.id);
          assert accepted.out.Ok? by { assert inv in added.db.invitations; }
          Effect(accepted.db, Ok(inv.workspaceId))
  }

  // ---------------------------------------------------------------- properties

  /** On well-formed tables, a token is good for one acceptance: after it has been accepted,
      accepting it again (by anyone, at any time) is BAD_REQUEST and writes nothing. */
  lemma AcceptTwiceFails(t: Tables, userId: int, token: string, hash: string -> string, now: Timestamp,
                         otherUser: int, later: Timestamp)
    requires WellFormed(t)
    requires AcceptInvitationToken(t, userId, token, hash, now).out.Ok?
    ensures var t2 := AcceptInvitationToken(t, userId, token, hash, now).db;
      AcceptInvitationToken(t2, otherUser, token, hash, later) == Effect(t2, Err(HttpError(BadRequest)))
  {
    var t2 := AcceptInvitationToken(t, userId, token, hash, now).db;
    var p := WorkspaceTables.InvitationHash(hash(token));
    var j := FirstMatch(t.invitations, p).value;
    var inv := t.invitations[j];
    var k := FirstMatch(t.invitations, WorkspaceTables.InvitationHasId(inv.id)).value;
    assert k == j by {
      assert t.invitations[k].id == inv.id;
    }
    FirstMatchSameMask(t.invitations, t2.invitations, p);
    assert t2.invitations[j].status == Accepted;
  }

  /** Once an invitation has been accepted, the caller is found as a member of its
      workspace, with exactly the invitation's flags. */
  lemma AcceptedInviteeIsMember(t: Tables, userId: int, token: string, hash: string -> string, now: Timestamp)
    requires AcceptInvitationToken(t, userId, token, hash, now).out.Ok?
    ensures var inv := WorkspaceTables.FindInvitationByTokenHash(t, hash(token)).value;
      WorkspaceTables.FindMember(AcceptInvitationToken(t, userId, token, hash, now).db, inv.workspaceId, userId)
        == Some(Member(inv.workspaceId, userId, inv.canView, inv.canCreate, inv.canEdit, inv.canDelete, Some(inv.createdBy)))
  {
    var inv := WorkspaceTables.FindInvitationByTokenHash(t, hash(token)).value;
    var data := InvitedMember(inv, userId);
    WorkspaceTables.AddedMemberIsFound(t, data);
    var added := WorkspaceTables.AddMember(t, data);
    assert AcceptInvitationToken(t, userId, token, hash, now).db.members == added.db.members;
  }

  /** A well-formed database stays well formed under the workspace use cases. */
  lemma WorkspaceUseCasesKeepWellFormed(t: Tables, userId: int, name: string, input: CreateInvitationInput,
                                        token: string, hash: string -> string, now: Timestamp)
    requires WellFormed(t)
    ensures WellFormed(CreateUserWorkspace(t, userId, name, now).db)
    ensures WellFormed(CreateInvitation(t, input, token, hash, now).db)
    ensures WellFormed(AcceptInvitationToken(t, userId, token, hash, now).db)
  {
    AcceptKeepsWellFormed(t, userId, token, hash, now);
  }

  /** Accepting an invitation only rewrites its status, so the ids stay at their positions. */
  lemma AcceptKeepsWellFormed(t: Tables, userId: int, token: string, hash: string -> string, now: Timestamp)
    requires WellFormed(t)
    ensures WellFormed(AcceptInvitationToken(t, userId, token, hash, now).db)
  {
    var r := AcceptInvitationToken(t, userId, token, hash, now);
    if r.out.Ok? {
      var inv := WorkspaceTables.FindInvitationByTokenHash(t, hash(token)).value;
      var k := FirstMatch(t.invitations, WorkspaceTables.InvitationHasId(inv.id)).value;
      assert r.db.invitations[k].id == t.invitations[k].id;
    }
  }
}
