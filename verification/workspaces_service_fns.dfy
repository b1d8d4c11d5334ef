/** The free functions of `workspaces.service.ts`: the `WorkspaceService` use cases over the
    free workspace repository functions, on the database `db`. */
module LegacyWorkspaceServices {
  import opened Prelude
  import opened Errors
  import opened Domain
  import opened Store
  import WorkspaceTables
  import opened WorkspaceRepositoryFunctions
  import opened WorkspaceServiceSpec

  method ListUserWorkspaces(userId: int, db: Database) returns (r: seq<Workspace>)
    ensures r == WorkspaceTables.ListWorkspacesForUser(db.State(), userId)
    ensures SortedDesc(r, WorkspaceTables.CreatedAt)
  {
    r := ListWorkspacesForUser(userId, db);
  }

  method CreateUserWorkspace(userId: int, name: string, db: Database, now: Timestamp) returns (r: Result<Workspace>)
    modifies db
    ensures var e := WorkspaceServiceSpec.CreateUserWorkspace(old(db.State()), userId, name, now);
      db.State() == e.db && r == e.out
  {
    var checked := CheckWorkspaceName(name);
    if checked.Err? {
      return Err(checked.error);
    }
    var w := WorkspaceRepositoryFunctions.CreateWorkspace(checked.value, userId, db, now);
    r := Ok(w);
  }

  method CreateInvitation(input: CreateInvitationInput, token: string, hash: string -> string, db: Database, now: Timestamp)
    returns (r: Result<IssuedInvitation>)
    modifies db
    ensures var e := WorkspaceServiceSpec.CreateInvitation(old(db.State()), input, token, hash, now);
      db.State() == e.db && r == e.out
  {
    var workspace := FindWorkspaceById(input.workspaceId, db);
    if workspace.None? {
      return Err(HttpError(NotFound));
    }
    var isOwner := workspace.value.ownerUserId == input.userId;
    var member := FindWorkspaceMember(input.workspaceId, input.userId, db);
    if !isOwner && member.None? {
      return Err(HttpError(Forbidden));
    }
    var tokenHash := hash(token);
    var expiresAt := InvitationExpiry(now, input.expiresInHours);
    var invitation := CreateWorkspaceInvitation(WorkspaceTables.CreateInvitationData(
      input.workspaceId, tokenHash, input.email, expiresAt, input.userId,
      input.canView, input.canCreate, input.canEdit, input.canDelete), db);
    r := Ok(IssuedInvitation(token, expiresAt));
  }

  method AcceptInvitationToken(userId: int, token: string, hash: string -> string, db: Database, now: Timestamp)
    returns (r: Result<int>)
    modifies db
    ensures var e := WorkspaceServiceSpec.AcceptInvitationToken(old(db.State()), userId, token, hash, now);
      db.State() == e.db && r == e.out
  {
    var tokenHash := hash(token);
    var found := FindInvitationByTokenHash(tokenHash, db);
    if found.None? {
      return Err(HttpError(NotFound));
    }
    var invitation := found.value;
    if invitation.status != Pending {
      return Err(HttpError(BadRequest));
    }
    if invitation.expiresAt < now {
      return Err(HttpError(BadRequest));
    }
    var member := AddWorkspaceMember(InvitedMember(invitation, userId), db);
    if member.Err? {
      return Err(member.error);
    }
    var accepted := WorkspaceRepositoryFunctions.AcceptInvitation(invitation.id, db);
    r := Ok(invitation.workspaceId);
  }
}
