/** `WorkspaceService`: workspace creation and the invitation flow over a workspace
    repository. The random token is an input and `hashToken` the function `hash`. */
module WorkspaceServices {
  import opened Prelude
  import opened Errors
  import opened Domain
  import WorkspaceTables
  import opened PrismaWorkspaceRepositories
  import opened WorkspaceServiceSpec

  class WorkspaceService {
    const workspaceRepository: PrismaWorkspaceRepository

    constructor (workspaceRepository: PrismaWorkspaceRepository)
      ensures this.workspaceRepository == workspaceRepository
    {
      this.workspaceRepository := workspaceRepository;
    }

    method ListUserWorkspaces(userId: int) returns (r: seq<Workspace>)
      ensures r == WorkspaceTables.ListWorkspacesForUser(workspaceRepository.db.State(), userId)
      ensures SortedDesc(r, WorkspaceTables.CreatedAt)
    {
      r := workspaceRepository.ListWorkspacesForUser(userId);
    }

    method CreateUserWorkspace(userId: int, name: string, now: Timestamp) returns (r: Result<Workspace>)
      modifies workspaceRepository.db
      ensures var e := WorkspaceServiceSpec.CreateUserWorkspace(old(workspaceRepository.db.State()), userId, name, now);
        workspaceRepository.db.State() == e.db && r == e.out
    {
      var checked := CheckWorkspaceName(name);
      if checked.Err? {
        return Err(checked.error);
      }
      var w := workspaceRepository.CreateWorkspace(checked.value, userId, now);
      r := Ok(w);
    }

    method CreateInvitation(input: CreateInvitationInput, token: string, hash: string -> string, now: Timestamp)
      returns (r: Result<IssuedInvitation>)
      modifies workspaceRepository.db
      ensures var e := WorkspaceServiceSpec.CreateInvitation(old(workspaceRepository.db.State()), input, token, hash, now);
        workspaceRepository.db.State() == e.db && r == e.out
    {
      var workspace := workspaceRepository.FindById(input.workspaceId);
      if workspace.None? {
        return Err(HttpError(NotFound));
      }
      var isOwner := workspace.value.ownerUserId == input.userId;
      var member := workspaceRepository.FindMember(input.workspaceId, input.userId);
      if !isOwner && member.None? {
        return Err(HttpError(Forbidden));
      }
      var tokenHash := hash(token);
      var expiresAt := InvitationExpiry(now, input.expiresInHours);
      var invitation := workspaceRepository.CreateInvitation(WorkspaceTables.CreateInvitationData(
        input.workspaceId, tokenHash, input.email, expiresAt, input.userId,
        input.canView, input.canCreate, input.canEdit, input.canDelete));
      r := Ok(IssuedInvitation(token, expiresAt));
    }

    method AcceptInvitationToken(userId: int, token: string, hash: string -> string, now: Timestamp) returns (r: Result<int>)
      modifies workspaceRepository.db
      ensures var e := WorkspaceServiceSpec.AcceptInvitationToken(old(workspaceRepository.db.State()), userId, token, hash, now);
        workspaceRepository.db.State() == e.db && r == e.out
    {
      var tokenHash := hash(token);
      var found := workspaceRepository.FindInvitationByTokenHash(tokenHash);
      if found.None? {
        return Err(HttpError(NotFound));
      }
      var invitation := found.value;
      if invitation.status != Pending {
        return Err(HttpError(BadRequest));
      }
      if invitation.expiresAt < now {
        return Err(HttpError(BadRequest));
      }
      var member := workspaceRepository.AddMember(InvitedMember(invitation, userId));
      if member.Err? {
        return Err(member.error);
      }
      var accepted := workspaceRepository.AcceptInvitation(invitation.id);
      r := Ok(invitation.workspaceId);
    }
  }
}
