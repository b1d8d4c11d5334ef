/** `PrismaWorkspaceRepository`: workspaces, memberships and invitations behind one
    Prisma client. */
module PrismaWorkspaceRepositories {
  import opened Prelude
  import opened Errors
  import opened Domain
  import opened Store
  import WorkspaceTables

  class PrismaWorkspaceRepository {
    const db: Database

    constructor (db: Database)
      ensures this.db == db
    {
      this.db := db;
    }

    method FindById(workspaceId: int) returns (r: Option<Workspace>)
      ensures r == WorkspaceTables.FindById(db.State(), workspaceId)
      ensures r.Some? ==> r.value in db.workspaces && r.value.id == workspaceId
    {
      r := WorkspaceTables.FindById(db.State(), workspaceId);
    }

    /** Inserts the workspace, then the owner's membership. */
    method CreateWorkspace(name: string, ownerUserId: int, now: Timestamp) returns (w: Workspace)
      modifies db
      ensures var e := WorkspaceTables.CreateWorkspace(old(db.State()), name, ownerUserId, now); db.State() == e.db && w == e.out
    {
      w := Workspace(
        id := |db.workspaces| + 1,
        name := name,
        ownerUserId := ownerUserId,
        createdBy := ownerUserId,
        updatedBy := ownerUserId,
        createdAt := now);
      db.workspaces := db.workspaces + [w];
      db.members := db.members + [Member(w.id, ownerUserId, true, true, true, true, Some(ownerUserId))];
    }

    method CreateDefault(userId: int, now: Timestamp) returns (w: Workspace)
      modifies db
      ensures var e := WorkspaceTables.CreateDefault(old(db.State()), userId, now); db.State() == e.db && w == e.out
    {
      w := CreateWorkspace("Personal", userId, now);
    }

    method FindFirstWorkspaceIdForUser(userId: int) returns (r: Option<int>)
      ensures r == WorkspaceTables.FirstWorkspaceIdForUser(db.State(), userId)
      ensures r.None? <==> forall k :: 0 <= k < |db.members| ==> db.members[k].userId != userId
    {
      r := WorkspaceTables.FirstWorkspaceIdForUser(db.State(), userId);
    }

    method ListWorkspaceIdsForUser(userId: int) returns (r: seq<int>)
      ensures r == WorkspaceTables.ListWorkspaceIdsForUser(db.State(), userId)
      ensures forall w :: w in r <==> exists m :: m in db.members && m.userId == userId && m.workspaceId == w
    {
      r := WorkspaceTables.ListWorkspaceIdsForUser(db.State(), userId);
    }

    method ListWorkspacesForUser(userId: int) returns (r: seq<Workspace>)
      ensures r == WorkspaceTables.ListWorkspacesForUser(db.State(), userId)
      ensures forall w :: w in r <==> w in db.workspaces && WorkspaceTables.HasMembership(db.members, w.id, userId)
      ensures SortedDesc(r, WorkspaceTables.CreatedAt)
    {
      r := WorkspaceTables.ListWorkspacesForUser(db.State(), userId);
    }

    method FindMember(workspaceId: int, userId: int) returns (r: Option<Member>)
      ensures r == WorkspaceTables.FindMember(db.State(), workspaceId, userId)
      ensures r.Some? ==> r.value in db.members && r.value.workspaceId == workspaceId && r.value.userId == userId
    {
      r := WorkspaceTables.FindMember(db.State(), workspaceId, userId);
    }

    /** The database's (workspace, user) key refuses a second row for the same pair. */
    method AddMember(data: WorkspaceTables.AddMemberData) returns (m: Result<Member>)
      modifies db
      ensures var e := WorkspaceTables.AddMember(old(db.State()), data); db.State() == e.db && m == e.out
    {
      var existing := FindMember(data.workspaceId, data.userId);
      if existing.Some? {
        return Err(RuntimeError(UniqueViolation));
      }
      var row := Member(
        workspaceId := data.workspaceId,
        userId := data.userId,
        canView := data.canView.GetOr(true),
        canCreate := data.canCreate.GetOr(false),
        canEdit := data.canEdit.GetOr(false),
        canDelete := data.canDelete.GetOr(false),
        invitedBy := data.invitedBy);
      db.members := db.members + [row];
      m := Ok(row);
    }

    method CreateInvitation(data: WorkspaceTables.CreateInvitationData) returns (i: Invitation)
      modifies db
      ensures var e := WorkspaceTables.CreateInvitation(old(db.State()), data); db.State() == e.db && i == e.out
    {
      i := Invitation(
        id := |db.invitations| + 1,
        workspaceId := data.workspaceId,
        tokenHash := data.tokenHash,
        email := data.email,
        expiresAt := data.expiresAt,
        createdBy := data.createdBy,
        canView := data.canView.GetOr(true),
        canCreate := data.canCreate.GetOr(false),
        canEdit := data.canEdit.GetOr(false),
        canDelete := data.canDelete.GetOr(false),
        status := Pending);
      db.invitations := db.invitations + [i];
    }

    method FindInvitationByTokenHash(tokenHash: string) returns (r: Option<Invitation>)
      ensures r == WorkspaceTables.FindInvitationByTokenHash(db.State(), tokenHash)
      ensures r.Some? ==> r.value in db.invitations && r.value.tokenHash == tokenHash
    {
      r := WorkspaceTables.FindInvitationByTokenHash(db.State(), tokenHash);
    }

    method AcceptInvitation(invitationId: int) returns (r: Result<Invitation>)
      modifies db
      ensures var e := WorkspaceTables.AcceptInvitation(old(db.State()), invitationId); db.State() == e.db && r == e.out
    {
      var k := FirstMatch(db.invitations, WorkspaceTables.InvitationHasId(invitationId));
      if k.None? {
        return Err(RuntimeError(RecordNotFound));
      }
      var i := db.invitations[k.value].(status := Accepted);
      db.invitations := db.invitations[k.value := i];
      r := Ok(i);
    }
  }
}
