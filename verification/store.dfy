/** The database behind every repository: one mutable table per model. */
module Store {
  import opened Domain

  class Database {
    const schema: Schema
    var workspaces: seq<Workspace>
    var members: seq<Member>
    var invitations: seq<Invitation>
    var tasks: seq<Task>
    var events: seq<TaskEvent>
    var versions: seq<TaskVersion>
    var ledger: seq<SyncRecord>

    /** The current contents of every table. */
    function State(): Tables
      reads this
    {
      Tables(schema, workspaces, members, invitations, tasks, events, versions, ledger)
    }

    constructor (schema: Schema)
      ensures State() == EmptyTables(schema)
    {
      this.schema := schema;
      workspaces, members, invitations := [], [], [];
      tasks, events, versions, ledger := [], [], [], [];
    }

    /** Puts back every table as it was: the rollback of a transaction. */
    method Restore(saved: Tables)
      requires saved.schema == schema
      modifies this
      ensures State() == saved
    {
      workspaces, members, invitations := saved.workspaces, saved.members, saved.invitations;
      tasks, events, versions, ledger := saved.tasks, saved.events, saved.versions, saved.ledger;
    }
  }

  /** What `withTransaction` remembers when it opens a transaction: the state to roll back
      to, and whether it opened one at all (a repository built on a transaction client
      runs inside its caller's transaction instead). */
  datatype TxScope = TxScope(saved: Tables, ownsTx: bool)

  /** The state once a transaction body has finished: an exception rolls back the
      transaction that `withTransaction` itself opened; inside a caller's transaction the
      body's writes stay, and the caller decides. */
  function CloseScope(scope: TxScope, after: Tables, failed: bool): (t: Tables)
    ensures scope.ownsTx && failed ==> t == scope.saved
    ensures !(scope.ownsTx && failed) ==> t == after
  {
    if scope.ownsTx && failed then scope.saved else after
  }
}
