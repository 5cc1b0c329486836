/** The unit of work that wraps the announcement writes in a database
    transaction. A session remembers the database as it was when the
    transaction began; aborting restores that state and committing keeps
    the current one. The unit of work holds the latest session and never
    forgets it, so after a commit or an abort it still holds an ended one. */
module UnitOfWork {
  import opened Common
  import opened Errors

  datatype TxState = Active | Committed | Aborted

  datatype Session<D> = Session(snapshot: D, state: TxState)

  datatype Uow<D> = Uow(session: Option<Session<D>>)

  /** A unit of work that has never been started. */
  function Fresh<D>(): Uow<D> {
    Uow(None)
  }

  /** The guard's error when no session was ever started. */
  function NoSession(): Thrown {
    ServerError("DBSessionError", "Failed to get session")
  }

  /** The database driver's refusal to end a transaction that has already
      ended. It is a plain error, so the handler answers 500 with it. */
  function EndedTransaction(): Thrown {
    PlainError("MongoTransactionError", "Transaction already ended")
  }

  /** The outcome of `commit` or `rollback`: success or the error, the unit
      of work afterwards, and the database afterwards. */
  datatype TxStep<D> = TxStep(result: Result<()>, uow: Uow<D>, db: D)

  /** `start`: opens a new session whose transaction begins on `db`,
      replacing whatever session was held before. */
  function Start<D>(u: Uow<D>, db: D): (r: Uow<D>)
    ensures r.session.Some? && r.session.value.state == Active
    ensures r.session.value.snapshot == db
  {
    Uow(Some(Session(db, Active)))
  }

  /** `getSession`: the held session, ended or not. */
  function GetSession<D>(u: Uow<D>): (r: Result<Session<D>>)
    ensures r.Err? <==> u.session.None?
    ensures r.Err? ==> r.error == NoSession()
    ensures r.Ok? ==> r.value == u.session.value
  {
    match u.session
    case None => Err(NoSession())
    case Some(s) => Ok(s)
  }

  /** `commit`: keeps the database as the transaction left it. */
  function Commit<D>(u: Uow<D>, db: D): (r: TxStep<D>)
    ensures r.db == db
    ensures u.session.None? ==> r == TxStep(Err(NoSession()), u, db)
    ensures r.result.Ok? <==> u.session.Some? && u.session.value.state == Active
    ensures r.result.Ok? ==> r.uow == Uow(Some(u.session.value.(state := Committed)))
    ensures u.session.Some? && r.result.Err? ==> r == TxStep(Err(EndedTransaction()), u, db)
  {
    match u.session
    case None => TxStep(Err(NoSession()), u, db)
    case Some(s) =>
      if s.state == Active then TxStep(Ok(()), Uow(Some(s.(state := Committed))), db)
      else TxStep(Err(EndedTransaction()), u, db)
  }

  /** `rollback`: returns the database to the snapshot taken at `start`. */
  function Rollback<D>(u: Uow<D>, db: D): (r: TxStep<D>)
    ensures u.session.None? ==> r == TxStep(Err(NoSession()), u, db)
    ensures r.result.Ok? <==> u.session.Some? && u.session.value.state == Active
    ensures r.result.Ok? ==> r.db == u.session.value.snapshot && r.uow == Uow(Some(u.session.value.(state := Aborted)))
    ensures r.result.Err? ==> r.db == db && r.uow == u
    ensures u.session.Some? && r.result.Err? ==> r.result.error == EndedTransaction()
  {
    match u.session
    case None => TxStep(Err(NoSession()), u, db)
    case Some(s) =>
      if s.state == Active then TxStep(Ok(()), Uow(Some(s.(state := Aborted))), s.snapshot)
      else TxStep(Err(EndedTransaction()), u, db)
  }

  /** Before any `start`, each of the three operations raises the session
      error and changes nothing. */
  lemma {:induction false} NothingBeforeStart<D>(db: D)
    ensures GetSession(Fresh<D>()) == Err(NoSession())
    ensures Commit(Fresh<D>(), db) == TxStep(Err(NoSession()), Fresh<D>(), db)
    ensures Rollback(Fresh<D>(), db) == TxStep(Err(NoSession()), Fresh<D>(), db)
  {
  }

  /** All or nothing: whatever the work did to the database between `start`
      and the end of the transaction, a commit keeps it and a rollback
      undoes all of it. A second `start` forgets the earlier session. */
  lemma {:induction false} AllOrNothing<D>(u: Uow<D>, before: D, after: D, again: D)
    ensures var s := Start(u, before);
      Commit(s, after).result.Ok? && Commit(s, after).db == after
      && Rollback(s, after).result.Ok? && Rollback(s, after).db == before
    ensures Start(Commit(Start(u, before), after).uow, again) == Start(u, again)
  {
  }

  /** The guard only catches a unit of work that was never started: after a
      commit, `getSession` still succeeds, and a rollback fails with the
      driver's error instead of the session error, leaving the committed
      state in place. */
  lemma {:induction false} EndedSessionNotGuarded<D>(u: Uow<D>, before: D, after: D)
    ensures var c := Commit(Start(u, before), after);
      GetSession(c.uow).Ok? && GetSession(c.uow).value.state == Committed
      && Rollback(c.uow, c.db) == TxStep(Err(EndedTransaction()), c.uow, after)
      && EndedTransaction() != NoSession()
  {
  }
}
