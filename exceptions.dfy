/** How the source's exceptions appear in the model: every operation that can throw
    returns an Outcome, and every call into the database a DbResult. */
module Exceptions {
  import opened JavaLang

  /** java.sql.SQLException, with the message the driver gave it. */
  datatype SqlException = SqlException(message: string)

  /** The exceptions the modelled code throws or lets escape. */
  datatype Thrown =
    | IllegalArgument(message: string)
    | Runtime(message: string, cause: Option<Thrown>)
    | Database(message: string, cause: Option<Thrown>)   // org.ahmet.exception.DatabaseException
    | EntityNotFound(message: string)
    | NullPointer
    | SqlError(e: SqlException)
    | NumberFormat(input: string)
    | IO(message: string)                                  // java.io.IOException
    | PoolInitialization                                   // HikariCP refused to start the pool

  /** The result of a Java call: the value it returns, or the exception it throws. */
  datatype Outcome<+T> = Return(value: T) | Throw(thrown: Thrown)

  /** The result of one JDBC call: a value, or an SQLException. */
  datatype DbResult<+T> = Ok(value: T) | Failed(error: SqlException)

  /** A failure injected by the environment: the JDBC call made at `step` throws `error`.
      Each database operation names its own steps. */
  datatype Fault<S> = Fault(step: S, error: SqlException)

  predicate FailsAt<S(==)>(f: Option<Fault<S>>, s: S) {
    f.Some? && f.value.step == s
  }

  /** The SQLException the call at step `s` throws, if the fault is there. */
  function FaultAt<S(==)>(f: Option<Fault<S>>, s: S): (r: Option<SqlException>)
    ensures r.Some? <==> FailsAt(f, s)
    ensures r.Some? ==> r.value == f.value.error
  {
    if FailsAt(f, s) then Some(f.value.error) else None
  }

  /** `new DatabaseException(prefix + e.getMessage(), e)`, the wrapping used by the
      transactional service for every SQLException. */
  function Wrap(prefix: string, e: SqlException): (t: Thrown)
    ensures t.Database? && t.cause == Some(SqlError(e))
    ensures t.message == prefix + e.message
  {
    Database(prefix + e.message, Some(SqlError(e)))
  }
}
