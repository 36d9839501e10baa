/** The statement state of a `Db` instance: the last SQL text, the last
    prepared statement and the last result set, which `query` overwrites
    and `getNumRows` reads.

    The database driver (statement preparation, binding, execution and
    `get_result`) is not modelled: what it does on a given call is passed in
    as a `Preparation` and an `Execution`. */
module DbSession {
  import opened Params
  import opened SqlText

  datatype Option<T> = None | Some(value: T)

  /** The two exceptions a query can raise: the library's own
      `DbErrorException`, and a driver exception that `execute` throws in
      strict reporting mode, which `query` does not catch. */
  datatype DbError = DbErrorException(message: string) | MysqliSqlException(message: string)

  /** How a call ends: it returns normally (insert, update, delete and query
      return the instance itself) or raises. */
  datatype Outcome = Returned | Raised(error: DbError)

  /** The type string and the values handed to `bind_param`. */
  datatype Binding = Binding(types: string, values: seq<Value>)

  /** A prepared statement: its SQL, its binding (none when there were no
      parameters) and the affected-row count the driver reports for it. */
  datatype Statement = Statement(sql: string, binding: Option<Binding>, affectedRows: int)

  /** An opaque handle to a result set produced by the driver. */
  type ResultHandle = nat

  /** What `prepare` does: return a statement, return `false` (silent
      reporting mode), or throw (strict reporting mode). `connectionError`
      is the connection's error message at that point. */
  datatype Preparation =
    | Prepared
    | PrepareReturnedFalse(connectionError: string)
    | PrepareThrew(connectionError: string)

  /** What `execute` does, with the affected-row count the statement then
      reports: succeed (and `get_result` yields a result set, or `false`
      for a statement without one), return `false`, or throw. */
  datatype Execution =
    | Executed(affectedRows: int, result: Option<ResultHandle>)
    | ExecuteReturnedFalse(affectedRows: int, statementError: string)
    | ExecuteThrew(affectedRows: int, message: string)

  /** The fields `query` writes: `$sql`, `$stmt` and `$query_result`. A
      `$stmt` that is null or `false` is `None`: `getNumRows` compares it
      with `==` to null, and `false == null` holds in PHP. */
  datatype Session = Session(sql: Option<string>, stmt: Option<Statement>, queryResult: Option<ResultHandle>)

  /** The binding `query` makes: none for an empty parameter list,
      otherwise the type string of the parameters and the parameters. */
  function BindingFor(params: seq<Value>): Option<Binding>
  {
    if params == [] then None else Some(Binding(TypeTags(params), params))
  }

  /** The effect of `query($sql, $params)` on the session, and how it ends. */
  function Run(s: Session, sql: string, params: seq<Value>, prep: Preparation, exec: Execution): (Session, Outcome)
  {
    var recorded := s.(sql := Some(sql));
    match prep
    case PrepareThrew(e) => (recorded, Raised(DbErrorException("DB error :: " + e)))
    case PrepareReturnedFalse(e) => (recorded.(stmt := None), Raised(DbErrorException("DB error :: " + e)))
    case Prepared =>
      var prepared := recorded.(stmt := Some(Statement(sql, BindingFor(params), exec.affectedRows)));
      match exec
      case Executed(_, result) => (prepared.(queryResult := result), Returned)
      case ExecuteReturnedFalse(_, e) => (prepared, Raised(DbErrorException("DB error :: " + e)))
      case ExecuteThrew(_, m) => (prepared, Raised(MysqliSqlException(m)))
  }

  /** What `getNumRows` reports for a session. */
  function NumRows(s: Session): int
  {
    if s.stmt.None? then 0 else s.stmt.value.affectedRows
  }

  /** `getNumRows` reports 0 until a statement exists. */
  lemma NoRowsWithoutStatement(s: Session)
    requires s.stmt.None?
    ensures NumRows(s) == 0
  {
  }

  /** After a query, `getNumRows` reports the count of the statement just
      prepared; 0 when `prepare` returned `false`; and the previous count
      when `prepare` threw, since `$stmt` then keeps its old value. */
  lemma NumRowsAfterQuery(s: Session, sql: string, params: seq<Value>, prep: Preparation, exec: Execution)
    ensures NumRows(Run(s, sql, params, prep, exec).0) ==
      match prep
      case Prepared => exec.affectedRows
      case PrepareReturnedFalse(_) => 0
      case PrepareThrew(_) => NumRows(s)
  {
  }

  /** A query returns normally exactly when the statement was prepared and
      executed; every other path raises. */
  lemma ReturnsOnlyWhenExecuted(s: Session, sql: string, params: seq<Value>, prep: Preparation, exec: Execution)
    ensures Run(s, sql, params, prep, exec).1.Returned? <==> prep.Prepared? && exec.Executed?
  {
  }

  /** The SQL text is recorded on every path, and the result set is
      replaced only by a successful execution. */
  lemma SqlRecordedResultReplacedOnSuccess(s: Session, sql: string, params: seq<Value>, prep: Preparation, exec: Execution)
    ensures Run(s, sql, params, prep, exec).0.sql == Some(sql)
    ensures Run(s, sql, params, prep, exec).0.queryResult ==
      if prep.Prepared? && exec.Executed? then exec.result else s.queryResult
  {
  }

  /** A prepared statement is bound only when there are parameters, and
      then with one type character per parameter, in parameter order. */
  lemma BindsOneTagPerParameter(s: Session, sql: string, params: seq<Value>, exec: Execution)
    ensures var st := Run(s, sql, params, Prepared, exec).0.stmt;
      && st.Some?
      && (st.value.binding.None? <==> params == [])
      && (st.value.binding.Some? ==>
            && st.value.binding.value.values == params
            && |st.value.binding.value.types| == |params|
            && forall k | 0 <= k < |params| :: st.value.binding.value.types[k] == BindTag(params[k]))
  {
  }

  /** The `Db` class, reduced to the statement state its query methods
      overwrite. */
  class Db {
    var sql: Option<string>
    var stmt: Option<Statement>
    var queryResult: Option<ResultHandle>

    /** The fields as a value. */
    function State(): Session
      reads this
    {
      Session(sql, stmt, queryResult)
    }

    /** A freshly connected instance: no query has run yet. */
    constructor ()
      ensures State() == Session(None, None, None)
    {
      sql := None;
      stmt := None;
      queryResult := None;
    }

    /** `query`: record the SQL, prepare it, bind the parameters with their
        type string when there are any, execute, and keep the result set. */
    method Query(sql: string, params: seq<Value>, prep: Preparation, exec: Execution) returns (outcome: Outcome)
      modifies this
      ensures (State(), outcome) == Run(old(State()), sql, params, prep, exec)
    {
      this.sql := Some(sql);
      match prep {
        case PrepareThrew(e) =>
          outcome := Raised(DbErrorException("DB error :: " + e));
          return;
        case PrepareReturnedFalse(e) =>
          stmt := None;
          outcome := Raised(DbErrorException("DB error :: " + e));
          return;
        case Prepared =>
      }
      var binding: Option<Binding> := None;
      if params != [] {
        var typeStr := TypeString(params);
        binding := Some(Binding(typeStr, params));
      }
      stmt := Some(Statement(sql, binding, exec.affectedRows));
      match exec {
        case Executed(_, result) =>
          queryResult := result;
          outcome := Returned;
        case ExecuteReturnedFalse(_, e) =>
          outcome := Raised(DbErrorException("DB error :: " + e));
        case ExecuteThrew(_, m) =>
          outcome := Raised(MysqliSqlException(m));
      }
    }

    /** `insert`: run the statement `InsertQuery` describes. */
    method Insert(table: string, data: Assoc, prep: Preparation, exec: Execution) returns (outcome: Outcome)
      modifies this
      ensures var q := InsertQuery(table, data);
        (State(), outcome) == Run(old(State()), q.sql, q.params, prep, exec)
    {
      var q := BuildInsert(table, data);
      outcome := Query(q.sql, q.params, prep, exec);
    }

    /** `update`: run the statement `UpdateQuery` describes. */
    method Update(table: string, data: Assoc, conditions: Assoc, glue: string, prep: Preparation, exec: Execution)
      returns (outcome: Outcome)
      modifies this
      ensures var q := UpdateQuery(table, data, conditions, glue);
        (State(), outcome) == Run(old(State()), q.sql, q.params, prep, exec)
    {
      var q := BuildUpdate(table, data, conditions, glue);
      outcome := Query(q.sql, q.params, prep, exec);
    }

    /** `delete`: run the statement `DeleteQuery` describes. */
    method Delete(table: string, conditions: Assoc, glue: string, prep: Preparation, exec: Execution)
      returns (outcome: Outcome)
      modifies this
      ensures var q := DeleteQuery(table, conditions, glue);
        (State(), outcome) == Run(old(State()), q.sql, q.params, prep, exec)
    {
      var q := BuildDelete(table, conditions, glue);
      outcome := Query(q.sql, q.params, prep, exec);
    }

    /** `deleteUsingAnd`: `delete` with the glue `AND`. It returns null
        rather than the instance (a difference `Outcome` does not record),
        but an exception from `delete` still propagates. */
    method DeleteUsingAnd(table: string, conditions: Assoc, prep: Preparation, exec: Execution)
      returns (outcome: Outcome)
      modifies this
      ensures var q := DeleteQuery(table, conditions, "AND");
        (State(), outcome) == Run(old(State()), q.sql, q.params, prep, exec)
    {
      outcome := Delete(table, conditions, "AND", prep, exec);
    }

    /** `deleteUsingOr`: `delete` with the glue `OR`; like `deleteUsingAnd`
        it returns null, and exceptions propagate. */
    method DeleteUsingOr(table: string, conditions: Assoc, prep: Preparation, exec: Execution)
      returns (outcome: Outcome)
      modifies this
      ensures var q := DeleteQuery(table, conditions, "OR");
        (State(), outcome) == Run(old(State()), q.sql, q.params, prep, exec)
    {
      outcome := Delete(table, conditions, "OR", prep, exec);
    }

    /** `getNumRows`: 0 while there is no statement, otherwise the
        statement's affected-row count. */
    method GetNumRows() returns (n: int)
      ensures n == NumRows(State())
      ensures stmt.None? ==> n == 0
    {
      if stmt.None? {
        return 0;
      }
      n := stmt.value.affectedRows;
    }
  }
}
