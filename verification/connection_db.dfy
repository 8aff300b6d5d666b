/**
 * The decision part of `ConnectionDB` in testovoe1.php: `prepareQuery` and
 * `executeQuery` choose one of two fixed SQL statements and the one value
 * bound to its placeholder, from the request alone; `handle` runs them after
 * the connection step. The connection attempt and the database are inputs.
 */
module ConnectionDb {
  import opened Wrappers
  import opened PhpArrays

  /** The statement of the text search (`do=process`). */
  const TextSql: string := "SELECT * FROM vb_post WHERE text LIKE ?"

  /** The statement of the saved-result lookup (`do=showResults`). */
  const SearchIdSql: string := "SELECT * FROM vb_searchresult WHERE searchid = ?"

  /**
   * The query decided for a request: a lookup by search id binding the
   * `searchid` value (`None` binds SQL NULL), a text search binding a LIKE
   * pattern, or nothing, when `do` names neither action.
   */
  datatype Plan = BySearchId(id: Option<string>) | ByText(pattern: string) | NoPlan

  /** A prepared statement and the single value bound to its placeholder. */
  datatype Statement = Statement(sql: string, param: Option<string>)

  /** The outcome of a connection attempt; `Refused` carries the PDO exception message. */
  datatype Connection = Connected | Refused(reason: string)

  /** What the database answers to an executed statement: its rows, or a PDO exception message. */
  datatype Fetch = Fetched(rows: seq<Row>) | Raised(reason: string)

  /** What `executeQuery` returns: the fetched rows, or the array `['status' => false, 'error' => ...]`. */
  datatype QueryResult = Rows(rows: seq<Row>) | ErrorArray(error: string)

  /**
   * What `handle` returns: `['status' => true, 'result' => ...]`, or
   * `['status' => false, 'error' => ...]`; `Crashed` is the uncaught error
   * PHP raises when `fetchAll` is called on a statement that was never prepared.
   */
  datatype HandleResult = Handled(result: QueryResult) | Failed(error: string) | Crashed

  /** The message `ensureConnection` reports for a refused connection. */
  function ConnectionError(reason: string): string {
    "Нет подключения: " + reason
  }

  /**
   * `prepareQuery`'s rewriting of the request: a set, non-empty `searchid`
   * forces `do=showResults`; otherwise a non-empty `q` forces `do=process` and
   * copies `q` into `query`; otherwise the request is left as it came.
   */
  function Prepare(req: Request): (r: Request)
    ensures forall k :: k in req && k != "do" && k != "query" ==> k in r && r[k] == req[k]
    ensures r.Keys <= req.Keys + {"do", "query"}
  {
    if IsSetAt(req, "searchid") && !EmptyAt(req, "searchid") then
      req["do" := Some("showResults")]
    else if !EmptyAt(req, "q") then
      req["do" := Some("process")]["query" := req["q"]]
    else
      req
  }

  /**
   * The plan `executeQuery` carries out on the prepared request. `do` is
   * compared with `==` against two non-numeric strings, which PHP decides by
   * plain string equality (`null` never matches); `'%' . null . '%'` is `"%%"`.
   */
  function PlanOf(req: Request): (p: Plan)
    ensures !EmptyAt(req, "searchid") ==> p == BySearchId(req["searchid"])
    ensures EmptyAt(req, "searchid") && !EmptyAt(req, "q") ==> p == ByText("%" + req["q"].value + "%")
    ensures EmptyAt(req, "searchid") && EmptyAt(req, "q") ==>
      && (ValueAt(req, "do") == Some("process") <==> p == ByText("%" + TextAt(req, "query") + "%"))
      && (ValueAt(req, "do") == Some("showResults") <==> p == BySearchId(ValueAt(req, "searchid")))
      && (p == NoPlan <==> ValueAt(req, "do") != Some("process") && ValueAt(req, "do") != Some("showResults"))
  {
    var prepared := Prepare(req);
    if ValueAt(prepared, "do") == Some("process") then
      ByText("%" + TextAt(prepared, "query") + "%")
    else if ValueAt(prepared, "do") == Some("showResults") then
      BySearchId(ValueAt(prepared, "searchid"))
    else
      NoPlan
  }

  /**
   * The statement `prepareQuery` prepares and the value `executeQuery` binds.
   * The SQL text is one of the two fixed statements and depends on the kind of
   * plan only; the user's text reaches the database solely as the bound value.
   */
  function StatementOf(p: Plan): (s: Option<Statement>)
    ensures s.None? <==> p.NoPlan?
    ensures s.Some? ==> (s.value.sql == SearchIdSql <==> p.BySearchId?)
    ensures s.Some? ==> (s.value.sql == TextSql <==> p.ByText?)
  {
    match p
    case BySearchId(id) => Some(Statement(SearchIdSql, id))
    case ByText(pattern) => Some(Statement(TextSql, Some(pattern)))
    case NoPlan => None
  }

  /** Reads the plan back from a prepared statement: the SQL text names the kind, the bound value the payload. */
  function PlanOfStatement(st: Statement): Plan {
    if st.sql == SearchIdSql then BySearchId(st.param)
    else if st.sql == TextSql && st.param.Some? then ByText(st.param.value)
    else NoPlan
  }

  /** The statement loses nothing of the plan: the plan can be read back from it. */
  lemma StatementKeepsPlan(p: Plan)
    requires !p.NoPlan?
    ensures StatementOf(p).Some? && PlanOfStatement(StatementOf(p).value) == p
  {
  }

  /**
   * The SQL text never depends on the bound value: any two plans of the same
   * kind, whatever their search ids or patterns, prepare the same SQL text.
   */
  lemma SqlIgnoresValue(p: Plan, q: Plan)
    requires !p.NoPlan? && !q.NoPlan? && p.BySearchId? == q.BySearchId?
    ensures StatementOf(p).value.sql == StatementOf(q).value.sql
  {
  }

  /**
   * `handle` as written: on a refused connection, the prefixed message; else
   * the statement is run; a database exception is caught by `executeQuery`
   * and its error array is returned as the RESULT of a successful handle.
   */
  function HandleAsWritten(req: Request, conn: Connection, run: Statement -> Fetch): (r: HandleResult)
    ensures conn.Refused? ==> r == Failed(ConnectionError(conn.reason))
    ensures conn.Connected? ==> !r.Failed?
    ensures conn.Connected? ==> (r == Crashed <==> PlanOf(req).NoPlan?)
    ensures conn.Connected? && !PlanOf(req).NoPlan? ==>
      var stmt := StatementOf(PlanOf(req)).value;
      && (run(stmt).Fetched? ==> r == Handled(Rows(run(stmt).rows)))
      && (run(stmt).Raised? ==> r == Handled(ErrorArray(run(stmt).reason)))
  {
    match conn
    case Refused(reason) => Failed(ConnectionError(reason))
    case Connected =>
      match StatementOf(PlanOf(req))
      case None => Crashed
      case Some(stmt) =>
        match run(stmt)
        case Fetched(rows) => Handled(Rows(rows))
        case Raised(reason) => Handled(ErrorArray(reason))
  }

  /**
   * `handle` with the evidently intended reporting: a database exception
   * makes the handle fail with its message, so a successful handle always
   * carries rows.
   */
  function Handle(req: Request, conn: Connection, run: Statement -> Fetch): (r: HandleResult)
    ensures conn.Refused? ==> r == Failed(ConnectionError(conn.reason))
    ensures conn.Connected? && PlanOf(req).NoPlan? ==> r == Crashed
    ensures conn.Connected? && !PlanOf(req).NoPlan? ==>
      var stmt := StatementOf(PlanOf(req)).value;
      && (r.Handled? <==> run(stmt).Fetched?)
      && (run(stmt).Fetched? ==> r == Handled(Rows(run(stmt).rows)))
      && (run(stmt).Raised? ==> r == Failed(run(stmt).reason))
    ensures r.Handled? ==> r.result.Rows?
  {
    match conn
    case Refused(reason) => Failed(ConnectionError(reason))
    case Connected =>
      match StatementOf(PlanOf(req))
      case None => Crashed
      case Some(stmt) =>
        match run(stmt)
        case Fetched(rows) => Handled(Rows(rows))
        case Raised(reason) => Failed(reason)
  }

  /**
   * The two handles differ only on a database exception: when the connection
   * is refused, no statement was prepared, or the database returns rows, the
   * code as written and the corrected handle give the same result.
   */
  lemma HandlesAgreeWithoutDatabaseError(req: Request, conn: Connection, run: Statement -> Fetch)
    requires conn.Refused? || PlanOf(req).NoPlan? || run(StatementOf(PlanOf(req)).value).Fetched?
    ensures HandleAsWritten(req, conn, run) == Handle(req, conn, run)
  {
  }

  /**
   * The plan depends on `searchid`, `q`, `do` and `query` alone: two requests
   * that agree on those four keys get the same plan.
   */
  lemma PlanReadsFourFields(a: Request, b: Request)
    requires forall k :: k in {"searchid", "q", "do", "query"} ==> ValueAt(a, k) == ValueAt(b, k)
    ensures PlanOf(a) == PlanOf(b)
  {
    assert ValueAt(a, "searchid") == ValueAt(b, "searchid");
    assert ValueAt(a, "q") == ValueAt(b, "q");
    assert ValueAt(a, "do") == ValueAt(b, "do");
    assert ValueAt(a, "query") == ValueAt(b, "query");
  }

  /**
   * No user text is ever spliced into SQL: whatever the two requests, the
   * statements they lead to have the same SQL text whenever they are plans of
   * the same kind, and that text is one of the two constants.
   */
  lemma SqlIsFixed(a: Request, b: Request)
    requires PlanOf(a).BySearchId? == PlanOf(b).BySearchId?
    requires !PlanOf(a).NoPlan? && !PlanOf(b).NoPlan?
    ensures StatementOf(PlanOf(a)).value.sql == StatementOf(PlanOf(b)).value.sql
    ensures StatementOf(PlanOf(a)).value.sql in {TextSql, SearchIdSql}
  {
  }

  /**
   * The discrepancy in `handle` as written: with a live connection and a
   * statement the database rejects, the handle still reports success, with
   * the error array in place of the rows.
   */
  lemma ExecutionErrorReportedAsSuccess(req: Request, run: Statement -> Fetch)
    requires !PlanOf(req).NoPlan?
    requires run(StatementOf(PlanOf(req)).value).Raised?
    ensures HandleAsWritten(req, Connected, run) == Handled(ErrorArray(run(StatementOf(PlanOf(req)).value).reason))
    ensures Handle(req, Connected, run) == Failed(run(StatementOf(PlanOf(req)).value).reason)
  {
  }

  /** A concrete instance: searching for saved result "42" against a table that does not exist. */
  lemma ExecutionErrorExample()
    ensures var req := map["searchid" := Some("42")];
      var run := (s: Statement) => Raised("SQLSTATE[42S02]: Base table or view not found");
      && HandleAsWritten(req, Connected, run) == Handled(ErrorArray("SQLSTATE[42S02]: Base table or view not found"))
      && Handle(req, Connected, run) == Failed("SQLSTATE[42S02]: Base table or view not found")
  {
    var req: Request := map["searchid" := Some("42")];
    assert !EmptyAt(req, "searchid");
  }
}
