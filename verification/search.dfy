/**
 * `Search` in testovoe1.php: `renderSearchResults` forwards every fetched row
 * except those of forum 5 to the renderer, and `doSearch` chains validation,
 * the database step and rendering. The renderer is replaced by the sequence
 * of rows it would receive.
 */
module Search {
  import opened Wrappers
  import opened PhpStrings
  import opened PhpArrays
  import opened RequestValidator
  import opened ConnectionDb

  /** The forum whose rows are never shown. */
  const ExcludedForum: int := 5

  /** The rows `renderSearchResults` passes on, in input order. */
  function Forwarded(rows: seq<Row>): (r: seq<Row>)
    ensures forall k :: 0 <= k < |r| ==> r[k].forumid != ExcludedForum
    ensures |r| <= |rows|
    decreases |rows|
  {
    if |rows| == 0 then []
    else if rows[0].forumid != ExcludedForum then [rows[0]] + Forwarded(rows[1..])
    else Forwarded(rows[1..])
  }

  /** The rows `renderSearchResults` holds back. */
  function Dropped(rows: seq<Row>): (r: seq<Row>)
    ensures forall k :: 0 <= k < |r| ==> r[k].forumid == ExcludedForum
    decreases |rows|
  {
    if |rows| == 0 then []
    else if rows[0].forumid == ExcludedForum then [rows[0]] + Dropped(rows[1..])
    else Dropped(rows[1..])
  }

  /** `a` is obtained from `b` by deleting elements, keeping the order of the rest. */
  predicate IsSubsequence<T(==)>(a: seq<T>, b: seq<T>)
    decreases |b|
  {
    || |a| == 0
    || (|b| > 0 && ((a[0] == b[0] && IsSubsequence(a[1..], b[1..])) || IsSubsequence(a, b[1..])))
  }

  /**
   * `renderSearchResults`: the `foreach` over the fetched rows. Alongside the
   * forwarded rows it returns the input position of each one, which witnesses
   * that exactly the rows outside forum 5 are forwarded, each once, in order.
   */
  method RenderSearchResults(rows: seq<Row>) returns (forwarded: seq<Row>, positions: seq<nat>)
    ensures |positions| == |forwarded|
    ensures forall k :: 0 <= k < |positions| ==> positions[k] < |rows| && forwarded[k] == rows[positions[k]]
    ensures forall k, l :: 0 <= k < l < |positions| ==> positions[k] < positions[l]
    ensures forall i :: 0 <= i < |rows| ==> (i in positions <==> rows[i].forumid != ExcludedForum)
    ensures forwarded == Forwarded(rows)
  {
    forwarded, positions := [], [];
    var i := 0;
    while i < |rows|
      invariant 0 <= i <= |rows|
      invariant |positions| == |forwarded|
      invariant forall k :: 0 <= k < |positions| ==> positions[k] < i && forwarded[k] == rows[positions[k]]
      invariant forall k, l :: 0 <= k < l < |positions| ==> positions[k] < positions[l]
      invariant forall j :: 0 <= j < i ==> (j in positions <==> rows[j].forumid != ExcludedForum)
      invariant forwarded == Forwarded(rows[..i])
    {
      ForwardedStep(rows, i);
      if rows[i].forumid != ExcludedForum {
        forwarded := forwarded + [rows[i]];
        positions := positions + [i];
      }
      i := i + 1;
    }
    assert rows[..i] == rows;
  }

  /** Filtering one more row appends it exactly when it is outside forum 5. */
  lemma ForwardedStep(rows: seq<Row>, i: int)
    requires 0 <= i < |rows|
    ensures Forwarded(rows[..i + 1]) ==
      Forwarded(rows[..i]) + (if rows[i].forumid != ExcludedForum then [rows[i]] else [])
  {
    ForwardedAppend(rows[..i], [rows[i]]);
    assert rows[..i + 1] == rows[..i] + [rows[i]];
    assert Forwarded([rows[i]]) == (if rows[i].forumid != ExcludedForum then [rows[i]] else []) + Forwarded([]);
  }

  /** Filtering distributes over concatenation. */
  lemma {:induction false} ForwardedAppend(a: seq<Row>, b: seq<Row>)
    ensures Forwarded(a + b) == Forwarded(a) + Forwarded(b)
    decreases |a|
  {
    if |a| == 0 {
      assert a + b == b;
    } else {
      assert (a + b)[0] == a[0] && (a + b)[1..] == a[1..] + b;
      ForwardedAppend(a[1..], b);
    }
  }

  /** The forwarded rows are a subsequence of the fetched rows. */
  lemma {:induction false} ForwardedIsSubsequence(rows: seq<Row>)
    ensures IsSubsequence(Forwarded(rows), rows)
    decreases |rows|
  {
    if |rows| > 0 {
      ForwardedIsSubsequence(rows[1..]);
    }
  }

  /** Nothing is lost or invented: forwarded and held-back rows together are the fetched rows. */
  lemma {:induction false} ForwardedPartition(rows: seq<Row>)
    ensures multiset(Forwarded(rows)) + multiset(Dropped(rows)) == multiset(rows)
    decreases |rows|
  {
    if |rows| > 0 {
      var rest := rows[1..];
      ForwardedPartition(rest);
      assert rows == [rows[0]] + rest;
      assert multiset(rows) == multiset([rows[0]]) + multiset(rest);
      if rows[0].forumid != ExcludedForum {
        assert Forwarded(rows) == [rows[0]] + Forwarded(rest);
        assert multiset(Forwarded(rows)) == multiset([rows[0]]) + multiset(Forwarded(rest));
        assert Dropped(rows) == Dropped(rest);
      } else {
        assert Dropped(rows) == [rows[0]] + Dropped(rest);
        assert multiset(Dropped(rows)) == multiset([rows[0]]) + multiset(Dropped(rest));
        assert Forwarded(rows) == Forwarded(rest);
      }
    }
  }

  /** A row is forwarded exactly when it was fetched and is not in forum 5. */
  lemma ForwardedMembers(rows: seq<Row>, row: Row)
    ensures row in Forwarded(rows) <==> row in rows && row.forumid != ExcludedForum
  {
    ForwardedPartition(rows);
    assert row in multiset(Forwarded(rows)) <==> row in Forwarded(rows);
    assert row in multiset(Dropped(rows)) <==> row in Dropped(rows);
  }

  /** Filtering twice is filtering once. */
  lemma {:induction false} ForwardedIdempotent(rows: seq<Row>)
    ensures Forwarded(Forwarded(rows)) == Forwarded(rows)
    decreases |rows|
  {
    if |rows| > 0 {
      ForwardedIdempotent(rows[1..]);
    }
  }

  /**
   * What `doSearch` ends in: halted by `die`, an echoed error, rendered rows,
   * the error array of `executeQuery` handed to `renderSearchResults` in place
   * of rows, or PHP's uncaught error.
   */
  datatype SearchOutcome =
    | Halted(message: string)
    | Reported(message: string)
    | Rendered(rows: seq<Row>)
    | ErrorArrayRendered(error: string)
    | Aborted

  /**
   * `doSearch` with the request, the connection attempt and the database
   * passed in: a rejected request halts with the validator's message; a
   * failed handle reports its message; otherwise the rows outside forum 5 are
   * rendered. It uses the corrected `Handle`, so a database exception is
   * reported; `DoSearchAsWritten` is the code as it stands.
   */
  function DoSearch(req: Request, conn: Connection, run: Statement -> Fetch): (o: SearchOutcome)
    ensures o.Halted? <==> ValidateFields(req).Failure?
    ensures o.Halted? ==> o.message == ValidateFields(req).error.Message()
    ensures !o.Aborted? && !o.ErrorArrayRendered?
    ensures o.Rendered? ==>
      var stmt := Statement(SearchIdSql, Some(Escape(Trim(TextAt(req, "searchid")))));
      && conn.Connected?
      && run(stmt).Fetched?
      && o.rows == Forwarded(run(stmt).rows)
    ensures o.Reported? ==>
      var stmt := Statement(SearchIdSql, Some(Escape(Trim(TextAt(req, "searchid")))));
      || (conn.Refused? && o.message == ConnectionError(conn.reason))
      || (conn.Connected? && run(stmt).Raised? && o.message == run(stmt).reason)
  {
    match ValidateFields(req)
    case Failure(e) => Halted(e.Message())
    case Success(valid) =>
      ValidatedRequestsSearchById(req);
      match Handle(valid, conn, run)
      case Failed(message) => Reported(message)
      case Crashed => Aborted
      case Handled(result) => Rendered(Forwarded(result.rows))
  }

  /**
   * `doSearch` as written, on top of `handle` as written: a database exception
   * caught by `executeQuery` comes back as a successful handle, so its error
   * array goes to `renderSearchResults` and nothing is echoed. Only a refused
   * connection is reported.
   */
  function DoSearchAsWritten(req: Request, conn: Connection, run: Statement -> Fetch): (o: SearchOutcome)
    ensures o.Halted? <==> ValidateFields(req).Failure?
    ensures o.Halted? ==> o.message == ValidateFields(req).error.Message()
    ensures !o.Aborted?
    ensures o.Reported? <==> ValidateFields(req).Success? && conn.Refused?
    ensures o.Reported? ==> o.message == ConnectionError(conn.reason)
    ensures o.Rendered? || o.ErrorArrayRendered? ==>
      var stmt := Statement(SearchIdSql, Some(Escape(Trim(TextAt(req, "searchid")))));
      && conn.Connected?
      && (o.Rendered? <==> run(stmt).Fetched?)
      && (o.Rendered? ==> o.rows == Forwarded(run(stmt).rows))
      && (o.ErrorArrayRendered? ==> o.error == run(stmt).reason)
  {
    match ValidateFields(req)
    case Failure(e) => Halted(e.Message())
    case Success(valid) =>
      ValidatedRequestsSearchById(req);
      LookupHandledAsWritten(valid, conn, run, Escape(Trim(TextAt(req, "searchid"))));
      match HandleAsWritten(valid, conn, run)
      case Failed(message) => Reported(message)
      case Crashed => Aborted
      case Handled(Rows(rows)) => Rendered(Forwarded(rows))
      case Handled(ErrorArray(error)) => ErrorArrayRendered(error)
  }

  /** `handle` as written on a request whose plan is the lookup of `id`. */
  lemma LookupHandledAsWritten(req: Request, conn: Connection, run: Statement -> Fetch, id: string)
    requires PlanOf(req) == BySearchId(Some(id))
    ensures conn.Refused? ==> HandleAsWritten(req, conn, run) == Failed(ConnectionError(conn.reason))
    ensures conn.Connected? && run(Statement(SearchIdSql, Some(id))).Fetched? ==>
      HandleAsWritten(req, conn, run) == Handled(Rows(run(Statement(SearchIdSql, Some(id))).rows))
    ensures conn.Connected? && run(Statement(SearchIdSql, Some(id))).Raised? ==>
      HandleAsWritten(req, conn, run) == Handled(ErrorArray(run(Statement(SearchIdSql, Some(id))).reason))
  {
  }

  /**
   * The finding seen from `doSearch`: for a valid request on a live connection
   * whose lookup the database rejects, the code as written hands the error
   * array to the renderer, while the corrected flow echoes the message.
   */
  lemma DatabaseErrorNotEchoed(req: Request, run: Statement -> Fetch)
    requires ValidateFields(req).Success?
    requires run(Statement(SearchIdSql, Some(Escape(Trim(TextAt(req, "searchid")))))).Raised?
    ensures DoSearchAsWritten(req, Connected, run) ==
      ErrorArrayRendered(run(Statement(SearchIdSql, Some(Escape(Trim(TextAt(req, "searchid")))))).reason)
    ensures DoSearch(req, Connected, run) ==
      Reported(run(Statement(SearchIdSql, Some(Escape(Trim(TextAt(req, "searchid")))))).reason)
  {
    ValidatedRequestsSearchById(req);
  }

  /**
   * A request that passed validation always names a non-empty `searchid`, so
   * `prepareQuery` always chooses the saved-result lookup, bound to the
   * sanitised search id: after validation the text search is never reached.
   */
  lemma ValidatedRequestsSearchById(req: Request)
    requires ValidateFields(req).Success?
    ensures PlanOf(ValidateFields(req).value) == BySearchId(Some(Escape(Trim(TextAt(req, "searchid")))))
  {
    var valid := ValidateFields(req).value;
    assert HoldsSanitised(valid, req, "searchid");
    assert !EmptyAt(valid, "searchid");
  }
}
