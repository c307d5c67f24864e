/** The trace-persistence repository
    (internal/scenarioDataPersistence/repository/tracePersistenceRepo.go):
    each method picks one of seven SQL templates and its parameters, asks the
    database for a row cursor, walks it, and closes the cursor on every path.

    The SQL text is not modelled: a template is an opaque tag that only
    carries the number of `$n` placeholders it declares. The database is a
    `Database` object that answers each query with a fixed row sequence (or
    an error) and records which queries were issued and how often a cursor
    was closed. */
module TraceRepo {
  import opened Wrappers
  import opened GoNumbers
  import opened GoSlices
  import opened GoStrings
  import opened TimeUtils
  import opened ScenarioDto

  /** The seven query templates of the repository. */
  datatype QueryTemplate =
    | GetIssueDetailsListWithoutServiceName
    | GetIssueDetailsList
    | GetIssueDetailsByIssueHash
    | GetTraceQuery
    | GetSpanQueryUsingTraceId
    | GetSpanQueryUsingTraceIdAndSpanId
    | GetSpanRawDataQuery

  /** The number of positional placeholders (`$1` … `$n`) in each template. */
  function Arity(t: QueryTemplate): nat
  {
    match t
    case GetIssueDetailsListWithoutServiceName => 2
    case GetIssueDetailsList => 4
    case GetIssueDetailsByIssueHash => 1
    case GetTraceQuery => 3
    case GetSpanQueryUsingTraceId => 3
    case GetSpanQueryUsingTraceIdAndSpanId => 2
    case GetSpanRawDataQuery => 2
  }

  /** A bound parameter: a string, a string array (`pq.StringArray`) or an int. */
  datatype Param = StringParam(s: string) | StringArrayParam(a: Slice<string>) | IntParam(n: int)

  datatype Query = Query(template: QueryTemplate, params: seq<Param>)

  /** A query is well formed when it binds one value per placeholder and never
      binds an empty array (`x = ANY('{}')` would match nothing). */
  predicate WellFormed(q: Query)
  {
    && |q.params| == Arity(q.template)
    && forall i :: 0 <= i < |q.params| && q.params[i].StringArrayParam? ==> q.params[i].a.Len() > 0
  }

  /** What `rows.Scan` leaves in its destination record: the scanned record,
      or, when the scan fails, the record as far as it was filled in. */
  datatype ScanResult<R> = Scanned(record: R) | ScanFailed(record: R, cause: string)

  /** The answer to `GetAll`: the row cursor (None for a nil `*sql.Rows`) and
      the error. */
  datatype Execution<R> = Execution(rows: Option<seq<ScanResult<R>>>, err: Option<string>)
  {
    /** The repository walks the cursor only without an error and with rows. */
    predicate Usable()
    {
      err.None? && rows.Some?
    }
  }

  /** A repository method's `(slice, error)` return pair. */
  datatype RepoResult<T> = RepoResult(data: Slice<T>, err: Option<string>)

  /** `sqlDB.DatabaseRepo`: a fixed answer per query, a log of issued queries
      and a count of cursor closes. */
  class Database<R> {
    const respond: Query -> Execution<R>
    var issued: seq<Query>
    var closeCalls: nat

    constructor (respond: Query -> Execution<R>)
      ensures this.respond == respond
      ensures issued == [] && closeCalls == 0
    {
      this.respond := respond;
      issued := [];
      closeCalls := 0;
    }

    /** `GetAll(query, params)`: issues the query and hands back its answer. */
    method GetAll(q: Query) returns (e: Execution<R>)
      modifies this
      ensures issued == old(issued) + [q]
      ensures closeCalls == old(closeCalls)
      ensures e == respond(q)
    {
      issued := issued + [q];
      e := respond(q);
    }

    /** The `closeRow` callback that `GetAll` returns alongside the rows. */
    method CloseRows()
      modifies this
      ensures issued == old(issued)
      ensures closeCalls == old(closeCalls) + 1
    {
      closeCalls := closeCalls + 1;
    }
  }

  /** The records in a row sequence, failed scans included, in row order. */
  function Records<R>(rows: seq<ScanResult<R>>): (rs: seq<R>)
    ensures |rs| == |rows|
    ensures forall i :: 0 <= i < |rows| ==> rs[i] == rows[i].record
  {
    if rows == [] then [] else Records(rows[..|rows| - 1]) + [rows[|rows| - 1].record]
  }

  /** The columns the issue queries scan, plus the velocity the repository
      derives from them. */
  datatype IssueRow = IssueRow(
    issueHash: string,
    issueTitle: string,
    scenarioId: string,
    scenarioVersion: string,
    source: string,
    destination: string,
    totalCount: int,
    firstSeen: Instant,
    lastSeen: Instant,
    incidents: Slice<string>,
    velocity: int)

  /** The columns `GetSpans` scans. */
  datatype SpanRow = SpanRow(
    traceId: string,
    spanId: string,
    source: string,
    destination: string,
    metadata: Option<string>,
    latencyNs: Option<Float32>,
    protocol: string,
    status: int,
    parentSpanId: string,
    workloadIdList: Slice<string>,
    time: Instant)

  /** Template and parameters of `IssueListDetailsRepo`: the service filter
      is used only when the list has elements. */
  function IssueListQuery(serviceList: Slice<string>, offset: int, limit: int): (q: Query)
    ensures WellFormed(q)
    ensures q.template == GetIssueDetailsListWithoutServiceName <==> serviceList.Len() == 0
    ensures q.template == GetIssueDetailsListWithoutServiceName || q.template == GetIssueDetailsList
    ensures q.params[|q.params| - 2..] == [IntParam(limit), IntParam(offset)]
    ensures serviceList.Len() > 0 ==> q.params[..2] == [StringArrayParam(serviceList), StringArrayParam(serviceList)]
  {
    if serviceList.Nil? || serviceList.Len() == 0 then
      Query(GetIssueDetailsListWithoutServiceName, [IntParam(limit), IntParam(offset)])
    else
      Query(GetIssueDetailsList, [StringArrayParam(serviceList), StringArrayParam(serviceList), IntParam(limit), IntParam(offset)])
  }

  /** A nil service list and an empty one select the same query. */
  lemma IssueListQueryNilOrEmpty(offset: int, limit: int)
    ensures IssueListQuery(Nil, offset, limit) == IssueListQuery(Empty(), offset, limit)
    ensures IssueListQuery(Nil, offset, limit).params == [IntParam(limit), IntParam(offset)]
  {
  }

  /** Template and parameters of `GetIssueDetails`. */
  function IssueDetailsQuery(issueHash: string): (q: Query)
    ensures WellFormed(q) && q.params == [StringParam(issueHash)]
  {
    Query(GetIssueDetailsByIssueHash, [StringParam(issueHash)])
  }

  /** Template and parameters of `GetTraces`. */
  function TracesQuery(issueHash: string, offset: int, limit: int): (q: Query)
    ensures WellFormed(q)
    ensures q.params == [StringParam(issueHash), IntParam(limit), IntParam(offset)]
  {
    Query(GetTraceQuery, [StringParam(issueHash), IntParam(limit), IntParam(offset)])
  }

  /** Template and parameters of `GetSpans`: without a span id the query is
      paginated; with one it selects that span and drops the pagination. */
  function SpansQuery(traceId: string, spanId: string, offset: int, limit: int): (q: Query)
    ensures WellFormed(q)
    ensures q.params[0] == StringParam(traceId)
    ensures q.template == GetSpanQueryUsingTraceId <==> IsEmpty(spanId)
    ensures IsEmpty(spanId) ==> q.params[1..] == [IntParam(limit), IntParam(offset)]
    ensures !IsEmpty(spanId) ==> q == Query(GetSpanQueryUsingTraceIdAndSpanId, [StringParam(traceId), StringParam(spanId)])
  {
    if IsEmpty(spanId) then
      Query(GetSpanQueryUsingTraceId, [StringParam(traceId), IntParam(limit), IntParam(offset)])
    else
      Query(GetSpanQueryUsingTraceIdAndSpanId, [StringParam(traceId), StringParam(spanId)])
  }

  /** With a span id, offset and limit have no effect on the query. */
  lemma SpansQueryIgnoresPagination(traceId: string, spanId: string, offset1: int, limit1: int, offset2: int, limit2: int)
    requires !IsEmpty(spanId)
    ensures SpansQuery(traceId, spanId, offset1, limit1) == SpansQuery(traceId, spanId, offset2, limit2)
  {
  }

  /** Template and parameters of `GetSpanRawData`. */
  function SpanRawDataQuery(traceId: string, spanId: string): (q: Query)
    ensures WellFormed(q) && q.params == [StringParam(traceId), StringParam(spanId)]
  {
    Query(GetSpanRawDataQuery, [StringParam(traceId), StringParam(spanId)])
  }

  /** Velocity is computable for every issue row the cursor would deliver
      (Go panics on a zero divisor). */
  predicate VelocitiesDefined(e: Execution<IssueRow>)
  {
    e.Usable() ==>
      forall i :: 0 <= i < |e.rows.value| ==>
        VelocityHours(e.rows.value[i].record.firstSeen, e.rows.value[i].record.lastSeen) != 0
  }

  /** Every issue record with its velocity filled in, in order. */
  function WithVelocities(rs: seq<IssueRow>): (out: seq<IssueRow>)
    requires forall i :: 0 <= i < |rs| ==> VelocityHours(rs[i].firstSeen, rs[i].lastSeen) != 0
    ensures |out| == |rs|
    ensures forall i :: 0 <= i < |rs| ==>
      out[i] == rs[i].(velocity := Velocity(rs[i].totalCount, rs[i].firstSeen, rs[i].lastSeen))
  {
    if rs == [] then []
    else
      var last := rs[|rs| - 1];
      WithVelocities(rs[..|rs| - 1]) + [last.(velocity := Velocity(last.totalCount, last.firstSeen, last.lastSeen))]
  }

  /** The result of either issue query for a given answer: the error as is
      when there is one or no cursor, otherwise a non-nil list with one entry
      per row (failed scans included) and a nil error. */
  function IssuesOutcome(e: Execution<IssueRow>): (r: RepoResult<IssueRow>)
    requires VelocitiesDefined(e)
  {
    if !e.Usable() then RepoResult(Nil, e.err)
    else RepoResult(NonNil(WithVelocities(Records(e.rows.value))), None)
  }

  /** The result of a skip-and-continue query (`GetTraces`, `GetSpanRawData`):
      the list starts nil, so it stays nil when there are no rows. */
  function AllRowsOutcome<R>(e: Execution<R>): (r: RepoResult<R>)
  {
    if !e.Usable() then RepoResult(Nil, e.err)
    else RepoResult(AppendAll(Nil, Records(e.rows.value)), None)
  }

  /** Index of the first failed scan, if any. */
  function FirstFailure<R>(rows: seq<ScanResult<R>>): (r: Option<nat>)
    ensures r.None? <==> forall i :: 0 <= i < |rows| ==> rows[i].Scanned?
    ensures r.Some? ==> r.value < |rows| && rows[r.value].ScanFailed?
    ensures r.Some? ==> forall i :: 0 <= i < r.value ==> rows[i].Scanned?
  {
    if rows == [] then None
    else if rows[0].ScanFailed? then Some(0)
    else
      match FirstFailure(rows[1..])
      case None => None
      case Some(k) => Some(k + 1)
  }

  /** A failed scan preceded only by good ones is the first failure. */
  lemma FirstFailureIsUnique<R>(rows: seq<ScanResult<R>>, k: nat)
    requires k < |rows| && rows[k].ScanFailed?
    requires forall i :: 0 <= i < k ==> rows[i].Scanned?
    ensures FirstFailure(rows) == Some(k)
  {
  }

  /** The spans of a fully scanned prefix with the requested trace id written
      over the scanned one. */
  function StampTraceId(rs: seq<SpanRow>, traceId: string): (out: seq<SpanRow>)
    ensures |out| == |rs|
    ensures forall i :: 0 <= i < |rs| ==> out[i] == rs[i].(traceId := traceId)
  {
    if rs == [] then [] else StampTraceId(rs[..|rs| - 1], traceId) + [rs[|rs| - 1].(traceId := traceId)]
  }

  /** The result of `GetSpans` for a given answer: the first failed scan
      aborts with a nil list and that scan's error. */
  function SpansOutcome(e: Execution<SpanRow>, traceId: string): (r: RepoResult<SpanRow>)
  {
    if !e.Usable() then RepoResult(Nil, e.err)
    else
      match FirstFailure(e.rows.value)
      case Some(k) => RepoResult(Nil, Some(e.rows.value[k].cause))
      case None => RepoResult(AppendAll(Nil, StampTraceId(Records(e.rows.value), traceId)), None)
  }

  /** The issue loop: every row, scanned or not, is appended with its
      velocity to a list made with `make`. */
  method CollectIssues(rows: seq<ScanResult<IssueRow>>) returns (data: Slice<IssueRow>)
    requires forall i :: 0 <= i < |rows| ==> VelocityHours(rows[i].record.firstSeen, rows[i].record.lastSeen) != 0
    ensures data == NonNil(WithVelocities(Records(rows)))
  {
    data := Empty();
    var i := 0;
    while i < |rows|
      invariant 0 <= i <= |rows|
      invariant data.NonNil? && |data.elems| == i
      invariant forall k :: 0 <= k < i ==>
        data.elems[k] == rows[k].record.(velocity := Velocity(rows[k].record.totalCount, rows[k].record.firstSeen, rows[k].record.lastSeen))
    {
      var raw := rows[i].record;
      var velocity := Velocity(raw.totalCount, raw.firstSeen, raw.lastSeen);
      data := Append(data, raw.(velocity := velocity));
      i := i + 1;
    }
    var expected := WithVelocities(Records(rows));
    assert |expected| == |data.elems|;
    assert forall k :: 0 <= k < |rows| ==> expected[k] == data.elems[k];
  }

  /** The trace and raw-data loops: every row, scanned or not, is appended to
      a list that starts nil. */
  method CollectAll<R>(rows: seq<ScanResult<R>>) returns (data: Slice<R>)
    ensures data == AppendAll(Nil, Records(rows))
  {
    data := Nil;
    var i := 0;
    while i < |rows|
      invariant 0 <= i <= |rows|
      invariant data == AppendAll(Nil, Records(rows[..i]))
    {
      data := Append(data, rows[i].record);
      assert rows[..i + 1][..i] == rows[..i];
      i := i + 1;
    }
    assert rows[..i] == rows;
  }

  /** The span loop: stops at the first failed scan with a nil list;
      otherwise appends each span with the requested trace id. */
  method CollectSpans(rows: seq<ScanResult<SpanRow>>, traceId: string) returns (r: RepoResult<SpanRow>)
    ensures r == SpansOutcome(Execution(Some(rows), None), traceId)
  {
    var data: Slice<SpanRow> := Nil;
    var i := 0;
    while i < |rows|
      invariant 0 <= i <= |rows|
      invariant forall j :: 0 <= j < i ==> rows[j].Scanned?
      invariant data.Nil? <==> i == 0
      invariant |data.Items()| == i
      invariant forall j :: 0 <= j < i ==> data.Items()[j] == rows[j].record.(traceId := traceId)
    {
      if rows[i].ScanFailed? {
        FirstFailureIsUnique(rows, i);
        return RepoResult(Nil, Some(rows[i].cause));
      }
      var raw := rows[i].record;
      data := Append(data, raw.(traceId := traceId));
      i := i + 1;
    }
    assert FirstFailure(rows).None?;
    assert data.Items() == StampTraceId(Records(rows), traceId);
    r := RepoResult(data, None);
  }

  /** `IssueListDetailsRepo(serviceList, offset, limit)`. */
  method IssueListDetailsRepo(db: Database<IssueRow>, serviceList: Slice<string>, offset: int, limit: int)
    returns (r: RepoResult<IssueRow>)
    requires VelocitiesDefined(db.respond(IssueListQuery(serviceList, offset, limit)))
    modifies db
    ensures db.issued == old(db.issued) + [IssueListQuery(serviceList, offset, limit)]
    ensures db.closeCalls == old(db.closeCalls) + 1
    ensures r == IssuesOutcome(db.respond(IssueListQuery(serviceList, offset, limit)))
  {
    var e := db.GetAll(IssueListQuery(serviceList, offset, limit));
    if !e.Usable() {
      db.CloseRows();
      return RepoResult(Nil, e.err);
    }
    var data := CollectIssues(e.rows.value);
    db.CloseRows();
    r := RepoResult(data, None);
  }

  /** `GetIssueDetails(issueHash)`. */
  method GetIssueDetails(db: Database<IssueRow>, issueHash: string) returns (r: RepoResult<IssueRow>)
    requires VelocitiesDefined(db.respond(IssueDetailsQuery(issueHash)))
    modifies db
    ensures db.issued == old(db.issued) + [IssueDetailsQuery(issueHash)]
    ensures db.closeCalls == old(db.closeCalls) + 1
    ensures r == IssuesOutcome(db.respond(IssueDetailsQuery(issueHash)))
  {
    var e := db.GetAll(IssueDetailsQuery(issueHash));
    if !e.Usable() {
      db.CloseRows();
      return RepoResult(Nil, e.err);
    }
    var data := CollectIssues(e.rows.value);
    db.CloseRows();
    r := RepoResult(data, None);
  }

  /** `GetTraces(issueHash, offset, limit)`. */
  method GetTraces(db: Database<IncidentTableDto>, issueHash: string, offset: int, limit: int)
    returns (r: RepoResult<IncidentTableDto>)
    modifies db
    ensures db.issued == old(db.issued) + [TracesQuery(issueHash, offset, limit)]
    ensures db.closeCalls == old(db.closeCalls) + 1
    ensures r == AllRowsOutcome(db.respond(TracesQuery(issueHash, offset, limit)))
  {
    var e := db.GetAll(TracesQuery(issueHash, offset, limit));
    if !e.Usable() {
      db.CloseRows();
      return RepoResult(Nil, e.err);
    }
    var data := CollectAll(e.rows.value);
    db.CloseRows();
    r := RepoResult(data, None);
  }

  /** `GetSpans(traceId, spanId, offset, limit)`. */
  method GetSpans(db: Database<SpanRow>, traceId: string, spanId: string, offset: int, limit: int)
    returns (r: RepoResult<SpanRow>)
    modifies db
    ensures db.issued == old(db.issued) + [SpansQuery(traceId, spanId, offset, limit)]
    ensures db.closeCalls == old(db.closeCalls) + 1
    ensures r == SpansOutcome(db.respond(SpansQuery(traceId, spanId, offset, limit)), traceId)
  {
    var e := db.GetAll(SpansQuery(traceId, spanId, offset, limit));
    if !e.Usable() {
      db.CloseRows();
      return RepoResult(Nil, e.err);
    }
    r := CollectSpans(e.rows.value, traceId);
    db.CloseRows();
  }

  /** `GetSpanRawData(traceId, spanId)`. */
  method GetSpanRawData(db: Database<SpanRawDataDto>, traceId: string, spanId: string)
    returns (r: RepoResult<SpanRawDataDto>)
    modifies db
    ensures db.issued == old(db.issued) + [SpanRawDataQuery(traceId, spanId)]
    ensures db.closeCalls == old(db.closeCalls) + 1
    ensures r == AllRowsOutcome(db.respond(SpanRawDataQuery(traceId, spanId)))
  {
    var e := db.GetAll(SpanRawDataQuery(traceId, spanId));
    if !e.Usable() {
      db.CloseRows();
      return RepoResult(Nil, e.err);
    }
    var data := CollectAll(e.rows.value);
    db.CloseRows();
    r := RepoResult(data, None);
  }

  /** An execution error or a nil cursor is passed through with a nil list,
      before any row is looked at. */
  lemma FailedExecutionPassesThrough<R>(e: Execution<R>, spans: Execution<SpanRow>, issues: Execution<IssueRow>, traceId: string)
    requires !e.Usable() && !spans.Usable() && !issues.Usable()
    ensures AllRowsOutcome(e) == RepoResult(Nil, e.err)
    ensures SpansOutcome(spans, traceId) == RepoResult(Nil, spans.err)
    ensures IssuesOutcome(issues) == RepoResult(Nil, issues.err)
  {
  }

  /** The issue queries keep one entry per row, in row order, even for rows
      whose scan failed; the list is never nil on success. */
  lemma {:induction false} IssuesKeepEveryRow(e: Execution<IssueRow>)
    requires VelocitiesDefined(e) && e.Usable()
    ensures IssuesOutcome(e).err.None? && IssuesOutcome(e).data.NonNil?
    ensures IssuesOutcome(e).data.Len() == |e.rows.value|
    ensures forall i :: 0 <= i < |e.rows.value| ==>
      IssuesOutcome(e).data.Items()[i].issueHash == e.rows.value[i].record.issueHash
  {
  }

  /** For rows whose first sighting is not after the last one, every
      velocity lies between 0 and the row's count. */
  lemma {:induction false} IssueVelocitiesBounded(rs: seq<IssueRow>)
    requires forall i :: 0 <= i < |rs| ==> rs[i].firstSeen <= rs[i].lastSeen && rs[i].totalCount >= 0
    ensures forall i :: 0 <= i < |rs| ==> VelocityHours(rs[i].firstSeen, rs[i].lastSeen) >= 1
    ensures forall i :: 0 <= i < |rs| ==> 0 <= WithVelocities(rs)[i].velocity <= rs[i].totalCount
  {
    forall i | 0 <= i < |rs|
      ensures VelocityHours(rs[i].firstSeen, rs[i].lastSeen) >= 1
    {
      VelocityOrdered(rs[i].totalCount, rs[i].firstSeen, rs[i].lastSeen);
    }
    forall i | 0 <= i < |rs|
      ensures 0 <= WithVelocities(rs)[i].velocity <= rs[i].totalCount
    {
      VelocityOrdered(rs[i].totalCount, rs[i].firstSeen, rs[i].lastSeen);
    }
  }

  /** The skip-and-continue queries return one record per row in row order,
      failed scans included, and a nil list exactly when there are no rows. */
  lemma AllRowsKeepEveryRow<R>(e: Execution<R>)
    requires e.Usable()
    ensures AllRowsOutcome(e).err.None?
    ensures AllRowsOutcome(e).data.Items() == Records(e.rows.value)
    ensures AllRowsOutcome(e).data.Nil? <==> e.rows.value == []
  {
  }

  /** `GetSpans` fails exactly when some scan fails, reporting the first
      failure and no partial list. */
  lemma SpansAbortOnFirstFailure(e: Execution<SpanRow>, traceId: string)
    requires e.Usable()
    ensures SpansOutcome(e, traceId).err.Some? <==> exists i :: 0 <= i < |e.rows.value| && e.rows.value[i].ScanFailed?
    ensures SpansOutcome(e, traceId).err.Some? ==>
      && SpansOutcome(e, traceId).data.Nil?
      && SpansOutcome(e, traceId).err == Some(e.rows.value[FirstFailure(e.rows.value).value].cause)
  {
  }

  /** When every scan succeeds, the spans are the rows in order, each
      carrying the requested trace id. */
  lemma SpansStampEveryRow(e: Execution<SpanRow>, traceId: string)
    requires e.Usable()
    requires forall i :: 0 <= i < |e.rows.value| ==> e.rows.value[i].Scanned?
    ensures SpansOutcome(e, traceId).err.None?
    ensures SpansOutcome(e, traceId).data.Len() == |e.rows.value|
    ensures forall i :: 0 <= i < |e.rows.value| ==>
      SpansOutcome(e, traceId).data.Items()[i] == e.rows.value[i].record.(traceId := traceId)
  {
    var rows := e.rows.value;
    assert FirstFailure(rows).None?;
    var stamped := StampTraceId(Records(rows), traceId);
    var r := SpansOutcome(e, traceId);
    assert r == RepoResult(AppendAll(Nil, stamped), None);
    assert r.data.Items() == stamped;
  }
}
