/** internal/scenarioDataPersistence/service/tracePersistenceService.go: each
    operation checks its paging arguments, makes one repository call and
    converts the rows.

    The repository calls this service makes (`GetIncidentData`, `GetTraces`
    returning scenario rows, `GetSpan`, a four-argument `GetSpanRawData` and
    `GetMetadataMap`) are not those of the repository in this model, so each
    is a function parameter; so are the span converter and the duration
    check, which are not part of this model. A repository answer is the rows
    or an error message. */
module TraceService {
  import opened Wrappers
  import opened GoSlices
  import opened ZkErrors
  import opened ScenarioDto
  import opened ScenarioResponse
  import opened SpanRawDataResponse
  import opened MetadataMapResponse
  import opened Gzip

  /** A service result: the response (its zero value on error) and the error. */
  datatype Reply<R> = Reply(response: R, err: Option<ZkError>)

  /** The paging guard shared by every operation. */
  predicate BadPage(offset: int, limit: int)
  {
    offset < 0 || limit < 1
  }

  /** The upper bound on `limit` for raw span data. */
  const RawDataLimit: int := 100

  const RawDataLimitMessage: string := "either offset or limit < 0 or limit > 100"

  /** `GetIncidentData(scenarioType, source, offset, limit)`. */
  function GetIncidentData<T>(
    repo: (string, string, int, int) -> Result<Slice<T>, string>,
    scenarioType: string, source: string, offset: int, limit: int): (r: Reply<IncidentResponse<T>>)
    ensures BadPage(offset, limit) ==> r == Reply(IncidentResponse(Nil), Some(Plain(BadRequest)))
    ensures r.err.None? <==> !BadPage(offset, limit) && repo(scenarioType, source, offset, limit).Ok?
    ensures r.err.None? ==> r.response.incidentList == repo(scenarioType, source, offset, limit).value
    ensures !BadPage(offset, limit) && repo(scenarioType, source, offset, limit).Err? ==>
      r == Reply(IncidentResponse(Nil), Some(Plain(DbError)))
  {
    if BadPage(offset, limit) then Reply(IncidentResponse(Nil), Some(Plain(BadRequest)))
    else
      match repo(scenarioType, source, offset, limit)
      case Ok(data) => Reply(ConvertIncidentToIncidentResponse(data), None)
      case Err(_) => Reply(IncidentResponse(Nil), Some(Plain(DbError)))
  }

  /** `GetTraces(scenarioId, offset, limit)`. */
  function GetTraces(
    repo: (string, int, int) -> Result<seq<ScenarioTableDto>, string>,
    scenarioId: string, offset: int, limit: int): (r: Reply<TraceResponse>)
    ensures BadPage(offset, limit) ==> r == Reply(TraceResponse(Nil), Some(Plain(BadRequest)))
    ensures r.err.None? <==> !BadPage(offset, limit) && repo(scenarioId, offset, limit).Ok?
    ensures r.err.None? ==>
      && r.response.traceIdList.NonNil?
      && r.response.traceIdList.Items() == TraceIds(repo(scenarioId, offset, limit).value)
    ensures !BadPage(offset, limit) && repo(scenarioId, offset, limit).Err? ==>
      r == Reply(TraceResponse(Nil), Some(Plain(DbError)))
  {
    if BadPage(offset, limit) then Reply(TraceResponse(Nil), Some(Plain(BadRequest)))
    else
      match repo(scenarioId, offset, limit)
      case Ok(data) => Reply(TraceResponse(NonNil(TraceIds(data))), None)
      case Err(_) => Reply(TraceResponse(Nil), Some(Plain(DbError)))
  }

  /** `GetTracesMetadata(traceId, spanId, offset, limit)`; `zero` is the
      zero value of the span response. */
  function GetTracesMetadata<D, R>(
    repo: (string, string, int, int) -> Result<D, string>, convert: D -> R, zero: R,
    traceId: string, spanId: string, offset: int, limit: int): (r: Reply<R>)
    ensures BadPage(offset, limit) ==> r == Reply(zero, Some(Plain(BadRequest)))
    ensures r.err.None? <==> !BadPage(offset, limit) && repo(traceId, spanId, offset, limit).Ok?
    ensures r.err.None? ==> r.response == convert(repo(traceId, spanId, offset, limit).value)
    ensures !BadPage(offset, limit) && repo(traceId, spanId, offset, limit).Err? ==>
      r == Reply(zero, Some(Plain(DbError)))
  {
    if BadPage(offset, limit) then Reply(zero, Some(Plain(BadRequest)))
    else
      match repo(traceId, spanId, offset, limit)
      case Ok(data) => Reply(convert(data), None)
      case Err(_) => Reply(zero, Some(Plain(DbError)))
  }

  /** The raw-data paging guard: a limit from 1 to 100 and a non-negative
      offset. */
  predicate BadRawDataPage(offset: int, limit: int)
  {
    offset < 0 || limit < 1 || limit > RawDataLimit
  }

  /** The service dereferences the converter's response, which is nil when a
      body fails to decompress; a caller must rule that out. */
  predicate RawDataDecodes(
    repo: (string, string, int, int) -> Result<seq<SpanRawDataDto>, string>, decompress: Decompressor,
    traceId: string, spanId: string, offset: int, limit: int)
  {
    !BadRawDataPage(offset, limit) && repo(traceId, spanId, offset, limit).Ok? ==>
      RawDataMap(repo(traceId, spanId, offset, limit).value, decompress).Ok?
  }

  /** `GetTracesRawData(traceId, spanId, offset, limit)`. */
  function GetTracesRawData(
    repo: (string, string, int, int) -> Result<seq<SpanRawDataDto>, string>, decompress: Decompressor,
    traceId: string, spanId: string, offset: int, limit: int): (r: Reply<SpanRawDataResponse>)
    requires RawDataDecodes(repo, decompress, traceId, spanId, offset, limit)
    ensures BadRawDataPage(offset, limit) ==>
      r == Reply(SpanRawDataResponse(map[]), Some(ZkError(BadRequest, Text(RawDataLimitMessage))))
    ensures r.err.None? <==> !BadRawDataPage(offset, limit) && repo(traceId, spanId, offset, limit).Ok?
    ensures r.err.None? ==>
      r.response.spans == RawDataMap(repo(traceId, spanId, offset, limit).value, decompress).value
    ensures !BadRawDataPage(offset, limit) && repo(traceId, spanId, offset, limit).Err? ==>
      r == Reply(SpanRawDataResponse(map[]), Some(Plain(DbError)))
  {
    if BadRawDataPage(offset, limit) then
      Reply(SpanRawDataResponse(map[]), Some(ZkError(BadRequest, Text(RawDataLimitMessage))))
    else
      match repo(traceId, spanId, offset, limit)
      case Ok(data) => Reply(SpanRawDataResponse(RawDataMap(data, decompress).value), None)
      case Err(_) => Reply(SpanRawDataResponse(map[]), Some(Plain(DbError)))
  }

  /** `GetMetadataMap(duration, offset, limit)`: the duration is checked
      first, and the repository is always asked for the literal `"st"`. */
  function GetMetadataMap(
    repo: (string, int, int) -> Result<seq<MetadataMapDto>, string>, isValidPxlTime: string -> bool,
    duration: string, offset: int, limit: int): (r: Reply<MetadataMapResponse>)
    ensures !isValidPxlTime(duration) ==>
      r == Reply(MetadataMapResponse(Nil), Some(ZkError(BadRequest, Text("invalid duration"))))
    ensures isValidPxlTime(duration) && BadPage(offset, limit) ==>
      r == Reply(MetadataMapResponse(Nil), Some(Plain(BadRequest)))
    ensures r.err.None? <==> isValidPxlTime(duration) && !BadPage(offset, limit) && repo("st", offset, limit).Ok?
    ensures r.err.None? ==> r.response.metadataMapList == MetadataMapList(repo("st", offset, limit).value)
    ensures isValidPxlTime(duration) && !BadPage(offset, limit) && repo("st", offset, limit).Err? ==>
      r == Reply(MetadataMapResponse(Nil), Some(Plain(DbError)))
  {
    if !isValidPxlTime(duration) then
      Reply(MetadataMapResponse(Nil), Some(ZkError(BadRequest, Text("invalid duration"))))
    else if BadPage(offset, limit) then Reply(MetadataMapResponse(Nil), Some(Plain(BadRequest)))
    else
      match repo("st", offset, limit)
      case Ok(data) => Reply(MetadataMapResponse(MetadataMapList(data)), None)
      case Err(_) => Reply(MetadataMapResponse(Nil), Some(Plain(DbError)))
  }

  /** The smallest page (offset 0, limit 1) passes every guard, and the
      raw-data guard accepts exactly the limits 1 to 100. */
  lemma PagingBoundaries(offset: int, limit: int)
    ensures !BadPage(0, 1) && !BadRawDataPage(0, 1) && !BadRawDataPage(0, 100) && BadRawDataPage(0, 101)
    ensures offset >= 0 ==> (!BadRawDataPage(offset, limit) <==> 1 <= limit <= 100)
    ensures !BadRawDataPage(offset, limit) ==> !BadPage(offset, limit)
  {
  }

  /** A rejected page never consults the repository: two repositories give
      the same reply. */
  lemma RejectedPageIgnoresRepository<T>(
    repo1: (string, string, int, int) -> Result<Slice<T>, string>,
    repo2: (string, string, int, int) -> Result<Slice<T>, string>,
    traces1: (string, int, int) -> Result<seq<ScenarioTableDto>, string>,
    traces2: (string, int, int) -> Result<seq<ScenarioTableDto>, string>,
    scenarioType: string, source: string, offset: int, limit: int)
    requires BadPage(offset, limit)
    ensures GetIncidentData(repo1, scenarioType, source, offset, limit) == GetIncidentData(repo2, scenarioType, source, offset, limit)
    ensures GetTraces(traces1, scenarioType, offset, limit) == GetTraces(traces2, scenarioType, offset, limit)
  {
  }

  /** The duration never reaches the repository: any two valid durations
      give the same reply. */
  lemma MetadataMapIgnoresDuration(
    repo: (string, int, int) -> Result<seq<MetadataMapDto>, string>, isValidPxlTime: string -> bool,
    d1: string, d2: string, offset: int, limit: int)
    requires isValidPxlTime(d1) && isValidPxlTime(d2)
    ensures GetMetadataMap(repo, isValidPxlTime, d1, offset, limit) == GetMetadataMap(repo, isValidPxlTime, d2, offset, limit)
  {
  }
}
