/** The flat records that rows of the trace store are scanned into, and the
    issue velocity that both the repository and the response layer derive
    from them (internal/scenarioDataPersistence/model/dto/scenarioData.go). */
module ScenarioDto {
  import opened Wrappers
  import opened GoNumbers
  import opened GoSlices
  import opened TimeUtils

  /** One incident row (`IncidentTableDto`); `totalRows` is the windowed
      count column of the page's query. */
  datatype IncidentTableDto = IncidentTableDto(
    totalRows: int,
    traceId: string,
    issueHash: string,
    incidentCollectionTime: Instant,
    entryService: string,
    endPoint: string,
    protocol: string,
    rootSpanTime: Instant,
    latencyNs: Option<Float32>)

  /** One aggregated issue row as the response layer reads it
      (`IssueDetailsDto`): the sample lists are Postgres arrays that may be
      NULL. */
  datatype IssueDetailsDto = IssueDetailsDto(
    totalRows: int,
    issueHash: string,
    issueTitle: string,
    scenarioId: string,
    scenarioVersion: string,
    sources: Slice<string>,
    destinations: Slice<string>,
    totalCount: int,
    velocity: int,
    firstSeen: Instant,
    lastSeen: Instant,
    incidents: Slice<string>)

  /** The span fields the span converter copies into its response, one for
      one (`SpanTableDto` as spanResponse.go reads it). */
  datatype SpanTableDto = SpanTableDto(
    traceId: string,
    parentSpanId: string,
    spanId: string,
    isRoot: bool,
    kind: string,
    startTime: Instant,
    latency: Float32,
    source: string,
    destination: string,
    workloadIdList: Slice<string>,
    protocol: string,
    issueHashList: Slice<string>,
    requestPayloadSize: int,
    responsePayloadSize: int,
    httpMethod: string,
    route: string,
    scheme: string,
    path: string,
    query: string,
    status: int,
    metadata: Option<string>,
    username: string,
    sourceIp: string,
    destinationIp: string,
    serviceName: string,
    errors: string)

  /** One stored raw-payload row: compressed request and response bodies. */
  datatype SpanRawDataDto = SpanRawDataDto(
    traceId: string,
    spanId: string,
    requestPayload: seq<bv8>,
    responsePayload: seq<bv8>,
    protocol: string)

  /** One stored error (`ErrorDataTableDto`): an id and its compressed body. */
  datatype ErrorDataTableDto = ErrorDataTableDto(id: string, data: seq<bv8>)

  /** One service-to-service edge of the metadata map (`MetadataMapDto`). */
  datatype MetadataMapDto = MetadataMapDto(
    source: string,
    destination: string,
    traceCount: int,
    protocolList: Slice<string>)

  /** One scenario row; the trace-id converter reads only its trace id. */
  datatype ScenarioTableDto = ScenarioTableDto(traceId: string)

  /** The denominator of the velocity: whole hours between first and last
      sighting, plus one. */
  function VelocityHours(firstSeen: Instant, lastSeen: Instant): int
  {
    HoursBetween(firstSeen, lastSeen) + 1
  }

  /** Occurrences per hour, `TotalCount / (HoursBetween(FirstSeen, LastSeen) + 1)`
      in Go's truncating integer division (the float32 conversion of the
      quotient is kept as the integer). Go panics on a zero denominator, so
      callers must avoid it. */
  function Velocity(totalCount: int, firstSeen: Instant, lastSeen: Instant): (v: int)
    requires VelocityHours(firstSeen, lastSeen) != 0
    ensures var h := VelocityHours(firstSeen, lastSeen);
      (h > 0 && totalCount >= 0 ==> h * v <= totalCount < h * (v + 1))
  {
    var q := Quo(totalCount, VelocityHours(firstSeen, lastSeen));
    assert VelocityHours(firstSeen, lastSeen) > 0 && totalCount >= 0 ==> q == totalCount / VelocityHours(firstSeen, lastSeen) by {
      if VelocityHours(firstSeen, lastSeen) > 0 && totalCount >= 0 {
        QuoOfNonNegative(totalCount, VelocityHours(firstSeen, lastSeen));
      }
    }
    q
  }

  /** For an ordered first/last pair (which `min(time)`/`max(time)` in the
      aggregate query guarantees) the denominator is at least 1, so the
      velocity is defined, never negative and never above the count; a rate
      below one per hour is truncated to 0. */
  lemma VelocityOrdered(totalCount: int, firstSeen: Instant, lastSeen: Instant)
    requires firstSeen <= lastSeen && totalCount >= 0
    ensures VelocityHours(firstSeen, lastSeen) >= 1
    ensures 0 <= Velocity(totalCount, firstSeen, lastSeen) <= totalCount
    ensures totalCount < VelocityHours(firstSeen, lastSeen) ==> Velocity(totalCount, firstSeen, lastSeen) == 0
  {
    HoursBetweenOrdered(firstSeen, lastSeen);
    var h := VelocityHours(firstSeen, lastSeen);
    QuoOfNonNegative(totalCount, h);
    if totalCount < h {
      assert totalCount / h == 0;
    }
  }

  /** First and last sighting at the same instant: the velocity is the count. */
  lemma VelocitySameInstant(totalCount: int, t: Instant)
    ensures VelocityHours(t, t) == 1
    ensures Velocity(totalCount, t, t) == totalCount
  {
    HoursBetweenSame(t);
  }
}
