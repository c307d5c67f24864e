/** internal/scenarioDataPersistence/model/response/issueDetailsResponse.go:
    the trace-id list of an incident page and the issue views, whose sample
    lists are cut to five entries. */
module IssueDetailsResponse {
  import opened GoSlices
  import opened TimeUtils
  import opened ScenarioDto

  datatype IncidentListResponse = IncidentListResponse(traceIdList: Slice<string>)

  datatype IssueDetails = IssueDetails(
    issueHash: string,
    issueTitle: string,
    scenarioId: string,
    scenarioVersion: string,
    sources: Slice<string>,
    destinations: Slice<string>,
    totalCount: int,
    velocity: int,
    firstSeen: Instant,
    lastSeen: Instant,
    incidents: Slice<string>)

  datatype IssueListWithDetailsResponse = IssueListWithDetailsResponse(issues: Slice<IssueDetails>)

  function Min(a: int, b: int): int
  {
    if a <= b then a else b
  }

  /** A display list: `s[:5]` when it has at least five entries, `s` itself
      otherwise. */
  function FirstFive<T>(s: Slice<T>): (r: Slice<T>)
    ensures r.Len() == Min(s.Len(), 5)
    ensures r.Items() == s.Items()[..r.Len()]
    ensures r.Nil? <==> s.Nil?
  {
    if s.Len() >= 5 then Prefix(s, 5) else s
  }

  /** Cutting to five is idempotent, and it keeps a short list as it is. */
  lemma FirstFiveIdempotent<T>(s: Slice<T>)
    ensures FirstFive(FirstFive(s)) == FirstFive(s)
    ensures s.Len() <= 5 ==> FirstFive(s) == s
  {
  }

  /** `ConvertIncidentTableDtoToIncidentListResponse`: the trace ids of the
      rows, in order, in a list that is never nil. */
  method ConvertIncidentTableDtoToIncidentListResponse(t: seq<IncidentTableDto>) returns (resp: IncidentListResponse)
    ensures resp.traceIdList.NonNil?
    ensures resp.traceIdList.Len() == |t|
    ensures forall i :: 0 <= i < |t| ==> resp.traceIdList.Items()[i] == t[i].traceId
  {
    var traceIdList := Empty();
    for i := 0 to |t|
      invariant traceIdList.NonNil? && traceIdList.Len() == i
      invariant forall j :: 0 <= j < i ==> traceIdList.Items()[j] == t[j].traceId
    {
      traceIdList := Append(traceIdList, t[i].traceId);
    }
    resp := IncidentListResponse(traceIdList);
  }

  /** `ConvertIssueDetailsDtoToIssueDetails`: the identifying fields and the
      count are copied, the velocity is recomputed from the count and the
      first/last sighting, and the three sample lists are cut to five. */
  function ConvertIssueDetailsDtoToIssueDetails(v: IssueDetailsDto): (r: IssueDetails)
    requires VelocityHours(v.firstSeen, v.lastSeen) != 0
    ensures r.issueHash == v.issueHash && r.issueTitle == v.issueTitle
    ensures r.scenarioId == v.scenarioId && r.scenarioVersion == v.scenarioVersion
    ensures r.firstSeen == v.firstSeen && r.lastSeen == v.lastSeen
    ensures r.totalCount == v.totalCount
    ensures r.velocity == Velocity(v.totalCount, v.firstSeen, v.lastSeen)
    ensures r.incidents.Len() == Min(v.incidents.Len(), 5)
    ensures r.incidents.Items() == v.incidents.Items()[..r.incidents.Len()]
    ensures r.incidents.Nil? <==> v.incidents.Nil?
    ensures r.sources.Len() == Min(v.sources.Len(), 5)
    ensures r.sources.Items() == v.sources.Items()[..r.sources.Len()]
    ensures r.sources.Nil? <==> v.sources.Nil?
    ensures r.destinations.Len() == Min(v.destinations.Len(), 5)
    ensures r.destinations.Items() == v.destinations.Items()[..r.destinations.Len()]
    ensures r.destinations.Nil? <==> v.destinations.Nil?
  {
    IssueDetails(
      v.issueHash, v.issueTitle, v.scenarioId, v.scenarioVersion,
      FirstFive(v.sources), FirstFive(v.destinations),
      v.totalCount, Velocity(v.totalCount, v.firstSeen, v.lastSeen),
      v.firstSeen, v.lastSeen, FirstFive(v.incidents))
  }

  /** The cut never loses a sample from a list of at most five, and keeps
      exactly the first five of a longer one, while the count still reports
      every occurrence. */
  lemma IssueDetailsSamples(v: IssueDetailsDto)
    requires VelocityHours(v.firstSeen, v.lastSeen) != 0
    ensures var r := ConvertIssueDetailsDtoToIssueDetails(v);
      && (v.incidents.Len() <= 5 ==> r.incidents == v.incidents)
      && (v.incidents.Len() > 5 ==> r.incidents.Items() == v.incidents.Items()[..5])
      && (v.sources.Len() <= 5 ==> r.sources == v.sources)
      && (v.sources.Len() > 5 ==> r.sources.Items() == v.sources.Items()[..5])
      && (v.destinations.Len() <= 5 ==> r.destinations == v.destinations)
      && (v.destinations.Len() > 5 ==> r.destinations.Items() == v.destinations.Items()[..5])
      && r.totalCount == v.totalCount
  {
  }

  /** `ConvertIssueListDetailsDtoToIssueListDetailsResponse`: one view per
      row, in order, in a list that is never nil. */
  method ConvertIssueListDetailsDtoToIssueListDetailsResponse(t: seq<IssueDetailsDto>)
    returns (resp: IssueListWithDetailsResponse)
    requires forall i :: 0 <= i < |t| ==> VelocityHours(t[i].firstSeen, t[i].lastSeen) != 0
    ensures resp.issues.NonNil?
    ensures resp.issues.Len() == |t|
    ensures forall i :: 0 <= i < |t| ==> resp.issues.Items()[i] == ConvertIssueDetailsDtoToIssueDetails(t[i])
  {
    var issuesList := Empty();
    for i := 0 to |t|
      invariant issuesList.NonNil? && issuesList.Len() == i
      invariant forall j :: 0 <= j < i ==> issuesList.Items()[j] == ConvertIssueDetailsDtoToIssueDetails(t[j])
    {
      var r := ConvertIssueDetailsDtoToIssueDetails(t[i]);
      issuesList := Append(issuesList, r);
    }
    resp := IssueListWithDetailsResponse(issuesList);
  }
}
