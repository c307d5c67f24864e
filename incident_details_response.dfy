/** internal/scenarioDataPersistence/model/response/incidentDetailsResponse.go:
    the incident page, whose total comes from the first row's window count. */
module IncidentDetailsResponse {
  import opened Wrappers
  import opened GoNumbers
  import opened GoSlices
  import opened TimeUtils
  import opened ScenarioDto

  datatype IncidentDetail = IncidentDetail(
    incidentId: string,
    entryService: string,
    endPoint: string,
    rootSpanTime: Instant,
    latencyNs: Option<Float32>,
    incidentCollectionTime: Instant,
    protocol: string)

  datatype IncidentDetailListResponse = IncidentDetailListResponse(
    incidentDetList: Slice<IncidentDetail>,
    totalRecords: int)

  /** `getIncidentDetail`: the trace id becomes the incident id; the other
      displayed fields are copied. */
  function GetIncidentDetail(t: IncidentTableDto): (d: IncidentDetail)
    ensures d.incidentId == t.traceId
    ensures d.entryService == t.entryService && d.endPoint == t.endPoint
    ensures d.rootSpanTime == t.rootSpanTime && d.latencyNs == t.latencyNs
    ensures d.incidentCollectionTime == t.incidentCollectionTime && d.protocol == t.protocol
  {
    IncidentDetail(t.traceId, t.entryService, t.endPoint, t.rootSpanTime, t.latencyNs,
                   t.incidentCollectionTime, t.protocol)
  }

  /** Rows that differ only in the fields the page does not show (the window
      count and the issue hash) give the same detail. */
  lemma GetIncidentDetailIgnoresCountAndHash(t: IncidentTableDto, totalRows: int, issueHash: string)
    ensures GetIncidentDetail(t.(totalRows := totalRows, issueHash := issueHash)) == GetIncidentDetail(t)
  {
  }

  /** `ConvertIncidentTableDtoToIncidentDetailListResponse`: one detail per
      row, in order, in a list that is never nil; the total is the first
      row's `TotalRows`, or 0 for no rows. */
  method ConvertIncidentTableDtoToIncidentDetailListResponse(t: seq<IncidentTableDto>)
    returns (resp: IncidentDetailListResponse)
    ensures resp.incidentDetList.NonNil?
    ensures resp.incidentDetList.Len() == |t|
    ensures forall i :: 0 <= i < |t| ==> resp.incidentDetList.Items()[i] == GetIncidentDetail(t[i])
    ensures |t| > 0 ==> resp.totalRecords == t[0].totalRows
    ensures |t| == 0 ==> resp.totalRecords == 0
  {
    var incidentDetailList := Empty();
    for i := 0 to |t|
      invariant incidentDetailList.NonNil? && incidentDetailList.Len() == i
      invariant forall j :: 0 <= j < i ==> incidentDetailList.Items()[j] == GetIncidentDetail(t[j])
    {
      incidentDetailList := Append(incidentDetailList, GetIncidentDetail(t[i]));
    }
    if incidentDetailList.Len() > 0 {
      return IncidentDetailListResponse(incidentDetailList, t[0].totalRows);
    }
    resp := IncidentDetailListResponse(incidentDetailList, 0);
  }
}
