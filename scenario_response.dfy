/** internal/scenarioDataPersistence/model/response/scenarioResponse.go: the
    trace-id list of a scenario and the incident list wrapper. Both converters
    return a nil error on every path, so their error result is left out. */
module ScenarioResponse {
  import opened GoSlices
  import opened ScenarioDto

  datatype TraceResponse = TraceResponse(traceIdList: Slice<string>)

  /** The incident list wrapper; the incident record type is not part of
      this model, so the wrapper is generic in it. */
  datatype IncidentResponse<T> = IncidentResponse(incidentList: Slice<T>)

  /** The trace ids of the rows, in order. */
  function TraceIds(t: seq<ScenarioTableDto>): (ids: seq<string>)
    ensures |ids| == |t|
    ensures forall i :: 0 <= i < |t| ==> ids[i] == t[i].traceId
  {
    if t == [] then [] else TraceIds(t[..|t| - 1]) + [t[|t| - 1].traceId]
  }

  /** `ConvertScenarioTableDtoToTraceResponse`: the rows' trace ids, in
      order, in a list that is never nil. */
  method ConvertScenarioTableDtoToTraceResponse(t: seq<ScenarioTableDto>) returns (resp: TraceResponse)
    ensures resp == TraceResponse(NonNil(TraceIds(t)))
  {
    var traceIdList := Empty();
    for i := 0 to |t|
      invariant traceIdList == NonNil(TraceIds(t[..i]))
    {
      traceIdList := Append(traceIdList, t[i].traceId);
      assert t[..i + 1][..i] == t[..i];
    }
    assert t[..|t|] == t;
    resp := TraceResponse(traceIdList);
  }

  /** `ConvertIncidentToIncidentResponse`: the slice is wrapped as it is,
      nil included. */
  function ConvertIncidentToIncidentResponse<T>(t: Slice<T>): (r: IncidentResponse<T>)
    ensures r.incidentList == t
  {
    IncidentResponse(t)
  }
}
