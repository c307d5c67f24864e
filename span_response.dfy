/** internal/scenarioDataPersistence/model/response/spanResponse.go: the
    spans of a trace as a map keyed by span id. */
module SpanResponse {
  import opened GoSlices
  import opened ScenarioDto

  /** `SpanDetails`: the error flag followed by the span's own fields, which
      the converter copies one for one and which are kept here as the
      record they are copied from. */
  datatype SpanDetails = SpanDetails(error: bool, span: SpanTableDto)

  datatype IncidentDetailsResponse = IncidentDetailsResponse(spans: map<string, SpanDetails>)

  /** One map entry. The flag tests `WorkloadIDList != nil || len != 0`,
      which holds exactly for a non-nil list, empty or not. */
  function ToSpanDetails(v: SpanTableDto): (s: SpanDetails)
    ensures s.error <==> v.workloadIdList.NonNil?
    ensures s.span == v
  {
    SpanDetails(v.workloadIdList.NonNil? || v.workloadIdList.Len() != 0, v)
  }

  /** The map built by inserting the rows in order. */
  function SpanMap(t: seq<SpanTableDto>): map<string, SpanDetails>
  {
    if t == [] then map[] else SpanMap(t[..|t| - 1])[t[|t| - 1].spanId := ToSpanDetails(t[|t| - 1])]
  }

  /** `ConvertSpanToIncidentDetailsResponse`. */
  method ConvertSpanToIncidentDetailsResponse(t: seq<SpanTableDto>) returns (resp: IncidentDetailsResponse)
    ensures resp.spans == SpanMap(t)
  {
    var respMap: map<string, SpanDetails> := map[];
    for i := 0 to |t|
      invariant respMap == SpanMap(t[..i])
    {
      var v := t[i];
      var s := ToSpanDetails(v);
      respMap := respMap[v.spanId := s];
      assert t[..i + 1][..i] == t[..i];
    }
    assert t[..|t|] == t;
    resp := IncidentDetailsResponse(respMap);
  }

  /** The keys are exactly the span ids of the rows; no rows give an empty map. */
  lemma {:induction false} SpanMapKeys(t: seq<SpanTableDto>)
    ensures SpanMap(t).Keys == set i | 0 <= i < |t| :: t[i].spanId
  {
    if t != [] {
      var p := t[..|t| - 1];
      SpanMapKeys(p);
      var all := set i | 0 <= i < |t| :: t[i].spanId;
      var before := set i | 0 <= i < |p| :: p[i].spanId;
      assert all == before + {t[|t| - 1].spanId} by {
        forall k | k in all ensures k in before + {t[|t| - 1].spanId} {
          var i :| 0 <= i < |t| && t[i].spanId == k;
          if i < |p| {
            assert p[i].spanId == k;
          }
        }
        forall k | k in before ensures k in all {
          var i :| 0 <= i < |p| && p[i].spanId == k;
          assert t[i].spanId == k;
        }
      }
    }
  }

  /** Each span id maps to the details of the last row carrying it. */
  lemma {:induction false} SpanMapLastWins(t: seq<SpanTableDto>, j: nat)
    requires j < |t|
    requires forall l :: j < l < |t| ==> t[l].spanId != t[j].spanId
    ensures t[j].spanId in SpanMap(t)
    ensures SpanMap(t)[t[j].spanId] == ToSpanDetails(t[j])
  {
    if j < |t| - 1 {
      var p := t[..|t| - 1];
      assert p[j] == t[j];
      SpanMapLastWins(p, j);
    }
  }

  /** A row with a non-nil workload list, even an empty one, is flagged when
      it is the last row for its span id. */
  lemma SpanMapErrorFlag(t: seq<SpanTableDto>, j: nat)
    requires j < |t|
    requires forall l :: j < l < |t| ==> t[l].spanId != t[j].spanId
    ensures t[j].spanId in SpanMap(t)
    ensures SpanMap(t)[t[j].spanId].error <==> t[j].workloadIdList.NonNil?
  {
    SpanMapLastWins(t, j);
  }
}
