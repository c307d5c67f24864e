/** internal/scenarioDataPersistence/model/response/spanRawDataResponse.go:
    the raw request and response bodies of spans, decompressed, keyed by span
    id. The first failed decompression ends the conversion. */
module SpanRawDataResponse {
  import opened Wrappers
  import opened ScenarioDto
  import opened Gzip

  datatype SpanRawDataDetails = SpanRawDataDetails(protocol: string, requestPayload: string, responsePayload: string)

  datatype SpanRawDataResponse = SpanRawDataResponse(spans: map<string, SpanRawDataDetails>)

  /** One row: the request body is decompressed first and its failure is
      reported without trying the response body. */
  function DecodeRow(v: SpanRawDataDto, decompress: Decompressor): (r: Result<SpanRawDataDetails, string>)
    ensures decompress(v.requestPayload).Err? ==> r == Err(decompress(v.requestPayload).error)
    ensures r.Ok? <==> decompress(v.requestPayload).Ok? && decompress(v.responsePayload).Ok?
    ensures r.Ok? ==> r.value == SpanRawDataDetails(v.protocol, decompress(v.requestPayload).value, decompress(v.responsePayload).value)
  {
    match decompress(v.requestPayload)
    case Err(e) => Err(e)
    case Ok(req) =>
      match decompress(v.responsePayload)
      case Err(e) => Err(e)
      case Ok(res) => Ok(SpanRawDataDetails(v.protocol, req, res))
  }

  /** The map after the rows have been processed in order, or the error of
      the first row that failed. */
  function RawDataMap(t: seq<SpanRawDataDto>, decompress: Decompressor): Result<map<string, SpanRawDataDetails>, string>
  {
    if t == [] then Ok(map[])
    else
      match RawDataMap(t[..|t| - 1], decompress)
      case Err(e) => Err(e)
      case Ok(m) =>
        var v := t[|t| - 1];
        match DecodeRow(v, decompress)
        case Err(e) => Err(e)
        case Ok(s) => Ok(m[v.spanId := s])
  }

  /** Once a prefix has failed, the whole conversion fails the same way. */
  lemma {:induction false} RawDataMapErrorSticks(t: seq<SpanRawDataDto>, k: nat, decompress: Decompressor)
    requires k <= |t| && RawDataMap(t[..k], decompress).Err?
    ensures RawDataMap(t, decompress) == RawDataMap(t[..k], decompress)
    decreases |t| - k
  {
    if k < |t| {
      assert t[..k + 1][..k] == t[..k];
      RawDataMapErrorSticks(t, k + 1, decompress);
    } else {
      assert t[..k] == t;
    }
  }

  /** `ConvertSpanRawDataToSpanRawDataResponse`: `(nil, err)` for the first
      failure, the response and a nil error otherwise. */
  method ConvertSpanRawDataToSpanRawDataResponse(t: seq<SpanRawDataDto>, decompress: Decompressor)
    returns (resp: Option<SpanRawDataResponse>, err: Option<string>)
    ensures RawDataMap(t, decompress).Ok? ==> resp == Some(SpanRawDataResponse(RawDataMap(t, decompress).value)) && err.None?
    ensures RawDataMap(t, decompress).Err? ==> resp.None? && err == Some(RawDataMap(t, decompress).error)
  {
    var respMap: map<string, SpanRawDataDetails> := map[];
    for i := 0 to |t|
      invariant RawDataMap(t[..i], decompress) == Ok(respMap)
    {
      var v := t[i];
      assert t[..i + 1][..i] == t[..i];
      var reqDecompressed := decompress(v.requestPayload);
      if reqDecompressed.Err? {
        RawDataMapErrorSticks(t, i + 1, decompress);
        return None, Some(reqDecompressed.error);
      }
      var resDecompressed := decompress(v.responsePayload);
      if resDecompressed.Err? {
        RawDataMapErrorSticks(t, i + 1, decompress);
        return None, Some(resDecompressed.error);
      }
      var s := SpanRawDataDetails(v.protocol, reqDecompressed.value, resDecompressed.value);
      respMap := respMap[v.spanId := s];
    }
    assert t[..|t|] == t;
    resp := Some(SpanRawDataResponse(respMap));
    err := None;
  }

  /** The conversion fails exactly when some row fails, and then reports the
      error of the first failing row (its request body's error if that one
      failed); no map is produced. */
  lemma {:induction false} RawDataMapFailsFast(t: seq<SpanRawDataDto>, decompress: Decompressor)
    ensures RawDataMap(t, decompress).Err? <==> exists i :: 0 <= i < |t| && DecodeRow(t[i], decompress).Err?
    ensures RawDataMap(t, decompress).Err? ==>
      exists k :: 0 <= k < |t| && DecodeRow(t[k], decompress).Err?
        && RawDataMap(t, decompress).error == DecodeRow(t[k], decompress).error
        && forall i :: 0 <= i < k ==> DecodeRow(t[i], decompress).Ok?
  {
    if t != [] {
      var p := t[..|t| - 1];
      RawDataMapFailsFast(p, decompress);
      var last := |t| - 1;
      if RawDataMap(p, decompress).Err? {
        var k :| 0 <= k < |p| && DecodeRow(p[k], decompress).Err?
          && RawDataMap(p, decompress).error == DecodeRow(p[k], decompress).error
          && forall i :: 0 <= i < k ==> DecodeRow(p[i], decompress).Ok?;
        assert t[k] == p[k];
        assert forall i :: 0 <= i < k ==> t[i] == p[i];
      } else {
        assert forall i :: 0 <= i < |p| ==> DecodeRow(t[i], decompress).Ok? by {
          forall i | 0 <= i < |p| ensures DecodeRow(t[i], decompress).Ok? {
            assert t[i] == p[i];
          }
        }
        if DecodeRow(t[last], decompress).Err? {
          assert forall i :: 0 <= i < last ==> DecodeRow(t[i], decompress).Ok?;
        }
      }
    }
  }

  /** On success the keys are the rows' span ids and each maps to the
      decoded bodies of the last row carrying it. */
  lemma {:induction false} RawDataMapLastWins(t: seq<SpanRawDataDto>, decompress: Decompressor, j: nat)
    requires RawDataMap(t, decompress).Ok?
    requires j < |t|
    requires forall l :: j < l < |t| ==> t[l].spanId != t[j].spanId
    ensures DecodeRow(t[j], decompress).Ok?
    ensures t[j].spanId in RawDataMap(t, decompress).value
    ensures RawDataMap(t, decompress).value[t[j].spanId] == DecodeRow(t[j], decompress).value
  {
    var p := t[..|t| - 1];
    if j < |t| - 1 {
      assert p[j] == t[j];
      RawDataMapLastWins(p, decompress, j);
    }
  }

  /** Every key of the map is the span id of some row. */
  lemma {:induction false} RawDataMapKeys(t: seq<SpanRawDataDto>, decompress: Decompressor)
    requires RawDataMap(t, decompress).Ok?
    ensures forall k :: k in RawDataMap(t, decompress).value ==> exists i :: 0 <= i < |t| && t[i].spanId == k
  {
    if t != [] {
      var p := t[..|t| - 1];
      RawDataMapKeys(p, decompress);
      forall k | k in RawDataMap(t, decompress).value
        ensures exists i :: 0 <= i < |t| && t[i].spanId == k
      {
        if k != t[|t| - 1].spanId {
          var i :| 0 <= i < |p| && p[i].spanId == k;
          assert t[i].spanId == k;
        }
      }
    }
  }

  /** Empty bodies get no special treatment: a decompressor that rejects the
      empty input makes any row with an empty request body fail. */
  lemma EmptyPayloadIsDecompressed(v: SpanRawDataDto, decompress: Decompressor)
    requires v.requestPayload == [] && decompress([]).Err?
    ensures RawDataMap([v], decompress) == Err(decompress([]).error)
  {
    assert [v][..0] == [];
  }
}
