/** internal/scenarioDataPersistence/model/response/ExceptionDataResponse.go:
    stored errors with their bodies decompressed; an empty body is shown as
    the empty string, and the first failed decompression ends the
    conversion. */
module ExceptionDataResponse {
  import opened Wrappers
  import opened GoSlices
  import opened ScenarioDto
  import opened Gzip

  datatype ErrorDataDetails = ErrorDataDetails(id: string, data: string)

  datatype ErrorDataResponse = ErrorDataResponse(errors: Slice<ErrorDataDetails>)

  /** One row's text: the decompressor is consulted only for a non-empty body. */
  function DecodeErrorData(v: ErrorDataTableDto, decompress: Decompressor): (r: Result<string, string>)
    ensures |v.data| == 0 ==> r == Ok("")
    ensures |v.data| != 0 ==> r == decompress(v.data)
  {
    if |v.data| != 0 then decompress(v.data) else Ok("")
  }

  /** The details of all rows in order, or the error of the first row whose
      body fails to decompress. */
  function ErrorDetailsList(t: seq<ErrorDataTableDto>, decompress: Decompressor): (r: Result<seq<ErrorDataDetails>, string>)
    ensures r.Ok? <==> forall i :: 0 <= i < |t| ==> DecodeErrorData(t[i], decompress).Ok?
    ensures r.Ok? ==> |r.value| == |t|
    ensures r.Ok? ==> forall i :: 0 <= i < |t| ==>
      r.value[i] == ErrorDataDetails(t[i].id, DecodeErrorData(t[i], decompress).value)
    ensures r.Err? ==>
      exists k :: 0 <= k < |t| && DecodeErrorData(t[k], decompress).Err?
        && r.error == DecodeErrorData(t[k], decompress).error
        && forall i :: 0 <= i < k ==> DecodeErrorData(t[i], decompress).Ok?
  {
    if t == [] then Ok([])
    else
      var p := t[..|t| - 1];
      var v := t[|t| - 1];
      assert forall i :: 0 <= i < |p| ==> p[i] == t[i];
      match ErrorDetailsList(p, decompress)
      case Err(e) => Err(e)
      case Ok(list) =>
        match DecodeErrorData(v, decompress)
        case Err(e) => Err(e)
        case Ok(text) => Ok(list + [ErrorDataDetails(v.id, text)])
  }

  /** Once a prefix has failed, the whole conversion fails the same way. */
  lemma {:induction false} ErrorDetailsErrorSticks(t: seq<ErrorDataTableDto>, k: nat, decompress: Decompressor)
    requires k <= |t| && ErrorDetailsList(t[..k], decompress).Err?
    ensures ErrorDetailsList(t, decompress) == ErrorDetailsList(t[..k], decompress)
    decreases |t| - k
  {
    if k < |t| {
      assert t[..k + 1][..k] == t[..k];
      ErrorDetailsErrorSticks(t, k + 1, decompress);
    } else {
      assert t[..k] == t;
    }
  }

  /** `ConvertErrorDataToErrorDataResponse`: on the first failure, a response
      whose list is unset (nil) and the error; otherwise a never-nil list and
      a nil error. */
  method ConvertErrorDataToErrorDataResponse(t: seq<ErrorDataTableDto>, decompress: Decompressor)
    returns (resp: ErrorDataResponse, err: Option<string>)
    ensures ErrorDetailsList(t, decompress).Ok? ==>
      resp == ErrorDataResponse(NonNil(ErrorDetailsList(t, decompress).value)) && err.None?
    ensures ErrorDetailsList(t, decompress).Err? ==>
      resp == ErrorDataResponse(Nil) && err == Some(ErrorDetailsList(t, decompress).error)
  {
    var respList := Empty();
    resp := ErrorDataResponse(Nil);
    for i := 0 to |t|
      invariant ErrorDetailsList(t[..i], decompress) == Ok(respList.Items()) && respList.NonNil?
    {
      var v := t[i];
      assert t[..i + 1][..i] == t[..i];
      var errorDecompressed := "";
      if |v.data| != 0 {
        var d := decompress(v.data);
        if d.Err? {
          ErrorDetailsErrorSticks(t, i + 1, decompress);
          return resp, Some(d.error);
        }
        errorDecompressed := d.value;
      }
      respList := Append(respList, ErrorDataDetails(v.id, errorDecompressed));
    }
    assert t[..|t|] == t;
    resp := ErrorDataResponse(respList);
    err := None;
  }

  /** Rows with empty bodies never reach the decompressor: any two
      decompressors give the same result on them. */
  lemma {:induction false} EmptyBodiesSkipDecompression(t: seq<ErrorDataTableDto>, d1: Decompressor, d2: Decompressor)
    requires forall i :: 0 <= i < |t| ==> |t[i].data| == 0
    ensures ErrorDetailsList(t, d1) == ErrorDetailsList(t, d2)
    ensures ErrorDetailsList(t, d1).Ok?
    ensures forall i :: 0 <= i < |t| ==> ErrorDetailsList(t, d1).value[i] == ErrorDataDetails(t[i].id, "")
  {
    if t != [] {
      EmptyBodiesSkipDecompression(t[..|t| - 1], d1, d2);
    }
  }
}
