/** internal/scenarioDataPersistence/validation/validation.go: the checks on
    the raw query-string values of the trace API. Each validator returns the
    first error it finds, or nil. */
module Validation {
  import opened Wrappers
  import opened GoStrings
  import opened ZkErrors

  /** `ValidateLimit`: an empty value is accepted; any other must pass
      `strconv.Atoi`. Sign and size are not checked beyond that. */
  function ValidateLimit(limit: string): (r: Option<ZkError>)
    ensures r.None? <==> IsEmpty(limit) || Atoi(limit).Ok?
    ensures r.Some? ==> r.value == Plain(BadRequestLimitIsNotInteger)
  {
    if !IsEmpty(limit) && Atoi(limit).Err? then Some(Plain(BadRequestLimitIsNotInteger)) else None
  }

  /** `ValidateOffset`: the same rule, reporting the same error type as the
      limit check. */
  function ValidateOffset(offset: string): (r: Option<ZkError>)
    ensures r.None? <==> IsEmpty(offset) || Atoi(offset).Ok?
    ensures r.Some? ==> r.value == Plain(BadRequestLimitIsNotInteger)
  {
    if !IsEmpty(offset) && Atoi(offset).Err? then Some(Plain(BadRequestLimitIsNotInteger)) else None
  }

  /** The two checks agree on every input. */
  lemma OffsetRuleIsLimitRule(s: string)
    ensures ValidateOffset(s) == ValidateLimit(s)
  {
  }

  /** Negative numbers pass; fractions and words fail, and so does any
      number outside the int64 range. */
  lemma ValidateLimitExamples(big: string)
    requires IsDecimal(big) && DecimalValue(big) > 0x7FFF_FFFF_FFFF_FFFF
    ensures ValidateLimit("").None?
    ensures ValidateLimit("-5").None?
    ensures ValidateLimit("abc").Some?
    ensures ValidateLimit("2.5").Some?
    ensures ValidateLimit(big).Some?
  {
    assert "-5"[1..] == "5";
    assert DigitsValue("5") == 5 by {
      assert "5"[..0] == "";
    }
    assert !IsDigit("abc"[0]);
    assert !IsDigit("2.5"[1]);
  }

  /** The first error of a sequence of checks run in order. */
  function FirstError(checks: seq<Option<ZkError>>): (r: Option<ZkError>)
    ensures r.None? <==> forall i :: 0 <= i < |checks| ==> checks[i].None?
    ensures r.Some? ==> exists k :: 0 <= k < |checks| && r == checks[k] && forall i :: 0 <= i < k ==> checks[i].None?
  {
    if checks == [] then None
    else if checks[0].Some? then checks[0]
    else
      var r := FirstError(checks[1..]);
      assert forall i :: 1 <= i < |checks| ==> checks[i] == checks[1..][i - 1];
      r
  }

  lemma FirstErrorOfThree(a: Option<ZkError>, b: Option<ZkError>, c: Option<ZkError>)
    ensures FirstError([a, b, c]) == if a.Some? then a else if b.Some? then b else c
  {
    var s := [a, b, c];
    assert s[1..] == [b, c];
    assert [b, c][1..] == [c];
    assert [c][1..] == [];
    if a.None? {
      if b.None? {
        assert FirstError([c]) == c;
        assert FirstError([b, c]) == c;
      } else {
        assert FirstError([b, c]) == b;
      }
    }
  }

  /** `GetIssuesListWithDetails(offset, limit)`: the limit, then the offset. */
  function GetIssuesListWithDetails(offset: string, limit: string): (r: Option<ZkError>)
    ensures r == FirstError([ValidateLimit(limit), ValidateOffset(offset)])
  {
    if ValidateLimit(limit).Some? then ValidateLimit(limit)
    else if ValidateOffset(offset).Some? then ValidateOffset(offset)
    else None
  }

  /** `ValidateIssueHashOffsetAndLimit`: an empty hash, then the limit, then
      the offset. */
  function ValidateIssueHashOffsetAndLimit(issueHash: string, offset: string, limit: string): (r: Option<ZkError>)
    ensures r == FirstError([if IsEmpty(issueHash) then Some(Plain(BadRequestIssueHashEmpty)) else None,
                             ValidateLimit(limit), ValidateOffset(offset)])
  {
    FirstErrorOfThree(if IsEmpty(issueHash) then Some(Plain(BadRequestIssueHashEmpty)) else None,
                      ValidateLimit(limit), ValidateOffset(offset));
    if IsEmpty(issueHash) then Some(Plain(BadRequestIssueHashEmpty))
    else if ValidateLimit(limit).Some? then ValidateLimit(limit)
    else if ValidateOffset(offset).Some? then ValidateOffset(offset)
    else None
  }

  /** `ValidateGetSpanRawDataApi`: an empty trace id is reported before an
      empty span id. */
  function ValidateGetSpanRawDataApi(traceId: string, spanId: string): (r: Option<ZkError>)
    ensures r.None? <==> !IsEmpty(traceId) && !IsEmpty(spanId)
    ensures IsEmpty(traceId) ==> r == Some(Plain(BadRequestTraceIdEmpty))
    ensures !IsEmpty(traceId) && IsEmpty(spanId) ==> r == Some(Plain(BadRequestSpanIdEmpty))
  {
    if IsEmpty(traceId) then Some(Plain(BadRequestTraceIdEmpty))
    else if IsEmpty(spanId) then Some(Plain(BadRequestSpanIdEmpty))
    else None
  }

  /** `ValidateGetIncidentDetailsApi`: an empty trace id, then the limit,
      then the offset. */
  function ValidateGetIncidentDetailsApi(traceId: string, offset: string, limit: string): (r: Option<ZkError>)
    ensures r == FirstError([if IsEmpty(traceId) then Some(Plain(BadRequestTraceIdEmpty)) else None,
                             ValidateLimit(limit), ValidateOffset(offset)])
  {
    FirstErrorOfThree(if IsEmpty(traceId) then Some(Plain(BadRequestTraceIdEmpty)) else None,
                      ValidateLimit(limit), ValidateOffset(offset));
    if IsEmpty(traceId) then Some(Plain(BadRequestTraceIdEmpty))
    else if ValidateLimit(limit).Some? then ValidateLimit(limit)
    else if ValidateOffset(offset).Some? then ValidateOffset(offset)
    else None
  }

  /** A bad limit is reported even when the offset is bad too, and the hash
      check comes before both. */
  lemma ValidationOrder(issueHash: string, offset: string, limit: string)
    ensures ValidateLimit(limit).Some? ==> GetIssuesListWithDetails(offset, limit) == ValidateLimit(limit)
    ensures IsEmpty(issueHash) ==>
      ValidateIssueHashOffsetAndLimit(issueHash, offset, limit) == Some(Plain(BadRequestIssueHashEmpty))
    ensures GetIssuesListWithDetails(offset, limit).None? <==> ValidateLimit(limit).None? && ValidateOffset(offset).None?
  {
  }
}
