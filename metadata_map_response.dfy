/** internal/scenarioDataPersistence/model/response/metadataMapResponse.go:
    the service map, whose endpoint names lose their last two `-`-separated
    segments (the replica-set and pod hashes of a Kubernetes pod name). */
module MetadataMapResponse {
  import opened GoSlices
  import opened GoStrings
  import opened ScenarioDto

  datatype MetadataMapResponse = MetadataMapResponse(metadataMapList: Slice<MetadataMapDto>)

  /** `removeLastTwoStrings`: split on `-`; with at most two pieces the
      input is returned, otherwise all but the last two pieces are joined
      back with `-`. */
  function RemoveLastTwoStrings(input: string): (r: string)
    ensures Count(input, '-') <= 1 ==> r == input
  {
    var parts := Split(input, '-');
    SplitLength(input, '-');
    if |parts| <= 2 then input
    else Join(parts[..|parts| - 2], "-")
  }

  /** Cutting the `-`-separated pieces of `input` after the first `m`:
      the input is the join of the first `m` pieces, a dash, and the join of
      the rest, and each side keeps its own dashes. */
  lemma {:induction false} SplitJoinAt(input: string, m: nat)
    requires 1 <= m < |Split(input, '-')|
    ensures var parts := Split(input, '-');
      && input == Join(parts[..m], "-") + "-" + Join(parts[m..], "-")
      && Count(Join(parts[..m], "-"), '-') == m - 1
      && Count(Join(parts[m..], "-"), '-') == |parts| - m - 1
  {
    var parts := Split(input, '-');
    SplitPiecesFree(input, '-');
    JoinSplit(input, '-');
    JoinPrefix(parts, m, "-");
    JoinCount(parts[..m], '-');
    JoinCount(parts[m..], '-');
  }

  /** With at least two dashes the result is the input cut just before its
      second-to-last dash: a prefix of it with two dashes fewer. */
  lemma {:induction false} RemoveLastTwoStringsCuts(input: string)
    requires Count(input, '-') >= 2
    ensures RemoveLastTwoStrings(input) <= input
    ensures Count(RemoveLastTwoStrings(input), '-') == Count(input, '-') - 2
    ensures exists tail :: input == RemoveLastTwoStrings(input) + "-" + tail && Count(tail, '-') == 1
  {
    var parts := Split(input, '-');
    SplitLength(input, '-');
    var m := |parts| - 2;
    var head := Join(parts[..m], "-");
    var tail := Join(parts[m..], "-");
    assert input == head + ("-" + tail) && Count(head, '-') == m - 1 && Count(tail, '-') == 1 by {
      SplitJoinAt(input, m);
    }
    assert RemoveLastTwoStrings(input) == head;
    assert head <= input by {
      assert input[..|head|] == head;
    }
    assert input == head + "-" + tail;
  }

  /** The result is always a prefix of the input. */
  lemma RemoveLastTwoStringsPrefix(input: string)
    ensures RemoveLastTwoStrings(input) <= input
  {
    SplitLength(input, '-');
    if Count(input, '-') >= 2 {
      RemoveLastTwoStringsCuts(input);
    }
  }

  /** Examples: "api-7d-x2" loses its two hashes; a name with one dash and
      the empty string are kept. */
  lemma RemoveLastTwoStringsExamples()
    ensures RemoveLastTwoStrings("api-7d-x2") == "api"
    ensures RemoveLastTwoStrings("my-svc") == "my-svc"
    ensures RemoveLastTwoStrings("") == ""
  {
    SplitWithout("x2", '-');
    SplitAt("7d", "x2", '-');
    assert "7d-x2" == "7d" + "-" + "x2";
    SplitAt("api", "7d-x2", '-');
    assert "api-7d-x2" == "api" + "-" + "7d-x2";
    SplitWithout("my", '-');
    SplitWithout("svc", '-');
    SplitAt("my", "svc", '-');
    assert "my-svc" == "my" + "-" + "svc";
    SplitLength("my-svc", '-');
  }

  /** One entry of the response: both endpoint names trimmed, the count and
      the protocol list copied. */
  function TrimEndpoints(v: MetadataMapDto): (x: MetadataMapDto)
    ensures x.source == RemoveLastTwoStrings(v.source)
    ensures x.destination == RemoveLastTwoStrings(v.destination)
    ensures x.traceCount == v.traceCount && x.protocolList == v.protocolList
  {
    MetadataMapDto(RemoveLastTwoStrings(v.source), RemoveLastTwoStrings(v.destination), v.traceCount, v.protocolList)
  }

  /** The response list as a function of the rows: one trimmed entry per
      row, in order; nil for no rows, since the list starts nil. */
  function MetadataMapList(t: seq<MetadataMapDto>): (r: Slice<MetadataMapDto>)
    ensures r.Len() == |t|
    ensures r.Nil? <==> t == []
    ensures forall i :: 0 <= i < |t| ==> r.Items()[i] == TrimEndpoints(t[i])
  {
    if t == [] then Nil else NonNil(seq(|t|, i requires 0 <= i < |t| => TrimEndpoints(t[i])))
  }

  /** `ConvertMetadataMapToMetadataMapResponse`; its error is nil on every
      path and is left out. */
  method ConvertMetadataMapToMetadataMapResponse(t: seq<MetadataMapDto>) returns (resp: MetadataMapResponse)
    ensures resp.metadataMapList == MetadataMapList(t)
  {
    var resList := AppendEach(t, TrimEndpoints);
    ListIsMetadataMapList(t, resList);
    resp := MetadataMapResponse(resList);
  }

  /** A slice as long as the rows, nil exactly for no rows and holding the
      trimmed rows in order, is the response list. */
  lemma ListIsMetadataMapList(t: seq<MetadataMapDto>, list: Slice<MetadataMapDto>)
    requires list.Len() == |t| && (list.Nil? <==> t == [])
    requires forall k :: 0 <= k < |t| ==> list.Items()[k] == TrimEndpoints(t[k])
    ensures list == MetadataMapList(t)
  {
    if list.NonNil? {
      assert list.elems == MetadataMapList(t).elems;
    }
  }
}
