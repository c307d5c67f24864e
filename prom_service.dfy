/** internal/prometheus/service/prometheusService.go: the decisions and data
    reshaping the Prometheus service performs around its HTTP calls. The calls
    themselves (the GET, reading the body, JSON decoding, client creation) are
    inputs: each function receives what the call returned. */
module PromService {
  import opened Wrappers
  import opened GoSlices
  import opened GoStrings
  import opened ZkErrors
  import opened IntegrationsDto
  import IntegrationsManager
  import opened AlertTimeSeries

  // ---------------------------------------------------------------------
  // Label filtering: extractMetricAttributes

  /** One sample of an instant vector; only its label set is read. */
  datatype Sample = Sample(metric: map<string, string>, timestamp: int)

  /** A label name is internal when it starts with a double underscore. */
  predicate Internal(name: string)
  {
    HasPrefix(name, "__")
  }

  /** The labels of one sample with the internal ones removed, values kept. */
  function VisibleLabels(metric: map<string, string>): (r: map<string, string>)
    ensures forall k :: k in r <==> k in metric && !Internal(k)
    ensures forall k :: k in r ==> r[k] == metric[k]
  {
    map k | k in metric && !Internal(k) :: metric[k]
  }

  /** The inner loop of `extractMetricAttributes`: copies every label that is
      not internal, in the map's unspecified order. */
  method DropInternalLabels(metric: map<string, string>) returns (attributes: map<string, string>)
    ensures attributes == VisibleLabels(metric)
  {
    attributes := map[];
    var rest := metric.Keys;
    while rest != {}
      invariant rest <= metric.Keys
      invariant forall k :: k in attributes <==> k in metric && k !in rest && !Internal(k)
      invariant forall k :: k in attributes ==> attributes[k] == metric[k]
      decreases |rest|
    {
      var key :| key in rest;
      rest := rest - {key};
      if Internal(key) {
        continue;
      }
      attributes := attributes[key := metric[key]];
    }
  }

  /** `extractMetricAttributes(v)`: one attribute map per sample, in order,
      each holding exactly that sample's non-internal labels. */
  method ExtractMetricAttributes(dataVector: seq<Sample>) returns (vectorList: Slice<map<string, string>>)
    ensures vectorList.NonNil? && vectorList.Len() == |dataVector|
    ensures forall i :: 0 <= i < |dataVector| ==> vectorList.Items()[i] == VisibleLabels(dataVector[i].metric)
  {
    vectorList := Empty();
    for i := 0 to |dataVector|
      invariant vectorList.NonNil? && vectorList.Len() == i
      invariant forall j :: 0 <= j < i ==> vectorList.Items()[j] == VisibleLabels(dataVector[j].metric)
    {
      var attributes := DropInternalLabels(dataVector[i].metric);
      vectorList := Append(vectorList, attributes);
    }
  }

  // ---------------------------------------------------------------------
  // Distinct values per label: getUniqueValuesOfAttributes

  /** Adds every (key, value) pair of one map to the per-key value sets. */
  function AddPairs(u: map<string, set<string>>, m: map<string, string>): (r: map<string, set<string>>)
    ensures forall k :: k in r <==> k in u || k in m
  {
    map k | k in u.Keys + m.Keys :: (if k in u then u[k] else {}) + (if k in m then {m[k]} else {})
  }

  /** The per-key value sets of a list of attribute maps, folded left. */
  function UniqueValues(ms: seq<map<string, string>>): map<string, set<string>>
  {
    if ms == [] then map[] else AddPairs(UniqueValues(ms[..|ms| - 1]), ms[|ms| - 1])
  }

  /** A key is reported exactly when some map has it, and its set holds exactly
      the values that key takes across the maps. */
  lemma {:induction false} UniqueValuesSound(ms: seq<map<string, string>>, k: string, v: string)
    ensures k in UniqueValues(ms) <==> exists i :: 0 <= i < |ms| && k in ms[i]
    ensures k in UniqueValues(ms) ==> (v in UniqueValues(ms)[k] <==> exists i :: 0 <= i < |ms| && k in ms[i] && ms[i][k] == v)
  {
    if ms != [] {
      var p := ms[..|ms| - 1];
      UniqueValuesSound(p, k, v);
      assert forall i :: 0 <= i < |p| ==> p[i] == ms[i];
      if k in UniqueValues(ms) && v in UniqueValues(ms)[k] && k in UniqueValues(p) && v in UniqueValues(p)[k] {
        var i :| 0 <= i < |p| && k in p[i] && p[i][k] == v;
        assert k in ms[i] && ms[i][k] == v;
      }
    }
  }

  /** The inner loop: adds one map's pairs, key by key. */
  method AddAttribute(u: map<string, set<string>>, attribute: map<string, string>) returns (r: map<string, set<string>>)
    ensures r == AddPairs(u, attribute)
  {
    r := u;
    var rest := attribute.Keys;
    while rest != {}
      invariant rest <= attribute.Keys
      invariant AddedExcept(u, attribute, r, rest)
      decreases |rest|
    {
      var key :| key in rest;
      var values := if key in r then r[key] else {};
      AddOneKey(u, attribute, r, rest, key);
      r := r[key := values + {attribute[key]}];
      rest := rest - {key};
    }
    SameMap(r, AddPairs(u, attribute));
  }

  /** The inner loop's state: `r` holds every pair of `m` except those whose
      key is still in `rest`. */
  ghost predicate AddedExcept(u: map<string, set<string>>, m: map<string, string>, r: map<string, set<string>>, rest: set<string>)
  {
    && (forall k :: k in r <==> k in u || (k in m && k !in rest))
    && (forall k :: k in r && k in rest ==> r[k] == u[k])
    && (forall k :: k in r && k !in rest ==> r[k] == AddPairs(u, m)[k])
  }

  /** One step of the inner loop keeps its state. */
  lemma AddOneKey(u: map<string, set<string>>, m: map<string, string>, r: map<string, set<string>>, rest: set<string>, key: string)
    requires AddedExcept(u, m, r, rest) && key in rest && rest <= m.Keys
    ensures AddedExcept(u, m, r[key := (if key in r then r[key] else {}) + {m[key]}], rest - {key})
  {
  }

  /** Two value-set maps with the same keys and values are equal. */
  lemma SameMap(a: map<string, set<string>>, b: map<string, set<string>>)
    requires forall k :: k in a <==> k in b
    requires forall k :: k in a ==> a[k] == b[k]
    ensures a == b
  {
    assert a.Keys == b.Keys;
  }

  /** `getUniqueValuesOfAttributes(attributes)`. */
  method GetUniqueValuesOfAttributes(attributes: seq<map<string, string>>) returns (uniqueValues: map<string, set<string>>)
    ensures uniqueValues == UniqueValues(attributes)
  {
    uniqueValues := map[];
    for i := 0 to |attributes|
      invariant uniqueValues == UniqueValues(attributes[..i])
    {
      assert attributes[..i + 1][..i] == attributes[..i];
      uniqueValues := AddAttribute(uniqueValues, attributes[i]);
    }
    assert attributes[..|attributes|] == attributes;
  }

  /** The attribute counts `GetMetricAttributes` reports: the number of
      distinct values of each key. */
  function AttributeCounts(u: map<string, set<string>>): (r: map<string, int>)
    ensures r.Keys == u.Keys
  {
    map k | k in u :: |u[k]|
  }

  /** Every reported key has at least one value and at most as many as there
      are maps. */
  lemma {:induction false} AttributeCountsBounded(ms: seq<map<string, string>>, k: string)
    requires k in UniqueValues(ms)
    ensures 1 <= AttributeCounts(UniqueValues(ms))[k] <= |ms|
  {
    UniqueValuesSound(ms, k, "");
    var i :| 0 <= i < |ms| && k in ms[i];
    UniqueValuesSound(ms, k, ms[i][k]);
    assert ms[i][k] in UniqueValues(ms)[k];
    ValueSetBounded(ms, k);
  }

  /** The value set of a key has at most one value per map. */
  lemma {:induction false} ValueSetBounded(ms: seq<map<string, string>>, k: string)
    requires k in UniqueValues(ms)
    ensures |UniqueValues(ms)[k]| <= |ms|
  {
    var p := ms[..|ms| - 1];
    var u := UniqueValues(p);
    if k in u {
      ValueSetBounded(p, k);
    }
    var old_ := if k in u then u[k] else {};
    var add := if k in ms[|ms| - 1] then {ms[|ms| - 1][k]} else {};
    assert UniqueValues(ms)[k] == old_ + add;
    assert |old_ + add| <= |old_| + |add|;
  }

  // ---------------------------------------------------------------------
  // HTTP plumbing: getPrometheusApiResponse's guard and error mapping

  /** The parts of an `*http.Response` the service reads. */
  datatype HttpResponse = HttpResponse(statusCode: int, status: string)

  /** `getPrometheusApiResponse(url, ...)`, given the outcome `get` of the GET
      request it would send: an empty URL is refused before any request is
      built; a transport error is wrapped as InternalServer. */
  function GetPrometheusApiResponse(url: string, get: Result<HttpResponse, ZkError>): (r: Result<HttpResponse, ZkError>)
    ensures IsEmpty(url) ==> r == Err(Plain(BadRequestEmptyUrl))
    ensures !IsEmpty(url) && get.Err? ==> r == Err(ZkError(InternalServer, Cause(get.error)))
    ensures !IsEmpty(url) && get.Ok? ==> r == get
  {
    if IsEmpty(url) then Err(Plain(BadRequestEmptyUrl))
    else if get.Err? then Err(ZkError(InternalServer, Cause(get.error)))
    else get
  }

  // ---------------------------------------------------------------------
  // Metric-server detection: isIntegrationMetricServer

  /** `IsIntegrationMetricServerResponse`: optional fields, nil when unset. */
  datatype MetricServerResponse = MetricServerResponse(
    metricServer: Option<bool>,
    error: Option<bool>,
    statusCode: Option<int>,
    status: Option<string>)

  const NoMetricServerInfo := MetricServerResponse(None, None, None, None)

  /** The label loop: stops at the first `kubelet_` label. */
  method HasKubeletLabel(labels: seq<string>) returns (found: bool)
    ensures found <==> exists i :: 0 <= i < |labels| && HasPrefix(labels[i], "kubelet_")
  {
    for i := 0 to |labels|
      invariant forall j :: 0 <= j < i ==> !HasPrefix(labels[j], "kubelet_")
    {
      if HasPrefix(labels[i], "kubelet_") {
        return true;
      }
    }
    return false;
  }

  /** `isIntegrationMetricServer(id, url, ...)`. `get` is the GET of the
      label-values endpoint, `readBody` the error of reading its body (if
      any), `data` the label list as the JSON decoder left it. The decoder's
      error is ignored by the source, which scans whatever part of the list
      was filled before it failed, so that error is not a parameter. */
  method IsIntegrationMetricServer(url: string, get: Result<HttpResponse, ZkError>,
                                   readBody: Option<ZkError>, data: seq<string>)
    returns (response: MetricServerResponse, err: Option<ZkError>)
    ensures GetPrometheusApiResponse(url, get).Err? ==>
      response == NoMetricServerInfo && err == Some(GetPrometheusApiResponse(url, get).error)
    ensures get.Ok? && !IsEmpty(url) && get.value.statusCode != 200 ==>
      err.None? && response == MetricServerResponse(None, Some(true), Some(get.value.statusCode), Some(get.value.status))
    ensures get.Ok? && !IsEmpty(url) && get.value.statusCode == 200 && readBody.Some? ==>
      response == NoMetricServerInfo && err == readBody
    ensures get.Ok? && !IsEmpty(url) && get.value.statusCode == 200 && readBody.None? ==>
      && err.None? && response.error.None?
      && response.statusCode.None? && response.status.None?
      && (response.metricServer == Some(true) <==>
          exists i :: 0 <= i < |data| && HasPrefix(data[i], "kubelet_"))
      && (response.metricServer.None? || response.metricServer == Some(true))
  {
    response := NoMetricServerInfo;
    var resp := GetPrometheusApiResponse(url, get);
    if resp.Err? {
      return response, Some(resp.error);
    }
    if resp.value.statusCode != 200 {
      response := response.(statusCode := Some(resp.value.statusCode), status := Some(resp.value.status), error := Some(true));
      return response, None;
    }
    if readBody.Some? {
      return response, readBody;
    }
    var found := HasKubeletLabel(data);
    if found {
      response := response.(metricServer := Some(true));
    }
    return response, None;
  }

  // ---------------------------------------------------------------------
  // Connection test: getConnectionStatus

  /** The `status` values of the Prometheus HTTP API. */
  const StatusSuccess: string := "success"
  const StatusError: string := "error"

  /** The connection status reported to the client. */
  datatype ConnectionStatus = ConnectionError | ConnectionSuccess

  /** The connection message: a text, or the fixed success message. */
  datatype ConnectionMessage = MessageText(text: string) | ConnectionSuccessful

  datatype TestConnectionResponse = TestConnectionResponse(connectionStatus: ConnectionStatus, connectionMessage: ConnectionMessage)

  /** The decoded body of the `up` query. */
  datatype QueryResult = QueryResult(status: string, error: string)

  /** Before the `up` query fails in transport, the source reads the message
      two levels down: the wrapped error's metadata must be a string, or the
      type assertions panic. An empty URL produces an error with no wrapped
      error, so it must not reach this function either. */
  predicate TransportErrorHasMessage(url: string, get: Result<HttpResponse, ZkError>)
  {
    !IsEmpty(url) && (get.Err? ==> get.error.metadata.Text?)
  }

  /** `getConnectionStatus(url, ...)`. `get` is the GET of the `up` query,
      `readBody` the body-read error if any, `decoded` the JSON decoding. */
  function GetConnectionStatus(url: string, get: Result<HttpResponse, ZkError>,
                               readBody: Option<ZkError>, decoded: Result<QueryResult, ZkError>)
    : (r: (TestConnectionResponse, Option<ZkError>))
    requires TransportErrorHasMessage(url, get)
    ensures r.0.connectionStatus == ConnectionSuccess <==>
      get.Ok? && get.value.statusCode == 200 && readBody.None? && decoded.Ok? && decoded.value.status == StatusSuccess
    ensures get.Err? ==> r == (TestConnectionResponse(ConnectionError, MessageText(get.error.metadata.message)), None)
    ensures get.Ok? && get.value.statusCode != 200 ==>
      r == (TestConnectionResponse(ConnectionError, MessageText(get.value.status)), None)
    ensures get.Ok? && get.value.statusCode == 200 && readBody.Some? ==>
      r == (TestConnectionResponse(ConnectionError, MessageText("internal server error")), readBody)
    ensures get.Ok? && get.value.statusCode == 200 && readBody.None? && decoded.Err? ==>
      r == (TestConnectionResponse(ConnectionError, MessageText("internal server error")), Some(decoded.error))
    ensures get.Ok? && get.value.statusCode == 200 && readBody.None? && decoded.Ok? ==>
      (r.1.None? <==> decoded.value.status in {StatusSuccess, StatusError})
    ensures r.1.Some? && !(get.Ok? && readBody.Some?) && !(get.Ok? && decoded.Err?) ==>
      r.1 == Some(Plain(InternalServer))
  {
    var start := TestConnectionResponse(ConnectionError, MessageText(""));
    var httpResp := GetPrometheusApiResponse(url, get);
    if httpResp.Err? then
      var inner := httpResp.error.metadata.inner;
      (start.(connectionMessage := MessageText(inner.metadata.message)), None)
    else if httpResp.value.statusCode != 200 then
      (start.(connectionStatus := ConnectionError, connectionMessage := MessageText(httpResp.value.status)), None)
    else if readBody.Some? then
      (start.(connectionMessage := MessageText("internal server error")), readBody)
    else if decoded.Err? then
      (start.(connectionMessage := MessageText("internal server error")), Some(decoded.error))
    else if decoded.value.status == StatusSuccess then
      (TestConnectionResponse(ConnectionSuccess, ConnectionSuccessful), None)
    else if decoded.value.status == StatusError then
      (start.(connectionMessage := MessageText(decoded.value.error)), None)
    else
      (start, Some(Plain(InternalServer)))
  }

  /** The body's own verdict decides only after transport, status and body
      succeed: "success" reports success, "error" passes its message on. */
  lemma ConnectionStatusFromBody(url: string, code: string, message: string)
    requires !IsEmpty(url)
    ensures GetConnectionStatus(url, Ok(HttpResponse(200, code)), None, Ok(QueryResult(StatusSuccess, message)))
      == (TestConnectionResponse(ConnectionSuccess, ConnectionSuccessful), None)
    ensures GetConnectionStatus(url, Ok(HttpResponse(200, code)), None, Ok(QueryResult(StatusError, message)))
      == (TestConnectionResponse(ConnectionError, MessageText(message)), None)
    ensures GetConnectionStatus(url, Ok(HttpResponse(200, code)), None, Ok(QueryResult("pending", message)))
      == (TestConnectionResponse(ConnectionError, MessageText("")), Some(Plain(InternalServer)))
  {
  }

  // ---------------------------------------------------------------------
  // Integration lookup: getIntegrationDetails and GetPromIntegrationById

  /** `getIntegrationDetails(s, id)`: the looked-up integration, and NotFound
      when it is missing or has an empty Id (the integration is returned
      either way). */
  function GetIntegrationDetails(store: IntegrationsManager.Store, integrationId: string)
    : (r: (Option<Integration>, Option<ZkError>))
    ensures r.0 == IntegrationsManager.GetIntegrationById(store, integrationId)
    ensures r.1.Some? <==> integrationId !in store || store[integrationId].id == ""
    ensures r.1.Some? ==> r.1.value == Plain(NotFound)
  {
    var integration := IntegrationsManager.GetIntegrationById(store, integrationId);
    var zkError := if integration.None? || integration.value.id == "" then Some(Plain(NotFound)) else None;
    (integration, zkError)
  }

  /** A Prometheus query client, identified by the address it talks to. */
  datatype PromQLRepo = PromQLRepo(address: string)

  /** `GetPromIntegrationById(id)`: rejects a missing, non-Prometheus,
      disabled or deleted integration; otherwise returns the cached client
      for the id, or a client built by `newClient` from the integration's URL
      (nil when building fails). */
  function GetPromIntegrationById(store: IntegrationsManager.Store, cache: map<string, PromQLRepo>,
                                  newClient: string -> Option<PromQLRepo>, integrationId: string)
    : (r: Option<PromQLRepo>)
    ensures r.Some? ==> integrationId in store && IntegrationsManager.Selected(store[integrationId], PrometheusIntegrationType)
    ensures integrationId in store && IntegrationsManager.Selected(store[integrationId], PrometheusIntegrationType) ==>
      r == (if integrationId in cache then Some(cache[integrationId]) else newClient(store[integrationId].url))
  {
    var item := IntegrationsManager.GetIntegrationById(store, integrationId);
    if item.None? || item.value.integrationType != PrometheusIntegrationType || item.value.disabled || item.value.deleted then
      None
    else if integrationId in cache then Some(cache[integrationId])
    else newClient(item.value.url)
  }

  /** The acceptance test of GetPromIntegrationById is the filter that
      `GetIntegrationsByType(PROMETHEUS)` applies. */
  lemma PromIntegrationAcceptedIffSelected(store: IntegrationsManager.Store, cache: map<string, PromQLRepo>, integrationId: string)
    ensures GetPromIntegrationById(store, cache, a => Some(PromQLRepo(a)), integrationId).Some? <==>
      integrationId in store && IntegrationsManager.Selected(store[integrationId], PrometheusIntegrationType)
  {
  }

  // ---------------------------------------------------------------------
  // Alert grouping in GetAlertsTimeSeriesTrigger

  /** One alert series after range finding: its name, state and ranges. */
  datatype AlertEntry = AlertEntry(name: string, state: string, durations: Slice<Duration>)

  type Grouping = map<string, map<string, Slice<Duration>>>

  /** `alertNameToStateToRange` after the given entries: a later entry with
      the same name and state replaces the earlier one. */
  function Group(es: seq<AlertEntry>): Grouping
  {
    if es == [] then map[] else
      var g := Group(es[..|es| - 1]);
      var e := es[|es| - 1];
      g[e.name := (if e.name in g then g[e.name] else map[])[e.state := e.durations]]
  }

  /** Filing one more entry replaces its (name, state) ranges. */
  lemma GroupSnoc(es: seq<AlertEntry>, e: AlertEntry)
    ensures Group(es + [e]) == Group(es)[e.name := (if e.name in Group(es) then Group(es)[e.name] else map[])[e.state := e.durations]]
  {
    assert (es + [e])[..|es|] == es;
  }

  /** A name is grouped iff some entry has it; a (name, state) pair is
      grouped iff some entry has both, and its ranges are those of the last
      such entry. */
  lemma {:induction false} GroupLastWins(es: seq<AlertEntry>, name: string, state: string)
    ensures name in Group(es) <==> exists i :: 0 <= i < |es| && es[i].name == name
    ensures name in Group(es) ==>
      (state in Group(es)[name] <==> exists i :: 0 <= i < |es| && es[i].name == name && es[i].state == state)
    ensures name in Group(es) && state in Group(es)[name] ==>
      exists i :: 0 <= i < |es| && es[i].name == name && es[i].state == state
        && Group(es)[name][state] == es[i].durations
        && forall j :: i < j < |es| ==> !(es[j].name == name && es[j].state == state)
  {
    if es != [] {
      var p := es[..|es| - 1];
      GroupLastWins(p, name, state);
      assert forall i :: 0 <= i < |p| ==> p[i] == es[i];
      var e := es[|es| - 1];
      if name in Group(es) && state in Group(es)[name] && !(e.name == name && e.state == state) {
        var i :| 0 <= i < |p| && p[i].name == name && p[i].state == state
          && Group(p)[name][state] == p[i].durations
          && forall j :: i < j < |p| ==> !(p[j].name == name && p[j].state == state);
        assert es[i].name == name && es[i].state == state && Group(es)[name][state] == es[i].durations;
      }
    }
  }

  /** The first loop of the grouping: runs `findSeries` on every result's
      samples (sorting them in place) and files the ranges under the alert's
      name and state; `entries` records, per result, what was filed. */
  method GroupAlerts(results: seq<AlertResult>, step: int) returns (g: Grouping, ghost entries: seq<AlertEntry>)
    requires forall i, j :: 0 <= i < j < |results| ==> results[i].values != results[j].values
    modifies set i | 0 <= i < |results| :: results[i].values
    ensures forall i :: 0 <= i < |results| ==>
      && SortedByKey(results[i].values[..])
      && multiset(results[i].values[..]) == old(multiset(results[i].values[..]))
    ensures |entries| == |results|
    ensures forall i :: 0 <= i < |results| ==> entries[i] == AlertEntry(results[i].metric.alertName, results[i].metric.alertState, DurationsOf(results[i].values[..], step))
    ensures g == Group(entries)
  {
    g := map[];
    entries := [];
    for i := 0 to |results|
      invariant forall k :: 0 <= k < i ==>
        && SortedByKey(results[k].values[..])
        && multiset(results[k].values[..]) == old(multiset(results[k].values[..]))
      invariant forall k :: i <= k < |results| ==> results[k].values[..] == old(results[k].values[..])
      invariant |entries| == i
      invariant forall k :: 0 <= k < i ==> entries[k] == AlertEntry(results[k].metric.alertName, results[k].metric.alertState, DurationsOf(results[k].values[..], step))
      invariant g == Group(entries)
    {
      var alert := results[i];
      var durations := FindSeriesOf(results, i, step);
      var e := AlertEntry(alert.metric.alertName, alert.metric.alertState, durations);
      assert e == AlertEntry(results[i].metric.alertName, results[i].metric.alertState, DurationsOf(results[i].values[..], step));
      GroupSnoc(entries, e);
      entries := entries + [e];
      var inner := if alert.metric.alertName in g then g[alert.metric.alertName] else map[];
      g := g[alert.metric.alertName := inner[alert.metric.alertState := durations]];
    }
  }

  /** `SeriesData` and `AlertsRangeData` of the response. */
  datatype SeriesData = SeriesData(state: string, duration: Slice<Duration>)
  datatype AlertsRangeData = AlertsRangeData(alertName: string, seriesData: Slice<SeriesData>)

  /** `xs` lists the elements of `s`, each once. Go's map iteration order is
      unspecified, so the order is an input to the flattening below. */
  predicate Enumerates(xs: seq<string>, s: set<string>)
  {
    (forall x :: x in xs ==> x in s) && (forall x :: x in s ==> x in xs) && (forall i, j :: 0 <= i < j < |xs| ==> xs[i] != xs[j])
  }

  /** `series` lists every state of `stateToRange` once, each with its
      ranges. */
  ghost predicate SeriesMatch(stateToRange: map<string, Slice<Duration>>, series: Slice<SeriesData>)
  {
    && (forall state :: state in stateToRange <==> exists j :: 0 <= j < series.Len() && series.Items()[j].state == state)
    && (forall j, k :: 0 <= j < k < series.Len() ==> series.Items()[j].state != series.Items()[k].state)
    && (forall j :: 0 <= j < series.Len() ==> series.Items()[j].duration == stateToRange[series.Items()[j].state])
  }

  /** One SeriesData per listed state, in the listed order, with the
      state's ranges (Go's zero value, nil, for a state not in the map); nil
      for no states. */
  function SeriesOf(stateToRange: map<string, Slice<Duration>>, states: seq<string>): Slice<SeriesData>
  {
    if states == [] then Nil
    else NonNil(seq(|states|, j requires 0 <= j < |states| => SeriesData(states[j], Lookup(stateToRange, states[j]))))
  }

  /** Go's `m[k]` on a map of slices. */
  function Lookup(m: map<string, Slice<Duration>>, k: string): Slice<Duration>
  {
    if k in m then m[k] else Nil
  }

  /** Listing the states of an enumeration gives every state once with its
      ranges, and nil exactly when the alert has no states. */
  lemma SeriesOfMatches(stateToRange: map<string, Slice<Duration>>, states: seq<string>)
    requires Enumerates(states, stateToRange.Keys)
    ensures SeriesOf(stateToRange, states).Nil? <==> |stateToRange| == 0
    ensures SeriesMatch(stateToRange, SeriesOf(stateToRange, states))
  {
    var series := SeriesOf(stateToRange, states);
    if |states| == 0 {
      assert stateToRange.Keys == {};
    } else {
      assert states[0] in stateToRange;
    }
    forall state | state in stateToRange
      ensures exists j :: 0 <= j < series.Len() && series.Items()[j].state == state
    {
      var j :| 0 <= j < |states| && states[j] == state;
      assert series.Items()[j].state == state;
    }
  }

  /** The inner loop of the flattening: one SeriesData per state of one
      alert, in the order `states` gives. */
  method StateSeries(stateToRange: map<string, Slice<Duration>>, states: seq<string>) returns (series: Slice<SeriesData>)
    ensures series == SeriesOf(stateToRange, states)
  {
    series := Nil;
    for j := 0 to |states|
      invariant series.Len() == j && (series.Nil? <==> j == 0)
      invariant forall k :: 0 <= k < j ==> series.Items()[k] == SeriesData(states[k], Lookup(stateToRange, states[k]))
    {
      series := Append(series, SeriesData(states[j], Lookup(stateToRange, states[j])));
    }
    assert series.Items() == SeriesOf(stateToRange, states).Items();
  }

  /** The second loop of the grouping: one AlertsRangeData per alert name, in
      the map order `names` gives, each alert's states in the order
      `stateOrder` gives. The result stays nil when there were no alerts. */
  method FlattenAlerts(g: Grouping, names: seq<string>, stateOrder: string -> seq<string>) returns (data: Slice<AlertsRangeData>)
    requires Enumerates(names, g.Keys)
    ensures data.Nil? <==> |g| == 0
    ensures forall name :: name in g <==> exists i :: 0 <= i < data.Len() && data.Items()[i].alertName == name
    ensures forall i, j :: 0 <= i < j < data.Len() ==> data.Items()[i].alertName != data.Items()[j].alertName
    ensures forall i :: 0 <= i < data.Len() ==> data.Items()[i].alertName in g
    ensures forall i :: 0 <= i < data.Len() ==>
      data.Items()[i].seriesData == SeriesOf(g[data.Items()[i].alertName], stateOrder(data.Items()[i].alertName))
  {
    data := Nil;
    for i := 0 to |names|
      invariant Flattened(g, names[..i], stateOrder, data)
    {
      var name := names[i];
      assert name in g;
      var states := stateOrder(name);
      var series := StateSeries(g[name], states);
      FlattenedStep(g, names[..i], stateOrder, data, name);
      assert names[..i + 1] == names[..i] + [name];
      data := Append(data, AlertsRangeData(name, series));
    }
    assert names[..|names|] == names;
    FlattenedAll(g, names, stateOrder, data);
  }

  /** A flattening over an enumeration of the alert names lists every alert
      once, and is nil only when there are none. */
  lemma FlattenedAll(g: Grouping, names: seq<string>, stateOrder: string -> seq<string>, data: Slice<AlertsRangeData>)
    requires Enumerates(names, g.Keys) && Flattened(g, names, stateOrder, data)
    ensures data.Nil? <==> |g| == 0
    ensures forall name :: name in g <==> exists i :: 0 <= i < data.Len() && data.Items()[i].alertName == name
    ensures forall i, j :: 0 <= i < j < data.Len() ==> data.Items()[i].alertName != data.Items()[j].alertName
    ensures forall i :: 0 <= i < data.Len() ==> data.Items()[i].alertName in g
    ensures forall i :: 0 <= i < data.Len() ==>
      data.Items()[i].seriesData == SeriesOf(g[data.Items()[i].alertName], stateOrder(data.Items()[i].alertName))
  {
    if |names| == 0 {
      assert g.Keys == {};
    } else {
      assert names[0] in g;
    }
    NamesListed(g, names, data.Items());
  }

  /** `data` holds one entry per name of `done`, in order, each with the
      alert's series; it is nil only when `done` is empty. */
  ghost predicate Flattened(g: Grouping, done: seq<string>, stateOrder: string -> seq<string>, data: Slice<AlertsRangeData>)
  {
    && data.Len() == |done| && (data.Nil? <==> done == [])
    && (forall k :: 0 <= k < |done| ==> done[k] in g && data.Items()[k].alertName == done[k])
    && (forall k :: 0 <= k < |done| ==> data.Items()[k].seriesData == SeriesOf(g[done[k]], stateOrder(done[k])))
  }

  /** Appending the next alert's entry keeps the flattening in step. */
  lemma FlattenedStep(g: Grouping, done: seq<string>, stateOrder: string -> seq<string>, data: Slice<AlertsRangeData>, name: string)
    requires Flattened(g, done, stateOrder, data) && name in g
    ensures Flattened(g, done + [name], stateOrder, Append(data, AlertsRangeData(name, SeriesOf(g[name], stateOrder(name)))))
  {
  }

  /** A list whose names follow an enumeration of the keys names every key
      exactly once. */
  lemma NamesListed(g: Grouping, names: seq<string>, data: seq<AlertsRangeData>)
    requires Enumerates(names, g.Keys)
    requires |data| == |names| && forall k :: 0 <= k < |names| ==> data[k].alertName == names[k]
    ensures forall name :: name in g <==> exists i :: 0 <= i < |data| && data[i].alertName == name
    ensures forall i, j :: 0 <= i < j < |data| ==> data[i].alertName != data[j].alertName
  {
    forall name | name in g
      ensures exists i :: 0 <= i < |data| && data[i].alertName == name
    {
      var i :| 0 <= i < |names| && names[i] == name;
      assert data[i].alertName == name;
    }
  }

  /** The alert grouping of `GetAlertsTimeSeriesTrigger`, after the range
      query succeeded: parses `step` with its error ignored, groups the
      results' ranges by alert name and state (`entries` records what each
      result filed), and flattens the grouping. Go picks an iteration order
      for every map on its own: `nameOrder` gives the order of the outer map,
      `stateOrder(name, states)` the order of the inner map of alert `name`,
      so two alerts with the same states may list them differently. With
      `GroupLastWins`, every listed series is the one of the last result with
      that name and state. */
  method GroupAlertRanges(results: seq<AlertResult>, step: string,
                          nameOrder: set<string> -> seq<string>, stateOrder: (string, set<string>) -> seq<string>)
    returns (data: Slice<AlertsRangeData>, ghost entries: seq<AlertEntry>)
    requires forall i, j :: 0 <= i < j < |results| ==> results[i].values != results[j].values
    requires forall s :: Enumerates(nameOrder(s), s)
    requires forall n, s :: Enumerates(stateOrder(n, s), s)
    modifies set i | 0 <= i < |results| :: results[i].values
    ensures forall i :: 0 <= i < |results| ==>
      SortedByKey(results[i].values[..]) && multiset(results[i].values[..]) == old(multiset(results[i].values[..]))
    ensures |entries| == |results|
    ensures forall i :: 0 <= i < |results| ==>
      entries[i] == AlertEntry(results[i].metric.alertName, results[i].metric.alertState,
                               DurationsOf(results[i].values[..], ParseInt64IgnoringError(step)))
    ensures data.Nil? <==> |Group(entries)| == 0
    ensures forall name :: name in Group(entries) <==> exists i :: 0 <= i < data.Len() && data.Items()[i].alertName == name
    ensures forall i, j :: 0 <= i < j < data.Len() ==> data.Items()[i].alertName != data.Items()[j].alertName
    ensures forall i :: 0 <= i < data.Len() ==> data.Items()[i].alertName in Group(entries)
    ensures forall i :: 0 <= i < data.Len() ==>
      var name := data.Items()[i].alertName;
      var byState := Group(entries)[name];
      data.Items()[i].seriesData == SeriesOf(byState, stateOrder(name, byState.Keys))
  {
    var stepInt := ParseInt64IgnoringError(step);
    var g;
    g, entries := GroupAlerts(results, stepInt);
    var names := nameOrder(g.Keys);
    data := FlattenAlerts(g, names, n => if n in g then stateOrder(n, g[n].Keys) else []);
  }

  /** The grouping is empty exactly when there are no entries. */
  lemma GroupEmpty(es: seq<AlertEntry>)
    ensures |Group(es)| == 0 <==> |es| == 0
  {
    if |es| > 0 {
      GroupLastWins(es, es[0].name, "");
    }
  }
}
