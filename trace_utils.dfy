/** internal/prometheus/handler/traceUtils.go: the pods and namespaces a
    trace touches, as Prometheus regular expressions. The span query is the
    service result passed in. */
module TraceUtils {
  import opened Wrappers
  import opened GoSlices
  import opened GoStrings
  import opened ZkErrors
  import opened SpanResponse

  /** Some span of the trace has `x` as its (non-empty) source. */
  ghost predicate FromSource(spans: map<string, SpanDetails>, x: string)
  {
    x != "" && exists k :: k in spans && spans[k].span.source == x
  }

  /** Some span of the trace has `x` as its (non-empty) destination. */
  ghost predicate ToDestination(spans: map<string, SpanDetails>, x: string)
  {
    x != "" && exists k :: k in spans && spans[k].span.destination == x
  }

  /** Some span of the trace has an empty destination. */
  ghost predicate EmptyDestination(spans: map<string, SpanDetails>)
  {
    exists k :: k in spans && spans[k].span.destination == ""
  }

  /** The first loop, building the `podsMap` set over the spans in map order.
      As written, the destination test is `== ""`, so the only destination
      name it can add is the empty one. */
  method CollectPodNames(spans: map<string, SpanDetails>) returns (podsMap: set<string>)
    ensures forall x :: x in podsMap ==> FromSource(spans, x) || (x == "" && EmptyDestination(spans))
    ensures forall k :: k in spans && spans[k].span.source != "" ==> spans[k].span.source in podsMap
    ensures EmptyDestination(spans) ==> "" in podsMap
  {
    podsMap := {};
    var rest := spans.Keys;
    while rest != {}
      invariant rest <= spans.Keys
      invariant forall x :: x in podsMap ==> FromSource(spans, x) || (x == "" && EmptyDestination(spans))
      invariant forall k :: k in spans && k !in rest && spans[k].span.source != "" ==> spans[k].span.source in podsMap
      invariant (exists k :: k in spans && k !in rest && spans[k].span.destination == "") ==> "" in podsMap
      decreases |rest|
    {
      var k :| k in rest;
      rest := rest - {k};
      var spanItems := spans[k];
      if spanItems.span.source != "" {
        podsMap := podsMap + {spanItems.span.source};
      }
      if spanItems.span.destination == "" {
        podsMap := podsMap + {spanItems.span.destination};
      }
    }
  }

  /** `len(strings.Split(name, "/")) == 2`: a "namespace/pod" name. */
  predicate TwoParts(name: string)
  {
    |Split(name, '/')| == 2
  }

  /** A name is two-part exactly when it holds one "/". */
  lemma TwoPartsIffOneSlash(name: string)
    ensures TwoParts(name) <==> Count(name, '/') == 1
  {
    SplitLength(name, '/');
  }

  /** The empty name is one empty piece, so it never qualifies. */
  lemma EmptyNameIsNotTwoParts()
    ensures !TwoParts("")
  {
  }

  /** "ns/pod" with slash-free parts splits into the namespace and the pod. */
  lemma {:induction false} SplitNamespacedPod(ns: string, pod: string)
    requires forall i :: 0 <= i < |ns| ==> ns[i] != '/'
    requires forall i :: 0 <= i < |pod| ==> pod[i] != '/'
    ensures Split(ns + "/" + pod, '/') == [ns, pod]
    ensures TwoParts(ns + "/" + pod)
  {
    SplitAt(ns, pod, '/');
    SplitWithout(pod, '/');
  }

  /** `podsList`/`nsList` list the two-part names of `names`, each once, in
      the order `picked`: position `i` holds the pod part followed by ".*"
      and the namespace part of the same name. */
  ghost predicate Listed(names: set<string>, podsList: Slice<string>, nsList: Slice<string>, picked: seq<string>)
  {
    && podsList.Len() == |picked| && nsList.Len() == |picked|
    && (podsList.Nil? <==> |picked| == 0) && (nsList.Nil? <==> |picked| == 0)
    && (forall name :: name in picked ==> name in names && TwoParts(name))
    && (forall name :: name in names && TwoParts(name) ==> name in picked)
    && (forall i, j :: 0 <= i < j < |picked| ==> picked[i] != picked[j])
    && (forall i :: 0 <= i < |picked| ==>
          TwoParts(picked[i])
          && podsList.Items()[i] == Split(picked[i], '/')[1] + ".*"
          && nsList.Items()[i] == Split(picked[i], '/')[0])
  }

  /** The second loop, over the set in map order: names that do not split
      into exactly two parts are skipped; the others append their pod part
      with ".*" and their namespace. Both lists stay nil when none qualifies. */
  method PodsAndNamespaces(podsMap: set<string>) returns (podsList: Slice<string>, nsList: Slice<string>, ghost picked: seq<string>)
    ensures podsList.Len() == nsList.Len()
    ensures podsList.Nil? <==> nsList.Nil?
    ensures podsList.Nil? <==> forall name :: name in podsMap ==> !TwoParts(name)
    ensures Listed(podsMap, podsList, nsList, picked)
  {
    podsList, nsList, picked := Nil, Nil, [];
    var rest := podsMap;
    while rest != {}
      invariant rest <= podsMap
      invariant Listed(podsMap - rest, podsList, nsList, picked)
      decreases |rest|
    {
      var podName :| podName in rest;
      ghost var seen := podsMap - rest;
      rest := rest - {podName};
      assert podsMap - rest == seen + {podName};
      var podNameParts := Split(podName, '/');
      if |podNameParts| != 2 {
        ListedSkip(seen, podName, podsList, nsList, picked);
        continue;
      }
      ListedAdd(seen, podName, podsList, nsList, picked);
      podsList := Append(podsList, podNameParts[1] + ".*");
      nsList := Append(nsList, podNameParts[0]);
      picked := picked + [podName];
    }
    assert podsMap - rest == podsMap;
    if podsList.NonNil? {
      assert picked[0] in podsMap && TwoParts(picked[0]);
    }
  }

  /** A name that does not split in two leaves the lists as they are. */
  lemma ListedSkip(names: set<string>, x: string, podsList: Slice<string>, nsList: Slice<string>, picked: seq<string>)
    requires Listed(names, podsList, nsList, picked) && !TwoParts(x)
    ensures Listed(names + {x}, podsList, nsList, picked)
  {
  }

  /** A new two-part name appends its pod and namespace parts. */
  lemma ListedAdd(names: set<string>, x: string, podsList: Slice<string>, nsList: Slice<string>, picked: seq<string>)
    requires Listed(names, podsList, nsList, picked) && TwoParts(x) && x !in names
    ensures Listed(names + {x}, Append(podsList, Split(x, '/')[1] + ".*"), Append(nsList, Split(x, '/')[0]), picked + [x])
  {
    var pods, ns, k := Append(podsList, Split(x, '/')[1] + ".*"), Append(nsList, Split(x, '/')[0]), picked + [x];
    var n := |picked|;
    forall i | 0 <= i < |k|
      ensures TwoParts(k[i]) && pods.Items()[i] == Split(k[i], '/')[1] + ".*" && ns.Items()[i] == Split(k[i], '/')[0]
    {
      if i < n {
        assert k[i] == picked[i] && pods.Items()[i] == podsList.Items()[i] && ns.Items()[i] == nsList.Items()[i];
      }
    }
    forall i, j | 0 <= i < j < |k|
      ensures k[i] != k[j]
    {
      if j == n {
        assert k[i] == picked[i] && picked[i] in picked;
      }
    }
  }

  /** `getPodsAndNSListFromTrace`, given the span query's result. A query
      error is returned with both lists nil. Otherwise the listed names are
      exactly the two-part sources: an empty destination only adds "", which
      is not two-part, so no destination ever contributes. */
  method GetPodsAndNSListFromTrace(spansList: Result<IncidentDetailsResponse, ZkError>)
    returns (podsList: Slice<string>, nsList: Slice<string>, err: Option<ZkError>, ghost picked: seq<string>)
    ensures spansList.Err? ==> podsList == Nil && nsList == Nil && err == Some(spansList.error)
    ensures spansList.Ok? ==> err == None
    ensures podsList.Len() == nsList.Len()
    ensures spansList.Ok? ==> forall name :: name in picked <==> TwoParts(name) && FromSource(spansList.value.spans, name)
    ensures spansList.Ok? ==> exists names :: Listed(names, podsList, nsList, picked)
  {
    if spansList.Err? {
      return Nil, Nil, Some(spansList.error), [];
    }
    var spans := spansList.value.spans;
    var podsMap := CollectPodNames(spans);
    podsList, nsList, picked := PodsAndNamespaces(podsMap);
    EmptyNameIsNotTwoParts();
    forall name
      ensures name in picked <==> TwoParts(name) && FromSource(spans, name)
    {
      if TwoParts(name) && FromSource(spans, name) {
        var k :| k in spans && spans[k].span.source == name;
        assert name in podsMap;
      }
    }
    err := None;
  }

  /** The evidently intended pod-name set, with the destination test as
      `!= ""`: every non-empty source and every non-empty destination. */
  function IntendedPodNames(spans: map<string, SpanDetails>): (names: set<string>)
    ensures forall x :: x in names <==> (x != "" &&
      ((exists k :: k in spans && spans[k].span.source == x) || (exists k :: k in spans && spans[k].span.destination == x)))
  {
    (set k | k in spans && spans[k].span.source != "" :: spans[k].span.source)
    + (set k | k in spans && spans[k].span.destination != "" :: spans[k].span.destination)
  }

  /** The first loop with the destination test corrected to `!= ""`: it
      collects exactly the intended set. */
  method CollectPodNamesIntended(spans: map<string, SpanDetails>) returns (podsMap: set<string>)
    ensures podsMap == IntendedPodNames(spans)
  {
    podsMap := {};
    var rest := spans.Keys;
    while rest != {}
      invariant rest <= spans.Keys
      invariant forall x :: x in podsMap ==> FromSource(spans, x) || ToDestination(spans, x)
      invariant forall k :: k in spans && k !in rest && spans[k].span.source != "" ==> spans[k].span.source in podsMap
      invariant forall k :: k in spans && k !in rest && spans[k].span.destination != "" ==> spans[k].span.destination in podsMap
      decreases |rest|
    {
      var k :| k in rest;
      rest := rest - {k};
      var spanItems := spans[k];
      if spanItems.span.source != "" {
        podsMap := podsMap + {spanItems.span.source};
      }
      if spanItems.span.destination != "" {
        podsMap := podsMap + {spanItems.span.destination};
      }
    }
    forall x | x in IntendedPodNames(spans)
      ensures x in podsMap
    {
      if !FromSource(spans, x) {
        var k :| k in spans && spans[k].span.destination == x;
      }
    }
  }

  /** `getPodsAndNSListFromTrace` with the corrected first loop: the lists
      name every two-part source and destination of the trace. */
  method GetPodsAndNSListFromTraceIntended(spansList: Result<IncidentDetailsResponse, ZkError>)
    returns (podsList: Slice<string>, nsList: Slice<string>, err: Option<ZkError>, ghost picked: seq<string>)
    ensures spansList.Err? ==> podsList == Nil && nsList == Nil && err == Some(spansList.error)
    ensures spansList.Ok? ==> err == None && Listed(IntendedPodNames(spansList.value.spans), podsList, nsList, picked)
  {
    if spansList.Err? {
      return Nil, Nil, Some(spansList.error), [];
    }
    var podsMap := CollectPodNamesIntended(spansList.value.spans);
    podsList, nsList, picked := PodsAndNamespaces(podsMap);
    err := None;
  }

  /** With the intended set, a two-part destination is listed. */
  lemma IntendedListsDestinations(spans: map<string, SpanDetails>, k: string,
                                  podsList: Slice<string>, nsList: Slice<string>, picked: seq<string>)
    requires Listed(IntendedPodNames(spans), podsList, nsList, picked)
    requires k in spans && TwoParts(spans[k].span.destination)
    ensures spans[k].span.destination in picked
  {
    EmptyNameIsNotTwoParts();
    assert spans[k].span.destination in IntendedPodNames(spans);
  }

  /** As written, a trace whose only span goes from an unnamed source to
      "ns/pod" lists nothing: the destination is dropped. */
  lemma AsWrittenDropsDestination(spans: map<string, SpanDetails>, k: string, picked: seq<string>)
    requires spans.Keys == {k} && spans[k].span.source == "" && spans[k].span.destination == "ns/pod"
    requires forall name :: name in picked <==> TwoParts(name) && FromSource(spans, name)
    ensures forall name :: name !in picked
    ensures TwoParts(spans[k].span.destination) && spans[k].span.destination !in picked
  {
    SplitNamespacedPod("ns", "pod");
    assert "ns" + "/" + "pod" == "ns/pod";
    assert forall x :: !FromSource(spans, x);
  }
}
