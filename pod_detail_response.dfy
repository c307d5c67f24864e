/** internal/prometheus/model/response/podDetailResponse.go: the CPU and
    memory usage of a pod as a titled list of frames, one per container
    series. */
module PodDetailResponse {
  import opened GoNumbers
  import opened GoSlices
  import opened ResponseUtils

  datatype Schema = Schema(name: string)
  datatype Data = Data(timeStamp: Slice<int>, values: Slice<Float64>)
  datatype Frame = Frame(schema: Schema, data: Data)
  datatype Usage = Usage(title: string, success: bool, frames: Slice<Frame>)

  /** The frame a series with a container name gives: the name as schema and
      its samples, in order, as data. */
  function FrameOf(series: SampleStream): (f: Frame)
    ensures f.schema.name == ContainerOf(series.metric)
  {
    var p := Plot(series.values);
    Frame(Schema(ContainerOf(series.metric)), Data(p.timeStamp, p.values))
  }

  /** The label loop: copies the series' labels, key by key in map order,
      into a fresh map. */
  method CopyLabels(metric: map<string, string>) returns (labelSet: map<string, string>)
    ensures labelSet == metric
  {
    labelSet := map[];
    var rest := metric.Keys;
    while rest != {}
      invariant rest <= metric.Keys
      invariant labelSet.Keys == metric.Keys - rest
      invariant forall key :: key in labelSet ==> labelSet[key] == metric[key]
      decreases |rest|
    {
      var key :| key in rest;
      rest := rest - {key};
      labelSet := labelSet[key := metric[key]];
    }
  }

  /** The body of the series loop: the series' data and schema, and whether
      the frame is kept (its container name is not empty). */
  method SeriesFrame(series: SampleStream) returns (keep: bool, frame: Frame)
    ensures keep <==> ContainerOf(series.metric) != ""
    ensures frame == FrameOf(series)
  {
    var values, timeStamps := CopySamples(series.values);
    var data := Data(timeStamps, values);
    var labelSet := CopyLabels(series.metric);
    var schema := Schema(ContainerOf(labelSet));
    frame := Frame(schema, data);
    keep := schema.name != "";
  }

  /** The frames of the series whose container name is not empty, in
      matrix order. */
  function KeptFrames(metric: Matrix): (frames: seq<Frame>)
    ensures |frames| <= |metric|
    ensures forall j :: 0 <= j < |frames| ==> frames[j].schema.name != ""
  {
    if metric == [] then []
    else
      var series := metric[|metric| - 1];
      KeptFrames(metric[..|metric| - 1]) + (if ContainerOf(series.metric) == "" then [] else [FrameOf(series)])
  }

  /** The positions of the series whose container name is not empty, in
      matrix order. */
  function KeptPositions(metric: Matrix): (kept: seq<nat>)
    ensures |kept| <= |metric|
  {
    if metric == [] then []
    else
      var n := |metric| - 1;
      KeptPositions(metric[..n]) + (if ContainerOf(metric[n].metric) == "" then [] else [n])
  }

  /** The kept positions are valid, strictly increasing, and name a
      container. */
  lemma {:induction false} KeptPositionsIncreasing(metric: Matrix)
    ensures forall j :: 0 <= j < |KeptPositions(metric)| ==>
      KeptPositions(metric)[j] < |metric| && ContainerOf(metric[KeptPositions(metric)[j]].metric) != ""
    ensures forall j, k :: 0 <= j < k < |KeptPositions(metric)| ==> KeptPositions(metric)[j] < KeptPositions(metric)[k]
  {
    if metric != [] {
      var n := |metric| - 1;
      var p := metric[..n];
      KeptPositionsIncreasing(p);
      assert forall i :: 0 <= i < n ==> p[i] == metric[i];
    }
  }

  /** Every series with a container name is kept. */
  lemma {:induction false} KeptPositionsCover(metric: Matrix)
    ensures forall i :: 0 <= i < |metric| && ContainerOf(metric[i].metric) != "" ==> i in KeptPositions(metric)
  {
    if metric != [] {
      var n := |metric| - 1;
      var p := metric[..n];
      KeptPositionsCover(p);
      var tail := if ContainerOf(metric[n].metric) == "" then [] else [n];
      assert KeptPositions(metric) == KeptPositions(p) + tail;
      forall i | 0 <= i < |metric| && ContainerOf(metric[i].metric) != ""
        ensures i in KeptPositions(metric)
      {
        if i < n {
          assert p[i] == metric[i];
          assert i in KeptPositions(p);
        }
      }
    }
  }

  /** The kept frames are those of the kept positions, one for one. */
  lemma {:induction false} KeptFramesAtPositions(metric: Matrix)
    ensures |KeptPositions(metric)| == |KeptFrames(metric)|
    ensures forall j :: 0 <= j < |KeptFrames(metric)| ==>
      KeptPositions(metric)[j] < |metric| && KeptFrames(metric)[j] == FrameOf(metric[KeptPositions(metric)[j]])
  {
    if metric != [] {
      var n := |metric| - 1;
      var p := metric[..n];
      KeptFramesAtPositions(p);
      var kept, pk := KeptPositions(metric), KeptPositions(p);
      var frames, pf := KeptFrames(metric), KeptFrames(p);
      forall j | 0 <= j < |frames|
        ensures kept[j] < |metric| && frames[j] == FrameOf(metric[kept[j]])
      {
        if j < |pf| {
          assert frames[j] == pf[j] && kept[j] == pk[j];
          assert p[pk[j]] == metric[pk[j]];
        }
      }
    }
  }

  /** `ConvertMetricToPodUsage(title, metric)`. Series whose "container"
      label is empty or missing are skipped; every other series gives one
      frame, in matrix order. The title is the argument, `Success` is always
      true, and the frames stay nil when no series is kept. */
  method ConvertMetricToPodUsage(title: string, metric: Matrix) returns (usage: Usage)
    ensures usage.title == title && usage.success
    ensures usage.frames.Items() == KeptFrames(metric)
    ensures usage.frames.Nil? <==> KeptFrames(metric) == []
  {
    var frames: Slice<Frame> := Nil;
    for i := 0 to |metric|
      invariant frames.Items() == KeptFrames(metric[..i])
      invariant frames.Nil? <==> KeptFrames(metric[..i]) == []
    {
      assert metric[..i + 1][..i] == metric[..i];
      var keep, frame := SeriesFrame(metric[i]);
      if !keep {
        continue;
      }
      frames := Append(frames, frame);
    }
    assert metric[..|metric|] == metric;
    usage := Usage(title, true, frames);
  }

  /** When every series names a container, every series gives a frame, in
      order. */
  lemma AllNamedAllKept(metric: Matrix)
    requires forall i :: 0 <= i < |metric| ==> ContainerOf(metric[i].metric) != ""
    ensures |KeptFrames(metric)| == |metric|
    ensures forall j :: 0 <= j < |metric| ==> KeptFrames(metric)[j] == FrameOf(metric[j])
  {
    KeptPositionsIncreasing(metric);
    KeptPositionsCover(metric);
    KeptFramesAtPositions(metric);
    KeptIsIdentity(KeptPositions(metric), |metric|);
  }

  /** When no series names a container, there are no frames (and the
      response's frames are nil). */
  lemma {:induction false} NoneNamedNoFrames(metric: Matrix)
    requires forall i :: 0 <= i < |metric| ==> ContainerOf(metric[i].metric) == ""
    ensures KeptFrames(metric) == []
  {
    if metric != [] {
      var p := metric[..|metric| - 1];
      assert forall i :: 0 <= i < |p| ==> p[i] == metric[i];
      NoneNamedNoFrames(p);
    }
  }

  /** In a strictly increasing list of positions, each is at least its own
      index. */
  lemma {:induction false} AtLeastIndex(kept: seq<nat>)
    requires forall j, k :: 0 <= j < k < |kept| ==> kept[j] < kept[k]
    ensures forall j :: 0 <= j < |kept| ==> j <= kept[j]
  {
    if |kept| > 0 {
      var p := kept[..|kept| - 1];
      AtLeastIndex(p);
      assert forall j :: 0 <= j < |p| ==> p[j] == kept[j];
      if |kept| > 1 {
        assert kept[|kept| - 2] < kept[|kept| - 1];
      }
    }
  }

  /** A strictly increasing list of positions below `n` holding every one of
      them is 0, 1, ..., n - 1. */
  lemma {:induction false} KeptIsIdentity(kept: seq<nat>, n: nat)
    requires forall j :: 0 <= j < |kept| ==> kept[j] < n
    requires forall j, k :: 0 <= j < k < |kept| ==> kept[j] < kept[k]
    requires forall i :: 0 <= i < n ==> i in kept
    ensures |kept| == n
    ensures forall j :: 0 <= j < |kept| ==> kept[j] == j
  {
    AtLeastIndex(kept);
    if |kept| > 0 {
      assert |kept| - 1 <= kept[|kept| - 1] < n;
    }
    if n > 0 {
      assert n - 1 in kept;
      var last := |kept| - 1;
      assert kept[last] == n - 1 by {
        var m :| 0 <= m < |kept| && kept[m] == n - 1;
      }
      var p := kept[..last];
      forall i | 0 <= i < n - 1
        ensures i in p
      {
        assert i in kept;
        var m :| 0 <= m < |kept| && kept[m] == i;
        assert m != last;
        assert p[m] == i;
      }
      KeptIsIdentity(p, n - 1);
    }
  }
}
