/** internal/prometheus/model/response/responseUtils.go: the per-container
    usage map built from a Prometheus range-query matrix. The matrix types
    come from the Prometheus client library (`model.Matrix`,
    `model.SampleStream`, `model.SamplePair`) and are declared here with the
    fields the core reads. */
module ResponseUtils {
  import opened GoNumbers
  import opened GoSlices

  /** A sample: its timestamp in milliseconds and its float64 value, which
      is only copied. */
  datatype SamplePair = SamplePair(timestamp: int, value: Float64)

  /** One series of a range query: its label set and its samples in order. */
  datatype SampleStream = SampleStream(metric: map<string, string>, values: seq<SamplePair>)

  type Matrix = seq<SampleStream>

  /** `PlotValues`: the values and timestamps of one series. */
  datatype PlotValues = PlotValues(values: Slice<Float64>, timeStamp: Slice<int>)

  /** The label the usage is keyed by. */
  const ContainerLabel: string := "container"

  /** `series.Metric["container"]`: the zero value "" when the label is
      missing. */
  function ContainerOf(metric: map<string, string>): (name: string)
    ensures ContainerLabel in metric ==> name == metric[ContainerLabel]
    ensures ContainerLabel !in metric ==> name == ""
  {
    if ContainerLabel in metric then metric[ContainerLabel] else ""
  }

  /** The plot of one series: both slices stay nil for a series without
      samples; otherwise they hold every value and every timestamp, in
      sample order. */
  function Plot(samples: seq<SamplePair>): (p: PlotValues)
    ensures p.values.Len() == |samples| && p.timeStamp.Len() == |samples|
    ensures p.values.Nil? <==> samples == []
    ensures p.timeStamp.Nil? <==> samples == []
    ensures forall i :: 0 <= i < |samples| ==>
      p.values.Items()[i] == samples[i].value && p.timeStamp.Items()[i] == samples[i].timestamp
  {
    if samples == [] then PlotValues(Nil, Nil)
    else PlotValues(NonNil(seq(|samples|, i requires 0 <= i < |samples| => samples[i].value)),
                    NonNil(seq(|samples|, i requires 0 <= i < |samples| => samples[i].timestamp)))
  }

  /** The inner loop shared by both usage converters: appends each sample's
      value and timestamp, starting from nil slices. */
  method CopySamples(samples: seq<SamplePair>) returns (values: Slice<Float64>, timeStamps: Slice<int>)
    ensures PlotValues(values, timeStamps) == Plot(samples)
  {
    values, timeStamps := Nil, Nil;
    for i := 0 to |samples|
      invariant values.Len() == i && timeStamps.Len() == i
      invariant (values.Nil? <==> i == 0) && (timeStamps.Nil? <==> i == 0)
      invariant forall k :: 0 <= k < i ==>
        values.Items()[k] == samples[k].value && timeStamps.Items()[k] == samples[k].timestamp
    {
      values := Append(values, samples[i].value);
      timeStamps := Append(timeStamps, samples[i].timestamp);
    }
  }

  /** The usage map after the given series, in order: each series writes its
      plot under its container name, replacing an earlier one. */
  function UsageOf(matrix: Matrix): map<string, PlotValues>
  {
    if matrix == [] then map[]
    else UsageOf(matrix[..|matrix| - 1])[ContainerOf(matrix[|matrix| - 1].metric) := Plot(matrix[|matrix| - 1].values)]
  }

  /** A container is a key iff some series names it (a series without the
      label counts as container ""). */
  lemma {:induction false} UsageKeys(matrix: Matrix, name: string)
    ensures name in UsageOf(matrix) <==> LastNaming(matrix, name) >= 0
    ensures name in UsageOf(matrix) <==> exists i :: 0 <= i < |matrix| && ContainerOf(matrix[i].metric) == name
  {
    if matrix != [] && ContainerOf(matrix[|matrix| - 1].metric) != name {
      UsageKeys(matrix[..|matrix| - 1], name);
    }
    if LastNaming(matrix, name) >= 0 {
      assert ContainerOf(matrix[LastNaming(matrix, name)].metric) == name;
    }
  }

  /** The index of the last series naming `name`, or -1 when none does. */
  function LastNaming(matrix: Matrix, name: string): (i: int)
    ensures -1 <= i < |matrix|
    ensures i >= 0 ==> ContainerOf(matrix[i].metric) == name
    ensures forall j :: i < j < |matrix| ==> ContainerOf(matrix[j].metric) != name
  {
    if matrix == [] then -1
    else if ContainerOf(matrix[|matrix| - 1].metric) == name then |matrix| - 1
    else
      var p := matrix[..|matrix| - 1];
      assert forall j :: 0 <= j < |p| ==> p[j] == matrix[j];
      LastNaming(p, name)
  }

  /** A container's plot is that of the last series naming it. */
  lemma {:induction false} UsageLastWins(matrix: Matrix, name: string)
    requires name in UsageOf(matrix)
    ensures LastNaming(matrix, name) >= 0
    ensures UsageOf(matrix)[name] == Plot(matrix[LastNaming(matrix, name)].values)
  {
    var n := |matrix| - 1;
    var p := matrix[..n];
    if ContainerOf(matrix[n].metric) != name {
      UsageLastWins(p, name);
      assert p[LastNaming(p, name)] == matrix[LastNaming(p, name)];
    }
  }

  /** The usage map has at most one entry per series. */
  lemma {:induction false} UsageSize(matrix: Matrix)
    ensures |UsageOf(matrix)| <= |matrix|
  {
    if matrix != [] {
      var p := matrix[..|matrix| - 1];
      UsageSize(p);
      var u := UsageOf(p);
      var name := ContainerOf(matrix[|matrix| - 1].metric);
      assert UsageOf(matrix).Keys == u.Keys + {name};
    }
  }

  /** `ConvertMetricToPodUsage(metric)`: the usage map, made non-nil before
      the loop, so an empty matrix gives an empty map. */
  method ConvertMetricToPodUsage(metric: Matrix) returns (usage: map<string, PlotValues>)
    ensures usage == UsageOf(metric)
    ensures metric == [] ==> usage == map[]
  {
    usage := map[];
    for i := 0 to |metric|
      invariant usage == UsageOf(metric[..i])
    {
      var series := metric[i];
      var values, timeStamps := CopySamples(series.values);
      var plotValues := PlotValues(values, timeStamps);
      var containerName := ContainerOf(series.metric);
      usage := usage[containerName := plotValues];
      assert metric[..i + 1][..i] == metric[..i];
    }
    assert metric[..|metric|] == metric;
  }
}
