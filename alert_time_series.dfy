/** internal/prometheus/model/response/alertTimeSeriesResponse.go: the time
    ranges in which an alert was firing, found by sorting its samples by
    timestamp and grouping them into maximal runs one `step` apart. The same
    `findSeries` is repeated in internal/prometheus/service/prometheusService.go. */
module AlertTimeSeries {
  import opened GoNumbers
  import opened GoSlices

  /** One sample `[timestamp, value]` of a Prometheus range vector; the
      timestamp is the float64 JSON number, the value is only carried along. */
  datatype Value = Value(time: real, sample: string)

  /** `int(v[0].(float64))`: the timestamp truncated toward zero. */
  function Key(v: Value): int
  {
    TruncReal(v.time)
  }

  function Keys(s: seq<Value>): (ks: seq<int>)
    ensures |ks| == |s| && forall i :: 0 <= i < |s| ==> ks[i] == Key(s[i])
  {
    if s == [] then [] else Keys(s[..|s| - 1]) + [Key(s[|s| - 1])]
  }

  predicate Sorted(ks: seq<int>)
  {
    forall i, j :: 0 <= i < j < |ks| ==> ks[i] <= ks[j]
  }

  predicate SortedByKey(s: seq<Value>)
  {
    forall i, j :: 0 <= i < j < |s| ==> Key(s[i]) <= Key(s[j])
  }

  datatype Duration = Duration(from: int, to: int)

  /** `timestamp - end` in Go's 64-bit `int`. */
  function Gap(prev: int, next: int): int
  {
    Wrap64(next - prev)
  }

  /** The loop's variables after a non-empty prefix: the closed ranges and the
      open one. */
  datatype RunState = RunState(done: seq<Duration>, start: int, end: int)

  function Scan(ks: seq<int>, step: int): (st: RunState)
    requires |ks| >= 1
    ensures st.end == ks[|ks| - 1]
    ensures |st.done| < |ks|
    ensures st.done == [] ==> st.start == ks[0]
    ensures st.done != [] ==> st.done[0].from == ks[0]
  {
    if |ks| == 1 then RunState([], ks[0], ks[0])
    else
      var p := Scan(ks[..|ks| - 1], step);
      var t := ks[|ks| - 1];
      if Gap(p.end, t) == step then RunState(p.done, p.start, t)
      else RunState(p.done + [Duration(p.start, p.end)], t, t)
  }

  /** The ranges `findSeries` reports for a sorted key sequence. */
  function Series(ks: seq<int>, step: int): (r: seq<Duration>)
    ensures |r| <= |ks|
    ensures ks == [] <==> r == []
  {
    if ks == [] then [] else
      var st := Scan(ks, step);
      st.done + [Duration(st.start, st.end)]
  }

  /** The indices at which a range starts: 0, then every index whose gap to
      its predecessor is not `step`, in increasing order. */
  function Starts(ks: seq<int>, step: int): (s: seq<nat>)
    requires |ks| >= 1
    ensures |s| >= 1 && s[0] == 0
    ensures forall j :: 0 <= j < |s| ==> s[j] < |ks|
    ensures forall j :: 0 < j < |s| ==> 0 < s[j] && s[j - 1] < s[j]
  {
    if |ks| == 1 then [0]
    else
      var s := Starts(ks[..|ks| - 1], step);
      if Gap(ks[|ks| - 2], ks[|ks| - 1]) != step then s + [|ks| - 1] else s
  }

  /** The start indices are exactly 0 and the indices whose gap is not `step`. */
  lemma {:induction false} StartsAreBreaks(ks: seq<int>, step: int, i: nat)
    requires 1 <= i < |ks|
    ensures i in Starts(ks, step) <==> Gap(ks[i - 1], ks[i]) != step
  {
    var p := ks[..|ks| - 1];
    if i < |ks| - 1 {
      StartsAreBreaks(p, step, i);
      assert p[i - 1] == ks[i - 1] && p[i] == ks[i];
      assert (|ks| - 1) != i;
    }
  }

  /** The start indices followed by the length: range `j` covers the indices
      from `Bounds[j]` up to just before `Bounds[j + 1]`. */
  function Bounds(ks: seq<int>, step: int): (b: seq<nat>)
    requires |ks| >= 1
    ensures |b| >= 2 && b[0] == 0 && b[|b| - 1] == |ks|
    ensures forall j :: 0 < j < |b| ==> 0 < b[j] && b[j - 1] < b[j] <= |ks|
  {
    Starts(ks, step) + [|ks|]
  }

  /** Strictly increasing indices, none above `m`. */
  predicate Increasing(s: seq<nat>, m: nat)
  {
    && |s| >= 1
    && (forall j :: 0 <= j < |s| ==> s[j] <= m)
    && (forall j :: 0 < j < |s| ==> 0 < s[j] && s[j - 1] < s[j])
  }

  /** The ranges cut at the indices `s`: range `j` goes from the key at
      `s[j]` to the key just before `s[j + 1]`. */
  function RangesOf(ks: seq<int>, s: seq<nat>): (r: seq<Duration>)
    requires Increasing(s, |ks|)
    ensures |r| == |s| - 1
  {
    seq(|s| - 1, j requires 0 <= j < |s| - 1 => var next := s[j + 1]; Duration(ks[s[j]], ks[next - 1]))
  }

  /** Cutting a prefix that holds every index below the last cut gives the
      same ranges. */
  lemma RangesOfPrefix(ks: seq<int>, s: seq<nat>, m: nat)
    requires m <= |ks| && Increasing(s, m)
    ensures RangesOf(ks[..m], s) == RangesOf(ks, s)
  {
    var a, b := RangesOf(ks[..m], s), RangesOf(ks, s);
    forall j | 0 <= j < |a|
      ensures a[j] == b[j]
    {
      assert s[j] < s[j + 1] <= m;
    }
  }

  /** One more cut adds one range, up to the key before it. */
  lemma RangesOfAppend(ks: seq<int>, s: seq<nat>, n: nat)
    requires Increasing(s, |ks|) && s[|s| - 1] < n <= |ks|
    ensures Increasing(s + [n], |ks|)
    ensures RangesOf(ks, s + [n]) == RangesOf(ks, s) + [Duration(ks[s[|s| - 1]], ks[n - 1])]
  {
    var a, b := RangesOf(ks, s + [n]), RangesOf(ks, s) + [Duration(ks[s[|s| - 1]], ks[n - 1])];
    forall j | 0 <= j < |a|
      ensures a[j] == b[j]
    {
      if j < |s| - 1 {
        assert (s + [n])[j] == s[j] && (s + [n])[j + 1] == s[j + 1];
      }
    }
  }

  /** The loop's variables after `ks` match the start indices: one closed
      range per start but the last, the open range starting at the last start
      and ending at the last key. */
  ghost predicate ScanMatches(ks: seq<int>, step: int)
    requires |ks| >= 1
  {
    var st, s := Scan(ks, step), Starts(ks, step);
    && Increasing(s, |ks|)
    && st.done == RangesOf(ks, s)
    && st.start == ks[s[|s| - 1]]
    && st.end == ks[|ks| - 1]
  }

  /** The reported ranges are those cut at the bounds. */
  lemma SeriesIsRanges(ks: seq<int>, step: int)
    requires |ks| >= 1
    ensures Increasing(Bounds(ks, step), |ks|)
    ensures Series(ks, step) == RangesOf(ks, Bounds(ks, step))
  {
    var s, st := Starts(ks, step), Scan(ks, step);
    ScanMatchesAll(ks, step);
    var last := Duration(ks[s[|s| - 1]], ks[|ks| - 1]);
    assert st.done == RangesOf(ks, s) && Duration(st.start, st.end) == last;
    RangesOfAppend(ks, s, |ks|);
    assert Bounds(ks, step) == s + [|ks|];
    assert RangesOf(ks, Bounds(ks, step)) == RangesOf(ks, s) + [last];
    assert Series(ks, step) == st.done + [Duration(st.start, st.end)];
  }

  lemma {:induction false} ScanMatchesAll(ks: seq<int>, step: int)
    requires |ks| >= 1
    ensures ScanMatches(ks, step)
  {
    if |ks| > 1 {
      ScanMatchesAll(ks[..|ks| - 1], step);
      if Gap(ks[|ks| - 2], ks[|ks| - 1]) == step {
        ScanExtends(ks, step);
      } else {
        ScanBreaks(ks, step);
      }
    }
  }

  /** A key `step` after its predecessor extends the open range. */
  lemma ScanExtends(ks: seq<int>, step: int)
    requires |ks| > 1 && ScanMatches(ks[..|ks| - 1], step)
    requires Gap(ks[|ks| - 2], ks[|ks| - 1]) == step
    ensures ScanMatches(ks, step)
  {
    var n := |ks| - 1;
    var p := ks[..n];
    var sp, s := Starts(p, step), Starts(ks, step);
    var pt, st := Scan(p, step), Scan(ks, step);
    assert pt.end == ks[n - 1];
    assert s == sp;
    assert st == RunState(pt.done, pt.start, ks[n]);
    RangesOfPrefix(ks, sp, n);
  }

  /** Any other key closes the open range and starts a new one. */
  lemma ScanBreaks(ks: seq<int>, step: int)
    requires |ks| > 1 && ScanMatches(ks[..|ks| - 1], step)
    requires Gap(ks[|ks| - 2], ks[|ks| - 1]) != step
    ensures ScanMatches(ks, step)
  {
    var n := |ks| - 1;
    var p := ks[..n];
    var sp, s := Starts(p, step), Starts(ks, step);
    var pt, st := Scan(p, step), Scan(ks, step);
    assert pt.end == ks[n - 1];
    assert s == sp + [n];
    assert st.done == pt.done + [Duration(pt.start, pt.end)];
    RangesOfPrefix(ks, sp, n);
    RangesOfAppend(ks, sp, n);
  }

  /** The ranges are exactly the maximal runs: range `j` goes from the key at
      `Bounds[j]` to the key just before `Bounds[j + 1]`, one range per start. */
  lemma SeriesRuns(ks: seq<int>, step: int)
    requires |ks| >= 1
    ensures |Series(ks, step)| == |Bounds(ks, step)| - 1
    ensures forall j :: 0 <= j < |Series(ks, step)| ==>
      Series(ks, step)[j] == Duration(ks[Bounds(ks, step)[j]], ks[Bounds(ks, step)[j + 1] - 1])
  {
    SeriesIsRanges(ks, step);
  }

  /** Inside one range every pair of neighbouring keys is exactly `step` apart. */
  lemma SeriesWithinRun(ks: seq<int>, step: int, j: nat, i: nat)
    requires |ks| >= 1
    requires j + 1 < |Bounds(ks, step)|
    requires Bounds(ks, step)[j] < i < Bounds(ks, step)[j + 1]
    ensures Gap(ks[i - 1], ks[i]) == step
  {
    var b := Bounds(ks, step);
    NotABound(b, j, i);
    assert i !in Starts(ks, step);
    StartsAreBreaks(ks, step, i);
  }

  /** Nothing strictly between two consecutive increasing bounds is a bound. */
  lemma NotABound(b: seq<nat>, j: nat, i: nat)
    requires forall k :: 0 < k < |b| ==> b[k - 1] < b[k]
    requires j + 1 < |b| && b[j] < i < b[j + 1]
    ensures i !in b
  {
    forall m | 0 <= m < |b|
      ensures b[m] != i
    {
      if m < j {
        StrictlyIncreasing(b, m, j);
      } else if j + 1 < m {
        StrictlyIncreasing(b, j + 1, m);
      }
    }
  }

  /** Consecutive strict increase gives strict increase between any two. */
  lemma {:induction false} StrictlyIncreasing(b: seq<nat>, x: nat, y: nat)
    requires forall j :: 0 < j < |b| ==> b[j - 1] < b[j]
    requires x < y < |b|
    ensures b[x] < b[y]
  {
    if x + 1 < y {
      StrictlyIncreasing(b, x, y - 1);
    }
  }

  /** There is at least one range; together the ranges start at the first
      key and end at the last. */
  lemma SeriesSpan(ks: seq<int>, step: int)
    requires |ks| >= 1
    ensures |Series(ks, step)| >= 1
    ensures Series(ks, step)[0].from == ks[0]
    ensures Series(ks, step)[|Series(ks, step)| - 1].to == ks[|ks| - 1]
  {
    SeriesRuns(ks, step);
    var b := Bounds(ks, step);
    assert Series(ks, step)[0] == Duration(ks[b[0]], ks[b[1] - 1]);
  }

  /** A bound inside the keys starts a range, so the gap before it is not
      `step`. */
  lemma BoundIsBreak(ks: seq<int>, step: int, j: nat)
    requires |ks| >= 1 && 0 < j < |Bounds(ks, step)| - 1
    ensures 0 < Bounds(ks, step)[j] < |ks|
    ensures Gap(ks[Bounds(ks, step)[j] - 1], ks[Bounds(ks, step)[j]]) != step
  {
    var s := Starts(ks, step);
    assert Bounds(ks, step)[j] == s[j] && s[j] in s;
    StartsAreBreaks(ks, step, s[j]);
  }

  /** For sorted keys: every range is ordered, ranges follow one another,
      and the gap between two ranges is never `step`. */
  lemma SeriesOrdered(ks: seq<int>, step: int)
    requires |ks| >= 1 && Sorted(ks)
    ensures forall j :: 0 <= j < |Series(ks, step)| ==> Series(ks, step)[j].from <= Series(ks, step)[j].to
    ensures forall j :: 0 < j < |Series(ks, step)| ==>
      && Series(ks, step)[j - 1].to <= Series(ks, step)[j].from
      && Gap(Series(ks, step)[j - 1].to, Series(ks, step)[j].from) != step
  {
    SeriesIsRanges(ks, step);
    var b := Bounds(ks, step);
    var d := Series(ks, step);
    forall j | 0 <= j < |d|
      ensures d[j].from <= d[j].to
    {
      assert d[j] == Duration(ks[b[j]], ks[b[j + 1] - 1]);
    }
    forall j | 0 < j < |d|
      ensures d[j - 1].to <= d[j].from && Gap(d[j - 1].to, d[j].from) != step
    {
      BoundIsBreak(ks, step, j);
      assert d[j - 1].to == ks[b[j] - 1] && d[j].from == ks[b[j]];
    }
  }

  /** The first `n` elements of `a` are in the order of `key`. */
  predicate SortedPrefix<T>(a: array<T>, n: int, key: T -> int)
    reads a
    requires 0 <= n <= a.Length
  {
    forall k, l :: 0 <= k < l < n ==> key(a[k]) <= key(a[l])
  }

  /** Exchanges two elements of `a`. */
  method Swap<T>(a: array<T>, x: int, y: int)
    requires 0 <= x < y < a.Length
    modifies a
    ensures a[x] == old(a[y]) && a[y] == old(a[x])
    ensures forall k :: 0 <= k < a.Length && k != x && k != y ==> a[k] == old(a[k])
    ensures multiset(a[..]) == old(multiset(a[..]))
  {
    ghost var s := a[..];
    a[x], a[y] := a[y], a[x];
    assert a[..] == s[x := s[y]][y := s[x]];
  }

  /** One pass of the insertion sort: moves `a[i]` down into the sorted
      prefix `a[..i]`. The elements after `i` stay where they are, and the
      first `i + 1` are a permutation of what they were. The order is the
      one of `key`, a function value, as `sort.Slice` takes its `less`. */
  method InsertAt<T>(a: array<T>, i: int, key: T -> int)
    requires 1 <= i < a.Length && SortedPrefix(a, i, key)
    modifies a
    ensures SortedPrefix(a, i + 1, key)
    ensures multiset(a[..]) == old(multiset(a[..]))
    ensures multiset(a[..i + 1]) == old(multiset(a[..i + 1]))
    ensures a[i + 1..] == old(a[i + 1..])
  {
    ghost var s0 := a[..];
    InsertingInit(s0, i, key);
    SiftDown(a, i, i, key, s0);
    assert forall k :: 0 <= k < a.Length ==> a[k] == a[..][k];
  }

  /** Moves the element at `j` down past every larger predecessor. */
  method SiftDown<T>(a: array<T>, i: int, j: int, key: T -> int, ghost s0: seq<T>)
    requires 0 <= j <= i < a.Length && Inserting(a[..], s0, i, j, key)
    modifies a
    ensures forall k, l :: 0 <= k < l <= i ==> key(a[..][k]) <= key(a[..][l])
    ensures multiset(a[..]) == multiset(s0)
    ensures multiset(a[..i + 1]) == multiset(s0[..i + 1])
    ensures a[i + 1..] == s0[i + 1..]
    decreases j
  {
    if j > 0 && key(a[j - 1]) > key(a[j]) {
      MoveDown(a, i, j, key, s0);
      SiftDown(a, i, j - 1, key, s0);
    } else {
      InsertingDone(a[..], s0, i, j, key);
    }
  }

  /** One step of `InsertAt`: the element at `j` changes place with its
      larger predecessor. */
  method MoveDown<T>(a: array<T>, i: int, j: int, key: T -> int, ghost s0: seq<T>)
    requires 0 < j <= i < a.Length && Inserting(a[..], s0, i, j, key)
    requires key(a[j - 1]) > key(a[j])
    modifies a
    ensures Inserting(a[..], s0, i, j - 1, key)
  {
    ghost var before := a[..];
    Swap(a, j - 1, j);
    assert a[..] == before[j - 1 := before[j]][j := before[j - 1]];
    InsertingStep(before, s0, i, j, key);
  }

  /** The state of `InsertAt` while the element that started at `i` sits at
      `j`: only the first `i + 1` elements have moved among themselves, they
      are in key order apart from position `j`, and the element at `j` is no
      larger than any after it up to `i`. */
  ghost predicate Inserting<T>(s: seq<T>, s0: seq<T>, i: nat, j: nat, key: T -> int)
  {
    && |s| == |s0| && j <= i < |s|
    && multiset(s[..i + 1]) == multiset(s0[..i + 1])
    && s[i + 1..] == s0[i + 1..]
    && (forall k, l :: 0 <= k < l <= i && k != j && l != j ==> key(s[k]) <= key(s[l]))
    && (forall l :: j < l <= i ==> key(s[j]) <= key(s[l]))
  }

  lemma InsertingInit<T>(s: seq<T>, i: nat, key: T -> int)
    requires 1 <= i < |s|
    requires forall k, l :: 0 <= k < l < i ==> key(s[k]) <= key(s[l])
    ensures Inserting(s, s, i, i, key)
  {
  }

  /** Exchanging the element at `j` with a larger predecessor moves it one
      place down. */
  lemma InsertingStep<T>(s: seq<T>, s0: seq<T>, i: nat, j: nat, key: T -> int)
    requires Inserting(s, s0, i, j, key) && 0 < j && key(s[j - 1]) > key(s[j])
    ensures Inserting(s[j - 1 := s[j]][j := s[j - 1]], s0, i, j - 1, key)
  {
    var t := s[j - 1 := s[j]][j := s[j - 1]];
    SwapInPrefix(s, j - 1, j, i + 1);
    assert t[i + 1..] == s[i + 1..];
  }

  /** Once the element has no larger predecessor, the first `i + 1` are in
      key order, the rest is untouched and the whole is a permutation. */
  lemma InsertingDone<T>(s: seq<T>, s0: seq<T>, i: nat, j: nat, key: T -> int)
    requires Inserting(s, s0, i, j, key) && (j == 0 || key(s[j - 1]) <= key(s[j]))
    ensures forall k, l :: 0 <= k < l <= i ==> key(s[k]) <= key(s[l])
    ensures multiset(s) == multiset(s0)
    ensures multiset(s[..i + 1]) == multiset(s0[..i + 1])
    ensures s[i + 1..] == s0[i + 1..]
  {
    assert s == s[..i + 1] + s[i + 1..];
    assert s0 == s0[..i + 1] + s0[i + 1..];
  }

  /** Exchanging two elements inside the first `n` keeps the multiset of
      those `n`. */
  lemma SwapInPrefix<T>(s: seq<T>, x: nat, y: nat, n: nat)
    requires x < y < n <= |s|
    ensures multiset(s[x := s[y]][y := s[x]][..n]) == multiset(s[..n])
  {
    assert s[x := s[y]][y := s[x]][..n] == s[..n][x := s[y]][y := s[x]];
  }

  /** `sort.Slice(arr, less by Key)`: an insertion sort, which is one of the
      orders the unstable library sort may produce. */
  method SortByKey(a: array<Value>)
    modifies a
    ensures SortedByKey(a[..])
    ensures multiset(a[..]) == old(multiset(a[..]))
  {
    if a.Length == 0 {
      return;
    }
    var i := 1;
    while i < a.Length
      invariant 1 <= i <= a.Length
      invariant SortedPrefix(a, i, Key)
      invariant multiset(a[..]) == old(multiset(a[..]))
    {
      InsertAt(a, i, Key);
      i := i + 1;
    }
  }

  /** One more key either extends the open range or closes it. */
  lemma ScanStep(ks: seq<int>, i: nat, step: int)
    requires 1 <= i < |ks|
    ensures var pr := Scan(ks[..i], step);
      Scan(ks[..i + 1], step) ==
        if Gap(pr.end, ks[i]) == step then RunState(pr.done, pr.start, ks[i])
        else RunState(pr.done + [Duration(pr.start, pr.end)], ks[i], ks[i])
  {
    assert ks[..i + 1][..i] == ks[..i];
  }

  /** `findSeries(arr, step)`: sorts `arr` in place (the caller sees the new
      order) and returns nil for no samples, otherwise the ranges of the
      sorted keys. */
  method FindSeries(arr: array<Value>, step: int) returns (result: Slice<Duration>)
    modifies arr
    ensures SortedByKey(arr[..])
    ensures multiset(arr[..]) == old(multiset(arr[..]))
    ensures arr.Length == 0 ==> result == Nil
    ensures arr.Length > 0 ==> result == NonNil(Series(Keys(arr[..]), step))
  {
    result := Nil;
    if arr.Length == 0 {
      return;
    }
    SortByKey(arr);
    result := ScanRanges(arr, step);
  }

  /** The scan after the sort: walks the samples in order, extending the
      open range while the gap is `step` and closing it otherwise, then
      appends the last open range. */
  method ScanRanges(arr: array<Value>, step: int) returns (result: Slice<Duration>)
    requires arr.Length > 0
    ensures result == NonNil(Series(Keys(arr[..]), step))
  {
    ghost var ks := Keys(arr[..]);
    result := Nil;
    var start, end := 0, 0;
    var i := 0;
    while i < arr.Length
      invariant 0 <= i <= arr.Length
      invariant i == 0 ==> result == Nil
      invariant i >= 1 ==> result.Items() == Scan(ks[..i], step).done
      invariant i >= 1 ==> start == Scan(ks[..i], step).start && end == Scan(ks[..i], step).end
    {
      var timestamp := Key(arr[i]);
      assert timestamp == ks[i];
      if i == 0 {
        assert ks[..1] == [timestamp];
        start, end := timestamp, timestamp;
      } else {
        ScanStep(ks, i, step);
        if Gap(end, timestamp) == step {
          end := timestamp;
        } else {
          result := Append(result, Duration(start, end));
          start, end := timestamp, timestamp;
        }
      }
      i := i + 1;
    }
    assert ks[..i] == ks;
    result := Append(result, Duration(start, end));
  }

  /** FindSeries on sorted keys: at least one range, ordered and adjacent,
      spanning the keys (a corollary of the lemmas above, stated on the
      array the method leaves behind). */
  lemma FindSeriesResult(s: seq<Value>, step: int)
    requires |s| >= 1 && SortedByKey(s)
    ensures Sorted(Keys(s))
    ensures var d := Series(Keys(s), step);
      |d| >= 1 && d[0].from == Key(s[0]) && d[|d| - 1].to == Key(s[|s| - 1])
  {
    SeriesSpan(Keys(s), step);
  }

  datatype Metric = Metric(name: string, alertName: string, alertState: string, pod: string, severity: string)

  /** One series of the Prometheus answer; its samples live in an array
      that `findSeries` reorders. */
  datatype AlertResult = AlertResult(metric: Metric, values: array<Value>)

  datatype AlertRangeData = AlertRangeData(resultType: string, result: seq<AlertResult>)

  datatype ResultResponse = ResultResponse(metric: Metric, durations: Slice<Duration>)

  datatype AlertRangeDataResponse = AlertRangeDataResponse(resultType: string, result: Slice<ResultResponse>)

  /** The ranges of one sorted sample array. */
  function DurationsOf(s: seq<Value>, step: int): Slice<Duration>
  {
    if s == [] then Nil else NonNil(Series(Keys(s), step))
  }

  /** `findSeries` on the samples of result `i`: they are sorted in place
      and every other result's samples stay as they were. */
  method FindSeriesOf(results: seq<AlertResult>, i: nat, step: int) returns (durations: Slice<Duration>)
    requires i < |results|
    requires forall a, b :: 0 <= a < b < |results| ==> results[a].values != results[b].values
    modifies results[i].values
    ensures SortedByKey(results[i].values[..])
    ensures multiset(results[i].values[..]) == old(multiset(results[i].values[..]))
    ensures durations == DurationsOf(results[i].values[..], step)
    ensures forall k :: 0 <= k < |results| && k != i ==> results[k].values[..] == old(results[k].values[..])
  {
    durations := FindSeries(results[i].values, step);
  }

  /** `ConvertAlertRangePrometheusResponseToAlertTimeSeriesResponse(r, step)`:
      one response per series, in order, with its metric and ranges; every
      sample array ends up sorted. The series are decoded from JSON, so no
      two share a sample array. */
  method ConvertAlertRangePrometheusResponseToAlertTimeSeriesResponse(data: AlertRangeData, step: int)
    returns (out: AlertRangeDataResponse)
    requires forall i, j :: 0 <= i < j < |data.result| ==> data.result[i].values != data.result[j].values
    modifies set i | 0 <= i < |data.result| :: data.result[i].values
    ensures out.resultType == data.resultType
    ensures out.result.NonNil? && out.result.Len() == |data.result|
    ensures forall i :: 0 <= i < |data.result| ==>
      && SortedByKey(data.result[i].values[..])
      && multiset(data.result[i].values[..]) == old(multiset(data.result[i].values[..]))
      && out.result.Items()[i] == ResultResponse(data.result[i].metric, DurationsOf(data.result[i].values[..], step))
  {
    var results := Empty();
    for i := 0 to |data.result|
      invariant results.NonNil? && results.Len() == i
      invariant forall k :: 0 <= k < i ==>
        && SortedByKey(data.result[k].values[..])
        && multiset(data.result[k].values[..]) == old(multiset(data.result[k].values[..]))
        && results.Items()[k] == ResultResponse(data.result[k].metric, DurationsOf(data.result[k].values[..], step))
      invariant forall k :: i <= k < |data.result| ==> data.result[k].values[..] == old(data.result[k].values[..])
    {
      var r := data.result[i];
      var durations := FindSeriesOf(data.result, i, step);
      results := Append(results, ResultResponse(r.metric, durations));
    }
    out := AlertRangeDataResponse(data.resultType, results);
  }
}
