/**
 The per-flow tracker of the Python exporter (`FlowSamples`): a window holding
 the most recent `WindowSize` RTT samples, the time of the last append, and
 the median of the window.
 */
module FlowWindow {
  import opened Wrappers
  import opened Sorting
  import opened Strings

  /** Number of samples a tracker keeps. */
  const WindowSize: nat := 20

  /** `lastUpdated` is None until the first append, as after `__init__`. */
  datatype FlowSamples = FlowSamples(flow: string, samples: seq<real>, lastUpdated: Option<real>)

  function NewTracker(flow: string): FlowSamples
  {
    FlowSamples(flow, [], None)
  }

  /** The last `n` elements of `s` (all of `s` when it is shorter). */
  function LastN(s: seq<real>, n: nat): seq<real>
  {
    s[|s| - Min(|s|, n)..]
  }

  /** Keeping the last `n`, then extending, then keeping the last `n` again,
      is the same as extending first. */
  lemma LastNAppend(s: seq<real>, t: seq<real>, n: nat)
    ensures LastN(LastN(s, n) + t, n) == LastN(s + t, n)
  {
    var u := LastN(s, n) + t;
    var st := s + t;
    var a := LastN(u, n);
    var b := LastN(st, n);
    assert |a| == |b|;
    forall k | 0 <= k < |a|
      ensures a[k] == b[k]
    {
      var d := |s| - Min(|s|, n);
      var i := |u| - Min(|u|, n) + k;
      assert a[k] == u[i];
      assert u[i] == st[d + i];
    }
  }

  /** `deque(maxlen=WindowSize).append(value)`: the oldest sample is dropped once the window is full. */
  function Push(window: seq<real>, value: real): (w: seq<real>)
    ensures |w| == Min(|window| + 1, WindowSize)
    ensures w[|w| - 1] == value
    ensures forall i :: 0 <= i < |w| - 1 ==> w[i] == window[|window| + 1 - |w| + i]
  {
    LastN(window + [value], WindowSize)
  }

  /** `FlowSamples.append`: record one sample, taken at time `now`. */
  function Append(fs: FlowSamples, value: real, now: real): (r: FlowSamples)
    ensures r.flow == fs.flow
    ensures r.samples == Push(fs.samples, value)
    ensures r.lastUpdated == Some(now)
  {
    fs.(samples := Push(fs.samples, value), lastUpdated := Some(now))
  }

  /** Appending `values` one after another, each at time `now`. */
  function AppendAll(fs: FlowSamples, values: seq<real>, now: real): FlowSamples
    decreases |values|
  {
    if |values| == 0 then fs
    else AppendAll(Append(fs, values[0], now), values[1..], now)
  }

  /** The median of `sorted` under the tracker's policy: 0 when empty, the middle element
      for an odd count, the mean of the two middle elements for an even count. */
  function MedianOfSorted(sorted: seq<real>): real
  {
    var n := |sorted|;
    if n == 0 then 0.0
    else if n % 2 == 0 then (sorted[n / 2 - 1] + sorted[n / 2]) / 2.0
    else sorted[n / 2]
  }

  /** `FlowSamples.getMedian`. */
  function Median(samples: seq<real>): real
  {
    MedianOfSorted(Sort(samples))
  }

  /** Smallest sample, an independent reference for the median's lower bound. */
  function Minimum(s: seq<real>): (m: real)
    requires |s| > 0
  {
    if |s| == 1 then s[0]
    else var rest := Minimum(s[1..]); if s[0] <= rest then s[0] else rest
  }

  /** Largest sample. */
  function Maximum(s: seq<real>): (m: real)
    requires |s| > 0
  {
    if |s| == 1 then s[0]
    else var rest := Maximum(s[1..]); if s[0] >= rest then s[0] else rest
  }

  /** The median is taken over ANY ascending arrangement of the samples: 0 for none,
      the middle one for an odd count, the mean of the two middle ones for an even count. */
  lemma MedianPolicy(samples: seq<real>, sorted: seq<real>)
    requires Sorted(sorted) && multiset(sorted) == multiset(samples)
    ensures |sorted| == |samples|
    ensures |sorted| == 0 ==> Median(samples) == 0.0
    ensures |sorted| % 2 == 1 ==> Median(samples) == sorted[|sorted| / 2]
    ensures |sorted| > 0 && |sorted| % 2 == 0 ==>
      Median(samples) == (sorted[|sorted| / 2 - 1] + sorted[|sorted| / 2]) / 2.0
  {
    var t := Sort(samples);
    SortedUnique(t, sorted);
    var n := |sorted|;
    if n > 0 && n % 2 == 0 {
      assert Median(samples) == (sorted[n / 2 - 1] + sorted[n / 2]) / 2.0;
    } else if n % 2 == 1 {
      assert Median(samples) == sorted[n / 2];
    }
  }

  /** The median depends only on which samples are held, not on their arrival order. */
  lemma MedianOrderIndependent(a: seq<real>, b: seq<real>)
    requires multiset(a) == multiset(b)
    ensures Median(a) == Median(b)
  {
    SortedUnique(Sort(a), Sort(b));
  }

  lemma {:induction false} MinimumIsLeast(s: seq<real>)
    requires |s| > 0
    ensures Minimum(s) in s
    ensures forall k :: 0 <= k < |s| ==> Minimum(s) <= s[k]
    decreases |s|
  {
    if |s| > 1 {
      MinimumIsLeast(s[1..]);
      assert forall k :: 1 <= k < |s| ==> s[k] == s[1..][k - 1];
    }
  }

  lemma {:induction false} MaximumIsGreatest(s: seq<real>)
    requires |s| > 0
    ensures Maximum(s) in s
    ensures forall k :: 0 <= k < |s| ==> s[k] <= Maximum(s)
    decreases |s|
  {
    if |s| > 1 {
      MaximumIsGreatest(s[1..]);
      assert forall k :: 1 <= k < |s| ==> s[k] == s[1..][k - 1];
    }
  }

  /** The median of a non-empty window lies between its smallest and its largest sample. */
  lemma MedianWithinRange(samples: seq<real>)
    requires |samples| > 0
    ensures Minimum(samples) <= Median(samples) <= Maximum(samples)
  {
    var t := Sort(samples);
    var n := |t|;
    var lo, hi := Minimum(samples), Maximum(samples);
    WithinRange(samples, t, n / 2);
    if n % 2 == 0 {
      WithinRange(samples, t, n / 2 - 1);
      var m := (t[n / 2 - 1] + t[n / 2]) / 2.0;
      assert lo <= m <= hi;
      assert Median(samples) == m;
    } else {
      assert Median(samples) == t[n / 2];
    }
  }

  /** Every element of a rearrangement of `s` lies between the least and the greatest of `s`. */
  lemma WithinRange(s: seq<real>, t: seq<real>, k: nat)
    requires |s| > 0 && multiset(t) == multiset(s) && k < |t|
    ensures Minimum(s) <= t[k] <= Maximum(s)
  {
    assert t[k] in multiset(t);
    assert t[k] in s;
    var i :| 0 <= i < |s| && s[i] == t[k];
    MinimumIsLeast(s);
    MaximumIsGreatest(s);
  }

  /** Window bound: a fresh tracker fed `values` holds exactly the last
      `Min(|values|, WindowSize)` of them, oldest first, and remembers the time. */
  lemma WindowHoldsMostRecent(fs: FlowSamples, values: seq<real>, now: real)
    requires fs.samples == []
    ensures AppendAll(fs, values, now).samples == values[|values| - Min(|values|, WindowSize)..]
    ensures |values| > 0 ==> AppendAll(fs, values, now).lastUpdated == Some(now)
  {
    WindowSuffix(fs, values, now);
    assert fs.samples + values == values;
  }

  /** A tracker fed `values` keeps the last `WindowSize` of its old samples followed by them. */
  lemma {:induction false} WindowSuffix(fs: FlowSamples, values: seq<real>, now: real)
    requires |fs.samples| <= WindowSize
    ensures AppendAll(fs, values, now).samples == LastN(fs.samples + values, WindowSize)
    ensures |values| > 0 ==> AppendAll(fs, values, now).lastUpdated == Some(now)
    decreases |values|
  {
    if |values| == 0 {
      assert fs.samples + values == fs.samples;
    } else {
      var next := Append(fs, values[0], now);
      WindowSuffix(next, values[1..], now);
      LastNAppend(fs.samples + [values[0]], values[1..], WindowSize);
      assert fs.samples + [values[0]] + values[1..] == fs.samples + values;
    }
  }

  /** A window of one sample has that sample as its median. */
  lemma MedianOfOne(x: real)
    ensures Median([x]) == x
  {
    MedianPolicy([x], [x]);
  }

  /** Concrete scenario: samples 1, 3, 2 give median 2. */
  lemma MedianScenarioOdd(flow: string, now: real)
    ensures Median(AppendAll(NewTracker(flow), [1.0, 3.0, 2.0], now).samples) == 2.0
  {
    var three := [1.0, 3.0, 2.0];
    WindowHoldsMostRecent(NewTracker(flow), three, now);
    assert three[0..] == three;
    MedianOfThree(three);
  }

  /** Concrete scenario: samples 1, 3, 2, 4 give the mean of the middle two, 2.5. */
  lemma MedianScenarioEven(flow: string, now: real)
    ensures Median(AppendAll(NewTracker(flow), [1.0, 3.0, 2.0, 4.0], now).samples) == 2.5
  {
    var four := [1.0, 3.0, 2.0, 4.0];
    WindowHoldsMostRecent(NewTracker(flow), four, now);
    assert four[0..] == four;
    MedianOfFour(four);
  }

  lemma MedianOfThree(values: seq<real>)
    requires |values| == 3 && values[0] <= values[2] <= values[1]
    ensures Median(values) == values[2]
  {
    var a, b, c := values[0], values[1], values[2];
    assert values == [a, b, c];
    calc {
      multiset([a, c, b]);
      multiset{a, c, b};
      multiset{a, b, c};
      multiset([a, b, c]);
    }
    SortedThree(a, c, b);
    MedianPolicy(values, [a, c, b]);
  }

  lemma MedianOfFour(values: seq<real>)
    requires |values| == 4 && values[0] <= values[2] <= values[1] <= values[3]
    ensures Median(values) == (values[2] + values[1]) / 2.0
  {
    var sorted := [values[0], values[2], values[1], values[3]];
    SortedFour(values[0], values[2], values[1], values[3]);
    SwapMiddle(values);
    MedianPolicy(values, sorted);
  }

  lemma SortedThree(a: real, b: real, c: real)
    requires a <= b <= c
    ensures Sorted([a, b, c])
  {
  }

  lemma SortedFour(a: real, b: real, c: real, d: real)
    requires a <= b <= c <= d
    ensures Sorted([a, b, c, d])
  {
  }

  lemma SwapMiddle(values: seq<real>)
    requires |values| == 4
    ensures multiset([values[0], values[2], values[1], values[3]]) == multiset(values)
  {
    var a, b, c, d := values[0], values[1], values[2], values[3];
    assert values == [a] + [b, c] + [d];
    assert [a, c, b, d] == [a] + [c, b] + [d];
    SwapPair(b, c);
  }

  lemma SwapPair(x: real, y: real)
    ensures multiset([x, y]) == multiset([y, x])
  {
    calc {
      multiset([x, y]);
      multiset{x, y};
      multiset{y, x};
      multiset([y, x]);
    }
  }
}
