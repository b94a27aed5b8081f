/** The analyzer that raises an alert when a running average crosses a
    threshold.  Floating-point values are reals. */
module Analyzer {
  import opened BitArith
  import opened Wrappers

  datatype Result<T> = Ok(value: T) | AssertionError | IndexError

  function SumOf(s: seq<real>): real {
    if s == [] then 0.0 else SumOf(s[..|s| - 1]) + s[|s| - 1]
  }

  function Mean(s: seq<real>): real
    requires s != []
  {
    SumOf(s) / (|s| as real)
  }

  /** The last `n` of the values, or all of them. */
  function Window(s: seq<real>, n: nat): seq<real> {
    if |s| <= n then s else s[|s| - n..]
  }

  type Compare = (real, real) -> bool

  /** operator.gt and operator.lt, as set by the two compare strategies. */
  function Above(): Compare { (x: real, t: real) => x > t }

  function Below(): Compare { (x: real, t: real) => x < t }

  /** What remains since the last reset after one more value, and whether the
      handler runs: the reference behaviour, without a deque. */
  ghost function Feed(since: seq<real>, v: real, max: nat, t: real, cmp: Compare): (seq<real>, bool)
    requires max > 0
  {
    var s := since + [v];
    if |s| > max && cmp(Mean(Window(s, max)), t) then ([], true) else (s, false)
  }

  /** Values since the last reset, and number of alerts, after a whole history. */
  ghost function History(vs: seq<real>, max: nat, t: real, cmp: Compare): (seq<real>, nat)
    requires max > 0
  {
    if vs == [] then ([], 0)
    else
      var h := History(vs[..|vs| - 1], max, t, cmp);
      var f := Feed(h.0, vs[|vs| - 1], max, t, cmp);
      (f.0, h.1 + if f.1 then 1 else 0)
  }

  lemma HistoryNone(max: nat, t: real, cmp: Compare)
    requires max > 0
    ensures History([], max, t, cmp) == ([], 0)
  {
  }

  lemma HistorySnoc(vs: seq<real>, i: nat, max: nat, t: real, cmp: Compare)
    requires max > 0 && i < |vs|
    ensures var h := History(vs[..i], max, t, cmp);
            var f := Feed(h.0, vs[i], max, t, cmp);
            History(vs[..i + 1], max, t, cmp) == (f.0, h.1 + if f.1 then 1 else 0)
  {
    assert vs[..i + 1][..i] == vs[..i];
  }

  /** Alerts are at least max + 1 values apart. */
  lemma {:induction false} AlertsAreRare(vs: seq<real>, max: nat, t: real, cmp: Compare)
    requires max > 0
    ensures History(vs, max, t, cmp).1 * (max + 1) + |History(vs, max, t, cmp).0| <= |vs|
    ensures History(vs, max, t, cmp).1 <= |vs| / (max + 1)
  {
    if vs != [] {
      hide Mean, Window, SumOf;
      AlertsAreRare(vs[..|vs| - 1], max, t, cmp);
      var a := History(vs[..|vs| - 1], max, t, cmp).1;
      assert (a + 1) * (max + 1) == a * (max + 1) + (max + 1);
    }
    Divide(History(vs, max, t, cmp).1, |History(vs, max, t, cmp).0|, |vs|, max + 1);
  }

  lemma Divide(a: nat, r: nat, n: nat, m: nat)
    requires m > 0 && a * m + r <= n
    ensures a <= n / m
  {
    if a > n / m { MulMonotone(m, n / m + 1, a); }
  }

  /** The bound is reached: a comparison that always holds alerts at every
      (max + 1)-th value. */
  lemma {:induction false} AlertsCanBeThatOften(vs: seq<real>, max: nat, t: real)
    requires max > 0
    ensures var h := History(vs, max, t, (x, y) => true);
            h.1 * (max + 1) + |h.0| == |vs| && |h.0| <= max
  {
    if vs != [] {
      AlertsCanBeThatOften(vs[..|vs| - 1], max, t);
    }
  }

  /** Every value of the window is within the bound, so the average is. */
  lemma {:induction false} SumAtMost(s: seq<real>, t: real)
    requires forall i :: 0 <= i < |s| ==> s[i] <= t
    ensures SumOf(s) <= |s| as real * t
  {
    if s != [] {
      SumAtMost(s[..|s| - 1], t);
      assert |s| as real == (|s| - 1) as real + 1.0;
    }
  }

  lemma {:induction false} SumAtLeast(s: seq<real>, t: real)
    requires forall i :: 0 <= i < |s| ==> s[i] >= t
    ensures SumOf(s) >= |s| as real * t
  {
    if s != [] {
      SumAtLeast(s[..|s| - 1], t);
      assert |s| as real == (|s| - 1) as real + 1.0;
    }
  }

  lemma MeanBounds(s: seq<real>, t: real)
    requires s != []
    ensures Mean(s) > t ==> exists i :: 0 <= i < |s| && s[i] > t
    ensures Mean(s) < t ==> exists i :: 0 <= i < |s| && s[i] < t
  {
    if forall i :: 0 <= i < |s| ==> s[i] <= t { SumAtMost(s, t); }
    if forall i :: 0 <= i < |s| ==> s[i] >= t { SumAtLeast(s, t); }
  }

  /** With the "above" strategy an alert means that some value in the window is
      above the threshold; with "below", that some value is below. */
  lemma AlertHasACause(since: seq<real>, v: real, max: nat, t: real)
    requires max > 0
    ensures var w := Window(since + [v], max);
            && (Feed(since, v, max, t, Above()).1 ==> exists i :: 0 <= i < |w| && w[i] > t)
            && (Feed(since, v, max, t, Below()).1 ==> exists i :: 0 <= i < |w| && w[i] < t)
  {
    MeanBounds(Window(since + [v], max), t);
  }

  // ------------------------------------------------------------ what the average is

  /** sum(): each value counts once, wherever it stands. */
  lemma {:induction false} SumOfConcat(a: seq<real>, b: seq<real>)
    ensures SumOf(a + b) == SumOf(a) + SumOf(b)
  {
    if b == [] {
      assert a + b == a;
    } else {
      assert (a + b)[..|a + b| - 1] == a + b[..|b| - 1];
      SumOfConcat(a, b[..|b| - 1]);
    }
  }

  lemma SumOfOne(x: real)
    ensures SumOf([x]) == x
  {
    assert [x][..0] == [];
  }

  /** Shares of the mean add up to the sum. */
  lemma MeanIsShare(s: seq<real>)
    requires s != []
    ensures Mean(s) * |s| as real == SumOf(s)
  {
  }

  /** The window is what a deque of at most `n` samples holds: the latest ones. */
  lemma WindowIsLatest(s: seq<real>, n: nat)
    ensures |Window(s, n)| == if |s| <= n then |s| else n
    ensures exists earlier :: s == earlier + Window(s, n)
  {
    assert s == s[..|s| - |Window(s, n)|] + Window(s, n);
  }

  lemma WindowIs(earlier: seq<real>, latest: seq<real>)
    ensures Window(earlier + latest, |latest|) == latest
  {
  }

  lemma LatestMean(latest: seq<real>, v: real)
    ensures Mean(latest + [v]) == (SumOf(latest) + v) / (|latest| + 1) as real
  {
    hide SumOf;
    SumOfConcat(latest, [v]);
    SumOfOne(v);
    assert |latest + [v]| == |latest| + 1;
  }

  /** When a value raises an alert, by any comparison: there are more than `max`
      values since the last reset, and the mean of the latest `max` is compared.
      An alert forgets them all. */
  lemma FeedCompares(earlier: seq<real>, latest: seq<real>, v: real, t: real, cmp: Compare)
    ensures var (rest, alert) := Feed(earlier + latest, v, |latest| + 1, t, cmp);
            && (alert <==> earlier != [] && cmp((SumOf(latest) + v) / (|latest| + 1) as real, t))
            && rest == if alert then [] else earlier + latest + [v]
  {
    hide Mean, SumOf, Window;
    assert earlier + latest + [v] == earlier + (latest + [v]);
    WindowIs(earlier, latest + [v]);
    LatestMean(latest, v);
  }

  /** With the two strategies: exactly if their sum is above (below) max * t. */
  lemma AlertIff(earlier: seq<real>, latest: seq<real>, v: real, t: real)
    ensures var (since, max, sum) := (earlier + latest, |latest| + 1, SumOf(latest) + v);
            && (Feed(since, v, max, t, Above()).1 <==> earlier != [] && sum > max as real * t)
            && (Feed(since, v, max, t, Below()).1 <==> earlier != [] && sum < max as real * t)
  {
    hide Feed, SumOf;
    FeedCompares(earlier, latest, v, t, Above());
    FeedCompares(earlier, latest, v, t, Below());
    Shares(SumOf(latest) + v, t, (|latest| + 1) as real);
  }

  lemma Shares(sum: real, t: real, n: real)
    requires n > 0.0
    ensures sum / n > t <==> sum > n * t
    ensures sum / n < t <==> sum < n * t
  {
    var m := sum / n;
    assert m * n == sum;
  }

  /** Fewer values than that never raise one. */
  lemma NoAlertYet(since: seq<real>, v: real, max: nat, t: real, cmp: Compare)
    requires max > 0 && |since| < max
    ensures Feed(since, v, max, t, cmp) == (since + [v], false)
  {
  }

  /** A history at work: with two samples and threshold 22 the third value, which
      makes the average 25, raises the alert. */
  lemma ThirdValueAlerts()
    ensures History([10.0, 20.0], 2, 22.0, Above()) == ([10.0, 20.0], 0)
    ensures History([10.0, 20.0, 30.0], 2, 22.0, Above()) == ([], 1)
  {
    hide History, Feed, SumOf;
    var vs, cmp := [10.0, 20.0, 30.0], Above();
    HistoryNone(2, 22.0, cmp);
    assert vs[..0] == [] && vs[..1] == [10.0] && vs[..2] == [10.0, 20.0] && vs[..3] == vs;
    HistorySnoc(vs, 0, 2, 22.0, cmp);
    HistorySnoc(vs, 1, 2, 22.0, cmp);
    HistorySnoc(vs, 2, 2, 22.0, cmp);
    NoAlertYet([], 10.0, 2, 22.0, cmp);
    NoAlertYet([10.0], 20.0, 2, 22.0, cmp);
    SumOfOne(20.0);
    FeedCompares([10.0], [20.0], 30.0, 22.0, cmp);
    AlertIff([10.0], [20.0], 30.0, 22.0);
    assert [] + [10.0] == [10.0] && [10.0] + [20.0] == [10.0, 20.0];
  }

  class AvgThreshAnalyzer {
    var samples: seq<real>
    const avgThresh: real
    const maxSamples: int
    var avgCurrent: real
    var compareFn: Option<Compare>
    var handleFn: Option<int> // which handler is set
    var handled: seq<(int, real, real)> // its calls
    ghost var since: seq<real> // values since the last reset

    /** The samples are the last ones since the reset, and the average is theirs
        once there have been more than fit. */
    ghost predicate Valid()
      reads this
    {
      if maxSamples <= 0 then samples == []
      else
        && samples == Window(since, maxSamples)
        && avgCurrent == if |since| > maxSamples then Mean(samples) else 0.0
    }

    constructor (avgThresh: real, maxSamples: int, compareFn: Option<Compare>, handleFn: Option<int>)
      ensures Valid() && since == [] && handled == [] && this.avgThresh == avgThresh && this.maxSamples == maxSamples
      ensures this.compareFn == compareFn && this.handleFn == handleFn
    {
      samples, since, handled := [], [], [];
      this.avgThresh, this.maxSamples := avgThresh, maxSamples;
      avgCurrent := 0.0;
      this.compareFn, this.handleFn := compareFn, handleFn;
    }

    /** set_compare_strategy. */
    method SetCompareStrategy(f: Compare)
      requires Valid()
      modifies this`compareFn
      ensures Valid() && compareFn == Some(f)
    {
      compareFn := Some(f);
    }

    /** _update_avg; popping from an empty deque raises IndexError. */
    method UpdateAvg(value: real) returns (full: Result<bool>)
      requires Valid()
      modifies this`samples, this`avgCurrent, this`since
      ensures full.IndexError? <==> maxSamples <= 0
      ensures !full.AssertionError?
      ensures Valid() && since == if full.Ok? then old(since) + [value] else old(since)
      ensures full.Ok? ==> full.value == (|since| > maxSamples)
      ensures full.IndexError? ==> samples == old(samples) && avgCurrent == old(avgCurrent)
    {
      var isFull := |samples| >= maxSamples;
      if !isFull {
        samples := samples + [value];
      } else {
        if samples == [] { return IndexError; }
        samples := samples[1..];
        samples := samples + [value];
        avgCurrent := SumOf(samples) / (|samples| as real);
      }
      since := since + [value];
      full := Ok(isFull);
    }

    /** update. */
    method Update(value: real) returns (r: Result<()>)
      requires Valid()
      modifies this`samples, this`avgCurrent, this`since, this`handled
      ensures Valid()
      ensures r.AssertionError? <==> compareFn.None? || handleFn.None?
      ensures r.IndexError? <==> compareFn.Some? && handleFn.Some? && maxSamples <= 0
      ensures !r.Ok? ==>
                && since == old(since) && handled == old(handled)
                && samples == old(samples) && avgCurrent == old(avgCurrent)
      ensures r.Ok? ==>
                var f := Feed(old(since), value, maxSamples, avgThresh, compareFn.value);
                since == f.0 &&
                handled == old(handled) +
                  if f.1 then [(handleFn.value, Mean(Window(old(since) + [value], maxSamples)), avgThresh)] else []
    {
      if compareFn.None? || handleFn.None? { return AssertionError; }
      var full := UpdateAvg(value);
      if full.IndexError? { return IndexError; }
      if !full.value { return Ok(()); }
      var doHandle := compareFn.value(avgCurrent, avgThresh);
      if doHandle {
        handled := handled + [(handleFn.value, avgCurrent, avgThresh)];
        samples := [];
        avgCurrent := 0.0;
        since := [];
      }
      r := Ok(());
    }

    /** Feeding a whole history. */
    method UpdateAll(values: seq<real>)
      requires Valid() && since == [] && handled == [] && compareFn.Some? && handleFn.Some? && maxSamples > 0
      modifies this`samples, this`avgCurrent, this`since, this`handled
      ensures Valid() && since == History(values, maxSamples, avgThresh, compareFn.value).0
      ensures |handled| == History(values, maxSamples, avgThresh, compareFn.value).1
    {
      hide Mean, Window, SumOf, Feed, Valid, History;
      ghost var max: nat, t, cmp := maxSamples, avgThresh, compareFn.value;
      var i := 0;
      HistoryNone(max, t, cmp);
      assert values[..0] == [];
      while i < |values|
        invariant i <= |values| && Valid()
        invariant since == History(values[..i], max, t, cmp).0 && |handled| == History(values[..i], max, t, cmp).1
      {
        HistorySnoc(values, i, max, t, cmp);
        UpdateOnce(values[i]);
        i := i + 1;
      }
      assert values[..i] == values;
    }

    /** Update, counting the calls of the handler. */
    method UpdateOnce(value: real)
      requires Valid() && compareFn.Some? && handleFn.Some? && maxSamples > 0
      modifies this`samples, this`avgCurrent, this`since, this`handled
      ensures Valid() && since == Feed(old(since), value, maxSamples, avgThresh, compareFn.value).0
      ensures |handled| == old(|handled|) +
              if Feed(old(since), value, maxSamples, avgThresh, compareFn.value).1 then 1 else 0
    {
      hide Mean, Window, SumOf, Feed, Valid;
      var r := Update(value);
    }
  }
}
