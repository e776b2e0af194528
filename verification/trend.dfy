/**
 * `analyze_memory_data`: the within-cycle memory-trend verdict for each
 * watched application, compared on first and last sample only, and sent as
 * one `memory.leak[<id>]` point with sentinel values 0 (too few samples) and
 * -1 (no increase).
 */
module Trend {
  import opened Telemetry

  /** The memory samples (KB) collected for one watched application, in order. */
  datatype Series = Series(pkg: Package, samples: seq<int>)

  function First(samples: seq<int>): int
    requires |samples| > 0
  {
    samples[0]
  }

  function Last(samples: seq<int>): int
    requires |samples| > 0
  {
    samples[|samples| - 1]
  }

  /**
   * The analysis itself has no guard against a zero first sample: Python's
   * `/` raises `ZeroDivisionError` when a series rises from 0. This excludes it.
   */
  predicate Divisible(samples: seq<int>) {
    |samples| > 1 && Last(samples) > First(samples) ==> First(samples) != 0
  }

  /** The value sent when there are fewer than two samples. */
  const NoAnalysis: real := 0.0
  /** The value sent when the last sample is not above the first. */
  const NoLeak: real := -1.0

  /**
   * The value sent for one application: 0 with at most one sample; -1 when
   * the last sample is not strictly above the first; otherwise the percentage
   * increase from first to last, which is positive for positive samples.
   */
  function LeakValue(samples: seq<int>): (r: real)
    requires Divisible(samples)
    ensures |samples| <= 1 ==> r == NoAnalysis
    ensures |samples| > 1 && Last(samples) <= First(samples) ==> r == NoLeak
    ensures |samples| > 1 && Last(samples) > First(samples) ==>
      r * First(samples) as real == (Last(samples) - First(samples)) as real * 100.0
    ensures |samples| > 1 && Last(samples) > First(samples) && First(samples) > 0 ==> r > 0.0
  {
    if |samples| > 1 then
      var first := First(samples);
      var last := Last(samples);
      if last > first then
        var r := ((last - first) as real / first as real) * 100.0;
        assert r * first as real == (last - first) as real * 100.0;
        assert first > 0 ==> r > 0.0 by {
          if first > 0 { assert (last - first) as real / first as real > 0.0; }
        }
        r
      else NoLeak
    else NoAnalysis
  }

  /**
   * The trend a series shows, by the branches of lines 115-128: too few
   * samples to analyse, no increase, or an increase.
   */
  datatype Verdict = Insufficient | Steady | Rising

  function Classify(samples: seq<int>): Verdict {
    if |samples| < 2 then Insufficient
    else if Last(samples) > First(samples) then Rising
    else Steady
  }

  /** How a monitoring backend reads a `memory.leak` value back. */
  function Decode(v: real): Verdict {
    if v == NoAnalysis then Insufficient
    else if v > 0.0 then Rising
    else Steady
  }

  /**
   * With positive samples the sentinels never collide with a percentage: the
   * value sent always decodes to the series' verdict.
   */
  lemma LeakValueDecodes(samples: seq<int>)
    requires forall i :: 0 <= i < |samples| ==> samples[i] > 0
    ensures Divisible(samples)
    ensures Decode(LeakValue(samples)) == Classify(samples)
  {
    if |samples| > 0 {
      assert samples[0] > 0;
    }
  }

  /**
   * Without positivity the encoding is ambiguous: a series rising from -100
   * to -99 sends the same -1 as a flat series.
   */
  lemma NegativeSamplesAmbiguous()
    ensures LeakValue([-100, -99]) == LeakValue([5, 5]) == NoLeak
    ensures Classify([-100, -99]) == Rising && Classify([5, 5]) == Steady
  {
    var r := LeakValue([-100, -99]);
    assert r * (-100) as real == 100.0;
  }

  /** Samples 10000 then 15000 KB send an increase of 50%. */
  lemma FiftyPercentIncrease()
    ensures LeakValue([10000, 15000]) == 50.0
  {
    var r := LeakValue([10000, 15000]);
    assert r * 10000.0 == 5000.0 * 100.0;
  }

  /** The `memory.leak` point for one application. */
  function LeakPoint(host: string, s: Series): Point
    requires Divisible(s.samples)
  {
    Point(host, LeakKey(s.pkg.id), LeakValue(s.samples))
  }

  /**
   * `analyze_memory_data`: exactly one `memory.leak[<id>]` point per
   * application, in the order of the series, each carrying that application's
   * value — including the ones with too few samples.
   */
  function Analyze(host: string, series: seq<Series>): (r: seq<Point>)
    requires forall i :: 0 <= i < |series| ==> Divisible(series[i].samples)
    ensures |r| == |series|
    ensures forall i :: 0 <= i < |r| ==>
      r[i] == Point(host, LeakKey(series[i].pkg.id), LeakValue(series[i].samples))
  {
    if |series| == 0 then []
    else [LeakPoint(host, series[0])] + Analyze(host, series[1..])
  }
}
