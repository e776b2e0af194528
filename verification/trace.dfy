/**
 * Properties of the points one worker sends in a health cycle: which of them
 * are gated on what, where the status point sits, and which trend points
 * reach the server.
 */
module Trace {
  import opened Telemetry
  import opened Bridge
  import opened Extractors
  import opened Trend
  import opened Worker

  /**
   * The status point is sent exactly once, as the last point of the cycle,
   * with 1 for an online device and 0 for an offline one.
   */
  lemma StatusSentLast(pkgs: seq<Package>, oracle: Oracle, parse: FloatParser, udid: string, host: string)
    requires InputsOk(pkgs, oracle, parse, udid)
    ensures var r := ProcessDeviceMain(pkgs, oracle, parse, udid, host);
      && |r.points| > 0
      && r.points[|r.points| - 1] == StatusPoint(host, IsDeviceOnline(udid, oracle).online)
      && forall pt :: pt in r.points[..|r.points| - 1] ==> pt.key != OnlineStatusKey
  {
    var r := ProcessDeviceMain(pkgs, oracle, parse, udid, host);
    if IsDeviceOnline(udid, oracle).online {
      var rd := Read(pkgs, oracle, parse, udid, host);
      OnlineRun(pkgs, oracle, parse, udid, host);
      assert r.points[..|r.points| - 1] == Measurements(host, rd);
    } else {
      assert r.points[..|r.points| - 1] == [];
    }
  }

  /** In one online cycle, a network point is one of the two positive counters, sent first. */
  lemma OnlineNetwork(host: string, rd: Readings)
    requires Analysable(rd.sampling, host)
    ensures forall pt :: pt in OnlinePoints(host, rd) && (pt.key == NetworkRxKey || pt.key == NetworkTxKey) ==>
      && rd.net.0 > 0 && rd.net.1 > 0
      && pt == Point(host, pt.key, if pt.key == NetworkRxKey then rd.net.0 as real else rd.net.1 as real)
    ensures rd.net.0 > 0 && rd.net.1 > 0 ==>
      && OnlinePoints(host, rd)[0] == Point(host, NetworkRxKey, rd.net.0 as real)
      && OnlinePoints(host, rd)[1] == Point(host, NetworkTxKey, rd.net.1 as real)
  {
    CycleKeysDistinct();
    var ps := OnlinePoints(host, rd);
    forall pt | pt in ps && (pt.key == NetworkRxKey || pt.key == NetworkTxKey)
      ensures pt in NetPoints(host, rd.net.0, rd.net.1)
    {
      assert pt in Measurements(host, rd) || pt == StatusPoint(host, true);
    }
  }

  /**
   * Lines 216-219: the two network points are sent exactly when the device is
   * online and both counters are positive, first in the trace, once each, and
   * never otherwise.
   */
  lemma NetworkGate(pkgs: seq<Package>, oracle: Oracle, parse: FloatParser, udid: string, host: string)
    requires InputsOk(pkgs, oracle, parse, udid)
    ensures !IsDeviceOnline(udid, oracle).online ==>
      forall pt :: pt in ProcessDeviceMain(pkgs, oracle, parse, udid, host).points ==>
        pt.key != NetworkRxKey && pt.key != NetworkTxKey
    ensures IsDeviceOnline(udid, oracle).online ==>
      var ps := ProcessDeviceMain(pkgs, oracle, parse, udid, host).points;
      var net := Read(pkgs, oracle, parse, udid, host).net;
      && (forall pt :: pt in ps && (pt.key == NetworkRxKey || pt.key == NetworkTxKey) ==>
            && net.0 > 0 && net.1 > 0
            && pt == Point(host, pt.key, if pt.key == NetworkRxKey then net.0 as real else net.1 as real))
      && (net.0 > 0 && net.1 > 0 ==>
            ps[0] == Point(host, NetworkRxKey, net.0 as real) && ps[1] == Point(host, NetworkTxKey, net.1 as real))
      && Keyed(ps, KeyIs(NetworkRxKey)) == (if net.0 > 0 && net.1 > 0 then [Point(host, NetworkRxKey, net.0 as real)] else [])
      && Keyed(ps, KeyIs(NetworkTxKey)) == (if net.0 > 0 && net.1 > 0 then [Point(host, NetworkTxKey, net.1 as real)] else [])
  {
    if IsDeviceOnline(udid, oracle).online {
      var rd := Read(pkgs, oracle, parse, udid, host);
      var ps := ProcessDeviceMain(pkgs, oracle, parse, udid, host).points;
      var net := rd.net;
      OnlineRun(pkgs, oracle, parse, udid, host);
      OnlineNetwork(host, rd);
      assert && Keyed(ps, KeyIs(NetworkRxKey)) == (if net.0 > 0 && net.1 > 0 then [Point(host, NetworkRxKey, net.0 as real)] else [])
             && Keyed(ps, KeyIs(NetworkTxKey)) == (if net.0 > 0 && net.1 > 0 then [Point(host, NetworkTxKey, net.1 as real)] else [])
      by {
        OnlineGaugesKeyed(host, rd);
      }
    } else {
      CycleKeysDistinct();
    }
  }

  /**
   * Every value the worker gates on positivity (network, uptime, CPU, memory
   * samples, battery) reaches the server only when positive: the only points
   * that can carry zero or a negative value are the status and the trend points.
   */
  lemma GatedValuesPositive(pkgs: seq<Package>, oracle: Oracle, parse: FloatParser, udid: string, host: string)
    requires InputsOk(pkgs, oracle, parse, udid)
    ensures var r := ProcessDeviceMain(pkgs, oracle, parse, udid, host);
      forall pt :: pt in r.points && pt.key != OnlineStatusKey && !IsLeakKey(pt.key) ==> pt.value > 0.0
  {
    var ps := ProcessDeviceMain(pkgs, oracle, parse, udid, host).points;
    if IsDeviceOnline(udid, oracle).online {
      var rd := Read(pkgs, oracle, parse, udid, host);
      var ms := Measurements(host, rd);
      OnlineRun(pkgs, oracle, parse, udid, host);
      assert ps == ms + [StatusPoint(host, true)];
      forall pt | pt in ps && pt.key != OnlineStatusKey && !IsLeakKey(pt.key) ensures pt.value > 0.0 {
        assert pt in ms;
        assert Measured(pt, host, rd);
      }
    } else {
      assert ps == [StatusPoint(host, false)];
    }
  }

  /** No point sent before the trend points is a trend point. */
  lemma FrontNotLeak(host: string, rd: Readings)
    requires Analysable(rd.sampling, host)
    ensures Keyed(NetPoints(host, rd.net.0, rd.net.1)
      + (Gate(host, UptimeKey, rd.uptime) + Gate(host, CpuKey, rd.cpu))
      + rd.sampling.points, IsLeakKey) == []
  {
    CycleKeysDistinct();
    var net := NetPoints(host, rd.net.0, rd.net.1);
    var gauges := Gate(host, UptimeKey, rd.uptime) + Gate(host, CpuKey, rd.cpu);
    var usage := rd.sampling.points;
    forall pt | pt in usage ensures !IsLeakKey(pt.key) {
      KindsDisjoint(pt.key);
    }
    assert forall pt: Point :: pt in net + gauges ==> !IsLeakKey(pt.key);
    KeyedNone(net + gauges + usage, IsLeakKey);
  }

  /** The trend points of the analysis are all trend points. */
  lemma AnalyzeAllLeak(host: string, series: seq<Series>)
    requires forall i :: 0 <= i < |series| ==> Divisible(series[i].samples)
    ensures Keyed(Analyze(host, series), IsLeakKey) == Analyze(host, series)
  {
    var leaks := Analyze(host, series);
    forall pt | pt in leaks ensures IsLeakKey(pt.key) {
      var i :| 0 <= i < |leaks| && leaks[i] == pt;
      PackageKeysDistinct(series[i].pkg.id, series[i].pkg.id);
    }
    KeyedAll(leaks, IsLeakKey);
  }

  /** In one online cycle, the trend points are exactly the analysis of the sampled series. */
  lemma OnlineLeaks(host: string, rd: Readings)
    requires Analysable(rd.sampling, host)
    ensures Keyed(OnlinePoints(host, rd), IsLeakKey) == Analyze(host, rd.sampling.series)
  {
    var front := NetPoints(host, rd.net.0, rd.net.1)
      + (Gate(host, UptimeKey, rd.uptime) + Gate(host, CpuKey, rd.cpu))
      + rd.sampling.points;
    var leaks := Analyze(host, rd.sampling.series);
    var bat := Gate(host, BatteryKey, rd.battery as real);
    var st := [StatusPoint(host, true)];
    assert OnlinePoints(host, rd) == front + leaks + bat + st;
    KeyedConcat(front + leaks + bat, st, IsLeakKey);
    KeyedConcat(front + leaks, bat, IsLeakKey);
    KeyedConcat(front, leaks, IsLeakKey);
    FrontNotLeak(host, rd);
    AnalyzeAllLeak(host, rd.sampling.series);
    CycleKeysDistinct();
    KeyedNone(bat, IsLeakKey);
    KeyedNone(st, IsLeakKey);
  }

  /** The `memory.usage[<id>]` points that carry the readings `xs`, in order. */
  function UsageTrail(host: string, id: string, xs: seq<int>): (r: seq<Point>)
    ensures |r| == |xs|
    ensures forall i :: 0 <= i < |xs| ==> r[i] == Point(host, UsageKey(id), xs[i] as real)
  {
    seq(|xs|, i requires 0 <= i < |xs| => Point(host, UsageKey(id), xs[i] as real))
  }

  lemma UsageTrailAppend(host: string, id: string, a: seq<int>, b: seq<int>)
    ensures UsageTrail(host, id, a + b) == UsageTrail(host, id, a) + UsageTrail(host, id, b)
  {
    assert forall i :: 0 <= i < |a| + |b| ==> (a + b)[i] == if i < |a| then a[i] else b[i - |a|];
  }

  /** A gated usage point of package id `id` counts for id `id'` only when the two ids agree. */
  lemma GateUsage(host: string, id: string, id': string, m: int)
    ensures Keyed(Gate(host, UsageKey(id), m as real), KeyIs(UsageKey(id'))) ==
      if id == id' then UsageTrail(host, id, Keep(m)) else []
  {
    PackageKeysDistinct(id, id');
    var g := Gate(host, UsageKey(id), m as real);
    if id == id' {
      KeyedAll(g, KeyIs(UsageKey(id')));
    } else {
      KeyedNone(g, KeyIs(UsageKey(id')));
    }
  }

  /** Within one round from package `p` on, package `q` gets its reading's point if the reading is positive, and nothing else. */
  lemma {:induction false} RoundUsage(pkgs: seq<Package>, row: seq<int>, host: string, p: nat, q: nat)
    requires |row| == |pkgs| && p <= |pkgs| && q < |pkgs| && DistinctIds(pkgs)
    ensures Keyed(RoundPoints(pkgs, row, host, p), KeyIs(UsageKey(pkgs[q].id))) ==
      if p <= q then UsageTrail(host, pkgs[q].id, Keep(row[q])) else []
    decreases |pkgs| - p
  {
    var isKey := KeyIs(UsageKey(pkgs[q].id));
    if p < |pkgs| {
      var g := Gate(host, UsageKey(pkgs[p].id), row[p] as real);
      RoundUsage(pkgs, row, host, p + 1, q);
      KeyedConcat(g, RoundPoints(pkgs, row, host, p + 1), isKey);
      GateUsage(host, pkgs[p].id, pkgs[q].id, row[p]);
      assert p < q ==> pkgs[p].id != pkgs[q].id;
      assert q < p ==> pkgs[q].id != pkgs[p].id;
    }
  }

  /**
   * Over the rounds from `round` on, the points of package `q` carry exactly
   * its positive readings, round after round: the samples its series keeps.
   */
  lemma {:induction false} TableUsage(pkgs: seq<Package>, table: seq<seq<int>>, host: string, round: nat, q: nat)
    requires Rectangular(table, |pkgs|) && round <= |table| && q < |pkgs| && DistinctIds(pkgs)
    ensures Keyed(TablePoints(pkgs, table, host, round), KeyIs(UsageKey(pkgs[q].id))) ==
      UsageTrail(host, pkgs[q].id, Positives(Column(table, q, round)))
    decreases |table| - round
  {
    var isKey := KeyIs(UsageKey(pkgs[q].id));
    if round == |table| {
      assert Column(table, q, round) == [];
    } else {
      TableUsage(pkgs, table, host, round + 1, q);
      RoundUsage(pkgs, table[round], host, 0, q);
      KeyedConcat(RoundPoints(pkgs, table[round], host, 0), TablePoints(pkgs, table, host, round + 1), isKey);
      ColumnStep(table, q, round);
      UsageTrailAppend(host, pkgs[q].id, Keep(table[round][q]), Positives(Column(table, q, round + 1)));
    }
  }

  /** The usage points are the only points of a cycle with a usage key. */
  lemma OnlineUsage(host: string, rd: Readings, isKey: string -> bool)
    requires Analysable(rd.sampling, host)
    requires forall k :: isKey(k) ==> IsUsageKey(k)
    ensures Keyed(OnlinePoints(host, rd), isKey) == Keyed(rd.sampling.points, isKey)
  {
    var net := NetPoints(host, rd.net.0, rd.net.1);
    var gauges := Gate(host, UptimeKey, rd.uptime) + Gate(host, CpuKey, rd.cpu);
    var rest := Analyze(host, rd.sampling.series) + Gate(host, BatteryKey, rd.battery as real) + [StatusPoint(host, true)];
    assert OnlinePoints(host, rd) == (net + gauges) + rd.sampling.points + rest;
    SegmentsUsage(host, rd, isKey);
  }

  /** Around the sampling points, no segment of an online cycle carries a usage key. */
  lemma SegmentsUsage(host: string, rd: Readings, isKey: string -> bool)
    requires Analysable(rd.sampling, host)
    requires forall k :: isKey(k) ==> IsUsageKey(k)
    ensures var net := NetPoints(host, rd.net.0, rd.net.1);
      var gauges := Gate(host, UptimeKey, rd.uptime) + Gate(host, CpuKey, rd.cpu);
      var rest := Analyze(host, rd.sampling.series) + Gate(host, BatteryKey, rd.battery as real) + [StatusPoint(host, true)];
      Keyed((net + gauges) + rd.sampling.points + rest, isKey) == Keyed(rd.sampling.points, isKey)
  {
    var net := NetPoints(host, rd.net.0, rd.net.1);
    var gauges := Gate(host, UptimeKey, rd.uptime) + Gate(host, CpuKey, rd.cpu);
    var usage := rd.sampling.points;
    var leaks := Analyze(host, rd.sampling.series);
    var rest := leaks + Gate(host, BatteryKey, rd.battery as real) + [StatusPoint(host, true)];
    CycleKeysDistinct();
    forall pt | pt in leaks ensures !isKey(pt.key) {
      var i :| 0 <= i < |leaks| && leaks[i] == pt;
      PackageKeysDistinct(rd.sampling.series[i].pkg.id, rd.sampling.series[i].pkg.id);
    }
    KeyedNone(net + gauges, isKey);
    KeyedNone(rest, isKey);
    KeyedConcat((net + gauges) + usage, rest, isKey);
    KeyedConcat(net + gauges, usage, isKey);
  }

  /** In an online cycle, package `q`'s usage points carry its positive readings, in round order. */
  lemma SampledUsage(pkgs: seq<Package>, table: seq<seq<int>>, host: string, rd: Readings, q: nat)
    requires Rectangular(table, |pkgs|) && DistinctIds(pkgs) && q < |pkgs|
    requires rd.sampling == Sample(pkgs, table, host) && Analysable(rd.sampling, host)
    ensures Keyed(OnlinePoints(host, rd), KeyIs(UsageKey(pkgs[q].id))) ==
      UsageTrail(host, pkgs[q].id, Positives(Column(table, q, 0)))
  {
    var isKey := KeyIs(UsageKey(pkgs[q].id));
    PackageKeysDistinct(pkgs[q].id, pkgs[q].id);
    assert forall k :: isKey(k) ==> IsUsageKey(k);
    OnlineUsage(host, rd, isKey);
    TableUsage(pkgs, table, host, 0, q);
  }

  /**
   * Lines 237-242: the `memory.usage` points of a cycle are the positive
   * readings of the sampling rounds, round after round and in catalog order
   * within a round; an offline device sends none.
   */
  lemma UsageInOrder(pkgs: seq<Package>, oracle: Oracle, parse: FloatParser, udid: string, host: string)
    requires InputsOk(pkgs, oracle, parse, udid)
    ensures var ps := ProcessDeviceMain(pkgs, oracle, parse, udid, host).points;
      && (!IsDeviceOnline(udid, oracle).online ==> Keyed(ps, IsUsageKey) == [])
      && (IsDeviceOnline(udid, oracle).online ==>
            Keyed(ps, IsUsageKey) == TablePoints(pkgs, MemTable(pkgs, oracle, udid), host, 0))
  {
    CycleKeysDistinct();
    if IsDeviceOnline(udid, oracle).online {
      var rd := Read(pkgs, oracle, parse, udid, host);
      OnlineRun(pkgs, oracle, parse, udid, host);
      OnlineUsage(host, rd, IsUsageKey);
      KeyedAll(rd.sampling.points, IsUsageKey);
    } else {
      KeyedNone([StatusPoint(host, false)], IsUsageKey);
    }
  }

  /**
   * Lines 237-242 per application: the `memory.usage[<id>]` points an online
   * worker sends carry exactly that application's positive readings, in round
   * order, which are also the samples its trend is computed from.
   */
  lemma UsagePerPackage(pkgs: seq<Package>, oracle: Oracle, parse: FloatParser, udid: string, host: string, q: nat)
    requires InputsOk(pkgs, oracle, parse, udid) && IsDeviceOnline(udid, oracle).online
    requires DistinctIds(pkgs) && q < |pkgs|
    ensures Keyed(ProcessDeviceMain(pkgs, oracle, parse, udid, host).points, KeyIs(UsageKey(pkgs[q].id))) ==
      UsageTrail(host, pkgs[q].id, Sample(pkgs, MemTable(pkgs, oracle, udid), host).series[q].samples)
  {
    var table := MemTable(pkgs, oracle, udid);
    var rd := Read(pkgs, oracle, parse, udid, host);
    OnlineRun(pkgs, oracle, parse, udid, host);
    assert ProcessDeviceMain(pkgs, oracle, parse, udid, host).points == OnlinePoints(host, rd);
    SampledUsage(pkgs, table, host, rd, q);
  }

  /**
   * Lines 245-246 with `analyze_memory_data`: an online worker sends exactly
   * one trend point per watched application, in catalog order, each the
   * verdict on that application's positive samples; an offline one sends none.
   */
  lemma LeakPointPerPackage(pkgs: seq<Package>, oracle: Oracle, parse: FloatParser, udid: string, host: string)
    requires InputsOk(pkgs, oracle, parse, udid)
    ensures var leaks := Keyed(ProcessDeviceMain(pkgs, oracle, parse, udid, host).points, IsLeakKey);
      && (!IsDeviceOnline(udid, oracle).online ==> leaks == [])
      && (IsDeviceOnline(udid, oracle).online ==>
        && |leaks| == |pkgs|
        && forall q :: 0 <= q < |pkgs| ==>
          var samples := Sample(pkgs, MemTable(pkgs, oracle, udid), host).series[q].samples;
          leaks[q] == Point(host, LeakKey(pkgs[q].id), LeakValue(samples)))
  {
    CycleKeysDistinct();
    if IsDeviceOnline(udid, oracle).online {
      OnlineRun(pkgs, oracle, parse, udid, host);
      OnlineLeaks(host, Read(pkgs, oracle, parse, udid, host));
    } else {
      KeyedNone([StatusPoint(host, false)], IsLeakKey);
    }
  }

  /**
   * The trend of each application is computed from at most `CheckDuration`
   * samples, all positive, so every trend value decodes to the series' verdict.
   */
  lemma TrendDecodes(pkgs: seq<Package>, oracle: Oracle, parse: FloatParser, udid: string, host: string)
    requires InputsOk(pkgs, oracle, parse, udid) && IsDeviceOnline(udid, oracle).online
    ensures forall q :: 0 <= q < |pkgs| ==>
      var samples := Sample(pkgs, MemTable(pkgs, oracle, udid), host).series[q].samples;
      |samples| <= CheckDuration && Decode(LeakValue(samples)) == Classify(samples)
  {
    var s := Sample(pkgs, MemTable(pkgs, oracle, udid), host);
    SamplesBounded(pkgs, MemTable(pkgs, oracle, udid), host);
    forall q | 0 <= q < |pkgs|
      ensures |s.series[q].samples| <= CheckDuration && Decode(LeakValue(s.series[q].samples)) == Classify(s.series[q].samples)
    {
      LeakValueDecodes(s.series[q].samples);
    }
  }
}
