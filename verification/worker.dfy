/**
 * `process_device_main`: one health cycle for one device, as the sequence of
 * points it sends to Zabbix and the adb commands it issues. The device's
 * answers come from an `Oracle`; the 60-second sleeps between sampling rounds
 * are timing only and are not modelled.
 */
module Worker {
  import opened Wrappers
  import opened Telemetry
  import opened Bridge
  import opened Extractors
  import opened Trend

  /** `check_duration`: the number of memory-sampling rounds in one health cycle. */
  const CheckDuration: nat := 5

  // The order in which an online worker issues its commands: get-state is
  // tick 0, then network, uptime and CPU, then `CheckDuration` rounds over the
  // catalog, then the battery.
  const NetTick: nat := 1
  const UptimeTick: nat := 2
  const CpuTick: nat := 3

  function MemTick(n: nat, round: nat, p: nat): nat {
    4 + round * n + p
  }

  function BatteryTick(n: nat): nat {
    4 + CheckDuration * n
  }

  /** The commands a worker for an online device issues, in order. */
  function OnlineCommands(pkgs: seq<Package>, udid: string): seq<Command> {
    [GetState(udid), NetDev(udid), ReadUptime(udid), CpuInfo(udid)]
    + MemCommands(pkgs, udid, CheckDuration)
    + [BatteryInfo(udid)]
  }

  /** One `dumpsys meminfo` per package, per round, for `rounds` rounds. */
  function MemCommands(pkgs: seq<Package>, udid: string, rounds: nat): (cs: seq<Command>)
    ensures |cs| == rounds * |pkgs|
  {
    if rounds == 0 then []
    else MemCommands(pkgs, udid, rounds - 1) + seq(|pkgs|, p requires 0 <= p < |pkgs| => MemInfo(udid, pkgs[p].id))
  }

  lemma {:induction false} MemCommandsAt(pkgs: seq<Package>, udid: string, rounds: nat, round: nat, p: nat)
    requires round < rounds && p < |pkgs|
    ensures round * |pkgs| + p < rounds * |pkgs|
    ensures MemCommands(pkgs, udid, rounds)[round * |pkgs| + p] == MemInfo(udid, pkgs[p].id)
  {
    var n := |pkgs|;
    assert (rounds - 1) * n + n == rounds * n;
    if round < rounds - 1 {
      assert round * n + p < (round + 1) * n <= (rounds - 1) * n;
      MemCommandsAt(pkgs, udid, rounds - 1, round, p);
    } else {
      assert round * n + p == (rounds - 1) * n + p;
    }
  }

  /**
   * The tick layout is the issue order: the command an online worker issues
   * at each tick is the one whose output it reads at that tick.
   */
  lemma IssueOrder(pkgs: seq<Package>, udid: string)
    ensures |OnlineCommands(pkgs, udid)| == BatteryTick(|pkgs|) + 1
    ensures OnlineCommands(pkgs, udid)[0] == GetState(udid)
    ensures OnlineCommands(pkgs, udid)[NetTick] == NetDev(udid)
    ensures OnlineCommands(pkgs, udid)[UptimeTick] == ReadUptime(udid)
    ensures OnlineCommands(pkgs, udid)[CpuTick] == CpuInfo(udid)
    ensures forall round: nat, p: nat :: round < CheckDuration && p < |pkgs| ==>
      MemTick(|pkgs|, round, p) < |OnlineCommands(pkgs, udid)| &&
      OnlineCommands(pkgs, udid)[MemTick(|pkgs|, round, p)] == MemInfo(udid, pkgs[p].id)
    ensures OnlineCommands(pkgs, udid)[BatteryTick(|pkgs|)] == BatteryInfo(udid)
  {
    var cs := OnlineCommands(pkgs, udid);
    var mem := MemCommands(pkgs, udid, CheckDuration);
    forall round: nat, p: nat | round < CheckDuration && p < |pkgs|
      ensures MemTick(|pkgs|, round, p) < |cs| && cs[MemTick(|pkgs|, round, p)] == MemInfo(udid, pkgs[p].id)
    {
      MemCommandsAt(pkgs, udid, CheckDuration, round, p);
      assert cs[4 + (round * |pkgs| + p)] == mem[round * |pkgs| + p];
    }
  }

  // ---------------------------------------------------------------------------
  // Memory sampling (lines 231-244)
  // ---------------------------------------------------------------------------

  /** What `run_command` returned for package `p` in sampling round `round`. */
  function MemOutput(oracle: Oracle, udid: string, pkgs: seq<Package>, round: nat, p: nat): Option<string>
    requires p < |pkgs|
  {
    Output(oracle, MemTick(|pkgs|, round, p), MemInfo(udid, pkgs[p].id))
  }

  /** Every memory reading of the cycle parses, so no `int()` raises. */
  ghost predicate SamplesOk(oracle: Oracle, udid: string, pkgs: seq<Package>) {
    forall round: nat, p: nat :: round < CheckDuration && p < |pkgs| ==> MemOutputOk(MemOutput(oracle, udid, pkgs, round, p))
  }

  /** A table of readings: one row per round, one column per package. */
  ghost predicate Rectangular(table: seq<seq<int>>, n: nat) {
    forall round :: 0 <= round < |table| ==> |table[round]| == n
  }

  /**
   * The `get_memory_usage` readings of a health cycle, row `round` holding the
   * readings of round `round` in catalog order.
   */
  function MemTable(pkgs: seq<Package>, oracle: Oracle, udid: string): (t: seq<seq<int>>)
    requires SamplesOk(oracle, udid, pkgs)
    ensures |t| == CheckDuration && Rectangular(t, |pkgs|)
    ensures forall round: nat, p: nat :: round < CheckDuration && p < |pkgs| ==>
      t[round][p] == MemoryUsage(MemOutput(oracle, udid, pkgs, round, p))
  {
    seq(CheckDuration, round requires 0 <= round < CheckDuration =>
      seq(|pkgs|, p requires 0 <= p < |pkgs| => MemoryUsage(MemOutput(oracle, udid, pkgs, round, p))))
  }

  /** The readings of package `q` from round `from` to the last round. */
  function Column(table: seq<seq<int>>, q: nat, from: nat): (c: seq<int>)
    requires forall round :: 0 <= round < |table| ==> q < |table[round]|
    requires from <= |table|
    ensures |c| == |table| - from
    ensures forall k :: 0 <= k < |c| ==> c[k] == table[from + k][q]
  {
    seq(|table| - from, k requires 0 <= k < |table| - from => table[from + k][q])
  }

  /** The one-element list a positive reading contributes, or nothing. */
  function Keep(m: int): seq<int> {
    if m > 0 then [m] else []
  }

  /** The positive readings, in order. */
  function Positives(xs: seq<int>): (r: seq<int>)
    ensures |r| <= |xs|
    ensures forall i :: 0 <= i < |r| ==> r[i] > 0
    ensures forall x :: x in r <==> x in xs && x > 0
    ensures forall x :: multiset(r)[x] == if x > 0 then multiset(xs)[x] else 0
  {
    if |xs| == 0 then []
    else
      assert xs == [xs[0]] + xs[1..];
      Keep(xs[0]) + Positives(xs[1..])
  }

  /** Filtering distributes over concatenation: the samples of two stretches, one after the other. */
  lemma {:induction false} PositivesAppend(a: seq<int>, b: seq<int>)
    ensures Positives(a + b) == Positives(a) + Positives(b)
    decreases |a|
  {
    if |a| == 0 {
      assert a + b == b;
    } else {
      assert (a + b)[0] == a[0] && (a + b)[1..] == a[1..] + b;
      PositivesAppend(a[1..], b);
    }
  }

  /** The points sent so far and the samples kept so far, one series per package. */
  datatype Sampling = Sampling(points: seq<Point>, series: seq<Series>)

  /**
   * Each reading in the table is the `get_memory_usage` value of the command an
   * online worker issues at that reading's tick.
   */
  lemma MemTableReadsIssued(pkgs: seq<Package>, oracle: Oracle, udid: string, round: nat, p: nat)
    requires SamplesOk(oracle, udid, pkgs) && round < CheckDuration && p < |pkgs|
    ensures MemTick(|pkgs|, round, p) < |OnlineCommands(pkgs, udid)|
    ensures OnlineCommands(pkgs, udid)[MemTick(|pkgs|, round, p)] == MemInfo(udid, pkgs[p].id)
    ensures Output(oracle, MemTick(|pkgs|, round, p), OnlineCommands(pkgs, udid)[MemTick(|pkgs|, round, p)])
      == MemOutput(oracle, udid, pkgs, round, p)
    ensures MemTable(pkgs, oracle, udid)[round][p] ==
      MemoryUsage(Output(oracle, MemTick(|pkgs|, round, p), OnlineCommands(pkgs, udid)[MemTick(|pkgs|, round, p)]))
  {
    IssueOrder(pkgs, udid);
  }

  /**
   * The usage points of one round from package `p` on, in catalog order: one
   * `memory.usage[<id>]` point per positive reading (lines 238-242).
   */
  function RoundPoints(pkgs: seq<Package>, row: seq<int>, host: string, p: nat): seq<Point>
    requires |row| == |pkgs| && p <= |pkgs|
    decreases |pkgs| - p
  {
    if p == |pkgs| then [] else Gate(host, UsageKey(pkgs[p].id), row[p] as real) + RoundPoints(pkgs, row, host, p + 1)
  }

  /** The usage points of the rounds from `round` on, round after round. */
  function TablePoints(pkgs: seq<Package>, table: seq<seq<int>>, host: string, round: nat): seq<Point>
    requires Rectangular(table, |pkgs|) && round <= |table|
    decreases |table| - round
  {
    if round == |table| then [] else RoundPoints(pkgs, table[round], host, 0) + TablePoints(pkgs, table, host, round + 1)
  }

  /** A `memory.usage[<id>]` point the sampling loop sends. */
  predicate UsagePoint(pt: Point, host: string) {
    pt.host == host && IsUsageKey(pt.key) && pt.value > 0.0
  }

  /**
   * The inner loop at lines 238-242 from package `p` on: a reading is kept and
   * sent only when it is positive.
   */
  function SampleRound(pkgs: seq<Package>, row: seq<int>, host: string, p: nat, acc: Sampling): (r: Sampling)
    requires |row| == |pkgs| && p <= |pkgs| && |acc.series| == |pkgs|
    ensures |r.series| == |pkgs|
    ensures forall q :: 0 <= q < |pkgs| ==> r.series[q].pkg == acc.series[q].pkg
    ensures forall q :: 0 <= q < |pkgs| ==>
      r.series[q].samples == acc.series[q].samples + (if q < p then [] else Keep(row[q]))
    ensures forall pt :: pt in r.points ==> pt in acc.points || UsagePoint(pt, host)
    ensures r.points == acc.points + RoundPoints(pkgs, row, host, p)
    decreases |pkgs| - p
  {
    if p == |pkgs| then
      assert forall q :: 0 <= q < |pkgs| ==> acc.series[q].samples + [] == acc.series[q].samples;
      assert acc.points + [] == acc.points;
      acc
    else
      var m := row[p];
      var next :=
        if m > 0 then
          Sampling(acc.points + [Point(host, UsageKey(pkgs[p].id), m as real)],
                   acc.series[p := acc.series[p].(samples := acc.series[p].samples + [m])])
        else acc;
      PackageKeysDistinct(pkgs[p].id, pkgs[p].id);
      var r := SampleRound(pkgs, row, host, p + 1, next);
      assert next.points == acc.points + Gate(host, UsageKey(pkgs[p].id), m as real);
      assert r.points == acc.points + (Gate(host, UsageKey(pkgs[p].id), m as real) + RoundPoints(pkgs, row, host, p + 1));
      r
  }

  /** The outer loop at line 237 from round `round` on. */
  function SampleRounds(pkgs: seq<Package>, table: seq<seq<int>>, host: string, round: nat, acc: Sampling): (r: Sampling)
    requires Rectangular(table, |pkgs|) && round <= |table| && |acc.series| == |pkgs|
    ensures |r.series| == |pkgs|
    ensures forall q :: 0 <= q < |pkgs| ==> r.series[q].pkg == acc.series[q].pkg
    ensures forall q :: 0 <= q < |pkgs| ==>
      r.series[q].samples == acc.series[q].samples + Positives(Column(table, q, round))
    ensures forall pt :: pt in r.points ==> pt in acc.points || UsagePoint(pt, host)
    decreases |table| - round
  {
    if round == |table| then
      assert forall q :: 0 <= q < |pkgs| ==> acc.series[q].samples + Positives(Column(table, q, round)) == acc.series[q].samples;
      acc
    else
      var next := SampleRound(pkgs, table[round], host, 0, acc);
      var r := SampleRounds(pkgs, table, host, round + 1, next);
      assert forall q :: 0 <= q < |pkgs| ==>
        r.series[q].samples == acc.series[q].samples + Positives(Column(table, q, round)) by {
        forall q | 0 <= q < |pkgs|
          ensures r.series[q].samples == acc.series[q].samples + Positives(Column(table, q, round))
        {
          ColumnStep(table, q, round);
        }
      }
      r
  }

  /** The points of the remaining rounds are sent round after round, each round in catalog order. */
  lemma {:induction false} SampleRoundsPoints(pkgs: seq<Package>, table: seq<seq<int>>, host: string, round: nat, acc: Sampling)
    requires Rectangular(table, |pkgs|) && round <= |table| && |acc.series| == |pkgs|
    ensures SampleRounds(pkgs, table, host, round, acc).points == acc.points + TablePoints(pkgs, table, host, round)
    decreases |table| - round
  {
    if round == |table| {
      assert acc.points + [] == acc.points;
    } else {
      var next := SampleRound(pkgs, table[round], host, 0, acc);
      var here := RoundPoints(pkgs, table[round], host, 0);
      var later := TablePoints(pkgs, table, host, round + 1);
      assert SampleRounds(pkgs, table, host, round, acc) == SampleRounds(pkgs, table, host, round + 1, next);
      assert next.points == acc.points + here;
      SampleRoundsPoints(pkgs, table, host, round + 1, next);
      assert TablePoints(pkgs, table, host, round) == here + later;
      AppendAssociative(acc.points, here, later);
    }
  }

  lemma ColumnStep(table: seq<seq<int>>, q: nat, round: nat)
    requires forall i :: 0 <= i < |table| ==> q < |table[i]|
    requires round < |table|
    ensures Positives(Column(table, q, round)) == Keep(table[round][q]) + Positives(Column(table, q, round + 1))
  {
    var col := Column(table, q, round);
    assert col[1..] == Column(table, q, round + 1);
  }

  function InitialSeries(pkgs: seq<Package>): (s: seq<Series>)
    ensures |s| == |pkgs|
    ensures forall q :: 0 <= q < |pkgs| ==> s[q] == Series(pkgs[q], [])
  {
    seq(|pkgs|, q requires 0 <= q < |pkgs| => Series(pkgs[q], []))
  }

  /**
   * The sampling of one health cycle: for each package, the positive readings
   * of the rounds in order, each also sent as a `memory.usage` point, round
   * after round and in catalog order within a round.
   */
  function Sample(pkgs: seq<Package>, table: seq<seq<int>>, host: string): (s: Sampling)
    requires Rectangular(table, |pkgs|)
    ensures |s.series| == |pkgs|
    ensures forall q :: 0 <= q < |pkgs| ==> s.series[q] == Series(pkgs[q], Positives(Column(table, q, 0)))
    ensures forall pt :: pt in s.points ==> UsagePoint(pt, host)
    ensures s.points == TablePoints(pkgs, table, host, 0)
  {
    SampleRoundsPoints(pkgs, table, host, 0, Sampling([], InitialSeries(pkgs)));
    SampleRounds(pkgs, table, host, 0, Sampling([], InitialSeries(pkgs)))
  }

  /**
   * Each series holds at most one sample per round, all positive; so the
   * trend analysis never divides by zero when the worker calls it.
   */
  lemma SamplesBounded(pkgs: seq<Package>, table: seq<seq<int>>, host: string)
    requires Rectangular(table, |pkgs|)
    ensures forall q :: 0 <= q < |pkgs| ==>
      var samples := Sample(pkgs, table, host).series[q].samples;
      && |samples| <= |table|
      && (forall i :: 0 <= i < |samples| ==> samples[i] > 0)
      && Divisible(samples)
  {
  }

  // ---------------------------------------------------------------------------
  // The worker
  // ---------------------------------------------------------------------------

  /** Everything an online worker parses is well formed, so no `int()` or `float()` raises. */
  ghost predicate InputsOk(pkgs: seq<Package>, oracle: Oracle, parse: FloatParser, udid: string) {
    IsDeviceOnline(udid, oracle).online ==>
      && NetOutputOk(Output(oracle, NetTick, NetDev(udid)))
      && UptimeOutputOk(Output(oracle, UptimeTick, ReadUptime(udid)), parse)
      && SamplesOk(oracle, udid, pkgs)
      && BatteryOutputOk(Output(oracle, BatteryTick(|pkgs|), BatteryInfo(udid)))
  }

  /** The commands one worker issued and the points it sent, each in order. */
  datatype Run = Run(issued: seq<Command>, points: seq<Point>)

  /** A point sent only when its value is positive (lines 223-229, 251-252). */
  function Gate(host: string, key: string, v: real): seq<Point> {
    if v > 0.0 then [Point(host, key, v)] else []
  }

  /** The network points: both counters, only when both are positive (lines 217-219). */
  function NetPoints(host: string, rx: int, tx: int): seq<Point> {
    if rx > 0 && tx > 0 then [Point(host, NetworkRxKey, rx as real), Point(host, NetworkTxKey, tx as real)] else []
  }

  /** The readings of an online worker. */
  datatype Readings = Readings(net: (int, int), uptime: real, cpu: real, sampling: Sampling, battery: int)

  /** A sampling whose series the analysis accepts and whose points are all usage points of `host`. */
  ghost predicate Analysable(s: Sampling, host: string) {
    && (forall q :: 0 <= q < |s.series| ==> Divisible(s.series[q].samples))
    && (forall pt :: pt in s.points ==> UsagePoint(pt, host))
  }

  /** Lines 215-246: what an online worker reads, command by command. */
  function Read(pkgs: seq<Package>, oracle: Oracle, parse: FloatParser, udid: string, host: string): (rd: Readings)
    requires IsDeviceOnline(udid, oracle).online && InputsOk(pkgs, oracle, parse, udid)
    ensures rd.sampling == Sample(pkgs, MemTable(pkgs, oracle, udid), host)
    ensures Analysable(rd.sampling, host)
  {
    var table := MemTable(pkgs, oracle, udid);
    SamplesBounded(pkgs, table, host);
    Readings(
      NetworkUsage(Output(oracle, NetTick, NetDev(udid))),
      UptimeSeconds(Output(oracle, UptimeTick, ReadUptime(udid)), parse),
      CpuUsage(Output(oracle, CpuTick, CpuInfo(udid)), parse),
      Sample(pkgs, table, host),
      BatteryHealth(Output(oracle, BatteryTick(|pkgs|), BatteryInfo(udid))))
  }

  /** A gated point counts under `key'` only when it was sent under that key. */
  lemma KeyedGate(host: string, key: string, v: real, key': string)
    ensures Keyed(Gate(host, key, v), KeyIs(key')) == if key == key' then Gate(host, key, v) else []
  {
    var g := Gate(host, key, v);
    if key == key' {
      KeyedAll(g, KeyIs(key'));
    } else {
      KeyedNone(g, KeyIs(key'));
    }
  }

  /** The network points under one key: the counter sent under it, when the pair passes its gate. */
  lemma KeyedNet(host: string, rx: int, tx: int, key: string)
    ensures Keyed(NetPoints(host, rx, tx), KeyIs(key)) ==
      if rx > 0 && tx > 0 then
        Keyed(Gate(host, NetworkRxKey, rx as real), KeyIs(key)) + Keyed(Gate(host, NetworkTxKey, tx as real), KeyIs(key))
      else []
  {
    if rx > 0 && tx > 0 {
      assert NetPoints(host, rx, tx) == Gate(host, NetworkRxKey, rx as real) + Gate(host, NetworkTxKey, tx as real);
      KeyedConcat(Gate(host, NetworkRxKey, rx as real), Gate(host, NetworkTxKey, tx as real), KeyIs(key));
    }
  }

  /**
   * Under a key that is neither a usage nor a trend key, the measurement
   * segments contribute only their network, uptime, CPU and battery points.
   */
  lemma FrontKeyed(host: string, rd: Readings, key: string)
    requires Analysable(rd.sampling, host)
    requires !IsUsageKey(key) && !IsLeakKey(key)
    ensures var net := NetPoints(host, rd.net.0, rd.net.1);
      var up := Gate(host, UptimeKey, rd.uptime);
      var cpu := Gate(host, CpuKey, rd.cpu);
      var leaks := Analyze(host, rd.sampling.series);
      var bat := Gate(host, BatteryKey, rd.battery as real);
      Keyed(net + (up + cpu) + rd.sampling.points + leaks + bat, KeyIs(key)) ==
        Keyed(net, KeyIs(key)) + Keyed(up, KeyIs(key)) + Keyed(cpu, KeyIs(key)) + Keyed(bat, KeyIs(key))
  {
    var isKey := KeyIs(key);
    var net := NetPoints(host, rd.net.0, rd.net.1);
    var up := Gate(host, UptimeKey, rd.uptime);
    var cpu := Gate(host, CpuKey, rd.cpu);
    var usage := rd.sampling.points;
    var leaks := Analyze(host, rd.sampling.series);
    var bat := Gate(host, BatteryKey, rd.battery as real);
    forall pt | pt in usage ensures !isKey(pt.key) {
      assert UsagePoint(pt, host);
    }
    forall pt | pt in leaks ensures !isKey(pt.key) {
      var i :| 0 <= i < |leaks| && leaks[i] == pt;
      PackageKeysDistinct(rd.sampling.series[i].pkg.id, rd.sampling.series[i].pkg.id);
    }
    KeyedNone(usage, isKey);
    KeyedNone(leaks, isKey);
    KeyedConcat(net + (up + cpu) + usage + leaks, bat, isKey);
    KeyedConcat(net + (up + cpu) + usage, leaks, isKey);
    KeyedConcat(net + (up + cpu), usage, isKey);
    KeyedConcat(net, up + cpu, isKey);
    KeyedConcat(up, cpu, isKey);
    AppendAssociative(Keyed(net, isKey), Keyed(up, isKey), Keyed(cpu, isKey));
  }

  /**
   * Under each of the five fixed keys, `ps` holds the matching reading exactly
   * once when it passes its gate (both counters positive for the network
   * pair, a positive value otherwise), and no point at all when it does not.
   */
  ghost predicate GaugesSentOnce(ps: seq<Point>, host: string, net: (int, int), up: real, cpu: real, bat: int) {
    && Keyed(ps, KeyIs(NetworkRxKey)) == (if net.0 > 0 && net.1 > 0 then [Point(host, NetworkRxKey, net.0 as real)] else [])
    && Keyed(ps, KeyIs(NetworkTxKey)) == (if net.0 > 0 && net.1 > 0 then [Point(host, NetworkTxKey, net.1 as real)] else [])
    && Keyed(ps, KeyIs(UptimeKey)) == (if up > 0.0 then [Point(host, UptimeKey, up)] else [])
    && Keyed(ps, KeyIs(CpuKey)) == (if cpu > 0.0 then [Point(host, CpuKey, cpu)] else [])
    && Keyed(ps, KeyIs(BatteryKey)) == (if bat > 0 then [Point(host, BatteryKey, bat as real)] else [])
  }

  /**
   * Lines 216-229 and 248-252: under each of the five fixed keys the
   * measurements hold that key's reading exactly once when it passes its
   * gate, and nothing at all otherwise.
   */
  lemma GaugesKeyed(host: string, rd: Readings)
    requires Analysable(rd.sampling, host)
    ensures GaugesSentOnce(NetPoints(host, rd.net.0, rd.net.1)
        + (Gate(host, UptimeKey, rd.uptime) + Gate(host, CpuKey, rd.cpu))
        + rd.sampling.points + Analyze(host, rd.sampling.series) + Gate(host, BatteryKey, rd.battery as real),
      host, rd.net, rd.uptime, rd.cpu, rd.battery)
  {
    CycleKeysDistinct();
    GaugeKeyed(host, rd, NetworkRxKey);
    GaugeKeyed(host, rd, NetworkTxKey);
    GaugeKeyed(host, rd, UptimeKey);
    GaugeKeyed(host, rd, CpuKey);
    GaugeKeyed(host, rd, BatteryKey);
  }

  /** The one reading sent under a fixed key, when it passes its gate. */
  function Gauge(host: string, rd: Readings, key: string): seq<Point> {
    if key == NetworkRxKey then (if rd.net.0 > 0 && rd.net.1 > 0 then [Point(host, key, rd.net.0 as real)] else [])
    else if key == NetworkTxKey then (if rd.net.0 > 0 && rd.net.1 > 0 then [Point(host, key, rd.net.1 as real)] else [])
    else if key == UptimeKey then Gate(host, key, rd.uptime)
    else if key == CpuKey then Gate(host, key, rd.cpu)
    else if key == BatteryKey then Gate(host, key, rd.battery as real)
    else []
  }

  lemma GaugeKeyed(host: string, rd: Readings, key: string)
    requires Analysable(rd.sampling, host)
    requires key in {NetworkRxKey, NetworkTxKey, UptimeKey, CpuKey, BatteryKey}
    ensures Keyed(NetPoints(host, rd.net.0, rd.net.1)
        + (Gate(host, UptimeKey, rd.uptime) + Gate(host, CpuKey, rd.cpu))
        + rd.sampling.points + Analyze(host, rd.sampling.series) + Gate(host, BatteryKey, rd.battery as real), KeyIs(key)) ==
      Gauge(host, rd, key)
  {
    CycleKeysDistinct();
    var isKey := KeyIs(key);
    var net := NetPoints(host, rd.net.0, rd.net.1);
    var up := Gate(host, UptimeKey, rd.uptime);
    var cpu := Gate(host, CpuKey, rd.cpu);
    var bat := Gate(host, BatteryKey, rd.battery as real);
    FrontKeyed(host, rd, key);
    KeyedNet(host, rd.net.0, rd.net.1, key);
    KeyedGate(host, UptimeKey, rd.uptime, key);
    KeyedGate(host, CpuKey, rd.cpu, key);
    KeyedGate(host, BatteryKey, rd.battery as real, key);
    KeyedGate(host, NetworkRxKey, rd.net.0 as real, key);
    KeyedGate(host, NetworkTxKey, rd.net.1 as real, key);
    if key == NetworkRxKey || key == NetworkTxKey {
      assert Keyed(up, isKey) == [] && Keyed(cpu, isKey) == [] && Keyed(bat, isKey) == [];
      assert Keyed(net, isKey) == Gauge(host, rd, key);
    } else {
      assert Keyed(net, isKey) == [];
      if key == UptimeKey {
        assert Keyed(cpu, isKey) == [] && Keyed(bat, isKey) == [];
      } else if key == CpuKey {
        assert Keyed(up, isKey) == [] && Keyed(bat, isKey) == [];
      } else {
        assert Keyed(up, isKey) == [] && Keyed(cpu, isKey) == [];
      }
    }
  }

  /**
   * A measurement point of an online cycle: about `host`, not a status point,
   * a network point only if it comes from the network reading, and positive
   * unless it is a trend value.
   */
  ghost predicate Measured(pt: Point, host: string, rd: Readings) {
    && pt.host == host
    && pt.key != OnlineStatusKey
    && (!IsLeakKey(pt.key) ==> pt.value > 0.0)
    && ((pt.key == NetworkRxKey || pt.key == NetworkTxKey) ==> pt in NetPoints(host, rd.net.0, rd.net.1))
  }

  /**
   * The measurement points of an online worker, in sending order (lines
   * 216-252); when both network counters are positive they come first.
   */
  function Measurements(host: string, rd: Readings): (ps: seq<Point>)
    requires Analysable(rd.sampling, host)
    ensures forall pt :: pt in ps ==> Measured(pt, host, rd)
    ensures rd.net.0 > 0 && rd.net.1 > 0 ==>
      |ps| >= 2 && ps[0] == Point(host, NetworkRxKey, rd.net.0 as real) && ps[1] == Point(host, NetworkTxKey, rd.net.1 as real)
    ensures rd.net.0 > 0 && rd.net.1 > 0 <==> Point(host, NetworkRxKey, rd.net.0 as real) in ps
    ensures rd.uptime > 0.0 <==> Point(host, UptimeKey, rd.uptime) in ps
    ensures rd.cpu > 0.0 <==> Point(host, CpuKey, rd.cpu) in ps
    ensures rd.battery > 0 <==> Point(host, BatteryKey, rd.battery as real) in ps
  {
    var net := NetPoints(host, rd.net.0, rd.net.1);
    var gauges := Gate(host, UptimeKey, rd.uptime) + Gate(host, CpuKey, rd.cpu);
    var bat := Gate(host, BatteryKey, rd.battery as real);
    var ps := net + gauges + rd.sampling.points + Analyze(host, rd.sampling.series) + bat;
    SegmentsMeasured(host, rd);
    GaugesSent(host, rd);
    ps
  }

  /**
   * Lines 216-229 and 248-252: under each of the five fixed keys the
   * measurements hold that key's reading once when it passes its gate, and
   * nothing otherwise.
   */
  lemma MeasurementsOnce(host: string, rd: Readings)
    requires Analysable(rd.sampling, host)
    ensures GaugesSentOnce(Measurements(host, rd), host, rd.net, rd.uptime, rd.cpu, rd.battery)
  {
    GaugesKeyed(host, rd);
  }

  /** Each gated reading is in the measurement segments exactly when it passes its gate. */
  lemma GaugesSent(host: string, rd: Readings)
    requires Analysable(rd.sampling, host)
    ensures var ps := NetPoints(host, rd.net.0, rd.net.1)
        + (Gate(host, UptimeKey, rd.uptime) + Gate(host, CpuKey, rd.cpu))
        + rd.sampling.points + Analyze(host, rd.sampling.series) + Gate(host, BatteryKey, rd.battery as real);
      && (rd.net.0 > 0 && rd.net.1 > 0 <==> Point(host, NetworkRxKey, rd.net.0 as real) in ps)
      && (rd.uptime > 0.0 <==> Point(host, UptimeKey, rd.uptime) in ps)
      && (rd.cpu > 0.0 <==> Point(host, CpuKey, rd.cpu) in ps)
      && (rd.battery > 0 <==> Point(host, BatteryKey, rd.battery as real) in ps)
  {
    var ps := NetPoints(host, rd.net.0, rd.net.1)
      + (Gate(host, UptimeKey, rd.uptime) + Gate(host, CpuKey, rd.cpu))
      + rd.sampling.points + Analyze(host, rd.sampling.series) + Gate(host, BatteryKey, rd.battery as real);
    GaugesKeyed(host, rd);
    KeyedMember(ps, KeyIs(NetworkRxKey), Point(host, NetworkRxKey, rd.net.0 as real));
    KeyedMember(ps, KeyIs(UptimeKey), Point(host, UptimeKey, rd.uptime));
    KeyedMember(ps, KeyIs(CpuKey), Point(host, CpuKey, rd.cpu));
    KeyedMember(ps, KeyIs(BatteryKey), Point(host, BatteryKey, rd.battery as real));
  }

  /** Every point of the measurement segments is a measurement of this cycle. */
  lemma SegmentsMeasured(host: string, rd: Readings)
    requires Analysable(rd.sampling, host)
    ensures var ps := NetPoints(host, rd.net.0, rd.net.1)
        + (Gate(host, UptimeKey, rd.uptime) + Gate(host, CpuKey, rd.cpu))
        + rd.sampling.points + Analyze(host, rd.sampling.series) + Gate(host, BatteryKey, rd.battery as real);
      forall pt :: pt in ps ==> Measured(pt, host, rd)
  {
    var net := NetPoints(host, rd.net.0, rd.net.1);
    var gauges := Gate(host, UptimeKey, rd.uptime) + Gate(host, CpuKey, rd.cpu);
    var usage := rd.sampling.points;
    var leaks := Analyze(host, rd.sampling.series);
    var bat := Gate(host, BatteryKey, rd.battery as real);
    CycleKeysDistinct();
    assert forall pt :: pt in net ==> Measured(pt, host, rd);
    assert forall pt :: pt in gauges ==> Measured(pt, host, rd);
    assert forall pt :: pt in bat ==> Measured(pt, host, rd);
    assert forall pt :: pt in usage ==> Measured(pt, host, rd) by {
      forall pt | pt in usage ensures Measured(pt, host, rd) {
        KindsDisjoint(pt.key);
      }
    }
    assert forall pt :: pt in leaks ==> Measured(pt, host, rd) by {
      forall pt | pt in leaks ensures Measured(pt, host, rd) {
        var i :| 0 <= i < |leaks| && leaks[i] == pt;
        PackageKeysDistinct(rd.sampling.series[i].pkg.id, rd.sampling.series[i].pkg.id);
      }
    }
  }

  /** The points of an online worker: its measurements, then its status 1. */
  function OnlinePoints(host: string, rd: Readings): (ps: seq<Point>)
    requires Analysable(rd.sampling, host)
    ensures |ps| > 0 && ps[|ps| - 1] == StatusPoint(host, true)
    ensures forall pt :: pt in ps ==> pt.host == host
  {
    Measurements(host, rd) + [StatusPoint(host, true)]
  }

  /**
   * `process_device_main`: an offline device gets exactly one point, status 0,
   * and no command beyond the reachability check; an online device's trace
   * ends with status 1. Every point carries the device's hostname.
   */
  function ProcessDeviceMain(pkgs: seq<Package>, oracle: Oracle, parse: FloatParser, udid: string, host: string): (r: Run)
    requires InputsOk(pkgs, oracle, parse, udid)
    ensures !IsDeviceOnline(udid, oracle).online ==>
      r.points == [StatusPoint(host, false)] && r.issued == IsDeviceOnline(udid, oracle).issued
    ensures IsDeviceOnline(udid, oracle).online ==>
      |r.points| > 0 && r.points[|r.points| - 1] == StatusPoint(host, true) && r.issued == OnlineCommands(pkgs, udid)
    ensures forall pt :: pt in r.points ==> pt.host == host
  {
    if !IsDeviceOnline(udid, oracle).online then
      Run(IsDeviceOnline(udid, oracle).issued, [StatusPoint(host, false)])
    else
      Run(OnlineCommands(pkgs, udid), OnlinePoints(host, Read(pkgs, oracle, parse, udid, host)))
  }

  /** An online worker's trace is the online point sequence of what it reads. */
  lemma OnlineRun(pkgs: seq<Package>, oracle: Oracle, parse: FloatParser, udid: string, host: string)
    requires InputsOk(pkgs, oracle, parse, udid) && IsDeviceOnline(udid, oracle).online
    ensures ProcessDeviceMain(pkgs, oracle, parse, udid, host).points == OnlinePoints(host, Read(pkgs, oracle, parse, udid, host))
  {
  }

  /**
   * Lines 216-229 and 248-252 for an online worker: each gated reading is
   * sent, under its own key and with its own value, exactly when it is positive.
   */
  lemma OnlineGates(pkgs: seq<Package>, oracle: Oracle, parse: FloatParser, udid: string, host: string)
    requires InputsOk(pkgs, oracle, parse, udid) && IsDeviceOnline(udid, oracle).online
    ensures var ps := ProcessDeviceMain(pkgs, oracle, parse, udid, host).points;
      var net := NetworkUsage(Output(oracle, NetTick, NetDev(udid)));
      net.0 > 0 && net.1 > 0 <==> Point(host, NetworkRxKey, net.0 as real) in ps
    ensures var ps := ProcessDeviceMain(pkgs, oracle, parse, udid, host).points;
      var up := UptimeSeconds(Output(oracle, UptimeTick, ReadUptime(udid)), parse);
      up > 0.0 <==> Point(host, UptimeKey, up) in ps
    ensures var ps := ProcessDeviceMain(pkgs, oracle, parse, udid, host).points;
      var cpu := CpuUsage(Output(oracle, CpuTick, CpuInfo(udid)), parse);
      cpu > 0.0 <==> Point(host, CpuKey, cpu) in ps
    ensures var ps := ProcessDeviceMain(pkgs, oracle, parse, udid, host).points;
      var bat := BatteryHealth(Output(oracle, BatteryTick(|pkgs|), BatteryInfo(udid)));
      bat > 0 <==> Point(host, BatteryKey, bat as real) in ps
  {
    var rd := Read(pkgs, oracle, parse, udid, host);
    var ms := Measurements(host, rd);
    assert ProcessDeviceMain(pkgs, oracle, parse, udid, host).points == ms + [StatusPoint(host, true)];
    CycleKeysDistinct();
  }

  /**
   * Lines 216-229 and 248-252 for an online worker: the network, uptime, CPU
   * and battery values read from the outputs of the issued commands are each
   * sent once when they pass their gate, and never otherwise.
   */
  lemma GaugesOnce(pkgs: seq<Package>, oracle: Oracle, parse: FloatParser, udid: string, host: string)
    requires InputsOk(pkgs, oracle, parse, udid) && IsDeviceOnline(udid, oracle).online
    ensures GaugesSentOnce(ProcessDeviceMain(pkgs, oracle, parse, udid, host).points, host,
      NetworkUsage(Output(oracle, NetTick, NetDev(udid))),
      UptimeSeconds(Output(oracle, UptimeTick, ReadUptime(udid)), parse),
      CpuUsage(Output(oracle, CpuTick, CpuInfo(udid)), parse),
      BatteryHealth(Output(oracle, BatteryTick(|pkgs|), BatteryInfo(udid))))
  {
    var rd := Read(pkgs, oracle, parse, udid, host);
    assert ProcessDeviceMain(pkgs, oracle, parse, udid, host).points == OnlinePoints(host, rd);
    OnlineGaugesKeyed(host, rd);
  }

  /** The five fixed keys of an online cycle, each holding its reading once when positive. */
  lemma OnlineGaugesKeyed(host: string, rd: Readings)
    requires Analysable(rd.sampling, host)
    ensures GaugesSentOnce(OnlinePoints(host, rd), host, rd.net, rd.uptime, rd.cpu, rd.battery)
  {
    var ms := Measurements(host, rd);
    var st := [StatusPoint(host, true)];
    assert OnlineStatusKey !in {NetworkRxKey, NetworkTxKey, UptimeKey, CpuKey, BatteryKey} by {
      CycleKeysDistinct();
    }
    MeasurementsOnce(host, rd);
    GaugesSentOnceAppend(ms, st, host, rd.net, rd.uptime, rd.cpu, rd.battery);
    assert OnlinePoints(host, rd) == ms + st;
  }

  /** Points under none of the five fixed keys leave what is sent under them unchanged. */
  lemma GaugesSentOnceAppend(ps: seq<Point>, extra: seq<Point>, host: string, net: (int, int), up: real, cpu: real, bat: int)
    requires GaugesSentOnce(ps, host, net, up, cpu, bat)
    requires forall pt :: pt in extra ==> pt.key !in {NetworkRxKey, NetworkTxKey, UptimeKey, CpuKey, BatteryKey}
    ensures GaugesSentOnce(ps + extra, host, net, up, cpu, bat)
  {
    KeyedAppendNone(ps, extra, NetworkRxKey);
    KeyedAppendNone(ps, extra, NetworkTxKey);
    KeyedAppendNone(ps, extra, UptimeKey);
    KeyedAppendNone(ps, extra, CpuKey);
    KeyedAppendNone(ps, extra, BatteryKey);
  }

  lemma KeyedAppendNone(ps: seq<Point>, extra: seq<Point>, key: string)
    requires forall pt :: pt in extra ==> pt.key != key
    ensures Keyed(ps + extra, KeyIs(key)) == Keyed(ps, KeyIs(key))
  {
    KeyedConcat(ps, extra, KeyIs(key));
    KeyedNone(extra, KeyIs(key));
  }

}
