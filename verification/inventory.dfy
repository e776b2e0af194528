/**
 * The device inventory: the CSV rows `main_loop` and `log_collection_loop`
 * read, the filter that picks the devices to monitor, and one health cycle
 * and one log cycle over the picked devices. Threads are modelled as
 * independent runs, one per device, each with that device's own oracle.
 */
module Inventory {
  import opened Wrappers
  import opened Text
  import opened Telemetry
  import opened Bridge
  import opened Extractors
  import opened Worker
  import opened Artifacts

  /** One `csv.DictReader` row: column name to cell text. */
  type Row = map<string, string>

  const HostColumn: string := "Host"
  const UdidColumn: string := "udid"

  /** A device to monitor: its adb serial and its Zabbix hostname. */
  datatype Device = Device(udid: string, host: string)

  /**
   * Lines 272-275: a row names a device when it has both columns and both
   * cells are non-blank; the device's fields are the stripped cells.
   */
  function RowDevice(row: Row): (d: Option<Device>)
    ensures d.Some? <==> HostColumn in row && UdidColumn in row && !AllSpace(row[UdidColumn]) && !AllSpace(row[HostColumn])
    ensures d.Some? ==> d.value == Device(Strip(row[UdidColumn]), Strip(row[HostColumn]))
  {
    if HostColumn in row && UdidColumn in row then
      var udid := Strip(row[UdidColumn]);
      var host := Strip(row[HostColumn]);
      StripEmptyIffBlank(row[UdidColumn]);
      StripEmptyIffBlank(row[HostColumn]);
      if udid != [] && host != [] then Some(Device(udid, host)) else None
    else None
  }

  /** A device as the filter passes it on: both fields non-empty and already stripped. */
  predicate Clean(d: Device) {
    d.udid != [] && d.host != [] && Strip(d.udid) == d.udid && Strip(d.host) == d.host
  }

  /** The devices the rows name, in row order. */
  function Devices(rows: seq<Row>): (ds: seq<Device>)
    ensures |ds| <= |rows|
    ensures forall d :: d in ds <==> exists row :: row in rows && RowDevice(row) == Some(d)
  {
    if |rows| == 0 then []
    else
      var rest := Devices(rows[1..]);
      assert forall row :: row in rows <==> row == rows[0] || row in rows[1..];
      match RowDevice(rows[0])
      case None => rest
      case Some(d) => [d] + rest
  }

  /** Every device the filter passes on is clean, whatever the rows hold. */
  lemma DevicesClean(rows: seq<Row>)
    ensures forall d :: d in Devices(rows) ==> Clean(d)
  {
    forall d | d in Devices(rows) ensures Clean(d) {
      var row :| row in rows && RowDevice(row) == Some(d);
      StripIdempotent(row[UdidColumn]);
      StripIdempotent(row[HostColumn]);
    }
  }

  /** Rows are filtered one by one: the devices of two CSV parts are those of each part in turn. */
  lemma {:induction false} DevicesAppend(a: seq<Row>, b: seq<Row>)
    ensures Devices(a + b) == Devices(a) + Devices(b)
  {
    if |a| == 0 {
      assert a + b == b;
    } else {
      var head := match RowDevice(a[0]) case None => [] case Some(d) => [d];
      assert (a + b)[0] == a[0] && (a + b)[1..] == a[1..] + b;
      assert Devices(a) == head + Devices(a[1..]);
      assert Devices(a + b) == head + Devices(a[1..] + b);
      DevicesAppend(a[1..], b);
      AppendAssociative(head, Devices(a[1..]), Devices(b));
    }
  }

  /** Each device's own view of adb, as its worker thread sees it. */
  type Fleet = string -> Oracle

  /** Every device's worker parses only well-formed output. */
  ghost predicate FleetOk(ds: seq<Device>, fleet: Fleet, parse: FloatParser) {
    forall i :: 0 <= i < |ds| ==> InputsOk(Catalog, fleet(ds[i].udid), parse, ds[i].udid)
  }

  /**
   * One iteration of `main_loop`: a `process_device_main` run per picked
   * device, in row order (the threads' interleaving is not modelled).
   */
  function HealthCycle(ds: seq<Device>, fleet: Fleet, parse: FloatParser): (runs: seq<Run>)
    requires FleetOk(ds, fleet, parse)
    ensures |runs| == |ds|
    ensures forall i :: 0 <= i < |ds| ==> runs[i] == ProcessDeviceMain(Catalog, fleet(ds[i].udid), parse, ds[i].udid, ds[i].host)
  {
    if |ds| == 0 then []
    else [ProcessDeviceMain(Catalog, fleet(ds[0].udid), parse, ds[0].udid, ds[0].host)] + HealthCycle(ds[1..], fleet, parse)
  }

  /** Every device the filter passes on has a udid and a hostname. */
  lemma DevicesNamed(rows: seq<Row>)
    ensures forall d :: d in Devices(rows) ==> d.udid != [] && d.host != []
  {
    DevicesClean(rows);
  }

  /** A run ends with the device's status and sends nothing for an empty hostname. */
  ghost predicate Reported(r: Run, d: Device, oracle: Oracle) {
    && |r.points| > 0
    && r.points[|r.points| - 1] == StatusPoint(d.host, IsDeviceOnline(d.udid, oracle).online)
    && forall pt :: pt in r.points ==> pt.host != []
  }

  /** A named device's run ends with its status and sends nothing for an empty hostname. */
  lemma RunReports(d: Device, oracle: Oracle, parse: FloatParser)
    requires d.host != [] && InputsOk(Catalog, oracle, parse, d.udid)
    ensures var r := ProcessDeviceMain(Catalog, oracle, parse, d.udid, d.host);
      && |r.points| > 0
      && r.points[|r.points| - 1] == StatusPoint(d.host, IsDeviceOnline(d.udid, oracle).online)
      && forall pt :: pt in r.points ==> pt.host != []
  {
  }

  /**
   * Every device of a health cycle reports a status, last, and no point of the
   * cycle is sent for an empty hostname.
   */
  lemma CycleReportsEveryDevice(rows: seq<Row>, fleet: Fleet, parse: FloatParser)
    requires FleetOk(Devices(rows), fleet, parse)
    ensures var ds := Devices(rows);
      forall i :: 0 <= i < |ds| ==> Reported(HealthCycle(ds, fleet, parse)[i], ds[i], fleet(ds[i].udid))
  {
    var ds := Devices(rows);
    var runs := HealthCycle(ds, fleet, parse);
    DevicesNamed(rows);
    forall i | 0 <= i < |ds|
      ensures Reported(runs[i], ds[i], fleet(ds[i].udid))
    {
      var d := ds[i];
      assert d in ds;
      assert InputsOk(Catalog, fleet(d.udid), parse, d.udid);
      assert runs[i] == ProcessDeviceMain(Catalog, fleet(d.udid), parse, d.udid, d.host);
      RunReports(d, fleet(d.udid), parse);
    }
  }

  /** What the clock says for each device's two collections in one log cycle. */
  type Clock = string -> (Instant, Instant)

  ghost predicate ClockOk(ds: seq<Device>, clock: Clock) {
    forall i :: 0 <= i < |ds| ==> ValidDateTime(clock(ds[i].udid).0.wall) && ValidDateTime(clock(ds[i].udid).1.wall)
  }

  /** One iteration of `log_collection_loop`: a `process_device_logs` run per picked device. */
  function LogCycle(ds: seq<Device>, fleet: Fleet, clock: Clock): (runs: seq<LogRun>)
    requires ClockOk(ds, clock)
    ensures |runs| == |ds|
    ensures forall i :: 0 <= i < |ds| ==>
      runs[i] == ProcessDeviceLogs(ds[i].udid, ds[i].host, fleet(ds[i].udid), clock(ds[i].udid).0, clock(ds[i].udid).1)
  {
    if |ds| == 0 then []
    else
      [ProcessDeviceLogs(ds[0].udid, ds[0].host, fleet(ds[0].udid), clock(ds[0].udid).0, clock(ds[0].udid).1)]
      + LogCycle(ds[1..], fleet, clock)
  }
}
