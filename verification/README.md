# adb telemetry collector for Zabbix, modelled in Dafny

The system watches a fleet of Android-based meeting-room devices through the
Android Debug Bridge (adb) and reports what it sees to a Zabbix server.

`monitoring_adb.py` runs two loops over an inventory CSV file (`Host`, `udid`
columns) and starts one worker thread per usable row:

- The health worker does the following for one device:
  - it checks whether the device is reachable (`adb get-state`);
  - it reads the network counters, uptime, CPU load and battery health;
  - it samples the memory of three watched applications over five rounds, and turns each series into a `memory.leak[...]` trend verdict;
  - each value goes to Zabbix as one `(hostname, key, value)` point, and the last point is the online status.
- The log worker saves a logcat dump and a bug report under time-stamped file names. For each, it sends the collection minute to Zabbix.

`connect_to_adb.py` walks the same inventory once. It validates each row's
address, runs `adb connect` on port 5555, and falls back to port 4242 (where
Neat devices listen). At the end it prints two listings.

The model makes the following choices:

- **Commands are an oracle.** adb is a function from a tick and a command to the command's raw output, or `None` for a non-zero exit. The tick is the number of commands the worker issued before, so memory samples taken a minute apart can differ.
- **Results are data.** A worker's behaviour is the list of commands it issues plus the list of points it sends.
- **Python's string operations are modelled on ASCII text.** This covers `in`, `strip`, `split`, `splitlines`, `lower` and `replace`, together with `int()`.
- **`float()` is a parameter.**
- **The clock is a parameter.**

Modules:

| module | what it holds |
|---|---|
| `Text` | Python string operations |
| `Numbers` | `int()` and decimal printing |
| `Telemetry` | points, item keys, application catalog |
| `Bridge` | adb commands, `run_command`, `is_device_online` |
| `Extractors` | the five `get_*` readers |
| `Trend` | `analyze_memory_data` |
| `Worker` | `process_device_main` |
| `Trace` | properties of a worker's point stream |
| `Artifacts` | time stamps, file names, `collect_*`, `process_device_logs` |
| `Inventory` | the row filter and the two scheduling loops |
| `Connect` | `connect_to_adb.py` |

## Model

| member | source | states |
|---|---|---|
| Bridge.RunCommand | monitoring_adb.py:29-36 | A failed command yields `None`. Otherwise the result is a contiguous slice of the output with only whitespace cut off on either side, and it neither starts nor ends with whitespace. Output without whitespace comes back unchanged. |
| Bridge.IsDeviceOnline | monitoring_adb.py:198-210 | An empty udid is offline and issues no command. Otherwise exactly one `get-state` is issued, and the device is online iff it succeeds and prints `device` (surrounding whitespace ignored). |
| Bridge.OtherStatesOffline | monitoring_adb.py:205-210 | `offline`, `unauthorized` and a failed `get-state` all mean offline. |
| Numbers.ParseIntOfDecimalString | monitoring_adb.py:48-49 | `int()` reads back any decimal numeral as the number it denotes. |
| Extractors.FirstWhere | monitoring_adb.py:67-70 | The scan finds the first line containing the marker, or reports that no line contains it. |
| Extractors.ScanNet | monitoring_adb.py:45-52 | The line-by-line scan keeps the counters of the last `eth0` line and, separately, of the last `wlan0` line that lacks `eth0`. Each is defined independently of the scan. |
| Extractors.NetworkUsage | monitoring_adb.py:38-61 | No output gives (0, 0). Ethernet counters win when either is positive. Otherwise wireless counters win when either is positive. Otherwise the result is (0, 0). |
| Extractors.EthernetPreferred | monitoring_adb.py:45-56 | For a printed interface table, the counters in fields 2 and 10 of the last `eth0` line are the reading whenever one is positive, whatever the wireless lines say. |
| Extractors.WirelessFallback | monitoring_adb.py:45-58 | With no `eth0` line, the counters of the last `wlan0` line are the reading whenever one is positive. |
| Extractors.MemoryUsage | monitoring_adb.py:63-72 | The reading is 0 without output or without a `TOTAL` line. Otherwise it is the second field of the first `TOTAL` line. |
| Extractors.MemoryReadsTotal | monitoring_adb.py:66-70 | For printed `dumpsys meminfo` output, the numeral after the first `TOTAL` is read back exactly. |
| Extractors.CpuUsage | monitoring_adb.py:74-87 | The reading is never negative. It is 0 when no line has `TOTAL`. Otherwise it comes from the first such line. |
| Extractors.CpuFromLine | monitoring_adb.py:81-85 | The number before the first `%`, stripped, is the reading when it parses and is non-negative. An unparsable number gives 0, and a negative one is clamped to 0. |
| Extractors.CpuReadsPercent | monitoring_adb.py:78-82 | On a total line `<n>% TOTAL ...`, the reading is `<n>`, parsed as a float, when `<n>` is non-negative. |
| Extractors.BatteryHealth | monitoring_adb.py:89-98 | The reading is 0 without output or without a `health` line. Otherwise it is the integer after the colon on the first such line. |
| Extractors.BatteryReadsHealth | monitoring_adb.py:93-96 | For printed `dumpsys battery` output, the number of the first `<name>: <n>` health line is read back exactly. |
| Extractors.UptimeSeconds | monitoring_adb.py:100-107 | No output gives 0. Otherwise the reading is the first whitespace-separated token, parsed as a float. |
| Extractors.UptimeReadsFirstToken | monitoring_adb.py:104 | For `/proc/uptime` output `<up> <idle>`, the reading is `<up>`. |
| Telemetry.StatusPoint | monitoring_adb.py:193-196 | The status point carries the key `device.online.status` and the value 1 iff the device is online, 0 iff it is offline. |
| Telemetry.PackageKeysDistinct | monitoring_adb.py:121-128 | Usage keys and leak keys never collide. Each kind of key determines its package id. |
| Telemetry.FixedKeysDistinct | monitoring_adb.py:156-252 | The eight fixed item keys are pairwise distinct, and none of them is a per-package key. |
| Telemetry.EpochMinutes | monitoring_adb.py:155 | `int(time.time() / 60)` is the whole minute containing the instant. Truncation is toward zero. |
| Trend.LeakValue | monitoring_adb.py:115-128 | The leak value is 0 for fewer than two samples and -1 when the last sample is not above the first. Otherwise it is the percentage rise from first to last (exact, where the program rounds to a double), which is positive for positive samples. |
| Trend.LeakValueDecodes | monitoring_adb.py:115-128 | For positive samples, the value sent always decodes to the series' true trend (insufficient, steady or rising). |
| Trend.NegativeSamplesAmbiguous | monitoring_adb.py:116-125 | Without positivity the encoding is ambiguous: a rising negative series sends -1, like a flat one. |
| Trend.FiftyPercentIncrease | monitoring_adb.py:117 | A series that rises from 10000 to 15000 sends 50. |
| Trend.Analyze | monitoring_adb.py:108-128 | Exactly one `memory.leak[<id>]` point is sent per application, in order, carrying that application's leak value. |
| Worker.IssueOrder | monitoring_adb.py:212-252 | An online worker issues its commands in this order: `get-state`, net, uptime, CPU, five rounds of one `meminfo` per application, then battery. |
| Worker.MemTableReadsIssued | monitoring_adb.py:237-239 | The reading for round r and application p is `get_memory_usage` applied to the output of the command the worker issues at that tick, and that command is the `meminfo` of application p. |
| Worker.Positives | monitoring_adb.py:240-241 | Kept samples are the positive readings: each positive value occurs as often as in the readings, and no other value occurs. |
| Worker.PositivesAppend | monitoring_adb.py:237-241 | The samples kept over two stretches of rounds are those of the first followed by those of the second. |
| Worker.Sample | monitoring_adb.py:231-244 | Each application's series holds its positive readings in round order. The points sent while sampling are, round after round and in catalog order within a round, one `memory.usage[<id>]` point per positive reading, carrying that reading. |
| Worker.SamplesBounded | monitoring_adb.py:234-247 | A series has at most five samples, all positive, so the trend analysis never divides by zero. |
| Worker.Measurements | monitoring_adb.py:215-252 | Every metric point belongs to this host and is never a status point. Every non-leak metric point is positive. Both network counters are sent, as the first two points, exactly when both are positive. The uptime, CPU and battery readings are each sent, under their own key and carrying the reading, exactly when positive. |
| Worker.MeasurementsOnce | monitoring_adb.py:215-252 | Under each of the network rx, network tx, uptime, CPU and battery keys, the measurements hold exactly one point, carrying that key's reading, when the reading passes its gate, and no point otherwise. |
| Worker.ProcessDeviceMain | monitoring_adb.py:212-257 | An offline device sends only status 0 after its one probe. An online one issues the full command sequence and ends with status 1. Every point carries the host name. |
| Worker.OnlineGates | monitoring_adb.py:214-255 | For an online device, the network, uptime, CPU and battery values read from the outputs of the commands it issued are each sent, under their own key and carrying that value, if and only if positive. |
| Worker.GaugesOnce | monitoring_adb.py:214-255 | For an online device, the points under each of the network, uptime, CPU and battery keys are exactly one point carrying the value read from the issued command when that value passes its gate, and none otherwise. |
| Trace.StatusSentLast | monitoring_adb.py:212-257 | A worker always sends its status, as the last point, and no other point carries the status key. |
| Trace.NetworkGate | monitoring_adb.py:216-219 | Network points are sent only by an online device whose two counters are both positive. Then they carry those counters, they are the first two points, and each is sent exactly once. |
| Trace.GatedValuesPositive | monitoring_adb.py:223-252 | Every metric point other than leak and status points carries a positive value. |
| Trace.LeakPointPerPackage | monitoring_adb.py:246-247 | An online worker sends one leak point per watched application, in catalog order, each with the leak value of that application's samples. An offline worker sends none. |
| Trace.TableUsage | monitoring_adb.py:237-242 | The `memory.usage` points of one application over the sampling rounds carry exactly its positive readings, in round order. |
| Trace.OnlineUsage | monitoring_adb.py:215-252 | In an online cycle, the only points with a usage key are those sent while sampling. |
| Trace.UsageInOrder | monitoring_adb.py:212-257 | An online worker's `memory.usage` points are its positive readings, round after round and in catalog order within a round. An offline worker sends none. |
| Trace.UsagePerPackage | monitoring_adb.py:237-246 | An online worker's `memory.usage[<id>]` points carry exactly the samples kept in that application's series, in order: its positive readings in round order, the list its trend is computed from. |
| Trace.SampledUsage | monitoring_adb.py:237-242 | In an online cycle, one application's usage points carry its positive readings in round order. |
| Trace.TrendDecodes | monitoring_adb.py:231-247 | Every leak value a worker sends decodes to the true trend of at most five samples. |
| Artifacts.SafeStamp | monitoring_adb.py:147 | The stamp has no colon, and each colon of the ISO reading became `-`, with nothing else changed. |
| Artifacts.IsoFormat | monitoring_adb.py:147 | `isoformat()` is 19 characters long, or 26 when there are microseconds. |
| Artifacts.ParseStampOfStamp | monitoring_adb.py:147 | A time stamp reads back to the instant it was made from. |
| Artifacts.StampInjective | monitoring_adb.py:178 | Distinct instants give distinct time stamps. |
| Artifacts.LogcatNameRoundTrip | monitoring_adb.py:147-148 | A logcat file base name reads back to the device's udid and the moment of collection. |
| Artifacts.BugreportNameRoundTrip | monitoring_adb.py:178-179 | A bug report file base name reads back to the host name and the moment of collection. |
| Artifacts.LogcatNamesDistinct | monitoring_adb.py:147-148 | Two logcat file names are equal iff they have the same udid and the same instant. |
| Artifacts.BugreportNamesDistinct | monitoring_adb.py:178-179 | Two bug report file names are equal iff they have the same host and the same instant. |
| Artifacts.LogcatNameColon | monitoring_adb.py:147-148 | A logcat file name contains a colon iff the udid does. A `host:port` udid therefore still yields one. |
| Artifacts.CollectLogcat | monitoring_adb.py:143-161 | A file is saved and a point sent iff logcat printed something. The name records the udid and the instant. The point is the collection minute, under the logcat key and this host. |
| Artifacts.CollectBugreport | monitoring_adb.py:163-191 | A report is saved iff the bugreport command succeeded. The name records the host and the instant. The point is the collection minute, under the bug report key. |
| Artifacts.OnlineLogs | monitoring_adb.py:259-263 | An online device gets `logcat`, then `bugreport`. The worker raises iff bugreport failed. Every saved artifact describes this device. |
| Artifacts.ProcessDeviceLogs | monitoring_adb.py:259-263 | An offline device issues only its probe and saves nothing. An online one issues `get-state`, `logcat` and `bugreport` and saves what the collectors save. |
| Inventory.RowDevice | monitoring_adb.py:272-275 | A row yields a device iff it has both columns and neither cell is blank. The device's fields are the stripped cells. |
| Inventory.Devices | monitoring_adb.py:271-275 | The devices are exactly those yielded by some row, at most one per row. |
| Inventory.DevicesAppend | monitoring_adb.py:271-275 | Filtering is row by row: filtering concatenated row lists concatenates the results. |
| Inventory.DevicesClean | monitoring_adb.py:273-275 | Every device started has a non-empty udid and host with no surrounding whitespace. |
| Inventory.HealthCycle | monitoring_adb.py:265-283 | One health cycle runs one worker per usable row, in row order. |
| Inventory.CycleReportsEveryDevice | monitoring_adb.py:265-283 | In every cycle, every usable row's device reports its online status, last, under a non-empty host name. |
| Inventory.LogCycle | monitoring_adb.py:286-303 | One log cycle runs one log worker per usable row, in row order. |
| Connect.IsValidIpMatchesPattern | connect_to_adb.py:24-27 | The validator accepts a text iff it is four dot-separated groups of one to three ASCII digits, optionally followed by one newline, as `re.match` with `$` accepts. |
| Connect.OutOfRangeAccepted | connect_to_adb.py:26 | Groups are not range-checked: `999.999.999.999` passes. |
| Connect.TrailingNewlineAccepted | connect_to_adb.py:26-27 | A trailing newline passes. |
| Connect.WrongGroupCounts | connect_to_adb.py:26-27 | Three groups and five groups are rejected. |
| Connect.EmptyGroupRejected | connect_to_adb.py:26-27 | An empty group is rejected. |
| Connect.LeadingBlankRejected | connect_to_adb.py:26-27 | A leading blank is rejected. |
| Connect.PortSuffixRejected | connect_to_adb.py:26-27 | An `ip:port` text is rejected. |
| Connect.ConnectAsWritten | connect_to_adb.py:5-22 | The connect call as written raises exactly when adb could not be run. |
| Connect.MissingAdbRaises | connect_to_adb.py:11-19 | With no adb executable, the connection attempt raises instead of failing. |
| Connect.ConnectToDevice | connect_to_adb.py:14-22 | Success iff adb ran and its output contains `connected` in any letter case. The message is the output on success and the error text otherwise. It agrees with the code as written wherever that returns. |
| Connect.AlreadyConnectedReply | connect_to_adb.py:19 | `Already Connected to ...` counts as success. |
| Connect.FailedReplies | connect_to_adb.py:19-22 | `cannot connect to ...` fails and carries the error text. In the corrected connect, a missing adb also fails with the error text; the code as written raises instead (see Connect.MissingAdbRaises). |
| Connect.ConnectRow | connect_to_adb.py:14-68 | A row with a malformed or missing address is skipped with no attempt. Otherwise 5555 is tried first, and 4242 is tried iff the 5555 attempt returned a failure. An attempt for which adb could not be run raises `AttributeError` and ends the row on that port. A successful connection on a row without a `Host` cell raises `KeyError`. |
| Connect.EntryRoundTrip | connect_to_adb.py:53-63 | A listing line reads back to its host, its address and its port. |
| Connect.ReportBounded | connect_to_adb.py:43-68 | The listings hold at most one line in total per row. Each row gets at most two attempts, and no attempt names a row past the end of the inventory. |
| Connect.OneEntryPerRow | connect_to_adb.py:43-63 | Every listing line can be traced to the row it was printed for, the rows of each listing strictly increase, and no row is in both listings. So each row gives at most one line. |
| Connect.FallbackOrder | connect_to_adb.py:48-60 | Every attempt belongs to a row with a valid address. Every 4242 attempt immediately follows a 5555 attempt on the same row that returned a failure. |
| Connect.EntriesTraceBack | connect_to_adb.py:52-63 | Each line of a listing comes from a row that connected on that listing's port. |
| Connect.CrashIffRowRaises | connect_to_adb.py:14-63 | The pass ends on an exception iff some row connected without a `Host` cell or made an attempt for which adb could not be run. |
| Connect.ReportComplete | connect_to_adb.py:43-81 | Without a crash (neither a missing `Host` cell nor an adb that could not be run), every row that connected appears in the listing for its port. |

## Left out

- I/O is not modelled: process spawning, `zabbix_sender`, file writes, renames and `os.makedirs`. A dispatched point is a value in a list, and a failed dispatch is not modelled, because it changes nothing the collector does next.
- Threads, `join` and `time.sleep` are not modelled. Each worker is modelled on its own, and a cycle is the list of its workers' results. The adb oracle (`Inventory.Fleet`) and the clock readings (`Inventory.Clock`) are keyed by udid, so two inventory rows with the same udid see the same outputs and instants, where real threads would see independent ones. No property depends on this.
- The endless `while True` loops are not modelled. One cycle is modelled.
- Logging and `print` output are not modelled.
- The wall clock and `time.time()` are parameters of the log worker. The CSV reader is replaced by a list of rows, each a map from column name to cell.
- `float()` is an abstract parser, because the model does not reproduce Python's float syntax.
- Artifacts.LogcatFileName and Artifacts.BugreportFileName are the base names of the saved files. The `os.path.join(DATA_FOLDER, ...)` at lines 148 and 180 that prefixes the folder is not modelled.
- Python's Unicode handling is not modelled: Unicode `\d`, Unicode whitespace, and `str.lower` beyond ASCII.
- `createhost.py` and `main.py` are not part of this model.
- Cells that `csv.DictReader` fills with `None` for short rows are not modelled. Every present cell is a string.
- `glob` plus `max(..., key=getctime)` stand for "the file adb just wrote". The model assumes this file is the bug report. Which file is actually the newest in the folder is not modelled.
- Worker.Measurements: its own contract states which gated points are present, not how often. That each appears at most once is proved separately, by `Worker.MeasurementsOnce` and `Worker.GaugesOnce`, because stating it in the function's contract would add to every proof that unfolds the measurements.
- Worker.OnlineGates: states that each gated value is sent if and only if it is positive. That it is sent exactly once is `Worker.GaugesOnce`.
- Worker.ProcessDeviceMain requires that every output the worker parses with `int()` or `float()` is well-formed (`Worker.InputsOk`). On malformed output the source raises `ValueError` or `IndexError` and the worker thread dies; that path is not modelled.
- Trend.LeakValue: float values and float arithmetic are modelled as exact reals. The division and multiplication at line 117 are not rounded to IEEE doubles (samples `[3, 4]` send `33.33333333333333`, which times 3 is not exactly 100), `time.time() / 60` at lines 155 and 188 is exact, and NaN and infinities cannot occur (so `max(float('nan'), 0.0)` at line 82 is not modelled). The sign of the value and its decoding to the trend do not depend on rounding.
- Trend.LeakValue requires `Divisible`: line 117 divides by the first sample with no guard, so a zero first sample would raise `ZeroDivisionError` where the other short or flat series fall to the `0` branch at line 128 or the `-1` branch at line 125. The model follows the code. `Worker.SamplesBounded` proves that the worker never passes a zero sample, so the division is always defined.
- Artifacts.CollectBugreport: a failed `bugreport` raises `CalledProcessError` out of the log worker (`check=True`). The model records this as `raised` and saves nothing further for that device.
- Connect.ConnectRow: progress and error messages are printed but not modelled. The adb reply for a row is an oracle indexed by the row's position and the port. The loop follows `connect_to_device` as written: an adb that cannot be run ends the pass. It consults the corrected `Connect.ConnectToDevice` only for replies on which the two agree.

## Findings

| source | as written | input that shows it | evidently intended | confidence | as-written member | corrected member |
|---|---|---|---|---|---|---|
| connect_to_adb.py:11-19 | When adb cannot be run, `adb_command` returns `(None, str(e))`, and `connect_to_device` then evaluates `output.lower()` on `None`. | The adb path does not exist: `subprocess.run` raises, and `None.lower()` raises `AttributeError`, which ends `main`. | Report a failed connection carrying the exception text, as the `else` branch does for any other failure. | not executed | Connect.ConnectAsWritten (with Connect.MissingAdbRaises) | Connect.ConnectToDevice |
