/**
 * The adb bridge as the collector sees it: the sub-commands it issues,
 * `run_command`'s treatment of their output, and the reachability test
 * `is_device_online` that gates every other command.
 */
module Bridge {
  import opened Wrappers
  import opened Text

  /** The adb sub-commands the collector issues, each against one device (`adb -s <udid> ...`). */
  datatype Command =
    | GetState(udid: string)                  // get-state
    | NetDev(udid: string)                    // shell cat /proc/net/dev
    | ReadUptime(udid: string)                // shell cat /proc/uptime
    | CpuInfo(udid: string)                   // shell dumpsys cpuinfo
    | MemInfo(udid: string, package: string)  // shell dumpsys meminfo <package>
    | BatteryInfo(udid: string)               // shell dumpsys battery
    | Logcat(udid: string)                    // logcat -d
    | Bugreport(udid: string)                 // bugreport <data folder>

  /**
   * The device fleet as seen through adb: the raw standard output of the
   * `tick`-th command one worker issues (counting from 0), or `None` when adb
   * exits with a non-zero status. The tick lets the same command answer
   * differently over time, as memory samples taken a minute apart do.
   */
  type Oracle = (nat, Command) -> Option<string>

  /**
   * `run_command`: `None` when the command fails, otherwise its standard output
   * with surrounding whitespace removed.
   */
  function RunCommand(raw: Option<string>): (r: Option<string>)
    ensures r.None? <==> raw.None?
    ensures r.Some? ==> r.value == [] || (!IsSpace(r.value[0]) && !IsSpace(r.value[|r.value| - 1]))
    ensures r.Some? ==> exists i, j ::
      0 <= i <= j <= |raw.value| && r.value == raw.value[i..j] && AllSpace(raw.value[..i]) && AllSpace(raw.value[j..])
    ensures r.Some? && NoSpace(raw.value) ==> r.value == raw.value
  {
    match raw
    case None => None
    case Some(out) => Some(Strip(out))
  }

  /** What `run_command` returns for the `tick`-th command. */
  function Output(oracle: Oracle, tick: nat, cmd: Command): Option<string> {
    RunCommand(oracle(tick, cmd))
  }

  /** The state adb must report for a device to count as online. */
  const OnlineState: string := "device"

  /** The verdict of a reachability check and the commands it issued, in order. */
  datatype Probe = Probe(online: bool, issued: seq<Command>)

  /**
   * `is_device_online`, issued as a worker's first command: an empty udid is
   * offline without any command; otherwise the device is online exactly when
   * `get-state` succeeds and prints `device` (surrounding whitespace aside).
   */
  function IsDeviceOnline(udid: string, oracle: Oracle): (r: Probe)
    ensures udid == [] ==> !r.online && r.issued == []
    ensures udid != [] ==> r.issued == [GetState(udid)]
    ensures r.online <==>
      udid != [] && oracle(0, GetState(udid)).Some? && Strip(oracle(0, GetState(udid)).value) == OnlineState
  {
    if udid == [] then Probe(false, [])
    else Probe(Output(oracle, 0, GetState(udid)) == Some(OnlineState), [GetState(udid)])
  }

  /** Any state other than `device` — `offline`, `unauthorized`, a failed command — means offline. */
  lemma OtherStatesOffline(udid: string, oracle: Oracle)
    requires udid != []
    requires oracle(0, GetState(udid)) in {None, Some("offline"), Some("unauthorized")}
    ensures !IsDeviceOnline(udid, oracle).online
  {
    if oracle(0, GetState(udid)).Some? {
      var out := oracle(0, GetState(udid)).value;
      assert NoSpace(out);
      assert out[0] != 'd';
    }
  }
}
