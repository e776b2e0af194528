/**
 * `collect_logcat`, `collect_bugreport` and `process_device_logs`: the log
 * artifacts of one device, the file names they are saved under, and the
 * collection-time points sent for them. The clock is a parameter; the files'
 * contents and the data folder are not modelled.
 */
module Artifacts {
  import opened Wrappers
  import opened Text
  import opened Numbers
  import opened Telemetry
  import opened Bridge
  import opened Extractors

  /** A reading of `datetime.datetime.now()` (naive, no time zone). */
  datatype DateTime = DateTime(year: nat, month: nat, day: nat, hour: nat, minute: nat, second: nat, micro: nat)

  /** The field ranges `datetime` enforces (the day is bounded by 31 only). */
  predicate ValidDateTime(t: DateTime) {
    && 1 <= t.year <= 9999 && 1 <= t.month <= 12 && 1 <= t.day <= 31
    && t.hour < 24 && t.minute < 60 && t.second < 60 && t.micro < 1000000
  }

  /**
   * `isoformat()`: `YYYY-MM-DDTHH:MM:SS`, followed by `.ffffff` only when the
   * microseconds are not zero.
   */
  function IsoFormat(t: DateTime): (s: string)
    ensures |s| == if t.micro == 0 then 19 else 26
  {
    ZeroPad(t.year, 4) + "-" + ZeroPad(t.month, 2) + "-" + ZeroPad(t.day, 2) + "T"
    + ZeroPad(t.hour, 2) + ":" + ZeroPad(t.minute, 2) + ":" + ZeroPad(t.second, 2)
    + (if t.micro == 0 then "" else "." + ZeroPad(t.micro, 6))
  }

  /** `.replace(":", "-")`: the time stamp with its colons turned into hyphens. */
  function SafeStamp(iso: string): (r: string)
    ensures |r| == |iso| && ':' !in r
    ensures forall i :: 0 <= i < |iso| ==> r[i] == if iso[i] == ':' then '-' else iso[i]
  {
    ReplaceChar(iso, ':', '-')
  }

  /** The time stamp both collectors put in their file names. */
  function Stamp(t: DateTime): string {
    SafeStamp(IsoFormat(t))
  }

  predicate AllDigits(s: string) {
    forall i :: 0 <= i < |s| ==> IsDigit(s[i])
  }

  /** The number written in the digits `s[i..j]`. */
  function Field(s: string, i: nat, j: nat): nat
    requires i <= j <= |s| && AllDigits(s[i..j])
  {
    RunValue(s[i..j])
  }

  /** The digit fields of a stamp, at the positions `isoformat()` puts them. */
  predicate StampShaped(s: string) {
    && (|s| == 19 || |s| == 26)
    && AllDigits(s[0..4]) && s[4] == '-' && AllDigits(s[5..7]) && s[7] == '-' && AllDigits(s[8..10])
    && s[10] == 'T' && AllDigits(s[11..13]) && s[13] == '-' && AllDigits(s[14..16]) && s[16] == '-'
    && AllDigits(s[17..19])
    && (|s| == 26 ==> s[19] == '.' && AllDigits(s[20..26]))
  }

  /** Reads a file-name stamp back into the wall-clock reading it was made from. */
  function ParseStamp(s: string): Option<DateTime> {
    if StampShaped(s) then
      Some(DateTime(Field(s, 0, 4), Field(s, 5, 7), Field(s, 8, 10), Field(s, 11, 13), Field(s, 14, 16), Field(s, 17, 19),
                    if |s| == 26 then Field(s, 20, 26) else 0))
    else None
  }

  lemma Pow10Values()
    ensures Pow10(2) == 100 && Pow10(4) == 10000 && Pow10(6) == 1000000
  {
    assert Pow10(1) == 10;
    assert Pow10(3) == 1000;
    assert Pow10(5) == 100000;
  }

  /** Where each field sits in the stamp. */
  lemma StampLayout(t: DateTime)
    ensures var s := Stamp(t);
      && s[0..4] == ZeroPad(t.year, 4) && s[4] == '-'
      && s[5..7] == ZeroPad(t.month, 2) && s[7] == '-'
      && s[8..10] == ZeroPad(t.day, 2) && s[10] == 'T'
      && s[11..13] == ZeroPad(t.hour, 2) && s[13] == '-'
      && s[14..16] == ZeroPad(t.minute, 2) && s[16] == '-'
      && s[17..19] == ZeroPad(t.second, 2)
      && (t.micro != 0 ==> s[19] == '.' && s[20..26] == ZeroPad(t.micro, 6))
  {
    var iso := IsoFormat(t);
    var s := Stamp(t);
    var head := ZeroPad(t.year, 4) + "-" + ZeroPad(t.month, 2) + "-" + ZeroPad(t.day, 2) + "T"
      + ZeroPad(t.hour, 2) + ":" + ZeroPad(t.minute, 2) + ":" + ZeroPad(t.second, 2);
    assert iso[..19] == head;
    assert head[0..4] == ZeroPad(t.year, 4);
    assert head[5..7] == ZeroPad(t.month, 2);
    assert head[8..10] == ZeroPad(t.day, 2);
    assert head[11..13] == ZeroPad(t.hour, 2);
    assert head[14..16] == ZeroPad(t.minute, 2);
    assert head[17..19] == ZeroPad(t.second, 2);
    assert t.micro != 0 ==> iso[19..26] == "." + ZeroPad(t.micro, 6);
    assert forall i :: 0 <= i < |iso| && i != 13 && i != 16 ==> iso[i] != ':';
    assert forall i :: 0 <= i < |iso| && i != 13 && i != 16 ==> s[i] == iso[i];
  }

  /** A stamp reads back as the wall-clock reading it was made from. */
  lemma ParseStampOfStamp(t: DateTime)
    requires ValidDateTime(t)
    ensures ParseStamp(Stamp(t)) == Some(t)
  {
    var s := Stamp(t);
    StampLayout(t);
    Pow10Values();
    RunValueOfZeroPad(t.year, 4);
    RunValueOfZeroPad(t.month, 2);
    RunValueOfZeroPad(t.day, 2);
    RunValueOfZeroPad(t.hour, 2);
    RunValueOfZeroPad(t.minute, 2);
    RunValueOfZeroPad(t.second, 2);
    RunValueOfZeroPad(t.micro, 6);
    assert StampShaped(s);
  }

  /** Different wall-clock readings give different stamps. */
  lemma StampInjective(t: DateTime, t': DateTime)
    requires ValidDateTime(t) && ValidDateTime(t')
    ensures Stamp(t) == Stamp(t') ==> t == t'
  {
    ParseStampOfStamp(t);
    ParseStampOfStamp(t');
  }

  /** A stamp has no underscore, so it never blurs the boundary before it in a file name. */
  lemma StampNoUnderscore(t: DateTime)
    ensures '_' !in Stamp(t)
  {
    var iso := IsoFormat(t);
    assert forall i :: 0 <= i < |iso| ==> iso[i] != '_';
  }

  // ---------------------------------------------------------------------------
  // File names (lines 147-148 and 178-179)
  // ---------------------------------------------------------------------------

  const LogcatPrefix: string := "logcat_"
  const LogcatExt: string := ".txt"
  const BugreportPrefix: string := "bugreport_"
  const BugreportExt: string := ".zip"

  /** The name a device's logcat dump is saved under: `logcat_<udid>_<stamp>.txt`. */
  function LogcatFileName(udid: string, t: DateTime): string {
    LogcatPrefix + udid + "_" + Stamp(t) + LogcatExt
  }

  /** The name a bug report is renamed to: `bugreport_<hostname>_<stamp>.zip`. */
  function BugreportFileName(host: string, t: DateTime): string {
    BugreportPrefix + host + "_" + Stamp(t) + BugreportExt
  }

  /** The position of the last `c` in `s`, if any. */
  function LastIndex(s: string, c: char): (r: Option<nat>)
    ensures r.None? <==> c !in s
    ensures r.Some? ==> r.value < |s| && s[r.value] == c && c !in s[r.value + 1..]
  {
    if |s| == 0 then None
    else if s[|s| - 1] == c then Some(|s| - 1)
    else
      var r := LastIndex(s[..|s| - 1], c);
      assert r.Some? ==> s[r.value + 1..] == s[..|s| - 1][r.value + 1..] + [s[|s| - 1]];
      r
  }

  lemma {:induction false} LastIndexBefore(a: string, c: char, b: string)
    requires c !in b
    ensures LastIndex(a + [c] + b, c) == Some(|a|)
  {
    if |b| > 0 {
      var s := a + [c] + b;
      assert s[..|s| - 1] == a + [c] + b[..|b| - 1];
      LastIndexBefore(a, c, b[..|b| - 1]);
    }
  }

  /**
   * Reads a name of the form `<prefix><owner>_<stamp><ext>` back into its owner
   * and wall-clock reading; the owner is everything before the last underscore.
   */
  function ParseArtifactName(name: string, prefix: string, ext: string): Option<(string, DateTime)> {
    if |prefix| + |ext| <= |name| && name[..|prefix|] == prefix && name[|name| - |ext|..] == ext then
      var core := name[|prefix|..|name| - |ext|];
      match LastIndex(core, '_')
      case None => None
      case Some(i) =>
        match ParseStamp(core[i + 1..])
        case None => None
        case Some(t) => Some((core[..i], t))
    else None
  }

  lemma ArtifactNameRoundTrip(prefix: string, owner: string, t: DateTime, ext: string)
    requires ValidDateTime(t)
    ensures ParseArtifactName(prefix + owner + "_" + Stamp(t) + ext, prefix, ext) == Some((owner, t))
  {
    var name := prefix + owner + "_" + Stamp(t) + ext;
    var core := owner + "_" + Stamp(t);
    assert name[..|prefix|] == prefix;
    assert name[|name| - |ext|..] == ext;
    assert name[|prefix|..|name| - |ext|] == core;
    StampNoUnderscore(t);
    LastIndexBefore(owner, '_', Stamp(t));
    assert core[..|owner|] == owner && core[|owner| + 1..] == Stamp(t);
    ParseStampOfStamp(t);
  }

  /** A logcat file name records the device and the moment it was collected. */
  lemma LogcatNameRoundTrip(udid: string, t: DateTime)
    requires ValidDateTime(t)
    ensures ParseArtifactName(LogcatFileName(udid, t), LogcatPrefix, LogcatExt) == Some((udid, t))
  {
    ArtifactNameRoundTrip(LogcatPrefix, udid, t, LogcatExt);
  }

  /** A bug report file name records the host and the moment it was collected. */
  lemma BugreportNameRoundTrip(host: string, t: DateTime)
    requires ValidDateTime(t)
    ensures ParseArtifactName(BugreportFileName(host, t), BugreportPrefix, BugreportExt) == Some((host, t))
  {
    ArtifactNameRoundTrip(BugreportPrefix, host, t, BugreportExt);
  }

  /**
   * Two logcat dumps get the same file name exactly when they are of the same
   * device at the same moment, so a later dump never overwrites an earlier one.
   */
  lemma LogcatNamesDistinct(udid: string, t: DateTime, udid': string, t': DateTime)
    requires ValidDateTime(t) && ValidDateTime(t')
    ensures LogcatFileName(udid, t) == LogcatFileName(udid', t') <==> udid == udid' && t == t'
  {
    LogcatNameRoundTrip(udid, t);
    LogcatNameRoundTrip(udid', t');
  }

  /** The same for bug reports, by hostname. */
  lemma BugreportNamesDistinct(host: string, t: DateTime, host': string, t': DateTime)
    requires ValidDateTime(t) && ValidDateTime(t')
    ensures BugreportFileName(host, t) == BugreportFileName(host', t') <==> host == host' && t == t'
  {
    BugreportNameRoundTrip(host, t);
    BugreportNameRoundTrip(host', t');
  }

  /**
   * Only the stamp's colons are replaced: a logcat file name has a colon
   * exactly when the udid has one, as the `<ip>:<port>` serial of a device
   * attached over the network does.
   */
  lemma LogcatNameColon(udid: string, t: DateTime)
    ensures ':' in LogcatFileName(udid, t) <==> ':' in udid
  {
    var name := LogcatFileName(udid, t);
    var stamp := Stamp(t);
    assert name == LogcatPrefix + udid + "_" + stamp + LogcatExt;
    assert ':' !in LogcatPrefix && ':' !in LogcatExt && ':' !in stamp;
  }

  // ---------------------------------------------------------------------------
  // Collectors
  // ---------------------------------------------------------------------------

  /**
   * What the clock says when a collector runs: the wall-clock reading behind
   * the file name and the epoch seconds of `time.time()`.
   */
  datatype Instant = Instant(wall: DateTime, epoch: real)

  /** A saved artifact and the collection-time point sent for it. */
  datatype Collected = Collected(file: string, point: Point)

  /**
   * `collect_logcat`: when `logcat -d` prints something, the dump is saved
   * under a name recording the device and the moment, and the collection
   * minute (since the epoch) is sent; otherwise nothing is saved or sent.
   */
  function CollectLogcat(udid: string, host: string, out: Option<string>, at: Instant): (r: Option<Collected>)
    requires ValidDateTime(at.wall)
    ensures r.Some? <==> HasText(out)
    ensures r.Some? ==> ParseArtifactName(r.value.file, LogcatPrefix, LogcatExt) == Some((udid, at.wall))
    ensures r.Some? ==> r.value.point.host == host && r.value.point.key == LogcatStampKey
    ensures r.Some? && at.epoch >= 0.0 ==>
      r.value.point.value * 60.0 <= at.epoch < r.value.point.value * 60.0 + 60.0
  {
    if HasText(out) then
      LogcatNameRoundTrip(udid, at.wall);
      Some(Collected(LogcatFileName(udid, at.wall), Point(host, LogcatStampKey, EpochMinutes(at.epoch) as real)))
    else None
  }

  /**
   * `collect_bugreport`, given whether `adb bugreport` exited with status 0:
   * a failure raises `CalledProcessError` (`None` here), which ends the
   * collection; a success renames the report under a name recording the
   * hostname and the moment, and sends the collection minute.
   */
  function CollectBugreport(host: string, exit: Option<string>, at: Instant): (r: Option<Collected>)
    requires ValidDateTime(at.wall)
    ensures r.Some? <==> exit.Some?
    ensures r.Some? ==> ParseArtifactName(r.value.file, BugreportPrefix, BugreportExt) == Some((host, at.wall))
    ensures r.Some? ==> r.value.point.host == host && r.value.point.key == BugreportStampKey
    ensures r.Some? && at.epoch >= 0.0 ==>
      r.value.point.value * 60.0 <= at.epoch < r.value.point.value * 60.0 + 60.0
  {
    if exit.Some? then
      BugreportNameRoundTrip(host, at.wall);
      Some(Collected(BugreportFileName(host, at.wall), Point(host, BugreportStampKey, EpochMinutes(at.epoch) as real)))
    else None
  }

  /** The commands a log worker issued, the artifacts it saved (in order), and whether it raised. */
  datatype LogRun = LogRun(issued: seq<Command>, saved: seq<Collected>, raised: bool)

  /**
   * A saved artifact and its point agree: the logcat point goes with a logcat
   * file of `udid` stamped `logcatAt`, the bug report point with a bug report
   * of `host` stamped `bugreportAt`; both points are about `host`.
   */
  ghost predicate Describes(c: Collected, udid: string, host: string, logcatAt: Instant, bugreportAt: Instant) {
    && c.point.host == host
    && (|| (c.point.key == LogcatStampKey && ParseArtifactName(c.file, LogcatPrefix, LogcatExt) == Some((udid, logcatAt.wall)))
        || (c.point.key == BugreportStampKey && ParseArtifactName(c.file, BugreportPrefix, BugreportExt) == Some((host, bugreportAt.wall))))
  }

  lemma LogcatDescribes(udid: string, host: string, out: Option<string>, logcatAt: Instant, bugreportAt: Instant)
    requires ValidDateTime(logcatAt.wall)
    ensures forall c :: c in Saved(CollectLogcat(udid, host, out, logcatAt)) ==> Describes(c, udid, host, logcatAt, bugreportAt)
  {
  }

  lemma BugreportDescribes(udid: string, host: string, exit: Option<string>, logcatAt: Instant, bugreportAt: Instant)
    requires ValidDateTime(bugreportAt.wall)
    ensures forall c :: c in Saved(CollectBugreport(host, exit, bugreportAt)) ==> Describes(c, udid, host, logcatAt, bugreportAt)
  {
  }

  lemma CollectorsDescribe(udid: string, host: string, out: Option<string>, exit: Option<string>, logcatAt: Instant, bugreportAt: Instant)
    requires ValidDateTime(logcatAt.wall) && ValidDateTime(bugreportAt.wall)
    ensures forall c :: c in Saved(CollectLogcat(udid, host, out, logcatAt)) + Saved(CollectBugreport(host, exit, bugreportAt)) ==>
      Describes(c, udid, host, logcatAt, bugreportAt)
  {
    LogcatDescribes(udid, host, out, logcatAt, bugreportAt);
    BugreportDescribes(udid, host, exit, logcatAt, bugreportAt);
  }

  function Saved(c: Option<Collected>): seq<Collected> {
    if c.Some? then [c.value] else []
  }

  /**
   * The collections of an online device: `logcat -d` at tick 1, then
   * `bugreport` at tick 2 whether or not the logcat produced anything.
   */
  function OnlineLogs(udid: string, host: string, oracle: Oracle, logcatAt: Instant, bugreportAt: Instant): (r: LogRun)
    requires ValidDateTime(logcatAt.wall) && ValidDateTime(bugreportAt.wall)
    ensures r.issued == [Logcat(udid), Bugreport(udid)]
    ensures r.raised <==> oracle(2, Bugreport(udid)).None?
    ensures |r.saved| == (if HasText(Output(oracle, 1, Logcat(udid))) then 1 else 0) + (if r.raised then 0 else 1)
    ensures forall c :: c in r.saved ==> Describes(c, udid, host, logcatAt, bugreportAt)
  {
    var out := Output(oracle, 1, Logcat(udid));
    var exit := oracle(2, Bugreport(udid));
    CollectorsDescribe(udid, host, out, exit, logcatAt, bugreportAt);
    var report := CollectBugreport(host, exit, bugreportAt);
    LogRun([Logcat(udid), Bugreport(udid)], Saved(CollectLogcat(udid, host, out, logcatAt)) + Saved(report), report.None?)
  }

  /**
   * `process_device_logs`: nothing beyond the reachability check for an
   * offline device; for an online one, the logcat and then the bug report,
   * saved as `OnlineLogs` describes.
   */
  function ProcessDeviceLogs(udid: string, host: string, oracle: Oracle, logcatAt: Instant, bugreportAt: Instant): (r: LogRun)
    requires ValidDateTime(logcatAt.wall) && ValidDateTime(bugreportAt.wall)
    ensures !IsDeviceOnline(udid, oracle).online ==>
      r == LogRun(IsDeviceOnline(udid, oracle).issued, [], false)
    ensures IsDeviceOnline(udid, oracle).online ==>
      && r.issued == [GetState(udid), Logcat(udid), Bugreport(udid)]
      && (r.raised <==> oracle(2, Bugreport(udid)).None?)
      && r.saved == OnlineLogs(udid, host, oracle, logcatAt, bugreportAt).saved
  {
    if !IsDeviceOnline(udid, oracle).online then LogRun(IsDeviceOnline(udid, oracle).issued, [], false)
    else
      var online := OnlineLogs(udid, host, oracle, logcatAt, bugreportAt);
      LogRun([GetState(udid), Logcat(udid), Bugreport(udid)], online.saved, online.raised)
  }
}
