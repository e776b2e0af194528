/**
 * `connect_to_adb.py`: connecting to every network-attached device the
 * inventory lists, first on adb's port 5555 and, failing that, on port 4242
 * where Neat devices listen. Running adb is an oracle; the printed progress
 * messages are not modelled.
 */
module Connect {
  import opened Wrappers
  import opened Text
  import opened Numbers
  import opened Inventory
  import opened Artifacts
  import Telemetry

  // ---------------------------------------------------------------------------
  // is_valid_ip (lines 24-27)
  // ---------------------------------------------------------------------------

  /** One `\d{1,3}` group: one to three ASCII digits. */
  predicate Octet(s: string) {
    1 <= |s| <= 3 && forall i :: 0 <= i < |s| ==> IsDigit(s[i])
  }

  /** Four groups separated by dots, and nothing else. */
  predicate DottedQuad(s: string) {
    var parts := SplitOn(s, '.');
    |parts| == 4 && Octet(parts[0]) && Octet(parts[1]) && Octet(parts[2]) && Octet(parts[3])
  }

  function Quad(a: string, b: string, c: string, d: string): string {
    a + "." + b + "." + c + "." + d
  }

  /**
   * The language of `^(\d{1,3}\.){3}\d{1,3}$` under `re.match`: four groups of
   * one to three digits joined by dots, optionally followed by one newline,
   * since `$` also matches just before a final newline.
   */
  ghost predicate MatchesIpPattern(s: string) {
    exists a, b, c, d :: Octet(a) && Octet(b) && Octet(c) && Octet(d) &&
      (s == Quad(a, b, c, d) || s == Quad(a, b, c, d) + "\n")
  }

  /**
   * `is_valid_ip`: the dotted-quad shape only; the groups are not checked
   * against 255.
   */
  function IsValidIp(s: string): (ok: bool) {
    DottedQuad(s) || (|s| > 0 && s[|s| - 1] == '\n' && DottedQuad(s[..|s| - 1]))
  }

  lemma QuadIsJoin(a: string, b: string, c: string, d: string)
    ensures Quad(a, b, c, d) == Join([a, b, c, d], '.')
  {
    assert [a, b, c, d][1..] == [b, c, d];
    assert [b, c, d][1..] == [c, d];
    assert [c, d][1..] == [d];
    assert Join([c, d], '.') == c + "." + d;
    assert Join([b, c, d], '.') == b + "." + (c + "." + d);
    assert Join([a, b, c, d], '.') == a + "." + (b + "." + (c + "." + d));
  }

  lemma OctetNoDot(s: string)
    requires Octet(s)
    ensures '.' !in s
  {
    assert forall i :: 0 <= i < |s| ==> s[i] != '.';
  }

  lemma SplitQuad(a: string, b: string, c: string, d: string)
    requires '.' !in a && '.' !in b && '.' !in c && '.' !in d
    ensures SplitOn(Quad(a, b, c, d), '.') == [a, b, c, d]
  {
    QuadIsJoin(a, b, c, d);
    SplitOnJoin([a, b, c, d], '.');
  }

  lemma DottedQuadIsQuad(s: string)
    requires DottedQuad(s)
    ensures var p := SplitOn(s, '.'); s == Quad(p[0], p[1], p[2], p[3])
  {
    var p := SplitOn(s, '.');
    assert p == [p[0], p[1], p[2], p[3]];
    QuadIsJoin(p[0], p[1], p[2], p[3]);
  }

  /** Every text the validator accepts matches the regular expression. */
  lemma ValidIpMatches(s: string)
    requires IsValidIp(s)
    ensures MatchesIpPattern(s)
  {
    if DottedQuad(s) {
      var p := SplitOn(s, '.');
      DottedQuadIsQuad(s);
      assert Octet(p[0]) && Octet(p[1]) && Octet(p[2]) && Octet(p[3]);
    } else {
      var t := s[..|s| - 1];
      var p := SplitOn(t, '.');
      DottedQuadIsQuad(t);
      assert s == t + "\n";
      assert Octet(p[0]) && Octet(p[1]) && Octet(p[2]) && Octet(p[3]);
    }
  }

  /** Every text the regular expression matches passes the validator. */
  lemma MatchesValidIp(s: string)
    requires MatchesIpPattern(s)
    ensures IsValidIp(s)
  {
    var a, b, c, d :| Octet(a) && Octet(b) && Octet(c) && Octet(d) &&
      (s == Quad(a, b, c, d) || s == Quad(a, b, c, d) + "\n");
    OctetsAccepted(a, b, c, d);
  }

  /** `is_valid_ip` accepts exactly the texts the regular expression matches. */
  lemma IsValidIpMatchesPattern(s: string)
    ensures IsValidIp(s) <==> MatchesIpPattern(s)
  {
    if IsValidIp(s) {
      ValidIpMatches(s);
    }
    if MatchesIpPattern(s) {
      MatchesValidIp(s);
    }
  }

  /** Four digit groups of one to three digits pass, with or without one trailing newline. */
  lemma OctetsAccepted(a: string, b: string, c: string, d: string)
    requires Octet(a) && Octet(b) && Octet(c) && Octet(d)
    ensures IsValidIp(Quad(a, b, c, d))
    ensures IsValidIp(Quad(a, b, c, d) + "\n")
  {
    OctetNoDot(a);
    OctetNoDot(b);
    OctetNoDot(c);
    OctetNoDot(d);
    SplitQuad(a, b, c, d);
    var q := Quad(a, b, c, d);
    assert (q + "\n")[..|q + "\n"| - 1] == q;
  }

  /** Four dot-free groups fail as soon as one of them is not a digit group. */
  lemma NonOctetRejected(a: string, b: string, c: string, d: string)
    requires '.' !in a && '.' !in b && '.' !in c && '.' !in d
    requires |d| > 0 && d[|d| - 1] != '\n'
    requires !(Octet(a) && Octet(b) && Octet(c) && Octet(d))
    ensures !IsValidIp(Quad(a, b, c, d))
  {
    SplitQuad(a, b, c, d);
    var q := Quad(a, b, c, d);
    assert q[|q| - 1] == d[|d| - 1];
  }

  /** A private-network address passes. */
  lemma PrivateAddressAccepted()
    ensures IsValidIp("192.168.1.10")
  {
    OctetsAccepted("192", "168", "1", "10");
    assert "192.168.1.10" == Quad("192", "168", "1", "10");
  }

  /** The groups are not range-checked: 999.999.999.999 passes. */
  lemma OutOfRangeAccepted()
    ensures IsValidIp("999.999.999.999")
  {
    OctetsAccepted("999", "999", "999", "999");
    assert "999.999.999.999" == Quad("999", "999", "999", "999");
  }

  /** One trailing newline passes, since `$` matches before it. */
  lemma TrailingNewlineAccepted()
    ensures IsValidIp("10.0.0.1\n")
  {
    OctetsAccepted("10", "0", "0", "1");
    assert "10.0.0.1\n" == Quad("10", "0", "0", "1") + "\n";
  }

  /** Too few or too many groups are rejected. */
  lemma WrongGroupCounts()
    ensures !IsValidIp("1.2.3")
    ensures !IsValidIp("1.2.3.4.5")
  {
    ThreeGroupsRejected();
    FiveGroupsRejected();
  }

  lemma ThreeGroupsRejected()
    ensures !IsValidIp("1.2.3")
  {
    SplitOnJoin(["1", "2", "3"], '.');
    assert "1.2.3" == Join(["1", "2", "3"], '.') by {
      assert ["1", "2", "3"][1..] == ["2", "3"];
      assert ["2", "3"][1..] == ["3"];
    }
  }

  lemma FiveGroupsRejected()
    ensures !IsValidIp("1.2.3.4.5")
  {
    SplitOnJoin(["1", "2", "3", "4", "5"], '.');
    assert "1.2.3.4.5" == Join(["1", "2", "3", "4", "5"], '.') by {
      assert ["1", "2", "3", "4", "5"][1..] == ["2", "3", "4", "5"];
      QuadIsJoin("2", "3", "4", "5");
    }
  }

  /** An empty group is rejected. */
  lemma EmptyGroupRejected()
    ensures !IsValidIp("1..2.3")
  {
    NonOctetRejected("1", "", "2", "3");
    assert "1..2.3" == Quad("1", "", "2", "3");
  }

  /** Leading blanks are not stripped before the check. */
  lemma LeadingBlankRejected()
    ensures !IsValidIp(" 1.2.3.4")
  {
    assert !Octet(" 1") by {
      assert !IsDigit(" 1"[0]);
    }
    NonOctetRejected(" 1", "2", "3", "4");
    assert " 1.2.3.4" == Quad(" 1", "2", "3", "4");
  }

  /** An address with a port suffix is rejected. */
  lemma PortSuffixRejected()
    ensures !IsValidIp("1.2.3.4:5555")
  {
    assert !Octet("4:5555");
    NonOctetRejected("1", "2", "3", "4:5555");
    assert "1.2.3.4:5555" == Quad("1", "2", "3", "4:5555");
  }

  // ---------------------------------------------------------------------------
  // connect_to_device (lines 5-22)
  // ---------------------------------------------------------------------------

  /**
   * What `adb_command` returns: adb's standard output and standard error, or
   * `None` and the exception's text when running adb raised (no adb at the
   * configured path, say).
   */
  datatype Reply = Reply(stdout: Option<string>, stderr: string)

  const ConnectedMarker: string := "connected"

  /** A call that returns a value or raises. */
  datatype Outcome<T> = Returned(value: T) | Raised

  /**
   * `connect_to_device` as written: `output.lower()` is evaluated even when
   * `adb_command` returned `None`, and raises `AttributeError` then.
   */
  function ConnectAsWritten(reply: Reply): (r: Outcome<(bool, string)>)
    ensures r.Raised? <==> reply.stdout.None?
  {
    match reply.stdout
    case None => Raised
    case Some(out) =>
      if Contains(Lower(out), ConnectedMarker) then Returned((true, out)) else Returned((false, reply.stderr))
  }

  /** With no adb executable, the connection attempt crashes instead of failing. */
  lemma MissingAdbRaises()
    ensures ConnectAsWritten(Reply(None, "[WinError 2] The system cannot find the file specified")).Raised?
  {
  }

  /**
   * `connect_to_device` as evidently intended: success exactly when adb's
   * output mentions `connected` in any letter case, returning that output;
   * otherwise failure with adb's error text, also when adb could not be run.
   * Wherever the code as written returns, it returns the same.
   */
  function ConnectToDevice(reply: Reply): (r: (bool, string))
    ensures r.0 <==> reply.stdout.Some? && Contains(Lower(reply.stdout.value), ConnectedMarker)
    ensures r.0 ==> r.1 == reply.stdout.value
    ensures !r.0 ==> r.1 == reply.stderr
    ensures reply.stdout.Some? ==> ConnectAsWritten(reply) == Returned(r)
  {
    match reply.stdout
    case None => (false, reply.stderr)
    case Some(out) => if Contains(Lower(out), ConnectedMarker) then (true, out) else (false, reply.stderr)
  }

  lemma InfixContained(p: string, sub: string, t: string)
    ensures Contains(p + sub + t, sub)
  {
    assert OccursAt(p + sub + t, sub, |p|) by {
      assert (p + sub + t)[|p|..|p| + |sub|] == sub;
    }
    ContainsIffOccurs(p + sub + t, sub);
  }

  /** adb's own success message counts. */
  lemma ConnectedReply()
    ensures ConnectToDevice(Reply(Some("connected to 10.0.0.5:5555"), "")) == (true, "connected to 10.0.0.5:5555")
  {
    PrefixContained(ConnectedMarker, " to 10.0.0.5:5555");
    assert Lower("connected to 10.0.0.5:5555") == ConnectedMarker + " to 10.0.0.5:5555";
  }

  /** The marker counts in any letter case and anywhere in the output. */
  lemma AlreadyConnectedReply()
    ensures ConnectToDevice(Reply(Some("Already Connected to 10.0.0.5:5555"), "")).0
  {
    var s := Lower("Already Connected to 10.0.0.5:5555");
    assert s == "already " + ConnectedMarker + " to 10.0.0.5:5555";
    InfixContained("already ", ConnectedMarker, " to 10.0.0.5:5555");
  }

  /**
   * A refusal is a failure carrying adb's error text. In the corrected
   * connect a missing adb is one too; the code as written raises instead.
   */
  lemma FailedReplies()
    ensures ConnectToDevice(Reply(Some("cannot connect to 10.0.0.5:5555"), "refused")) == (false, "refused")
    ensures ConnectToDevice(Reply(None, "adb not found")) == (false, "adb not found")
  {
    var s := "cannot connect to 10.0.0.5:5555";
    var t := Lower(s);
    assert forall i :: 0 <= i < |s| ==> !('A' <= s[i] <= 'Z');
    LowerOfLower(s);
    assert ConnectedMarker[8] == 'd';
    MissingCharNotContained(t, ConnectedMarker, 8);
  }

  // ---------------------------------------------------------------------------
  // main (lines 29-81): one pass over the inventory rows
  // ---------------------------------------------------------------------------

  /**
   * adb as `main` meets it: what `connect <ip>:<port>` returns when issued for
   * the `i`-th inventory row (counting from 0) on the given port.
   */
  type Adb = (nat, string) -> Reply

  /** adb's default TCP port, tried first. */
  const DirectPort: string := "5555"
  /** The port Neat devices listen on, tried only when the default port fails. */
  const NeatPort: string := "4242"

  function Connects(adb: Adb, i: nat, port: string): bool {
    ConnectToDevice(adb(i, port)).0
  }

  /** `connect_to_device` as written raises on this attempt: adb could not be run. */
  function Raises(adb: Adb, i: nat, port: string): bool {
    ConnectAsWritten(adb(i, port)).Raised?
  }

  /** A row is tried only when its `udid` cell is present, non-empty and shaped like an IPv4 address. */
  predicate Eligible(row: Row) {
    UdidColumn in row && row[UdidColumn] != [] && IsValidIp(row[UdidColumn])
  }

  /**
   * What became of one row: skipped for a malformed address, connected on the
   * default port or as a Neat device, unreachable on both, a connection whose
   * row has no `Host` column, where `row['Host']` raises `KeyError`, or an
   * attempt for which adb could not be run, where `connect_to_device` raises
   * `AttributeError` (lines 11-19). The last two end the run.
   */
  datatype RowOutcome = Skipped | Direct | Neat | Unreachable | HostMissing | AdbMissing

  /** The outcomes on which `main` raises and stops. */
  predicate Crashes(o: RowOutcome) {
    o.HostMissing? || o.AdbMissing?
  }

  /** The outcome of one row and the ports tried for it, in order. */
  datatype RowRun = RowRun(outcome: RowOutcome, ports: seq<string>)

  /**
   * One iteration of the loop in `main`, with `connect_to_device` as written:
   * the default port first, port 4242 exactly when the default port returns a
   * failure, and nothing at all for a row whose address is malformed. An
   * attempt that raises ends the row, and the run, on the port it was made on.
   */
  function ConnectRow(row: Row, i: nat, adb: Adb): (r: RowRun)
    ensures r.ports == [] <==> !Eligible(row)
    ensures r.outcome.Skipped? <==> !Eligible(row)
    ensures |r.ports| <= 2 && (r.ports != [] ==> r.ports[0] == DirectPort)
    ensures |r.ports| == 2 <==> Eligible(row) && !Raises(adb, i, DirectPort) && !Connects(adb, i, DirectPort)
    ensures |r.ports| == 2 ==> r.ports[1] == NeatPort
    ensures r.outcome.Direct? <==> Eligible(row) && Connects(adb, i, DirectPort) && HostColumn in row
    ensures r.outcome.Neat? <==>
      Eligible(row) && !Raises(adb, i, DirectPort) && !Connects(adb, i, DirectPort) && Connects(adb, i, NeatPort)
      && HostColumn in row
    ensures r.outcome.Unreachable? <==>
      Eligible(row) && !Raises(adb, i, DirectPort) && !Connects(adb, i, DirectPort)
      && !Raises(adb, i, NeatPort) && !Connects(adb, i, NeatPort)
    ensures r.outcome.HostMissing? <==>
      Eligible(row) && HostColumn !in row
      && (Connects(adb, i, DirectPort) || (!Raises(adb, i, DirectPort) && Connects(adb, i, NeatPort)))
    ensures r.outcome.AdbMissing? <==>
      Eligible(row) && (Raises(adb, i, DirectPort) || (!Connects(adb, i, DirectPort) && Raises(adb, i, NeatPort)))
  {
    if !Eligible(row) then RowRun(Skipped, [])
    else if Raises(adb, i, DirectPort) then RowRun(AdbMissing, [DirectPort])
    else if Connects(adb, i, DirectPort) then
      RowRun(if HostColumn in row then Direct else HostMissing, [DirectPort])
    else if Raises(adb, i, NeatPort) then RowRun(AdbMissing, [DirectPort, NeatPort])
    else if Connects(adb, i, NeatPort) then
      RowRun(if HostColumn in row then Neat else HostMissing, [DirectPort, NeatPort])
    else RowRun(Unreachable, [DirectPort, NeatPort])
  }

  const Separator: string := " - "
  const DirectSuffix: string := " - connected on port 5555"
  const NeatSuffix: string := " - connected on port 4242 (Neat device)"

  /** A line of the final listing: host, address and how the device was reached. */
  function Entry(host: string, ip: string, neat: bool): string {
    host + Separator + ip + (if neat then NeatSuffix else DirectSuffix)
  }

  predicate EndsWith(s: string, suffix: string) {
    |suffix| <= |s| && s[|s| - |suffix|..] == suffix
  }

  /**
   * Reads a listing line back into host, address and whether it was a Neat
   * device; the address is what follows the last `-`.
   */
  function ParseEntry(e: string): Option<(string, string, bool)> {
    var neat := !EndsWith(e, DirectSuffix);
    if !neat || EndsWith(e, NeatSuffix) then
      var rest := e[..|e| - |if neat then NeatSuffix else DirectSuffix|];
      match LastIndex(rest, '-')
      case None => None
      case Some(k) =>
        if 1 <= k && k + 2 <= |rest| && rest[k - 1..k + 2] == Separator then Some((rest[..k - 1], rest[k + 2..], neat))
        else None
    else None
  }

  lemma OctetNoDash(s: string)
    requires Octet(s)
    ensures '-' !in s
  {
    assert forall i :: 0 <= i < |s| ==> s[i] != '-';
  }

  /** An address that passes the validator has no `-` in it. */
  lemma ValidIpNoDash(ip: string)
    requires IsValidIp(ip)
    ensures '-' !in ip
  {
    IsValidIpMatchesPattern(ip);
    var a, b, c, d :| Octet(a) && Octet(b) && Octet(c) && Octet(d) &&
      (ip == Quad(a, b, c, d) || ip == Quad(a, b, c, d) + "\n");
    OctetNoDash(a);
    OctetNoDash(b);
    OctetNoDash(c);
    OctetNoDash(d);
  }

  /** The suffix tells the two listings apart, and cutting it leaves host, separator and address. */
  lemma EntrySuffix(host: string, ip: string, neat: bool)
    ensures var e := Entry(host, ip, neat); var suffix := if neat then NeatSuffix else DirectSuffix;
      && (EndsWith(e, DirectSuffix) <==> !neat)
      && EndsWith(e, suffix)
      && e[..|e| - |suffix|] == host + Separator + ip
  {
    var e := Entry(host, ip, neat);
    var suffix := if neat then NeatSuffix else DirectSuffix;
    var rest := host + Separator + ip;
    assert e == rest + suffix;
    assert e[|e| - |suffix|..] == suffix;
    assert e[..|e| - |suffix|] == rest;
    if neat {
      assert e[|e| - 1] == ')' && DirectSuffix[|DirectSuffix| - 1] == '5';
    }
  }

  /** An address without `-` is cut off its host at the last `-`. */
  lemma SplitAtSeparator(host: string, ip: string)
    requires '-' !in ip
    ensures var rest := host + Separator + ip; var k := |host| + 1;
      && LastIndex(rest, '-') == Some(k)
      && rest[k - 1..k + 2] == Separator && rest[..k - 1] == host && rest[k + 2..] == ip
  {
    var rest := host + Separator + ip;
    assert rest == (host + " ") + ['-'] + (" " + ip);
    assert '-' !in " " + ip;
    LastIndexBefore(host + " ", '-', " " + ip);
  }

  /** Every listing line names the host and the address it was made from, and the port. */
  lemma EntryRoundTrip(host: string, ip: string, neat: bool)
    requires IsValidIp(ip)
    ensures ParseEntry(Entry(host, ip, neat)) == Some((host, ip, neat))
  {
    EntrySuffix(host, ip, neat);
    ValidIpNoDash(ip);
    SplitAtSeparator(host, ip);
  }

  /** One `connect` issued by `main`: the row it was issued for and the port. */
  datatype Attempt = Attempt(row: nat, port: string)

  /**
   * What a pass over the inventory leaves: the two listings `main` prints,
   * every connection attempt in the order issued, and whether the pass ended
   * on an exception.
   */
  datatype Report = Report(connected: seq<string>, neat: seq<string>, attempts: seq<Attempt>, crashed: bool)

  function Tried(i: nat, ports: seq<string>): (ts: seq<Attempt>)
    ensures |ts| == |ports|
    ensures forall k :: 0 <= k < |ts| ==> ts[k] == Attempt(i, ports[k])
  {
    seq(|ports|, k requires 0 <= k < |ports| => Attempt(i, ports[k]))
  }

  /** The loop body applied to the `i`-th row; after a crash nothing more happens. */
  function Step(rep: Report, row: Row, i: nat, adb: Adb): Report {
    if rep.crashed then rep
    else
      var run := ConnectRow(row, i, adb);
      var attempts := rep.attempts + Tried(i, run.ports);
      match run.outcome
      case Direct => Report(rep.connected + [Entry(row[HostColumn], row[UdidColumn], false)], rep.neat, attempts, false)
      case Neat => Report(rep.connected, rep.neat + [Entry(row[HostColumn], row[UdidColumn], true)], attempts, false)
      case HostMissing => Report(rep.connected, rep.neat, attempts, true)
      case AdbMissing => Report(rep.connected, rep.neat, attempts, true)
      case _ => Report(rep.connected, rep.neat, attempts, false)
  }

  /** `main`'s loop over the rows, in file order. */
  function ConnectRows(rows: seq<Row>, adb: Adb): Report
    decreases |rows|
  {
    if |rows| == 0 then Report([], [], [], false)
    else Step(ConnectRows(rows[..|rows| - 1], adb), rows[|rows| - 1], |rows| - 1, adb)
  }

  /** The attempts made for row `i`, in the order issued. */
  function AttemptsFor(ts: seq<Attempt>, i: nat): (r: seq<Attempt>)
    ensures |r| <= |ts|
    ensures forall t :: t in r <==> t in ts && t.row == i
  {
    if |ts| == 0 then []
    else (if ts[0].row == i then [ts[0]] else []) + AttemptsFor(ts[1..], i)
  }

  lemma {:induction false} AttemptsForConcat(a: seq<Attempt>, b: seq<Attempt>, i: nat)
    ensures AttemptsFor(a + b, i) == AttemptsFor(a, i) + AttemptsFor(b, i)
  {
    if |a| == 0 {
      assert a + b == b;
    } else {
      var head := if a[0].row == i then [a[0]] else [];
      assert (a + b)[0] == a[0] && (a + b)[1..] == a[1..] + b;
      AttemptsForConcat(a[1..], b, i);
      Telemetry.AppendAssociative(head, AttemptsFor(a[1..], i), AttemptsFor(b, i));
    }
  }

  /** One row's attempts belong to that row alone. */
  lemma AttemptsForTried(j: nat, ports: seq<string>, i: nat)
    ensures AttemptsFor(Tried(j, ports), i) == if i == j then Tried(j, ports) else []
  {
    var ts := Tried(j, ports);
    if i == j {
      assert forall t :: t in AttemptsFor(ts, i) ==> t in ts;
      AttemptsForAll(ts, i);
    } else {
      assert forall t :: t in ts ==> t.row == j;
      if AttemptsFor(ts, i) != [] {
        assert AttemptsFor(ts, i)[0] in AttemptsFor(ts, i);
      }
    }
  }

  lemma {:induction false} AttemptsForAll(ts: seq<Attempt>, i: nat)
    requires forall t :: t in ts ==> t.row == i
    ensures AttemptsFor(ts, i) == ts
  {
    if |ts| > 0 {
      assert ts[0] in ts;
      AttemptsForAll(ts[1..], i);
    }
  }

  /**
   * At most one listing line per row, and at most two attempts per row: the
   * default port and, as its fallback, port 4242. No attempt names a row past
   * the end of the inventory.
   */
  lemma {:induction false} ReportBounded(rows: seq<Row>, adb: Adb)
    ensures var rep := ConnectRows(rows, adb);
      |rep.connected| + |rep.neat| <= |rows| && |rep.attempts| <= 2 * |rows|
    ensures forall i: nat :: |AttemptsFor(ConnectRows(rows, adb).attempts, i)| <= 2
    ensures forall i: nat :: i >= |rows| ==> AttemptsFor(ConnectRows(rows, adb).attempts, i) == []
    decreases |rows|
  {
    if |rows| > 0 {
      var n := |rows| - 1;
      var prev := ConnectRows(rows[..n], adb);
      ReportBounded(rows[..n], adb);
      if !prev.crashed {
        var ports := ConnectRow(rows[n], n, adb).ports;
        assert ConnectRows(rows, adb).attempts == prev.attempts + Tried(n, ports);
        forall i: nat ensures AttemptsFor(ConnectRows(rows, adb).attempts, i) ==
          AttemptsFor(prev.attempts, i) + (if i == n then Tried(n, ports) else [])
        {
          AttemptsForConcat(prev.attempts, Tried(n, ports), i);
          AttemptsForTried(n, ports, i);
        }
      }
    }
  }

  /** What the loop body does to a report, spelled out. */
  lemma StepShape(rep: Report, row: Row, i: nat, adb: Adb)
    ensures var next := Step(rep, row, i, adb); var run := ConnectRow(row, i, adb);
      (rep.crashed ==> next == rep) &&
      (!rep.crashed ==>
        next.attempts == rep.attempts + Tried(i, run.ports) &&
        next.crashed == Crashes(run.outcome) &&
        next.connected == rep.connected + (if run.outcome.Direct? then [Entry(row[HostColumn], row[UdidColumn], false)] else []) &&
        next.neat == rep.neat + (if run.outcome.Neat? then [Entry(row[HostColumn], row[UdidColumn], true)] else []))
  {
  }

  /** The `k`-th attempt is for a row with a well-formed address, on one of the two ports, and port 4242 only as a fallback. */
  ghost predicate AttemptJustified(rows: seq<Row>, adb: Adb, ts: seq<Attempt>, k: int)
    requires 0 <= k < |ts|
  {
    ts[k].row < |rows| && Eligible(rows[ts[k].row]) && (ts[k].port == DirectPort || ts[k].port == NeatPort) &&
    (ts[k].port == NeatPort ==>
      0 < k && ts[k - 1] == Attempt(ts[k].row, DirectPort) && !Raises(adb, ts[k].row, DirectPort) && !Connects(adb, ts[k].row, DirectPort))
  }

  /**
   * Every attempt belongs to a row with a well-formed address; every port 4242
   * attempt comes right after a failed default-port attempt on the same row.
   */
  lemma {:induction false} FallbackOrder(rows: seq<Row>, adb: Adb)
    ensures forall k :: 0 <= k < |ConnectRows(rows, adb).attempts| ==>
      AttemptJustified(rows, adb, ConnectRows(rows, adb).attempts, k)
    decreases |rows|
  {
    if |rows| > 0 {
      var i := |rows| - 1;
      var init := rows[..i];
      FallbackOrder(init, adb);
      var prev := ConnectRows(init, adb);
      var ts := ConnectRows(rows, adb).attempts;
      StepShape(prev, rows[i], i, adb);
      var run := ConnectRow(rows[i], i, adb);
      var added := if prev.crashed then [] else Tried(i, run.ports);
      assert ts == prev.attempts + added;
      forall k | 0 <= k < |ts| ensures AttemptJustified(rows, adb, ts, k) {
        if k < |prev.attempts| {
          assert AttemptJustified(init, adb, prev.attempts, k);
          assert ts[k] == prev.attempts[k];
          assert k > 0 ==> ts[k - 1] == prev.attempts[k - 1];
          assert rows[ts[k].row] == init[ts[k].row];
        } else {
          var m := k - |prev.attempts|;
          assert ts[k] == Attempt(i, run.ports[m]);
          assert m == 1 ==> ts[k - 1] == Attempt(i, DirectPort);
        }
      }
    }
  }

  ghost predicate ListedFrom(rows: seq<Row>, adb: Adb, e: string, neat: bool) {
    exists i :: 0 <= i < |rows| && ListedAs(rows, adb, e, neat, i)
  }

  ghost predicate ListedAs(rows: seq<Row>, adb: Adb, e: string, neat: bool, i: int)
    requires 0 <= i < |rows|
  {
    var outcome := ConnectRow(rows[i], i, adb).outcome;
    (if neat then outcome.Neat? else outcome.Direct?) &&
    e == Entry(rows[i][HostColumn], rows[i][UdidColumn], neat)
  }

  /**
   * Every line of the default-port listing comes from a row that connected on
   * 5555 and has a `Host` cell; every Neat line from a row that failed on 5555
   * and connected on 4242.
   */
  lemma {:induction false} EntriesTraceBack(rows: seq<Row>, adb: Adb)
    ensures var rep := ConnectRows(rows, adb);
      (forall e :: e in rep.connected ==> ListedFrom(rows, adb, e, false)) &&
      (forall e :: e in rep.neat ==> ListedFrom(rows, adb, e, true))
    decreases |rows|
  {
    if |rows| > 0 {
      var i := |rows| - 1;
      var init := rows[..i];
      EntriesTraceBack(init, adb);
      var prev := ConnectRows(init, adb);
      var rep := ConnectRows(rows, adb);
      StepShape(prev, rows[i], i, adb);
      forall e, neat | e in (if neat then rep.neat else rep.connected) ensures ListedFrom(rows, adb, e, neat) {
        if e in (if neat then prev.neat else prev.connected) {
          assert ListedFrom(init, adb, e, neat);
          var j :| 0 <= j < |init| && ListedAs(init, adb, e, neat, j);
          assert rows[j] == init[j];
          assert ListedAs(rows, adb, e, neat, j);
        } else {
          assert ListedAs(rows, adb, e, neat, i);
        }
      }
    }
  }

  /**
   * `src[k]` is the row the `k`-th line of a listing was printed for, and the
   * rows are strictly increasing: no row gives a listing two lines.
   */
  ghost predicate Provenance(rows: seq<Row>, adb: Adb, lines: seq<string>, neat: bool, src: seq<int>) {
    && |src| == |lines|
    && (forall k :: 0 <= k < |src| ==> 0 <= src[k] < |rows| && ListedAs(rows, adb, lines[k], neat, src[k]))
    && (forall k, m :: 0 <= k < m < |src| ==> src[k] < src[m])
  }

  /** A listing for the rows so far stays traced when one more row is read. */
  lemma ProvenanceKept(rows: seq<Row>, adb: Adb, lines: seq<string>, neat: bool, src: seq<int>)
    requires |rows| > 0 && Provenance(rows[..|rows| - 1], adb, lines, neat, src)
    ensures Provenance(rows, adb, lines, neat, src)
  {
    var init := rows[..|rows| - 1];
    forall k | 0 <= k < |src| ensures ListedAs(rows, adb, lines[k], neat, src[k]) {
      assert ListedAs(init, adb, lines[k], neat, src[k]);
      assert rows[src[k]] == init[src[k]];
    }
  }

  /** A line for the last row read extends a traced listing. */
  lemma ProvenanceAppend(rows: seq<Row>, adb: Adb, lines: seq<string>, neat: bool, src: seq<int>, e: string)
    requires |rows| > 0 && Provenance(rows, adb, lines, neat, src)
    requires forall k :: 0 <= k < |src| ==> src[k] < |rows| - 1
    requires ListedAs(rows, adb, e, neat, |rows| - 1)
    ensures Provenance(rows, adb, lines + [e], neat, src + [|rows| - 1])
  {
    var src' := src + [|rows| - 1];
    var lines' := lines + [e];
    assert forall k :: 0 <= k < |src| ==> src'[k] == src[k] && lines'[k] == lines[k];
  }

  /** No row is listed under both ports. */
  lemma ProvenanceDisjoint(rows: seq<Row>, adb: Adb, c: seq<string>, n: seq<string>, cs: seq<int>, ns: seq<int>)
    requires Provenance(rows, adb, c, false, cs) && Provenance(rows, adb, n, true, ns)
    ensures forall k, m :: 0 <= k < |cs| && 0 <= m < |ns| ==> cs[k] != ns[m]
  {
    forall k, m | 0 <= k < |cs| && 0 <= m < |ns| ensures cs[k] != ns[m] {
      assert ListedAs(rows, adb, c[k], false, cs[k]);
      assert ListedAs(rows, adb, n[m], true, ns[m]);
    }
  }

  /**
   * `cs` and `ns` trace the two listings of `rep` back to their rows, and no
   * row is in both.
   */
  ghost predicate Traced(rows: seq<Row>, adb: Adb, rep: Report, cs: seq<int>, ns: seq<int>) {
    && Provenance(rows, adb, rep.connected, false, cs)
    && Provenance(rows, adb, rep.neat, true, ns)
    && (forall k, m :: 0 <= k < |cs| && 0 <= m < |ns| ==> cs[k] != ns[m])
  }

  /**
   * Each row gives at most one line across both listings: the lines of each
   * listing come from distinct rows, in row order, and no row is in both.
   */
  lemma {:induction false} OneEntryPerRow(rows: seq<Row>, adb: Adb)
    ensures exists cs, ns :: Traced(rows, adb, ConnectRows(rows, adb), cs, ns)
    decreases |rows|
  {
    var rep := ConnectRows(rows, adb);
    if |rows| == 0 {
      assert Traced(rows, adb, rep, [], []);
    } else {
      var i := |rows| - 1;
      var init := rows[..i];
      OneEntryPerRow(init, adb);
      var prev := ConnectRows(init, adb);
      var cs, ns :| Traced(init, adb, prev, cs, ns);
      StepShape(prev, rows[i], i, adb);
      var outcome := ConnectRow(rows[i], i, adb).outcome;
      var direct := if !prev.crashed && outcome.Direct? then [Entry(rows[i][HostColumn], rows[i][UdidColumn], false)] else [];
      var neat := if !prev.crashed && outcome.Neat? then [Entry(rows[i][HostColumn], rows[i][UdidColumn], true)] else [];
      assert rep.connected == prev.connected + direct && rep.neat == prev.neat + neat;
      ProvenanceKept(rows, adb, prev.connected, false, cs);
      ProvenanceKept(rows, adb, prev.neat, true, ns);
      var cs' := cs;
      var ns' := ns;
      if direct != [] {
        ProvenanceAppend(rows, adb, prev.connected, false, cs, direct[0]);
        cs' := cs + [i];
      } else {
        assert prev.connected + direct == prev.connected;
      }
      if neat != [] {
        ProvenanceAppend(rows, adb, prev.neat, true, ns, neat[0]);
        ns' := ns + [i];
      } else {
        assert prev.neat + neat == prev.neat;
      }
      assert Provenance(rows, adb, prev.connected + direct, false, cs');
      assert Provenance(rows, adb, prev.neat + neat, true, ns');
      assert Provenance(rows, adb, rep.connected, false, cs') && Provenance(rows, adb, rep.neat, true, ns');
      ProvenanceDisjoint(rows, adb, rep.connected, rep.neat, cs', ns');
      assert Traced(rows, adb, rep, cs', ns');
    }
  }

  /**
   * The pass ends on an exception exactly when some row connected without a
   * `Host` cell or met an adb that could not be run.
   */
  lemma {:induction false} CrashIffRowRaises(rows: seq<Row>, adb: Adb)
    ensures ConnectRows(rows, adb).crashed <==>
      exists i :: 0 <= i < |rows| && Crashes(ConnectRow(rows[i], i, adb).outcome)
    decreases |rows|
  {
    if |rows| > 0 {
      var i := |rows| - 1;
      var init := rows[..i];
      CrashIffRowRaises(init, adb);
      StepShape(ConnectRows(init, adb), rows[i], i, adb);
      assert forall j :: 0 <= j < |init| ==> rows[j] == init[j];
    }
  }

  /** Without a crash, every row that connected is listed, under the port it connected on. */
  lemma {:induction false} ReportComplete(rows: seq<Row>, adb: Adb)
    ensures var rep := ConnectRows(rows, adb);
      !rep.crashed ==> forall i, neat :: (0 <= i < |rows| &&
        (if neat then ConnectRow(rows[i], i, adb).outcome.Neat? else ConnectRow(rows[i], i, adb).outcome.Direct?)) ==>
        Entry(rows[i][HostColumn], rows[i][UdidColumn], neat) in (if neat then rep.neat else rep.connected)
    decreases |rows|
  {
    if |rows| > 0 {
      var i := |rows| - 1;
      var init := rows[..i];
      ReportComplete(init, adb);
      var prev := ConnectRows(init, adb);
      StepShape(prev, rows[i], i, adb);
      assert forall j :: 0 <= j < |init| ==> rows[j] == init[j];
      var rep := ConnectRows(rows, adb);
      if !rep.crashed {
        assert !prev.crashed;
      }
    }
  }
}
