/**
 * The metric extractors: each turns what `run_command` returned for one adb
 * command into a number. Absent or empty output (`if output:` fails) and a
 * missing marker line give the documented default.
 *
 * Python's `float()` is not modelled: it is a `FloatParser` parameter. Python's
 * `int()` is `Numbers.ParseInt`; where the source lets `int()` raise, the
 * extractor's precondition excludes that output.
 */
module Extractors {
  import opened Wrappers
  import opened Text
  import opened Numbers

  /** Python `float(s)`: `Some(x)` when it returns `x`, `None` when it raises `ValueError`. */
  type FloatParser = string -> Option<real>

  /** The outputs `if output:` accepts: present and not empty. */
  predicate HasText(o: Option<string>) {
    o.Some? && o.value != []
  }

  /** The lines the extractors loop over; none when `if output:` fails. */
  function LinesOf(o: Option<string>): (ls: seq<string>)
    ensures !HasText(o) ==> ls == []
  {
    if HasText(o) then SplitLines(o.value) else []
  }

  // ---------------------------------------------------------------------------
  // The first line containing a marker
  // ---------------------------------------------------------------------------

  /** Line `i` is the first line that contains `marker`. */
  ghost predicate IsFirstMatch(lines: seq<string>, marker: string, i: int) {
    && 0 <= i < |lines|
    && Contains(lines[i], marker)
    && forall j :: 0 <= j < i ==> !Contains(lines[j], marker)
  }

  predicate NoMatch(lines: seq<string>, marker: string) {
    forall j :: 0 <= j < |lines| ==> !Contains(lines[j], marker)
  }

  /** The index of the first line containing `marker`, scanning as a `for` loop with `return` does. */
  function FirstWhere(lines: seq<string>, marker: string): (r: Option<nat>)
    ensures r.None? <==> NoMatch(lines, marker)
    ensures r.Some? ==> IsFirstMatch(lines, marker, r.value)
  {
    if |lines| == 0 then None
    else if Contains(lines[0], marker) then Some(0)
    else
      match FirstWhere(lines[1..], marker)
      case None => None
      case Some(i) => Some(i + 1)
  }

  /** At most one line is the first one containing a marker. */
  lemma FirstMatchUnique(lines: seq<string>, marker: string, i: int, k: int)
    requires IsFirstMatch(lines, marker, i) && IsFirstMatch(lines, marker, k)
    ensures i == k
  {
    assert !(i < k) && !(k < i);
  }

  // ---------------------------------------------------------------------------
  // get_network_usage
  // ---------------------------------------------------------------------------

  const EthMarker: string := "eth0"
  const WlanMarker: string := "wlan0"

  datatype Iface = Eth | Wlan

  /** The `if "eth0" in line: ... elif "wlan0" in line:` test: a line naming both counts as eth0. */
  predicate Selects(line: string, iface: Iface) {
    match iface
    case Eth => Contains(line, EthMarker)
    case Wlan => !Contains(line, EthMarker) && Contains(line, WlanMarker)
  }

  /** `int(parts[1])` and `int(parts[9])` succeed on this line. */
  predicate CountersParse(line: string) {
    var f := Fields(line);
    |f| >= 10 && ParseInt(f[1]).Some? && ParseInt(f[9]).Some?
  }

  /** Received bytes (field 1) and transmitted bytes (field 9) of an interface line ((0, 0) if they do not parse). */
  function Counters(line: string): (int, int) {
    if CountersParse(line) then (ParseInt(Fields(line)[1]).value, ParseInt(Fields(line)[9]).value) else (0, 0)
  }

  /** Every line the loop parses has well-formed counters, so no `int()` raises. */
  predicate NetLinesOk(lines: seq<string>) {
    forall i :: 0 <= i < |lines| && (Selects(lines[i], Eth) || Selects(lines[i], Wlan)) ==> CountersParse(lines[i])
  }

  predicate NetOutputOk(o: Option<string>) {
    NetLinesOk(LinesOf(o))
  }

  /** The index of the last line selected for `iface`. */
  function LastWhere(lines: seq<string>, iface: Iface): (r: Option<nat>)
    ensures r.Some? ==> r.value < |lines| && Selects(lines[r.value], iface)
    ensures r.Some? ==> forall j :: r.value < j < |lines| ==> !Selects(lines[j], iface)
    ensures r.None? ==> forall j :: 0 <= j < |lines| ==> !Selects(lines[j], iface)
  {
    if |lines| == 0 then None
    else
      match LastWhere(lines[1..], iface)
      case Some(i) => Some(i + 1)
      case None => if Selects(lines[0], iface) then Some(0) else None
  }

  /** The counters of the last line selected for `iface`, or `dflt` when there is none. */
  function LastPair(lines: seq<string>, iface: Iface, dflt: (int, int)): (int, int) {
    match LastWhere(lines, iface)
    case None => dflt
    case Some(i) => Counters(lines[i])
  }

  /** The counters the loop holds for each interface. */
  datatype NetScan = NetScan(eth: (int, int), wlan: (int, int))

  /** One iteration of the loop at lines 45-52. */
  function ScanStep(acc: NetScan, line: string): (r: NetScan)
    ensures r.eth == if Selects(line, Eth) then Counters(line) else acc.eth
    ensures r.wlan == if Selects(line, Wlan) then Counters(line) else acc.wlan
  {
    if Contains(line, EthMarker) then acc.(eth := Counters(line))
    else if Contains(line, WlanMarker) then acc.(wlan := Counters(line))
    else acc
  }

  /** Reading the first line turns the default into that line's counters when it is selected. */
  lemma LastPairStep(lines: seq<string>, iface: Iface, dflt: (int, int))
    requires |lines| > 0
    ensures LastPair(lines, iface, dflt) ==
      LastPair(lines[1..], iface, if Selects(lines[0], iface) then Counters(lines[0]) else dflt)
  {
    match LastWhere(lines[1..], iface)
    case Some(i) => assert lines[1..][i] == lines[i + 1];
    case None =>
  }

  /**
   * The loop at lines 45-52, each line overwriting the pair it names: the loop
   * ends holding the counters of the last eth0 line and of the last wlan0 line
   * that does not also name eth0.
   */
  function ScanNet(lines: seq<string>, acc: NetScan): (r: NetScan)
    ensures r.eth == LastPair(lines, Eth, acc.eth)
    ensures r.wlan == LastPair(lines, Wlan, acc.wlan)
  {
    if |lines| == 0 then acc
    else
      LastPairStep(lines, Eth, acc.eth);
      LastPairStep(lines, Wlan, acc.wlan);
      ScanNet(lines[1..], ScanStep(acc, lines[0]))
  }

  predicate Positive(p: (int, int)) {
    p.0 > 0 || p.1 > 0
  }

  /**
   * `get_network_usage`: `(rx, tx)` of the last eth0 line when either counter
   * is positive, regardless of any wlan0 line; otherwise that of the last
   * wlan0 line when either is positive; otherwise `(0, 0)`.
   */
  function NetworkUsage(o: Option<string>): (r: (int, int))
    requires NetOutputOk(o)
    ensures !HasText(o) ==> r == (0, 0)
    ensures var e := LastPair(LinesOf(o), Eth, (0, 0));
      Positive(e) ==> r == e
    ensures var e := LastPair(LinesOf(o), Eth, (0, 0)); var w := LastPair(LinesOf(o), Wlan, (0, 0));
      !Positive(e) && Positive(w) ==> r == w
    ensures var e := LastPair(LinesOf(o), Eth, (0, 0)); var w := LastPair(LinesOf(o), Wlan, (0, 0));
      !Positive(e) && !Positive(w) ==> r == (0, 0)
  {
    if HasText(o) then
      var s := ScanNet(SplitLines(o.value), NetScan((0, 0), (0, 0)));
      if s.eth.0 > 0 || s.eth.1 > 0 then s.eth
      else if s.wlan.0 > 0 || s.wlan.1 > 0 then s.wlan
      else (0, 0)
    else (0, 0)
  }

  // ---------------------------------------------------------------------------
  // get_memory_usage
  // ---------------------------------------------------------------------------

  const TotalMarker: string := "TOTAL"

  /** `int(line.split()[1])` succeeds. */
  predicate MemLineParses(line: string) {
    var f := Fields(line);
    |f| >= 2 && ParseInt(f[1]).Some?
  }

  /** The second whitespace-separated field of a line, as an integer (0 if it is not one). */
  function MemValue(line: string): int {
    var f := Fields(line);
    if |f| >= 2 && ParseInt(f[1]).Some? then ParseInt(f[1]).value else 0
  }

  /** The first TOTAL line, if any, parses. */
  predicate MemOutputOk(o: Option<string>) {
    match FirstWhere(LinesOf(o), TotalMarker)
    case None => true
    case Some(i) => MemLineParses(LinesOf(o)[i])
  }

  /** The loop at lines 67-70: the first TOTAL line decides. */
  function ScanMemory(lines: seq<string>): (r: int)
    ensures r == match FirstWhere(lines, TotalMarker) case None => 0 case Some(i) => MemValue(lines[i])
  {
    if |lines| == 0 then 0
    else if Contains(lines[0], TotalMarker) then MemValue(lines[0])
    else
      assert FirstWhere(lines[1..], TotalMarker).Some? ==>
        lines[1..][FirstWhere(lines[1..], TotalMarker).value] == lines[FirstWhere(lines, TotalMarker).value];
      ScanMemory(lines[1..])
  }

  /**
   * `get_memory_usage`: the second field of the first line that contains
   * `TOTAL`; 0 when the command failed, printed nothing, or printed no such line.
   */
  function MemoryUsage(o: Option<string>): (r: int)
    requires MemOutputOk(o)
    ensures !HasText(o) ==> r == 0
    ensures NoMatch(LinesOf(o), TotalMarker) ==> r == 0
    ensures forall i :: IsFirstMatch(LinesOf(o), TotalMarker, i) ==> MemLineParses(LinesOf(o)[i]) && r == MemValue(LinesOf(o)[i])
  {
    var lines := LinesOf(o);
    assert forall i :: IsFirstMatch(lines, TotalMarker, i) ==> FirstWhere(lines, TotalMarker) == Some(i) by {
      forall i | IsFirstMatch(lines, TotalMarker, i) ensures FirstWhere(lines, TotalMarker) == Some(i) {
        FirstMatchUnique(lines, TotalMarker, i, FirstWhere(lines, TotalMarker).value);
      }
    }
    if HasText(o) then ScanMemory(lines) else 0
  }

  // ---------------------------------------------------------------------------
  // get_cpu_usage
  // ---------------------------------------------------------------------------

  /** `max(float(line.split('%')[0].strip()), 0.0)`, or 0.0 when `float()` raises. */
  function CpuFromLine(line: string, parse: FloatParser): (r: real)
    ensures r >= 0.0
    ensures parse(Strip(SplitOn(line, '%')[0])).None? ==> r == 0.0
    ensures parse(Strip(SplitOn(line, '%')[0])).Some? && parse(Strip(SplitOn(line, '%')[0])).value >= 0.0 ==>
      r == parse(Strip(SplitOn(line, '%')[0])).value
    ensures parse(Strip(SplitOn(line, '%')[0])).Some? && parse(Strip(SplitOn(line, '%')[0])).value < 0.0 ==> r == 0.0
  {
    match parse(Strip(SplitOn(line, '%')[0]))
    case None => 0.0
    case Some(v) => if v >= 0.0 then v else 0.0
  }

  /**
   * On a `dumpsys cpuinfo` total line such as `12% TOTAL: 5% user + 7% kernel`,
   * the reading is the number in front of the first `%`.
   */
  lemma CpuReadsPercent(pct: string, rest: string, parse: FloatParser)
    requires pct != [] && NoSpace(pct) && '%' !in pct
    requires parse(pct).Some? && parse(pct).value >= 0.0
    ensures CpuFromLine(pct + "%" + rest, parse) == parse(pct).value
  {
    assert pct + "%" + rest == pct + (['%'] + rest);
    SplitOnSeparated(pct, rest, '%');
  }

  /**
   * `get_cpu_usage`: the percentage in front of the first `%` on the first
   * line that contains `TOTAL`, never negative; 0.0 when the command failed,
   * printed nothing, printed no such line, or the number does not parse.
   */
  function CpuUsage(o: Option<string>, parse: FloatParser): (r: real)
    ensures r >= 0.0
    ensures NoMatch(LinesOf(o), TotalMarker) ==> r == 0.0
    ensures forall i :: IsFirstMatch(LinesOf(o), TotalMarker, i) ==> r == CpuFromLine(LinesOf(o)[i], parse)
  {
    var lines := LinesOf(o);
    assert forall i :: IsFirstMatch(lines, TotalMarker, i) ==> FirstWhere(lines, TotalMarker) == Some(i) by {
      forall i | IsFirstMatch(lines, TotalMarker, i) ensures FirstWhere(lines, TotalMarker) == Some(i) {
        FirstMatchUnique(lines, TotalMarker, i, FirstWhere(lines, TotalMarker).value);
      }
    }
    if HasText(o) then
      match FirstWhere(lines, TotalMarker)
      case None => 0.0
      case Some(i) => CpuFromLine(lines[i], parse)
    else 0.0
  }

  // ---------------------------------------------------------------------------
  // get_battery_health
  // ---------------------------------------------------------------------------

  const HealthMarker: string := "health"

  /** `int(line.split(":")[1].strip())` succeeds. */
  predicate HealthLineParses(line: string) {
    var parts := SplitOn(line, ':');
    |parts| >= 2 && ParseInt(Strip(parts[1])).Some?
  }

  /** The integer after the first `:` of a line (0 if there is none). */
  function HealthValue(line: string): int {
    var parts := SplitOn(line, ':');
    if |parts| >= 2 && ParseInt(Strip(parts[1])).Some? then ParseInt(Strip(parts[1])).value else 0
  }

  /** The first health line, if any, parses. */
  predicate BatteryOutputOk(o: Option<string>) {
    match FirstWhere(LinesOf(o), HealthMarker)
    case None => true
    case Some(i) => HealthLineParses(LinesOf(o)[i])
  }

  /** The loop at lines 93-96: the first health line decides. */
  function ScanHealth(lines: seq<string>): (r: int)
    ensures r == match FirstWhere(lines, HealthMarker) case None => 0 case Some(i) => HealthValue(lines[i])
  {
    if |lines| == 0 then 0
    else if Contains(lines[0], HealthMarker) then HealthValue(lines[0])
    else
      assert FirstWhere(lines[1..], HealthMarker).Some? ==>
        lines[1..][FirstWhere(lines[1..], HealthMarker).value] == lines[FirstWhere(lines, HealthMarker).value];
      ScanHealth(lines[1..])
  }

  /**
   * `get_battery_health`: the integer after the first `:` on the first line
   * that contains `health`; 0 when the command failed, printed nothing, or
   * printed no such line.
   */
  function BatteryHealth(o: Option<string>): (r: int)
    requires BatteryOutputOk(o)
    ensures !HasText(o) ==> r == 0
    ensures NoMatch(LinesOf(o), HealthMarker) ==> r == 0
    ensures forall i :: IsFirstMatch(LinesOf(o), HealthMarker, i) ==>
      HealthLineParses(LinesOf(o)[i]) && r == HealthValue(LinesOf(o)[i])
  {
    var lines := LinesOf(o);
    assert forall i :: IsFirstMatch(lines, HealthMarker, i) ==> FirstWhere(lines, HealthMarker) == Some(i) by {
      forall i | IsFirstMatch(lines, HealthMarker, i) ensures FirstWhere(lines, HealthMarker) == Some(i) {
        FirstMatchUnique(lines, HealthMarker, i, FirstWhere(lines, HealthMarker).value);
      }
    }
    if HasText(o) then ScanHealth(lines) else 0
  }

  // ---------------------------------------------------------------------------
  // get_uptime
  // ---------------------------------------------------------------------------

  /** `float(output.split()[0])` neither finds no token nor raises. */
  predicate UptimeOutputOk(o: Option<string>, parse: FloatParser) {
    HasText(o) ==> |Fields(o.value)| >= 1 && parse(Fields(o.value)[0]).Some?
  }

  /** `get_uptime`: the first whitespace-separated token read as seconds; 0.0 without output. */
  function UptimeSeconds(o: Option<string>, parse: FloatParser): (r: real)
    requires UptimeOutputOk(o, parse)
    ensures !HasText(o) ==> r == 0.0
    ensures HasText(o) ==> parse(Fields(o.value)[0]) == Some(r)
  {
    if HasText(o) then parse(Fields(o.value)[0]).value else 0.0
  }

  /**
   * `/proc/uptime` holds the uptime and the idle time; only the first token
   * is read, whatever follows it.
   */
  lemma UptimeReadsFirstToken(up: string, rest: seq<string>, parse: FloatParser)
    requires up != [] && NoSpace(up) && parse(up).Some?
    requires forall i :: 0 <= i < |rest| ==> rest[i] != [] && NoSpace(rest[i])
    ensures UptimeOutputOk(Some(Join([up] + rest, ' ')), parse)
    ensures UptimeSeconds(Some(Join([up] + rest, ' ')), parse) == parse(up).value
  {
    var fs := [up] + rest;
    assert forall i :: 0 <= i < |fs| ==> fs[i] != [] && NoSpace(fs[i]);
    FieldsOfJoin(fs);
    assert Fields([]) == [];
  }

  // ---------------------------------------------------------------------------
  // Reading back what a device prints
  // ---------------------------------------------------------------------------

  /** Output whose lines are `ls` is read back line by line. */
  lemma LinesOfJoin(ls: seq<string>)
    requires |ls| > 0 && ls[|ls| - 1] != []
    requires forall i :: 0 <= i < |ls| ==> NoLineBreak(ls[i])
    ensures HasText(Some(Join(ls, '\n')))
    ensures LinesOf(Some(Join(ls, '\n'))) == ls
  {
    SplitLinesOfJoin(ls);
    if |ls| == 1 {
      assert Join(ls, '\n') == ls[0];
    } else {
      assert Join(ls, '\n') == ls[0] + ['\n'] + Join(ls[1..], '\n');
    }
  }

  /**
   * The memory reading is the second field of the first `TOTAL` line, as
   * `dumpsys meminfo` prints it.
   */
  lemma MemoryReadsTotal(ls: seq<string>, i: nat, n: int)
    requires |ls| > 0 && ls[|ls| - 1] != []
    requires forall j :: 0 <= j < |ls| ==> NoLineBreak(ls[j])
    requires IsFirstMatch(ls, TotalMarker, i)
    requires |Fields(ls[i])| >= 2 && Fields(ls[i])[1] == DecimalString(n)
    ensures MemOutputOk(Some(Join(ls, '\n')))
    ensures MemoryUsage(Some(Join(ls, '\n'))) == n
  {
    LinesOfJoin(ls);
    ParseIntOfDecimalString(n);
  }

  /** `LastWhere` finds the last selected line, whichever one it is. */
  lemma LastWhereIs(lines: seq<string>, iface: Iface, i: nat)
    requires i < |lines| && Selects(lines[i], iface)
    requires forall j :: i < j < |lines| ==> !Selects(lines[j], iface)
    ensures LastWhere(lines, iface) == Some(i)
  {
    var r := LastWhere(lines, iface);
    assert r.Some?;
    assert !(r.value > i);
    assert !(r.value < i);
  }

  /**
   * Ethernet counters win: when the last `eth0` line carries a positive
   * counter, its second and tenth fields are the reading, whatever the
   * wireless lines say.
   */
  lemma EthernetPreferred(ls: seq<string>, i: nat, rx: int, tx: int)
    requires |ls| > 0 && ls[|ls| - 1] != []
    requires forall j :: 0 <= j < |ls| ==> NoLineBreak(ls[j])
    requires NetLinesOk(ls)
    requires i < |ls| && Contains(ls[i], EthMarker)
    requires forall j :: i < j < |ls| ==> !Contains(ls[j], EthMarker)
    requires |Fields(ls[i])| >= 10 && Fields(ls[i])[1] == DecimalString(rx) && Fields(ls[i])[9] == DecimalString(tx)
    requires rx > 0 || tx > 0
    ensures NetOutputOk(Some(Join(ls, '\n')))
    ensures NetworkUsage(Some(Join(ls, '\n'))) == (rx, tx)
  {
    LinesOfJoin(ls);
    assert forall j :: i < j < |ls| ==> !Selects(ls[j], Eth);
    LastWhereIs(ls, Eth, i);
    ParseIntOfDecimalString(rx);
    ParseIntOfDecimalString(tx);
  }

  /** The counters of the last selected line, or the default when no line is selected. */
  lemma LastPairIs(lines: seq<string>, iface: Iface, i: nat)
    requires i < |lines| && Selects(lines[i], iface)
    requires forall j :: i < j < |lines| ==> !Selects(lines[j], iface)
    ensures LastPair(lines, iface, (0, 0)) == Counters(lines[i])
  {
    LastWhereIs(lines, iface, i);
  }

  /** A line whose second and tenth fields are numerals carries those counters. */
  lemma CountersRead(line: string, rx: int, tx: int)
    requires |Fields(line)| >= 10 && Fields(line)[1] == DecimalString(rx) && Fields(line)[9] == DecimalString(tx)
    ensures CountersParse(line) && Counters(line) == (rx, tx)
  {
    ParseIntOfDecimalString(rx);
    ParseIntOfDecimalString(tx);
  }

  /** With no line selected, the default stands. */
  lemma LastPairNone(lines: seq<string>, iface: Iface)
    requires forall j :: 0 <= j < |lines| ==> !Selects(lines[j], iface)
    ensures LastPair(lines, iface, (0, 0)) == (0, 0)
  {
  }

  /**
   * Without any `eth0` line, the counters of the last `wlan0` line are the
   * reading when one of them is positive.
   */
  lemma WirelessFallback(ls: seq<string>, i: nat, rx: int, tx: int)
    requires |ls| > 0 && ls[|ls| - 1] != []
    requires forall j :: 0 <= j < |ls| ==> NoLineBreak(ls[j])
    requires NetLinesOk(ls)
    requires forall j :: 0 <= j < |ls| ==> !Contains(ls[j], EthMarker)
    requires i < |ls| && Contains(ls[i], WlanMarker)
    requires forall j :: i < j < |ls| ==> !Contains(ls[j], WlanMarker)
    requires |Fields(ls[i])| >= 10 && Fields(ls[i])[1] == DecimalString(rx) && Fields(ls[i])[9] == DecimalString(tx)
    requires rx > 0 || tx > 0
    ensures NetOutputOk(Some(Join(ls, '\n')))
    ensures NetworkUsage(Some(Join(ls, '\n'))) == (rx, tx)
  {
    var o := Some(Join(ls, '\n'));
    LinesOfJoin(ls);
    assert LinesOf(o) == ls;
    assert forall j :: 0 <= j < |ls| ==> !Selects(ls[j], Eth);
    LastPairNone(ls, Eth);
    assert forall j :: i < j < |ls| ==> !Selects(ls[j], Wlan);
    assert Selects(ls[i], Wlan);
    LastPairIs(ls, Wlan, i);
    CountersRead(ls[i], rx, tx);
    assert NetOutputOk(o);
  }

  /** The text after the only colon of `<name>: <cell>`, stripped, is the cell. */
  lemma ColonCell(name: string, cell: string)
    requires ':' !in name && ':' !in cell
    requires cell != [] && NoSpace(cell)
    ensures |SplitOn(name + ": " + cell, ':')| >= 2
    ensures Strip(SplitOn(name + ": " + cell, ':')[1]) == cell
  {
    assert ':' !in " " + cell;
    assert name + ": " + cell == name + ([':'] + (" " + cell));
    SplitOnSeparated(name, " " + cell, ':');
    SplitOnWord(" " + cell, ':');
    assert TrimLeft(" " + cell) == TrimLeft(cell) by {
      assert (" " + cell)[1..] == cell;
    }
  }

  /** A decimal numeral has no blank and no colon in it. */
  lemma DecimalStringPlain(n: int)
    ensures NoSpace(DecimalString(n)) && ':' !in DecimalString(n)
  {
    var d := DecimalString(n);
    assert forall k :: 0 <= k < |d| ==> d[k] == '-' || IsDigit(d[k]) by {
      if n < 0 { assert d[1..] == NatString(-n); }
    }
  }

  /** A `<name>: <number>` line carries that number as its health value. */
  lemma HealthCell(name: string, n: int)
    requires ':' !in name
    ensures HealthLineParses(name + ": " + DecimalString(n))
    ensures HealthValue(name + ": " + DecimalString(n)) == n
  {
    DecimalStringPlain(n);
    ColonCell(name, DecimalString(n));
    ParseIntOfDecimalString(n);
  }

  /**
   * The battery reading is the number after the colon of the first line
   * mentioning `health`, as `dumpsys battery` prints it (`  health: 2`).
   */
  lemma BatteryReadsHealth(ls: seq<string>, i: nat, name: string, n: int)
    requires |ls| > 0 && ls[|ls| - 1] != []
    requires forall j :: 0 <= j < |ls| ==> NoLineBreak(ls[j])
    requires IsFirstMatch(ls, HealthMarker, i)
    requires ':' !in name && ls[i] == name + ": " + DecimalString(n)
    ensures BatteryOutputOk(Some(Join(ls, '\n')))
    ensures BatteryHealth(Some(Join(ls, '\n'))) == n
  {
    var o := Some(Join(ls, '\n'));
    LinesOfJoin(ls);
    assert LinesOf(o) == ls;
    assert !NoMatch(ls, HealthMarker);
    var f := FirstWhere(ls, HealthMarker);
    FirstMatchUnique(ls, HealthMarker, i, f.value);
    HealthCell(name, n);
    assert BatteryOutputOk(o);
    assert IsFirstMatch(LinesOf(o), HealthMarker, i);
  }
}
