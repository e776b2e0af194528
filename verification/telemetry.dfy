/**
 * What the collector sends to Zabbix: one `(hostname, key, value)` point per
 * `zabbix_sender` call, the item keys it uses, and the catalog of watched
 * applications whose memory it samples.
 */
module Telemetry {

  /** One `send_to_zabbix` call. Dispatch is fire-and-forget: a point is never retried. */
  datatype Point = Point(host: string, key: string, value: real)

  /** A watched application: its display name and its Android package id. */
  datatype Package = Package(name: string, id: string)

  /** The applications whose memory is sampled, in the order the collector visits them. */
  const Catalog: seq<Package> := [
    Package("Teams", "com.microsoft.skype.teams.ipphone"),
    Package("Admin Agent", "com.microsoft.teams.ipphone.admin.agent"),
    Package("Company Portal", "com.microsoft.windowsintune.companyportal")
  ]

  const NetworkRxKey: string := "network.rx.bytes"
  const NetworkTxKey: string := "network.tx.bytes"
  const UptimeKey: string := "device.uptime"
  const CpuKey: string := "cpu.usage"
  const BatteryKey: string := "battery.health"
  const OnlineStatusKey: string := "device.online.status"
  const LogcatStampKey: string := "logcat.collection.timestamp"
  const BugreportStampKey: string := "bugreport.collection.timestamp"

  const UsagePrefix: string := "memory.usage["
  const LeakPrefix: string := "memory.leak["

  /** `memory.usage[<package id>]`: one memory sample of a watched application. */
  function UsageKey(id: string): string {
    UsagePrefix + id + "]"
  }

  /** `memory.leak[<package id>]`: the trend verdict for a watched application. */
  function LeakKey(id: string): string {
    LeakPrefix + id + "]"
  }

  predicate HasPrefix(k: string, prefix: string) {
    |prefix| <= |k| && k[..|prefix|] == prefix
  }

  predicate IsUsageKey(k: string) {
    HasPrefix(k, UsagePrefix)
  }

  predicate IsLeakKey(k: string) {
    HasPrefix(k, LeakPrefix)
  }

  /** The keys with no package id in them. */
  const FixedKeys: seq<string> := [
    NetworkRxKey, NetworkTxKey, UptimeKey, CpuKey, BatteryKey,
    OnlineStatusKey, LogcatStampKey, BugreportStampKey
  ]

  /** The fixed keys are pairwise distinct and none of them is a usage or a leak key. */
  lemma FixedKeysDistinct()
    ensures forall i, j :: 0 <= i < j < |FixedKeys| ==> FixedKeys[i] != FixedKeys[j]
    ensures forall i :: 0 <= i < |FixedKeys| ==> !IsUsageKey(FixedKeys[i]) && !IsLeakKey(FixedKeys[i])
  {
    var lengths := [16, 16, 13, 9, 14, 20, 27, 30];
    assert forall i :: 0 <= i < |FixedKeys| ==> |FixedKeys[i]| == lengths[i] && FixedKeys[i][0] != 'm';
    assert NetworkRxKey[8] != NetworkTxKey[8];
    forall i | 0 <= i < |FixedKeys| ensures !IsUsageKey(FixedKeys[i]) && !IsLeakKey(FixedKeys[i]) {
      assert UsagePrefix[0] == LeakPrefix[0] == 'm';
    }
  }

  /**
   * Package keys never collide with each other across kinds, and each kind is
   * injective in the package id.
   */
  lemma PackageKeysDistinct(id: string, id': string)
    ensures IsUsageKey(UsageKey(id)) && !IsLeakKey(UsageKey(id))
    ensures IsLeakKey(LeakKey(id)) && !IsUsageKey(LeakKey(id))
    ensures UsageKey(id) == UsageKey(id') <==> id == id'
    ensures LeakKey(id) == LeakKey(id') <==> id == id'
  {
    assert UsageKey(id)[..|UsagePrefix|] == UsagePrefix;
    assert LeakKey(id)[..|LeakPrefix|] == LeakPrefix;
    assert UsageKey(id)[7] == 'u' && LeakKey(id)[7] == 'l';
    assert UsageKey(id) == UsageKey(id') ==> id == UsageKey(id)[|UsagePrefix|..|UsageKey(id)| - 1] == id';
    assert LeakKey(id) == LeakKey(id') ==> id == LeakKey(id)[|LeakPrefix|..|LeakKey(id)| - 1] == id';
  }

  /** No two watched applications share a package id. */
  predicate DistinctIds(pkgs: seq<Package>) {
    forall i, j :: 0 <= i < j < |pkgs| ==> pkgs[i].id != pkgs[j].id
  }

  lemma CatalogIdsDistinct()
    ensures DistinctIds(Catalog)
  {
    assert |Catalog[0].id| == 33 && |Catalog[1].id| == 39 && |Catalog[2].id| == 41;
  }

  /** The keys a health cycle uses are distinct and none of them is a package key. */
  lemma CycleKeysDistinct()
    ensures OnlineStatusKey !in {NetworkRxKey, NetworkTxKey, UptimeKey, CpuKey, BatteryKey}
    ensures NetworkRxKey !in {NetworkTxKey, UptimeKey, CpuKey, BatteryKey}
    ensures NetworkTxKey !in {UptimeKey, CpuKey, BatteryKey}
    ensures forall k :: k in {NetworkRxKey, NetworkTxKey, UptimeKey, CpuKey, BatteryKey, OnlineStatusKey} ==>
      !IsUsageKey(k) && !IsLeakKey(k)
  {
    FixedKeysDistinct();
    assert FixedKeys[0] == NetworkRxKey && FixedKeys[1] == NetworkTxKey && FixedKeys[2] == UptimeKey;
    assert FixedKeys[3] == CpuKey && FixedKeys[4] == BatteryKey && FixedKeys[5] == OnlineStatusKey;
  }

  /** No key is both a usage key and a leak key. */
  lemma KindsDisjoint(k: string)
    ensures !(IsUsageKey(k) && IsLeakKey(k))
  {
    assert IsUsageKey(k) ==> k[7] == UsagePrefix[7] == 'u';
    assert IsLeakKey(k) ==> k[7] == LeakPrefix[7] == 'l';
  }

  /** `send_device_online_status`: status 1 for an online device, 0 for an offline one. */
  function StatusPoint(host: string, online: bool): (p: Point)
    ensures p.host == host && p.key == OnlineStatusKey
    ensures p.value == 1.0 <==> online
    ensures p.value == 0.0 <==> !online
  {
    Point(host, OnlineStatusKey, if online then 1.0 else 0.0)
  }

  /**
   * `int(time.time() / 60)`: whole minutes since the epoch, truncated toward
   * zero as Python's `int()` truncates.
   */
  function EpochMinutes(now: real): (m: int)
    ensures now >= 0.0 ==> m >= 0 && m as real * 60.0 <= now < (m + 1) as real * 60.0
    ensures now < 0.0 ==> m <= 0 && (m - 1) as real * 60.0 < now <= m as real * 60.0
  {
    if now >= 0.0 then (now / 60.0).Floor else -((-now) / 60.0).Floor
  }

  /** The points whose key satisfies `isKey`, in sending order. */
  function Keyed(points: seq<Point>, isKey: string -> bool): (r: seq<Point>)
    ensures |r| <= |points|
  {
    if |points| == 0 then []
    else (if isKey(points[0].key) then [points[0]] else []) + Keyed(points[1..], isKey)
  }

  lemma {:induction false} KeyedConcat(a: seq<Point>, b: seq<Point>, isKey: string -> bool)
    ensures Keyed(a + b, isKey) == Keyed(a, isKey) + Keyed(b, isKey)
  {
    if |a| == 0 {
      assert a + b == b;
    } else {
      var head := if isKey(a[0].key) then [a[0]] else [];
      assert (a + b)[0] == a[0] && (a + b)[1..] == a[1..] + b;
      assert Keyed(a + b, isKey) == head + Keyed(a[1..] + b, isKey);
      KeyedConcat(a[1..], b, isKey);
      assert head + (Keyed(a[1..], isKey) + Keyed(b, isKey)) == (head + Keyed(a[1..], isKey)) + Keyed(b, isKey);
    }
  }

  /** A point is picked out exactly when it is in the trace under a matching key. */
  lemma {:induction false} KeyedMember(points: seq<Point>, isKey: string -> bool, pt: Point)
    ensures pt in Keyed(points, isKey) <==> pt in points && isKey(pt.key)
  {
    if |points| > 0 {
      KeyedMember(points[1..], isKey, pt);
      assert pt in points <==> pt == points[0] || pt in points[1..];
    }
  }

  /** Concatenation is associative; the step that regroups appended traces. */
  lemma AppendAssociative<T>(x: seq<T>, y: seq<T>, z: seq<T>)
    ensures x + (y + z) == (x + y) + z
  {
  }

  lemma {:induction false} KeyedAll(a: seq<Point>, isKey: string -> bool)
    requires forall pt :: pt in a ==> isKey(pt.key)
    ensures Keyed(a, isKey) == a
  {
    if |a| > 0 {
      assert a[0] in a;
      KeyedAll(a[1..], isKey);
    }
  }

  lemma {:induction false} KeyedNone(a: seq<Point>, isKey: string -> bool)
    requires forall pt :: pt in a ==> !isKey(pt.key)
    ensures Keyed(a, isKey) == []
  {
    if |a| > 0 {
      assert a[0] in a;
      KeyedNone(a[1..], isKey);
    }
  }

  /** The test "the key is `key`", to pick one item's points out of a trace. */
  function KeyIs(key: string): string -> bool {
    k => k == key
  }
}
