/**
 * The devices dashboard: the "recent devices" panel (a copy of the store's list sorted
 * newest first, then its first three) and the route each device kind links to. The
 * status colour it shows is `Devices.StatusChipColor`.
 */
module Dashboard {
  import opened Wrappers
  import opened Devices

  /** Newest first: `lastUpdated` never increases along the list. */
  predicate NewestFirst(ds: seq<Device>) {
    forall i, j :: 0 <= i < j < |ds| ==> ds[i].LastUpdated() >= ds[j].LastUpdated()
  }

  /**
   * Inserts `d` before the first element that is not newer than it, so that among equal
   * times the element that came earlier in the input stays earlier.
   */
  function Insert(d: Device, sorted: seq<Device>): (r: seq<Device>)
    requires NewestFirst(sorted)
    ensures NewestFirst(r)
    ensures multiset(r) == multiset(sorted) + multiset{d}
    ensures |r| == |sorted| + 1
    ensures r[0] == d || (|sorted| > 0 && r[0] == sorted[0])
  {
    if sorted == [] then [d]
    else if sorted[0].LastUpdated() <= d.LastUpdated() then ConsNewestFirst(d, sorted); [d] + sorted
    else
      TailNewestFirst(sorted);
      var rest := Insert(d, sorted[1..]);
      assert multiset(sorted) == multiset{sorted[0]} + multiset(sorted[1..]) by {
        assert sorted == [sorted[0]] + sorted[1..];
      }
      assert sorted[0].LastUpdated() >= rest[0].LastUpdated();
      ConsNewestFirst(sorted[0], rest);
      [sorted[0]] + rest
  }

  /** A device no older than the head of a newest-first list can go in front of it. */
  lemma ConsNewestFirst(d: Device, s: seq<Device>)
    requires NewestFirst(s) && (|s| > 0 ==> d.LastUpdated() >= s[0].LastUpdated())
    ensures NewestFirst([d] + s)
  {
    var r := [d] + s;
    forall i, j | 0 <= i < j < |r| ensures r[i].LastUpdated() >= r[j].LastUpdated() {
      if i == 0 { assert r[j] == s[j - 1]; } else { assert r[i] == s[i - 1] && r[j] == s[j - 1]; }
    }
  }

  /** Dropping the newest device leaves a newest-first list. */
  lemma TailNewestFirst(s: seq<Device>)
    requires NewestFirst(s) && |s| > 0
    ensures NewestFirst(s[1..])
  {
  }

  /** `[...devices].sort((a, b) => time(b) - time(a))`: a stable sort, newest first. */
  function SortNewestFirst(ds: seq<Device>): (r: seq<Device>)
    ensures NewestFirst(r)
    ensures multiset(r) == multiset(ds)
    ensures |r| == |ds|
  {
    if ds == [] then []
    else
      assert ds == [ds[0]] + ds[1..];
      Insert(ds[0], SortNewestFirst(ds[1..]))
  }

  /**
   * `recentDevices`: at most three devices from the list, newest first, and none left
   * out that is newer than the last one shown.
   */
  function RecentDevices(ds: seq<Device>): (r: seq<Device>)
    ensures |r| == if |ds| < 3 then |ds| else 3
    ensures NewestFirst(r)
    ensures multiset(r) <= multiset(ds)
    ensures |r| > 0 ==> forall d :: d in multiset(ds) - multiset(r) ==> d.LastUpdated() <= r[|r| - 1].LastUpdated()
  {
    var s := SortNewestFirst(ds);
    var k := if |s| < 3 then |s| else 3;
    PrefixOfNewestFirst(s, k);
    s[..k]
  }

  /**
   * A prefix of a newest-first list is newest first, is part of the list, and nothing
   * left out is newer than its last element.
   */
  lemma PrefixOfNewestFirst(s: seq<Device>, k: nat)
    requires NewestFirst(s) && k <= |s|
    ensures NewestFirst(s[..k])
    ensures multiset(s[..k]) <= multiset(s)
    ensures k > 0 ==> forall d :: d in multiset(s) - multiset(s[..k]) ==> d.LastUpdated() <= s[..k][k - 1].LastUpdated()
  {
    assert s == s[..k] + s[k..];
    assert multiset(s) == multiset(s[..k]) + multiset(s[k..]);
    if k > 0 {
      forall d | d in multiset(s) - multiset(s[..k]) ensures d.LastUpdated() <= s[k - 1].LastUpdated() {
        assert d in multiset(s[k..]);
        var m :| 0 <= m < |s[k..]| && s[k..][m] == d;
        assert s[k + m] == d;
      }
    }
  }

  function DeviceRoute(k: Kind): string {
    match k
    case CameraKind => "/devices/cameras"
    case MicroscopeKind => "/devices/microscopes"
    case SensorKind => "/devices/sensors"
  }

  /** `navigateToDeviceType`: the route for a known device type, and no navigation otherwise. */
  function NavigateToDeviceType(deviceType: string): (r: Option<string>)
    ensures forall k :: KindName(k) == deviceType ==> r == Some(DeviceRoute(k))
    ensures r.None? <==> forall k :: KindName(k) != deviceType
  {
    if deviceType == "camera" then Some(DeviceRoute(CameraKind))
    else if deviceType == "microscope" then Some(DeviceRoute(MicroscopeKind))
    else if deviceType == "sensor" then Some(DeviceRoute(SensorKind))
    else None
  }

  /** Each kind has its own page: following the route identifies the kind again. */
  lemma RoutesDistinct(a: Kind, b: Kind)
    ensures DeviceRoute(a) == DeviceRoute(b) ==> a == b
  {
  }
}
