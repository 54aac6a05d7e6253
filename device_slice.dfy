/**
 * The `devices` store slice: the device list, a loading flag and the statistics the
 * dashboard shows. Every reducer that touches the list recomputes the statistics from
 * scratch, so `DeviceStore.Valid` (stats agree with the list) holds after each of them,
 * and the counts by status and by kind each add up to the total.
 */
module DeviceSlice {
  import opened Wrappers
  import opened Seqs
  import opened Devices

  datatype Stats = Stats(
    total: nat, online: nat, offline: nat, maintenance: nat,
    cameras: nat, microscopes: nat, sensors: nat)

  function HasStatus(s: Status): Device -> bool {
    (d: Device) => d.Status() == s
  }

  function HasKind(k: Kind): Device -> bool {
    (d: Device) => d.Kind() == k
  }

  function IdIs(id: string): Device -> bool {
    (d: Device) => d.Id() == id
  }

  function IdIsNot(id: string): Device -> bool {
    (d: Device) => d.Id() != id
  }

  /** `devices.filter((d) => d.status === s).length` */
  function CountStatus(ds: seq<Device>, s: Status): (n: nat)
    ensures n <= |ds|
  {
    if ds == [] then 0
    else (if ds[0].Status() == s then 1 else 0) + CountStatus(ds[1..], s)
  }

  /** `devices.filter((d) => d.type === k).length` */
  function CountKind(ds: seq<Device>, k: Kind): (n: nat)
    ensures n <= |ds|
  {
    if ds == [] then 0
    else (if ds[0].Kind() == k then 1 else 0) + CountKind(ds[1..], k)
  }

  /** The counts are those of `Array.prototype.filter`: the length of the filtered list. */
  lemma {:induction false} CountsAreFilterLengths(ds: seq<Device>, s: Status, k: Kind)
    ensures CountStatus(ds, s) == |Filter(ds, HasStatus(s))|
    ensures CountKind(ds, k) == |Filter(ds, HasKind(k))|
  {
    if ds != [] {
      CountsAreFilterLengths(ds[1..], s, k);
    }
  }

  /** Counting over a concatenation adds the counts of the parts. */
  lemma {:induction false} CountAppend(a: seq<Device>, b: seq<Device>, s: Status, k: Kind)
    ensures CountStatus(a + b, s) == CountStatus(a, s) + CountStatus(b, s)
    ensures CountKind(a + b, k) == CountKind(a, k) + CountKind(b, k)
  {
    if a == [] {
      assert a + b == b;
    } else {
      assert (a + b)[1..] == a[1..] + b;
      CountAppend(a[1..], b, s, k);
    }
  }

  /** Every device has exactly one of the three statuses. */
  lemma {:induction false} StatusCountsPartition(ds: seq<Device>)
    ensures CountStatus(ds, Online) + CountStatus(ds, Offline) + CountStatus(ds, Maintenance) == |ds|
  {
    if ds != [] {
      StatusCountsPartition(ds[1..]);
    }
  }

  /** Every device is exactly one of the three kinds. */
  lemma {:induction false} KindCountsPartition(ds: seq<Device>)
    ensures CountKind(ds, CameraKind) + CountKind(ds, MicroscopeKind) + CountKind(ds, SensorKind) == |ds|
  {
    if ds != [] {
      KindCountsPartition(ds[1..]);
    }
  }

  /** The statistics the reducers assign: a total, counts by status and counts by kind. */
  function ComputeStats(ds: seq<Device>): (s: Stats)
    ensures s.total == |ds|
    ensures s.online + s.offline + s.maintenance == s.total
    ensures s.cameras + s.microscopes + s.sensors == s.total
  {
    StatusCountsPartition(ds);
    KindCountsPartition(ds);
    Stats(|ds|,
      CountStatus(ds, Online), CountStatus(ds, Offline), CountStatus(ds, Maintenance),
      CountKind(ds, CameraKind), CountKind(ds, MicroscopeKind), CountKind(ds, SensorKind))
  }

  /** The statistics with one more device of `d`'s status and kind counted. */
  function Tally(s: Stats, d: Device): Stats {
    Stats(s.total + 1,
      s.online + (if d.Status() == Online then 1 else 0),
      s.offline + (if d.Status() == Offline then 1 else 0),
      s.maintenance + (if d.Status() == Maintenance then 1 else 0),
      s.cameras + (if d.Kind() == CameraKind then 1 else 0),
      s.microscopes + (if d.Kind() == MicroscopeKind then 1 else 0),
      s.sensors + (if d.Kind() == SensorKind then 1 else 0))
  }

  /** Recomputing after an append counts the old devices once and the new one once. */
  lemma StatsOfAppend(ds: seq<Device>, d: Device)
    ensures ComputeStats(ds + [d]) == Tally(ComputeStats(ds), d)
  {
    CountAppend(ds, [d], Online, CameraKind);
    CountAppend(ds, [d], Offline, MicroscopeKind);
    CountAppend(ds, [d], Maintenance, SensorKind);
  }

  /** The list `updateDevice(payload)` leaves: the first device with the payload's id replaced. */
  function Replaced(ds: seq<Device>, payload: Device): (r: seq<Device>)
    ensures |r| == |ds|
    ensures (forall j :: 0 <= j < |ds| ==> ds[j].Id() != payload.Id()) ==> r == ds
    ensures forall d :: d in r ==> d in ds || d == payload
  {
    match FirstIndex(ds, IdIs(payload.Id()))
    case None => ds
    case Some(i) => ds[i := payload]
  }

  /** updateDevice replaces exactly the first device with the payload's id. */
  lemma ReplacesFirstMatch(ds: seq<Device>, payload: Device, i: nat)
    requires i < |ds| && ds[i].Id() == payload.Id()
    requires forall j :: 0 <= j < i ==> ds[j].Id() != payload.Id()
    ensures Replaced(ds, payload) == ds[i := payload]
  {
    var k := FirstIndex(ds, IdIs(payload.Id()));
    assert IdIs(payload.Id())(ds[i]);
    assert k.value == i;
  }

  /** The list `deleteDevice(id)` leaves: exactly the devices with other ids, in order. */
  function DevicesWithout(ds: seq<Device>, id: string): (r: seq<Device>)
    ensures forall d :: d in r <==> d in ds && d.Id() != id
    ensures forall d :: multiset(r)[d] == if d.Id() == id then 0 else multiset(ds)[d]
  {
    FilterContents(ds, IdIsNot(id));
    Filter(ds, IdIsNot(id))
  }

  /** The five devices the store starts with, their times relative to `now` in milliseconds. */
  function SeedDevices(now: int): seq<Device> {
    [ CameraDevice(Camera("1", "Front Door Camera", "Main Entrance", Online, now,
        "192.168.1.100", None, None)),
      MicroscopeDevice(Microscope("2", "Lab Microscope A", "Research Lab 1", Online, now - 3600000,
        "Olympus BX53", 1000, true, None)),
      SensorDevice(Sensor("3", "Office Temperature Sensor", "Main Office", Online, now - 7200000,
        Temperature, "°C", None, None, None, None)),
      CameraDevice(Camera("4", "Warehouse Camera", "Storage Area", Offline, now - 86400000,
        "192.168.1.102", None, None)),
      MicroscopeDevice(Microscope("5", "Quality Control Microscope", "Manufacturing Floor", Maintenance,
        now - 172800000, "Zeiss Axio", 200, false, None)) ]
  }

  const SeedStats := Stats(5, 3, 1, 1, 2, 2, 1)

  /** The statistics the store is seeded with are those of its seed devices. */
  lemma SeedStatsAgree(now: int)
    ensures ComputeStats(SeedDevices(now)) == SeedStats
  {
    var ds := SeedDevices(now);
    var p1 := [ds[0]];
    var p2 := p1 + [ds[1]];
    var p3 := p2 + [ds[2]];
    var p4 := p3 + [ds[3]];
    assert ds == p4 + [ds[4]];
    StatsOfAppend([], ds[0]);
    assert [] + [ds[0]] == p1;
    assert ComputeStats(p1) == Stats(1, 1, 0, 0, 1, 0, 0);
    StatsOfAppend(p1, ds[1]);
    assert ComputeStats(p2) == Stats(2, 2, 0, 0, 1, 1, 0);
    StatsOfAppend(p2, ds[2]);
    assert ComputeStats(p3) == Stats(3, 3, 0, 0, 1, 1, 1);
    StatsOfAppend(p3, ds[3]);
    assert ComputeStats(p4) == Stats(4, 3, 1, 0, 2, 1, 1);
    StatsOfAppend(p4, ds[4]);
  }

  class DeviceStore {
    var devices: seq<Device>
    var loading: bool
    var stats: Stats

    /** The statistics describe the current list. */
    ghost predicate Valid()
      reads this
    {
      stats == ComputeStats(devices)
    }

    constructor (now: int)
      ensures devices == SeedDevices(now) && stats == SeedStats && !loading
      ensures Valid()
    {
      devices := SeedDevices(now);
      stats := SeedStats;
      loading := false;
      SeedStatsAgree(now);
    }

    method SetLoading(value: bool)
      modifies this
      ensures loading == value && devices == old(devices) && stats == old(stats)
    {
      loading := value;
    }

    /** The statistics part of `fetchDevices`. */
    method FetchDevices()
      modifies this
      ensures devices == old(devices) && loading == old(loading)
      ensures Valid()
    {
      stats := ComputeStats(devices);
    }

    method AddDevice(payload: Device)
      modifies this
      ensures devices == old(devices) + [payload] && loading == old(loading)
      ensures Valid()
      ensures old(Valid()) ==> stats == Tally(old(stats), payload)
    {
      StatsOfAppend(devices, payload);
      devices := devices + [payload];
      stats := ComputeStats(devices);
    }

    method UpdateDevice(payload: Device)
      modifies this
      ensures devices == Replaced(old(devices), payload) && loading == old(loading)
      ensures Valid()
    {
      var index := FirstIndex(devices, IdIs(payload.Id()));
      if index.Some? {
        devices := devices[index.value := payload];
      }
      stats := ComputeStats(devices);
    }

    method DeleteDevice(id: string)
      modifies this
      ensures devices == DevicesWithout(old(devices), id) && loading == old(loading)
      ensures Valid()
    {
      devices := Filter(devices, IdIsNot(id));
      stats := ComputeStats(devices);
    }
  }
}
