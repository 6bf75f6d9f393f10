/** The worker registry: one record per device, keyed by the device's id
    (its MAC address), and the online/offline status derived from it. */
module Registry {

  /** A device counts as online while fewer than this many seconds have
      passed since its last poll. */
  const LivenessThreshold: int := 10

  /** The stored record of a device: how many knocks it has confirmed and
      the time of its last poll (whole seconds). */
  datatype Device = Device(knocks: nat, lastSeen: int)

  /** Seconds since the device last polled. */
  function SecondsAgo(d: Device, now: int): int
  {
    now - d.lastSeen
  }

  predicate IsOnline(d: Device, now: int)
  {
    SecondsAgo(d, now) < LivenessThreshold
  }

  /** The devices that are online at time `now`. */
  function OnlineDevices(devices: map<string, Device>, now: int): (s: set<string>)
    ensures s <= devices.Keys
    ensures |s| <= |devices|
    ensures forall mac :: mac in s <==> mac in devices && IsOnline(devices[mac], now)
  {
    var s := set mac | mac in devices && IsOnline(devices[mac], now);
    SubsetSize(s, devices.Keys);
    s
  }

  lemma {:induction false} SubsetSize(s: set<string>, t: set<string>)
    requires s <= t
    ensures |s| <= |t|
    decreases |t|
  {
    if t != {} {
      var x :| x in t;
      SubsetSize(s - {x}, t - {x});
    }
  }

  /** The dashboard's count: one for every stored device that is online,
      taking the devices one at a time. */
  ghost function CountOnline(devices: map<string, Device>, now: int): nat
    decreases |devices|
  {
    if devices == map[] then 0
    else
      var mac :| mac in devices;
      assert |devices - {mac}| < |devices| by {
        assert (devices - {mac}).Keys == devices.Keys - {mac};
      }
      (if IsOnline(devices[mac], now) then 1 else 0) + CountOnline(devices - {mac}, now)
  }

  /** `mac` is a device whose removal splits the count as CountOnline does. */
  ghost predicate TakenFirst(devices: map<string, Device>, now: int, mac: string)
    requires mac in devices
  {
    CountOnline(devices, now) ==
      (if IsOnline(devices[mac], now) then 1 else 0) + CountOnline(devices - {mac}, now)
  }

  /** The count is the number of online devices, whichever order the
      devices are taken in. */
  lemma {:induction false} CountOnlineIsSize(devices: map<string, Device>, now: int)
    ensures CountOnline(devices, now) == |OnlineDevices(devices, now)|
    decreases |devices|
  {
    if devices != map[] {
      assert exists mac :: mac in devices && TakenFirst(devices, now, mac);
      var mac :| mac in devices && TakenFirst(devices, now, mac);
      var rest := devices - {mac};
      assert rest.Keys == devices.Keys - {mac};
      assert |rest| < |devices|;
      CountOnlineIsSize(rest, now);
      if IsOnline(devices[mac], now) {
        assert OnlineDevices(rest, now) == OnlineDevices(devices, now) - {mac};
      } else {
        assert OnlineDevices(rest, now) == OnlineDevices(devices, now);
      }
    }
  }

  /** What the admin page shows of a device: the stored fields together
      with the derived age and online flag. */
  datatype DeviceView = DeviceView(knocks: nat, lastSeen: int, secondsAgo: int, isOnline: bool)

  function Render(d: Device, now: int): DeviceView
  {
    var ago := SecondsAgo(d, now);
    DeviceView(d.knocks, d.lastSeen, ago, ago < LivenessThreshold)
  }

  /** The admin page's table of all devices. */
  function AdminView(devices: map<string, Device>, now: int): (view: map<string, DeviceView>)
    ensures view.Keys == devices.Keys
    ensures forall mac :: mac in view ==>
      view[mac].knocks == devices[mac].knocks &&
      view[mac].lastSeen == devices[mac].lastSeen &&
      view[mac].secondsAgo == now - devices[mac].lastSeen &&
      (view[mac].isOnline <==> IsOnline(devices[mac], now))
  {
    map mac | mac in devices :: Render(devices[mac], now)
  }

  /** The admin page and the index page agree: the devices the admin table
      flags online are exactly as many as the index page counts. */
  lemma AdminAgreesWithIndex(devices: map<string, Device>, now: int)
    ensures var view := AdminView(devices, now);
      |set mac | mac in view && view[mac].isOnline| == CountOnline(devices, now)
  {
    var view := AdminView(devices, now);
    assert (set mac | mac in view && view[mac].isOnline) == OnlineDevices(devices, now);
    CountOnlineIsSize(devices, now);
  }

  /** A device is online for the ten seconds starting at its last poll and
      offline from then on; the boundary itself is offline. */
  lemma LivenessBoundary(d: Device, now: int)
    ensures IsOnline(d, now) <==> now < d.lastSeen + LivenessThreshold
    ensures IsOnline(d, d.lastSeen + 5) && !IsOnline(d, d.lastSeen + 15)
    ensures IsOnline(d, d.lastSeen + 9) && !IsOnline(d, d.lastSeen + 10)
  {
  }
}
