/**
  * The server's side of a paired connection: control, RemoveMember and the device table in
  * internal/pairing/network.go.
  */
module Control {
  import opened Bytes
  import opened Text
  import opened Pairing
  import opened Devices

  type Conn = nat

  const FRAME_STATS_REPORT: Byte := 5

  // ----- the device table: what each locked section does to it -----

  /** What is shown for a key, the connection that reported it, and the UID its member paired with. */
  datatype Table = Table(devices: map<Bytes32, Device>, owners: map<Bytes32, Conn>, uids: map<Bytes32, seq<Byte>>)

  function Registered(t: Table, key: Bytes32, uid: seq<Byte>): Table {
    t.(uids := t.uids[key := uid])
  }

  function Recorded(t: Table, key: Bytes32, c: Conn, d: Device): Table {
    t.(devices := t.devices[key := d], owners := t.owners[key := c])
  }

  function Released(t: Table, key: Bytes32, c: Conn): Table {
    if key in t.owners && t.owners[key] == c then t.(devices := t.devices - {key}, owners := t.owners - {key}) else t
  }

  function Removed(t: Table, key: Bytes32): Table {
    Table(t.devices - {key}, t.owners - {key}, t.uids - {key})
  }

  /** A report under the UID the member paired with, if there is one. */
  function Identified(t: Table, key: Bytes32, ip: Addr, report: StatsReport, now: Int64): Device
    requires now >= 0
  {
    var uid := if key in t.uids && t.uids[key] != [] then t.uids[key] else report.uid;
    var latency := if report.timestampMS <= 0 || now < report.timestampMS then 0 else now - report.timestampMS;
    Device(latency, uid, ip, report.rxBytes, report.txBytes)
  }

  // ----- the list a member is sent -----

  function Number(ip: Addr): nat
    requires ip.V4?
  {
    ((ip.b0 * 256 + ip.b1) * 256 + ip.b2) * 256 + ip.b3
  }

  /** Addresses are compared octet by octet, the first one first. */
  lemma NumberOrders(a: Addr, b: Addr)
    requires a.V4? && b.V4?
    ensures Number(a) < Number(b) <==>
              || a.b0 < b.b0
              || (a.b0 == b.b0 && (a.b1 < b.b1
                                   || (a.b1 == b.b1 && (a.b2 < b.b2 || (a.b2 == b.b2 && a.b3 < b.b3)))))
  {
  }

  predicate Ordered(l: seq<Device>)
    requires AllIPv4(l)
  {
    forall i, j :: 0 <= i < j < |l| ==> Number(l[i].virtualIP) <= Number(l[j].virtualIP)
  }

  predicate NoRepeat(keys: seq<Bytes32>) {
    forall i, j :: 0 <= i < j < |keys| ==> keys[i] != keys[j]
  }

  ghost predicate Enumerates(keys: seq<Bytes32>, s: set<Bytes32>) {
    NoRepeat(keys) && forall k :: k in keys <==> k in s
  }

  predicate AllIn(keys: seq<Bytes32>, devices: map<Bytes32, Device>) {
    forall i :: 0 <= i < |keys| ==> keys[i] in devices
  }

  function Values(devices: map<Bytes32, Device>, keys: seq<Bytes32>): (l: seq<Device>)
    requires AllIn(keys, devices)
    ensures |l| == |keys| && forall i :: 0 <= i < |keys| ==> l[i] == devices[keys[i]]
  {
    if |keys| == 0 then [] else Values(devices, keys[..|keys| - 1]) + [devices[keys[|keys| - 1]]]
  }

  function HostEntry(host: Device): seq<Device> {
    if host.virtualIP == NoAddr then [] else [host]
  }

  predicate AllValidDevices(devices: map<Bytes32, Device>) {
    forall k :: k in devices ==> ValidDevice(devices[k])
  }

  /** The host and the device of every key, each once, by address. */
  ghost predicate IsListing(devices: map<Bytes32, Device>, host: Device, l: seq<Device>) {
    && AllIPv4(l) && Ordered(l)
    && exists keys: seq<Bytes32> :: Enumerates(keys, devices.Keys) && AllIn(keys, devices)
                                    && multiset(l) == multiset(HostEntry(host) + Values(devices, keys))
  }

  lemma {:induction false} EnumeratedSize(keys: seq<Bytes32>, s: set<Bytes32>)
    requires Enumerates(keys, s)
    ensures |keys| == |s|
  {
    if |keys| > 0 {
      var k, rest := keys[0], keys[1..];
      assert keys == [k] + rest;
      EnumeratedSize(rest, s - {k});
    } else {
      assert s == {};
    }
  }

  lemma ListingShape(devices: map<Bytes32, Device>, host: Device, l: seq<Device>)
    requires AllValidDevices(devices) && ValidDevice(host) && IsListing(devices, host, l)
    ensures |l| == |devices| + 1 && AllValid(l)
  {
    var keys: seq<Bytes32> :| Enumerates(keys, devices.Keys) && AllIn(keys, devices)
                              && multiset(l) == multiset(HostEntry(host) + Values(devices, keys));
    EnumeratedSize(keys, devices.Keys);
    var all := HostEntry(host) + Values(devices, keys);
    EntriesValid(devices, host, keys);
    Reordered(l, all);
    assert |all| == 1 + |devices|;
  }

  lemma EntriesValid(devices: map<Bytes32, Device>, host: Device, keys: seq<Bytes32>)
    requires AllValidDevices(devices) && ValidDevice(host) && AllIn(keys, devices)
    ensures AllValid(HostEntry(host) + Values(devices, keys))
  {
  }

  /**
    * Main result: the members of a room can read the list if and only if at most 252 devices are in it
    * beside the host's.
    */
  lemma ListingReadable(devices: map<Bytes32, Device>, host: Device, l: seq<Device>)
    requires AllValidDevices(devices) && ValidDevice(host) && IsListing(devices, host, l) && |devices| < 0xFFFF
    ensures Parsed(Marshalled(l)) == Some(l) <==> |devices| <= MAX_DEVICES - 1
    ensures Parsed(Marshalled(l)) == None <==> |devices| > MAX_DEVICES - 1
  {
    ListingShape(devices, host, l);
    DevicesRoundTrip(l);
  }

  lemma Reordered(l: seq<Device>, all: seq<Device>)
    requires multiset(l) == multiset(all)
    ensures |l| == |all|
    ensures AllValid(all) ==> AllValid(l)
  {
    assert |l| == |multiset(l)| == |multiset(all)| == |all|;
    forall i | 0 <= i < |l|
      ensures l[i] in all
    {
      assert l[i] in multiset(all);
    }
  }

  // ----- the program -----

  method SortByIP(ds: seq<Device>) returns (l: seq<Device>)
    requires AllIPv4(ds)
    ensures AllIPv4(l) && Ordered(l) && multiset(l) == multiset(ds)
  {
    l := [];
    for i := 0 to |ds|
      invariant AllIPv4(l) && Ordered(l) && multiset(l) == multiset(ds[..i])
    {
      l := Insert(l, ds[i]);
      assert ds[..i + 1] == ds[..i] + [ds[i]];
    }
    assert ds[..|ds|] == ds;
  }

  method Insert(l: seq<Device>, d: Device) returns (m: seq<Device>)
    requires AllIPv4(l) && Ordered(l) && d.virtualIP.V4?
    ensures AllIPv4(m) && Ordered(m) && multiset(m) == multiset(l) + multiset{d}
  {
    var i := 0;
    while i < |l| && Number(l[i].virtualIP) <= Number(d.virtualIP)
      invariant i <= |l| && forall j :: 0 <= j < i ==> Number(l[j].virtualIP) <= Number(d.virtualIP)
    {
      i := i + 1;
    }
    m := l[..i] + [d] + l[i..];
    InsertedOrdered(l, d, i);
    InsertedSame(l, d, i);
  }

  lemma InsertedOrdered(l: seq<Device>, d: Device, i: nat)
    requires AllIPv4(l) && Ordered(l) && d.virtualIP.V4? && i <= |l|
    requires forall j :: 0 <= j < i ==> Number(l[j].virtualIP) <= Number(d.virtualIP)
    requires i < |l| ==> Number(d.virtualIP) <= Number(l[i].virtualIP)
    ensures AllIPv4(l[..i] + [d] + l[i..]) && Ordered(l[..i] + [d] + l[i..])
  {
    var m := l[..i] + [d] + l[i..];
    assert forall j :: 0 <= j < |m| ==> m[j] == if j < i then l[j] else if j == i then d else l[j - 1];
  }

  lemma InsertedSame(l: seq<Device>, d: Device, i: nat)
    requires i <= |l|
    ensures multiset(l[..i] + [d] + l[i..]) == multiset(l) + multiset{d}
  {
    assert l == l[..i] + l[i..];
  }

  /** The map yields its entries in any order. */
  method Gather(devices: map<Bytes32, Device>) returns (list: seq<Device>, ghost keys: seq<Bytes32>)
    ensures Enumerates(keys, devices.Keys) && AllIn(keys, devices) && list == Values(devices, keys)
  {
    list, keys := [], [];
    var remaining := devices.Keys;
    while remaining != {}
      invariant remaining <= devices.Keys && Enumerates(keys, devices.Keys - remaining)
      invariant AllIn(keys, devices) && list == Values(devices, keys)
      decreases |remaining|
    {
      var k :| k in remaining;
      assert (keys + [k])[..|keys|] == keys;
      list, keys, remaining := list + [devices[k]], keys + [k], remaining - {k};
    }
    assert devices.Keys - remaining == devices.Keys;
  }

  method List(devices: map<Bytes32, Device>, host: Device) returns (list: seq<Device>)
    requires AllValidDevices(devices) && (host.virtualIP == NoAddr || host.virtualIP.V4?)
    ensures IsListing(devices, host, list)
  {
    ghost var keys;
    list, keys := Gather(devices);
    assert forall i :: 0 <= i < |list| ==> ValidDevice(list[i]);
    list := SortByIP(HostEntry(host) + list);
  }

  class Server {
    var devices: map<Bytes32, Device>
    var deviceOwners: map<Bytes32, Conn>
    var memberUIDs: map<Bytes32, seq<Byte>>
    const hostDevice: Device

    constructor (host: Device)
      ensures State() == Table(map[], map[], map[]) && hostDevice == host
    {
      devices, deviceOwners, memberUIDs, hostDevice := map[], map[], map[], host;
    }

    function State(): Table
      reads this
    {
      Table(devices, deviceOwners, memberUIDs)
    }

    /** The connection returned is sent that its member is disabled. */
    method RemoveMember(key: Bytes32) returns (connection: Option<Conn>)
      modifies this
      ensures State() == Removed(old(State()), key)
      ensures connection == if key in old(deviceOwners) then Some(old(deviceOwners[key])) else None
    {
      connection := if key in deviceOwners then Some(deviceOwners[key]) else None;
      devices := devices - {key};
      memberUIDs := memberUIDs - {key};
      deviceOwners := deviceOwners - {key};
    }

    /** How a successful pairing ends. */
    method Register(key: Bytes32, uid: seq<Byte>)
      modifies this
      ensures State() == Registered(old(State()), key, uid)
    {
      memberUIDs := memberUIDs[key := uid];
    }

    method Identify(key: Bytes32, ip: Addr, report: StatsReport, now: Int64) returns (device: Device)
      requires now >= 0
      ensures device == Identified(State(), key, ip, report, now)
    {
      var uid := report.uid;
      if key in memberUIDs && memberUIDs[key] != [] {
        uid := memberUIDs[key];
      }
      var latency := 0;
      if report.timestampMS > 0 && now >= report.timestampMS {
        latency := now - report.timestampMS;
      }
      device := Device(latency, uid, ip, report.rxBytes, report.txBytes);
    }

    method Record(key: Bytes32, connection: Conn, device: Device) returns (list: seq<Device>)
      requires AllValidDevices(devices) && device.virtualIP.V4? && ValidDevice(device)
      requires hostDevice.virtualIP == NoAddr || hostDevice.virtualIP.V4?
      modifies this
      ensures State() == Recorded(old(State()), key, connection, device)
      ensures IsListing(devices, hostDevice, list)
    {
      devices := devices[key := device];
      deviceOwners := deviceOwners[key := connection];
      list := List(devices, hostDevice);
    }

    /** What a connection does last. */
    method Release(key: Bytes32, connection: Conn)
      modifies this
      ensures State() == Released(old(State()), key, connection)
    {
      if key in deviceOwners && deviceOwners[key] == connection {
        devices := devices - {key};
        deviceOwners := deviceOwners - {key};
      }
    }
  }

  // ----- connections taking turns -----

  /** Where a connection's loop stands; every other connection may run in between. */
  datatype Phase = Idle | Checked(report: StatsReport) | Ready(device: Device) | Sending | Closing

  datatype Link = Link(key: Bytes32, ip: Addr, phase: Phase)

  /** `known` are the room's members, which change on their own. */
  datatype World = World(table: Table, links: map<Conn, Link>, known: set<Bytes32>)

  datatype Event =
    | Admit(key: Bytes32)
    | Forget(key: Bytes32)
    | Evict(key: Bytes32)
    | Open(c: Conn, key: Bytes32, uid: seq<Byte>, ip: Addr)
    | Receive(c: Conn, frame: Option<Frame>)
    | Identify(c: Conn, now: Int64)
    | Record(c: Conn)
    | Answer(c: Conn, written: bool)
    | Close(c: Conn)

  predicate Enabled(w: World, e: Event) {
    match e
    case Open(c, _, uid, ip) => c !in w.links && (uid != [] ==> ValidUid(uid)) && ip.V4?
    case Receive(c, _) => c in w.links && w.links[c].phase.Idle?
    case Identify(c, now) => c in w.links && w.links[c].phase.Checked? && now >= 0
    case Record(c) => c in w.links && w.links[c].phase.Ready?
    case Answer(c, _) => c in w.links && w.links[c].phase.Sending?
    case Close(c) => c in w.links && w.links[c].phase.Closing?
    case _ => true
  }

  /** A frame that is no report ends the connection, and so does the report of a key that is no member. */
  function Heard(frame: Option<Frame>, known: bool): (p: Phase)
    ensures p.Checked? ==> known && ValidUid(p.report.uid)
  {
    if frame.None? || frame.value.frameType != FRAME_STATS_REPORT then Closing
    else if ParseStats(frame.value.payload).None? || !known then Closing
    else Checked(ParseStats(frame.value.payload).value)
  }

  function Moved(w: World, c: Conn, p: Phase): World
    requires c in w.links
  {
    w.(links := w.links[c := w.links[c].(phase := p)])
  }

  /** An event whose time has not come changes nothing. */
  function After(w: World, e: Event): World {
    if !Enabled(w, e) then w else
      match e
      case Admit(key) => w.(known := w.known + {key})
      case Forget(key) => w.(known := w.known - {key})
      case Evict(key) => w.(table := Removed(w.table, key))
      case Open(c, key, uid, ip) =>
        w.(table := Registered(w.table, key, uid), links := w.links[c := Link(key, ip, Idle)])
      case Receive(c, frame) => Moved(w, c, Heard(frame, w.links[c].key in w.known))
      case Identify(c, now) =>
        var l := w.links[c];
        Moved(w, c, Ready(Identified(w.table, l.key, l.ip, l.phase.report, now)))
      case Record(c) => Moved(w, c, Sending).(table := Recorded(w.table, w.links[c].key, c, w.links[c].phase.device))
      case Answer(c, written) => Moved(w, c, if written then Idle else Closing)
      case Close(c) => w.(table := Released(w.table, w.links[c].key, c), links := w.links - {c})
  }

  function Run(w: World, es: seq<Event>): World
    decreases |es|
  {
    if |es| == 0 then w else Run(After(w, es[0]), es[1..])
  }

  // ----- what every run keeps -----

  ghost predicate SoundEntry(w: World, k: Bytes32) {
    k in w.table.devices ==>
      && k in w.table.owners && w.table.owners[k] in w.links
      && w.links[w.table.owners[k]].key == k && w.links[w.table.owners[k]].ip == w.table.devices[k].virtualIP
      && ValidDevice(w.table.devices[k])
  }

  ghost predicate SoundLink(l: Link) {
    && l.ip.V4?
    && (l.phase.Checked? ==> ValidUid(l.phase.report.uid))
    && (l.phase.Ready? ==> ValidDevice(l.phase.device) && l.phase.device.virtualIP == l.ip)
  }

  /** What is shown comes from a connection of that key that is still open, under that connection's address. */
  ghost predicate Inv(w: World) {
    && w.table.devices.Keys == w.table.owners.Keys
    && (forall k :: SoundEntry(w, k))
    && (forall c :: c in w.links ==> SoundLink(w.links[c]))
    && (forall k :: k in w.table.uids && w.table.uids[k] != [] ==> ValidUid(w.table.uids[k]))
  }

  lemma StepKeepsInv(w: World, e: Event)
    requires Inv(w)
    ensures Inv(After(w, e))
  {
    forall k
      ensures SoundEntry(After(w, e), k)
    {
      assert SoundEntry(w, k);
    }
  }

  lemma {:induction false} RunKeepsInv(w: World, es: seq<Event>)
    requires Inv(w)
    ensures Inv(Run(w, es))
    decreases |es|
  {
    if |es| > 0 {
      StepKeepsInv(w, es[0]);
      RunKeepsInv(After(w, es[0]), es[1..]);
    }
  }

  const START := World(Table(map[], map[], map[]), map[], {})

  /**
    * Main result: in every run a key is shown only while a connection of it is open, and at that
    * connection's address.
    */
  lemma ListedAreConnected(es: seq<Event>, key: Bytes32)
    requires key in Run(START, es).table.devices
    ensures var w := Run(START, es);
            && ValidDevice(w.table.devices[key])
            && exists c :: c in w.links && w.links[c].key == key && w.links[c].ip == w.table.devices[key].virtualIP
  {
    RunKeepsInv(START, es);
    assert SoundEntry(Run(START, es), key);
  }

  // ----- a member that was removed -----

  predicate InFlight(w: World, c: Conn, key: Bytes32) {
    c in w.links && w.links[c].key == key && (w.links[c].phase.Checked? || w.links[c].phase.Ready?)
  }

  /** The connections of a key that are past the membership check. */
  function Flying(w: World, key: Bytes32): set<Conn> {
    set c | c in w.links && InFlight(w, c, key)
  }

  predicate Recording(w: World, e: Event, key: Bytes32) {
    e.Record? && Enabled(w, e) && w.links[e.c].key == key
  }

  /** How often a device is recorded for the key. */
  function Records(w: World, es: seq<Event>, key: Bytes32): nat
    decreases |es|
  {
    if |es| == 0 then 0
    else (if Recording(w, es[0], key) then 1 else 0) + Records(After(w, es[0]), es[1..], key)
  }

  lemma FlyingStep(w: World, e: Event, key: Bytes32)
    requires key !in w.known && e != Admit(key)
    ensures key !in After(w, e).known
    ensures Flying(After(w, e), key) <= Flying(w, key)
    ensures Recording(w, e, key) ==> e.c in Flying(w, key) && e.c !in Flying(After(w, e), key)
  {
  }

  /** Main result: after a key is no member any more, each of its connections records at most one device for it. */
  lemma {:induction false} RecordsBounded(w: World, es: seq<Event>, key: Bytes32)
    requires key !in w.known && Admit(key) !in es
    ensures Records(w, es, key) + |Flying(Run(w, es), key)| <= |Flying(w, key)|
    decreases |es|
  {
    if |es| > 0 {
      var e, v := es[0], After(w, es[0]);
      FlyingStep(w, e, key);
      RecordsBounded(v, es[1..], key);
      if Recording(w, e, key) {
        Smaller(Flying(v, key), Flying(w, key) - {e.c});
      } else {
        Smaller(Flying(v, key), Flying(w, key));
      }
    }
  }

  lemma {:induction false} Smaller(a: set<Conn>, b: set<Conn>)
    requires a <= b
    ensures |a| <= |b|
  {
    if a != {} {
      var c :| c in a;
      Smaller(a - {c}, b - {c});
    }
  }

  lemma {:induction false} Unlisted(w: World, es: seq<Event>, key: Bytes32)
    requires key !in w.table.devices && Records(w, es, key) == 0
    ensures key !in Run(w, es).table.devices
    decreases |es|
  {
    if |es| > 0 {
      Unlisted(After(w, es[0]), es[1..], key);
    }
  }

  ghost predicate CanReturn(w: World, key: Bytes32) {
    exists es: seq<Event> :: Admit(key) !in es && key in Run(w, es).table.devices
  }

  lemma Return(w: World, c: Conn, key: Bytes32) returns (es: seq<Event>)
    requires InFlight(w, c, key)
    ensures Admit(key) !in es && key in Run(w, es).table.devices
  {
    var end: seq<Event> := [];
    es := [Record(c)] + end;
    if w.links[c].phase.Checked? {
      RunFrom(After(w, Identify(c, 0)), Record(c), end);
      RunFrom(w, Identify(c, 0), es);
      es := [Identify(c, 0)] + es;
    } else {
      RunFrom(w, Record(c), end);
    }
  }

  /**
    * Main result. A removed member can be shown again, without becoming a member again, if and only
    * if a connection of it was past the membership check when it was removed.
    */
  lemma RemovedReturnsIff(w: World, key: Bytes32)
    requires key !in w.known
    ensures CanReturn(After(w, Evict(key)), key) <==> exists c :: InFlight(w, c, key)
  {
    var v := After(w, Evict(key));
    if c :| InFlight(w, c, key) {
      var es := Return(v, c, key);
    }
    if es: seq<Event> :| Admit(key) !in es && key in Run(v, es).table.devices {
      RecordsBounded(v, es, key);
      if Flying(v, key) == {} {
        Unlisted(v, es, key);
      }
      var c :| c in Flying(v, key);
      assert InFlight(w, c, key);
    }
  }

  // ----- the UID a member paired with -----

  /** Nothing unregisters the key or registers it under another UID. */
  predicate Loyal(e: Event, key: Bytes32, uid: seq<Byte>) {
    e != Evict(key) && (e.Open? && e.key == key ==> e.uid == uid)
  }

  ghost predicate Pinned(w: World, key: Bytes32, uid: seq<Byte>) {
    && key in w.table.uids && w.table.uids[key] == uid
    && (key in w.table.devices ==> w.table.devices[key].uid == uid)
    && (forall c :: c in w.links && w.links[c].key == key && w.links[c].phase.Ready?
           ==> w.links[c].phase.device.uid == uid)
  }

  lemma {:induction false} RunPinned(w: World, es: seq<Event>, key: Bytes32, uid: seq<Byte>)
    requires Pinned(w, key, uid) && uid != [] && forall i :: 0 <= i < |es| ==> Loyal(es[i], key, uid)
    ensures Pinned(Run(w, es), key, uid)
    decreases |es|
  {
    if |es| > 0 {
      assert Loyal(es[0], key, uid);
      assert Pinned(After(w, es[0]), key, uid);
      RunPinned(After(w, es[0]), es[1..], key, uid);
    }
  }

  /**
    * Main result. Whatever a member's reports claim, it is shown under the UID it paired with, from
    * its first connection until it is removed.
    */
  lemma ShownUnderPairedUid(w: World, c: Conn, key: Bytes32, uid: seq<Byte>, ip: Addr, es: seq<Event>)
    requires Inv(w) && (forall d :: d in w.links ==> w.links[d].key != key)
    requires uid != [] && Enabled(w, Open(c, key, uid, ip)) && forall i :: 0 <= i < |es| ==> Loyal(es[i], key, uid)
    ensures var v := Run(After(w, Open(c, key, uid, ip)), es);
            key in v.table.devices ==> v.table.devices[key].uid == uid
  {
    assert SoundEntry(w, key);
    RunPinned(After(w, Open(c, key, uid, ip)), es, key, uid);
  }

  // ----- the figures a member is shown with -----

  /** The event is none of this connection's own. */
  predicate Others(e: Event, c: Conn) {
    match e
    case Receive(d, _) => d != c
    case Identify(d, _) => d != c
    case Record(d) => d != c
    case Answer(d, _) => d != c
    case Close(d) => d != c
    case _ => true
  }

  lemma {:induction false} LinkKept(w: World, es: seq<Event>, c: Conn)
    requires c in w.links && forall i :: 0 <= i < |es| ==> Others(es[i], c)
    ensures c in Run(w, es).links && Run(w, es).links[c] == w.links[c]
    decreases |es|
  {
    if |es| > 0 {
      assert Others(es[0], c);
      LinkKept(After(w, es[0]), es[1..], c);
    }
  }

  lemma {:induction false} DeviceKept(w: World, es: seq<Event>, key: Bytes32)
    requires Records(w, es, key) == 0 && key in Run(w, es).table.devices
    ensures key in w.table.devices && Run(w, es).table.devices[key] == w.table.devices[key]
    decreases |es|
  {
    if |es| > 0 {
      DeviceKept(After(w, es[0]), es[1..], key);
    }
  }

  /**
    * Main result. A member that is shown is shown with what its last recorded report says: the bytes received, the
    * bytes sent and how long the report took, at its connection's address; whatever the others do in between.
    */
  lemma ShownAsReported(w: World, c: Conn, frame: Frame, waiting: seq<Event>, now: Int64, waited: seq<Event>,
                        later: seq<Event>)
    requires c in w.links && w.links[c].phase.Idle? && w.links[c].key in w.known && now >= 0
    requires frame.frameType == FRAME_STATS_REPORT && ParseStats(frame.payload).Some?
    requires forall i :: 0 <= i < |waiting| ==> Others(waiting[i], c)
    requires forall i :: 0 <= i < |waited| ==> Others(waited[i], c)
    ensures var v := Run(After(w, Receive(c, Some(frame))), waiting);
            var u := After(Run(After(v, Identify(c, now)), waited), Record(c));
            var key, report := w.links[c].key, ParseStats(frame.payload).value;
            Records(u, later, key) == 0 && key in Run(u, later).table.devices ==>
              var shown := Run(u, later).table.devices[key];
              && shown.rxBytes == report.rxBytes && shown.txBytes == report.txBytes
              && shown.virtualIP == w.links[c].ip
              && shown.uid == (if key in v.table.uids && v.table.uids[key] != [] then v.table.uids[key] else report.uid)
              && shown.latencyMS == if 0 < report.timestampMS <= now then now - report.timestampMS else 0
  {
    var heard := After(w, Receive(c, Some(frame)));
    LinkKept(heard, waiting, c);
    var v := Run(heard, waiting);
    LinkKept(After(v, Identify(c, now)), waited, c);
    var u := After(Run(After(v, Identify(c, now)), waited), Record(c));
    if Records(u, later, w.links[c].key) == 0 && w.links[c].key in Run(u, later).table.devices {
      DeviceKept(u, later, w.links[c].key);
    }
  }

  // ----- a member with two connections -----

  /** The connection keeps the key, no new one is opened for it and it is not removed. */
  predicate Quiet(e: Event, c: Conn, key: Bytes32) {
    e != Evict(key) && e != Close(c) && !(e.Open? && e.key == key)
  }

  predicate AllQuiet(es: seq<Event>, c: Conn, key: Bytes32) {
    forall i :: 0 <= i < |es| ==> Quiet(es[i], c, key)
  }

  /** Another connection of the key that may still record. */
  predicate Rival(w: World, d: Conn, c: Conn, key: Bytes32) {
    d != c && d in w.links && w.links[d].key == key && !w.links[d].phase.Closing?
  }

  lemma {:induction false} Undisputed(w: World, es: seq<Event>, c: Conn, key: Bytes32)
    requires key in w.table.devices && key in w.table.owners && w.table.owners[key] == c && AllQuiet(es, c, key)
    requires forall d :: !Rival(w, d, c, key)
    ensures key in Run(w, es).table.devices
    decreases |es|
  {
    if |es| > 0 {
      assert Quiet(es[0], c, key);
      var v := After(w, es[0]);
      forall d
        ensures !Rival(v, d, c, key)
      {
        assert !Rival(w, d, c, key);
      }
      assert es[0].Record? && es[0].c != c ==> !Rival(w, es[0].c, c, key);
      Undisputed(v, es[1..], c, key);
    }
  }

  ghost predicate CanVanish(w: World, c: Conn, key: Bytes32) {
    exists es: seq<Event> :: AllQuiet(es, c, key) && key !in Run(w, es).table.devices
  }

  lemma RunFrom(w: World, e: Event, es: seq<Event>)
    ensures Run(w, [e] + es) == Run(After(w, e), es)
  {
    assert ([e] + es)[1..] == es;
  }

  lemma {:induction false} RunesOfA(n: nat)
    ensures Runes(seq(n, _ => 0x61)) == Some(seq(n, _ => 0x61))
  {
    if n > 0 {
      RunesOfA(n - 1);
      var b: seq<Byte> := seq(n, _ => 0x61);
      assert b[1..] == seq(n - 1, _ => 0x61);
      assert RuneSize(b) == 1 && Rune(b) == 0x61;
      assert b == [0x61] + b[1..];
    }
  }

  lemma SomeReport() returns (f: Frame)
    ensures Heard(Some(f), true).Checked?
  {
    var uid: seq<Byte> := seq(8, _ => 0x61);
    RunesOfA(8);
    assert ValidUid(uid);
    var r := StatsReport(0, uid, 0, 0);
    StatsRoundTrip(r);
    f := Frame(FRAME_STATS_REPORT, MarshalStats(r).value);
  }

  function StepsLeft(p: Phase): nat {
    match p
    case Ready(_) => 0
    case Checked(_) => 1
    case Idle => 2
    case _ => 3
  }

  /** A rival records over the connection and then fails to send the list. */
  lemma {:induction false} Takeover(w: World, d: Conn, c: Conn, key: Bytes32, f: Frame) returns (es: seq<Event>)
    requires Rival(w, d, c, key) && Heard(Some(f), true).Checked?
    ensures AllQuiet(es, c, key) && key !in Run(w, es).table.devices
    decreases StepsLeft(w.links[d].phase)
  {
    var p := w.links[d].phase;
    if p.Ready? {
      var end: seq<Event> := [];
      RunFrom(After(After(w, Record(d)), Answer(d, false)), Close(d), end);
      RunFrom(After(w, Record(d)), Answer(d, false), [Close(d)]);
      RunFrom(w, Record(d), [Answer(d, false)] + [Close(d)]);
      es := [Record(d)] + ([Answer(d, false)] + ([Close(d)] + end));
    } else if p.Idle? {
      var v := After(w, Admit(key));
      var rest := Takeover(After(v, Receive(d, Some(f))), d, c, key, f);
      RunFrom(v, Receive(d, Some(f)), rest);
      RunFrom(w, Admit(key), [Receive(d, Some(f))] + rest);
      es := [Admit(key)] + ([Receive(d, Some(f))] + rest);
    } else {
      var e := if p.Checked? then Identify(d, 0) else Answer(d, true);
      var rest := Takeover(After(w, e), d, c, key, f);
      RunFrom(w, e, rest);
      es := [e] + rest;
    }
  }

  /**
    * Main result. The entry of an open connection can vanish, without the member being removed or
    * connecting anew, if and only if another connection of the same key is still at work: that one
    * may record over it and close.
    */
  lemma VanishesIff(w: World, c: Conn, key: Bytes32)
    requires key in w.table.devices && key in w.table.owners && w.table.owners[key] == c
    ensures CanVanish(w, c, key) <==> exists d :: Rival(w, d, c, key)
  {
    if d :| Rival(w, d, c, key) {
      var f := SomeReport();
      var es := Takeover(w, d, c, key, f);
    } else {
      if es: seq<Event> :| AllQuiet(es, c, key) && key !in Run(w, es).table.devices {
        Undisputed(w, es, c, key);
      }
    }
  }
}
