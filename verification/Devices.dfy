/** Device lists and the frames all pairing messages travel in: internal/pairing/network.go and pairing.go. */
module Devices {
  import opened Bytes
  import opened Streams
  import opened Text
  import opened Pairing

  /** Addresses are IPv4; their text form is not part of this model. */
  datatype Device = Device(latencyMS: Int64, uid: seq<Byte>, virtualIP: Addr, rxBytes: Uint64, txBytes: Uint64)

  predicate ValidDevice(d: Device) {
    ValidUid(d.uid) && d.virtualIP.V4?
  }

  predicate AllValid(ds: seq<Device>) {
    forall i :: 0 <= i < |ds| ==> ValidDevice(ds[i])
  }

  function Entry(d: Device): (b: seq<Byte>)
    requires d.virtualIP.V4?
    ensures |b| == 29 + |d.uid|
  {
    var ip := d.virtualIP;
    [|d.uid| % 256] + d.uid + [ip.b0, ip.b1, ip.b2, ip.b3] + ToBE(d.rxBytes, 8) + ToBE(d.txBytes, 8)
      + ToBE(Unsigned(d.latencyMS), 8)
  }

  /** Bytes as long as their first byte says. */
  predicate Shaped(e: seq<Byte>) {
    |e| > 0 && |e| == 29 + e[0] as int
  }

  function DeviceOf(e: seq<Byte>): Device
    requires Shaped(e)
  {
    var u: nat := e[0];
    Device(Signed(U64(e[21 + u..])), e[1..1 + u], V4(e[1 + u], e[2 + u], e[3 + u], e[4 + u]), U64(e[5 + u..13 + u]),
      U64(e[13 + u..21 + u]))
  }

  function Joined(parts: seq<seq<Byte>>): seq<Byte> {
    if |parts| == 0 then [] else parts[0] + Joined(parts[1..])
  }

  predicate AllIPv4(ds: seq<Device>) {
    forall i :: 0 <= i < |ds| ==> ds[i].virtualIP.V4?
  }

  function EntriesOf(ds: seq<Device>): (parts: seq<seq<Byte>>)
    requires AllIPv4(ds)
    ensures |parts| == |ds|
  {
    seq(|ds|, i requires 0 <= i < |ds| => Entry(ds[i]))
  }

  function Marshalled(ds: seq<Device>): seq<Byte>
    requires AllIPv4(ds)
  {
    ToBE(|ds|, 2) + Joined(EntriesOf(ds))
  }

  /** A payload cut into `count` entries that fill it. */
  function Cut(b: seq<Byte>, count: nat): (r: Option<seq<seq<Byte>>>)
    ensures r.Some? ==> |r.value| == count && forall i :: 0 <= i < count ==> Shaped(r.value[i])
  {
    if count == 0 then (if |b| == 0 then Some([]) else None)
    else if |b| == 0 || 29 + b[0] as int > |b| then None
    else
      var rest := Cut(b[29 + b[0] as int..], count - 1);
      if rest.None? then None else Some([b[..29 + b[0] as int]] + rest.value)
  }

  function DevicesOf(parts: seq<seq<Byte>>): (ds: seq<Device>)
    requires forall i :: 0 <= i < |parts| ==> Shaped(parts[i])
    ensures |ds| == |parts|
  {
    seq(|parts|, i requires 0 <= i < |parts| => DeviceOf(parts[i]))
  }

  /** A payload parses if its entries fill it and every UID is valid. */
  function Parsed(b: seq<Byte>): Option<seq<Device>> {
    if |b| < 2 || U16(b[..2]) > MAX_DEVICES then None
    else
      var parts := Cut(b[2..], U16(b[..2]));
      if parts.Some? && AllValid(DevicesOf(parts.value)) then Some(DevicesOf(parts.value)) else None
  }

  // ----- the program's loops -----

  method MarshalDevices(ds: seq<Device>) returns (payload: seq<Byte>)
    requires AllIPv4(ds)
    ensures payload == Marshalled(ds)
  {
    payload := ToBE(|ds|, 2);
    for i := 0 to |ds|
      invariant payload == ToBE(|ds|, 2) + Joined(EntriesOf(ds)[..i])
    {
      JoinedMore(EntriesOf(ds)[..i], EntriesOf(ds)[i]);
      assert EntriesOf(ds)[..i + 1] == EntriesOf(ds)[..i] + [EntriesOf(ds)[i]];
      payload := payload + Entry(ds[i]);
    }
    assert EntriesOf(ds)[..|ds|] == EntriesOf(ds);
  }

  method ParseDevices(payload: seq<Byte>) returns (r: Option<seq<Device>>)
    ensures r == Parsed(payload)
  {
    if |payload| < 2 {
      return None;
    }
    var count := U16(payload[..2]);
    if count > MAX_DEVICES {
      return None;
    }
    r := ParseEntries(payload, count);
  }

  /** The loop of parseDevices. */
  method ParseEntries(payload: seq<Byte>, count: nat) returns (r: Option<seq<Device>>)
    requires |payload| >= 2
    ensures var parts := Cut(payload[2..], count);
            r == if parts.Some? && AllValid(DevicesOf(parts.value)) then Some(DevicesOf(parts.value)) else None
  {
    var offset, devices := 2, [];
    ghost var whole := Cut(payload[2..], count);
    CutStarts(whole);
    for i := 0 to count
      invariant 2 <= offset <= |payload|
      invariant Follows(whole, devices, Cut(payload[offset..], count - i)) && AllValid(devices)
    {
      var d := ParseOne(payload, offset, devices, whole, count - i);
      if d.None? {
        return None;
      }
      devices, offset := devices + [d.value], offset + 29 + payload[offset] as int;
    }
    CutEnds(whole, devices, payload[offset..]);
    if offset != |payload| {
      return None;
    }
    return Some(devices);
  }

  /** One entry; None if it is cut short or its UID is not valid, and then the whole payload does not parse. */
  method ParseOne(payload: seq<Byte>, offset: nat, devices: seq<Device>, ghost whole: Option<seq<seq<Byte>>>,
                  ghost left: nat)
    returns (d: Option<Device>)
    requires offset <= |payload| && left > 0
    requires whole.Some? ==> forall i :: 0 <= i < |whole.value| ==> Shaped(whole.value[i])
    requires Follows(whole, devices, Cut(payload[offset..], left))
    ensures d.None? ==> whole.None? || !AllValid(DevicesOf(whole.value))
    ensures d.Some? ==>
              && offset < |payload| && offset + 29 + payload[offset] as int <= |payload| && ValidDevice(d.value)
              && Follows(whole, devices + [d.value], Cut(payload[offset + 29 + payload[offset] as int..], left - 1))
  {
    if offset >= |payload| || offset + 29 + payload[offset] as int > |payload| {
      return None;
    }
    var size := 29 + payload[offset] as int;
    var device := DeviceOf(payload[offset..offset + size]);
    CutStep(whole, devices, payload, offset, left);
    if !ValidUid(device.uid) {
      InvalidInside(whole, devices, device, Cut(payload[offset + size..], left - 1));
      return None;
    }
    return Some(device);
  }

  /** The devices of the whole payload are those found so far and those of the rest. */
  ghost predicate Follows(whole: Option<seq<seq<Byte>>>, devices: seq<Device>, rest: Option<seq<seq<Byte>>>)
    requires whole.Some? ==> forall i :: 0 <= i < |whole.value| ==> Shaped(whole.value[i])
    requires rest.Some? ==> forall i :: 0 <= i < |rest.value| ==> Shaped(rest.value[i])
  {
    (whole.Some? <==> rest.Some?) && (whole.Some? ==> DevicesOf(whole.value) == devices + DevicesOf(rest.value))
  }

  lemma CutStarts(whole: Option<seq<seq<Byte>>>)
    requires whole.Some? ==> forall i :: 0 <= i < |whole.value| ==> Shaped(whole.value[i])
    ensures Follows(whole, [], whole)
  {
  }

  lemma CutEnds(whole: Option<seq<seq<Byte>>>, devices: seq<Device>, rest: seq<Byte>)
    requires whole.Some? ==> forall i :: 0 <= i < |whole.value| ==> Shaped(whole.value[i])
    requires Follows(whole, devices, Cut(rest, 0))
    ensures whole.Some? <==> rest == []
    ensures whole.Some? ==> DevicesOf(whole.value) == devices
  {
    assert devices + [] == devices;
  }

  lemma CutStep(whole: Option<seq<seq<Byte>>>, devices: seq<Device>, payload: seq<Byte>, offset: nat, left: nat)
    requires offset < |payload| && offset + 29 + payload[offset] as int <= |payload| && left > 0
    requires whole.Some? ==> forall i :: 0 <= i < |whole.value| ==> Shaped(whole.value[i])
    requires Follows(whole, devices, Cut(payload[offset..], left))
    ensures var size := 29 + payload[offset] as int;
            Follows(whole, devices + [DeviceOf(payload[offset..offset + size])],
              Cut(payload[offset + size..], left - 1))
  {
    var size := 29 + payload[offset] as int;
    var e, rest := payload[offset..offset + size], Cut(payload[offset + size..], left - 1);
    CutCons(payload, offset, left);
    if rest.Some? {
      DevicesCons(e, rest.value);
      assert devices + ([DeviceOf(e)] + DevicesOf(rest.value)) == devices + [DeviceOf(e)] + DevicesOf(rest.value);
    }
  }

  lemma CutCons(payload: seq<Byte>, offset: nat, left: nat)
    requires offset < |payload| && offset + 29 + payload[offset] as int <= |payload| && left > 0
    ensures var size := 29 + payload[offset] as int;
            var rest := Cut(payload[offset + size..], left - 1);
            && Shaped(payload[offset..offset + size])
            && Cut(payload[offset..], left) == if rest.None? then None
               else Some([payload[offset..offset + size]] + rest.value)
  {
    var b, size := payload[offset..], 29 + payload[offset] as int;
    assert b[0] == payload[offset] && b[..size] == payload[offset..offset + size]
           && b[size..] == payload[offset + size..];
  }

  lemma DevicesCons(e: seq<Byte>, parts: seq<seq<Byte>>)
    requires Shaped(e) && forall i :: 0 <= i < |parts| ==> Shaped(parts[i])
    ensures forall i :: 0 <= i < |[e] + parts| ==> Shaped(([e] + parts)[i])
    ensures DevicesOf([e] + parts) == [DeviceOf(e)] + DevicesOf(parts)
  {
  }

  lemma InvalidInside(whole: Option<seq<seq<Byte>>>, devices: seq<Device>, d: Device, rest: Option<seq<seq<Byte>>>)
    requires whole.Some? ==> forall i :: 0 <= i < |whole.value| ==> Shaped(whole.value[i])
    requires rest.Some? ==> forall i :: 0 <= i < |rest.value| ==> Shaped(rest.value[i])
    requires Follows(whole, devices + [d], rest) && !ValidUid(d.uid)
    ensures whole.Some? ==> !AllValid(DevicesOf(whole.value))
  {
    if whole.Some? {
      assert DevicesOf(whole.value)[|devices|] == d;
    }
  }

  lemma {:induction false} JoinedMore(parts: seq<seq<Byte>>, e: seq<Byte>)
    ensures Joined(parts + [e]) == Joined(parts) + e
  {
    if |parts| == 0 {
      assert [e][1..] == [] && [] + [e] == [e];
    } else {
      assert (parts + [e])[1..] == parts[1..] + [e];
      JoinedMore(parts[1..], e);
    }
  }

  // ----- inverses -----

  lemma EntryRoundTrip(d: Device)
    requires |d.uid| < 256 && d.virtualIP.V4?
    ensures Shaped(Entry(d)) && DeviceOf(Entry(d)) == d
  {
    var b, u := Entry(d), |d.uid|;
    assert b[1..1 + u] == d.uid;
    assert b[5 + u..13 + u] == ToBE(d.rxBytes, 8) && b[13 + u..21 + u] == ToBE(d.txBytes, 8);
    assert b[21 + u..] == ToBE(Unsigned(d.latencyMS), 8);
    Numbers(d.rxBytes);
    Numbers(d.txBytes);
    Numbers(Unsigned(d.latencyMS));
  }

  lemma EntryReprint(e: seq<Byte>)
    requires Shaped(e)
    ensures DeviceOf(e).virtualIP.V4? && Entry(DeviceOf(e)) == e
  {
    var u: nat := e[0];
    NumberBytes(e[5 + u..13 + u]);
    NumberBytes(e[13 + u..21 + u]);
    NumberBytes(e[21 + u..]);
    EntryOfParts(u, e[1..1 + u], V4(e[1 + u], e[2 + u], e[3 + u], e[4 + u]), e[5 + u..13 + u], e[13 + u..21 + u],
      e[21 + u..]);
    EntrySlices(e, u);
  }

  lemma EntryOfParts(u: nat, uid: seq<Byte>, ip: Addr, rx: seq<Byte>, tx: seq<Byte>, latency: seq<Byte>)
    requires u < 256 && |uid| == u && ip.V4? && |rx| == |tx| == |latency| == 8
    requires ToBE(U64(rx), 8) == rx && ToBE(U64(tx), 8) == tx && ToBE(U64(latency), 8) == latency
    ensures Entry(Device(Signed(U64(latency)), uid, ip, U64(rx), U64(tx)))
         == [u] + uid + [ip.b0, ip.b1, ip.b2, ip.b3] + rx + tx + latency
  {
  }

  lemma EntrySlices(e: seq<Byte>, u: nat)
    requires |e| == 29 + u
    ensures e == [e[0]] + e[1..1 + u] + [e[1 + u], e[2 + u], e[3 + u], e[4 + u]] + e[5 + u..13 + u] + e[13 + u..21 + u]
            + e[21 + u..]
  {
  }

  lemma {:induction false} CutJoined(parts: seq<seq<Byte>>)
    requires forall i :: 0 <= i < |parts| ==> Shaped(parts[i])
    ensures Cut(Joined(parts), |parts|) == Some(parts)
  {
    if |parts| > 0 {
      var e, rest := parts[0], Joined(parts[1..]);
      CutJoined(parts[1..]);
      assert (e + rest)[..|e|] == e && (e + rest)[|e|..] == rest && (e + rest)[0] == e[0];
      assert parts == [e] + parts[1..];
    }
  }

  lemma {:induction false} JoinedCut(b: seq<Byte>, count: nat)
    requires Cut(b, count).Some?
    ensures Joined(Cut(b, count).value) == b
    decreases count
  {
    if count > 0 {
      var e, rest, parts := FirstCut(b, count);
      JoinedCut(rest, count - 1);
      JoinedCons(e, parts);
    }
  }

  /** The first entry of a payload that can be cut, and the entries of the rest. */
  lemma FirstCut(b: seq<Byte>, count: nat) returns (e: seq<Byte>, rest: seq<Byte>, parts: seq<seq<Byte>>)
    requires count > 0 && Cut(b, count).Some?
    ensures b == e + rest && |rest| < |b| && Cut(rest, count - 1) == Some(parts) && Cut(b, count) == Some([e] + parts)
  {
    var size := 29 + b[0] as int;
    e, rest := b[..size], b[size..];
    parts := Cut(rest, count - 1).value;
  }

  lemma JoinedCons(e: seq<Byte>, parts: seq<seq<Byte>>)
    ensures Joined([e] + parts) == e + Joined(parts)
  {
    assert ([e] + parts)[1..] == parts;
  }

  lemma EntriesRoundTrip(ds: seq<Device>)
    requires AllValid(ds) && AllIPv4(ds)
    ensures Cut(Joined(EntriesOf(ds)), |ds|) == Some(EntriesOf(ds))
    ensures DevicesOf(EntriesOf(ds)) == ds
  {
    forall i | 0 <= i < |ds|
      ensures Shaped(EntriesOf(ds)[i]) && DeviceOf(EntriesOf(ds)[i]) == ds[i]
    {
      assert ValidDevice(ds[i]);
      EntryRoundTrip(ds[i]);
    }
    CutJoined(EntriesOf(ds));
  }

  /** Main result: a list of valid devices is read back as it was exactly when it has at most 253 entries. */
  lemma DevicesRoundTrip(ds: seq<Device>)
    requires AllValid(ds) && AllIPv4(ds) && |ds| < 0x1_0000
    ensures Parsed(Marshalled(ds)) == Some(ds) <==> |ds| <= MAX_DEVICES
    ensures Parsed(Marshalled(ds)) == None <==> |ds| > MAX_DEVICES
  {
    var b := Marshalled(ds);
    assert b[..2] == ToBE(|ds|, 2) && b[2..] == Joined(EntriesOf(ds));
    Numbers(|ds|);
    EntriesRoundTrip(ds);
  }

  lemma EntriesReprint(parts: seq<seq<Byte>>)
    requires forall i :: 0 <= i < |parts| ==> Shaped(parts[i])
    ensures AllIPv4(DevicesOf(parts)) && EntriesOf(DevicesOf(parts)) == parts
  {
    forall i | 0 <= i < |parts|
      ensures DevicesOf(parts)[i].virtualIP.V4? && Entry(DevicesOf(parts)[i]) == parts[i]
    {
      EntryReprint(parts[i]);
    }
  }

  /** Main result: a payload that parses is what its devices marshal to. */
  lemma DevicesReprint(b: seq<Byte>)
    requires Parsed(b).Some?
    ensures AllValid(Parsed(b).value) && AllIPv4(Parsed(b).value) && Marshalled(Parsed(b).value) == b
  {
    var parts := Cut(b[2..], U16(b[..2])).value;
    JoinedCut(b[2..], U16(b[..2]));
    EntriesReprint(parts);
    NumberBytes(b[..2]);
    assert b == b[..2] + b[2..];
  }

  lemma {:induction false} JoinedSize(parts: seq<seq<Byte>>)
    requires forall i :: 0 <= i < |parts| ==> |parts[i]| <= 60
    ensures |Joined(parts)| <= 60 * |parts|
  {
    if |parts| > 0 {
      JoinedSize(parts[1..]);
    }
  }

  /** Main result: every list that parses fits one frame, and so does one entry more. */
  lemma DevicesFit(ds: seq<Device>)
    requires AllValid(ds) && AllIPv4(ds) && |ds| <= MAX_DEVICES + 1
    ensures 1 + |Marshalled(ds)| <= MAX_FRAME_BYTES
  {
    assert forall i :: 0 <= i < |ds| ==> ValidDevice(ds[i]);
    JoinedSize(EntriesOf(ds));
  }

  // ----- frames -----

  predicate ValidFrameType(t: Byte) {
    1 <= t <= 6
  }

  datatype Frame = Frame(frameType: Byte, payload: seq<Byte>)

  predicate Sendable(f: Frame) {
    ValidFrameType(f.frameType) && 1 + |f.payload| <= MAX_FRAME_BYTES
  }

  function FrameBytes(f: Frame): seq<Byte> {
    ToBE(1 + |f.payload|, 4) + [f.frameType] + f.payload
  }

  /** The frame at the front of a stream and what follows it; None is a closed stream or a broken frame. */
  function FrameAt(stream: seq<Byte>): (r: Option<(Frame, seq<Byte>)>)
    ensures r.Some? ==> |r.value.1| < |stream|
  {
    if |stream| < 4 then None
    else
      var length := FromBE(stream[..4]);
      if length == 0 || length > MAX_FRAME_BYTES || |stream| < 4 + length || !ValidFrameType(stream[4]) then None
      else Some((Frame(stream[4], stream[5..4 + length]), stream[4 + length..]))
  }

  method WriteFrame(w: Sink, f: Frame) returns (ok: bool)
    modifies w
    ensures ok == Sendable(f)
    ensures w.written == if ok then old(w.written) + FrameBytes(f) else old(w.written)
  {
    var length := 1 + |f.payload|;
    if !ValidFrameType(f.frameType) || length > MAX_FRAME_BYTES {
      return false;
    }
    WriteFull(w, ToBE(length, 4) + [f.frameType]);
    WriteFull(w, f.payload);
    return true;
  }

  method ReadFrame(conn: Source) returns (r: Option<Frame>)
    modifies conn
    ensures r.Some? <==> FrameAt(old(conn.incoming)).Some?
    ensures r.Some? ==> FrameAt(old(conn.incoming)).value == (r.value, conn.incoming)
  {
    ghost var stream := conn.incoming;
    var size := new Byte[4];
    var ok := conn.ReadFull(size);
    if !ok {
      return None;
    }
    var length := FromBE(size[..]);
    if length == 0 || length > MAX_FRAME_BYTES {
      return None;
    }
    var b := new Byte[length];
    ok := conn.ReadFull(b);
    if !ok {
      return None;
    }
    assert stream[4..][..length] == stream[4..4 + length] && stream[4..][length..] == stream[4 + length..];
    assert b[..] == stream[4..4 + length];
    assert b[0] == b[..][0];
    if !ValidFrameType(b[0]) {
      return None;
    }
    assert b[1..] == b[..][1..];
    return Some(Frame(b[0], b[1..]));
  }

  function Stream(frames: seq<Frame>): seq<Byte> {
    if |frames| == 0 then [] else FrameBytes(frames[0]) + Stream(frames[1..])
  }

  /** Every frame that can be read from a stream, and what is left. */
  function FramesAt(stream: seq<Byte>): (seq<Frame>, seq<Byte>)
    decreases |stream|
  {
    var r := FrameAt(stream);
    if r.None? then ([], stream)
    else
      var (frames, rest) := FramesAt(r.value.1);
      ([r.value.0] + frames, rest)
  }

  lemma FrameRoundTrip(f: Frame, rest: seq<Byte>)
    requires Sendable(f)
    ensures FrameAt(FrameBytes(f) + rest) == Some((f, rest))
  {
    var stream, length := FrameBytes(f) + rest, 1 + |f.payload|;
    assert stream[..4] == ToBE(length, 4) && stream[5..4 + length] == f.payload && stream[4 + length..] == rest;
    Widths();
    BEOfInt(length, 4);
  }

  /**
    * Main result: a list of frames, written in pieces of any size and read back in pieces of any size, is
    * read as the same list, and what follows it is untouched.
    */
  lemma {:induction false} ListRoundTrip(frames: seq<Frame>, rest: seq<Byte>)
    requires forall i :: 0 <= i < |frames| ==> Sendable(frames[i])
    ensures FramesAt(Stream(frames) + rest) == (frames + FramesAt(rest).0, FramesAt(rest).1)
  {
    if |frames| == 0 {
      assert [] + rest == rest && [] + FramesAt(rest).0 == FramesAt(rest).0;
    } else {
      ListRoundTrip(frames[1..], rest);
      var more := Stream(frames[1..]) + rest;
      FrameThenMore(frames[0], more);
      StreamCons(frames, rest);
      FramesBehind(frames, FramesAt(rest).0);
    }
  }

  lemma FrameThenMore(f: Frame, more: seq<Byte>)
    requires Sendable(f)
    ensures FramesAt(FrameBytes(f) + more) == ([f] + FramesAt(more).0, FramesAt(more).1)
  {
    FrameRoundTrip(f, more);
  }

  lemma StreamCons(frames: seq<Frame>, rest: seq<Byte>)
    requires |frames| > 0
    ensures Stream(frames) + rest == FrameBytes(frames[0]) + (Stream(frames[1..]) + rest)
  {
    Regroup(FrameBytes(frames[0]), Stream(frames[1..]), rest);
  }

  lemma Regroup(a: seq<Byte>, b: seq<Byte>, c: seq<Byte>)
    ensures a + b + c == a + (b + c)
  {
  }

  lemma FramesBehind(frames: seq<Frame>, found: seq<Frame>)
    requires |frames| > 0
    ensures [frames[0]] + (frames[1..] + found) == frames + found
  {
  }
}
