/** The interface wrapper that captures and delivers discovery packets: DiscoveryTun in internal/discovery/tun.go. */
module DiscoveryTun {
  import opened Buffers
  import opened Bytes
  import opened Discovery
  import Replay

  datatype Role = Client | Host

  /** The wrapper's state as Read sees it; `captured` is what it has handed to onDiscovery. */
  datatype Tap = Tap(role: Role, localIP: Addr, relayPort: nat, sequence: nat, captured: seq<Frame>) {
    function NextFrame(packet: seq<Byte>): Frame {
      Frame(if role == Host then HOST_ORIGIN else 0, localIP, (sequence + 1) % SEQUENCES, packet)
    }

    /** What Read makes of one packet: it stays, or is wrapped for the relay, or is taken out. */
    function Examined(packet: seq<Byte>): (Tap, Option<seq<Byte>>) {
      var frame := NextFrame(packet);
      var next := this.(sequence := frame.sequence);
      var payload := Encoded(frame);
      if payload.None? then (next, Some(packet))
      else if role == Host then (next.(captured := captured + [frame]), None)
      else (next, Some(Wrapped(localIP, HOST_IP, relayPort, payload.value)))
    }
  }

  /** What a batch becomes, if each packet kept must fit the next free buffer. */
  function Compacted(d: Tap, packets: seq<seq<Byte>>, room: seq<nat>): (r: (Tap, seq<seq<Byte>>))
    requires |packets| <= |room|
    ensures |r.1| <= |packets|
  {
    if |packets| == 0 then (d, [])
    else
      var (d1, kept) := Compacted(d, packets[..|packets| - 1], room);
      var (d2, packet) := d1.Examined(packets[|packets| - 1]);
      if packet.Some? && |packet.value| <= room[|kept|] then (d2, kept + [packet.value]) else (d2, kept)
  }

  lemma CompactedMore(d: Tap, packets: seq<seq<Byte>>, room: seq<nat>, i: nat)
    requires i < |packets| <= |room|
    ensures var (d1, kept) := Compacted(d, packets[..i], room);
            var (d2, packet) := d1.Examined(packets[i]);
            Compacted(d, packets[..i + 1], room)
            == if packet.Some? && |packet.value| <= room[|kept|] then (d2, kept + [packet.value]) else (d2, kept)
  {
    assert packets[..i + 1][..i] == packets[..i];
  }

  /** What a batch becomes if everything fits. */
  function Filtered(d: Tap, packets: seq<seq<Byte>>): (Tap, seq<seq<Byte>>) {
    if |packets| == 0 then (d, [])
    else
      var (d1, kept) := Filtered(d, packets[..|packets| - 1]);
      var (d2, packet) := d1.Examined(packets[|packets| - 1]);
      if packet.Some? then (d2, kept + [packet.value]) else (d2, kept)
  }

  /** The device only delivers what fits the buffers. */
  predicate Fits(packets: seq<seq<Byte>>, room: seq<nat>) {
    |packets| <= |room| && forall i :: 0 <= i < |packets| ==> |packets[i]| <= room[i]
  }

  /** One read of the device: packets, and perhaps an error with them. */
  datatype Batch = Batch(packets: seq<seq<Byte>>, failed: bool)

  /** The first batch that leaves something or fails, and the batches after it. A device with no more batches fails. */
  function FirstKept(d: Tap, batches: seq<Batch>, room: seq<nat>): (Tap, Batch, seq<Batch>)
    requires forall b :: b in batches ==> Fits(b.packets, room)
    decreases |batches|
  {
    if |batches| == 0 then (d, Batch([], true), [])
    else
      assert Fits(batches[0].packets, room);
      var (after, kept) := Compacted(d, batches[0].packets, room);
      if kept == [] && !batches[0].failed then FirstKept(after, batches[1..], room)
      else (after, Batch(kept, batches[0].failed), batches[1..])
  }

  predicate AllFit(batches: seq<Batch>, room: seq<nat>) {
    forall b :: b in batches ==> Fits(b.packets, room)
  }

  /** The wrapper once it has gone through these batches. */
  function TapAfter(d: Tap, batches: seq<Batch>, room: seq<nat>): Tap
    requires AllFit(batches, room)
    decreases |batches|
  {
    if |batches| == 0 then d else TapAfter(Compacted(d, batches[0].packets, room).0, batches[1..], room)
  }

  /** What is left of batch i when its turn comes. */
  function Left(d: Tap, batches: seq<Batch>, room: seq<nat>, i: nat): seq<seq<Byte>>
    requires AllFit(batches, room) && i < |batches|
  {
    Compacted(TapAfter(d, batches[..i], room), batches[i].packets, room).1
  }

  lemma TailTap(d: Tap, batches: seq<Batch>, room: seq<nat>, n: nat)
    requires AllFit(batches, room) && 0 < n <= |batches|
    ensures TapAfter(d, batches[..n], room)
         == TapAfter(Compacted(d, batches[0].packets, room).0, batches[1..][..n - 1], room)
  {
    assert batches[..n][1..] == batches[1..][..n - 1];
  }

  /** Nothing is left of the first i batches, and none of them fails. */
  predicate Passed(d: Tap, batches: seq<Batch>, room: seq<nat>, i: nat)
    requires AllFit(batches, room) && i <= |batches|
  {
    forall j :: 0 <= j < i ==> Left(d, batches, room, j) == [] && !batches[j].failed
  }

  lemma PassedMore(d: Tap, batches: seq<Batch>, room: seq<nat>, i: nat)
    requires AllFit(batches, room) && i < |batches| && Left(d, batches, room, 0) == [] && !batches[0].failed
    requires Passed(Compacted(d, batches[0].packets, room).0, batches[1..], room, i)
    ensures Passed(d, batches, room, i + 1)
  {
    forall j | 0 <= j < i + 1
      ensures Left(d, batches, room, j) == [] && !batches[j].failed
    {
      if j > 0 {
        TailTap(d, batches, room, j);
        assert Left(Compacted(d, batches[0].packets, room).0, batches[1..], room, j - 1) == []
               && !batches[1..][j - 1].failed;
      }
    }
  }

  /** Batch i is the one that is returned; |batches| stands for none. */
  predicate Returned(d: Tap, batches: seq<Batch>, room: seq<nat>, i: nat, after: Tap, out: Batch, rest: seq<Batch>)
    requires AllFit(batches, room) && i <= |batches|
  {
    if i == |batches| then after == TapAfter(d, batches, room) && out == Batch([], true) && rest == []
    else
      && (Left(d, batches, room, i) != [] || batches[i].failed) && rest == batches[i + 1..]
      && out == Batch(Left(d, batches, room, i), batches[i].failed)
      && after == TapAfter(d, batches[..i + 1], room)
  }

  lemma ReturnedLater(d: Tap, batches: seq<Batch>, room: seq<nat>, i: nat, after: Tap, out: Batch, rest: seq<Batch>)
    requires AllFit(batches, room) && i < |batches|
    requires Returned(Compacted(d, batches[0].packets, room).0, batches[1..], room, i, after, out, rest)
    ensures Returned(d, batches, room, i + 1, after, out, rest)
  {
    if i + 1 < |batches| {
      TailTap(d, batches, room, i + 1);
      TailTap(d, batches, room, i + 2);
    }
  }

  /**
    * Main result. Read passes over exactly the batches of which nothing is left and that do not fail: it returns the
    * first other one, whole, and leaves those behind it for later; when there is none it fails.
    */
  lemma {:induction false} FirstKeptIs(d: Tap, batches: seq<Batch>, room: seq<nat>) returns (i: nat)
    requires AllFit(batches, room)
    ensures i <= |batches| && Passed(d, batches, room, i)
    ensures var (after, out, rest) := FirstKept(d, batches, room);
            Returned(d, batches, room, i, after, out, rest)
    decreases |batches|
  {
    i := 0;
    if |batches| > 0 {
      var (next, kept) := Compacted(d, batches[0].packets, room);
      assert batches[..0] == [] && Left(d, batches, room, 0) == kept;
      if kept == [] && !batches[0].failed {
        var k := FirstKeptIs(next, batches[1..], room);
        var (after, out, rest) := FirstKept(next, batches[1..], room);
        PassedMore(d, batches, room, k);
        ReturnedLater(d, batches, room, k, after, out, rest);
        i := k + 1;
      } else {
        TailTap(d, batches, room, 1);
        assert batches[1..][..0] == [];
      }
    }
  }

  /**
    * What a packet that reaches a client carries: something of its own, a frame, or a relayed payload that
    * is no frame.
    */
  datatype Content = Own | Framed(frame: Frame) | Garbage

  function Carried(localIP: Addr, port: nat, packet: seq<Byte>): Content {
    var payload := RelayPayload(packet, HOST_IP, localIP, port);
    if payload.None? then Own
    else
      var frame := Decode(payload.value);
      if frame.None? then Garbage else Framed(frame.value)
  }

  function DeliveredOne(localIP: Addr, port: nat, packet: seq<Byte>, answer: Replay.Answer): Option<seq<Byte>> {
    match Carried(localIP, port, packet)
    case Own => Some(packet)
    case Framed(frame) => if answer == Replay.Accepted then Some(frame.packet) else None
    case Garbage => None
  }

  /** A packet given to a client's Write, when it was looked at, and the replay cache's answer if it carried a frame. */
  datatype Offer = Offer(packet: seq<Byte>, now: int, answer: Replay.Answer)

  /** What a client's Writes pass on. */
  function Delivered(localIP: Addr, port: nat, offers: seq<Offer>): seq<seq<Byte>> {
    if |offers| == 0 then []
    else
      var last := offers[|offers| - 1];
      var before, out := Delivered(localIP, port, offers[..|offers| - 1]),
        DeliveredOne(localIP, port, last.packet, last.answer);
      if out.Some? then before + [out.value] else before
  }

  /** What they ask the replay cache. */
  function AskedOne(localIP: Addr, port: nat, o: Offer): seq<Replay.Attempt> {
    match Carried(localIP, port, o.packet)
    case Framed(frame) => [Replay.Attempt(Replay.Key(frame.senderIP, frame.sequence), o.now, o.answer)]
    case _ => []
  }

  function AskedAll(localIP: Addr, port: nat, offers: seq<Offer>): seq<Replay.Attempt> {
    if |offers| == 0 then []
    else AskedAll(localIP, port, offers[..|offers| - 1]) + AskedOne(localIP, port, offers[|offers| - 1])
  }

  /** The offers explain what was passed on and what the cache was asked. */
  predicate Accounts(localIP: Addr, port: nat, offers: seq<Offer>, passed: seq<seq<Byte>>, log: seq<Replay.Attempt>) {
    passed == Delivered(localIP, port, offers) && log == AskedAll(localIP, port, offers)
  }

  lemma OfferedMore(localIP: Addr, port: nat, offers: seq<Offer>, o: Offer)
    ensures AskedAll(localIP, port, offers + [o]) == AskedAll(localIP, port, offers) + AskedOne(localIP, port, o)
    ensures var out := DeliveredOne(localIP, port, o.packet, o.answer);
            Delivered(localIP, port, offers + [o])
            == Delivered(localIP, port, offers) + if out.Some? then [out.value] else []
  {
    assert (offers + [o])[..|offers|] == offers;
  }

  /** The space each buffer has behind the offset. */
  function Room(buffers: seq<array<Byte>>, offset: nat): (r: seq<nat>)
    requires forall i :: 0 <= i < |buffers| ==> offset <= buffers[i].Length
    ensures |r| == |buffers|
  {
    seq(|buffers|, i requires 0 <= i < |buffers| => buffers[i].Length - offset)
  }

  /** Buffer i holds `packet`. */
  predicate Holds(buffers: seq<array<Byte>>, sizes: array<int>, offset: nat, i: nat, packet: seq<Byte>)
    requires i < |buffers|
    reads buffers[i], sizes
  {
    && i < sizes.Length && sizes[i] == |packet| && offset + |packet| <= buffers[i].Length
    && buffers[i][offset..offset + |packet|] == packet
  }

  /** keepPacket: into buffer `index` if it fits. */
  method KeepPacket(buffers: seq<array<Byte>>, sizes: array<int>, offset: nat, index: nat, packet: seq<Byte>)
    returns (next: nat)
    requires index < |buffers| <= sizes.Length && offset <= buffers[index].Length
    modifies buffers[index], sizes
    ensures next == if |packet| <= buffers[index].Length - offset then index + 1 else index
    ensures next == index + 1 ==> Holds(buffers, sizes, offset, index, packet)
    ensures next == index ==> buffers[index][..] == old(buffers[index][..]) && sizes[..] == old(sizes[..])
    ensures forall i :: 0 <= i < sizes.Length && i != index ==> sizes[i] == old(sizes[i])
  {
    if offset + |packet| > buffers[index].Length {
      return index;
    }
    CopyInto(buffers[index], offset, packet);
    assert buffers[index][..offset + |packet|][offset..] == packet;
    sizes[index] := |packet|;
    return index + 1;
  }

  /** The first |out| buffers hold `out`. */
  ghost predicate HoldsAll(buffers: seq<array<Byte>>, sizes: array<int>, offset: nat, out: seq<seq<Byte>>)
    reads sizes, set b | b in buffers
  {
    |out| <= |buffers| && forall j :: 0 <= j < |out| ==> Holds(buffers, sizes, offset, j, out[j])
  }

  /** Every buffer from `from` on still holds its packet. */
  ghost predicate HoldsFrom(buffers: seq<array<Byte>>, sizes: array<int>, offset: nat, packets: seq<seq<Byte>>,
                            from: nat)
    reads sizes, set b | b in buffers
  {
    |packets| <= |buffers| && forall j :: from <= j < |packets| ==> Holds(buffers, sizes, offset, j, packets[j])
  }

  /** keepPacket behind the packets kept so far; no packet not yet looked at is overwritten. */
  method KeepNext(buffers: seq<array<Byte>>, sizes: array<int>, offset: nat, index: nat, packet: seq<Byte>,
                  ghost out: seq<seq<Byte>>, ghost packets: seq<seq<Byte>>, ghost from: nat) returns (next: nat)
    requires index == |out| < |buffers| <= sizes.Length && offset <= buffers[index].Length && index < from
    requires forall i, j :: 0 <= i < j < |buffers| ==> buffers[i] != buffers[j]
    requires HoldsAll(buffers, sizes, offset, out) && HoldsFrom(buffers, sizes, offset, packets, from)
    modifies buffers[index], sizes
    ensures next == if |packet| <= buffers[index].Length - offset then index + 1 else index
    ensures HoldsAll(buffers, sizes, offset, if next == index + 1 then out + [packet] else out)
    ensures HoldsFrom(buffers, sizes, offset, packets, from)
  {
    next := KeepPacket(buffers, sizes, offset, index, packet);
    forall j | 0 <= j < |out|
      ensures Holds(buffers, sizes, offset, j, out[j])
    {
      assert old(Holds(buffers, sizes, offset, j, out[j]));
      assert buffers[j] != buffers[index];
    }
    forall j | from <= j < |packets|
      ensures Holds(buffers, sizes, offset, j, packets[j])
    {
      assert old(Holds(buffers, sizes, offset, j, packets[j]));
      assert buffers[index] != buffers[j];
    }
  }

  class Wrapper {
    const role: Role
    const localIP: Addr
    const relayPort: nat
    const replay: Replay.ReplayWindow
    var sequence: nat
    var captured: seq<Frame>
    // what the device beneath was given to write
    var written: seq<seq<Byte>>
    // everything a client was given to write
    ghost var offers: seq<Offer>

    /**
      * Over its whole life a client has passed on what its replay cache let through, and asked the cache
      * nothing else.
      */
    ghost predicate Valid()
      reads this, replay
    {
      && replay.Valid() && replay.max == Replay.CACHE_ENTRIES && replay.ttl == Replay.CACHE_TTL
      && (role == Client ==>
            Accounts(localIP, relayPort, offers, written, replay.log))
    }

    function View(): Tap
      reads this
    {
      Tap(role, localIP, relayPort, sequence, captured)
    }

    constructor (role: Role, localIP: Addr, relayPort: nat)
      ensures View() == Tap(role, localIP, relayPort, 0, []) && written == [] && offers == [] && Valid()
              && fresh(replay)
    {
      this.role, this.localIP, this.relayPort := role, localIP, relayPort;
      sequence, captured, written, offers := 0, [], [], [];
      replay := new Replay.ReplayWindow(1024, 5_000_000_000);
    }

    /** One packet of a batch. */
    method Examine(packet: seq<Byte>) returns (kept: Option<seq<Byte>>)
      modifies this`sequence, this`captured
      ensures (View(), kept) == old(View()).Examined(packet)
    {
      sequence := (sequence + 1) % SEQUENCES;
      var frame := Frame(if role == Host then HOST_ORIGIN else 0, localIP, sequence, packet);
      var payload := Discovery.Encode(frame);
      if payload.None? {
        return Some(packet);
      }
      if role == Host {
        captured := captured + [frame];
        return None;
      }
      var relayPacket := BuildIPv4UDP(localIP, HOST_IP, relayPort, payload.value);
      return Some(relayPacket);
    }

    /** One round of the loop of Read. */
    method CompactOne(buffers: seq<array<Byte>>, sizes: array<int>, offset: nat, packets: seq<seq<Byte>>, i: nat,
                      kept: nat, ghost out: seq<seq<Byte>>)
      returns (next: nat, ghost more: seq<seq<Byte>>, ghost result: Option<seq<Byte>>)
      requires kept == |out| <= i < |packets| <= |buffers| <= sizes.Length
      requires forall i, j :: 0 <= i < j < |buffers| ==> buffers[i] != buffers[j]
      requires forall i :: 0 <= i < |buffers| ==> offset <= buffers[i].Length
      requires HoldsAll(buffers, sizes, offset, out) && HoldsFrom(buffers, sizes, offset, packets, i)
      modifies this`sequence, this`captured, sizes, set b | b in buffers
      ensures HoldsAll(buffers, sizes, offset, more) && HoldsFrom(buffers, sizes, offset, packets, i + 1)
      ensures next == |more|
      ensures (View(), result) == old(View()).Examined(packets[i])
      ensures more == if result.Some? && |result.value| <= buffers[kept].Length - offset then out + [result.value]
              else out
    {
      assert Holds(buffers, sizes, offset, i, packets[i]);
      var packet := buffers[i][offset..offset + sizes[i]];
      var examined := Examine(packet);
      next, more, result := kept, out, examined;
      if examined.Some? {
        next := KeepNext(buffers, sizes, offset, kept, examined.value, out, packets, i + 1);
        more := if next == kept + 1 then out + [examined.value] else out;
      }
    }

    /** The loop of Read over the packets the device has read into the buffers. */
    method Compact(buffers: seq<array<Byte>>, sizes: array<int>, offset: nat, packets: seq<seq<Byte>>)
      returns (kept: nat)
      requires |packets| <= |buffers| <= sizes.Length
      requires forall i, j :: 0 <= i < j < |buffers| ==> buffers[i] != buffers[j]
      requires forall i :: 0 <= i < |buffers| ==> offset <= buffers[i].Length
      requires HoldsFrom(buffers, sizes, offset, packets, 0)
      modifies this`sequence, this`captured, sizes, set b | b in buffers
      ensures var (after, out) := Compacted(old(View()), packets, Room(buffers, offset));
              View() == after && kept == |out| && HoldsAll(buffers, sizes, offset, out)
    {
      kept := 0;
      ghost var room, out := Room(buffers, offset), [];
      for i := 0 to |packets|
        invariant kept == |out| <= i
        invariant (View(), out) == Compacted(old(View()), packets[..i], room)
        invariant HoldsAll(buffers, sizes, offset, out) && HoldsFrom(buffers, sizes, offset, packets, i)
      {
        CompactedMore(old(View()), packets, room, i);
        ghost var result;
        kept, out, result := CompactOne(buffers, sizes, offset, packets, i, kept, out);
      }
      assert packets[..|packets|] == packets;
    }

    /** Read: batches are read until one leaves something or fails. */
    method Read(device: Device, buffers: seq<array<Byte>>, sizes: array<int>, offset: nat)
      returns (kept: nat, failed: bool)
      requires |buffers| <= sizes.Length
      requires forall i, j :: 0 <= i < j < |buffers| ==> buffers[i] != buffers[j]
      requires forall i :: 0 <= i < |buffers| ==> offset <= buffers[i].Length
      requires forall b :: b in device.batches ==> Fits(b.packets, Room(buffers, offset))
      modifies this`sequence, this`captured, device, sizes, set b | b in buffers
      ensures var (after, out, rest) := FirstKept(old(View()), old(device.batches), Room(buffers, offset));
              && View() == after && device.batches == rest
              && kept == |out.packets| && failed == out.failed && HoldsAll(buffers, sizes, offset, out.packets)
    {
      ghost var room := Room(buffers, offset);
      while device.batches != []
        invariant forall b :: b in device.batches ==> Fits(b.packets, room)
        invariant FirstKept(View(), device.batches, room) == FirstKept(old(View()), old(device.batches), room)
        decreases |device.batches|
      {
        var packets;
        packets, failed := device.Next(buffers, sizes, offset);
        kept := Compact(buffers, sizes, offset, packets);
        if kept > 0 || failed {
          return;
        }
      }
      return 0, true;
    }

    /** One packet of Write; None is dropped. */
    method WriteOne(packet: seq<Byte>, now: int) returns (out: Option<seq<Byte>>, ghost o: Offer)
      requires replay.Valid()
      modifies replay
      ensures replay.Valid() && o == Offer(packet, now, o.answer)
      ensures out == DeliveredOne(localIP, relayPort, packet, o.answer)
      ensures replay.log == old(replay.log) + AskedOne(localIP, relayPort, o)
    {
      o := Offer(packet, now, Replay.Accepted);
      var payload := RelayPayload(packet, HOST_IP, localIP, relayPort);
      if payload.None? {
        return Some(packet), o;
      }
      var frame := Decode(payload.value);
      if frame.None? {
        return None, o;
      }
      var answer := replay.Accept(frame.value.senderIP, frame.value.sequence, now);
      o := Offer(packet, now, answer);
      if answer != Replay.Accepted {
        return None, o;
      }
      return Some(frame.value.packet), o;
    }

    /** One round of the loop of Write; `filtered` is what this Write is to pass on behind `written`. */
    method WriteNext(packet: seq<Byte>, now: int, filtered: seq<seq<Byte>>, ghost before: seq<Offer>)
      returns (more: seq<seq<Byte>>, ghost o: Offer)
      requires replay.Valid() && Accounts(localIP, relayPort, before, written + filtered, replay.log)
      modifies replay
      ensures replay.Valid() && o.packet == packet && o.now == now
      ensures Accounts(localIP, relayPort, before + [o], written + more, replay.log)
    {
      var payload;
      payload, o := WriteOne(packet, now);
      OfferedMore(localIP, relayPort, before, o);
      more := filtered;
      if payload.Some? {
        more := filtered + [payload.value];
        assert written + more == written + filtered + [payload.value];
      }
    }

    /**
      * Write: a relayed frame is unwrapped, once; anything else goes through. `times` are the clock readings.
      * With Valid, the whole life of the wrapper says what was passed on.
      */
    method Write(packets: seq<seq<Byte>>, times: seq<int>)
      requires Valid() && |times| == |packets|
      modifies this`written, this`offers, replay
      ensures Valid()
      ensures role == Host ==> written == old(written) + packets
      ensures role == Host ==> offers == old(offers) && replay.log == old(replay.log)
      ensures role == Client ==> Extends(offers, old(offers), packets, times, |packets|)
    {
      if role == Host {
        written := written + packets;
        return;
      }
      var filtered := [];
      ghost var all := offers;
      assert written + [] == written;
      for i := 0 to |packets|
        invariant replay.Valid() && Accounts(localIP, relayPort, all, written + filtered, replay.log)
        invariant written == old(written) && offers == old(offers) && Extends(all, offers, packets, times, i)
      {
        ghost var o;
        filtered, o := WriteNext(packets[i], times[i], filtered, all);
        ExtendsMore(all, offers, packets, times, i, o);
        all := all + [o];
      }
      written := written + filtered;
      offers := all;
    }
  }

  predicate OfferedAt(o: Offer, packet: seq<Byte>, now: int) {
    o.packet == packet && o.now == now
  }

  /** The first n packets have been offered, each at its time, behind what was offered before. */
  predicate Extends(offers: seq<Offer>, before: seq<Offer>, packets: seq<seq<Byte>>, times: seq<int>, n: nat) {
    && n <= |packets| == |times| && |offers| == |before| + n && offers[..|before|] == before
    && forall i :: 0 <= i < n ==> OfferedAt(offers[|before| + i], packets[i], times[i])
  }

  lemma ExtendsMore(all: seq<Offer>, before: seq<Offer>, packets: seq<seq<Byte>>, times: seq<int>, n: nat, o: Offer)
    requires n < |packets| && Extends(all, before, packets, times, n) && OfferedAt(o, packets[n], times[n])
    ensures Extends(all + [o], before, packets, times, n + 1)
  {
    assert (all + [o])[..|before|] == all[..|before|];
  }

  /** The device beneath: what its reads will bring. */
  class Device {
    var batches: seq<Batch>

    constructor (batches: seq<Batch>)
      ensures this.batches == batches
    {
      this.batches := batches;
    }

    /** The next batch, into the buffers. */
    method Next(buffers: seq<array<Byte>>, sizes: array<int>, offset: nat)
      returns (packets: seq<seq<Byte>>, failed: bool)
      requires batches != [] && |buffers| <= sizes.Length
      requires forall i, j :: 0 <= i < j < |buffers| ==> buffers[i] != buffers[j]
      requires forall i :: 0 <= i < |buffers| ==> offset <= buffers[i].Length
      requires Fits(batches[0].packets, Room(buffers, offset))
      modifies this, sizes, set b | b in buffers
      ensures Batch(packets, failed) == old(batches[0]) && batches == old(batches[1..])
      ensures HoldsFrom(buffers, sizes, offset, packets, 0)
    {
      packets, failed := batches[0].packets, batches[0].failed;
      batches := batches[1..];
      for i := 0 to |packets|
        invariant HoldsAll(buffers, sizes, offset, packets[..i])
        invariant batches == old(batches[1..])
      {
        var _ := KeepNext(buffers, sizes, offset, i, packets[i], packets[..i], [], i + 1);
        assert packets[..i] + [packets[i]] == packets[..i + 1];
      }
      assert packets[..|packets|] == packets;
    }
  }
}
