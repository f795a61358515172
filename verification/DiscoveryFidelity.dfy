/** What the discovery path does to packets, end to end. */
module DiscoveryFidelity {
  import opened Bytes
  import opened Discovery
  import opened DiscoveryTun
  import Replay
  import opened RelayCore
  import Traffic

  // ----- reading: the compaction is a filter -----

  /** The largest packet Read can write: a captured packet, its frame header and the packet around them. */
  const WRAPPED_BYTES: nat := MAX_PACKET_BYTES + HEADER_BYTES + 28

  /** With buffers of one length, large enough for a wrapped packet, nothing is lost: the compaction is the filter. */
  lemma {:induction false} CompactionIsFilter(d: Tap, packets: seq<seq<Byte>>, room: seq<nat>, length: nat)
    requires |packets| <= |room| && length >= WRAPPED_BYTES
    requires forall j :: 0 <= j < |room| ==> room[j] == length
    requires forall i :: 0 <= i < |packets| ==> |packets[i]| <= length
    ensures Compacted(d, packets, room) == Filtered(d, packets)
  {
    if |packets| > 0 {
      CompactionIsFilter(d, packets[..|packets| - 1], room, length);
    }
  }

  lemma EncodedIffValid(v: Frame)
    requires v.flags <= 1
    ensures Encoded(v).Some? <==> ValidPacket(v.senderIP, v.packet)
    ensures Encoded(v).Some? ==> |Encoded(v).value| == HEADER_BYTES + |v.packet|
  {
  }

  /** What a client makes of packet i of a batch. */
  function ClientPacket(d: Tap, i: nat, packet: seq<Byte>): seq<Byte> {
    var payload := Encoded(Frame(0, d.localIP, (d.sequence + i + 1) % SEQUENCES, packet));
    if ValidPacket(d.localIP, packet) && payload.Some? then Wrapped(d.localIP, HOST_IP, d.relayPort, payload.value)
      else packet
  }

  /** What a client makes of a batch, packet by packet. */
  function ClientPackets(d: Tap, packets: seq<seq<Byte>>): (r: seq<seq<Byte>>)
    ensures |r| == |packets|
  {
    if |packets| == 0 then []
    else ClientPackets(d, packets[..|packets| - 1]) + [ClientPacket(d, |packets| - 1, packets[|packets| - 1])]
  }

  /** Main result: a client keeps every packet in its place; its discovery packets are wrapped, the others unchanged. */
  lemma {:induction false} ClientKeepsAll(d: Tap, packets: seq<seq<Byte>>)
    requires d.role == Client && d.sequence < SEQUENCES
    ensures Filtered(d, packets) == (Numbered(d, |packets|), ClientPackets(d, packets))
  {
    if |packets| > 0 {
      var n := |packets| - 1;
      ClientKeepsAll(d, packets[..n]);
      ClientStep(d, n, packets[n]);
      assert Filtered(d, packets[..n]) == (Numbered(d, n), ClientPackets(d, packets[..n]));
      assert Numbered(d, n).Examined(packets[n]) == (Numbered(d, n + 1), Some(ClientPacket(d, n, packets[n])));
    } else {
      Unnumbered(d);
    }
  }

  /** A tap after n packets. */
  function Numbered(d: Tap, n: nat): Tap {
    d.(sequence := (d.sequence + n) % SEQUENCES)
  }

  lemma Unnumbered(d: Tap)
    requires d.sequence < SEQUENCES
    ensures Numbered(d, 0) == d
  {
  }

  lemma ClientStep(d: Tap, i: nat, packet: seq<Byte>)
    requires d.role == Client
    ensures Numbered(d, i).Examined(packet) == (Numbered(d, i + 1), Some(ClientPacket(d, i, packet)))
  {
    NextNumber(d.sequence + i);
    EncodedIffValid(Frame(0, d.localIP, (d.sequence + i + 1) % SEQUENCES, packet));
  }

  lemma NextNumber(n: nat)
    ensures (n % SEQUENCES + 1) % SEQUENCES == (n + 1) % SEQUENCES
  {
  }

  /** The packets of a batch that are discovery packets of `ip`, or those that are not, in order. */
  function Sifted(ip: Addr, packets: seq<seq<Byte>>, discovery: bool): seq<seq<Byte>> {
    if |packets| == 0 then []
    else
      var before, last := Sifted(ip, packets[..|packets| - 1], discovery), packets[|packets| - 1];
      if ValidPacket(ip, last) == discovery then before + [last] else before
  }

  function PacketsOf(frames: seq<Frame>): seq<seq<Byte>> {
    seq(|frames|, i requires 0 <= i < |frames| => frames[i].packet)
  }

  /** Main result: the host takes out exactly its discovery packets, in order, and leaves the others unchanged. */
  lemma {:induction false} HostTakesDiscovery(d: Tap, packets: seq<seq<Byte>>)
    requires d.role == Host
    ensures var (after, kept) := Filtered(d, packets);
            && kept == Sifted(d.localIP, packets, false)
            && PacketsOf(after.captured) == PacketsOf(d.captured) + Sifted(d.localIP, packets, true)
            && after.localIP == d.localIP && after.role == Host
  {
    if |packets| > 0 {
      var front, last := packets[..|packets| - 1], packets[|packets| - 1];
      HostTakesDiscovery(d, front);
      var d1 := Filtered(d, front).0;
      EncodedIffValid(d1.NextFrame(last));
      assert PacketsOf(d1.captured + [d1.NextFrame(last)]) == PacketsOf(d1.captured) + [last];
    }
  }

  // ----- from one client to another -----

  lemma WrappedParts(source: Addr, destination: Addr, port: nat, payload: seq<Byte>)
    requires source.V4? && destination.V4? && port < 0x1_0000 && 28 + |payload| < 0x1_0000
    ensures var p := Wrapped(source, destination, port, payload);
            && p[0] == 0x45 && p[9] == 17 && U16(p, 2) == |p| && U16(p, 6) == 0
            && AddrAt(p, 12) == source && AddrAt(p, 16) == destination
            && U16(p, 20) == port && U16(p, 22) == port && U16(p, 24) == 8 + |payload| && p[28..] == payload
  {
    var p := Wrapped(source, destination, port, payload);
    var h := IpHeader(28 + |payload|, source, destination);
    HeaderParts(28 + |payload|, source, destination);
    UdpParts(h, Put16(port), Put16(port), Put16(8 + |payload|), p, payload);
    SameStart(p, h);
    PutRead(port);
    PutRead(8 + |payload|);
  }

  lemma PutRead(n: nat)
    requires n < 0x1_0000
    ensures U16(Put16(n), 0) == n
  {
  }

  /** Everything in the first twenty bytes is the same. */
  lemma SameStart(p: seq<Byte>, h: seq<Byte>)
    requires |h| == 20 <= |p| && p[..20] == h
    ensures p[0] == h[0] && p[9] == h[9] && U16(p, 2) == U16(h, 2) && U16(p, 6) == U16(h, 6)
    ensures AddrAt(p, 12) == AddrAt(h, 12) && AddrAt(p, 16) == AddrAt(h, 16)
  {
    assert forall i :: 0 <= i < 20 ==> p[i] == p[..20][i];
  }

  lemma UdpParts(h: seq<Byte>, source: seq<Byte>, destination: seq<Byte>, length: seq<Byte>, p: seq<Byte>,
                 payload: seq<Byte>)
    requires |h| == 20 && |source| == |destination| == |length| == 2
    requires p == h + source + destination + length + [0, 0] + payload
    ensures p[..20] == h && p[28..] == payload
    ensures U16(p, 20) == U16(source, 0) && U16(p, 22) == U16(destination, 0) && U16(p, 24) == U16(length, 0)
  {
  }

  lemma HeaderParts(length: nat, source: Addr, destination: Addr)
    requires source.V4? && destination.V4? && length < 0x1_0000
    ensures var h := IpHeader(length, source, destination);
            && h[0] == 0x45 && h[9] == 17 && U16(h, 2) == length && U16(h, 6) == 0
            && AddrAt(h, 12) == source && AddrAt(h, 16) == destination
  {
    var h := IpHeader(length, source, destination);
    assert h[..10] == IpStart(length) && h[12..] == As4(source) + As4(destination);
    assert h[0] == h[..10][0] && h[2] == h[..10][2] && h[3] == h[..10][3] && h[6] == h[..10][6] && h[7] == h[..10][7]
           && h[9] == h[..10][9];
    assert AddrAt(h, 12) == AddrAt(h[12..], 0) && AddrAt(h, 16) == AddrAt(h[12..], 4);
  }

  /** Main result: unwrapping gives back what was wrapped, to whom it was addressed. */
  lemma Unwraps(source: Addr, destination: Addr, port: nat, payload: seq<Byte>)
    requires source.V4? && destination.V4? && port < 0x1_0000 && 28 + |payload| < 0x1_0000
    ensures RelayPayload(Wrapped(source, destination, port, payload), source, destination, port) == Some(payload)
  {
    var p := Wrapped(source, destination, port, payload);
    WrappedParts(source, destination, port, payload);
    assert p[20..][8..] == p[28..];
    assert U16(p[20..], 2) == U16(p, 22) && U16(p[20..], 4) == U16(p, 24);
  }

  /** Main result: a packet wrapped for the host or a member is never taken for a discovery packet again. */
  lemma WrappedIsNotDiscovery(source: Addr, destination: Addr, port: nat, payload: seq<Byte>, sender: Addr)
    requires source.V4? && ValidSender(destination) && port < 0x1_0000 && 28 + |payload| < 0x1_0000
    ensures !ValidPacket(sender, Wrapped(source, destination, port, payload))
  {
    WrappedParts(source, destination, port, payload);
  }

  /**
    * Main result. Of the UDP packets that fit a frame, as they are built here, exactly those are discovery packets of a
    * member that it sends itself, to everyone: the two broadcast addresses and the multicast ones.
    */
  lemma TakenIffBroadcast(source: Addr, destination: Addr, port: nat, payload: seq<Byte>, sender: Addr)
    requires source.V4? && destination.V4? && port < 0x1_0000 && 28 + |payload| < 0x1_0000 && ValidSender(sender)
    ensures ValidPacket(sender, Wrapped(source, destination, port, payload)) <==>
              && source == sender && 28 + |payload| <= 1200
              && (destination in {V4(255, 255, 255, 255), V4(10, 0, 23, 255)} || 224 <= destination.b0 < 240)
  {
    var p := Wrapped(source, destination, port, payload);
    WrappedParts(source, destination, port, payload);
    assert HeaderLength(p) == 20;
  }

  // ----- what a client's replay cache makes of everything it was given -----

  /** What holds over the life of a client's wrapper: its cache was asked about these offers, one after the other. */
  ghost predicate Lived(b: Addr, port: nat, offers: seq<Offer>) {
    exists states :: Replay.IsRun(Replay.CACHE_ENTRIES, Replay.CACHE_TTL, AskedAll(b, port, offers), states)
  }

  predicate Timed(offers: seq<Offer>) {
    forall i, j :: 0 <= i < j < |offers| ==> offers[i].now <= offers[j].now
  }

  /** No ttl-long window has more accepted frames than the cache has room for. */
  ghost predicate Unhurried(b: Addr, port: nat, offers: seq<Offer>) {
    Replay.NoBurst(Replay.CACHE_ENTRIES, Replay.CACHE_TTL, AskedAll(b, port, offers))
  }

  predicate Carries(b: Addr, port: nat, o: Offer, key: Replay.Key) {
    var c := Carried(b, port, o.packet);
    c.Framed? && Replay.Key(c.frame.senderIP, c.frame.sequence) == key
  }

  /** Every frame offered is in the log, behind what was asked before it. */
  lemma {:induction false} LoggedAt(b: Addr, port: nat, offers: seq<Offer>, i: nat, key: Replay.Key)
    requires i < |offers| && Carries(b, port, offers[i], key)
    ensures var log, n := AskedAll(b, port, offers), |AskedAll(b, port, offers[..i])|;
            n < |log| && log[n] == Replay.Attempt(key, offers[i].now, offers[i].answer)
              && log[..n] == AskedAll(b, port, offers[..i])
    decreases |offers|
  {
    var front := offers[..|offers| - 1];
    if i < |front| {
      LoggedAt(b, port, front, i, key);
      assert front[..i] == offers[..i];
    }
  }

  /** And every entry of the log is a frame that was offered. */
  lemma {:induction false} OfferOf(b: Addr, port: nat, offers: seq<Offer>, n: nat) returns (i: nat)
    requires n < |AskedAll(b, port, offers)|
    ensures var a := AskedAll(b, port, offers)[n];
            i < |offers| && Carries(b, port, offers[i], a.key) && offers[i].now == a.now && offers[i].answer == a.answer
    decreases |offers|
  {
    var front := offers[..|offers| - 1];
    if n < |AskedAll(b, port, front)| {
      i := OfferOf(b, port, front, n);
    } else {
      i := |offers| - 1;
    }
  }

  lemma {:induction false} LogClocked(b: Addr, port: nat, offers: seq<Offer>)
    requires Timed(offers)
    ensures Replay.Clocked(AskedAll(b, port, offers))
    decreases |offers|
  {
    if |offers| > 0 {
      var front := offers[..|offers| - 1];
      LogClocked(b, port, front);
      var log := AskedAll(b, port, front);
      forall n | 0 <= n < |log|
        ensures log[n].now <= offers[|offers| - 1].now
      {
        var i := OfferOf(b, port, front, n);
      }
    }
  }

  /** A frame with this number was let through within the ttl before offer i. */
  ghost predicate TakenBefore(b: Addr, port: nat, offers: seq<Offer>, i: nat, key: Replay.Key)
    requires i < |offers|
  {
    exists j :: 0 <= j < i && Carries(b, port, offers[j], key) && offers[j].answer == Replay.Accepted
                && offers[j].now >= offers[i].now - Replay.CACHE_TTL
  }

  lemma TakenIsSeen(b: Addr, port: nat, offers: seq<Offer>, i: nat, key: Replay.Key)
    requires i < |offers| && Carries(b, port, offers[i], key) && TakenBefore(b, port, offers, i, key)
    ensures var log, n := AskedAll(b, port, offers), |AskedAll(b, port, offers[..i])|;
            n < |log| && Replay.SeenRecently(Replay.CACHE_TTL, log, n)
  {
    var log, n := AskedAll(b, port, offers), |AskedAll(b, port, offers[..i])|;
    LoggedAt(b, port, offers, i, key);
    var j :| 0 <= j < i && Carries(b, port, offers[j], key) && offers[j].answer == Replay.Accepted
             && offers[j].now >= offers[i].now - Replay.CACHE_TTL;
    LoggedAt(b, port, offers[..i], j, key);
    var m := |AskedAll(b, port, offers[..i][..j])|;
    assert log[..n][m] == log[m];
  }

  lemma SeenIsTaken(b: Addr, port: nat, offers: seq<Offer>, i: nat, key: Replay.Key)
    requires i < |offers| && Carries(b, port, offers[i], key)
    ensures var log, n := AskedAll(b, port, offers), |AskedAll(b, port, offers[..i])|;
            n < |log| && (Replay.SeenRecently(Replay.CACHE_TTL, log, n) ==> TakenBefore(b, port, offers, i, key))
  {
    var log, n := AskedAll(b, port, offers), |AskedAll(b, port, offers[..i])|;
    LoggedAt(b, port, offers, i, key);
    if Replay.SeenRecently(Replay.CACHE_TTL, log, n) {
      var m :| 0 <= m < n && log[m].answer == Replay.Accepted && log[m].key == log[n].key
        && log[m].now >= log[n].now - Replay.CACHE_TTL;
      assert log[..n][m] == log[m];
      var j := OfferOf(b, port, offers[..i], m);
      assert offers[..i][j] == offers[j];
    }
  }

  /**
    * Main result: a frame that reaches a client is let through if and only if none with its number was
    * within the ttl before.
    */
  lemma LetThroughIff(b: Addr, port: nat, offers: seq<Offer>, i: nat, key: Replay.Key)
    requires Lived(b, port, offers) && Timed(offers) && Unhurried(b, port, offers)
    requires i < |offers| && Carries(b, port, offers[i], key)
    ensures offers[i].answer == if TakenBefore(b, port, offers, i, key) then Replay.Duplicate else Replay.Accepted
  {
    var log, n := AskedAll(b, port, offers), |AskedAll(b, port, offers[..i])|;
    var states :| Replay.IsRun(Replay.CACHE_ENTRIES, Replay.CACHE_TTL, log, states);
    LogClocked(b, port, offers);
    LoggedAt(b, port, offers, i, key);
    if TakenBefore(b, port, offers, i, key) {
      TakenIsSeen(b, port, offers, i, key);
    }
    SeenIsTaken(b, port, offers, i, key);
    Replay.RefinesHistory(Replay.CACHE_ENTRIES, Replay.CACHE_TTL, log, states, n);
  }

  /** Offers of one number that all lie within one ttl: the first is let through and no other. */
  lemma FirstOnly(b: Addr, port: nat, offers: seq<Offer>, first: nat, key: Replay.Key, i: nat)
    requires Lived(b, port, offers) && Timed(offers) && Unhurried(b, port, offers)
    requires first < |offers| && Carries(b, port, offers[first], key) && i < |offers|
             && Carries(b, port, offers[i], key)
    requires forall j :: 0 <= j < first ==> !Carries(b, port, offers[j], key)
    requires offers[i].now <= offers[first].now + Replay.CACHE_TTL
    ensures offers[i].answer == if i == first then Replay.Accepted else Replay.Duplicate
  {
    LetThroughIff(b, port, offers, first, key);
    LetThroughIff(b, port, offers, i, key);
  }

  // ----- from one member to another -----

  /** The packet offered is one that brings a copy sent to `b` since `before`. */
  ghost predicate Brings(before: Relay, after: Relay, b: Addr, port: nat, o: Offer) {
    exists n :: |before.sent| <= n < |after.sent| && after.sent[n].0 == b
                && RelayPayload(o.packet, HOST_IP, b, port) == Some(after.sent[n].1)
  }

  /** Something brings a copy; nothing else under its number reaches `b`, and what does comes within one ttl. */
  ghost predicate BroughtInTime(before: Relay, after: Relay, b: Addr, port: nat, key: Replay.Key, offers: seq<Offer>) {
    && (exists i :: 0 <= i < |offers| && Brings(before, after, b, port, offers[i]))
    && (forall i :: 0 <= i < |offers| && Carries(b, port, offers[i], key) ==> Brings(before, after, b, port, offers[i]))
    && (forall i, j :: 0 <= i < j < |offers| && Carries(b, port, offers[i], key) && Carries(b, port, offers[j], key)
          ==> offers[j].now <= offers[i].now + Replay.CACHE_TTL)
  }

  /** Of all that was offered to `b`, exactly one packet that brings a copy is passed on, as `packet`. */
  ghost predicate DeliveredOnce(before: Relay, after: Relay, b: Addr, port: nat, packet: seq<Byte>,
                                offers: seq<Offer>) {
    exists first :: 0 <= first < |offers| && Brings(before, after, b, port, offers[first])
      && DeliveredOne(b, port, offers[first].packet, offers[first].answer) == Some(packet)
      && forall i :: 0 <= i < |offers| && i != first && Brings(before, after, b, port, offers[i])
           ==> DeliveredOne(b, port, offers[i].packet, offers[i].answer) == None
  }

  /** Copies of one frame sent to `b`. */
  ghost predicate SentFrame(before: Relay, after: Relay, payload: seq<Byte>) {
    |before.sent| <= |after.sent| && forall n :: |before.sent| <= n < |after.sent| ==> after.sent[n].1 == payload
  }

  lemma FirstCarrier(b: Addr, port: nat, offers: seq<Offer>, key: Replay.Key, i: nat) returns (first: nat)
    requires i < |offers| && Carries(b, port, offers[i], key)
    ensures first <= i && Carries(b, port, offers[first], key)
    ensures forall j :: 0 <= j < first ==> !Carries(b, port, offers[j], key)
  {
    if j :| 0 <= j < i && Carries(b, port, offers[j], key) {
      first := FirstCarrier(b, port, offers, key, j);
    } else {
      first := i;
    }
  }

  lemma BringsFrame(before: Relay, after: Relay, frame: Frame, b: Addr, port: nat, o: Offer)
    requires frame.sequence < SEQUENCES && Encoded(frame).Some? && SentFrame(before, after, Encoded(frame).value)
    requires Brings(before, after, b, port, o)
    ensures Carried(b, port, o.packet) == Framed(frame)
  {
    FrameRoundTrip(frame);
  }

  /** The first offer under the frame's number is passed on, any other that brings a copy is not. */
  lemma OnlyFirst(before: Relay, after: Relay, frame: Frame, b: Addr, port: nat, offers: seq<Offer>, first: nat, i: nat)
    requires frame.sequence < SEQUENCES && Encoded(frame).Some? && SentFrame(before, after, Encoded(frame).value)
    requires Lived(b, port, offers) && Timed(offers) && Unhurried(b, port, offers)
    requires first < |offers| && Carries(b, port, offers[first], Replay.Key(frame.senderIP, frame.sequence))
    requires forall j :: 0 <= j < first ==> !Carries(b, port, offers[j], Replay.Key(frame.senderIP, frame.sequence))
    requires i < |offers| && offers[i].now <= offers[first].now + Replay.CACHE_TTL
             && Brings(before, after, b, port, offers[i])
    ensures DeliveredOne(b, port, offers[i].packet, offers[i].answer) == if i == first then Some(frame.packet) else None
  {
    BringsFrame(before, after, frame, b, port, offers[i]);
    FirstOnly(b, port, offers, first, Replay.Key(frame.senderIP, frame.sequence), i);
  }

  lemma BroughtOnce(before: Relay, after: Relay, frame: Frame, b: Addr, port: nat, offers: seq<Offer>)
    requires frame.sequence < SEQUENCES && Encoded(frame).Some? && SentFrame(before, after, Encoded(frame).value)
    requires Lived(b, port, offers) && Timed(offers) && Unhurried(b, port, offers)
    ensures BroughtInTime(before, after, b, port, Replay.Key(frame.senderIP, frame.sequence), offers)
            ==> DeliveredOnce(before, after, b, port, frame.packet, offers)
  {
    var key := Replay.Key(frame.senderIP, frame.sequence);
    if BroughtInTime(before, after, b, port, key, offers) {
      var i :| 0 <= i < |offers| && Brings(before, after, b, port, offers[i]);
      BringsFrame(before, after, frame, b, port, offers[i]);
      var first := FirstCarrier(b, port, offers, key, i);
      assert Brings(before, after, b, port, offers[first]);
      OnlyFirst(before, after, frame, b, port, offers, first, first);
      forall j | 0 <= j < |offers| && j != first && Brings(before, after, b, port, offers[j])
        ensures DeliveredOne(b, port, offers[j].packet, offers[j].answer) == None
      {
        BringsFrame(before, after, frame, b, port, offers[j]);
        assert Carries(b, port, offers[j], key);
        OnlyFirst(before, after, frame, b, port, offers, first, j);
      }
    }
  }

  /**
    * What the relay makes of a packet that a client reads: wrapped by its Read, unwrapped by the host's
    * UDP, received by the relay.
    */
  function Relayed(a: Tap, relay: Relay, packet: seq<Byte>, now: int, listed: seq<Addr>, seen: Replay.Answer,
                   injects: bool, targets: seq<Addr>, answers: seq<bool>): (Relay, bool)
    requires |answers| == |targets|
  {
    var wire := a.Examined(packet).1;
    var payload := if wire.Some? then RelayPayload(wire.value, a.localIP, HOST_IP, a.relayPort) else None;
    if payload.None? then (relay, false)
      else relay.Received(payload.value, a.localIP, now, listed, seen, injects, targets, answers)
  }

  /**
    * The relay receives just the frame the client made, and accepts it if its client is listed, it is new
    * and within the limits.
    */
  lemma Arrives(a: Tap, relay: Relay, packet: seq<Byte>, now: int, listed: seq<Addr>, seen: Replay.Answer,
                injects: bool, targets: seq<Addr>, answers: seq<bool>)
    requires a.role == Client && ValidPacket(a.localIP, packet) && a.relayPort < 0x1_0000 && |answers| == |targets|
    ensures Encoded(a.NextFrame(packet)).Some?
    ensures var (after, ok) := Relayed(a, relay, packet, now, listed, seen, injects, targets, answers);
            && (ok <==> && a.localIP in listed && seen == Replay.Accepted && injects
                        && Traffic.Allowed(relay.limits, a.localIP, |packet|, Seconds(now)).1)
            && (ok ==> && after.injected == relay.injected + [packet]
                       && after.sent == relay.sent + Copies(Targets(a.localIP, targets),
                          Encoded(a.NextFrame(packet)).value))
  {
    var frame := a.NextFrame(packet);
    EncodedIffValid(frame);
    FrameRoundTrip(frame);
    Unwraps(a.localIP, HOST_IP, a.relayPort, Encoded(frame).value);
    RelayedExactly(relay, Encoded(frame).value, a.localIP, now, listed, seen, injects, targets, answers, a.localIP);
  }

  /** What comes of a packet read at client `a`, for any history of offers at `b`. */
  lemma Delivers(a: Tap, relay: Relay, packet: seq<Byte>, now: int, listed: seq<Addr>, seen: Replay.Answer,
                 injects: bool, targets: seq<Addr>, answers: seq<bool>, b: Addr, offers: seq<Offer>)
    requires a.role == Client && ValidPacket(a.localIP, packet) && a.relayPort < 0x1_0000 && |answers| == |targets|
    requires Lived(b, a.relayPort, offers) && Timed(offers) && Unhurried(b, a.relayPort, offers)
    ensures var (after, accepted) := Relayed(a, relay, packet, now, listed, seen, injects, targets, answers);
            var key := Replay.Key(a.localIP, a.NextFrame(packet).sequence);
            accepted ==>
              && after.injected == relay.injected + [packet]
              && (b in targets && !Skipped(a.localIP, b)
                 <==> exists n :: |relay.sent| <= n < |after.sent| && after.sent[n].0 == b)
              && (BroughtInTime(relay, after, b, a.relayPort, key, offers)
                  ==> DeliveredOnce(relay, after, b, a.relayPort, packet, offers))
  {
    var (after, accepted) := Relayed(a, relay, packet, now, listed, seen, injects, targets, answers);
    var frame := a.NextFrame(packet);
    Arrives(a, relay, packet, now, listed, seen, injects, targets, answers);
    if accepted {
      SentExactly(relay, after, a.localIP, targets, Encoded(frame).value, b);
      BroughtOnce(relay, after, frame, b, a.relayPort, offers);
    }
  }

  lemma SentExactly(before: Relay, after: Relay, sender: Addr, targets: seq<Addr>, payload: seq<Byte>, b: Addr)
    requires after.sent == before.sent + Copies(Targets(sender, targets), payload)
    ensures SentFrame(before, after, payload)
    ensures b in targets && !Skipped(sender, b)
            <==> exists n :: |before.sent| <= n < |after.sent| && after.sent[n].0 == b
  {
    var kept := Targets(sender, targets);
    CopiesAt(kept, payload);
    TargetsExact(sender, targets, b);
    assert b in targets && !Skipped(sender, b) <==> b in multiset(kept);
    if b in kept {
      var n :| 0 <= n < |kept| && kept[n] == b;
      assert after.sent[|before.sent| + n] == (b, payload);
    }
  }

  /** The same for a packet captured on the host itself. */
  lemma HostDelivers(host: Tap, relay: Relay, packet: seq<Byte>, now: int, targets: seq<Addr>, answers: seq<bool>,
                     b: Addr, offers: seq<Offer>)
    requires host.role == Host && host.localIP == HOST_IP && ValidPacket(HOST_IP, packet) && |answers| == |targets|
    requires relay.Host(host.NextFrame(packet), now, targets, answers).1
    requires Lived(b, host.relayPort, offers) && Timed(offers) && Unhurried(b, host.relayPort, offers)
    ensures var after, frame := relay.Host(host.NextFrame(packet), now, targets, answers).0, host.NextFrame(packet);
            && host.Examined(packet) == (host.(sequence := frame.sequence, captured := host.captured + [frame]), None)
            && (b in targets && !Skipped(NoAddr, b)
               <==> exists n :: |relay.sent| <= n < |after.sent| && after.sent[n].0 == b)
            && (BroughtInTime(relay, after, b, host.relayPort, Replay.Key(HOST_IP, frame.sequence), offers)
                ==> DeliveredOnce(relay, after, b, host.relayPort, packet, offers))
  {
    var after, frame := relay.Host(host.NextFrame(packet), now, targets, answers).0, host.NextFrame(packet);
    EncodedIffValid(frame);
    SentExactly(relay, after, NoAddr, targets, Encoded(frame).value, b);
    BroughtOnce(relay, after, frame, b, host.relayPort, offers);
  }

  // ----- what a wrapper has written -----

  /** The life of a client's wrapper is one the results above are about. */
  lemma WrapperLived(x: Wrapper)
    requires x.Valid() && x.role == Client
    ensures Lived(x.localIP, x.relayPort, x.offers) && x.written == Delivered(x.localIP, x.relayPort, x.offers)
  {
    assert Replay.IsRun(Replay.CACHE_ENTRIES, Replay.CACHE_TTL, AskedAll(x.localIP, x.relayPort, x.offers),
           x.replay.states);
  }

  lemma {:induction false} DeliveredConcat(b: Addr, port: nat, before: seq<Offer>, after: seq<Offer>)
    ensures Delivered(b, port, before + after) == Delivered(b, port, before) + Delivered(b, port, after)
    decreases |after|
  {
    if |after| == 0 {
      assert before + [] == before;
    } else {
      var front, last := after[..|after| - 1], after[|after| - 1];
      assert before + after == before + front + [last] && after == front + [last];
      DeliveredConcat(b, port, before, front);
      OfferedMore(b, port, before + front, last);
      OfferedMore(b, port, front, last);
    }
  }

  /** An offer that is passed on is passed on in its place. */
  lemma InItsPlace(b: Addr, port: nat, offers: seq<Offer>, i: nat, packet: seq<Byte>)
    requires i < |offers| && DeliveredOne(b, port, offers[i].packet, offers[i].answer) == Some(packet)
    ensures Delivered(b, port, offers)
            == Delivered(b, port, offers[..i]) + [packet] + Delivered(b, port, offers[i + 1..])
  {
    assert offers == offers[..i] + [offers[i]] + offers[i + 1..];
    DeliveredConcat(b, port, offers[..i] + [offers[i]], offers[i + 1..]);
    OfferedMore(b, port, offers[..i], offers[i]);
  }

  /** The offers that bring no copy of the frame. */
  ghost function Others(before: Relay, after: Relay, b: Addr, port: nat, offers: seq<Offer>): seq<Offer> {
    if |offers| == 0 then []
    else
      var front, last := Others(before, after, b, port, offers[..|offers| - 1]), offers[|offers| - 1];
      if Brings(before, after, b, port, last) then front else front + [last]
  }

  /** Offers that are dropped may as well not have been made. */
  lemma {:induction false} OthersDeliver(before: Relay, after: Relay, b: Addr, port: nat, offers: seq<Offer>)
    requires forall i :: 0 <= i < |offers| && Brings(before, after, b, port, offers[i])
               ==> DeliveredOne(b, port, offers[i].packet, offers[i].answer) == None
    ensures Delivered(b, port, offers) == Delivered(b, port, Others(before, after, b, port, offers))
  {
    if |offers| > 0 {
      var front, last := offers[..|offers| - 1], offers[|offers| - 1];
      OthersDeliver(before, after, b, port, front);
      OfferedMore(b, port, Others(before, after, b, port, front), last);
    }
  }

  /**
    * What was written is what would have been without the offers that bring a copy, but for one place, where
    * there is the packet.
    */
  ghost predicate WrittenOnce(before: Relay, after: Relay, x: Wrapper, packet: seq<Byte>)
    reads x
  {
    exists i :: 0 <= i < |x.offers| && Brings(before, after, x.localIP, x.relayPort, x.offers[i])
      && x.written == Delivered(x.localIP, x.relayPort, Others(before, after, x.localIP, x.relayPort, x.offers[..i]))
                      + [packet]
                      + Delivered(x.localIP, x.relayPort,
                        Others(before, after, x.localIP, x.relayPort, x.offers[i + 1..]))
  }

  lemma DeliveredIsWritten(before: Relay, after: Relay, x: Wrapper, packet: seq<Byte>)
    requires x.written == Delivered(x.localIP, x.relayPort, x.offers)
    requires DeliveredOnce(before, after, x.localIP, x.relayPort, packet, x.offers)
    ensures WrittenOnce(before, after, x, packet)
  {
    var b, port, offers := x.localIP, x.relayPort, x.offers;
    var i :| 0 <= i < |offers| && Brings(before, after, b, port, offers[i])
      && DeliveredOne(b, port, offers[i].packet, offers[i].answer) == Some(packet)
      && forall j :: 0 <= j < |offers| && j != i && Brings(before, after, b, port, offers[j])
           ==> DeliveredOne(b, port, offers[j].packet, offers[j].answer) == None;
    AroundOne(before, after, b, port, packet, offers, i);
  }

  lemma AroundOne(before: Relay, after: Relay, b: Addr, port: nat, packet: seq<Byte>, offers: seq<Offer>, i: nat)
    requires i < |offers| && DeliveredOne(b, port, offers[i].packet, offers[i].answer) == Some(packet)
    requires forall j :: 0 <= j < |offers| && j != i && Brings(before, after, b, port, offers[j])
               ==> DeliveredOne(b, port, offers[j].packet, offers[j].answer) == None
    ensures Delivered(b, port, offers)
         == Delivered(b, port, Others(before, after, b, port, offers[..i])) + [packet]
            + Delivered(b, port, Others(before, after, b, port, offers[i + 1..]))
  {
    InItsPlace(b, port, offers, i, packet);
    OthersDeliver(before, after, b, port, offers[..i]);
    OthersDeliver(before, after, b, port, offers[i + 1..]);
  }

  /**
    * Main result: a discovery packet read at client `a` and accepted by the relay is injected at the host and
    * sent to every other member listed. If, out of all that member `b` is ever given to write, something brings
    * such a copy, everything under its number does, and they come within the ttl, then exactly one of them is
    * passed on, and it is the packet `a` read, byte for byte.
    */
  lemma Fidelity(a: Tap, relay: Relay, packet: seq<Byte>, now: int, listed: seq<Addr>, seen: Replay.Answer,
                 injects: bool, targets: seq<Addr>, answers: seq<bool>, x: Wrapper)
    requires a.role == Client && ValidPacket(a.localIP, packet) && a.relayPort < 0x1_0000 && |answers| == |targets|
    requires x.Valid() && x.role == Client && x.relayPort == a.relayPort
    requires Timed(x.offers) && Unhurried(x.localIP, x.relayPort, x.offers)
    ensures var (after, accepted) := Relayed(a, relay, packet, now, listed, seen, injects, targets, answers);
            var key := Replay.Key(a.localIP, a.NextFrame(packet).sequence);
            accepted ==>
              && after.injected == relay.injected + [packet]
              && (x.localIP in targets && !Skipped(a.localIP, x.localIP)
                  <==> exists n :: |relay.sent| <= n < |after.sent| && after.sent[n].0 == x.localIP)
              && (BroughtInTime(relay, after, x.localIP, x.relayPort, key, x.offers)
                 ==> WrittenOnce(relay, after, x, packet))
  {
    var (after, accepted) := Relayed(a, relay, packet, now, listed, seen, injects, targets, answers);
    WrapperLived(x);
    Delivers(a, relay, packet, now, listed, seen, injects, targets, answers, x.localIP, x.offers);
    if accepted && DeliveredOnce(relay, after, x.localIP, x.relayPort, packet, x.offers) {
      DeliveredIsWritten(relay, after, x, packet);
    }
  }

  /** Main result: the same for a packet captured on the host itself. */
  lemma HostFidelity(host: Tap, relay: Relay, packet: seq<Byte>, now: int, targets: seq<Addr>, answers: seq<bool>,
                     x: Wrapper)
    requires host.role == Host && host.localIP == HOST_IP && ValidPacket(HOST_IP, packet) && |answers| == |targets|
    requires x.Valid() && x.role == Client && x.relayPort == host.relayPort
    requires Timed(x.offers) && Unhurried(x.localIP, x.relayPort, x.offers)
    ensures var frame := host.NextFrame(packet);
            var (after, accepted) := relay.Host(frame, now, targets, answers);
            && host.Examined(packet) == (host.(sequence := frame.sequence, captured := host.captured + [frame]), None)
            && (accepted ==>
                  && (x.localIP in targets && !Skipped(NoAddr, x.localIP)
                      <==> exists n :: |relay.sent| <= n < |after.sent| && after.sent[n].0 == x.localIP)
                  && (BroughtInTime(relay, after, x.localIP, x.relayPort, Replay.Key(HOST_IP, frame.sequence), x.offers)
                      ==> WrittenOnce(relay, after, x, packet)))
  {
    var (after, accepted) := relay.Host(host.NextFrame(packet), now, targets, answers);
    WrapperLived(x);
    EncodedIffValid(host.NextFrame(packet));
    if accepted {
      HostDelivers(host, relay, packet, now, targets, answers, x.localIP, x.offers);
      if DeliveredOnce(relay, after, x.localIP, x.relayPort, packet, x.offers) {
        DeliveredIsWritten(relay, after, x, packet);
      }
    }
  }

  /**
    * Whatever else it was given, a client has passed on every packet that is not the host's as it came, in
    * its place.
    */
  lemma OthersPass(x: Wrapper, i: nat)
    requires x.Valid() && x.role == Client && i < |x.offers|
    requires |x.offers[i].packet| >= 20 ==> AddrAt(x.offers[i].packet, 12) != HOST_IP
    ensures x.written == Delivered(x.localIP, x.relayPort, x.offers[..i]) + [x.offers[i].packet]
                         + Delivered(x.localIP, x.relayPort, x.offers[i + 1..])
  {
    WrapperLived(x);
    InItsPlace(x.localIP, x.relayPort, x.offers, i, x.offers[i].packet);
  }

  /** Whatever comes of an offer comes in its place. */
  lemma WhatCameOfIt(b: Addr, port: nat, offers: seq<Offer>, i: nat)
    requires i < |offers|
    ensures var out := DeliveredOne(b, port, offers[i].packet, offers[i].answer);
            Delivered(b, port, offers)
            == Delivered(b, port, offers[..i]) + (if out.Some? then [out.value] else [])
               + Delivered(b, port, offers[i + 1..])
  {
    assert offers == offers[..i] + [offers[i]] + offers[i + 1..];
    DeliveredConcat(b, port, offers[..i] + [offers[i]], offers[i + 1..]);
    OfferedMore(b, port, offers[..i], offers[i]);
  }

  lemma RelayedOne(b: Addr, port: nat, o: Offer, payload: seq<Byte>)
    requires RelayPayload(o.packet, HOST_IP, b, port) == Some(payload)
    ensures var frame := Decode(payload);
            DeliveredOne(b, port, o.packet, o.answer)
            == if frame.Some? && o.answer == Replay.Accepted then Some(frame.value.packet) else None
  {
  }

  /**
    * Main result. Of what comes from the host's relay, a client has passed on the packet of each frame that its cache
    * let through, in its place, and nothing for a frame that was refused or a payload that is no frame.
    */
  lemma RelayedPass(x: Wrapper, i: nat, payload: seq<Byte>)
    requires x.Valid() && x.role == Client && i < |x.offers|
    requires RelayPayload(x.offers[i].packet, HOST_IP, x.localIP, x.relayPort) == Some(payload)
    ensures var frame := Decode(payload);
            x.written == Delivered(x.localIP, x.relayPort, x.offers[..i])
                         + (if frame.Some? && x.offers[i].answer == Replay.Accepted then [frame.value.packet] else [])
                         + Delivered(x.localIP, x.relayPort, x.offers[i + 1..])
  {
    WrapperLived(x);
    WhatCameOfIt(x.localIP, x.relayPort, x.offers, i);
    RelayedOne(x.localIP, x.relayPort, x.offers[i], payload);
  }
}
