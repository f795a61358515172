/** Discovery frames and the packets that carry them: internal/discovery/frame.go and tun.go. */
module Discovery {
  import opened Buffers
  import opened Bytes

  const HEADER_BYTES: nat := 20
  const MAX_PACKET_BYTES: nat := 1200
  const VERSION: Byte := 1
  const HOST_ORIGIN: Byte := 1
  // "ODR2"
  const MAGIC: seq<Byte> := [79, 68, 82, 50]
  const SEQUENCES: nat := 0x1_0000_0000_0000_0000

  datatype Frame = Frame(flags: Byte, senderIP: Addr, sequence: nat, packet: seq<Byte>)

  function U16(p: seq<Byte>, i: nat): (n: nat)
    requires i + 2 <= |p|
    ensures n < 0x1_0000
  {
    p[i] as int * 256 + p[i + 1] as int
  }

  function Put16(n: nat): (p: seq<Byte>)
    ensures |p| == 2
  {
    [n / 256 % 256, n % 256]
  }

  lemma Put16Read(n: nat, before: seq<Byte>, after: seq<Byte>)
    requires n < 0x1_0000
    ensures U16(before + Put16(n) + after, |before|) == n
  {
  }

  function AddrAt(p: seq<Byte>, i: nat): Addr
    requires i + 4 <= |p|
  {
    V4(p[i], p[i + 1], p[i + 2], p[i + 3])
  }

  function As4(ip: Addr): (p: seq<Byte>)
    requires ip.V4?
    ensures |p| == 4
  {
    [ip.b0, ip.b1, ip.b2, ip.b3]
  }

  predicate ValidSender(ip: Addr) {
    ip.V4? && ip.b0 == 10 && ip.b1 == 0 && ip.b2 == 23 && 1 <= ip.b3 <= 254
  }

  predicate ValidDestination(ip: Addr) {
    ip == V4(255, 255, 255, 255) || ip == V4(10, 0, 23, 255) || (ip.V4? && 224 <= ip.b0 <= 239)
  }

  /** How long the IPv4 header says it is. */
  function HeaderLength(packet: seq<Byte>): nat
    requires |packet| > 0
  {
    packet[0] % 16 * 4
  }

  /** A whole, unfragmented IPv4 UDP packet. */
  predicate WholeUdp(packet: seq<Byte>) {
    && |packet| >= 28 && packet[0] / 16 == 4 && packet[9] == 17
    && U16(packet, 6) % 0x4000 == 0
    && 20 <= HeaderLength(packet) && HeaderLength(packet) + 8 <= |packet|
    && U16(packet, 2) == |packet|
    && U16(packet, HeaderLength(packet) + 4) == |packet| - HeaderLength(packet)
  }

  /** A discovery packet of `sender`: whole, small enough, its own, and sent to everyone. */
  predicate ValidPacket(sender: Addr, packet: seq<Byte>) {
    && ValidSender(sender) && WholeUdp(packet) && |packet| <= MAX_PACKET_BYTES
    && AddrAt(packet, 12) == sender && ValidDestination(AddrAt(packet, 16))
  }

  // ----- frames -----

  function Header(v: Frame): (h: seq<Byte>)
    requires v.senderIP.V4?
    ensures |h| == HEADER_BYTES
  {
    MAGIC + [VERSION, v.flags] + As4(v.senderIP) + ToBE(v.sequence, 8) + Put16(|v.packet|)
  }

  function Encoded(v: Frame): Option<seq<Byte>> {
    if v.flags / 2 != 0 || !ValidPacket(v.senderIP, v.packet) then None else Some(Header(v) + v.packet)
  }

  function Decode(b: seq<Byte>): Option<Frame> {
    if |b| < HEADER_BYTES || b[..4] != MAGIC || b[4] != VERSION || b[5] / 2 != 0 then None
    else
      var packetLength := U16(b, 18);
      if packetLength == 0 || packetLength > MAX_PACKET_BYTES || |b| != HEADER_BYTES + packetLength then None
      else
        var v := Frame(b[5], AddrAt(b, 6), FromBE(b[10..18]), b[20..]);
        if ValidPacket(v.senderIP, v.packet) then Some(v) else None
  }

  /** Encode fills one buffer. */
  method Encode(v: Frame) returns (r: Option<seq<Byte>>)
    ensures r == Encoded(v)
  {
    if v.flags / 2 != 0 || !ValidPacket(v.senderIP, v.packet) {
      return None;
    }
    var b := new Byte[HEADER_BYTES + |v.packet|];
    CopyInto(b, 0, MAGIC);
    CopyInto(b, 4, [VERSION, v.flags]);
    CopyInto(b, 6, As4(v.senderIP));
    CopyInto(b, 10, ToBE(v.sequence, 8));
    CopyInto(b, 18, Put16(|v.packet|));
    assert b[..20] == Header(v);
    CopyInto(b, 20, v.packet);
    assert b[..] == b[..b.Length];
    return Some(b[..]);
  }

  lemma HeaderParts(v: Frame, b: seq<Byte>)
    requires v.senderIP.V4? && |v.packet| < 0x1_0000 && b == Header(v) + v.packet
    ensures b[..4] == MAGIC && b[4] == VERSION && b[5] == v.flags && AddrAt(b, 6) == v.senderIP
    ensures b[10..18] == ToBE(v.sequence, 8) && U16(b, 18) == |v.packet| && b[20..] == v.packet
  {
    var h := Header(v);
    assert h[..4] == MAGIC && h[6..10] == As4(v.senderIP) && h[10..18] == ToBE(v.sequence, 8)
           && h[18..] == Put16(|v.packet|);
    assert b[..20] == h && b[6..10] == h[6..10] && b[10..18] == h[10..18] && b[18..20] == h[18..];
    assert b[6] == b[6..10][0] && b[7] == b[6..10][1] && b[8] == b[6..10][2] && b[9] == b[6..10][3];
    assert b[18] == b[18..20][0] && b[19] == b[18..20][1];
  }

  /** Main result: a frame that encodes decodes to itself. */
  lemma FrameRoundTrip(v: Frame)
    requires v.sequence < SEQUENCES && Encoded(v).Some?
    ensures Decode(Encoded(v).value) == Some(v)
  {
    HeaderParts(v, Encoded(v).value);
    Widths();
    BEOfInt(v.sequence, 8);
  }

  /** Main result: bytes that decode are the encoding of what they decode to. */
  lemma FrameReprint(b: seq<Byte>)
    requires Decode(b).Some?
    ensures Encoded(Decode(b).value) == Some(b)
  {
    var v := Decode(b).value;
    BEOfBytes(b[10..18]);
    PutBack(b[18], b[19]);
    HeaderSlices(b[..20]);
    assert b[..20][10..18] == b[10..18];
    assert Header(v) == b[..20];
    assert b == b[..20] + b[20..];
  }

  lemma HeaderSlices(h: seq<Byte>)
    requires |h| == 20
    ensures h == h[..4] + [h[4], h[5]] + [h[6], h[7], h[8], h[9]] + h[10..18] + [h[18], h[19]]
  {
  }

  lemma PutBack(a: Byte, b: Byte)
    ensures Put16(a as int * 256 + b as int) == [a, b]
  {
  }

  // ----- the checksum of an IPv4 header -----

  function WordSum(h: seq<Byte>): nat
    requires |h| % 2 == 0
  {
    if |h| == 0 then 0 else WordSum(h[..|h| - 2]) + U16(h, |h| - 2)
  }

  function Folded(sum: nat): (r: nat)
    ensures r < 0x1_0000 && r % 0xFFFF == sum % 0xFFFF && (r == 0 <==> sum == 0)
    decreases sum
  {
    if sum <= 0xFFFF then sum
    else
      FoldStep(sum);
      Folded(sum / 0x1_0000 + sum % 0x1_0000)
  }

  /** One fold makes the sum smaller, keeps it modulo 65535, and does not make it zero. */
  lemma FoldStep(sum: nat)
    requires sum > 0xFFFF
    ensures var less := sum / 0x1_0000 + sum % 0x1_0000;
            0 < less < sum && less % 0xFFFF == sum % 0xFFFF
  {
    var high, low := sum / 0x1_0000, sum % 0x1_0000;
    assert sum == (high + low) + 0xFFFF * high;
    SameRemainder(high + low, high);
  }

  lemma SameRemainder(a: nat, k: nat)
    ensures (a + 0xFFFF * k) % 0xFFFF == a % 0xFFFF
  {
    var q, r := a / 0xFFFF, a % 0xFFFF;
    assert a + 0xFFFF * k == 0xFFFF * (q + k) + r;
  }

  function Checksum(h: seq<Byte>): (c: nat)
    requires |h| % 2 == 0
    ensures c < 0x1_0000
  {
    0xFFFF - Folded(WordSum(h))
  }

  /** ipv4Checksum; the 32-bit sum of a header of at most 60 bytes does not overflow. */
  method IPv4Checksum(header: seq<Byte>) returns (c: nat)
    requires |header| % 2 == 0
    ensures c == Checksum(header)
  {
    var sum: nat := 0;
    var i := 0;
    while i < |header|
      invariant i <= |header| && i % 2 == 0 && sum == WordSum(header[..i])
    {
      sum := sum + U16(header, i);
      assert header[..i + 2][..i] == header[..i];
      i := i + 2;
    }
    assert header[..|header|] == header;
    while sum > 0xFFFF
      invariant Folded(sum) == Folded(WordSum(header))
      decreases sum
    {
      sum := sum / 0x1_0000 + sum % 0x1_0000;
    }
    return 0xFFFF - sum;
  }

  /** Changing one word changes the sum by as much. */
  lemma {:induction false} WordChange(h: seq<Byte>, g: seq<Byte>, i: nat)
    requires |h| == |g| && |h| % 2 == 0 && i % 2 == 0 && i + 2 <= |h|
    requires forall k :: 0 <= k < |h| && k != i && k != i + 1 ==> h[k] == g[k]
    ensures WordSum(g) == WordSum(h) - U16(h, i) + U16(g, i)
    ensures U16(h, i) <= WordSum(h)
    decreases |h|
  {
    var n := |h| - 2;
    if i == n {
      assert h[..n] == g[..n];
    } else {
      WordChange(h[..n], g[..n], i);
      assert U16(h, n) == U16(g, n) && U16(h[..n], i) == U16(h, i) && U16(g[..n], i) == U16(g, i);
    }
  }

  /** Main result: a header whose blank checksum field is filled in by the program checks out: its checksum is 0. */
  lemma ChecksumVerifies(blank: seq<Byte>, filled: seq<Byte>, i: nat)
    requires |blank| == |filled| && |blank| % 2 == 0 && i % 2 == 0 && i + 2 <= |blank|
    requires forall k :: 0 <= k < |blank| && k != i && k != i + 1 ==> blank[k] == filled[k]
    requires U16(blank, i) == 0 && WordSum(blank) > 0 && U16(filled, i) == Checksum(blank)
    ensures Checksum(filled) == 0
  {
    WordChange(blank, filled, i);
    FoldComplement(WordSum(blank));
  }

  lemma FoldComplement(s: nat)
    requires s > 0
    ensures Folded(s + (0xFFFF - Folded(s))) == 0xFFFF
  {
    Complement(s, Folded(s));
  }

  lemma Complement(s: nat, f: nat)
    requires f <= 0xFFFF && s % 0xFFFF == f % 0xFFFF
    ensures (s + (0xFFFF - f)) % 0xFFFF == 0
  {
    var q, p := s / 0xFFFF, f / 0xFFFF;
    assert s + (0xFFFF - f) == 0xFFFF * (q - p + 1);
    assert q - p + 1 >= 0 by {
      assert p <= 1;
    }
    SameRemainder(0, q - p + 1);
  }

  // ----- packets between the host and its members -----

  /** The first 20 bytes, around the checksum. */
  function IpStart(length: nat): (h: seq<Byte>)
    ensures |h| == 10
  {
    [0x45, 0] + Put16(length) + [0, 0, 0, 0, 64, 17]
  }

  function IpHeader(length: nat, source: Addr, destination: Addr): (h: seq<Byte>)
    requires source.V4? && destination.V4?
    ensures |h| == 20
  {
    var ends := As4(source) + As4(destination);
    IpStart(length) + Put16(Checksum(IpStart(length) + Put16(0) + ends)) + ends
  }

  /** The header of every wrapped packet checks out. */
  lemma HeaderChecks(length: nat, source: Addr, destination: Addr)
    requires source.V4? && destination.V4?
    ensures Checksum(IpHeader(length, source, destination)) == 0
  {
    var start, ends := IpStart(length), As4(source) + As4(destination);
    var blank := start + Put16(0) + ends;
    WordChange(blank, blank, 0);
    assert U16(blank, 0) == 0x4500 && U16(blank, 10) == 0;
    Put16Read(Checksum(blank), start, ends);
    ChecksumVerifies(blank, IpHeader(length, source, destination), 10);
  }

  function Wrapped(source: Addr, destination: Addr, port: nat, payload: seq<Byte>): (p: seq<Byte>)
    requires source.V4? && destination.V4?
    ensures |p| == 28 + |payload|
  {
    IpHeader(28 + |payload|, source, destination) + Put16(port) + Put16(port) + Put16(8 + |payload|) + [0, 0] + payload
  }

  /** buildIPv4UDP. */
  method BuildIPv4UDP(source: Addr, destination: Addr, port: nat, payload: seq<Byte>) returns (r: seq<Byte>)
    requires source.V4? && destination.V4?
    ensures r == Wrapped(source, destination, port, payload)
  {
    var packet := new Byte[28 + |payload|](_ => 0);
    FillHeader(packet, source, destination);
    CopyInto(packet, 20, Put16(port));
    CopyInto(packet, 22, Put16(port));
    CopyInto(packet, 24, Put16(8 + |payload|));
    CopyInto(packet, 26, [0, 0]);
    CopyInto(packet, 28, payload);
    assert packet[..] == packet[..28 + |payload|];
    return packet[..];
  }

  /** The part of buildIPv4UDP that writes the IPv4 header into a zeroed packet. */
  method FillHeader(packet: array<Byte>, source: Addr, destination: Addr)
    requires source.V4? && destination.V4? && packet.Length >= 28 && packet[..12] == seq(12, _ => 0)
    modifies packet
    ensures packet[..20] == IpHeader(packet.Length, source, destination)
  {
    FillStart(packet);
    CopyInto(packet, 12, As4(source));
    CopyInto(packet, 16, As4(destination));
    ghost var start, ends := IpStart(packet.Length), As4(source) + As4(destination);
    assert packet[..20] == start + Put16(0) + ends;
    var checksum := IPv4Checksum(packet[..20]);
    ghost var before := packet[..20];
    ghost var front, back := packet[..10], packet[12..];
    CopyInto(packet, 10, Put16(checksum));
    assert packet[..12] == front + Put16(checksum) && packet[12..] == back;
    assert front == before[..10] && back[..8] == before[12..];
    assert packet[..20] == packet[..12] + packet[12..][..8];
    TwoBytesReplaced(before, packet[..20], start, ends, Put16(checksum));
  }

  lemma TwoBytesReplaced(before: seq<Byte>, after: seq<Byte>, start: seq<Byte>, ends: seq<Byte>, two: seq<Byte>)
    requires |start| == 10 && |ends| == 8 && |two| == 2 && |after| == 20 && before == start + Put16(0) + ends
    requires after[..12] == before[..10] + two && after[12..] == before[12..]
    ensures after == start + two + ends
  {
    assert before[..10] == start && before[12..] == ends;
    assert after == after[..12] + after[12..];
  }

  /** The fixed fields and the length. */
  method FillStart(packet: array<Byte>)
    requires packet.Length >= 28 && packet[..12] == seq(12, _ => 0)
    modifies packet
    ensures packet[..12] == IpStart(packet.Length) + Put16(0)
  {
    assert forall i :: 0 <= i < 12 ==> packet[i] == packet[..12][i];
    packet[0], packet[8], packet[9] := 0x45, 64, 17;
    packet[2], packet[3] := packet.Length / 256 % 256, packet.Length % 256;
  }

  /** The UDP payload of a packet from `source` to `destination` at `port`. */
  function RelayPayload(packet: seq<Byte>, source: Addr, destination: Addr, port: nat): Option<seq<Byte>> {
    if || |packet| < 28 || packet[0] / 16 != 4 || packet[9] != 17 || U16(packet, 6) % 0x4000 != 0 then None
    else
      var headerLength := HeaderLength(packet);
      if headerLength < 20 || headerLength + 8 > |packet| || U16(packet, 2) != |packet| then None
      else
        var udp := packet[headerLength..];
        if AddrAt(packet, 12) != source || AddrAt(packet, 16) != destination || U16(udp, 2) != port
          || U16(udp, 4) != |udp| then None
        else Some(udp[8..])
  }
}
