/**
  * The bytes other programs see: orders, alphabets, check values and the place of every field, told without the
  * functions that lay them out.
  */
module Wire {
  import opened Bytes
  import Base64
  import Cbc
  import Crc
  import Discovery
  import Invite
  import Overlay
  import Pairing
  import Devices

  // ----- numbers -----

  /** Main result. Big-endian: the first octet counts most. */
  lemma {:induction false} FirstCountsMost(b: seq<Byte>)
    requires |b| > 0
    ensures FromBE(b) == b[0] * Pow256(|b| - 1) + FromBE(b[1..])
  {
    if |b| > 1 {
      var front, last := b[..|b| - 1], b[|b| - 1];
      FirstCountsMost(front);
      assert front[1..] == b[1..][..|b| - 2] && b[1..][|b| - 2] == last;
    }
  }

  /** Main result. Little-endian: the last octet counts most. */
  lemma {:induction false} LastCountsMost(b: seq<Byte>)
    requires |b| > 0
    ensures FromLE(b) == b[|b| - 1] * Pow256(|b| - 1) + FromLE(b[..|b| - 1])
  {
    if |b| > 1 {
      var rest := b[1..];
      LastCountsMost(rest);
      assert rest[..|rest| - 1] == b[..|b| - 1][1..];
    }
  }

  /** The two orders mirror each other. */
  lemma {:induction false} OrdersMirror(n: nat, len: nat)
    ensures forall i :: 0 <= i < len ==> ToBE(n, len)[i] == ToLE(n, len)[len - 1 - i]
  {
    if len > 0 {
      OrdersMirror(n / 256, len - 1);
    }
  }

  // ----- text -----

  /** The digit after d has the symbol after d's. */
  predicate InOrder(d: bv8)
    requires d < 63
  {
    Base64.Symbol(d + 1) as int == Base64.Symbol(d) as int + 1
  }

  /** Main result. The alphabet is the URL-safe one of table 2 of RFC 4648. */
  lemma AlphabetIs(d: bv8)
    ensures Base64.Symbol(0) == 'A' && Base64.Symbol(26) == 'a' && Base64.Symbol(52) == '0'
    ensures Base64.Symbol(62) == '-' && Base64.Symbol(63) == '_'
    ensures d < 61 && d != 25 && d != 51 ==> InOrder(d)
  {
  }

  /** Three bytes are four digits of six bits, the first byte first. */
  lemma DigitsInOrder(p: seq<bv8>)
    requires |p| == 3
    ensures var ds := Base64.ToDigits(p);
            && |ds| == 4
            && ((ds[0] as bv32 << 18) | (ds[1] as bv32 << 12) | (ds[2] as bv32 << 6) | ds[3] as bv32)
               == ((p[0] as bv32 << 16) | (p[1] as bv32 << 8) | p[2] as bv32)
  {
  }

  // ----- check values -----

  /** The registers after each of the digits 1 to 9. */
  const REGISTERS: seq<bv32> := [0xFFFFFFFF, 0x7C231048, 0xB0ACBB32, 0x77B79C2D, 0x641C1F5C, 0x340AC5E3, 0xF68D2C9E,
                                 0xAFFC9660, 0x651F2550, 0x340BC6D9]

  const DIGITS: seq<bv8> := [0x31, 0x32, 0x33, 0x34, 0x35, 0x36, 0x37, 0x38, 0x39]

  /** Eight steps, one after the other. */
  lemma EightSteps(c: bv32)
    ensures Crc.Steps(c, 4) == Crc.Step(Crc.Step(Crc.Step(Crc.Step(c))))
    ensures Crc.Steps(c, 8) == Crc.Step(Crc.Step(Crc.Step(Crc.Step(Crc.Steps(c, 4)))))
  {
    assert Crc.Steps(c, 0) == c && Crc.Steps(c, 1) == Crc.Step(c);
    assert Crc.Steps(c, 2) == Crc.Step(Crc.Step(c));
    assert Crc.Steps(c, 4) == Crc.Step(Crc.Step(Crc.Steps(c, 2)));
    assert Crc.Steps(c, 6) == Crc.Step(Crc.Step(Crc.Steps(c, 4)));
    assert Crc.Steps(c, 8) == Crc.Step(Crc.Step(Crc.Steps(c, 6)));
  }

  lemma DigitTaken(i: nat)
    requires i < 9
    ensures Crc.Update(REGISTERS[i], DIGITS[i]) == REGISTERS[i + 1]
  {
    EightSteps(Crc.Xor(REGISTERS[i], DIGITS[i] as bv32));
  }

  lemma {:induction false} DigitsTaken(i: nat)
    requires i <= 9
    ensures Crc.State(DIGITS[..i]) == REGISTERS[i]
  {
    if i > 0 {
      DigitsTaken(i - 1);
      DigitTaken(i - 1);
      assert DIGITS[..i][..i - 1] == DIGITS[..i - 1];
    }
  }

  /** Main result. The checksum has the check value of CRC-32, that of the digits 1 to 9. */
  lemma CheckValue()
    ensures Crc.Checksum(DIGITS) == 0xCBF43926
  {
    DigitsTaken(9);
    assert DIGITS[..9] == DIGITS;
  }

  // ----- padding -----

  /** Main result. As section 6.3 of RFC 5652 says, one to sixteen octets are added, and each holds their number. */
  lemma PaddedAsInRfc(p: seq<Byte>)
    ensures var q := Cbc.Padded(p);
            && p <= q && |q| % 16 == 0 && 1 <= |q| - |p| <= 16
            && forall i :: |p| <= i < |q| ==> q[i] == |q| - |p|
  {
  }

  // ----- frames -----

  function Low(b: seq<Byte>): int
    requires |b| == 2 || |b| == 4
  {
    b[0] as int + 0x100 * b[1] as int + if |b| == 2 then 0 else 0x1_0000 * b[2] as int + 0x100_0000 * b[3] as int
  }

  lemma Lowest(n: nat, len: nat)
    requires (len == 2 || len == 4) && n < Pow256(len)
    ensures Low(ToLE(n, len)) == n
  {
    Widths();
    var b := ToLE(n, len);
    LEOfInt(n, len);
    assert FromLE(b[1..]) == b[1] as int + 256 * FromLE(b[2..]) && FromLE(b[len..]) == 0;
    if len == 4 {
      assert FromLE(b[2..]) == b[2] as int + 256 * FromLE(b[3..]);
      assert FromLE(b[3..]) == b[3] as int + 256 * FromLE(b[4..]);
    }
  }

  /** Main result. A header is the length, the main type and the subtype, each with its lowest octet first. */
  lemma OverlayHeaderIs(mainType: nat, subType: nat, len: nat)
    requires mainType < 0x1_0000 && subType < 0x1_0000 && len < 0x1_0000_0000
    ensures var b := Overlay.EncodeHeader(mainType, subType, len);
            Low(b[..4]) == len && Low(b[4..6]) == mainType && Low(b[6..8]) == subType
  {
    Widths();
    Lowest(len, 4);
    Lowest(mainType, 2);
    Lowest(subType, 2);
    var b := Overlay.EncodeHeader(mainType, subType, len);
    assert b[..4] == ToLE(len, 4) && b[4..6] == ToLE(mainType, 2) && b[6..8] == ToLE(subType, 2);
  }

  /** Main result. A frame begins with "ODR2" and the version; its fields and its packet follow in this order. */
  lemma DiscoveryFrameIs(v: Discovery.Frame)
    requires Discovery.Encoded(v).Some? && v.sequence < Discovery.SEQUENCES
    ensures var b := Discovery.Encoded(v).value;
            && |b| == 20 + |v.packet| && b[..4] == [79, 68, 82, 50] && b[4] == 1 && b[5] == v.flags
            && V4(b[6], b[7], b[8], b[9]) == v.senderIP && FromBE(b[10..18]) == v.sequence
            && b[18] as int * 256 + b[19] as int == |v.packet| && b[20..] == v.packet
  {
    Discovery.HeaderParts(v, Discovery.Encoded(v).value);
    Widths();
    BEOfInt(v.sequence, 8);
  }

  /** A signed 64-bit number in two's complement. */
  predicate TwosComplement(b: seq<Byte>, n: int) {
    FromBE(b) == if n < 0 then n + 0x1_0000_0000_0000_0000 else n
  }

  /** Main result. A report is the UID behind its length, the bytes received, the bytes sent and the time. */
  lemma ReportIs(v: Pairing.StatsReport)
    requires Pairing.MarshalStats(v).Some?
    ensures var b, u := Pairing.MarshalStats(v).value, |v.uid|;
            && |b| == 25 + u && b[0] as int == u && b[1..1 + u] == v.uid
            && FromBE(b[1 + u..9 + u]) == v.rxBytes && FromBE(b[9 + u..17 + u]) == v.txBytes
            && TwosComplement(b[17 + u..], v.timestampMS)
  {
    var b, u := Pairing.MarshalStats(v).value, |v.uid|;
    Widths();
    BEOfInt(v.rxBytes, 8);
    BEOfInt(v.txBytes, 8);
    BEOfInt(Pairing.Unsigned(v.timestampMS), 8);
    assert b[1..1 + u] == v.uid && b[1 + u..9 + u] == ToBE(v.rxBytes, 8) && b[9 + u..17 + u] == ToBE(v.txBytes, 8);
    assert b[17 + u..] == ToBE(Pairing.Unsigned(v.timestampMS), 8);
  }

  /** Main result. A listed device is the UID behind its length, the address, the two figures and the latency. */
  lemma DeviceIs(d: Devices.Device)
    requires Devices.ValidDevice(d)
    ensures var b, u := Devices.Entry(d), |d.uid|;
            && |b| == 29 + u && b[0] as int == u && b[1..1 + u] == d.uid
            && V4(b[1 + u], b[2 + u], b[3 + u], b[4 + u]) == d.virtualIP
            && FromBE(b[5 + u..13 + u]) == d.rxBytes && FromBE(b[13 + u..21 + u]) == d.txBytes
            && TwosComplement(b[21 + u..], d.latencyMS)
  {
    var b, u := Devices.Entry(d), |d.uid|;
    Widths();
    BEOfInt(d.rxBytes, 8);
    BEOfInt(d.txBytes, 8);
    BEOfInt(Pairing.Unsigned(d.latencyMS), 8);
    assert b[1..1 + u] == d.uid && b[5 + u..13 + u] == ToBE(d.rxBytes, 8) && b[13 + u..21 + u] == ToBE(d.txBytes, 8);
    assert b[21 + u..] == ToBE(Pairing.Unsigned(d.latencyMS), 8);
  }

  /** Main result. A result is the status, the address, the prefix, the two ports, the host's key and the revision. */
  lemma ResultIs(v: Pairing.PairResult<Pairing.Bytes32>)
    requires Pairing.MarshalResult(v).Some?
    ensures var b := Pairing.MarshalResult(v).value;
            && |b| == 82 && b[0] == v.status && V4(b[1], b[2], b[3], b[4]) == v.assignedIP && b[5] == v.prefix
            && FromBE(b[6..8]) == v.wireGuardPort && FromBE(b[8..10]) == v.relayPort
            && b[10..42] == v.hostPublicKey && FromBE(b[42..50]) == v.revision && b[50..] == v.mac
  {
    var b, f := Pairing.MarshalResult(v).value, Pairing.ResultFields(v);
    Pairing.ResultParts(v);
    assert b[..50] == f && b[50..] == v.mac;
    assert b[6..8] == f[6..8] && b[8..10] == f[8..10] && b[10..42] == f[10..42] && b[42..50] == f[42..50];
  }

  /** Main result. An invite is the flag, the host's UID, the port and the room key, and their checksum behind them. */
  lemma InviteIs(v: Invite.Invite)
    requires Invite.Acceptable(v)
    ensures var p := Invite.Payload(v);
            && |p| == 27 && p[0] == (if v.fixedRoomKey then 1 else 0) && Base64.HexParse(v.hostUID) == Some(p[1..9])
            && ((p[9] as bv16 << 8) | p[10] as bv16) == v.pairPort && p[11..23] == v.roomKey
            && ((p[23] as bv32 << 24) | (p[24] as bv32 << 16) | (p[25] as bv32 << 8) | p[26] as bv32)
               == Crc.Checksum(p[..23])
  {
    var p := Invite.Payload(v);
    Invite.PayloadParts(v);
    Invite.Numbers16(v.pairPort, p[9], p[10]);
    Invite.GetPut32(Crc.Checksum(p[..23]));
  }
}
