/** The messages of the pairing protocol: internal/pairing/pairing.go and the codecs of network.go. */
module Pairing {
  import opened Buffers
  import opened Bytes
  import opened Text

  const PROTOCOL_VERSION: Byte := 2
  const MAX_FRAME_BYTES: nat := 16384
  const MAX_DEVICES: nat := 253
  const STATUS_OK: Byte := 0

  type Bytes32 = b: seq<Byte> | |b| == 32 witness seq(32, _ => 0)

  function U16(b: seq<Byte>): (n: nat)
    requires |b| == 2
    ensures n < 0x1_0000
  {
    BEOfBytes(b);
    Widths();
    FromBE(b)
  }

  function U64(b: seq<Byte>): (n: nat)
    requires |b| == 8
    ensures n < 0x1_0000_0000_0000_0000
  {
    BEOfBytes(b);
    Widths();
    FromBE(b)
  }

  lemma Numbers(n: nat)
    ensures n < 0x1_0000 ==> U16(ToBE(n, 2)) == n
    ensures n < 0x1_0000_0000_0000_0000 ==> U64(ToBE(n, 8)) == n
  {
    Widths();
    if n < 0x1_0000 {
      BEOfInt(n, 2);
    }
    if n < 0x1_0000_0000_0000_0000 {
      BEOfInt(n, 8);
    }
  }

  lemma NumberBytes(b: seq<Byte>)
    ensures |b| == 2 ==> ToBE(U16(b), 2) == b
    ensures |b| == 8 ==> ToBE(U64(b), 8) == b
  {
    BEOfBytes(b);
  }

  // ----- the server's challenge -----

  datatype Challenge = Challenge(version: Byte, serverNonce: Bytes32, hostPublicKey: Bytes32)

  function MarshalChallenge(v: Challenge): seq<Byte> {
    [v.version] + v.serverNonce + v.hostPublicKey
  }

  function ParseChallenge(b: seq<Byte>): Option<Challenge> {
    if |b| != 65 || b[0] != PROTOCOL_VERSION || IsZero(b[33..]) then None
    else Some(Challenge(b[0], b[1..33], b[33..]))
  }

  lemma ChallengeRoundTrip(v: Challenge, b: seq<Byte>)
    ensures v.version == PROTOCOL_VERSION && !IsZero(v.hostPublicKey)
            <==> ParseChallenge(MarshalChallenge(v)) == Some(v)
    ensures ParseChallenge(b).Some? ==> MarshalChallenge(ParseChallenge(b).value) == b
  {
    var m := MarshalChallenge(v);
    assert m[1..33] == v.serverNonce && m[33..] == v.hostPublicKey;
    if |b| == 65 {
      assert b == [b[0]] + b[1..33] + b[33..];
    }
  }

  // ----- the client's request -----

  /** M is what stands for the 32-byte MAC. */
  datatype Request<M> = Request(clientNonce: Bytes32, clientPublicKey: Bytes32, uid: seq<Byte>, name: seq<Byte>, mac: M)

  predicate ValidRequest<M>(v: Request<M>) {
    (v.uid != [] ==> ValidUid(v.uid)) && ValidName(v.name) && !IsZero(v.clientPublicKey)
  }

  /** Everything before the MAC. */
  function RequestFields<M>(v: Request<M>): (b: seq<Byte>)
    requires ValidRequest(v)
    ensures |b| == 66 + |v.uid| + |v.name|
  {
    v.clientNonce + v.clientPublicKey + [|v.uid|] + v.uid + [|v.name|] + v.name
  }

  function MarshalledRequest(v: Request<Bytes32>): Option<seq<Byte>> {
    if ValidRequest(v) then Some(RequestFields(v) + v.mac) else None
  }

  function ParseRequest(b: seq<Byte>): Option<Request<Bytes32>> {
    if |b| < 98 then None
    else
      var uidLength: nat := b[64];
      if uidLength > 31 || |b| < 98 + uidLength then None
      else
        var nameLength: nat := b[65 + uidLength];
        if nameLength > 64 || |b| != 98 + uidLength + nameLength then None
        else
          var name := 66 + uidLength;
          var mac: Bytes32 := b[name + nameLength..];
          var v := Request(b[..32], b[32..64], b[65..65 + uidLength], b[name..name + nameLength], mac);
          if ValidRequest(v) then Some(v) else None
  }

  /** MarshalBinary of a request fills one buffer. */
  method MarshalRequest(v: Request<Bytes32>) returns (r: Option<seq<Byte>>)
    ensures r == MarshalledRequest(v)
  {
    if !ValidRequest(v) {
      return None;
    }
    var b := Filled(v.clientNonce, v.clientPublicKey, v.uid, v.name, v.mac);
    return Some(b);
  }

  method Filled(clientNonce: Bytes32, clientPublicKey: Bytes32, uid: seq<Byte>, name: seq<Byte>, mac: Bytes32)
    returns (r: seq<Byte>)
    requires |uid| < 256 && |name| < 256
    ensures r == clientNonce + clientPublicKey + [|uid|] + uid + [|name|] + name + mac
  {
    var b := new Byte[98 + |uid| + |name|];
    CopyInto(b, 0, clientNonce);
    assert b[..32] == clientNonce;
    CopyInto(b, 32, clientPublicKey);
    CopyInto(b, 64, [|uid|]);
    CopyInto(b, 65, uid);
    CopyInto(b, 65 + |uid|, [|name|]);
    CopyInto(b, 66 + |uid|, name);
    CopyInto(b, 66 + |uid| + |name|, mac);
    assert b[..] == b[..b.Length];
    return b[..];
  }

  /** Where the fields of a request lie. */
  lemma RequestParts<M>(v: Request<M>, tail: seq<Byte>)
    requires ValidRequest(v)
    ensures var b, u := RequestFields(v) + tail, |v.uid|;
            && b[..32] == v.clientNonce && b[32..64] == v.clientPublicKey
            && b[64] == u && b[65..65 + u] == v.uid
            && b[65 + u] == |v.name| && b[66 + u..66 + u + |v.name|] == v.name
            && b[66 + u + |v.name|..] == tail
  {
    var f, u := RequestFields(v), |v.uid|;
    var b := f + tail;
    assert f[..32] == v.clientNonce && f[32..64] == v.clientPublicKey && f[65..65 + u] == v.uid
           && f[66 + u..] == v.name;
    assert b[..32] == f[..32] && b[32..64] == f[32..64] && b[65..65 + u] == f[65..65 + u];
    assert b[66 + u..66 + u + |v.name|] == f[66 + u..] && b[|f|..] == tail;
  }

  /** Main result: a request that marshals parses back to itself. */
  lemma RequestRoundTrip(v: Request<Bytes32>)
    requires MarshalledRequest(v).Some?
    ensures ParseRequest(MarshalledRequest(v).value) == Some(v)
  {
    RequestParts(v, v.mac);
  }

  /** Main result: bytes that parse are what the request marshals to. */
  lemma RequestReprint(b: seq<Byte>)
    requires ParseRequest(b).Some?
    ensures MarshalledRequest(ParseRequest(b).value) == Some(b)
  {
    RequestSlices(b, b[64] as int, b[65 + b[64] as int] as int);
  }

  lemma RequestSlices(b: seq<Byte>, u: nat, n: nat)
    requires |b| == 98 + u + n && b[64] as int == u && b[65 + u] as int == n && u < 256 && n < 256
    ensures b == b[..32] + b[32..64] + [u] + b[65..65 + u] + [n] + b[66 + u..66 + u + n] + b[66 + u + n..]
  {
  }

  // ----- the result -----

  datatype PairResult<M> = PairResult(
    status: Byte, assignedIP: Addr, prefix: Byte, wireGuardPort: nat, relayPort: nat, hostPublicKey: Bytes32,
      revision: nat, mac: M)

  predicate ValidResult<M>(v: PairResult<M>) {
    && v.assignedIP.V4? && v.prefix <= 32 && 0 < v.wireGuardPort < 0x1_0000 && 0 < v.relayPort < 0x1_0000
    && v.revision < 0x1_0000_0000_0000_0000
  }

  /** resultWithoutMAC. */
  function ResultFields<M>(v: PairResult<M>): (b: seq<Byte>)
    requires ValidResult(v)
    ensures |b| == 50
  {
    var ip := v.assignedIP;
    [v.status, ip.b0, ip.b1, ip.b2, ip.b3, v.prefix] + ToBE(v.wireGuardPort, 2) + ToBE(v.relayPort, 2)
      + v.hostPublicKey + ToBE(v.revision, 8)
  }

  function MarshalResult(v: PairResult<Bytes32>): Option<seq<Byte>> {
    if ValidResult(v) then Some(ResultFields(v) + v.mac) else None
  }

  function ParseResult(b: seq<Byte>): Option<PairResult<Bytes32>> {
    if |b| != 82 || b[0] != STATUS_OK || b[5] > 32 then None
    else
      var mac: Bytes32 := b[50..];
      var v := PairResult(b[0], V4(b[1], b[2], b[3], b[4]), b[5], U16(b[6..8]), U16(b[8..10]), b[10..42],
        U64(b[42..50]), mac);
      if v.wireGuardPort == 0 || v.relayPort == 0 then None else Some(v)
  }

  lemma ResultParts<M>(v: PairResult<M>)
    requires ValidResult(v)
    ensures var b := ResultFields(v);
            && b[0] == v.status && V4(b[1], b[2], b[3], b[4]) == v.assignedIP && b[5] == v.prefix
            && U16(b[6..8]) == v.wireGuardPort && U16(b[8..10]) == v.relayPort && b[10..42] == v.hostPublicKey
               && U64(b[42..50]) == v.revision
  {
    var b := ResultFields(v);
    assert b[6..8] == ToBE(v.wireGuardPort, 2) && b[8..10] == ToBE(v.relayPort, 2) && b[10..42] == v.hostPublicKey
           && b[42..50] == ToBE(v.revision, 8);
    Numbers(v.wireGuardPort);
    Numbers(v.relayPort);
    Numbers(v.revision);
  }

  /** Main result: a result that marshals parses back to itself exactly when it reports success. */
  lemma ResultRoundTrip(v: PairResult<Bytes32>)
    requires MarshalResult(v).Some?
    ensures ParseResult(MarshalResult(v).value) == Some(v) <==> v.status == STATUS_OK
  {
    var f := ResultFields(v);
    var b := f + v.mac;
    ResultParts(v);
    assert b[..50] == f && b[50..] == v.mac;
    assert b[6..8] == f[6..8] && b[8..10] == f[8..10] && b[10..42] == f[10..42] && b[42..50] == f[42..50];
  }

  lemma ResultReprint(b: seq<Byte>)
    requires ParseResult(b).Some?
    ensures MarshalResult(ParseResult(b).value) == Some(b)
  {
    NumberBytes(b[6..8]);
    NumberBytes(b[8..10]);
    NumberBytes(b[42..50]);
    assert b[..6] == [b[0], b[1], b[2], b[3], b[4], b[5]];
    assert b == b[..6] + b[6..8] + b[8..10] + b[10..42] + b[42..50] + b[50..];
  }

  // ----- traffic reports -----

  /** A signed 64-bit number and the unsigned one with the same bits. */
  type Int64 = i: int | -0x8000_0000_0000_0000 <= i < 0x8000_0000_0000_0000

  type Uint64 = i: int | 0 <= i < 0x1_0000_0000_0000_0000

  function Unsigned(i: Int64): Uint64 {
    if i < 0 then i + 0x1_0000_0000_0000_0000 else i
  }

  function Signed(n: Uint64): Int64 {
    if n < 0x8000_0000_0000_0000 then n else n - 0x1_0000_0000_0000_0000
  }

  datatype StatsReport = StatsReport(timestampMS: Int64, uid: seq<Byte>, rxBytes: Uint64, txBytes: Uint64)

  function MarshalStats(v: StatsReport): Option<seq<Byte>> {
    if !ValidUid(v.uid) then None
    else Some([|v.uid|] + v.uid + ToBE(v.rxBytes, 8) + ToBE(v.txBytes, 8) + ToBE(Unsigned(v.timestampMS), 8))
  }

  function ParseStats(b: seq<Byte>): Option<StatsReport> {
    if |b| < 26 || |b| != 25 + b[0] as int then None
    else
      var u: nat := b[0];
      var v := StatsReport(Signed(U64(b[17 + u..])), b[1..1 + u], U64(b[1 + u..9 + u]), U64(b[9 + u..17 + u]));
      if ValidUid(v.uid) then Some(v) else None
  }

  /** Main result: reports round-trip, negative timestamps included. */
  lemma StatsRoundTrip(v: StatsReport)
    requires MarshalStats(v).Some?
    ensures ParseStats(MarshalStats(v).value) == Some(v)
  {
    var b, u := MarshalStats(v).value, |v.uid|;
    assert b[1..1 + u] == v.uid && b[1 + u..9 + u] == ToBE(v.rxBytes, 8);
    assert b[9 + u..17 + u] == ToBE(v.txBytes, 8) && b[17 + u..] == ToBE(Unsigned(v.timestampMS), 8);
    Numbers(v.rxBytes);
    Numbers(v.txBytes);
    Numbers(Unsigned(v.timestampMS));
  }

  lemma StatsReprint(b: seq<Byte>)
    requires ParseStats(b).Some?
    ensures MarshalStats(ParseStats(b).value) == Some(b)
  {
    var u: nat := b[0];
    NumberBytes(b[1 + u..9 + u]);
    NumberBytes(b[9 + u..17 + u]);
    NumberBytes(b[17 + u..]);
    assert b == [b[0]] + b[1..1 + u] + b[1 + u..9 + u] + b[9 + u..17 + u] + b[17 + u..];
  }
}
