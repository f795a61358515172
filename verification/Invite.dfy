/** Room invites: internal/invite/invite.go. Text is a sequence of characters; a byte is a bv8. */
module Invite {
  import opened Buffers
  import opened Bytes
  import opened Base64
  import opened Crc

  const PREFIX := "OPL2."
  const PAYLOAD_SIZE: nat := 27
  const BODY_SIZE: nat := 23

  datatype Invite = Invite(fixedRoomKey: bool, hostUID: string, pairPort: bv16, roomKey: seq<bv8>)

  datatype Error = ErrFormat | ErrVersion

  predicate AllZero(value: seq<bv8>) {
    forall i :: 0 <= i < |value| ==> value[i] == 0
  }

  predicate ValidInvite(v: Invite) {
    && |v.hostUID| == 16 && (forall i :: 0 <= i < 16 ==> LowerHex(v.hostUID[i]))
    && v.pairPort != 0
    && |v.roomKey| == 12 && !AllZero(v.roomKey)
  }

  // ----- big-endian numbers -----

  function Put16(n: bv16): (p: seq<bv8>)
    ensures |p| == 2
  {
    [(n >> 8) as bv8, (n & 0xFF) as bv8]
  }

  function Get16(b0: bv8, b1: bv8): bv16 {
    ((b0 as bv16) << 8) | (b1 as bv16)
  }

  function Put32(n: bv32): (p: seq<bv8>)
    ensures |p| == 4
  {
    [(n >> 24) as bv8, ((n >> 16) & 0xFF) as bv8, ((n >> 8) & 0xFF) as bv8, (n & 0xFF) as bv8]
  }

  function Get32(b0: bv8, b1: bv8, b2: bv8, b3: bv8): bv32 {
    ((b0 as bv32) << 24) | ((b1 as bv32) << 16) | ((b2 as bv32) << 8) | (b3 as bv32)
  }

  lemma Numbers16(n: bv16, b0: bv8, b1: bv8)
    ensures Get16(Put16(n)[0], Put16(n)[1]) == n
    ensures Put16(Get16(b0, b1)) == [b0, b1]
  {
  }

  lemma GetPut32(n: bv32)
    ensures Get32(Put32(n)[0], Put32(n)[1], Put32(n)[2], Put32(n)[3]) == n
  {
  }

  lemma PutGet32(b0: bv8, b1: bv8, b2: bv8, b3: bv8)
    ensures Put32(Get32(b0, b1, b2, b3)) == [b0, b1, b2, b3]
  {
  }

  // ----- the program -----

  /** isZero: every byte is looked at. */
  method IsZero(value: seq<bv8>) returns (zero: bool)
    ensures zero == AllZero(value)
  {
    var combined: bv8 := 0;
    for i := 0 to |value|
      invariant combined == 0 <==> AllZero(value[..i])
    {
      OrZero(combined, value[i]);
      combined := combined | value[i];
      assert value[..i + 1] == value[..i] + [value[i]];
    }
    assert value[..|value|] == value;
    return combined == 0;
  }

  lemma OrZero(a: bv8, b: bv8)
    ensures a | b == 0 <==> a == 0 && b == 0
  {
  }

  predicate NoUpper(s: string) {
    forall i :: 0 <= i < |s| ==> !('A' <= s[i] <= 'Z')
  }

  /** Whether Encode accepts the value: the host UID decodes to eight bytes and has no upper-case letter. */
  predicate Acceptable(v: Invite) {
    && HexParse(v.hostUID).Some? && |HexParse(v.hostUID).value| == 8 && NoUpper(v.hostUID)
    && v.pairPort != 0 && |v.roomKey| == 12 && !AllZero(v.roomKey)
  }

  function FlagByte(fixedRoomKey: bool): bv8 {
    if fixedRoomKey then 1 else 0
  }

  predicate KnownFlags(b: bv8) {
    b & 0xFE == 0
  }

  predicate FixedFlag(b: bv8) {
    b & 1 != 0
  }

  lemma Flags(b: bv8)
    ensures KnownFlags(b) ==> b == FlagByte(FixedFlag(b))
    ensures KnownFlags(FlagByte(true)) && KnownFlags(FlagByte(false)) && FixedFlag(FlagByte(true))
            && !FixedFlag(FlagByte(false))
  {
  }

  /** Everything the checksum covers. */
  function Body(v: Invite): (p: seq<bv8>)
    requires Acceptable(v)
    ensures |p| == BODY_SIZE
  {
    [FlagByte(v.fixedRoomKey)] + HexParse(v.hostUID).value + Put16(v.pairPort) + v.roomKey
  }

  function Payload(v: Invite): (p: seq<bv8>)
    requires Acceptable(v)
    ensures |p| == PAYLOAD_SIZE
  {
    Body(v) + Put32(Checksum(Body(v)))
  }

  function Encoded(v: Invite): Result<string, Error> {
    if Acceptable(v) then Ok(PREFIX + Print(Payload(v))) else Err(ErrFormat)
  }

  method Encode(v: Invite) returns (r: Result<string, Error>)
    requires |v.roomKey| == 12
    ensures r == Encoded(v)
  {
    var uid := HexParse(v.hostUID);
    var zero := IsZero(v.roomKey);
    if uid.None? || |uid.value| != 8 || !NoUpper(v.hostUID) || v.pairPort == 0 || zero {
      return Err(ErrFormat);
    }
    var payload := new bv8[PAYLOAD_SIZE](_ => 0);
    if v.fixedRoomKey {
      payload[0] := 1;
    }
    CopyInto(payload, 1, uid.value);
    CopyInto(payload, 9, Put16(v.pairPort));
    CopyInto(payload, 11, v.roomKey);
    assert payload[..BODY_SIZE] == Body(v);
    CopyInto(payload, BODY_SIZE, Put32(Checksum(payload[..BODY_SIZE])));
    assert payload[..] == payload[..PAYLOAD_SIZE];
    return Ok(PREFIX + Print(payload[..]));
  }

  /** The stored checksum is that of the bytes before it. */
  predicate Checks(p: seq<bv8>)
    requires |p| == PAYLOAD_SIZE
  {
    Checksum(p[..BODY_SIZE]) == Get32(p[23], p[24], p[25], p[26])
  }

  function Decode(code: string): Result<Invite, Error> {
    if !(PREFIX <= code) then Err(ErrVersion)
    else
      var p := Parse(code[|PREFIX|..]);
      if p.None? || |p.value| != PAYLOAD_SIZE then Err(ErrFormat) else Read(p.value)
  }

  /** The part of Decode that looks at the bytes. */
  function Read(p: seq<bv8>): Result<Invite, Error>
    requires |p| == PAYLOAD_SIZE
  {
    if !KnownFlags(p[0]) || !Checks(p) then Err(ErrFormat)
    else
      var port := Get16(p[9], p[10]);
      if port == 0 || AllZero(p[11..23]) then Err(ErrFormat)
      else Ok(Invite(FixedFlag(p[0]), HexPrint(p[1..9]), port, p[11..23]))
  }

  // ----- encoding and decoding are inverse -----

  /** Encode accepts exactly the valid invites: the host UID is sixteen lower-case hexadecimal digits. */
  lemma AcceptableIffValid(v: Invite)
    ensures Acceptable(v) <==> ValidInvite(v)
  {
    if ValidInvite(v) {
      HexPrintParsed(v.hostUID);
    } else if Acceptable(v) {
      HexDigitsOnly(v.hostUID);
    }
  }

  lemma {:induction false} HexDigitsOnly(s: string)
    requires HexParse(s).Some?
    ensures forall i :: 0 <= i < |s| ==> Nibble(s[i]).Some?
  {
    if |s| > 1 {
      HexDigitsOnly(s[2..]);
      assert forall i :: 2 <= i < |s| ==> s[i] == s[2..][i - 2];
    }
  }

  lemma PayloadParts(v: Invite)
    requires Acceptable(v)
    ensures var p := Payload(v);
            && p[0] == FlagByte(v.fixedRoomKey) && p[1..9] == HexParse(v.hostUID).value
            && [p[9], p[10]] == Put16(v.pairPort) && p[11..23] == v.roomKey && p[..23] == Body(v)
            && [p[23], p[24], p[25], p[26]] == Put32(Checksum(Body(v)))
  {
    var p := Payload(v);
    assert p[..23] == Body(v) && p[23..] == Put32(Checksum(Body(v)));
    assert Body(v)[1..9] == HexParse(v.hostUID).value && Body(v)[9..11] == Put16(v.pairPort)
           && Body(v)[11..23] == v.roomKey;
    assert p[..23][1..9] == p[1..9] && p[..23][9..11] == p[9..11] && p[..23][11..23] == p[11..23];
  }

  lemma PayloadChecks(v: Invite)
    requires Acceptable(v)
    ensures Checks(Payload(v))
  {
    PayloadParts(v);
    GetPut32(Checksum(Body(v)));
  }

  lemma ReadPayload(v: Invite)
    requires ValidInvite(v) && Acceptable(v)
    ensures Read(Payload(v)) == Ok(v)
  {
    PayloadParts(v);
    PayloadChecks(v);
    Flags(0);
    Numbers16(v.pairPort, 0, 0);
    HexPrintParsed(v.hostUID);
  }

  /** Main result: a valid invite encodes, to 41 characters, and decodes to itself. */
  lemma RoundTrip(v: Invite)
    requires ValidInvite(v)
    ensures Encoded(v).Ok? && |Encoded(v).value| == 41
    ensures Decode(Encoded(v).value) == Ok(v)
  {
    AcceptableIffValid(v);
    DecodePrinted(Payload(v));
    ReadPayload(v);
  }

  lemma DecodePrinted(p: seq<bv8>)
    requires |p| == PAYLOAD_SIZE
    ensures |Print(p)| == 36 && Decode(PREFIX + Print(p)) == Read(p)
  {
    ParsePrinted(p);
    DecodeParsed(Print(p), p);
  }

  lemma DecodeParsed(text: string, p: seq<bv8>)
    requires Parse(text) == Some(p) && |p| == PAYLOAD_SIZE
    ensures Decode(PREFIX + text) == Read(p)
  {
    assert (PREFIX + text)[|PREFIX|..] == text;
  }

  lemma PayloadOfRead(p: seq<bv8>)
    requires |p| == PAYLOAD_SIZE && Read(p).Ok?
    ensures ValidInvite(Read(p).value) && Acceptable(Read(p).value) && Payload(Read(p).value) == p
  {
    var v := Read(p).value;
    BodyOfRead(p);
    PutGet32(p[23], p[24], p[25], p[26]);
    assert p == p[..23] + [p[23], p[24], p[25], p[26]];
  }

  lemma BodyOfRead(p: seq<bv8>)
    requires |p| == PAYLOAD_SIZE && Read(p).Ok?
    ensures ValidInvite(Read(p).value) && Acceptable(Read(p).value) && Body(Read(p).value) == p[..BODY_SIZE]
  {
    HexParsePrinted(p[1..9]);
    AcceptableIffValid(Read(p).value);
    Numbers16(0, p[9], p[10]);
    Flags(p[0]);
    BodySlices(p);
  }

  lemma BodySlices(p: seq<bv8>)
    requires |p| == PAYLOAD_SIZE
    ensures p[..23] == [p[0]] + p[1..9] + [p[9], p[10]] + p[11..23]
  {
  }

  /** Main result: whatever decodes encodes back to the same text, line breaks aside. */
  lemma Reprint(code: string)
    requires Decode(code).Ok?
    ensures ValidInvite(Decode(code).value)
    ensures Encoded(Decode(code).value) == Ok(PREFIX + Strip(code[|PREFIX|..]))
  {
    var s := Strip(code[|PREFIX|..]);
    WholeGroups(|s|);
    PrintParsed(s);
    PayloadOfRead(FromDigits(Values(s)));
  }

  lemma WholeGroups(n: nat)
    requires ByteCount(n) == PAYLOAD_SIZE && n % 4 != 1
    ensures n == 36
  {
  }

  // ----- one damaged symbol -----

  /** The first and last byte a digit reaches into. */
  function FirstByte(j: nat): nat {
    j / 4 * 3 + (if j % 4 <= 1 then 0 else j % 4 - 1)
  }

  function LastByte(j: nat): nat {
    j / 4 * 3 + (if j % 4 <= 2 then j % 4 else 2)
  }

  lemma ChangedBytes(ds: seq<bv8>, j: nat, d: bv8)
    requires |ds| == 36 && SixBits(ds) && j < 36 && d < 64 && d != ds[j]
    ensures var p, q := FromDigits(ds), FromDigits(ds[j := d]);
            && |p| == |q| == PAYLOAD_SIZE && p != q
            && forall i :: 0 <= i < PAYLOAD_SIZE && i != FirstByte(j) && i != LastByte(j) ==> p[i] == q[i]
  {
    DigitsOfBytes(ds);
    DigitsOfBytes(ds[j := d]);
    assert ds[j := d][j] != ds[j];
    forall i | 0 <= i < PAYLOAD_SIZE && i != FirstByte(j) && i != LastByte(j)
      ensures FromDigits(ds)[i] == FromDigits(ds[j := d])[i]
    {
      UntouchedByte(ds, j, d, i);
    }
  }

  lemma UntouchedByte(ds: seq<bv8>, j: nat, d: bv8, i: nat)
    requires |ds| == 36 && j < 36 && i < PAYLOAD_SIZE && i != FirstByte(j) && i != LastByte(j)
    ensures ByteAt(ds, i) == ByteAt(ds[j := d], i)
  {
  }

  lemma MiddleNibble(d1: bv8, d2: bv8, e2: bv8)
    requires d2 < 64 && e2 < 64
    ensures LowNibbleApart(Second(d1, d2), Second(d1, e2))
  {
  }

  lemma StoredApart(b0: bv8, b1: bv8, b2: bv8, b3: bv8, d0: bv8, d1: bv8, d2: bv8, d3: bv8)
    requires Get32(b0, b1, b2, b3) == Get32(d0, d1, d2, d3)
    ensures [b0, b1, b2, b3] == [d0, d1, d2, d3]
  {
    PutGet32(b0, b1, b2, b3);
    PutGet32(d0, d1, d2, d3);
  }

  lemma TopByteOnly(b0: bv8, d0: bv8, b1: bv8, b2: bv8, b3: bv8)
    ensures Low(Xor(Get32(b0, b1, b2, b3), Get32(d0, b1, b2, b3))) == 0
  {
  }

  /** The checksum cannot survive a change of one digit. */
  lemma ChangedDigitFails(ds: seq<bv8>, j: nat, d: bv8)
    requires |ds| == 36 && SixBits(ds) && j < 36 && d < 64 && d != ds[j]
    requires Checks(FromDigits(ds))
    ensures !Checks(FromDigits(ds[j := d]))
  {
    var p, q := FromDigits(ds), FromDigits(ds[j := d]);
    ChangedBytes(ds, j, d);
    if j <= 29 {
      BodyChange(p, q, FirstByte(j));
    } else if j == 30 {
      assert p[22] == ByteAt(ds, 22) && q[22] == ByteAt(ds[j := d], 22);
      MiddleNibble(ds[29], ds[30], d);
      StraddlingChange(p, q);
    } else {
      StoredChange(p, q);
    }
  }

  /** The change lies in the bytes the checksum covers. */
  lemma BodyChange(p: seq<bv8>, q: seq<bv8>, i: nat)
    requires |p| == |q| == PAYLOAD_SIZE && p != q && i + 1 < BODY_SIZE && Checks(p)
    requires forall k :: 0 <= k < PAYLOAD_SIZE && k != i && k != i + 1 ==> p[k] == q[k]
    ensures !Checks(q)
  {
    assert p[..BODY_SIZE] != q[..BODY_SIZE] by {
      assert p == p[..BODY_SIZE] + p[BODY_SIZE..] && q == q[..BODY_SIZE] + q[BODY_SIZE..];
      assert p[BODY_SIZE..] == q[BODY_SIZE..];
    }
    AdjacentBytesDetected(p[..BODY_SIZE], q[..BODY_SIZE], i);
  }

  /** The change lies in the stored checksum. */
  lemma StoredChange(p: seq<bv8>, q: seq<bv8>)
    requires |p| == |q| == PAYLOAD_SIZE && p != q && p[..BODY_SIZE] == q[..BODY_SIZE] && Checks(p)
    ensures !Checks(q)
  {
    assert p == p[..BODY_SIZE] + [p[23], p[24], p[25], p[26]] && q == q[..BODY_SIZE] + [q[23], q[24], q[25], q[26]];
    if Checks(q) {
      StoredApart(p[23], p[24], p[25], p[26], q[23], q[24], q[25], q[26]);
    }
  }

  /** The change reaches from the last covered byte into the first stored one. */
  lemma StraddlingChange(p: seq<bv8>, q: seq<bv8>)
    requires |p| == |q| == PAYLOAD_SIZE && p != q && Checks(p)
    requires forall k :: 0 <= k < PAYLOAD_SIZE && k != 22 && k != 23 ==> p[k] == q[k]
    requires LowNibbleApart(p[22], q[22])
    ensures !Checks(q)
  {
    var b, d := p[..BODY_SIZE], q[..BODY_SIZE];
    assert b[..22] == d[..22];
    if p[22] == q[22] {
      assert b == b[..22] + [b[22]] && d == d[..22] + [d[22]];
      StoredChange(p, q);
    } else if Checks(q) {
      TopByteOnly(p[23], q[23], p[24], p[25], p[26]);
      LastNibbleDifference(b, d);
    }
  }

  /** The text behind the prefix stands for a payload with its own checksum. */
  predicate Whole(body: string) {
    var p := Parse(body);
    p.Some? && |p.value| == PAYLOAD_SIZE && Checks(p.value)
  }

  /**
    * Main result: replacing any one symbol of an invite that decodes by any other character, line
    * breaks included, makes Decode return ErrFormat.
    */
  lemma DamagedSymbolRejected(code: string, k: nat, c: char)
    requires Decode(code).Ok? && |PREFIX| <= k < |code| && !LineBreak(code[k]) && c != code[k]
    ensures Decode(code[k := c]) == Err(ErrFormat)
  {
    DecodeOk(code);
    DamagedCode(code, k, c);
    DecodeFails(code[k := c]);
  }

  lemma DamagedCode(code: string, k: nat, c: char)
    requires PREFIX <= code && Whole(code[|PREFIX|..]) && |PREFIX| <= k < |code| && !LineBreak(code[k]) && c != code[k]
    ensures PREFIX <= code[k := c] && !Whole(code[k := c][|PREFIX|..])
  {
    var body, i := code[|PREFIX|..], k - |PREFIX|;
    assert code[k := c][|PREFIX|..] == body[i := c];
    var a, b := StripBoth(body, i, c);
    WholeGroups(|a + [body[i]] + b|);
    DamagedText(a, body[i], c, b);
  }

  /** The text on both sides of a place, without line breaks: it is there whatever the place holds. */
  lemma StripBoth(body: string, i: nat, c: char) returns (a: string, b: string)
    requires i < |body| && !LineBreak(body[i])
    ensures Strip(body) == a + [body[i]] + b
    ensures Strip(body[i := c]) == a + (if LineBreak(c) then "" else [c]) + b
  {
    a, b := Strip(body[..i]), Strip(body[i + 1..]);
    assert body[i := body[i]] == body;
    StripOne(body, i, body[i]);
    StripOne(body, i, c);
  }

  lemma DecodeOk(code: string)
    ensures Decode(code).Ok? ==> PREFIX <= code && Whole(code[|PREFIX|..])
  {
  }

  lemma DecodeFails(code: string)
    requires PREFIX <= code && !Whole(code[|PREFIX|..])
    ensures Decode(code) == Err(ErrFormat)
  {
  }

  /** The damage as seen past the line breaks. */
  lemma DamagedText(a: string, good: char, c: char, b: string)
    requires |a + [good] + b| == 36 && AllSymbols(a + [good] + b) && c != good
    requires Checks(FromDigits(Values(a + [good] + b)))
    ensures var t := a + (if LineBreak(c) then "" else [c]) + b;
            AllSymbols(t) && |t| % 4 != 1 && |FromDigits(Values(t))| == PAYLOAD_SIZE ==> !Checks(FromDigits(Values(t)))
  {
    if !LineBreak(c) {
      UpdateMiddle(a, good, c, b);
      DamagedSymbol(a + [good] + b, |a|, c);
    }
  }

  lemma UpdateMiddle(a: string, good: char, c: char, b: string)
    ensures a + [c] + b == (a + [good] + b)[|a| := c] && (a + [good] + b)[|a|] == good
  {
  }

  lemma DamagedSymbol(s: string, j: nat, c: char)
    requires |s| == 36 && j < 36 && AllSymbols(s) && c != s[j] && Checks(FromDigits(Values(s)))
    ensures AllSymbols(s[j := c]) ==> !Checks(FromDigits(Values(s[j := c])))
  {
    if AllSymbols(s[j := c]) {
      SymbolChange(s, j, c);
    }
  }

  lemma SymbolChange(s: string, j: nat, c: char)
    requires |s| == 36 && j < 36 && AllSymbols(s) && AllSymbols(s[j := c]) && c != s[j]
    requires Checks(FromDigits(Values(s)))
    ensures !Checks(FromDigits(Values(s[j := c])))
  {
    var t := s[j := c];
    assert Digit(t[j]).Some? && t[j] == c;
    if Digit(s[j]) == Digit(c) {
      DigitInjective(s[j], c);
    }
    assert Values(t) == Values(s)[j := Digit(c).value];
    ChangedDigitFails(Values(s), j, Digit(c).value);
  }

  /** Stripping around one character. */
  lemma StripOne(s: string, i: nat, c: char)
    requires i < |s|
    ensures Strip(s[i := c]) == Strip(s[..i]) + (if LineBreak(c) then "" else [c]) + Strip(s[i + 1..])
  {
    assert s[i := c] == s[..i] + [c] + s[i + 1..];
    StripConcat(s[..i] + [c], s[i + 1..]);
    StripConcat(s[..i], [c]);
    assert [c][..0] == "";
  }
}
