/**
  * The text rules of the pairing protocol: validName and validUID in internal/pairing. Go strings are byte
  * sequences.
  */
module Text {
  import opened Bytes

  predicate Continuation(b: Byte) {
    0x80 <= b <= 0xBF
  }

  /** The number of bytes of the UTF-8 character at the front, section 4 of RFC 3629; 0 if there is none. */
  function RuneSize(b: seq<Byte>): (n: nat)
    ensures n <= 4 && n <= |b|
  {
    if |b| == 0 then 0
    else if b[0] < 0x80 then 1
    else if 0xC2 <= b[0] <= 0xDF then (if |b| >= 2 && Continuation(b[1]) then 2 else 0)
    else if 0xE0 <= b[0] <= 0xEF then
      if && |b| >= 3 && Continuation(b[1]) && Continuation(b[2])
         && (b[0] == 0xE0 ==> b[1] >= 0xA0) && (b[0] == 0xED ==> b[1] <= 0x9F)
      then 3 else 0
    else if 0xF0 <= b[0] <= 0xF4 then
      if && |b| >= 4 && Continuation(b[1]) && Continuation(b[2]) && Continuation(b[3])
         && (b[0] == 0xF0 ==> b[1] >= 0x90) && (b[0] == 0xF4 ==> b[1] <= 0x8F)
      then 4 else 0
    else 0
  }

  function Rune(b: seq<Byte>): nat
    requires RuneSize(b) > 0
  {
    match RuneSize(b)
    case 1 => b[0]
    case 2 => b[0] as int % 0x20 * 0x40 + Low6(b[1])
    case 3 => b[0] as int % 0x10 * 0x1000 + Low6(b[1]) * 0x40 + Low6(b[2])
    case _ => b[0] as int % 0x08 * 0x40000 + Low6(b[1]) * 0x1000 + Low6(b[2]) * 0x40 + Low6(b[3])
  }

  function Low6(b: Byte): nat {
    b % 0x40
  }

  /** The characters of valid UTF-8. */
  function Runes(b: seq<Byte>): Option<seq<nat>> {
    if |b| == 0 then Some([])
    else
      var n := RuneSize(b);
      if n == 0 then None
      else
        var rest := Runes(b[n..]);
        if rest.None? then None else Some([Rune(b)] + rest.value)
  }

  /** unicode.IsSpace. */
  predicate IsSpace(r: nat) {
    || 0x09 <= r <= 0x0D || r == 0x20 || r == 0x85 || r == 0xA0 || r == 0x1680 || 0x2000 <= r <= 0x200A
    || r == 0x2028 || r == 0x2029 || r == 0x202F || r == 0x205F || r == 0x3000
  }

  predicate NoControls(runes: seq<nat>) {
    forall i :: 0 <= i < |runes| ==> runes[i] >= 0x20 && runes[i] != 0x7F
  }

  predicate Trimmed(runes: seq<nat>) {
    |runes| > 0 ==> !IsSpace(runes[0]) && !IsSpace(runes[|runes| - 1])
  }

  predicate ValidName(name: seq<Byte>) {
    var runes := Runes(name);
    runes.Some? && |name| <= 64 && NoControls(runes.value)
  }

  predicate ValidUid(uid: seq<Byte>) {
    var runes := Runes(uid);
    runes.Some? && Trimmed(runes.value) && 8 <= |uid| <= 31 && NoControls(runes.value)
  }
}
