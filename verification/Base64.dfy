/** URL-safe base64 without padding (section 5 of RFC 4648), read as Go reads it, and hexadecimal. */
module Base64 {
  import opened Bytes

  function Symbol(d: bv8): char
    requires d < 64
  {
    var n := d as int;
    if n < 26 then ('A' as int + n) as char
    else if n < 52 then ('a' as int + (n - 26)) as char
    else if n < 62 then ('0' as int + (n - 52)) as char
    else if n == 62 then '-' else '_'
  }

  function Digit(c: char): (r: Option<bv8>)
    ensures r.Some? ==> r.value < 64
  {
    if 'A' <= c <= 'Z' then Some((c as int - 'A' as int) as bv8)
    else if 'a' <= c <= 'z' then Some((c as int - 'a' as int + 26) as bv8)
    else if '0' <= c <= '9' then Some((c as int - '0' as int + 52) as bv8)
    else if c == '-' then Some(62)
    else if c == '_' then Some(63)
    else None
  }

  lemma SmallNumber(n: int)
    requires 0 <= n < 64
    ensures (n as bv8) as int == n
  {
  }

  lemma DigitOfSymbol(d: bv8)
    requires d < 64
    ensures Digit(Symbol(d)) == Some(d)
  {
  }

  lemma SymbolOfDigit(c: char)
    requires Digit(c).Some?
    ensures Symbol(Digit(c).value) == c
  {
    if 'A' <= c <= 'Z' {
      SmallNumber(c as int - 'A' as int);
    } else if 'a' <= c <= 'z' {
      SmallNumber(c as int - 'a' as int + 26);
    } else if '0' <= c <= '9' {
      SmallNumber(c as int - '0' as int + 52);
    }
  }

  lemma DigitInjective(c: char, d: char)
    requires Digit(c).Some? && Digit(c) == Digit(d)
    ensures c == d
  {
    SymbolOfDigit(c);
    SymbolOfDigit(d);
  }

  // ----- three bytes to four digits and back -----

  function First(d0: bv8, d1: bv8): bv8 {
    (d0 << 2) | (d1 >> 4)
  }

  function Second(d1: bv8, d2: bv8): bv8 {
    (d1 << 4) | (d2 >> 2)
  }

  function Third(d2: bv8, d3: bv8): bv8 {
    (d2 << 6) | d3
  }

  function Digit0(b0: bv8): bv8 {
    b0 >> 2
  }

  function Digit1(b0: bv8, b1: bv8): bv8 {
    ((b0 << 4) | (b1 >> 4)) & 63
  }

  function Digit2(b1: bv8, b2: bv8): bv8 {
    ((b1 << 2) | (b2 >> 6)) & 63
  }

  function Digit3(b2: bv8): bv8 {
    b2 & 63
  }

  predicate SixBits(ds: seq<bv8>) {
    forall k :: 0 <= k < |ds| ==> ds[k] < 64
  }

  /** Digit k of the bytes. */
  function DigitAt(p: seq<bv8>, k: nat): (d: bv8)
    requires |p| % 3 == 0 && k < |p| / 3 * 4
    ensures d < 64
  {
    var i := k / 4 * 3;
    if k % 4 == 0 then Digit0(p[i])
    else if k % 4 == 1 then Digit1(p[i], p[i + 1])
    else if k % 4 == 2 then Digit2(p[i + 1], p[i + 2])
    else Digit3(p[i + 2])
  }

  function ToDigits(p: seq<bv8>): (ds: seq<bv8>)
    requires |p| % 3 == 0
    ensures |ds| == |p| / 3 * 4 && SixBits(ds)
  {
    seq(|p| / 3 * 4, k requires 0 <= k < |p| / 3 * 4 => DigitAt(p, k))
  }

  /** Two digits left over make one byte and three make two. */
  function ByteCount(n: nat): nat {
    n / 4 * 3 + (if n % 4 == 0 then 0 else n % 4 - 1)
  }

  function ByteAt(ds: seq<bv8>, i: nat): bv8
    requires i < ByteCount(|ds|)
  {
    var k := i / 3 * 4;
    if i % 3 == 0 then First(ds[k], ds[k + 1])
    else if i % 3 == 1 then Second(ds[k + 1], ds[k + 2])
    else Third(ds[k + 2], ds[k + 3])
  }

  /** The bytes of the digits; leftover bits are not looked at. */
  function FromDigits(ds: seq<bv8>): (p: seq<bv8>)
    ensures |p| == ByteCount(|ds|)
  {
    seq(ByteCount(|ds|), i requires 0 <= i < ByteCount(|ds|) => ByteAt(ds, i))
  }

  lemma FirstOfDigits(b0: bv8, b1: bv8)
    ensures First(Digit0(b0), Digit1(b0, b1)) == b0
  {
  }

  lemma SecondOfDigits(b0: bv8, b1: bv8, b2: bv8)
    ensures Second(Digit1(b0, b1), Digit2(b1, b2)) == b1
  {
  }

  lemma ThirdOfDigits(b1: bv8, b2: bv8)
    ensures Third(Digit2(b1, b2), Digit3(b2)) == b2
  {
  }

  lemma BytesOfDigits(p: seq<bv8>)
    requires |p| % 3 == 0
    ensures FromDigits(ToDigits(p)) == p
  {
    forall i | 0 <= i < |p|
      ensures ByteAt(ToDigits(p), i) == p[i]
    {
      ByteOfDigits(p, i);
    }
  }

  lemma ByteOfDigits(p: seq<bv8>, i: nat)
    requires |p| % 3 == 0 && i < |p|
    ensures ByteAt(ToDigits(p), i) == p[i]
  {
    var j, k := i / 3 * 3, i / 3 * 4;
    assert k / 4 * 3 == j;
    if i % 3 == 0 {
      FirstOfDigits(p[j], p[j + 1]);
    } else if i % 3 == 1 {
      SecondOfDigits(p[j], p[j + 1], p[j + 2]);
    } else {
      ThirdOfDigits(p[j + 1], p[j + 2]);
    }
  }

  lemma DigitsOfBytes(ds: seq<bv8>)
    requires |ds| % 4 == 0 && SixBits(ds)
    ensures |FromDigits(ds)| % 3 == 0 && ToDigits(FromDigits(ds)) == ds
  {
    forall k | 0 <= k < |ds|
      ensures DigitAt(FromDigits(ds), k) == ds[k]
    {
      DigitOfBytes(ds, k);
    }
  }

  lemma DigitOfBytes(ds: seq<bv8>, k: nat)
    requires |ds| % 4 == 0 && SixBits(ds) && k < |ds|
    ensures |FromDigits(ds)| % 3 == 0 && DigitAt(FromDigits(ds), k) == ds[k]
  {
    var i, j := k / 4 * 3, k / 4 * 4;
    assert i / 3 * 4 == j;
    if k % 4 == 0 {
      Digit0OfBytes(ds[j], ds[j + 1]);
    } else if k % 4 == 1 {
      Digit1OfBytes(ds[j], ds[j + 1], ds[j + 2]);
    } else if k % 4 == 2 {
      Digit2OfBytes(ds[j + 1], ds[j + 2], ds[j + 3]);
    } else {
      Digit3OfBytes(ds[j + 2], ds[j + 3]);
    }
  }

  lemma Digit0OfBytes(d0: bv8, d1: bv8)
    requires d0 < 64 && d1 < 64
    ensures Digit0(First(d0, d1)) == d0
  {
  }

  lemma Digit1OfBytes(d0: bv8, d1: bv8, d2: bv8)
    requires d1 < 64 && d2 < 64
    ensures Digit1(First(d0, d1), Second(d1, d2)) == d1
  {
  }

  lemma Digit2OfBytes(d1: bv8, d2: bv8, d3: bv8)
    requires d2 < 64 && d3 < 64
    ensures Digit2(Second(d1, d2), Third(d2, d3)) == d2
  {
  }

  lemma Digit3OfBytes(d2: bv8, d3: bv8)
    requires d3 < 64
    ensures Digit3(Third(d2, d3)) == d3
  {
  }

  // ----- text -----

  function Print(p: seq<bv8>): (s: string)
    requires |p| % 3 == 0
    ensures |s| == |p| / 3 * 4
  {
    var ds := ToDigits(p);
    seq(|ds|, k requires 0 <= k < |ds| => Symbol(ds[k]))
  }

  predicate LineBreak(c: char) {
    c == '\n' || c == '\r'
  }

  /** The decoder skips line breaks wherever they are. */
  function Strip(s: string): string {
    if |s| == 0 then ""
    else if LineBreak(s[|s| - 1]) then Strip(s[..|s| - 1])
    else Strip(s[..|s| - 1]) + [s[|s| - 1]]
  }

  predicate AllSymbols(s: string) {
    forall k :: 0 <= k < |s| ==> Digit(s[k]).Some?
  }

  function Values(s: string): (ds: seq<bv8>)
    requires AllSymbols(s)
    ensures |ds| == |s| && SixBits(ds)
  {
    seq(|s|, k requires 0 <= k < |s| => Digit(s[k]).value)
  }

  /** base64.RawURLEncoding.DecodeString. */
  function Parse(s: string): Option<seq<bv8>> {
    var t := Strip(s);
    if !AllSymbols(t) || |t| % 4 == 1 then None else Some(FromDigits(Values(t)))
  }

  lemma {:induction false} StripKeeps(s: string)
    requires forall i :: 0 <= i < |s| ==> !LineBreak(s[i])
    ensures Strip(s) == s
  {
    if |s| > 0 {
      StripKeeps(s[..|s| - 1]);
    }
  }

  lemma {:induction false} StripConcat(s: string, t: string)
    ensures Strip(s + t) == Strip(s) + Strip(t)
    decreases |t|
  {
    if |t| == 0 {
      assert s + t == s;
    } else {
      assert (s + t)[..|s + t| - 1] == s + t[..|t| - 1];
      StripConcat(s, t[..|t| - 1]);
    }
  }

  lemma PrintedValues(p: seq<bv8>)
    requires |p| % 3 == 0
    ensures AllSymbols(Print(p)) && Values(Print(p)) == ToDigits(p)
  {
    var ds := ToDigits(p);
    forall k | 0 <= k < |ds|
      ensures Digit(Print(p)[k]) == Some(ds[k])
    {
      DigitOfSymbol(ds[k]);
    }
  }

  lemma SymbolsAreNotBreaks(s: string)
    requires AllSymbols(s)
    ensures Strip(s) == s
  {
    assert forall i :: 0 <= i < |s| ==> Digit(s[i]).Some? ==> !LineBreak(s[i]);
    StripKeeps(s);
  }

  /** What is printed parses back. */
  lemma ParsePrinted(p: seq<bv8>)
    requires |p| % 3 == 0
    ensures Parse(Print(p)) == Some(p)
  {
    PrintedValues(p);
    SymbolsAreNotBreaks(Print(p));
    BytesOfDigits(p);
  }

  /** Whole groups of symbols print back as the same symbols. */
  lemma PrintParsed(s: string)
    requires AllSymbols(s) && |s| % 4 == 0
    ensures |FromDigits(Values(s))| % 3 == 0 && Print(FromDigits(Values(s))) == s
  {
    DigitsOfBytes(Values(s));
    forall k | 0 <= k < |s|
      ensures Symbol(Values(s)[k]) == s[k]
    {
      SymbolOfDigit(s[k]);
    }
  }

  // ----- hexadecimal -----

  predicate LowerHex(c: char) {
    '0' <= c <= '9' || 'a' <= c <= 'f'
  }

  function HexDigit(n: bv8): char
    requires n < 16
  {
    if n < 10 then ('0' as int + n as int) as char else ('a' as int + (n as int - 10)) as char
  }

  function Nibble(c: char): (r: Option<bv8>)
    ensures r.Some? ==> r.value < 16
  {
    if '0' <= c <= '9' then Some((c as int - '0' as int) as bv8)
    else if 'a' <= c <= 'f' then Some((c as int - 'a' as int + 10) as bv8)
    else if 'A' <= c <= 'F' then Some((c as int - 'A' as int + 10) as bv8)
    else None
  }

  lemma NibbleOfHex(n: bv8)
    requires n < 16
    ensures Nibble(HexDigit(n)) == Some(n) && LowerHex(HexDigit(n))
  {
  }

  lemma HexOfNibble(c: char)
    requires LowerHex(c)
    ensures Nibble(c).Some? && HexDigit(Nibble(c).value) == c
  {
    if '0' <= c <= '9' {
      SmallNumber(c as int - '0' as int);
    } else {
      SmallNumber(c as int - 'a' as int + 10);
    }
  }

  function Pair(high: bv8, low: bv8): bv8 {
    (high << 4) | low
  }

  lemma PairParts(b: bv8)
    ensures Pair(b >> 4, b & 15) == b && b >> 4 < 16 && b & 15 < 16
  {
  }

  lemma PartsOfPair(high: bv8, low: bv8)
    requires high < 16 && low < 16
    ensures Pair(high, low) >> 4 == high && Pair(high, low) & 15 == low
  {
  }

  /** hex.EncodeToString. */
  function HexPrint(p: seq<bv8>): (s: string)
    ensures |s| == 2 * |p|
  {
    if |p| == 0 then "" else
      PairParts(p[0]);
      [HexDigit(p[0] >> 4), HexDigit(p[0] & 15)] + HexPrint(p[1..])
  }

  /** hex.DecodeString, which takes digits of either case. */
  function HexParse(s: string): (r: Option<seq<bv8>>)
    ensures r.Some? ==> |s| == 2 * |r.value|
  {
    if |s| == 0 then Some([])
    else if |s| == 1 then None
    else
      var high, low, rest := Nibble(s[0]), Nibble(s[1]), HexParse(s[2..]);
      if high.None? || low.None? || rest.None? then None else Some([Pair(high.value, low.value)] + rest.value)
  }

  lemma {:induction false} HexParsePrinted(p: seq<bv8>)
    ensures HexParse(HexPrint(p)) == Some(p) && forall i :: 0 <= i < 2 * |p| ==> LowerHex(HexPrint(p)[i])
  {
    if |p| > 0 {
      var s := HexPrint(p);
      HexParsePrinted(p[1..]);
      PairParts(p[0]);
      NibbleOfHex(p[0] >> 4);
      NibbleOfHex(p[0] & 15);
      assert s[2..] == HexPrint(p[1..]);
      assert p == [p[0]] + p[1..];
      assert forall i :: 2 <= i < |s| ==> s[i] == s[2..][i - 2];
    }
  }

  lemma {:induction false} HexPrintParsed(s: string)
    requires |s| % 2 == 0 && forall i :: 0 <= i < |s| ==> LowerHex(s[i])
    ensures HexParse(s).Some? && HexPrint(HexParse(s).value) == s
  {
    if |s| > 0 {
      HexPrintParsed(s[2..]);
      HexOfNibble(s[0]);
      HexOfNibble(s[1]);
      PartsOfPair(Nibble(s[0]).value, Nibble(s[1]).value);
      assert HexParse(s).value[1..] == HexParse(s[2..]).value;
      assert s == [s[0], s[1]] + s[2..];
    }
  }
}
