/**
  * Overlay encryption: pkcs7Padding, pkcs7UnPadding, encryptBytes and decryptBytes of
  * internal/openp2pengine/common.go. AES stands as any pair of block functions, the second undoing the first.
  */
module Cbc {
  import opened Buffers
  import opened Bytes

  const BLOCK: nat := 16
  const READ_BUFFER: nat := 4096
  const PADDING_SPACE: nat := 16

  type Block = b: seq<Byte> | |b| == 16 witness seq(16, _ => 0)

  datatype Cipher = Cipher(enc: Block -> Block, dec: Block -> Block)

  ghost predicate Inverse(c: Cipher) {
    forall b: Block :: c.dec(c.enc(b)) == b
  }

  /** cbcIVBlock, "UHNJUSBACIJFYSQN". */
  const IV: Block := [85, 72, 78, 74, 85, 83, 66, 65, 67, 73, 74, 70, 89, 83, 81, 78]

  function Pow2(n: nat): (p: nat)
    ensures p > 0
  {
    if n == 0 then 1 else 2 * Pow2(n - 1)
  }

  /** The exclusive or of the low n bits. */
  function XorBits(a: nat, b: nat, n: nat): (r: nat)
    ensures r < Pow2(n)
  {
    if n == 0 then 0 else (a + b) % 2 + 2 * XorBits(a / 2, b / 2, n - 1)
  }

  lemma {:induction false} XorBitsTwice(a: nat, b: nat, n: nat)
    requires a < Pow2(n)
    ensures XorBits(XorBits(a, b, n), b, n) == a
  {
    if n > 0 {
      XorBitsTwice(a / 2, b / 2, n - 1);
      LowBit(a, b, XorBits(a / 2, b / 2, n - 1));
    }
  }

  lemma LowBit(a: nat, b: nat, high: nat)
    ensures ((a + b) % 2 + 2 * high) / 2 == high
    ensures ((a + b) % 2 + 2 * high + b) % 2 == a % 2
    ensures a == a % 2 + 2 * (a / 2)
  {
  }

  lemma ByteWidth()
    ensures Pow2(8) == 256
  {
  }

  function Xor(a: Byte, b: Byte): Byte {
    ByteWidth();
    XorBits(a, b, 8)
  }

  lemma XorTwice(a: Byte, b: Byte)
    ensures Xor(Xor(a, b), b) == a
  {
    ByteWidth();
    XorBitsTwice(a, b, 8);
  }

  function XorBlock(a: Block, b: Block): Block {
    seq(16, i requires 0 <= i < 16 => Xor(a[i], b[i]))
  }

  lemma XorBlockTwice(a: Block, b: Block)
    ensures XorBlock(XorBlock(a, b), b) == a
  {
    forall i | 0 <= i < 16
      ensures XorBlock(XorBlock(a, b), b)[i] == a[i]
    {
      XorTwice(a[i], b[i]);
    }
  }

  // ----- cipher block chaining, section 6.2 of NIST SP 800-38A -----

  function Encrypted(c: Cipher, iv: Block, p: seq<Byte>): (x: seq<Byte>)
    requires |p| % BLOCK == 0
    ensures |x| == |p|
    decreases |p|
  {
    if |p| == 0 then []
    else
      var x: Block := c.enc(XorBlock(p[..16], iv));
      x + Encrypted(c, x, p[16..])
  }

  function Decrypted(c: Cipher, iv: Block, x: seq<Byte>): (p: seq<Byte>)
    requires |x| % BLOCK == 0
    ensures |p| == |x|
    decreases |x|
  {
    if |x| == 0 then [] else XorBlock(c.dec(x[..16]), iv) + Decrypted(c, x[..16], x[16..])
  }

  lemma {:induction false} DecryptEncrypted(c: Cipher, iv: Block, p: seq<Byte>)
    requires Inverse(c) && |p| % BLOCK == 0
    ensures Decrypted(c, iv, Encrypted(c, iv, p)) == p
    decreases |p|
  {
    if |p| > 0 {
      var x: Block := c.enc(XorBlock(p[..16], iv));
      var rest := Encrypted(c, x, p[16..]);
      assert (x + rest)[..16] == x && (x + rest)[16..] == rest;
      assert c.dec(x) == XorBlock(p[..16], iv);
      XorBlockTwice(p[..16], iv);
      DecryptEncrypted(c, x, p[16..]);
    }
  }

  /** Block i of a sequence of blocks. */
  function BlockAt(p: seq<Byte>, i: nat): Block
    requires 16 * i + 16 <= |p|
  {
    p[16 * i..16 * i + 16]
  }

  /**
    * Main result. The equations of CBC encryption: each block is combined with the ciphertext before it, the first
    * with the initial vector, and then encrypted.
    */
  lemma {:induction false} EachBlockChained(c: Cipher, iv: Block, p: seq<Byte>, i: nat)
    requires |p| % BLOCK == 0 && 16 * i + 16 <= |p|
    ensures var x := Encrypted(c, iv, p);
            BlockAt(x, i) == c.enc(XorBlock(BlockAt(p, i), if i == 0 then iv else BlockAt(x, i - 1)))
    decreases |p|
  {
    var x := Encrypted(c, iv, p);
    var first: Block := c.enc(XorBlock(p[..16], iv));
    var rest := Encrypted(c, first, p[16..]);
    assert x == first + rest && BlockAt(x, 0) == first && p[..16] == BlockAt(p, 0);
    if i > 0 {
      EachBlockChained(c, first, p[16..], i - 1);
      assert BlockAt(x, i) == BlockAt(rest, i - 1) && BlockAt(p, i) == BlockAt(p[16..], i - 1);
      if i > 1 {
        assert BlockAt(x, i - 1) == BlockAt(rest, i - 2);
      }
    }
  }

  // ----- padding, section 6.3 of RFC 5652 -----

  function PadLength(n: nat): (k: nat)
    ensures 1 <= k <= BLOCK && (n + k) % BLOCK == 0
  {
    BLOCK - n % BLOCK
  }

  function Padded(p: seq<Byte>): (q: seq<Byte>)
    ensures |q| % BLOCK == 0 && |q| > 0
  {
    p + seq(PadLength(|p|), _ => PadLength(|p|))
  }

  /** None is the error, on which the program goes on with an empty payload. */
  function Unpadded(q: seq<Byte>): Option<seq<Byte>>
    requires |q| > 0
  {
    var last := q[|q| - 1];
    if 1 <= last <= 16 && last <= |q| then Some(q[..|q| - last]) else None
  }

  lemma UnpadPadded(p: seq<Byte>)
    ensures Unpadded(Padded(p)) == Some(p)
  {
    var q := Padded(p);
    assert q[|q| - 1] == PadLength(|p|);
    assert q[..|p|] == p;
  }

  function Sealed(c: Cipher, p: seq<Byte>): (x: seq<Byte>)
    ensures |x| % BLOCK == 0 && |x| == |p| + PadLength(|p|)
  {
    Encrypted(c, IV, Padded(p))
  }

  function Opened(c: Cipher, x: seq<Byte>): Option<seq<Byte>>
    requires |x| % BLOCK == 0 && |x| > 0
  {
    Unpadded(Decrypted(c, IV, x))
  }

  /** Main result: opening a sealed plaintext gives it back, whatever permutation stands for AES. */
  lemma OpenSealed(c: Cipher, p: seq<Byte>)
    requires Inverse(c)
    ensures Opened(c, Sealed(c, p)) == Some(p)
  {
    DecryptEncrypted(c, IV, Padded(p));
    UnpadPadded(p);
  }

  /** A padded plaintext fits the buffers exactly up to 4111 bytes; a read never brings more than 4096. */
  lemma FitsBuffer(n: nat)
    ensures n + PadLength(n) <= READ_BUFFER + PADDING_SPACE <==> n <= 4111
  {
  }

  // ----- the buffers -----

  /** pkcs7Padding writes behind the data, into the buffer's spare space. */
  method Pad(plain: array<Byte>, dataLen: nat) returns (padLen: nat)
    requires dataLen + PadLength(dataLen) <= plain.Length
    modifies plain
    ensures padLen == PadLength(dataLen)
    ensures plain[..dataLen + padLen] == Padded(old(plain[..dataLen]))
  {
    padLen := BLOCK - dataLen % BLOCK;
    for i := 0 to padLen
      invariant plain[..dataLen + i] == old(plain[..dataLen]) + seq(i, _ => padLen)
    {
      plain[dataLen + i] := padLen;
    }
  }

  lemma EncryptedStep(c: Cipher, iv: Block, p: seq<Byte>, before: seq<Byte>)
    requires |p| % BLOCK == 0 && |p| > 0
    ensures var x: Block := c.enc(XorBlock(p[..16], iv));
            before + Encrypted(c, iv, p) == before + x + Encrypted(c, x, p[16..])
  {
  }

  lemma DecryptedStep(c: Cipher, iv: Block, x: seq<Byte>, before: seq<Byte>)
    requires |x| % BLOCK == 0 && |x| > 0
    ensures before + Decrypted(c, iv, x) == before + XorBlock(c.dec(x[..16]), iv) + Decrypted(c, x[..16], x[16..])
  {
  }

  /** CryptBlocks of a CBC encrypter over the first `total` bytes. */
  method CryptBlocks(c: Cipher, out: array<Byte>, inp: array<Byte>, total: nat)
    requires total % BLOCK == 0 && total <= inp.Length && total <= out.Length && out != inp
    modifies out
    ensures out[..total] == Encrypted(c, IV, inp[..total])
  {
    var done, chain: Block := 0, IV;
    assert inp[..total][0..] == inp[..total];
    while done < total
      invariant done % BLOCK == 0 && done <= total
      invariant out[..done] + Encrypted(c, chain, inp[..total][done..]) == Encrypted(c, IV, inp[..total])
    {
      ghost var left := inp[..total][done..];
      var x: Block := c.enc(XorBlock(inp[done..done + 16], chain));
      assert left[..16] == inp[done..done + 16] && left[16..] == inp[..total][done + 16..];
      EncryptedStep(c, chain, left, out[..done]);
      CopyInto(out, done, x);
      done, chain := done + 16, x;
    }
    assert inp[..total][total..] == [];
  }

  /** CryptBlocks of a CBC decrypter. */
  method UncryptBlocks(c: Cipher, out: array<Byte>, inp: seq<Byte>)
    requires |inp| % BLOCK == 0 && |inp| <= out.Length
    modifies out
    ensures out[..|inp|] == Decrypted(c, IV, inp)
  {
    var done, chain: Block := 0, IV;
    while done < |inp|
      invariant done % BLOCK == 0 && done <= |inp|
      invariant out[..done] + Decrypted(c, chain, inp[done..]) == Decrypted(c, IV, inp)
    {
      ghost var left := inp[done..];
      var x: Block := inp[done..done + 16];
      var p := XorBlock(c.dec(x), chain);
      assert left[..16] == x && left[16..] == inp[done + 16..];
      DecryptedStep(c, chain, left, out[..done]);
      CopyInto(out, done, p);
      done, chain := done + 16, x;
    }
  }

  /** encryptBytes; without a key the plaintext goes out as it is. The result is the slice it returns. */
  method EncryptBytes(key: Option<Cipher>, out: array<Byte>, inp: array<Byte>, plainLen: nat) returns (r: seq<Byte>)
    requires out != inp && plainLen <= inp.Length
    requires key.Some? ==> plainLen + PadLength(plainLen) <= inp.Length && plainLen + PadLength(plainLen) <= out.Length
    modifies out, inp
    ensures r == if key.Some? then Sealed(key.value, old(inp[..plainLen])) else old(inp[..plainLen])
  {
    if key.None? {
      return inp[..plainLen];
    }
    var padLen := Pad(inp, plainLen);
    CryptBlocks(key.value, out, inp, plainLen + padLen);
    return out[..plainLen + padLen];
  }

  /** Where decryptBytes is defined: on whole blocks that fit the buffer. */
  predicate Openable(n: nat) {
    0 < n <= READ_BUFFER + PADDING_SPACE && n % BLOCK == 0
  }

  /** decryptBytes. */
  method DecryptBytes(key: Option<Cipher>, out: array<Byte>, inp: seq<Byte>) returns (r: Option<seq<Byte>>)
    requires key.Some? ==> Openable(|inp|) && |inp| <= out.Length
    modifies out
    ensures r == if key.Some? then Opened(key.value, inp) else Some(inp)
  {
    if key.None? {
      return Some(inp);
    }
    UncryptBlocks(key.value, out, inp);
    var unPadLen := out[|inp| - 1];
    if unPadLen <= 0 || unPadLen > 16 {
      return None;
    }
    assert out[..|inp|][..|inp| - unPadLen] == out[..|inp| - unPadLen];
    return Some(out[..|inp| - unPadLen]);
  }
}
