/** Octets, addresses and fixed-width integers shared by every component. */
module Bytes {
  type Byte = i: int | 0 <= i < 256

  datatype Option<+T> = None | Some(value: T)

  datatype Result<+T, +E> = Ok(value: T) | Err(error: E)

  /** An IP address: the zero value, an IPv4 address, or an IPv6 address read as a number. */
  datatype Addr = NoAddr | V4(b0: Byte, b1: Byte, b2: Byte, b3: Byte) | V6(number: nat)

  const HOST_IP: Addr := V4(10, 0, 23, 1)

  /** What the OR-accumulating loop over a byte slice decides. */
  predicate IsZero(value: seq<Byte>) {
    forall i :: 0 <= i < |value| ==> value[i] == 0
  }

  /** The number of values `len` octets can hold. */
  function Pow256(len: nat): (p: nat)
    ensures p > 0
  {
    if len == 0 then 1 else 256 * Pow256(len - 1)
  }

  /** Big-endian encoding in exactly `len` octets; higher octets of `n` are dropped, as a Go conversion would. */
  function ToBE(n: nat, len: nat): (b: seq<Byte>)
    ensures |b| == len
  {
    if len == 0 then [] else ToBE(n / 256, len - 1) + [n % 256]
  }

  function FromBE(b: seq<Byte>): nat {
    if |b| == 0 then 0 else 256 * FromBE(b[..|b| - 1]) + b[|b| - 1]
  }

  /** Little-endian encoding in exactly `len` octets. */
  function ToLE(n: nat, len: nat): (b: seq<Byte>)
    ensures |b| == len
  {
    if len == 0 then [] else [n % 256] + ToLE(n / 256, len - 1)
  }

  function FromLE(b: seq<Byte>): nat {
    if |b| == 0 then 0 else b[0] + 256 * FromLE(b[1..])
  }

  lemma {:induction false} BEOfInt(n: nat, len: nat)
    requires n < Pow256(len)
    ensures FromBE(ToBE(n, len)) == n
  {
    if len > 0 {
      BEOfInt(n / 256, len - 1);
      assert ToBE(n, len)[..len - 1] == ToBE(n / 256, len - 1);
    }
  }

  lemma {:induction false} BEOfBytes(b: seq<Byte>)
    ensures FromBE(b) < Pow256(|b|)
    ensures ToBE(FromBE(b), |b|) == b
  {
    if |b| > 0 {
      BEOfBytes(b[..|b| - 1]);
    }
  }

  lemma {:induction false} LEOfInt(n: nat, len: nat)
    requires n < Pow256(len)
    ensures FromLE(ToLE(n, len)) == n
  {
    if len > 0 {
      LEOfInt(n / 256, len - 1);
      assert ToLE(n, len)[1..] == ToLE(n / 256, len - 1);
    }
  }

  lemma {:induction false} LEOfBytes(b: seq<Byte>)
    ensures FromLE(b) < Pow256(|b|)
    ensures ToLE(FromLE(b), |b|) == b
  {
    if |b| > 0 {
      LEOfBytes(b[1..]);
      var rest := FromLE(b[1..]);
      assert FromLE(b) % 256 == b[0] && FromLE(b) / 256 == rest;
      assert b == [b[0]] + b[1..];
    }
  }

  /** The widths the protocols use. */
  lemma Widths()
    ensures Pow256(2) == 0x1_0000
    ensures Pow256(4) == 0x1_0000_0000
    ensures Pow256(8) == 0x1_0000_0000_0000_0000
  {
    assert Pow256(1) == 256;
    assert Pow256(3) == 256 * Pow256(2);
    assert Pow256(5) == 256 * Pow256(4);
    assert Pow256(6) == 256 * Pow256(5);
    assert Pow256(7) == 256 * Pow256(6);
  }
}
