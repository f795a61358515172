/** CRC-32 as section 8 of RFC 1952 defines it, bit by bit, and what it detects. */
module Crc {
  function Xor(a: bv32, b: bv32): bv32 {
    a ^ b
  }

  function Shift(c: bv32): bv32 {
    c >> 1
  }

  function Feedback(c: bv32): bv32 {
    if c & 1 == 1 then 0xEDB88320 else 0
  }

  function Step(c: bv32): bv32 {
    Xor(Shift(c), Feedback(c))
  }

  function Steps(c: bv32, n: nat): bv32 {
    if n == 0 then c else Step(Steps(c, n - 1))
  }

  /** All but the highest byte. */
  function Low(c: bv32): bv32 {
    c & 0xFFFFFF
  }

  /** Take in one byte. */
  function Update(c: bv32, b: bv8): bv32 {
    Steps(Xor(c, b as bv32), 8)
  }

  function State(p: seq<bv8>): bv32 {
    if |p| == 0 then 0xFFFFFFFF else Update(State(p[..|p| - 1]), p[|p| - 1])
  }

  /** crc32.ChecksumIEEE. */
  function Checksum(p: seq<bv8>): bv32 {
    Xor(State(p), 0xFFFFFFFF)
  }

  // ----- exclusive or -----

  lemma Comm(a: bv32, b: bv32)
    ensures Xor(a, b) == Xor(b, a)
  {
  }

  lemma AssocBits(a: bv32, b: bv32, c: bv32)
    ensures Xor(a ^ b, c) == Xor(a, b ^ c)
  {
  }

  lemma Assoc(a: bv32, b: bv32, c: bv32)
    ensures Xor(Xor(a, b), c) == Xor(a, Xor(b, c))
  {
    AssocBits(a, b, c);
  }

  lemma Swap(a: bv32, b: bv32, c: bv32, d: bv32)
    ensures Xor(Xor(a, b), Xor(c, d)) == Xor(Xor(a, c), Xor(b, d))
  {
    Assoc(a, b, Xor(c, d));
    Assoc(b, c, d);
    Comm(b, c);
    Assoc(c, b, d);
    Assoc(a, c, Xor(b, d));
  }

  lemma Unit(a: bv32)
    ensures Xor(a, 0) == a && Xor(0, a) == a && Xor(a, a) == 0
  {
  }

  lemma ZeroMeansEqual(a: bv32, b: bv32)
    ensures Xor(a, b) == 0 <==> a == b
  {
    Assoc(a, b, b);
    Unit(a);
    Unit(b);
  }

  /** A common part drops out of a difference. */
  lemma Cancel(s: bv32, a: bv32, b: bv32)
    ensures Xor(Xor(s, a), Xor(s, b)) == Xor(a, b)
  {
    Swap(s, a, s, b);
    Unit(s);
    Unit(Xor(a, b));
  }

  // ----- the register is linear and loses nothing -----

  lemma ShiftXor(a: bv32, b: bv32)
    ensures Shift(Xor(a, b)) == Xor(Shift(a), Shift(b))
  {
  }

  lemma FeedbackXor(a: bv32, b: bv32)
    ensures Feedback(Xor(a, b)) == Xor(Feedback(a), Feedback(b))
  {
  }

  lemma StepXor(a: bv32, b: bv32)
    ensures Step(Xor(a, b)) == Xor(Step(a), Step(b))
  {
    ShiftXor(a, b);
    FeedbackXor(a, b);
    Swap(Shift(a), Shift(b), Feedback(a), Feedback(b));
  }

  lemma {:induction false} StepsXor(a: bv32, b: bv32, n: nat)
    ensures Steps(Xor(a, b), n) == Xor(Steps(a, n), Steps(b, n))
  {
    if n > 0 {
      StepsXor(a, b, n - 1);
      StepXor(Steps(a, n - 1), Steps(b, n - 1));
    }
  }

  lemma StepZero(c: bv32)
    ensures Step(c) == 0 <==> c == 0
  {
  }

  lemma {:induction false} StepsZero(c: bv32, n: nat)
    ensures Steps(c, n) == 0 <==> c == 0
  {
    if n > 0 {
      StepsZero(c, n - 1);
      StepZero(Steps(c, n - 1));
    }
  }

  lemma StepsInjective(a: bv32, b: bv32, n: nat)
    ensures Steps(a, n) == Steps(b, n) <==> a == b
  {
    if a != b {
      StepsXor(a, b, n);
      StepsZero(Xor(a, b), n);
      NonZeroMeansDifferent(a, b, Steps(a, n), Steps(b, n));
    }
  }

  lemma NonZeroMeansDifferent(a: bv32, b: bv32, c: bv32, d: bv32)
    requires a != b && (Xor(c, d) == 0 ==> Xor(a, b) == 0)
    ensures c != d
  {
    ZeroMeansEqual(a, b);
    ZeroMeansEqual(c, d);
  }

  /** Two updates of the same register differ as the bytes do, eight steps on. */
  lemma UpdateDifference(s: bv32, b: bv8, d: bv8)
    ensures Xor(Update(s, b), Update(s, d)) == Steps(Xor(b as bv32, d as bv32), 8)
  {
    StepsXor(Xor(s, b as bv32), Xor(s, d as bv32), 8);
    Cancel(s, b as bv32, d as bv32);
  }

  /**
    * A one-byte difference never turns into one that a single byte, or a change of the last stored byte's
    * peers, could undo.
    */
  lemma EightSteps(c: bv32)
    requires c < 256
    ensures Steps(c, 8) < 256 ==> c == 0
    ensures c < 16 && Low(Steps(c, 8)) == 0 ==> c == 0
  {
    assert Steps(c, 0) == c && Steps(c, 1) == Step(c);
    assert Steps(c, 2) == Step(Step(c));
    assert Steps(c, 4) == Step(Step(Steps(c, 2)));
    assert Steps(c, 6) == Step(Step(Steps(c, 4)));
    assert Steps(c, 8) == Step(Step(Steps(c, 6)));
    EightStepBits(c, Step(c), Steps(c, 2), Step(Steps(c, 2)), Steps(c, 4), Step(Steps(c, 4)), Steps(c, 6),
      Step(Steps(c, 6)), Steps(c, 8));
  }

  lemma EightStepBits(c0: bv32, c1: bv32, c2: bv32, c3: bv32, c4: bv32, c5: bv32, c6: bv32, c7: bv32, c8: bv32)
    requires c0 < 256
    requires c1 == Step(c0) && c2 == Step(c1) && c3 == Step(c2) && c4 == Step(c3)
    requires c5 == Step(c4) && c6 == Step(c5) && c7 == Step(c6) && c8 == Step(c7)
    ensures c8 < 256 ==> c0 == 0
    ensures c0 < 16 && Low(c8) == 0 ==> c0 == 0
  {
  }

  // ----- what a changed byte or two does to the checksum -----

  lemma ByteDifference(b: bv8, d: bv8)
    ensures Xor(b as bv32, d as bv32) < 256
    ensures Xor(b as bv32, d as bv32) == 0 <==> b == d
  {
  }

  lemma UpdateApart(s: bv32, t: bv32, b: bv8)
    requires s != t
    ensures Update(s, b) != Update(t, b)
  {
    StepsInjective(Xor(s, b as bv32), Xor(t, b as bv32), 8);
    Comm(s, b as bv32);
    Comm(t, b as bv32);
    Cancel(b as bv32, s, t);
    ZeroMeansEqual(s, t);
    ZeroMeansEqual(Xor(s, b as bv32), Xor(t, b as bv32));
  }

  /** Registers that differ stay different over the same further bytes. */
  lemma {:induction false} StayApart(p: seq<bv8>, q: seq<bv8>, m: nat)
    requires |p| == |q| && m <= |p| && p[m..] == q[m..] && State(p[..m]) != State(q[..m])
    ensures State(p) != State(q)
    decreases |p|
  {
    if m == |p| {
      assert p[..m] == p && q[..m] == q;
    } else {
      var n := |p| - 1;
      var front, qfront := p[..n], q[..n];
      assert front[..m] == p[..m] && qfront[..m] == q[..m];
      assert front[m..] == p[m..][..n - m] && qfront[m..] == q[m..][..n - m];
      StayApart(front, qfront, m);
      assert p[n] == p[m..][n - m] && q[n] == q[m..][n - m];
      UpdateApart(State(front), State(qfront), p[n]);
    }
  }

  /** From the same register, two different pairs of bytes lead to different registers. */
  lemma PairApart(s: bv32, b0: bv8, b1: bv8, d0: bv8, d1: bv8)
    requires b0 != d0 || b1 != d1
    ensures Update(Update(s, b0), b1) != Update(Update(s, d0), d1)
  {
    var s0, t0 := Update(s, b0), Update(s, d0);
    StepsInjective(Xor(s0, b1 as bv32), Xor(t0, d1 as bv32), 8);
    if Xor(s0, b1 as bv32) == Xor(t0, d1 as bv32) {
      ZeroMeansEqual(Xor(s0, b1 as bv32), Xor(t0, d1 as bv32));
      Swap(s0, b1 as bv32, t0, d1 as bv32);
      ZeroMeansEqual(Xor(s0, t0), Xor(b1 as bv32, d1 as bv32));
      UpdateDifference(s, b0, d0);
      ByteDifference(b0, d0);
      ByteDifference(b1, d1);
      EightSteps(Xor(b0 as bv32, d0 as bv32));
      StepsZero(Xor(b0 as bv32, d0 as bv32), 8);
    }
  }

  /** Main result: any change confined to two neighbouring bytes changes the checksum. */
  lemma AdjacentBytesDetected(p: seq<bv8>, q: seq<bv8>, j: nat)
    requires |p| == |q| && j + 1 < |p| && p != q
    requires forall i :: 0 <= i < |p| && i != j && i != j + 1 ==> p[i] == q[i]
    ensures Checksum(p) != Checksum(q)
  {
    assert p[..j] == q[..j] && p[j + 2..] == q[j + 2..];
    assert p[..j + 2][..j + 1] == p[..j + 1] && p[..j + 1][..j] == p[..j];
    assert q[..j + 2][..j + 1] == q[..j + 1] && q[..j + 1][..j] == q[..j];
    PairApart(State(p[..j]), p[j], p[j + 1], q[j], q[j + 1]);
    StayApart(p, q, j + 2);
    Cancel(0xFFFFFFFF, State(p), State(q));
    Comm(State(p), 0xFFFFFFFF);
    Comm(State(q), 0xFFFFFFFF);
    ZeroMeansEqual(State(p), State(q));
    ZeroMeansEqual(Checksum(p), Checksum(q));
  }

  /** The two bytes differ in their low four bits at most. */
  predicate LowNibbleApart(b: bv8, d: bv8) {
    b ^ d < 16
  }

  /**
    * The change of one symbol that reaches from the low four bits of the last checked byte into the
    * first stored byte: the difference it makes to the checksum has a bit outside that byte.
    */
  lemma LastNibbleDifference(p: seq<bv8>, q: seq<bv8>)
    requires |p| == |q| > 0 && p[..|p| - 1] == q[..|q| - 1]
    requires LowNibbleApart(p[|p| - 1], q[|q| - 1]) && Low(Xor(Checksum(p), Checksum(q))) == 0
    ensures p[|p| - 1] == q[|q| - 1]
  {
    var n := |p| - 1;
    ChecksumDifference(p, q);
    LastNibble(p[n], q[n], Xor(Checksum(p), Checksum(q)));
  }

  lemma ChecksumDifference(p: seq<bv8>, q: seq<bv8>)
    requires |p| == |q| > 0 && p[..|p| - 1] == q[..|q| - 1]
    ensures Xor(Checksum(p), Checksum(q)) == Steps(Xor(p[|p| - 1] as bv32, q[|q| - 1] as bv32), 8)
  {
    Cancel(0xFFFFFFFF, State(p), State(q));
    Comm(State(p), 0xFFFFFFFF);
    Comm(State(q), 0xFFFFFFFF);
    UpdateDifference(State(p[..|p| - 1]), p[|p| - 1], q[|q| - 1]);
  }

  lemma LastNibble(b: bv8, d: bv8, difference: bv32)
    requires LowNibbleApart(b, d) && difference == Steps(Xor(b as bv32, d as bv32), 8) && Low(difference) == 0
    ensures b == d
  {
    ByteDifference(b, d);
    NibbleDifference(b, d);
    EightSteps(Xor(b as bv32, d as bv32));
  }

  lemma NibbleDifference(b: bv8, d: bv8)
    requires LowNibbleApart(b, d)
    ensures Xor(b as bv32, d as bv32) < 16
  {
  }
}
