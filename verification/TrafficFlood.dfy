/** What the room refuses is charged to its sender: the input on which that decides the answer. */
module TrafficFlood {
  import opened Bytes
  import opened Traffic
  import opened TrafficHistory

  const BURST := 2048 // packets the room lets through at once
  const STEADY := 4091 // ... and 2043 more, each as soon as it is earned
  const REFUSED := 4219 // ... and 128 of one more sender, half a packet after

  /** Whose turn it is: 128 packets each, and from STEADY on one sender of its own. */
  function Octet(i: nat): (o: Byte)
    requires i <= REFUSED
  {
    if i < STEADY then 2 + i / 128 else 34
  }

  /** How many packets it has sent by then. */
  function Turns(i: nat): nat
    requires i <= REFUSED
  {
    if i < STEADY then i % 128 else i - STEADY
  }

  function Time(i: nat): real {
    if i < BURST then 0.0 else if i < STEADY then (i - 2047) as real / 2048.0 else 4087.0 / 4096.0
  }

  function Next(i: nat): Call
    requires i < REFUSED
  {
    Call(V4(10, 0, 23, Octet(i)), 0, Time(i))
  }

  function Flood(n: nat): (calls: seq<Call>)
    requires n <= REFUSED
    ensures |calls| == n
  {
    if n == 0 then [] else Flood(n - 1) + [Next(n - 1)]
  }

  /** What the room has left. */
  function Left(n: nat): real {
    if n <= BURST then (BURST - n) as real else if n <= STEADY then 0.0 else 0.5
  }

  function Last(n: nat): real {
    if n == 0 then 0.0 else Time(n - 1)
  }

  ghost predicate Flooded(s: Limits, n: nat)
    requires n <= REFUSED
  {
    s.room == Bucket(Left(n), ROOM_BYTES, Last(n)) && MembersFlooded(s.members, n)
  }

  /** Those whose turn is yet to come are unknown. */
  ghost predicate MembersFlooded(members: map<Addr, Bucket>, n: nat)
    requires n <= REFUSED
  {
    && (forall o: Byte :: V4(10, 0, 23, o) in members ==> o < Octet(n) || (o == Octet(n) && Turns(n) > 0))
    && (Turns(n) > 0 ==> V4(10, 0, 23, Octet(n)) in members && Drained(members[V4(10, 0, 23, Octet(n))], n))
  }

  predicate Drained(b: Bucket, n: nat)
    requires 0 < n <= REFUSED
  {
    && (128 - Turns(n)) as real <= b.packets <= 128.0 && b.bytes == MEMBER_BYTES && b.last <= Time(n - 1)
    && (n > STEADY ==> b == Bucket((128 - Turns(n)) as real, MEMBER_BYTES, Time(n - 1)))
  }

  lemma MemberTurn(s: Limits, n: nat)
    requires n < REFUSED && Flooded(s, n)
    ensures var c := Next(n);
            var (b, ok) := Taken(MemberBucket(s, c.sender, c.now), MEMBER_PACKETS, MEMBER_BYTES, 0, c.now);
            ok && (Octet(n + 1) == Octet(n) ==> Drained(b, n + 1))
  {
  }

  lemma RoomTurn(s: Limits, n: nat)
    requires n < REFUSED && Flooded(s, n)
    ensures Taken(s.room, ROOM_PACKETS, ROOM_BYTES, 0, Time(n))
         == (Bucket(Left(n + 1), ROOM_BYTES, Time(n)), n < STEADY)
  {
  }

  lemma MembersTurn(members: map<Addr, Bucket>, b: Bucket, n: nat)
    requires n < REFUSED && MembersFlooded(members, n) && (Octet(n + 1) == Octet(n) ==> Drained(b, n + 1))
    ensures MembersFlooded(members[Next(n).sender := b], n + 1)
  {
    assert Octet(n) <= Octet(n + 1) && (Octet(n + 1) > Octet(n) ==> Turns(n + 1) == 0);
  }

  lemma FloodTurn(s: Limits, n: nat)
    requires n < REFUSED && Flooded(s, n)
    ensures var (after, ok) := Allowed(s, Next(n).sender, Next(n).size, Next(n).now);
            Flooded(after, n + 1) && ok == (n < STEADY)
  {
    var c := Next(n);
    MemberTurn(s, n);
    RoomTurn(s, n);
    MembersTurn(s.members, Taken(MemberBucket(s, c.sender, c.now), MEMBER_PACKETS, MEMBER_BYTES, 0, c.now).0, n);
  }

  lemma FloodStep(n: nat)
    requires n < REFUSED && Flooded(After(Start(0.0), Flood(n)), n)
    ensures Flooded(After(Start(0.0), Flood(n + 1)), n + 1)
    ensures Answer(0.0, Flood(n), Next(n)) <==> n < STEADY
  {
    AfterMore(Start(0.0), Flood(n), Next(n));
    FloodTurn(After(Start(0.0), Flood(n)), n);
  }

  lemma {:induction false} FloodRuns(n: nat)
    requires n <= REFUSED
    ensures Flooded(After(Start(0.0), Flood(n)), n)
  {
    if n > 0 {
      FloodRuns(n - 1);
      FloodStep(n - 1);
    } else {
      assert Flood(n) == [];
    }
  }

  lemma {:induction false} FloodClocked(n: nat)
    requires n <= REFUSED
    ensures Clocked(0.0, Flood(n)) && End(0.0, Flood(n)) == Last(n)
  {
    if n > 0 {
      FloodClocked(n - 1);
      ClockedMore(0.0, Flood(n - 1), Next(n - 1));
    }
  }

  function Since(n: nat): nat {
    if n <= BURST then 0 else if n <= STEADY then n - BURST else STEADY - BURST
  }

  /** Every call up to STEADY is granted, and none after it. */
  lemma FloodAnswer(n: nat)
    requires n < REFUSED
    ensures Answer(0.0, Flood(n), Next(n)) <==> n < STEADY
  {
    FloodRuns(n);
    FloodStep(n);
  }

  lemma FloodMore(n: nat)
    requires n < REFUSED
    ensures var before := Granted(0.0, Flood(n), 0.0);
            Granted(0.0, Flood(n + 1), 0.0) == if BURST <= n < STEADY then before + [Next(n)] else before
  {
    FloodAnswer(n);
    assert Flood(n + 1)[..n] == Flood(n) && Flood(n + 1)[n] == Next(n);
  }

  predicate Empty(recent: seq<Call>) {
    Volume(recent) == 0 && Of(recent, V4(10, 0, 23, 34)) == []
  }

  lemma EmptyMore(recent: seq<Call>, c: Call)
    requires Empty(recent) && c.size == 0 && c.sender != V4(10, 0, 23, 34)
    ensures Empty(recent + [c])
  {
    assert (recent + [c])[..|recent|] == recent;
  }

  ghost predicate Counted(n: nat)
    requires n <= REFUSED
  {
    var recent := Granted(0.0, Flood(n), 0.0);
    |recent| == Since(n) && Empty(recent)
  }

  lemma CountedMore(n: nat)
    requires n < REFUSED && Counted(n)
    ensures Counted(n + 1)
  {
    FloodMore(n);
    if BURST <= n < STEADY {
      EmptyMore(Granted(0.0, Flood(n), 0.0), Next(n));
    }
  }

  lemma NoneCounted(n: nat)
    requires n == 0
    ensures Counted(n)
  {
    assert Flood(n) == [];
  }

  lemma {:induction false} FloodGrants(n: nat)
    requires n <= REFUSED
    ensures Counted(n)
  {
    if n > 0 {
      FloodGrants(n - 1);
      CountedMore(n - 1);
    } else {
      NoneCounted(n);
    }
  }

  /**
    * Main result. That few packets were granted in the last second does not make the next one granted: after these
    * calls one of a sender that was granted none is refused, though in the last second fewer than 2048 packets of
    * no bytes were granted in all.
    */
  lemma RefusedCallsCount() returns (calls: seq<Call>, c: Call)
    ensures Clocked(0.0, calls + [c]) && c.size == 0
    ensures var recent := Granted(0.0, calls, c.now - 1.0);
            Of(recent, c.sender) == [] && |recent| < 2048 && Volume(recent) == 0
    ensures !Answer(0.0, calls, c)
  {
    var n: nat :| n == REFUSED;
    calls, c := Flood(n), Call(V4(10, 0, 23, 34), 0, 1.0);
    FloodRuns(n);
    FloodClocked(n);
    FloodGrants(n);
    ClockedMore(0.0, calls, c);
  }
}
