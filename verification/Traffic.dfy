/**
  * Token buckets: relayCore.allow and trafficBucket in internal/discovery/relay.go, rateLimiter in
  * internal/pairing/network.go. Times are seconds, as reals.
  */
module Traffic {
  import opened Bytes

  const MEMBER_PACKETS := 128.0
  const MEMBER_BYTES := 262144.0
  const ROOM_PACKETS := 2048.0
  const ROOM_BYTES := 1073741824.0

  function Min(a: real, b: real): real {
    if a < b then a else b
  }

  function Elapsed(last: real, now: real): real {
    if now < last then 0.0 else now - last
  }

  /** A bucket's level once refilled; a full one takes no more. */
  function Refilled(level: real, rate: real, last: real, now: real): real {
    Min(rate, level + Elapsed(last, now) * rate)
  }

  datatype Bucket = Bucket(packets: real, bytes: real, last: real)

  /** take: refill both levels, then spend a packet and its bytes if both suffice. */
  function Taken(b: Bucket, packetRate: real, byteRate: real, size: nat, now: real): (Bucket, bool) {
    var packets, bytes := Refilled(b.packets, packetRate, b.last, now), Refilled(b.bytes, byteRate, b.last, now);
    if packets < 1.0 || bytes < size as real then (Bucket(packets, bytes, now), false)
    else (Bucket(packets - 1.0, bytes - size as real, now), true)
  }

  class TrafficBucket {
    var packets: real
    var bytes: real
    var last: real

    function View(): Bucket
      reads this
    {
      Bucket(packets, bytes, last)
    }

    constructor (packets: real, bytes: real, last: real)
      ensures View() == Bucket(packets, bytes, last)
    {
      this.packets, this.bytes, this.last := packets, bytes, last;
    }

    method Take(packetRate: real, byteRate: real, size: nat, now: real) returns (ok: bool)
      modifies this
      ensures (View(), ok) == Taken(old(View()), packetRate, byteRate, size, now)
    {
      var elapsed := now - last;
      if elapsed < 0.0 {
        elapsed := 0.0;
      }
      packets := Min(packetRate, packets + elapsed * packetRate);
      bytes := Min(byteRate, bytes + elapsed * byteRate);
      last := now;
      if packets < 1.0 || bytes < size as real {
        return false;
      }
      packets := packets - 1.0;
      bytes := bytes - size as real;
      return true;
    }
  }

  /** The buckets of every sender seen, and the room's. */
  datatype Limits = Limits(members: map<Addr, Bucket>, room: Bucket)

  /** A sender's bucket; one not seen before starts full. */
  function MemberBucket(s: Limits, sender: Addr, now: real): Bucket {
    if sender in s.members then s.members[sender] else Bucket(MEMBER_PACKETS, MEMBER_BYTES, now)
  }

  /** allow: the room is only charged for what the sender's own bucket lets through. */
  function Allowed(s: Limits, sender: Addr, size: nat, now: real): (Limits, bool) {
    var (member, mine) := Taken(MemberBucket(s, sender, now), MEMBER_PACKETS, MEMBER_BYTES, size, now);
    var s1 := s.(members := s.members[sender := member]);
    if !mine then (s1, false)
    else
      var (room, ours) := Taken(s.room, ROOM_PACKETS, ROOM_BYTES, size, now);
      (s1.(room := room), ours)
  }

  /** The limits are kept as one value and each bucket is taken out, used and put back. */
  class Limiter {
    var limits: Limits

    constructor (now: real)
      ensures limits == Limits(map[], Bucket(ROOM_PACKETS, ROOM_BYTES, now))
    {
      limits := Limits(map[], Bucket(ROOM_PACKETS, ROOM_BYTES, now));
    }

    method Allow(sender: Addr, size: nat, now: real) returns (ok: bool)
      modifies this
      ensures (limits, ok) == Allowed(old(limits), sender, size, now)
    {
      var kept := MemberBucket(limits, sender, now);
      var member := new TrafficBucket(kept.packets, kept.bytes, kept.last);
      var mine := member.Take(MEMBER_PACKETS, MEMBER_BYTES, size, now);
      limits := limits.(members := limits.members[sender := member.View()]);
      if !mine {
        return false;
      }
      var room := new TrafficBucket(limits.room.packets, limits.room.bytes, limits.room.last);
      ok := room.Take(ROOM_PACKETS, ROOM_BYTES, size, now);
      limits := limits.(room := room.View());
    }
  }

  // ----- what a run lets through -----

  datatype Call = Call(sender: Addr, size: nat, now: real)

  /** The clock never goes back. */
  predicate Clocked(at: real, calls: seq<Call>)
    decreases |calls|
  {
    |calls| > 0 ==> at <= calls[0].now && Clocked(calls[0].now, calls[1..])
  }

  function End(at: real, calls: seq<Call>): real {
    if |calls| == 0 then at else calls[|calls| - 1].now
  }

  /** No bucket has been used after `at`. */
  ghost predicate Settled(s: Limits, at: real) {
    s.room.last <= at && forall k :: k in s.members ==> s.members[k].last <= at
  }

  function MemberGrants(s: Limits, calls: seq<Call>, sender: Addr): nat
    decreases |calls|
  {
    if |calls| == 0 then 0
    else
      var (after, ok) := Allowed(s, calls[0].sender, calls[0].size, calls[0].now);
      (if ok && calls[0].sender == sender then 1 else 0) + MemberGrants(after, calls[1..], sender)
  }

  function MemberGrantedBytes(s: Limits, calls: seq<Call>, sender: Addr): nat
    decreases |calls|
  {
    if |calls| == 0 then 0
    else
      var (after, ok) := Allowed(s, calls[0].sender, calls[0].size, calls[0].now);
      (if ok && calls[0].sender == sender then calls[0].size else 0) + MemberGrantedBytes(after, calls[1..], sender)
  }

  function RoomGrants(s: Limits, calls: seq<Call>): nat
    decreases |calls|
  {
    if |calls| == 0 then 0
    else
      var (after, ok) := Allowed(s, calls[0].sender, calls[0].size, calls[0].now);
      (if ok then 1 else 0) + RoomGrants(after, calls[1..])
  }

  function FreePackets(s: Limits, sender: Addr, at: real): real {
    var b := MemberBucket(s, sender, at);
    Refilled(b.packets, MEMBER_PACKETS, b.last, at)
  }

  function FreeBytes(s: Limits, sender: Addr, at: real): real {
    var b := MemberBucket(s, sender, at);
    Refilled(b.bytes, MEMBER_BYTES, b.last, at)
  }

  function FreeRoom(s: Limits, at: real): real {
    Refilled(s.room.packets, ROOM_PACKETS, s.room.last, at)
  }

  lemma AllowedSettled(s: Limits, c: Call, at: real)
    requires Settled(s, at) && at <= c.now
    ensures Settled(Allowed(s, c.sender, c.size, c.now).0, c.now)
  {
  }

  /** One call spends at most what was free and what was earned since. */
  lemma CallSpendsPackets(s: Limits, c: Call, at: real, sender: Addr)
    requires Settled(s, at) && at <= c.now
    ensures var (after, ok) := Allowed(s, c.sender, c.size, c.now);
            (if ok && c.sender == sender then 1.0 else 0.0) + FreePackets(after, sender, c.now)
            <= FreePackets(s, sender, at) + (c.now - at) * MEMBER_PACKETS
  {
  }

  lemma CallSpendsBytes(s: Limits, c: Call, at: real, sender: Addr)
    requires Settled(s, at) && at <= c.now
    ensures var (after, ok) := Allowed(s, c.sender, c.size, c.now);
            (if ok && c.sender == sender then c.size as real else 0.0) + FreeBytes(after, sender, c.now)
            <= FreeBytes(s, sender, at) + (c.now - at) * MEMBER_BYTES
  {
  }

  lemma CallSpendsRoom(s: Limits, c: Call, at: real)
    requires Settled(s, at) && at <= c.now
    ensures var (after, ok) := Allowed(s, c.sender, c.size, c.now);
            (if ok then 1.0 else 0.0) + FreeRoom(after, c.now) <= FreeRoom(s, at) + (c.now - at) * ROOM_PACKETS
  {
  }

  lemma {:induction false} RunSpends(s: Limits, calls: seq<Call>, at: real, sender: Addr)
    requires Settled(s, at) && Clocked(at, calls)
    requires 0.0 <= FreePackets(s, sender, at) && 0.0 <= FreeBytes(s, sender, at) && 0.0 <= FreeRoom(s, at)
    ensures at <= End(at, calls)
    ensures MemberGrants(s, calls, sender) as real <= FreePackets(s, sender, at)
            + (End(at, calls) - at) * MEMBER_PACKETS
    ensures MemberGrantedBytes(s, calls, sender) as real <= FreeBytes(s, sender, at)
            + (End(at, calls) - at) * MEMBER_BYTES
    ensures RoomGrants(s, calls) as real <= FreeRoom(s, at) + (End(at, calls) - at) * ROOM_PACKETS
    decreases |calls|
  {
    if |calls| > 0 {
      var c := calls[0];
      var after := Allowed(s, c.sender, c.size, c.now).0;
      AllowedSettled(s, c, at);
      CallSpendsPackets(s, c, at, sender);
      CallSpendsBytes(s, c, at, sender);
      CallSpendsRoom(s, c, at);
      CallKeepsNonNegative(s, c, at, sender);
      RunSpends(after, calls[1..], c.now, sender);
      assert |calls| > 1 ==> calls[1..][|calls| - 2] == calls[|calls| - 1];
    }
  }

  lemma CallKeepsNonNegative(s: Limits, c: Call, at: real, sender: Addr)
    requires Settled(s, at) && at <= c.now
    requires 0.0 <= FreePackets(s, sender, at) && 0.0 <= FreeBytes(s, sender, at) && 0.0 <= FreeRoom(s, at)
    ensures var after := Allowed(s, c.sender, c.size, c.now).0;
            0.0 <= FreePackets(after, sender, c.now) && 0.0 <= FreeBytes(after, sender, c.now)
              && 0.0 <= FreeRoom(after, c.now)
  {
  }

  /** The limits after a run, and the ones a run starts from. */
  function After(s: Limits, calls: seq<Call>): Limits
    decreases |calls|
  {
    if |calls| == 0 then s else After(Allowed(s, calls[0].sender, calls[0].size, calls[0].now).0, calls[1..])
  }

  function Start(now: real): Limits {
    Limits(map[], Bucket(ROOM_PACKETS, ROOM_BYTES, now))
  }

  lemma {:induction false} RunSettles(s: Limits, calls: seq<Call>, at: real, sender: Addr)
    requires Settled(s, at) && Clocked(at, calls)
    requires 0.0 <= FreePackets(s, sender, at) && 0.0 <= FreeBytes(s, sender, at) && 0.0 <= FreeRoom(s, at)
    ensures var after := After(s, calls);
            && Settled(after, End(at, calls))
            && 0.0 <= FreePackets(after, sender, End(at, calls)) && 0.0 <= FreeBytes(after, sender, End(at, calls))
            && 0.0 <= FreeRoom(after, End(at, calls))
    decreases |calls|
  {
    if |calls| > 0 {
      var c := calls[0];
      AllowedSettled(s, c, at);
      CallKeepsNonNegative(s, c, at, sender);
      RunSettles(Allowed(s, c.sender, c.size, c.now).0, calls[1..], c.now, sender);
      assert |calls| > 1 ==> calls[1..][|calls| - 2] == calls[|calls| - 1];
    }
  }

  /**
    * Main result: whatever came before, and however the senders' calls are interleaved, from one call to
    * another T seconds later one sender is granted at most 128(1+T) packets and 262144(1+T) bytes, and all
    * senders together at most 2048(1+T) packets.
    */
  lemma IntervalBounds(start: real, before: seq<Call>, calls: seq<Call>, sender: Addr)
    requires Clocked(start, before) && |calls| > 0 && Clocked(End(start, before), calls)
    ensures var s, seconds := After(Start(start), before), calls[|calls| - 1].now - calls[0].now;
            && MemberGrants(s, calls, sender) as real <= 128.0 * (1.0 + seconds)
            && MemberGrantedBytes(s, calls, sender) as real <= 262144.0 * (1.0 + seconds)
            && RoomGrants(s, calls) as real <= 2048.0 * (1.0 + seconds)
  {
    RunSettles(Start(start), before, start, sender);
    var s, at, first := After(Start(start), before), End(start, before), calls[0].now;
    LaterIsFree(s, at, first, sender);
    RunSpends(s, calls, first, sender);
  }

  lemma LaterIsFree(s: Limits, at: real, later: real, sender: Addr)
    requires Settled(s, at) && at <= later
    requires 0.0 <= FreePackets(s, sender, at) && 0.0 <= FreeBytes(s, sender, at) && 0.0 <= FreeRoom(s, at)
    ensures Settled(s, later)
    ensures 0.0 <= FreePackets(s, sender, later) <= MEMBER_PACKETS
    ensures 0.0 <= FreeBytes(s, sender, later) <= MEMBER_BYTES && 0.0 <= FreeRoom(s, later) <= ROOM_PACKETS
  {
  }

  // ----- pairing attempts -----

  class RateLimiter {
    var tokens: real
    var last: real

    constructor (now: real)
      ensures tokens == 10.0 && last == now
    {
      tokens, last := 10.0, now;
    }

    method Allow(now: real) returns (ok: bool)
      modifies this
      ensures (tokens, ok) == Attempted(old(tokens), old(last), now) && last == now
    {
      tokens := tokens + (now - last) * 5.0;
      if tokens > 10.0 {
        tokens := 10.0;
      }
      last := now;
      if tokens < 1.0 {
        return false;
      }
      tokens := tokens - 1.0;
      return true;
    }
  }

  function Attempted(tokens: real, last: real, now: real): (real, bool) {
    var full := Min(10.0, tokens + (now - last) * 5.0);
    if full < 1.0 then (full, false) else (full - 1.0, true)
  }

  function Attempts(tokens: real, last: real, times: seq<real>): nat
    decreases |times|
  {
    if |times| == 0 then 0
    else
      var (after, ok) := Attempted(tokens, last, times[0]);
      (if ok then 1 else 0) + Attempts(after, times[0], times[1..])
  }

  predicate Rising(last: real, times: seq<real>)
    decreases |times|
  {
    |times| > 0 ==> last <= times[0] && Rising(times[0], times[1..])
  }

  /** Main result: from one attempt to another T seconds later the server lets at most 10 + 5T through. */
  lemma AttemptBound(tokens: real, last: real, times: seq<real>)
    requires 0.0 <= tokens && |times| > 0 && Rising(last, times)
    ensures Attempts(tokens, last, times) as real <= 10.0 + 5.0 * (times[|times| - 1] - times[0])
  {
    var free := Min(10.0, tokens + (times[0] - last) * 5.0);
    AttemptsSpend(free, times[0], times);
    assert Attempted(free, times[0], times[0]) == Attempted(tokens, last, times[0]);
  }

  lemma {:induction false} AttemptsSpend(tokens: real, last: real, times: seq<real>)
    requires 0.0 <= tokens && Rising(last, times)
    ensures var end := if |times| == 0 then last else times[|times| - 1];
            last <= end && Attempts(tokens, last, times) as real <= tokens + 5.0 * (end - last)
    decreases |times|
  {
    if |times| > 0 {
      AttemptsSpend(Attempted(tokens, last, times[0]).0, times[0], times[1..]);
      assert |times| > 1 ==> times[1..][|times| - 2] == times[|times| - 1];
    }
  }
}
