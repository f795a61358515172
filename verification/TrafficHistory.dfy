/** The limits without buckets: a call is granted when what was let through before leaves room for it. */
module TrafficHistory {
  import opened Bytes
  import opened Traffic

  // ----- one level -----

  /** What was spent, and when. */
  datatype Charge = Charge(at: real, amount: nat)

  function Sum(h: seq<Charge>): nat {
    if |h| == 0 then 0 else Sum(h[..|h| - 1]) + h[|h| - 1].amount
  }

  /** From any earlier charge on, what was spent and is asked for is within a full bucket and what was earned since. */
  ghost predicate Fits(h: seq<Charge>, most: real, rate: real, now: real, need: real) {
    need <= most && forall i: nat :: i < |h| ==> FitsSince(h, i, most, rate, now, need)
  }

  predicate FitsSince(h: seq<Charge>, i: nat, most: real, rate: real, now: real, need: real)
    requires i < |h|
  {
    Sum(h[i..]) as real + need <= most + rate * (now - h[i].at)
  }

  function Level(level: real, most: real, rate: real, last: real, now: real): real {
    Min(most, level + (now - last) * rate)
  }

  /** The level answers, from its last use on, as the charges do. */
  ghost predicate Tracks(level: real, last: real, most: real, rate: real, h: seq<Charge>) {
    forall t, need :: last <= t ==> (need <= Level(level, most, rate, last, t) <==> Fits(h, most, rate, t, need))
  }

  lemma Distribute(rate: real, a: real, b: real)
    ensures rate * a + rate * b == rate * (a + b) && a * rate == rate * a
  {
  }

  lemma Positive(rate: real, a: real)
    requires 0.0 <= rate && 0.0 <= a
    ensures 0.0 <= a * rate
  {
  }

  lemma FullTracks(most: real, rate: real, last: real)
    requires 0.0 <= rate
    ensures Tracks(most, last, most, rate, [])
  {
  }

  lemma RefillTwice(level: real, most: real, rate: real, last: real, now: real, t: real)
    requires 0.0 <= rate && last <= now <= t
    ensures Level(Level(level, most, rate, last, now), most, rate, now, t) == Level(level, most, rate, last, t)
  {
    var early, late := (now - last) * rate, (t - now) * rate;
    assert early + late == (t - last) * rate;
    Positive(rate, t - now);
  }

  lemma RefillTracks(level: real, last: real, most: real, rate: real, h: seq<Charge>, now: real)
    requires 0.0 <= rate && last <= now && Tracks(level, last, most, rate, h)
    ensures Tracks(Level(level, most, rate, last, now), now, most, rate, h)
  {
    forall t | now <= t
      ensures Level(Level(level, most, rate, last, now), most, rate, now, t) == Level(level, most, rate, last, t)
    {
      RefillTwice(level, most, rate, last, now, t);
    }
  }

  lemma SumMore(h: seq<Charge>, c: Charge, i: nat)
    requires i <= |h|
    ensures Sum((h + [c])[i..]) == Sum(h[i..]) + c.amount
  {
    assert (h + [c])[i..] == h[i..] + [c] && (h[i..] + [c])[..|h[i..]|] == h[i..];
  }

  lemma FitsMoreAt(h: seq<Charge>, c: Charge, i: nat, most: real, rate: real, t: real, need: real)
    requires 0.0 <= rate && i < |h|
    ensures FitsSince(h + [c], i, most, rate, t, need)
       <==> FitsSince(h, i, most, rate, c.at, need + c.amount as real - rate * (t - c.at))
  {
    SumMore(h, c, i);
    Distribute(rate, c.at - h[i].at, t - c.at);
  }

  /** A charge makes what is asked later as hard as asking for both at once, but for what is earned in between. */
  lemma FitsMore(h: seq<Charge>, c: Charge, most: real, rate: real, t: real, need: real)
    requires 0.0 <= rate && c.at <= t
    ensures Fits(h + [c], most, rate, t, need)
       <==> need <= most && Fits(h, most, rate, c.at, need + c.amount as real - rate * (t - c.at))
  {
    var m, both := h + [c], need + c.amount as real - rate * (t - c.at);
    forall i: nat | i < |h|
      ensures FitsSince(m, i, most, rate, t, need) <==> FitsSince(h, i, most, rate, c.at, both)
    {
      FitsMoreAt(h, c, i, most, rate, t, need);
    }
    SumMore(h, c, |h|);
    assert FitsSince(m, |h|, most, rate, t, need) <==> both <= most;
    if Fits(m, most, rate, t, need) {
      assert forall i: nat :: i < |m| ==> FitsSince(m, i, most, rate, t, need);
    }
  }

  /** What is left of a level after a charge suffices when the level did for both, but for what is earned since. */
  lemma ChargeNeeds(level: real, most: real, rate: real, at: real, amount: real, t: real, need: real)
    ensures need <= Level(level - amount, most, rate, at, t)
       <==> need <= most && need + amount - rate * (t - at) <= level
  {
    Distribute(rate, t - at, 0.0);
  }

  lemma LevelNow(level: real, most: real, rate: real, at: real)
    requires level <= most
    ensures Level(level, most, rate, at, at) == level
  {
  }

  lemma ChargeTracks(level: real, most: real, rate: real, h: seq<Charge>, c: Charge)
    requires 0.0 <= rate && level <= most && Tracks(level, c.at, most, rate, h)
    ensures Tracks(level - c.amount as real, c.at, most, rate, h + [c])
  {
    forall t, need | c.at <= t
      ensures need <= Level(level - c.amount as real, most, rate, c.at, t) <==> Fits(h + [c], most, rate, t, need)
    {
      var both := need + c.amount as real - rate * (t - c.at);
      FitsMore(h, c, most, rate, t, need);
      LevelNow(level, most, rate, c.at);
      ChargeNeeds(level, most, rate, c.at, c.amount as real, t, need);
      assert both <= Level(level, most, rate, c.at, c.at) <==> Fits(h, most, rate, c.at, both);
    }
  }

  // ----- one bucket -----

  function Volume(h: seq<Call>): nat {
    if |h| == 0 then 0 else Volume(h[..|h| - 1]) + h[|h| - 1].size
  }

  function Ones(h: seq<Call>): (charges: seq<Charge>)
    ensures |charges| == |h|
  {
    seq(|h|, i requires 0 <= i < |h| => Charge(h[i].now, 1))
  }

  function Sizes(h: seq<Call>): (charges: seq<Charge>)
    ensures |charges| == |h|
  {
    seq(|h|, i requires 0 <= i < |h| => Charge(h[i].now, h[i].size))
  }

  /** From any earlier call on, the calls and one more are no more than a full bucket and what was earned since. */
  ghost predicate EnoughPackets(h: seq<Call>, now: real, packets: real) {
    forall i: nat :: i < |h| ==> FreeSince(h, i, now, packets)
  }

  predicate FreeSince(h: seq<Call>, i: nat, now: real, packets: real)
    requires i < |h|
  {
    (|h| - i) as real + 1.0 <= packets + packets * (now - h[i].now)
  }

  /** The same of their bytes and those of the new one, which must fit a full bucket. */
  ghost predicate EnoughBytes(h: seq<Call>, size: nat, now: real, bytes: real) {
    && size as real <= bytes
    && forall i: nat :: i < |h| ==> FreeBytesSince(h, i, size, now, bytes)
  }

  predicate FreeBytesSince(h: seq<Call>, i: nat, size: nat, now: real, bytes: real)
    requires i < |h|
  {
    Volume(h[i..]) as real + size as real <= bytes + bytes * (now - h[i].now)
  }

  /** What was let through leaves room for one more call of this size. */
  ghost predicate Affords(h: seq<Call>, size: nat, now: real, packets: real, bytes: real) {
    EnoughPackets(h, now, packets) && EnoughBytes(h, size, now, bytes)
  }

  lemma {:induction false} SumsOf(h: seq<Call>)
    ensures Sum(Ones(h)) == |h| && Sum(Sizes(h)) == Volume(h)
  {
    if |h| > 0 {
      SumsOf(h[..|h| - 1]);
      assert Ones(h)[..|h| - 1] == Ones(h[..|h| - 1]) && Sizes(h)[..|h| - 1] == Sizes(h[..|h| - 1]);
    }
  }

  lemma PacketsAt(h: seq<Call>, i: nat, now: real, packets: real)
    requires i < |h|
    ensures FitsSince(Ones(h), i, packets, packets, now, 1.0) <==> FreeSince(h, i, now, packets)
  {
    SumsOf(h[i..]);
    assert Ones(h)[i..] == Ones(h[i..]);
  }

  lemma PacketsFit(h: seq<Call>, now: real, packets: real)
    requires 1.0 <= packets
    ensures Fits(Ones(h), packets, packets, now, 1.0) <==> EnoughPackets(h, now, packets)
  {
    var ones := Ones(h);
    forall i: nat | i < |h|
      ensures FitsSince(ones, i, packets, packets, now, 1.0) <==> FreeSince(h, i, now, packets)
    {
      PacketsAt(h, i, now, packets);
    }
    if Fits(ones, packets, packets, now, 1.0) {
      assert forall i: nat :: i < |h| ==> FitsSince(ones, i, packets, packets, now, 1.0);
    }
  }

  lemma SizesAt(h: seq<Call>, i: nat, size: nat, now: real, bytes: real)
    requires i < |h|
    ensures FitsSince(Sizes(h), i, bytes, bytes, now, size as real) <==> FreeBytesSince(h, i, size, now, bytes)
  {
    SumsOf(h[i..]);
    assert Sizes(h)[i..] == Sizes(h[i..]);
  }

  lemma SizesFit(h: seq<Call>, size: nat, now: real, bytes: real)
    ensures Fits(Sizes(h), bytes, bytes, now, size as real) <==> EnoughBytes(h, size, now, bytes)
  {
    var sizes, need := Sizes(h), size as real;
    forall i: nat | i < |h|
      ensures FitsSince(sizes, i, bytes, bytes, now, need) <==> FreeBytesSince(h, i, size, now, bytes)
    {
      SizesAt(h, i, size, now, bytes);
    }
    if Fits(sizes, bytes, bytes, now, need) {
      assert forall i: nat :: i < |h| ==> FitsSince(sizes, i, bytes, bytes, now, need);
    }
  }

  ghost predicate Keeps(b: Bucket, packets: real, bytes: real, h: seq<Call>) {
    Tracks(b.packets, b.last, packets, packets, Ones(h)) && Tracks(b.bytes, b.last, bytes, bytes, Sizes(h))
  }

  lemma RefilledIsLevel(level: real, most: real, last: real, now: real)
    requires last <= now
    ensures Refilled(level, most, last, now) == Level(level, most, most, last, now)
  {
    Distribute(most, now - last, 0.0);
  }

  /** The level at a time, and what is left of it once it is charged, answer as the charges do. */
  lemma LevelTracks(level: real, last: real, most: real, h: seq<Charge>, c: Charge)
    requires 0.0 <= most && last <= c.at && Tracks(level, last, most, most, h)
    ensures var now := Refilled(level, most, last, c.at);
            && (forall need :: need <= now <==> Fits(h, most, most, c.at, need))
            && Tracks(now, c.at, most, most, h) && Tracks(now - c.amount as real, c.at, most, most, h + [c])
  {
    var now := Refilled(level, most, last, c.at);
    RefilledIsLevel(level, most, last, c.at);
    RefillTracks(level, last, most, most, h, c.at);
    ChargeTracks(now, most, most, h, c);
  }

  /** A bucket lets a call through exactly when what it let through before leaves room for it. */
  lemma TakeAsAfforded(b: Bucket, packets: real, bytes: real, h: seq<Call>, c: Call)
    requires 1.0 <= packets && 0.0 <= bytes && b.last <= c.now && Keeps(b, packets, bytes, h)
    ensures Taken(b, packets, bytes, c.size, c.now).1 <==> Affords(h, c.size, c.now, packets, bytes)
    ensures var (after, ok) := Taken(b, packets, bytes, c.size, c.now);
            after.last == c.now && Keeps(after, packets, bytes, if ok then h + [c] else h)
  {
    LevelTracks(b.packets, b.last, packets, Ones(h), Charge(c.now, 1));
    LevelTracks(b.bytes, b.last, bytes, Sizes(h), Charge(c.now, c.size));
    PacketsFit(h, c.now, packets);
    SizesFit(h, c.size, c.now, bytes);
    ChargesMore(h, c);
  }

  lemma ChargesMore(h: seq<Call>, c: Call)
    ensures Ones(h + [c]) == Ones(h) + [Charge(c.now, 1)] && Sizes(h + [c]) == Sizes(h) + [Charge(c.now, c.size)]
  {
  }

  // ----- every sender and the room -----

  /** The calls of one sender. */
  function Of(h: seq<Call>, sender: Addr): seq<Call> {
    if |h| == 0 then []
    else
      var before := Of(h[..|h| - 1], sender);
      if h[|h| - 1].sender == sender then before + [h[|h| - 1]] else before
  }

  /** The calls charged to their senders, and those of them that were granted. */
  datatype History = History(charged: seq<Call>, granted: seq<Call>) {

    /** A sender is charged for what its own calls leave room for, granted or not. */
    ghost predicate SenderAffords(c: Call) {
      Affords(Of(charged, c.sender), c.size, c.now, 128.0, 262144.0)
    }

    ghost predicate RoomAffords(c: Call) {
      Affords(granted, c.size, c.now, 2048.0, 1073741824.0)
    }

    ghost function Next(c: Call): History {
      if !SenderAffords(c) then this
      else History(charged + [c], if RoomAffords(c) then granted + [c] else granted)
    }
  }

  /** What the calls leave behind, told without a bucket. */
  ghost function Past(calls: seq<Call>): History {
    if |calls| == 0 then History([], []) else Past(calls[..|calls| - 1]).Next(calls[|calls| - 1])
  }

  ghost predicate Mirrors(s: Limits, h: History, at: real) {
    && Settled(s, at) && Keeps(s.room, ROOM_PACKETS, ROOM_BYTES, h.granted)
    && forall sender :: if sender in s.members
                        then Keeps(s.members[sender], MEMBER_PACKETS, MEMBER_BYTES, Of(h.charged, sender))
                        else Of(h.charged, sender) == []
  }

  lemma OfMore(h: seq<Call>, c: Call, sender: Addr)
    ensures Of(h + [c], sender) == if c.sender == sender then Of(h, sender) + [c] else Of(h, sender)
  {
    assert (h + [c])[..|h|] == h;
  }

  lemma MemberKeeps(s: Limits, h: History, at: real, sender: Addr, now: real)
    requires Mirrors(s, h, at) && at <= now
    ensures var b := MemberBucket(s, sender, now);
            b.last <= now && Keeps(b, MEMBER_PACKETS, MEMBER_BYTES, Of(h.charged, sender))
  {
    if sender !in s.members {
      FullTracks(MEMBER_PACKETS, MEMBER_PACKETS, now);
      FullTracks(MEMBER_BYTES, MEMBER_BYTES, now);
      assert Of(h.charged, sender) == [];
      assert Ones(Of(h.charged, sender)) == [] && Sizes(Of(h.charged, sender)) == [];
    }
  }

  lemma CallMirrors(s: Limits, h: History, at: real, c: Call)
    requires Mirrors(s, h, at) && at <= c.now
    ensures var (after, ok) := Allowed(s, c.sender, c.size, c.now);
            (ok <==> h.SenderAffords(c) && h.RoomAffords(c)) && Mirrors(after, h.Next(c), c.now)
  {
    MemberKeeps(s, h, at, c.sender, c.now);
    var mine := Of(h.charged, c.sender);
    TakeAsAfforded(MemberBucket(s, c.sender, c.now), MEMBER_PACKETS, MEMBER_BYTES, mine, c);
    TakeAsAfforded(s.room, ROOM_PACKETS, ROOM_BYTES, h.granted, c);
    var after := Allowed(s, c.sender, c.size, c.now).0;
    AllowedSettled(s, c, at);
    forall sender
      ensures if sender in after.members
              then Keeps(after.members[sender], MEMBER_PACKETS, MEMBER_BYTES, Of(h.Next(c).charged, sender))
              else Of(h.Next(c).charged, sender) == []
    {
      OfMore(h.charged, c, sender);
    }
  }

  lemma StartMirrors(start: real)
    ensures Mirrors(Start(start), History([], []), start)
  {
    FullTracks(ROOM_PACKETS, ROOM_PACKETS, start);
    FullTracks(ROOM_BYTES, ROOM_BYTES, start);
    var none: seq<Call> := [];
    assert Ones(none) == [] && Sizes(none) == [];
  }

  // ----- runs -----

  lemma {:induction false} AfterMore(s: Limits, calls: seq<Call>, c: Call)
    ensures After(s, calls + [c]) == Allowed(After(s, calls), c.sender, c.size, c.now).0
    decreases |calls|
  {
    var all := calls + [c];
    if |calls| > 0 {
      assert all[0] == calls[0] && all[1..] == calls[1..] + [c];
      AfterMore(Allowed(s, calls[0].sender, calls[0].size, calls[0].now).0, calls[1..], c);
    }
  }

  lemma {:induction false} ClockedMore(at: real, calls: seq<Call>, c: Call)
    ensures Clocked(at, calls + [c]) <==> Clocked(at, calls) && End(at, calls) <= c.now
    decreases |calls|
  {
    var all := calls + [c];
    if |calls| > 0 {
      assert all[0] == calls[0] && all[1..] == calls[1..] + [c];
      ClockedMore(calls[0].now, calls[1..], c);
    }
  }

  lemma {:induction false} RunMirrors(start: real, calls: seq<Call>)
    requires Clocked(start, calls)
    ensures Mirrors(After(Start(start), calls), Past(calls), End(start, calls))
    decreases |calls|
  {
    if |calls| == 0 {
      StartMirrors(start);
    } else {
      var front, c := calls[..|calls| - 1], calls[|calls| - 1];
      assert calls == front + [c];
      ClockedMore(start, front, c);
      RunMirrors(start, front);
      AfterMore(Start(start), front, c);
      CallMirrors(After(Start(start), front), Past(front), End(start, front), c);
    }
  }

  /** What the limits answer to the next call after these. */
  function Answer(start: real, calls: seq<Call>, c: Call): bool {
    Allowed(After(Start(start), calls), c.sender, c.size, c.now).1
  }

  /**
    * Main result. After any calls under a clock that does not go back, the next one is granted if and only if the
    * calls that its sender was charged for leave room for it within 128 packets and 262144 bytes a second, and the
    * calls that were granted leave room for it within 2048 packets and 2^30 bytes a second.
    */
  lemma GrantedIffAfforded(start: real, calls: seq<Call>, c: Call)
    requires Clocked(start, calls + [c])
    ensures Answer(start, calls, c) <==> Past(calls).SenderAffords(c) && Past(calls).RoomAffords(c)
  {
    ClockedMore(start, calls, c);
    RunMirrors(start, calls);
    CallMirrors(After(Start(start), calls), Past(calls), End(start, calls), c);
  }

  // ----- the last second -----

  /** Each charge was left room for by the ones before it. */
  ghost predicate SelfFits(h: seq<Charge>, most: real) {
    && (forall i, j :: 0 <= i < j < |h| ==> h[i].at <= h[j].at)
    && forall j: nat :: j < |h| ==> Fits(h[..j], most, most, h[j].at, h[j].amount as real)
  }

  lemma {:induction false} SumSplit(a: seq<Charge>, b: seq<Charge>)
    ensures Sum(a + b) == Sum(a) + Sum(b)
  {
    if |b| == 0 {
      assert a + b == a;
    } else {
      assert (a + b)[..|a + b| - 1] == a + b[..|b| - 1];
      SumSplit(a, b[..|b| - 1]);
    }
  }

  /** From any charge to a later one, no more than a full level and what was earned in between was spent. */
  lemma SpentBetween(h: seq<Charge>, most: real, i: nat, k: nat)
    requires SelfFits(h, most) && i < k <= |h|
    ensures Sum(h[i..k]) as real <= most + most * (h[k - 1].at - h[i].at)
  {
    var before := h[..k - 1];
    assert Fits(before, most, most, h[k - 1].at, h[k - 1].amount as real);
    assert h[i..k] == before[i..] + [h[k - 1]];
    SumSplit(before[i..], [h[k - 1]]);
    assert Sum([h[k - 1]]) == h[k - 1].amount;
    if i < k - 1 {
      assert FitsSince(before, i, most, most, h[k - 1].at, h[k - 1].amount as real);
    } else {
      assert before[i..] == [];
    }
  }

  /** A second earns a full level. */
  lemma SecondEarns(most: real, first: real, last: real, now: real, spent: real)
    requires 0.0 <= most && last <= now - 1.0 && spent <= most + most * (last - first)
    ensures spent <= most * (now - first)
  {
    Positive(most, now - 1.0 - last);
    Distribute(most, 1.0 + (last - first), now - 1.0 - last);
    Distribute(most, now - 1.0 - last, 0.0);
    Distribute(most, 1.0, last - first);
  }

  lemma SpentEarly(h: seq<Charge>, most: real, i: nat, k: nat, now: real)
    requires 0.0 <= most && SelfFits(h, most) && i < k <= |h| && h[k - 1].at <= now - 1.0
    ensures Sum(h[i..k]) as real <= most * (now - h[i].at)
  {
    SpentBetween(h, most, i, k);
    SecondEarns(most, h[i].at, h[k - 1].at, now, Sum(h[i..k]) as real);
  }

  lemma OldFits(h: seq<Charge>, most: real, i: nat, k: nat, now: real, need: real)
    requires 0.0 <= most && SelfFits(h, most) && i < k <= |h| && h[k - 1].at <= now - 1.0
    requires Sum(h[k..]) as real + need <= most
    ensures FitsSince(h, i, most, most, now, need)
  {
    assert h[i..] == h[i..k] + h[k..];
    SumSplit(h[i..k], h[k..]);
    SpentEarly(h, most, i, k, now);
  }

  lemma RecentFits(h: seq<Charge>, most: real, i: nat, k: nat, now: real, need: real)
    requires 0.0 <= most && k <= i < |h| && h[i].at <= now && Sum(h[k..]) as real + need <= most
    ensures FitsSince(h, i, most, most, now, need)
  {
    assert h[k..] == h[k..i] + h[i..];
    SumSplit(h[k..i], h[i..]);
    Positive(most, now - h[i].at);
    Distribute(most, now - h[i].at, 0.0);
  }

  /** Charges a second old or older no longer count, if those since leave room. */
  lemma WindowFits(h: seq<Charge>, most: real, k: nat, now: real, need: real)
    requires 0.0 <= most && SelfFits(h, most) && k <= |h|
    requires forall i :: 0 <= i < |h| ==> h[i].at <= now && (i < k ==> h[i].at <= now - 1.0)
    requires Sum(h[k..]) as real + need <= most
    ensures Fits(h, most, most, now, need)
  {
    forall i: nat | i < |h|
      ensures FitsSince(h, i, most, most, now, need)
    {
      if i < k {
        OldFits(h, most, i, k, now, need);
      } else {
        RecentFits(h, most, i, k, now, need);
      }
    }
  }

  lemma SelfFitsMore(h: seq<Charge>, most: real, c: Charge)
    requires SelfFits(h, most) && Fits(h, most, most, c.at, c.amount as real)
    requires forall i :: 0 <= i < |h| ==> h[i].at <= c.at
    ensures SelfFits(h + [c], most)
  {
    var m := h + [c];
    forall j: nat | j < |m|
      ensures Fits(m[..j], most, most, m[j].at, m[j].amount as real)
    {
      assert m[..j] == h[..j];
      if j == |h| {
        assert h[..j] == h;
      }
    }
  }

  /** The calls after a time. */
  function Later(h: seq<Call>, time: real): seq<Call> {
    if |h| == 0 then []
    else
      var before, c := Later(h[..|h| - 1], time), h[|h| - 1];
      if time < c.now then before + [c] else before
  }

  predicate Rising(h: seq<Call>) {
    forall i, j :: 0 <= i < j < |h| ==> h[i].now <= h[j].now
  }

  lemma {:induction false} NoneLater(h: seq<Call>, time: real)
    requires forall i :: 0 <= i < |h| ==> h[i].now <= time
    ensures Later(h, time) == []
  {
    if |h| > 0 {
      NoneLater(h[..|h| - 1], time);
    }
  }

  /** Of calls in order of time, the later ones are the last ones. */
  lemma {:induction false} LaterAreLast(h: seq<Call>, time: real) returns (k: nat)
    requires Rising(h)
    ensures k <= |h| && Later(h, time) == h[k..] && forall i :: 0 <= i < k ==> h[i].now <= time
  {
    if |h| == 0 || h[|h| - 1].now <= time {
      k := |h|;
      NoneLater(h, time);
    } else {
      var front := h[..|h| - 1];
      k := LaterAreLast(front, time);
      assert h[k..] == front[k..] + [h[|h| - 1]];
    }
  }

  /** What one limit has let through. */
  ghost predicate Orderly(h: seq<Call>, packets: nat, bytes: nat, at: real) {
    && Rising(h) && (forall c :: c in h ==> c.now <= at)
    && SelfFits(Ones(h), packets as real) && SelfFits(Sizes(h), bytes as real)
  }

  lemma OrderlyMore(h: seq<Call>, packets: nat, bytes: nat, at: real, c: Call)
    requires 1 <= packets && Orderly(h, packets, bytes, at) && at <= c.now
    ensures Orderly(h, packets, bytes, c.now)
    ensures Affords(h, c.size, c.now, packets as real, bytes as real) ==> Orderly(h + [c], packets, bytes, c.now)
  {
    if Affords(h, c.size, c.now, packets as real, bytes as real) {
      PacketsFit(h, c.now, packets as real);
      SizesFit(h, c.size, c.now, bytes as real);
      SelfFitsMore(Ones(h), packets as real, Charge(c.now, 1));
      SelfFitsMore(Sizes(h), bytes as real, Charge(c.now, c.size));
      ChargesMore(h, c);
    }
  }

  ghost predicate OrderlyPast(h: History, at: real) {
    && Orderly(h.granted, 2048, 0x4000_0000, at)
    && forall sender :: Orderly(Of(h.charged, sender), 128, 262144, at)
  }

  lemma {:induction false} PastIsOrderly(start: real, calls: seq<Call>)
    requires Clocked(start, calls)
    ensures OrderlyPast(Past(calls), End(start, calls))
    decreases |calls|
  {
    if |calls| > 0 {
      var front, c := calls[..|calls| - 1], calls[|calls| - 1];
      assert calls == front + [c];
      ClockedMore(start, front, c);
      PastIsOrderly(start, front);
      var h, at := Past(front), End(start, front);
      OrderlyMore(h.granted, 2048, 0x4000_0000, at, c);
      forall sender
        ensures Orderly(Of(h.Next(c).charged, sender), 128, 262144, c.now)
      {
        OrderlyMore(Of(h.charged, sender), 128, 262144, at, c);
        OfMore(h.charged, c, sender);
      }
    }
  }

  lemma LaterSums(h: seq<Call>, time: real) returns (k: nat)
    requires Rising(h)
    ensures k <= |h| && forall i :: 0 <= i < k ==> h[i].now <= time
    ensures Sum(Ones(h)[k..]) == |Later(h, time)| && Sum(Sizes(h)[k..]) == Volume(Later(h, time))
  {
    k := LaterAreLast(h, time);
    SumsOf(h[k..]);
    assert Ones(h)[k..] == Ones(h[k..]) && Sizes(h)[k..] == Sizes(h[k..]);
  }

  lemma LastSecondOfPackets(h: seq<Call>, packets: real, now: real)
    requires 1.0 <= packets && Rising(h) && (forall c :: c in h ==> c.now <= now) && SelfFits(Ones(h), packets)
    requires |Later(h, now - 1.0)| as real + 1.0 <= packets
    ensures EnoughPackets(h, now, packets)
  {
    var k := LaterSums(h, now - 1.0);
    WindowFits(Ones(h), packets, k, now, 1.0);
    PacketsFit(h, now, packets);
  }

  lemma LastSecondOfBytes(h: seq<Call>, bytes: real, size: nat, now: real)
    requires 0.0 <= bytes && Rising(h) && (forall c :: c in h ==> c.now <= now) && SelfFits(Sizes(h), bytes)
    requires Volume(Later(h, now - 1.0)) as real + size as real <= bytes
    ensures EnoughBytes(h, size, now, bytes)
  {
    var k := LaterSums(h, now - 1.0);
    WindowFits(Sizes(h), bytes, k, now, size as real);
    SizesFit(h, size, now, bytes);
  }

  /** What was let through longer than a second ago does not matter. */
  lemma LastSecondSuffices(h: seq<Call>, packets: nat, bytes: nat, at: real, size: nat, now: real)
    requires 1 <= packets && Orderly(h, packets, bytes, at) && at <= now
    requires |Later(h, now - 1.0)| < packets && Volume(Later(h, now - 1.0)) + size <= bytes
    ensures Affords(h, size, now, packets as real, bytes as real)
  {
    LastSecondOfPackets(h, packets as real, now);
    LastSecondOfBytes(h, bytes as real, size, now);
  }

  // ----- told from the answers -----

  /** The calls granted after a time. */
  function Granted(start: real, calls: seq<Call>, time: real): seq<Call> {
    if |calls| == 0 then []
    else
      var front, c := calls[..|calls| - 1], calls[|calls| - 1];
      var before := Granted(start, front, time);
      if time < c.now && Answer(start, front, c) then before + [c] else before
  }

  /** No call of the sender after the time was refused. */
  predicate NoneRefused(start: real, calls: seq<Call>, sender: Addr, time: real) {
    forall i :: 0 <= i < |calls| && calls[i].sender == sender && time < calls[i].now
      ==> Answer(start, calls[..i], calls[i])
  }

  lemma LaterMore(h: seq<Call>, c: Call, time: real)
    ensures Later(h + [c], time) == if time < c.now then Later(h, time) + [c] else Later(h, time)
  {
    assert (h + [c])[..|h|] == h;
  }

  lemma {:induction false} GrantedAreLater(start: real, calls: seq<Call>, time: real)
    requires Clocked(start, calls)
    ensures Granted(start, calls, time) == Later(Past(calls).granted, time)
    decreases |calls|
  {
    if |calls| > 0 {
      var front, c := calls[..|calls| - 1], calls[|calls| - 1];
      assert calls == front + [c];
      ClockedMore(start, front, c);
      GrantedAreLater(start, front, time);
      GrantedIffAfforded(start, front, c);
      LaterMore(Past(front).granted, c, time);
    }
  }

  lemma {:induction false} ChargedAreGranted(start: real, calls: seq<Call>, sender: Addr, time: real)
    requires Clocked(start, calls) && NoneRefused(start, calls, sender, time)
    ensures Later(Of(Past(calls).charged, sender), time) == Of(Granted(start, calls, time), sender)
    decreases |calls|
  {
    if |calls| > 0 {
      var front, c := calls[..|calls| - 1], calls[|calls| - 1];
      assert calls == front + [c];
      ClockedMore(start, front, c);
      forall i | 0 <= i < |front|
        ensures front[..i] == calls[..i]
      {
      }
      assert NoneRefused(start, front, sender, time);
      ChargedAreGranted(start, front, sender, time);
      GrantedIffAfforded(start, front, c);
      OfMore(Past(front).charged, c, sender);
      LaterMore(Of(Past(front).charged, sender), c, time);
      OfMore(Granted(start, front, time), c, sender);
      assert calls[..|front|] == front;
    }
  }

  lemma SenderSuffices(past: History, at: real, c: Call)
    requires OrderlyPast(past, at) && at <= c.now
    requires var mine := Later(Of(past.charged, c.sender), c.now - 1.0);
             |mine| < 128 && Volume(mine) + c.size <= 262144
    ensures past.SenderAffords(c)
  {
    LastSecondSuffices(Of(past.charged, c.sender), 128, 262144, at, c.size, c.now);
  }

  lemma RoomSuffices(past: History, at: real, c: Call)
    requires OrderlyPast(past, at) && at <= c.now
    requires var recent := Later(past.granted, c.now - 1.0);
             |recent| < 2048 && Volume(recent) + c.size <= 0x4000_0000
    ensures past.RoomAffords(c)
  {
    LastSecondSuffices(past.granted, 2048, 0x4000_0000, at, c.size, c.now);
  }

  /**
    * Main result. A call is granted whenever, in the last second, no call of its sender was refused, fewer than 128
    * of them were granted, with its own no more than 262144 bytes, and fewer than 2048 calls were granted in all,
    * with its own no more than 2^30 bytes: whatever was granted or refused before.
    */
  lemma QuietIsGranted(start: real, calls: seq<Call>, c: Call)
    requires Clocked(start, calls + [c]) && NoneRefused(start, calls, c.sender, c.now - 1.0)
    requires var recent := Granted(start, calls, c.now - 1.0);
             && |Of(recent, c.sender)| < 128 && Volume(Of(recent, c.sender)) + c.size <= 262144
             && |recent| < 2048 && Volume(recent) + c.size <= 0x4000_0000
    ensures Answer(start, calls, c)
  {
    var past, time := Past(calls), c.now - 1.0;
    ClockedMore(start, calls, c);
    PastIsOrderly(start, calls);
    ChargedAreGranted(start, calls, c.sender, time);
    SenderSuffices(past, End(start, calls), c);
    GrantedAreLater(start, calls, time);
    RoomSuffices(past, End(start, calls), c);
    GrantedIffAfforded(start, calls, c);
  }

  // ----- pairing attempts -----

  /** What the limiter of pairing attempts holds after attempts at these times, and what it answers to the next. */
  function Tokens(start: real, times: seq<real>): real {
    if |times| == 0 then 10.0
    else
      var front := times[..|times| - 1];
      Attempted(Tokens(start, front), LastOf(start, front), times[|times| - 1]).0
  }

  function LastOf(start: real, times: seq<real>): real {
    if |times| == 0 then start else times[|times| - 1]
  }

  function Admitted(start: real, times: seq<real>, now: real): bool {
    Attempted(Tokens(start, times), LastOf(start, times), now).1
  }

  /** The attempts let through so far leave room for one more: ten, and five for every second. */
  ghost predicate AffordsAttempt(passed: seq<real>, now: real) {
    forall i: nat :: i < |passed| ==> (|passed| - i) as real + 1.0 <= 10.0 + 5.0 * (now - passed[i])
  }

  /** The attempts let through, told without the tokens. */
  ghost function Passed(times: seq<real>): seq<real> {
    if |times| == 0 then []
    else
      var before, now := Passed(times[..|times| - 1]), times[|times| - 1];
      if AffordsAttempt(before, now) then before + [now] else before
  }

  function AttemptCharges(times: seq<real>): (charges: seq<Charge>)
    ensures |charges| == |times|
  {
    seq(|times|, i requires 0 <= i < |times| => Charge(times[i], 1))
  }

  lemma {:induction false} AttemptSum(times: seq<real>)
    ensures Sum(AttemptCharges(times)) == |times|
  {
    if |times| > 0 {
      AttemptSum(times[..|times| - 1]);
      assert AttemptCharges(times)[..|times| - 1] == AttemptCharges(times[..|times| - 1]);
    }
  }

  lemma AttemptFits(passed: seq<real>, now: real)
    ensures Fits(AttemptCharges(passed), 10.0, 5.0, now, 1.0) <==> AffordsAttempt(passed, now)
  {
    var charges := AttemptCharges(passed);
    forall i: nat | i < |passed|
      ensures FitsSince(charges, i, 10.0, 5.0, now, 1.0)
         <==> (|passed| - i) as real + 1.0 <= 10.0 + 5.0 * (now - passed[i])
    {
      AttemptSum(passed[i..]);
      assert charges[i..] == AttemptCharges(passed[i..]);
    }
    if Fits(charges, 10.0, 5.0, now, 1.0) {
      assert forall i: nat :: i < |passed| ==> FitsSince(charges, i, 10.0, 5.0, now, 1.0);
    }
  }

  lemma AttemptTracks(tokens: real, last: real, passed: seq<real>, now: real)
    requires last <= now && Tracks(tokens, last, 10.0, 5.0, AttemptCharges(passed))
    ensures var (after, ok) := Attempted(tokens, last, now);
            && (ok <==> AffordsAttempt(passed, now))
            && Tracks(after, now, 10.0, 5.0, AttemptCharges(if ok then passed + [now] else passed))
  {
    var charges, full := AttemptCharges(passed), Level(tokens, 10.0, 5.0, last, now);
    assert 1.0 <= full <==> Fits(charges, 10.0, 5.0, now, 1.0);
    AttemptFits(passed, now);
    RefillTracks(tokens, last, 10.0, 5.0, charges, now);
    ChargeTracks(full, 10.0, 5.0, charges, Charge(now, 1));
    assert AttemptCharges(passed + [now]) == charges + [Charge(now, 1)];
  }

  predicate InOrder(start: real, times: seq<real>) {
    (forall i :: 0 <= i < |times| ==> start <= times[i]) && forall i, j :: 0 <= i < j < |times| ==> times[i] <= times[j]
  }

  lemma {:induction false} AttemptsTrack(start: real, times: seq<real>)
    requires InOrder(start, times)
    ensures Tracks(Tokens(start, times), LastOf(start, times), 10.0, 5.0, AttemptCharges(Passed(times)))
  {
    if |times| == 0 {
      FullTracks(10.0, 5.0, start);
      assert AttemptCharges([]) == [];
    } else {
      var front, now := times[..|times| - 1], times[|times| - 1];
      AttemptsTrack(start, front);
      AttemptTracks(Tokens(start, front), LastOf(start, front), Passed(front), now);
    }
  }

  /**
    * Main result. A pairing attempt is let through if and only if those let through before it leave room for it:
    * from any of them on, ten and five for every second.
    */
  lemma AdmittedIffAfforded(start: real, times: seq<real>, now: real)
    requires InOrder(start, times + [now])
    ensures Admitted(start, times, now) <==> AffordsAttempt(Passed(times), now)
  {
    var all := times + [now];
    assert forall i :: 0 <= i < |times| ==> all[i] == times[i];
    assert all[|times|] == now;
    AttemptsTrack(start, times);
    AttemptTracks(Tokens(start, times), LastOf(start, times), Passed(times), now);
  }
}
