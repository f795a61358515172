/** Runs of the relay: how much one member can have it carry, and when it carries a frame. */
module RelayRuns {
  import opened Bytes
  import opened Discovery
  import opened RelayCore
  import opened TrafficHistory
  import Replay
  import Traffic

  /** One round of readRemote, or a frame captured on the host; what the cache, the interface and the sends answer. */
  datatype Event =
    | Receive(payload: seq<Byte>, source: Addr, now: int, listed: seq<Addr>, seen: Replay.Answer, injects: bool,
              targets: seq<Addr>, answers: seq<bool>)
    | Capture(frame: Frame, now: int, targets: seq<Addr>, answers: seq<bool>)

  predicate Possible(e: Event) {
    |e.answers| == |e.targets|
  }

  predicate AllPossible(events: seq<Event>) {
    forall i :: 0 <= i < |events| ==> Possible(events[i])
  }

  function Step(r: Relay, e: Event): Relay
    requires Possible(e)
  {
    match e
    case Receive(payload, source, now, listed, seen, injects, targets, answers) =>
      r.Received(payload, source, now, listed, seen, injects, targets, answers).0
    case Capture(frame, now, targets, answers) => r.Host(frame, now, targets, answers).0
  }

  function Run(r: Relay, events: seq<Event>): Relay
    requires AllPossible(events)
    decreases |events|
  {
    if |events| == 0 then r else Run(Step(r, events[0]), events[1..])
  }

  /** A relay that has just been made. */
  function NewRelay(start: real): Relay {
    Relay(Traffic.Start(start), 0, 0, 0, [], [])
  }

  /** The clock does not go back. */
  predicate InTime(start: real, events: seq<Event>) {
    && (forall i :: 0 <= i < |events| ==> start <= Seconds(events[i].now))
    && forall i, j :: 0 <= i < j < |events| ==> events[i].now <= events[j].now
  }

  // ----- what a run carries -----

  function Sent(packets: seq<seq<Byte>>, source: Addr): seq<seq<Byte>> {
    if |packets| == 0 then []
    else
      var before, p := Sent(packets[..|packets| - 1], source), packets[|packets| - 1];
      if |p| >= 16 && AddrAt(p, 12) == source then before + [p] else before
  }

  function Octets(packets: seq<seq<Byte>>): nat {
    if |packets| == 0 then 0 else Octets(packets[..|packets| - 1]) + |packets[|packets| - 1]|
  }

  lemma SentMore(packets: seq<seq<Byte>>, p: seq<Byte>, source: Addr)
    ensures Sent(packets + [p], source)
         == if |p| >= 16 && AddrAt(p, 12) == source then Sent(packets, source) + [p] else Sent(packets, source)
  {
    assert (packets + [p])[..|packets|] == packets;
  }

  lemma OctetsMore(packets: seq<seq<Byte>>, p: seq<Byte>)
    ensures Octets(packets + [p]) == Octets(packets) + |p|
  {
    assert (packets + [p])[..|packets|] == packets;
  }

  // ----- the calls of the limits -----

  /** The call an event makes of the limits, if it makes one. */
  function CallOf(e: Event): seq<Traffic.Call> {
    match e
    case Receive(payload, source, now, listed, seen, _, _, _) =>
      var frame := Decode(payload);
      if frame.None? || frame.value.flags != 0 || frame.value.senderIP != source || source !in listed
        || seen != Replay.Accepted then []
      else [Traffic.Call(source, |frame.value.packet|, Seconds(now))]
    case Capture(frame, now, _, _) =>
      if frame.flags == HOST_ORIGIN && frame.senderIP == HOST_IP
        then [Traffic.Call(HOST_IP, |frame.packet|, Seconds(now))] else []
  }

  function CallsOf(events: seq<Event>): seq<Traffic.Call>
    decreases |events|
  {
    if |events| == 0 then [] else CallOf(events[0]) + CallsOf(events[1..])
  }

  /** What has been added to `before`: at most what the limits granted. */
  ghost predicate Within(before: Relay, after: Relay, calls: seq<Traffic.Call>, source: Addr) {
    && after.limits == Traffic.After(before.limits, calls) && before.accepted <= after.accepted
    && before.injected <= after.injected
    && |Sent(after.injected, source)| - |Sent(before.injected, source)|
       <= Traffic.MemberGrants(before.limits, calls, source)
    && Octets(Sent(after.injected, source)) - Octets(Sent(before.injected, source))
       <= Traffic.MemberGrantedBytes(before.limits, calls, source)
    && after.accepted - before.accepted <= Traffic.RoomGrants(before.limits, calls)
  }

  lemma OneCall(s: Traffic.Limits, c: Traffic.Call, source: Addr)
    ensures var (after, ok) := Traffic.Allowed(s, c.sender, c.size, c.now);
            && Traffic.After(s, [c]) == after
            && Traffic.MemberGrants(s, [c], source) == (if ok && c.sender == source then 1 else 0)
            && Traffic.MemberGrantedBytes(s, [c], source) == (if ok && c.sender == source then c.size else 0)
            && Traffic.RoomGrants(s, [c]) == (if ok then 1 else 0)
  {
    var none: seq<Traffic.Call> := [];
    assert [c][1..] == none;
  }

  /** A frame is injected and accepted together, and only if its call was granted. */
  lemma ReceiveCharges(r: Relay, e: Event)
    requires Possible(e) && e.Receive?
    ensures var after, calls := Step(r, e), CallOf(e);
            if calls == [] then
              after.limits == r.limits && after.accepted == r.accepted && after.injected == r.injected
            else
              var (spent, ok), p := Traffic.Allowed(r.limits, calls[0].sender, calls[0].size, calls[0].now),
                Decode(e.payload).value.packet;
              && |calls| == 1 && after.limits == spent && |p| == calls[0].size
              && |p| >= 16 && AddrAt(p, 12) == calls[0].sender
              && if ok && e.injects then
                   after.accepted == r.accepted + 1 && after.injected == r.injected + [p]
                 else after.accepted == r.accepted && after.injected == r.injected
  {
    if Decode(e.payload).Some? {
      FrameReprint(e.payload);
    }
  }

  lemma CaptureCharges(r: Relay, e: Event)
    requires Possible(e) && e.Capture?
    ensures var after, calls := Step(r, e), CallOf(e);
            && after.injected == r.injected && r.accepted <= after.accepted <= r.accepted + 1
            && if calls == [] then after.limits == r.limits && after.accepted == r.accepted
               else
                 var (spent, ok) := Traffic.Allowed(r.limits, calls[0].sender, calls[0].size, calls[0].now);
                 |calls| == 1 && after.limits == spent && (after.accepted > r.accepted ==> ok)
  {
  }

  lemma StepWithin(r: Relay, e: Event, source: Addr)
    requires Possible(e)
    ensures Within(r, Step(r, e), CallOf(e), source)
  {
    if e.Receive? {
      ReceiveCharges(r, e);
      if CallOf(e) != [] {
        var p := Decode(e.payload).value.packet;
        OneCall(r.limits, CallOf(e)[0], source);
        assert CallOf(e) == [CallOf(e)[0]];
        SentMore(r.injected, p, source);
        OctetsMore(Sent(r.injected, source), p);
      }
    } else {
      CaptureCharges(r, e);
      if CallOf(e) != [] {
        OneCall(r.limits, CallOf(e)[0], source);
        assert CallOf(e) == [CallOf(e)[0]];
      }
    }
  }

  lemma {:induction false} RunCalls(s: Traffic.Limits, a: seq<Traffic.Call>, b: seq<Traffic.Call>, source: Addr)
    ensures var mid := Traffic.After(s, a);
            && Traffic.After(s, a + b) == Traffic.After(mid, b)
            && Traffic.MemberGrants(s, a + b, source)
               == Traffic.MemberGrants(s, a, source) + Traffic.MemberGrants(mid, b, source)
            && Traffic.MemberGrantedBytes(s, a + b, source)
               == Traffic.MemberGrantedBytes(s, a, source) + Traffic.MemberGrantedBytes(mid, b, source)
            && Traffic.RoomGrants(s, a + b) == Traffic.RoomGrants(s, a) + Traffic.RoomGrants(mid, b)
    decreases |a|
  {
    if |a| == 0 {
      assert a + b == b;
    } else {
      assert (a + b)[0] == a[0] && (a + b)[1..] == a[1..] + b;
      RunCalls(Traffic.Allowed(s, a[0].sender, a[0].size, a[0].now).0, a[1..], b, source);
    }
  }

  lemma {:induction false} RunWithin(r: Relay, events: seq<Event>, source: Addr)
    requires AllPossible(events)
    ensures Within(r, Run(r, events), CallsOf(events), source)
    decreases |events|
  {
    if |events| > 0 {
      StepWithin(r, events[0], source);
      RunWithin(Step(r, events[0]), events[1..], source);
      RunCalls(r.limits, CallOf(events[0]), CallsOf(events[1..]), source);
    }
  }

  // ----- bounds -----

  lemma EarlierStart(early: real, at: real, calls: seq<Traffic.Call>)
    requires early <= at && Traffic.Clocked(at, calls)
    ensures Traffic.Clocked(early, calls)
  {
  }

  function Latest(at: real, events: seq<Event>): real {
    if |events| == 0 then at else Seconds(events[|events| - 1].now)
  }

  lemma CallAtItsTime(e: Event)
    ensures CallOf(e) == [] || exists c :: CallOf(e) == [c] && c.now == Seconds(e.now)
  {
  }

  lemma ClockedWith(at: real, c: Traffic.Call, rest: seq<Traffic.Call>)
    requires at <= c.now && Traffic.Clocked(c.now, rest)
    ensures Traffic.Clocked(at, [c] + rest) && Traffic.End(at, [c] + rest) == Traffic.End(c.now, rest)
  {
    assert ([c] + rest)[1..] == rest;
  }

  lemma {:induction false} CallsClocked(at: real, events: seq<Event>)
    requires InTime(at, events)
    ensures Traffic.Clocked(at, CallsOf(events)) && Traffic.End(at, CallsOf(events)) <= Latest(at, events)
    decreases |events|
  {
    if |events| > 0 {
      var e, rest := events[0], events[1..];
      CallsClocked(Seconds(e.now), rest);
      CallAtItsTime(e);
      if CallOf(e) == [] {
        EarlierStart(at, Seconds(e.now), CallsOf(rest));
        assert CallsOf(events) == CallsOf(rest);
      } else {
        var c :| CallOf(e) == [c] && c.now == Seconds(e.now);
        ClockedWith(at, c, CallsOf(rest));
      }
    }
  }

  lemma {:induction false} ClockedFrom(at: real, calls: seq<Traffic.Call>)
    requires Traffic.Clocked(at, calls) && |calls| > 0
    ensures at <= calls[0].now <= calls[|calls| - 1].now
    decreases |calls|
  {
    if |calls| > 1 {
      ClockedFrom(calls[0].now, calls[1..]);
      assert calls[1..][|calls| - 2] == calls[|calls| - 1];
    }
  }

  lemma {:induction false} RunOn(r: Relay, before: seq<Event>, during: seq<Event>)
    requires AllPossible(before) && AllPossible(during)
    ensures AllPossible(before + during) && Run(r, before + during) == Run(Run(r, before), during)
    decreases |before|
  {
    if |before| == 0 {
      assert before + during == during;
    } else {
      assert (before + during)[0] == before[0] && (before + during)[1..] == before[1..] + during;
      RunOn(Step(r, before[0]), before[1..], during);
    }
  }

  /**
    * Main result. Whatever is received from whom and captured on the host, in whatever order: from one event to
    * another T seconds later the packets of one member that are handed to the host's interface are at most
    * 128(1+T), of at most 262144(1+T) bytes, and the frames accepted from everyone are at most 2048(1+T).
    */
  lemma FloodsAreBounded(start: real, before: seq<Event>, during: seq<Event>, source: Addr)
    requires AllPossible(before) && AllPossible(during) && |during| > 0
    requires InTime(start, before) && InTime(Latest(start, before), during)
    ensures var was, now := Run(NewRelay(start), before), Run(NewRelay(start), before + during);
            var seconds := Seconds(during[|during| - 1].now) - Seconds(during[0].now);
            && was.injected <= now.injected
            && (|Sent(now.injected, source)| - |Sent(was.injected, source)|) as real <= 128.0 * (1.0 + seconds)
            && (Octets(Sent(now.injected, source)) - Octets(Sent(was.injected, source))) as real
               <= 262144.0 * (1.0 + seconds)
            && (now.accepted - was.accepted) as real <= 2048.0 * (1.0 + seconds)
  {
    var r, calls := Run(NewRelay(start), before), CallsOf(during);
    RunOn(NewRelay(start), before, during);
    RunWithin(NewRelay(start), before, source);
    RunWithin(r, during, source);
    CallsClocked(start, before);
    CallsClocked(Seconds(during[0].now), during);
    if |calls| > 0 {
      EarlierStart(Traffic.End(start, CallsOf(before)), Seconds(during[0].now), calls);
      ClockedFrom(Seconds(during[0].now), calls);
      Traffic.IntervalBounds(start, CallsOf(before), calls, source);
    }
  }

  // ----- when a frame is carried -----

  /** The answer of the limits after a run, told from the run's events. */
  lemma AnsweredInRun(start: real, before: seq<Event>, e: Event, c: Traffic.Call)
    requires AllPossible(before) && InTime(start, before) && Latest(start, before) <= Seconds(e.now) == c.now
    ensures var past := Past(CallsOf(before));
            Traffic.Allowed(Run(NewRelay(start), before).limits, c.sender, c.size, c.now).1
            <==> past.SenderAffords(c) && past.RoomAffords(c)
  {
    RunWithin(NewRelay(start), before, c.sender);
    CallsClocked(start, before);
    ClockedMore(start, CallsOf(before), c);
    GrantedIffAfforded(start, CallsOf(before), c);
  }

  /**
    * Main result. After any run a frame that comes from a member is carried if and only if it is a frame without the
    * host's flag, under that member's own address, of a listed member, new to the cache, and what the member was
    * charged for and what was granted to all leave room for it. It is then handed to the host's interface once,
    * and sent as it came to everyone else listed.
    */
  lemma CarriedIff(start: real, before: seq<Event>, e: Event)
    requires AllPossible(before) && Possible(e) && e.Receive?
    requires InTime(start, before) && Latest(start, before) <= Seconds(e.now)
    ensures var was, past, frame := Run(NewRelay(start), before), Past(CallsOf(before)), Decode(e.payload);
            var now := Step(was, e);
            var carried :=
              && frame.Some? && frame.value.flags == 0 && frame.value.senderIP == e.source && e.source in e.listed
              && e.seen == Replay.Accepted && e.injects
              && var c := Traffic.Call(e.source, |frame.value.packet|, Seconds(e.now));
                 past.SenderAffords(c) && past.RoomAffords(c);
            if carried then
              && now.injected == was.injected + [frame.value.packet] && now.accepted == was.accepted + 1
              && now.sent == was.sent + Copies(Targets(e.source, e.targets), e.payload)
            else now.injected == was.injected && now.accepted == was.accepted && now.sent == was.sent
  {
    var r := Run(NewRelay(start), before);
    ReceiveCharges(r, e);
    if CallOf(e) != [] {
      AnsweredInRun(start, before, e, CallOf(e)[0]);
    }
    RelayedExactly(r, e.payload, e.source, e.now, e.listed, e.seen, e.injects, e.targets, e.answers, e.source);
  }

  /** Main result. The same of a packet captured on the host: it goes to every member listed, within the limits. */
  lemma HostCarriedIff(start: real, before: seq<Event>, e: Event)
    requires AllPossible(before) && Possible(e) && e.Capture?
    requires InTime(start, before) && Latest(start, before) <= Seconds(e.now)
    ensures var was, past := Run(NewRelay(start), before), Past(CallsOf(before));
            var now, c := Step(was, e), Traffic.Call(HOST_IP, |e.frame.packet|, Seconds(e.now));
            && now.injected == was.injected
            && if && e.frame.flags == HOST_ORIGIN && e.frame.senderIP == HOST_IP
                  && ValidPacket(HOST_IP, e.frame.packet) && past.SenderAffords(c) && past.RoomAffords(c) then
                 && now.accepted == was.accepted + 1
                 && now.sent == was.sent + Copies(Targets(NoAddr, e.targets), Header(e.frame) + e.frame.packet)
               else now.accepted == was.accepted && now.sent == was.sent
  {
    AnsweredInRun(start, before, e, Traffic.Call(HOST_IP, |e.frame.packet|, Seconds(e.now)));
  }

  // ----- what is counted -----

  /** The sends that succeed, by the place in the list. */
  function Reached(sender: Addr, members: seq<Addr>, answers: seq<bool>): set<nat>
    requires |answers| == |members|
  {
    set i: nat | i < |members| && members[i] != sender && members[i] != HOST_IP && ValidSender(members[i]) && answers[i]
  }

  lemma ReachedMore(sender: Addr, members: seq<Addr>, answers: seq<bool>, last: nat)
    requires |answers| == |members| == last + 1
    ensures var before, m := Reached(sender, members[..last], answers[..last]), members[last];
            var reached := m != sender && m != HOST_IP && ValidSender(m) && answers[last];
            Reached(sender, members, answers) == if reached then before + {last} else before
  {
  }

  lemma {:induction false} SuccessesExact(sender: Addr, members: seq<Addr>, answers: seq<bool>)
    requires |answers| == |members|
    ensures Successes(sender, members, answers) == |Reached(sender, members, answers)|
  {
    if |members| == 0 {
      assert Reached(sender, members, answers) == {};
    } else {
      var last := |members| - 1;
      SuccessesExact(sender, members[..last], answers[..last]);
      ReachedMore(sender, members, answers, last);
    }
  }

  /**
    * Main result. Every copy is counted once, as forwarded if its send succeeds and as dropped if not; a payload
    * that is not carried counts as one dropped.
    */
  lemma CopiesAreCounted(r: Relay, e: Event)
    requires Possible(e) && e.Receive?
    ensures var now := Step(r, e);
            if now.accepted > r.accepted then
              && now.forwarded == r.forwarded + |Reached(e.source, e.targets, e.answers)|
              && now.forwarded + now.dropped == r.forwarded + r.dropped + (|now.sent| - |r.sent|)
            else now.forwarded == r.forwarded && now.dropped == r.dropped + 1
  {
    SuccessesExact(e.source, e.targets, e.answers);
    CopiesAt(Targets(e.source, e.targets), e.payload);
    if Decode(e.payload).Some? {
      FrameReprint(e.payload);
    }
  }
}
