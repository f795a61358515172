/** The host's relay of discovery frames: relayCore in internal/discovery/relay.go. */
module RelayCore {
  import opened Bytes
  import opened Discovery
  import Replay
  import Traffic

  predicate Skipped(sender: Addr, m: Addr) {
    m == sender || !ValidSender(m) || m == HOST_IP
  }

  /**
    * The members fanout sends a copy to: every one listed, as often as listed, but the sender, the host and
    * non-members.
    */
  function Targets(sender: Addr, members: seq<Addr>): seq<Addr> {
    if |members| == 0 then []
    else
      var m, before := members[|members| - 1], Targets(sender, members[..|members| - 1]);
      if Skipped(sender, m) then before else before + [m]
  }

  /** Main result: who gets how many copies. */
  lemma {:induction false} TargetsExact(sender: Addr, members: seq<Addr>, m: Addr)
    ensures multiset(Targets(sender, members))[m]
         == if m == sender || m == HOST_IP || !ValidSender(m) then 0 else multiset(members)[m]
  {
    if |members| > 0 {
      var front, last := members[..|members| - 1], members[|members| - 1];
      TargetsExact(sender, front, m);
      assert members == front + [last];
    }
  }

  function Copies(targets: seq<Addr>, payload: seq<Byte>): seq<(Addr, seq<Byte>)> {
    if |targets| == 0 then [] else Copies(targets[..|targets| - 1], payload) + [(targets[|targets| - 1], payload)]
  }

  /** The clock reading, in nanoseconds, as the limits count it. */
  function Seconds(now: int): real {
    now as real / 1000000000.0
  }

  predicate Checked(frame: Frame, source: Addr, listed: seq<Addr>) {
    frame.flags == 0 && frame.senderIP == source && source in listed
  }

  /** How many of the copies are sent: `answers` says of each listed member whether a send to it succeeds. */
  function Successes(sender: Addr, members: seq<Addr>, answers: seq<bool>): (n: nat)
    requires |answers| == |members|
    ensures n <= |Targets(sender, members)|
  {
    if |members| == 0 then 0
    else
      var last := |members| - 1;
      Successes(sender, members[..last], answers[..last])
      + (if !Skipped(sender, members[last]) && answers[last] then 1 else 0)
  }

  /** What the relay has done, beside its replay cache. */
  datatype Relay = Relay(
    limits: Traffic.Limits,
    accepted: nat,
    forwarded: nat,
    dropped: nat,
    // what was handed to the host's own interface, and what was sent to members
    injected: seq<seq<Byte>>,
    sent: seq<(Addr, seq<Byte>)>) {

    /** One send. */
    function SentTo(member: Addr, payload: seq<Byte>, answer: bool): Relay {
      this.(sent := sent + [(member, payload)],
            forwarded := if answer then forwarded + 1 else forwarded,
            dropped := if answer then dropped else dropped + 1)
    }

    /** fanout. */
    function Fanned(sender: Addr, payload: seq<Byte>, members: seq<Addr>, answers: seq<bool>): Relay
      requires |answers| == |members|
    {
      var reached := Successes(sender, members, answers);
      this.(sent := sent + Copies(Targets(sender, members), payload),
            forwarded := forwarded + reached, dropped := dropped + |Targets(sender, members)| - reached)
    }

    /**
      * The checks on a member's frame that the replay cache answers with `seen`: the list, the cache and
      * the limits, in that order.
      */
    function Admitted(frame: Frame, source: Addr, now: int, listed: seq<Addr>, seen: Replay.Answer): (Relay, bool) {
      if !Checked(frame, source, listed) || seen != Replay.Accepted then (this, false)
      else
        var (spent, allowed) := Traffic.Allowed(limits, source, |frame.packet|, Seconds(now));
        (this.(limits := spent), allowed)
    }

    /** member: an admitted frame is injected once and copied to the members listed by then. */
    function Member(frame: Frame, source: Addr, now: int, listed: seq<Addr>, seen: Replay.Answer, injects: bool,
                    targets: seq<Addr>, answers: seq<bool>)
      : (Relay, bool)
      requires |answers| == |targets|
    {
      var (s, admitted) := Admitted(frame, source, now, listed, seen);
      if !admitted || Encoded(frame).None? || !injects then (s, false)
      else
        var counted := s.(injected := injected + [frame.packet], accepted := accepted + 1);
        (counted.Fanned(frame.senderIP, Encoded(frame).value, targets, answers), true)
    }

    /** One round of readRemote: a payload that is no frame, or a frame that is not relayed, counts as dropped. */
    function Received(payload: seq<Byte>, source: Addr, now: int, listed: seq<Addr>, seen: Replay.Answer,
                      injects: bool, targets: seq<Addr>, answers: seq<bool>)
      : (Relay, bool)
      requires |answers| == |targets|
    {
      var frame := Decode(payload);
      if frame.None? then (this.(dropped := dropped + 1), false)
      else
        var (s, ok) := Member(frame.value, source, now, listed, seen, injects, targets, answers);
        if ok then (s, true) else (s.(dropped := s.dropped + 1), false)
    }

    /** host: a frame captured on the host itself. */
    function Host(frame: Frame, now: int, targets: seq<Addr>, answers: seq<bool>): (Relay, bool)
      requires |answers| == |targets|
    {
      if frame.flags != HOST_ORIGIN || frame.senderIP != HOST_IP then (this, false)
      else
        var (spent, allowed) := Traffic.Allowed(limits, frame.senderIP, |frame.packet|, Seconds(now));
        var s := this.(limits := spent);
        if !allowed || Encoded(frame).None? then (s, false)
        else (s.(accepted := accepted + 1).Fanned(NoAddr, Encoded(frame).value, targets, answers), true)
    }
  }

  /** What a checked frame adds to the replay cache's log. */
  function Asked(frame: Frame, source: Addr, now: int, listed: seq<Addr>, seen: Replay.Answer): seq<Replay.Attempt> {
    if Checked(frame, source, listed) then [Replay.Attempt(Replay.Key(source, frame.sequence), now, seen)] else []
  }

  class Core {
    const replay: Replay.ReplayWindow
    const limiter: Traffic.Limiter
    var accepted: nat
    var forwarded: nat
    var dropped: nat
    var injected: seq<seq<Byte>>
    var sent: seq<(Addr, seq<Byte>)>

    ghost predicate Valid()
      reads this, replay
    {
      replay.Valid()
    }

    function View(): Relay
      reads this, limiter
    {
      Relay(limiter.limits, accepted, forwarded, dropped, injected, sent)
    }

    constructor (now: real)
      ensures Valid() && fresh(replay) && fresh(limiter)
      ensures var full := Traffic.Bucket(Traffic.ROOM_PACKETS, Traffic.ROOM_BYTES, now);
              View() == Relay(Traffic.Limits(map[], full), 0, 0, 0, [], [])
      ensures replay.log == [] && replay.max == Replay.CACHE_ENTRIES && replay.ttl == Replay.CACHE_TTL
    {
      replay := new Replay.ReplayWindow(1024, 5_000_000_000);
      limiter := new Traffic.Limiter(now);
      accepted, forwarded, dropped := 0, 0, 0;
      injected, sent := [], [];
    }

    /** One round of the loop over the members. */
    method SendTo(sender: Addr, member: Addr, payload: seq<Byte>, answer: bool)
      modifies this`sent, this`forwarded, this`dropped
      ensures View() == if Skipped(sender, member) then old(View()) else old(View()).SentTo(member, payload, answer)
    {
      if member == sender || !ValidSender(member) || member == HOST_IP {
        return;
      }
      sent := sent + [(member, payload)];
      if answer {
        forwarded := forwarded + 1;
      } else {
        dropped := dropped + 1;
      }
    }

    /** The loop over the members; `answers` says which sends succeed. */
    method Fanout(sender: Addr, payload: seq<Byte>, members: seq<Addr>, answers: seq<bool>)
      requires |answers| == |members|
      modifies this`sent, this`forwarded, this`dropped
      ensures View() == old(View()).Fanned(sender, payload, members, answers)
    {
      for i := 0 to |members|
        invariant View() == old(View()).Fanned(sender, payload, members[..i], answers[..i])
      {
        FannedMore(old(View()), sender, payload, members, answers, i);
        SendTo(sender, members[i], payload, answers[i]);
      }
      assert members[..|members|] == members && answers[..|members|] == answers;
    }

    /** The checks on a frame that came from `source`. */
    method Admit(frame: Frame, source: Addr, now: int, listed: seq<Addr>) returns (ok: bool, ghost seen: Replay.Answer)
      requires Valid()
      modifies replay, limiter
      ensures Valid()
      ensures (View(), ok) == old(View()).Admitted(frame, source, now, listed, seen)
      ensures replay.log == old(replay.log) + Asked(frame, source, now, listed, seen)
    {
      seen := Replay.BadSender;
      if frame.flags != 0 || frame.senderIP != source || source !in listed {
        return false, seen;
      }
      var answer := replay.Accept(source, frame.sequence, now);
      seen := answer;
      if answer != Replay.Accepted {
        return false, seen;
      }
      ok := limiter.Allow(source, |frame.packet|, Seconds(now));
    }

    /** member: what the relay does with a frame, told from the replay cache's answer, which its log has. */
    method Member(frame: Frame, source: Addr, now: int, listed: seq<Addr>, injects: bool, targets: seq<Addr>,
                  answers: seq<bool>)
      returns (ok: bool, ghost seen: Replay.Answer)
      requires Valid() && |answers| == |targets|
      modifies this`injected, this`sent, this`accepted, this`forwarded, this`dropped, replay, limiter
      ensures Valid()
      ensures (View(), ok) == old(View()).Member(frame, source, now, listed, seen, injects, targets, answers)
      ensures replay.log == old(replay.log) + Asked(frame, source, now, listed, seen)
    {
      ok, seen := Admit(frame, source, now, listed);
      if !ok {
        return;
      }
      var payload := Discovery.Encode(frame);
      if payload.None? || !injects {
        return false, seen;
      }
      injected := injected + [frame.packet];
      accepted := accepted + 1;
      Fanout(frame.senderIP, payload.value, targets, answers);
    }

    /** One round of readRemote. */
    method Receive(payload: seq<Byte>, source: Addr, now: int, listed: seq<Addr>, injects: bool, targets: seq<Addr>,
                   answers: seq<bool>)
      returns (ok: bool, ghost seen: Replay.Answer)
      requires Valid() && |answers| == |targets|
      modifies this`injected, this`sent, this`accepted, this`forwarded, this`dropped, replay, limiter
      ensures Valid()
      ensures (View(), ok) == old(View()).Received(payload, source, now, listed, seen, injects, targets, answers)
      ensures var frame := Decode(payload);
              replay.log == old(replay.log) + if frame.Some? then Asked(frame.value, source, now, listed, seen) else []
    {
      seen := Replay.BadSender;
      var frame := Decode(payload);
      if frame.None? {
        dropped := dropped + 1;
        return false, seen;
      }
      ok, seen := Member(frame.value, source, now, listed, injects, targets, answers);
      if !ok {
        dropped := dropped + 1;
      }
    }

    /** A frame captured on the host itself. */
    method Host(frame: Frame, now: int, targets: seq<Addr>, answers: seq<bool>) returns (ok: bool)
      requires Valid() && |answers| == |targets|
      modifies this`sent, this`accepted, this`forwarded, this`dropped, limiter
      ensures Valid()
      ensures (View(), ok) == old(View()).Host(frame, now, targets, answers)
    {
      if frame.flags != HOST_ORIGIN || frame.senderIP != HOST_IP {
        return false;
      }
      var allowed := limiter.Allow(frame.senderIP, |frame.packet|, Seconds(now));
      if !allowed {
        return false;
      }
      var payload := Discovery.Encode(frame);
      if payload.None? {
        return false;
      }
      accepted := accepted + 1;
      Fanout(NoAddr, payload.value, targets, answers);
      return true;
    }
  }

  lemma FannedMore(s: Relay, sender: Addr, payload: seq<Byte>, members: seq<Addr>, answers: seq<bool>, i: nat)
    requires i < |members| == |answers|
    ensures var before, after := s.Fanned(sender, payload, members[..i], answers[..i]),
            s.Fanned(sender, payload, members[..i + 1], answers[..i + 1]);
            after == if Skipped(sender, members[i]) then before else before.SentTo(members[i], payload, answers[i])
  {
    assert members[..i + 1][..i] == members[..i] && answers[..i + 1][..i] == answers[..i];
    CopiesMore(Targets(sender, members[..i]), members[i], payload);
  }

  lemma CopiesMore(targets: seq<Addr>, m: Addr, payload: seq<Byte>)
    ensures Copies(targets + [m], payload) == Copies(targets, payload) + [(m, payload)]
  {
    assert (targets + [m])[..|targets|] == targets;
  }

  /** The copies, looked at one by one. */
  lemma {:induction false} CopiesAt(targets: seq<Addr>, payload: seq<Byte>)
    ensures |Copies(targets, payload)| == |targets|
    ensures forall i :: 0 <= i < |targets| ==> Copies(targets, payload)[i] == (targets[i], payload)
  {
    if |targets| > 0 {
      CopiesAt(targets[..|targets| - 1], payload);
    }
  }

  /**
    * Main result: a member's frame that is relayed is checked, new and within the limits, and goes to
    * everyone else listed, once per listing, unchanged.
    */
  lemma RelayedExactly(s: Relay, payload: seq<Byte>, source: Addr, now: int, listed: seq<Addr>, seen: Replay.Answer,
                       injects: bool, targets: seq<Addr>, answers: seq<bool>, m: Addr)
    requires |answers| == |targets|
    ensures var (after, ok) := s.Received(payload, source, now, listed, seen, injects, targets, answers);
            && (ok <==>
                  && Decode(payload).Some? && Checked(Decode(payload).value, source, listed)
                  && seen == Replay.Accepted && injects
                  && Traffic.Allowed(s.limits, source, |Decode(payload).value.packet|, Seconds(now)).1)
            && (ok ==> && after.injected == s.injected + [Decode(payload).value.packet]
                       && after.sent == s.sent + Copies(Targets(source, targets), payload)
                       && multiset(Targets(source, targets))[m]
                          == if m == source || m == HOST_IP || !ValidSender(m) then 0 else multiset(targets)[m])
            && (!ok ==> after.injected == s.injected && after.sent == s.sent)
  {
    if Decode(payload).Some? {
      FrameReprint(payload);
    }
    TargetsExact(source, targets, m);
  }
}
