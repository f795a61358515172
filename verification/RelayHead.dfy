/**
  * Connections of one application that write through a relay at the same time: the two appends of
  * p2pApp.WriteBytes use the spare room of one buffer, internal/openp2pengine/p2papp.go.
  */
module RelayHead {
  import opened Bytes
  import opened Overlay

  const HEAD: nat := ID_SIZE + HEADER_SIZE

  /** A writer has appended its inner header; then its data too, in the shared memory or in memory of its own. */
  datatype Phase = Headed | Sharing | Holding(all: seq<Byte>)

  datatype Writer = Writer(data: seq<Byte>, phase: Phase)

  /** The memory of the buffer, the writers at work, and for every frame sent its data and its body. */
  datatype Shared = Shared(memory: seq<Byte>, writers: map<nat, Writer>, sent: seq<(seq<Byte>, seq<Byte>)>)

  datatype Event = Start(w: nat, data: seq<Byte>) | Join(w: nat) | Send(w: nat)

  function Overwritten(memory: seq<Byte>, at: nat, bytes: seq<Byte>): (m: seq<Byte>)
    requires at + |bytes| <= |memory|
    ensures |m| == |memory|
  {
    memory[..at] + bytes + memory[at + |bytes|..]
  }

  predicate Enabled(s: Shared, e: Event) {
    match e
    case Start(w, data) => w !in s.writers && |data| < 0x1_0000_0000
    case Join(w) => w in s.writers && s.writers[w].phase.Headed?
    case Send(w) => w in s.writers && !s.writers[w].phase.Headed?
  }

  predicate Fits(data: seq<Byte>) {
    HEAD + |data| <= HEAD_CAPACITY
  }

  /** An event whose time has not come changes nothing. */
  function After(s: Shared, e: Event): Shared
    requires |s.memory| == HEAD_CAPACITY
  {
    if !Enabled(s, e) then s else
      match e
      case Start(w, data) =>
        s.(memory := Overwritten(s.memory, ID_SIZE, EncodeHeader(MSG_P2P, OVERLAY_DATA, |data|)),
          writers := s.writers[w := Writer(data, Headed)])
      case Join(w) =>
        var data := s.writers[w].data;
        if Fits(data) then s.(memory := Overwritten(s.memory, HEAD, data),
          writers := s.writers[w := Writer(data, Sharing)])
        else s.(writers := s.writers[w := Writer(data, Holding(s.memory[..HEAD] + data))])
      case Send(w) =>
        var data := s.writers[w].data;
        var body := if s.writers[w].phase.Holding? then s.writers[w].phase.all
                    else if Fits(data) then s.memory[..HEAD + |data|] else [];
        s.(writers := s.writers - {w}, sent := s.sent + [(data, body)])
  }

  function Run(s: Shared, events: seq<Event>): (after: Shared)
    requires |s.memory| == HEAD_CAPACITY
    ensures |after.memory| == HEAD_CAPACITY
  {
    if |events| == 0 then s else After(Run(s, events[..|events| - 1]), events[|events| - 1])
  }

  /** The body the relay is to get for some data. */
  function Body(rtid: nat, data: seq<Byte>): seq<Byte> {
    ToLE(rtid, ID_SIZE) + Frame(MSG_P2P, OVERLAY_DATA, data)
  }

  function Fresh(rtid: nat, spare: seq<Byte>): Shared {
    Shared(ToLE(rtid, ID_SIZE) + spare, map[], [])
  }

  predicate AllRight(rtid: nat, sent: seq<(seq<Byte>, seq<Byte>)>) {
    forall i :: 0 <= i < |sent| ==> sent[i].1 == Body(rtid, sent[i].0)
  }

  lemma BodyParts(rtid: nat, data: seq<Byte>)
    ensures Body(rtid, data) == ToLE(rtid, ID_SIZE) + EncodeHeader(MSG_P2P, OVERLAY_DATA, |data|) + data
  {
  }

  // ----- one writer at a time -----

  /** What the memory holds while a writer is alone with it. */
  predicate SoundWriter(rtid: nat, memory: seq<Byte>, x: Writer)
    requires |memory| == HEAD_CAPACITY
  {
    match x.phase
    case Headed => memory[..HEAD] == ToLE(rtid, ID_SIZE) + EncodeHeader(MSG_P2P, OVERLAY_DATA, |x.data|)
    case Sharing => Fits(x.data) && memory[..HEAD + |x.data|] == Body(rtid, x.data)
    case Holding(all) => all == Body(rtid, x.data)
  }

  ghost predicate Alone(rtid: nat, s: Shared) {
    && |s.memory| == HEAD_CAPACITY && s.memory[..ID_SIZE] == ToLE(rtid, ID_SIZE) && AllRight(rtid, s.sent)
    && (forall v, w :: v in s.writers && w in s.writers ==> v == w)
    && (forall w :: w in s.writers ==> SoundWriter(rtid, s.memory, s.writers[w]))
  }

  /** Nobody starts while another is at work. */
  predicate Polite(s: Shared, e: Event) {
    e.Start? ==> s.writers == map[]
  }

  lemma OverwrittenParts(memory: seq<Byte>, at: nat, bytes: seq<Byte>)
    requires at + |bytes| <= |memory|
    ensures var m := Overwritten(memory, at, bytes);
            m[..at] == memory[..at] && m[..at + |bytes|] == memory[..at] + bytes
              && m[at + |bytes|..] == memory[at + |bytes|..]
  {
  }

  lemma PoliteStep(rtid: nat, s: Shared, e: Event)
    requires Alone(rtid, s) && Polite(s, e)
    ensures Alone(rtid, After(s, e))
  {
    if Enabled(s, e) {
      match e
      case Start(w, data) =>
        OverwrittenParts(s.memory, ID_SIZE, EncodeHeader(MSG_P2P, OVERLAY_DATA, |data|));
      case Join(w) =>
        var data := s.writers[w].data;
        BodyParts(rtid, data);
        if Fits(data) {
          OverwrittenParts(s.memory, HEAD, data);
        }
      case Send(w) =>
    }
  }

  /**
    * Main result: as long as no connection starts to write while another is writing, every frame the relay
    * gets is the one meant.
    */
  lemma {:induction false} OneAtATime(rtid: nat, spare: seq<Byte>, events: seq<Event>)
    requires |spare| == HEAD_CAPACITY - ID_SIZE
    requires forall i :: 0 <= i < |events| ==> Polite(Run(Fresh(rtid, spare), events[..i]), events[i])
    ensures Alone(rtid, Run(Fresh(rtid, spare), events))
    ensures AllRight(rtid, Run(Fresh(rtid, spare), events).sent)
  {
    if |events| > 0 {
      var front := events[..|events| - 1];
      assert forall i :: 0 <= i < |front| ==> front[..i] == events[..i];
      OneAtATime(rtid, spare, front);
      PoliteStep(rtid, Run(Fresh(rtid, spare), front), events[|events| - 1]);
    }
  }

  // ----- any interleaving -----

  /** The length the last header put into the memory announces. */
  function Announced(s: Shared, events: seq<Event>): Option<nat>
    requires |s.memory| == HEAD_CAPACITY
  {
    if |events| == 0 then None
    else
      var front, e := events[..|events| - 1], events[|events| - 1];
      if e.Start? && Enabled(Run(s, front), e) then Some(|e.data|) else Announced(s, front)
  }

  /** The header in the memory is the one announced last, and every writer has announced one. */
  ghost predicate Tracked(rtid: nat, s: Shared, announced: Option<nat>) {
    && |s.memory| == HEAD_CAPACITY && s.memory[..ID_SIZE] == ToLE(rtid, ID_SIZE)
    && (announced.Some? ==> announced.value < 0x1_0000_0000
                            && s.memory[..HEAD] == ToLE(rtid, ID_SIZE)
                               + EncodeHeader(MSG_P2P, OVERLAY_DATA, announced.value))
    && (announced.None? ==> s.writers == map[])
    && (forall w :: w in s.writers ==> |s.writers[w].data| < 0x1_0000_0000)
    && (forall w :: w in s.writers && s.writers[w].phase.Sharing? ==> Fits(s.writers[w].data))
  }

  lemma TrackedStep(rtid: nat, s: Shared, announced: Option<nat>, e: Event)
    requires Tracked(rtid, s, announced)
    ensures Tracked(rtid, After(s, e), if e.Start? && Enabled(s, e) then Some(|e.data|) else announced)
  {
    if Enabled(s, e) {
      match e
      case Start(w, data) =>
        OverwrittenParts(s.memory, ID_SIZE, EncodeHeader(MSG_P2P, OVERLAY_DATA, |data|));
      case Join(w) =>
        if Fits(s.writers[w].data) {
          OverwrittenParts(s.memory, HEAD, s.writers[w].data);
          assert After(s, e).memory[..ID_SIZE] == After(s, e).memory[..HEAD][..ID_SIZE];
        }
      case Send(w) =>
    }
  }

  lemma {:induction false} RunTracked(rtid: nat, spare: seq<Byte>, events: seq<Event>)
    requires |spare| == HEAD_CAPACITY - ID_SIZE
    ensures Tracked(rtid, Run(Fresh(rtid, spare), events), Announced(Fresh(rtid, spare), events))
  {
    if |events| > 0 {
      var front := events[..|events| - 1];
      RunTracked(rtid, spare, front);
      TrackedStep(rtid, Run(Fresh(rtid, spare), front), Announced(Fresh(rtid, spare), front), events[|events| - 1]);
    }
  }

  lemma HeadersDiffer(m: nat, n: nat)
    requires m < 0x1_0000_0000 && n < 0x1_0000_0000
    ensures EncodeHeader(MSG_P2P, OVERLAY_DATA, m) == EncodeHeader(MSG_P2P, OVERLAY_DATA, n) <==> m == n
  {
    HeaderRoundTrip(MSG_P2P, OVERLAY_DATA, m);
    HeaderRoundTrip(MSG_P2P, OVERLAY_DATA, n);
  }

  /** Data that does not fit goes with a copy of the header there is when it is appended. */
  lemma CopiedRightIff(rtid: nat, s: Shared, announced: nat, data: seq<Byte>)
    requires Tracked(rtid, s, Some(announced)) && |data| < 0x1_0000_0000
    ensures s.memory[..HEAD] + data == Body(rtid, data) <==> announced == |data|
  {
    var id, mine := ToLE(rtid, ID_SIZE), EncodeHeader(MSG_P2P, OVERLAY_DATA, |data|);
    var theirs := EncodeHeader(MSG_P2P, OVERLAY_DATA, announced);
    BodyParts(rtid, data);
    HeadersDiffer(announced, |data|);
    assert (id + theirs + data)[ID_SIZE..HEAD] == theirs && (id + mine + data)[ID_SIZE..HEAD] == mine;
  }

  /** A copy stays as it is until it is sent. */
  lemma {:induction false} CopyStays(s: Shared, w: nat, more: seq<Event>)
    requires |s.memory| == HEAD_CAPACITY && w in s.writers && s.writers[w].phase.Holding? && Send(w) !in more
    ensures w in Run(s, more).writers && Run(s, more).writers[w] == s.writers[w]
  {
    if |more| > 0 {
      CopyStays(s, w, more[..|more| - 1]);
      assert more[|more| - 1] in more;
    }
  }

  lemma {:induction false} RunOn(s: Shared, events: seq<Event>, more: seq<Event>)
    requires |s.memory| == HEAD_CAPACITY
    ensures Run(s, events + more) == Run(Run(s, events), more)
  {
    if |more| == 0 {
      assert events + [] == events;
    } else {
      var front := more[..|more| - 1];
      assert (events + more)[..|events + more| - 1] == events + front;
      RunOn(s, events, front);
    }
  }

  /**
    * Main result: in every interleaving of any number of writers, a frame whose data does not fit the spare
    * room is the one meant if and only if the last header put before its data was appended announces its length.
    */
  lemma LongFrameRightIff(rtid: nat, spare: seq<Byte>, events: seq<Event>, w: nat, more: seq<Event>)
    requires |spare| == HEAD_CAPACITY - ID_SIZE && Send(w) !in more
    requires var s := Run(Fresh(rtid, spare), events);
             w in s.writers && s.writers[w].phase == Headed && !Fits(s.writers[w].data)
    ensures var s0 := Fresh(rtid, spare);
            var data, before := Run(s0, events).writers[w].data, Run(s0, events + [Join(w)] + more);
            && |After(before, Send(w)).sent| == |before.sent| + 1
            && var frame := After(before, Send(w)).sent[|before.sent|];
               frame.0 == data && (frame.1 == Body(rtid, data) <==> Announced(s0, events) == Some(|data|))
  {
    var s0 := Fresh(rtid, spare);
    var s := Run(s0, events);
    RunTracked(rtid, spare, events);
    CopiedRightIff(rtid, s, Announced(s0, events).value, s.writers[w].data);
    JoinedRun(s0, events, w);
    CopyStays(After(s, Join(w)), w, more);
    RunOn(s0, events + [Join(w)], more);
  }

  lemma JoinedRun(s: Shared, events: seq<Event>, w: nat)
    requires |s.memory| == HEAD_CAPACITY
    ensures Run(s, events + [Join(w)]) == After(Run(s, events), Join(w))
  {
    assert (events + [Join(w)])[..|events|] == events;
  }

  /** The byte at place i of the spare room: that of the short data appended last among those longer than i. */
  function LaidByte(s: Shared, events: seq<Event>, i: nat): Byte
    requires |s.memory| == HEAD_CAPACITY && HEAD + i < HEAD_CAPACITY
  {
    if |events| == 0 then s.memory[HEAD + i]
    else
      var front, e := events[..|events| - 1], events[|events| - 1];
      var before := Run(s, front);
      if e.Join? && Enabled(before, e) && Fits(before.writers[e.w].data) && i < |before.writers[e.w].data|
      then before.writers[e.w].data[i]
      else LaidByte(s, front, i)
  }

  lemma LaidStep(s: Shared, e: Event, i: nat)
    requires |s.memory| == HEAD_CAPACITY && HEAD + i < HEAD_CAPACITY
    ensures After(s, e).memory[HEAD + i]
         == if e.Join? && Enabled(s, e) && Fits(s.writers[e.w].data) && i < |s.writers[e.w].data|
            then s.writers[e.w].data[i]
            else s.memory[HEAD + i]
  {
  }

  lemma {:induction false} RunLaid(s: Shared, events: seq<Event>, i: nat)
    requires |s.memory| == HEAD_CAPACITY && HEAD + i < HEAD_CAPACITY
    ensures Run(s, events).memory[HEAD + i] == LaidByte(s, events, i)
  {
    if |events| > 0 {
      var front := events[..|events| - 1];
      RunLaid(s, front, i);
      LaidStep(Run(s, front), events[|events| - 1], i);
    }
  }

  lemma SharedRightIff(rtid: nat, s: Shared, announced: nat, data: seq<Byte>)
    requires Tracked(rtid, s, Some(announced)) && Fits(data)
    ensures s.memory[..HEAD + |data|] == Body(rtid, data)
       <==> announced == |data| && forall i :: 0 <= i < |data| ==> s.memory[HEAD + i] == data[i]
  {
    var there := s.memory[HEAD..HEAD + |data|];
    assert s.memory[..HEAD + |data|] == s.memory[..HEAD] + there;
    assert there == data <==> forall i :: 0 <= i < |data| ==> s.memory[HEAD + i] == data[i];
    SameEnds(s.memory[..HEAD], there, ToLE(rtid, ID_SIZE) + EncodeHeader(MSG_P2P, OVERLAY_DATA, |data|), data);
    BodyParts(rtid, data);
    CopiedRightIff(rtid, s, announced, data);
    SameEnds(s.memory[..HEAD], data, ToLE(rtid, ID_SIZE) + EncodeHeader(MSG_P2P, OVERLAY_DATA, |data|), data);
  }

  lemma SameEnds(a: seq<Byte>, b: seq<Byte>, c: seq<Byte>, d: seq<Byte>)
    requires |a| == |c| && |b| == |d|
    ensures a + b == c + d <==> a == c && b == d
  {
    assert (a + b)[..|a|] == a && (a + b)[|a|..] == b;
    assert (c + d)[..|c|] == c && (c + d)[|c|..] == d;
  }

  /**
    * Main result: in every interleaving, a frame whose data fits the spare room is the one meant if and only if,
    * when it is sent, the last header put announces its length, and each of its bytes is that of the short data
    * appended last among those that reach so far.
    */
  lemma ShortFrameRightIff(rtid: nat, spare: seq<Byte>, events: seq<Event>, w: nat)
    requires |spare| == HEAD_CAPACITY - ID_SIZE
    requires var s := Run(Fresh(rtid, spare), events);
             w in s.writers && s.writers[w].phase == Sharing
    ensures var s0 := Fresh(rtid, spare);
            var s := Run(s0, events);
            var data, sent := s.writers[w].data, After(s, Send(w)).sent;
            && Fits(data) && |sent| == |s.sent| + 1 && sent[|s.sent|].0 == data
            && (sent[|s.sent|].1 == Body(rtid, data)
                <==> && Announced(s0, events) == Some(|data|)
                     && forall i :: 0 <= i < |data| ==> LaidByte(s0, events, i) == data[i])
  {
    var s0 := Fresh(rtid, spare);
    var s := Run(s0, events);
    RunTracked(rtid, spare, events);
    SharedRightIff(rtid, s, Announced(s0, events).value, s.writers[w].data);
    forall i | 0 <= i < |s.writers[w].data|
      ensures s.memory[HEAD + i] == LaidByte(s0, events, i)
    {
      RunLaid(s0, events, i);
    }
  }

  // ----- two writers at once -----

  /** Two writers at once: the first frame goes out under the length of the second. */
  lemma TwoWritersCross(rtid: nat, spare: seq<Byte>, a: seq<Byte>, b: seq<Byte>)
    requires |spare| == HEAD_CAPACITY - ID_SIZE && |a| == 100 && |b| == 60
    ensures var sent := After(Run(Fresh(rtid, spare), [Start(1, a), Start(2, b)] + [Join(1)] + []), Send(1)).sent;
            |sent| == 1 && sent[0].0 == a && sent[0].1 != Body(rtid, a)
  {
    var s0, events := Fresh(rtid, spare), [Start(1, a), Start(2, b)];
    var s1 := After(s0, Start(1, a));
    assert events[..1] == [Start(1, a)] && events[..1][..0] == [];
    assert Run(s0, [Start(1, a)]) == s1;
    assert Run(s0, events) == After(s1, Start(2, b)) && Announced(s0, events) == Some(60);
    JoinedRun(s0, events, 1);
    RunOn(s0, events + [Join(1)], []);
    LongFrameRightIff(rtid, spare, events, 1, []);
  }

  /** Two short writers of one length: the first sends the second's data, in a frame that is well formed. */
  lemma ShortWritersSwap(rtid: nat, spare: seq<Byte>, a: seq<Byte>, b: seq<Byte>)
    requires |spare| == HEAD_CAPACITY - ID_SIZE && |a| == |b| && Fits(b) && a != b
    ensures var sent := After(Run(Fresh(rtid, spare), [Start(1, a), Join(1), Start(2, b), Join(2)]), Send(1)).sent;
            |sent| == 1 && sent[0] == (a, Body(rtid, b)) && Body(rtid, b) != Body(rtid, a)
  {
    var s0, events := Fresh(rtid, spare), [Start(1, a), Join(1), Start(2, b), Join(2)];
    var s1 := After(s0, Start(1, a));
    var s2 := After(s1, Join(1));
    var s3 := After(s2, Start(2, b));
    FourEvents(s0, Start(1, a), Join(1), Start(2, b), Join(2));
    assert s3.writers == map[1 := Writer(a, Sharing), 2 := Writer(b, Headed)];
    JoinedOver(rtid, s3, b);
    BodyParts(rtid, a);
    BodyParts(rtid, b);
    assert Body(rtid, a)[HEAD..] == a && Body(rtid, b)[HEAD..] == b;
  }

  lemma FourEvents(s: Shared, e1: Event, e2: Event, e3: Event, e4: Event)
    requires |s.memory| == HEAD_CAPACITY
    ensures Run(s, [e1, e2, e3]) == After(After(After(s, e1), e2), e3)
    ensures Run(s, [e1, e2, e3, e4]) == After(After(After(After(s, e1), e2), e3), e4)
  {
    assert [e1, e2, e3, e4][..3] == [e1, e2, e3] && [e1, e2, e3][..2] == [e1, e2] && [e1, e2][..1] == [e1];
    assert Run(s, [e1]) == After(s, e1) && Run(s, [e1, e2]) == After(After(s, e1), e2);
  }

  /** The second writer's append leaves its own frame in the memory. */
  lemma JoinedOver(rtid: nat, s: Shared, b: seq<Byte>)
    requires |s.memory| == HEAD_CAPACITY && Fits(b) && 2 in s.writers && s.writers[2] == Writer(b, Headed)
    requires s.memory[..HEAD] == ToLE(rtid, ID_SIZE) + EncodeHeader(MSG_P2P, OVERLAY_DATA, |b|)
    ensures After(s, Join(2)).memory[..HEAD + |b|] == Body(rtid, b)
  {
    OverwrittenParts(s.memory, HEAD, b);
    BodyParts(rtid, b);
  }
}
