/**
  * The overlay data path: the framing of protocol.go and underlay.go, the sending half of overlay.go and
  * p2papp.go, the receiving half of p2ptunnel.go and the relay of p2pnetwork.go, under internal/openp2pengine.
  */
module Overlay {
  import opened Bytes
  import opened Cbc

  const MSG_P2P: nat := 4
  const OVERLAY_DATA: nat := 9
  const RELAY_DATA: nat := 10
  const HEADER_SIZE: nat := 8
  const ID_SIZE: nat := 8
  // what bytes.Buffer first allocates
  const HEAD_CAPACITY: nat := 64

  // ----- frames -----

  datatype Header = Header(dataLen: nat, mainType: nat, subType: nat)

  function EncodeHeader(mainType: nat, subType: nat, len: nat): (b: seq<Byte>)
    ensures |b| == HEADER_SIZE
  {
    ToLE(len, 4) + ToLE(mainType, 2) + ToLE(subType, 2)
  }

  function DecodeHeader(b: seq<Byte>): Header
    requires |b| == HEADER_SIZE
  {
    Header(FromLE(b[..4]), FromLE(b[4..6]), FromLE(b[6..8]))
  }

  /** The header decodes to what it was made from, as long as the fields fit their widths, and only then. */
  lemma HeaderRoundTrip(mainType: nat, subType: nat, len: nat)
    ensures DecodeHeader(EncodeHeader(mainType, subType, len)) == Header(len, mainType, subType)
            <==> len < 0x1_0000_0000 && mainType < 0x1_0000 && subType < 0x1_0000
  {
    var b := EncodeHeader(mainType, subType, len);
    assert b[..4] == ToLE(len, 4) && b[4..6] == ToLE(mainType, 2) && b[6..8] == ToLE(subType, 2);
    Widths();
    LEOfBytes(b[..4]);
    LEOfBytes(b[4..6]);
    LEOfBytes(b[6..8]);
    if len < 0x1_0000_0000 && mainType < 0x1_0000 && subType < 0x1_0000 {
      LEOfInt(len, 4);
      LEOfInt(mainType, 2);
      LEOfInt(subType, 2);
    }
  }

  function Frame(mainType: nat, subType: nat, data: seq<Byte>): seq<Byte> {
    EncodeHeader(mainType, subType, |data|) + data
  }

  // ----- sending -----

  /** PreCalcKeyBytes: the number twice, as an AES key. */
  function KeyBytes(key: nat): (b: seq<Byte>)
    ensures |b| == 16
  {
    ToLE(key, 8) + ToLE(key, 8)
  }

  /** The only sixteen bytes that hold the number in both halves, so every key has AES bytes of its own. */
  lemma KeyBytesUnique(key: nat, b: seq<Byte>)
    requires key < 0x1_0000_0000_0000_0000 && |b| == 16
    ensures FromLE(b[..8]) == key && FromLE(b[8..]) == key <==> b == KeyBytes(key)
  {
    Widths();
    LEOfInt(key, 8);
    LEOfBytes(b[..8]);
    LEOfBytes(b[8..]);
    assert b == b[..8] + b[8..];
    assert KeyBytes(key)[..8] == ToLE(key, 8) && KeyBytes(key)[8..] == ToLE(key, 8);
  }

  /** What a key means to encryptBytes; 0 is no key. */
  function CipherOf(aes: seq<Byte> -> Cipher, key: nat): Option<Cipher> {
    if key == 0 then None else Some(aes(KeyBytes(key)))
  }

  ghost predicate Aes(aes: seq<Byte> -> Cipher) {
    forall k: seq<Byte> :: Inverse(aes(k))
  }

  function Payload(aes: seq<Byte> -> Cipher, key: nat, chunk: seq<Byte>): seq<Byte> {
    var c := CipherOf(aes, key);
    if c.Some? then Sealed(c.value, chunk) else chunk
  }

  /** One read of an overlay connection, on its way. */
  datatype Chunk = Chunk(id: nat, key: nat, data: seq<Byte>)

  /** The frame the far end is to see. */
  function DataFrame(aes: seq<Byte> -> Cipher, c: Chunk): seq<Byte> {
    Frame(MSG_P2P, OVERLAY_DATA, ToLE(c.id, ID_SIZE) + Payload(aes, c.key, c.data))
  }

  /** What p2pApp.WriteBytes writes: the frame itself, or the frame inside one for the relay. */
  function Sent(aes: seq<Byte> -> Cipher, rtid: Option<nat>, c: Chunk): seq<Byte> {
    if rtid.None? then DataFrame(aes, c) else Frame(MSG_P2P, RELAY_DATA, ToLE(rtid.value, ID_SIZE) + DataFrame(aes, c))
  }

  function SentAll(aes: seq<Byte> -> Cipher, rtid: Option<nat>, chunks: seq<Chunk>): seq<Byte> {
    if |chunks| == 0 then [] else Sent(aes, rtid, chunks[0]) + SentAll(aes, rtid, chunks[1..])
  }

  // ----- receiving -----

  /** An overlay connection at the receiving node; `written` is everything written to its socket. */
  datatype Conn = Conn(key: nat, running: bool, written: seq<Byte>)

  /** A node: its overlay connections, and everything written to each of its tunnels by the relay. */
  datatype Node = Node(conns: map<nat, Conn>, tunnels: map<nat, seq<Byte>>)

  /** Ended is the normal end of the loop; Crashed is a run-time panic. */
  datatype Status = Reading | Ended | Crashed

  function Deliver(n: Node, id: nat, data: seq<Byte>): Node {
    if id in n.conns && n.conns[id].running then
      n.(conns := n.conns[id := n.conns[id].(written := n.conns[id].written + data)])
    else n
  }

  function HandleOverlayData(aes: seq<Byte> -> Cipher, n: Node, body: seq<Byte>): (Node, Status) {
    if |body| < ID_SIZE then (n, Reading)
    else
      var id, payload := FromLE(body[..8]), body[8..];
      if id !in n.conns then (n, Reading)
      else
        var c := CipherOf(aes, n.conns[id].key);
        if c.None? then (Deliver(n, id, payload), Reading)
        else if !Openable(|payload|) then (n, Crashed)
        else
          var plain := Opened(c.value, payload);
          (Deliver(n, id, if plain.Some? then plain.value else []), Reading)
  }

  function HandleRelayData(n: Node, body: seq<Byte>): Node {
    if |body| < ID_SIZE then n
    else
      var to := FromLE(body[..8]);
      if to !in n.tunnels then n else n.(tunnels := n.tunnels[to := n.tunnels[to] + body[8..]])
  }

  /** The data cases of readLoop; the others leave the data path alone. */
  function Handle(aes: seq<Byte> -> Cipher, n: Node, head: Header, body: seq<Byte>): (Node, Status) {
    if head.mainType != MSG_P2P then (n, Reading)
    else if head.subType == OVERLAY_DATA then HandleOverlayData(aes, n, body)
    else if head.subType == RELAY_DATA then (HandleRelayData(n, body), Reading)
    else (n, Reading)
  }

  /** One ReadBuffer: the header, the body and what is left; None ends the loop. */
  function ReadFrame(stream: seq<Byte>): (r: Option<(Header, seq<Byte>, seq<Byte>)>)
    ensures r.Some? ==> |r.value.2| < |stream|
  {
    if |stream| < HEADER_SIZE then None
    else
      var head := DecodeHeader(stream[..8]);
      if head.mainType > 16 || |stream| < HEADER_SIZE + head.dataLen then None
      else Some((head, stream[8..8 + head.dataLen], stream[8 + head.dataLen..]))
  }

  /** readLoop on everything its connection ever delivers. */
  function ReadLoop(aes: seq<Byte> -> Cipher, n: Node, stream: seq<Byte>): (Node, Status)
    decreases |stream|
  {
    var r := ReadFrame(stream);
    if r.None? then (n, Ended)
    else
      var (after, status) := Handle(aes, n, r.value.0, r.value.1);
      if status == Reading then ReadLoop(aes, after, r.value.2) else (after, status)
  }

  // ----- when the loop crashes -----

  /** The frames the loop would read, whatever they make it do. */
  function Frames(stream: seq<Byte>): seq<(Header, seq<Byte>)>
    decreases |stream|
  {
    var r := ReadFrame(stream);
    if r.None? then [] else [(r.value.0, r.value.1)] + Frames(r.value.2)
  }

  /** A data frame for a known connection with a key, of a size the decrypter does not take. */
  predicate Poison(n: Node, frame: (Header, seq<Byte>)) {
    && frame.0.mainType == MSG_P2P && frame.0.subType == OVERLAY_DATA && |frame.1| >= ID_SIZE
    && var id := FromLE(frame.1[..8]);
       id in n.conns && n.conns[id].key != 0 && !Openable(|frame.1| - ID_SIZE)
  }

  /** Delivering and relaying change no connection's key. */
  lemma HandleKeepsKeys(aes: seq<Byte> -> Cipher, n: Node, frame: (Header, seq<Byte>))
    ensures var (after, status) := Handle(aes, n, frame.0, frame.1);
            && (status == Crashed <==> Poison(n, frame)) && status != Ended
            && after.conns.Keys == n.conns.Keys && forall id :: id in n.conns ==> after.conns[id].key == n.conns[id].key
  {
  }

  /** Main result: the loop panics exactly when some frame of its stream is one the decrypter does not take. */
  lemma {:induction false} CrashesIff(aes: seq<Byte> -> Cipher, n: Node, stream: seq<Byte>)
    ensures ReadLoop(aes, n, stream).1 == Crashed <==> exists f :: f in Frames(stream) && Poison(n, f)
    ensures ReadLoop(aes, n, stream).1 != Crashed ==> ReadLoop(aes, n, stream).1 == Ended
    decreases |stream|
  {
    var r := ReadFrame(stream);
    if r.Some? {
      var frame, rest := (r.value.0, r.value.1), r.value.2;
      var after := Handle(aes, n, frame.0, frame.1).0;
      HandleKeepsKeys(aes, n, frame);
      CrashesIff(aes, after, rest);
      assert forall f :: Poison(after, f) <==> Poison(n, f);
      assert Frames(stream) == [frame] + Frames(rest);
    }
  }

  // ----- whom a stream reaches -----

  /** The frame is data for the connection, or something to pass on over the tunnel. */
  predicate IsFor(frame: (Header, seq<Byte>), subType: nat, id: nat) {
    && frame.0.mainType == MSG_P2P && frame.0.subType == subType && |frame.1| >= 8 && FromLE(frame.1[..8]) == id
  }

  /** Nothing but the tunnel and the running connection a frame names is touched. */
  lemma HandleTouches(aes: seq<Byte> -> Cipher, n: Node, frame: (Header, seq<Byte>), id: nat)
    ensures var after := Handle(aes, n, frame.0, frame.1).0;
            && (id in after.conns <==> id in n.conns) && (id in after.tunnels <==> id in n.tunnels)
            && (id in n.conns && (!n.conns[id].running || !IsFor(frame, 9, id)) ==> after.conns[id] == n.conns[id])
            && (id in n.tunnels ==>
                  after.tunnels[id] == n.tunnels[id] + (if IsFor(frame, 10, id) then frame.1[8..] else []))
  {
  }

  /** What the frames are to pass on over the tunnel. */
  function PassedOn(frames: seq<(Header, seq<Byte>)>, id: nat): seq<Byte> {
    if |frames| == 0 then []
    else (if IsFor(frames[0], 10, id) then frames[0].1[8..] else []) + PassedOn(frames[1..], id)
  }

  lemma FramesOf(stream: seq<Byte>, frame: (Header, seq<Byte>), rest: seq<Byte>)
    requires ReadFrame(stream) == Some((frame.0, frame.1, rest))
    ensures Frames(stream) == [frame] + Frames(rest)
    ensures Frames(stream)[0] == frame && Frames(stream)[1..] == Frames(rest)
  {
  }

  /**
    * Main result. Whatever a stream holds, a connection that is closed, or that none of its frames is data for, is left
    * as it was, and so is who there is.
    */
  lemma {:induction false} OthersUntouched(aes: seq<Byte> -> Cipher, n: Node, stream: seq<Byte>, id: nat)
    ensures var after := ReadLoop(aes, n, stream).0;
            && (id in after.conns <==> id in n.conns) && (id in after.tunnels <==> id in n.tunnels)
            && (id in n.conns && (!n.conns[id].running || !exists f :: f in Frames(stream) && IsFor(f, 9, id))
                ==> after.conns[id] == n.conns[id])
    decreases |stream|
  {
    var r := ReadFrame(stream);
    if r.Some? {
      var frame, rest := (r.value.0, r.value.1), r.value.2;
      var (after, status) := Handle(aes, n, frame.0, frame.1);
      HandleTouches(aes, n, frame, id);
      FramesOf(stream, frame, rest);
      assert frame in Frames(stream) && forall f :: f in Frames(rest) ==> f in Frames(stream);
      OthersUntouched(aes, after, rest, id);
    }
  }

  /** A loop that does not panic goes on with the next frame. */
  lemma LoopOn(aes: seq<Byte> -> Cipher, n: Node, stream: seq<Byte>, frame: (Header, seq<Byte>), rest: seq<Byte>)
    requires ReadFrame(stream) == Some((frame.0, frame.1, rest)) && ReadLoop(aes, n, stream).1 != Crashed
    ensures ReadLoop(aes, n, stream) == ReadLoop(aes, Handle(aes, n, frame.0, frame.1).0, rest)
  {
    HandleKeepsKeys(aes, n, frame);
  }

  lemma TunnelStep(aes: seq<Byte> -> Cipher, n: Node, frame: (Header, seq<Byte>), frames: seq<(Header, seq<Byte>)>,
                   id: nat)
    requires id in n.tunnels
    ensures var after := Handle(aes, n, frame.0, frame.1).0;
            && id in after.tunnels
            && after.tunnels[id] + PassedOn(frames, id) == n.tunnels[id] + PassedOn([frame] + frames, id)
  {
    HandleTouches(aes, n, frame, id);
    PassedFirst(frame, frames, id);
  }

  /**
    * Main result. A tunnel is written exactly what the frames that name it carry, in their order, unless the loop
    * panics.
    */
  lemma {:induction false} TunnelGets(aes: seq<Byte> -> Cipher, n: Node, stream: seq<Byte>, id: nat)
    requires id in n.tunnels && ReadLoop(aes, n, stream).1 != Crashed
    ensures var after := ReadLoop(aes, n, stream).0;
            id in after.tunnels && after.tunnels[id] == n.tunnels[id] + PassedOn(Frames(stream), id)
    decreases |stream|
  {
    var r := ReadFrame(stream);
    if r.Some? {
      var frame, rest := (r.value.0, r.value.1), r.value.2;
      LoopOn(aes, n, stream, frame, rest);
      FramesOf(stream, frame, rest);
      TunnelStep(aes, n, frame, Frames(rest), id);
      TunnelGets(aes, Handle(aes, n, frame.0, frame.1).0, rest, id);
    }
  }

  lemma PassedFirst(frame: (Header, seq<Byte>), frames: seq<(Header, seq<Byte>)>, id: nat)
    ensures PassedOn([frame] + frames, id)
         == (if IsFor(frame, 10, id) then frame.1[8..] else []) + PassedOn(frames, id)
  {
    assert ([frame] + frames)[1..] == frames;
  }

  // ----- transparency -----

  /** The chunk can be read at the receiving node. */
  predicate Readable(n: Node, c: Chunk) {
    && c.id < 0x1_0000_0000_0000_0000 && |c.data| <= READ_BUFFER
    && c.id in n.conns && n.conns[c.id].running && n.conns[c.id].key == c.key
  }

  predicate AllReadable(n: Node, chunks: seq<Chunk>) {
    forall i :: 0 <= i < |chunks| ==> Readable(n, chunks[i])
  }

  lemma FrameIsRead(subType: nat, data: seq<Byte>, rest: seq<Byte>)
    requires subType < 0x1_0000 && |data| < 0x1_0000_0000
    ensures ReadFrame(Frame(MSG_P2P, subType, data) + rest) == Some((Header(|data|, MSG_P2P, subType), data, rest))
  {
    var head := EncodeHeader(MSG_P2P, subType, |data|);
    var stream := Frame(MSG_P2P, subType, data) + rest;
    HeaderRoundTrip(MSG_P2P, subType, |data|);
    assert stream == head + (data + rest);
    assert stream[..8] == head && stream[8..8 + |data|] == data && stream[8 + |data|..] == rest;
  }

  lemma BodyParts(id: nat, payload: seq<Byte>)
    requires id < 0x1_0000_0000_0000_0000
    ensures var body := ToLE(id, ID_SIZE) + payload;
            FromLE(body[..8]) == id && body[8..] == payload
  {
    var body := ToLE(id, ID_SIZE) + payload;
    assert body[..8] == ToLE(id, ID_SIZE) && body[8..] == payload;
    Widths();
    LEOfInt(id, 8);
  }

  /** A data frame delivers its chunk. */
  lemma DataIsDelivered(aes: seq<Byte> -> Cipher, n: Node, c: Chunk)
    requires Aes(aes) && Readable(n, c)
    ensures HandleOverlayData(aes, n, ToLE(c.id, ID_SIZE) + Payload(aes, c.key, c.data))
            == (Deliver(n, c.id, c.data), Reading)
  {
    var payload := Payload(aes, c.key, c.data);
    BodyParts(c.id, payload);
    if c.key != 0 {
      FitsBuffer(|c.data|);
      OpenSealed(aes(KeyBytes(c.key)), c.data);
    }
  }

  lemma DataFrameIsRead(aes: seq<Byte> -> Cipher, n: Node, c: Chunk, more: seq<Byte>)
    requires Aes(aes) && Readable(n, c)
    ensures ReadLoop(aes, n, DataFrame(aes, c) + more) == ReadLoop(aes, Deliver(n, c.id, c.data), more)
  {
    FrameIsRead(OVERLAY_DATA, ToLE(c.id, ID_SIZE) + Payload(aes, c.key, c.data), more);
    DataIsDelivered(aes, n, c);
  }

  function DeliverAll(n: Node, chunks: seq<Chunk>): Node
    decreases |chunks|
  {
    if |chunks| == 0 then n else DeliverAll(Deliver(n, chunks[0].id, chunks[0].data), chunks[1..])
  }

  lemma StillReadable(n: Node, chunks: seq<Chunk>)
    requires |chunks| > 0 && AllReadable(n, chunks)
    ensures AllReadable(Deliver(n, chunks[0].id, chunks[0].data), chunks[1..])
  {
    forall i | 0 <= i < |chunks| - 1
      ensures Readable(Deliver(n, chunks[0].id, chunks[0].data), chunks[1..][i])
    {
      assert Readable(n, chunks[i + 1]);
    }
  }

  lemma {:induction false} StreamIsDelivered(aes: seq<Byte> -> Cipher, n: Node, chunks: seq<Chunk>, rest: seq<Byte>)
    requires Aes(aes) && AllReadable(n, chunks)
    ensures ReadLoop(aes, n, SentAll(aes, None, chunks) + rest) == ReadLoop(aes, DeliverAll(n, chunks), rest)
    decreases |chunks|
  {
    if |chunks| == 0 {
      assert [] + rest == rest;
    } else {
      var more := SentAll(aes, None, chunks[1..]) + rest;
      assert SentAll(aes, None, chunks) + rest == DataFrame(aes, chunks[0]) + more;
      DataFrameIsRead(aes, n, chunks[0], more);
      StillReadable(n, chunks);
      StreamIsDelivered(aes, Deliver(n, chunks[0].id, chunks[0].data), chunks[1..], rest);
    }
  }

  /** The plaintext read for one overlay connection. */
  function PlainOf(chunks: seq<Chunk>, id: nat): seq<Byte> {
    if |chunks| == 0 then [] else (if chunks[0].id == id then chunks[0].data else []) + PlainOf(chunks[1..], id)
  }

  lemma {:induction false} DeliveredPlain(n: Node, chunks: seq<Chunk>, id: nat)
    requires AllReadable(n, chunks)
    ensures DeliverAll(n, chunks).tunnels == n.tunnels && (id in DeliverAll(n, chunks).conns <==> id in n.conns)
    ensures id in n.conns ==>
              DeliverAll(n, chunks).conns[id] == n.conns[id].(written := n.conns[id].written + PlainOf(chunks, id))
    decreases |chunks|
  {
    if |chunks| > 0 {
      StillReadable(n, chunks);
      assert Readable(n, chunks[0]);
      DeliveredPlain(Deliver(n, chunks[0].id, chunks[0].data), chunks[1..], id);
    } else if id in n.conns {
      assert n.conns[id].written + [] == n.conns[id].written;
    }
  }

  /** `after` is `far` with every chunk's plaintext written to its connection, in order. */
  ghost predicate HasDelivered(far: Node, chunks: seq<Chunk>, after: Node) {
    && after.tunnels == far.tunnels && after.conns.Keys == far.conns.Keys
    && forall id :: id in far.conns ==>
         after.conns[id] == far.conns[id].(written := far.conns[id].written + PlainOf(chunks, id))
  }

  /**
    * Main result: over a direct tunnel, what the far end writes to each overlay connection is what was
    * read for it at the near end, in order, however the connections' chunks are interleaved.
    */
  lemma DirectIsTransparent(aes: seq<Byte> -> Cipher, far: Node, chunks: seq<Chunk>)
    requires Aes(aes) && AllReadable(far, chunks)
    ensures var (after, status) := ReadLoop(aes, far, SentAll(aes, None, chunks));
            status == Ended && HasDelivered(far, chunks, after)
  {
    StreamIsDelivered(aes, far, chunks, []);
    assert SentAll(aes, None, chunks) + [] == SentAll(aes, None, chunks);
    forall id
      ensures id in DeliverAll(far, chunks).conns <==> id in far.conns
      ensures DeliverAll(far, chunks).tunnels == far.tunnels
      ensures id in far.conns ==>
                DeliverAll(far, chunks).conns[id]
                  == far.conns[id].(written := far.conns[id].written + PlainOf(chunks, id))
    {
      DeliveredPlain(far, chunks, id);
    }
  }

  function Forward(relay: Node, rtid: nat, data: seq<Byte>): Node
    requires rtid in relay.tunnels
  {
    relay.(tunnels := relay.tunnels[rtid := relay.tunnels[rtid] + data])
  }

  lemma RelayFrameIsRead(aes: seq<Byte> -> Cipher, relay: Node, rtid: nat, c: Chunk, more: seq<Byte>)
    requires rtid < 0x1_0000_0000_0000_0000 && rtid in relay.tunnels && |c.data| <= READ_BUFFER
    ensures ReadLoop(aes, relay, Sent(aes, Some(rtid), c) + more)
            == ReadLoop(aes, Forward(relay, rtid, DataFrame(aes, c)), more)
  {
    var inner := DataFrame(aes, c);
    FrameIsRead(RELAY_DATA, ToLE(rtid, ID_SIZE) + inner, more);
    BodyParts(rtid, inner);
  }

  lemma ForwardTwice(relay: Node, rtid: nat, a: seq<Byte>, b: seq<Byte>)
    requires rtid in relay.tunnels
    ensures Forward(Forward(relay, rtid, a), rtid, b) == Forward(relay, rtid, a + b)
    ensures Forward(relay, rtid, []) == relay
  {
    assert relay.tunnels[rtid] + a + b == relay.tunnels[rtid] + (a + b);
    assert relay.tunnels[rtid] + [] == relay.tunnels[rtid];
    assert relay.tunnels[rtid := relay.tunnels[rtid]] == relay.tunnels;
    assert relay.tunnels[rtid := relay.tunnels[rtid] + a][rtid := relay.tunnels[rtid] + (a + b)]
        == relay.tunnels[rtid := relay.tunnels[rtid] + (a + b)];
  }

  /** The relay hop hands on the inner frames unchanged. */
  lemma {:induction false} RelayForwards(aes: seq<Byte> -> Cipher, relay: Node, rtid: nat, chunks: seq<Chunk>)
    requires rtid < 0x1_0000_0000_0000_0000 && rtid in relay.tunnels
    requires forall i :: 0 <= i < |chunks| ==> |chunks[i].data| <= READ_BUFFER
    ensures ReadLoop(aes, relay, SentAll(aes, Some(rtid), chunks))
            == (Forward(relay, rtid, SentAll(aes, None, chunks)), Ended)
    decreases |chunks|
  {
    if |chunks| == 0 {
      ForwardTwice(relay, rtid, [], []);
    } else {
      var inner := DataFrame(aes, chunks[0]);
      RelayFrameIsRead(aes, relay, rtid, chunks[0], SentAll(aes, Some(rtid), chunks[1..]));
      RelayForwards(aes, Forward(relay, rtid, inner), rtid, chunks[1..]);
      ForwardTwice(relay, rtid, inner, SentAll(aes, None, chunks[1..]));
    }
  }

  /** Main result: through one relay hop it is the same, and no other tunnel of the relay carries any of it. */
  lemma RelayedIsTransparent(aes: seq<Byte> -> Cipher, relay: Node, rtid: nat, far: Node, chunks: seq<Chunk>)
    requires Aes(aes) && AllReadable(far, chunks)
    requires rtid < 0x1_0000_0000_0000_0000 && rtid in relay.tunnels && relay.tunnels[rtid] == []
    ensures var (hop, hopStatus) := ReadLoop(aes, relay, SentAll(aes, Some(rtid), chunks));
            && hopStatus == Ended && rtid in hop.tunnels && hop.conns == relay.conns
            && (forall to :: to in relay.tunnels && to != rtid
                   ==> to in hop.tunnels && hop.tunnels[to] == relay.tunnels[to])
            && var (after, status) := ReadLoop(aes, far, hop.tunnels[rtid]);
               status == Ended && HasDelivered(far, chunks, after)
  {
    assert forall i :: 0 <= i < |chunks| ==> Readable(far, chunks[i]);
    RelayForwards(aes, relay, rtid, chunks);
    assert [] + SentAll(aes, None, chunks) == SentAll(aes, None, chunks);
    DirectIsTransparent(aes, far, chunks);
  }
}
