/** The loops around the overlay data path, over connections that read and write in pieces. */
module OverlayIO {
  import opened Buffers
  import opened Bytes
  import opened Cbc
  import opened Overlay
  import opened Streams

  /** DefaultReadBuffer. */
  method ReadBuffer(conn: Source) returns (r: Option<(Header, seq<Byte>)>)
    modifies conn
    ensures r.Some? <==> ReadFrame(old(conn.incoming)).Some?
    ensures r.Some? ==> ReadFrame(old(conn.incoming)).value == (r.value.0, r.value.1, conn.incoming)
  {
    var headBuf := new Byte[HEADER_SIZE];
    var ok := conn.ReadFull(headBuf);
    if !ok {
      return None;
    }
    var head := DecodeHeader(headBuf[..]);
    if head.mainType > 16 {
      return None;
    }
    var dataBuf := new Byte[head.dataLen];
    ok := conn.ReadFull(dataBuf);
    if !ok {
      return None;
    }
    assert old(conn.incoming)[8..][..head.dataLen] == old(conn.incoming)[8..8 + head.dataLen];
    assert old(conn.incoming)[8..][head.dataLen..] == old(conn.incoming)[8 + head.dataLen..];
    return Some((head, dataBuf[..]));
  }

  /** DefaultWriteBytes. */
  method WriteFrame(w: Sink, mainType: nat, subType: nat, data: seq<Byte>)
    modifies w
    ensures w.written == old(w.written) + Frame(mainType, subType, data)
  {
    WriteFull(w, EncodeHeader(mainType, subType, |data|) + data);
  }

  const AES_KEY_SIZE: nat := 16

  class App {
    const aes: seq<Byte> -> Cipher
    const key: nat
    const tunnel: Sink
    // set for an application that reaches its peer through a relay
    var rtid: Option<nat>
    // the memory of the buffer that holds the relay header: eight bytes, and room that appends may use
    var relayHead: array<Byte>
    var appKeyBytes: seq<Byte>

    predicate Valid()
      reads this, relayHead
    {
      && (key != 0 ==> appKeyBytes == KeyBytes(key))
      && relayHead.Length == HEAD_CAPACITY
      && (rtid.Some? ==> relayHead[..ID_SIZE] == ToLE(rtid.value, ID_SIZE))
    }

    constructor (aes: seq<Byte> -> Cipher, key: nat, tunnel: Sink)
      requires key < 0x1_0000_0000_0000_0000
      ensures Valid() && this.aes == aes && this.key == key && this.tunnel == tunnel && rtid == None && fresh(relayHead)
    {
      this.aes, this.key, this.tunnel := aes, key, tunnel;
      rtid, relayHead := None, new Byte[HEAD_CAPACITY];
      appKeyBytes := [];
      new;
      PreCalcKeyBytes();
      if key != 0 {
        KeyBytesUnique(key, appKeyBytes);
      }
    }

    /** Sixteen bytes of which either half reads back as the key. */
    method PreCalcKeyBytes()
      requires key < 0x1_0000_0000_0000_0000
      modifies this`appKeyBytes
      ensures key != 0 ==> |appKeyBytes| == 16 && FromLE(appKeyBytes[..8]) == key && FromLE(appKeyBytes[8..]) == key
      ensures key == 0 ==> appKeyBytes == old(appKeyBytes)
    {
      if key != 0 {
        var encryptKey := new Byte[AES_KEY_SIZE];
        var half := ToLE(key, 8);
        CopyInto(encryptKey, 0, half);
        assert encryptKey[..8] == half;
        CopyInto(encryptKey, 8, half);
        assert encryptKey[..] == encryptKey[..16];
        KeyBytesUnique(key, encryptKey[..]);
        appKeyBytes := encryptKey[..];
      }
    }

    method SetRelayTunnelID(rtid: nat)
      requires Valid()
      modifies this`rtid, this`relayHead
      ensures Valid() && this.rtid == Some(rtid) && fresh(relayHead)
    {
      var head := new Byte[HEAD_CAPACITY];
      CopyInto(head, 0, ToLE(rtid, ID_SIZE));
      this.rtid, relayHead := Some(rtid), head;
    }

    /** The appends behind the relay header use the room it has; data that does not fit goes with a copy of it. */
    method WriteBytes(data: seq<Byte>)
      requires Valid()
      modifies tunnel, relayHead
      ensures Valid()
      ensures tunnel.written == old(tunnel.written) +
                (if rtid.None? then Frame(MSG_P2P, OVERLAY_DATA, data)
                 else Frame(MSG_P2P, RELAY_DATA, ToLE(rtid.value, ID_SIZE) + Frame(MSG_P2P, OVERLAY_DATA, data)))
    {
      if rtid.None? {
        WriteFrame(tunnel, MSG_P2P, OVERLAY_DATA, data);
        return;
      }
      CopyInto(relayHead, ID_SIZE, EncodeHeader(MSG_P2P, OVERLAY_DATA, |data|));
      ghost var head := relayHead[..ID_SIZE + HEADER_SIZE];
      assert head[..ID_SIZE] == relayHead[..ID_SIZE];
      var all := relayHead[..ID_SIZE + HEADER_SIZE] + data;
      if |all| <= relayHead.Length {
        CopyInto(relayHead, ID_SIZE + HEADER_SIZE, data);
        all := relayHead[..|all|];
        assert relayHead[..ID_SIZE] == head[..ID_SIZE];
      }
      assert all == ToLE(rtid.value, ID_SIZE) + Frame(MSG_P2P, OVERLAY_DATA, data);
      WriteFrame(tunnel, MSG_P2P, RELAY_DATA, all);
    }

    /** The loop of overlayConn.run for the connection `id`; the chunks are what its reads brought. */
    method Run(id: nat, conn: Source) returns (ghost chunks: seq<Chunk>)
      requires Valid()
      modifies conn, tunnel, relayHead
      ensures Valid() && conn.incoming == []
      ensures ReadAs(chunks, id, key, old(conn.incoming))
      ensures tunnel.written == old(tunnel.written) + SentAll(aes, rtid, chunks)
    {
      var buffer := new Byte[READ_BUFFER + PADDING_SPACE];
      var encryptData := new Byte[READ_BUFFER + PADDING_SPACE];
      chunks := [];
      while true
        invariant Valid()
        invariant Carried(aes, rtid, chunks, id, key, old(conn.incoming), conn.incoming, old(tunnel.written),
                  tunnel.written)
        decreases |conn.incoming|
      {
        ghost var written := tunnel.written;
        var more, c := Relay(id, conn, buffer, encryptData);
        if !more {
          AllCarried(aes, rtid, chunks, id, key, old(conn.incoming), old(tunnel.written), tunnel.written);
          return;
        }
        CarriedMore(aes, rtid, chunks, c, old(conn.incoming), conn.incoming, old(tunnel.written), written);
        chunks := chunks + [c];
      }
    }

    /** One round of the loop: read something and send it, unless the connection has ended. */
    method Relay(id: nat, conn: Source, buffer: array<Byte>, encryptData: array<Byte>)
      returns (more: bool, ghost c: Chunk)
      requires Valid() && buffer.Length == encryptData.Length == READ_BUFFER + PADDING_SPACE
      requires buffer != encryptData && relayHead != buffer && relayHead != encryptData
      modifies conn, buffer, encryptData, tunnel, relayHead
      ensures Valid()
      ensures !more ==> old(conn.incoming) == [] && conn.incoming == [] && tunnel.written == old(tunnel.written)
      ensures more ==>
                && old(conn.incoming) == c.data + conn.incoming && c.id == id && c.key == key
                   && 1 <= |c.data| <= READ_BUFFER
                && tunnel.written == old(tunnel.written) + Sent(aes, rtid, c)
    {
      var dataLen := ReadChunk(conn, buffer);
      c := Chunk(id, key, buffer[..dataLen]);
      if dataLen == 0 {
        return false, c;
      }
      SendChunk(id, buffer, dataLen, encryptData);
      return true, c;
    }

    method ReadChunk(conn: Source, buffer: array<Byte>) returns (dataLen: nat)
      requires buffer.Length == READ_BUFFER + PADDING_SPACE
      modifies conn, buffer
      ensures dataLen <= READ_BUFFER && old(conn.incoming) == buffer[..dataLen] + conn.incoming
      ensures dataLen == 0 ==> old(conn.incoming) == []
    {
      dataLen := conn.Read(buffer, 0, READ_BUFFER);
      assert buffer[..0] == [];
    }

    /** Encrypt one read and send it. */
    method SendChunk(id: nat, buffer: array<Byte>, dataLen: nat, encryptData: array<Byte>)
      requires Valid() && dataLen <= READ_BUFFER && buffer.Length == encryptData.Length == READ_BUFFER + PADDING_SPACE
      requires buffer != encryptData && relayHead != buffer && relayHead != encryptData
      modifies buffer, encryptData, tunnel, relayHead
      ensures Valid()
      ensures tunnel.written == old(tunnel.written) + Sent(aes, rtid, Chunk(id, key, old(buffer[..dataLen])))
    {
      var payload := buffer[..dataLen];
      if key != 0 {
        payload := EncryptBytes(Some(aes(appKeyBytes)), encryptData, buffer, dataLen);
      }
      var writeBytes := ToLE(id, ID_SIZE) + payload;
      WriteBytes(writeBytes);
    }
  }

  /** The chunks are nonempty reads of one connection, and together they are `plain`. */
  ghost predicate ReadAs(chunks: seq<Chunk>, id: nat, key: nat, plain: seq<Byte>) {
    && PlainOf(chunks, id) == plain
    && forall i :: 0 <= i < |chunks|
          ==> chunks[i].id == id && chunks[i].key == key && 1 <= |chunks[i].data| <= READ_BUFFER
  }

  /** Of `whole`, all but `left` has been read into the chunks, and their frames written behind `start`. */
  ghost predicate Carried(aes: seq<Byte> -> Cipher, rtid: Option<nat>, chunks: seq<Chunk>, id: nat, key: nat,
                          whole: seq<Byte>, left: seq<Byte>, start: seq<Byte>, written: seq<Byte>) {
    && PlainOf(chunks, id) + left == whole
    && ReadAs(chunks, id, key, PlainOf(chunks, id))
    && written == start + SentAll(aes, rtid, chunks)
  }

  lemma CarriedMore(aes: seq<Byte> -> Cipher, rtid: Option<nat>, chunks: seq<Chunk>, c: Chunk,
                    whole: seq<Byte>, left: seq<Byte>, start: seq<Byte>, written: seq<Byte>)
    requires Carried(aes, rtid, chunks, c.id, c.key, whole, c.data + left, start, written)
             && 1 <= |c.data| <= READ_BUFFER
    ensures Carried(aes, rtid, chunks + [c], c.id, c.key, whole, left, start, written + Sent(aes, rtid, c))
  {
    PlainOfMore(chunks, c);
    SentAllMore(aes, rtid, chunks, c);
    Associative(PlainOf(chunks, c.id), c.data, left);
    Associative(start, SentAll(aes, rtid, chunks), Sent(aes, rtid, c));
    ChunksMore(chunks, c);
  }

  lemma Associative(a: seq<Byte>, b: seq<Byte>, c: seq<Byte>)
    ensures a + (b + c) == a + b + c
  {
  }

  lemma ChunksMore(chunks: seq<Chunk>, c: Chunk)
    requires ReadAs(chunks, c.id, c.key, PlainOf(chunks, c.id)) && 1 <= |c.data| <= READ_BUFFER
    ensures ReadAs(chunks + [c], c.id, c.key, PlainOf(chunks + [c], c.id))
  {
  }

  lemma AllCarried(aes: seq<Byte> -> Cipher, rtid: Option<nat>, chunks: seq<Chunk>, id: nat, key: nat,
                   whole: seq<Byte>, start: seq<Byte>, written: seq<Byte>)
    requires Carried(aes, rtid, chunks, id, key, whole, [], start, written)
    ensures ReadAs(chunks, id, key, whole)
  {
    assert PlainOf(chunks, id) + [] == PlainOf(chunks, id);
  }

  lemma {:induction false} PlainOfMore(chunks: seq<Chunk>, c: Chunk)
    ensures PlainOf(chunks + [c], c.id) == PlainOf(chunks, c.id) + c.data
  {
    if |chunks| == 0 {
      assert [c][1..] == [];
    } else {
      assert (chunks + [c])[1..] == chunks[1..] + [c];
      PlainOfMore(chunks[1..], c);
    }
  }

  lemma {:induction false} SentAllMore(aes: seq<Byte> -> Cipher, rtid: Option<nat>, chunks: seq<Chunk>, c: Chunk)
    ensures SentAll(aes, rtid, chunks + [c]) == SentAll(aes, rtid, chunks) + Sent(aes, rtid, c)
  {
    if |chunks| == 0 {
      assert [c][1..] == [] && [] + [c] == [c];
    } else {
      assert (chunks + [c])[1..] == chunks[1..] + [c];
      SentAllMore(aes, rtid, chunks[1..], c);
    }
  }

  /** A node's receiving side: overlayConns, the tunnels a relay can write to, and one tunnel's read loop. */
  class Receiver {
    const aes: seq<Byte> -> Cipher
    var node: Node

    constructor (aes: seq<Byte> -> Cipher, node: Node)
      ensures this.aes == aes && this.node == node
    {
      this.aes, this.node := aes, node;
    }

    method ReadLoop(conn: Source) returns (status: Status)
      modifies this, conn
      ensures (node, status) == Overlay.ReadLoop(aes, old(node), old(conn.incoming))
    {
      var decryptData := new Byte[READ_BUFFER + PADDING_SPACE];
      while true
        invariant Overlay.ReadLoop(aes, node, conn.incoming) == Overlay.ReadLoop(aes, old(node), old(conn.incoming))
        decreases |conn.incoming|
      {
        var frame := ReadBuffer(conn);
        if frame.None? {
          return Ended;
        }
        var head, body := frame.value.0, frame.value.1;
        if head.mainType != MSG_P2P {
          continue;
        }
        if head.subType == OVERLAY_DATA {
          var ok := OverlayData(body, decryptData);
          if !ok {
            return Crashed;
          }
        } else if head.subType == RELAY_DATA {
          RelayData(body);
        }
      }
    }

    /** The MsgOverlayData case; false is a panic of the decrypter. */
    method OverlayData(body: seq<Byte>, decryptData: array<Byte>) returns (ok: bool)
      requires decryptData.Length == READ_BUFFER + PADDING_SPACE
      modifies this, decryptData
      ensures (node, if ok then Reading else Crashed) == HandleOverlayData(aes, old(node), body)
    {
      if |body| < ID_SIZE {
        return true;
      }
      var overlayID := FromLE(body[..8]);
      if overlayID !in node.conns {
        return true;
      }
      var payload, key := body[ID_SIZE..], node.conns[overlayID].key;
      if key != 0 {
        if !Openable(|payload|) {
          return false;
        }
        var plain := DecryptBytes(Some(aes(KeyBytes(key))), decryptData, payload);
        payload := if plain.Some? then plain.value else [];
      }
      Write(overlayID, payload);
      return true;
    }

    /** overlayConn.Write. */
    method Write(id: nat, data: seq<Byte>)
      requires id in node.conns
      modifies this
      ensures node == Deliver(old(node), id, data)
    {
      var c := node.conns[id];
      if c.running {
        node := node.(conns := node.conns[id := c.(written := c.written + data)]);
      }
    }

    /** The MsgRelayData case, with P2PNetwork.relay. */
    method RelayData(body: seq<Byte>)
      modifies this
      ensures node == HandleRelayData(old(node), body)
    {
      if |body| < ID_SIZE {
        return;
      }
      var to := FromLE(body[..8]);
      if to in node.tunnels {
        node := node.(tunnels := node.tunnels[to := node.tunnels[to] + body[8..]]);
      }
    }
  }
}
