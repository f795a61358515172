/** Connections that read and write in pieces, and the loops that make whole reads and writes of them. */
module Streams {
  import opened Bytes

  /** A connection being read: `incoming` is everything it will still deliver. */
  class Source {
    var incoming: seq<Byte>

    constructor (data: seq<Byte>)
      ensures incoming == data
    {
      incoming := data;
    }

    /**
      * Read into buf[from..to]: at least one byte unless the stream has ended, and any number up to the
      * space there is.
      */
    method Read(buf: array<Byte>, from: nat, to: nat) returns (n: nat)
      requires from < to <= buf.Length
      modifies this, buf
      ensures n <= to - from && n <= |old(incoming)| && (n == 0 <==> old(incoming) == [])
      ensures incoming == old(incoming)[n..]
      ensures buf[..from + n] == old(buf[..from]) + old(incoming)[..n]
    {
      if incoming == [] {
        return 0;
      }
      var most := if to - from < |incoming| then to - from else |incoming|;
      n :| 1 <= n <= most;
      for i := 0 to n
        invariant incoming == old(incoming)
        invariant buf[..from + i] == old(buf[..from]) + incoming[..i]
      {
        buf[from + i] := incoming[i];
      }
      incoming := incoming[n..];
    }

    /** io.ReadFull. */
    method ReadFull(buf: array<Byte>) returns (ok: bool)
      modifies this, buf
      ensures ok == (buf.Length <= |old(incoming)|)
      ensures ok ==> buf[..] == old(incoming)[..buf.Length] && incoming == old(incoming)[buf.Length..]
    {
      var got := 0;
      while got < buf.Length
        invariant got <= buf.Length && got <= |old(incoming)|
        invariant buf[..got] == old(incoming)[..got] && incoming == old(incoming)[got..]
      {
        var n := Read(buf, got, buf.Length);
        if n == 0 {
          return false;
        }
        assert old(incoming)[..got] + old(incoming)[got..][..n] == old(incoming)[..got + n];
        got := got + n;
      }
      assert buf[..] == buf[..got];
      return true;
    }
  }

  /** A connection being written. */
  class Sink {
    var written: seq<Byte>

    constructor ()
      ensures written == []
    {
      written := [];
    }

    /** Takes some first part of the data. */
    method Write(data: seq<Byte>) returns (n: nat)
      requires |data| > 0
      modifies this
      ensures 1 <= n <= |data| && written == old(written) + data[..n]
    {
      n :| 1 <= n <= |data|;
      written := written + data[..n];
    }
  }

  /** writeFull, and writeAll of the pairing package. */
  method WriteFull(w: Sink, data: seq<Byte>)
    modifies w
    ensures w.written == old(w.written) + data
  {
    var totalWritten := 0;
    while totalWritten < |data|
      invariant totalWritten <= |data| && w.written == old(w.written) + data[..totalWritten]
    {
      var n := w.Write(data[totalWritten..]);
      assert data[..totalWritten] + data[totalWritten..][..n] == data[..totalWritten + n];
      totalWritten := totalWritten + n;
    }
  }
}
