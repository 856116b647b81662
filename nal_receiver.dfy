/** The per-connection receive loop shared by the asyncio receiver
    (`RTSPServer.handle_client`) and the GUI receiver (`StreamServer._handle_client`):
    read bytes, append them to the connection's buffer, cut out every complete
    NAL unit, keep the trailing partial unit for the next read. The decoder that
    consumes each unit is outside the model: the units are returned in order. */
module NalReceiver {
  import opened Sequences
  import opened AnnexB

  /** The receive state of one client connection. */
  class ClientStream {
    /** The bytes read but not yet handed out as complete units. */
    var buffer: seq<byte>
    /** Bytes read since the last statistics report. */
    var bytesReceived: nat

    /** A new connection starts with an empty buffer and a zero counter. */
    constructor ()
      ensures buffer == [] && bytesReceived == 0
    {
      buffer := [];
      bytesReceived := 0;
    }

    /** One successful read of `data`: extend the buffer, count the bytes, then
        run the extraction loop until fewer than two start codes remain. */
    method Receive(data: seq<byte>) returns (units: seq<seq<byte>>)
      modifies this
      ensures units == Extract(old(buffer) + data).units
      ensures buffer == Extract(old(buffer) + data).rest
      ensures bytesReceived == old(bytesReceived) + |data|
    {
      // the loop rebinds a local, as the receivers rebind their `buffer`
      var buf := buffer + data;
      bytesReceived := bytesReceived + |data|;
      ghost var whole := buf;
      units := [];
      assert units + Extract(buf).units == Extract(whole).units;
      while true
        invariant units + Extract(buf).units == Extract(whole).units
        invariant Extract(buf).rest == Extract(whole).rest
        invariant bytesReceived == old(bytesReceived) + |data|
        decreases |buf|
      {
        var startPos := FindStartCode(buf, 0);
        if startPos < 0 {
          ExtractStops(buf);
          break;
        }
        var nextPos := FindStartCode(buf, startPos + 4);
        if nextPos < 0 {
          ExtractStops(buf);
          break;
        }
        ExtractLoopStep(units, buf, startPos, nextPos);
        units := units + [buf[startPos..nextPos]];
        buf := buf[nextPos..];
      }
      buffer := buf;
    }

    /** A statistics report reads the byte counter and resets it; the clock
        that decides when a report is due is the caller's. */
    method ReportStats() returns (count: nat)
      modifies this
      ensures count == old(bytesReceived) && bytesReceived == 0
      ensures buffer == old(buffer)
    {
      count := bytesReceived;
      bytesReceived := 0;
    }
  }

  /** One turn of the extraction loop: appending the cut unit to the units so
      far and passing over what is left owes the same as passing over buf. */
  lemma ExtractLoopStep(units: seq<seq<byte>>, buf: seq<byte>, s: nat, n: nat)
    requires s == StartCodeFrom(buf, 0) && n == StartCodeFrom(buf, s + 4)
    ensures s + 4 <= n <= |buf|
    ensures (units + [buf[s..n]]) + Extract(buf[n..]).units == units + Extract(buf).units
    ensures Extract(buf[n..]).rest == Extract(buf).rest
  {
    ExtractCut(buf, s, n);
    ConcatAssoc(units, [buf[s..n]], Extract(buf[n..]).units);
  }

  /** The reads a connection processes: everything up to the first empty read,
      which signals that the client disconnected. */
  function Delivered(chunks: seq<seq<byte>>): (d: seq<seq<byte>>)
    ensures |d| <= |chunks| && d == chunks[..|d|]
    ensures forall k :: 0 <= k < |d| ==> d[k] != []
    ensures |d| < |chunks| ==> chunks[|d|] == []
  {
    if chunks == [] || chunks[0] == [] then []
    else [chunks[0]] + Delivered(chunks[1..])
  }

  /** A connection's receive loop from accept to disconnect: a fresh buffer, one
      `Receive` per read, stop at the first empty read. The units handed to the
      decoder are those of one pass over the whole delivered byte stream, however
      the stream was cut into chunks; `leftover` is the partial unit dropped when
      the connection ends. */
  method HandleClient(chunks: seq<seq<byte>>) returns (units: seq<seq<byte>>, leftover: seq<byte>)
    ensures units == Extract(Flatten(Delivered(chunks))).units
    ensures leftover == Extract(Flatten(Delivered(chunks))).rest
  {
    var stream := new ClientStream();
    units := [];
    var i := 0;
    while i < |chunks|
      invariant 0 <= i <= |chunks|
      invariant forall k :: 0 <= k < i ==> chunks[k] != []
      invariant units == Extract(Flatten(chunks[..i])).units
      invariant stream.buffer == Extract(Flatten(chunks[..i])).rest
    {
      var data := chunks[i];
      if data == [] {
        break;
      }
      ghost var before := Flatten(chunks[..i]);
      ExtractAppend(before, data);
      FlattenSnoc(chunks[..i], data);
      assert chunks[..i + 1] == chunks[..i] + [data];
      var more := stream.Receive(data);
      units := units + more;
      i := i + 1;
    }
    DeliveredPrefix(chunks, i);
    leftover := stream.buffer;
  }

  lemma {:induction false} FlattenSnoc(ss: seq<seq<byte>>, s: seq<byte>)
    ensures Flatten(ss + [s]) == Flatten(ss) + s
  {
    if ss == [] {
      assert [] + [s] == [s];
      assert Flatten([s]) == s + Flatten([]);
    } else {
      assert (ss + [s])[1..] == ss[1..] + [s];
      FlattenSnoc(ss[1..], s);
    }
  }

  lemma {:induction false} DeliveredPrefix(chunks: seq<seq<byte>>, i: nat)
    requires i <= |chunks|
    requires forall k :: 0 <= k < i ==> chunks[k] != []
    requires i < |chunks| ==> chunks[i] == []
    ensures Delivered(chunks) == chunks[..i]
  {
    if i > 0 {
      DeliveredPrefix(chunks[1..], i - 1);
      assert chunks[..i] == [chunks[0]] + chunks[1..][..i - 1];
    }
  }
}
