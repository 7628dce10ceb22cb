/**
 * A reply on the wire: the head, then the body in the framing the head names. What was sent, as a
 * value, and that a recipient gets the body back from it.
 */
module ReplyFraming {
  import opened Bytes
  import opened Chunked
  import opened ReplyHead
  import opened PipeWriting
  import opened ConnOutput

  const LAST: bytes := [48, 13, 10, 13, 10]

  /** One chunk, when there is data for one. */
  function FrameOf(data: bytes): bytes {
    if data == [] then [] else Hex(|data|) + CRLF + data + CRLF
  }

  /** A reply so far: its head, the chunks of a chunked one, and the body bytes framed. */
  datatype Sent = Sent(head: Head, mute: bool, chunks: seq<Chunk>, entity: bytes, ended: bool)

  ghost predicate SentOk(s: Sent) {
    && HeadOk(s.head)
    && (s.ended ==> s.head.framing.InChunks? && !s.mute)
    && if s.mute then s.entity == [] && s.chunks == []
       else if s.head.framing.InChunks? then ChunksOk(s.chunks) && ChunksData(s.chunks) == s.entity
       else s.chunks == []
  }

  /** What follows the head. */
  function Framed(s: Sent): bytes {
    if s.mute then []
    else if s.head.framing.InChunks? then ChunksWire(s.chunks) + if s.ended then LAST else []
    else s.entity
  }

  /** More data framed, and bytes sent along unframed. */
  function More(s: Sent, data: bytes, extra: bytes, final: bool): Sent {
    if s.head.framing.InChunks? then
      s.(entity := s.entity + data,
         chunks := if data == [] then s.chunks else s.chunks + [Chunk(Hex(|data|), data)],
         ended := final)
    else s.(entity := s.entity + data + extra)
  }

  lemma MoreFrames(s: Sent, data: bytes, extra: bytes, final: bool)
    requires SentOk(s) && !s.mute && !s.ended && |data| <= SIZE_MAX
    requires s.head.framing.InChunks? ==> extra == []
    ensures var m := More(s, data, extra, final);
      && SentOk(m) && m.entity == s.entity + data + extra
      && Framed(m) == Framed(s) + (if s.head.framing.InChunks? then FrameOf(data) else data)
                    + (if s.head.framing.InChunks? && final then LAST else []) + extra
  {
    hide HeadOk, SizeLine, ChunkSize, IsLine;
    if s.head.framing.InChunks? {
      if data != [] {
        HexIsSizeLine(|data|);
        ChunksSnoc(s.chunks, Chunk(Hex(|data|), data));
      }
      assert s.entity + data + [] == s.entity + data;
    } else {
      assert s.entity + data + [] + extra == s.entity + data + extra;
    }
  }

  /** The last chunk and no trailers. */
  lemma LastIs()
    ensures LastOk([48]) && TrailersOk([]) && LAST == [48] + CRLF + TrailersWire([])
  {
    assert HexValue([48][..1]) == 0 by {
      assert [48][..1] == [48];
      assert HexDigit(48) == 0;
      assert [48][..0] == [];
    }
    assert HexRun([48]) == 1;
    NoCrIsLine([48]);
  }

  /**
   * The round trip: a recipient of the head and what follows it finds the framing, and in that
   * framing exactly the body that was framed, to the last byte sent.
   */
  lemma Received(s: Sent)
    requires SentOk(s) && !s.mute
    ensures ReadHead(HeadBytes(s.head) + Framed(s)) == Read(Named(s.head.framing), Framed(s))
    ensures s.head.framing.InChunks? && s.ended ==> Decode(Framed(s)) == Done(s.entity, |Framed(s)|)
    ensures s.head.framing.InChunks? && !s.ended ==> Decode(Framed(s)) == Unfinished
    ensures !s.head.framing.InChunks? ==> Framed(s) == s.entity
  {
    hide HeadOk, HeadBytes, ReadHead, Decode, ChunksOk, LastOk;
    HeadNamesFraming(s.head, Framed(s));
    if s.head.framing.InChunks? {
      if s.ended {
        LastIs();
        var b := Body(s.chunks, [48], []);
        DecodeComplete(b, []);
        assert BodyWire(b) + [] == Framed(s);
      } else {
        NotEnded(s.chunks);
        assert ChunksWire(s.chunks) + [] == ChunksWire(s.chunks);
      }
    }
  }

  lemma {:induction false} NotEnded(cs: seq<Chunk>)
    requires ChunksOk(cs)
    ensures Decode(ChunksWire(cs)) == Unfinished
  {
    hide ChunkOk, ChunkWire;
    if cs != [] {
      hide Decode;
      DecodeChunk(cs[0], ChunksWire(cs[1..]));
      NotEnded(cs[1..]);
    }
  }

  /** Room in front and behind for a chunk's frame and the last chunk. */
  ghost predicate FrameRoom(sw: PipeWriter) {
    18 <= sw.lead && 7 <= sw.slack && sw.cap <= INT_MAX
  }

  /**
   * The sending part of flush_with and send_coded: the pending data, as a chunk or as it is, the
   * last chunk after it, the head before it, in the lead or ahead of it all, and extra bytes behind.
   */
  method SendFrame(sw: PipeWriter, head: bytes, extra: bytes, chunk: bool, last: bool) returns (ok: bool)
    requires sw.Valid() && FrameRoom(sw) && sw.head == 0 && sw.tail == 0
    modifies sw`head, sw`len, sw`tail, sw`failed, sw.buf, sw.conn
    ensures sw.Valid()
    ensures ok ==> sw.head == sw.len == sw.tail == 0 && !sw.failed
    ensures ok ==> sw.conn.wire == old(sw.conn.wire) + head + old(if chunk then FrameOf(sw.Data()) else sw.Data()) + (if last then LAST else []) + extra
    ensures !ok ==> sw.failed
    ensures head == extra == [] && old(sw.len) == 0 && last && old(sw.Credit()) > 0 ==> ok
  {
    hide FrameOf;
    ghost var data := sw.Data();
    ghost var frame := if chunk then FrameOf(data) else data;
    assert sw.Pending() == data;
    if chunk && sw.len > 0 {
      AddFrame(sw);
    } else {
      NoFrame();
    }
    if last {
      var terminated := sw.Back(LAST);
    }
    ghost var span := frame + if last then LAST else [];
    assert sw.Pending() == span;
    ok := SendSpan(sw, head, extra);
    Reassoc(old(sw.conn.wire), head, frame, if last then LAST else [], extra);
  }

  lemma NoFrame()
    ensures FrameOf([]) == []
  {
  }

  lemma Reassoc(wire: bytes, head: bytes, frame: bytes, last: bytes, extra: bytes)
    ensures wire + head + (frame + last) + extra == wire + head + frame + last + extra
  {
  }

  /** The chunk's size line in front of the data and its CRLF behind. */
  method AddFrame(sw: PipeWriter)
    requires sw.Valid() && FrameRoom(sw) && sw.head == 0 && sw.tail == 0 && sw.len > 0
    modifies sw`head, sw`tail, sw.buf
    ensures sw.Valid() && sw.head <= 18 && sw.tail == 2 && sw.Pending() == FrameOf(old(sw.Data())) && sw.Data() == old(sw.Data())
  {
    hide Hex;
    ghost var data := sw.Data();
    assert sw.Pending() == data;
    var digits := PutHex(sw.len);
    SizeDigits(sw.len);
    var front := sw.Front(digits + CRLF);
    var back := sw.Back(CRLF);
    assert digits + CRLF + data + CRLF == FrameOf(data);
  }

  lemma SizeDigits(n: nat)
    requires n <= INT_MAX
    ensures |Hex(n)| <= 16
  {
    assert Power(16, 8) == 0x1_0000_0000;
    HexLength(n, 8);
  }

  /** The head goes into the lead when it fits, else ahead of the span; then the span and the extra bytes. */
  method SendSpan(sw: PipeWriter, head: bytes, extra: bytes) returns (ok: bool)
    requires sw.Valid()
    modifies sw`head, sw`len, sw`tail, sw`failed, sw.buf, sw.conn
    ensures sw.Valid()
    ensures ok ==> sw.head == sw.len == sw.tail == 0 && !sw.failed
    ensures ok ==> sw.conn.wire == old(sw.conn.wire) + head + old(sw.Pending()) + extra
    ensures !ok ==> sw.failed
    ensures head == extra == [] && 0 < |old(sw.Pending())| <= INT_MAX && old(sw.Credit()) > 0 ==> ok
  {
    ghost var span := sw.Pending();
    if head != [] {
      var front := sw.Front(head);
      if !front {
        var rc := sw.Through(head);
        if rc < 0 {
          return false;
        }
      }
    }
    var rc := sw.FlushWith(extra);
    return rc == 0;
  }
}
