/** Whole lives of a request body: any mix of the three ways to read it, then the drain. */
module BodySession {
  import opened Bytes
  import opened Chunked
  import opened PipeReading
  import opened ReaderState
  import opened PipeWriting
  import opened ResponseState
  import opened BodyReading

  datatype Call = Until(n: nat) | NextChunk(cap: nat) | All

  /** One call of the handler; `handed` grows by the bytes it was given. */
  method Perform(br: BodyReader, c: Call, dst: array<byte>, handed: bytes) returns (now: bytes)
    requires br.Valid() && dst != br.pr.buf && (br.bodyErr == 0 ==> handed == br.delivered)
    modifies br, br.pr, br.pr.buf, br.pr.conn, br.pw, br.pw.conn, br.res, dst
    ensures br.Valid() && (br.bodyErr == 0 ==> now == br.delivered)
    ensures old(br.bodyErr) != 0 ==> br.bodyErr != 0
  {
    hide BodyReader.Core, PipeReader.Valid, BodyReader.IsBody;
    now := handed;
    Whether(br);
    match c {
      case Until(n) =>
        var rc := br.ReadUntil(dst, 0, if n < dst.Length then n else dst.Length);
        if rc > 0 {
          now := handed + dst[..rc];
        }
        assert rc >= 0 ==> dst[..rc] == dst[0..0 + rc];
      case NextChunk(cap) =>
        var rc := br.ReadNextChunk(dst, 0, if cap < dst.Length then cap else dst.Length);
        if rc > 0 {
          now := handed + dst[..rc];
        }
        assert rc >= 0 ==> dst[..rc] == dst[0..0 + rc];
      case All =>
        var whole := br.BodyAll();
        if whole.Some? {
          now := TheBody(br, whole.value);
        }
    }
    Whether(br);
  }

  lemma Whether(br: BodyReader)
    requires br.Valid()
    ensures br.bodyErr == 0 <==> br.why.Going?
  {
    br.ValidRests();
    br.CoreReads();
  }

  method TheBody(br: BodyReader, body: Span) returns (b: bytes)
    requires br.IsBody(body)
    ensures b == br.delivered
  {
    b := br.pr.Load(body);
  }

  /**
   * Any handler's reading of a chunked body, and the drain after it. When it ends without an error
   * and was not given up, the bytes the handler was given and the ones drained are what the
   * arrived bytes decode to, and the next request starts right behind them; a 400 for its syntax
   * is given only to bytes that do not decode, and an input cut short to a body that is not over.
   */
  method Chunks(br: BodyReader, calls: seq<Call>, dst: array<byte>) returns (handed: bytes)
    requires br.Valid() && br.chunked && br.bodyErr == 0 && br.delivered == [] && dst != br.pr.buf
    modifies br, br.pr, br.pr.buf, br.pr.conn, br.pw, br.pw.conn, br.res, dst
    ensures br.Valid()
    ensures br.bodyErr == 0 && !br.res.close ==>
      br.bodyDone && handed <= br.delivered && Decode(br.Since()) == Done(br.delivered, |br.TakenNow()|)
    ensures br.why == Syntax ==> Decode(br.Since()) == Malformed
    ensures br.why == Cut ==> br.seen <= br.Since() && Decode(br.seen) == Unfinished
  {
    hide BodyReader.Core, PipeReader.Valid, BodyReader.IsBody, BodyReader.Valid, Decode, BodyReader.Since, BodyReader.TakenNow;
    handed := [];
    for i := 0 to |calls|
      invariant br.Valid() && (br.bodyErr == 0 ==> handed == br.delivered)
    {
      handed := Perform(br, calls[i], dst, handed);
    }
    br.Drain();
    br.Outcome();
    Whether(br);
  }
}
