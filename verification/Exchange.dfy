/**
 * One request and its reply on a connection: what the handler does to both, and what is done after
 * it returned (after_dispatch of lib/http/engine.c), which decides whether the connection is kept.
 */
module Exchanges {
  import opened Bytes
  import opened Chunked
  import opened ReplyHead
  import opened ReplyFraming
  import opened ConnOutput
  import opened ConnInput
  import opened ReaderState
  import opened PipeReading
  import opened PipeWriting
  import opened ResponseState
  import opened BodyReading
  import opened Replying
  import opened ReplyHeaders

  /** What a handler may do. */
  datatype Op =
    | ReadUntil(n: nat) | ReadChunk(cap: nat) | ReadAll
    | Write(data: bytes) | Fill(n: nat, data: bytes) | Flush
    | SetStatus(status: int) | SetLength(n: nat) | AddLine(name: bytes, value: bytes) | CloseAfter
    | UseFilter(runs: seq<Run>) | UseHook(hook: Hook)

  class Exchange {
    const br: BodyReader
    const rp: Replier
    /** What the peer had been sent before. */
    ghost const origin: bytes

    /** The two halves share the writer and the response, and no memory besides. */
    ghost predicate Parts() {
      && rp.body == br && br.pw == rp.pw && br.res == rp.res
      && br.pr.buf != rp.pw.buf && br.pr.buf != rp.cw.buf
      && 0 < rp.pw.cap
    }

    /** The reply begins where the last one ended, or behind the interim reply. */
    ghost predicate Begins()
      reads br`bodyErr, br`continueSent, rp`start, rp.pw.conn, rp.res`headSent, rp.res`failed
    {
      br.bodyErr == 0 && !rp.res.failed ==> rp.Begun() == origin + if br.continueSent then CONTINUE else []
    }

    ghost predicate Valid()
      reads this, br, rp, br.pr, br.pr.buf, br.pr.conn, rp.pw, rp.cw, rp.pw.buf, rp.cw.buf, rp.pw.conn, rp.res
    {
      Parts() && br.Valid() && rp.Valid() && !rp.finished && Begins()
    }

    constructor (br: BodyReader, rp: Replier)
      requires rp.body == br && br.pw == rp.pw && br.res == rp.res && br.pr.buf != rp.pw.buf && br.pr.buf != rp.cw.buf && 0 < rp.pw.cap
      requires br.Valid() && rp.Valid() && !rp.finished && !br.continueSent && !rp.res.headSent
      ensures Valid() && this.br == br && this.rp == rp && origin == rp.pw.conn.wire
    {
      this.br, this.rp, origin := br, rp, rp.pw.conn.wire;
    }

    /** After something read the body. */
    lemma StillBegins(wire: bytes, told: bool)
      requires br.pw == rp.pw && br.res == rp.res && br.Interim(wire, told) && (told ==> br.continueSent)
      requires rp.res.headSent ==> br.continueSent == told
      requires !rp.res.failed && br.bodyErr == 0 ==>
        (if rp.res.headSent then rp.start else wire) == origin + if told then CONTINUE else []
      ensures Begins()
    {
      assert origin + [] == origin;
    }

    lemma Opens()
      requires Valid()
      ensures Parts() && br.pw == rp.pw && br.res == rp.res && br.Valid() && !rp.finished
      ensures br.pr.buf != rp.pw.buf && br.pr.buf != rp.cw.buf && rp.pw != rp.cw
      ensures rp.Stands(rp.pw.conn.wire, rp.pw.failed, rp.res.close)
      ensures !rp.res.failed && br.bodyErr == 0 ==>
        (if rp.res.headSent then rp.start else rp.pw.conn.wire) == origin + if br.continueSent then CONTINUE else []
    {
      hide BodyReader.Valid, Replier.Valid, Replier.Stands;
      rp.ValidStands();
      rp.Apart();
    }

    lemma Shuts(wire: bytes, broken: bool, close: bool)
      requires Parts() && br.Valid() && !rp.finished && Begins() && rp.Stands(wire, broken, close)
      requires (broken ==> rp.pw.failed) && (close ==> rp.res.close) && (rp.res.headSent ==> rp.pw.conn.wire == wire)
      ensures Valid() && br.pw == rp.pw
    {
      hide BodyReader.Valid, Replier.Valid, Replier.Stands;
      rp.StandsStill(wire, broken, close, rp.pw.conn.wire, rp.pw.failed, rp.res.close);
      rp.ValidStands();
    }

    /** A body that failed has failed for good. */
    lemma Sticks()
      requires br.Valid()
      ensures br.bodyErr == 0 <==> br.why.Going?
    {
      br.ValidRests();
      br.CoreReads();
    }

    // Reading the body leaves the reply in step: an interim reply goes out before the head only.

    method BodyUntil(dst: array<byte>, n: nat) returns (rc: int)
      requires Valid() && n <= dst.Length && dst != br.pr.buf && dst != rp.pw.buf && dst != rp.cw.buf
      modifies br, br.pr, br.pr.buf, br.pr.conn, br.pw`failed, br.pw.conn, br.res`status, dst
      ensures Valid() && rp.payload == old(rp.payload)
      ensures old(br.pr.frozen) <= br.pr.frozen
    {
      hide *;
      Opens();
      Sticks();
      ghost var wire, told, broken, close := rp.pw.conn.wire, br.continueSent, rp.pw.failed, rp.res.close;
      rc := br.ReadUntil(dst, 0, n);
      Sticks();
      StillBegins(wire, told);
      Shuts(wire, broken, close);
    }

    method BodyChunk(dst: array<byte>, cap: nat) returns (rc: int)
      requires Valid() && cap <= dst.Length && dst != br.pr.buf && dst != rp.pw.buf && dst != rp.cw.buf
      modifies br, br.pr, br.pr.buf, br.pr.conn, br.pw`failed, br.pw.conn, br.res`status, dst
      ensures Valid() && rp.payload == old(rp.payload)
      ensures old(br.pr.frozen) <= br.pr.frozen
    {
      hide *;
      Opens();
      Sticks();
      ghost var wire, told, broken, close := rp.pw.conn.wire, br.continueSent, rp.pw.failed, rp.res.close;
      rc := br.ReadNextChunk(dst, 0, cap);
      Sticks();
      StillBegins(wire, told);
      Shuts(wire, broken, close);
    }

    method BodyWhole() returns (whole: Option<Span>)
      requires Valid()
      modifies br, br.pr, br.pr.buf, br.pr.conn, br.pw`failed, br.pw.conn, br.res`status
      ensures Valid() && rp.payload == old(rp.payload)
      ensures old(br.pr.frozen) <= br.pr.frozen
    {
      hide *;
      Opens();
      Sticks();
      ghost var wire, told, broken, close := rp.pw.conn.wire, br.continueSent, rp.pw.failed, rp.res.close;
      whole := br.BodyAll();
      Sticks();
      StillBegins(wire, told);
      Shuts(wire, broken, close);
    }

    // Writing the reply leaves the body where it is.

    method Write(data: bytes) returns (rc: int)
      requires Valid()
      modifies rp`noBody, rp`onHead, rp`filter, rp`start, rp`sent, rp`payload, rp`fed, rp`coded, rp`finished, rp`cause,
               rp.res, rp.pw, rp.cw, rp.pw.buf, rp.cw.buf, rp.pw.conn
      ensures Valid() && (old(rp.res.failed) ==> rp.res.failed)
      ensures (rc == 0 <==> !rp.res.failed) && (rc == 0 ==> rp.payload == old(rp.payload) + data)
    {
      hide BodyReader.Valid, Replier.Valid;
      rc := rp.Write(data);
    }

    method Flush() returns (rc: int)
      requires Valid()
      modifies rp`noBody, rp`onHead, rp`filter, rp`start, rp`sent, rp`payload, rp`fed, rp`coded, rp`finished, rp`cause,
               rp.res, rp.pw, rp.cw, rp.pw.buf, rp.cw.buf, rp.pw.conn
      ensures Valid() && rp.payload == old(rp.payload) && (old(rp.res.failed) ==> rp.res.failed)
    {
      hide BodyReader.Valid, Replier.Valid;
      rc := rp.Flush();
    }

    /** reserve, and an advance over what the handler put there. */
    method Fill(n: nat, data: bytes) returns (ok: bool)
      requires Valid() && |data| <= n
      modifies rp`noBody, rp`onHead, rp`filter, rp`start, rp`sent, rp`payload, rp`fed, rp`coded, rp`finished, rp`cause,
               rp.res, rp.pw, rp.cw, rp.pw.buf, rp.cw.buf, rp.pw.conn
      ensures Valid() && rp.payload == old(rp.payload) + (if ok then data else []) && (old(rp.res.failed) ==> rp.res.failed)
    {
      hide BodyReader.Valid, Replier.Valid;
      ok := rp.Reserve(n);
      if ok {
        rp.Put(data);
      } else {
        assert old(rp.payload) + [] == rp.payload;
      }
    }

    /** after_dispatch: 0 keeps the connection for another request, -1 closes it. */
    method AfterDispatch() returns (rc: int)
      requires Valid()
      modifies br, br.pr, br.pr.buf, br.pr.conn, rp, rp.res, rp.pw, rp.cw, rp.pw.buf, rp.cw.buf, rp.pw.conn
      ensures br.Valid() && rc in {0, -1}
      ensures rc == 0 ==> br.bodyErr == 0 && br.bodyDone && rp.keepAlive && !rp.res.close
      ensures rc == 0 ==> rp.res.headSent && rp.sent.mute == rp.noBody && rp.payload == old(rp.payload) && !old(rp.res.failed)
      ensures rc == 0 ==> rp.start == origin + (if br.continueSent then CONTINUE else []) && rp.pw.Valid()
      ensures rc == 0 && !rp.noBody ==> rp.Complete() && rp.pw.conn.wire == rp.start + HeadBytes(rp.sent.head) + Framed(rp.sent)
      ensures rc == 0 && rp.noBody ==> rp.pw.conn.wire == rp.start + HeadBytes(rp.sent.head) + if old(rp.StrayEnd()) then LAST else []
      ensures old(br.pr.frozen) <= br.pr.frozen
      ensures rc != 0 ==> br.bodyErr != 0 || rp.res.failed || !rp.keepAlive || rp.res.close
    {
      hide BodyReader.Valid, Replier.Valid, Replier.Complete, HeadBytes, Framed;
      if br.bodyErr != 0 {
        if br.bodyErr > 0 && !rp.res.headSent {
          ErrorReply(br.bodyErr);
        }
        return -1;
      }
      if br.expectContinue && !br.continueSent && !br.bodyDone {
        CloseAfter();
      } else {
        DrainBody();
      }
      if br.bodyErr != 0 {
        return -1;
      }
      rc := rp.Finish();
      if rc < 0 {
        return;
      }
      rc := if !rp.keepAlive || rp.res.close then -1 else 0;
    }

    method ErrorReply(status: nat)
      requires Valid()
      modifies rp.pw`head, rp.pw`len, rp.pw`tail, rp.pw`failed, rp.pw.buf, rp.pw.conn
      ensures br.Valid()
    {
      hide BodyReader.Valid;
      rp.WritersValid();
      rp.Status(status);
    }

    method CloseAfter()
      requires Valid()
      modifies rp.res`close
      ensures Valid() && rp.res.close
      ensures rp.StrayEnd() == old(rp.StrayEnd())
      ensures rp.payload == old(rp.payload)
    {
      hide BodyReader.Valid, Replier.Tallied, SentOk, HeadBytes, Framed, InLength, Replier.Speakable, Replier.Parts, Replier.Writers, Replier.Explained;
      rp.res.close := true;
    }

    method DrainBody()
      requires Valid()
      modifies br, br.pr, br.pr.buf, br.pr.conn, br.pw`failed, br.pw.conn, br.res`status, br.res`close
      ensures Valid() && (br.bodyDone || br.bodyErr != 0 || rp.res.close)
      ensures old(br.bodyErr) != 0 ==> br.bodyErr != 0
      ensures rp.payload == old(rp.payload) && rp.StrayEnd() == old(rp.StrayEnd())
      ensures old(br.pr.frozen) <= br.pr.frozen
    {
      hide *;
      Opens();
      Sticks();
      ghost var wire, told, broken, close := rp.pw.conn.wire, br.continueSent, rp.pw.failed, rp.res.close;
      br.Drain();
      Sticks();
      StillBegins(wire, told);
      Shuts(wire, broken, close);
    }

    // The response's own fields, set before the head is out.

    method SetStatus(status: int)
      requires Valid()
      modifies rp.res`status
      ensures Valid() && rp.payload == old(rp.payload)
    {
      hide BodyReader.Valid, Replier.Tallied, OnWire, InLength, Replier.Speakable, Replier.Parts, Replier.Writers, Replier.Explained;
      rp.res.status := status;
    }

    /** ioxd_content_length. */
    method SetLength(n: nat) returns (ok: bool)
      requires Valid() && n <= SIZE_MAX
      modifies rp.res`hasLength, rp.res`contentLength
      ensures Valid() && ok == !rp.res.headSent
      ensures rp.payload == old(rp.payload)
    {
      hide BodyReader.Valid, Replier.Tallied, OnWire, InLength, QuietLine, IsLine, Replier.Parts, Replier.Writers;
      if rp.res.headSent {
        return false;
      }
      rp.res.hasLength, rp.res.contentLength := true, n;
      return true;
    }

    method AddLine(name: bytes, value: bytes) returns (ok: bool)
      requires Valid()
      modifies rp.res`lines, rp.res`contentType, rp.res`ownType
      ensures Valid()
      ensures rp.payload == old(rp.payload)
    {
      hide BodyReader.Valid, Replier.Tallied, OnWire, InLength, QuietLine, IsLine, Replier.Parts, Replier.Writers, Replier.Explained, ReplyHeaders.Line, CONTENT_TYPE, Lower;
      ok := AddHeader(rp.res, name, value);
    }

    // A whole exchange.

    /** One thing the handler does; `more` is what it wrote, as far as the calls said they took it. */
    method Perform(op: Op, dst: array<byte>) returns (more: bytes)
      requires op.UseHook? ==> HookFine(op.hook)
      requires Valid() && dst != br.pr.buf && dst != rp.pw.buf && dst != rp.cw.buf
      modifies br, br.pr, br.pr.buf, br.pr.conn, rp, rp.res, rp.pw, rp.cw, rp.pw.buf, rp.cw.buf, rp.pw.conn, dst
      ensures Valid() && (old(rp.res.failed) ==> rp.res.failed)
      ensures !rp.res.failed ==> rp.payload == old(rp.payload) + more
      ensures old(br.pr.frozen) <= br.pr.frozen
    {
      hide Valid, HookFine;
      IsParts();
      more := [];
      match op {
        case ReadUntil(n) => var rc := BodyUntil(dst, if n < dst.Length then n else dst.Length);
        case ReadChunk(cap) => var rc := BodyChunk(dst, if cap < dst.Length then cap else dst.Length);
        case ReadAll => var whole := BodyWhole();
        case Write(data) =>
          var rc := Write(data);
          more := if rc == 0 then data else [];
        case Fill(n, data) =>
          if |data| <= n {
            var ok := Fill(n, data);
            more := if ok then data else [];
          }
        case Flush => var rc := Flush();
        case SetStatus(status) => SetStatus(status);
        case SetLength(n) => if n <= SIZE_MAX { var ok := SetLength(n); }
        case AddLine(name, value) => var ok := AddLine(name, value);
        case CloseAfter => CloseAfter();
        case UseFilter(runs) => var ok := UseFilter(runs);
        case UseHook(h) => var ok := UseHook(h);
      }
      assert rp.payload + [] == rp.payload;
    }

    lemma IsParts()
      requires Valid()
      ensures Parts()
    {
    }

    method UseFilter(runs: seq<Run>) returns (ok: bool)
      requires Valid()
      modifies rp`filter
      ensures Valid()
      ensures rp.payload == old(rp.payload)
    {
      hide BodyReader.Valid, Replier.Valid;
      ok := rp.InstallFilter(runs);
    }

    method UseHook(h: Hook) returns (ok: bool)
      requires Valid() && HookFine(h)
      modifies rp`onHead
      ensures Valid()
      ensures rp.payload == old(rp.payload)
    {
      hide BodyReader.Valid, Replier.Valid, HookFine;
      ok := rp.OnHead(h);
    }

    /** The request's body was read to its end, and nothing behind it. */
    ghost predicate BodyTaken()
      reads br, br.pr, br.pr.buf, br.pr.conn
    {
      if br.chunked then Decode(br.Since()) == Done(br.delivered, |br.TakenNow()|)
      else br.delivered == br.TakenNow() && |br.delivered| == br.contentLength
    }

    /** Both directions are in step: the body is taken, and the reply is a whole message. */
    ghost predicate InStepAgain()
      reads this, br, br.pr, br.pr.buf, br.pr.conn, rp, rp.res, rp.pw.conn
    {
      && BodyTaken()
      && var body := Framed(rp.sent);
      && rp.pw.conn.wire == rp.start + HeadBytes(rp.sent.head) + body
      && ReadHead(HeadBytes(rp.sent.head) + body) == Read(rp.sent.head.framing, body)
      && rp.sent.entity == (if rp.Coding() then rp.coded else rp.payload)
      && match rp.sent.head.framing {
           case Length(n) => body == rp.sent.entity && |body| == n
           case InChunks => Decode(body) == Done(rp.sent.entity, |body|)
           case _ => false
         }
    }

    /**
     * Any handler, and what follows it. A connection that is kept is in step: the next request
     * starts at the byte after this one's body, and the reply, unless it carries no body, is one a
     * recipient can tell the end of, and holds what the handler wrote, or what its filter made of it.
     * What was frozen, the head of the request, still is, and so reads the same (PipeReader.FrozenReads).
     */
    method Serve(ops: seq<Op>, dst: array<byte>) returns (rc: int, written: bytes)
      requires forall op :: op in ops && op.UseHook? ==> HookFine(op.hook)
      requires Valid() && rp.payload == [] && dst != br.pr.buf && dst != rp.pw.buf && dst != rp.cw.buf
      modifies br, br.pr, br.pr.buf, br.pr.conn, rp, rp.res, rp.pw, rp.cw, rp.pw.buf, rp.cw.buf, rp.pw.conn, dst
      ensures br.Valid() && rc in {0, -1}
      ensures rc == 0 ==> br.bodyErr == 0 && BodyTaken() && rp.payload == written && rp.pw.Valid()
      ensures rc == 0 ==> rp.start == origin + (if br.continueSent then CONTINUE else []) && rp.sent.mute == rp.noBody
      ensures rc == 0 && !rp.noBody ==> InStepAgain() && (rp.Coding() ==> rp.fed == rp.payload)
      ensures rc == 0 && rp.noBody ==>
        || rp.pw.conn.wire == rp.start + HeadBytes(rp.sent.head)
        || rp.pw.conn.wire == rp.start + HeadBytes(rp.sent.head) + LAST
      ensures old(br.pr.frozen) <= br.pr.frozen
      ensures rc != 0 ==> br.bodyErr != 0 || rp.res.failed || !rp.keepAlive || rp.res.close
    {
      hide Valid, QuietLine, BodyReader.Valid, Replier.Complete, HookFine;
      written := [];
      for i := 0 to |ops|
        invariant Valid() && (!rp.res.failed ==> rp.payload == written)
        invariant old(br.pr.frozen) <= br.pr.frozen
      {
        var more := Perform(ops[i], dst);
        written := written + more;
      }
      rc := AfterDispatch();
      if rc == 0 {
        Taken();
      }
      if rc == 0 && !rp.noBody {
        Kept();
      }
      assert rp.start + HeadBytes(rp.sent.head) + [] == rp.start + HeadBytes(rp.sent.head);
    }

    lemma Taken()
      requires br.Valid() && br.bodyErr == 0 && br.bodyDone
      ensures BodyTaken()
    {
      hide BodyReader.Valid, Decode, BodyReader.TakenNow, BodyReader.Since;
      if br.chunked {
        br.Outcome();
      } else {
        br.FixedOutcome();
      }
    }

    lemma Kept()
      requires BodyTaken() && !rp.res.close && rp.Complete()
      requires rp.pw.conn.wire == rp.start + HeadBytes(rp.sent.head) + Framed(rp.sent)
      ensures InStepAgain() && (rp.Coding() ==> rp.fed == rp.payload)
    {
      hide BodyReader.Valid, SentOk, Framed, HeadBytes, ReadHead, Decode, BodyTaken;
      ReplyFraming.Received(rp.sent);
    }
  }
}
