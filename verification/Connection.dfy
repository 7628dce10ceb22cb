/**
 * A connection served to its end (ioxd__engine_serve of lib/http/engine.c): a head, the framing of
 * its body, the handler, what follows it, and the next head at the byte after. The parser of heads
 * is any function that, told more of a head it found incomplete, does not find one in the part it
 * was told before.
 */
module Connections {
  import opened Bytes
  import opened Chunked
  import opened ReplyHead
  import opened ReplyFraming
  import ConnOutput
  import opened ReaderState
  import opened PipeReading
  import opened PipeWriting
  import opened ResponseState
  import opened BodyReading
  import opened Replying
  import opened ReplyHeaders
  import opened RequestFraming
  import opened Exchanges

  /** What the parser makes of the live bytes; a head says whether its method is HEAD and what became of its parameters. */
  datatype Parsed =
    | Incomplete
    | Malformed
    | Found(n: nat, lines: seq<Header>, minor: nat, isHead: bool, truncated: bool, tooMany: bool)

  ghost predicate ParserFine(parse: bytes -> Parsed) {
    && (forall p :: parse(p).Found? ==> 0 < parse(p).n <= |p|)
    && (forall p, q :: p <= q && parse(p).Incomplete? && parse(q).Found? ==> |p| < parse(q).n)
  }

  // What a connection that is kept has behind it.

  /** A request: the bytes its head was found in, its head's length, the framing, what was taken for its body, and the body. */
  datatype Request = Request(text: bytes, n: nat, framing: Verdict, taken: bytes, body: bytes)

  /** The framing that the head's lines call for, sections 6.1 to 6.3 of RFC 9112. */
  predicate FramedBy(m: Parsed, v: Verdict)
    requires m.Found?
  {
    && v.Accepted? && Welcome(m.lines, m.minor, m.truncated)
    && if v.chunked then
         OneChunked(Codings(Values(m.lines, TRANSFER_ENCODING))) && Values(m.lines, CONTENT_LENGTH) == []
       else
         && Values(m.lines, TRANSFER_ENCODING) == []
         && (Values(m.lines, CONTENT_LENGTH) == [] ==> v.contentLength == 0)
         && (Values(m.lines, CONTENT_LENGTH) != [] ==>
               LengthValue(Values(m.lines, CONTENT_LENGTH)[0]) == Some(v.contentLength))
  }

  predicate RequestFine(r: Request, parse: bytes -> Parsed) {
    && parse(r.text).Found? && parse(r.text).n == r.n <= |r.text|
    && FramedBy(parse(r.text), r.framing)
    && if r.framing.chunked then Decode(r.taken) == Done(r.body, |r.taken|)
       else r.body == r.taken && |r.body| == r.framing.contentLength
  }

  /** The bytes a request took from the stream: its head and its body's. */
  function RequestBytes(r: Request): bytes {
    if r.n <= |r.text| then r.text[..r.n] + r.taken else []
  }

  /** A reply, and what the handler wrote for it; filtered: a filter stood in between. */
  datatype Reply = Reply(interim: bool, sent: Sent, stray: bool, written: bytes, filtered: bool)

  predicate ReplyFine(r: Reply) {
    !r.sent.mute ==>
      && var body := Framed(r.sent);
      && ReadHead(HeadBytes(r.sent.head) + body) == Read(r.sent.head.framing, body)
      && (!r.filtered ==> r.sent.entity == r.written)
      && match r.sent.head.framing {
           case Length(n) => body == r.sent.entity && |body| == n
           case InChunks => Decode(body) == Done(r.sent.entity, |body|)
           case _ => false
         }
  }

  function ReplyBytes(r: Reply): bytes {
    (if r.interim then CONTINUE else []) + HeadBytes(r.sent.head)
    + if !r.sent.mute then Framed(r.sent) else if r.stray then LAST else []
  }

  datatype Served = Served(request: Request, reply: Reply)

  function RequestsOf(served: seq<Served>): bytes {
    if served == [] then []
    else RequestsOf(served[..|served| - 1]) + RequestBytes(served[|served| - 1].request)
  }

  function RepliesOf(served: seq<Served>): bytes {
    if served == [] then []
    else RepliesOf(served[..|served| - 1]) + ReplyBytes(served[|served| - 1].reply)
  }

  ghost predicate AllFine(served: seq<Served>, parse: bytes -> Parsed) {
    forall i :: 0 <= i < |served| ==> RequestFine(served[i].request, parse) && ReplyFine(served[i].reply)
  }

  // The head.

  /** read_head: the head kept and frozen, or nothing: the input ended, or a status was sent. */
  method TakeHead(pr: PipeReader, pw: PipeWriter, parse: bytes -> Parsed, refusal: int -> bytes)
      returns (m: Option<Parsed>, ghost text: bytes)
    requires pr.Valid() && pr.kept == [] && pr.examined == 0 && pw.Valid() && pr.buf != pw.buf && ParserFine(parse)
    modifies pr, pr.buf, pr.conn, pw`head, pw`len, pw`tail, pw`failed, pw.buf, pw.conn
    ensures pr.Valid() && pw.Valid()
    ensures m.Some? ==> m.value.Found? && parse(text) == m.value && m.value.n <= |text|
    ensures m.Some? ==> pr.consumed == old(pr.consumed) + text[..m.value.n] && pr.kept == [] && pr.examined == 0
    ensures m.Some? ==> pw.conn.wire == old(pw.conn.wire)
    ensures m.Some? && pr.error == 0 ==> pr.frozen != [] && pr.frozen[|pr.frozen| - 1].data == text[..m.value.n]
  {
    hide PipeReader.Valid, PipeReader.LiveBytes, PipeReader.State, PipeReader.Reads, PipeReader.NoRoom, PipeReader.Need;
    hide PipeWriter.Valid, ParserFine, Mem, InBounds;
    m, text := None, [];
    ghost var told: bytes := [];
    LiveStart(pr);
    while true
      invariant pr.Valid() && pr.kept == [] && pr.consumed == old(pr.consumed)
      invariant pw.Valid() && pw.conn.wire == old(pw.conn.wire)
      invariant pr.examined == |told| && told <= pr.LiveBytes()
      invariant told != [] ==> parse(told).Incomplete?
      decreases pr.conn.Pending(), if pr.examined == |pr.LiveBytes()| then 0 else 1
    {
      var rc, live := pr.Read();
      if rc != 1 {
        if rc == PIPE_FULL {
          SendStatus(pw, refusal(431));
        }
        return;
      }
      var b := pr.View(live);
      ParserSays(parse, told, b);
      var p := parse(b);
      match p {
        case Found(n, _, _, _, _, _) =>
          m := KeepHead(pr, pw, p, refusal);
          return m, b;
        case Malformed =>
          SendStatus(pw, refusal(400));
          return;
        case Incomplete =>
          pr.Examine(live.len);
          told := b;
      }
    }
  }

  lemma LiveStart(pr: PipeReader)
    requires pr.Valid()
    ensures [] <= pr.LiveBytes()
  {
  }

  lemma ParserSays(parse: bytes -> Parsed, told: bytes, b: bytes)
    requires ParserFine(parse) && told <= b && (told != [] ==> parse(told).Incomplete?)
    ensures parse(b).Found? ==> |told| <= parse(b).n <= |b| && 0 < parse(b).n
  {
  }

  /** The head is kept, and its run frozen; there may be no room for it. */
  method KeepHead(pr: PipeReader, pw: PipeWriter, m: Parsed, refusal: int -> bytes) returns (kept: Option<Parsed>)
    requires pr.Valid() && pr.kept == [] && pw.Valid() && pr.buf != pw.buf
    requires m.Found? && 0 < m.n <= |pr.LiveBytes()| && pr.examined <= m.n
    modifies pr, pr.buf, pr.conn, pw`head, pw`len, pw`tail, pw`failed, pw.buf, pw.conn
    ensures pr.Valid() && pw.Valid() && (kept.Some? ==> kept.value == m)
    ensures kept.Some? ==> pr.consumed == old(pr.consumed) + old(pr.LiveBytes())[..m.n] && pr.kept == [] && pr.examined == 0
    ensures kept.Some? ==> pw.conn.wire == old(pw.conn.wire)
    ensures kept.Some? && pr.error == 0 ==> pr.frozen != [] && pr.frozen[|pr.frozen| - 1].data == old(pr.LiveBytes())[..m.n]
  {
    hide *;
    var at := pr.Keep(m.n);
    if at.None? {
      SendStatus(pw, refusal(431));
      return None;
    }
    FullIsAnError();
    assert pr.kept == old(pr.LiveBytes())[..m.n];
    pr.RunBegin();
    return Some(m);
  }

  lemma FullIsAnError()
    ensures PIPE_FULL != 0
  {
  }

  // One request.

  const CODED_SLACK: nat := 256

  /** The buffers of a connection: no two of them are one, and frames fit around the slabs. */
  ghost predicate Buffers(pr: PipeReader, pw: PipeWriter, coded: array<byte>, dst: array<byte>) {
    && pr.buf != pw.buf && coded != pr.buf && coded != pw.buf
    && dst != pr.buf && dst != pw.buf && dst != coded
    && FrameRoom(pw) && 0 < pw.cap && pw.cap + CODED_SLACK <= ConnOutput.INT_MAX
    && coded.Length == pw.lead + (pw.cap + CODED_SLACK) + pw.slack
  }

  ghost predicate ReasonsFine(reason: int -> bytes) {
    forall s :: 100 <= s <= 999 ==> Chunked.IsLine(VERSION + Decimal(s) + [32] + reason(s))
  }

  /** What a program does for one request, and whether an on_head function of it keeps the head readable. */
  ghost predicate OpsFine(ops: seq<Op>) {
    forall op :: op in ops && op.UseHook? ==> HookFine(op.hook)
  }

  lemma TextIsLine()
    ensures Chunked.IsLine(TYPE + TEXT)
  {
  }

  lemma Apart(pr: PipeReader, pw: PipeWriter, coded: array<byte>, dst: array<byte>)
    requires Buffers(pr, pw, coded, dst)
    ensures pr.buf != pw.buf && coded != pr.buf && coded != pw.buf
    ensures dst != pr.buf && dst != pw.buf && dst != coded
    ensures FrameRoom(pw) && 0 < pw.cap && pw.cap + CODED_SLACK <= ConnOutput.INT_MAX
    ensures coded.Length == pw.lead + (pw.cap + CODED_SLACK) + pw.slack
  {
  }

  lemma OpsAre(ops: seq<Op>)
    requires OpsFine(ops)
    ensures forall op :: op in ops && op.UseHook? ==> HookFine(op.hook)
  {
  }

  /** init_body_state and init_response: an exchange about to begin. */
  method Prepare(pr: PipeReader, pw: PipeWriter, coded: array<byte>, m: Parsed, v: Verdict, reason: int -> bytes)
      returns (ex: Exchange)
    requires pr.Valid() && pr.kept == [] && pr.examined == 0 && pw.Valid() && m.Found? && v.Accepted?
    requires pr.buf != pw.buf && coded != pr.buf && coded != pw.buf
    requires FrameRoom(pw) && 0 < pw.cap && pw.cap + CODED_SLACK <= ConnOutput.INT_MAX
    requires coded.Length == pw.lead + (pw.cap + CODED_SLACK) + pw.slack
    requires ReasonsFine(reason)
    modifies pw`head, pw`len, pw`tail
    ensures ex.Valid() && fresh(ex) && fresh(ex.br) && fresh(ex.rp) && fresh(ex.rp.res) && fresh(ex.rp.cw)
    ensures ex.br.pr == pr && ex.br.pw == ex.rp.pw == pw && ex.br.res == ex.rp.res && ex.rp.cw.buf == coded
    ensures ex.br.chunked == v.chunked && ex.br.contentLength == v.contentLength && ex.br.before == pr.consumed
    ensures ex.origin == pw.conn.wire && ex.rp.payload == []
  {
    hide PipeReader.Valid, HookFine, PipeWriter.Data, PipeWriter.Pending;
    TextIsLine();
    hide Chunked.IsLine;
    pw.Reset();
    var cw := new PipeWriter(pw.conn, coded, pw.lead, pw.cap + CODED_SLACK, pw.slack);
    var res := new Response();
    var br := new BodyReader(pr, pw, res, v.chunked, v.contentLength, v.expectContinue);
    var rp := new Replier(pw, cw, res, br, v.keepAlive, m.minor, m.isHead, reason);
    hide BodyReader.Valid, Replier.Valid;
    ex := new Exchange(br, rp);
  }

  method FramingOf(m: Parsed) returns (v: Verdict)
    requires m.Found?
    ensures v.Accepted? ==> FramedBy(m, v)
  {
    hide Welcome, OneChunked, Codings, Values, LengthValue, TRANSFER_ENCODING, CONTENT_LENGTH, CONNECTION;
    v := FillFraming(m.lines, m.minor, m.truncated, m.tooMany);
  }

  /** The bytes a chunked body took decode to it without the ones behind them. */
  lemma DecodeTaken(s: bytes, taken: bytes, data: bytes)
    requires taken <= s && Decode(s) == Done(data, |taken|)
    ensures Decode(taken) == Done(data, |taken|)
  {
    hide *;
    var b := DecodeSound(s);
    DecodeComplete(b, []);
    assert BodyWire(b) + [] == BodyWire(b);
    assert s[..|taken|] == taken;
  }

  lemma RequestDone(ex: Exchange, text: bytes, m: Parsed, v: Verdict, parse: bytes -> Parsed) returns (r: Request)
    requires ex.br.Valid() && ex.br.bodyErr == 0 && ex.BodyTaken()
    requires m.Found? && parse(text) == m && m.n <= |text|
    requires v.Accepted? && FramedBy(m, v)
    requires ex.br.chunked == v.chunked && ex.br.contentLength == v.contentLength
    ensures RequestFine(r, parse) && ex.br.before <= ex.br.pr.consumed
    ensures ex.br.pr.consumed == ex.br.before + r.taken && RequestBytes(r) == text[..m.n] + r.taken
    ensures ex.br.pr.Valid() && ex.br.pr.examined == 0
  {
    var br := ex.br;
    hide PipeReader.Valid, PipeReader.LiveBytes, Decode, FramedBy, Known, AtRest, BodyReader.IsBody;
    r := Request(text, m.n, v, br.TakenNow(), br.delivered);
    if br.chunked {
      DecodeTaken(br.Since(), r.taken, r.body);
    }
  }

  lemma ReplyDone(ex: Exchange, written: bytes) returns (r: Reply)
    requires ex.br.pw == ex.rp.pw && ex.rp.payload == written
    requires ex.rp.start == ex.origin + if ex.br.continueSent then CONTINUE else []
    requires !ex.rp.noBody ==> ex.InStepAgain() && !ex.rp.sent.mute
    requires ex.rp.noBody ==> ex.rp.sent.mute
    requires ex.rp.noBody ==>
      || ex.rp.pw.conn.wire == ex.rp.start + HeadBytes(ex.rp.sent.head)
      || ex.rp.pw.conn.wire == ex.rp.start + HeadBytes(ex.rp.sent.head) + LAST
    ensures ReplyFine(r) && ex.rp.pw.conn.wire == ex.origin + ReplyBytes(r) && r.written == written
  {
    hide Framed, HeadBytes, ReadHead, Decode, LAST, CONTINUE, BodyReader.Since, BodyReader.TakenNow, Exchange.BodyTaken;
    var stray := ex.rp.noBody && ex.rp.pw.conn.wire == ex.rp.start + HeadBytes(ex.rp.sent.head) + LAST;
    r := Reply(ex.br.continueSent, ex.rp.sent, stray, written, ex.rp.Coding());
    var interim, head: bytes := if r.interim then CONTINUE else [], HeadBytes(r.sent.head);
    var end: bytes := if !r.sent.mute then Framed(r.sent) else if r.stray then LAST else [];
    assert ex.rp.pw.conn.wire == ex.origin + interim + head + end;
    assert ex.origin + interim + head + end == ex.origin + (interim + head + end);
  }

  /**
   * One request: true when the connection is kept, and then what the request took from the stream
   * is its head and its body, and what was sent is one reply.
   */
  method ServeOne(pr: PipeReader, pw: PipeWriter, coded: array<byte>, dst: array<byte>, parse: bytes -> Parsed,
                  reason: int -> bytes, ops: seq<Op>) returns (kept: bool, ghost s: Served)
    requires pr.Valid() && pr.kept == [] && pr.examined == 0 && pw.Valid() && Buffers(pr, pw, coded, dst)
    requires ParserFine(parse) && ReasonsFine(reason) && OpsFine(ops)
    modifies pr, pr.buf, pr.conn, pw, pw.buf, pw.conn, coded, dst
    ensures kept ==> pr.Valid() && pr.kept == [] && pr.examined == 0 && pw.Valid()
    ensures kept ==> RequestFine(s.request, parse) && ReplyFine(s.reply)
    ensures kept ==> pr.consumed == old(pr.consumed) + RequestBytes(s.request)
    ensures kept ==> pw.conn.wire == old(pw.conn.wire) + ReplyBytes(s.reply)
  {
    hide *;
    Apart(pr, pw, coded, dst);
    OpsAre(ops);
    s := *;
    var refusal := (status: int) => if status >= 0 then StatusReply(status, reason(status)) else [];
    var m, text := TakeHead(pr, pw, parse, refusal);
    if m.None? {
      return false, s;
    }
    var v := FramingOf(m.value);
    if v.Refused? {
      SendStatus(pw, refusal(v.status));
      return false, s;
    }
    var ex := Prepare(pr, pw, coded, m.value, v, reason);
    var rc, written := ex.Serve(ops, dst);
    if rc < 0 {
      return false, s;
    }
    ghost var request := RequestDone(ex, text, m.value, v, parse);
    ghost var reply := ReplyDone(ex, written);
    s := Served(request, reply);
    pr.Release();
    kept := true;
  }

  lemma ServedMore(served: seq<Served>, s: Served, parse: bytes -> Parsed)
    requires AllFine(served, parse) && RequestFine(s.request, parse) && ReplyFine(s.reply)
    ensures AllFine(served + [s], parse)
    ensures RequestsOf(served + [s]) == RequestsOf(served) + RequestBytes(s.request)
    ensures RepliesOf(served + [s]) == RepliesOf(served) + ReplyBytes(s.reply)
  {
    hide RequestFine, ReplyFine, RequestBytes, ReplyBytes;
    assert (served + [s])[..|served|] == served;
  }

  lemma NoneServed(parse: bytes -> Parsed)
    ensures AllFine([], parse) && RequestsOf([]) == [] && RepliesOf([]) == []
  {
  }

  /**
   * A connection: one program after the other, each with the request that comes next. As long as it
   * is kept, the stream is the requests served, heads and bodies end to end, and then what is not
   * read yet; and what the peer was sent is their replies end to end, each one a recipient finds the
   * end of. However the input was cut, whatever the programs read and wrote, with short sends.
   */
  method ServeAll(pr: PipeReader, pw: PipeWriter, coded: array<byte>, dst: array<byte>, parse: bytes -> Parsed,
                  reason: int -> bytes, programs: seq<seq<Op>>) returns (kept: bool, ghost served: seq<Served>)
    requires pr.Valid() && pr.kept == pr.consumed == [] && pr.examined == 0 && pw.Valid() && pw.conn.wire == []
    requires Buffers(pr, pw, coded, dst) && ParserFine(parse) && ReasonsFine(reason)
    requires forall i :: 0 <= i < |programs| ==> OpsFine(programs[i])
    modifies pr, pr.buf, pr.conn, pw, pw.buf, pw.conn, coded, dst
    ensures AllFine(served, parse) && if kept then |served| == |programs| else |served| < |programs|
    ensures kept ==> pr.Valid() && Entered(pr.log) == RequestsOf(served) + pr.LiveBytes()
    ensures kept ==> pw.conn.wire == RepliesOf(served)
  {
    hide *;
    kept, served := true, [];
    NoneServed(parse);
    for i := 0 to |programs|
      invariant kept && pr.Valid() && pr.kept == [] && pr.examined == 0 && pw.Valid()
      invariant AllFine(served, parse) && |served| == i
      invariant pr.consumed == RequestsOf(served) && pw.conn.wire == RepliesOf(served)
    {
      ghost var s;
      kept, s := ServeOne(pr, pw, coded, dst, parse, reason, programs[i]);
      if !kept {
        return;
      }
      ServedMore(served, s, parse);
      served := served + [s];
    }
    pr.Fifo();
  }
}
