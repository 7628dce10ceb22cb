/**
 * The reply side of lib/http/engine.c: what the handler writes gathers in the slab; the first
 * flush decides the framing and sends the head; a filter may stand in between; finish ends it.
 */
module Replying {
  import opened Bytes
  import opened Chunked
  import opened ReplyHead
  import opened ReplyFraming
  import opened ConnOutput
  import opened PipeWriting
  import opened ResponseState
  import opened BodyReading

  /** One call of a filter: what it returns, how much input it took, what it put out. */
  datatype Run = Run(rc: int, took: nat, out: bytes)

  /** What an on_head function does: it may set the status, declare a length, add lines, install a filter. */
  datatype Hook = Hook(status: Option<int>, length: Option<nat>, lines: seq<bytes>, filter: Option<seq<Run>>)

  datatype Kind = Full | Asked | Final

  /** Why a reply failed. */
  datatype Cause =
    | NoCause
    | Peer         // a send failed
    | LongHead     // the head is too long
    | Coder        // the filter failed, or its whole output does not fit
    | Overrun      // more was written than the length declared

  /** wire_status. */
  function WireStatus(status: int): (s: nat)
    ensures 100 <= s <= 999
  {
    if 100 <= status <= 999 then status else 500
  }

  predicate Bodyless(status: nat) {
    status < 200 || status == 204 || status == 304
  }

  /** What is on the wire, and what the response's fields say about it; `unsent` is a head that waits for the body. */
  ghost predicate OnWire(wire: bytes, unsent: bytes, start: bytes, s: Sent, noBody: bool, chunked: bool, close: bool, finished: bool) {
    && SentOk(s)
    && wire + unsent == start + HeadBytes(s.head) + Framed(s)
    && (unsent != [] ==> Framed(s) == [])
    && s.mute == noBody && chunked == s.head.framing.InChunks?
    && (s.ended ==> finished)
    && (s.head.framing.NoBody? ==> noBody)
    && (s.head.framing.UntilClose? ==> close)
  }

  /** The declared length is the one the head names, and is not exceeded. */
  ghost predicate InLength(s: Sent, hasLength: bool, contentLength: nat, bodySent: nat, finished: bool) {
    !s.mute ==>
      && bodySent == |s.entity|
      && (hasLength ==> s.head.framing == Length(contentLength) && bodySent <= contentLength)
      && (s.head.framing.Length? && !hasLength ==> finished)
  }

  lemma SentMore(wire: bytes, unsent: bytes, wire': bytes, start: bytes, s: Sent, noBody: bool, chunked: bool, close: bool, finished: bool,
                 data: bytes, extra: bytes, final: bool)
    requires OnWire(wire, unsent, start, s, noBody, chunked, close, finished) && !noBody && !s.ended && |data| <= SIZE_MAX
    requires chunked ==> extra == []
    requires final ==> finished
    requires wire' == wire + unsent + (if chunked then FrameOf(data) else data) + (if final && chunked then LAST else []) + extra
    ensures OnWire(wire', [], start, More(s, data, extra, final), noBody, chunked, close, finished)
    ensures More(s, data, extra, final).entity == s.entity + data + extra
  {
    hide SentOk, Framed, FrameOf, HeadBytes;
    MoreFrames(s, data, extra, final);
    var h := start + HeadBytes(s.head);
    Reassoc(h, [], Framed(s) + if chunked then FrameOf(data) else data, if final && chunked then LAST else [], extra);
    Five(h, Framed(s), if chunked then FrameOf(data) else data, if final && chunked then LAST else [], extra);
    assert wire' + [] == wire';
  }

  lemma Five(h: bytes, f: bytes, d: bytes, l: bytes, e: bytes)
    ensures h + f + d + l + e == h + (f + d + l + e)
  {
  }

  lemma HeadFirst(wire: bytes, h: Head, mute: bool, chunked: bool, close: bool, finished: bool)
    requires HeadOk(h) && chunked == h.framing.InChunks? && (h.framing.NoBody? ==> mute) && (h.framing.UntilClose? ==> close)
    ensures OnWire(wire, HeadBytes(h), wire, Sent(h, mute, [], [], false), mute, chunked, close, finished)
  {
    hide HeadOk, HeadBytes;
  }

  /** What send_status sends: the status, no body, and the connection closes. */
  function StatusReply(status: nat, reason: bytes): bytes {
    Lines([VERSION + Decimal(status) + [32] + reason, LENGTH + Decimal(0), CLOSE]) + CRLF
  }

  lemma LengthKept(s: Sent, hasLength: bool, contentLength: nat, bodySent: nat, finished: bool, data: bytes, extra: bytes, final: bool)
    requires InLength(s, hasLength, contentLength, bodySent, finished)
    requires s.head.framing.InChunks? ==> extra == []
    requires hasLength ==> bodySent + |data| + |extra| <= contentLength
    ensures InLength(More(s, data, extra, final), hasLength, contentLength, bodySent + |data| + |extra|, finished)
  {
  }

  lemma WholeData(all: bytes, data: bytes)
    requires |data| == |all| && data == all[..|data|]
    ensures data == all
  {
  }

  lemma Bite(fed: bytes, data: bytes, done: nat, n: nat)
    requires done + n <= |data|
    ensures fed + data[done..] == (fed + data[done..done + n]) + data[done + n..]
  {
  }

  /** What an on_head function adds does not break the head's framing. */
  ghost predicate HookFine(h: Hook) {
    && (forall i :: 0 <= i < |h.lines| ==> QuietLine(h.lines[i]))
    && (h.length.Some? ==> h.length.value <= SIZE_MAX)
  }

  /** send_status: a reply of its own instead of what is pending; the connection is done for. */
  method SendStatus(pw: PipeWriter, text: bytes)
    requires pw.Valid()
    modifies pw`head, pw`len, pw`tail, pw`failed, pw.buf, pw.conn
    ensures pw.Valid() && (!pw.failed ==> pw.conn.wire == old(pw.conn.wire) + text)
  {
    pw.Reset();
    var rc := pw.Write(text);
    if rc == 0 {
      rc := pw.Flush();
    }
  }

  lemma {:induction false} LinesLength(ls: seq<bytes>, n: nat)
    requires forall i :: 0 <= i < |ls| ==> |ls[i]| <= n
    ensures |Lines(ls)| <= |ls| * (n + 2)
  {
    if ls != [] {
      LinesLength(ls[1..], n);
      assert |ls| * (n + 2) == (|ls| - 1) * (n + 2) + (n + 2);
    }
  }

  /** A head without lines of the handler's, and nothing long in it, has room. */
  lemma ShortHead(h: Head)
    requires h.extra == [] && |h.reason| <= 500 && |h.contentType| <= 500 && h.status <= 999
    requires h.framing.Length? ==> h.framing.n <= SIZE_MAX
    ensures |HeadBytes(h)| + 20 <= HEAD_CAP
  {
    LengthDigits(h.status);
    if h.framing.Length? {
      LengthDigits(h.framing.n);
    }
    hide Decimal;
    var ls := HeadLines(h);
    assert |ls| <= 4;
    forall i | 0 <= i < |ls|
      ensures |ls[i]| <= 600
    {
    }
    hide Lines;
    LinesLength(ls, 600);
    assert |ls| * 602 <= 4 * 602;
  }

  class Replier {
    const pw: PipeWriter
    const cw: PipeWriter
    const res: Response
    const body: BodyReader
    const keepAlive: bool
    const minor: nat
    const headOnly: bool
    const reason: int -> bytes
    var noBody: bool
    var onHead: Option<Hook>
    var filter: Option<seq<Run>>

    /** What the peer had been sent before the head, and the reply since. */
    ghost var start: bytes
    ghost var sent: Sent
    /** What the handler wrote; of it, what the filter took; and what the filter put out. */
    ghost var payload: bytes
    ghost var fed: bytes
    ghost var coded: bytes
    ghost var finished: bool
    ghost var cause: Cause

    /** The two writers share a connection and nothing else. */
    ghost predicate Parts() {
      && pw != cw && pw.buf != cw.buf && pw.conn == cw.conn
      && FrameRoom(pw) && FrameRoom(cw)
      && forall s :: 100 <= s <= 999 ==> IsLine(VERSION + Decimal(s) + [32] + reason(s))
    }

    /** The response's fields make a head a recipient can read. */
    ghost predicate Speakable()
      reads res`lines, res`contentType, res`contentLength, this`onHead
    {
      && (forall i :: 0 <= i < |res.lines| ==> QuietLine(res.lines[i]))
      && IsLine(TYPE + res.contentType)
      && res.contentLength <= SIZE_MAX
      && (onHead.Some? ==> HookFine(onHead.value))
    }

    ghost predicate Writers()
      reads pw`head, pw`len, pw`tail, cw`head, cw`len, cw`tail, res`failed
    {
      && Parts() && pw.Valid() && cw.Valid()
      && (!res.failed ==> pw.head == pw.tail == cw.head == cw.tail == 0)
    }

    /** A filter stands in between; for HEAD it does not matter. */
    predicate Coding()
      reads this`filter
    {
      filter.Some? && !headOnly
    }

    /** Nothing written is lost or doubled: it is on the wire, in the filter, or in a slab. */
    ghost predicate Tallied()
      reads this`filter, this`noBody, this`sent, this`payload, this`fed, this`coded, pw`head, pw`len, pw`tail, cw`head, cw`len, cw`tail, pw.buf, cw.buf, res`headSent
      requires pw.Valid() && cw.Valid()
    {
      var entity := if res.headSent then sent.entity else [];
      && (!Coding() ==> fed == coded == [] && cw.len == 0)
      && ((res.headSent && noBody)
          || if Coding() then payload == fed + pw.Data() && coded == entity + cw.Data() else payload == entity + pw.Data())
    }

    /** What a failure that is no failure of the connection says. */
    ghost predicate Explained()
      reads this`cause, this`payload, this`sent, this`filter, pw`failed, cw`failed, res`failed, res`headSent, res`hasLength, res`contentLength
    {
      ExplainedBy(pw.failed)
    }

    ghost predicate ExplainedBy(broken: bool)
      reads this`cause, this`payload, this`sent, this`filter, cw`failed, res`failed, res`headSent, res`hasLength, res`contentLength
    {
      match cause
      case NoCause => !res.failed
      case Peer => res.failed && (broken || cw.failed)
      case Overrun => res.failed && res.headSent && res.hasLength && |payload| > res.contentLength && |sent.entity| == res.contentLength
      case LongHead => res.failed && |HeadBytes(sent.head)| + 20 > HEAD_CAP
      case Coder => res.failed && filter.Some?
    }

    /** The wire and the head are as `sent` says. */
    ghost predicate Sending(unsent: bytes)
      reads this`start, this`sent, this`noBody, this`finished, this`filter, pw.conn, res`chunked, res`close, res`hasLength, res`contentLength, res`bodySent
    {
      SendingAt(pw.conn.wire, unsent, res.close)
    }

    ghost predicate SendingAt(wire: bytes, unsent: bytes, close: bool)
      reads this`start, this`sent, this`noBody, this`finished, this`filter, res`chunked, res`hasLength, res`contentLength, res`bodySent
    {
      && OnWire(wire, unsent, start, sent, noBody, res.chunked, close, finished)
      && InLength(sent, res.hasLength, res.contentLength, res.bodySent, finished)
      && (Coding() && !finished ==> !res.hasLength)
    }

    /** A head, waiting or sent already, and everything behind it in step with the wire; the body goes on. */
    ghost predicate Outgoing(head: bytes)
      reads this`start, this`sent, this`noBody, this`finished, pw.conn, res`chunked, res`close, res`hasLength, res`contentLength, res`bodySent
    {
      OutgoingAs(head, finished)
    }

    ghost predicate OutgoingAs(head: bytes, finished: bool)
      reads this`start, this`sent, this`noBody, pw.conn, res`chunked, res`close, res`hasLength, res`contentLength, res`bodySent
    {
      && OnWire(pw.conn.wire, head, start, sent, noBody, res.chunked, res.close, finished) && !sent.ended
      && InLength(sent, res.hasLength, res.contentLength, res.bodySent, finished)
      && sent.mute == noBody && res.chunked == sent.head.framing.InChunks?
    }

    /** Where the reply begins on the wire: behind everything, until its head is out. */
    ghost function Begun(): bytes
      reads this`start, pw.conn, res`headSent
    {
      if res.headSent then start else pw.conn.wire
    }

    ghost predicate Valid()
      reads this, pw, cw, pw.buf, cw.buf, pw.conn, res
    {
      && Writers() && Speakable() && Explained()
      && (!res.headSent && !res.failed ==> res.bodySent == 0 && !res.chunked)
      && (!res.failed ==> Tallied())
      && (res.headSent && cause in {NoCause, Overrun} ==> Sending([]))
    }

    /** The parts of Valid, as far as the wire, a failure of it and the closing do not come into them. */
    ghost predicate Stands(wire: bytes, broken: bool, close: bool)
      reads this, pw`head, pw`len, pw`tail, cw`head, cw`len, cw`tail, cw`failed, pw.buf, cw.buf
      reads res`lines, res`contentType, res`contentLength, res`failed, res`headSent, res`bodySent, res`chunked, res`hasLength
    {
      && Writers() && Speakable() && ExplainedBy(broken)
      && (!res.headSent && !res.failed ==> res.bodySent == 0 && !res.chunked)
      && (!res.failed ==> Tallied())
      && (res.headSent && cause in {NoCause, Overrun} ==> SendingAt(wire, [], close))
    }

    lemma ValidStands()
      ensures Valid() <==> Stands(pw.conn.wire, pw.failed, res.close)
    {
      hide Writers, Speakable, Tallied, OnWire, InLength, ExplainedBy;
    }

    lemma Apart()
      requires Valid()
      ensures pw != cw && pw.buf != cw.buf
    {
      hide Speakable, Tallied, OnWire, InLength, ExplainedBy;
    }

    /** Something else was sent before the head, or the connection failed, or it is to close. */
    lemma StandsStill(wire: bytes, broken: bool, close: bool, wire': bytes, broken': bool, close': bool)
      requires Stands(wire, broken, close) && (broken ==> broken') && (close ==> close') && (res.headSent ==> wire' == wire)
      ensures Stands(wire', broken', close')
    {
      hide Writers, Speakable, Tallied, InLength, SentOk, Framed, HeadBytes;
    }

    constructor (pw: PipeWriter, cw: PipeWriter, res: Response, body: BodyReader, keepAlive: bool, minor: nat, headOnly: bool, reason: int -> bytes)
      requires pw.Valid() && cw.Valid() && pw != cw && pw.buf != cw.buf && pw.conn == cw.conn && FrameRoom(pw) && FrameRoom(cw)
      requires pw.head == pw.len == pw.tail == cw.head == cw.len == cw.tail == 0
      requires forall s :: 100 <= s <= 999 ==> IsLine(VERSION + Decimal(s) + [32] + reason(s))
      requires res.lines == [] && IsLine(TYPE + res.contentType) && res.contentLength == res.bodySent == 0
      requires !res.headSent && !res.chunked && !res.failed && !res.hasLength
      ensures Valid() && this.pw == pw && this.cw == cw && this.res == res && this.body == body
      ensures this.keepAlive == keepAlive && this.minor == minor && this.headOnly == headOnly
      ensures payload == [] && !finished && filter.None? && onHead.None? && cause == NoCause
    {
      this.pw, this.cw, this.res, this.body := pw, cw, res, body;
      this.keepAlive, this.minor, this.headOnly, this.reason := keepAlive, minor, headOnly, reason;
      noBody, onHead, filter := false, None, None;
      start, payload, fed, coded := [], [], [], [];
      sent := Sent(Head(200, [], [], NoBody, false, 0, []), false, [], [], false);
      finished, cause := false, NoCause;
    }

    /** fail. */
    method Fail(ghost why: Cause) returns (rc: int)
      requires Parts() && pw.Valid() && cw.Valid() && Speakable() && !res.failed && why != NoCause && why != Overrun
      requires why == Peer ==> pw.failed || cw.failed
      requires why == LongHead ==> |HeadBytes(sent.head)| + 20 > HEAD_CAP
      requires why == Coder ==> filter.Some?
      modifies res`failed, this`cause
      ensures Valid() && rc == -1 && res.failed && cause == why
    {
      hide OnWire, InLength, PipeWriter.Pending;
      res.failed := true;
      cause := why;
      return -1;
    }

    /** An on_head function, run once, when the head is about to be built; not for HEAD. */
    method RunHook()
      requires Writers() && Speakable() && !res.failed && !res.headSent && cause == NoCause && Tallied() && !finished
      modifies this`onHead, this`filter, res`status, res`hasLength, res`contentLength, res`lines
      ensures Writers() && Speakable() && Tallied() && (headOnly || onHead.None?)
      ensures headOnly ==> res.status == old(res.status) && res.lines == old(res.lines)
      ensures headOnly || old(onHead).None? ==> filter == old(filter) && res.hasLength == old(res.hasLength) && res.contentLength == old(res.contentLength)
      ensures old(filter).Some? ==> filter == old(filter)
    {
      hide QuietLine, IsLine;
      if onHead.None? || headOnly {
        return;
      }
      var h := onHead.value;
      onHead := None;
      if h.status.Some? {
        res.status := h.status.value;
      }
      if h.length.Some? {
        res.hasLength, res.contentLength := true, h.length.value;
      }
      res.lines := res.lines + h.lines;
      if h.filter.Some? && filter.None? {
        filter := h.filter;
      }
    }

    /** The head: status, framing, and whether the connection closes; None: it does not fit, and a 500 went out instead. */
    method StartHead(dataLen: nat, final: bool) returns (ok: bool, head: bytes)
      requires Writers() && Speakable() && !res.failed && !res.headSent && !res.chunked && res.bodySent == 0 && dataLen <= SIZE_MAX
      requires cause == NoCause && finished == final
      modifies this`noBody, this`start, this`sent, this`cause, res`contentLength, res`chunked, res`close, res`headSent, res`failed,
               pw`head, pw`len, pw`tail, pw`failed, pw.buf, pw.conn
      ensures !ok ==> Valid() && res.failed && cause == LongHead
      ensures ok ==> Writers() && Speakable() && res.headSent && !res.failed && cause == NoCause
      ensures ok ==> sent.entity == [] && !sent.ended && head != []
      ensures ok ==> start == old(pw.conn.wire)
      ensures ok ==> noBody == (headOnly || Bodyless(WireStatus(res.status)))
      ensures ok && !noBody && final ==> sent.head.framing == Length(dataLen)
      ensures ok && res.hasLength && !noBody ==> res.contentLength == if final then dataLen else old(res.contentLength)
      ensures ok ==> pw.conn.wire == old(pw.conn.wire) && pw.len == old(pw.len) && pw.Data() == old(pw.Data())
      ensures ok ==> (sent.head.keep ==> !res.close)
      ensures old(res.close) ==> res.close
      ensures ok && !noBody && sent.head.framing.Length? ==> res.hasLength || final
      ensures ok && res.chunked ==> !res.hasLength && !final && minor >= 1
      ensures ok && old(HeadChunks()) && !final ==> res.chunked
      ensures ok ==> |head| <= HEAD_CAP && pw.Credit() == old(pw.Credit())
      ensures old(WillGo()) ==> ok
      ensures ok ==> Outgoing(head)
    {
      hide *;
      var h := PlanHead(dataLen, final);
      ok, head := BuildHead(h);
      if ok {
        WritersAre();
        BeginWith(h);
      } else {
        NoRoomFor(h);
      }
    }

    /** What the head says; whether the connection closes is settled now. */
    method PlanHead(dataLen: nat, final: bool) returns (h: Head)
      requires Writers() && Speakable() && !res.headSent && !res.chunked && dataLen <= SIZE_MAX
      modifies this`noBody, res`contentLength, res`chunked, res`close
      ensures Writers() && Speakable() && HeadOk(h) && (h.framing.Length? ==> h.framing.n <= SIZE_MAX)
      ensures noBody == (headOnly || Bodyless(WireStatus(res.status)))
      ensures res.chunked == h.framing.InChunks? && (h.framing.NoBody? ==> noBody) && (h.framing.UntilClose? ==> res.close)
      ensures !noBody && final ==> h.framing == Length(dataLen)
      ensures res.hasLength && !noBody ==> h.framing == Length(res.contentLength)
      ensures res.hasLength && !noBody ==> res.contentLength == if final then dataLen else old(res.contentLength)
      ensures (h.keep ==> !res.close) && (old(res.close) ==> res.close)
      ensures !noBody && h.framing.Length? ==> res.hasLength || final
      ensures res.chunked ==> !res.hasLength && !final && minor >= 1
      ensures old(HeadChunks()) && !final ==> res.chunked
      ensures old(WillGo()) ==> |HeadBytes(h)| + 20 <= HEAD_CAP
    {
      hide QuietLine, IsLine, HeadBytes, Bodyless, PipeWriter.Valid;
      var framing := Decide(dataLen, final);
      UnreadBody();
      var status := WireStatus(res.status);
      h := Head(status, reason(status), res.contentType, framing, keepAlive && !res.close, minor, res.lines);
      SpeakableHead(h);
      if h.extra == [] && |h.reason| <= 500 && |h.contentType| <= 500 {
        ShortHead(h);
      }
    }

    /** The head does not fit: a 500 goes out instead. */
    method NoRoomFor(h: Head)
      requires Writers() && Speakable() && !res.failed && cause == NoCause && |HeadBytes(h)| + 20 > HEAD_CAP
      modifies this`sent, this`cause, res`failed, pw`head, pw`len, pw`tail, pw`failed, pw.buf, pw.conn
      ensures Valid() && res.failed && cause == LongHead
    {
      hide QuietLine, IsLine, OnWire, Tallied, HeadBytes, Sending;
      sent := Sent(h, noBody, [], [], false);
      Status(500);
      var rc := Fail(LongHead);
    }

    /** The head is built: from here on the reply is what `sent` says. */
    method BeginWith(h: Head)
      requires HeadOk(h) && res.chunked == h.framing.InChunks? && (h.framing.NoBody? ==> noBody) && (h.framing.UntilClose? ==> res.close)
      requires res.bodySent == 0 && (res.hasLength && !noBody ==> h.framing == Length(res.contentLength))
      requires !noBody && h.framing.Length? ==> res.hasLength || finished
      modifies this`start, this`sent, res`headSent
      ensures res.headSent && sent == Sent(h, noBody, [], [], false) && start == pw.conn.wire
      ensures Outgoing(HeadBytes(h))
    {
      hide OnWire, HeadOk, HeadBytes;
      res.headSent := true;
      start := pw.conn.wire;
      sent := Sent(h, noBody, [], [], false);
      HeadFirst(pw.conn.wire, h, noBody, res.chunked, res.close, finished);
    }

    lemma SpeakableHead(h: Head)
      requires Parts() && Speakable() && 100 <= h.status <= 999
      requires h.reason == reason(h.status) && h.contentType == res.contentType && h.extra == res.lines
      ensures HeadOk(h)
    {
      hide IsLine, QuietLine;
    }

    /** A reply to HEAD whose next flush, if not the last, names chunks in the head. */
    predicate HeadChunks()
      reads this`filter, res`headSent, res`hasLength, res`status
    {
      headOnly && minor >= 1 && !res.headSent && !res.hasLength && !Bodyless(WireStatus(res.status)) && filter.None?
    }

    /** ... and its head is short enough to be sent. */
    ghost predicate WillGo()
      reads this`filter, res`headSent, res`hasLength, res`status, res`lines, res`contentType
    {
      HeadChunks() && res.lines == [] && |res.contentType| <= 500 && ShortReasons()
    }

    ghost predicate ShortReasons() {
      forall s :: 100 <= s <= 999 ==> |reason(s)| <= 500
    }

    /** The framing: a length when the whole body is there or one was declared, else chunks, or until close before 1.1. */
    method Decide(dataLen: nat, final: bool) returns (framing: Framing)
      requires !res.headSent && !res.chunked && dataLen <= SIZE_MAX && res.contentLength <= SIZE_MAX
      modifies this`noBody, res`contentLength, res`chunked, res`close
      ensures noBody == (headOnly || Bodyless(WireStatus(res.status))) && res.contentLength <= SIZE_MAX
      ensures old(res.close) ==> res.close
      ensures res.chunked == framing.InChunks? && (res.chunked ==> !res.hasLength && !final && minor >= 1)
      ensures old(HeadChunks()) && !final ==> res.chunked
      ensures framing.NoBody? ==> noBody
      ensures framing.UntilClose? ==> res.close
      ensures framing.Length? ==> framing.n <= SIZE_MAX
      ensures framing.Length? && !noBody ==> if res.hasLength then framing.n == res.contentLength else final
      ensures res.hasLength && !noBody ==> framing.Length? && res.contentLength == if final then dataLen else old(res.contentLength)
      ensures !noBody && final ==> framing == Length(dataLen)
    {
      var status := WireStatus(res.status);
      var bodyless := Bodyless(status);
      noBody := headOnly || bodyless;
      var declared := res.hasLength && (!final || noBody);
      var bodyLen := if declared then res.contentLength else dataLen;
      if res.hasLength && !declared {
        res.contentLength := dataLen;
      }
      framing := Length(bodyLen);
      if bodyless {
        framing := if status == 304 && res.hasLength then framing else NoBody;
      } else if !res.hasLength && !final {
        if minor >= 1 {
          framing := InChunks;
          res.chunked := true;
        } else {
          framing := UntilClose;
          res.close := true;
        }
      }
    }

    /** A body left unread that is too long to drain, or that waits for a 100, closes the connection. */
    method UnreadBody()
      modifies res`close
      ensures old(res.close) ==> res.close
    {
      if !body.bodyDone && body.bodyErr == 0 {
        // In size_t a difference below zero is above the limit too.
        var left := body.contentLength - body.bodyRead;
        if body.chunked || left > DRAIN_MAX || left < 0 || (body.expectContinue && !body.continueSent) {
          res.close := true;
        }
      }
    }

    /** A status and no body, and the connection is done for. */
    method Status(status: nat)
      requires pw.Valid()
      modifies pw`head, pw`len, pw`tail, pw`failed, pw.buf, pw.conn
      ensures pw.Valid() && (!pw.failed ==> pw.conn.wire == old(pw.conn.wire) + StatusReply(status, reason(status)))
    {
      hide StatusReply;
      SendStatus(pw, StatusReply(status, reason(status)));
    }

    // Sending.

    /** The slab's bytes that go, cut to what a declared length leaves; over: some did not. */
    method CutTo(sw: PipeWriter, extra: bytes) returns (e: bytes, over: bool)
      requires sw.Valid() && (res.hasLength ==> res.bodySent <= res.contentLength)
      modifies sw`len
      ensures sw.Valid() && sw.len <= old(sw.len) && e <= extra && sw.Data() == old(sw.Data())[..sw.len]
      ensures !res.hasLength ==> !over && e == extra && sw.len == old(sw.len)
      ensures res.hasLength ==> over == (res.bodySent + old(sw.len) + |extra| > res.contentLength)
      ensures res.hasLength ==> res.bodySent + sw.len + |e| == if over then res.contentLength else res.bodySent + old(sw.len) + |extra|
      ensures !over ==> e == extra && sw.len == old(sw.len)
      ensures over && sw.len < old(sw.len) ==> e == []
    {
      e, over := extra, false;
      if res.hasLength {
        var left := res.contentLength - res.bodySent;
        if sw.len > left {
          sw.len := left;
          over := true;
        }
        left := left - sw.len;
        if |e| > left {
          e := e[..left];
          over := true;
        }
      }
    }

    /** What is pending goes out in the framing of the reply, behind a head that waits. */
    method SendBody(sw: PipeWriter, head: bytes, extra: bytes, final: bool) returns (rc: int)
      requires Writers() && Speakable() && !res.failed && cause == NoCause && res.headSent && !noBody && Tallied()
      requires sent.mute == noBody && res.chunked == sent.head.framing.InChunks?
      requires sw == (if Coding() then cw else pw) && (Coding() ==> extra == [] && pw.len == 0)
      requires OnWire(pw.conn.wire, head, start, sent, noBody, res.chunked, res.close, finished) && !sent.ended
      requires InLength(sent, res.hasLength, res.contentLength, res.bodySent, finished)
      requires Coding() && !finished ==> !res.hasLength
      requires Coding() && res.hasLength ==> res.bodySent + sw.len <= res.contentLength
      requires final ==> finished
      requires res.chunked ==> extra == []
      modifies sw`head, sw`len, sw`tail, sw`failed, sw.buf, sw.conn, res`bodySent, res`failed, this`sent, this`payload, this`cause
      ensures Valid() && payload == old(payload) + extra
      ensures rc == (if res.failed then -1 else 0)
      ensures res.failed ==> cause in {Peer, Overrun} && (cause == Overrun ==> !Coding())
      ensures rc == 0 ==> pw.len == 0 && cw.len == 0
      ensures rc == 0 ==> sent.entity == old(sent.entity + sw.Data()) + extra && (res.chunked ==> sent.ended == final) && sent.head == old(sent.head)
    {
      hide QuietLine, IsLine, OnWire, InLength, Tallied, PipeWriter.Data, Sending, FrameOf, Speakable;
      ghost var all := sw.Data();
      BeforeSending(all);
      var ok, over := SendPart(sw, head, extra, final);
      payload := payload + extra;
      if !ok {
        rc := Fail(Peer);
        return;
      }
      if over {
        res.failed := true;
        cause := Overrun;
        return -1;
      }
      AfterSending(old(payload), extra);
      return 0;
    }

    /** Cut, counted and sent. */
    method SendPart(sw: PipeWriter, head: bytes, extra: bytes, final: bool) returns (ok: bool, over: bool)
      requires sw.Valid() && FrameRoom(sw) && sw.head == 0 && sw.tail == 0 && sw.conn == pw.conn
      requires OnWire(pw.conn.wire, head, start, sent, noBody, res.chunked, res.close, finished) && !sent.ended && !noBody
      requires InLength(sent, res.hasLength, res.contentLength, res.bodySent, finished)
      requires res.bodySent == |sent.entity| && (res.hasLength ==> res.bodySent <= res.contentLength)
      requires sent.mute == noBody && res.chunked == sent.head.framing.InChunks?
      requires Coding() && !finished ==> !res.hasLength
      requires final ==> finished
      requires res.chunked ==> extra == []
      modifies sw`head, sw`len, sw`tail, sw`failed, sw.buf, sw.conn, res`bodySent, this`sent
      ensures sw.Valid() && (if ok then sw.head == sw.len == sw.tail == 0 else sw.failed)
      ensures over <==> res.hasLength && old(res.bodySent + sw.len) + |extra| > res.contentLength
      ensures ok ==> Sending([]) && (over ==> |sent.entity| == res.contentLength)
      ensures ok && !over ==> sent.entity == old(sent.entity + sw.Data()) + extra
      ensures ok ==> sent.head == old(sent.head) && sent.ended == (final && res.chunked) && sent.mute == noBody && res.chunked == sent.head.framing.InChunks?
    {
      hide OnWire, InLength, PipeWriter.Data, Sending, FrameOf;
      ghost var all := sw.Data();
      var e;
      e, over := CutTo(sw, extra);
      ghost var data := sw.Data();
      ghost var wire := pw.conn.wire;
      res.bodySent := res.bodySent + sw.len + |e|;
      ok := SendFrame(sw, head, e, res.chunked, final && res.chunked);
      if !ok {
        return;
      }
      SentMore(wire, head, pw.conn.wire, start, sent, noBody, res.chunked, res.close, finished, data, e, final);
      LengthKept(sent, res.hasLength, res.contentLength, res.bodySent - |data| - |e|, finished, data, e, final);
      sent := More(sent, data, e, final);
      SendingIs();
      if !over {
        WholeData(all, data);
      }
    }

    /** What the tally and the length say before data goes out. */
    lemma BeforeSending(data: bytes)
      requires pw.Valid() && cw.Valid() && res.headSent && !noBody && sent.mute == noBody && Tallied()
      requires data == if Coding() then cw.Data() else pw.Data()
      requires InLength(sent, res.hasLength, res.contentLength, res.bodySent, finished)
      ensures res.bodySent == |sent.entity| && (res.hasLength ==> res.bodySent <= res.contentLength && sent.head.framing.Length?)
      ensures if Coding() then coded == sent.entity + data && payload == fed + pw.Data() else payload == sent.entity + data
      ensures !Coding() ==> fed == coded == [] && cw.len == 0
    {
    }

    /** And after: both slabs are empty, and what was in them is framed. */
    lemma AfterSending(was: bytes, extra: bytes)
      requires pw.Valid() && cw.Valid() && res.headSent && pw.len == cw.len == 0
      requires payload == was + extra && (!Coding() ==> fed == coded == [])
      requires if Coding() then extra == [] && was == fed && coded == sent.entity else sent.entity == was + extra
      ensures Tallied()
    {
    }

    lemma SendingIs()
      requires OnWire(pw.conn.wire, [], start, sent, noBody, res.chunked, res.close, finished)
      requires InLength(sent, res.hasLength, res.contentLength, res.bodySent, finished)
      requires Coding() && !finished ==> !res.hasLength
      ensures Sending([])
    {
    }

    // The filter.

    /** The tally while the filter works: `left` bytes of the slab are still to be fed to it. */
    ghost predicate Feeding(left: nat)
      reads this`filter, this`sent, this`payload, this`fed, this`coded, pw`head, pw`len, pw`tail, cw`head, cw`len, cw`tail, pw.buf, cw.buf, res`headSent
      requires pw.Valid() && cw.Valid() && left <= pw.len
    {
      && Coding()
      && payload == fed + pw.Data()[pw.len - left..]
      && coded == (if res.headSent then sent.entity else []) + cw.Data()
    }

    /** One call of the filter: the input it took, its output behind what is pending. */
    method RunFilter(left: nat) returns (ok: bool, run: Run)
      requires pw.Valid() && cw.Valid() && Parts() && cw.tail == 0 && left <= pw.len && Coding() && Feeding(left)
      modifies this`filter, this`fed, this`coded, cw`len, cw.buf
      ensures pw.Valid() && cw.Valid()
      ensures Coding()
      ensures ok ==> run.rc >= 0 && run.took <= left && Feeding(left - run.took) && cw.len == old(cw.len) + |run.out|
      ensures ok ==> Coding() && |filter.value| < |old(filter).value|
    {
      hide PipeWriter.Pending, PipeWriter.Data;
      run := Run(-1, 0, []);
      if filter.value != [] {
        run := filter.value[0];
        filter := Some(filter.value[1..]);
      }
      if run.rc < 0 || run.took > left || |run.out| > cw.cap - cw.len {
        return false, run;
      }
      ghost var data := pw.Data();
      ghost var done := pw.len - left;
      Bite(fed, data, done, run.took);
      Assoc(if res.headSent then sent.entity else [], cw.Data(), run.out);
      fed := fed + data[done..done + run.took];
      coded := coded + run.out;
      cw.Append(run.out);
      return true, run;
    }

    /** send_coded: the filter's output so far goes out, the head first if it still waits. */
    method SendCoded(head: bytes) returns (ok: bool)
      requires pw.Valid() && cw.Valid() && Parts() && cw.head == cw.tail == 0
      requires OnWire(pw.conn.wire, head, start, sent, noBody, res.chunked, res.close, finished) && !sent.ended && !noBody
      requires InLength(sent, res.hasLength, res.contentLength, res.bodySent, finished) && !res.hasLength && res.headSent
      modifies cw`head, cw`len, cw`tail, cw`failed, cw.buf, cw.conn, res`bodySent, this`sent
      ensures cw.Valid() && (if ok then cw.head == cw.len == cw.tail == 0 else cw.failed)
      ensures ok ==> OnWire(pw.conn.wire, [], start, sent, noBody, res.chunked, res.close, finished) && !sent.ended
      ensures ok ==> InLength(sent, res.hasLength, res.contentLength, res.bodySent, finished)
      ensures ok ==> sent.entity == old(sent.entity + cw.Data()) && sent.head == old(sent.head)
    {
      hide SentOk, Framed, HeadBytes, PipeWriter.Data;
      var over;
      ok, over := SendPart(cw, head, [], false);
    }

    /** Where the reply stands while the filter works: nothing sent yet, or everything in step with the wire. */
    ghost predicate Spilling(spill: bool, head: bytes)
      reads this`start, this`sent, this`noBody, this`finished, this`filter, pw.conn, res`chunked, res`close, res`hasLength, res`contentLength,
            res`bodySent, res`headSent
    {
      if spill then
        && res.headSent && !noBody && !res.hasLength && !sent.ended
        && OnWire(pw.conn.wire, head, start, sent, noBody, res.chunked, res.close, finished)
        && InLength(sent, res.hasLength, res.contentLength, res.bodySent, finished)
      else !res.headSent
    }

    /** encode: the slab through the filter; its output gathers, and goes out each time it fills its room, when it may. */
    method Encode(head: bytes, spill: bool) returns (ok: bool, rest: bytes)
      requires Writers() && Speakable() && !res.failed && cause == NoCause && Coding() && Feeding(pw.len) && Spilling(spill, head)
      modifies this`filter, this`fed, this`coded, this`sent, this`cause, res`bodySent, res`failed, pw`len, cw, cw.buf, pw.conn
      ensures !ok ==> Valid() && res.failed && cause in {Peer, Coder}
      ensures ok ==> Writers() && !res.failed && cause == NoCause && Feeding(0) && Spilling(spill, rest) && pw.len == 0
      ensures ok ==> fed == payload && Coding() && sent.head == old(sent.head)
      ensures filter.Some?
      ensures ok && !spill ==> pw.conn.wire == old(pw.conn.wire) && res.bodySent == old(res.bodySent) && rest == head
    {
      hide OnWire, InLength, Feeding, Speakable;
      rest := head;
      var left: nat := pw.len;
      ok := true;
      var busy := true;
      while busy
        invariant Parts() && pw.Valid() && cw.Valid() && pw.head == pw.tail == cw.head == cw.tail == 0
        invariant Speakable() && !res.failed && cause == NoCause && filter.Some?
        invariant left <= pw.len && Feeding(left) && Spilling(spill, rest)
        invariant !spill ==> pw.conn.wire == old(pw.conn.wire) && res.bodySent == old(res.bodySent) && rest == head
        invariant (!busy ==> left == 0) && sent.head == old(sent.head)
        decreases |filter.value|, busy
      {
        ghost var runs := filter.value;
        var run;
        ok, run := RunFilter(left);
        if !ok {
          var rc := Fail(Coder);
          return;
        }
        left := left - run.took;
        if run.rc == 0 && left == 0 {
          busy := false;
        } else if cw.len == cw.cap {
          ok := Spill(rest, spill, left);
          if !ok {
            return;
          }
          rest := [];
        } else if run.took == 0 && run.out == [] {
          ok := false;
          var rc := Fail(Coder);
          return;
        }
      }
      FedAll();
      pw.len := 0;
      IsFed();
    }

    lemma FedAll()
      requires pw.Valid() && cw.Valid() && Feeding(0)
      ensures payload == fed && coded == (if res.headSent then sent.entity else []) + cw.Data() && Coding()
    {
    }

    lemma IsFed()
      requires pw.Valid() && cw.Valid() && pw.len == 0 && Coding()
      requires payload == fed && coded == (if res.headSent then sent.entity else []) + cw.Data()
      ensures Feeding(0)
    {
    }

    /** The room is full: out with it, or fail when the body was to go in one piece. */
    method Spill(head: bytes, spill: bool, left: nat) returns (ok: bool)
      requires Parts() && pw.Valid() && cw.Valid() && pw.head == pw.tail == cw.head == cw.tail == 0
      requires Speakable() && !res.failed && cause == NoCause && filter.Some?
      requires left <= pw.len && Feeding(left) && Spilling(spill, head)
      modifies this`sent, this`cause, res`bodySent, res`failed, cw`head, cw`len, cw`tail, cw`failed, cw.buf, pw.conn
      ensures !ok ==> Valid() && res.failed && cause in {Peer, Coder}
      ensures ok ==> spill && pw.Valid() && cw.Valid() && pw.head == pw.tail == cw.head == cw.tail == 0
      ensures ok ==> !res.failed && cause == NoCause && Feeding(left) && Spilling(spill, []) && sent.head == old(sent.head)
    {
      hide OnWire, InLength, Speakable, PipeWriter.Pending;
      if !spill {
        ok := false;
        var rc := Fail(Coder);
        return;
      }
      ok := SendCoded(head);
      if !ok {
        var rc := Fail(Peer);
        return;
      }
    }

    // The calls.

    /** A reply that carries no body: what was written is dropped, and the head goes out alone. */
    method SendMute(head: bytes) returns (rc: int)
      requires Parts() && pw.Valid() && cw.Valid() && Speakable() && !res.failed && cause == NoCause && res.headSent && noBody
      requires OnWire(pw.conn.wire, head, start, sent, noBody, res.chunked, res.close, finished)
      requires !Coding() ==> fed == coded == []
      requires Coding() && !finished ==> !res.hasLength
      modifies pw`head, pw`len, pw`tail, pw`failed, cw`head, cw`len, cw`tail, pw.conn, res`failed, this`cause
      ensures Valid() && rc == (if res.failed then -1 else 0) && (res.failed ==> cause == Peer)
      ensures pw.len == cw.len == 0
      ensures old(pw.Credit()) > 0 && |head| <= HEAD_CAP ==> rc == 0 && pw.Credit() >= old(pw.Credit()) - 1
    {
      hide SentOk, Framed, HeadBytes, QuietLine, IsLine;
      pw.Reset();
      cw.Reset();
      if head != [] {
        rc := pw.Through(head);
        if rc < 0 {
          rc := Fail(Peer);
          return;
        }
      }
      return 0;
    }

    /** flush_with: the head first if it is not out, then what is pending, through the filter if there is one, and extra bytes. */
    method FlushWith(kind: Kind, extra: bytes) returns (rc: int)
      requires Valid() && !finished
      requires extra != [] ==> kind == Full && RawFramed()
      modifies this`noBody, this`onHead, this`filter, this`start, this`sent, this`payload, this`fed, this`coded, this`finished, this`cause,
               res, pw, cw, pw.buf, cw.buf, pw.conn
      ensures Valid() && rc == (if res.failed then -1 else 0)
      ensures (old(res.failed) ==> res.failed) && (rc == 0 ==> Begun() == old(Begun()))
      ensures finished == (kind == Final && !old(res.failed))
      ensures payload == old(payload) + (if old(res.failed) then [] else extra)
      ensures rc == 0 ==> res.headSent && pw.len == cw.len == 0
      ensures rc == 0 && kind == Final && !noBody ==> (res.chunked ==> sent.ended) && (sent.head.framing.Length? && !res.hasLength ==> sent.head.framing.n == |sent.entity|)
      ensures old(res.failed) ==> pw.conn.wire == old(pw.conn.wire) && cause == old(cause)
      ensures rc == 0 && old(HeadChunks()) && kind != Final ==> StrayEnd()
      ensures old(res.close) ==> res.close
      ensures old(filter).Some? ==> filter.Some?
      ensures old(WillGo() && !res.failed && pw.Credit() > 0) && kind != Final ==> rc == 0 && pw.Credit() >= old(pw.Credit()) - 1
    {
      hide QuietLine, IsLine, OnWire, InLength, Tallied, Feeding, PipeWriter.Data, Speakable, Sending, Spilling,
           PipeWriter.Credit, PipeWriter.Pending, Framed, HeadBytes, SentOk, Bodyless, HookFine, Writers;
      if res.failed {
        return -1;
      }
      var final := kind == Final;
      var ok, head, whole := Prepare(final);
      if !ok {
        payload := payload + extra;
        return -1;
      }
      if noBody {
        rc := NoneOut(head, extra);
      } else {
        rc := BodyOut(head, extra, final, whole);
      }
    }

    method NoneOut(head: bytes, extra: bytes) returns (rc: int)
      requires Writers() && Speakable() && !res.failed && cause == NoCause && res.headSent && Tallied() && noBody
      requires Coding() && !finished ==> !res.hasLength
      requires Outgoing(head)
      modifies this`payload, pw`head, pw`len, pw`tail, pw`failed, cw`head, cw`len, cw`tail, pw.conn, res`failed, this`cause
      ensures Valid() && rc == (if res.failed then -1 else 0) && payload == old(payload) + extra
      ensures pw.len == cw.len == 0
      ensures old(pw.Credit()) > 0 && |head| <= HEAD_CAP ==> rc == 0 && pw.Credit() >= old(pw.Credit()) - 1
    {
      hide QuietLine, IsLine, OnWire, PipeWriter.Data, Speakable, PipeWriter.Credit;
      NotTallied(payload + extra);
      payload := payload + extra;
      rc := SendMute(head);
    }

    method BodyOut(head: bytes, extra: bytes, final: bool, whole: bool) returns (rc: int)
      requires Writers() && Speakable() && !res.failed && cause == NoCause && res.headSent && Tallied() && !noBody
      requires if whole then Coding() && pw.len == 0 && final else (Coding() ==> !res.hasLength)
      requires whole && res.hasLength ==> res.bodySent + cw.len <= res.contentLength
      requires extra != [] ==> !Coding() && !res.chunked
      requires Outgoing(head) && finished == final
      modifies this`filter, this`fed, this`coded, this`sent, this`payload, this`cause, res`bodySent, res`failed,
               pw`head, pw`len, pw`tail, pw`failed, pw.buf, cw, cw.buf, pw.conn
      ensures Valid() && rc == (if res.failed then -1 else 0) && payload == old(payload) + extra
      ensures rc == 0 ==> pw.len == cw.len == 0 && (res.chunked ==> sent.ended == final) && sent.head == old(sent.head)
      ensures rc == 0 && old(if Coding() then whole else true) ==> sent.entity == old(sent.entity + if Coding() then cw.Data() else pw.Data()) + extra
      ensures old(filter).Some? ==> filter.Some?
      ensures rc == 0 && Coding() && !whole ==> !res.hasLength
    {
      hide QuietLine, IsLine, OnWire, InLength, Tallied, Feeding, PipeWriter.Data, Speakable, Sending, Spilling;
      var rest := head;
      if Coding() && !whole {
        var ok;
        ok, rest := EncodeMore(head);
        if !ok {
          assert payload + [] == payload;
          return -1;
        }
      }
      rc := SendBody(if Coding() then cw else pw, rest, extra, final);
    }

    /** What comes before the body is sent: the hook, a body coded whole, the head. */
    method Prepare(final: bool) returns (ok: bool, head: bytes, whole: bool)
      requires Valid() && !finished && !res.failed
      modifies this`noBody, this`onHead, this`filter, this`start, this`sent, this`fed, this`coded, this`finished, this`cause,
               res, pw, cw, pw.buf, cw.buf, pw.conn
      ensures finished == final && (old(res.close) ==> res.close) && (old(filter).Some? ==> filter.Some?)
      ensures ok ==> start == old(Begun())
      ensures !ok ==> Valid() && res.failed && cause in {Peer, Coder, LongHead}
      ensures ok ==> Writers() && Speakable() && !res.failed && cause == NoCause && res.headSent && Tallied()
      ensures ok ==> if whole then Coding() && pw.len == 0 && final else (Coding() ==> !res.hasLength && (!noBody ==> !sent.head.framing.Length?))
      ensures ok && whole && res.hasLength && !noBody ==> res.bodySent + cw.len <= res.contentLength
      ensures ok && final && !noBody && sent.head.framing.Length? && !res.hasLength ==>
        sent.head.framing.n == |sent.entity| + if Coding() then cw.len else pw.len
      ensures ok && old(RawFramed()) && !final ==> !Coding() && !res.chunked
      ensures ok && old(HeadChunks()) && !final ==> res.chunked && filter.None? && noBody
      ensures old(WillGo()) && !final ==> ok && |head| <= HEAD_CAP && pw.Credit() == old(pw.Credit())
      ensures ok ==> Outgoing(head)
    {
      hide QuietLine, IsLine, OnWire, InLength, Tallied, Speakable, Sending, PipeWriter.Data;
      if res.headSent {
        SendingOn(final);
        finished := final;
        return true, [], false;
      }
      RunHook();
      finished := final;
      ok, head, whole := FirstHead(final);
    }

    /** The head is out: everything stays in step, whether this is the last flush or not. */
    lemma SendingOn(final: bool)
      requires Sending([]) && !finished
      ensures !noBody && sent.head.framing.Length? ==> res.hasLength
      ensures Coding() ==> !res.hasLength
      ensures OutgoingAs([], final)
    {
      hide SentOk, Framed, HeadBytes;
    }

    /** The first flush, after the hook. */
    method FirstHead(final: bool) returns (ok: bool, head: bytes, whole: bool)
      requires Writers() && Speakable() && !res.failed && !res.headSent && cause == NoCause && Tallied() && finished == final
      requires res.bodySent == 0 && !res.chunked
      modifies this`noBody, this`filter, this`start, this`sent, this`fed, this`coded, this`cause
      modifies res`hasLength, res`contentLength, res`chunked, res`close, res`headSent, res`failed, res`bodySent
      modifies pw`head, pw`len, pw`tail, pw`failed, cw, cw.buf, pw.buf, pw.conn
      ensures (old(res.close) ==> res.close) && (old(filter).Some? ==> filter.Some?)
      ensures ok ==> start == old(pw.conn.wire)
      ensures !ok ==> Valid() && res.failed && cause in {Peer, Coder, LongHead}
      ensures ok ==> Writers() && Speakable() && !res.failed && cause == NoCause && res.headSent && Tallied()
      ensures ok ==> if whole then Coding() && pw.len == 0 && final else (Coding() ==> !res.hasLength && (!noBody ==> !sent.head.framing.Length?))
      ensures ok && whole && res.hasLength && !noBody ==> res.bodySent + cw.len <= res.contentLength
      ensures ok && final && !noBody && sent.head.framing.Length? && !res.hasLength ==>
        sent.head.framing.n == |sent.entity| + if Coding() then cw.len else pw.len
      ensures ok && old((res.hasLength || minor == 0) && filter.None?) && !final ==> !Coding() && !res.chunked
      ensures ok && old(HeadChunks()) && !final ==> res.chunked && filter.None? && noBody
      ensures old(WillGo()) && !final ==> ok && |head| <= HEAD_CAP && pw.Credit() == old(pw.Credit())
      ensures ok ==> Outgoing(head)
    {
      hide *;
      WritersAre();
      ChunksWhen();
      head := [];
      ok, whole := CodeWhole(final);
      if !ok {
        return;
      }
      ChunksWhen();
      ok, head := HeadBehind(final);
    }

    /** The head of what is in the slabs. */
    method HeadBehind(final: bool) returns (ok: bool, head: bytes)
      requires Writers() && Speakable() && !res.failed && !res.headSent && !res.chunked && res.bodySent == 0 && Tallied()
      requires cause == NoCause && finished == final
      modifies this`noBody, this`start, this`sent, this`cause, res`contentLength, res`chunked, res`close, res`headSent, res`failed,
               pw`head, pw`len, pw`tail, pw`failed, pw.buf, pw.conn
      ensures !ok ==> Valid() && res.failed && cause == LongHead
      ensures ok ==> Writers() && Speakable() && res.headSent && !res.failed && cause == NoCause && Tallied()
      ensures ok ==> start == old(pw.conn.wire) && pw.len == old(pw.len)
      ensures ok && res.hasLength && !noBody && final ==> res.contentLength == if Coding() then cw.len else pw.len
      ensures ok && final && !noBody ==> sent.head.framing == Length(|sent.entity| + if Coding() then cw.len else pw.len)
      ensures old(res.close) ==> res.close
      ensures ok && !noBody && sent.head.framing.Length? ==> res.hasLength || final
      ensures ok && res.chunked ==> !res.hasLength && !final && minor >= 1
      ensures ok && old(HeadChunks()) && !final ==> res.chunked && noBody
      ensures ok ==> |head| <= HEAD_CAP && pw.Credit() == old(pw.Credit())
      ensures old(WillGo()) ==> ok
      ensures ok ==> Outgoing(head)
    {
      hide *;
      WritersAre();
      TallyBefore();
      ChunksWhen();
      ok, head := StartHead(if Coding() then cw.len else pw.len, final);
      if ok {
        WritersAre();
        TallyAfter();
      }
    }

    lemma WritersAre()
      requires Writers()
      ensures Parts() && pw.Valid() && cw.Valid() && pw.len <= SIZE_MAX && cw.len <= SIZE_MAX
    {
    }

    lemma ChunksWhen()
      ensures WillGo() <==> HeadChunks() && res.lines == [] && |res.contentType| <= 500 && ShortReasons()
      ensures HeadChunks() <==>
        headOnly && minor >= 1 && !res.headSent && !res.hasLength && !Bodyless(WireStatus(res.status)) && filter.None?
      ensures Coding() <==> filter.Some? && !headOnly
    {
    }

    /** A body that is all there is coded in one piece; a coded stream has no declared length. */
    method CodeWhole(final: bool) returns (ok: bool, whole: bool)
      requires Writers() && Speakable() && !res.failed && !res.headSent && cause == NoCause && Tallied()
      modifies this`filter, this`sent, this`fed, this`coded, this`cause, res`hasLength, res`failed, res`bodySent, pw`len, cw, cw.buf, pw.conn
      ensures old(filter).Some? ==> filter.Some?
      ensures ok ==> pw.conn.wire == old(pw.conn.wire)
      ensures !ok ==> Valid() && res.failed && cause in {Peer, Coder}
      ensures ok ==> Writers() && Speakable() && !res.failed && cause == NoCause && Tallied() && res.bodySent == old(res.bodySent)
      ensures ok ==> whole == (Coding() && final) && (whole ==> pw.len == 0) && (Coding() && !whole ==> !res.hasLength)
      ensures ok && !Coding() ==> res.hasLength == old(res.hasLength)
      ensures old(filter).None? ==> !Coding() && filter.None? && res.hasLength == old(res.hasLength)
      ensures old(filter).None? ==> ok && pw.Credit() == old(pw.Credit())
    {
      hide QuietLine, IsLine, OnWire, InLength, Tallied, Speakable, Sending, Feeding, PipeWriter.Data;
      ok, whole := true, Coding() && final;
      if Coding() && !whole {
        res.hasLength := false;
      }
      if whole {
        TallyFeeds();
        var head;
        ok, head := Encode([], false);
        if ok {
          FeedsTally();
        }
      }
    }

    lemma TallyBefore()
      requires pw.Valid() && cw.Valid() && Tallied() && !res.headSent
      ensures !Coding() ==> fed == coded == [] && cw.len == 0
      ensures if Coding() then payload == fed + pw.Data() && coded == cw.Data() else payload == pw.Data()
    {
      assert [] + cw.Data() == cw.Data() && [] + pw.Data() == pw.Data();
    }

    lemma TallyAfter()
      requires pw.Valid() && cw.Valid() && res.headSent && sent.entity == []
      requires !Coding() ==> fed == coded == [] && cw.len == 0
      requires if Coding() then payload == fed + pw.Data() && coded == cw.Data() else payload == pw.Data()
      ensures Tallied()
    {
      assert [] + cw.Data() == cw.Data() && [] + pw.Data() == pw.Data();
    }

    method EncodeMore(head: bytes) returns (ok: bool, rest: bytes)
      requires Writers() && Speakable() && !res.failed && cause == NoCause && res.headSent && !noBody && Tallied() && Coding() && !res.hasLength
      requires OnWire(pw.conn.wire, head, start, sent, noBody, res.chunked, res.close, finished) && !sent.ended
      requires InLength(sent, res.hasLength, res.contentLength, res.bodySent, finished)
      modifies this`filter, this`fed, this`coded, this`sent, this`cause, res`bodySent, res`failed, pw`len, cw, cw.buf, pw.conn
      ensures !ok ==> Valid() && res.failed && cause in {Peer, Coder}
      ensures ok ==> Writers() && Speakable() && !res.failed && cause == NoCause && Tallied() && Coding() && pw.len == 0
      ensures ok ==> OnWire(pw.conn.wire, rest, start, sent, noBody, res.chunked, res.close, finished) && !sent.ended
      ensures ok ==> InLength(sent, res.hasLength, res.contentLength, res.bodySent, finished)
      ensures ok ==> sent.mute == noBody && res.chunked == sent.head.framing.InChunks?
      ensures ok ==> sent.head == old(sent.head)
      ensures filter.Some?
    {
      hide QuietLine, IsLine, SentOk, Framed, HeadBytes, InLength, Speakable, Tallied, Feeding, PipeWriter.Data;
      TallyFeeds();
      ok, rest := Encode(head, true);
      if ok {
        FeedsTally();
      }
    }

    lemma TallyFeeds()
      requires pw.Valid() && cw.Valid() && Tallied() && Coding() && !(res.headSent && noBody)
      ensures Feeding(pw.len)
    {
      assert pw.Data()[0..] == pw.Data();
    }

    lemma FeedsTally()
      requires pw.Valid() && cw.Valid() && Feeding(0) && Coding() && pw.len == 0
      ensures Tallied()
    {
    }

    lemma NotTallied(p: bytes)
      requires pw.Valid() && cw.Valid() && Tallied()
      ensures !Coding() ==> fed == coded == []
    {
    }

    /** Whether bytes too many for the slab may go straight out behind it. */
    predicate RawFramed()
      reads this`onHead, this`filter, res`headSent, res`chunked, res`hasLength
    {
      onHead.None? && filter.None? && if res.headSent then !res.chunked else res.hasLength || minor == 0
    }

    /** ioxd_write: all of data goes into the slab, flushing as it fills; or straight out behind it. */
    method Write(data: bytes) returns (rc: int)
      requires Valid() && !finished && 0 < pw.cap
      modifies this`noBody, this`onHead, this`filter, this`start, this`sent, this`payload, this`fed, this`coded, this`finished, this`cause,
               res, pw, cw, pw.buf, cw.buf, pw.conn
      ensures Valid() && !finished && (rc == 0 ==> !res.failed)
      ensures rc == 0 ==> payload == old(payload) + data
      ensures rc != 0 ==> rc == -1 && res.failed
      ensures (old(res.failed) ==> res.failed) && (!res.failed ==> Begun() == old(Begun()))
      ensures old(res.close) ==> res.close
    {
      hide QuietLine, IsLine, OnWire, InLength, Tallied, PipeWriter.Data, Speakable, Sending;
      if res.failed {
        return -1;
      }
      if |data| > pw.cap - pw.len && RawFramed() {
        rc := FlushWith(Full, data);
        return;
      }
      var left := data;
      while left != []
        invariant Valid() && !finished && !res.failed && Begun() == old(Begun())
        invariant payload + left == old(payload) + data
        invariant old(res.close) ==> res.close
        decreases |left|, pw.len
      {
        var room := pw.cap - pw.len;
        if room == 0 {
          rc := FlushWith(Full, []);
          if rc < 0 {
            return;
          }
          assert payload + [] == payload;
        } else {
          var n := if |left| < room then |left| else room;
          assert payload + left == payload + left[..n] + left[n..] by {
            assert left == left[..n] + left[n..];
          }
          Put(left[..n]);
          left := left[n..];
        }
      }
      return 0;
    }

    /** Bytes the handler puts at the slab's tail, where it has room for them. */
    method Put(data: bytes)
      requires Valid() && !finished && !res.failed && pw.len + |data| <= pw.cap
      modifies this`payload, pw`len, pw.buf
      ensures Valid() && payload == old(payload) + data && pw.len == old(pw.len) + |data|
    {
      hide QuietLine, IsLine, OnWire, InLength, PipeWriter.Data, Speakable, Sending, PipeWriter.Pending;
      Assoc(fed, pw.Data(), data);
      Assoc(if res.headSent then sent.entity else [], pw.Data(), data);
      pw.Append(data);
      payload := payload + data;
    }

    /** ioxd_reserve: room for n bytes at the tail, flushing when there is none; what the handler then writes there it advances over. */
    method Reserve(n: nat) returns (ok: bool)
      requires Valid() && !finished
      modifies this`noBody, this`onHead, this`filter, this`start, this`sent, this`payload, this`fed, this`coded, this`finished, this`cause,
               res, pw, cw, pw.buf, cw.buf, pw.conn
      ensures Valid() && !finished && payload == old(payload)
      ensures ok ==> !res.failed && pw.len + n <= pw.cap
      ensures !ok ==> res.failed || n > pw.cap
      ensures (old(res.failed) ==> res.failed) && (!res.failed ==> Begun() == old(Begun()))
      ensures old(res.close) ==> res.close
    {
      hide QuietLine, IsLine, OnWire, InLength, Tallied, PipeWriter.Data, Speakable, Sending;
      if res.failed || n > pw.cap {
        return false;
      }
      if n > pw.cap - pw.len {
        var rc := FlushWith(Full, []);
        assert payload == old(payload);
        if rc < 0 {
          return false;
        }
      }
      return true;
    }

    /** ioxd_flush. */
    method Flush() returns (rc: int)
      requires Valid() && !finished
      modifies this`noBody, this`onHead, this`filter, this`start, this`sent, this`payload, this`fed, this`coded, this`finished, this`cause,
               res, pw, cw, pw.buf, cw.buf, pw.conn
      ensures Valid() && !finished && payload == old(payload) && rc == (if res.failed then -1 else 0)
      ensures (old(res.failed) ==> res.failed) && (rc == 0 ==> Begun() == old(Begun()))
      ensures old(res.close) ==> res.close
      ensures rc == 0 && old(HeadChunks()) ==> StrayEnd()
      ensures old(WillGo() && !res.failed && pw.Credit() > 0) ==> rc == 0 && pw.Credit() >= old(pw.Credit()) - 1
    {
      hide Valid, HeadChunks, StrayEnd;
      rc := FlushWith(Asked, []);
    }

    /** ioxd_reply_filter. */
    method InstallFilter(runs: seq<Run>) returns (ok: bool)
      requires Valid()
      modifies this`filter
      ensures Valid() && ok == (!res.headSent && old(filter).None?)
      ensures filter == if ok then Some(runs) else old(filter)
    {
      hide QuietLine, IsLine, OnWire, InLength, Speakable;
      if res.headSent || filter.Some? {
        return false;
      }
      filter := Some(runs);
      return true;
    }

    /** ioxd_on_head. */
    method OnHead(h: Hook) returns (ok: bool)
      requires Valid() && HookFine(h)
      modifies this`onHead
      ensures Valid() && ok == !res.headSent
    {
      hide QuietLine, IsLine, OnWire, InLength, Tallied, Sending;
      if res.headSent {
        return false;
      }
      onHead := Some(h);
      return true;
    }

    /** What a reply that finished has delivered, unless it carries no body. */
    ghost predicate Complete()
      reads this, res
    {
      && SentOk(sent) && !sent.mute
      && (if Coding() then fed == payload && sent.entity == coded else sent.entity == payload)
      && match sent.head.framing
         case InChunks => sent.ended
         case Length(n) => |sent.entity| <= n && (|sent.entity| == n || res.close)
         case UntilClose => res.close
         case NoBody => false
    }

    /**
     * finish: what is still in the slab and the end of the body. A last chunk is written even when
     * the reply carries no body: HEAD, with the head already sent as chunked and nothing pending.
     */
    method Finish() returns (rc: int)
      requires Valid() && !finished
      modifies this`noBody, this`onHead, this`filter, this`start, this`sent, this`payload, this`fed, this`coded, this`finished, this`cause,
               res, pw, cw, pw.buf, cw.buf, pw.conn
      ensures rc == (if res.failed then -1 else 0) && payload == old(payload) && pw.Valid()
      ensures rc == 0 ==> !old(res.failed) && start == old(Begun())
      ensures rc == 0 ==> res.headSent && SentOk(sent) && sent.mute == noBody
      ensures rc == 0 && !noBody ==> Complete() && pw.conn.wire == start + HeadBytes(sent.head) + Framed(sent)
      ensures rc == 0 && noBody ==>
        pw.conn.wire == start + HeadBytes(sent.head) + if old(StrayEnd()) then LAST else []
      ensures old(StrayEnd()) ==> noBody
      ensures old(res.close) ==> res.close
      ensures old(StrayEnd() && !res.failed && pw.Credit() > 0) ==> rc == 0
    {
      hide QuietLine, IsLine, OnWire, InLength, Tallied, PipeWriter.Data, Speakable, Sending, Complete, Framed, SentOk, HeadBytes, Valid;
      WritersValid();
      if res.failed {
        return -1;
      }
      if !res.headSent || pw.len > 0 || filter.Some? {
        rc := FlushWith(Final, []);
        assert payload == old(payload);
        WritersValid();
        if rc < 0 {
          return;
        }
        Settled();
      } else {
        rc := EndBody();
        if rc < 0 {
          return;
        }
      }
      if res.hasLength && !noBody && res.bodySent != res.contentLength {
        res.close := true;
      }
      if !noBody {
        IsComplete();
      }
    }

    lemma WritersValid()
      requires Valid()
      ensures pw.Valid() && cw.Valid()
    {
      hide OnWire, InLength, Tallied, Speakable, Sending;
    }

    /** Everything is out, as far as the last flush says: what a recipient has, but for the end. */
    ghost predicate AllOut()
      reads this, pw.conn, res
    {
      && res.headSent && !res.failed && SentOk(sent) && sent.mute == noBody && res.chunked == sent.head.framing.InChunks?
      && pw.conn.wire == start + HeadBytes(sent.head) + Framed(sent)
      && InLength(sent, res.hasLength, res.contentLength, res.bodySent, finished)
      && (sent.head.framing.NoBody? ==> noBody) && (sent.head.framing.UntilClose? ==> res.close)
      && (!noBody ==> if Coding() then fed == payload && sent.entity == coded else sent.entity == payload)
    }

    lemma Settled()
      requires Valid() && !res.failed && res.headSent && pw.len == cw.len == 0
      ensures AllOut() && (noBody ==> Framed(sent) == [])
    {
      hide QuietLine, IsLine, SentOk, HeadBytes, Speakable, InLength;
      assert [] + cw.Data() == [];
      assert pw.conn.wire + [] == pw.conn.wire;
      assert fed + [] == fed && sent.entity + [] == sent.entity;
    }

    lemma IsComplete()
      requires AllOut() && !noBody && (res.chunked ==> sent.ended)
      requires res.hasLength && res.bodySent != res.contentLength ==> res.close
      requires sent.head.framing.Length? && !res.hasLength ==> sent.head.framing.n == |sent.entity|
      ensures Complete()
    {
      hide SentOk, Framed, HeadBytes;
    }

    /** A head that is out and an empty slab: a chunked body still needs its last chunk. */
    method EndBody() returns (rc: int)
      requires Valid() && !finished && !res.failed && res.headSent && pw.len == 0 && filter.None?
      modifies this`sent, this`finished, this`cause, res`failed, pw`head, pw`len, pw`tail, pw`failed, pw.buf, pw.conn
      ensures rc == (if res.failed then -1 else 0) && pw.Valid()
      ensures rc == 0 && !noBody ==> AllOut() && (res.chunked ==> sent.ended) && (sent.head.framing.Length? ==> res.hasLength)
      ensures rc == 0 && noBody ==> SentOk(sent) && sent.mute && pw.conn.wire == start + HeadBytes(sent.head) + if res.chunked then LAST else []
      ensures old(pw.Credit()) > 0 ==> rc == 0
    {
      hide QuietLine, IsLine, OnWire, InLength, Tallied, PipeWriter.Data, Speakable, Sending, Framed, SentOk, HeadBytes, Explained, Valid, AllOut;
      BeforeEnd();
      NoFrame();
      finished := true;
      if !res.chunked {
        WireIs();
        return 0;
      }
      var ok := LastChunk();
      if !ok {
        rc := Fail(Peer);
        return;
      }
      if !noBody {
        WireIs();
      }
      return 0;
    }

    lemma BeforeEnd()
      requires Valid() && !finished && !res.failed && res.headSent && pw.len == 0 && filter.None?
      ensures Parts() && pw.Valid() && cw.Valid() && Speakable() && pw.head == pw.tail == 0
      ensures OnWire(pw.conn.wire, [], start, sent, noBody, res.chunked, res.close, true) && !sent.ended
      ensures InLength(sent, res.hasLength, res.contentLength, res.bodySent, true)
      ensures sent.mute == noBody && res.chunked == sent.head.framing.InChunks?
      ensures !noBody && sent.head.framing.Length? ==> res.hasLength
      ensures !noBody ==> sent.entity == payload
      ensures noBody ==> Framed(sent) == []
    {
      hide QuietLine, IsLine, SentOk, HeadBytes;
      assert sent.entity + [] == sent.entity;
    }

    lemma WireIs()
      requires OnWire(pw.conn.wire, [], start, sent, noBody, res.chunked, res.close, finished)
      requires InLength(sent, res.hasLength, res.contentLength, res.bodySent, finished)
      requires res.headSent && !res.failed && (!noBody ==> filter.None? && sent.entity == payload)
      ensures AllOut() && (noBody && !res.chunked ==> SentOk(sent) && sent.mute && pw.conn.wire == start + HeadBytes(sent.head) + [])
    {
      hide SentOk, HeadBytes;
      assert pw.conn.wire + [] == pw.conn.wire;
    }

    method LastChunk() returns (ok: bool)
      requires Parts() && pw.Valid() && pw.head == pw.len == pw.tail == 0 && res.chunked && finished && !sent.ended
      requires OnWire(pw.conn.wire, [], start, sent, noBody, res.chunked, res.close, finished)
      requires InLength(sent, res.hasLength, res.contentLength, res.bodySent, finished)
      modifies this`sent, pw`head, pw`len, pw`tail, pw`failed, pw.buf, pw.conn
      ensures pw.Valid() && (!ok ==> pw.failed)
      ensures ok && noBody ==> SentOk(sent) && sent.mute && pw.conn.wire == start + HeadBytes(sent.head) + LAST
      ensures ok && !noBody ==> OnWire(pw.conn.wire, [], start, sent, noBody, res.chunked, res.close, finished) && sent.ended
      ensures ok && !noBody ==> InLength(sent, res.hasLength, res.contentLength, res.bodySent, finished)
      ensures sent.entity == old(sent.entity) && sent.head == old(sent.head)
      ensures old(pw.Credit()) > 0 ==> ok
    {
      hide QuietLine, IsLine, SentOk, HeadBytes, FrameOf;
      NoFrame();
      ghost var wire := pw.conn.wire;
      assert pw.Data() == [];
      ok := SendFrame(pw, [], [], true, true);
      if ok && !noBody {
        SentMore(wire, [], pw.conn.wire, start, sent, noBody, res.chunked, res.close, finished, [], [], true);
        LengthKept(sent, res.hasLength, res.contentLength, res.bodySent, finished, [], [], true);
        sent := More(sent, [], [], true);
      }
    }

    /** The condition under which finish writes a last chunk behind the head of a reply without a body. */
    predicate StrayEnd()
      reads this`noBody, this`filter, res`headSent, res`chunked, pw`len
    {
      noBody && res.headSent && res.chunked && pw.len == 0 && filter.None?
    }
  }

  /**
   * The stray last chunk: a handler of a HEAD request over 1.1 that flushes once before it returns,
   * with no length declared, to a peer that takes what it is sent. The reply succeeds, and behind
   * its head go five bytes that belong to no body.
   */
  method FlushedHead(rp: Replier) returns (rc: int)
    requires rp.Valid() && !rp.finished && rp.WillGo() && !rp.res.failed && rp.pw.Credit() >= 2
    modifies rp, rp.res, rp.pw, rp.cw, rp.pw.buf, rp.cw.buf, rp.pw.conn
    ensures rc == 0 && rp.noBody && rp.pw.conn.wire == rp.start + HeadBytes(rp.sent.head) + LAST
  {
    hide Replier.Valid, Replier.Complete, SentOk, HeadBytes, PipeWriter.Credit;
    rc := rp.Flush();
    rc := rp.Finish();
  }
}
