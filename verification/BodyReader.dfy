/**
 * The request body as lib/http/engine.c reads it from the pipe: a fixed length or chunks, in the
 * sizes the handler asks for, chunk by chunk, or whole. What it makes of the bytes is what the
 * reference decoder of Chunked makes of them.
 */
module BodyReading {
  import opened Bytes
  import opened Chunked
  import opened BodyStage
  import opened ConnInput
  import opened ConnOutput
  import opened ReaderState
  import opened PipeReading
  import opened PipeWriting
  import opened ResponseState

  const DRAIN_MAX: nat := 0x10_0000
  const CONTINUE: bytes := [72, 84, 84, 80, 47, 49, 46, 49, 32, 49, 48, 48, 32, 67, 111, 110, 116, 105, 110, 117, 101, 13, 10, 13, 10]

  /** Why a body failed, the first time it did. */
  datatype Why =
    | Going     // it did not
    | Syntax    // the bytes are no chunked body
    | Cut       // the peer's input ended inside it
    | Room      // more than the reader holds
    | Large     // more than the handler takes at once
    | Broken    // the connection failed, or copying did

  /** What that says about the bytes seen until then. */
  ghost predicate Proves(w: Why, chunked: bool, contentLength: nat, seen: bytes) {
    match w
    case Syntax => chunked && forall more: bytes :: Decode(seen + more) == Malformed
    case Cut => if chunked then Decode(seen) == Unfinished else |seen| < contentLength
    case _ => true
  }

  /** What was taken and delivered while nothing failed. */
  ghost predicate InStep(chunked: bool, contentLength: nat, bodyRead: nat, stage: Stage, delivered: bytes, taken: bytes) {
    && bodyRead == |delivered|
    && if chunked then StageOk(stage) && taken == Taken(stage) && delivered == Handed(stage)
       else taken == delivered && |delivered| <= contentLength
  }

  /** How the counters stand to it between two calls: nothing is half done. */
  ghost predicate AtRest(chunked: bool, contentLength: nat, bodyRead: nat, bodyDone: bool, chunkLeft: nat, stage: Stage) {
    if chunked then
      chunkLeft == Left(stage) && bodyDone == stage.Ended? && !stage.Trailing? && (stage.Inside? ==> chunkLeft > 0)
    else
      chunkLeft == 0 && bodyDone == (bodyRead == contentLength)
  }

  /** What is known about the bytes since the body began: the tally while it goes on, else what the failure proves. */
  ghost predicate Known(w: Why, chunked: bool, contentLength: nat, bodyRead: nat, stage: Stage, delivered: bytes,
                        seen: bytes, taken: bytes, live: bytes) {
    if w.Going? then InStep(chunked, contentLength, bodyRead, stage, delivered, taken)
    else seen <= taken + live && Proves(w, chunked, contentLength, seen)
  }

  lemma After(before: bytes, consumed: bytes, more: bytes)
    requires before <= consumed
    ensures before <= consumed + more && (consumed + more)[|before|..] == consumed[|before|..] + more
  {
  }

  lemma SeenStays(before: bytes, consumed: bytes, live: bytes, consumed': bytes, live': bytes, seen: bytes)
    requires before <= consumed && consumed <= consumed' && consumed + live <= consumed' + live'
    ensures before <= consumed' && (seen <= consumed[|before|..] + live ==> seen <= consumed'[|before|..] + live')
  {
    var a, b := consumed + live, consumed' + live';
    assert a[|before|..] == consumed[|before|..] + live;
    assert b[|before|..] == consumed'[|before|..] + live';
    assert a == b[..|a|];
    assert a[|before|..] == b[|before|..][..|a| - |before|];
  }

  /** Bytes without a CRLF, and more behind them: the first CRLF ends after them. */
  lemma CrlfIsLater(was: bytes, now: bytes)
    requires was <= now && FirstCrlf(was).None? && FirstCrlf(now).Some?
    ensures |was| < FirstCrlf(now).value + 2
  {
    FirstCrlfIs(was);
    FirstCrlfIs(now);
    var n := FirstCrlf(now).value;
    if n + 2 <= |was| {
      assert !CrlfAt(was, n);
    }
  }

  // The size line.

  /** The digits, stopping before a size that size_t cannot hold. */
  method SizeDigits(line: bytes) returns (fits: bool, size: nat, i: nat)
    ensures fits ==> i == HexRun(line) && size == HexValue(line[..i]) <= SIZE_MAX
    ensures !fits ==> HexValue(line[..HexRun(line)]) > SIZE_MAX
  {
    size, i := 0, 0;
    while i < |line| && HexDigit(line[i]) >= 0
      invariant i <= HexRun(line)
      invariant size == HexValue(line[..i]) <= SIZE_MAX
    {
      HexStep(line, i);
      if size > SIZE_MAX / 16 {
        HexMonotone(line, i + 1, HexRun(line));
        return false, size, i;
      }
      size := size * 16 + HexDigit(line[i]);
      i := i + 1;
    }
    return true, size, i;
  }

  lemma HexStep(line: bytes, i: nat)
    requires i <= HexRun(line) && i < |line| && HexDigit(line[i]) >= 0
    ensures i < HexRun(line) && HexValue(line[..i + 1]) == 16 * HexValue(line[..i]) + HexDigit(line[i])
  {
    assert line[..i + 1][..i] == line[..i];
  }

  lemma {:induction false} HexMonotone(line: bytes, i: nat, j: nat)
    requires i <= j <= HexRun(line)
    ensures HexValue(line[..i]) <= HexValue(line[..j])
  {
    if i < j {
      HexMonotone(line, i, j - 1);
      HexStep(line, j - 1);
    }
  }

  /** A size line, and the size it gives. */
  method ReadSize(line: bytes) returns (ok: bool, size: nat)
    ensures ok <==> SizeLine(line)
    ensures ok ==> size == ChunkSize(line)
  {
    var fits, n, i := SizeDigits(line);
    if !fits {
      return false, 0;
    }
    var j := i;
    while j < |line| && (line[j] == 32 || line[j] == 9)
      invariant i <= j <= i + BlankRun(line[i..])
    {
      assert line[i..][j - i] == line[j];
      j := j + 1;
    }
    assert j == i + BlankRun(line[i..]);
    var ended := (j == |line| && j == i) || (j + 1 < |line| && line[j] == 59);
    return i != 0 && ended, n;
  }

  class BodyReader {
    const pr: PipeReader
    const pw: PipeWriter
    const res: Response
    const chunked: bool
    const contentLength: nat
    const expectContinue: bool
    var bodyRead: nat
    var bodyDone: bool
    var bodyWhole: bool
    var bodyErr: int
    var chunkLeft: nat
    var continueSent: bool
    var body: Span

    /** What the reader had consumed before the body. */
    ghost const before: bytes
    ghost var stage: Stage
    /** Every body byte handed out, and why and after which bytes reading failed. */
    ghost var delivered: bytes
    ghost var why: Why
    ghost var seen: bytes

    /** The bytes taken since the body began. */
    ghost function TakenNow(): bytes
      reads pr`consumed
    {
      if before <= pr.consumed then pr.consumed[|before|..] else []
    }

    /** All the bytes since the body began that have arrived. */
    ghost function Since(): bytes
      reads pr, pr.buf, pr.conn
    {
      TakenNow() + pr.LiveBytes()
    }

    ghost predicate Core()
      reads this`bodyRead, this`bodyErr, this`stage, this`delivered, this`why, this`seen, pr, pr.buf, pr.conn
    {
      && pr.Valid()
      && before <= pr.consumed
      && (bodyErr == 0 <==> why.Going?)
      && Known(why, chunked, contentLength, bodyRead, stage, delivered, seen, TakenNow(), pr.LiveBytes())
    }

    ghost predicate Valid()
      reads this, pr, pr.buf, pr.conn
    {
      && Core()
      && (bodyErr == 0 ==> AtRest(chunked, contentLength, bodyRead, bodyDone, chunkLeft, stage) && pr.examined == 0)
      && (bodyErr == 0 && !bodyWhole ==> pr.kept == [])
      && (bodyWhole ==> bodyErr == 0 && bodyDone && IsBody(body))
    }

    /** A span that is everything delivered. */
    ghost predicate IsBody(span: Span)
      reads this`delivered, pr, pr.buf, pr.conn
    {
      InBounds(pr.buf[..], pr.conn.mem, span.place, span.len) && Mem(pr.buf[..], pr.conn.mem, span.place, span.len) == delivered
    }

    /** A body fails for want of room only when the reader is full, and with the connection only when that failed. */
    ghost predicate Blamed()
      reads this`why, pr`error, pw`failed
    {
      match why
      case Room => pr.error == PIPE_FULL
      case Broken => pr.error != 0 || pw.failed
      case Large => false
      case _ => true
    }

    /** The interim reply is on the wire exactly when it was sent meanwhile, unless the body failed. */
    ghost predicate Interim(was: bytes, told: bool)
      reads this`bodyErr, this`continueSent, pw.conn
    {
      bodyErr == 0 ==> pw.conn.wire == was + if continueSent && !told then CONTINUE else []
    }

    /** init_body_state, once the head was kept and frozen. */
    constructor (pr: PipeReader, pw: PipeWriter, res: Response, chunked: bool, contentLength: nat, expectContinue: bool)
      requires pr.Valid() && pr.kept == [] && pr.examined == 0
      ensures Valid() && this.pr == pr && this.pw == pw && this.res == res
      ensures this.chunked == chunked && this.contentLength == contentLength && this.expectContinue == expectContinue
      ensures before == pr.consumed && delivered == [] && bodyErr == 0 && !bodyWhole && !continueSent
    {
      this.pr, this.pw, this.res := pr, pw, res;
      this.chunked, this.contentLength, this.expectContinue := chunked, contentLength, expectContinue;
      bodyRead, bodyDone, bodyWhole, bodyErr := 0, !chunked && contentLength == 0, false, 0;
      chunkLeft, continueSent, body := 0, false, Span(BufAt(0), 0);
      before, stage, delivered, why, seen := pr.consumed, Between([]), [], Going, [];
    }

    /** A failure: recorded with what it proves when it is the first. */
    method Fail(err: int, ghost w: Why)
      requires Core() && err != 0 && !w.Going?
      requires why.Going? ==> Proves(w, chunked, contentLength, Since())
      modifies this`bodyErr, this`why, this`seen
      ensures Core() && bodyErr == err && !why.Going?
      ensures if old(why.Going?) then why == w && seen == Since() else why == old(why) && seen == old(seen)
    {
      hide PipeReader.Valid, PipeReader.LiveBytes, Proves, InStep;
      bodyErr := err;
      if why.Going? {
        why, seen := w, Since();
      }
    }

    /** body_fail. */
    method BodyFail(status: int, ghost w: Why)
      requires Core() && status > 0 && !w.Going?
      requires why.Going? ==> Proves(w, chunked, contentLength, Since())
      modifies this`bodyErr, this`why, this`seen, res`status
      ensures Core() && bodyErr == status == res.status && !why.Going?
      ensures if old(why.Going?) then why == w && seen == Since() else why == old(why) && seen == old(seen)
    {
      hide Core, Since, Proves;
      Fail(status, w);
      res.status := status;
    }

    /** body_begin: the interim reply, once, when the client waits for it and no head was sent. */
    method BodyBegin() returns (ok: bool)
      requires Core()
      modifies this`continueSent, this`bodyErr, this`why, this`seen, pw`failed, pw.conn
      ensures Core()
      ensures ok ==> bodyErr == old(bodyErr) && why == old(why) && seen == old(seen)
      ensures !ok ==> bodyErr == -1 && pw.failed
      ensures old(pw.failed) ==> pw.failed
      ensures old(why.Going?) || why == old(why)
      ensures continueSent == (old(continueSent) || (expectContinue && !res.headSent))
      ensures if expectContinue && !old(continueSent) && !res.headSent
              then (ok ==> pw.conn.wire == old(pw.conn.wire) + CONTINUE) && old(pw.conn.wire) <= pw.conn.wire <= old(pw.conn.wire) + CONTINUE
              else ok && pw.conn.wire == old(pw.conn.wire) && pw.failed == old(pw.failed)
      ensures old(Blamed()) ==> Blamed()
    {
      hide PipeReader.Valid, PipeReader.LiveBytes, Decode, InStep;
      if !expectContinue || continueSent || res.headSent {
        return true;
      }
      continueSent := true;
      var rc := pw.Through(CONTINUE);
      if rc < 0 {
        Fail(-1, Broken);
        return false;
      }
      return true;
    }

    // The operations on the pipe.

    /** Reading on cannot tell more while these are the live bytes: a body that ends here is cut. */
    ghost predicate Hungry(live: bytes)
      reads this, pr`consumed
    {
      why.Going? ==> Proves(Cut, chunked, contentLength, TakenNow() + live)
    }

    /** body_bytes: live bytes that were not examined yet, else the body failed. */
    method BodyBytes() returns (ok: bool, live: Span)
      requires Core()
      requires why.Going? ==> pr.examined in {0, |pr.LiveBytes()|} && Hungry(pr.LiveBytes()[..pr.examined])
      modifies pr`floor, pr`liveInBuf, pr`bufPos, pr`bufEnd, pr`hasCur, pr`cur, pr`curPos, pr`pinned, pr`hasPinned,
               pr`curIsPinned, pr`runInCur, pr`runStart, pr`frozen, pr`log, pr`eof, pr`error, pr.buf, pr.conn,
               this`bodyErr, this`why, this`seen, res`status
      ensures Core() && old(pr.LiveBytes()) <= pr.LiveBytes()
      ensures ok ==> pr.Reads(live) && live.len == |pr.LiveBytes()| > pr.examined
      ensures ok ==> bodyErr == old(bodyErr) && why == old(why) && seen == old(seen) && res.status == old(res.status) && pr.error == 0
      ensures !ok ==> bodyErr != 0 && (bodyErr in {413, -1}) && (bodyErr == 413 ==> old(pr.error) == 0 ==> pr.NoRoom())
      ensures old(why.Going?) || (why == old(why) && seen == old(seen))
      ensures old(why.Going?) && !ok ==> why in {Cut, Room, Broken} && (why == Room <==> bodyErr == 413)
      ensures ok ==> pr.conn.Pending() <= old(pr.conn.Pending()) && (pr.conn.Pending() == old(pr.conn.Pending()) ==> pr.LiveBytes() == old(pr.LiveBytes()))
      ensures old(pr.frozen) <= pr.frozen
      ensures old(Blamed()) ==> Blamed()
    {
      hide PipeReader.Valid, PipeReader.LiveBytes, PipeReader.NoRoom, PipeReader.Reads, Conn.Pending, Decode, InStep;
      ghost var was := pr.LiveBytes();
      var rc, l := pr.Read();
      SeenStill(old(TakenNow()), was, pr.LiveBytes(), seen);
      if rc > 0 {
        return true, l;
      }
      live := l;
      ok := false;
      if rc == PIPE_FULL {
        BodyFail(413, Room);
      } else {
        assert rc == 0 && why.Going? ==> pr.LiveBytes() == was[..pr.examined];
        Fail(-1, if rc == 0 then Cut else Broken);
      }
    }

    /** Live bytes are dropped: the stage they lead to is the one they spell. */
    method TakeOff(n: nat, ghost next: Stage)
      requires Core() && n <= |pr.LiveBytes()|
      requires why.Going? ==> chunked && StageOk(next) && Taken(next) == Taken(stage) + pr.LiveBytes()[..n] && Handed(next) == Handed(stage)
      modifies pr`liveInBuf, pr`bufPos, pr`bufEnd, pr`hasCur, pr`curPos, pr`curIsPinned, pr`examined, pr`consumed,
               pr.conn`offered, pr.conn`mine, this`stage
      ensures Core() && stage == next && pr.LiveBytes() == old(pr.LiveBytes())[n..]
      ensures pr.examined == if old(pr.examined) > n then old(pr.examined) - n else 0
      ensures pr.conn.Pending() == old(pr.conn.Pending())
    {
      hide PipeReader.Valid, PipeReader.LiveBytes, Decode, StageOk, Taken, Handed;
      ghost var live := pr.LiveBytes();
      After(before, pr.consumed, live[..n]);
      pr.Drop(n);
      stage := next;
      assert TakenNow() + pr.LiveBytes() == old(TakenNow()) + live by {
        assert live[..n] + live[n..] == live;
      }
    }

    /** body_line: how long the line is that the live bytes start with, once its CRLF is among them; -1: the body failed. */
    method BodyLine() returns (len: int, live: Span)
      requires Core()
      requires why.Going? ==> chunked && (stage.Between? || stage.Trailing?) && pr.examined == 0
      modifies pr`floor, pr`liveInBuf, pr`bufPos, pr`bufEnd, pr`hasCur, pr`cur, pr`curPos, pr`pinned, pr`hasPinned,
               pr`curIsPinned, pr`runInCur, pr`runStart, pr`frozen, pr`log, pr`eof, pr`error, pr`examined, pr.buf, pr.conn,
               this`bodyErr, this`why, this`seen, res`status
      ensures Core() && old(pr.LiveBytes()) <= pr.LiveBytes()
      ensures len >= 0 ==> pr.Reads(live) && FirstCrlf(pr.LiveBytes()) == Some(len)
      ensures len >= 0 ==> bodyErr == old(bodyErr) && why == old(why) && seen == old(seen) && res.status == old(res.status)
      ensures len >= 0 && why.Going? ==> pr.examined <= len + 2
      ensures len < 0 ==> len == -1 && bodyErr in {413, -1}
      ensures old(why.Going?) || (why == old(why) && seen == old(seen))
      ensures old(why.Going?) && len < 0 ==> why in {Cut, Room, Broken} && (why == Room <==> bodyErr == 413)
      ensures len >= 0 ==> pr.conn.Pending() <= old(pr.conn.Pending()) && (pr.conn.Pending() == old(pr.conn.Pending()) ==> pr.LiveBytes() == old(pr.LiveBytes()))
      ensures old(pr.frozen) <= pr.frozen
      ensures old(Blamed()) ==> Blamed()
    {
      hide PipeReader.Valid, PipeReader.LiveBytes, PipeReader.NoRoom, PipeReader.Reads, Conn.Pending, Decode, InStep, Known, Core, Hungry, FirstCrlf;
      NoCrlfYet();
      while true
        invariant old(Blamed()) ==> Blamed()
        invariant old(pr.frozen) <= pr.frozen
        invariant Core() && bodyErr == old(bodyErr) && why == old(why) && seen == old(seen) && res.status == old(res.status)
        invariant old(pr.LiveBytes()) <= pr.LiveBytes()
        invariant pr.conn.Pending() <= old(pr.conn.Pending()) && (pr.conn.Pending() == old(pr.conn.Pending()) ==> pr.LiveBytes() == old(pr.LiveBytes()))
        invariant why.Going? ==> pr.examined in {0, |pr.LiveBytes()|} && FirstCrlf(pr.LiveBytes()[..pr.examined]).None?
        decreases pr.conn.Pending(), |pr.LiveBytes()| - pr.examined
      {
        NoLineYet(if why.Going? then pr.LiveBytes()[..pr.examined] else []);
        ghost var was := pr.LiveBytes();
        var ok, l := BodyBytes();
        if !ok {
          return -1, l;
        }
        CoreReads();
        var bytes := pr.View(l);
        var at := FirstCrlf(bytes);
        if at.Some? {
          if why.Going? {
            assert was[..pr.examined] <= bytes;
            CrlfIsLater(was[..pr.examined], bytes);
          }
          return at.value, l;
        }
        Look(l.len);
        assert pr.LiveBytes()[..pr.examined] == bytes;
      }
    }

    lemma CoreReads()
      requires Core()
      ensures pr.Valid() && (bodyErr == 0 <==> why.Going?)
      ensures why.Going? ==> bodyRead == |delivered| && (!chunked ==> bodyRead <= contentLength)
    {
      hide PipeReader.Valid, StageOk, Taken, Handed, PipeReader.LiveBytes;
    }

    /** A body in progress, nothing of it half done. */
    ghost predicate Resting()
      reads this`bodyRead, this`bodyErr, this`bodyDone, this`bodyWhole, this`chunkLeft, this`stage, pr`examined, pr`kept
    {
      && !bodyWhole
      && (bodyErr == 0 ==> AtRest(chunked, contentLength, bodyRead, bodyDone, chunkLeft, stage) && pr.examined == 0 && pr.kept == [])
    }

    lemma ValidRests()
      requires Valid()
      ensures Core() && (!bodyWhole ==> Resting()) && (bodyWhole ==> bodyDone && bodyErr == 0)
    {
      hide Core, AtRest, IsBody;
    }

    lemma RestsValid()
      requires Core() && Resting()
      ensures Valid()
    {
      hide Core, AtRest, IsBody;
    }

    /** No line is there, where one is due: the body would be unfinished. */
    lemma NoLineYet(live: bytes)
      requires Core() && FirstCrlf(live).None?
      ensures why.Going? && chunked && (stage.Between? || stage.Trailing?) ==> Hungry(live)
    {
      hide PipeReader.Valid, Decode, FirstCrlf;
      if why.Going? && chunked {
        if stage.Between? {
          UnfinishedLine(stage, live);
        } else if stage.Trailing? {
          UnfinishedTrailers(stage, live);
        }
      }
    }

    method Look(n: nat)
      requires Core()
      modifies pr`examined
      ensures Core() && pr.examined == n && pr.LiveBytes() == old(pr.LiveBytes())
    {
      hide PipeReader.Valid, PipeReader.LiveBytes, Known;
      pr.Examine(n);
    }

    /** chunk_trailers: the trailers through their empty line; more than 4 KiB of them are malformed. */
    method ChunkTrailers() returns (ok: bool)
      requires Core()
      requires why.Going? ==> chunked && stage.Trailing? && stage.trailers == [] && pr.examined == 0
      modifies pr`floor, pr`liveInBuf, pr`bufPos, pr`bufEnd, pr`hasCur, pr`cur, pr`curPos, pr`pinned, pr`hasPinned,
               pr`curIsPinned, pr`runInCur, pr`runStart, pr`frozen, pr`log, pr`eof, pr`error, pr`examined, pr`consumed, pr.buf, pr.conn,
               this`stage, this`bodyDone, this`bodyErr, this`why, this`seen, res`status
      ensures Core()
      ensures ok ==> bodyDone && bodyErr == old(bodyErr) && why == old(why) && seen == old(seen) && res.status == old(res.status)
      ensures ok && why.Going? ==> stage.Ended? && pr.examined == 0
      ensures !ok ==> bodyErr in {400, 413, -1} && bodyDone == old(bodyDone)
      ensures old(why.Going?) || (why == old(why) && seen == old(seen))
      ensures old(why.Going?) && !ok ==> !why.Going? && (why == Syntax <==> bodyErr == 400)
      ensures pr.conn.Pending() <= old(pr.conn.Pending()) || !ok
      ensures ok && pr.conn.Pending() == old(pr.conn.Pending()) ==> |pr.LiveBytes()| < |old(pr.LiveBytes())|
      ensures old(pr.frozen) <= pr.frozen
      ensures old(Blamed()) ==> Blamed()
    {
      hide PipeReader.Valid, PipeReader.LiveBytes, PipeReader.NoRoom, PipeReader.Reads, Conn.Pending, Decode, InStep, Known, Core, FirstCrlf, IsLine, Handed, Taken, StageOk, Proves, TrailersLines;
      var taken := 0;
      var len := 1;
      NoTrailers(stage);
      while len != 0
        invariant old(Blamed()) ==> Blamed()
        invariant old(pr.frozen) <= pr.frozen
        invariant Core() && bodyErr == old(bodyErr) && why == old(why) && seen == old(seen) && res.status == old(res.status) && bodyDone == old(bodyDone)
        invariant why.Going? ==> chunked && pr.examined == 0
        invariant why.Going? ==> if len == 0 then stage.Ended? else stage.Trailing? && |TrailersLines(stage.trailers)| == taken
        invariant 0 <= len
        invariant pr.conn.Pending() <= old(pr.conn.Pending())
        invariant pr.conn.Pending() == old(pr.conn.Pending()) ==> |pr.LiveBytes()| <= |old(pr.LiveBytes())|
        invariant len == 0 && pr.conn.Pending() == old(pr.conn.Pending()) ==> |pr.LiveBytes()| < |old(pr.LiveBytes())|
        decreases pr.conn.Pending(), |pr.LiveBytes()|
      {
        var n, live := BodyLine();
        if n < 0 {
          return false;
        }
        len := n;
        taken := taken + len + 2;
        if taken > TRAILER_MAX {
          TooManyTrailers();
          BodyFail(400, Syntax);
          return false;
        }
        ghost var next := OverTrailer(len);
        TakeOff(len + 2, next);
      }
      bodyDone := true;
      return true;
    }

    /** The lines so far and the one that is live are more than trailers may be, whatever follows. */
    lemma TooManyTrailers()
      requires Core()
      requires FirstCrlf(pr.LiveBytes()).Some?
      requires why.Going? ==> chunked && stage.Trailing? && |TrailersLines(stage.trailers)| + FirstCrlf(pr.LiveBytes()).value + 2 > TRAILER_MAX
      ensures why.Going? ==> Proves(Syntax, chunked, contentLength, Since())
    {
      hide PipeReader.Valid, PipeReader.LiveBytes, Decode, FirstCrlf, StageOk, Taken, Handed;
      var live := pr.LiveBytes();
      if why.Going? {
        forall more: bytes
          ensures Decode(Since() + more) == Malformed
        {
          FirstCrlfExtends(live, more);
          MalformedTrailers(stage, live + more);
          Assoc(Taken(stage), live, more);
        }
      }
    }

    /** The stage after the line that is live. */
    lemma OverTrailer(len: nat) returns (next: Stage)
      requires Core() && FirstCrlf(pr.LiveBytes()) == Some(len)
      requires why.Going? ==> chunked && stage.Trailing? && |TrailersLines(stage.trailers)| + len + 2 <= TRAILER_MAX
      ensures len + 2 <= |pr.LiveBytes()|
      ensures why.Going? ==> StageOk(next) && Taken(next) == Taken(stage) + pr.LiveBytes()[..len + 2] && Handed(next) == Handed(stage)
      ensures why.Going? ==> if len == 0 then next.Ended? else next.Trailing? && |TrailersLines(next.trailers)| == |TrailersLines(stage.trailers)| + len + 2
    {
      hide PipeReader.Valid, PipeReader.LiveBytes, Decode, FirstCrlf, StageOk, Taken, Handed, IsLine;
      var live := pr.LiveBytes();
      LineFound(live);
      var line := live[..len];
      next := stage;
      if why.Going? {
        LineOff(live, len);
        MoveTrailer(stage, line);
        TrailersSnoc(stage.trailers, line);
        next := if line == [] then Ended(Body(stage.chunks, stage.last, stage.trailers)) else stage.(trailers := stage.trailers + [line]);
      }
    }

    /** chunk_header: the size line, and the trailers when it is the last one; a line the reader cannot hold is malformed too. */
    method ChunkHeader() returns (ok: bool)
      requires Core() && !bodyDone
      requires why.Going? ==> chunked && stage.Between? && pr.examined == 0
      modifies pr`floor, pr`liveInBuf, pr`bufPos, pr`bufEnd, pr`hasCur, pr`cur, pr`curPos, pr`pinned, pr`hasPinned,
               pr`curIsPinned, pr`runInCur, pr`runStart, pr`frozen, pr`log, pr`eof, pr`error, pr`examined, pr`consumed, pr.buf, pr.conn,
               this`stage, this`bodyDone, this`chunkLeft, this`bodyErr, this`why, this`seen, res`status
      ensures Core()
      ensures ok ==> bodyErr == old(bodyErr) && why == old(why) && seen == old(seen) && res.status == old(res.status)
      ensures ok ==> if bodyDone then chunkLeft == old(chunkLeft) else chunkLeft > 0
      ensures ok && why.Going? ==> pr.examined == 0 && if bodyDone then stage.Ended? else stage.Inside? && chunkLeft == Left(stage)
      ensures !ok ==> bodyErr in {400, 413, -1} && chunkLeft == old(chunkLeft) && bodyDone == old(bodyDone)
      ensures old(why.Going?) || (why == old(why) && seen == old(seen))
      ensures old(why.Going?) && !ok ==> !why.Going? && (why == Syntax ==> bodyErr == 400) && (bodyErr == 400 ==> why in {Syntax, Room})
      ensures pr.conn.Pending() <= old(pr.conn.Pending()) || !ok
      ensures ok && pr.conn.Pending() == old(pr.conn.Pending()) ==> |pr.LiveBytes()| < |old(pr.LiveBytes())|
      ensures old(pr.frozen) <= pr.frozen
      ensures old(Blamed()) ==> Blamed()
    {
      hide PipeReader.Valid, PipeReader.LiveBytes, PipeReader.NoRoom, PipeReader.Reads, Conn.Pending, Decode, InStep, Known, Core, FirstCrlf, IsLine,
           Handed, Taken, StageOk, Proves, SizeLine, ChunkSize;
      var len, live := BodyLine();
      if len < 0 {
        if bodyErr == 413 {
          BodyFail(400, Room);
        }
        return false;
      }
      CoreReads();
      var bytes := pr.View(live);
      FoundLine(bytes);
      var fine, size := ReadSize(bytes[..len]);
      if !fine {
        NoSizeLine(len);
        BodyFail(400, Syntax);
        return false;
      }
      ghost var next := OverSizeLine(len);
      TakeOff(len + 2, next);
      if size == 0 {
        ok := ChunkTrailers();
        return;
      }
      chunkLeft := size;
      return true;
    }

    lemma NoSizeLine(len: nat)
      requires Core() && FirstCrlf(pr.LiveBytes()) == Some(len)
      requires why.Going? ==> chunked && stage.Between? && !SizeLine(pr.LiveBytes()[..len])
      ensures why.Going? ==> Proves(Syntax, chunked, contentLength, Since())
    {
      hide PipeReader.Valid, PipeReader.LiveBytes, Decode, FirstCrlf, StageOk, Taken, Handed, SizeLine;
      var live := pr.LiveBytes();
      if why.Going? {
        forall more: bytes
          ensures Decode(Since() + more) == Malformed
        {
          FirstCrlfExtends(live, more);
          MalformedLine(stage, live + more);
          Assoc(Taken(stage), live, more);
        }
      }
    }

    lemma OverSizeLine(len: nat) returns (next: Stage)
      requires Core() && FirstCrlf(pr.LiveBytes()) == Some(len)
      requires SizeLine(pr.LiveBytes()[..len])
      requires why.Going? ==> chunked && stage.Between?
      ensures len + 2 <= |pr.LiveBytes()|
      ensures why.Going? ==> StageOk(next) && Taken(next) == Taken(stage) + pr.LiveBytes()[..len + 2] && Handed(next) == Handed(stage)
      ensures why.Going? ==> var size := ChunkSize(pr.LiveBytes()[..len]);
        if size == 0 then next.Trailing? && next.trailers == [] else next.Inside? && Left(next) == size
    {
      hide PipeReader.Valid, PipeReader.LiveBytes, Decode, FirstCrlf, StageOk, Taken, Handed, IsLine, SizeLine, ChunkSize;
      var live := pr.LiveBytes();
      LineFound(live);
      var line := live[..len];
      next := stage;
      if why.Going? {
        LineOff(live, len);
        MoveSize(stage.chunks, line);
        assert stage == Between(stage.chunks);
        next := if ChunkSize(line) == 0 then Trailing(stage.chunks, line, []) else Inside(stage.chunks, line, []);
      }
    }

    /** chunk_end: the CRLF behind a chunk's data. */
    method ChunkEnd() returns (ok: bool)
      requires Core()
      requires why.Going? ==> chunked && stage.Inside? && Left(stage) == 0 && pr.examined == 0
      modifies pr`floor, pr`liveInBuf, pr`bufPos, pr`bufEnd, pr`hasCur, pr`cur, pr`curPos, pr`pinned, pr`hasPinned,
               pr`curIsPinned, pr`runInCur, pr`runStart, pr`frozen, pr`log, pr`eof, pr`error, pr`examined, pr`consumed, pr.buf, pr.conn,
               this`stage, this`bodyErr, this`why, this`seen, res`status
      ensures Core()
      ensures ok ==> bodyErr == old(bodyErr) && why == old(why) && seen == old(seen) && res.status == old(res.status)
      ensures ok && why.Going? ==> pr.examined == 0 && stage.Between?
      ensures !ok ==> bodyErr in {400, 413, -1}
      ensures old(why.Going?) || (why == old(why) && seen == old(seen))
      ensures old(why.Going?) && !ok ==> !why.Going? && (why == Syntax <==> bodyErr == 400)
      ensures ok ==> pr.conn.Pending() <= old(pr.conn.Pending())
      ensures ok && pr.conn.Pending() == old(pr.conn.Pending()) ==> |pr.LiveBytes()| < |old(pr.LiveBytes())|
      ensures old(pr.frozen) <= pr.frozen
      ensures old(Blamed()) ==> Blamed()
    {
      hide PipeReader.Valid, PipeReader.LiveBytes, PipeReader.NoRoom, PipeReader.Reads, Conn.Pending, Decode, InStep, Known, Core, Hungry,
           Handed, Taken, StageOk, Proves, Left;
      var live := Span(BufAt(0), 0);
      while live.len < 2
        invariant old(Blamed()) ==> Blamed()
        invariant old(pr.frozen) <= pr.frozen
        invariant Core() && bodyErr == old(bodyErr) && why == old(why) && seen == old(seen) && res.status == old(res.status) && stage == old(stage)
        invariant live.len < 2 ==> why.Going? ==> pr.examined == live.len && pr.examined in {0, |pr.LiveBytes()|}
        invariant live.len >= 2 ==> pr.Reads(live) && live.len == |pr.LiveBytes()| && (why.Going? ==> pr.examined < 2)
        invariant pr.conn.Pending() <= old(pr.conn.Pending()) && (pr.conn.Pending() == old(pr.conn.Pending()) ==> pr.LiveBytes() == old(pr.LiveBytes()))
        decreases pr.conn.Pending(), |pr.LiveBytes()| - pr.examined, 2 - live.len
      {
        NoEndYet(if why.Going? then pr.LiveBytes()[..pr.examined] else []);
        ok, live := BodyBytes();
        if !ok {
          return false;
        }
        if live.len < 2 {
          Look(live.len);
        }
      }
      CoreReads();
      var bytes := pr.View(live);
      assert |bytes| >= 2;
      if bytes[0] != CR || bytes[1] != LF {
        NoChunkEnd();
        BodyFail(400, Syntax);
        return false;
      }
      ghost var next := OverEnd();
      TakeOff(2, next);
      return true;
    }

    lemma NoEndYet(live: bytes)
      requires Core() && |live| < 2
      ensures why.Going? && chunked && stage.Inside? ==> Hungry(live)
    {
      hide PipeReader.Valid, Decode;
      if why.Going? && chunked && stage.Inside? {
        UnfinishedInside(stage, live);
      }
    }

    lemma NoChunkEnd()
      requires Core() && 2 <= |pr.LiveBytes()| && (pr.LiveBytes()[0] != CR || pr.LiveBytes()[1] != LF)
      requires why.Going? ==> chunked && stage.Inside? && Left(stage) == 0
      ensures why.Going? ==> Proves(Syntax, chunked, contentLength, Since())
    {
      hide PipeReader.Valid, PipeReader.LiveBytes, Decode, StageOk, Taken, Handed, Left;
      var live := pr.LiveBytes();
      if why.Going? {
        forall more: bytes
          ensures Decode(Since() + more) == Malformed
        {
          assert (live + more)[..2] == live[..2];
          assert live[..2][0] == live[0] && live[..2][1] == live[1];
          MalformedEnd(stage, live + more);
          Assoc(Taken(stage), live, more);
        }
      }
    }

    lemma OverEnd() returns (next: Stage)
      requires Core() && 2 <= |pr.LiveBytes()| && pr.LiveBytes()[0] == CR && pr.LiveBytes()[1] == LF
      requires why.Going? ==> chunked && stage.Inside? && Left(stage) == 0
      ensures why.Going? ==> StageOk(next) && next.Between? && Taken(next) == Taken(stage) + pr.LiveBytes()[..2] && Handed(next) == Handed(stage)
    {
      hide PipeReader.Valid, PipeReader.LiveBytes, Decode, StageOk, Taken, Handed, Left;
      next := stage;
      if why.Going? {
        MoveEnd(stage);
        assert pr.LiveBytes()[..2] == CRLF;
        next := Between(stage.chunks + [Chunk(stage.line, stage.part)]);
      }
    }

    // The calls.

    /** Body bytes copied to dst: what arrived of the n asked for, at least one; -1: the body failed. */
    method CopyData(dst: array<byte>, at: nat, n: nat) returns (got: int)
      requires Core() && 0 < n && at + n <= dst.Length && dst != pr.buf
      requires why.Going? ==> pr.examined == 0 && if chunked then stage.Inside? && n <= Left(stage) else n <= contentLength - bodyRead
      modifies pr`floor, pr`liveInBuf, pr`bufPos, pr`bufEnd, pr`hasCur, pr`cur, pr`curPos, pr`pinned, pr`hasPinned,
               pr`curIsPinned, pr`runInCur, pr`runStart, pr`frozen, pr`log, pr`eof, pr`error, pr`examined, pr`consumed, pr.buf, pr.conn,
               this`stage, this`bodyRead, this`delivered, this`bodyErr, this`why, this`seen, dst
      ensures Core() && (got == -1 || 0 < got <= n)
      ensures got > 0 ==> bodyErr == old(bodyErr) && why == old(why) && seen == old(seen)
      ensures got > 0 ==> bodyRead == old(bodyRead) + got && delivered == old(delivered) + dst[at..at + got] && dst[..at] == old(dst[..at])
      ensures got > 0 && why.Going? ==> pr.examined == 0
      ensures got > 0 && why.Going? && chunked ==> stage.Inside? && Left(stage) == old(Left(stage)) - got
      ensures got == -1 ==> bodyErr == -1 && !why.Going? && delivered == old(delivered) && bodyRead == old(bodyRead)
      ensures old(why.Going?) || (why == old(why) && seen == old(seen))
      ensures old(why.Going?) && got == -1 ==> why in {Cut, Broken}
      ensures old(pr.frozen) <= pr.frozen
      ensures old(Blamed()) ==> Blamed()
    {
      hide PipeReader.Valid, PipeReader.LiveBytes, PipeReader.NoRoom, Decode, Proves, Left, Known;
      NothingLeft();
      ghost var taken, live, consumed := TakenNow(), pr.LiveBytes(), pr.consumed;
      got := pr.Copy(dst, at, n);
      if got <= 0 {
        KnownMore(why, chunked, contentLength, bodyRead, stage, delivered, seen, before, consumed, live, pr.consumed, pr.LiveBytes(), []);
        NoProof(Broken, chunked, contentLength, Since());
        assert pr.consumed == consumed && consumed + [] == consumed && delivered + [] == delivered;
        assert got == 0 ==> Since() == taken;
        Fail(-1, if got == 0 then Cut else Broken);
        return -1;
      }
      ghost var more := dst[at..at + got];
      KnownMore(why, chunked, contentLength, bodyRead, stage, delivered, seen, before, consumed, live, pr.consumed, pr.LiveBytes(), more);
      NextLeft(stage, more);
      bodyRead := bodyRead + got;
      delivered := delivered + more;
      stage := Next(stage, more);
    }

    /** With no live byte, the body is not over: in the middle of a chunk, or short of its length. */
    lemma NothingLeft()
      requires Core()
      ensures why.Going? && (if chunked then stage.Inside? else bodyRead < contentLength) ==>
        Proves(Cut, chunked, contentLength, TakenNow())
    {
      hide PipeReader.Valid, Decode;
      if why.Going? && chunked && stage.Inside? {
        UnfinishedInside(stage, []);
        assert TakenNow() + [] == TakenNow();
      }
    }

    /** fixed_data. */
    method FixedData(dst: array<byte>, at: nat, n: nat) returns (got: int)
      requires Core() && why.Going? && !chunked && bodyRead < contentLength && pr.examined == 0
      requires 0 < n && at + n <= dst.Length && dst != pr.buf
      modifies pr`floor, pr`liveInBuf, pr`bufPos, pr`bufEnd, pr`hasCur, pr`cur, pr`curPos, pr`pinned, pr`hasPinned,
               pr`curIsPinned, pr`runInCur, pr`runStart, pr`frozen, pr`log, pr`eof, pr`error, pr`examined, pr`consumed, pr.buf, pr.conn,
               this`stage, this`bodyRead, this`bodyDone, this`delivered, this`bodyErr, this`why, this`seen, dst
      ensures Core() && (got == -1 || 0 < got <= n)
      ensures got > 0 ==> why.Going? && pr.examined == 0 && delivered == old(delivered) + dst[at..at + got] && dst[..at] == old(dst[..at])
      ensures got > 0 ==> bodyRead <= contentLength && bodyDone == (old(bodyDone) || bodyRead == contentLength)
      ensures got == -1 ==> bodyErr == -1 && why in {Cut, Broken} && bodyDone == old(bodyDone) && delivered == old(delivered)
      ensures old(pr.frozen) <= pr.frozen
      ensures old(Blamed()) ==> Blamed()
    {
      hide PipeReader.Valid, PipeReader.LiveBytes, Known;
      var remaining := contentLength - bodyRead;
      got := CopyData(dst, at, if n > remaining then remaining else n);
      if got <= 0 {
        return -1;
      }
      if bodyRead == contentLength {
        bodyDone := true;
      }
    }

    /** chunk_data: a failure to find the chunk's end still hands out the bytes. */
    method ChunkData(dst: array<byte>, at: nat, n: nat) returns (got: int)
      requires Core() && 0 < chunkLeft && 0 < n && at + n <= dst.Length && dst != pr.buf
      requires why.Going? ==> chunked && stage.Inside? && chunkLeft == Left(stage) && pr.examined == 0
      modifies pr`floor, pr`liveInBuf, pr`bufPos, pr`bufEnd, pr`hasCur, pr`cur, pr`curPos, pr`pinned, pr`hasPinned,
               pr`curIsPinned, pr`runInCur, pr`runStart, pr`frozen, pr`log, pr`eof, pr`error, pr`examined, pr`consumed, pr.buf, pr.conn,
               this`stage, this`bodyRead, this`chunkLeft, this`delivered, this`bodyErr, this`why, this`seen, res`status, dst
      ensures Core() && (got == -1 || 0 < got <= n)
      ensures got > 0 ==> delivered == old(delivered) + dst[at..at + got] && dst[..at] == old(dst[..at])
      ensures got > 0 ==> got <= old(chunkLeft) && chunkLeft == old(chunkLeft) - got && (0 < chunkLeft ==> why == old(why) && seen == old(seen) && bodyErr == old(bodyErr))
      ensures got > 0 && why.Going? ==> pr.examined == 0 && chunkLeft == Left(stage) && if chunkLeft == 0 then stage.Between? else stage.Inside?
      ensures got == -1 ==> bodyErr == -1 && delivered == old(delivered)
      ensures old(why.Going?) || (why == old(why) && seen == old(seen))
      ensures old(pr.frozen) <= pr.frozen
      ensures old(Blamed()) ==> Blamed()
    {
      hide PipeReader.Valid, PipeReader.LiveBytes, Known, Core, Handed, Taken, StageOk, Proves;
      got := CopyData(dst, at, if n > chunkLeft then chunkLeft else n);
      if got <= 0 {
        return -1;
      }
      chunkLeft := chunkLeft - got;
      if chunkLeft == 0 {
        ghost var was := dst[..];
        var ended := ChunkEnd();
        assert dst[..] == was;
      }
    }

    /** What the flags of a body at rest say about the stage. */
    lemma RestSays()
      requires Core() && Resting() && bodyErr == 0 && !bodyDone
      ensures if chunked then if chunkLeft == 0 then stage.Between? else stage.Inside? && chunkLeft == Left(stage)
              else chunkLeft == 0 && bodyRead < contentLength
      ensures pr.examined == 0 && why.Going?
    {
      hide PipeReader.Valid, StageOk, Taken, Handed, PipeReader.LiveBytes;
    }

    /** One step of read_until: a header, or some data. */
    method ReadSome(dst: array<byte>, at: nat, n: nat) returns (k: int)
      requires Core() && Resting() && !bodyDone && (chunked || bodyErr == 0)
      requires 0 < n && at + n <= dst.Length && dst != pr.buf
      modifies pr`floor, pr`liveInBuf, pr`bufPos, pr`bufEnd, pr`hasCur, pr`cur, pr`curPos, pr`pinned, pr`hasPinned,
               pr`curIsPinned, pr`runInCur, pr`runStart, pr`frozen, pr`log, pr`eof, pr`error, pr`examined, pr`consumed, pr.buf, pr.conn,
               this`stage, this`bodyRead, this`bodyDone, this`chunkLeft, this`delivered, this`bodyErr, this`why, this`seen,
               res`status, dst
      ensures Core() && Resting() && -1 <= k <= n
      ensures k >= 0 ==> delivered == old(delivered) + dst[at..at + k] && dst[..at] == old(dst[..at])
      ensures k == 0 ==> old(chunkLeft) == 0 && (bodyDone || chunkLeft > 0)
      ensures k >= 0 ==> chunked || bodyErr == 0
      ensures k == -1 ==> bodyErr != 0
      ensures old(delivered) <= delivered
      ensures old(why.Going?) || (why == old(why) && seen == old(seen))
      ensures old(pr.frozen) <= pr.frozen
      ensures old(Blamed()) ==> Blamed()
    {
      hide PipeReader.Valid, PipeReader.LiveBytes, Known, Core, AtRest, Resting;
      if !chunked {
        CoreReads();
        k := SomeFixed(dst, at, n);
      } else if chunkLeft == 0 {
        ghost var was := dst[..];
        var ok := HeaderFirst();
        k := if ok then 0 else -1;
        assert dst[..] == was && dst[at..at + 0] == [];
      } else {
        k := SomeChunk(dst, at, n);
      }
    }

    method SomeFixed(dst: array<byte>, at: nat, n: nat) returns (got: int)
      requires Core() && Resting() && !bodyDone && !chunked && why.Going?
      requires 0 < n && at + n <= dst.Length && dst != pr.buf
      modifies pr`floor, pr`liveInBuf, pr`bufPos, pr`bufEnd, pr`hasCur, pr`cur, pr`curPos, pr`pinned, pr`hasPinned,
               pr`curIsPinned, pr`runInCur, pr`runStart, pr`frozen, pr`log, pr`eof, pr`error, pr`examined, pr`consumed, pr.buf, pr.conn,
               this`stage, this`bodyRead, this`bodyDone, this`chunkLeft, this`delivered, this`bodyErr, this`why, this`seen,
               res`status, dst
      ensures Core() && Resting() && (got == -1 || 0 < got <= n)
      ensures got > 0 ==> bodyErr == 0 && delivered == old(delivered) + dst[at..at + got] && dst[..at] == old(dst[..at])
      ensures got == -1 ==> bodyErr == -1 && delivered == old(delivered)
      ensures old(pr.frozen) <= pr.frozen
      ensures old(Blamed()) ==> Blamed()
    {
      hide PipeReader.Valid, PipeReader.LiveBytes, Known, Core, AtRest;
      CoreReads();
      RestSays();
      got := FixedData(dst, at, n);
      CoreReads();
      FixedRests();
    }

    method SomeChunk(dst: array<byte>, at: nat, n: nat) returns (got: int)
      requires Core() && Resting() && !bodyDone && chunked && 0 < chunkLeft
      requires 0 < n && at + n <= dst.Length && dst != pr.buf
      modifies pr`floor, pr`liveInBuf, pr`bufPos, pr`bufEnd, pr`hasCur, pr`cur, pr`curPos, pr`pinned, pr`hasPinned,
               pr`curIsPinned, pr`runInCur, pr`runStart, pr`frozen, pr`log, pr`eof, pr`error, pr`examined, pr`consumed, pr.buf, pr.conn,
               this`stage, this`bodyRead, this`chunkLeft, this`delivered, this`bodyErr, this`why, this`seen,
               res`status, dst
      ensures Core() && Resting() && (got == -1 || 0 < got <= n)
      ensures got > 0 ==> delivered == old(delivered) + dst[at..at + got] && dst[..at] == old(dst[..at])
      ensures got > 0 ==> got <= old(chunkLeft) && chunkLeft == old(chunkLeft) - got && (0 < chunkLeft ==> bodyErr == old(bodyErr))
      ensures got == -1 ==> bodyErr == -1 && delivered == old(delivered)
      ensures old(why.Going?) || (why == old(why) && seen == old(seen))
      ensures old(pr.frozen) <= pr.frozen
      ensures old(Blamed()) ==> Blamed()
    {
      hide PipeReader.Valid, PipeReader.LiveBytes, Known, Core, AtRest;
      CoreReads();
      if bodyErr == 0 {
        RestSays();
      }
      got := ChunkData(dst, at, n);
      CoreReads();
      ChunkRests();
    }

    method HeaderFirst() returns (ok: bool)
      requires Core() && Resting() && chunked && !bodyDone && chunkLeft == 0
      modifies pr`floor, pr`liveInBuf, pr`bufPos, pr`bufEnd, pr`hasCur, pr`cur, pr`curPos, pr`pinned, pr`hasPinned,
               pr`curIsPinned, pr`runInCur, pr`runStart, pr`frozen, pr`log, pr`eof, pr`error, pr`examined, pr`consumed, pr.buf, pr.conn,
               this`stage, this`bodyDone, this`chunkLeft, this`bodyErr, this`why, this`seen,
               res`status
      ensures Core() && Resting()
      ensures if ok then bodyErr == old(bodyErr) && (bodyDone || chunkLeft > 0) else bodyErr != 0
      ensures old(why.Going?) || (why == old(why) && seen == old(seen))
      ensures old(pr.frozen) <= pr.frozen
      ensures old(Blamed()) ==> Blamed()
    {
      hide PipeReader.Valid, PipeReader.LiveBytes, Known, Core, AtRest;
      CoreReads();
      if bodyErr == 0 {
        RestSays();
      }
      ok := ChunkHeader();
      CoreReads();
      ChunkRests();
    }

    lemma FixedRests()
      requires !chunked
      ensures AtRest(chunked, contentLength, bodyRead, bodyDone, chunkLeft, stage) <==> chunkLeft == 0 && bodyDone == (bodyRead == contentLength)
    {
    }

    lemma ChunkRests()
      requires chunked
      ensures bodyDone && stage.Ended? && chunkLeft == 0 ==> AtRest(chunked, contentLength, bodyRead, bodyDone, chunkLeft, stage)
      ensures !bodyDone && chunkLeft == Left(stage) && (if chunkLeft == 0 then stage.Between? else stage.Inside?)
        ==> AtRest(chunked, contentLength, bodyRead, bodyDone, chunkLeft, stage)
      ensures stage.Between? ==> Left(stage) == 0
    {
    }

    /** ioxd_body_read_until: n bytes of the body, fewer only at its end. */
    method ReadUntil(dst: array<byte>, at: nat, asked: nat) returns (rc: int)
      requires Valid() && at + asked <= dst.Length && dst != pr.buf
      modifies pr`floor, pr`liveInBuf, pr`bufPos, pr`bufEnd, pr`hasCur, pr`cur, pr`curPos, pr`pinned, pr`hasPinned,
               pr`curIsPinned, pr`runInCur, pr`runStart, pr`frozen, pr`log, pr`eof, pr`error, pr`examined, pr`consumed, pr.buf, pr.conn,
               this`stage, this`bodyRead, this`bodyDone, this`chunkLeft, this`continueSent, this`delivered, this`bodyErr, this`why, this`seen,
               res`status, pw`failed, pw.conn, dst
      ensures Valid() && -1 <= rc <= asked
      ensures old(bodyErr) != 0 ==> rc == -1
      ensures rc == -1 ==> bodyErr != 0
      ensures rc >= 0 ==> delivered == old(delivered) + dst[at..at + rc]
      ensures old(delivered) <= delivered && (old(continueSent) ==> continueSent)
      ensures rc >= 0 ==> bodyDone || rc == if asked <= INT_MAX then asked else INT_MAX
      ensures old(why.Going?) || (why == old(why) && seen == old(seen))
      ensures old(bodyErr != 0 || bodyDone || !expectContinue || continueSent || res.headSent) ==> pw.conn.wire == old(pw.conn.wire)
      ensures old(res.headSent) ==> pw.conn.wire == old(pw.conn.wire)
      ensures old(pw.failed) ==> pw.failed
      ensures old(pw.conn.wire) <= pw.conn.wire <= old(pw.conn.wire) + CONTINUE
      ensures Interim(old(pw.conn.wire), old(continueSent)) && (old(res.headSent) ==> continueSent == old(continueSent))
      ensures old(pr.frozen) <= pr.frozen
      ensures old(Blamed()) ==> Blamed()
    {
      hide PipeReader.Valid, PipeReader.LiveBytes, Known, AtRest, Core, Valid, Resting, Since, TakenNow;
      ValidRests();
      CoreReads();
      if bodyErr != 0 {
        return -1;
      }
      if asked == 0 || bodyDone {
        return 0;
      }
      var ok := Begin();
      if !ok {
        return -1;
      }
      rc := FillUp(dst, at, if asked > INT_MAX then INT_MAX else asked);
    }

    /** The loop of read_until. */
    method FillUp(dst: array<byte>, at: nat, n: nat) returns (rc: int)
      requires Core() && Resting() && bodyErr == 0 && at + n <= dst.Length && dst != pr.buf
      modifies pr`floor, pr`liveInBuf, pr`bufPos, pr`bufEnd, pr`hasCur, pr`cur, pr`curPos, pr`pinned, pr`hasPinned,
               pr`curIsPinned, pr`runInCur, pr`runStart, pr`frozen, pr`log, pr`eof, pr`error, pr`examined, pr`consumed, pr.buf, pr.conn,
               this`stage, this`bodyRead, this`bodyDone, this`chunkLeft, this`delivered, this`bodyErr, this`why, this`seen,
               res`status, dst
      ensures Valid() && -1 <= rc <= n && (rc == -1 ==> bodyErr != 0)
      ensures rc >= 0 ==> delivered == old(delivered) + dst[at..at + rc] && (bodyDone || rc == n)
      ensures old(delivered) <= delivered
      ensures old(pr.frozen) <= pr.frozen
      ensures old(Blamed()) ==> Blamed()
    {
      hide PipeReader.Valid, PipeReader.LiveBytes, Known, AtRest, Core, Valid, Resting, Since, TakenNow, Blamed;
      var got := 0;
      while got < n && !bodyDone
        invariant old(Blamed()) ==> Blamed()
        invariant old(pr.frozen) <= pr.frozen
        invariant Core() && Resting() && 0 <= got <= n && (chunked || bodyErr == 0)
        invariant delivered == old(delivered) + dst[at..at + got]
        invariant old(delivered) <= delivered
        decreases n - got, if !bodyDone && chunkLeft == 0 then 1 else 0
      {
        ghost var was := dst[at..at + got];
        var k := ReadSome(dst, at + got, n - got);
        RestsValid();
        if k < 0 {
          return -1;
        }
        Appends(dst[..], was, at, got, k);
        Assoc(old(delivered), was, dst[at + got..at + got + k]);
        got := got + k;
      }
      RestsValid();
      return got;
    }

    /** body_begin, as the calls do it first. */
    method Begin() returns (ok: bool)
      requires Core() && Resting() && bodyErr == 0
      modifies this`continueSent, this`bodyErr, this`why, this`seen, pw`failed, pw.conn
      ensures old(continueSent) ==> continueSent
      ensures Interim(old(pw.conn.wire), old(continueSent)) && (old(res.headSent) ==> continueSent == old(continueSent))
      ensures Core() && Resting() && Valid() && (if ok then bodyErr == 0 && why == old(why) else bodyErr == -1)
      ensures old(!expectContinue || continueSent || res.headSent) ==> pw.conn.wire == old(pw.conn.wire)
      ensures old(pw.conn.wire) <= pw.conn.wire <= old(pw.conn.wire) + CONTINUE && (old(pw.failed) ==> pw.failed)
      ensures old(Blamed()) ==> Blamed()
    {
      hide PipeReader.Valid, PipeReader.LiveBytes, Known, AtRest, Core, Valid;
      ok := BodyBegin();
      RestsValid();
    }

    /** ioxd_body_read_next_chunk: what is left of the chunk in hand, or the next one; 0 after the last. */
    method ReadNextChunk(dst: array<byte>, at: nat, cap: nat) returns (rc: int)
      requires Valid() && at + cap <= dst.Length && dst != pr.buf
      modifies pr`floor, pr`liveInBuf, pr`bufPos, pr`bufEnd, pr`hasCur, pr`cur, pr`curPos, pr`pinned, pr`hasPinned,
               pr`curIsPinned, pr`runInCur, pr`runStart, pr`frozen, pr`log, pr`eof, pr`error, pr`examined, pr`consumed, pr.buf, pr.conn,
               this`stage, this`bodyRead, this`bodyDone, this`chunkLeft, this`continueSent, this`delivered, this`bodyErr, this`why, this`seen,
               res`status, pw`failed, pw.conn, dst
      ensures Valid() && -1 <= rc <= cap
      ensures old(bodyErr) != 0 || !chunked ==> rc == -1 && delivered == old(delivered)
      ensures rc == -1 ==> bodyErr != 0 || !chunked
      ensures rc >= 0 ==> delivered == old(delivered) + dst[at..at + rc]
      ensures rc == 0 ==> bodyDone
      ensures rc > 0 ==> chunkLeft == 0 && (old(chunkLeft) > 0 ==> rc == old(chunkLeft))
      ensures old(why.Going?) || (why == old(why) && seen == old(seen))
      ensures old(res.headSent) ==> pw.conn.wire == old(pw.conn.wire)
      ensures old(pw.failed) ==> pw.failed
      ensures old(pw.conn.wire) <= pw.conn.wire <= old(pw.conn.wire) + CONTINUE
      ensures Interim(old(pw.conn.wire), old(continueSent)) && (old(res.headSent) ==> continueSent == old(continueSent))
      ensures old(continueSent) ==> continueSent
      ensures old(pr.frozen) <= pr.frozen
      ensures old(Blamed()) ==> Blamed() || (why == Large && (chunkLeft > cap || cap > INT_MAX))
    {
      hide PipeReader.Valid, PipeReader.LiveBytes, Known, Left, Core, AtRest, Valid, Resting;
      ValidRests();
      CoreReads();
      if bodyErr != 0 || !chunked {
        return -1;
      }
      if bodyDone {
        return 0;
      }
      var ok := Begin();
      if !ok {
        return -1;
      }
      if chunkLeft == 0 {
        ok := HeaderFirst();
        RestsValid();
        if !ok {
          return -1;
        }
        if bodyDone {
          return 0;
        }
      }
      if chunkLeft > cap || cap > INT_MAX {
        TooLarge();
        return -1;
      }
      rc := WholeChunk(dst, at);
    }

    method TooLarge()
      requires Core() && Resting()
      modifies this`bodyErr, this`why, this`seen, res`status
      ensures Valid() && bodyErr == 413 == res.status
      ensures old(why.Going?) || (why == old(why) && seen == old(seen))
      ensures if old(why.Going?) then why == Large else why == old(why)
    {
      hide PipeReader.Valid, PipeReader.LiveBytes, Known, Core, AtRest, Valid;
      NoProof(Large, chunked, contentLength, Since());
      BodyFail(413, Large);
      RestsValid();
    }

    /** The loop of read_next_chunk. */
    method WholeChunk(dst: array<byte>, at: nat) returns (rc: int)
      requires Core() && Resting() && chunked && bodyErr == 0 && !bodyDone && 0 < chunkLeft && at + chunkLeft <= dst.Length && dst != pr.buf
      modifies pr`floor, pr`liveInBuf, pr`bufPos, pr`bufEnd, pr`hasCur, pr`cur, pr`curPos, pr`pinned, pr`hasPinned,
               pr`curIsPinned, pr`runInCur, pr`runStart, pr`frozen, pr`log, pr`eof, pr`error, pr`examined, pr`consumed, pr.buf, pr.conn,
               this`stage, this`bodyRead, this`bodyDone, this`chunkLeft, this`delivered, this`bodyErr, this`why, this`seen,
               res`status, dst
      ensures Valid() && (rc == -1 || rc == old(chunkLeft))
      ensures rc == -1 ==> bodyErr != 0
      ensures rc >= 0 ==> chunkLeft == 0 && delivered == old(delivered) + dst[at..at + rc]
      ensures old(pr.frozen) <= pr.frozen
      ensures old(Blamed()) ==> Blamed()
    {
      hide PipeReader.Valid, PipeReader.LiveBytes, Known, Core, AtRest, Valid, Resting;
      var want := chunkLeft;
      var got := 0;
      while got < want
        invariant old(Blamed()) ==> Blamed()
        invariant old(pr.frozen) <= pr.frozen
        invariant Core() && Resting() && 0 <= got <= want && !bodyDone && chunkLeft == want - got
        invariant got < want ==> bodyErr == 0
        invariant delivered == old(delivered) + dst[at..at + got]
        decreases want - got
      {
        ghost var was := dst[at..at + got];
        var k := SomeChunk(dst, at + got, want - got);
        RestsValid();
        if k < 0 {
          return -1;
        }
        Appends(dst[..], was, at, got, k);
        Assoc(old(delivered), was, dst[at + got..at + got + k]);
        got := got + k;
      }
      RestsValid();
      return got;
    }

    /** drain_body: what the handler left unread is read, up to a limit. */
    method Drain()
      requires Valid()
      modifies pr`floor, pr`liveInBuf, pr`bufPos, pr`bufEnd, pr`hasCur, pr`cur, pr`curPos, pr`pinned, pr`hasPinned,
               pr`curIsPinned, pr`runInCur, pr`runStart, pr`frozen, pr`log, pr`eof, pr`error, pr`examined, pr`consumed, pr.buf, pr.conn,
               this`stage, this`bodyRead, this`bodyDone, this`chunkLeft, this`delivered, this`bodyErr, this`why, this`seen,
               res`status, this`continueSent, pw`failed, pw.conn, res`close
      ensures Valid()
      ensures bodyDone || bodyErr != 0 || res.close
      ensures old(res.close) ==> res.close
      ensures old(why.Going?) || (why == old(why) && seen == old(seen))
      ensures old(bodyErr) != 0 ==> bodyErr == old(bodyErr)
      ensures old(pw.failed) ==> pw.failed
      ensures old(delivered) <= delivered
      ensures Interim(old(pw.conn.wire), old(continueSent)) && (old(res.headSent) ==> continueSent == old(continueSent))
      ensures old(continueSent) ==> continueSent
      ensures old(!expectContinue || continueSent || res.headSent) ==> pw.conn.wire == old(pw.conn.wire)
      ensures old(pr.frozen) <= pr.frozen
      ensures old(Blamed()) ==> Blamed()
    {
      hide Valid;
      var tmp := new byte[4096];
      var drained := 0;
      ghost var wire := pw.conn.wire;
      while !bodyDone && bodyErr == 0
        invariant old(Blamed()) ==> Blamed()
        invariant old(pr.frozen) <= pr.frozen
        invariant Valid() && 0 <= drained
        invariant old(bodyErr) != 0 ==> bodyErr == old(bodyErr)
        invariant old(why.Going?) || (why == old(why) && seen == old(seen))
        invariant old(delivered) <= delivered && (old(res.close) ==> res.close) && (old(pw.failed) ==> pw.failed)
        invariant Interim(wire, old(continueSent)) && (old(continueSent) ==> continueSent)
        invariant res.headSent == old(res.headSent) && (res.headSent ==> continueSent == old(continueSent))
        invariant old(!expectContinue || continueSent || res.headSent) ==> pw.conn.wire == wire && (!expectContinue || continueSent || res.headSent)
        decreases DRAIN_MAX - drained
      {
        if drained >= DRAIN_MAX {
          res.close := true;
          return;
        }
        var n := ReadUntil(tmp, 0, 4096);
        if n <= 0 {
          return;
        }
        drained := drained + n;
      }
    }

    /** Live body bytes are kept instead of copied; false: no room for them. */
    method KeepData(n: nat) returns (at: Option<Place>)
      requires Core() && why.Going? && 0 < n <= |pr.LiveBytes()| && pr.kept == delivered
      requires if chunked then stage.Inside? && n <= Left(stage) else n <= contentLength - bodyRead
      modifies pr`floor, pr`liveInBuf, pr`bufPos, pr`bufEnd, pr`hasCur, pr`curPos, pr`curIsPinned, pr`runInCur, pr`runStart,
               pr`runLen, pr`kept, pr`error, pr`examined, pr`consumed, pr.buf, pr.conn,
               this`stage, this`bodyRead, this`delivered, this`bodyErr, this`why, this`seen, res`status
      ensures Core()
      ensures at.Some? ==> why.Going? && pr.kept == delivered == old(delivered) + old(pr.LiveBytes())[..n]
      ensures at.Some? ==> pr.LiveBytes() == old(pr.LiveBytes())[n..] && bodyRead == old(bodyRead) + n
      ensures at.Some? ==> InBounds(pr.buf[..], pr.conn.mem, at.value, n) && Mem(pr.buf[..], pr.conn.mem, at.value, n) == old(pr.LiveBytes())[..n]
      ensures at.Some? && chunked ==> stage.Inside? && Left(stage) == old(Left(stage)) - n
      ensures at.Some? ==> pr.examined == (if old(pr.examined) > n then old(pr.examined) - n else 0) && pr.conn.Pending() == old(pr.conn.Pending())
      ensures at.None? ==> bodyErr == 413 && why == Room
      ensures old(Blamed()) ==> Blamed()
    {
      hide PipeReader.Valid, PipeReader.LiveBytes, PipeReader.State, KeepFits, Decode, Proves, Left, Known, Conn.Pending;
      ghost var live, consumed := pr.LiveBytes(), pr.consumed;
      at := pr.Keep(n);
      if at.None? {
        KnownMore(why, chunked, contentLength, bodyRead, stage, delivered, seen, before, consumed, live, pr.consumed, pr.LiveBytes(), []);
        assert pr.consumed == consumed && consumed + [] == consumed && delivered + [] == delivered;
        NoProof(Room, chunked, contentLength, Since());
        BodyFail(413, Room);
        return;
      }
      ghost var more := live[..n];
      assert consumed + live <= pr.consumed + pr.LiveBytes() by {
        TakenAndLeft(consumed, live, live, n);
      }
      KnownMore(why, chunked, contentLength, bodyRead, stage, delivered, seen, before, consumed, live, pr.consumed, pr.LiveBytes(), more);
      NextLeft(stage, more);
      bodyRead := bodyRead + n;
      delivered := delivered + more;
      stage := Next(stage, more);
    }

    /** A chunked body being gathered: everything delivered is kept, in one piece. */
    ghost predicate Gathering()
      reads this`bodyRead, this`bodyErr, this`bodyDone, this`bodyWhole, this`chunkLeft, this`stage, this`delivered, pr`examined, pr`kept
    {
      && chunked && !bodyWhole && bodyErr == 0 && pr.examined == 0 && pr.kept == delivered
      && AtRest(chunked, contentLength, bodyRead, bodyDone, chunkLeft, stage)
    }

    /** One round of body_all's loop over chunks. */
    method GatherSome() returns (ok: bool)
      requires Core() && Gathering() && !bodyDone
      modifies pr`floor, pr`liveInBuf, pr`bufPos, pr`bufEnd, pr`hasCur, pr`cur, pr`curPos, pr`pinned, pr`hasPinned,
               pr`curIsPinned, pr`runInCur, pr`runStart, pr`runLen, pr`kept, pr`frozen, pr`log, pr`eof, pr`error, pr`examined, pr`consumed,
               pr.buf, pr.conn,
               this`stage, this`bodyRead, this`bodyDone, this`chunkLeft, this`delivered, this`bodyErr, this`why, this`seen,
               res`status
      ensures Core() && if ok then Gathering() else bodyErr != 0
      ensures ok ==> pr.conn.Pending() <= old(pr.conn.Pending())
      ensures ok && pr.conn.Pending() == old(pr.conn.Pending()) ==> |pr.LiveBytes()| < |old(pr.LiveBytes())|
      ensures old(pr.frozen) <= pr.frozen
      ensures old(Blamed()) ==> Blamed()
    {
      hide PipeReader.Valid, PipeReader.LiveBytes, PipeReader.Reads, Known, Core, AtRest, Conn.Pending, Proves, Left;
      CoreReads();
      GatheringSays();
      if chunkLeft == 0 {
        ok := ChunkHeader();
        CoreReads();
        ChunkRests();
        return;
      }
      ok := GatherData();
    }

    lemma GatheringSays()
      requires Core() && Gathering() && !bodyDone
      ensures if chunkLeft == 0 then stage.Between? else stage.Inside? && chunkLeft == Left(stage)
      ensures why.Going?
    {
      hide PipeReader.Valid, StageOk, Taken, Handed, PipeReader.LiveBytes;
    }

    method GatherData() returns (ok: bool)
      requires Core() && Gathering() && !bodyDone && 0 < chunkLeft
      modifies pr`floor, pr`liveInBuf, pr`bufPos, pr`bufEnd, pr`hasCur, pr`cur, pr`curPos, pr`pinned, pr`hasPinned,
               pr`curIsPinned, pr`runInCur, pr`runStart, pr`runLen, pr`kept, pr`frozen, pr`log, pr`eof, pr`error, pr`examined, pr`consumed,
               pr.buf, pr.conn,
               this`stage, this`bodyRead, this`bodyDone, this`chunkLeft, this`delivered, this`bodyErr, this`why, this`seen,
               res`status
      ensures Core() && if ok then Gathering() else bodyErr != 0
      ensures ok ==> pr.conn.Pending() <= old(pr.conn.Pending())
      ensures ok && pr.conn.Pending() == old(pr.conn.Pending()) ==> |pr.LiveBytes()| < |old(pr.LiveBytes())|
      ensures old(pr.frozen) <= pr.frozen
      ensures old(Blamed()) ==> Blamed()
    {
      hide PipeReader.Valid, PipeReader.LiveBytes, PipeReader.Reads, PipeReader.NoRoom, Known, Core, AtRest, Conn.Pending, Proves, Left, InBounds, Mem;
      CoreReads();
      GatheringSays();
      NothingLeft();
      HungryNow();
      var live;
      ok, live := BodyBytes();
      if !ok {
        return;
      }
      var n := if live.len < chunkLeft then live.len else chunkLeft;
      var at := KeepData(n);
      if at.None? {
        return false;
      }
      CoreReads();
      chunkLeft := chunkLeft - n;
      if chunkLeft == 0 {
        ok := ChunkEnd();
        CoreReads();
      }
      ChunkRests();
    }

    lemma HungryNow()
      requires pr.examined == 0 && Proves(Cut, chunked, contentLength, TakenNow())
      ensures Hungry(pr.LiveBytes()[..pr.examined])
    {
      hide PipeReader.LiveBytes, Decode;
      assert TakenNow() + pr.LiveBytes()[..pr.examined] == TakenNow();
    }

    /** ioxd_body_all: the body in one piece, kept; nothing once some of it was read another way. */
    method BodyAll() returns (whole: Option<Span>)
      requires Valid()
      modifies pr`floor, pr`liveInBuf, pr`bufPos, pr`bufEnd, pr`hasCur, pr`cur, pr`curPos, pr`pinned, pr`hasPinned,
               pr`curIsPinned, pr`runInCur, pr`runStart, pr`runLen, pr`kept, pr`frozen, pr`log, pr`eof, pr`error, pr`examined, pr`consumed,
               pr.buf, pr.conn,
               this`stage, this`bodyRead, this`bodyDone, this`chunkLeft, this`delivered, this`bodyErr, this`why, this`seen,
               res`status, this`bodyWhole, this`body, this`continueSent, pw`failed, pw.conn
      ensures Valid()
      ensures whole.Some? ==> bodyWhole && bodyDone && bodyErr == 0 && whole.value == body && IsBody(body)
      ensures whole.None? ==> bodyErr != 0 || old(bodyRead) != 0
      ensures old(bodyWhole) ==> whole.Some? && delivered == old(delivered)
      ensures old(!bodyWhole && (bodyRead != 0 || bodyErr != 0)) ==> whole.None? && delivered == old(delivered) && bodyErr == old(bodyErr)
      ensures old(why.Going?) || (why == old(why) && seen == old(seen))
      ensures old(res.headSent) ==> pw.conn.wire == old(pw.conn.wire)
      ensures old(pw.failed) ==> pw.failed
      ensures old(pw.conn.wire) <= pw.conn.wire <= old(pw.conn.wire) + CONTINUE
      ensures Interim(old(pw.conn.wire), old(continueSent)) && (old(res.headSent) ==> continueSent == old(continueSent))
      ensures old(continueSent) ==> continueSent
      ensures old(pr.frozen) <= pr.frozen
      ensures old(Blamed()) ==> Blamed() || (why == Large && !chunked && contentLength > pr.buf.Length)
    {
      hide PipeReader.Valid, PipeReader.LiveBytes, Known, AtRest, Core, Valid, IsBody;
      ValidRests();
      CoreReads();
      if bodyWhole {
        WholeSays();
        return Some(body);
      }
      if bodyRead != 0 || bodyErr != 0 {
        return None;
      }
      if !bodyDone {
        var ok := Begin();
        if !ok {
          return None;
        }
      }
      CoreReads();
      if chunked {
        whole := ChunkedAll();
      } else {
        whole := FixedAll();
      }
    }

    lemma WholeSays()
      requires Valid() && bodyWhole
      ensures bodyDone && bodyErr == 0 && IsBody(body)
    {
      hide Core, IsBody;
    }

    lemma WholeValid()
      requires Core() && bodyErr == 0 && AtRest(chunked, contentLength, bodyRead, bodyDone, chunkLeft, stage) && pr.examined == 0
      requires bodyWhole && bodyDone && IsBody(body)
      ensures Valid()
    {
      hide Core, AtRest, IsBody;
    }

    method ChunkedAll() returns (whole: Option<Span>)
      requires Core() && Resting() && chunked && bodyErr == 0 && delivered == []
      modifies pr`floor, pr`liveInBuf, pr`bufPos, pr`bufEnd, pr`hasCur, pr`cur, pr`curPos, pr`pinned, pr`hasPinned,
               pr`curIsPinned, pr`runInCur, pr`runStart, pr`runLen, pr`kept, pr`frozen, pr`log, pr`eof, pr`error, pr`examined, pr`consumed,
               pr.buf, pr.conn,
               this`stage, this`bodyRead, this`bodyDone, this`chunkLeft, this`delivered, this`bodyErr, this`why, this`seen,
               res`status, this`bodyWhole, this`body
      ensures Valid()
      ensures whole.Some? ==> bodyWhole && bodyDone && bodyErr == 0 && whole.value == body && IsBody(body)
      ensures whole.None? ==> bodyErr != 0
      ensures old(pr.frozen) <= pr.frozen
      ensures old(Blamed()) ==> Blamed()
    {
      hide PipeReader.Valid, PipeReader.LiveBytes, Known, AtRest, Core, Valid, Conn.Pending, RunPlace, PipeReader.State;
      while !bodyDone
        invariant old(Blamed()) ==> Blamed()
        invariant old(pr.frozen) <= pr.frozen
        invariant Core() && Gathering()
        decreases pr.conn.Pending(), |pr.LiveBytes()|
      {
        var ok := GatherSome();
        if !ok {
          RestsValid();
          return None;
        }
      }
      CoreReads();
      body := pr.Run();
      bodyWhole := true;
      WholeValid();
      return Some(body);
    }

    method FixedAll() returns (whole: Option<Span>)
      requires Core() && Resting() && !chunked && bodyErr == 0 && bodyRead == 0 && delivered == []
      modifies pr`floor, pr`liveInBuf, pr`bufPos, pr`bufEnd, pr`hasCur, pr`cur, pr`curPos, pr`pinned, pr`hasPinned,
               pr`curIsPinned, pr`runInCur, pr`runStart, pr`runLen, pr`kept, pr`frozen, pr`log, pr`eof, pr`error, pr`examined, pr`consumed,
               pr.buf, pr.conn,
               this`stage, this`bodyRead, this`bodyDone, this`chunkLeft, this`delivered, this`bodyErr, this`why, this`seen,
               res`status, this`bodyWhole, this`body
      ensures Valid()
      ensures whole.Some? ==> bodyWhole && bodyDone && bodyErr == 0 && whole.value == body && IsBody(body)
      ensures whole.None? ==> bodyErr != 0
      ensures old(pr.frozen) <= pr.frozen
      ensures old(Blamed()) ==> Blamed() || (why == Large && contentLength > pr.buf.Length)
    {
      hide PipeReader.Valid, PipeReader.LiveBytes, PipeReader.Reads, PipeReader.NoRoom, Known, AtRest, Core, Valid, Conn.Pending, Proves;
      CoreReads();
      FixedRests();
      if contentLength > pr.buf.Length {
        TooLarge();
        return None;
      }
      if contentLength == 0 {
        body, bodyDone, bodyWhole := Span(BufAt(0), 0), true, true;
        FixedRests();
        WholeValid();
        return Some(body);
      }
      var ok := FixedLive();
      if !ok {
        RestsValid();
        return None;
      }
      CoreReads();
      var at := KeepData(contentLength);
      CoreReads();
      if at.None? {
        RestsValid();
        return None;
      }
      body, bodyDone, bodyWhole := Span(at.value, contentLength), true, true;
      FixedRests();
      WholeValid();
      return Some(body);
    }

    /** Wait until the whole body is live. */
    method FixedLive() returns (ok: bool)
      requires Core() && Resting() && !chunked && bodyErr == 0 && bodyRead == 0 && delivered == [] && 0 < contentLength
      modifies pr`floor, pr`liveInBuf, pr`bufPos, pr`bufEnd, pr`hasCur, pr`cur, pr`curPos, pr`pinned, pr`hasPinned,
               pr`curIsPinned, pr`runInCur, pr`runStart, pr`frozen, pr`log, pr`eof, pr`error, pr`examined, pr`consumed, pr.buf, pr.conn,
               this`bodyErr, this`why, this`seen, res`status
      ensures Core() && (if ok then bodyErr == 0 && pr.examined < contentLength <= |pr.LiveBytes()| else bodyErr != 0)
      ensures old(pr.frozen) <= pr.frozen
      ensures old(Blamed()) ==> Blamed()
    {
      hide PipeReader.Valid, PipeReader.LiveBytes, PipeReader.Reads, PipeReader.NoRoom, Known, AtRest, Core, Conn.Pending;
      CoreReads();
      var have := 0;
      while have < contentLength
        invariant old(Blamed()) ==> Blamed()
        invariant old(pr.frozen) <= pr.frozen
        invariant Core() && bodyErr == 0 && why.Going?
        invariant pr.examined < contentLength
        invariant 0 <= have && (have == 0 ==> pr.examined == 0)
        invariant have > 0 ==> have == |pr.LiveBytes()|
        decreases pr.conn.Pending(), if have == 0 then 1 else 0
      {
        if have > 0 {
          Look(have);
        }
        FixedHungry(pr.LiveBytes()[..pr.examined]);
        var live;
        ok, live := BodyBytes();
        if !ok {
          return;
        }
        have := live.len;
        CoreReads();
      }
      return true;
    }

    lemma FixedHungry(live: bytes)
      requires Core() && !chunked && bodyRead + |live| < contentLength
      ensures Hungry(live)
    {
      hide PipeReader.Valid;
    }

    // What it comes to.

    /**
     * The reader agrees with the reference decoder on the bytes that arrived since the body began,
     * however they were cut and in whatever way they were asked for: a body that ended is the one
     * it decodes, and takes exactly its bytes; a syntax error is one; and an input that ended too
     * soon leaves it unfinished.
     */
    lemma Outcome()
      requires Valid() && chunked
      ensures bodyErr == 0 && bodyDone ==> Decode(Since()) == Done(delivered, |TakenNow()|)
      ensures bodyErr == 0 && !bodyDone ==> Decode(TakenNow()) == Unfinished
      ensures bodyErr != 0 ==> seen <= Since()
      ensures why == Syntax ==> Decode(Since()) == Malformed
      ensures why == Cut ==> Decode(seen) == Unfinished
    {
      hide PipeReader.Valid, PipeReader.LiveBytes, Decode, StageOk, Taken, Handed, FirstCrlf;
      if why.Going? {
        assert TakenNow() + [] == TakenNow();
        NoCrlfYet();
        if stage.Ended? {
          DoneWhenEnded(stage, pr.LiveBytes());
        } else if stage.Between? {
          UnfinishedLine(stage, []);
        } else {
          UnfinishedInside(stage, []);
        }
      } else if why == Syntax {
        assert Since() == seen + Since()[|seen|..];
      }
    }

    /** A body of a declared length is the next that many bytes. */
    lemma FixedOutcome()
      requires Valid() && !chunked
      ensures bodyErr == 0 ==> delivered == TakenNow() && |delivered| <= contentLength
      ensures bodyErr == 0 ==> (bodyDone <==> |delivered| == contentLength)
      ensures why == Cut ==> seen <= Since() && |seen| < contentLength
    {
      hide PipeReader.Valid, PipeReader.LiveBytes;
    }
  }

  /** The stage after more data bytes. */
  ghost function Next(st: Stage, more: bytes): Stage {
    if st.Inside? then st.(part := st.part + more) else st
  }

  lemma NextLeft(st: Stage, more: bytes)
    ensures st.Inside? ==> Next(st, more).Inside? && Left(Next(st, more)) == Left(st) - |more|
  {
  }

  /** Data bytes taken and delivered, and whatever arrived meanwhile, keep what is known. */
  lemma KnownMore(w: Why, chunked: bool, contentLength: nat, bodyRead: nat, stage: Stage, delivered: bytes, seen: bytes,
                  before: bytes, consumed: bytes, live: bytes, consumed': bytes, live': bytes, more: bytes)
    requires before <= consumed && consumed' == consumed + more && consumed + live <= consumed' + live'
    requires Known(w, chunked, contentLength, bodyRead, stage, delivered, seen, consumed[|before|..], live)
    requires w.Going? && more != [] ==> if chunked then stage.Inside? && |more| <= Left(stage) else |more| <= contentLength - bodyRead
    ensures before <= consumed'
    ensures Known(w, chunked, contentLength, bodyRead + |more|, if more == [] then stage else Next(stage, more), delivered + more, seen, consumed'[|before|..], live')
  {
    hide StageOk, Taken, Handed, Left, Proves;
    After(before, consumed, more);
    SeenStays(before, consumed, live, consumed', live', seen);
    if w.Going? && chunked && more != [] {
      MoveData(stage, more);
    }
    if more == [] {
      assert consumed + more == consumed && delivered + more == delivered;
    }
  }

  lemma Appends(dst: bytes, was: bytes, at: nat, got: nat, k: nat)
    requires at + got + k <= |dst| && |was| == got && dst[at..at + got] == was
    ensures dst[at..at + got + k] == was + dst[at + got..at + got + k]
  {
  }

  lemma NoProof(w: Why, chunked: bool, contentLength: nat, s: bytes)
    requires w in {Room, Broken, Large}
    ensures Proves(w, chunked, contentLength, s)
  {
  }

  lemma FoundLine(s: bytes)
    ensures FirstCrlf(s).Some? ==> FirstCrlf(s).value + 2 <= |s|
  {
  }

  lemma NoTrailers(st: Stage)
    ensures st.Trailing? && st.trailers == [] ==> TrailersLines(st.trailers) == []
  {
  }

  lemma LineOff(live: bytes, len: nat)
    requires len + 2 <= |live| && live == live[..len] + CRLF + live[len + 2..]
    ensures live[..len + 2] == live[..len] + CRLF
  {
  }

  lemma NoCrlfYet()
    ensures FirstCrlf([]).None?
  {
  }

  lemma SeenStill(taken: bytes, live: bytes, live': bytes, seen: bytes)
    requires live <= live'
    ensures seen <= taken + live ==> seen <= taken + live'
  {
  }
}
