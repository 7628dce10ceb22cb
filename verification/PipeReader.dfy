/**
 * The reader of io/pipe.c: received bytes as one contiguous live span, in place in a provided
 * buffer or gathered in the reader's own, and the bytes the consumer keeps. The fields are the
 * source's; ReaderState says what they mean and what each step does.
 */
module PipeReading {
  import opened Bytes
  import opened SpscRing
  import opened ConnInput
  import opened ReaderState

  /** A span handed out: its address and length. */
  datatype Span = Span(place: Place, len: nat)

  class PipeReader {
    const conn: Conn
    const buf: array<byte>
    var floor: nat
    var liveInBuf: bool
    var bufPos: nat
    var bufEnd: nat
    var cur: RxItem
    var hasCur: bool
    var curPos: nat
    var pinned: RxItem
    var hasPinned: bool
    var curIsPinned: bool
    var runInCur: bool
    var runStart: nat
    var runLen: nat
    var examined: nat
    var eof: bool
    var error: int

    /** Everything that entered, the part consumed (dropped, kept or copied), and the run kept so far. */
    ghost var log: seq<Piece>
    ghost var consumed: bytes
    ghost var kept: bytes
    ghost var frozen: seq<Frozen>

    /** What the flags rule out. */
    ghost predicate Flags()
      reads this`floor, this`liveInBuf, this`bufPos, this`bufEnd, this`cur, this`hasCur, this`curPos, this`pinned,
            this`hasPinned, this`curIsPinned, this`runInCur, this`runStart, this`runLen
    {
      && !(liveInBuf && hasCur)
      && (runInCur ==> 0 < runLen)
      && (curIsPinned ==> hasCur && hasPinned)
    }

    /** The fields, read as a state. */
    ghost function State(): Reader
      reads this`floor, this`liveInBuf, this`bufPos, this`bufEnd, this`cur, this`hasCur, this`curPos, this`pinned,
            this`hasPinned, this`curIsPinned, this`runInCur, this`runStart, this`runLen, buf
    {
      Reader(buf[..], floor,
             if liveInBuf then InBuf(bufPos, bufEnd) else if hasCur then InCur(cur, curPos) else Nothing,
             if runLen == 0 then NoRun else if runInCur then RunCur(runStart, runLen) else RunBuf(runStart, runLen),
             if hasPinned then Pinned(pinned, curIsPinned) else Free)
    }

    /** The state tells the story, whatever else is going on. */
    ghost predicate Core()
      reads this`floor, this`liveInBuf, this`bufPos, this`bufEnd, this`cur, this`hasCur, this`curPos, this`pinned,
            this`hasPinned, this`curIsPinned, this`runInCur, this`runStart, this`runLen,
            this`log, this`consumed, this`kept, this`frozen, buf, conn
    {
      && conn.Valid() && Flags()
      && Tells(State(), conn.mem, log, consumed, kept, frozen)
      && Held(State()) <= conn.mine
    }

    ghost predicate Valid()
      reads this, buf, conn
    {
      && Core()
      && conn.mine == Held(State())
      && error in {0, PIPE_GONE, PIPE_FULL}
      && (error == 0 ==> FromConn(log) == conn.popped)
    }

    /** The live bytes: received and not yet consumed. */
    ghost function LiveBytes(): bytes
      reads this`floor, this`liveInBuf, this`bufPos, this`bufEnd, this`cur, this`hasCur, this`curPos, this`pinned,
            this`hasPinned, this`curIsPinned, this`runInCur, this`runStart, this`runLen, buf, conn`mem
    {
      if Shape(State(), conn.mem) then Live(State(), conn.mem) else []
    }

    /** What buf must hold once the run and the live bytes are in it: the bytes below floor, then those. */
    ghost function Need(): nat
      reads this`floor, this`liveInBuf, this`bufPos, this`bufEnd, this`cur, this`hasCur, this`curPos, this`pinned,
            this`hasPinned, this`curIsPinned, this`runInCur, this`runStart, this`runLen, buf, conn`mem
    {
      floor + (if runInCur then runLen else 0) + |LiveBytes()|
    }

    /** The next buffer received, some are at most this long, does not fit. */
    ghost predicate NoRoom()
      reads this`floor, this`liveInBuf, this`bufPos, this`bufEnd, this`cur, this`hasCur, this`curPos, this`pinned,
            this`hasPinned, this`curIsPinned, this`runInCur, this`runStart, this`runLen, buf, conn`mem
    {
      Need() + conn.size > buf.Length
    }

    lemma NeedIs()
      requires Core()
      ensures Need() == Room(State(), conn.mem)
      ensures liveInBuf ==> Need() == floor + (bufEnd - bufPos) && floor <= bufPos <= bufEnd
    {
      hide Conn.Valid, Entered, AllThere;
    }

    /** A span handed out is the live bytes. */
    ghost predicate Reads(live: Span)
      reads this`floor, this`liveInBuf, this`bufPos, this`bufEnd, this`cur, this`hasCur, this`curPos, this`pinned,
            this`hasPinned, this`curIsPinned, this`runInCur, this`runStart, this`runLen, buf, conn`mem
    {
      && InBounds(buf[..], conn.mem, live.place, live.len)
      && Mem(buf[..], conn.mem, live.place, live.len) == LiveBytes()
    }

    constructor (conn: Conn, buf: array<byte>)
      requires conn.Valid() && conn.mine == {} && conn.popped == []
      ensures Valid() && this.conn == conn && this.buf == buf
      ensures consumed == kept == [] && log == [] && frozen == [] && error == 0
    {
      this.conn, this.buf := conn, buf;
      floor, liveInBuf, bufPos, bufEnd := 0, false, 0, 0;
      cur, hasCur, curPos := RxItem(0, 0), false, 0;
      pinned, hasPinned, curIsPinned := RxItem(0, 0), false, false;
      runInCur, runStart, runLen, examined := false, 0, 0, 0;
      eof, error := false, 0;
      log, consumed, kept, frozen := [], [], [], [];
    }

    // The operations the calls are made of.

    /** live_span. */
    method LiveSpan() returns (live: Span)
      requires Core()
      ensures Reads(live) && live.len == |LiveBytes()| && live.place == LivePlace(State())
    {
      hide Conn.Valid, Entered, AllThere;
      if liveInBuf {
        live := Span(BufAt(bufPos), bufEnd - bufPos);
      } else if hasCur {
        live := Span(SlabAt(cur.bufId, curPos), cur.len - curPos);
      } else {
        live := Span(BufAt(0), 0);
      }
    }

    /** cur_done: let the current buffer go once nothing is left in it. */
    method CurDone()
      requires conn.Valid() && (hasCur ==> cur.bufId in conn.mine)
      modifies this`hasCur, this`curIsPinned, this`curPos, conn`offered, conn`mine
      ensures conn.Valid()
      ensures if old(hasCur && curPos >= cur.len && !(runInCur && 0 < runLen))
              then !hasCur && !curIsPinned && curPos == 0 && conn.mine == if old(curIsPinned) then old(conn.mine) else old(conn.mine) - {cur.bufId}
              else hasCur == old(hasCur) && curIsPinned == old(curIsPinned) && curPos == old(curPos) && conn.mine == old(conn.mine)
    {
      hide Conn.Valid;
      if !hasCur || curPos < cur.len || (runInCur && 0 < runLen) {
        return;
      }
      if !curIsPinned {
        conn.Return(cur.bufId);
      }
      hasCur, curIsPinned, curPos := false, false, 0;
    }

    /** compact: reclaim the bytes dropped from the front of buf's live region. */
    method Compact()
      requires Core() && liveInBuf
      modifies this`bufPos, this`bufEnd, buf
      ensures Core() && LiveBytes() == old(LiveBytes()) && Held(State()) == old(Held(State()))
      ensures liveInBuf && bufPos == floor && Need() == old(Need()) == bufEnd
    {
      hide Conn.Valid, Entered, FromConn, AllThere, Held, Tells, Moved;
      ghost var s := State();
      TellsShape(s, conn.mem, log, consumed, kept, frozen);
      CompactTells(s, conn.mem, log, consumed, kept, frozen);
      SlideDown(floor, bufPos, bufEnd - bufPos);
      bufEnd := bufEnd - (bufPos - floor);
      bufPos := floor;
      assert State() == Compacted(s);
      TellsShape(State(), conn.mem, log, consumed, kept, frozen);
    }

    /** memmove within buf, down to the floor. */
    method SlideDown(dst: nat, src: nat, n: nat)
      requires dst + n <= buf.Length && src + n <= buf.Length
      modifies buf
      ensures buf[..] == Moved(old(buf[..]), dst, src, n)
    {
      if src != dst {
        MemMove(buf, dst, src, n);
      }
    }

    /** Copy part of a provided buffer to buf. */
    method CopyOut(at: nat, id: nat, lo: nat, n: nat)
      requires 0 < n ==> id < |conn.mem| && lo + n <= |conn.mem[id]|
      requires at + n <= buf.Length
      modifies buf
      ensures buf[..] == Blit(old(buf[..]), at, Part(conn.mem, id, lo, n))
    {
      forall i | at <= i < at + n {
        buf[i] := conn.mem[id][lo + (i - at)];
      }
    }

    /** The two copies gather makes: the run, then the live bytes. */
    method CopyBoth(run: nat, live: nat)
      requires floor + run + live <= buf.Length
      requires 0 < run ==> cur.bufId < |conn.mem| && runStart + run <= |conn.mem[cur.bufId]|
      requires 0 < live ==> cur.bufId < |conn.mem| && curPos + live <= |conn.mem[cur.bufId]|
      modifies buf
      ensures buf[..] == Blit(old(buf[..]), floor, Part(conn.mem, cur.bufId, runStart, run) + Part(conn.mem, cur.bufId, curPos, live))
    {
      hide Blit;
      ghost var was := buf[..];
      BlitTwice(was, floor, Part(conn.mem, cur.bufId, runStart, run), Part(conn.mem, cur.bufId, curPos, live));
      CopyOut(floor, cur.bufId, runStart, run);
      CopyOut(floor + run, cur.bufId, curPos, live);
    }

    /**
     * gather: move the current buffer's run and live bytes into buf, so what follows can join
     * them.
     */
    method Gather() returns (ok: bool)
      requires Core() && !liveInBuf
      modifies this`floor, this`liveInBuf, this`bufPos, this`bufEnd, this`hasCur, this`curPos, this`pinned, this`hasPinned,
               this`curIsPinned, this`runInCur, this`runStart, this`frozen, buf, conn`offered, conn`mine
      ensures Core() && LiveBytes() == old(LiveBytes())
      ensures ok <==> GatherFits(old(State()), conn.mem)
      ensures liveInBuf == ok && Need() == old(Need()) && ok == (Need() <= buf.Length)
      ensures var back := if ok then GatherReturns(old(State())) else {};
        conn.mine == old(conn.mine) - back && Held(State()) == old(Held(State())) - back
      ensures frozen == if ok then old(frozen) + GatherPins(old(State()), conn.mem) else old(frozen)
    {
      hide Conn.Valid, Entered, FromConn, AllThere, GatherPins, Tells, Gathered, GatherFits, GatherReturns, Held, Shape, Live, RunInCur, Need, Room;
      ghost var s := State();
      TellsShape(s, conn.mem, log, consumed, kept, frozen);
      GatherRoom(s, conn.mem);
      NeedIs();
      var live := if hasCur then cur.len - curPos else 0;
      var run := if runInCur then runLen else 0;
      if floor + run + live > buf.Length {
        return false;
      }
      GatherTells(s, conn.mem, log, consumed, kept, frozen);
      GatherKeepsRoom(s, conn.mem);
      HeldCur(s);
      GatherMove(run, live);
      frozen := frozen + GatherPins(s, conn.mem);
      TellsShape(State(), conn.mem, log, consumed, kept, frozen);
      NeedIs();
      return true;
    }

    method GatherMove(run: nat, live: nat)
      requires conn.Valid() && Flags() && Shape(State(), conn.mem) && !liveInBuf && GatherFits(State(), conn.mem)
      requires hasCur ==> cur.bufId in conn.mine
      requires run == |RunInCur(State(), conn.mem)| && live == |LiveBytes()|
      modifies this`floor, this`liveInBuf, this`bufPos, this`bufEnd, this`hasCur, this`curPos, this`pinned, this`hasPinned,
               this`curIsPinned, this`runInCur, this`runStart, buf, conn`offered, conn`mine
      ensures conn.Valid() && Flags()
      ensures State() == Gathered(old(State()), conn.mem) && liveInBuf
      ensures conn.mine == old(conn.mine) - GatherReturns(old(State()))
    {
      hide Conn.Valid, Blit, Gathered, GatherFits, GatherReturns, CurReturns;
      ghost var s := State();
      CurParts(s, conn.mem);
      GatherRoom(s, conn.mem);
      CopyBoth(run, live);
      ghost var s1 := State();
      RunToBuf(run);
      ghost var s2 := State();
      LiveToBuf(live);
      GatherSteps(s, s1, s2, State(), conn.mem);
    }

    /** What gather does to the fields once the bytes are copied: the run is in buf now. */
    method RunToBuf(run: nat)
      requires Flags() && run == (if runInCur then runLen else 0) && (runInCur ==> hasCur)
      modifies this`floor, this`pinned, this`hasPinned, this`curIsPinned, this`runInCur, this`runStart
      ensures Flags()
      ensures State() == old(State()).(floor := old(floor) + run,
                                  run := if old(runInCur) then RunBuf(old(floor), runLen) else old(State()).run,
                                  pin := if old(runInCur && !hasPinned) then Pinned(cur, true) else old(State()).pin)
    {
      if run > 0 {
        runStart := floor;
        floor := floor + run;
        if !hasPinned {
          pinned, hasPinned, curIsPinned := cur, true, true;
        }
      }
      runInCur := false;
    }

    /** ... and so are the live bytes; the current buffer is let go. */
    method LiveToBuf(live: nat)
      requires conn.Valid() && Flags() && !liveInBuf && !runInCur && (hasCur ==> cur.bufId in conn.mine)
      modifies this`liveInBuf, this`bufPos, this`bufEnd, this`hasCur, this`curPos, this`curIsPinned, conn`offered, conn`mine
      ensures conn.Valid() && Flags()
      ensures liveInBuf
      ensures State() == old(State()).(live := InBuf(floor, floor + live), pin := Unpinned(old(State()).pin))
      ensures conn.mine == old(conn.mine) - CurReturns(old(State()))
    {
      hide Conn.Valid;
      bufPos := floor;
      bufEnd := floor + live;
      liveInBuf := true;
      if hasCur {
        curPos := cur.len;
        CurDone();
      }
    }
    /** Bytes from elsewhere join the live ones in buf. */
    method Append(data: bytes, ghost p: Piece)
      requires Core() && liveInBuf && bufEnd + |data| <= buf.Length && p.data == data
      modifies this`bufEnd, this`log, buf
      ensures Core() && LiveBytes() == old(LiveBytes()) + data
      ensures log == old(log) + [p] && Held(State()) == old(Held(State())) && liveInBuf
    {
      hide Conn.Valid, Entered, FromConn, AllThere, Held, Tells, Blit;
      ghost var s := State();
      TellsShape(s, conn.mem, log, consumed, kept, frozen);
      AppendTells(s, conn.mem, log, consumed, kept, frozen, p);
      CopyIn(bufEnd, data);
      bufEnd := bufEnd + |data|;
      log := log + [p];
      assert State() == Appended(s, data);
      TellsShape(State(), conn.mem, log, consumed, kept, frozen);
    }

    method CopyIn(at: nat, data: bytes)
      requires at + |data| <= buf.Length
      modifies buf
      ensures buf[..] == Blit(old(buf[..]), at, data)
    {
      MemWrite(buf, at, data);
    }

    /** refuse: a buffer that cannot be used goes back to the ring, and the reader is done. */
    method Refuse(item: RxItem) returns (rc: int)
      requires Core() && item.bufId in conn.mine && item.bufId !in Held(State())
      modifies this`error, conn`offered, conn`mine
      ensures Core() && rc == error == PIPE_FULL && LiveBytes() == old(LiveBytes())
      ensures conn.mine == old(conn.mine) - {item.bufId} && Need() == old(Need())
    {
      hide Conn.Valid, Tells, Held;
      conn.Return(item.bufId);
      error := PIPE_FULL;
      return PIPE_FULL;
    }

    /** Room for n more bytes at the end of the live ones, all of them in buf from here on. */
    method MakeRoom(n: nat) returns (ok: bool)
      requires Core() && (liveInBuf || hasCur)
      modifies this`floor, this`liveInBuf, this`bufPos, this`bufEnd, this`hasCur, this`curPos, this`pinned, this`hasPinned,
               this`curIsPinned, this`runInCur, this`runStart, this`frozen, buf, conn`offered, conn`mine
      ensures Core() && LiveBytes() == old(LiveBytes())
      ensures ok ==> liveInBuf && bufEnd + n <= buf.Length
      ensures Need() == old(Need()) && ok == (Need() + n <= buf.Length)
      ensures conn.mine - Held(State()) == old(conn.mine - Held(State()))
      ensures old(frozen) <= frozen
    {
      hide Conn.Valid, Entered, FromConn, AllThere, Tells, GatherPins, GatherFits, Held, Need, Core;
      if !liveInBuf {
        GatherReturnsHeld(State());
        var gathered := Gather();
        if !gathered {
          return false;
        }
      }
      assert conn.mine - Held(State()) == old(conn.mine - Held(State()));
      NeedIs();
      if bufEnd + n > buf.Length {
        Compact();
        if bufEnd + n > buf.Length {
          return false;
        }
      }
      return true;
    }

    /** Nothing is live: the buffer just received is the live span. */
    method Attach(item: RxItem)
      requires Core() && error == 0 && item.bufId !in Held(State()) && conn.mine == Held(State()) + {item.bufId}
      requires item.bufId < |conn.mem| && 0 < item.len <= |conn.mem[item.bufId]|
      requires conn.popped == FromConn(log) + conn.mem[item.bufId][..item.len]
      requires !liveInBuf && !hasCur
      modifies this`hasCur, this`cur, this`curPos, this`curIsPinned, this`log
      ensures Valid() && log == old(log) + [Received(conn.mem[item.bufId][..item.len])]
      ensures LiveBytes() == old(LiveBytes()) + conn.mem[item.bufId][..item.len]
    {
      hide Conn.Valid, Entered, FromConn, AllThere, Tells, Held;
      ghost var data := conn.mem[item.bufId][..item.len];
      LogSnoc(log, Received(data));
      TellsShape(State(), conn.mem, log, consumed, kept, frozen);
      AttachTells(State(), conn.mem, log, consumed, kept, frozen, item);
      cur, hasCur, curPos, curIsPinned := item, true, 0, false;
      log := log + [Received(data)];
      assert State() == Attached(old(State()), item);
      TellsShape(State(), conn.mem, log, consumed, kept, frozen);
    }

    /** Something is: the bytes join it in buf, or the buffer is refused. */
    method Join(item: RxItem) returns (rc: int)
      requires Core() && error == 0 && item.bufId !in Held(State()) && conn.mine == Held(State()) + {item.bufId}
      requires item.bufId < |conn.mem| && 0 < item.len <= |conn.mem[item.bufId]|
      requires conn.popped == FromConn(log) + conn.mem[item.bufId][..item.len]
      requires liveInBuf || hasCur
      modifies this`floor, this`liveInBuf, this`bufPos, this`bufEnd, this`hasCur, this`curPos, this`pinned, this`hasPinned,
               this`curIsPinned, this`runInCur, this`runStart, this`frozen, this`log, this`error, buf, conn`offered, conn`mine
      ensures Valid()
      ensures rc == 1 ==> error == 0 && log == old(log) + [Received(conn.mem[item.bufId][..item.len])]
      ensures rc == 1 ==> LiveBytes() == old(LiveBytes()) + conn.mem[item.bufId][..item.len]
      ensures rc != 1 ==> rc == error == PIPE_FULL && log == old(log) && LiveBytes() == old(LiveBytes())
      ensures rc == 1 <==> old(Need()) + item.len <= buf.Length
      ensures rc != 1 ==> Need() == old(Need())
      ensures old(frozen) <= frozen
    {
      hide Conn.Valid, Entered, FromConn, Tells, Held, LiveBytes, State, Flags;
      ghost var data := conn.mem[item.bufId][..item.len];
      LogSnoc(log, Received(data));
      assert conn.mine - Held(State()) == {item.bufId};
      var ok := MakeRoom(item.len);
      HeldIs();
      OneMore(conn.mine, Held(State()), item.bufId);
      if !ok {
        rc := Refuse(item);
        return;
      }
      Append(conn.mem[item.bufId][..item.len], Received(data));
      conn.Return(item.bufId);
      return 1;
    }

    /** The await: the buffers the reader holds are as they were when it returns. */
    method Next() returns (got: int, item: RxItem)
      requires Valid()
      modifies conn
      ensures Core() && LiveBytes() == old(LiveBytes()) && Need() == old(Need())
      ensures got == 1 ==>
        && item.bufId !in Held(State()) && conn.mine == Held(State()) + {item.bufId}
        && item.bufId < |conn.mem| && 0 < item.len <= |conn.mem[item.bufId]| == conn.size
        && (error == 0 ==> conn.popped == FromConn(log) + conn.mem[item.bufId][..item.len])
        && conn.Pending() < old(conn.Pending())
      ensures got != 1 ==> got <= 0 && Valid()
      ensures old(conn.rx) != [] ==> got == 1 && conn.script == old(conn.script)
    {
      hide Conn.Valid, Entered, FromConn, AllThere, Tells, Held;
      ghost var s := State();
      ghost var mem := conn.mem;
      got, item := conn.RecvItem();
      MemSize();
      OthersMayChange(s, mem, conn.mem, log, consumed, kept, frozen);
      TellsShape(s, mem, log, consumed, kept, frozen);
      TellsShape(s, conn.mem, log, consumed, kept, frozen);
      assert State() == s;
    }

    /** more: the next provided buffer, in place when nothing is live, else appended in buf. */
    method More() returns (rc: int)
      requires Valid() && error == 0
      modifies this`floor, this`liveInBuf, this`bufPos, this`bufEnd, this`hasCur, this`cur, this`curPos, this`pinned, this`hasPinned,
               this`curIsPinned, this`runInCur, this`runStart, this`frozen, this`log, this`eof, this`error, buf, conn
      ensures Valid()
      ensures rc == 1 ==> error == 0 && exists p: Piece :: p.Received? && p.data != [] && log == old(log) + [p] && LiveBytes() == old(LiveBytes()) + p.data
      ensures rc == 1 ==> conn.Pending() < old(conn.Pending()) && !old(eof)
      ensures rc != 1 ==> rc in {0, PIPE_GONE, PIPE_FULL} && error == rc && log == old(log) && LiveBytes() == old(LiveBytes())
      ensures rc in {0, PIPE_GONE} ==> eof
      ensures rc == PIPE_FULL ==> NoRoom()
      ensures old(frozen) <= frozen
      ensures old(eof) ==> rc == 0
      ensures old(conn.rx) != [] || old(eof) ==> conn.script == old(conn.script)
      ensures old(conn.rx) != [] && !old(eof) ==> rc in {1, PIPE_FULL}
    {
      hide Conn.Valid, Entered, FromConn, Tells, Held, LiveBytes, State;
      if eof {
        return 0;
      }
      var got, item := Next();
      if got <= 0 {
        eof := true;
        if got < 0 {
          error := PIPE_GONE;
          return PIPE_GONE;
        }
        return 0;
      }
      ghost var p := Received(conn.mem[item.bufId][..item.len]);
      if !liveInBuf && !hasCur {
        Attach(item);
        rc := 1;
      } else {
        rc := Join(item);
      }
      assert rc == 1 ==> p.data != [] && log == old(log) + [p] && LiveBytes() == old(LiveBytes()) + p.data;
    }
    /** consume, on the fields: n live bytes are gone. */
    method Advance(n: nat)
      requires conn.Valid() && Flags() && (hasCur ==> cur.bufId in conn.mine)
      modifies this`liveInBuf, this`bufPos, this`bufEnd, this`hasCur, this`curPos, this`curIsPinned, this`examined, conn`offered, conn`mine
      ensures conn.Valid() && Flags()
      ensures State() == Consumed(old(State()), n)
      ensures conn.mine == old(conn.mine) - ConsumeReturns(old(State()), n)
      ensures examined == if old(examined) > n then old(examined) - n else 0
    {
      hide Conn.Valid;
      if liveInBuf {
        bufPos := bufPos + n;
        if bufPos >= bufEnd {
          bufPos, bufEnd := floor, floor;
          liveInBuf := false;
        }
      } else if hasCur {
        curPos := curPos + n;
        CurDone();
      }
      examined := if examined > n then examined - n else 0;
    }

    // The calls.

    method LiveLength() returns (n: nat)
      requires Core()
      ensures n == |LiveBytes()|
    {
      hide Conn.Valid, Entered, AllThere;
      n := if liveInBuf then bufEnd - bufPos else if hasCur then cur.len - curPos else 0;
    }

    lemma CoreIs()
      requires Core()
      ensures conn.Valid() && Flags() && Tells(State(), conn.mem, log, consumed, kept, frozen)
      ensures Shape(State(), conn.mem) && LiveBytes() == Live(State(), conn.mem)
      ensures hasCur ==> cur.bufId in conn.mine
    {
    }

    lemma IsCore()
      requires conn.Valid() && Flags() && Tells(State(), conn.mem, log, consumed, kept, frozen) && Held(State()) <= conn.mine
      ensures Core() && LiveBytes() == Live(State(), conn.mem)
    {
    }

    /** consume: forget n live bytes; never more than there are. */
    method Consume(n: nat)
      requires Valid()
      modifies this`liveInBuf, this`bufPos, this`bufEnd, this`hasCur, this`curPos, this`curIsPinned, this`examined, this`consumed, conn`offered, conn`mine
      ensures Valid()
      ensures var k := if n < |old(LiveBytes())| then n else |old(LiveBytes())|;
        && consumed == old(consumed) + old(LiveBytes())[..k] && LiveBytes() == old(LiveBytes())[k..]
        && examined == if old(examined) > k then old(examined) - k else 0
    {
      hide Conn.Valid, Entered, FromConn, Tells, Held, Consumed, ConsumeReturns, State, Flags, LiveBytes, Live, Shape, Core;
      var have := LiveLength();
      var k := if n > have then have else n;
      ghost var s := State();
      CoreIs();
      ConsumeTells(s, conn.mem, log, consumed, kept, frozen, k);
      ghost var live := LiveBytes();
      Advance(k);
      consumed := consumed + live[..k];
      IsCore();
    }
    // keep, on the fields: the three places the n bytes may be.

    method KeepInBuf(n: nat) returns (at: Place)
      requires conn.Valid() && Flags() && Shape(State(), conn.mem) && liveInBuf && 0 < n <= |Live(State(), conn.mem)|
      modifies this`floor, this`liveInBuf, this`bufPos, this`bufEnd, this`runInCur, this`runStart, this`runLen,
               this`examined, this`hasCur, this`curPos, this`curIsPinned, buf, conn`offered, conn`mine
      ensures conn.Valid() && Flags() && at == KeptPlace(old(State()))
      ensures State() == Kept(old(State()), conn.mem, n) && conn.mine == old(conn.mine) - KeepReturns(old(State()), n)
      ensures examined == if old(examined) > n then old(examined) - n else 0
    {
      hide Conn.Valid, Moved, Consumed;
      if runLen == 0 {
        runInCur := false;
        runStart := bufPos;
        floor := bufPos;
      } else {
        SlideDown(floor, bufPos, n);
      }
      at := BufAt(floor);
      floor := floor + n;
      runLen := runLen + n;
      Advance(n);
    }

    /** The n live bytes slide down to the end of the run, over what was dropped in between. */
    method SlideInCur(runEnd: nat, n: nat)
      requires conn.Valid() && cur.bufId in conn.mine && cur.bufId < |conn.mem| && |conn.mem[cur.bufId]| == conn.size
      requires runEnd <= curPos && curPos + n <= conn.size
      modifies conn`mem
      ensures conn.Valid()
      ensures conn.mem == old(conn.mem)[cur.bufId := Moved(old(conn.mem[cur.bufId]), runEnd, curPos, n)]
    {
      hide Conn.Valid, Moved;
      if runEnd != curPos {
        conn.MoveWithin(cur.bufId, runEnd, curPos, n);
      } else {
        MovedNowhere(conn.mem[cur.bufId], curPos, n);
      }
    }

    method KeepInCur(n: nat) returns (at: Place)
      requires conn.Valid() && Flags() && Shape(State(), conn.mem) && hasCur && 0 < n <= |Live(State(), conn.mem)|
      requires cur.bufId in conn.mine && |conn.mem[cur.bufId]| == conn.size && (runLen == 0 || runInCur)
      modifies this`liveInBuf, this`bufPos, this`bufEnd, this`runInCur, this`runStart, this`runLen,
               this`examined, this`hasCur, this`curPos, this`curIsPinned, conn`mem, conn`offered, conn`mine
      ensures conn.Valid() && Flags() && at == KeptPlace(old(State()))
      ensures State() == Kept(old(State()), old(conn.mem), n) && conn.mem == KeptMem(old(State()), old(conn.mem), n)
      ensures conn.mine == old(conn.mine)
      ensures examined == if old(examined) > n then old(examined) - n else 0
    {
      hide Conn.Valid, Moved;
      MovedNowhere(conn.mem[cur.bufId], curPos, n);
      if runLen == 0 {
        runInCur := true;
        runStart := curPos;
      }
      var runEnd := runStart + runLen;
      SlideInCur(runEnd, n);
      at := SlabAt(cur.bufId, runEnd);
      runLen := runLen + n;
      Advance(n);
    }

    method KeepAcross(n: nat) returns (at: Place)
      requires conn.Valid() && Flags() && Shape(State(), conn.mem) && hasCur && 0 < n <= |Live(State(), conn.mem)|
      requires cur.bufId in conn.mine && 0 < runLen && !runInCur && KeepFits(State(), n)
      modifies this`floor, this`liveInBuf, this`bufPos, this`bufEnd, this`runLen,
               this`examined, this`hasCur, this`curPos, this`curIsPinned, buf, conn`offered, conn`mine
      ensures conn.Valid() && Flags() && at == KeptPlace(old(State()))
      ensures State() == Kept(old(State()), conn.mem, n) && conn.mine == old(conn.mine) - KeepReturns(old(State()), n)
      ensures examined == if old(examined) > n then old(examined) - n else 0
    {
      hide Conn.Valid, Blit, Consumed;
      CopyOut(floor, cur.bufId, curPos, n);
      at := BufAt(floor);
      floor := floor + n;
      bufPos, bufEnd := floor, floor;
      runLen := runLen + n;
      Advance(n);
    }
    /**
     * keep: consume n live bytes but keep them, contiguous with the run. Where they are, or None:
     * more than is live, or no room.
     */
    method Keep(n: nat) returns (at: Option<Place>)
      requires Valid()
      modifies this`floor, this`liveInBuf, this`bufPos, this`bufEnd, this`runInCur, this`runStart, this`runLen, this`error,
               this`examined, this`hasCur, this`curPos, this`curIsPinned, this`consumed, this`kept, buf, conn`mem, conn`offered, conn`mine
      ensures Valid()
      ensures n > |old(LiveBytes())| || n == 0 || !KeepFits(old(State()), n) ==>
        State() == old(State()) && LiveBytes() == old(LiveBytes()) && consumed == old(consumed) && kept == old(kept)
      ensures n > |old(LiveBytes())| ==> at == None && error == old(error)
      ensures 0 == n <= |old(LiveBytes())| ==> at == Some(LivePlace(old(State()))) && error == old(error)
      ensures 0 < n <= |old(LiveBytes())| && !KeepFits(old(State()), n) ==> at == None && error == PIPE_FULL
      ensures 0 < n <= |old(LiveBytes())| && KeepFits(old(State()), n) ==>
        && consumed == old(consumed) + old(LiveBytes())[..n]
        && kept == old(kept) + old(LiveBytes())[..n]
        && LiveBytes() == old(LiveBytes())[n..]
        && error == old(error) && conn.Pending() == old(conn.Pending())
        && examined == (if old(examined) > n then old(examined) - n else 0)
        && at.Some? && InBounds(buf[..], conn.mem, at.value, n) && Mem(buf[..], conn.mem, at.value, n) == old(LiveBytes())[..n]
    {
      hide Conn.Valid, Entered, FromConn, Tells, Held, Kept, KeptMem, KeepReturns, Live, LiveBytes, Shape, Core, Mem, InBounds;
      var have := LiveLength();
      if n > have {
        return None;
      }
      if n == 0 {
        var span := LiveSpan();
        return Some(span.place);
      }
      if !liveInBuf && hasCur && 0 < runLen && !runInCur && floor + n > buf.Length {
        error := PIPE_FULL;
        return None;
      }
      var place := KeepHere(n);
      at := Some(place);
    }

    /** keep, when there is room. */
    method KeepHere(n: nat) returns (at: Place)
      requires Valid() && 0 < n <= |LiveBytes()| && KeepFits(State(), n)
      modifies this`floor, this`liveInBuf, this`bufPos, this`bufEnd, this`runInCur, this`runStart, this`runLen,
               this`examined, this`hasCur, this`curPos, this`curIsPinned, this`consumed, this`kept, buf, conn`mem, conn`offered, conn`mine
      ensures Valid()
      ensures consumed == old(consumed) + old(LiveBytes())[..n] && kept == old(kept) + old(LiveBytes())[..n]
      ensures LiveBytes() == old(LiveBytes())[n..] && conn.Pending() == old(conn.Pending())
      ensures examined == if old(examined) > n then old(examined) - n else 0
      ensures InBounds(buf[..], conn.mem, at, n) && Mem(buf[..], conn.mem, at, n) == old(LiveBytes())[..n]
    {
      hide Conn.Valid, Entered, FromConn, Tells, Held, Kept, KeptMem, KeepReturns, KeptPlace, State, Live, LiveBytes, Shape, Core, Mem, InBounds;
      ghost var s := State();
      ghost var mem := conn.mem;
      CoreIs();
      ghost var live := LiveBytes();
      KeepTells(s, conn.mem, log, consumed, kept, frozen, n);
      at := KeepFields(n);
      consumed := consumed + live[..n];
      kept := kept + live[..n];
      IsCore();
      BufIs();
    }

    /**
     * A plain queue of bytes: what entered is what was consumed, then what is live; and what
     * entered from the connection, then what is still queued, is all it delivered.
     */
    lemma Fifo()
      requires Valid()
      ensures Entered(log) == consumed + LiveBytes()
      ensures error == 0 ==> FromConn(log) + Flatten(conn.contents) == conn.delivered
    {
      hide Entered, FromConn, Flatten, AllThere;
    }

    /** Frozen bytes read the same at the address they were handed out at. */
    lemma FrozenReads(f: Frozen)
      requires Valid() && f in frozen
      ensures InBounds(buf[..], conn.mem, f.place, |f.data|) && Mem(buf[..], conn.mem, f.place, |f.data|) == f.data
    {
      hide Entered, FromConn, Conn.Valid;
      assert StillThere(f, State(), conn.mem);
    }

    lemma BufIs()
      ensures State().buf == buf[..]
    {
    }

    method KeepFields(n: nat) returns (at: Place)
      requires conn.Valid() && Flags() && Shape(State(), conn.mem) && 0 < n <= |Live(State(), conn.mem)| && KeepFits(State(), n)
      requires hasCur ==> cur.bufId in conn.mine
      modifies this`floor, this`liveInBuf, this`bufPos, this`bufEnd, this`runInCur, this`runStart, this`runLen,
               this`examined, this`hasCur, this`curPos, this`curIsPinned, buf, conn`mem, conn`offered, conn`mine
      ensures conn.Valid() && Flags() && at == KeptPlace(old(State()))
      ensures State() == Kept(old(State()), old(conn.mem), n) && conn.mem == KeptMem(old(State()), old(conn.mem), n)
      ensures examined == if old(examined) > n then old(examined) - n else 0
      ensures conn.mine == old(conn.mine) - KeepReturns(old(State()), n)
    {
      hide Conn.Valid, Kept, Live;
      ghost var s := State();
      LiveLen(s, conn.mem);
      if liveInBuf {
        at := KeepInBuf(n);
      } else if runLen == 0 || runInCur {
        MemSize();
        at := KeepInCur(n);
      } else {
        at := KeepAcross(n);
      }
    }

    lemma MemSize()
      requires conn.Valid()
      ensures forall i :: 0 <= i < |conn.mem| ==> |conn.mem[i]| == conn.size
    {
    }
    method RunBeginFields()
      requires conn.Valid() && Flags() && Shape(State(), conn.mem) && (hasCur ==> cur.bufId in conn.mine)
      modifies this`floor, this`pinned, this`hasPinned, this`curIsPinned, this`runInCur, this`runLen, this`hasCur, this`curPos,
               this`error, buf, conn`offered, conn`mine
      ensures conn.Valid() && Flags()
      ensures State() == RunBegun(old(State()), conn.mem)
      ensures conn.mine == old(conn.mine) - RunBeginReturns(old(State()))
      ensures error == if RunBeginFits(old(State())) then old(error) else PIPE_FULL
    {
      hide Conn.Valid, Blit;
      if runInCur && 0 < runLen {
        if hasPinned && !curIsPinned {
          if floor + runLen > buf.Length {
            error := PIPE_FULL;
          } else {
            CopyOut(floor, cur.bufId, runStart, runLen);
            floor := floor + runLen;
          }
        } else {
          pinned, hasPinned, curIsPinned := cur, true, true;
        }
      }
      runLen, runInCur := 0, false;
      CurDone();
    }

    /** run_begin: freeze the run; the next keep starts another. */
    method RunBegin()
      requires Valid()
      modifies this`floor, this`pinned, this`hasPinned, this`curIsPinned, this`runInCur, this`runLen, this`hasCur, this`curPos,
               this`error, this`kept, this`frozen, buf, conn`offered, conn`mine
      ensures Valid() && LiveBytes() == old(LiveBytes()) && kept == []
      ensures error == if RunBeginFits(old(State())) then old(error) else PIPE_FULL
      ensures frozen == old(frozen) +
        if old(kept) == [] || !RunBeginFits(old(State())) then []
        else [Frozen(if RunMoves(old(State())) then BufAt(old(floor)) else RunPlace(old(State())), old(kept))]
    {
      hide Conn.Valid, Entered, FromConn, Tells, Held, RunBegun, RunBeginReturns, State, Flags, LiveBytes, Live, Shape, Core, Froze;
      ghost var s := State();
      CoreIs();
      RunBeginTells(s, conn.mem, log, consumed, kept, frozen);
      FrozeIs(s, conn.mem, log, consumed, kept, frozen);
      FloorIs();
      RunBeginFields();
      frozen := frozen + Froze(s, conn.mem);
      kept := [];
      IsCore();
    }

    lemma FloorIs()
      ensures State().floor == floor
    {
    }

    /** run: the run in progress. */
    method Run() returns (run: Span)
      requires Valid()
      ensures run.len == |kept| && run.place == RunPlace(State())
      ensures InBounds(buf[..], conn.mem, run.place, run.len) && Mem(buf[..], conn.mem, run.place, run.len) == kept
    {
      hide Conn.Valid, Entered, AllThere;
      if runInCur {
        run := Span(SlabAt(cur.bufId, runStart), runLen);
      } else {
        run := Span(BufAt(if 0 < runLen then runStart else 0), runLen);
      }
    }

    /** release, up to the check whether the current buffer is spent. */
    method ForgetKept()
      requires conn.Valid() && Flags() && Shape(State(), conn.mem) && (hasPinned ==> pinned.bufId in conn.mine)
      modifies this`floor, this`bufPos, this`bufEnd, this`hasPinned, this`curIsPinned, this`runInCur, this`runLen,
               buf, conn`offered, conn`mine
      ensures conn.Valid() && Flags() && !curIsPinned
      ensures State() == Reader(if old(liveInBuf) then Moved(old(buf[..]), 0, old(bufPos), old(bufEnd - bufPos)) else old(buf[..]), 0,
                                if old(liveInBuf) then InBuf(0, old(bufEnd - bufPos)) else old(State()).live, NoRun, Free)
      ensures conn.mine == old(conn.mine) - if old(hasPinned && !curIsPinned) then {pinned.bufId} else {}
    {
      hide Conn.Valid, Moved;
      runLen, runInCur := 0, false;
      SlideToFront();
      floor := 0;
      Unpin();
    }

    method ReleaseFields()
      requires conn.Valid() && Flags() && Shape(State(), conn.mem) && Held(State()) <= conn.mine
      modifies this`floor, this`bufPos, this`bufEnd, this`hasPinned, this`curIsPinned, this`runInCur, this`runLen, this`hasCur, this`curPos,
               buf, conn`offered, conn`mine
      ensures conn.Valid() && Flags()
      ensures State() == Released(old(State()))
      ensures conn.mine == old(conn.mine) - ReleaseReturns(old(State()))
    {
      hide Conn.Valid, Moved, ReleaseReturns, Held;
      ghost var s, mine := State(), conn.mine;
      ReleaseSets(s, conn.mem, mine);
      ForgetKept();
      assert hasCur ==> cur.bufId in conn.mine;
      CurDone();
      assert State() == Released(s);
    }

    method SlideToFront()
      requires liveInBuf ==> bufPos <= bufEnd <= buf.Length
      modifies this`bufPos, this`bufEnd, buf
      ensures liveInBuf ==> buf[..] == Moved(old(buf[..]), 0, old(bufPos), old(bufEnd - bufPos)) && bufPos == 0 && bufEnd == old(bufEnd - bufPos)
      ensures !liveInBuf ==> buf[..] == old(buf[..])
    {
      hide Moved;
      if liveInBuf {
        SlideDown(0, bufPos, bufEnd - bufPos);
        bufEnd := bufEnd - bufPos;
        bufPos := 0;
      } else {
        bufPos, bufEnd := 0, 0;
      }
    }

    method Unpin()
      requires conn.Valid() && (hasPinned ==> pinned.bufId in conn.mine)
      modifies this`hasPinned, this`curIsPinned, conn`offered, conn`mine
      ensures conn.Valid() && !hasPinned && (old(hasPinned) ==> !curIsPinned) && (!old(hasPinned) ==> curIsPinned == old(curIsPinned))
      ensures conn.mine == old(conn.mine) - if old(hasPinned && !curIsPinned) then {pinned.bufId} else {}
    {
      hide Conn.Valid;
      if hasPinned {
        if curIsPinned {
          curIsPinned := false;
        } else {
          conn.Return(pinned.bufId);
        }
        hasPinned := false;
      }
    }

    /** release: forget every kept byte; live bytes stay. */
    method Release()
      requires Valid()
      modifies this`floor, this`bufPos, this`bufEnd, this`hasPinned, this`curIsPinned, this`runInCur, this`runLen, this`hasCur, this`curPos,
               this`kept, this`frozen, buf, conn`offered, conn`mine
      ensures Valid() && LiveBytes() == old(LiveBytes()) && kept == [] && frozen == []
      ensures floor == 0 && !hasPinned
    {
      hide Conn.Valid, Entered, FromConn, Tells, Held, Released, ReleaseReturns, State, Flags, LiveBytes, Live, Shape, Core;
      ghost var s := State();
      CoreIs();
      ReleaseTells(s, conn.mem, log, consumed, kept, frozen);
      HeldIs();
      ReleaseFields();
      kept, frozen := [], [];
      IsCore();
      ReleasedIs(s, conn.mem);
      FloorIs();
      PinIs();
    }

    lemma PinIs()
      ensures State().pin.Pinned? <==> hasPinned
    {
    }

    lemma HeldIs()
      requires Core()
      ensures Held(State()) <= conn.mine
    {
    }

    /** close: every buffer the reader holds goes back. */
    method Close()
      requires Valid()
      modifies this`hasCur, this`hasPinned, this`curIsPinned, conn`offered, conn`mine
      ensures conn.Valid() && conn.mine == {}
    {
      hide Conn.Valid, Entered, FromConn, AllThere;
      if hasCur && !curIsPinned {
        conn.Return(cur.bufId);
      }
      if hasPinned {
        conn.Return(pinned.bufId);
      }
      hasCur, hasPinned, curIsPinned := false, false, false;
    }
    /** What waiting for input may have done: more received bytes at the end of the live ones. */
    twostate predicate Extended()
      reads this, buf, conn
    {
      && old(log) <= log && (forall p :: p in log[|old(log)|..] ==> p.Received?)
      && old(LiveBytes()) <= LiveBytes()
      && old(frozen) <= frozen
    }

    /** read: 1 with the live bytes once one of them is unexamined; 0 at the end of input; <0 on an error. */
    method Read() returns (rc: int, live: Span)
      requires Valid()
      modifies this`floor, this`liveInBuf, this`bufPos, this`bufEnd, this`hasCur, this`cur, this`curPos, this`pinned, this`hasPinned,
               this`curIsPinned, this`runInCur, this`runStart, this`frozen, this`log, this`eof, this`error, buf, conn
      ensures Valid() && Extended()
      ensures old(error) != 0 ==> rc == old(error) && LiveBytes() == old(LiveBytes())
      ensures old(error) == 0 && |old(LiveBytes())| > examined ==> rc == 1 && LiveBytes() == old(LiveBytes())
      ensures rc == 1 ==> error == 0 && Reads(live) && live.len == |LiveBytes()| > examined
      ensures rc != 1 ==> rc in {0, PIPE_GONE, PIPE_FULL} && error == rc
      ensures rc == 1 ==> conn.Pending() <= old(conn.Pending()) && (conn.Pending() == old(conn.Pending()) ==> LiveBytes() == old(LiveBytes()))
      ensures rc == 0 ==> eof && |LiveBytes()| <= examined
      ensures rc == PIPE_FULL && old(error) == 0 ==> NoRoom() && |LiveBytes()| <= examined
      ensures rc == 1 ==> old(error) == 0
    {
      hide Conn.Valid, Entered, FromConn, Tells, Held, State, LiveBytes, Core, Reads;
      live := Span(BufAt(0), 0);
      if error != 0 {
        return error, live;
      }
      while true
        invariant Valid() && error == 0 && Extended()
        invariant conn.Pending() <= old(conn.Pending()) && (conn.Pending() == old(conn.Pending()) ==> LiveBytes() == old(LiveBytes()))
        invariant |old(LiveBytes())| > examined ==> LiveBytes() == old(LiveBytes())
        decreases conn.Pending()
      {
        live := LiveSpan();
        if live.len > examined {
          return 1, live;
        }
        rc := More();
        if rc <= 0 {
          return rc, live;
        }
      }
    }

    /** The bytes of a span handed out. */
    method View(live: Span) returns (b: bytes)
      requires Valid() && Reads(live)
      ensures b == LiveBytes()
    {
      hide Conn.Valid, Entered, FromConn, Tells, Held, LiveBytes;
      b := Load(live);
    }

    method Load(span: Span) returns (b: bytes)
      requires InBounds(buf[..], conn.mem, span.place, span.len)
      ensures b == Mem(buf[..], conn.mem, span.place, span.len)
    {
      match span.place {
        case BufAt(at) => b := buf[at..at + span.len];
        case SlabAt(id, at) => b := conn.mem[id][at..at + span.len];
      }
    }

    /** avail: like read, but never waits: 0 when nothing unexamined was delivered. */
    method Avail() returns (rc: int, live: Span)
      requires Valid()
      modifies this`floor, this`liveInBuf, this`bufPos, this`bufEnd, this`hasCur, this`cur, this`curPos, this`pinned, this`hasPinned,
               this`curIsPinned, this`runInCur, this`runStart, this`frozen, this`log, this`eof, this`error, buf, conn
      ensures Valid() && Extended()
      ensures old(error) != 0 ==> rc == old(error) && LiveBytes() == old(LiveBytes())
      ensures rc == 1 ==> error == 0 && Reads(live) && live.len == |LiveBytes()| > examined
      ensures rc != 1 ==> rc in {0, PIPE_GONE, PIPE_FULL} && error == rc
      ensures rc == 0 ==> |LiveBytes()| <= examined && (conn.rx == [] || eof)
      ensures rc == PIPE_FULL && old(error) == 0 ==> NoRoom() && |LiveBytes()| <= examined
      ensures conn.script == old(conn.script)
    {
      hide Conn.Valid, Entered, FromConn, Tells, Held, State, LiveBytes, Core, Reads;
      live := Span(BufAt(0), 0);
      if error != 0 {
        return error, live;
      }
      live := LiveSpan();
      while live.len <= examined
        invariant Valid() && error == 0 && Extended() && conn.script == old(conn.script)
        invariant Reads(live) && live.len == |LiveBytes()|
        decreases conn.Pending()
      {
        if conn.rx == [] {
          return 0, live;
        }
        rc := More();
        if rc <= 0 {
          return rc, live;
        }
        live := LiveSpan();
      }
      return 1, live;
    }

    /** examine: looked at n live bytes; the next read waits for more. */
    method Examine(n: nat)
      requires Valid()
      modifies this`examined
      ensures Valid() && LiveBytes() == old(LiveBytes()) && examined == n
    {
      hide Conn.Valid, Entered, FromConn, Tells, Held, State, Flags, Live, Shape, Core;
      examined := n;
    }

    /** drop: consume n live bytes. */
    method Drop(n: nat)
      requires Valid()
      modifies this`liveInBuf, this`bufPos, this`bufEnd, this`hasCur, this`curPos, this`curIsPinned, this`examined, this`consumed, conn`offered, conn`mine
      ensures Valid()
      ensures var k := if n < |old(LiveBytes())| then n else |old(LiveBytes())|;
        && consumed == old(consumed) + old(LiveBytes())[..k] && LiveBytes() == old(LiveBytes())[k..]
        && examined == if old(examined) > k then old(examined) - k else 0
    {
      Consume(n);
    }

    /** copy: up to n live bytes into dst, consumed; waits for the first. */
    method Copy(dst: array<byte>, at: nat, n: nat) returns (rc: int)
      requires Valid() && at + n <= dst.Length && dst != buf
      modifies this`floor, this`liveInBuf, this`bufPos, this`bufEnd, this`hasCur, this`cur, this`curPos, this`pinned, this`hasPinned,
               this`curIsPinned, this`runInCur, this`runStart, this`frozen, this`log, this`eof, this`error, this`examined, this`consumed, buf, conn, dst
      ensures Valid() && old(log) <= log && (forall p :: p in log[|old(log)|..] ==> p.Received?) && old(frozen) <= frozen
      ensures old(consumed + LiveBytes()) <= consumed + LiveBytes() && examined <= old(examined)
      ensures old(error) != 0 ==> rc == old(error) && consumed == old(consumed)
      ensures rc > 0 ==> rc <= n && consumed == old(consumed) + dst[at..at + rc]
      ensures rc > 0 && old(LiveBytes()) != [] ==> rc == if |old(LiveBytes())| < n then |old(LiveBytes())| else n
      ensures rc <= 0 ==> consumed == old(consumed) && rc in {0, PIPE_GONE, PIPE_FULL} && error == rc
      ensures rc == 0 && 0 < n ==> eof && LiveBytes() == []
      ensures rc == PIPE_FULL && old(error) == 0 ==> NoRoom() && LiveBytes() == []
      ensures dst[..at] == old(dst[..at])
      ensures rc >= 0 ==> dst[at + rc..] == old(dst[at + rc..])
    {
      hide Conn.Valid, Entered, FromConn, Tells, Held, State, LiveBytes, Core;
      if error != 0 {
        return error;
      }
      rc := SomeLive();
      if rc <= 0 {
        return rc;
      }
      var live := LiveSpan();
      ghost var now := LiveBytes();
      var k := if live.len < n then live.len else n;
      CopyOff(dst, at, k);
      TakenAndLeft(old(consumed), old(LiveBytes()), now, k);
      return k;
    }

    /** Wait until a byte is live. */
    method SomeLive() returns (rc: int)
      requires Valid() && error == 0
      modifies this`floor, this`liveInBuf, this`bufPos, this`bufEnd, this`hasCur, this`cur, this`curPos, this`pinned, this`hasPinned,
               this`curIsPinned, this`runInCur, this`runStart, this`frozen, this`log, this`eof, this`error, buf, conn
      ensures Valid() && Extended()
      ensures rc == 1 ==> LiveBytes() != [] && error == 0
      ensures old(LiveBytes()) != [] ==> rc == 1 && LiveBytes() == old(LiveBytes())
      ensures rc != 1 ==> rc in {0, PIPE_GONE, PIPE_FULL} && error == rc && LiveBytes() == []
      ensures rc == 0 ==> eof
      ensures rc == PIPE_FULL ==> NoRoom()
    {
      hide Conn.Valid, Entered, FromConn, Tells, Held, State, LiveBytes, Core, Reads;
      while true
        invariant Valid() && error == 0 && Extended()
        invariant old(LiveBytes()) != [] ==> LiveBytes() == old(LiveBytes())
        decreases conn.Pending()
      {
        var live := LiveSpan();
        if live.len > 0 {
          return 1;
        }
        rc := More();
        if rc <= 0 {
          return rc;
        }
      }
    }

    /** The first k live bytes are copied and consumed. */
    method CopyOff(dst: array<byte>, at: nat, k: nat)
      requires Valid() && k <= |LiveBytes()| && at + k <= dst.Length && dst != buf
      modifies this`liveInBuf, this`bufPos, this`bufEnd, this`hasCur, this`curPos, this`curIsPinned, this`examined, this`consumed,
               conn`offered, conn`mine, dst
      ensures Valid()
      ensures dst[at..at + k] == old(LiveBytes())[..k] && dst[..at] == old(dst[..at]) && dst[at + k..] == old(dst[at + k..])
      ensures consumed == old(consumed) + old(LiveBytes())[..k] && LiveBytes() == old(LiveBytes())[k..] && examined <= old(examined)
    {
      hide Conn.Valid, Entered, FromConn, Tells, Held, State, LiveBytes, Core, Flags;
      CopyLive(dst, at, k);
      Consume(k);
    }

    /** memcpy of the first k live bytes. */
    method CopyLive(dst: array<byte>, at: nat, k: nat)
      requires Core() && k <= |LiveBytes()| && at + k <= dst.Length && dst != buf
      modifies dst
      ensures dst[at..at + k] == LiveBytes()[..k]
      ensures dst[..at] == old(dst[..at]) && dst[at + k..] == old(dst[at + k..])
    {
      hide Conn.Valid, Tells, Held, Live, Blit, Core;
      ghost var live := LiveBytes();
      CoreIs();
      LiveLen(State(), conn.mem);
      LivePrefix(State(), conn.mem, k);
      ghost var was := dst[..];
      BlitParts(was, at, live[..k]);
      BlitTail(was, at, live[..k]);
      if liveInBuf {
        MemWrite(dst, at, buf[bufPos..bufPos + k]);
      } else if hasCur {
        MemWrite(dst, at, conn.mem[cur.bufId][curPos..curPos + k]);
      } else {
        BlitNothing(was, at);
      }
      assert dst[..] == Blit(was, at, live[..k]);
    }

    /** inject: bytes that arrived by another route, appended to the live bytes; false: no room. */
    method Inject(data: bytes) returns (ok: bool)
      requires Valid()
      modifies this`floor, this`liveInBuf, this`bufPos, this`bufEnd, this`hasCur, this`curPos, this`pinned, this`hasPinned,
               this`curIsPinned, this`runInCur, this`runStart, this`frozen, this`log, buf, conn`offered, conn`mine
      ensures Valid() && old(frozen) <= frozen
      ensures ok ==> log == old(log) + [Injected(data)] && LiveBytes() == old(LiveBytes()) + data
      ensures !ok ==> log == old(log) && LiveBytes() == old(LiveBytes())
      ensures ok <==> old(error) == 0 && old(if liveInBuf || hasCur then Need() else floor) + |data| <= buf.Length
    {
      hide Conn.Valid, Entered, FromConn, Tells, Held, State, LiveBytes, Core, Flags;
      if error != 0 {
        return false;
      }
      if !liveInBuf && !hasCur {
        Open();
      }
      ok := MakeRoom(|data|);
      HeldIs();
      NoMore(conn.mine, Held(State()));
      if !ok {
        return false;
      }
      LogSnoc(log, Injected(data));
      Append(data, Injected(data));
    }

    /** An empty live region at the floor. */
    method Open()
      requires Valid() && !liveInBuf && !hasCur
      modifies this`bufPos, this`bufEnd, this`liveInBuf
      ensures Valid() && LiveBytes() == old(LiveBytes()) && liveInBuf && Need() == floor
    {
      hide Conn.Valid, Entered, FromConn, AllThere, Tells, Held;
      TellsShape(State(), conn.mem, log, consumed, kept, frozen);
      OpenTells(State(), conn.mem, log, consumed, kept, frozen);
      bufPos, bufEnd := floor, floor;
      liveInBuf := true;
      assert State() == Opened(old(State()));
      TellsShape(State(), conn.mem, log, consumed, kept, frozen);
    }
  }

  lemma FrozeIs(r: Reader, mem: seq<bytes>, log: seq<Piece>, consumed: bytes, kept: bytes, frozen: seq<Frozen>)
    requires Tells(r, mem, log, consumed, kept, frozen)
    ensures Shape(r, mem)
    ensures Froze(r, mem) == if kept == [] || !RunBeginFits(r) then [] else [Frozen(if RunMoves(r) then BufAt(r.floor) else RunPlace(r), kept)]
  {
    hide Entered, AllThere;
  }

  lemma NoMore(mine: set<nat>, held: set<nat>)
    requires held <= mine && mine - held == {}
    ensures mine == held
  {
    forall x | x in mine
      ensures x in held
    {
      assert x !in mine - held;
    }
  }

  lemma OneMore(mine: set<nat>, held: set<nat>, id: nat)
    requires held <= mine && mine - held == {id}
    ensures id in mine && id !in held && mine - {id} == held
  {
    assert id in mine - held;
  }

  lemma ReleaseSets(r: Reader, mem: seq<bytes>, mine: set<nat>)
    requires Shape(r, mem) && Held(r) <= mine
    ensures r.pin.Pinned? ==> r.pin.item.bufId in mine
    ensures var rest := mine - if r.pin.Pinned? && !r.pin.isCur then {r.pin.item.bufId} else {};
      && (r.live.InCur? ==> r.live.item.bufId in rest)
      && mine - ReleaseReturns(r) == rest - if CurSpent(r) then {r.live.item.bufId} else {}
  {
  }

  lemma ReleasedIs(r: Reader, mem: seq<bytes>)
    requires Shape(r, mem)
    ensures Released(r).floor == 0 && Released(r).pin == Free
  {
  }

  lemma TakenAndLeft(consumed: bytes, was: bytes, live: bytes, k: nat)
    requires was <= live && k <= |live|
    ensures consumed + was <= (consumed + live[..k]) + live[k..]
  {
    assert (consumed + live[..k]) + live[k..] == consumed + live;
  }

  /** n bytes of a provided buffer, when there are any to copy. */
  function Part(mem: seq<bytes>, id: nat, lo: nat, n: nat): (p: bytes)
    requires 0 < n ==> id < |mem| && lo + n <= |mem[id]|
    ensures |p| == n
  {
    if 0 < n then mem[id][lo..lo + n] else []
  }

  lemma CurParts(r: Reader, mem: seq<bytes>)
    requires Shape(r, mem) && !r.live.InBuf?
    ensures r.run.RunCur? ==> r.live.InCur? && RunInCur(r, mem) == Part(mem, r.live.item.bufId, r.run.start, r.run.len)
    ensures !r.run.RunCur? ==> RunInCur(r, mem) == []
    ensures r.live.InCur? ==> Live(r, mem) == Part(mem, r.live.item.bufId, r.live.at, r.live.item.len - r.live.at)
    ensures !r.live.InCur? ==> Live(r, mem) == []
  {
  }

  lemma LivePrefix(r: Reader, mem: seq<bytes>, k: nat)
    requires Shape(r, mem) && k <= |Live(r, mem)|
    ensures Live(r, mem)[..k] == match r.live
      case Nothing => []
      case InBuf(pos, _) => r.buf[pos..pos + k]
      case InCur(item, at) => mem[item.bufId][at..at + k]
  {
    match r.live {
      case Nothing =>
      case InBuf(pos, end) => SliceFront(r.buf, pos, end, k);
      case InCur(item, at) => SliceFront(mem[item.bufId], at, item.len, k);
    }
  }

  lemma SliceFront(b: bytes, from: nat, to: nat, k: nat)
    requires from <= to <= |b| && k <= to - from
    ensures b[from..to][..k] == b[from..from + k]
  {
  }

  lemma BlitNothing(b: bytes, at: nat)
    requires at <= |b|
    ensures Blit(b, at, []) == b
  {
  }

  lemma BlitTail(b: bytes, at: nat, data: bytes)
    requires at + |data| <= |b|
    ensures Blit(b, at, data)[at + |data|..] == b[at + |data|..]
  {
  }

  lemma MovedNowhere(b: bytes, at: nat, n: nat)
    requires at + n <= |b|
    ensures Moved(b, at, at, n) == b
  {
  }

  lemma LiveLen(r: Reader, mem: seq<bytes>)
    requires Shape(r, mem)
    ensures |Live(r, mem)| == match r.live case Nothing => 0 case InBuf(pos, end) => end - pos case InCur(item, at) => item.len - at
  {
  }

  lemma TellsShape(r: Reader, mem: seq<bytes>, log: seq<Piece>, consumed: bytes, kept: bytes, frozen: seq<Frozen>)
    requires Tells(r, mem, log, consumed, kept, frozen)
    ensures Shape(r, mem)
  {
  }

  /** The steps of the code make up gather. */
  lemma GatherSteps(s: Reader, s1: Reader, s2: Reader, s3: Reader, mem: seq<bytes>)
    requires Shape(s, mem) && !s.live.InBuf? && GatherFits(s, mem)
    requires s1 == s.(buf := Blit(s.buf, s.floor, RunInCur(s, mem) + Live(s, mem)))
    requires s2 == s1.(floor := s1.floor + |RunInCur(s, mem)|,
                       run := if s.run.RunCur? then RunBuf(s.floor, s.run.len) else s.run,
                       pin := if s.run.RunCur? && s.pin.Free? then Pinned(s.live.item, true) else s.pin)
    requires s3 == s2.(live := InBuf(s2.floor, s2.floor + |Live(s, mem)|), pin := Unpinned(s2.pin))
    ensures s3 == Gathered(s, mem) && CurReturns(s2) == GatherReturns(s)
  {
    hide Blit;
  }

  ghost function Room(r: Reader, mem: seq<bytes>): nat
    requires Shape(r, mem)
  {
    r.floor + |RunInCur(r, mem)| + |Live(r, mem)|
  }

  lemma GatherKeepsRoom(r: Reader, mem: seq<bytes>)
    requires Shape(r, mem) && !r.live.InBuf? && GatherFits(r, mem)
    ensures Shape(Gathered(r, mem), mem) && Room(Gathered(r, mem), mem) == Room(r, mem)
  {
    hide Blit, Untouched;
    GatheredBytes(r, mem);
  }

  lemma GatherReturnsHeld(r: Reader)
    ensures GatherReturns(r) <= Held(r)
  {
  }

  lemma HeldCur(r: Reader)
    ensures r.live.InCur? ==> r.live.item.bufId in Held(r)
  {
  }

  lemma GatherRoom(r: Reader, mem: seq<bytes>)
    requires Shape(r, mem) && !r.live.InBuf?
    ensures |Live(r, mem)| == if r.live.InCur? then r.live.item.len - r.live.at else 0
    ensures |RunInCur(r, mem)| == if r.run.RunCur? then r.run.len else 0
    ensures Room(r, mem) == r.floor + |RunInCur(r, mem)| + |Live(r, mem)|
    ensures GatherFits(r, mem) <==> Room(r, mem) <= |r.buf|
  {
  }

  lemma BlitTwice(b: bytes, at: nat, x: bytes, y: bytes)
    requires at + |x| + |y| <= |b|
    ensures Blit(Blit(b, at, x), at + |x|, y) == Blit(b, at, x + y)
    ensures x == [] ==> Blit(b, at, x) == b
    ensures y == [] ==> Blit(b, at, x + y) == Blit(b, at, x)
  {
  }
}
