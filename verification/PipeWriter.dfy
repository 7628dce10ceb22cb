/**
 * The writer of io/pipe.h: a slab with a lead in front and a slack behind. Data goes in at the
 * tail; a frame's front goes into the lead just before it and its back into the slack just after
 * it, and one flush sends the whole span.
 */
module PipeWriting {
  import opened Bytes
  import opened ConnOutput

  /**
   * A pending span of n bytes and m bytes of data go out whole: the operations take them all, and the
   * answer reads as no error, as that of a single piece of 2 GiB may.
   */
  predicate GoesOut(script: seq<int>, n: nat, m: nat) {
    Goes(script, n + m) && ((n > 0 && m > 0) || ToInt(n + m) >= 0)
  }

  class PipeWriter {
    const conn: Sender
    const buf: array<byte>
    const lead: nat
    const cap: nat
    const slack: nat
    var head: nat
    var len: nat
    var tail: nat
    var failed: bool

    ghost predicate Valid()
      reads this`head, this`len, this`tail
    {
      buf.Length == lead + cap + slack && head <= lead && len <= cap && tail <= slack
    }

    /** The data bytes. */
    ghost function Data(): (d: bytes)
      requires Valid()
      reads this`head, this`len, this`tail, buf
      ensures |d| == len
    {
      buf[lead..lead + len]
    }

    /** Front, data and back: what a flush sends. */
    ghost function Pending(): (s: bytes)
      requires Valid()
      reads this`head, this`len, this`tail, buf
      ensures |s| == head + len + tail
    {
      buf[lead - head..lead + len + tail]
    }

    /** How many sends in a row will go out whole. */
    ghost function Credit(): nat
      reads this`failed, conn
    {
      if failed then 0 else Grants(conn.script)
    }

    constructor (conn: Sender, buf: array<byte>, lead: nat, cap: nat, slack: nat)
      requires buf.Length == lead + cap + slack
      ensures Valid() && this.conn == conn && this.buf == buf && this.lead == lead && this.cap == cap && this.slack == slack
      ensures head == len == tail == 0 && !failed
    {
      this.conn, this.buf, this.lead, this.cap, this.slack := conn, buf, lead, cap, slack;
      head, len, tail, failed := 0, 0, 0, false;
    }

    method Reset()
      requires Valid()
      modifies this`head, this`len, this`tail
      ensures Valid() && head == len == tail == 0 && Pending() == []
    {
      head, len, tail := 0, 0, 0;
    }

    /** The span and then data, as one message. */
    method FlushWith(data: bytes) returns (rc: int)
      requires Valid()
      modifies this`head, this`len, this`tail, this`failed, conn
      ensures Valid() && (head == len == tail == 0 || old(failed))
      ensures rc == if failed then -1 else 0
      ensures old(failed) ==> failed && conn.wire == old(conn.wire) && Pending() == old(Pending())
      ensures rc == 0 ==> conn.wire == old(conn.wire) + old(Pending()) + data
      ensures old(conn.wire) <= conn.wire <= old(conn.wire) + old(Pending()) + data
      ensures data == [] && 0 < |old(Pending())| <= INT_MAX && old(Credit()) > 0 ==> rc == 0 && Credit() == old(Credit()) - 1
      ensures rc == 0 <==> old(!failed && GoesOut(conn.script, |Pending()|, |data|))
      ensures !old(failed) ==> conn.script == OpsLeft(old(conn.script), old(|Pending()|) + |data|)
    {
      if failed {
        return -1;
      }
      var sent := SendAll(data);
      head, len, tail := 0, 0, 0;
      if sent < 0 {
        failed := true;
        return -1;
      }
      return 0;
    }

    /** The span and the data in as few operations as there are pieces. */
    method SendAll(data: bytes) returns (sent: int)
      requires Valid()
      modifies conn
      ensures sent >= 0 ==> conn.wire == old(conn.wire) + Pending() + data
      ensures old(conn.wire) <= conn.wire <= old(conn.wire) + Pending() + data
      ensures data == [] && 0 < |Pending()| <= INT_MAX && Grants(old(conn.script)) > 0 ==>
        sent >= 0 && Grants(conn.script) == Grants(old(conn.script)) - 1
      ensures sent >= 0 <==> GoesOut(old(conn.script), |Pending()|, |data|)
      ensures conn.script == OpsLeft(old(conn.script), |Pending()| + |data|)
    {
      hide Flatten, Goes, OpsLeft, Grants, Pending, ToInt;
      var total := head + len + tail;
      sent := 0;
      ghost var span := Pending();
      NoneGoes(conn.script);
      PendingIs();
      assert conn.wire + span + data == conn.wire + (span + data);
      if total != 0 && data != [] {
        TwoPieces(span, data);
        sent := conn.SendV([buf[lead - head..lead - head + total], data]);
      } else if total != 0 {
        assert data == [] && span + data == span;
        sent := conn.Send(buf[lead - head..lead - head + total]);
      } else if data != [] {
        assert span == [] && span + data == data;
        sent := conn.Send(data);
      } else {
        assert span == data == [] && conn.wire + [] == conn.wire;
      }
    }

    lemma PendingIs()
      requires Valid()
      ensures Pending() == buf[lead - head..lead - head + (head + len + tail)]
    {
    }

    method Flush() returns (rc: int)
      requires Valid()
      modifies this`head, this`len, this`tail, this`failed, conn
      ensures Valid() && (head == len == tail == 0 || old(failed))
      ensures rc == if failed then -1 else 0
      ensures old(failed) ==> failed && conn.wire == old(conn.wire) && Pending() == old(Pending())
      ensures rc == 0 ==> conn.wire == old(conn.wire) + old(Pending())
      ensures old(conn.wire) <= conn.wire <= old(conn.wire) + old(Pending())
      ensures rc == 0 <==> old(!failed && GoesOut(conn.script, |Pending()|, 0))
      ensures !old(failed) ==> conn.script == OpsLeft(old(conn.script), old(|Pending()|))
    {
      rc := FlushWith([]);
      assert old(conn.wire) + old(Pending()) + [] == old(conn.wire) + old(Pending());
    }

    /** Room for n bytes at the tail, flushing first when they do not fit. */
    method Reserve(n: nat) returns (ok: bool)
      requires Valid()
      modifies this`head, this`len, this`tail, this`failed, conn
      ensures Valid()
      ensures ok ==> !failed && len + n <= cap
      ensures !ok ==> failed || n > cap
      ensures old(failed) || old(len) + n <= cap || n > cap ==>
        conn.wire == old(conn.wire) && head == old(head) && len == old(len) && tail == old(tail) && failed == old(failed)
      ensures !old(failed) && old(len) + n > cap && n <= cap ==>
        && head == len == tail == 0
        && (ok ==> conn.wire == old(conn.wire) + old(Pending()))
        && old(conn.wire) <= conn.wire <= old(conn.wire) + old(Pending())
      ensures ok <==> n <= cap && old(!failed && (len + n <= cap || GoesOut(conn.script, |Pending()|, 0)))
    {
      if failed || n > cap {
        return false;
      }
      if len + n > cap {
        var rc := Flush();
        if rc < 0 {
          return false;
        }
      }
      return true;
    }

    /** The caller wrote n bytes at the tail; never past the slab, whatever was claimed. */
    method Advance(n: nat)
      requires Valid()
      modifies this`len
      ensures Valid() && len == old(len) + Min(n, cap - old(len))
      ensures tail == 0 ==> Data() == old(Data()) + buf[lead + old(len)..lead + len]
    {
      len := len + Min(n, cap - len);
    }

    /** n bytes just before the pending span, filled with those; false when the lead has no room. */
    method Front(data: bytes) returns (ok: bool)
      requires Valid()
      modifies this`head, buf
      ensures Valid() && ok == (old(head) + |data| <= lead)
      ensures Pending() == if ok then data + old(Pending()) else old(Pending())
      ensures Data() == old(Data()) && head == old(head) + if ok then |data| else 0
    {
      hide Blit, Data, Pending;
      if |data| > lead - head {
        return false;
      }
      ghost var was := buf[..];
      BlitAround(was, lead - head - |data|, data, lead - head, lead + len + tail);
      BlitAround(was, lead - head - |data|, data, lead, lead + len);
      Spans();
      head := head + |data|;
      MemWrite(buf, lead - head, data);
      Spans();
      return true;
    }

    lemma Spans()
      requires Valid()
      ensures Data() == buf[..][lead..lead + len] && Pending() == buf[..][lead - head..lead + len + tail]
    {
    }

    /** n bytes just after it; false when the slack has no room. */
    method Back(data: bytes) returns (ok: bool)
      requires Valid()
      modifies this`tail, buf
      ensures Valid() && ok == (old(tail) + |data| <= slack)
      ensures Pending() == if ok then old(Pending()) + data else old(Pending())
      ensures Data() == old(Data()) && tail == old(tail) + if ok then |data| else 0
    {
      hide Blit, Data, Pending;
      if |data| > slack - tail {
        return false;
      }
      Spans();
      ghost var was := buf[..];
      BlitBehind(was, lead + len + tail, data, lead - head);
      BlitBehind(was, lead + len + tail, data, lead);
      Inside(was, Blit(was, lead + len + tail, data), lead, lead + len, lead + len + tail);
      MemWrite(buf, lead + len + tail, data);
      tail := tail + |data|;
      Spans();
      return true;
    }

    /** Copy data in at the tail; the caller made room, and no back is pending. */
    method Append(data: bytes)
      requires Valid() && len + |data| <= cap && tail == 0
      modifies this`len, buf
      ensures Valid() && Data() == old(Data()) + data && Pending() == old(Pending()) + data
    {
      hide Blit, Data, Pending;
      Spans();
      ghost var was := buf[..];
      BlitBehind(was, lead + len, data, lead - head);
      BlitBehind(was, lead + len, data, lead);
      MemWrite(buf, lead + len, data);
      len := len + |data|;
      Spans();
    }

    /** Send now, ahead of the pending span, bypassing the slab. */
    method Through(data: bytes) returns (rc: int)
      modifies this`failed, conn
      ensures rc == if failed then -1 else 0
      ensures old(failed) ==> failed && conn.wire == old(conn.wire)
      ensures rc == 0 ==> conn.wire == old(conn.wire) + data
      ensures old(conn.wire) <= conn.wire <= old(conn.wire) + data
      ensures 0 < |data| <= INT_MAX && old(Credit()) > 0 ==> rc == 0 && Credit() == old(Credit()) - 1
      ensures rc == 0 <==> old(!failed) && GoesOut(old(conn.script), 0, |data|)
    {
      if failed {
        return -1;
      }
      var sent := conn.Send(data);
      if sent < 0 {
        failed := true;
        return -1;
      }
      return 0;
    }

    /** Room for n bytes, or the sends that make it, or that take them past the slab. */
    ghost predicate Accepts(n: nat)
      requires Valid()
      reads this`head, this`len, this`tail, this`failed, buf, conn
    {
      && !failed
      && (len + n <= cap || GoesOut(conn.script, |Pending()|, 0))
      && (n > cap ==> GoesOut(conn.script, |Pending()|, 0) && GoesOut(OpsLeft(conn.script, |Pending()|), 0, n))
    }

    /** Copy in, flushing first when it does not fit; larger than the slab goes straight out. */
    method Write(data: bytes) returns (rc: int)
      requires Valid() && tail == 0
      modifies this`head, this`len, this`tail, this`failed, buf, conn
      ensures Valid() && (rc == 0 ==> !failed && tail == 0)
      ensures rc == 0 ==> conn.wire + Pending() == old(conn.wire + Pending()) + data
      ensures rc != 0 ==> rc == -1 && failed
      ensures old(conn.wire) <= conn.wire
      ensures rc == 0 <==> old(Accepts(|data|))
    {
      hide GoesOut, OpsLeft, Pending, Grants;
      if failed {
        return -1;
      }
      if |data| > cap {
        rc := Flush();
        if rc < 0 {
          return -1;
        }
        rc := Through(data);
        return;
      }
      var ok := Reserve(|data|);
      if !ok {
        return -1;
      }
      Append(data);
      return 0;
    }
  }

  lemma NoneGoes(script: seq<int>)
    ensures Goes(script, 0) && OpsLeft(script, 0) == script && ToInt(0) == 0
  {
  }

  lemma TwoPieces(a: bytes, b: bytes)
    ensures Flatten([a, b]) == a + b
  {
    assert [a, b][1..] == [b];
    assert Flatten([b]) == b;
  }

  /** What lies in front of a span or right behind it, around a write next to it. */
  lemma BlitAround(b: bytes, at: nat, data: bytes, from: nat, to: nat)
    requires at + |data| <= from <= to <= |b|
    ensures Blit(b, at, data)[from..to] == b[from..to]
    ensures from == at + |data| ==> Blit(b, at, data)[at..to] == data + b[from..to]
  {
  }

  lemma BlitBehind(b: bytes, at: nat, data: bytes, from: nat)
    requires from <= at && at + |data| <= |b|
    ensures Blit(b, at, data)[from..at] == b[from..at]
    ensures Blit(b, at, data)[from..at + |data|] == b[from..at] + data
  {
  }

  lemma Inside(a: bytes, b: bytes, from: nat, mid: nat, to: nat)
    requires from <= mid <= to <= |a| && to <= |b| && a[from..to] == b[from..to]
    ensures a[from..mid] == b[from..mid]
  {
    assert a[from..mid] == a[from..to][..mid - from];
    assert b[from..mid] == b[from..to][..mid - from];
  }
}
