/**
 * Whole lives of a reader: any calls in any order, over any arrival of input, then close.
 */
module PipeSession {
  import opened Bytes
  import opened ConnInput
  import opened ReaderState
  import opened PipeReading

  datatype Call = Read | Avail | Examine(n: nat) | Drop(n: nat) | Keep(n: nat) | Copy(n: nat)
                | Inject(data: bytes) | RunBegin | Release

  /** The pieces that came by another route than the connection. */
  ghost function Others(log: seq<Piece>): seq<bytes> {
    if log == [] then []
    else Others(log[..|log| - 1]) + if log[|log| - 1].Received? then [] else [log[|log| - 1].data]
  }

  lemma {:induction false} OthersOf(log: seq<Piece>, more: seq<Piece>)
    requires forall p :: p in more ==> p.Received?
    ensures Others(log + more) == Others(log)
  {
    if more == [] {
      assert log + more == log;
    } else {
      assert more[|more| - 1] in more;
      assert (log + more)[..|log + more| - 1] == log + more[..|more| - 1];
      OthersOf(log, more[..|more| - 1]);
    }
  }

  lemma OthersGrow(was: seq<Piece>, log: seq<Piece>)
    requires was <= log && forall p :: p in log[|was|..] ==> p.Received?
    ensures Others(log) == Others(was)
  {
    assert log == was + log[|was|..];
    OthersOf(was, log[|was|..]);
  }

  /** Bytes shown or accepted, and how many were consumed before them. */
  datatype Seen = Seen(at: nat, data: bytes)

  /** They are the stream's at their place. */
  predicate Fits(w: Seen, stream: bytes) {
    w.at + |w.data| <= |stream| && stream[w.at..w.at + |w.data|] == w.data
  }

  lemma FitsMore(w: Seen, stream: bytes, more: bytes)
    requires Fits(w, stream) && stream <= more
    ensures Fits(w, more)
  {
    assert more[..|stream|] == stream;
    assert more[w.at..w.at + |w.data|] == stream[w.at..w.at + |w.data|];
  }

  lemma AllFitMore(ws: seq<Seen>, stream: bytes, more: bytes)
    requires (forall w :: w in ws ==> Fits(w, stream)) && stream <= more
    ensures forall w :: w in ws ==> Fits(w, more)
  {
    forall w | w in ws
      ensures Fits(w, more)
    {
      FitsMore(w, stream, more);
    }
  }

  /**
   * What a reader's user has: the bytes taken out, what was shown on the way, what was put in, and
   * the runs frozen since the last release, with the addresses they were handed out at.
   */
  datatype Story = Story(taken: bytes, shown: seq<Seen>, put: seq<bytes>, runs: seq<Frozen>)

  /** The story is that of the stream: consumed bytes, then live ones. */
  ghost predicate Told(pr: PipeReader, t: Story)
    requires pr.Valid()
    reads pr, pr.buf, pr.conn
  {
    && t.taken == pr.consumed
    && Others(pr.log) == t.put
    && (forall f :: f in t.runs ==> f in pr.frozen)
    && forall w :: w in t.shown ==> Fits(w, t.taken + pr.LiveBytes())
  }

  lemma ShownLive(t: Story, live: bytes, b: bytes, at: nat)
    requires at + |b| <= |live| && live[at..at + |b|] == b
    ensures Fits(Seen(|t.taken| + at, b), t.taken + live)
  {
    assert (t.taken + live)[|t.taken| + at..|t.taken| + at + |b|] == live[at..at + |b|];
  }

  /** Bytes leave the front of the live ones. */
  lemma Moves(taken: bytes, live: bytes, k: nat)
    requires k <= |live|
    ensures taken + live[..k] + live[k..] == taken + live
  {
    assert live == live[..k] + live[k..];
  }

  // The calls, as their user sees them: what they hand out is loaded from where it is said to be.

  method Look(pr: PipeReader, wait: bool, t: Story) returns (now: Story)
    requires pr.Valid() && Told(pr, t)
    modifies pr, pr.buf, pr.conn
    ensures pr.Valid() && Told(pr, now) && now.taken == t.taken && t.shown <= now.shown && now.put == t.put && now.runs == t.runs
    ensures old(pr.frozen) <= pr.frozen
  {
    hide PipeReader.Valid, PipeReader.State, PipeReader.LiveBytes, PipeReader.Reads, PipeReader.NoRoom, PipeReader.Need, Others, Fits;
    ghost var log, was := pr.log, pr.LiveBytes();
    var rc: int, live: Span;
    if wait {
      rc, live := pr.Read();
    } else {
      rc, live := pr.Avail();
    }
    OthersGrow(log, pr.log);
    LongerStream(t.taken, was, pr.LiveBytes());
    AllFitMore(t.shown, t.taken + was, t.taken + pr.LiveBytes());
    now := t;
    if rc == 1 {
      var b := pr.View(live);
      ShownLive(t, pr.LiveBytes(), b, 0);
      now := t.(shown := t.shown + [Seen(|t.taken|, b)]);
    }
  }

  lemma LongerStream(taken: bytes, was: bytes, live: bytes)
    requires was <= live
    ensures taken + was <= taken + live
  {
  }

  method TakeDrop(pr: PipeReader, n: nat, t: Story) returns (now: Story)
    requires pr.Valid() && Told(pr, t)
    modifies pr, pr.buf, pr.conn
    ensures pr.Valid() && Told(pr, now) && t.taken <= now.taken && now.shown == t.shown && now.put == t.put && now.runs == t.runs
    ensures now.taken == t.taken + old(pr.LiveBytes())[..if n < |old(pr.LiveBytes())| then n else |old(pr.LiveBytes())|]
    ensures old(pr.frozen) <= pr.frozen
  {
    hide PipeReader.Valid, PipeReader.State, PipeReader.LiveBytes, PipeReader.Reads, PipeReader.NoRoom, PipeReader.Need, Others, Fits;
    var live := Window(pr);
    var k := if n < |live| then n else |live|;
    Moves(t.taken, live, k);
    pr.Drop(n);
    now := t.(taken := t.taken + live[..k]);
  }

  /** The live bytes, as they are in memory. */
  method Window(pr: PipeReader) returns (b: bytes)
    requires pr.Valid()
    ensures b == pr.LiveBytes()
  {
    hide PipeReader.LiveBytes, PipeReader.State, Conn.Valid, Tells;
    var live := pr.LiveSpan();
    b := pr.View(live);
  }

  method TakeKeep(pr: PipeReader, n: nat, t: Story) returns (now: Story)
    requires pr.Valid() && Told(pr, t)
    modifies pr, pr.buf, pr.conn
    ensures pr.Valid() && Told(pr, now) && t.taken <= now.taken && now.shown == t.shown && now.put == t.put && now.runs == t.runs
    ensures old(pr.frozen) <= pr.frozen
  {
    hide PipeReader.Valid, PipeReader.State, PipeReader.LiveBytes, PipeReader.Reads, PipeReader.NoRoom, PipeReader.Need, Others, Fits, Mem, InBounds;
    ghost var live := pr.LiveBytes();
    var at := pr.Keep(n);
    now := t;
    if at.Some? {
      Nothing(t.taken, live, n);
      var b: bytes := [];
      if n > 0 {
        b := pr.Load(Span(at.value, n));
      }
      Moves(t.taken, live, n);
      now := t.(taken := t.taken + b);
    }
  }

  lemma Nothing(taken: bytes, live: bytes, n: nat)
    ensures taken + [] == taken && (n == 0 ==> n <= |live| && live[..n] == [] && live[n..] == live)
  {
  }

  method TakeCopy(pr: PipeReader, n: nat, scratch: array<byte>, t: Story) returns (now: Story)
    requires pr.Valid() && Told(pr, t) && scratch != pr.buf
    modifies pr, pr.buf, pr.conn, scratch
    ensures pr.Valid() && Told(pr, now) && t.taken <= now.taken && now.shown == t.shown && now.put == t.put && now.runs == t.runs
    ensures old(pr.frozen) <= pr.frozen
  {
    hide PipeReader.Valid, PipeReader.State, PipeReader.LiveBytes, PipeReader.Reads, PipeReader.NoRoom, PipeReader.Need, Others, Fits;
    ghost var log, stream := pr.log, pr.consumed + pr.LiveBytes();
    var rc := pr.Copy(scratch, 0, if n < scratch.Length then n else scratch.Length);
    OthersGrow(log, pr.log);
    AllFitMore(t.shown, stream, pr.consumed + pr.LiveBytes());
    now := t.(taken := t.taken + if rc > 0 then scratch[..rc] else []);
    assert t.taken + [] == t.taken;
    assert rc > 0 ==> scratch[..rc] == scratch[0..0 + rc];
  }

  method PutIn(pr: PipeReader, data: bytes, t: Story) returns (now: Story)
    requires pr.Valid() && Told(pr, t)
    modifies pr, pr.buf, pr.conn
    ensures pr.Valid() && Told(pr, now) && now.taken == t.taken && t.shown <= now.shown && now.runs == t.runs
    ensures now.put == t.put || now.put == t.put + [data]
    ensures old(pr.frozen) <= pr.frozen
  {
    hide PipeReader.Valid, PipeReader.State, PipeReader.LiveBytes, PipeReader.Reads, PipeReader.NoRoom, PipeReader.Need, Others, Fits;
    var live := Window(pr);
    ghost var log := pr.log;
    var ok := pr.Inject(data);
    now := t;
    if ok {
      OthersSnoc(log, data);
      LongerStream(t.taken, live, live + data);
      AllFitMore(t.shown, t.taken + live, t.taken + (live + data));
      ShownLive(t, live + data, data, |live|);
      now := t.(put := t.put + [data], shown := t.shown + [Seen(|t.taken| + |live|, data)]);
    }
  }

  /** The run is frozen; when no buffer is pinned yet, it stays where it is. */
  method Freeze(pr: PipeReader, t: Story) returns (now: Story)
    requires pr.Valid() && Told(pr, t)
    modifies pr, pr.buf, pr.conn
    ensures pr.Valid() && Told(pr, now) && now.taken == t.taken && now.shown == t.shown && now.put == t.put
    ensures t.runs <= now.runs
    ensures old(!pr.hasPinned && pr.kept != []) && pr.error == old(pr.error) == 0 ==> |now.runs| == |t.runs| + 1
    ensures old(pr.frozen) <= pr.frozen
  {
    hide PipeReader.Valid, PipeReader.LiveBytes, PipeReader.Reads, PipeReader.NoRoom, PipeReader.Need, Others, Fits, Mem, InBounds;
    var pinned, error := pr.hasPinned, pr.error;
    var run := pr.Run();
    var b := pr.Load(run);
    pr.RunBegin();
    now := t;
    if !pinned && b != [] && pr.error == error == 0 {
      now := t.(runs := t.runs + [Frozen(run.place, b)]);
    }
  }

  /** A run that was frozen reads the same at its address. */
  ghost predicate StillReads(pr: PipeReader, f: Frozen)
    reads pr, pr.buf, pr.conn
  {
    InBounds(pr.buf[..], pr.conn.mem, f.place, |f.data|) && Mem(pr.buf[..], pr.conn.mem, f.place, |f.data|) == f.data
  }

  lemma RunsStillRead(pr: PipeReader, t: Story)
    requires pr.Valid() && Told(pr, t)
    ensures forall f :: f in t.runs ==> StillReads(pr, f)
  {
    forall f | f in t.runs
      ensures StillReads(pr, f)
    {
      pr.FrozenReads(f);
    }
  }

  /** One call. */
  method Perform(pr: PipeReader, c: Call, scratch: array<byte>, t: Story) returns (now: Story)
    requires pr.Valid() && Told(pr, t) && scratch != pr.buf
    modifies pr, pr.buf, pr.conn, scratch
    ensures pr.Valid() && Told(pr, now) && t.taken <= now.taken && t.shown <= now.shown && t.put <= now.put
    ensures c == Release || (t.runs <= now.runs && old(pr.frozen) <= pr.frozen)
    ensures forall f :: f in now.runs ==> StillReads(pr, f)
  {
    hide PipeReader.Valid, PipeReader.State, PipeReader.LiveBytes, PipeReader.Need, Others, Fits;
    now := t;
    match c {
      case Read => now := Look(pr, true, t);
      case Avail => now := Look(pr, false, t);
      case Examine(n) => pr.Examine(n);
      case Drop(n) => now := TakeDrop(pr, n, t);
      case Keep(n) => now := TakeKeep(pr, n, t);
      case Copy(n) => now := TakeCopy(pr, n, scratch, t);
      case Inject(data) => now := PutIn(pr, data, t);
      case RunBegin => now := Freeze(pr, t);
      case Release =>
        pr.Release();
        now := t.(runs := []);
    }
    RunsStillRead(pr, now);
  }

  lemma NoOthers()
    ensures Others([]) == []
  {
  }

  lemma OthersSnoc(log: seq<Piece>, data: bytes)
    ensures Others(log + [Injected(data)]) == Others(log) + [data]
  {
    assert (log + [Injected(data)])[..|log|] == log;
  }

  /**
   * Any life of a reader, as its user sees it. The bytes taken out, dropped, kept or copied, and the
   * ones left are one stream: that of the connection and the accepted injections, each where it
   * entered. Whatever was shown or put in on the way is that stream's at its place; a run frozen
   * while nothing was pinned reads the same at its address after every call until release (as each
   * Perform says); an error-free
   * life loses nothing of what the connection delivered; and every buffer is back on the ring.
   */
  method Live(conn: Conn, buf: array<byte>, calls: seq<Call>, scratch: array<byte>)
      returns (t: Story, left: bytes, error: int, ghost log: seq<Piece>)
    requires conn.Valid() && conn.mine == {} && conn.popped == [] && scratch != buf
    modifies conn, buf, scratch
    ensures Entered(log) == t.taken + left && Others(log) == t.put
    ensures forall w :: w in t.shown ==> Fits(w, t.taken + left)
    ensures error == 0 ==> FromConn(log) + Flatten(conn.contents) == conn.delivered
    ensures conn.Valid() && conn.mine == {}
  {
    hide PipeReader.Valid, PipeReader.State, PipeReader.LiveBytes, PipeReader.Need, Others, Entered, FromConn, Fits;
    var pr := new PipeReader(conn, buf);
    NoOthers();
    t := Story([], [], [], []);
    for i := 0 to |calls|
      invariant pr.Valid() && Told(pr, t)
    {
      t := Perform(pr, calls[i], scratch, t);
    }
    pr.Fifo();
    left := Window(pr);
    log, error := pr.log, pr.error;
    pr.Close();
  }
}
