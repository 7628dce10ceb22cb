/**
 * The connection and worker protocol of lib/io/conn.c and lib/io/proactor.c: many connections on
 * one ring, against a kernel that may do anything an armed receive allows. A completion may run a
 * handler inline, which may pause, resume or close its connection before the completion is done
 * with it.
 */
module WorkerProtocol {
  import opened Bytes
  import ConnInput

  const RX_QUEUE: nat := 64
  const ENOBUFS: int := 105
  const EIO: int := 5
  const ECANCELED: int := 125
  const EPROTO: int := 71

  datatype RecvState = Armed | Starved | Paused | Done

  /** Where a connection's coroutine is: not started, running, parked in a call, or over. */
  datatype Pc = Ready | Running | InRecv | InPause | InOp | Gone

  datatype Rec = Rec(recv: RecvState, pausing: bool, cancelling: bool, refs: int, closed: bool, eof: bool, err: int,
                     rx: seq<nat>, held: set<nat>, pc: Pc)

  /** Submissions that matter here: a receive to arm, one to cancel, a socket to close. */
  datatype Sqe = Arm(c: nat) | Cancel(c: nat) | CloseFd(c: nat) | CancelAny

  /** A receive's completion: bytes or an end, whether more follow, and the buffer it used. */
  datatype Cqe = Cqe(c: nat, res: int, more: bool, buf: Option<nat>)

  /** Where a provided buffer is; Loose: in hand, within a step. */
  datatype Place = OnRing | InCq | Queued(c: nat) | Held(c: nat) | Loose

  /** A completion being handled: its receive is over and not yet accounted for, or its reference is still to be dropped. */
  datatype Mark = NoMark | Dying(c: nat) | Owed(c: nat)

  /** What may happen next to a worker: the kernel's doings, completions taken, and the loop's own steps, in any order. */
  datatype Event =
    | Submit | Post(c: nat, res: int, more: bool, withBuf: bool) | Publish
    | Complete | OpDone(c: nat) | Accept(addr: nat) | Start | Sweep | Drain | CancelEach

  /** What a handler does next; it closes when there is nothing left. */
  datatype Act = Take | Pause | Resume | GiveBack(id: nat) | SendOp

  // Projections: what concerns one connection.

  predicate Concerns(e: Sqe, c: nat) {
    e == Arm(c) || e == Cancel(c)
  }

  function About(sq: seq<Sqe>, c: nat): seq<Sqe> {
    if sq == [] then [] else (if Concerns(sq[0], c) then [sq[0]] else []) + About(sq[1..], c)
  }

  function For(cq: seq<Cqe>, c: nat): seq<Cqe> {
    if cq == [] then [] else (if cq[0].c == c then [cq[0]] else []) + For(cq[1..], c)
  }

  function Times(s: seq<nat>, c: nat): nat {
    if s == [] then 0 else (if s[0] == c then 1 else 0) + Times(s[1..], c)
  }

  function Arms(a: seq<Sqe>): nat {
    if a == [] then 0 else (if a[0].Arm? then 1 else 0) + Arms(a[1..])
  }

  /** What is staged behind the first receive to arm. */
  function Behind(a: seq<Sqe>): seq<Sqe> {
    if a == [] then [] else if a[0].Arm? then a[1..] else Behind(a[1..])
  }

  lemma {:induction false} AboutOne(sq: seq<Sqe>, e: Sqe, d: nat)
    ensures About(sq + [e], d) == About(sq, d) + if Concerns(e, d) then [e] else []
  {
    if sq == [] {
      assert [e][1..] == [];
      assert sq + [e] == [e];
    } else {
      var first, last := if Concerns(sq[0], d) then [sq[0]] else [], if Concerns(e, d) then [e] else [];
      assert (sq + [e])[1..] == sq[1..] + [e];
      AboutOne(sq[1..], e, d);
      assert first + (About(sq[1..], d) + last) == first + About(sq[1..], d) + last;
    }
  }

  lemma AboutSnoc(sq: seq<Sqe>, e: Sqe)
    ensures forall d :: About(sq + [e], d) == About(sq, d) + if Concerns(e, d) then [e] else []
  {
    forall d
      ensures About(sq + [e], d) == About(sq, d) + if Concerns(e, d) then [e] else []
    {
      AboutOne(sq, e, d);
    }
  }

  lemma {:induction false} ForOne(cq: seq<Cqe>, e: Cqe, d: nat)
    ensures For(cq + [e], d) == For(cq, d) + if e.c == d then [e] else []
  {
    if cq == [] {
      assert [e][1..] == [];
      assert cq + [e] == [e];
    } else {
      var first, last := if cq[0].c == d then [cq[0]] else [], if e.c == d then [e] else [];
      assert (cq + [e])[1..] == cq[1..] + [e];
      ForOne(cq[1..], e, d);
      assert first + (For(cq[1..], d) + last) == first + For(cq[1..], d) + last;
    }
  }

  lemma ForSnoc(cq: seq<Cqe>, e: Cqe)
    ensures forall d :: For(cq + [e], d) == For(cq, d) + if e.c == d then [e] else []
  {
    forall d
      ensures For(cq + [e], d) == For(cq, d) + if e.c == d then [e] else []
    {
      ForOne(cq, e, d);
    }
  }

  lemma {:induction false} ArmsSnoc(a: seq<Sqe>, e: Sqe)
    ensures Arms(a + [e]) == Arms(a) + if e.Arm? then 1 else 0
    ensures Behind(a + [e]) == if Arms(a) > 0 then Behind(a) + [e] else []
  {
    if a == [] {
      assert a + [e] == [e];
      assert [e][1..] == [];
    } else {
      assert (a + [e])[1..] == a[1..] + [e];
      ArmsSnoc(a[1..], e);
    }
  }

  lemma TimesFront(s: seq<nat>, d: nat)
    requires s != []
    ensures Times(s, d) == (if s[0] == d then 1 else 0) + Times(s[1..], d)
  {
  }

  lemma {:induction false} TimesSnoc(s: seq<nat>, x: nat, d: nat)
    ensures Times(s + [x], d) == Times(s, d) + if x == d then 1 else 0
  {
    if s == [] {
      assert s + [x] == [x];
      assert [x][1..] == [];
    } else {
      assert (s + [x])[1..] == s[1..] + [x];
      TimesSnoc(s[1..], x, d);
    }
  }

  lemma {:induction false} TimesAppend(s: seq<nat>, t: seq<nat>, d: nat)
    ensures Times(s + t, d) == Times(s, d) + Times(t, d)
  {
    if s == [] {
      assert s + t == t;
    } else {
      assert (s + t)[1..] == s[1..] + t;
      TimesAppend(s[1..], t, d);
    }
  }

  lemma {:induction false} TimesHas(s: seq<nat>, d: nat)
    ensures Times(s, d) > 0 <==> d in s
  {
    if s != [] {
      TimesHas(s[1..], d);
      assert d in s <==> d == s[0] || d in s[1..];
    }
  }

  /** A list without the entry at i. */
  function Without(s: seq<nat>, i: nat): seq<nat>
    requires i < |s|
  {
    s[..i] + s[i + 1..]
  }

  lemma TimesWithout(s: seq<nat>, i: nat)
    requires i < |s|
    ensures forall d :: Times(Without(s, i), d) == Times(s, d) - if d == s[i] then 1 else 0
  {
    forall d
      ensures Times(Without(s, i), d) == Times(s, d) - if d == s[i] then 1 else 0
    {
      assert s == s[..i] + ([s[i]] + s[i + 1..]);
      TimesAppend(s[..i], [s[i]] + s[i + 1..], d);
      TimesAppend([s[i]], s[i + 1..], d);
      TimesAppend(s[..i], s[i + 1..], d);
      assert Times([s[i]], d) == (if s[i] == d then 1 else 0) + Times([s[i]][1..], d);
    }
  }

  predicate AllMore(q: seq<Cqe>) {
    forall i :: 0 <= i < |q| ==> q[i].more
  }

  /** A receive the kernel was asked for, is working on, or has ended: one of these, and nothing else in flight. */
  ghost predicate OneReceive(cancelling: bool, a: seq<Sqe>, fly: bool, q: seq<Cqe>) {
    || (Arms(a) == 1 && !fly && q == [] && (cancelling <==> Behind(a) != []))
    || (Arms(a) == 0 && fly && AllMore(q) && (cancelling <==> a != []))
    || (Arms(a) == 0 && !fly && q != [] && !q[|q| - 1].more && AllMore(q[..|q| - 1]))
  }

  ghost predicate NoReceive(a: seq<Sqe>, fly: bool, q: seq<Cqe>) {
    Arms(a) == 0 && !fly && q == []
  }

  /**
   * One connection, and everything outside its record that concerns it: what is staged, in flight
   * and completed for it, how often it is on the starved list, whether a completion of its is half
   * handled, and whether its coroutine is about to be woken.
   */
  ghost predicate Fits(r: Rec, a: seq<Sqe>, fly: bool, q: seq<Cqe>, times: nat, dying: bool, owed: bool, waking: bool, cancelEach: bool) {
    && r.refs == (if r.pc == Gone then 0 else 1) + (if r.recv.Done? then 0 else 1) + (if owed then 1 else 0)
    && r.refs > 0
    && (r.pc == Gone ==> r.closed && r.rx == [] && r.held == {})
    && (r.closed ==> (r.pc == Gone || r.pc == Running) && !r.recv.Starved? && !r.recv.Paused?)
    && (r.recv.Done? ==> r.eof || r.closed)
    && (r.recv.Starved? ==> !r.eof)
    && times == (if r.recv.Starved? then 1 else 0)
    && (dying ==> r.recv.Armed?) && (owed ==> r.recv.Done?)
    && |r.rx| <= RX_QUEUE
    && (if r.recv.Armed? && !dying then OneReceive(r.cancelling, a, fly, q) else NoReceive(a, fly, q))
    && (r.recv.Armed? && r.cancelling ==> r.closed || r.pausing || r.eof || cancelEach)
    && (r.recv.Armed? && !dying && (r.closed || r.pausing) ==> r.cancelling)
    && (r.pausing ==> r.pc == InPause || r.pc == Running)
    && (r.pc == InPause && r.recv.Armed? ==> r.pausing)
    && (r.pc == InPause && !waking ==> r.recv.Armed?)
    && (r.pc == InRecv && !waking ==> r.rx == [] && !r.eof && !r.recv.Paused?)
  }

  /** Everything that says where connections and their receives are. */
  datatype Net = Net(conns: map<nat, Rec>, starved: seq<nat>, sq: seq<Sqe>, cq: seq<Cqe>, armed: set<nat>, mark: Mark, waking: Option<nat>, cancelEach: bool)

  ghost predicate Fitting(n: Net, c: nat)
    requires c in n.conns
  {
    Fits(n.conns[c], About(n.sq, c), c in n.armed, For(n.cq, c), Times(n.starved, c),
         n.mark == Dying(c), n.mark == Owed(c), n.waking == Some(c), n.cancelEach)
  }

  /** Every record fits, and nothing refers to a record that is not in use, but cancels that will find nothing. */
  ghost predicate NetOk(n: Net) {
    && (forall c :: c in n.conns ==> Fitting(n, c))
    && (forall c :: c !in n.conns ==> NoReceive(About(n.sq, c), c in n.armed, For(n.cq, c)) && Times(n.starved, c) == 0)
    && (n.mark != NoMark ==> n.mark.c in n.conns)
  }

  /** Two states differ in what concerns one connection only. */
  ghost predicate SameBut(n: Net, m: Net, c: nat) {
    && m.cancelEach == n.cancelEach
    && (forall d :: d != c ==> (d in m.conns <==> d in n.conns))
    && (forall d :: d != c && d in n.conns && d in m.conns ==> m.conns[d] == n.conns[d])
    && (forall d :: d != c ==> About(m.sq, d) == About(n.sq, d))
    && (forall d :: d != c ==> For(m.cq, d) == For(n.cq, d))
    && (forall d :: d != c ==> (d in m.armed <==> d in n.armed))
    && (forall d :: d != c ==> Times(m.starved, d) == Times(n.starved, d))
    && (n.mark == NoMark || n.mark.c == c) && (m.mark == NoMark || m.mark.c == c)
    && (n.waking == None || n.waking == Some(c)) && (m.waking == None || m.waking == Some(c))
  }

  /** So only that one needs a second look. */
  lemma NetStep(n: Net, m: Net, c: nat)
    requires NetOk(n) && SameBut(n, m, c)
    requires if c in m.conns then Fitting(m, c)
             else NoReceive(About(m.sq, c), c in m.armed, For(m.cq, c)) && Times(m.starved, c) == 0 && (m.mark == NoMark)
    ensures NetOk(m)
  {
    hide Fits, NoReceive;
    forall d | d in m.conns
      ensures Fitting(m, d)
    {
      if d != c {
        assert Fitting(n, d);
      }
    }
  }

  ghost predicate Distinct(s: seq<nat>) {
    forall i, j :: 0 <= i < j < |s| ==> s[i] != s[j]
  }

  // Every buffer is in exactly one place, and every place agrees.

  ghost predicate RingAgrees(place: map<nat, Place>, ring: seq<nat>) {
    && Distinct(ring)
    && (forall id :: id in ring <==> id in place && place[id] == OnRing)
  }

  ghost predicate CqAgrees(place: map<nat, Place>, cq: seq<Cqe>) {
    && (forall i :: 0 <= i < |cq| && cq[i].buf.Some? ==> cq[i].buf.value in place && place[cq[i].buf.value] == InCq)
    && (forall i, j :: 0 <= i < j < |cq| && cq[i].buf.Some? ==> cq[j].buf != cq[i].buf)
    && (forall id :: id in place && place[id] == InCq ==> exists i :: 0 <= i < |cq| && cq[i].buf == Some(id))
  }

  ghost predicate RecAgrees(place: map<nat, Place>, c: nat, r: Rec) {
    && Distinct(r.rx)
    && (forall id :: id in r.rx <==> id in place && place[id] == Queued(c))
    && (forall id :: id in r.held <==> id in place && place[id] == Held(c))
  }

  ghost predicate ConnsAgree(place: map<nat, Place>, conns: map<nat, Rec>) {
    && (forall c :: c in conns ==> RecAgrees(place, c, conns[c]))
    && (forall id :: id in place && (place[id].Queued? || place[id].Held?) ==> place[id].c in conns)
  }

  lemma {:induction false} AboutAppend(sq: seq<Sqe>, more: seq<Sqe>, d: nat)
    ensures About(sq + more, d) == About(sq, d) + About(more, d)
  {
    if sq == [] {
      assert sq + more == more;
    } else {
      var first := if Concerns(sq[0], d) then [sq[0]] else [];
      assert (sq + more)[1..] == sq[1..] + more;
      AboutAppend(sq[1..], more, d);
      assert first + (About(sq[1..], d) + About(more, d)) == first + About(sq[1..], d) + About(more, d);
    }
  }

  lemma AboutSingle(e: Sqe, d: nat)
    ensures About([e], d) == if Concerns(e, d) then [e] else []
  {
    assert [e][1..] == [];
  }

  /** What is staged, and the change of the starved list, concern one connection only. */
  ghost predicate Spares(c: nat, staged: seq<Sqe>, starved: seq<nat>, list: seq<nat>) {
    forall d :: d != c ==> About(staged, d) == [] && Times(list, d) == Times(starved, d)
  }

  /** A connection's record, what is staged for it and its place on the starved list change, and nothing else. */
  lemma NetChange(n: Net, c: nat, r: Rec, staged: seq<Sqe>, starved: seq<nat>, mark: Mark, waking: Option<nat>)
    requires NetOk(n) && c in n.conns
    requires (n.mark == NoMark || n.mark.c == c) && (mark == NoMark || mark.c == c)
    requires (n.waking == None || n.waking == Some(c)) && (waking == None || waking == Some(c))
    requires Spares(c, staged, n.starved, starved)
    requires Fits(r, About(n.sq, c) + About(staged, c), c in n.armed, For(n.cq, c), Times(starved, c),
                  mark == Dying(c), mark == Owed(c), waking == Some(c), n.cancelEach)
    ensures NetOk(n.(conns := n.conns[c := r], sq := n.sq + staged, starved := starved, mark := mark, waking := waking))
  {
    hide Fits, NoReceive, About, For, Times;
    var m := n.(conns := n.conns[c := r], sq := n.sq + staged, starved := starved, mark := mark, waking := waking);
    forall d
      ensures About(m.sq, d) == About(n.sq, d) + About(staged, d)
    {
      AboutAppend(n.sq, staged, d);
    }
    forall d | d != c
      ensures About(m.sq, d) == About(n.sq, d)
    {
      assert About(n.sq, d) + [] == About(n.sq, d);
    }
    NetStep(n, m, c);
  }

  // What each operation does to a connection that fits.

  lemma FitsArm(r: Rec, a: seq<Sqe>, fly: bool, q: seq<Cqe>, times: nat, dying: bool, owed: bool, waking: bool, cancelEach: bool, e: Sqe)
    requires Fits(r, a, fly, q, times, dying, owed, waking, cancelEach) && e.Arm?
    requires if dying then true else r.recv.Paused?
    requires !owed && !r.closed && !r.pausing && !r.eof && (r.pc == InPause ==> r.recv.Armed?)
    ensures Fits(r.(recv := Armed, cancelling := false), a + [e], fly, q, times, false, false, waking, cancelEach)
  {
    ArmsSnoc(a, e);
  }

  /** A coroutine starts running, or goes on. */
  lemma FitsRun(r: Rec, a: seq<Sqe>, fly: bool, q: seq<Cqe>, times: nat, dying: bool, owed: bool, waking: bool, ce: bool)
    requires Fits(r, a, fly, q, times, dying, owed, waking, ce) && r.pc != Gone
    ensures Fits(r.(pc := Running), a, fly, q, times, dying, owed, false, ce)
    ensures r.recv.Armed? && r.pc == InPause ==> r.pausing
    ensures r.pc != InPause && r.pc != Running ==> !r.pausing
    ensures r.pc != Running ==> !r.closed
  {
  }

  /** Nobody waits for this connection's input: there is nothing to wake. */
  lemma FitsAwake(r: Rec, a: seq<Sqe>, fly: bool, q: seq<Cqe>, times: nat, dying: bool, owed: bool, waking: bool, ce: bool)
    requires Fits(r, a, fly, q, times, dying, owed, waking, ce) && r.pc != InRecv && r.pc != InPause
    ensures Fits(r, a, fly, q, times, dying, owed, false, ce)
  {
  }

  /** It parks for input: there is none, and the receive that brings some is armed or waits for a buffer. */
  lemma FitsWait(r: Rec, a: seq<Sqe>, fly: bool, q: seq<Cqe>, times: nat, dying: bool, owed: bool, ce: bool)
    requires Fits(r, a, fly, q, times, dying, owed, false, ce) && r.pc == Running && !r.pausing && !r.closed
    ensures r.rx == [] && !r.eof && !r.recv.Paused? ==> Fits(r.(pc := InRecv), a, fly, q, times, dying, owed, false, ce)
    ensures Fits(r.(pc := InOp), a, fly, q, times, dying, owed, false, ce)
  {
  }

  /** A cancel staged once keeps the receive the one in flight. */
  lemma CancelStaged(r: Rec, a: seq<Sqe>, fly: bool, q: seq<Cqe>, e: Sqe)
    requires e.Cancel?
    ensures var a' := if r.cancelling then a else a + [e];
      && (OneReceive(r.cancelling, a, fly, q) ==> OneReceive(true, a', fly, q))
      && (NoReceive(a, fly, q) ==> NoReceive(a', fly, q))
  {
    ArmsSnoc(a, e);
  }

  lemma FitsPause(r: Rec, a: seq<Sqe>, fly: bool, q: seq<Cqe>, times: nat, dying: bool, owed: bool, ce: bool, e: Sqe)
    requires Fits(r, a, fly, q, times, dying, owed, false, ce) && r.pc == Running && !r.closed && r.recv.Armed? && e.Cancel?
    ensures Fits(r.(pausing := true, cancelling := true, pc := InPause), if r.cancelling then a else a + [e], fly, q, times, dying, owed, false, ce)
  {
    CancelStaged(r, a, fly, q, e);
  }

  lemma FitsClosing(r: Rec, a: seq<Sqe>, fly: bool, q: seq<Cqe>, times: nat, dying: bool, owed: bool, ce: bool, e: Sqe)
    requires Fits(r, a, fly, q, times, dying, owed, false, ce) && r.pc == Running && !r.closed && e.Cancel?
    ensures r.recv.Armed? ==> Fits(r.(closed := true, cancelling := true), if r.cancelling then a else a + [e], fly, q, times, dying, owed, false, ce)
    ensures r.recv.Starved? || r.recv.Paused? ==> Fits(r.(closed := true, recv := Done, refs := r.refs - 1), a, fly, q, 0, dying, owed, false, ce)
    ensures r.recv.Done? ==> Fits(r.(closed := true), a, fly, q, times, dying, owed, false, ce)
  {
    CancelStaged(r, a, fly, q, e);
  }

  /** A wait for a pause is over, or goes on. */
  lemma FitsPaused(r: Rec, a: seq<Sqe>, fly: bool, q: seq<Cqe>, times: nat, dying: bool, owed: bool, ce: bool)
    requires Fits(r, a, fly, q, times, dying, owed, false, ce) && r.pc == Running && !r.closed
    ensures r.recv.Armed? && r.pausing ==> Fits(r.(pc := InPause), a, fly, q, times, dying, owed, false, ce)
    ensures !r.recv.Armed? ==> Fits(r.(pausing := false), a, fly, q, times, dying, owed, false, ce)
    ensures r.recv.Starved? ==> Fits(r.(pausing := false, recv := Paused), a, fly, q, 0, dying, owed, false, ce)
  {
  }

  /** A paused receive ends instead of going on, at shutdown. */
  lemma FitsDrained(r: Rec, a: seq<Sqe>, fly: bool, q: seq<Cqe>, times: nat, dying: bool, owed: bool, ce: bool, err: int)
    requires Fits(r, a, fly, q, times, dying, owed, false, ce) && r.pc == Running && !r.closed && !r.pausing && r.recv.Paused?
    ensures Fits(r.(eof := true, err := err, recv := Done, refs := r.refs - 1), a, fly, q, times, dying, owed, false, ce)
  {
  }

  /** Nothing refers to the record any more. */
  ghost predicate Unused(r: Rec, a: seq<Sqe>, fly: bool, q: seq<Cqe>, times: nat, dying: bool, owed: bool) {
    NoReceive(a, fly, q) && times == 0 && !dying && !owed && r.rx == [] && r.held == {}
  }

  /** The coroutine is over and drops its reference; the last one leaves the record unused. */
  lemma FitsGone(r: Rec, a: seq<Sqe>, fly: bool, q: seq<Cqe>, times: nat, dying: bool, owed: bool, ce: bool)
    requires Fits(r, a, fly, q, times, dying, owed, false, ce) && r.pc == Running && r.closed && !r.pausing && r.rx == [] && r.held == {}
    ensures r.refs > 1 ==> Fits(r.(pc := Gone, refs := r.refs - 1), a, fly, q, times, dying, owed, false, ce)
    ensures r.refs == 1 ==> Unused(r, a, fly, q, times, dying, owed)
    ensures dying || owed || r.recv.Armed? ==> r.refs > 1
  {
  }

  // What a completion does: it is over for the receive (dying), or more follow.

  lemma FitsOver(r: Rec, a: seq<Sqe>, fly: bool, q: seq<Cqe>, times: nat, ce: bool)
    requires Fits(r, a, fly, q, times, true, false, false, ce)
    ensures Fits(r.(cancelling := false), a, fly, q, times, true, false, false, ce)
    // Ended: the coroutine is woken and the reference dropped after it.
    ensures forall err: int :: Fits(r.(eof := true, err := err, recv := Done), a, fly, q, times, false, true, true, ce)
    ensures r.eof || r.closed ==> Fits(r.(recv := Done), a, fly, q, times, false, true, true, ce)
    ensures (r.eof || r.closed) && !r.pausing && r.refs > 1 ==> Fits(r.(recv := Done, refs := r.refs - 1), a, fly, q, times, false, false, false, ce)
    ensures r.refs == 1 ==> Unused(r, a, fly, q, times, false, false) && r.pc == Gone
    // Stopped for a pause.
    ensures r.pausing && !r.closed ==> Fits(r.(pausing := false, recv := Paused), a, fly, q, times, false, false, true, ce)
    // No buffer left.
    ensures !r.pausing && !r.closed && !r.eof ==> Fits(r.(recv := Starved), a, fly, q, 1, false, false, false, ce)
  {
  }

  /** The input ended while the receive goes on, and is cancelled, or while its last completion is handled. */
  lemma FitsEnded(r: Rec, a: seq<Sqe>, fly: bool, q: seq<Cqe>, times: nat, dying: bool, owed: bool, ce: bool, err: int, e: Sqe)
    requires Fits(r, a, fly, q, times, dying, owed, false, ce) && r.recv.Armed? && e.Cancel?
    ensures Fits(r.(eof := true, err := err), a, fly, q, times, dying, owed, true, ce)
    ensures !r.cancelling ==> Fits(r.(eof := true, err := err, cancelling := true), a + [e], fly, q, times, dying, owed, true, ce)
  {
    CancelStaged(r, a, fly, q, e);
  }

  lemma FitsCancelled(r: Rec, a: seq<Sqe>, fly: bool, q: seq<Cqe>, times: nat, e: Sqe)
    requires Fits(r, a, fly, q, times, false, false, false, true) && r.recv.Armed? && e.Cancel? && !r.cancelling
    ensures Fits(r.(cancelling := true), a + [e], fly, q, times, false, false, false, true)
  {
    CancelStaged(r, a, fly, q, e);
  }

  /** A receive that waited for a buffer is staged again. */
  lemma FitsRearm(r: Rec, a: seq<Sqe>, fly: bool, q: seq<Cqe>, times: nat, ce: bool, e: Sqe)
    requires Fits(r, a, fly, q, times, false, false, false, ce) && r.recv.Starved? && e.Arm? && r.pc != Running
    ensures Fits(r.(recv := Armed, cancelling := false), a + [e], fly, q, 0, false, false, false, ce)
  {
    ArmsSnoc(a, e);
  }

  /** ... or ends, at shutdown. */
  lemma FitsUnstarved(r: Rec, a: seq<Sqe>, fly: bool, q: seq<Cqe>, times: nat, ce: bool, err: int)
    requires Fits(r, a, fly, q, times, false, false, false, ce) && r.recv.Starved? && r.pc != Running
    ensures Fits(r.(eof := true, err := err, recv := Done), a, fly, q, 0, false, true, true, ce)
  {
  }

  lemma FitsOwed(r: Rec, a: seq<Sqe>, fly: bool, q: seq<Cqe>, times: nat, ce: bool)
    requires Fits(r, a, fly, q, times, false, true, false, ce)
    ensures r.refs > 1 ==> Fits(r.(refs := r.refs - 1), a, fly, q, times, false, false, false, ce)
    ensures r.refs == 1 ==> Unused(r, a, fly, q, times, false, false) && r.pc == Gone
  {
  }

  // What the kernel does, and what taking a completion does.

  lemma FitsPop(r: Rec, a: seq<Sqe>, fly: bool, q: seq<Cqe>, times: nat, ce: bool)
    requires Fits(r, a, fly, q, times, false, false, false, ce) && q != []
    ensures r.recv.Armed?
    ensures q[0].more ==> Fits(r, a, fly, q[1..], times, false, false, false, ce)
    ensures !q[0].more ==> Fits(r, a, fly, q[1..], times, true, false, false, ce)
  {
    if q[0].more && !fly {
      assert q[..|q| - 1][1..] == q[1..][..|q| - 2];
    }
  }

  /** A submission is consumed: a receive is armed; a cancel ends the receive it finds, one somebody wants ended. */
  lemma FitsConsumed(r: Rec, a: seq<Sqe>, fly: bool, q: seq<Cqe>, times: nat, ce: bool, e: Cqe)
    requires Fits(r, a, fly, q, times, false, false, false, ce) && a != [] && !e.more
    requires forall i :: 0 <= i < |a| ==> a[i].Arm? || a[i].Cancel?
    ensures a[0].Arm? ==> !fly && Fits(r, a[1..], true, q, times, false, false, false, ce)
    ensures a[0].Cancel? && fly ==> (r.closed || r.pausing || r.eof || ce) && Fits(r, a[1..], false, q + [e], times, false, false, false, ce)
    ensures a[0].Cancel? && !fly ==> Fits(r, a[1..], false, q, times, false, false, false, ce)
  {
    assert Arms(a) == (if a[0].Arm? then 1 else 0) + Arms(a[1..]);
    assert (q + [e])[..|q|] == q;
    if a[0].Arm? {
      BehindIsCancels(a);
    }
  }

  lemma BehindIsCancels(a: seq<Sqe>)
    requires a != [] && a[0].Arm? && Arms(a) == 1
    ensures Behind(a) == a[1..] && Arms(a[1..]) == 0
  {
  }

  /** A completion is posted for an armed receive. */
  lemma FitsPosted(r: Rec, a: seq<Sqe>, q: seq<Cqe>, times: nat, ce: bool, e: Cqe)
    requires Fits(r, a, true, q, times, false, false, false, ce)
    ensures Fits(r, a, e.more, q + [e], times, false, false, false, ce)
  {
    assert (q + [e])[..|q|] == q;
  }

  lemma {:induction false} AboutKinds(sq: seq<Sqe>, c: nat)
    ensures forall i :: 0 <= i < |About(sq, c)| ==> About(sq, c)[i].Arm? || About(sq, c)[i].Cancel?
  {
    if sq != [] {
      AboutKinds(sq[1..], c);
    }
  }

  /** No connection's completion is half handled. */
  ghost predicate Quiet(n: Net) {
    n.mark == NoMark && n.waking == None
  }

  /** The oldest completion is taken. */
  lemma NetPop(n: Net)
    requires NetOk(n) && Quiet(n) && n.cq != []
    ensures n.cq[0].c in n.conns && n.conns[n.cq[0].c].recv.Armed?
    ensures NetOk(n.(cq := n.cq[1..], mark := if n.cq[0].more then NoMark else Dying(n.cq[0].c)))
  {
    hide Fits, NoReceive, About, Times;
    var c := n.cq[0].c;
    var m := n.(cq := n.cq[1..], mark := if n.cq[0].more then NoMark else Dying(c));
    assert For(n.cq, c) == [n.cq[0]] + For(n.cq[1..], c);
    SomeFor(n, c);
    NetFits(n, c);
    FitsPop(n.conns[c], About(n.sq, c), c in n.armed, For(n.cq, c), Times(n.starved, c), n.cancelEach);
    assert For(n.cq, c)[1..] == For(m.cq, c);
    forall d | d != c
      ensures For(m.cq, d) == For(n.cq, d)
    {
      assert [] + For(n.cq[1..], d) == For(n.cq[1..], d);
    }
    NetStep(n, m, c);
  }

  lemma SomeFor(n: Net, c: nat)
    requires NetOk(n) && For(n.cq, c) != []
    ensures c in n.conns
  {
  }

  /** The oldest submission is consumed. */
  function Consumed(n: Net): Net
    requires n.sq != []
  {
    match n.sq[0]
    case Arm(c) => n.(sq := n.sq[1..], armed := n.armed + {c})
    case Cancel(c) =>
      if c in n.armed then n.(sq := n.sq[1..], armed := n.armed - {c}, cq := n.cq + [Cqe(c, -ECANCELED, false, None)])
      else n.(sq := n.sq[1..])
    case _ => n.(sq := n.sq[1..])
  }

  lemma NetConsumed(n: Net)
    requires NetOk(n) && Quiet(n) && n.sq != []
    ensures NetOk(Consumed(n))
    ensures n.sq[0].Cancel? && n.sq[0].c in n.armed ==>
      n.sq[0].c in n.conns && var r := n.conns[n.sq[0].c]; r.closed || r.pausing || r.eof || n.cancelEach
  {
    hide NetOk, About;
    match n.sq[0] {
      case Arm(c) => NetConsumedOne(n, c, Consumed(n));
      case Cancel(c) => NetConsumedOne(n, c, Consumed(n));
      case other => NetConsumedNone(n, Consumed(n));
    }
  }

  lemma NetConsumedOne(n: Net, c: nat, m: Net)
    requires NetOk(n) && Quiet(n) && n.sq != [] && Concerns(n.sq[0], c) && m == Consumed(n)
    ensures NetOk(m)
    ensures n.sq[0].Cancel? && c in n.armed ==> c in n.conns && var r := n.conns[c]; r.closed || r.pausing || r.eof || n.cancelEach
  {
    hide Fits, For, Times;
    var e := n.sq[0];
    var post := Cqe(c, -ECANCELED, false, None);
    assert About(n.sq, c) == [e] + About(n.sq[1..], c) && About(n.sq, c)[1..] == About(m.sq, c);
    ForSnoc(n.cq, post);
    forall d | d != c
      ensures About(m.sq, d) == About(n.sq, d) && For(m.cq, d) == For(n.cq, d)
    {
      assert For(n.cq, d) + [] == For(n.cq, d);
      assert [] + About(n.sq[1..], d) == About(n.sq[1..], d);
    }
    if c in n.conns {
      NetFits(n, c);
      AboutKinds(n.sq, c);
      FitsConsumed(n.conns[c], About(n.sq, c), c in n.armed, For(n.cq, c), Times(n.starved, c), n.cancelEach, post);
    }
    NetStep(n, m, c);
  }

  lemma NetConsumedNone(n: Net, m: Net)
    requires NetOk(n) && Quiet(n) && n.sq != [] && !n.sq[0].Arm? && !n.sq[0].Cancel? && m == n.(sq := n.sq[1..])
    ensures NetOk(m)
  {
    hide NetOk;
    forall d
      ensures About(m.sq, d) == About(n.sq, d)
    {
      assert [] + About(n.sq[1..], d) == About(n.sq[1..], d);
    }
    NetSame(n, m);
  }

  /** Nothing that concerns a connection changed. */
  lemma NetSame(n: Net, m: Net)
    requires NetOk(n) && Quiet(n) && m == n.(sq := m.sq) && forall d :: About(m.sq, d) == About(n.sq, d)
    ensures NetOk(m)
  {
    hide Fits, NoReceive, About, For, Times;
    forall d | d in m.conns
      ensures Fitting(m, d)
    {
      assert Fitting(n, d);
    }
  }

  /** The kernel posts a completion for an armed receive. */
  lemma NetPosted(n: Net, e: Cqe)
    requires NetOk(n) && Quiet(n) && e.c in n.armed
    ensures NetOk(n.(cq := n.cq + [e], armed := if e.more then n.armed else n.armed - {e.c}))
  {
    hide Fits, About, Times;
    var c := e.c;
    var m := n.(cq := n.cq + [e], armed := if e.more then n.armed else n.armed - {c});
    ForSnoc(n.cq, e);
    forall d | d != c
      ensures For(m.cq, d) == For(n.cq, d)
    {
      assert For(n.cq, d) + [] == For(n.cq, d);
    }
    assert c in n.conns;
    NetFits(n, c);
    FitsPosted(n.conns[c], About(n.sq, c), For(n.cq, c), Times(n.starved, c), n.cancelEach, e);
    NetStep(n, m, c);
  }

  /** A new connection, in a record nothing refers to: its receive is staged, behind cancels of the record's last one. */
  lemma NetNew(n: Net, c: nat, r: Rec)
    requires NetOk(n) && Quiet(n) && c !in n.conns
    requires r == Rec(Armed, false, false, 2, false, false, 0, [], {}, Ready)
    ensures NetOk(n.(conns := n.conns[c := r], sq := n.sq + [Arm(c)]))
  {
    hide For, Times;
    var m := n.(conns := n.conns[c := r], sq := n.sq + [Arm(c)]);
    AboutSnoc(n.sq, Arm(c));
    ArmsSnoc(About(n.sq, c), Arm(c));
    forall d | d != c
      ensures About(m.sq, d) == About(n.sq, d)
    {
      assert About(n.sq, d) + [] == About(n.sq, d);
    }
    NetStep(n, m, c);
  }

  lemma NetCancelEach(n: Net)
    requires NetOk(n) && Quiet(n)
    ensures NetOk(n.(cancelEach := true))
  {
    hide NoReceive, About, For, Times, OneReceive;
    forall d | d in n.conns
      ensures Fitting(n.(cancelEach := true), d)
    {
      assert Fitting(n, d);
    }
  }

  // A buffer that moves leaves the places it does not concern as they are.

  lemma RingGets(place: map<nat, Place>, ring: seq<nat>, id: nat)
    requires RingAgrees(place, ring) && id in place && place[id] != OnRing
    ensures RingAgrees(place[id := OnRing], ring + [id])
  {
  }

  lemma RingLoses(place: map<nat, Place>, ring: seq<nat>, to: Place)
    requires RingAgrees(place, ring) && ring != [] && to != OnRing
    ensures RingAgrees(place[ring[0] := to], ring[1..]) && ring[0] in place && place[ring[0]] == OnRing
  {
    assert ring[0] in ring;
    forall id: nat
      ensures id in ring[1..] <==> id in ring && id != ring[0]
    {
      if id in ring[1..] {
        var k :| 0 <= k < |ring[1..]| && ring[1..][k] == id;
        assert ring[k + 1] == id;
      }
    }
  }

  lemma RingSame(place: map<nat, Place>, ring: seq<nat>, id: nat, to: Place)
    requires RingAgrees(place, ring) && id in place && place[id] != OnRing && to != OnRing
    ensures RingAgrees(place[id := to], ring)
  {
  }

  lemma CqGets(place: map<nat, Place>, cq: seq<Cqe>, e: Cqe)
    requires CqAgrees(place, cq) && (e.buf.Some? ==> e.buf.value in place && place[e.buf.value] != InCq)
    ensures CqAgrees(if e.buf.Some? then place[e.buf.value := InCq] else place, cq + [e])
  {
    var place' := if e.buf.Some? then place[e.buf.value := InCq] else place;
    var cq' := cq + [e];
    forall id | id in place' && place'[id] == InCq
      ensures exists i :: 0 <= i < |cq'| && cq'[i].buf == Some(id)
    {
      if e.buf == Some(id) {
        assert cq'[|cq|].buf == Some(id);
      } else {
        var i :| 0 <= i < |cq| && cq[i].buf == Some(id);
        assert cq'[i].buf == Some(id);
      }
    }
  }

  lemma CqLoses(place: map<nat, Place>, cq: seq<Cqe>)
    requires CqAgrees(place, cq) && cq != []
    ensures cq[0].buf.Some? ==> cq[0].buf.value in place && place[cq[0].buf.value] == InCq
    ensures CqAgrees(if cq[0].buf.Some? then place[cq[0].buf.value := Loose] else place, cq[1..])
  {
    var place' := if cq[0].buf.Some? then place[cq[0].buf.value := Loose] else place;
    forall id | id in place' && place'[id] == InCq
      ensures exists i :: 0 <= i < |cq[1..]| && cq[1..][i].buf == Some(id)
    {
      var i :| 0 <= i < |cq| && cq[i].buf == Some(id);
      assert cq[1..][i - 1].buf == Some(id);
    }
  }

  lemma CqSame(place: map<nat, Place>, cq: seq<Cqe>, id: nat, to: Place)
    requires CqAgrees(place, cq) && id in place && place[id] != InCq && to != InCq
    ensures CqAgrees(place[id := to], cq)
  {
  }

  predicate AtConn(p: Place) {
    p.Queued? || p.Held?
  }

  lemma ConnsSame(place: map<nat, Place>, conns: map<nat, Rec>, id: nat, to: Place)
    requires ConnsAgree(place, conns) && id in place && !AtConn(place[id]) && !AtConn(to)
    ensures ConnsAgree(place[id := to], conns)
  {
    forall c | c in conns
      ensures RecAgrees(place[id := to], c, conns[c])
    {
      assert RecAgrees(place, c, conns[c]);
    }
  }

  /** A record changed, its buffers did not. */
  lemma ConnsRec(place: map<nat, Place>, conns: map<nat, Rec>, c: nat, r: Rec)
    requires ConnsAgree(place, conns) && c in conns && r.rx == conns[c].rx && r.held == conns[c].held
    ensures ConnsAgree(place, conns[c := r])
  {
    assert RecAgrees(place, c, conns[c]);
  }

  /** A buffer in hand joins a connection's queue. */
  lemma QueueGets(place: map<nat, Place>, conns: map<nat, Rec>, c: nat, r: Rec, id: nat)
    requires ConnsAgree(place, conns) && c in conns && id in place && place[id] == Loose
    requires r.rx == conns[c].rx + [id] && r.held == conns[c].held
    ensures ConnsAgree(place[id := Queued(c)], conns[c := r])
  {
    assert RecAgrees(place, c, conns[c]);
    assert RecAgrees(place[id := Queued(c)], c, r);
    forall d | d in conns && d != c
      ensures RecAgrees(place[id := Queued(c)], d, conns[d])
    {
      assert RecAgrees(place, d, conns[d]);
    }
  }

  /** The oldest queued buffer goes to the reader, or into hand. */
  lemma QueueLoses(place: map<nat, Place>, conns: map<nat, Rec>, c: nat, r: Rec, keep: bool)
    requires ConnsAgree(place, conns) && c in conns && conns[c].rx != []
    requires r.rx == conns[c].rx[1..] && r.held == conns[c].held + if keep then {conns[c].rx[0]} else {}
    ensures var id := conns[c].rx[0];
      && id in place && place[id] == Queued(c)
      && ConnsAgree(place[id := if keep then Held(c) else Loose], conns[c := r])
  {
    var id := conns[c].rx[0];
    var place' := place[id := if keep then Held(c) else Loose];
    assert RecAgrees(place, c, conns[c]);
    assert id in conns[c].rx;
    forall x
      ensures x in r.rx <==> x in conns[c].rx && x != id
    {
      if x in r.rx {
        var k :| 0 <= k < |r.rx| && r.rx[k] == x;
        assert conns[c].rx[k + 1] == x;
      }
    }
    assert RecAgrees(place', c, r);
    forall d | d in conns && d != c
      ensures RecAgrees(place', d, conns[d])
    {
      assert RecAgrees(place, d, conns[d]);
    }
  }

  /** A buffer the reader holds is taken in hand. */
  lemma HeldLoses(place: map<nat, Place>, conns: map<nat, Rec>, c: nat, r: Rec, id: nat)
    requires ConnsAgree(place, conns) && c in conns && id in conns[c].held
    requires r.rx == conns[c].rx && r.held == conns[c].held - {id}
    ensures id in place && place[id] == Held(c) && ConnsAgree(place[id := Loose], conns[c := r])
  {
    assert RecAgrees(place, c, conns[c]);
    assert RecAgrees(place[id := Loose], c, r);
    forall d | d in conns && d != c
      ensures RecAgrees(place[id := Loose], d, conns[d])
    {
      assert RecAgrees(place, d, conns[d]);
    }
  }

  /** A record without buffers comes, or goes. */
  lemma ConnGone(place: map<nat, Place>, conns: map<nat, Rec>, c: nat)
    requires ConnsAgree(place, conns) && c in conns && conns[c].rx == [] && conns[c].held == {}
    ensures ConnsAgree(place, conns - {c})
  {
    assert RecAgrees(place, c, conns[c]);
    assert forall id :: id in place ==> place[id] != Queued(c) && place[id] != Held(c);
  }

  lemma ConnNew(place: map<nat, Place>, conns: map<nat, Rec>, c: nat, r: Rec)
    requires ConnsAgree(place, conns) && c !in conns && r.rx == [] && r.held == {}
    ensures ConnsAgree(place, conns[c := r])
  {
    forall id | id in place && AtConn(place[id])
      ensures place[id].c != c
    {
    }
    assert RecAgrees(place, c, r);
  }

  ghost predicate BuffersOk(count: nat, place: map<nat, Place>, ring: seq<nat>, published: nat, cq: seq<Cqe>, conns: map<nat, Rec>) {
    && (forall id: nat :: id in place <==> id < count)
    && RingAgrees(place, ring) && CqAgrees(place, cq) && ConnsAgree(place, conns)
    && published <= |ring|
  }

  /** The connections are counted, the pool holds none of them, and the ones to start are waiting to. */
  ghost predicate CountsOk(conns: map<nat, Rec>, live: nat, pool: seq<nat>, ready: seq<nat>) {
    && live == |conns|
    && Distinct(pool) && (forall c :: c in pool ==> c !in conns)
    && (forall c :: c in ready ==> c in conns && conns[c].pc == Ready)
    && Distinct(ready)
  }

  /** A record changes, and neither its buffers nor its being started. */
  lemma OthersRec(count: nat, place: map<nat, Place>, ring: seq<nat>, published: nat, cq: seq<Cqe>, conns: map<nat, Rec>,
                  live: nat, pool: seq<nat>, ready: seq<nat>, c: nat, r: Rec)
    requires BuffersOk(count, place, ring, published, cq, conns) && CountsOk(conns, live, pool, ready)
    requires c in conns && r.rx == conns[c].rx && r.held == conns[c].held && (c in ready ==> r.pc == Ready)
    ensures BuffersOk(count, place, ring, published, cq, conns[c := r]) && CountsOk(conns[c := r], live, pool, ready)
  {
    hide RingAgrees, CqAgrees, ConnsAgree;
    ConnsRec(place, conns, c, r);
    SameKeys(conns, c, r);
  }

  lemma SameKeys(conns: map<nat, Rec>, c: nat, r: Rec)
    requires c in conns
    ensures |conns[c := r]| == |conns|
  {
    assert conns[c := r].Keys == conns.Keys;
  }

  /**
   * Each starved connection's turn: when that many returned buffers have been swept in all, it has
   * been served; the ones before it on the list are due before it.
   */
  ghost predicate FairOk(starved: seq<nat>, swept: nat, due: map<nat, nat>) {
    forall i :: 0 <= i < |starved| ==> starved[i] in due && swept + i + 1 <= due[starved[i]]
  }

  lemma FairWithout(starved: seq<nat>, swept: nat, due: map<nat, nat>, i: nat)
    requires FairOk(starved, swept, due) && i < |starved|
    ensures FairOk(Without(starved, i), swept, due)
  {
    var list := Without(starved, i);
    forall k | 0 <= k < |list|
      ensures list[k] in due && swept + k + 1 <= due[list[k]]
    {
      assert list[k] == if k < i then starved[k] else starved[k + 1];
    }
  }

  /** The first one is served: one more of the buffers returned is swept. */
  lemma FairFirst(starved: seq<nat>, swept: nat, due: map<nat, nat>)
    requires FairOk(starved, swept, due) && starved != []
    ensures FairOk(starved[1..], swept + 1, due) && FairOk(starved[1..], swept, due)
  {
    forall k | 0 <= k < |starved[1..]|
      ensures starved[1..][k] in due && swept + 1 + k + 1 <= due[starved[1..][k]]
    {
      assert starved[1..][k] == starved[k + 1];
    }
  }

  lemma FairLast(starved: seq<nat>, swept: nat, due: map<nat, nat>, c: nat)
    requires FairOk(starved, swept, due) && Times(starved, c) == 0
    ensures FairOk(starved, swept, due[c := swept + |starved| + 1]) && FairOk(starved + [c], swept, due[c := swept + |starved| + 1])
  {
    TimesHas(starved, c);
    forall i | 0 <= i < |starved|
      ensures starved[i] != c
    {
      assert starved[i] in starved;
    }
  }

  /** The connection is on every one of the lists. */
  ghost predicate Stays(lists: seq<seq<nat>>, c: nat) {
    forall j :: 0 <= j < |lists| ==> c in lists[j]
  }

  lemma StaysMore(lists: seq<seq<nat>>, list: seq<nat>)
    ensures forall c :: Stays(lists + [list], c) <==> Stays(lists, c) && c in list
  {
    forall c
      ensures Stays(lists + [list], c) <==> Stays(lists, c) && c in list
    {
      var more := lists + [list];
      assert more[|lists|] == list && forall j :: 0 <= j < |lists| ==> more[j] == lists[j];
    }
  }

  /** Turns by the places on the list. */
  ghost function DueAt(starved: seq<nat>, swept: nat): map<nat, nat> {
    if starved == [] then map[]
    else DueAt(starved[..|starved| - 1], swept)[starved[|starved| - 1] := swept + |starved|]
  }

  lemma {:induction false} Deadlines(starved: seq<nat>, swept: nat)
    requires Distinct(starved)
    ensures forall k :: 0 <= k < |starved| ==> starved[k] in DueAt(starved, swept) && DueAt(starved, swept)[starved[k]] == swept + k + 1
  {
    if starved != [] {
      var n := |starved| - 1;
      Deadlines(starved[..n], swept);
      forall k | 0 <= k < n
        ensures starved[k] in DueAt(starved, swept) && DueAt(starved, swept)[starved[k]] == swept + k + 1
      {
        assert starved[..n][k] == starved[k] && starved[k] != starved[n];
      }
    }
  }

  lemma {:induction false} OnceEach(s: seq<nat>)
    requires forall c :: c in s ==> Times(s, c) == 1
    ensures Distinct(s)
  {
    if s != [] {
      forall c | c in s[1..]
        ensures Times(s[1..], c) == 1 && c != s[0]
      {
        TimesHas(s[1..], c);
        assert c in s;
      }
      OnceEach(s[1..]);
      forall i, j | 0 <= i < j < |s|
        ensures s[i] != s[j]
      {
        assert s[j] == s[1..][j - 1] && s[1..][j - 1] in s[1..];
        assert i > 0 ==> s[i] == s[1..][i - 1];
      }
    }
  }

  /** What the kernel posts: an error ends the receive, and ENOBUFS carries no buffer. */
  predicate Plausible(e: Cqe) {
    (e.res <= 0 ==> !e.more) && (e.res == -ENOBUFS ==> e.buf.None?)
  }

  class Worker {
    const count: nat
    const poolMax: nat
    /** Whose listener has certificates: the kernel decrypts, and says -EIO when such a peer says it is done. */
    const tls: nat -> bool
    var conns: map<nat, Rec>
    var starved: seq<nat>
    var sq: seq<Sqe>
    var cq: seq<Cqe>
    var armed: set<nat>
    var ring: seq<nat>
    var published: nat
    var returned: nat
    var live: nat
    var pool: seq<nat>
    var draining: bool
    var cancelEach: bool
    var ready: seq<nat>
    /** What the handlers do, run after run. */
    var script: seq<Act>
    ghost var place: map<nat, Place>
    ghost var mark: Mark
    ghost var waking: Option<nat>
    /** How many returned buffers the sweeps have counted, and when each starved connection is due. */
    ghost var swept: nat
    ghost var due: map<nat, nat>

    ghost function N(): Net
      reads this`conns, this`starved, this`sq, this`cq, this`armed, this`mark, this`waking, this`cancelEach
    {
      Net(conns, starved, sq, cq, armed, mark, waking, cancelEach)
    }

    ghost predicate Buffers()
      reads this`conns, this`cq, this`ring, this`published, this`place
    {
      BuffersOk(count, place, ring, published, cq, conns)
    }

    ghost predicate Counts()
      reads this`conns, this`live, this`pool, this`ready
    {
      CountsOk(conns, live, pool, ready)
    }

    ghost predicate Valid()
      reads this
    {
      NetOk(N()) && Buffers() && Counts() && FairOk(starved, swept, due)
    }

    /** Between two steps: no completion half handled, no buffer in hand, no coroutine running. */
    ghost predicate Settled()
      reads this
    {
      && Valid() && mark == NoMark && waking == None
      && (forall i :: 0 <= i < |cq| ==> Plausible(cq[i]))
      && (forall id :: id in place ==> place[id] != Loose)
      && (forall c :: c in conns ==> conns[c].pc != Running)
    }

    // The operations of the protocol.

    /** ioxd__bufring_return: a buffer in hand goes back to the ring. */
    method Return(id: nat)
      requires Buffers() && id in place && place[id] == Loose
      modifies this`ring, this`returned, this`place
      ensures Buffers() && ring == old(ring) + [id] && returned == old(returned) + 1
      ensures place == old(place)[id := OnRing]
      ensures |old(ring)| < count
    {
      hide RingAgrees, CqAgrees, ConnsAgree;
      RoomOnRing(place, ring, count, id);
      RingGets(place, ring, id);
      CqSame(place, cq, id, OnRing);
      ConnsSame(place, conns, id, OnRing);
      ring := ring + [id];
      returned := returned + 1;
      place := place[id := OnRing];
    }

    /** What one connection's business leaves alone: the others, the completions, and what is about none in particular. */
    twostate predicate OnlyAbout(c: nat)
      reads this
    {
      && conns - {c} == old(conns) - {c}
      && cq == old(cq) && armed == old(armed) && ready == old(ready) && draining == old(draining) && cancelEach == old(cancelEach)
      && old(returned) <= returned && old(sq) <= sq
    }

    /** A coroutine's calls take connections off the starved list, and put none on it. */
    twostate predicate Shrinks()
      reads this`starved
    {
      |starved| <= |old(starved)|
    }

    /** Whoever was waiting for a buffer is due no later. */
    twostate predicate StillDue()
      reads this`due, this`starved
    {
      forall d :: d in old(starved) && d in old(due) ==> d in due && due[d] == old(due)[d]
    }

    /** No further buffer is left in hand. */
    twostate predicate Tidy()
      reads this`place
    {
      && place.Keys == old(place).Keys
      && forall id :: id in place && place[id] == Loose ==> old(place)[id] == Loose
    }

    /** Marks concern the connection at hand, if any. */
    ghost predicate Marked(c: nat)
      reads this`mark, this`waking
    {
      (mark == NoMark || mark.c == c) && (waking == None || waking == Some(c))
    }

    /** A worker before its first connection: every buffer is on the ring. */
    constructor (count: nat, poolMax: nat, tls: nat -> bool, script: seq<Act>)
      ensures Settled() && this.count == count && this.poolMax == poolMax && this.tls == tls && this.script == script && live == 0
    {
      this.count, this.poolMax, this.tls, this.script := count, poolMax, tls, script;
      conns, starved, sq, cq, armed := map[], [], [], [], {};
      ring, published, returned := seq(count, i => i), count, 0;
      live, pool, draining, cancelEach, ready := 0, [], false, false, [];
      place := AllOnRing(count);
      mark, waking, swept, due := NoMark, None, 0, map[];
      new;
      RingFull(count);
    }

    /** What a connection's fit is judged by. */
    ghost predicate FitsNow(c: nat, r: Rec, staged: seq<Sqe>, list: seq<nat>, m: Mark, w: Option<nat>)
      reads this`sq, this`cq, this`armed, this`cancelEach
    {
      Fits(r, About(sq, c) + About(staged, c), c in armed, For(cq, c), Times(list, c), m == Dying(c), m == Owed(c), w == Some(c), cancelEach)
    }

    /** Store a connection's record, with what is staged for it and how the starved list changes. */
    method Set(c: nat, r: Rec, staged: seq<Sqe>, list: seq<nat>, ghost m: Mark, ghost w: Option<nat>)
      requires Valid() && c in conns && Marked(c) && (m == NoMark || m.c == c) && (w == None || w == Some(c))
      requires r.rx == conns[c].rx && r.held == conns[c].held && (c in ready ==> r.pc == Ready)
      requires Spares(c, staged, starved, list) && FairOk(list, swept, due)
      requires FitsNow(c, r, staged, list, m, w)
      modifies this`conns, this`sq, this`starved, this`mark, this`waking
      ensures Valid() && conns == old(conns)[c := r] && sq == old(sq) + staged && starved == list && mark == m && waking == w
      ensures OnlyAbout(c)
    {
      hide FairOk, BuffersOk, CountsOk, NetOk, Fits, About, For, Times, Spares;
      ghost var n := N();
      ghost var n' := n.(conns := n.conns[c := r], sq := n.sq + staged, starved := list, mark := m, waking := w);
      assert NetOk(n') by {
        NetChange(n, c, r, staged, list, m, w);
      }
      OthersRec(count, place, ring, published, cq, conns, live, pool, ready, c, r);
      Store(c, r, staged, list, m, w);
      assert N() == n';
    }

    method Store(c: nat, r: Rec, staged: seq<Sqe>, list: seq<nat>, ghost m: Mark, ghost w: Option<nat>)
      modifies this`conns, this`sq, this`starved, this`mark, this`waking
      ensures conns == old(conns)[c := r] && sq == old(sq) + staged && starved == list && mark == m && waking == w
      ensures OnlyAbout(c)
    {
      MinusSet(conns, c, r);
      conns := conns[c := r];
      sq := sq + staged;
      starved := list;
      mark := m;
      waking := w;
    }

    lemma ItFits(c: nat)
      requires Valid() && c in conns
      ensures FitsNow(c, conns[c], [], starved, mark, waking)
      ensures c in ready ==> conns[c].pc == Ready
    {
      hide FairOk, BuffersOk, Fits, About, For, Times;
      NetFits(N(), c);
      assert About(sq, c) + [] == About(sq, c);
      NoneStaged(c);
    }

    /** Store a record alone. */
    method Put(c: nat, r: Rec, ghost m: Mark, ghost w: Option<nat>)
      requires Valid() && c in conns && Marked(c) && (m == NoMark || m.c == c) && (w == None || w == Some(c))
      requires r.rx == conns[c].rx && r.held == conns[c].held && (c in ready ==> r.pc == Ready)
      requires FitsNow(c, r, [], starved, m, w)
      modifies this`conns, this`sq, this`starved, this`mark, this`waking
      ensures Valid() && conns == old(conns)[c := r] && mark == m && waking == w && sq == old(sq) && starved == old(starved)
      ensures OnlyAbout(c)
    {
      hide FairOk, BuffersOk, CountsOk, NetOk, Fits, About, For, Times;
      forall d | d != c
        ensures About([], d) == []
      {
        NoneStaged(d);
      }
      assert sq + [] == sq;
      Set(c, r, [], starved, m, w);
    }

    /** A fit, in terms of what is staged for c and what is about to be. */
    lemma Staged(c: nat, e: Sqe)
      ensures About(sq, c) + About([], c) == About(sq, c)
      ensures Concerns(e, c) ==> About(sq, c) + About([e], c) == About(sq, c) + [e] && Spares(c, [e], starved, starved)
      ensures !e.Arm? && !e.Cancel? ==> About(sq, c) + About([e], c) == About(sq, c) && Spares(c, [e], starved, starved)
      ensures Spares(c, [], starved, starved)
    {
      hide For, Times;
      NoneStaged(c);
      AboutSingle(e, c);
      forall d | d != c
        ensures About([e], d) == (if Concerns(e, d) then [e] else []) && About([], d) == []
      {
        AboutSingle(e, d);
        NoneStaged(d);
      }
      assert About(sq, c) + [] == About(sq, c);
    }

    /** ioxd__conn_arm_recv. */
    method ArmRecv(c: nat)
      requires Valid() && c in conns && Marked(c) && waking == None
      requires mark == Dying(c) || conns[c].recv.Paused?
      requires mark != Owed(c) && !conns[c].closed && !conns[c].pausing && !conns[c].eof && (conns[c].pc == InPause ==> conns[c].recv.Armed?)
      modifies this`conns, this`sq, this`starved, this`mark, this`waking
      ensures Valid() && mark == NoMark && waking == None && starved == old(starved) && OnlyAbout(c)
      ensures conns == old(conns)[c := old(conns)[c].(recv := Armed, cancelling := false)]
    {
      hide FairOk, BuffersOk, CountsOk, NetOk, Fits, About, For, Times;
      ItFits(c);
      Staged(c, Arm(c));
      FitsArm(conns[c], About(sq, c), c in armed, For(cq, c), Times(starved, c), mark == Dying(c), mark == Owed(c), waking == Some(c), cancelEach, Arm(c));
      Set(c, conns[c].(recv := Armed, cancelling := false), [Arm(c)], starved, NoMark, None);
    }

    // A coroutine's calls. Each runs to where it parks or goes on; true: it parked.

    /** The coroutine of c is running, for a completion of c's if for any. */
    ghost predicate IsRunning(c: nat)
      reads this`conns, this`mark, this`waking, this`ready
    {
      c in conns && conns[c].pc == Running && Marked(c) && waking == None && c !in ready
    }

    /** ioxd__conn_recv_item, one turn of its loop. A handler does not wait for input it paused. */
    method RecvItem(c: nat) returns (parked: bool)
      requires Valid() && IsRunning(c) && !conns[c].pausing && !conns[c].closed
      modifies this`conns, this`sq, this`starved, this`mark, this`waking, this`place
      ensures Valid() && OnlyAbout(c) && Tidy() && Shrinks() && mark == old(mark) && waking == None && c in conns && !conns[c].closed && !conns[c].pausing
      ensures if parked then conns[c].pc == InRecv else IsRunning(c)
      ensures conns[c].recv == old(conns)[c].recv
      ensures old(conns)[c].rx != [] ==> !parked && conns[c].rx == old(conns)[c].rx[1..] && conns[c].held == old(conns)[c].held + {old(conns)[c].rx[0]}
      ensures parked ==> conns[c].recv.Armed? || conns[c].recv.Starved?
    {
      hide FairOk, BuffersOk, CountsOk, NetOk, Fits, About, For, Times;
      parked := false;
      if conns[c].rx != [] {
        TakeOldest(c, true);
      } else if !conns[c].eof && !conns[c].recv.Paused? {
        ItFits(c);
        Staged(c, CancelAny);
        FitsWait(conns[c], About(sq, c), c in armed, For(cq, c), Times(starved, c), mark == Dying(c), mark == Owed(c), cancelEach);
        Put(c, conns[c].(pc := InRecv), mark, None);
        parked := true;
        Parked(c);
      }
    }

    lemma Parked(c: nat)
      requires Valid() && c in conns && conns[c].pc == InRecv && waking == None
      ensures conns[c].recv.Armed? || conns[c].recv.Starved?
    {
      hide FairOk, BuffersOk, CountsOk, About, For, Times;
      NetFits(N(), c);
    }

    /** The oldest queued buffer goes to the reader, or in hand. */
    method TakeOldest(c: nat, keep: bool)
      requires Valid() && IsRunning(c) && conns[c].rx != []
      modifies this`conns, this`place, this`waking
      ensures Valid() && OnlyAbout(c) && IsRunning(c)
      ensures var id := old(conns)[c].rx[0];
        && conns == old(conns)[c := old(conns)[c].(rx := old(conns)[c].rx[1..], held := old(conns)[c].held + if keep then {id} else {})]
        && id in old(place) && place == old(place)[id := if keep then Held(c) else Loose]
    {
      hide FairOk, BuffersOk, CountsOk, NetOk, About, For, Times, OneReceive, NoReceive;
      var r := conns[c].(rx := conns[c].rx[1..], held := conns[c].held + if keep then {conns[c].rx[0]} else {});
      ItFits(c);
      BuffersTake(count, place, ring, published, cq, conns, c, r, keep);
      Rebuffer(c, r, conns[c].rx[0], if keep then Held(c) else Loose, None);
    }

    /** Store a record whose buffers changed, with where a buffer went. */
    method Rebuffer(c: nat, r: Rec, ghost id: nat, ghost to: Place, ghost w: Option<nat>)
      requires Valid() && c in conns && Marked(c) && (w == None || w == Some(c)) && (c in ready ==> r.pc == Ready)
      requires BuffersOk(count, place[id := to], ring, published, cq, conns[c := r])
      requires FitsNow(c, r, [], starved, mark, w)
      modifies this`conns, this`place, this`waking
      ensures Valid() && conns == old(conns)[c := r] && place == old(place)[id := to] && waking == w && OnlyAbout(c)
    {
      hide FairOk, BuffersOk, CountsOk, NetOk, Fits, About, For, Times, Spares;
      ghost var n := N();
      Staged(c, CancelAny);
      NetChange(n, c, r, [], starved, mark, w);
      assert sq + [] == sq;
      CountsRec(conns, live, pool, ready, c, r);
      conns := conns[c := r];
      place := place[id := to];
      waking := w;
      assert N() == n.(conns := n.conns[c := r], sq := n.sq + [], starved := starved, mark := mark, waking := w);
      MinusSet(old(conns), c, r);
    }

    /** Stop a pause's wait, or a receive that waits for a buffer, for good. */
    method FinishPause(c: nat)
      requires Valid() && IsRunning(c) && !conns[c].recv.Armed? && !conns[c].closed
      modifies this`conns, this`sq, this`starved, this`mark, this`waking
      ensures Valid() && OnlyAbout(c) && Shrinks() && mark == old(mark) && IsRunning(c)
      ensures conns[c] == old(conns)[c].(pausing := false, recv := if old(conns)[c].recv.Starved? then Paused else old(conns)[c].recv)
    {
      hide FairOk, BuffersOk, CountsOk, NetOk, Fits, About, For, Times;
      ItFits(c);
      Staged(c, CancelAny);
      FitsPaused(conns[c], About(sq, c), c in armed, For(cq, c), Times(starved, c), mark == Dying(c), mark == Owed(c), cancelEach);
      if conns[c].recv.Starved? {
        var list := Unlisted(c);
        Set(c, conns[c].(pausing := false, recv := Paused), [], list, mark, None);
        assert old(sq) + [] == old(sq);
      } else {
        Put(c, conns[c].(pausing := false), mark, None);
      }
    }

    /** starved_remove: the list without c, which is on it once. */
    method Unlisted(c: nat) returns (list: seq<nat>)
      requires Valid() && c in conns && conns[c].recv.Starved?
      ensures Times(list, c) == 0 && Spares(c, [], starved, list) && FairOk(list, swept, due)
      ensures exists i :: 0 <= i < |starved| && starved[i] == c && list == Without(starved, i)
    {
      hide FairOk, BuffersOk, CountsOk, About, For;
      NetFits(N(), c);
      TimesHas(starved, c);
      var i := 0;
      while starved[i] != c
        invariant 0 <= i < |starved| && forall k :: 0 <= k < i ==> starved[k] != c
        decreases |starved| - i
      {
        i := i + 1;
        if i == |starved| {
          assert false;
        }
      }
      list := Without(starved, i);
      FairWithout(starved, swept, due, i);
      TimesWithout(starved, i);
      forall d
        ensures About([], d) == []
      {
        NoneStaged(d);
      }
    }

    /** ioxd__conn_recv_pause: cancel an armed receive and wait for its end. */
    method Pause(c: nat) returns (parked: bool)
      requires Valid() && IsRunning(c) && !conns[c].pausing && !conns[c].closed
      modifies this`conns, this`sq, this`starved, this`mark, this`waking
      ensures Valid() && OnlyAbout(c) && Shrinks() && mark == old(mark) && waking == None && c in conns && !conns[c].closed
      ensures parked == old(conns)[c].recv.Armed?
      ensures if parked then conns[c].pc == InPause && conns[c].recv.Armed? && conns[c].cancelling else IsRunning(c) && !conns[c].pausing && !conns[c].recv.Armed?
    {
      hide FairOk, BuffersOk, CountsOk, NetOk, Fits, About, For, Times;
      if !conns[c].recv.Armed? {
        FinishPause(c);
        return false;
      }
      var staged := if conns[c].cancelling then [] else [Cancel(c)];
      ItFits(c);
      Staged(c, Cancel(c));
      FitsPause(conns[c], About(sq, c), c in armed, For(cq, c), Times(starved, c), mark == Dying(c), mark == Owed(c), cancelEach, Cancel(c));
      Set(c, conns[c].(pausing := true, cancelling := true, pc := InPause), staged, starved, mark, None);
      return true;
    }

    /** The rest of it, woken: back to waiting while the receive is armed. */
    method PauseOn(c: nat) returns (parked: bool)
      requires Valid() && IsRunning(c) && !conns[c].closed && (conns[c].recv.Armed? ==> conns[c].pausing)
      modifies this`conns, this`sq, this`starved, this`mark, this`waking
      ensures Valid() && OnlyAbout(c) && Shrinks() && mark == old(mark) && waking == None && c in conns && !conns[c].closed
      ensures parked == old(conns)[c].recv.Armed?
      ensures if parked then conns[c].pc == InPause && conns[c].recv.Armed? else IsRunning(c) && !conns[c].pausing && !conns[c].recv.Armed?
    {
      hide FairOk, BuffersOk, CountsOk, NetOk, Fits, About, For, Times;
      if !conns[c].recv.Armed? {
        FinishPause(c);
        return false;
      }
      ItFits(c);
      Staged(c, CancelAny);
      FitsPaused(conns[c], About(sq, c), c in armed, For(cq, c), Times(starved, c), mark == Dying(c), mark == Owed(c), cancelEach);
      Put(c, conns[c].(pc := InPause), mark, None);
      return true;
    }

    /** ioxd__conn_recv_resume. */
    method Resume(c: nat) returns (ok: bool)
      requires Valid() && IsRunning(c) && !conns[c].pausing && !conns[c].closed
      modifies this`conns, this`sq, this`starved, this`mark, this`waking
      ensures Valid() && OnlyAbout(c) && Shrinks() && mark == old(mark) && IsRunning(c) && !conns[c].closed && !conns[c].pausing
      ensures ok <==> old(conns)[c].recv.Paused? && !old(conns)[c].eof && !draining
      ensures ok ==> conns[c].recv.Armed? && !conns[c].cancelling
      ensures old(conns)[c].recv.Armed? ==> conns[c].recv.Armed?
    {
      hide FairOk, BuffersOk, CountsOk, NetOk, Fits, About, For, Times;
      if !conns[c].recv.Paused? || conns[c].eof || conns[c].closed {
        return false;
      }
      NotMarked(c);
      if draining {
        ItFits(c);
        Staged(c, CancelAny);
        FitsDrained(conns[c], About(sq, c), c in armed, For(cq, c), Times(starved, c), mark == Dying(c), mark == Owed(c), cancelEach, -ECANCELED);
        Put(c, conns[c].(eof := true, err := -ECANCELED, recv := Done, refs := conns[c].refs - 1), mark, None);
        return false;
      }
      ArmRecv(c);
      return true;
    }

    /** A paused receive is not one whose completion is being handled. */
    lemma NotMarked(c: nat)
      requires Valid() && c in conns && conns[c].recv.Paused? && Marked(c)
      ensures mark == NoMark
    {
      hide FairOk, BuffersOk, CountsOk, About, For, Times;
      NetFits(N(), c);
    }

    /** The reader gives a buffer back. */
    method GiveBack(c: nat, id: nat)
      requires Valid() && IsRunning(c) && id in conns[c].held
      modifies this`conns, this`place, this`waking, this`ring, this`returned
      ensures Valid() && OnlyAbout(c) && Tidy() && IsRunning(c) && mark == old(mark)
      ensures conns == old(conns)[c := old(conns)[c].(held := old(conns)[c].held - {id})] && ring == old(ring) + [id]
    {
      hide FairOk, BuffersOk, CountsOk, NetOk, About, For, Times, OneReceive, NoReceive;
      var r := conns[c].(held := conns[c].held - {id});
      ItFits(c);
      BuffersGive(count, place, ring, published, cq, conns, c, r, id);
      Rebuffer(c, r, id, Loose, None);
      Return(id);
    }

    /** A send, or another operation, is staged and waited for. */
    method ParkInOp(c: nat)
      requires Valid() && IsRunning(c) && !conns[c].pausing && !conns[c].closed
      modifies this`conns, this`sq, this`starved, this`mark, this`waking
      ensures Valid() && OnlyAbout(c) && Shrinks() && mark == old(mark) && waking == None
      ensures conns == old(conns)[c := old(conns)[c].(pc := InOp)]
    {
      hide FairOk, BuffersOk, CountsOk, NetOk, Fits, About, For, Times;
      ItFits(c);
      Staged(c, CancelAny);
      FitsWait(conns[c], About(sq, c), c in armed, For(cq, c), Times(starved, c), mark == Dying(c), mark == Owed(c), cancelEach);
      Put(c, conns[c].(pc := InOp), mark, None);
    }

    /**
     * ioxd__conn_close, at the end of the coroutine: the receive is cancelled, or ended if none is
     * armed; what was queued goes back; the socket is closed; and the coroutine's reference dropped.
     */
    method Close(c: nat)
      requires Valid() && IsRunning(c) && !conns[c].pausing && !conns[c].closed
      modifies this`conns, this`sq, this`starved, this`mark, this`waking, this`place, this`ring, this`returned, this`live, this`pool
      ensures Valid() && OnlyAbout(c) && Tidy() && Shrinks() && mark == old(mark) && waking == None
      ensures c in conns ==> conns[c].pc == Gone && conns[c].closed
      ensures mark != NoMark ==> c in conns
      ensures old(conns)[c].recv.Armed? ==> c in conns && conns[c].recv.Armed?
    {
      hide FairOk, BuffersOk, CountsOk, NetOk, Fits, About, For, Times;
      GiveAll(c);
      StopRecv(c);
      DrainQueue(c);
      CloseSocket(c);
      Leave(c);
    }

    /** The reader's close: every buffer it holds goes back. */
    method GiveAll(c: nat)
      requires Valid() && IsRunning(c)
      modifies this`conns, this`place, this`waking, this`ring, this`returned
      ensures Valid() && OnlyAbout(c) && Tidy() && IsRunning(c) && mark == old(mark) && starved == old(starved) && live == old(live) && pool == old(pool)
      ensures conns[c] == old(conns)[c].(held := {})
    {
      hide FairOk, BuffersOk, CountsOk, NetOk, Fits, About, For, Times;
      while conns[c].held != {}
        invariant Valid() && IsRunning(c) && OnlyAbout(c) && Tidy()
        invariant conns[c].(held := {}) == old(conns)[c].(held := {})
        decreases |conns[c].held|
      {
        var id :| id in conns[c].held;
        GiveBack(c, id);
      }
    }

    /** The receive of a connection that closes. */
    method StopRecv(c: nat)
      requires Valid() && IsRunning(c) && !conns[c].pausing && !conns[c].closed
      modifies this`conns, this`sq, this`starved, this`mark, this`waking
      ensures Valid() && OnlyAbout(c) && Shrinks() && mark == old(mark) && IsRunning(c)
      ensures conns[c].closed && !conns[c].pausing && conns[c].rx == old(conns)[c].rx && conns[c].held == old(conns)[c].held
      ensures conns[c].recv == if old(conns)[c].recv.Armed? then Armed else Done
    {
      hide FairOk, BuffersOk, CountsOk, NetOk, Fits, About, For, Times;
      var r := conns[c];
      ItFits(c);
      Staged(c, Cancel(c));
      FitsClosing(r, About(sq, c), c in armed, For(cq, c), Times(starved, c), mark == Dying(c), mark == Owed(c), cancelEach, Cancel(c));
      if r.recv.Armed? {
        var staged := if r.cancelling then [] else [Cancel(c)];
        Set(c, r.(closed := true, cancelling := true), staged, starved, mark, None);
      } else if r.recv.Starved? {
        var list := Unlisted(c);
        Set(c, r.(closed := true, recv := Done, refs := r.refs - 1), [], list, mark, None);
      } else if r.recv.Paused? {
        Unlisting(c);
        Put(c, r.(closed := true, recv := Done, refs := r.refs - 1), mark, None);
      } else {
        Put(c, r.(closed := true), mark, None);
      }
    }

    /** A receive that is only paused is on no list. */
    lemma Unlisting(c: nat)
      requires Valid() && c in conns && !conns[c].recv.Starved?
      ensures Times(starved, c) == 0
    {
      hide FairOk, BuffersOk, CountsOk, About, For, Times;
      NetFits(N(), c);
    }

    method DrainQueue(c: nat)
      requires Valid() && IsRunning(c) && conns[c].closed
      modifies this`conns, this`place, this`waking, this`ring, this`returned
      ensures Valid() && OnlyAbout(c) && Tidy() && IsRunning(c) && mark == old(mark)
      ensures conns[c] == old(conns)[c].(rx := [])
    {
      hide FairOk, BuffersOk, CountsOk, NetOk, Fits, About, For, Times;
      while conns[c].rx != []
        invariant Valid() && IsRunning(c) && OnlyAbout(c) && Tidy()
        invariant conns[c].(rx := []) == old(conns)[c].(rx := [])
        decreases |conns[c].rx|
      {
        ReturnOldest(c);
      }
    }

    method ReturnOldest(c: nat)
      requires Valid() && IsRunning(c) && conns[c].rx != []
      modifies this`conns, this`place, this`waking, this`ring, this`returned
      ensures Valid() && OnlyAbout(c) && Tidy() && IsRunning(c) && mark == old(mark)
      ensures conns[c] == old(conns)[c].(rx := old(conns)[c].rx[1..])
    {
      hide FairOk, BuffersOk, CountsOk, NetOk, Fits, About, For, Times;
      var id := conns[c].rx[0];
      TakeOldest(c, false);
      Return(id);
    }

    /** ioxd__conn_close_socket. */
    method CloseSocket(c: nat)
      requires Valid() && IsRunning(c)
      modifies this`conns, this`sq, this`starved, this`mark, this`waking
      ensures Valid() && OnlyAbout(c) && Shrinks() && conns == old(conns) && mark == old(mark) && IsRunning(c)
    {
      hide FairOk, BuffersOk, CountsOk, NetOk, Fits, About, For, Times;
      ItFits(c);
      Staged(c, CloseFd(c));
      Set(c, conns[c], [CloseFd(c)], starved, mark, None);
      assert conns == old(conns);
    }

    /** The coroutine is over; conn_unref. */
    method Leave(c: nat)
      requires Valid() && IsRunning(c) && conns[c].closed && !conns[c].pausing && conns[c].rx == [] && conns[c].held == {}
      modifies this`conns, this`sq, this`starved, this`mark, this`waking, this`live, this`pool
      ensures Valid() && OnlyAbout(c) && Shrinks() && mark == old(mark) && waking == None
      ensures c in conns ==> conns[c].pc == Gone && conns[c].closed
      ensures mark != NoMark ==> c in conns
      ensures old(conns)[c].recv.Armed? ==> c in conns && conns[c].recv.Armed?
    {
      hide FairOk, BuffersOk, CountsOk, NetOk, Fits, About, For, Times;
      ItFits(c);
      Staged(c, CancelAny);
      FitsGone(conns[c], About(sq, c), c in armed, For(cq, c), Times(starved, c), mark == Dying(c), mark == Owed(c), cancelEach);
      SomeRefs(c);
      Unref(c, conns[c].(pc := Gone), mark);
    }

    /** conn_unref: without references a record goes to the pool, or is freed. */
    method Unref(c: nat, r: Rec, ghost m: Mark)
      requires Valid() && c in conns && Marked(c) && (m == NoMark || m.c == c) && waking == None && c !in ready
      requires r.rx == conns[c].rx && r.held == conns[c].held && r.refs == conns[c].refs
      requires r.refs > 1 ==> FitsNow(c, r.(refs := r.refs - 1), [], starved, m, None)
      requires r.refs == 1 ==> Unused(conns[c], About(sq, c), c in armed, For(cq, c), Times(starved, c), m == Dying(c), m == Owed(c)) && m == NoMark
      requires r.refs > 0
      modifies this`conns, this`sq, this`starved, this`mark, this`waking, this`live, this`pool
      ensures Valid() && OnlyAbout(c) && starved == old(starved) && mark == m && waking == None
      ensures conns == if r.refs == 1 then old(conns) - {c} else old(conns)[c := r.(refs := r.refs - 1)]
    {
      hide FairOk, BuffersOk, CountsOk, NetOk, Fits, About, For, Times;
      if r.refs > 1 {
        Put(c, r.(refs := r.refs - 1), m, None);
        return;
      }
      NetFree(N(), c);
      Free(c);
    }

    method Free(c: nat)
      requires Valid() && c in conns && c !in ready
      requires NetOk(N().(conns := conns - {c}, mark := NoMark)) && conns[c].rx == [] && conns[c].held == {}
      modifies this`conns, this`live, this`pool, this`mark
      ensures Valid() && OnlyAbout(c) && conns == old(conns) - {c} && mark == NoMark
    {
      hide FairOk, BuffersOk, CountsOk, NetOk, Marked;
      ghost var m := N().(conns := conns - {c}, mark := NoMark);
      assert NetOk(m);
      BuffersGone(count, place, ring, published, cq, m.conns, conns, c);
      CountsGone(conns, live, pool, ready, c, m.conns);
      Drop(c);
      mark := NoMark;
      assert N() == m;
    }

    method Drop(c: nat)
      requires live > 0
      modifies this`conns, this`live, this`pool
      ensures conns == old(conns) - {c} && live == old(live) - 1 && OnlyAbout(c)
      ensures pool == old(pool) || pool == [c] + old(pool)
    {
      MinusMinus(conns, c);
      conns := conns - {c};
      live := live - 1;
      if |pool| < poolMax {
        pool := [c] + pool;
      }
    }

    // Completions.

    /** The coroutine of c runs until it parks or is over. */
    method RunCoroutine(c: nat)
      requires Valid() && c in conns && conns[c].pc != Gone && conns[c].pc != Running && Marked(c) && c !in ready
      modifies this`conns, this`sq, this`starved, this`mark, this`waking, this`place, this`ring, this`returned, this`live, this`pool, this`script
      ensures Valid() && OnlyAbout(c) && Tidy() && Shrinks() && mark == old(mark) && waking == None
      ensures c in conns ==> conns[c].pc != Running
      ensures mark != NoMark ==> c in conns
      ensures old(conns)[c].recv.Armed? ==> c in conns && conns[c].recv.Armed?
    {
      hide FairOk, BuffersOk, CountsOk, NetOk, Fits, About, For, Times;
      var parked := GoOn(c);
      while !parked && script != []
        invariant Valid() && OnlyAbout(c) && Shrinks() && Tidy() && mark == old(mark) && waking == None && c in conns
        invariant old(conns)[c].recv.Armed? ==> conns[c].recv.Armed?
        invariant parked ==> conns[c].pc != Running
        invariant !parked ==> IsRunning(c) && !conns[c].pausing && !conns[c].closed
        decreases |script|
      {
        var act := script[0];
        script := script[1..];
        parked := Perform(c, act);
      }
      if !parked {
        Close(c);
      }
    }

    /** The coroutine starts, or finishes the call it was parked in; true: it parked again. */
    method GoOn(c: nat) returns (parked: bool)
      requires Valid() && c in conns && conns[c].pc != Gone && conns[c].pc != Running && Marked(c) && c !in ready
      modifies this`conns, this`sq, this`starved, this`mark, this`waking, this`place
      ensures Valid() && OnlyAbout(c) && Tidy() && Shrinks() && mark == old(mark) && waking == None && c in conns
      ensures old(conns)[c].recv.Armed? ==> conns[c].recv.Armed?
      ensures if parked then conns[c].pc != Running else IsRunning(c) && !conns[c].pausing && !conns[c].closed
    {
      hide FairOk, BuffersOk, CountsOk, NetOk, Fits, About, For, Times;
      var pc := conns[c].pc;
      ItFits(c);
      Staged(c, CancelAny);
      FitsRun(conns[c], About(sq, c), c in armed, For(cq, c), Times(starved, c), mark == Dying(c), mark == Owed(c), waking == Some(c), cancelEach);
      Put(c, conns[c].(pc := Running), mark, None);
      parked := false;
      if pc == InRecv {
        parked := RecvItem(c);
      } else if pc == InPause {
        parked := PauseOn(c);
      }
    }

    method Perform(c: nat, act: Act) returns (parked: bool)
      requires Valid() && IsRunning(c) && !conns[c].pausing && !conns[c].closed
      modifies this`conns, this`sq, this`starved, this`mark, this`waking, this`place, this`ring, this`returned
      ensures Valid() && OnlyAbout(c) && Tidy() && Shrinks() && mark == old(mark) && waking == None && c in conns
      ensures old(conns)[c].recv.Armed? ==> conns[c].recv.Armed?
      ensures if parked then conns[c].pc != Running else IsRunning(c) && !conns[c].pausing && !conns[c].closed
    {
      hide FairOk, BuffersOk, CountsOk, NetOk, Fits, About, For, Times;
      parked := false;
      match act {
        case Take =>
          parked := RecvItem(c);
        case Pause =>
          parked := Pause(c);
        case Resume =>
          var ok := Resume(c);
        case GiveBack(id) =>
          if id in conns[c].held {
            GiveBack(c, id);
          }
        case SendOp =>
          ParkInOp(c);
          parked := true;
      }
    }

    /** wake_reader: run the coroutine if it waits for this connection's input. */
    method Wake(c: nat)
      requires Valid() && c in conns && conns[c].pc != Running && Marked(c)
      modifies this`conns, this`sq, this`starved, this`mark, this`waking, this`place, this`ring, this`returned, this`live, this`pool, this`script
      ensures Valid() && OnlyAbout(c) && Tidy() && Shrinks() && mark == old(mark) && waking == None
      ensures c in conns ==> conns[c].pc != Running
      ensures mark != NoMark ==> c in conns
      ensures old(conns)[c].recv.Armed? ==> c in conns && conns[c].recv.Armed?
    {
      hide FairOk, BuffersOk, CountsOk, NetOk, Fits, About, For, Times;
      ItFits(c);
      if conns[c].pc == InRecv || conns[c].pc == InPause {
        NotToStart(c);
        RunCoroutine(c);
      } else {
        Staged(c, CancelAny);
        FitsAwake(conns[c], About(sq, c), c in armed, For(cq, c), Times(starved, c), mark == Dying(c), mark == Owed(c), waking == Some(c), cancelEach);
        Put(c, conns[c], mark, None);
      }
    }

    lemma NotToStart(c: nat)
      requires Valid() && c in conns && conns[c].pc != Ready
      ensures c !in ready
    {
      hide FairOk, BuffersOk, NetOk;
    }

    /** The receive ended for a pause: the coroutine that waits for that goes on. */
    method Stopped(c: nat)
      requires Valid() && c in conns && mark == Dying(c) && waking == None && conns[c].pausing && !conns[c].closed && conns[c].pc != Running
      modifies this`conns, this`sq, this`starved, this`mark, this`waking, this`place, this`ring, this`returned, this`live, this`pool, this`script
      ensures Valid() && OnlyAbout(c) && Tidy() && mark == NoMark && waking == None && (c in conns ==> conns[c].pc != Running)
    {
      hide FairOk, BuffersOk, CountsOk, NetOk, Fits, About, For, Times;
      ItFits(c);
      Staged(c, CancelAny);
      FitsOver(conns[c], About(sq, c), c in armed, For(cq, c), Times(starved, c), cancelEach);
      Put(c, conns[c].(pausing := false, recv := Paused), NoMark, Some(c));
      Wake(c);
    }

    /** It found no buffer: parked until some return. */
    method Starve(c: nat)
      requires Valid() && c in conns && mark == Dying(c) && waking == None && !conns[c].pausing && !conns[c].closed && !conns[c].eof
      modifies this`conns, this`sq, this`starved, this`mark, this`waking, this`due
      ensures Valid() && OnlyAbout(c) && mark == NoMark && waking == None && starved == old(starved) + [c]
      ensures conns == old(conns)[c := old(conns)[c].(recv := RecvState.Starved)] && due == old(due)[c := swept + |old(starved)| + 1]
    {
      hide FairOk, BuffersOk, CountsOk, NetOk, Fits, About, For, Times;
      ItFits(c);
      Staged(c, CancelAny);
      FitsOver(conns[c], About(sq, c), c in armed, For(cq, c), Times(starved, c), cancelEach);
      DyingUnlisted(c);
      forall d
        ensures About([], d) == [] && Times(starved + [c], d) == Times(starved, d) + if c == d then 1 else 0
      {
        NoneStaged(d);
        TimesSnoc(starved, c, d);
      }
      FairLast(starved, swept, due, c);
      due := due[c := swept + |starved| + 1];
      Set(c, conns[c].(recv := RecvState.Starved), [], starved + [c], NoMark, None);
      assert old(sq) + [] == old(sq);
    }

    lemma DyingUnlisted(c: nat)
      requires Valid() && c in conns && mark == Dying(c)
      ensures Times(starved, c) == 0 && conns[c].recv.Armed?
    {
      hide FairOk, BuffersOk, CountsOk, About, For, Times;
      NetFits(N(), c);
    }

    /** It ended: the reason is noted, the coroutine woken, and only then the receive's reference dropped. */
    method EndRecv(c: nat, err: int)
      requires Valid() && c in conns && mark == Dying(c) && waking == None && conns[c].pc != Running
      modifies this`conns, this`sq, this`starved, this`mark, this`waking, this`place, this`ring, this`returned, this`live, this`pool, this`script
      ensures Valid() && OnlyAbout(c) && Tidy() && mark == NoMark && waking == None && (c in conns ==> conns[c].pc != Running)
    {
      hide FairOk, BuffersOk, CountsOk, NetOk, Fits, About, For, Times;
      var r := conns[c];
      ItFits(c);
      Staged(c, CancelAny);
      FitsOver(r, About(sq, c), c in armed, For(cq, c), Times(starved, c), cancelEach);
      if r.eof {
        EofStays(r);
      }
      Put(c, r.(eof := true, err := if r.eof then r.err else err, recv := Done), Owed(c), Some(c));
      Wake(c);
      DropRef(c);
    }

    /** conn_unref for the receive that ended. */
    method DropRef(c: nat)
      requires Valid() && c in conns && mark == Owed(c) && waking == None && conns[c].pc != Running
      modifies this`conns, this`sq, this`starved, this`mark, this`waking, this`live, this`pool
      ensures Valid() && OnlyAbout(c) && mark == NoMark && waking == None && (c in conns ==> conns[c].pc != Running)
      ensures starved == old(starved)
    {
      hide FairOk, BuffersOk, CountsOk, NetOk, Fits, About, For, Times;
      ItFits(c);
      Staged(c, CancelAny);
      FitsOwed(conns[c], About(sq, c), c in armed, For(cq, c), Times(starved, c), cancelEach);
      SomeRefs(c);
      UnrefReceive(c, conns[c]);
    }

    /** The receive's reference goes; the coroutine is not one that has yet to start, if it is the last. */
    method UnrefReceive(c: nat, r: Rec)
      requires Valid() && c in conns && Marked(c) && waking == None
      requires r.rx == conns[c].rx && r.held == conns[c].held && r.refs == conns[c].refs && r.pc == conns[c].pc
      requires r.refs > 1 ==> FitsNow(c, r.(refs := r.refs - 1), [], starved, NoMark, None)
      requires r.refs == 1 ==> Unused(conns[c], About(sq, c), c in armed, For(cq, c), Times(starved, c), false, false) && r.pc == Gone
      requires r.refs > 0
      modifies this`conns, this`sq, this`starved, this`mark, this`waking, this`live, this`pool
      ensures Valid() && OnlyAbout(c) && starved == old(starved) && mark == NoMark && waking == None
      ensures conns == if r.refs == 1 then old(conns) - {c} else old(conns)[c := r.(refs := r.refs - 1)]
    {
      hide FairOk, BuffersOk, CountsOk, NetOk, Fits, About, For, Times;
      ItFits(c);
      if r.refs > 1 {
        Put(c, r.(refs := r.refs - 1), NoMark, None);
      } else {
        Unref(c, r, NoMark);
      }
    }

    /** It ended, and nobody waits: a closed connection, or one whose input had ended. */
    method EndQuiet(c: nat)
      requires Valid() && c in conns && mark == Dying(c) && waking == None && (conns[c].closed || conns[c].eof) && !conns[c].pausing && conns[c].pc != Running
      modifies this`conns, this`sq, this`starved, this`mark, this`waking, this`live, this`pool
      ensures Valid() && OnlyAbout(c) && mark == NoMark && waking == None && (c in conns ==> conns[c].pc != Running)
    {
      hide FairOk, BuffersOk, CountsOk, NetOk, Fits, About, For, Times;
      ItFits(c);
      Staged(c, CancelAny);
      FitsOver(conns[c], About(sq, c), c in armed, For(cq, c), Times(starved, c), cancelEach);
      SomeRefs(c);
      UnrefReceive(c, conns[c].(recv := Done));
    }

    lemma SomeRefs(c: nat)
      requires Valid() && c in conns
      ensures conns[c].refs > 0
    {
      hide FairOk, BuffersOk, CountsOk, About, For, Times;
      NetFits(N(), c);
    }

    /** end_input while more completions may follow: the receive is cancelled, and the coroutine woken to see the end. */
    method EndInput(c: nat, err: int, cancel: bool)
      requires Valid() && c in conns && waking == None && conns[c].pc != Running
      requires mark == (if cancel then NoMark else Dying(c)) && conns[c].recv.Armed?
      modifies this`conns, this`sq, this`starved, this`mark, this`waking, this`place, this`ring, this`returned, this`live, this`pool, this`script
      ensures Valid() && OnlyAbout(c) && Tidy() && mark == old(mark) && waking == None && c in conns && conns[c].pc != Running && conns[c].recv.Armed?
    {
      hide FairOk, BuffersOk, CountsOk, NetOk, Fits, About, For, Times;
      var r := conns[c].(eof := true, err := if conns[c].eof then conns[c].err else err);
      ItFits(c);
      Staged(c, Cancel(c));
      FitsEnded(conns[c], About(sq, c), c in armed, For(cq, c), Times(starved, c), mark == Dying(c), mark == Owed(c), cancelEach, r.err, Cancel(c));
      if cancel && !r.cancelling {
        Set(c, r.(cancelling := true), [Cancel(c)], starved, mark, Some(c));
      } else {
        if conns[c].eof {
          EofSame(conns[c]);
        }
        Put(c, r, mark, Some(c));
      }
      Wake(c);
    }

    /** A received buffer joins the queue, and the coroutine that waits for one is woken. */
    method Queue(c: nat, id: nat)
      requires Valid() && c in conns && waking == None && conns[c].pc != Running && Marked(c) && conns[c].recv.Armed?
      requires id in place && place[id] == Loose && |conns[c].rx| < RX_QUEUE && !conns[c].closed
      modifies this`conns, this`sq, this`starved, this`mark, this`waking, this`place, this`ring, this`returned, this`live, this`pool, this`script
      ensures Valid() && OnlyAbout(c) && Tidy() && mark == old(mark) && waking == None && c in conns && conns[c].pc != Running && conns[c].recv.Armed?
      ensures id in place && place[id] != Loose
    {
      hide FairOk, BuffersOk, CountsOk, NetOk, About, For, Times, OneReceive, NoReceive;
      var r := conns[c].(rx := conns[c].rx + [id]);
      ItFits(c);
      BuffersQueue(count, place, ring, published, cq, conns, c, r, id);
      Rebuffer(c, r, id, Queued(c), Some(c));
      Wake(c);
    }

    /**
     * ioxd__conn_on_recv. The completion's buffer is in hand, and a completion that ends the receive
     * has it marked as dying.
     */
    method OnRecv(c: nat, res: int, more: bool, buf: Option<nat>)
      requires Valid() && c in conns && waking == None && conns[c].pc != Running && conns[c].recv.Armed?
      requires mark == (if more then NoMark else Dying(c))
      requires res <= 0 ==> !more
      requires buf.Some? ==> res != -ENOBUFS && buf.value in place && place[buf.value] == Loose
      modifies this`conns, this`sq, this`starved, this`mark, this`waking, this`place, this`ring, this`returned, this`live, this`pool, this`script, this`due
      ensures Valid() && OnlyAbout(c) && Tidy() && mark == NoMark && waking == None && (c in conns ==> conns[c].pc != Running)
      ensures buf.Some? ==> buf.value in place && place[buf.value] != Loose
      ensures due - {c} == old(due) - {c}
    {
      hide FairOk, BuffersOk, CountsOk, NetOk, Fits, About, For, Times;
      if !more {
        NotCancelling(c);
      }
      if res <= 0 {
        Failed(c, res, buf);
        return;
      }
      Received(c, more, buf);
      if !more {
        Ended(c);
      } else if cancelEach && !conns[c].closed {
        CancelOne(c);
      }
    }

    /** A completion that ends the receive: no cancel is in flight any more. */
    method NotCancelling(c: nat)
      requires Valid() && c in conns && mark == Dying(c) && waking == None
      modifies this`conns, this`sq, this`starved, this`mark, this`waking
      ensures Valid() && OnlyAbout(c) && mark == old(mark) && waking == None
      ensures conns == old(conns)[c := old(conns)[c].(cancelling := false)]
    {
      hide FairOk, BuffersOk, CountsOk, NetOk, Fits, About, For, Times;
      ItFits(c);
      Staged(c, CancelAny);
      FitsOver(conns[c], About(sq, c), c in armed, For(cq, c), Times(starved, c), cancelEach);
      Put(c, conns[c].(cancelling := false), mark, None);
    }

    /** A completion without bytes: no buffer was left, a pause's cancel, or the end of the input. */
    method Failed(c: nat, res: int, buf: Option<nat>)
      requires Valid() && c in conns && waking == None && conns[c].pc != Running && mark == Dying(c)
      requires buf.Some? ==> res != -ENOBUFS && buf.value in place && place[buf.value] == Loose
      modifies this`conns, this`sq, this`starved, this`mark, this`waking, this`place, this`ring, this`returned, this`live, this`pool, this`script, this`due
      ensures Valid() && OnlyAbout(c) && Tidy() && mark == NoMark && waking == None && (c in conns ==> conns[c].pc != Running)
      ensures buf.Some? ==> buf.value in place && place[buf.value] != Loose
      ensures due - {c} == old(due) - {c}
    {
      hide FairOk, BuffersOk, CountsOk, NetOk, Fits, About, For, Times;
      DyingFacts(c);
      if res == -ENOBUFS {
        if conns[c].closed {
          EndQuiet(c);
        } else if conns[c].pausing {
          Stopped(c);
        } else if conns[c].eof {
          EndRecv(c, conns[c].err);
        } else {
          Starve(c);
        }
        return;
      }
      if buf.Some? {
        Return(buf.value);
      }
      if conns[c].pausing && !conns[c].closed && res == -ECANCELED {
        Stopped(c);
      } else {
        EndRecv(c, if res == -EIO && tls(c) then 0 else res);
      }
    }

    lemma DyingFacts(c: nat)
      requires Valid() && c in conns && mark == Dying(c) && conns[c].pc != Running
      ensures conns[c].recv.Armed? && (conns[c].closed ==> !conns[c].pausing) && (conns[c].pausing <==> conns[c].pc == InPause)
    {
      hide FairOk, BuffersOk, CountsOk, About, For, Times;
      NetFits(N(), c);
    }

    /** A completion with bytes. */
    method Received(c: nat, more: bool, buf: Option<nat>)
      requires Valid() && c in conns && waking == None && conns[c].pc != Running && conns[c].recv.Armed?
      requires mark == (if more then NoMark else Dying(c))
      requires buf.Some? ==> buf.value in place && place[buf.value] == Loose
      modifies this`conns, this`sq, this`starved, this`mark, this`waking, this`place, this`ring, this`returned, this`live, this`pool, this`script
      ensures Valid() && OnlyAbout(c) && Tidy() && mark == old(mark) && waking == None && c in conns && conns[c].pc != Running && conns[c].recv.Armed?
      ensures buf.Some? ==> buf.value in place && place[buf.value] != Loose
    {
      hide FairOk, BuffersOk, CountsOk, NetOk, Fits, About, For, Times;
      QueueBound(c);
      if buf.None? {
        EndInput(c, -EPROTO, more);
      } else if conns[c].closed {
        Return(buf.value);
      } else if |conns[c].rx| == RX_QUEUE {
        Return(buf.value);
        EndInput(c, -ENOBUFS, more);
      } else {
        Queue(c, buf.value);
      }
    }

    lemma QueueBound(c: nat)
      requires Valid() && c in conns
      ensures |conns[c].rx| <= RX_QUEUE
    {
      hide FairOk, BuffersOk, CountsOk, About, For, Times;
      NetFits(N(), c);
    }

    /** The receive ended with bytes: stopped for a pause, armed again, or done with. */
    method Ended(c: nat)
      requires Valid() && c in conns && waking == None && conns[c].pc != Running && mark == Dying(c)
      modifies this`conns, this`sq, this`starved, this`mark, this`waking, this`place, this`ring, this`returned, this`live, this`pool, this`script
      ensures Valid() && OnlyAbout(c) && Tidy() && mark == NoMark && waking == None && (c in conns ==> conns[c].pc != Running)
    {
      hide FairOk, BuffersOk, CountsOk, NetOk, Fits, About, For, Times;
      DyingFacts(c);
      if conns[c].pausing && !conns[c].closed {
        Stopped(c);
      } else if !conns[c].closed && !conns[c].eof {
        ArmRecv(c);
      } else {
        EndQuiet(c);
      }
    }

    /** At shutdown, when the kernel could not cancel everything at once. */
    method CancelOne(c: nat)
      requires Valid() && c in conns && waking == None && mark == NoMark && conns[c].recv.Armed? && cancelEach
      modifies this`conns, this`sq, this`starved, this`mark, this`waking
      ensures Valid() && OnlyAbout(c) && mark == NoMark && waking == None && c in conns && conns[c].pc == old(conns)[c].pc
    {
      hide FairOk, BuffersOk, CountsOk, NetOk, Fits, About, For, Times;
      if conns[c].cancelling {
        return;
      }
      ItFits(c);
      Staged(c, Cancel(c));
      FitsCancelled(conns[c], About(sq, c), c in armed, For(cq, c), Times(starved, c), Cancel(c));
      Set(c, conns[c].(cancelling := true), [Cancel(c)], starved, mark, None);
    }

    // The steps of a worker.

    /** dispatch, of a receive's completion: the oldest one is taken off the queue and handled. */
    method Complete()
      requires Settled() && cq != []
      modifies this`conns, this`sq, this`starved, this`mark, this`waking, this`place, this`ring, this`returned, this`live, this`pool, this`script, this`cq, this`due
      ensures Settled()
      ensures StillDue()
      ensures old(returned) <= returned
    {
      hide FairOk, BuffersOk, CountsOk, NetOk, About, For, Times, Fits;
      var e := TakeCompletion();
      ghost var was, before := conns, due;
      NotListed(e.c);
      OnRecv(e.c, e.res, e.more, e.buf);
      OthersSame(conns, was, e.c);
      forall d | d in old(starved) && d in before
        ensures d in due && due[d] == before[d]
      {
        assert d in before - {e.c} && d in due - {e.c};
      }
    }

    lemma NotListed(c: nat)
      requires Valid() && c in conns && conns[c].recv.Armed?
      ensures c !in starved
    {
      hide FairOk, BuffersOk, CountsOk, About, For;
      TimesHas(starved, c);
      NetFits(N(), c);
    }

    method TakeCompletion() returns (e: Cqe)
      requires Settled() && cq != []
      modifies this`place, this`cq, this`mark
      ensures Valid() && e == old(cq)[0] && Plausible(e) && waking == None
      ensures mark == (if e.more then NoMark else Dying(e.c)) && e.c in conns && conns[e.c].recv.Armed?
      ensures e.buf.Some? ==> e.buf.value in place && place[e.buf.value] == Loose
      ensures forall id :: id in place && place[id] == Loose ==> e.buf == Some(id)
      ensures forall i :: 0 <= i < |cq| ==> Plausible(cq[i])
    {
      hide FairOk, BuffersOk, CountsOk, NetOk, About, For, Times, Fits;
      ghost var n := N();
      e := cq[0];
      NetPop(n);
      BuffersPop(count, place, ring, published, cq, conns);
      if e.buf.Some? {
        place := place[e.buf.value := Loose];
      }
      cq := cq[1..];
      mark := if e.more then NoMark else Dying(e.c);
      assert N() == n.(cq := n.cq[1..], mark := mark);
    }

    /** The kernel consumes the oldest submission. A cancel ends a receive only if somebody wants it ended. */
    method Submit()
      requires Settled() && sq != []
      modifies this`sq, this`armed, this`cq
      ensures Settled()
      ensures old(sq[0]).Cancel? && old(sq[0]).c in old(armed) ==>
        old(sq[0]).c in conns && var r := conns[old(sq[0]).c]; r.closed || r.pausing || r.eof || cancelEach
    {
      hide FairOk, BuffersOk, CountsOk, NetOk, About, For, Times, Fits;
      ghost var n := N();
      NetConsumed(n);
      var e := sq[0];
      sq := sq[1..];
      match e {
        case Arm(c) =>
          armed := armed + {c};
        case Cancel(c) =>
          if c in armed {
            BuffersPost(count, place, ring, published, cq, conns, Cqe(c, -ECANCELED, false, None));
            armed := armed - {c};
            cq := cq + [Cqe(c, -ECANCELED, false, None)];
          }
        case _ =>
      }
      assert N() == Consumed(n);
    }

    /** The kernel posts a completion for an armed receive; one with a buffer takes the oldest published one. */
    method Post(c: nat, res: int, more: bool, withBuf: bool)
      requires Settled() && c in armed && (res <= 0 ==> !more) && (withBuf ==> published > 0 && res != -ENOBUFS)
      modifies this`cq, this`armed, this`ring, this`published, this`place
      ensures Settled()
    {
      hide FairOk, BuffersOk, CountsOk, NetOk, About, For, Times, Fits;
      if withBuf {
        PublishedSome(count, place, ring, published, cq, conns);
        ghost var id := ring[0];
        BuffersFill(count, place, ring, published, cq, conns, Cqe(c, res, more, Some(id)));
        Deliver(Cqe(c, res, more, Some(ring[0])), place[id := InCq], ring[1..], published - 1);
      } else {
        BuffersPost(count, place, ring, published, cq, conns, Cqe(c, res, more, None));
        Deliver(Cqe(c, res, more, None), place, ring, published);
      }
    }

    /** The completion is queued, and its buffer, if any, is off the ring. */
    method Deliver(e: Cqe, ghost where: map<nat, Place>, rest: seq<nat>, left: nat)
      requires Settled() && e.c in armed && Plausible(e)
      requires BuffersOk(count, where, rest, left, cq + [e], conns) && forall id :: id in where ==> where[id] != Loose
      modifies this`cq, this`armed, this`ring, this`published, this`place
      ensures Settled()
    {
      hide FairOk, BuffersOk, CountsOk, NetOk, About, For, Times, Fits;
      ghost var n := N();
      NetPosted(n, e);
      cq := cq + [e];
      if !e.more {
        armed := armed - {e.c};
      }
      ring, published, place := rest, left, where;
      assert N() == n.(cq := n.cq + [e], armed := if e.more then n.armed else n.armed - {e.c});
    }

    /** bufring_publish. */
    method Publish()
      requires Settled()
      modifies this`published
      ensures Settled() && published == |ring|
    {
      hide RingAgrees, CqAgrees, ConnsAgree, CountsOk, NetOk;
      published := |ring|;
    }

    /**
     * on_accept, of a connection: a record, from the pool or fresh, its receive staged and its
     * coroutine ready to start; at shutdown the socket is closed.
     */
    method Accept(addr: nat)
      requires Settled()
      modifies this`conns, this`sq, this`live, this`pool, this`ready
      ensures Settled()
      ensures !draining && (pool != [] || old(addr !in conns)) ==> live == old(live) + 1
    {
      hide FairOk, BuffersOk, NetOk, About, For, Times, Fits;
      if draining {
        Unrelated(CloseFd(addr));
        return;
      }
      var c := if pool != [] then pool[0] else addr;
      if c in conns {
        return;
      }
      NewConn(c);
    }

    /** ioxd__conn_new, and its receive staged. */
    method NewConn(c: nat)
      requires Settled() && c !in conns && (pool != [] ==> c == pool[0])
      modifies this`conns, this`sq, this`live, this`pool, this`ready
      ensures Settled() && live == old(live) + 1
    {
      hide FairOk, BuffersOk, NetOk, CountsOk, Fits;
      ghost var n := N();
      var r := Rec(Armed, false, false, 2, false, false, 0, [], {}, Ready);
      NetNew(n, c, r);
      BuffersNew(count, place, ring, published, cq, conns, c, r);
      CountsNew(conns, live, pool, ready, c, r);
      Enter(c, r);
      assert N() == n.(conns := n.conns[c := r], sq := n.sq + [Arm(c)]);
    }

    method Enter(c: nat, r: Rec)
      modifies this`conns, this`sq, this`live, this`pool, this`ready
      ensures conns == old(conns)[c := r] && live == old(live) + 1 && sq == old(sq) + [Arm(c)] && ready == old(ready) + [c]
      ensures pool == if old(pool) != [] then old(pool)[1..] else old(pool)
    {
      if pool != [] {
        pool := pool[1..];
      }
      conns := conns[c := r];
      live := live + 1;
      sq := sq + [Arm(c)];
      ready := ready + [c];
    }

    /** A submission that concerns no receive. */
    method Unrelated(e: Sqe)
      requires Settled() && !e.Arm? && !e.Cancel?
      modifies this`sq
      ensures Settled()
    {
      hide FairOk, BuffersOk, CountsOk, NetOk, For, Times, Fits;
      ghost var n := N();
      AboutSnoc(sq, e);
      forall d
        ensures About(sq + [e], d) == About(sq, d)
      {
        assert About(sq, d) + [] == About(sq, d);
      }
      NetSame(n, n.(sq := sq + [e]));
      sq := sq + [e];
      assert N() == n.(sq := n.sq + [e]);
    }

    /** run_ready: the coroutines of new connections start. */
    method Start()
      requires Settled()
      modifies this`conns, this`sq, this`starved, this`mark, this`waking, this`place, this`ring, this`returned, this`live, this`pool, this`script, this`ready
      ensures Settled() && ready == []
      ensures old(returned) <= returned
    {
      hide FairOk, BuffersOk, CountsOk, NetOk, About, For, Times, Fits;
      while ready != []
        invariant Settled() && old(returned) <= returned
        decreases |ready|
      {
        StartOne();
      }
    }

    method StartOne()
      requires Settled() && ready != []
      modifies this`conns, this`sq, this`starved, this`mark, this`waking, this`place, this`ring, this`returned, this`live, this`pool, this`script, this`ready
      ensures Settled() && ready == old(ready)[1..]
      ensures old(returned) <= returned
    {
      hide FairOk, BuffersOk, CountsOk, NetOk, About, For, Times, Fits;
      var c := ready[0];
      ReadyFirst(conns, live, pool, ready);
      ready := ready[1..];
      ghost var was := conns;
      RunCoroutine(c);
      OthersSame(conns, was, c);
    }

    /** An operation a coroutine waits for completes. */
    method OpDone(c: nat)
      requires Settled() && c in conns && conns[c].pc == InOp
      modifies this`conns, this`sq, this`starved, this`mark, this`waking, this`place, this`ring, this`returned, this`live, this`pool, this`script
      ensures Settled()
      ensures old(returned) <= returned
    {
      hide FairOk, BuffersOk, CountsOk, NetOk, About, For, Times, Fits;
      NotToStart(c);
      ghost var was := conns;
      RunCoroutine(c);
      OthersSame(conns, was, c);
    }

    /** rearm_starved: as many as buffers returned since the last sweep, in the order they starved. */
    method Sweep()
      requires Settled()
      modifies this`conns, this`sq, this`starved, this`mark, this`waking, this`returned, this`swept
      ensures Settled() && returned == 0 && swept == old(swept + returned)
      ensures starved == old(starved)[(if old(returned) < |old(starved)| then old(returned) else |old(starved)|)..]
    {
      hide FairOk, BuffersOk, CountsOk, NetOk, About, For, Times, Fits;
      var room := returned;
      returned := 0;
      var n := if room < |starved| then room else |starved|;
      for i := 0 to n
        invariant Settled() && returned == 0 && starved == old(starved)[i..] && swept == old(swept) + i
      {
        Rearm();
        assert old(starved)[i..][1..] == old(starved)[i + 1..];
      }
      if n < room {
        NobodyWaits(swept + (room - n));
      }
      swept := swept + (room - n);
    }

    lemma NobodyWaits(more: nat)
      requires starved == []
      ensures FairOk(starved, more, due)
    {
    }

    /** The connection starved longest gets its receive back. */
    method Rearm()
      requires Settled() && starved != []
      modifies this`conns, this`sq, this`starved, this`mark, this`waking, this`swept
      ensures Settled() && starved == old(starved)[1..] && swept == old(swept) + 1
      ensures old(starved)[0] in conns && conns[old(starved)[0]].recv.Armed? && sq == old(sq) + [Arm(old(starved)[0])]
    {
      hide FairOk, BuffersOk, CountsOk, NetOk, Fits, About, For, Times;
      var c := starved[0];
      ListedIsStarved(c);
      ItFits(c);
      Staged(c, Arm(c));
      FitsRearm(conns[c], About(sq, c), c in armed, For(cq, c), Times(starved, c), cancelEach, Arm(c));
      forall d | d != c
        ensures Times(starved[1..], d) == Times(starved, d)
      {
        TimesFront(starved, d);
      }
      TimesFront(starved, c);
      ghost var was := conns;
      FairFirst(starved, swept, due);
      Set(c, conns[c].(recv := Armed, cancelling := false), [Arm(c)], starved[1..], NoMark, None);
      swept := swept + 1;
    }

    lemma ListedIsStarved(c: nat)
      requires Valid() && c in starved
      ensures c in conns && conns[c].recv.Starved? && Times(starved, c) == 1
    {
      hide FairOk, BuffersOk, CountsOk, About, For;
      TimesHas(starved, c);
      assert c in conns;
      NetFits(N(), c);
    }

    /** begin_drain: no more receives are promised to those that starve; their coroutines see the end. */
    method Drain()
      requires Settled()
      modifies this`conns, this`sq, this`starved, this`mark, this`waking, this`place, this`ring, this`returned, this`live, this`pool, this`script, this`draining
      ensures Settled() && draining && starved == []
      ensures old(returned) <= returned
    {
      hide FairOk, BuffersOk, CountsOk, NetOk, About, For, Times, Fits;
      draining := true;
      Unrelated(CancelAny);
      while starved != []
        invariant Settled() && draining && old(returned) <= returned
        decreases |starved|
      {
        DrainLast();
      }
    }

    /** ioxd__conn_recv_drain, of the connection that starved last. */
    method DrainLast()
      requires Settled() && starved != [] && draining
      modifies this`conns, this`sq, this`starved, this`mark, this`waking, this`place, this`ring, this`returned, this`live, this`pool, this`script
      ensures Settled() && draining && |starved| < |old(starved)|
      ensures old(returned) <= returned
    {
      hide FairOk, BuffersOk, CountsOk, NetOk, Fits, About, For, Times;
      var last := |starved| - 1;
      var c := starved[last];
      ListedIsStarved(c);
      ItFits(c);
      Staged(c, CancelAny);
      FitsUnstarved(conns[c], About(sq, c), c in armed, For(cq, c), Times(starved, c), cancelEach, -ECANCELED);
      TimesWithout(starved, last);
      assert starved[..last] == Without(starved, last);
      FairWithout(starved, swept, due, last);
      ghost var was := conns;
      Set(c, conns[c].(eof := true, err := -ECANCELED, recv := Done), [], starved[..last], Owed(c), Some(c));
      Wake(c);
      DropRef(c);
      OthersSame(conns, was, c);
    }

    /** The kernel cannot cancel everything at once: from now on each receive is cancelled as it completes. */
    method CancelEach()
      requires Settled()
      modifies this`cancelEach
      ensures Settled()
    {
      hide FairOk, BuffersOk, CountsOk, NetOk, About, For, Times, Fits;
      ghost var n := N();
      NetCancelEach(n);
      cancelEach := true;
      assert N() == n.(cancelEach := true);
    }

    /**
     * Any run: whatever the kernel and the peers do, and in whatever order, every step keeps the
     * protocol. And it is fair: a connection that waits for a buffer behind k others has left the list
     * at some step of every run whose sweeps take up k + 1 returned buffers.
     */
    method Run(events: seq<Event>) returns (ghost lists: seq<seq<nat>>)
      requires Settled()
      modifies this
      ensures Settled() && |lists| == |events| && old(swept) <= swept
      ensures forall k :: 0 <= k < |old(starved)| && swept >= old(swept) + k + 1 ==>
        exists j :: 0 <= j < |lists| && old(starved)[k] !in lists[j]
    {
      hide FairOk, BuffersOk, CountsOk, NetOk, About, For, Times, Fits, Settled;
      ghost var first, from := starved, swept;
      Retime();
      lists := [];
      for i := 0 to |events|
        invariant Settled() && |lists| == i && from <= swept
        invariant i > 0 ==> lists[i - 1] == starved
        invariant i == 0 ==> starved == first
        invariant forall k :: 0 <= k < |first| && Stays(lists, first[k]) ==>
          first[k] in starved && first[k] in due && due[first[k]] == from + k + 1
      {
        ghost var before := lists;
        Step(events[i]);
        lists := lists + [starved];
        assert forall c :: Stays(lists, c) <==> Stays(before, c) && c in starved by {
          StaysMore(before, starved);
        }
      }
      forall k | 0 <= k < |first| && swept >= from + k + 1
        ensures exists j :: 0 <= j < |lists| && first[k] !in lists[j]
      {
        if Stays(lists, first[k]) {
          ServedInTurn(first[k]);
        }
      }
    }

    /** What is said of turns holds of the turns as they are now. */
    ghost method Retime()
      requires Settled()
      modifies this`due
      ensures Settled() && forall k :: 0 <= k < |starved| ==> starved[k] in due && due[starved[k]] == swept + k + 1
    {
      hide BuffersOk, CountsOk, NetOk, About, For, Times, Fits;
      forall c | c in starved
        ensures Times(starved, c) == 1
      {
        ListedIsStarved(c);
      }
      OnceEach(starved);
      Deadlines(starved, swept);
      due := DueAt(starved, swept);
    }

    /** One event, if it can happen. */
    method Step(e: Event)
      requires Settled()
      modifies this
      ensures Settled() && StillDue()
      ensures swept == if e.Sweep? then old(swept + returned) else old(swept)
      ensures old(swept + returned) <= swept + returned
    {
      hide FairOk, BuffersOk, CountsOk, NetOk, About, For, Times, Fits, Settled;
      match e {
        case Submit =>
          if sq != [] { Submit(); }
        case Post(c, res, more, withBuf) =>
          if c in armed && (res <= 0 ==> !more) && (withBuf ==> published > 0 && res != -ENOBUFS) { Post(c, res, more, withBuf); }
        case Publish =>
          Publish();
        case Complete =>
          if cq != [] { Complete(); }
        case OpDone(c) =>
          if c in conns && conns[c].pc == InOp { OpDone(c); }
        case Accept(addr) =>
          Accept(addr);
        case Start =>
          Start();
        case Sweep =>
          Sweep();
        case Drain =>
          Drain();
        case CancelEach =>
          CancelEach();
      }
    }

    // What every reachable state promises.

    /** The references are exact, and an ended receive is one whose connection closed or whose input ended. */
    lemma Lifetime(c: nat)
      requires Settled() && c in conns
      ensures conns[c].refs == (if conns[c].pc == Gone then 0 else 1) + (if conns[c].recv.Done? then 0 else 1) > 0
      ensures conns[c].recv.Done? ==> conns[c].eof || conns[c].closed
      ensures live == |conns|
    {
      hide FairOk, BuffersOk, About, For, Times;
      NetFits(N(), c);
    }

    /** A record that is not in use, pooled or freed, is on no list and in no queue, and no receive of it is outstanding. */
    lemma PoolIsClean(c: nat)
      requires Settled() && c !in conns
      ensures Arms(About(sq, c)) == 0 && c !in armed && For(cq, c) == [] && c !in starved && c !in ready
    {
      hide FairOk, BuffersOk, About, For, Times;
      assert NoReceive(About(sq, c), c in armed, For(cq, c)) && Times(starved, c) == 0;
      TimesHas(starved, c);
    }

    /**
     * No wakeup is lost. A coroutine parked for input has none, and its receive is outstanding or
     * it has exactly one place on the starved list; one parked for a pause has its receive
     * outstanding, with the cancel that will end it on its way.
     */
    lemma NoLostWakeup(c: nat)
      requires Settled() && c in conns
      ensures conns[c].pc == InRecv ==>
        && conns[c].rx == [] && !conns[c].eof
        && ((conns[c].recv.Starved? && Times(starved, c) == 1) || (conns[c].recv.Armed? && OneReceive(conns[c].cancelling, About(sq, c), c in armed, For(cq, c))))
      ensures conns[c].pc == InPause ==>
        && conns[c].recv.Armed? && conns[c].cancelling
        && OneReceive(true, About(sq, c), c in armed, For(cq, c))
    {
      hide FairOk, BuffersOk, CountsOk, About, For, Times;
      NetFits(N(), c);
    }

    /**
     * Fair: a connection that starved as number k on the list is served by the sweep that follows k
     * more returned buffers; while it waits, fewer than that were swept.
     */
    lemma ServedInTurn(c: nat)
      requires Settled() && c in starved
      ensures c in due && swept < due[c]
    {
      hide BuffersOk, CountsOk, NetOk;
      var i :| 0 <= i < |starved| && starved[i] == c;
    }

    /** A closed connection's receive is being cancelled, or has ended; it does not stay armed. */
    lemma ClosedEnds(c: nat)
      requires Settled() && c in conns && conns[c].closed && conns[c].recv.Armed?
      ensures conns[c].cancelling && OneReceive(true, About(sq, c), c in armed, For(cq, c))
    {
      hide FairOk, BuffersOk, CountsOk, About, For, Times;
      NetFits(N(), c);
    }

    /** Every buffer is in one place: on the ring once, in one completion, in one queue once, or held by one reader. */
    lemma OnePlace(id: nat)
      requires Settled() && id < count
      ensures id in place && place[id] != Loose
      ensures (id in ring <==> place[id] == OnRing) && (forall i, j :: 0 <= i < j < |ring| ==> ring[i] != ring[j])
      ensures forall c :: c in conns ==> (id in conns[c].rx <==> place[id] == Queued(c)) && (id in conns[c].held <==> place[id] == Held(c))
      ensures forall i :: 0 <= i < |cq| && cq[i].buf == Some(id) ==> place[id] == InCq
    {
      hide FairOk, NetOk, CountsOk;
      forall c | c in conns
        ensures (id in conns[c].rx <==> place[id] == Queued(c)) && (id in conns[c].held <==> place[id] == Held(c))
      {
        assert RecAgrees(place, c, conns[c]);
      }
    }
  }

  ghost function AllOnRing(n: nat): (place: map<nat, Place>)
    ensures forall id: nat :: id in place <==> id < n
    ensures forall id :: id in place ==> place[id] == OnRing
  {
    if n == 0 then map[] else AllOnRing(n - 1)[n - 1 := OnRing]
  }

  lemma RingFull(n: nat)
    ensures BuffersOk(n, AllOnRing(n), seq(n, i => i), n, [], map[])
  {
    var ring: seq<nat> := seq(n, i => i);
    forall id: nat
      ensures id in ring <==> id < n
    {
      if id < n {
        assert ring[id] == id;
      }
    }
  }

  lemma BuffersPost(count: nat, place: map<nat, Place>, ring: seq<nat>, published: nat, cq: seq<Cqe>, conns: map<nat, Rec>, e: Cqe)
    requires BuffersOk(count, place, ring, published, cq, conns) && e.buf.None?
    ensures BuffersOk(count, place, ring, published, cq + [e], conns)
  {
    hide RingAgrees, CqAgrees, ConnsAgree;
    CqGets(place, cq, e);
  }

  lemma PublishedSome(count: nat, place: map<nat, Place>, ring: seq<nat>, published: nat, cq: seq<Cqe>, conns: map<nat, Rec>)
    requires BuffersOk(count, place, ring, published, cq, conns) && published > 0
    ensures ring != []
  {
  }

  lemma BuffersFill(count: nat, place: map<nat, Place>, ring: seq<nat>, published: nat, cq: seq<Cqe>, conns: map<nat, Rec>, e: Cqe)
    requires BuffersOk(count, place, ring, published, cq, conns) && published > 0 && ring != [] && e.buf == Some(ring[0])
    ensures ring[0] in place && BuffersOk(count, place[ring[0] := InCq], ring[1..], published - 1, cq + [e], conns)
  {
    hide RingAgrees, CqAgrees, ConnsAgree;
    RingLoses(place, ring, InCq);
    CqGets(place, cq, e);
    ConnsSame(place, conns, ring[0], InCq);
  }

  lemma BuffersNew(count: nat, place: map<nat, Place>, ring: seq<nat>, published: nat, cq: seq<Cqe>, conns: map<nat, Rec>, c: nat, r: Rec)
    requires BuffersOk(count, place, ring, published, cq, conns) && c !in conns && r.rx == [] && r.held == {}
    ensures BuffersOk(count, place, ring, published, cq, conns[c := r])
  {
    hide RingAgrees, CqAgrees, ConnsAgree;
    ConnNew(place, conns, c, r);
  }

  lemma CountsNew(conns: map<nat, Rec>, live: nat, pool: seq<nat>, ready: seq<nat>, c: nat, r: Rec)
    requires CountsOk(conns, live, pool, ready) && c !in conns && r.pc == Ready && (pool != [] ==> c == pool[0])
    ensures CountsOk(conns[c := r], live + 1, if pool != [] then pool[1..] else pool, ready + [c])
  {
    assert conns[c := r].Keys == conns.Keys + {c};
    assert |conns[c := r]| == |conns[c := r].Keys| && |conns| == |conns.Keys|;
    var rest := if pool != [] then pool[1..] else pool;
    forall x | x in rest
      ensures x !in conns[c := r]
    {
      var k :| 0 <= k < |rest| && rest[k] == x;
      assert pool != [] ==> pool[k + 1] == x;
    }
  }

  lemma ReadyFirst(conns: map<nat, Rec>, live: nat, pool: seq<nat>, ready: seq<nat>)
    requires CountsOk(conns, live, pool, ready) && ready != []
    ensures ready[0] in conns && conns[ready[0]].pc == Ready && ready[0] !in ready[1..]
    ensures CountsOk(conns, live, pool, ready[1..])
  {
    assert ready[0] in ready;
    forall x | x in ready[1..]
      ensures x in ready && x != ready[0]
    {
      var k :| 0 <= k < |ready[1..]| && ready[1..][k] == x;
      assert ready[k + 1] == x;
    }
  }

  lemma BuffersPop(count: nat, place: map<nat, Place>, ring: seq<nat>, published: nat, cq: seq<Cqe>, conns: map<nat, Rec>)
    requires BuffersOk(count, place, ring, published, cq, conns) && cq != []
    ensures cq[0].buf.Some? ==> cq[0].buf.value in place
    ensures BuffersOk(count, if cq[0].buf.Some? then place[cq[0].buf.value := Loose] else place, ring, published, cq[1..], conns)
  {
    hide RingAgrees, CqAgrees, ConnsAgree;
    CqLoses(place, cq);
    if cq[0].buf.Some? {
      RingSame(place, ring, cq[0].buf.value, Loose);
      ConnsSame(place, conns, cq[0].buf.value, Loose);
    }
  }

  lemma EofSame(r: Rec)
    requires r.eof
    ensures r.(eof := true, err := r.err) == r
  {
  }

  lemma BuffersQueue(count: nat, place: map<nat, Place>, ring: seq<nat>, published: nat, cq: seq<Cqe>, conns: map<nat, Rec>, c: nat, r: Rec, id: nat)
    requires BuffersOk(count, place, ring, published, cq, conns) && c in conns && id in place && place[id] == Loose
    requires r.rx == conns[c].rx + [id] && r.held == conns[c].held
    ensures BuffersOk(count, place[id := Queued(c)], ring, published, cq, conns[c := r])
  {
    hide RingAgrees, CqAgrees, ConnsAgree;
    QueueGets(place, conns, c, r, id);
    RingSame(place, ring, id, Queued(c));
    CqSame(place, cq, id, Queued(c));
  }

  lemma EofStays(r: Rec)
    requires r.eof
    ensures r.(eof := true, err := r.err, recv := Done) == r.(recv := Done)
  {
  }

  lemma OthersSame(a: map<nat, Rec>, b: map<nat, Rec>, c: nat)
    requires a - {c} == b - {c}
    ensures forall d :: d != c ==> (d in a <==> d in b)
    ensures forall d :: d != c && d in a ==> a[d] == b[d]
  {
    forall d | d != c
      ensures (d in a <==> d in b) && (d in a ==> a[d] == b[d])
    {
      assert d in a <==> d in a - {c};
      assert d in b <==> d in b - {c};
      if d in a {
        assert (a - {c})[d] == (b - {c})[d];
      }
    }
  }

  lemma MinusMinus(conns: map<nat, Rec>, c: nat)
    ensures (conns - {c}) - {c} == conns - {c}
  {
  }

  /** A record that nothing refers to goes. */
  lemma NetFree(n: Net, c: nat)
    requires NetOk(n) && c in n.conns && (n.mark == NoMark || n.mark.c == c) && n.waking == None
    requires NoReceive(About(n.sq, c), c in n.armed, For(n.cq, c)) && Times(n.starved, c) == 0
    ensures NetOk(n.(conns := n.conns - {c}, mark := NoMark))
  {
    hide Fits, NoReceive, About, For, Times;
    NetStep(n, n.(conns := n.conns - {c}, mark := NoMark), c);
  }

  lemma BuffersGone(count: nat, place: map<nat, Place>, ring: seq<nat>, published: nat, cq: seq<Cqe>, rest: map<nat, Rec>, conns: map<nat, Rec>, c: nat)
    requires BuffersOk(count, place, ring, published, cq, conns) && c in conns && conns[c].rx == [] && conns[c].held == {}
    requires rest == conns - {c}
    ensures BuffersOk(count, place, ring, published, cq, rest)
  {
    hide RingAgrees, CqAgrees, ConnsAgree;
    ConnGone(place, conns, c);
  }

  lemma CountsGone(conns: map<nat, Rec>, live: nat, pool: seq<nat>, ready: seq<nat>, c: nat, rest: map<nat, Rec>)
    requires CountsOk(conns, live, pool, ready) && c in conns && c !in ready && rest == conns - {c}
    ensures live > 0
    ensures CountsOk(rest, live - 1, pool, ready) && CountsOk(rest, live - 1, [c] + pool, ready)
  {
    assert rest.Keys == conns.Keys - {c};
    assert |conns| == |conns.Keys| && |rest| == |rest.Keys|;
  }

  lemma BuffersGive(count: nat, place: map<nat, Place>, ring: seq<nat>, published: nat, cq: seq<Cqe>, conns: map<nat, Rec>, c: nat, r: Rec, id: nat)
    requires BuffersOk(count, place, ring, published, cq, conns) && c in conns && id in conns[c].held
    requires r.rx == conns[c].rx && r.held == conns[c].held - {id}
    ensures id in place && BuffersOk(count, place[id := Loose], ring, published, cq, conns[c := r])
  {
    hide RingAgrees, CqAgrees, ConnsAgree;
    HeldLoses(place, conns, c, r, id);
    RingSame(place, ring, id, Loose);
    CqSame(place, cq, id, Loose);
  }

  lemma BuffersTake(count: nat, place: map<nat, Place>, ring: seq<nat>, published: nat, cq: seq<Cqe>, conns: map<nat, Rec>, c: nat, r: Rec, keep: bool)
    requires BuffersOk(count, place, ring, published, cq, conns) && c in conns && conns[c].rx != []
    requires r.rx == conns[c].rx[1..] && r.held == conns[c].held + if keep then {conns[c].rx[0]} else {}
    ensures conns[c].rx[0] in place
    ensures BuffersOk(count, place[conns[c].rx[0] := if keep then Held(c) else Loose], ring, published, cq, conns[c := r])
  {
    hide RingAgrees, CqAgrees, ConnsAgree;
    var id := conns[c].rx[0];
    var to := if keep then Held(c) else Loose;
    QueueLoses(place, conns, c, r, keep);
    RingSame(place, ring, id, to);
    CqSame(place, cq, id, to);
  }

  lemma CountsRec(conns: map<nat, Rec>, live: nat, pool: seq<nat>, ready: seq<nat>, c: nat, r: Rec)
    requires CountsOk(conns, live, pool, ready) && c in conns && (c in ready ==> r.pc == Ready)
    ensures CountsOk(conns[c := r], live, pool, ready)
  {
    SameKeys(conns, c, r);
  }

  lemma MinusSet(conns: map<nat, Rec>, c: nat, r: Rec)
    ensures conns[c := r] - {c} == conns - {c}
  {
  }

  lemma NoneStaged(c: nat)
    ensures About([], c) == []
  {
  }

  lemma NetFits(n: Net, c: nat)
    requires NetOk(n) && c in n.conns
    ensures Fits(n.conns[c], About(n.sq, c), c in n.armed, For(n.cq, c), Times(n.starved, c),
                 n.mark == Dying(c), n.mark == Owed(c), n.waking == Some(c), n.cancelEach)
  {
    assert Fitting(n, c);
  }

  /** A buffer that is not on the ring leaves room for itself there. */
  lemma RoomOnRing(place: map<nat, Place>, ring: seq<nat>, count: nat, id: nat)
    requires forall x: nat :: x in place <==> x < count
    requires RingAgrees(place, ring) && id in place && place[id] != OnRing
    ensures |ring| < count
  {
    DistinctWithin(ring, ConnInput.AllIds(count) - {id});
  }

  lemma {:induction false} DistinctWithin(s: seq<nat>, all: set<nat>)
    requires Distinct(s) && forall x :: x in s ==> x in all
    ensures |s| <= |all|
  {
    if s != [] {
      assert s[0] in s;
      forall x | x in s[1..]
        ensures x in all - {s[0]}
      {
        var i :| 0 <= i < |s[1..]| && s[1..][i] == x;
        assert s[i + 1] == x && x in s;
      }
      DistinctWithin(s[1..], all - {s[0]});
    }
  }
}
