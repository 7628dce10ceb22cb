/**
 * The reader of io/pipe.c as a value: where the live bytes are, where the run is, which buffer is
 * pinned; and each operation as a function on that. PipeReading.PipeReader is the code, over its
 * coupled fields and an array, proved to do these steps.
 */
module ReaderState {
  import opened Bytes
  import opened SpscRing

  const PIPE_GONE: int := -1
  const PIPE_FULL: int := -2

  /** Where the live bytes are: nowhere, in buf[pos..end], or in a provided buffer from pos on. */
  datatype LiveAt = Nothing | InBuf(pos: nat, end: nat) | InCur(item: RxItem, at: nat)

  /** Where the run is: in buf, or in the buffer the live bytes are in. */
  datatype RunAt = NoRun | RunBuf(start: nat, len: nat) | RunCur(start: nat, len: nat)

  /** A provided buffer that holds frozen bytes, and whether the live bytes are in it too. */
  datatype Pin = Free | Pinned(item: RxItem, isCur: bool)

  datatype Reader = Reader(buf: bytes, floor: nat, live: LiveAt, run: RunAt, pin: Pin)

  /** An address the reader hands out: in its gathering buffer, or in a provided buffer. */
  datatype Place = BufAt(at: nat) | SlabAt(bufId: nat, at: nat)

  /** Kept bytes whose address was handed out: they stay there, unmodified, until release. */
  datatype Frozen = Frozen(place: Place, data: bytes)

  // Memory.

  lemma BlitParts(b: bytes, at: nat, data: bytes)
    requires at + |data| <= |b|
    ensures Blit(b, at, data)[..at] == b[..at]
    ensures Blit(b, at, data)[at..at + |data|] == data
  {
  }

  lemma BlitTwo(b: bytes, at: nat, x: bytes, y: bytes)
    requires at + |x| + |y| <= |b|
    ensures var w := Blit(b, at, x + y);
      && w[..at] == b[..at]
      && w[at..at + |x|] == x
      && w[at + |x|..at + |x| + |y|] == y
  {
  }

  lemma Slices(a: bytes, b: bytes, end: nat, at: nat, n: nat)
    requires at + n <= end <= |a| && end <= |b| && a[..end] == b[..end]
    ensures a[at..at + n] == b[at..at + n]
  {
    assert a[at..at + n] == a[..end][at..at + n];
    assert b[at..at + n] == b[..end][at..at + n];
  }

  /** Sliding n bytes down to the end of a run extends it, and leaves what follows them. */
  lemma SlideJoins(b: bytes, start: nat, end: nat, pos: nat, n: nat, last: nat)
    requires start <= end <= pos && pos + n <= last <= |b|
    ensures var m := Moved(b, end, pos, n);
      && m[..end] == b[..end]
      && m[end..end + n] == b[pos..pos + n]
      && m[start..end + n] == b[start..end] + b[pos..pos + n]
      && m[pos + n..last] == b[pos + n..last]
  {
    var m := Moved(b, end, pos, n);
    assert m[..end] == b[..end];
    assert m[end..end + n] == b[pos..pos + n];
    Slices(b, m, end, start, end - start);
    assert m[start..end + n] == m[start..end] + m[end..end + n];
  }

  ghost predicate InBounds(buf: bytes, mem: seq<bytes>, p: Place, n: nat) {
    match p
    case BufAt(at) => at + n <= |buf|
    case SlabAt(id, at) => id < |mem| && at + n <= |mem[id]|
  }

  /** The n bytes at an address. */
  ghost function Mem(buf: bytes, mem: seq<bytes>, p: Place, n: nat): (m: bytes)
    requires InBounds(buf, mem, p, n)
    ensures |m| == n
  {
    match p
    case BufAt(at) => buf[at..at + n]
    case SlabAt(id, at) => mem[id][at..at + n]
  }

  // What the state means.

  predicate ItemOk(item: RxItem, mem: seq<bytes>) {
    item.bufId < |mem| && 0 < item.len <= |mem[item.bufId]|
  }

  predicate LiveOk(r: Reader, mem: seq<bytes>) {
    match r.live
    case Nothing => true
    case InBuf(pos, end) => r.floor <= pos <= end <= |r.buf|
    case InCur(item, at) => ItemOk(item, mem) && at <= item.len && (at < item.len || r.run.RunCur?)
  }

  predicate RunOk(r: Reader) {
    match r.run
    case NoRun => true
    case RunBuf(start, len) => 0 < len && start + len == r.floor
    case RunCur(start, len) => 0 < len && r.live.InCur? && start + len <= r.live.at
  }

  predicate PinOk(r: Reader, mem: seq<bytes>) {
    match r.pin
    case Free => true
    case Pinned(item, isCur) =>
      && ItemOk(item, mem)
      && (isCur ==> r.live.InCur? && r.live.item == item)
      && (!isCur && r.live.InCur? ==> r.live.item.bufId != item.bufId)
  }

  predicate Shape(r: Reader, mem: seq<bytes>) {
    r.floor <= |r.buf| && LiveOk(r, mem) && RunOk(r) && PinOk(r, mem)
  }

  /** The provided buffers the reader holds: at most two. */
  ghost function Held(r: Reader): (s: set<nat>)
    ensures |s| <= 2
  {
    (if r.live.InCur? then {r.live.item.bufId} else {}) + (if r.pin.Pinned? then {r.pin.item.bufId} else {})
  }

  /** The live bytes: received and not yet consumed. */
  function Live(r: Reader, mem: seq<bytes>): bytes
    requires Shape(r, mem)
  {
    match r.live
    case Nothing => []
    case InBuf(pos, end) => r.buf[pos..end]
    case InCur(item, at) => mem[item.bufId][at..item.len]
  }

  function LivePlace(r: Reader): Place {
    match r.live
    case Nothing => BufAt(0)
    case InBuf(pos, _) => BufAt(pos)
    case InCur(item, at) => SlabAt(item.bufId, at)
  }

  /** The run in progress: what keep consumed since the last run_begin or release. */
  function Run(r: Reader, mem: seq<bytes>): bytes
    requires Shape(r, mem)
  {
    match r.run
    case NoRun => []
    case RunBuf(start, len) => r.buf[start..start + len]
    case RunCur(start, len) => mem[r.live.item.bufId][start..start + len]
  }

  function RunPlace(r: Reader): Place
    requires RunOk(r)
  {
    match r.run
    case NoRun => BufAt(0)
    case RunBuf(start, _) => BufAt(start)
    case RunCur(start, _) => SlabAt(r.live.item.bufId, start)
  }

  /** The end of the part of buf, and of the pinned buffer, that holds frozen bytes only. */
  function BufGuard(r: Reader): nat {
    if r.run.RunBuf? then r.run.start else r.floor
  }

  function PinGuard(r: Reader): nat
    requires r.pin.Pinned? && (r.pin.isCur ==> r.live.InCur?)
  {
    if !r.pin.isCur then r.pin.item.len else if r.run.RunCur? then r.run.start else r.live.at
  }

  /** A frozen piece is where it was left, in memory the reader no longer writes. */
  ghost predicate StillThere(f: Frozen, r: Reader, mem: seq<bytes>)
    requires PinOk(r, mem)
  {
    && InBounds(r.buf, mem, f.place, |f.data|)
    && Mem(r.buf, mem, f.place, |f.data|) == f.data
    && match f.place {
         case BufAt(at) => at + |f.data| <= BufGuard(r)
         case SlabAt(id, at) => r.pin.Pinned? && id == r.pin.item.bufId && at + |f.data| <= PinGuard(r)
       }
  }

  ghost predicate AllThere(frozen: seq<Frozen>, r: Reader, mem: seq<bytes>)
    requires PinOk(r, mem)
  {
    forall f :: f in frozen ==> StillThere(f, r, mem)
  }

  /** Guarded memory was not written, and the guarded parts only grew. */
  ghost predicate Untouched(r: Reader, mem: seq<bytes>, r': Reader, mem': seq<bytes>)
    requires Shape(r, mem) && Shape(r', mem')
  {
    && BufGuard(r) <= BufGuard(r') && BufGuard(r) <= |r.buf| == |r'.buf|
    && r'.buf[..BufGuard(r)] == r.buf[..BufGuard(r)]
    && |mem'| == |mem|
    && (r.pin.Pinned? ==>
      && r'.pin.Pinned? && r'.pin.item == r.pin.item
      && PinGuard(r) <= PinGuard(r') && PinGuard(r) <= |mem[r.pin.item.bufId]| == |mem'[r.pin.item.bufId]|
      && mem'[r.pin.item.bufId][..PinGuard(r)] == mem[r.pin.item.bufId][..PinGuard(r)])
  }

  lemma FrozenStay(frozen: seq<Frozen>, r: Reader, mem: seq<bytes>, r': Reader, mem': seq<bytes>)
    requires Shape(r, mem) && Shape(r', mem')
    requires AllThere(frozen, r, mem) && Untouched(r, mem, r', mem')
    ensures AllThere(frozen, r', mem')
  {
    forall f | f in frozen
      ensures StillThere(f, r', mem')
    {
      assert StillThere(f, r, mem);
      match f.place {
        case BufAt(at) =>
          Slices(r.buf, r'.buf, BufGuard(r), at, |f.data|);
        case SlabAt(id, at) =>
          Slices(mem[id], mem'[id], PinGuard(r), at, |f.data|);
      }
    }
  }

  // The steps.

  /** cur_done: the current buffer is let go once nothing is left in it; a pinned one lives on as that. */
  function Unpinned(p: Pin): Pin {
    match p
    case Free => Free
    case Pinned(item, _) => Pinned(item, false)
  }

  /** What goes back to the ring when the current buffer is let go. */
  function CurReturns(r: Reader): set<nat> {
    if r.live.InCur? && !(r.pin.Pinned? && r.pin.isCur) then {r.live.item.bufId} else {}
  }

  /** compact: the live region of buf slides down over what was dropped before it. */
  function Compacted(r: Reader): Reader
    requires r.live.InBuf? && r.floor <= r.live.pos <= r.live.end <= |r.buf|
  {
    var n := r.live.end - r.live.pos;
    r.(buf := Moved(r.buf, r.floor, r.live.pos, n), live := InBuf(r.floor, r.floor + n))
  }

  lemma CompactedOk(r: Reader, mem: seq<bytes>)
    requires Shape(r, mem) && r.live.InBuf?
    ensures var c := Compacted(r);
      && Shape(c, mem) && Live(c, mem) == Live(r, mem) && Run(c, mem) == Run(r, mem)
      && Untouched(r, mem, c, mem) && Held(c) == Held(r)
  {
    hide Moved;
    var c := Compacted(r);
    SlideJoins(r.buf, r.floor, r.floor, r.live.pos, r.live.end - r.live.pos, r.live.end);
    BufKept(r, c, mem);
  }

  /** Nothing below the floor was written: the run in buf and the frozen bytes are as they were. */
  lemma BufKept(r: Reader, c: Reader, mem: seq<bytes>)
    requires Shape(r, mem) && Shape(c, mem) && |c.buf| == |r.buf| && c.buf[..r.floor] == r.buf[..r.floor]
    ensures c.buf[..BufGuard(r)] == r.buf[..BufGuard(r)]
    ensures r.run.RunBuf? && c.run == r.run ==> Run(c, mem) == Run(r, mem)
  {
    Slices(r.buf, c.buf, r.floor, 0, BufGuard(r));
    if r.run.RunBuf? {
      Slices(r.buf, c.buf, r.floor, r.run.start, r.run.len);
    }
  }

  /** gather: the current buffer's run and live bytes move into buf, if they fit. */
  function RunInCur(r: Reader, mem: seq<bytes>): bytes
    requires Shape(r, mem)
  {
    if r.run.RunCur? then Run(r, mem) else []
  }

  predicate GatherFits(r: Reader, mem: seq<bytes>)
    requires Shape(r, mem)
  {
    r.floor + |RunInCur(r, mem)| + |Live(r, mem)| <= |r.buf|
  }

  /**
   * A run kept in place has pointers out to it, so its buffer stays pinned, unless another one is.
   */
  function Gathered(r: Reader, mem: seq<bytes>): Reader
    requires Shape(r, mem) && !r.live.InBuf? && GatherFits(r, mem)
  {
    var run, live := RunInCur(r, mem), Live(r, mem);
    var floor := r.floor + |run|;
    Reader(Blit(r.buf, r.floor, run + live),
           floor,
           InBuf(floor, floor + |live|),
           if r.run.RunCur? then RunBuf(r.floor, r.run.len) else r.run,
           if r.run.RunCur? && r.pin.Free? then Pinned(r.live.item, false) else Unpinned(r.pin))
  }

  function GatherReturns(r: Reader): set<nat> {
    if r.run.RunCur? && r.pin.Free? then {} else CurReturns(r)
  }

  /** The in-place copy of a run that gather moved stays readable when its buffer gets pinned. */
  ghost function GatherPins(r: Reader, mem: seq<bytes>): (s: seq<Frozen>)
    requires Shape(r, mem)
  {
    if r.run.RunCur? && r.pin.Free? then [Frozen(RunPlace(r), Run(r, mem))] else []
  }

  lemma GatheredBytes(r: Reader, mem: seq<bytes>)
    requires Shape(r, mem) && !r.live.InBuf? && GatherFits(r, mem)
    ensures var g := Gathered(r, mem);
      && Shape(g, mem) && Live(g, mem) == Live(r, mem) && Run(g, mem) == Run(r, mem)
      && Untouched(r, mem, g, mem)
  {
    hide Blit;
    var g := Gathered(r, mem);
    BlitTwo(r.buf, r.floor, RunInCur(r, mem), Live(r, mem));
    BufKept(r, g, mem);
  }

  lemma GatheredHeld(r: Reader, mem: seq<bytes>)
    requires Shape(r, mem) && !r.live.InBuf? && GatherFits(r, mem)
    ensures Held(Gathered(r, mem)) == Held(r) - GatherReturns(r)
  {
    hide Blit;
  }

  lemma GatheredOk(r: Reader, mem: seq<bytes>)
    requires Shape(r, mem) && !r.live.InBuf? && GatherFits(r, mem)
    ensures var g := Gathered(r, mem);
      && Shape(g, mem) && Live(g, mem) == Live(r, mem) && Run(g, mem) == Run(r, mem)
      && Untouched(r, mem, g, mem) && Held(g) == Held(r) - GatherReturns(r)
      && (forall f :: f in GatherPins(r, mem) ==> StillThere(f, g, mem))
  {
    hide Blit, Untouched, Held;
    GatheredBytes(r, mem);
    GatheredHeld(r, mem);
  }

  /** The next buffer becomes the live span, in place. */
  function Attached(r: Reader, item: RxItem): Reader {
    r.(live := InCur(item, 0))
  }

  lemma AttachedOk(r: Reader, mem: seq<bytes>, item: RxItem)
    requires Shape(r, mem) && r.live.Nothing? && ItemOk(item, mem) && item.bufId !in Held(r)
    ensures var a := Attached(r, item);
      && Shape(a, mem) && Live(r, mem) == [] && Live(a, mem) == mem[item.bufId][..item.len] && Run(a, mem) == Run(r, mem)
      && Untouched(r, mem, a, mem) && Held(a) == Held(r) + {item.bufId}
  {
  }

  /** Bytes join the live ones in buf. */
  function Appended(r: Reader, data: bytes): Reader
    requires r.live.InBuf? && r.live.end + |data| <= |r.buf|
  {
    r.(buf := Blit(r.buf, r.live.end, data), live := InBuf(r.live.pos, r.live.end + |data|))
  }

  lemma AppendedOk(r: Reader, mem: seq<bytes>, data: bytes)
    requires Shape(r, mem) && r.live.InBuf? && r.live.end + |data| <= |r.buf|
    ensures var a := Appended(r, data);
      && Shape(a, mem) && Live(a, mem) == Live(r, mem) + data && Run(a, mem) == Run(r, mem)
      && Untouched(r, mem, a, mem) && Held(a) == Held(r)
  {
    hide Blit;
    var a := Appended(r, data);
    var pos, end := r.live.pos, r.live.end;
    BlitParts(r.buf, end, data);
    Slices(r.buf, a.buf, end, pos, end - pos);
    assert a.buf[pos..end + |data|] == a.buf[pos..end] + a.buf[end..end + |data|];
    Slices(r.buf, a.buf, end, 0, r.floor);
    BufKept(r, a, mem);
  }

  /** Room for injected bytes when nothing is live: an empty live region at the floor. */
  function Opened(r: Reader): Reader {
    r.(live := InBuf(r.floor, r.floor))
  }

  lemma OpenedOk(r: Reader, mem: seq<bytes>)
    requires Shape(r, mem) && r.live.Nothing?
    ensures var o := Opened(r);
      && Shape(o, mem) && Live(o, mem) == Live(r, mem) == [] && Run(o, mem) == Run(r, mem)
      && Untouched(r, mem, o, mem) && Held(o) == Held(r)
  {
  }

  /** consume: forget n live bytes. */
  function Consumed(r: Reader, n: nat): Reader {
    match r.live
    case Nothing => r
    case InBuf(pos, end) =>
      if pos + n >= end then r.(live := Nothing) else r.(live := InBuf(pos + n, end))
    case InCur(item, at) =>
      if at + n >= item.len && !r.run.RunCur? then r.(live := Nothing, pin := Unpinned(r.pin))
      else r.(live := InCur(item, at + n))
  }

  function ConsumeReturns(r: Reader, n: nat): set<nat> {
    if r.live.InCur? && r.live.at + n >= r.live.item.len && !r.run.RunCur? then CurReturns(r) else {}
  }

  ghost predicate ConsumedRight(r: Reader, mem: seq<bytes>, n: nat)
    requires Shape(r, mem) && n <= |Live(r, mem)|
  {
    var c := Consumed(r, n);
    && Shape(c, mem) && Live(c, mem) == Live(r, mem)[n..] && Run(c, mem) == Run(r, mem)
    && Untouched(r, mem, c, mem) && Held(c) == Held(r) - ConsumeReturns(r, n)
  }

  lemma ConsumedBytesInBuf(r: Reader, mem: seq<bytes>, n: nat)
    requires Shape(r, mem) && n <= |Live(r, mem)| && !r.live.InCur?
    ensures var c := Consumed(r, n); Shape(c, mem) && Live(c, mem) == Live(r, mem)[n..] && Run(c, mem) == Run(r, mem)
  {
  }

  lemma ConsumedBytesInCur(r: Reader, mem: seq<bytes>, n: nat)
    requires Shape(r, mem) && n <= |Live(r, mem)| && r.live.InCur?
    ensures var c := Consumed(r, n); Shape(c, mem) && Live(c, mem) == Live(r, mem)[n..] && Run(c, mem) == Run(r, mem)
  {
  }

  lemma ConsumedBytes(r: Reader, mem: seq<bytes>, n: nat)
    requires Shape(r, mem) && n <= |Live(r, mem)|
    ensures var c := Consumed(r, n); Shape(c, mem) && Live(c, mem) == Live(r, mem)[n..] && Run(c, mem) == Run(r, mem)
  {
    hide Shape, Consumed, Live, Run;
    if r.live.InCur? {
      ConsumedBytesInCur(r, mem, n);
    } else {
      ConsumedBytesInBuf(r, mem, n);
    }
  }

  lemma ConsumedUntouched(r: Reader, mem: seq<bytes>, n: nat)
    requires Shape(r, mem) && n <= |Live(r, mem)| && Shape(Consumed(r, n), mem)
    ensures Untouched(r, mem, Consumed(r, n), mem)
  {
  }

  lemma ConsumedHeld(r: Reader, mem: seq<bytes>, n: nat)
    requires Shape(r, mem) && n <= |Live(r, mem)|
    ensures Held(Consumed(r, n)) == Held(r) - ConsumeReturns(r, n)
  {
  }

  lemma ConsumedOk(r: Reader, mem: seq<bytes>, n: nat)
    requires Shape(r, mem) && n <= |Live(r, mem)|
    ensures ConsumedRight(r, mem, n)
  {
    hide Shape, Consumed, ConsumeReturns, Held, Untouched, Live, Run;
    ConsumedBytes(r, mem, n);
    ConsumedUntouched(r, mem, n);
    ConsumedHeld(r, mem, n);
  }

  // keep: consume n live bytes, contiguous with the run.

  predicate KeepFits(r: Reader, n: nat) {
    r.live.InCur? && r.run.RunBuf? ==> r.floor + n <= |r.buf|
  }

  function Kept(r: Reader, mem: seq<bytes>, n: nat): Reader
    requires Shape(r, mem) && 0 < n <= |Live(r, mem)| && KeepFits(r, n)
  {
    match r.live
    case InBuf(pos, end) =>
      if r.run.NoRun? then
        Consumed(r.(run := RunBuf(pos, n), floor := pos + n), n)
      else
        Consumed(r.(buf := Moved(r.buf, r.floor, pos, n), run := RunBuf(r.run.start, r.run.len + n), floor := r.floor + n), n)
    case InCur(item, at) =>
      match r.run {
        case NoRun => r.(run := RunCur(at, n), live := InCur(item, at + n))
        case RunCur(start, len) => r.(run := RunCur(start, len + n), live := InCur(item, at + n))
        case RunBuf(start, len) =>
          Consumed(r.(buf := Blit(r.buf, r.floor, mem[item.bufId][at..at + n]), run := RunBuf(start, len + n), floor := r.floor + n), n)
      }
  }

  /** Keeping in place slides the kept bytes down over what was dropped in between. */
  function KeptMem(r: Reader, mem: seq<bytes>, n: nat): seq<bytes>
    requires Shape(r, mem) && 0 < n <= |Live(r, mem)|
  {
    if r.live.InCur? && r.run.RunCur? then
      mem[r.live.item.bufId := Moved(mem[r.live.item.bufId], r.run.start + r.run.len, r.live.at, n)]
    else mem
  }

  /** Where keep says the n bytes are: the end of the run. */
  function KeptPlace(r: Reader): Place
    requires !r.live.Nothing?
  {
    match r.live
    case InBuf(pos, _) => BufAt(if r.run.NoRun? then pos else r.floor)
    case InCur(item, at) =>
      match r.run {
        case NoRun => SlabAt(item.bufId, at)
        case RunCur(start, len) => SlabAt(item.bufId, start + len)
        case RunBuf(_, _) => BufAt(r.floor)
      }
  }

  function KeepReturns(r: Reader, n: nat): set<nat> {
    if r.run.RunBuf? then ConsumeReturns(r, n) else {}
  }

  ghost predicate KeptRight(r: Reader, mem: seq<bytes>, n: nat)
    requires Shape(r, mem) && 0 < n <= |Live(r, mem)| && KeepFits(r, n)
  {
    var k, mem' := Kept(r, mem, n), KeptMem(r, mem, n);
    && Shape(k, mem') && Live(k, mem') == Live(r, mem)[n..] && Run(k, mem') == Run(r, mem) + Live(r, mem)[..n]
    && Untouched(r, mem, k, mem') && Held(k) == Held(r) - KeepReturns(r, n)
    && InBounds(k.buf, mem', KeptPlace(r), n) && Mem(k.buf, mem', KeptPlace(r), n) == Live(r, mem)[..n]
  }

  lemma KeptInBufFresh(r: Reader, mem: seq<bytes>, n: nat)
    requires Shape(r, mem) && r.live.InBuf? && r.run.NoRun? && 0 < n <= |Live(r, mem)|
    ensures KeptRight(r, mem, n)
  {
  }

  lemma KeptInBufMore(r: Reader, mem: seq<bytes>, n: nat)
    requires Shape(r, mem) && r.live.InBuf? && r.run.RunBuf? && 0 < n <= |Live(r, mem)|
    ensures KeptRight(r, mem, n)
  {
    hide Moved, Untouched;
    SlideJoins(r.buf, r.run.start, r.floor, r.live.pos, n, r.live.end);
    assert r.buf[r.live.pos..r.live.end][..n] == r.buf[r.live.pos..r.live.pos + n];
    assert r.buf[r.live.pos..r.live.end][n..] == r.buf[r.live.pos + n..r.live.end];
    KeptInBufMoreUntouched(r, mem, n);
  }

  lemma KeptInBufMoreUntouched(r: Reader, mem: seq<bytes>, n: nat)
    requires Shape(r, mem) && r.live.InBuf? && r.run.RunBuf? && 0 < n <= |Live(r, mem)|
    ensures Shape(Kept(r, mem, n), mem) && Untouched(r, mem, Kept(r, mem, n), mem)
  {
    hide Moved;
    SlideJoins(r.buf, r.run.start, r.floor, r.live.pos, n, r.live.end);
    Slices(r.buf, Moved(r.buf, r.floor, r.live.pos, n), r.floor, 0, r.run.start);
  }

  lemma KeptInCurFresh(r: Reader, mem: seq<bytes>, n: nat)
    requires Shape(r, mem) && r.live.InCur? && r.run.NoRun? && 0 < n <= |Live(r, mem)|
    ensures KeptRight(r, mem, n)
  {
  }

  lemma KeptInCurMore(r: Reader, mem: seq<bytes>, n: nat)
    requires Shape(r, mem) && r.live.InCur? && r.run.RunCur? && 0 < n <= |Live(r, mem)|
    ensures KeptRight(r, mem, n)
  {
    hide Moved, Untouched;
    var row := mem[r.live.item.bufId];
    SlideJoins(row, r.run.start, r.run.start + r.run.len, r.live.at, n, r.live.item.len);
    assert row[r.live.at..r.live.item.len][..n] == row[r.live.at..r.live.at + n];
    assert row[r.live.at..r.live.item.len][n..] == row[r.live.at + n..r.live.item.len];
    KeptInCurMoreUntouched(r, mem, n);
  }

  lemma KeptInCurMoreUntouched(r: Reader, mem: seq<bytes>, n: nat)
    requires Shape(r, mem) && r.live.InCur? && r.run.RunCur? && 0 < n <= |Live(r, mem)|
    ensures Shape(Kept(r, mem, n), KeptMem(r, mem, n)) && Untouched(r, mem, Kept(r, mem, n), KeptMem(r, mem, n))
  {
    hide Moved;
    var row := mem[r.live.item.bufId];
    var end := r.run.start + r.run.len;
    SlideJoins(row, r.run.start, end, r.live.at, n, r.live.item.len);
    Slices(row, Moved(row, end, r.live.at, n), end, 0, r.run.start);
  }

  lemma KeptAcross(r: Reader, mem: seq<bytes>, n: nat)
    requires Shape(r, mem) && r.live.InCur? && r.run.RunBuf? && 0 < n <= |Live(r, mem)| && KeepFits(r, n)
    ensures KeptRight(r, mem, n)
  {
    hide Blit, Untouched;
    var row := mem[r.live.item.bufId];
    KeptAcrossBuf(r, mem, n);
    assert row[r.live.at..r.live.item.len][..n] == row[r.live.at..r.live.at + n];
    assert row[r.live.at..r.live.item.len][n..] == row[r.live.at + n..r.live.item.len];
    KeptAcrossHeld(r, mem, n);
  }

  lemma KeptAcrossBuf(r: Reader, mem: seq<bytes>, n: nat)
    requires Shape(r, mem) && r.live.InCur? && r.run.RunBuf? && 0 < n <= |Live(r, mem)| && KeepFits(r, n)
    ensures var k := Kept(r, mem, n);
      && Shape(k, mem) && Untouched(r, mem, k, mem)
      && k.buf[r.run.start..r.floor + n] == r.buf[r.run.start..r.floor] + mem[r.live.item.bufId][r.live.at..r.live.at + n]
      && k.buf[r.floor..r.floor + n] == mem[r.live.item.bufId][r.live.at..r.live.at + n]
  {
    hide Blit;
    var data := mem[r.live.item.bufId][r.live.at..r.live.at + n];
    var w := Blit(r.buf, r.floor, data);
    BlitParts(r.buf, r.floor, data);
    Slices(r.buf, w, r.floor, r.run.start, r.run.len);
    Slices(r.buf, w, r.floor, 0, r.run.start);
    assert w[r.run.start..r.floor + n] == w[r.run.start..r.floor] + w[r.floor..r.floor + n];
  }

  lemma KeptAcrossHeld(r: Reader, mem: seq<bytes>, n: nat)
    requires Shape(r, mem) && r.live.InCur? && r.run.RunBuf? && 0 < n <= |Live(r, mem)| && KeepFits(r, n)
    ensures Held(Kept(r, mem, n)) == Held(r) - KeepReturns(r, n)
  {
    hide Blit;
  }

  lemma KeptOk(r: Reader, mem: seq<bytes>, n: nat)
    requires Shape(r, mem) && 0 < n <= |Live(r, mem)| && KeepFits(r, n)
    ensures KeptRight(r, mem, n)
  {
    hide KeptRight;
    if r.live.InBuf? {
      if r.run.NoRun? {
        KeptInBufFresh(r, mem, n);
      } else {
        KeptInBufMore(r, mem, n);
      }
    } else {
      match r.run {
        case NoRun =>
          KeptInCurFresh(r, mem, n);
        case RunCur(_, _) =>
          KeptInCurMore(r, mem, n);
        case RunBuf(_, _) =>
          KeptAcross(r, mem, n);
      }
    }
  }

  // run_begin: freeze the run.

  /** With another buffer pinned, a run in the current one moves to buf. */
  predicate RunMoves(r: Reader) {
    r.run.RunCur? && r.pin.Pinned? && !r.pin.isCur
  }

  predicate RunBeginFits(r: Reader) {
    RunMoves(r) ==> r.floor + r.run.len <= |r.buf|
  }

  /** Nothing but the run is left in the current buffer. */
  predicate CurSpent(r: Reader) {
    r.live.InCur? && r.live.at >= r.live.item.len
  }

  function RunBegun(r: Reader, mem: seq<bytes>): Reader
    requires Shape(r, mem)
  {
    var spent := CurSpent(r);
    match r.run
    case RunCur(start, len) =>
      if RunMoves(r) then
        var r1 := if RunBeginFits(r) then r.(buf := Blit(r.buf, r.floor, Run(r, mem)), floor := r.floor + len) else r;
        r1.(run := NoRun, live := if spent then Nothing else r.live)
      else
        r.(run := NoRun, live := if spent then Nothing else r.live, pin := Pinned(r.live.item, !spent))
    case _ => r.(run := NoRun)
  }

  function RunBeginReturns(r: Reader): set<nat> {
    if RunMoves(r) && CurSpent(r) then CurReturns(r) else {}
  }

  /** The run that run_begin froze, and where: in place, unless another buffer is pinned. */
  function Froze(r: Reader, mem: seq<bytes>): (s: seq<Frozen>)
    requires Shape(r, mem)
  {
    if r.run.NoRun? || !RunBeginFits(r) then []
    else [Frozen(if RunMoves(r) then BufAt(r.floor) else RunPlace(r), Run(r, mem))]
  }

  ghost predicate RunBegunRight(r: Reader, mem: seq<bytes>)
    requires Shape(r, mem)
  {
    var b := RunBegun(r, mem);
    && Shape(b, mem) && Live(b, mem) == Live(r, mem) && Run(b, mem) == []
    && Untouched(r, mem, b, mem) && Held(b) == Held(r) - RunBeginReturns(r)
    && (forall f :: f in Froze(r, mem) ==> StillThere(f, b, mem))
  }

  lemma RunBegunBytes(r: Reader, mem: seq<bytes>)
    requires Shape(r, mem)
    ensures var b := RunBegun(r, mem); Shape(b, mem) && Live(b, mem) == Live(r, mem) && Run(b, mem) == []
  {
    hide Blit;
  }

  lemma RunBegunUntouched(r: Reader, mem: seq<bytes>)
    requires Shape(r, mem) && Shape(RunBegun(r, mem), mem)
    ensures Untouched(r, mem, RunBegun(r, mem), mem)
  {
    hide Blit;
    if RunMoves(r) && RunBeginFits(r) {
      BlitParts(r.buf, r.floor, Run(r, mem));
    }
  }

  lemma RunBegunHeld(r: Reader, mem: seq<bytes>)
    requires Shape(r, mem)
    ensures Held(RunBegun(r, mem)) == Held(r) - RunBeginReturns(r)
  {
    hide Blit, Run;
    var b := RunBegun(r, mem);
    assert b.live == if r.run.RunCur? && CurSpent(r) then Nothing else r.live;
  }

  lemma RunBegunFroze(r: Reader, mem: seq<bytes>)
    requires Shape(r, mem) && PinOk(RunBegun(r, mem), mem)
    ensures forall f :: f in Froze(r, mem) ==> StillThere(f, RunBegun(r, mem), mem)
  {
    hide Blit;
    if RunMoves(r) && RunBeginFits(r) {
      BlitParts(r.buf, r.floor, Run(r, mem));
    }
  }

  lemma RunBegunOk(r: Reader, mem: seq<bytes>)
    requires Shape(r, mem)
    ensures RunBegunRight(r, mem)
  {
    hide RunBegun, RunBeginReturns, Froze, Untouched, StillThere, Held, Live, Run, LiveOk, RunOk, PinOk;
    RunBegunBytes(r, mem);
    RunBegunUntouched(r, mem);
    RunBegunHeld(r, mem);
    RunBegunFroze(r, mem);
  }

  // release: forget every kept byte.

  function Released(r: Reader): Reader
    requires r.live.InBuf? ==> r.live.pos <= r.live.end <= |r.buf|
  {
    match r.live
    case Nothing => Reader(r.buf, 0, Nothing, NoRun, Free)
    case InBuf(pos, end) => Reader(Moved(r.buf, 0, pos, end - pos), 0, InBuf(0, end - pos), NoRun, Free)
    case InCur(item, at) => Reader(r.buf, 0, if at >= item.len then Nothing else r.live, NoRun, Free)
  }

  function ReleaseReturns(r: Reader): set<nat> {
    (if r.pin.Pinned? && !r.pin.isCur then {r.pin.item.bufId} else {}) +
    (if CurSpent(r) then {r.live.item.bufId} else {})
  }

  lemma ReleasedOk(r: Reader, mem: seq<bytes>)
    requires Shape(r, mem)
    ensures var z := Released(r);
      && Shape(z, mem) && Live(z, mem) == Live(r, mem) && Run(z, mem) == []
      && Held(z) == Held(r) - ReleaseReturns(r)
  {
    hide Moved;
    if r.live.InBuf? {
      SlideJoins(r.buf, 0, 0, r.live.pos, r.live.end - r.live.pos, r.live.end);
    }
  }

  // The story so far, and what each step does to it.

  /** What entered the reader: bytes off the connection's queue, or injected ones. */
  datatype Piece = Received(data: bytes) | Injected(data: bytes)

  ghost function Entered(log: seq<Piece>): bytes {
    if log == [] then [] else Entered(log[..|log| - 1]) + log[|log| - 1].data
  }

  ghost function FromConn(log: seq<Piece>): bytes {
    if log == [] then []
    else FromConn(log[..|log| - 1]) + if log[|log| - 1].Received? then log[|log| - 1].data else []
  }

  lemma LogSnoc(log: seq<Piece>, p: Piece)
    ensures Entered(log + [p]) == Entered(log) + p.data
    ensures FromConn(log + [p]) == FromConn(log) + if p.Received? then p.data else []
  {
    assert (log + [p])[..|log|] == log;
  }

  /**
   * The state tells the story: everything that entered is what was consumed, then the live bytes;
   * the run is what was kept; the frozen pieces are where they were left.
   */
  ghost predicate Tells(r: Reader, mem: seq<bytes>, log: seq<Piece>, consumed: bytes, kept: bytes, frozen: seq<Frozen>) {
    && Shape(r, mem)
    && Entered(log) == consumed + Live(r, mem)
    && kept == Run(r, mem)
    && AllThere(frozen, r, mem)
  }

  lemma TellsMore(r: Reader, mem: seq<bytes>, log: seq<Piece>, consumed: bytes, kept: bytes, frozen: seq<Frozen>, r': Reader, mem': seq<bytes>, more: seq<Frozen>)
    requires Tells(r, mem, log, consumed, kept, frozen) && Shape(r', mem') && Untouched(r, mem, r', mem')
    requires Live(r', mem') == Live(r, mem) && Run(r', mem') == Run(r, mem)
    requires forall f :: f in more ==> StillThere(f, r', mem')
    ensures Tells(r', mem', log, consumed, kept, frozen + more)
  {
    hide Entered, Untouched, StillThere;
    FrozenStay(frozen, r, mem, r', mem');
  }

  lemma CompactTells(r: Reader, mem: seq<bytes>, log: seq<Piece>, consumed: bytes, kept: bytes, frozen: seq<Frozen>)
    requires Tells(r, mem, log, consumed, kept, frozen) && r.live.InBuf?
    ensures Tells(Compacted(r), mem, log, consumed, kept, frozen) && Held(Compacted(r)) == Held(r)
    ensures Live(Compacted(r), mem) == Live(r, mem)
  {
    hide Entered, Untouched, AllThere, StillThere;
    CompactedOk(r, mem);
    TellsMore(r, mem, log, consumed, kept, frozen, Compacted(r), mem, []);
    assert frozen + [] == frozen;
  }

  lemma GatherTells(r: Reader, mem: seq<bytes>, log: seq<Piece>, consumed: bytes, kept: bytes, frozen: seq<Frozen>)
    requires Tells(r, mem, log, consumed, kept, frozen) && !r.live.InBuf? && GatherFits(r, mem)
    ensures var g := Gathered(r, mem);
      && Tells(g, mem, log, consumed, kept, frozen + GatherPins(r, mem)) && Held(g) == Held(r) - GatherReturns(r)
      && Live(g, mem) == Live(r, mem)
  {
    hide Entered, Untouched, AllThere, StillThere, GatherPins;
    GatheredOk(r, mem);
    TellsMore(r, mem, log, consumed, kept, frozen, Gathered(r, mem), mem, GatherPins(r, mem));
  }

  lemma OpenTells(r: Reader, mem: seq<bytes>, log: seq<Piece>, consumed: bytes, kept: bytes, frozen: seq<Frozen>)
    requires Tells(r, mem, log, consumed, kept, frozen) && r.live.Nothing?
    ensures Tells(Opened(r), mem, log, consumed, kept, frozen) && Held(Opened(r)) == Held(r)
    ensures Live(Opened(r), mem) == Live(r, mem)
  {
    hide Entered, Untouched, AllThere, StillThere;
    OpenedOk(r, mem);
    TellsMore(r, mem, log, consumed, kept, frozen, Opened(r), mem, []);
    assert frozen + [] == frozen;
  }

  lemma AttachTells(r: Reader, mem: seq<bytes>, log: seq<Piece>, consumed: bytes, kept: bytes, frozen: seq<Frozen>, item: RxItem)
    requires Tells(r, mem, log, consumed, kept, frozen) && r.live.Nothing? && ItemOk(item, mem) && item.bufId !in Held(r)
    ensures var a, data := Attached(r, item), mem[item.bufId][..item.len];
      && Tells(a, mem, log + [Received(data)], consumed, kept, frozen) && Held(a) == Held(r) + {item.bufId}
      && Live(a, mem) == Live(r, mem) + data
  {
    hide Entered, Untouched, StillThere;
    AttachedOk(r, mem, item);
    LogSnoc(log, Received(mem[item.bufId][..item.len]));
    FrozenStay(frozen, r, mem, Attached(r, item), mem);
  }

  lemma AppendTells(r: Reader, mem: seq<bytes>, log: seq<Piece>, consumed: bytes, kept: bytes, frozen: seq<Frozen>, p: Piece)
    requires Tells(r, mem, log, consumed, kept, frozen) && r.live.InBuf? && r.live.end + |p.data| <= |r.buf|
    ensures var a := Appended(r, p.data);
      && Tells(a, mem, log + [p], consumed, kept, frozen) && Held(a) == Held(r)
      && Live(a, mem) == Live(r, mem) + p.data
  {
    hide Entered, Untouched, StillThere;
    AppendedOk(r, mem, p.data);
    LogSnoc(log, p);
    FrozenStay(frozen, r, mem, Appended(r, p.data), mem);
  }

  lemma ConsumeTells(r: Reader, mem: seq<bytes>, log: seq<Piece>, consumed: bytes, kept: bytes, frozen: seq<Frozen>, n: nat)
    requires Tells(r, mem, log, consumed, kept, frozen) && n <= |Live(r, mem)|
    ensures var c, live := Consumed(r, n), Live(r, mem);
      && Tells(c, mem, log, consumed + live[..n], kept, frozen) && Held(c) == Held(r) - ConsumeReturns(r, n)
      && Live(c, mem) == live[n..]
  {
    hide Entered, Untouched, StillThere, Consumed, ConsumeReturns, Held, Live, Run;
    ConsumedOk(r, mem, n);
    assert Live(r, mem)[..n] + Live(r, mem)[n..] == Live(r, mem);
    FrozenStay(frozen, r, mem, Consumed(r, n), mem);
  }

  lemma KeepTells(r: Reader, mem: seq<bytes>, log: seq<Piece>, consumed: bytes, kept: bytes, frozen: seq<Frozen>, n: nat)
    requires Tells(r, mem, log, consumed, kept, frozen) && 0 < n <= |Live(r, mem)| && KeepFits(r, n)
    ensures var k, mem', live := Kept(r, mem, n), KeptMem(r, mem, n), Live(r, mem);
      && Tells(k, mem', log, consumed + live[..n], kept + live[..n], frozen) && Held(k) == Held(r) - KeepReturns(r, n)
      && Live(k, mem') == live[n..]
      && InBounds(k.buf, mem', KeptPlace(r), n) && Mem(k.buf, mem', KeptPlace(r), n) == live[..n]
  {
    hide Entered, Untouched, StillThere, Kept, KeptMem, KeepReturns;
    KeptOk(r, mem, n);
    assert Live(r, mem)[..n] + Live(r, mem)[n..] == Live(r, mem);
    FrozenStay(frozen, r, mem, Kept(r, mem, n), KeptMem(r, mem, n));
  }

  lemma RunBeginTells(r: Reader, mem: seq<bytes>, log: seq<Piece>, consumed: bytes, kept: bytes, frozen: seq<Frozen>)
    requires Tells(r, mem, log, consumed, kept, frozen)
    ensures var b := RunBegun(r, mem);
      && Tells(b, mem, log, consumed, [], frozen + Froze(r, mem)) && Held(b) == Held(r) - RunBeginReturns(r)
      && Live(b, mem) == Live(r, mem)
  {
    hide Entered, Untouched, StillThere, RunBegun, RunBeginReturns, Froze;
    RunBegunOk(r, mem);
    FrozenStay(frozen, r, mem, RunBegun(r, mem), mem);
  }

  lemma ReleaseTells(r: Reader, mem: seq<bytes>, log: seq<Piece>, consumed: bytes, kept: bytes, frozen: seq<Frozen>)
    requires Tells(r, mem, log, consumed, kept, frozen)
    ensures var z := Released(r);
      && Tells(z, mem, log, consumed, [], []) && Held(z) == Held(r) - ReleaseReturns(r)
      && Live(z, mem) == Live(r, mem)
  {
    hide Entered, StillThere;
    ReleasedOk(r, mem);
  }

  /** Buffers the reader does not hold may change under it. */
  lemma OthersMayChange(r: Reader, mem: seq<bytes>, mem': seq<bytes>, log: seq<Piece>, consumed: bytes, kept: bytes, frozen: seq<Frozen>)
    requires Tells(r, mem, log, consumed, kept, frozen)
    requires |mem'| == |mem| && forall id :: id in Held(r) && id < |mem| ==> mem'[id] == mem[id]
    ensures Tells(r, mem', log, consumed, kept, frozen) && Live(r, mem') == Live(r, mem)
  {
    hide Entered, StillThere;
    FrozenStay(frozen, r, mem, r, mem');
  }
}
