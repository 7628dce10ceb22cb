/**
 * The two io_uring rings of lib/io/uring.c, and how the loop of lib/io/proactor.c uses them: 32-bit
 * counters that wrap, submissions claimed, filled and published later, completions taken in a batch
 * whose head a handler may publish half way.
 */
module UringRings {
  import opened Bytes
  import opened Rings
  import opened WorkerProtocol

  /** A ring's size: a power of two. */
  ghost predicate Entries(n: nat) {
    0 < n <= 32768 && PowerOfTwo(n)
  }

  /** The ring holds the entries of a log from an unwrapped head on. */
  ghost predicate Shows<T>(ring: seq<T>, head: nat, log: seq<T>) {
    Entries(|ring|) && head <= |log| <= head + |ring| && Window(ring, head, |log| - head) == log[head..]
  }

  /** An entry written behind the last one joins the log. */
  lemma ShowsClaim<T>(ring: seq<T>, head: nat, log: seq<T>, x: T)
    requires Shows(ring, head, log) && |log| < head + |ring|
    ensures Mod(Mod(|log|, U32), |ring|) == Mod(|log|, |ring|) && Mod(Mod(|log|, U32) + 1, U32) == Mod(|log| + 1, U32)
    ensures Shows(ring[Mod(|log|, |ring|) := x], head, log + [x])
  {
    SlotOfWrapped(|log|, |ring|);
    WindowSnoc(ring, head, |log| - head, x);
    ModNext(|log|, U32);
    assert (log + [x])[head..] == log[head..] + [x];
  }

  /** The last entry can still be rewritten. */
  lemma ShowsFill<T>(ring: seq<T>, head: nat, log: seq<T>, x: T)
    requires Shows(ring, head, log) && head < |log|
    ensures Shows(ring[Mod(|log| - 1, |ring|) := x], head, log[..|log| - 1] + [x])
  {
    var n := |log| - 1 - head;
    WindowSnoc(ring, head, n, x);
    var last := log[..|log| - 1] + [x];
    assert Window(ring, head, n) == Window(ring, head, n + 1)[..n];
    assert last[head..] == log[head..][..n] + [x];
  }

  /** Entries at the head are done with. */
  lemma ShowsFrom<T>(ring: seq<T>, head: nat, log: seq<T>, k: nat)
    requires Shows(ring, head, log) && head + k <= |log|
    ensures Shows(ring, head + k, log) && Mod(Mod(head, U32) + k, U32) == Mod(head + k, U32)
  {
    WindowFrom(ring, head, |log| - head, k);
    ModAdd(head, k, U32);
    assert log[head + k..] == log[head..][k..];
  }

  /** The i-th entry behind the head, found by wrapped counters. */
  lemma ShowsAt<T>(ring: seq<T>, head: nat, log: seq<T>, i: nat)
    requires Shows(ring, head, log) && head + i < |log|
    ensures ring[Mod(Mod(Mod(head, U32) + i, U32), |ring|)] == log[head + i]
    ensures Mod(Mod(Mod(head, U32) + i, U32), |ring|) == Mod(head + i, |ring|)
  {
    ModAdd(head, i, U32);
    SlotOfWrapped(head + i, |ring|);
    WindowAt(ring, head, |log| - head, i);
    assert log[head..][i] == log[head + i];
  }

  lemma Bounds<T>(ring: seq<T>, head: nat, log: seq<T>)
    requires Shows(ring, head, log)
    ensures Entries(|ring|) && head <= |log| <= head + |ring| && |log| < head + U32
  {
  }

  /** What the handlers of the first n completions of a batch stage. */
  function Staged(stages: seq<seq<Sqe>>, n: nat): seq<Sqe> {
    if n == 0 then [] else Staged(stages, n - 1) + if n <= |stages| then stages[n - 1] else []
  }

  /** What one entering of the kernel comes to: its answer, and what completes meanwhile. */
  datatype Entering = Entering(answer: int, arrivals: seq<Cqe>)

  const EINTR: int := 4
  const EAGAIN: int := 11
  const EBUSY: int := 16
  const ETIME: int := 62

  /** A refusal that trying again may cure. */
  predicate Passing(rc: int) {
    rc == -EBUSY || rc == -EAGAIN || rc == -EINTR
  }

  /** The handlers' stages of the completions of the first n batches, laid end to end. */
  function AllStaged(turns: seq<seq<seq<Sqe>>>, sizes: seq<nat>): seq<Sqe>
    requires |sizes| <= |turns|
  {
    if sizes == [] then []
    else AllStaged(turns, sizes[..|sizes| - 1]) + Staged(turns[|sizes| - 1], sizes[|sizes| - 1])
  }

  class Uring {
    const entries: nat
    const cqEntries: nat
    const hasSqArray: bool
    /** Submissions: the kernel's head, our published tail, our local tail, the entries, and the index array. */
    var sqHead: nat
    var sqTail: nat
    var sqeTail: nat
    const sqes: array<Sqe>
    const sqArray: array<nat>
    const zero: Sqe
    /** Completions: our head, the kernel's tail, the entries, and how many of a batch were taken. */
    var cqHead: nat
    var cqTail: nat
    const cqes: array<Cqe>
    var cqTaken: nat

    /** What each entering still to come does, and the completions the kernel holds for want of room. */
    var script: seq<Entering>
    var backlog: seq<Cqe>

    /** Everything ever claimed, the part the kernel has been told of, and what it read of it. */
    ghost var claimed: seq<Sqe>
    ghost var published: nat
    ghost var consumed: nat
    ghost var read: seq<Sqe>
    /** Everything the kernel ever posted, the part whose slots it may use again, and the part dispatched. */
    ghost var completed: seq<Cqe>
    ghost var posted: seq<Cqe>
    ghost var freed: nat
    ghost var dispatched: seq<Cqe>

    ghost predicate SqValid()
      reads this`sqHead, this`sqTail, this`sqeTail, this`claimed, this`published, this`consumed, this`read, sqes, sqArray
    {
      && sqes.Length == entries && sqArray.Length == entries
      && consumed <= published <= |claimed|
      && sqHead == Mod(consumed, U32) && sqTail == Mod(published, U32) && sqeTail == Mod(|claimed|, U32)
      && Shows(sqes[..], consumed, claimed)
      && read == claimed[..consumed]
      && (hasSqArray ==> forall k :: 0 <= k < |claimed| ==> sqArray[Mod(k, entries)] == Mod(k, entries))
    }

    ghost predicate CqValid()
      reads this`cqHead, this`cqTail, this`cqTaken, this`posted, this`freed, this`dispatched, cqes
    {
      && cqes.Length == cqEntries
      && freed + cqTaken <= |posted|
      && cqHead == Mod(freed, U32) && cqTail == Mod(|posted|, U32)
      && Shows(cqes[..], freed, posted)
      && dispatched == posted[..freed + cqTaken]
    }

    ghost predicate Valid()
      reads this, sqes, sqArray, cqes
    {
      0 < entries && SqValid() && CqValid() && completed == posted + backlog && (sqes as object) != (cqes as object) && (sqArray as object) != (cqes as object)
    }

    constructor (entries: nat, cqEntries: nat, hasSqArray: bool, zero: Sqe, script: seq<Entering>)
      requires Entries(entries) && Entries(cqEntries)
      ensures Valid() && fresh(sqes) && fresh(sqArray) && fresh(cqes)
      ensures claimed == [] && read == [] && completed == [] && posted == [] && dispatched == [] && cqTaken == 0
    {
      this.entries, this.cqEntries, this.hasSqArray, this.zero := entries, cqEntries, hasSqArray, zero;
      sqHead, sqTail, sqeTail, cqHead, cqTail, cqTaken := 0, 0, 0, 0, 0, 0;
      sqes := new Sqe[entries](_ => zero);
      sqArray := new nat[entries](_ => 0);
      cqes := new Cqe[cqEntries](_ => Cqe(0, 0, false, None));
      claimed, published, consumed, read, posted, freed, dispatched := [], 0, 0, [], [], 0, [];
      this.script, backlog, completed := script, [], [];
    }

    /** ioxd__uring_get_sqe: the next submission, zeroed; None: the ring is full of what the kernel has not consumed. */
    method GetSqe() returns (slot: Option<nat>)
      requires SqValid()
      modifies this`sqeTail, this`claimed, sqes, sqArray
      ensures SqValid()
      ensures slot.None? <==> |old(claimed)| - consumed == entries
      ensures claimed == if slot.None? then old(claimed) else old(claimed) + [zero]
      ensures slot.Some? ==> slot.value == Mod(|claimed| - 1, entries) && published < |claimed|
    {
      hide Shows;
      Bounds(sqes[..], consumed, claimed);
      DiffExact(|claimed|, consumed, U32);
      if Diff(sqeTail, sqHead, U32) >= entries {
        return None;
      }
      ShowsClaim(sqes[..], consumed, claimed, zero);
      var at := Mod(sqeTail, entries);
      if hasSqArray {
        sqArray[at] := at;
      }
      Write(at, zero);
      sqeTail := Mod(sqeTail + 1, U32);
      assert (claimed + [zero])[..consumed] == claimed[..consumed];
      claimed := claimed + [zero];
      return Some(at);
    }

    /** A submission's slot is written. */
    method Write(at: nat, e: Sqe)
      requires at < sqes.Length
      modifies sqes
      ensures sqes[..] == old(sqes[..])[at := e]
    {
      sqes[at] := e;
    }

    /** The caller writes the submission it just claimed. */
    method Fill(slot: nat, e: Sqe)
      requires SqValid() && published < |claimed| && slot == Mod(|claimed| - 1, entries)
      modifies this`claimed, sqes
      ensures SqValid() && claimed == old(claimed)[..|old(claimed)| - 1] + [e]
    {
      hide Shows;
      ShowsFill(sqes[..], consumed, claimed, e);
      assert (claimed[..|claimed| - 1] + [e])[..consumed] == claimed[..consumed];
      Write(slot, e);
      claimed := claimed[..|claimed| - 1] + [e];
    }

    /**
     * flush_and_enter: publish what was claimed, and let the kernel read some of it, in order. It
     * may refuse (a negative answer), and then it reads nothing. The count asked for is exact. What
     * completes meanwhile is posted as far as there is room, and held by the kernel beyond that.
     */
    method FlushAndEnter() returns (rc: int)
      requires Valid()
      modifies this`sqTail, this`sqHead, this`published, this`consumed, this`read
      modifies this`script, this`backlog, this`completed, this`cqTail, this`posted, cqes
      ensures Valid() && published == |claimed| && rc <= old(|claimed| - consumed)
      ensures consumed == old(consumed) + (if rc > 0 then rc else 0) && old(read) <= read
      ensures old(posted) <= posted && old(completed) <= completed
    {
      hide Shows, SqValid, CqValid;
      var now := if script == [] then Entering(0, []) else script[0];
      script := if script == [] then [] else script[1..];
      rc := Flush(now.answer);
      completed := completed + now.arrivals;
      assert posted + (backlog + now.arrivals) == posted + backlog + now.arrivals;
      backlog := backlog + now.arrivals;
      PostAll();
    }

    method Flush(answer: int) returns (rc: int)
      requires SqValid()
      modifies this`sqTail, this`sqHead, this`published, this`consumed, this`read
      ensures SqValid() && published == |claimed|
      ensures rc == if answer > old(|claimed| - consumed) then old(|claimed| - consumed) else answer
      ensures consumed == old(consumed) + (if rc > 0 then rc else 0) && old(read) <= read
    {
      hide Shows;
      Bounds(sqes[..], consumed, claimed);
      DiffExact(|claimed|, consumed, U32);
      var toSubmit := Diff(sqeTail, sqHead, U32);
      sqTail := sqeTail;
      published := |claimed|;
      rc := if answer > toSubmit then toSubmit else answer;
      if rc > 0 {
        Consume(rc);
      }
    }

    /** The kernel's side: n submissions from its head on, as it finds them there. */
    method Consume(n: nat)
      requires SqValid() && consumed + n <= published
      modifies this`sqHead, this`consumed, this`read
      ensures SqValid() && consumed == old(consumed) + n && old(read) <= read
    {
      hide SqValid;
      for i := 0 to n
        invariant SqValid() && consumed == old(consumed) + i && old(read) <= read
      {
        ConsumeOne();
      }
    }

    /** The next submission the kernel reads is the next one claimed. */
    method ConsumeOne()
      requires SqValid() && consumed < published
      modifies this`sqHead, this`consumed, this`read
      ensures SqValid() && consumed == old(consumed) + 1 && read == old(read) + [claimed[old(consumed)]]
    {
      var e := KernelReads();
      hide Shows;
      ShowsFrom(sqes[..], consumed, claimed, 1);
      assert claimed[..consumed + 1] == claimed[..consumed] + [e];
      sqHead := Mod(sqHead + 1, U32);
      consumed := consumed + 1;
      read := read + [e];
    }

    /** What the kernel finds at its head, through the index array if there is one. */
    method KernelReads() returns (e: Sqe)
      requires SqValid() && consumed < published
      ensures e == claimed[consumed]
    {
      hide Shows;
      ShowsAt(sqes[..], consumed, claimed, 0);
      Bounds(sqes[..], consumed, claimed);
      var slot := Mod(sqHead, entries);
      e := sqes[if hasSqArray then sqArray[slot] else slot];
    }

    /** The kernel posts what it holds, in order, while there is room. */
    method PostAll()
      requires CqValid()
      modifies this`cqTail, this`posted, this`backlog, cqes
      ensures CqValid() && posted + backlog == old(posted + backlog) && old(posted) <= posted
      ensures backlog == [] || |posted| == freed + cqEntries
    {
      hide CqValid;
      var room := true;
      while backlog != [] && room
        invariant CqValid() && posted + backlog == old(posted + backlog) && old(posted) <= posted
        invariant room || |posted| == freed + cqEntries
        decreases |backlog|, room
      {
        room := Post(backlog[0]);
        if room {
          assert posted[..|posted| - 1] + backlog == posted + backlog[1..];
          backlog := backlog[1..];
        }
      }
    }

    /** The kernel completes something; it waits while the ring is full of what was not freed. */
    method Post(e: Cqe) returns (ok: bool)
      requires CqValid()
      modifies this`cqTail, this`posted, cqes
      ensures CqValid() && ok == (|old(posted)| < freed + cqEntries)
      ensures |posted| <= freed + cqEntries
      ensures posted == if ok then old(posted) + [e] else old(posted)
    {
      hide Shows;
      Bounds(cqes[..], freed, posted);
      DiffExact(|posted|, freed, U32);
      if Diff(cqTail, cqHead, U32) >= cqEntries {
        return false;
      }
      ShowsClaim(cqes[..], freed, posted, e);
      WriteCqe(Mod(cqTail, cqEntries), e);
      cqTail := Mod(cqTail + 1, U32);
      assert (posted + [e])[..freed + cqTaken] == posted[..freed + cqTaken];
      posted := posted + [e];
      return true;
    }

    method WriteCqe(at: nat, e: Cqe)
      requires at < cqes.Length
      modifies cqes
      ensures cqes[..] == old(cqes[..])[at := e]
    {
      cqes[at] := e;
    }

    /** ioxd__uring_cq_ready. */
    method CqReady() returns (n: nat)
      requires CqValid()
      ensures n == |posted| - freed
    {
      hide Shows;
      Bounds(cqes[..], freed, posted);
      DiffExact(|posted|, freed, U32);
      n := Diff(cqTail, cqHead, U32);
    }

    /** One turn of the batch: the completion at the head plus what was taken of it, copied and counted as taken. */
    method Take() returns (e: Cqe)
      requires CqValid() && freed + cqTaken < |posted|
      modifies this`cqTaken, this`dispatched
      ensures CqValid() && e == posted[freed + old(cqTaken)] && dispatched == old(dispatched) + [e]
      ensures cqTaken == old(cqTaken) + 1
    {
      hide Shows;
      ShowsAt(cqes[..], freed, posted, cqTaken);
      Bounds(cqes[..], freed, posted);
      e := cqes[Mod(Mod(cqHead + cqTaken, U32), cqEntries)];
      assert posted[..freed + cqTaken + 1] == posted[..freed + cqTaken] + [e];
      dispatched := dispatched + [e];
      cqTaken := cqTaken + 1;
    }

    /** publish_cq: the slots of what was taken are the kernel's again. */
    method PublishCq()
      requires CqValid()
      modifies this`cqHead, this`cqTaken, this`freed
      ensures CqValid() && cqTaken == 0 && freed == old(freed + cqTaken)
    {
      hide Shows;
      if cqTaken > 0 {
        ShowsFrom(cqes[..], freed, posted, cqTaken);
        cqHead := Mod(cqHead + cqTaken, U32);
        freed := freed + cqTaken;
        cqTaken := 0;
      }
    }

    /**
     * ioxd__proactor_sqe, and the caller filling what it gets: flushing while the ring is full, at
     * most sixteen times; false is the abort, and it comes only if the kernel read nothing in all of
     * them. What is staged joins what was claimed, in order, and nothing claimed before is lost or
     * written over; completions taken so far are freed meanwhile.
     */
    method Stage(e: Sqe) returns (ok: bool)
      requires Valid()
      modifies this, sqes, sqArray, cqes
      ensures Valid() && claimed == if ok then old(claimed) + [e] else old(claimed)
      ensures ok <==> old(|claimed| - consumed) < entries || consumed > old(consumed)
      ensures old(posted) <= posted && dispatched == old(dispatched) && freed + cqTaken == old(freed + cqTaken)
      ensures old(read) <= read && old(completed) <= completed
    {
      hide SqValid, CqValid;
      Lengths();
      var slot := GetSqe();
      var i := 0;
      while slot.None? && i < 16
        invariant Valid() && old(consumed) <= consumed
        invariant slot.None? ==> claimed == old(claimed) && consumed == old(consumed) && |claimed| - consumed == entries
        invariant slot.Some? ==> claimed == old(claimed) + [zero] && slot.value == Mod(|claimed| - 1, entries) && published < |claimed|
        invariant slot.Some? ==> old(|claimed| - consumed) < entries || consumed > old(consumed)
        invariant old(posted) <= posted && dispatched == old(dispatched) && freed + cqTaken == old(freed + cqTaken)
        invariant old(read) <= read && old(completed) <= completed
        decreases 16 - i
      {
        slot := Retry();
        i := i + 1;
      }
      if slot.None? {
        return false;
      }
      Fill(slot.value, e);
      assert (old(claimed) + [zero])[..|old(claimed)|] == old(claimed);
      return true;
    }

    lemma Lengths()
      requires SqValid()
      ensures consumed <= |claimed| <= consumed + entries
    {
    }

    /** One turn of proactor_sqe's loop: a refusal that passes is tried again, waiting. */
    method Retry() returns (slot: Option<nat>)
      requires Valid() && |claimed| - consumed == entries
      modifies this, sqes, sqArray, cqes
      ensures Valid() && old(consumed) <= consumed
      ensures claimed == if slot.None? then old(claimed) else old(claimed) + [zero]
      ensures slot.None? <==> consumed == old(consumed)
      ensures slot.Some? ==> slot.value == Mod(|claimed| - 1, entries) && published < |claimed|
      ensures old(posted) <= posted && dispatched == old(dispatched) && freed + cqTaken == old(freed + cqTaken)
      ensures old(read) <= read && old(completed) <= completed
    {
      hide SqValid, CqValid;
      PublishCq();
      var rc := FlushAndEnter();
      if Passing(rc) {
        rc := FlushAndEnter();
      }
      slot := GetSqe();
    }

    /** What was dispatched is what completed, up to there. */
    lemma AllDispatched()
      requires CqValid()
      ensures dispatched <= posted && |dispatched| == freed + cqTaken
    {
      hide Shows;
    }

    method TakeNext(ghost was: seq<Cqe>, ghost at: nat) returns (e: Cqe)
      requires Valid() && was <= posted && freed + cqTaken == at < |was|
      modifies this`cqTaken, this`dispatched
      ensures Valid() && e == was[at] && dispatched == old(dispatched) + [e] && freed + cqTaken == at + 1
    {
      hide Shows;
      e := Take();
    }

    /** A handler stages its submissions. */
    method StageAll(es: seq<Sqe>) returns (ok: bool)
      requires Valid()
      modifies this, sqes, sqArray, cqes
      ensures Valid() && (ok ==> claimed == old(claimed) + es)
      ensures old(posted) <= posted && dispatched == old(dispatched) && freed + cqTaken == old(freed + cqTaken)
      ensures old(read) <= read && old(completed) <= completed
    {
      hide SqValid, CqValid;
      ok := true;
      for i := 0 to |es|
        invariant Valid() && claimed == old(claimed) + es[..i]
        invariant old(posted) <= posted && dispatched == old(dispatched) && freed + cqTaken == old(freed + cqTaken)
        invariant old(read) <= read && old(completed) <= completed
      {
        ok := Stage(es[i]);
        if !ok {
          return;
        }
        assert es[..i + 1] == es[..i] + [es[i]];
      }
      assert es[..|es|] == es;
    }

    /**
     * The batch of the loop: what was ready when it began is dispatched, each once and in the order
     * it completed, whatever the handlers stage on the way and whatever completes meanwhile.
     */
    method Batch(stages: seq<seq<Sqe>>) returns (ok: bool, ghost size: nat)
      requires Valid() && cqTaken == 0
      modifies this, sqes, sqArray, cqes
      ensures Valid() && size == old(|posted| - freed)
      ensures ok ==> dispatched == old(dispatched) + old(posted[freed..]) && freed == old(|posted|) && cqTaken == 0
      ensures ok ==> claimed == old(claimed) + Staged(stages, size)
      ensures old(dispatched) <= dispatched && dispatched <= posted && old(posted) <= posted
      ensures old(read) <= read && old(completed) <= completed
    {
      hide SqValid, CqValid;
      AllDispatched();
      var ready := CqReady();
      ok, size := true, ready;
      assert old(claimed) + Staged(stages, 0) == claimed;
      for i := 0 to ready
        invariant Valid() && freed + cqTaken == old(freed) + i
        invariant old(posted) <= posted && old(read) <= read && old(completed) <= completed
        invariant dispatched == old(dispatched) + old(posted[freed..])[..i]
        invariant claimed == old(claimed) + Staged(stages, i)
      {
        var e := TakeNext(old(posted), old(freed) + i);
        assert old(posted[freed..])[..i + 1] == old(posted[freed..])[..i] + [e];
        if i < |stages| {
          ok := StageAll(stages[i]);
          if !ok {
            AllDispatched();
            return;
          }
          assert old(claimed) + Staged(stages, i) + stages[i] == old(claimed) + Staged(stages, i + 1);
        }
      }
      PublishCq();
      AllDispatched();
    }

    /** One turn of the loop: enter and wait, then the batch; an answer that is no passing one ends the run. */
    method Turn(stages: seq<seq<Sqe>>) returns (ok: bool, ghost size: nat)
      requires Valid() && cqTaken == 0
      modifies this, sqes, sqArray, cqes
      ensures Valid() && old(read) <= read && old(dispatched) <= dispatched && old(completed) <= completed
      ensures ok ==> claimed == old(claimed) + Staged(stages, size) && cqTaken == 0 && |dispatched| >= old(|posted|)
    {
      hide SqValid, CqValid;
      size := 0;
      var rc := FlushAndEnter();
      if rc < 0 && rc != -ETIME && !Passing(rc) {
        return false, 0;
      }
      ok, size := Batch(stages);
      AllDispatched();
    }

    /**
     * Any run of the loop, with any kernel: what the kernel read is what was claimed, each entry once
     * and in order; what was dispatched is what completed, each once and in order; and what completed
     * is posted or still held, none of it lost.
     */
    method Run(turns: seq<seq<seq<Sqe>>>) returns (ok: bool, ghost sizes: seq<nat>)
      requires Valid() && cqTaken == 0
      modifies this, sqes, sqArray, cqes
      ensures Valid()
      ensures ok ==> |sizes| == |turns| && claimed == old(claimed) + AllStaged(turns, sizes)
      ensures old(read) <= read <= claimed && old(dispatched) <= dispatched <= posted <= completed
      ensures completed == posted + backlog
    {
      hide SqValid, CqValid;
      ok, sizes := true, [];
      assert claimed == old(claimed) + AllStaged(turns, []);
      for i := 0 to |turns|
        invariant Valid() && cqTaken == 0 && |sizes| == i
        invariant old(read) <= read && old(dispatched) <= dispatched
        invariant claimed == old(claimed) + AllStaged(turns, sizes)
      {
        ghost var size;
        ok, size := Turn(turns[i]);
        if !ok {
          AllRead();
          AllDispatched();
          return;
        }
        assert (sizes + [size])[..i] == sizes;
        assert old(claimed) + AllStaged(turns, sizes) + Staged(turns[i], size)
            == old(claimed) + (AllStaged(turns, sizes) + Staged(turns[i], size));
        sizes := sizes + [size];
      }
      AllRead();
      AllDispatched();
    }

    /** What the kernel read is what was claimed, up to there. */
    lemma AllRead()
      requires SqValid()
      ensures read <= claimed && |read| == consumed <= published
    {
      hide Shows;
    }
  }
}
