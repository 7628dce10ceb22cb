/**
 * The receiving half of io/conn.c, as one connection's reader sees it: the queue the recv
 * completions fill, the end of input, and the await for the next buffer. What the kernel and the
 * worker's other connections do meanwhile is a script fixed in advance and otherwise arbitrary.
 *
 * The queue and the buffer ring appear here as the sequences that SpscRing.Spsc and
 * ProvidedBuffers.BufRing are proved to hold.
 */
module ConnInput {
  import opened Bytes
  import opened SpscRing

  const ENOBUFS: int := 105
  const EIO: int := 5

  datatype Event =
    | Data(data: bytes)            // a recv completion carrying bytes
    | End(err: int)                // the recv's terminal completion: 0 for a FIN, else -errno
    | Publish                      // the loop publishes the staged returns
    | OtherTakes                   // another connection is handed a buffer
    | OtherReturns(bufId: nat)     // ... and gives one back

  ghost function Ids(q: seq<RxItem>): (s: multiset<nat>) {
    if q == [] then multiset{} else multiset{q[0].bufId} + Ids(q[1..])
  }

  lemma {:induction false} IdsSnoc(q: seq<RxItem>, x: RxItem)
    ensures Ids(q + [x]) == Ids(q) + multiset{x.bufId}
  {
    if q == [] {
      assert q + [x] == [x];
    } else {
      assert (q + [x])[1..] == q[1..] + [x];
      IdsSnoc(q[1..], x);
    }
  }

  lemma {:induction false} IdsHas(q: seq<RxItem>, i: nat)
    requires i < |q|
    ensures q[i].bufId in Ids(q)
  {
    if i > 0 {
      IdsHas(q[1..], i - 1);
    }
  }

  ghost function AllIds(n: nat): (s: set<nat>)
    ensures |s| == n
    ensures forall x: nat :: x in s <==> x < n
  {
    if n == 0 then {} else AllIds(n - 1) + {n - 1}
  }

  // The census: every provided buffer is in exactly one place.

  ghost predicate Census(offered: seq<nat>, rx: seq<RxItem>, mine: set<nat>, others: multiset<nat>, n: nat) {
    multiset(offered) + Ids(rx) + multiset(mine) + others == multiset(AllIds(n))
  }

  /** A buffer has one place only. */
  lemma OnePlace(offered: seq<nat>, rx: seq<RxItem>, mine: set<nat>, others: multiset<nat>, n: nat, id: nat)
    requires Census(offered, rx, mine, others, n)
    ensures multiset(offered)[id] + Ids(rx)[id] + (if id in mine then 1 else 0) + others[id] == if id < n then 1 else 0
  {
    var all := multiset(offered) + Ids(rx) + multiset(mine) + others;
    assert all[id] == multiset(AllIds(n))[id];
  }

  /** The oldest buffer on the ring belongs to nobody else; it may move into the queue, or to another connection. */
  lemma CensusPick(offered: seq<nat>, rx: seq<RxItem>, mine: set<nat>, others: multiset<nat>, n: nat, len: nat)
    requires Census(offered, rx, mine, others, n) && offered != []
    ensures offered[0] < n && offered[0] !in mine
    ensures forall i :: 0 <= i < |rx| ==> rx[i].bufId != offered[0]
    ensures Census(offered[1..], rx + [RxItem(len, offered[0])], mine, others, n)
    ensures Census(offered[1..], rx, mine, others + multiset{offered[0]}, n)
    ensures Census(offered[1..] + [offered[0]], rx, mine, others, n)
  {
    var id := offered[0];
    OnePlace(offered, rx, mine, others, n, id);
    assert offered == [id] + offered[1..];
    IdsSnoc(rx, RxItem(len, id));
    forall i | 0 <= i < |rx|
      ensures rx[i].bufId != id
    {
      IdsHas(rx, i);
    }
  }

  /** The oldest queued buffer becomes the reader's. */
  lemma CensusPop(offered: seq<nat>, rx: seq<RxItem>, mine: set<nat>, others: multiset<nat>, n: nat)
    requires Census(offered, rx, mine, others, n) && rx != []
    ensures Census(offered, rx[1..], mine + {rx[0].bufId}, others, n)
    ensures rx[0].bufId < n && rx[0].bufId !in mine
  {
    OnePlace(offered, rx, mine, others, n, rx[0].bufId);
    assert multiset(mine + {rx[0].bufId}) == multiset(mine) + multiset{rx[0].bufId};
  }

  /** A buffer the reader, or another connection, holds goes back to the ring, which has room for it. */
  lemma CensusReturn(offered: seq<nat>, rx: seq<RxItem>, mine: set<nat>, others: multiset<nat>, n: nat, id: nat)
    requires Census(offered, rx, mine, others, n)
    requires id in mine || id in others
    ensures |offered| < n
    ensures id in mine ==> Census(offered + [id], rx, mine - {id}, others, n)
    ensures id in others ==> Census(offered + [id], rx, mine, others - multiset{id}, n)
  {
    OnePlace(offered, rx, mine, others, n, id);
    var rest := Ids(rx) + multiset(mine) + others;
    assert multiset(mine - {id}) == multiset(mine) - multiset{id};
    assert id in rest;
    assert |multiset(offered) + rest| == |multiset(AllIds(n))|;
  }

  lemma CensusApart(offered: seq<nat>, rx: seq<RxItem>, mine: set<nat>, others: multiset<nat>, n: nat, id: nat, i: nat)
    requires Census(offered, rx, mine, others, n) && id in mine && i < |rx|
    ensures rx[i].bufId != id
  {
    OnePlace(offered, rx, mine, others, n, id);
    IdsHas(rx, i);
  }

  /** A queued item names a buffer that starts with those bytes. */
  ghost predicate Holds(mem: seq<bytes>, item: RxItem, data: bytes) {
    item.bufId < |mem| && 0 < item.len <= |mem[item.bufId]| && data == mem[item.bufId][..item.len]
  }

  /** The buffers that were queued. */
  ghost function Picked(input: seq<bytes>, queued: seq<bool>): seq<bytes>
    requires |input| == |queued|
  {
    if input == [] then []
    else Picked(input[..|input| - 1], queued[..|input| - 1]) + if queued[|input| - 1] then [input[|input| - 1]] else []
  }

  /** What was delivered is the bytes of the buffers that were queued. */
  ghost predicate Delivers(delivered: bytes, input: seq<bytes>, queued: seq<bool>) {
    && |input| == |queued| && delivered == Flatten(Picked(input, queued))
    && forall i :: 0 <= i < |input| ==> input[i] != []
  }

  lemma DeliversMore(delivered: bytes, input: seq<bytes>, queued: seq<bool>, data: bytes, room: bool)
    requires Delivers(delivered, input, queued) && data != []
    ensures Delivers(if room then delivered + data else delivered, input + [data], queued + [room])
  {
    hide Flatten;
    assert (input + [data])[..|input|] == input && (queued + [room])[..|input|] == queued;
    FlattenSnoc(Picked(input, queued), data);
    assert Picked(input, queued) + [] == Picked(input, queued);
  }

  lemma GapStep(queued: seq<bool>, room: bool)
    ensures var more := queued + [room];
            (forall i, j :: 0 <= i < j < |more| && more[j] ==> more[i]) <==>
            && (forall i, j :: 0 <= i < j < |queued| && queued[j] ==> queued[i])
            && (room ==> forall i :: 0 <= i < |queued| ==> queued[i])
  {
    var more := queued + [room];
    assert forall i :: 0 <= i < |queued| ==> more[i] == queued[i];
    assert more[|queued|] == room;
  }

  lemma {:induction false} PickedAll(input: seq<bytes>, queued: seq<bool>)
    requires |input| == |queued| && forall i :: 0 <= i < |queued| ==> queued[i]
    ensures Picked(input, queued) == input
  {
    if input != [] {
      PickedAll(input[..|input| - 1], queued[..|input| - 1]);
    }
  }

  /** What was dropped is missing from the length. */
  lemma {:induction false} PickedLength(input: seq<bytes>, queued: seq<bool>)
    requires |input| == |queued| && forall i :: 0 <= i < |input| ==> input[i] != []
    ensures |Flatten(Picked(input, queued))| <= |Flatten(input)|
    ensures |Flatten(Picked(input, queued))| == |Flatten(input)| ==> forall i :: 0 <= i < |queued| ==> queued[i]
  {
    hide Flatten;
    if input != [] {
      var n := |input| - 1;
      PickedLength(input[..n], queued[..n]);
      assert input == input[..n] + [input[n]];
      FlattenSnoc(input[..n], input[n]);
      FlattenSnoc(Picked(input[..n], queued[..n]), input[n]);
      assert Picked(input[..n], queued[..n]) + [] == Picked(input[..n], queued[..n]);
      forall i | 0 <= i < |queued| && |Flatten(Picked(input, queued))| == |Flatten(input)|
        ensures queued[i]
      {
        assert i < n ==> queued[..n][i] == queued[i];
      }
    }
  }

  lemma {:induction false} PickedFront(input: seq<bytes>, queued: seq<bool>) returns (k: nat)
    requires |input| == |queued| && forall i, j :: 0 <= i < j < |queued| && queued[j] ==> queued[i]
    ensures k <= |input| && Picked(input, queued) == input[..k]
  {
    var n := |input| - 1;
    if input == [] {
      k := 0;
    } else if queued[n] {
      PickedAll(input, queued);
      k := n + 1;
    } else {
      k := PickedFront(input[..n], queued[..n]);
      assert input[..n][..k] == input[..k];
    }
  }

  class Conn {
    /** The provided buffers, `size` bytes each. */
    const size: nat
    /** Its listener has certificates: the kernel decrypts, and says -EIO when the peer says it is done. */
    const tls: bool
    var mem: seq<bytes>
    /** The buffers on the ring, staged returns included, oldest first; the kernel sees the first `published`. */
    var offered: seq<nat>
    var published: nat
    var rx: seq<RxItem>
    var eof: bool
    var err: int
    /** What is still to happen. */
    var script: seq<Event>
    /** Buffers this connection's reader holds, and the ones in use elsewhere on the worker. */
    ghost var mine: set<nat>
    var others: multiset<nat>
    /** The bytes of each queued buffer, as the kernel wrote them. */
    ghost var contents: seq<bytes>
    /** Everything queued so far, and the part of it already handed to the reader. */
    ghost var delivered: bytes
    ghost var popped: bytes
    /** The bytes of every buffer that arrived, and whether it was queued. */
    ghost var input: seq<bytes>
    ghost var queued: seq<bool>

    ghost predicate Valid()
      reads this
    {
      && published <= |offered| && |rx| <= RX_QUEUE && err <= 0
      && delivered == popped + Flatten(contents)
      && Delivers(delivered, input, queued)
      && |contents| == |rx|
      && (forall i :: 0 <= i < |mem| ==> |mem[i]| == size)
      && (forall i :: 0 <= i < |rx| ==> Holds(mem, rx[i], contents[i]))
      && Census(offered, rx, mine, others, |mem|)
    }

    /** No buffer was queued behind one that was dropped. */
    ghost predicate Gapless()
      reads this`queued
    {
      forall i, j :: 0 <= i < j < |queued| && queued[j] ==> queued[i]
    }

    /** Nothing was dropped. */
    ghost predicate AllQueued()
      reads this`queued
    {
      forall i :: 0 <= i < |queued| ==> queued[i]
    }

    /**
     * Over a whole life: everything that arrived was delivered exactly when nothing was dropped; and
     * without a gap what was delivered is all the buffers that arrived up to some point.
     */
    lemma Stream()
      requires Valid()
      ensures delivered == Flatten(input) <==> AllQueued()
      ensures Gapless() ==> exists k :: 0 <= k <= |input| && delivered == Flatten(input[..k])
    {
      hide Flatten, Census, Holds;
      PickedLength(input, queued);
      if AllQueued() {
        PickedAll(input, queued);
        assert input[..|input|] == input;
      }
      if Gapless() {
        var k := PickedFront(input, queued);
      }
    }

    /** Nothing wrote to the buffers the reader holds. */
    twostate predicate MineUntouched()
      reads this
    {
      |mem| == old(|mem|) && forall id :: id in old(mine) && id < |mem| ==> mem[id] == old(mem[id])
    }

    ghost function Pending(): nat
      reads this
    {
      |script| + |rx|
    }

    constructor (mem: seq<bytes>, size: nat, tls: bool, offered: seq<nat>, others: multiset<nat>, script: seq<Event>)
      requires forall i :: 0 <= i < |mem| ==> |mem[i]| == size
      requires multiset(offered) + others == multiset(AllIds(|mem|))
      ensures Valid() && this.mem == mem && this.size == size && this.tls == tls
      ensures this.offered == offered && this.others == others && this.script == script
      ensures mine == {} && delivered == popped == [] && rx == [] && !eof
    {
      this.mem, this.size, this.tls, this.offered, this.others, this.script := mem, size, tls, offered, others, script;
      published := |offered|;
      rx, contents := [], [];
      eof, err := false, 0;
      delivered, popped := [], [];
      input, queued := [], [];
      mine := {};
    }

    /** end_input: the first reason wins. */
    method EndInput(e: int)
      requires e <= 0
      modifies this`eof, this`err
      ensures eof && err == if old(eof) then old(err) else e
    {
      if !eof {
        eof, err := true, e;
      }
    }

    /** A buffer goes back to the ring, which has room for it: it was the reader's. */
    method Return(id: nat)
      requires Valid() && id in mine
      modifies this`mine, this`offered
      ensures Valid() && mine == old(mine) - {id}
      ensures offered == old(offered) + [id]
      ensures |offered| <= |mem|
    {
      hide Census, Flatten;
      CensusReturn(offered, rx, mine, others, |mem|, id);
      offered := offered + [id];
      mine := mine - {id};
    }

    /** One event of the script. */
    method Step()
      requires Valid() && script != []
      modifies this
      ensures Valid() && MineUntouched() && mine == old(mine) && popped == old(popped)
      ensures script == old(script)[1..] && Pending() <= old(Pending())
      ensures old(delivered) <= delivered
      ensures old(eof) ==> eof && err == old(err)
    {
      hide Census, Flatten, Delivers, Picked, Holds;
      var e := script[0];
      script := script[1..];
      match e {
        case Data(data) =>
          if 0 < |data| <= size && published > 0 {
            OnData(data);
          }
        case End(err) =>
          if err <= 0 {
            EndInput(if err == -EIO && tls then 0 else err);
          }
        case Publish =>
          published := |offered|;
        case OtherTakes =>
          OtherTake();
        case OtherReturns(id) =>
          OtherReturn(id);
      }
    }

    method OtherTake()
      requires Valid()
      modifies this`offered, this`published, this`others
      ensures Valid()
    {
      hide Census, Flatten;
      if published > 0 {
        CensusPick(offered, rx, mine, others, |mem|, 0);
        others := others + multiset{offered[0]};
        offered, published := offered[1..], published - 1;
      }
    }

    method OtherReturn(id: nat)
      requires Valid()
      modifies this`offered, this`others
      ensures Valid()
    {
      hide Census, Flatten;
      if id in others {
        CensusReturn(offered, rx, mine, others, |mem|, id);
        offered := offered + [id];
        others := others - multiset{id};
      }
    }

    /**
     * The kernel fills the next buffer on the ring and the completion queues it, or drops it when the
     * queue is full (ioxd__conn_on_recv). The input has ended from then on, but a completion that is
     * still to come is queued if there is room again, and the stream has a gap: exactly when
     * something was dropped before it.
     */
    method OnData(data: bytes)
      requires Valid() && 0 < |data| <= size && published > 0
      modifies this`offered, this`published, this`rx, this`contents, this`delivered, this`eof, this`err, this`mem, this`input, this`queued
      ensures Valid() && MineUntouched()
      ensures input == old(input) + [data] && published == old(published) - 1
      ensures |rx| == if |old(rx)| < RX_QUEUE then |old(rx)| + 1 else RX_QUEUE
      ensures queued == old(queued) + [|old(rx)| < RX_QUEUE]
      ensures Gapless() <==> old(Gapless() && (|rx| < RX_QUEUE ==> AllQueued()))
      ensures if |old(rx)| < RX_QUEUE
              then delivered == old(delivered) + data && eof == old(eof) && err == old(err)
              else delivered == old(delivered) && eof && err == if old(eof) then old(err) else -ENOBUFS
      ensures |rx| <= |old(rx)| + 1
    {
      hide Census, Flatten, Ids, Delivers, Picked, Gapless, AllQueued;
      var id := offered[0];
      Arrives(data, |rx| < RX_QUEUE);
      CensusPick(offered, rx, mine, others, |mem|, |data|);
      offered, published := offered[1..], published - 1;
      mem := mem[id := data + mem[id][|data|..]];
      if |rx| == RX_QUEUE {
        offered := offered + [id];
        EndInput(-ENOBUFS);
      } else {
        Push(id, data);
      }
    }

    /** A buffer's bytes are in, whether or not there is room for them in the queue. */
    ghost method Arrives(data: bytes, room: bool)
      requires Delivers(delivered, input, queued) && data != []
      modifies this`input, this`queued
      ensures Delivers(if room then delivered + data else delivered, input, queued)
      ensures input == old(input) + [data] && queued == old(queued) + [room]
      ensures Gapless() <==> old(Gapless() && (room ==> AllQueued()))
    {
      hide Delivers;
      DeliversMore(delivered, input, queued, data, room);
      GapStep(queued, room);
      input, queued := input + [data], queued + [room];
    }

    /** A buffer the kernel filled, already off the ring, joins the queue. */
    method Push(id: nat, data: bytes)
      requires 0 < |data| <= size && id < |mem| && |mem[id]| == size && mem[id][..|data|] == data
      requires published <= |offered| && |rx| < RX_QUEUE && err <= 0 && delivered == popped + Flatten(contents) && |contents| == |rx|
      requires (forall i :: 0 <= i < |mem| ==> |mem[i]| == size) && (forall i :: 0 <= i < |rx| ==> Holds(mem, rx[i], contents[i]))
      requires Census(offered, rx + [RxItem(|data|, id)], mine, others, |mem|)
      requires Delivers(delivered + data, input, queued)
      modifies this`rx, this`contents, this`delivered
      ensures Valid() && delivered == old(delivered) + data && rx == old(rx) + [RxItem(|data|, id)]
    {
      hide Census, Flatten, Ids, Delivers, Picked;
      FlattenSnoc(contents, data);
      rx := rx + [RxItem(|data|, id)];
      contents := contents + [data];
      delivered := delivered + data;
    }

    /**
     * ioxd__conn_recv_item: the next buffer, whole, or the end of input; waits for events until
     * there is one or the other. A script that runs out is a peer that shut down.
     */
    method RecvItem() returns (rc: int, item: RxItem)
      requires Valid()
      modifies this
      ensures Valid() && MineUntouched()
      ensures rc == 1 ==>
        && mine == old(mine) + {item.bufId} && item.bufId < |mem| && 0 < item.len <= |mem[item.bufId]|
        && item.bufId !in old(mine)
        && popped == old(popped) + mem[item.bufId][..item.len]
        && Pending() < old(Pending())
      ensures rc != 1 ==> rc <= 0 && eof && rc == err && mine == old(mine) && popped == old(popped) && rx == []
      ensures old(delivered) <= delivered
      ensures old(rx) != [] ==>
        && rc == 1 && script == old(script) && delivered == old(delivered) && rx == old(rx)[1..] && published == old(published)
        && input == old(input) && queued == old(queued) && eof == old(eof) && err == old(err)
    {
      hide Census, Delivers, Picked, Holds, Flatten;
      item := RxItem(0, 0);
      while true
        invariant Valid() && MineUntouched() && mine == old(mine) && popped == old(popped)
        invariant Pending() <= old(Pending())
        invariant old(delivered) <= delivered
        invariant old(rx) != [] ==>
          && rx == old(rx) && script == old(script) && delivered == old(delivered) && published == old(published)
          && input == old(input) && queued == old(queued) && eof == old(eof) && err == old(err)
        decreases |script|, !eof
      {
        if rx != [] {
          item := Pop();
          return 1, item;
        }
        if eof {
          return err, item;
        }
        if script == [] {
          EndInput(0);
        } else {
          Step();
        }
      }
    }

    method Pop() returns (item: RxItem)
      requires Valid() && rx != []
      modifies this`rx, this`popped, this`contents, this`mine
      ensures Valid() && item == old(rx)[0] && rx == old(rx)[1..] && mine == old(mine) + {item.bufId}
      ensures item.bufId < |mem| && 0 < item.len <= |mem[item.bufId]| && item.bufId !in old(mine)
      ensures popped == old(popped) + mem[item.bufId][..item.len]
    {
      hide Census;
      item := rx[0];
      CensusPop(offered, rx, mine, others, |mem|);
      assert Holds(mem, rx[0], contents[0]);
      rx := rx[1..];
      popped := popped + contents[0];
      contents := contents[1..];
      mine := mine + {item.bufId};
    }

    /** memmove within a buffer the reader holds; no other buffer sees it. */
    method MoveWithin(id: nat, dst: nat, src: nat, n: nat)
      requires Valid() && id in mine && id < |mem|
      requires dst + n <= size && src + n <= size
      modifies this`mem
      ensures Valid()
      ensures mem == old(mem)[id := Moved(old(mem[id]), dst, src, n)]
    {
      hide Census, Flatten;
      forall i | 0 <= i < |rx|
        ensures rx[i].bufId != id
      {
        CensusApart(offered, rx, mine, others, |mem|, id, i);
      }
      mem := mem[id := Moved(mem[id], dst, src, n)];
    }
  }

  /** A whole life of a connection's input: events, and items taken, in any order. */
  method Play(c: Conn, takes: seq<bool>)
    requires c.Valid()
    modifies c
    ensures c.Valid() && (c.delivered == Flatten(c.input) <==> c.AllQueued())
    ensures c.Gapless() ==> exists k :: 0 <= k <= |c.input| && c.delivered == Flatten(c.input[..k])
  {
    hide Conn.Valid, Flatten, Conn.MineUntouched;
    for i := 0 to |takes|
      invariant c.Valid()
    {
      if takes[i] {
        var rc, item := c.RecvItem();
      } else if c.script != [] {
        c.Step();
      }
    }
    c.Stream();
  }

  /**
   * A concrete case of the gap: the queue is full, one more buffer arrives, the reader takes one,
   * and one more arrives before the cancelled receive ends.
   */
  method FullThenRead(c: Conn, lost: bytes, late: bytes) returns (rc: int)
    requires c.Valid() && |c.rx| == RX_QUEUE && !c.eof && c.published >= 2 && c.AllQueued()
    requires 0 < |lost| <= c.size && 0 < |late| <= c.size
    modifies c
    ensures c.Valid() && c.eof && c.err == -ENOBUFS && !c.Gapless()
    ensures rc == 1 && c.input == old(c.input) + [lost, late] && c.delivered == old(c.delivered) + late
  {
    hide Conn.Valid;
    c.OnData(lost);
    var item;
    assert !c.queued[|c.queued| - 1];
    assert c.rx != [] && c.delivered == old(c.delivered) && c.input == old(c.input) + [lost];
    rc, item := c.RecvItem();
    assert |c.rx| < RX_QUEUE && c.delivered == old(c.delivered) && c.input == old(c.input) + [lost];
    c.OnData(late);
    assert old(c.input) + [lost] + [late] == old(c.input) + [lost, late];
  }
}
