/**
 * io/spsc.h: the ring of received buffers. Head and tail are 32-bit counters that only grow and
 * wrap; a mask turns them into slots.
 */
module SpscRing {
  import opened Rings

  const RX_QUEUE: nat := 64

  /** A delivered buffer: how many bytes, and which provided buffer (a row of the slab) they are in. */
  datatype RxItem = RxItem(len: nat, bufId: nat)

  class Spsc {
    const items: array<RxItem>
    var head: nat
    var tail: nat
    /** The unwrapped counters. */
    ghost var popped: nat
    ghost var pushed: nat

    ghost predicate Valid()
      reads this
    {
      && items.Length == RX_QUEUE
      && popped <= pushed <= popped + RX_QUEUE
      && head == Mod(popped, U32) && tail == Mod(pushed, U32)
    }

    /** What the ring holds, oldest first. */
    ghost function Queue(): (q: seq<RxItem>)
      requires items.Length == RX_QUEUE && popped <= pushed
      reads this, items
      ensures |q| == pushed - popped
    {
      Window(items[..], popped, pushed - popped)
    }

    constructor ()
      ensures Valid() && fresh(items)
      ensures Queue() == []
    {
      items := new RxItem[RX_QUEUE](_ => RxItem(0, 0));
      head, tail := 0, 0;
      popped, pushed := 0, 0;
    }

    method Reset()
      requires Valid()
      modifies this
      ensures Valid() && Queue() == []
    {
      head, tail := 0, 0;
      popped, pushed := 0, 0;
    }

    method Count() returns (n: nat)
      requires Valid()
      ensures n == |Queue()|
    {
      DiffExact(pushed, popped, U32);
      n := Diff(tail, head, U32);
    }

    method Full() returns (b: bool)
      requires Valid()
      ensures b <==> |Queue()| == RX_QUEUE
    {
      DiffExact(pushed, popped, U32);
      b := Diff(tail, head, U32) == RX_QUEUE;
    }

    method Push(x: RxItem)
      requires Valid() && |Queue()| < RX_QUEUE
      modifies this, items
      ensures Valid() && Queue() == old(Queue()) + [x]
    {
      ghost var was := items[..];
      SlotOfCounter(pushed);
      ModNext(pushed, U32);
      items[Mod(tail, RX_QUEUE)] := x;
      tail := Mod(tail + 1, U32);
      pushed := pushed + 1;
      assert items[..] == was[Mod(pushed - 1, RX_QUEUE) := x];
      WindowSnoc(was, popped, pushed - 1 - popped, x);
    }

    method Pop() returns (x: RxItem)
      requires Valid() && Queue() != []
      modifies this
      ensures Valid() && old(Queue()) == [x] + Queue()
    {
      SlotOfCounter(popped);
      ModNext(popped, U32);
      WindowTail(items[..], popped, pushed - popped);
      x := items[Mod(head, RX_QUEUE)];
      head := Mod(head + 1, U32);
      popped := popped + 1;
    }
  }

  lemma SlotOfCounter(x: nat)
    ensures Mod(Mod(x, U32), RX_QUEUE) == Mod(x, RX_QUEUE)
  {
    assert Pow2(6) == RX_QUEUE;
    SlotOfWrapped(x, RX_QUEUE);
  }
}
