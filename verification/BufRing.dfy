/**
 * io/bufring.h: the provided buffer ring. The worker stages returns at a local tail and publishes
 * them, truncated to 16 bits, once per batch; the kernel picks buffers from the published part.
 */
module ProvidedBuffers {
  import opened Bytes
  import opened Rings

  /** What ioxd_configure accepts as a number of buffers: a power of two, at most 32768. */
  ghost predicate BufferCount(n: nat) {
    2 <= n <= 32768 && PowerOfTwo(n)
  }

  lemma ReturnAdds(slots: seq<nat>, picked: nat, staged: nat, id: nat)
    requires BufferCount(|slots|) && picked <= staged < picked + |slots|
    ensures Mod(Mod(staged, U32) + 1, U32) == Mod(staged + 1, U32)
    ensures Window(slots[Mod(Mod(staged, U32), |slots|) := id], picked, staged + 1 - picked) == Window(slots, picked, staged - picked) + [id]
  {
    ModNext(staged, U32);
    SlotOfWrapped(staged, |slots|);
    WindowSnoc(slots, picked, staged - picked, id);
  }

  lemma PickTakes(slots: seq<nat>, picked: nat, staged: nat)
    requires BufferCount(|slots|) && picked < staged
    ensures Mod(Mod(picked, U16) + 1, U16) == Mod(picked + 1, U16)
    ensures Window(slots, picked, staged - picked) == [slots[Mod(Mod(picked, U16), |slots|)]] + Window(slots, picked + 1, staged - (picked + 1))
  {
    ModNext(picked, U16);
    SlotOfWrapped(picked, |slots|);
    WindowTail(slots, picked, staged - picked);
  }

  class BufRing {
    const count: nat
    const size: nat
    const slab: array2<byte>
    const ring: array<nat>
    var tail: nat
    var ringTail: nat
    var dirty: bool
    var returned: nat
    /** The kernel's own 16-bit head. */
    var kernelHead: nat
    /** The unwrapped counters: buffers the kernel picked, buffers published, buffers staged. */
    ghost var picked: nat
    ghost var published: nat
    ghost var staged: nat

    ghost predicate Valid()
      reads this
    {
      && BufferCount(count) && 0 < size
      && slab.Length0 == count && slab.Length1 == size && ring.Length == count
      && picked <= published <= staged <= picked + count
      && tail == Mod(staged, U32) && ringTail == Mod(published, U16) && kernelHead == Mod(picked, U16)
      && (!dirty ==> published == staged)
      && returned < U32
    }

    /** The buffers on the ring that the kernel has not picked, staged ones included, oldest first. */
    ghost function Offered(): (s: seq<nat>)
      requires 0 < ring.Length && picked <= staged
      reads this, ring
      ensures |s| == staged - picked
    {
      Window(ring[..], picked, staged - picked)
    }

    constructor (count: nat, size: nat)
      requires BufferCount(count) && 0 < size
      ensures Valid() && fresh(ring) && fresh(slab)
      ensures this.count == count && this.size == size
      ensures Offered() == seq(count, i => i) && published == staged && returned == 0
    {
      this.count, this.size := count, size;
      slab := new byte[count, size]((_, _) => 0);
      ring := new nat[count](_ => 0);
      new;
      var i := 0;
      while i < count
        invariant 0 <= i <= count
        invariant forall k :: 0 <= k < i ==> ring[k] == k
        modifies ring
      {
        ring[i] := i;
        i := i + 1;
      }
      tail := count;
      ringTail := count;
      dirty, returned, kernelHead := false, 0, 0;
      picked, published, staged := 0, count, count;
      WindowIdentity(ring[..], count);
    }

    /**
     * Stage a buffer's return. As long as one buffer is off the ring, the slot written is not one
     * the kernel has yet to pick.
     */
    method Return(id: nat)
      requires Valid() && |Offered()| < count
      modifies this`tail, this`dirty, this`returned, this`staged, ring
      ensures Valid()
      ensures Offered() == old(Offered()) + [id]
      ensures picked == old(picked) && published == old(published) && dirty
      ensures returned == Mod(old(returned) + 1, U32)
    {
      ReturnAdds(ring[..], picked, staged, id);
      ring[Mod(tail, count)] := id;
      tail := Mod(tail + 1, U32);
      returned := Mod(returned + 1, U32);
      dirty := true;
      staged := staged + 1;
      assert ring[..] == old(ring[..])[Mod(old(tail), count) := id];
    }

    /** Publish the staged returns, at most once. */
    method Publish()
      requires Valid()
      modifies this`ringTail, this`dirty, this`published
      ensures Valid() && !dirty && published == staged
      ensures Offered() == old(Offered())
    {
      if !dirty {
        return;
      }
      ModTwice(staged, U32, U16, U16);
      ringTail := Mod(tail, U16);
      dirty := false;
      published := staged;
    }

    /** How many buffers the kernel sees: 16-bit arithmetic on the published tail. */
    function KernelSees(): (n: nat)
      requires ringTail < U16 && kernelHead < U16
      reads this
    {
      Diff(ringTail, kernelHead, U16)
    }

    /** That 16-bit difference is exact, whatever the counters wrapped to. */
    lemma KernelCountExact()
      requires Valid()
      ensures KernelSees() == published - picked
    {
      DiffExact(published, picked, U16);
    }

    /** The kernel takes the oldest published buffer. */
    method Pick() returns (id: nat)
      requires Valid() && KernelSees() > 0
      modifies this`picked, this`kernelHead
      ensures Valid()
      ensures old(Offered()) == [id] + Offered()
    {
      KernelCountExact();
      PickTakes(ring[..], picked, staged);
      id := ring[Mod(kernelHead, count)];
      kernelHead := Mod(kernelHead + 1, U16);
      picked := picked + 1;
    }
  }
}
