/**
 * Rings with free-running counters: the counters wrap at the width of their type, a mask turns
 * them into slots. Shared by the receive queue, the buffer ring and the two io_uring rings.
 */
module Rings {

  const U16: nat := 0x1_0000
  const U32: nat := 0x1_0000_0000

  function Pow2(e: nat): (n: nat)
    ensures n > 0
  {
    if e == 0 then 1 else 2 * Pow2(e - 1)
  }

  lemma {:induction false} Pow2Add(d: nat, e: nat)
    ensures Pow2(d + e) == Pow2(d) * Pow2(e)
  {
    if d != 0 {
      Pow2Add(d - 1, e);
      var a, b := Pow2(d - 1), Pow2(e);
      assert (2 * a) * b == 2 * (a * b);
    }
  }

  lemma {:induction false} Pow2Grows(d: nat, e: nat)
    requires d <= e
    ensures Pow2(d) <= Pow2(e)
  {
    if d < e {
      Pow2Grows(d, e - 1);
    }
  }

  lemma WidePow2()
    ensures Pow2(16) == U16 && Pow2(32) == U32
  {
    assert Pow2(8) == 256;
    Pow2Add(8, 8);
    Pow2Add(16, 16);
  }

  ghost predicate PowerOfTwo(n: nat) {
    exists e: nat :: n == Pow2(e)
  }

  /** x modulo n: what masking with n - 1 gives, and what an n-valued counter holds. */
  function Mod(x: nat, n: nat): (k: nat)
    requires 0 < n
    ensures k < n
    ensures x < n ==> k == x
  {
    if x < n then x else Mod(x - n, n)
  }

  /** With Mod(x, n) < n, this is what makes it the remainder. */
  lemma {:induction false} ModIsRemainder(x: nat, n: nat) returns (q: nat)
    requires 0 < n
    ensures x == n * q + Mod(x, n)
  {
    if x < n {
      q := 0;
    } else {
      var p := ModIsRemainder(x - n, n);
      q := p + 1;
      assert n * q == n * p + n;
    }
  }

  lemma {:induction false} ModPeriod(x: nat, m: nat, n: nat)
    requires 0 < n
    ensures Mod(n * m + x, n) == Mod(x, n)
  {
    if m != 0 {
      assert n * m + x == (n * (m - 1) + x) + n;
      ModPeriod(x, m - 1, n);
    }
  }

  /** Going round a wider counter does not move the slot: the ring divides its width. */
  lemma {:induction false} ModTwice(x: nat, wide: nat, n: nat, k: nat)
    requires 0 < n && 0 < wide && n * k == wide
    ensures Mod(Mod(x, wide), n) == Mod(x, n)
  {
    if x >= wide {
      ModTwice(x - wide, wide, n, k);
      ModPeriod(x - wide, k, n);
    }
  }

  /** A ring of at most 2^15 slots, a power of two, under 16-bit and 32-bit counters. */
  lemma SlotOfWrapped(x: nat, n: nat)
    requires 0 < n <= 32768 && PowerOfTwo(n)
    ensures Mod(Mod(x, U16), n) == Mod(x, n)
    ensures Mod(Mod(x, U32), n) == Mod(x, n)
  {
    var e: nat :| n == Pow2(e);
    WidePow2();
    if e > 15 {
      Pow2Grows(16, e);
    }
    Pow2Add(e, 16 - e);
    ModTwice(x, U16, n, Pow2(16 - e));
    Pow2Add(e, 32 - e);
    ModTwice(x, U32, n, Pow2(32 - e));
  }

  lemma {:induction false} ModNext(x: nat, n: nat)
    requires 1 < n
    ensures Mod(Mod(x, n) + 1, n) == Mod(x + 1, n)
  {
    if x >= n {
      ModNext(x - n, n);
    }
  }

  lemma {:induction false} ModAdd(x: nat, i: nat, n: nat)
    requires 0 < n
    ensures Mod(Mod(x, n) + i, n) == Mod(x + i, n)
  {
    if x >= n {
      ModAdd(x - n, i, n);
    }
  }

  /** The difference two wrapped counters show. */
  function Diff(a: nat, b: nat, n: nat): (d: nat)
    requires a < n && b < n
  {
    if b <= a then a - b else a + n - b
  }

  /** It is exact as long as the counters are less than the width apart. */
  lemma {:induction false} DiffExact(a: nat, b: nat, n: nat)
    requires 0 < n && b <= a < b + n
    ensures Diff(Mod(a, n), Mod(b, n), n) == a - b
  {
    if b >= n {
      DiffExact(a - n, b - n, n);
    }
  }

  lemma {:induction false} SlotsApart(x: nat, y: nat, n: nat)
    requires 0 < n && x < y < x + n
    ensures Mod(x, n) != Mod(y, n)
  {
    if x >= n {
      SlotsApart(x - n, y - n, n);
    }
  }

  /** The n entries of a ring from an unwrapped head on. */
  ghost function Window<T>(ring: seq<T>, head: nat, n: nat): (w: seq<T>)
    requires 0 < |ring|
    ensures |w| == n
  {
    if n == 0 then [] else Window(ring, head, n - 1) + [ring[Mod(head + n - 1, |ring|)]]
  }

  lemma {:induction false} WindowTail<T>(ring: seq<T>, head: nat, n: nat)
    requires 0 < n && 0 < |ring|
    ensures Window(ring, head, n) == [ring[Mod(head, |ring|)]] + Window(ring, head + 1, n - 1)
  {
    if n > 1 {
      WindowTail(ring, head, n - 1);
    }
  }

  /** Writing a slot outside the window does not show in it. */
  lemma {:induction false} WindowElsewhere<T>(ring: seq<T>, head: nat, n: nat, at: nat, x: T)
    requires head + n <= at < head + |ring|
    ensures Window(ring[Mod(at, |ring|) := x], head, n) == Window(ring, head, n)
  {
    if n > 0 {
      WindowElsewhere(ring, head, n - 1, at, x);
      SlotsApart(head + n - 1, at, |ring|);
    }
  }

  /** Writing the slot just after the window extends it. */
  lemma WindowSnoc<T>(ring: seq<T>, head: nat, n: nat, x: T)
    requires n < |ring|
    ensures Window(ring[Mod(head + n, |ring|) := x], head, n + 1) == Window(ring, head, n) + [x]
  {
    WindowElsewhere(ring, head, n, head + n, x);
  }

  lemma {:induction false} WindowAt<T>(ring: seq<T>, head: nat, n: nat, i: nat)
    requires i < n && 0 < |ring|
    ensures Window(ring, head, n)[i] == ring[Mod(head + i, |ring|)]
  {
    if i < n - 1 {
      WindowAt(ring, head, n - 1, i);
    }
  }

  lemma {:induction false} WindowFrom<T>(ring: seq<T>, head: nat, n: nat, k: nat)
    requires k <= n && 0 < |ring|
    ensures Window(ring, head, n)[k..] == Window(ring, head + k, n - k)
    decreases k
  {
    if k > 0 {
      WindowTail(ring, head, n);
      WindowFrom(ring, head + 1, n - 1, k - 1);
      assert Window(ring, head, n)[k..] == Window(ring, head + 1, n - 1)[k - 1..];
    }
  }

  lemma {:induction false} WindowIdentity(ring: seq<nat>, n: nat)
    requires n <= |ring| && 0 < |ring|
    requires forall k :: 0 <= k < |ring| ==> ring[k] == k
    ensures Window(ring, 0, n) == seq(n, i => i)
  {
    if n > 0 {
      WindowIdentity(ring, n - 1);
    }
  }
}
