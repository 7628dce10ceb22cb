/**
 * Substring search (lib/http/find.c): the scalar search, and the ones by blocks of sixteen and of
 * thirty-two positions, which compare the first and last byte of all of them at once.
 */
module Searching {
  import opened Bytes
  import opened Bits

  predicate Match(hay: bytes, needle: bytes, k: nat) {
    k + |needle| <= |hay| && hay[k..k + |needle|] == needle
  }

  /** The least position where the needle is, or -1. */
  predicate IsFirst(hay: bytes, needle: bytes, at: int) {
    if at < 0 then at == -1 && forall k :: 0 <= k <= |hay| ==> !Match(hay, needle, k)
    else Match(hay, needle, at) && forall k :: 0 <= k < at ==> !Match(hay, needle, k)
  }

  /** memchr from one position up to another. */
  method MemChr(hay: bytes, from: nat, end: nat, c: byte) returns (at: Option<nat>)
    requires from <= end <= |hay|
    ensures at.Some? ==> from <= at.value < end && hay[at.value] == c && forall k :: from <= k < at.value ==> hay[k] != c
    ensures at.None? ==> forall k :: from <= k < end ==> hay[k] != c
  {
    for i := from to end
      invariant forall k :: from <= k < i ==> hay[k] != c
    {
      if hay[i] == c {
        return Some(i);
      }
    }
    return None;
  }

  /** memcmp(hay + at, needle + from, n) == 0. */
  predicate SameBytes(hay: bytes, at: nat, needle: bytes, from: nat, n: nat)
    requires at + n <= |hay| && from + n <= |needle|
  {
    hay[at..at + n] == needle[from..from + n]
  }

  /** The first byte, the last one, and what is between them. */
  lemma ByEnds(hay: bytes, needle: bytes, k: nat)
    requires 2 <= |needle| && k + |needle| <= |hay|
    ensures Match(hay, needle, k) <==>
      hay[k] == needle[0] && hay[k + |needle| - 1] == needle[|needle| - 1] && SameBytes(hay, k + 1, needle, 1, |needle| - 2)
  {
    var n := |needle|;
    var h := hay[k..k + n];
    Inner(hay, k, n);
    Inner(needle, 0, n);
    assert needle[0..n] == needle;
    if hay[k] == needle[0] && hay[k + n - 1] == needle[n - 1] && SameBytes(hay, k + 1, needle, 1, n - 2) {
      assert h == needle;
    }
  }

  lemma Inner(s: bytes, k: nat, n: nat)
    requires 2 <= n && k + n <= |s|
    ensures s[k..k + n] == [s[k]] + s[k + 1..k + 1 + (n - 2)] + [s[k + n - 1]]
  {
  }

  /** The first byte and all the others. */
  lemma ByFront(hay: bytes, needle: bytes, k: nat)
    requires 2 <= |needle| && k + |needle| <= |hay|
    ensures Match(hay, needle, k) <==> hay[k] == needle[0] && SameBytes(hay, k + 1, needle, 1, |needle| - 1)
  {
    var n := |needle|;
    var h := hay[k..k + n];
    assert h == [hay[k]] + hay[k + 1..k + 1 + (n - 1)];
    assert needle == [needle[0]] + needle[1..1 + (n - 1)];
  }

  /** ioxd__find_scalar. */
  method FindScalar(hay: bytes, needle: bytes) returns (r: int)
    requires 2 <= |needle| <= |hay|
    ensures IsFirst(hay, needle, r)
  {
    var n := |needle|;
    var end := |hay| - n + 1;
    var at := 0;
    while true
      invariant 0 <= at <= end
      invariant forall k :: 0 <= k < at ==> !Match(hay, needle, k)
      decreases end - at
    {
      var found := MemChr(hay, at, end, needle[0]);
      forall k | at <= k < (if found.Some? then found.value else end)
        ensures !Match(hay, needle, k)
      {
        ByEnds(hay, needle, k);
      }
      if found.None? {
        return -1;
      }
      at := found.value;
      ByEnds(hay, needle, at);
      if hay[at + n - 1] == needle[n - 1] && SameBytes(hay, at + 1, needle, 1, n - 2) {
        return at;
      }
      at := at + 1;
    }
  }

  /** A vector of positions compared with a byte: whole inside the haystack. */
  function Load(hay: bytes, at: nat, width: nat): bytes
    requires at + width <= |hay|
  {
    hay[at..at + width]
  }

  function Both(a: bytes, x: byte, b: bytes, y: byte): (bits: seq<bool>)
    requires |a| == |b|
    ensures |bits| == |a|
  {
    seq(|a|, j requires 0 <= j < |a| => a[j] == x && b[j] == y)
  }

  /** The candidates of a block, lowest first: the first that matches is the least in the block. */
  method Candidates(hay: bytes, i: nat, width: nat, needle: bytes, mask: nat) returns (at: int)
    requires 2 <= |needle| && i + width + |needle| - 1 <= |hay|
    requires forall j: nat :: Bit(mask, j) <==> j < width && hay[i + j] == needle[0] && hay[i + j + |needle| - 1] == needle[|needle| - 1]
    ensures at < 0 ==> at == -1 && forall k :: i <= k < i + width ==> !Match(hay, needle, k)
    ensures at >= 0 ==> i <= at < i + width && Match(hay, needle, at) && forall k :: i <= k < at ==> !Match(hay, needle, k)
  {
    var m := mask;
    while m != 0
      invariant forall j: nat :: Bit(m, j) ==> Bit(mask, j)
      invariant forall j: nat :: j < width && Bit(mask, j) && !Bit(m, j) ==> !Match(hay, needle, i + j)
      decreases m
    {
      LowestIs(m);
      var j := Lowest(m);
      ByEnds(hay, needle, i + j);
      if SameBytes(hay, i + j + 1, needle, 1, |needle| - 2) {
        forall k | i <= k < i + j
          ensures !Match(hay, needle, k)
        {
          ByEnds(hay, needle, k);
          assert Bit(mask, k - i) ==> !Bit(m, k - i);
        }
        return i + j;
      }
      forall x: nat
        ensures Bit(DropLowest(m), x) <==> Bit(m, x) && x != j
      {
        DropLowestIs(m, x);
      }
      DropLowestIs(m, 0);
      m := DropLowest(m);
    }
    forall k | i <= k < i + width
      ensures !Match(hay, needle, k)
    {
      ByEnds(hay, needle, k);
      ZeroBits(k - i);
      assert Bit(mask, k - i) ==> !Bit(m, k - i);
    }
    return -1;
  }

  /** block16, and its counterpart of thirty-two: both loads lie inside the haystack. */
  method Block(hay: bytes, i: nat, width: nat, needle: bytes) returns (at: int)
    requires 2 <= |needle| && i + width + |needle| - 1 <= |hay|
    ensures at < 0 ==> at == -1 && forall k :: i <= k < i + width ==> !Match(hay, needle, k)
    ensures at >= 0 ==> i <= at < i + width && Match(hay, needle, at) && forall k :: i <= k < at ==> !Match(hay, needle, k)
  {
    var n := |needle|;
    var bits := Both(Load(hay, i, width), needle[0], Load(hay, i + n - 1, width), needle[n - 1]);
    forall j: nat
      ensures Bit(MaskOf(bits), j) <==> j < width && hay[i + j] == needle[0] && hay[i + j + n - 1] == needle[n - 1]
    {
      MaskBit(bits, j);
    }
    at := Candidates(hay, i, width, needle, MaskOf(bits));
  }

  /** Blocks one after the other, the last one overlapping the one before it. */
  method Blocks(hay: bytes, needle: bytes, width: nat) returns (r: int)
    requires 2 <= |needle| <= |hay| && 0 < width <= |hay| - |needle| + 1
    ensures IsFirst(hay, needle, r)
  {
    var span := |hay| - |needle| + 1;
    var i := 0;
    while true
      invariant 0 <= i && i + width <= span
      invariant forall k :: 0 <= k < i ==> !Match(hay, needle, k)
      decreases span - i
    {
      r := Block(hay, i, width, needle);
      if r >= 0 {
        return;
      }
      if i + width == span {
        return -1;
      }
      i := i + width;
      if i + width > span {
        i := span - width;
      }
    }
  }

  /** Too few positions for a block, enough bytes for one load: the positions past the last are masked off. */
  method Short(hay: bytes, needle: bytes) returns (r: int)
    requires 2 <= |needle| && 16 <= |hay| && |needle| <= |hay| < |needle| + 15
    ensures IsFirst(hay, needle, r)
  {
    var span := |hay| - |needle| + 1;
    var block := Load(hay, 0, 16);
    var bits := seq(16, j requires 0 <= j < 16 => block[j] == needle[0]);
    var m := LowBits(MaskOf(bits), span);
    forall j: nat
      ensures Bit(m, j) <==> j < span && hay[j] == needle[0]
    {
      LowBitsAre(MaskOf(bits), span, j);
      MaskBit(bits, j);
    }
    ghost var mask := m;
    while m != 0
      invariant forall j: nat :: Bit(m, j) ==> Bit(mask, j)
      invariant forall j: nat :: Bit(mask, j) && !Bit(m, j) ==> !Match(hay, needle, j)
      decreases m
    {
      LowestIs(m);
      var j := Lowest(m);
      ByFront(hay, needle, j);
      if SameBytes(hay, j + 1, needle, 1, |needle| - 1) {
        forall k | 0 <= k < j
          ensures !Match(hay, needle, k)
        {
          ByFront(hay, needle, k);
          assert Bit(mask, k) ==> !Bit(m, k);
        }
        return j;
      }
      forall x: nat
        ensures Bit(DropLowest(m), x) <==> Bit(m, x) && x != j
      {
        DropLowestIs(m, x);
      }
      DropLowestIs(m, 0);
      m := DropLowest(m);
    }
    forall k | 0 <= k < span
      ensures !Match(hay, needle, k)
    {
      ByFront(hay, needle, k);
      ZeroBits(k);
      assert Bit(mask, k) ==> !Bit(m, k);
    }
    return -1;
  }

  /** ioxd__find_sse2. */
  method FindSse2(hay: bytes, needle: bytes) returns (r: int)
    requires 2 <= |needle| <= |hay|
    ensures IsFirst(hay, needle, r)
  {
    var span := |hay| - |needle| + 1;
    if span >= 16 {
      r := Blocks(hay, needle, 16);
    } else if |hay| >= 16 {
      r := Short(hay, needle);
    } else {
      r := FindScalar(hay, needle);
    }
  }

  /** ioxd__find_avx2. */
  method FindAvx2(hay: bytes, needle: bytes) returns (r: int)
    requires 2 <= |needle| <= |hay|
    ensures IsFirst(hay, needle, r)
  {
    if |hay| - |needle| + 1 < 32 {
      r := FindSse2(hay, needle);
    } else {
      r := Blocks(hay, needle, 32);
    }
  }

  /** ioxd_slice_find_bytes, whichever search the processor supports. */
  method FindBytes(hay: bytes, needle: bytes, avx2: bool) returns (r: int)
    ensures IsFirst(hay, needle, r)
  {
    if needle == [] {
      assert hay[0..0] == [];
      return 0;
    }
    if |needle| > |hay| {
      return -1;
    }
    if |needle| == 1 {
      var at := MemChr(hay, 0, |hay|, needle[0]);
      forall k: nat | k < |hay|
        ensures Match(hay, needle, k) <==> hay[k] == needle[0]
      {
        assert hay[k..k + 1] == [hay[k]] && needle == [needle[0]];
      }
      return if at.Some? then at.value else -1;
    }
    if avx2 {
      r := FindAvx2(hay, needle);
    } else {
      r := FindSse2(hay, needle);
    }
  }

  /** All the searches answer the same: there is only one least match. */
  lemma OneAnswer(hay: bytes, needle: bytes, a: int, b: int)
    requires IsFirst(hay, needle, a) && IsFirst(hay, needle, b)
    ensures a == b
  {
    if a >= 0 {
      assert Match(hay, needle, a);
    }
    if b >= 0 {
      assert Match(hay, needle, b);
    }
  }
}
