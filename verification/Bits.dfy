/** Bit masks as numbers: the bits of a machine word, least significant first. */
module Bits {

  /** Bit j of m. */
  function Bit(m: nat, j: nat): bool {
    if j == 0 then m % 2 == 1 else Bit(m / 2, j - 1)
  }

  /** The mask of a list of bits: what a vector compare and movemask leave. */
  function MaskOf(bits: seq<bool>): nat {
    if bits == [] then 0 else (if bits[0] then 1 else 0) + 2 * MaskOf(bits[1..])
  }

  lemma {:induction false} MaskBit(bits: seq<bool>, j: nat)
    ensures Bit(MaskOf(bits), j) <==> j < |bits| && bits[j]
  {
    if bits == [] {
      ZeroBits(j);
    } else if j > 0 {
      MaskBit(bits[1..], j - 1);
      assert MaskOf(bits) / 2 == MaskOf(bits[1..]);
    }
  }

  lemma {:induction false} ZeroBits(j: nat)
    ensures !Bit(0, j)
  {
    if j > 0 {
      ZeroBits(j - 1);
    }
  }

  /** Count of trailing zeros: where the lowest bit set is. */
  function Lowest(m: nat): nat
    requires m > 0
  {
    if m % 2 == 1 then 0 else 1 + Lowest(m / 2)
  }

  /** m & (m - 1): the lowest bit set is cleared. */
  function DropLowest(m: nat): nat
    requires m > 0
  {
    if m % 2 == 1 then m - 1 else 2 * DropLowest(m / 2)
  }

  lemma {:induction false} LowestIs(m: nat)
    requires m > 0
    ensures Bit(m, Lowest(m)) && forall j :: 0 <= j < Lowest(m) ==> !Bit(m, j)
  {
    if m % 2 == 0 {
      LowestIs(m / 2);
      forall j | 0 <= j < Lowest(m)
        ensures !Bit(m, j)
      {
        assert j > 0 ==> !Bit(m / 2, j - 1);
      }
    }
  }

  lemma {:induction false} DropLowestIs(m: nat, j: nat)
    requires m > 0
    ensures DropLowest(m) < m
    ensures Bit(DropLowest(m), j) <==> Bit(m, j) && j != Lowest(m)
  {
    if m % 2 == 1 {
      assert (m - 1) / 2 == m / 2;
    } else {
      DropLowestIs(m / 2, if j == 0 then 0 else j - 1);
      assert DropLowest(m) / 2 == DropLowest(m / 2);
    }
  }

  /** m & ((1 << n) - 1). */
  function LowBits(m: nat, n: nat): nat {
    if n == 0 then 0 else m % 2 + 2 * LowBits(m / 2, n - 1)
  }

  lemma {:induction false} LowBitsAre(m: nat, n: nat, j: nat)
    ensures Bit(LowBits(m, n), j) <==> Bit(m, j) && j < n
    decreases n
  {
    if n == 0 {
      ZeroBits(j);
    } else if j > 0 {
      LowBitsAre(m / 2, n - 1, j - 1);
      assert LowBits(m, n) / 2 == LowBits(m / 2, n - 1);
    }
  }

  /** m with bit j set, and cleared. */
  function With(m: nat, j: nat): nat {
    if j == 0 then m - m % 2 + 1 else m % 2 + 2 * With(m / 2, j - 1)
  }

  function Without(m: nat, j: nat): nat {
    if j == 0 then m - m % 2 else m % 2 + 2 * Without(m / 2, j - 1)
  }

  lemma {:induction false} WithBit(m: nat, j: nat, k: nat)
    ensures Bit(With(m, j), k) <==> k == j || Bit(m, k)
    decreases j
  {
    if j == 0 {
      assert k > 0 ==> With(m, 0) / 2 == m / 2;
    } else {
      assert With(m, j) / 2 == With(m / 2, j - 1) && With(m, j) % 2 == m % 2;
      if k > 0 {
        WithBit(m / 2, j - 1, k - 1);
      }
    }
  }

  lemma {:induction false} WithoutBit(m: nat, j: nat, k: nat)
    ensures Bit(Without(m, j), k) <==> k != j && Bit(m, k)
    decreases j
  {
    if j == 0 {
      assert k > 0 ==> Without(m, 0) / 2 == m / 2;
    } else {
      assert Without(m, j) / 2 == Without(m / 2, j - 1) && Without(m, j) % 2 == m % 2;
      if k > 0 {
        WithoutBit(m / 2, j - 1, k - 1);
      }
    }
  }
}
