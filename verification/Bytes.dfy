/** Bytes, byte strings, and the memory operations the C code performs on its buffers. */
module Bytes {

  type byte = x: int | 0 <= x < 256

  type bytes = seq<byte>

  datatype Option<+T> = None | Some(value: T)

  /** Concatenation of a list of byte strings, front first. */
  function Flatten(parts: seq<bytes>): bytes {
    if parts == [] then [] else parts[0] + Flatten(parts[1..])
  }

  lemma {:induction false} FlattenAppend(a: seq<bytes>, b: seq<bytes>)
    ensures Flatten(a + b) == Flatten(a) + Flatten(b)
  {
    if a == [] {
      assert a + b == b;
    } else {
      assert (a + b)[1..] == a[1..] + b;
      FlattenAppend(a[1..], b);
    }
  }

  lemma FlattenSnoc(a: seq<bytes>, p: bytes)
    ensures Flatten(a + [p]) == Flatten(a) + p
  {
    FlattenAppend(a, [p]);
    assert Flatten([p]) == p;
  }

  /** What is between separators. */
  function Split(s: bytes, sep: byte): (pieces: seq<bytes>)
    ensures pieces != []
  {
    if s == [] then [[]]
    else if s[0] == sep then [[]] + Split(s[1..], sep)
    else [[s[0]] + Split(s[1..], sep)[0]] + Split(s[1..], sep)[1..]
  }

  /** The first piece, up to the first separator, and the others behind it. */
  lemma {:induction false} SplitPiece(p: bytes, s: bytes, sep: byte)
    requires forall k :: 0 <= k < |p| ==> p[k] != sep
    requires s == [] || s[0] == sep
    ensures Split(p + s, sep) == [p] + (if s == [] then [] else Split(s[1..], sep))
  {
    if p == [] {
      assert p + s == s;
      var empty: bytes := [];
      assert s == [] ==> Split(s, sep) == [empty];
    } else {
      SplitPiece(p[1..], s, sep);
      assert (p + s)[1..] == p[1..] + s;
      PieceGrows(p[0], p[1..], if s == [] then [] else Split(s[1..], sep));
    }
  }

  lemma PieceGrows(c: byte, piece: bytes, others: seq<bytes>)
    ensures [[c] + ([piece] + others)[0]] + ([piece] + others)[1..] == [[c] + piece] + others
    ensures forall p: bytes :: p != [] && p[0] == c && p[1..] == piece ==> [c] + piece == p
  {
  }

  /** What memmove makes of a block of memory, and memcpy. */
  function Moved(b: bytes, dst: nat, src: nat, n: nat): (r: bytes)
    requires dst + n <= |b| && src + n <= |b|
    ensures |r| == |b|
  {
    b[..dst] + b[src..src + n] + b[dst + n..]
  }

  function Blit(b: bytes, at: nat, data: bytes): (r: bytes)
    requires at + |data| <= |b|
    ensures |r| == |b|
  {
    b[..at] + data + b[at + |data|..]
  }

  /** memmove within one array. */
  method MemMove(a: array<byte>, dst: nat, src: nat, n: nat)
    requires dst + n <= a.Length && src + n <= a.Length
    modifies a
    ensures a[..] == Moved(old(a[..]), dst, src, n)
  {
    forall i | dst <= i < dst + n {
      a[i] := a[src + (i - dst)];
    }
  }

  /** memcpy of a byte string into an array. */
  method MemWrite(a: array<byte>, dst: nat, data: bytes)
    requires dst + |data| <= a.Length
    modifies a
    ensures a[..] == Blit(old(a[..]), dst, data)
  {
    forall i | dst <= i < dst + |data| {
      a[i] := data[i - dst];
    }
  }
}
