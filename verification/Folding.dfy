/**
 * lower_inplace of lib/http/engine.c: the letters of a header's name folded eight bytes at a time,
 * with additions whose carries mark the upper-case ones in their top bits.
 */
module Folding {
  import opened Bytes
  import opened ReplyHeaders

  const WIDTH: nat := 0x1_0000_0000_0000_0000

  // A word in memory, least significant byte first.

  function Val(b: bytes): nat {
    if b == [] then 0 else b[0] + 256 * Val(b[1..])
  }

  /** The lowest n bytes of a number. */
  function Digits(v: nat, n: nat): (d: bytes)
    ensures |d| == n
  {
    if n == 0 then [] else [v % 256] + Digits(v / 256, n - 1)
  }

  function Every(k: byte, n: nat): (b: bytes)
    ensures |b| == n
  {
    if n == 0 then [] else [k] + Every(k, n - 1)
  }

  function Power256(n: nat): nat {
    if n == 0 then 1 else 256 * Power256(n - 1)
  }

  /** Arithmetic modulo the word's width loses nothing of the word's bytes. */
  lemma {:induction false} DigitsWrap(v: nat, n: nat)
    ensures Power256(n) > 0 && Digits(v % Power256(n), n) == Digits(v, n)
  {
    if n > 0 {
      DigitsWrap(v / 256, n - 1);
      var p := Power256(n - 1);
      Wrapped(v, p);
    }
  }

  lemma Wrapped(v: nat, p: nat)
    requires p > 0
    ensures (v % (256 * p)) % 256 == v % 256 && (v % (256 * p)) / 256 == (v / 256) % p
  {
    var q, r := v / 256, v % 256;
    var a, m := q / p, q % p;
    assert q == a * p + m;
    assert v == 256 * q + r == a * (256 * p) + (256 * m + r) by {
      assert 256 * (a * p) == a * (256 * p);
    }
    Remainder(v, 256 * p, a, 256 * m + r);
  }

  lemma Remainder(v: nat, d: nat, a: nat, m: nat)
    requires d > 0 && v == a * d + m && m < d
    ensures v % d == m
  {
    var a', m' := v / d, v % d;
    assert v == a' * d + m' && m' < d;
    Apart(a, a', d, m, m');
  }

  lemma Apart(a: nat, b: nat, d: nat, m: nat, n: nat)
    requires d > 0 && a * d + m == b * d + n && m < d && n < d
    ensures m == n
  {
    if b < a {
      AtLeast(a, b, d);
    } else if a < b {
      AtLeast(b, a, d);
    }
  }

  lemma AtLeast(a: nat, b: nat, d: nat)
    requires b < a
    ensures a * d >= b * d + d
  {
    var k := a - b - 1;
    assert a * d == b * d + d + k * d;
  }

  // What the code does to a word.

  /** A byte's top bit. */
  predicate Top(b: byte) {
    b >= 0x80
  }

  /** b | 0x20. */
  function SetBit5(b: byte): byte {
    if (b / 32) % 2 == 1 then b else b + 32
  }

  /** w | ((s & ~t & 0x80 in every byte) >> 2), byte by byte: a top bit moved down two places stays in its byte. */
  function Marked(w: bytes, s: bytes, t: bytes): (f: bytes)
    requires |w| == |s| == |t|
    ensures |f| == |w|
  {
    if w == [] then []
    else [if Top(s[0]) && !Top(t[0]) then SetBit5(w[0]) else w[0]] + Marked(w[1..], s[1..], t[1..])
  }

  /** The word the code computes: two additions modulo 2^64, and the marks. */
  function FoldWord(w: bytes): (f: bytes)
    requires |w| == 8
    ensures |f| == 8
  {
    Marked(w, AddTo(w, 0x3f), AddTo(w, 0x25))
  }

  /** A word and k in every byte, added in uint64_t. */
  function AddTo(w: bytes, k: byte): (s: bytes)
    requires |w| == 8
    ensures |s| == 8
  {
    Digits((Val(w) + Val(Every(k, 8))) % WIDTH, 8)
  }

  // What it amounts to.

  /** The bytes of a sum: each one's own, and what the one before it carries over. */
  function Summed(w: bytes, k: byte, carry: nat): (s: bytes)
    requires carry <= 1
    ensures |s| == |w|
  {
    if w == [] then [] else [(w[0] + k + carry) % 256] + Summed(w[1..], k, (w[0] + k + carry) / 256)
  }

  lemma {:induction false} DigitsOfSum(w: bytes, k: byte, carry: nat)
    requires carry <= 1
    ensures Digits(Val(w) + Val(Every(k, |w|)) + carry, |w|) == Summed(w, k, carry)
  {
    if w != [] {
      var one, rest := w[0] + k + carry, Val(w[1..]) + Val(Every(k, |w| - 1));
      assert Every(k, |w|)[1..] == Every(k, |w| - 1);
      var v := Val(w) + Val(Every(k, |w|)) + carry;
      assert v == one + 256 * rest;
      assert v % 256 == one % 256 && v / 256 == one / 256 + rest;
      DigitsOfSum(w[1..], k, one / 256);
    }
  }

  /** Some byte before i is at least `limit`, and every byte between just one less: they carry into byte i. */
  predicate Carried(w: bytes, i: nat, limit: byte)
    requires i <= |w|
  {
    i > 0 && (w[i - 1] >= limit || (w[i - 1] == limit - 1 && Carried(w, i - 1, limit)))
  }

  /** A byte the fold of the word gets wrong: an at sign or a Z that the bytes before it carry into. */
  predicate Stray(w: bytes, i: nat)
    requires i < |w|
  {
    (w[i] == 64 && Carried(w, i, 0xc1)) || (w[i] == 90 && Carried(w, i, 0xdb))
  }

  /** The same from the front, with what is carried in. */
  predicate Strays(w: bytes, c: bool, d: bool) {
    w != [] && ((c && w[0] == 64) || (d && w[0] == 90)
                || Strays(w[1..], w[0] >= 0xc1 || (c && w[0] == 0xc0), w[0] >= 0xdb || (d && w[0] == 0xda)))
  }

  function Bit(c: bool): nat {
    if c then 1 else 0
  }

  /** One byte of the fold, for every byte and every carry. */
  lemma OneByte(b: byte, c: bool, d: bool)
    requires d ==> c
    ensures var s, t := b + 0x3f + Bit(c), b + 0x25 + Bit(d);
            && s / 256 == Bit(b >= 0xc1 || (c && b == 0xc0))
            && t / 256 == Bit(b >= 0xdb || (d && b == 0xda))
    ensures FoldedByte(b, c, d) == LowerByte(b) <==> !((c && b == 64) || (d && b == 90))
    ensures b >= 0x80 ==> FoldedByte(b, c, d) == b
  {
  }

  /** What the marks make of a word, with those carries into it. */
  function Folded(w: bytes, c: bool, d: bool): (f: bytes)
    ensures |f| == |w|
  {
    Marked(w, Summed(w, 0x3f, Bit(c)), Summed(w, 0x25, Bit(d)))
  }

  function FoldedByte(b: byte, c: bool, d: bool): byte {
    if Top((b + 0x3f + Bit(c)) % 256) && !Top((b + 0x25 + Bit(d)) % 256) then SetBit5(b) else b
  }

  /** The carries out of a byte. */
  lemma FoldedStep(w: bytes, c: bool, d: bool, c': bool, d': bool)
    requires w != [] && (w[0] + 0x3f + Bit(c)) / 256 == Bit(c') && (w[0] + 0x25 + Bit(d)) / 256 == Bit(d')
    ensures Folded(w, c, d) == [FoldedByte(w[0], c, d)] + Folded(w[1..], c', d')
  {
    hide Top, SetBit5;
    var s, t := Summed(w, 0x3f, Bit(c)), Summed(w, 0x25, Bit(d));
    assert s[1..] == Summed(w[1..], 0x3f, Bit(c')) && t[1..] == Summed(w[1..], 0x25, Bit(d'));
  }

  lemma {:induction false} MarksFold(w: bytes, c: bool, d: bool)
    requires d ==> c
    ensures Folded(w, c, d) == Lower(w) <==> !Strays(w, c, d)
    ensures forall i :: 0 <= i < |w| && w[i] >= 0x80 ==> Folded(w, c, d)[i] == w[i]
  {
    if w != [] {
      var c', d' := w[0] >= 0xc1 || (c && w[0] == 0xc0), w[0] >= 0xdb || (d && w[0] == 0xda);
      OneByte(w[0], c, d);
      LowerRest(w);
      assert Strays(w, c, d) <==> (c && w[0] == 64) || (d && w[0] == 90) || Strays(w[1..], c', d');
      hide Top, SetBit5, LowerByte, Lower, Folded, Strays;
      FoldedStep(w, c, d, c', d');
      MarksFold(w[1..], c', d');
      FirstAndRest(FoldedByte(w[0], c, d), Folded(w[1..], c', d'), LowerByte(w[0]), Lower(w[1..]));
    }
  }

  lemma FirstAndRest(a: byte, b: bytes, c: byte, d: bytes)
    ensures [a] + b == [c] + d <==> a == c && b == d
  {
    assert b == ([a] + b)[1..] && d == ([c] + d)[1..] && a == ([a] + b)[0] && c == ([c] + d)[0];
  }

  lemma LowerRest(w: bytes)
    requires w != []
    ensures Lower(w) == [LowerByte(w[0])] + Lower(w[1..]) && Lower(w)[1..] == Lower(w[1..])
  {
  }

  /** The carries seen from the front are those a byte looks back for. */
  lemma {:induction false} StraysAre(w: bytes, from: nat)
    requires from <= |w|
    ensures Strays(w[from..], Carried(w, from, 0xc1), Carried(w, from, 0xdb)) <==>
            exists i :: from <= i < |w| && Stray(w, i)
    decreases |w| - from
  {
    if from < |w| {
      assert w[from..][1..] == w[from + 1..] && w[from..][0] == w[from];
      StraysAre(w, from + 1);
      var later := exists i :: from + 1 <= i < |w| && Stray(w, i);
      assert (exists i :: from <= i < |w| && Stray(w, i)) <==> Stray(w, from) || later;
    }
  }

  /** A word is folded as its bytes are exactly when none of them is a stray. */
  lemma FoldsWord(w: bytes)
    requires |w| == 8
    ensures FoldWord(w) == Lower(w) <==> forall i :: 0 <= i < 8 ==> !Stray(w, i)
    ensures forall i :: 0 <= i < 8 && w[i] >= 0x80 ==> FoldWord(w)[i] == w[i]
  {
    hide *;
    AddIs(w, 0x3f);
    AddIs(w, 0x25);
    MarksFold(w, false, false);
    StraysAre(w, 0);
    NoCarry(w);
    FoldIs(w);
    assert w[0..] == w;
  }

  lemma AddIs(w: bytes, k: byte)
    requires |w| == 8
    ensures AddTo(w, k) == Summed(w, k, 0)
  {
    hide Digits, Val, Every, Summed;
    Widths();
    DigitsWrap(Val(w) + Val(Every(k, 8)), 8);
    DigitsOfSum(w, k, 0);
  }

  lemma FoldIs(w: bytes)
    requires |w| == 8
    ensures FoldWord(w) == Marked(w, AddTo(w, 0x3f), AddTo(w, 0x25))
    ensures Folded(w, false, false) == Marked(w, Summed(w, 0x3f, 0), Summed(w, 0x25, 0))
  {
    hide AddTo, Marked, Summed;
  }

  lemma NoCarry(w: bytes)
    ensures !Carried(w, 0, 0xc1) && !Carried(w, 0, 0xdb)
  {
  }

  lemma Widths()
    ensures Power256(8) == WIDTH
  {
    assert Power256(4) == 0x1_0000_0000;
  }

  // A whole name.

  /** Whole words first, and the bytes that are left one by one. */
  function FoldName(s: bytes): (f: bytes)
    ensures |f| == |s|
  {
    if |s| < 8 then Lower(s) else FoldWord(s[..8]) + FoldName(s[8..])
  }

  /** Byte i is in a whole word of the name, and a stray of it. */
  predicate StrayIn(s: bytes, i: nat)
    requires i < |s|
  {
    var at := i - i % 8;
    at + 8 <= |s| && Stray(s[at..at + 8], i % 8)
  }

  /**
   * The name is folded as its bytes are exactly when no word of it has a stray: an at sign behind a
   * byte from 0xc1 on, or a Z behind one from 0xdb on, 0xc0 or 0xda between them passing it along.
   */
  lemma {:induction false} FoldsName(s: bytes)
    ensures FoldName(s) == Lower(s) <==> forall i :: 0 <= i < |s| ==> !StrayIn(s, i)
    ensures forall i :: 0 <= i < |s| && s[i] >= 0x80 ==> FoldName(s)[i] == s[i]
    decreases |s|
  {
    hide FoldWord, Lower, Stray;
    if |s| >= 8 {
      var w, rest := s[..8], s[8..];
      FoldsWord(w);
      FoldsName(rest);
      LowerOf(w, rest);
      FoldSplits(s);
      assert s == w + rest;
      SplitStrays(s);
      Halves(FoldWord(w), FoldName(rest), Lower(w), Lower(rest));
    } else {
      Short(s);
    }
  }

  lemma Halves(a: bytes, b: bytes, c: bytes, d: bytes)
    requires |a| == |c|
    ensures a + b == c + d <==> a == c && b == d
  {
    assert a == (a + b)[..|a|] && c == (c + d)[..|a|] && b == (a + b)[|a|..] && d == (c + d)[|a|..];
  }

  lemma Short(s: bytes)
    requires |s| < 8
    ensures FoldName(s) == Lower(s) && forall i :: 0 <= i < |s| ==> !StrayIn(s, i) && (s[i] >= 0x80 ==> Lower(s)[i] == s[i])
  {
    hide Stray;
    assert forall i :: 0 <= i < |s| ==> i - i % 8 == 0;
  }

  lemma SplitStrays(s: bytes)
    requires |s| >= 8
    ensures (forall i :: 0 <= i < |s| ==> !StrayIn(s, i)) <==>
            && (forall i :: 0 <= i < 8 ==> !Stray(s[..8], i))
            && (forall i :: 0 <= i < |s[8..]| ==> !StrayIn(s[8..], i))
  {
    hide Stray, StrayIn;
    forall i | 0 <= i < |s|
      ensures StrayIn(s, i) <==> if i < 8 then Stray(s[..8], i) else StrayIn(s[8..], i - 8)
    {
      StrayAt(s, i);
    }
    if forall i :: 0 <= i < |s| ==> !StrayIn(s, i) {
      forall i | 0 <= i < |s[8..]|
        ensures !StrayIn(s[8..], i)
      {
        assert !StrayIn(s, i + 8);
      }
    }
  }

  lemma StrayAt(s: bytes, i: nat)
    requires |s| >= 8 && i < |s|
    ensures StrayIn(s, i) <==> if i < 8 then Stray(s[..8], i) else StrayIn(s[8..], i - 8)
  {
    var at := i - i % 8;
    if i >= 8 {
      assert (i - 8) % 8 == i % 8;
      if at + 8 <= |s| {
        assert s[8..][at - 8..at] == s[at..at + 8];
      }
    } else {
      assert s[0..8] == s[..8];
    }
  }

  lemma LowerOf(a: bytes, b: bytes)
    ensures Lower(a + b) == Lower(a) + Lower(b)
  {
  }

  lemma FoldSplits(s: bytes)
    requires |s| >= 8
    ensures FoldName(s) == FoldWord(s[..8]) + FoldName(s[8..])
  {
  }

  /** What lower_inplace promises: in ASCII, and up to 0xbf, nothing carries, and names are folded as their bytes. */
  lemma FoldsAscii(s: bytes)
    requires forall i :: 0 <= i < |s| ==> s[i] < 0xc0
    ensures FoldName(s) == Lower(s)
  {
    hide FoldName, Lower;
    FoldsName(s);
    forall i | 0 <= i < |s|
      ensures !StrayIn(s, i)
    {
      var at := i - i % 8;
      if at + 8 <= |s| {
        var w := s[at..at + 8];
        assert forall k :: 0 <= k < 8 ==> w[k] == s[at + k];
        LowCarries(w, i % 8);
      }
    }
  }

  lemma LowCarries(w: bytes, i: nat)
    requires i <= |w| && forall k :: 0 <= k < |w| ==> w[k] < 0xc0
    ensures !Carried(w, i, 0xc1) && !Carried(w, i, 0xdb)
  {
  }

  /** A stray does not matter to the engine: it looks for ASCII names, and finds the same ones. */
  lemma SameNames(s: bytes, name: bytes)
    requires forall i :: 0 <= i < |name| ==> name[i] < 0x80
    ensures FoldName(s) == name <==> Lower(s) == name
  {
    if forall i :: 0 <= i < |s| ==> s[i] < 0xc0 {
      FoldsAscii(s);
    } else {
      var i :| 0 <= i < |s| && s[i] >= 0xc0;
      FoldsName(s);
      assert FoldName(s)[i] == s[i] == Lower(s)[i];
    }
  }

  /** lower_inplace, of the first n bytes. */
  method LowerInPlace(s: array<byte>, n: nat)
    requires n <= s.Length
    modifies s
    ensures s[..n] == FoldName(old(s[..n])) && s[n..] == old(s[n..])
  {
    hide FoldWord, FoldName, Lower;
    ghost var was := s[..];
    var i := 0;
    assert was[..n] == was[0..n];
    while i + 8 <= n
      invariant 0 <= i <= n
      invariant FoldName(was[..n]) == s[..i] + FoldName(was[i..n])
      invariant s[i..] == was[i..]
    {
      ghost var now := s[..];
      WordAt(was, now, i, n);
      FoldSplits(was[i..n]);
      var folded := FoldWord(s[i..i + 8]);
      MemWrite(s, i, folded);
      assert s[..][..i + 8] == now[..i] + folded;
      assert s[..i + 8] == now[..i] + folded && s[i + 8..] == was[i + 8..];
      i := i + 8;
    }
    WordAt(was, s[..], i, n);
    FewLeft(was[i..n]);
    ghost var before := s[..];
    LowerTail(s, i, n);
    assert s[..n] == before[..i] + Lower(was[i..n]);
    assert s[n..] == before[n..] == was[n..];
  }

  lemma WordAt(was: bytes, now: bytes, i: nat, n: nat)
    requires i <= n <= |was| == |now| && now[i..] == was[i..]
    ensures now[i..n] == was[i..n] && now[n..] == was[n..]
    ensures i + 8 <= n ==>
      && was[i..n][..8] == now[i..i + 8] && was[i..n][8..] == was[i + 8..n] && now[i + 8..] == was[i + 8..]
  {
    assert forall k :: i <= k < |was| ==> now[k] == now[i..][k - i] == was[i..][k - i] == was[k];
  }

  lemma FewLeft(s: bytes)
    requires |s| < 8
    ensures FoldName(s) == Lower(s)
  {
  }

  lemma TailIs(was: bytes, now: bytes, from: nat, n: nat)
    requires from <= n <= |was| == |now|
    requires forall k :: 0 <= k < |was| ==> now[k] == if from <= k < n then LowerByte(was[k]) else was[k]
    ensures now[..n] == was[..from] + Lower(was[from..n]) && now[n..] == was[n..]
  {
    var end := Lower(was[from..n]);
    forall k | 0 <= k < n
      ensures now[k] == (was[..from] + end)[k]
    {
      assert k >= from ==> end[k - from] == LowerByte(was[k]);
    }
  }

  method LowerTail(s: array<byte>, from: nat, n: nat)
    requires from <= n <= s.Length
    modifies s
    ensures s[..n] == old(s[..])[..from] + Lower(old(s[..])[from..n]) && s[n..] == old(s[..])[n..]
  {
    var i := from;
    while i < n
      invariant from <= i <= n
      invariant forall k :: 0 <= k < s.Length ==> s[k] == if from <= k < i then LowerByte(old(s[k])) else old(s[k])
    {
      if 65 <= s[i] <= 90 {
        s[i] := s[i] + 32;
      }
      i := i + 1;
    }
    TailIs(old(s[..]), s[..], from, n);
  }

  /** Two byte strings the words get wrong, which no header name is: an at sign behind 0xc1, and a Z behind 0xdb. */
  lemma Misfolded()
    ensures FoldName([0xc1, 64, 97, 97, 97, 97, 97, 97]) != Lower([0xc1, 64, 97, 97, 97, 97, 97, 97])
    ensures FoldName([0xdb, 90, 97, 97, 97, 97, 97, 97]) != Lower([0xdb, 90, 97, 97, 97, 97, 97, 97])
  {
    hide FoldName, Lower;
    var at: bytes, z: bytes := [0xc1, 64, 97, 97, 97, 97, 97, 97], [0xdb, 90, 97, 97, 97, 97, 97, 97];
    FoldsName(at);
    FoldsName(z);
    assert at[0..8] == at && z[0..8] == z;
    assert Stray(at, 1) && Stray(z, 1);
    assert StrayIn(at, 1) && StrayIn(z, 1);
  }
}
