/**
 * The chunked transfer coding, section 7.1 of RFC 9112, with the extension grammar the engine
 * accepts: the message as a tree, what it says on the wire, and a reference decoder.
 */
module Chunked {
  import opened Bytes

  const CR: byte := 13
  const LF: byte := 10
  const CRLF: bytes := [13, 10]
  const SIZE_MAX: nat := 0xFFFF_FFFF_FFFF_FFFF
  /** Bytes of trailers taken, the final empty line included, before the body is malformed. */
  const TRAILER_MAX: nat := 4096

  // Lines.

  /** Where the first CRLF is, if there is one. */
  function FirstCrlf(s: bytes): (at: Option<nat>)
    ensures at.Some? ==> at.value + 2 <= |s|
  {
    if |s| < 2 then None
    else if s[0] == CR && s[1] == LF then Some(0)
    else match FirstCrlf(s[1..])
      case None => None
      case Some(i) => Some(i + 1)
  }

  predicate CrlfAt(s: bytes, k: nat) {
    k + 1 < |s| && s[k] == CR && s[k + 1] == LF
  }

  lemma {:induction false} FirstCrlfIs(s: bytes)
    ensures FirstCrlf(s).Some? ==> CrlfAt(s, FirstCrlf(s).value) && forall k :: 0 <= k < FirstCrlf(s).value ==> !CrlfAt(s, k)
    ensures FirstCrlf(s).None? ==> forall k :: 0 <= k ==> !CrlfAt(s, k)
  {
    if |s| >= 2 && !CrlfAt(s, 0) {
      FirstCrlfIs(s[1..]);
      forall k | 0 < k
        ensures CrlfAt(s, k) == CrlfAt(s[1..], k - 1)
      {
      }
    }
  }

  /** A line: the first CRLF after it is the one that ends it. */
  ghost predicate IsLine(line: bytes) {
    forall k :: 0 <= k < |line| ==> !CrlfAt(line + CRLF, k)
  }

  lemma LineEnds(line: bytes, rest: bytes)
    requires IsLine(line)
    ensures FirstCrlf(line + CRLF + rest) == Some(|line|)
  {
    var s := line + CRLF + rest;
    FirstCrlfIs(s);
    assert CrlfAt(s, |line|);
    forall k | 0 <= k < |line|
      ensures !CrlfAt(s, k)
    {
      assert !CrlfAt(line + CRLF, k);
      assert s[k] == (line + CRLF)[k] && s[k + 1] == (line + CRLF)[k + 1];
    }
  }

  lemma LineFound(s: bytes)
    requires FirstCrlf(s).Some?
    ensures var n := FirstCrlf(s).value; IsLine(s[..n]) && s == s[..n] + CRLF + s[n + 2..]
  {
    FirstCrlfIs(s);
    var n := FirstCrlf(s).value;
    assert s[..n] + CRLF == s[..n + 2];
    forall k | 0 <= k < n
      ensures !CrlfAt(s[..n] + CRLF, k)
    {
      assert !CrlfAt(s, k);
    }
  }

  // The chunk size line.

  function HexDigit(c: byte): (d: int)
    ensures -1 <= d < 16
  {
    if 48 <= c <= 57 then c - 48
    else if 97 <= c <= 102 then c - 87
    else if 65 <= c <= 70 then c - 55
    else -1
  }

  /** How many hex digits a line starts with. */
  function HexRun(s: bytes): (n: nat)
    ensures n <= |s|
    ensures forall k :: 0 <= k < n ==> HexDigit(s[k]) >= 0
    ensures n < |s| ==> HexDigit(s[n]) < 0
  {
    if s == [] || HexDigit(s[0]) < 0 then 0 else 1 + HexRun(s[1..])
  }

  /** The number hex digits spell, most significant first. */
  function HexValue(s: bytes): (v: nat)
    requires forall k :: 0 <= k < |s| ==> HexDigit(s[k]) >= 0
  {
    if s == [] then 0 else 16 * HexValue(s[..|s| - 1]) + HexDigit(s[|s| - 1])
  }

  /** Leading blanks. */
  function BlankRun(s: bytes): (n: nat)
    ensures n <= |s|
    ensures forall k :: 0 <= k < n ==> s[k] == 32 || s[k] == 9
    ensures n < |s| ==> s[n] != 32 && s[n] != 9
  {
    if s == [] || (s[0] != 32 && s[0] != 9) then 0 else 1 + BlankRun(s[1..])
  }

  /** After the digits: nothing, or blanks, a semicolon and something behind it. */
  predicate ExtensionOk(s: bytes) {
    s == [] || (BlankRun(s) + 1 < |s| && s[BlankRun(s)] == 59)
  }

  predicate SizeLine(line: bytes) {
    var n := HexRun(line);
    0 < n && ExtensionOk(line[n..]) && HexValue(line[..n]) <= SIZE_MAX
  }

  function ChunkSize(line: bytes): nat {
    HexValue(line[..HexRun(line)])
  }

  // The tree.

  datatype Chunk = Chunk(line: bytes, data: bytes)

  ghost predicate ChunkOk(c: Chunk) {
    IsLine(c.line) && SizeLine(c.line) && ChunkSize(c.line) == |c.data| && c.data != []
  }

  function ChunkWire(c: Chunk): bytes {
    c.line + CRLF + c.data + CRLF
  }

  ghost predicate ChunksOk(cs: seq<Chunk>) {
    forall i :: 0 <= i < |cs| ==> ChunkOk(cs[i])
  }

  function ChunksWire(cs: seq<Chunk>): bytes {
    if cs == [] then [] else ChunkWire(cs[0]) + ChunksWire(cs[1..])
  }

  function ChunksData(cs: seq<Chunk>): bytes {
    if cs == [] then [] else cs[0].data + ChunksData(cs[1..])
  }

  ghost predicate LastOk(line: bytes) {
    IsLine(line) && SizeLine(line) && ChunkSize(line) == 0
  }

  /** Trailer lines, then the empty one. */
  ghost predicate TrailersOk(ts: seq<bytes>) {
    (forall i :: 0 <= i < |ts| ==> IsLine(ts[i]) && ts[i] != []) && |TrailersWire(ts)| <= TRAILER_MAX
  }

  function TrailersWire(ts: seq<bytes>): bytes {
    if ts == [] then CRLF else ts[0] + CRLF + TrailersWire(ts[1..])
  }

  datatype Body = Body(chunks: seq<Chunk>, last: bytes, trailers: seq<bytes>)

  ghost predicate BodyOk(b: Body) {
    ChunksOk(b.chunks) && LastOk(b.last) && TrailersOk(b.trailers)
  }

  function BodyWire(b: Body): bytes {
    ChunksWire(b.chunks) + b.last + CRLF + TrailersWire(b.trailers)
  }

  // The reference decoder.

  datatype Decoded = Done(data: bytes, used: nat) | Unfinished | Malformed

  /** The trailers at the front of s: how many bytes, given those already taken. */
  function DecodeTrailers(s: bytes, taken: nat): Decoded {
    match FirstCrlf(s)
    case None => Unfinished
    case Some(n) =>
      if taken + n + 2 > TRAILER_MAX then Malformed
      else if n == 0 then Done([], 2)
      else match DecodeTrailers(s[n + 2..], taken + n + 2)
        case Done(_, used) => Done([], n + 2 + used)
        case other => other
  }

  function Decode(s: bytes): Decoded
    decreases |s|, 2
  {
    match FirstCrlf(s)
    case None => Unfinished
    case Some(n) => AfterLine(s[..n], s[n + 2..])
  }

  function AfterLine(line: bytes, rest: bytes): Decoded
    decreases |rest|, 1
  {
    if !SizeLine(line) then Malformed
    else if ChunkSize(line) == 0 then Longer(DecodeTrailers(rest, 0), [], |line| + 2)
    else AfterSize(ChunkSize(line), |line| + 2, rest)
  }

  function AfterSize(size: nat, taken: nat, rest: bytes): Decoded
    decreases |rest|, 0
  {
    if |rest| < size + 2 then Unfinished
    else if rest[size..size + 2] != CRLF then Malformed
    else Longer(Decode(rest[size + 2..]), rest[..size], taken + size + 2)
  }

  /** What is decoded further on, with data and bytes taken before it. */
  function Longer(d: Decoded, data: bytes, taken: nat): Decoded {
    match d
    case Done(more, used) => Done(data + more, taken + used)
    case other => other
  }

  lemma CutLine(line: bytes, rest: bytes)
    requires IsLine(line)
    ensures var s := line + CRLF + rest; FirstCrlf(s) == Some(|line|) && s[..|line|] == line && s[|line| + 2..] == rest
  {
    LineEnds(line, rest);
  }

  lemma CutData(data: bytes, rest: bytes)
    ensures var s := data + CRLF + rest;
      s[..|data|] == data && s[|data|..|data| + 2] == CRLF && s[|data| + 2..] == rest
  {
  }

  /** One chunk in front: its data, then whatever the rest decodes to. */
  lemma DecodeChunk(c: Chunk, rest: bytes)
    requires ChunkOk(c)
    ensures Decode(ChunkWire(c) + rest) == Longer(Decode(rest), c.data, |ChunkWire(c)|)
  {
    hide SizeLine, ChunkSize, Longer;
    var tail := c.data + CRLF + rest;
    assert ChunkWire(c) + rest == c.line + CRLF + tail;
    CutLine(c.line, tail);
    DecodeAfterSize(c, rest);
  }

  lemma DecodeAfterSize(c: Chunk, rest: bytes)
    requires ChunkOk(c)
    ensures AfterLine(c.line, c.data + CRLF + rest) == Longer(Decode(rest), c.data, |ChunkWire(c)|)
  {
    hide SizeLine, ChunkSize, Longer, Decode;
    CutData(c.data, rest);
  }

  lemma DecodeLast(line: bytes, rest: bytes)
    requires LastOk(line)
    ensures Decode(line + CRLF + rest) == Longer(DecodeTrailers(rest, 0), [], |line| + 2)
  {
    hide SizeLine, ChunkSize, Longer;
    CutLine(line, rest);
  }

  lemma BodyWireLast(b: Body, more: bytes)
    requires b.chunks == []
    ensures BodyWire(b) + more == b.last + CRLF + (TrailersWire(b.trailers) + more)
    ensures |BodyWire(b)| == |b.last| + 2 + |TrailersWire(b.trailers)|
  {
    hide TrailersWire;
  }

  lemma BodyWireChunk(b: Body, more: bytes)
    requires b.chunks != []
    ensures var b' := b.(chunks := b.chunks[1..]);
      && BodyWire(b) + more == ChunkWire(b.chunks[0]) + (BodyWire(b') + more)
      && |BodyWire(b)| == |ChunkWire(b.chunks[0])| + |BodyWire(b')|
  {
    hide TrailersWire, ChunkWire;
  }

  /** Complete: the wire of a tree, whatever follows it, decodes to the tree's data, and to no more. */
  lemma {:induction false} DecodeComplete(b: Body, more: bytes)
    requires BodyOk(b)
    ensures Decode(BodyWire(b) + more) == Done(ChunksData(b.chunks), |BodyWire(b)|)
    decreases |b.chunks|
  {
    hide Decode, SizeLine, ChunkSize, BodyWire, ChunkWire, TrailersWire;
    if b.chunks == [] {
      BodyWireLast(b, more);
      DecodeLast(b.last, TrailersWire(b.trailers) + more);
      TrailersComplete(b.trailers, 0, more);
    } else {
      var b' := b.(chunks := b.chunks[1..]);
      BodyWireChunk(b, more);
      DecodeChunk(b.chunks[0], BodyWire(b') + more);
      DecodeComplete(b', more);
    }
  }

  lemma {:induction false} TrailersComplete(ts: seq<bytes>, taken: nat, more: bytes)
    requires forall i :: 0 <= i < |ts| ==> IsLine(ts[i]) && ts[i] != []
    requires taken + |TrailersWire(ts)| <= TRAILER_MAX
    ensures DecodeTrailers(TrailersWire(ts) + more, taken) == Done([], |TrailersWire(ts)|)
    decreases |ts|
  {
    var s := TrailersWire(ts) + more;
    if ts == [] {
      assert s == [] + CRLF + more;
      LineEnds([], more);
    } else {
      var rest := TrailersWire(ts[1..]) + more;
      assert s == ts[0] + CRLF + rest;
      LineEnds(ts[0], rest);
      assert s[|ts[0]| + 2..] == rest;
      TrailersComplete(ts[1..], taken + |ts[0]| + 2, more);
    }
  }

  lemma TakeLine(s: bytes, n: nat, used: nat, wire: bytes)
    requires n + 2 + used <= |s| && s == s[..n] + CRLF + s[n + 2..] && s[n + 2..][..used] == wire
    ensures s[..n + 2 + used] == s[..n] + CRLF + wire
  {
    assert s[n + 2..n + 2 + used] == s[n + 2..][..used];
    assert s[..n + 2 + used] == s[..n + 2] + s[n + 2..n + 2 + used];
    assert s[..n + 2] == s[..n] + CRLF;
  }

  /** What a decoding that finished found first. */
  lemma DecodeFirst(s: bytes)
    requires Decode(s).Done?
    ensures FirstCrlf(s).Some?
    ensures var n := FirstCrlf(s).value; var rest, size := s[n + 2..], ChunkSize(s[..n]);
      && SizeLine(s[..n])
      && (size == 0 ==> DecodeTrailers(rest, 0).Done? && Decode(s) == Done([], n + 2 + DecodeTrailers(rest, 0).used))
      && (size > 0 ==> size + 2 <= |rest| && rest[size..size + 2] == CRLF && Decode(rest[size + 2..]).Done?
                       && Decode(s) == Done(rest[..size] + Decode(rest[size + 2..]).data, n + 2 + size + 2 + Decode(rest[size + 2..]).used))
  {
    hide SizeLine, ChunkSize, FirstCrlf, DecodeTrailers, Decode, AfterLine, AfterSize;
    DecodeLine(s);
    var n := FirstCrlf(s).value;
    var rest, size := s[n + 2..], ChunkSize(s[..n]);
    AfterLineFirst(s[..n], rest);
    if size == 0 {
      TrailersNoData(rest, 0);
    } else {
      AfterSizeFirst(size, n + 2, rest);
    }
  }

  lemma DecodeLine(s: bytes)
    requires Decode(s).Done?
    ensures FirstCrlf(s).Some? && var n := FirstCrlf(s).value; Decode(s) == AfterLine(s[..n], s[n + 2..])
  {
    hide AfterLine;
  }

  lemma AfterLineFirst(line: bytes, rest: bytes)
    requires AfterLine(line, rest).Done?
    ensures SizeLine(line)
    ensures AfterLine(line, rest) ==
      if ChunkSize(line) == 0 then Longer(DecodeTrailers(rest, 0), [], |line| + 2)
      else AfterSize(ChunkSize(line), |line| + 2, rest)
  {
    hide SizeLine, ChunkSize, AfterSize, DecodeTrailers;
  }

  lemma AfterSizeFirst(size: nat, taken: nat, rest: bytes)
    requires AfterSize(size, taken, rest).Done?
    ensures size + 2 <= |rest| && rest[size..size + 2] == CRLF && Decode(rest[size + 2..]).Done?
    ensures AfterSize(size, taken, rest) == Done(rest[..size] + Decode(rest[size + 2..]).data, taken + size + 2 + Decode(rest[size + 2..]).used)
  {
    hide Decode;
  }

  lemma TrailersNoData(s: bytes, taken: nat)
    ensures DecodeTrailers(s, taken).Done? ==> DecodeTrailers(s, taken).data == []
  {
  }

  /** Sound: whatever decodes is the wire of a tree. */
  lemma {:induction false} DecodeSound(s: bytes) returns (b: Body)
    requires Decode(s).Done?
    ensures BodyOk(b) && Decode(s).used <= |s| && s[..Decode(s).used] == BodyWire(b) && Decode(s).data == ChunksData(b.chunks)
    decreases |s|
  {
    hide SizeLine, ChunkSize, BodyOk, BodyWire, FirstCrlf, Decode, DecodeTrailers, TrailersWire, IsLine;
    DecodeFirst(s);
    LineFound(s);
    var n := FirstCrlf(s).value;
    var rest, size := s[n + 2..], ChunkSize(s[..n]);
    if size == 0 {
      var ts := TrailersSound(rest, 0);
      b := LastSound(s, n, ts);
    } else {
      var b' := DecodeSound(rest[size + 2..]);
      b := AddChunk(s, n, size, b');
    }
  }

  lemma LastSound(s: bytes, n: nat, ts: seq<bytes>) returns (b: Body)
    requires n + 2 <= |s| && s == s[..n] + CRLF + s[n + 2..] && LastOk(s[..n]) && TrailersOk(ts) && TrailersWire(ts) <= s[n + 2..]
    ensures BodyOk(b) && b.chunks == [] && s[..n + 2 + |TrailersWire(ts)|] == BodyWire(b) && |BodyWire(b)| == n + 2 + |TrailersWire(ts)|
  {
    hide SizeLine, ChunkSize;
    b := Body([], s[..n], ts);
    TakeLine(s, n, |TrailersWire(ts)|, TrailersWire(ts));
    assert BodyWire(b) == s[..n] + CRLF + TrailersWire(ts);
  }

  lemma AddChunk(s: bytes, n: nat, size: nat, b': Body) returns (b: Body)
    requires n + 2 + size + 2 <= |s| && s == s[..n] + CRLF + s[n + 2..] && s[n + 2..][size..size + 2] == CRLF
    requires IsLine(s[..n]) && SizeLine(s[..n]) && ChunkSize(s[..n]) == size && 0 < size
    requires BodyOk(b') && BodyWire(b') <= s[n + 2..][size + 2..]
    ensures BodyOk(b) && ChunksData(b.chunks) == s[n + 2..][..size] + ChunksData(b'.chunks)
    ensures var used := n + 2 + size + 2 + |BodyWire(b')|; used <= |s| && s[..used] == BodyWire(b)
  {
    hide SizeLine, ChunkSize, BodyWire, IsLine, TrailersOk, TrailersWire, LastOk;
    var rest := s[n + 2..];
    var c := Chunk(s[..n], rest[..size]);
    b := b'.(chunks := [c] + b'.chunks);
    assert b.chunks[1..] == b'.chunks;
    assert b.(chunks := b.chunks[1..]) == b';
    var w := |BodyWire(b')|;
    AroundCrlf(rest, size);
    TakeLine(rest, size, w, BodyWire(b'));
    TakeLine(s, n, size + 2 + w, rest[..size] + CRLF + BodyWire(b'));
    BodyWireChunk(b, []);
    Joined(s[..n], rest[..size], BodyWire(b'));
    assert BodyWire(b) + [] == BodyWire(b) && BodyWire(b') + [] == BodyWire(b');
  }

  lemma AroundCrlf(s: bytes, n: nat)
    requires n + 2 <= |s| && s[n..n + 2] == CRLF
    ensures s == s[..n] + CRLF + s[n + 2..]
  {
  }

  lemma Joined(line: bytes, data: bytes, rest: bytes)
    ensures line + CRLF + (data + CRLF + rest) == (line + CRLF + data + CRLF) + rest
  {
  }

  lemma {:induction false} TrailersSound(s: bytes, taken: nat) returns (ts: seq<bytes>)
    requires DecodeTrailers(s, taken).Done?
    ensures var used := DecodeTrailers(s, taken).used;
      && used <= |s| && s[..used] == TrailersWire(ts) && taken + used <= TRAILER_MAX
      && forall i :: 0 <= i < |ts| ==> IsLine(ts[i]) && ts[i] != []
    decreases |s|
  {
    LineFound(s);
    var n := FirstCrlf(s).value;
    if n == 0 {
      ts := [];
    } else {
      var rest := TrailersSound(s[n + 2..], taken + n + 2);
      hide DecodeTrailers, FirstCrlf, IsLine;
      TakeLine(s, n, |TrailersWire(rest)|, TrailersWire(rest));
      ts := [s[..n]] + rest;
      assert ts[1..] == rest;
    }
  }

  /** Two bodies that start the same stream are the same bytes with the same data: how the stream was cut cannot matter. */
  lemma Unambiguous(a: Body, b: Body, s: bytes)
    requires BodyOk(a) && BodyOk(b) && BodyWire(a) <= s && BodyWire(b) <= s
    ensures BodyWire(a) == BodyWire(b) && ChunksData(a.chunks) == ChunksData(b.chunks)
  {
    DecodeComplete(a, s[|BodyWire(a)|..]);
    DecodeComplete(b, s[|BodyWire(b)|..]);
    assert s == BodyWire(a) + s[|BodyWire(a)|..] == BodyWire(b) + s[|BodyWire(b)|..];
  }

  lemma {:induction false} ChunksSnoc(cs: seq<Chunk>, c: Chunk)
    ensures ChunksWire(cs + [c]) == ChunksWire(cs) + ChunkWire(c)
    ensures ChunksData(cs + [c]) == ChunksData(cs) + c.data
  {
    hide ChunkWire;
    if cs == [] {
      assert cs + [c] == [c];
      assert [c][1..] == [];
    } else {
      assert (cs + [c])[1..] == cs[1..] + [c];
      ChunksSnoc(cs[1..], c);
      Assoc(ChunkWire(cs[0]), ChunksWire(cs[1..]), ChunkWire(c));
      Assoc(cs[0].data, ChunksData(cs[1..]), c.data);
    }
  }

  lemma Assoc(a: bytes, b: bytes, c: bytes)
    ensures a + (b + c) == a + b + c
  {
  }

  lemma {:induction false} TrailersEnd(ts: seq<bytes>)
    ensures TrailersWire(ts) == TrailersLines(ts) + CRLF
  {
    if ts != [] {
      TrailersEnd(ts[1..]);
      assert ts[0] + CRLF + (TrailersLines(ts[1..]) + CRLF) == ts[0] + CRLF + TrailersLines(ts[1..]) + CRLF;
    }
  }

  lemma {:induction false} TrailersSnoc(ts: seq<bytes>, t: bytes)
    ensures TrailersLines(ts + [t]) == TrailersLines(ts) + t + CRLF
  {
    if ts == [] {
      assert ts + [t] == [t];
    } else {
      var more := TrailersLines(ts[1..]);
      assert (ts + [t])[1..] == ts[1..] + [t];
      TrailersSnoc(ts[1..], t);
      assert ts[0] + CRLF + (more + t + CRLF) == ts[0] + CRLF + more + t + CRLF;
    }
  }

  /** Trailer lines without the empty one that ends them. */
  function TrailersLines(ts: seq<bytes>): bytes {
    if ts == [] then [] else ts[0] + CRLF + TrailersLines(ts[1..])
  }
}
