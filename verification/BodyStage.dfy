/**
 * Where a streaming reading of a chunked body is, as a value: the chunks done, the one in hand, the
 * trailers. What was taken so far decides what the reference decoder makes of the whole.
 */
module BodyStage {
  import opened Bytes
  import opened Chunked

  datatype Stage =
    | Between(chunks: seq<Chunk>)                                    // before a size line
    | Inside(chunks: seq<Chunk>, line: bytes, part: bytes)           // within a chunk's data, or at its end
    | Trailing(chunks: seq<Chunk>, last: bytes, trailers: seq<bytes>)
    | Ended(body: Body)

  ghost predicate StageOk(st: Stage) {
    match st
    case Between(chunks) => ChunksOk(chunks)
    case Inside(chunks, line, part) =>
      ChunksOk(chunks) && IsLine(line) && SizeLine(line) && 0 < ChunkSize(line) && |part| <= ChunkSize(line)
    case Trailing(chunks, last, trailers) =>
      ChunksOk(chunks) && LastOk(last) && LinesOk(trailers) && |TrailersLines(trailers)| <= TRAILER_MAX
    case Ended(body) => BodyOk(body)
  }

  ghost predicate LinesOk(ts: seq<bytes>) {
    forall i :: 0 <= i < |ts| ==> IsLine(ts[i]) && ts[i] != []
  }

  /** The bytes taken to get there. */
  function Taken(st: Stage): bytes {
    match st
    case Between(chunks) => ChunksWire(chunks)
    case Inside(chunks, line, part) => ChunksWire(chunks) + line + CRLF + part
    case Trailing(chunks, last, trailers) => ChunksWire(chunks) + last + CRLF + TrailersLines(trailers)
    case Ended(body) => BodyWire(body)
  }

  /** The data among them. */
  function Handed(st: Stage): bytes {
    match st
    case Between(chunks) => ChunksData(chunks)
    case Inside(chunks, _, part) => ChunksData(chunks) + part
    case Trailing(chunks, _, _) => ChunksData(chunks)
    case Ended(body) => ChunksData(body.chunks)
  }

  /** Data bytes still to come in the chunk in hand. */
  function Left(st: Stage): int {
    if st.Inside? then ChunkSize(st.line) - |st.part| else 0
  }

  // The moves.

  lemma MoveSize(chunks: seq<Chunk>, line: bytes)
    requires StageOk(Between(chunks)) && IsLine(line) && SizeLine(line)
    ensures var st := if ChunkSize(line) == 0 then Trailing(chunks, line, []) else Inside(chunks, line, []);
      && StageOk(st) && Taken(st) == Taken(Between(chunks)) + (line + CRLF) && Handed(st) == Handed(Between(chunks))
  {
    hide SizeLine, ChunkSize, IsLine;
    var w := ChunksWire(chunks);
    assert w + line + CRLF + [] == w + (line + CRLF);
  }

  lemma MoveData(st: Stage, more: bytes)
    requires st.Inside? && StageOk(st) && |more| <= Left(st)
    ensures var st' := st.(part := st.part + more);
      && StageOk(st') && Taken(st') == Taken(st) + more && Handed(st') == Handed(st) + more && Left(st') == Left(st) - |more|
  {
    hide SizeLine, ChunkSize, IsLine, ChunksOk;
    Assoc(ChunksWire(st.chunks) + st.line + CRLF, st.part, more);
    Assoc(ChunksData(st.chunks), st.part, more);
  }

  lemma MoveEnd(st: Stage)
    requires st.Inside? && StageOk(st) && Left(st) == 0
    ensures var st' := Between(st.chunks + [Chunk(st.line, st.part)]);
      && StageOk(st') && Taken(st') == Taken(st) + CRLF && Handed(st') == Handed(st)
  {
    hide SizeLine, ChunkSize, IsLine;
    var c := Chunk(st.line, st.part);
    ChunksSnoc(st.chunks, c);
    assert ChunksWire(st.chunks) + (st.line + CRLF + st.part + CRLF) == ChunksWire(st.chunks) + st.line + CRLF + st.part + CRLF;
  }

  lemma MoveTrailer(st: Stage, line: bytes)
    requires st.Trailing? && StageOk(st) && IsLine(line) && |TrailersLines(st.trailers)| + |line| + 2 <= TRAILER_MAX
    ensures var st' := if line == [] then Ended(Body(st.chunks, st.last, st.trailers)) else st.(trailers := st.trailers + [line]);
      && StageOk(st') && Taken(st') == Taken(st) + (line + CRLF) && Handed(st') == Handed(st)
  {
    hide LastOk, IsLine, ChunksOk;
    TrailersEnd(st.trailers);
    TrailersSnoc(st.trailers, line);
    var w := ChunksWire(st.chunks) + st.last + CRLF;
    Assoc(w, TrailersLines(st.trailers), CRLF);
    assert TrailersLines(st.trailers) + line + CRLF == TrailersLines(st.trailers) + (line + CRLF);
    Assoc(w, TrailersLines(st.trailers), line + CRLF);
    assert line == [] ==> line + CRLF == CRLF;
  }

  // What the decoder says.

  lemma {:induction false} DecodeChunks(cs: seq<Chunk>, rest: bytes)
    requires ChunksOk(cs)
    ensures Decode(ChunksWire(cs) + rest) == Longer(Decode(rest), ChunksData(cs), |ChunksWire(cs)|)
  {
    hide Decode, ChunkOk, ChunkWire;
    if cs == [] {
      assert ChunksWire(cs) + rest == rest;
      assert forall d: Decoded :: d.Done? ==> [] + d.data == d.data;
    } else {
      Assoc(ChunkWire(cs[0]), ChunksWire(cs[1..]), rest);
      DecodeChunk(cs[0], ChunksWire(cs[1..]) + rest);
      DecodeChunks(cs[1..], rest);
      LongerTwice(Decode(rest), ChunksData(cs[1..]), |ChunksWire(cs[1..])|, cs[0].data, |ChunkWire(cs[0])|);
    }
  }

  lemma LongerTwice(d: Decoded, a: bytes, m: nat, b: bytes, n: nat)
    ensures Longer(Longer(d, a, m), b, n) == Longer(d, b + a, n + m)
  {
    if d.Done? {
      Assoc(b, a, d.data);
    }
  }

  /** A body read to its end is what the decoder makes of it, whatever follows. */
  lemma DoneWhenEnded(st: Stage, rest: bytes)
    requires st.Ended? && StageOk(st)
    ensures Decode(Taken(st) + rest) == Done(Handed(st), |Taken(st)|)
  {
    DecodeComplete(st.body, rest);
  }

  /** A line that is no size line, where one is due: malformed, whatever follows. */
  lemma MalformedLine(st: Stage, rest: bytes)
    requires st.Between? && StageOk(st) && FirstCrlf(rest).Some? && !SizeLine(rest[..FirstCrlf(rest).value])
    ensures Decode(Taken(st) + rest) == Malformed
  {
    hide SizeLine, FirstCrlf, AfterSize;
    DecodeChunks(st.chunks, rest);
  }

  /** Everything of the chunk in hand but its end is there: the decoder is where the reader is. */
  lemma DecodeInside(st: Stage, rest: bytes)
    requires st.Inside? && StageOk(st)
    ensures Decode(Taken(st) + rest) == Longer(AfterSize(ChunkSize(st.line), |st.line| + 2, st.part + rest), ChunksData(st.chunks), |ChunksWire(st.chunks)|)
  {
    hide SizeLine, ChunkSize, FirstCrlf, AfterSize, Decode, Longer, IsLine;
    var tail := st.part + rest;
    assert Taken(st) + rest == ChunksWire(st.chunks) + (st.line + CRLF + tail);
    DecodeChunks(st.chunks, st.line + CRLF + tail);
    DecodeSizeLine(st.line, tail);
  }

  lemma DecodeSizeLine(line: bytes, tail: bytes)
    requires IsLine(line) && SizeLine(line) && ChunkSize(line) > 0
    ensures Decode(line + CRLF + tail) == AfterSize(ChunkSize(line), |line| + 2, tail)
  {
    hide SizeLine, ChunkSize, AfterSize;
    CutLine(line, tail);
  }

  lemma MalformedEnd(st: Stage, rest: bytes)
    requires st.Inside? && StageOk(st) && Left(st) == 0 && 2 <= |rest| && rest[..2] != CRLF
    ensures Decode(Taken(st) + rest) == Malformed
  {
    hide SizeLine, ChunkSize, Decode;
    DecodeInside(st, rest);
    var size := ChunkSize(st.line);
    assert (st.part + rest)[size..size + 2] == rest[..2];
  }

  lemma UnfinishedInside(st: Stage, rest: bytes)
    requires st.Inside? && StageOk(st) && |rest| < Left(st) + 2
    ensures Decode(Taken(st) + rest) == Unfinished
  {
    hide SizeLine, ChunkSize, Decode;
    DecodeInside(st, rest);
  }

  lemma UnfinishedLine(st: Stage, rest: bytes)
    requires st.Between? && StageOk(st) && FirstCrlf(rest).None?
    ensures Decode(Taken(st) + rest) == Unfinished
  {
    hide AfterLine;
    DecodeChunks(st.chunks, rest);
  }

  // Trailers.

  function Further(d: Decoded, n: nat): Decoded {
    match d
    case Done(data, used) => Done(data, n + used)
    case other => other
  }

  lemma TrailerFirst(t: bytes, rest: bytes, taken: nat)
    requires IsLine(t) && t != [] && taken + |t| + 2 <= TRAILER_MAX
    ensures DecodeTrailers(t + CRLF + rest, taken) == Further(DecodeTrailers(rest, taken + |t| + 2), |t| + 2)
  {
    CutLine(t, rest);
    TrailersNoData(rest, taken + |t| + 2);
  }

  lemma {:induction false} TrailersSoFar(ts: seq<bytes>, rest: bytes, taken: nat)
    requires LinesOk(ts) && taken + |TrailersLines(ts)| <= TRAILER_MAX
    ensures DecodeTrailers(TrailersLines(ts) + rest, taken)
         == Further(DecodeTrailers(rest, taken + |TrailersLines(ts)|), |TrailersLines(ts)|)
    decreases |ts|
  {
    hide DecodeTrailers, IsLine;
    if ts == [] {
      assert [] + rest == rest;
    } else {
      var more := TrailersLines(ts[1..]);
      assert TrailersLines(ts) + rest == ts[0] + CRLF + (more + rest);
      TrailerFirst(ts[0], more + rest, taken);
      TrailersSoFar(ts[1..], rest, taken + |ts[0]| + 2);
    }
  }

  lemma DecodeTrailing(st: Stage, rest: bytes)
    requires st.Trailing? && StageOk(st)
    ensures Decode(Taken(st) + rest) ==
      Longer(Longer(Further(DecodeTrailers(rest, |TrailersLines(st.trailers)|), |TrailersLines(st.trailers)|), [], |st.last| + 2),
             ChunksData(st.chunks), |ChunksWire(st.chunks)|)
  {
    hide LastOk, DecodeTrailers, Decode, Longer, Further, IsLine;
    var tail := TrailersLines(st.trailers) + rest;
    assert Taken(st) + rest == ChunksWire(st.chunks) + (st.last + CRLF + tail);
    DecodeChunks(st.chunks, st.last + CRLF + tail);
    DecodeLast(st.last, tail);
    TrailersSoFar(st.trailers, rest, 0);
  }

  lemma MalformedTrailers(st: Stage, rest: bytes)
    requires st.Trailing? && StageOk(st) && FirstCrlf(rest).Some?
    requires |TrailersLines(st.trailers)| + FirstCrlf(rest).value + 2 > TRAILER_MAX
    ensures Decode(Taken(st) + rest) == Malformed
  {
    hide Decode, FirstCrlf, LastOk;
    DecodeTrailing(st, rest);
  }

  lemma UnfinishedTrailers(st: Stage, rest: bytes)
    requires st.Trailing? && StageOk(st) && FirstCrlf(rest).None?
    ensures Decode(Taken(st) + rest) == Unfinished
  {
    hide Decode, FirstCrlf, LastOk;
    DecodeTrailing(st, rest);
  }

  /** A CRLF found early is found whatever comes later, at the same place. */
  lemma {:induction false} FirstCrlfExtends(s: bytes, more: bytes)
    requires FirstCrlf(s).Some?
    ensures FirstCrlf(s + more) == FirstCrlf(s) && (s + more)[..FirstCrlf(s).value] == s[..FirstCrlf(s).value]
  {
    if !(s[0] == CR && s[1] == LF) {
      FirstCrlfExtends(s[1..], more);
      assert (s + more)[1..] == s[1..] + more;
    }
  }
}
