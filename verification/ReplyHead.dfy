/**
 * The reply's head: how build_head of lib/http/engine.c serializes it, how the digits in it are
 * written, and what a recipient reads back from it.
 */
module ReplyHead {
  import opened Bytes
  import opened Chunked

  // Digits.

  function HexChar(d: nat): byte
    requires d < 16
  {
    if d < 10 then 48 + d else 87 + d
  }

  /** A number in hex, most significant digit first. */
  function Hex(v: nat): (s: bytes)
    ensures s != []
  {
    (if v < 16 then [] else Hex(v / 16)) + [HexChar(v % 16)]
  }

  function Decimal(v: nat): (s: bytes)
    ensures s != []
  {
    (if v < 10 then [] else Decimal(v / 10)) + [48 + v % 10]
  }

  function Reversed(s: bytes): (r: bytes)
    ensures |r| == |s|
  {
    if s == [] then [] else Reversed(s[1..]) + [s[0]]
  }

  lemma {:induction false} ReversedSnoc(s: bytes, c: byte)
    ensures Reversed(s + [c]) == [c] + Reversed(s)
  {
    if s == [] {
      assert s + [c] == [c];
    } else {
      assert (s + [c])[1..] == s[1..] + [c];
      ReversedSnoc(s[1..], c);
    }
  }

  lemma {:induction false} ReversedAt(s: bytes, k: nat)
    requires k < |s|
    ensures Reversed(s)[k] == s[|s| - 1 - k]
  {
    if k < |s| - 1 {
      ReversedAt(s[1..], k);
    }
  }

  /** put_hex: digits from the least significant up, then turned round into place. */
  method PutHex(value: nat) returns (digits: bytes)
    ensures digits == Hex(value)
  {
    hide Hex, HexChar, Reversed;
    HexStep(value);
    ReversedOne(HexChar(value % 16));
    var v := value;
    var tmp: bytes := [HexChar(v % 16)];
    v := v / 16;
    while v != 0
      invariant Hex(value) == (if v == 0 then [] else Hex(v)) + Reversed(tmp)
      decreases v
    {
      HexStep(v);
      ReversedSnoc(tmp, HexChar(v % 16));
      tmp := tmp + [HexChar(v % 16)];
      v := v / 16;
    }
    digits := TurnRound(tmp);
  }

  /** put_uint: the same in decimal. */
  method PutUint(value: nat) returns (digits: bytes)
    ensures digits == Decimal(value)
  {
    hide Decimal, Reversed;
    DecimalStep(value);
    ReversedOne(48 + value % 10);
    var v := value;
    var tmp: bytes := [48 + v % 10];
    v := v / 10;
    while v != 0
      invariant Decimal(value) == (if v == 0 then [] else Decimal(v)) + Reversed(tmp)
      decreases v
    {
      DecimalStep(v);
      ReversedSnoc(tmp, 48 + v % 10);
      tmp := tmp + [48 + v % 10];
      v := v / 10;
    }
    digits := TurnRound(tmp);
  }

  lemma DecimalStep(v: nat)
    ensures Decimal(v) == (if v / 10 == 0 then [] else Decimal(v / 10)) + [48 + v % 10]
  {
  }

  lemma HexStep(v: nat)
    ensures Hex(v) == (if v / 16 == 0 then [] else Hex(v / 16)) + [HexChar(v % 16)]
  {
  }

  lemma ReversedOne(c: byte)
    ensures Reversed([c]) == [c]
  {
  }

  method TurnRound(tmp: bytes) returns (out: bytes)
    ensures out == Reversed(tmp)
  {
    out := [];
    for j := 0 to |tmp|
      invariant |out| == j && forall k :: 0 <= k < j ==> out[k] == tmp[|tmp| - 1 - k]
    {
      out := out + [tmp[|tmp| - 1 - j]];
    }
    forall k | 0 <= k < |tmp|
      ensures out[k] == Reversed(tmp)[k]
    {
      ReversedAt(tmp, k);
    }
  }

  lemma {:induction false} HexReads(v: nat)
    ensures forall k :: 0 <= k < |Hex(v)| ==> HexDigit(Hex(v)[k]) >= 0 && Hex(v)[k] != CR
    ensures HexValue(Hex(v)) == v
  {
    if v >= 16 {
      HexReads(v / 16);
      assert Hex(v)[..|Hex(v)| - 1] == Hex(v / 16);
    }
  }

  lemma {:induction false} HexRunAll(s: bytes)
    requires forall k :: 0 <= k < |s| ==> HexDigit(s[k]) >= 0
    ensures HexRun(s) == |s|
  {
    if s != [] {
      HexRunAll(s[1..]);
    }
  }

  /** The size line put_hex makes is one the grammar reads back as that size. */
  lemma HexIsSizeLine(v: nat)
    requires v <= SIZE_MAX
    ensures IsLine(Hex(v)) && SizeLine(Hex(v)) && ChunkSize(Hex(v)) == v
  {
    var s := Hex(v);
    HexReads(v);
    HexRunAll(s);
    assert s[..|s|] == s && s[|s|..] == [];
    forall k | 0 <= k < |s|
      ensures !CrlfAt(s + CRLF, k)
    {
      assert (s + CRLF)[k] == s[k];
    }
  }

  /** The number decimal digits spell. */
  function DecimalValue(s: bytes): (v: Option<nat>) {
    if s == [] then None
    else if !(48 <= s[|s| - 1] <= 57) then None
    else if |s| == 1 then Some(s[0] - 48)
    else match DecimalValue(s[..|s| - 1])
      case None => None
      case Some(v) => Some(10 * v + (s[|s| - 1] - 48))
  }

  lemma {:induction false} DecimalReads(v: nat)
    ensures DecimalValue(Decimal(v)) == Some(v)
    ensures forall k :: 0 <= k < |Decimal(v)| ==> Decimal(v)[k] != CR
  {
    if v >= 10 {
      DecimalReads(v / 10);
      assert Decimal(v)[..|Decimal(v)| - 1] == Decimal(v / 10);
    }
  }

  lemma {:induction false} DecimalLength(v: nat, n: nat)
    requires 0 < n && v < Power(10, n)
    ensures |Decimal(v)| <= n
    decreases n
  {
    if v >= 10 {
      DecimalLength(v / 10, n - 1);
    }
  }

  lemma {:induction false} HexLength(v: nat, n: nat)
    requires 0 < n && v < Power(16, n)
    ensures |Hex(v)| <= n
    decreases n
  {
    if v >= 16 {
      HexLength(v / 16, n - 1);
    }
  }

  function Power(base: nat, n: nat): nat {
    if n == 0 then 1 else base * Power(base, n - 1)
  }

  // The head.

  datatype Framing = Length(n: nat) | InChunks | UntilClose | NoBody

  /** What the head is built from; the lines a handler added are already serialized, one each. */
  datatype Head = Head(status: nat, reason: bytes, contentType: bytes, framing: Framing, keep: bool, minor: nat, extra: seq<bytes>)

  const VERSION: bytes := [72, 84, 84, 80, 47, 49, 46, 49, 32]                              // "HTTP/1.1 "
  const TYPE: bytes := [99, 111, 110, 116, 101, 110, 116, 45, 116, 121, 112, 101, 58, 32]    // "content-type: "
  const LENGTH: bytes := [99, 111, 110, 116, 101, 110, 116, 45, 108, 101, 110, 103, 116, 104, 58, 32]   // "content-length: "
  const ENCODING: bytes := [116, 114, 97, 110, 115, 102, 101, 114, 45, 101, 110, 99, 111, 100, 105, 110, 103, 58, 32,
                            99, 104, 117, 110, 107, 101, 100]                                // "transfer-encoding: chunked"
  const CLOSE: bytes := [99, 111, 110, 110, 101, 99, 116, 105, 111, 110, 58, 32, 99, 108, 111, 115, 101]   // "connection: close"
  const KEEP: bytes := [99, 111, 110, 110, 101, 99, 116, 105, 111, 110, 58, 32,
                        107, 101, 101, 112, 45, 97, 108, 105, 118, 101]                      // "connection: keep-alive"

  function FramingLines(f: Framing): seq<bytes> {
    match f
    case Length(n) => [LENGTH + Decimal(n)]
    case InChunks => [ENCODING]
    case _ => []
  }

  function ConnectionLines(h: Head): seq<bytes> {
    if !h.keep then [CLOSE] else if h.minor == 0 then [KEEP] else []
  }

  function StartLines(h: Head): seq<bytes> {
    [VERSION + Decimal(h.status) + [32] + h.reason, TYPE + h.contentType]
  }

  function EndLines(h: Head): seq<bytes> {
    ConnectionLines(h) + h.extra
  }

  function HeadLines(h: Head): seq<bytes> {
    StartLines(h) + FramingLines(h.framing) + EndLines(h)
  }

  function Lines(ls: seq<bytes>): bytes {
    if ls == [] then [] else ls[0] + CRLF + Lines(ls[1..])
  }

  function HeadBytes(h: Head): bytes {
    Lines(HeadLines(h)) + CRLF
  }

  lemma {:induction false} LinesAppend(a: seq<bytes>, b: seq<bytes>)
    ensures Lines(a + b) == Lines(a) + Lines(b)
  {
    if a == [] {
      assert a + b == b;
    } else {
      assert (a + b)[1..] == a[1..] + b;
      LinesAppend(a[1..], b);
    }
  }

  lemma LinesOne(l: bytes)
    ensures Lines([l]) == l + CRLF
  {
    assert [l][1..] == [];
  }

  // What a recipient reads from it.

  /** The framing the head names, and what follows the head. */
  datatype Read = Read(framing: Framing, body: bytes) | BadHead

  /** One line's say on the framing; a head that says nothing runs until close. */
  function LineSays(line: bytes, before: Framing): Framing {
    if LENGTH <= line then
      match DecimalValue(line[|LENGTH|..]) {
        case Some(n) => Length(n)
        case None => before
      }
    else if line == ENCODING then InChunks
    else before
  }

  function ReadLines(s: bytes, so: Framing): Read
    decreases |s|
  {
    match FirstCrlf(s)
    case None => BadHead
    case Some(n) => if n == 0 then Read(so, s[2..]) else ReadLines(s[n + 2..], LineSays(s[..n], so))
  }

  function ReadHead(s: bytes): Read {
    ReadLines(s, UntilClose)
  }

  /** Lines that end where they seem to, and do not talk about the framing. */
  ghost predicate QuietLine(l: bytes) {
    l != [] && IsLine(l) && !(LENGTH <= l) && l != ENCODING
  }

  ghost predicate HeadOk(h: Head) {
    && IsLine(VERSION + Decimal(h.status) + [32] + h.reason)
    && IsLine(TYPE + h.contentType)
    && forall i :: 0 <= i < |h.extra| ==> QuietLine(h.extra[i])
  }

  lemma {:induction false} ReadQuiet(ls: seq<bytes>, more: bytes, so: Framing)
    requires forall i :: 0 <= i < |ls| ==> QuietLine(ls[i])
    ensures ReadLines(Lines(ls) + more, so) == ReadLines(more, so)
  {
    if ls == [] {
      assert Lines(ls) + more == more;
    } else {
      var rest := Lines(ls[1..]) + more;
      assert Lines(ls) + more == ls[0] + CRLF + rest;
      CutLine(ls[0], rest);
      ReadQuiet(ls[1..], more, so);
    }
  }

  lemma NoCrIsLine(l: bytes)
    requires forall k :: 0 <= k < |l| ==> l[k] != CR
    ensures IsLine(l)
  {
    forall k | 0 <= k < |l|
      ensures !CrlfAt(l + CRLF, k)
    {
      assert (l + CRLF)[k] == l[k];
    }
  }

  lemma ReadFraming(f: Framing, more: bytes, so: Framing)
    ensures ReadLines(Lines(FramingLines(f)) + more, so) == ReadLines(more, if f.Length? || f.InChunks? then f else so)
  {
    if f.Length? || f.InChunks? {
      var l := FramingLines(f)[0];
      if f.Length? {
        DecimalReads(f.n);
        assert l[|LENGTH|..] == Decimal(f.n);
        assert LENGTH <= l;
      }
      NoCrIsLine(l);
      LinesOne(l);
      assert Lines([l]) + more == l + CRLF + more;
      CutLine(l, more);
      assert f.InChunks? ==> l[0] != LENGTH[0];
    } else {
      assert Lines([]) + more == more;
    }
  }

  lemma StartLinesQuiet(h: Head)
    requires HeadOk(h)
    ensures forall i :: 0 <= i < |StartLines(h)| ==> QuietLine(StartLines(h)[i])
    ensures forall i :: 0 <= i < |EndLines(h)| ==> QuietLine(EndLines(h)[i])
  {
    var a, b := VERSION + Decimal(h.status) + [32] + h.reason, TYPE + h.contentType;
    assert a[0] == 72 && LENGTH[0] == 99 && ENCODING[0] == 116;
    assert b[8] == 116 && LENGTH[8] == 108 && b[0] == 99;
    NoCrIsLine(CLOSE);
    NoCrIsLine(KEEP);
    assert CLOSE[3] == 110 && CLOSE[2] == 110 && LENGTH[2] == 110 && LENGTH[3] == 116;
  }

  /** The framing a recipient of a reply built with f acts on. */
  function Named(f: Framing): Framing {
    if f.Length? || f.InChunks? then f else UntilClose
  }

  /** The head in three parts: lines before the framing, its own, and lines after it. */
  lemma HeadParts(h: Head, body: bytes)
    ensures HeadBytes(h) + body == Lines(StartLines(h)) + (Lines(FramingLines(h.framing)) + (Lines(EndLines(h)) + ([] + CRLF + body)))
  {
    hide Lines, FramingLines, StartLines, EndLines;
    LinesAppend(StartLines(h), FramingLines(h.framing) + EndLines(h));
    LinesAppend(FramingLines(h.framing), EndLines(h));
    assert HeadLines(h) == StartLines(h) + (FramingLines(h.framing) + EndLines(h));
  }

  /** A recipient reads back the framing the reply was built with, and the head ends where the body starts. */
  lemma HeadNamesFraming(h: Head, body: bytes)
    requires HeadOk(h)
    ensures ReadHead(HeadBytes(h) + body) == Read(Named(h.framing), body)
  {
    hide Lines, FramingLines, StartLines, EndLines, HeadBytes, ReadLines, QuietLine, HeadOk;
    StartLinesQuiet(h);
    HeadParts(h, body);
    var last := [] + CRLF + body;
    var tail := Lines(EndLines(h)) + last;
    ReadQuiet(StartLines(h), Lines(FramingLines(h.framing)) + tail, UntilClose);
    ReadFraming(h.framing, tail, UntilClose);
    ReadQuiet(EndLines(h), last, Named(h.framing));
    EmptyLineEnds(body, Named(h.framing));
  }

  lemma EmptyLineEnds(body: bytes, so: Framing)
    ensures ReadLines([] + CRLF + body, so) == Read(so, body)
  {
    CutLine([], body);
  }

  // Serializing it.

  const HEAD_CAP: nat := 4096

  /** One thing put into the head, and the room asked for it. */
  datatype Field = Field(data: bytes, need: nat)

  function Exactly(data: bytes): Field {
    Field(data, |data|)
  }

  /** The bytes of a list of fields. */
  function Joined(fields: seq<Field>): bytes {
    if fields == [] then [] else fields[0].data + Joined(fields[1..])
  }

  lemma {:induction false} JoinedAppend(a: seq<Field>, b: seq<Field>)
    ensures Joined(a + b) == Joined(a) + Joined(b)
  {
    if a == [] {
      assert a + b == b;
    } else {
      assert (a + b)[1..] == a[1..] + b;
      JoinedAppend(a[1..], b);
    }
  }

  function LineFields(ls: seq<bytes>): (fields: seq<Field>)
    ensures forall f :: f in fields ==> |f.data| <= f.need <= |f.data| + 20
  {
    if ls == [] then [] else [Exactly(ls[0]), Exactly(CRLF)] + LineFields(ls[1..])
  }

  lemma {:induction false} LineFieldsJoin(ls: seq<bytes>)
    ensures Joined(LineFields(ls)) == Lines(ls)
  {
    if ls != [] {
      LineFieldsJoin(ls[1..]);
      JoinedAppend([Exactly(ls[0]), Exactly(CRLF)], LineFields(ls[1..]));
      TwoJoin(ls[0], CRLF);
    }
  }

  lemma TwoJoin(a: bytes, b: bytes)
    ensures Joined([Exactly(a), Exactly(b)]) == a + b
  {
    assert [Exactly(a), Exactly(b)][1..] == [Exactly(b)];
    assert Joined([Exactly(b)]) == b;
  }

  /** The fields of build_head, in order: a length asks for twenty digits, whatever it takes. */
  method Fields(h: Head) returns (fields: seq<Field>)
    requires h.framing.Length? ==> h.framing.n <= SIZE_MAX
    ensures Joined(fields) == HeadBytes(h)
    ensures forall f :: f in fields ==> |f.data| <= f.need <= |f.data| + 20
  {
    hide Lines, Joined, LineFields, Decimal;
    fields := LineFields(StartLines(h));
    LineFieldsJoin(StartLines(h));
    var framing: seq<Field> := [];
    match h.framing {
      case Length(n) =>
        var digits := PutUint(n);
        LengthDigits(n);
        framing := [Exactly(LENGTH), Field(digits, 20), Exactly(CRLF)];
        LengthLine(digits);
      case InChunks =>
        framing := LineFields([ENCODING]);
        LineFieldsJoin([ENCODING]);
      case _ =>
        EmptyJoin();
    }
    LineFieldsJoin(EndLines(h));
    JoinedAppend(fields, framing);
    JoinedAppend(fields + framing, LineFields(EndLines(h)));
    JoinedAppend(fields + framing + LineFields(EndLines(h)), [Exactly(CRLF)]);
    OneJoin(CRLF);
    LinesAppend(StartLines(h), FramingLines(h.framing));
    LinesAppend(StartLines(h) + FramingLines(h.framing), EndLines(h));
    fields := fields + framing + LineFields(EndLines(h)) + [Exactly(CRLF)];
  }

  lemma LengthDigits(n: nat)
    requires n <= SIZE_MAX
    ensures |Decimal(n)| <= 20
  {
    assert Power(10, 10) == 10000000000;
    assert Power(10, 20) == 100000000000000000000 by {
      PowerAdd(10, 10, 10);
    }
    DecimalLength(n, 20);
  }

  lemma {:induction false} PowerAdd(base: nat, m: nat, n: nat)
    ensures Power(base, m + n) == Power(base, m) * Power(base, n)
  {
    if m > 0 {
      PowerAdd(base, m - 1, n);
      var a, b := Power(base, m - 1), Power(base, n);
      assert (base * a) * b == base * (a * b);
    }
  }

  lemma LengthLine(digits: bytes)
    ensures Joined([Exactly(LENGTH), Field(digits, 20), Exactly(CRLF)]) == Lines([LENGTH + digits])
  {
    var f := [Exactly(LENGTH), Field(digits, 20), Exactly(CRLF)];
    assert f[1..] == [Field(digits, 20), Exactly(CRLF)];
    assert f[1..][1..] == [Exactly(CRLF)];
    OneJoin(CRLF);
    LinesOne(LENGTH + digits);
  }

  lemma OneJoin(a: bytes)
    ensures Joined([Exactly(a)]) == a
  {
  }

  lemma EmptyJoin()
    ensures Joined([]) == [] && Lines([]) == []
  {
  }

  /** build_head: the head's bytes, unless some field finds less room than it asks for. */
  method BuildHead(h: Head) returns (ok: bool, head: bytes)
    requires h.framing.Length? ==> h.framing.n <= SIZE_MAX
    ensures ok ==> head == HeadBytes(h) && 0 < |head| <= HEAD_CAP
    ensures !ok ==> |HeadBytes(h)| + 20 > HEAD_CAP
  {
    hide HeadBytes;
    var fields := Fields(h);
    head := [];
    for i := 0 to |fields|
      invariant |head| <= HEAD_CAP && Joined(fields) == head + Joined(fields[i..])
    {
      assert fields[i] in fields;
      assert fields[i..][1..] == fields[i + 1..];
      if HEAD_CAP - |head| < fields[i].need {
        return false, head;
      }
      head := head + fields[i].data;
    }
    HeadNotEmpty(h);
    return true, head;
  }

  lemma HeadNotEmpty(h: Head)
    ensures HeadBytes(h) != []
  {
  }
}
