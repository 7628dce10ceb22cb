/**
 * The lines a handler may add to a reply (lib/http/api.c): a field name and a value are checked
 * before they reach the head, so no handler can end the head early or name another framing.
 */
module ReplyHeaders {
  import opened Bytes
  import opened Chunked
  import opened ReplyHead
  import opened ResponseState

  const MAX_HEADERS: nat := 16
  /** Room for the lines and for a content type of the handler's. */
  const ARENA: nat := 3072

  const CONTENT_TYPE: bytes := [99, 111, 110, 116, 101, 110, 116, 45, 116, 121, 112, 101]
  const CONTENT_LENGTH: bytes := [99, 111, 110, 116, 101, 110, 116, 45, 108, 101, 110, 103, 116, 104]
  const TRANSFER_ENCODING: bytes := [116, 114, 97, 110, 115, 102, 101, 114, 45, 101, 110, 99, 111, 100, 105, 110, 103]
  const CONNECTION: bytes := [99, 111, 110, 110, 101, 99, 116, 105, 111, 110]

  /** A token character, section 5.6.2 of RFC 9110. */
  predicate TokenChar(c: byte) {
    48 <= c <= 57 || 97 <= c <= 122 || 65 <= c <= 90
    || c in [33, 35, 36, 37, 38, 39, 42, 43, 45, 46, 94, 95, 96, 124, 126]
  }

  predicate ValueChar(c: byte) {
    (0x20 <= c || c == 9) && c != 0x7f
  }

  function LowerByte(c: byte): (l: byte)
    ensures TokenChar(c) ==> l != 58 && l != 13
  {
    if 65 <= c <= 90 then c + 32 else c
  }

  function Lower(s: bytes): (l: bytes)
    ensures |l| == |s|
  {
    seq(|s|, i requires 0 <= i < |s| => LowerByte(s[i]))
  }

  function Line(name: bytes, value: bytes): bytes {
    Lower(name) + [58, 32] + value
  }

  /** The first colon of a line ends its name. */
  lemma ColonEndsName(name: bytes, value: bytes, own: bytes)
    requires forall k :: 0 <= k < |name| ==> TokenChar(name[k])
    requires forall k :: 0 <= k < |own| ==> own[k] != 58
    requires own + [58, 32] <= Line(name, value)
    ensures Lower(name) == own
  {
    var l := Line(name, value);
    var prefix := own + [58, 32];
    forall k | 0 <= k < |name|
      ensures l[k] == Lower(name)[k] && l[k] != 58
    {
      assert TokenChar(name[k]);
    }
    assert l[|name|] == 58;
    assert l[|own|] == prefix[|own|] == 58;
    forall k | 0 <= k < |own|
      ensures l[k] == own[k]
    {
      assert prefix[k] == own[k];
    }
  }

  /** A checked field that is none of the engine's own does not touch the framing, and is one line. */
  lemma LineIsQuiet(name: bytes, value: bytes)
    requires forall k :: 0 <= k < |name| ==> TokenChar(name[k])
    requires forall k :: 0 <= k < |value| ==> ValueChar(value[k])
    requires Lower(name) != CONTENT_LENGTH && Lower(name) != TRANSFER_ENCODING
    ensures QuietLine(Line(name, value))
  {
    var l := Line(name, value);
    forall k | 0 <= k < |l|
      ensures l[k] != CR
    {
      if k < |name| {
        assert TokenChar(name[k]);
      } else if k >= |name| + 2 {
        assert ValueChar(value[k - |name| - 2]);
      }
    }
    NoCrIsLine(l);
    if CONTENT_LENGTH + [58, 32] <= l {
      ColonEndsName(name, value, CONTENT_LENGTH);
      assert false;
    }
    if TRANSFER_ENCODING + [58, 32] <= l {
      ColonEndsName(name, value, TRANSFER_ENCODING);
      assert false;
    }
    assert LENGTH == CONTENT_LENGTH + [58, 32];
    assert TRANSFER_ENCODING + [58, 32] <= ENCODING;
  }

  function Total(lines: seq<bytes>): nat {
    if lines == [] then 0 else Total(lines[..|lines| - 1]) + |lines[|lines| - 1]| + 2
  }

  ghost predicate LinesQuiet(res: Response)
    reads res
  {
    (forall i :: 0 <= i < |res.lines| ==> QuietLine(res.lines[i])) && IsLine(TYPE + res.contentType)
  }

  method AllToken(name: bytes) returns (ok: bool)
    ensures ok <==> forall k :: 0 <= k < |name| ==> TokenChar(name[k])
  {
    for i := 0 to |name|
      invariant forall k :: 0 <= k < i ==> TokenChar(name[k])
    {
      if !TokenChar(name[i]) {
        return false;
      }
    }
    return true;
  }

  method AllValue(value: bytes) returns (ok: bool)
    ensures ok <==> forall k :: 0 <= k < |value| ==> ValueChar(value[k])
  {
    for i := 0 to |value|
      invariant forall k :: 0 <= k < i ==> ValueChar(value[k])
    {
      if !ValueChar(value[i]) {
        return false;
      }
    }
    return true;
  }

  /** ioxd_content_type; the arena holds it together with the lines. */
  method SetContentType(res: Response, value: bytes) returns (ok: bool)
    requires LinesQuiet(res)
    modifies res`contentType, res`ownType
    ensures LinesQuiet(res)
    ensures ok <==> !res.headSent && (forall k :: 0 <= k < |value| ==> ValueChar(value[k])) && |value| + Total(res.lines) <= ARENA
    ensures res.contentType == if ok then value else old(res.contentType)
  {
    hide IsLine;
    if res.headSent {
      return false;
    }
    ok := AllValue(value);
    if !ok || |value| + Total(res.lines) > ARENA {
      return false;
    }
    assert forall k :: 0 <= k < |TYPE| ==> TYPE[k] != CR;
    NoCrIsLine(TYPE + value);
    res.contentType, res.ownType := value, true;
  }

  /** The room a content type of the handler's takes. */
  function Reserved(res: Response): nat
    reads res`ownType, res`contentType
  {
    if res.ownType then |res.contentType| else 0
  }

  /** ioxd_header. */
  method AddHeader(res: Response, name: bytes, value: bytes) returns (ok: bool)
    requires LinesQuiet(res)
    modifies res`lines, res`contentType, res`ownType
    ensures LinesQuiet(res)
    ensures !ok ==> res.lines == old(res.lines) && res.contentType == old(res.contentType)
    ensures ok && Lower(name) == CONTENT_TYPE ==> res.contentType == value && res.lines == old(res.lines)
    ensures ok && Lower(name) != CONTENT_TYPE ==> res.lines == old(res.lines) + [Line(name, value)] && res.contentType == old(res.contentType)
    ensures ok ==> !res.headSent && Lower(name) !in {CONTENT_LENGTH, TRANSFER_ENCODING, CONNECTION}
  {
    hide IsLine, QuietLine;
    if res.headSent || |res.lines| == MAX_HEADERS || name == [] {
      return false;
    }
    ok := AllToken(name);
    if !ok {
      return;
    }
    ok := AllValue(value);
    if !ok {
      return;
    }
    if Lower(name) == CONTENT_TYPE {
      ok := SetContentType(res, value);
      return;
    }
    if Lower(name) == CONTENT_LENGTH || Lower(name) == TRANSFER_ENCODING || Lower(name) == CONNECTION {
      return false;
    }
    var line := Line(name, value);
    if |line| + 2 + Reserved(res) + Total(res.lines) > ARENA {
      return false;
    }
    LineIsQuiet(name, value);
    res.lines := res.lines + [line];
  }
}
