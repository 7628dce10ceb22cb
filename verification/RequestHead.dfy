/**
 * How lib/http/engine.c decides what body a request has: the tokens of its transfer codings, the
 * agreement of its content lengths, and everything that refuses it.
 */
module RequestFraming {
  import opened Bytes
  import Chunked
  import ReplyHead
  import opened ReplyHeaders
  import Folding

  const COMMA: byte := 44
  const HOST: bytes := [104, 111, 115, 116]
  const EXPECT: bytes := [101, 120, 112, 101, 99, 116]
  const CONTINUE_100: bytes := [49, 48, 48, 45, 99, 111, 110, 116, 105, 110, 117, 101]
  const CLOSE_TOKEN: bytes := [99, 108, 111, 115, 101]
  const KEEP_TOKEN: bytes := [107, 101, 101, 112, 45, 97, 108, 105, 118, 101]
  const CHUNKED: bytes := [99, 104, 117, 110, 107, 101, 100]

  predicate Blank(c: byte) {
    c == 32 || c == 9
  }

  // The list syntax, section 5.6.1 of RFC 9110: elements between commas, blanks around them, empty ones ignored.

  function TrimStart(s: bytes): bytes {
    if s != [] && Blank(s[0]) then TrimStart(s[1..]) else s
  }

  function TrimEnd(s: bytes): bytes {
    if s != [] && Blank(s[|s| - 1]) then TrimEnd(s[..|s| - 1]) else s
  }

  function Trim(s: bytes): bytes {
    TrimEnd(TrimStart(s))
  }

  function Elements(pieces: seq<bytes>): seq<bytes> {
    if pieces == [] then []
    else (if Trim(pieces[0]) == [] then [] else [Trim(pieces[0])]) + Elements(pieces[1..])
  }

  function Tokens(v: bytes): seq<bytes> {
    Elements(Split(v, COMMA))
  }

  /** A blank or a comma in front of a list does not matter. */
  lemma TokensSkip(v: bytes)
    requires v != [] && (Blank(v[0]) || v[0] == COMMA)
    ensures Tokens(v) == Tokens(v[1..])
  {
    var rest := Split(v[1..], COMMA);
    if v[0] == COMMA {
      assert Split(v, COMMA)[1..] == rest;
      assert Trim([]) == [];
      assert [] + Elements(rest) == Elements(rest);
    } else {
      var p := [v[0]] + rest[0];
      assert Split(v, COMMA)[0] == p && Split(v, COMMA)[1..] == rest[1..];
      assert p[1..] == rest[0];
      assert TrimStart(p) == TrimStart(rest[0]);
    }
  }

  lemma {:induction false} TrimEndKeeps(s: bytes)
    requires s != [] && !Blank(s[0])
    ensures TrimEnd(s) != [] && TrimEnd(s)[0] == s[0]
  {
    if Blank(s[|s| - 1]) {
      TrimEndKeeps(s[..|s| - 1]);
    }
  }

  /** A list that starts with an element: that one, then the elements behind the comma. */
  lemma TokensFirst(p: bytes, v: bytes)
    requires p != [] && !Blank(p[0]) && (forall k :: 0 <= k < |p| ==> p[k] != COMMA) && (v == [] || v[0] == COMMA)
    ensures Tokens(p + v) == [TrimEnd(p)] + Tokens(v)
  {
    hide Split, Trim, TrimEnd, Elements, Blank;
    SplitPiece(p, v, COMMA);
    TrimEndKeeps(p);
    var pieces := Split(p + v, COMMA);
    assert pieces[0] == p;
    FirstElement(pieces, p);
    if v == [] {
      assert pieces[1..] == [];
      NoElements();
      NoTokens();
    } else {
      assert pieces[1..] == Split(v[1..], COMMA);
      TokensSkip(v);
    }
  }

  lemma NoElements()
    ensures Elements([]) == []
  {
  }

  lemma FirstElement(pieces: seq<bytes>, p: bytes)
    requires pieces != [] && pieces[0] == p && p != [] && !Blank(p[0]) && TrimEnd(p) != []
    ensures Elements(pieces) == [TrimEnd(p)] + Elements(pieces[1..])
  {
  }

  lemma NoTokens()
    ensures Tokens([]) == []
  {
    var pieces := Split([], COMMA);
    assert pieces[0] == [] && pieces[1..] == [];
    assert Trim(pieces[0]) == [];
    assert Elements(pieces) == [] + Elements(pieces[1..]);
    NoElements();
  }

  /** next_token: the next element from a position on, and the position behind it. */
  method NextToken(value: bytes, from: nat) returns (ok: bool, tok: bytes, at: nat)
    requires from <= |value|
    ensures from <= at <= |value|
    ensures !ok ==> Tokens(value[from..]) == []
    ensures ok ==> from < at && tok != [] && Tokens(value[from..]) == [tok] + Tokens(value[at..])
  {
    hide Tokens;
    at := from;
    while at < |value| && (Blank(value[at]) || value[at] == COMMA)
      invariant from <= at <= |value|
      invariant Tokens(value[from..]) == Tokens(value[at..])
    {
      TokensSkip(value[at..]);
      assert value[at..][1..] == value[at + 1..];
      at := at + 1;
    }
    if at >= |value| {
      NoTokens();
      return false, [], at;
    }
    var start := at;
    while at < |value| && value[at] != COMMA
      invariant start <= at <= |value|
      invariant forall k :: start <= k < at ==> value[k] != COMMA
    {
      at := at + 1;
    }
    var end := at;
    ghost var piece := value[start..at];
    while end > start && Blank(value[end - 1])
      invariant start <= end <= at
      invariant TrimEnd(piece) == TrimEnd(value[start..end])
    {
      assert value[start..end][..end - start - 1] == value[start..end - 1];
      end := end - 1;
    }
    tok := value[start..end];
    assert value[start..] == piece + value[at..];
    TokensFirst(piece, value[at..]);
    TrimEndKeeps(piece);
    return true, tok, at;
  }

  // What the header lines say.

  /** A header line; no name: the continuation of the line before it. */
  datatype Header = Header(name: Option<bytes>, value: bytes)

  predicate Named(h: Header, name: bytes) {
    h.name.Some? && Lower(h.name.value) == name
  }

  /** The values of every line of a name, in order. */
  function Values(hs: seq<Header>, name: bytes): seq<bytes> {
    if hs == [] then []
    else Values(hs[..|hs| - 1], name) + if Named(hs[|hs| - 1], name) then [hs[|hs| - 1].value] else []
  }

  /** The elements of all lines joined. */
  function Codings(values: seq<bytes>): seq<bytes> {
    if values == [] then [] else Codings(values[..|values| - 1]) + Tokens(values[|values| - 1])
  }

  predicate IsChunked(tok: bytes) {
    Lower(tok) == CHUNKED
  }

  predicate OneChunked(toks: seq<bytes>) {
    |toks| == 1 && IsChunked(toks[0])
  }

  /** Some line has the token, in any case. */
  predicate HasToken(values: seq<bytes>, tok: bytes) {
    exists i :: 0 <= i < |values| && Present(values[i], tok)
  }

  predicate Present(value: bytes, tok: bytes) {
    exists k :: 0 <= k < |Tokens(value)| && Lower(Tokens(value)[k]) == tok
  }

  /** token_present_ci. */
  method TokenPresent(value: bytes, tok: bytes) returns (yes: bool)
    ensures yes <==> Present(value, tok)
  {
    hide Tokens;
    assert value[0..] == value;
    ghost var seen: seq<bytes> := [];
    var ok, t, at := NextToken(value, 0);
    while ok
      invariant at <= |value|
      invariant if ok then Tokens(value) == seen + [t] + Tokens(value[at..]) else Tokens(value) == seen
      invariant forall k :: 0 <= k < |seen| ==> Lower(seen[k]) != tok
      decreases ok, |value| - at
    {
      if Lower(t) == tok {
        assert Tokens(value)[|seen|] == t;
        return true;
      }
      seen := seen + [t];
      ok, t, at := NextToken(value, at);
    }
    return false;
  }

  /** All the values are the same bytes. */
  predicate Agree(values: seq<bytes>) {
    forall i :: 0 <= i < |values| ==> values[i] == values[0]
  }

  /** Nothing in a line by itself refuses the request. */
  predicate LineFine(h: Header) {
    && h.name.Some?
    && (Named(h, EXPECT) ==> Lower(h.value) == CONTINUE_100)
    && (Named(h, TRANSFER_ENCODING) ==> Tokens(h.value) != [])
  }

  /** The client waits for a 100. */
  predicate Expects(hs: seq<Header>) {
    exists i :: 0 <= i < |hs| && Named(hs[i], EXPECT) && Lower(hs[i].value) == CONTINUE_100
  }

  predicate Fine(hs: seq<Header>) {
    (forall i :: 0 <= i < |hs| ==> LineFine(hs[i])) && Agree(Values(hs, CONTENT_LENGTH))
  }

  // pick_headers.

  class Picked {
    var contentLength: bytes
    var nContentLength: nat
    var nTransferEnc: nat
    var nHost: nat
    var teLastChunked: bool
    var teOther: bool
    var close: bool
    var keepAlive: bool
    var expectContinue: bool
    var refuse: int

    constructor ()
      ensures nContentLength == nTransferEnc == nHost == 0 && !teLastChunked && !teOther && refuse == 0
      ensures !close && !keepAlive && !expectContinue
    {
      contentLength, nContentLength, nTransferEnc, nHost := [], 0, 0, 0;
      teLastChunked, teOther, close, keepAlive, expectContinue, refuse := false, false, false, false, false, 0;
    }

    /** The fields are what the lines so far say. */
    ghost predicate Says(hs: seq<Header>)
      reads this
    {
      var te, cl := Values(hs, TRANSFER_ENCODING), Values(hs, CONTENT_LENGTH);
      && nTransferEnc == |te| && nContentLength == |cl| && nHost == |Values(hs, HOST)|
      && (cl != [] ==> contentLength == cl[|cl| - 1])
      && (refuse == 0 <==> Fine(hs)) && (refuse == 0 || refuse == 400 || refuse == 417)
      && (refuse == 0 ==>
        && (teOther <==> !(Codings(te) == [] || OneChunked(Codings(te))))
        && (!teOther ==> (teLastChunked <==> OneChunked(Codings(te)))))
      && (refuse == 0 ==> (te == [] <==> Codings(te) == []))
      && (close <==> HasToken(Values(hs, CONNECTION), CLOSE_TOKEN)) && (keepAlive <==> HasToken(Values(hs, CONNECTION), KEEP_TOKEN))
      && (expectContinue <==> Expects(hs))
    }

    /** pick_transfer_encoding. */
    method PickTransferEncoding(value: bytes)
      modifies this`nTransferEnc, this`teLastChunked, this`teOther, this`refuse
      ensures nTransferEnc == old(nTransferEnc) + 1
      ensures refuse == if Tokens(value) == [] then 400 else old(refuse)
      ensures var toks := Tokens(value);
        && (teOther <==> old(teOther || teLastChunked) || !(toks == [] || OneChunked(toks)))
        && (teLastChunked <==> toks != [] && IsChunked(toks[|toks| - 1]))
    {
      nTransferEnc := nTransferEnc + 1;
      if teLastChunked {
        teOther := true;
      }
      teLastChunked := false;
      var other := teOther;
      assert value[0..] == value;
      ghost var all := Tokens(value);
      ghost var seen: seq<bytes> := [];
      var ok, tok, at := NextToken(value, 0);
      var any := ok;
      while ok
        invariant at <= |value|
        invariant if ok then all == seen + [tok] + Tokens(value[at..]) else all == seen
        invariant nTransferEnc == old(nTransferEnc) + 1 && refuse == old(refuse)
        invariant any <==> all != []
        invariant ok ==> !teLastChunked && (teOther <==> other || seen != [])
        invariant !ok ==> (teLastChunked <==> all != [] && IsChunked(all[|all| - 1]))
        invariant !ok ==> (teOther <==> other || !(all == [] || OneChunked(all)))
        decreases ok, |value| - at
      {
        var more, next, beyond := NextToken(value, at);
        var last := !more;
        if last && Lower(tok) == CHUNKED {
          teLastChunked := true;
        } else {
          teOther := true;
        }
        seen := seen + [tok];
        ok, tok, at := more, next, beyond;
      }
      if !any {
        refuse := 400;
      }
    }

    /** One line: what its name, folded, makes of its value. */
    method PickLine(h: Header, ghost hs: seq<Header>)
      requires Says(hs)
      modifies this
      ensures Says(hs + [h])
    {
      hide Says, Lower, Folding.FoldName, CONTENT_LENGTH, TRANSFER_ENCODING, CONNECTION, HOST, EXPECT;
      if h.name.None? {
        Unnamed(h, hs);
        return;
      }
      FoundAnyway(h.name.value);
      var name := Folding.FoldName(h.name.value);
      if name == HOST {
        CountHost(h, hs);
      } else if name == EXPECT {
        Expectation(h, hs);
      } else if name == CONNECTION {
        Options(h, hs);
      } else if name == CONTENT_LENGTH {
        Length(h, hs);
      } else if name == TRANSFER_ENCODING {
        Encoding(h, hs);
      } else {
        OtherLine(h, hs);
      }
    }

    /** The names looked for are found however lower_inplace folds the others. */
    lemma FoundAnyway(name: bytes)
      ensures Folding.FoldName(name) == HOST <==> Lower(name) == HOST
      ensures Folding.FoldName(name) == EXPECT <==> Lower(name) == EXPECT
      ensures Folding.FoldName(name) == CONNECTION <==> Lower(name) == CONNECTION
      ensures Folding.FoldName(name) == CONTENT_LENGTH <==> Lower(name) == CONTENT_LENGTH
      ensures Folding.FoldName(name) == TRANSFER_ENCODING <==> Lower(name) == TRANSFER_ENCODING
    {
      hide Folding.FoldName, Lower;
      Folding.SameNames(name, HOST);
      Folding.SameNames(name, EXPECT);
      Folding.SameNames(name, CONNECTION);
      Folding.SameNames(name, CONTENT_LENGTH);
      Folding.SameNames(name, TRANSFER_ENCODING);
    }

    method Unnamed(h: Header, ghost hs: seq<Header>)
      requires Says(hs) && h.name.None?
      modifies this
      ensures Says(hs + [h])
    {
      hide Tokens, Lower, CONTENT_LENGTH, TRANSFER_ENCODING, CONNECTION, HOST, EXPECT, Values, Codings, Agree;
      LineAdds(hs, h);
      refuse := 400;
    }

    method CountHost(h: Header, ghost hs: seq<Header>)
      requires Says(hs) && Named(h, HOST)
      modifies this
      ensures Says(hs + [h])
    {
      hide Tokens, Lower, CONTENT_LENGTH, TRANSFER_ENCODING, CONNECTION, HOST, EXPECT, Values, Codings, Agree;
      NamesDiffer();
      LineAdds(hs, h);
      nHost := nHost + 1;
    }

    method Expectation(h: Header, ghost hs: seq<Header>)
      requires Says(hs) && Named(h, EXPECT)
      modifies this
      ensures Says(hs + [h])
    {
      hide Tokens, Lower, CONTENT_LENGTH, TRANSFER_ENCODING, CONNECTION, HOST, EXPECT, Values, Codings, Agree;
      NamesDiffer();
      LineAdds(hs, h);
      if Lower(h.value) == CONTINUE_100 {
        expectContinue := true;
      } else {
        refuse := 417;
      }
    }

    method Options(h: Header, ghost hs: seq<Header>)
      requires Says(hs) && Named(h, CONNECTION)
      modifies this
      ensures Says(hs + [h])
    {
      hide Tokens, Lower, CONTENT_LENGTH, TRANSFER_ENCODING, CONNECTION, HOST, EXPECT, Values, Codings, Agree, HasToken;
      NamesDiffer();
      LineAdds(hs, h);
      ghost var co := Values(hs, CONNECTION);
      HasTokenSnoc(co, h.value, CLOSE_TOKEN);
      HasTokenSnoc(co, h.value, KEEP_TOKEN);
      var c := TokenPresent(h.value, CLOSE_TOKEN);
      if c {
        close := true;
      }
      var k := TokenPresent(h.value, KEEP_TOKEN);
      if k {
        keepAlive := true;
      }
    }

    method Length(h: Header, ghost hs: seq<Header>)
      requires Says(hs) && Named(h, CONTENT_LENGTH)
      modifies this
      ensures Says(hs + [h])
    {
      hide Tokens, Lower, CONTENT_LENGTH, TRANSFER_ENCODING, CONNECTION, HOST, EXPECT, Values, Codings, Agree;
      NamesDiffer();
      LineAdds(hs, h);
      ghost var cl := Values(hs, CONTENT_LENGTH);
      AgreeSnoc(cl, h.value);
      FineAgrees(hs);
      nContentLength := nContentLength + 1;
      if nContentLength > 1 && h.value != contentLength {
        refuse := 400;
      }
      contentLength := h.value;
    }

    method Encoding(h: Header, ghost hs: seq<Header>)
      requires Says(hs) && Named(h, TRANSFER_ENCODING)
      modifies this
      ensures Says(hs + [h])
    {
      hide Tokens, Lower, CONTENT_LENGTH, TRANSFER_ENCODING, CONNECTION, HOST, EXPECT, Values, Codings, Agree;
      NamesDiffer();
      LineAdds(hs, h);
      ghost var te := Values(hs, TRANSFER_ENCODING);
      CodingsSnoc(te, h.value);
      FineAgrees(hs);
      ghost var other, last := teOther, teLastChunked;
      PickTransferEncoding(h.value);
      if refuse == 0 {
        TeStep(Codings(te), Tokens(h.value), other, last);
      }
    }

    method OtherLine(h: Header, ghost hs: seq<Header>)
      requires Says(hs) && h.name.Some? && !Named(h, HOST) && !Named(h, EXPECT) && !Named(h, CONNECTION) && !Named(h, CONTENT_LENGTH)
      requires !Named(h, TRANSFER_ENCODING)
      ensures Says(hs + [h])
    {
      hide Tokens, Lower, CONTENT_LENGTH, TRANSFER_ENCODING, CONNECTION, HOST, EXPECT, Values, Codings, Agree;
      LineAdds(hs, h);
      FineAgrees(hs);
    }
  }

  lemma FineAgrees(hs: seq<Header>)
    ensures Fine(hs) ==> Agree(Values(hs, CONTENT_LENGTH))
  {
  }

  lemma NamesDiffer()
    ensures |HOST| == 4 && |EXPECT| == 6 && |CONNECTION| == 10 && |CONTENT_LENGTH| == 14 && |TRANSFER_ENCODING| == 17
  {
  }

  /** A line more adds to the values of its own name. */
  lemma LineAdds(hs: seq<Header>, h: Header)
    ensures forall name :: Values(hs + [h], name) == if Named(h, name) then Values(hs, name) + [h.value] else Values(hs, name)
    ensures Fine(hs + [h]) <==> Fine(hs) && LineFine(h) && Agree(Values(hs + [h], CONTENT_LENGTH))
    ensures Expects(hs + [h]) <==> Expects(hs) || (Named(h, EXPECT) && Lower(h.value) == CONTINUE_100)
  {
    hide Named, LineFine, Lower, Values, Agree, Expects;
    ValuesAdd(hs, h);
    FineAdds(hs, h);
    ExpectsAdds(hs, h);
  }

  lemma ValuesAdd(hs: seq<Header>, h: Header)
    ensures forall name :: Values(hs + [h], name) == if Named(h, name) then Values(hs, name) + [h.value] else Values(hs, name)
  {
    hide Named;
    assert (hs + [h])[..|hs|] == hs;
    forall name
      ensures Values(hs + [h], name) == if Named(h, name) then Values(hs, name) + [h.value] else Values(hs, name)
    {
      assert Values(hs, name) + [] == Values(hs, name);
    }
  }

  lemma ExpectsAdds(hs: seq<Header>, h: Header)
    ensures Expects(hs + [h]) <==> Expects(hs) || (Named(h, EXPECT) && Lower(h.value) == CONTINUE_100)
  {
    hide Named, Lower;
    var all := hs + [h];
    assert all[|hs|] == h && forall i :: 0 <= i < |hs| ==> all[i] == hs[i];
  }

  lemma FineAdds(hs: seq<Header>, h: Header)
    ensures Fine(hs + [h]) <==> Fine(hs) && LineFine(h) && Agree(Values(hs + [h], CONTENT_LENGTH))
  {
    hide Named, LineFine, Lower, Values, Agree;
    var all := hs + [h];
    assert all[|hs|] == h && forall i :: 0 <= i < |hs| ==> all[i] == hs[i];
    ValuesAdd(hs, h);
    AgreePrefix(Values(hs, CONTENT_LENGTH), [h.value]);
    if Fine(all) {
      assert LineFine(all[|hs|]);
      forall i | 0 <= i < |hs|
        ensures LineFine(hs[i])
      {
        assert LineFine(all[i]);
      }
    }
  }

  lemma AgreePrefix(a: seq<bytes>, b: seq<bytes>)
    ensures Agree(a + b) ==> Agree(a)
  {
    assert forall i :: 0 <= i < |a| ==> (a + b)[i] == a[i];
  }

  lemma AgreeSnoc(values: seq<bytes>, v: bytes)
    ensures Agree(values + [v]) <==> values == [] || (Agree(values) && v == values[|values| - 1])
  {
    var all := values + [v];
    assert forall i :: 0 <= i < |values| ==> all[i] == values[i];
    assert all[|values|] == v;
  }

  lemma HasTokenSnoc(values: seq<bytes>, v: bytes, tok: bytes)
    ensures HasToken(values + [v], tok) <==> HasToken(values, tok) || Present(v, tok)
  {
    hide Present;
    var all := values + [v];
    assert forall i :: 0 <= i < |values| ==> all[i] == values[i];
    assert all[|values|] == v;
  }

  lemma CodingsSnoc(values: seq<bytes>, v: bytes)
    ensures Codings(values + [v]) == Codings(values) + Tokens(v)
  {
    assert (values + [v])[..|values|] == values;
  }

  /** One transfer-encoding line more: the flags say whether all the codings are one "chunked". */
  lemma TeStep(joined: seq<bytes>, toks: seq<bytes>, other: bool, last: bool)
    requires toks != []
    requires other <==> !(joined == [] || OneChunked(joined))
    requires !other ==> (last <==> OneChunked(joined))
    ensures var other' := other || last || !(toks == [] || OneChunked(toks)); var last' := toks != [] && IsChunked(toks[|toks| - 1]);
      && (other' <==> !(joined + toks == [] || OneChunked(joined + toks)))
      && (!other' ==> (last' <==> OneChunked(joined + toks)))
  {
    if joined == [] {
      assert joined + toks == toks;
    }
  }

  /** pick_headers. */
  method PickHeaders(hs: seq<Header>) returns (picked: Picked)
    ensures fresh(picked) && picked.Says(hs)
  {
    picked := new Picked();
    NoLines(picked);
    assert hs[..0] == [];
    for i := 0 to |hs|
      invariant fresh(picked) && picked.Says(hs[..i])
    {
      hide Picked.Says;
      picked.PickLine(hs[i], hs[..i]);
      assert hs[..i + 1] == hs[..i] + [hs[i]];
    }
    assert hs[..|hs|] == hs;
  }

  lemma NoLines(p: Picked)
    requires p.nContentLength == p.nTransferEnc == p.nHost == 0 && !p.teLastChunked && !p.teOther && p.refuse == 0
    requires !p.close && !p.keepAlive && !p.expectContinue
    ensures p.Says([])
  {
  }

  /** parse_length: all digits, and a value that size_t holds. */
  method ParseLength(s: bytes) returns (ok: bool, n: nat)
    ensures ok <==> LengthValue(s).Some?
    ensures ok ==> LengthValue(s) == Some(n)
  {
    n := 0;
    if s == [] {
      return false, 0;
    }
    for i := 0 to |s|
      invariant i == 0 ==> n == 0
      invariant i > 0 ==> ReplyHead.DecimalValue(s[..i]) == Some(n)
      invariant n <= Chunked.SIZE_MAX
    {
      assert s[..i + 1][..i] == s[..i];
      if s[i] < 48 || s[i] > 57 {
        NotDecimal(s, i);
        return false, n;
      }
      var d := s[i] - 48;
      if n > (Chunked.SIZE_MAX - d) / 10 {
        DecimalGrows(s, i + 1, |s|);
        assert s[..|s|] == s;
        return false, n;
      }
      n := n * 10 + d;
    }
    assert s[..|s|] == s;
    return true, n;
  }

  /** A content length's value: decimal, and within size_t. */
  function LengthValue(s: bytes): (v: Option<nat>) {
    match ReplyHead.DecimalValue(s)
    case Some(n) => if n <= Chunked.SIZE_MAX then Some(n) else None
    case None => None
  }

  lemma {:induction false} NotDecimal(s: bytes, i: nat)
    requires i < |s| && !(48 <= s[i] <= 57)
    ensures ReplyHead.DecimalValue(s).None?
  {
    if i < |s| - 1 {
      NotDecimal(s[..|s| - 1], i);
    }
  }

  /** More digits never make a smaller number. */
  lemma {:induction false} DecimalGrows(s: bytes, i: nat, j: nat)
    requires 0 < i <= j <= |s| && ReplyHead.DecimalValue(s[..i]).Some?
    ensures var v := ReplyHead.DecimalValue(s[..j]); v.Some? ==> v.value >= ReplyHead.DecimalValue(s[..i]).value
  {
    if i < j {
      DecimalGrows(s, i, j - 1);
      assert s[..j][..j - 1] == s[..j - 1];
    }
  }

  /** What fill_request settles: a refusal, or how the body is framed and whether the connection may be kept. */
  datatype Verdict = Refused(status: int) | Accepted(chunked: bool, contentLength: nat, keepAlive: bool, expectContinue: bool)

  /** Nothing outside the framing refuses the request: its lines, its parameters, its Host. */
  predicate Welcome(hs: seq<Header>, minor: nat, truncated: bool) {
    Fine(hs) && !truncated && (if minor >= 1 then |Values(hs, HOST)| == 1 else |Values(hs, HOST)| <= 1)
  }

  /**
   * The framing part of fill_request, sections 6.1 to 6.3 of RFC 9112. Chunked exactly when the codings
   * of all lines joined are one "chunked", and no length is given; a length exactly when all the ones
   * given agree on a number that fits and no coding is; nothing when neither is given.
   */
  method FillFraming(hs: seq<Header>, minor: nat, truncated: bool, tooMany: bool) returns (v: Verdict)
    ensures v.Accepted? && v.chunked <==>
      Welcome(hs, minor, truncated) && OneChunked(Codings(Values(hs, TRANSFER_ENCODING))) && Values(hs, CONTENT_LENGTH) == []
    ensures v.Accepted? && !v.chunked <==>
      && Welcome(hs, minor, truncated) && Values(hs, TRANSFER_ENCODING) == []
      && (Values(hs, CONTENT_LENGTH) == [] || LengthValue(Values(hs, CONTENT_LENGTH)[0]).Some?)
    ensures v.Accepted? && !v.chunked ==>
      v.contentLength == if Values(hs, CONTENT_LENGTH) == [] then 0 else LengthValue(Values(hs, CONTENT_LENGTH)[0]).value
    ensures v.Accepted? ==>
      && (v.keepAlive <==> !HasToken(Values(hs, CONNECTION), CLOSE_TOKEN) && (minor >= 1 || HasToken(Values(hs, CONNECTION), KEEP_TOKEN)))
      && (v.expectContinue <==> Expects(hs))
    ensures v.Refused? ==> v.status in {400, 414, 417, 501}
    ensures v.Refused? && v.status == 501 ==> Welcome(hs, minor, truncated) && Codings(Values(hs, TRANSFER_ENCODING)) != []
  {
    hide Fine, Codings, Values, OneChunked, HasToken, Expects, LengthValue, CONTENT_LENGTH, TRANSFER_ENCODING, CONNECTION, HOST;
    ghost var te, cl := Values(hs, TRANSFER_ENCODING), Values(hs, CONTENT_LENGTH);
    OneIsSome(Codings(te));
    FineLength(hs);
    var picked := PickHeaders(hs);
    if picked.refuse != 0 {
      return Refused(picked.refuse);
    }
    if truncated {
      return Refused(if tooMany then 400 else 414);
    }
    if (if minor >= 1 then picked.nHost != 1 else picked.nHost > 1) {
      return Refused(400);
    }
    var keep := !picked.close && (minor >= 1 || picked.keepAlive);
    if picked.nTransferEnc > 0 {
      if picked.nContentLength > 0 {
        return Refused(400);
      }
      if picked.teOther {
        return Refused(501);
      }
      if !picked.teLastChunked {
        return Refused(400);
      }
      return Accepted(true, 0, keep, picked.expectContinue);
    }
    var length := 0;
    if picked.nContentLength > 0 {
      var ok, n := ParseLength(picked.contentLength);
      if !ok {
        return Refused(400);
      }
      length := n;
    }
    return Accepted(false, length, keep, picked.expectContinue);
  }

  lemma OneIsSome(toks: seq<bytes>)
    ensures OneChunked(toks) ==> toks != []
  {
  }

  lemma FineLength(hs: seq<Header>)
    ensures Fine(hs) && Values(hs, CONTENT_LENGTH) != [] ==>
      Values(hs, CONTENT_LENGTH)[|Values(hs, CONTENT_LENGTH)| - 1] == Values(hs, CONTENT_LENGTH)[0]
  {
  }
}
