/**
 * The JSON writer of lib/json/json.c: calls that append to a sink, and two masks, a bit per level,
 * that know where commas and which brackets are due.
 */
module JsonWriting {
  import opened Bytes
  import opened Bits
  import opened JsonText
  import opened ReplyHead

  const MAX_DEPTH: nat := 63
  const RUN_MAX: nat := 1024

  // The document so far: the levels open, outermost first, and what each has.

  datatype Frame = InArr(items: Items) | InObj(members: Members, key: Option<bytes>)

  function Append(items: Items, v: Json): (r: Items)
    ensures r.Item?
  {
    match items
    case NoItems => Item(v, NoItems)
    case Item(w, more) => Item(w, Append(more, v))
  }

  function AppendMember(members: Members, key: bytes, v: Json): (r: Members)
    ensures r.Member?
  {
    match members
    case NoMembers => Member(key, v, NoMembers)
    case Member(k, w, more) => Member(k, w, AppendMember(more, key, v))
  }

  /** Whether anything stands in a level, so that what comes next follows a comma. */
  predicate Has(f: Frame) {
    match f
    case InArr(items) => items.Item?
    case InObj(members, key) => members.Member? || key.Some?
  }

  /** A value may come next. */
  predicate TakesValue(f: Frame) {
    f.InArr? || f.key.Some?
  }

  predicate KeyPending(f: Frame) {
    f.InObj? && f.key.Some?
  }

  /** The comma before the next value of a level. */
  function Lead(f: Frame): bytes {
    if f.InArr? && f.items.Item? then [COMMA] else []
  }

  function KeyText(members: Members, key: bytes): bytes {
    (if members.Member? then [COMMA] else []) + Quoted(key) + [COLON]
  }

  function Body(f: Frame): bytes {
    match f
    case InArr(items) => Join(items)
    case InObj(members, key) => JoinMembers(members) + if key.Some? then KeyText(members, key.value) else []
  }

  function Opening(f: Frame): bytes {
    if f.InArr? then [91] else [123]
  }

  function Closing(f: Frame): bytes {
    if f.InArr? then [93] else [125]
  }

  /** The text of the open levels; the outermost one is a list without brackets. */
  function Text(frames: seq<Frame>): bytes
    requires frames != []
  {
    var n := |frames| - 1;
    if n == 0 then Body(frames[0])
    else Text(frames[..n]) + Lead(frames[n - 1]) + Opening(frames[n]) + Body(frames[n])
  }

  function AddTo(f: Frame, v: Json): Frame {
    match f
    case InArr(items) => InArr(Append(items, v))
    case InObj(members, key) => InObj(AppendMember(members, if key.Some? then key.value else [], v), None)
  }

  /** What a level is when it closes. */
  function Closed(f: Frame): Json {
    match f
    case InArr(items) => Arr(items)
    case InObj(members, _) => Obj(members)
  }

  function Top(frames: seq<Frame>, f: Frame): seq<Frame>
    requires frames != []
  {
    frames[..|frames| - 1] + [f]
  }

  lemma {:induction false} JoinAppend(items: Items, v: Json)
    ensures Join(Append(items, v)) == Join(items) + (if items.Item? then [COMMA] else []) + Render(v)
  {
    hide Render;
    if items.Item? {
      JoinAppend(items.more, v);
      JoinCons(items.v, items.more);
      JoinCons(items.v, Append(items.more, v));
      var comma := if items.more.Item? then [COMMA] else [];
      assert Render(items.v) + [COMMA] + (Join(items.more) + comma + Render(v)) == Render(items.v) + [COMMA] + Join(items.more) + comma + Render(v);
    }
  }

  lemma JoinCons(v: Json, more: Items)
    ensures Join(Item(v, more)) == if more.NoItems? then Render(v) else Render(v) + [COMMA] + Join(more)
    ensures Join(NoItems) == []
  {
    hide Render;
  }

  lemma {:induction false} MembersAppend(members: Members, key: bytes, v: Json)
    ensures JoinMembers(AppendMember(members, key, v)) == JoinMembers(members) + KeyText(members, key) + Render(v)
  {
    hide Render, Quoted;
    if members.NoMembers? {
      assert JoinMembers(members) == [];
      MembersCons(key, v, NoMembers);
    } else {
      MembersAppend(members.more, key, v);
      MembersCons(members.key, members.v, members.more);
      MembersCons(members.key, members.v, AppendMember(members.more, key, v));
      NoneJoined();
      Around(MemberText(members.key, members.v), JoinMembers(members.more), KeyText(members.more, key), Render(v), members.more.Member?, key);
    }
  }

  lemma Around(first: bytes, others: bytes, keyText: bytes, value: bytes, some: bool, key: bytes)
    ensures first + [COMMA] + (others + keyText + value) == first + [COMMA] + others + keyText + value
    ensures others == [] ==> first + [COMMA] + (others + keyText + value) == first + ([COMMA] + keyText) + value
  {
  }

  lemma MembersCons(key: bytes, v: Json, more: Members)
    ensures JoinMembers(Member(key, v, more)) == if more.NoMembers? then MemberText(key, v) else MemberText(key, v) + [COMMA] + JoinMembers(more)
  {
    hide Render, Quoted;
  }

  /** A value more: its comma and its text. */
  lemma BodyAdds(f: Frame, v: Json)
    requires TakesValue(f)
    ensures Body(AddTo(f, v)) == Body(f) + Lead(f) + Render(v)
  {
    hide Render, KeyText, Join, JoinMembers;
    match f {
      case InArr(items) =>
        JoinAppend(items, v);
        NoneJoined();
      case InObj(members, key) =>
        MembersAppend(members, key.value, v);
        assert Body(f) + [] == Body(f);
        assert Body(AddTo(f, v)) + [] == Body(AddTo(f, v));
    }
  }

  lemma NoneJoined()
    ensures Join(NoItems) == [] && JoinMembers(NoMembers) == []
  {
  }

  /** Only the innermost level's text grows. */
  lemma TextGrows(frames: seq<Frame>, f: Frame, more: bytes)
    requires frames != [] && Body(f) == Body(frames[|frames| - 1]) + more
    requires |frames| > 1 ==> f.InArr? == frames[|frames| - 1].InArr?
    ensures Text(Top(frames, f)) == Text(frames) + more
  {
    hide Body;
    var n := |frames| - 1;
    var top := Top(frames, f);
    assert top[..n] == frames[..n] && top[n] == f;
    if n > 0 {
      assert top[n - 1] == frames[n - 1];
      var front := Text(frames[..n]) + Lead(frames[n - 1]) + Opening(f);
      assert front + (Body(frames[n]) + more) == front + Body(frames[n]) + more;
    }
  }

  lemma TextOpens(frames: seq<Frame>, f: Frame)
    requires frames != [] && Body(f) == []
    ensures Text(frames + [f]) == Text(frames) + Lead(frames[|frames| - 1]) + Opening(f)
  {
    assert (frames + [f])[..|frames|] == frames;
  }

  /** A level that closes becomes a value of the one around it. */
  lemma TextCloses(frames: seq<Frame>)
    requires |frames| > 1 && !KeyPending(frames[|frames| - 1]) && TakesValue(frames[|frames| - 2])
    ensures var n := |frames| - 1; Text(Top(frames[..n], AddTo(frames[n - 1], Closed(frames[n])))) == Text(frames) + Closing(frames[n])
  {
    hide Body, Text, Render, Lead, Opening, Closing, Closed, AddTo, TakesValue, KeyPending;
    var n := |frames| - 1;
    var outer, f := frames[n - 1], frames[n];
    var v := Closed(f);
    BodyAdds(outer, v);
    ClosedRenders(f);
    TextOfTop(frames);
    assert frames[..n][n - 1] == outer;
    SixParts(Text(frames[..n]), Body(outer), Lead(outer), Opening(f), Body(f), Closing(f));
    SameKind(outer, v);
    TextGrows(frames[..n], AddTo(outer, v), Lead(outer) + Render(v));
  }

  lemma TextOfTop(frames: seq<Frame>)
    requires |frames| > 1
    ensures var n := |frames| - 1; Text(frames) == Text(frames[..n]) + Lead(frames[n - 1]) + Opening(frames[n]) + Body(frames[n])
  {
  }

  lemma SameKind(f: Frame, v: Json)
    ensures AddTo(f, v).InArr? == f.InArr?
  {
  }

  lemma SixParts(text: bytes, outer: bytes, lead: bytes, open: bytes, body: bytes, close: bytes)
    ensures outer + lead + (open + body + close) == outer + (lead + (open + body + close))
    ensures text + (lead + (open + body + close)) == text + lead + open + body + close
  {
  }

  lemma ClosedRenders(f: Frame)
    requires !KeyPending(f)
    ensures Render(Closed(f)) == Opening(f) + Body(f) + Closing(f)
  {
    if f.InObj? {
      assert JoinMembers(f.members) + [] == JoinMembers(f.members);
    }
  }

  /** Every level open around another one has its key, if it is an object. */
  ghost predicate FramesOk(frames: seq<Frame>) {
    && frames != [] && frames[0].InArr?
    && forall k :: 0 <= k < |frames| - 1 ==> TakesValue(frames[k])
  }

  /**
   * Whatever was called, as long as nothing failed: what is written is the start of a list of JSON
   * values between commas.
   */
  lemma {:induction false} StartsAList(frames: seq<Frame>) returns (items: Items, end: bytes)
    requires FramesOk(frames)
    ensures Text(frames) + end == Join(items) && (|frames| == 1 ==> end == [])
    decreases |frames|, if KeyPending(frames[|frames| - 1]) then 1 else 0
  {
    hide Body, Text, Render, Lead, Opening, Closing, Closed, AddTo, TakesValue, KeyPending;
    var n := |frames| - 1;
    var f := frames[n];
    if n == 0 {
      items := TopList(f, frames);
      end := [];
    } else if KeyPending(f) {
      NullFor(frames);
      var rest;
      items, rest := StartsAList(Top(frames, AddTo(f, Null)));
      end := Render(Null) + rest;
      assert Text(frames) + (Render(Null) + rest) == Text(frames) + Render(Null) + rest;
    } else {
      CloseOk(frames);
      TextCloses(frames);
      var rest;
      items, rest := StartsAList(Top(frames[..n], AddTo(frames[n - 1], Closed(f))));
      end := Closing(f) + rest;
      assert Text(frames) + (Closing(f) + rest) == Text(frames) + Closing(f) + rest;
    }
  }

  lemma TopList(f: Frame, frames: seq<Frame>) returns (items: Items)
    requires frames == [f] && f.InArr?
    ensures Text(frames) + [] == Join(items)
  {
    items := f.items;
    assert Text(frames) + [] == Text(frames);
  }

  /** A key that waits gets a null. */
  lemma NullFor(frames: seq<Frame>)
    requires FramesOk(frames) && |frames| > 1 && KeyPending(frames[|frames| - 1])
    ensures var top := Top(frames, AddTo(frames[|frames| - 1], Null));
      FramesOk(top) && |top| == |frames| && !KeyPending(top[|top| - 1]) && Text(top) == Text(frames) + Render(Null)
  {
    hide Body, Text, Render;
    var f := frames[|frames| - 1];
    BodyAdds(f, Null);
    assert Body(f) + [] + Render(Null) == Body(f) + Render(Null);
    TextGrows(frames, AddTo(f, Null), Render(Null));
  }

  lemma CloseOk(frames: seq<Frame>)
    requires FramesOk(frames) && |frames| > 1
    ensures var n := |frames| - 1;
      TakesValue(frames[n - 1]) && FramesOk(Top(frames[..n], AddTo(frames[n - 1], Closed(frames[n]))))
  {
    var n := |frames| - 1;
    var top := Top(frames[..n], AddTo(frames[n - 1], Closed(frames[n])));
    assert forall k :: 0 <= k < n - 1 ==> top[k] == frames[k];
  }

  // The sink.

  /**
   * Where the bytes land: memory, which fills, or a slab, which is sent when it is full. What each
   * sending comes to is a script fixed in advance.
   */
  class Sink {
    const toMem: bool
    const buf: array<byte>
    var len: nat
    var flushes: seq<bool>
    /** The sink is gone: the peer left, or the memory is full. */
    var gone: bool
    ghost var sent: bytes

    ghost predicate Valid()
      reads this`len, this`sent
    {
      len <= buf.Length && (!toMem ==> RUN_MAX <= buf.Length) && (toMem ==> sent == [])
    }

    /** Everything written. */
    ghost function Out(): bytes
      requires Valid()
      reads this`len, this`sent, buf
    {
      sent + buf[..len]
    }

    constructor (toMem: bool, buf: array<byte>, flushes: seq<bool>)
      requires !toMem ==> RUN_MAX <= buf.Length
      ensures Valid() && Out() == [] && !gone && this.buf == buf && this.toMem == toMem
    {
      this.toMem, this.buf, this.flushes := toMem, buf, flushes;
      len, gone, sent := 0, false, [];
    }

    /**
     * How many bytes in all the sink takes from its beginning before it must be gone: the memory's
     * size, or what the slab holds and a byte for each sending that still succeeds.
     */
    ghost function Left(): nat
      reads this`len, this`flushes, this`sent
    {
      |sent| + if toMem then buf.Length else len + Trues(flushes)
    }

    lemma OutLength()
      requires Valid()
      ensures |Out()| == |sent| + len
    {
    }

    /** make_room: memory has none; a slab is sent if it must be. */
    method MakeRoom(n: nat) returns (ok: bool)
      requires Valid()
      modifies this`len, this`flushes, this`gone, this`sent
      ensures Valid() && Out() == old(Out())
      ensures ok ==> !gone && !toMem && len + n <= buf.Length && Left() + 1 >= old(Left())
      ensures !ok ==> gone || (!toMem && n > buf.Length)
      ensures !ok ==> old(gone) || toMem || n > buf.Length || (Trues(old(flushes)) == 0 && len + n > buf.Length)
      ensures old(gone) ==> !ok && gone
    {
      if toMem {
        gone := true;
        return false;
      }
      if gone || n > buf.Length {
        return false;
      }
      if n > buf.Length - len {
        ghost var was := Out();
        var sentAll := flushes != [] && flushes[0];
        flushes := if flushes == [] then [] else flushes[1..];
        if !sentAll {
          gone := true;
          return false;
        }
        sent := sent + buf[..len];
        len := 0;
        assert Out() == was;
      }
      return true;
    }

    /** want: room for n bytes at the tail. It fails only if they are more than the sink takes. */
    method Want(n: nat) returns (ok: bool)
      requires Valid() && 0 < n <= RUN_MAX
      modifies this`len, this`flushes, this`gone, this`sent
      ensures Valid() && Out() == old(Out())
      ensures ok ==> len + n <= buf.Length && gone == old(gone)
      ensures ok ==> Left() + (if toMem then 0 else 1) >= old(Left())
      ensures !ok ==> gone && (old(gone) || |Out()| + n > old(Left()))
    {
      if n <= buf.Length - len && !gone {
        return true;
      }
      OutLength();
      ok := MakeRoom(n);
    }

    /** memcpy to the tail, and commit. */
    method Store(data: bytes)
      requires Valid() && len + |data| <= buf.Length
      modifies this`len, buf
      ensures Valid() && Out() == old(Out()) + data && len == old(len) + |data|
      ensures Left() == old(Left()) + if toMem then 0 else |data|
    {
      ghost var was := buf[..];
      forall i | len <= i < len + |data| {
        buf[i] := data[i - len];
      }
      assert buf[..len + |data|] == was[..len] + data;
      len := len + |data|;
      assert sent + (was[..old(len)] + data) == sent + was[..old(len)] + data;
    }

    /** put: all of data, in as many pieces as the room makes of it, unless it is more than the sink takes. */
    method Put(data: bytes) returns (ok: bool)
      requires Valid()
      modifies this`len, this`flushes, this`gone, this`sent, buf
      ensures Valid() && old(Out()) <= Out()
      ensures ok ==> Out() == old(Out()) + data && Left() >= old(Left()) && gone == old(gone)
      ensures !ok ==> gone && (old(gone) || |old(Out())| + |data| > old(Left()))
    {
      var left := data;
      ghost var total := |Out()| + |data|;
      while left != []
        invariant Valid() && old(Out()) + data == Out() + left && total == |Out()| + |left|
        invariant old(Out()) <= Out()
        invariant gone == old(gone) && Left() >= old(Left())
        decreases |left|
      {
        ghost var before := Left();
        if len == buf.Length || gone {
          OutLength();
          ok := MakeRoom(if |left| < RUN_MAX then |left| else RUN_MAX);
          if !ok {
            return;
          }
        }
        var room := buf.Length - len;
        var k := if |left| < room then |left| else room;
        ghost var was := Out();
        assert left == left[..k] + left[k..];
        Store(left[..k]);
        assert was + (left[..k] + left[k..]) == was + left[..k] + left[k..];
        left := left[k..];
      }
      return true;
    }
  }

  /** The sendings that succeed before one that does not. */
  function Trues(script: seq<bool>): nat {
    if script == [] || !script[0] then 0 else 1 + Trues(script[1..])
  }

  function CleanRun(s: bytes): (n: nat)
    ensures n <= |s| && (forall k :: 0 <= k < n ==> !NeedsEscape(s[k])) && (n < |s| ==> NeedsEscape(s[n]))
  {
    if s == [] || NeedsEscape(s[0]) then 0 else 1 + CleanRun(s[1..])
  }

  lemma {:induction false} CleanEscapes(a: bytes, b: bytes)
    requires forall k :: 0 <= k < |a| ==> !NeedsEscape(a[k])
    ensures Escape(a + b) == a + Escape(b)
  {
    hide Escape;
    if a == [] {
      assert a + b == b;
      NoEscape();
    } else {
      var more := a[1..];
      assert (a + b)[1..] == more + b;
      CleanEscapes(more, b);
      EscapeFirst(a + b);
      assert a == [a[0]] + more;
      assert [a[0]] + (more + Escape(b)) == a + Escape(b);
    }
  }

  /** clean_run. */
  method FindClean(s: bytes) returns (n: nat)
    ensures n == CleanRun(s)
  {
    n := 0;
    while n < |s| && !NeedsEscape(s[n])
      invariant n <= |s| && n + CleanRun(s[n..]) == CleanRun(s)
    {
      assert s[n..][1..] == s[n + 1..];
      n := n + 1;
    }
    if n == |s| {
      assert s[n..] == [];
    }
  }

  /** put_escaped: runs that need none as they are, and an escape for each byte that needs one. */
  method PutEscaped(sink: Sink, s: bytes) returns (ok: bool)
    requires sink.Valid()
    modifies sink, sink.buf
    ensures sink.Valid()
    ensures ok ==> sink.Out() == old(sink.Out()) + Escape(s) && sink.Left() >= old(sink.Left()) && sink.gone == old(sink.gone)
    ensures !ok ==> sink.gone && (old(sink.gone) || |old(sink.Out())| + |Escape(s)| > old(sink.Left()))
  {
    hide *;
    var left := s;
    ghost var all := sink.Out() + Escape(s);
    NoEscape();
    while left != []
      invariant sink.Valid() && all == sink.Out() + Escape(left)
      invariant sink.Left() >= old(sink.Left()) && sink.gone == old(sink.gone)
      decreases |left|
    {
      ok, left := PutPiece(sink, left);
      if !ok {
        return;
      }
    }
    return true;
  }

  /** A run of bytes that need no escape, and the byte that ended it. */
  method PutPiece(sink: Sink, s: bytes) returns (ok: bool, left: bytes)
    requires sink.Valid() && s != []
    modifies sink, sink.buf
    ensures sink.Valid() && |left| < |s|
    ensures ok ==> sink.Out() + Escape(left) == old(sink.Out()) + Escape(s)
    ensures ok ==> sink.Left() >= old(sink.Left()) && sink.gone == old(sink.gone)
    ensures !ok ==> sink.gone && (old(sink.gone) || |old(sink.Out())| + |Escape(s)| > old(sink.Left()))
  {
    var run := FindClean(s);
    hide *;
    EscapeSplits(s, run);
    ok := PutAhead(sink, s[..run], Escape(s[run..]));
    left := if run == |s| then [] else s[run + 1..];
    NoEscape();
    assert run == |s| ==> s[run..] == [];
    if !ok || run == |s| {
      return;
    }
    EscapeFirst(s[run..]);
    ok := PutAhead(sink, EscapeByte(s[run]), Escape(left));
  }

  /** Put, of the front of what is still to come. */
  method PutAhead(sink: Sink, data: bytes, ghost others: bytes) returns (ok: bool)
    requires sink.Valid()
    modifies sink, sink.buf
    ensures sink.Valid()
    ensures ok ==> sink.Out() + others == old(sink.Out()) + (data + others)
    ensures ok ==> sink.Left() >= old(sink.Left()) && sink.gone == old(sink.gone)
    ensures !ok ==> sink.gone && (old(sink.gone) || |old(sink.Out())| + |data| > old(sink.Left()))
  {
    hide *;
    ghost var out := sink.Out();
    ok := sink.Put(data);
    assert out + (data + others) == out + data + others;
  }

  lemma EscapeSplits(s: bytes, run: nat)
    requires run == CleanRun(s)
    ensures Escape(s) == s[..run] + Escape(s[run..])
  {
    hide Escape;
    assert s == s[..run] + s[run..];
    CleanEscapes(s[..run], s[run..]);
  }

  lemma NoEscape()
    ensures Escape([]) == []
  {
  }

  lemma EscapeFirst(s: bytes)
    requires s != []
    ensures Escape(s) == EscapeByte(s[0]) + Escape(s[1..])
  {
  }

  /** put_string: in one piece when it fits as it is, else piece by piece; the same bytes either way. */
  method PutString(sink: Sink, comma: bool, s: bytes, after: bytes) returns (ok: bool)
    requires sink.Valid() && |after| <= 1
    modifies sink, sink.buf
    ensures sink.Valid()
    ensures ok ==> sink.Out() == old(sink.Out()) + (if comma then [COMMA] else []) + Quoted(s) + after
    ensures ok ==> sink.Left() >= old(sink.Left()) && sink.gone == old(sink.gone)
    ensures !ok ==>
      && sink.gone
      && (old(sink.gone) || |old(sink.Out())| + (if comma then 1 else 0) + |Quoted(s)| + |after| > old(sink.Left()))
  {
    hide Escape;
    var lead: bytes := if comma then [COMMA] else [];
    var clean := FindClean(s);
    ghost var out := sink.Out();
    var need := |lead| + |s| + 2 + |after|;
    if need <= RUN_MAX && clean == |s| && need <= sink.buf.Length - sink.len && !sink.gone {
      CleanEscapes(s, []);
      NoEscape();
      assert s + [] == s;
      sink.Store(lead + [QUOTE] + s + [QUOTE] + after);
      InQuotes(out, lead, s, after);
      return true;
    }
    ok := PutPieces(sink, lead, s, after);
  }

  method PutPieces(sink: Sink, lead: bytes, s: bytes, after: bytes) returns (ok: bool)
    requires sink.Valid()
    modifies sink, sink.buf
    ensures sink.Valid()
    ensures ok ==> sink.Out() == old(sink.Out()) + lead + Quoted(s) + after
    ensures ok ==> sink.Left() >= old(sink.Left()) && sink.gone == old(sink.gone)
    ensures !ok ==> sink.gone && (old(sink.gone) || |old(sink.Out())| + |lead| + |Quoted(s)| + |after| > old(sink.Left()))
  {
    ghost var out, left := sink.Out(), sink.Left();
    QuotedLength(s);
    InQuotes(out, lead, Escape(s), after);
    hide *;
    ok := sink.Put(lead);
    if !ok {
      return;
    }
    ok := sink.Put([QUOTE]);
    if !ok {
      return;
    }
    ok := PutEscaped(sink, s);
    if !ok {
      return;
    }
    ok := sink.Put([QUOTE]);
    if !ok {
      return;
    }
    ok := sink.Put(after);
  }

  lemma QuotedLength(s: bytes)
    ensures Quoted(s) == [QUOTE] + Escape(s) + [QUOTE]
  {
  }

  lemma InQuotes(out: bytes, lead: bytes, text: bytes, after: bytes)
    ensures out + lead + [QUOTE] + text + [QUOTE] + after == out + lead + ([QUOTE] + text + [QUOTE]) + after
    ensures out + (lead + [QUOTE] + text + [QUOTE] + after) == out + lead + ([QUOTE] + text + [QUOTE]) + after
  {
  }

  // The writer.

  /** The masks are the stack: a bit per level says what kind it is, and whether anything stands in it. */
  ghost predicate Masks(hasValue: nat, isObject: nat, frames: seq<Frame>, leading: bool) {
    && (forall k: nat :: k < |frames| ==> (Bit(isObject, k) <==> frames[k].InObj?))
    && (forall k: nat :: k < |frames| ==> (Bit(hasValue, k) <==> Has(frames[k]) || k < |frames| - 1 || leading))
  }

  class JsonWriter {
    const sink: Sink
    var hasValue: nat
    var isObject: nat
    var depth: nat
    var afterKey: bool
    var failed: bool
    ghost var frames: seq<Frame>
    ghost const base: bytes

    /** The masks, the depth and the flag are the stack's, and what is written is its text. */
    ghost predicate InStep(leading: bool, more: bytes)
      reads this`hasValue, this`isObject, this`depth, this`afterKey, this`frames, sink`len, sink`sent, sink.buf
      requires sink.Valid()
    {
      && FramesOk(frames) && |frames| == depth + 1 && depth <= MAX_DEPTH
      && Masks(hasValue, isObject, frames, leading)
      && afterKey == (!leading && KeyPending(frames[depth]))
      && sink.Out() == base + Text(frames) + more
    }

    ghost predicate Valid()
      reads this, sink`len, sink`sent, sink.buf
    {
      sink.Valid() && (!failed ==> InStep(false, []))
    }

    /** What the sink holds when these are the levels. */
    ghost function Size(frames: seq<Frame>): nat
      requires frames != []
    {
      |base| + |Text(frames)|
    }

    /** The sink was gone, or is now because it does not take as much as this. */
    ghost predicate Refused(was: bool, left: nat, goal: nat)
      reads sink`gone
    {
      sink.gone && (was || goal > left)
    }

    lemma OutSize(leading: bool, more: bytes)
      requires sink.Valid() && InStep(leading, more)
      ensures frames != [] && |sink.Out()| == Size(frames) + |more|
    {
    }

    constructor (sink: Sink)
      requires sink.Valid()
      ensures Valid() && this.sink == sink && base == sink.Out() && frames == [InArr(NoItems)] && depth == 0 && !failed
    {
      this.sink := sink;
      hasValue, isObject, depth, afterKey, failed := 0, 0, 0, false, false;
      frames, base := [InArr(NoItems)], sink.Out();
      new;
      forall k
        ensures !Bit(0, k)
      {
        ZeroBits(k);
      }
      assert base + [] + [] == base;
    }

    /** fail. */
    method Fail()
      modifies this`failed
      requires sink.Valid()
      ensures Valid() && failed
    {
      failed := true;
    }

    /** value_lead: 1 when a comma is due, 0 when none is, -1 when no value is. */
    method ValueLead() returns (comma: int)
      requires Valid()
      modifies this`hasValue, this`afterKey, this`failed
      ensures sink.Valid() && -1 <= comma <= 1
      ensures comma < 0 <==> failed
      ensures comma < 0 <==> old(failed) || !TakesValue(frames[|frames| - 1])
      ensures comma >= 0 ==> InStep(true, []) && TakesValue(frames[depth]) && Lead(frames[depth]) == if comma == 1 then [COMMA] else []
    {
      hide Text, FramesOk;
      if failed {
        return -1;
      }
      if afterKey {
        afterKey := false;
        return 0;
      }
      if Bit(isObject, depth) {
        failed := true;
        return -1;
      }
      if Bit(hasValue, depth) {
        return 1;
      }
      forall k: nat
        ensures Bit(With(hasValue, depth), k) <==> k == depth || Bit(hasValue, k)
      {
        WithBit(hasValue, depth, k);
      }
      hasValue := With(hasValue, depth);
      return 0;
    }

    /** A value whose text is written: the innermost level has it. */
    method AddValue(ghost v: Json)
      requires sink.Valid() && !failed && |frames| == depth + 1 && InStep(true, Lead(frames[depth]) + Render(v)) && TakesValue(frames[depth])
      modifies this`frames
      ensures Valid() && frames == Top(old(frames), AddTo(old(frames)[depth], v))
    {
      hide Text, Body, Render, Lead;
      ValueAdded(hasValue, isObject, frames, v);
      ghost var out := base + Text(frames);
      assert out + (Lead(frames[depth]) + Render(v)) == base + (Text(frames) + (Lead(frames[depth]) + Render(v)));
      frames := Top(frames, AddTo(frames[depth], v));
      assert base + Text(frames) + [] == base + Text(frames);
    }

    lemma ValueFits(v: Json)
      requires sink.Valid() && InStep(true, []) && TakesValue(frames[depth])
      ensures frames != [] && Size(Top(frames, AddTo(frames[|frames| - 1], v))) == Size(frames) + |Lead(frames[depth])| + |Render(v)|
    {
      ValueSize(frames, v);
    }

    /** put_value: a short text, with the comma it needs. */
    method PutValue(p: bytes, ghost v: Json) returns (ok: bool)
      requires Valid() && p == Render(v) && 0 < |p| < RUN_MAX
      modifies this, sink, sink.buf
      ensures Valid() && ok == !failed
      ensures ok ==> !old(failed) && frames == Top(old(frames), AddTo(old(frames)[|old(frames)| - 1], v))
      ensures ok ==> sink.Left() >= old(sink.Left()) && sink.gone == old(sink.gone)
      ensures !ok ==>
        || old(failed) || !TakesValue(old(frames)[|old(frames)| - 1])
        || Refused(old(sink.gone), old(sink.Left()), Size(Top(old(frames), AddTo(old(frames)[|old(frames)| - 1], v))))
      ensures depth == old(depth)
      ensures ok ==> TakesValue(old(frames)[|old(frames)| - 1])
    {
      hide Text, Body, Render, FramesOk, Masks;
      var comma := ValueLead();
      if comma < 0 {
        return false;
      }
      OutSize(true, []);
      ValueFits(v);
      ok := sink.Want(comma + |p|);
      if !ok {
        Fail();
        return;
      }
      var lead: bytes := if comma == 1 then [COMMA] else [];
      ghost var out := base + Text(frames);
      assert out + [] + (lead + p) == out + (lead + p);
      sink.Store(lead + p);
      AddValue(v);
    }

    method Null() returns (ok: bool)
      requires Valid()
      modifies this, sink, sink.buf
      ensures Valid() && ok == !failed && depth == old(depth)
      ensures ok ==> !old(failed) && frames == Top(old(frames), AddTo(old(frames)[|old(frames)| - 1], Json.Null))
      ensures ok ==> sink.Left() >= old(sink.Left()) && sink.gone == old(sink.gone)
      ensures !ok ==>
        || old(failed) || !TakesValue(old(frames)[|old(frames)| - 1])
        || Refused(old(sink.gone), old(sink.Left()), Size(Top(old(frames), AddTo(old(frames)[|old(frames)| - 1], Json.Null))))
      ensures ok ==> TakesValue(old(frames)[|old(frames)| - 1])
    {
      hide Valid, AddTo;
      ok := PutValue(NULL, Json.Null);
    }

    method Bool(b: bool) returns (ok: bool)
      requires Valid()
      modifies this, sink, sink.buf
      ensures Valid() && ok == !failed && depth == old(depth)
      ensures ok ==> !old(failed) && frames == Top(old(frames), AddTo(old(frames)[|old(frames)| - 1], Json.Bool(b)))
      ensures ok ==> sink.Left() >= old(sink.Left()) && sink.gone == old(sink.gone)
      ensures !ok ==>
        || old(failed) || !TakesValue(old(frames)[|old(frames)| - 1])
        || Refused(old(sink.gone), old(sink.Left()), Size(Top(old(frames), AddTo(old(frames)[|old(frames)| - 1], Json.Bool(b)))))
      ensures ok ==> TakesValue(old(frames)[|old(frames)| - 1])
    {
      hide Valid, AddTo;
      ok := PutValue(if b then TRUE else FALSE, Json.Bool(b));
    }

    /** json_int, of an int64_t, and json_uint, of a uint64_t: a number that fits one of them. */
    method Int(v: int) returns (ok: bool)
      requires Valid() && -0x8000_0000_0000_0000 <= v <= 0xFFFF_FFFF_FFFF_FFFF
      modifies this, sink, sink.buf
      ensures Valid() && ok == !failed && depth == old(depth)
      ensures ok ==> !old(failed) && frames == Top(old(frames), AddTo(old(frames)[|old(frames)| - 1], Json.Int(v)))
      ensures ok ==> sink.Left() >= old(sink.Left()) && sink.gone == old(sink.gone)
      ensures !ok ==>
        || old(failed) || !TakesValue(old(frames)[|old(frames)| - 1])
        || Refused(old(sink.gone), old(sink.Left()), Size(Top(old(frames), AddTo(old(frames)[|old(frames)| - 1], Json.Int(v)))))
      ensures ok ==> TakesValue(old(frames)[|old(frames)| - 1])
    {
      hide Valid, AddTo;
      // The magnitude of the least int64_t, without overflow.
      var magnitude := if v < 0 then -(v + 1) + 1 else v;
      var p := DigitsOf(magnitude);
      DecimalShort(magnitude);
      if v < 0 {
        p := [45] + p;
      }
      ok := PutValue(p, Json.Int(v));
    }

    /** json_string: its bytes as they are, escaped where they must be. */
    method String(s: bytes) returns (ok: bool)
      requires Valid()
      modifies this, sink, sink.buf
      ensures Valid() && ok == !failed && depth == old(depth)
      ensures ok ==> !old(failed) && frames == Top(old(frames), AddTo(old(frames)[|old(frames)| - 1], Str(s)))
      ensures ok ==> sink.Left() >= old(sink.Left()) && sink.gone == old(sink.gone)
      ensures !ok ==>
        || old(failed) || !TakesValue(old(frames)[|old(frames)| - 1])
        || Refused(old(sink.gone), old(sink.Left()), Size(Top(old(frames), AddTo(old(frames)[|old(frames)| - 1], Str(s)))))
      ensures ok ==> TakesValue(old(frames)[|old(frames)| - 1])
    {
      hide Text, Body, FramesOk, Masks, Quoted;
      var comma := ValueLead();
      if comma < 0 {
        return false;
      }
      ghost var out := base + Text(frames);
      OutSize(true, []);
      ValueFits(Str(s));
      ok := PutString(sink, comma == 1, s, []);
      if !ok {
        Fail();
        return;
      }
      ghost var lead: bytes := if comma == 1 then [COMMA] else [];
      assert out + [] + lead + Quoted(s) + [] == out + (lead + Quoted(s));
      AddValue(Str(s));
    }

    /** json_key. */
    method Key(name: bytes) returns (ok: bool)
      requires Valid()
      modifies this, sink, sink.buf
      ensures Valid() && ok == !failed && depth == old(depth)
      ensures ok ==>
        && !old(failed) && old(frames)[|old(frames)| - 1].InObj?
        && frames == Top(old(frames), InObj(old(frames)[|old(frames)| - 1].members, Some(name)))
      ensures ok ==> sink.Left() >= old(sink.Left()) && sink.gone == old(sink.gone)
      ensures !ok ==>
        || old(failed) || !old(frames)[|old(frames)| - 1].InObj? || KeyPending(old(frames)[|old(frames)| - 1])
        || Refused(old(sink.gone), old(sink.Left()), Size(Top(old(frames), InObj(old(frames)[|old(frames)| - 1].members, Some(name)))))
      ensures ok ==> !KeyPending(old(frames)[|old(frames)| - 1])
    {
      hide Text, Body, Quoted;
      if failed {
        return false;
      }
      if !Bit(isObject, depth) || afterKey {
        failed := true;
        return false;
      }
      var comma := Bit(hasValue, depth);
      ghost var out := base + Text(frames);
      ghost var f := frames[depth];
      OutSize(false, []);
      KeySize(frames, name);
      ok := PutString(sink, comma, name, [COLON]);
      forall k: nat
        ensures Bit(With(hasValue, depth), k) <==> k == depth || Bit(hasValue, k)
      {
        WithBit(hasValue, depth, k);
      }
      hasValue := With(hasValue, depth);
      if !ok {
        Fail();
        return;
      }
      afterKey := true;
      KeyAdds(frames, base, out, name);
      frames := Top(frames, InObj(f.members, Some(name)));
    }

    /** open_level. */
    method Open(braces: bool) returns (ok: bool)
      requires Valid()
      modifies this, sink, sink.buf
      ensures Valid() && ok == !failed
      ensures ok ==>
        && !old(failed) && depth == old(depth) + 1 && TakesValue(old(frames)[|old(frames)| - 1])
        && frames == old(frames) + [NewLevel(braces)]
      ensures ok ==> sink.Left() >= old(sink.Left()) && sink.gone == old(sink.gone)
      ensures !ok ==>
        || old(failed) || old(depth) == MAX_DEPTH || !TakesValue(old(frames)[|old(frames)| - 1])
        || Refused(old(sink.gone), old(sink.Left()), Size(old(frames) + [NewLevel(braces)]))
      ensures ok ==> old(depth) < MAX_DEPTH
    {
      hide Text, Body, Masks, Lead;
      if failed {
        return false;
      }
      if depth == MAX_DEPTH {
        failed := true;
        return false;
      }
      var comma := ValueLead();
      if comma < 0 {
        return false;
      }
      LevelOpens(hasValue, isObject, frames, braces);
      OutSize(true, []);
      EmptyBody();
      LevelSize(frames, NewLevel(braces));
      depth := depth + 1;
      hasValue := Without(hasValue, depth);
      isObject := if braces then With(isObject, depth) else Without(isObject, depth);
      ok := sink.Want(comma + 1);
      if !ok {
        Fail();
        return;
      }
      PutOpening(comma, braces);
    }

    /** The bracket, behind the comma it needs. */
    method PutOpening(comma: nat, braces: bool)
      requires sink.Valid() && !failed && FramesOk(frames) && |frames| == depth <= MAX_DEPTH && TakesValue(frames[depth - 1]) && !afterKey
      requires LevelOpened(hasValue, isObject, frames, braces)
      requires comma <= 1 && Lead(frames[depth - 1]) == (if comma == 1 then [COMMA] else [])
      requires sink.Out() == base + Text(frames) + [] && sink.len + comma + 1 <= sink.buf.Length
      modifies this`frames, sink`len, sink.buf
      ensures Valid() && frames == old(frames) + [NewLevel(braces)]
      ensures sink.Left() == old(sink.Left()) + if sink.toMem then 0 else comma + 1
    {
      hide Text, Body, Masks;
      var lead: bytes := if comma == 1 then [COMMA] else [];
      ghost var f := NewLevel(braces);
      ghost var text := Text(frames);
      EmptyBody();
      TextOpens(frames, f);
      assert base + text + [] + (lead + Opening(f)) == base + (text + lead + Opening(f)) + [];
      sink.Store(lead + [if braces then 123 else 91]);
      frames := frames + [f];
    }

    /** json_end. */
    method End() returns (ok: bool)
      requires Valid()
      modifies this, sink, sink.buf
      ensures Valid() && ok == !failed
      ensures ok ==>
        && !old(failed) && old(depth) > 0 && depth == old(depth) - 1
        && var n := |old(frames)| - 1; frames == Top(old(frames)[..n], AddTo(old(frames)[n - 1], Closed(old(frames)[n])))
      ensures ok ==> sink.Left() >= old(sink.Left()) && sink.gone == old(sink.gone)
      ensures !ok ==>
        || old(failed) || old(depth) == 0 || KeyPending(old(frames)[|old(frames)| - 1])
        || Refused(old(sink.gone), old(sink.Left()), Size(Outer(old(frames))))
      ensures ok ==> !KeyPending(old(frames)[|old(frames)| - 1])
    {
      hide Text, Body, Closed, AddTo;
      if failed {
        return false;
      }
      if depth == 0 || afterKey {
        failed := true;
        return false;
      }
      var braces := Bit(isObject, depth);
      OutSize(false, []);
      OuterSize(frames);
      depth := depth - 1;
      ok := sink.Want(1);
      if !ok {
        Fail();
        return;
      }
      PutClosing(braces);
    }

    /** The bracket; the level is a value of the one around it now. */
    method PutClosing(braces: bool)
      requires sink.Valid() && !failed && FramesOk(frames) && |frames| == depth + 2 && depth < MAX_DEPTH && !afterKey
      requires Masks(hasValue, isObject, frames, false) && braces == frames[depth + 1].InObj? && !KeyPending(frames[depth + 1])
      requires sink.Out() == base + Text(frames) + [] && sink.len + 1 <= sink.buf.Length
      modifies this`frames, sink`len, sink.buf
      ensures Valid() && frames == Top(old(frames)[..depth + 1], AddTo(old(frames)[depth], Closed(old(frames)[depth + 1])))
      ensures sink.Left() == old(sink.Left()) + if sink.toMem then 0 else 1
    {
      hide Text, Body, Masks, AddTo, Closed, TakesValue;
      CloseOk(frames);
      TextCloses(frames);
      LevelCloses(hasValue, isObject, frames);
      ghost var text := Text(frames);
      ghost var close := Closing(frames[depth + 1]);
      assert base + text + [] + close == base + (text + close) + [];
      sink.Store([if braces then 125 else 93]);
      frames := Top(frames[..depth + 1], AddTo(frames[depth], Closed(frames[depth + 1])));
    }

    /** json_done: everything opened was closed, and what is written is a list of values. */
    method Done() returns (ok: bool)
      requires Valid()
      ensures ok <==> !failed && depth == 0
      ensures ok ==> frames[0].InArr? && sink.Out() == base + Join(frames[0].items)
    {
      ok := !failed && depth == 0;
      if ok {
        assert base + Text(frames) + [] == base + Text(frames);
      }
    }
  }

  lemma ValueAdded(hasValue: nat, isObject: nat, frames: seq<Frame>, v: Json)
    requires FramesOk(frames) && Masks(hasValue, isObject, frames, true) && TakesValue(frames[|frames| - 1])
    ensures var f := frames[|frames| - 1]; var top := Top(frames, AddTo(f, v));
      && FramesOk(top) && |top| == |frames| && Masks(hasValue, isObject, top, false) && !KeyPending(top[|top| - 1])
      && Text(top) == Text(frames) + (Lead(f) + Render(v))
  {
    hide Body, Text, Render, Lead;
    var f := frames[|frames| - 1];
    BodyAdds(f, v);
    assert Body(f) + Lead(f) + Render(v) == Body(f) + (Lead(f) + Render(v));
    TextGrows(frames, AddTo(f, v), Lead(f) + Render(v));
  }

  /** What a value, a key, a level and its end add. */
  lemma ValueSize(frames: seq<Frame>, v: Json)
    requires FramesOk(frames) && TakesValue(frames[|frames| - 1])
    ensures |Text(Top(frames, AddTo(frames[|frames| - 1], v)))| == |Text(frames)| + |Lead(frames[|frames| - 1])| + |Render(v)|
  {
    hide Body, Text, Render, Lead;
    var f := frames[|frames| - 1];
    BodyAdds(f, v);
    assert Body(f) + Lead(f) + Render(v) == Body(f) + (Lead(f) + Render(v));
    TextGrows(frames, AddTo(f, v), Lead(f) + Render(v));
  }

  lemma KeySize(frames: seq<Frame>, name: bytes)
    requires FramesOk(frames) && frames[|frames| - 1].InObj? && frames[|frames| - 1].key.None?
    ensures var f := frames[|frames| - 1];
            |Text(Top(frames, InObj(f.members, Some(name))))|
            == |Text(frames)| + (if Has(f) then 1 else 0) + |Quoted(name)| + 1
  {
    KeyAdds(frames, [], [] + Text(frames), name);
  }

  lemma LevelSize(frames: seq<Frame>, f: Frame)
    requires frames != [] && Body(f) == []
    ensures |Text(frames + [f])| == |Text(frames)| + |Lead(frames[|frames| - 1])| + 1
  {
    TextOpens(frames, f);
  }

  /** The levels once the innermost is closed. */
  ghost function Outer(frames: seq<Frame>): seq<Frame>
    requires |frames| > 1
  {
    Top(frames[..|frames| - 1], AddTo(frames[|frames| - 2], Closed(frames[|frames| - 1])))
  }

  lemma OuterSize(frames: seq<Frame>)
    requires FramesOk(frames) && |frames| > 1 && !KeyPending(frames[|frames| - 1])
    ensures |Text(Outer(frames))| == |Text(frames)| + 1
  {
    TextCloses(frames);
  }

  lemma KeyAdds(frames: seq<Frame>, base: bytes, out: bytes, name: bytes)
    requires FramesOk(frames) && frames[|frames| - 1].InObj? && frames[|frames| - 1].key.None? && out == base + Text(frames)
    ensures var f := frames[|frames| - 1]; var top := Top(frames, InObj(f.members, Some(name)));
      && FramesOk(top)
      && out + [] + (if Has(f) then [COMMA] else []) + Quoted(name) + [COLON] == base + Text(top) + []
  {
    hide Text, Quoted;
    var f := frames[|frames| - 1];
    var g := InObj(f.members, Some(name));
    assert Body(f) == JoinMembers(f.members) + [] == JoinMembers(f.members);
    TextGrows(frames, g, KeyText(f.members, name));
    var comma: bytes := if f.members.Member? then [COMMA] else [];
    assert (base + Text(frames)) + [] + comma + Quoted(name) + [COLON] == base + (Text(frames) + (comma + Quoted(name) + [COLON])) + [];
  }

  function NewLevel(braces: bool): Frame {
    if braces then InObj(NoMembers, None) else InArr(NoItems)
  }

  lemma EmptyBody()
    ensures forall braces :: Body(NewLevel(braces)) == []
  {
    assert JoinMembers(NoMembers) + [] == [];
  }

  /** The masks fit the stack with one level more. */
  ghost predicate LevelOpened(hasValue: nat, isObject: nat, frames: seq<Frame>, braces: bool) {
    FramesOk(frames + [NewLevel(braces)]) && Masks(hasValue, isObject, frames + [NewLevel(braces)], false)
  }

  lemma LevelOpens(hasValue: nat, isObject: nat, frames: seq<Frame>, braces: bool)
    requires FramesOk(frames) && Masks(hasValue, isObject, frames, true) && TakesValue(frames[|frames| - 1])
    ensures var n := |frames|;
      LevelOpened(Without(hasValue, n), if braces then With(isObject, n) else Without(isObject, n), frames, braces)
  {
    var n := |frames|;
    forall k: nat
      ensures Bit(Without(hasValue, n), k) <==> k != n && Bit(hasValue, k)
      ensures Bit(With(isObject, n), k) <==> k == n || Bit(isObject, k)
      ensures Bit(Without(isObject, n), k) <==> k != n && Bit(isObject, k)
    {
      WithoutBit(hasValue, n, k);
      WithBit(isObject, n, k);
      WithoutBit(isObject, n, k);
    }
  }

  lemma LevelCloses(hasValue: nat, isObject: nat, frames: seq<Frame>)
    requires FramesOk(frames) && Masks(hasValue, isObject, frames, false) && |frames| > 1
    ensures var n := |frames| - 1; var outer := Top(frames[..n], AddTo(frames[n - 1], Closed(frames[n])));
      |outer| == n && Masks(hasValue, isObject, outer, false) && !KeyPending(outer[n - 1])
  {
    var n := |frames| - 1;
    var outer := Top(frames[..n], AddTo(frames[n - 1], Closed(frames[n])));
    forall k: nat | k < n
      ensures Bit(isObject, k) <==> outer[k].InObj?
      ensures Bit(hasValue, k) <==> Has(outer[k]) || k < n - 1
    {
      assert k < n - 1 ==> outer[k] == frames[k];
    }
  }

  /** digits: from the least significant one back. */
  method DigitsOf(v: nat) returns (digits: bytes)
    ensures digits == Decimal(v)
  {
    hide Decimal;
    var rest: nat := v;
    digits := [];
    DecimalNoMore(v);
    while rest >= 10
      invariant Decimal(v) == Decimal(rest) + digits
    {
      var q: nat, d: nat := rest / 10, rest % 10;
      DecimalMore(rest, q, d, digits);
      digits := [48 + d] + digits;
      rest := q;
    }
    DecimalDigit(rest);
    digits := [48 + rest] + digits;
  }

  lemma DecimalNoMore(v: nat)
    ensures Decimal(v) == Decimal(v) + []
  {
  }

  lemma DecimalMore(v: nat, q: nat, d: nat, digits: bytes)
    requires v >= 10 && q == v / 10 && d == v % 10
    ensures Decimal(v) + digits == Decimal(q) + ([48 + d] + digits)
  {
    assert Decimal(v) == Decimal(q) + [48 + d];
    hide Decimal;
    assert Decimal(q) + [48 + d] + digits == Decimal(q) + ([48 + d] + digits);
  }

  lemma DecimalDigit(v: nat)
    requires v < 10
    ensures Decimal(v) == [48 + v]
  {
  }

  lemma DecimalShort(v: nat)
    requires v <= 0xFFFF_FFFF_FFFF_FFFF
    ensures |Decimal(v)| <= 20
  {
    LengthDigits(v);
  }

  // Whole trees.

  /** Every number in it is an int64_t or a uint64_t. */
  predicate IntsFit(v: Json) {
    match v
    case Int(n) => -0x8000_0000_0000_0000 <= n <= 0xFFFF_FFFF_FFFF_FFFF
    case Arr(items) => ItemsFit(items)
    case Obj(members) => MembersFit(members)
    case _ => true
  }

  predicate ItemsFit(items: Items) {
    items.NoItems? || (IntsFit(items.v) && ItemsFit(items.more))
  }

  predicate MembersFit(members: Members) {
    members.NoMembers? || (IntsFit(members.v) && MembersFit(members.more))
  }

  function Concat(a: Items, b: Items): Items
    decreases b
  {
    if b.NoItems? then a else Concat(Append(a, b.v), b.more)
  }

  function ConcatMembers(a: Members, b: Members): Members
    decreases b
  {
    if b.NoMembers? then a else ConcatMembers(AppendMember(a, b.key, b.v), b.more)
  }

  lemma {:induction false} ConcatItem(v: Json, a: Items, b: Items)
    ensures Concat(Item(v, a), b) == Item(v, Concat(a, b))
    decreases b
  {
    if b.Item? {
      ConcatItem(v, Append(a, b.v), b.more);
    }
  }

  lemma {:induction false} ConcatNothing(b: Items)
    ensures Concat(NoItems, b) == b
  {
    if b.Item? {
      ConcatItem(b.v, NoItems, b.more);
      ConcatNothing(b.more);
    }
  }

  lemma {:induction false} ConcatMember(key: bytes, v: Json, a: Members, b: Members)
    ensures ConcatMembers(Member(key, v, a), b) == Member(key, v, ConcatMembers(a, b))
    decreases b
  {
    if b.Member? {
      ConcatMember(key, v, AppendMember(a, b.key, b.v), b.more);
    }
  }

  lemma {:induction false} ConcatNoMembers(b: Members)
    ensures ConcatMembers(NoMembers, b) == b
  {
    if b.Member? {
      ConcatMember(b.key, b.v, NoMembers, b.more);
      ConcatNoMembers(b.more);
    }
  }

  lemma {:induction false} ItemsSize(frames: seq<Frame>, items: Items)
    requires FramesOk(frames) && frames[|frames| - 1].InArr?
    ensures var top := Top(frames, InArr(Concat(frames[|frames| - 1].items, items)));
            |top| == |frames| && |Text(frames)| <= |Text(top)|
    decreases items
  {
    hide Text, Body, Render, Lead;
    var f := frames[|frames| - 1];
    if items.NoItems? {
      assert Top(frames, f) == frames;
    } else {
      var one := Top(frames, AddTo(f, items.v));
      ValueSize(frames, items.v);
      TopTwice(frames, AddTo(f, items.v));
      FramesStay(frames, AddTo(f, items.v));
      ItemsSize(one, items.more);
    }
  }

  lemma {:induction false} MembersSize(frames: seq<Frame>, members: Members)
    requires FramesOk(frames) && frames[|frames| - 1].InObj? && frames[|frames| - 1].key.None?
    ensures var top := Top(frames, InObj(ConcatMembers(frames[|frames| - 1].members, members), None));
            |top| == |frames| && |Text(frames)| <= |Text(top)|
    decreases members
  {
    hide Text, Body, Render, Lead;
    var f := frames[|frames| - 1];
    if members.NoMembers? {
      assert Top(frames, f) == frames;
    } else {
      MemberSize(frames, members.key, members.v);
      var g := AddTo(InObj(f.members, Some(members.key)), members.v);
      TopTwice(frames, g);
      FramesStay(frames, g);
      MembersSize(Top(frames, g), members.more);
    }
  }

  lemma MemberSize(frames: seq<Frame>, key: bytes, v: Json)
    requires FramesOk(frames) && frames[|frames| - 1].InObj? && frames[|frames| - 1].key.None?
    ensures var f := frames[|frames| - 1]; var keyed := Top(frames, InObj(f.members, Some(key)));
            |Text(frames)| <= |Text(keyed)| <= |Text(Top(frames, AddTo(InObj(f.members, Some(key)), v)))|
  {
    hide Text, Body, Render, Lead;
    var f := frames[|frames| - 1];
    var g := InObj(f.members, Some(key));
    KeySize(frames, key);
    FramesStay(frames, g);
    TopTwice(frames, g);
    ValueSize(Top(frames, g), v);
  }

  lemma FramesStay(frames: seq<Frame>, f: Frame)
    requires FramesOk(frames) && f.InArr? == frames[|frames| - 1].InArr?
    ensures FramesOk(Top(frames, f))
  {
    var top := Top(frames, f);
    assert forall k :: 0 <= k < |frames| - 1 ==> top[k] == frames[k];
  }

  /** A level, empty, full and closed: each as long as the one before it. */
  lemma LevelsSize(outer: seq<Frame>, empty: Frame, f: Frame)
    requires FramesOk(outer) && TakesValue(outer[|outer| - 1])
    requires !KeyPending(f) && empty.InArr? == f.InArr? && Body(empty) == []
    ensures var last := outer[|outer| - 1];
            |Text(outer + [empty])| <= |Text(outer + [f])| < |Text(Top(outer, AddTo(last, Closed(f))))|
  {
    var last := outer[|outer| - 1];
    assert (outer + [empty])[..|outer|] == outer && (outer + [f])[..|outer|] == outer;
    hide Text, Body, Render, Lead;
    TextOfTop(outer + [empty]);
    TextOfTop(outer + [f]);
    ValueSize(outer, Closed(f));
    ClosedRenders(f);
  }

  /**
   * Why a tree was not written: it is deeper than the writer, or the sink was gone before, or it
   * does not take the text of the tree in its place.
   */
  ghost predicate Stopped(w: JsonWriter, depth: nat, deep: nat, was: bool, left: nat, goal: seq<Frame>)
    reads w.sink`gone
    requires goal != []
  {
    depth + deep > MAX_DEPTH || w.Refused(was, left, w.Size(goal))
  }

  /** The calls that walk a tree: they write exactly its text, unless the sink goes or it is too deep. */
  method WriteTree(w: JsonWriter, v: Json) returns (ok: bool)
    requires w.Valid() && !w.failed && |w.frames| == w.depth + 1 && TakesValue(w.frames[w.depth]) && IntsFit(v)
    modifies w, w.sink, w.sink.buf
    ensures w.Valid() && ok == !w.failed
    ensures ok ==> |w.frames| == w.depth + 1 && w.depth == old(w.depth) && w.frames == Top(old(w.frames), AddTo(old(w.frames)[old(w.depth)], v))
    ensures ok ==> w.sink.Left() >= old(w.sink.Left()) && w.sink.gone == old(w.sink.gone)
    ensures !ok ==> Stopped(w, old(w.depth), Depth(v), old(w.sink.gone), old(w.sink.Left()),
                            Top(old(w.frames), AddTo(old(w.frames)[old(w.depth)], v)))
    decreases v, 0
  {
    hide JsonWriter.Valid, Text, Body, Render, Lead, Sink.Valid, Sink.Left, FramesOk, Join, JoinMembers;
    match v {
      case Null => ok := w.Null();
      case Bool(b) => ok := w.Bool(b);
      case Int(n) => ok := w.Int(n);
      case Str(s) => ok := w.String(s);
      case Arr(items) => ok := WriteArr(w, items);
      case Obj(members) => ok := WriteObj(w, members);
    }
  }

  method WriteArr(w: JsonWriter, items: Items) returns (ok: bool)
    requires w.Valid() && !w.failed && |w.frames| == w.depth + 1 && TakesValue(w.frames[w.depth]) && ItemsFit(items)
    modifies w, w.sink, w.sink.buf
    ensures w.Valid() && ok == !w.failed
    ensures ok ==> |w.frames| == w.depth + 1 && w.depth == old(w.depth) && w.frames == Top(old(w.frames), AddTo(old(w.frames)[old(w.depth)], Arr(items)))
    ensures ok ==> w.sink.Left() >= old(w.sink.Left()) && w.sink.gone == old(w.sink.gone)
    ensures !ok ==> Stopped(w, old(w.depth), 1 + DepthItems(items), old(w.sink.gone), old(w.sink.Left()),
                            Top(old(w.frames), AddTo(old(w.frames)[old(w.depth)], Arr(items))))
    decreases items, 1
  {
    hide JsonWriter.Valid, AddTo, Text, Body, Render, Lead, Sink.Valid, Sink.Left, FramesOk, Join, JoinMembers, Concat, ConcatMembers;
    ghost var outer := w.frames;
    FramesAre(w);
    EmptyBody();
    assert NewLevel(false) == InArr(NoItems);
    LevelsSize(outer, InArr(NoItems), InArr(items));
    ok := w.Open(false);
    if !ok {
      return;
    }
    ConcatNothing(items);
    TopAfter(outer, InArr(NoItems), InArr(items));
    ok := WriteItems(w, items);
    if !ok {
      return;
    }
    ok := w.End();
  }

  /** A level pushed, changed and closed again is only what the one below it becomes. */
  lemma TopAfter(outer: seq<Frame>, f: Frame, g: Frame)
    requires outer != []
    ensures var frames := outer + [f]; var n := |outer|;
      && frames[n] == f && |Top(frames, g)| == n + 1 && Top(frames, g)[n] == g && Top(frames, g)[..n] == outer && Top(frames, g)[n - 1] == outer[n - 1]
  {
    assert (outer + [f])[..|outer|] == outer;
  }

  method WriteItems(w: JsonWriter, items: Items) returns (ok: bool)
    requires w.Valid() && !w.failed && |w.frames| == w.depth + 1 && w.frames[w.depth].InArr? && ItemsFit(items)
    modifies w, w.sink, w.sink.buf
    ensures w.Valid() && ok == !w.failed
    ensures ok ==> |w.frames| == w.depth + 1 && w.depth == old(w.depth)
    ensures ok ==> w.frames == Top(old(w.frames), InArr(Concat(old(w.frames)[old(w.depth)].items, items)))
    ensures ok ==> w.sink.Left() >= old(w.sink.Left()) && w.sink.gone == old(w.sink.gone)
    ensures !ok ==> Stopped(w, old(w.depth), DepthItems(items), old(w.sink.gone), old(w.sink.Left()),
                            Top(old(w.frames), InArr(Concat(old(w.frames)[old(w.depth)].items, items))))
    decreases items, 0
  {
    hide JsonWriter.Valid, Text, Body, Render, Lead, Sink.Valid, Sink.Left, FramesOk, Join, JoinMembers;
    if items.NoItems? {
      assert Top(w.frames, w.frames[w.depth]) == w.frames;
      return true;
    }
    ghost var f := w.frames[w.depth];
    FramesAre(w);
    TopTwice(w.frames, AddTo(f, items.v));
    FramesStay(w.frames, AddTo(f, items.v));
    ItemsSize(Top(w.frames, AddTo(f, items.v)), items.more);
    ok := WriteTree(w, items.v);
    if !ok {
      return;
    }
    ok := WriteItems(w, items.more);
  }

  lemma TopTwice(frames: seq<Frame>, f: Frame)
    requires frames != []
    ensures |Top(frames, f)| == |frames| && Top(frames, f)[|frames| - 1] == f
    ensures forall g :: Top(Top(frames, f), g) == Top(frames, g)
  {
    assert Top(frames, f)[..|frames| - 1] == frames[..|frames| - 1];
  }

  method WriteObj(w: JsonWriter, members: Members) returns (ok: bool)
    requires w.Valid() && !w.failed && |w.frames| == w.depth + 1 && TakesValue(w.frames[w.depth]) && MembersFit(members)
    modifies w, w.sink, w.sink.buf
    ensures w.Valid() && ok == !w.failed
    ensures ok ==> |w.frames| == w.depth + 1 && w.depth == old(w.depth) && w.frames == Top(old(w.frames), AddTo(old(w.frames)[old(w.depth)], Obj(members)))
    ensures ok ==> w.sink.Left() >= old(w.sink.Left()) && w.sink.gone == old(w.sink.gone)
    ensures !ok ==> Stopped(w, old(w.depth), 1 + DepthMembers(members), old(w.sink.gone), old(w.sink.Left()),
                            Top(old(w.frames), AddTo(old(w.frames)[old(w.depth)], Obj(members))))
    decreases members, 1
  {
    hide JsonWriter.Valid, AddTo, Text, Body, Render, Lead, Sink.Valid, Sink.Left, FramesOk, Join, JoinMembers, Concat, ConcatMembers;
    ghost var outer := w.frames;
    FramesAre(w);
    EmptyBody();
    assert NewLevel(true) == InObj(NoMembers, None);
    LevelsSize(outer, InObj(NoMembers, None), InObj(members, None));
    ok := w.Open(true);
    if !ok {
      return;
    }
    ConcatNoMembers(members);
    TopAfter(outer, InObj(NoMembers, None), InObj(members, None));
    ok := WriteMembers(w, members);
    if !ok {
      return;
    }
    ok := w.End();
  }

  method WriteMembers(w: JsonWriter, members: Members) returns (ok: bool)
    requires w.Valid() && !w.failed && |w.frames| == w.depth + 1 && w.frames[w.depth].InObj? && w.frames[w.depth].key.None? && MembersFit(members)
    modifies w, w.sink, w.sink.buf
    ensures w.Valid() && ok == !w.failed
    ensures ok ==> |w.frames| == w.depth + 1 && w.depth == old(w.depth)
    ensures ok ==> w.frames == Top(old(w.frames), InObj(ConcatMembers(old(w.frames)[old(w.depth)].members, members), None))
    ensures ok ==> w.sink.Left() >= old(w.sink.Left()) && w.sink.gone == old(w.sink.gone)
    ensures !ok ==> Stopped(w, old(w.depth), DepthMembers(members), old(w.sink.gone), old(w.sink.Left()),
                            Top(old(w.frames), InObj(ConcatMembers(old(w.frames)[old(w.depth)].members, members), None)))
    decreases members, 0
  {
    hide JsonWriter.Valid, Text, Body, Render, Lead, Sink.Valid, Sink.Left, FramesOk, Join, JoinMembers;
    if members.NoMembers? {
      assert Top(w.frames, w.frames[w.depth]) == w.frames;
      return true;
    }
    ghost var start := w.frames;
    ghost var f := start[w.depth];
    ghost var g := AddTo(InObj(f.members, Some(members.key)), members.v);
    FramesAre(w);
    MemberSize(start, members.key, members.v);
    TopTwice(start, InObj(f.members, Some(members.key)));
    TopTwice(start, g);
    FramesStay(start, g);
    MembersSize(Top(start, g), members.more);
    ok := w.Key(members.key);
    if !ok {
      return;
    }
    ok := WriteTree(w, members.v);
    if !ok {
      return;
    }
    ok := WriteMembers(w, members.more);
  }

  lemma FramesAre(w: JsonWriter)
    requires w.Valid() && !w.failed
    ensures FramesOk(w.frames) && |w.frames| == w.depth + 1
  {
  }

  /**
   * Round trip: a tree of no more levels than the writer has reads back as the tree, and the bytes
   * are the same for every sink. Memory takes it exactly when it is as large as the text; a slab of
   * any size takes it when as many sendings succeed as the text has bytes.
   */
  method RoundTrip(sink: Sink, v: Json) returns (ok: bool)
    requires sink.Valid() && sink.Out() == [] && IntsFit(v) && Depth(v) <= MAX_DEPTH
    modifies sink, sink.buf
    ensures sink.Valid() && (!ok ==> sink.gone)
    ensures ok ==> sink.Out() == Render(v) && ReadValue(sink.Out()) == Got(v, [])
    ensures !old(sink.gone) && sink.toMem ==> (ok <==> |Render(v)| <= sink.buf.Length)
    ensures !old(sink.gone) && !sink.toMem && Trues(old(sink.flushes)) >= |Render(v)| ==> ok
  {
    hide JsonWriter.Valid, ReadValue, Render;
    sink.OutLength();
    var w := new JsonWriter(sink);
    OneValue(v);
    var written := WriteTree(w, v);
    ok := Finished(w);
    if !written {
      ok := false;
      return;
    }
    assert w.frames == [InArr(Item(v, NoItems))];
    ReadsBack(v, []);
    assert Render(v) + [] == Render(v);
    sink.OutLength();
  }

  lemma OneValue(v: Json)
    ensures Top([InArr(NoItems)], AddTo(InArr(NoItems), v)) == [InArr(Item(v, NoItems))]
    ensures Text([InArr(Item(v, NoItems))]) == Render(v)
  {
  }

  // Any calls.

  datatype Call = PutNull | PutBool(b: bool) | PutInt(n: int) | PutText(s: bytes) | PutKey(name: bytes) | OpenLevel(braces: bool) | EndLevel

  /** The levels after a call, unless it is one that may not come here. */
  function AfterCall(frames: seq<Frame>, c: Call): Option<seq<Frame>>
    requires frames != []
  {
    var f := frames[|frames| - 1];
    match c
    case PutKey(name) =>
      if f.InObj? && f.key.None? then Some(Top(frames, InObj(f.members, Some(name)))) else None
    case OpenLevel(braces) =>
      if |frames| <= MAX_DEPTH && TakesValue(f) then Some(frames + [NewLevel(braces)]) else None
    case EndLevel =>
      if |frames| > 1 && !KeyPending(f) then Some(Top(frames[..|frames| - 1], AddTo(frames[|frames| - 2], Closed(f)))) else None
    case _ =>
      if TakesValue(f) then Some(Top(frames, AddTo(f, ValueOf(c)))) else None
  }

  function ValueOf(c: Call): Json {
    match c
    case PutBool(b) => Bool(b)
    case PutInt(n) => Int(n)
    case PutText(s) => Str(s)
    case _ => Null
  }

  /** The levels after a list of calls, if all of them may come. */
  function AfterCalls(calls: seq<Call>): (frames: Option<seq<Frame>>)
    ensures frames.Some? ==> frames.value != []
  {
    if calls == [] then Some([InArr(NoItems)])
    else match AfterCalls(calls[..|calls| - 1])
      case None => None
      case Some(frames) => AfterCall(frames, calls[|calls| - 1])
  }

  predicate IsValue(c: Call) {
    !c.PutKey? && !c.OpenLevel? && !c.EndLevel?
  }

  predicate IntFits(c: Call) {
    c.PutInt? ==> -0x8000_0000_0000_0000 <= c.n <= 0xFFFF_FFFF_FFFF_FFFF
  }

  method PerformValue(w: JsonWriter, c: Call) returns (ok: bool)
    requires w.Valid() && !w.failed && w.frames != [] && IsValue(c) && IntFits(c)
    modifies w, w.sink, w.sink.buf
    ensures w.Valid() && ok == !w.failed
    ensures ok ==> w.frames == Top(old(w.frames), AddTo(old(w.frames)[|old(w.frames)| - 1], ValueOf(c)))
    ensures ok ==> TakesValue(old(w.frames)[|old(w.frames)| - 1])
    ensures !ok ==> w.sink.gone || !TakesValue(old(w.frames)[|old(w.frames)| - 1])
  {
    hide JsonWriter.Valid, AddTo, Text, FramesOk, Sink.Left, Closed, Top, TakesValue, Render;
    match c {
      case PutNull => ok := w.Null();
      case PutBool(b) => ok := w.Bool(b);
      case PutInt(n) => ok := w.Int(n);
      case PutText(t) => ok := w.String(t);
    }
  }

  method Perform(w: JsonWriter, c: Call) returns (ok: bool)
    requires w.Valid() && !w.failed && w.frames != [] && IntFits(c)
    modifies w, w.sink, w.sink.buf
    ensures w.Valid() && ok == !w.failed
    ensures ok ==> AfterCall(old(w.frames), c) == Some(w.frames) && w.frames != []
    ensures !ok ==> w.sink.gone || AfterCall(old(w.frames), c) == None
  {
    FramesAre(w);
    hide JsonWriter.Valid, AddTo, Text, FramesOk, Sink.Left, Closed, Render, Lead;
    if IsValue(c) {
      ok := PerformValue(w, c);
    } else {
      ok := PerformLevel(w, c);
    }
  }

  method PerformLevel(w: JsonWriter, c: Call) returns (ok: bool)
    requires w.Valid() && !w.failed && |w.frames| == w.depth + 1 && !IsValue(c)
    modifies w, w.sink, w.sink.buf
    ensures w.Valid() && ok == !w.failed
    ensures ok ==> AfterCall(old(w.frames), c) == Some(w.frames) && w.frames != []
    ensures !ok ==> w.sink.gone || AfterCall(old(w.frames), c) == None
  {
    hide JsonWriter.Valid, AddTo, Text, FramesOk, Sink.Left, Closed, Render, Lead, KeyText, Body;
    match c {
      case PutKey(name) => ok := w.Key(name);
      case OpenLevel(braces) => ok := w.Open(braces);
      case EndLevel => ok := w.End();
    }
    if ok {
      SomeFrames(w);
    }
  }

  lemma SomeFrames(w: JsonWriter)
    requires w.Valid() && !w.failed
    ensures w.frames != []
  {
  }

  /**
   * Any calls on a new writer. None of them fails exactly as long as each may come where it does and
   * the sink lasts; and then what is written is the start of a list of values between commas, the whole
   * list once all levels are closed: an independent reader reads it back, in brackets, as an array.
   */
  method AnyCalls(sink: Sink, calls: seq<Call>) returns (ok: bool, ghost items: Items, ghost end: bytes)
    requires sink.Valid() && sink.Out() == []
    requires forall c :: c in calls ==> IntFits(c)
    modifies sink, sink.buf
    ensures sink.Valid() && (!ok ==> sink.gone || AfterCalls(calls) == None)
    ensures ok ==> AfterCalls(calls).Some?
    ensures ok ==> sink.Out() + end == Join(items) && ReadValue([91] + (sink.Out() + end) + [93]) == Got(Arr(items), [])
    ensures ok && |AfterCalls(calls).value| == 1 ==> end == []
  {
    hide *;
    items, end := NoItems, [];
    var w := new JsonWriter(sink);
    NoCalls();
    ok := true;
    assert calls[..0] == [];
    for i := 0 to |calls|
      invariant w.Valid() && !w.failed && w.sink == sink && w.base == [] && w.frames != []
      invariant AfterCalls(calls[..i]) == Some(w.frames)
    {
      OneCall(calls, i);
      ok := Perform(w, calls[i]);
      if !ok {
        SinkOf(w);
        return;
      }
    }
    assert calls[..|calls|] == calls;
    FramesAre(w);
    SinkOf(w);
    items, end := StartsAList(w.frames);
    ListReads(items);
  }

  lemma NoCalls()
    ensures AfterCalls([]) == Some([InArr(NoItems)])
  {
  }

  lemma OneCall(calls: seq<Call>, i: nat)
    requires i < |calls| && AfterCalls(calls[..i]).Some?
    ensures AfterCalls(calls[..i + 1]) == AfterCall(AfterCalls(calls[..i]).value, calls[i])
    ensures AfterCalls(calls[..i + 1]) == None ==> AfterCalls(calls) == None
  {
    assert calls[..i + 1][..i] == calls[..i];
    if AfterCalls(calls[..i + 1]) == None {
      NeverAfter(calls, i + 1);
    }
  }

  lemma {:induction false} NeverAfter(calls: seq<Call>, k: nat)
    requires k <= |calls| && AfterCalls(calls[..k]) == None
    ensures AfterCalls(calls) == None
  {
    if k < |calls| {
      assert calls[..|calls| - 1][..k] == calls[..k];
      NeverAfter(calls[..|calls| - 1], k);
    } else {
      assert calls[..k] == calls;
    }
  }

  lemma SinkOf(w: JsonWriter)
    requires w.Valid()
    ensures w.sink.Valid()
    ensures !w.failed && w.base == [] ==> w.sink.Out() == Text(w.frames)
  {
    if !w.failed && w.base == [] {
      assert [] + Text(w.frames) + [] == Text(w.frames);
    }
  }

  lemma ListReads(items: Items)
    ensures ReadValue([91] + Join(items) + [93]) == Got(Arr(items), [])
  {
    hide ReadValue, Join;
    ReadsBack(Arr(items), []);
    assert Render(Arr(items)) + [] == [91] + Join(items) + [93];
  }

  method Finished(w: JsonWriter) returns (ok: bool)
    requires w.Valid()
    ensures w.sink.Valid() && (ok <==> !w.failed && w.depth == 0)
    ensures ok ==> w.frames != [] && w.frames[0].InArr? && w.sink.Out() == w.base + Join(w.frames[0].items)
  {
    ok := w.Done();
  }
}
