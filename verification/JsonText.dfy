/**
 * JSON as text: values as trees, what the writer of lib/json/json.c puts down for each, and a
 * reader of the grammar of RFC 8259 that knows nothing of the writer.
 */
module JsonText {
  import opened Bytes
  import opened ReplyHead

  datatype Json = Null | Bool(b: bool) | Int(v: int) | Str(s: bytes) | Arr(items: Items) | Obj(members: Members)
  datatype Items = NoItems | Item(v: Json, more: Items)
  datatype Members = NoMembers | Member(key: bytes, v: Json, more: Members)

  const QUOTE: byte := 34
  const BACKSLASH: byte := 92
  const COMMA: byte := 44
  const COLON: byte := 58
  const TRUE: bytes := [116, 114, 117, 101]
  const FALSE: bytes := [102, 97, 108, 115, 101]
  const NULL: bytes := [110, 117, 108, 108]

  // What is written.

  predicate NeedsEscape(c: byte) {
    c < 0x20 || c == QUOTE || c == BACKSLASH
  }

  /** One byte of a string. */
  function EscapeByte(c: byte): (e: bytes)
    ensures e != []
  {
    if c == 34 then [92, 34]
    else if c == 92 then [92, 92]
    else if c == 10 then [92, 110]
    else if c == 13 then [92, 114]
    else if c == 9 then [92, 116]
    else if c == 8 then [92, 98]
    else if c == 12 then [92, 102]
    else if c < 0x20 then [92, 117, 48, 48, HexChar(c / 16), HexChar(c % 16)]
    else [c]
  }

  function Escape(s: bytes): bytes {
    if s == [] then [] else EscapeByte(s[0]) + Escape(s[1..])
  }

  function Quoted(s: bytes): bytes {
    [QUOTE] + Escape(s) + [QUOTE]
  }

  function IntText(v: int): bytes {
    if v < 0 then [45] + Decimal(-v) else Decimal(v)
  }

  function Render(v: Json): bytes {
    match v
    case Null => NULL
    case Bool(b) => if b then TRUE else FALSE
    case Int(n) => IntText(n)
    case Str(s) => Quoted(s)
    case Arr(items) => [91] + Join(items) + [93]
    case Obj(members) => [123] + JoinMembers(members) + [125]
  }

  function Join(items: Items): bytes {
    match items
    case NoItems => []
    case Item(v, NoItems) => Render(v)
    case Item(v, more) => Render(v) + [COMMA] + Join(more)
  }

  function MemberText(key: bytes, v: Json): bytes {
    Quoted(key) + [COLON] + Render(v)
  }

  function JoinMembers(members: Members): bytes {
    match members
    case NoMembers => []
    case Member(key, v, NoMembers) => Quoted(key) + [COLON] + Render(v)
    case Member(key, v, more) => Quoted(key) + [COLON] + Render(v) + [COMMA] + JoinMembers(more)
  }

  /** How deep arrays and objects nest. */
  function Depth(v: Json): nat {
    match v
    case Arr(items) => 1 + DepthItems(items)
    case Obj(members) => 1 + DepthMembers(members)
    case _ => 0
  }

  function DepthItems(items: Items): nat {
    match items
    case NoItems => 0
    case Item(v, more) => if Depth(v) > DepthItems(more) then Depth(v) else DepthItems(more)
  }

  function DepthMembers(members: Members): nat {
    match members
    case NoMembers => 0
    case Member(_, v, more) => if Depth(v) > DepthMembers(more) then Depth(v) else DepthMembers(more)
  }

  // What is read.

  datatype Reading<T> = Got(value: T, rest: bytes) | Failed

  predicate Space(c: byte) {
    c == 32 || c == 9 || c == 10 || c == 13
  }

  function Skip(s: bytes): (r: bytes)
    ensures |r| <= |s|
  {
    if s != [] && Space(s[0]) then Skip(s[1..]) else s
  }

  /** The byte a hex digit stands for, or -1. */
  function HexVal(c: byte): (d: int)
    ensures -1 <= d < 16
  {
    if 48 <= c <= 57 then c - 48 else if 97 <= c <= 102 then c - 87 else if 65 <= c <= 70 then c - 55 else -1
  }

  /** One character of a string, section 7 of RFC 8259; of the \u escapes, the ones for ASCII. */
  function ReadChar(s: bytes): (r: Reading<byte>)
    ensures r.Got? ==> |r.rest| < |s|
  {
    if s == [] || s[0] < 0x20 || s[0] == QUOTE then Failed
    else if s[0] != BACKSLASH then Got(s[0], s[1..])
    else if |s| < 2 then Failed
    else if s[1] in {34, 92, 47} then Got(s[1], s[2..])
    else if s[1] == 98 then Got(8, s[2..])
    else if s[1] == 102 then Got(12, s[2..])
    else if s[1] == 110 then Got(10, s[2..])
    else if s[1] == 114 then Got(13, s[2..])
    else if s[1] == 116 then Got(9, s[2..])
    else if s[1] == 117 && |s| >= 6 && s[2] == 48 && s[3] == 48 && 0 <= HexVal(s[4]) < 8 && HexVal(s[5]) >= 0 then
      Got(HexVal(s[4]) * 16 + HexVal(s[5]), s[6..])
    else Failed
  }

  /** The rest of a string, up to its closing quote. */
  function ReadChars(s: bytes): (r: Reading<bytes>)
    ensures r.Got? ==> |r.rest| < |s|
    decreases |s|
  {
    if s == [] then Failed
    else if s[0] == QUOTE then Got([], s[1..])
    else match ReadChar(s)
      case Failed => Failed
      case Got(c, rest) =>
        match ReadChars(rest)
        case Failed => Failed
        case Got(more, end) => Got([c] + more, end)
  }

  function Digits(s: bytes): (n: nat)
    ensures n <= |s|
    ensures forall k :: 0 <= k < n ==> 48 <= s[k] <= 57
    ensures n < |s| ==> !(48 <= s[n] <= 57)
  {
    if s == [] || !(48 <= s[0] <= 57) then 0 else 1 + Digits(s[1..])
  }

  /** Digits without a zero in front, section 6 of RFC 8259; no fraction and no exponent. */
  function ReadNat(s: bytes): (r: Reading<nat>)
    ensures r.Got? ==> |r.rest| < |s|
  {
    var n := Digits(s);
    if n == 0 || (s[0] == 48 && n > 1) then Failed
    else match DecimalValue(s[..n])
      case Some(v) => Got(v, s[n..])
      case None => Failed
  }

  function ReadValue(s: bytes): (r: Reading<Json>)
    ensures r.Got? ==> |r.rest| < |s|
    decreases |s|, 2
  {
    var t := Skip(s);
    if t == [] then Failed
    else if t[0] == QUOTE then
      match ReadChars(t[1..]) { case Failed => Failed case Got(c, rest) => Got(Str(c), rest) }
    else if t[0] == 45 then
      match ReadNat(t[1..]) { case Failed => Failed case Got(n, rest) => var m: int := n; Got(Int(-m), rest) }
    else if 48 <= t[0] <= 57 then
      match ReadNat(t) { case Failed => Failed case Got(n, rest) => Got(Int(n), rest) }
    else if t[0] == 91 then
      if Skip(t[1..]) != [] && Skip(t[1..])[0] == 93 then Got(Arr(NoItems), Skip(t[1..])[1..])
      else match ReadItems(t[1..]) { case Failed => Failed case Got(items, rest) => Got(Arr(items), rest) }
    else if t[0] == 123 then
      if Skip(t[1..]) != [] && Skip(t[1..])[0] == 125 then Got(Obj(NoMembers), Skip(t[1..])[1..])
      else match ReadMembers(t[1..]) { case Failed => Failed case Got(members, rest) => Got(Obj(members), rest) }
    else if NULL <= t then Got(Null, t[4..])
    else if TRUE <= t then Got(Bool(true), t[4..])
    else if FALSE <= t then Got(Bool(false), t[5..])
    else Failed
  }

  /** Elements up to the bracket that closes them. */
  function ReadItems(s: bytes): (r: Reading<Items>)
    ensures r.Got? ==> |r.rest| < |s|
    decreases |s|, 3
  {
    match ReadValue(s)
    case Failed => Failed
    case Got(v, rest) =>
      var t := Skip(rest);
      if t == [] then Failed
      else if t[0] == 93 then Got(Item(v, NoItems), t[1..])
      else if t[0] != COMMA then Failed
      else match ReadItems(t[1..])
        case Failed => Failed
        case Got(more, end) => Got(Item(v, more), end)
  }

  function ReadMembers(s: bytes): (r: Reading<Members>)
    ensures r.Got? ==> |r.rest| < |s|
    decreases |s|, 3
  {
    var k := Skip(s);
    if k == [] || k[0] != QUOTE then Failed
    else match ReadChars(k[1..])
      case Failed => Failed
      case Got(key, rest) =>
        var c := Skip(rest);
        if c == [] || c[0] != COLON then Failed
        else match ReadValue(c[1..])
          case Failed => Failed
          case Got(v, behind) =>
            var t := Skip(behind);
            if t == [] then Failed
            else if t[0] == 125 then Got(Member(key, v, NoMembers), t[1..])
            else if t[0] != COMMA then Failed
            else match ReadMembers(t[1..])
              case Failed => Failed
              case Got(more, end) => Got(Member(key, v, more), end)
  }

  // The round trip.

  /** What may follow a value: nothing, a comma, or a closing bracket. */
  predicate Follows(rest: bytes) {
    rest == [] || rest[0] in {44, 93, 125}
  }

  lemma EscapedCharReads(c: byte, rest: bytes)
    ensures EscapeByte(c)[0] != QUOTE
    ensures ReadChar(EscapeByte(c) + rest) == Got(c, rest)
  {
    var e := EscapeByte(c);
    assert (e + rest)[|e|..] == rest;
  }

  lemma {:induction false} EscapeReads(s: bytes, rest: bytes)
    ensures ReadChars(Escape(s) + [QUOTE] + rest) == Got(s, rest)
  {
    hide ReadChar, EscapeByte;
    if s == [] {
      assert [] + [QUOTE] + rest == [QUOTE] + rest;
      assert ([QUOTE] + rest)[1..] == rest;
    } else {
      var tail := Escape(s[1..]) + [QUOTE] + rest;
      assert Escape(s) + [QUOTE] + rest == EscapeByte(s[0]) + tail;
      EscapedCharReads(s[0], tail);
      EscapeReads(s[1..], rest);
      assert s == [s[0]] + s[1..];
    }
  }

  lemma {:induction false} DigitsAll(s: bytes, rest: bytes)
    requires forall k :: 0 <= k < |s| ==> 48 <= s[k] <= 57
    requires rest == [] || !(48 <= rest[0] <= 57)
    ensures Digits(s + rest) == |s|
  {
    if s == [] {
      assert s + rest == rest;
    } else {
      assert (s + rest)[1..] == s[1..] + rest;
      DigitsAll(s[1..], rest);
    }
  }

  lemma {:induction false} DecimalDigits(v: nat)
    ensures forall k :: 0 <= k < |Decimal(v)| ==> 48 <= Decimal(v)[k] <= 57
    ensures v > 0 ==> Decimal(v)[0] != 48
    ensures v == 0 ==> Decimal(v) == [48]
  {
    if v >= 10 {
      DecimalDigits(v / 10);
    }
  }

  lemma NatReads(v: nat, rest: bytes)
    requires rest == [] || !(48 <= rest[0] <= 57)
    ensures ReadNat(Decimal(v) + rest) == Got(v, rest)
  {
    var d := Decimal(v);
    DecimalDigits(v);
    DecimalReads(v);
    DigitsAll(d, rest);
    assert (d + rest)[..|d|] == d && (d + rest)[|d|..] == rest;
  }

  lemma NoSpace(s: bytes)
    requires s != [] && !Space(s[0])
    ensures Skip(s) == s
  {
  }

  /** A number's text reads back. */
  lemma IntReads(v: int, rest: bytes)
    requires Follows(rest)
    ensures ReadValue(IntText(v) + rest) == Got(Int(v), rest)
  {
    hide ReadNat, Decimal;
    var s := IntText(v) + rest;
    var d := Decimal(if v < 0 then -v else v) + rest;
    FirstDigit(if v < 0 then -v else v);
    NatReads(if v < 0 then -v else v, rest);
    NoSpace(s);
    if v < 0 {
      assert s[1..] == d;
    }
  }

  lemma FirstDigit(v: nat)
    ensures 48 <= Decimal(v)[0] <= 57
  {
    DecimalDigits(v);
  }

  lemma StrReads(c: bytes, rest: bytes)
    ensures ReadValue(Quoted(c) + rest) == Got(Str(c), rest)
  {
    hide ReadChars;
    var s := Quoted(c) + rest;
    NoSpace(s);
    assert s[1..] == Escape(c) + [QUOTE] + rest;
    EscapeReads(c, rest);
  }

  lemma WordReads(word: bytes, v: Json, rest: bytes)
    requires (word == NULL && v == Null) || (word == TRUE && v == Bool(true)) || (word == FALSE && v == Bool(false))
    ensures ReadValue(word + rest) == Got(v, rest)
  {
    var s := word + rest;
    NoSpace(s);
    assert word <= s && s[|word|..] == rest;
    assert word == TRUE ==> s[0] == 116;
    assert word == FALSE ==> s[0] == 102;
    assert word == NULL ==> s[0] == 110;
  }

  /** What a value's text starts with is not white space, nor a closing bracket. */
  lemma RenderStarts(v: Json)
    ensures Render(v) != [] && !Space(Render(v)[0]) && Render(v)[0] !in {93, 125, 44}
  {
    if v.Int? && v.v >= 0 {
      DecimalDigits(v.v);
    }
  }

  /** Round trip: a value's text, whatever may follow it, reads back as the value, and no more is read. */
  lemma {:induction false} ReadsBack(v: Json, rest: bytes)
    requires Follows(rest)
    ensures ReadValue(Render(v) + rest) == Got(v, rest)
    decreases v, 0
  {
    hide ReadValue, ReadItems, ReadMembers;
    match v {
      case Null => WordReads(NULL, v, rest);
      case Bool(b) => WordReads(if b then TRUE else FALSE, v, rest);
      case Int(n) => IntReads(n, rest);
      case Str(c) => StrReads(c, rest);
      case Arr(items) =>
        if items.NoItems? {
          EmptyArrReads(rest);
        } else {
          ItemsReadBack(items, rest);
          ArrReads(items, rest);
        }
      case Obj(members) =>
        if members.NoMembers? {
          EmptyObjReads(rest);
        } else {
          MembersReadBack(members, rest);
          ObjReads(members, rest);
        }
    }
  }

  lemma EmptyArrReads(rest: bytes)
    ensures ReadValue(Render(Arr(NoItems)) + rest) == Got(Arr(NoItems), rest)
  {
    var s := Render(Arr(NoItems)) + rest;
    assert s == [91, 93] + rest;
    NoSpace(s);
    assert s[1..] == [93] + rest;
    NoSpace(s[1..]);
    assert s[1..][1..] == rest;
  }

  lemma EmptyObjReads(rest: bytes)
    ensures ReadValue(Render(Obj(NoMembers)) + rest) == Got(Obj(NoMembers), rest)
  {
    var s := Render(Obj(NoMembers)) + rest;
    assert s == [123, 125] + rest;
    NoSpace(s);
    assert s[1..] == [125] + rest;
    NoSpace(s[1..]);
    assert s[1..][1..] == rest;
  }

  lemma ArrReads(items: Items, rest: bytes)
    requires items.Item? && ReadItems(Join(items) + [93] + rest) == Got(items, rest)
    ensures ReadValue(Render(Arr(items)) + rest) == Got(Arr(items), rest)
  {
    hide ReadItems, Join;
    var s := Render(Arr(items)) + rest;
    NoSpace(s);
    assert s[1..] == Join(items) + [93] + rest;
    JoinStarts(items);
    NoSpace(s[1..]);
  }

  lemma JoinStarts(items: Items)
    requires items.Item?
    ensures Join(items) != [] && !Space(Join(items)[0]) && Join(items)[0] !in {93, 125, 44}
  {
    RenderStarts(items.v);
  }

  lemma ObjReads(members: Members, rest: bytes)
    requires members.Member? && ReadMembers(JoinMembers(members) + [125] + rest) == Got(members, rest)
    ensures ReadValue(Render(Obj(members)) + rest) == Got(Obj(members), rest)
  {
    hide ReadMembers, JoinMembers;
    var s := Render(Obj(members)) + rest;
    NoSpace(s);
    assert s[1..] == JoinMembers(members) + [125] + rest;
    MembersStart(members);
    NoSpace(s[1..]);
  }

  lemma MembersStart(members: Members)
    requires members.Member?
    ensures JoinMembers(members) != [] && JoinMembers(members)[0] == QUOTE
  {
  }

  lemma {:induction false} ItemsReadBack(items: Items, rest: bytes)
    requires items.Item?
    ensures ReadItems(Join(items) + [93] + rest) == Got(items, rest)
    decreases items, 1
  {
    hide ReadValue, ReadItems;
    var tail := [93] + rest;
    if items.more.NoItems? {
      ReadsBack(items.v, tail);
      LastItem(items.v, rest);
    } else {
      ItemsReadBack(items.more, rest);
      var behind := Join(items.more) + [93] + rest;
      ReadsBack(items.v, [COMMA] + behind);
      MoreItems(items.v, items.more, behind, rest);
      assert Join(items) + [93] + rest == Render(items.v) + ([COMMA] + behind);
    }
    assert Join(items) + [93] + rest == Join(items) + tail;
  }

  lemma LastItem(v: Json, rest: bytes)
    requires ReadValue(Render(v) + ([93] + rest)) == Got(v, [93] + rest)
    ensures ReadItems(Render(v) + ([93] + rest)) == Got(Item(v, NoItems), rest)
  {
    hide ReadValue, Render;
    NoSpace([93] + rest);
    assert ([93] + rest)[1..] == rest;
  }

  lemma MoreItems(v: Json, more: Items, behind: bytes, rest: bytes)
    requires ReadValue(Render(v) + ([COMMA] + behind)) == Got(v, [COMMA] + behind)
    requires ReadItems(behind) == Got(more, rest)
    ensures ReadItems(Render(v) + ([COMMA] + behind)) == Got(Item(v, more), rest)
  {
    hide ReadValue, Render;
    NoSpace([COMMA] + behind);
    assert ([COMMA] + behind)[1..] == behind;
  }

  lemma {:induction false} MembersReadBack(members: Members, rest: bytes)
    requires members.Member?
    ensures ReadMembers(JoinMembers(members) + [125] + rest) == Got(members, rest)
    decreases members, 1
  {
    hide ReadValue, ReadMembers, Render, Quoted, JoinMembers;
    MembersParts(members, rest);
    if members.more.NoMembers? {
      ReadsBack(members.v, [125] + rest);
      LastMember(members.key, members.v, rest);
    } else {
      MembersReadBack(members.more, rest);
      var behind := JoinMembers(members.more) + [125] + rest;
      ReadsBack(members.v, [COMMA] + behind);
      NextMember(members.key, members.v, members.more, behind, rest);
    }
  }

  lemma MembersParts(members: Members, rest: bytes)
    requires members.Member?
    ensures JoinMembers(members) + [125] + rest ==
      Quoted(members.key) + ([COLON] + (Render(members.v) +
        (if members.more.NoMembers? then [125] + rest else [COMMA] + (JoinMembers(members.more) + [125] + rest))))
  {
    hide Render, Quoted;
    if members.more.Member? {
      hide JoinMembers;
      FiveParts(members);
    }
  }

  lemma FiveParts(members: Members)
    requires members.Member? && members.more.Member?
    ensures JoinMembers(members) == Quoted(members.key) + [COLON] + Render(members.v) + [COMMA] + JoinMembers(members.more)
  {
    hide Render, Quoted;
  }

  /** A member's key and colon, and where its value starts. */
  lemma OneMember(key: bytes, v: Json, tail: bytes)
    ensures var s := Quoted(key) + ([COLON] + (Render(v) + tail));
      && Skip(s) == s && s != [] && s[0] == QUOTE
      && ReadChars(s[1..]) == Got(key, [COLON] + (Render(v) + tail))
      && Skip([COLON] + (Render(v) + tail)) == [COLON] + (Render(v) + tail)
      && ([COLON] + (Render(v) + tail))[1..] == Render(v) + tail
  {
    hide Render;
    var behind := [COLON] + (Render(v) + tail);
    var s := Quoted(key) + behind;
    NoSpace(s);
    NoSpace(behind);
    assert s[1..] == Escape(key) + [QUOTE] + behind;
    EscapeReads(key, behind);
  }

  lemma LastMember(key: bytes, v: Json, rest: bytes)
    requires ReadValue(Render(v) + ([125] + rest)) == Got(v, [125] + rest)
    ensures ReadMembers(Quoted(key) + ([COLON] + (Render(v) + ([125] + rest)))) == Got(Member(key, v, NoMembers), rest)
  {
    hide ReadValue, Render, Quoted, ReadChars;
    OneMember(key, v, [125] + rest);
    NoSpace([125] + rest);
    assert ([125] + rest)[1..] == rest;
  }

  lemma NextMember(key: bytes, v: Json, more: Members, behind: bytes, rest: bytes)
    requires ReadValue(Render(v) + ([COMMA] + behind)) == Got(v, [COMMA] + behind)
    requires ReadMembers(behind) == Got(more, rest)
    ensures ReadMembers(Quoted(key) + ([COLON] + (Render(v) + ([COMMA] + behind)))) == Got(Member(key, v, more), rest)
  {
    hide ReadValue, Render, Quoted, ReadChars;
    OneMember(key, v, [COMMA] + behind);
    NoSpace([COMMA] + behind);
    assert ([COMMA] + behind)[1..] == behind;
  }
}
