/**
 * Routes (lib/http/router.c): the segments of a path, a route's full path out of its groups'
 * prefixes, the tree built by insertion, and the walk that backtracks from static segments to
 * captures.
 */
module Routing {
  import opened Bytes

  const SLASH: byte := 47
  const COLON: byte := 58
  const MAX_CAPTURES: nat := 8
  const SEEN_MAX: nat := 8
  const ALLOW_MAX: nat := 16
  const GET: bytes := [71, 69, 84]
  const HEAD: bytes := [72, 69, 65, 68]

  // Segments.

  function NonEmpty(pieces: seq<bytes>): seq<bytes> {
    if pieces == [] then [] else (if pieces[0] == [] then [] else [pieces[0]]) + NonEmpty(pieces[1..])
  }

  /** The segments of a path: the pieces that are not empty. */
  function Segments(s: bytes): seq<bytes> {
    NonEmpty(Split(s, SLASH))
  }

  lemma NoSegments()
    ensures Segments([]) == []
  {
    var pieces := Split([], SLASH);
    assert pieces[0] == [] && pieces[1..] == [];
    FirstPiece(pieces);
  }

  lemma FirstPiece(pieces: seq<bytes>)
    requires pieces != []
    ensures NonEmpty(pieces) == if pieces[0] == [] then NonEmpty(pieces[1..]) else [pieces[0]] + NonEmpty(pieces[1..])
    ensures NonEmpty([]) == []
  {
  }

  lemma SlashSkips(s: bytes)
    requires s != [] && s[0] == SLASH
    ensures Segments(s) == Segments(s[1..])
  {
    assert Split(s, SLASH)[1..] == Split(s[1..], SLASH);
    assert [] + NonEmpty(Split(s[1..], SLASH)) == NonEmpty(Split(s[1..], SLASH));
  }

  lemma SegmentFirst(p: bytes, s: bytes)
    requires p != [] && (forall k :: 0 <= k < |p| ==> p[k] != SLASH) && (s == [] || s[0] == SLASH)
    ensures Segments(p + s) == [p] + Segments(s)
  {
    SplitPiece(p, s, SLASH);
    var pieces := Split(p + s, SLASH);
    assert pieces[0] == p;
    FirstPiece(pieces);
    if s == [] {
      assert pieces[1..] == [];
      NoSegments();
    } else {
      assert pieces[1..] == Split(s[1..], SLASH);
      SlashSkips(s);
    }
  }

  /** next_segment. */
  method NextSegment(path: bytes, from: nat) returns (ok: bool, seg: bytes, at: nat)
    requires from <= |path|
    ensures from <= at <= |path|
    ensures ok <==> Segments(path[from..]) != []
    ensures ok ==> from < at && seg != [] && Segments(path[from..]) == [seg] + Segments(path[at..])
  {
    hide Segments;
    var p := from;
    while p < |path| && path[p] == SLASH
      invariant from <= p <= |path|
      invariant Segments(path[from..]) == Segments(path[p..])
    {
      SlashSkips(path[p..]);
      assert path[p..][1..] == path[p + 1..];
      p := p + 1;
    }
    if p == |path| {
      NoSegments();
      return false, [], p;
    }
    at := p;
    while at < |path| && path[at] != SLASH
      invariant p <= at <= |path|
      invariant forall k :: p <= k < at ==> path[k] != SLASH
    {
      at := at + 1;
    }
    seg := path[p..at];
    assert path[p..] == seg + path[at..];
    SegmentFirst(seg, path[at..]);
    return true, seg, at;
  }

  // A route's full path.

  /** Two parts of a path, of which neither runs into the other. */
  predicate Apart(a: bytes, b: bytes) {
    a == [] || b == [] || a[|a| - 1] == SLASH || b[0] == SLASH
  }

  lemma {:induction false} SegmentsApart(a: bytes, b: bytes)
    requires Apart(a, b)
    ensures Segments(a + b) == Segments(a) + Segments(b)
    decreases |a|
  {
    hide Segments;
    if a == [] {
      assert a + b == b;
      NoSegments();
    } else if b == [] {
      assert a + b == a;
      NoSegments();
    } else if a[0] == SLASH {
      SlashSkips(a);
      SlashSkips(a + b);
      assert (a + b)[1..] == a[1..] + b;
      if |a| > 1 || b[0] == SLASH {
        SegmentsApart(a[1..], b);
      } else {
        assert a[1..] == [];
        SegmentsApart([], b);
      }
    } else {
      var n := FirstSlash(a);
      var p, rest := a[..n], a[n..];
      assert a == p + rest && a + b == p + (rest + b);
      SegmentFirst(p, rest);
      SegmentFirst(p, rest + b);
      SegmentsApart(rest, b);
    }
  }

  function FirstSlash(s: bytes): (n: nat)
    ensures n <= |s| && (forall k :: 0 <= k < n ==> s[k] != SLASH) && (n < |s| ==> s[n] == SLASH)
  {
    if s == [] || s[0] == SLASH then 0 else 1 + FirstSlash(s[1..])
  }

  /** prepend: a part in front, behind a slash when both sides lack one. */
  method Prepend(buf: bytes, part: bytes) returns (out: bytes)
    ensures Segments(out) == Segments(part) + Segments(buf)
  {
    hide Segments;
    if part != [] && buf != [] && part[|part| - 1] != SLASH && buf[0] != SLASH {
      out := part + ([SLASH] + buf);
      SegmentsApart(part, [SLASH] + buf);
      SlashSkips([SLASH] + buf);
      assert ([SLASH] + buf)[1..] == buf;
    } else {
      out := part + buf;
      SegmentsApart(part, buf);
    }
  }

  /** The segments of the parts, outermost first; the list is innermost first, as a group names its parent. */
  function SegmentsOf(prefixes: seq<bytes>): seq<bytes> {
    if prefixes == [] then [] else SegmentsOf(prefixes[1..]) + Segments(prefixes[0])
  }

  /** full_path: a route's path behind its groups' prefixes; no segment is lost, joined or split. */
  method FullPath(path: bytes, prefixes: seq<bytes>) returns (full: bytes)
    ensures Segments(full) == SegmentsOf(prefixes) + Segments(path)
  {
    hide Segments;
    NoSegments();
    full := Prepend([], path);
    assert Segments(path) + [] == Segments(path);
    ghost var done: seq<bytes> := [];
    for i := 0 to |prefixes|
      invariant SegmentsOf(prefixes) + Segments(path) == SegmentsOf(prefixes[i..]) + Segments(full)
    {
      ghost var was := Segments(full);
      assert prefixes[i..][1..] == prefixes[i + 1..];
      full := Prepend(full, prefixes[i]);
      assert SegmentsOf(prefixes[i + 1..]) + Segments(prefixes[i]) + was == SegmentsOf(prefixes[i + 1..]) + (Segments(prefixes[i]) + was);
    }
    assert [] + Segments(full) == Segments(full);
  }

  // Patterns and what they match.

  datatype Part = Static(seg: bytes) | Capture

  /** A route that was asked for: what it matches, its captures' names, its method, and its number. */
  datatype Route = Route(pattern: seq<Part>, names: seq<bytes>, verb: bytes, id: nat)

  predicate Matches(pattern: seq<Part>, segs: seq<bytes>) {
    |pattern| == |segs| && forall i :: 0 <= i < |segs| ==> pattern[i] == Capture || pattern[i] == Static(segs[i])
  }

  function Captures(pattern: seq<Part>): nat {
    if pattern == [] then 0 else Captures(pattern[..|pattern| - 1]) + if pattern[|pattern| - 1].Capture? then 1 else 0
  }

  /** The segments at a pattern's captures. */
  function Captured(pattern: seq<Part>, segs: seq<bytes>): seq<bytes>
    requires |pattern| == |segs|
  {
    if pattern == [] then []
    else (if pattern[0].Capture? then [segs[0]] else []) + Captured(pattern[1..], segs[1..])
  }

  /** Every pattern that matches, a static part before a capture at each depth. */
  function Candidates(segs: seq<bytes>): seq<seq<Part>> {
    if segs == [] then [[]]
    else Each(Static(segs[0]), Candidates(segs[1..])) + Each(Capture, Candidates(segs[1..]))
  }

  function Each(x: Part, patterns: seq<seq<Part>>): seq<seq<Part>> {
    if patterns == [] then [] else [[x] + patterns[0]] + Each(x, patterns[1..])
  }

  /** Where two patterns first differ, the first one has the static part. */
  predicate Before(p: seq<Part>, q: seq<Part>) {
    exists i :: 0 <= i < |p| && i < |q| && p[..i] == q[..i] && p[i].Static? && q[i].Capture?
  }

  lemma {:induction false} EachAt(x: Part, patterns: seq<seq<Part>>, i: nat)
    ensures |Each(x, patterns)| == |patterns|
    ensures i < |patterns| ==> Each(x, patterns)[i] == [x] + patterns[i]
  {
    if patterns != [] {
      EachAt(x, patterns[1..], if i == 0 then 0 else i - 1);
    }
  }

  /** The candidates are all the patterns that match, and come in that order. */
  lemma {:induction false} CandidatesMatch(segs: seq<bytes>, i: nat)
    requires i < |Candidates(segs)|
    ensures Matches(Candidates(segs)[i], segs)
    decreases |segs|
  {
    if segs != [] {
      var rest := Candidates(segs[1..]);
      EachAt(Static(segs[0]), rest, i);
      if i < |rest| {
        CandidatesMatch(segs[1..], i);
        MatchesFront(Static(segs[0]), rest[i], segs);
      } else {
        EachAt(Capture, rest, i - |rest|);
        CandidatesMatch(segs[1..], i - |rest|);
        MatchesFront(Capture, rest[i - |rest|], segs);
      }
    }
  }

  lemma MatchesFront(x: Part, p: seq<Part>, segs: seq<bytes>)
    requires segs != [] && Matches(p, segs[1..]) && (x == Capture || x == Static(segs[0]))
    ensures Matches([x] + p, segs)
  {
    forall i | 0 <= i < |segs|
      ensures ([x] + p)[i] == Capture || ([x] + p)[i] == Static(segs[i])
    {
      if i > 0 {
        assert p[i - 1] == Capture || p[i - 1] == Static(segs[1..][i - 1]);
      }
    }
  }

  lemma {:induction false} MatchesAreCandidates(pattern: seq<Part>, segs: seq<bytes>) returns (i: nat)
    requires Matches(pattern, segs)
    ensures i < |Candidates(segs)| && Candidates(segs)[i] == pattern
    decreases |segs|
  {
    i := 0;
    if segs != [] {
      var rest := Candidates(segs[1..]);
      assert Matches(pattern[1..], segs[1..]) by {
        forall k | 0 <= k < |segs[1..]|
          ensures pattern[1..][k] == Capture || pattern[1..][k] == Static(segs[1..][k])
        {
          assert pattern[k + 1] == Capture || pattern[k + 1] == Static(segs[k + 1]);
        }
      }
      var j := MatchesAreCandidates(pattern[1..], segs[1..]);
      EachAt(Static(segs[0]), rest, j);
      EachAt(Capture, rest, j);
      i := if pattern[0] == Capture then |rest| + j else j;
      assert pattern == [pattern[0]] + pattern[1..];
    } else {
      assert pattern == [];
    }
  }

  lemma {:induction false} CandidatesInOrder(segs: seq<bytes>, i: nat, j: nat)
    requires i < j < |Candidates(segs)|
    ensures Before(Candidates(segs)[i], Candidates(segs)[j])
    decreases |segs|
  {
    if segs != [] {
      var rest := Candidates(segs[1..]);
      var n := |rest|;
      EachAt(Static(segs[0]), rest, i);
      EachAt(Static(segs[0]), rest, j);
      EachAt(Capture, rest, if i < n then 0 else i - n);
      EachAt(Capture, rest, if j < n then 0 else j - n);
      var x, y := Candidates(segs)[i], Candidates(segs)[j];
      if j < n || i >= n {
        var a, b := if j < n then i else i - n, if j < n then j else j - n;
        CandidatesInOrder(segs[1..], a, b);
        BeforeFront(x[0], rest[a], rest[b]);
      } else {
        assert x[..0] == y[..0];
      }
    }
  }

  lemma BeforeFront(x: Part, p: seq<Part>, q: seq<Part>)
    requires Before(p, q)
    ensures Before([x] + p, [x] + q)
  {
    var i :| 0 <= i < |p| && i < |q| && p[..i] == q[..i] && p[i].Static? && q[i].Capture?;
    assert ([x] + p)[..i + 1] == [x] + p[..i] && ([x] + q)[..i + 1] == [x] + q[..i];
  }

  // The routes of a table, and which answers.

  /** Routes kept: the first of each pattern and method, with no more captures than there is room for. */
  function Accept(routes: seq<Route>, r: Route): seq<Route> {
    if Captures(r.pattern) > MAX_CAPTURES || HasRoute(routes, r.pattern, r.verb) then routes else routes + [r]
  }

  predicate HasRoute(routes: seq<Route>, pattern: seq<Part>, verb: bytes) {
    exists i :: 0 <= i < |routes| && routes[i].pattern == pattern && routes[i].verb == verb
  }

  /** The routes at a pattern, in the order they were accepted. */
  function At(routes: seq<Route>, pattern: seq<Part>): seq<Route> {
    if routes == [] then []
    else At(routes[..|routes| - 1], pattern) + if routes[|routes| - 1].pattern == pattern then [routes[|routes| - 1]] else []
  }

  /** Of the routes at one place, the one for a method; HEAD is answered by GET when it has none of its own. */
  function Answers(eps: seq<Route>, verb: bytes): Option<Route> {
    match ForMethod(eps, verb)
    case Some(r) => Some(r)
    case None => if verb == HEAD then ForMethod(eps, GET) else None
  }

  function ForMethod(eps: seq<Route>, verb: bytes): (r: Option<Route>) {
    if eps == [] then None
    else match ForMethod(eps[..|eps| - 1], verb)
      case Some(e) => Some(e)
      case None => if eps[|eps| - 1].verb == verb then Some(eps[|eps| - 1]) else None
  }

  /** A route found: which, and with what suffix of its pattern. */
  datatype Found = Found(route: Route, suffix: seq<Part>)

  /** The first of some patterns, behind a prefix, that answers. */
  function Pick(routes: seq<Route>, prefix: seq<Part>, patterns: seq<seq<Part>>, verb: bytes): Option<Found> {
    if patterns == [] then None
    else match Answers(At(routes, prefix + patterns[0]), verb)
      case Some(r) => Some(Found(r, patterns[0]))
      case None => Pick(routes, prefix, patterns[1..], verb)
  }

  lemma {:induction false} PickAppend(routes: seq<Route>, prefix: seq<Part>, a: seq<seq<Part>>, b: seq<seq<Part>>, verb: bytes)
    ensures Pick(routes, prefix, a + b, verb) ==
      match Pick(routes, prefix, a, verb) case Some(f) => Some(f) case None => Pick(routes, prefix, b, verb)
  {
    hide Answers, At;
    if a == [] {
      assert a + b == b;
    } else {
      assert (a + b)[1..] == a[1..] + b;
      PickAppend(routes, prefix, a[1..], b, verb);
    }
  }

  lemma {:induction false} PickEach(routes: seq<Route>, prefix: seq<Part>, x: Part, patterns: seq<seq<Part>>, verb: bytes)
    ensures Pick(routes, prefix, Each(x, patterns), verb) ==
      match Pick(routes, prefix + [x], patterns, verb) case Some(f) => Some(Found(f.route, [x] + f.suffix)) case None => None
  {
    hide Answers, At;
    if patterns != [] {
      assert prefix + ([x] + patterns[0]) == (prefix + [x]) + patterns[0];
      assert Each(x, patterns)[0] == [x] + patterns[0] && Each(x, patterns)[1..] == Each(x, patterns[1..]);
      PickEach(routes, prefix, x, patterns[1..], verb);
    }
  }

  /** Where no route starts with a prefix, none answers behind it. */
  lemma {:induction false} PickNothing(routes: seq<Route>, prefix: seq<Part>, patterns: seq<seq<Part>>, verb: bytes)
    requires forall i :: 0 <= i < |routes| ==> !(prefix <= routes[i].pattern)
    ensures Pick(routes, prefix, patterns, verb) == None
  {
    if patterns != [] {
      AtNothing(routes, prefix + patterns[0]);
      PickNothing(routes, prefix, patterns[1..], verb);
    }
  }

  lemma {:induction false} AtNothing(routes: seq<Route>, pattern: seq<Part>)
    requires forall i :: 0 <= i < |routes| ==> routes[i].pattern != pattern
    ensures At(routes, pattern) == []
  {
    if routes != [] {
      AtNothing(routes[..|routes| - 1], pattern);
    }
  }

  // The tree.

  /** A node: its segment, its children by segment, the child that captures, and the routes that end here. */
  datatype Node = Node(seg: bytes, kids: seq<nat>, param: Option<nat>, eps: seq<Route>)

  /** One part more. */
  predicate Extends(p: seq<Part>, q: seq<Part>) {
    |q| == |p| + 1 && q[..|p|] == p
  }

  /** Where a node's links lead, and that every node one part longer is linked. */
  ghost predicate Linked(nodes: seq<Node>, paths: seq<seq<Part>>, i: nat)
    requires |nodes| == |paths| && i < |nodes|
  {
    && (forall k :: k in nodes[i].kids ==> k < |nodes| && paths[k] == paths[i] + [Static(nodes[k].seg)])
    && (nodes[i].param.Some? ==> nodes[i].param.value < |nodes| && paths[nodes[i].param.value] == paths[i] + [Capture])
    && (forall j :: 0 <= j < |paths| && Extends(paths[i], paths[j]) ==>
          if paths[j][|paths[i]|].Capture? then nodes[i].param == Some(j) else j in nodes[i].kids)
  }

  /** No link from a node for a part. */
  ghost predicate Absent(nodes: seq<Node>, i: nat, x: Part) {
    i < |nodes| && if x.Capture? then nodes[i].param.None? else forall k :: k in nodes[i].kids && k < |nodes| ==> nodes[k].seg != x.seg
  }

  ghost predicate PathsOk(paths: seq<seq<Part>>) {
    && paths != [] && paths[0] == []
    && (forall i, j :: 0 <= i < j < |paths| ==> paths[i] != paths[j])
    && (forall j :: 0 < j < |paths| ==> HasFront(paths, j))
    && (forall i :: 0 <= i < |paths| ==> Captures(paths[i]) <= MAX_CAPTURES)
  }

  /** A node's parent comes before it. */
  ghost predicate HasFront(paths: seq<seq<Part>>, j: nat)
    requires j < |paths|
  {
    exists i :: 0 <= i < j && Extends(paths[i], paths[j])
  }

  ghost predicate TreeOk(nodes: seq<Node>, paths: seq<seq<Part>>) {
    |nodes| == |paths| && PathsOk(paths) && forall i :: 0 <= i < |nodes| ==> Linked(nodes, paths, i)
  }

  /** Every route ends at a node, and each node has the routes that end there. */
  ghost predicate RoutesOk(nodes: seq<Node>, paths: seq<seq<Part>>, routes: seq<Route>)
    requires |nodes| == |paths|
  {
    && (forall i :: 0 <= i < |nodes| ==> nodes[i].eps == At(routes, paths[i]))
    && (forall r :: 0 <= r < |routes| ==> routes[r].pattern in paths && |routes[r].names| == Captures(routes[r].pattern))
  }

  /** The front of a node's path is the path of a node. */
  lemma {:induction false} FrontIsNode(paths: seq<seq<Part>>, j: nat, n: nat)
    requires PathsOk(paths) && j < |paths| && n <= |paths[j]|
    ensures exists m :: 0 <= m < |paths| && paths[m] == paths[j][..n]
    decreases j
  {
    if n == |paths[j]| {
      assert paths[j][..n] == paths[j];
    } else {
      assert j > 0 && HasFront(paths, j);
      var i :| 0 <= i < j && Extends(paths[i], paths[j]);
      FrontIsNode(paths, i, n);
      assert paths[i][..n] == paths[j][..n];
    }
  }

  /** Of a part that a node has no link for, no node lies behind it. */
  lemma NoneBehind(nodes: seq<Node>, paths: seq<seq<Part>>, i: nat, x: Part)
    requires TreeOk(nodes, paths) && Absent(nodes, i, x)
    ensures forall j :: 0 <= j < |paths| ==> !(paths[i] + [x] <= paths[j])
  {
    var n := |paths[i]|;
    forall j | 0 <= j < |paths|
      ensures !(paths[i] + [x] <= paths[j])
    {
      if |paths[j]| > n {
        FrontIsNode(paths, j, n + 1);
        var m :| 0 <= m < |paths| && paths[m] == paths[j][..n + 1];
        NotLinked(nodes, paths, i, x, m);
        FrontOf(paths[i], x, paths[j]);
      }
    }
  }

  lemma FrontOf(p: seq<Part>, x: Part, q: seq<Part>)
    requires |q| > |p|
    ensures p + [x] <= q ==> q[..|p| + 1] == p + [x]
  {
  }

  lemma OneMore(p: seq<Part>, x: Part, q: seq<Part>)
    ensures q == p + [x] <==> Extends(p, q) && q[|p|] == x
  {
  }

  lemma NotLinked(nodes: seq<Node>, paths: seq<seq<Part>>, i: nat, x: Part, m: nat)
    requires TreeOk(nodes, paths) && Absent(nodes, i, x) && m < |paths|
    ensures paths[m] != paths[i] + [x]
  {
    hide PathsOk;
    assert Linked(nodes, paths, i);
    OneMore(paths[i], x, paths[m]);
  }

  /** ... and no route. */
  lemma NoRouteBehind(nodes: seq<Node>, paths: seq<seq<Part>>, routes: seq<Route>, i: nat, x: Part)
    requires TreeOk(nodes, paths) && RoutesOk(nodes, paths, routes) && Absent(nodes, i, x)
    ensures forall r :: 0 <= r < |routes| ==> !(paths[i] + [x] <= routes[r].pattern)
  {
    NoneBehind(nodes, paths, i, x);
    forall r | 0 <= r < |routes|
      ensures !(paths[i] + [x] <= routes[r].pattern)
    {
      assert routes[r].pattern in paths;
    }
  }

  class Router {
    var nodes: seq<Node>
    /** The captures of the walk in progress, and the nodes it saw routes at. */
    var captures: seq<bytes>
    var seen: seq<nat>
    /** Each node's path from the root, and the routes accepted. */
    ghost var paths: seq<seq<Part>>
    ghost var routes: seq<Route>

    ghost predicate Valid()
      reads this`nodes, this`paths, this`routes
    {
      TreeOk(nodes, paths) && RoutesOk(nodes, paths, routes)
    }

    constructor ()
      ensures Valid() && routes == [] && captures == [] && seen == []
    {
      nodes := [Node([], [], None, [])];
      paths, routes := [[]], [];
      captures, seen := [], [];
    }

    lemma LinkedAt(i: nat)
      requires Valid() && i < |nodes|
      ensures |nodes| == |paths| && Linked(nodes, paths, i) && Captures(paths[i]) <= MAX_CAPTURES
    {
    }

    /** child: the node for a segment, made when there is none. */
    method Child(i: nat, seg: bytes) returns (j: nat)
      requires Valid() && i < |nodes|
      modifies this`nodes, this`paths
      ensures Valid() && j < |nodes| == |paths| && old(i < |paths|) && paths[j] == old(paths)[i] + [Static(seg)]
    {
      hide TreeOk, RoutesOk;
      LinkedAt(i);
      for k := 0 to |nodes[i].kids|
        invariant forall l :: 0 <= l < k ==> nodes[i].kids[l] < |nodes| && nodes[nodes[i].kids[l]].seg != seg
      {
        assert nodes[i].kids[k] in nodes[i].kids;
        if nodes[nodes[i].kids[k]].seg == seg {
          return nodes[i].kids[k];
        }
      }
      forall k | k in nodes[i].kids
        ensures nodes[k].seg != seg
      {
        var l :| 0 <= l < |nodes[i].kids| && nodes[i].kids[l] == k;
      }
      j := |nodes|;
      Grow(nodes, paths, routes, i, Static(seg));
      nodes := nodes[i := Attach(nodes[i], Static(seg), j)] + [Fresh(Static(seg))];
      paths := paths + [paths[i] + [Static(seg)]];
    }

    /** The node that captures, made when there is none. */
    method Param(i: nat) returns (j: nat)
      requires Valid() && i < |nodes| && |nodes| == |paths| && Captures(paths[i]) < MAX_CAPTURES
      modifies this`nodes, this`paths
      ensures Valid() && j < |nodes| == |paths| && paths[j] == old(paths)[i] + [Capture]
    {
      hide TreeOk, RoutesOk;
      LinkedAt(i);
      if nodes[i].param.Some? {
        return nodes[i].param.value;
      }
      j := |nodes|;
      Grow(nodes, paths, routes, i, Capture);
      nodes := nodes[i := Attach(nodes[i], Capture, j)] + [Fresh(Capture)];
      paths := paths + [paths[i] + [Capture]];
    }

    /** insert: the route's node, segment by segment; one with too many captures, or a second one of its kind, is not kept. */
    method Insert(r: Route, full: bytes) returns (kept: bool)
      requires Valid() && r.pattern == PatternOf(Segments(full)) && |r.names| == Captures(r.pattern)
      modifies this`nodes, this`paths, this`routes
      ensures Valid() && routes == Accept(old(routes), r)
    {
      hide Valid, Segments, At, Captures, PatternOf, PartOf;
      var node: nat, n: nat := 0, 0;
      RootIs();
      NoParts();
      assert full[0..] == full;
      ghost var done: seq<Part> := [];
      var ok, seg, next := NextSegment(full, 0);
      while ok
        invariant Valid() && node < |nodes| == |paths| && next <= |full| && routes == old(routes) && (ok ==> seg != [])
        invariant paths[node] == done && n == Captures(done) <= MAX_CAPTURES
        invariant r.pattern == done + if ok then PatternOf([seg] + Segments(full[next..])) else []
        decreases ok, |full| - next
      {
        ghost var rest := Segments(full[next..]);
        PatternFirst(seg, rest);
        Assoc(done, [PartOf(seg)], PatternOf(rest));
        var fits;
        fits, node, n := Down(node, seg, n);
        if !fits {
          CapturesFront(done + [PartOf(seg)], PatternOf(rest));
          return false;
        }
        done := done + [PartOf(seg)];
        ok, seg, next := NextSegment(full, next);
        if !ok {
          assert rest == [];
        }
      }
      kept := Finish(node, r);
    }

    /** One segment down. */
    method Down(i: nat, seg: bytes, n: nat) returns (fits: bool, j: nat, m: nat)
      requires Valid() && i < |nodes| == |paths| && seg != [] && n == Captures(paths[i]) <= MAX_CAPTURES
      modifies this`nodes, this`paths
      ensures Valid() && |nodes| == |paths|
      ensures fits ==> j < |nodes| && paths[j] == old(paths)[i] + [PartOf(seg)] && m == Captures(paths[j]) <= MAX_CAPTURES
      ensures !fits ==> Captures(old(paths)[i] + [PartOf(seg)]) > MAX_CAPTURES
    {
      hide TreeOk, RoutesOk, Captures;
      CapturesSnoc(paths[i], PartOf(seg));
      fits, j, m := true, i, n;
      if seg[0] == COLON {
        if n == MAX_CAPTURES {
          return false, i, n;
        }
        m := n + 1;
        j := Param(i);
      } else {
        j := Child(i, seg);
      }
    }

    lemma RootIs()
      requires Valid()
      ensures 0 < |nodes| == |paths| && paths[0] == [] && Captures([]) == 0
    {
    }

    /** The end of it, at the route's node. */
    method Finish(node: nat, r: Route) returns (kept: bool)
      requires Valid() && node < |nodes| == |paths| && paths[node] == r.pattern && |r.names| == Captures(r.pattern) <= MAX_CAPTURES
      modifies this`nodes, this`routes
      ensures Valid() && routes == Accept(old(routes), r)
    {
      hide At;
      var eps := nodes[node].eps;
      AtHas(routes, r.pattern);
      for i := 0 to |eps|
        invariant forall k :: 0 <= k < i ==> eps[k].verb != r.verb
      {
        if eps[i].verb == r.verb {
          assert eps[i] in At(routes, r.pattern);
          return false;
        }
      }
      NotAt(routes, r.pattern, r.verb);
      RoutesSnoc(nodes, paths, routes, node, r);
      nodes := nodes[node := nodes[node].(eps := eps + [r])];
      routes := routes + [r];
      return true;
    }

    // The walk.

    ghost function SeenPaths(): seq<seq<Part>>
      reads this`seen, this`paths
    {
      PathsAt(paths, seen)
    }

    /** The child for a segment, if there is one. */
    method FindKid(i: nat, seg: bytes) returns (kid: Option<nat>)
      requires Valid() && i < |nodes|
      ensures |nodes| == |paths|
      ensures kid.Some? ==> kid.value < |nodes| && paths[kid.value] == paths[i] + [Static(seg)]
      ensures kid.None? ==> forall r :: 0 <= r < |routes| ==> !(paths[i] + [Static(seg)] <= routes[r].pattern)
    {
      hide TreeOk, RoutesOk;
      LinkedAt(i);
      for k := 0 to |nodes[i].kids|
        invariant forall l :: 0 <= l < k ==> nodes[i].kids[l] < |nodes| && nodes[nodes[i].kids[l]].seg != seg
      {
        assert nodes[i].kids[k] in nodes[i].kids;
        if nodes[nodes[i].kids[k]].seg == seg {
          return Some(nodes[i].kids[k]);
        }
      }
      forall k | k in nodes[i].kids
        ensures nodes[k].seg != seg
      {
        var l :| 0 <= l < |nodes[i].kids| && nodes[i].kids[l] == k;
      }
      NoRouteBehind(nodes, paths, routes, i, Static(seg));
      return None;
    }

    /** endpoint_for: the first route of the method, else GET's for HEAD. */
    method EndpointFor(i: nat, verb: bytes) returns (found: Option<Route>)
      requires i < |nodes|
      ensures found == Answers(nodes[i].eps, verb)
    {
      var eps := nodes[i].eps;
      var get: Option<Route> := None;
      for k := 0 to |eps|
        invariant ForMethod(eps[..k], verb) == None
        invariant get == ForMethod(eps[..k], GET) || (get.Some? && verb != HEAD)
      {
        assert eps[..k + 1][..k] == eps[..k];
        if eps[k].verb == verb {
          ForMethodStays(eps, k + 1, verb);
          return Some(eps[k]);
        }
        if get.None? && eps[k].verb == GET {
          get := Some(eps[k]);
        }
      }
      assert eps[..|eps|] == eps;
      return if verb == HEAD then get else None;
    }

    /** What was seen is nodes of the tree. */
    predicate SeenOk()
      reads this`seen, this`nodes
    {
      |seen| <= SEEN_MAX && forall k :: 0 <= k < |seen| ==> seen[k] < |nodes|
    }

    /** walk, at the end of the path: the node's own routes. */
    method Arrive(i: nat, verb: bytes) returns (found: Option<Route>)
      requires Valid() && i < |nodes| && SeenOk()
      modifies this`captures, this`seen
      ensures |nodes| == |paths| && SeenOk()
      ensures Walked(routes, paths[i], Candidates([]), [], verb, old(captures), captures, old(SeenPaths()), SeenPaths(), found)
    {
      hide TreeOk, At, Answers;
      LinkedAt(i);
      EpsAt(i);
      ghost var was := SeenPaths();
      if nodes[i].eps != [] && |seen| < SEEN_MAX {
        seen := seen + [i];
        assert SeenPaths() == was + [paths[i]];
      }
      found := EndpointFor(i, verb);
      assert paths[i] + [] == paths[i];
      assert Candidates([]) == [[]];
      assert captures == old(captures) + [];
      ArriveSees(was, routes, paths[i], verb);
    }

    lemma EpsAt(i: nat)
      requires Valid() && i < |nodes|
      ensures |nodes| == |paths| && nodes[i].eps == At(routes, paths[i])
    {
    }

    /** walk: static before capture, backtracking. */
    method Walk(i: nat, path: bytes, at: nat, verb: bytes) returns (found: Option<Route>)
      requires Valid() && i < |nodes| == |paths| && at <= |path| && |captures| == Captures(paths[i]) && SeenOk()
      modifies this`captures, this`seen
      ensures SeenOk()
      ensures Walked(routes, paths[i], Candidates(Segments(path[at..])), Segments(path[at..]), verb, old(captures), captures, old(SeenPaths()), SeenPaths(), found)
      decreases |path| - at, 0
    {
      hide Valid, At, Answers, Segments;
      var ok, seg, next := NextSegment(path, at);
      if !ok {
        found := Arrive(i, verb);
        return;
      }
      ghost var p, rest := paths[i], Segments(path[next..]);
      ghost var caps, was := captures, SeenPaths();
      ghost var c := Candidates(rest);
      CandidatesSplit(seg, rest);
      found := None;
      var kid := FindKid(i, seg);
      if kid.Some? {
        CapturesSnoc(p, Static(seg));
        found := Walk(kid.value, path, next, verb);
        WalkedStatic(routes, p, seg, c, rest, verb, caps, captures, was, SeenPaths(), found);
      } else {
        WalkedNowhere(routes, p, Static(seg), c, [seg] + rest, verb, caps, was);
      }
      if found.Some? {
        WalkedFirst(routes, p, Each(Static(seg), c), Each(Capture, c), [seg] + rest, verb, caps, captures, was, SeenPaths(), found);
        return;
      }
      assert caps + [] == caps;
      ghost var between := SeenPaths();
      found := WalkParam(i, seg, path, next, verb);
      WalkedSecond(routes, p, Each(Static(seg), c), Each(Capture, c), [seg] + rest, verb, caps, captures, was, between, SeenPaths(), found);
    }

    /** The capturing half of walk: the segment is captured, and let go again when nothing is found. */
    method WalkParam(i: nat, seg: bytes, path: bytes, next: nat, verb: bytes) returns (found: Option<Route>)
      requires Valid() && i < |nodes| == |paths| && next <= |path| && |captures| == Captures(paths[i]) && SeenOk()
      modifies this`captures, this`seen
      ensures SeenOk()
      ensures Walked(routes, paths[i], Each(Capture, Candidates(Segments(path[next..]))), [seg] + Segments(path[next..]), verb,
                     old(captures), captures, old(SeenPaths()), SeenPaths(), found)
      decreases |path| - next, 1
    {
      hide Valid, At, Answers, Segments, TreeOk, RoutesOk;
      ghost var p, rest := paths[i], Segments(path[next..]);
      ghost var caps, was := captures, SeenPaths();
      ParamOf(i);
      if nodes[i].param.Some? && |captures| < MAX_CAPTURES {
        var mark := |captures|;
        CapturesSnoc(p, Capture);
        captures := captures + [seg];
        found := Walk(nodes[i].param.value, path, next, verb);
        WalkedCapture(routes, p, seg, Candidates(rest), rest, verb, caps, captures, was, SeenPaths(), found);
        if found.Some? {
          return;
        }
        captures := captures[..mark];
        assert captures == caps;
      } else {
        WalkedNowhere(routes, p, Capture, Candidates(rest), [seg] + rest, verb, caps, was);
        found := None;
      }
    }

    /** The capturing child has room for its capture; without one, no route captures here. */
    lemma ParamOf(i: nat)
      requires Valid() && i < |nodes|
      ensures |nodes| == |paths|
      ensures nodes[i].param.Some? ==>
        nodes[i].param.value < |nodes| && paths[nodes[i].param.value] == paths[i] + [Capture] && Captures(paths[i]) < MAX_CAPTURES
      ensures nodes[i].param.None? ==> forall r :: 0 <= r < |routes| ==> !(paths[i] + [Capture] <= routes[r].pattern)
    {
      hide RoutesOk;
      LinkedAt(i);
      if nodes[i].param.Some? {
        CapturesSnoc(paths[i], Capture);
        LinkedAt(nodes[i].param.value);
      } else {
        NoRouteBehind(nodes, paths, routes, i, Capture);
      }
    }

    /**
     * Routing, of ioxd__router_dispatch: the route found is one whose pattern matches the path, of the
     * method or GET for HEAD; no pattern before it, static parts first, has one; its captures are
     * the segments at its colons. None is found only when no route matches.
     */
    method Dispatch(path: bytes, verb: bytes) returns (found: Option<Route>)
      requires Valid()
      modifies this`captures, this`seen
      ensures found.Some? ==>
        && found.value in routes && Matches(found.value.pattern, Segments(path))
        && (found.value.verb == verb || (verb == HEAD && found.value.verb == GET && !HasRoute(routes, found.value.pattern, HEAD)))
        && captures == Captured(found.value.pattern, Segments(path)) && |captures| == |found.value.names|
      ensures found.Some? ==> forall q :: q in routes && Matches(q.pattern, Segments(path)) && Before(q.pattern, found.value.pattern) ==>
        q.verb != verb && !(verb == HEAD && q.verb == GET)
      ensures found.None? ==> captures == [] && forall q :: q in routes && Matches(q.pattern, Segments(path)) ==>
        q.verb != verb && !(verb == HEAD && q.verb == GET)
      ensures found.None? ==> SeenPaths() == FirstSeen(WithRoutes(routes, Candidates(Segments(path)))) && SeenOk()
    {
      hide Valid, Segments, At, Answers;
      captures, seen := [], [];
      RootIs();
      assert path[0..] == path;
      found := Walk(0, path, 0, verb);
      Routed(Segments(path), verb, found);
    }

    lemma Routed(segs: seq<bytes>, verb: bytes, found: Option<Route>)
      requires Valid()
      requires Walked(routes, [], Candidates(segs), segs, verb, [], captures, [], SeenPaths(), found)
      ensures found.Some? ==>
        && found.value in routes && Matches(found.value.pattern, segs)
        && (found.value.verb == verb || (verb == HEAD && found.value.verb == GET && !HasRoute(routes, found.value.pattern, HEAD)))
        && captures == Captured(found.value.pattern, segs) && |captures| == |found.value.names|
        && forall q :: q in routes && Matches(q.pattern, segs) && Before(q.pattern, found.value.pattern) ==> !CanAnswer(q, verb)
      ensures found.None? ==> captures == [] && forall q :: q in routes && Matches(q.pattern, segs) ==> !CanAnswer(q, verb)
      ensures found.None? ==> SeenPaths() == FirstSeen(WithRoutes(routes, Candidates(segs)))
    {
      hide At, Answers, Candidates, Visited, TreeOk;
      var pick := Pick(routes, [], Candidates(segs), verb);
      if pick.Some? {
        RoutedTo(routes, segs, verb);
        var r := pick.value.route;
        CapturedCount(r.pattern, segs);
        NamesFit(r);
      } else {
        NoneRouted(routes, segs, verb);
      }
    }

    /**
     * What ioxd__router_dispatch answers: a route's handler; or 405, exactly when routes match the path
     * and none of them takes the method; or else the fallback, exactly when none matches. A 405 lists
     * the methods of the routes that match, in the order they were registered, HEAD behind a GET that
     * answers for it; all of them, unless there are more than there is room for.
     */
    method Answer(path: bytes, verb: bytes) returns (a: Answered)
      requires Valid()
      modifies this`captures, this`seen
      ensures a.Handled? <==> exists q :: q in routes && Matches(q.pattern, Segments(path)) && CanAnswer(q, verb)
      ensures a.Handled? ==> a.route in routes && Matches(a.route.pattern, Segments(path)) && CanAnswer(a.route, verb)
      ensures a.Fallback? <==> forall q :: q in routes ==> !Matches(q.pattern, Segments(path))
      ensures a.NotAllowed? ==>
        && 0 < |a.allow| <= ALLOW_MAX && InOrder(a.allow)
        && (forall r :: r in a.allow ==> r in routes && Matches(r.pattern, Segments(path)) && !CanAnswer(r, verb))
        && (|seen| < SEEN_MAX && |a.allow| < ALLOW_MAX ==> forall v :: v in AllowValue(a.allow) <==>
              exists q :: q in routes && Matches(q.pattern, Segments(path)) && CanAnswer(q, v))
    {
      hide Valid, Segments, At, Answers, FirstSeen, Candidates, WithRoutes, Matches;
      var found := Dispatch(path, verb);
      if found.Some? {
        return Handled(found.value);
      }
      ghost var segs := Segments(path);
      SeenAre(segs);
      if seen == [] {
        return Fallback;
      }
      var eps := Endpoints();
      var allow := AllowedEndpoints(eps);
      AllowIs(eps, allow, segs, verb);
      return NotAllowed(allow);
    }

    method Endpoints() returns (eps: seq<seq<Route>>)
      requires Valid() && SeenOk()
      ensures |eps| == |seen| && forall k :: 0 <= k < |seen| ==> seen[k] < |paths| && eps[k] == At(routes, paths[seen[k]])
    {
      hide Valid, At;
      eps := [];
      for i := 0 to |seen|
        invariant |eps| == i && forall k :: 0 <= k < i ==> seen[k] < |paths| && eps[k] == At(routes, paths[seen[k]])
      {
        EpsAt(seen[i]);
        eps := eps + [nodes[seen[i]].eps];
      }
    }

    /** The nodes seen are those with routes that match the path. */
    lemma SeenAre(segs: seq<bytes>)
      requires Valid() && SeenOk() && SeenPaths() == FirstSeen(WithRoutes(routes, Candidates(segs)))
      ensures forall k :: 0 <= k < |seen| ==> SeenMatches(seen[k], segs)
      ensures |seen| < SEEN_MAX ==> forall q :: q in routes && Matches(q.pattern, segs) ==> q.pattern in SeenPaths()
      ensures seen == [] <==> forall q :: q in routes ==> !Matches(q.pattern, segs)
    {
      hide At, Candidates, TreeOk, RoutesOk, WithRoutes;
      WithRoutesHas(routes, Candidates(segs));
      var all := WithRoutes(routes, Candidates(segs));
      forall k | 0 <= k < |seen|
        ensures SeenMatches(seen[k], segs)
      {
        EpsAt(seen[k]);
        assert SeenPaths()[k] == paths[seen[k]];
        assert paths[seen[k]] in all;
        InCandidates(paths[seen[k]], segs);
      }
      forall q | q in routes && Matches(q.pattern, segs)
        ensures q.pattern in all
      {
        var i := MatchesAreCandidates(q.pattern, segs);
        AtHas(routes, q.pattern);
        assert q in At(routes, q.pattern);
      }
      if seen != [] {
        AtHas(routes, paths[seen[0]]);
        assert SeenMatches(seen[0], segs);
        var r := At(routes, paths[seen[0]])[0];
        assert r in At(routes, paths[seen[0]]);
      }
    }

    ghost predicate SeenMatches(i: nat, segs: seq<bytes>)
      reads this`paths, this`routes
    {
      i < |paths| && Matches(paths[i], segs) && At(routes, paths[i]) != []
    }

    lemma AllowIs(eps: seq<seq<Route>>, allow: seq<Route>, segs: seq<bytes>, verb: bytes)
      requires |eps| == |seen| > 0 && forall k :: 0 <= k < |seen| ==> SeenMatches(seen[k], segs) && eps[k] == At(routes, paths[seen[k]])
      requires |seen| < SEEN_MAX ==> forall q :: q in routes && Matches(q.pattern, segs) ==> q.pattern in SeenPaths()
      requires |allow| <= ALLOW_MAX && InOrder(allow)
      requires forall r :: r in allow ==> exists i :: 0 <= i < |eps| && r in eps[i]
      requires |allow| < ALLOW_MAX ==> forall i, r :: 0 <= i < |eps| && r in eps[i] ==> Listed(allow, r.verb)
      requires forall q :: q in routes && Matches(q.pattern, segs) ==> !CanAnswer(q, verb)
      ensures 0 < |allow|
      ensures forall r :: r in allow ==> r in routes && Matches(r.pattern, segs) && !CanAnswer(r, verb)
      ensures |seen| < SEEN_MAX && |allow| < ALLOW_MAX ==> forall v :: v in AllowValue(allow) <==>
        exists q :: q in routes && Matches(q.pattern, segs) && CanAnswer(q, v)
    {
      hide At, Matches, AllowValue, CanAnswer;
      forall i | 0 <= i < |eps|
        ensures eps[i] != [] && forall r :: r in eps[i] ==> r in routes && Matches(r.pattern, segs)
      {
        AtHas(routes, paths[seen[i]]);
      }
      assert eps[0][0] in eps[0];
      assert |allow| < ALLOW_MAX ==> Listed(allow, eps[0][0].verb);
      if |seen| < SEEN_MAX && |allow| < ALLOW_MAX {
        forall q | q in routes && Matches(q.pattern, segs)
          ensures Listed(allow, q.verb)
        {
          var k :| 0 <= k < |seen| && SeenPaths()[k] == q.pattern;
          AtHas(routes, q.pattern);
          assert q in eps[k];
        }
        AllowExact(allow, routes, segs);
      }
    }

    lemma NamesFit(r: Route)
      requires Valid() && r in routes
      ensures |r.names| == Captures(r.pattern)
    {
    }
  }

  lemma InCandidates(p: seq<Part>, segs: seq<bytes>)
    requires p in Candidates(segs)
    ensures Matches(p, segs)
  {
    var i :| 0 <= i < |Candidates(segs)| && Candidates(segs)[i] == p;
    CandidatesMatch(segs, i);
  }

  lemma {:induction false} WithRoutesHas(routes: seq<Route>, patterns: seq<seq<Part>>)
    ensures forall p :: p in WithRoutes(routes, patterns) <==> p in patterns && At(routes, p) != []
  {
    if patterns != [] {
      WithRoutesHas(routes, patterns[1..]);
      assert patterns == [patterns[0]] + patterns[1..];
    }
  }

  /** What dispatch does with a request. */
  datatype Answered = Handled(route: Route) | NotAllowed(allow: seq<Route>) | Fallback

  /** The methods allow_value writes: HEAD behind GET, unless it has a route of its own. */
  function AllowValue(out: seq<Route>): seq<bytes> {
    AllowFrom(out, Listed(out, GET) && !Listed(out, HEAD))
  }

  function AllowFrom(out: seq<Route>, addHead: bool): seq<bytes> {
    if out == [] then []
    else [out[0].verb] + (if addHead && out[0].verb == GET then [HEAD] else []) + AllowFrom(out[1..], addHead)
  }

  lemma {:induction false} AllowFromHas(out: seq<Route>, addHead: bool, v: bytes)
    ensures v in AllowFrom(out, addHead) <==> Listed(out, v) || (addHead && v == HEAD && Listed(out, GET))
  {
    if out != [] {
      var rest := out[1..];
      AllowFromHas(rest, addHead, v);
      forall w: bytes
        ensures Listed(out, w) <==> out[0].verb == w || Listed(rest, w)
      {
        if Listed(out, w) {
          var k :| 0 <= k < |out| && out[k].verb == w;
          assert k > 0 ==> rest[k - 1] == out[k];
        }
        if Listed(rest, w) {
          var k :| 0 <= k < |rest| && rest[k].verb == w;
          assert out[k + 1] == rest[k];
        }
      }
    }
  }

  /** The Allow field names a method exactly when a route that matches answers it. */
  lemma AllowExact(allow: seq<Route>, routes: seq<Route>, segs: seq<bytes>)
    requires forall r :: r in allow ==> r in routes && Matches(r.pattern, segs)
    requires forall q :: q in routes && Matches(q.pattern, segs) ==> Listed(allow, q.verb)
    ensures forall v :: v in AllowValue(allow) <==> exists q :: q in routes && Matches(q.pattern, segs) && CanAnswer(q, v)
  {
    hide Matches;
    forall v
      ensures v in AllowValue(allow) <==> exists q :: q in routes && Matches(q.pattern, segs) && CanAnswer(q, v)
    {
      AllowFromHas(allow, Listed(allow, GET) && !Listed(allow, HEAD), v);
      if v in AllowValue(allow) {
        var w := if Listed(allow, v) then v else GET;
        var k :| 0 <= k < |allow| && allow[k].verb == w;
        assert allow[k] in allow && CanAnswer(allow[k], v);
      }
    }
  }

  lemma CapturesSnoc(p: seq<Part>, x: Part)
    ensures Captures(p + [x]) == Captures(p) + if x.Capture? then 1 else 0
  {
    assert (p + [x])[..|p|] == p;
  }

  /** A link more, and a node at the end of it. */
  function Attach(n: Node, x: Part, j: nat): Node {
    if x.Capture? then n.(param := Some(j)) else n.(kids := n.kids + [j])
  }

  function Fresh(x: Part): Node {
    Node(if x.Static? then x.seg else [], [], None, [])
  }

  lemma Grow(nodes: seq<Node>, paths: seq<seq<Part>>, routes: seq<Route>, i: nat, x: Part)
    requires TreeOk(nodes, paths) && RoutesOk(nodes, paths, routes) && i < |nodes| && Absent(nodes, i, x)
    requires Captures(paths[i]) + (if x.Capture? then 1 else 0) <= MAX_CAPTURES
    ensures var nodes' := nodes[i := Attach(nodes[i], x, |nodes|)] + [Fresh(x)];
      var paths' := paths + [paths[i] + [x]];
      TreeOk(nodes', paths') && RoutesOk(nodes', paths', routes)
  {
    hide At, Captures, PathsOk, Linked, Absent;
    var nodes' := nodes[i := Attach(nodes[i], x, |nodes|)] + [Fresh(x)];
    var paths' := paths + [paths[i] + [x]];
    NoneBehind(nodes, paths, i, x);
    PathsGrow(paths, i, x);
    forall a | 0 <= a < |nodes'|
      ensures Linked(nodes', paths', a)
    {
      if a < |nodes| {
        assert Linked(nodes, paths, a);
        PathsDiffer(paths, a, i);
        LinkedGrows(nodes, paths, i, x, a);
      } else {
        LinkedFresh(nodes', paths', x);
      }
    }
    RoutesGrow(nodes, paths, routes, i, x);
  }

  lemma PathsDiffer(paths: seq<seq<Part>>, a: nat, i: nat)
    requires PathsOk(paths) && a < |paths| && i < |paths|
    ensures a != i ==> paths[a] != paths[i]
  {
  }

  lemma PathsGrow(paths: seq<seq<Part>>, i: nat, x: Part)
    requires PathsOk(paths) && i < |paths| && forall j :: 0 <= j < |paths| ==> !(paths[i] + [x] <= paths[j])
    requires Captures(paths[i]) + (if x.Capture? then 1 else 0) <= MAX_CAPTURES
    ensures PathsOk(paths + [paths[i] + [x]])
  {
    hide Captures;
    var paths' := paths + [paths[i] + [x]];
    CapturesSnoc(paths[i], x);
    assert Extends(paths'[i], paths'[|paths|]);
    forall j | 0 < j < |paths'|
      ensures HasFront(paths', j)
    {
      if j < |paths| {
        assert HasFront(paths, j);
        var a :| 0 <= a < j && Extends(paths[a], paths[j]);
        assert Extends(paths'[a], paths'[j]);
      }
    }
  }

  lemma LinkedGrows(nodes: seq<Node>, paths: seq<seq<Part>>, i: nat, x: Part, a: nat)
    requires |nodes| == |paths| && i < |nodes| && a < |nodes| && Linked(nodes, paths, a)
    requires a != i ==> paths[a] != paths[i]
    requires Absent(nodes, i, x)
    ensures Linked(nodes[i := Attach(nodes[i], x, |nodes|)] + [Fresh(x)], paths + [paths[i] + [x]], a)
  {
    var nodes' := nodes[i := Attach(nodes[i], x, |nodes|)] + [Fresh(x)];
    var paths' := paths + [paths[i] + [x]];
    var path := paths[i] + [x];
    assert path[..|path| - 1] == paths[i];
    forall j | 0 <= j < |paths'| && Extends(paths'[a], paths'[j])
      ensures if paths'[j][|paths'[a]|].Capture? then nodes'[a].param == Some(j) else j in nodes'[a].kids
    {
      if j < |paths| {
        assert Extends(paths[a], paths[j]);
      } else {
        assert a == i;
        assert |nodes| in nodes'[a].kids || x.Capture?;
      }
    }
    forall k | k in nodes'[a].kids
      ensures k < |nodes'| && paths'[k] == paths'[a] + [Static(nodes'[k].seg)]
    {
      if k in nodes[a].kids {
        assert nodes'[k].seg == nodes[k].seg;
      }
    }
  }

  /** Nothing is behind a new node. */
  lemma LinkedFresh(nodes: seq<Node>, paths: seq<seq<Part>>, x: Part)
    requires |nodes| == |paths| > 0 && nodes[|nodes| - 1] == Fresh(x)
    requires forall j :: 0 <= j < |paths| - 1 ==> !(paths[|paths| - 1] <= paths[j])
    ensures Linked(nodes, paths, |nodes| - 1)
  {
    var p := paths[|paths| - 1];
    forall j | 0 <= j < |paths|
      ensures !Extends(p, paths[j])
    {
      Behind(p, paths[j]);
    }
  }

  lemma Behind(p: seq<Part>, q: seq<Part>)
    ensures Extends(p, q) ==> p <= q && p != q
  {
  }

  lemma RoutesGrow(nodes: seq<Node>, paths: seq<seq<Part>>, routes: seq<Route>, i: nat, x: Part)
    requires |nodes| == |paths| && RoutesOk(nodes, paths, routes) && i < |nodes|
    requires forall j :: 0 <= j < |paths| ==> !(paths[i] + [x] <= paths[j])
    ensures RoutesOk(nodes[i := Attach(nodes[i], x, |nodes|)] + [Fresh(x)], paths + [paths[i] + [x]], routes)
  {
    hide At, Captures;
    var path := paths[i] + [x];
    var paths' := paths + [path];
    forall r | 0 <= r < |routes|
      ensures routes[r].pattern != path && routes[r].pattern in paths'
    {
      var j :| 0 <= j < |paths| && paths[j] == routes[r].pattern;
      assert !(path <= paths[j]);
      assert paths'[j] == paths[j];
    }
    AtNothing(routes, path);
  }

  /** What a route's path matches: a segment that starts with a colon captures. */
  function PartOf(seg: bytes): Part {
    if seg != [] && seg[0] == COLON then Capture else Static(seg)
  }

  function PatternOf(segs: seq<bytes>): seq<Part> {
    if segs == [] then [] else [PartOf(segs[0])] + PatternOf(segs[1..])
  }

  lemma NoParts()
    ensures PatternOf([]) == []
  {
  }

  lemma PatternFirst(seg: bytes, rest: seq<bytes>)
    ensures PatternOf([seg] + rest) == [PartOf(seg)] + PatternOf(rest)
  {
    assert ([seg] + rest)[1..] == rest;
  }

  lemma Assoc(a: seq<Part>, b: seq<Part>, c: seq<Part>)
    ensures a + (b + c) == (a + b) + c
  {
  }

  lemma {:induction false} CapturesFront(a: seq<Part>, b: seq<Part>)
    ensures Captures(a + b) >= Captures(a)
  {
    if b == [] {
      assert a + b == a;
    } else {
      assert (a + b)[..|a + b| - 1] == a + b[..|b| - 1];
      CapturesFront(a, b[..|b| - 1]);
    }
  }

  lemma {:induction false} AtHas(routes: seq<Route>, pattern: seq<Part>)
    ensures forall r :: r in At(routes, pattern) <==> r in routes && r.pattern == pattern
  {
    if routes != [] {
      var front, last := routes[..|routes| - 1], routes[|routes| - 1];
      AtHas(front, pattern);
      assert routes == front + [last];
    }
  }

  lemma NotAt(routes: seq<Route>, pattern: seq<Part>, verb: bytes)
    requires forall k :: 0 <= k < |At(routes, pattern)| ==> At(routes, pattern)[k].verb != verb
    ensures !HasRoute(routes, pattern, verb)
  {
    AtHas(routes, pattern);
    forall i | 0 <= i < |routes|
      ensures routes[i].pattern == pattern ==> routes[i].verb != verb
    {
      if routes[i].pattern == pattern {
        assert routes[i] in At(routes, pattern);
      }
    }
  }

  lemma RoutesSnoc(nodes: seq<Node>, paths: seq<seq<Part>>, routes: seq<Route>, node: nat, r: Route)
    requires TreeOk(nodes, paths) && RoutesOk(nodes, paths, routes) && node < |nodes| && paths[node] == r.pattern
    requires |r.names| == Captures(r.pattern)
    ensures var nodes' := nodes[node := nodes[node].(eps := nodes[node].eps + [r])];
      TreeOk(nodes', paths) && RoutesOk(nodes', paths, routes + [r])
  {
    hide At, Captures, PathsOk;
    var nodes' := nodes[node := nodes[node].(eps := nodes[node].eps + [r])];
    forall i | 0 <= i < |nodes'|
      ensures Linked(nodes', paths, i) && nodes'[i].eps == At(routes + [r], paths[i])
    {
      assert Linked(nodes, paths, i);
      AtSnoc(routes, r, paths[i]);
      PathsDiffer(paths, i, node);
    }
  }

  lemma AtSnoc(routes: seq<Route>, r: Route, pattern: seq<Part>)
    ensures At(routes + [r], pattern) == At(routes, pattern) + if r.pattern == pattern then [r] else []
  {
    assert (routes + [r])[..|routes|] == routes;
  }

  // What a walk has seen.

  function PathsAt(paths: seq<seq<Part>>, ids: seq<nat>): (ps: seq<seq<Part>>)
    ensures |ps| == |ids|
  {
    seq(|ids|, k requires 0 <= k < |ids| => if ids[k] < |paths| then paths[ids[k]] else [])
  }

  /** The patterns with routes, up to the one that answers. */
  function Visited(routes: seq<Route>, prefix: seq<Part>, patterns: seq<seq<Part>>, verb: bytes): seq<seq<Part>> {
    if patterns == [] then []
    else
      (if At(routes, prefix + patterns[0]) == [] then [] else [prefix + patterns[0]])
      + (if Answers(At(routes, prefix + patterns[0]), verb).Some? then [] else Visited(routes, prefix, patterns[1..], verb))
  }

  /** No more than there is room for. */
  function FirstSeen(ps: seq<seq<Part>>): seq<seq<Part>> {
    if |ps| <= SEEN_MAX then ps else ps[..SEEN_MAX]
  }

  function CapturedBy(suffix: seq<Part>, segs: seq<bytes>): seq<bytes> {
    if |suffix| == |segs| then Captured(suffix, segs) else []
  }

  lemma {:induction false} ForMethodStays(eps: seq<Route>, k: nat, verb: bytes)
    requires k <= |eps| && ForMethod(eps[..k], verb).Some?
    ensures ForMethod(eps, verb) == ForMethod(eps[..k], verb)
  {
    if k < |eps| {
      assert eps[..|eps| - 1][..k] == eps[..k];
      ForMethodStays(eps[..|eps| - 1], k, verb);
    } else {
      assert eps[..k] == eps;
    }
  }

  lemma ArriveSees(was: seq<seq<Part>>, routes: seq<Route>, p: seq<Part>, verb: bytes)
    requires |was| <= SEEN_MAX
    ensures Visited(routes, p, [[]], verb) == if At(routes, p) == [] then [] else [p]
    ensures FirstSeen(was + Visited(routes, p, [[]], verb)) ==
      if At(routes, p) == [] || |was| == SEEN_MAX then was else was + [p]
    ensures Pick(routes, p, [[]], verb) == match Answers(At(routes, p), verb) case Some(r) => Some(Found(r, [])) case None => None
    ensures CapturedBy([], []) == []
  {
    hide At, Answers;
    assert p + [] == p;
    var one: seq<seq<Part>> := [[]];
    assert one[1..] == [];
  }

  /** What a walk of some candidates behind a prefix finds, captures and has seen. */
  ghost predicate Walked(routes: seq<Route>, prefix: seq<Part>, patterns: seq<seq<Part>>, segs: seq<bytes>, verb: bytes,
                         caps: seq<bytes>, caps': seq<bytes>, was: seq<seq<Part>>, now: seq<seq<Part>>, found: Option<Route>) {
    var pick := Pick(routes, prefix, patterns, verb);
    && found == (match pick case Some(f) => Some(f.route) case None => None)
    && caps' == caps + (match pick case Some(f) => CapturedBy(f.suffix, segs) case None => [])
    && now == FirstSeen(was + Visited(routes, prefix, patterns, verb))
  }

  lemma CandidatesSplit(seg: bytes, rest: seq<bytes>)
    ensures Candidates([seg] + rest) == Each(Static(seg), Candidates(rest)) + Each(Capture, Candidates(rest))
  {
    assert ([seg] + rest)[1..] == rest;
  }

  lemma {:induction false} VisitedEach(routes: seq<Route>, prefix: seq<Part>, x: Part, patterns: seq<seq<Part>>, verb: bytes)
    ensures Visited(routes, prefix, Each(x, patterns), verb) == Visited(routes, prefix + [x], patterns, verb)
  {
    hide Answers, At;
    if patterns != [] {
      assert prefix + ([x] + patterns[0]) == (prefix + [x]) + patterns[0];
      assert Each(x, patterns)[0] == [x] + patterns[0] && Each(x, patterns)[1..] == Each(x, patterns[1..]);
      VisitedEach(routes, prefix, x, patterns[1..], verb);
    }
  }

  lemma {:induction false} VisitedAppend(routes: seq<Route>, prefix: seq<Part>, a: seq<seq<Part>>, b: seq<seq<Part>>, verb: bytes)
    ensures Visited(routes, prefix, a + b, verb) ==
      Visited(routes, prefix, a, verb) + if Pick(routes, prefix, a, verb).Some? then [] else Visited(routes, prefix, b, verb)
  {
    hide Answers, At;
    if a == [] {
      assert a + b == b;
    } else {
      assert (a + b)[1..] == a[1..] + b;
      VisitedAppend(routes, prefix, a[1..], b, verb);
      var first := if At(routes, prefix + a[0]) == [] then [] else [prefix + a[0]];
      var last := if Pick(routes, prefix, a[1..], verb).Some? then [] else Visited(routes, prefix, b, verb);
      assert first + (Visited(routes, prefix, a[1..], verb) + last) == first + Visited(routes, prefix, a[1..], verb) + last;
    }
  }

  lemma {:induction false} VisitedNothing(routes: seq<Route>, prefix: seq<Part>, patterns: seq<seq<Part>>, verb: bytes)
    requires forall i :: 0 <= i < |routes| ==> !(prefix <= routes[i].pattern)
    ensures Visited(routes, prefix, patterns, verb) == []
  {
    if patterns != [] {
      AtNothing(routes, prefix + patterns[0]);
      VisitedNothing(routes, prefix, patterns[1..], verb);
    }
  }

  lemma FirstSeenTwice(a: seq<seq<Part>>, b: seq<seq<Part>>, c: seq<seq<Part>>)
    ensures FirstSeen(FirstSeen(a + b) + c) == FirstSeen(a + (b + c))
    ensures |a| <= SEEN_MAX ==> FirstSeen(a + []) == a
  {
    assert a + (b + c) == (a + b) + c;
    assert a + [] == a;
  }

  lemma WalkedStatic(routes: seq<Route>, p: seq<Part>, seg: bytes, c: seq<seq<Part>>, rest: seq<bytes>, verb: bytes,
                     caps: seq<bytes>, caps': seq<bytes>, was: seq<seq<Part>>, now: seq<seq<Part>>, found: Option<Route>)
    requires Walked(routes, p + [Static(seg)], c, rest, verb, caps, caps', was, now, found)
    ensures Walked(routes, p, Each(Static(seg), c), [seg] + rest, verb, caps, caps', was, now, found)
  {
    hide Pick, Visited;
    PickEach(routes, p, Static(seg), c, verb);
    VisitedEach(routes, p, Static(seg), c, verb);
    var pick := Pick(routes, p + [Static(seg)], c, verb);
    if pick.Some? {
      CapturedFront(Static(seg), pick.value.suffix, seg, rest);
    }
  }

  lemma CapturedFront(x: Part, suffix: seq<Part>, seg: bytes, rest: seq<bytes>)
    ensures CapturedBy([x] + suffix, [seg] + rest) ==
      if |suffix| == |rest| then (if x.Capture? then [seg] else []) + CapturedBy(suffix, rest) else []
  {
    assert ([x] + suffix)[1..] == suffix && ([seg] + rest)[1..] == rest;
  }

  lemma WalkedCapture(routes: seq<Route>, p: seq<Part>, seg: bytes, c: seq<seq<Part>>, rest: seq<bytes>, verb: bytes,
                      caps: seq<bytes>, caps': seq<bytes>, was: seq<seq<Part>>, now: seq<seq<Part>>, found: Option<Route>)
    requires Walked(routes, p + [Capture], c, rest, verb, caps + [seg], caps', was, now, found) && c == Candidates(rest)
    ensures found.Some? ==> Walked(routes, p, Each(Capture, c), [seg] + rest, verb, caps, caps', was, now, found)
    ensures found.None? ==> caps' == caps + [seg] && Walked(routes, p, Each(Capture, c), [seg] + rest, verb, caps, caps, was, now, found)
  {
    hide Pick, Visited, Candidates;
    PickEach(routes, p, Capture, c, verb);
    VisitedEach(routes, p, Capture, c, verb);
    var pick := Pick(routes, p + [Capture], c, verb);
    if pick.Some? {
      CapturedFront(Capture, pick.value.suffix, seg, rest);
      PickMatches(routes, p + [Capture], rest, verb);
      assert (caps + [seg]) + CapturedBy(pick.value.suffix, rest) == caps + ([seg] + CapturedBy(pick.value.suffix, rest));
    } else {
      assert caps + [seg] + [] == caps + [seg] && caps + [] == caps;
    }
  }

  /** What is picked is a candidate, and answers. */
  lemma {:induction false} PickIs(routes: seq<Route>, prefix: seq<Part>, patterns: seq<seq<Part>>, verb: bytes) returns (i: nat)
    requires Pick(routes, prefix, patterns, verb).Some?
    ensures i < |patterns| && var f := Pick(routes, prefix, patterns, verb).value;
      && f.suffix == patterns[i] && Answers(At(routes, prefix + patterns[i]), verb) == Some(f.route)
      && forall k :: 0 <= k < i ==> Answers(At(routes, prefix + patterns[k]), verb).None?
  {
    hide Answers, At;
    if Answers(At(routes, prefix + patterns[0]), verb).Some? {
      i := 0;
    } else {
      var j := PickIs(routes, prefix, patterns[1..], verb);
      i := j + 1;
      forall k | 0 <= k < i
        ensures Answers(At(routes, prefix + patterns[k]), verb).None?
      {
        if k > 0 {
          assert patterns[k] == patterns[1..][k - 1];
        }
      }
    }
  }

  lemma PickMatches(routes: seq<Route>, prefix: seq<Part>, segs: seq<bytes>, verb: bytes)
    requires Pick(routes, prefix, Candidates(segs), verb).Some?
    ensures Matches(Pick(routes, prefix, Candidates(segs), verb).value.suffix, segs)
  {
    var i := PickIs(routes, prefix, Candidates(segs), verb);
    CandidatesMatch(segs, i);
  }

  lemma WalkedNowhere(routes: seq<Route>, p: seq<Part>, x: Part, c: seq<seq<Part>>, segs: seq<bytes>, verb: bytes, caps: seq<bytes>, was: seq<seq<Part>>)
    requires |was| <= SEEN_MAX && forall r :: 0 <= r < |routes| ==> !(p + [x] <= routes[r].pattern)
    ensures Walked(routes, p, Each(x, c), segs, verb, caps, caps, was, was, None)
  {
    hide Pick, Visited;
    PickEach(routes, p, x, c, verb);
    VisitedEach(routes, p, x, c, verb);
    PickNothing(routes, p + [x], c, verb);
    VisitedNothing(routes, p + [x], c, verb);
    assert caps + [] == caps && was + [] == was;
  }

  lemma WalkedFirst(routes: seq<Route>, p: seq<Part>, a: seq<seq<Part>>, b: seq<seq<Part>>, segs: seq<bytes>, verb: bytes,
                    caps: seq<bytes>, caps': seq<bytes>, was: seq<seq<Part>>, now: seq<seq<Part>>, found: Option<Route>)
    requires Walked(routes, p, a, segs, verb, caps, caps', was, now, found) && found.Some?
    ensures Walked(routes, p, a + b, segs, verb, caps, caps', was, now, found)
  {
    hide Pick, Visited;
    PickAppend(routes, p, a, b, verb);
    VisitedAppend(routes, p, a, b, verb);
    assert Visited(routes, p, a, verb) + [] == Visited(routes, p, a, verb);
  }

  lemma WalkedSecond(routes: seq<Route>, p: seq<Part>, a: seq<seq<Part>>, b: seq<seq<Part>>, segs: seq<bytes>, verb: bytes,
                     caps: seq<bytes>, caps': seq<bytes>, was: seq<seq<Part>>, between: seq<seq<Part>>, now: seq<seq<Part>>, found: Option<Route>)
    requires Walked(routes, p, a, segs, verb, caps, caps, was, between, None)
    requires Walked(routes, p, b, segs, verb, caps, caps', between, now, found)
    ensures Walked(routes, p, a + b, segs, verb, caps, caps', was, now, found)
  {
    hide Pick, Visited;
    PickAppend(routes, p, a, b, verb);
    VisitedAppend(routes, p, a, b, verb);
    FirstSeenTwice(was, Visited(routes, p, a, verb), Visited(routes, p, b, verb));
  }

  predicate CanAnswer(q: Route, verb: bytes) {
    q.verb == verb || (verb == HEAD && q.verb == GET)
  }

  lemma {:induction false} ForMethodIs(eps: seq<Route>, verb: bytes)
    ensures var r := ForMethod(eps, verb); if r.Some? then r.value in eps && r.value.verb == verb else forall e :: e in eps ==> e.verb != verb
  {
    if eps != [] {
      ForMethodIs(eps[..|eps| - 1], verb);
      assert eps == eps[..|eps| - 1] + [eps[|eps| - 1]];
    }
  }

  /** What answers at a pattern is a route there; nothing answers when none there can. */
  lemma AnswersAre(routes: seq<Route>, pattern: seq<Part>, verb: bytes)
    ensures var a := Answers(At(routes, pattern), verb);
      if a.Some? then a.value in routes && a.value.pattern == pattern
                      && (a.value.verb == verb || (verb == HEAD && a.value.verb == GET && !HasRoute(routes, pattern, HEAD)))
      else forall q :: q in routes && q.pattern == pattern ==> !CanAnswer(q, verb)
  {
    var eps := At(routes, pattern);
    AtHas(routes, pattern);
    ForMethodIs(eps, verb);
    ForMethodIs(eps, GET);
    if verb == HEAD && ForMethod(eps, verb).None? {
      forall i | 0 <= i < |routes|
        ensures !(routes[i].pattern == pattern && routes[i].verb == HEAD)
      {
        assert routes[i].pattern == pattern ==> routes[i] in eps;
      }
    }
  }

  lemma RoutedTo(routes: seq<Route>, segs: seq<bytes>, verb: bytes)
    requires Pick(routes, [], Candidates(segs), verb).Some?
    ensures var f := Pick(routes, [], Candidates(segs), verb).value;
      && f.route in routes && f.route.pattern == f.suffix && Matches(f.suffix, segs)
      && (f.route.verb == verb || (verb == HEAD && f.route.verb == GET && !HasRoute(routes, f.suffix, HEAD)))
      && forall q :: q in routes && Matches(q.pattern, segs) && Before(q.pattern, f.suffix) ==> !CanAnswer(q, verb)
  {
    hide At, Answers;
    var f := Pick(routes, [], Candidates(segs), verb).value;
    var i := PickIs(routes, [], Candidates(segs), verb);
    assert [] + f.suffix == f.suffix;
    CandidatesMatch(segs, i);
    AnswersAre(routes, f.suffix, verb);
    forall q | q in routes && Matches(q.pattern, segs) && Before(q.pattern, f.suffix)
      ensures !CanAnswer(q, verb)
    {
      var j := MatchesAreCandidates(q.pattern, segs);
      NotBoth(segs, i, j);
      assert [] + q.pattern == q.pattern;
      AnswersAre(routes, q.pattern, verb);
    }
  }

  /** Before is strict along the candidates. */
  lemma NotBoth(segs: seq<bytes>, i: nat, j: nat)
    requires i < |Candidates(segs)| && j < |Candidates(segs)| && Before(Candidates(segs)[j], Candidates(segs)[i])
    ensures j < i
  {
    var x, y := Candidates(segs)[i], Candidates(segs)[j];
    BeforeOnce(y, x);
    if i < j {
      CandidatesInOrder(segs, i, j);
    }
  }

  lemma BeforeOnce(p: seq<Part>, q: seq<Part>)
    requires Before(p, q)
    ensures !Before(q, p)
  {
    var i :| 0 <= i < |p| && i < |q| && p[..i] == q[..i] && p[i].Static? && q[i].Capture?;
    SameFront(p, q, i);
    forall j | 0 <= j < |p| && j < |q|
      ensures !(q[..j] == p[..j] && q[j].Static? && p[j].Capture?)
    {
      SameFront(q, p, j);
    }
  }

  lemma SameFront(p: seq<Part>, q: seq<Part>, n: nat)
    requires n <= |p| && n <= |q|
    ensures p[..n] == q[..n] ==> forall k :: 0 <= k < n ==> p[k] == q[k]
  {
    if p[..n] == q[..n] {
      forall k | 0 <= k < n
        ensures p[k] == q[k]
      {
        assert p[..n][k] == q[..n][k];
      }
    }
  }

  /** The patterns that have routes, of any method. */
  function WithRoutes(routes: seq<Route>, patterns: seq<seq<Part>>): seq<seq<Part>> {
    if patterns == [] then []
    else (if At(routes, patterns[0]) == [] then [] else [patterns[0]]) + WithRoutes(routes, patterns[1..])
  }

  lemma {:induction false} VisitedAll(routes: seq<Route>, patterns: seq<seq<Part>>, verb: bytes)
    requires Pick(routes, [], patterns, verb).None?
    ensures Visited(routes, [], patterns, verb) == WithRoutes(routes, patterns)
  {
    hide At, Answers;
    if patterns != [] {
      assert [] + patterns[0] == patterns[0];
      VisitedAll(routes, patterns[1..], verb);
    }
  }

  lemma {:induction false} PickNone(routes: seq<Route>, patterns: seq<seq<Part>>, verb: bytes, i: nat)
    requires Pick(routes, [], patterns, verb).None? && i < |patterns|
    ensures Answers(At(routes, patterns[i]), verb).None?
  {
    hide At, Answers;
    assert [] + patterns[0] == patterns[0];
    if i > 0 {
      PickNone(routes, patterns[1..], verb, i - 1);
    }
  }

  lemma NoneRouted(routes: seq<Route>, segs: seq<bytes>, verb: bytes)
    requires Pick(routes, [], Candidates(segs), verb).None?
    ensures forall q :: q in routes && Matches(q.pattern, segs) ==> !CanAnswer(q, verb)
    ensures FirstSeen([] + Visited(routes, [], Candidates(segs), verb)) == FirstSeen(WithRoutes(routes, Candidates(segs)))
  {
    hide At, Answers;
    forall q | q in routes && Matches(q.pattern, segs)
      ensures !CanAnswer(q, verb)
    {
      var i := MatchesAreCandidates(q.pattern, segs);
      PickNone(routes, Candidates(segs), verb, i);
      AnswersAre(routes, q.pattern, verb);
    }
    VisitedAll(routes, Candidates(segs), verb);
    assert [] + WithRoutes(routes, Candidates(segs)) == WithRoutes(routes, Candidates(segs));
  }

  lemma {:induction false} CapturedCount(pattern: seq<Part>, segs: seq<bytes>)
    requires |pattern| == |segs|
    ensures |Captured(pattern, segs)| == Captures(pattern)
    decreases |pattern|
  {
    if pattern != [] {
      CapturedCount(pattern[1..], segs[1..]);
      CapturesFirst(pattern);
    }
  }

  lemma {:induction false} CapturesFirst(pattern: seq<Part>)
    requires pattern != []
    ensures Captures(pattern) == (if pattern[0].Capture? then 1 else 0) + Captures(pattern[1..])
  {
    var n := |pattern|;
    if n > 1 {
      CapturesFirst(pattern[..n - 1]);
      assert pattern[..n - 1][1..] == pattern[1..][..n - 2];
    }
  }

  // Building the tree.

  /** A route as it was registered: its path, and its groups' prefixes, innermost first. */
  datatype Endpoint = Endpoint(verb: bytes, path: bytes, prefixes: seq<bytes>, id: nat)

  /** The segments a route is for. */
  function SegmentsFor(e: Endpoint): seq<bytes> {
    SegmentsOf(e.prefixes) + Segments(e.path)
  }

  function Names(segs: seq<bytes>): (names: seq<bytes>) {
    if segs == [] then []
    else (if PartOf(segs[0]).Capture? then [segs[0][1..]] else []) + Names(segs[1..])
  }

  lemma {:induction false} NamesCount(segs: seq<bytes>)
    ensures |Names(segs)| == Captures(PatternOf(segs))
  {
    if segs != [] {
      NamesCount(segs[1..]);
      CapturesFirst(PatternOf(segs));
    }
  }

  function RouteOf(e: Endpoint): Route {
    Route(PatternOf(SegmentsFor(e)), Names(SegmentsFor(e)), e.verb, e.id)
  }

  /** The routes kept of a list, in order. */
  function Kept(es: seq<Endpoint>): seq<Route> {
    if es == [] then [] else Accept(Kept(es[..|es| - 1]), RouteOf(es[|es| - 1]))
  }

  /** ioxd__router_build. */
  method Build(es: seq<Endpoint>) returns (router: Router)
    ensures router.Valid() && router.routes == Kept(es)
  {
    hide Router.Valid, SegmentsFor, PatternOf, Names;
    router := new Router();
    for i := 0 to |es|
      invariant router.Valid() && fresh(router) && router.routes == Kept(es[..i])
    {
      assert es[..i + 1][..i] == es[..i];
      NamesCount(SegmentsFor(es[i]));
      var full := FullPath(es[i].path, es[i].prefixes);
      FullIs(es[i], full);
      var kept := router.Insert(RouteOf(es[i]), full);
    }
    assert es[..|es|] == es;
  }

  lemma FullIs(e: Endpoint, full: bytes)
    requires Segments(full) == SegmentsOf(e.prefixes) + Segments(e.path)
    ensures Segments(full) == SegmentsFor(e)
  {
  }

  /** A route is answered from the table exactly when one of its kind was registered with few enough captures; the first one is. */
  lemma {:induction false} KeptAre(es: seq<Endpoint>, pattern: seq<Part>, verb: bytes)
    ensures HasRoute(Kept(es), pattern, verb) <==>
      Captures(pattern) <= MAX_CAPTURES && exists i :: 0 <= i < |es| && RouteOf(es[i]).pattern == pattern && es[i].verb == verb
  {
    hide Captures, PatternOf, Names, SegmentsFor;
    if es != [] {
      var front, last := es[..|es| - 1], es[|es| - 1];
      KeptAre(front, pattern, verb);
      AcceptHas(Kept(front), RouteOf(last), pattern, verb);
      assert es == front + [last];
      if exists i :: 0 <= i < |front| && RouteOf(front[i]).pattern == pattern && front[i].verb == verb {
        var i :| 0 <= i < |front| && RouteOf(front[i]).pattern == pattern && front[i].verb == verb;
        assert es[i] == front[i];
      }
      if exists i :: 0 <= i < |es| && RouteOf(es[i]).pattern == pattern && es[i].verb == verb {
        var i :| 0 <= i < |es| && RouteOf(es[i]).pattern == pattern && es[i].verb == verb;
        assert i < |front| ==> es[i] == front[i];
      }
    }
  }

  lemma AcceptHas(routes: seq<Route>, r: Route, pattern: seq<Part>, verb: bytes)
    ensures HasRoute(Accept(routes, r), pattern, verb) <==>
      HasRoute(routes, pattern, verb) || (r.pattern == pattern && r.verb == verb && Captures(pattern) <= MAX_CAPTURES)
  {
    hide Captures;
    var all := routes + [r];
    assert all[|routes|] == r && forall i :: 0 <= i < |routes| ==> all[i] == routes[i];
  }

  // The methods a 405 lists.

  /** The endpoints seen, in the order they were registered, one of each method; no more than there is room for. */
  method AllowedEndpoints(nodes: seq<seq<Route>>) returns (out: seq<Route>)
    ensures |out| <= ALLOW_MAX
    ensures forall i, j :: 0 <= i < j < |out| ==> out[i].id <= out[j].id && out[i].verb != out[j].verb
    ensures forall r :: r in out ==> exists i :: 0 <= i < |nodes| && r in nodes[i]
    ensures |out| < ALLOW_MAX ==> forall i, r :: 0 <= i < |nodes| && r in nodes[i] ==> Listed(out, r.verb)
  {
    out := [];
    for i := 0 to |nodes|
      invariant |out| <= ALLOW_MAX && InOrder(out)
      invariant forall r :: r in out ==> exists k :: 0 <= k < i && r in nodes[k]
      invariant |out| < ALLOW_MAX ==> forall k, r :: 0 <= k < i && r in nodes[k] ==> Listed(out, r.verb)
    {
      ghost var before := out;
      out := AddNode(out, nodes[i]);
      forall k, r | 0 <= k < i + 1 && r in nodes[k] && |out| < ALLOW_MAX
        ensures Listed(out, r.verb)
      {
        if k < i {
          assert Listed(before, r.verb);
        }
      }
    }
  }

  predicate Listed(out: seq<Route>, verb: bytes) {
    exists k :: 0 <= k < |out| && out[k].verb == verb
  }

  predicate InOrder(out: seq<Route>) {
    forall i, j :: 0 <= i < j < |out| ==> out[i].id <= out[j].id && out[i].verb != out[j].verb
  }

  /** The routes of one node. */
  method AddNode(was: seq<Route>, eps: seq<Route>) returns (out: seq<Route>)
    requires |was| <= ALLOW_MAX && InOrder(was)
    ensures |was| <= |out| <= ALLOW_MAX && InOrder(out)
    ensures forall r :: r in out ==> r in was || r in eps
    ensures forall v :: Listed(was, v) ==> Listed(out, v)
    ensures |out| < ALLOW_MAX ==> forall r :: r in eps ==> Listed(out, r.verb)
  {
    out := was;
    var j := 0;
    while j < |eps| && |out| < ALLOW_MAX
      invariant 0 <= j <= |eps| && |was| <= |out| <= ALLOW_MAX && InOrder(out)
      invariant forall r :: r in out ==> r in was || r in eps
      invariant forall v :: Listed(was, v) ==> Listed(out, v)
      invariant forall k :: 0 <= k < j ==> Listed(out, eps[k].verb)
    {
      ghost var before := out;
      if !Listed(out, eps[j].verb) {
        out := InsertById(out, eps[j]);
      }
      assert forall v :: Listed(before, v) ==> Listed(out, v);
      j := j + 1;
    }
  }

  /** The insertion of allowed_endpoints: behind every endpoint registered before it. */
  method InsertById(out: seq<Route>, r: Route) returns (more: seq<Route>)
    requires InOrder(out) && !Listed(out, r.verb)
    ensures InOrder(more) && |more| == |out| + 1
    ensures forall x :: x in more <==> x in out || x == r
    ensures forall v :: Listed(more, v) <==> Listed(out, v) || v == r.verb
  {
    var at := 0;
    while at < |out| && out[at].id < r.id
      invariant 0 <= at <= |out|
      invariant forall k :: 0 <= k < at ==> out[k].id < r.id
    {
      at := at + 1;
    }
    more := out[..at] + [r] + out[at..];
    InsertedOrder(out, at, r, more);
    InsertedHas(out, at, r, more);
  }

  lemma InsertedOrder(out: seq<Route>, at: nat, r: Route, more: seq<Route>)
    requires at <= |out| && more == out[..at] + [r] + out[at..] && InOrder(out) && !Listed(out, r.verb)
    requires (forall k :: 0 <= k < at ==> out[k].id < r.id) && (at < |out| ==> r.id <= out[at].id)
    ensures InOrder(more)
  {
    forall i, j | 0 <= i < j < |more|
      ensures more[i].id <= more[j].id && more[i].verb != more[j].verb
    {
      var a, b := if i < at then i else i - 1, if j < at then j else j - 1;
      assert i != at ==> more[i] == out[a];
      assert j != at ==> more[j] == out[b];
      if i == at {
        assert out[b].id >= out[at].id;
      }
    }
  }

  lemma InsertedHas(out: seq<Route>, at: nat, r: Route, more: seq<Route>)
    requires at <= |out| && more == out[..at] + [r] + out[at..]
    ensures forall x :: x in more <==> x in out || x == r
    ensures forall v :: Listed(more, v) <==> Listed(out, v) || v == r.verb
  {
    assert out == out[..at] + out[at..];
    assert forall k :: 0 <= k < |out| ==> more[if k < at then k else k + 1] == out[k];
    assert more[at] == r;
    forall v
      ensures Listed(more, v) <==> Listed(out, v) || v == r.verb
    {
      if Listed(out, v) {
        var k :| 0 <= k < |out| && out[k].verb == v;
        assert more[if k < at then k else k + 1].verb == v;
      }
    }
  }

  // The chain of a route.

  /** The middleware of a chain of groups, outermost first. */
  function Around(groups: seq<seq<nat>>): seq<nat> {
    if groups == [] then [] else Around(groups[1..]) + groups[0]
  }

  /** flatten_chain: the groups' middleware, the outermost group's first, then the route's own. */
  method FlattenChain(groups: seq<seq<nat>>, own: seq<nat>) returns (chain: seq<nat>)
    ensures chain == Around(groups) + own
  {
    chain := own;
    for i := 0 to |groups|
      invariant Around(groups) + own == Around(groups[i..]) + chain
    {
      assert groups[i..][1..] == groups[i + 1..];
      assert Around(groups[i + 1..]) + groups[i] + chain == Around(groups[i + 1..]) + (groups[i] + chain);
      chain := groups[i] + chain;
    }
    assert [] + chain == chain;
  }

  /** A chain being run: how far it got, and what ran. */
  class Next {
    const n: nat
    var i: nat
    ghost var ran: seq<nat>

    constructor (n: nat)
      ensures this.n == n && i == 0 && ran == []
    {
      this.n, i, ran := n, 0, [];
    }

    /** Each middleware, and then the handler (number n), ran at most once, in order. */
    ghost predicate Valid()
      reads this
    {
      i <= n + 1 && |ran| == i && forall k :: 0 <= k < i ==> ran[k] == k
    }

    /**
     * ioxd_next_run: the next one in line, which itself may call this any number of times; once the
     * handler ran nothing more does.
     */
    method Run(calls: seq<nat>)
      requires Valid()
      modifies this
      ensures Valid() && old(i) <= i && (old(i) <= n ==> old(i) < i)
      ensures old(i) > n ==> i == old(i)
      decreases n + 1 - i
    {
      if i > n {
        return;
      }
      var at := i;
      i := i + 1;
      ran := ran + [at];
      if at < n {
        var times := if at < |calls| then calls[at] else 0;
        for k := 0 to times
          invariant Valid() && at < i
        {
          Run(calls);
        }
      }
    }
  }
}
