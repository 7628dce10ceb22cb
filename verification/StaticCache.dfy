/**
 * The static file cache of a worker (lib/http/static.c): a hash table of chains, a recency list
 * through the same entries, a budget in bytes, and entries that sends still read after they have
 * left the table. Serving is cut where its coroutine can be suspended: while a file is read and
 * while a body is written.
 */
module StaticCaching {
  import opened Bytes
  import opened Rings

  /** FNV-1a over 32 bits, as hash_of. */
  function HashFrom(name: bytes, h: bv32): bv32
    decreases |name|
  {
    if name == [] then h else HashFrom(name[1..], (h ^ (name[0] as bv32)) * 16777619)
  }

  function HashOf(name: bytes): nat {
    HashFrom(name, 2166136261) as nat
  }

  /** hash & (n - 1), n a power of two. */
  function BucketOf(hash: nat, n: nat): (b: nat)
    requires n > 0
    ensures b < n
  {
    Mod(hash, n)
  }

  class Entry {
    const name: bytes
    const hash: nat := HashOf(name)
    const size: nat
    var chain: Entry?
    var newer: Entry?
    var older: Entry?
    var refs: nat
    var dropped: bool

    /** The entry load fills: its name, the hash of it, and the bytes of all its variants. */
    constructor (name: bytes, size: nat)
      ensures this.name == name && this.size == size
      ensures refs == 0 && !dropped
    {
      this.name, this.size := name, size;
      chain, newer, older, refs, dropped := null, null, null, 0, false;
    }
  }

  // ---------------------------------------------------------------- lists of entries

  ghost function At(es: seq<Entry>, i: int): Entry? {
    if 0 <= i < |es| then es[i] else null
  }

  ghost predicate Distinct(es: seq<Entry>) {
    forall i, j :: 0 <= i < j < |es| ==> es[i] != es[j]
  }

  /** es without its element k. */
  function Minus<T>(es: seq<T>, k: nat): (r: seq<T>)
    requires k < |es|
    ensures |r| == |es| - 1
  {
    es[..k] + es[k + 1..]
  }

  lemma Different(es: seq<Entry>)
    requires Distinct(es)
    ensures forall i, j :: 0 <= i < |es| && 0 <= j < |es| && es[i] == es[j] ==> i == j
  {
  }

  function IndexOf(es: seq<Entry>, e: Entry): (k: nat)
    requires e in es
    ensures k < |es| && es[k] == e
  {
    if es[0] == e then 0 else 1 + IndexOf(es[1..], e)
  }

  /** The list with e taken out. */
  function Without(es: seq<Entry>, e: Entry): seq<Entry>
    requires e in es
  {
    Minus(es, IndexOf(es, e))
  }

  lemma InMembers(es: seq<Entry>, e: Entry)
    ensures e in Members(es) <==> e in es
  {
  }

  lemma FrontOf(es: seq<Entry>, e: Entry)
    ensures Members([e] + es) == Members(es) + {e} && Total([e] + es) == e.size + Total(es)
  {
    assert ([e] + es)[1..] == es;
  }

  lemma WithoutIs(es: seq<Entry>, e: Entry)
    requires e in es
    ensures Without(es, e) == Minus(es, IndexOf(es, e))
  {
  }

  lemma MinusElement(es: seq<Entry>, k: nat, e: Entry)
    requires k < |es| && Distinct(es)
    ensures e in Minus(es, k) <==> e in es && e != es[k]
  {
    MinusElements(es, k);
    var r := Minus(es, k);
    if e in r {
      var i :| 0 <= i < |r| && r[i] == e;
      assert e == es[if i < k then i else i + 1];
    }
  }

  lemma MinusElements(es: seq<Entry>, k: nat)
    requires k < |es| && Distinct(es)
    ensures Distinct(Minus(es, k))
    ensures forall e :: e in Minus(es, k) <==> e in es && e != es[k]
  {
    var r := Minus(es, k);
    forall e | e in es && e != es[k]
      ensures e in r
    {
      var i :| 0 <= i < |es| && es[i] == e;
      assert r[if i < k then i else i - 1] == e;
    }
  }

  function Total(es: seq<Entry>): nat {
    if es == [] then 0 else es[0].size + Total(es[1..])
  }

  lemma {:induction false} TotalMinus(es: seq<Entry>, k: nat)
    requires k < |es|
    ensures Total(es) == es[k].size + Total(Minus(es, k))
  {
    if k > 0 {
      TotalMinus(es[1..], k - 1);
      assert Minus(es, k)[1..] == Minus(es[1..], k - 1);
    } else {
      assert Minus(es, 0) == es[1..];
    }
  }

  /** The pointers of a set of entries, as values. */
  ghost function Newer(all: set<Entry>): map<Entry, Entry?>
    reads all`newer
  {
    map e | e in all :: e.newer
  }

  ghost function Older(all: set<Entry>): map<Entry, Entry?>
    reads all`older
  {
    map e | e in all :: e.older
  }

  ghost function Next(all: set<Entry>): map<Entry, Entry?>
    reads all`chain
  {
    map e | e in all :: e.chain
  }

  type Pointers = map<Entry, Entry?>

  ghost predicate Ups(es: seq<Entry>, newer: Pointers) {
    forall i :: 0 <= i < |es| ==> es[i] in newer && newer[es[i]] == At(es, i - 1)
  }

  ghost predicate Downs(es: seq<Entry>, older: Pointers) {
    forall i :: 0 <= i < |es| ==> es[i] in older && older[es[i]] == At(es, i + 1)
  }

  /** The recency list: newest at one end, each entry linked both ways to its neighbours. */
  ghost predicate Linked(es: seq<Entry>, newest: Entry?, oldest: Entry?, newer: Pointers, older: Pointers) {
    && newest == At(es, 0)
    && oldest == At(es, |es| - 1)
    && Ups(es, newer)
    && Downs(es, older)
  }

  ghost predicate ChainFrom(head: Entry?, es: seq<Entry>, next: Pointers) {
    && head == At(es, 0)
    && forall i :: 0 <= i < |es| ==> es[i] in next && next[es[i]] == At(es, i + 1)
  }

  ghost predicate Chained(heads: seq<Entry?>, chains: seq<seq<Entry>>, next: Pointers) {
    && |heads| == |chains|
    && forall b :: 0 <= b < |chains| ==> ChainFrom(heads[b], chains[b], next)
  }

  ghost function Set(p: Pointers, at: Entry?, to: Entry?): Pointers {
    if at == null then p else p[at := to]
  }

  lemma OutUps(es: seq<Entry>, k: nat, newer: Pointers)
    requires Distinct(es) && k < |es| && Ups(es, newer)
    ensures Ups(Minus(es, k), Set(newer, At(es, k + 1), newer[es[k]])[es[k] := null])
  {
    var r, newer' := Minus(es, k), Set(newer, At(es, k + 1), newer[es[k]])[es[k] := null];
    forall i | 0 <= i < |r|
      ensures r[i] in newer' && newer'[r[i]] == At(r, i - 1)
    {
      var o := if i < k then i else i + 1;
      assert r[i] == es[o] && es[o] != es[k];
      assert i != k ==> es[o] != At(es, k + 1);
      assert i > 0 ==> r[i - 1] == es[if i - 1 < k then i - 1 else i];
    }
  }

  lemma OutDowns(es: seq<Entry>, k: nat, older: Pointers)
    requires Distinct(es) && k < |es| && Downs(es, older)
    ensures Downs(Minus(es, k), Set(older, At(es, k - 1), older[es[k]])[es[k] := null])
  {
    var r, older' := Minus(es, k), Set(older, At(es, k - 1), older[es[k]])[es[k] := null];
    forall i | 0 <= i < |r|
      ensures r[i] in older' && older'[r[i]] == At(r, i + 1)
    {
      DownAt(es, k, older, i);
    }
  }

  lemma DownAt(es: seq<Entry>, k: nat, older: Pointers, i: nat)
    requires Distinct(es) && k < |es| && Downs(es, older) && i < |es| - 1
    ensures var r, older' := Minus(es, k), Set(older, At(es, k - 1), older[es[k]])[es[k] := null];
            r[i] in older' && older'[r[i]] == At(r, i + 1)
  {
    var o := if i < k then i else i + 1;
    assert Minus(es, k)[i] == es[o] && es[o] != es[k];
    assert At(Minus(es, k), i + 1) == At(es, if i + 1 < k then i + 1 else i + 2);
    if i + 1 == k {
      assert es[o] == At(es, k - 1);
    } else {
      assert es[o] != At(es, k - 1);
    }
  }

  lemma NeighboursOf(es: seq<Entry>, k: nat, newer: Pointers, older: Pointers)
    requires k < |es| && Ups(es, newer) && Downs(es, older)
    ensures es[k] in newer && newer[es[k]] == At(es, k - 1)
    ensures es[k] in older && older[es[k]] == At(es, k + 1)
  {
  }

  /** What taking element k out of a linked list does to its pointers. */
  lemma OutLinked(es: seq<Entry>, k: nat, newest: Entry?, oldest: Entry?, newer: Pointers, older: Pointers)
    requires Distinct(es) && k < |es| && Linked(es, newest, oldest, newer, older)
    ensures var e := es[k];
            Linked(Minus(es, k),
                   if newer[e] == null then older[e] else newest,
                   if older[e] == null then newer[e] else oldest,
                   Set(newer, older[e], newer[e])[e := null],
                   Set(older, newer[e], older[e])[e := null])
  {
    hide Distinct, Ups, Downs;
    OutUps(es, k, newer);
    OutDowns(es, k, older);
    NeighboursOf(es, k, newer, older);
  }

  lemma InLinked(es: seq<Entry>, e: Entry, newest: Entry?, oldest: Entry?, newer: Pointers, older: Pointers)
    requires Distinct(es) && e !in es && Linked(es, newest, oldest, newer, older)
    ensures Linked([e] + es, e, if oldest == null then e else oldest,
                   Set(newer[e := null], newest, e), older[e := newest])
    ensures Distinct([e] + es)
  {
    var r := [e] + es;
    var newer' := Set(newer[e := null], newest, e);
    var older' := older[e := newest];
    forall i | 0 <= i < |r|
      ensures r[i] in newer' && newer'[r[i]] == At(r, i - 1)
    {
    }
    forall i | 0 <= i < |r|
      ensures r[i] in older' && older'[r[i]] == At(r, i + 1)
    {
    }
  }

  ghost function Members(es: seq<Entry>): set<Entry> {
    set e | e in es
  }

  /** Every chain holds, once each, exactly the entries of es that hash to it. */
  ghost predicate Placed(chains: seq<seq<Entry>>, es: set<Entry>) {
    && |chains| > 0
    && (forall b :: 0 <= b < |chains| ==> Distinct(chains[b]))
    && (forall b, e :: 0 <= b < |chains| && e in chains[b] ==>
                         e in es && BucketOf(e.hash, |chains|) == b)
    && (forall e :: e in es ==> e in chains[BucketOf(e.hash, |chains|)])
  }

  lemma OutChain(head: Entry?, es: seq<Entry>, k: nat, next: Pointers)
    requires Distinct(es) && k < |es| && ChainFrom(head, es, next)
    ensures ChainFrom(if k == 0 then next[es[k]] else head, Minus(es, k),
                      if k == 0 then next else next[es[k - 1] := next[es[k]]])
  {
    var r := Minus(es, k);
    var next' := if k == 0 then next else next[es[k - 1] := next[es[k]]];
    forall i | 0 <= i < |r|
      ensures r[i] in next' && next'[r[i]] == At(r, i + 1)
    {
      var o := if i < k then i else i + 1;
      assert r[i] == es[o];
      assert o != k - 1 ==> k == 0 || es[o] != es[k - 1];
      assert At(r, i + 1) == At(es, if i + 1 < k then i + 1 else i + 2);
    }
  }

  lemma OtherChain(head: Entry?, es: seq<Entry>, next: Pointers, at: Entry, to: Entry?)
    requires ChainFrom(head, es, next) && at !in es
    ensures ChainFrom(head, es, next[at := to])
  {
  }

  lemma PushChain(head: Entry?, es: seq<Entry>, next: Pointers, e: Entry)
    requires ChainFrom(head, es, next) && e !in es
    ensures ChainFrom(e, [e] + es, next[e := head])
  {
    var r := [e] + es;
    forall i | 0 <= i < |r|
      ensures r[i] in next[e := head] && next[e := head][r[i]] == At(r, i + 1)
    {
      assert At(r, i + 1) == At(es, i);
    }
  }

  /** An entry is in one chain at most. */
  lemma OneChain(chains: seq<seq<Entry>>, es: set<Entry>, e: Entry, b: nat)
    requires Placed(chains, es) && b < |chains|
    ensures e in chains[b] <==> e in es && BucketOf(e.hash, |chains|) == b
  {
  }

  lemma OutPlaced(chains: seq<seq<Entry>>, es: set<Entry>, b: nat, k: nat)
    requires Placed(chains, es) && b < |chains| && k < |chains[b]|
    ensures Placed(chains[b := Minus(chains[b], k)], es - {chains[b][k]})
  {
    hide Distinct, Minus;
    MinusElements(chains[b], k);
    OneChain(chains, es, chains[b][k], b);
    var e, out := chains[b][k], chains[b := Minus(chains[b], k)];
    assert |out| == |chains|;
    forall x | x in es - {e}
      ensures x in out[BucketOf(x.hash, |out|)]
    {
      assert x in chains[BucketOf(x.hash, |out|)];
    }
    forall a, x | 0 <= a < |out| && x in out[a]
      ensures x in es - {e} && BucketOf(x.hash, |out|) == a
    {
      if a == b {
        MinusElement(chains[b], k, x);
      }
      assert a != b ==> out[a] == chains[a];
      assert x in chains[a];
    }
  }

  lemma InPlaced(chains: seq<seq<Entry>>, es: set<Entry>, e: Entry)
    requires Placed(chains, es) && e !in es
    ensures var b := BucketOf(e.hash, |chains|);
            Placed(chains[b := [e] + chains[b]], es + {e})
  {
    var b := BucketOf(e.hash, |chains|);
    OneChain(chains, es, e, b);
    assert Distinct([e] + chains[b]);
    hide Distinct;
    var out := chains[b := [e] + chains[b]];
    assert |out| == |chains|;
    forall x | x in es + {e}
      ensures x in out[BucketOf(x.hash, |out|)]
    {
      assert out[b] == [e] + chains[b];
    }
    forall a, x | 0 <= a < |out| && x in out[a]
      ensures x in es + {e} && BucketOf(x.hash, |out|) == a
    {
      assert a != b ==> x in chains[a];
      assert a == b ==> x == e || x in chains[b];
    }
  }

  /** Taking entry k out of chain b. */
  lemma OutChained(heads: seq<Entry?>, chains: seq<seq<Entry>>, next: Pointers, es: set<Entry>, b: nat, k: nat)
    requires Chained(heads, chains, next) && Placed(chains, es)
    requires b < |chains| && k < |chains[b]|
    ensures var c := chains[b];
            && c[k] in next
            && Chained(if k == 0 then heads[b := next[c[k]]] else heads, chains[b := Minus(c, k)],
                       if k == 0 then next else next[c[k - 1] := next[c[k]]])
  {
    var c := chains[b];
    assert c[k] in next && Distinct(c);
    OutChain(heads[b], c, k, next);
    var next' := if k == 0 then next else next[c[k - 1] := next[c[k]]];
    forall a | 0 <= a < |chains| && a != b
      ensures ChainFrom(heads[a], chains[a], next')
    {
      if k > 0 {
        OneChain(chains, es, c[k - 1], b);
        OneChain(chains, es, c[k - 1], a);
        OtherChain(heads[a], chains[a], next, c[k - 1], next[c[k]]);
      }
    }
    hide Minus, ChainFrom, Placed, Distinct;
  }

  /** Pushing an entry on the chain of its bucket. */
  lemma InChained(heads: seq<Entry?>, chains: seq<seq<Entry>>, next: Pointers, es: set<Entry>, e: Entry)
    requires Chained(heads, chains, next) && Placed(chains, es) && e !in es
    ensures var b := BucketOf(e.hash, |chains|);
            Chained(heads[b := e], chains[b := [e] + chains[b]], next[e := heads[b]])
  {
    var b := BucketOf(e.hash, |chains|);
    OneChain(chains, es, e, b);
    PushChain(heads[b], chains[b], next, e);
    forall a | 0 <= a < |chains| && a != b
      ensures ChainFrom(heads[a], chains[a], next[e := heads[b]])
    {
      OneChain(chains, es, e, a);
      OtherChain(heads[a], chains[a], next, e, heads[b]);
    }
    hide ChainFrom, Placed;
  }

  /**
   * Half way through a rehash: the entries of es already moved hang on the new chains; of the old
   * table chain i is left from its entry j on, and the chains after it whole.
   */
  ghost predicate Moving(was: seq<seq<Entry>>, heads: seq<Entry?>, i: nat, j: nat, es: set<Entry>,
                         now: seq<seq<Entry>>, tops: seq<Entry?>, moved: set<Entry>, next: Pointers) {
    && i < |was| && j <= |was[i]| && |heads| == |was|
    && (forall b, l :: i <= b < |was| && (if b == i then j else 0) <= l < |was[b]| ==>
                         was[b][l] in next && next[was[b][l]] == At(was[b], l + 1))
    && (forall b :: i < b < |was| ==> heads[b] == At(was[b], 0))
    && Chained(tops, now, next)
    && Placed(now, moved)
    && (forall e :: e in moved ==> e in es && (BucketOf(e.hash, |was|) < i || e in was[i][..j]))
    && (forall e :: e in es && (BucketOf(e.hash, |was|) < i || e in was[i][..j]) ==> e in moved)
  }

  lemma MoveOne(was: seq<seq<Entry>>, heads: seq<Entry?>, i: nat, j: nat, es: set<Entry>,
                now: seq<seq<Entry>>, tops: seq<Entry?>, moved: set<Entry>, next: Pointers)
    requires Placed(was, es) && Moving(was, heads, i, j, es, now, tops, moved, next) && j < |was[i]|
    ensures var e := was[i][j];
            var b := BucketOf(e.hash, |now|);
            && e in es && e in next && e !in moved
            && Moving(was, heads, i, j + 1, es, now[b := [e] + now[b]], tops[b := e], moved + {e},
                      next[e := tops[b]])
  {
    var e := was[i][j];
    OneChain(was, es, e, i);
    assert Distinct(was[i]);
    assert e !in was[i][..j];
    InChained(tops, now, next, moved, e);
    InPlaced(now, moved, e);
    var next' := next[e := tops[BucketOf(e.hash, |now|)]];
    forall b, l | i <= b < |was| && (if b == i then j + 1 else 0) <= l < |was[b]|
      ensures was[b][l] in next' && next'[was[b][l]] == At(was[b], l + 1)
    {
      OneChain(was, es, e, b);
      assert was[b][l] in was[b];
      assert was[b][l] != e;
    }
    assert was[i][..j + 1] == was[i][..j] + [e];
    hide Chained, Placed, Distinct;
  }

  lemma NextChain(was: seq<seq<Entry>>, heads: seq<Entry?>, i: nat, es: set<Entry>,
                  now: seq<seq<Entry>>, tops: seq<Entry?>, moved: set<Entry>, next: Pointers)
    requires i < |was| && Placed(was, es) && Moving(was, heads, i, |was[i]|, es, now, tops, moved, next)
    ensures i + 1 < |was| ==> Moving(was, heads, i + 1, 0, es, now, tops, moved, next)
    ensures i + 1 == |was| ==> moved == es && Chained(tops, now, next) && Placed(now, moved)
  {
    assert was[i][..|was[i]|] == was[i];
    forall e
      ensures e in moved <==> e in es && BucketOf(e.hash, |was|) < i + 1
    {
      OneChain(was, es, e, i);
    }
    hide Chained, Placed, Distinct;
  }

  lemma FirstMove(was: seq<seq<Entry>>, heads: seq<Entry?>, es: set<Entry>,
                  now: seq<seq<Entry>>, tops: seq<Entry?>, next: Pointers)
    requires Chained(heads, was, next) && Placed(was, es)
    requires |now| > 0 && |tops| == |now| && forall b :: 0 <= b < |now| ==> now[b] == [] && tops[b] == null
    ensures Moving(was, heads, 0, 0, es, now, tops, {}, next)
  {
    assert forall b :: 0 <= b < |was| ==> ChainFrom(heads[b], was[b], next);
  }

  lemma AtMove(was: seq<seq<Entry>>, heads: seq<Entry?>, i: nat, j: nat, es: set<Entry>,
               now: seq<seq<Entry>>, tops: seq<Entry?>, moved: set<Entry>, next: Pointers)
    requires Moving(was, heads, i, j, es, now, tops, moved, next)
    ensures i < |was| && j <= |was[i]|
    ensures j < |was[i]| ==> was[i][j] in next && next[was[i][j]] == At(was[i], j + 1)
  {
  }

  /** The last time e was used, in a log of uses. */
  function LastUse(uses: seq<Entry>, e: Entry): int {
    if uses == [] then -1
    else if uses[|uses| - 1] == e then |uses| - 1
    else LastUse(uses[..|uses| - 1], e)
  }

  lemma {:induction false} LastUseIs(uses: seq<Entry>, e: Entry)
    ensures -1 <= LastUse(uses, e) < |uses|
    ensures e in uses <==> LastUse(uses, e) >= 0
    ensures LastUse(uses, e) >= 0 ==> uses[LastUse(uses, e)] == e
    ensures forall i :: LastUse(uses, e) < i < |uses| ==> uses[i] != e
  {
    if uses != [] && uses[|uses| - 1] != e {
      LastUseIs(uses[..|uses| - 1], e);
    }
  }

  lemma LastUseAfter(uses: seq<Entry>, u: Entry, e: Entry)
    ensures LastUse(uses + [u], e) == if u == e then |uses| else LastUse(uses, e)
  {
    assert (uses + [u])[..|uses|] == uses;
  }

  /** Latest use first. */
  ghost predicate InUseOrder(uses: seq<Entry>, es: seq<Entry>) {
    && (forall i :: 0 <= i < |es| ==> es[i] in uses)
    && (forall i, j :: 0 <= i < j < |es| ==> LastUse(uses, es[i]) > LastUse(uses, es[j]))
  }

  lemma OutInOrder(uses: seq<Entry>, es: seq<Entry>, k: nat)
    requires InUseOrder(uses, es) && k < |es|
    ensures InUseOrder(uses, Minus(es, k))
  {
    var r := Minus(es, k);
    forall i | 0 <= i < |r|
      ensures r[i] == es[if i < k then i else i + 1]
    {
    }
  }

  /** An entry used now goes first. */
  lemma UsedInOrder(uses: seq<Entry>, es: seq<Entry>, e: Entry)
    requires InUseOrder(uses, es) && e !in es
    ensures InUseOrder(uses + [e], [e] + es)
  {
    var r := [e] + es;
    forall i | 0 <= i < |r|
      ensures r[i] in uses + [e]
      ensures LastUse(uses + [e], r[i]) == if i == 0 then |uses| else LastUse(uses, es[i - 1])
    {
      LastUseAfter(uses, e, r[i]);
      LastUseIs(uses, r[i]);
    }
    forall i, j | 0 <= i < j < |r|
      ensures LastUse(uses + [e], r[i]) > LastUse(uses + [e], r[j])
    {
      LastUseIs(uses, r[j]);
      assert i > 0 ==> LastUse(uses, es[i - 1]) > LastUse(uses, es[j - 1]);
    }
  }

  /** What holds of one entry: who refers to it, and whether it has been freed. */
  ghost predicate LifeOf(refs: nat, dropped: bool, inTable: bool, reading: nat, freed: bool, unsent: bool) {
    && refs == reading
    && (dropped <==> !inTable)
    && (freed <==> dropped && refs == 0 && !unsent)
    && (unsent ==> dropped && refs == 0)
  }

  /** How many sends read e. */
  function Count(es: seq<Entry>, e: Entry): nat {
    if es == [] then 0 else (if es[0] == e then 1 else 0) + Count(es[1..], e)
  }

  lemma {:induction false} CountIs(es: seq<Entry>, e: Entry)
    ensures Count(es, e) > 0 <==> e in es
  {
    if es != [] {
      CountIs(es[1..], e);
    }
  }

  lemma {:induction false} CountAppend(es: seq<Entry>, u: Entry, e: Entry)
    ensures Count(es + [u], e) == Count(es, e) + if u == e then 1 else 0
  {
    if es != [] {
      assert (es + [u])[1..] == es[1..] + [u];
      CountAppend(es[1..], u, e);
    }
  }

  lemma {:induction false} CountMinus(es: seq<Entry>, k: nat, e: Entry)
    requires k < |es|
    ensures Count(es, e) == Count(Minus(es, k), e) + if es[k] == e then 1 else 0
  {
    if k > 0 {
      assert Minus(es, k)[1..] == Minus(es[1..], k - 1);
      CountMinus(es[1..], k - 1, e);
    } else {
      assert Minus(es, 0) == es[1..];
    }
  }

  ghost function Refs(all: set<Entry>): map<Entry, nat>
    reads all`refs
  {
    map e | e in all :: e.refs
  }

  ghost function Drops(all: set<Entry>): map<Entry, bool>
    reads all`dropped
  {
    map e | e in all :: e.dropped
  }

  /**
   * Every entry ever made is accounted for: in the table and not dropped; dropped and read by a
   * send; freed, once; or over the budget and never sent.
   */
  ghost predicate Accounted(table: set<Entry>, sending: seq<Entry>, freed: seq<Entry>, unsent: set<Entry>,
                            refs: map<Entry, nat>, drops: map<Entry, bool>) {
    && Distinct(freed)
    && refs.Keys == drops.Keys
    && Members(freed) + Members(sending) + table + unsent <= refs.Keys
    && forall e :: e in refs ==>
         LifeOf(refs[e], drops[e], e in table, Count(sending, e), e in freed, e in unsent)
  }

  lemma DropAccounted(table: set<Entry>, sending: seq<Entry>, freed: seq<Entry>, unsent: set<Entry>,
                      refs: map<Entry, nat>, drops: map<Entry, bool>, e: Entry)
    requires Accounted(table, sending, freed, unsent, refs, drops) && e in table
    ensures e in refs && e !in freed && (refs[e] == 0 <==> e !in sending)
    ensures Accounted(table - {e}, sending, if refs[e] == 0 then freed + [e] else freed, unsent, refs, drops[e := true])
  {
    var freed' := if refs[e] == 0 then freed + [e] else freed;
    assert Members(freed') <= refs.Keys && e in refs;
    assert Distinct(freed');
    CountIs(sending, e);
    assert LifeOf(refs[e], drops[e], e in table, Count(sending, e), e in freed, e in unsent);
    hide Members, Distinct, Count;
    var table', drops' := table - {e}, drops[e := true];
    forall x | x in refs
      ensures LifeOf(refs[x], drops'[x], x in table', Count(sending, x), x in freed', x in unsent)
    {
      assert LifeOf(refs[x], drops[x], x in table, Count(sending, x), x in freed, x in unsent);
    }
  }

  lemma SendAccounted(table: set<Entry>, sending: seq<Entry>, freed: seq<Entry>, unsent: set<Entry>,
                      refs: map<Entry, nat>, drops: map<Entry, bool>, e: Entry)
    requires Accounted(table, sending, freed, unsent, refs, drops) && (e in table || e in unsent)
    ensures e in refs
    ensures Accounted(table, sending + [e], freed, unsent - {e}, refs[e := refs[e] + 1], drops)
  {
    assert Members(sending + [e]) <= refs.Keys;
    hide Members, Distinct, Count;
    var refs' := refs[e := refs[e] + 1];
    forall x | x in refs'
      ensures LifeOf(refs'[x], drops[x], x in table, Count(sending + [e], x), x in freed, x in unsent - {e})
    {
      CountAppend(sending, e, x);
      assert LifeOf(refs[x], drops[x], x in table, Count(sending, x), x in freed, x in unsent);
    }
  }

  lemma SentAccounted(table: set<Entry>, sending: seq<Entry>, freed: seq<Entry>, unsent: set<Entry>,
                      refs: map<Entry, nat>, drops: map<Entry, bool>, i: nat)
    requires Accounted(table, sending, freed, unsent, refs, drops) && i < |sending|
    ensures sending[i] in refs && refs[sending[i]] > 0 && sending[i] !in freed
    ensures var e := sending[i];
            Accounted(table, Minus(sending, i), if refs[e] == 1 && drops[e] then freed + [e] else freed, unsent,
                      refs[e := refs[e] - 1], drops)
  {
    var e, left := sending[i], Minus(sending, i);
    CountIs(sending, e);
    assert e in Members(sending);
    assert LifeOf(refs[e], drops[e], e in table, Count(sending, e), e in freed, e in unsent);
    var freed' := if refs[e] == 1 && drops[e] then freed + [e] else freed;
    assert Distinct(freed');
    SentSets(sending, freed, i);
    hide Minus, Distinct, Members, Count;
    var refs' := refs[e := refs[e] - 1];
    forall x | x in refs'
      ensures LifeOf(refs'[x], drops[x], x in table, Count(left, x), x in freed', x in unsent)
    {
      assert LifeOf(refs[x], drops[x], x in table, Count(sending, x), x in freed, x in unsent);
      CountMinus(sending, i, x);
    }
  }

  lemma SentSets(sending: seq<Entry>, freed: seq<Entry>, i: nat)
    requires i < |sending|
    ensures Members(Minus(sending, i)) <= Members(sending)
    ensures Members(freed + [sending[i]]) == Members(freed) + {sending[i]}
  {
  }

  lemma MakeAccounted(table: set<Entry>, sending: seq<Entry>, freed: seq<Entry>, unsent: set<Entry>,
                      refs: map<Entry, nat>, drops: map<Entry, bool>, e: Entry, cached: bool)
    requires Accounted(table, sending, freed, unsent, refs, drops) && e !in refs
    ensures Accounted(if cached then table + {e} else table, sending, freed, if cached then unsent else unsent + {e},
                      refs[e := 0], drops[e := !cached])
  {
    assert e !in Members(sending) && e !in Members(freed);
    CountIs(sending, e);
  }

  /** The longest part of a recency list, newest first, whose bytes fit in the room there is. */
  function Kept(es: seq<Entry>, room: int): seq<Entry> {
    if es == [] || es[0].size > room then [] else [es[0]] + Kept(es[1..], room - es[0].size)
  }

  lemma {:induction false} KeptIs(es: seq<Entry>, k: nat, room: nat)
    requires k <= |es| && Total(es[..k]) <= room
    requires k < |es| ==> Total(es[..k + 1]) > room
    ensures Kept(es, room) == es[..k]
  {
    if k > 0 {
      assert es[..k][1..] == es[1..][..k - 1];
      assert k < |es| ==> es[..k + 1][1..] == es[1..][..k];
      KeptIs(es[1..], k - 1, room - es[0].size);
    } else if es != [] {
      assert es[..1] == [es[0]];
    }
  }

  /** While a table is torn down: was has been freed, and the entries before entry j of chain i. */
  ghost predicate Freeing(chains: seq<seq<Entry>>, i: nat, j: nat, es: set<Entry>, was: set<Entry>, freed: seq<Entry>) {
    && i < |chains| && j <= |chains[i]| && Distinct(freed)
    && (forall e :: e in freed ==> e in was || (e in es && (BucketOf(e.hash, |chains|) < i || e in chains[i][..j])))
    && (forall e :: e in was ==> e in freed)
    && (forall e :: e in es && (BucketOf(e.hash, |chains|) < i || e in chains[i][..j]) ==> e in freed)
  }

  lemma FirstFree(chains: seq<seq<Entry>>, es: set<Entry>, freed: seq<Entry>)
    requires |chains| > 0 && Distinct(freed)
    ensures Freeing(chains, 0, 0, es, Members(freed), freed)
  {
  }

  lemma AtIs(es: seq<Entry>, k: nat)
    ensures At(es, k) == null <==> k >= |es|
    ensures k < |es| ==> At(es, k) == es[k]
  {
  }

  lemma FreeOne(chains: seq<seq<Entry>>, i: nat, j: nat, es: set<Entry>, was: set<Entry>, freed: seq<Entry>)
    requires Placed(chains, es) && Freeing(chains, i, j, es, was, freed) && j < |chains[i]| && es !! was
    ensures chains[i][j] !in freed && Freeing(chains, i, j + 1, es, was, freed + [chains[i][j]])
  {
    var e := chains[i][j];
    OneChain(chains, es, e, i);
    assert Distinct(chains[i]);
    assert e !in chains[i][..j];
    assert chains[i][..j + 1] == chains[i][..j] + [e];
    assert Distinct(freed + [e]);
    hide Placed, Distinct;
  }

  lemma NextFree(chains: seq<seq<Entry>>, i: nat, es: set<Entry>, was: set<Entry>, freed: seq<Entry>)
    requires i < |chains| && Placed(chains, es) && Freeing(chains, i, |chains[i]|, es, was, freed)
    ensures i + 1 < |chains| ==> Freeing(chains, i + 1, 0, es, was, freed)
    ensures i + 1 == |chains| ==> Distinct(freed) && Members(freed) == was + es
  {
    assert chains[i][..|chains[i]|] == chains[i];
    forall e
      ensures e in es && BucketOf(e.hash, |chains|) < i + 1 <==>
              e in es && (BucketOf(e.hash, |chains|) < i || e in chains[i])
    {
      OneChain(chains, es, e, i);
    }
    hide Placed, Distinct;
  }

  /** What opening a file gave: its name is another when the one asked for is a directory. */
  datatype Opened = Missing | Large(name: bytes) | Small(name: bytes)

  /**
   * What happens to the cache: a request and what the disk answers, a file that has been read (or
   * could not be), a body that has been written. Each runs until its coroutine is suspended.
   */
  datatype Event =
    | Ask(asked: bytes, current: bool, file: Opened, thenCurrent: bool, body: bool)
    | Read(load: nat, size: Option<nat>, granted: bool, body: bool)
    | Sent(send: nat)

  ghost predicate Named(es: seq<Entry>, name: bytes) {
    exists e :: e in es && e.name == name
  }

  predicate Leads(file: Opened, name: bytes) {
    !file.Missing? && file.name == name
  }

  class Cache {
    var buckets: array<Entry?>
    var count: nat
    var newest: Entry?
    var oldest: Entry?
    var held: nat
    const budget: nat

    /** The bodies being written, and the files being read, by suspended coroutines. */
    var sending: seq<Entry>
    var loading: seq<bytes>

    /**
     * The recency list and the chains as sequences; the entries ever made, the log of their uses,
     * the entries freed in order, and those that were over the budget and that no body was sent of.
     */
    ghost var recent: seq<Entry>
    ghost var chains: seq<seq<Entry>>
    ghost var made: set<Entry>
    ghost var uses: seq<Entry>
    ghost var freed: seq<Entry>
    ghost var unsent: set<Entry>

    ghost predicate Listed()
      reads this`newest, this`oldest, this`recent, this`made, made`newer, made`older
    {
      && Distinct(recent)
      && (forall e :: e in recent ==> e in made)
      && Linked(recent, newest, oldest, Newer(made), Older(made))
    }

    ghost predicate Table()
      reads this`buckets, this`chains, this`recent, this`made, buckets, made`chain
    {
      && PowerOfTwo(buckets.Length)
      && Chained(buckets[..], chains, Next(made))
      && Placed(chains, Members(recent))
    }

    ghost predicate Counted()
      reads this`count, this`held, this`recent
    {
      count == |recent| && held == Total(recent)
    }

    ghost predicate Lives()
      reads this`made, this`recent, this`sending, this`freed, this`unsent, made`refs, made`dropped
    {
      Accounted(Members(recent), sending, freed, unsent, Refs(made), Drops(made))
    }

    ghost predicate Valid()
      reads this`buckets, this`count, this`newest, this`oldest, this`held, this`sending
      reads this`recent, this`chains, this`made, this`uses, this`freed, this`unsent, buckets, made
    {
      Listed() && Table() && Counted() && Lives() && InUseOrder(uses, recent) && held <= budget
    }

    method SetNewer(at: Entry, to: Entry?)
      requires at in made
      modifies at`newer
      ensures Newer(made) == old(Newer(made))[at := to]
      ensures Older(made) == old(Older(made)) && Next(made) == old(Next(made))
    {
      at.newer := to;
    }

    method SetOlder(at: Entry, to: Entry?)
      requires at in made
      modifies at`older
      ensures Older(made) == old(Older(made))[at := to]
      ensures Newer(made) == old(Newer(made)) && Next(made) == old(Next(made))
    {
      at.older := to;
    }

    method SetNext(at: Entry, to: Entry?)
      requires at in made
      modifies at`chain
      ensures Next(made) == old(Next(made))[at := to]
      ensures Newer(made) == old(Newer(made)) && Older(made) == old(Older(made))
    {
      at.chain := to;
    }

    method SetHead(heads: array<Entry?>, b: nat, to: Entry?)
      requires b < heads.Length
      modifies heads
      ensures heads[..] == old(heads[..])[b := to]
    {
      heads[b] := to;
    }

    method RecencyOut(e: Entry, ghost k: nat)
      requires Listed() && k < |recent| && recent[k] == e
      modifies this`newest, this`oldest, this`recent, made`newer, made`older
      ensures Listed() && recent == Minus(old(recent), k)
    {
      hide Linked, Distinct, At, Newer, Older;
      ghost var es, nw, od := recent, Newer(made), Older(made);
      var up, down := e.newer, e.older;
      Neighbours(k);
      if up != null {
        SetOlder(up, down);
      } else {
        newest := down;
      }
      if down != null {
        SetNewer(down, up);
      } else {
        oldest := up;
      }
      SetNewer(e, null);
      SetOlder(e, null);
      recent := Minus(es, k);
      OutLinked(es, k, old(newest), old(oldest), nw, od);
      assert Newer(made) == Set(nw, down, up)[e := null];
      assert Older(made) == Set(od, up, down)[e := null];
      MinusElements(es, k);
    }

    lemma Neighbours(k: nat)
      requires Listed() && k < |recent|
      ensures recent[k] in made && recent[k] in Newer(made) && recent[k] in Older(made)
      ensures Newer(made)[recent[k]] == recent[k].newer && Older(made)[recent[k]] == recent[k].older
      ensures recent[k].newer == At(recent, k - 1) && recent[k].older == At(recent, k + 1)
      ensures recent[k].newer != null ==> recent[k].newer in made
      ensures recent[k].older != null ==> recent[k].older in made
    {
      assert Newer(made)[recent[k]] == recent[k].newer;
    }

    lemma SomeUnlinked(k: nat)
      requires Listed() && k < |recent|
      ensures Members(Minus(recent, k)) == Members(recent) - {recent[k]}
    {
      MinusElements(recent, k);
    }

    lemma Ends()
      requires Listed()
      ensures newest != null ==> newest in made
    {
    }

    method RecencyIn(e: Entry)
      requires Listed() && e in made && e !in recent
      modifies this`newest, this`oldest, this`recent, made`newer, made`older
      ensures Listed() && recent == [e] + old(recent)
    {
      hide Linked, Distinct, At, Newer, Older;
      ghost var es, nw, od := recent, Newer(made), Older(made);
      Ends();
      SetOlder(e, newest);
      SetNewer(e, null);
      if newest != null {
        SetNewer(newest, e);
      }
      newest := e;
      if oldest == null {
        oldest := e;
      }
      recent := [e] + recent;
      InLinked(es, e, old(newest), old(oldest), nw, od);
    }

    // ---------------------------------------------------------------- the table

    /** The first entry of its chain with this name: one of the table's, and null only without one. */
    method Lookup(name: bytes) returns (e: Entry?)
      requires Listed() && Table()
      ensures e != null <==> Named(recent, name)
      ensures e != null ==> e in recent && e.name == name
    {
      hide Listed;
      ghost var b := BucketOf(HashOf(name), buckets.Length);
      e := buckets[BucketOf(HashOf(name), buckets.Length)];
      ghost var c := chains[b];
      ghost var i := 0;
      assert ChainFrom(buckets[..][b], c, Next(made));
      while e != null
        invariant 0 <= i <= |c| && e == At(c, i)
        invariant forall l :: 0 <= l < i ==> c[l].name != name
        decreases |c| - i
      {
        if e.hash == HashOf(name) && e.name == name {
          assert e in c;
          return;
        }
        assert Next(made)[c[i]] == c[i].chain;
        e := e.chain;
        i := i + 1;
      }
      forall x | x in recent
        ensures x.name != name
      {
        assert x in Members(recent);
        assert BucketOf(x.hash, |chains|) == b ==> x in c;
      }
    }

    /** Finds the pointer that leads to an entry: that of its bucket, or of the entry before it. */
    method PointerTo(e: Entry) returns (before: Entry?, ghost k: nat)
      requires Table() && e in recent
      ensures var b := BucketOf(e.hash, buckets.Length);
              && b < |chains| && k < |chains[b]| && chains[b][k] == e
              && before == At(chains[b], k - 1)
    {
      ghost var b := BucketOf(e.hash, buckets.Length);
      ghost var c := chains[b];
      assert e in Members(recent);
      assert e in c && ChainFrom(buckets[..][b], c, Next(made));
      hide Table, Chained, ChainFrom, Placed, Distinct;
      var here := buckets[BucketOf(e.hash, buckets.Length)];
      before, k := null, 0;
      while here != e
        invariant k < |c| && here == At(c, k) && before == At(c, k - 1)
        invariant e in c[k..]
        decreases |c| - k
      {
        NextOf(b, k);
        before := here;
        here := here.chain;
        k := k + 1;
      }
    }

    lemma NextOf(b: nat, k: nat)
      requires Table() && b < |chains| && k < |chains[b]|
      ensures chains[b][k] in made && chains[b][k] in Next(made)
      ensures Next(made)[chains[b][k]] == chains[b][k].chain == At(chains[b], k + 1)
    {
      assert ChainFrom(buckets[..][b], chains[b], Next(made));
    }

    lemma Sized()
      requires Table()
      ensures buckets.Length > 0
    {
    }

    lemma OutOfTable(e: Entry, b: nat, k: nat)
      requires Table() && e in recent && b < |chains| && k < |chains[b]| && chains[b][k] == e
      ensures b < |buckets[..]| && PowerOfTwo(buckets.Length)
      ensures k > 0 ==> At(chains[b], k - 1) != null && At(chains[b], k - 1) in made
      ensures Placed(chains[b := Minus(chains[b], k)], Members(recent) - {e})
      ensures var heads, next := buckets[..], Next(made);
              Chained(if k == 0 then heads[b := e.chain] else heads, chains[b := Minus(chains[b], k)],
                      if k == 0 then next else next[At(chains[b], k - 1) := e.chain])
    {
      NextOf(b, k);
      if k > 0 {
        NextOf(b, k - 1);
      }
      OutChained(buckets[..], chains, Next(made), Members(recent), b, k);
      OutPlaced(chains, Members(recent), b, k);
      hide Chained, ChainFrom, Placed, Distinct, Minus, Next, PowerOfTwo, Members;
    }

    method UnlinkChain(e: Entry)
      requires Table() && e in recent
      modifies this`chains, buckets, made`chain
      ensures buckets == old(buckets) && PowerOfTwo(buckets.Length)
      ensures Chained(buckets[..], chains, Next(made)) && Placed(chains, Members(recent) - {e})
    {
      hide Table, Chained, Placed, Distinct, Minus, Next, PowerOfTwo, Members;
      Sized();
      var b := BucketOf(e.hash, buckets.Length);
      var before, k := PointerTo(e);
      ghost var c := chains[b];
      OutOfTable(e, b, k);
      if before == null {
        SetHead(buckets, b, e.chain);
      } else {
        SetNext(before, e.chain);
      }
      chains := chains[b := Minus(c, k)];
    }

    /** Takes the entry out of both structures. */
    method UnlinkEntry(e: Entry, ghost k: nat)
      requires Listed() && Table() && Counted() && k < |recent| && recent[k] == e
      modifies this`newest, this`oldest, this`recent, this`chains, this`held, this`count, buckets
      modifies made`newer, made`older, made`chain
      ensures buckets == old(buckets)
      ensures Listed() && Table() && Counted() && recent == Minus(old(recent), k)
      ensures held == old(held) - e.size
      ensures Refs(made) == old(Refs(made)) && Drops(made) == old(Drops(made))
    {
      hide *;
      ghost var es := recent;
      SomeUnlinked(k);
      TotalMinus(es, k);
      CountedSays();
      UnlinkChain(e);
      RecencyOut(e, k);
      held := held - e.size;
      count := count - 1;
      TableIs();
      CountedIs();
    }

    lemma CountedSays()
      requires Counted()
      ensures count == |recent| && held == Total(recent)
    {
    }

    lemma CountedIs()
      requires count == |recent| && held == Total(recent)
      ensures Counted()
    {
    }

    /** Moves chain i of the table to the new one, each entry to the front of its new chain. */
    method MoveChain(i: nat, tops: array<Entry?>, ghost es: set<Entry>, ghost now: seq<seq<Entry>>, ghost moved: set<Entry>)
      returns (ghost now': seq<seq<Entry>>, ghost moved': set<Entry>)
      requires i < buckets.Length && i < |chains| && tops != buckets && tops.Length == |now| > 0
      requires Moving(chains, buckets[..], i, 0, es, now, tops[..], moved, Next(made))
      requires buckets[i] == At(chains[i], 0) && es <= made && Placed(chains, es)
      modifies tops, made`chain
      ensures |now'| == |now|
      ensures Moving(chains, buckets[..], i, |chains[i]|, es, now', tops[..], moved', Next(made))
    {
      hide Moving, Chained, Placed, PowerOfTwo;
      var e := buckets[i];
      ghost var heads, j: nat := buckets[..], 0;
      now', moved' := now, moved;
      while e != null
        invariant tops.Length == |now'| == |now| && buckets[..] == heads
        invariant j <= |chains[i]| && e == At(chains[i], j)
        invariant Moving(chains, heads, i, j, es, now', tops[..], moved', Next(made))
        decreases |chains[i]| - j
      {
        MoveOne(chains, heads, i, j, es, now', tops[..], moved', Next(made));
        AtMove(chains, heads, i, j, es, now', tops[..], moved', Next(made));
        assert Next(made)[e] == e.chain;
        var next := e.chain;
        var b := BucketOf(e.hash, tops.Length);
        PushOn(e, tops, b);
        now', moved' := now'[b := [e] + now'[b]], moved' + {e};
        j := j + 1;
        e := next;
      }
    }

    method PushOn(e: Entry, tops: array<Entry?>, b: nat)
      requires e in made && b < tops.Length
      modifies tops, e`chain
      ensures tops[..] == old(tops[..])[b := e] && Next(made) == old(Next(made))[e := old(tops[..])[b]]
    {
      SetNext(e, tops[b]);
      SetHead(tops, b, e);
    }

    lemma TableSays()
      requires Table()
      ensures |chains| == buckets.Length > 0 && PowerOfTwo(2 * buckets.Length)
      ensures forall b :: 0 <= b < |chains| ==> buckets[..][b] == At(chains[b], 0)
      ensures Chained(buckets[..], chains, Next(made)) && Placed(chains, Members(recent))
    {
      forall b | 0 <= b < |chains|
        ensures buckets[..][b] == At(chains[b], 0)
      {
        assert ChainFrom(buckets[..][b], chains[b], Next(made));
      }
      var d: nat :| buckets.Length == Pow2(d);
      assert Pow2(d + 1) == 2 * buckets.Length;
    }

    /** Twice the buckets, the same entries: or, without memory for them, the table as it is. */
    method Grow(granted: bool)
      requires Table() && Members(recent) <= made
      modifies this`buckets, this`chains, made`chain
      ensures Table()
      ensures if granted then fresh(buckets) && buckets.Length == 2 * old(buckets.Length)
              else buckets == old(buckets)
    {
      if !granted {
        return;
      }
      hide *;
      TableSays();
      var n := 2 * buckets.Length;
      var tops := new Entry?[n](_ => null);
      ghost var was, heads, es := chains, buckets[..], Members(recent);
      ghost var now: seq<seq<Entry>> := seq(n, (b: nat) => []);
      ghost var moved: set<Entry> := {};
      FirstMove(was, heads, es, now, tops[..], Next(made));
      var i := 0;
      while i < buckets.Length
        invariant buckets == old(buckets) && buckets[..] == heads && chains == was && i <= buckets.Length == |was|
        invariant tops.Length == n == |now|
        invariant i < |was| ==> Moving(was, heads, i, 0, es, now, tops[..], moved, Next(made))
        invariant i == |was| ==> moved == es && Chained(tops[..], now, Next(made)) && Placed(now, moved)
      {
        assert buckets[i] == heads[i];
        now, moved := MoveChain(i, tops, es, now, moved);
        NextChain(was, heads, i, es, now, tops[..], moved, Next(made));
        i := i + 1;
      }
      buckets, chains := tops, now;
      TableIs();
    }

    lemma TableIs()
      requires PowerOfTwo(buckets.Length) && Chained(buckets[..], chains, Next(made)) && Placed(chains, Members(recent))
      ensures Table()
    {
    }

    method PushEntry(e: Entry)
      requires Table() && e in made && e !in recent
      modifies this`chains, buckets, made`chain
      ensures buckets == old(buckets) && PowerOfTwo(buckets.Length)
      ensures Chained(buckets[..], chains, Next(made)) && Placed(chains, Members(recent) + {e})
    {
      hide Table, Chained, Placed, PowerOfTwo, Next;
      TableSays();
      PowerStays();
      var b := BucketOf(e.hash, buckets.Length);
      InChained(buckets[..], chains, Next(made), Members(recent), e);
      InPlaced(chains, Members(recent), e);
      PushOn(e, buckets, b);
      chains := chains[b := [e] + chains[b]];
    }

    lemma PowerStays()
      requires Table()
      ensures PowerOfTwo(buckets.Length)
    {
    }

    /** Puts an entry in both structures, at the front of each; a full table is doubled first. */
    method Insert(e: Entry, granted: bool)
      requires Listed() && Table() && Counted() && e in made && e !in recent
      modifies this`newest, this`oldest, this`recent, this`buckets, this`chains, this`held, this`count, buckets
      modifies made`newer, made`older, made`chain
      ensures Listed() && Table() && Counted() && recent == [e] + old(recent)
      ensures held == old(held) + e.size
      ensures buckets == old(buckets) || fresh(buckets)
    {
      hide *;
      ghost var es := recent;
      Inside();
      CountedSays();
      if count >= buckets.Length {
        Grow(granted);
      }
      PushEntry(e);
      RecencyIn(e);
      FrontOf(es, e);
      held := held + e.size;
      count := count + 1;
      TableIs();
      CountedIs();
    }

    lemma Inside()
      requires Listed()
      ensures Members(recent) <= made
    {
    }

    lemma WholeList()
      ensures recent == recent[..|recent|]
    {
    }

    lemma EmptyTotal()
      ensures Total([]) == 0
    {
    }

    /** The list's last entry is found under oldest, and taking it out leaves the others. */
    lemma LastIsOldest()
      requires Listed()
      ensures oldest == null <==> recent == []
      ensures recent != [] ==> oldest == recent[|recent| - 1] && Without(recent, oldest) == recent[..|recent| - 1]
    {
      if recent != [] {
        Different(recent);
        assert IndexOf(recent, oldest) == |recent| - 1;
      }
    }

    // ---------------------------------------------------------------- entries that leave

    method EntryFree(e: Entry)
      requires e !in freed
      modifies this`freed
      ensures freed == old(freed) + [e]
    {
      freed := freed + [e];
    }

    method SetDropped(e: Entry)
      requires e in made
      modifies e`dropped
      ensures Drops(made) == old(Drops(made))[e := true] && Refs(made) == old(Refs(made))
    {
      e.dropped := true;
    }

    method SetRefs(e: Entry, n: nat)
      requires e in made
      modifies e`refs
      ensures Refs(made) == old(Refs(made))[e := n] && Drops(made) == old(Drops(made)) && e.refs == n
    {
      e.refs := n;
    }

    lemma RefsAt(e: Entry)
      requires e in made
      ensures e in Refs(made) && Refs(made)[e] == e.refs && e in Drops(made) && Drops(made)[e] == e.dropped
    {
    }

    method Retire(e: Entry, ghost table: set<Entry>)
      requires e in made && e in table
      requires Accounted(table, sending, freed, unsent, Refs(made), Drops(made))
      modifies this`freed, e`dropped
      ensures Accounted(table - {e}, sending, freed, unsent, Refs(made), Drops(made))
      ensures freed == if e in sending then old(freed) else old(freed) + [e]
      ensures Listed() == old(Listed()) && Table() == old(Table()) && Counted() == old(Counted())
    {
      hide *;
      RefsAt(e);
      DropAccounted(table, sending, freed, unsent, Refs(made), Drops(made), e);
      SetDropped(e);
      if e.refs == 0 {
        EntryFree(e);
      }
    }

    /** Takes an entry out of the table, and frees it unless a send still reads it. */
    method Drop(e: Entry)
      requires Valid() && e in recent
      modifies this`newest, this`oldest, this`recent, this`chains, this`held, this`count, this`freed, buckets
      modifies made`newer, made`older, made`chain, made`dropped
      ensures Valid() && buckets == old(buckets)
      ensures recent == Without(old(recent), e) && held == old(held) - e.size
      ensures Members(recent) == Members(old(recent)) - {e}
      ensures freed == if e in old(sending) then old(freed) else old(freed) + [e]
    {
      hide *;
      Opened(e);
      ghost var k, table := IndexOf(recent, e), Members(recent);
      SomeUnlinked(k);
      OutInOrder(uses, recent, k);
      UnlinkEntry(e, k);
      Retire(e, table);
      WithoutIs(old(recent), e);
      Closed();
    }

    lemma Opened(e: Entry)
      requires Valid() && e in recent
      ensures e in Members(recent) && e in made
      ensures Listed() && Table() && Counted() && InUseOrder(uses, recent) && held <= budget
      ensures Accounted(Members(recent), sending, freed, unsent, Refs(made), Drops(made))
    {
    }

    lemma ValidSays()
      requires Valid()
      ensures Listed() && Table()
      ensures forall e :: e in Members(recent) <==> e in recent
    {
    }

    lemma Closed()
      requires Listed() && Table() && Counted() && InUseOrder(uses, recent) && held <= budget
      requires Accounted(Members(recent), sending, freed, unsent, Refs(made), Drops(made))
      ensures Valid()
    {
    }

    /** Drops the oldest entries, and no more of them than it takes. */
    method MakeRoom(need: nat)
      requires Valid() && need <= budget
      modifies this`newest, this`oldest, this`recent, this`chains, this`held, this`count, this`freed, buckets
      modifies made`newer, made`older, made`chain, made`dropped
      ensures Valid() && buckets == old(buckets)
      ensures recent == Kept(old(recent), budget - need) && held + need <= budget
      ensures old(freed) <= freed
    {
      hide Listed, Table, Accounted, InUseOrder, Kept, Total;
      ghost var es, n: nat := recent, |recent|;
      WholeList();
      while held + need > budget && oldest != null
        invariant Valid() && buckets == old(buckets)
        invariant n <= |es| && recent == es[..n]
        invariant n < |es| ==> Total(es[..n + 1]) + need > budget
        invariant old(freed) <= freed
        decreases n
      {
        LastIsOldest();
        assert es[..n - 1] == recent[..|recent| - 1];
        n := n - 1;
        Drop(oldest);
      }
      LastIsOldest();
      EmptyTotal();
      KeptIs(es, n, budget - need);
    }

    /** A use: the entry becomes the newest. */
    method Touch(e: Entry)
      requires Valid() && e in recent
      modifies this`newest, this`oldest, this`recent, this`uses, made`newer, made`older
      ensures Valid() && recent == [e] + Without(old(recent), e) && uses == old(uses) + [e]
      ensures Members(recent) == Members(old(recent))
    {
      hide *;
      ghost var k := IndexOf(recent, e);
      Opened(e);
      WithoutIs(recent, e);
      TouchedIs(k);
      if newest != e {
        RecencyOut(e, k);
        RecencyIn(e);
      }
      uses := uses + [e];
      TableIs();
      CountedIs();
      Closed();
    }

    lemma TouchedIs(k: nat)
      requires Valid() && k < |recent| && k == IndexOf(recent, recent[k])
      ensures var e, rest := recent[k], Minus(recent, k);
              && (newest == e ==> recent == [e] + rest) && e !in rest
              && Members([e] + rest) == Members(recent) && Total([e] + rest) == Total(recent) == held
              && |recent| == count
              && InUseOrder(uses + [e], [e] + rest)
      ensures PowerOfTwo(buckets.Length) && Chained(buckets[..], chains, Next(made)) && Placed(chains, Members(recent))
    {
      hide *;
      var e, rest := recent[k], Minus(recent, k);
      Opened(e);
      CountedSays();
      TableSays();
      PowerStays();
      SomeUnlinked(k);
      InMembers(rest, e);
      FrontOf(rest, e);
      TotalMinus(recent, k);
      OutInOrder(uses, recent, k);
      UsedInOrder(uses, rest, e);
      if newest == e {
        NewestFirst(k);
      }
    }

    lemma NewestFirst(k: nat)
      requires Listed() && k < |recent| && newest == recent[k]
      ensures k == 0 && recent == [recent[k]] + Minus(recent, k)
    {
      Different(recent);
    }

    // ---------------------------------------------------------------- serving

    /** A reply that carries the body reads the entry until it has been written. */
    method Reply(e: Entry, body: bool)
      requires Valid() && (e in recent || e in unsent)
      modifies this`sending, this`unsent, made`refs
      ensures Valid()
      ensures sending == if body then old(sending) + [e] else old(sending)
      ensures unsent == if body && e !in recent then old(unsent) - {e} else old(unsent)
    {
      hide *;
      if body {
        OpenedAny(e);
        RefsAt(e);
        SendAccounted(Members(recent), sending, freed, unsent, Refs(made), Drops(made), e);
        SetRefs(e, e.refs + 1);
        sending, unsent := sending + [e], unsent - {e};
        Closed();
      }
    }

    lemma OpenedAny(e: Entry)
      requires Valid() && (e in recent || e in sending || e in unsent)
      ensures e in made && (e in Members(recent) <==> e in recent)
      ensures e in recent ==> unsent - {e} == unsent
      ensures Listed() && Table() && Counted() && InUseOrder(uses, recent) && held <= budget
      ensures Accounted(Members(recent), sending, freed, unsent, Refs(made), Drops(made))
    {
      assert e in sending ==> e in Members(sending);
      RefsAt(e);
      assert LifeOf(Refs(made)[e], Drops(made)[e], e in Members(recent), Count(sending, e), e in freed, e in unsent);
    }

    /** The body has been written: what nobody needs any more is freed. */
    method Sent(i: nat)
      requires Valid() && i < |sending|
      modifies this`sending, this`freed, made`refs
      ensures Valid() && sending == Minus(old(sending), i)
      ensures var e := old(sending)[i];
              freed == if e !in recent && e !in sending then old(freed) + [e] else old(freed)
    {
      hide *;
      var e := sending[i];
      OpenedAny(e);
      RefsAt(e);
      SentAccounted(Members(recent), sending, freed, unsent, Refs(made), Drops(made), i);
      ReadBy(e, i);
      sending := Minus(sending, i);
      SetRefs(e, e.refs - 1);
      if e.refs == 0 && e.dropped {
        EntryFree(e);
      }
      Closed();
    }

    lemma ReadBy(e: Entry, i: nat)
      requires Valid() && i < |sending| && sending[i] == e
      ensures e in made && e.refs > 0 && (e.dropped <==> e !in recent)
      ensures e.refs == 1 <==> e !in Minus(sending, i)
    {
      OpenedAny(e);
      RefsAt(e);
      assert LifeOf(Refs(made)[e], Drops(made)[e], e in Members(recent), Count(sending, e), e in freed, e in unsent);
      CountIs(sending, e);
      CountIs(Minus(sending, i), e);
      CountMinus(sending, i, e);
    }

    /** Room is made for a file that has been read, or it is marked as never in the table. */
    method Load(name: bytes, size: nat, granted: bool) returns (e: Entry)
      requires Valid()
      modifies this`newest, this`oldest, this`recent, this`buckets, this`chains, this`held, this`count
      modifies this`freed, this`unsent, this`made, this`uses
      modifies buckets, made`newer, made`older, made`chain, made`dropped
      ensures Valid() && (buckets == old(buckets) || fresh(buckets))
      ensures fresh(e) && made == old(made) + {e} && e.name == name && e.size == size
      ensures recent == if size <= budget then [e] + Kept(old(recent), budget - size) else old(recent)
      ensures unsent == if size <= budget then old(unsent) else old(unsent) + {e}
      ensures uses == if size <= budget then old(uses) + [e] else old(uses)
      ensures old(freed) <= freed
    {
      hide *;
      e := new Entry(name, size);
      if size <= budget {
        MakeRoom(size);
        Admit(e, granted);
      } else {
        Refuse(e);
      }
    }

    method Admit(e: Entry, granted: bool)
      requires Valid() && e !in made && e.refs == 0 && !e.dropped && held + e.size <= budget
      modifies this`newest, this`oldest, this`recent, this`buckets, this`chains, this`held, this`count
      modifies this`made, this`uses
      modifies buckets, made`newer, made`older, made`chain, e`newer, e`older, e`chain
      ensures Valid() && (buckets == old(buckets) || fresh(buckets))
      ensures made == old(made) + {e} && recent == [e] + old(recent)
      ensures uses == old(uses) + [e]
    {
      hide *;
      ghost var es := recent;
      Newcomer(e);
      MakeAccounted(Members(recent), sending, freed, unsent, Refs(made), Drops(made), e, true);
      made := made + {e};
      ListedIs();
      TableIs();
      Insert(e, granted);
      UsedInOrder(uses, es, e);
      uses := uses + [e];
      FrontOf(es, e);
      Closed();
    }

    method Refuse(e: Entry)
      requires Valid() && e !in made && e.refs == 0
      modifies this`made, this`unsent, e`dropped
      ensures Valid() && made == old(made) + {e} && unsent == old(unsent) + {e}
    {
      hide *;
      e.dropped := true;
      Newcomer(e);
      MakeAccounted(Members(recent), sending, freed, unsent, Refs(made), Drops(made), e, false);
      made, unsent := made + {e}, unsent + {e};
      ListedIs();
      TableIs();
      Closed();
    }

    /** One more entry in the world, in neither structure yet. */
    lemma Newcomer(e: Entry)
      requires Valid() && e !in made
      ensures e !in recent && e !in Refs(made)
      ensures Listed() && Counted() && InUseOrder(uses, recent) && held <= budget
      ensures Accounted(Members(recent), sending, freed, unsent, Refs(made), Drops(made))
      ensures Refs(made + {e}) == Refs(made)[e := e.refs] && Drops(made + {e}) == Drops(made)[e := e.dropped]
      ensures Linked(recent, newest, oldest, Newer(made + {e}), Older(made + {e}))
      ensures PowerOfTwo(buckets.Length) && Chained(buckets[..], chains, Next(made + {e}))
      ensures Placed(chains, Members(recent))
      ensures Distinct(recent) && Members(recent) <= made + {e}
    {
    }

    lemma ListedIs()
      requires Distinct(recent) && Members(recent) <= made
      requires Linked(recent, newest, oldest, Newer(made), Older(made))
      ensures Listed()
    {
    }

    /** An entry of this name, if it is still the file on disk; a stale one leaves the table. */
    method Current(name: bytes, current: bool) returns (e: Entry?)
      requires Valid()
      modifies this`newest, this`oldest, this`recent, this`chains, this`held, this`count, this`freed
      modifies buckets, made`newer, made`older, made`chain, made`dropped
      ensures Valid() && buckets == old(buckets)
      ensures e != null <==> current && Named(old(recent), name)
      ensures e != null ==> e in recent && e in old(recent) && e.name == name && recent == old(recent)
      ensures Members(recent) <= Members(old(recent))
      ensures current ==> recent == old(recent)
      ensures forall x :: x in Members(old(recent)) - Members(recent) ==> x.name == name
      ensures old(freed) <= freed
    {
      hide *;
      ValidSays();
      e := Lookup(name);
      if e != null && !current {
        Drop(e);
        e := null;
      }
    }

    /**
     * A request: answered from an entry of the name asked, or of the name the file is found under;
     * else the file is read by a coroutine that is suspended meanwhile.
     */
    method Ask(asked: bytes, current: bool, file: Opened, thenCurrent: bool, body: bool) returns (served: Entry?)
      requires Valid()
      modifies this`newest, this`oldest, this`recent, this`chains, this`held, this`count
      modifies this`freed, this`unsent, this`uses, this`sending, this`loading
      modifies buckets, made`newer, made`older, made`chain, made`dropped, made`refs
      ensures Valid() && buckets == old(buckets) && unsent == old(unsent)
      ensures served != null ==>
        && served in Members(old(recent)) && recent != [] && recent[0] == served && uses == old(uses) + [served]
        && ((current && served.name == asked) || (thenCurrent && Leads(file, served.name)))
      ensures served == null ==> uses == old(uses)
      ensures current && Named(old(recent), asked) ==>
        served != null && served.name == asked && Members(recent) == Members(old(recent))
      ensures Members(recent) <= Members(old(recent))
      ensures forall x :: x in Members(old(recent)) - Members(recent) ==>
        (x.name == asked && !current) || (Leads(file, x.name) && !thenCurrent)
      ensures sending == old(sending) + if served != null && body then [served] else []
      ensures loading == old(loading) + if served == null && file.Small? then [file.name] else []
      ensures old(freed) <= freed
    {
      hide Valid, Listed, Table, Counted, Lives, Refs, Drops, Newer, Older, Next, Members, Minus, Without;
      hide Accounted, InUseOrder, Named, Linked, Distinct;
      ghost var es := recent;
      served := Current(asked, current);
      if served == null {
        if !file.Missing? && file.name != asked {
          served := Current(file.name, thenCurrent);
        }
        if served == null {
          if file.Small? {
            loading := loading + [file.name];
          }
          return;
        }
      }
      InMembers(recent, served);
      Touch(served);
      Reply(served, body);
    }

    /** A file has been read, or could not be: its entry is served at once. */
    method Read(load: nat, size: Option<nat>, granted: bool, body: bool) returns (served: Entry?)
      requires Valid() && load < |loading|
      modifies this`newest, this`oldest, this`recent, this`buckets, this`chains, this`held, this`count
      modifies this`freed, this`unsent, this`made, this`uses, this`sending, this`loading
      modifies buckets, made`newer, made`older, made`chain, made`dropped, made`refs
      ensures Valid() && (buckets == old(buckets) || fresh(buckets)) && fresh(made - old(made))
      ensures loading == Minus(old(loading), load) && (served != null <==> size.Some?)
      ensures size.None? ==>
        recent == old(recent) && unsent == old(unsent) && made == old(made) && freed == old(freed)
      ensures size.Some? ==>
        && fresh(served) && made == old(made) + {served}
        && served.name == old(loading)[load] && served.size == size.value
      ensures size.Some? && size.value <= budget ==>
        recent == [served] + Kept(old(recent), budget - size.value) && unsent == old(unsent)
      ensures size.Some? && size.value > budget ==>
        recent == old(recent) && unsent == old(unsent) + if body then {} else {served}
      ensures sending == old(sending) + if served != null && body then [served] else []
      ensures uses == if size.Some? && size.value <= budget then old(uses) + [served] else old(uses)
      ensures old(freed) <= freed
    {
      hide *;
      UnsentMade();
      var name := loading[load];
      loading := Minus(loading, load);
      served := null;
      if size.Some? {
        served := Load(name, size.value, granted);
        Loaded(served, old(unsent), old(made));
        Reply(served, body);
      }
    }

    lemma UnsentMade()
      requires Valid()
      ensures unsent <= made
    {
    }

    lemma Loaded(e: Entry, was: set<Entry>, others: set<Entry>)
      requires Valid() && e !in others && was <= others
      ensures recent != [] && recent[0] == e ==> e in recent
      ensures unsent == was + {e} && e !in recent ==> unsent - {e} == was
      ensures unsent == was + {e} ==> e in unsent && e !in recent
    {
    }

    /** An empty table of 64 buckets. */
    constructor (budget: nat)
      ensures Valid() && fresh(buckets) && this.budget == budget
      ensures made == {} && sending == [] && loading == [] && unsent == {}
      ensures recent == uses == freed == []
    {
      this.budget := budget;
      buckets := new Entry?[64](_ => null);
      count, held, newest, oldest, sending, loading := 0, 0, null, null, [], [];
      recent, chains, made, uses, freed, unsent := [], seq(64, (b: nat) => []), {}, [], [], {};
      new;
      assert Pow2(6) == 64;
    }

    /** Any run of the cache: requests, reads and sends of any number of coroutines, in any order. */
    method Run(events: seq<Event>)
      requires Valid()
      modifies this, buckets, made
      ensures Valid() && (buckets == old(buckets) || fresh(buckets)) && fresh(made - old(made))
      ensures old(unsent) <= unsent && old(made) <= made && old(uses) <= uses && old(freed) <= freed
    {
      hide *;
      var i := 0;
      while i < |events|
        invariant i <= |events|
        invariant Valid() && (buckets == old(buckets) || fresh(buckets)) && fresh(made - old(made))
        invariant old(unsent) <= unsent && old(made) <= made && old(uses) <= uses && old(freed) <= freed
      {
        match events[i] {
          case Ask(asked, current, file, thenCurrent, body) =>
            var _ := Ask(asked, current, file, thenCurrent, body);
          case Read(load, size, granted, body) =>
            if load < |loading| {
              var _ := Read(load, size, granted, body);
            }
          case Sent(send) =>
            if send < |sending| {
              Sent(send);
            }
        }
        i := i + 1;
      }
    }

    /** What holds after any run: the two structures hold the same entries, and every byte counts. */
    lemma Coherent(e: Entry)
      requires Valid()
      ensures e in recent <==> exists b :: 0 <= b < |chains| && e in chains[b]
      ensures forall b :: 0 <= b < |chains| && e in chains[b] ==> b == BucketOf(e.hash, buckets.Length)
      ensures Distinct(recent) && forall b :: 0 <= b < |chains| ==> Distinct(chains[b])
      ensures count == |recent| && held == Total(recent) && held <= budget
      ensures forall i, j :: 0 <= i < j < |recent| ==> LastUse(uses, recent[i]) > LastUse(uses, recent[j])
    {
      hide Listed, Lives, Counted;
      OneChain(chains, Members(recent), e, BucketOf(e.hash, buckets.Length));
      InMembers(recent, e);
      ListedSays();
      CountedSays();
    }

    lemma ListedSays()
      requires Listed()
      ensures Distinct(recent)
    {
    }

    /**
     * An entry is freed once at most, never while it is in the table or read by a send; and out of
     * the table it is freed as soon as no send reads it, unless it never was in it and was not sent.
     */
    lemma FreedWhenUnused(e: Entry)
      requires Valid() && e in made
      ensures Distinct(freed)
      ensures e in freed <==> e !in recent && e !in sending && e !in unsent
      ensures e.refs == Count(sending, e)
    {
      OpenedAll();
      RefsAt(e);
      assert LifeOf(Refs(made)[e], Drops(made)[e], e in Members(recent), Count(sending, e), e in freed, e in unsent);
      CountIs(sending, e);
    }

    lemma OpenedAll()
      requires Valid()
      ensures Accounted(Members(recent), sending, freed, unsent, Refs(made), Drops(made))
    {
    }

    method FreeChain(i: nat, ghost es: set<Entry>, ghost was: set<Entry>)
      requires Table() && i < buckets.Length == |chains| && buckets[i] == At(chains[i], 0)
      requires Freeing(chains, i, 0, es, was, freed) && Placed(chains, es) && es !! was
      modifies this`freed
      ensures Freeing(chains, i, |chains[i]|, es, was, freed)
    {
      hide *;
      var e := buckets[i];
      ghost var j: nat := 0;
      while e != null
        invariant j <= |chains[i]| && e == At(chains[i], j)
        invariant Freeing(chains, i, j, es, was, freed)
        decreases |chains[i]| - j
      {
        AtIs(chains[i], j);
        FreeOne(chains, i, j, es, was, freed);
        NextOf(i, j);
        var more := e.chain;
        EntryFree(e);
        e := more;
        j := j + 1;
      }
      AtIs(chains[i], j);
    }

    /** Frees the entries of the table, once no send is under way. */
    method Close()
      requires Valid() && sending == []
      modifies this`freed
      ensures Distinct(freed) && Members(freed) == made - unsent
    {
      Parts();
      TableSays();
      hide *;
      ghost var es, was := Members(recent), Members(freed);
      FirstFree(chains, es, freed);
      var i := 0;
      while i < buckets.Length
        invariant i <= buckets.Length
        invariant i < buckets.Length ==> Freeing(chains, i, 0, es, was, freed)
        invariant i == buckets.Length ==> Distinct(freed) && Members(freed) == was + es
      {
        assert buckets[..][i] == buckets[i];
        FreeChain(i, es, was);
        NextFree(chains, i, es, was, freed);
        i := i + 1;
      }
    }

    lemma Parts()
      requires Valid() && sending == []
      ensures Table() && Members(recent) !! Members(freed) && Distinct(freed)
      ensures Members(recent) + Members(freed) == made - unsent
    {
      forall e | e in made
        ensures e in freed <==> e !in recent && e !in unsent
        ensures e in recent ==> e !in unsent
      {
        FreedWhenUnused(e);
        OpenedAll();
        RefsAt(e);
        assert LifeOf(Refs(made)[e], Drops(made)[e], e in Members(recent), Count(sending, e), e in freed, e in unsent);
      }
    }
  }

  /**
   * A file of eleven bytes behind a budget of ten, asked for by HEAD: its entry is in no table and in
   * no send, and is not freed; nor does any run, or closing the cache, free it.
   */
  method NeverSent(events: seq<Event>) returns (c: Cache, e: Entry)
    ensures e in c.made && e !in c.freed
  {
    hide *;
    var name: bytes := [102];
    c := new Cache(10);
    NoMembers();
    var none := c.Ask(name, false, Small(name), false, false);
    var served := c.Read(0, Some(11), true, false);
    e := served;
    assert e in c.unsent;
    c.Run(events);
    if c.sending == [] {
      c.Close();
      InMembers(c.freed, e);
    } else {
      c.FreedWhenUnused(e);
    }
  }

  lemma NoMembers()
    ensures Members([]) == {}
  {
  }
}
