/**
 * The certificate tables of lib/tls/certs.c: handshakes hold the one that serves while a reload puts
 * another in its place. Contexts (SSL_CTX) are numbers, counted as OpenSSL counts them; whether a
 * host's certificate loads, and is current, is part of what the directory is found to hold.
 */
module CertTables {
  import opened Bytes

  datatype Host = Host(name: bytes, ctx: nat)

  /** A directory entry; usable: its paths fit and both files are regular; loads: they make a current certificate. */
  datatype Entry = Entry(name: bytes, usable: bool, loads: bool)

  /** default */
  const DEFAULT: bytes := [100, 101, 102, 97, 117, 108, 116]

  predicate Considered(e: Entry) {
    !(e.name != [] && e.name[0] == 46) && e.usable
  }

  // Hosts by name and by context.

  function CtxOf(hosts: seq<Host>, name: bytes): Option<nat> {
    if hosts == [] then None
    else if hosts[0].name == name then Some(hosts[0].ctx)
    else CtxOf(hosts[1..], name)
  }

  /** fallback_name. */
  function NameOf(hosts: seq<Host>, ctx: nat): Option<bytes> {
    if hosts == [] then None
    else if hosts[0].ctx == ctx then Some(hosts[0].name)
    else NameOf(hosts[1..], ctx)
  }

  /** How often a table's hosts have a context. */
  function Uses(hosts: seq<Host>, ctx: nat): nat {
    if hosts == [] then 0 else Uses(hosts[..|hosts| - 1], ctx) + if hosts[|hosts| - 1].ctx == ctx then 1 else 0
  }

  /** No name twice, and no context twice. */
  predicate Distinct(hosts: seq<Host>) {
    forall i, j :: 0 <= i < j < |hosts| ==> hosts[i].name != hosts[j].name && hosts[i].ctx != hosts[j].ctx
  }

  predicate NamesDiffer(listing: seq<Entry>) {
    forall i, j :: 0 <= i < j < |listing| ==> listing[i].name != listing[j].name
  }

  lemma {:induction false} CtxOfIs(hosts: seq<Host>, name: bytes)
    ensures CtxOf(hosts, name).Some? <==> exists i :: 0 <= i < |hosts| && hosts[i].name == name
    ensures CtxOf(hosts, name).Some? ==> Host(name, CtxOf(hosts, name).value) in hosts
    ensures Distinct(hosts) ==> forall i :: 0 <= i < |hosts| ==> (hosts[i].name == name ==> CtxOf(hosts, name) == Some(hosts[i].ctx))
  {
    if hosts != [] {
      CtxOfIs(hosts[1..], name);
      assert forall i :: 0 < i < |hosts| ==> hosts[1..][i - 1] == hosts[i];
    }
  }

  lemma {:induction false} NameOfIs(hosts: seq<Host>, ctx: nat)
    ensures NameOf(hosts, ctx).Some? <==> exists i :: 0 <= i < |hosts| && hosts[i].ctx == ctx
    ensures NameOf(hosts, ctx).Some? ==> Host(NameOf(hosts, ctx).value, ctx) in hosts
  {
    if hosts != [] {
      NameOfIs(hosts[1..], ctx);
      assert forall i :: 0 < i < |hosts| ==> hosts[1..][i - 1] == hosts[i];
    }
  }

  // What a load makes of a directory.

  /** The hosts of the entries in order; one that does not load keeps the context it has in the old table. */
  function HostsOf(listing: seq<Entry>, prior: seq<Host>, next: nat): (seq<Host>, nat) {
    if listing == [] then ([], next)
    else
      var n := |listing| - 1;
      var e := listing[n];
      var (hosts, next') := HostsOf(listing[..n], prior, next);
      if !Considered(e) then (hosts, next')
      else if e.loads then (hosts + [Host(e.name, next')], next' + 1)
      else match CtxOf(prior, e.name)
        case None => (hosts, next')
        case Some(c) => (hosts + [Host(e.name, c)], next')
  }

  /** An entry that ends up in the table. */
  predicate Listed(e: Entry, prior: seq<Host>) {
    Considered(e) && (e.loads || CtxOf(prior, e.name).Some?)
  }

  /** The host an entry becomes: a new context, or the old one if it does not load. */
  predicate HostFits(h: Host, listing: seq<Entry>, prior: seq<Host>, next: nat) {
    exists i :: 0 <= i < |listing| && Listed(listing[i], prior) && listing[i].name == h.name
                && if listing[i].loads then h.ctx >= next else CtxOf(prior, h.name) == Some(h.ctx)
  }

  /** One entry's step: what is added to the hosts. */
  lemma HostsStep(listing: seq<Entry>, prior: seq<Host>, next: nat)
    requires listing != []
    ensures var n := |listing| - 1; var e := listing[n];
            var (hosts, next') := HostsOf(listing[..n], prior, next);
            HostsOf(listing, prior, next) ==
            if !Listed(e, prior) then (hosts, next')
            else (hosts + [Host(e.name, if e.loads then next' else CtxOf(prior, e.name).value)], if e.loads then next' + 1 else next')
  {
  }

  lemma FitsStill(h: Host, listing: seq<Entry>, prior: seq<Host>, next: nat)
    requires listing != [] && NamesDiffer(listing) && HostFits(h, listing[..|listing| - 1], prior, next)
    ensures HostFits(h, listing, prior, next) && h.name != listing[|listing| - 1].name
  {
    var before := listing[..|listing| - 1];
    var i :| 0 <= i < |before| && Listed(before[i], prior) && before[i].name == h.name
             && if before[i].loads then h.ctx >= next else CtxOf(prior, h.name) == Some(h.ctx);
    assert listing[i] == before[i];
  }

  lemma {:induction false} HostsAre(listing: seq<Entry>, prior: seq<Host>, next: nat)
    requires NamesDiffer(listing) && Distinct(prior) && forall i :: 0 <= i < |prior| ==> prior[i].ctx < next
    ensures var (hosts, next') := HostsOf(listing, prior, next);
            && next <= next' && Distinct(hosts)
            && forall i :: 0 <= i < |hosts| ==> hosts[i].ctx < next' && HostFits(hosts[i], listing, prior, next)
  {
    if listing != [] {
      var n := |listing| - 1;
      var e, before := listing[n], listing[..n];
      HostsAre(before, prior, next);
      HostsStep(listing, prior, next);
      var (hosts, next') := HostsOf(before, prior, next);
      CtxOfIs(prior, e.name);
      hide HostsOf, HostFits, CtxOf, Distinct;
      forall i | 0 <= i < |hosts|
        ensures HostFits(hosts[i], listing, prior, next) && hosts[i].name != e.name
      {
        FitsStill(hosts[i], listing, prior, next);
      }
      if Listed(e, prior) {
        var h := Host(e.name, if e.loads then next' else CtxOf(prior, e.name).value);
        AddsHost(hosts, h, before, prior, next, next');
        FitsLast(h, listing, prior, next);
        assert h.ctx < next' || e.loads;
      }
    }
  }

  lemma FitsLast(h: Host, listing: seq<Entry>, prior: seq<Host>, next: nat)
    requires listing != [] && Listed(listing[|listing| - 1], prior) && listing[|listing| - 1].name == h.name
    requires if listing[|listing| - 1].loads then h.ctx >= next else CtxOf(prior, h.name) == Some(h.ctx)
    ensures HostFits(h, listing, prior, next)
  {
  }

  lemma {:induction false} AllListed(listing: seq<Entry>, prior: seq<Host>, next: nat, k: nat)
    requires k < |listing| && Listed(listing[k], prior)
    ensures CtxOf(HostsOf(listing, prior, next).0, listing[k].name).Some?
    decreases |listing|
  {
    var n := |listing| - 1;
    HostsStep(listing, prior, next);
    var hosts := HostsOf(listing[..n], prior, next).0;
    if Listed(listing[n], prior) {
      CtxOfMore(hosts, HostsOf(listing, prior, next).0[|hosts|], listing[k].name);
    }
    if k < n {
      AllListed(listing[..n], prior, next, k);
    }
  }

  lemma {:induction false} CtxOfMore(hosts: seq<Host>, h: Host, name: bytes)
    ensures CtxOf(hosts + [h], name) ==
            if CtxOf(hosts, name).Some? then CtxOf(hosts, name) else if h.name == name then Some(h.ctx) else None
  {
    if hosts != [] {
      assert (hosts + [h])[1..] == hosts[1..] + [h];
      CtxOfMore(hosts[1..], h, name);
    } else {
      assert [h][1..] == [];
    }
  }

  /** A new host's context is new, or that of an old host no entry before stands for. */
  lemma AddsHost(hosts: seq<Host>, h: Host, before: seq<Entry>, prior: seq<Host>, next: nat, next': nat)
    requires Distinct(hosts) && Distinct(prior) && next <= next'
    requires forall i :: 0 <= i < |hosts| ==> hosts[i].ctx < next' && HostFits(hosts[i], before, prior, next) && hosts[i].name != h.name
    requires forall i :: 0 <= i < |prior| ==> prior[i].ctx < next
    requires h.ctx == next' || CtxOf(prior, h.name) == Some(h.ctx)
    ensures Distinct(hosts + [h])
  {
    forall i | 0 <= i < |hosts|
      ensures hosts[i].ctx != h.ctx
    {
      CtxOfIs(prior, h.name);
      CtxOfIs(prior, hosts[i].name);
    }
  }

  /** What answers when no host matches: the default host, else the one that answered before, by name. */
  function FallbackOf(hosts: seq<Host>, prior: Option<(seq<Host>, nat)>): Option<nat> {
    if CtxOf(hosts, DEFAULT).Some? then CtxOf(hosts, DEFAULT)
    else match prior
      case None => None
      case Some((was, fallback)) =>
        match NameOf(was, fallback)
        case None => None
        case Some(name) => CtxOf(hosts, name)
  }

  /** A host that is still listed and does not load keeps the context it had; one that loads gets a new one. */
  lemma KeepsOldContext(listing: seq<Entry>, prior: seq<Host>, next: nat, k: nat)
    requires NamesDiffer(listing) && Distinct(prior) && forall i :: 0 <= i < |prior| ==> prior[i].ctx < next
    requires k < |listing| && Considered(listing[k])
    ensures var hosts := HostsOf(listing, prior, next).0; var e := listing[k];
            if e.loads then CtxOf(hosts, e.name).Some? && CtxOf(hosts, e.name).value >= next
            else CtxOf(hosts, e.name) == CtxOf(prior, e.name)
  {
    HostsAre(listing, prior, next);
    var hosts := HostsOf(listing, prior, next).0;
    var e := listing[k];
    CtxOfIs(hosts, e.name);
    if Listed(e, prior) {
      AllListed(listing, prior, next, k);
    }
    if CtxOf(hosts, e.name).Some? {
      var h := Host(e.name, CtxOf(hosts, e.name).value);
      assert h in hosts;
      assert HostFits(h, listing, prior, next);
    }
  }

  // Tables and who holds them.

  class Table {
    const hosts: seq<Host>
    const fallback: nat
    var refs: nat

    constructor (hosts: seq<Host>, fallback: nat)
      ensures this.hosts == hosts && this.fallback == fallback && refs == 1
    {
      this.hosts, this.fallback, refs := hosts, fallback, 1;
    }
  }

  /** A table that can serve: its fallback is a context of one of its hosts. */
  predicate Serves(t: Table) {
    Distinct(t.hosts) && NameOf(t.hosts, t.fallback).Some?
  }

  function Count(ts: seq<Table>, t: Table): nat {
    if ts == [] then 0 else (if ts[0] == t then 1 else 0) + Count(ts[1..], t)
  }

  lemma {:induction false} CountIs(ts: seq<Table>, t: Table)
    ensures Count(ts, t) > 0 <==> t in ts
  {
    if ts != [] {
      CountIs(ts[1..], t);
    }
  }

  lemma {:induction false} CountAppend(a: seq<Table>, b: seq<Table>, t: Table)
    ensures Count(a + b, t) == Count(a, t) + Count(b, t)
  {
    if a == [] {
      assert a + b == b;
    } else {
      assert (a + b)[1..] == a[1..] + b;
      CountAppend(a[1..], b, t);
    }
  }

  function Minus<T>(ts: seq<T>, k: nat): seq<T>
    requires k < |ts|
  {
    ts[..k] + ts[k + 1..]
  }

  lemma CountMinus(ts: seq<Table>, k: nat, t: Table)
    requires k < |ts|
    ensures Count(ts, t) == Count(Minus(ts, k), t) + if ts[k] == t then 1 else 0
  {
    assert ts == ts[..k] + ([ts[k]] + ts[k + 1..]);
    CountAppend(ts[..k], [ts[k]] + ts[k + 1..], t);
    CountAppend(ts[..k], ts[k + 1..], t);
    assert ([ts[k]] + ts[k + 1..])[1..] == ts[k + 1..];
  }

  ghost function Refs(all: set<Table>): map<Table, nat>
    reads all`refs
  {
    map t | t in all :: t.refs
  }

  /** Every reference is somebody's, and the tables without one are those freed, each once. */
  ghost predicate Accounted(refs: map<Table, nat>, owners: seq<Table>, live: seq<Table>, freed: seq<Table>) {
    && (forall t :: t in refs ==> refs[t] == Count(owners, t))
    && (forall t :: t in owners ==> t in live)
    && (forall t :: t in live ==> t in refs && t in owners)
    && (forall t :: t in freed ==> t in refs && t !in live)
    && (forall t :: t in refs ==> t in live || t in freed)
    && (forall i, j :: 0 <= i < j < |live| ==> live[i] != live[j])
    && (forall i, j :: 0 <= i < j < |freed| ==> freed[i] != freed[j])
  }

  lemma AcquireAccounted(refs: map<Table, nat>, owners: seq<Table>, live: seq<Table>, freed: seq<Table>, t: Table)
    requires Accounted(refs, owners, live, freed) && t in owners
    ensures t in refs && Accounted(refs[t := refs[t] + 1], owners + [t], live, freed)
  {
    forall x | x in refs
      ensures Count(owners + [t], x) == Count(owners, x) + if x == t then 1 else 0
    {
      CountAppend(owners, [t], x);
      assert [t][1..] == [];
    }
  }

  lemma NewAccounted(refs: map<Table, nat>, owners: seq<Table>, live: seq<Table>, freed: seq<Table>, t: Table)
    requires Accounted(refs, owners, live, freed) && t !in refs
    ensures Accounted(refs[t := 1], owners + [t], live + [t], freed)
  {
    forall x | x in refs[t := 1]
      ensures Count(owners + [t], x) == Count(owners, x) + if x == t then 1 else 0
    {
      CountAppend(owners, [t], x);
      assert [t][1..] == [];
    }
    CountIs(owners, t);
  }

  /** The last reference frees the table. */
  lemma ReleaseAccounted(refs: map<Table, nat>, owners: seq<Table>, live: seq<Table>, freed: seq<Table>, k: nat, at: nat)
    requires Accounted(refs, owners, live, freed) && k < |owners| && at < |live| && live[at] == owners[k]
    ensures var t, left := owners[k], Minus(owners, k);
            && t in refs && refs[t] > 0 && t !in freed
            && if refs[t] == 1 then Accounted(refs[t := 0], left, Minus(live, at), freed + [t])
               else Accounted(refs[t := refs[t] - 1], left, live, freed)
  {
    var t, left := owners[k], Minus(owners, k);
    assert t in owners;
    CountIs(owners, t);
    forall x
      ensures Count(left, x) == Count(owners, x) - (if x == t then 1 else 0)
      ensures x in left <==> Count(left, x) > 0
      ensures x in owners <==> Count(owners, x) > 0
    {
      CountMinus(owners, k, x);
      CountIs(left, x);
      CountIs(owners, x);
    }
    if refs[t] == 1 {
      OutOfLive(live, at);
    }
  }

  lemma OutOfLive(live: seq<Table>, at: nat)
    requires at < |live| && forall i, j :: 0 <= i < j < |live| ==> live[i] != live[j]
    ensures forall x :: x in Minus(live, at) <==> x in live && x != live[at]
    ensures var r := Minus(live, at); forall i, j :: 0 <= i < j < |r| ==> r[i] != r[j]
  {
    var r := Minus(live, at);
    forall x
      ensures x in r <==> x in live && x != live[at]
    {
      if x in live && x != live[at] {
        var i :| 0 <= i < |live| && live[i] == x;
        assert r[if i < at then i else i - 1] == x;
      }
      if x in r {
        var i :| 0 <= i < |r| && r[i] == x;
        assert x == live[if i < at then i else i + 1];
      }
    }
  }

  lemma SameOwners(refs: map<Table, nat>, owners: seq<Table>, owners': seq<Table>, live: seq<Table>, freed: seq<Table>)
    requires Accounted(refs, owners, live, freed) && forall t :: Count(owners, t) == Count(owners', t)
    ensures Accounted(refs, owners', live, freed)
  {
    forall t
      ensures t in owners <==> t in owners'
    {
      CountIs(owners, t);
      CountIs(owners', t);
    }
  }

  // Contexts: counted by the tables that have them.

  /** How many hosts of these tables have a context. */
  function Slots(ts: seq<Table>, ctx: nat): nat {
    if ts == [] then 0 else Uses(ts[0].hosts, ctx) + Slots(ts[1..], ctx)
  }

  lemma {:induction false} SlotsAppend(a: seq<Table>, b: seq<Table>, ctx: nat)
    ensures Slots(a + b, ctx) == Slots(a, ctx) + Slots(b, ctx)
  {
    if a == [] {
      assert a + b == b;
    } else {
      assert (a + b)[1..] == a[1..] + b;
      SlotsAppend(a[1..], b, ctx);
    }
  }

  lemma SlotsMinus(ts: seq<Table>, k: nat, ctx: nat)
    requires k < |ts|
    ensures Slots(ts, ctx) == Slots(Minus(ts, k), ctx) + Uses(ts[k].hosts, ctx)
  {
    assert ts == ts[..k] + ([ts[k]] + ts[k + 1..]);
    SlotsAppend(ts[..k], [ts[k]] + ts[k + 1..], ctx);
    SlotsAppend(ts[..k], ts[k + 1..], ctx);
    assert ([ts[k]] + ts[k + 1..])[1..] == ts[k + 1..];
  }

  lemma {:induction false} UsesIs(hosts: seq<Host>, ctx: nat)
    ensures Uses(hosts, ctx) > 0 <==> exists i :: 0 <= i < |hosts| && hosts[i].ctx == ctx
  {
    if hosts != [] {
      var n := |hosts| - 1;
      UsesIs(hosts[..n], ctx);
      assert forall i :: 0 <= i < n ==> hosts[..n][i] == hosts[i];
    }
  }

  lemma UsesMore(hosts: seq<Host>, h: Host, ctx: nat)
    ensures Uses(hosts + [h], ctx) == Uses(hosts, ctx) + if h.ctx == ctx then 1 else 0
  {
    assert (hosts + [h])[..|hosts|] == hosts;
  }

  /** Every context made so far is counted by the tables that are not freed, and by a table in the making. */
  ghost predicate Contexts(ctxs: map<nat, nat>, next: nat, live: seq<Table>, making: seq<Host>) {
    && (forall c: nat :: c in ctxs <==> c < next)
    && (forall c: nat :: c < next ==> ctxs[c] == Slots(live, c) + Uses(making, c))
    && (forall t :: t in live ==> forall i :: 0 <= i < |t.hosts| ==> t.hosts[i].ctx < next)
  }

  lemma {:induction false} SlotsNone(ts: seq<Table>, c: nat)
    requires forall t :: t in ts ==> forall i :: 0 <= i < |t.hosts| ==> t.hosts[i].ctx < c
    ensures Slots(ts, c) == 0
  {
    if ts != [] {
      UsesIs(ts[0].hosts, c);
      assert ts[0] in ts;
      SlotsNone(ts[1..], c);
    }
  }

  lemma NoUses()
    ensures forall c: nat :: Uses([], c) == 0
  {
  }

  lemma SlotsOne(t: Table, c: nat)
    ensures Slots([t], c) == Uses(t.hosts, c)
  {
    assert [t][1..] == [];
  }

  /** A context is made, or counted once more, for a host. */
  lemma ContextAdded(ctxs: map<nat, nat>, next: nat, live: seq<Table>, making: seq<Host>, name: bytes)
    requires Contexts(ctxs, next, live, making) && forall i :: 0 <= i < |making| ==> making[i].ctx < next
    ensures Contexts(ctxs[next := 1], next + 1, live, making + [Host(name, next)])
  {
    SlotsNone(live, next);
    UsesIs(making, next);
    hide Uses, Slots;
    forall c: nat
      ensures Uses(making + [Host(name, next)], c) == Uses(making, c) + if next == c then 1 else 0
    {
      UsesMore(making, Host(name, next), c);
    }
  }

  lemma ContextShared(ctxs: map<nat, nat>, next: nat, live: seq<Table>, making: seq<Host>, name: bytes, ctx: nat)
    requires Contexts(ctxs, next, live, making) && ctx < next
    ensures Contexts(ctxs[ctx := ctxs[ctx] + 1], next, live, making + [Host(name, ctx)])
  {
    hide Uses, Slots;
    forall c: nat
      ensures Uses(making + [Host(name, ctx)], c) == Uses(making, c) + if ctx == c then 1 else 0
    {
      UsesMore(making, Host(name, ctx), c);
    }
  }

  /** A table that is made counts for its hosts, and one that is freed is unmade first. */
  lemma ContextsOfTable(ctxs: map<nat, nat>, next: nat, live: seq<Table>, t: Table)
    requires forall i :: 0 <= i < |t.hosts| ==> t.hosts[i].ctx < next
    requires Contexts(ctxs, next, live, t.hosts)
    ensures Contexts(ctxs, next, live + [t], [])
  {
    hide Uses, Slots;
    NoUses();
    forall c: nat
      ensures Slots(live + [t], c) == Slots(live, c) + Uses(t.hosts, c)
    {
      SlotsAppend(live, [t], c);
      SlotsOne(t, c);
    }
  }

  lemma ContextsWithout(ctxs: map<nat, nat>, next: nat, live: seq<Table>, at: nat)
    requires at < |live| && Contexts(ctxs, next, live, [])
    ensures Contexts(ctxs, next, Minus(live, at), live[at].hosts)
  {
    hide Uses, Slots;
    NoUses();
    forall c: nat
      ensures Slots(live, c) == Slots(Minus(live, at), c) + Uses(live[at].hosts, c)
    {
      SlotsMinus(live, at, c);
    }
    assert forall t :: t in Minus(live, at) ==> t in live;
  }

  datatype Event =
    | Acquire
    | Release(i: nat)
    | ReloadBegins
    | ReloadLoads(listing: seq<Entry>)
    | ReloadReleases

  class Store {
    /** The table that serves, until ioxd_certs_free; and the references handshakes hold. */
    var table: Table?
    var holders: seq<Table>
    /** The references of the reload under way, and whether it has yet to load. One at a time: it holds a lock. */
    var mine: seq<Table>
    var loading: bool
    /** How often each context made so far is referenced. */
    var ctxs: map<nat, nat>
    var next: nat
    ghost var made: set<Table>
    /** The tables in memory, and the ones freed, in order. */
    ghost var live: seq<Table>
    ghost var freed: seq<Table>

    ghost function Owners(): seq<Table>
      reads this`table, this`holders, this`mine
    {
      (if table == null then [] else [table]) + holders + mine
    }

    ghost predicate Valid()
      reads this, made`refs
    {
      && Accounted(Refs(made), Owners(), live, freed)
      && Contexts(ctxs, next, live, [])
      && (forall t :: t in live ==> Serves(t))
      && (loading ==> |mine| == 1 && table == mine[0])
    }

    constructor ()
      ensures Valid() && table == null && holders == mine == [] && !loading && made == {} && live == freed == [] && next == 0
    {
      table, holders, mine, loading, ctxs, next := null, [], [], false, map[], 0;
      made, live, freed := {}, [], [];
    }

    method SetRefs(t: Table, n: nat)
      requires t in made
      modifies t`refs
      ensures Refs(made) == old(Refs(made))[t := n] && t.refs == n
    {
      t.refs := n;
    }

    // Loading.

    /** load: None: nothing that can serve, and what was made for it is let go. */
    method Load(listing: seq<Entry>, prior: Table?, ghost owners: seq<Table>) returns (t: Table?)
      requires Accounted(Refs(made), owners, live, freed) && Contexts(ctxs, next, live, [])
      requires NamesDiffer(listing) && (prior != null ==> prior in live && Serves(prior))
      modifies this`ctxs, this`next, this`made, this`live
      ensures Contexts(ctxs, next, live, [])
      ensures var hosts := HostsOf(listing, if prior == null then [] else prior.hosts, old(next)).0;
              var fallback := FallbackOf(hosts, if prior == null then None else Some((prior.hosts, prior.fallback)));
              && (t == null <==> hosts == [] || fallback.None?)
              && (t != null ==> t.hosts == hosts && Some(t.fallback) == fallback && Serves(t))
      ensures if t == null then made == old(made) && live == old(live)
              else fresh(t) && made == old(made) + {t} && live == old(live) + [t] && t.refs == 1
    {
      var hosts, fallback := GatherHosts(listing, if prior == null then [] else prior.hosts);
      t := null;
      HostsAre(listing, if prior == null then [] else prior.hosts, old(next));
      if hosts == [] {
        FreeHosts(hosts);
        return;
      }
      if fallback.None? && prior != null {
        var name := NameOf(prior.hosts, prior.fallback);
        if name.Some? {
          fallback := CtxOf(hosts, name.value);
        }
      }
      if fallback.None? {
        FreeHosts(hosts);
        return;
      }
      FallbackServes(hosts, fallback.value, if CtxOf(hosts, DEFAULT).Some? then DEFAULT else NameOf(prior.hosts, prior.fallback).value);
      t := new Table(hosts, fallback.value);
      ContextsOfTable(ctxs, next, live, t);
      made, live := made + {t}, live + [t];
    }

    lemma FallbackServes(hosts: seq<Host>, fallback: nat, name: bytes)
      requires CtxOf(hosts, name) == Some(fallback)
      ensures NameOf(hosts, fallback).Some?
    {
      CtxOfIs(hosts, name);
      NameOfIs(hosts, fallback);
    }

    /** The directory, entry by entry. */
    method GatherHosts(listing: seq<Entry>, prior: seq<Host>) returns (hosts: seq<Host>, fallback: Option<nat>)
      requires Contexts(ctxs, next, live, []) && NamesDiffer(listing) && Distinct(prior)
      requires forall i :: 0 <= i < |prior| ==> prior[i].ctx < next
      modifies this`ctxs, this`next
      ensures (hosts, next) == HostsOf(listing, prior, old(next)) && fallback == CtxOf(hosts, DEFAULT)
      ensures Contexts(ctxs, next, live, hosts)
    {
      hide *;
      hosts, fallback := [], None;
      NoHosts(listing, prior, next);
      for i := 0 to |listing|
        invariant (hosts, next) == HostsOf(listing[..i], prior, old(next)) && fallback == CtxOf(hosts, DEFAULT)
        invariant Contexts(ctxs, next, live, hosts) && old(next) <= next
      {
        var e := listing[i];
        assert listing[..i + 1][..i] == listing[..i] && listing[..i + 1][i] == e;
        DiffersBefore(listing, i);
        HostsAre(listing[..i], prior, old(next));
        HostsStep(listing[..i + 1], prior, old(next));
        ListedIs(e, prior);
        if !(e.name != [] && e.name[0] == 46) && e.usable {
          var ctx := ContextFor(e, prior, hosts);
          if ctx.Some? {
            NotTwice(listing, prior, old(next), i);
            CtxOfMore(hosts, Host(e.name, ctx.value), DEFAULT);
            hosts := hosts + [Host(e.name, ctx.value)];
            if e.name == DEFAULT {
              fallback := ctx;
            }
          }
        }
      }
      assert listing[..|listing|] == listing;
    }

    lemma NoHosts(listing: seq<Entry>, prior: seq<Host>, next: nat)
      ensures HostsOf(listing[..0], prior, next) == ([], next) && CtxOf([], DEFAULT) == None
    {
    }

    lemma ListedIs(e: Entry, prior: seq<Host>)
      ensures Listed(e, prior) <==> !(e.name != [] && e.name[0] == 46) && e.usable && (e.loads || CtxOf(prior, e.name).Some?)
    {
    }

    lemma DiffersBefore(listing: seq<Entry>, i: nat)
      requires NamesDiffer(listing) && i <= |listing|
      ensures NamesDiffer(listing[..i])
    {
    }

    /** A certificate's own context, or the one its host had, counted once more. */
    method ContextFor(e: Entry, prior: seq<Host>, ghost hosts: seq<Host>) returns (ctx: Option<nat>)
      requires Contexts(ctxs, next, live, hosts) && forall i :: 0 <= i < |hosts| ==> hosts[i].ctx < next
      requires forall i :: 0 <= i < |prior| ==> prior[i].ctx < next
      modifies this`ctxs, this`next
      ensures ctx == if e.loads then Some(old(next)) else CtxOf(prior, e.name)
      ensures next == old(next) + if e.loads then 1 else 0
      ensures Contexts(ctxs, next, live, if ctx.Some? then hosts + [Host(e.name, ctx.value)] else hosts)
    {
      if e.loads {
        ContextAdded(ctxs, next, live, hosts, e.name);
        ctx := Some(next);
        ctxs, next := ctxs[next := 1], next + 1;
      } else {
        ctx := CtxOf(prior, e.name);
        if ctx.Some? {
          CtxOfIs(prior, e.name);
          ContextShared(ctxs, next, live, hosts, e.name, ctx.value);
          ctxs := ctxs[ctx.value := ctxs[ctx.value] + 1];
        }
      }
    }

    /** table_free, as far as the contexts go. */
    method FreeHosts(hosts: seq<Host>)
      requires Contexts(ctxs, next, live, hosts) && forall i :: 0 <= i < |hosts| ==> hosts[i].ctx < next
      modifies this`ctxs
      ensures Contexts(ctxs, next, live, [])
    {
      assert hosts[..0] == [];
      for i := 0 to |hosts|
        invariant forall c: nat :: c in ctxs <==> c < next
        invariant forall c: nat :: c < next ==> ctxs[c] + Uses(hosts[..i], c) == Slots(live, c) + Uses(hosts, c)
      {
        assert hosts[..i + 1] == hosts[..i] + [hosts[i]];
        forall c: nat
          ensures Uses(hosts[..i + 1], c) == Uses(hosts[..i], c) + if hosts[i].ctx == c then 1 else 0
          ensures Uses(hosts[..i + 1], c) <= Uses(hosts, c)
        {
          UsesMore(hosts[..i], hosts[i], c);
          UsesPart(hosts, i + 1, c);
        }
        ctxs := ctxs[hosts[i].ctx := ctxs[hosts[i].ctx] - 1];
      }
      assert hosts[..|hosts|] == hosts;
    }

    // References.

    /** A reference less: the last one frees the table, and its contexts are counted once less. */
    method Drop(t: Table, ghost owners: seq<Table>, ghost k: nat)
      requires Accounted(Refs(made), owners, live, freed) && Contexts(ctxs, next, live, [])
      requires k < |owners| && owners[k] == t && t in made
      modifies t`refs, this`ctxs, this`live, this`freed
      ensures Accounted(Refs(made), Minus(owners, k), live, freed) && Contexts(ctxs, next, live, [])
      ensures forall x :: x in live ==> x in old(live)
    {
      hide *;
      ghost var at := LiveAt(t, owners, k);
      ReleaseAccounted(Refs(made), owners, live, freed, k, at);
      ContextsWithout(ctxs, next, live, at);
      SetRefs(t, t.refs - 1);
      if t.refs == 0 {
        live, freed := Minus(live, at), freed + [t];
        FreeHosts(t.hosts);
      }
    }

    lemma LiveAt(t: Table, owners: seq<Table>, k: nat) returns (at: nat)
      requires Accounted(Refs(made), owners, live, freed) && Contexts(ctxs, next, live, [])
      requires k < |owners| && owners[k] == t
      ensures at < |live| && live[at] == t && t in made && t in Refs(made) && Refs(made)[t] == t.refs
      ensures forall x :: x in Minus(live, at) ==> x in live
      ensures forall i :: 0 <= i < |t.hosts| ==> t.hosts[i].ctx < next
    {
      assert t in owners && t in live;
      at :| at < |live| && live[at] == t;
      OutOfLive(live, at);
    }

    lemma OwnersAre()
      requires Valid()
      ensures forall t :: t in Owners() ==> t in live && t in made
      ensures forall t :: t in live ==> t in made && Serves(t)
    {
    }

    /** ioxd_certs_load: a table to serve with, or nothing. */
    method Open(listing: seq<Entry>) returns (ok: bool)
      requires Valid() && table == null && holders == mine == [] && NamesDiffer(listing)
      modifies this
      ensures Valid() && ok == (table != null) && holders == mine == [] && !loading
      ensures var hosts := HostsOf(listing, [], old(next)).0;
              (ok <==> CtxOf(hosts, DEFAULT).Some?) && (ok ==> table.hosts == hosts && CtxOf(hosts, DEFAULT) == Some(table.fallback))
      ensures fresh(made - old(made))
    {
      ghost var refs := Refs(made);
      var t := Load(listing, null, []);
      ok := t != null;
      loading := false;
      if ok {
        assert Refs(made) == refs[t := 1];
        NewAccounted(refs, [], old(live), freed, t);
        table := t;
        assert Owners() == [] + [t];
      }
    }

    /** ioxd__certs_acquire. */
    method Acquire() returns (t: Table)
      requires Valid() && table != null
      modifies this`holders, made`refs
      ensures Valid() && t == table && holders == old(holders) + [t]
    {
      t := table;
      OwnersAre();
      AcquireAccounted(Refs(made), Owners(), live, freed, t);
      ghost var was := Owners();
      assert Refs(made)[t] == t.refs;
      SetRefs(t, t.refs + 1);
      holders := holders + [t];
      Reorder([t], old(holders), [t], mine);
      SameOwners(Refs(made), was + [t], Owners(), live, freed);
    }

    /** Where a reference stands among the owners does not matter. */
    lemma Reorder(a: seq<Table>, b: seq<Table>, c: seq<Table>, d: seq<Table>)
      ensures forall t :: Count(a + b + d + c, t) == Count(a + (b + c) + d, t)
    {
      forall t
        ensures Count(a + b + d + c, t) == Count(a + (b + c) + d, t)
      {
        CountAppend(a + b + d, c, t);
        CountAppend(a + b, d, t);
        CountAppend(a, b, t);
        CountAppend(a + (b + c), d, t);
        CountAppend(a, b + c, t);
        CountAppend(b, c, t);
      }
    }

    /** ioxd__certs_release, of a handshake's. */
    method Release(i: nat)
      requires Valid() && i < |holders|
      modifies this`holders, this`ctxs, this`live, this`freed, made`refs
      ensures Valid() && holders == Minus(old(holders), i)
    {
      hide *;
      var t := holders[i];
      ghost var k, was := (if table == null then 0 else 1) + i, Owners();
      Opens();
      HolderAt(i);
      Drop(t, was, k);
      holders := Minus(holders, i);
      Parts();
      Shuts();
    }

    lemma HolderAt(i: nat)
      requires i < |holders|
      ensures var k := (if table == null then 0 else 1) + i; var store := if table == null then [] else [table];
              && k < |Owners()| && Owners()[k] == holders[i]
              && Minus(Owners(), k) == store + Minus(holders, i) + mine
    {
    }

    lemma Parts()
      ensures Owners() == (if table == null then [] else [table]) + holders + mine
    {
    }

    lemma Opens()
      requires Valid()
      ensures Accounted(Refs(made), Owners(), live, freed) && Contexts(ctxs, next, live, [])
      ensures forall t :: t in live ==> Serves(t)
      ensures forall t :: t in Owners() ==> t in live && t in made
      ensures loading ==> |mine| == 1 && table == mine[0]
    {
    }

    lemma Shuts()
      requires Accounted(Refs(made), Owners(), live, freed) && Contexts(ctxs, next, live, [])
      requires forall t :: t in live ==> Serves(t)
      requires loading ==> |mine| == 1 && table == mine[0]
      ensures Valid()
    {
    }

    // A reload, in the steps others come between.

    method ReloadBegins()
      requires Valid() && table != null && mine == []
      modifies this`mine, this`loading, made`refs
      ensures Valid() && loading && mine == [table]
    {
      OwnersAre();
      AcquireAccounted(Refs(made), Owners(), live, freed, table);
      ghost var was := Owners();
      assert Refs(made)[table] == table.refs;
      SetRefs(table, table.refs + 1);
      mine, loading := [table], true;
      assert Owners() == was + [table];
    }

    /** The directory is loaded, and what it makes put in the old table's place; without it the old one stays. */
    method ReloadLoads(listing: seq<Entry>) returns (ok: bool)
      requires Valid() && loading && NamesDiffer(listing)
      modifies this`table, this`mine, this`loading, this`ctxs, this`next, this`made, this`live
      ensures Valid() && !loading && fresh(made - old(made)) && holders == old(holders) && table != null && old(table) != null
      ensures if ok then mine == [old(table), old(table)] else table == old(table) && mine == [table]
      ensures var was := old(table);
              var hosts := HostsOf(listing, was.hosts, old(next)).0;
              var fallback := FallbackOf(hosts, Some((was.hosts, was.fallback)));
              && (ok <==> hosts != [] && fallback.Some?)
              && (ok ==> table.hosts == hosts && Some(table.fallback) == fallback)
    {
      hide *;
      Opens();
      ghost var refs, owners := Refs(made), Owners();
      var prior := mine[0];
      Parts();
      assert prior in owners;
      var t := Load(listing, prior, owners);
      ok := t != null;
      loading := false;
      if ok {
        RefsOfNew(t, old(made), refs);
        NewAccounted(refs, owners, old(live), freed, t);
        Swap(prior, holders, t);
        table := t;
        mine := mine + [prior];
        Parts();
        assert old(mine) == [prior];
        SameOwners(Refs(made), owners + [t], Owners(), live, freed);
      }
      Shuts();
    }

    lemma RefsOfNew(t: Table, others: set<Table>, refs: map<Table, nat>)
      requires made == others + {t} && t !in others && t.refs == 1 && refs == Refs(others)
      ensures Refs(made) == refs[t := 1] && t !in refs
    {
    }

    lemma Swap(p: Table, h: seq<Table>, t: Table)
      ensures forall x :: Count([p] + h + [p] + [t], x) == Count([t] + h + ([p] + [p]), x)
    {
      forall x
        ensures Count([p] + h + [p] + [t], x) == Count([t] + h + ([p] + [p]), x)
      {
        CountAppend([p] + h + [p], [t], x);
        CountAppend([p] + h, [p], x);
        CountAppend([p], h, x);
        CountAppend([t] + h, [p] + [p], x);
        CountAppend([t], h, x);
        CountAppend([p], [p], x);
      }
    }

    /** One of the releases of the old table: two of them after a swap, one without. */
    method ReloadReleases()
      requires Valid() && !loading && mine != []
      modifies this`mine, this`ctxs, this`live, this`freed, made`refs
      ensures Valid() && mine == old(mine)[..|old(mine)| - 1]
    {
      hide *;
      var t := mine[|mine| - 1];
      Opens();
      LastOwner();
      Drop(t, Owners(), |Owners()| - 1);
      mine := mine[..|mine| - 1];
      Parts();
      Shuts();
    }

    lemma LastOwner()
      requires mine != []
      ensures Owners() != [] && Owners()[|Owners()| - 1] == mine[|mine| - 1]
      ensures Minus(Owners(), |Owners()| - 1) == (if table == null then [] else [table]) + holders + mine[..|mine| - 1]
    {
    }

    /** ioxd_certs_free: the store's own reference goes. When nobody else has one, nothing is left. */
    method Close()
      requires Valid() && table != null && mine == []
      modifies this`table, this`ctxs, this`live, this`freed, made`refs
      ensures Valid() && table == null
      ensures holders == [] ==>
        && live == [] && (forall t :: t in made ==> t in freed)
        && forall c: nat :: c < next ==> ctxs[c] == 0
    {
      hide *;
      Opens();
      FirstOwner();
      Drop(table, Owners(), 0);
      table := null;
      Parts();
      assert loading ==> |mine| == 1;
      Shuts();
      if holders == [] {
        NothingLeft();
      }
    }

    lemma FirstOwner()
      requires table != null
      ensures Owners() != [] && Owners()[0] == table && Minus(Owners(), 0) == [] + holders + mine
    {
    }

    lemma NothingLeft()
      requires Valid() && table == null && holders == mine == []
      ensures live == [] && (forall t :: t in made ==> t in freed) && forall c: nat :: c < next ==> c in ctxs && ctxs[c] == 0
    {
      SomeOrNone(live);
      assert forall t :: t in made ==> t in Refs(made);
    }

    /** Any interleaving of handshakes with reloads, one reload at a time. */
    method Run(events: seq<Event>)
      requires Valid() && forall e :: e in events && e.ReloadLoads? ==> NamesDiffer(e.listing)
      modifies this, made`refs
      ensures Valid() && fresh(made - old(made)) && (old(table) != null ==> table != null)
    {
      hide Valid, NamesDiffer;
      for i := 0 to |events|
        invariant Valid() && fresh(made - old(made)) && (old(table) != null ==> table != null)
      {
        var e := events[i];
        match e {
          case Acquire =>
            if table != null {
              var _ := Acquire();
            }
          case Release(k) =>
            if k < |holders| {
              Release(k);
            }
          case ReloadBegins =>
            if table != null && mine == [] {
              ReloadBegins();
            }
          case ReloadLoads(listing) =>
            if loading {
              var _ := ReloadLoads(listing);
            }
          case ReloadReleases =>
            if !loading && mine != [] {
              ReloadReleases();
            }
        }
      }
    }

    /**
     * After any run: a table's count is the store's own reference, the handshakes' and the reload's;
     * one that somebody has is not freed, and one that nobody has is, once; and each serves.
     */
    lemma TablesCounted(t: Table)
      requires Valid() && t in made
      ensures t.refs == (if t == table then 1 else 0) + Count(holders, t) + Count(mine, t)
      ensures t in freed <==> t != table && t !in holders && t !in mine
      ensures forall i, j :: 0 <= i < j < |freed| ==> freed[i] != freed[j]
      ensures t !in freed ==> Serves(t)
    {
      var store: seq<Table> := if table == null then [] else [table];
      assert Refs(made)[t] == t.refs;
      CountAppend(store + holders, mine, t);
      CountAppend(store, holders, t);
      assert store != [] ==> store[1..] == [];
      CountIs(Owners(), t);
    }

    /** A context of a table in memory is referenced; one of no such table is not. */
    lemma ContextsCounted(c: nat)
      requires Valid() && c < next
      ensures c in ctxs && ctxs[c] == Slots(live, c)
      ensures ctxs[c] > 0 <==> exists t :: t in live && Uses(t.hosts, c) > 0
    {
      SlotsSome(live, c);
    }

  }

  lemma SomeOrNone(ts: seq<Table>)
    ensures ts == [] || exists t :: t in ts
  {
    assert ts == [] || ts[0] in ts;
  }

  lemma {:induction false} SlotsSome(ts: seq<Table>, c: nat)
    ensures Slots(ts, c) > 0 <==> exists t :: t in ts && Uses(t.hosts, c) > 0
  {
    if ts != [] {
      SlotsSome(ts[1..], c);
    }
  }

  lemma {:induction false} UsesPart(hosts: seq<Host>, k: nat, c: nat)
    requires k <= |hosts|
    ensures Uses(hosts[..k], c) <= Uses(hosts, c)
    decreases |hosts|
  {
    if k < |hosts| {
      var n := |hosts| - 1;
      assert hosts[..n][..k] == hosts[..k];
      UsesPart(hosts[..n], k, c);
    } else {
      assert hosts[..k] == hosts;
    }
  }

  /** No entry before has the name of entry i, so no host has. */
  lemma NotTwice(listing: seq<Entry>, prior: seq<Host>, next: nat, i: nat)
    requires i < |listing| && NamesDiffer(listing) && Distinct(prior) && forall k :: 0 <= k < |prior| ==> prior[k].ctx < next
    ensures CtxOf(HostsOf(listing[..i], prior, next).0, listing[i].name).None?
  {
    var hosts := HostsOf(listing[..i], prior, next).0;
    HostsAre(listing[..i], prior, next);
    CtxOfIs(hosts, listing[i].name);
  }
}
