/** Who has what, across all connections: which connection borrows which slot, which connection is
    established to which server.  `C` is the type of connections. */
module Ledgers {
  import opened BackendPools

  /** Pool `index` of router `router`. */
  datatype PoolId = PoolId(router: nat, index: nat)

  /** A server of a pool. */
  datatype Link = Link(pool: PoolId, be: nat)

  type Pools = map<PoolId, Pool>

  /** The connections established to a server. */
  ghost function Linked<C>(links: map<C, Link>, l: Link): set<C> {
    set c | c in links && links[c] == l
  }

  /** No server counts more connections than are established to it. */
  ghost predicate ActiveBounded<C>(pools: Pools, links: map<C, Link>) {
    forall p, i :: p in pools && 0 <= i < |pools[p].backends| ==>
      pools[p].backends[i].active <= |Linked(links, Link(p, i))|
  }

  ghost predicate PoolsValid(pools: Pools) {
    forall p :: p in pools ==> pools[p].Valid()
  }

  /** Which pools there are, and how many servers each has. */
  ghost function Shape(pools: Pools): map<PoolId, nat> {
    map p | p in pools :: |pools[p].backends|
  }

  predicate Known(pools: Pools, l: Link) {
    l.pool in pools && l.be < |pools[l.pool].backends|
  }

  /** The same servers: only their counters differ. */
  ghost predicate SameRoster(a: Pools, b: Pools) {
    a.Keys == b.Keys && forall l :: Known(a, l) <==> Known(b, l)
  }

  lemma ShapeKnows(a: Pools, b: Pools)
    requires Shape(a) == Shape(b)
    ensures SameRoster(a, b)
  {
    assert forall p :: p in a <==> p in Shape(a);
    assert forall p :: p in b <==> p in Shape(b);
  }

  function With(pools: Pools, l: Link, b: Backend): (r: Pools)
    requires Known(pools, l)
  {
    var p := pools[l.pool];
    pools[l.pool := p.(backends := p.backends[l.be := b])]
  }

  function At(pools: Pools, l: Link): Backend
    requires Known(pools, l)
  {
    pools[l.pool].backends[l.be]
  }

  function AfterReport(pools: Pools, l: Link, ok: bool): (r: Pools)
    requires Known(pools, l)
  {
    With(pools, l, Reported(At(pools, l), ok, pools[l.pool].rise, pools[l.pool].fall))
  }

  function AfterProbe(pools: Pools, l: Link, ok: bool): (r: Pools)
    requires Known(pools, l)
  {
    With(pools, l, Probed(At(pools, l), ok, pools[l.pool].rise, pools[l.pool].fall))
  }

  /** A report of either path changes no count of connections and keeps its counters in bounds. */
  lemma ReportKeeps<C>(pools: Pools, links: map<C, Link>, l: Link, ok: bool)
    requires PoolsValid(pools) && ActiveBounded(pools, links) && Known(pools, l)
    ensures PoolsValid(AfterReport(pools, l, ok)) && ActiveBounded(AfterReport(pools, l, ok), links)
    ensures Shape(AfterReport(pools, l, ok)) == Shape(pools)
  {
    hide Linked;
    ReportCounting(pools, l, ok);
    OneChanged(pools, links, links, l, Reported(At(pools, l), ok, pools[l.pool].rise, pools[l.pool].fall));
  }

  lemma ReportCounting(pools: Pools, l: Link, ok: bool)
    requires PoolsValid(pools) && Known(pools, l)
    ensures var p := pools[l.pool];
            && Counting(Reported(At(pools, l), ok, p.rise, p.fall), p.rise, p.fall)
            && Counting(Probed(At(pools, l), ok, p.rise, p.fall), p.rise, p.fall)
            && Reported(At(pools, l), ok, p.rise, p.fall).weight >= 1 && Probed(At(pools, l), ok, p.rise, p.fall).weight >= 1
            && Reported(At(pools, l), ok, p.rise, p.fall).active == At(pools, l).active
            && Probed(At(pools, l), ok, p.rise, p.fall).active == At(pools, l).active
  {
    assert pools[l.pool].Valid();
  }

  lemma ProbeKeeps<C>(pools: Pools, links: map<C, Link>, l: Link, ok: bool)
    requires PoolsValid(pools) && ActiveBounded(pools, links) && Known(pools, l)
    ensures PoolsValid(AfterProbe(pools, l, ok)) && ActiveBounded(AfterProbe(pools, l, ok), links)
    ensures Shape(AfterProbe(pools, l, ok)) == Shape(pools)
  {
    hide Linked;
    ReportCounting(pools, l, ok);
    OneChanged(pools, links, links, l, Probed(At(pools, l), ok, pools[l.pool].rise, pools[l.pool].fall));
  }

  /** Changing one server and nobody's connections but its own. */
  lemma OneChanged<C>(pools: Pools, links: map<C, Link>, after: map<C, Link>, l: Link, b: Backend)
    requires PoolsValid(pools) && ActiveBounded(pools, links) && Known(pools, l)
    requires Counting(b, pools[l.pool].rise, pools[l.pool].fall) && b.weight >= 1
    requires b.active <= |Linked(after, l)|
    requires forall k :: k != l ==> Linked(after, k) == Linked(links, k)
    ensures PoolsValid(With(pools, l, b)) && ActiveBounded(With(pools, l, b), after)
    ensures Shape(With(pools, l, b)) == Shape(pools)
  {
    hide Linked, Counting;
    var r := With(pools, l, b);
    forall p | p in r ensures r[p].Valid() {
      assert pools[p].Valid();
    }
    forall p, i | p in r && 0 <= i < |r[p].backends| ensures r[p].backends[i].active <= |Linked(after, Link(p, i))| {
      if Link(p, i) != l {
        assert r[p].backends[i] == pools[p].backends[i];
      }
    }
  }

  /** A connection that is established counts for its server. */
  lemma OpenKeeps<C>(pools: Pools, links: map<C, Link>, c: C, l: Link)
    requires PoolsValid(pools) && ActiveBounded(pools, links) && Known(pools, l) && c !in links
    ensures var r := With(pools, l, Opened(At(pools, l)));
            PoolsValid(r) && ActiveBounded(r, links[c := l]) && Shape(r) == Shape(pools)
  {
    var after := links[c := l];
    assert Linked(after, l) == Linked(links, l) + {c};
    forall k | k != l ensures Linked(after, k) == Linked(links, k) {
    }
    assert pools[l.pool].Valid();
    assert Counting(At(pools, l), pools[l.pool].rise, pools[l.pool].fall);
    OneChanged(pools, links, after, l, Opened(At(pools, l)));
  }

  /** Whoever gives a server up lowers its count, whether or not the connection had ever been
      established: the count may fall behind, but it never runs ahead. */
  lemma CloseKeeps<C>(pools: Pools, links: map<C, Link>, c: C, l: Link)
    requires PoolsValid(pools) && ActiveBounded(pools, links) && Known(pools, l) && (c in links ==> links[c] == l)
    ensures var r := With(pools, l, Closed(At(pools, l)));
            PoolsValid(r) && ActiveBounded(r, links - {c}) && Shape(r) == Shape(pools)
  {
    var after := links - {c};
    assert Linked(after, l) == Linked(links, l) - {c};
    forall k | k != l ensures Linked(after, k) == Linked(links, k) {
    }
    assert pools[l.pool].Valid();
    assert Counting(At(pools, l), pools[l.pool].rise, pools[l.pool].fall);
    assert At(pools, l).active <= |Linked(links, l)|;
    OneChanged(pools, links, after, l, Closed(At(pools, l)));
  }

  /** A server counts exactly the connections that are established to it. */
  ghost predicate Exact<C>(pools: Pools, links: map<C, Link>, l: Link) {
    Known(pools, l) && At(pools, l).active == |Linked(links, l)|
  }

  /** Opening keeps an exact count exact. */
  lemma OpenExact<C>(pools: Pools, links: map<C, Link>, c: C, l: Link)
    requires Exact(pools, links, l) && c !in links
    ensures Exact(With(pools, l, Opened(At(pools, l))), links[c := l], l)
  {
    assert Linked(links[c := l], l) == Linked(links, l) + {c};
  }

  /** Giving a server up keeps an exact count exact if and only if the connection was established, or
      the server counts none. */
  lemma CloseExact<C>(pools: Pools, links: map<C, Link>, c: C, l: Link)
    requires Exact(pools, links, l) && (c in links ==> links[c] == l)
    ensures Exact(With(pools, l, Closed(At(pools, l))), links - {c}, l) <==> c in links || At(pools, l).active == 0
  {
    if c in links {
      assert Linked(links - {c}, l) == Linked(links, l) - {c};
      assert c in Linked(links, l);
    } else {
      assert Linked(links - {c}, l) == Linked(links, l);
    }
  }

  /** So a failed connect, which lowers a count it never raised, leaves a server that had connections
      counting too few. */
  lemma ActiveFallsBehind<C>(pools: Pools, links: map<C, Link>, failed: C, l: Link)
    requires Exact(pools, links, l) && failed !in links && At(pools, l).active > 0
    ensures At(With(pools, l, Closed(At(pools, l))), l).active < |Linked(links - {failed}, l)|
  {
    assert Linked(links - {failed}, l) == Linked(links, l);
  }

  /** The same servers with the same counts of connections. */
  ghost predicate SameActive(a: Pools, b: Pools) {
    forall l :: (Known(a, l) <==> Known(b, l)) && (Known(a, l) ==> At(a, l).active == At(b, l).active)
  }

  lemma SameActiveTwice(a: Pools, b: Pools, c: Pools)
    requires SameActive(a, b) && SameActive(b, c)
    ensures SameActive(a, c)
  {
  }

  lemma ExactStays<C>(a: Pools, b: Pools, links: map<C, Link>, l: Link)
    requires SameActive(a, b)
    ensures Exact(a, links, l) <==> Exact(b, links, l)
    ensures Known(a, l) ==> Known(b, l) && At(a, l).active == At(b, l).active
  {
    hide Linked;
  }

  lemma ReportActive(pools: Pools, l: Link, ok: bool)
    requires Known(pools, l)
    ensures SameActive(pools, AfterReport(pools, l, ok))
  {
  }

  lemma PickActive(pools: Pools, p: PoolId)
    requires PoolsValid(pools) && p in pools
    ensures pools[p].backends != [] && pools[p].rr < |pools[p].backends|
    ensures SameActive(pools, pools[p := PickFrom(pools[p]).1])
  {
    hide PickFrom, Counting;
    assert pools[p].Valid();
    PickCounts(pools[p]);
  }

  lemma PickKeeps<C>(pools: Pools, links: map<C, Link>, p: PoolId)
    requires PoolsValid(pools) && ActiveBounded(pools, links) && p in pools
    ensures pools[p].backends != [] && pools[p].rr < |pools[p].backends|
    ensures var r := pools[p := PickFrom(pools[p]).1];
            PoolsValid(r) && ActiveBounded(r, links) && Shape(r) == Shape(pools)
  {
    hide Linked, Counting;
    assert pools[p].Valid();
    PickCounts(pools[p]);
    var r := pools[p := PickFrom(pools[p]).1];
    forall q, i | q in r && 0 <= i < |r[q].backends| ensures r[q].backends[i].active <= |Linked(links, Link(q, i))| {
      assert r[q].backends[i].active == pools[q].backends[i].active;
    }
  }

  /** Picking changes dynamic weights and the cursor only. */
  lemma PickCounts(p: Pool)
    requires p.Valid()
    ensures var r := PickFrom(p).1; r.Valid() && |r.backends| == |p.backends|
    ensures var r := PickFrom(p).1;
            forall i :: 0 <= i < |p.backends| ==> r.backends[i].active == p.backends[i].active
  {
    hide BestWeighted, NextUp, LeastFrom, Wrap, Heaviest;
    assert forall i :: 0 <= i < |p.backends| ==> Counting(p.backends[i], p.rise, p.fall);
  }

  /** A reload adds pools that nobody is connected to. */
  lemma AddedKeeps<C>(pools: Pools, links: map<C, Link>, more: Pools)
    requires PoolsValid(pools) && ActiveBounded(pools, links) && PoolsValid(more) && pools.Keys !! more.Keys
    requires forall p, i :: p in more && 0 <= i < |more[p].backends| ==> more[p].backends[i].active == 0
    ensures PoolsValid(pools + more) && ActiveBounded(pools + more, links) && forall p :: p in Shape(pools) ==> p in Shape(pools + more) && Shape(pools + more)[p] == Shape(pools)[p]
  {
    hide Linked;
  }

  /** As many values as keys, when no value is used twice. */
  lemma {:induction false} ValuesCounted<C>(f: map<C, nat>)
    requires forall c, d :: c in f && d in f && c != d ==> f[c] != f[d]
    ensures |f.Values| == |f.Keys|
    decreases |f.Keys|
  {
    if f.Keys != {} {
      var c :| c in f;
      var g := f - {c};
      assert g.Keys == f.Keys - {c};
      ValuesCounted(g);
      forall v ensures v in f.Values <==> v in g.Values + {f[c]} {
        if v in f.Values {
          var d :| d in f && f[d] == v;
          assert d != c ==> d in g && g[d] == v;
        }
        if v in g.Values {
          var d :| d in g && g[d] == v;
          assert d in f && f[d] == v;
        }
      }
      assert f.Values == g.Values + {f[c]};
      assert f[c] !in g.Values;
    }
  }

  /** Slots that are each one of two buffers of one connection are as many as these buffers. */
  lemma BuffersCounted<C>(outs: map<C, nat>, ins: map<C, nat>, loaned: set<nat>)
    requires forall c, d :: c in outs && d in outs && c != d ==> outs[c] != outs[d]
    requires forall c, d :: c in ins && d in ins && c != d ==> ins[c] != ins[d]
    requires forall c, d :: c in outs && d in ins ==> outs[c] != ins[d]
    requires (forall c :: c in outs ==> outs[c] in loaned) && (forall c :: c in ins ==> ins[c] in loaned)
    requires forall s :: s in loaned ==> (exists c :: c in outs && outs[c] == s) || (exists c :: c in ins && ins[c] == s)
    ensures |loaned| == |outs.Keys| + |ins.Keys|
  {
    ValuesCounted(outs);
    ValuesCounted(ins);
    EitherBuffer(outs, ins, loaned);
    assert outs.Values !! ins.Values;
    assert loaned == outs.Values + ins.Values;
  }

  lemma EitherBuffer<C>(outs: map<C, nat>, ins: map<C, nat>, loaned: set<nat>)
    requires (forall c :: c in outs ==> outs[c] in loaned) && (forall c :: c in ins ==> ins[c] in loaned)
    requires forall s :: s in loaned ==> (exists c :: c in outs && outs[c] == s) || (exists c :: c in ins && ins[c] == s)
    ensures forall s :: s in loaned <==> s in outs.Values || s in ins.Values
  {
  }

  lemma MoreKnown(pools: Pools, more: Pools, l: Link)
    requires Known(pools, l) && pools.Keys !! more.Keys
    ensures Known(pools + more, l)
  {
  }
}
