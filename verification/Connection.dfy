/** Client connections and the resources they borrow.

    A `Conn` is one client connection: it reads a request, picks a server, relays the request and
    the response, and starts over or closes.  The `Manager` owns what connections share: the slots,
    the pools, the routers, and the list of records to use again.  The ghost fields are histories
    (what was read and written so far) and the ledger of who borrows what. */
module Connections {
  import opened Text
  import opened HttpParser
  import opened HttpResponses
  import opened Relay
  import opened Ledgers
  import opened Exchanges
  import opened BufferPools
  import Routing = RouteTables
  import Balancing = BackendPools
  import Body = Chunked

  const MAX_CONNECT_ATTEMPTS := 3

  datatype State = Reading | Connecting | Proxying | Closing

  /** What a connection uses a slot for; `Spare` while a request is being rewritten into it. */
  datatype Side = OutSide | InSide | Spare

  datatype Owner = Owner(conn: Conn, side: Side)

  /** The routes of each frontend; targets are numbers of pools. */
  datatype Router = Router(frontends: seq<seq<Routing.Route>>, pools: nat)

  function LookUp(routers: seq<Router>, router: Option<nat>, frontend: nat, host: string): Option<PoolId> {
    if router.None? || router.value >= |routers| || frontend >= |routers[router.value].frontends| then None
    else
      match Routing.Resolve(routers[router.value].frontends[frontend], host)
      case None => None
      case Some(t) => Some(PoolId(router.value, t))
  }

  /** What the validated configuration says: every target is a pool of the same router. */
  ghost predicate Configured(routers: seq<Router>, pools: Pools) {
    && (forall r, f, k :: 0 <= r < |routers| && 0 <= f < |routers[r].frontends| && 0 <= k < |routers[r].frontends[f]| ==>
          routers[r].frontends[f][k].target < routers[r].pools)
    && forall p :: p in pools <==> p.router < |routers| && p.index < routers[p.router].pools
  }

  ghost predicate TargetsOf(next: Router) {
    forall f, k :: 0 <= f < |next.frontends| && 0 <= k < |next.frontends[f]| ==> next.frontends[f][k].target < next.pools
  }

  /** A reload adds a router and its pools. */
  lemma ReloadConfigured(routers: seq<Router>, pools: Pools, next: Router, more: Pools)
    requires Configured(routers, pools) && TargetsOf(next)
    requires forall p :: p in more <==> p.router == |routers| && p.index < next.pools
    ensures Configured(routers + [next], pools + more) && pools.Keys !! more.Keys
  {
    var all := routers + [next];
    forall p ensures p in pools + more <==> p.router < |all| && p.index < all[p.router].pools {
      assert p.router < |routers| ==> all[p.router] == routers[p.router];
    }
  }

  /** The reference that a connection holds keeps its meaning. */
  lemma LookUpStays(routers: seq<Router>, next: Router, router: Option<nat>, frontend: nat, host: string)
    requires router.Some? ==> router.value < |routers|
    ensures LookUp(routers + [next], router, frontend, host) == LookUp(routers, router, frontend, host)
  {
    hide Routing.Resolve;
  }

  lemma ResolvedTarget(routes: seq<Routing.Route>, host: string)
    requires Routing.Resolve(routes, host).Some?
    ensures exists k :: 0 <= k < |routes| && routes[k].target == Routing.Resolve(routes, host).value
  {
    var name := Routing.Normalize(Routing.CString(host)).value;
    Routing.FirstExactIs(routes, name);
    Routing.LongestMatchIs(routes, name);
    Routing.DefaultRouteIs(routes);
  }

  /** A Host leads to a pool of the connection's own router. */
  lemma LookedUp(routers: seq<Router>, pools: Pools, router: Option<nat>, frontend: nat, host: string)
    requires Configured(routers, pools)
    ensures var p := LookUp(routers, router, frontend, host);
            p.Some? ==> router == Some(p.value.router) && p.value in pools
  {
    hide Routing.Resolve;
    var p := LookUp(routers, router, frontend, host);
    if p.Some? {
      ResolvedTarget(routers[router.value].frontends[frontend], host);
    }
  }

  lemma ConfiguredKept(routers: seq<Router>, a: Pools, b: Pools)
    requires Configured(routers, a) && Shape(a) == Shape(b)
    ensures Configured(routers, b) && SameRoster(a, b)
  {
    ShapeKnows(a, b);
  }

  // ----- what is shared ---------------------------------------------------------------------------

  ghost function OwnedByOthers(owner: map<nat, Owner>, c: Conn): map<nat, Owner> {
    map s | s in owner && owner[s].conn != c :: owner[s]
  }

  ghost predicate RecordsValid(live: set<Conn>, free: seq<Conn>, m: Manager) {
    && (forall k :: 0 <= k < |free| ==> free[k] !in live && free[k].mgr == m)
    && (forall i, j :: 0 <= i < j < |free| ==> free[i] != free[j])
  }

  lemma RecordTaken(live: set<Conn>, free: seq<Conn>, m: Manager)
    requires RecordsValid(live, free, m) && free != []
    ensures free[0] !in live && free[0].mgr == m && RecordsValid(live + {free[0]}, free[1..], m)
  {
  }

  class Manager {
    const bufs: BufferPool
    var routers: seq<Router>
    var current: nat
    var pools: Pools
    var free: seq<Conn>
    var active: nat
    var accepted: nat
    var requests: nat
    var errors: nat

    ghost var live: set<Conn>
    ghost var owner: map<nat, Owner>
    ghost var links: map<Conn, Link>
    ghost var reports: seq<(Link, bool)>   // every passive report so far

    /** The slots on loan are those the ledger gives to live connections; `active` counts these; no
        server counts more connections than it has; and no free record is in use. */
    ghost predicate Valid()
      reads `routers, `current, `pools, `free, `active, `live, `owner, `links, bufs, bufs.arena
    {
      && SlotsValid() && links.Keys <= live && active == |live|
      && PoolsValid(pools) && ActiveBounded(pools, links) && current < |routers| && Configured(routers, pools)
      && RecordsValid(live, free, this)
    }

    ghost predicate SlotsValid()
      reads `live, `owner, bufs, bufs.arena
    {
      bufs.Valid() && owner.Keys == bufs.loaned && forall s :: s in owner ==> owner[s].conn in live
    }

    constructor (bufs: BufferPool, first: Router, pools: Pools)
      requires bufs.Valid() && bufs.loaned == {} && Configured([first], pools) && PoolsValid(pools)
      requires forall p, i :: p in pools && 0 <= i < |pools[p].backends| ==> pools[p].backends[i].active == 0
      ensures All() && this.bufs == bufs && this.pools == pools && routers == [first]
      ensures live == {} && accepted == requests == errors == current == 0 && free == []
    {
      this.bufs, this.pools, routers, current := bufs, pools, [first], 0;
      free, active, accepted, requests, errors := [], 0, 0, 0, 0;
      live, owner, links, reports := {}, map[], map[], [];
    }

    /** All that connections other than `c` can tell. */
    ghost function Others(c: Conn): (set<Conn>, map<nat, Owner>, map<Conn, Link>, map<PoolId, nat>, seq<Router>)
      reads `live, `owner, `links, `pools, `routers
    {
      (live - {c}, OwnedByOthers(owner, c), links - {c}, Shape(pools), routers)
    }

    method Borrow(c: Conn, side: Side) returns (slot: Option<nat>)
      requires Valid() && c in live
      modifies this`owner, bufs`freeList, bufs`available, bufs`free, bufs`loaned
      ensures Valid() && Others(c) == old(Others(c))
      ensures slot.None? <==> old(bufs.available) == 0
      ensures slot.None? ==> owner == old(owner) && bufs.available == old(bufs.available)
      ensures slot.Some? ==> bufs.available == old(bufs.available) - 1
      ensures slot.Some? ==> slot.value !in old(owner) && owner == old(owner)[slot.value := Owner(c, side)]
    {
      hide PoolsValid, ActiveBounded, Configured, RecordsValid;
      slot := TakeSlot();
      if slot.Some? {
        owner := owner[slot.value := Owner(c, side)];
        assert OwnedByOthers(owner, c) == OwnedByOthers(old(owner), c);
      }
    }

    method TakeSlot() returns (slot: Option<nat>)
      requires bufs.Valid()
      modifies bufs`freeList, bufs`available, bufs`free, bufs`loaned
      ensures bufs.Valid() && (slot.None? <==> old(bufs.available) == 0)
      ensures slot.None? ==> bufs.loaned == old(bufs.loaned) && bufs.available == old(bufs.available)
      ensures slot.Some? ==> bufs.available == old(bufs.available) - 1
      ensures slot.Some? ==> slot.value !in old(bufs.loaned) && bufs.loaned == old(bufs.loaned) + {slot.value}
    {
      var address := bufs.Get();
      return if address == 0 then None else Some((address - bufs.base) / SLOT_SIZE);
    }

    method ReturnSlot(slot: nat)
      requires bufs.Valid() && slot in bufs.loaned
      modifies bufs`freeList, bufs`available, bufs`free, bufs`loaned, bufs.arena
      ensures bufs.Valid() && bufs.loaned == old(bufs.loaned) - {slot} && bufs.available == old(bufs.available) + 1
    {
      assert slot < bufs.capacity;
      bufs.Put(bufs.base + slot * SLOT_SIZE);
    }

    method GiveBack(c: Conn, slot: nat)
      requires Valid() && slot in owner && owner[slot].conn == c
      modifies this`owner, bufs`freeList, bufs`available, bufs`free, bufs`loaned, bufs.arena
      ensures Valid() && Others(c) == old(Others(c))
      ensures owner == old(owner) - {slot} && bufs.available == old(bufs.available) + 1
    {
      hide PoolsValid, ActiveBounded, Configured, RecordsValid;
      ReturnSlot(slot);
      owner := owner - {slot};
      assert OwnedByOthers(owner, c) == OwnedByOthers(old(owner), c);
    }

    /** The spare slot becomes the buffer towards the upstream. */
    ghost method Promote(c: Conn, slot: nat)
      requires Valid() && slot in owner && owner[slot] == Owner(c, Spare)
      modifies this`owner
      ensures Valid() && Others(c) == old(Others(c)) && owner == old(owner)[slot := Owner(c, OutSide)]
    {
      owner := owner[slot := Owner(c, OutSide)];
      assert OwnedByOthers(owner, c) == OwnedByOthers(old(owner), c);
    }

    method Pick(c: Conn, p: PoolId) returns (be: Option<nat>)
      requires Valid() && p in pools
      modifies this`pools
      ensures Valid() && Others(c) == old(Others(c))
      ensures var was := old(pools)[p];
              && was.backends != [] && was.rr < |was.backends|
              && (be, pools) == (Balancing.PickFrom(was).0, old(pools)[p := Balancing.PickFrom(was).1])
      ensures SameRoster(old(pools), pools) && (be.Some? ==> Known(pools, Link(p, be.value)))
      ensures SameActive(old(pools), pools)
    {
      hide Balancing.PickFrom, PoolsValid, ActiveBounded, Configured, RecordsValid, Shape, SameRoster, SameActive;
      PickKeeps(pools, links, p);
      PickActive(pools, p);
      var (picked, after) := Balancing.PickFrom(pools[p]);
      ConfiguredKept(routers, pools, pools[p := after]);
      pools := pools[p := after];
      return picked;
    }

    method Report(c: Conn, l: Link, ok: bool)
      requires Valid() && Known(pools, l)
      modifies this`pools, this`reports
      ensures Valid() && Others(c) == old(Others(c)) && pools == AfterReport(old(pools), l, ok)
      ensures SameRoster(old(pools), pools) && SameActive(old(pools), pools) && reports == old(reports) + [(l, ok)]
    {
      hide AfterReport, PoolsValid, ActiveBounded, Configured, RecordsValid, Shape, SameRoster, SameActive;
      ReportKeeps(pools, links, l, ok);
      ReportActive(pools, l, ok);
      ConfiguredKept(routers, pools, AfterReport(pools, l, ok));
      pools := AfterReport(pools, l, ok);
      reports := reports + [(l, ok)];
    }

    method Opened(c: Conn, l: Link)
      requires Valid() && Known(pools, l) && c in live && c !in links
      modifies this`pools, this`links
      ensures Valid() && Others(c) == old(Others(c)) && links == old(links)[c := l]
      ensures pools == With(old(pools), l, Balancing.Opened(At(old(pools), l))) && SameRoster(old(pools), pools)
    {
      hide With, PoolsValid, ActiveBounded, Configured, RecordsValid, Shape, SameRoster, SameActive;
      OpenKeeps(pools, links, c, l);
      var after := With(pools, l, Balancing.Opened(At(pools, l)));
      ConfiguredKept(routers, pools, after);
      pools := after;
      links := links[c := l];
      assert links - {c} == old(links) - {c};
    }

    method Dropped(c: Conn, l: Link)
      requires Valid() && Known(pools, l) && (c in links ==> links[c] == l)
      modifies this`pools, this`links
      ensures Valid() && Others(c) == old(Others(c)) && links == old(links) - {c}
      ensures pools == With(old(pools), l, Balancing.Closed(At(old(pools), l))) && SameRoster(old(pools), pools)
    {
      hide With, PoolsValid, ActiveBounded, Configured, RecordsValid, Shape, SameRoster, SameActive;
      CloseKeeps(pools, links, c, l);
      var after := With(pools, l, Balancing.Closed(At(pools, l)));
      ConfiguredKept(routers, pools, after);
      pools := after;
      links := links - {c};
      assert links - {c} == old(links) - {c};
    }

    /** A record is given back; nothing may be left in its name. */
    method Release(c: Conn)
      requires Valid() && c in live && c !in links && c.mgr == this
      requires forall s :: s in owner ==> owner[s].conn != c
      modifies this`live, this`active, this`free
      ensures Valid() && Others(c) == old(Others(c))
      ensures live == old(live) - {c} && active == old(active) - 1 && free == [c] + old(free)
    {
      hide PoolsValid, ActiveBounded, Configured;
      active := active - 1;
      free := [c] + free;
      live := live - {c};
      assert live - {c} == old(live) - {c};
    }

    // ----- events ------------------------------------------------------------------------------------

    /** Between two events everything is as it must be, for the manager and for every connection. */
    ghost predicate All()
      reads this, bufs, bufs.arena, live
    {
      Valid() && forall c :: c in live ==> InOrder(c)
    }

    ghost predicate InOrder(c: Conn)
      reads c, this
    {
      c.mgr == this && !c.state.Closing? && c.Listed() && c.Placed() && c.Valid()
    }

    /** An event of one connection leaves the others in order. */
    twostate lemma OthersInOrder(c: Conn)
      requires Others(c) == old(Others(c))
      requires forall d :: d in old(live) && d != c ==> old(InOrder(d)) && unchanged(d)
      ensures live - {c} == old(live) - {c} && forall d :: d in live && d != c ==> InOrder(d)
    {
      hide BuffersOf, LinkOf, Known, Shape, Conn.Valid, OwnedByOthers;
      ShapeKnows(old(pools), pools);
      forall d | d in live && d != c ensures InOrder(d) {
        assert d in live - {c};
        OthersKeep(old(owner), owner, c, d, d.out, d.inn);
        OthersLinked(old(links), links, c, d, d.established, d.TheLink());
      }
    }

    /** A record that was given back, or a new one. */
    method TakeRecord() returns (c: Conn)
      requires RecordsValid(live, free, this)
      modifies `free
      ensures c !in live && c.mgr == this && RecordsValid(live + {c}, free, this)
      ensures c in old(free) || fresh(c)
    {
      if free != [] {
        RecordTaken(live, free, this);
        c := free[0];
        free := free[1..];
      } else {
        c := new Conn(this);
      }
    }

    method Acquire() returns (c: Conn)
      requires Valid()
      modifies `free, `active, `accepted, `live
      ensures Valid() && c !in old(live) && c.mgr == this && live == old(live) + {c}
      ensures c in old(free) || fresh(c)
      ensures active == old(active) + 1 && accepted == old(accepted) + 1
      ensures (forall s :: s in owner ==> owner[s].conn != c) && c !in links && current < |routers|
    {
      hide PoolsValid, ActiveBounded, Configured, RecordsValid, BufferPool.Valid;
      c := TakeRecord();
      active := active + 1;
      accepted := accepted + 1;
      live := live + {c};
    }

    lemma Newcomer(c: Conn)
      requires Valid() && c in live && c.mgr == this && (forall s :: s in owner ==> owner[s].conn != c) && c !in links
      requires c.out == c.inn == c.be == None && c.pool.None? && c.router == Some(current) && !c.upstreamOpen && !c.established
      ensures c.Held()
    {
      hide Valid, BuffersOf, LinkOf;
      NewcomerHasNothing(owner, links, c, c.TheLink());
      assert current < |routers| by { Current(); }
    }

    lemma Current()
      requires Valid()
      ensures current < |routers|
    {
    }

    /** A client connects; its connection keeps the router that is published now until it closes.  It is
        closed at once if its socket cannot be registered with the event loop. */
    method Accept(frontend: nat, ip: string, registered: bool, toClient: seq<Write>) returns (c: Conn)
      requires All()
      modifies this, bufs, bufs.arena, free
      ensures All() && c !in old(live) && live - {c} == old(live) && accepted == old(accepted) + 1
      ensures if old(bufs.available) == 0 then c !in live && Answered(c.Now(), 503, toClient)
              else if !registered then c !in live && Silent(c.Now())
              else
                && c in live && c.state.Reading? && c.router == Some(old(current)) && c.ip == ip && c.frontend == frontend
                && c.Untouched() && bufs.available == old(bufs.available) - 1
                && pools == old(pools) && routers == old(routers) && current == old(current)
      ensures c in old(free) || fresh(c)
    {
      hide Valid, Conn.Valid, Conn.Placed, BuffersOf, LinkOf, Others, LastLog, ErrorText;
      c := Acquire();
      label Acquired:
      c.Init(frontend, ip, current);
      Newcomer(c);
      c.Welcome(registered, toClient);
      OthersInOrder@Acquired(c);
    }

    /** A client's socket has something to say. */
    method ClientEvent(c: Conn, err: bool, eof: bool, fromClient: seq<Read>, connects: seq<bool>,
                       toUpstream: seq<Write>, toClient: seq<Write>)
      requires All() && c in live
      modifies c, this, bufs, bufs.arena
      ensures All() && live - {c} == old(live) - {c} && (c in live <==> !c.state.Closing?)
      ensures Grown(old(c.past), c.past, c.state.Reading? && !old(c.state).Reading?) && c.Client() == old(c.Client())
      ensures routers == old(routers)
      ensures err ==> c.state.Closing?
      ensures !c.state.Reading? ==> Onward(old(c.log), c.log)
      ensures !err && old(c.state).Reading? ==>
                RequestOutcome(old(c.Here()), Drained(fromClient, Rest(SLOT, |old(c.up).buf|)), eof, old(c.down), old(c.log),
                               connects, toUpstream, toClient, c.Now())
      ensures !err && old(c.state).Proxying? ==>
                && BodyOutcome(Drained(fromClient, Rest(SLOT, |old(c.up).buf|)), old(c.up), old(c.down), old(c.log), old(c.keepClient),
                               toUpstream, toClient, c.Now())
                && reports == old(reports)
                && (c.state.Proxying? ==>
                      var (left, from) := Emptied(toClient, old(c.down).buf, old(c.down).off);
                      c.down == Marked(old(c.down)).(buf := left, off := from))
      ensures !err && old(c.state).Connecting? ==> c.Now() == old(c.Now()) && c.up == old(c.up)
    {
      hide Valid, Conn.Valid, Conn.Listed, Conn.Placed, RequestOutcome, BodyOutcome, LastLog;
      c.OnClientEvent(err, eof, fromClient, connects, toUpstream, toClient);
      OthersInOrder(c);
      c.SettledLive();
    }

    /** An upstream's socket has something to say. */
    method UpstreamEvent(c: Conn, failed: bool, err: bool, eof: bool, fromUpstream: seq<Read>, connects: seq<bool>,
                         toUpstream: seq<Write>, toClient: seq<Write>)
      requires All() && c in live
      modifies c, this, bufs, bufs.arena
      ensures All() && live - {c} == old(live) - {c} && (c in live <==> !c.state.Closing?)
      ensures Grown(old(c.past), c.past, c.state.Reading? && !old(c.state).Reading?) && c.Client() == old(c.Client())
      ensures routers == old(routers)
      ensures old(c.state).Proxying? || (old(c.state).Connecting? && !failed && !err) ==> c.pool == old(c.pool)
      ensures !c.state.Reading? ==> Onward(old(c.log), c.log)
      ensures old(c.state).Reading? ==> c.state.Reading? && !c.upstreamOpen && c.log == old(c.log)
      ensures old(c.state).Connecting? && (failed || err) ==>
                && old(reports) + [(old(c.TheLink()), false)] <= reports
                && old(c.up).req.Done?
                && old(Known(c.mgr.pools, c.TheLink()))
                && Routed(old(c.AfterFailure()), old(c.up).buf, old(c.up).req.msg, true, old(c.log).received,
                          old(c.down), old(c.log), connects, toUpstream, toClient, c.Now())
                && (Exact(old(pools), old(links), old(c.TheLink())) ==>
                      (Exact(pools, links, old(c.TheLink())) <==> At(old(pools), old(c.TheLink())).active == 0))
      ensures old(c.state).Connecting? && !failed && !err ==>
                && reports == old(reports) + [(old(c.TheLink()), true)]
                && Stepped(Unwritten(old(c.up).buf, old(c.up).off), old(c.down), old(c.log), old(c.keepClient),
                           toUpstream, toClient, c.Now())
      ensures old(c.state).Proxying? && err ==> Silent(c.Now()) && c.log == old(c.log)
      ensures old(c.state).Proxying? && !err ==>
                && ReplyOutcome(Drained(fromUpstream, Rest(SLOT, |old(c.down).buf|)), eof, old(c.up), old(c.down), old(c.log),
                                old(c.keepClient), toUpstream, toClient, c.Now())
                && reports == (if ReplyRefused(fromUpstream, old(c.up), old(c.down)) then old(reports) + [(old(c.TheLink()), false)]
                               else old(reports))
                && (WaitsOn(fromUpstream, eof, old(c.up), old(c.down)) ==>
                      && c.state.Proxying?
                      && c.down == old(c.down).(buf := old(c.down).buf + Drained(fromUpstream, Rest(SLOT, |old(c.down).buf|)).data))
    {
      hide Valid, Conn.Valid, Conn.Listed, Conn.Placed, ReplyOutcome, Stepped, Routed, ReplyRefused, WaitsOn, Exact, LastLog;
      c.OnUpstreamEvent(failed, err, eof, fromUpstream, connects, toUpstream, toClient);
      OthersInOrder(c);
      c.SettledLive();
    }

    lemma Theirs(c: Conn)
      requires All() && c in live
      ensures c.mgr == this
    {
      assert InOrder(c);
    }

    lemma WhileConnecting(c: Conn)
      requires All() && c in live && c.state.Connecting?
      ensures c.up.off == 0 && NoReply(c.down, c.log) && c.log.sent == ""
      ensures c.up.buf == Unwritten(c.up.buf, c.up.off) == ForUpstream(c.log.received, c.ip) && c.up.buf != ""
    {
      hide Conn.Listed, Conn.Placed, ForUpstream, ParseRequest, NoReply;
      assert InOrder(c);
      AllWaits(c.up, c.log, c.ip);
      assert c.up.buf[0..] == c.up.buf;
      SomethingForUpstream(c.log.received, c.ip);
    }

    lemma NothingBack(c: Conn)
      requires All() && c in live && c.state.Proxying? && c.log.reply == ""
      ensures Expecting(c) && c.log.relayed == ""
    {
      hide Conn.Listed, Conn.Placed, ParseRequest, ParseResponse;
      assert InOrder(c);
      NothingYet();
    }

    /** The probe thread has an answer about a server. */
    method ProbeResult(l: Link, ok: bool)
      requires All() && Known(pools, l)
      modifies `pools
      ensures All() && pools == AfterProbe(old(pools), l, ok)
    {
      hide PoolsValid, ActiveBounded, Configured, RecordsValid, Manager.SlotsValid, Conn.Valid, Conn.Listed, AfterProbe, Known, Shape;
      ProbeKeeps(pools, links, l, ok);
      ConfiguredKept(routers, pools, AfterProbe(pools, l, ok));
      pools := AfterProbe(pools, l, ok);
      assert forall c :: c in live ==> old(InOrder(c));
    }

    /** A new router is published with pools of its own; every connection keeps the router it has. */
    method Reload(next: Router, more: Pools)
      requires All() && PoolsValid(more) && TargetsOf(next)
      requires forall p :: p in more <==> p.router == |routers| && p.index < next.pools
      requires forall p, i :: p in more && 0 <= i < |more[p].backends| ==> more[p].backends[i].active == 0
      modifies `routers, `current, `pools
      ensures All() && routers == old(routers) + [next] && current == |old(routers)| && pools == old(pools) + more
      ensures forall c, host :: c in live ==>
                LookUp(routers, c.router, c.frontend, host) == LookUp(old(routers), c.router, c.frontend, host)
    {
      hide PoolsValid, ActiveBounded, Configured, RecordsValid, Manager.SlotsValid, Conn.Valid, Conn.Listed, Known, LookUp, TargetsOf;
      ReloadConfigured(routers, pools, next, more);
      AddedKeeps(pools, links, more);
      ReloadPlaced(next, more);
      current := |routers|;
      routers := routers + [next];
      pools := pools + more;
      assert forall c :: c in live ==> old(InOrder(c));
    }

    lemma ReloadPlaced(next: Router, more: Pools)
      requires All() && pools.Keys !! more.Keys
      ensures forall c :: c in live && c.be.Some? ==> Known(pools + more, c.TheLink())
      ensures forall c, host :: c in live ==>
                LookUp(routers + [next], c.router, c.frontend, host) == LookUp(routers, c.router, c.frontend, host)
    {
      hide Valid, Known, LookUp, Conn.Valid, Conn.Listed;
      forall c | c in live && c.be.Some? ensures Known(pools + more, c.TheLink()) {
        assert InOrder(c);
        MoreKnown(pools, more, c.TheLink());
      }
      forall c, host | c in live
        ensures LookUp(routers + [next], c.router, c.frontend, host) == LookUp(routers, c.router, c.frontend, host)
      {
        assert InOrder(c);
        LookUpStays(routers, next, c.router, c.frontend, host);
      }
    }

    // ----- what holds between events -----------------------------------------------------------------------

    /** Every slot on loan is one buffer of one connection, and `active` counts the connections: what
        is missing from the pool is one slot for each connection and one more for each that has a
        response buffer. */
    lemma SlotsConserved()
      requires All()
      ensures active == |live|
      ensures forall s: nat :: s in bufs.loaned <==> exists c :: c in live && (c.out == Some(s) || c.inn == Some(s))
      ensures forall c, d :: c in live && d in live && c != d ==> c.out != d.out && c.out != d.inn && (c.inn.Some? ==> c.inn != d.inn)
      ensures forall c :: c in live ==> c.out != c.inn
      ensures bufs.capacity - bufs.available == active + |set c | c in live && c.inn.Some?|
    {
      hide Valid, InOrder;
      Totals();
      forall c | c in live ensures Holds(c) {
        HoldsItsOwn(c);
      }
      forall s: nat | s in bufs.loaned ensures s in owner && owner[s].conn in live && (owner[s].conn.out == Some(s) || owner[s].conn.inn == Some(s)) {
        SomebodyHolds(s);
      }
      BuffersTotal();
    }

    ghost function Outs(): map<Conn, nat>
      reads this, live
    {
      map c | c in live && c.out.Some? :: c.out.value
    }

    ghost function Ins(): map<Conn, nat>
      reads this, live
    {
      map c | c in live && c.inn.Some? :: c.inn.value
    }

    /** No slot is the buffer of two connections, or both buffers of one. */
    lemma BuffersApart()
      requires forall c :: c in live ==> Holds(c)
      ensures forall c, d :: c in Outs() && d in Outs() && c != d ==> Outs()[c] != Outs()[d]
      ensures forall c, d :: c in Ins() && d in Ins() && c != d ==> Ins()[c] != Ins()[d]
      ensures forall c, d :: c in Outs() && d in Ins() ==> Outs()[c] != Ins()[d]
      ensures (forall c :: c in Outs() ==> Outs()[c] in owner) && (forall c :: c in Ins() ==> Ins()[c] in owner)
    {
    }

    lemma BuffersTotal()
      requires owner.Keys == bufs.loaned && forall c :: c in live ==> Holds(c)
      requires forall s :: s in owner ==> owner[s].conn in live && (owner[s].conn.out == Some(s) || owner[s].conn.inn == Some(s))
      ensures |bufs.loaned| == |live| + |set c | c in live && c.inn.Some?|
    {
      var outs, ins := Outs(), Ins();
      assert outs.Keys == live && ins.Keys == set c | c in live && c.inn.Some?;
      forall s | s in bufs.loaned ensures (exists c :: c in outs && outs[c] == s) || (exists c :: c in ins && ins[c] == s) {
        var c := owner[s].conn;
        assert (c in outs && outs[c] == s) || (c in ins && ins[c] == s);
      }
      BuffersApart();
      BuffersCounted(outs, ins, bufs.loaned);
    }

    ghost predicate Holds(c: Conn)
      reads c, this
    {
      && c.out.Some? && c.out.value in owner && owner[c.out.value] == Owner(c, OutSide)
      && (c.inn.Some? ==> c.inn.value in owner && owner[c.inn.value] == Owner(c, InSide))
    }

    lemma HoldsItsOwn(c: Conn)
      requires All() && c in live
      ensures Holds(c)
    {
      hide Valid, LinkOf, Known;
      assert InOrder(c);
    }

    lemma SomebodyHolds(s: nat)
      requires All() && s in bufs.loaned
      ensures s in owner && owner[s].conn in live
      ensures owner[s].conn.out == Some(s) || owner[s].conn.inn == Some(s)
    {
      hide LinkOf, Known, Conn.Valid, PoolsValid, ActiveBounded, Configured, RecordsValid, BufferPool.Valid;
      assert InOrder(owner[s].conn);
    }

    lemma Totals()
      requires Valid()
      ensures active == |live| && owner.Keys == bufs.loaned && |bufs.loaned| == bufs.capacity - bufs.available
    {
      hide PoolsValid, ActiveBounded, Configured, RecordsValid;
      LoansCounted(bufs.Memory(), bufs.base, bufs.capacity, bufs.free, bufs.loaned);
    }

    /** No server counts more connections than are established to it at this moment. */
    lemma ActiveIsNeverAhead(p: PoolId, i: nat)
      requires All() && p in pools && i < |pools[p].backends|
      ensures pools[p].backends[i].active <= |set c | c in live && c.established && c.TheLink() == Link(p, i)|
    {
      hide Conn.Valid, PoolsValid, Configured, RecordsValid, Manager.SlotsValid, BuffersOf, Known;
      var established := set c | c in live && c.established && c.TheLink() == Link(p, i);
      forall c ensures c in Linked(links, Link(p, i)) <==> c in established {
        assert c in live ==> InOrder(c);
      }
      assert Linked(links, Link(p, i)) == established;
    }
  }

  /** The slots of `c` are its two buffers. */
  ghost predicate BuffersOf(owner: map<nat, Owner>, c: Conn, out: Option<nat>, inn: Option<nat>) {
    && (forall s :: s in owner && owner[s].conn == c ==> owner[s].side == if out == Some(s) then OutSide else InSide)
    && (forall s :: s in owner && owner[s].conn == c ==> out == Some(s) || inn == Some(s))
    && (out.Some? ==> out.value in owner && owner[out.value] == Owner(c, OutSide))
    && (inn.Some? ==> inn.value in owner && owner[inn.value] == Owner(c, InSide))
  }

  ghost predicate LinkOf(links: map<Conn, Link>, c: Conn, established: bool, l: Link) {
    (c in links <==> established) && (established ==> links[c] == l)
  }

  lemma SomethingForUpstream(received: string, ip: string)
    requires ParseRequest(received).Done?
    ensures ForUpstream(received, ip) != ""
  {
    hide RequestMeaning, HeaderEnd, Rewriting.Rewritten, Join, HeaderOf;
  }

  /** No server of the pool is in service. */
  ghost predicate NobodyUp(pools: Pools, p: PoolId) {
    p in pools && forall j :: 0 <= j < |pools[p].backends| ==> !pools[p].backends[j].up
  }

  /** What has been reported since are `n` failures. */
  ghost predicate FailuresReported(before: seq<(Link, bool)>, after: seq<(Link, bool)>, n: nat) {
    before <= after && |after| == |before| + n && forall j :: |before| <= j < |after| ==> !after[j].1
  }

  lemma NoFailure(reports: seq<(Link, bool)>)
    ensures FailuresReported(reports, reports, 0)
  {
  }

  lemma OneMoreFailure(before: seq<(Link, bool)>, after: seq<(Link, bool)>, n: nat, l: Link)
    requires FailuresReported(before, after, n)
    ensures FailuresReported(before, after + [(l, false)], n + 1)
  {
  }

  /** Giving a server up takes nobody out of service. */
  lemma ClosedSameUp(pools: Pools, l: Link)
    requires Known(pools, l)
    ensures forall p :: NobodyUp(With(pools, l, Balancing.Closed(At(pools, l))), p) <==> NobodyUp(pools, p)
  {
    var r := With(pools, l, Balancing.Closed(At(pools, l)));
    forall p | p in pools ensures |r[p].backends| == |pools[p].backends|
                                  && forall j :: 0 <= j < |pools[p].backends| ==> r[p].backends[j].up == pools[p].backends[j].up {
    }
  }

  lemma SameActiveSelf(pools: Pools)
    ensures SameActive(pools, pools)
  {
  }

  lemma SlotsLeft(buf: string, r: Request, ip: string, slots: int)
    requires Obstacle(buf, r, ip, slots) == 0
    ensures slots != 0
  {
  }

  /** Whatever a connection does to its own slots and links, the others find theirs. */
  lemma OthersKeep(before: map<nat, Owner>, after: map<nat, Owner>, c: Conn, d: Conn, out: Option<nat>, inn: Option<nat>)
    requires OwnedByOthers(before, c) == OwnedByOthers(after, c) && c != d && BuffersOf(before, d, out, inn)
    ensures BuffersOf(after, d, out, inn)
  {
    var mine := OwnedByOthers(before, c);
    assert forall s :: s in mine <==> s in before && before[s].conn != c;
    assert forall s :: s in mine <==> s in after && after[s].conn != c;
    assert forall s :: s in mine ==> mine[s] == before[s] == after[s];
  }

  lemma OthersLinked(before: map<Conn, Link>, after: map<Conn, Link>, c: Conn, d: Conn, established: bool, l: Link)
    requires before - {c} == after - {c} && c != d && LinkOf(before, d, established, l)
    ensures LinkOf(after, d, established, l)
  {
    assert d in before <==> d in before - {c};
    assert d in after <==> d in after - {c};
    assert d in before ==> (before - {c})[d] == before[d];
    assert d in after ==> (after - {c})[d] == after[d];
  }

  lemma NewcomerHasNothing(owner: map<nat, Owner>, links: map<Conn, Link>, c: Conn, l: Link)
    requires (forall s :: s in owner ==> owner[s].conn != c) && c !in links
    ensures BuffersOf(owner, c, None, None) && LinkOf(links, c, false, l)
  {
  }

  lemma NoBuffers(owner: map<nat, Owner>, c: Conn)
    requires BuffersOf(owner, c, None, None)
    ensures forall s :: s in owner ==> owner[s].conn != c
  {
  }

  lemma OutGone(owner: map<nat, Owner>, c: Conn, s: nat, inn: Option<nat>)
    requires BuffersOf(owner, c, Some(s), inn)
    ensures s in owner && owner[s].conn == c && BuffersOf(owner - {s}, c, None, inn)
  {
  }

  lemma InGone(owner: map<nat, Owner>, c: Conn, out: Option<nat>, s: nat)
    requires BuffersOf(owner, c, out, Some(s))
    ensures s in owner && owner[s].conn == c && BuffersOf(owner - {s}, c, out, None)
  {
  }

  lemma OutTaken(owner: map<nat, Owner>, c: Conn, s: nat, inn: Option<nat>)
    requires BuffersOf(owner, c, None, inn) && s !in owner
    ensures BuffersOf(owner[s := Owner(c, OutSide)], c, Some(s), inn)
  {
  }

  lemma InTaken(owner: map<nat, Owner>, c: Conn, out: Option<nat>, s: nat)
    requires BuffersOf(owner, c, out, None) && s !in owner
    ensures BuffersOf(owner[s := Owner(c, InSide)], c, out, Some(s))
  {
  }

  /** Whoever rewrites a request holds three slots for a moment, and two again afterwards. */
  lemma OutReplaced(owner: map<nat, Owner>, c: Conn, s: nat, spare: nat, inn: Option<nat>)
    requires BuffersOf(owner, c, Some(s), inn) && spare !in owner
    ensures var borrowed := owner[spare := Owner(c, Spare)];
            && s in borrowed && borrowed[s].conn == c && spare in borrowed - {s}
            && BuffersOf((borrowed - {s})[spare := Owner(c, OutSide)], c, Some(spare), inn)
            && borrowed - {spare} == owner
  {
  }

  // ----- one connection ----------------------------------------------------------------------------

  /** The status line and the fields of the proxy's own answers. */
  function ErrorText(code: int): string {
    "HTTP/1.1 " + (match code
                   case 400 => "400 Bad Request"
                   case 431 => "431 Request Header Fields Too Large"
                   case 503 => "503 Service Unavailable"
                   case 505 => "505 HTTP Version Not Supported"
                   case _ => "502 Bad Gateway")
    + "\r\n" + "Content-Length: 0\r\nConnection: close\r\n\r\n"
  }

  /** Whether the k-th attempt to open a socket gets anywhere. */
  predicate Connects(connects: seq<bool>, k: nat) {
    k < |connects| && connects[k]
  }

  /** What a connection and its manager are before an event, as far as it decides where a request goes. */
  datatype Setting = Setting(routers: seq<Router>, router: Option<nat>, frontend: nat, ip: string,
                             pool: Option<PoolId>, upstreamOpen: bool, slots: int, attempts: nat, pools: Pools)

  /** What can be seen of them afterwards; `last` is the last exchange that has been finished. */
  datatype Outcome = Outcome(state: State, pool: Option<PoolId>, open: bool, attempts: nat, answer: Option<string>,
                             log: Log, last: Log, pools: Pools)

  /** One exchange more, or none. */
  ghost predicate Grown(before: seq<Exchange>, after: seq<Exchange>, one: bool) {
    if one then |after| == |before| + 1 && after[..|before|] == before else after == before
  }

  function LastLog(past: seq<Exchange>): Log {
    if past == [] then NO_LOG else past[|past| - 1].log
  }

  predicate Answered(now: Outcome, code: int, toClient: seq<Write>) {
    now.state.Closing? && now.answer == Some(Written(toClient, ErrorText(code)))
  }

  /** The connection ends, and the proxy says nothing. */
  predicate Silent(now: Outcome) {
    now.state.Closing? && now.answer.None?
  }

  /** One server after another: the first socket that gets anywhere, or 502 when all attempts are used
      up or nobody is in service; `nobody` if nobody has been to begin with. */
  ghost predicate Tried(from: nat, nobody: bool, p: PoolId, connects: seq<bool>, toClient: seq<Write>, now: Outcome) {
    if now.state.Connecting? then
      && now.pool == Some(p) && from < now.attempts <= 3 && Connects(connects, now.attempts - from - 1)
      && forall k: nat :: k < now.attempts - from - 1 ==> !Connects(connects, k)
    else
      && Answered(now, 502, toClient)
      && ((forall k: nat :: from + k < 3 ==> !Connects(connects, k)) || NobodyUp(now.pools, p))
      && (from < 3 && Connects(connects, 0) ==> nobody)
  }

  /** A request whose pool is known: the answer of the obstacle if there is one, the open connection, or
      a new one. */
  ghost predicate Launched(ip: string, from: nat, nobody: bool, open: bool, p: PoolId, code: int, r: Request, ready: bool, got: string, down: Download,
                           before: Log, connects: seq<bool>, toUpstream: seq<Write>, toClient: seq<Write>, now: Outcome)
  {
    if code != 0 then Answered(now, code, toClient)
    else
      var rewritten := before.(rewrites := if ready then before.rewrites else before.rewrites + 1);
      if open then
        && now.pool == Some(p) && !now.state.Connecting?
        && Stepped(ForUpstream(got, ip), down, rewritten, r.keepAlive, toUpstream, toClient, now)
      else
        Tried(from, nobody, p, connects, toClient, now) && (now.state.Connecting? ==> now.log == rewritten)
  }

  /** Where a complete request goes: 502 without a route, the answer of the obstacle if there is one, an
      open connection to the same pool, or a new connection. */
  ghost predicate Routed(at: Setting, buf: string, r: Request, ready: bool, got: string, down: Download, before: Log,
                         connects: seq<bool>, toUpstream: seq<Write>, toClient: seq<Write>, now: Outcome)
  {
    var p := LookUp(at.routers, at.router, at.frontend, r.host);
    var code := if ready then 0 else Obstacle(buf, r, at.ip, at.slots);
    if p.None? then Answered(now, 502, toClient)
    else Launched(at.ip, at.attempts, NobodyUp(at.pools, p.value), at.upstreamOpen && at.pool == p, p.value, code, r, ready, got, down, before, connects, toUpstream, toClient, now)
  }

  /** Only who is in service matters of the pools. */
  lemma RoutedAlike(at: Setting, here: Setting, buf: string, r: Request, got: string, down: Download, before: Log,
                    connects: seq<bool>, toUpstream: seq<Write>, toClient: seq<Write>, now: Outcome)
    requires Routed(here, buf, r, true, got, down, before, connects, toUpstream, toClient, now)
    requires at == here.(pools := at.pools) && forall p :: NobodyUp(at.pools, p) <==> NobodyUp(here.pools, p)
    ensures Routed(at, buf, r, true, got, down, before, connects, toUpstream, toClient, now)
  {
    hide LookUp, Launched, NobodyUp;
  }

  /** What bytes from the client lead to while a request is awaited. */
  ghost predicate RequestOutcome(at: Setting, input: Input, eofSeen: bool, down: Download, before: Log,
                                 connects: seq<bool>, toUpstream: seq<Write>, toClient: seq<Write>, now: Outcome)
  {
    var got := before.received + input.data;
    var eof := eofSeen || input.eof;
    if !input.ok || (eof && got == "") then Silent(now)
    else
      match ParseRequest(got)
      case Refused(code) => Answered(now, code, toClient)
      case NeedMore =>
        if eof then Silent(now)
        else if |got| >= SLOT then Answered(now, 431, toClient)
        else now.state.Reading? && now.log == before.(received := got)
      case Done(r) => Routed(at, got, r, false, got, down, before.(received := got), connects, toUpstream, toClient, now)
  }

  /** Both buffers are written: what the bytes of the exchange are then, whether it goes on, ends, or
      ends the connection. */
  ghost predicate Stepped(unsent: string, down: Download, before: Log, keep: bool,
                          toUpstream: seq<Write>, toClient: seq<Write>, now: Outcome)
  {
    var pending := Unwritten(down.buf, down.off);
    var written := Flushed(toUpstream, |unsent|).ok && Flushed(toClient, |pending|).ok;
    var drained := Written(toClient, pending) == pending;
    && (now.state.Reading? <==> written && drained && Marked(down).complete && keep && down.resp.Done? && down.resp.msg.keepAlive)
    && (now.state.Proxying? <==> written && !(drained && (Marked(down).complete || down.eof)))
    && !now.state.Connecting?
    && (now.state.Reading? ==> (now.open <==> !down.eof)) && (now.state.Proxying? ==> now.open)
    && (if now.state.Reading? then now.log == NO_LOG && now.last == Wrote(before, unsent, down, toUpstream, toClient)
        else now.log == Wrote(before, unsent, down, toUpstream, toClient))
    && (now.state.Closing? ==> now.answer.None?)
  }

  /** What bytes from the client lead to while a request and its response are relayed. */
  ghost predicate BodyOutcome(input: Input, up: Upload, down: Download, before: Log, keep: bool,
                              toUpstream: seq<Write>, toClient: seq<Write>, now: Outcome)
  {
    if !input.ok || Exchanges.Malformed(up, input.data) then Silent(now) && now.log == before
    else Stepped(Unwritten(up.buf, up.off) + input.data, down, before.(received := before.received + input.data), keep, toUpstream, toClient, now)
  }

  /** What bytes from the upstream lead to. */
  ghost predicate ReplyOutcome(input: Input, eofSeen: bool, up: Upload, down: Download, before: Log, keep: bool,
                               toUpstream: seq<Write>, toClient: seq<Write>, now: Outcome)
  {
    var head := up.req.Done? && up.req.msg.isHead;
    var eof := eofSeen || input.eof;
    var verdict := ParseResponse(down.buf + input.data, head);
    var came := before.(reply := before.reply + input.data);
    if !input.ok then Silent(now) && now.log == before
    else if !down.headersDone && verdict.Refused? then Answered(now, 502, toClient) && now.log == before
    else if !down.headersDone && verdict.NeedMore? then
      if eof || |down.buf| + |input.data| >= SLOT then Silent(now) && now.log == before
      else now.state.Proxying? && now.log == came
    else
      match Replied(down, input.data, head)
      case None => Silent(now) && now.log == before
      case Some(after) => Stepped(Unwritten(up.buf, up.off), after.(eof := after.eof || eof), came, keep, toUpstream, toClient, now)
  }

  /** The bytes that have come are read as a header and refused. */
  ghost predicate ReplyRefused(fromUpstream: seq<Read>, up: Upload, down: Download) {
    var input := Drained(fromUpstream, Rest(SLOT, |down.buf|));
    input.ok && !down.headersDone && ParseResponse(down.buf + input.data, up.req.Done? && up.req.msg.isHead).Refused?
  }

  /** The header is not complete, and there is room and hope for the rest of it. */
  ghost predicate WaitsOn(fromUpstream: seq<Read>, eofSeen: bool, up: Upload, down: Download) {
    var input := Drained(fromUpstream, Rest(SLOT, |down.buf|));
    && input.ok && !(eofSeen || input.eof) && |down.buf| + |input.data| < SLOT
    && !down.headersDone && ParseResponse(down.buf + input.data, up.req.Done? && up.req.msg.isHead).NeedMore?
  }

  /** More bytes of a response, and then a step: two moves in one direction. */
  lemma OnwardReply(before: Log, data: string)
    ensures forall after :: Onward(before.(reply := before.reply + data), after) ==> Onward(before, after)
  {
    assert before.reply <= before.reply + data;
  }

  class Conn {
    const mgr: Manager
    var clientOpen: bool
    var upstreamOpen: bool
    var state: State

    var router: Option<nat>
    var pool: Option<PoolId>
    var be: Option<nat>
    var attempts: nat
    var frontend: nat
    var ip: string

    var out: Option<nat>      // the slot behind up.buf
    var inn: Option<nat>      // the slot behind down.buf
    var up: Upload
    var down: Download
    var clientEof: bool
    var keepClient: bool
    var served: nat

    ghost var established: bool      // the upstream connection has been established and counted
    ghost var log: Log
    ghost var past: seq<Exchange>
    ghost var answer: Option<string> // the proxy's own answer, as far as it was written

    constructor (m: Manager)
      ensures mgr == m && state == Closing
    {
      mgr, state := m, Closing;
    }

    // ----- what the fields mean --------------------------------------------------------------------

    ghost predicate Frame()
      reads `clientOpen, `router, `out, `attempts, `answer, `served, `past
    {
      && clientOpen && router.Some? && out.Some? && attempts <= MAX_CONNECT_ATTEMPTS && answer.None?
      && served == |past| && AllGood(past)
    }

    ghost predicate IsHead()
      reads `up
    {
      up.req.Done? && up.req.msg.isHead
    }

    /** The client's connection is kept only if the request allowed it. */
    ghost predicate Agreed()
      reads `up, `keepClient
    {
      up.req.Done? && keepClient == up.req.msg.keepAlive
    }

    /** A connection between two events. */
    ghost predicate Valid()
      reads this
    {
      && Frame()
      && match state
         case Reading =>
           && Incoming(up, log) && NoReply(down, log) && up.req == NeedMore && ParseRequest(log.received).NeedMore?
           && attempts == 0 && upstreamOpen == established
         case Connecting =>
           && Outgoing(up, log, ip) && NoReply(down, log) && up.off == 0 && log.sent == "" && Agreed()
           && inn.Some? && 1 <= attempts && upstreamOpen && !established
         case Proxying =>
           && Outgoing(up, log, ip) && Relaying(down, log, IsHead(), true) && Agreed()
           && inn.Some? && upstreamOpen && established
         case Closing => false
    }

    /** In the middle of an event, with both sides connected. */
    ghost predicate Midway()
      reads `clientOpen, `router, `out, `attempts, `answer, `served, `past
      reads `up, `down, `log, `ip, `keepClient, `inn, `upstreamOpen, `established
    {
      && Frame() && Outgoing(up, log, ip) && Relaying(down, log, IsHead(), false) && Agreed()
      && inn.Some? && upstreamOpen && established
    }

    /** The ledger says of this connection what its fields say. */
    ghost predicate Listed()
      reads `out, `inn, `established, `upstreamOpen, `pool, `be, mgr`live, mgr`owner, mgr`links
    {
      && this in mgr.live && BuffersOf(mgr.owner, this, out, inn)
      && LinkOf(mgr.links, this, established, TheLink()) && (established ==> upstreamOpen)
    }

    ghost function TheLink(): Link
      reads `pool, `be
    {
      Link(if pool.Some? then pool.value else PoolId(0, 0), if be.Some? then be.value else 0)
    }

    /** The server belongs to the pool, and the pool to the router the connection references. */
    ghost predicate Placed()
      reads `upstreamOpen, `be, `pool, `router, mgr`pools, mgr`routers
    {
      && (upstreamOpen <==> be.Some?) && (be.Some? ==> pool.Some? && Known(mgr.pools, TheLink()))
      && (pool.Some? ==> router == Some(pool.value.router) && pool.value in mgr.pools)
      && (router.Some? ==> router.value < |mgr.routers|)
    }

    ghost predicate Held()
      reads `out, `inn, `established, `upstreamOpen, `pool, `be, `router
      reads mgr`routers, mgr`current, mgr`pools, mgr`free, mgr`active, mgr`live, mgr`owner, mgr`links, mgr.bufs, mgr.bufs.arena
    {
      mgr.Valid() && Listed() && Placed()
    }

    /** Everything has been given back. */
    ghost predicate Gone()
      reads `out, `inn, `be, `router, `state, `clientOpen, `upstreamOpen
      reads mgr`routers, mgr`current, mgr`pools, mgr`free, mgr`active, mgr`live, mgr`owner, mgr`links, mgr.bufs, mgr.bufs.arena
    {
      && mgr.Valid() && state == Closing && this !in mgr.live && this !in mgr.links
      && (forall s :: s in mgr.owner ==> mgr.owner[s].conn != this)
      && out == inn == None && be == None && router == None && !clientOpen && !upstreamOpen
    }

    /** After an event: the connection is as it must be between events, or it has given everything
        back. */
    ghost predicate Settled()
      reads this
      reads mgr`routers, mgr`current, mgr`pools, mgr`free, mgr`active, mgr`live, mgr`owner, mgr`links, mgr.bufs, mgr.bufs.arena
    {
      if state.Closing? then Gone() else Held() && Valid()
    }

    /** Who the client is, and where it came in. */
    ghost function Client(): (nat, string)
      reads `frontend, `ip
    {
      (frontend, ip)
    }

    ghost function Here(): Setting
      reads `router, `frontend, `ip, `pool, `upstreamOpen, `attempts, mgr`routers, mgr`pools, mgr.bufs`available
    {
      Setting(mgr.routers, router, frontend, ip, pool, upstreamOpen, mgr.bufs.available, attempts, mgr.pools)
    }

    /** The setting once the failure of the connect has been reported. */
    ghost function AfterFailure(): Setting
      requires Known(mgr.pools, TheLink())
      reads this, mgr`routers, mgr`pools, mgr.bufs`available
    {
      Here().(upstreamOpen := false, pools := AfterReport(mgr.pools, TheLink(), false))
    }

    ghost function Now(): Outcome
      reads `state, `pool, `upstreamOpen, `attempts, `answer, `log, `past, mgr`pools
    {
      Outcome(state, pool, upstreamOpen, attempts, answer, log, LastLog(past), mgr.pools)
    }

    // ----- closing -----------------------------------------------------------------------------------

    method DropUpstream()
      requires Held()
      modifies this`upstreamOpen, this`be, this`established, mgr`pools, mgr`links
      ensures Held() && !upstreamOpen && be.None? && !established && mgr.Others(this) == old(mgr.Others(this))
      ensures old(be).None? ==> mgr.pools == old(mgr.pools) && mgr.links == old(mgr.links)
      ensures old(be).Some? && Exact(old(mgr.pools), old(mgr.links), old(TheLink())) ==>
                (Exact(mgr.pools, mgr.links, old(TheLink())) <==> old(established) || At(old(mgr.pools), old(TheLink())).active == 0)
      ensures old(be).Some? ==>
                && Known(old(mgr.pools), old(TheLink()))
                && mgr.pools == With(old(mgr.pools), old(TheLink()), Balancing.Closed(At(old(mgr.pools), old(TheLink()))))
    {
      hide Manager.Valid, BuffersOf, Known, Manager.Others, With, At, Exact;
      if be.Some? && Exact(mgr.pools, mgr.links, TheLink()) {
        DropExact();
      }
      upstreamOpen := false;
      if be.Some? {
        mgr.Dropped(this, Link(pool.value, be.value));
        be := None;
      }
      established := false;
    }

    lemma DropExact()
      requires Held() && be.Some? && Exact(mgr.pools, mgr.links, TheLink())
      ensures var l := TheLink();
              Exact(With(mgr.pools, l, Balancing.Closed(At(mgr.pools, l))), mgr.links - {this}, l) <==>
              established || At(mgr.pools, l).active == 0
    {
      CloseExact(mgr.pools, mgr.links, this, TheLink());
    }

    method FreeOut()
      requires Held()
      modifies `out, mgr`owner, mgr.bufs`freeList, mgr.bufs`available, mgr.bufs`free, mgr.bufs`loaned, mgr.bufs.arena
      ensures Held() && out.None? && mgr.Others(this) == old(mgr.Others(this))
      ensures mgr.bufs.available == old(mgr.bufs.available) + if old(out).Some? then 1 else 0
    {
      hide Manager.Valid, Known, Placed, BuffersOf, LinkOf, Manager.Others;
      if out.Some? {
        OutGone(mgr.owner, this, out.value, inn);
        mgr.GiveBack(this, out.value);
        out := None;
      }
    }

    method FreeIn()
      requires Held()
      modifies `inn, mgr`owner, mgr.bufs`freeList, mgr.bufs`available, mgr.bufs`free, mgr.bufs`loaned, mgr.bufs.arena
      ensures Held() && inn.None? && mgr.Others(this) == old(mgr.Others(this))
      ensures mgr.bufs.available == old(mgr.bufs.available) + if old(inn).Some? then 1 else 0
    {
      hide Manager.Valid, Known, Placed, BuffersOf, LinkOf, Manager.Others;
      if inn.Some? {
        InGone(mgr.owner, this, out, inn.value);
        mgr.GiveBack(this, inn.value);
        inn := None;
      }
    }

    method GiveUp()
      requires Held()
      modifies `state, `clientOpen, `upstreamOpen, `be, `established, `out, `inn, `router
      modifies mgr`pools, mgr`links, mgr`owner, mgr.bufs, mgr.bufs.arena
      ensures mgr.Valid() && this in mgr.live && this !in mgr.links && BuffersOf(mgr.owner, this, None, None)
      ensures state == Closing && out == inn == None && be == None && router == None && !clientOpen && !upstreamOpen
      ensures mgr.Others(this) == old(mgr.Others(this))
      ensures mgr.bufs.available == old(mgr.bufs.available) + (if old(out).Some? then 1 else 0) + (if old(inn).Some? then 1 else 0)
      ensures old(be).None? ==> mgr.pools == old(mgr.pools) && mgr.links == old(mgr.links)
    {
      hide Manager.Valid, Known, Manager.Others, BuffersOf, With, At, Exact;
      state := Closing;
      clientOpen := false;
      DropUpstream();
      FreeOut();
      FreeIn();
      router := None;
    }

    /** Gives everything back; doing it again changes nothing. */
    method Close()
      requires state.Closing? || Held()
      modifies this, mgr, mgr.bufs, mgr.bufs.arena
      ensures old(state).Closing? ==> unchanged(this) && unchanged(mgr) && unchanged(mgr.bufs) && unchanged(mgr.bufs.arena)
      ensures !old(state).Closing? ==>
                && Gone() && state.Closing? && mgr.Others(this) == old(mgr.Others(this))
                && mgr.active == old(mgr.active) - 1 && mgr.free == [this] + old(mgr.free)
                && mgr.bufs.available == old(mgr.bufs.available) + (if old(out).Some? then 1 else 0) + (if old(inn).Some? then 1 else 0)
      ensures past == old(past) && answer == old(answer) && log == old(log) && pool == old(pool) && Client() == old(Client())
      ensures mgr.accepted == old(mgr.accepted) && mgr.requests == old(mgr.requests) && mgr.errors == old(mgr.errors)
      ensures mgr.reports == old(mgr.reports) && (old(be).None? ==> mgr.pools == old(mgr.pools) && mgr.links == old(mgr.links))
    {
      hide Manager.Valid, Manager.Others, BuffersOf, Held;
      if state.Closing? {
        return;
      }
      GiveUp();
      NoBuffers(mgr.owner, this);
      mgr.Release(this);
    }

    /** The proxy's own answer, written at once as far as the client takes it; then the end. */
    method SendError(code: int, toClient: seq<Write>)
      requires Held() && !state.Closing?
      modifies this, mgr, mgr.bufs, mgr.bufs.arena
      ensures Gone() && mgr.Others(this) == old(mgr.Others(this)) && Client() == old(Client()) && past == old(past)
      ensures mgr.errors == old(mgr.errors) + 1 && mgr.requests == old(mgr.requests) && mgr.accepted == old(mgr.accepted)
      ensures mgr.reports == old(mgr.reports) && (old(be).None? ==> mgr.pools == old(mgr.pools) && mgr.links == old(mgr.links))
      ensures Answered(Now(), code, toClient) && log == old(log) && pool == old(pool)
    {
      hide Manager.Valid, Manager.Others, ErrorText, Held, Gone, Flushed, AllGood;
      var text := ErrorText(code);
      var _, _, _ := DrainWrite(toClient, text, 0);
      answer := Some(Written(toClient, text));
      mgr.errors := mgr.errors + 1;
      Close();
    }

    // ----- relaying ----------------------------------------------------------------------------------

    method FlushUpstream(toUpstream: seq<Write>) returns (ok: bool)
      requires Midway()
      modifies `up, `log
      ensures Midway() && up == old(up).(buf := up.buf, off := up.off)
      ensures var pending := Unwritten(old(up).buf, old(up).off);
              ok == Flushed(toUpstream, |pending|).ok && log == old(log).(sent := old(log).sent + Written(toUpstream, pending))
    {
      hide Outgoing, Relaying, Flushed, AllGood, Moved, Unwritten, Written;
      SidesApart(up, down, log, ip, IsHead(), false, log);
      var left, from, written := Flush(toUpstream, up.buf, up.off);
      ghost var moved := Written(toUpstream, Unwritten(up.buf, up.off));
      UploadMoves(up, log, ip, moved, left, from);
      SidesApart(up, down, log, ip, IsHead(), false, log.(sent := log.sent + moved));
      log := log.(sent := log.sent + moved);
      up := up.(buf := left, off := from);
      return written;
    }

    method FlushClient(toClient: seq<Write>) returns (ok: bool)
      requires Midway()
      modifies `down, `log
      ensures Midway() && down == old(down).(buf := down.buf, off := down.off)
      ensures var pending := Unwritten(old(down).buf, old(down).off); var moved := Written(toClient, pending);
              && ok == Flushed(toClient, |pending|).ok
              && log == old(log).(relayed := old(log).relayed + moved, cut := CutAfter(old(down), old(log), down.buf))
              && (ok ==> (down.off == |down.buf| <==> moved == pending))
              && (down.buf, down.off) == Emptied(toClient, old(down).buf, old(down).off)
    {
      hide Outgoing, Relaying, Flushed, AllGood, Moved, Unwritten, Written, CutAfter, Emptied;
      SidesApart(up, down, log, ip, IsHead(), false, log);
      var left, from, written := Flush(toClient, down.buf, down.off);
      ghost var moved := Written(toClient, Unwritten(down.buf, down.off));
      DownloadMoves(down, log, IsHead(), moved, left, from);
      ghost var after := log.(relayed := log.relayed + moved, cut := CutAfter(down, log, left));
      SidesApart(up, down, log, ip, IsHead(), false, after);
      log := after;
      down := down.(buf := left, off := from);
      return written;
    }

    ghost function ThisExchange(): Exchange
      reads `log, `ip, `up, `down
    {
      Exchange(log, ip, Unwritten(up.buf, up.off), if down.resp.Done? then down.resp.msg else Response(0, 0, 0, NoBody, 0, false))
    }

    method Restart(ghost e: Exchange)
      requires Frame() && Good(e) && upstreamOpen == established
      modifies `up, `down, `attempts, `clientEof, `served, `state, `log, `past
      ensures Valid() && state.Reading? && log == NO_LOG && past == old(past) + [e]
    {
      hide Incoming, Outgoing, NoReply, Relaying, Good, AllGood, ParseRequest;
      NothingYet();
      OneMoreGood(past, e);
      up, down := NO_UPLOAD, NO_DOWNLOAD;
      attempts, clientEof := 0, false;
      served := served + 1;
      state := Reading;
      log, past := NO_LOG, past + [e];
    }

    /** Ready for the next request on the same connection; the upstream connection is kept only if
        the response was delimited and the upstream lets it live. */
    method StartNextRequest()
      requires Held() && Midway() && down.complete && down.off == |down.buf| && keepClient
      requires down.resp.Done? && down.resp.msg.keepAlive
      modifies this, mgr`pools, mgr`links, mgr`requests
      ensures Held() && Valid() && state.Reading? && log == NO_LOG && mgr.Others(this) == old(mgr.Others(this)) && Client() == old(Client())
      ensures past == old(past) + [old(ThisExchange())]
      ensures (upstreamOpen <==> !old(down).eof) && pool == old(pool)
      ensures mgr.requests == old(mgr.requests) + 1 && out == old(out) && inn == old(inn)
    {
      hide Held, Gone, Manager.Valid, Manager.Others, Outgoing, Relaying, Incoming, NoReply, Good, AllGood, ParseRequest, With, At, Known, Unwritten;
      ghost var e := ThisExchange();
      FinishedIsGood(up, down, log, ip);
      var reuse := down.resp.msg.keepAlive && !down.eof && !down.resp.msg.mode.UntilClose?;
      if !reuse {
        DropUpstream();
      }
      Restart(e);
      mgr.requests := mgr.requests + 1;
    }

    method FinishResponse()
      requires Held() && Midway() && !state.Closing? && down.complete && down.off == |down.buf| && down.resp.Done?
      modifies this, mgr, mgr.bufs, mgr.bufs.arena
      ensures mgr.Others(this) == old(mgr.Others(this)) && Client() == old(Client()) && mgr.reports == old(mgr.reports)
      ensures state == if old(keepClient && down.resp.msg.keepAlive) then Reading else Closing
      ensures pool == old(pool)
      ensures state.Closing? ==> Gone() && past == old(past) && log == old(log) && answer == old(answer)
      ensures state.Reading? ==> Held() && Valid() && log == NO_LOG && past == old(past) + [old(ThisExchange())]
      ensures state.Reading? ==> (upstreamOpen <==> !old(down).eof)
    {
      hide Held, Gone, Manager.Valid, Manager.Others, Outgoing, Relaying, Incoming, NoReply, Good, AllGood, ParseRequest, With, At, Known, Unwritten;
      if !keepClient || !down.resp.msg.keepAlive {
        Close();
        return;
      }
      StartNextRequest();
    }

    /** Both buffers have been written: the exchange ends, or the connection, or neither. */
    method Conclude()
      requires Held() && Midway() && state.Proxying?
      modifies this, mgr, mgr.bufs, mgr.bufs.arena
      ensures Settled() && mgr.Others(this) == old(mgr.Others(this)) && Client() == old(Client()) && mgr.reports == old(mgr.reports)
      ensures state.Reading? <==> && Marked(old(down)).complete && old(down.off == |down.buf|)
                                  && old(keepClient) && old(down).resp.Done? && old(down).resp.msg.keepAlive
      ensures state.Proxying? <==> !(old(down.off == |down.buf|) && (Marked(old(down)).complete || old(down).eof))
      ensures !state.Connecting? && (state.Reading? ==> (upstreamOpen <==> !old(down).eof)) && (state.Proxying? ==> upstreamOpen)
      ensures if state.Reading? then log == NO_LOG else log == old(log) && answer == old(answer)
      ensures pool == old(pool) && (state.Proxying? ==> down == Marked(old(down)))
      ensures past == if state.Reading? then old(past) + [old(ThisExchange())] else old(past)
    {
      hide Held, Gone, Valid, Manager.Valid, Manager.Others, Outgoing, Relaying, AllGood, Unwritten;
      MarkedKeeps(down, log, IsHead());
      if down.eof && down.headersDone && down.resp.msg.mode.UntilClose? {
        down := down.(complete := true);
      }
      if down.complete && down.off == |down.buf| {
        FinishResponse();
        return;
      }
      if down.eof && !down.complete && down.off == |down.buf| {
        Close();
        return;
      }
      StillProxying();
    }

    /** Both buffers are written as far as the sockets take them, and then the exchange ends, or the
        connection, or neither. */
    method ProxyStep(toUpstream: seq<Write>, toClient: seq<Write>)
      requires Held() && Midway() && state.Proxying?
      modifies this, mgr, mgr.bufs, mgr.bufs.arena
      ensures Settled() && mgr.Others(this) == old(mgr.Others(this)) && Client() == old(Client()) && mgr.reports == old(mgr.reports)
      ensures !state.Connecting? && Stepped(Unwritten(old(up).buf, old(up).off), old(down), old(log), old(keepClient), toUpstream, toClient, Now())
      ensures pool == old(pool) && (!state.Reading? ==> Onward(old(log), log))
      ensures Grown(old(past), past, state.Reading?)
      ensures state.Proxying? ==>
                var (left, from) := Emptied(toClient, old(down).buf, old(down).off);
                down == Marked(old(down)).(buf := left, off := from)
    {
      hide Held, Gone, Valid, Manager.Valid, Manager.Others, Outgoing, Relaying, AllGood, Flushed, Written, Unwritten, Emptied;
      Transparent(down, log, IsHead(), false);
      var ok := FlushUpstream(toUpstream);
      Transparent(down, log, IsHead(), false);
      if !ok {
        Close();
        return;
      }
      ok := FlushClient(toClient);
      Transparent(down, log, IsHead(), false);
      if !ok {
        Close();
        return;
      }
      Conclude();
    }

    lemma StillProxying()
      requires Midway() && state.Proxying? && Relaying(down, log, IsHead(), true)
      ensures Valid()
    {
      hide Outgoing, Relaying, AllGood;
    }

    // ----- routing -----------------------------------------------------------------------------------

    /** A whole request header has arrived and nothing has been done about it. */
    ghost predicate Fresh()
      reads this
    {
      && Frame() && state.Reading? && Incoming(up, log) && NoReply(down, log)
      && up.req.Done? && ParseRequest(up.buf) == up.req && attempts == 0 && upstreamOpen == established
    }

    /** The request is ready to go and none of it has gone. */
    ghost predicate Prepared()
      reads this
    {
      && Frame() && Outgoing(up, log, ip) && NoReply(down, log) && up.off == 0 && log.sent == "" && Agreed()
      && ((state.Reading? && upstreamOpen == established) || (state.Connecting? && inn.Some? && !upstreamOpen && !established))
    }

    /** A slot for the rewritten request, or not. */
    method Substitute(text: string, body: string) returns (code: int)
      requires Held() && out.Some? && state.Reading?
      modifies `out, mgr`owner, mgr.bufs, mgr.bufs.arena
      ensures Held() && out.Some? && mgr.Others(this) == old(mgr.Others(this))
      ensures mgr.bufs.available == old(mgr.bufs.available)
      ensures code == if old(mgr.bufs.available) == 0 then 503 else if |text| + |body| > SLOT then 431 else 0
      ensures code != 0 ==> out == old(out)
    {
      hide Manager.Valid, Manager.Others, BuffersOf, Placed, Known, LinkOf;
      var spare := mgr.Borrow(this, Spare);
      if spare.None? {
        return 503;
      }
      OutReplaced(old(mgr.owner), this, out.value, spare.value, inn);
      if |text| > SLOT || |text| + |body| > SLOT {
        mgr.GiveBack(this, spare.value);
        return 431;
      }
      mgr.GiveBack(this, out.value);
      mgr.Promote(this, spare.value);
      out := spare;
      return 0;
    }

    /** How far the body has come with the bytes that came with the header; false if it is malformed. */
    method StartBody(body: string) returns (ok: bool)
      requires up.req.Done? && !up.req.msg.mode.UntilClose?
      modifies `up
      ensures up == old(up).(left := up.left, scan := up.scan, complete := up.complete)
      ensures ok == !(up.req.msg.mode.ChunkedCoding? && Body.Run(Body.START, body).0.error)
      ensures ok ==> Framed(up.req.msg.mode, up.req.msg.contentLength, body, false, up.left, up.scan, up.complete)
    {
      hide Body.Run, Framed;
      BodyStarts(up.req.msg.mode, up.req.msg.contentLength, body, up.left, up.scan);
      BodyStarts(up.req.msg.mode, up.req.msg.contentLength, body, 0, up.scan);
      if up.req.msg.mode.Length? {
        var left := if up.req.msg.contentLength > |body| then up.req.msg.contentLength - |body| else 0;
        up := up.(left := left, complete := left == 0);
      } else if up.req.msg.mode.ChunkedCoding? {
        var (scan, _) := Body.Run(Body.START, body);
        up := up.(scan := scan);
        if up.scan.error {
          return false;
        }
        up := up.(complete := up.scan.done);
      } else {
        up := up.(left := 0, complete := true);
      }
      return true;
    }

    /** The buffer takes the new header and the body bytes that came with the old one. */
    method Load(text: string, body: string) returns (ok: bool)
      requires Incoming(up, log) && up.req.Done? && ParseRequest(up.buf) == up.req
      requires text == HeaderText(up.buf, ip) && |text| + |body| <= SLOT
      requires up.req.msg.headerLen <= |up.buf| && body == up.buf[up.req.msg.headerLen..] && !up.req.msg.mode.UntilClose?
      modifies `up, `log
      ensures up.req == old(up).req && up.off == 0
      ensures log == if ok then old(log).(rewrites := old(log).rewrites + 1) else old(log)
      ensures ok == !(up.req.msg.mode.ChunkedCoding? && Body.Run(Body.START, body).0.error)
      ensures ok ==> Outgoing(up, log, ip)
    {
      hide Outgoing, ParseRequest, HeaderText, Framed, Body.Run;
      ghost var before := up;
      up := up.(buf := text + body, off := 0);
      ok := StartBody(body);
      if ok {
        up := up.(ready := true);
        StartsOutgoing(before, log, ip, up);
        log := log.(rewrites := log.rewrites + 1);
      }
    }

    /** Rewrites the request into a slot of its own.  The answer on failure: 503 without a slot, 431 if
        it does not fit, 400 if its body is malformed. */
    method PrepareRequest(toClient: seq<Write>) returns (ok: bool)
      requires Held() && Fresh() && Agreed()
      modifies this, mgr, mgr.bufs, mgr.bufs.arena
      ensures mgr.Others(this) == old(mgr.Others(this)) && Client() == old(Client()) && past == old(past) && mgr.reports == old(mgr.reports)
      ensures !ok ==> state.Closing? && Gone()
      ensures ok ==>
                && Held() && Prepared() && state.Reading? && log == old(log).(rewrites := old(log).rewrites + 1) && up.req == old(up).req
                && pool == old(pool) && be == old(be) && upstreamOpen == old(upstreamOpen) && inn == old(inn) && attempts == 0
                && down == old(down) && ip == old(ip) && keepClient == old(keepClient) && mgr.bufs.available == old(mgr.bufs.available)
                && mgr.pools == old(mgr.pools) && mgr.links == old(mgr.links)
      ensures var code := Obstacle(old(up).buf, old(up).req.msg, old(ip), old(mgr.bufs.available));
              (ok <==> code == 0) && (!ok ==> Answered(Now(), code, toClient))
      ensures !ok ==> Onward(old(log), log)
    {
      hide Held, Gone, Manager.Valid, Manager.Others, Outgoing, ParseRequest, AllGood, HeaderText, Framed, Body.Run, ForUpstream, ErrorText, Written;
      Rewritten(up, log, ip);
      var text := HeaderText(up.buf, ip);
      var body := up.buf[up.req.msg.headerLen..];
      var code := Substitute(text, body);
      if code != 0 {
        SendError(code, toClient);
        return false;
      }
      ok := Load(text, body);
      if !ok {
        SendError(400, toClient);
        return false;
      }
    }

    /** The socket is on its way to the server. */
    method BeginConnect(server: nat)
      requires Held() && Prepared() && inn.Some? && pool.Some? && !upstreamOpen && attempts >= 1
      requires Known(mgr.pools, Link(pool.value, server))
      modifies `be, `upstreamOpen, `state
      ensures Held() && Valid() && state.Connecting? && be == Some(server)
    {
      hide Manager.Valid, BuffersOf, Known, Outgoing, NoReply, Incoming, AllGood;
      be, upstreamOpen, state := Some(server), true, Connecting;
    }

    lemma NoUpstreamNoServer()
      requires Held() && !upstreamOpen
      ensures be.None?
    {
    }

    /** A server is asked for; a failing socket is reported against it. */
    method PickServer() returns (picked: Option<nat>)
      requires Held() && pool.Some?
      modifies mgr`pools
      ensures Held() && mgr.Others(this) == old(mgr.Others(this))
      ensures picked.Some? ==> Known(mgr.pools, Link(pool.value, picked.value))
      ensures pool.value in old(mgr.pools) && old(mgr.pools)[pool.value].backends != []
      ensures var was := old(mgr.pools)[pool.value];
              && was.rr < |was.backends| && picked == Balancing.PickFrom(was).0
              && mgr.pools == old(mgr.pools)[pool.value := Balancing.PickFrom(was).1]
      ensures (picked.None? ==> NobodyUp(old(mgr.pools), pool.value) && NobodyUp(mgr.pools, pool.value))
      ensures SameActive(old(mgr.pools), mgr.pools)
    {
      hide Manager.Valid, Manager.Others, Listed, Known, Balancing.PickFrom, SameActive;
      picked := mgr.Pick(this, pool.value);
    }

    method Blame(server: nat)
      requires Held() && pool.Some? && Known(mgr.pools, Link(pool.value, server))
      modifies mgr`pools, mgr`reports
      ensures Held() && mgr.Others(this) == old(mgr.Others(this))
      ensures mgr.pools == AfterReport(old(mgr.pools), Link(pool.value, server), false)
      ensures mgr.reports == old(mgr.reports) + [(Link(pool.value, server), false)] && SameActive(old(mgr.pools), mgr.pools)
    {
      hide Manager.Valid, Manager.Others, Listed, Known, AfterReport, SameActive;
      mgr.Report(this, Link(pool.value, server), false);
    }

    /** Tries one server after another, at most three for a request; the request stays as it is. */
    method Connect(connects: seq<bool>, toClient: seq<Write>) returns (ghost tries: nat)
      requires Held() && Prepared() && inn.Some? && pool.Some? && !upstreamOpen
      modifies this, mgr, mgr.bufs, mgr.bufs.arena
      ensures Settled() && mgr.Others(this) == old(mgr.Others(this)) && Client() == old(Client()) && past == old(past)
      ensures FailuresReported(old(mgr.reports), mgr.reports, tries)
      ensures mgr.links == old(mgr.links) && SameActive(old(mgr.pools), mgr.pools)
      ensures Tried(old(attempts), NobodyUp(old(mgr.pools), old(pool).value), old(pool).value, connects, toClient, Now())
      ensures log == old(log) && pool == old(pool)
      ensures state.Connecting? ==> up == old(up) && attempts == old(attempts) + tries + 1
    {
      hide Held, Valid, Gone, Manager.Valid, Manager.Others, Outgoing, NoReply, Incoming, AllGood, Written, Balancing.PickFrom, Known, AfterReport, ErrorText, NobodyUp, SameActive, LastLog, FailuresReported;
      tries := 0;
      var k: nat := 0;
      assert FailuresReported(old(mgr.reports), mgr.reports, 0) by { NoFailure(mgr.reports); }
      NoUpstreamNoServer();
      SameActiveSelf(mgr.pools);
      while attempts < MAX_CONNECT_ATTEMPTS
        invariant Held() && Prepared() && mgr.Others(this) == old(mgr.Others(this)) && past == old(past) && Client() == old(Client())
        invariant up == old(up) && log == old(log) && inn.Some? && pool.Some? && pool == old(pool) && !upstreamOpen && be.None?
        invariant tries == k && attempts == old(attempts) + k && (k == 0 ==> mgr.pools == old(mgr.pools))
        invariant FailuresReported(old(mgr.reports), mgr.reports, tries)
        invariant mgr.links == old(mgr.links) && SameActive(old(mgr.pools), mgr.pools)
        invariant forall n: nat :: n < tries ==> !Connects(connects, n)
      {
        attempts := attempts + 1;
        ghost var before := mgr.pools;
        var picked := PickServer();
        SameActiveTwice(old(mgr.pools), before, mgr.pools);
        if picked.None? {
          break;
        }
        if Connects(connects, k) {
          BeginConnect(picked.value);
          return;
        }
        before := mgr.pools;
        ghost var reports := mgr.reports;
        Blame(picked.value);
        OneMoreFailure(old(mgr.reports), reports, tries, Link(pool.value, picked.value));
        SameActiveTwice(old(mgr.pools), before, mgr.pools);
        k, tries := k + 1, tries + 1;
      }
      SendError(502, toClient);
    }

    /** The pool the Host leads to; an upstream connection to another pool is given up. */
    method ChoosePool() returns (ok: bool)
      requires Held() && up.req.Done?
      modifies `pool, `upstreamOpen, `be, `established, mgr`pools, mgr`links
      ensures Held() && mgr.Others(this) == old(mgr.Others(this))
      ensures var p := LookUp(mgr.routers, router, frontend, up.req.msg.host);
              && ok == p.Some? && (ok ==> pool == p)
              && (ok && (old(pool) == p || !old(upstreamOpen)) ==> upstreamOpen == old(upstreamOpen) && be == old(be) && established == old(established))
              && (ok && old(pool) != p ==> !upstreamOpen && !established)
      ensures !ok ==> pool == old(pool) && be == old(be) && upstreamOpen == old(upstreamOpen) && established == old(established)
      ensures !ok || !old(upstreamOpen) ==> mgr.pools == old(mgr.pools) && mgr.links == old(mgr.links)
      ensures forall p :: NobodyUp(mgr.pools, p) <==> NobodyUp(old(mgr.pools), p)
    {
      hide Manager.Valid, Manager.Others, BuffersOf, Known, Configured, Routing.Resolve, With, At, NobodyUp;
      var p := LookUp(mgr.routers, router, frontend, up.req.msg.host);
      if p.None? {
        return false;
      }
      if upstreamOpen && pool != p {
        DropUpstream();
        ClosedSameUp(old(mgr.pools), old(TheLink()));
      }
      LeadsToPool();
      pool := p;
      return true;
    }

    lemma LeadsToPool()
      requires mgr.Valid() && up.req.Done?
      ensures var p := LookUp(mgr.routers, router, frontend, up.req.msg.host);
              p.Some? ==> router == Some(p.value.router) && p.value in mgr.pools
    {
      hide Routing.Resolve;
      LookedUp(mgr.routers, mgr.pools, router, frontend, up.req.msg.host);
    }

    method TakeInSlot() returns (ok: bool)
      requires Held() && inn.None?
      modifies `inn, mgr`owner, mgr.bufs
      ensures Held() && mgr.Others(this) == old(mgr.Others(this))
      ensures ok == inn.Some? && (ok <==> old(mgr.bufs.available) != 0)
    {
      hide Manager.Valid, Manager.Others, BuffersOf, Known, LinkOf, Placed;
      var slot := mgr.Borrow(this, InSide);
      if slot.Some? {
        InTaken(old(mgr.owner), this, out, slot.value);
      }
      inn := slot;
      return slot.Some?;
    }

    /** With the request ready and a pool chosen: the open connection, or a new one. */
    method Proceed(connects: seq<bool>, toUpstream: seq<Write>, toClient: seq<Write>)
      requires Held() && Prepared() && pool.Some?
      modifies this, mgr, mgr.bufs, mgr.bufs.arena
      ensures Settled() && mgr.Others(this) == old(mgr.Others(this)) && Client() == old(Client()) && old(mgr.reports) <= mgr.reports
      ensures !state.Reading? && past == old(past) && Onward(old(log), log) && pool == old(pool)
      ensures old(inn).None? && old(mgr.bufs.available) == 0 ==> Answered(Now(), 503, toClient)
      ensures (old(inn).Some? || old(mgr.bufs.available) != 0) && old(upstreamOpen) ==>
                && !state.Connecting?
                && Stepped(ForUpstream(old(log).received, old(ip)), old(down), old(log), old(keepClient), toUpstream, toClient, Now())
      ensures (old(inn).Some? || old(mgr.bufs.available) != 0) && !old(upstreamOpen) ==>
                && Tried(old(attempts), NobodyUp(old(mgr.pools), old(pool).value), old(pool).value, connects, toClient, Now())
                && log == old(log)
      ensures state.Connecting? ==> up == old(up) && attempts > old(attempts)
      ensures !old(upstreamOpen) ==> mgr.links == old(mgr.links) && SameActive(old(mgr.pools), mgr.pools)
    {
      hide Held, Gone, Valid, Manager.Valid, Manager.Others, Incoming, Outgoing, NoReply, Relaying, AllGood, ParseRequest, Written, ErrorText, Unwritten, NobodyUp, SameActive, CutAfter, LastLog, Connects;
      SameActiveSelf(mgr.pools);
      NothingToRelay(down, log, IsHead());
      Transparent(down, log, IsHead(), false);
      if !upstreamOpen {
        NoUpstreamNoServer();
      }
      if inn.None? {
        var ok := TakeInSlot();
        if !ok {
          SendError(503, toClient);
          return;
        }
      }
      if upstreamOpen {
        UseAgain(toUpstream, toClient);
        return;
      }
      ghost var tries := Connect(connects, toClient);
    }

    method UseAgain(toUpstream: seq<Write>, toClient: seq<Write>)
      requires Held() && Prepared() && inn.Some? && upstreamOpen
      modifies this, mgr, mgr.bufs, mgr.bufs.arena
      ensures Settled() && mgr.Others(this) == old(mgr.Others(this)) && Client() == old(Client()) && mgr.reports == old(mgr.reports)
      ensures !state.Reading? && past == old(past) && Onward(old(log), log) && pool == old(pool)
      ensures !state.Connecting?
      ensures Stepped(ForUpstream(old(log).received, old(ip)), old(down), old(log), old(keepClient), toUpstream, toClient, Now())
    {
      hide Held, Gone, Valid, Manager.Valid, Manager.Others, Incoming, Outgoing, NoReply, Relaying, AllGood, ParseRequest, Written, Unwritten, CutAfter, LastLog;
      NothingToRelay(down, log, IsHead());
      AllWaits(up, log, ip);
      state := Proxying;
      ProxyStep(toUpstream, toClient);
    }

    /** The request is rewritten if it has not been, and sent on its way. */
    method Launch(connects: seq<bool>, toUpstream: seq<Write>, toClient: seq<Write>)
      requires Held() && pool.Some? && (Fresh() || (Prepared() && inn.Some?))
      modifies this, mgr, mgr.bufs, mgr.bufs.arena
      ensures Settled() && mgr.Others(this) == old(mgr.Others(this)) && Client() == old(Client()) && old(mgr.reports) <= mgr.reports
      ensures !state.Reading? && past == old(past) && Onward(old(log), log)
      ensures old(up).req.Done?
      ensures var code := if old(up).ready then 0 else Obstacle(old(up).buf, old(up).req.msg, old(ip), old(mgr.bufs.available));
              Launched(old(ip), old(attempts), NobodyUp(old(mgr.pools), old(pool).value), old(upstreamOpen), old(pool).value, code,
                       old(up).req.msg, old(up).ready, old(log).received, old(down), old(log), connects, toUpstream, toClient, Now())
      ensures old(up).ready && state.Connecting? ==> up == old(up) && log == old(log) && attempts > old(attempts)
      ensures old(up).ready && !old(upstreamOpen) ==> mgr.links == old(mgr.links) && SameActive(old(mgr.pools), mgr.pools)
    {
      hide Held, Gone, Valid, Frame, Manager.Valid, Manager.Others, Incoming, Outgoing, NoReply, Relaying, AllGood, ParseRequest, Written, ErrorText, Obstacle, ForUpstream, SameActive, Tried, LastLog;
      Stages(up, log, ip);
      NothingToRelay(down, log, IsHead());
      Transparent(down, log, IsHead(), false);
      if !up.ready {
        keepClient := up.req.msg.keepAlive;
        var ok := PrepareRequest(toClient);
        if !ok {
          return;
        }
        SlotsLeft(old(up).buf, old(up).req.msg, old(ip), old(mgr.bufs.available));
      }
      Proceed(connects, toUpstream, toClient);
    }

    /** From a parsed request to a server: an open connection to the right pool is used again, and
        otherwise one is opened. */
    method RouteAndConnect(connects: seq<bool>, toUpstream: seq<Write>, toClient: seq<Write>)
      requires Held() && (Fresh() || (Prepared() && inn.Some?))
      modifies this, mgr, mgr.bufs, mgr.bufs.arena
      ensures Settled() && mgr.Others(this) == old(mgr.Others(this)) && Client() == old(Client()) && old(mgr.reports) <= mgr.reports
      ensures !state.Reading? && past == old(past) && Onward(old(log), log)
      ensures old(up).req.Done?
      ensures Routed(old(Here()), old(up).buf, old(up).req.msg, old(up).ready, old(log).received, old(down), old(log),
                     connects, toUpstream, toClient, Now())
      ensures old(up).ready && state.Connecting? ==> up == old(up) && log == old(log) && attempts > old(attempts)
      ensures old(up).ready && !old(upstreamOpen) ==> mgr.links == old(mgr.links) && SameActive(old(mgr.pools), mgr.pools)
    {
      hide Held, Gone, Valid, Frame, Manager.Valid, Manager.Others, Incoming, Outgoing, NoReply, Relaying, AllGood, ParseRequest, Written, ErrorText, LookUp, Obstacle, ForUpstream, SameActive, Launched, LastLog;
      Stages(up, log, ip);
      if !upstreamOpen {
        NoUpstreamNoServer();
      }
      var ok := ChoosePool();
      if !ok {
        SameActiveSelf(mgr.pools);
        NothingToRelay(down, log, IsHead());
        Transparent(down, log, IsHead(), false);
        SendError(502, toClient);
        return;
      }
      Launch(connects, toUpstream, toClient);
    }

    /** Bytes of a request are in the buffer, not looked at yet. */
    ghost predicate Arriving()
      reads this
    {
      && Frame() && state.Reading? && Incoming(up, log) && NoReply(down, log)
      && up.req == NeedMore && attempts == 0 && upstreamOpen == established
    }

    /** The parser's verdict on what has arrived. */
    method JudgeRequest(eof: bool, connects: seq<bool>, toUpstream: seq<Write>, toClient: seq<Write>)
      requires Held() && Arriving()
      modifies this, mgr, mgr.bufs, mgr.bufs.arena
      ensures Settled() && mgr.Others(this) == old(mgr.Others(this)) && Client() == old(Client()) && old(mgr.reports) <= mgr.reports
      ensures past == old(past) && (!state.Reading? ==> Onward(old(log), log))
      ensures match ParseRequest(old(log).received)
              case Refused(code) => Answered(Now(), code, toClient)
              case NeedMore =>
                if eof then Silent(Now())
                else if |old(log).received| >= SLOT then Answered(Now(), 431, toClient)
                else state.Reading? && log == old(log)
              case Done(r) =>
                Routed(old(Here()), old(log).received, r, false, old(log).received, old(down), old(log),
                       connects, toUpstream, toClient, Now())
    {
      hide Held, Gone, Manager.Valid, Manager.Others, Outgoing, Relaying, NoReply, AllGood, ParseRequest, Written, ErrorText, Routed, LastLog;
      NothingToRelay(down, log, IsHead());
      Transparent(down, log, IsHead(), false);
      up := up.(req := ParseRequest(up.buf));
      match up.req {
        case Refused(code) =>
          SendError(code, toClient);
        case NeedMore =>
          if eof {
            Close();
          } else if |up.buf| >= SLOT {
            SendError(431, toClient);
          }
        case Done(_) =>
          clientEof := eof;
          RouteAndConnect(connects, toUpstream, toClient);
      }
    }

    /** More of a request header. */
    method OnRequestBytes(fromClient: seq<Read>, eofSeen: bool, connects: seq<bool>, toUpstream: seq<Write>, toClient: seq<Write>)
      requires Held() && Valid() && state.Reading?
      modifies this, mgr, mgr.bufs, mgr.bufs.arena
      ensures Settled() && mgr.Others(this) == old(mgr.Others(this)) && Client() == old(Client()) && old(mgr.reports) <= mgr.reports
      ensures past == old(past) && (!state.Reading? ==> Onward(old(log), log))
      ensures RequestOutcome(old(Here()), Drained(fromClient, Rest(SLOT, |old(up).buf|)), eofSeen, old(down), old(log),
                             connects, toUpstream, toClient, Now())
    {
      hide Held, Gone, Manager.Valid, Manager.Others, Outgoing, Relaying, NoReply, AllGood, ParseRequest, Written, ErrorText, Drained, Routed, LastLog;
      NothingToRelay(down, log, IsHead());
      Transparent(down, log, IsHead(), false);
      var full, eof, ok := DrainRead(fromClient, up.buf, SLOT, eofSeen);
      NoReplyIgnores(down, log, full);
      up := up.(buf := full);
      log := log.(received := full);
      if !ok || (eof && |full| == 0) {
        Close();
        return;
      }
      JudgeRequest(eof, connects, toUpstream, toClient);
    }

    /** Counts body bytes of the request; false if they are malformed. */
    method CountBody(data: string) returns (ok: bool)
      requires up.req.Done?
      modifies `up
      ensures up == old(up).(left := up.left, scan := up.scan, complete := up.complete)
      ensures ok ==> Counted(old(up), data, up)
      ensures ok == !Exchanges.Malformed(old(up), data)
    {
      hide Body.Run;
      if !up.complete && |data| > 0 {
        if up.req.msg.mode.ChunkedCoding? {
          var (scan, _) := Body.Run(up.scan, data);
          up := up.(scan := scan);
          if up.scan.error {
            return false;
          }
          up := up.(complete := up.scan.done);
        } else {
          var left := if |data| >= up.left then 0 else up.left - |data|;
          up := up.(left := left, complete := left == 0);
        }
      }
      return true;
    }

    method TakeClientBytes(data: string) returns (ok: bool)
      requires Valid() && state.Proxying? && |up.buf| + |data| <= SLOT
      modifies `up, `log
      ensures ok ==>
                && Midway()
                && up.buf == old(up).buf + data && up.off == old(up).off
                && log == old(log).(received := old(log).received + data)
      ensures !ok ==> log == old(log)
      ensures old(up).req.Done?
      ensures ok == !Exchanges.Malformed(old(up), data)
    {
      hide Outgoing, Relaying, AllGood, Body.Run;
      SidesApart(up, down, log, ip, IsHead(), true, log);
      ghost var before := up;
      ok := CountBody(data);
      if !ok {
        return;
      }
      up := up.(buf := up.buf + data);
      UploadGrows(before, log, ip, data, up);
      ClientBytesLogged(data);
      log := log.(received := log.received + data);
    }

    /** More of a request body, or whatever else the client sends while the response is on its way. */
    method OnBodyBytes(fromClient: seq<Read>, eofSeen: bool, toUpstream: seq<Write>, toClient: seq<Write>)
      requires Held() && Valid() && state.Proxying?
      modifies this, mgr, mgr.bufs, mgr.bufs.arena
      ensures Settled() && mgr.Others(this) == old(mgr.Others(this)) && Client() == old(Client()) && mgr.reports == old(mgr.reports)
      ensures (!state.Reading? ==> Onward(old(log), log)) && pool == old(pool) && Grown(old(past), past, state.Reading?)
      ensures BodyOutcome(Drained(fromClient, Rest(SLOT, |old(up).buf|)), old(up), old(down), old(log), old(keepClient),
                          toUpstream, toClient, Now())
      ensures state.Proxying? ==>
                var (left, from) := Emptied(toClient, old(down).buf, old(down).off);
                down == Marked(old(down)).(buf := left, off := from)
    {
      hide Held, Gone, Valid, Midway, Manager.Valid, Manager.Others, Drained, Written, Unwritten, Exchanges.Malformed, Stepped, Marked, Emptied;
      UpBound();
      var full, eof, ok := DrainRead(fromClient, up.buf, SLOT, eofSeen);
      if !ok {
        Close();
        return;
      }
      MoreWaits(up.buf, up.off, full[|up.buf|..]);
      ok := TakeClientBytes(full[|up.buf|..]);
      if !ok {
        Close();
        return;
      }
      if eof {
        clientEof := true;
      }
      ProxyStep(toUpstream, toClient);
    }

    lemma UpBound()
      requires Valid() && state.Proxying?
      ensures up.off <= |up.buf| <= SLOT && answer.None? && Onward(log, log)
    {
      Transparent(down, log, IsHead(), true);
      SidesApart(up, down, log, ip, IsHead(), true, log);
    }

    lemma ClientBytesLogged(data: string)
      requires Outgoing(up, log.(received := log.received + data), ip) && Relaying(down, log, IsHead(), true)
      ensures Relaying(down, log.(received := log.received + data), IsHead(), false)
    {
      hide Outgoing, Relaying;
      Transparent(down, log, IsHead(), true);
      RelayingIgnores(down, log, IsHead(), false, log.(received := log.received + data));
    }

    /** Something happened on the client's socket. */
    method OnClientEvent(err: bool, eofSeen: bool, fromClient: seq<Read>, connects: seq<bool>, toUpstream: seq<Write>, toClient: seq<Write>)
      requires Settled()
      modifies this, mgr, mgr.bufs, mgr.bufs.arena
      ensures Settled() && mgr.Others(this) == old(mgr.Others(this)) && Client() == old(Client())
      ensures !old(state).Closing? ==> Grown(old(past), past, state.Reading? && !old(state).Reading?)
      ensures err ==> state.Closing?
      ensures !err && (old(state).Connecting? || old(state).Closing?) ==> unchanged(this) && unchanged(mgr)
      ensures !old(state).Closing? && !state.Reading? ==> Onward(old(log), log)
      ensures !err && old(state).Reading? ==>
                RequestOutcome(old(Here()), Drained(fromClient, Rest(SLOT, |old(up).buf|)), eofSeen, old(down), old(log),
                               connects, toUpstream, toClient, Now())
      ensures !err && old(state).Proxying? ==>
                && BodyOutcome(Drained(fromClient, Rest(SLOT, |old(up).buf|)), old(up), old(down), old(log), old(keepClient),
                               toUpstream, toClient, Now())
                && mgr.reports == old(mgr.reports)
                && (state.Proxying? ==>
                      var (left, from) := Emptied(toClient, old(down).buf, old(down).off);
                      down == Marked(old(down)).(buf := left, off := from))
    {
      hide Held, Gone, Valid, Manager.Valid, Manager.Others, Drained, RequestOutcome, BodyOutcome, LastLog;
      OnwardNow();
      if err {
        Close();
        return;
      }
      if state.Reading? {
        OnRequestBytes(fromClient, eofSeen, connects, toUpstream, toClient);
      } else if state.Proxying? {
        OnBodyBytes(fromClient, eofSeen, toUpstream, toClient);
      }
    }

    // ----- events of the upstream ----------------------------------------------------------------------

    /** The connect failed: it counts against the server, and the request is taken to another one. */
    method OnConnectFailed(connects: seq<bool>, toUpstream: seq<Write>, toClient: seq<Write>)
      requires Held() && Valid() && state.Connecting?
      modifies this, mgr, mgr.bufs, mgr.bufs.arena
      ensures Settled() && mgr.Others(this) == old(mgr.Others(this)) && Client() == old(Client())
      ensures old(mgr.reports) + [(old(TheLink()), false)] <= mgr.reports
      ensures old(up).req.Done?
      ensures old(Known(mgr.pools, TheLink()))
      ensures Routed(old(AfterFailure()), old(up).buf, old(up).req.msg, true, old(log).received, old(down), old(log),
                     connects, toUpstream, toClient, Now())
      ensures state.Connecting? ==> up == old(up) && log == old(log) && attempts > old(attempts)
      ensures !state.Reading? && past == old(past) && Onward(old(log), log)
      ensures Exact(old(mgr.pools), old(mgr.links), old(TheLink())) ==>
                (Exact(mgr.pools, mgr.links, old(TheLink())) <==> At(old(mgr.pools), old(TheLink())).active == 0)
    {
      hide Gone, Manager.Valid, Manager.Others, Listed, Incoming, Outgoing, NoReply, Relaying, AllGood, ParseRequest, Routed, LookUp, Known, AfterReport, Exact, SameActive, LastLog;
      Stages(up, log, ip);
      ghost var l := TheLink();
      assert Known(mgr.pools, l);
      Blame(be.value);
      ExactStays(old(mgr.pools), mgr.pools, mgr.links, l);
      ghost var reported := mgr.pools;
      DropUpstream();
      ClosedSameUp(reported, l);
      ghost var dropped, here := mgr.pools, Here();
      RouteAndConnect(connects, toUpstream, toClient);
      RoutedAlike(old(AfterFailure()), here, old(up).buf, old(up).req.msg, old(log).received, old(down), old(log),
                  connects, toUpstream, toClient, Now());
      ExactStays(dropped, mgr.pools, mgr.links, l);
    }

    /** The connection is established: the server is credited, and counts it. */
    method Establish()
      requires Held() && Valid() && state.Connecting?
      modifies `state, `established, mgr`pools, mgr`links, mgr`reports
      ensures mgr.reports == old(mgr.reports) + [(TheLink(), true)] && up == old(up) && down == old(down) && log == old(log)
      ensures Held() && Midway() && state.Proxying? && down.buf == "" && mgr.Others(this) == old(mgr.Others(this))
      ensures Known(old(mgr.pools), TheLink())
      ensures var credited := AfterReport(old(mgr.pools), TheLink(), true);
              && Known(credited, TheLink())
              && mgr.pools == With(credited, TheLink(), Balancing.Opened(At(credited, TheLink())))
    {
      hide Manager.Valid, Manager.Others, Listed, Outgoing, NoReply, Relaying, AllGood, Known, With, At, AfterReport;
      NothingToRelay(down, log, IsHead());
      Credit();
      state := Proxying;
    }

    method Credit()
      requires Held() && !established && upstreamOpen
      modifies `established, mgr`pools, mgr`links, mgr`reports
      ensures mgr.reports == old(mgr.reports) + [(TheLink(), true)]
      ensures Held() && established && mgr.Others(this) == old(mgr.Others(this))
      ensures Known(old(mgr.pools), TheLink())
      ensures var credited := AfterReport(old(mgr.pools), TheLink(), true);
              && Known(credited, TheLink())
              && mgr.pools == With(credited, TheLink(), Balancing.Opened(At(credited, TheLink())))
    {
      hide Manager.Valid, Manager.Others, BuffersOf, Known, With, At, AfterReport;
      mgr.Report(this, Link(pool.value, be.value), true);
      mgr.Opened(this, Link(pool.value, be.value));
      established := true;
    }

    /** Counts body bytes of the response; false if they are malformed. */
    method FeedResponseBody(data: string) returns (ok: bool)
      requires down.resp.Done?
      modifies `down
      ensures down == old(down).(left := down.left, scan := down.scan, complete := down.complete)
      ensures ok == Feed(old(down), data).Some? && (ok ==> Feed(old(down), data) == Some(down))
    {
      hide Body.Run;
      match down.resp.msg.mode {
        case NoBody =>
          down := down.(complete := true);
        case Length =>
          if |data| >= down.left {
            down := down.(left := 0, complete := true);
          } else {
            down := down.(left := down.left - |data|);
          }
        case ChunkedCoding =>
          var (scan, _) := Body.Run(down.scan, data);
          down := down.(scan := scan);
          if down.scan.error {
            return false;
          }
          if down.scan.done {
            down := down.(complete := true);
          }
        case UntilClose =>
      }
      return true;
    }

    /** The response header is complete with these bytes. */
    method ReadHeader(data: string) returns (ok: bool)
      requires Valid() && state.Proxying? && !down.headersDone && |down.buf| + |data| <= SLOT
      requires ParseResponse(down.buf + data, IsHead()).Done?
      modifies `down, `log
      ensures ok == Replied(old(down), data, IsHead()).Some? && (!ok ==> log == old(log))
      ensures ok ==> Midway() && down.headersDone && Replied(old(down), data, IsHead()) == Some(down) && log == old(log).(reply := old(log).reply + data)
    {
      hide Outgoing, Relaying, AllGood, ParseResponse, Feed, Body.Run;
      ghost var before := down;
      HeaderFits(down.buf + data, IsHead());
      SidesApart(up, down, log, ip, IsHead(), true, log.(reply := log.reply + data));
      var head := up.req.msg.isHead;
      var resp := ParseResponse(down.buf + data, head);
      var start := down.(buf := down.buf + data, resp := resp, headersDone := true, left := resp.msg.contentLength);
      if resp.msg.mode.ChunkedCoding? {
        start := start.(scan := Body.START);
      }
      down := start;
      ok := FeedResponseBody(down.buf[down.resp.msg.headerLen..]);
      if ok {
        HeaderFound(before, log, IsHead(), data, down);
        OutgoingIgnores(up, log, ip, log.(reply := log.reply + data));
        log := log.(reply := log.reply + data);
      }
    }

    /** More of the response body, or of whatever follows it. */
    method ReadBody(data: string) returns (ok: bool)
      requires Valid() && state.Proxying? && down.headersDone && |down.buf| + |data| <= SLOT
      modifies `down, `log
      ensures ok == Replied(old(down), data, IsHead()).Some? && (!ok ==> log == old(log))
      ensures ok ==> Midway() && down.headersDone && Replied(old(down), data, IsHead()) == Some(down) && log == old(log).(reply := old(log).reply + data)
    {
      hide Outgoing, Relaying, AllGood, Feed, Body.Run;
      ghost var before := down;
      HeaderKnown(down, log, IsHead());
      down := down.(buf := down.buf + data);
      ok := FeedResponseBody(data);
      if ok {
        BodyGrows(before, log, IsHead(), data, down);
        OutgoingIgnores(up, log, ip, log.(reply := log.reply + data));
        log := log.(reply := log.reply + data);
      }
    }

    /** The upstream has closed its side. */
    method EndReply()
      requires Midway() && down.headersDone
      modifies `down
      ensures Midway() && down == old(down).(eof := true)
    {
      hide Outgoing, Relaying, AllGood;
      Ended(down, log, IsHead());
      down := down.(eof := true);
    }

    /** Nothing is relayed before the header is complete. */
    method Wait(data: string)
      requires Valid() && state.Proxying? && !down.headersDone && |down.buf| + |data| <= SLOT
      requires ParseResponse(down.buf + data, IsHead()).NeedMore?
      modifies `down, `log
      ensures Valid() && state.Proxying? && log == old(log).(reply := old(log).reply + data)
      ensures down == old(down).(buf := old(down).buf + data) && Onward(old(log), log)
    {
      hide Outgoing, Relaying, AllGood, ParseResponse;
      Transparent(down, log, IsHead(), true);
      StillWaiting(down, log, IsHead(), data);
      OutgoingIgnores(up, log, ip, log.(reply := log.reply + data));
      down := down.(buf := down.buf + data);
      log := log.(reply := log.reply + data);
    }

    /** A response that cannot be parsed counts against the server. */
    method RefuseReply(toClient: seq<Write>)
      requires Held() && Valid() && state.Proxying?
      modifies this, mgr, mgr.bufs, mgr.bufs.arena
      ensures state.Closing? && Gone() && mgr.Others(this) == old(mgr.Others(this)) && Client() == old(Client()) && past == old(past)
      ensures pool == old(pool) && Answered(Now(), 502, toClient) && log == old(log) && mgr.reports == old(mgr.reports) + [(old(TheLink()), false)]
    {
      hide LastLog, Gone, Manager.Valid, Manager.Others, Listed, Outgoing, Relaying, AllGood, Written, ErrorText, Known, AfterReport;
      Blame(be.value);
      SendError(502, toClient);
    }

    /** Bytes of the response, taken in: false if the connection has been closed, or waits for the rest
        of the header. */
    method TakeReplyBytes(data: string, eof: bool, toClient: seq<Write>) returns (on: bool)
      requires Held() && Valid() && state.Proxying? && |down.buf| + |data| <= SLOT
      modifies this, mgr, mgr.bufs, mgr.bufs.arena
      ensures mgr.Others(this) == old(mgr.Others(this)) && Client() == old(Client()) && past == old(past) && pool == old(pool)
      ensures mgr.reports == if !old(down).headersDone && ParseResponse(old(down).buf + data, old(IsHead())).Refused?
                             then old(mgr.reports) + [(old(TheLink()), false)] else old(mgr.reports)
      ensures on ==> Held() && Midway() && state.Proxying? && down.headersDone
      ensures on ==> Replied(old(down), data, old(IsHead())) == Some(down) && up == old(up) && keepClient == old(keepClient)
      ensures !on ==> Settled() && !state.Reading? && !state.Connecting?
      ensures log == if state.Closing? then old(log) else old(log).(reply := old(log).reply + data)
      ensures !on ==> Onward(old(log), log)
      ensures var v := ParseResponse(old(down).buf + data, old(IsHead()));
              !old(down).headersDone ==>
                match v
                case Refused(_) => !on && Answered(Now(), 502, toClient)
                case NeedMore =>
                  && !on && (if eof || |old(down).buf| + |data| >= SLOT then Silent(Now()) else state.Proxying?)
                  && (state.Proxying? ==> down == old(down).(buf := old(down).buf + data))
                case Done(_) => on == Replied(old(down), data, old(IsHead())).Some? && (on || Silent(Now()))
      ensures old(down).headersDone ==> on == Replied(old(down), data, old(IsHead())).Some? && (on || Silent(Now()))
    {
      hide Held, Gone, Manager.Valid, Manager.Others, Outgoing, Relaying, AllGood, ParseResponse, Written, ErrorText, LastLog, Replied;
      SidesApart(up, down, log, ip, IsHead(), true, log);
      Transparent(down, log, IsHead(), true);
      if !down.headersDone {
        var head := up.req.msg.isHead;
        match ParseResponse(down.buf + data, head) {
          case Refused(_) =>
            RefuseReply(toClient);
            return false;
          case NeedMore =>
            if eof || |down.buf| + |data| >= SLOT {
              Close();
            } else {
              Wait(data);
            }
            return false;
          case Done(_) =>
            on := ReadHeader(data);
        }
      } else {
        on := ReadBody(data);
      }
      if !on {
        Close();
      }
    }

    method OnReplyBytes(fromUpstream: seq<Read>, eofSeen: bool, toUpstream: seq<Write>, toClient: seq<Write>)
      requires Held() && Valid() && state.Proxying?
      modifies this, mgr, mgr.bufs, mgr.bufs.arena
      ensures Settled() && mgr.Others(this) == old(mgr.Others(this)) && Client() == old(Client()) && !state.Connecting?
      ensures (!state.Reading? ==> Onward(old(log), log)) && pool == old(pool) && Grown(old(past), past, state.Reading?)
      ensures ReplyOutcome(Drained(fromUpstream, Rest(SLOT, |old(down).buf|)), eofSeen, old(up), old(down), old(log), old(keepClient),
                           toUpstream, toClient, Now())
      ensures mgr.reports == if ReplyRefused(fromUpstream, old(up), old(down)) then old(mgr.reports) + [(old(TheLink()), false)]
                             else old(mgr.reports)
      ensures WaitsOn(fromUpstream, eofSeen, old(up), old(down)) ==>
                && state.Proxying?
                && down == old(down).(buf := old(down).buf + Drained(fromUpstream, Rest(SLOT, |old(down).buf|)).data)
    {
      hide Held, Gone, Valid, Midway, Manager.Valid, Manager.Others, Drained, Written, Unwritten, ParseResponse, Replied, ErrorText, Stepped, LastLog;
      DownBound();
      var full, eof, ok := DrainRead(fromUpstream, down.buf, SLOT, eofSeen);
      if !ok {
        Close();
        return;
      }
      var on := TakeReplyBytes(full[|down.buf|..], eof, toClient);
      if !on {
        return;
      }
      if eof {
        EndReply();
      }
      OnwardReply(old(log), full[|old(down).buf|..]);
      ProxyStep(toUpstream, toClient);
    }

    lemma DownBound()
      requires Valid() && state.Proxying?
      ensures |down.buf| <= SLOT && answer.None? && Onward(log, log)
    {
      Transparent(down, log, IsHead(), true);
      SidesApart(up, down, log, ip, IsHead(), true, log);
    }

    lemma SettledLive()
      requires Settled()
      ensures this in mgr.live <==> !state.Closing?
    {
      hide Manager.Valid, Placed, Valid;
    }

    lemma OnwardNow()
      requires Settled()
      ensures !state.Closing? ==> Onward(log, log) && answer.None?
    {
      hide Held, Gone, Outgoing, AllGood, ParseRequest;
      if state.Proxying? {
        Transparent(down, log, IsHead(), true);
      }
    }

    /** Something happened on the upstream's socket. */
    method OnUpstreamEvent(failed: bool, err: bool, eofSeen: bool, fromUpstream: seq<Read>, connects: seq<bool>,
                           toUpstream: seq<Write>, toClient: seq<Write>)
      requires Settled()
      modifies this, mgr, mgr.bufs, mgr.bufs.arena
      ensures Settled() && mgr.Others(this) == old(mgr.Others(this)) && Client() == old(Client())
      ensures !old(state).Closing? ==> Grown(old(past), past, state.Reading? && !old(state).Reading?)
      ensures old(state).Proxying? || (old(state).Connecting? && !failed && !err) ==> pool == old(pool)
      ensures old(state).Closing? ==> unchanged(this) && unchanged(mgr)
      ensures old(state).Reading? ==> state.Reading? && !upstreamOpen && log == old(log) && past == old(past)
      ensures !old(state).Closing? && !state.Reading? ==> Onward(old(log), log)
      ensures old(state).Proxying? && err ==> Silent(Now()) && log == old(log)
      ensures old(state).Proxying? && !err ==>
                && ReplyOutcome(Drained(fromUpstream, Rest(SLOT, |old(down).buf|)), eofSeen, old(up), old(down), old(log),
                                old(keepClient), toUpstream, toClient, Now())
                && mgr.reports == (if ReplyRefused(fromUpstream, old(up), old(down)) then old(mgr.reports) + [(old(TheLink()), false)]
                                   else old(mgr.reports))
                && (WaitsOn(fromUpstream, eofSeen, old(up), old(down)) ==>
                      && state.Proxying?
                      && down == old(down).(buf := old(down).buf + Drained(fromUpstream, Rest(SLOT, |old(down).buf|)).data))
      ensures old(state).Connecting? && (failed || err) ==>
                && old(mgr.reports) + [(old(TheLink()), false)] <= mgr.reports
                && old(up).req.Done?
                && old(Known(mgr.pools, TheLink()))
                && Routed(old(AfterFailure()), old(up).buf, old(up).req.msg, true, old(log).received, old(down),
                          old(log), connects, toUpstream, toClient, Now())
                && (Exact(old(mgr.pools), old(mgr.links), old(TheLink())) ==>
                      (Exact(mgr.pools, mgr.links, old(TheLink())) <==> At(old(mgr.pools), old(TheLink())).active == 0))
      ensures old(state).Connecting? && !failed && !err ==>
                && mgr.reports == old(mgr.reports) + [(old(TheLink()), true)]
                && Stepped(Unwritten(old(up).buf, old(up).off), old(down), old(log), old(keepClient), toUpstream, toClient, Now())
    {
      hide Held, Gone, Manager.Valid, Manager.Others, Outgoing, Incoming, Relaying, NoReply, AllGood, Drained, ParseRequest, ReplyOutcome, Stepped, Routed, ReplyRefused, WaitsOn, Exact, LastLog;
      OnwardNow();
      match state {
        case Connecting =>
          if failed || err {
            OnConnectFailed(connects, toUpstream, toClient);
          } else {
            Establish();
            ProxyStep(toUpstream, toClient);
          }
        case Reading =>
          DropUpstream();
        case Proxying =>
          if err {
            Close();
          } else {
            OnReplyBytes(fromUpstream, eofSeen, toUpstream, toClient);
          }
        case Closing =>
      }
    }

    // ----- a new connection ------------------------------------------------------------------------------

    method WipeSockets()
      modifies `clientOpen, `upstreamOpen, `pool, `be, `attempts, `out, `inn, `established
      ensures !clientOpen && !upstreamOpen && !established && pool.None? && be == out == inn == None && attempts == 0
    {
      clientOpen, upstreamOpen, established := false, false, false;
      pool, be, attempts := None, None, 0;
      out, inn := None, None;
    }

    method WipeExchange()
      modifies `up, `down, `log, `past, `served, `answer, `clientEof
      ensures up == NO_UPLOAD && down == NO_DOWNLOAD && log == NO_LOG && past == [] && served == 0 && answer.None?
    {
      up, down, clientEof, served := NO_UPLOAD, NO_DOWNLOAD, false, 0;
      log, past, answer := NO_LOG, [], None;
    }

    /** The record is wiped and takes a reference to the published router. */
    method Init(frontend: nat, ip: string, router: nat)
      modifies this
      ensures clientOpen && state.Reading? && this.frontend == frontend && this.ip == ip && this.router == Some(router)
      ensures !upstreamOpen && !established && pool.None? && be == out == inn == None && attempts == 0 && keepClient
      ensures up == NO_UPLOAD && down == NO_DOWNLOAD && log == NO_LOG && past == [] && served == 0 && answer.None?
    {
      WipeSockets();
      WipeExchange();
      Greet(frontend, ip, router);
    }

    method Greet(frontend: nat, ip: string, router: nat)
      modifies `clientOpen, `state, `keepClient, `frontend, `ip, `router
      ensures clientOpen && state.Reading? && keepClient
      ensures this.frontend == frontend && this.ip == ip && this.router == Some(router)
    {
      this.frontend, this.ip := frontend, ip;
      clientOpen, state, keepClient := true, Reading, true;
      this.router := Some(router);
    }

    /** Nothing has been received, sent or tried. */
    ghost predicate Untouched()
      reads this
    {
      up == NO_UPLOAD && down == NO_DOWNLOAD && log == NO_LOG && past == [] && attempts == 0 && pool.None? && !upstreamOpen
    }

    /** A buffer to read the first request into; without one the client is told so. */
    method Welcome(registered: bool, toClient: seq<Write>)
      requires Held() && state.Reading? && clientOpen && router.Some? && out.None? && !upstreamOpen && !established
      requires Untouched() && served == 0 && answer.None?
      modifies this, mgr, mgr.bufs, mgr.bufs.arena
      ensures Settled() && mgr.Others(this) == old(mgr.Others(this)) && Client() == old(Client())
      ensures mgr.accepted == old(mgr.accepted)
      ensures if old(mgr.bufs.available) == 0 then Answered(Now(), 503, toClient)
              else if !registered then Silent(Now())
              else
                && state.Reading? && Untouched() && router == old(router) && ip == old(ip) && frontend == old(frontend)
                && mgr.pools == old(mgr.pools) && mgr.routers == old(mgr.routers) && mgr.current == old(mgr.current)
                && mgr.bufs.available == old(mgr.bufs.available) - 1
    {
      hide Held, Gone, Manager.Valid, Manager.Others, Incoming, NoReply, Outgoing, Relaying, Good, ParseRequest, Written, ErrorText, LastLog;
      NothingYet();
      var ok := TakeOutSlot();
      if !ok {
        SendError(503, toClient);
        return;
      }
      if !registered {
        Close();
      }
    }

    method TakeOutSlot() returns (ok: bool)
      requires Held() && out.None?
      modifies `out, mgr`owner, mgr.bufs
      ensures Held() && mgr.Others(this) == old(mgr.Others(this))
      ensures ok == out.Some? && (ok <==> old(mgr.bufs.available) != 0)
      ensures ok ==> mgr.bufs.available == old(mgr.bufs.available) - 1
    {
      hide Manager.Valid, Manager.Others, BuffersOf, Known, LinkOf, Placed;
      var slot := mgr.Borrow(this, OutSide);
      if slot.Some? {
        OutTaken(old(mgr.owner), this, slot.value, inn);
      }
      out := slot;
      return slot.Some?;
    }
  }

  // ----- a run in which the framing is lost ---------------------------------------------------------------

  lemma ReadAtOnce(data: string, room: nat)
    requires data != "" && |data| <= room
    ensures Drained([Bytes(data)], room) == Input(data, false, true)
    ensures Drained([], room) == Input("", false, true)
  {
    assert [Bytes(data)][1..] == [];
    assert data[..|data|] == data;
  }

  lemma WrittenAtOnce(data: string)
    requires data != ""
    ensures Flushed([Took(|data|)], |data|) == Output(|data|, true)
    ensures Unwritten(data, 0) == data && Written([Took(|data|)], data) == data && Emptied([Took(|data|)], data, 0) == ("", 0)
  {
    assert [Took(|data|)][1..] == [];
    assert data[0..] == data && data[..|data|] == data;
  }

  /** Nothing of the response waits and its header is not known. */
  ghost predicate Expecting(c: Conn)
    reads c
  {
    && c.state.Proxying? && !c.down.headersDone && c.down.buf == "" && c.down.off == 0
    && !c.down.complete && !c.down.eof
  }

  /** A first part comes and waits. */
  method PartComes(m: Manager, c: Conn, a: string)
    requires m.All() && c in m.live && Expecting(c) && a != "" && |a| < SLOT
    requires forall head :: ParseResponse(a, head).NeedMore?
    modifies c, m, m.bufs, m.bufs.arena
    ensures m.All() && c in m.live && c.state.Proxying? && c.down == old(c.down).(buf := a)
    ensures c.log == old(c.log).(reply := old(c.log).reply + a) && m.reports == old(m.reports)
  {
    hide Manager.All, Routed, Stepped, LastLog, ParseResponse, Drained;
    ReadAtOnce(a, SLOT);
    assert c.down.buf + a == a;
    m.UpstreamEvent(c, false, false, false, [Bytes(a)], [], [], []);
  }

  /** The client's socket takes all of it, and has nothing to say. */
  method PartGoes(m: Manager, c: Conn)
    requires m.All() && c in m.live && c.state.Proxying? && !c.down.headersDone && !c.down.complete && !c.down.eof
    requires c.down.off == 0 && c.down.buf != ""
    modifies c, m, m.bufs, m.bufs.arena
    ensures m.All() && c in m.live && Expecting(c) && m.reports == old(m.reports)
    ensures c.log.reply == old(c.log).reply && c.log.relayed == old(c.log).relayed + old(c.down).buf && c.log.cut == |c.log.reply|
  {
    hide Manager.All, RequestOutcome, LastLog, Drained, Flushed, Written, Unwritten, Emptied;
    ghost var buf := c.down.buf;
    ReadAtOnce(buf, |buf|);
    NothingRead(Rest(SLOT, |c.up.buf|));
    NothingWritten(Unwritten(c.up.buf, c.up.off) + "");
    WrittenAtOnce(buf);
    m.ClientEvent(c, false, false, [], [], [], [Took(|c.down.buf|)]);
  }

  lemma NothingRead(room: nat)
    ensures Drained([], room) == Input("", false, true)
  {
  }

  lemma NothingWritten(pending: string)
    ensures Flushed([], |pending|) == Output(0, true)
  {
  }

  /** The header of a response comes in two parts, and between them the client's socket has something to
      say, be it nothing at all.  The first part is relayed, the second is refused: the client gets the
      proxy's own 502 inside a response, the server is reported, and the connection ends. */
  method FlushBetweenParts(m: Manager, c: Conn, a: string, b: string)
    requires m.All() && c in m.live && Expecting(c)
    requires a != "" && b != "" && |a| < SLOT && |b| <= SLOT
    requires forall head :: ParseResponse(a, head).NeedMore? && ParseResponse(b, head).Refused?
    modifies c, m, m.bufs, m.bufs.arena
    ensures m.All() && Answered(c.Now(), 502, [])
    ensures c.log.reply == old(c.log).reply + a && c.log.relayed == old(c.log).relayed + a && c.log.cut == |c.log.reply|
    ensures |m.reports| == |old(m.reports)| + 1 && !m.reports[|old(m.reports)|].1
  {
    hide Manager.All, Drained, ErrorText, ParseResponse, LastLog, Routed, Stepped;
    PartComes(m, c, a);
    PartGoes(m, c);
    ReadAtOnce(b, SLOT);
    assert c.down.buf + b == b;
    m.UpstreamEvent(c, false, false, false, [Bytes(b)], [], [], []);
  }

  /** So it goes with an ordinary response, from any state in which `All` holds and one is awaited; such a
      state is soon reached (`ResponseAwaited`). */
  method FlushedHeaderIsLost(m: Manager, c: Conn)
    requires m.All() && c in m.live && Expecting(c)
    modifies c, m, m.bufs, m.bufs.arena
    ensures forall head :: ParseResponse(STATUS + CRLF + (EMPTY + CRLF + CRLF), head).Done?
    ensures m.All() && Answered(c.Now(), 502, []) && c.log.relayed == old(c.log).relayed + STATUS + CRLF
    ensures |m.reports| == |old(m.reports)| + 1 && !m.reports[|old(m.reports)|].1
  {
    hide Manager.All, ErrorText, ParseResponse, LastLog, Expecting;
    forall head
      ensures ParseResponse(STATUS + CRLF, head).NeedMore? && ParseResponse(EMPTY + CRLF + CRLF, head).Refused?
      ensures ParseResponse(STATUS + CRLF + (EMPTY + CRLF + CRLF), head).Done?
    {
      ExampleParts(head);
    }
    FlushBetweenParts(m, c, STATUS + CRLF, EMPTY + CRLF + CRLF);
    assert old(c.log).relayed + (STATUS + CRLF) == old(c.log).relayed + STATUS + CRLF;
  }

  // ----- and how it begins ----------------------------------------------------------------------------------

  lemma {:induction false} JoinBound(lines: seq<string>, n: nat)
    requires forall l <- lines :: |l| <= n
    ensures |Join(lines)| <= |lines| * (n + 2)
  {
    if lines != [] {
      JoinBound(lines[1..], n);
      assert |lines| * (n + 2) == (|lines| - 1) * (n + 2) + (n + 2);
    }
  }

  lemma ExampleHeader()
    ensures |Block(EXAMPLE)| == 27 && HeaderEnd(Block(EXAMPLE)) == 27 && HeaderOf(Block(EXAMPLE)) == EXAMPLE
  {
    assert |Block(EXAMPLE)| == 27;
    hide HeaderEnd, Block;
    BlockEnd(EXAMPLE, "");
    assert Block(EXAMPLE) + "" == Block(EXAMPLE);
    LinesOfBlock(EXAMPLE);
    assert Block(EXAMPLE)[..27] == Block(EXAMPLE);
  }

  lemma NoTrace(ip: string)
    ensures Rewriting.TraceOf(EXAMPLE[1..], ip) == ip
  {
    hide FieldOf, RequestLine, Acceptable, Persistence, LastLength;
    ExampleMeaning();
  }

  /** The example request, rewritten, is a short one. */
  lemma ExampleShort(ip: string)
    requires |ip| < 46
    ensures HeaderEnd(Block(EXAMPLE)) == 27 && |HeaderText(Block(EXAMPLE), ip)| <= 500
  {
    hide HeaderEnd, Rewriting.Kept, Rewriting.Added, Rewriting.TraceOf, Join, HeaderOf;
    ExampleHeader();
    NoTrace(ip);
    KeptShort(EXAMPLE[1..]);
    AddedShort(ip);
    var out := Rewriting.Rewritten(EXAMPLE, ip, "http", true);
    forall l | l in out ensures |l| <= 70 {
    }
    JoinBound(out, 70);
    assert |out| * 72 <= 6 * 72;
  }

  lemma KeptShort(lines: seq<string>)
    requires |lines| == 1
    ensures |Rewriting.Kept(lines)| <= 1 && forall l <- Rewriting.Kept(lines) :: l in lines
  {
    hide Rewriting.Ours;
    assert lines[1..] == [];
  }

  lemma AddedShort(ip: string)
    requires |ip| < 46
    ensures |Rewriting.Added(ip, ip, "http", true)| == 4 && forall l <- Rewriting.Added(ip, ip, "http", true) :: |l| <= 70
  {
  }

  lemma ExampleText()
    ensures 0 < |Block(EXAMPLE)| <= SLOT
  {
  }

  /** Where the example request goes when its host has a route and its pool a server in service: to the
      first server that is tried. */
  lemma ExampleConnects(at: Setting, down: Download, now: Outcome)
    requires |at.ip| < 46 && at.slots > 0 && !at.upstreamOpen && at.attempts == 0
    requires var p := LookUp(at.routers, at.router, at.frontend, "a"); p.Some? && !NobodyUp(at.pools, p.value)
    requires RequestOutcome(at, Input(Block(EXAMPLE), false, true), false, down, NO_LOG, [true], [], [], now)
    ensures now.state.Connecting? && now.log == NO_LOG.(received := Block(EXAMPLE), rewrites := 1)
    ensures now.pool == LookUp(at.routers, at.router, at.frontend, "a")
  {
    hide LookUp, NobodyUp, ParseRequest, Obstacle, Block;
    var text := Block(EXAMPLE);
    ExampleRequest("");
    assert text + "" == text && "" + text == text;
    ExamplePasses(at.ip, at.slots);
    assert Connects([true], 0);
  }

  lemma ExamplePasses(ip: string, slots: int)
    requires |ip| < 46 && slots > 0
    ensures Obstacle(Block(EXAMPLE), Request(27, "a", 1, true, false, false, NoBody, 0), ip, slots) == 0
  {
    hide HeaderText, Block;
    ExampleHeader();
    ExampleShort(ip);
    assert Block(EXAMPLE)[27..] == "";
  }

  /** The rewritten example is written at once, and there is nothing to relay. */
  lemma SentAtOnce(pending: string, down: Download, before: Log, now: Outcome)
    requires pending != "" && NoReply(down, before) && before.sent == ""
    requires exists keep :: Stepped(pending, down, before, keep, [Took(|pending|)], [], now)
    ensures now.state.Proxying? && now.log == before.(sent := pending)
  {
    hide Flushed;
    WrittenAtOnce(pending);
    NothingWritten("");
  }

  /** The configuration has a route for the example request, and its pool a server in service. */
  ghost predicate Reachable(routers: seq<Router>, router: nat, frontend: nat, pools: Pools) {
    var p := LookUp(routers, Some(router), frontend, "a");
    p.Some? && !NobodyUp(pools, p.value)
  }

  /** A client sends the example request, and a socket is on its way to a server. */
  method RequestComes(m: Manager, c: Conn)
    requires m.All() && c in m.live && c.state.Reading? && c.Untouched() && |c.ip| < 46 && m.bufs.available > 0
    requires c.router.Some? && Reachable(m.routers, c.router.value, c.frontend, m.pools)
    modifies c, m, m.bufs, m.bufs.arena
    ensures m.All() && c in m.live && c.state.Connecting? && m.live - {c} == old(m.live) - {c}
    ensures c.log == NO_LOG.(received := Block(EXAMPLE), rewrites := 1) && c.past == old(c.past)
    ensures c.Client() == old(c.Client()) && m.routers == old(m.routers)
    ensures c.pool == LookUp(m.routers, old(c.router), c.frontend, "a")
  {
    ghost var here := c.Here();
    assert c.mgr == m by { m.Theirs(c); }
    ExampleText();
    ReadAtOnce(Block(EXAMPLE), SLOT);
    hide Manager.All, RequestOutcome, LookUp, NobodyUp, LastLog, Drained, Routed, Block;
    m.ClientEvent(c, false, false, [Bytes(Block(EXAMPLE))], [true], [], []);
    ExampleConnects(here, NO_DOWNLOAD, c.Now());
  }

  /** The socket gets through, and the request goes out at once. */
  method RequestGoes(m: Manager, c: Conn)
    requires m.All() && c in m.live && c.state.Connecting?
    modifies c, m, m.bufs, m.bufs.arena
    ensures m.All() && c in m.live && Expecting(c) && c.log.reply == c.log.relayed == ""
    ensures c.log == old(c.log).(sent := ForUpstream(c.log.received, c.ip)) && c.log.sent != "" && m.live - {c} == old(m.live) - {c}
    ensures c.past == old(c.past) && c.Client() == old(c.Client()) && m.routers == old(m.routers) && c.pool == old(c.pool)
  {
    hide Manager.All, Routed, LastLog, Drained, Stepped, ForUpstream, Unwritten;
    m.WhileConnecting(c);
    ghost var before, down, pending := c.log, c.down, Unwritten(c.up.buf, c.up.off);
    m.UpstreamEvent(c, false, false, false, [], [], [Took(|c.up.buf|)], []);
    SentAtOnce(pending, down, before, c.Now());
    m.NothingBack(c);
  }

  /** From the start: a client connects, sends the example request, and the connect to a server
      succeeds.  Then a response is awaited, and nothing of it has come. */
  method ResponseAwaited(bufs: BufferPool, first: Router, pools: Pools, frontend: nat, ip: string) returns (m: Manager, c: Conn)
    requires bufs.Valid() && bufs.loaned == {} && bufs.available >= 2 && Configured([first], pools) && PoolsValid(pools)
    requires forall p, i :: p in pools && 0 <= i < |pools[p].backends| ==> pools[p].backends[i].active == 0
    requires Reachable([first], 0, frontend, pools) && |ip| < 46
    modifies bufs, bufs.arena
    ensures m.All() && fresh(m) && fresh(c) && m.bufs == bufs && m.live == {c} && Expecting(c) && c.past == []
    ensures c.log == NO_LOG.(received := Block(EXAMPLE), rewrites := 1, sent := ForUpstream(Block(EXAMPLE), ip))
    ensures c.log.sent != "" && c.Client() == (frontend, ip)
    ensures m.routers == [first] && c.pool == LookUp([first], Some(0), frontend, "a")
  {
    hide Manager.All, Reachable, LookUp, ForUpstream, Block, Expecting, Configured;
    m, c := FirstClient(bufs, first, pools, frontend, ip);
    assert m.live - {c} == {};
    RequestComes(m, c);
    RequestGoes(m, c);
    assert m.live == {c};
  }

  method FirstClient(bufs: BufferPool, first: Router, pools: Pools, frontend: nat, ip: string) returns (m: Manager, c: Conn)
    requires bufs.Valid() && bufs.loaned == {} && bufs.available >= 2 && Configured([first], pools) && PoolsValid(pools)
    requires forall p, i :: p in pools && 0 <= i < |pools[p].backends| ==> pools[p].backends[i].active == 0
    modifies bufs, bufs.arena
    ensures m.All() && fresh(m) && fresh(c) && m.bufs == bufs && m.live == {c} && m.routers == [first] && m.pools == pools
    ensures c.state.Reading? && c.Untouched() && c.Client() == (frontend, ip) && c.router == Some(0) && m.bufs.available > 0
  {
    m := new Manager(bufs, first, pools);
    hide Manager.All, ErrorText;
    c := m.Accept(frontend, ip, true, []);
    assert m.live == {c};
  }

  /** The whole run: six events from the start to a 502 inside a response. */
  method FramingLostFromTheStart(bufs: BufferPool, first: Router, pools: Pools, frontend: nat, ip: string)
      returns (m: Manager, c: Conn)
    requires bufs.Valid() && bufs.loaned == {} && bufs.available >= 2 && Configured([first], pools) && PoolsValid(pools)
    requires forall p, i :: p in pools && 0 <= i < |pools[p].backends| ==> pools[p].backends[i].active == 0
    requires Reachable([first], 0, frontend, pools) && |ip| < 46
    modifies bufs, bufs.arena
    ensures m.All() && Answered(c.Now(), 502, []) && c.log.relayed == STATUS + CRLF
    ensures forall head :: ParseResponse(STATUS + CRLF + (EMPTY + CRLF + CRLF), head).Done?
  {
    hide Manager.All, Reachable, ErrorText, Expecting, ParseResponse;
    m, c := ResponseAwaited(bufs, first, pools, frontend, ip);
    FlushedHeaderIsLost(m, c);
    assert "" + STATUS + CRLF == STATUS + CRLF;
  }
}
