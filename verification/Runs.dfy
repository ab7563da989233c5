/** Whole runs of a connection: one exchange after another over the same two sockets. */
module Runs {
  import opened Text
  import opened HttpParser
  import opened HttpResponses
  import opened Relay
  import opened Ledgers
  import opened Exchanges
  import opened BufferPools
  import opened Connections
  import Body = Chunked
  import Rewriting
  import Routing = RouteTables
  import Wording

  /** The example request has gone out whole, and nothing has come back. */
  ghost predicate Waiting(c: Conn)
    reads c
  {
    && Expecting(c) && c.log.received == Block(EXAMPLE) && c.log.sent == ForUpstream(Block(EXAMPLE), c.ip)
    && c.log.reply == c.log.relayed == "" && c.log.cut == 0
  }

  lemma WhileWaiting(m: Manager, c: Conn)
    requires m.All() && c in m.live && Waiting(c)
    ensures c.mgr == m && c.up.req == Done(Request(27, "a", 1, true, false, false, NoBody, 0)) && c.keepClient
    ensures Unwritten(c.up.buf, c.up.off) == ""
  {
    hide ParseRequest, ParseResponse, ForUpstream, Conn.Listed, Conn.Placed, Block, Manager.Valid;
    assert m.InOrder(c);
    ExampleRequest("");
    assert Block(EXAMPLE) + "" == Block(EXAMPLE);
  }

  /** A response that is whole and lets its connection live. */
  ghost predicate Whole(reply: string) {
    && reply != "" && |reply| <= SLOT && ParseResponse(reply, false).Done?
    && ParseResponse(reply, false).msg.keepAlive && !ParseResponse(reply, false).msg.mode.UntilClose?
    && ReplyReached(reply, false, false)
  }

  /** Its header and its body are taken in at once. */
  lemma WholeReplied(down: Download, reply: string) returns (after: Download)
    requires !down.headersDone && down.buf == "" && Whole(reply)
    ensures Replied(down, reply, false) == Some(after)
    ensures after.complete && after.buf == reply && after.off == down.off && after.eof == down.eof
    ensures after.resp == ParseResponse(reply, false)
  {
    hide ParseResponse, Body.Run;
    assert "" + reply == reply;
    var r := ParseResponse(reply, false).msg;
    Body.DoneWithoutError(Body.START, reply[r.headerLen..]);
    after := Feed(Started(down, reply, r), reply[r.headerLen..]).value;
  }

  /** The upstream sends a whole response, and the client's socket takes all of it: the exchange is
      finished, and both connections live on. */
  method ServeOne(m: Manager, c: Conn, reply: string)
    requires m.All() && c in m.live && Waiting(c) && Whole(reply)
    modifies c, m, m.bufs, m.bufs.arena
    ensures m.All() && c in m.live && m.live - {c} == old(m.live) - {c} && c.state.Reading? && c.upstreamOpen && c.log == NO_LOG
    ensures |c.past| == |old(c.past)| + 1 && c.past[..|old(c.past)|] == old(c.past)
    ensures var e := c.past[|old(c.past)|].log;
            e.received == Block(EXAMPLE) && e.sent == ForUpstream(Block(EXAMPLE), old(c.ip)) && e.relayed == e.reply == reply
    ensures c.Client() == old(c.Client()) && m.routers == old(m.routers) && c.pool == old(c.pool) && m.reports == old(m.reports)
  {
    hide Manager.All, ReplyReached, ParseResponse, ParseRequest, Block, ForUpstream, Routed, Drained, Flushed;
    WhileWaiting(m, c);
    ghost var up, down, before := c.up, c.down, c.log;
    ReadAtOnce(reply, SLOT);
    m.UpstreamEvent(c, false, false, false, [Bytes(reply)], [], [], [Took(|reply|)]);
    Served(up, down, before, reply, c.Now());
  }

  lemma Served(up: Upload, down: Download, before: Log, reply: string, now: Outcome)
    requires up.req == Done(Request(27, "a", 1, true, false, false, NoBody, 0)) && Unwritten(up.buf, up.off) == ""
    requires !down.headersDone && down.buf == "" && down.off == 0 && !down.eof && Whole(reply)
    requires ReplyOutcome(Input(reply, false, true), false, up, down, before, true, [], [Took(|reply|)], now)
    ensures now.state.Reading? && now.open && now.log == NO_LOG
    ensures now.last == before.(reply := before.reply + reply, relayed := before.relayed + reply, cut := now.last.cut)
  {
    hide Flushed, ParseResponse, Replied, Emptied, ReplyReached;
    var after := WholeReplied(down, reply);
    assert "" + reply == reply;
    NothingWritten("");
    WrittenAtOnce(reply);
  }

  lemma WhileReading(m: Manager, c: Conn)
    requires m.All() && c in m.live && c.state.Reading? && c.log == NO_LOG
    ensures c.mgr == m && c.up.buf == "" && NoReply(c.down, NO_LOG)
  {
    hide ParseRequest, Conn.Listed, Conn.Placed, Manager.Valid;
    assert m.InOrder(c);
  }

  /** The example request again, while the connection to its pool is open: it goes out over that one. */
  lemma SentAgain(at: Setting, down: Download, now: Outcome)
    requires |at.ip| < 46 && at.slots > 0 && at.upstreamOpen && NoReply(down, NO_LOG)
    requires at.pool.Some? && LookUp(at.routers, at.router, at.frontend, "a") == at.pool
    requires ForUpstream(Block(EXAMPLE), at.ip) != ""
    requires RequestOutcome(at, Input(Block(EXAMPLE), false, true), false, down, NO_LOG, [],
                            [Took(|ForUpstream(Block(EXAMPLE), at.ip)|)], [], now)
    ensures now.state.Proxying? && now.pool == at.pool
    ensures now.log == NO_LOG.(received := Block(EXAMPLE), rewrites := 1, sent := ForUpstream(Block(EXAMPLE), at.ip))
  {
    hide LookUp, NobodyUp, ParseRequest, Obstacle, Block, ForUpstream, Stepped, Tried;
    var text := Block(EXAMPLE);
    ExampleRequest("");
    assert text + "" == text && "" + text == text;
    ExamplePasses(at.ip, at.slots);
    var before := NO_LOG.(received := text, rewrites := 1);
    assert Stepped(ForUpstream(text, at.ip), down, before, true, [Took(|ForUpstream(text, at.ip)|)], [], now);
    SentAtOnce(ForUpstream(text, at.ip), down, before, now);
  }

  /** A second request on the same connections; no new socket could be opened. */
  method AskAgain(m: Manager, c: Conn)
    requires m.All() && c in m.live && c.state.Reading? && c.upstreamOpen && c.log == NO_LOG && |c.ip| < 46 && m.bufs.available > 0
    requires c.pool.Some? && c.pool == LookUp(m.routers, Some(c.pool.value.router), c.frontend, "a")
    modifies c, m, m.bufs, m.bufs.arena
    ensures m.All() && c in m.live && m.live - {c} == old(m.live) - {c} && Waiting(c) && c.past == old(c.past)
    ensures c.Client() == old(c.Client()) && m.routers == old(m.routers) && c.pool == old(c.pool)
  {
    hide Manager.All, LookUp, ForUpstream, Block, RequestOutcome, Drained, NoReply, ParseRequest;
    WhileReading(m, c);
    SameRouter(m, c);
    ghost var here, down := c.Here(), c.down;
    ExampleText();
    ReadAtOnce(Block(EXAMPLE), SLOT);
    assert ForUpstream(Block(EXAMPLE), c.ip) != "" by { SomethingAgain(c.ip); }
    m.ClientEvent(c, false, false, [Bytes(Block(EXAMPLE))], [], [Took(|ForUpstream(Block(EXAMPLE), c.ip)|)], []);
    SentAgain(here, down, c.Now());
    m.NothingBack(c);
  }

  lemma SameRouter(m: Manager, c: Conn)
    requires m.All() && c in m.live && c.pool.Some?
    ensures c.router == Some(c.pool.value.router)
  {
    hide Conn.Listed, Conn.Valid, Manager.Valid;
    assert m.InOrder(c);
  }

  lemma SomethingAgain(ip: string)
    ensures ForUpstream(Block(EXAMPLE), ip) != ""
  {
    hide ParseRequest, Block;
    ExampleRequest("");
    assert Block(EXAMPLE) + "" == Block(EXAMPLE);
    SomethingForUpstream(Block(EXAMPLE), ip);
  }

  lemma OwnRouter(routers: seq<Router>, router: nat, frontend: nat, host: string)
    ensures var p := LookUp(routers, Some(router), frontend, host); p.Some? ==> p.value.router == router
  {
  }

  lemma RoomForOne(m: Manager, c: Conn)
    requires m.All() && m.live == {c} && m.bufs.capacity >= 3
    ensures m.bufs.available > 0
  {
    hide Manager.All;
    m.SlotsConserved();
    var inns := set d | d in m.live && d.inn.Some?;
    Smaller(inns, c);
  }

  lemma Smaller(s: set<Conn>, c: Conn)
    requires s <= {c}
    ensures |s| <= 1
  {
    if c in s {
      assert s == {c};
    } else {
      assert s == {};
    }
  }

  /** The exchanges so far, and the responses the client got. */
  ghost predicate Relayed(past: seq<Exchange>, replies: seq<string>, ip: string) {
    |past| == |replies| && forall k :: 0 <= k < |replies| ==> RelayedOne(past[k], replies[k], ip)
  }

  ghost predicate RelayedOne(e: Exchange, reply: string, ip: string) {
    e.log.relayed == reply && e.log.received == Block(EXAMPLE) && e.log.sent == ForUpstream(Block(EXAMPLE), ip)
  }

  /** From the start to the end of a first exchange. */
  method OneExchange(bufs: BufferPool, first: Router, pools: Pools, frontend: nat, ip: string, reply: string)
      returns (m: Manager, c: Conn)
    requires bufs.Valid() && bufs.loaned == {} && bufs.available >= 2 && Configured([first], pools) && PoolsValid(pools)
    requires forall p, i :: p in pools && 0 <= i < |pools[p].backends| ==> pools[p].backends[i].active == 0
    requires Reachable([first], 0, frontend, pools) && |ip| < 46 && Whole(reply)
    modifies bufs, bufs.arena
    ensures m.All() && fresh(m) && fresh(c) && m.bufs == bufs && m.live == {c} && m.routers == [first]
    ensures c.state.Reading? && c.upstreamOpen && c.log == NO_LOG && c.Client() == (frontend, ip)
    ensures |c.past| == 1 && RelayedOne(c.past[0], reply, ip)
    ensures c.pool == LookUp([first], Some(0), frontend, "a")
  {
    hide Manager.All, LookUp, NobodyUp, ForUpstream, Block, Configured, Whole, Expecting;
    m, c := ResponseAwaited(bufs, first, pools, frontend, ip);
    assert m.live - {c} == {};
    ServeOne(m, c, reply);
    assert m.live == {c};
  }

  /** Between two exchanges: both connections are open, and the pool is still the one of the request. */
  ghost predicate Between(m: Manager, c: Conn, frontend: nat, ip: string)
    reads m, m.bufs, c
  {
    && m.live == {c} && m.bufs.capacity >= 3 && c.Client() == (frontend, ip) && |ip| < 46
    && c.state.Reading? && c.upstreamOpen && c.log == NO_LOG
    && c.pool.Some? && c.pool.value.router == 0 && c.pool == LookUp(m.routers, Some(0), frontend, "a")
  }

  lemma OneMoreRelayed(before: seq<Exchange>, after: seq<Exchange>, replies: seq<string>, reply: string, ip: string)
    requires Relayed(before, replies, ip) && |after| == |before| + 1 && after[..|before|] == before
    requires RelayedOne(after[|before|], reply, ip)
    ensures Relayed(after, replies + [reply], ip)
  {
    hide RelayedOne;
    forall k | 0 <= k < |replies| ensures RelayedOne(after[k], replies[k], ip) {
      assert after[k] == before[k];
    }
  }

  /** One exchange more. */
  method ServeAgain(m: Manager, c: Conn, frontend: nat, ip: string, reply: string)
    requires m.All() && Between(m, c, frontend, ip) && Whole(reply)
    modifies c, m, m.bufs, m.bufs.arena
    ensures m.All() && Between(m, c, frontend, ip)
    ensures |c.past| == |old(c.past)| + 1 && c.past[..|old(c.past)|] == old(c.past)
    ensures RelayedOne(c.past[|old(c.past)|], reply, ip)
  {
    hide Manager.All, LookUp, ForUpstream, Block, Whole, Waiting;
    RoomForOne(m, c);
    assert m.live - {c} == {};
    AskAgain(m, c);
    ServeOne(m, c, reply);
    assert m.live == {c};
  }

  /** From the start: one client sends any number of requests, one after the other, and gets all the
      responses, in order and byte for byte, over one connection of its own and one to a server. */
  method ManyExchanges(bufs: BufferPool, first: Router, pools: Pools, frontend: nat, ip: string, replies: seq<string>)
      returns (m: Manager, c: Conn)
    requires bufs.Valid() && bufs.loaned == {} && bufs.available >= 2 && bufs.capacity >= 3
    requires Configured([first], pools) && PoolsValid(pools)
    requires forall p, i :: p in pools && 0 <= i < |pools[p].backends| ==> pools[p].backends[i].active == 0
    requires Reachable([first], 0, frontend, pools) && |ip| < 46
    requires replies != [] && forall k :: 0 <= k < |replies| ==> Whole(replies[k])
    modifies bufs, bufs.arena
    ensures m.All() && c in m.live && c.state.Reading? && c.upstreamOpen && Relayed(c.past, replies, ip)
  {
    hide Manager.All, LookUp, NobodyUp, ForUpstream, Block, Configured, Whole, PoolsValid;
    m, c := OneExchange(bufs, first, pools, frontend, ip, replies[0]);
    OwnRouter([first], 0, frontend, "a");
    assert replies[..1] == [replies[0]];
    assert Relayed(c.past, replies[..1], ip);
    hide Reachable, RelayedOne;
    for k := 1 to |replies|
      invariant fresh(m) && fresh(c) && m.bufs == bufs && m.All() && Between(m, c, frontend, ip)
      invariant Relayed(c.past, replies[..k], ip)
    {
      ghost var before := c.past;
      ServeAgain(m, c, frontend, ip, replies[k]);
      OneMoreRelayed(before, c.past, replies[..k], replies[k], ip);
      assert replies[..k + 1] == replies[..k] + [replies[k]];
    }
    assert replies[..|replies|] == replies;
  }

  // ----- short responses ------------------------------------------------------------------------------

  const NO_BYTES := "Content-Length: 0"
  const LAST := "Connection: close"

  lemma LengthLine()
    ensures FieldOf(NO_BYTES) == Field(ContentLength, "0", Free) && NoCrlf(NO_BYTES)
  {
    hide NameOf, TokenOf, FieldOf, NoCrlf;
    assert Rewriting.Tidy("0") by { TidyZero(); }
    LengthWritten();
    LengthSpelled();
    Rewriting.AddedField("Content-Length", "0");
  }

  lemma LengthWritten()
    ensures Rewriting.Line("Content-Length", "0") == NO_BYTES
    ensures ':' !in "Content-Length" && '\r' !in "Content-Length" && '\n' !in "Content-Length"
  {
  }

  lemma LastWritten()
    ensures Rewriting.Line("Connection", "close") == LAST
    ensures ':' !in "Connection" && '\r' !in "Connection" && '\n' !in "Connection" && Rewriting.Tidy("close")
  {
  }

  lemma TidyZero()
    ensures Rewriting.Tidy("0") && ParseDec("0") == Some(0)
  {
  }

  lemma LengthSpelled()
    ensures NameOf("Content-Length") == ContentLength && TokenOf("0") == Free
  {
    hide IEq;
    Rewriting.Differ("Content-Length", "host", 0);
    Rewriting.Differ("Content-Length", "connection", 2);
    Rewriting.Differ("Content-Length", "x-forwarded-for", 0);
    Rewriting.Agree("Content-Length", "content-length");
    Rewriting.Differ("0", "close", 0);
    Rewriting.Differ("0", "keep-alive", 0);
    Rewriting.Differ("0", "chunked", 0);
  }

  lemma LastLine()
    ensures FieldOf(LAST) == Field(Connection, "close", Close) && NoCrlf(LAST)
  {
    hide NameOf, TokenOf, FieldOf, NoCrlf, Rewriting.Tidy;
    LastWritten();
    Rewriting.ConnectionWritten();
    Rewriting.AddedField("Connection", "close");
  }

  function ShortLines(status: string, last: bool): seq<string> {
    if last then [status, NO_BYTES, LAST] else [status, NO_BYTES]
  }

  /** A status line and an empty body, and perhaps the end of the connection. */
  lemma ShortResponse(status: string, code: int, last: bool, head: bool)
    requires StatusLine(status) == Some((1, code)) && NoCrlf(status)
    ensures var reply := Block(ShortLines(status, last));
            ParseResponse(reply, head) == Done(Response(|reply|, code, 1, if Bodyless(head, code) then NoBody else Length, 0, !last))
  {
    TidyZero();
    hide FieldOf, StatusLine, HeaderEnd, HeaderOf, Block, ParseDec, NoCrlf;
    var ls := ShortLines(status, last);
    LengthLine();
    LastLine();
    assert status != "" by { NotEmpty(status); }
    OnlyHeader(ls);
    ShortFields(FieldsOf(ls[1..]), last);
  }

  lemma OnlyHeader(ls: seq<string>)
    requires HeaderLines(ls)
    ensures HeaderEnd(Block(ls)) == |Block(ls)| != 0 && HeaderOf(Block(ls)) == ls
  {
    hide HeaderEnd, Lines, NoCrlf;
    var buf := Block(ls);
    assert |buf| >= 2;
    hide Block;
    BlockEnd(ls, "");
    assert buf + "" == buf && buf[..|buf|] == buf;
    LinesOfBlock(ls);
  }

  lemma NotEmpty(status: string)
    requires StatusLine(status).Some?
    ensures status != ""
  {
  }

  lemma OneShortField()
    ensures var one := [Field(ContentLength, "0", Free)];
            && Values(one, ContentLength) == ["0"] && Persistence(one, true)
            && LastOf(one, TransferEncoding).None? && LastOf(one, ContentLength) == Some(one[0])
  {
    var one := [Field(ContentLength, "0", Free)];
    assert one[1..] == [] && one[..0] == [];
  }

  lemma ShortFields(fields: seq<Field>, last: bool)
    requires fields == [Field(ContentLength, "0", Free)] + if last then [Field(Connection, "close", Close)] else []
    ensures Values(fields, ContentLength) == ["0"] && LastLength(["0"]) == 0
    ensures Persistence(fields, true) == !last
    ensures LastOf(fields, TransferEncoding).None? && LastOf(fields, ContentLength) == Some(Field(ContentLength, "0", Free))
  {
    TidyZero();
    OneShortField();
    hide FieldOf, ParseDec, Values;
    var one := [Field(ContentLength, "0", Free)];
    if last {
      ValuesSnoc(one, Field(Connection, "close", Close), ContentLength);
      assert fields[..1] == one;
    } else {
      assert fields == one;
    }
  }

  /** The answer of the proxy itself, parsed: its code, no body, and the end of the connection. */
  lemma ErrorParsed(code: int, head: bool)
    requires code == 400 || code == 431 || code == 502 || code == 503 || code == 505
    ensures ParseResponse(ErrorText(code), head) ==
            Done(Response(|ErrorText(code)|, code, 1, if head then NoBody else Length, 0, false))
  {
    hide StatusLine, ParseResponse, NoCrlf, Block, ShortLines, ErrorText;
    var status := ErrorStatus(code);
    ShortResponse(status, code, true, head);
    ShortText(status);
  }

  lemma ErrorStatus(code: int) returns (status: string)
    requires code == 400 || code == 431 || code == 502 || code == 503 || code == 505
    ensures StatusLine(status) == Some((1, code)) && NoCrlf(status)
    ensures ErrorText(code) == status + "\r\n" + "Content-Length: 0\r\nConnection: close\r\n\r\n"
  {
    hide StatusLine, NoCrlf;
    Reasons();
    match code {
      case 400 => status := OneStatus("400 Bad Request", 4, 0, 0);
      case 431 => status := OneStatus("431 Request Header Fields Too Large", 4, 3, 1);
      case 502 => status := OneStatus("502 Bad Gateway", 5, 0, 2);
      case 503 => status := OneStatus("503 Service Unavailable", 5, 0, 3);
      case _ => status := OneStatus("505 HTTP Version Not Supported", 5, 0, 5);
    }
  }

  lemma Reasons()
    ensures var r := "400 Bad Request"; |r| >= 3 && '\r' !in r && r[0] == '4' && r[1] == '0' && r[2] == '0'
    ensures var r := "431 Request Header Fields Too Large"; |r| >= 3 && '\r' !in r && r[0] == '4' && r[1] == '3' && r[2] == '1'
    ensures var r := "502 Bad Gateway"; |r| >= 3 && '\r' !in r && r[0] == '5' && r[1] == '0' && r[2] == '2'
    ensures var r := "503 Service Unavailable"; |r| >= 3 && '\r' !in r && r[0] == '5' && r[1] == '0' && r[2] == '3'
    ensures var r := "505 HTTP Version Not Supported"; |r| >= 3 && '\r' !in r && r[0] == '5' && r[1] == '0' && r[2] == '5'
  {
  }

  lemma OneStatus(reason: string, a: nat, b: nat, c: nat) returns (status: string)
    requires 1 <= a <= 5 && b < 10 && c < 10 && |reason| >= 3 && '\r' !in reason
    requires reason[0] == "0123456789"[a] && reason[1] == "0123456789"[b] && reason[2] == "0123456789"[c]
    ensures status == "HTTP/1.1 " + reason && StatusLine(status) == Some((1, 100 * a + 10 * b + c)) && NoCrlf(status)
  {
    status := "HTTP/1.1 " + reason;
    assert status == "HTTP/1." + ['1', ' ', "0123456789"[a], "0123456789"[b], "0123456789"[c]] + reason[3..];
    Wording.StatusRead('1', ' ', a, b, c, reason[3..]);
    assert '\r' !in status;
  }

  lemma ShortText(status: string)
    ensures Block(ShortLines(status, true)) == status + "\r\n" + "Content-Length: 0\r\nConnection: close\r\n\r\n"
  {
    Rewriting.JoinOne(LAST, []);
    Rewriting.JoinOne(NO_BYTES, [LAST]);
    Rewriting.JoinOne(status, [NO_BYTES, LAST]);
    hide Join;
    assert [LAST] + [] == [LAST] && [NO_BYTES] + [LAST] == [NO_BYTES, LAST];
    assert [status] + [NO_BYTES, LAST] == [status, NO_BYTES, LAST];
    NothingJoined();
  }

  lemma NothingJoined()
    ensures Join([]) == ""
  {
  }

  lemma ShorterText(status: string)
    ensures Block(ShortLines(status, false)) == status + "\r\n" + "Content-Length: 0\r\n\r\n"
  {
    Rewriting.JoinOne(NO_BYTES, []);
    Rewriting.JoinOne(status, [NO_BYTES]);
    hide Join;
    assert [NO_BYTES] + [] == [NO_BYTES] && [status] + [NO_BYTES] == [status, NO_BYTES];
    NothingJoined();
  }

  /** A response with a status line and an empty body is whole. */
  lemma ExampleWhole()
    ensures Whole("HTTP/1.1 200 OK" + "\r\n" + "Content-Length: 0\r\n\r\n")
  {
    hide ParseResponse, StatusLine;
    ExampleStatus();
    ShortResponse(STATUS, 200, false, false);
    ShorterText(STATUS);
    var reply := Block(ShortLines(STATUS, false));
    assert reply[|reply|..] == "";
  }

  // ----- what goes upstream -----------------------------------------------------------------------------

  /** The bytes a server gets for a request, line by line: the first line as it came, the lines passed on in
      order, four lines of the proxy, and every byte behind the client's header. */
  lemma SentLineByLine(received: string, ip: string) returns (at: seq<nat>, trace: string)
    requires ParseRequest(received).Done? && Rewriting.Plain(ip)
    ensures HeaderEnd(received) != 0 && HeaderEnd(ForUpstream(received, ip)) != 0 && HeaderOf(received) != []
    ensures Wording.PassedOn(HeaderOf(received)[1..], at) && Wording.TraceIs(HeaderOf(received)[1..], ip, trace)
    ensures var out := ForUpstream(received, ip); var before, after := HeaderOf(received), HeaderOf(ForUpstream(received, ip));
            && out[HeaderEnd(out)..] == received[HeaderEnd(received)..]
            && |after| == 1 + |at| + 4 && after[0] == before[0]
            && (forall i :: 0 <= i < |at| ==> after[1 + i] == before[1 + at[i]])
            && after[1 + |at|..] == ["X-Forwarded-For: " + trace, "X-Forwarded-Proto: http", "X-Real-IP: " + ip, "Connection: keep-alive"]
  {
    hide ParseRequest, HeaderEnd, HeaderOf, Rewriting.RewrittenText, Rewriting.Plain, Wording.PassedOn, Wording.TraceIs;
    Rewriting.DoneHasHeader(received);
    HttpPlain();
    at, trace := Wording.RewrittenExactly(received, received[HeaderEnd(received)..], ip, "http", true);
    var out := ForUpstream(received, ip);
    assert "X-Forwarded-Proto: " + "http" == "X-Forwarded-Proto: http";
  }

  // ----- where requests go, and what stops them ---------------------------------------------------------

  /** Each frontend has its own routes: a plain name leads to the pool that the route of this router and
      this frontend names. */
  lemma OwnRoutes(routers: seq<Router>, router: nat, frontend: nat, route: Routing.Route)
    requires router < |routers| && frontend < |routers[router].frontends|
    requires var routes := routers[router].frontends[frontend]; Routing.Checked(routes) && route in routes
    requires route.host != "default" && !Routing.Wild(route.host) && Routing.Plain(route.host)
    ensures LookUp(routers, Some(router), frontend, route.host) == Some(PoolId(router, route.target))
  {
    hide Routing.Resolve;
    Routing.PlainNameAnswers(routers[router].frontends[frontend], route);
  }

  /** What stops a request that has been parsed: no slot, 503; more than a buffer of 16384 bytes once it is
      rewritten, 431; a malformed chunked body, 400; and nothing else. */
  lemma StoppedExactly(buf: string, ip: string, slots: int)
    requires ParseRequest(buf).Done?
    ensures var r, code := ParseRequest(buf).msg, Obstacle(buf, ParseRequest(buf).msg, ip, slots);
            var large := |ForUpstream(buf, ip)| > 16384;
            && r.headerLen <= |buf|
            && (code == 503 <==> slots == 0)
            && (code == 431 <==> slots != 0 && large)
            && (code == 400 <==> slots != 0 && !large && r.mode.ChunkedCoding? && Body.Run(Body.START, buf[r.headerLen..]).0.error)
            && (code == 0 <==> slots != 0 && !large && !(r.mode.ChunkedCoding? && Body.Run(Body.START, buf[r.headerLen..]).0.error))
  {
    hide ParseRequest, Body.Run, Rewriting.RewrittenText;
    RequestModes(buf);
    Rewriting.DoneHasHeader(buf);
  }
}
