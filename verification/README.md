# A model of the L7 reverse proxy

The proxy relays HTTP/1.x between clients and pools of servers from one event loop, with a second
thread that probes the servers and a third that writes the log. This project models the parts of it
that decide whether bytes arrive where they should, and proves what they promise.

* `Text.dfy`, `HttpParser.dfy`, `HttpResponse.dfy`: the header parsers. What a header means is said
  about the list of its lines; the parsers are the loops that fill a record in place, proved to compute
  that meaning on every prefix of every stream.
* `Rewrite.dfy`: the header that goes upstream, as lines and as the loop that appends to a buffer.
* `Wording.dfy`: what the parsers accept and the rewriter writes, letter by letter, by the literal names and
  values of the protocol.
* `Chunked.dfy`: the incremental scanner for chunked bodies.
* `BufferPool.dfy`: the arena with its intrusive free list.
* `BackendPool.dfy`, `Health.dfy`: balancing, and the two writers of a server's health.
* `RouteTable.dfy`: the Host index against a plain search.
* `Relay.dfy`, `Exchange.dfy`, `Ledger.dfy`, `Connection.dfy`: a connection from `accept` to the end of
  its last exchange, with the slots, servers and routers it borrows, composed from the parts above.
* `Runs.dfy`: whole runs of a connection from the start, exchange after exchange.
* `RouterLifetime.dfy`, `LogRing.dfy`: the two concurrent protocols, one load or store a step.

## How it is built

A class stands for a record that the source updates in place, and its methods are proved against
functions of their inputs and of the old state. The concurrent protocols are state machines; their
theorems are about every run, that is, every interleaving. A socket is a script of the results of
successive calls (bytes, interrupted, would block, end, failure; a short write, a failure), and every
statement about a connection holds for all scripts.

`Connections.Manager.All` is the invariant of the whole proxy between two events: the manager's
accounts are right, and every live connection is `Valid`. Every event handler (accept, client, upstream,
probe result, reload) starts from `All` and re-establishes it, so it holds in every run. `Valid` is
written with histories of the bytes that passed: for a request on its way, what was sent plus what waits
is the rewritten header followed by exactly the client bytes after the original one, and the counters
agree with the body so far; for a response, what was relayed plus what waits is what came back. A
finished exchange is kept in `past`, and each of these is `Good`.

Bytes are Dafny characters. The theorems hold for all characters, so in particular for the 256 byte
values; where the compiler's signed `char` matters (the digits of a status code) the model says so.

## Where the code and its comments differ

The model follows the code.

* A response header is measured against the limit only while its blank line is missing
  (src/http_parser.c:257-267), so its verdict depends on the cuts for longer ones. `SplitIndependence`
  gives the exact condition.
* A Host that cannot be normalised gives 502 (src/router.c:246-253 with src/connection.c:744-748); the
  header comment at src/router.h:36-38 says 400.
* While a response is on its way the client's socket is read even after the request is complete
  (src/connection.c:525-549), and the bytes are forwarded; the comments at src/connection.c:18-21 and
  src/connection.c:340-342 say that they stay in the socket.
* The same handler writes whatever is in the response buffer, even half a header
  (src/connection.c:454 and src/connection.c:549). A write that empties the buffer (src/connection.c:326-327)
  takes these bytes away from the parser, which then looks at the rest; a write that leaves a byte does
  no harm. `FramingAgrees` says exactly when the framing survives, and `FlushedHeaderIsLost` is a run in
  which it does not.
* Starting over clears the buffers (src/connection.c:386-387): request bytes that the upstream had not
  taken when its response ended are dropped. They are the `unsent` part of an exchange.
* `active` is a lower estimate: a failed connect lowers it too (src/connection.c:566-571). `CloseExact` gives
  the exact condition, which `DropUpstream`, `OnConnectFailed` and `UpstreamEvent` carry; `ActiveFallsBehind`
  is what follows.
* The manager's end frees idle records only (src/connection.c:155-167), so routers of connections that are
  still open are not freed at shutdown (`AfterShutdown`).
* The ring has one producer by design (src/log.h:11), but the probe thread writes to it as well
  (src/health.c:222). Calls may overlap as long as their windows from the load of the head to its store
  do not. When they do, lines are lost, torn or written for messages that were not accepted yet
  (`OverlapLosesAMessage`, `OverlapTearsALine`, `OvertakenWritesAnother`); `WrittenExactly` says exactly when
  the lines written are the accepted messages.
* The configuration accepts capital letters in a host (src/config.c:110-123), but the lookup compares the
  lowered Host with the host as it was written (src/router.c:260). A route with a capital letter never
  answers (`MatchesExactly`, `OtherRoutesAreDead`).
* Size lines of chunks with whitespace before the ";" of an extension are refused (src/http_parser.c:383-393),
  and so are those of more than 64 bytes. `SizeLineJudged` is the exact condition.
* The three characters of a status code are not checked to be digits (src/http_parser.c:280), so "0:0" is
  taken for 100 (`StatusRead`).
* Of several X-Forwarded-For lines only the last value is kept (src/http_parser.c:505-508).
* The 503 for want of a slot for the response (src/connection.c:764-769) is never given: the rewrite before
  it has just returned a slot, or has failed with 503 itself.

## Model

| member | source | states |
|---|---|---|
| Connections.Manager.ClientEvent | src/connection.c:486-551 | an event on a client socket, from any state of all connections in which `All` holds, leads to one in which it holds again; the verdict on the request bytes, the answer, the server tried or the connection used again, the bytes sent and relayed and the next state are what the reads and writes determine, and nothing that has passed is taken back |
| Connections.Manager.UpstreamEvent | src/connection.c:555-644 | the same for the upstream socket: a failed connect is reported against its server and leaves the pending request untouched, and keeps that server's count exact if and only if it was 0; a successful one is credited, and both buffers are written; an error while relaying ends the connection without a word; response bytes finish the exchange and lead to the next request, end the connection, or neither, exactly when they must; a finished exchange joins the earlier ones |
| Connections.Manager.Accept | src/connection.c:802-842 | a new connection holds the published router and one slot; it is answered 503 exactly when there is no slot, and closed without a word exactly when its socket cannot be registered; every other connection is as before |
| Connections.Manager.ProbeResult | src/health.c:215-218 | a probe result changes one server and keeps every invariant of all connections and pools |
| Connections.Manager.Reload | src/main.c:93-105 | publishing a new router leaves every live connection in order, and what its Host resolves to through the router it holds does not change |
| Connections.Manager.SlotsConserved | src/buffer_pool.c:67-96 | between events capacity - available is one slot for each live connection plus one for each response buffer; the slots on loan are exactly these buffers, all distinct; `active` is the number of live connections |
| Connections.Manager.ActiveIsNeverAhead | src/backend_pool.c:243-255 | in every reachable state a server counts at most the connections that are established to it |
| Connections.Manager.constructor | src/connection.c:139-153 | a new manager has no connection and satisfies the invariant |
| Connections.Manager.Borrow | src/connection.c:687-693 | a slot is lent exactly when one is available, and nobody else has it |
| Connections.Manager.GiveBack | src/connection.c:222-229 | a slot goes back to the pool and leaves the ledger; nobody else is affected |
| Connections.Manager.Pick | src/connection.c:787 | the pick is that of the pool, and changes no count of connections |
| Connections.Manager.Report | src/connection.c:568 | a passive report changes one server's health only |
| Connections.Manager.Opened | src/connection.c:575 | an established connection is counted by its server |
| Connections.Manager.Dropped | src/connection.c:198-201 | giving a server up lowers its count, never below what is established without it |
| Connections.Manager.Release | src/connection.c:131-137 | the record goes to the free list and `active` falls by one |
| Connections.Manager.Acquire | src/connection.c:110-129 | the record handed out, recycled or new, belongs to no live connection; `active` and `accepted` rise by one |
| Connections.Conn.DropUpstream | src/connection.c:191-202 | the server is given up exactly once; a count that was exact stays exact if and only if the connection had been established or the count was 0 |
| Connections.Conn.Close | src/connection.c:204-237 | everything borrowed goes back (slots, server, router, record), from every state; closing again changes nothing |
| Connections.Conn.SendError | src/connection.c:243-274 | the answer written is the one of the code, as far as the client takes it at once; then everything is given back |
| Connections.Conn.FlushUpstream | src/connection.c:447-453 | bytes leave the buffer in order and join what was sent; the request invariant holds |
| Connections.Conn.FlushClient | src/connection.c:454-457 | the same towards the client; while the header is not known, a write that empties the buffer takes its bytes away from the parser, and any other write leaves them all |
| Connections.Conn.StartNextRequest | src/connection.c:364-398 | the finished exchange is good (relayed whole, framed, not delimited by the end of its connection); the upstream connection is kept only if it is still open; all is ready for the next request |
| Connections.Conn.FinishResponse | src/connection.c:400-407 | the connection goes on exactly when both the client's request and the response allow it |
| Connections.Conn.Conclude | src/connection.c:459-482 | both buffers written: when the response is complete and its last byte is out, the connection awaits the next request if and only if both sides persist, over the same upstream connection unless that has ended, and otherwise closes; it closes as well when the upstream has ended before the response, and goes on relaying in all other cases |
| Connections.Conn.ProxyStep | src/connection.c:447-482 | the same with the writes: reading again, relaying on or closed, each exactly when the writes, the completeness of the response and both keep-alive flags say so; the bytes sent and relayed are those the writes took, also when the step ends the connection; everything in order again |
| Connections.Conn.Substitute | src/connection.c:689-708 | the rewritten request gets a slot of its own and the old one goes back, or 503, or 431, and nothing has changed |
| Connections.Conn.StartBody | src/connection.c:715-736 | the counters agree with the body bytes that came with the header; 400 exactly when they are malformed |
| Connections.Conn.Load | src/connection.c:703-710 | the buffer is the rewritten header and every byte after the original one |
| Connections.Conn.PrepareRequest | src/connection.c:687-740 | the request is rewritten once and ready, or answered 503, 431 or 400, each exactly when it must be |
| Connections.Conn.ChoosePool | src/connection.c:744-755 | the pool is the one the Host resolves to through the router of the connection; an upstream connection to another pool is given up |
| Connections.Conn.Connect | src/connection.c:785-798 | the first socket that gets anywhere, one server after another, at most three attempts for a request; each failing one is reported and changes no count of connections; the pending request does not change; 502 only when the attempts are used up or nobody is in service, and never when somebody was in service and the first socket gets through |
| Connections.Conn.Proceed | src/connection.c:764-783 | an open connection to the pool is used again, otherwise one is opened; 503 without a slot for the response |
| Connections.Conn.RouteAndConnect | src/connection.c:742-799 | 502 without a route; the answer of the obstacle if there is one; the open connection if it is to the same pool, and otherwise a new one, with the state and the bytes that follow |
| Connections.Conn.Launch | src/connection.c:757-799 | a request is rewritten if it has not been; the answer of the obstacle, the open connection or a new one, and nothing else |
| Connections.Conn.UseAgain | src/connection.c:772-783 | over an open connection the rewritten request goes out at once, and the writes determine the bytes sent and relayed and the next state |
| Connections.Conn.JudgeRequest | src/connection.c:506-522 | the verdict on everything received decides: wait, the parser's answer, 431 for a full buffer, the end, or where the complete request goes |
| Connections.Conn.OnRequestBytes | src/connection.c:496-523 | what bytes from the client lead to while a request is awaited |
| Connections.Conn.CountBody | src/connection.c:533-545 | the request counters after more bytes, by the kind of body |
| Connections.Conn.TakeClientBytes | src/connection.c:525-548 | after more client bytes the request invariant holds for all of them |
| Connections.Conn.OnBodyBytes | src/connection.c:525-550 | what bytes from the client lead to while request and response are relayed |
| Connections.Conn.OnClientEvent | src/connection.c:486-551 | the client handler: nothing while connecting, the two cases above otherwise |
| Connections.Conn.OnConnectFailed | src/connection.c:566-572 | the failure counts against the server that was tried, and the request moves on unchanged to where `RouteAndConnect` takes it; the count of the server stays exact if and only if it was 0 |
| Connections.Conn.Establish | src/connection.c:574-577 | the server is credited with a success and counts the connection |
| Connections.Conn.FeedResponseBody | src/connection.c:411-445 | the response counters after more body bytes, by the kind of body |
| Connections.Conn.ReadHeader | src/connection.c:625-638 | once the header is complete the counters agree with the body bytes behind it |
| Connections.Conn.ReadBody | src/connection.c:631-638 | and with all body bytes from then on |
| Connections.Conn.RefuseReply | src/connection.c:611-615 | a response that cannot be parsed counts against the server and is answered 502 |
| Connections.Conn.TakeReplyBytes | src/connection.c:607-638 | refused, waiting or relaying, by the verdict on the buffer |
| Connections.Conn.OnReplyBytes | src/connection.c:594-643 | what bytes from the upstream lead to |
| Connections.Conn.OnUpstreamEvent | src/connection.c:555-644 | the upstream handler, by state |
| Connections.Conn.Welcome | src/connection.c:833-841 | a first buffer; 503 exactly without one; the end exactly when the socket cannot be registered |
| Connections.LookedUp | src/router.c:243-277 | a Host leads to a pool of the connection's own router |
| Connections.LookUpStays | src/router.c:341-350 | a reload does not change what a router already referenced resolves to |
| Connections.OutReplaced | src/connection.c:687-708 | three slots for a moment, two again afterwards |
| Connections.PartGoes | src/connection.c:549-550 | an empty client event while a first part of a response header waits: the part is relayed, and the parser will not see it again |
| Connections.FlushBetweenParts | src/connection.c:549-615 | a run of three events from any state in which `All` holds and a response is awaited: the first part of its header is relayed, the second is refused, a 502 goes out inside the response and its server is reported |
| Connections.FlushedHeaderIsLost | src/connection.c:549-615 | that run for an ordinary response, which the parser accepts as a whole |
| Connections.ResponseAwaited | src/connection.c:486-582 | a run of three events from the start to such a state: a client connects, sends a smallest request, and the connect to a server succeeds |
| Connections.FramingLostFromTheStart | src/connection.c:486-615 | both runs together: six events from a new manager to a 502 inside a response |
| Runs.ServeOne | src/connection.c:400-407 | a whole response, taken at once by both sockets, finishes the exchange: the connection awaits the next request, with its upstream connection still open |
| Runs.AskAgain | src/connection.c:757-779 | the next request goes out over that upstream connection, though no new socket could be opened |
| Runs.ManyExchanges | src/connection.c:364-407 | from the start, any number of exchanges over one client connection and one upstream connection: all responses are relayed, in order and byte for byte |
| Runs.ExampleWhole | src/http_parser.c:250-343 | a status line and a length of 0 make such a response |
| Runs.SentLineByLine | src/connection.c:687-710 | what a server gets for a request, line by line and letter by letter, and every byte behind the client's header |
| Runs.StoppedExactly | src/connection.c:687-735 | 503 exactly without a slot, 431 exactly beyond 16384 bytes, 400 exactly for a malformed chunked body, and nothing else stops a parsed request |
| Runs.ErrorParsed | src/connection.c:243-274 | each answer of the proxy, parsed as a response, has its code, no body, and ends the connection |
| Runs.OwnRoutes | src/router.c:243-263 | each frontend of each router has routes of its own |
| Exchanges.RequestCompleteExactly | src/connection.c:687-740 | against the whole stream the client is sending: `req_complete` holds exactly when the bytes read reach the end that Content-Length or the chunked coding frames; what was sent plus what waits plus what is still to come is the rewritten header and exactly the client bytes after the original one |
| Exchanges.ResponseCompleteExactly | src/connection.c:599-643 | against the whole stream the upstream is sending, for a header within the limit, as long as no write has emptied the buffer before the header was known: the header is known exactly when it is complete, and `resp_complete` holds exactly at the framed end, or exactly at the upstream's close when nothing else delimits the body |
| Exchanges.ResponseFramedExactly | src/connection.c:599-643 | the same in every run in which the bytes lost to such writes leave the framing as it was |
| Exchanges.FramingAgrees | src/connection.c:625-643 | for a header within the limit and any number of lost bytes: the response is framed as its own header says, at every moment, if and only if the loss stops before the blank line, what is left begins with a status line, and the lines left delimit the body as all of them do |
| Exchanges.UncutFramesAsOwn | src/connection.c:625-643 | which holds when nothing is lost |
| Exchanges.ReachedExactly | src/http_parser.c:353-444 | the framed end is reached exactly when all bytes up to it have been read |
| Exchanges.FinishedIsGood | src/connection.c:400-407 | a finished exchange was rewritten once and relayed byte for byte; the end that the parsed header announces was reached, and it was not delimited by the end of its connection, so no request ever follows such a response |
| Exchanges.UploadGrows | src/connection.c:525-545 | more body bytes: the counters are those of the whole body, whatever the reads |
| Exchanges.HeaderFound | src/connection.c:625-638 | in every run the first body bytes are counted from the end of the header that the parser finds |
| Exchanges.BodyGrows | src/connection.c:631-638 | more body bytes of the response |
| Exchanges.StillWaiting | src/connection.c:616-622 | an incomplete header stays in the buffer untouched |
| Exchanges.StartsOutgoing | src/connection.c:687-740 | the prepared request satisfies the request invariant |
| Exchanges.UploadMoves | src/connection.c:308-329 | partial writes lose, repeat or reorder nothing |
| Exchanges.DownloadMoves | src/connection.c:308-329 | nor on the way to the client; while the header is not known, bytes are lost to the parser exactly by a write that empties the buffer |
| Exchanges.MarkedKeeps | src/connection.c:459-463 | a response without delimiter is complete when the upstream has closed |
| Exchanges.Flush | src/connection.c:308-329 | what is written and what stays in the buffer make up what was there |
| Relay.DrainRead | src/connection.c:282-306 | everything the socket has, up to the room; the end of the stream is reported even with data |
| Relay.AllIsRead | src/connection.c:282-306 | whatever pieces the bytes come in and however often a read is interrupted, all of them are read, up to the room; the end, the empty socket and the failure are told apart |
| Relay.DrainWrite | src/connection.c:308-329 | written bytes leave the buffer in order; an emptied buffer starts again from 0 |
| Relay.AllIsWritten | src/connection.c:308-329 | and all is written that the socket takes, in however many calls; a failure is told from a full socket |
| Relay.UpstreamSeesTheRequest | src/http_parser.c:448-550 | the upstream, parsing what it is sent, finds the client's request (host, method kind, version, body mode, length) with the same body behind it, and sees its end where the proxy does |
| Relay.FramedGrows | src/connection.c:411-445 | counting down and scanning read by read is looking at the whole body |
| Relay.ReachedSticks | src/connection.c:411-445 | bytes beyond the end change nothing |
| Relay.ForUpstreamGrows | src/connection.c:687-740 | later bytes are appended; the header is rewritten once |
| Relay.ResponseGrows | src/http_parser.c:250-343 | more bytes do not change a response header that is complete |
| Relay.EarlyFlushHidesTheHeader | src/connection.c:549-550 | what becomes of a response header of which any first part has been flushed: the rest is refused unless it begins with a status line of its own, and is never recognised once the loss reaches the blank line |
| Ledgers.OpenKeeps | src/backend_pool.c:243-248 | opening keeps every server's count at or below what is established |
| Ledgers.CloseKeeps | src/backend_pool.c:250-255 | so does giving a server up, established or not |
| Ledgers.OpenExact | src/backend_pool.c:243-248 | opening keeps an exact count exact |
| Ledgers.CloseExact | src/backend_pool.c:250-255 | giving a server up keeps an exact count exact if and only if the connection was established, or the count was 0 |
| Ledgers.ActiveFallsBehind | src/connection.c:566-571 | from any exact count that is not 0, a failed connect leaves the server counting fewer connections than are established to it |
| Ledgers.ReportKeeps | src/backend_pool.c:183-206 | a passive report keeps the counters below their thresholds and touches no count of connections |
| Ledgers.ProbeKeeps | src/backend_pool.c:217-239 | so does a probe result |
| Ledgers.PickKeeps | src/backend_pool.c:166-181 | so does a pick |
| Ledgers.AddedKeeps | src/main.c:93-105 | so do the new pools of a reload |
| Ledgers.BuffersCounted | src/buffer_pool.c:67-96 | slots on loan and buffers in use are equally many |
| BufferPools.BufferPool.constructor | src/buffer_pool.c:22-54 | all slots are free, chained so that slot 0 comes first |
| BufferPools.BufferPool.Get | src/buffer_pool.c:67-77 | the first free slot, or none exactly when none is available |
| BufferPools.BufferPool.Put | src/buffer_pool.c:79-96 | an address that is not the start of a slot is ignored; a slot on loan comes back and is the next to go |
| BufferPools.BufferPool.Write | src/buffer_pool.c:3-6 | what a borrower writes anywhere in its slot leaves the free list intact |
| BufferPools.GetSound | src/buffer_pool.c:67-77 | handing out keeps free and lent slots apart, each free one once |
| BufferPools.PutSound | src/buffer_pool.c:79-96 | so does taking back |
| BufferPools.WriteSound | src/buffer_pool.c:3-6 | so does any write of a borrower |
| BufferPools.LoansCounted | src/buffer_pool.c:103-106 | `available` is capacity minus the slots on loan |
| BufferPools.ChainIsUnique | src/buffer_pool.c:46-51 | the links alone determine the free list |
| BufferPools.DoublePutLoops | src/buffer_pool.c:79-96 | returning a free slot closes the list into a loop that no walk leaves |
| BufferPools.PutNeedsALoan | src/buffer_pool.c:79-96 | returning a slot leaves a sound pool if and only if the slot was on loan |
| Chunked.RoundTrip | src/http_parser.c:353-444 | for every coded body of section 7.1 of RFC 9112 (sizes in any case with leading zeros, extensions, trailers) whose size lines the scanner can read (no whitespace before the ";", at most 64 bytes): it consumes exactly the coding, ends done without error and leaves every following byte |
| Chunked.DoneExactlyAtTheEnd | src/http_parser.c:353-444 | on every prefix of such a stream: no error, and done exactly when the whole coding is in |
| Chunked.SizeReadExactly | src/http_parser.c:383-398 | a line of hexadecimal digits within 64 bytes is read as its value, and rejected exactly when the value exceeds 2^64 - 1 |
| Chunked.PrintedChunkRead | src/http_parser.c:353-444 | a chunk whose size is printed in hexadecimal with small or capital letters is consumed whole |
| Chunked.HexDigitsPrinted | src/http_parser.c:383-393 | the sixteen digits have their values in either case, and no other character has one |
| Chunked.DataEndSkipped | src/http_parser.c:413-420 | between the data of a chunk and the next size line everything up to a line feed is skipped |
| Chunked.SizeLineJudged | src/http_parser.c:359-400 | any size line at all is refused if and only if, carriage returns aside, it is longer than 64 bytes, or what stands before the first ";" is not hexadecimal digits, or exceeds 2^64 - 1; otherwise the value read is theirs |
| Chunked.SpaceBeforeExtension | src/http_parser.c:383-391 | so a space before the ";" is refused whatever follows |
| Chunked.SizeLineRead | src/http_parser.c:359-400 | a size line with its extension gives exactly its size |
| Chunked.ChunkRead | src/http_parser.c:353-444 | one chunk is consumed whole, back to the start state |
| Chunked.RunSplit | src/http_parser.c:353-444 | feeding a then b is feeding a + b, in state and in bytes consumed, from any state |
| Chunked.SplitInvariance | src/http_parser.c:353-444 | hence for any partition of the stream |
| Chunked.StopRun | src/http_parser.c:357 | a finished or failed scanner consumes nothing |
| Chunked.Scanner.Feed | src/http_parser.c:353-444 | the in-place loop, which jumps over data, computes the byte-by-byte run and its count, and terminates |
| Chunked.Scanner.SizeLineByte | src/http_parser.c:359-400 | one byte of a size line |
| Chunked.Scanner.SkipData | src/http_parser.c:402-411 | a jump over data is as many single steps |
| Chunked.Scanner.LineByte | src/http_parser.c:413-435 | one byte of a line end or a trailer |
| Text.LinesPartition | src/http_parser.c:35-43 | the lines of a block, joined again, are the block |
| Text.LinesOfJoin | src/http_parser.c:35-43 | and the lines of joined lines are these lines |
| Text.HeaderEndStable | src/http_parser.c:45-56 | the end of a header, once there, does not move; until then it lies beyond what has arrived |
| Text.LinesOfBlock | src/http_parser.c:35-56 | a header is exactly its lines and the blank one |
| Text.BlockEnd | src/http_parser.c:45-56 | the first blank line of a block of non-empty lines is its last |
| Text.DecFits | src/http_parser.c:70-84 | a decimal value of at most 19 digits fits in 64 bits |
| Text.NumeralParsed | src/http_parser.c:70-84 | a printed number is read back as that number, also behind leading zeros, if and only if it has at most 19 digits; every number below 10^19 has |
| Text.ParsedIsNumeral | src/http_parser.c:70-84 | and nothing else is accepted |
| HttpParser.SplitField | src/http_parser.c:94-117 | name and trimmed value of a field line |
| HttpParser.FindHeaderEnd | src/http_parser.c:45-56 | the loop finds the first blank line |
| HttpParser.FindCrlf | src/http_parser.c:35-43 | the loop finds the first line end |
| HttpParser.ReadLine | src/http_parser.c:174-182 | the cursor moves from line to line of the header |
| HttpParser.VerdictSticks | src/http_parser.c:119-125 | a verdict is never revised by more bytes |
| HttpParser.SplitInvariance | src/http_parser.c:119-237 | however the stream is cut into reads, verdict and record are those of one call on everything received |
| HttpParser.ExampleRequest | src/http_parser.c:119-237 | a smallest request, whatever follows it: one Host, no body, and a persistent connection by default; it is the one sent in `ResponseAwaited` |
| HttpParser.HttpRequest.Execute | src/http_parser.c:119-237 | the record filled in place is what the lines of the header mean; NEED_MORE leaves it untouched |
| HttpParser.HttpRequest.TakeHeader | src/http_parser.c:134-237 | the request line, then the fields |
| HttpParser.HttpRequest.TakeFields | src/http_parser.c:173-237 | the record agrees with the fields read so far, in any order and number |
| HttpParser.HttpRequest.TakeRequestLine | src/http_parser.c:142-171 | 400 for a malformed request line, 505 for another version |
| HttpParser.HttpRequest.TakeHost | src/http_parser.c:190-201 | one Host of 1 to 255 bytes |
| HttpParser.HttpRequest.TakeConnection | src/http_parser.c:202-207 | the last close or keep-alive decides |
| HttpParser.HttpRequest.TakeLength | src/http_parser.c:210-216 | a clean Content-Length, the last one; chunked takes precedence |
| HttpParser.HttpRequest.TakeCoding | src/http_parser.c:217-225 | only the chunked coding |
| HttpParser.AcceptablePrefix | src/http_parser.c:173-237 | a bad field cannot be made good by later ones |
| Wording.FieldCalled | src/http_parser.c:86-237 | each of the nine names is told by the letters before the first colon, in any case, from all other lines |
| Wording.ValueCalled | src/http_parser.c:86-237 | the value is what follows the colon, trimmed, and "close", "keep-alive" and "chunked" are told by their letters in any case |
| Wording.TrimmedExactly | src/http_parser.c:103-117 | trimming cuts spaces and tabs at both ends, all of them and nothing else |
| Wording.RequestDecided | src/http_parser.c:119-246 | a request header within 8192 bytes, letter by letter: 505 exactly for another version than HTTP/1.1 or HTTP/1.0, 400 exactly for malformed lines, and otherwise host, body, length, method kind and persistence are what its lines say |
| Wording.OtherRequests | src/http_parser.c:125-158 | 431 beyond the limit, 400 without a method and a target, and otherwise more is needed |
| HttpResponses.HttpResponse.Execute | src/http_parser.c:250-343 | the response record is what the lines of the header mean |
| HttpResponses.HttpResponse.TakeFields | src/http_parser.c:287-316 | the record agrees with the fields read so far |
| HttpResponses.UntilCloseEndsTheConnection | src/http_parser.c:318-332 | a response delimited by the end of its connection never allows reuse; no body exactly for HEAD, 1xx, 204 and 304 |
| HttpResponses.SplitIndependence | src/http_parser.c:257-268 | the verdict is independent of the cuts if and only if the header end is missing, within one byte of the limit, or the first line is not a status line |
| HttpResponses.MeaningOf | src/http_parser.c:270-343 | once the blank line is in: refused exactly without a status line, and otherwise the status, delimiter and length of its lines |
| Wording.StatusRead | src/http_parser.c:275-285 | three digits behind the version are the code, accepted from 100 to 599; the characters are not checked to be digits |
| Wording.DelimitedExactly | src/http_parser.c:287-332 | no body for HEAD, 1xx, 204 and 304; else the last Transfer-Encoding line if it says chunked, even beside a length; else the last Content-Length line if it is a number; else the end of the connection |
| Wording.ResponseDecided | src/http_parser.c:250-343 | a complete response header, by its lines: 502 exactly without a status line; otherwise version, code, delimiter and persistence |
| HttpResponses.EveryCut | src/http_parser.c:257-268 | within the limit: not yet, until the blank line is in; the final verdict from then on |
| HttpResponses.FoundSticks | src/http_parser.c:257-268 | a complete response header keeps its meaning |
| Rewriting.Rewrite | src/http_parser.c:448-550 | the bytes appended to the output are the rewritten header; -1 exactly when it does not fit or there is nothing to rewrite |
| Rewriting.RewritePreservesMeaning | src/http_parser.c:448-550 | parsed again, the new header is DONE with the same host, method kind, version, body mode and length; its length is the bytes written; its persistence the chosen one |
| Rewriting.RewriteKeepsTheRest | src/http_parser.c:448-550 | the kept lines come through byte for byte and in order; exactly one X-Forwarded-For: the last old value, if not empty, and the client |
| Rewriting.RewrittenLines | src/http_parser.c:448-550 | whoever parses the output finds exactly the rewritten lines, whatever follows |
| Rewriting.KeptTwice | src/http_parser.c:479-515 | rewriting a second time drops nothing more |
| Wording.RewrittenExactly | src/http_parser.c:448-550 | letter by letter: the first line, every line whose name is, in any case, none of the six literal names, in order, and exactly four lines with literal names: the trace with the client last, the scheme, the client, and keep-alive or close |
| Rewriting.CopyKept | src/http_parser.c:479-515 | the copying loop, line by line |
| Rewriting.PutAll | src/http_parser.c:459-466 | the append that stops at the end of the buffer |
| BackendPools.ClosedForm | src/backend_pool.c:112-133 | after t picks a server's dynamic weight is its start + t*w - W*n |
| BackendPools.NeverAhead | src/backend_pool.c:112-133 | from zero, W*n < t*w + W at all times: never a whole pick ahead |
| BackendPools.WeightedIsExact | src/backend_pool.c:112-133 | after every W picks each server was chosen exactly w times, and all dynamic weights are 0 again |
| BackendPools.NeverStarved | src/backend_pool.c:112-133 | from any reachable weights a server is skipped at most T times in a row, T*w <= sum of the others' leads |
| BackendPools.RoundRobinIsEven | src/backend_pool.c:95-107 | m consecutive picks hit each of m servers in service exactly once, from any cursor |
| BackendPools.WeightedPick | src/backend_pool.c:112-133 | the pick of a weighted pool: every server in service is raised by its weight, the first of the largest is picked and pays the total; nothing else changes |
| BackendPools.RoundRobinPick | src/backend_pool.c:95-107 | the pick of a round-robin pool: the first server in service from the cursor, which moves behind it |
| BackendPools.LeastConnPick | src/backend_pool.c:135-164 | the pick of a pool of least connections: in service, undercut by nobody in service, and the first such from the cursor, which moves behind it; none exactly when nobody is in service |
| BackendPools.LeastIsRoundRobinOnTies | src/backend_pool.c:135-164 | with equal counts it picks as round robin does |
| BackendPools.LevelPoolIsFair | src/backend_pool.c:135-181 | so while the servers in service have equally many connections, as many picks as there are such servers hit each exactly once |
| BackendPools.SpreadBounded | src/backend_pool.c:135-164 | in runs of the pool's own picks, each followed by a connection, the spread never widens beyond max(1, the initial spread) |
| BackendPools.WeightedPoolIsFair | src/backend_pool.c:166-181 | the same fairness for runs of the pool itself |
| BackendPools.RoundRobinPoolIsFair | src/backend_pool.c:166-181 | and for its round robin |
| BackendPools.BackendPool.constructor | src/backend_pool.c:28-55 | all servers up with zero weights and counters |
| BackendPools.BackendPool.PickWeighted | src/backend_pool.c:112-133 | the loop over the array computes the specified pick |
| BackendPools.BackendPool.PickRoundRobin | src/backend_pool.c:95-107 | so does this one |
| BackendPools.BackendPool.PickLeastConn | src/backend_pool.c:135-164 | and this one |
| BackendPools.BackendPool.Pick | src/backend_pool.c:166-181 | by the configured balance |
| BackendPools.BackendPool.Report | src/backend_pool.c:183-206 | the counters and the flag of one server after a passive report |
| BackendPools.BackendPool.ProbeResult | src/backend_pool.c:217-239 | after a probe |
| BackendPools.FailuresTakeOut | src/backend_pool.c:183-239 | failures in a row take a server out of service on either path, the one that completes `fall` and no earlier one, and change nothing but the flag and that path's counters |
| BackendPools.SuccessesBringBack | src/backend_pool.c:183-239 | successes in a row bring it back, the one that completes `rise` and no earlier one, on the passive path with dynamic weight 0 |
| BackendPools.BackendPool.ConnOpened | src/backend_pool.c:243-248 | one more connection |
| BackendPools.BackendPool.ConnClosed | src/backend_pool.c:250-255 | one fewer, never below 0 |
| Health.Hysteresis | src/backend_pool.c:183-239 | in any interleaving of both writers, each store of DOWN or UP follows at least `fall` failures or `rise` successes of that very path with nothing opposite of its own between |
| Health.StoresExactly | src/backend_pool.c:183-239 | exactly when: in every interleaving a report stores DOWN if and only if it failed, had loaded UP and completes `fall` such failures of its own path since the last success or DOWN of that path; and likewise UP |
| Health.CountersBelow | src/backend_pool.c:183-239 | every counter stays below its threshold between calls |
| RouteTables.RouteTable.Lookup | src/router.c:243-277 | hash chains and sorted wildcards return the plain search over the routes |
| RouteTables.RouteTable.constructor | src/router.c:139-198 | the index of a validated route list |
| RouteTables.RouteTable.LookupExact | src/router.c:254-263 | a chain is searched to its end |
| RouteTables.RouteTable.LookupWild | src/router.c:265-273 | the first wildcard that matches is the longest |
| RouteTables.SearchAnswers | src/router.c:139-277 | exact, else the longest matching suffix, else the default |
| RouteTables.OrderDoesNotMatter | src/router.c:139-277 | the answer does not depend on the order of the routes |
| RouteTables.MatchesExactly | src/config.c:102-123 | of the hosts that the configuration accepts, a route other than the default one can match a Host if and only if its host is already in the form the lookup brings a Host header into: for a name, without a capital letter |
| RouteTables.PlainNameAnswers | src/router.c:243-263 | and a name in that form does answer its Host, whatever the other routes are |
| RouteTables.OtherRoutesAreDead | src/router.c:243-277 | a route with any other host changes the answer for no Host at all |
| RouteTables.LabelsOrderAsLength | src/router.c:91-100 | among suffixes of one host, label count orders exactly as length does |
| RouteTables.SortWildcards | src/router.c:126-137 | the insertion sort in place is the sort of the specification |
| RouteTables.SortSorts | src/router.c:126-137 | which is descending in labels with the same members |
| RouteTables.SortPermutes | src/router.c:126-137 | and a permutation |
| RouteTables.NormalizeHost | src/router.c:62-89 | lower case, no port, only host characters, or nothing |
| RouteTables.NormalizedExactly | src/router.c:62-89 | a Host comes to its part before the port, in small letters, if that has 1 to 255 letters, digits, dots and dashes, and to nothing otherwise |
| RouteTables.AnyCaseAnyPort | src/router.c:62-89 | a name in any case and with any port is resolved as the name in small letters is |
| RouteTables.MatchedLetterByLetter | src/router.c:243-277 | a route matches its very name, and "*" with a suffix every name that ends in it and has something in front |
| RouteTables.CountLabels | src/router.c:91-100 | the labels of a suffix |
| RouteTables.NextPow2 | src/router.c:102-109 | a power of two, at least 8 and at least what is wanted |
| RouterLifetime.CountsAreHolders | src/router.c:279-350 | in every interleaving of the two threads, at every step: a router's count is the number of its holders (slot, probe thread's current, live connections, and what either thread carries) |
| RouterLifetime.NoUseAfterFree | src/health.c:200-234 | no step of either thread touches a freed router, closing a connection included |
| RouterLifetime.FreedOnceAtTheEnd | src/router.c:286-304 | a router is freed at most once, by the thread that leaves last, when and only when nobody holds it |
| RouterLifetime.BetweenEvents | src/main.c:104-105 | while the event loop waits, the probes work on the published router and the routers of all live connections are intact |
| RouterLifetime.AfterShutdown | src/main.c:317-329 | after the shutdown all routers are freed, except those of connections that were still open |
| RouterLifetime.NeverNull | src/health.c:275-304 | the pointers are set wherever a step needs one |
| RouterLifetime.StepKeepsSafe | src/router.c:279-350 | every single step keeps the accounts |
| LogRing.RingSafety | src/log.c:83-128 | in every interleaving in which no call loads the head while another is between loading and publishing it, with the 64-bit counters wrapping: tail <= head <= tail + 4096; the lines handed to the writer are the accepted messages in order, none lost or repeated; accepted + dropped + under way = attempts |
| LogRing.AttemptsAdmitted | src/log.c:183-190 | in every run exactly the calls at or above the level set at that moment are attempts, and a call below it changes nothing |
| LogRing.WritesAreDisjoint | src/log.c:202-244 | the producer never writes a slot between tail and head |
| LogRing.DropsOnlyWhenFull | src/log.c:192-200 | a message is dropped exactly when the ring is full at the moment of the look |
| LogRing.ShutdownLosesNothing | src/log.c:165-181 | in such runs, when nobody writes from the shutdown on, everything accepted has been written when the thread is joined |
| LogRing.PublishKeepsTheHead | src/log.c:192-244 | exactly which publication does the damage: the head goes on counting what has been published if and only if the call holds the head as it is |
| LogRing.EachStalePublicationLosesOne | src/log.c:192-244 | with windows overlapping in groups of any size, in numbers: every publication at a head that has moved on makes the lines written one fewer than the messages accepted, for ever, and a consumer that has caught up is behind by exactly as many |
| LogRing.WrittenExactly | src/log.c:83-128 | what the lines are: once every call has returned and the consumer has caught up, the lines written are the accepted messages, in order, if and only if no publication was at a head that had moved on; otherwise lines are missing, and those written may be torn or of overlapping calls |
| LogRing.WrittenInOrder | src/log.c:83-128 | and at every moment before: while there has been no such publication and no call past its room check holds a head that has moved on, the lines written are the first of the accepted messages and every slot between tail and head holds its own |
| LogRing.TwoCallsOneHead | src/log.c:192-244 | two calls that hold one head and both publish leave fewer lines written than messages accepted, for ever |
| LogRing.ShutdownWritesTheRest | src/log.c:165-181 | the same at the join, when nobody writes from the shutdown on: the lines written are fewer than the accepted messages by the number of such publications, and are the accepted messages, in order, if and only if there was none |
| LogRing.StepCounts | src/log.c:83-128 | every single step keeps the counters right, up to the publications at a head that had moved on |
| LogRing.OverlapLosesAMessage | src/health.c:222 | a whole run of two overlapping calls, one of them from the probe thread, whose one line is the second message: the first, accepted, is never written |
| LogRing.OverlapTearsALine | src/health.c:222 | another, whose one line is neither message but the text of one with the length of the other |
| LogRing.OvertakenWritesAnother | src/health.c:222 | a run in which the consumer catches up before the second call publishes: the line written is of a message not accepted yet, so that the condition of `WrittenExactly` needs every call to have returned |
| LogRing.HeadGoesBack | src/health.c:222 | a run in which one call stalls while two lines are logged and written: its publication sets the head back behind the tail, and the next drain hands out a slot that no call has written |
| LogRing.StepKeepsSafe | src/log.c:83-128 | until a publication is at a head that has moved on, every single step keeps the slots and lines those of the accepted messages, unless a call is committed to such a publication |

## Left out

- Event notification, sockets, listeners, signals and worker processes: system calls; an event arrives
  with the script of what its sockets will answer.
- Configuration parsing: its validated facts are preconditions (weights, rise and fall at least 1, unique
  hosts, well-formed wildcards, targets that exist, pools that are not empty).
- Probe traffic: a probe is an arbitrary boolean; its result is one step on the server's record.
- Log formatting, timestamps and failing writes of the log file: a message is its text, and handing it to
  the writer is one step; the stores that fill the text of a slot are one step too.
- Statistics as JSON: formatting; the reference they take to the router is a step of its protocol.
- Event masks and the half-close after the client's end (src/connection.c:331-360 and
  src/connection.c:465-468): they ask the kernel for notifications and send nothing; that relays always
  make progress is not claimed.
- Pipelined requests, interim 1xx responses, file descriptors used again within one batch of events,
  failing allocations, and a failure to register an upstream's socket after its connect: outside what the
  code supports. A failure to register a client's socket is part of `Accept`.
- Aliasing of buffers with the arena: a connection keeps the contents of its two buffers as sequences and
  the slots behind them in the ledger; that writes of a borrower stay in its slot is
  `BufferPools.WriteSound`.
- Connections keep request and response records, scanner states and pools as values and use the
  functions that the parser, rewriter, scanner, pool and index classes are proved to compute.
- Threads inside one event: a handler of the event loop is one step of a run of connections; the
  interleavings with the probe thread are those of `RouterLifetime` and `Health`.
- Machine widths of the reference count, of weights and of the counters of servers: unbounded here, as
  is the length counter of a trailer line; the 64-bit limits of lengths, chunk sizes and ring counters are modelled.
- The hash mask: the number of buckets is a power of two and the model takes the hash modulo that number;
  the hash itself wraps at 32 bits.
- Connections.Manager.ActiveIsNeverAhead: a bound and not an equality, because a failed connect lowers the
  count as well (exactly when: `CloseExact`).
- Exchanges.ResponseCompleteExactly: for responses none of whose header bytes left the buffer before the
  header was known; what the others need is `FramingAgrees`.
- LogRing.RingSafety: for windows that do not overlap; what overlapping ones do to the contents is
  `WrittenExactly`.
- LogRing.WrittenExactly: for runs in which no window begins while another holds a head that has moved on.
  Beyond these a publication can set the head back behind the tail and the consumer runs past it
  (`HeadGoesBack`); nothing is claimed there but which publication begins it (`PublishKeepsTheHead`).
- The fd watch table, the benchmark server and the test servers: not part of the relay.
