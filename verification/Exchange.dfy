/** One request and its response, as a connection sees them: the buffers, the counters, and what
    they say about the bytes that have passed. */
module Exchanges {
  import opened Text
  import opened HttpParser
  import opened HttpResponses
  import opened Relay
  import opened Rewriting
  import Body = Chunked

  /** Client to upstream: the buffer, how much of it has been written, the request, and how far its
      body has come. */
  datatype Upload = Upload(buf: string, off: nat, req: Verdict<Request>, ready: bool,
                           left: nat, scan: Body.Scan, complete: bool)

  /** Upstream to client. */
  datatype Download = Download(buf: string, off: nat, resp: Verdict<Response>,
                               left: nat, scan: Body.Scan, headersDone: bool, complete: bool, eof: bool)

  const NO_UPLOAD := Upload("", 0, NeedMore, false, 0, Body.START, false)
  const NO_DOWNLOAD := Download("", 0, NeedMore, 0, Body.START, false, false, false)

  /** The bytes of one exchange: what the client sent, what of it went upstream, rewritten, what came
      back, and what of that was written to the client.  `cut` counts the bytes that had come back and
      left the buffer before the header was known: a write that empties the buffer takes them away
      from the parser, a write that leaves a byte does not. */
  datatype Log = Log(received: string, sent: string, reply: string, relayed: string, cut: nat, rewrites: nat)

  const NO_LOG := Log("", "", "", "", 0, 0)

  /** The bytes that the response is parsed from and framed by. */
  function Framing(log: Log): string {
    if log.cut <= |log.reply| then log.reply[log.cut..] else ""
  }

  // ----- what the fields mean ---------------------------------------------------------------------

  /** The request as it arrives: not parsed to the end, nothing sent. */
  ghost predicate Incoming(up: Upload, log: Log) {
    && !up.ready && log.rewrites == 0 && up.off == 0 && log.sent == "" && log.received == up.buf && |up.buf| <= SLOT
  }

  /** The request has been rewritten once: what was sent and what waits in the buffer is the new
      header and every byte the client sent after its own; and the counters know how far its body
      has come. */
  ghost predicate Outgoing(up: Upload, log: Log, ip: string) {
    && up.ready && log.rewrites == 1 && up.off <= |up.buf| <= SLOT
    && up.req.Done? && ParseRequest(log.received) == up.req && RequestFramed(up, log)
    && log.sent + Unwritten(up.buf, up.off) == ForUpstream(log.received, ip)
  }

  ghost predicate RequestFramed(up: Upload, log: Log)
    requires up.req.Done?
  {
    && up.req.msg.headerLen <= |log.received| && !up.req.msg.mode.UntilClose?
    && Framed(up.req.msg.mode, up.req.msg.contentLength, log.received[up.req.msg.headerLen..], false, up.left, up.scan, up.complete)
  }

  /** Nothing has come back yet. */
  ghost predicate NoReply(down: Download, log: Log) {
    && down.buf == "" && down.off == 0 && down.resp.NeedMore? && !down.headersDone && !down.complete && !down.eof
    && log.reply == "" && log.relayed == "" && log.cut == 0
  }

  /** What was relayed and what waits in the buffer is what came back.  Until the header is known the
      buffer holds all of the bytes that it is parsed from; afterwards the counters know how far the
      response has come that these bytes begin. */
  ghost predicate Relaying(down: Download, log: Log, head: bool, marked: bool) {
    && down.off <= |down.buf| <= SLOT && log.relayed + Unwritten(down.buf, down.off) == log.reply
    && log.cut <= |log.reply|
    && (down.headersDone <==> down.resp.Done?)
    && (!down.headersDone ==>
          && down.resp.NeedMore? && !down.complete && !down.eof
          && down.buf == Framing(log) && ParseResponse(Framing(log), head).NeedMore?)
    && (down.headersDone ==>
          && (down.resp.msg.mode.UntilClose? ==> !down.resp.msg.keepAlive)
          && ParseResponse(Framing(log), head) == down.resp && ReplyFramed(down, Framing(log), marked))
  }

  /** What the counters say about the response; until the step that follows the upstream's end, a
      response that ends with it may still wait to be marked. */
  ghost predicate ReplyFramed(down: Download, reply: string, marked: bool)
    requires down.resp.Done?
  {
    var r := down.resp.msg;
    && r.headerLen <= |reply|
    && if r.mode.UntilClose? then (down.complete ==> down.eof) && (marked && down.eof ==> down.complete)
       else Framed(r.mode, r.contentLength, reply[r.headerLen..], false, down.left, down.scan, down.complete)
  }

  /** A finished exchange, and what of the request was still in the buffer. */
  datatype Exchange = Exchange(log: Log, ip: string, unsent: string, response: Response)

  /** The request was rewritten once and relayed byte for byte, the response was relayed to its last
      byte, both sides agreed to go on, the end of the response is not the end of its connection, and
      the end that its header announced had been reached. */
  ghost predicate Good(e: Exchange) {
    && ParseRequest(e.log.received).Done? && ParseRequest(e.log.received).msg.keepAlive && e.log.rewrites == 1
    && e.log.sent + e.unsent == ForUpstream(e.log.received, e.ip)
    && e.log.relayed == e.log.reply
    && !e.response.mode.UntilClose? && e.response.keepAlive
    && e.log.cut <= |e.log.reply|
    && ParseResponse(Framing(e.log), ParseRequest(e.log.received).msg.isHead) == Done(e.response)
    && ReplyReached(Framing(e.log), ParseRequest(e.log.received).msg.isHead, false)
  }

  ghost predicate AllGood(past: seq<Exchange>) {
    forall k :: 0 <= k < |past| ==> Good(past[k])
  }

  lemma OneMoreGood(past: seq<Exchange>, e: Exchange)
    requires AllGood(past) && Good(e)
    ensures AllGood(past + [e])
  {
  }

  lemma NothingYet()
    ensures ParseRequest("").NeedMore? && ParseResponse("", false).NeedMore? && ParseResponse("", true).NeedMore?
    ensures Incoming(NO_UPLOAD, NO_LOG) && NoReply(NO_DOWNLOAD, NO_LOG)
  {
    hide RequestMeaning, ResponseMeaning;
    assert HeaderEnd("") == 0;
  }

  /** Before anything comes back, the response is relayed as far as it goes. */
  lemma NothingToRelay(down: Download, log: Log, head: bool)
    requires NoReply(down, log)
    ensures Relaying(down, log, head, false) && down.buf == "" && !Marked(down).complete && !down.eof
  {
    hide ParseResponse;
    NothingYet();
  }

  lemma NoReplyIgnores(down: Download, log: Log, received: string)
    requires NoReply(down, log)
    ensures NoReply(down, log.(received := received))
  {
  }

  /** The two stages of a request cannot be confused. */
  lemma Stages(up: Upload, log: Log, ip: string)
    ensures Incoming(up, log) ==> !up.ready
    ensures Outgoing(up, log, ip) ==> up.ready && up.req.Done?
  {
    hide ParseRequest, ForUpstream, Framed;
  }

  // ----- the request ------------------------------------------------------------------------------

  function HeaderText(buf: string, ip: string): string {
    if HeaderEnd(buf) == 0 then "" else RewrittenText(buf, ip, "http", true)
  }

  /** The status of the proxy's own answer when a request cannot be sent on: no slot to rewrite it
      into, too large once rewritten, a malformed body; 0 when it can. */
  function Obstacle(buf: string, r: Request, ip: string, slots: int): int {
    if slots == 0 then 503
    else if r.headerLen <= |buf| then
      var body := buf[r.headerLen..];
      if |HeaderText(buf, ip)| + |body| > SLOT then 431
      else if r.mode.ChunkedCoding? && Body.Run(Body.START, body).0.error then 400
      else 0
    else 0
  }

  /** Before anything is written, all of the rewritten request waits. */
  lemma AllWaits(up: Upload, log: Log, ip: string)
    requires Outgoing(up, log, ip) && log.sent == "" && up.off == 0
    ensures Unwritten(up.buf, up.off) == ForUpstream(log.received, ip)
  {
    hide ParseRequest, ForUpstream, Framed;
  }

  /** The buffer after the rewrite: everything the client has sent so far is on its way. */
  lemma Rewritten(up: Upload, log: Log, ip: string)
    requires Incoming(up, log) && up.req.Done? && ParseRequest(up.buf) == up.req
    ensures HeaderEnd(up.buf) == up.req.msg.headerLen != 0 && up.req.msg.headerLen <= |up.buf|
    ensures !up.req.msg.mode.UntilClose?
    ensures HeaderText(up.buf, ip) + up.buf[up.req.msg.headerLen..] == ForUpstream(log.received, ip)
  {
    hide ParseRequest, RewrittenText, HeaderEnd;
    RequestModes(up.buf);
    DoneHasHeader(up.buf);
  }

  /** Counting the body that came with the header is counting from its start. */
  lemma BodyStarts(mode: BodyMode, length: nat, body: string, left: nat, scan: Body.Scan)
    requires !mode.UntilClose?
    ensures mode.Length? ==> Framed(mode, length, body, false, Rest(length, |body|), scan, Rest(length, |body|) == 0)
    ensures mode.NoBody? ==> Framed(mode, length, body, false, left, scan, true)
    ensures var t := Body.Run(Body.START, body).0;
            mode.ChunkedCoding? && !t.error ==> Framed(mode, length, body, false, left, t, t.done)
  {
    hide Body.Run;
  }

  /** A request whose rewritten header and whose body so far fit in a buffer is on its way. */
  lemma StartsOutgoing(up: Upload, log: Log, ip: string, after: Upload)
    requires Incoming(up, log) && up.req.Done? && ParseRequest(up.buf) == up.req
    requires up.req.msg.headerLen <= |up.buf|
    requires var body := up.buf[up.req.msg.headerLen..];
             && after.buf == HeaderText(up.buf, ip) + body && |after.buf| <= SLOT && after.off == 0 && after.ready
             && after.req == up.req
             && Framed(up.req.msg.mode, up.req.msg.contentLength, body, false, after.left, after.scan, after.complete)
    ensures Outgoing(after, log.(rewrites := log.rewrites + 1), ip)
  {
    hide ParseRequest, ForUpstream, Framed, HeaderText;
    Rewritten(up, log, ip);
  }

  /** The header stands, and the rest is appended, whatever else the client sends. */
  lemma RequestGrows(received: string, more: string, ip: string)
    requires ParseRequest(received).Done?
    ensures ParseRequest(received + more) == ParseRequest(received)
    ensures ForUpstream(received + more, ip) == ForUpstream(received, ip) + more
    ensures var h := ParseRequest(received).msg.headerLen;
            h <= |received| && (received + more)[h..] == received[h..] + more
  {
    hide ParseRequest, HeaderEnd, ForUpstream, HeaderOf, HeaderLines, Block;
    var all := received + more;
    assert received <= all;
    VerdictSticks(received, all);
    RequestModes(received);
    DoneHasHeader(received);
    assert all[HeaderEnd(received)..] == received[HeaderEnd(received)..] + more;
    ForUpstreamGrows(received, more, ip);
  }

  /** More of the body: the counters after it are those of the whole. */
  lemma UploadGrows(up: Upload, log: Log, ip: string, data: string, after: Upload)
    requires Outgoing(up, log, ip) && |up.buf| + |data| <= SLOT
    requires after == up.(buf := up.buf + data, left := after.left, scan := after.scan, complete := after.complete)
    requires Counted(up, data, after)
    ensures Outgoing(after, log.(received := log.received + data), ip)
  {
    hide ParseRequest, ForUpstream, Body.Run, Framed;
    RequestGrows(log.received, data, ip);
    var m := up.req.msg;
    var body := log.received[m.headerLen..];
    CountedFramed(m.mode, m.contentLength, body, up, data, after);
    assert (up.buf + data)[up.off..] == up.buf[up.off..] + data;
    assert log.sent + (up.buf[up.off..] + data) == (log.sent + up.buf[up.off..]) + data;
  }

  /** What the client's handler does with new bytes, by the kind of body; nothing once complete. */
  ghost predicate Counted(up: Upload, data: string, after: Upload)
    requires up.req.Done?
  {
    if up.complete || data == "" then after.left == up.left && after.scan == up.scan && after.complete == up.complete
    else if up.req.msg.mode.ChunkedCoding? then
      after.left == up.left && after.scan == Body.Run(up.scan, data).0 && !after.scan.error && after.complete == after.scan.done
    else
      after.left == (if |data| >= up.left then 0 else up.left - |data|) && after.scan == up.scan && after.complete == (after.left == 0)
  }

  /** Bytes that make a chunked request body malformed. */
  predicate Malformed(up: Upload, data: string) {
    data != "" && !up.complete && up.req.Done? && up.req.msg.mode.ChunkedCoding? && Body.Run(up.scan, data).0.error
  }

  lemma CountedFramed(mode: BodyMode, length: nat, body: string, up: Upload, data: string, after: Upload)
    requires Framed(mode, length, body, false, up.left, up.scan, up.complete) && !mode.UntilClose?
    requires up.req.Done? && up.req.msg.mode == mode && Counted(up, data, after)
    ensures Framed(mode, length, body + data, false, after.left, after.scan, after.complete)
  {
    hide Body.Run;
    FramedGrows(mode, length, body, data, false, up.left, up.scan, up.complete);
    if data == "" {
      assert body + data == body;
    } else if mode.NoBody? {
      assert up.complete;
    }
  }

  // ----- the response -----------------------------------------------------------------------------

  /** What body bytes of the response do to the counters, by the kind of body; none if malformed. */
  function Feed(down: Download, data: string): Option<Download>
    requires down.resp.Done?
  {
    match down.resp.msg.mode
    case NoBody => Some(down.(complete := true))
    case Length =>
      Some(if |data| >= down.left then down.(left := 0, complete := true) else down.(left := down.left - |data|))
    case ChunkedCoding =>
      var scan := Body.Run(down.scan, data).0;
      if scan.error then None else Some(down.(scan := scan, complete := down.complete || scan.done))
    case UntilClose => Some(down)
  }

  ghost predicate Fed(down: Download, data: string, after: Download)
    requires down.resp.Done?
  {
    Feed(down, data) == Some(after)
  }

  /** The record when the header in `buf` is complete. */
  function Started(down: Download, buf: string, r: Response): Download {
    down.(buf := buf, resp := Done(r), headersDone := true, left := r.contentLength,
          scan := if r.mode.ChunkedCoding? then Body.START else down.scan)
  }

  /** The record after more bytes of the response, when its header is known with them; none if the
      body is malformed. */
  function Replied(down: Download, data: string, head: bool): Option<Download> {
    var buf := down.buf + data;
    if down.headersDone then
      if down.resp.Done? then Feed(down.(buf := buf), data) else None
    else
      match ParseResponse(buf, head)
      case Done(r) => if r.headerLen <= |buf| then Feed(Started(down, buf, r), buf[r.headerLen..]) else None
      case _ => None
  }

  lemma FedFramed(down: Download, body: string, data: string, after: Download)
    requires down.resp.Done? && !down.resp.msg.mode.UntilClose? && Fed(down, data, after)
    requires var r := down.resp.msg;
             Framed(r.mode, r.contentLength, body, false, down.left, down.scan, down.complete)
             || (body == "" && down.left == r.contentLength && down.scan == Body.START && !down.complete)
    ensures var r := down.resp.msg;
            Framed(r.mode, r.contentLength, body + data, false, after.left, after.scan, after.complete)
  {
    hide Body.Run;
    var r := down.resp.msg;
    if Framed(r.mode, r.contentLength, body, false, down.left, down.scan, down.complete) {
      FramedGrows(r.mode, r.contentLength, body, data, false, down.left, down.scan, down.complete);
    } else {
      assert body + data == data;
    }
  }

  /** The first header bytes: nothing is known yet. */
  lemma StillWaiting(down: Download, log: Log, head: bool, data: string)
    requires Relaying(down, log, head, true) && !down.headersDone && |down.buf| + |data| <= SLOT
    requires ParseResponse(down.buf + data, head).NeedMore?
    ensures Relaying(down.(buf := down.buf + data), log.(reply := log.reply + data), head, true)
  {
    hide ParseResponse, ReplyFramed;
    Appended(down, log, head, data);
  }

  /** The header is complete: what follows it in the buffer is the first of the body. */
  lemma HeaderFound(down: Download, log: Log, head: bool, data: string, after: Download)
    requires Relaying(down, log, head, true) && !down.headersDone && |down.buf| + |data| <= SLOT
    requires Replied(down, data, head) == Some(after)
    ensures Relaying(after, log.(reply := log.reply + data), head, false)
  {
    hide ParseResponse, Framed, Body.Run, HeaderEnd;
    var buf := down.buf + data;
    var start := Started(down, buf, ParseResponse(buf, head).msg);
    UntilCloseEndsTheConnection(buf, head);
    assert after.buf == start.buf && after.off == down.off && after.resp == start.resp && after.headersDone && !after.eof;
    Appended(down, log, head, data);
    FedFromStart(start, after);
    assert ReplyFramed(after, buf, false);
  }

  lemma Appended(down: Download, log: Log, head: bool, data: string)
    requires Relaying(down, log, head, true)
    ensures log.relayed + Unwritten(down.buf + data, down.off) == log.reply + data
    ensures Framing(log.(reply := log.reply + data)) == Framing(log) + data
  {
    hide ParseResponse, ReplyFramed;
    assert (down.buf + data)[down.off..] == down.buf[down.off..] + data;
    assert log.relayed + (down.buf[down.off..] + data) == (log.relayed + down.buf[down.off..]) + data;
    assert (log.reply + data)[log.cut..] == log.reply[log.cut..] + data;
  }

  lemma FedFromStart(start: Download, after: Download)
    requires start.resp.Done? && !start.complete
    requires var r := start.resp.msg;
             && start.left == r.contentLength && (r.mode.ChunkedCoding? ==> start.scan == Body.START)
             && r.headerLen <= |start.buf| && Fed(start, start.buf[r.headerLen..], after)
    ensures var r := start.resp.msg;
            if r.mode.UntilClose? then !after.complete
            else Framed(r.mode, r.contentLength, start.buf[r.headerLen..], false, after.left, after.scan, after.complete)
  {
    hide Body.Run;
  }

  lemma HeaderKnown(down: Download, log: Log, head: bool)
    requires Relaying(down, log, head, true) && down.headersDone
    ensures down.resp.Done?
  {
    hide ParseResponse, Framed;
  }

  /** More of the body. */
  lemma BodyGrows(down: Download, log: Log, head: bool, data: string, after: Download)
    requires Relaying(down, log, head, true) && down.headersDone && |down.buf| + |data| <= SLOT
    requires Replied(down, data, head) == Some(after)
    ensures Relaying(after, log.(reply := log.reply + data), head, false)
  {
    hide ParseResponse, Framed, Body.Run;
    var r := down.resp.msg;
    Appended(down, log, head, data);
    ResponseGrows(Framing(log), data, head);
    if !r.mode.UntilClose? {
      FedFramed(down.(buf := down.buf + data), Framing(log)[r.headerLen..], data, after);
    }
  }

  lemma HeaderFits(buf: string, head: bool)
    requires ParseResponse(buf, head).Done?
    ensures ParseResponse(buf, head).msg.headerLen <= |buf|
  {
    hide HeaderEnd;
    UntilCloseEndsTheConnection(buf, head);
  }

  lemma Ended(down: Download, log: Log, head: bool)
    requires Relaying(down, log, head, false) && down.headersDone
    ensures Relaying(down.(eof := true), log, head, false)
  {
    hide ParseResponse, Framed;
  }

  /** What is known of an exchange when it ends. */
  lemma FinishedIsGood(up: Upload, down: Download, log: Log, ip: string)
    requires Outgoing(up, log, ip) && Relaying(down, log, up.req.Done? && up.req.msg.isHead, false)
    requires down.complete && down.off == |down.buf| && up.req.msg.keepAlive && down.resp.Done? && down.resp.msg.keepAlive
    ensures Good(Exchange(log, ip, Unwritten(up.buf, up.off), down.resp.msg)) && !down.resp.msg.mode.UntilClose?
  {
    hide ParseRequest, ParseResponse, ForUpstream, Reached;
  }

  // ----- writing ----------------------------------------------------------------------------------

  /** What waits in a buffer. */
  function Unwritten(buf: string, off: nat): string {
    if off <= |buf| then buf[off..] else ""
  }

  lemma MoreWaits(buf: string, off: nat, data: string)
    requires off <= |buf|
    ensures Unwritten(buf + data, off) == Unwritten(buf, off) + data
  {
    assert (buf + data)[off..] == buf[off..] + data;
  }

  /** The part of it that the socket takes. */
  function Written(script: seq<Write>, pending: string): (w: string) {
    pending[..Flushed(script, |pending|).taken]
  }

  /** Bytes that are written leave the buffer and join what was written before. */
  ghost predicate Moved(buf: string, off: nat, moved: string, left: string, from: nat) {
    && off <= |buf| && from <= |left| && moved + Unwritten(left, from) == Unwritten(buf, off)
    && (left == buf || left == "")
  }

  method Flush(script: seq<Write>, buf: string, off: nat) returns (left: string, from: nat, ok: bool)
    requires off <= |buf|
    ensures Moved(buf, off, Written(script, Unwritten(buf, off)), left, from)
    ensures ok == Flushed(script, |Unwritten(buf, off)|).ok
    ensures ok ==> (from == |left| <==> Written(script, Unwritten(buf, off)) == Unwritten(buf, off))
    ensures (left, from) == Emptied(script, buf, off)
  {
    hide Flushed;
    FailureLeaves(script, |buf| - off);
    left, from, ok := DrainWrite(script, buf, off);
    ghost var n := Flushed(script, |buf| - off).taken;
    assert buf[off..][..n] == buf[off..off + n];
    assert off + n == |buf| ==> buf[off..][..n] == buf[off..];
  }

  /** A buffer and its offset after a write: an emptied buffer starts again from 0. */
  function Emptied(script: seq<Write>, buf: string, off: nat): (string, nat) {
    var w := Written(script, Unwritten(buf, off));
    if w == Unwritten(buf, off) then ("", 0) else (buf, off + |w|)
  }

  lemma {:induction false} FailureLeaves(script: seq<Write>, n: nat)
    ensures !Flushed(script, n).ok ==> Flushed(script, n).taken < n
  {
    if n != 0 && script != [] {
      match script[0] {
        case Took(k) => if k != 0 { FailureLeaves(script[1..], n - Least(k, n)); }
        case WriteInterrupted => FailureLeaves(script[1..], n);
        case _ =>
      }
    }
  }

  /** The bytes of an exchange after its buffers have been written; the client gets nothing more when
      the upstream's socket fails. */
  function Wrote(log: Log, unsent: string, down: Download, toUpstream: seq<Write>, toClient: seq<Write>): Log {
    var sent := log.(sent := log.sent + Written(toUpstream, unsent));
    if !Flushed(toUpstream, |unsent|).ok then sent
    else sent.(relayed := log.relayed + Written(toClient, Unwritten(down.buf, down.off)),
               cut := CutAfter(down, log, Emptied(toClient, down.buf, down.off).0))
  }

  /** One exchange moves on: nothing that has passed is taken back, and nothing is relayed that has
      not come. */
  ghost predicate Onward(before: Log, after: Log) {
    && before.received <= after.received && before.sent <= after.sent && before.reply <= after.reply
    && before.relayed <= after.relayed <= after.reply
  }

  lemma Transparent(down: Download, log: Log, head: bool, marked: bool)
    requires Relaying(down, log, head, marked)
    ensures Onward(log, log) && Relaying(down, log, head, false)
  {
    hide ParseResponse, Framed;
  }

  lemma UploadMoves(up: Upload, log: Log, ip: string, moved: string, left: string, from: nat)
    requires Outgoing(up, log, ip) && Moved(up.buf, up.off, moved, left, from)
    ensures Outgoing(up.(buf := left, off := from), log.(sent := log.sent + moved), ip)
  {
    hide ParseRequest, ForUpstream, Framed;
    assert (log.sent + moved) + left[from..] == log.sent + up.buf[up.off..];
  }

  /** What a write leaves in the buffer; a header that is not known yet loses the bytes of a buffer
      that has been emptied, and only of such a one. */
  function CutAfter(down: Download, log: Log, left: string): nat {
    if down.headersDone || |log.reply| < |left| then log.cut else |log.reply| - |left|
  }

  lemma DownloadMoves(down: Download, log: Log, head: bool, moved: string, left: string, from: nat)
    requires Relaying(down, log, head, false) && Moved(down.buf, down.off, moved, left, from)
    ensures var after := log.(relayed := log.relayed + moved, cut := CutAfter(down, log, left));
            Relaying(down.(buf := left, off := from), after, head, false)
    ensures !down.headersDone && left == down.buf ==> CutAfter(down, log, left) == log.cut
    ensures !down.headersDone && left == "" ==> CutAfter(down, log, left) == |log.reply|
  {
    hide ParseResponse, Framed;
    assert (log.relayed + moved) + left[from..] == log.relayed + down.buf[down.off..];
    NothingYet();
  }

  /** A response that ends with its connection is complete when the connection has ended. */
  function Marked(down: Download): Download {
    if down.eof && down.headersDone && down.resp.Done? && down.resp.msg.mode.UntilClose? then down.(complete := true) else down
  }

  lemma MarkedKeeps(down: Download, log: Log, head: bool)
    requires Relaying(down, log, head, false)
    ensures Relaying(Marked(down), log, head, true) && Relaying(Marked(down), log, head, false)
    ensures (down.headersDone ==> down.resp.Done?) && (Marked(down).complete ==> down.resp.Done?)
  {
    hide ParseResponse, Framed;
  }

  lemma OutgoingIgnores(up: Upload, log: Log, ip: string, other: Log)
    requires Outgoing(up, log, ip) && other == log.(reply := other.reply, relayed := other.relayed, cut := other.cut)
    ensures Outgoing(up, other, ip)
  {
    hide ParseRequest, ForUpstream, Framed;
  }

  lemma RelayingIgnores(down: Download, log: Log, head: bool, marked: bool, other: Log)
    requires Relaying(down, log, head, marked)
    requires other == log.(received := other.received, sent := other.sent, rewrites := other.rewrites)
    ensures Relaying(down, other, head, marked)
  {
    hide ParseResponse, Framed;
  }

  /** Neither direction says anything about the bytes of the other. */
  lemma SidesApart(up: Upload, down: Download, log: Log, ip: string, head: bool, marked: bool, other: Log)
    requires Outgoing(up, log, ip) && Relaying(down, log, head, marked)
    ensures Outgoing(up, log.(reply := other.reply, relayed := other.relayed, cut := other.cut), ip)
    ensures Relaying(down, log.(received := other.received, sent := other.sent), head, marked)
    ensures up.off <= |up.buf| <= SLOT && down.off <= |down.buf| <= SLOT && up.req.Done?
  {
    hide ParseRequest, ParseResponse, ForUpstream, Framed;
  }

  // ----- from counters to streams -----------------------------------------------------------------

  /** In the stream `body` that follows a header, the body that the header announces ends at `end`:
      for a chunked one, after the coding of section 7.1 of RFC 9112. */
  ghost predicate EndsAt(mode: BodyMode, length: nat, body: string, end: nat) {
    match mode
    case NoBody => end == 0
    case Length => end == length
    case ChunkedCoding => exists b: Body.Body, rest: string :: b.Valid() && body == b.Text() + rest && end == |b.Text()|
    case UntilClose => false
  }

  /** However much of the stream has been read, the end is reached exactly when all of it has. */
  lemma ReachedExactly(mode: BodyMode, length: nat, body: string, end: nat, k: nat, closed: bool)
    requires EndsAt(mode, length, body, end) && k <= |body|
    ensures Reached(mode, length, body[..k], closed) <==> k >= end
  {
    hide Body.Run;
    if mode.ChunkedCoding? {
      var b: Body.Body, rest: string :| b.Valid() && body == b.Text() + rest && end == |b.Text()|;
      Body.DoneExactlyAtTheEnd(b, rest, k);
    }
  }

  /** The request side of a connection, against the whole stream its client is sending. */
  lemma RequestCompleteExactly(up: Upload, log: Log, ip: string, stream: string, end: nat)
    requires Outgoing(up, log, ip) && log.received <= stream && up.req.msg.headerLen <= |stream|
    requires EndsAt(up.req.msg.mode, up.req.msg.contentLength, stream[up.req.msg.headerLen..], end)
    ensures ParseRequest(stream) == up.req && ForUpstream(stream, ip) == log.sent + Unwritten(up.buf, up.off) + stream[|log.received|..]
    ensures up.complete <==> |log.received| >= up.req.msg.headerLen + end
  {
    hide ParseRequest, ForUpstream, Reached, EndsAt;
    var h, k := up.req.msg.headerLen, |log.received|;
    var more := stream[k..];
    assert stream == log.received + more;
    RequestGrows(log.received, more, ip);
    assert stream[h..][..k - h] == log.received[h..];
    ReachedExactly(up.req.msg.mode, up.req.msg.contentLength, stream[h..], end, k - h, false);
  }

  // ----- when the framing is that of the stream -------------------------------------------------------

  /** The verdict on stream[cut..k] frames the response as the header of the whole stream does: not
      before it is complete, and then with the same end of the header and the same end of the body. */
  ghost predicate AsOwn(stream: string, head: bool, cut: nat, k: nat)
    requires cut <= k <= |stream| && ParseResponse(stream, head).Done?
  {
    var own := ParseResponse(stream, head).msg;
    match ParseResponse(stream[cut..k], head)
    case NeedMore => k < HeaderEnd(stream)
    case Done(r) =>
      && k >= HeaderEnd(stream) && cut + r.headerLen == HeaderEnd(stream)
      && r.mode == own.mode && (r.mode.Length? ==> r.contentLength == own.contentLength)
    case Refused(_) => false
  }

  ghost predicate FramesAsOwn(stream: string, head: bool, cut: nat)
    requires cut <= |stream| && ParseResponse(stream, head).Done?
  {
    forall k :: cut <= k <= |stream| ==> AsOwn(stream, head, cut, k)
  }

  /** The header lines of what is left of a stream; none if there is no header in it. */
  function LinesLeft(stream: string, cut: nat): seq<string>
    requires cut <= |stream|
  {
    if HeaderEnd(stream[cut..]) == 0 then [] else HeaderOf(stream[cut..])
  }

  /** Two headers that both begin with a status line and delimit the body alike. */
  predicate DelimitAlike(own: seq<string>, left: seq<string>, head: bool) {
    && own != [] && left != [] && StatusLine(own[0]).Some? && StatusLine(left[0]).Some?
    && var mine, theirs := FieldsOf(own[1..]), FieldsOf(left[1..]);
       var mode := Delimiter(head, StatusLine(own[0]).value.1, mine);
       && Delimiter(head, StatusLine(left[0]).value.1, theirs) == mode
       && (mode.Length? ==> LastLength(Values(theirs, ContentLength)) == LastLength(Values(mine, ContentLength)))
  }

  /** For a header within the limit: when the first `cut` bytes of a stream have been lost, the
      response is framed as its own header says, at every moment, if and only if the loss stops before
      the blank line, what is left of the header still begins with a status line, and the lines that
      are left delimit the body as all of them do. */
  lemma FramingAgrees(stream: string, head: bool, cut: nat)
    requires 0 < HeaderEnd(stream) <= MAX_HEADER + 1 && ParseResponse(stream, head).Done? && cut <= |stream|
    ensures FramesAsOwn(stream, head, cut) <==>
            cut + 4 <= HeaderEnd(stream) && DelimitAlike(HeaderOf(stream), LinesLeft(stream, cut), head)
  {
    hide ParseResponse, HeaderEnd, HeaderOf, DelimitAlike, AsOwn;
    if cut + 4 <= HeaderEnd(stream) {
      forall k | cut <= k <= |stream|
        ensures AsOwn(stream, head, cut, k) <==>
                k < HeaderEnd(stream) || DelimitAlike(HeaderOf(stream), LinesLeft(stream, cut), head)
      {
        JudgedLater(stream, head, cut, k);
      }
      EndInside(stream);
      assert AsOwn(stream, head, cut, |stream|) || !FramesAsOwn(stream, head, cut);
    } else {
      NeverOwn(stream, head, cut);
    }
  }

  /** The verdict on what is left, before and after the blank line has come. */
  lemma JudgedLater(stream: string, head: bool, cut: nat, k: nat)
    requires 0 < HeaderEnd(stream) <= MAX_HEADER + 1 && ParseResponse(stream, head).Done?
    requires cut <= k <= |stream| && cut + 4 <= HeaderEnd(stream)
    ensures AsOwn(stream, head, cut, k) <==>
            k < HeaderEnd(stream) || DelimitAlike(HeaderOf(stream), LinesLeft(stream, cut), head)
  {
    hide ParseResponse, HeaderEnd, HeaderOf, DelimitAlike, BlankAt;
    VerdictLeft(stream, head, cut, k);
    if k >= HeaderEnd(stream) {
      AlikeIsOwn(stream, stream[cut..], head);
    }
  }

  lemma VerdictLeft(stream: string, head: bool, cut: nat, k: nat)
    requires 0 < HeaderEnd(stream) <= MAX_HEADER + 1 && cut <= k <= |stream| && cut + 4 <= HeaderEnd(stream)
    ensures HeaderEnd(stream[cut..]) == HeaderEnd(stream) - cut
    ensures ParseResponse(stream[cut..k], head) ==
            if k < HeaderEnd(stream) then NeedMore else ParseResponse(stream[cut..], head)
  {
    hide ParseResponse, HeaderEnd, BlankAt;
    var left := stream[cut..];
    HeaderEndOfRest(stream, cut);
    assert left[..k - cut] == stream[cut..k];
    EveryCut(left, head, k - cut);
  }

  lemma AlikeIsOwn(stream: string, left: string, head: bool)
    requires HeaderEnd(stream) != 0 && HeaderEnd(left) != 0 && ParseResponse(stream, head).Done?
    ensures DelimitAlike(HeaderOf(stream), HeaderOf(left), head) <==>
            && ParseResponse(left, head).Done?
            && var own, r := ParseResponse(stream, head).msg, ParseResponse(left, head).msg;
               r.mode == own.mode && (r.mode.Length? ==> r.contentLength == own.contentLength)
    ensures !ParseResponse(left, head).NeedMore?
    ensures ParseResponse(left, head).Done? ==> ParseResponse(left, head).msg.headerLen == HeaderEnd(left)
  {
    hide ParseResponse, HeaderEnd, HeaderOf, StatusLine, Delimiter, LastLength, Values, FieldsOf;
    MeaningOf(stream, head);
    MeaningOf(left, head);
  }

  lemma NeverOwn(stream: string, head: bool, cut: nat)
    requires 0 < HeaderEnd(stream) && ParseResponse(stream, head).Done? && cut <= |stream| && cut + 4 > HeaderEnd(stream)
    ensures !FramesAsOwn(stream, head, cut)
  {
    hide ParseResponse, HeaderEnd;
    EndInside(stream);
    var k := if cut <= HeaderEnd(stream) then HeaderEnd(stream) else cut;
    NoShortHeader(stream[cut..k]);
    NotFound(stream[cut..k], head);
    assert !AsOwn(stream, head, cut, k);
  }

  /** A stream that has lost nothing is framed as its own header says. */
  lemma UncutFramesAsOwn(stream: string, head: bool)
    requires 0 < HeaderEnd(stream) <= MAX_HEADER + 1 && ParseResponse(stream, head).Done?
    ensures FramesAsOwn(stream, head, 0)
  {
    hide ParseResponse, HeaderEnd, HeaderOf, StatusLine, Delimiter, LastLength, Values, FieldsOf;
    FramingAgrees(stream, head, 0);
    assert stream[0..] == stream;
    MeaningOf(stream, head);
    AtLeastBlank(stream);
  }

  lemma AtLeastBlank(s: string)
    requires HeaderEnd(s) != 0
    ensures HeaderEnd(s) >= 4
  {
  }

  /** The response side, against the whole stream the upstream is sending, whatever client events
      come in between, as long as what has been lost of the header does not change its framing: the
      header is known exactly when all of it has been read, and the response is complete exactly when
      its framed end has, or, without one, when the upstream has closed. */
  lemma ResponseFramedExactly(down: Download, log: Log, head: bool, stream: string, end: nat)
    requires Relaying(down, log, head, true) && log.reply <= stream
    requires 0 < HeaderEnd(stream) <= MAX_HEADER + 1 && ParseResponse(stream, head).Done?
    requires FramesAsOwn(stream, head, log.cut)
    ensures down.headersDone <==> |log.reply| >= HeaderEnd(stream)
    ensures var r := ParseResponse(stream, head).msg;
            && r.headerLen == HeaderEnd(stream) <= |stream|
            && (r.mode.UntilClose? ==> (down.complete <==> down.eof))
            && (EndsAt(r.mode, r.contentLength, stream[r.headerLen..], end) ==>
                  (down.complete <==> |log.reply| >= r.headerLen + end && down.headersDone))
  {
    hide ParseResponse, EndsAt, HeaderEnd, Relaying, AsOwn;
    CutInside(down, log, head);
    assert AsOwn(stream, head, log.cut, |log.reply|);
    KnownExactly(down, log, head, stream);
    UntilCloseEndsTheConnection(stream, head);
    EndInside(stream);
    if down.headersDone {
      CompleteExactly(down, log, head, stream, end);
    } else {
      NothingComplete(down, log, head);
    }
  }

  lemma CutInside(down: Download, log: Log, head: bool)
    requires Relaying(down, log, head, true)
    ensures log.cut <= |log.reply|
  {
    hide ParseResponse, ReplyFramed;
  }

  lemma NothingComplete(down: Download, log: Log, head: bool)
    requires Relaying(down, log, head, true) && !down.headersDone
    ensures !down.complete && !down.eof
  {
    hide ParseResponse, ReplyFramed;
  }

  lemma KnownExactly(down: Download, log: Log, head: bool, stream: string)
    requires Relaying(down, log, head, true) && log.reply <= stream && |log.reply| <= |stream| && log.cut <= |log.reply|
    requires ParseResponse(stream, head).Done? && AsOwn(stream, head, log.cut, |log.reply|)
    ensures down.headersDone <==> |log.reply| >= HeaderEnd(stream)
  {
    hide ParseResponse, ReplyFramed, HeaderEnd;
    assert stream[log.cut..|log.reply|] == Framing(log);
  }

  /** In particular when nothing has been lost: no write has emptied the buffer before the header was
      known. */
  lemma ResponseCompleteExactly(down: Download, log: Log, head: bool, stream: string, end: nat)
    requires Relaying(down, log, head, true) && log.cut == 0 && log.reply <= stream
    requires 0 < HeaderEnd(stream) <= MAX_HEADER + 1 && ParseResponse(stream, head).Done?
    ensures down.headersDone <==> |log.reply| >= HeaderEnd(stream)
    ensures var r := ParseResponse(stream, head).msg;
            && r.headerLen == HeaderEnd(stream) <= |stream|
            && (r.mode.UntilClose? ==> (down.complete <==> down.eof))
            && (EndsAt(r.mode, r.contentLength, stream[r.headerLen..], end) ==>
                  (down.complete <==> |log.reply| >= r.headerLen + end && down.headersDone))
  {
    hide ParseResponse, Reached, EndsAt, HeaderEnd, Relaying, FramesAsOwn;
    UncutFramesAsOwn(stream, head);
    ResponseFramedExactly(down, log, head, stream, end);
  }

  lemma CompleteExactly(down: Download, log: Log, head: bool, stream: string, end: nat)
    requires Relaying(down, log, head, true) && log.reply <= stream && down.headersDone && ParseResponse(stream, head).Done?
    requires |log.reply| <= |stream| && stream[..|log.reply|] == log.reply && AsOwn(stream, head, log.cut, |log.reply|)
    ensures var r := ParseResponse(stream, head).msg;
            && r.headerLen <= |stream|
            && (r.mode.UntilClose? ==> (down.complete <==> down.eof))
            && (EndsAt(r.mode, r.contentLength, stream[r.headerLen..], end) ==>
                  (down.complete <==> |log.reply| >= r.headerLen + end))
  {
    hide ParseResponse, Relaying, HeaderEnd, EndsAt, AsOwn;
    var own, h, k := ParseResponse(stream, head).msg, HeaderEnd(stream), |log.reply|;
    UntilCloseEndsTheConnection(stream, head);
    EndInside(stream);
    OwnHeader(down, log, head, stream);
    if EndsAt(own.mode, own.contentLength, stream[h..], end) {
      if own.mode.UntilClose? {
        NoEnd(own.contentLength, stream[h..], end);
      } else {
        ReachedAtEnd(down, Framing(log), own.mode, own.contentLength, stream[h..], end, k - h);
      }
    }
  }

  /** The record of the response, when it frames as the header of the stream does. */
  lemma OwnHeader(down: Download, log: Log, head: bool, stream: string)
    requires Relaying(down, log, head, true) && log.reply <= stream && down.headersDone && ParseResponse(stream, head).Done?
    requires |log.reply| <= |stream| && AsOwn(stream, head, log.cut, |log.reply|)
    ensures down.resp.Done? && HeaderEnd(stream) <= |log.reply| && ReplyFramed(down, Framing(log), true)
    ensures var own, r, h := ParseResponse(stream, head).msg, down.resp.msg, HeaderEnd(stream);
            && r.mode == own.mode && (r.mode.Length? ==> r.contentLength == own.contentLength)
            && r.headerLen <= |Framing(log)| && Framing(log)[r.headerLen..] == stream[h..][..|log.reply| - h]
  {
    hide ParseResponse, HeaderEnd, ReplyFramed, Relaying, AsOwn, Framing;
    CutInside(down, log, head);
    KnownRecord(down, log, head);
    PrefixSlice(log, stream);
    OwnDone(stream, head, log.cut, |log.reply|);
    SliceOfRest(stream, log.cut, |log.reply|, HeaderEnd(stream));
  }

  lemma KnownRecord(down: Download, log: Log, head: bool)
    requires Relaying(down, log, head, true) && down.headersDone
    ensures down.resp.Done? && ParseResponse(Framing(log), head) == down.resp && ReplyFramed(down, Framing(log), true)
  {
    hide ParseResponse, ReplyFramed;
  }

  lemma PrefixSlice(log: Log, stream: string)
    requires log.reply <= stream && log.cut <= |log.reply|
    ensures |log.reply| <= |stream| && stream[log.cut..|log.reply|] == Framing(log)
  {
  }

  lemma OwnDone(stream: string, head: bool, cut: nat, k: nat)
    requires cut <= k <= |stream| && ParseResponse(stream, head).Done? && AsOwn(stream, head, cut, k)
    requires ParseResponse(stream[cut..k], head).Done?
    ensures var own, r := ParseResponse(stream, head).msg, ParseResponse(stream[cut..k], head).msg;
            && k >= HeaderEnd(stream) && cut + r.headerLen == HeaderEnd(stream)
            && r.mode == own.mode && (r.mode.Length? ==> r.contentLength == own.contentLength)
  {
    hide ParseResponse, HeaderEnd;
  }

  lemma SliceOfRest(stream: string, cut: nat, k: nat, h: nat)
    requires cut <= h <= k <= |stream|
    ensures |stream[cut..k]| >= h - cut && stream[cut..k][h - cut..] == stream[h..][..k - h]
  {
  }

  lemma ReachedAtEnd(down: Download, framing: string, mode: BodyMode, length: nat, body: string, end: nat, k: nat)
    requires down.resp.Done? && ReplyFramed(down, framing, true) && k <= |body| && EndsAt(mode, length, body, end)
    requires var r := down.resp.msg;
             && !mode.UntilClose? && r.mode == mode && (mode.Length? ==> r.contentLength == length)
             && framing[r.headerLen..] == body[..k]
    ensures down.complete <==> k >= end
  {
    hide Reached, EndsAt;
    ReachedExactly(mode, length, body, end, k, false);
    SameReach(mode, length, down.resp.msg.contentLength, body[..k]);
  }

  lemma NoEnd(length: nat, body: string, end: nat)
    ensures !EndsAt(UntilClose, length, body, end)
  {
  }

  lemma SameReach(mode: BodyMode, a: nat, b: nat, body: string)
    requires mode.Length? ==> a == b
    ensures Reached(mode, a, body, false) == Reached(mode, b, body, false)
  {
    hide Body.Run;
  }
}
