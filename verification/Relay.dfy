/** Moving bytes between two sockets, and knowing how far the message they belong to has come.

    What a socket does is a script of the results of successive calls; a script that runs out
    answers "would block".  Every statement holds for all scripts. */
module Relay {
  import opened Text
  import opened HttpParser
  import opened HttpResponses
  import opened Rewriting
  import opened Chunked

  const SLOT := 16384

  // ----- sockets --------------------------------------------------------------------------------

  /** The result of one read: never more than there is room for. */
  datatype Read = Bytes(data: string) | Eof | ReadInterrupted | ReadWouldBlock | ReadFailed

  /** The result of one write: never more than was offered. */
  datatype Write = Took(n: nat) | WriteInterrupted | WriteWouldBlock | WriteFailed

  datatype Input = Input(data: string, eof: bool, ok: bool)
  datatype Output = Output(taken: nat, ok: bool)

  function Least(a: nat, b: nat): nat {
    if a <= b then a else b
  }

  /** What reading until the socket would block, or until the room is used up, brings. */
  function Drained(script: seq<Read>, room: nat): (r: Input)
    ensures |r.data| <= room
  {
    if room == 0 || script == [] then Input("", false, true)
    else
      match script[0]
      case Bytes(d) =>
        if d == "" then Input("", true, true)
        else
          var got := d[..Least(|d|, room)];
          var rest := Drained(script[1..], room - |got|);
          Input(got + rest.data, rest.eof, rest.ok)
      case Eof => Input("", true, true)
      case ReadInterrupted => Drained(script[1..], room)
      case ReadWouldBlock => Input("", false, true)
      case ReadFailed => Input("", false, false)
  }

  /** How many of n bytes are written before the socket would block or fails. */
  function Flushed(script: seq<Write>, n: nat): (r: Output)
    ensures r.taken <= n
  {
    if n == 0 || script == [] then Output(0, true)
    else
      match script[0]
      case Took(k) =>
        if k == 0 then Output(0, false)
        else
          var m := Least(k, n);
          var rest := Flushed(script[1..], n - m);
          Output(m + rest.taken, rest.ok)
      case WriteInterrupted => Flushed(script[1..], n)
      case WriteWouldBlock => Output(0, true)
      case WriteFailed => Output(0, false)
  }

  /** Whatever pieces the bytes come in, and with however many interruptions in between, all that comes is
      read, up to the room; what ends it is looked at only while there is room. */
  lemma {:induction false} AllIsRead(pieces: seq<Read>, ending: Read, room: nat)
    requires forall p <- pieces :: p.ReadInterrupted? || (p.Bytes? && p.data != "")
    requires ending.Eof? || ending.ReadWouldBlock? || ending.ReadFailed?
    ensures Drained(pieces + [ending], room) ==
            if |BytesOf(pieces)| >= room then Input(BytesOf(pieces)[..room], false, true)
            else Input(BytesOf(pieces), ending.Eof?, !ending.ReadFailed?)
    decreases |pieces|
  {
    hide Drained, BytesOf;
    BytesOne(pieces);
    ReadOne(pieces + [ending], room);
    if pieces == [] {
      assert pieces + [ending] == [ending];
    } else {
      var p := pieces[0];
      assert p in pieces;
      assert (pieces + [ending])[1..] == pieces[1..] + [ending];
      if p.ReadInterrupted? {
        AllIsRead(pieces[1..], ending, room);
      } else if room > 0 {
        AllIsRead(pieces[1..], ending, room - Least(|p.data|, room));
        TakenInPieces(p.data, BytesOf(pieces[1..]), room);
      }
    }
  }

  lemma BytesOne(pieces: seq<Read>)
    ensures pieces == [] ==> BytesOf(pieces) == ""
    ensures pieces != [] && pieces[0].Bytes? ==> BytesOf(pieces) == pieces[0].data + BytesOf(pieces[1..])
    ensures pieces != [] && !pieces[0].Bytes? ==> BytesOf(pieces) == BytesOf(pieces[1..])
  {
  }

  /** The first call of a script. */
  lemma ReadOne(script: seq<Read>, room: nat)
    requires script != []
    ensures room == 0 ==> Drained(script, room) == Input("", false, true)
    ensures room > 0 && script[0].Eof? ==> Drained(script, room) == Input("", true, true)
    ensures room > 0 && script[0].ReadWouldBlock? ==> Drained(script, room) == Input("", false, true)
    ensures room > 0 && script[0].ReadFailed? ==> Drained(script, room) == Input("", false, false)
    ensures room > 0 && script[0].ReadInterrupted? ==> Drained(script, room) == Drained(script[1..], room)
    ensures room > 0 && script[0].Bytes? && script[0].data != "" ==>
              var got := script[0].data[..Least(|script[0].data|, room)];
              var rest := Drained(script[1..], room - |got|);
              Drained(script, room) == Input(got + rest.data, rest.eof, rest.ok)
  {
  }

  /** All bytes of a script. */
  function BytesOf(pieces: seq<Read>): string {
    if pieces == [] then "" else (if pieces[0].Bytes? then pieces[0].data else "") + BytesOf(pieces[1..])
  }

  lemma TakenInPieces(a: string, b: string, room: nat)
    ensures |a| >= room ==> (a + b)[..room] == a[..room]
    ensures |a| < room <= |a + b| ==> (a + b)[..room] == a + b[..room - |a|]
  {
  }

  /** And all is written that the socket takes, in however many calls. */
  lemma {:induction false} AllIsWritten(calls: seq<Write>, ending: Write, n: nat)
    requires forall c <- calls :: c.WriteInterrupted? || (c.Took? && c.n > 0)
    requires ending.WriteWouldBlock? || ending.WriteFailed?
    ensures Flushed(calls + [ending], n) ==
            if TakenBy(calls) >= n then Output(n, true) else Output(TakenBy(calls), ending.WriteWouldBlock?)
    decreases |calls|
  {
    if calls == [] {
      assert calls + [ending] == [ending];
    } else {
      var c := calls[0];
      assert c in calls;
      assert (calls + [ending])[1..] == calls[1..] + [ending];
      if n > 0 {
        AllIsWritten(calls[1..], ending, if c.Took? then n - Least(c.n, n) else n);
      }
    }
  }

  function TakenBy(calls: seq<Write>): nat {
    if calls == [] then 0 else (if calls[0].Took? then calls[0].n else 0) + TakenBy(calls[1..])
  }

  /** Reads into a buffer that holds `buf`; the end of the stream is reported beside the data. */
  method DrainRead(script: seq<Read>, buf: string, cap: nat, seen: bool) returns (full: string, eof: bool, ok: bool)
    requires |buf| <= cap
    ensures var input := Drained(script, cap - |buf|);
            full == buf + input.data && eof == (seen || input.eof) && ok == input.ok
  {
    full, eof := buf, seen;
    var k := 0;
    while |full| < cap && k < |script|
      invariant k <= |script| && buf <= full && |full| <= cap && eof == seen
      invariant var all, rest := Drained(script, cap - |buf|), Drained(script[k..], cap - |full|);
                buf + all.data == full + rest.data && all.eof == rest.eof && all.ok == rest.ok
    {
      var r := script[k];
      assert script[k..][1..] == script[k + 1..];
      k := k + 1;
      match r {
        case Bytes(d) =>
          if d == "" {
            return full, true, true;
          }
          full := full + d[..Least(|d|, cap - |full|)];
        case Eof => return full, true, true;
        case ReadInterrupted =>
        case ReadWouldBlock => return full, eof, true;
        case ReadFailed => return full, eof, false;
      }
    }
    return full, eof, true;
  }

  /** Writes buf[off..]; a buffer that has been emptied starts again from its beginning. */
  method DrainWrite(script: seq<Write>, buf: string, off: nat) returns (left: string, from: nat, ok: bool)
    requires off <= |buf|
    ensures var o := Flushed(script, |buf| - off);
            && ok == o.ok
            && (o.ok && off + o.taken == |buf| ==> left == "" && from == 0)
            && (!o.ok || off + o.taken < |buf| ==> left == buf && from == off + o.taken)
    ensures from <= |left| && buf[off..off + Flushed(script, |buf| - off).taken] + left[from..] == buf[off..]
  {
    left, from := buf, off;
    var k := 0;
    while from < |buf| && k < |script|
      invariant k <= |script| && off <= from <= |buf| && left == buf
      invariant var all, rest := Flushed(script, |buf| - off), Flushed(script[k..], |buf| - from);
                off + all.taken == from + rest.taken && all.ok == rest.ok
    {
      var w := script[k];
      assert script[k..][1..] == script[k + 1..];
      k := k + 1;
      match w {
        case Took(n) =>
          if n == 0 {
            return left, from, false;
          }
          from := from + Least(n, |buf| - from);
        case WriteInterrupted =>
        case WriteWouldBlock => return left, from, true;
        case WriteFailed => return left, from, false;
      }
    }
    if from == |buf| {
      return "", 0, true;
    }
    return left, from, true;
  }

  // ----- how far a message has come -------------------------------------------------------------

  function Rest(length: nat, seen: nat): nat {
    if seen >= length then 0 else length - seen
  }

  /** The body bytes received so far reach the end that the header announced. */
  predicate Reached(mode: BodyMode, length: nat, body: string, closed: bool) {
    match mode
    case NoBody => true
    case Length => |body| >= length
    case ChunkedCoding => Run(START, body).0.done
    case UntilClose => closed
  }

  /** What the counters of a connection say about the body bytes received so far. */
  ghost predicate Framed(mode: BodyMode, length: nat, body: string, closed: bool, left: nat, scan: Scan, complete: bool) {
    && (mode.Length? ==> left == Rest(length, |body|))
    && (mode.ChunkedCoding? ==> scan == Run(START, body).0 && !scan.error)
    && (complete <==> Reached(mode, length, body, closed))
  }

  /** Counting down and scanning read by read is looking at the whole body. */
  lemma FramedGrows(mode: BodyMode, length: nat, body: string, more: string, closed: bool, left: nat, scan: Scan, complete: bool)
    requires Framed(mode, length, body, closed, left, scan, complete) && !mode.UntilClose?
    ensures var rest := if |more| >= left then 0 else left - |more|;
            var next := Run(scan, more).0;
            && (mode.Length? ==> Framed(mode, length, body + more, closed, rest, scan, rest == 0))
            && (mode.ChunkedCoding? && !next.error ==> Framed(mode, length, body + more, closed, left, next, next.done))
            && (mode.NoBody? ==> Framed(mode, length, body + more, closed, left, scan, true))
            && (complete && mode.Length? ==> rest == 0)
            && (complete && mode.ChunkedCoding? ==> next == scan)
  {
    hide Run;
    if mode.ChunkedCoding? {
      RunSplit(START, body, more);
      if scan.done {
        StopRun(scan, more);
      }
    }
  }

  /** Once reached, the end stays reached, whatever is read beyond it. */
  lemma ReachedSticks(mode: BodyMode, length: nat, body: string, more: string, closed: bool)
    requires Reached(mode, length, body, closed)
    ensures Reached(mode, length, body + more, closed)
  {
    hide Run;
    if mode.ChunkedCoding? {
      RunSplit(START, body, more);
      StopRun(Run(START, body).0, more);
    }
  }

  /** No request is delimited by the end of its connection. */
  lemma RequestModes(buf: string)
    requires ParseRequest(buf).Done?
    ensures !ParseRequest(buf).msg.mode.UntilClose? && ParseRequest(buf).msg.headerLen == HeaderEnd(buf) <= |buf|
  {
    hide RequestMeaning, HeaderEnd, HeaderOf;
    ModesOf(HeaderEnd(buf), HeaderOf(buf));
  }

  lemma ModesOf(len: nat, ls: seq<string>)
    requires ls != [] && RequestMeaning(len, ls).Done?
    ensures !RequestMeaning(len, ls).msg.mode.UntilClose? && RequestMeaning(len, ls).msg.headerLen == len
  {
    hide FieldsOf, RequestLine, Acceptable, Values, Persistence, LastLength;
  }

  // ----- the request that goes upstream -----------------------------------------------------------

  /** The rewritten header, and then every byte the client sent after its own. */
  function ForUpstream(received: string, ip: string): string {
    if HeaderEnd(received) == 0 then ""
    else RewrittenText(received, ip, "http", true) + received[HeaderEnd(received)..]
  }

  /** Bytes that arrive later are appended: the header is rewritten once. */
  lemma ForUpstreamGrows(received: string, more: string, ip: string)
    requires HeaderEnd(received) != 0
    ensures HeaderEnd(received + more) == HeaderEnd(received)
    ensures ForUpstream(received + more, ip) == ForUpstream(received, ip) + more
  {
    hide RewrittenText, HeaderEnd, HeaderOf, HeaderLines, BlankAt, Block;
    var all := received + more;
    HeaderEndStable(received, all);
    var e := HeaderEnd(received);
    assert all[e..] == received[e..] + more;
    SameHeader(received, all, ip);
  }

  lemma SameHeader(received: string, all: string, ip: string)
    requires received <= all && HeaderEnd(received) == HeaderEnd(all) != 0
    ensures RewrittenText(all, ip, "http", true) == RewrittenText(received, ip, "http", true)
  {
    hide Rewritten, HeaderEnd, Lines, Block, BlankAt;
    var e := HeaderEnd(received);
    assert all[..e] == received[..e];
    assert HeaderOf(all) == HeaderOf(received);
  }

  lemma HttpPlain()
    ensures Plain("http")
  {
  }

  /** The upstream, parsing what it is sent, finds the client's request with the same body behind
      it: it sees the end of the body exactly where the proxy does. */
  lemma UpstreamSeesTheRequest(received: string, ip: string)
    requires ParseRequest(received).Done? && Plain(ip)
    requires |RewrittenText(received, ip, "http", true)| <= MAX_HEADER
    ensures var sent := ForUpstream(received, ip);
            var theirs, ours := ParseRequest(sent), ParseRequest(received).msg;
            && theirs.Done? && theirs.msg.headerLen <= |sent| && ours.headerLen <= |received|
            && theirs.msg == ours.(headerLen := theirs.msg.headerLen, keepAlive := true, hasXff := true)
            && sent[theirs.msg.headerLen..] == received[ours.headerLen..]
            && (Reached(theirs.msg.mode, theirs.msg.contentLength, sent[theirs.msg.headerLen..], false) <==>
                Reached(ours.mode, ours.contentLength, received[ours.headerLen..], false))
  {
    hide ParseRequest, HeaderEnd, RewrittenText, Plain, Run;
    RequestModes(received);
    DoneHasHeader(received);
    HttpPlain();
    RewritePreservesMeaning(received, received[HeaderEnd(received)..], ip, "http", true);
  }

  // ----- the response -------------------------------------------------------------------------------

  /** Where the end of a reply is, once its header is known. */
  ghost predicate ReplyReached(reply: string, head: bool, closed: bool) {
    match ParseResponse(reply, head)
    case Done(r) => r.headerLen <= |reply| && Reached(r.mode, r.contentLength, reply[r.headerLen..], closed)
    case _ => false
  }

  lemma ResponseGrows(reply: string, more: string, head: bool)
    requires ParseResponse(reply, head).Done?
    ensures ParseResponse(reply + more, head) == ParseResponse(reply, head)
    ensures var h := ParseResponse(reply, head).msg.headerLen;
            h <= |reply| && (reply + more)[h..] == reply[h..] + more
  {
    hide ResponseMeaning;
    if HeaderEnd(reply) == 0 {
      NotFound(reply, head);
    } else {
      FoundSticks(reply, reply + more, head);
      assert ParseResponse(reply, head).msg.headerLen == HeaderEnd(reply) by {
        UntilCloseEndsTheConnection(reply, head);
      }
    }
  }

  /** What becomes of a response header whose first k bytes have been flushed before the rest came:
      the rest is judged as a header of its own, refused unless it too begins with a status line; and
      when only bytes of the blank line remain, it is never recognised. */
  lemma EarlyFlushHidesTheHeader(reply: string, head: bool, k: nat)
    requires HeaderEnd(reply) == |reply| != 0 && k <= |reply|
    ensures k + 4 <= |reply| ==>
              && HeaderEnd(reply[k..]) == |reply| - k && HeaderOf(reply[k..]) != []
              && (if StatusLine(HeaderOf(reply[k..])[0]).None? then ParseResponse(reply[k..], head) == Refused(502)
                  else ParseResponse(reply[k..], head).Done?)
    ensures k + 4 > |reply| ==> ParseResponse(reply[k..], head) == NeedMore
    ensures ParseResponse(reply, head) != NeedMore
  {
    hide ParseResponse, StatusLine, HeaderOf, HeaderEnd;
    Found(reply, head);
    if k + 4 <= |reply| {
      HeaderEndOfRest(reply, k);
      MeaningOf(reply[k..], head);
    } else {
      NoShortHeader(reply[k..]);
      NotFound(reply[k..], head);
    }
  }
}
