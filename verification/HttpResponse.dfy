/** Response headers, and how a response body is delimited (section 6.3 of RFC 9112). */
module HttpResponses {
  import opened Text
  import opened HttpParser

  datatype Response = Response(headerLen: nat, statusCode: int, minor: int, mode: BodyMode,
                               contentLength: nat, keepAlive: bool)

  /** A byte as the C compiler reads a plain `char`: signed. */
  function Signed(c: char): int {
    if c as int < 128 then c as int else c as int - 256
  }

  /** HTTP/1.x SP code: the minor version and the status code. */
  function StatusLine(l: string): Option<(int, int)> {
    if |l| < 12 || l[..7] != "HTTP/1." then None
    else
      var code := (Signed(l[9]) - 48) * 100 + (Signed(l[10]) - 48) * 10 + (Signed(l[11]) - 48);
      if code < 100 || code > 599 then None else Some((if l[7] == '0' then 0 else 1, code))
  }

  /** The last field of a name decides, even when it is not clean. */
  function LastOf(fields: seq<Field>, name: Name): Option<Field> {
    if fields == [] then None
    else if fields[|fields| - 1].name == name then Some(fields[|fields| - 1])
    else LastOf(fields[..|fields| - 1], name)
  }

  predicate Bodyless(head: bool, code: int) {
    head || code == 204 || code == 304 || 100 <= code < 200
  }

  function Delimiter(head: bool, code: int, fields: seq<Field>): BodyMode {
    var coding, length := LastOf(fields, TransferEncoding), LastOf(fields, ContentLength);
    if Bodyless(head, code) then NoBody
    else if coding.Some? && coding.value.token.Chunked? then ChunkedCoding
    else if length.Some? && ParseDec(length.value.value).Some? then Length
    else UntilClose
  }

  function ResponseMeaning(len: nat, ls: seq<string>, head: bool): Verdict<Response>
    requires ls != []
  {
    match StatusLine(ls[0])
    case None => Refused(502)
    case Some((minor, code)) =>
      var fields := FieldsOf(ls[1..]);
      var mode := Delimiter(head, code, fields);
      Done(Response(len, code, minor, mode, LastLength(Values(fields, ContentLength)),
                    mode != UntilClose && Persistence(fields, minor == 1)))
  }

  function ParseResponse(buf: string, head: bool): Verdict<Response> {
    var e := HeaderEnd(buf);
    if e == 0 then if |buf| > MAX_HEADER then Refused(502) else NeedMore
    else ResponseMeaning(e, HeaderOf(buf), head)
  }

  /** A complete header is refused for its first line or not at all; the rest delimits the body. */
  lemma MeaningOf(buf: string, head: bool)
    requires HeaderEnd(buf) != 0
    ensures HeaderOf(buf) != []
    ensures StatusLine(HeaderOf(buf)[0]).None? ==> ParseResponse(buf, head) == Refused(502)
    ensures StatusLine(HeaderOf(buf)[0]).Some? ==>
              && ParseResponse(buf, head).Done?
              && var r, fields := ParseResponse(buf, head).msg, FieldsOf(HeaderOf(buf)[1..]);
                 && r.headerLen == HeaderEnd(buf) && r.statusCode == StatusLine(HeaderOf(buf)[0]).value.1
                 && r.mode == Delimiter(head, r.statusCode, fields)
                 && r.contentLength == LastLength(Values(fields, ContentLength))
  {
    hide FieldOf, FieldsOf, StatusLine, Values, LastLength, Delimiter, Persistence, HeaderLines, Block;
    assert HeaderOf(buf) != [] by { HasLines(buf); }
  }

  lemma HasLines(buf: string)
    requires HeaderEnd(buf) != 0
    ensures HeaderOf(buf) != []
  {
  }

  /** A response that ends only with its connection never lets the connection be used again, and
      one without a body is exactly a response that cannot carry one. */
  lemma UntilCloseEndsTheConnection(buf: string, head: bool)
    requires ParseResponse(buf, head).Done?
    ensures var r := ParseResponse(buf, head).msg;
            && (r.mode == UntilClose ==> !r.keepAlive)
            && (r.mode == NoBody <==> Bodyless(head, r.statusCode))
            && r.headerLen == HeaderEnd(buf) && 100 <= r.statusCode <= 599
  {
    hide FieldOf;
  }

  // ----- when the verdict depends on how the stream is cut ----------------------------------------

  /** A complete response header keeps its meaning whatever follows it. */
  lemma FoundSticks(p: string, q: string, head: bool)
    requires p <= q && HeaderEnd(p) != 0
    ensures HeaderEnd(q) == HeaderEnd(p) && ParseResponse(q, head) == ParseResponse(p, head)
  {
    hide ResponseMeaning;
    HeaderEndStable(p, q);
    assert p[..HeaderEnd(p)] == q[..HeaderEnd(p)];
  }

  lemma Found(p: string, head: bool)
    requires HeaderEnd(p) != 0
    ensures ParseResponse(p, head) != NeedMore
    ensures ParseResponse(p, head).Refused? ==> ParseResponse(p, head) == Refused(502)
  {
    hide FieldOf, FieldsOf, StatusLine;
  }

  lemma NotFound(p: string, head: bool)
    requires HeaderEnd(p) == 0
    ensures ParseResponse(p, head) == if |p| > MAX_HEADER then Refused(502) else NeedMore
  {
    hide ResponseMeaning;
  }

  /** Every prefix that gets a verdict gets the one the whole stream gets. */
  ghost predicate SplitIndependent(stream: string, head: bool) {
    forall k :: 0 <= k <= |stream| && ParseResponse(stream[..k], head) != NeedMore ==>
      ParseResponse(stream[..k], head) == ParseResponse(stream, head)
  }

  /** Unlike for requests, the limit is checked only while the blank line is missing.  So the
      verdict is independent of the cut exactly when no header end has arrived, or it arrives
      within one byte of the limit, or the first line is not a status line. */
  lemma SplitIndependence(stream: string, head: bool)
    ensures SplitIndependent(stream, head) <==>
            HeaderEnd(stream) <= MAX_HEADER + 1 || (HeaderOf(stream) != [] && StatusLine(HeaderOf(stream)[0]).None?)
  {
    hide ParseResponse, StatusLine, HeaderOf;
    var e := HeaderEnd(stream);
    if e != 0 {
      MeaningOf(stream, head);
    }
    if e <= MAX_HEADER + 1 || ParseResponse(stream, head).Refused? {
      forall k | 0 <= k <= |stream| && ParseResponse(stream[..k], head) != NeedMore
        ensures ParseResponse(stream[..k], head) == ParseResponse(stream, head)
      {
        CutVerdict(stream, head, k);
      }
    } else {
      var p := stream[..MAX_HEADER + 1];
      HeaderEndStable(p, stream);
      NotFound(p, head);
    }
  }

  /** For a header within the limit, every cut is judged alike: not yet, until the blank line is in;
      the verdict of the whole stream from then on. */
  lemma EveryCut(stream: string, head: bool, k: nat)
    requires 0 < HeaderEnd(stream) <= MAX_HEADER + 1 && k <= |stream|
    ensures ParseResponse(stream[..k], head) == if k < HeaderEnd(stream) then NeedMore else ParseResponse(stream, head)
  {
    hide ParseResponse;
    var p := stream[..k];
    HeaderEndStable(p, stream);
    if k < HeaderEnd(stream) {
      assert HeaderEnd(p) == 0 by { EndInside(p); }
      NotFound(p, head);
    } else {
      assert HeaderEnd(p) != 0;
      FoundSticks(p, stream, head);
    }
  }

  lemma EndInside(p: string)
    ensures HeaderEnd(p) <= |p|
  {
  }

  lemma CutVerdict(stream: string, head: bool, k: nat)
    requires k <= |stream| && ParseResponse(stream[..k], head) != NeedMore
    requires HeaderEnd(stream) <= MAX_HEADER + 1 || ParseResponse(stream, head).Refused?
    ensures ParseResponse(stream[..k], head) == ParseResponse(stream, head)
  {
    hide ParseResponse;
    var p := stream[..k];
    HeaderEndStable(p, stream);
    if HeaderEnd(p) != 0 {
      FoundSticks(p, stream, head);
    } else {
      NotFound(p, head);
      if HeaderEnd(stream) == 0 {
        NotFound(stream, head);
      } else {
        Found(stream, head);
      }
    }
  }

  // ----- the response record ------------------------------------------------------------------------

  class HttpResponse {
    var status: Status
    var errorCode: int
    var headerLen: nat
    var statusCode: int
    var minorVersion: int
    var bodyMode: BodyMode
    var contentLength: nat
    var keepAlive: bool

    ghost predicate Blank()
      reads this
    {
      status == NEED_MORE && minorVersion == 1 && keepAlive && bodyMode == UntilClose && contentLength == 0
    }

    ghost function Outcome(): Verdict<Response>
      reads this
    {
      match status
      case NEED_MORE => NeedMore
      case ERROR => Refused(errorCode)
      case DONE => Done(Response(headerLen, statusCode, minorVersion, bodyMode, contentLength, keepAlive))
    }

    constructor ()
      ensures Blank()
    {
      status, errorCode, headerLen, statusCode := NEED_MORE, 0, 0, 0;
      minorVersion, keepAlive, bodyMode, contentLength := 1, true, UntilClose, 0;
    }

    method Fail() returns (st: Status)
      modifies this`status, this`errorCode
      ensures st == status == ERROR && errorCode == 502
    {
      status, errorCode := ERROR, 502;
      return ERROR;
    }

    /** The accumulated buffer, always from its first byte. */
    method Execute(buf: string, head: bool) returns (st: Status)
      requires status == NEED_MORE ==> Blank()
      modifies this
      ensures st == status
      ensures old(status) != NEED_MORE ==> unchanged(this)
      ensures old(status) == NEED_MORE ==> Outcome() == ParseResponse(buf, head)
      ensures st == NEED_MORE ==> unchanged(this)
    {
      if status != NEED_MORE {
        return status;
      }
      var end := FindHeaderEnd(buf);
      if end == 0 {
        if |buf| > MAX_HEADER {
          st := Fail();
          return;
        }
        return NEED_MORE;
      }
      headerLen := end;
      st := TakeHeader(buf[..end], HeaderOf(buf), head);
    }

    method TakeHeader(block: string, ghost ls: seq<string>, head: bool) returns (st: Status)
      requires status == NEED_MORE && contentLength == 0 && headerLen == |block|
      requires HeaderLines(ls) && block == Block(ls)
      modifies this
      ensures st == status && st != NEED_MORE && Outcome() == ResponseMeaning(|block|, ls, head)
    {
      hide FieldOf, Values, Persistence, LastLength, LastOf, Lines, Block;
      LinesOfBlock(ls);
      assert block[0..] == block;
      var eol := ReadLine(block, 0, ls + [""]);
      ghost var l := ls[0];
      if eol < 12 || block[..7] != "HTTP/1." {
        assert eol >= 12 ==> l[..7] == block[..7];
        st := Fail();
        return;
      }
      assert l[..7] == block[..7];
      assert forall i :: 0 <= i < 12 ==> l[i] == block[i];
      minorVersion := if block[7] == '0' then 0 else 1;
      keepAlive := minorVersion == 1;
      statusCode := (Signed(block[9]) - 48) * 100 + (Signed(block[10]) - 48) * 10 + (Signed(block[11]) - 48);
      if statusCode < 100 || statusCode > 599 {
        st := Fail();
        return;
      }
      assert (ls + [""])[1..] == ls[1..] + [""];
      NothingRead();
      var haveLength, haveChunked := TakeFields(block, eol + 2, ls[1..]);
      if head || statusCode == 204 || statusCode == 304 || (statusCode >= 100 && statusCode < 200) {
        bodyMode := NoBody;
      } else if haveChunked {
        bodyMode := ChunkedCoding;
      } else if haveLength {
        bodyMode := Length;
      } else {
        bodyMode, keepAlive := UntilClose, false;
      }
      status := DONE;
      return DONE;
    }

    ghost predicate Agrees(fields: seq<Field>, haveLength: bool, haveChunked: bool)
      reads this
    {
      && keepAlive == Persistence(fields, minorVersion == 1)
      && contentLength == LastLength(Values(fields, ContentLength))
      && haveLength == (LastOf(fields, ContentLength).Some? && ParseDec(LastOf(fields, ContentLength).value.value).Some?)
      && haveChunked == (LastOf(fields, TransferEncoding).Some? && LastOf(fields, TransferEncoding).value.token.Chunked?)
    }

    lemma NothingRead()
      requires keepAlive == (minorVersion == 1) && contentLength == 0
      ensures Agrees([], false, false)
    {
    }

    method TakeFields(block: string, from: nat, ghost ls: seq<string>) returns (haveLength: bool, haveChunked: bool)
      requires "" !in ls && Agrees([], false, false)
      requires from <= |block| && Lines(block[from..]) == ls + [""]
      modifies this`keepAlive, this`contentLength
      ensures Agrees(FieldsOf(ls), haveLength, haveChunked)
    {
      hide FieldOf, Agrees, Lines, FieldsOf;
      haveLength, haveChunked := false, false;
      var line := from;
      ghost var seen: seq<string>, left := [], ls;
      assert FieldsOf(seen) == [];
      while line < |block|
        invariant from <= line <= |block| && seen + left == ls
        invariant Lines(block[line..]) == left + [""]
        invariant Agrees(FieldsOf(seen), haveLength, haveChunked)
        decreases |block| - line
      {
        var le := ReadLine(block, line, left + [""]);
        if le == line {
          break;
        }
        NextOf(seen, left, ls);
        var f := SplitField(block[line..le]);
        haveLength, haveChunked := TakeField(FieldsOf(seen), f, haveLength, haveChunked);
        seen, left := seen + [left[0]], left[1..];
        line := le + 2;
      }
      BlankLineLeft(block, line, left);
      assert seen == ls;
    }

    method TakeField(ghost before: seq<Field>, f: Field, haveLength: bool, haveChunked: bool)
      returns (haveLength': bool, haveChunked': bool)
      requires Agrees(before, haveLength, haveChunked)
      modifies this`keepAlive, this`contentLength
      ensures Agrees(before + [f], haveLength', haveChunked')
    {
      hide Values, Persistence, LastLength, Acceptable, ParseDec;
      FieldSnoc(before, f, minorVersion == 1);
      assert (before + [f])[..|before + [f]| - 1] == before;
      haveLength', haveChunked' := haveLength, haveChunked;
      match f.name {
        case ContentLength =>
          var n := ParseDec(f.value);
          haveLength' := n.Some?;
          if n.Some? {
            contentLength := n.value;
          }
        case TransferEncoding => haveChunked' := f.token.Chunked?;
        case Connection =>
          if f.token.Close? {
            keepAlive := false;
          } else if f.token.KeepAlive? {
            keepAlive := true;
          }
        case _ =>
      }
    }
  }

  // ----- an example ---------------------------------------------------------------------------------

  const STATUS := "HTTP/1.1 200 OK"
  const EMPTY := "Content-Length: 0"

  lemma ExampleStatus()
    ensures StatusLine(STATUS) == Some((1, 200)) && StatusLine(EMPTY).None?
    ensures NoCrlf(STATUS) && NoCrlf(EMPTY) && |STATUS| == 15
  {
    assert STATUS[..7] == "HTTP/1." && EMPTY[6] == 't' && EMPTY[..7][6] == 't' && "HTTP/1."[6] == '.';
  }

  /** A response header, and its two parts when it is cut after the first line. */
  lemma ExampleParts(head: bool)
    ensures ParseResponse(STATUS + CRLF, head).NeedMore?
    ensures ParseResponse(EMPTY + CRLF + CRLF, head).Refused?
    ensures ParseResponse(STATUS + CRLF + (EMPTY + CRLF + CRLF), head).Done?
  {
    hide StatusLine, HeaderOf, ParseResponse, HeaderEnd, Lines;
    ExampleStatus();
    var first, second, both := STATUS + CRLF, EMPTY + CRLF + CRLF, STATUS + CRLF + (EMPTY + CRLF + CRLF);
    BlockTexts(STATUS, EMPTY);
    BlockTexts(EMPTY, STATUS);
    BlockEnd([STATUS], "");
    assert first + CRLF + "" == first + CRLF;
    HeaderEndStable(first, first + CRLF);
    EndInside(first);
    NotFound(first, head);
    ExampleHeader([EMPTY], head);
    ExampleHeader([STATUS, EMPTY], head);
  }

  lemma ExampleHeader(ls: seq<string>, head: bool)
    requires HeaderLines(ls)
    ensures ParseResponse(Block(ls), head).Done? <==> StatusLine(ls[0]).Some?
    ensures ParseResponse(Block(ls), head).Refused? <==> StatusLine(ls[0]).None?
  {
    hide StatusLine, ParseResponse, HeaderEnd, Lines;
    var buf := Block(ls);
    assert |buf| >= 2;
    hide Block;
    BlockEnd(ls, "");
    assert buf + "" == buf && buf[..|buf|] == buf;
    LinesOfBlock(ls);
    assert HeaderOf(buf) == ls;
    MeaningOf(buf, head);
  }

  lemma BlockTexts(a: string, b: string)
    ensures Block([a]) == a + CRLF + CRLF
    ensures Block([a, b]) == a + CRLF + (b + CRLF + CRLF)
  {
    assert [a][1..] == [] && [a, b][1..] == [b] && [b][1..] == [];
    assert Join([b]) == b + CRLF + "" == b + CRLF;
    assert Join([a]) == a + CRLF + "" == a + CRLF;
    assert Join([a, b]) == a + CRLF + (b + CRLF);
  }
}
