/** Request headers of HTTP/1.x, parsed again from the start on a growing buffer.

    `ParseRequest` says what a header means without following any cursor: it looks at the list of its
    lines and at the values given to each field name.  `HttpRequest` is the record of the parser,
    filled in place by one pass over the buffer. */
module HttpParser {
  import opened Text

  const MAX_HEADER := 8192
  const MAX_HOST := 256

  datatype Verdict<+T> = NeedMore | Done(msg: T) | Refused(code: int)

  datatype BodyMode = NoBody | Length | ChunkedCoding | UntilClose

  // ----- fields -----------------------------------------------------------------------------

  /** The names the proxy looks for, in any case; `Malformed` is a line without a name. */
  datatype Name =
    | Malformed | Other
    | Host | Connection | ContentLength | TransferEncoding
    | ForwardedFor | ForwardedProto | RealIp | ProxyConnection | KeepAliveField

  /** The few values that are looked at as a whole, in any case. */
  datatype Token = Close | KeepAlive | Chunked | Free

  datatype Field = Field(name: Name, value: string, token: Token)

  function NameOf(name: string): Name {
    if IEq(name, "host") then Host
    else if IEq(name, "connection") then Connection
    else if IEq(name, "x-forwarded-for") then ForwardedFor
    else if IEq(name, "content-length") then ContentLength
    else if IEq(name, "transfer-encoding") then TransferEncoding
    else if IEq(name, "x-forwarded-proto") then ForwardedProto
    else if IEq(name, "x-real-ip") then RealIp
    else if IEq(name, "proxy-connection") then ProxyConnection
    else if IEq(name, "keep-alive") then KeepAliveField
    else Other
  }

  function TokenOf(value: string): Token {
    if IEq(value, "close") then Close
    else if IEq(value, "keep-alive") then KeepAlive
    else if IEq(value, "chunked") then Chunked
    else Free
  }

  /** "Name: value", the optional space around the value cut off. */
  function FieldOf(line: string): Field {
    var c := IndexOf(line, ':');
    if c == |line| || c == 0 then Field(Malformed, "", Free)
    else
      var value := Trim(line[c + 1..]);
      Field(NameOf(line[..c]), value, TokenOf(value))
  }

  function FieldsOf(lines: seq<string>): (fs: seq<Field>)
    ensures |fs| == |lines|
    ensures forall i :: 0 <= i < |fs| ==> fs[i] == FieldOf(lines[i])
  {
    seq(|lines|, i requires 0 <= i < |lines| => FieldOf(lines[i]))
  }

  method SkipBlanks(line: string, from: nat) returns (v: nat)
    requires from <= |line|
    ensures from <= v <= |line| && line[v..] == TrimLeft(line[from..])
  {
    v := from;
    while v < |line| && Blank(line[v])
      invariant from <= v <= |line|
      invariant TrimLeft(line[from..]) == TrimLeft(line[v..])
    {
      assert line[v..][1..] == line[v + 1..];
      v := v + 1;
    }
  }

  method DropBlanks(line: string, v: nat) returns (e: nat)
    requires v <= |line|
    ensures v <= e <= |line| && line[v..e] == TrimRight(line[v..])
  {
    e := |line|;
    assert line[v..e] == line[v..];
    while e > v && Blank(line[e - 1])
      invariant v <= e <= |line|
      invariant TrimRight(line[v..]) == TrimRight(line[v..e])
    {
      assert line[v..e][..e - v - 1] == line[v..e - 1];
      e := e - 1;
    }
  }

  method Classify(name: string) returns (n: Name)
    ensures n == NameOf(name)
  {
    var eq := IEqual(name, "host");
    if eq { return Host; }
    eq := IEqual(name, "connection");
    if eq { return Connection; }
    eq := IEqual(name, "x-forwarded-for");
    if eq { return ForwardedFor; }
    eq := IEqual(name, "content-length");
    if eq { return ContentLength; }
    eq := IEqual(name, "transfer-encoding");
    if eq { return TransferEncoding; }
    eq := IEqual(name, "x-forwarded-proto");
    if eq { return ForwardedProto; }
    eq := IEqual(name, "x-real-ip");
    if eq { return RealIp; }
    eq := IEqual(name, "proxy-connection");
    if eq { return ProxyConnection; }
    eq := IEqual(name, "keep-alive");
    if eq { return KeepAliveField; }
    return Other;
  }

  method Recognise(value: string) returns (t: Token)
    ensures t == TokenOf(value)
  {
    var eq := IEqual(value, "close");
    if eq { return Close; }
    eq := IEqual(value, "keep-alive");
    if eq { return KeepAlive; }
    eq := IEqual(value, "chunked");
    if eq { return Chunked; }
    return Free;
  }

  method SplitField(line: string) returns (f: Field)
    ensures f == FieldOf(line)
  {
    var colon := IndexOf(line, ':');
    if colon == |line| || colon == 0 {
      return Field(Malformed, "", Free);
    }
    var v := SkipBlanks(line, colon + 1);
    var e := DropBlanks(line, v);
    var n := Classify(line[..colon]);
    var t := Recognise(line[v..e]);
    return Field(n, line[v..e], t);
  }

  /** The values of all fields called `name`, in order. */
  function Values(fields: seq<Field>, name: Name): seq<string> {
    if fields == [] then []
    else (if fields[0].name == name then [fields[0].value] else []) + Values(fields[1..], name)
  }

  lemma {:induction false} ValuesAppend(a: seq<Field>, b: seq<Field>, name: Name)
    ensures Values(a + b, name) == Values(a, name) + Values(b, name)
    decreases a
  {
    if a == [] {
      assert a + b == b;
    } else {
      var rest := a[1..] + b;
      assert (a + b)[0] == a[0] && (a + b)[1..] == rest;
      ValuesAppend(a[1..], b, name);
    }
  }

  lemma ValuesSnoc(a: seq<Field>, f: Field, name: Name)
    ensures Values(a + [f], name) == if f.name == name then Values(a, name) + [f.value] else Values(a, name)
  {
    ValuesAppend(a, [f], name);
    assert Values([f], name) == (if f.name == name then [f.value] else []) + Values([f][1..], name);
  }

  /** The last Connection field that says "close" or "keep-alive" decides. */
  function Persistence(fields: seq<Field>, default: bool): bool {
    if fields == [] then default
    else
      var f := fields[|fields| - 1];
      if f.name.Connection? && f.token.Close? then false
      else if f.name.Connection? && f.token.KeepAlive? then true
      else Persistence(fields[..|fields| - 1], default)
  }

  // ----- requests -----------------------------------------------------------------------------

  datatype Request = Request(headerLen: nat, host: string, minor: int, keepAlive: bool, hasXff: bool,
                             isHead: bool, mode: BodyMode, contentLength: nat)

  /** METHOD SP TARGET SP HTTP/1.x: the minor version, and whether the method is HEAD. */
  function RequestLine(l: string): Verdict<(int, bool)> {
    var sp1 := IndexOf(l, ' ');
    if sp1 == |l| || sp1 == 0 then Refused(400)
    else
      var sp2 := IndexOf(l, ' ', sp1 + 1);
      if sp2 == |l| || sp2 == sp1 + 1 then Refused(400)
      else
        var version := l[sp2 + 1..];
        if |version| != 8 || version[..7] != "HTTP/1." then Refused(505)
        else if version[7] == '1' then Done((1, IEq(l[..sp1], "HEAD")))
        else if version[7] == '0' then Done((0, IEq(l[..sp1], "HEAD")))
        else Refused(505)
  }

  /** What the field lines must satisfy, apart from there being a Host at all. */
  predicate Acceptable(fields: seq<Field>) {
    (forall i :: 0 <= i < |fields| ==> FieldOk(fields[i])) && |Values(fields, Host)| <= 1
  }

  predicate FieldOk(f: Field) {
    match f.name
    case Malformed => false
    case Host => 0 < |f.value| < MAX_HOST
    case ContentLength => ParseDec(f.value).Some?
    case TransferEncoding => f.token.Chunked?
    case _ => true
  }

  /** The length a list of clean Content-Length values announces: the last one. */
  function LastLength(values: seq<string>): nat {
    if values == [] then 0
    else
      match ParseDec(values[|values| - 1])
      case Some(v) => v
      case None => LastLength(values[..|values| - 1])
  }

  /** What a request header means, given its length and its lines. */
  function RequestMeaning(len: nat, ls: seq<string>): Verdict<Request>
    requires ls != []
  {
    match RequestLine(ls[0])
    case NeedMore => NeedMore
    case Refused(code) => Refused(code)
    case Done((minor, head)) =>
      var fields := FieldsOf(ls[1..]);
      var hosts := Values(fields, Host);
      if !Acceptable(fields) || hosts == [] then Refused(400)
      else Done(FieldsMeaning(len, minor, head, fields, hosts[0]))
  }

  function FieldsMeaning(len: nat, minor: int, head: bool, fields: seq<Field>, host: string): Request {
    Request(len, host, minor,
            Persistence(fields, minor == 1),
            Values(fields, ForwardedFor) != [],
            head,
            if Values(fields, TransferEncoding) != [] then ChunkedCoding
            else if Values(fields, ContentLength) != [] then Length
            else NoBody,
            LastLength(Values(fields, ContentLength)))
  }

  /** The lines of the header at the front of `buf`, without the blank one. */
  function HeaderOf(buf: string): (ls: seq<string>)
    requires HeaderEnd(buf) != 0
    ensures HeaderLines(ls) && buf[..HeaderEnd(buf)] == Block(ls)
  {
    var all := Lines(buf[..HeaderEnd(buf)]);
    assert exists ls :: all == ls + [""] && HeaderLines(ls) && buf[..HeaderEnd(buf)] == Block(ls) by {
      var ls := HeaderIsBlock(buf);
      assert all == ls + [""];
    }
    all[..|all| - 1]
  }

  /** The verdict on the bytes received so far. */
  function ParseRequest(buf: string): Verdict<Request> {
    var e := HeaderEnd(buf);
    if e == 0 then if |buf| > MAX_HEADER then Refused(431) else NeedMore
    else if e > MAX_HEADER then Refused(431)
    else RequestMeaning(e, HeaderOf(buf))
  }

  /** A verdict, once given, is the verdict on every longer prefix of the stream. */
  lemma VerdictSticks(p: string, q: string)
    requires p <= q && ParseRequest(p) != NeedMore
    ensures ParseRequest(q) == ParseRequest(p)
  {
    hide RequestMeaning;
    HeaderEndStable(p, q);
    if HeaderEnd(p) != 0 {
      assert p[..HeaderEnd(p)] == q[..HeaderEnd(p)];
    }
  }

  /** The verdict after the parser has been called on one growing prefix of `stream` after
      another, starting from verdict `v`; a verdict other than NEED_MORE is never revised. */
  function Repeated(stream: string, cuts: seq<nat>, v: Verdict<Request>): Verdict<Request>
    requires forall i :: 0 <= i < |cuts| ==> cuts[i] <= |stream|
    decreases cuts
  {
    if cuts == [] then v
    else Repeated(stream, cuts[1..], if v.NeedMore? then ParseRequest(stream[..cuts[0]]) else v)
  }

  /** However the stream is cut into reads, the final verdict and record are those of one call on
      everything received. */
  lemma {:induction false} SplitInvariance(stream: string, cuts: seq<nat>)
    requires cuts != [] && forall i :: 0 <= i < |cuts| ==> cuts[i] <= |stream|
    requires forall i, j :: 0 <= i < j < |cuts| ==> cuts[i] <= cuts[j]
    ensures Repeated(stream, cuts, NeedMore) == ParseRequest(stream[..cuts[|cuts| - 1]])
  {
    hide ParseRequest;
    SplitFrom(stream, cuts[0], cuts[1..]);
  }

  lemma {:induction false} SplitFrom(stream: string, c: nat, cuts: seq<nat>)
    requires c <= |stream| && forall i :: 0 <= i < |cuts| ==> cuts[i] <= |stream|
    requires forall i :: 0 <= i < |cuts| ==> c <= cuts[i]
    requires forall i, j :: 0 <= i < j < |cuts| ==> cuts[i] <= cuts[j]
    ensures Repeated(stream, cuts, ParseRequest(stream[..c])) ==
            ParseRequest(stream[..if cuts == [] then c else cuts[|cuts| - 1]])
    decreases cuts
  {
    hide ParseRequest;
    if cuts != [] {
      var v := ParseRequest(stream[..c]);
      if v != NeedMore {
        assert stream[..cuts[0]][..c] == stream[..c];
        VerdictSticks(stream[..c], stream[..cuts[0]]);
      }
      SplitFrom(stream, cuts[0], cuts[1..]);
    }
  }

  // ----- cursors over the buffer ---------------------------------------------------------------

  method FindHeaderEnd(buf: string) returns (e: nat)
    ensures e == HeaderEnd(buf)
  {
    var i := 0;
    while i + 3 < |buf|
      invariant i <= |buf|
      invariant HeaderEnd(buf) == HeaderEnd(buf, i)
    {
      if buf[i] == '\r' && buf[i + 1] == '\n' && buf[i + 2] == '\r' && buf[i + 3] == '\n' {
        return i + 4;
      }
      i := i + 1;
    }
    e := 0;
  }

  /** The first CRLF of a block at or after `from`, or its end. */
  method FindCrlf(block: string, from: nat) returns (q: nat)
    requires from <= |block|
    ensures q == FirstCrlf(block, from)
  {
    q := from;
    while q + 1 < |block|
      invariant from <= q <= |block|
      invariant FirstCrlf(block, from) == FirstCrlf(block, q)
    {
      if block[q] == '\r' && block[q + 1] == '\n' {
        return;
      }
      q := q + 1;
    }
    q := |block|;
  }

  /** The next line of a block that a cursor has reached. */
  lemma NextLine(block: string, at: nat)
    requires at <= |block|
    ensures var k := FirstCrlf(block, at);
            Lines(block[at..]) == if k == |block| then [] else [block[at..k]] + Lines(block[k + 2..])
  {
    var k := FirstCrlf(block, at);
    var rest := block[at..];
    forall i | 0 <= i ensures CrlfAt(rest, i) == CrlfAt(block, at + i) {}
    if k == |block| {
      var f := FirstCrlf(rest, 0);
      assert f < |rest| ==> CrlfAt(block, at + f);
    } else {
      FirstCrlfIs(rest, 0, k - at);
      assert rest[..k - at] == block[at..k] && rest[k - at + 2..] == block[k + 2..];
    }
  }

  /** Moves a cursor over one line: where the line ends. */
  method ReadLine(block: string, at: nat, ghost ls: seq<string>) returns (le: nat)
    requires at <= |block| && Lines(block[at..]) == ls && ls != []
    ensures at <= le && le + 2 <= |block| && block[at..le] == ls[0]
    ensures Lines(block[le + 2..]) == ls[1..]
  {
    NextLine(block, at);
    le := FindCrlf(block, at);
  }

  // ----- the request record ----------------------------------------------------------------------

  datatype Status = NEED_MORE | DONE | ERROR

  class HttpRequest {
    var status: Status
    var errorCode: int
    var headerLen: nat
    var host: string
    var hasHost: bool
    var minorVersion: int
    var keepAlive: bool
    var hasXff: bool
    var isHead: bool
    var bodyMode: BodyMode
    var contentLength: nat

    /** As `Init` leaves the record, and as it stays until the header is complete. */
    ghost predicate Blank()
      reads this
    {
      && status == NEED_MORE && minorVersion == 1 && keepAlive && !hasHost && !hasXff && !isHead
      && bodyMode == NoBody && contentLength == 0 && headerLen == 0 && host == ""
    }

    ghost function Outcome(): Verdict<Request>
      reads this
    {
      match status
      case NEED_MORE => NeedMore
      case ERROR => Refused(errorCode)
      case DONE => Done(Request(headerLen, host, minorVersion, keepAlive, hasXff, isHead, bodyMode, contentLength))
    }

    constructor ()
      ensures Blank()
    {
      status, errorCode, headerLen, host, hasHost := NEED_MORE, 0, 0, "", false;
      minorVersion, keepAlive, hasXff, isHead := 1, true, false, false;
      bodyMode, contentLength := NoBody, 0;
    }

    method Fail(code: int) returns (st: Status)
      modifies this`status, this`errorCode
      ensures st == status == ERROR && errorCode == code
    {
      status, errorCode := ERROR, code;
      return ERROR;
    }

    /** The record agrees with the field lines read so far. */
    ghost predicate Agrees(fields: seq<Field>)
      reads `hasHost, `host, `keepAlive, `minorVersion, `hasXff, `contentLength, `bodyMode
    {
      && Acceptable(fields)
      && hasHost == (Values(fields, Host) != [])
      && (hasHost ==> host == Values(fields, Host)[0])
      && keepAlive == Persistence(fields, minorVersion == 1)
      && hasXff == (Values(fields, ForwardedFor) != [])
      && contentLength == LastLength(Values(fields, ContentLength))
      && bodyMode == (if Values(fields, TransferEncoding) != [] then ChunkedCoding
                      else if Values(fields, ContentLength) != [] then Length
                      else NoBody)
    }

    method TakeHost(ghost before: seq<Field>, f: Field) returns (ok: bool)
      requires Agrees(before) && f.name.Host?
      modifies this`host, this`hasHost
      ensures if ok then Agrees(before + [f]) else !Acceptable(before + [f])
    {
      hide Values, Persistence, LastLength, Acceptable, ParseDec;
      FieldSnoc(before, f, minorVersion == 1);
      if hasHost || |f.value| == 0 || |f.value| >= MAX_HOST {
        return false;
      }
      host, hasHost := f.value, true;
      return true;
    }

    method TakeConnection(ghost before: seq<Field>, f: Field)
      requires Agrees(before) && f.name.Connection?
      modifies this`keepAlive
      ensures Agrees(before + [f])
    {
      hide Values, Persistence, LastLength, Acceptable, ParseDec;
      FieldSnoc(before, f, minorVersion == 1);
      if f.token.Close? {
        keepAlive := false;
      } else if f.token.KeepAlive? {
        keepAlive := true;
      }
    }

    method TakeLength(ghost before: seq<Field>, f: Field) returns (ok: bool)
      requires Agrees(before) && f.name.ContentLength?
      modifies this`bodyMode, this`contentLength
      ensures if ok then Agrees(before + [f]) else !Acceptable(before + [f])
    {
      hide Values, Persistence, LastLength, Acceptable, ParseDec;
      FieldSnoc(before, f, minorVersion == 1);
      var n := ParseDec(f.value);
      if n.None? {
        return false;
      }
      contentLength := n.value;
      if bodyMode != ChunkedCoding {
        bodyMode := Length;
      }
      return true;
    }

    method TakeCoding(ghost before: seq<Field>, f: Field) returns (ok: bool)
      requires Agrees(before) && f.name.TransferEncoding?
      modifies this`bodyMode
      ensures if ok then Agrees(before + [f]) else !Acceptable(before + [f])
    {
      hide Values, Persistence, LastLength, Acceptable, ParseDec;
      FieldSnoc(before, f, minorVersion == 1);
      if !f.token.Chunked? {
        return false;
      }
      bodyMode := ChunkedCoding;
      return true;
    }

    method TakeOther(ghost before: seq<Field>, f: Field)
      requires Agrees(before)
      requires f.name !in {Malformed, Host, Connection, ContentLength, TransferEncoding}
      modifies this`hasXff
      ensures Agrees(before + [f])
    {
      hide Values, Persistence, LastLength, Acceptable, ParseDec;
      FieldSnoc(before, f, minorVersion == 1);
      if f.name.ForwardedFor? {
        hasXff := true;
      }
    }

    /** One field line. */
    method TakeField(ghost before: seq<Field>, f: Field) returns (ok: bool)
      requires Agrees(before)
      modifies this`host, this`hasHost, this`keepAlive, this`hasXff, this`bodyMode, this`contentLength
      ensures if ok then Agrees(before + [f]) else !Acceptable(before + [f])
    {
      ok := true;
      match f.name {
        case Malformed =>
          FieldSnoc(before, f, true);
          ok := false;
        case Host => ok := TakeHost(before, f);
        case Connection => TakeConnection(before, f);
        case ContentLength => ok := TakeLength(before, f);
        case TransferEncoding => ok := TakeCoding(before, f);
        case _ => TakeOther(before, f);
      }
    }

    /** The accumulated buffer, always from its first byte. */
    method Execute(buf: string) returns (st: Status)
      requires status == NEED_MORE ==> Blank()
      modifies this
      ensures st == status
      ensures old(status) != NEED_MORE ==> unchanged(this)
      ensures old(status) == NEED_MORE ==> Outcome() == ParseRequest(buf)
      ensures st == NEED_MORE ==> unchanged(this)
    {
      if status != NEED_MORE {
        return status;
      }
      var end := FindHeaderEnd(buf);
      if end == 0 {
        if |buf| > MAX_HEADER {
          st := Fail(431);
          return;
        }
        return NEED_MORE;
      }
      if end > MAX_HEADER {
        st := Fail(431);
        return;
      }
      headerLen := end;
      st := TakeHeader(buf[..end], HeaderOf(buf));
    }

    method TakeHeader(block: string, ghost ls: seq<string>) returns (st: Status)
      requires status == NEED_MORE && minorVersion == 1 && keepAlive && !hasHost && !hasXff
      requires bodyMode == NoBody && contentLength == 0 && headerLen == |block|
      requires HeaderLines(ls) && block == Block(ls)
      modifies this
      ensures st == status && st != NEED_MORE && Outcome() == RequestMeaning(|block|, ls)
    {
      hide FieldOf, RequestLine, Acceptable, Values, Persistence, LastLength, Lines, Block;
      LinesOfBlock(ls);
      assert block[0..] == block;
      var eol := ReadLine(block, 0, ls + [""]);
      st := TakeRequestLine(block[0..eol]);
      if st == ERROR {
        return;
      }
      assert (ls + [""])[1..] == ls[1..] + [""];
      st := TakeFields(block, eol + 2, ls[1..]);
    }

    /** A request that agrees with its fields has a host exactly when one of them is Host. */
    lemma HostAgrees(fields: seq<Field>)
      requires Agrees(fields)
      ensures hasHost <==> Values(fields, Host) != []
    {
      hide Acceptable, Persistence, LastLength, Values;
    }

    /** The field lines, down to the blank one. */
    method TakeFields(block: string, from: nat, ghost ls: seq<string>) returns (st: Status)
      requires "" !in ls && status == NEED_MORE && Agrees([])
      requires from <= |block| && Lines(block[from..]) == ls + [""]
      modifies this`status, this`errorCode
      modifies this`host, this`hasHost, this`keepAlive, this`hasXff, this`bodyMode, this`contentLength
      ensures st == status && st != NEED_MORE
      ensures st == DONE ==> hasHost && Agrees(FieldsOf(ls))
      ensures st == ERROR ==> errorCode == 400 && (!Acceptable(FieldsOf(ls)) || Values(FieldsOf(ls), Host) == [])
    {
      hide FieldOf, Acceptable, Persistence, LastLength, Values, Agrees, Lines, FieldsOf;
      var line := from;
      ghost var seen: seq<string>, left := [], ls;
      assert FieldsOf(seen) == [];
      while line < |block|
        invariant from <= line <= |block| && seen + left == ls
        invariant Lines(block[line..]) == left + [""]
        invariant status == NEED_MORE && Agrees(FieldsOf(seen))
        decreases |block| - line
      {
        var le := ReadLine(block, line, left + [""]);
        if le == line {
          break;
        }
        NextOf(seen, left, ls);
        var f := SplitField(block[line..le]);
        var ok := TakeField(FieldsOf(seen), f);
        seen, left := seen + [left[0]], left[1..];
        if !ok {
          AcceptablePrefix(FieldsOf(seen), FieldsOf(left));
          st := Fail(400);
          return;
        }
        line := le + 2;
      }
      BlankLineLeft(block, line, left);
      assert seen == ls;
      HostAgrees(FieldsOf(ls));
      if !hasHost {
        st := Fail(400);
        return;
      }
      status := DONE;
      return DONE;
    }

    method TakeRequestLine(l: string) returns (st: Status)
      requires Blank() || (status == NEED_MORE && minorVersion == 1 && keepAlive && !hasHost && !hasXff && bodyMode == NoBody && contentLength == 0)
      modifies this`status, this`errorCode, this`minorVersion, this`keepAlive, this`isHead
      ensures st == status
      ensures st == ERROR ==> RequestLine(l) == Refused(errorCode)
      ensures st != ERROR ==> status == NEED_MORE && RequestLine(l) == Done((minorVersion, isHead)) && Agrees([])
    {
      var sp1 := IndexOf(l, ' ');
      if sp1 == |l| || sp1 == 0 {
        st := Fail(400);
        return;
      }
      isHead := IEqual(l[..sp1], "HEAD");
      var sp2 := IndexOf(l, ' ', sp1 + 1);
      if sp2 == |l| || sp2 == sp1 + 1 {
        st := Fail(400);
        return;
      }
      var version := l[sp2 + 1..];
      if |version| != 8 || version[..7] != "HTTP/1." {
        st := Fail(505);
        return;
      }
      if version[7] == '1' {
        minorVersion, keepAlive := 1, true;
      } else if version[7] == '0' {
        minorVersion, keepAlive := 0, false;
      } else {
        st := Fail(505);
        return;
      }
      return status;
    }
  }

  /** While the blank line is still to come the cursor is inside the block. */
  lemma BlankLineLeft(block: string, line: nat, left: seq<string>)
    requires line <= |block| && Lines(block[line..]) == left + [""]
    ensures line < |block|
  {
    assert |block[line..]| > 0;
  }

  /** One more line of a block taken. */
  lemma NextOf(seen: seq<string>, left: seq<string>, ls: seq<string>)
    requires seen + left == ls && (left + [""])[0] != ""
    ensures left != [] && (left + [""])[0] == left[0] && (left + [""])[1..] == left[1..] + [""]
    ensures (seen + [left[0]]) + left[1..] == ls
    ensures FieldsOf(seen + [left[0]]) == FieldsOf(seen) + [FieldOf(left[0])]
    ensures FieldsOf(seen + [left[0]]) + FieldsOf(left[1..]) == FieldsOf(ls)
  {
    hide FieldOf;
  }

  /** What one more field changes. */
  lemma FieldSnoc(a: seq<Field>, f: Field, d: bool)
    ensures var b := a + [f];
            && Values(b, Host) == (if f.name.Host? then Values(a, Host) + [f.value] else Values(a, Host))
            && (Values(b, ForwardedFor) == [] <==> Values(a, ForwardedFor) == [] && !f.name.ForwardedFor?)
            && (Values(b, TransferEncoding) == [] <==> Values(a, TransferEncoding) == [] && !f.name.TransferEncoding?)
            && (Values(b, ContentLength) == [] <==> Values(a, ContentLength) == [] && !f.name.ContentLength?)
            && LastLength(Values(b, ContentLength)) ==
               (if f.name.ContentLength? && ParseDec(f.value).Some? then ParseDec(f.value).value
                else LastLength(Values(a, ContentLength)))
            && Persistence(b, d) ==
               (if f.name.Connection? && f.token.Close? then false
                else if f.name.Connection? && f.token.KeepAlive? then true
                else Persistence(a, d))
    ensures Acceptable(a + [f]) <==> Acceptable(a) && FieldOk(f) && (f.name.Host? ==> Values(a, Host) == [])
  {
    hide ParseDec;
    ValuesSnoc(a, f, Host);
    ValuesSnoc(a, f, ForwardedFor);
    ValuesSnoc(a, f, TransferEncoding);
    ValuesSnoc(a, f, ContentLength);
    LastLengthSnoc(Values(a, ContentLength), f.value);
    assert (a + [f])[..|a + [f]| - 1] == a;
    assert Acceptable(a + [f]) <==> Acceptable(a) && FieldOk(f) && (f.name.Host? ==> Values(a, Host) == []) by {
      AcceptableSnoc(a, f);
    }
  }

  lemma LastLengthSnoc(vs: seq<string>, v: string)
    ensures LastLength(vs + [v]) == if ParseDec(v).Some? then ParseDec(v).value else LastLength(vs)
  {
    hide ParseDec;
    assert (vs + [v])[..|vs + [v]| - 1] == vs;
  }

  lemma AcceptableSnoc(a: seq<Field>, f: Field)
    ensures Acceptable(a + [f]) <==> Acceptable(a) && FieldOk(f) && (f.name.Host? ==> Values(a, Host) == [])
  {
    hide FieldOk;
    ValuesSnoc(a, f, Host);
    assert (a + [f])[|a|] == f;
    assert forall i :: 0 <= i < |a| ==> (a + [f])[i] == a[i];
  }

  lemma AcceptablePrefix(a: seq<Field>, b: seq<Field>)
    ensures Acceptable(a + b) ==> Acceptable(a)
  {
    ValuesAppend(a, b, Host);
    assert forall i :: 0 <= i < |a| ==> (a + b)[i] == a[i];
  }

  // ----- an example ---------------------------------------------------------------------------------

  const EXAMPLE := ["GET / HTTP/1.1", "Host: a"]

  lemma ExampleLine()
    ensures RequestLine(EXAMPLE[0]) == Done((1, false))
  {
    var l := EXAMPLE[0];
    assert IndexOf(l, ' ') == 3 && IndexOf(l, ' ', 4) == 5;
    assert l[6..] == "HTTP/1.1" && "HTTP/1.1"[..7] == "HTTP/1.";
    assert l[..3] == "GET" && !IEq("GET", "HEAD");
  }

  lemma ExampleWords()
    ensures NameOf("Host") == Host && TokenOf("a") == Free
  {
    assert IEq("Host", "host");
    assert !IEq("a", "close") && !IEq("a", "keep-alive") && !IEq("a", "chunked");
  }

  lemma ExampleField()
    ensures FieldOf(EXAMPLE[1]) == Field(Host, "a", Free)
  {
    hide NameOf, TokenOf, IEq;
    var l := EXAMPLE[1];
    assert IndexOf(l, ':') == 4;
    assert l[..4] == "Host" && l[5..] == " a";
    assert TrimLeft(" a") == "a" by { assert " a"[1..] == "a"; }
    assert TrimRight("a") == "a";
    ExampleWords();
  }

  lemma ExampleMeaning()
    ensures RequestMeaning(27, EXAMPLE) == Done(Request(27, "a", 1, true, false, false, NoBody, 0))
  {
    hide FieldOf, RequestLine;
    ExampleLine();
    ExampleField();
    var fs := FieldsOf(EXAMPLE[1..]);
    assert fs == [Field(Host, "a", Free)];
    assert fs[..0] == [] && fs[1..] == [];
    assert Values(fs, Host) == ["a"];
    assert Values(fs, TransferEncoding) == Values(fs, ContentLength) == Values(fs, ForwardedFor) == [];
    assert Persistence(fs, true);
    assert Acceptable(fs);
  }

  /** A smallest request: one Host, no body, and HTTP/1.1 keeps the connection by default. */
  lemma ExampleRequest(rest: string)
    ensures ParseRequest(Block(EXAMPLE) + rest) == Done(Request(27, "a", 1, true, false, false, NoBody, 0))
  {
    hide FieldOf, RequestLine, HeaderEnd, RequestMeaning;
    var head := Block(EXAMPLE);
    assert |head| == 27;
    hide Block;
    BlockEnd(EXAMPLE, rest);
    LinesOfBlock(EXAMPLE);
    assert (head + rest)[..27] == head;
    assert HeaderOf(head + rest) == EXAMPLE;
    ExampleMeaning();
  }
}
