/** The request header that goes upstream: the client's lines without the ones that describe the
    client's own link or that the proxy writes itself, then the proxy's lines. */
module Rewriting {
  import opened Text
  import opened HttpParser

  /** The lines the proxy replaces. */
  predicate Ours(l: string) {
    FieldOf(l).name in {ForwardedFor, ForwardedProto, RealIp, Connection, ProxyConnection, KeepAliveField}
  }

  function Kept(lines: seq<string>): seq<string> {
    if lines == [] then []
    else (if Ours(lines[0]) then [] else [lines[0]]) + Kept(lines[1..])
  }

  function LastValue(values: seq<string>): string {
    if values == [] then "" else values[|values| - 1]
  }

  /** The client is chained to the last trace it sent, if that is not empty. */
  function Trace(previous: string, ip: string): string {
    if previous == "" then ip else previous + ", " + ip
  }

  function TraceOf(fields: seq<string>, ip: string): string {
    Trace(LastValue(Values(FieldsOf(fields), ForwardedFor)), ip)
  }

  function Line(name: string, value: string): string {
    name + ": " + value
  }

  function Added(trace: string, ip: string, proto: string, reuse: bool): seq<string> {
    [Line("X-Forwarded-For", trace),
     Line("X-Forwarded-Proto", proto),
     Line("X-Real-IP", ip),
     Line("Connection", if reuse then "keep-alive" else "close")]
  }

  /** The lines of the rewritten header. */
  function Rewritten(ls: seq<string>, ip: string, proto: string, reuse: bool): seq<string>
    requires ls != []
  {
    [ls[0]] + Kept(ls[1..]) + Added(TraceOf(ls[1..], ip), ip, proto, reuse)
  }

  // ----- the meaning is preserved ---------------------------------------------------------------

  /** A text that fits in a field value as it is: an address, a scheme. */
  ghost predicate Plain(s: string) {
    s != "" && forall i :: 0 <= i < |s| ==> s[i] !in {'\r', '\n', ' ', '\t'}
  }

  /** A value with no space around it and no line end inside. */
  ghost predicate Tidy(s: string) {
    NoCrlf(s) && (s != "" ==> !Blank(s[0]) && !Blank(s[|s| - 1]))
  }

  lemma {:induction false} TrimLeftIsSuffix(s: string)
    ensures |TrimLeft(s)| <= |s| && TrimLeft(s) == s[|s| - |TrimLeft(s)|..]
    ensures TrimLeft(s) != "" ==> !Blank(TrimLeft(s)[0])
    decreases s
  {
    if s != "" && Blank(s[0]) {
      TrimLeftIsSuffix(s[1..]);
    }
  }

  lemma {:induction false} TrimRightIsPrefix(s: string)
    ensures TrimRight(s) <= s
    ensures TrimRight(s) != "" ==> !Blank(TrimRight(s)[|TrimRight(s)| - 1])
    decreases |s|
  {
    if s != "" && Blank(s[|s| - 1]) {
      TrimRightIsPrefix(s[..|s| - 1]);
    }
  }

  lemma TrimTidies(line: string, c: nat)
    requires NoCrlf(line) && c <= |line|
    ensures Tidy(Trim(line[c..]))
  {
    var s := line[c..];
    var l := TrimLeft(s);
    TrimLeftIsSuffix(s);
    TrimRightIsPrefix(l);
    var at := |line| - |l|;
    forall i | 0 <= i < |Trim(s)| ensures !CrlfAt(Trim(s), i) {
      assert !CrlfAt(line, at + i);
    }
  }

  lemma TidyTrimmed(s: string)
    requires Tidy(s)
    ensures Trim(" " + s) == s
  {
    assert (" " + s)[1..] == s;
    assert TrimLeft(" " + s) == TrimLeft(s) == s;
  }

  /** The colon of "Name: value" is the first one when the name has none. */
  lemma AddedField(name: string, value: string)
    requires name != "" && ':' !in name && '\r' !in name && '\n' !in name
    requires Tidy(value)
    ensures FieldOf(Line(name, value)) == Field(NameOf(name), value, TokenOf(value))
    ensures NoCrlf(Line(name, value)) && Line(name, value) != ""
  {
    hide NameOf, TokenOf;
    var l := Line(name, value);
    var c := IndexOf(l, ':');
    assert l[|name|] == ':';
    assert c == |name| by {
      assert forall i :: 0 <= i < |name| ==> l[i] == name[i];
    }
    assert l[..c] == name && l[c + 1..] == " " + value;
    TidyTrimmed(value);
    forall i | 0 <= i < |l| ensures !CrlfAt(l, i) {
      if i >= |name| + 2 {
        assert !CrlfAt(value, i - |name| - 2);
      }
    }
  }

  lemma Differ(a: string, b: string, i: nat)
    requires |a| != |b| || (i < |a| && Lower(a[i]) != Lower(b[i]))
    ensures !IEq(a, b)
  {
    LowerAllAt(a);
    LowerAllAt(b);
    assert |a| == |b| ==> LowerAll(a)[i] != LowerAll(b)[i];
  }

  lemma Agree(a: string, b: string)
    requires |a| == |b| && forall i :: 0 <= i < |a| ==> Lower(a[i]) == Lower(b[i])
    ensures IEq(a, b)
  {
    LowerAllAt(a);
    LowerAllAt(b);
  }

  lemma ForwardedForWritten()
    ensures NameOf("X-Forwarded-For") == ForwardedFor
  {
    hide IEq;
    var n := "X-Forwarded-For";
    Differ(n, "host", 0);
    Differ(n, "connection", 0);
    Agree(n, "x-forwarded-for");
  }

  lemma ForwardedProtoWritten()
    ensures NameOf("X-Forwarded-Proto") == ForwardedProto
  {
    hide IEq;
    var n := "X-Forwarded-Proto";
    Differ(n, "host", 0);
    Differ(n, "connection", 0);
    Differ(n, "x-forwarded-for", 0);
    Differ(n, "content-length", 0);
    Differ(n, "transfer-encoding", 0);
    Agree(n, "x-forwarded-proto");
  }

  lemma RealIpWritten()
    ensures NameOf("X-Real-IP") == RealIp
  {
    hide IEq;
    var n := "X-Real-IP";
    Differ(n, "host", 0);
    Differ(n, "connection", 0);
    Differ(n, "x-forwarded-for", 0);
    Differ(n, "content-length", 0);
    Differ(n, "transfer-encoding", 0);
    Differ(n, "x-forwarded-proto", 0);
    Agree(n, "x-real-ip");
  }

  lemma ConnectionWritten()
    ensures NameOf("Connection") == Connection
    ensures TokenOf("keep-alive") == KeepAlive && TokenOf("close") == Close
  {
    hide IEq;
    Differ("Connection", "host", 0);
    Agree("Connection", "connection");
    Agree("close", "close");
    Differ("keep-alive", "close", 0);
    Agree("keep-alive", "keep-alive");
  }

  lemma {:induction false} KeptAppend(a: seq<string>, b: seq<string>)
    ensures Kept(a + b) == Kept(a) + Kept(b)
    decreases a
  {
    hide Ours;
    if a == [] {
      assert a + b == b;
    } else {
      var rest := a[1..] + b;
      assert (a + b)[0] == a[0] && (a + b)[1..] == rest;
      KeptAppend(a[1..], b);
    }
  }

  lemma KeptSnoc(a: seq<string>, l: string)
    ensures Kept(a + [l]) == if Ours(l) then Kept(a) else Kept(a) + [l]
  {
    hide Ours;
    KeptAppend(a, [l]);
    assert Kept([l]) == (if Ours(l) then [] else [l]) + Kept([l][1..]);
  }

  /** Two lists of fields say the same about routing and delimiting a message. */
  ghost predicate SameMessage(a: seq<Field>, b: seq<Field>) {
    && (Acceptable(a) ==> Acceptable(b))
    && Values(a, Host) == Values(b, Host)
    && (Values(a, TransferEncoding) == [] <==> Values(b, TransferEncoding) == [])
    && (Values(a, ContentLength) == [] <==> Values(b, ContentLength) == [])
    && LastLength(Values(a, ContentLength)) == LastLength(Values(b, ContentLength))
  }

  /** Leaving out the lines the proxy replaces changes nothing about the message. */
  lemma {:induction false} KeptSame(lines: seq<string>, d: bool)
    ensures var ks := FieldsOf(Kept(lines));
            SameMessage(FieldsOf(lines), ks) && Values(ks, ForwardedFor) == [] && Persistence(ks, d) == d
    ensures forall l <- Kept(lines) :: l in lines
    decreases |lines|
  {
    hide FieldOf, Values, Persistence, LastLength, Acceptable, FieldOk;
    if lines == [] {
      assert Kept(lines) == lines;
      NoFields(d);
    } else {
      var p, l := lines[..|lines| - 1], lines[|lines| - 1];
      assert lines == p + [l];
      KeptSame(p, d);
      KeptSnoc(p, l);
      FieldSnoc(FieldsOf(p), FieldOf(l), d);
      assert FieldsOf(lines) == FieldsOf(p) + [FieldOf(l)];
      if !Ours(l) {
        FieldSnoc(FieldsOf(Kept(p)), FieldOf(l), d);
        assert FieldsOf(Kept(lines)) == FieldsOf(Kept(p)) + [FieldOf(l)];
      }
    }
  }

  lemma NoFields(d: bool)
    ensures FieldsOf([]) == [] && Values([], ForwardedFor) == [] && Persistence([], d) == d
  {
  }

  lemma PlainTidy(s: string)
    requires Plain(s)
    ensures Tidy(s)
  {
  }

  lemma TraceTidy(previous: string, ip: string)
    requires Tidy(previous) && Plain(ip)
    ensures Tidy(Trace(previous, ip)) && Trace(previous, ip) != ""
  {
    if previous != "" {
      var t := Trace(previous, ip);
      var n := |previous|;
      forall i | 0 <= i < |t| ensures !CrlfAt(t, i) {
        assert !CrlfAt(previous, i);
        assert i >= n + 2 ==> t[i] == ip[i - n - 2];
      }
    }
  }

  /** The values a parser reads from lines without a CRLF are tidy. */
  lemma {:induction false} ValuesTidy(lines: seq<string>, n: Name)
    requires forall l <- lines :: NoCrlf(l)
    ensures forall v <- Values(FieldsOf(lines), n) :: Tidy(v)
    decreases lines
  {
    hide NameOf, TokenOf, Tidy, NoCrlf, Trim;
    if lines != [] {
      var l := lines[0];
      assert FieldsOf(lines)[1..] == FieldsOf(lines[1..]);
      ValuesTidy(lines[1..], n);
      assert Tidy(FieldOf(l).value) by {
        var c := IndexOf(l, ':');
        if c < |l| {
          TrimTidies(l, c + 1);
        }
        NothingTidy();
      }
    }
  }

  lemma NothingTidy()
    ensures Tidy("")
  {
  }

  /** What the proxy's own lines say when they are parsed. */
  lemma AddedFields(trace: string, ip: string, proto: string, reuse: bool)
    requires Tidy(trace) && Plain(ip) && Plain(proto)
    ensures var fs := FieldsOf(Added(trace, ip, proto, reuse));
            && |fs| == 4
            && fs[0].name == ForwardedFor && fs[0].value == trace
            && fs[1].name == ForwardedProto && fs[1].value == proto
            && fs[2].name == RealIp && fs[2].value == ip
            && fs[3].name == Connection && fs[3].token == (if reuse then KeepAlive else Close)
    ensures forall l <- Added(trace, ip, proto, reuse) :: NoCrlf(l) && l != ""
  {
    hide FieldOf, NoCrlf, Tidy, Plain, Line, TokenOf;
    PlainTidy(ip);
    PlainTidy(proto);
    TraceLine(trace);
    ProtoLine(proto);
    RealIpLine(ip);
    ConnectionLine(reuse);
  }

  lemma TraceLine(v: string)
    requires Tidy(v)
    ensures var l := Line("X-Forwarded-For", v); FieldOf(l) == Field(ForwardedFor, v, TokenOf(v)) && NoCrlf(l) && l != ""
  {
    hide FieldOf, NameOf, TokenOf, NoCrlf, Tidy, Line;
    ForwardedForWritten();
    AddedField("X-Forwarded-For", v);
  }

  lemma ProtoLine(v: string)
    requires Tidy(v)
    ensures var l := Line("X-Forwarded-Proto", v); FieldOf(l) == Field(ForwardedProto, v, TokenOf(v)) && NoCrlf(l) && l != ""
  {
    hide FieldOf, NameOf, TokenOf, NoCrlf, Tidy, Line;
    ForwardedProtoWritten();
    AddedField("X-Forwarded-Proto", v);
  }

  lemma RealIpLine(v: string)
    requires Tidy(v)
    ensures var l := Line("X-Real-IP", v); FieldOf(l) == Field(RealIp, v, TokenOf(v)) && NoCrlf(l) && l != ""
  {
    hide FieldOf, NameOf, TokenOf, NoCrlf, Tidy, Line;
    RealIpWritten();
    AddedField("X-Real-IP", v);
  }

  lemma ConnectionLine(reuse: bool)
    ensures var l := Line("Connection", if reuse then "keep-alive" else "close");
            FieldOf(l).name == Connection && FieldOf(l).token == (if reuse then KeepAlive else Close) && NoCrlf(l) && l != ""
  {
    hide FieldOf, NameOf, TokenOf, Line;
    ConnectionWritten();
    var v := if reuse then "keep-alive" else "close";
    assert Tidy(v);
    hide Tidy, NoCrlf;
    AddedField("Connection", v);
  }

  /** The fields of the rewritten header: same message, one trace, the chosen persistence. */
  lemma RewrittenFields(ls: seq<string>, ip: string, proto: string, reuse: bool, d: bool)
    requires HeaderLines(ls) && Plain(ip) && Plain(proto)
    ensures var out := Rewritten(ls, ip, proto, reuse);
            && HeaderLines(out) && out[0] == ls[0]
            && SameMessage(FieldsOf(ls[1..]), FieldsOf(out[1..]))
            && Values(FieldsOf(out[1..]), ForwardedFor) == [TraceOf(ls[1..], ip)]
            && Persistence(FieldsOf(out[1..]), d) == reuse
  {
    hide FieldOf, Values, Persistence, LastLength, Acceptable, NoCrlf, Tidy, Plain;
    var fields := ls[1..];
    var ks := Kept(fields);
    var trace := TraceOf(fields, ip);
    KeptSame(fields, d);
    ValuesTidy(fields, ForwardedFor);
    NothingTidy();
    TraceTidy(LastValue(Values(FieldsOf(fields), ForwardedFor)), ip);
    AddedFields(trace, ip, proto, reuse);
    var out := Rewritten(ls, ip, proto, reuse);
    assert out[1..] == ks + Added(trace, ip, proto, reuse);
    KeptOfHeader(ls);
    AppendFour(FieldsOf(ks), FieldsOf(Added(trace, ip, proto, reuse)), trace, reuse, d);
    assert FieldsOf(out[1..]) == FieldsOf(ks) + FieldsOf(Added(trace, ip, proto, reuse));
  }

  lemma KeptOfHeader(ls: seq<string>)
    requires HeaderLines(ls)
    ensures forall l <- Kept(ls[1..]) :: NoCrlf(l) && l != ""
  {
    hide NoCrlf;
    KeptSame(ls[1..], true);
    forall l | l in Kept(ls[1..]) ensures NoCrlf(l) && l != "" {
      assert l in ls[1..];
    }
  }

  lemma AppendFour(ks: seq<Field>, fs: seq<Field>, trace: string, reuse: bool, d: bool)
    requires |fs| == 4 && fs[0].name == ForwardedFor && fs[0].value == trace
    requires fs[1].name == ForwardedProto && fs[2].name == RealIp
    requires fs[3].name == Connection && fs[3].token == (if reuse then KeepAlive else Close)
    requires Values(ks, ForwardedFor) == []
    ensures SameMessage(ks, ks + fs)
    ensures Values(ks + fs, ForwardedFor) == [trace] && Persistence(ks + fs, d) == reuse
  {
    hide Values, Persistence, LastLength, Acceptable;
    var a := ks + [fs[0]];
    var b := a + [fs[1]];
    var c := b + [fs[2]];
    FieldSnoc(ks, fs[0], d);
    FieldSnoc(a, fs[1], d);
    FieldSnoc(b, fs[2], d);
    FieldSnoc(c, fs[3], d);
    assert ks + fs == c + [fs[3]];
    ValuesSnoc(ks, fs[0], ForwardedFor);
    ValuesSnoc(a, fs[1], ForwardedFor);
    ValuesSnoc(b, fs[2], ForwardedFor);
    ValuesSnoc(c, fs[3], ForwardedFor);
  }

  lemma {:induction false} KeptTwice(lines: seq<string>)
    ensures Kept(Kept(lines)) == Kept(lines)
    decreases lines
  {
    hide Ours;
    if lines != [] {
      KeptTwice(lines[1..]);
      if !Ours(lines[0]) {
        assert Kept(lines) == [lines[0]] + Kept(lines[1..]);
        assert Kept(lines)[1..] == Kept(lines[1..]);
      } else {
        assert Kept(lines) == Kept(lines[1..]);
      }
    }
  }

  lemma AddedNotKept(trace: string, ip: string, proto: string, reuse: bool)
    requires Tidy(trace) && Plain(ip) && Plain(proto)
    ensures Kept(Added(trace, ip, proto, reuse)) == []
  {
    hide FieldOf, Tidy, Plain, Line;
    AddedFields(trace, ip, proto, reuse);
    AllOurs(Added(trace, ip, proto, reuse));
  }

  lemma {:induction false} AllOurs(lines: seq<string>)
    requires forall l <- lines :: Ours(l)
    ensures Kept(lines) == []
    decreases lines
  {
    hide Ours;
    if lines != [] {
      assert lines[0] in lines;
      AllOurs(lines[1..]);
    }
  }

  /** The bytes of the rewritten header, for a request whose header is at the front of `buf`. */
  function RewrittenText(buf: string, ip: string, proto: string, reuse: bool): string
    requires HeaderEnd(buf) != 0
  {
    Block(Rewritten(HeaderOf(buf), ip, proto, reuse))
  }

  /** Whoever parses the rewritten header finds its lines again, whatever bytes follow it. */
  lemma RewrittenLines(buf: string, rest: string, ip: string, proto: string, reuse: bool)
    requires HeaderEnd(buf) != 0 && Plain(ip) && Plain(proto)
    ensures var out := RewrittenText(buf, ip, proto, reuse);
            HeaderEnd(out + rest) == |out| != 0 && HeaderOf(out + rest) == Rewritten(HeaderOf(buf), ip, proto, reuse)
  {
    hide Rewritten, NoCrlf, Plain, Lines;
    var ls := HeaderOf(buf);
    var lines := Rewritten(ls, ip, proto, reuse);
    var out := Block(lines);
    RewrittenFields(ls, ip, proto, reuse, true);
    BlockEnd(lines, rest);
    assert (out + rest)[..|out|] == out;
    LinesOfBlock(lines);
  }

  /** Rewriting preserves the meaning of a request: parsed again, whatever follows it, the new
      header names the same host and the same kind of request and delimits the same body; it is
      as long as the bytes written, and asks for the persistence the proxy chose. */
  lemma RewritePreservesMeaning(buf: string, rest: string, ip: string, proto: string, reuse: bool)
    requires ParseRequest(buf).Done? && Plain(ip) && Plain(proto)
    requires |RewrittenText(buf, ip, proto, reuse)| <= MAX_HEADER
    ensures var out := RewrittenText(buf, ip, proto, reuse);
            ParseRequest(out + rest) ==
            Done(ParseRequest(buf).msg.(headerLen := |out|, keepAlive := reuse, hasXff := true))
  {
    hide Rewritten, HeaderOf, NoCrlf, Plain, RequestLine, Values, Persistence, LastLength, Acceptable, FieldOf;
    var ls := HeaderOf(buf);
    RewrittenLines(buf, rest, ip, proto, reuse);
    match RequestLine(ls[0]) {
      case Done((minor, head)) =>
        RewrittenFields(ls, ip, proto, reuse, minor == 1);
      case _ =>
    }
  }

  /** The client's other lines come through byte for byte and in order, and there is exactly one
      trace: the last one the client sent, if it was not empty, with the client after it. */
  lemma RewriteKeepsTheRest(buf: string, rest: string, ip: string, proto: string, reuse: bool)
    requires HeaderEnd(buf) != 0 && Plain(ip) && Plain(proto)
    ensures HeaderEnd(RewrittenText(buf, ip, proto, reuse) + rest) != 0
    ensures var before, after := HeaderOf(buf), HeaderOf(RewrittenText(buf, ip, proto, reuse) + rest);
            && after[0] == before[0]
            && Kept(after[1..]) == Kept(before[1..])
            && Values(FieldsOf(after[1..]), ForwardedFor) == [TraceOf(before[1..], ip)]
  {
    hide FieldOf, Values, NoCrlf, Plain, HeaderOf, Tidy;
    var ls := HeaderOf(buf);
    var trace := TraceOf(ls[1..], ip);
    RewrittenLines(buf, rest, ip, proto, reuse);
    RewrittenFields(ls, ip, proto, reuse, true);
    ValuesTidy(ls[1..], ForwardedFor);
    NothingTidy();
    TraceTidy(LastValue(Values(FieldsOf(ls[1..]), ForwardedFor)), ip);
    KeptTwice(ls[1..]);
    AddedNotKept(trace, ip, proto, reuse);
    KeptAppend(Kept(ls[1..]), Added(trace, ip, proto, reuse));
    assert Rewritten(ls, ip, proto, reuse)[1..] == Kept(ls[1..]) + Added(trace, ip, proto, reuse);
  }

  // ----- the in-place writer ---------------------------------------------------------------------

  function Flat(pieces: seq<string>): string {
    if pieces == [] then "" else pieces[0] + Flat(pieces[1..])
  }

  /** Appends one piece to the bytes written so far, unless it does not fit. */
  method Put(out: array<char>, used: nat, piece: string) returns (ok: bool)
    requires used <= out.Length
    modifies out
    ensures ok == (used + |piece| <= out.Length)
    ensures ok ==> out[..used + |piece|] == old(out[..used]) + piece
  {
    if used + |piece| > out.Length {
      return false;
    }
    for i := 0 to |piece|
      invariant out[..used] == old(out[..used])
      invariant out[used..used + i] == piece[..i]
    {
      out[used + i] := piece[i];
    }
    assert out[..used + |piece|] == out[..used] + out[used..used + |piece|];
    assert piece[..|piece|] == piece;
    return true;
  }

  /** Several pieces, one after another. */
  method PutAll(out: array<char>, used: nat, pieces: seq<string>) returns (ok: bool, end: nat)
    requires used <= out.Length
    modifies out
    ensures ok == (used + |Flat(pieces)| <= out.Length)
    ensures ok ==> end == used + |Flat(pieces)| && out[..end] == old(out[..used]) + Flat(pieces)
  {
    end := used;
    ghost var written := "";
    for k := 0 to |pieces|
      invariant used <= end <= out.Length && end == used + |written|
      invariant out[..end] == old(out[..used]) + written
      invariant written + Flat(pieces[k..]) == Flat(pieces)
    {
      assert Flat(pieces[k..]) == pieces[k] + Flat(pieces[k + 1..]);
      ok := Put(out, end, pieces[k]);
      if !ok {
        assert |Flat(pieces)| == |written| + |pieces[k]| + |Flat(pieces[k + 1..])|;
        return;
      }
      written := written + pieces[k];
      end := end + |pieces[k]|;
    }
    ok := true;
  }

  lemma {:induction false} FlatAppend(a: seq<string>, b: seq<string>)
    ensures Flat(a + b) == Flat(a) + Flat(b)
    decreases a
  {
    if a == [] {
      assert a + b == b;
    } else {
      var rest := a[1..] + b;
      assert (a + b)[0] == a[0] && (a + b)[1..] == rest;
      FlatAppend(a[1..], b);
    }
  }

  /** The pieces a header line of the proxy is written in. */
  function Pieces(name: string, value: seq<string>): (ps: seq<string>) {
    [name, ": "] + value + [CRLF]
  }

  lemma FlatPieces(name: string, value: seq<string>)
    ensures Flat(Pieces(name, value)) == Line(name, Flat(value)) + CRLF
  {
    var head := [name, ": "];
    FlatAppend(head, value);
    FlatAppend(head + value, [CRLF]);
    FlatTwo(name, ": ");
    FlatOne(CRLF);
  }

  lemma FlatOne(a: string)
    ensures Flat([a]) == a
  {
    assert [a][1..] == [];
  }

  lemma FlatTwo(a: string, b: string)
    ensures Flat([a, b]) == a + b
  {
    FlatOne(b);
    assert [a, b][1..] == [b];
  }

  function TracePieces(previous: string, ip: string): seq<string> {
    if previous == "" then [ip] else [previous, ", "] + [ip]
  }

  lemma FlatTrace(previous: string, ip: string)
    ensures Flat(TracePieces(previous, ip)) == Trace(previous, ip)
  {
    FlatOne(ip);
    FlatTwo(previous, ", ");
    FlatAppend([previous, ", "], [ip]);
  }

  /** All that comes after the client's lines. */
  function Tail(previous: string, ip: string, proto: string, reuse: bool): seq<string> {
    Pieces("X-Forwarded-For", TracePieces(previous, ip)) +
    (Pieces("X-Forwarded-Proto", [proto]) +
    (Pieces("X-Real-IP", [ip]) +
    (Pieces("Connection", [if reuse then "keep-alive" else "close"]) + [CRLF])))
  }

  lemma JoinOne(l: string, rest: seq<string>)
    ensures Join([l] + rest) == l + CRLF + Join(rest)
  {
    assert ([l] + rest)[1..] == rest;
  }

  lemma FlatTail(previous: string, ip: string, proto: string, reuse: bool)
    ensures Flat(Tail(previous, ip, proto, reuse)) == Join(Added(Trace(previous, ip), ip, proto, reuse)) + CRLF
  {
    hide Pieces, Line, TracePieces, Trace;
    var value := if reuse then "keep-alive" else "close";
    var d := Pieces("Connection", [value]);
    var c := Pieces("X-Real-IP", [ip]);
    var b := Pieces("X-Forwarded-Proto", [proto]);
    var a := Pieces("X-Forwarded-For", TracePieces(previous, ip));
    FlatTrace(previous, ip);
    FlatOne(ip);
    FlatOne(proto);
    FlatOne(value);
    FlatOne(CRLF);
    FlatPieces("X-Forwarded-For", TracePieces(previous, ip));
    FlatPieces("X-Forwarded-Proto", [proto]);
    FlatPieces("X-Real-IP", [ip]);
    FlatPieces("Connection", [value]);
    FlatAppend(d, [CRLF]);
    FlatAppend(c, d + [CRLF]);
    FlatAppend(b, c + (d + [CRLF]));
    FlatAppend(a, b + (c + (d + [CRLF])));
    var l1, l2, l3, l4 := Line("X-Forwarded-For", Trace(previous, ip)), Line("X-Forwarded-Proto", proto),
                          Line("X-Real-IP", ip), Line("Connection", value);
    JoinFour(l1, l2, l3, l4);
  }

  lemma JoinFour(a: string, b: string, c: string, d: string)
    ensures Join([a, b, c, d]) == a + CRLF + (b + CRLF + (c + CRLF + (d + CRLF)))
  {
    assert [a, b, c, d] == [a] + [b, c, d];
    assert [b, c, d] == [b] + [c, d];
    assert [c, d] == [c] + [d];
    assert [d] == [d] + [];
    JoinOne(a, [b, c, d]);
    JoinOne(b, [c, d]);
    JoinOne(c, [d]);
    JoinOne(d, []);
  }

  /** The text of a rewritten header, piece by piece. */
  lemma TextOfHeader(ls: seq<string>, ip: string, proto: string, reuse: bool)
    requires ls != []
    ensures var previous := LastValue(Values(FieldsOf(ls[1..]), ForwardedFor));
            Block(Rewritten(ls, ip, proto, reuse)) ==
            Join([ls[0]] + Kept(ls[1..])) + Flat(Tail(previous, ip, proto, reuse))
  {
    hide Values, FieldsOf, Flat, Tail, Added, Trace, Kept, Join;
    var previous := LastValue(Values(FieldsOf(ls[1..]), ForwardedFor));
    var head, added := [ls[0]] + Kept(ls[1..]), Added(Trace(previous, ip), ip, proto, reuse);
    FlatTail(previous, ip, proto, reuse);
    JoinAppend(head, added);
    assert Rewritten(ls, ip, proto, reuse) == head + added;
    assert Join(head) + Join(added) + CRLF == Join(head) + (Join(added) + CRLF);
  }

  /** Taking one more line: what has been written grows by that line if it is kept. */
  lemma TakeOne(first: string, seen: seq<string>, left: seq<string>)
    requires left != []
    ensures var l, more := left[0], seen + [left[0]];
            && Join([first] + Kept(more)) == Join([first] + Kept(seen)) + (if Ours(l) then "" else l + CRLF)
            && |Join([first] + Kept(more))| <= |Join([first] + Kept(seen + left))|
            && LastValue(Values(FieldsOf(more), ForwardedFor)) ==
               (if FieldOf(l).name == ForwardedFor then FieldOf(l).value else LastValue(Values(FieldsOf(seen), ForwardedFor)))
  {
    hide FieldOf, Ours, Kept, Values;
    var l, more := left[0], seen + [left[0]];
    KeptSnoc(seen, l);
    if !Ours(l) {
      assert [first] + Kept(more) == ([first] + Kept(seen)) + [l];
      JoinAppend([first] + Kept(seen), [l]);
      JoinOne(l, []);
      assert [l] + [] == [l];
    }
    KeptAppend(more, left[1..]);
    assert more + left[1..] == seen + left;
    assert [first] + Kept(seen + left) == ([first] + Kept(more)) + Kept(left[1..]);
    JoinAppend([first] + Kept(more), Kept(left[1..]));
    assert FieldsOf(more) == FieldsOf(seen) + [FieldOf(l)];
    ValuesSnoc(FieldsOf(seen), FieldOf(l), ForwardedFor);
  }

  /** Writes into `out` the header that goes upstream; -1 if it does not fit, or if there is
      nothing to rewrite.  The record is the parse of `buf`, as its caller keeps it. */
  method Rewrite(req: HttpRequest, buf: string, ip: Option<string>, proto: Option<string>, reuse: bool, out: array<char>)
    returns (n: int)
    requires req.status == DONE && req.headerLen <= |buf| ==> req.Outcome() == ParseRequest(buf)
    modifies out
    ensures req.status != DONE || |buf| < req.headerLen || ip.None? ==> n == -1
    ensures req.status == DONE && |buf| >= req.headerLen && ip.Some? ==>
              && HeaderEnd(buf) != 0
              && var text := RewrittenText(buf, ip.value, if proto.Some? then proto.value else "http", reuse);
                 if |text| > out.Length then n == -1 else n == |text| && out[..n] == text
  {
    if req.status != DONE || |buf| < req.headerLen || ip.None? {
      return -1;
    }
    DoneHasHeader(buf);
    ghost var ls := HeaderOf(buf);
    ghost var scheme := if proto.Some? then proto.value else "http";
    TextOfHeader(ls, ip.value, scheme, reuse);
    var ok, used, previous := CopyLines(buf[..req.headerLen], out, ls);
    if !ok {
      return -1;
    }
    var end;
    ok, end := PutAll(out, used, Tail(previous, ip.value, if proto.Some? then proto.value else "http", reuse));
    return if ok then end else -1;
  }

  lemma DoneHasHeader(buf: string)
    requires ParseRequest(buf).Done?
    ensures HeaderEnd(buf) == ParseRequest(buf).msg.headerLen != 0
    ensures HeaderLines(HeaderOf(buf)) && buf[..HeaderEnd(buf)] == Block(HeaderOf(buf))
  {
    hide FieldOf, RequestLine, Acceptable;
  }

  /** The request line and the lines that are kept, and the last trace of the client. */
  method CopyLines(block: string, out: array<char>, ghost ls: seq<string>) returns (ok: bool, used: nat, previous: string)
    requires HeaderLines(ls) && block == Block(ls)
    modifies out
    ensures ok == (|Join([ls[0]] + Kept(ls[1..]))| <= out.Length)
    ensures ok ==> used <= out.Length && out[..used] == Join([ls[0]] + Kept(ls[1..]))
    ensures ok ==> previous == LastValue(Values(FieldsOf(ls[1..]), ForwardedFor))
  {
    hide FieldOf, Kept, Values, Join, Block;
    LinesOfBlock(ls);
    assert block[0..] == block;
    used, previous := 0, "";
    var eol := ReadLine(block, 0, ls + [""]);
    FirstLineOnly(ls);
    ok := Put(out, 0, block[0..eol] + CRLF);
    if !ok {
      return;
    }
    used := eol + 2;
    assert (ls + [""])[1..] == ls[1..] + [""];
    ok, used, previous := CopyKept(block, used, out, used, ls[0], ls[1..]);
  }

  lemma FirstLineOnly(ls: seq<string>)
    requires ls != []
    ensures ls[0] + CRLF == Join([ls[0]] + Kept([])) && Kept([]) == []
    ensures |ls[0] + CRLF| <= |Join([ls[0]] + Kept(ls[1..]))|
    ensures LastValue(Values(FieldsOf([]), ForwardedFor)) == ""
  {
    hide FieldOf;
    JoinOne(ls[0], []);
    JoinOne(ls[0], Kept(ls[1..]));
    assert FieldsOf([]) == [];
  }

  /** One line, unless it is one the proxy replaces. */
  method CopyLine(l: string, name: Name, out: array<char>, used: nat) returns (ok: bool, end: nat)
    requires used <= out.Length && name == FieldOf(l).name
    modifies out
    ensures ok == (used + (if Ours(l) then 0 else |l| + 2) <= out.Length)
    ensures ok ==> end <= out.Length && out[..end] == old(out[..used]) + if Ours(l) then "" else l + CRLF
  {
    hide FieldOf;
    end := used;
    if name in {ForwardedFor, ForwardedProto, RealIp, Connection, ProxyConnection, KeepAliveField} {
      return true, used;
    }
    ok := Put(out, used, l + CRLF);
    end := if ok then used + |l| + 2 else used;
  }

  method CopyKept(block: string, from: nat, out: array<char>, start: nat, ghost first: string, ghost ls: seq<string>)
    returns (ok: bool, used: nat, previous: string)
    requires "" !in ls && from <= |block| && Lines(block[from..]) == ls + [""]
    requires start <= out.Length && out[..start] == first + CRLF
    modifies out
    ensures ok == (|Join([first] + Kept(ls))| <= out.Length)
    ensures ok ==> used <= out.Length && out[..used] == Join([first] + Kept(ls))
    ensures ok ==> previous == LastValue(Values(FieldsOf(ls), ForwardedFor))
  {
    hide FieldOf, Kept, Values, Join, LastValue, Ours, Lines;
    used, previous := start, "";
    var line := from;
    ghost var seen: seq<string>, left := [], ls;
    assert [first][0] == first;
    FirstLineOnly([first]);
    while line < |block|
      invariant from <= line <= |block| && seen + left == ls
      invariant Lines(block[line..]) == left + [""]
      invariant used <= out.Length && out[..used] == Join([first] + Kept(seen))
      invariant previous == LastValue(Values(FieldsOf(seen), ForwardedFor))
      decreases |block| - line
    {
      var le := ReadLine(block, line, left + [""]);
      if le == line {
        break;
      }
      NextOf(seen, left, ls);
      TakeOne(first, seen, left);
      // An accepted request has no malformed line, so splitting one cannot fail here.
      var f := SplitField(block[line..le]);
      if f.name == ForwardedFor {
        previous := f.value;
      }
      ok, used := CopyLine(block[line..le], f.name, out, used);
      if !ok {
        return;
      }
      seen, left := seen + [left[0]], left[1..];
      line := le + 2;
    }
    BlankLineLeft(block, line, left);
    assert seen == ls;
    ok := true;
  }
}
