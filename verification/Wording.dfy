/** What header lines say, letter by letter: the parsers and the rewriter against the literal names and
    values of the protocol, independently of how they classify a line. */
module Wording {
  import opened Text
  import opened HttpParser
  import opened HttpResponses
  import opened Rewriting

  // ----- values -------------------------------------------------------------------------------------

  /** A value is what is left when the spaces and tabs around it are cut off. */
  lemma TrimmedExactly(s: string) returns (left: string, right: string)
    ensures s == left + Trim(s) + right
    ensures forall c <- left + right :: c == ' ' || c == '\t'
    ensures Trim(s) != "" ==> Trim(s)[0] !in {' ', '\t'} && Trim(s)[|Trim(s)| - 1] !in {' ', '\t'}
  {
    var l := TrimLeft(s);
    left := LeftBlanks(s);
    right := RightBlanks(l);
    TrimLeftIsSuffix(s);
    TrimRightIsPrefix(l);
  }

  lemma {:induction false} LeftBlanks(s: string) returns (left: string)
    ensures s == left + TrimLeft(s) && forall c <- left :: c == ' ' || c == '\t'
    decreases |s|
  {
    left := "";
    if s != "" && Blank(s[0]) {
      var rest := LeftBlanks(s[1..]);
      left := [s[0]] + rest;
    }
  }

  lemma {:induction false} RightBlanks(s: string) returns (right: string)
    ensures s == TrimRight(s) + right && forall c <- right :: c == ' ' || c == '\t'
    decreases |s|
  {
    right := "";
    if s != "" && Blank(s[|s| - 1]) {
      var rest := RightBlanks(s[..|s| - 1]);
      right := rest + [s[|s| - 1]];
    }
  }

  // ----- names --------------------------------------------------------------------------------------

  /** The text before the first colon is the name, case aside. */
  predicate Called(l: string, name: string) {
    |name| < |l| && l[|name|] == ':' && Spells(l[..|name|], name)
  }

  /** The text after the colon of a name of that length, the blanks around it cut off. */
  function After(l: string, n: nat): string {
    if n < |l| then Trim(l[n + 1..]) else ""
  }

  predicate Nameless(l: string) {
    ':' !in l || l[0] == ':'
  }

  /** Each name the proxy looks for is told from all other texts. */
  lemma NameSpelled(s: string)
    ensures NameOf(s).Host? <==> Spells(s, "host")
    ensures NameOf(s).Connection? <==> Spells(s, "connection")
    ensures NameOf(s).ForwardedFor? <==> Spells(s, "x-forwarded-for")
    ensures NameOf(s).ContentLength? <==> Spells(s, "content-length")
    ensures NameOf(s).TransferEncoding? <==> Spells(s, "transfer-encoding")
    ensures NameOf(s).ForwardedProto? <==> Spells(s, "x-forwarded-proto")
    ensures NameOf(s).RealIp? <==> Spells(s, "x-real-ip")
    ensures NameOf(s).ProxyConnection? <==> Spells(s, "proxy-connection")
    ensures NameOf(s).KeepAliveField? <==> Spells(s, "keep-alive")
    ensures !NameOf(s).Malformed?
  {
    hide IEq, Spells;
    SpelledExactly(s, "host");
    SpelledExactly(s, "connection");
    SpelledExactly(s, "x-forwarded-for");
    SpelledExactly(s, "content-length");
    SpelledExactly(s, "transfer-encoding");
    SpelledExactly(s, "x-forwarded-proto");
    SpelledExactly(s, "x-real-ip");
    SpelledExactly(s, "proxy-connection");
    SpelledExactly(s, "keep-alive");
    OneWord(s);
  }

  lemma OneWord(s: string)
    ensures Spells(s, "host") ==> |s| == 4
    ensures Spells(s, "x-real-ip") ==> |s| == 9
    ensures Spells(s, "connection") ==> |s| == 10 && s[0] in "cC"
    ensures Spells(s, "keep-alive") ==> |s| == 10 && s[0] in "kK"
    ensures Spells(s, "content-length") ==> |s| == 14
    ensures Spells(s, "x-forwarded-for") ==> |s| == 15
    ensures Spells(s, "proxy-connection") ==> |s| == 16
    ensures Spells(s, "transfer-encoding") ==> |s| == 17 && s[0] in "tT"
    ensures Spells(s, "x-forwarded-proto") ==> |s| == 17 && s[0] in "xX"
  {
    if |s| > 0 {
      assert SameLetter(s[0], 'c') ==> s[0] in "cC";
      assert SameLetter(s[0], 'k') ==> s[0] in "kK";
      assert SameLetter(s[0], 't') ==> s[0] in "tT";
      assert SameLetter(s[0], 'x') ==> s[0] in "xX";
    }
  }

  lemma TokenSpelled(v: string)
    ensures TokenOf(v).Close? <==> Spells(v, "close")
    ensures TokenOf(v).KeepAlive? <==> Spells(v, "keep-alive")
    ensures TokenOf(v).Chunked? <==> Spells(v, "chunked")
  {
    hide IEq;
    SpelledExactly(v, "close");
    SpelledExactly(v, "keep-alive");
    SpelledExactly(v, "chunked");
  }

  lemma CalledAt(l: string, name: string)
    requires ':' !in name && Small(name) && name != ""
    ensures Called(l, name) <==> IndexOf(l, ':') == |name| < |l| && Spells(l[..|name|], name)
  {
    if Called(l, name) {
      forall i | 0 <= i < |name| ensures l[i] != ':' {
        assert SameLetter(l[..|name|][i], name[i]);
      }
    }
  }

  /** Which field a line is, and its value, by the letters of the line. */
  lemma FieldCalled(l: string)
    ensures FieldOf(l).name.Malformed? <==> Nameless(l)
    ensures FieldOf(l).name.Host? <==> Called(l, "host")
    ensures FieldOf(l).name.Connection? <==> Called(l, "connection")
    ensures FieldOf(l).name.ForwardedFor? <==> Called(l, "x-forwarded-for")
    ensures FieldOf(l).name.ContentLength? <==> Called(l, "content-length")
    ensures FieldOf(l).name.TransferEncoding? <==> Called(l, "transfer-encoding")
    ensures FieldOf(l).name.ForwardedProto? <==> Called(l, "x-forwarded-proto")
    ensures FieldOf(l).name.RealIp? <==> Called(l, "x-real-ip")
    ensures FieldOf(l).name.ProxyConnection? <==> Called(l, "proxy-connection")
    ensures FieldOf(l).name.KeepAliveField? <==> Called(l, "keep-alive")
  {
    hide *;
    NameBeforeColon(l);
    ParsedNames(l);
    OtherNames(l);
  }

  lemma NameBeforeColon(l: string)
    ensures Nameless(l) <==> FieldOf(l).name.Malformed?
    ensures var c := IndexOf(l, ':'); FieldOf(l).name == if 0 < c < |l| then NameOf(l[..c]) else Malformed
    ensures !NameOf(l[..IndexOf(l, ':')]).Malformed?
  {
    hide NameOf, TokenOf, Trim;
    NameSpelled(l[..IndexOf(l, ':')]);
  }

  lemma ParsedNames(l: string)
    ensures FieldOf(l).name.Host? <==> Called(l, "host")
    ensures FieldOf(l).name.Connection? <==> Called(l, "connection")
    ensures FieldOf(l).name.ForwardedFor? <==> Called(l, "x-forwarded-for")
    ensures FieldOf(l).name.ContentLength? <==> Called(l, "content-length")
    ensures FieldOf(l).name.TransferEncoding? <==> Called(l, "transfer-encoding")
  {
    hide FieldOf, NameOf, Spells, Called;
    NameBeforeColon(l);
    NameSpelled(l[..IndexOf(l, ':')]);
    BeforeColon(l, "host");
    BeforeColon(l, "connection");
    BeforeColon(l, "x-forwarded-for");
    BeforeColon(l, "content-length");
    BeforeColon(l, "transfer-encoding");
  }

  lemma OtherNames(l: string)
    ensures FieldOf(l).name.ForwardedProto? <==> Called(l, "x-forwarded-proto")
    ensures FieldOf(l).name.RealIp? <==> Called(l, "x-real-ip")
    ensures FieldOf(l).name.ProxyConnection? <==> Called(l, "proxy-connection")
    ensures FieldOf(l).name.KeepAliveField? <==> Called(l, "keep-alive")
  {
    hide FieldOf, NameOf, Spells, Called;
    NameBeforeColon(l);
    NameSpelled(l[..IndexOf(l, ':')]);
    BeforeColon(l, "x-forwarded-proto");
    BeforeColon(l, "x-real-ip");
    BeforeColon(l, "proxy-connection");
    BeforeColon(l, "keep-alive");
  }

  lemma BeforeColon(l: string, name: string)
    requires ':' !in name && Small(name) && name != ""
    ensures Called(l, name) <==> 0 < IndexOf(l, ':') < |l| && Spells(l[..IndexOf(l, ':')], name)
  {
    CalledAt(l, name);
  }

  /** The value of a field is what follows its colon, trimmed; the tokens are told by their letters. */
  lemma ValueCalled(l: string, name: string)
    requires Called(l, name) && ':' !in name && Small(name) && name != ""
    ensures FieldOf(l).value == After(l, |name|)
    ensures FieldOf(l).token.Close? <==> Spells(After(l, |name|), "close")
    ensures FieldOf(l).token.KeepAlive? <==> Spells(After(l, |name|), "keep-alive")
    ensures FieldOf(l).token.Chunked? <==> Spells(After(l, |name|), "chunked")
  {
    hide NameOf, TokenOf, Spells, Called, Trim;
    CalledAt(l, name);
    TokenSpelled(After(l, |name|));
  }

  // ----- lists of fields ----------------------------------------------------------------------------

  lemma {:induction false} NoneNamed(fields: seq<Field>, name: Name)
    ensures Values(fields, name) == [] <==> forall k :: 0 <= k < |fields| ==> fields[k].name != name
    decreases fields
  {
    if fields != [] {
      NoneNamed(fields[1..], name);
      assert forall k :: 1 <= k < |fields| ==> fields[k] == fields[1..][k - 1];
    }
  }

  /** The values around one field of a name. */
  lemma Around(fields: seq<Field>, name: Name, k: nat)
    requires k < |fields| && fields[k].name == name
    ensures Values(fields, name) == Values(fields[..k], name) + [fields[k].value] + Values(fields[k + 1..], name)
  {
    hide Values;
    ValuesSnoc(fields[..k], fields[k], name);
    ValuesAppend(fields[..k] + [fields[k]], fields[k + 1..], name);
    assert fields == fields[..k] + [fields[k]] + fields[k + 1..];
  }

  /** The last field of a name holds its last value. */
  lemma LastNamed(fields: seq<Field>, name: Name, k: nat)
    requires k < |fields| && fields[k].name == name && forall j :: k < j < |fields| ==> fields[j].name != name
    ensures Values(fields, name) != [] && LastValue(Values(fields, name)) == fields[k].value
    ensures ParseDec(fields[k].value).Some? ==> LastLength(Values(fields, name)) == ParseDec(fields[k].value).value
  {
    hide Values, ParseDec;
    Around(fields, name, k);
    NoneNamed(fields[k + 1..], name);
  }

  /** A single field of a name. */
  lemma OneNamed(fields: seq<Field>, name: Name, k: nat)
    requires k < |fields| && fields[k].name == name
    ensures |Values(fields, name)| == 1 <==> forall j :: 0 <= j < |fields| && j != k ==> fields[j].name != name
    ensures |Values(fields, name)| == 1 ==> Values(fields, name)[0] == fields[k].value
    ensures |Values(fields, name)| >= 1
  {
    hide Values;
    Around(fields, name, k);
    NoneNamed(fields[..k], name);
    NoneNamed(fields[k + 1..], name);
    assert forall j :: k < j < |fields| ==> fields[j] == fields[k + 1..][j - k - 1];
  }

  predicate Decides(f: Field) {
    f.name.Connection? && (f.token.Close? || f.token.KeepAlive?)
  }

  lemma {:induction false} LastDecides(fields: seq<Field>, d: bool, k: nat)
    requires k < |fields| && Decides(fields[k]) && forall j :: k < j < |fields| ==> !Decides(fields[j])
    ensures Persistence(fields, d) == fields[k].token.KeepAlive?
    decreases |fields|
  {
    if k < |fields| - 1 {
      LastDecides(fields[..|fields| - 1], d, k);
    }
  }

  lemma {:induction false} NoneDecides(fields: seq<Field>, d: bool)
    requires forall j :: 0 <= j < |fields| ==> !Decides(fields[j])
    ensures Persistence(fields, d) == d
    decreases |fields|
  {
    if fields != [] {
      NoneDecides(fields[..|fields| - 1], d);
    }
  }

  /** The place of the last field of a name. */
  lemma {:induction false} LastOfExactly(fields: seq<Field>, name: Name) returns (k: nat)
    ensures if LastOf(fields, name).None? then forall j :: 0 <= j < |fields| ==> fields[j].name != name
            else k < |fields| && LastOf(fields, name) == Some(fields[k]) && fields[k].name == name
                 && forall j :: k < j < |fields| ==> fields[j].name != name
    decreases |fields|
  {
    k := 0;
    if fields != [] {
      if fields[|fields| - 1].name == name {
        k := |fields| - 1;
      } else {
        k := LastOfExactly(fields[..|fields| - 1], name);
      }
    }
  }

  // ----- requests -----------------------------------------------------------------------------------

  /** Two words without a space in them, and a rest. */
  predicate Words(l: string, m: string, t: string, v: string) {
    m != "" && t != "" && ' ' !in m && ' ' !in t && l == m + " " + t + " " + v
  }

  lemma HeadSpelled(m: string)
    ensures IEq(m, "HEAD") <==> Spells(m, "head")
  {
    SpelledExactly(m, "head");
    Agree("HEAD", "head");
  }

  /** The first line of a request. */
  lemma FirstLineRead(l: string, m: string, t: string, v: string)
    requires Words(l, m, t, v)
    ensures RequestLine(l) == if v == "HTTP/1.1" then Done((1, Spells(m, "head")))
                              else if v == "HTTP/1.0" then Done((0, Spells(m, "head")))
                              else Refused(505)
  {
    hide IEq, Spells;
    HeadSpelled(m);
    var sp1, sp2 := |m|, |m| + 1 + |t|;
    assert l[sp1] == ' ' && l[sp2] == ' ';
    assert forall i :: 0 <= i < sp1 ==> l[i] == m[i];
    assert IndexOf(l, ' ') == sp1;
    assert forall i :: sp1 < i < sp2 ==> l[i] == t[i - sp1 - 1];
    assert IndexOf(l, ' ', sp1 + 1) == sp2;
    assert l[..sp1] == m && l[sp2 + 1..] == v;
    VersionRead(v);
  }

  lemma VersionRead(v: string)
    ensures |v| == 8 && v[..7] == "HTTP/1." && v[7] == '1' <==> v == "HTTP/1.1"
    ensures |v| == 8 && v[..7] == "HTTP/1." && v[7] == '0' <==> v == "HTTP/1.0"
  {
    assert |v| == 8 ==> v == v[..7] + [v[7]];
    assert "HTTP/1.1"[..7] == "HTTP/1." == "HTTP/1.0"[..7];
    assert "HTTP/1." + "1" == "HTTP/1.1" && "HTTP/1." + "0" == "HTTP/1.0";
  }

  lemma FirstLineSplit(l: string) returns (m: string, t: string, v: string)
    requires RequestLine(l) != Refused(400)
    ensures Words(l, m, t, v)
  {
    hide IEq;
    var sp1 := IndexOf(l, ' ');
    var sp2 := IndexOf(l, ' ', sp1 + 1);
    m, t, v := l[..sp1], l[sp1 + 1..sp2], l[sp2 + 1..];
    assert l == m + " " + t + " " + v;
  }

  predicate IsHost(l: string) { Called(l, "host") }
  predicate IsLength(l: string) { Called(l, "content-length") }
  predicate IsCoding(l: string) { Called(l, "transfer-encoding") }
  predicate IsTrace(l: string) { Called(l, "x-forwarded-for") }

  /** A Connection line that asks for one thing or the other. */
  predicate Asks(l: string) {
    Called(l, "connection") && (Spells(After(l, 10), "close") || Spells(After(l, 10), "keep-alive"))
  }

  /** Line k is the host line, and there is no other. */
  ghost predicate OnlyHost(f: seq<string>, k: nat) {
    && k < |f| && IsHost(f[k]) && 0 < |After(f[k], 4)| < 256
    && forall j :: 0 <= j < |f| && j != k ==> !IsHost(f[j])
  }

  /** What the lines of a request must be, apart from the first. */
  ghost predicate WellFormed(f: seq<string>) {
    && (forall k :: 0 <= k < |f| ==> !Nameless(f[k]))
    && (exists k :: OnlyHost(f, k))
    && (forall k :: 0 <= k < |f| && IsLength(f[k]) ==> 1 <= |After(f[k], 14)| <= 19 && AllDigits(After(f[k], 14)))
    && (forall k :: 0 <= k < |f| && IsCoding(f[k]) ==> Spells(After(f[k], 17), "chunked"))
  }

  /** What they say about the request. */
  ghost predicate Says(f: seq<string>, r: Request) {
    && (forall k :: 0 <= k < |f| && IsHost(f[k]) ==> r.host == After(f[k], 4))
    && (r.hasXff <==> exists k :: 0 <= k < |f| && IsTrace(f[k]))
    && (r.mode.ChunkedCoding? <==> exists k :: 0 <= k < |f| && IsCoding(f[k]))
    && (r.mode.NoBody? <==> forall k :: 0 <= k < |f| ==> !IsCoding(f[k]) && !IsLength(f[k]))
    && !r.mode.UntilClose?
    && (forall k :: 0 <= k < |f| && IsLength(f[k]) && (forall j :: k < j < |f| ==> !IsLength(f[j])) ==>
          ParseDec(After(f[k], 14)) == Some(r.contentLength))
    && ((forall k :: 0 <= k < |f| ==> !Asks(f[k])) ==> (r.keepAlive <==> r.minor == 1))
    && (forall k :: 0 <= k < |f| && Asks(f[k]) && (forall j :: k < j < |f| ==> !Asks(f[j])) ==>
          (r.keepAlive <==> Spells(After(f[k], 10), "keep-alive")))
  }

  /** The lines as fields. */
  lemma Fields(f: seq<string>)
    ensures forall k :: 0 <= k < |f| ==>
              var x := FieldsOf(f)[k];
              && (x.name.Malformed? <==> Nameless(f[k])) && (x.name.Host? <==> IsHost(f[k]))
              && (x.name.ContentLength? <==> IsLength(f[k])) && (x.name.TransferEncoding? <==> IsCoding(f[k]))
              && (x.name.ForwardedFor? <==> IsTrace(f[k])) && (Decides(x) <==> Asks(f[k]))
              && (IsHost(f[k]) ==> x.value == After(f[k], 4))
              && (IsLength(f[k]) ==> x.value == After(f[k], 14))
              && (IsTrace(f[k]) ==> x.value == After(f[k], 15))
              && (IsCoding(f[k]) ==> (x.token.Chunked? <==> Spells(After(f[k], 17), "chunked")))
              && (Asks(f[k]) ==> (x.token.KeepAlive? <==> Spells(After(f[k], 10), "keep-alive")))
  {
    hide FieldOf, Called, Spells, After;
    forall k | 0 <= k < |f|
      ensures var x := FieldsOf(f)[k];
              && (x.name.Malformed? <==> Nameless(f[k])) && (x.name.Host? <==> IsHost(f[k]))
              && (x.name.ContentLength? <==> IsLength(f[k])) && (x.name.TransferEncoding? <==> IsCoding(f[k]))
              && (x.name.ForwardedFor? <==> IsTrace(f[k])) && (Decides(x) <==> Asks(f[k]))
              && (IsHost(f[k]) ==> x.value == After(f[k], 4))
              && (IsLength(f[k]) ==> x.value == After(f[k], 14))
              && (IsTrace(f[k]) ==> x.value == After(f[k], 15))
              && (IsCoding(f[k]) ==> (x.token.Chunked? <==> Spells(After(f[k], 17), "chunked")))
              && (Asks(f[k]) ==> (x.token.KeepAlive? <==> Spells(After(f[k], 10), "keep-alive")))
    {
      OneField(f[k]);
    }
  }

  lemma OneField(l: string)
    ensures var x := FieldOf(l);
            && (x.name.Malformed? <==> Nameless(l)) && (x.name.Host? <==> IsHost(l))
            && (x.name.ContentLength? <==> IsLength(l)) && (x.name.TransferEncoding? <==> IsCoding(l))
            && (x.name.ForwardedFor? <==> IsTrace(l)) && (Decides(x) <==> Asks(l))
            && (IsHost(l) ==> x.value == After(l, 4))
            && (IsLength(l) ==> x.value == After(l, 14))
            && (IsTrace(l) ==> x.value == After(l, 15))
            && (IsCoding(l) ==> (x.token.Chunked? <==> Spells(After(l, 17), "chunked")))
            && (Asks(l) ==> (x.token.KeepAlive? <==> Spells(After(l, 10), "keep-alive")))
  {
    hide FieldOf, Called, Spells, After, Nameless;
    FieldCalled(l);
    if Called(l, "host") { ValueCalled(l, "host"); }
    if Called(l, "content-length") { ValueCalled(l, "content-length"); }
    if Called(l, "x-forwarded-for") { ValueCalled(l, "x-forwarded-for"); }
    if Called(l, "transfer-encoding") { ValueCalled(l, "transfer-encoding"); }
    if Called(l, "connection") { ValueCalled(l, "connection"); }
  }

  /** The lines are acceptable exactly when they are well formed. */
  lemma AcceptedExactly(f: seq<string>)
    ensures Acceptable(FieldsOf(f)) && Values(FieldsOf(f), Host) != [] <==> WellFormed(f)
  {
    hide FieldOf, IsHost, IsLength, IsCoding, IsTrace, Asks, Spells, After, Nameless, Values;
    var x := FieldsOf(f);
    Fields(f);
    NoneNamed(x, Host);
    if WellFormed(f) {
      var k :| OnlyHost(f, k);
      OneNamed(x, Host, k);
      assert forall j :: 0 <= j < |x| ==> FieldOk(x[j]);
    }
    if Acceptable(x) && Values(x, Host) != [] {
      var k :| 0 <= k < |x| && x[k].name == Host;
      OneNamed(x, Host, k);
      assert FieldOk(x[k]);
      assert OnlyHost(f, k);
      assert forall j :: 0 <= j < |f| ==> FieldOk(x[j]);
    }
  }

  /** And mean what they say. */
  lemma MeantExactly(f: seq<string>, len: nat, minor: int, head: bool)
    requires Acceptable(FieldsOf(f)) && Values(FieldsOf(f), Host) != []
    ensures Says(f, FieldsMeaning(len, minor, head, FieldsOf(f), Values(FieldsOf(f), Host)[0]))
  {
    hide FieldOf, IsHost, IsLength, IsCoding, IsTrace, Asks, Spells, After, Nameless, Values, Persistence, LastLength, ParseDec;
    var x := FieldsOf(f);
    Fields(f);
    NoneNamed(x, ForwardedFor);
    NoneNamed(x, TransferEncoding);
    NoneNamed(x, ContentLength);
    forall k | 0 <= k < |f| && IsHost(f[k]) ensures Values(x, Host)[0] == After(f[k], 4) {
      OneNamed(x, Host, k);
    }
    forall k | 0 <= k < |f| && IsLength(f[k]) && (forall j :: k < j < |f| ==> !IsLength(f[j]))
      ensures ParseDec(After(f[k], 14)) == Some(LastLength(Values(x, ContentLength)))
    {
      assert FieldOk(x[k]);
      LastNamed(x, ContentLength, k);
    }
    Persists(f, minor == 1);
  }

  lemma Persists(f: seq<string>, d: bool)
    ensures (forall k :: 0 <= k < |f| ==> !Asks(f[k])) ==> Persistence(FieldsOf(f), d) == d
    ensures forall k :: 0 <= k < |f| && Asks(f[k]) && (forall j :: k < j < |f| ==> !Asks(f[j])) ==>
              (Persistence(FieldsOf(f), d) <==> Spells(After(f[k], 10), "keep-alive"))
  {
    hide FieldOf, Decides, IsHost, IsLength, IsCoding, IsTrace, Asks, Spells, After, Nameless, Persistence;
    Fields(f);
    var x := FieldsOf(f);
    if forall k :: 0 <= k < |f| ==> !Asks(f[k]) {
      NoneDecides(x, d);
    }
    forall k | 0 <= k < |f| && Asks(f[k]) && (forall j :: k < j < |f| ==> !Asks(f[j]))
      ensures Persistence(x, d) <==> Spells(After(f[k], 10), "keep-alive")
    {
      LastDecides(x, d, k);
    }
  }

  /** A request header within the limit, letter by letter: 505 exactly for another version; 400 exactly
      for lines that are not well formed; otherwise accepted, and then it means what its lines say. */
  lemma RequestDecided(buf: string, m: string, t: string, v: string)
    requires 0 < HeaderEnd(buf) <= 8192 && Words(HeaderOf(buf)[0], m, t, v)
    ensures v != "HTTP/1.1" && v != "HTTP/1.0" ==> ParseRequest(buf) == Refused(505)
    ensures v == "HTTP/1.1" || v == "HTTP/1.0" ==>
              if !WellFormed(HeaderOf(buf)[1..]) then ParseRequest(buf) == Refused(400)
              else
                && ParseRequest(buf).Done?
                && var r := ParseRequest(buf).msg;
                   && r.headerLen == HeaderEnd(buf) && r.minor == (if v == "HTTP/1.1" then 1 else 0)
                   && (r.isHead <==> Spells(m, "head")) && Says(HeaderOf(buf)[1..], r)
  {
    hide RequestLine, Acceptable, Values, WellFormed, Says, Spells, FieldsMeaning, HeaderEnd, FieldsOf, HeaderOf, Words;
    var ls := HeaderOf(buf);
    FirstLineRead(ls[0], m, t, v);
    AcceptedExactly(ls[1..]);
    if Acceptable(FieldsOf(ls[1..])) && Values(FieldsOf(ls[1..]), Host) != [] {
      var minor := if v == "HTTP/1.1" then 1 else 0;
      MeantExactly(ls[1..], HeaderEnd(buf), minor, Spells(m, "head"));
      MeaningFrame(HeaderEnd(buf), minor, Spells(m, "head"), FieldsOf(ls[1..]), Values(FieldsOf(ls[1..]), Host)[0]);
    }
  }

  lemma MeaningFrame(len: nat, minor: int, head: bool, fields: seq<Field>, host: string)
    ensures var r := FieldsMeaning(len, minor, head, fields, host); r.headerLen == len && r.minor == minor && r.isHead == head
  {
  }

  /** And for other buffers: 400 without two words at the front, 431 beyond the limit, and otherwise more
      is needed. */
  lemma OtherRequests(buf: string)
    ensures HeaderEnd(buf) == 0 ==> ParseRequest(buf) == if |buf| > 8192 then Refused(431) else NeedMore
    ensures HeaderEnd(buf) > 8192 ==> ParseRequest(buf) == Refused(431)
    ensures 0 < HeaderEnd(buf) <= 8192 && (forall m, t, v :: !Words(HeaderOf(buf)[0], m, t, v)) ==>
              ParseRequest(buf) == Refused(400)
  {
    hide HeaderEnd, HeaderOf, RequestLine, Words, FieldOf, Acceptable, Values;
    if HeaderEnd(buf) != 0 {
      if RequestLine(HeaderOf(buf)[0]) != Refused(400) {
        var m, t, v := FirstLineSplit(HeaderOf(buf)[0]);
      }
    }
  }

  // ----- responses ----------------------------------------------------------------------------------

  /** The status line of a response: three digits behind the version and any one character.  The
      characters are not checked to be digits. */
  lemma StatusRead(v: char, sp: char, a: nat, b: nat, c: nat, rest: string)
    requires a < 10 && b < 10 && c < 10
    ensures StatusLine("HTTP/1." + [v, sp, "0123456789"[a], "0123456789"[b], "0123456789"[c]] + rest) ==
            if 1 <= a <= 5 then Some((if v == '0' then 0 else 1, 100 * a + 10 * b + c)) else None
    ensures StatusLine("HTTP/1.1 0:0") == Some((1, 100))
  {
    var l := "HTTP/1." + [v, sp, "0123456789"[a], "0123456789"[b], "0123456789"[c]] + rest;
    assert l[..7] == "HTTP/1." && "HTTP/1.1 0:0"[..7] == "HTTP/1.";
    DigitPrinted(a);
    DigitPrinted(b);
    DigitPrinted(c);
    assert l[7] == v && l[9] == "0123456789"[a] && l[10] == "0123456789"[b] && l[11] == "0123456789"[c];
  }

  lemma OtherStatus(l: string)
    requires |l| < 12 || l[..7] != "HTTP/1."
    ensures StatusLine(l).None?
  {
  }

  /** The last coding line says "chunked". */
  ghost predicate LastCodingChunked(f: seq<string>) {
    exists k :: 0 <= k < |f| && IsCoding(f[k]) && Spells(After(f[k], 17), "chunked")
                && forall j :: k < j < |f| ==> !IsCoding(f[j])
  }

  /** The last length line is a clean number. */
  ghost predicate LastLengthIs(f: seq<string>, n: nat) {
    exists k :: 0 <= k < |f| && IsLength(f[k]) && ParseDec(After(f[k], 14)) == Some(n)
                && forall j :: k < j < |f| ==> !IsLength(f[j])
  }

  /** How a response body is delimited, letter by letter: none for HEAD, 1xx, 204 and 304; else by the
      chunked coding, even beside a length; else by a length; else by the end of the connection. */
  lemma DelimitedExactly(f: seq<string>, head: bool, code: int)
    ensures var mode, length := Delimiter(head, code, FieldsOf(f)), LastLength(Values(FieldsOf(f), ContentLength));
            if head || 100 <= code <= 199 || code == 204 || code == 304 then mode == NoBody
            else if LastCodingChunked(f) then mode == ChunkedCoding
            else if exists n: nat :: LastLengthIs(f, n) then mode == Length && LastLengthIs(f, length)
            else mode == UntilClose
  {
    hide FieldOf, IsHost, IsLength, IsCoding, IsTrace, Asks, Spells, After, Nameless, Values, LastLength, LastOf, ParseDec;
    var x := FieldsOf(f);
    Fields(f);
    var coding := LastOfExactly(x, TransferEncoding);
    var length := LastOfExactly(x, ContentLength);
    if exists n: nat :: LastLengthIs(f, n) {
      var n: nat :| LastLengthIs(f, n);
      var k :| 0 <= k < |f| && IsLength(f[k]) && ParseDec(After(f[k], 14)) == Some(n)
               && forall j :: k < j < |f| ==> !IsLength(f[j]);
      LastNamed(x, ContentLength, k);
    }
    LengthFound(f);
  }

  lemma LengthFound(f: seq<string>)
    ensures LastOf(FieldsOf(f), ContentLength).Some? && ParseDec(LastOf(FieldsOf(f), ContentLength).value.value).Some? ==>
              LastLengthIs(f, ParseDec(LastOf(FieldsOf(f), ContentLength).value.value).value)
  {
    hide FieldOf, IsHost, IsLength, IsCoding, IsTrace, Asks, Spells, After, Nameless, LastOf, ParseDec;
    Fields(f);
    var k := LastOfExactly(FieldsOf(f), ContentLength);
  }

  /** A complete response header: 502 exactly without a status line; otherwise its version, its code, how
      its lines delimit the body, and whether the connection outlives it. */
  lemma ResponseDecided(buf: string, head: bool)
    requires HeaderEnd(buf) != 0
    ensures HeaderOf(buf) != []
    ensures var f := HeaderOf(buf)[1..];
            match StatusLine(HeaderOf(buf)[0])
            case None => ParseResponse(buf, head) == Refused(502)
            case Some((minor, code)) =>
              && ParseResponse(buf, head).Done?
              && var r := ParseResponse(buf, head).msg;
                 && r.headerLen == HeaderEnd(buf) && r.minor == minor && r.statusCode == code
                 && r.mode == Delimiter(head, code, FieldsOf(f)) && r.contentLength == LastLength(Values(FieldsOf(f), ContentLength))
                 && (r.mode.UntilClose? ==> !r.keepAlive)
                 && (!r.mode.UntilClose? && (forall k :: 0 <= k < |f| ==> !Asks(f[k])) ==> (r.keepAlive <==> minor == 1))
                 && (forall k :: 0 <= k < |f| && Asks(f[k]) && (forall j :: k < j < |f| ==> !Asks(f[j])) && !r.mode.UntilClose? ==>
                       (r.keepAlive <==> Spells(After(f[k], 10), "keep-alive")))
  {
    hide StatusLine, Delimiter, LastLength, Values, FieldsOf, HeaderEnd, HeaderOf, Asks, After, Spells, Persistence, HeaderLines;
    MeaningOf(buf, head);
    var f := HeaderOf(buf)[1..];
    Persists(f, true);
    Persists(f, false);
  }

  // ----- the header that goes upstream --------------------------------------------------------------

  /** The six names that the proxy does not pass on. */
  predicate Replaced(l: string) {
    || Called(l, "x-forwarded-for") || Called(l, "x-forwarded-proto") || Called(l, "x-real-ip")
    || Called(l, "connection") || Called(l, "proxy-connection") || Called(l, "keep-alive")
  }

  lemma ReplacedExactly(l: string)
    ensures Ours(l) <==> Replaced(l)
  {
    hide FieldOf, Called;
    FieldCalled(l);
  }

  /** `at` are the places of the lines that are passed on, in order. */
  ghost predicate PassedOn(lines: seq<string>, at: seq<nat>) {
    && (forall i, j :: 0 <= i < j < |at| ==> at[i] < at[j])
    && (forall i :: 0 <= i < |at| ==> at[i] < |lines|)
    && forall k: nat :: k < |lines| ==> (k in at <==> !Replaced(lines[k]))
  }

  lemma {:induction false} KeptAt(lines: seq<string>) returns (at: seq<nat>)
    ensures PassedOn(lines, at) && |Kept(lines)| == |at|
    ensures forall i :: 0 <= i < |at| ==> Kept(lines)[i] == lines[at[i]]
    decreases |lines|
  {
    hide Kept, Replaced, Ours, PassedOn;
    at := [];
    if lines == [] {
      NothingKept();
    } else {
      var p, l := lines[..|lines| - 1], lines[|lines| - 1];
      assert lines == p + [l];
      KeptSnoc(p, l);
      ReplacedExactly(l);
      var before := KeptAt(p);
      InRange(p, before);
      OneMorePassed(p, before, l);
      at := if Replaced(l) then before else before + [|p|];
    }
  }

  lemma OneMorePassed(p: seq<string>, at: seq<nat>, l: string)
    requires PassedOn(p, at)
    ensures PassedOn(p + [l], if Replaced(l) then at else at + [|p|])
  {
    hide Replaced;
    var lines, more := p + [l], if Replaced(l) then at else at + [|p|];
    forall k: nat | k < |lines| ensures k in more <==> !Replaced(lines[k]) {
      if k < |p| {
        assert lines[k] == p[k];
      } else {
        assert k !in at;
      }
    }
  }

  lemma NothingKept()
    ensures Kept([]) == [] && PassedOn([], [])
  {
  }

  /** What the trace is: the client alone, or the last value the client sent and the client after it. */
  ghost predicate TraceIs(lines: seq<string>, ip: string, trace: string) {
    && ((forall k :: 0 <= k < |lines| ==> !IsTrace(lines[k])) ==> trace == ip)
    && forall k :: 0 <= k < |lines| && IsTrace(lines[k]) && (forall j :: k < j < |lines| ==> !IsTrace(lines[j])) ==>
         trace == if After(lines[k], 15) == "" then ip else After(lines[k], 15) + ", " + ip
  }

  lemma TracedExactly(lines: seq<string>, ip: string)
    ensures TraceIs(lines, ip, TraceOf(lines, ip))
  {
    hide FieldOf, IsHost, IsLength, IsCoding, IsTrace, Asks, Spells, After, Nameless, Values, FieldsOf;
    Fields(lines);
    var x := FieldsOf(lines);
    NoneNamed(x, ForwardedFor);
    forall k | 0 <= k < |lines| && IsTrace(lines[k]) && (forall j :: k < j < |lines| ==> !IsTrace(lines[j]))
      ensures LastValue(Values(x, ForwardedFor)) == After(lines[k], 15)
    {
      LastNamed(x, ForwardedFor, k);
    }
  }

  /** Whoever parses the rewritten header, whatever follows it, finds letter by letter: the first line,
      every line of the client but those of the six names, in order, and then exactly four lines. */
  lemma RewrittenExactly(buf: string, rest: string, ip: string, proto: string, reuse: bool)
      returns (at: seq<nat>, trace: string)
    requires HeaderEnd(buf) != 0 && Plain(ip) && Plain(proto)
    ensures HeaderOf(buf) != [] && PassedOn(HeaderOf(buf)[1..], at) && TraceIs(HeaderOf(buf)[1..], ip, trace)
    ensures var out := RewrittenText(buf, ip, proto, reuse); HeaderEnd(out + rest) == |out| != 0
    ensures var before, after := HeaderOf(buf), HeaderOf(RewrittenText(buf, ip, proto, reuse) + rest);
            && |after| == 1 + |at| + 4 && after[0] == before[0]
            && (forall i :: 0 <= i < |at| ==> after[1 + i] == before[1 + at[i]])
            && after[1 + |at|] == "X-Forwarded-For: " + trace
            && after[2 + |at|] == "X-Forwarded-Proto: " + proto
            && after[3 + |at|] == "X-Real-IP: " + ip
            && after[4 + |at|] == if reuse then "Connection: keep-alive" else "Connection: close"
  {
    hide Kept, HeaderEnd, HeaderOf, TraceOf, TraceIs, PassedOn, Plain, Replaced;
    RewrittenLines(buf, rest, ip, proto, reuse);
    var ls := HeaderOf(buf);
    at := KeptAt(ls[1..]);
    trace := TraceOf(ls[1..], ip);
    TracedExactly(ls[1..], ip);
    InRange(ls[1..], at);
    FourLines(trace, ip, proto, reuse);
  }

  lemma InRange(lines: seq<string>, at: seq<nat>)
    requires PassedOn(lines, at)
    ensures forall i :: 0 <= i < |at| ==> at[i] < |lines|
  {
  }

  lemma FourLines(trace: string, ip: string, proto: string, reuse: bool)
    ensures Added(trace, ip, proto, reuse) ==
            ["X-Forwarded-For: " + trace, "X-Forwarded-Proto: " + proto, "X-Real-IP: " + ip,
             if reuse then "Connection: keep-alive" else "Connection: close"]
  {
    assert "X-Forwarded-For" + ": " == "X-Forwarded-For: ";
    assert "X-Forwarded-Proto" + ": " == "X-Forwarded-Proto: ";
    assert "X-Real-IP" + ": " == "X-Real-IP: ";
    assert "Connection" + ": " + "keep-alive" == "Connection: keep-alive";
    assert "Connection" + ": " + "close" == "Connection: close";
  }
}
