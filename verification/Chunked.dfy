/** The incremental scanner for chunked bodies (section 7.1 of RFC 9112).

    The scanner decodes nothing: it only finds where the body ends, whatever way the byte
    stream is cut into reads.  `Run` says what one feed does, byte by byte; `Scanner.Feed` is the
    in-place loop, which jumps over data in bulk.  A byte is a Dafny `char`: every statement here
    holds for all characters, so in particular for the 256 byte values. */
module Chunked {
  import opened Text

  datatype Phase = Size | SizeExt | Data | DataCrlf | Trailer | End

  datatype Scan = Scan(phase: Phase, remaining: nat, lineLen: nat, done: bool, error: bool) {
    predicate Stopped() {
      done || error
    }
  }

  const MAX_LINE := 64
  const U64_MAX := 0xFFFF_FFFF_FFFF_FFFF
  const START := Scan(Size, 0, 0, false, false)

  /** The value of a hexadecimal digit in either case, or -1. */
  function HexDigit(c: char): int {
    if '0' <= c <= '9' then c as int - '0' as int
    else if 'a' <= c <= 'f' then c as int - 'a' as int + 10
    else if 'A' <= c <= 'F' then c as int - 'A' as int + 10
    else -1
  }

  /** One byte of a size line. */
  function SizeByte(s: Scan, c: char): Scan {
    if c == '\n' then s.(lineLen := 0, phase := if s.remaining == 0 then Trailer else Data)
    else if c == '\r' then s
    else
      var t := s.(lineLen := s.lineLen + 1);
      var d := HexDigit(c);
      if t.lineLen > MAX_LINE then t.(error := true)
      else if t.phase.SizeExt? then t
      else if c == ';' then t.(phase := SizeExt)
      else if d < 0 || t.remaining > (U64_MAX - d) / 16 then t.(error := true)
      else t.(remaining := t.remaining * 16 + d)
  }

  function TrailerByte(s: Scan, c: char): Scan {
    if c == '\n' then
      if s.lineLen == 0 then s.(phase := End, done := true) else s.(lineLen := 0)
    else if c == '\r' then s
    else s.(lineLen := s.lineLen + 1)
  }

  /** The two transitions that consume no byte. */
  function Settle(s: Scan): Scan {
    if s.phase.Data? && s.remaining == 0 then s.(phase := DataCrlf)
    else if s.phase.End? then s.(done := true)
    else s
  }

  function Byte(s: Scan, c: char): Scan
    requires s == Settle(s)
  {
    match s.phase
    case Size => SizeByte(s, c)
    case SizeExt => SizeByte(s, c)
    case Data => s.(remaining := s.remaining - 1, phase := if s.remaining == 1 then DataCrlf else Data)
    case DataCrlf => if c == '\n' then s.(phase := Size, lineLen := 0) else s
    case Trailer => TrailerByte(s, c)
    case End => s
  }

  /** The state after a feed, and how many bytes it consumed. */
  function Run(s: Scan, buf: seq<char>): (r: (Scan, nat))
    ensures r.1 <= |buf|
    decreases buf
  {
    if buf == [] || s.Stopped() then (s, 0)
    else
      var t := Settle(s);
      if t.done then (t, 0)
      else
        var (u, n) := Run(Byte(t, buf[0]), buf[1..]);
        (u, n + 1)
  }

  /** A run over a stream that arrives in pieces. */
  function RunAll(s: Scan, parts: seq<seq<char>>): (Scan, nat)
    decreases parts
  {
    if parts == [] then (s, 0)
    else
      var (t, n) := Run(s, parts[0]);
      var (u, m) := RunAll(t, parts[1..]);
      (u, n + m)
  }

  function Concat(parts: seq<seq<char>>): seq<char> {
    if parts == [] then [] else parts[0] + Concat(parts[1..])
  }

  // ----- the stream may be cut anywhere -----------------------------------------------------

  /** From any state at all: feeding `a` and then `b` is feeding `a + b`. */
  lemma {:induction false} RunSplit(s: Scan, a: seq<char>, b: seq<char>)
    ensures var (t, n) := Run(s, a);
            var (u, m) := Run(t, b);
            Run(s, a + b) == (u, n + m)
    decreases a
  {
    if a == [] {
      assert a + b == b;
    } else if !s.Stopped() && !Settle(s).done {
      assert (a + b)[1..] == a[1..] + b;
      RunSplit(Byte(Settle(s), a[0]), a[1..], b);
    }
  }

  /** Hence any partition of a stream gives the state and the count of one feed of the whole. */
  lemma {:induction false} SplitInvariance(s: Scan, parts: seq<seq<char>>)
    ensures RunAll(s, parts) == Run(s, Concat(parts))
    decreases parts
  {
    if parts != [] {
      SplitInvariance(Run(s, parts[0]).0, parts[1..]);
      RunSplit(s, parts[0], Concat(parts[1..]));
    }
  }

  lemma StopRun(s: Scan, buf: seq<char>)
    requires s.Stopped() || buf == []
    ensures Run(s, buf) == (s, 0)
  {
  }

  /** A scanner that has finished has not failed. */
  lemma {:induction false} DoneWithoutError(s: Scan, buf: seq<char>)
    requires !(s.done && s.error)
    ensures var t := Run(s, buf).0; !(t.done && t.error)
    decreases buf
  {
    if buf != [] && !s.Stopped() && !Settle(s).done {
      DoneWithoutError(Byte(Settle(s), buf[0]), buf[1..]);
    }
  }

  lemma Then(s: Scan, a: seq<char>, t: Scan, b: seq<char>, u: Scan)
    requires Run(s, a) == (t, |a|) && Run(t, b) == (u, |b|)
    ensures Run(s, a + b) == (u, |a + b|)
  {
    hide Run;
    RunSplit(s, a, b);
  }

  lemma OneByte(s: Scan, c: char)
    requires !s.Stopped() && !Settle(s).done
    ensures Run(s, [c]) == (Byte(Settle(s), c), 1)
  {
    assert Run(Byte(Settle(s), c), [c][1..]).1 == 0;
  }

  // ----- sizes ------------------------------------------------------------------------------

  predicate AllHex(t: string) {
    forall i :: 0 <= i < |t| ==> HexDigit(t[i]) >= 0
  }

  /** The number a hexadecimal numeral denotes, leading zeros allowed. */
  function HexValue(t: string): nat
    requires AllHex(t)
  {
    if t == [] then 0 else HexValue(t[..|t| - 1]) * 16 + HexDigit(t[|t| - 1])
  }

  /** A size line of at most 64 hex digits is read exactly, and refused exactly when its value
      does not fit in 64 bits. */
  lemma {:induction false} SizeReadExactly(t: string)
    requires AllHex(t) && |t| <= MAX_LINE
    ensures var (u, n) := Run(START, t);
            && (u.error <==> HexValue(t) > U64_MAX)
            && (!u.error ==> u == Scan(Size, HexValue(t), |t|, false, false) && n == |t|)
  {
    hide Run;
    if t == [] {
      StopRun(START, t);
    } else {
      var p, c := t[..|t| - 1], t[|t| - 1];
      SizeReadExactly(p);
      assert t == p + [c];
      RunSplit(START, p, [c]);
      var u := Run(START, p).0;
      if u.error {
        StopRun(u, [c]);
      } else {
        OneByte(u, c);
      }
    }
  }

  /** How many bytes of a line count against the limit. */
  function NonCr(t: string): nat {
    if t == [] then 0 else (if t[0] == '\r' then 0 else 1) + NonCr(t[1..])
  }

  /** Nothing in a chunk extension is taken for a digit. */
  lemma {:induction false} ExtensionSkipped(s: Scan, t: string)
    requires s.phase.SizeExt? && !s.Stopped()
    requires '\n' !in t && s.lineLen + NonCr(t) <= MAX_LINE
    ensures Run(s, t) == (s.(lineLen := s.lineLen + NonCr(t)), |t|)
    decreases t
  {
    if t != [] {
      ExtensionSkipped(SizeByte(s, t[0]), t[1..]);
    }
  }

  // ----- the coding of section 7.1 -----------------------------------------------------------

  /** A size line: hex digits in any case, then nothing or ";" and an extension. */
  datatype SizeLine = SizeLine(digits: string, ext: string) {
    ghost predicate Valid() {
      && digits != [] && AllHex(digits) && HexValue(digits) <= U64_MAX
      && (ext == [] || ext[0] == ';') && '\n' !in ext
      && |digits| + NonCr(ext) <= MAX_LINE
    }
    function Text(): string {
      digits + ext + CRLF
    }
  }

  datatype Chunk = Chunk(size: SizeLine, data: seq<char>) {
    ghost predicate Valid() {
      size.Valid() && data != [] && HexValue(size.digits) == |data|
    }
    function Text(): string {
      size.Text() + data + CRLF
    }
  }

  datatype Body = Body(chunks: seq<Chunk>, last: SizeLine, trailers: seq<string>) {
    ghost predicate Valid() {
      && (forall c <- chunks :: c.Valid())
      && last.Valid() && HexValue(last.digits) == 0
      && (forall t <- trailers :: '\n' !in t && NonCr(t) > 0)
    }
    function Text(): string {
      ChunksText(chunks) + (last.Text() + (TrailersText(trailers) + CRLF))
    }
  }

  function ChunksText(cs: seq<Chunk>): string {
    if cs == [] then [] else cs[0].Text() + ChunksText(cs[1..])
  }

  function TrailersText(ts: seq<string>): string {
    if ts == [] then [] else ts[0] + CRLF + TrailersText(ts[1..])
  }

  /** A carriage return never changes the state between bodies of data; the line feed decides. */
  lemma LineEnd(s: Scan)
    requires !s.Stopped() && !s.phase.Data? && !s.phase.End?
    ensures Run(s, CRLF) == (Byte(s, '\n'), 2)
  {
    OneByte(s, '\r');
    OneByte(s, '\n');
    RunSplit(s, "\r", "\n");
    assert CRLF == "\r" + "\n";
  }

  lemma ExtensionRead(s: Scan, ext: string)
    requires s.phase.Size? && !s.Stopped() && (ext == [] || ext[0] == ';')
    requires '\n' !in ext && s.lineLen + NonCr(ext) <= MAX_LINE
    ensures Run(s, ext) ==
            (s.(phase := if ext == [] then Size else SizeExt, lineLen := s.lineLen + NonCr(ext)), |ext|)
  {
    hide Run;
    if ext == [] {
      StopRun(s, ext);
    } else {
      var t := SizeByte(s, ';');
      OneByte(s, ';');
      ExtensionSkipped(t, ext[1..]);
      assert ext == [';'] + ext[1..];
      RunSplit(s, [';'], ext[1..]);
    }
  }

  /** After a size line the scanner knows exactly how much data follows. */
  lemma SizeLineRead(l: SizeLine)
    requires l.Valid()
    ensures var v := HexValue(l.digits);
            Run(START, l.Text()) == (Scan(if v == 0 then Trailer else Data, v, 0, false, false), |l.Text()|)
  {
    hide Run, HexValue, NonCr;
    var v := HexValue(l.digits);
    SizeReadExactly(l.digits);
    var s := Scan(Size, v, |l.digits|, false, false);
    ExtensionRead(s, l.ext);
    var t := s.(phase := if l.ext == [] then Size else SizeExt, lineLen := s.lineLen + NonCr(l.ext));
    Then(START, l.digits, s, l.ext, t);
    LineEnd(t);
    Then(START, l.digits + l.ext, t, CRLF, Byte(t, '\n'));
  }

  // ----- printed sizes ------------------------------------------------------------------------

  const SMALL_DIGITS := "0123456789abcdef"
  const CAPITAL_DIGITS := "0123456789ABCDEF"

  /** A number in hexadecimal, without leading zeros, with small or capital letters. */
  function HexNumeral(n: nat, capital: bool): string {
    (if n < 16 then "" else HexNumeral(n / 16, capital)) + [if capital then CAPITAL_DIGITS[n % 16] else SMALL_DIGITS[n % 16]]
  }

  /** The sixteen digits in either case, and no other character. */
  lemma HexDigitsPrinted(c: char)
    ensures forall d :: 0 <= d < 16 ==> HexDigit(SMALL_DIGITS[d]) == HexDigit(CAPITAL_DIGITS[d]) == d
    ensures HexDigit(c) >= 0 ==> c in SMALL_DIGITS || c in CAPITAL_DIGITS
  {
    var d := HexDigit(c);
    if d >= 0 {
      assert c == SMALL_DIGITS[d] || c == CAPITAL_DIGITS[d];
    }
  }

  lemma HexSnoc(p: string, c: char)
    ensures AllHex(p + [c]) <==> AllHex(p) && HexDigit(c) >= 0
    ensures AllHex(p + [c]) ==> HexValue(p + [c]) == HexValue(p) * 16 + HexDigit(c)
  {
    var q := p + [c];
    assert q[..|p|] == p && q[|p|] == c;
    assert forall i :: 0 <= i < |p| ==> p[i] == q[i];
  }

  lemma {:induction false} HexNumeralRead(n: nat, capital: bool)
    ensures AllHex(HexNumeral(n, capital)) && HexValue(HexNumeral(n, capital)) == n && HexNumeral(n, capital) != ""
    decreases n
  {
    hide AllHex, HexValue, HexDigit;
    HexDigitsPrinted('0');
    var p := if n < 16 then "" else HexNumeral(n / 16, capital);
    if n < 16 {
      assert AllHex(p) && HexValue(p) == n / 16 by { NoHex(); }
    } else {
      HexNumeralRead(n / 16, capital);
    }
    HexSnoc(p, if capital then CAPITAL_DIGITS[n % 16] else SMALL_DIGITS[n % 16]);
  }

  lemma NoHex()
    ensures AllHex("") && HexValue("") == 0
  {
  }

  /** A chunk whose size is printed in either case, with or without an extension, is consumed whole. */
  lemma PrintedChunkRead(data: seq<char>, capital: bool, ext: string)
    requires data != [] && |data| <= U64_MAX && (ext == [] || ext[0] == ';') && '\n' !in ext
    requires |HexNumeral(|data|, capital)| + NonCr(ext) <= MAX_LINE
    ensures var text := HexNumeral(|data|, capital) + ext + "\r\n" + data + "\r\n";
            Run(START, text) == (START, |text|)
  {
    hide Run, HexNumeral, HexValue, AllHex, NonCr;
    HexNumeralRead(|data|, capital);
    var c := Chunk(SizeLine(HexNumeral(|data|, capital), ext), data);
    ChunkRead(c);
    assert c.Text() == HexNumeral(|data|, capital) + ext + "\r\n" + data + "\r\n";
  }

  // ----- the size lines that are refused -------------------------------------------------------

  function WithoutCr(t: string): string {
    if t == [] then []
    else WithoutCr(t[..|t| - 1]) + if t[|t| - 1] == '\r' then [] else [t[|t| - 1]]
  }

  /** What stands before the first ";". */
  function BeforeExt(t: string): (d: string)
    ensures d <= t && ';' !in d
  {
    if ';' !in t then t else BeforeExt(t[..|t| - 1])
  }

  /** Carriage returns apart: at most 64 bytes, and hex digits of a 64-bit value before the first ";",
      without a space between the two. */
  ghost predicate Readable(p: string) {
    |p| <= 64 && AllHex(BeforeExt(p)) && HexValue(BeforeExt(p)) <= 0xFFFF_FFFF_FFFF_FFFF
  }

  /** The scanner in the middle of a line that comes to `p`. */
  ghost predicate Judged(u: Scan, p: string) {
    && (u.error <==> !Readable(p))
    && (!u.error ==> u == Scan(if ';' in p then SizeExt else Size, HexValue(BeforeExt(p)), |p|, false, false))
  }

  lemma OneMore(p: string, c: char)
    requires c != '\r'
    ensures BeforeExt(p + [c]) == if ';' in p || c == ';' then BeforeExt(p) else p + [c]
    ensures ';' !in p ==> BeforeExt(p) == p
    ensures AllHex(p + [c]) <==> AllHex(p) && HexDigit(c) >= 0
    ensures AllHex(p + [c]) ==> HexValue(p + [c]) == HexValue(p) * 16 + HexDigit(c)
  {
    HexSnoc(p, c);
    assert (p + [c])[..|p|] == p && (p + [c])[|p|] == c;
  }

  /** Whatever a line holds before its line feed: the scanner refuses it if and only if it is not
      readable, and otherwise has read the value of its digits. */
  lemma {:induction false} SizeLineJudged(t: string)
    requires '\n' !in t
    ensures var (u, n) := Run(START, t);
            Judged(u, WithoutCr(t)) && (!u.error ==> n == |t|)
  {
    if t == [] {
      StopRun(START, t);
    } else {
      hide Run, Judged;
      var q, c := t[..|t| - 1], t[|t| - 1];
      SizeLineJudged(q);
      assert t == q + [c];
      RunSplit(START, q, [c]);
      assert WithoutCr(t) == if c == '\r' then WithoutCr(q) else WithoutCr(q) + [c];
      var u, p := Run(START, q).0, WithoutCr(q);
      SameOrJudged(u, p, c);
      if u.error {
        StopRun(u, [c]);
      } else {
        OneByte(u, c);
      }
    }
  }

  /** One byte more, for a scanner that has read `p` so far. */
  lemma SameOrJudged(u: Scan, p: string, c: char)
    requires c != '\n' && Judged(u, p)
    ensures var v := if u.error then u else SizeByte(u, c);
            Judged(v, if c == '\r' then p else p + [c])
    ensures !u.error ==> !u.done && (u.phase.Size? || u.phase.SizeExt?)
  {
    hide BeforeExt, AllHex, HexValue;
    if c != '\r' {
      OneMore(p, c);
    }
  }

  /** A space before the ";" of an extension, which the grammar of section 7.1.1 allows, is refused
      whatever follows it. */
  lemma SpaceBeforeExtension(digits: string, ext: string)
    requires AllHex(digits) && '\n' !in digits + " ;" + ext
    ensures Run(START, digits + " ;" + ext).0.error
  {
    hide Run;
    var t := digits + " ";
    HexHasNoCr(digits);
    assert t[..|digits|] == digits;
    assert WithoutCr(t) == t;
    assert HexDigit(';') < 0;
    assert BeforeExt(t) == t && HexDigit(t[|digits|]) < 0;
    SizeLineJudged(t);
    assert digits + " ;" + ext == t + (";" + ext);
    RunSplit(START, t, ";" + ext);
    StopRun(Run(START, t).0, ";" + ext);
  }

  lemma {:induction false} HexHasNoCr(t: string)
    requires AllHex(t)
    ensures WithoutCr(t) == t
  {
    if t != [] {
      HexHasNoCr(t[..|t| - 1]);
      assert HexDigit(t[|t| - 1]) >= 0;
    }
  }

  lemma {:induction false} DataSkipped(s: Scan, d: seq<char>)
    requires s.phase.Data? && !s.Stopped() && 0 < |d| <= s.remaining
    ensures Run(s, d) == (s.(remaining := s.remaining - |d|,
                             phase := if s.remaining == |d| then DataCrlf else Data), |d|)
    decreases d
  {
    var t := Byte(s, d[0]);
    if |d| == 1 {
      OneByte(s, d[0]);
      assert d == [d[0]];
    } else {
      DataSkipped(t, d[1..]);
    }
  }

  lemma ChunkRead(c: Chunk)
    requires c.Valid()
    ensures Run(START, c.Text()) == (START, |c.Text()|)
  {
    hide Run;
    SizeLineRead(c.size);
    var s, t := Scan(Data, |c.data|, 0, false, false), Scan(DataCrlf, 0, 0, false, false);
    DataSkipped(s, c.data);
    Then(START, c.size.Text(), s, c.data, t);
    LineEnd(t);
    Then(START, c.size.Text() + c.data, t, CRLF, START);
  }

  lemma {:induction false} ChunksRead(cs: seq<Chunk>)
    requires forall c <- cs :: c.Valid()
    ensures Run(START, ChunksText(cs)) == (START, |ChunksText(cs)|)
  {
    hide Run;
    if cs == [] {
      StopRun(START, []);
    } else {
      ChunkRead(cs[0]);
      ChunksRead(cs[1..]);
      Then(START, cs[0].Text(), START, ChunksText(cs[1..]), START);
    }
  }

  /** Between the data of a chunk and the next size line everything up to a line feed is skipped. */
  lemma {:induction false} DataEndSkipped(t: string)
    requires '\n' !in t
    ensures Run(Scan(DataCrlf, 0, 0, false, false), t + "\n") == (START, |t| + 1)
    decreases t
  {
    var s := Scan(DataCrlf, 0, 0, false, false);
    if t == "" {
      assert t + "\n" == "\n";
      OneByte(s, '\n');
    } else {
      DataEndSkipped(t[1..]);
      assert (t + "\n")[0] == t[0] && (t + "\n")[1..] == t[1..] + "\n";
    }
  }

  const TRAILER := Scan(Trailer, 0, 0, false, false)

  lemma {:induction false} TrailerSkipped(s: Scan, t: string)
    requires s.phase.Trailer? && !s.Stopped() && '\n' !in t
    ensures Run(s, t) == (s.(lineLen := s.lineLen + NonCr(t)), |t|)
    decreases t
  {
    if t != [] {
      TrailerSkipped(TrailerByte(s, t[0]), t[1..]);
    }
  }

  lemma {:induction false} TrailersRead(ts: seq<string>)
    requires forall t <- ts :: '\n' !in t && NonCr(t) > 0
    ensures Run(TRAILER, TrailersText(ts)) == (TRAILER, |TrailersText(ts)|)
  {
    hide Run;
    if ts == [] {
      StopRun(TRAILER, []);
    } else {
      TrailerSkipped(TRAILER, ts[0]);
      var u := TRAILER.(lineLen := NonCr(ts[0]));
      LineEnd(u);
      Then(TRAILER, ts[0], u, CRLF, TRAILER);
      TrailersRead(ts[1..]);
      Then(TRAILER, ts[0] + CRLF, TRAILER, TrailersText(ts[1..]), TRAILER);
    }
  }

  const FINISHED := Scan(End, 0, 0, true, false)

  lemma TailRead(last: SizeLine, ts: seq<string>)
    requires last.Valid() && HexValue(last.digits) == 0
    requires forall t <- ts :: '\n' !in t && NonCr(t) > 0
    ensures var tail := last.Text() + (TrailersText(ts) + CRLF);
            Run(START, tail) == (FINISHED, |tail|)
  {
    hide Run;
    SizeLineRead(last);
    TrailersRead(ts);
    LineEnd(TRAILER);
    Then(TRAILER, TrailersText(ts), TRAILER, CRLF, FINISHED);
    Then(START, last.Text(), TRAILER, TrailersText(ts) + CRLF, FINISHED);
  }

  /** Round trip: the scanner consumes exactly the coded body, ends `done` without error, and
      leaves every byte that follows it alone. */
  lemma RoundTrip(b: Body, rest: seq<char>)
    requires b.Valid()
    ensures Run(START, b.Text() + rest) == (FINISHED, |b.Text()|)
  {
    hide Run;
    ChunksRead(b.chunks);
    TailRead(b.last, b.trailers);
    Then(START, ChunksText(b.chunks), START, b.last.Text() + (TrailersText(b.trailers) + CRLF), FINISHED);
    RunSplit(START, b.Text(), rest);
    StopRun(FINISHED, rest);
  }

  /** So, however much of the stream has arrived, `done` holds exactly when the whole coded body
      has, and no prefix is ever refused. */
  lemma DoneExactlyAtTheEnd(b: Body, rest: seq<char>, k: nat)
    requires b.Valid() && k <= |b.Text() + rest|
    ensures var s := Run(START, (b.Text() + rest)[..k]).0;
            !s.error && (s.done <==> k >= |b.Text()|)
  {
    hide Run;
    var all := b.Text() + rest;
    RoundTrip(b, rest);
    assert all == all[..k] + all[k..];
    RunSplit(START, all[..k], all[k..]);
    if k >= |b.Text()| {
      assert all[..k] == b.Text() + rest[..k - |b.Text()|];
      RoundTrip(b, rest[..k - |b.Text()|]);
    } else if Run(START, all[..k]).0.Stopped() {
      StopRun(Run(START, all[..k]).0, all[k..]);
    }
  }

  // ----- the in-place scanner ----------------------------------------------------------------

  class Scanner {
    var phase: Phase
    var remaining: nat
    var lineLen: nat
    var done: bool
    var error: bool

    ghost function State(): Scan
      reads this
    {
      Scan(phase, remaining, lineLen, done, error)
    }

    constructor ()
      ensures State() == START
    {
      phase, remaining, lineLen, done, error := Size, 0, 0, false, false;
    }

    /** One byte of a size line: the first two cases of the switch. */
    method SizeLineByte(c: char)
      requires phase.Size? || phase.SizeExt?
      modifies this
      ensures State() == Byte(old(State()), c)
    {
      if c == '\n' {
        lineLen := 0;
        phase := if remaining == 0 then Trailer else Data;
        return;
      }
      if c == '\r' {
        return;
      }
      lineLen := lineLen + 1;
      if lineLen > MAX_LINE {
        error := true;
        return;
      }
      if phase.SizeExt? {
        return;
      }
      if c == ';' {
        phase := SizeExt;
        return;
      }
      var d := HexDigit(c);
      if d < 0 || remaining > (U64_MAX - d) / 16 {
        error := true;
        return;
      }
      remaining := remaining * 16 + d;
    }

    /** The data case: skips as much data as there is, at once. */
    method SkipData(rest: seq<char>) returns (take: nat)
      requires phase.Data? && !done && !error && rest != []
      modifies this
      ensures take <= |rest| && (take == 0 ==> old(remaining) == 0 && phase.DataCrlf?)
      ensures !done && !error
      ensures var (u, n) := Run(State(), rest[take..]); Run(old(State()), rest) == (u, take + n)
    {
      ghost var s := State();
      take := if |rest| < remaining then |rest| else remaining;
      remaining := remaining - take;
      if remaining == 0 {
        phase := DataCrlf;
      }
      if take > 0 {
        DataSkipped(s, rest[..take]);
        RunSplit(s, rest[..take], rest[take..]);
        assert rest == rest[..take] + rest[take..];
      }
    }

    /** A byte of a trailer line, or of the line end after data. */
    method LineByte(c: char)
      requires phase.Trailer? || phase.DataCrlf?
      modifies this
      ensures State() == Byte(old(State()), c)
    {
      if phase.DataCrlf? {
        if c == '\n' {
          phase := Size;
          lineLen := 0;
        }
      } else if c == '\n' {
        if lineLen == 0 {
          phase := End;
          done := true;
        } else {
          lineLen := 0;
        }
      } else if c != '\r' {
        lineLen := lineLen + 1;
      }
    }

    /** Consumes what belongs to the body and returns how much that was. */
    method Feed(buf: seq<char>) returns (i: nat)
      modifies this
      ensures (State(), i) == Run(old(State()), buf)
    {
      hide Run, Byte;
      i := 0;
      while i < |buf| && !done && !error
        invariant i <= |buf|
        invariant var (u, n) := Run(State(), buf[i..]); Run(old(State()), buf) == (u, i + n)
        decreases |buf| - i, if done then 0 else if phase.Data? && remaining == 0 then 2 else 1
      {
        ghost var s, rest := State(), buf[i..];
        if phase.Data? {
          var take := SkipData(buf[i..]);
          i := i + take;
          assert buf[i..] == rest[take..];
        } else if phase.End? {
          RunEnd(s, rest);
          done := true;
        } else {
          RunByte(s, rest);
          if phase.Size? || phase.SizeExt? {
            SizeLineByte(buf[i]);
          } else {
            LineByte(buf[i]);
          }
          i := i + 1;
          assert buf[i..] == rest[1..];
        }
      }
      StopRun(State(), buf[i..]);
    }
  }

  lemma RunByte(s: Scan, buf: seq<char>)
    requires !s.Stopped() && !s.phase.Data? && !s.phase.End? && buf != []
    ensures var (u, n) := Run(Byte(s, buf[0]), buf[1..]); Run(s, buf) == (u, n + 1)
  {
    hide Byte;
  }

  lemma RunEnd(s: Scan, buf: seq<char>)
    requires !s.Stopped() && s.phase.End? && buf != []
    ensures Run(s, buf) == (s.(done := true), 0) && Run(s.(done := true), buf) == (s.(done := true), 0)
  {
  }
}
