/** Octet strings: lines ended by CRLF, the end of a header block, and the small scanners the
    parsers share.  Only the pair CR LF ends a line. */
module Text {

  datatype Option<+T> = None | Some(value: T)

  const CRLF := "\r\n"

  predicate CrlfAt(s: string, i: int) {
    0 <= i && i + 1 < |s| && s[i] == '\r' && s[i + 1] == '\n'
  }

  predicate NoCrlf(s: string) {
    forall i :: 0 <= i < |s| ==> !CrlfAt(s, i)
  }

  /** Where the first CRLF at or after `from` is, or |s|. */
  function FirstCrlf(s: string, from: nat): (k: nat)
    requires from <= |s|
    ensures from <= k <= |s| && (k < |s| ==> CrlfAt(s, k))
    ensures forall i :: from <= i < k ==> !CrlfAt(s, i)
    decreases |s| - from
  {
    if from == |s| || CrlfAt(s, from) then from else FirstCrlf(s, from + 1)
  }

  lemma FirstCrlfIs(s: string, from: nat, k: nat)
    requires from <= k < |s| && CrlfAt(s, k) && forall i :: from <= i < k ==> !CrlfAt(s, i)
    ensures FirstCrlf(s, from) == k
  {
    var f := FirstCrlf(s, from);
    assert f < k ==> CrlfAt(s, f);
  }

  // ----- a block of lines -------------------------------------------------------------------

  function Join(lines: seq<string>): string {
    if lines == [] then "" else lines[0] + CRLF + Join(lines[1..])
  }

  /** The lines of a block, each without its CRLF. */
  function Lines(block: string): seq<string>
    decreases |block|
  {
    var k := FirstCrlf(block, 0);
    if k == |block| then [] else [block[..k]] + Lines(block[k + 2..])
  }

  predicate EndsInCrlf(s: string) {
    s == "" || CrlfAt(s, |s| - 2)
  }

  lemma FirstLine(block: string)
    requires block != "" && EndsInCrlf(block)
    ensures var k := FirstCrlf(block, 0);
            && k + 2 <= |block| && NoCrlf(block[..k])
            && EndsInCrlf(block[k + 2..]) && block == block[..k] + CRLF + block[k + 2..]
  {
    var k := FirstCrlf(block, 0);
    assert CrlfAt(block, k);
    CutAt(block, k);
    assert NoCrlf(block[..k]) by {
      forall i | 0 <= i < k ensures !CrlfAt(block[..k], i) {
        assert !CrlfAt(block, i);
      }
    }
  }

  lemma CutAt(block: string, k: nat)
    requires CrlfAt(block, k)
    ensures block == block[..k] + CRLF + block[k + 2..]
    ensures EndsInCrlf(block) ==> EndsInCrlf(block[k + 2..])
  {
    var rest := block[k + 2..];
    if EndsInCrlf(block) && rest != "" {
      assert |rest| != 1;
      assert rest[|rest| - 2] == block[|block| - 2] && rest[|rest| - 1] == block[|block| - 1];
    }
  }

  /** A block is cut exactly into its lines: nothing is lost, shared or reordered. */
  lemma {:induction false} LinesPartition(block: string)
    requires EndsInCrlf(block)
    ensures Join(Lines(block)) == block
    ensures forall l <- Lines(block) :: NoCrlf(l)
    decreases |block|
  {
    if block != "" {
      var k := FirstCrlf(block, 0);
      var rest := block[k + 2..];
      FirstLine(block);
      LinesPartition(rest);
    }
  }

  /** The other way round: lines without a CRLF inside come back unchanged. */
  lemma {:induction false} LinesOfJoin(lines: seq<string>)
    requires forall l <- lines :: NoCrlf(l)
    ensures Lines(Join(lines)) == lines
    decreases lines
  {
    if lines != [] {
      var l, rest := lines[0], Join(lines[1..]);
      var block := l + CRLF + rest;
      LineFirst(l, rest);
      assert block[..|l|] == l && block[|l| + 2..] == rest;
      LinesOfJoin(lines[1..]);
    }
  }

  lemma LineFirst(l: string, rest: string)
    requires NoCrlf(l)
    ensures FirstCrlf(l + CRLF + rest, 0) == |l|
    ensures CrlfAt(l + CRLF + rest, |l|)
    ensures forall i :: 0 <= i < |l| ==> !CrlfAt(l + CRLF + rest, i)
  {
    var block := l + CRLF + rest;
    assert block[|l|] == '\r' && block[|l| + 1] == '\n';
    forall i | 0 <= i < |l| ensures !CrlfAt(block, i) {
      assert !CrlfAt(l, i);
    }
    FirstCrlfIs(block, 0, |l|);
  }

  lemma {:induction false} JoinAppend(a: seq<string>, b: seq<string>)
    ensures Join(a + b) == Join(a) + Join(b)
    decreases a
  {
    if a == [] {
      assert a + b == b;
    } else {
      assert (a + b)[1..] == a[1..] + b;
      JoinAppend(a[1..], b);
    }
  }

  lemma {:induction false} JoinEndsInCrlf(lines: seq<string>)
    ensures EndsInCrlf(Join(lines))
    ensures lines != [] ==> |Join(lines)| >= 2
    decreases lines
  {
    if lines != [] {
      JoinEndsInCrlf(lines[1..]);
      var head, rest := lines[0] + CRLF, Join(lines[1..]);
      assert CrlfAt(head, |head| - 2);
    }
  }

  // ----- the end of a header ----------------------------------------------------------------

  predicate BlankAt(s: string, i: int) {
    CrlfAt(s, i) && CrlfAt(s, i + 2)
  }

  /** The length of the header at the front of `s`, its blank line included; 0 while the blank
      line has not arrived. */
  function HeaderEnd(s: string, from: nat := 0): (e: nat)
    requires from <= |s|
    ensures e <= |s|
    ensures e != 0 ==> from + 4 <= e && BlankAt(s, e - 4) && forall i :: from <= i < e - 4 ==> !BlankAt(s, i)
    ensures e == 0 ==> forall i :: from <= i ==> !BlankAt(s, i)
    decreases |s| - from
  {
    if from == |s| then 0 else if BlankAt(s, from) then from + 4 else HeaderEnd(s, from + 1)
  }

  lemma HeaderEndIs(s: string, e: nat)
    requires 4 <= e <= |s| && BlankAt(s, e - 4) && forall i :: 0 <= i < e - 4 ==> !BlankAt(s, i)
    ensures HeaderEnd(s) == e
  {
    var f := HeaderEnd(s);
    assert f != 0 ==> BlankAt(s, f - 4);
  }

  /** More bytes never move a header end that has been seen, nor bring one forward. */
  lemma HeaderEndStable(p: string, q: string)
    requires p <= q
    ensures HeaderEnd(p) != 0 ==> HeaderEnd(q) == HeaderEnd(p)
    ensures HeaderEnd(p) == 0 && HeaderEnd(q) != 0 ==> HeaderEnd(q) > |p|
  {
    forall i | BlankAt(p, i) ensures BlankAt(q, i) {}
    forall i | BlankAt(q, i) && i + 4 <= |p| ensures BlankAt(p, i) {}
    if HeaderEnd(p) != 0 {
      var e := HeaderEnd(p);
      forall i | 0 <= i < e - 4 ensures !BlankAt(q, i) {
        assert !BlankAt(p, i);
      }
      HeaderEndIs(q, e);
    } else {
      var f := HeaderEnd(q);
      assert f != 0 && f <= |p| ==> BlankAt(p, f - 4);
    }
  }

  /** Bytes lost from the front leave the blank line where it is, unless they reach into it. */
  lemma HeaderEndOfRest(s: string, c: nat)
    requires c + 4 <= HeaderEnd(s)
    ensures HeaderEnd(s[c..]) == HeaderEnd(s) - c
  {
    var e, t := HeaderEnd(s), s[c..];
    forall i | 0 <= i < e - c - 4 ensures !BlankAt(t, i) {
      assert !BlankAt(s, c + i);
    }
    assert BlankAt(s, e - 4);
    HeaderEndIs(t, e - c);
  }

  lemma NoShortHeader(s: string)
    requires |s| < 4
    ensures HeaderEnd(s) == 0
  {
  }

  /** What a header looks like: a first line, then non-empty lines, then the blank one. */
  ghost predicate HeaderLines(ls: seq<string>) {
    && |ls| >= 1
    && (forall l <- ls :: NoCrlf(l))
    && (forall i :: 1 <= i < |ls| ==> ls[i] != "")
  }

  /** The bytes of a header with the given lines. */
  function Block(ls: seq<string>): string {
    Join(ls) + CRLF
  }

  lemma BlankShifts(a: string, b: string, i: nat)
    ensures BlankAt(a + b, |a| + i) <==> BlankAt(b, i)
  {
    assert forall k :: 0 <= k < |b| ==> (a + b)[|a| + k] == b[k];
  }

  /** Neither inside a line nor at its end, if another line that is not empty follows. */
  lemma NoBlankAtLine(l: string, tail: string, i: nat)
    requires NoCrlf(l) && i <= |l| + 1 && !CrlfAt(tail, 0)
    ensures !BlankAt(l + CRLF + tail, i)
  {
    LineFirst(l, tail);
    assert i == |l| ==> forall k :: 0 <= k < 2 && k < |tail| ==> (l + CRLF + tail)[|l| + 2 + k] == tail[k];
  }

  lemma {:induction false} NoBlankInside(ls: seq<string>, rest: string, i: nat)
    requires HeaderLines(ls)
    requires i < |Join(ls)| - 2
    ensures !BlankAt(Block(ls) + rest, i)
    decreases ls
  {
    hide BlankAt, CrlfAt, NoCrlf;
    var l, tail := ls[0], Block(ls[1..]) + rest;
    assert Block(ls) + rest == l + CRLF + tail;
    if |ls| == 1 {
      assert Join(ls[1..]) == "";
      InsideLine(l, tail, i);
    } else if i <= |l| + 1 {
      NextNotEmpty(ls[1..], rest);
      NoBlankAtLine(l, tail, i);
    } else {
      NoBlankInside(ls[1..], rest, i - |l| - 2);
      BlankShifts(l + CRLF, tail, i - |l| - 2);
    }
  }

  lemma InsideLine(l: string, tail: string, i: nat)
    requires NoCrlf(l) && i < |l|
    ensures !BlankAt(l + CRLF + tail, i)
  {
    LineFirst(l, tail);
  }

  lemma NextNotEmpty(ls: seq<string>, rest: string)
    requires ls != [] && ls[0] != "" && NoCrlf(ls[0])
    ensures !CrlfAt(Block(ls) + rest, 0)
  {
    var more := Join(ls[1..]) + CRLF + rest;
    assert Block(ls) + rest == ls[0] + CRLF + more;
    LineFirst(ls[0], more);
  }

  /** A header written line by line ends where its bytes end, whatever follows. */
  lemma BlockEnd(ls: seq<string>, rest: string)
    requires HeaderLines(ls)
    ensures HeaderEnd(Block(ls) + rest) == |Block(ls)|
  {
    var s := Block(ls) + rest;
    var e := |Block(ls)|;
    JoinEndsInCrlf(ls);
    assert BlankAt(s, e - 4) by {
      var j := Join(ls);
      assert s[e - 4] == j[|j| - 2] && s[e - 3] == j[|j| - 1];
      assert s[e - 2] == CRLF[0] && s[e - 1] == CRLF[1];
    }
    forall i | 0 <= i < e - 4 ensures !BlankAt(s, i) {
      NoBlankInside(ls, rest, i);
    }
    HeaderEndIs(s, e);
  }

  /** Conversely, a header that has been found is such a block, and its lines are unique. */
  lemma HeaderIsBlock(s: string) returns (ls: seq<string>)
    requires HeaderEnd(s) != 0
    ensures HeaderLines(ls)
    ensures s[..HeaderEnd(s)] == Block(ls)
    ensures Lines(s[..HeaderEnd(s)]) == ls + [""]
  {
    hide Lines, NoCrlf, Join;
    var e := HeaderEnd(s);
    var body := s[..e - 2];
    assert EndsInCrlf(body) && s[..e] == body + CRLF;
    hide HeaderEnd;
    ls := Lines(body);
    LinesPartition(body);
    LinesOfBlock(ls);
    NoBlankNoEmpty(s, ls);
    assert ls != [] by { NotNothing(body); }
  }

  lemma NotNothing(body: string)
    requires body != "" && EndsInCrlf(body)
    ensures Lines(body) != []
  {
    LinesPartition(body);
  }

  lemma BlankMoves(p: string, q: string, i: nat)
    requires p <= q && BlankAt(p, i)
    ensures BlankAt(q, i)
  {
  }

  lemma NoBlankNoEmpty(s: string, ls: seq<string>)
    requires HeaderEnd(s) != 0 && s[..HeaderEnd(s) - 2] == Join(ls)
    ensures forall i :: 1 <= i < |ls| ==> ls[i] != ""
  {
    forall i | 1 <= i < |ls| ensures ls[i] != "" {
      if ls[i] == "" {
        EmptyLineIsBlank(ls, i);
        BlankMoves(Join(ls), s, |Join(ls[..i])| - 2);
        assert false;
      }
    }
  }

  lemma LinesOfBlock(ls: seq<string>)
    requires forall l <- ls :: NoCrlf(l)
    ensures Lines(Block(ls)) == ls + [""]
  {
    forall l | l in ls + [""] ensures NoCrlf(l) {}
    LinesOfJoin(ls + [""]);
    JoinAppend(ls, [""]);
    assert Join([""]) == CRLF by {
      assert [""][1..] == [];
    }
  }

  /** An empty line after the first one would have been the end of the header. */
  lemma EmptyLineIsBlank(ls: seq<string>, i: nat)
    requires 1 <= i < |ls| && ls[i] == ""
    ensures var at := |Join(ls[..i])| - 2; at >= 0 && BlankAt(Join(ls), at) && at + 4 <= |Join(ls)|
  {
    var a, b := Join(ls[..i]), Join(ls[i..]);
    assert ls == ls[..i] + ls[i..];
    JoinAppend(ls[..i], ls[i..]);
    JoinEndsInCrlf(ls[..i]);
    assert b == "" + CRLF + Join(ls[i..][1..]);
    assert b[0] == '\r' && b[1] == '\n';
  }

  // ----- letters, digits, spaces ---------------------------------------------------------------

  function Lower(c: char): char {
    if 'A' <= c <= 'Z' then (c as int - 'A' as int + 'a' as int) as char else c
  }

  function LowerAll(s: string): string {
    if s == "" then "" else [Lower(s[0])] + LowerAll(s[1..])
  }

  /** Equal up to the case of ASCII letters. */
  predicate IEq(a: string, b: string) {
    LowerAll(a) == LowerAll(b)
  }

  lemma {:induction false} LowerAllAt(s: string)
    ensures |LowerAll(s)| == |s| && forall i :: 0 <= i < |s| ==> LowerAll(s)[i] == Lower(s[i])
    decreases s
  {
    if s != "" {
      LowerAllAt(s[1..]);
    }
  }

  method IEqual(a: string, lit: string) returns (eq: bool)
    ensures eq == IEq(a, lit)
  {
    LowerAllAt(a);
    LowerAllAt(lit);
    if |a| != |lit| {
      return false;
    }
    for i := 0 to |lit|
      invariant forall j :: 0 <= j < i ==> Lower(a[j]) == Lower(lit[j])
    {
      if Lower(a[i]) != Lower(lit[i]) {
        assert LowerAll(a)[i] != LowerAll(lit)[i];
        return false;
      }
    }
    return true;
  }

  /** The same character, or the capital of a small letter. */
  predicate SameLetter(c: char, small: char) {
    c == small || ('A' <= c <= 'Z' && small as int == c as int + 32)
  }

  /** `s` is the word, case aside; the word is written small. */
  predicate Spells(s: string, word: string) {
    |s| == |word| && forall i :: 0 <= i < |s| ==> SameLetter(s[i], word[i])
  }

  predicate Small(word: string) {
    forall i :: 0 <= i < |word| ==> !('A' <= word[i] <= 'Z')
  }

  lemma LoweredExactly(s: string, word: string)
    requires Small(word)
    ensures LowerAll(s) == word <==> Spells(s, word)
  {
    LowerAllAt(s);
    if Spells(s, word) {
      assert forall i :: 0 <= i < |s| ==> LowerAll(s)[i] == word[i];
    }
    if LowerAll(s) == word {
      forall i | 0 <= i < |s| ensures SameLetter(s[i], word[i]) {
        assert LowerAll(s)[i] == word[i];
      }
    }
  }

  lemma SpelledExactly(s: string, word: string)
    requires Small(word)
    ensures IEq(s, word) <==> Spells(s, word)
  {
    LoweredExactly(s, word);
    LoweredExactly(word, word);
  }

  /** The first place of `c` at or after `from`, or |s|. */
  function IndexOf(s: string, c: char, from: nat := 0): (k: nat)
    requires from <= |s|
    ensures from <= k <= |s| && (k < |s| ==> s[k] == c) && forall i :: from <= i < k ==> s[i] != c
    decreases |s| - from
  {
    if from == |s| || s[from] == c then from else IndexOf(s, c, from + 1)
  }

  predicate Blank(c: char) {
    c == ' ' || c == '\t'
  }

  function TrimLeft(s: string): string {
    if s != "" && Blank(s[0]) then TrimLeft(s[1..]) else s
  }

  function TrimRight(s: string): string {
    if s != "" && Blank(s[|s| - 1]) then TrimRight(s[..|s| - 1]) else s
  }

  function Trim(s: string): string {
    TrimRight(TrimLeft(s))
  }

  predicate Digit(c: char) {
    '0' <= c <= '9'
  }

  /** The number a decimal numeral denotes. */
  function DecValue(s: string): nat
    requires forall i :: 0 <= i < |s| ==> Digit(s[i])
  {
    if s == "" then 0
    else
      assert Digit(s[|s| - 1]);
      DecValue(s[..|s| - 1]) * 10 + (s[|s| - 1] as int - '0' as int)
  }

  /** A clean decimal integer of at most 19 digits. */
  function ParseDec(s: string): Option<nat> {
    if 1 <= |s| <= 19 && forall i :: 0 <= i < |s| ==> Digit(s[i]) then Some(DecValue(s)) else None
  }

  function Pow10(n: nat): nat {
    if n == 0 then 1 else 10 * Pow10(n - 1)
  }

  lemma {:induction false} DecBound(s: string)
    requires forall i :: 0 <= i < |s| ==> Digit(s[i])
    ensures DecValue(s) < Pow10(|s|)
  {
    if s != "" {
      DecBound(s[..|s| - 1]);
    }
  }

  /** Every accepted numeral fits in 64 bits, so the accumulation never wraps. */
  lemma DecFits(s: string)
    requires ParseDec(s).Some?
    ensures ParseDec(s).value < 0x1_0000_0000_0000_0000
  {
    DecBound(s);
    Pow10Monotone(|s|, 19);
    TenToTheNineteenth();
  }

  lemma TenToTheNineteenth()
    ensures Pow10(19) == 10_000_000_000_000_000_000
  {
    assert Pow10(5) == 100_000;
    Pow10Adds(5, 5);
    Pow10Adds(10, 5);
    assert Pow10(4) == 10_000;
    Pow10Adds(15, 4);
  }

  lemma {:induction false} Pow10Adds(a: nat, b: nat)
    ensures Pow10(a + b) == Pow10(a) * Pow10(b)
  {
    if a != 0 {
      Pow10Adds(a - 1, b);
      assert Pow10(a) * Pow10(b) == 10 * (Pow10(a - 1) * Pow10(b));
    }
  }

  lemma {:induction false} Pow10Monotone(a: nat, b: nat)
    requires a <= b
    ensures Pow10(a) <= Pow10(b)
    decreases b - a
  {
    if a < b {
      Pow10Monotone(a + 1, b);
    }
  }

  // ----- printed numbers ----------------------------------------------------------------------------

  /** A number in decimal, without leading zeros. */
  function Numeral(n: nat): string {
    if n < 10 then ["0123456789"[n]] else Numeral(n / 10) + ["0123456789"[n % 10]]
  }

  function Zeros(k: nat): string {
    if k == 0 then "" else Zeros(k - 1) + "0"
  }

  predicate AllDigits(s: string) {
    forall i :: 0 <= i < |s| ==> Digit(s[i])
  }

  lemma DigitPrinted(d: nat)
    requires d < 10
    ensures "0123456789"[d] as int == '0' as int + d && Digit("0123456789"[d])
  {
  }

  lemma OneMoreDigit(p: string, d: nat)
    requires d < 10
    ensures AllDigits(p + ["0123456789"[d]]) <==> AllDigits(p)
    ensures AllDigits(p) ==> DecValue(p + ["0123456789"[d]]) == DecValue(p) * 10 + d
  {
    DigitPrinted(d);
    var s := p + ["0123456789"[d]];
    assert s[..|p|] == p && s[|p|] == "0123456789"[d];
    assert forall i :: 0 <= i < |p| ==> s[i] == p[i];
  }

  lemma {:induction false} ZerosRead(k: nat)
    ensures |Zeros(k)| == k && AllDigits(Zeros(k)) && DecValue(Zeros(k)) == 0
  {
    if k != 0 {
      ZerosRead(k - 1);
      OneMoreDigit(Zeros(k - 1), 0);
      assert "0" == ["0123456789"[0]];
    }
  }

  /** One digit more, in words of the quotient and the remainder. */
  lemma NumeralSplit(n: nat)
    ensures n == n / 10 * 10 + n % 10 && n % 10 < 10
    ensures Numeral(n) == (if n < 10 then "" else Numeral(n / 10)) + ["0123456789"[n % 10]]
  {
  }

  lemma {:induction false} NumeralRead(k: nat, n: nat)
    ensures |Numeral(n)| >= 1 && AllDigits(Zeros(k) + Numeral(n)) && DecValue(Zeros(k) + Numeral(n)) == n
    decreases n
  {
    hide DecValue, Numeral, Zeros;
    ZerosRead(k);
    NumeralSplit(n);
    var p := if n < 10 then "" else Numeral(n / 10);
    if n >= 10 {
      NumeralRead(k, n / 10);
    } else {
      assert Zeros(k) + p == Zeros(k);
    }
    OneMoreDigit(Zeros(k) + p, n % 10);
    assert Zeros(k) + Numeral(n) == (Zeros(k) + p) + ["0123456789"[n % 10]];
  }

  lemma {:induction false} NumeralLength(n: nat, len: nat)
    requires len >= 1
    ensures |Numeral(n)| <= len <==> n < Pow10(len)
    decreases len
  {
    if n >= 10 {
      if len == 1 {
        NumeralRead(0, n / 10);
      } else {
        NumeralLength(n / 10, len - 1);
        assert Pow10(len) == 10 * Pow10(len - 1);
      }
    } else {
      assert Pow10(len) == 10 * Pow10(len - 1);
      Pow10Monotone(0, len - 1);
    }
  }

  /** What is printed is read back, behind leading zeros too, as long as it has at most 19 digits; so
      is every number below ten to the nineteenth. */
  lemma NumeralParsed(k: nat, n: nat)
    ensures ParseDec(Zeros(k) + Numeral(n)) == if k + |Numeral(n)| <= 19 then Some(n) else None
    ensures n < 10_000_000_000_000_000_000 <==> |Numeral(n)| <= 19
  {
    NumeralRead(k, n);
    ZerosRead(k);
    NumeralLength(n, 19);
    TenToTheNineteenth();
  }

  /** And nothing else is read: whatever is accepted is the printed number behind some zeros. */
  lemma ParsedIsNumeral(s: string)
    requires ParseDec(s).Some?
    ensures var n := ParseDec(s).value; |Numeral(n)| <= |s| && s == Zeros(|s| - |Numeral(n)|) + Numeral(n)
  {
    DigitsAreNumeral(s);
  }

  lemma {:induction false} DigitsAreNumeral(s: string)
    requires s != "" && AllDigits(s)
    ensures var n := DecValue(s); |Numeral(n)| <= |s| && s == Zeros(|s| - |Numeral(n)|) + Numeral(n)
    decreases |s|
  {
    hide DecValue, Numeral, Zeros;
    var p, c := s[..|s| - 1], s[|s| - 1];
    assert Digit(c);
    var d := c as int - '0' as int;
    DigitPrinted(d);
    assert s == p + ["0123456789"[d]];
    OneMoreDigit(p, d);
    if p == "" {
      SingleDigit(d);
    } else {
      DigitsAreNumeral(p);
      LastDigit(p, d);
    }
  }

  lemma SingleDigit(d: nat)
    requires d < 10
    ensures DecValue("") == 0 && Zeros(0) == "" && Numeral(d) == ["0123456789"[d]]
  {
  }

  lemma LastDigit(p: string, d: nat)
    requires p != "" && d < 10 && AllDigits(p)
    requires |Numeral(DecValue(p))| <= |p| && p == Zeros(|p| - |Numeral(DecValue(p))|) + Numeral(DecValue(p))
    ensures var s, n := p + ["0123456789"[d]], DecValue(p) * 10 + d;
            |Numeral(n)| <= |s| && s == Zeros(|s| - |Numeral(n)|) + Numeral(n)
  {
    hide DecValue;
    var v := DecValue(p);
    NumeralSplit(v * 10 + d);
    assert (v * 10 + d) / 10 == v && (v * 10 + d) % 10 == d;
    if v == 0 {
      assert Numeral(0) == "0" by { NumeralSplit(0); }
      assert Zeros(|p|) == Zeros(|p| - 1) + "0" == p;
    }
  }
}
