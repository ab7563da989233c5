/** Resolving a Host: exact name, then the most specific wildcard, then the default route.

    `Resolve` is the plain search over the routes of a frontend.  `RouteTable` is the index: hash
    chains threaded through one arena of entries, and wildcards sorted in place by label count. */
module RouteTables {
  import opened Text

  datatype Route = Route(host: string, target: nat)

  const DEFAULT := "default"
  const MAX_NORM := 256

  // ----- the Host header ---------------------------------------------------------------------

  /** A C string ends at its first NUL. */
  function CString(s: string): string {
    s[..IndexOf(s, '\0')]
  }

  predicate HostChar(c: char) {
    'a' <= c <= 'z' || '0' <= c <= '9' || c == '.' || c == '-'
  }

  /** The name in lower case without its port, if it is made of the right characters. */
  function Normalize(host: string): (r: Option<string>)
    ensures r.Some? ==> 0 < |r.value| < MAX_NORM && forall i :: 0 <= i < |r.value| ==> HostChar(r.value[i])
  {
    var n := IndexOf(host, ':');
    LowerAllAt(host[..n]);
    var low := LowerAll(host[..n]);
    if 0 < n < MAX_NORM && forall i :: 0 <= i < n ==> HostChar(low[i]) then Some(low) else None
  }

  method NormalizeHost(host: string) returns (r: Option<string>)
    ensures r == Normalize(host)
  {
    var n := IndexOf(host, ':');
    LowerAllAt(host[..n]);
    ghost var low := LowerAll(host[..n]);
    if n == 0 || n >= MAX_NORM {
      return None;
    }
    var out := "";
    for i := 0 to n
      invariant out == low[..i] && forall j :: 0 <= j < i ==> HostChar(low[j])
    {
      var c := Lower(host[i]);
      assert low[i] == c;
      if !HostChar(c) {
        return None;
      }
      out := out + [c];
    }
    assert low[..n] == low;
    return Some(out);
  }

  // ----- routes ------------------------------------------------------------------------------

  predicate Wild(h: string) {
    |h| > 0 && h[0] == '*'
  }

  /** What the configuration has been checked for: one route per host, and wildcards of the form
      "*.name" with no other star. */
  ghost predicate Checked(routes: seq<Route>) {
    && (forall r <- routes :: r.host != "" && (Wild(r.host) ==> |r.host| >= 3 && r.host[1] == '.'))
    && (forall i, j :: 0 <= i < j < |routes| ==> routes[i].host != routes[j].host)
  }

  predicate Exact(r: Route, name: string) {
    r.host != DEFAULT && !Wild(r.host) && r.host == name
  }

  predicate EndsWith(s: string, suffix: string) {
    |s| >= |suffix| && s[|s| - |suffix|..] == suffix
  }

  /** "*.b.test" matches everything that ends in ".b.test" and has something before it. */
  predicate Matches(r: Route, name: string) {
    Wild(r.host) && |name| > |r.host| - 1 && EndsWith(name, r.host[1..])
  }

  function FirstExact(routes: seq<Route>, name: string): Option<Route> {
    if routes == [] then None
    else if Exact(routes[0], name) then Some(routes[0])
    else FirstExact(routes[1..], name)
  }

  /** The matching wildcard with the longest suffix. */
  function LongestMatch(routes: seq<Route>, name: string): Option<Route> {
    if routes == [] then None
    else
      var rest := LongestMatch(routes[1..], name);
      if Matches(routes[0], name) && (rest.None? || |routes[0].host| > |rest.value.host|) then Some(routes[0]) else rest
  }

  function DefaultRoute(routes: seq<Route>): Option<Route> {
    if routes == [] then None
    else if routes[0].host == DEFAULT then Some(routes[0])
    else DefaultRoute(routes[1..])
  }

  function Target(r: Option<Route>): Option<nat> {
    if r.Some? then Some(r.value.target) else None
  }

  /** The plain search for a normalised name. */
  function Search(routes: seq<Route>, name: string): Option<nat> {
    var exact := FirstExact(routes, name);
    var wild := LongestMatch(routes, name);
    if exact.Some? then Target(exact)
    else if wild.Some? then Target(wild)
    else Target(DefaultRoute(routes))
  }

  /** The route of a Host header, ports and case aside; none means 502. */
  function Resolve(routes: seq<Route>, host: string): Option<nat> {
    match Normalize(CString(host))
    case None => None
    case Some(name) => Search(routes, name)
  }

  // ----- what the answer is, without any order ---------------------------------------------------

  /** `r` is the right answer for a name, whatever the order of the routes. */
  ghost predicate Answer(routes: seq<Route>, name: string, a: Option<nat>) {
    if exists r <- routes :: Exact(r, name) then
      exists r <- routes :: Exact(r, name) && a == Some(r.target)
    else if exists r <- routes :: Matches(r, name) then
      exists r <- routes :: Matches(r, name) && a == Some(r.target)
                         && forall q <- routes :: Matches(q, name) ==> |q.host| <= |r.host|
    else if exists r <- routes :: r.host == DEFAULT then
      exists r <- routes :: r.host == DEFAULT && a == Some(r.target)
    else a == None
  }

  lemma SameRoute(routes: seq<Route>, p: Route, q: Route)
    requires Checked(routes) && p in routes && q in routes && p.host == q.host
    ensures p == q
  {
  }

  /** Two wildcards that match one name with suffixes of the same length are the same. */
  lemma SameSuffix(name: string, p: Route, q: Route)
    requires Matches(p, name) && Matches(q, name) && |p.host| == |q.host|
    ensures p.host == q.host
  {
    assert p.host == ['*'] + p.host[1..] && q.host == ['*'] + q.host[1..];
  }

  /** The answer does not depend on the order of the routes in the configuration. */
  lemma OrderDoesNotMatter(a: seq<Route>, b: seq<Route>, name: string, x: Option<nat>, y: Option<nat>)
    requires Checked(a) && (forall r :: r in a <==> r in b)
    requires Answer(a, name, x) && Answer(b, name, y)
    ensures x == y
  {
    hide Exact, Matches;
    if r :| r in a && Exact(r, name) {
      var p :| p in a && Exact(p, name) && x == Some(p.target);
      var q :| q in b && Exact(q, name) && y == Some(q.target);
      ExactHost(p, name);
      ExactHost(q, name);
      SameRoute(a, p, q);
    } else if r :| r in a && Matches(r, name) {
      var p :| p in a && Matches(p, name) && x == Some(p.target) && forall q <- a :: Matches(q, name) ==> |q.host| <= |p.host|;
      var q :| q in b && Matches(q, name) && y == Some(q.target) && forall p <- b :: Matches(p, name) ==> |p.host| <= |q.host|;
      SameSuffix(name, p, q);
      SameRoute(a, p, q);
    } else if r :| r in a && r.host == DEFAULT {
      var p :| p in a && p.host == DEFAULT && x == Some(p.target);
      var q :| q in b && q.host == DEFAULT && y == Some(q.target);
      SameRoute(a, p, q);
    }
  }

  lemma ExactHost(r: Route, name: string)
    requires Exact(r, name)
    ensures r.host == name
  {
  }

  lemma {:induction false} FirstExactIs(routes: seq<Route>, name: string)
    ensures match FirstExact(routes, name)
            case None => forall r <- routes :: !Exact(r, name)
            case Some(r) => r in routes && Exact(r, name)
    decreases routes
  {
    hide Exact;
    if routes != [] {
      FirstExactIs(routes[1..], name);
    }
  }

  lemma {:induction false} LongestMatchIs(routes: seq<Route>, name: string)
    ensures match LongestMatch(routes, name)
            case None => forall r <- routes :: !Matches(r, name)
            case Some(r) => r in routes && Matches(r, name) && forall q <- routes :: Matches(q, name) ==> |q.host| <= |r.host|
    decreases routes
  {
    hide Matches;
    if routes != [] {
      LongestMatchIs(routes[1..], name);
    }
  }

  lemma {:induction false} DefaultRouteIs(routes: seq<Route>)
    ensures match DefaultRoute(routes)
            case None => forall r <- routes :: r.host != DEFAULT
            case Some(r) => r in routes && r.host == DEFAULT
    decreases routes
  {
    if routes != [] {
      DefaultRouteIs(routes[1..]);
    }
  }

  /** The plain search gives the right answer. */
  lemma SearchAnswers(routes: seq<Route>, name: string)
    ensures Answer(routes, name, Search(routes, name))
  {
    hide Exact, Matches, FirstExact, LongestMatch, DefaultRoute;
    FirstExactIs(routes, name);
    LongestMatchIs(routes, name);
    DefaultRouteIs(routes);
  }

  // ----- letter by letter -------------------------------------------------------------------------

  /** What a Host header comes to: the part before a port or a NUL, in small letters, if it has 1 to 255
      characters, all of them letters in either case, digits, dots or dashes; nothing otherwise. */
  lemma NormalizedExactly(name: string, tail: string, low: string)
    requires ':' !in name && '\0' !in name && (tail == "" || tail[0] == ':' || tail[0] == '\0')
    requires Small(low) && Spells(name, low)
    ensures Normalize(CString(name + tail)) ==
            if 1 <= |low| <= 255
               && forall i :: 0 <= i < |low| ==>
                    'a' <= low[i] <= 'z' || '0' <= low[i] <= '9' || low[i] == '.' || low[i] == '-'
            then Some(low) else None
  {
    var host := name + tail;
    assert forall i :: 0 <= i < |name| ==> host[i] == name[i];
    var c := CString(host);
    assert name <= c;
    assert IndexOf(c, ':') == |name| && c[..|name|] == name by {
      assert |c| > |name| ==> c[|name|] == tail[0];
    }
    LoweredExactly(name, low);
  }

  /** So a name in any case and with any port is resolved as the name in small letters is. */
  lemma AnyCaseAnyPort(routes: seq<Route>, name: string, port: string, low: string)
    requires ':' !in low && '\0' !in low && Small(low) && Spells(name, low)
    ensures Resolve(routes, name + ":" + port) == Resolve(routes, name) == Resolve(routes, low)
  {
    hide Normalize, Search;
    assert forall i :: 0 <= i < |name| ==> SameLetter(name[i], low[i]);
    NormalizedExactly(name, ":" + port, low);
    NormalizedExactly(name, "", low);
    NormalizedExactly(low, "", low);
    assert name + (":" + port) == name + ":" + port && name + "" == name && low + "" == low;
  }

  /** Which routes match a name: the one of that very name, except "default"; and "*" with a suffix that
      the name has something in front of. */
  lemma MatchedLetterByLetter(r: Route, name: string)
    requires '*' !in name
    ensures Exact(r, name) <==> r.host == name && name != "default"
    ensures Matches(r, name) <==> exists x, s :: JoinedBy(r.host, name, x, s)
  {
    if Matches(r, name) {
      var s := r.host[1..];
      assert JoinedBy(r.host, name, name[..|name| - |s|], s);
    }
    if x, s :| JoinedBy(r.host, name, x, s) {
      assert r.host[1..] == s && name[|name| - |s|..] == s;
    }
  }

  predicate JoinedBy(host: string, name: string, x: string, s: string) {
    x != "" && host == "*" + s && name == x + s
  }

  // ----- routes that can never answer ------------------------------------------------------------

  /** What the configuration accepts as a host: a name of letters in either case, digits, "." and "-",
      or "*." and anything without another star. */
  predicate Accepted(h: string) {
    || h == DEFAULT
    || (h != "" && forall i :: 0 <= i < |h| ==> HostChar(h[i]) || 'A' <= h[i] <= 'Z')
    || (|h| >= 3 && h[0] == '*' && h[1] == '.' && '*' !in h[1..])
  }

  predicate HasCapital(h: string) {
    exists i :: 0 <= i < |h| && 'A' <= h[i] <= 'Z'
  }

  /** A host in the form that a Host header is brought into, the star of a wildcard aside. */
  predicate Plain(h: string) {
    |h| < MAX_NORM && forall i :: (if Wild(h) then 1 else 0) <= i < |h| ==> HostChar(h[i])
  }

  /** Some Host header matches this route. */
  ghost predicate CanMatch(r: Route) {
    exists host: string :: Normalize(CString(host)).Some?
                           && (Exact(r, Normalize(CString(host)).value) || Matches(r, Normalize(CString(host)).value))
  }

  /** A normalised name is what a Host header of the same bytes comes to. */
  lemma NormalName(name: string)
    requires 0 < |name| < MAX_NORM && forall i :: 0 <= i < |name| ==> HostChar(name[i])
    ensures Normalize(CString(name)) == Some(name)
  {
    LowerAllAt(name);
    assert IndexOf(name, '\0') == |name| && IndexOf(name, ':') == |name|;
    assert name[..|name|] == name;
    assert LowerAll(name) == name;
  }

  lemma AnswersPlain(r: Route, name: string)
    requires 0 < |name| < MAX_NORM && forall i :: 0 <= i < |name| ==> HostChar(name[i])
    requires Exact(r, name) || Matches(r, name)
    ensures Plain(r.host)
  {
    if Matches(r, name) {
      assert forall i :: 1 <= i < |r.host| ==> r.host[i] == r.host[1..][i - 1] == name[|name| - (|r.host| - 1)..][i - 1];
    }
  }

  /** The lookup compares the lowered Host with the host as configured.  So a route other than the
      default one can match if and only if its host is plain: for a name, without a capital letter. */
  lemma MatchesExactly(r: Route)
    requires Accepted(r.host) && r.host != DEFAULT
    ensures CanMatch(r) <==> Plain(r.host)
    ensures !Wild(r.host) ==> (Plain(r.host) <==> !HasCapital(r.host) && |r.host| < MAX_NORM)
  {
    var h := r.host;
    if Plain(h) {
      var name := if Wild(h) then "a" + h[1..] else h;
      NormalName(name);
      assert Wild(h) ==> name[|name| - (|h| - 1)..] == h[1..];
      assert Exact(r, name) || Matches(r, name);
    }
    if CanMatch(r) {
      var host :| Normalize(CString(host)).Some?
                  && (Exact(r, Normalize(CString(host)).value) || Matches(r, Normalize(CString(host)).value));
      AnswersPlain(r, Normalize(CString(host)).value);
    }
    if !HasCapital(h) {
      assert forall i :: 0 <= i < |h| ==> !('A' <= h[i] <= 'Z');
    }
  }

  /** A plain name answers the Host of the same bytes, whatever the other routes are. */
  lemma PlainNameAnswers(routes: seq<Route>, r: Route)
    requires Checked(routes) && r in routes && r.host != DEFAULT && !Wild(r.host) && Plain(r.host)
    ensures Resolve(routes, r.host) == Some(r.target)
  {
    NormalName(r.host);
    hide Normalize, FirstExact;
    FirstExactIs(routes, r.host);
    assert Exact(r, r.host);
    SameRoute(routes, r, FirstExact(routes, r.host).value);
  }

  /** And a route that is not plain is dead: every Host is resolved as if the configuration did not
      have it. */
  lemma OtherRoutesAreDead(before: seq<Route>, r: Route, after: seq<Route>, host: string)
    requires r.host != DEFAULT && !Plain(r.host)
    ensures Resolve(before + [r] + after, host) == Resolve(before + after, host)
  {
    var normal := Normalize(CString(host));
    if normal.Some? {
      hide Normalize;
      if Exact(r, normal.value) || Matches(r, normal.value) {
        AnswersPlain(r, normal.value);
      }
      DeadRoute(before, r, after, normal.value);
    }
  }

  lemma {:induction false} DeadRoute(before: seq<Route>, r: Route, after: seq<Route>, name: string)
    requires !Exact(r, name) && !Matches(r, name) && r.host != DEFAULT
    ensures FirstExact(before + [r] + after, name) == FirstExact(before + after, name)
    ensures LongestMatch(before + [r] + after, name) == LongestMatch(before + after, name)
    ensures DefaultRoute(before + [r] + after) == DefaultRoute(before + after)
    decreases before
  {
    hide Exact, Matches;
    var all := before + [r] + after;
    if before == [] {
      assert all[1..] == after && before + after == after;
    } else {
      assert all[1..] == before[1..] + [r] + after && (before + after)[1..] == before[1..] + after;
      DeadRoute(before[1..], r, after, name);
    }
  }

  // ----- label counts ------------------------------------------------------------------------------

  function Labels(s: string): nat {
    if s == "" then 0 else Labels(s[..|s| - 1]) + if s[|s| - 1] == '.' then 1 else 0
  }

  method CountLabels(s: string) returns (n: nat)
    ensures n == Labels(s)
  {
    n := 0;
    for i := 0 to |s|
      invariant n == Labels(s[..i])
    {
      assert s[..i + 1][..i] == s[..i];
      if s[i] == '.' {
        n := n + 1;
      }
    }
    assert s[..|s|] == s;
  }

  lemma {:induction false} LabelsAppend(a: string, b: string)
    ensures Labels(a + b) == Labels(a) + Labels(b)
    decreases |b|
  {
    if b == "" {
      assert a + b == a;
    } else {
      assert (a + b)[..|a + b| - 1] == a + b[..|b| - 1];
      LabelsAppend(a, b[..|b| - 1]);
    }
  }

  /** Among suffixes of one name that begin with a dot, label count orders exactly as length. */
  lemma LabelsOrderAsLength(name: string, s: string, t: string)
    requires EndsWith(name, s) && EndsWith(name, t) && s != "" && t != "" && s[0] == '.' && t[0] == '.'
    ensures |s| < |t| <==> Labels(s) < Labels(t)
  {
    if |s| < |t| {
      LongerHasMore(name, s, t);
    } else if |t| < |s| {
      LongerHasMore(name, t, s);
    } else {
      assert s == t;
    }
  }

  lemma LongerHasMore(name: string, s: string, t: string)
    requires EndsWith(name, s) && EndsWith(name, t) && |s| < |t| && t[0] == '.'
    ensures Labels(s) < Labels(t)
  {
    var front := t[..|t| - |s|];
    assert t == front + s;
    assert front == "." + front[1..];
    LabelsAppend(front, s);
    LabelsAppend(".", front[1..]);
    assert Labels(".") == Labels("."[..0]) + 1;
  }

  // ----- wildcards, sorted in place -------------------------------------------------------------------

  datatype Wildcard = Wildcard(suffix: string, labels: nat, target: nat)

  function Insert(ws: seq<Wildcard>, key: Wildcard): seq<Wildcard> {
    if ws != [] && ws[|ws| - 1].labels < key.labels then Insert(ws[..|ws| - 1], key) + [ws[|ws| - 1]] else ws + [key]
  }

  function Sort(ws: seq<Wildcard>): seq<Wildcard> {
    if ws == [] then [] else Insert(Sort(ws[..|ws| - 1]), ws[|ws| - 1])
  }

  ghost predicate Descending(ws: seq<Wildcard>) {
    forall i, j :: 0 <= i < j < |ws| ==> ws[i].labels >= ws[j].labels
  }

  lemma {:induction false} InsertKeeps(ws: seq<Wildcard>, key: Wildcard)
    requires Descending(ws)
    ensures var r := Insert(ws, key);
            && Descending(r) && |r| == |ws| + 1
            && forall w :: w in r <==> w == key || w in ws
    decreases |ws|
  {
    if ws != [] && ws[|ws| - 1].labels < key.labels {
      InsertKeeps(ws[..|ws| - 1], key);
      var r := Insert(ws[..|ws| - 1], key);
      forall w | w in r ensures w.labels >= ws[|ws| - 1].labels {}
      assert ws == ws[..|ws| - 1] + [ws[|ws| - 1]];
    }
  }

  lemma {:induction false} InsertPermutes(ws: seq<Wildcard>, key: Wildcard)
    ensures multiset(Insert(ws, key)) == multiset(ws) + multiset{key}
    decreases |ws|
  {
    if ws != [] && ws[|ws| - 1].labels < key.labels {
      InsertPermutes(ws[..|ws| - 1], key);
      assert ws == ws[..|ws| - 1] + [ws[|ws| - 1]];
    }
  }

  /** Sorting neither adds nor loses a wildcard. */
  lemma {:induction false} SortPermutes(ws: seq<Wildcard>)
    ensures multiset(Sort(ws)) == multiset(ws)
    decreases |ws|
  {
    hide Insert;
    if ws != [] {
      SortPermutes(ws[..|ws| - 1]);
      InsertPermutes(Sort(ws[..|ws| - 1]), ws[|ws| - 1]);
      assert ws == ws[..|ws| - 1] + [ws[|ws| - 1]];
    }
  }

  /** Sorting orders by label count, most labels first. */
  lemma {:induction false} SortSorts(ws: seq<Wildcard>)
    ensures Descending(Sort(ws)) && |Sort(ws)| == |ws| && forall w :: w in Sort(ws) <==> w in ws
    decreases |ws|
  {
    if ws != [] {
      SortSorts(ws[..|ws| - 1]);
      InsertKeeps(Sort(ws[..|ws| - 1]), ws[|ws| - 1]);
      assert ws == ws[..|ws| - 1] + [ws[|ws| - 1]];
    }
  }

  method SortWildcards(w: array<Wildcard>)
    modifies w
    ensures w[..] == Sort(old(w[..]))
  {
    ghost var was := w[..];
    for i := 0 to w.Length
      invariant w[..i] == Sort(was[..i]) && w[i..] == was[i..]
    {
      assert was[..i + 1][..i] == was[..i];
      assert w[i] == w[i..][0] == was[i];
      InsertInPlace(w, i);
      assert w[i + 1..] == was[i..][1..] == was[i + 1..];
    }
    assert w[..] == w[..w.Length] && was[..w.Length] == was;
  }

  /** The inner loop: moves the element at i down past those with fewer labels. */
  method InsertInPlace(w: array<Wildcard>, i: nat)
    requires i < w.Length
    modifies w
    ensures w[..i + 1] == Insert(old(w[..i]), old(w[i]))
    ensures w[i + 1..] == old(w[i + 1..])
  {
    hide Insert, Shifted;
    var key := w[i];
    var j := i;
    ghost var all, was := w[..], w[..i];
    assert was[..i] == was && was[i..] == [];
    assert Shifted(all, all, i, i) by { NotShifted(all, i); }
    while j > 0 && w[j - 1].labels < key.labels
      invariant j <= i && Insert(was, key) == Insert(was[..j], key) + was[j..]
      invariant Shifted(w[..], all, i, j)
    {
      ShiftOne(w[..], all, i, j);
      InsertStep(was, j, key);
      ghost var before := w[..];
      w[j] := w[j - 1];
      assert w[..] == before[j := before[j - 1]];
      j := j - 1;
    }
    ShiftOne(w[..], all, i, j);
    InsertStop(was, j, key);
    ghost var before := w[..];
    w[j] := key;
    assert w[..] == before[j := key];
    Assembled(w[..], before, all, i, j, key);
    assert w[..i + 1] == w[..][..i + 1] && w[i + 1..] == w[..][i + 1..];
  }

  /** The elements from j on have moved up by one, into the place of element i. */
  ghost predicate Shifted(w: seq<Wildcard>, all: seq<Wildcard>, i: nat, j: nat) {
    && j <= i < |w| == |all|
    && (forall k :: 0 <= k < j ==> w[k] == all[k])
    && (forall k :: j < k <= i ==> w[k] == all[k - 1])
    && (forall k :: i < k < |w| ==> w[k] == all[k])
  }

  lemma NotShifted(all: seq<Wildcard>, i: nat)
    requires i < |all|
    ensures Shifted(all, all, i, i)
  {
  }

  lemma ShiftOne(w: seq<Wildcard>, all: seq<Wildcard>, i: nat, j: nat)
    requires Shifted(w, all, i, j)
    ensures j < |w| == |all| && (j > 0 ==> w[j - 1] == all[..i][j - 1] && Shifted(w[j := w[j - 1]], all, i, j - 1))
  {
  }

  lemma Assembled(r: seq<Wildcard>, w: seq<Wildcard>, all: seq<Wildcard>, i: nat, j: nat, key: Wildcard)
    requires Shifted(w, all, i, j) && r == w[j := key]
    ensures r[..i + 1] == all[..i][..j] + [key] + all[..i][j..] && r[i + 1..] == all[i + 1..]
  {
  }

  lemma InsertStep(was: seq<Wildcard>, j: nat, key: Wildcard)
    requires 0 < j <= |was| && was[j - 1].labels < key.labels
    ensures Insert(was[..j], key) + was[j..] == Insert(was[..j - 1], key) + was[j - 1..]
  {
    assert was[..j][..j - 1] == was[..j - 1];
    assert was[j - 1..] == [was[j - 1]] + was[j..];
  }

  lemma InsertStop(was: seq<Wildcard>, j: nat, key: Wildcard)
    requires j <= |was| && (j == 0 || was[j - 1].labels >= key.labels)
    ensures Insert(was[..j], key) == was[..j] + [key]
  {
  }

  // ----- the hash chains ---------------------------------------------------------------------------------

  /** djb2 over the bytes of a name, in 32 bits. */
  function Djb2(s: string): nat {
    if s == "" then 5381 else (Djb2(s[..|s| - 1]) * 33 + s[|s| - 1] as int) % 0x1_0000_0000
  }

  /** The number of buckets is a power of two, so masking the hash with it less one is this. */
  function Bucket(name: string, nbuckets: nat): (b: nat)
    requires nbuckets > 0
    ensures b < nbuckets
  {
    Djb2(name) % nbuckets
  }

  ghost predicate PowerOfTwo(n: nat) {
    n == 1 || (n % 2 == 0 && n > 0 && PowerOfTwo(n / 2))
  }

  method NextPow2(want: nat) returns (n: nat)
    ensures n >= want && n >= 8 && PowerOfTwo(n)
  {
    n := 8;
    assert PowerOfTwo(8) && PowerOfTwo(4) && PowerOfTwo(2);
    while n < want
      invariant n >= 8 && PowerOfTwo(n)
    {
      n := n * 2;
    }
  }

  /** An entry of the arena; `next` is the index of the next one in its chain, or -1. */
  datatype Entry = Entry(host: string, target: nat, next: int)

  function ExactsOf(routes: seq<Route>): seq<Route> {
    if routes == [] then []
    else
      var r := routes[|routes| - 1];
      ExactsOf(routes[..|routes| - 1]) + if r.host == DEFAULT || Wild(r.host) then [] else [r]
  }

  function WildsOf(routes: seq<Route>): seq<Wildcard> {
    if routes == [] then []
    else
      var r := routes[|routes| - 1];
      WildsOf(routes[..|routes| - 1]) +
      if r.host != DEFAULT && Wild(r.host) then [Wildcard(r.host[1..], Labels(r.host[1..]), r.target)] else []
  }

  function LastDefault(routes: seq<Route>): Option<nat> {
    if routes == [] then None
    else if routes[|routes| - 1].host == DEFAULT then Some(routes[|routes| - 1].target)
    else LastDefault(routes[..|routes| - 1])
  }

  /** The last of the first n routes in a bucket, or -1. */
  function LastIn(es: seq<Route>, nbuckets: nat, b: nat, n: nat): (k: int)
    requires nbuckets > 0 && n <= |es|
    ensures -1 <= k < n && (k >= 0 ==> Bucket(es[k].host, nbuckets) == b)
    ensures forall j :: k < j < n ==> Bucket(es[j].host, nbuckets) != b
  {
    if n == 0 then -1
    else if Bucket(es[n - 1].host, nbuckets) == b then n - 1
    else LastIn(es, nbuckets, b, n - 1)
  }

  lemma {:induction false} LastInPrefix(es: seq<Route>, more: seq<Route>, nbuckets: nat, b: nat, n: nat)
    requires nbuckets > 0 && n <= |es| && es <= more
    ensures LastIn(es, nbuckets, b, n) == LastIn(more, nbuckets, b, n)
  {
    hide Bucket;
    if n != 0 {
      LastInPrefix(es, more, nbuckets, b, n - 1);
    }
  }

  lemma {:induction false} ExactsIs(routes: seq<Route>)
    ensures forall r :: r in ExactsOf(routes) <==> r in routes && r.host != DEFAULT && !Wild(r.host)
    decreases |routes|
  {
    if routes != [] {
      ExactsIs(routes[..|routes| - 1]);
      assert routes == routes[..|routes| - 1] + [routes[|routes| - 1]];
    }
  }

  lemma {:induction false} WildsIs(routes: seq<Route>)
    ensures forall r <- routes :: Wild(r.host) ==> Wildcard(r.host[1..], Labels(r.host[1..]), r.target) in WildsOf(routes)
    ensures forall w <- WildsOf(routes) ::
              exists r <- routes :: Wild(r.host) && w == Wildcard(r.host[1..], Labels(r.host[1..]), r.target)
    decreases |routes|
  {
    hide Labels;
    if routes != [] {
      var p, r := routes[..|routes| - 1], routes[|routes| - 1];
      WildsIs(p);
      assert routes == p + [r];
      assert DEFAULT[0] == 'd';
    }
  }

  lemma {:induction false} LastDefaultIs(routes: seq<Route>)
    ensures match LastDefault(routes)
            case None => forall r <- routes :: r.host != DEFAULT
            case Some(t) => exists r <- routes :: r.host == DEFAULT && r.target == t
    decreases |routes|
  {
    if routes != [] {
      LastDefaultIs(routes[..|routes| - 1]);
      assert routes == routes[..|routes| - 1] + [routes[|routes| - 1]];
    }
  }

  /** The first match in sorted order is the longest one. */
  lemma FirstMatchIsLongest(routes: seq<Route>, ws: seq<Wildcard>, name: string, i: nat, r: Route)
    requires Checked(routes) && ws == Sort(WildsOf(routes)) && i < |ws| && r in routes && Wild(r.host)
    requires ws[i] == Wildcard(r.host[1..], Labels(r.host[1..]), r.target) && Matches(r, name)
    requires forall k :: 0 <= k < i ==> !(|name| > |ws[k].suffix| && EndsWith(name, ws[k].suffix))
    ensures forall q <- routes :: Matches(q, name) ==> |q.host| <= |r.host|
  {
    hide Labels, Sort, WildsOf;
    SortSorts(WildsOf(routes));
    WildsIs(routes);
    forall q | q in routes && Matches(q, name) ensures |q.host| <= |r.host| {
      var w := Wildcard(q.host[1..], Labels(q.host[1..]), q.target);
      assert w in ws;
      var k :| 0 <= k < |ws| && ws[k] == w;
      LabelsOrderAsLength(name, r.host[1..], q.host[1..]);
    }
  }

  lemma FoundExact(routes: seq<Route>, k: nat)
    requires k < |ExactsOf(routes)|
    ensures var q := ExactsOf(routes)[k]; q in routes && Exact(q, q.host)
  {
    ExactsIs(routes);
    assert ExactsOf(routes)[k] in ExactsOf(routes);
  }

  lemma NotExact(routes: seq<Route>, name: string)
    requires forall k :: 0 <= k < |ExactsOf(routes)| ==> ExactsOf(routes)[k].host != name
    ensures forall q <- routes :: !Exact(q, name)
  {
    ExactsIs(routes);
    assert forall q <- ExactsOf(routes) :: q.host != name;
  }

  lemma SnocRoute(seen: seq<Route>, r: Route)
    ensures var more := seen + [r];
            && ExactsOf(more) == (if r.host == DEFAULT || Wild(r.host) then ExactsOf(seen) else ExactsOf(seen) + [r])
            && WildsOf(more) ==
               (if r.host != DEFAULT && Wild(r.host) then WildsOf(seen) + [Wildcard(r.host[1..], Labels(r.host[1..]), r.target)]
                else WildsOf(seen))
            && LastDefault(more) == (if r.host == DEFAULT then Some(r.target) else LastDefault(seen))
  {
    hide Labels;
    assert (seen + [r])[..|seen|] == seen;
  }

  lemma OneMoreIn(es: seq<Route>, r: Route, nbuckets: nat)
    requires nbuckets > 0
    ensures var more := es + [r];
            && (forall c, k :: 0 <= c < nbuckets && 0 <= k <= |es| ==>
                  LastIn(more, nbuckets, c, k) == LastIn(es, nbuckets, c, k))
            && (forall c :: 0 <= c < nbuckets ==>
                  LastIn(more, nbuckets, c, |more|) ==
                  if Bucket(r.host, nbuckets) == c then |es| else LastIn(es, nbuckets, c, |es|))
  {
    hide Bucket;
    var more := es + [r];
    forall c, k | 0 <= c < nbuckets && 0 <= k <= |es| ensures LastIn(more, nbuckets, c, k) == LastIn(es, nbuckets, c, k) {
      LastInPrefix(es, more, nbuckets, c, k);
    }
  }

  lemma NoneIn(nbuckets: nat)
    requires nbuckets > 0
    ensures ExactsOf([]) == [] && WildsOf([]) == [] && LastDefault([]) == None
    ensures forall b :: 0 <= b < nbuckets ==> LastIn([], nbuckets, b, 0) == -1
  {
  }

  lemma {:induction false} ExactsGrow(routes: seq<Route>, i: nat)
    requires i <= |routes|
    ensures |ExactsOf(routes[..i])| <= |ExactsOf(routes)| && |WildsOf(routes[..i])| <= |WildsOf(routes)|
    decreases |routes| - i
  {
    if i == |routes| {
      assert routes[..i] == routes;
    } else {
      ExactsGrow(routes, i + 1);
      assert routes[..i + 1][..i] == routes[..i];
    }
  }

  lemma FitsInArena(routes: seq<Route>, i: nat)
    requires i < |routes|
    ensures var r := routes[i];
            && (r.host != DEFAULT && !Wild(r.host) ==> |ExactsOf(routes[..i])| < |ExactsOf(routes)|)
            && (r.host != DEFAULT && Wild(r.host) ==> |WildsOf(routes[..i])| < |WildsOf(routes)|)
  {
    ExactsGrow(routes, i + 1);
    assert routes[..i + 1][..i] == routes[..i];
  }

  method CountRoutes(routes: seq<Route>) returns (nExact: nat, nWild: nat)
    ensures nExact == |ExactsOf(routes)| && nWild == |WildsOf(routes)|
  {
    nExact, nWild := 0, 0;
    for i := 0 to |routes|
      invariant nExact == |ExactsOf(routes[..i])| && nWild == |WildsOf(routes[..i])|
    {
      assert routes[..i + 1][..i] == routes[..i];
      var h := routes[i].host;
      if h == DEFAULT {
        continue;
      }
      if Wild(h) {
        nWild := nWild + 1;
      } else {
        nExact := nExact + 1;
      }
    }
    assert routes[..|routes|] == routes;
  }

  class RouteTable {
    ghost var routes: seq<Route>
    var nbuckets: nat
    var buckets: array<int>
    var entries: array<Entry>
    var wild: array<Wildcard>
    var fallback: Option<nat>

    /** The index is an index of `routes`. */
    ghost predicate Valid()
      reads this, buckets, entries, wild
    {
      var es := ExactsOf(routes);
      && Checked(routes) && nbuckets > 0 && buckets.Length == nbuckets && entries.Length == |es|
      && (forall b :: 0 <= b < nbuckets ==> buckets[b] == LastIn(es, nbuckets, b, |es|))
      && (forall k :: 0 <= k < |es| ==>
            entries[k] == Entry(es[k].host, es[k].target, LastIn(es, nbuckets, Bucket(es[k].host, nbuckets), k)))
      && wild[..] == Sort(WildsOf(routes))
      && fallback == LastDefault(routes)
    }

    /** Builds the index of one frontend. */
    constructor (routes: seq<Route>)
      requires Checked(routes)
      ensures Valid() && this.routes == routes && fresh(buckets) && fresh(entries) && fresh(wild)
    {
      var nExact, nWild := CountRoutes(routes);
      var nb := NextPow2(nExact * 2 + 1);
      nbuckets := nb;
      this.routes := routes;
      fallback := None;
      buckets := new int[nb](_ => -1);
      entries := new Entry[nExact](_ => Entry("", 0, -1));
      wild := new Wildcard[nWild](_ => Wildcard("", 0, 0));
      new;
      NoneIn(nb);
      Fill(routes);
    }

    method Fill(routes: seq<Route>)
      requires Filled([], 0, 0) && Checked(routes) && routes == this.routes
      requires entries.Length == |ExactsOf(routes)| && wild.Length == |WildsOf(routes)|
      modifies this`fallback, buckets, entries, wild
      ensures Valid()
    {
      hide LastIn, Bucket, Sort, Checked, WildsOf, ExactsOf, LastDefault;
      var n: nat, w: nat := 0, 0;
      ghost var seen: seq<Route> := [];
      for i := 0 to |routes|
        invariant seen == routes[..i] && Filled(seen, n, w)
      {
        FitsInArena(routes, i);
        n, w := AddRoute(routes[i], n, w, seen);
        seen := seen + [routes[i]];
      }
      assert seen == routes && wild[..w] == wild[..];
      SortWildcards(wild);
    }

    /** All that has been read from the first routes. */
    ghost predicate Filled(seen: seq<Route>, n: nat, w: nat)
      reads this, buckets, entries, wild
    {
      && n == |ExactsOf(seen)| && Threaded(ExactsOf(seen))
      && w <= wild.Length && wild[..w] == WildsOf(seen)
      && fallback == LastDefault(seen)
    }

    /** One route: the default, a wildcard, or an entry of the hash table. */
    method AddRoute(r: Route, n: nat, w: nat, ghost seen: seq<Route>) returns (n': nat, w': nat)
      requires Filled(seen, n, w)
      requires r.host != DEFAULT && !Wild(r.host) ==> n < entries.Length
      requires r.host != DEFAULT && Wild(r.host) ==> w < wild.Length
      modifies this`fallback, buckets, entries, wild
      ensures Filled(seen + [r], n', w')
    {
      hide LastIn, Bucket, Labels, ExactsOf, WildsOf, LastDefault;
      SnocRoute(seen, r);
      n', w' := n, w;
      if r.host == DEFAULT {
        fallback := Some(r.target);
        return;
      }
      if Wild(r.host) {
        var labels := CountLabels(r.host[1..]);
        wild[w] := Wildcard(r.host[1..], labels, r.target);
        w' := w + 1;
        assert wild[..w'] == wild[..w] + [wild[w]];
        return;
      }
      AddEntry(n, ExactsOf(seen), r);
      n' := n + 1;
    }

    /** The entries of `es` are in the arena and every chain is threaded through them. */
    ghost predicate Threaded(es: seq<Route>)
      reads this, buckets, entries
    {
      && nbuckets > 0 && buckets.Length == nbuckets && |es| <= entries.Length
      && (forall b :: 0 <= b < nbuckets ==> buckets[b] == LastIn(es, nbuckets, b, |es|))
      && (forall k :: 0 <= k < |es| ==>
            entries[k] == Entry(es[k].host, es[k].target, LastIn(es, nbuckets, Bucket(es[k].host, nbuckets), k)))
    }

    /** Puts a new entry in front of its chain. */
    method AddEntry(n: nat, ghost es: seq<Route>, r: Route)
      requires Threaded(es) && n == |es| < entries.Length
      modifies buckets, entries
      ensures Threaded(es + [r])
    {
      hide Bucket, LastIn;
      var b := Bucket(r.host, nbuckets);
      OneMoreIn(es, r, nbuckets);
      entries[n] := Entry(r.host, r.target, buckets[b]);
      buckets[b] := n;
    }

    /** Walks the chain of the name's bucket. */
    method LookupExact(name: string) returns (r: Option<nat>)
      requires Valid()
      ensures r == None ==> forall q <- routes :: !Exact(q, name)
      ensures r.Some? ==> exists q <- routes :: Exact(q, name) && r == Some(q.target)
    {
      hide Sort, WildsOf, LastDefault, Bucket, LastIn, ExactsOf, Exact, Checked;
      ghost var es := ExactsOf(routes);
      var b := Bucket(name, nbuckets);
      var e := buckets[b];
      ghost var n: nat := |es|;
      while e >= 0
        invariant n <= |es| && e == LastIn(es, nbuckets, b, n)
        invariant forall k :: n <= k < |es| ==> es[k].host != name
        decreases n
      {
        if entries[e].host == name {
          FoundExact(routes, e);
          return Some(entries[e].target);
        }
        NotInChain(es, nbuckets, name, e, n);
        n := e;
        e := entries[e].next;
      }
      NotExact(routes, name);
      return None;
    }

    lemma NotInChain(es: seq<Route>, nbuckets: nat, name: string, e: nat, n: nat)
      requires nbuckets > 0 && n <= |es| && e == LastIn(es, nbuckets, Bucket(name, nbuckets), n) && es[e].host != name
      ensures forall k :: e <= k < n ==> es[k].host != name
    {
      hide Bucket;
    }

    method LookupWild(name: string) returns (r: Option<nat>)
      requires Valid()
      ensures r == None ==> forall q <- routes :: !Matches(q, name)
      ensures r.Some? ==> exists q <- routes :: Matches(q, name) && r == Some(q.target)
                            && forall p <- routes :: Matches(p, name) ==> |p.host| <= |q.host|
    {
      hide LastDefault, LastIn, ExactsOf, Labels, Sort, WildsOf;
      ghost var ws := wild[..];
      SortSorts(WildsOf(routes));
      WildsIs(routes);
      for i := 0 to wild.Length
        invariant forall k :: 0 <= k < i ==> !(|name| > |ws[k].suffix| && EndsWith(name, ws[k].suffix))
      {
        var s := wild[i].suffix;
        if |name| > |s| && name[|name| - |s|..] == s {
          assert ws[i] in ws;
          ghost var q :| q in routes && Wild(q.host) && ws[i] == Wildcard(q.host[1..], Labels(q.host[1..]), q.target);
          assert Matches(q, name);
          FirstMatchIsLongest(routes, ws, name, i, q);
          return Some(wild[i].target);
        }
      }
      forall q | q in routes && Wild(q.host) ensures !Matches(q, name) {
        var w := Wildcard(q.host[1..], Labels(q.host[1..]), q.target);
        assert w in ws;
        var k :| 0 <= k < |ws| && ws[k] == w;
      }
      return None;
    }

    /** The index agrees with the plain search, for every Host whatever. */
    method Lookup(host: string) returns (r: Option<nat>)
      requires Valid()
      ensures r == Resolve(routes, host)
    {
      hide Sort, WildsOf, LastIn, ExactsOf, Exact, Matches, LastDefault;
      var name := NormalizeHost(CString(host));
      if name.None? {
        return None;
      }
      SearchAnswers(routes, name.value);
      r := LookupExact(name.value);
      if r.None? {
        r := LookupWild(name.value);
        if r.None? {
          LastDefaultIs(routes);
          r := fallback;
        }
      }
      assert Answer(routes, name.value, r);
      OrderDoesNotMatter(routes, routes, name.value, r, Search(routes, name.value));
    }
  }
}
