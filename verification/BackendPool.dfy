/** Choosing the server of a pool: weighted, round robin, least connections; and the two health
    counters of each server.  The servers are records in one array, updated in place. */
module BackendPools {
  import opened Text
  import opened Health

  datatype Backend = Backend(weight: int, up: bool, fails: nat, successes: nat, active: nat, current: int,
                             pOk: nat, pFail: nat)

  datatype Balance = RoundRobin | Weighted | LeastConn

  // ----- weighted -----------------------------------------------------------------------------

  /** The sum of the weights of the servers in service among the first n. */
  function TotalWeight(bs: seq<Backend>, n: nat): int
    requires n <= |bs|
  {
    if n == 0 then 0 else TotalWeight(bs, n - 1) + if bs[n - 1].up then bs[n - 1].weight else 0
  }

  function Weight(bs: seq<Backend>): int {
    TotalWeight(bs, |bs|)
  }

  function Key(b: Backend): int {
    b.current + b.weight
  }

  /** Among the first n, the first server in service whose dynamic weight, raised by its own
      weight, is the largest. */
  ghost predicate Heaviest(bs: seq<Backend>, n: nat, i: nat)
    requires n <= |bs|
  {
    && i < n && bs[i].up
    && (forall j :: 0 <= j < n && bs[j].up ==> Key(bs[j]) <= Key(bs[i]))
    && (forall j :: 0 <= j < i && bs[j].up ==> Key(bs[j]) < Key(bs[i]))
  }

  /** All dynamic weights raised, and the total taken from the one that is picked. */
  function AfterPick(bs: seq<Backend>, i: nat): (r: seq<Backend>)
    ensures |r| == |bs|
  {
    seq(|bs|, k requires 0 <= k < |bs| =>
      if !bs[k].up then bs[k]
      else bs[k].(current := bs[k].current + bs[k].weight - if k == i then Weight(bs) else 0))
  }

  function Raised(bs: seq<Backend>, n: nat): (r: seq<Backend>)
    requires n <= |bs|
    ensures |r| == |bs|
  {
    seq(|bs|, k requires 0 <= k < |bs| => if k < n && bs[k].up then bs[k].(current := Key(bs[k])) else bs[k])
  }

  /** A run of weighted picks over a pool whose servers stay up or down. */
  ghost predicate WeightedRun(states: seq<seq<Backend>>, picks: seq<nat>) {
    && |states| == |picks| + 1
    && forall t :: 0 <= t < |picks| ==>
         && Heaviest(states[t], |states[t]|, picks[t])
         && states[t + 1] == AfterPick(states[t], picks[t])
  }

  function Count(picks: seq<nat>, i: nat): nat {
    if picks == [] then 0 else Count(picks[..|picks| - 1], i) + if picks[|picks| - 1] == i then 1 else 0
  }

  ghost predicate SameServers(a: seq<Backend>, b: seq<Backend>) {
    |a| == |b| && forall k :: 0 <= k < |a| ==> a[k] == b[k].(current := a[k].current)
  }

  lemma {:induction false} SameWeight(a: seq<Backend>, b: seq<Backend>, n: nat)
    requires SameServers(a, b) && n <= |a|
    ensures TotalWeight(a, n) == TotalWeight(b, n)
  {
    if n != 0 {
      SameWeight(a, b, n - 1);
    }
  }

  lemma OnePick(s: seq<Backend>, i: nat, k: nat)
    requires k < |s| && s[k].up
    ensures SameServers(AfterPick(s, i), s)
    ensures AfterPick(s, i)[k].current == s[k].current + s[k].weight - if k == i then Weight(s) else 0
  {
  }

  lemma SameTrans(a: seq<Backend>, b: seq<Backend>, c: seq<Backend>)
    requires SameServers(a, b) && SameServers(b, c)
    ensures SameServers(a, c) && Weight(a) == Weight(c)
  {
    SameWeight(a, c, |a|);
  }

  lemma CountSnoc(picks: seq<nat>, i: nat)
    requires picks != []
    ensures var t := |picks|; Count(picks, i) == Count(picks[..t - 1], i) + if picks[t - 1] == i then 1 else 0
  {
  }

  /** Cutting a run at its end. */
  lemma RunPrefix(states: seq<seq<Backend>>, picks: seq<nat>)
    requires WeightedRun(states, picks) && picks != []
    ensures var t := |picks|;
            && WeightedRun(states[..t], picks[..t - 1])
            && Heaviest(states[t - 1], |states[t - 1]|, picks[t - 1])
            && states[t] == AfterPick(states[t - 1], picks[t - 1])
  {
  }

  /** The dynamic weight after any number of picks, in closed form: it started somewhere, gained
      its weight at every pick and lost the total at each of its own. */
  lemma {:induction false} ClosedForm(states: seq<seq<Backend>>, picks: seq<nat>, i: nat)
    requires WeightedRun(states, picks) && i < |states[0]| && states[0][i].up
    ensures SameServers(states[|picks|], states[0]) && Weight(states[|picks|]) == Weight(states[0])
    ensures states[|picks|][i].current ==
            states[0][i].current + |picks| * states[0][i].weight - Weight(states[0]) * Count(picks, i)
    decreases |picks|
  {
    hide Weight, AfterPick, Count, Heaviest;
    var t := |picks|;
    var w, total := states[0][i].weight, Weight(states[0]);
    if t == 0 {
      assert Count(picks, i) == 0 by {
        NoPicks(picks, i);
      }
    } else {
      RunPrefix(states, picks);
      ClosedForm(states[..t], picks[..t - 1], i);
      var s := states[t - 1];
      OnePick(s, picks[t - 1], i);
      SameTrans(states[t], s, states[0]);
      CountSnoc(picks, i);
      var n := Count(picks[..t - 1], i);
      assert t * w == (t - 1) * w + w;
      assert total * (n + 1) == total * n + total;
    }
  }

  lemma NoPicks(picks: seq<nat>, i: nat)
    requires picks == []
    ensures Count(picks, i) == 0
  {
  }

  // ----- weighted picking is exact -----------------------------------------------------------------

  /** Weights are at least 1, as the configuration is checked for. */
  ghost predicate Weighty(bs: seq<Backend>) {
    forall k :: 0 <= k < |bs| ==> bs[k].weight >= 1
  }

  ghost predicate Zero(bs: seq<Backend>) {
    forall k :: 0 <= k < |bs| && bs[k].up ==> bs[k].current == 0
  }

  function SumCurrent(bs: seq<Backend>, n: nat): int
    requires n <= |bs|
  {
    if n == 0 then 0 else SumCurrent(bs, n - 1) + if bs[n - 1].up then bs[n - 1].current else 0
  }

  lemma {:induction false} SumZero(bs: seq<Backend>, n: nat)
    requires Zero(bs) && n <= |bs|
    ensures SumCurrent(bs, n) == 0
  {
    if n != 0 {
      SumZero(bs, n - 1);
    }
  }

  lemma {:induction false} SumAfter(bs: seq<Backend>, i: nat, n: nat)
    requires i < |bs| && bs[i].up && n <= |bs|
    ensures SumCurrent(AfterPick(bs, i), n) ==
            SumCurrent(bs, n) + TotalWeight(bs, n) - if i < n then Weight(bs) else 0
  {
    hide Weight;
    if n != 0 {
      SumAfter(bs, i, n - 1);
    }
  }

  lemma {:induction false} KeysSum(bs: seq<Backend>, n: nat)
    requires n <= |bs| && forall j :: 0 <= j < n && bs[j].up ==> Key(bs[j]) <= 0
    ensures SumCurrent(bs, n) + TotalWeight(bs, n) <= 0
  {
    if n != 0 {
      KeysSum(bs, n - 1);
    }
  }

  lemma {:induction false} WeightPositive(bs: seq<Backend>, n: nat, i: nat)
    requires Weighty(bs) && n <= |bs|
    ensures TotalWeight(bs, n) >= 0
    ensures i < n && bs[i].up ==> TotalWeight(bs, n) >= bs[i].weight >= 1
  {
    if n != 0 {
      WeightPositive(bs, n - 1, i);
    }
  }

  /** While the dynamic weights add up to nothing, a pick never takes one down to minus the total. */
  lemma PickStaysAbove(bs: seq<Backend>, i: nat)
    requires Weighty(bs) && Heaviest(bs, |bs|, i) && SumCurrent(bs, |bs|) == 0
    requires forall k :: 0 <= k < |bs| && bs[k].up ==> bs[k].current > -Weight(bs)
    ensures var after := AfterPick(bs, i);
            && SumCurrent(after, |after|) == 0 && Weighty(after)
            && forall k :: 0 <= k < |after| && after[k].up ==> after[k].current > -Weight(bs)
  {
    SumAfter(bs, i, |bs|);
    WeightPositive(bs, |bs|, i);
    if Key(bs[i]) <= 0 {
      KeysSum(bs, |bs|);
    }
  }

  /** No server is ever a whole pick ahead of its share: after t picks from a fresh start its
      dynamic weight is t times its weight less the total for each pick it got, and stays above
      minus the total. */
  lemma {:induction false} NeverAhead(states: seq<seq<Backend>>, picks: seq<nat>, i: nat)
    requires WeightedRun(states, picks) && Weighty(states[0]) && Zero(states[0])
    requires i < |states[0]| && states[0][i].up
    ensures var w, total, n := states[0][i].weight, Weight(states[0]), Count(picks, i);
            && |states[|picks|]| == |states[0]|
            && states[|picks|][i].current == |picks| * w - total * n > -total
            && total * n < |picks| * w + total
  {
    hide Weight, AfterPick, Count, Heaviest;
    ClosedForm(states, picks, i);
    AboveMinusTotal(states, picks, i);
  }

  lemma {:induction false} AboveMinusTotal(states: seq<seq<Backend>>, picks: seq<nat>, i: nat)
    requires WeightedRun(states, picks) && Weighty(states[0]) && Zero(states[0])
    requires i < |states[0]| && states[0][i].up
    ensures var s := states[|picks|];
            && SameServers(s, states[0]) && Weighty(s) && SumCurrent(s, |s|) == 0
            && Weight(s) == Weight(states[0])
            && forall k :: 0 <= k < |s| && s[k].up ==> s[k].current > -Weight(s)
    decreases |picks|
  {
    hide AfterPick, Count, Heaviest, SumCurrent, Weight;
    var t := |picks|;
    ClosedForm(states, picks, i);
    if t == 0 {
      SumZero(states[0], |states[0]|);
      TotalPositive(states[0], i);
    } else {
      RunPrefix(states, picks);
      AboveMinusTotal(states[..t], picks[..t - 1], i);
      PickStaysAbove(states[t - 1], picks[t - 1]);
      ClosedForm(states[..t], picks[..t - 1], i);
    }
  }

  lemma TotalPositive(bs: seq<Backend>, i: nat)
    requires Weighty(bs) && i < |bs| && bs[i].up
    ensures Weight(bs) >= 1
  {
    WeightPositive(bs, |bs|, i);
  }

  /** The picks of the first n servers together. */
  function SumCount(bs: seq<Backend>, picks: seq<nat>, n: nat): nat
    requires n <= |bs|
  {
    if n == 0 then 0 else SumCount(bs, picks, n - 1) + if bs[n - 1].up then Count(picks, n - 1) else 0
  }

  lemma {:induction false} SumCountSnoc(bs: seq<Backend>, picks: seq<nat>, n: nat)
    requires picks != [] && picks[|picks| - 1] < |bs| && bs[picks[|picks| - 1]].up && n <= |bs|
    ensures SumCount(bs, picks, n) == SumCount(bs, picks[..|picks| - 1], n) + if picks[|picks| - 1] < n then 1 else 0
  {
    if n != 0 {
      SumCountSnoc(bs, picks, n - 1);
    }
  }

  lemma {:induction false} NoneCounted(bs: seq<Backend>, n: nat)
    requires n <= |bs|
    ensures SumCount(bs, [], n) == 0
  {
    if n != 0 {
      NoneCounted(bs, n - 1);
    }
  }

  /** Every pick is one of a server in service. */
  lemma {:induction false} AllCounted(states: seq<seq<Backend>>, picks: seq<nat>, i: nat)
    requires WeightedRun(states, picks) && i < |states[0]| && states[0][i].up
    ensures SumCount(states[0], picks, |states[0]|) == |picks|
    decreases |picks|
  {
    hide Weight, AfterPick, Count;
    var t := |picks|;
    if t == 0 {
      NoneCounted(states[0], |states[0]|);
    } else {
      RunPrefix(states, picks);
      AllCounted(states[..t], picks[..t - 1], i);
      ClosedForm(states[..t], picks[..t - 1], i);
      SumCountSnoc(states[0], picks, |states[0]|);
    }
  }

  lemma AtLeast(total: int, x: int)
    requires total > 0 && total * x > -total
    ensures x >= 0
  {
    assert x <= -1 ==> total * x <= total * (-1);
  }

  /** If nobody got more than its share of k rounds, and all rounds were handed out, everybody got
      exactly its share. */
  lemma {:induction false} SharesAreExact(bs: seq<Backend>, picks: seq<nat>, k: nat, n: nat, i: nat)
    requires n <= |bs| && forall j :: 0 <= j < n && bs[j].up ==> Count(picks, j) <= k * bs[j].weight
    ensures SumCount(bs, picks, n) <= k * TotalWeight(bs, n)
    ensures SumCount(bs, picks, n) == k * TotalWeight(bs, n) && i < n && bs[i].up ==> Count(picks, i) == k * bs[i].weight
  {
    hide Count;
    if n != 0 {
      SharesAreExact(bs, picks, k, n - 1, i);
      var w := bs[n - 1].weight;
      assert k * (TotalWeight(bs, n - 1) + w) == k * TotalWeight(bs, n - 1) + k * w;
    }
  }

  /** After any number of whole rounds from a fresh start every server in service has been picked
      exactly in proportion to its weight, and all dynamic weights are back to zero. */
  lemma WeightedIsExact(states: seq<seq<Backend>>, picks: seq<nat>, rounds: nat, i: nat)
    requires WeightedRun(states, picks) && Weighty(states[0]) && Zero(states[0])
    requires |picks| == rounds * Weight(states[0])
    requires i < |states[0]| && states[0][i].up
    ensures Count(picks, i) == rounds * states[0][i].weight
    ensures |states[|picks|]| == |states[0]| && states[|picks|][i].current == 0
  {
    hide AfterPick, Count, Heaviest;
    var bs, total := states[0], Weight(states[0]);
    TotalPositive(bs, i);
    forall j | 0 <= j < |bs| && bs[j].up ensures Count(picks, j) <= rounds * bs[j].weight {
      NeverAhead(states, picks, j);
      ShareOf(total, rounds, bs[j].weight, Count(picks, j));
    }
    AllCounted(states, picks, i);
    SharesAreExact(bs, picks, rounds, |bs|, i);
    ClosedForm(states, picks, i);
    assert rounds * total * bs[i].weight == total * (rounds * bs[i].weight);
  }

  lemma ShareOf(total: int, rounds: nat, w: int, n: nat)
    requires total > 0 && (rounds * total) * w - total * n > -total
    ensures n <= rounds * w
  {
    assert (rounds * total) * w - total * n == total * (rounds * w - n) by {
      assert (rounds * total) * w == total * (rounds * w);
    }
    AtLeast(total, rounds * w - n);
  }

  // ----- and never starves -----------------------------------------------------------------------

  function Max0(x: int): nat {
    if x > 0 then x else 0
  }

  /** How far server j may run ahead of server i. */
  function Lead(bs: seq<Backend>, i: nat, j: nat): nat
    requires i < |bs| && j < |bs|
  {
    Max0(bs[j].current - bs[i].current + Weight(bs) - bs[i].weight)
  }

  function SumLead(bs: seq<Backend>, i: nat, n: nat): nat
    requires i < |bs| && n <= |bs|
  {
    if n == 0 then 0 else SumLead(bs, i, n - 1) + if bs[n - 1].up && n - 1 != i then Lead(bs, i, n - 1) else 0
  }

  lemma {:induction false} OthersPicks(states: seq<seq<Backend>>, picks: seq<nat>, i: nat, j: nat)
    requires WeightedRun(states, picks) && Weighty(states[0])
    requires i < |states[0]| && states[0][i].up && j < |states[0]| && states[0][j].up
    requires Count(picks, i) == 0
    ensures Weight(states[0]) * Count(picks, j) <= Lead(states[0], i, j) + |picks| * states[0][j].weight
    decreases |picks|
  {
    hide Weight, AfterPick, Count;
    var bs, t := states[0], |picks|;
    if t == 0 {
      NoPicks(picks, j);
    } else {
      RunPrefix(states, picks);
      CountSnoc(picks, i);
      CountSnoc(picks, j);
      OthersPicks(states[..t], picks[..t - 1], i, j);
      ClosedForm(states[..t], picks[..t - 1], i);
      ClosedForm(states[..t], picks[..t - 1], j);
      var s, n := states[t - 1], Count(picks[..t - 1], j);
      assert s[i].weight == bs[i].weight && s[j].weight == bs[j].weight;
      LeadStep(Weight(bs), n, t, bs[i].current, bs[j].current, bs[i].weight, bs[j].weight, picks[t - 1] == j,
               Lead(bs, i, j));
    }
  }

  lemma LeadStep(total: int, n: nat, t: nat, ci: int, cj: int, wi: int, wj: int, picked: bool, lead: nat)
    requires t >= 1 && wi >= 1 && wj >= 1 && lead >= cj - ci + total - wi
    requires total * n <= lead + (t - 1) * wj
    requires picked ==> ci + (t - 1) * wi + wi <= cj + (t - 1) * wj - total * n + wj
    ensures total * (n + if picked then 1 else 0) <= lead + t * wj
  {
    assert t * wj == (t - 1) * wj + wj && t * wi == (t - 1) * wi + wi;
    assert total * (n + 1) == total * n + total;
    assert (t - 1) * wi >= 0;
  }

  lemma {:induction false} SumOthers(bs: seq<Backend>, picks: seq<nat>, i: nat, n: nat)
    requires i < |bs| && bs[i].up && n <= |bs| && Count(picks, i) == 0
    requires forall j :: 0 <= j < |bs| && bs[j].up ==> Weight(bs) * Count(picks, j) <= Lead(bs, i, j) + |picks| * bs[j].weight
    ensures Weight(bs) * SumCount(bs, picks, n) <=
            SumLead(bs, i, n) + |picks| * (TotalWeight(bs, n) - if i < n then bs[i].weight else 0)
  {
    hide Weight, Count, Lead;
    if n != 0 {
      SumOthers(bs, picks, i, n - 1);
      var j := n - 1;
      if bs[j].up && j != i {
        OneMoreShare(Weight(bs), |picks|, SumCount(bs, picks, j), Count(picks, j), SumLead(bs, i, j), Lead(bs, i, j),
                     TotalWeight(bs, j) - (if i < j then bs[i].weight else 0), bs[j].weight);
      }
    }
  }

  lemma OneMoreShare(total: int, t: nat, a: nat, b: nat, lead: nat, more: nat, w: int, wj: int)
    requires total * a <= lead + t * w && total * b <= more + t * wj
    ensures total * (a + b) <= lead + more + t * (w + wj)
  {
    assert total * (a + b) == total * a + total * b;
    assert t * (w + wj) == t * w + t * wj;
  }

  /** From any dynamic weights whatever, a server in service waits for a bounded number of picks:
      as long as it is not picked, its weight times the number of picks is at most the sum of the
      leads the others had over it. */
  lemma NeverStarved(states: seq<seq<Backend>>, picks: seq<nat>, i: nat)
    requires WeightedRun(states, picks) && Weighty(states[0])
    requires i < |states[0]| && states[0][i].up && Count(picks, i) == 0
    ensures |picks| * states[0][i].weight <= SumLead(states[0], i, |states[0]|)
  {
    hide AfterPick, Count, Heaviest, Lead;
    var bs := states[0];
    forall j | 0 <= j < |bs| && bs[j].up
      ensures Weight(bs) * Count(picks, j) <= Lead(bs, i, j) + |picks| * bs[j].weight
    {
      OthersPicks(states, picks, i, j);
    }
    SumOthers(bs, picks, i, |bs|);
    AllCounted(states, picks, i);
    var t, total, w := |picks|, Weight(bs), bs[i].weight;
    assert total * t <= SumLead(bs, i, |bs|) + t * (total - w);
    assert t * (total - w) == total * t - t * w;
  }

  // ----- round robin ---------------------------------------------------------------------------------

  /** x modulo n, as repeated subtraction. */
  function Wrap(x: nat, n: nat): (r: nat)
    requires n > 0
    ensures r < n
  {
    if x < n then x else Wrap(x - n, n)
  }

  lemma {:induction false} WrapAdd(a: nat, b: nat, n: nat)
    requires n > 0
    ensures Wrap(Wrap(a, n) + b, n) == Wrap(a + b, n)
  {
    if a >= n {
      WrapAdd(a - n, b, n);
    }
  }

  lemma {:induction false} WrapIsModulo(x: nat, n: nat)
    requires 0 < n && x < 2 * n
    ensures Wrap(x, n) == x % n
  {
    if x >= n {
      assert x == n + (x - n);
      assert x / n == 1;
    }
  }

  predicate UpAt(bs: seq<Backend>, x: nat)
    requires bs != []
  {
    bs[Wrap(x, |bs|)].up
  }

  /** How far from the cursor the next server in service is. */
  function NextUp(bs: seq<Backend>, rr: nat, k: nat := 0): (r: Option<nat>)
    requires bs != [] && k <= |bs|
    ensures r.Some? ==> k <= r.value < |bs| && UpAt(bs, rr + r.value)
    ensures r.Some? ==> forall x :: rr + k <= x < rr + r.value ==> !UpAt(bs, x)
    ensures r.None? ==> forall x :: rr + k <= x < rr + |bs| ==> !UpAt(bs, x)
    decreases |bs| - k
  {
    if k == |bs| then None else if UpAt(bs, rr + k) then Some(k) else NextUp(bs, rr, k + 1)
  }

  /** The first t servers picked from cursor rr, while the same servers stay in service. */
  function RoundRobinPicks(bs: seq<Backend>, rr: nat, t: nat): seq<nat>
    requires bs != []
    decreases t
  {
    if t == 0 then []
    else
      match NextUp(bs, rr)
      case None => []
      case Some(k) =>
        var i := Wrap(rr + k, |bs|);
        RoundRobinPicks(bs, Wrap(i + 1, |bs|), t - 1) + [i]
  }

  /** How many of the places a, a+1, .., b-1 of a periodic sequence hold. */
  function Places(p: seq<bool>, a: nat, b: nat): nat
    requires p != []
    decreases b - a
  {
    if a >= b then 0 else (if p[Wrap(a, |p|)] then 1 else 0) + Places(p, a + 1, b)
  }

  lemma {:induction false} PlacesSplit(p: seq<bool>, a: nat, m: nat, b: nat)
    requires p != [] && a <= m <= b
    ensures Places(p, a, b) == Places(p, a, m) + Places(p, m, b)
    decreases m - a
  {
    if a < m {
      PlacesSplit(p, a + 1, m, b);
    }
  }

  /** Every window of one period holds equally often. */
  lemma {:induction false} OnePeriod(p: seq<bool>, a: nat)
    requires p != []
    ensures Places(p, a, a + |p|) == Places(p, 0, |p|)
  {
    if a != 0 {
      var n := |p|;
      OnePeriod(p, a - 1);
      PlacesSplit(p, a - 1, a - 1 + n, a + n);
      PlacesSplit(p, a - 1, a, a + n);
      assert Places(p, a - 1 + n, a + n) == Places(p, a - 1, a) by {
        assert Places(p, a + n, a + n) == Places(p, a, a) == 0;
      }
    }
  }

  function Ups(bs: seq<Backend>): seq<bool> {
    seq(|bs|, k requires 0 <= k < |bs| => bs[k].up)
  }

  function Only(n: nat, i: nat): seq<bool> {
    seq(n, k => k == i)
  }

  function UpCount(bs: seq<Backend>): nat
    requires bs != []
  {
    Places(Ups(bs), 0, |bs|)
  }

  lemma {:induction false} NonePlaced(p: seq<bool>, a: nat, b: nat)
    requires p != [] && forall x :: a <= x < b ==> !p[Wrap(x, |p|)]
    ensures Places(p, a, b) == 0
    decreases b - a
  {
    if a < b {
      NonePlaced(p, a + 1, b);
    }
  }

  lemma {:induction false} OnlyOnce(n: nat, i: nat, a: nat)
    requires i < n && a <= n
    ensures Places(Only(n, i), a, n) == if a <= i then 1 else 0
    decreases n - a
  {
    if a < n {
      OnlyOnce(n, i, a + 1);
    }
  }

  lemma {:induction false} CursorModulo(bs: seq<Backend>, r: nat, k: nat)
    requires bs != [] && k <= |bs|
    ensures NextUp(bs, Wrap(r, |bs|), k) == NextUp(bs, r, k)
    decreases |bs| - k
  {
    hide Wrap;
    if k < |bs| {
      WrapAdd(r, k, |bs|);
      CursorModulo(bs, r, k + 1);
    }
  }

  /** The picks made while the unrolled cursor moves from r to b are the servers in service there. */
  lemma {:induction false} PicksAreTheUps(bs: seq<Backend>, r: nat, b: nat, t: nat, i: nat)
    requires bs != [] && r <= b <= r + |bs| && i < |bs| && bs[i].up
    requires Places(Ups(bs), r, b) == t
    ensures Count(RoundRobinPicks(bs, Wrap(r, |bs|), t), i) == Places(Only(|bs|, i), r, b)
    decreases t
  {
    hide Count, Places, RoundRobinPicks, Wrap;
    if t == 0 {
      NonePicked(bs, Wrap(r, |bs|), i);
      NoneUpNoneOf(bs, r, b, i);
    } else {
      var k := NextWithin(bs, r, b);
      var p := r + k;
      FirstPick(bs, r, k, t);
      SkipTo(bs, r, p, b, i);
      PicksAreTheUps(bs, p + 1, b, t - 1, i);
      var rest, last := RoundRobinPicks(bs, Wrap(p + 1, |bs|), t - 1), Wrap(p, |bs|);
      CountSnoc(rest + [last], i);
      assert (rest + [last])[..|rest|] == rest;
    }
  }

  lemma NonePicked(bs: seq<Backend>, rr: nat, i: nat)
    requires bs != []
    ensures Count(RoundRobinPicks(bs, rr, 0), i) == 0
  {
  }

  lemma FirstPick(bs: seq<Backend>, r: nat, k: nat, t: nat)
    requires bs != [] && NextUp(bs, r) == Some(k) && t > 0
    ensures RoundRobinPicks(bs, Wrap(r, |bs|), t) ==
            RoundRobinPicks(bs, Wrap(r + k + 1, |bs|), t - 1) + [Wrap(r + k, |bs|)]
  {
    hide NextUp, Wrap, UpAt;
    CursorModulo(bs, r, 0);
    WrapAdd(r, k, |bs|);
    WrapAdd(r + k, 1, |bs|);
  }

  lemma SkipTo(bs: seq<Backend>, r: nat, p: nat, b: nat, i: nat)
    requires bs != [] && r <= p < b && i < |bs| && bs[i].up
    requires UpAt(bs, p) && forall x :: r <= x < p ==> !Ups(bs)[Wrap(x, |bs|)]
    ensures Places(Ups(bs), r, b) == 1 + Places(Ups(bs), p + 1, b)
    ensures Places(Only(|bs|, i), r, b) == (if Wrap(p, |bs|) == i then 1 else 0) + Places(Only(|bs|, i), p + 1, b)
  {
    PlacesSplit(Ups(bs), r, p, b);
    PlacesSplit(Only(|bs|, i), r, p, b);
    NonePlaced(Ups(bs), r, p);
    NoneUpNoneOf(bs, r, p, i);
  }

  lemma NoneUpNoneOf(bs: seq<Backend>, a: nat, b: nat, i: nat)
    requires bs != [] && i < |bs| && bs[i].up && Places(Ups(bs), a, b) == 0
    ensures Places(Only(|bs|, i), a, b) == 0
    decreases b - a
  {
    if a < b {
      NoneUpNoneOf(bs, a + 1, b, i);
    }
  }

  lemma NextWithin(bs: seq<Backend>, r: nat, b: nat) returns (k: nat)
    requires bs != [] && r <= b <= r + |bs| && Places(Ups(bs), r, b) > 0
    ensures NextUp(bs, r) == Some(k) && r + k < b
    ensures forall x :: r <= x < r + k ==> !Ups(bs)[Wrap(x, |bs|)]
  {
    var n := NextUp(bs, r);
    k := if n.Some? then n.value else |bs|;
    forall x | r <= x < r + k ensures !Ups(bs)[Wrap(x, |bs|)] {
      assert !UpAt(bs, x);
    }
    if r + k >= b {
      NonePlaced(Ups(bs), r, b);
    }
  }

  /** Round robin is even: from any cursor, as many picks as there are servers in service hit each
      of them exactly once. */
  lemma RoundRobinIsEven(bs: seq<Backend>, rr: nat, i: nat)
    requires bs != [] && rr < |bs| && i < |bs| && bs[i].up
    ensures Count(RoundRobinPicks(bs, rr, UpCount(bs)), i) == 1
  {
    assert Wrap(rr, |bs|) == rr;
    hide Places, Count, RoundRobinPicks, Wrap;
    OnePeriod(Ups(bs), rr);
    OnePeriod(Only(|bs|, i), rr);
    OnlyOnce(|bs|, i, 0);
    PicksAreTheUps(bs, rr, rr + |bs|, UpCount(bs), i);
  }

  // ----- least connections -----------------------------------------------------------------------------

  function ActiveAt(bs: seq<Backend>, x: nat): nat
    requires bs != []
  {
    bs[Wrap(x, |bs|)].active
  }

  /** Among the first n servers from the cursor, the first one in service with fewest connections. */
  ghost predicate Least(bs: seq<Backend>, rr: nat, n: nat, k: nat)
    requires bs != []
  {
    && k < n && UpAt(bs, rr + k)
    && (forall x :: rr <= x < rr + n && UpAt(bs, x) ==> ActiveAt(bs, rr + k) <= ActiveAt(bs, x))
    && (forall x :: rr <= x < rr + k && UpAt(bs, x) ==> ActiveAt(bs, rr + k) < ActiveAt(bs, x))
  }

  function LeastFrom(bs: seq<Backend>, rr: nat, n: nat): (r: Option<nat>)
    requires bs != [] && n <= |bs|
    ensures r.Some? ==> Least(bs, rr, n, r.value)
    ensures r.None? ==> forall x :: rr <= x < rr + n ==> !UpAt(bs, x)
  {
    if n == 0 then None
    else
      var best := LeastFrom(bs, rr, n - 1);
      var x := rr + n - 1;
      if UpAt(bs, x) && (best.None? || ActiveAt(bs, x) < ActiveAt(bs, rr + best.value)) then Some(n - 1) else best
  }

  /** Ties rotate: while all servers in service have as many connections, least connections picks
      exactly what round robin would pick. */
  lemma LeastIsRoundRobinOnTies(bs: seq<Backend>, rr: nat, a: nat)
    requires bs != [] && forall i :: 0 <= i < |bs| && bs[i].up ==> bs[i].active == a
    ensures LeastFrom(bs, rr, |bs|) == NextUp(bs, rr)
  {
    hide LeastFrom, NextUp, Wrap;
    var x, y := LeastFrom(bs, rr, |bs|), NextUp(bs, rr);
    if x.Some? {
      assert UpAt(bs, rr + x.value);
    }
    if y.Some? {
      assert UpAt(bs, rr + y.value);
    }
  }

  /** No two servers in service differ by more than d connections. */
  ghost predicate Spread(bs: seq<Backend>, d: int) {
    forall i, j :: 0 <= i < |bs| && 0 <= j < |bs| && bs[i].up && bs[j].up ==> bs[i].active - bs[j].active <= d
  }

  function Opened(b: Backend): Backend {
    b.(active := b.active + 1)
  }

  function Closed(b: Backend): Backend {
    if b.active > 0 then b.(active := b.active - 1) else b
  }

  // ----- the pool ------------------------------------------------------------------------------------------

  datatype Pool = Pool(balance: Balance, rise: nat, fall: nat, backends: seq<Backend>, rr: nat) {
    ghost predicate Valid() {
      && backends != [] && rr < |backends| && rise >= 1 && fall >= 1 && Weighty(backends)
      && forall k :: 0 <= k < |backends| ==> Counting(backends[k], rise, fall)
    }
  }

  /** Between reports every counter of a server is below its threshold. */
  ghost predicate Counting(b: Backend, rise: nat, fall: nat) {
    b.fails < fall && b.pFail < fall && b.successes < rise && b.pOk < rise
  }

  /** A report of the event loop; a server that comes back starts with dynamic weight 0. */
  function Reported(b: Backend, ok: bool, rise: nat, fall: nat): Backend {
    var (good, bad, store) := Report(b.successes, b.fails, b.up, ok, rise, fall);
    var r := b.(successes := good, fails := bad);
    match store
    case None => r
    case Some(true) => r.(up := true, current := 0)
    case Some(false) => r.(up := false)
  }

  /** A result of the probe thread. */
  function Probed(b: Backend, ok: bool, rise: nat, fall: nat): Backend {
    var (good, bad, store) := Report(b.pOk, b.pFail, b.up, ok, rise, fall);
    var r := b.(pOk := good, pFail := bad);
    if store.Some? then r.(up := store.value) else r
  }

  /** The passive path: results one after another. */
  function Reports(b: Backend, results: seq<bool>, rise: nat, fall: nat): Backend {
    if results == [] then b
    else Reported(Reports(b, results[..|results| - 1], rise, fall), results[|results| - 1], rise, fall)
  }

  function Probes(b: Backend, results: seq<bool>, rise: nat, fall: nat): Backend {
    if results == [] then b
    else Probed(Probes(b, results[..|results| - 1], rise, fall), results[|results| - 1], rise, fall)
  }

  /** Failures in a row take a server out of service, the one that completes `fall` and no earlier one,
      on either path; nothing but the flag and the counters of the path changes. */
  lemma {:induction false} FailuresTakeOut(b: Backend, results: seq<bool>, rise: nat, fall: nat)
    requires b.up && b.fails < fall && b.pFail < fall && rise >= 1 && results != [] && forall r <- results :: !r
    ensures var r := Reports(b, results, rise, fall);
            && (r.up <==> b.fails + |results| < fall)
            && r == b.(up := r.up, fails := if r.up then b.fails + |results| else 0, successes := 0)
    ensures var r := Probes(b, results, rise, fall);
            && (r.up <==> b.pFail + |results| < fall)
            && r == b.(up := r.up, pFail := if r.up then b.pFail + |results| else 0, pOk := 0)
    decreases |results|
  {
    var p := results[..|results| - 1];
    assert !results[|results| - 1] by { assert results[|results| - 1] in results; }
    assert forall r <- p :: r in results;
    if p != [] {
      FailuresTakeOut(b, p, rise, fall);
    }
  }

  /** Successes in a row bring it back, the one that completes `rise` and no earlier one; the passive path
      lets it start with dynamic weight 0. */
  lemma {:induction false} SuccessesBringBack(b: Backend, results: seq<bool>, rise: nat, fall: nat)
    requires !b.up && b.successes < rise && b.pOk < rise && fall >= 1 && results != [] && forall r <- results :: r
    ensures var r := Reports(b, results, rise, fall);
            && (r.up <==> b.successes + |results| >= rise)
            && r == b.(up := r.up, successes := if r.up then 0 else b.successes + |results|, fails := 0,
                       current := if r.up then 0 else b.current)
    ensures var r := Probes(b, results, rise, fall);
            && (r.up <==> b.pOk + |results| >= rise)
            && r == b.(up := r.up, pOk := if r.up then 0 else b.pOk + |results|, pFail := 0)
    decreases |results|
  {
    var p := results[..|results| - 1];
    assert results[|results| - 1] by { assert results[|results| - 1] in results; }
    assert forall r <- p :: r in results;
    if p != [] {
      SuccessesBringBack(b, p, rise, fall);
    }
  }

  function BestWeighted(bs: seq<Backend>, n: nat): (r: Option<nat>)
    requires n <= |bs|
    ensures r.Some? ==> Heaviest(bs, n, r.value)
    ensures r.None? ==> forall j :: 0 <= j < n ==> !bs[j].up
  {
    if n == 0 then None
    else
      var best := BestWeighted(bs, n - 1);
      if bs[n - 1].up && (best.None? || Key(bs[n - 1]) > Key(bs[best.value])) then Some(n - 1) else best
  }

  /** The server a pool picks, if one is in service, and the pool afterwards. */
  function PickFrom(p: Pool): (r: (Option<nat>, Pool))
    requires p.backends != [] && p.rr < |p.backends|
    ensures r.0.None? <==> forall j :: 0 <= j < |p.backends| ==> !p.backends[j].up
    ensures r.0.None? ==> r.1 == p
    ensures r.0.Some? ==> r.0.value < |p.backends| && p.backends[r.0.value].up && SameServers(r.1.backends, p.backends)
    ensures r.1 == p.(backends := r.1.backends, rr := r.1.rr) && r.1.rr < |p.backends|
  {
    var bs, n := p.backends, |p.backends|;
    match p.balance
    case Weighted =>
      var best := BestWeighted(bs, n);
      if best.None? then (None, p) else (best, p.(backends := AfterPick(bs, best.value)))
    case LeastConn =>
      SomeoneUp(bs, p.rr);
      var k := LeastFrom(bs, p.rr, n);
      if k.None? then (None, p)
      else (Some(Wrap(p.rr + k.value, n)), p.(rr := Wrap(Wrap(p.rr + k.value, n) + 1, n)))
    case RoundRobin =>
      SomeoneUp(bs, p.rr);
      var k := NextUp(bs, p.rr);
      if k.None? then (None, p)
      else (Some(Wrap(p.rr + k.value, n)), p.(rr := Wrap(Wrap(p.rr + k.value, n) + 1, n)))
  }

  lemma SomeoneUp(bs: seq<Backend>, rr: nat)
    requires bs != [] && rr < |bs|
    ensures (forall x :: rr <= x < rr + |bs| ==> !UpAt(bs, x)) <==> forall j :: 0 <= j < |bs| ==> !bs[j].up
  {
    if forall x :: rr <= x < rr + |bs| ==> !UpAt(bs, x) {
      forall j | 0 <= j < |bs| ensures !bs[j].up {
        var x := if j >= rr then j else j + |bs|;
        assert Wrap(x, |bs|) == j;
        assert !UpAt(bs, x);
      }
    }
  }

  // ----- which server is picked -------------------------------------------------------------------------

  /** How far server j is from the cursor, going round. */
  function Behind(rr: nat, j: nat, n: nat): nat
    requires rr < n && j < n
  {
    if j >= rr then j - rr else j + n - rr
  }

  lemma WhereFrom(bs: seq<Backend>, rr: nat, j: nat)
    requires rr < |bs| && j < |bs|
    ensures Wrap(rr + Behind(rr, j, |bs|), |bs|) == j && (UpAt(bs, rr + Behind(rr, j, |bs|)) <==> bs[j].up)
    ensures Behind(rr, j, |bs|) < |bs|
  {
  }

  lemma WhereTo(rr: nat, k: nat, n: nat)
    requires rr < n && k < n
    ensures Wrap(rr + k, n) < n && Behind(rr, Wrap(rr + k, n), n) == k
    ensures Wrap(Wrap(rr + k, n) + 1, n) == if Wrap(rr + k, n) == n - 1 then 0 else Wrap(rr + k, n) + 1
  {
  }

  /** The cursor goes behind the server that was picked. */
  ghost predicate CursorMoves(p: Pool, i: nat, q: Pool) {
    q == p.(rr := if i == |p.backends| - 1 then 0 else i + 1)
  }

  /** Least connections picks a server in service that no server in service undercuts, and of these the
      first from the cursor. */
  lemma LeastConnPick(p: Pool)
    requires p.Valid() && p.balance.LeastConn?
    ensures var (pick, q) := PickFrom(p); var bs := p.backends;
            match pick
            case None => q == p && forall j :: 0 <= j < |bs| ==> !bs[j].up
            case Some(i) =>
              && i < |bs| && bs[i].up && CursorMoves(p, i, q)
              && forall j :: 0 <= j < |bs| && bs[j].up && j != i ==>
                   if Behind(p.rr, j, |bs|) < Behind(p.rr, i, |bs|) then bs[i].active < bs[j].active
                   else bs[i].active <= bs[j].active
  {
    hide Wrap, UpAt, LeastFrom, Counting;
    var bs, k := p.backends, LeastFrom(p.backends, p.rr, |p.backends|);
    SomeoneUp(bs, p.rr);
    if k.Some? {
      WhereTo(p.rr, k.value, |bs|);
      forall j | 0 <= j < |bs| && bs[j].up
        ensures bs[Wrap(p.rr + k.value, |bs|)].active <= bs[j].active
        ensures Behind(p.rr, j, |bs|) < k.value ==> bs[Wrap(p.rr + k.value, |bs|)].active < bs[j].active
      {
        WhereFrom(bs, p.rr, j);
        assert ActiveAt(bs, p.rr + Behind(p.rr, j, |bs|)) == bs[j].active;
      }
    }
  }

  /** Round robin picks the first server in service from the cursor. */
  lemma RoundRobinPick(p: Pool)
    requires p.Valid() && p.balance.RoundRobin?
    ensures var (pick, q) := PickFrom(p); var bs := p.backends;
            match pick
            case None => q == p && forall j :: 0 <= j < |bs| ==> !bs[j].up
            case Some(i) =>
              && i < |bs| && bs[i].up && CursorMoves(p, i, q)
              && forall j :: 0 <= j < |bs| && bs[j].up ==> Behind(p.rr, i, |bs|) <= Behind(p.rr, j, |bs|)
  {
    hide Wrap, UpAt, NextUp, Counting;
    var bs, k := p.backends, NextUp(p.backends, p.rr);
    SomeoneUp(bs, p.rr);
    if k.Some? {
      WhereTo(p.rr, k.value, |bs|);
      forall j | 0 <= j < |bs| && bs[j].up ensures k.value <= Behind(p.rr, j, |bs|) {
        WhereFrom(bs, p.rr, j);
      }
    }
  }

  /** The weighted pick: every server in service is raised by its weight, the first with the largest
      dynamic weight is picked and pays all that was given; nothing else changes. */
  lemma WeightedPick(p: Pool)
    requires p.Valid() && p.balance.Weighted?
    ensures var (pick, q) := PickFrom(p); var bs := p.backends;
            match pick
            case None => q == p && forall j :: 0 <= j < |bs| ==> !bs[j].up
            case Some(i) =>
              && i < |bs| && bs[i].up && q == p.(backends := q.backends) && |q.backends| == |bs|
              && (forall j :: 0 <= j < |bs| && bs[j].up && j != i ==>
                    if j < i then bs[j].current + bs[j].weight < bs[i].current + bs[i].weight
                    else bs[j].current + bs[j].weight <= bs[i].current + bs[i].weight)
              && forall j :: 0 <= j < |bs| ==>
                   q.backends[j] == if !bs[j].up then bs[j]
                                    else bs[j].(current := bs[j].current + bs[j].weight - if j == i then Weight(bs) else 0)
  {
    hide Counting;
  }

  /** A run of a pool of least connections, each pick followed by a connection. */
  ghost predicate LeastRun(pools: seq<Pool>) {
    |pools| >= 1 && forall t :: 0 <= t < |pools| - 1 ==> LeastStep(pools[t], pools[t + 1])
  }

  ghost predicate LeastStep(p: Pool, after: Pool) {
    && p.Valid() && p.balance.LeastConn? && PickFrom(p).0.Some?
    && var (i, q) := PickFrom(p);
       after == q.(backends := q.backends[i.value := Opened(q.backends[i.value])])
  }

  /** Under pick and connect the spread never grows beyond what it was, or beyond one. */
  lemma {:induction false} SpreadBounded(pools: seq<Pool>, t: nat, d: nat)
    requires LeastRun(pools) && t < |pools| && Spread(pools[0].backends, d) && d >= 1
    ensures Spread(pools[t].backends, d)
  {
    hide Spread, LeastStep;
    if t != 0 {
      SpreadBounded(pools, t - 1, d);
      assert LeastStep(pools[t - 1], pools[t]);
      OpenPicked(pools[t - 1], pools[t], d);
    }
  }

  lemma OpenPicked(p: Pool, after: Pool, d: nat)
    requires LeastStep(p, after) && Spread(p.backends, d) && d >= 1
    ensures Spread(after.backends, d)
  {
    hide PickFrom, Counting;
    LeastConnPick(p);
  }

  // ----- fairness of the pool itself ---------------------------------------------------------------------

  /** Successive picks of one pool, while the same servers stay in service. */
  ghost predicate PoolRun(pools: seq<Pool>, picks: seq<nat>) {
    && |pools| == |picks| + 1 && (forall t :: 0 <= t < |pools| ==> pools[t].Valid())
    && forall t :: 0 <= t < |picks| ==> PickFrom(pools[t]) == (Some(picks[t]), pools[t + 1])
  }

  function Backends(pools: seq<Pool>): seq<seq<Backend>> {
    seq(|pools|, t requires 0 <= t < |pools| => pools[t].backends)
  }

  lemma WeightedStep(p: Pool)
    requires p.Valid() && p.balance.Weighted? && PickFrom(p).0.Some?
    ensures var (i, q) := PickFrom(p);
            && Heaviest(p.backends, |p.backends|, i.value) && q.backends == AfterPick(p.backends, i.value)
            && q.balance == p.balance
  {
    hide Heaviest, AfterPick;
  }

  lemma {:induction false} SameBalance(pools: seq<Pool>, picks: seq<nat>, t: nat)
    requires PoolRun(pools, picks) && t <= |picks|
    ensures pools[t].balance == pools[0].balance && SameServers(pools[t].backends, pools[0].backends)
  {
    hide PickFrom;
    if t != 0 {
      SameBalance(pools, picks, t - 1);
      assert PickFrom(pools[t - 1]) == (Some(picks[t - 1]), pools[t]);
    }
  }

  lemma WeightedPoolRuns(pools: seq<Pool>, picks: seq<nat>)
    requires PoolRun(pools, picks) && pools[0].balance.Weighted?
    ensures WeightedRun(Backends(pools), picks)
  {
    hide PickFrom, Heaviest, AfterPick, Counting;
    var states := Backends(pools);
    forall t | 0 <= t < |picks|
      ensures Heaviest(states[t], |states[t]|, picks[t]) && states[t + 1] == AfterPick(states[t], picks[t])
    {
      assert pools[t].Valid();
      SameBalance(pools, picks, t);
      assert PickFrom(pools[t]) == (Some(picks[t]), pools[t + 1]);
      WeightedStep(pools[t]);
    }
  }

  /** A weighted pool that starts fresh serves every server exactly in proportion to its weight,
      over any number of whole rounds, and at no time is a server a whole pick ahead. */
  lemma WeightedPoolIsFair(pools: seq<Pool>, picks: seq<nat>, rounds: nat, i: nat)
    requires PoolRun(pools, picks) && pools[0].balance.Weighted? && Zero(pools[0].backends)
    requires i < |pools[0].backends| && pools[0].backends[i].up
    ensures var w, total := pools[0].backends[i].weight, Weight(pools[0].backends);
            && total * Count(picks, i) < |picks| * w + total
            && (|picks| == rounds * total ==> Count(picks, i) == rounds * w)
  {
    hide PickFrom, Heaviest, AfterPick, Count, Weight, Counting;
    var states := Backends(pools);
    assert pools[0].Valid();
    WeightedPoolRuns(pools, picks);
    NeverAhead(states, picks, i);
    if |picks| == rounds * Weight(pools[0].backends) {
      WeightedIsExact(states, picks, rounds, i);
    }
  }

  lemma {:induction false} CountCons(x: nat, picks: seq<nat>, i: nat)
    ensures Count([x] + picks, i) == (if x == i then 1 else 0) + Count(picks, i)
    decreases |picks|
  {
    var all := [x] + picks;
    if picks == [] {
      assert all[..|all| - 1] == [] && all[|all| - 1] == x;
      NoPicks([], i);
    } else {
      assert all[..|all| - 1] == [x] + picks[..|picks| - 1];
      CountCons(x, picks[..|picks| - 1], i);
    }
  }

  /** All servers in service have as many connections. */
  ghost predicate Level(bs: seq<Backend>) {
    forall i, j :: 0 <= i < |bs| && 0 <= j < |bs| && bs[i].up && bs[j].up ==> bs[i].active == bs[j].active
  }

  /** Pools whose picks go round. */
  ghost predicate Rotates(p: Pool) {
    p.balance.RoundRobin? || (p.balance.LeastConn? && Level(p.backends))
  }

  lemma LevelRotates(bs: seq<Backend>, rr: nat)
    requires bs != [] && Level(bs)
    ensures LeastFrom(bs, rr, |bs|) == NextUp(bs, rr)
  {
    var a: nat := 0;
    if i :| 0 <= i < |bs| && bs[i].up {
      a := bs[i].active;
    }
    LeastIsRoundRobinOnTies(bs, rr, a);
  }

  lemma RotatingPick(p: Pool)
    requires p.Valid() && Rotates(p) && PickFrom(p).0.Some?
    ensures var k, n := NextUp(p.backends, p.rr), |p.backends|;
            k.Some? && PickFrom(p) == (Some(Wrap(p.rr + k.value, n)), p.(rr := Wrap(Wrap(p.rr + k.value, n) + 1, n)))
  {
    hide NextUp, LeastFrom, Wrap, Level, Counting;
    if p.balance.LeastConn? {
      LevelRotates(p.backends, p.rr);
    }
  }

  lemma RotatingStep(p: Pool)
    requires p.Valid() && Rotates(p) && PickFrom(p).0.Some?
    ensures var (i, q) := PickFrom(p);
            && q == p.(rr := q.rr)
            && forall t: nat :: t > 0 ==>
                 RoundRobinPicks(p.backends, p.rr, t) == RoundRobinPicks(q.backends, q.rr, t - 1) + [i.value]
  {
    hide NextUp, PickFrom, Wrap, Rotates, Counting;
    RotatingPick(p);
  }

  lemma {:induction false} PoolFollowsTheRing(pools: seq<Pool>, picks: seq<nat>, i: nat)
    requires PoolRun(pools, picks) && Rotates(pools[0])
    ensures Count(picks, i) == Count(RoundRobinPicks(pools[0].backends, pools[0].rr, |picks|), i)
    decreases |picks|
  {
    hide PickFrom, RoundRobinPicks, Count, Level;
    var p := pools[0];
    if picks == [] {
      NonePicked(p.backends, p.rr, i);
      NoPicks(picks, i);
    } else {
      assert PickFrom(pools[0]) == (Some(picks[0]), pools[1]);
      RotatingStep(p);
      PoolFollowsTheRing(pools[1..], picks[1..], i);
      CountCons(picks[0], picks[1..], i);
      assert picks == [picks[0]] + picks[1..];
      var rest := RoundRobinPicks(pools[1].backends, pools[1].rr, |picks| - 1);
      CountSnoc(rest + [picks[0]], i);
      assert (rest + [picks[0]])[..|rest|] == rest;
    }
  }

  /** A round-robin pool serves every server in service exactly once in as many picks as there are
      such servers, wherever its cursor stands. */
  lemma RoundRobinPoolIsFair(pools: seq<Pool>, picks: seq<nat>, i: nat)
    requires PoolRun(pools, picks) && pools[0].balance.RoundRobin?
    requires |picks| == UpCount(pools[0].backends)
    requires i < |pools[0].backends| && pools[0].backends[i].up
    ensures Count(picks, i) == 1
  {
    hide PickFrom, RoundRobinPicks, Count, UpCount;
    assert pools[0].Valid();
    PoolFollowsTheRing(pools, picks, i);
    RoundRobinIsEven(pools[0].backends, pools[0].rr, i);
  }

  /** And so does a pool of least connections, as long as its servers in service have equally many and
      no connection is opened or closed between the picks. */
  lemma LevelPoolIsFair(pools: seq<Pool>, picks: seq<nat>, i: nat)
    requires PoolRun(pools, picks) && pools[0].balance.LeastConn? && Level(pools[0].backends)
    requires |picks| == UpCount(pools[0].backends)
    requires i < |pools[0].backends| && pools[0].backends[i].up
    ensures Count(picks, i) == 1
  {
    hide PickFrom, RoundRobinPicks, Count, UpCount, Level;
    assert pools[0].Valid();
    PoolFollowsTheRing(pools, picks, i);
    RoundRobinIsEven(pools[0].backends, pools[0].rr, i);
  }

  lemma NextUpStep(bs: seq<Backend>, rr: nat, k: nat)
    requires bs != [] && k < |bs|
    ensures NextUp(bs, rr, k) == if bs[Wrap(rr + k, |bs|)].up then Some(k) else NextUp(bs, rr, k + 1)
  {
  }

  lemma NextUpEnd(bs: seq<Backend>, rr: nat)
    requires bs != []
    ensures NextUp(bs, rr, |bs|) == None
  {
  }

  lemma LeastNone(bs: seq<Backend>, rr: nat)
    requires bs != []
    ensures LeastFrom(bs, rr, 0) == None
  {
  }

  lemma LeastStepAt(bs: seq<Backend>, rr: nat, k: nat)
    requires bs != [] && k < |bs|
    ensures var best, b := LeastFrom(bs, rr, k), bs[Wrap(rr + k, |bs|)];
            LeastFrom(bs, rr, k + 1) ==
            if b.up && (best.None? || b.active < bs[Wrap(rr + best.value, |bs|)].active) then Some(k) else best
  {
    hide Wrap;
  }

  class BackendPool {
    const balance: Balance
    const rise: nat
    const fall: nat
    const backends: array<Backend>
    var rr: nat

    ghost function View(): Pool
      reads this, backends
    {
      Pool(balance, rise, fall, backends[..], rr)
    }

    ghost predicate Valid()
      reads this, backends
    {
      View().Valid()
    }

    /** Servers are taken to be alive until somebody finds out otherwise. */
    constructor (balance: Balance, rise: nat, fall: nat, weights: seq<int>)
      requires weights != [] && rise >= 1 && fall >= 1 && forall k :: 0 <= k < |weights| ==> weights[k] >= 1
      ensures Valid() && fresh(backends) && Zero(backends[..])
      ensures |backends[..]| == |weights|
      ensures forall k :: 0 <= k < |weights| ==> backends[k] == Backend(weights[k], true, 0, 0, 0, 0, 0, 0)
    {
      this.balance, this.rise, this.fall, rr := balance, rise, fall, 0;
      backends := new Backend[|weights|](k requires 0 <= k < |weights| => Backend(weights[k], true, 0, 0, 0, 0, 0, 0));
    }

    method PickRoundRobin() returns (r: Option<nat>)
      requires Valid() && balance.RoundRobin?
      modifies this`rr
      ensures (r, View()) == PickFrom(old(View()))
    {
      hide Wrap, NextUp, UpAt, Weighty, Counting;
      var n := backends.Length;
      ghost var bs := backends[..];
      SomeoneUp(bs, rr);
      for k := 0 to n
        invariant NextUp(bs, rr) == NextUp(bs, rr, k) && bs == backends[..] && rr == old(rr)
      {
        NextUpStep(bs, rr, k);
        WrapIsModulo(rr + k, n);
        var i := (rr + k) % n;
        if backends[i].up {
          WrapIsModulo(i + 1, n);
          rr := (i + 1) % n;
          return Some(i);
        }
      }
      NextUpEnd(bs, rr);
      return None;
    }

    method PickWeighted() returns (r: Option<nat>)
      requires Valid() && balance.Weighted?
      modifies backends
      ensures (r, View()) == PickFrom(old(View()))
    {
      var n := backends.Length;
      ghost var bs := backends[..];
      var total := 0;
      r := None;
      for i := 0 to n
        invariant r == BestWeighted(bs, i) && total == TotalWeight(bs, i)
        invariant backends[..] == Raised(bs, i)
      {
        if backends[i].up {
          backends[i] := backends[i].(current := backends[i].current + backends[i].weight);
          total := total + backends[i].weight;
          if r.None? || backends[i].current > backends[r.value].current {
            r := Some(i);
          }
        }
      }
      if r.Some? {
        backends[r.value] := backends[r.value].(current := backends[r.value].current - total);
        assert backends[..] == AfterPick(bs, r.value);
      } else {
        assert backends[..] == bs;
      }
    }

    method PickLeastConn() returns (r: Option<nat>)
      requires Valid() && balance.LeastConn?
      modifies this`rr
      ensures (r, View()) == PickFrom(old(View()))
    {
      hide Wrap, LeastFrom, UpAt, ActiveAt, Least, Weighty, Counting;
      var n, start := backends.Length, rr;
      ghost var bs := backends[..];
      SomeoneUp(bs, rr);
      LeastNone(bs, start);
      r := None;
      for k := 0 to n
        invariant bs == backends[..] && rr == start
        invariant match LeastFrom(bs, start, k)
                  case None => r == None
                  case Some(best) => r == Some(Wrap(start + best, n))
      {
        LeastStepAt(bs, start, k);
        WrapIsModulo(start + k, n);
        var i := (start + k) % n;
        if backends[i].up && (r.None? || backends[i].active < backends[r.value].active) {
          r := Some(i);
        }
      }
      if r.Some? {
        WrapIsModulo(r.value + 1, n);
        rr := (r.value + 1) % n;
      }
    }

    /** The next server, or none if nobody is in service. */
    method Pick() returns (r: Option<nat>)
      requires Valid()
      modifies this`rr, backends
      ensures (r, View()) == PickFrom(old(View())) && Valid()
    {
      match balance {
        case Weighted => r := PickWeighted();
        case LeastConn => r := PickLeastConn();
        case RoundRobin => r := PickRoundRobin();
      }
      assert forall k :: 0 <= k < |View().backends| ==> Counting(old(View()).backends[k], rise, fall);
    }

    method Report(i: nat, ok: bool)
      requires Valid() && i < backends.Length
      modifies backends
      ensures Valid() && View() == old(View()).(backends := old(backends[..])[i := Reported(old(backends[i]), ok, rise, fall)])
    {
      var b := backends[i];
      assert Counting(backends[..][i], rise, fall) && backends[..][i].weight >= 1;
      if ok {
        b := b.(fails := 0);
        if !b.up {
          b := b.(successes := b.successes + 1);
          if b.successes >= rise {
            b := b.(up := true, successes := 0, current := 0);
          }
        }
      } else {
        b := b.(successes := 0);
        if b.up {
          b := b.(fails := b.fails + 1);
          if b.fails >= fall {
            b := b.(up := false, fails := 0);
          }
        }
      }
      backends[i] := b;
      assert forall k :: 0 <= k < backends.Length && k != i ==> backends[..][k] == old(backends[..])[k];
    }

    method ProbeResult(i: nat, ok: bool)
      requires Valid() && i < backends.Length
      modifies backends
      ensures Valid() && View() == old(View()).(backends := old(backends[..])[i := Probed(old(backends[i]), ok, rise, fall)])
    {
      var b := backends[i];
      assert Counting(backends[..][i], rise, fall) && backends[..][i].weight >= 1;
      if ok {
        b := b.(pFail := 0);
        if !b.up {
          b := b.(pOk := b.pOk + 1);
          if b.pOk >= rise {
            b := b.(up := true, pOk := 0);
          }
        }
      } else {
        b := b.(pOk := 0);
        if b.up {
          b := b.(pFail := b.pFail + 1);
          if b.pFail >= fall {
            b := b.(up := false, pFail := 0);
          }
        }
      }
      backends[i] := b;
      assert forall k :: 0 <= k < backends.Length && k != i ==> backends[..][k] == old(backends[..])[k];
    }

    method ConnOpened(i: nat)
      requires Valid() && i < backends.Length
      modifies backends
      ensures Valid() && View() == old(View()).(backends := old(backends[..])[i := Opened(old(backends[i]))])
    {
      assert Counting(backends[..][i], rise, fall) && backends[..][i].weight >= 1;
      backends[i] := backends[i].(active := backends[i].active + 1);
      assert forall k :: 0 <= k < backends.Length && k != i ==> backends[..][k] == old(backends[..])[k];
    }

    method ConnClosed(i: nat)
      requires Valid() && i < backends.Length
      modifies backends
      ensures Valid() && View() == old(View()).(backends := old(backends[..])[i := Closed(old(backends[i]))])
    {
      assert Counting(backends[..][i], rise, fall) && backends[..][i].weight >= 1;
      if backends[i].active > 0 {
        backends[i] := backends[i].(active := backends[i].active - 1);
      }
      assert forall k :: 0 <= k < backends.Length && k != i ==> backends[..][k] == old(backends[..])[k];
    }
  }
}
