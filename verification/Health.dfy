/** When a server goes out of service and comes back.  Two paths watch it: the event loop reports
    connection attempts, the probe thread reports probes.  Each has its own two counters; both
    write the same `up` flag, with single atomic loads and stores. */
module Health {
  import opened Text

  /** What one report does to the counters of its path, given the value of `up` it loaded: the new
      counters, and the value it stores in `up`, if any. */
  function Report(good: nat, bad: nat, up: bool, ok: bool, rise: nat, fall: nat): (nat, nat, Option<bool>) {
    if ok then
      if up then (good, 0, None)
      else if good + 1 >= rise then (0, 0, Some(true))
      else (good + 1, 0, None)
    else
      if !up then (0, bad, None)
      else if bad + 1 >= fall then (0, 0, Some(false))
      else (0, bad + 1, None)
  }

  /** A finished report: its result, and the value of `up` it had loaded. */
  datatype Result = Result(ok: bool, up: bool)

  /** How many results at the end of a history are all equal to `r`. */
  function Streak(history: seq<Result>, r: bool): nat {
    if history == [] || history[|history| - 1].ok != r then 0 else Streak(history[..|history| - 1], r) + 1
  }

  /** How many of these were against the flag: failures that had loaded UP, successes that had loaded
      DOWN. */
  function Hits(history: seq<Result>, r: bool): nat {
    if history == [] || history[|history| - 1].ok != r then 0
    else Hits(history[..|history| - 1], r) + if history[|history| - 1].up != r then 1 else 0
  }

  datatype Pc = Idle | Loaded(ok: bool, up: bool)

  /** One path: where it is inside a report, its counters, and all results it has reported. */
  datatype Path = Path(pc: Pc, good: nat, bad: nat, history: seq<Result>)

  datatype Server = Server(up: bool, passive: Path, probe: Path)

  datatype Step =
    | Load(passive: bool, ok: bool)   // a report begins and reads `up`
    | Finish(passive: bool)           // it updates its counters and perhaps writes `up`

  function Of(s: Server, passive: bool): Path {
    if passive then s.passive else s.probe
  }

  function With(s: Server, passive: bool, p: Path): Server {
    if passive then s.(passive := p) else s.(probe := p)
  }

  predicate Enabled(s: Server, step: Step) {
    match step
    case Load(passive, _) => Of(s, passive).pc.Idle?
    case Finish(passive) => Of(s, passive).pc.Loaded?
  }

  /** The value a step writes in `up`, if it writes. */
  function StoreOf(s: Server, step: Step, rise: nat, fall: nat): Option<bool>
    requires Enabled(s, step)
  {
    match step
    case Load(_, _) => None
    case Finish(passive) =>
      var p := Of(s, passive);
      Report(p.good, p.bad, p.pc.up, p.pc.ok, rise, fall).2
  }

  function Next(s: Server, step: Step, rise: nat, fall: nat): Server
    requires Enabled(s, step)
  {
    match step
    case Load(passive, ok) => With(s, passive, Of(s, passive).(pc := Loaded(ok, s.up)))
    case Finish(passive) =>
      var p := Of(s, passive);
      var (good, bad, store) := Report(p.good, p.bad, p.pc.up, p.pc.ok, rise, fall);
      var done := With(s, passive, Path(Idle, good, bad, p.history + [Result(p.pc.ok, p.pc.up)]));
      if store.Some? then done.(up := store.value) else done
  }

  const START := Server(true, Path(Idle, 0, 0, []), Path(Idle, 0, 0, []))

  /** Any interleaving of the two paths. */
  ghost predicate Run(states: seq<Server>, steps: seq<Step>, rise: nat, fall: nat) {
    && |states| == |steps| + 1 && states[0] == START
    && forall t :: 0 <= t < |steps| ==>
         Enabled(states[t], steps[t]) && states[t + 1] == Next(states[t], steps[t], rise, fall)
  }

  ghost predicate PathOk(p: Path, rise: nat, fall: nat) {
    && p.good < rise && p.bad < fall
    && p.good <= Streak(p.history, true) && p.bad <= Streak(p.history, false)
  }

  /** The counters count what is against the flag in the last unbroken streak, less whole thresholds:
      each of these has made the path write the flag. */
  ghost predicate Counts(p: Path, rise: nat, fall: nat)
    requires rise >= 1 && fall >= 1
  {
    p.good == Hits(p.history, true) % rise && p.bad == Hits(p.history, false) % fall
  }

  lemma StreakSnoc(h: seq<Result>, r: bool, x: Result)
    ensures Streak(h + [x], r) == if x.ok == r then Streak(h, r) + 1 else 0
    ensures Hits(h + [x], r) == if x.ok == r then Hits(h, r) + (if x.up != r then 1 else 0) else 0
  {
    assert (h + [x])[..|h|] == h;
  }

  lemma ReportKeeps(p: Path, rise: nat, fall: nat)
    requires PathOk(p, rise, fall) && p.pc.Loaded?
    ensures var (good, bad, store) := Report(p.good, p.bad, p.pc.up, p.pc.ok, rise, fall);
            var h := p.history + [Result(p.pc.ok, p.pc.up)];
            && PathOk(Path(Idle, good, bad, h), rise, fall)
            && (store == Some(true) ==> p.pc.ok && Streak(h, true) >= rise)
            && (store == Some(false) ==> !p.pc.ok && Streak(h, false) >= fall)
  {
    StreakSnoc(p.history, true, Result(p.pc.ok, p.pc.up));
    StreakSnoc(p.history, false, Result(p.pc.ok, p.pc.up));
  }

  /** A report writes the flag exactly when the results against it in its streak make up a whole
      threshold. */
  lemma ReportCounts(p: Path, rise: nat, fall: nat)
    requires rise >= 1 && fall >= 1 && Counts(p, rise, fall) && p.pc.Loaded?
    ensures var (good, bad, store) := Report(p.good, p.bad, p.pc.up, p.pc.ok, rise, fall);
            var h := p.history + [Result(p.pc.ok, p.pc.up)];
            && Counts(Path(Idle, good, bad, h), rise, fall)
            && (store == Some(false) <==> !p.pc.ok && p.pc.up && Hits(h, false) % fall == 0)
            && (store == Some(true) <==> p.pc.ok && !p.pc.up && Hits(h, true) % rise == 0)
  {
    StreakSnoc(p.history, true, Result(p.pc.ok, p.pc.up));
    StreakSnoc(p.history, false, Result(p.pc.ok, p.pc.up));
    OneMore(Hits(p.history, true), rise);
    OneMore(Hits(p.history, false), fall);
  }

  lemma OneMore(n: nat, m: nat)
    requires m >= 1
    ensures (n + 1) % m == if n % m + 1 >= m then 0 else n % m + 1
    ensures 0 % m == 0
  {
    var q, r := n / m, n % m;
    assert n == q * m + r;
    if r + 1 >= m {
      assert n + 1 == (q + 1) * m;
      Remainder(q + 1, 0, m);
    } else {
      Remainder(q, r + 1, m);
    }
  }

  lemma Remainder(q: nat, r: nat, m: nat)
    requires r < m
    ensures (q * m + r) % m == r
  {
    var n := q * m + r;
    assert n == n / m * m + n % m;
    var d := n / m - q;
    assert d * m == r - n % m;
    AtLeastOne(d, m);
    AtLeastOne(-d, m);
  }

  lemma AtLeastOne(d: int, m: nat)
    ensures d >= 1 ==> d * m >= m
  {
  }

  lemma {:induction false} RunCounts(states: seq<Server>, steps: seq<Step>, rise: nat, fall: nat, t: nat)
    requires Run(states, steps, rise, fall) && rise >= 1 && fall >= 1 && t <= |steps|
    ensures Counts(states[t].passive, rise, fall) && Counts(states[t].probe, rise, fall)
  {
    hide Counts, Report;
    if t == 0 {
      NothingCounted(rise, fall);
    } else {
      RunCounts(states, steps, rise, fall, t - 1);
      var s, step := states[t - 1], steps[t - 1];
      var p := Of(s, step.passive);
      if step.Finish? {
        ReportCounts(p, rise, fall);
      } else {
        SameCounts(p, p.(pc := Loaded(step.ok, s.up)), rise, fall);
      }
    }
  }

  lemma NothingCounted(rise: nat, fall: nat)
    requires rise >= 1 && fall >= 1
    ensures Counts(START.passive, rise, fall) && Counts(START.probe, rise, fall)
  {
    OneMore(0, rise);
    OneMore(0, fall);
  }

  lemma SameCounts(p: Path, q: Path, rise: nat, fall: nat)
    requires rise >= 1 && fall >= 1 && q == p.(pc := q.pc)
    ensures Counts(p, rise, fall) <==> Counts(q, rise, fall)
  {
  }

  /** In every interleaving every counter stays below its threshold between reports. */
  lemma {:induction false} CountersBelow(states: seq<Server>, steps: seq<Step>, rise: nat, fall: nat)
    requires Run(states, steps, rise, fall) && rise >= 1 && fall >= 1
    ensures forall s <- states :: PathOk(s.passive, rise, fall) && PathOk(s.probe, rise, fall)
    decreases |steps|
  {
    var n := |steps|;
    if n == 0 {
      assert states == [START];
    } else {
      CountersBelow(states[..n], steps[..n - 1], rise, fall);
      var s := states[..n][n - 1];
      assert s in states[..n];
      if steps[n - 1].Finish? {
        ReportKeeps(Of(s, steps[n - 1].passive), rise, fall);
      }
      assert states == states[..n] + [states[n]];
    }
  }

  /** Hysteresis: a step that writes the flag ends a report of one path, and the last results of
      that very path were all failures, at least `fall` of them, for DOWN, or all successes, at
      least `rise` of them, for UP, whatever the other path did in between.  Nothing else changes
      the flag. */
  lemma Hysteresis(states: seq<Server>, steps: seq<Step>, rise: nat, fall: nat, t: nat)
    requires Run(states, steps, rise, fall) && rise >= 1 && fall >= 1 && t < |steps|
    ensures match StoreOf(states[t], steps[t], rise, fall)
            case None => states[t + 1].up == states[t].up
            case Some(up) =>
              && states[t + 1].up == up
              && Streak(Of(states[t + 1], steps[t].passive).history, up) >= (if up then rise else fall)
  {
    CountersBelow(states, steps, rise, fall);
    assert states[t] in states;
    if steps[t].Finish? {
      ReportKeeps(Of(states[t], steps[t].passive), rise, fall);
    }
  }

  /** And exactly then, in every interleaving: a report stores DOWN if and only if it has failed, had
      loaded UP, and is the `fall`-th failure that had since the last success or the last DOWN of its
      own path; and likewise UP with successes that had loaded DOWN and `rise`.  (`Hits` counts them
      since the last opposite result, so every multiple of the threshold is meant.) */
  lemma StoresExactly(states: seq<Server>, steps: seq<Step>, rise: nat, fall: nat, t: nat)
    requires Run(states, steps, rise, fall) && rise >= 1 && fall >= 1 && t < |steps| && steps[t].Finish?
    ensures var p, h := Of(states[t], steps[t].passive), Of(states[t + 1], steps[t].passive).history;
            && h == p.history + [Result(p.pc.ok, p.pc.up)]
            && (StoreOf(states[t], steps[t], rise, fall) == Some(false) <==>
                  !p.pc.ok && p.pc.up && Hits(h, false) % fall == 0)
            && (StoreOf(states[t], steps[t], rise, fall) == Some(true) <==>
                  p.pc.ok && !p.pc.up && Hits(h, true) % rise == 0)
  {
    hide Counts, Report;
    RunCounts(states, steps, rise, fall, t);
    ReportCounts(Of(states[t], steps[t].passive), rise, fall);
  }
}
