/** Who keeps a router alive.  The event loop and the probe thread share the reference counts, the
    published slot and, under a mutex, the probe thread's current router; a step is one load, one
    store, one atomic update or one lock operation of one of the two threads. */
module RouterLifetime {
  import opened Text

  /** What the event loop does once a reference has been dropped. */
  datatype Then = Resume | HandOver(next: nat) | DestroySlot | Finish

  /** Where the event loop is. */
  datatype Loop =
    | Boot                            // the first router is in the slot
    | Booted(r: nat)                  // referenced for the probe thread, which does not exist yet
    | Idle
    | Acquired(r: nat, stats: bool)   // slot loaded, count not yet raised
    | Snapshot(r: nat)                // statistics are read from r
    | Built(n: nat)                   // a reload built n, with a count of 1
    | Handing(n: nat)                 // n is in the slot
    | Reffed(n: nat)                  // n is referenced for the probe thread
    | Locked(n: nat)
    | Seen(n: nat, prev: nat)
    | Swapped(prev: nat)
    | Dropping(r: nat, next: Then)    // about to lower the count of r
    | Freeing(r: nat, next: Then)     // the count was 1
    | Joining                         // the probe thread has been told to stop
    | Destroying
    | Over

  /** Where the probe thread is. */
  datatype Probe =
    | Unborn
    | Checking
    | Waiting               // wants the lock
    | Inside                // has it
    | Looking(r: nat)       // has read the current router
    | Taken(r: nat)         // has referenced it, still inside
    | Probing(r: nat)
    | Leaving(r: nat)
    | Reaping(r: nat)
    | Gone

  datatype Owner = Nobody | TheLoop | TheProbe

  datatype World = World(
    refs: seq<int>,           // the count of each router
    frees: seq<nat>,          // how often each has been freed
    slot: Option<nat>,
    current: Option<nat>,     // the probe thread's router
    lock: Owner, running: bool,
    conns: multiset<nat>,     // one entry per live connection
    loop: Loop, probe: Probe)

  datatype Step =
    | BootRef | ThreadStarts | ThreadFails
    | SlotLoad(stats: bool) | SlotRef | ReadStats | StatsDone
    | Serve(r: nat) | Close(r: nat)
    | Build | Publish | HandRef | LoopLocks | LoopReads | LoopWrites | LoopUnlocks
    | LoopSub | LoopFrees
    | Stop | Join | Unpublish
    | Check(due: bool) | ProbeLocks | ProbeReads | ProbeRef | ProbeUnlocks
    | ProbeBackends | ProbeDone | ProbeSub | ProbeFrees

  predicate Enabled(s: World, step: Step) {
    match step
    case BootRef => s.loop.Boot? && s.slot.Some?
    case ThreadStarts => s.loop.Booted?
    case ThreadFails => s.loop.Booted?
    case SlotLoad(_) => s.loop.Idle? && s.slot.Some?
    case SlotRef => s.loop.Acquired?
    case ReadStats => s.loop.Snapshot?
    case StatsDone => s.loop.Snapshot?
    case Serve(r) => s.loop.Idle? && r in s.conns
    case Close(r) => s.loop.Idle? && r in s.conns
    case Build => s.loop.Idle?
    case Publish => s.loop.Built? && s.slot.Some?
    case HandRef => s.loop.Handing?
    case LoopLocks => s.loop.Reffed? && s.lock == Nobody
    case LoopReads => s.loop.Locked? && s.current.Some?
    case LoopWrites => s.loop.Seen?
    case LoopUnlocks => s.loop.Swapped?
    case LoopSub => s.loop.Dropping?
    case LoopFrees => s.loop.Freeing?
    case Stop => s.loop.Idle?
    case Join => s.loop.Joining? && s.probe.Gone? && s.current.Some?
    case Unpublish => s.loop.Destroying? && s.slot.Some?
    case Check(_) => s.probe.Checking?
    case ProbeLocks => s.probe.Waiting? && s.lock == Nobody
    case ProbeReads => s.probe.Inside? && s.current.Some?
    case ProbeRef => s.probe.Looking?
    case ProbeUnlocks => s.probe.Taken?
    case ProbeBackends => s.probe.Probing?
    case ProbeDone => s.probe.Probing?
    case ProbeSub => s.probe.Leaving?
    case ProbeFrees => s.probe.Reaping?
  }

  /** The router whose memory a step reads or writes. */
  function Touched(s: World, step: Step): Option<nat>
    requires Enabled(s, step)
  {
    match step
    case BootRef => s.slot
    case SlotRef => Some(s.loop.r)
    case ReadStats => Some(s.loop.r)
    case Serve(r) => Some(r)
    case Close(r) => Some(r)                       // closing tells the server of a pool of this router
    case HandRef => Some(s.loop.n)
    case LoopSub => Some(s.loop.r)
    case LoopFrees => Some(s.loop.r)
    case ProbeRef => Some(s.probe.r)
    case ProbeBackends => Some(s.probe.r)
    case ProbeSub => Some(s.probe.r)
    case ProbeFrees => Some(s.probe.r)
    case _ => None
  }

  function Bump(refs: seq<int>, r: nat, d: int): (b: seq<int>)
    ensures |b| == |refs|
  {
    if r < |refs| then refs[r := refs[r] + d] else refs
  }

  function Freed(frees: seq<nat>, r: nat): (f: seq<nat>)
    ensures |f| == |frees|
  {
    if r < |frees| then frees[r := frees[r] + 1] else frees
  }

  function Continue(next: Then): Loop {
    match next
    case Resume => Idle
    case HandOver(n) => Handing(n)
    case DestroySlot => Destroying
    case Finish => Over
  }

  /** `refs` has no entry for a router that does not exist; a count read there is never 1. */
  function CountOf(s: World, r: nat): int {
    if r < |s.refs| then s.refs[r] else 0
  }

  function LoopNext(s: World, step: Step): World
    requires Enabled(s, step)
  {
    match step
    case BootRef => s.(refs := Bump(s.refs, s.slot.value, 1), loop := Booted(s.slot.value))
    case ThreadStarts => s.(current := Some(s.loop.r), running := true, loop := Idle, probe := Checking)
    case ThreadFails => s.(loop := Dropping(s.loop.r, DestroySlot))
    case SlotLoad(stats) => s.(loop := Acquired(s.slot.value, stats))
    case SlotRef =>
      var r := s.loop.r;
      if s.loop.stats then s.(refs := Bump(s.refs, r, 1), loop := Snapshot(r))
      else s.(refs := Bump(s.refs, r, 1), loop := Idle, conns := s.conns + multiset{r})
    case StatsDone => s.(loop := Dropping(s.loop.r, Resume))
    case Close(r) => s.(conns := s.conns - multiset{r}, loop := Dropping(r, Resume))
    case Build => s.(refs := s.refs + [1], frees := s.frees + [0], loop := Built(|s.refs|))
    case Publish => s.(slot := Some(s.loop.n), loop := Dropping(s.slot.value, HandOver(s.loop.n)))
    case HandRef => s.(refs := Bump(s.refs, s.loop.n, 1), loop := Reffed(s.loop.n))
    case LoopLocks => s.(lock := TheLoop, loop := Locked(s.loop.n))
    case LoopReads => s.(loop := Seen(s.loop.n, s.current.value))
    case LoopWrites => s.(current := Some(s.loop.n), loop := Swapped(s.loop.prev))
    case LoopUnlocks => s.(lock := Nobody, loop := Dropping(s.loop.prev, Resume))
    case LoopSub =>
      s.(refs := Bump(s.refs, s.loop.r, -1),
         loop := if CountOf(s, s.loop.r) == 1 then Freeing(s.loop.r, s.loop.next) else Continue(s.loop.next))
    case LoopFrees => s.(frees := Freed(s.frees, s.loop.r), loop := Continue(s.loop.next))
    case Stop => s.(running := false, loop := Joining)
    case Join => s.(current := None, loop := Dropping(s.current.value, DestroySlot))
    case Unpublish => s.(slot := None, loop := Dropping(s.slot.value, Finish))
    case _ => s
  }

  function ProbeNext(s: World, step: Step): World
    requires Enabled(s, step)
  {
    match step
    case Check(due) => s.(probe := if !s.running then Gone else if due then Waiting else Checking)
    case ProbeLocks => s.(lock := TheProbe, probe := Inside)
    case ProbeReads => s.(probe := Looking(s.current.value))
    case ProbeRef => s.(refs := Bump(s.refs, s.probe.r, 1), probe := Taken(s.probe.r))
    case ProbeUnlocks => s.(lock := Nobody, probe := Probing(s.probe.r))
    case ProbeDone => s.(probe := Leaving(s.probe.r))
    case ProbeSub =>
      s.(refs := Bump(s.refs, s.probe.r, -1),
         probe := if CountOf(s, s.probe.r) == 1 then Reaping(s.probe.r) else Checking)
    case ProbeFrees => s.(frees := Freed(s.frees, s.probe.r), probe := Checking)
    case _ => s
  }

  predicate ByProbe(step: Step) {
    step.Check? || step.ProbeLocks? || step.ProbeReads? || step.ProbeRef? || step.ProbeUnlocks? ||
    step.ProbeBackends? || step.ProbeDone? || step.ProbeSub? || step.ProbeFrees?
  }

  function Next(s: World, step: Step): World
    requires Enabled(s, step)
  {
    if ByProbe(step) then ProbeNext(s, step) else LoopNext(s, step)
  }

  ghost predicate Start(s: World) {
    && s.refs == [1] && s.frees == [0] && s.slot == Some(0) && s.current == None && s.lock == Nobody
    && s.conns == multiset{} && s.loop == Boot && s.probe == Unborn
  }

  ghost predicate Run(states: seq<World>, steps: seq<Step>) {
    && |states| == |steps| + 1 && Start(states[0])
    && forall t :: 0 <= t < |steps| ==> Enabled(states[t], steps[t]) && states[t + 1] == Next(states[t], steps[t])
  }

  // ----- who holds what ------------------------------------------------------------------------------

  function One(b: bool): nat {
    if b then 1 else 0
  }

  /** The references the event loop itself carries between two steps. */
  function InLoop(pc: Loop, r: nat): nat {
    match pc
    case Booted(x) => One(x == r)
    case Snapshot(x) => One(x == r)
    case Built(x) => One(x == r)
    case Reffed(x) => One(x == r)
    case Locked(x) => One(x == r)
    case Seen(x, _) => One(x == r)
    case Swapped(x) => One(x == r)
    case Dropping(x, _) => One(x == r)
    case _ => 0
  }

  function InProbe(pc: Probe, r: nat): nat {
    match pc
    case Taken(x) => One(x == r)
    case Probing(x) => One(x == r)
    case Leaving(x) => One(x == r)
    case _ => 0
  }

  /** Everybody who holds a reference to `r`. */
  function Holders(s: World, r: nat): nat {
    One(s.slot == Some(r)) + One(s.current == Some(r)) + s.conns[r] + InLoop(s.loop, r) + InProbe(s.probe, r)
  }

  function BeingFreed(s: World, r: nat): nat {
    One(s.loop.Freeing? && s.loop.r == r) + One(s.probe.Reaping? && s.probe.r == r)
  }

  ghost predicate Accounted(s: World, r: nat)
    requires r < |s.refs| == |s.frees|
  {
    && s.refs[r] == Holders(s, r)
    && s.frees[r] + BeingFreed(s, r) == One(Holders(s, r) == 0)
  }

  ghost predicate LoopOk(s: World) {
    && (s.slot.Some? ==> s.slot.value < |s.refs|) && (s.current.Some? ==> s.current.value < |s.refs|)
    && (s.lock == TheLoop <==> s.loop.Locked? || s.loop.Seen? || s.loop.Swapped?)
    && match s.loop
       case Boot => s.slot.Some? && s.current == None && s.probe.Unborn?
       case Booted(r) => r < |s.refs| && s.slot == Some(r) && s.current == None && s.probe.Unborn?
       case Idle => s.slot.Some? && s.current == s.slot && s.running
       case Acquired(r, _) => s.slot == Some(r) && s.current == s.slot && s.running
       case Snapshot(r) => r < |s.refs| && s.slot.Some? && s.current == s.slot && s.running
       case Built(n) => n < |s.refs| && s.slot.Some? && s.current == s.slot && s.running
       case Handing(n) => s.slot == Some(n) && s.current.Some? && s.running
       case Reffed(n) => s.slot == Some(n) && s.current.Some? && s.running
       case Locked(n) => s.slot == Some(n) && s.current.Some? && s.running
       case Seen(n, prev) => s.slot == Some(n) && s.current == Some(prev) && s.running
       case Swapped(prev) => prev < |s.refs| && s.slot.Some? && s.current == s.slot && s.running
       case Dropping(r, next) => r < |s.refs| && ThenOk(s, next)
       case Freeing(r, next) => r < |s.refs| && ThenOk(s, next)
       case Joining => s.slot.Some? && s.current == s.slot && !s.running
       case Destroying => s.slot.Some? && s.current == None && (s.probe.Unborn? || s.probe.Gone?)
       case Over => s.slot == s.current == None && (s.probe.Unborn? || s.probe.Gone?)
  }

  ghost predicate ThenOk(s: World, next: Then) {
    match next
    case Resume => s.slot.Some? && s.current == s.slot && s.running
    case HandOver(n) => s.slot == Some(n) && s.current.Some? && s.running
    case DestroySlot => s.slot.Some? && s.current == None && (s.probe.Unborn? || s.probe.Gone?)
    case Finish => s.slot == s.current == None && (s.probe.Unborn? || s.probe.Gone?)
  }

  ghost predicate ProbeOk(s: World) {
    && (s.lock == TheProbe <==> s.probe.Inside? || s.probe.Looking? || s.probe.Taken?)
    && (!s.probe.Unborn? && !s.probe.Gone? ==> s.current.Some?)
    && (s.probe.Gone? ==> !s.running)
    && match s.probe
       case Looking(r) => s.current == Some(r)
       case Taken(r) => r < |s.refs|
       case Probing(r) => r < |s.refs|
       case Leaving(r) => r < |s.refs|
       case Reaping(r) => r < |s.refs|
       case _ => true
  }

  ghost predicate Safe(s: World) {
    && |s.frees| == |s.refs| && (forall r :: r in s.conns ==> r < |s.refs|)
    && LoopOk(s) && ProbeOk(s)
    && forall r :: 0 <= r < |s.refs| ==> Accounted(s, r)
  }

  // ----- every step keeps the accounts -----------------------------------------------------------------

  lemma KeepProbe(s: World, step: Step)
    requires Safe(s) && Enabled(s, step) && ByProbe(step)
    ensures Safe(ProbeNext(s, step))
  {
    KeepProbeAccounts(s, step);
    KeepProbePlaces(s, step);
  }

  lemma KeepProbeAccounts(s: World, step: Step)
    requires Safe(s) && Enabled(s, step) && ByProbe(step)
    ensures var n := ProbeNext(s, step);
            |n.frees| == |n.refs| == |s.refs| && forall r :: 0 <= r < |n.refs| ==> Accounted(n, r)
  {
    hide LoopOk;
    var n := ProbeNext(s, step);
    forall r | 0 <= r < |n.refs| ensures Accounted(n, r) {
      assert Accounted(s, r);
    }
  }

  lemma KeepProbePlaces(s: World, step: Step)
    requires Safe(s) && Enabled(s, step) && ByProbe(step)
    ensures var n := ProbeNext(s, step);
            n.conns == s.conns && |n.refs| == |s.refs| && LoopOk(n) && ProbeOk(n)
  {
    hide Accounted;
  }

  /** The steps of the event loop that raise or lower a count, or free. */
  predicate Counts(step: Step) {
    step.BootRef? || step.SlotRef? || step.HandRef? || step.Build? || step.LoopSub? || step.LoopFrees?
  }

  lemma KeepRaises(s: World, step: Step, r: nat)
    requires Safe(s) && Enabled(s, step) && (step.BootRef? || step.HandRef? || step.Build?) && r < |s.refs|
    ensures var n := LoopNext(s, step); |n.refs| == |n.frees| && r < |n.refs| && Accounted(n, r)
  {
    hide ProbeOk;
    assert Accounted(s, r);
  }

  lemma KeepAcquires(s: World, step: Step, r: nat)
    requires Safe(s) && Enabled(s, step) && step.SlotRef? && r < |s.refs|
    ensures var n := LoopNext(s, step); |n.refs| == |n.frees| && r < |n.refs| && Accounted(n, r)
  {
    hide ProbeOk;
    assert Accounted(s, r);
  }

  lemma KeepDrops(s: World, step: Step, r: nat)
    requires Safe(s) && Enabled(s, step) && step.LoopSub? && r < |s.refs|
    ensures var n := LoopNext(s, step); |n.refs| == |n.frees| && r < |n.refs| && Accounted(n, r)
  {
    hide ProbeOk, ThenOk;
    assert Accounted(s, r);
  }

  lemma KeepFrees(s: World, step: Step, r: nat)
    requires Safe(s) && Enabled(s, step) && step.LoopFrees? && r < |s.refs|
    ensures var n := LoopNext(s, step); |n.refs| == |n.frees| && r < |n.refs| && Accounted(n, r)
  {
    hide ProbeOk, ThenOk;
    assert Accounted(s, r);
  }

  lemma KeepBuilt(s: World, step: Step)
    requires Safe(s) && Enabled(s, step) && step.Build?
    ensures var n := LoopNext(s, step); |n.refs| == |n.frees| == |s.refs| + 1 && Accounted(n, |s.refs|)
  {
  }

  lemma KeepCloses(s: World, step: Step, r: nat)
    requires Safe(s) && Enabled(s, step) && step.Close? && r < |s.refs|
    ensures var n := LoopNext(s, step); n.refs == s.refs && n.frees == s.frees && Accounted(n, r)
  {
    hide ProbeOk, LoopOk;
    assert Accounted(s, r);
  }

  predicate Locks(step: Step) {
    step.LoopLocks? || step.LoopReads? || step.LoopWrites? || step.LoopUnlocks? || step.Stop? || step.Join?
  }

  lemma KeepLocks(s: World, step: Step, r: nat)
    requires Safe(s) && Enabled(s, step) && Locks(step) && !step.LoopWrites? && !step.Join? && r < |s.refs|
    ensures var n := LoopNext(s, step); n.refs == s.refs && n.frees == s.frees && Accounted(n, r)
  {
    hide ProbeOk, ThenOk, LoopOk;
    assert Accounted(s, r);
  }

  lemma KeepSwaps(s: World, step: Step, r: nat)
    requires Safe(s) && Enabled(s, step) && (step.LoopWrites? || step.Join?) && r < |s.refs|
    ensures var n := LoopNext(s, step); n.refs == s.refs && n.frees == s.frees && Accounted(n, r)
  {
    hide ProbeOk, ThenOk;
    assert Accounted(s, r);
  }

  lemma KeepHolders(s: World, step: Step, r: nat)
    requires Safe(s) && Enabled(s, step) && !ByProbe(step) && !Counts(step) && !Locks(step) && !step.Close?
    requires r < |s.refs|
    ensures var n := LoopNext(s, step); n.refs == s.refs && n.frees == s.frees && Accounted(n, r)
  {
    hide ProbeOk, ThenOk;
    assert Accounted(s, r);
  }

  lemma KeepAccounts(s: World, step: Step)
    requires Safe(s) && Enabled(s, step) && !ByProbe(step)
    ensures var n := LoopNext(s, step);
            |n.frees| == |n.refs| && forall r :: 0 <= r < |n.refs| ==> Accounted(n, r)
  {
    hide Enabled, LoopNext, Accounted;
    var n := LoopNext(s, step);
    Sizes(s, step);
    forall r | 0 <= r < |n.refs| ensures Accounted(n, r) {
      if r == |s.refs| {
        KeepBuilt(s, step);
      } else if step.LoopSub? {
        KeepDrops(s, step, r);
      } else if step.LoopFrees? {
        KeepFrees(s, step, r);
      } else if step.SlotRef? {
        KeepAcquires(s, step, r);
      } else if Counts(step) {
        KeepRaises(s, step, r);
      } else if step.Close? {
        KeepCloses(s, step, r);
      } else if Locks(step) {
        if step.LoopWrites? || step.Join? {
          KeepSwaps(s, step, r);
        } else {
          KeepLocks(s, step, r);
        }
      } else {
        KeepHolders(s, step, r);
      }
    }
  }

  lemma Sizes(s: World, step: Step)
    requires Enabled(s, step) && |s.frees| == |s.refs|
    ensures var n := LoopNext(s, step);
            |n.frees| == |n.refs| == |s.refs| + (if step.Build? then 1 else 0)
  {
  }

  ghost predicate PlacesOk(s: World) {
    LoopOk(s) && ProbeOk(s) && forall r :: r in s.conns ==> r < |s.refs|
  }

  lemma KeepRaisePlaces(s: World, step: Step)
    requires Safe(s) && Enabled(s, step) && (step.BootRef? || step.HandRef? || step.Build? || step.SlotRef?)
    ensures PlacesOk(LoopNext(s, step))
  {
    hide Accounted;
  }

  lemma KeepSubPlaces(s: World, step: Step)
    requires Safe(s) && Enabled(s, step) && step.LoopSub?
    ensures PlacesOk(LoopNext(s, step))
  {
    hide Accounted;
  }

  lemma KeepFreePlaces(s: World, step: Step)
    requires Safe(s) && Enabled(s, step) && step.LoopFrees?
    ensures PlacesOk(LoopNext(s, step))
  {
    hide Accounted;
  }

  lemma KeepSwapPlaces(s: World, step: Step)
    requires Safe(s) && Enabled(s, step) && Locks(step)
    ensures PlacesOk(LoopNext(s, step))
  {
    hide Accounted;
  }

  lemma KeepHolderPlaces(s: World, step: Step)
    requires Safe(s) && Enabled(s, step) && !ByProbe(step) && !Counts(step) && !Locks(step)
    ensures PlacesOk(LoopNext(s, step))
  {
    hide Accounted;
  }

  lemma StepKeepsSafe(s: World, step: Step)
    requires Safe(s) && Enabled(s, step)
    ensures Safe(Next(s, step))
  {
    if ByProbe(step) {
      KeepProbe(s, step);
    } else {
      hide Enabled, LoopNext, ProbeNext, Accounted, LoopOk, ProbeOk;
      KeepAccounts(s, step);
      if step.LoopSub? {
        KeepSubPlaces(s, step);
      } else if step.LoopFrees? {
        KeepFreePlaces(s, step);
      } else if Counts(step) {
        KeepRaisePlaces(s, step);
      } else if Locks(step) {
        KeepSwapPlaces(s, step);
      } else {
        KeepHolderPlaces(s, step);
      }
    }
  }

  lemma {:induction false} RunSafe(states: seq<World>, steps: seq<Step>, t: nat)
    requires Run(states, steps) && t <= |steps|
    ensures Safe(states[t])
  {
    hide Enabled, Next;
    if t > 0 {
      hide Safe;
      RunSafe(states, steps, t - 1);
      StepKeepsSafe(states[t - 1], steps[t - 1]);
    }
  }

  // ----- the lifetime of a router -----------------------------------------------------------------------

  /** In every interleaving, the count of a router is the number of its holders: the slot, the probe
      thread's current router, the live connections, and whatever either thread is carrying. */
  lemma CountsAreHolders(states: seq<World>, steps: seq<Step>, t: nat, r: nat)
    requires Run(states, steps) && t <= |steps| && r < |states[t].refs|
    ensures states[t].refs[r] == Holders(states[t], r)
  {
    hide Enabled, Next;
    RunSafe(states, steps, t);
    assert Accounted(states[t], r);
  }

  /** No step of either thread reads or writes a router that has been freed. */
  lemma NoUseAfterFree(states: seq<World>, steps: seq<Step>, t: nat)
    requires Run(states, steps) && t < |steps|
    ensures var s := states[t]; var r := Touched(s, steps[t]);
            r.Some? ==> r.value < |s.frees| && s.frees[r.value] == 0
  {
    hide Next;
    RunSafe(states, steps, t);
    var s := states[t];
    var r := Touched(s, steps[t]);
    if r.Some? {
      assert r.value < |s.refs|;
      assert Accounted(s, r.value);
    }
  }

  /** A router is freed once, by whichever thread leaves last: it has been freed, or is being freed
      by exactly one thread, when and only when nobody holds it. */
  lemma FreedOnceAtTheEnd(states: seq<World>, steps: seq<Step>, t: nat, r: nat)
    requires Run(states, steps) && t <= |steps| && r < |states[t].refs|
    ensures r < |states[t].frees| && states[t].frees[r] + BeingFreed(states[t], r) <= 1
    ensures states[t].frees[r] + BeingFreed(states[t], r) == 1 <==> Holders(states[t], r) == 0
  {
    hide Enabled, Next;
    RunSafe(states, steps, t);
    assert Accounted(states[t], r);
  }

  /** The pointers are never null where a step needs one: no behaviour is left out by `Enabled`. */
  lemma NeverNull(states: seq<World>, steps: seq<Step>, t: nat)
    requires Run(states, steps) && t <= |steps|
    ensures var s := states[t];
            && (s.loop.Boot? || s.loop.Idle? || s.loop.Built? || s.loop.Destroying? ==> s.slot.Some?)
            && (s.loop.Locked? || s.loop.Joining? || s.probe.Inside? ==> s.current.Some?)
  {
    hide Enabled, Next, Accounted;
    RunSafe(states, steps, t);
  }

  /** Whenever the event loop waits for events the probes work on the published router, and the
      routers of all live connections are intact. */
  lemma BetweenEvents(states: seq<World>, steps: seq<Step>, t: nat)
    requires Run(states, steps) && t <= |steps| && states[t].loop.Idle?
    ensures states[t].current == states[t].slot
    ensures forall r :: r in states[t].conns ==> r < |states[t].frees| && states[t].frees[r] == 0
  {
    hide Enabled, Next;
    RunSafe(states, steps, t);
    forall r | r in states[t].conns ensures r < |states[t].frees| && states[t].frees[r] == 0 {
      assert Accounted(states[t], r);
    }
  }

  /** After the shutdown every router has been freed, except those of connections that were still
      open: the manager frees the idle connections only. */
  lemma AfterShutdown(states: seq<World>, steps: seq<Step>, t: nat, r: nat)
    requires Run(states, steps) && t <= |steps| && states[t].loop.Over? && r < |states[t].refs|
    ensures r < |states[t].frees| && states[t].frees[r] == (if states[t].conns[r] == 0 then 1 else 0)
  {
    hide Enabled, Next;
    RunSafe(states, steps, t);
    assert Accounted(states[t], r);
  }
}
