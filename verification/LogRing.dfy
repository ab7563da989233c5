/** The log ring: producers that never block and one consumer thread, sharing 4096 slots and two
    64-bit counters that wrap.  A step is one load or store of a shared variable; the
    acquire/release pairs of the source make the steps sequentially consistent. */
module LogRing {
  const SLOTS := 4096
  const U64 := 0x1_0000_0000_0000_0000

  datatype Slot = Slot(text: string, len: nat)

  /** Where a call of `log_write` is. */
  datatype Producer =
    | Idle
    | Passed(msg: string)                          // the level admits the message
    | HeadLoaded(msg: string, head: nat)
    | TailLoaded(msg: string, head: nat, tail: nat)
    | TextWritten(msg: string, head: nat)
    | LenWritten(msg: string, head: nat)

  /** Where the consumer thread is; `last` marks the drain after `running` was found false. */
  datatype Consumer =
    | Checking
    | Draining(last: bool)
    | GotTail(last: bool, tail: nat)
    | Looping(last: bool, tail: nat, head: nat)
    | Handed(last: bool, tail: nat, head: nat)     // a slot has been handed to the writer
    | Exited

  datatype Ring = Ring(
    slots: seq<Slot>, head: nat, tail: nat, dropped: nat, level: int, running: bool,
    producers: seq<Producer>, consumer: Consumer,
    // what has happened: messages above the level, messages published, lines handed to the writer,
    // messages dropped, and how many messages have been published and released
    attempts: nat, accepted: seq<string>, written: seq<string>, drops: nat, published: nat, released: nat)

  datatype Step =
    | SetLevel(l: int)
    | Begin(p: nat, l: int, msg: string)
    | LoadHead(p: nat) | LoadTail(p: nat) | Drop(p: nat)
    | WriteText(p: nat) | WriteLen(p: nat) | Publish(p: nat)
    | Stop                                         // log_shutdown clears `running`
    | CheckRunning | LoadOwnTail | LoadTheirHead | Hand | Release | EndDrain

  /** Subtraction of two 64-bit counters. */
  function Minus(a: nat, b: nat): nat {
    (a - b) % U64
  }

  predicate Enabled(s: Ring, step: Step) {
    match step
    case SetLevel(_) => true
    case Begin(p, _, _) => p < |s.producers| && s.producers[p].Idle?
    case LoadHead(p) => p < |s.producers| && s.producers[p].Passed?
    case LoadTail(p) => p < |s.producers| && s.producers[p].HeadLoaded?
    case Drop(p) => p < |s.producers| && s.producers[p].TailLoaded? && Minus(s.producers[p].head, s.producers[p].tail) >= SLOTS
    case WriteText(p) => p < |s.producers| && s.producers[p].TailLoaded? && Minus(s.producers[p].head, s.producers[p].tail) < SLOTS
    case WriteLen(p) => p < |s.producers| && s.producers[p].TextWritten?
    case Publish(p) => p < |s.producers| && s.producers[p].LenWritten?
    case Stop => s.running
    case CheckRunning => s.consumer.Checking?
    case LoadOwnTail => s.consumer.Draining?
    case LoadTheirHead => s.consumer.GotTail?
    case Hand => s.consumer.Looping? && s.consumer.tail != s.consumer.head
    case Release => s.consumer.Handed?
    case EndDrain => s.consumer.Looping? && s.consumer.tail == s.consumer.head
  }

  function Place(counter: nat): (i: nat)
    ensures i < SLOTS
  {
    counter % SLOTS
  }

  function At(s: Ring, p: nat, pc: Producer): Ring
    requires p < |s.producers|
  {
    s.(producers := s.producers[p := pc])
  }

  /** What the writer is handed for a slot. */
  function LineOf(slot: Slot): string {
    if slot.len <= |slot.text| then slot.text[..slot.len] else slot.text
  }

  function Next(s: Ring, step: Step): Ring
    requires Enabled(s, step) && |s.slots| == SLOTS
  {
    match step
    case SetLevel(l) => s.(level := l)
    case Begin(p, l, msg) => if l < s.level then s else At(s, p, Passed(msg)).(attempts := s.attempts + 1)
    case LoadHead(p) => At(s, p, HeadLoaded(s.producers[p].msg, s.head))
    case LoadTail(p) => At(s, p, TailLoaded(s.producers[p].msg, s.producers[p].head, s.tail))
    case Drop(p) => At(s, p, Idle).(dropped := (s.dropped + 1) % U64, drops := s.drops + 1)
    case WriteText(p) =>
      var c := s.producers[p];
      var i := Place(c.head);
      At(s, p, TextWritten(c.msg, c.head)).(slots := s.slots[i := s.slots[i].(text := c.msg)])
    case WriteLen(p) =>
      var c := s.producers[p];
      var i := Place(c.head);
      At(s, p, LenWritten(c.msg, c.head)).(slots := s.slots[i := s.slots[i].(len := |c.msg|)])
    case Publish(p) =>
      var c := s.producers[p];
      At(s, p, Idle).(head := (c.head + 1) % U64, accepted := s.accepted + [c.msg], published := s.published + 1)
    case Stop => s.(running := false)
    case CheckRunning => s.(consumer := Draining(!s.running))
    case LoadOwnTail => s.(consumer := GotTail(s.consumer.last, s.tail))
    case LoadTheirHead => s.(consumer := Looping(s.consumer.last, s.consumer.tail, s.head))
    case Hand =>
      var c := s.consumer;
      var slot := s.slots[Place(c.tail)];
      s.(consumer := Handed(c.last, c.tail, c.head),
         written := s.written + [LineOf(slot)])
    case Release =>
      var c := s.consumer;
      var t := (c.tail + 1) % U64;
      s.(consumer := Looping(c.last, t, c.head), tail := t, released := s.released + 1)
    case EndDrain => s.(consumer := if s.consumer.last then Exited else Checking)
  }

  ghost predicate Start(s: Ring) {
    && |s.slots| == SLOTS && s.head == s.tail == s.dropped == 0 && s.running
    && (forall p <- s.producers :: p.Idle?) && s.consumer.Checking?
    && s.attempts == s.drops == s.published == s.released == 0 && s.accepted == s.written == []
  }

  /** A call between its load of the head and its publication. */
  predicate InWindow(c: Producer) {
    c.HeadLoaded? || c.TailLoaded? || c.TextWritten? || c.LenWritten?
  }

  /** The windows of two calls do not overlap; the calls themselves may. */
  ghost predicate Disjoint(s: Ring, step: Step) {
    step.LoadHead? ==> forall p :: 0 <= p < |s.producers| ==> !InWindow(s.producers[p])
  }

  /** Windows may overlap, but none begins while another holds a head that has moved on. */
  ghost predicate Grouped(s: Ring, step: Step) {
    step.LoadHead? ==> forall p :: 0 <= p < |s.producers| && InWindow(s.producers[p]) ==> s.producers[p].head == s.head
  }

  /** Nobody is writing when the log is shut down, and nobody writes afterwards. */
  ghost predicate Calm(s: Ring, step: Step) {
    && (step.Stop? ==> forall p :: 0 <= p < |s.producers| ==> s.producers[p].Idle?)
    && (step.Begin? ==> s.running)
  }

  ghost predicate Run(states: seq<Ring>, steps: seq<Step>) {
    && |states| == |steps| + 1 && Start(states[0])
    && forall t :: 0 <= t < |steps| ==>
         |states[t].slots| == SLOTS && Enabled(states[t], steps[t]) && states[t + 1] == Next(states[t], steps[t])
  }

  // ----- the level ------------------------------------------------------------------------------------

  /** The calls among the first t steps of a run whose level is at least the one set at that moment. */
  function Admitted(states: seq<Ring>, steps: seq<Step>, t: nat): nat
    requires t <= |steps| && |states| == |steps| + 1
  {
    if t == 0 then 0
    else Admitted(states, steps, t - 1) + if steps[t - 1].Begin? && steps[t - 1].l >= states[t - 1].level then 1 else 0
  }

  /** In every run: exactly the calls at or above the level set at that moment are attempts to log, and a
      call below it leaves everything as it is. */
  lemma {:induction false} AttemptsAdmitted(states: seq<Ring>, steps: seq<Step>, t: nat)
    requires Run(states, steps) && t <= |steps|
    ensures states[t].attempts == Admitted(states, steps, t)
    ensures t > 0 && steps[t - 1].Begin? && steps[t - 1].l < states[t - 1].level ==> states[t] == states[t - 1]
    ensures t > 0 && steps[t - 1].Begin? && steps[t - 1].l >= states[t - 1].level ==>
              steps[t - 1].p < |states[t].producers| && states[t].producers[steps[t - 1].p] == Passed(steps[t - 1].msg)
  {
    if t > 0 {
      AttemptsAdmitted(states, steps, t - 1);
    }
  }

  // ----- the counters, whatever overlaps in groups ---------------------------------------------------

  /** The calls under way. */
  function InFlight(producers: seq<Producer>): nat {
    if producers == [] then 0 else (if producers[0].Idle? then 0 else 1) + InFlight(producers[1..])
  }

  lemma {:induction false} InFlightAfter(producers: seq<Producer>, p: nat, c: Producer)
    requires p < |producers|
    ensures InFlight(producers[p := c]) ==
            InFlight(producers) + (if c.Idle? then 0 else 1) - (if producers[p].Idle? then 0 else 1)
  {
    if p > 0 {
      InFlightAfter(producers[1..], p - 1, c);
      assert producers[p := c][1..] == producers[1..][p - 1 := c];
    } else {
      assert producers[p := c][1..] == producers[1..];
    }
  }

  lemma {:induction false} NoneInFlight(producers: seq<Producer>)
    requires forall p :: 0 <= p < |producers| ==> producers[p].Idle?
    ensures InFlight(producers) == 0
  {
    if producers != [] {
      NoneInFlight(producers[1..]);
    }
  }

  /** A publication that does not move the head: another call has published at the same place. */
  predicate Stale(s: Ring, step: Step)
    requires Enabled(s, step)
  {
    step.Publish? && s.producers[step.p].head != s.head
  }

  /** What a call under way knows, when the head has moved `eff` times. */
  ghost predicate ProducerOk(s: Ring, c: Producer, eff: nat) {
    InWindow(c) ==>
      && (c.head == s.head || (eff >= 1 && c.head == (eff - 1) % U64))
      && (c.head == s.head && c.TailLoaded? ==> Minus(c.head, c.tail) <= SLOTS && eff <= s.released + Minus(c.head, c.tail))
      && (c.head == s.head && (c.TextWritten? || c.LenWritten?) ==> eff < s.released + SLOTS)
  }

  ghost predicate ConsumerOk(s: Ring, eff: nat) {
    match s.consumer
    case Checking => |s.written| == s.released
    case Draining(_) => |s.written| == s.released
    case GotTail(_, t) => |s.written| == s.released && t == s.tail
    case Looping(_, t, h) =>
      |s.written| == s.released && t == s.tail && h < U64 && Minus(h, t) <= SLOTS && s.released + Minus(h, t) <= eff
    case Handed(_, t, h) =>
      |s.written| == s.released + 1 && t == s.tail && h < U64 && 0 < Minus(h, t) <= SLOTS && s.released + Minus(h, t) <= eff
    case Exited => |s.written| == s.released
  }

  /** All windows hold one head. */
  ghost predicate OneHead(s: Ring) {
    forall p, q :: 0 <= p < |s.producers| && 0 <= q < |s.producers| && InWindow(s.producers[p]) && InWindow(s.producers[q]) ==>
      s.producers[p].head == s.producers[q].head
  }

  /** The counters, when `lost` publications have not moved the head. */
  ghost predicate CountSafe(s: Ring, lost: nat) {
    && |s.slots| == SLOTS && lost <= s.published
    && s.head == (s.published - lost) % U64 && s.tail == s.released % U64 && s.dropped == s.drops % U64
    && s.released <= s.published - lost <= s.released + SLOTS
    && |s.accepted| == s.published && s.attempts == s.published + s.drops + InFlight(s.producers)
    && OneHead(s) && (forall p :: 0 <= p < |s.producers| ==> ProducerOk(s, s.producers[p], s.published - lost))
    && ConsumerOk(s, s.published - lost)
  }

  lemma StartCounts(s: Ring)
    requires Start(s)
    ensures CountSafe(s, 0)
  {
    forall p | 0 <= p < |s.producers| ensures s.producers[p].Idle? {
      assert s.producers[p] in s.producers;
    }
    NoneInFlight(s.producers);
  }

  /** Wrapping the counters never moves a slot. */
  lemma PlaceWraps(n: nat)
    ensures Place(n % U64) == Place(n)
  {
    assert U64 == SLOTS * 0x10_0000_0000_0000;
  }

  lemma Distinct(k: nat, h: nat)
    requires k < h < k + SLOTS
    ensures Place(k) != Place(h)
  {
  }

  lemma MinusWraps(a: nat, b: nat)
    requires b <= a < b + U64
    ensures Minus(a % U64, b % U64) == a - b
  {
  }

  lemma MinusPositive(h: nat, t: nat)
    requires h < U64 && t < U64 && h != t
    ensures Minus(h, t) > 0
  {
  }

  lemma MinusStep(h: nat, t: nat)
    requires h < U64 && t < U64 && Minus(h, t) > 0
    ensures Minus(h, (t + 1) % U64) == Minus(h, t) - 1
  {
  }

  lemma NextWraps(n: nat)
    ensures (n % U64 + 1) % U64 == (n + 1) % U64 && n % U64 != (n + 1) % U64
  {
  }

  lemma CountBegin(s: Ring, step: Step, lost: nat)
    requires CountSafe(s, lost) && Enabled(s, step) && (step.Begin? || step.Stop? || step.SetLevel?)
    ensures CountSafe(Next(s, step), lost)
  {
    hide Minus;
    if step.Begin? && step.l >= s.level {
      InFlightAfter(s.producers, step.p, Passed(step.msg));
    }
    var r := Next(s, step);
    forall p | 0 <= p < |r.producers| ensures ProducerOk(r, r.producers[p], r.published - lost) {
      assert ProducerOk(s, s.producers[p], s.published - lost);
    }
  }

  lemma CountLoadHead(s: Ring, step: Step, lost: nat)
    requires CountSafe(s, lost) && Enabled(s, step) && Grouped(s, step) && step.LoadHead?
    ensures CountSafe(Next(s, step), lost)
  {
    hide Minus;
    InFlightAfter(s.producers, step.p, Next(s, step).producers[step.p]);
    var r := Next(s, step);
    forall p | 0 <= p < |r.producers| ensures ProducerOk(r, r.producers[p], r.published - lost) {
      assert ProducerOk(s, s.producers[p], s.published - lost);
    }
  }

  /** The windows left after a step of a call that loads no head and publishes nothing. */
  lemma SameWindows(s: Ring, step: Step, lost: nat)
    requires CountSafe(s, lost) && Enabled(s, step) && (step.LoadTail? || step.Drop? || step.WriteText? || step.WriteLen?)
    ensures OneHead(Next(s, step))
  {
    hide Minus, Place, ProducerOk, ConsumerOk;
    var r := Next(s, step);
    forall p | 0 <= p < |r.producers| && InWindow(r.producers[p])
      ensures InWindow(s.producers[p]) && r.producers[p].head == s.producers[p].head
    {
    }
  }

  lemma CountLoadTail(s: Ring, step: Step, lost: nat)
    requires CountSafe(s, lost) && Enabled(s, step) && (step.LoadTail? || step.Drop?)
    ensures CountSafe(Next(s, step), lost)
  {
    SameWindows(s, step, lost);
    hide Minus, Place, OneHead;
    InFlightAfter(s.producers, step.p, Next(s, step).producers[step.p]);
    NextWraps(s.drops);
    MinusWraps(s.published - lost, s.released);
    var r := Next(s, step);
    forall p | 0 <= p < |r.producers| ensures ProducerOk(r, r.producers[p], r.published - lost) {
      assert ProducerOk(s, s.producers[p], s.published - lost);
    }
  }

  lemma CountWrite(s: Ring, step: Step, lost: nat)
    requires CountSafe(s, lost) && Enabled(s, step) && (step.WriteText? || step.WriteLen?)
    ensures CountSafe(Next(s, step), lost)
  {
    SameWindows(s, step, lost);
    hide Minus, Place, OneHead;
    InFlightAfter(s.producers, step.p, Next(s, step).producers[step.p]);
    var r := Next(s, step);
    forall p | 0 <= p < |r.producers| ensures ProducerOk(r, r.producers[p], r.published - lost) {
      assert ProducerOk(s, s.producers[p], s.published - lost);
    }
  }

  /** The calls that are left hold the head of before the publication. */
  lemma ProducersAfterPublish(s: Ring, step: Step, lost: nat)
    requires CountSafe(s, lost) && Enabled(s, step) && step.Publish?
    ensures var r := Next(s, step); var eff := s.published - lost + if Stale(s, step) then 0 else 1;
            && r.head == eff % U64 && OneHead(r)
            && forall p :: 0 <= p < |r.producers| ==> ProducerOk(r, r.producers[p], eff)
  {
    hide Minus, Place, ConsumerOk;
    var c := s.producers[step.p];
    assert ProducerOk(s, c, s.published - lost);
    NextWraps(s.published - lost);
    if Stale(s, step) {
      NextWraps(s.published - lost - 1);
    }
    var r := Next(s, step);
    forall p | 0 <= p < |r.producers|
      ensures InWindow(r.producers[p]) ==> r.producers[p] == s.producers[p] && r.producers[p].head == c.head
      ensures ProducerOk(s, s.producers[p], s.published - lost)
    {
    }
  }

  lemma CountPublish(s: Ring, step: Step, lost: nat)
    requires CountSafe(s, lost) && Enabled(s, step) && step.Publish?
    ensures CountSafe(Next(s, step), lost + if Stale(s, step) then 1 else 0)
  {
    assert ProducerOk(s, s.producers[step.p], s.published - lost);
    ProducersAfterPublish(s, step, lost);
    hide Minus, Place, OneHead;
    InFlightAfter(s.producers, step.p, Idle);
  }

  lemma CountConsumer(s: Ring, step: Step, lost: nat)
    requires CountSafe(s, lost) && Enabled(s, step)
    requires step.CheckRunning? || step.LoadOwnTail? || step.LoadTheirHead? || step.EndDrain? || step.Hand?
    ensures CountSafe(Next(s, step), lost)
  {
    hide Place;
    MinusWraps(s.published - lost, s.released);
    if step.Hand? {
      MinusPositive(s.consumer.head, s.consumer.tail);
    }
    hide Minus;
    var r := Next(s, step);
    forall p | 0 <= p < |r.producers| ensures ProducerOk(r, r.producers[p], r.published - lost) {
      assert ProducerOk(s, s.producers[p], s.published - lost);
    }
  }

  lemma CountRelease(s: Ring, step: Step, lost: nat)
    requires CountSafe(s, lost) && Enabled(s, step) && step.Release?
    ensures CountSafe(Next(s, step), lost)
  {
    hide Place, Minus;
    var c := s.consumer;
    NextWraps(s.released);
    MinusStep(c.head, c.tail);
    var r := Next(s, step);
    forall p | 0 <= p < |r.producers| ensures ProducerOk(r, r.producers[p], r.published - lost) {
      assert ProducerOk(s, s.producers[p], s.published - lost);
    }
  }

  /** Every single step keeps the counters; a publication that does not move the head is lost to them. */
  lemma StepCounts(s: Ring, step: Step, lost: nat)
    requires CountSafe(s, lost) && Enabled(s, step) && Grouped(s, step)
    ensures CountSafe(Next(s, step), lost + if Stale(s, step) then 1 else 0)
  {
    hide Next, CountSafe, Grouped;
    match step {
      case SetLevel(_) => CountBegin(s, step, lost);
      case Begin(_, _, _) => CountBegin(s, step, lost);
      case Stop => CountBegin(s, step, lost);
      case LoadHead(_) => CountLoadHead(s, step, lost);
      case LoadTail(_) => CountLoadTail(s, step, lost);
      case Drop(_) => CountLoadTail(s, step, lost);
      case WriteText(_) => CountWrite(s, step, lost);
      case WriteLen(_) => CountWrite(s, step, lost);
      case Publish(_) => CountPublish(s, step, lost);
      case Release => CountRelease(s, step, lost);
      case _ => CountConsumer(s, step, lost);
    }
  }

  /** The publications among the first t steps of a run that did not move the head. */
  function StaleOnes(states: seq<Ring>, steps: seq<Step>, t: nat): nat
    requires t <= |steps| && |states| == |steps| + 1 && forall u :: 0 <= u < |steps| ==> Enabled(states[u], steps[u])
  {
    if t == 0 then 0 else StaleOnes(states, steps, t - 1) + if Stale(states[t - 1], steps[t - 1]) then 1 else 0
  }

  lemma {:induction false} RunCounts(states: seq<Ring>, steps: seq<Step>, t: nat)
    requires Run(states, steps) && t <= |steps|
    requires forall u :: 0 <= u < |steps| ==> Grouped(states[u], steps[u])
    ensures CountSafe(states[t], StaleOnes(states, steps, t))
  {
    hide Next, CountSafe, Enabled, Grouped, Start;
    if t == 0 {
      StartCounts(states[0]);
    } else {
      RunCounts(states, steps, t - 1);
      StepCounts(states[t - 1], steps[t - 1], StaleOnes(states, steps, t - 1));
    }
  }

  // ----- exactly which steps lose messages -------------------------------------------------------------

  /** The damaging step: as long as the head counts what has been published, a publication keeps it so
      if and only if the call holds the head as it is. */
  lemma PublishKeepsTheHead(s: Ring, p: nat)
    requires Enabled(s, Publish(p)) && |s.slots| == SLOTS && s.head == s.published % U64 && s.producers[p].head < U64
    ensures var r := Next(s, Publish(p));
            r.head == r.published % U64 <==> s.producers[p].head == s.head
  {
    NextWraps(s.published);
  }

  /** In every run in which no window begins while another holds a head that has moved on: each
      publication that does not move the head makes the lines written one fewer than the messages
      accepted, at every later moment.  Which messages the lines are is the matter of `WrittenExactly`. */
  lemma EachStalePublicationLosesOne(states: seq<Ring>, steps: seq<Step>, t: nat)
    requires Run(states, steps) && t <= |steps|
    requires forall u :: 0 <= u < |steps| ==> Grouped(states[u], steps[u])
    ensures var s, lost := states[t], StaleOnes(states, steps, t);
            && |s.written| + lost <= |s.accepted| && s.head == (|s.accepted| - lost) % U64
            && (s.head == s.tail && !s.consumer.Handed? ==>
                  |s.written| + lost == |s.accepted| && (|s.written| == |s.accepted| <==> lost == 0))
  {
    hide Next, Enabled, Grouped, Start, ProducerOk, OneHead;
    RunCounts(states, steps, t);
    var s, eff := states[t], |states[t].accepted| - StaleOnes(states, steps, t);
    if s.head == s.tail {
      SameCounter(eff, s.released);
    }
  }

  lemma SameCounter(a: nat, b: nat)
    requires b <= a <= b + SLOTS && a % U64 == b % U64
    ensures a == b
  {
    MinusWraps(a, b);
  }

  /** While a call holds a head that has moved on, no other call of its group moves it. */
  lemma StaleStays(s: Ring, step: Step, lost: nat, q: nat)
    requires CountSafe(s, lost) && Enabled(s, step) && Grouped(s, step)
    requires q < |s.producers| && InWindow(s.producers[q]) && s.producers[q].head != s.head
    ensures |Next(s, step).slots| == SLOTS && Next(s, step).head == s.head
  {
    hide Minus, Place, ProducerOk, ConsumerOk;
    if step.Publish? {
      assert InWindow(s.producers[step.p]);
      assert ProducerOk(s, s.producers[step.p], s.published - lost);
      BehindByOne(s, s.producers[step.p], s.published - lost);
    }
  }

  lemma BehindByOne(s: Ring, c: Producer, eff: nat)
    requires ProducerOk(s, c, eff) && InWindow(c) && c.head != s.head && s.head == eff % U64
    ensures (c.head + 1) % U64 == s.head
  {
    NextWraps(eff - 1);
  }

  lemma {:induction false} StillStale(states: seq<Ring>, steps: seq<Step>, t: nat, u: nat, q: nat, h: nat)
    requires Run(states, steps) && t <= u <= |steps|
    requires forall v :: 0 <= v < |steps| ==> Grouped(states[v], steps[v])
    requires forall v :: t <= v <= u ==> q < |states[v].producers| && InWindow(states[v].producers[q]) && states[v].producers[q].head == h
    requires states[t].head != h
    ensures states[u].head != h
    decreases u
  {
    hide Next, Enabled, Grouped, Start, CountSafe;
    if u > t {
      StillStale(states, steps, t, u - 1, q, h);
      RunCounts(states, steps, u - 1);
      StaleStays(states[u - 1], steps[u - 1], StaleOnes(states, steps, u - 1), q);
    }
  }

  /** Two calls that hold one head and both publish always lose a message: from the second publication
      on, fewer lines have been written than messages accepted, for ever. */
  lemma TwoCallsOneHead(states: seq<Ring>, steps: seq<Step>, t: nat, u: nat, later: nat, p: nat, q: nat)
    requires Run(states, steps) && t < u < later <= |steps|
    requires forall v :: 0 <= v < |steps| ==> Grouped(states[v], steps[v])
    requires steps[t] == Publish(p) && steps[u] == Publish(q) && p != q && p < |states[t].producers| && q < |states[t].producers|
    requires InWindow(states[t].producers[p])
    requires forall v :: t <= v <= u ==>
               && q < |states[v].producers| && InWindow(states[v].producers[q])
               && states[v].producers[q].head == states[t].producers[p].head
    ensures |states[later].written| < |states[later].accepted|
  {
    hide Next, Grouped, Start, CountSafe;
    var h := states[t].producers[p].head;
    RunCounts(states, steps, t);
    MovesOn(states[t], p, StaleOnes(states, steps, t));
    StillStale(states, steps, t + 1, u, q, h);
    assert Stale(states[u], steps[u]);
    StaleMonotone(states, steps, u + 1, later);
    EachStalePublicationLosesOne(states, steps, later);
  }

  /** Once one call has published, the head is not the one it held. */
  lemma MovesOn(s: Ring, p: nat, lost: nat)
    requires CountSafe(s, lost) && Enabled(s, Publish(p))
    ensures Next(s, Publish(p)).head != s.producers[p].head
  {
    hide Minus, Place;
    assert ProducerOk(s, s.producers[p], s.published - lost);
    NextWraps(s.published - lost);
    if s.producers[p].head != s.head {
      NextWraps(s.published - lost - 1);
    }
  }

  lemma {:induction false} StaleMonotone(states: seq<Ring>, steps: seq<Step>, t: nat, u: nat)
    requires |states| == |steps| + 1 && forall v :: 0 <= v < |steps| ==> Enabled(states[v], steps[v])
    requires t <= u <= |steps|
    ensures StaleOnes(states, steps, t) <= StaleOnes(states, steps, u)
    decreases u
  {
    hide Enabled;
    if t < u {
      StaleMonotone(states, steps, t, u - 1);
    }
  }

  // ----- the contents --------------------------------------------------------------------------------------

  /** A call past its room check: it will write its slot and publish. */
  predicate Committed(c: Producer) {
    c.TextWritten? || c.LenWritten? || (c.TailLoaded? && Minus(c.head, c.tail) < SLOTS)
  }

  /** A call is committed to a head that has moved on: it may have written, or may still write, a slot
      that is published, and it will publish at that head. */
  ghost predicate Overtaken(s: Ring) {
    exists p :: 0 <= p < |s.producers| && Committed(s.producers[p]) && s.producers[p].head != s.head
  }

  /** Another call is committed to the slot of call p. */
  ghost predicate Contended(s: Ring, p: nat) {
    exists q :: 0 <= q < |s.producers| && q != p && Committed(s.producers[q]) && s.producers[q].head == s.head
  }

  /** The slot of a call that has it for itself holds what the call has written so far. */
  ghost predicate WindowOk(s: Ring, p: nat)
    requires |s.slots| == SLOTS && p < |s.producers|
  {
    var c := s.producers[p];
    InWindow(c) && c.head == s.head && !Contended(s, p) ==>
      && (c.TextWritten? ==> s.slots[Place(c.head)].text == c.msg)
      && (c.LenWritten? ==> s.slots[Place(c.head)] == Slot(c.msg, |c.msg|))
  }

  /** The lines handed to the writer are the accepted messages, and every slot between tail and head
      holds its message. */
  ghost predicate Contents(s: Ring) {
    && |s.slots| == SLOTS && |s.accepted| == s.published
    && |s.written| <= |s.accepted| && s.written == s.accepted[..|s.written|]
    && (forall k :: s.released <= k < s.published ==> s.slots[Place(k)] == Slot(s.accepted[k], |s.accepted[k]|))
    && forall p :: 0 <= p < |s.producers| ==> WindowOk(s, p)
  }

  /** As long as no publication has been at a head that had moved on, the contents are right, unless a
      call is committed to such a publication. */
  ghost predicate Safe(s: Ring) {
    CountSafe(s, 0) && (Overtaken(s) || Contents(s))
  }

  /** The slot a call writes is none of those that are published and not yet released. */
  lemma WritesFreeSlot(s: Ring, p: nat)
    requires CountSafe(s, 0) && p < |s.producers| && Committed(s.producers[p]) && s.producers[p].head == s.head
    ensures s.published < s.released + SLOTS && Place(s.producers[p].head) == Place(s.published)
    ensures forall k :: s.released <= k < s.published ==> Place(k) != Place(s.producers[p].head)
  {
    hide Minus, OneHead, ConsumerOk;
    assert ProducerOk(s, s.producers[p], s.published);
    PlaceWraps(s.published);
    forall k | s.released <= k < s.published ensures Place(k) != Place(s.published) {
      Distinct(k, s.published);
    }
  }

  /** Who is committed to a head that has moved on stays so until it publishes there. */
  lemma OvertakenStays(s: Ring, step: Step)
    requires CountSafe(s, 0) && Overtaken(s) && Enabled(s, step) && Grouped(s, step) && !Stale(s, step)
    ensures Overtaken(Next(s, step))
  {
    hide ProducerOk, ConsumerOk, Place;
    var q :| 0 <= q < |s.producers| && Committed(s.producers[q]) && s.producers[q].head != s.head;
    StaleStays(s, step, 0, q);
    var r := Next(s, step);
    assert Committed(r.producers[q]) && r.producers[q].head == s.producers[q].head;
  }

  lemma KeepWrites(s: Ring, step: Step)
    requires CountSafe(s, 0) && Contents(s) && !Overtaken(s) && Enabled(s, step) && (step.WriteText? || step.WriteLen?)
    ensures Contents(Next(s, step))
  {
    var p, r := step.p, Next(s, step);
    assert Committed(s.producers[p]) && s.producers[p].head == s.head;
    WritesFreeSlot(s, p);
    hide CountSafe, Place, Minus;
    assert Committed(r.producers[p]);
    forall q | 0 <= q < |r.producers| ensures WindowOk(r, q) {
      assert WindowOk(s, q);
      if q == p {
        SameRivals(s, r, p);
      } else {
        assert InWindow(r.producers[q]) && r.producers[q].head == r.head ==> Contended(r, q);
      }
    }
  }

  lemma SameRivals(s: Ring, r: Ring, p: nat)
    requires |s.producers| == |r.producers| && r.head == s.head
    requires forall q :: 0 <= q < |s.producers| && q != p ==> r.producers[q] == s.producers[q]
    ensures Contended(s, p) <==> Contended(r, p)
  {
    hide Committed;
  }

  /** The slot of the call that publishes, if it has had it for itself, holds the message it adds. */
  lemma PublishFillsASlot(s: Ring, step: Step)
    requires CountSafe(s, 0) && Contents(s) && Enabled(s, step) && step.Publish? && !Stale(s, step) && !Contended(s, step.p)
    ensures var r := Next(s, step);
            && |r.accepted| == r.published
            && forall k :: r.released <= k < r.published ==> r.slots[Place(k)] == Slot(r.accepted[k], |r.accepted[k]|)
  {
    assert WindowOk(s, step.p) && Committed(s.producers[step.p]);
    WritesFreeSlot(s, step.p);
    hide Place, CountSafe;
    assert Next(s, step).accepted[s.published] == s.producers[step.p].msg;
  }

  /** The publication makes the other calls that are committed to its slot publish at an old head. */
  lemma KeepPublish(s: Ring, step: Step)
    requires CountSafe(s, 0) && Contents(s) && Enabled(s, step) && step.Publish? && !Stale(s, step)
    ensures Overtaken(Next(s, step)) || Contents(Next(s, step))
  {
    var r := Next(s, step);
    MovesOn(s, step.p, 0);
    if Contended(s, step.p) {
      var q :| 0 <= q < |s.producers| && q != step.p && Committed(s.producers[q]) && s.producers[q].head == s.head;
      assert r.producers[q] == s.producers[q];
    } else {
      PublishFillsASlot(s, step);
      forall q | 0 <= q < |r.producers| ensures WindowOk(r, q) {
        assert InWindow(r.producers[q]) ==> InWindow(s.producers[q]) && r.producers[q].head == s.head by { AllHold(s, step.p); }
      }
      hide Place, CountSafe, WindowOk;
      assert |s.accepted| == s.published;
      assert r.accepted[..|s.written|] == s.accepted[..|s.written|];
    }
  }

  lemma AllHold(s: Ring, p: nat)
    requires OneHead(s) && p < |s.producers| && InWindow(s.producers[p])
    ensures forall q :: 0 <= q < |s.producers| && InWindow(s.producers[q]) ==> s.producers[q].head == s.producers[p].head
  {
  }

  lemma KeepHand(s: Ring, step: Step)
    requires CountSafe(s, 0) && Contents(s) && Enabled(s, step) && step.Hand?
    ensures Contents(Next(s, step))
  {
    var c, r := s.consumer, Next(s, step);
    MinusPositive(c.head, c.tail);
    PlaceWraps(s.released);
    var m := s.accepted[s.released];
    assert s.slots[Place(s.released)] == Slot(m, |m|);
    assert m[..|m|] == m;
    assert s.accepted[..s.released + 1] == s.accepted[..s.released] + [m];
    assert r.written == s.written + [m];
    SameWindowsOk(s, r);
    hide WindowOk, Place, Minus, OneHead, ProducerOk;
  }

  lemma SameWindowsOk(s: Ring, r: Ring)
    requires |s.slots| == SLOTS && r.slots == s.slots && r.producers == s.producers && r.head == s.head
    requires forall p :: 0 <= p < |s.producers| ==> WindowOk(s, p)
    ensures forall p :: 0 <= p < |r.producers| ==> WindowOk(r, p)
  {
    hide Committed, Place;
    forall p | 0 <= p < |r.producers| ensures WindowOk(r, p) {
      assert WindowOk(s, p);
      SameRivals(s, r, p);
    }
  }

  lemma KeepConsumer(s: Ring, step: Step)
    requires CountSafe(s, 0) && Contents(s) && Enabled(s, step)
    requires step.CheckRunning? || step.LoadOwnTail? || step.LoadTheirHead? || step.Release? || step.EndDrain?
    ensures Contents(Next(s, step))
  {
    hide CountSafe, Place, Minus;
    SameWindowsOk(s, Next(s, step));
    hide WindowOk;
  }

  /** The steps of a call that touch neither a slot nor a message take no slot from anybody. */
  lemma KeepOthers(s: Ring, step: Step)
    requires CountSafe(s, 0) && Contents(s) && Enabled(s, step)
    requires step.SetLevel? || step.Begin? || step.Stop? || step.LoadHead? || step.LoadTail? || step.Drop?
    ensures Contents(Next(s, step))
  {
    hide CountSafe, Place;
    var r := Next(s, step);
    forall p | 0 <= p < |r.producers| ensures WindowOk(r, p) {
      assert WindowOk(s, p);
      if q :| 0 <= q < |s.producers| && q != p && Committed(s.producers[q]) && s.producers[q].head == s.head {
        assert Committed(r.producers[q]) && r.producers[q].head == s.producers[q].head;
        assert Contended(r, p);
      }
    }
    hide WindowOk;
  }

  /** Every single step keeps the ring safe, until a publication is at a head that has moved on. */
  lemma StepKeepsSafe(s: Ring, step: Step)
    requires Safe(s) && Enabled(s, step) && Grouped(s, step) && !Stale(s, step)
    ensures Safe(Next(s, step))
  {
    hide Next, CountSafe, Enabled, Grouped, Overtaken, Contents, Stale;
    StepCounts(s, step, 0);
    if Overtaken(s) {
      OvertakenStays(s, step);
    } else {
      match step {
        case WriteText(_) => KeepWrites(s, step);
        case WriteLen(_) => KeepWrites(s, step);
        case Publish(_) => KeepPublish(s, step);
        case Hand => KeepHand(s, step);
        case CheckRunning => KeepConsumer(s, step);
        case LoadOwnTail => KeepConsumer(s, step);
        case LoadTheirHead => KeepConsumer(s, step);
        case Release => KeepConsumer(s, step);
        case EndDrain => KeepConsumer(s, step);
        case _ => KeepOthers(s, step);
      }
    }
  }

  lemma StartSafe(s: Ring)
    requires Start(s)
    ensures Safe(s)
  {
    StartCounts(s);
    forall p | 0 <= p < |s.producers| ensures WindowOk(s, p) {
      assert s.producers[p] in s.producers;
    }
  }

  lemma {:induction false} RunSafe(states: seq<Ring>, steps: seq<Step>, t: nat)
    requires Run(states, steps) && t <= |steps|
    requires forall u :: 0 <= u < |steps| ==> Grouped(states[u], steps[u])
    requires StaleOnes(states, steps, t) == 0
    ensures Safe(states[t])
  {
    hide Next, Safe, Enabled, Grouped, Start, Stale;
    if t == 0 {
      StartSafe(states[0]);
    } else {
      RunSafe(states, steps, t - 1);
      StepKeepsSafe(states[t - 1], steps[t - 1]);
    }
  }

  /** Whatever overlaps in groups: before the first publication at a head that had moved on, and as long
      as no call is committed to one, the lines handed to the writer are the accepted messages, in
      order, none lost, none repeated and none torn. */
  lemma WrittenInOrder(states: seq<Ring>, steps: seq<Step>, t: nat)
    requires Run(states, steps) && t <= |steps|
    requires forall u :: 0 <= u < |steps| ==> Grouped(states[u], steps[u])
    requires StaleOnes(states, steps, t) == 0 && !Overtaken(states[t])
    ensures Contents(states[t]) && states[t].written <= states[t].accepted
  {
    hide Next, Enabled, Grouped, Start, Stale, CountSafe, Overtaken;
    RunSafe(states, steps, t);
  }

  /** And exactly then: once every call has returned and the consumer has caught up, the lines written
      are the accepted messages if and only if no publication was at a head that had moved on. */
  lemma WrittenExactly(states: seq<Ring>, steps: seq<Step>, t: nat)
    requires Run(states, steps) && t <= |steps|
    requires forall u :: 0 <= u < |steps| ==> Grouped(states[u], steps[u])
    requires forall p :: 0 <= p < |states[t].producers| ==> states[t].producers[p].Idle?
    requires states[t].head == states[t].tail && !states[t].consumer.Handed?
    ensures states[t].written == states[t].accepted <==> StaleOnes(states, steps, t) == 0
  {
    hide Next, Enabled, Grouped, Start, Stale, Contents;
    EachStalePublicationLosesOne(states, steps, t);
    if StaleOnes(states, steps, t) == 0 {
      WrittenInOrder(states, steps, t);
    }
  }

  // ----- windows that do not overlap -----------------------------------------------------------------------

  /** At most one call is in its window, and it holds the true head. */
  ghost predicate Single(s: Ring) {
    && (forall p, q :: 0 <= p < q < |s.producers| ==> !InWindow(s.producers[p]) || !InWindow(s.producers[q]))
    && forall p :: 0 <= p < |s.producers| && InWindow(s.producers[p]) ==> s.producers[p].head == s.head
  }

  lemma SingleStays(s: Ring, step: Step)
    requires |s.slots| == SLOTS && Single(s) && Enabled(s, step) && Disjoint(s, step)
    ensures Single(Next(s, step)) && !Stale(s, step) && Grouped(s, step)
  {
    hide Minus, Place;
  }

  lemma {:induction false} RunSingle(states: seq<Ring>, steps: seq<Step>, t: nat)
    requires Run(states, steps) && t <= |steps|
    requires forall u :: 0 <= u < |steps| ==> Disjoint(states[u], steps[u])
    ensures Single(states[t]) && StaleOnes(states, steps, t) == 0
  {
    hide Next, Enabled, Disjoint, Stale, Single;
    if t == 0 {
      assert Single(states[0]) by { StartSingle(states[0]); }
    } else {
      RunSingle(states, steps, t - 1);
      SingleStays(states[t - 1], steps[t - 1]);
    }
  }

  lemma StartSingle(s: Ring)
    requires Start(s)
    ensures Single(s)
  {
    assert forall p :: 0 <= p < |s.producers| ==> s.producers[p] in s.producers;
  }

  lemma NoneLost(states: seq<Ring>, steps: seq<Step>, t: nat)
    requires Run(states, steps) && t <= |steps|
    requires forall u :: 0 <= u < |steps| ==> Disjoint(states[u], steps[u])
    ensures forall u :: 0 <= u < |steps| ==> Grouped(states[u], steps[u])
    ensures StaleOnes(states, steps, t) == 0 && Single(states[t]) && !Overtaken(states[t]) && CountSafe(states[t], 0)
  {
    forall u | 0 <= u < |steps| ensures Grouped(states[u], steps[u]) {
      assert Disjoint(states[u], steps[u]);
    }
    hide Next, Enabled, Disjoint, Start, Stale, CountSafe, Minus, Grouped;
    RunSingle(states, steps, t);
    RunCounts(states, steps, t);
  }

  /** In every interleaving of the threads in which the windows do not overlap, at every moment: the
      tail is never ahead of the head nor more than the ring behind it, with both counters taken
      modulo 2^64; the lines handed to the writer are the accepted messages, in order, none lost and
      none repeated; and every message above the level is accepted, dropped or still being written. */
  lemma RingSafety(states: seq<Ring>, steps: seq<Step>, t: nat)
    requires Run(states, steps) && t <= |steps|
    requires forall u :: 0 <= u < |steps| ==> Disjoint(states[u], steps[u])
    ensures var s := states[t];
            && s.released <= |s.accepted| <= s.released + 4096
            && s.head == |s.accepted| % U64 && s.tail == s.released % U64
            && s.written <= s.accepted && s.released <= |s.written| <= s.released + 1
            && s.attempts == |s.accepted| + s.drops + InFlight(s.producers)
  {
    hide Next, Enabled, Disjoint, Grouped, Start, Stale, ProducerOk, OneHead, Single, Overtaken, Contents;
    NoneLost(states, steps, t);
    WrittenInOrder(states, steps, t);
  }

  /** A call decides to drop its message exactly when the ring is full at the moment it loads the
      tail, whatever the two counters have wrapped to. */
  lemma DropsOnlyWhenFull(states: seq<Ring>, steps: seq<Step>, t: nat)
    requires Run(states, steps) && t < |steps| && steps[t].LoadTail?
    requires forall u :: 0 <= u < |steps| ==> Disjoint(states[u], steps[u])
    ensures steps[t].p < |states[t + 1].producers| && states[t + 1].producers[steps[t].p].TailLoaded?
    ensures var s := states[t]; var c := states[t + 1].producers[steps[t].p];
            Minus(c.head, c.tail) >= 4096 <==> |s.accepted| == s.released + 4096
  {
    hide Minus, Disjoint, Start, OneHead, ConsumerOk, Overtaken;
    NoneLost(states, steps, t);
    assert InWindow(states[t].producers[steps[t].p]);
    MinusWraps(states[t].published, states[t].released);
  }

  /** The producer never writes a slot that is between tail and head. */
  lemma WritesAreDisjoint(states: seq<Ring>, steps: seq<Step>, t: nat)
    requires Run(states, steps) && t < |steps|
    requires forall u :: 0 <= u < |steps| ==> Disjoint(states[u], steps[u])
    ensures var s := states[t];
            steps[t].WriteText? || steps[t].WriteLen? ==>
              forall k :: s.released <= k < s.published ==> Place(k) != Place(s.producers[steps[t].p].head)
  {
    hide Next, CountSafe, Place, Disjoint, Start, Overtaken, Minus;
    NoneLost(states, steps, t);
    if steps[t].WriteText? || steps[t].WriteLen? {
      assert Committed(states[t].producers[steps[t].p]) && InWindow(states[t].producers[steps[t].p]);
      WritesFreeSlot(states[t], steps[t].p);
    }
  }

  // ----- shutting down ---------------------------------------------------------------------------------

  /** Nothing will be published any more. */
  ghost predicate Quiet(s: Ring) {
    !s.running && forall p :: 0 <= p < |s.producers| ==> s.producers[p].Idle?
  }

  /** Once the consumer has found the log shut down, its last drain ends at the head of that moment. */
  ghost predicate LastDrain(s: Ring, eff: nat) {
    && (s.running || Quiet(s))
    && match s.consumer
       case Checking => true
       case Draining(last) => last ==> Quiet(s)
       case GotTail(last, _) => last ==> Quiet(s)
       case Looping(last, t, h) => last ==> Quiet(s) && s.released + Minus(h, t) == eff
       case Handed(last, t, h) => last ==> Quiet(s) && s.released + Minus(h, t) == eff
       case Exited => Quiet(s) && s.released == eff
  }

  lemma CallKeepsLastDrain(s: Ring, step: Step, lost: nat)
    requires CountSafe(s, lost) && Enabled(s, step) && Calm(s, step) && LastDrain(s, s.published - lost)
    requires step.SetLevel? || step.Begin? || step.Stop? || step.LoadHead? || step.LoadTail? || step.Drop? ||
             step.WriteText? || step.WriteLen? || step.Publish?
    ensures var more := lost + if Stale(s, step) then 1 else 0;
            more <= Next(s, step).published && LastDrain(Next(s, step), Next(s, step).published - more)
  {
    hide Minus, Place, OneHead, ConsumerOk, ProducerOk;
  }

  lemma ConsumerKeepsLastDrain(s: Ring, step: Step, lost: nat)
    requires CountSafe(s, lost) && Enabled(s, step) && lost <= s.published && LastDrain(s, s.published - lost)
    requires step.CheckRunning? || step.LoadOwnTail? || step.LoadTheirHead? || step.Hand? || step.Release? || step.EndDrain?
    ensures LastDrain(Next(s, step), s.published - lost)
  {
    hide Place, OneHead, ProducerOk;
    MinusWraps(s.published - lost, s.released);
    if step.Release? {
      MinusStep(s.consumer.head, s.consumer.tail);
    }
    hide Minus;
  }

  lemma {:induction false} RunLastDrain(states: seq<Ring>, steps: seq<Step>, t: nat)
    requires Run(states, steps) && t <= |steps|
    requires forall u :: 0 <= u < |steps| ==> Grouped(states[u], steps[u]) && Calm(states[u], steps[u])
    ensures CountSafe(states[t], StaleOnes(states, steps, t))
    ensures LastDrain(states[t], states[t].published - StaleOnes(states, steps, t))
  {
    hide Next, CountSafe, Enabled, Grouped, Calm, Stale, LastDrain;
    RunCounts(states, steps, t);
    if t == 0 {
      assert LastDrain(states[0], states[0].published) by { StartsRunning(states[0]); }
    } else {
      RunLastDrain(states, steps, t - 1);
      LastDrainStep(states[t - 1], steps[t - 1], StaleOnes(states, steps, t - 1));
    }
  }

  lemma StartsRunning(s: Ring)
    requires Start(s)
    ensures LastDrain(s, s.published)
  {
  }

  lemma LastDrainStep(s: Ring, step: Step, lost: nat)
    requires CountSafe(s, lost) && Enabled(s, step) && Grouped(s, step) && Calm(s, step)
    requires LastDrain(s, s.published - lost)
    ensures var more := lost + if Stale(s, step) then 1 else 0;
            more <= Next(s, step).published && LastDrain(Next(s, step), Next(s, step).published - more)
  {
    assert lost <= s.published;
    hide LastDrain, CountSafe;
    if step.CheckRunning? || step.LoadOwnTail? || step.LoadTheirHead? || step.Hand? || step.Release? || step.EndDrain? {
      ConsumerKeepsLastDrain(s, step, lost);
    } else {
      CallKeepsLastDrain(s, step, lost);
    }
  }

  /** When the thread has been joined, the lines written are as many as the accepted messages less the
      publications at a head that had moved on; and they are the accepted messages if and only if
      there was no such publication. */
  lemma ShutdownWritesTheRest(states: seq<Ring>, steps: seq<Step>, t: nat)
    requires Run(states, steps) && t <= |steps| && states[t].consumer.Exited?
    requires forall u :: 0 <= u < |steps| ==> Grouped(states[u], steps[u]) && Calm(states[u], steps[u])
    ensures |states[t].written| + StaleOnes(states, steps, t) == |states[t].accepted| && !states[t].running
    ensures states[t].written == states[t].accepted <==> StaleOnes(states, steps, t) == 0
  {
    hide Next, Enabled, Grouped, Calm, Start, Stale, OneHead, ProducerOk;
    RunLastDrain(states, steps, t);
    WrittenExactly(states, steps, t);
  }

  /** With windows that do not overlap, everything that was ever accepted has been written. */
  lemma ShutdownLosesNothing(states: seq<Ring>, steps: seq<Step>, t: nat)
    requires Run(states, steps) && t <= |steps| && states[t].consumer.Exited?
    requires forall u :: 0 <= u < |steps| ==> Disjoint(states[u], steps[u]) && Calm(states[u], steps[u])
    ensures states[t].written == states[t].accepted && !states[t].running
  {
    hide Next, Enabled, Disjoint, Grouped, Calm, Start, Stale, CountSafe, Single, Overtaken;
    NoneLost(states, steps, t);
    ShutdownWritesTheRest(states, steps, t);
  }

  // ----- runs in which windows overlap ---------------------------------------------------------------------

  ghost predicate AllGrouped(states: seq<Ring>, steps: seq<Step>) {
    |states| == |steps| + 1 && forall u :: 0 <= u < |steps| ==> Grouped(states[u], steps[u])
  }

  /** A run and where it ends: `grouped` if its windows overlap in groups at most, with `lost`
      publications at a head that had moved on. */
  ghost predicate Reaches(states: seq<Ring>, steps: seq<Step>, grouped: bool, lost: nat, r: Ring) {
    && Run(states, steps) && r == states[|steps|] && |r.slots| == SLOTS
    && StaleOnes(states, steps, |steps|) == lost && (grouped ==> AllGrouped(states, steps))
  }

  lemma ReachesStart(s: Ring) returns (states: seq<Ring>, steps: seq<Step>)
    requires Start(s)
    ensures Reaches(states, steps, true, 0, s) && states[0] == s
  {
    states, steps := [s], [];
  }

  /** One step more. */
  lemma Extend(states: seq<Ring>, steps: seq<Step>, grouped: bool, lost: nat, r: Ring, step: Step)
      returns (more: seq<Ring>, longer: seq<Step>)
    requires Reaches(states, steps, grouped, lost, r) && Enabled(r, step) && (grouped ==> Grouped(r, step))
    ensures Reaches(more, longer, grouped, lost + if Stale(r, step) then 1 else 0, Next(r, step)) && more[0] == states[0]
  {
    hide Enabled, Next, Start, Stale, Grouped;
    more, longer := states + [Next(r, step)], steps + [step];
    forall t | 0 <= t < |longer|
      ensures |more[t].slots| == SLOTS && Enabled(more[t], longer[t]) && more[t + 1] == Next(more[t], longer[t])
      ensures grouped ==> Grouped(more[t], longer[t])
    {
      assert more[t] == states[t];
      assert t < |steps| ==> longer[t] == steps[t] && more[t + 1] == states[t + 1];
    }
    assert |Next(r, step).slots| == SLOTS by { SlotsStay(r, step); }
    StaleOnesOfPrefix(states, steps, more, longer, |steps|);
  }

  lemma SlotsStay(r: Ring, step: Step)
    requires Enabled(r, step) && |r.slots| == SLOTS
    ensures |Next(r, step).slots| == SLOTS
  {
  }

  lemma {:induction false} StaleOnesOfPrefix(states: seq<Ring>, steps: seq<Step>, more: seq<Ring>, longer: seq<Step>, t: nat)
    requires |states| == |steps| + 1 && |more| == |longer| + 1 && t <= |steps| && states <= more && steps <= longer
    requires forall u :: 0 <= u < |longer| ==> Enabled(more[u], longer[u])
    ensures forall u :: 0 <= u < |steps| ==> Enabled(states[u], steps[u])
    ensures StaleOnes(states, steps, t) == StaleOnes(more, longer, t)
  {
    hide Enabled, Stale;
    forall u | 0 <= u < |steps| ensures Enabled(states[u], steps[u]) {
      assert states[u] == more[u] && steps[u] == longer[u];
    }
    if t > 0 {
      StaleOnesOfPrefix(states, steps, more, longer, t - 1);
      assert states[t - 1] == more[t - 1] && steps[t - 1] == longer[t - 1];
    }
  }

  /** Both calls load the same head before either publishes. */
  lemma BothLoad(s: Ring, a: string, b: string) returns (states: seq<Ring>, steps: seq<Step>, r: Ring)
    requires Start(s) && |s.producers| == 2 && s.level <= 0
    ensures Reaches(states, steps, true, 0, r) && states[0] == s
    ensures r == s.(attempts := 2, producers := [TailLoaded(a, 0, 0), TailLoaded(b, 0, 0)])
  {
    hide Reaches;
    states, steps := ReachesStart(s);
    r := s;
    states, steps := Extend(states, steps, true, 0, r, Begin(0, 0, a)); r := Next(r, Begin(0, 0, a));
    states, steps := Extend(states, steps, true, 0, r, Begin(1, 0, b)); r := Next(r, Begin(1, 0, b));
    states, steps := Extend(states, steps, true, 0, r, LoadHead(0)); r := Next(r, LoadHead(0));
    states, steps := Extend(states, steps, true, 0, r, LoadHead(1)); r := Next(r, LoadHead(1));
    states, steps := Extend(states, steps, true, 0, r, LoadTail(0)); r := Next(r, LoadTail(0));
    states, steps := Extend(states, steps, true, 0, r, LoadTail(1)); r := Next(r, LoadTail(1));
  }

  /** A call past its room check writes its slot and publishes. */
  lemma WriteOut(states: seq<Ring>, steps: seq<Step>, grouped: bool, lost: nat, r: Ring, p: nat)
      returns (more: seq<Ring>, longer: seq<Step>, after: Ring)
    requires Reaches(states, steps, grouped, lost, r) && |r.slots| == SLOTS
    requires p < |r.producers| && r.producers[p].TailLoaded? && Committed(r.producers[p])
    ensures Reaches(more, longer, grouped, lost + if r.producers[p].head != r.head then 1 else 0, after) && more[0] == states[0]
    ensures var c := r.producers[p];
            after == r.(producers := r.producers[p := Idle], head := (c.head + 1) % U64, published := r.published + 1,
                        accepted := r.accepted + [c.msg], slots := r.slots[Place(c.head) := Slot(c.msg, |c.msg|)])
  {
    hide Reaches, Minus, Place;
    after := r;
    more, longer := Extend(states, steps, grouped, lost, after, WriteText(p)); after := Next(after, WriteText(p));
    more, longer := Extend(more, longer, grouped, lost, after, WriteLen(p)); after := Next(after, WriteLen(p));
    more, longer := Extend(more, longer, grouped, lost, after, Publish(p)); after := Next(after, Publish(p));
    assert after.producers == r.producers[p := Idle];
    var c := r.producers[p];
    assert after.slots == r.slots[Place(c.head) := Slot(c.msg, |c.msg|)];
  }

  /** The consumer begins to drain. */
  lemma BeginDrain(states: seq<Ring>, steps: seq<Step>, grouped: bool, lost: nat, r: Ring)
      returns (more: seq<Ring>, longer: seq<Step>, after: Ring)
    requires Reaches(states, steps, grouped, lost, r) && |r.slots| == SLOTS && r.running && r.consumer.Checking?
    ensures Reaches(more, longer, grouped, lost, after) && more[0] == states[0]
    ensures after == r.(consumer := Looping(false, r.tail, r.head))
  {
    hide Reaches;
    after := r;
    more, longer := Extend(states, steps, grouped, lost, after, CheckRunning); after := Next(after, CheckRunning);
    more, longer := Extend(more, longer, grouped, lost, after, LoadOwnTail); after := Next(after, LoadOwnTail);
    more, longer := Extend(more, longer, grouped, lost, after, LoadTheirHead); after := Next(after, LoadTheirHead);
  }

  /** One line. */
  lemma PassOn(states: seq<Ring>, steps: seq<Step>, grouped: bool, lost: nat, r: Ring)
      returns (more: seq<Ring>, longer: seq<Step>, after: Ring)
    requires Reaches(states, steps, grouped, lost, r) && |r.slots| == SLOTS
    requires r.consumer.Looping? && r.consumer.tail != r.consumer.head
    ensures Reaches(more, longer, grouped, lost, after) && more[0] == states[0]
    ensures var c := r.consumer; var t := (c.tail + 1) % U64;
            after == r.(consumer := Looping(c.last, t, c.head), tail := t, released := r.released + 1,
                        written := r.written + [LineOf(r.slots[Place(c.tail)])])
  {
    hide Reaches, Place;
    after := r;
    more, longer := Extend(states, steps, grouped, lost, after, Hand); after := Next(after, Hand);
    more, longer := Extend(more, longer, grouped, lost, after, Release); after := Next(after, Release);
  }

  /** The consumer drains a ring of one line. */
  lemma DrainOne(states: seq<Ring>, steps: seq<Step>, lost: nat, r: Ring)
      returns (more: seq<Ring>, longer: seq<Step>, after: Ring)
    requires Reaches(states, steps, true, lost, r) && |r.slots| == SLOTS && r.running && r.consumer.Checking?
    requires r.tail < U64 && r.head == (r.tail + 1) % U64
    ensures Reaches(more, longer, true, lost, after) && more[0] == states[0]
    ensures after == r.(tail := r.head, released := r.released + 1, written := r.written + [LineOf(r.slots[Place(r.tail)])])
  {
    hide Reaches, Place;
    more, longer, after := BeginDrain(states, steps, true, lost, r);
    more, longer, after := PassOn(more, longer, true, lost, after);
    more, longer := Extend(more, longer, true, lost, after, EndDrain); after := Next(after, EndDrain);
  }

  /** One call has published; the other has written the same slot after it. */
  lemma OneOvertakes(s: Ring, a: string, b: string) returns (states: seq<Ring>, steps: seq<Step>, r: Ring)
    requires Start(s) && |s.producers| == 2 && s.level <= 0
    ensures Reaches(states, steps, true, 0, r) && states[0] == s
    ensures r == s.(attempts := 2, producers := [Idle, LenWritten(b, 0)], head := 1, published := 1, accepted := [a],
                    slots := s.slots[0 := Slot(b, |b|)])
  {
    hide Reaches;
    states, steps, r := BothLoad(s, a, b);
    states, steps := Extend(states, steps, true, 0, r, WriteText(0)); r := Next(r, WriteText(0));
    states, steps := Extend(states, steps, true, 0, r, WriteLen(0)); r := Next(r, WriteLen(0));
    states, steps := Extend(states, steps, true, 0, r, WriteText(1)); r := Next(r, WriteText(1));
    states, steps := Extend(states, steps, true, 0, r, WriteLen(1)); r := Next(r, WriteLen(1));
    states, steps := Extend(states, steps, true, 0, r, Publish(0)); r := Next(r, Publish(0));
    assert r.slots == s.slots[0 := Slot(b, |b|)];
  }

  /** The consumer may catch up while a call is overtaken: nothing has been published at an old head, and
      yet the accepted message is gone and the line written belongs to a message not yet accepted. */
  lemma OvertakenWritesAnother(s: Ring, a: string, b: string) returns (states: seq<Ring>, steps: seq<Step>, r: Ring)
    requires Start(s) && |s.producers| == 2 && s.level <= 0
    ensures Reaches(states, steps, true, 0, r) && states[0] == s
    ensures r.head == r.tail && r.consumer.Checking? && Overtaken(r) && r.accepted == [a] && r.written == [b]
  {
    states, steps, r := OneOvertakes(s, a, b);
    assert b[..|b|] == b;
    states, steps, r := DrainOne(states, steps, 0, r);
    assert r.producers[1] == LenWritten(b, 0);
  }

  /** The probe thread logs too.  In a whole run of two overlapping windows a message that was accepted
      and not counted as dropped is never written: the ring is empty again, and the line is gone. */
  lemma OverlapLosesAMessage(s: Ring, a: string, b: string) returns (states: seq<Ring>, steps: seq<Step>, r: Ring)
    requires Start(s) && |s.producers| == 2 && s.level <= 0
    ensures Reaches(states, steps, true, 1, r) && states[0] == s
    ensures r.consumer.Checking? && r.head == r.tail && r.producers == [Idle, Idle]
    ensures r.accepted == [a, b] && r.drops == 0 && r.written == [b]
  {
    states, steps, r := OneOvertakes(s, a, b);
    hide Reaches;
    states, steps := Extend(states, steps, true, 0, r, Publish(1)); r := Next(r, Publish(1));
    assert b[..|b|] == b;
    states, steps, r := DrainOne(states, steps, 1, r);
  }

  /** And the line that is left may be neither message: the text of one with the length of the other. */
  lemma OverlapTearsALine(s: Ring, a: string, b: string) returns (states: seq<Ring>, steps: seq<Step>, r: Ring)
    requires Start(s) && |s.producers| == 2 && s.level <= 0 && |a| < |b|
    ensures Reaches(states, steps, true, 1, r) && states[0] == s
    ensures r.consumer.Checking? && r.head == r.tail && r.producers == [Idle, Idle]
    ensures r.accepted == [a, b] && r.drops == 0 && r.written == [b[..|a|]]
  {
    hide Reaches;
    states, steps, r := BothLoad(s, a, b);
    states, steps := Extend(states, steps, true, 0, r, WriteText(0)); r := Next(r, WriteText(0));
    states, steps := Extend(states, steps, true, 0, r, WriteText(1)); r := Next(r, WriteText(1));
    states, steps := Extend(states, steps, true, 0, r, WriteLen(1)); r := Next(r, WriteLen(1));
    states, steps := Extend(states, steps, true, 0, r, WriteLen(0)); r := Next(r, WriteLen(0));
    states, steps := Extend(states, steps, true, 0, r, Publish(0)); r := Next(r, Publish(0));
    states, steps := Extend(states, steps, true, 0, r, Publish(1)); r := Next(r, Publish(1));
    assert r.slots[0] == Slot(b, |a|);
    states, steps, r := DrainOne(states, steps, 1, r);
  }

  // ----- a run in which the head goes back -------------------------------------------------------------------

  /** One call logs a line while the others stand still. */
  lemma LogLine(states: seq<Ring>, steps: seq<Step>, r: Ring, p: nat, m: string)
      returns (more: seq<Ring>, longer: seq<Step>, after: Ring)
    requires Reaches(states, steps, false, 0, r) && p < |r.producers| && r.producers[p].Idle? && r.level <= 0
    requires Minus(r.head, r.tail) < SLOTS && |r.slots| == SLOTS
    ensures Reaches(more, longer, false, 0, after) && more[0] == states[0]
    ensures after == r.(attempts := r.attempts + 1, head := (r.head + 1) % U64, published := r.published + 1,
                        accepted := r.accepted + [m], slots := r.slots[Place(r.head) := Slot(m, |m|)])
  {
    hide Reaches, Minus, Place;
    after := r;
    more, longer := Extend(states, steps, false, 0, after, Begin(p, 0, m)); after := Next(after, Begin(p, 0, m));
    more, longer := Extend(more, longer, false, 0, after, LoadHead(p)); after := Next(after, LoadHead(p));
    more, longer := Extend(more, longer, false, 0, after, LoadTail(p)); after := Next(after, LoadTail(p));
    more, longer, after := WriteOut(more, longer, false, 0, after, p);
    assert after.producers == r.producers;
  }

  /** One call stalls in its window while another logs two lines. */
  lemma TwoLinesLogged(s: Ring, a: string, b: string, c: string) returns (states: seq<Ring>, steps: seq<Step>, r: Ring)
    requires Start(s) && |s.producers| == 2 && s.level <= 0
    ensures Reaches(states, steps, false, 0, r) && states[0] == s
    ensures r == s.(attempts := 3, producers := [TailLoaded(c, 0, 0), Idle], head := 2, published := 2, accepted := [a, b],
                    slots := s.slots[0 := Slot(a, |a|)][1 := Slot(b, |b|)])
  {
    hide Reaches;
    states, steps := ReachesStart(s);
    r := s;
    assert Reaches(states, steps, false, 0, r) by { Ungrouped(states, steps, r); }
    states, steps := Extend(states, steps, false, 0, r, Begin(0, 0, c)); r := Next(r, Begin(0, 0, c));
    states, steps := Extend(states, steps, false, 0, r, LoadHead(0)); r := Next(r, LoadHead(0));
    states, steps := Extend(states, steps, false, 0, r, LoadTail(0)); r := Next(r, LoadTail(0));
    states, steps, r := LogLine(states, steps, r, 1, a);
    states, steps, r := LogLine(states, steps, r, 1, b);
  }

  lemma Ungrouped(states: seq<Ring>, steps: seq<Step>, r: Ring)
    requires Reaches(states, steps, true, 0, r)
    ensures Reaches(states, steps, false, 0, r)
  {
  }

  /** The consumer writes both. */
  lemma TwoLinesDrained(s: Ring, a: string, b: string, c: string) returns (states: seq<Ring>, steps: seq<Step>, r: Ring)
    requires Start(s) && |s.producers| == 2 && s.level <= 0
    ensures Reaches(states, steps, false, 0, r) && states[0] == s
    ensures r == s.(attempts := 3, producers := [TailLoaded(c, 0, 0), Idle], head := 2, published := 2, accepted := [a, b],
                    slots := s.slots[0 := Slot(a, |a|)][1 := Slot(b, |b|)], tail := 2, released := 2, written := [a, b])
  {
    hide Reaches;
    states, steps, r := TwoLinesLogged(s, a, b, c);
    assert a[..|a|] == a && b[..|b|] == b;
    states, steps, r := BeginDrain(states, steps, false, 0, r);
    states, steps, r := PassOn(states, steps, false, 0, r);
    states, steps, r := PassOn(states, steps, false, 0, r);
    states, steps := Extend(states, steps, false, 0, r, EndDrain); r := Next(r, EndDrain);
  }

  /** Then the stalled call publishes: the head goes back behind the tail.  The next drain does not stop
      there: it hands the writer a slot that nobody has ever written. */
  lemma HeadGoesBack(s: Ring, a: string, b: string, c: string) returns (states: seq<Ring>, steps: seq<Step>, r: Ring)
    requires Start(s) && |s.producers| == 2 && s.level <= 0
    ensures Reaches(states, steps, false, 1, r) && states[0] == s
    ensures r.head == 1 && r.tail == 2 && r.consumer.Handed? && r.accepted == [a, b, c]
    ensures |s.slots| == SLOTS && r.written == [a, b, LineOf(s.slots[2])]
  {
    hide Reaches;
    states, steps, r := TwoLinesDrained(s, a, b, c);
    states, steps, r := WriteOut(states, steps, false, 0, r, 0);
    states, steps, r := BeginDrain(states, steps, false, 1, r);
    states, steps := Extend(states, steps, false, 1, r, Hand); r := Next(r, Hand);
  }
}
