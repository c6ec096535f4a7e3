/**
 The unclaimed-interrupt guard as a step system: one GIC line, the kernel
 dispatcher that serves it, and the test's two handlers running inside the
 dispatcher. One `Step` is one thing another core can observe in between:
 acknowledge, count in the first handler, re-pend in the first handler, second
 handler, account and mask, end of interrupt.
 */
module UnclaimedGuard {
  import opened Options

  type Threshold = n: nat | 1 <= n witness 1

  /** What the first handler does: decline, claim and re-pend, decline and re-pend. */
  datatype Mode = Decline | Claim | DeclineHeld

  /** Where the dispatcher stands in the current delivery. */
  datatype Pc = Idle | Entry | Repend | Second | Account | Eoi

  /** What the kernel does to the line as handlers come and go; it should do all three. */
  datatype Upkeep = Upkeep(enablesFirst: bool, enablesFurther: bool, disablesLast: bool)

  /**
   A dispatcher: its threshold (`None` is a kernel without the guard), whether a claim,
   or a released line, keeps a delivery from being counted, and its upkeep of the line.
   The contract asks for all of it; the other combinations are the faulty kernels the
   test is to catch.
   */
  datatype Dispatcher =
    Dispatcher(limit: Option<Threshold>, heedsClaim: bool, heedsPending: bool, upkeep: Upkeep)

  /** The line's three bits in the distributor. */
  datatype Line = Line(enabled: bool, pending: bool, active: bool)

  /** The test's shared variables. */
  datatype Common = Common(mode: Mode, fired: nat, fired2: nat, budget: nat)

  /** The dispatcher's: registered handlers, progress, claimed so far, counted deliveries in a row. */
  datatype Kernel = Kernel(h1: bool, h2: bool, pc: Pc, claimed: bool, run: nat)

  datatype Sys = Sys(line: Line, common: Common, kernel: Kernel)

  /** The test's two handler counters. */
  datatype Which = Fired | Fired2

  function Counter(which: Which, s: Sys): nat {
    match which
    case Fired => s.common.fired
    case Fired2 => s.common.fired2
  }

  /** Does a delivery with this outcome count towards masking the line? */
  predicate Counts(d: Dispatcher, claimed: bool, stillPending: bool) {
    && (d.heedsClaim ==> !claimed)
    && (d.heedsPending ==> stillPending)
  }

  predicate Conforming(d: Dispatcher) {
    d.heedsClaim && d.heedsPending
  }

  /** A handler is registered: the first one enables the line, a further one enables it again. */
  function Registered(d: Dispatcher, s: Sys, second: bool): Sys {
    var enables := if s.kernel.h1 || s.kernel.h2 then d.upkeep.enablesFurther else d.upkeep.enablesFirst;
    Sys(s.line.(enabled := s.line.enabled || enables), s.common,
        if second then s.kernel.(h2 := true) else s.kernel.(h1 := true))
  }

  /** A handler is removed: a line that has lost its last one is disabled. */
  function Removed(d: Dispatcher, s: Sys, second: bool): Sys {
    var k := if second then s.kernel.(h2 := false) else s.kernel.(h1 := false);
    Sys(s.line.(enabled := s.line.enabled && (k.h1 || k.h2 || !d.upkeep.disablesLast)), s.common, k)
  }

  /** Accounting at the end of a delivery: extend or reset the run, mask at the threshold. */
  function AccountFor(d: Dispatcher, s: Sys): Sys {
    if !Counts(d, s.kernel.claimed, s.line.pending) || d.limit.None? then
      s.(kernel := s.kernel.(run := 0))
    else if s.kernel.run + 1 >= d.limit.value then
      Masked(s)
    else
      s.(kernel := s.kernel.(run := s.kernel.run + 1))
  }

  function Goto(s: Sys, pc: Pc): Sys {
    s.(kernel := s.kernel.(pc := pc))
  }

  /** The next thing the interrupt side does; a quiet line stays as it is. */
  function Step(d: Dispatcher, s: Sys): Sys {
    var Sys(l, c, k) := s;
    match k.pc
    case Idle =>
      if l.enabled && l.pending
      then Sys(l.(pending := false, active := true), c, k.(claimed := false, pc := Entry))
      else s
    case Entry =>
      if k.h1 then Sys(l, c.(fired := c.fired + 1), k.(pc := Repend)) else Goto(s, Second)
    case Repend =>
      if c.mode != Decline && c.budget != 0
      then Sys(l.(pending := true), c.(budget := c.budget - 1), k.(claimed := c.mode == Claim, pc := Second))
      else Sys(l, c, k.(claimed := c.mode == Claim, pc := Second))
    case Second =>
      if k.h2 then Sys(l, c.(fired2 := c.fired2 + 1), k.(claimed := true, pc := Account)) else Goto(s, Account)
    case Account => Goto(AccountFor(d, s), Eoi)
    case Eoi => Sys(l.(active := false), c, k.(pc := Idle))
  }

  /** Nothing more happens until somebody pends the line or enables it. */
  predicate Quiet(s: Sys) {
    s.kernel.pc == Idle && !(s.line.enabled && s.line.pending)
  }

  /**
   What holds between any two steps: a delivery is in progress exactly while the active
   bit is set, only an enabled line is served, and the run is below the threshold.
   */
  predicate Valid(d: Dispatcher, s: Sys) {
    && (s.line.active <==> s.kernel.pc != Idle)
    && (s.kernel.pc == Idle || s.kernel.pc == Eoi || s.line.enabled)
    && (d.limit.Some? ==> s.kernel.run < d.limit.value)
  }

  /** The steps left of the delivery in flight, one fewer at its entry without a first handler. */
  function StepsLeft(s: Sys): nat {
    match s.kernel.pc
    case Idle => 0 case Entry => 5 case Repend => 4 case Second => 3 case Account => 2 case Eoi => 1
  }

  /** Decreases with every step that changes anything. */
  function Measure(s: Sys): nat {
    6 * (s.common.budget + if s.line.pending then 1 else 0) + StepsLeft(s)
  }

  lemma StepProgress(d: Dispatcher, s: Sys)
    ensures !Quiet(s) ==> Measure(Step(d, s)) < Measure(s)
    ensures Quiet(s) ==> Step(d, s) == s
    ensures Valid(d, s) ==> Valid(d, Step(d, s))
    ensures s.common.fired <= Step(d, s).common.fired && s.common.fired2 <= Step(d, s).common.fired2
    ensures Step(d, s).kernel.h1 == s.kernel.h1 && Step(d, s).kernel.h2 == s.kernel.h2
    ensures Step(d, s).common.mode == s.common.mode
  {
    hide Step, Measure, Valid;
    StepDown(d, s);
    StepKeeps(d, s);
  }

  lemma StepDown(d: Dispatcher, s: Sys)
    ensures !Quiet(s) ==> Measure(Step(d, s)) < Measure(s)
    ensures Quiet(s) ==> Step(d, s) == s
  {
  }

  lemma StepKeeps(d: Dispatcher, s: Sys)
    ensures Valid(d, s) ==> Valid(d, Step(d, s))
    ensures s.common.fired <= Step(d, s).common.fired && s.common.fired2 <= Step(d, s).common.fired2
    ensures Step(d, s).kernel.h1 == s.kernel.h1 && Step(d, s).kernel.h2 == s.kernel.h2
    ensures Step(d, s).common.mode == s.common.mode
  {
  }

  /** The interrupt side taking n steps: any interleaving is a choice of n's. */
  function Steps(d: Dispatcher, s: Sys, n: nat): Sys
    decreases n
  {
    if n == 0 then s else Steps(d, Step(d, s), n - 1)
  }

  /** The state in which the interrupt side comes to rest. */
  function Quiesce(d: Dispatcher, s: Sys): (r: Sys)
    ensures Quiet(r)
    ensures Valid(d, s) ==> Valid(d, r)
    decreases Measure(s)
  {
    StepProgress(d, s);
    if Quiet(s) then s else Quiesce(d, Step(d, s))
  }

  lemma {:induction false} StepsSplit(d: Dispatcher, s: Sys, m: nat, n: nat)
    ensures Steps(d, s, m + n) == Steps(d, Steps(d, s, m), n)
    decreases m
  {
    if m > 0 {
      StepsSplit(d, Step(d, s), m - 1, n);
    }
  }

  /** However many steps have passed, the line comes to rest in the same state. */
  lemma {:induction false} StepsConfluent(d: Dispatcher, s: Sys, n: nat)
    ensures Quiesce(d, Steps(d, s, n)) == Quiesce(d, s)
    ensures Valid(d, s) ==> Valid(d, Steps(d, s, n))
    ensures Quiet(s) ==> Steps(d, s, n) == s
    ensures Measure(Steps(d, s, n)) <= Measure(s)
    ensures forall which :: Counter(which, s) <= Counter(which, Steps(d, s, n)) <= Counter(which, Quiesce(d, s))
    decreases n
  {
    hide Step;
    StepProgress(d, s);
    if n > 0 {
      StepsConfluent(d, Step(d, s), n - 1);
    } else {
      QuiesceIsSteps(d, s);
      CountersGrow(d, s, StepsToQuiet(d, s));
    }
  }

  /** The number of steps left. */
  function StepsToQuiet(d: Dispatcher, s: Sys): nat
    decreases Measure(s)
  {
    StepProgress(d, s);
    if Quiet(s) then 0 else 1 + StepsToQuiet(d, Step(d, s))
  }

  lemma {:induction false} QuiesceIsSteps(d: Dispatcher, s: Sys)
    ensures Quiesce(d, s) == Steps(d, s, StepsToQuiet(d, s))
    decreases Measure(s)
  {
    StepProgress(d, s);
    if !Quiet(s) {
      QuiesceIsSteps(d, Step(d, s));
    }
  }

  lemma {:induction false} CountersGrow(d: Dispatcher, s: Sys, n: nat)
    ensures s.common.fired <= Steps(d, s, n).common.fired
    ensures s.common.fired2 <= Steps(d, s, n).common.fired2
    decreases n
  {
    hide Step;
    StepProgress(d, s);
    if n > 0 {
      CountersGrow(d, Step(d, s), n - 1);
    }
  }

  // ---------------------------------------------------------------- whole runs

  /** An idle, enabled line with a pend latched and the first handler in place. */
  predicate Armed(d: Dispatcher, s: Sys) {
    Valid(d, s) && s.kernel.pc == Idle && s.line.enabled && s.line.pending && s.kernel.h1
  }

  /** The re-pends the first handler will still do. */
  function Held(s: Sys): nat {
    if s.common.mode == Decline then 0 else s.common.budget
  }

  function Claimed(s: Sys): bool {
    s.common.mode == Claim || s.kernel.h2
  }

  /** The state k deliveries later, as far as the handlers go. */
  function Served(s: Sys, k: nat): Sys
    requires 1 <= k <= Held(s) + 1
  {
    Sys(
      s.line.(pending := k <= Held(s)),
      s.common.(fired := s.common.fired + k,
      fired2 := if s.kernel.h2 then s.common.fired2 + k else s.common.fired2,
      budget := if k <= Held(s) then s.common.budget - k else s.common.budget - Held(s)),
      s.kernel.(claimed := Claimed(s)))
  }

  function Masked(s: Sys): Sys {
    Sys(s.line.(enabled := false), s.common, s.kernel.(run := 0))
  }

  function WithRun(s: Sys, run: nat): Sys {
    s.(kernel := s.kernel.(run := run))
  }

  /** The main thread's write to the set-pending register. */
  function Pended(s: Sys): Sys {
    s.(line := s.line.(pending := true))
  }

  /** One whole delivery. */
  function Deliver(d: Dispatcher, s: Sys): Sys {
    AccountFor(d, Served(s, 1))
  }

  lemma {:induction false} DeliverIsSixSteps(d: Dispatcher, s: Sys)
    requires Armed(d, s)
    ensures Steps(d, s, 6) == Deliver(d, s)
    ensures Valid(d, Deliver(d, s))
  {
  }

  /**
   The delivery at which a line re-pended b times from inside its handler is masked, for
   a run that stands at r: each of the first b deliveries leaves the line pending, the
   one after them releases it.
   */
  function MaskedAt(d: Dispatcher, claimed: bool, r: nat, b: nat): Option<nat>
    requires d.limit.Some? ==> r < d.limit.value
  {
    if d.limit.None? then None
    else
      var k := d.limit.value - r;
      if k <= b && Counts(d, claimed, true) then Some(k)
      else if k == b + 1 && Counts(d, claimed, false) then Some(k)
      else None
  }

  /** Where an armed line comes to rest. */
  function Outcome(d: Dispatcher, s: Sys): Sys
    requires Armed(d, s)
  {
    var b := Held(s);
    match MaskedAt(d, Claimed(s), s.kernel.run, b)
    case Some(k) => Masked(Served(s, k))
    case None =>
      WithRun(Served(s, b + 1),
              if d.limit.Some? && Counts(d, Claimed(s), false) then s.kernel.run + b + 1 else 0)
  }

  /**
   For every dispatcher, mode, budget and run so far: the storm ends, and this is how
   many deliveries it took, whether the line was masked and what is left latched.
   */
  lemma {:induction false} StormOutcome(d: Dispatcher, s: Sys)
    requires Armed(d, s)
    ensures Quiesce(d, s) == Outcome(d, s)
    decreases Held(s)
  {
    var t := Deliver(d, s);
    DeliverIsSixSteps(d, s);
    StepsConfluent(d, s, 6);
    if t.line.enabled && t.line.pending {
      StormOutcome(d, t);
      assert Held(t) == Held(s) - 1;
    } else {
      assert Quiet(t);
    }
  }

  /** What the delivery in flight, if any, may still add to a counter. */
  function InFlight(which: Which, s: Sys): nat {
    match which
    case Fired => if s.kernel.pc == Entry then 1 else 0
    case Fired2 => if s.kernel.pc == Entry || s.kernel.pc == Repend || s.kernel.pc == Second then 1 else 0
  }

  /** One step uses up at least as much of the bound as it adds to the counter. */
  lemma StepBounded(d: Dispatcher, s: Sys, which: Which)
    ensures var t := Step(d, s);
            Counter(which, t) + Held(t) + (if t.line.pending then 1 else 0) + InFlight(which, t) <=
            Counter(which, s) + Held(s) + (if s.line.pending then 1 else 0) + InFlight(which, s)
  {
  }

  /** No schedule delivers more often than the latched pend, the budget and the delivery in flight allow. */
  lemma {:induction false} DeliveriesBounded(d: Dispatcher, s: Sys, which: Which)
    ensures Counter(which, Quiesce(d, s)) <=
            Counter(which, s) + Held(s) + (if s.line.pending then 1 else 0) + InFlight(which, s)
    decreases Measure(s)
  {
    StepProgress(d, s);
    if !Quiet(s) {
      hide Step, Held, InFlight, Counter;
      StepBounded(d, s, which);
      DeliveriesBounded(d, Step(d, s), which);
    }
  }

  /**
   Declined and held, from a fresh run: masked exactly when the budget reaches the
   threshold, after exactly threshold deliveries, with the pend latched and the rest of
   the budget unspent; a kernel without the guard serves all of it and comes to rest.
   */
  lemma DeclinedAndHeld(d: Dispatcher, s: Sys)
    requires Armed(d, s) && Conforming(d) && s.common.mode == DeclineHeld && !s.kernel.h2 && s.kernel.run == 0
    ensures !Quiesce(d, s).line.enabled <==> d.limit.Some? && d.limit.value <= s.common.budget
    ensures !Quiesce(d, s).line.enabled ==>
              && Quiesce(d, s).common.fired == s.common.fired + d.limit.value
              && Quiesce(d, s).line.pending
              && Quiesce(d, s).common.budget == s.common.budget - d.limit.value
    ensures Quiesce(d, s).line.enabled ==>
              && Quiesce(d, s).common.fired == s.common.fired + s.common.budget + 1
              && !Quiesce(d, s).line.pending
              && Quiesce(d, s).common.budget == 0
  {
    StormOutcome(d, s);
  }

  /** Claimed and held: all budget + 1 deliveries happen, whatever the threshold, and the line stays enabled. */
  lemma ClaimedAndHeld(d: Dispatcher, s: Sys)
    requires Armed(d, s) && Conforming(d) && s.common.mode == Claim
    ensures Quiesce(d, s) == WithRun(Served(s, s.common.budget + 1), 0)
    ensures Quiesce(d, s).line.enabled && Quiesce(d, s).common.fired == s.common.fired + s.common.budget + 1
  {
    StormOutcome(d, s);
  }

  /** A masked line stays masked until the main thread enables it. */
  lemma {:induction false} MaskedAtRest(d: Dispatcher, s: Sys)
    requires Valid(d, s) && !s.line.enabled
    ensures !Quiesce(d, s).line.enabled
    decreases Measure(s)
  {
    StepProgress(d, s);
    if !Quiet(s) {
      MaskedAtRest(d, Step(d, s));
    }
  }

  /** A line that comes to rest enabled was never masked on the way, at any step. */
  lemma EnabledThroughout(d: Dispatcher, s: Sys, n: nat)
    requires Valid(d, s) && Quiesce(d, s).line.enabled
    ensures Steps(d, s, n).line.enabled
  {
    StepsConfluent(d, s, n);
    if !Steps(d, s, n).line.enabled {
      MaskedAtRest(d, Steps(d, s, n));
    }
  }

  /** Pend the line and let the delivery end, n times over. */
  function PendTimes(d: Dispatcher, s: Sys, n: nat): Sys
    decreases n
  {
    if n == 0 then s else PendTimes(d, Quiesce(d, Pended(s)), n - 1)
  }

  /** Declined and released: n pends are n deliveries and the line stays enabled, for every n. */
  lemma {:induction false} DeclinedAndReleased(d: Dispatcher, s: Sys, n: nat)
    requires Valid(d, s) && Quiet(s) && Conforming(d) && s.common.mode == Decline && s.kernel.h1 && s.line.enabled
    ensures var r := PendTimes(d, s, n);
            r.line.enabled && !r.line.pending && r.common.fired == s.common.fired + n && Valid(d, r) && Quiet(r)
    decreases n
  {
    if n > 0 {
      var armed := Pended(s);
      StormOutcome(d, armed);
      DeclinedAndReleased(d, Quiesce(d, armed), n - 1);
    }
  }

  // ---------------------------------------------------------------- the idle poll

  /**
   The four reads of one poll, with a, b, c and e steps of the interrupt side before
   each: the counter, the active bit, the pending bit and, if it is set, the enable bit.
   */
  predicate ReportsIdle(d: Dispatcher, s: Sys, which: Which, target: nat, a: nat, b: nat, c: nat, e: nat) {
    var s1 := Steps(d, s, a);
    var s2 := Steps(d, s1, b);
    var s3 := Steps(d, s2, c);
    var s4 := Steps(d, s3, e);
    Counter(which, s1) == target && !s2.line.active && (!s3.line.pending || !s4.line.enabled)
  }

  /** The state in which that poll answers. */
  function PollEnd(d: Dispatcher, s: Sys, a: nat, b: nat, c: nat, e: nat): Sys {
    Steps(d, s, a + b + c + e)
  }

  /** Both handlers' counters advance with each delivery that is still to come. */
  lemma IdleButNotQuiet(d: Dispatcher, s: Sys, which: Which)
    requires Armed(d, s) && (which == Fired2 ==> s.kernel.h2)
    ensures Counter(which, s) < Counter(which, Quiesce(d, s))
  {
    StormOutcome(d, s);
  }

  /**
   The poll is sound for every schedule when the target is not short of the count at
   which the run ends: an idle answer means the line is at rest and stays so.
   */
  lemma {:induction false} PollSound(d: Dispatcher, s: Sys, which: Which, target: nat, a: nat, b: nat, c: nat, e: nat)
    requires Valid(d, s) && s.kernel.h1 && (which == Fired2 ==> s.kernel.h2)
    requires Counter(which, Quiesce(d, s)) <= target
    requires ReportsIdle(d, s, which, target, a, b, c, e)
    ensures PollEnd(d, s, a, b, c, e) == Quiesce(d, s)
  {
    var s1 := Steps(d, s, a);
    var s2 := Steps(d, s1, b);
    HandlersStay(d, s, a);
    HandlersStay(d, s1, b);
    StepsConfluent(d, s, a);
    StepsConfluent(d, s1, b);
    if !Quiet(s2) {
      IdleButNotQuiet(d, s2, which);
    }
    StepsConfluent(d, s2, c + e);
    StepsSplit(d, s, a, b);
    StepsSplit(d, s, a + b, c + e);
    assert a + b + c + e == (a + b) + (c + e);
  }

  lemma {:induction false} HandlersStay(d: Dispatcher, s: Sys, n: nat)
    ensures Steps(d, s, n).kernel.h1 == s.kernel.h1 && Steps(d, s, n).kernel.h2 == s.kernel.h2
    ensures Steps(d, s, n).common.mode == s.common.mode
    decreases n
  {
    hide Step;
    StepProgress(d, s);
    if n > 0 {
      HandlersStay(d, Step(d, s), n - 1);
    }
  }

  /** Some schedule makes the poll answer idle while a delivery is under way. */
  ghost predicate CanLie(d: Dispatcher, s: Sys, which: Which, target: nat) {
    exists a: nat, b: nat, c: nat, e: nat ::
      ReportsIdle(d, s, which, target, a, b, c, e) && !Quiet(PollEnd(d, s, a, b, c, e))
  }

  /** The state in which the delivery in flight ends; between deliveries, the state itself. */
  function DeliveryEnd(d: Dispatcher, s: Sys): Sys {
    Steps(d, s, StepsLeft(s))
  }

  /** The delivery in flight ends after the steps that are left, and counts at most once more. */
  lemma {:induction false} DeliveryEnds(d: Dispatcher, s: Sys, which: Which)
    requires Valid(d, s) && s.kernel.h1 && (which == Fired2 ==> s.kernel.h2)
    ensures DeliveryEnd(d, s).kernel.pc == Idle
    ensures Counter(which, DeliveryEnd(d, s)) == Counter(which, s) + InFlight(which, s)
    decreases StepsLeft(s)
  {
    if s.kernel.pc != Idle {
      StepKeeps(d, s);
      DeliveryEnds(d, Step(d, s), which);
    }
  }

  /** Until then the line is not idle. */
  lemma {:induction false} IdleNoSooner(d: Dispatcher, s: Sys, n: nat)
    requires Valid(d, s) && s.kernel.h1 && Steps(d, s, n).kernel.pc == Idle
    ensures n >= StepsLeft(s)
    decreases n
  {
    if n > 0 && s.kernel.pc != Idle {
      StepKeeps(d, s);
      IdleNoSooner(d, Step(d, s), n - 1);
    }
  }

  /** When the delivery in flight leaves the line at rest, an idle line is at rest. */
  lemma IdleAfterLast(d: Dispatcher, s: Sys, n: nat)
    requires Valid(d, s) && s.kernel.h1 && Steps(d, s, n).kernel.pc == Idle
    requires Quiet(DeliveryEnd(d, s))
    ensures Quiet(Steps(d, s, n))
  {
    hide Step;
    var k := StepsLeft(s);
    IdleNoSooner(d, s, n);
    StepsSplit(d, s, k, n - k);
    StepsConfluent(d, s, k);
    StepsConfluent(d, DeliveryEnd(d, s), n - k);
  }

  /**
   Exactly when a poll can be trusted, from any state: the run must not pass through the
   target on its way to a higher count, unless the delivery in flight is its last one.
   */
  lemma PollTrustworthyIff(d: Dispatcher, s: Sys, which: Which, target: nat)
    requires Valid(d, s) && s.kernel.h1 && (which == Fired2 ==> s.kernel.h2)
    ensures CanLie(d, s, which, target) <==>
            Counter(which, s) <= target < Counter(which, Quiesce(d, s)) && !Quiet(DeliveryEnd(d, s))
    ensures s.kernel.pc == Idle ==>
              (CanLie(d, s, which, target) <==> Counter(which, s) <= target < Counter(which, Quiesce(d, s)))
  {
    hide Step, Measure;
    assert s.kernel.pc == Idle ==> DeliveryEnd(d, s) == s;
    if Quiet(DeliveryEnd(d, s)) || Counter(which, Quiesce(d, s)) <= target || target < Counter(which, s) {
      forall a: nat, b: nat, c: nat, e: nat | ReportsIdle(d, s, which, target, a, b, c, e)
        ensures Quiet(PollEnd(d, s, a, b, c, e))
      {
        PollTrusted(d, s, which, target, a, b, c, e);
      }
    } else {
      PollFooled(d, s, which, target);
    }
  }

  lemma PollTrusted(d: Dispatcher, s: Sys, which: Which, target: nat, a: nat, b: nat, c: nat, e: nat)
    requires Valid(d, s) && s.kernel.h1 && (which == Fired2 ==> s.kernel.h2)
    requires Quiet(DeliveryEnd(d, s)) || Counter(which, Quiesce(d, s)) <= target || target < Counter(which, s)
    requires ReportsIdle(d, s, which, target, a, b, c, e)
    ensures Quiet(PollEnd(d, s, a, b, c, e))
  {
    hide Step, Measure;
    StepsConfluent(d, s, a);
    if Counter(which, Quiesce(d, s)) <= target {
      PollSound(d, s, which, target, a, b, c, e);
    } else {
      StepsSplit(d, s, a, b);
      StepsSplit(d, s, a + b, c + e);
      StepsConfluent(d, s, a + b);
      IdleAfterLast(d, s, a + b);
      StepsConfluent(d, Steps(d, s, a + b), c + e);
      assert a + b + c + e == (a + b) + (c + e);
    }
  }

  /** The schedule that fools it: the line is armed again when it is found inactive. */
  lemma PollFooled(d: Dispatcher, s: Sys, which: Which, target: nat)
    requires Valid(d, s) && s.kernel.h1 && (which == Fired2 ==> s.kernel.h2)
    requires Counter(which, s) <= target < Counter(which, Quiesce(d, s)) && !Quiet(DeliveryEnd(d, s))
    ensures CanLie(d, s, which, target)
  {
    hide Step, Measure;
    var t, k := DeliveryEnd(d, s), StepsLeft(s);
    DeliveryEnds(d, s, which);
    StepsConfluent(d, s, k);
    HandlersStay(d, s, k);
    if Counter(which, t) <= target {
      var a := StepsUntil(d, t, which, target);
      StepsSplit(d, s, k, a);
      PollLies(d, s, which, target, k + a, 0);
    } else {
      assert Steps(d, s, 0) == s;
      PollLies(d, s, which, target, 0, k);
    }
  }

  /** An armed line polled for the count it is at: one acknowledge between two reads is missed. */
  lemma ArmedLineFoolsPoll(d: Dispatcher, s: Sys, which: Which)
    requires Armed(d, s)
    ensures CanLie(d, s, which, Counter(which, s))
  {
    assert Steps(d, s, 0) == s;
    PollLies(d, s, which, Counter(which, s), 0, 0);
  }

  /** The delivery that takes the counter past the target starts from an armed line. */
  lemma {:induction false} StepsUntil(d: Dispatcher, s: Sys, which: Which, target: nat) returns (a: nat)
    requires Valid(d, s) && s.kernel.pc == Idle && s.kernel.h1 && (which == Fired2 ==> s.kernel.h2)
    requires Counter(which, s) <= target < Counter(which, Quiesce(d, s))
    ensures Armed(d, Steps(d, s, a)) && Counter(which, Steps(d, s, a)) == target
    decreases Measure(s)
  {
    assert !Quiet(s);
    if Counter(which, s) == target {
      a := 0;
    } else {
      var t := Deliver(d, s);
      DeliverIsSixSteps(d, s);
      StepsConfluent(d, s, 6);
      assert Measure(t) < Measure(s);
      var k := StepsUntil(d, t, which, target);
      StepsSplit(d, s, 6, k);
      a := 6 + k;
    }
  }

  /** From there one acknowledge between two reads is enough. */
  lemma PollLies(d: Dispatcher, s: Sys, which: Which, target: nat, a: nat, b: nat)
    requires Counter(which, Steps(d, s, a)) == target && Armed(d, Steps(d, s, a + b))
    ensures CanLie(d, s, which, target)
  {
    var s1 := Steps(d, s, a);
    var s2 := Steps(d, s1, b);
    StepsSplit(d, s, a, b);
    assert Steps(d, s2, 1) == Steps(d, Step(d, s2), 0) == Step(d, s2);
    StepsSplit(d, s, a + b, 1);
    assert Steps(d, Step(d, s2), 0) == Step(d, s2);
    assert ReportsIdle(d, s, which, target, a, b, 1, 0);
    assert PollEnd(d, s, a, b, 1, 0) == Step(d, s2);
  }
}
