/**
 The irq-unclaimed test program running against the step system of `UnclaimedGuard`.
 The main thread's reads and writes are separate steps: before each of them the
 interrupt side may take any number of steps (`Interfere`). Waiting is bounded by the
 interrupt side coming to rest: a deadline passes only after the line went quiet and was
 polled once more, and a sleep lasts until the line is quiet or one more delivery was
 counted.
 */
module UnclaimedTest {
  import opened Options
  import opened Gicd
  import opened UnclaimedGuard

  datatype Verdict =
    | Skip | Pass
    | FailA | FailB
    | FailNotMasked | FailWrongCount
    | FailNotRegistered | FailD
    | FailCleanup

  /**
   What the test reports on each kernel, by arithmetic alone. A kernel that ignores both
   the claim and the released line passes when its threshold is five times the limit:
   phases A and B have then used up four limits of it and phase C the fifth.
   */
  function Expected(d: Dispatcher, limit: Threshold, registers: bool): Verdict {
    var good :=
      if !registers then FailNotRegistered
      else if !d.upkeep.enablesFurther then FailD
      else if !d.upkeep.disablesLast then FailCleanup
      else Pass;
    if !d.upkeep.enablesFirst then FailA
    else
    match d.limit
    case None => FailNotMasked
    case Some(t) =>
      match (d.heedsClaim, d.heedsPending)
      case (true, true) =>
        if t == limit then good else if t <= 3 * limit then FailWrongCount else FailNotMasked
      case (false, true) =>
        if t < 2 * limit then FailB else if t <= 3 * limit then FailWrongCount else FailNotMasked
      case (true, false) =>
        if t <= 2 * limit then FailA else if t <= 3 * limit + 1 then FailWrongCount else FailNotMasked
      case (false, false) =>
        if t <= 2 * limit then FailA
        else if t <= 4 * limit then FailB
        else if t == 5 * limit then good
        else if t <= 7 * limit + 1 then FailWrongCount
        else FailNotMasked
  }

  /** Deliveries in phases A and B that a kernel ignoring the released line keeps counting. */
  function RunAfterA(d: Dispatcher, limit: Threshold): nat {
    if d.limit.Some? && Counts(d, false, false) then 2 * limit else 0
  }

  function RunAfterB(d: Dispatcher, limit: Threshold): nat {
    if d.limit.Some? && Counts(d, true, false) then RunAfterA(d, limit) + 2 * limit else 0
  }

  predicate PassesA(d: Dispatcher, limit: Threshold) {
    d.upkeep.enablesFirst && (d.limit.Some? ==> RunAfterA(d, limit) < d.limit.value)
  }

  predicate PassesB(d: Dispatcher, limit: Threshold) {
    PassesA(d, limit) && MaskedAt(d, true, RunAfterA(d, limit), 2 * limit - 1).None?
  }

  predicate PassesC(d: Dispatcher, limit: Threshold) {
    && PassesB(d, limit)
    && (d.limit.Some? ==> RunAfterB(d, limit) < d.limit.value)
    && MaskedAt(d, false, RunAfterB(d, limit), 3 * limit) == Some(limit)
  }

  /** The line at rest between two phases: idle, first handler in place, nothing in flight. */
  predicate AtRest(d: Dispatcher, s: Sys) {
    Valid(d, s) && Quiet(s) && s.kernel.h1
  }

  class Board {
    const d: Dispatcher
    const gicd: Distributor
    const irq: nat

    var mode: Mode
    var fired: nat
    var fired2: nat
    var budget: nat

    var h1: bool
    var h2: bool
    var pc: Pc
    var claimed: bool
    var run: nat

    constructor (d: Dispatcher, gicd: Distributor, irq: nat)
      ensures this.d == d && this.gicd == gicd && this.irq == irq
      ensures !h1 && !h2 && pc == Idle && run == 0
    {
      this.d, this.gicd, this.irq := d, gicd, irq;
      mode, fired, fired2, budget := Decline, 0, 0, 0;
      h1, h2, pc, claimed, run := false, false, Idle, false, 0;
    }

    predicate Implemented() {
      irq < LineCount(gicd.typer)
    }

    predicate IsEnabled()
      reads gicd
    {
      irq in gicd.enabled
    }

    predicate IsPending()
      reads gicd
    {
      irq in gicd.pending
    }

    predicate IsActive()
      reads gicd
    {
      irq in gicd.active
    }

    function View(): Sys
      reads this, gicd
    {
      Sys(Line(IsEnabled(), IsPending(), IsActive()),
          Common(mode, fired, fired2, budget),
          Kernel(h1, h2, pc, claimed, run))
    }

    /** The state of every other interrupt. */
    ghost function Others(): (set<nat>, set<nat>, set<nat>)
      reads gicd
    {
      (gicd.enabled - {irq}, gicd.pending - {irq}, gicd.active - {irq})
    }

    /** The interrupt controller, or the kernel through it, changes the state of this line. */
    method Drive(line: Line)
      modifies gicd
      ensures View() == old(View()).(line := line)
      ensures Others() == old(Others())
    {
      gicd.enabled := if line.enabled then gicd.enabled + {irq} else gicd.enabled - {irq};
      gicd.pending := if line.pending then gicd.pending + {irq} else gicd.pending - {irq};
      gicd.active := if line.active then gicd.active + {irq} else gicd.active - {irq};
      assert gicd.enabled - {irq} == old(gicd.enabled) - {irq};
      assert gicd.pending - {irq} == old(gicd.pending) - {irq};
      assert gicd.active - {irq} == old(gicd.active) - {irq};
    }

    /** The program pends the line through the set-pending bank. */
    method Pend()
      requires Implemented()
      modifies gicd
      ensures View() == Pended(old(View()))
      ensures Others() == old(Others())
    {
      gicd.SetBit(ISPENDR, irq);
      assert gicd.pending - {irq} == old(gicd.pending) - {irq};
    }

    method ClearPend()
      requires Implemented()
      modifies gicd
      ensures View() == old(View()).(line := old(View()).line.(pending := false))
      ensures Others() == old(Others())
    {
      gicd.SetBit(ICPENDR, irq);
      assert gicd.pending - {irq} == old(gicd.pending) - {irq};
    }

    /** The program reads one of the line's three bits. */
    method IsSet(reg: nat) returns (set_: bool)
      requires Implemented() && IsBank(reg)
      ensures set_ <==> irq in gicd.Lines(reg)
    {
      var bit := gicd.Bit(reg, irq);
      set_ := bit != 0;
    }

    /** The processor acknowledges: the pend is consumed and the line becomes active. */
    method Acknowledge()
      requires Implemented() && pc == Idle
      modifies this, gicd
      ensures Others() == old(Others())
      ensures View() == Step(d, old(View()))
    {
      if IsEnabled() && IsPending() {
        Drive(Line(true, false, true));
        claimed, pc := false, Entry;
      }
    }

    /** The first handler counts the delivery. */
    method CountInFirst()
      requires Implemented() && pc == Entry
      modifies this, gicd
      ensures Others() == old(Others())
      ensures View() == Step(d, old(View()))
    {
      if h1 {
        fired := fired + 1;
        pc := Repend;
      } else {
        pc := Second;
      }
    }

    /** The first handler re-pends the line if its mode and budget say so, and answers. */
    method RependInFirst()
      requires Implemented() && pc == Repend
      modifies this, gicd
      ensures Others() == old(Others())
      ensures View() == Step(d, old(View()))
    {
      if mode != Decline && budget != 0 {
        budget := budget - 1;
        Pend();
      }
      claimed := mode == Claim;
      pc := Second;
    }

    method RunSecond()
      requires Implemented() && pc == Second
      modifies this, gicd
      ensures Others() == old(Others())
      ensures View() == Step(d, old(View()))
    {
      if h2 {
        fired2 := fired2 + 1;
        claimed := true;
      }
      pc := Account;
    }

    method AccountDelivery()
      requires Implemented() && pc == Account
      modifies this, gicd
      ensures Others() == old(Others())
      ensures View() == Step(d, old(View()))
    {
      if !Counts(d, claimed, IsPending()) || d.limit.None? {
        run := 0;
      } else if run + 1 >= d.limit.value {
        run := 0;
        Drive(Line(false, IsPending(), IsActive()));
      } else {
        run := run + 1;
      }
      pc := Eoi;
    }

    method EndOfInterrupt()
      requires Implemented() && pc == Eoi
      modifies this, gicd
      ensures Others() == old(Others())
      ensures View() == Step(d, old(View()))
    {
      Drive(Line(IsEnabled(), IsPending(), false));
      pc := Idle;
    }

    method KernelStep()
      requires Implemented()
      modifies this, gicd
      ensures Others() == old(Others())
      ensures View() == Step(d, old(View()))
    {
      match pc
      case Idle => Acknowledge();
      case Entry => CountInFirst();
      case Repend => RependInFirst();
      case Second => RunSecond();
      case Account => AccountDelivery();
      case Eoi => EndOfInterrupt();
    }

    /** Any number of steps of the interrupt side. */
    method Interfere() returns (ghost n: nat)
      requires Implemented()
      modifies this, gicd
      ensures Others() == old(Others())
      ensures View() == Steps(d, old(View()), n)
    {
      n := 0;
      var more: nat := *;
      while more > 0
        invariant Others() == old(Others())
        invariant View() == Steps(d, old(View()), n)
      {
        assert Steps(d, View(), 1) == Steps(d, Step(d, View()), 0) == Step(d, View());
        StepsSplit(d, old(View()), n, 1);
        KernelStep();
        n := n + 1;
        more := more - 1;
      }
    }

    /** The interrupt side runs until nothing is left to do. */
    method Settle()
      requires Implemented()
      modifies this, gicd
      ensures Others() == old(Others())
      ensures View() == Quiesce(d, old(View()))
    {
      while !(pc == Idle && !(IsEnabled() && IsPending()))
        invariant Others() == old(Others())
        invariant Quiesce(d, View()) == Quiesce(d, old(View()))
        decreases Measure(View())
      {
        StepProgress(d, View());
        KernelStep();
      }
    }

    /** One evaluation of the condition in wait_idle: up to four separate reads. */
    method Poll(which: Which, target: nat)
      returns (idle: bool, ghost a: nat, ghost b: nat, ghost c: nat, ghost e: nat)
      requires Implemented()
      modifies this, gicd
      ensures Others() == old(Others())
      ensures View() == PollEnd(d, old(View()), a, b, c, e)
      ensures idle <==> ReportsIdle(d, old(View()), which, target, a, b, c, e)
    {
      hide Step, Others;
      ghost var s := View();
      b, c, e := 0, 0, 0;
      a := Interfere();
      ghost var s1 := View();
      idle := (match which case Fired => fired case Fired2 => fired2) == target;
      if idle {
        b := Interfere();
        ghost var s2 := View();
        StepsSplit(d, s, a, b);
        var active := IsSet(ISACTIVER);
        idle := !active;
        if idle {
          c := Interfere();
          ghost var s3 := View();
          StepsSplit(d, s, a + b, c);
          var pending := IsSet(ISPENDR);
          if pending {
            e := Interfere();
            StepsSplit(d, s, a + b + c, e);
            var enabled := IsSet(ISENABLER);
            idle := !enabled;
          } else {
            assert Steps(d, s3, 0) == s3;
          }
        }
      }
    }

    /**
     Waiting for the target count. When the run cannot go past the target, the answer is
     exact and the line is at rest on return, whatever the interleaving.
     */
    method WaitIdle(which: Which, target: nat) returns (rc: int)
      requires Implemented() && Valid(d, View()) && h1 && (which == Fired2 ==> h2)
      modifies this, gicd
      ensures Others() == old(Others())
      ensures rc == 0 || rc == -1
      ensures Valid(d, View()) && Quiesce(d, View()) == Quiesce(d, old(View()))
      ensures rc == -1 ==> Quiet(View())
      ensures Counter(which, Quiesce(d, old(View()))) <= target ==>
                && View() == Quiesce(d, old(View()))
                && (rc == 0 <==> Counter(which, View()) == target)
    {
      ghost var s := View();
      ghost var n := 0;
      var polls: nat := *;
      while polls > 0
        invariant Others() == old(Others())
        invariant View() == Steps(d, s, n)
      {
        HandlersStay(d, s, n);
        StepsConfluent(d, s, n);
        ghost var t := View();
        var idle, a, b, c, e := Poll(which, target);
        StepsSplit(d, s, n, a + b + c + e);
        n := n + (a + b + c + e);
        StepsConfluent(d, s, n);
        if idle {
          if Counter(which, Quiesce(d, s)) <= target {
            PollSound(d, t, which, target, a, b, c, e);
            StepsConfluent(d, t, a);
          }
          return 0;
        }
        polls := polls - 1;
      }
      StepsConfluent(d, s, n);
      Settle();
      ghost var q := View();
      var idle, a, b, c, e := Poll(which, target);
      StepsConfluent(d, q, a + b + c + e);
      StepsConfluent(d, q, a);
      StepsConfluent(d, q, b);
      StepsConfluent(d, q, c);
      StepsConfluent(d, q, e);
      rc := if idle then 0 else -1;
    }

    /** Time passes before the next statement of the program. */
    method Elapse()
      requires Implemented() && Valid(d, View())
      modifies this, gicd
      ensures Others() == old(Others())
      ensures Valid(d, View()) && Quiesce(d, View()) == Quiesce(d, old(View()))
      ensures fired >= old(fired)
      ensures Measure(View()) <= Measure(old(View()))
      ensures View() != old(View()) ==> Measure(View()) < Measure(old(View()))
      ensures !old(IsEnabled()) ==> !IsEnabled() && fired == old(fired)
      ensures Quiet(old(View())) ==> View() == old(View())
    {
      ghost var s := View();
      var n := Interfere();
      StepsConfluent(d, s, n);
      StrictlyDown(d, s, n);
      MaskedStays(d, s, n);
      assert Counter(Fired, s) <= Counter(Fired, View());
    }

    /** A sleep long enough for the line to go quiet or for one more delivery to be counted. */
    method Sleep()
      requires Implemented() && Valid(d, View())
      modifies this, gicd
      ensures Others() == old(Others())
      ensures Valid(d, View()) && Quiesce(d, View()) == Quiesce(d, old(View()))
      ensures Quiet(View()) || fired > old(fired)
      ensures fired >= old(fired)
      ensures Measure(View()) <= Measure(old(View()))
      ensures View() != old(View()) ==> Measure(View()) < Measure(old(View()))
      ensures !old(IsEnabled()) ==> Quiet(View()) && !IsEnabled()
      ensures Quiet(old(View())) ==> View() == old(View())
    {
      ghost var s := View();
      var start := fired;
      Elapse();
      while !(pc == Idle && !(IsEnabled() && IsPending())) && fired <= start
        invariant Others() == old(Others())
        invariant Valid(d, View()) && Quiesce(d, View()) == Quiesce(d, s)
        invariant start <= fired
        invariant Measure(View()) <= Measure(s)
        invariant View() != s ==> Measure(View()) < Measure(s)
        invariant !s.line.enabled ==> !IsEnabled() && fired == start
        invariant Quiet(s) ==> View() == s
        decreases Measure(View())
      {
        StepProgress(d, View());
        KernelStep();
      }
    }

    /**
     Waiting until the line is masked or the handler stops being called leaves the line at
     rest, although the interrupt side may run on before and between the loop's reads.
     */
    method WaitMaskedOrStalled()
      requires Implemented() && Valid(d, View())
      modifies this, gicd
      ensures Others() == old(Others())
      ensures View() == Quiesce(d, old(View()))
    {
      hide Step, Valid, Measure, Steps;
      ghost var s := View();
      var again := true;
      while again
        invariant Others() == old(Others())
        invariant Valid(d, View()) && Quiesce(d, View()) == Quiesce(d, s)
        invariant again || !IsEnabled() || Quiet(View())
        decreases Measure(View()), again
      {
        Elapse();
        var last := fired;
        Sleep();
        Elapse();
        again := IsSet(ISENABLER);
        if again {
          Elapse();
          again := fired != last;
        }
      }
      Sleep();
    }

    /** Between two statements on a line at rest nothing happens. */
    method Rest()
      requires Implemented() && Quiet(View())
      modifies this, gicd
      ensures Others() == old(Others())
      ensures View() == old(View())
    {
      ghost var s := View();
      var n := Interfere();
      StepsConfluent(d, s, n);
    }

    /** The program gives the handler its budget, then its mode. */
    method Configure(budget: nat, mode: Mode)
      requires Implemented() && Quiet(View())
      modifies this, gicd
      ensures Others() == old(Others())
      ensures View() == old(View()).(common := old(View()).common.(budget := budget, mode := mode))
    {
      this.budget := budget;
      Rest();
      this.mode := mode;
      Rest();
    }

    /** Phase A: declined, line released after each delivery. */
    method PhaseA(limit: Threshold) returns (ok: bool)
      requires Implemented() && AtRest(d, View()) && (IsEnabled() <==> d.upkeep.enablesFirst) && !IsPending() && !h2
      requires mode == Decline && fired == 0 && run == 0
      modifies this, gicd
      ensures Others() == old(Others())
      ensures ok <==> PassesA(d, limit)
      ensures AtRest(d, View()) && h2 == old(h2) && fired2 == old(fired2)
      ensures ok ==> IsEnabled() && !IsPending() && fired == 2 * limit && run == RunAfterA(d, limit)
      ensures fired <= 2 * limit
    {
      ghost var counted := d.limit.Some? && Counts(d, false, false);
      var i := 0;
      while i < 2 * limit
        invariant Others() == old(Others())
        invariant 0 <= i <= 2 * limit
        invariant AtRest(d, View()) && !IsPending() && !h2 && mode == Decline && fired == i && fired2 == old(fired2)
        invariant IsEnabled() ==> run == if counted then i else 0
        invariant !IsEnabled() ==> (counted && i == d.limit.value) || (i == 0 && !d.upkeep.enablesFirst)
        invariant !d.upkeep.enablesFirst ==> !IsEnabled()
      {
        Pend();
        if IsEnabled() {
          StormOutcome(d, View());
        }
        var rc := WaitIdle(Fired, i + 1);
        if rc < 0 {
          break;
        }
        i := i + 1;
      }
      var enabled := IsSet(ISENABLER);
      ok := !(fired != 2 * limit || !enabled);
    }

    /** Phase B: claimed, line held. */
    method PhaseB(limit: Threshold) returns (ok: bool)
      requires Implemented() && AtRest(d, View()) && IsEnabled() && !IsPending() && !h2
      requires PassesA(d, limit) && run == RunAfterA(d, limit)
      modifies this, gicd
      ensures Others() == old(Others())
      ensures ok <==> PassesB(d, limit)
      ensures AtRest(d, View()) && h2 == old(h2) && fired2 == old(fired2)
      ensures ok ==> IsEnabled() && !IsPending() && fired == old(fired) + 2 * limit && run == RunAfterB(d, limit)
      ensures fired <= old(fired) + 2 * limit
    {
      var before := fired;
      Configure(2 * limit - 1, Claim);
      Pend();
      StormOutcome(d, View());
      var rc := WaitIdle(Fired, before + 2 * limit);
      var enabled := IsSet(ISENABLER);
      ok := !(fired - before != 2 * limit || !enabled);
    }

    /** Phase C: declined, line held. */
    method PhaseC(limit: Threshold) returns (masked: bool, count: nat)
      requires Implemented() && AtRest(d, View()) && IsEnabled() && !IsPending() && !h2
      requires PassesB(d, limit) && run == RunAfterB(d, limit)
      modifies this, gicd
      ensures Others() == old(Others())
      ensures masked && count == limit <==> PassesC(d, limit)
      ensures masked <==> MaskedAt(d, false, old(run), 3 * limit).Some?
      ensures AtRest(d, View()) && h2 == old(h2) && fired2 == old(fired2)
      ensures masked && count == limit ==> !IsEnabled() && IsPending() && run == 0
      ensures fired == old(fired) + count && count <= 3 * limit + 1
    {
      var before := fired;
      Configure(3 * limit, DeclineHeld);
      Pend();
      StormOutcome(d, View());
      WaitMaskedOrStalled();
      var enabled := IsSet(ISENABLER);
      masked, count := !enabled, fired - before;
    }

    /** The kernel adds a handler. */
    method Register(second: bool)
      modifies this, gicd
      ensures Others() == old(Others())
      ensures View() == Registered(d, old(View()), second)
    {
      var enables := if h1 || h2 then d.upkeep.enablesFurther else d.upkeep.enablesFirst;
      if second {
        h2 := true;
      } else {
        h1 := true;
      }
      if enables {
        Drive(Line(true, IsPending(), IsActive()));
      }
    }

    /** The kernel drops a handler. */
    method Remove(second: bool)
      modifies this, gicd
      ensures Others() == old(Others())
      ensures View() == Removed(d, old(View()), second)
    {
      if second {
        h2 := false;
      } else {
        h1 := false;
      }
      if !h1 && !h2 && d.upkeep.disablesLast {
        Drive(Line(false, IsPending(), IsActive()));
      }
    }

    /**
     Waiting for the second handler: on an enabled line both handlers serve the latched
     pend and the second one claims it; a disabled line is waited for in vain.
     */
    method AwaitSecond(target: nat)
      requires Implemented() && Valid(d, View()) && pc == Idle && IsPending()
      requires h1 && h2 && mode == Claim && budget == 0 && fired2 < target
      requires IsEnabled() ==> fired2 + 1 == target && run < target
      requires Counts(d, true, false) && d.limit.Some? ==> d.limit.value > target
      modifies this, gicd
      ensures Others() == old(Others())
      ensures AtRest(d, View()) && mode == Claim && h2 && budget == 0 && IsEnabled() == old(IsEnabled())
      ensures IsEnabled() ==> !IsPending() && fired == old(fired) + 1 && fired2 == target && run <= target
      ensures !IsEnabled() ==> View() == old(View())
    {
      if IsEnabled() {
        StormOutcome(d, View());
      }
      var rc := WaitIdle(Fired2, target);
    }

    /** Phase D: a second handler enables the line again; the latched pend fires at once. */
    method PhaseD() returns (ok: bool)
      requires Implemented() && AtRest(d, View()) && !IsEnabled() && IsPending() && !h2 && fired2 == 0 && run == 0
      requires Counts(d, true, false) && d.limit.Some? ==> d.limit.value > 2
      modifies this, gicd
      ensures Others() == old(Others())
      ensures ok <==> d.upkeep.enablesFurther
      ensures AtRest(d, View()) && h2 && fired <= old(fired) + 2
      ensures ok ==> IsEnabled()
    {
      var before := fired;
      Configure(0, Claim);
      Register(true);
      AwaitSecond(1);
      Pend();
      AwaitSecond(2);
      var enabled := IsSet(ISENABLER);
      ok := !(fired2 != 2 || fired - before != 2 || !enabled);
    }

    /** Dropping the handlers: the line is left disabled unless the kernel leaves it as it is. */
    method Cleanup() returns (stillEnabled: bool)
      requires Implemented() && AtRest(d, View())
      modifies this, gicd
      ensures Others() == old(Others())
      ensures stillEnabled <==> old(IsEnabled()) && !d.upkeep.disablesLast
      ensures (IsEnabled() <==> stillEnabled) && !IsPending() && !IsActive() && !h1 && !h2
      ensures fired == old(fired)
    {
      Configure(0, Decline);
      if h2 {
        Remove(true);
        Rest();
      }
      Remove(false);
      Rest();
      ClearPend();
      Rest();
      stillEnabled := IsSet(ISENABLER);
    }

    /**
     The whole test, from the range check on, for every kernel and every interleaving: it
     ends with the verdict of the table, leaves every other interrupt alone and the line
     as it found it, unless the kernel leaves it enabled, and counts no further than seven
     limits and three deliveries.
     */
    method Test(limit: Threshold, firstRegisters: bool, secondRegisters: bool) returns (v: Verdict)
      requires pc == Idle && run == 0 && !h1 && !h2
      modifies this, gicd
      ensures Others() == old(Others())
      ensures v == Skip <==>
              || irq < 32 || !Implemented()
              || old(IsEnabled() || IsPending() || IsActive())
              || !firstRegisters
      ensures v == Skip ==> View().line == old(View().line)
      ensures v != Skip ==> v == Expected(d, limit, secondRegisters)
      ensures v == Pass <==>
              && v != Skip && secondRegisters && d.upkeep == Upkeep(true, true, true)
              && (|| (Conforming(d) && d.limit == Some(limit))
                  || (!d.heedsClaim && !d.heedsPending && d.limit == Some(5 * limit)))
      ensures v != Skip ==> !IsPending() && !IsActive() && !h1 && !h2
      ensures v != Skip && (v == Pass || d.upkeep.disablesLast) ==> !IsEnabled()
      ensures v == FailCleanup ==> IsEnabled()
      ensures v != Skip ==> fired <= 7 * limit + 3
    {
      hide Expected, ByPhases, Others;
      if irq < 32 || irq >= LineCount(gicd.typer) {
        return Skip;
      }
      var enabled := IsSet(ISENABLER);
      var pending := IsSet(ISPENDR);
      var active := IsSet(ISACTIVER);
      if enabled || pending || active {
        return Skip;
      }
      mode, budget, fired, fired2 := Decline, 0, 0, 0;
      if !firstRegisters {
        return Skip;
      }
      Register(false);
      VerdictByPhases(d, limit);
      PassIff(d, limit, secondRegisters);
      v := Phases(limit, secondRegisters);
      var stillEnabled := Cleanup();
      if stillEnabled && v == Pass {
        v := FailCleanup;
      }
    }

    method Phases(limit: Threshold, secondRegisters: bool) returns (v: Verdict)
      requires Implemented() && AtRest(d, View()) && (IsEnabled() <==> d.upkeep.enablesFirst) && !IsPending() && !h2
      requires mode == Decline && fired == 0 && fired2 == 0 && run == 0
      modifies this, gicd
      ensures Others() == old(Others())
      ensures AtRest(d, View()) && fired <= 7 * limit + 3
      ensures v == ByPhases(d, limit, secondRegisters) && v != Skip && v != FailCleanup
      ensures v == Pass ==> IsEnabled()
    {
      var ok := PhaseA(limit);
      if !ok {
        return FailA;
      }
      ok := PhaseB(limit);
      if !ok {
        return FailB;
      }
      var masked, count := PhaseC(limit);
      if !masked {
        return FailNotMasked;
      }
      if count != limit {
        return FailWrongCount;
      }
      if !secondRegisters {
        return FailNotRegistered;
      }
      ok := PhaseD();
      v := if ok then Pass else FailD;
    }
  }

  /** Every step that changes anything takes the measure down. */
  lemma {:induction false} StrictlyDown(d: Dispatcher, s: Sys, n: nat)
    ensures Steps(d, s, n) != s ==> Measure(Steps(d, s, n)) < Measure(s)
    decreases n
  {
    hide Step;
    StepProgress(d, s);
    if n > 0 {
      StrictlyDown(d, Step(d, s), n - 1);
    }
  }

  /** A masked line finishes the delivery it is in and takes no other. */
  lemma {:induction false} MaskedStays(d: Dispatcher, s: Sys, n: nat)
    requires Valid(d, s)
    ensures !s.line.enabled ==> !Steps(d, s, n).line.enabled && Steps(d, s, n).common.fired == s.common.fired
    decreases n
  {
    StepProgress(d, s);
    if n > 0 && !s.line.enabled {
      assert s.kernel.pc == Idle || s.kernel.pc == Eoi;
      MaskedStays(d, Step(d, s), n - 1);
    }
  }

  function ByPhases(d: Dispatcher, limit: Threshold, registers: bool): Verdict {
    if !PassesA(d, limit) then FailA
    else if !PassesB(d, limit) then FailB
    else if && d.limit.Some? && RunAfterB(d, limit) < d.limit.value
            && MaskedAt(d, false, RunAfterB(d, limit), 3 * limit).Some? then
      if !PassesC(d, limit) then FailWrongCount
      else if !registers then FailNotRegistered
      else if !d.upkeep.enablesFurther then FailD
      else Pass
    else FailNotMasked
  }

  /** The kernels the table lets pass: the correct ones, and one kind that ignores everything. */
  lemma PassIff(d: Dispatcher, limit: Threshold, registers: bool)
    ensures Expected(d, limit, registers) == Pass <==>
            && registers && d.upkeep == Upkeep(true, true, true)
            && (|| (Conforming(d) && d.limit == Some(limit))
                || (!d.heedsClaim && !d.heedsPending && d.limit == Some(5 * limit)))
  {
  }

  /** The program run on a kernel that heeds neither the claim nor the released line: it passes. */
  method IgnoringKernelPasses(limit: Threshold, typer: nat, irq: nat) returns (v: Verdict)
    requires 32 <= irq < LineCount(typer)
    ensures v == Pass
  {
    var d := Dispatcher(Some(5 * limit), false, false, Upkeep(true, true, true));
    var gicd := new Distributor(typer);
    var board := new Board(d, gicd, irq);
    v := board.Test(limit, true, true);
  }

  /** Running the phases one after the other comes to the table. */
  lemma VerdictByPhases(d: Dispatcher, limit: Threshold)
    ensures forall registers ::
              var v := ByPhases(d, limit, registers);
              Expected(d, limit, registers) == if v == Pass && !d.upkeep.disablesLast then FailCleanup else v
  {
  }
}
