/**
 The dispatcher's counter against the contract it is documented by: a delivery masks
 the line exactly when it is the last of `threshold` deliveries in a row that every
 handler declined and that left the line pending. The counter only ever sees one
 delivery; the contract looks back over the history, for every interleaving with what
 the main thread may do to the line, the handlers and their shared variables.
 */
module GuardContract {
  import opened UnclaimedGuard

  /** One accounted delivery. */
  datatype Delivery = Delivery(claimed: bool, held: bool, masked: bool)

  datatype Action =
    | Tick
    | Pend
    | ClearPend
    | SetMode(mode: Mode)
    | SetBudget(budget: nat)
    | ResetCounters
    | Register(second: bool)
    | Remove(second: bool)

  datatype World = World(sys: Sys, log: seq<Delivery>)

  predicate Qualifies(d: Dispatcher, e: Delivery) {
    Counts(d, e.claimed, e.held)
  }

  function Logged(d: Dispatcher, s: Sys): Delivery {
    Delivery(s.kernel.claimed, s.line.pending,
             d.limit.Some? && Counts(d, s.kernel.claimed, s.line.pending) && s.kernel.run + 1 >= d.limit.value)
  }

  function Act(d: Dispatcher, w: World, a: Action): World {
    var s := w.sys;
    match a
    case Tick =>
      World(Step(d, s), if s.kernel.pc == Account then w.log + [Logged(d, s)] else w.log)
    case Pend => w.(sys := Pended(s))
    case ClearPend => w.(sys := s.(line := s.line.(pending := false)))
    case SetMode(m) => w.(sys := s.(common := s.common.(mode := m)))
    case SetBudget(b) => w.(sys := s.(common := s.common.(budget := b)))
    case ResetCounters => w.(sys := s.(common := s.common.(fired := 0, fired2 := 0)))
    case Register(second) => w.(sys := Registered(d, s, second))
    case Remove(second) => w.(sys := Removed(d, s, second))
  }

  function Play(d: Dispatcher, w: World, trace: seq<Action>): World {
    if trace == [] then w else Act(d, Play(d, w, trace[..|trace| - 1]), trace[|trace| - 1])
  }

  /** The contract's reading of delivery i: the threshold-th in a row, counting from the last masking. */
  ghost predicate MaskDue(d: Dispatcher, log: seq<Delivery>, i: int)
    requires 0 <= i < |log|
  {
    && d.limit.Some?
    && d.limit.value <= i + 1
    && forall j :: i + 1 - d.limit.value <= j <= i ==> Qualifies(d, log[j]) && (j < i ==> !log[j].masked)
  }

  ghost predicate MeetsContract(d: Dispatcher, log: seq<Delivery>) {
    forall i :: 0 <= i < |log| ==> (log[i].masked <==> MaskDue(d, log, i))
  }

  /** The run is the length of the longest tail of counted deliveries since the last masking. */
  ghost predicate RunIsTail(d: Dispatcher, log: seq<Delivery>, run: nat) {
    && run <= |log|
    && (d.limit.Some? ==> run < d.limit.value)
    && (forall j :: |log| - run <= j < |log| ==> Qualifies(d, log[j]) && !log[j].masked)
    && (d.limit.Some? && run < |log| ==>
          !Qualifies(d, log[|log| - run - 1]) || log[|log| - run - 1].masked)
  }

  lemma {:induction false} AccountKeepsContract(d: Dispatcher, s: Sys, log: seq<Delivery>)
    requires MeetsContract(d, log) && RunIsTail(d, log, s.kernel.run)
    ensures MeetsContract(d, log + [Logged(d, s)])
    ensures RunIsTail(d, log + [Logged(d, s)], AccountFor(d, s).kernel.run)
  {
    var e := Logged(d, s);
    var log' := log + [e];
    var n := |log|;
    forall i | 0 <= i < |log'| ensures log'[i].masked <==> MaskDue(d, log', i) {
      if i < n {
        EarlierUnaffected(d, log, e, i);
      } else if d.limit.Some? && Qualifies(d, e) {
        var t := d.limit.value;
        if s.kernel.run + 1 < t <= n + 1 {
          // the run is cut short by a delivery that is inside the window
          var cut := n - s.kernel.run - 1;
          assert log'[cut] == log[cut];
        }
      }
    }
  }

  lemma EarlierUnaffected(d: Dispatcher, log: seq<Delivery>, e: Delivery, i: int)
    requires 0 <= i < |log|
    ensures MaskDue(d, log + [e], i) <==> MaskDue(d, log, i)
  {
    assert forall j :: 0 <= j < |log| ==> (log + [e])[j] == log[j];
  }

  /**
   In every reachable state of every interleaving the log meets the contract and the
   dispatcher's counter is the tail it claims to be.
   */
  lemma {:induction false} GuardMeetsContract(d: Dispatcher, s: Sys, trace: seq<Action>)
    requires s.kernel.run == 0
    ensures var w := Play(d, World(s, []), trace);
            MeetsContract(d, w.log) && RunIsTail(d, w.log, w.sys.kernel.run)
    decreases |trace|
  {
    if trace != [] {
      var before := trace[..|trace| - 1];
      GuardMeetsContract(d, s, before);
      var w := Play(d, World(s, []), before);
      if trace[|trace| - 1] == Tick && w.sys.kernel.pc == Account {
        AccountKeepsContract(d, w.sys, w.log);
      }
    }
  }

  /**
   The contract leaves no freedom: two histories that agree on what was claimed and held
   and both meet it mask the same deliveries. So whatever is proved of this counter's
   masking holds of every dispatcher that meets the contract.
   */
  lemma ContractDeterminesMasking(d: Dispatcher, log: seq<Delivery>, other: seq<Delivery>)
    requires MeetsContract(d, log) && MeetsContract(d, other)
    requires |log| == |other|
    requires forall i :: 0 <= i < |log| ==> log[i].claimed == other[i].claimed && log[i].held == other[i].held
    ensures log == other
  {
    SameMasking(d, log, other, |log|);
  }

  lemma {:induction false} SameMasking(d: Dispatcher, log: seq<Delivery>, other: seq<Delivery>, n: nat)
    requires MeetsContract(d, log) && MeetsContract(d, other)
    requires n <= |log| == |other|
    requires forall i :: 0 <= i < |log| ==> log[i].claimed == other[i].claimed && log[i].held == other[i].held
    ensures forall i :: 0 <= i < n ==> log[i] == other[i]
  {
    if n > 0 {
      SameMasking(d, log, other, n - 1);
      assert MaskDue(d, log, n - 1) <==> MaskDue(d, other, n - 1);
    }
  }

  /** The kernel takes an enabled line out of service only in a delivery that is due to be masked. */
  lemma OnlyDueDeliveriesMask(d: Dispatcher, s: Sys, trace: seq<Action>)
    requires s.kernel.run == 0
    ensures var w := Play(d, World(s, []), trace);
            var w' := Act(d, w, Tick);
            w.sys.line.enabled ==>
              (!w'.sys.line.enabled <==>
               w.sys.kernel.pc == Account && MaskDue(d, w'.log, |w'.log| - 1))
  {
    var w := Play(d, World(s, []), trace);
    GuardMeetsContract(d, s, trace);
    if w.sys.kernel.pc == Account {
      AccountKeepsContract(d, w.sys, w.log);
    }
  }
}
