/**
 The connection test network-sockets: counters updated by a chain of callbacks for every
 attempted connection, and the schedule that decides when the test stops.
 */
module Sockets {

  /** The upper end of every random time. */
  const MAX_RANDOM: int := 10

  /** How an attempted connection turns out. */
  datatype Outcome = Refused | Connected(sent: bool)

  /** What a callback hands to the next one. */
  datatype Passed = Protocol | Nothing | Failure

  datatype Event =
    | Attempt
    | Settled(outcome: Outcome)
    | Closed(clean: bool)

  /** The counters of a setup, and what its connections are up to. */
  datatype Counters = Counters(
    established: int, error: int, done: int, lost: int, iterations: int,
    scheduled: nat, connecting: nat, open: nat)

  /** Is the time after which gotProtocol wants to disconnect one the reactor accepts? */
  predicate CanScheduleDisconnect(connectTime: int, disconnectTime: int) {
    connectTime < 0 || disconnectTime >= 0
  }

  /** Only what was scheduled is attempted, only attempts settle, only open connections close. */
  predicate Possible(c: Counters, e: Event) {
    match e
    case Attempt => c.scheduled > 0
    case Settled(_) => c.connecting > 0
    case Closed(_) => c.open > 0
  }

  predicate Succeeds(outcome: Outcome, schedulable: bool) {
    outcome.Connected? && outcome.sent && schedulable
  }

  function After(c: Counters, e: Event, schedulable: bool): Counters
    requires Possible(c, e)
  {
    match e
    case Attempt =>
      c.(iterations := c.iterations + 1, scheduled := c.scheduled - 1, connecting := c.connecting + 1)
    case Settled(outcome) =>
      c.(connecting := c.connecting - 1,
      established := c.established + (if outcome.Connected? then 1 else 0),
      open := c.open + (if outcome.Connected? then 1 else 0),
      error := c.error - (if Succeeds(outcome, schedulable) then 1 else 0))
    case Closed(clean) =>
      c.(open := c.open - 1,
      done := c.done + (if clean then 1 else 0),
      lost := c.lost + (if clean then 0 else 1))
  }

  function Fresh(maxIterations: nat): Counters {
    Counters(0, maxIterations, 0, 0, 0, maxIterations, 0, 0)
  }

  /** The events are possible one after the other from a fresh setup. */
  predicate Possibles(maxIterations: nat, events: seq<Event>, schedulable: bool)
    decreases |events|, 0
  {
    events == [] ||
    var n := |events| - 1;
    Possibles(maxIterations, events[..n], schedulable) &&
    Possible(AfterAll(maxIterations, events[..n], schedulable), events[n])
  }

  function AfterAll(maxIterations: nat, events: seq<Event>, schedulable: bool): Counters
    requires Possibles(maxIterations, events, schedulable)
    decreases |events|, 1
  {
    if events == [] then Fresh(maxIterations)
    else After(AfterAll(maxIterations, events[..|events| - 1], schedulable), events[|events| - 1], schedulable)
  }

  /** Chains that got through every callback. */
  function Successes(events: seq<Event>, schedulable: bool): nat {
    if events == [] then 0
    else
      var e := events[|events| - 1];
      Successes(events[..|events| - 1], schedulable) +
      if e.Settled? && Succeeds(e.outcome, schedulable) then 1 else 0
  }

  function Refusals(events: seq<Event>): nat {
    if events == [] then 0
    else
      var e := events[|events| - 1];
      Refusals(events[..|events| - 1]) + if e.Settled? && e.outcome.Refused? then 1 else 0
  }

  /**
   Over every interleaving: the error counter is the number of iterations less the chains
   that got through, every established connection is open, cleanly closed or lost, and
   every iteration is scheduled, under way, refused or established.
   */
  lemma {:induction false} CountersConserved(maxIterations: nat, events: seq<Event>, schedulable: bool)
    requires Possibles(maxIterations, events, schedulable)
    ensures var c := AfterAll(maxIterations, events, schedulable);
            && c.error == maxIterations - Successes(events, schedulable)
            && c.done + c.lost + c.open == c.established
            && c.scheduled + c.iterations == maxIterations
            && c.connecting + Refusals(events) + c.established == c.iterations
            && Successes(events, schedulable) <= c.established
            && c.done >= 0 && c.lost >= 0
  {
    if events != [] {
      CountersConserved(maxIterations, events[..|events| - 1], schedulable);
    }
  }

  // ---------------------------------------------------------------- the callbacks

  class SocketTestSetup {
    const maxIterations: nat
    const disconnectTime: int
    const connectTime: int
    var connectionEstablished: int
    var connectionError: int
    var connectionDone: int
    var connectionLost: int
    var iterations: int
    var lastConnectionTime: int
    ghost var scheduled: nat
    ghost var connecting: nat
    ghost var open: nat

    constructor (maxIterations: nat, disconnectTime: int, connectTime: int)
      ensures this.maxIterations == maxIterations
      ensures this.disconnectTime == disconnectTime && this.connectTime == connectTime
      ensures View() == Fresh(maxIterations) && lastConnectionTime == 0
    {
      this.maxIterations := maxIterations;
      this.disconnectTime := disconnectTime;
      this.connectTime := connectTime;
      connectionEstablished, connectionDone, connectionLost := 0, 0, 0;
      connectionError := maxIterations;
      iterations, lastConnectionTime := 0, 0;
      scheduled, connecting, open := maxIterations, 0, 0;
    }

    ghost function View(): Counters
      reads this
    {
      Counters(connectionEstablished, connectionError, connectionDone, connectionLost, iterations,
               scheduled, connecting, open)
    }

    ghost predicate Schedulable() {
      CanScheduleDisconnect(connectTime, disconnectTime)
    }

    /** An attempt starts. */
    method MakeConnection()
      requires Possible(View(), Attempt)
      modifies this
      ensures View() == After(old(View()), Attempt, Schedulable())
      ensures lastConnectionTime == old(lastConnectionTime)
    {
      iterations := iterations + 1;
      scheduled, connecting := scheduled - 1, connecting + 1;
    }

    /** First callback: count, send, schedule the disconnect; the last two can raise. */
    method GotProtocol(sent: bool, draw: int) returns (r: Passed)
      requires 0 <= draw <= MAX_RANDOM
      modifies this`connectionEstablished
      ensures connectionEstablished == old(connectionEstablished) + 1
      ensures r == if sent && (connectTime < 0 || disconnectTime >= 0) then Protocol else Failure
    {
      connectionEstablished := connectionEstablished + 1;
      if !sent {
        return Failure;
      }
      var delay := if connectTime < 0 then draw else disconnectTime;
      if delay < 0 {
        return Failure;
      }
      r := Protocol;
    }

    /** Third callback: only a protocol that came all the way counts as no error. */
    method CountError(p: Passed)
      modifies this`connectionError
      ensures connectionError == old(connectionError) - if p == Protocol then 1 else 0
    {
      if p == Protocol {
        connectionError := connectionError - 1;
      }
    }

    /** The chain: callback, errback, callback, errback. */
    method Settle(outcome: Outcome, draw: int)
      requires Possible(View(), Settled(outcome)) && 0 <= draw <= MAX_RANDOM
      modifies this
      ensures View() == After(old(View()), Settled(outcome), Schedulable())
      ensures lastConnectionTime == old(lastConnectionTime)
    {
      var result := if outcome.Connected? then Protocol else Failure;
      if result != Failure {
        result := GotProtocol(outcome.sent, draw);
      }
      if result == Failure {
        result := Nothing;
      }
      if result != Failure {
        CountError(result);
      }
      connecting := connecting - 1;
      if outcome.Connected? {
        open := open + 1;
      }
    }

    method ConnectionLost(clean: bool)
      requires Possible(View(), Closed(clean))
      modifies this
      ensures View() == After(old(View()), Closed(clean), Schedulable())
      ensures lastConnectionTime == old(lastConnectionTime)
    {
      if clean {
        connectionDone := connectionDone + 1;
      } else {
        connectionLost := connectionLost + 1;
      }
      open := open - 1;
    }

    // -------------------------------------------------------------- the schedule

    /** The times at which connections are attempted, and the last of them. */
    method ScheduleEvents(draws: seq<int>) returns (times: seq<int>)
      requires |draws| == maxIterations
      requires AllDrawn(draws)
      modifies this`lastConnectionTime
      ensures times == AttemptTimes(connectTime, draws)
      ensures lastConnectionTime == if times == [] then 0 else times[|times| - 1]
      ensures forall i :: 0 <= i < |times| ==> 0 <= times[i] <= lastConnectionTime
    {
      var delay := 0;
      times := [];
      for i := 0 to maxIterations
        invariant times == AttemptTimes(connectTime, draws[..i])
        invariant |times| == i && 0 <= delay == (if times == [] then 0 else times[i - 1])
        invariant forall j :: 0 <= j < i ==> 0 <= times[j] <= delay
      {
        assert draws[..i + 1][..i] == draws[..i];
        delay := delay + if connectTime < 0 then draws[i] else connectTime;
        times := times + [delay];
      }
      assert draws[..maxIterations] == draws;
      lastConnectionTime := delay;
    }

    function LastConnectionEndTime(): int
      reads this
    {
      lastConnectionTime + EndAllowance(disconnectTime)
    }
  }

  /** Partial sums of the waits between attempts. */
  function AttemptTimes(connectTime: int, draws: seq<int>): (times: seq<int>)
    ensures |times| == |draws|
  {
    if draws == [] then []
    else
      var n := |draws| - 1;
      var before := AttemptTimes(connectTime, draws[..n]);
      before + [(if n == 0 then 0 else before[n - 1]) + if connectTime < 0 then draws[n] else connectTime]
  }

  /** How long after the last attempt a setup expects its last disconnect. */
  function EndAllowance(disconnectTime: int): int {
    if disconnectTime < 0 then MAX_RANDOM else disconnectTime
  }

  /** When the reactor is told to stop: a second after the latest end, or after the start. */
  method ScheduleStopEvent(setups: seq<SocketTestSetup>) returns (stop: int)
    ensures stop >= 1
    ensures forall i :: 0 <= i < |setups| ==> setups[i].LastConnectionEndTime() + 1 <= stop
    ensures stop == 1 || exists i :: 0 <= i < |setups| && stop == setups[i].LastConnectionEndTime() + 1
  {
    var latest := 0;
    for k := 0 to |setups|
      invariant latest >= 0
      invariant forall i :: 0 <= i < k ==> setups[i].LastConnectionEndTime() <= latest
      invariant latest == 0 || exists i :: 0 <= i < k && latest == setups[i].LastConnectionEndTime()
    {
      var end := setups[k].LastConnectionEndTime();
      if end > latest {
        latest := end;
      }
    }
    stop := latest + 1;
  }

  /** May a connection be told to disconnect this long after it was established? */
  predicate PossibleDelay(connectTime: int, disconnectTime: int, delay: int) {
    if connectTime < 0 then 0 <= delay <= MAX_RANDOM else delay == disconnectTime >= 0
  }

  predicate UnderASecond(latency: real) {
    0.0 <= latency < 1.0
  }

  /** Every scheduled disconnect, with connections taking less than a second, is before `stop`. */
  ghost predicate StopsAfterDisconnects(connectTime: int, disconnectTime: int, times: seq<int>, stop: int) {
    forall i, latency: real, delay ::
      0 <= i < |times| && UnderASecond(latency) && PossibleDelay(connectTime, disconnectTime, delay) ==>
        times[i] as real + latency + delay as real < stop as real
  }

  /** The random disconnect time is drawn when the connect time is random, whatever the disconnect time is. */
  predicate TimesAgree(connectTime: int, disconnectTime: int) {
    connectTime >= 0 || disconnectTime < 0 || disconnectTime >= MAX_RANDOM
  }

  /** What a caller can check: the times agree, or the stop leaves room for any random disconnect. */
  predicate EndsInTime(connectTime: int, disconnectTime: int, times: seq<int>, stop: int) {
    || times == []
    || TimesAgree(connectTime, disconnectTime)
    || times[|times| - 1] + MAX_RANDOM + 1 <= stop
  }

  /**
   A stop no earlier than the setup's own follows all its disconnects exactly when the
   setup ends in time. For the setup's own stop this comes down to whether its two times
   agree on the random range; the program's own setups leave both times random, and do.
   */
  lemma StopFollowsDisconnectsIff(connectTime: int, disconnectTime: int, times: seq<int>, stop: int)
    requires forall i :: 0 <= i < |times| ==> times[i] <= times[|times| - 1]
    requires times != [] ==> times[|times| - 1] + EndAllowance(disconnectTime) + 1 <= stop
    ensures StopsAfterDisconnects(connectTime, disconnectTime, times, stop) <==>
            EndsInTime(connectTime, disconnectTime, times, stop)
    ensures times != [] && stop == times[|times| - 1] + EndAllowance(disconnectTime) + 1 ==>
              (EndsInTime(connectTime, disconnectTime, times, stop) <==> TimesAgree(connectTime, disconnectTime))
  {
    if EndsInTime(connectTime, disconnectTime, times, stop) {
      forall i, latency: real, delay |
        0 <= i < |times| && UnderASecond(latency) && PossibleDelay(connectTime, disconnectTime, delay)
        ensures times[i] as real + latency + delay as real < stop as real
      {
        assert times[i] + delay + 1 <= stop;
      }
    } else {
      var i := |times| - 1;
      assert PossibleDelay(connectTime, disconnectTime, MAX_RANDOM) && UnderASecond(0.0);
      assert !(times[i] as real + 0.0 + MAX_RANDOM as real < stop as real);
    }
  }

  /** A random connect time with no time to disconnect: the stop can come before the disconnect. */
  lemma StopCanComeFirst()
    ensures !StopsAfterDisconnects(-1, 0, [0], 0 + EndAllowance(0) + 1)
  {
    StopFollowsDisconnectsIff(-1, 0, [0], 0 + EndAllowance(0) + 1);
  }

  /**
   The program's plan for all its setups: schedule the attempts of each, then the stop.
   The setups that end in time, as the program's own do, are exactly those that are done
   before the reactor stops.
   */
  method Plan(setups: seq<SocketTestSetup>, draws: seq<seq<int>>) returns (times: seq<seq<int>>, stop: int)
    requires forall i, j :: 0 <= i < j < |setups| ==> setups[i] != setups[j]
    requires |draws| == |setups|
    requires forall i :: 0 <= i < |setups| ==> |draws[i]| == setups[i].maxIterations
    requires forall i :: 0 <= i < |draws| ==> AllDrawn(draws[i])
    modifies setups
    ensures |times| == |setups|
    ensures forall i :: 0 <= i < |setups| ==> times[i] == AttemptTimes(setups[i].connectTime, draws[i])
    ensures forall i :: 0 <= i < |setups| ==>
              (StopsAfterDisconnects(setups[i].connectTime, setups[i].disconnectTime, times[i], stop) <==>
               EndsInTime(setups[i].connectTime, setups[i].disconnectTime, times[i], stop))
  {
    times := [];
    for k := 0 to |setups|
      invariant |times| == k
      invariant forall i :: 0 <= i < k ==> times[i] == AttemptTimes(setups[i].connectTime, draws[i])
      invariant forall i :: 0 <= i < k ==> EndsLast(times[i], setups[i].lastConnectionTime)
    {
      var t := setups[k].ScheduleEvents(draws[k]);
      times := times + [t];
    }
    stop := ScheduleStopEvent(setups);
    forall i | 0 <= i < |setups|
      ensures StopsAfterDisconnects(setups[i].connectTime, setups[i].disconnectTime, times[i], stop) <==>
              EndsInTime(setups[i].connectTime, setups[i].disconnectTime, times[i], stop)
    {
      assert EndsLast(times[i], setups[i].lastConnectionTime);
      assert setups[i].LastConnectionEndTime() + 1 <= stop;
      StopFollowsDisconnectsIff(setups[i].connectTime, setups[i].disconnectTime, times[i], stop);
    }
  }

  predicate AllDrawn(draws: seq<int>) {
    forall i :: 0 <= i < |draws| ==> 0 <= draws[i] <= MAX_RANDOM
  }

  /** The last time is the latest. */
  predicate EndsLast(times: seq<int>, last: int) {
    times != [] ==> times[|times| - 1] == last && forall i :: 0 <= i < |times| ==> times[i] <= last
  }
}
