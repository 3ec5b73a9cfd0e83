/** The control loop of main (cmd/clusterssh/main.go:44-76). The select
    over the result channel, the signal channel and the timeout channel is
    driven by a sequence of events, one per pass. The loop's own state is
    the number of hosts still running, whether main has returned, how many
    grace timers have been started and how many stop signals were sent. */
module Orchestration {
  import opened Pipes
  import Engine

  datatype Event =
    | ResultReceived  // a Result on cmd.Results (main.go:60)
    | SignalReceived  // SIGINT or SIGTERM on signalChan (main.go:66)
    | TimeoutFired    // a grace timer's send on timeout (main.go:73)

  datatype LoopState = LoopState(runningHosts: int, done: bool, armedTimers: nat, stopSignals: nat)

  /** main.go:44: one running host per host, no timer, no signal sent. */
  function Initial(hostCount: nat): (r: LoopState)
    ensures !r.done && r.stopSignals == 0
    ensures !CanArrive(r, TimeoutFired)
    ensures CanArrive(r, ResultReceived) <==> hostCount > 0
  {
    LoopState(hostCount, false, 0, 0)
  }

  /** One pass of the select (main.go:59-75). */
  function Next(s: LoopState, e: Event): (r: LoopState)
    requires !s.done
    ensures r.done <==> e.TimeoutFired? || (e.ResultReceived? && s.runningHosts <= 1)
    ensures r.runningHosts <= s.runningHosts
    ensures r.stopSignals - s.stopSignals == r.armedTimers - s.armedTimers
  {
    match e
    case ResultReceived =>
      var running := s.runningHosts - 1;
      s.(runningHosts := running, done := running <= 0)
    case SignalReceived =>
      s.(armedTimers := s.armedTimers + 1, stopSignals := s.stopSignals + 1)
    case TimeoutFired =>
      s.(done := true)
  }

  /** Whether an event can reach the loop at all: a Result only while a
      host's Result is still outstanding, a timeout only once some timer
      was started. */
  predicate CanArrive(s: LoopState, e: Event) {
    match e
    case ResultReceived => s.runningHosts > 0
    case SignalReceived => true
    case TimeoutFired => s.armedTimers > 0
  }

  /** Every event the loop takes from `events` could have arrived. */
  predicate Feasible(s: LoopState, events: seq<Event>)
    decreases |events|
  {
    s.done || events == [] || (CanArrive(s, events[0]) && Feasible(Next(s, events[0]), events[1..]))
  }

  /** Where the loop stands after taking events until it returns or the
      events run out: its state, and how many events it took. */
  datatype Stop = Stop(state: LoopState, consumed: nat)

  function Drain(s: LoopState, events: seq<Event>): (r: Stop)
    ensures r.consumed <= |events|
    ensures r.state.done || r.consumed == |events|
    ensures r.consumed == 0 <==> s.done || events == []
    decreases |events|
  {
    if s.done || events == [] then Stop(s, 0)
    else
      var rest := Drain(Next(s, events[0]), events[1..]);
      Stop(rest.state, rest.consumed + 1)
  }

  /** The number of occurrences of `e` in `events`. */
  function Count(events: seq<Event>, e: Event): (r: nat) {
    if events == [] then 0
    else (if events[0] == e then 1 else 0) + Count(events[1..], e)
  }

  /** A Result decrements the counter by exactly one, and the loop returns
      after it exactly when the counter is then at most zero. */
  lemma ResultRule(s: LoopState)
    requires !s.done
    ensures Next(s, ResultReceived).runningHosts == s.runningHosts - 1
    ensures Next(s, ResultReceived).done <==> s.runningHosts - 1 <= 0
    ensures Next(s, ResultReceived).stopSignals == s.stopSignals
  {
  }

  /** A signal leaves the counter alone, sends one stop signal, starts one
      more timer and never ends the loop. */
  lemma SignalRule(s: LoopState)
    requires !s.done
    ensures !Next(s, SignalReceived).done
    ensures Next(s, SignalReceived).runningHosts == s.runningHosts
    ensures Next(s, SignalReceived).stopSignals == s.stopSignals + 1
    ensures Next(s, SignalReceived).armedTimers == s.armedTimers + 1
  {
  }

  /** A timeout ends the loop whatever the counter says. */
  lemma TimeoutRule(s: LoopState)
    requires !s.done
    ensures Next(s, TimeoutFired).done
    ensures Next(s, TimeoutFired).runningHosts == s.runningHosts
  {
  }

  /** The loop only ever returns on a Result that brings the counter to at
      most zero, or on a timeout (see StillRunningBeforeStop for "on the
      first such event"). */
  lemma {:induction false} StopsOnlyOnResultOrTimeout(s: LoopState, events: seq<Event>)
    requires !s.done
    requires Drain(s, events).state.done
    ensures var c := Drain(s, events).consumed;
              && c >= 1
              && !events[c - 1].SignalReceived?
              && (events[c - 1].ResultReceived? ==> Drain(s, events).state.runningHosts <= 0)
    decreases |events|
  {
    var t := Next(s, events[0]);
    if !t.done {
      StopsOnlyOnResultOrTimeout(t, events[1..]);
    }
  }

  /** The loop has not returned after any event earlier than the last one
      it takes: it returns on the first event that ends it. */
  lemma {:induction false} StillRunningBeforeStop(s: LoopState, events: seq<Event>, k: nat)
    requires !s.done
    requires k + 1 < Drain(s, events).consumed
    ensures !Drain(s, events[..k + 1]).state.done
    decreases k
  {
    var t := Next(s, events[0]);
    assert events[..k + 1][0] == events[0];
    assert events[..k + 1][1..] == events[1..][..k];
    if k > 0 {
      StillRunningBeforeStop(t, events[1..], k - 1);
    }
  }

  /** The counters after the loop stops, in terms of what it took: one
      decrement per Result, one stop signal and one timer per signal. */
  lemma {:induction false} DrainCounts(s: LoopState, events: seq<Event>)
    ensures var r := Drain(s, events);
              var taken := events[..r.consumed];
              && r.state.runningHosts == s.runningHosts - Count(taken, ResultReceived)
              && r.state.stopSignals == s.stopSignals + Count(taken, SignalReceived)
              && r.state.armedTimers == s.armedTimers + Count(taken, SignalReceived)
    decreases |events|
  {
    if !s.done && events != [] {
      var r := Drain(s, events);
      DrainCounts(Next(s, events[0]), events[1..]);
      assert events[..r.consumed][1..] == events[1..][..r.consumed - 1];
      assert events[..r.consumed][0] == events[0];
    }
  }

  /** Before any signal no timer runs, so the loop ends only through
      Results: it takes exactly `runningHosts` Results and stops then, and
      with no host running it waits for ever. */
  lemma {:induction false} WithoutSignalsOnlyResultsEnd(s: LoopState, events: seq<Event>)
    requires !s.done && s.armedTimers == 0
    requires Feasible(s, events)
    requires forall i :: 0 <= i < |events| ==> !events[i].SignalReceived?
    ensures var r := Drain(s, events);
              && (forall i :: 0 <= i < r.consumed ==> events[i].ResultReceived?)
              && (r.state.done <==> 0 < s.runningHosts <= |events|)
              && (r.state.done ==> r.consumed == s.runningHosts && r.state.runningHosts == 0)
    decreases |events|
  {
    if events != [] {
      var t := Next(s, events[0]);
      assert events[0].ResultReceived?;
      if !t.done {
        WithoutSignalsOnlyResultsEnd(t, events[1..]);
      }
    }
  }

  /** With no host running (an empty host list), no Result ever arrives:
      the loop ends only on a timeout, which needs an earlier signal. */
  lemma {:induction false} IdleLoopEndsOnlyByTimeout(s: LoopState, events: seq<Event>)
    requires !s.done && s.runningHosts <= 0 && s.armedTimers == 0
    requires Feasible(s, events)
    requires Drain(s, events).state.done
    ensures var c := Drain(s, events).consumed;
              && events[c - 1].TimeoutFired?
              && Count(events[..c], SignalReceived) >= 1
    decreases |events|
  {
    var t := Next(s, events[0]);
    assert events[0].SignalReceived?;
    ZeroCounterEndsByTimeout(t, events[1..]);
    var c := Drain(s, events).consumed;
    assert events[..c][1..] == events[1..][..c - 1];
    assert events[..c][0] == events[0];
  }

  /** With zero hosts the counter starts at zero, yet the loop does not
      return before some event arrives; it returns on the first Result or
      timeout, not on a signal. */
  lemma ZeroHostsWaitForEvent(e: Event)
    ensures !Drain(Initial(0), []).state.done
    ensures Drain(Initial(0), [e]).state.done <==> !e.SignalReceived?
  {
  }

  /** Helper for IdleLoopEndsOnlyByTimeout: once the counter is at most 0,
      only a timeout can end the loop. */
  lemma {:induction false} ZeroCounterEndsByTimeout(s: LoopState, events: seq<Event>)
    requires !s.done && s.runningHosts <= 0
    requires Feasible(s, events)
    requires Drain(s, events).state.done
    ensures events[Drain(s, events).consumed - 1].TimeoutFired?
    decreases |events|
  {
    var t := Next(s, events[0]);
    if !t.done {
      ZeroCounterEndsByTimeout(t, events[1..]);
    }
  }

  /** main's loop over the handle Run returned. */
  class Orchestrator {
    const cmd: Engine.Command
    var runningHosts: int
    var done: bool
    var armedTimers: nat
    var stopSignals: nat

    function State(): (r: LoopState)
      reads this
    {
      LoopState(runningHosts, done, armedTimers, stopSignals)
    }

    constructor (hostCount: nat, cmd: Engine.Command)
      ensures State() == Initial(hostCount) && this.cmd == cmd
    {
      this.cmd := cmd;
      runningHosts, done, armedTimers, stopSignals := hostCount, false, 0, 0;
    }

    /** One pass of the select. A signal sends the stop signal through the
        handle and starts a grace timer; the timer's sleep is left out, its
        firing is a later TimeoutFired event. */
    method Step(e: Event)
      requires !done && cmd.Valid()
      modifies this, cmd.stdins
      ensures State() == Next(old(State()), e)
      ensures forall i :: 0 <= i < |cmd.stdins| ==>
                cmd.stdins[i].written == old(cmd.stdins[i].written) + (if e.SignalReceived? then [CTRL_C_CODE] else [])
    {
      match e
      case ResultReceived =>
        runningHosts := runningHosts - 1;
        if runningHosts <= 0 {
          done := true;
        }
      case SignalReceived =>
        cmd.SendStopSignal();
        armedTimers := armedTimers + 1;
        stopSignals := stopSignals + 1;
      case TimeoutFired =>
        done := true;
    }

    /** Runs the loop over `events` until main returns or the events run
        out. Every writer receives one CTRL_C_CODE byte per stop signal sent. */
    method Drive(events: seq<Event>) returns (consumed: nat)
      requires cmd.Valid()
      modifies this, cmd.stdins
      ensures Stop(State(), consumed) == Drain(old(State()), events)
      ensures stopSignals >= old(stopSignals)
      ensures forall i :: 0 <= i < |cmd.stdins| ==>
                cmd.stdins[i].written == old(cmd.stdins[i].written) + Repeat(CTRL_C_CODE, stopSignals - old(stopSignals))
    {
      consumed := 0;
      while consumed < |events| && !done
        invariant consumed <= |events|
        invariant stopSignals >= old(stopSignals)
        invariant var rest := Drain(State(), events[consumed..]);
                    Drain(old(State()), events) == Stop(rest.state, consumed + rest.consumed)
        invariant forall i :: 0 <= i < |cmd.stdins| ==>
                    cmd.stdins[i].written == old(cmd.stdins[i].written) + Repeat(CTRL_C_CODE, stopSignals - old(stopSignals))
        decreases |events| - consumed
      {
        assert events[consumed..][1..] == events[consumed + 1..];
        Step(events[consumed]);
        consumed := consumed + 1;
      }
    }
  }
}
