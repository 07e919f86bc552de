/** The circuit breaker under an arbitrary interleaving of outcomes, probes, resets and timer
    firings. A timer fires at some moment not before its deadline, possibly late. */
module CircuitBreaker {
  import opened Basics

  datatype Circuit = Closed | Open | HalfOpen

  datatype Config = Config(failureThreshold: int, resetTimeoutMs: int)

  /** `timer` holds the deadline of the pending reset timer. */
  datatype State = State(circuit: Circuit, failureCount: nat, lastFailureTime: Option<int>, timer: Option<int>)

  datatype Call = RecordSuccess | RecordFailure | CanExecute | Reset | TimerFires

  datatype Event = At(now: int, call: Call)

  datatype Change = Change(from: Circuit, to: Circuit)

  const INITIAL := State(Closed, 0, None, None)

  predicate Enabled(s: State, e: Event) {
    e.call.TimerFires? ==> s.timer.Some? && e.now >= s.timer.value
  }

  /** Whether `canExecute` lets the request through. */
  predicate Admits(cfg: Config, s: State, now: int) {
    s.circuit != Open || (s.lastFailureTime.Some? && now - s.lastFailureTime.value >= cfg.resetTimeoutMs)
  }

  function Step(cfg: Config, s: State, e: Event): State {
    match e.call
    case RecordSuccess =>
      if s.circuit == HalfOpen then State(Closed, 0, None, None)
      else s.(failureCount := 0, lastFailureTime := None)
    case RecordFailure =>
      var counted := s.(failureCount := s.failureCount + 1, lastFailureTime := Some(e.now));
      if (s.circuit == Closed && counted.failureCount >= cfg.failureThreshold) || s.circuit == HalfOpen
      then counted.(circuit := Open, timer := Some(e.now + cfg.resetTimeoutMs))
      else counted
    case CanExecute => if s.circuit == Open && Admits(cfg, s, e.now) then s.(circuit := HalfOpen) else s
    case Reset => State(Closed, 0, None, None)
    case TimerFires => s.(circuit := if s.circuit == Open then HalfOpen else s.circuit, timer := None)
  }

  /** The `stateChange` events a step emits. */
  function Emitted(cfg: Config, s: State, e: Event): seq<Change> {
    var s' := Step(cfg, s, e);
    if s'.circuit == s.circuit then [] else [Change(s.circuit, s'.circuit)]
  }

  predicate IsRun(cfg: Config, states: seq<State>, events: seq<Event>) {
    && |states| == |events| + 1 && states[0] == INITIAL
    && (forall i, j :: 0 <= i < j < |events| ==> events[i].now <= events[j].now)
    && (forall i :: 0 <= i < |events| ==> Enabled(states[i], events[i]) && states[i + 1] == Step(cfg, states[i], events[i]))
  }

  // ---------------------------------------------------------------------------
  // What every state of a run satisfies

  /** Event `i` opened the circuit. */
  predicate Opens(states: seq<State>, i: nat)
    requires i + 1 < |states|
  {
    states[i].circuit != Open && states[i + 1].circuit == Open
  }

  /** When the circuit last opened, before state `i`. */
  function OpenedAt(states: seq<State>, events: seq<Event>, i: nat): Option<int>
    requires |states| == |events| + 1 && i <= |events|
  {
    if i == 0 then None
    else if Opens(states, i - 1) then Some(events[i - 1].now)
    else OpenedAt(states, events, i - 1)
  }

  /** Failures recorded since the last success or reset. */
  function TrailingFailures(events: seq<Event>): nat {
    if events == [] then 0
    else
      match events[|events| - 1].call
      case RecordFailure => TrailingFailures(events[..|events| - 1]) + 1
      case RecordSuccess => 0
      case Reset => 0
      case _ => TrailingFailures(events[..|events| - 1])
  }

  predicate Inv(cfg: Config, s: State, since: Option<int>) {
    && (s.circuit == Closed ==> s.timer.None? && (s.failureCount > 0 ==> s.failureCount < cfg.failureThreshold))
    && (s.circuit == Open ==>
          && since.Some? && s.timer == Some(since.value + cfg.resetTimeoutMs)
          && (s.lastFailureTime.Some? ==> since.value <= s.lastFailureTime.value))
    && (s.circuit == HalfOpen && s.timer.Some? ==> since.Some? && s.timer.value == since.value + cfg.resetTimeoutMs)
  }

  lemma {:induction false} RunInv(cfg: Config, states: seq<State>, events: seq<Event>, i: nat)
    requires IsRun(cfg, states, events) && i <= |events|
    ensures Inv(cfg, states[i], OpenedAt(states, events, i))
    ensures OpenedAt(states, events, i).Some? ==> i > 0 && OpenedAt(states, events, i).value <= events[i - 1].now
  {
    if i > 0 {
      RunInv(cfg, states, events, i - 1);
      assert states[i] == Step(cfg, states[i - 1], events[i - 1]);
      assert i > 1 ==> events[i - 2].now <= events[i - 1].now;
    }
  }

  /** MAIN RESULT. With a threshold of at least one: a closed circuit has fewer failures than the
      threshold and no timer, and an open one has a timer pending for the moment it opened plus
      the timeout, so it cannot stay open for ever. */
  lemma ClosedAndOpenStates(cfg: Config, states: seq<State>, events: seq<Event>, i: nat)
    requires IsRun(cfg, states, events) && i <= |events| && cfg.failureThreshold >= 1
    ensures var s := states[i];
            && (s.circuit == Closed ==> s.failureCount < cfg.failureThreshold && s.timer.None?)
            && (s.circuit == Open ==>
                  && OpenedAt(states, events, i).Some?
                  && s.timer == Some(OpenedAt(states, events, i).value + cfg.resetTimeoutMs)
                  && forall now :: now >= s.timer.value ==>
                       Enabled(s, At(now, TimerFires)) && Step(cfg, s, At(now, TimerFires)).circuit == HalfOpen)
  {
    RunInv(cfg, states, events, i);
  }

  /** The failure count is the number of failures since the last success or reset, whatever the
      circuit's state was when they were recorded. */
  lemma {:induction false} CountsTrailingFailures(cfg: Config, states: seq<State>, events: seq<Event>, i: nat)
    requires IsRun(cfg, states, events) && i <= |events|
    ensures states[i].failureCount == TrailingFailures(events[..i])
  {
    if i > 0 {
      CountsTrailingFailures(cfg, states, events, i - 1);
      assert events[..i][..i - 1] == events[..i - 1];
      assert states[i] == Step(cfg, states[i - 1], events[i - 1]);
      ResetClosesAtZero(cfg, states[i - 1], events[i - 1]);
    }
  }

  lemma ResetClosesAtZero(cfg: Config, s: State, e: Event)
    ensures Step(cfg, s, e).failureCount ==
            match e.call
            case RecordFailure => s.failureCount + 1
            case RecordSuccess => 0
            case Reset => 0
            case _ => s.failureCount
  {
  }

  /** A closed circuit opens at a failure, exactly when failures in a row reach the threshold. */
  lemma OpensExactlyAtThreshold(cfg: Config, states: seq<State>, events: seq<Event>, i: nat)
    requires IsRun(cfg, states, events) && i < |events| && states[i].circuit == Closed
    ensures states[i + 1].circuit != Closed <==>
            events[i].call.RecordFailure? && TrailingFailures(events[..i + 1]) >= cfg.failureThreshold
    ensures states[i + 1].circuit != HalfOpen
  {
    CountsTrailingFailures(cfg, states, events, i + 1);
    CountsTrailingFailures(cfg, states, events, i);
    assert states[i + 1] == Step(cfg, states[i], events[i]);
    RunInv(cfg, states, events, i);
  }

  /** After event `i` opened the circuit and without a reset since, either it is open from that
      very opening or the timeout has passed. */
  lemma {:induction false} OpenOrElapsed(cfg: Config, states: seq<State>, events: seq<Event>, i: nat, j: nat)
    requires IsRun(cfg, states, events) && i < j <= |events| && Opens(states, i)
    requires forall k :: i < k < j ==> !events[k].call.Reset?
    ensures (states[j].circuit == Open && OpenedAt(states, events, j) == Some(events[i].now)) ||
            events[i].now + cfg.resetTimeoutMs <= events[j - 1].now
  {
    if j > i + 1 {
      OpenOrElapsed(cfg, states, events, i, j - 1);
      RunInv(cfg, states, events, j - 1);
      assert states[j] == Step(cfg, states[j - 1], events[j - 1]);
      assert events[j - 2].now <= events[j - 1].now;
    }
  }

  /** MAIN RESULT. Without `reset()`, no `canExecute` lets a request through between an opening
      and that moment plus the timeout. */
  lemma NoEarlyAdmission(cfg: Config, states: seq<State>, events: seq<Event>, i: nat, j: nat)
    requires IsRun(cfg, states, events) && i < j < |events| && Opens(states, i)
    requires forall k :: i < k < j ==> !events[k].call.Reset?
    requires events[j].call.CanExecute? && Admits(cfg, states[j], events[j].now)
    ensures events[j].now >= events[i].now + cfg.resetTimeoutMs
  {
    OpenOrElapsed(cfg, states, events, i, j);
    RunInv(cfg, states, events, j);
    assert events[j - 1].now <= events[j].now;
  }

  // ---------------------------------------------------------------------------
  // What every event does

  predicate Clears(call: Call) {
    call.RecordSuccess? || call.Reset?
  }

  /** Event `k` is a failure, and neither a failure, a success nor a reset came after it up to `i`. */
  predicate LatestFailure(events: seq<Event>, i: nat, k: nat)
    requires i <= |events|
  {
    && k < i && events[k].call.RecordFailure?
    && forall j :: k < j < i ==> !events[j].call.RecordFailure? && !Clears(events[j].call)
  }

  /** The time kept is that of the latest failure, if nothing has cleared it since. */
  lemma {:induction false} KeepsLatestFailure(cfg: Config, states: seq<State>, events: seq<Event>, i: nat)
    requires IsRun(cfg, states, events) && i <= |events|
    ensures forall k: nat :: LatestFailure(events, i, k) ==> states[i].lastFailureTime == Some(events[k].now)
    ensures states[i].lastFailureTime.Some? ==> exists k: nat :: LatestFailure(events, i, k)
  {
    hide LatestFailure;
    if i == 0 {
      NothingFailedYet(events);
    } else {
      KeepsLatestFailure(cfg, states, events, i - 1);
      LatestFailureNext(events, i);
      assert states[i] == Step(cfg, states[i - 1], events[i - 1]);
      if events[i - 1].call.RecordFailure? {
        assert LatestFailure(events, i, i - 1);
      } else if states[i].lastFailureTime.Some? {
        var k: nat :| LatestFailure(events, i - 1, k);
        assert LatestFailure(events, i, k);
      }
    }
  }

  lemma NothingFailedYet(events: seq<Event>)
    ensures forall k: nat :: !LatestFailure(events, 0, k)
  {
  }

  /** One more event makes a failure the latest one, leaves what was the latest, or clears it. */
  lemma LatestFailureNext(events: seq<Event>, i: nat)
    requires 0 < i <= |events|
    ensures var call := events[i - 1].call;
            forall k: nat :: LatestFailure(events, i, k) <==>
                             if call.RecordFailure? then k == i - 1 else !Clears(call) && LatestFailure(events, i - 1, k)
  {
    var call := events[i - 1].call;
    forall k: nat ensures LatestFailure(events, i, k) <==>
                          if call.RecordFailure? then k == i - 1 else !Clears(call) && LatestFailure(events, i - 1, k)
    {
    }
  }

  /** The latest failure not cleared since is at least the timeout old. */
  ghost predicate CooledDown(cfg: Config, events: seq<Event>, i: nat, now: int)
    requires i <= |events|
  {
    exists k: nat :: LatestFailure(events, i, k) && now - events[k].now >= cfg.resetTimeoutMs
  }

  /** MAIN RESULT. A request is let through exactly if the circuit is not open or a failure came
      after the last success or reset and the latest one is at least the timeout old. */
  lemma AdmitsExactly(cfg: Config, states: seq<State>, events: seq<Event>, i: nat, now: int)
    requires IsRun(cfg, states, events) && i <= |events|
    ensures Admits(cfg, states[i], now) <==> states[i].circuit != Open || CooledDown(cfg, events, i, now)
  {
    KeepsLatestFailure(cfg, states, events, i);
    if states[i].lastFailureTime.Some? && now - states[i].lastFailureTime.value >= cfg.resetTimeoutMs {
      var k: nat :| LatestFailure(events, i, k);
      assert now - events[k].now >= cfg.resetTimeoutMs;
    }
  }

  /** MAIN RESULT. What every event of a run makes of the circuit. Closed, it opens at the failure
      that reaches the threshold and at nothing else. Half-open, a success or a reset closes it, a
      failure opens it, and nothing else moves it. Open, a reset closes it, the timer half-opens it,
      and so does `canExecute` once the latest failure has cooled down. */
  lemma CircuitFollowsEvents(cfg: Config, states: seq<State>, events: seq<Event>, i: nat)
    requires IsRun(cfg, states, events) && i < |events|
    ensures var call := events[i].call;
            states[i + 1].circuit ==
            match states[i].circuit
            case Closed =>
              if call.RecordFailure? && TrailingFailures(events[..i + 1]) >= cfg.failureThreshold then Open else Closed
            case HalfOpen =>
              if call.RecordSuccess? || call.Reset? then Closed else if call.RecordFailure? then Open else HalfOpen
            case Open =>
              if call.Reset? then Closed
              else if call.TimerFires? || (call.CanExecute? && CooledDown(cfg, events, i, events[i].now)) then HalfOpen
              else Open
  {
    hide TrailingFailures, CooledDown;
    assert states[i + 1] == Step(cfg, states[i], events[i]);
    AdmitsExactly(cfg, states, events, i, events[i].now);
    OpensExactlyAtThresholdIfClosed(cfg, states, events, i);
  }

  lemma OpensExactlyAtThresholdIfClosed(cfg: Config, states: seq<State>, events: seq<Event>, i: nat)
    requires IsRun(cfg, states, events) && i < |events|
    ensures states[i].circuit == Closed ==>
              states[i + 1].circuit ==
              if events[i].call.RecordFailure? && TrailingFailures(events[..i + 1]) >= cfg.failureThreshold then Open else Closed
  {
    if states[i].circuit == Closed { OpensExactlyAtThreshold(cfg, states, events, i); }
  }

  /** And of the reset timer: an opening sets it for that time plus the timeout; a closing or its
      own firing ends it; nothing else touches it. */
  lemma TimerFollowsCircuit(cfg: Config, states: seq<State>, events: seq<Event>, i: nat)
    requires IsRun(cfg, states, events) && i < |events|
    ensures states[i + 1].timer ==
            if Opens(states, i) then Some(events[i].now + cfg.resetTimeoutMs)
            else if states[i + 1].circuit == Closed || events[i].call.TimerFires? then None
            else states[i].timer
  {
    assert states[i + 1] == Step(cfg, states[i], events[i]);
    RunInv(cfg, states, events, i);
  }

  // ---------------------------------------------------------------------------
  // Emitted state changes

  function AllEmitted(cfg: Config, states: seq<State>, events: seq<Event>, n: nat): seq<Change>
    requires |states| == |events| + 1 && n <= |events|
  {
    if n == 0 then [] else AllEmitted(cfg, states, events, n - 1) + Emitted(cfg, states[n - 1], events[n - 1])
  }

  /** A walk from `from` to `to` along the allowed edges. */
  predicate LegalWalk(from: Circuit, changes: seq<Change>, to: Circuit) {
    if changes == [] then from == to
    else
      var last := changes[|changes| - 1];
      last.to == to && LegalEdge(last) && LegalWalk(from, changes[..|changes| - 1], last.from)
  }

  predicate LegalEdge(c: Change) {
    c.from != c.to && c != Change(Closed, HalfOpen)
  }

  /** MAIN RESULT. The emitted changes form one walk from closed to the present state that never
      goes from closed to half-open; it goes from open to closed only at a `reset()`. */
  lemma {:induction false} EmissionsFormWalk(cfg: Config, states: seq<State>, events: seq<Event>, n: nat)
    requires IsRun(cfg, states, events) && n <= |events|
    ensures LegalWalk(Closed, AllEmitted(cfg, states, events, n), states[n].circuit)
    ensures forall i :: 0 <= i < n && Change(Open, Closed) in Emitted(cfg, states[i], events[i]) ==> events[i].call.Reset?
  {
    hide Emitted, Step, LegalEdge;
    if n > 0 {
      EmissionsFormWalk(cfg, states, events, n - 1);
      EmittedIsLegal(cfg, states, events, n - 1);
      WalkFurther(AllEmitted(cfg, states, events, n - 1), Emitted(cfg, states[n - 1], events[n - 1]),
                  states[n - 1].circuit, states[n].circuit);
    }
  }

  /** An event emits its change of the circuit, if it makes one. */
  lemma EmittedIsLegal(cfg: Config, states: seq<State>, events: seq<Event>, i: nat)
    requires IsRun(cfg, states, events) && i < |events|
    ensures var from, to := states[i].circuit, states[i + 1].circuit;
            if from == to then Emitted(cfg, states[i], events[i]) == []
            else
              && Emitted(cfg, states[i], events[i]) == [Change(from, to)] && LegalEdge(Change(from, to))
              && (from == Open && to == Closed ==> events[i].call.Reset?)
  {
    RunInv(cfg, states, events, i);
    assert states[i + 1] == Step(cfg, states[i], events[i]);
  }

  lemma WalkFurther(before: seq<Change>, more: seq<Change>, from: Circuit, to: Circuit)
    requires LegalWalk(Closed, before, from)
    requires if from == to then more == [] else more == [Change(from, to)] && LegalEdge(Change(from, to))
    ensures LegalWalk(Closed, before + more, to)
  {
    if more == [] {
      assert before + more == before;
    } else {
      assert (before + more)[..|before|] == before;
    }
  }

  // ---------------------------------------------------------------------------
  // The object

  class Breaker {
    const config: Config
    var circuit: Circuit
    var failureCount: nat
    var lastFailureTime: Option<int>
    var resetTimer: Option<int>
    var emitted: seq<Change>

    constructor (config: Config)
      ensures this.config == config && View() == INITIAL && emitted == []
    {
      this.config := config;
      circuit, failureCount, lastFailureTime, resetTimer, emitted := Closed, 0, None, None, [];
    }

    function View(): State
      reads this
    {
      State(circuit, failureCount, lastFailureTime, resetTimer)
    }

    method RecordSuccess(now: int)
      modifies this
      ensures View() == Step(config, old(View()), At(now, Call.RecordSuccess))
      ensures emitted == old(emitted) + Emitted(config, old(View()), At(now, Call.RecordSuccess))
    {
      var previous := circuit;
      failureCount := 0;
      lastFailureTime := None;
      if circuit == HalfOpen {
        resetTimer := None;
        circuit := Closed;
        emitted := emitted + [Change(previous, Closed)];
      }
    }

    method RecordFailure(now: int)
      modifies this
      ensures View() == Step(config, old(View()), At(now, Call.RecordFailure))
      ensures emitted == old(emitted) + Emitted(config, old(View()), At(now, Call.RecordFailure))
    {
      failureCount := failureCount + 1;
      lastFailureTime := Some(now);
      if circuit == Closed {
        if failureCount >= config.failureThreshold {
          circuit := Open;
          emitted := emitted + [Change(Closed, Open)];
          resetTimer := Some(now + config.resetTimeoutMs);
        }
      } else if circuit == HalfOpen {
        resetTimer := None;
        circuit := Open;
        emitted := emitted + [Change(HalfOpen, Open)];
        resetTimer := Some(now + config.resetTimeoutMs);
      }
    }

    method CanExecute(now: int) returns (allowed: bool)
      modifies this
      ensures View() == Step(config, old(View()), At(now, Call.CanExecute))
      ensures emitted == old(emitted) + Emitted(config, old(View()), At(now, Call.CanExecute))
      ensures allowed == Admits(config, old(View()), now)
    {
      if circuit == Closed || circuit == HalfOpen {
        return true;
      }
      if lastFailureTime.Some? && now - lastFailureTime.value >= config.resetTimeoutMs {
        circuit := HalfOpen;
        emitted := emitted + [Change(Open, HalfOpen)];
        return true;
      }
      return false;
    }

    method Reset(now: int)
      modifies this
      ensures View() == Step(config, old(View()), At(now, Call.Reset))
      ensures emitted == old(emitted) + Emitted(config, old(View()), At(now, Call.Reset))
    {
      resetTimer := None;
      var previous := circuit;
      circuit := Closed;
      failureCount := 0;
      lastFailureTime := None;
      if previous != Closed {
        emitted := emitted + [Change(previous, Closed)];
      }
    }

    method TimerFires(now: int)
      requires Enabled(View(), At(now, Call.TimerFires))
      modifies this
      ensures View() == Step(config, old(View()), At(now, Call.TimerFires))
      ensures emitted == old(emitted) + Emitted(config, old(View()), At(now, Call.TimerFires))
    {
      if circuit == Open {
        circuit := HalfOpen;
        emitted := emitted + [Change(Open, HalfOpen)];
      }
      resetTimer := None;
    }
  }
}
