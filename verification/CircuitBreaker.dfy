/**
 The circuit breaker of the HTTP clients, shared by any number of concurrent calls.

 A call admitted long ago may report at any time, so a run is any interleaving of
 admissions, reports and passing time. The call that set the probe flag is kept as
 history.
 */
module CircuitBreaker {
  import opened Wrappers

  datatype State = Closed | HalfOpen | Open

  /** The mutable fields of the breaker. */
  datatype Breaker = Breaker(state: State, failures: nat, openedAt: int, probeInFlight: bool)

  datatype BreakerConfig = BreakerConfig(failureThreshold: int, openTimeout: int)

  /** The constructor raises the threshold to at least one. */
  type Settings = s: BreakerConfig | s.failureThreshold >= 1 witness BreakerConfig(1, 0)

  datatype Outcome = Success | Failure | Abandon

  function Fresh(): Breaker {
    Breaker(Closed, 0, 0, false)
  }

  function Allow(c: Settings, b: Breaker, now: int): (Breaker, bool) {
    match b.state
    case Open =>
      if now - b.openedAt < c.openTimeout then (b, false)
      else (b.(state := HalfOpen, probeInFlight := true), true)
    case HalfOpen =>
      if b.probeInFlight then (b, false) else (b.(probeInFlight := true), true)
    case Closed => (b, true)
  }

  function Opened(b: Breaker, now: int): Breaker {
    b.(failures := 0, openedAt := now, state := Open)
  }

  function Report(c: Settings, b: Breaker, outcome: Outcome, now: int): Breaker {
    match outcome
    case Success => b.(failures := 0, probeInFlight := false, state := Closed)
    case Abandon => b.(probeInFlight := false)
    case Failure =>
      var released := b.(probeInFlight := false);
      if released.state == HalfOpen then Opened(released, now)
      else
        var counted := released.(failures := released.failures + 1);
        if counted.failures >= c.failureThreshold then Opened(counted, now) else counted
  }

  // ---- Runs ----

  /** How a call got in. */
  datatype Admission = AsClosed | AsProbe

  datatype Event = Reported(outcome: Outcome) | Opening

  datatype System = System(
    breaker: Breaker,
    now: int,
    inFlight: map<nat, Admission>,
    probe: Option<nat>,
    history: seq<Event>)

  datatype Action =
    | Try(call: nat)
    | Finish(call: nat, outcome: Outcome)
    | Tick(elapsed: nat)

  function Initial(now: int): System {
    System(Fresh(), now, map[], None, [])
  }

  predicate Admits(c: Settings, s: System) {
    Allow(c, s.breaker, s.now).1
  }

  function TryStep(c: Settings, s: System, call: nat): System
    requires call !in s.inFlight
  {
    var (breaker, admitted) := Allow(c, s.breaker, s.now);
    if !admitted then s
    else if breaker.state == Closed then s.(breaker := breaker, inFlight := s.inFlight[call := AsClosed])
    else s.(breaker := breaker, inFlight := s.inFlight[call := AsProbe], probe := Some(call))
  }

  /** Does this failure open the circuit? */
  predicate Opens(c: Settings, b: Breaker, outcome: Outcome) {
    outcome == Failure && (b.state == HalfOpen || b.failures + 1 >= c.failureThreshold)
  }

  function FinishStep(c: Settings, s: System, call: nat, outcome: Outcome): System
    requires call in s.inFlight
  {
    s.(breaker := Report(c, s.breaker, outcome, s.now),
       inFlight := s.inFlight - {call},
       probe := None,
       history := s.history + [Reported(outcome)] + (if Opens(c, s.breaker, outcome) then [Opening] else []))
  }

  predicate Enabled(s: System, a: Action) {
    match a
    case Try(call) => call !in s.inFlight
    case Finish(call, _) => call in s.inFlight
    case Tick(_) => true
  }

  function Step(c: Settings, s: System, a: Action): System {
    if !Enabled(s, a) then s else
    match a
    case Try(call) => TryStep(c, s, call)
    case Finish(call, outcome) => FinishStep(c, s, call, outcome)
    case Tick(elapsed) => s.(now := s.now + elapsed)
  }

  function Run(c: Settings, s: System, actions: seq<Action>): System
    decreases |actions|
  {
    if actions == [] then s else Run(c, Step(c, s, actions[0]), actions[1..])
  }

  lemma {:induction false} RunSplits(c: Settings, s: System, a: seq<Action>, b: seq<Action>)
    ensures Run(c, s, a + b) == Run(c, Run(c, s, a), b)
    decreases |a|
  {
    if a == [] {
      assert a + b == b;
    } else {
      assert (a + b)[1..] == a[1..] + b;
      RunSplits(c, Step(c, s, a[0]), a[1..], b);
    }
  }

  // ---- What the failure counter counts ----

  /** Whether an event makes the breaker forget the failures before it. */
  predicate Resets(e: Event) {
    e == Opening || e == Reported(Success)
  }

  /** The events since the last success or opening. */
  function SinceReset(history: seq<Event>): seq<Event> {
    if history == [] || Resets(history[|history| - 1]) then []
    else SinceReset(history[..|history| - 1]) + [history[|history| - 1]]
  }

  function FailuresIn(events: seq<Event>): nat {
    |set i | 0 <= i < |events| && events[i] == Reported(Failure)|
  }

  /** `SinceReset` is the longest reset-free end of the history. */
  lemma {:induction false} SinceResetIsLongest(history: seq<Event>)
    ensures var n := |history| - |SinceReset(history)|;
            n >= 0 && history[n..] == SinceReset(history)
            && (forall e :: e in SinceReset(history) ==> !Resets(e))
            && (n > 0 ==> Resets(history[n - 1]))
    decreases |history|
  {
    if history != [] && !Resets(history[|history| - 1]) {
      var rest := history[..|history| - 1];
      SinceResetIsLongest(rest);
      var n := |rest| - |SinceReset(rest)|;
      assert history[n..] == rest[n..] + [history[|history| - 1]];
    }
  }

  lemma FailuresOneMore(events: seq<Event>, e: Event)
    ensures FailuresIn(events + [e]) == FailuresIn(events) + if e == Reported(Failure) then 1 else 0
  {
    var before := set i | 0 <= i < |events| && events[i] == Reported(Failure);
    var after := set i | 0 <= i < |events + [e]| && (events + [e])[i] == Reported(Failure);
    assert after == if e == Reported(Failure) then before + {|events|} else before;
  }

  // ---- The invariant ----

  ghost predicate Inv(c: Settings, s: System) {
    && s.breaker.failures == FailuresIn(SinceReset(s.history))
    && s.breaker.failures < c.failureThreshold
    && (s.breaker.probeInFlight <==> s.probe.Some?)
    && (s.breaker.probeInFlight ==>
          s.breaker.state == HalfOpen && s.probe.value in s.inFlight && s.inFlight[s.probe.value] == AsProbe)
    && (s.breaker.state == Open ==> s.breaker.openedAt <= s.now)
  }

  lemma OneEventMore(history: seq<Event>, e: Event)
    ensures SinceReset(history + [e]) == if Resets(e) then [] else SinceReset(history) + [e]
  {
    assert (history + [e])[..|history|] == history;
  }

  lemma NoEventsNoFailures()
    ensures FailuresIn([]) == 0
  {
    var events: seq<Event> := [];
    assert (set i | 0 <= i < |events| && events[i] == Reported(Failure)) == {};
  }

  /** What a report leaves to count. */
  lemma SinceResetAfter(history: seq<Event>, outcome: Outcome, opens: bool)
    requires opens ==> outcome == Failure
    ensures SinceReset(history + [Reported(outcome)] + (if opens then [Opening] else []))
         == if opens || outcome == Success then [] else SinceReset(history) + [Reported(outcome)]
  {
    var reported := history + [Reported(outcome)];
    OneEventMore(history, Reported(outcome));
    if opens {
      OneEventMore(reported, Opening);
    } else {
      assert reported + [] == reported;
    }
  }

  lemma CounterFollowsHistory(c: Settings, s: System, call: nat, outcome: Outcome)
    requires Inv(c, s) && call in s.inFlight
    ensures var s' := FinishStep(c, s, call, outcome);
            s'.breaker.failures == FailuresIn(SinceReset(s'.history))
  {
    SinceResetAfter(s.history, outcome, Opens(c, s.breaker, outcome));
    FailuresOneMore(SinceReset(s.history), Reported(outcome));
    NoEventsNoFailures();
  }

  lemma TryKeepsInv(c: Settings, s: System, call: nat)
    requires Inv(c, s) && call !in s.inFlight
    ensures Inv(c, TryStep(c, s, call))
  {
    assert TryStep(c, s, call).history == s.history;
  }

  lemma FinishKeepsInv(c: Settings, s: System, call: nat, outcome: Outcome)
    requires Inv(c, s) && call in s.inFlight
    ensures Inv(c, FinishStep(c, s, call, outcome))
  {
    CounterFollowsHistory(c, s, call, outcome);
  }

  lemma StepKeepsInv(c: Settings, s: System, a: Action)
    requires Inv(c, s)
    ensures Inv(c, Step(c, s, a))
  {
    if Enabled(s, a) {
      match a
      case Try(call) => TryKeepsInv(c, s, call);
      case Finish(call, outcome) => FinishKeepsInv(c, s, call, outcome);
      case Tick(_) => assert Step(c, s, a).history == s.history;
    }
  }

  lemma {:induction false} RunKeepsInv(c: Settings, s: System, actions: seq<Action>)
    requires Inv(c, s)
    ensures Inv(c, Run(c, s, actions))
    decreases |actions|
  {
    if actions != [] {
      StepKeepsInv(c, s, actions[0]);
      RunKeepsInv(c, Step(c, s, actions[0]), actions[1..]);
    }
  }

  ghost predicate Reachable(c: Settings, s: System) {
    exists now, actions :: s == Run(c, Initial(now), actions)
  }

  lemma ReachableInv(c: Settings, s: System)
    requires Reachable(c, s)
    ensures Inv(c, s)
  {
    var now, actions :| s == Run(c, Initial(now), actions);
    RunKeepsInv(c, Initial(now), actions);
  }

  // ---- No wedge ----

  /**
   The breaker refuses for only two reasons: the open time is still running, or the probe is
   with a call that has not reported. So with no call in flight it admits once the time is up.
   */
  lemma NeverWedged(c: Settings, s: System)
    requires Reachable(c, s)
    ensures !Admits(c, s) <==>
      (s.breaker.state == Open && s.now < s.breaker.openedAt + c.openTimeout)
      || (s.breaker.state == HalfOpen && s.probe.Some? && s.probe.value in s.inFlight)
    ensures s.inFlight == map[] && (s.breaker.state == Open ==> s.now >= s.breaker.openedAt + c.openTimeout)
      ==> Admits(c, s)
  {
    ReachableInv(c, s);
  }

  // ---- The failure counter ----

  /** The counter is the failures since the last success or opening, and stays below the threshold. */
  lemma CounterMeaning(c: Settings, s: System)
    requires Reachable(c, s)
    ensures s.breaker.failures == FailuresIn(SinceReset(s.history)) < c.failureThreshold
  {
    ReachableInv(c, s);
  }

  lemma OneMoreFailure(s: System)
    ensures FailuresIn(SinceReset(s.history + [Reported(Failure)])) == FailuresIn(SinceReset(s.history)) + 1
  {
    OneEventMore(s.history, Reported(Failure));
    FailuresOneMore(SinceReset(s.history), Reported(Failure));
  }

  /** A closed circuit opens exactly at the report that makes the failures reach the threshold. */
  lemma OpensAtThreshold(c: Settings, s: System, a: Action)
    requires Reachable(c, s) && s.breaker.state == Closed && Enabled(s, a)
    ensures Step(c, s, a).breaker.state == Open <==>
      a.Finish? && a.outcome == Failure && FailuresIn(SinceReset(s.history + [Reported(Failure)])) == c.failureThreshold
    ensures Step(c, s, a).breaker.state == Open ==> Step(c, s, a).breaker.openedAt == s.now
  {
    ReachableInv(c, s);
    OneMoreFailure(s);
  }

  // ---- What each report and each admission does ----

  /**
   A success closes the circuit, from any state. A failure opens it at the time of the report if it is
   half-open or reaches the threshold; otherwise it only counts. An abandoned call counts for nothing. Every
   report gives the probe's place back.
   */
  lemma ReportEffect(c: Settings, s: System, call: nat, outcome: Outcome)
    requires Reachable(c, s) && call in s.inFlight
    ensures var b, b' := s.breaker, Step(c, s, Finish(call, outcome)).breaker;
            && !b'.probeInFlight
            && (outcome == Success ==> b'.state == Closed && b'.failures == 0)
            && (outcome == Abandon ==> b'.state == b.state && b'.failures == b.failures && b'.openedAt == b.openedAt)
            && (outcome == Failure && (b.state == HalfOpen || b.failures + 1 == c.failureThreshold) ==>
                  b'.state == Open && b'.openedAt == s.now && b'.failures == 0)
            && (outcome == Failure && b.state != HalfOpen && b.failures + 1 < c.failureThreshold ==>
                  b'.state == b.state && b'.openedAt == b.openedAt && b'.failures == b.failures + 1)
    ensures Step(c, s, Finish(call, outcome)).inFlight == s.inFlight - {call}
  {
    ReachableInv(c, s);
  }

  /** The circuit leaves the open state by an admission only when its time is over, for one call, as its probe. */
  lemma TryEffect(c: Settings, s: System, call: nat)
    requires Reachable(c, s) && call !in s.inFlight
    ensures var s' := Step(c, s, Try(call));
            && s'.breaker.failures == s.breaker.failures && s'.breaker.openedAt == s.breaker.openedAt
            && (s.breaker.state == Closed ==> s'.breaker == s.breaker && s'.inFlight == s.inFlight[call := AsClosed])
            && (s.breaker.state == Open && s.now < s.breaker.openedAt + c.openTimeout ==> s' == s)
            && (s.breaker.state == HalfOpen && s.breaker.probeInFlight ==> s' == s)
            && ((s.breaker.state == Open && s.now >= s.breaker.openedAt + c.openTimeout)
                || (s.breaker.state == HalfOpen && !s.breaker.probeInFlight) ==>
                  && s'.breaker.state == HalfOpen && s'.breaker.probeInFlight && s'.probe == Some(call)
                  && s'.inFlight == s.inFlight[call := AsProbe])
  {
  }

  /** Every new call of the run gets in, and as a call of a closed circuit. */
  predicate AllGetIn(c: Settings, s: System, actions: seq<Action>)
    decreases |actions|
  {
    actions == [] ||
    (AllGetIn(c, Step(c, s, actions[0]), actions[1..]) && GetsIn(s, actions[0], Step(c, s, actions[0])))
  }

  predicate GetsIn(s: System, a: Action, s': System) {
    a.Try? && a.call !in s.inFlight ==> a.call in s'.inFlight && s'.inFlight[a.call] == AsClosed
  }

  /** From a closed circuit, a run in which no failure is reported refuses no call, and stays closed. */
  lemma {:induction false} ClosedRefusesNone(c: Settings, s: System, actions: seq<Action>)
    requires s.breaker.state == Closed
    requires forall a :: a in actions ==> !(a.Finish? && a.outcome == Failure)
    ensures AllGetIn(c, s, actions) && Run(c, s, actions).breaker.state == Closed
    decreases |actions|
  {
    if actions != [] {
      var s' := Step(c, s, actions[0]);
      assert actions[0] in actions;
      assert s'.breaker.state == Closed;
      ClosedRefusesNone(c, s', actions[1..]);
    }
  }

  /** So a success is a full recovery: after it, calls get in until the next failure. */
  lemma SuccessRecovers(c: Settings, s: System, call: nat, actions: seq<Action>)
    requires Reachable(c, s) && call in s.inFlight
    requires forall a :: a in actions ==> !(a.Finish? && a.outcome == Failure)
    ensures AllGetIn(c, Step(c, s, Finish(call, Success)), actions)
  {
    ReportEffect(c, s, call, Success);
    ClosedRefusesNone(c, Step(c, s, Finish(call, Success)), actions);
  }

  // ---- Admissions while the circuit is not closed ----

  predicate IsAdmission(c: Settings, s: System, a: Action) {
    a.Try? && Enabled(s, a) && Admits(c, s)
  }

  /** How many calls get in while the circuit is not closed. */
  function ProbesAdmitted(c: Settings, s: System, actions: seq<Action>): nat
    decreases |actions|
  {
    if actions == [] then 0
    else (if IsAdmission(c, s, actions[0]) && s.breaker.state != Closed then 1 else 0)
         + ProbesAdmitted(c, Step(c, s, actions[0]), actions[1..])
  }

  lemma {:induction false} NoProbeWhileOneIsOut(c: Settings, s: System, actions: seq<Action>)
    requires s.breaker.state == HalfOpen && s.breaker.probeInFlight
    requires forall a :: a in actions ==> !a.Finish?
    ensures ProbesAdmitted(c, s, actions) == 0
    decreases |actions|
  {
    if actions != [] {
      NoProbeWhileOneIsOut(c, Step(c, s, actions[0]), actions[1..]);
    }
  }

  /** Between two consecutive reports at most one call gets past a circuit that is not closed. */
  lemma {:induction false} OneProbeBetweenReports(c: Settings, s: System, actions: seq<Action>)
    requires forall a :: a in actions ==> !a.Finish?
    ensures ProbesAdmitted(c, s, actions) <= 1
    decreases |actions|
  {
    if actions != [] {
      var s' := Step(c, s, actions[0]);
      if IsAdmission(c, s, actions[0]) && s.breaker.state != Closed {
        NoProbeWhileOneIsOut(c, s', actions[1..]);
      } else {
        OneProbeBetweenReports(c, s', actions[1..]);
      }
    }
  }

  /** Once open, the circuit admits nothing for the open time unless some call reports success. */
  lemma {:induction false} OpenRefusesForItsTime(c: Settings, s: System, actions: seq<Action>)
    requires s.breaker.state == Open && Run(c, s, actions).now < s.breaker.openedAt + c.openTimeout
    requires s.breaker.openedAt <= s.now
    requires forall a :: a in actions ==> !(a.Finish? && a.outcome == Success)
    ensures ProbesAdmitted(c, s, actions) == 0
    ensures Run(c, s, actions).breaker.state == Open && Run(c, s, actions).inFlight.Keys <= s.inFlight.Keys
    decreases |actions|
  {
    if actions != [] {
      var s' := Step(c, s, actions[0]);
      TimeGoesOn(c, s', actions[1..]);
      OpenRefusesForItsTime(c, s', actions[1..]);
    }
  }

  lemma {:induction false} TimeGoesOn(c: Settings, s: System, actions: seq<Action>)
    ensures s.now <= Run(c, s, actions).now
    decreases |actions|
  {
    if actions != [] {
      TimeGoesOn(c, Step(c, s, actions[0]), actions[1..]);
    }
  }

  // ---- How many probes can be in flight ----

  function Probes(s: System): set<nat> {
    set call | call in s.inFlight && s.inFlight[call] == AsProbe
  }

  /** A report that is not the probe's, while the circuit is not closed. */
  predicate IsStray(s: System, a: Action) {
    a.Finish? && Enabled(s, a) && s.breaker.state != Closed && s.probe != Some(a.call)
  }

  predicate NoStrays(c: Settings, s: System, actions: seq<Action>)
    decreases |actions|
  {
    actions == [] || (!IsStray(s, actions[0]) && NoStrays(c, Step(c, s, actions[0]), actions[1..]))
  }

  /** The only probe in flight is the one the flag stands for. */
  predicate OnlyFlaggedProbe(s: System) {
    Probes(s) == if s.probe.Some? then {s.probe.value} else {}
  }

  lemma {:induction false} ProbesStayFlagged(c: Settings, s: System, actions: seq<Action>)
    requires Inv(c, s) && OnlyFlaggedProbe(s) && NoStrays(c, s, actions)
    ensures OnlyFlaggedProbe(Run(c, s, actions))
    decreases |actions|
  {
    if actions != [] {
      var s' := Step(c, s, actions[0]);
      StepKeepsInv(c, s, actions[0]);
      StepKeepsFlagged(c, s, actions[0]);
      ProbesStayFlagged(c, s', actions[1..]);
    }
  }

  lemma StepKeepsFlagged(c: Settings, s: System, a: Action)
    requires Inv(c, s) && OnlyFlaggedProbe(s) && !IsStray(s, a)
    ensures OnlyFlaggedProbe(Step(c, s, a))
  {
  }

  /** Without stray reports at most one probe is ever in flight. */
  lemma OneProbeWithoutStrays(c: Settings, now: int, actions: seq<Action>)
    requires NoStrays(c, Initial(now), actions)
    ensures |Probes(Run(c, Initial(now), actions))| <= 1
  {
    var s0 := Initial(now);
    assert Probes(s0) == {};
    ProbesStayFlagged(c, s0, actions);
    var s := Run(c, s0, actions);
    if s.probe.Some? {
      assert Probes(s) == {s.probe.value};
    }
  }

  // ---- A stray report always lets a second probe in ----

  /** Calls that fail one after the other until a closed circuit opens. */
  lemma {:induction false} FailuresOpen(c: Settings, s: System, call: nat) returns (actions: seq<Action>)
    requires s.breaker.state == Closed && s.breaker.failures < c.failureThreshold && call !in s.inFlight
    ensures var s' := Run(c, s, actions);
            s'.breaker.state == Open && s'.inFlight == s.inFlight
    ensures forall a :: a in actions ==> a.Try? || (a.Finish? && a.call == call)
    decreases c.failureThreshold - s.breaker.failures
  {
    var s1 := Step(c, s, Try(call));
    var s2 := Step(c, s1, Finish(call, Failure));
    assert s2.inFlight == s.inFlight;
    var pair := [Try(call), Finish(call, Failure)];
    assert pair[1..] == [Finish(call, Failure)] && pair[1..][1..] == [];
    assert Run(c, s, pair) == Run(c, s1, pair[1..]) == Run(c, s2, pair[1..][1..]) == s2;
    if s2.breaker.state == Open {
      actions := pair;
    } else {
      var rest := FailuresOpen(c, s2, call);
      RunSplits(c, s, pair, rest);
      actions := pair + rest;
    }
  }

  /** From an open circuit, waiting long enough lets the next call in as a probe. */
  lemma WaitAdmitsProbe(c: Settings, s: System, call: nat) returns (actions: seq<Action>)
    requires s.breaker.state == Open && call !in s.inFlight
    ensures var s' := Run(c, s, actions);
            s'.inFlight == s.inFlight[call := AsProbe] && s'.probe == Some(call)
    ensures forall a :: a in actions ==> !a.Finish?
  {
    var wait: nat := if s.breaker.openedAt + c.openTimeout > s.now
                     then s.breaker.openedAt + c.openTimeout - s.now else 0;
    actions := [Tick(wait), Try(call)];
    var s1 := Step(c, s, Tick(wait));
    var s2 := Step(c, s1, Try(call));
    assert actions[1..] == [Try(call)] && actions[1..][1..] == [];
    assert Run(c, s, actions) == Run(c, s1, actions[1..]) == Run(c, s2, actions[1..][1..]) == s2;
  }

  lemma TryAdmitsProbe(c: Settings, s: System, call: nat) returns (actions: seq<Action>)
    requires s.breaker.state == HalfOpen && !s.breaker.probeInFlight && call !in s.inFlight
    ensures Run(c, s, actions).inFlight == s.inFlight[call := AsProbe]
    ensures forall a :: a in actions ==> !a.Finish?
  {
    actions := [Try(call)];
    assert actions[1..] == [];
    assert Run(c, s, actions) == Run(c, Step(c, s, Try(call)), actions[1..]);
  }

  /** Whatever the circuit's state, some continuation ends with a fresh call in flight as a probe. */
  lemma ProbeCanEnter(c: Settings, s: System, call: nat) returns (actions: seq<Action>)
    requires Inv(c, s) && !s.breaker.probeInFlight && call !in s.inFlight
    ensures Run(c, s, actions).inFlight == s.inFlight[call := AsProbe]
    ensures forall a :: a in actions ==> a.Finish? ==> a.call == call
  {
    match s.breaker.state
    case HalfOpen =>
      actions := TryAdmitsProbe(c, s, call);
    case Open =>
      actions := WaitAdmitsProbe(c, s, call);
    case Closed =>
      var opening := FailuresOpen(c, s, call);
      var rest := WaitAdmitsProbe(c, Run(c, s, opening), call);
      RunSplits(c, s, opening, rest);
      actions := opening + rest;
  }

  /** The run keeps p in flight all along and ends with another probe beside it. */
  predicate SecondProbeBeside(c: Settings, s: System, actions: seq<Action>, p: nat) {
    NeverGone(c, s, actions, p) && p in Probes(Run(c, s, actions)) && |Probes(Run(c, s, actions))| >= 2
  }

  /**
   While probe p is in flight, the report of a call can be followed by a second probe
   beside p, without p ever reporting, exactly when that call is not p: a late report of
   any outcome clears the flag.
   */
  lemma StrayReportsAdmitSecondProbe(c: Settings, s: System, p: nat, call: nat, outcome: Outcome)
    requires Reachable(c, s) && s.probe == Some(p) && call in s.inFlight
    ensures (exists actions :: SecondProbeBeside(c, Step(c, s, Finish(call, outcome)), actions, p))
       <==> call != p
  {
    ReachableInv(c, s);
    var s1 := Step(c, s, Finish(call, outcome));
    if call != p {
      StepKeepsInv(c, s, Finish(call, outcome));
      var other := FreshCall(s1.inFlight.Keys);
      var actions := ProbeCanEnter(c, s1, other);
      var s2 := Run(c, s1, actions);
      assert p in s1.inFlight && s1.inFlight[p] == AsProbe;
      assert {p, other} <= Probes(s2);
      TwoOfSet(Probes(s2), p, other);
      StaysInFlight(c, s1, actions, p);
      assert SecondProbeBeside(c, s1, actions, p);
    } else {
      assert p !in s1.inFlight;
    }
  }

  /** Under every setting such a state is met: a call admitted before the circuit opened outlives the open time. */
  lemma StrayIsReached(c: Settings) returns (s: System, p: nat, call: nat)
    ensures Reachable(c, s) && s.probe == Some(p) && call in s.inFlight && call != p
    ensures exists actions :: SecondProbeBeside(c, Step(c, s, Finish(call, Success)), actions, p)
  {
    var s0 := Initial(0);
    var s1 := Step(c, s0, Try(0));
    assert Run(c, s0, [Try(0)]) == Run(c, s1, [Try(0)][1..]) == s1;
    var opening := FailuresOpen(c, s1, 1);
    var waiting := WaitAdmitsProbe(c, Run(c, s1, opening), 1);
    RunSplits(c, s1, opening, waiting);
    RunSplits(c, s0, [Try(0)], opening + waiting);
    s, p, call := Run(c, s0, [Try(0)] + (opening + waiting)), 1, 0;
    assert Reachable(c, s);
    ReachableInv(c, s);
    assert s.inFlight == map[0 := AsClosed, 1 := AsProbe];
    StrayReportsAdmitSecondProbe(c, s, p, call, Success);
  }

  /** The call is in flight in every state the run passes through. */
  predicate NeverGone(c: Settings, s: System, actions: seq<Action>, call: nat)
    decreases |actions|
  {
    call in s.inFlight && (actions == [] || NeverGone(c, Step(c, s, actions[0]), actions[1..], call))
  }

  lemma {:induction false} StaysInFlight(c: Settings, s: System, actions: seq<Action>, call: nat)
    requires call in s.inFlight && forall a :: a in actions ==> !(a.Finish? && a.call == call)
    ensures NeverGone(c, s, actions, call)
    decreases |actions|
  {
    if actions != [] {
      StaysInFlight(c, Step(c, s, actions[0]), actions[1..], call);
    }
  }

  lemma {:induction false} FreshCall(calls: set<nat>) returns (call: nat)
    ensures call !in calls && forall x :: x in calls ==> x < call
    decreases |calls|
  {
    if calls == {} {
      call := 0;
    } else {
      var x :| x in calls;
      var rest := FreshCall(calls - {x});
      call := if x >= rest then x + 1 else rest;
      assert forall y :: y in calls ==> y == x || y in calls - {x};
    }
  }

  lemma TwoOfSet(s: set<nat>, a: nat, b: nat)
    requires a in s && b in s && a != b
    ensures |s| >= 2
  {
    assert {b} <= s - {a};
    assert |s - {a}| >= 1;
  }
}
