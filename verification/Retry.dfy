/**
 The two retry loops: `do` of the HTTP clients, around the shared circuit breaker, and
 `syncWithRetryMode` of the sync manager.

 Everything outside the loops is a parameter: how each operation ends, when, whether a
 wait is cut short, and what other calls do to the breaker in between.
 */
module Retry {
  import opened CircuitBreaker
  import Backoff

  /** What another call does to the shared breaker. */
  datatype Other = OtherAllow(now: int) | OtherReport(outcome: Outcome, now: int)

  function Interfered(c: Settings, b: Breaker, others: seq<Other>): Breaker
    decreases |others|
  {
    if others == [] then b
    else
      var first := match others[0]
                   case OtherAllow(now) => Allow(c, b, now).0
                   case OtherReport(outcome, now) => Report(c, b, outcome, now);
      Interfered(c, first, others[1..])
  }

  /** The breaker object: four fields behind a mutex, so each method is one atomic step. */
  class BreakerObject {
    const config: Settings
    var state: State
    var failures: nat
    var openedAt: int
    var probeInFlight: bool

    function Snapshot(): Breaker
      reads this
    {
      Breaker(state, failures, openedAt, probeInFlight)
    }

    constructor (failureThreshold: int, openTimeout: int)
      ensures Snapshot().(openedAt := 0) == Fresh()
      ensures config.openTimeout == openTimeout
      ensures config.failureThreshold == if failureThreshold < 1 then 1 else failureThreshold
    {
      var threshold := failureThreshold;
      if threshold < 1 {
        threshold := 1;
      }
      config := BreakerConfig(threshold, openTimeout);
      state := Closed;
      failures := 0;
      probeInFlight := false;
    }

    method AllowCall(now: int) returns (admitted: bool)
      modifies this
      ensures (Snapshot(), admitted) == Allow(config, old(Snapshot()), now)
    {
      match state {
        case Open =>
          if now - openedAt < config.openTimeout {
            return false;
          }
          state := HalfOpen;
          probeInFlight := true;
          return true;
        case HalfOpen =>
          if probeInFlight {
            return false;
          }
          probeInFlight := true;
          return true;
        case Closed =>
          return true;
      }
    }

    method OnSuccess()
      modifies this
      ensures forall now :: Snapshot() == Report(config, old(Snapshot()), Success, now)
    {
      failures := 0;
      probeInFlight := false;
      state := Closed;
    }

    method OnFailure(now: int)
      modifies this
      ensures Snapshot() == Report(config, old(Snapshot()), Failure, now)
    {
      probeInFlight := false;
      if state == HalfOpen {
        OpenLocked(now);
        return;
      }
      failures := failures + 1;
      if failures >= config.failureThreshold {
        OpenLocked(now);
      }
    }

    method OnAbandon()
      modifies this
      ensures forall now :: Snapshot() == Report(config, old(Snapshot()), Abandon, now)
    {
      probeInFlight := false;
    }

    method OpenLocked(now: int)
      modifies this
      ensures Snapshot() == Opened(old(Snapshot()), now)
    {
      failures := 0;
      openedAt := now;
      state := Open;
    }

    /** Other calls get the mutex in between. */
    method Interfere(others: seq<Other>)
      modifies this
      ensures Snapshot() == Interfered(config, old(Snapshot()), others)
    {
      for i := 0 to |others|
        invariant Interfered(config, Snapshot(), others[i..]) == Interfered(config, old(Snapshot()), others)
      {
        assert others[i..][1..] == others[i + 1..];
        match others[i] {
          case OtherAllow(now) =>
            var _ := AllowCall(now);
          case OtherReport(outcome, now) =>
            match outcome {
              case Success => OnSuccess();
              case Failure => OnFailure(now);
              case Abandon => OnAbandon();
            }
        }
      }
    }
  }

  /** How an operation ended, in the terms `do` asks about. */
  datatype Ending = Ending(failed: bool, callerCancelled: bool, deadlinePassed: bool, transient: bool)

  /** What one attempt meets. */
  datatype Attempt = Attempt(
    before: seq<Other>, askedAt: int,
    ending: Ending, during: seq<Other>, endedAt: int,
    waitCutShort: bool)

  /** What the attempt tells the breaker. */
  function OutcomeOf(e: Ending): Outcome {
    if !e.failed then Success
    else if e.callerCancelled then Abandon
    else if e.deadlinePassed then Failure
    else if !e.transient then Success
    else Failure
  }

  /** Only a transient failure inside the deadline is worth another attempt. */
  predicate IsRetryable(e: Ending) {
    e.failed && !e.callerCancelled && !e.deadlinePassed && e.transient
  }

  /**
   A success, or a failure that is not transient, shows that the service is there; a call given up by its
   caller shows nothing; an attempt that ran into the deadline or failed transiently counts against the
   service. Only the last kind, inside the deadline, is tried again.
   */
  lemma OutcomeMeans(e: Ending)
    ensures OutcomeOf(e) == Success <==>
              !e.failed || (!e.callerCancelled && !e.deadlinePassed && !e.transient)
    ensures OutcomeOf(e) == Abandon <==> e.failed && e.callerCancelled
    ensures OutcomeOf(e) == Failure <==> e.failed && !e.callerCancelled && (e.deadlinePassed || e.transient)
    ensures IsRetryable(e) <==> e.failed && !e.callerCancelled && !e.deadlinePassed && e.transient
  {
  }

  function Asked(c: Settings, b: Breaker, a: Attempt): (Breaker, bool) {
    Allow(c, Interfered(c, b, a.before), a.askedAt)
  }

  /** One attempt: refused, or admitted, run and reported once. */
  function Attempted(c: Settings, b: Breaker, a: Attempt): (Breaker, bool) {
    var (asked, admitted) := Asked(c, b, a);
    if !admitted then (asked, false)
    else (Report(c, Interfered(c, asked, a.during), OutcomeOf(a.ending), a.endedAt), true)
  }

  /** The breaker after the first n attempts. */
  function AfterAttempts(c: Settings, b: Breaker, world: nat -> Attempt, n: nat): Breaker {
    if n == 0 then b else Attempted(c, AfterAttempts(c, b, world, n - 1), world(n)).0
  }

  /** The breaker lets attempt n in, after n - 1 complete attempts. */
  predicate AdmittedAt(c: Settings, b: Breaker, world: nat -> Attempt, n: nat) {
    n > 0 && Attempted(c, AfterAttempts(c, b, world, n - 1), world(n)).1
  }

  /** The breaker at the end of the operation, before its report. */
  function BeforeReport(c: Settings, b: Breaker, a: Attempt): Breaker {
    Interfered(c, Asked(c, b, a).0, a.during)
  }

  /** An attempt is refused by an open circuit in its time or by a probe that is out, and then reports nothing. */
  lemma RefusedReportsNothing(c: Settings, b: Breaker, a: Attempt)
    ensures var asked := Interfered(c, b, a.before);
            && (Attempted(c, b, a).1 <==>
                  !(asked.state == Open && a.askedAt < asked.openedAt + c.openTimeout)
                  && !(asked.state == HalfOpen && asked.probeInFlight))
            && (!Attempted(c, b, a).1 ==> Attempted(c, b, a).0 == asked)
  {
  }

  /** An admitted attempt gives one report, of its own ending. */
  lemma AdmittedReportsOnce(c: Settings, b: Breaker, a: Attempt)
    requires Attempted(c, b, a).1
    ensures var last, after, e := BeforeReport(c, b, a), Attempted(c, b, a).0, a.ending;
            && !after.probeInFlight
            && (!e.failed || (!e.callerCancelled && !e.deadlinePassed && !e.transient) ==>
                  after.state == Closed && after.failures == 0)
            && (e.failed && e.callerCancelled ==> after.state == last.state && after.failures == last.failures)
            && (e.failed && !e.callerCancelled && (e.deadlinePassed || e.transient) ==>
                  if last.state == HalfOpen || last.failures + 1 >= c.failureThreshold
                  then after.state == Open && after.openedAt == a.endedAt
                  else after.state == last.state && after.failures == last.failures + 1)
  {
  }

  /** An attempt that is no failure of the service, while no other call reports one. */
  predicate IsCalm(a: Attempt) {
    && !(a.ending.failed && !a.ending.callerCancelled && (a.ending.deadlinePassed || a.ending.transient))
    && (forall i :: 0 <= i < |a.before| && a.before[i].OtherReport? ==> a.before[i].outcome != Failure)
    && (forall i :: 0 <= i < |a.during| && a.during[i].OtherReport? ==> a.during[i].outcome != Failure)
  }

  lemma {:induction false} CalmOthersKeepClosed(c: Settings, b: Breaker, others: seq<Other>)
    requires b.state == Closed
    requires forall i :: 0 <= i < |others| && others[i].OtherReport? ==> others[i].outcome != Failure
    ensures Interfered(c, b, others).state == Closed
    decreases |others|
  {
    if others != [] {
      var first := match others[0]
                   case OtherAllow(now) => Allow(c, b, now).0
                   case OtherReport(outcome, now) => Report(c, b, outcome, now);
      CalmOthersKeepClosed(c, first, others[1..]);
    }
  }

  lemma CalmAttemptKeepsClosed(c: Settings, b: Breaker, a: Attempt)
    requires b.state == Closed && IsCalm(a)
    ensures Attempted(c, b, a).1 && Attempted(c, b, a).0.state == Closed
  {
    CalmOthersKeepClosed(c, b, a.before);
    CalmOthersKeepClosed(c, Interfered(c, b, a.before), a.during);
    OutcomeMeans(a.ending);
  }

  /** A closed circuit refuses no attempt and stays closed through any number of errors that are not transient. */
  lemma {:induction false} CalmKeepsClosed(c: Settings, b: Breaker, world: nat -> Attempt, n: nat)
    requires b.state == Closed && forall k: nat :: 1 <= k <= n ==> IsCalm(world(k))
    ensures AfterAttempts(c, b, world, n).state == Closed
    ensures n > 0 ==> AdmittedAt(c, b, world, n)
  {
    if n > 0 {
      CalmKeepsClosed(c, b, world, n - 1);
      CalmAttemptKeepsClosed(c, AfterAttempts(c, b, world, n - 1), world(n));
    }
  }

  datatype CallResult = Done | CircuitRefused | GaveUp

  function AtLeastOne(n: int): nat {
    if n < 1 then 1 else n
  }

  /** The sum of the documented waits after the first n attempts, before jitter. */
  function WaitBudget(base: int, max: int, n: nat): int {
    if n == 0 then 0 else WaitBudget(base, max, n - 1) + Backoff.Wait(base, max, n)
  }

  /** One turn of the loop of `do`: ask, run the operation if admitted, and report it. */
  method RunAttempt(b: BreakerObject, a: Attempt) returns (admitted: bool)
    modifies b
    ensures (b.Snapshot(), admitted) == Attempted(b.config, old(b.Snapshot()), a)
  {
    b.Interfere(a.before);
    admitted := b.AllowCall(a.askedAt);
    if !admitted {
      return;
    }
    b.Interfere(a.during);
    var e := a.ending;
    if !e.failed {
      b.OnSuccess();
    } else if e.callerCancelled {
      b.OnAbandon();
    } else if e.deadlinePassed {
      b.OnFailure(a.endedAt);
    } else if !e.transient {
      b.OnSuccess();
    } else {
      b.OnFailure(a.endedAt);
    }
  }

  /** Between half of the documented waits, up to rounding, and all of them. */
  predicate IsWaitOf(base: int, max: int, n: nat, waited: int) {
    WaitBudget(base, max, n) - n <= 2 * waited && waited <= WaitBudget(base, max, n)
  }

  /** The wait after attempt n of `do` adds between half of its documented wait and the whole. */
  method CallerWait(base: int, max: int, n: nat, jitter: int -> int, waited: int) returns (total: int)
    requires Backoff.IsRandomSource(jitter) && n > 0
    ensures Backoff.HasDocumentedWaits(base, max) && IsWaitOf(base, max, n - 1, waited) ==>
              waited <= total && IsWaitOf(base, max, n, total)
  {
    var wait := Backoff.CallerBackoff(base, max, n, jitter);
    total := waited + wait;
    if Backoff.HasDocumentedWaits(base, max) {
      Backoff.DocumentedWaitsFit(base, max, n);
    }
  }

  /** The same for `syncWithRetryMode`. */
  method PolicyWait(policy: Backoff.RetryPolicy, n: nat, jitter: int -> int, waited: int) returns (total: int)
    requires Backoff.IsRandomSource(jitter) && n > 0
    ensures Backoff.HasDocumentedWaits(policy.baseDelay, policy.maxDelay)
              && IsWaitOf(policy.baseDelay, policy.maxDelay, n - 1, waited) ==>
              waited <= total && IsWaitOf(policy.baseDelay, policy.maxDelay, n, total)
  {
    var wait := Backoff.PolicyBackoff(policy, n, jitter);
    total := waited + wait;
    if Backoff.HasDocumentedWaits(policy.baseDelay, policy.maxDelay) {
      Backoff.DocumentedWaitsFit(policy.baseDelay, policy.maxDelay, n);
    }
  }

  lemma OneAttemptMore(c: Settings, b: Breaker, world: nat -> Attempt, n: nat, b': Breaker, admitted: bool)
    requires (b', admitted) == Attempted(c, AfterAttempts(c, b, world, n), world(n + 1))
    ensures b' == AfterAttempts(c, b, world, n + 1) && (admitted <==> AdmittedAt(c, b, world, n + 1))
  {
  }

  /**
   `do`. Every admitted attempt runs the operation once and reports once; nothing else
   touches the breaker on its behalf.
   */
  method Do(b: BreakerObject, maxAttempts: int, base: int, max: int, jitter: int -> int, world: nat -> Attempt)
    returns (result: CallResult, ops: nat, retries: nat, waited: int)
    requires Backoff.IsRandomSource(jitter)
    modifies b
    // As many operations as allowed at most, each but the first one counted as a retry.
    ensures ops <= AtLeastOne(maxAttempts)
    ensures retries == if ops == 0 then 0 else ops - 1
    // Each operation was admitted, and reported exactly once.
    ensures forall n: nat :: 1 <= n <= ops ==> AdmittedAt(b.config, old(b.Snapshot()), world, n)
    ensures b.Snapshot() ==
            AfterAttempts(b.config, old(b.Snapshot()), world, if result == CircuitRefused then ops + 1 else ops)
    // An attempt follows only a retryable failure whose wait ran to its end.
    ensures forall n: nat :: 1 <= n < ops ==> IsRetryable(world(n).ending) && !world(n).waitCutShort
    // Why it stopped.
    ensures result == Done ==> ops > 0 && !world(ops).ending.failed
    ensures result == CircuitRefused ==>
              !AdmittedAt(b.config, old(b.Snapshot()), world, ops + 1)
              && (ops > 0 ==> IsRetryable(world(ops).ending))
    ensures result == GaveUp ==>
              ops > 0 && world(ops).ending.failed
              && (IsRetryable(world(ops).ending) ==> ops == AtLeastOne(maxAttempts) || world(ops).waitCutShort)
    // One wait before each attempt but the first, each from half of its documented wait to the whole.
    ensures Backoff.HasDocumentedWaits(base, max) ==>
              waited >= 0 && IsWaitOf(base, max, if result == CircuitRefused then ops else retries, waited)
  {
    var limit := AtLeastOne(maxAttempts);
    ghost var start := b.Snapshot();
    ops, retries, waited := 0, 0, 0;
    while true
      invariant ops < limit
      invariant retries == if ops == 0 then 0 else ops - 1
      invariant b.Snapshot() == AfterAttempts(b.config, start, world, ops)
      invariant forall n: nat :: 1 <= n <= ops ==> AdmittedAt(b.config, start, world, n)
      invariant forall n: nat :: 1 <= n <= ops ==> IsRetryable(world(n).ending) && !world(n).waitCutShort
      invariant Backoff.HasDocumentedWaits(base, max) ==> waited >= 0 && IsWaitOf(base, max, ops, waited)
      decreases limit - ops
    {
      var a := world(ops + 1);
      var admitted := RunAttempt(b, a);
      OneAttemptMore(b.config, start, world, ops, b.Snapshot(), admitted);
      if !admitted {
        result := CircuitRefused;
        return;
      }
      if ops + 1 > 1 {
        retries := retries + 1;
      }
      ops := ops + 1;
      if !a.ending.failed {
        result := Done;
        return;
      }
      if !IsRetryable(a.ending) || ops >= limit || a.waitCutShort {
        result := GaveUp;
        return;
      }
      waited := CallerWait(base, max, ops, jitter, waited);
    }
  }

  /** What one run of a source's sync meets. */
  datatype SyncAttempt = SyncAttempt(succeeded: bool, cancelled: bool, waitCutShort: bool)

  /** `syncWithRetryMode` under a normalized policy. */
  method SyncWithRetry(policy: Backoff.RetryPolicy, jitter: int -> int, world: nat -> SyncAttempt)
    returns (ok: bool, ops: nat, retries: nat, waited: int)
    requires Backoff.IsNormalized(policy) && Backoff.IsRandomSource(jitter)
    ensures 1 <= ops <= policy.maxAttempts && retries == ops - 1
    ensures ok == world(ops).succeeded
    ensures forall n: nat :: 1 <= n < ops ==> !world(n).succeeded && !world(n).cancelled && !world(n).waitCutShort
    ensures !ok ==> ops == policy.maxAttempts || world(ops).cancelled || world(ops).waitCutShort
    ensures Backoff.HasDocumentedWaits(policy.baseDelay, policy.maxDelay) ==>
              waited >= 0 && IsWaitOf(policy.baseDelay, policy.maxDelay, retries, waited)
  {
    ops, retries, waited, ok := 0, 0, 0, false;
    while true
      invariant ops < policy.maxAttempts && retries == ops
      invariant forall n: nat :: 1 <= n <= ops ==> !world(n).succeeded && !world(n).cancelled && !world(n).waitCutShort
      invariant Backoff.HasDocumentedWaits(policy.baseDelay, policy.maxDelay) ==>
        waited >= 0 && IsWaitOf(policy.baseDelay, policy.maxDelay, retries, waited)
      decreases policy.maxAttempts - ops
    {
      ops := ops + 1;
      var a := world(ops);
      if a.succeeded {
        ok := true;
        return;
      }
      if ops >= policy.maxAttempts || a.cancelled {
        return;
      }
      if a.waitCutShort {
        return;
      }
      waited := PolicyWait(policy, ops, jitter, waited);
      retries := retries + 1;
    }
  }
}
