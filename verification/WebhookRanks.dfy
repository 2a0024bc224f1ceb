/**
 When the rank of a waiting event can grow: exactly when the retry delays leave 64 bits, and
 a failed event is put before the ones that are due.
 */
module WebhookRanks {
  import opened Wrappers
  import opened WebhookStore
  import opened WebhookProtocol
  import opened WebhookTheorems
  import Backoff

  /** In no reachable state does a step put more pending rows before an event that is due and stays so. */
  ghost predicate RanksNeverGrow(c: Settings) {
    forall s, a, id ::
      Reachable(c, s) && IsDue(s.store, id) && StillWaiting(s, Step(c, s, a), id) ==>
        Rank(Step(c, s, a), id) <= Rank(s, id)
  }

  // ---- A run to any attempt number ----

  /** The ticket of the second event at attempt k. */
  function SecondTicket(k: nat, at: int): Ticket {
    Ticket(1, "b", k, at)
  }

  predicate IsRow(s: Store, id: nat, slug: string, attempts: nat, due: int) {
    && IsPending(s, id) && s.rows[id].slug == slug
    && s.rows[id].attempts == attempts && s.rows[id].nextAttemptAt == due
  }

  /** Two events, both just claimed for attempt k, and the second one's ticket at hand. */
  predicate AreLeased(c: Settings, s: System, k: nat) {
    && s.store.rows.Keys == {0, 1}
    && IsRow(s.store, 0, "a", k, s.store.now + c.lease)
    && IsRow(s.store, 1, "b", k, s.store.now + c.lease)
    && SecondTicket(k, s.store.now) in s.held && s.held[SecondTicket(k, s.store.now)] == Waiting
  }

  lemma FirstLeases(c: Settings) returns (s: System)
    ensures Reachable(c, s) && AreLeased(c, s, 1)
  {
    var s0 := Initial(0);
    assert s0 == Run(c, s0, []);
    var s1 := Step(c, s0, Enqueue("x", "a", ""));
    ReachableStep(c, s0, Enqueue("x", "a", ""));
    s := Step(c, s1, Enqueue("y", "b", ""));
    ReachableStep(c, s1, Enqueue("y", "b", ""));
  }

  /** Both rows due at one moment: the first comes first. */
  lemma BothDueOrder(s: Store)
    requires s.rows.Keys == {0, 1} && IsDue(s, 0) && IsDue(s, 1)
    requires s.rows[0].nextAttemptAt == s.rows[1].nextAttemptAt
    ensures Ahead(s, 0) == {} && Ahead(s, 1) == {0}
  {
  }

  lemma ClaimBoth(c: Settings, s: System, k: nat)
    requires s.store.rows.Keys == {0, 1} && c.batchSize >= 2
    requires IsRow(s.store, 0, "a", k, s.store.now) && IsRow(s.store, 1, "b", k, s.store.now)
    ensures AreLeased(c, ClaimStep(c, s), k + 1) && ClaimStep(c, s).store.now == s.store.now
  {
    BothDueOrder(s.store);
    assert FirstDue(s.store, c.batchSize) == {0, 1};
    assert SecondTicket(k + 1, s.store.now) == TicketFor(ClaimDue(s.store, c.batchSize, c.lease), 1);
  }

  lemma ClaimFirst(c: Settings, s: System, k: nat)
    requires s.store.rows.Keys == {0, 1} && c.batchSize == 1
    requires IsRow(s.store, 0, "a", k, s.store.now) && IsRow(s.store, 1, "b", k, s.store.now)
    ensures var s' := ClaimStep(c, s);
            && s'.store.rows.Keys == {0, 1} && s'.store.now == s.store.now
            && IsRow(s'.store, 0, "a", k + 1, s.store.now + c.lease) && IsRow(s'.store, 1, "b", k, s.store.now)
  {
    BothDueOrder(s.store);
    assert FirstDue(s.store, 1) == {0};
  }

  lemma ClaimSecond(c: Settings, s: System, k: nat)
    requires s.store.rows.Keys == {0, 1} && c.batchSize == 1
    requires IsRow(s.store, 0, "a", k + 1, s.store.now + c.lease) && IsRow(s.store, 1, "b", k, s.store.now)
    ensures AreLeased(c, ClaimStep(c, s), k + 1) && ClaimStep(c, s).store.now == s.store.now
  {
    assert Ahead(s.store, 1) == {};
    assert FirstDue(s.store, 1) == {1};
    assert SecondTicket(k + 1, s.store.now) == TicketFor(ClaimDue(s.store, 1, c.lease), 1);
  }

  /** When both leases end, one claim, or two of one row each, starts the next attempt of both. */
  lemma NextLeases(c: Settings, s: System, k: nat) returns (s': System)
    requires Reachable(c, s) && AreLeased(c, s, k)
    ensures Reachable(c, s') && AreLeased(c, s', k + 1)
  {
    var s1 := Step(c, s, Tick(c.lease));
    ReachableStep(c, s, Tick(c.lease));
    s' := Step(c, s1, Claim);
    ReachableStep(c, s1, Claim);
    if c.batchSize >= 2 {
      ClaimBoth(c, s1, k);
    } else {
      ClaimFirst(c, s1, k);
      ClaimSecond(c, s', k);
      ReachableStep(c, s', Claim);
      s' := Step(c, s', Claim);
    }
  }

  lemma {:induction false} LeasesAtAttempt(c: Settings, k: nat) returns (s: System)
    requires k >= 1
    ensures Reachable(c, s) && AreLeased(c, s, k)
  {
    if k == 1 {
      s := FirstLeases(c);
    } else {
      var before := LeasesAtAttempt(c, k - 1);
      s := NextLeases(c, before, k - 1);
    }
  }

  /** The second event's attempt k has failed and is about to be reported; both leases have ended. */
  predicate IsAboutToFail(s: System, k: nat, t: Ticket) {
    && t.id == 1 && t.attempts == k && t in s.held && s.held[t] == SyncFailed("")
    && s.store.rows.Keys == {0, 1}
    && IsRow(s.store, 0, "a", k, s.store.now) && IsRow(s.store, 1, "b", k, s.store.now)
  }

  lemma FailureAtAttempt(c: Settings, k: nat) returns (s: System, t: Ticket)
    requires k >= 1
    ensures Reachable(c, s) && IsAboutToFail(s, k, t)
  {
    var s0 := LeasesAtAttempt(c, k);
    t := SecondTicket(k, s0.store.now);
    var s1 := Step(c, s0, BeginSync(t));
    ReachableStep(c, s0, BeginSync(t));
    var s2 := Step(c, s1, EndSync(t, Some("")));
    ReachableStep(c, s1, EndSync(t, Some("")));
    s := Step(c, s2, Tick(c.lease));
    ReachableStep(c, s2, Tick(c.lease));
  }

  /** A failure with a negative wait goes before the event that was first. */
  lemma NegativeWaitOvertakes(c: Settings, s: System, k: nat, t: Ticket)
    requires IsAboutToFail(s, k, t) && RetryDelay(c, k) < 0
    ensures IsDue(s.store, 0) && StillWaiting(s, Step(c, s, Report(t)), 0)
    ensures Rank(Step(c, s, Report(t)), 0) > Rank(s, 0)
  {
    BothDueOrder(s.store);
    assert 1 in Ahead(Step(c, s, Report(t)).store, 0);
  }

  // ---- The exact condition ----

  lemma WrappedDelaysOvertake(c: Settings) returns (s: System, t: Ticket)
    requires Backoff.IsInt64(c.retryBaseDelay) && Backoff.IsInt64(c.retryMaxDelay) && !DelaysFit(c)
    ensures Reachable(c, s) && IsDue(s.store, 0) && StillWaiting(s, Step(c, s, Report(t)), 0)
    ensures Rank(Step(c, s, Report(t)), 0) > Rank(s, 0)
  {
    var steps := Backoff.DoublingWraps(c.retryBaseDelay, c.retryMaxDelay);
    assert Backoff.Doublings(steps + 1) == steps;
    s, t := FailureAtAttempt(c, steps + 1);
    NegativeWaitOvertakes(c, s, steps + 1, t);
  }

  /** The ranks of waiting due events never grow, in any reachable state, exactly when the retry delays fit 64 bits. */
  lemma RanksNeverGrowIff(c: Settings)
    requires Backoff.IsInt64(c.retryBaseDelay) && Backoff.IsInt64(c.retryMaxDelay)
    ensures RanksNeverGrow(c) <==> DelaysFit(c)
  {
    if DelaysFit(c) {
      forall s, a, id | Reachable(c, s) && IsDue(s.store, id) && StillWaiting(s, Step(c, s, a), id)
        ensures Rank(Step(c, s, a), id) <= Rank(s, id)
      {
        ReachableInv(c, s);
        StepCutsRank(c, s, a, id);
      }
    } else {
      var s, t := WrappedDelaysOvertake(c);
    }
  }
}
