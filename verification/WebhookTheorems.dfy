/**
 What the webhook queue promises over every run: no event is lost, tickets are fenced
 by their attempt number, leases exclude each other, and no due event starves.
 */
module WebhookTheorems {
  import opened Sets
  import opened Wrappers
  import opened WebhookStore
  import opened WebhookProtocol
  import Backoff

  lemma InitialInv(c: Settings, now: int)
    ensures Inv(c, Initial(now))
  {
  }

  ghost predicate Reachable(c: Settings, s: System) {
    exists now, actions :: s == Run(c, Initial(now), actions)
  }

  lemma ReachableInv(c: Settings, s: System)
    requires Reachable(c, s)
    ensures Inv(c, s)
  {
    var now, actions :| s == Run(c, Initial(now), actions);
    InitialInv(c, now);
    RunKeepsInv(c, Initial(now), actions);
  }

  /**
   No accepted event is lost. In every run each created event is still pending, or some
   `SyncRecord` of its slug began after it arrived and succeeded; a row is only ever
   completed, and only ever purged, with such a witness.
   */
  lemma NoEventLost(c: Settings, s: System, id: nat)
    requires Reachable(c, s) && id in s.accepted
    ensures IsPending(s.store, id) || HasWitness(s, s.accepted[id].slug, s.accepted[id].receivedAt)
    ensures id in s.store.rows ==> s.store.rows[id].slug == s.accepted[id].slug
                                   && s.store.rows[id].receivedAt == s.accepted[id].receivedAt
  {
    ReachableInv(c, s);
    if id in s.store.rows {
      assert RowOk(c, s, id);
    }
  }

  /** An event is created at most once per key, and is then in the table and owned by its first attempt. */
  lemma EnqueueCreatesOnce(c: Settings, s: System, key: string, slug: string, eventType: string)
    requires Reachable(c, s)
    ensures var (store, ticket) := WebhookStore.Enqueue(s.store, key, slug, eventType, c.lease);
            && (ticket.None? <==> HasKey(s.store, key))
            && HasKey(store, key)
            && (ticket.None? ==> store.rows == s.store.rows)
            && (ticket.Some? ==>
                  && ticket.value.id !in s.store.rows && ticket.value.id !in s.accepted
                  && OwnedBy(store, ticket.value)
                  && store.rows - {ticket.value.id} == s.store.rows)
    ensures forall i, j :: i in s.store.rows && j in s.store.rows && i != j
              ==> s.store.rows[i].key != s.store.rows[j].key
  {
    ReachableInv(c, s);
    EnqueueAddsOneRow(c, s, key, slug, eventType);
  }

  lemma EnqueueAddsOneRow(c: Settings, s: System, key: string, slug: string, eventType: string)
    requires TableOk(c, s)
    ensures var (store, ticket) := WebhookStore.Enqueue(s.store, key, slug, eventType, c.lease);
            && HasKey(store, key)
            && (ticket.Some? ==>
                  && ticket.value.id !in s.store.rows && ticket.value.id !in s.accepted
                  && OwnedBy(store, ticket.value)
                  && store.rows - {ticket.value.id} == s.store.rows)
  {
    var (store, ticket) := WebhookStore.Enqueue(s.store, key, slug, eventType, c.lease);
    if ticket.Some? {
      var id := s.store.nextId;
      assert forall i :: i in s.store.rows ==> RowOk(c, s, i);
      assert store.rows[id].key == key;
      assert store.rows - {id} == s.store.rows;
    }
  }

  /**
   Fencing. A step only issues tickets whose attempt is above every ticket issued before
   for the same event, so tickets in hand never tie, and a failure reported by any but the
   latest changes nothing.
   */
  lemma TicketsAreFenced(c: Settings, s: System, a: Action)
    requires Reachable(c, s)
    ensures var s' := Step(c, s, a);
            forall t, u :: t in s'.issued - s.issued && u in s.issued && t.id == u.id ==> u.attempts < t.attempts
    ensures forall t, u :: t in s.held && u in s.held && t.id == u.id && t.attempts == u.attempts ==> t == u
    ensures forall t, msg, retryIn :: t in s.issued
              && (exists u :: u in s.issued && u.id == t.id && t.attempts < u.attempts)
              ==> Fail(s.store, t, msg, retryIn) == s.store
  {
    ReachableInv(c, s);
    var s' := Step(c, s, a);
    forall t, u | t in s'.issued - s.issued && u in s.issued && t.id == u.id
      ensures u.attempts < t.attempts
    {
      assert TicketOk(s, u);
      if a.Claim? {
        ClaimOutranks(c, s, t, u);
      }
    }
    forall t, msg, retryIn | t in s.issued && (exists u :: u in s.issued && u.id == t.id && t.attempts < u.attempts)
      ensures Fail(s.store, t, msg, retryIn) == s.store
    {
      var u :| u in s.issued && u.id == t.id && t.attempts < u.attempts;
      assert TicketOk(s, u);
    }
  }

  lemma StepKeepsCompleted(c: Settings, s: System, a: Action, id: nat)
    requires TableOk(c, s) && id in s.accepted && !IsPending(s.store, id)
    ensures var s' := Step(c, s, a);
            id in s'.accepted && !IsPending(s'.store, id)
            && (id in s'.store.rows ==> id in s.store.rows && s'.store.rows[id] == s.store.rows[id])
  {
    assert id < s.store.nextId;
  }

  /** Completed is final: such a row never changes again, until a purge takes it away for good. */
  lemma {:induction false} CompletedIsFinal(c: Settings, s: System, actions: seq<Action>, id: nat)
    requires Inv(c, s) && id in s.accepted && !IsPending(s.store, id)
    ensures var s' := Run(c, s, actions);
            !IsPending(s'.store, id)
            && (id in s'.store.rows ==> id in s.store.rows && s'.store.rows[id] == s.store.rows[id])
    decreases |actions|
  {
    if actions != [] {
      var s1 := Step(c, s, actions[0]);
      StepKeepsCompleted(c, s, actions[0], id);
      StepKeepsInv(c, s, actions[0]);
      CompletedIsFinal(c, s1, actions[1..], id);
    }
  }

  /** Two processors never hold the same event inside its lease at the same time. */
  lemma LeasesExclude(c: Settings, s: System, t: Ticket, u: Ticket)
    requires Reachable(c, s)
    requires t in s.held && u in s.held && t.id == u.id && t != u
    ensures t.claimedAt + c.lease <= s.store.now || u.claimedAt + c.lease <= s.store.now
  {
    ReachableInv(c, s);
    assert TicketOk(s, t) && TicketOk(s, u);
  }

  /** A sync that began with its whole timeout left in the lease runs beside no later sync of the event. */
  lemma TimelySyncsExclude(c: Settings, s: System, t: Ticket, u: Ticket)
    requires Reachable(c, s)
    requires t in s.held && s.held[t].Syncing? && u in s.held && t.id == u.id && t.attempts < u.attempts
    requires s.store.now < s.held[t].begunAt + c.processTimeout
    ensures s.held[t].begunAt + c.processTimeout > t.claimedAt + c.lease
  {
    ReachableInv(c, s);
    assert TicketOk(s, u);
  }

  lemma {:induction false} RunOneMore(c: Settings, s: System, actions: seq<Action>, a: Action)
    ensures Run(c, s, actions + [a]) == Step(c, Run(c, s, actions), a)
    decreases |actions|
  {
    if actions == [] {
      assert Run(c, s, [a]) == Run(c, Step(c, s, a), [a][1..]);
    } else {
      assert (actions + [a])[1..] == actions[1..] + [a];
      RunOneMore(c, Step(c, s, actions[0]), actions[1..], a);
    }
  }

  lemma ReachableStep(c: Settings, s: System, a: Action)
    requires Reachable(c, s)
    ensures Reachable(c, Step(c, s, a))
  {
    var now, actions :| s == Run(c, Initial(now), actions);
    RunOneMore(c, Initial(now), actions, a);
    assert Step(c, s, a) == Run(c, Initial(now), actions + [a]);
  }

  /**
   What a report leaves of its event, whatever other processors did meanwhile: nothing, if it was purged;
   completed; scheduled by this failure, if the ticket still owned it; or as it was, with a later attempt's owner.
   */
  lemma ReportSettles(c: Settings, s: System, t: Ticket)
    requires Reachable(c, s) && Enabled(s, Report(t)) && t.id in s.store.rows
    ensures var store := Step(c, s, Report(t)).store;
            && t.id in store.rows && t !in Step(c, s, Report(t)).held
            && var row := store.rows[t.id];
               || row.status == Completed
               || (s.held[t].SyncFailed? && row.attempts == t.attempts
                   && row.lastError == Some(Truncated(s.held[t].error))
                   && row.nextAttemptAt == s.store.now + RetryDelay(c, t.attempts))
               || (s.held[t].SyncFailed? && row == s.store.rows[t.id] && row.attempts > t.attempts)
  {
    ReachableInv(c, s);
    assert TicketOk(s, t);
  }

  // ---- When rows fall due ----

  /** Every pending row is due again within this long of its last write. */
  function Horizon(c: Settings): int {
    if c.lease >= c.retryMaxDelay then c.lease else c.retryMaxDelay
  }

  predicate IsTimed(c: Settings, row: Row) {
    row.updatedAt < row.nextAttemptAt <= row.updatedAt + Horizon(c)
  }

  predicate AreTimed(c: Settings, s: System) {
    forall id :: id in s.store.rows && IsPending(s.store, id) ==> IsTimed(c, s.store.rows[id])
  }

  lemma RetryDelayBounds(c: Settings, attempt: int)
    requires DelaysFit(c)
    ensures 0 < RetryDelay(c, attempt) <= c.retryMaxDelay
  {
    Backoff.DoublingIsExact(c.retryBaseDelay, c.retryMaxDelay, Backoff.Doublings(attempt));
    Backoff.Pow2Scales(c.retryBaseDelay, Backoff.Doublings(attempt));
  }

  lemma StepKeepsTimed(c: Settings, s: System, a: Action)
    requires DelaysFit(c) && AreTimed(c, s)
    ensures AreTimed(c, Step(c, s, a))
  {
    if a.Report? {
      RetryDelayBounds(c, a.ticket.attempts);
    }
  }

  lemma {:induction false} RunKeepsTimed(c: Settings, s: System, actions: seq<Action>)
    requires DelaysFit(c) && AreTimed(c, s)
    ensures AreTimed(c, Run(c, s, actions))
    decreases |actions|
  {
    if actions != [] {
      StepKeepsTimed(c, s, actions[0]);
      RunKeepsTimed(c, Step(c, s, actions[0]), actions[1..]);
    }
  }

  /** Every pending row is due again within max(lease, longest retry delay) of its last write. */
  lemma PendingBecomesDue(c: Settings, s: System, id: nat)
    requires Reachable(c, s) && DelaysFit(c) && IsPending(s.store, id)
    ensures s.store.rows[id].updatedAt + Horizon(c) <= s.store.now ==> IsDue(s.store, id)
    ensures s.store.rows[id].updatedAt == s.store.now ==> !IsDue(s.store, id)
  {
    var now, actions :| s == Run(c, Initial(now), actions);
    RunKeepsTimed(c, Initial(now), actions);
    assert IsTimed(c, s.store.rows[id]);
  }

  // ---- No starvation ----

  function Rank(s: System, id: nat): nat
    requires id in s.store.rows
  {
    |Ahead(s.store, id)|
  }

  /** The event is still pending and neither claimed nor rescheduled since `s`. */
  predicate StillWaiting(s: System, s': System, id: nat) {
    && IsPending(s.store, id) && IsPending(s'.store, id)
    && s'.store.rows[id].attempts == s.store.rows[id].attempts
    && s'.store.rows[id].nextAttemptAt == s.store.rows[id].nextAttemptAt
  }

  /** A claim that passes over a due event takes a full batch from before it. */
  lemma PassedOverIsBehind(s: Store, limit: nat, id: nat)
    requires IsDue(s, id) && id !in FirstDue(s, limit)
    ensures FirstDue(s, limit) <= Ahead(s, id) && |FirstDue(s, limit)| == limit
  {
    forall i | i in FirstDue(s, limit)
      ensures i in Ahead(s, id)
    {
      if Before(s.rows, id, i) {
        ClaimTakesAPrefix(s, limit, id, i);
      }
    }
    AheadOfDueIsDue(s, id);
    SubsetSize(Ahead(s, id), Due(s));
    ClaimSize(s, limit);
  }

  lemma AheadAfterClaim(s: Store, limit: nat, lease: int, id: nat)
    requires lease > 0 && IsDue(s, id) && id !in FirstDue(s, limit)
    ensures Ahead(ClaimDue(s, limit, lease), id) == Ahead(s, id) - FirstDue(s, limit)
  {
  }

  lemma ClaimCutsRank(c: Settings, s: System, id: nat)
    requires IsDue(s.store, id) && id !in FirstDue(s.store, c.batchSize)
    requires StillWaiting(s, ClaimStep(c, s), id)
    ensures Rank(ClaimStep(c, s), id) == Rank(s, id) - c.batchSize
  {
    PassedOverIsBehind(s.store, c.batchSize, id);
    AheadAfterClaim(s.store, c.batchSize, c.lease, id);
    assert ClaimStep(c, s).store == ClaimDue(s.store, c.batchSize, c.lease);
  }

  lemma ReportPutsNoneAhead(c: Settings, s: System, t: Ticket, id: nat, i: nat)
    requires DelaysFit(c) && IsDue(s.store, id) && Enabled(s, Report(t))
    requires StillWaiting(s, ReportStep(c, s, t), id) && i in Ahead(ReportStep(c, s, t).store, id)
    ensures i in Ahead(s.store, id)
  {
    RetryDelayBounds(c, t.attempts);
  }

  lemma OthersPutNoneAhead(c: Settings, s: System, a: Action, id: nat, i: nat)
    requires Inv(c, s) && DelaysFit(c) && IsDue(s.store, id) && !a.Claim?
    requires StillWaiting(s, Step(c, s, a), id) && i in Ahead(Step(c, s, a).store, id)
    ensures i in Ahead(s.store, id)
  {
    if a.Report? && Enabled(s, a) {
      ReportPutsNoneAhead(c, s, a.ticket, id, i);
    } else {
      assert RowOk(c, s, id);
    }
  }

  lemma OthersKeepAhead(c: Settings, s: System, a: Action, id: nat)
    requires Inv(c, s) && DelaysFit(c) && IsDue(s.store, id) && !a.Claim?
    requires StillWaiting(s, Step(c, s, a), id)
    ensures Ahead(Step(c, s, a).store, id) <= Ahead(s.store, id)
  {
    forall i | i in Ahead(Step(c, s, a).store, id)
      ensures i in Ahead(s.store, id)
    {
      OthersPutNoneAhead(c, s, a, id, i);
    }
  }

  /**
   While a due event waits, no action puts more pending rows before it, and each claim
   takes exactly one batch of those away.
   */
  lemma StepCutsRank(c: Settings, s: System, a: Action, id: nat)
    requires Inv(c, s) && DelaysFit(c) && IsDue(s.store, id)
    requires StillWaiting(s, Step(c, s, a), id)
    ensures IsDue(Step(c, s, a).store, id)
    ensures if a.Claim? then Rank(Step(c, s, a), id) == Rank(s, id) - c.batchSize
            else Rank(Step(c, s, a), id) <= Rank(s, id)
  {
    if a.Claim? {
      ClaimCutsRank(c, s, id);
    } else {
      OthersKeepAhead(c, s, a, id);
      SubsetSize(Ahead(Step(c, s, a).store, id), Ahead(s.store, id));
    }
  }

  function Claims(actions: seq<Action>): nat {
    if actions == [] then 0 else (if actions[0].Claim? then 1 else 0) + Claims(actions[1..])
  }

  /** The event waits in every state the run passes through. */
  predicate WaitsThroughout(c: Settings, s: System, actions: seq<Action>, id: nat)
    decreases |actions|
  {
    actions == [] ||
    (StillWaiting(s, Step(c, s, actions[0]), id) && WaitsThroughout(c, Step(c, s, actions[0]), actions[1..], id))
  }

  /** What the claims of a run take from the rank of a waiting event. */
  function Paid(batch: int, actions: seq<Action>): int {
    if actions == [] then 0 else (if actions[0].Claim? then batch else 0) + Paid(batch, actions[1..])
  }

  lemma Distribute(a: int, b: int, k: int)
    ensures (a + b) * k == a * k + b * k
  {
  }

  lemma {:induction false} PaidIsPerClaim(batch: int, actions: seq<Action>)
    ensures Paid(batch, actions) == Claims(actions) * batch
  {
    if actions != [] {
      PaidIsPerClaim(batch, actions[1..]);
      Distribute(if actions[0].Claim? then 1 else 0, Claims(actions[1..]), batch);
    }
  }

  lemma {:induction false} WaitingIsPaidInRank(c: Settings, s: System, actions: seq<Action>, id: nat)
    requires Inv(c, s) && DelaysFit(c) && IsDue(s.store, id) && WaitsThroughout(c, s, actions, id)
    ensures Paid(c.batchSize, actions) <= Rank(s, id)
    decreases |actions|
  {
    if actions != [] {
      StepCutsRank(c, s, actions[0], id);
      StepKeepsInv(c, s, actions[0]);
      WaitingIsPaidInRank(c, Step(c, s, actions[0]), actions[1..], id);
    }
  }

  lemma PassesExceedRank(rank: nat, batch: int, claims: nat)
    requires batch > 0 && claims >= rank / batch + 1
    ensures claims * batch > rank
  {
    var passes := rank / batch + 1;
    Distribute(rank / batch, 1, batch);
    Distribute(passes, claims - passes, batch);
    assert (claims - passes) * batch >= 0;
  }

  /**
   No starvation: in every run with more than rank/batch claims, a due event is claimed,
   completed, or rescheduled by the late processor that still owned it.
   */
  lemma DueEventsDoNotStarve(c: Settings, s: System, actions: seq<Action>, id: nat)
    requires Reachable(c, s) && DelaysFit(c) && IsDue(s.store, id)
    requires Claims(actions) >= Rank(s, id) / c.batchSize + 1
    ensures !WaitsThroughout(c, s, actions, id)
  {
    if WaitsThroughout(c, s, actions, id) {
      ReachableInv(c, s);
      WaitingIsPaidInRank(c, s, actions, id);
      PaidIsPerClaim(c.batchSize, actions);
      PassesExceedRank(Rank(s, id), c.batchSize, Claims(actions));
    }
  }

  /** How a wait ends: a claim, a completion, or the current owner's own failure report. */
  lemma WaitEndsOnlyThree(c: Settings, s: System, a: Action, id: nat)
    requires Inv(c, s) && IsDue(s.store, id) && !StillWaiting(s, Step(c, s, a), id)
    ensures (a.Claim? && id in FirstDue(s.store, c.batchSize))
         || (a.Report? && Enabled(s, a) &&
               if s.held[a.ticket].Synced? then CoveredBy(s.store, id, a.ticket)
               else a.ticket.id == id && OwnedBy(s.store, a.ticket))
  {
    assert RowOk(c, s, id);
    if a.Report? && Enabled(s, a) {
      ReportEndsWait(c, s, a.ticket, id);
    }
  }

  lemma ReportEndsWait(c: Settings, s: System, t: Ticket, id: nat)
    requires IsPending(s.store, id) && t in s.held && (s.held[t].Synced? || s.held[t].SyncFailed?)
    requires !StillWaiting(s, ReportStep(c, s, t), id)
    ensures if s.held[t].Synced? then CoveredBy(s.store, id, t) else t.id == id && OwnedBy(s.store, t)
  {
  }
}
