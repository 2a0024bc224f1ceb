/**
 When two syncs of one event can run at the same time: exactly when the earlier one begins
 too late in its lease to end, by its timeout, before the lease does.
 */
module WebhookOverlap {
  import opened WebhookStore
  import opened WebhookProtocol
  import opened WebhookTheorems

  /** Ticket t is still in the sync it began at `begunAt`, inside its timeout, beside the sync of a later ticket. */
  ghost predicate IsOverlap(c: Settings, s: System, t: Ticket, begunAt: int) {
    && t in s.held && s.held[t] == Syncing(begunAt) && s.store.now < begunAt + c.processTimeout
    && exists u :: u in s.held && s.held[u].Syncing? && u.id == t.id && t.attempts < u.attempts
  }

  /** Some run that starts with the sync of t ends in such an overlap. */
  ghost predicate CanOverlap(c: Settings, s: System, t: Ticket) {
    exists actions :: IsOverlap(c, Run(c, Step(c, s, BeginSync(t)), actions), t, s.store.now)
  }

  /** What the processor could check before it begins. */
  predicate BeginsTooLate(c: Settings, s: System, t: Ticket) {
    c.processTimeout > 0 && s.store.now + c.processTimeout > t.claimedAt + c.lease
  }

  /** An overlap, of whatever runs led to it, has an earlier sync that began too late. */
  lemma OverlapIsLate(c: Settings, s: System, t: Ticket, begunAt: int)
    requires Inv(c, s) && IsOverlap(c, s, t, begunAt)
    ensures begunAt + c.processTimeout > t.claimedAt + c.lease && c.processTimeout > 0
  {
    var u :| u in s.held && s.held[u].Syncing? && u.id == t.id && t.attempts < u.attempts;
    assert TicketOk(s, u) && PhaseOk(s, t);
  }

  /** Ticket t syncs, owns its event, and the event is due: its next claim is near. */
  predicate IsOverdue(s: System, t: Ticket, begunAt: int) {
    t in s.held && s.held[t] == Syncing(begunAt) && OwnedBy(s.store, t) && IsDue(s.store, t.id)
  }

  /** The claim that takes the event of t gives a later ticket beside t. */
  lemma ClaimHandsSuccessor(c: Settings, s: System, t: Ticket, begunAt: int)
    requires IsOverdue(s, t, begunAt) && t.id in FirstDue(s.store, c.batchSize)
    ensures var s', u := ClaimStep(c, s), Ticket(t.id, s.store.rows[t.id].slug, t.attempts + 1, s.store.now);
            t in s'.held && s'.held[t] == Syncing(begunAt) && u in s'.held && s'.held[u] == Waiting
            && s'.store.now == s.store.now
  {
    var u := Ticket(t.id, s.store.rows[t.id].slug, t.attempts + 1, s.store.now);
    var store := ClaimDue(s.store, c.batchSize, c.lease);
    assert u == TicketFor(store, t.id);
    assert t !in ClaimedTickets(s.store, c.batchSize, c.lease);
  }

  lemma ClaimPassesOver(c: Settings, s: System, t: Ticket, begunAt: int)
    requires IsOverdue(s, t, begunAt) && t.id !in FirstDue(s.store, c.batchSize)
    ensures var s' := ClaimStep(c, s);
            IsOverdue(s', t, begunAt) && s'.store.now == s.store.now && Rank(s', t.id) < Rank(s, t.id)
  {
    assert t !in ClaimedTickets(s.store, c.batchSize, c.lease);
    ClaimCutsRank(c, s, t.id);
  }

  /** Claims alone, as many as the rank asks for, hand the event on while t still syncs. */
  lemma {:induction false} ClaimUntilHanded(c: Settings, s: System, t: Ticket, begunAt: int)
    returns (actions: seq<Action>, u: Ticket)
    requires IsOverdue(s, t, begunAt)
    ensures var s' := Run(c, s, actions);
            t in s'.held && s'.held[t] == Syncing(begunAt) && u in s'.held && s'.held[u] == Waiting
            && u.id == t.id && u.attempts == t.attempts + 1 && s'.store.now == s.store.now
    decreases Rank(s, t.id)
  {
    var s' := Step(c, s, Claim);
    if t.id in FirstDue(s.store, c.batchSize) {
      ClaimHandsSuccessor(c, s, t, begunAt);
      actions, u := [Claim], Ticket(t.id, s.store.rows[t.id].slug, t.attempts + 1, s.store.now);
      assert Run(c, s, [Claim]) == Run(c, s', [Claim][1..]) == s';
    } else {
      ClaimPassesOver(c, s, t, begunAt);
      var rest;
      rest, u := ClaimUntilHanded(c, s', t, begunAt);
      actions := [Claim] + rest;
      assert actions[1..] == rest;
    }
  }

  /** Begun too late, the sync can be waited out to the end of its lease. */
  lemma LateSyncIsOverdue(c: Settings, s: System, t: Ticket) returns (wait: nat)
    requires Inv(c, s) && t in s.held && s.held[t].Waiting? && OwnedBy(s.store, t) && BeginsTooLate(c, s, t)
    ensures var s' := Step(c, Step(c, s, BeginSync(t)), Tick(wait));
            IsOverdue(s', t, s.store.now) && s'.store.now < s.store.now + c.processTimeout
  {
    assert LeaseOk(c, s, t);
    wait := if t.claimedAt + c.lease > s.store.now then t.claimedAt + c.lease - s.store.now else 0;
  }

  lemma SuccessorOverlaps(c: Settings, s: System, t: Ticket, begunAt: int, u: Ticket)
    requires t in s.held && s.held[t] == Syncing(begunAt) && s.store.now < begunAt + c.processTimeout
    requires u in s.held && s.held[u] == Waiting && u.id == t.id && t.attempts < u.attempts
    ensures IsOverlap(c, Step(c, s, BeginSync(u)), t, begunAt)
  {
    var s' := Step(c, s, BeginSync(u));
    assert u in s'.held && s'.held[u].Syncing?;
  }

  /** And then the event is claimed again and synced beside it. */
  lemma LateSyncOverlaps(c: Settings, s: System, t: Ticket)
    requires Inv(c, s) && t in s.held && s.held[t].Waiting? && OwnedBy(s.store, t) && BeginsTooLate(c, s, t)
    ensures CanOverlap(c, s, t)
  {
    var s1 := Step(c, s, BeginSync(t));
    var wait := LateSyncIsOverdue(c, s, t);
    var s2 := Step(c, s1, Tick(wait));
    var claims, u := ClaimUntilHanded(c, s2, t, s.store.now);
    var actions := [Tick(wait)] + claims;
    assert actions[1..] == claims;
    SuccessorOverlaps(c, Run(c, s2, claims), t, s.store.now, u);
    RunOneMore(c, s1, actions, BeginSync(u));
  }

  lemma OnlyLateSyncsOverlap(c: Settings, s: System, t: Ticket, actions: seq<Action>)
    requires Inv(c, s) && IsOverlap(c, Run(c, Step(c, s, BeginSync(t)), actions), t, s.store.now)
    ensures BeginsTooLate(c, s, t)
  {
    StepKeepsInv(c, s, BeginSync(t));
    RunKeepsInv(c, Step(c, s, BeginSync(t)), actions);
    OverlapIsLate(c, Run(c, Step(c, s, BeginSync(t)), actions), t, s.store.now);
  }

  /**
   The sync of a ticket that owns its event can be overtaken by a second sync of that event,
   before its own timeout, exactly when it begins too late in its lease.
   */
  lemma SyncsOverlapIff(c: Settings, s: System, t: Ticket)
    requires Reachable(c, s) && t in s.held && s.held[t].Waiting? && OwnedBy(s.store, t)
    ensures CanOverlap(c, s, t) <==> BeginsTooLate(c, s, t)
  {
    ReachableInv(c, s);
    if CanOverlap(c, s, t) {
      var actions :| IsOverlap(c, Run(c, Step(c, s, BeginSync(t)), actions), t, s.store.now);
      OnlyLateSyncsOverlap(c, s, t, actions);
    }
    if BeginsTooLate(c, s, t) {
      LateSyncOverlaps(c, s, t);
    }
  }

  /** Under every setting with a timeout the condition is met: by a first attempt that waits out its lease. */
  lemma TooLateIsReached(c: Settings) returns (s: System, t: Ticket)
    requires c.processTimeout > 0
    ensures Reachable(c, s) && t in s.held && s.held[t].Waiting? && OwnedBy(s.store, t)
    ensures BeginsTooLate(c, s, t) && CanOverlap(c, s, t)
  {
    var s0 := Initial(0);
    assert s0 == Run(c, s0, []);
    var s1 := Step(c, s0, Enqueue("key", "slug", ""));
    ReachableStep(c, s0, Enqueue("key", "slug", ""));
    s, t := Step(c, s1, Tick(c.lease)), Ticket(0, "slug", 1, 0);
    ReachableStep(c, s1, Tick(c.lease));
    SyncsOverlapIff(c, s, t);
  }
}
