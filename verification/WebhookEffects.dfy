/**
 What each step of the queue does to each row, field by field: the rows it writes, what it
 writes in them, and that it leaves every other row as it was.
 */
module WebhookEffects {
  import opened Wrappers
  import opened WebhookStore
  import opened WebhookProtocol
  import opened WebhookTheorems

  /** The new event is due when its first lease ends; no other row changes. */
  lemma EnqueueWrites(c: Settings, s: System, key: string, slug: string, eventType: string, id: nat)
    requires Reachable(c, s)
    ensures var s' := Step(c, s, Enqueue(key, slug, eventType));
            && (id in s.store.rows ==> id in s'.store.rows && s'.store.rows[id] == s.store.rows[id])
            && (id in s'.store.rows && id !in s.store.rows ==>
                  && s'.store.rows[id] == Row(key, slug, eventType, Pending, 1, s.store.now + c.lease, s.store.now,
                                              None, None, s.store.now)
                  && s'.accepted[id] == Accepted(slug, s.store.now)
                  && Ticket(id, slug, 1, s.store.now) in s'.held
                  && forall i :: i in s.store.rows ==> s.store.rows[i].key != key)
            && ((forall i :: i in s.store.rows ==> s.store.rows[i].key != key) ==> s.store.nextId in s'.store.rows)
  {
    ReachableInv(c, s);
    if id in s.store.rows {
      assert RowOk(c, s, id);
    }
  }

  /** A claim writes the attempt, the due time and the write time of the rows it takes, and hands out their tickets. */
  lemma ClaimWrites(c: Settings, s: System, id: nat)
    requires id in s.store.rows
    ensures var row, s' := s.store.rows[id], Step(c, s, Claim);
            && id in s'.store.rows
            && s'.store.rows[id] ==
               (if row.status == Pending && row.nextAttemptAt <= s.store.now && Rank(s, id) < c.batchSize
                then row.(attempts := row.attempts + 1, nextAttemptAt := s.store.now + c.lease,
                          updatedAt := s.store.now)
                else row)
            && (s'.store.rows[id] != row ==>
                  Ticket(id, row.slug, row.attempts + 1, s.store.now) in s'.held)
  {
    if id in FirstDue(s.store, c.batchSize) {
      assert TicketFor(ClaimDue(s.store, c.batchSize, c.lease), id)
          in ClaimedTickets(s.store, c.batchSize, c.lease);
    }
  }

  /**
   A successful report completes the event and every pending event of its slug that arrived by
   the time of the claim, and no other; a completed event has no error.
   */
  lemma CompletionWrites(c: Settings, s: System, t: Ticket, id: nat)
    requires t in s.held && s.held[t].Synced? && id in s.store.rows
    ensures var row, rows := s.store.rows[id], Step(c, s, Report(t)).store.rows;
            && rows.Keys == s.store.rows.Keys
            && rows[id] ==
               if row.status == Pending && (id == t.id || (row.slug == t.slug && row.receivedAt <= t.claimedAt))
               then Row(row.key, row.slug, row.eventType, Completed, row.attempts, row.nextAttemptAt, row.receivedAt,
                        Some(s.store.now), None, s.store.now)
               else row
  {
  }

  /** So no event of the slug that the sync is known to cover is left for another attempt. */
  lemma CompletionLeavesNoneOfSlug(c: Settings, s: System, t: Ticket, id: nat)
    requires Reachable(c, s) && t in s.held && s.held[t].Synced?
    requires IsPending(Step(c, s, Report(t)).store, id)
    ensures id != t.id && id in s.accepted
    ensures s.accepted[id].slug == t.slug ==> s.accepted[id].receivedAt > t.claimedAt
  {
    ReachableInv(c, s);
    assert RowOk(c, s, id);
  }

  /** A failure report writes the error, the due time and the write time of its own row, if its attempt owns it. */
  lemma FailureWrites(c: Settings, s: System, t: Ticket, id: nat)
    requires t in s.held && s.held[t].SyncFailed? && id in s.store.rows
    ensures var row, rows := s.store.rows[id], Step(c, s, Report(t)).store.rows;
            && rows.Keys == s.store.rows.Keys
            && rows[id] ==
               if id == t.id && row.status == Pending && row.attempts == t.attempts
               then row.(lastError := Some(Truncated(s.held[t].error)),
                         nextAttemptAt := s.store.now + RetryDelay(c, t.attempts), updatedAt := s.store.now)
               else row
  {
  }

  predicate HaveTimes(s: System) {
    forall id :: id in s.store.rows && s.store.rows[id].status == Completed ==> s.store.rows[id].processedAt.Some?
  }

  lemma {:induction false} RunKeepsTimes(c: Settings, s: System, actions: seq<Action>)
    requires HaveTimes(s)
    ensures HaveTimes(Run(c, s, actions))
    decreases |actions|
  {
    if actions != [] {
      RunKeepsTimes(c, Step(c, s, actions[0]), actions[1..]);
    }
  }

  /** A purge takes exactly the events completed before the moment given, and changes nothing else. */
  lemma PurgeTakes(c: Settings, s: System, before: int, id: nat)
    requires Reachable(c, s) && id in s.store.rows
    ensures var row, rows := s.store.rows[id], Step(c, s, Purge(before)).store.rows;
            && rows.Keys <= s.store.rows.Keys
            && (id in rows ==> rows[id] == row)
            && (row.status == Pending ==> id in rows)
            && (row.status == Completed ==> row.processedAt.Some? && (id in rows <==> row.processedAt.value >= before))
  {
    var now, actions :| s == Run(c, Initial(now), actions);
    RunKeepsTimes(c, Initial(now), actions);
  }

  /** Nothing else writes the table; time only moves the clock. */
  lemma OthersWriteNothing(c: Settings, s: System, a: Action)
    requires a.BeginSync? || a.EndSync? || a.Drop? || a.Tick?
    ensures Step(c, s, a).store == if a.Tick? then s.store.(now := s.store.now + a.elapsed) else s.store
  {
  }

  /** The phases of a ticket, in order: handed out, syncing, synced or failed, gone. */
  predicate IsMove(s: System, a: Action, t: Ticket, s': System) {
    if t !in s.held then
      t in s'.held ==> (a.Claim? || a.Enqueue?) && s'.held[t] == Waiting && t.claimedAt == s.store.now
    else if t !in s'.held then a == Drop(t) || (a == Report(t) && (s.held[t].Synced? || s.held[t].SyncFailed?))
    else match s.held[t]
      case Waiting => s'.held[t] == if a == BeginSync(t) then Syncing(s.store.now) else Waiting
      case Syncing(begunAt) =>
        if a.EndSync? && a.ticket == t
        then s'.held[t] == (match a.outcome case None => Synced(begunAt) case Some(error) => SyncFailed(error))
        else s'.held[t] == s.held[t]
      case _ => s'.held[t] == s.held[t]
  }

  lemma ClaimMoves(c: Settings, s: System, t: Ticket)
    requires Inv(c, s)
    ensures IsMove(s, Claim, t, Step(c, s, Claim))
  {
    if t in s.held && t in ClaimedTickets(s.store, c.batchSize, c.lease) {
      ClaimOutranks(c, s, t, t);
    }
  }

  lemma EnqueueMoves(c: Settings, s: System, key: string, slug: string, eventType: string, t: Ticket)
    requires Inv(c, s)
    ensures IsMove(s, Enqueue(key, slug, eventType), t, Step(c, s, Enqueue(key, slug, eventType)))
  {
    if t in s.held {
      assert TicketOk(s, t);
    }
  }

  lemma WorkMoves(c: Settings, s: System, a: Action, t: Ticket)
    requires !a.Claim? && !a.Enqueue?
    ensures IsMove(s, a, t, Step(c, s, a))
    ensures Enabled(s, a) && (a == Drop(t) || a == Report(t)) ==> t !in Step(c, s, a).held
  {
  }

  /** Each step moves its own ticket one phase on, and no other ticket; a report or a drop ends its ticket. */
  lemma TicketsMoveInOrder(c: Settings, s: System, a: Action, t: Ticket)
    requires Reachable(c, s)
    ensures IsMove(s, a, t, Step(c, s, a))
    ensures Enabled(s, a) && (a == Drop(t) || a == Report(t)) ==> t !in Step(c, s, a).held
  {
    ReachableInv(c, s);
    match a
    case Claim => ClaimMoves(c, s, t);
    case Enqueue(key, slug, eventType) => EnqueueMoves(c, s, key, slug, eventType, t);
    case _ => WorkMoves(c, s, a, t);
  }

  /** Only a sync that ends well is recorded, with its slug and its times. */
  lemma SyncsAreRecorded(c: Settings, s: System, a: Action, w: SyncRecord)
    ensures w in Step(c, s, a).syncs <==>
              w in s.syncs
              || (a.EndSync? && a.outcome.None? && a.ticket in s.held && s.held[a.ticket].Syncing?
                  && w == SyncRecord(a.ticket.slug, s.held[a.ticket].begunAt, s.store.now))
  {
  }
}
