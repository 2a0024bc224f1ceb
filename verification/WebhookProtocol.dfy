/**
 The webhook queue as a protocol: any number of processors enqueue, claim, sync,
 report and crash, in any order, over one event table.

 A run is any sequence of actions; every theorem below speaks of every run.
 */
module WebhookProtocol {
  import opened Wrappers
  import opened WebhookStore
  import Backoff

  datatype Config = Config(
    lease: int,
    processTimeout: int,
    retryBaseDelay: int,
    retryMaxDelay: int,
    batchSize: int,
    retention: int)

  /** What the service constructor leaves in its configuration. */
  predicate IsNormalized(c: Config) {
    && c.lease > 0
    && 0 <= c.processTimeout < c.lease
    && 0 < c.retryBaseDelay <= c.retryMaxDelay
    && c.batchSize > 0
    && c.retention > 0
  }

  type Settings = c: Config | IsNormalized(c) witness Config(2, 1, 1, 1, 1, 1)

  /** The doubling retry delay never leaves 64 bits (see Backoff.WaitIsDocumentedIff). */
  predicate DelaysFit(c: Settings) {
    Backoff.Reach(c.retryBaseDelay, c.retryMaxDelay) < Backoff.INT64_BOUND
  }

  function RetryDelay(c: Config, attempt: int): int {
    Backoff.Wait(c.retryBaseDelay, c.retryMaxDelay, attempt)
  }

  /** Where a processor is with a ticket it holds. */
  datatype Phase =
    | Waiting
    | Syncing(begunAt: int)
    | Synced(begunAt: int)
    | SyncFailed(error: string)

  /** An event the queue answered for with `created = true`. */
  datatype Accepted = Accepted(slug: string, receivedAt: int)

  /** A `SyncRecord` call that returned without error. */
  datatype SyncRecord = SyncRecord(slug: string, begunAt: int, endedAt: int)

  /** The table and the tickets in hand; the last three fields are history. */
  datatype System = System(
    store: Store,
    held: map<Ticket, Phase>,
    issued: set<Ticket>,
    accepted: map<nat, Accepted>,
    syncs: set<SyncRecord>)

  datatype Action =
    | Enqueue(key: string, slug: string, eventType: string)
    | Claim
    | BeginSync(ticket: Ticket)
    | EndSync(ticket: Ticket, outcome: Option<string>)
    | Report(ticket: Ticket)
    | Drop(ticket: Ticket)
    | Purge(before: int)
    | Tick(elapsed: nat)

  function Initial(now: int): System {
    System(Store(map[], 0, now), map[], {}, map[], {})
  }

  function Hand(s: System, store: Store, tickets: set<Ticket>): System {
    s.(store := store,
       held := s.held + map t | t in tickets :: Waiting,
       issued := s.issued + tickets)
  }

  function EnqueueStep(c: Settings, s: System, key: string, slug: string, eventType: string): System {
    var (store, ticket) := WebhookStore.Enqueue(s.store, key, slug, eventType, c.lease);
    match ticket
    case None => s.(store := store)
    case Some(t) =>
      Hand(s, store, {t}).(accepted := s.accepted[t.id := Accepted(slug, s.store.now)])
  }

  function ClaimStep(c: Settings, s: System): System {
    Hand(s, ClaimDue(s.store, c.batchSize, c.lease), ClaimedTickets(s.store, c.batchSize, c.lease))
  }

  function EndSyncStep(s: System, t: Ticket, outcome: Option<string>): System
    requires t in s.held && s.held[t].Syncing?
  {
    match outcome
    case Some(error) => s.(held := s.held[t := SyncFailed(error)])
    case None =>
      s.(held := s.held[t := Synced(s.held[t].begunAt)],
         syncs := s.syncs + {SyncRecord(t.slug, s.held[t].begunAt, s.store.now)})
  }

  function ReportStep(c: Settings, s: System, t: Ticket): System
    requires t in s.held && (s.held[t].Synced? || s.held[t].SyncFailed?)
  {
    s.(held := s.held - {t},
       store := match s.held[t]
                case Synced(_) => Complete(s.store, t)
                case SyncFailed(error) => Fail(s.store, t, error, RetryDelay(c, t.attempts)))
  }

  /** A processor only does what its ticket's phase allows; anything else is no step. */
  predicate Enabled(s: System, a: Action) {
    match a
    case BeginSync(t) => t in s.held && s.held[t].Waiting?
    case EndSync(t, _) => t in s.held && s.held[t].Syncing?
    case Report(t) => t in s.held && (s.held[t].Synced? || s.held[t].SyncFailed?)
    case _ => true
  }

  /** `Drop` is a crash, a cancelled context or a result that could not be written. */
  function Step(c: Settings, s: System, a: Action): System {
    if !Enabled(s, a) then s else
    match a
    case Enqueue(key, slug, eventType) => EnqueueStep(c, s, key, slug, eventType)
    case Claim => ClaimStep(c, s)
    case BeginSync(t) => s.(held := s.held[t := Syncing(s.store.now)])
    case EndSync(t, outcome) => EndSyncStep(s, t, outcome)
    case Report(t) => ReportStep(c, s, t)
    case Drop(t) => s.(held := s.held - {t})
    case Purge(before) => s.(store := DeleteCompletedBefore(s.store, before))
    case Tick(elapsed) => s.(store := s.store.(now := s.store.now + elapsed))
  }

  function Run(c: Settings, s: System, actions: seq<Action>): System
    decreases |actions|
  {
    if actions == [] then s else Run(c, Step(c, s, actions[0]), actions[1..])
  }

  // ---- The invariant ----

  ghost predicate RowOk(c: Settings, s: System, id: nat)
    requires id in s.store.rows
  {
    var row := s.store.rows[id];
    && id < s.store.nextId
    && id in s.accepted && s.accepted[id] == Accepted(row.slug, row.receivedAt)
    && row.attempts >= 1
    && row.receivedAt <= s.store.now
    && row.updatedAt <= s.store.now
  }

  ghost predicate TableOk(c: Settings, s: System) {
    && (forall id :: id in s.store.rows ==> RowOk(c, s, id))
    && (forall id :: id in s.accepted ==> id < s.store.nextId)
    && (forall i, j :: i in s.store.rows && j in s.store.rows && i != j
          ==> s.store.rows[i].key != s.store.rows[j].key)
  }

  ghost predicate TicketOk(s: System, t: Ticket) {
    && t.id in s.accepted
    && t.attempts >= 1
    && s.accepted[t.id].slug == t.slug
    && s.accepted[t.id].receivedAt <= t.claimedAt <= s.store.now
    && (t.id in s.store.rows ==> t.attempts <= s.store.rows[t.id].attempts)
  }

  ghost predicate TicketsOk(s: System) {
    && s.held.Keys <= s.issued
    && (forall t :: t in s.issued ==> TicketOk(s, t))
    && (forall t, u :: t in s.issued && u in s.issued && t.id == u.id && t.attempts == u.attempts ==> t == u)
  }

  /** A successful sync of the slug that began no earlier than the event arrived. */
  ghost predicate HasWitness(s: System, slug: string, receivedAt: int) {
    exists w :: w in s.syncs && w.slug == slug && receivedAt <= w.begunAt <= w.endedAt <= s.store.now
  }

  ghost predicate PhaseOk(s: System, t: Ticket)
    requires t in s.held
  {
    match s.held[t]
    case Waiting => true
    case Syncing(begunAt) => t.claimedAt <= begunAt <= s.store.now
    case Synced(begunAt) => t.claimedAt <= begunAt <= s.store.now && HasWitness(s, t.slug, begunAt)
    case SyncFailed(_) => true
  }

  /** No accepted event is lost: it is pending, or a sync read its slug after it arrived. */
  ghost predicate NothingLost(s: System) {
    forall id :: id in s.accepted ==>
      IsPending(s.store, id) || HasWitness(s, s.accepted[id].slug, s.accepted[id].receivedAt)
  }

  /** What the lease says of a ticket still in hand. */
  ghost predicate LeaseOk(c: Settings, s: System, t: Ticket) {
    IsPending(s.store, t.id) ==>
      if s.store.rows[t.id].attempts == t.attempts
      then s.store.rows[t.id].nextAttemptAt == t.claimedAt + c.lease
      else t.claimedAt + c.lease <= s.store.now
  }

  /** A later claim of the same event comes only after the earlier ticket's lease. */
  ghost predicate LeasesOk(c: Settings, s: System) {
    && (forall t :: t in s.held ==> LeaseOk(c, s, t))
    && (forall t, u :: t in s.held && u in s.held && t.id == u.id && t.attempts < u.attempts
          ==> t.claimedAt + c.lease <= u.claimedAt)
  }

  ghost predicate Inv(c: Settings, s: System) {
    && TableOk(c, s)
    && TicketsOk(s)
    && (forall t :: t in s.held ==> PhaseOk(s, t))
    && NothingLost(s)
    && LeasesOk(c, s)
  }

  lemma WitnessStays(s: System, s': System, slug: string, at: int)
    requires HasWitness(s, slug, at)
    requires s.syncs <= s'.syncs && s.store.now <= s'.store.now
    ensures HasWitness(s', slug, at)
  {
    var w :| w in s.syncs && w.slug == slug && at <= w.begunAt <= w.endedAt <= s.store.now;
    assert w in s'.syncs;
  }

  /** The step changes neither what was accepted nor any pending status, and forgets no sync. */
  lemma NothingLostFrame(s: System, s': System)
    requires NothingLost(s)
    requires s.syncs <= s'.syncs && s.store.now <= s'.store.now
    requires s'.accepted == s.accepted
    requires forall id :: id in s.accepted && IsPending(s.store, id) ==> IsPending(s'.store, id)
    ensures NothingLost(s')
  {
    forall id | id in s'.accepted && !IsPending(s'.store, id)
      ensures HasWitness(s', s'.accepted[id].slug, s'.accepted[id].receivedAt)
    {
      WitnessStays(s, s', s.accepted[id].slug, s.accepted[id].receivedAt);
    }
  }

  lemma PhaseStays(s: System, s': System, t: Ticket)
    requires t in s.held && PhaseOk(s, t)
    requires t in s'.held && s'.held[t] == s.held[t]
    requires s.syncs <= s'.syncs && s.store.now <= s'.store.now
    ensures PhaseOk(s', t)
  {
    if s.held[t].Synced? {
      WitnessStays(s, s', t.slug, s.held[t].begunAt);
    }
  }

  // ---- Each part of the invariant, action by action ----

  lemma EnqueueTable(c: Settings, s: System, key: string, slug: string, eventType: string)
    requires TableOk(c, s)
    ensures TableOk(c, EnqueueStep(c, s, key, slug, eventType))
  {
    var s' := EnqueueStep(c, s, key, slug, eventType);
    var id := s.store.nextId;
    forall i | i in s'.store.rows
      ensures RowOk(c, s', i)
    {
      if i in s.store.rows {
        assert RowOk(c, s, i);
      }
    }
  }

  lemma EnqueueTickets(c: Settings, s: System, key: string, slug: string, eventType: string)
    requires TableOk(c, s) && TicketsOk(s)
    ensures TicketsOk(EnqueueStep(c, s, key, slug, eventType))
  {
    var s' := EnqueueStep(c, s, key, slug, eventType);
    forall t | t in s'.issued
      ensures TicketOk(s', t) && (t in s.issued ==> t.id != s.store.nextId)
    {
      if t in s.issued {
        assert TicketOk(s, t);
      }
    }
  }

  lemma EnqueueHandsNew(c: Settings, s: System, key: string, slug: string, eventType: string, t: Ticket)
    requires TableOk(c, s) && TicketsOk(s) && t in EnqueueStep(c, s, key, slug, eventType).held
    ensures t in s.held || t == Ticket(s.store.nextId, slug, 1, s.store.now)
    ensures t in s.held ==> t.id != s.store.nextId
  {
    assert t in s.held ==> TicketOk(s, t);
  }

  lemma EnqueueLease(c: Settings, s: System, key: string, slug: string, eventType: string, t: Ticket)
    requires TableOk(c, s) && TicketsOk(s) && LeasesOk(c, s) && t in EnqueueStep(c, s, key, slug, eventType).held
    ensures LeaseOk(c, EnqueueStep(c, s, key, slug, eventType), t)
  {
    EnqueueHandsNew(c, s, key, slug, eventType, t);
    assert t in s.held ==> LeaseOk(c, s, t);
  }

  lemma EnqueueLeases(c: Settings, s: System, key: string, slug: string, eventType: string)
    requires TableOk(c, s) && TicketsOk(s) && LeasesOk(c, s)
    ensures LeasesOk(c, EnqueueStep(c, s, key, slug, eventType))
  {
    var s' := EnqueueStep(c, s, key, slug, eventType);
    forall t | t in s'.held
      ensures LeaseOk(c, s', t)
    {
      EnqueueLease(c, s, key, slug, eventType, t);
    }
    forall t, u | t in s'.held && u in s'.held && t.id == u.id && t.attempts < u.attempts
      ensures t.claimedAt + c.lease <= u.claimedAt
    {
      EnqueueHandsNew(c, s, key, slug, eventType, t);
      EnqueueHandsNew(c, s, key, slug, eventType, u);
    }
  }

  lemma EnqueueKeepsInv(c: Settings, s: System, key: string, slug: string, eventType: string)
    requires Inv(c, s)
    ensures Inv(c, EnqueueStep(c, s, key, slug, eventType))
  {
    var s' := EnqueueStep(c, s, key, slug, eventType);
    EnqueueTable(c, s, key, slug, eventType);
    EnqueueTickets(c, s, key, slug, eventType);
    EnqueueLeases(c, s, key, slug, eventType);
    forall t | t in s'.held
      ensures PhaseOk(s', t)
    {
      if t in s.held && s'.held[t] == s.held[t] {
        PhaseStays(s, s', t);
      }
    }
    forall id | id in s'.accepted && !IsPending(s'.store, id)
      ensures HasWitness(s', s'.accepted[id].slug, s'.accepted[id].receivedAt)
    {
      assert id in s.accepted && !IsPending(s.store, id) && s'.accepted[id] == s.accepted[id];
      WitnessStays(s, s', s.accepted[id].slug, s.accepted[id].receivedAt);
    }
  }

  /** Fencing: a claim hands out attempts above every ticket ever issued for the event. */
  lemma ClaimOutranks(c: Settings, s: System, t: Ticket, u: Ticket)
    requires Inv(c, s)
    requires t in ClaimedTickets(s.store, c.batchSize, c.lease) && u in s.issued && u.id == t.id
    ensures u.attempts < t.attempts
  {
    assert TicketOk(s, u);
  }

  lemma ClaimTable(c: Settings, s: System)
    requires TableOk(c, s)
    ensures TableOk(c, ClaimStep(c, s))
  {
    var s' := ClaimStep(c, s);
    forall i | i in s'.store.rows
      ensures RowOk(c, s', i)
    {
      assert RowOk(c, s, i);
    }
  }

  lemma ClaimTickets(c: Settings, s: System)
    requires Inv(c, s)
    ensures TicketsOk(ClaimStep(c, s))
  {
    var s' := ClaimStep(c, s);
    var handed := ClaimedTickets(s.store, c.batchSize, c.lease);
    forall t | t in s'.issued
      ensures TicketOk(s', t)
    {
      if t in handed {
        assert RowOk(c, s, t.id);
      } else {
        assert TicketOk(s, t);
      }
    }
    forall t, u | t in s'.issued && u in s'.issued && t.id == u.id && t.attempts == u.attempts
      ensures t == u
    {
      if t in handed && u in s.issued {
        ClaimOutranks(c, s, t, u);
      } else if u in handed && t in s.issued {
        ClaimOutranks(c, s, u, t);
      }
    }
  }

  lemma ClaimLeases(c: Settings, s: System)
    requires Inv(c, s)
    ensures LeasesOk(c, ClaimStep(c, s))
  {
    var s' := ClaimStep(c, s);
    var handed := ClaimedTickets(s.store, c.batchSize, c.lease);
    forall t | t in s'.held
      ensures LeaseOk(c, s', t)
    {
      if t !in handed {
        assert t in s.held && LeaseOk(c, s, t) && TicketOk(s, t);
      }
    }
    forall t, u | t in s'.held && u in s'.held && t.id == u.id && t.attempts < u.attempts
      ensures t.claimedAt + c.lease <= u.claimedAt
    {
      ClaimSpacing(c, s, t, u);
    }
  }

  lemma ClaimSpacing(c: Settings, s: System, t: Ticket, u: Ticket)
    requires Inv(c, s) && t in ClaimStep(c, s).held && u in ClaimStep(c, s).held
    requires t.id == u.id && t.attempts < u.attempts
    ensures t.claimedAt + c.lease <= u.claimedAt
  {
    var handed := ClaimedTickets(s.store, c.batchSize, c.lease);
    if u in handed {
      assert t !in handed;
      assert IsDue(s.store, u.id) && u.claimedAt == s.store.now;
      assert LeaseOk(c, s, t);
    } else if t in handed {
      ClaimOutranks(c, s, t, u);
    }
  }

  lemma ClaimKeepsInv(c: Settings, s: System)
    requires Inv(c, s)
    ensures Inv(c, ClaimStep(c, s))
  {
    var s' := ClaimStep(c, s);
    ClaimTable(c, s);
    ClaimTickets(c, s);
    ClaimLeases(c, s);
    NothingLostFrame(s, s');
    forall t | t in s'.held
      ensures PhaseOk(s', t)
    {
      if t !in ClaimedTickets(s.store, c.batchSize, c.lease) {
        PhaseStays(s, s', t);
      }
    }
  }

  lemma SyncPhases(c: Settings, s: System, a: Action)
    requires Inv(c, s) && Enabled(s, a)
    requires a.BeginSync? || a.EndSync? || a.Drop?
    ensures var s' := Step(c, s, a); forall t :: t in s'.held ==> PhaseOk(s', t)
  {
    var s' := Step(c, s, a);
    forall t | t in s'.held
      ensures PhaseOk(s', t)
    {
      if s'.held[t] == s.held[t] {
        PhaseStays(s, s', t);
      } else {
        assert TicketOk(s, t) && PhaseOk(s, t);
        if a.EndSync? && a.outcome.None? {
          assert SyncRecord(t.slug, s.held[t].begunAt, s.store.now) in s'.syncs;
        }
      }
    }
  }

  lemma SyncKeepsInv(c: Settings, s: System, a: Action)
    requires Inv(c, s) && Enabled(s, a)
    requires a.BeginSync? || a.EndSync? || a.Drop?
    ensures Inv(c, Step(c, s, a))
  {
    var s' := Step(c, s, a);
    SyncPhases(c, s, a);
    NothingLostFrame(s, s');
    assert s'.store == s.store && s'.accepted == s.accepted && s'.issued == s.issued && s'.held.Keys <= s.held.Keys;
    forall i | i in s'.store.rows
      ensures RowOk(c, s', i)
    {
      assert RowOk(c, s, i);
    }
    forall t | t in s'.issued
      ensures TicketOk(s', t)
    {
      assert TicketOk(s, t);
    }
    forall t | t in s'.held
      ensures LeaseOk(c, s', t)
    {
      assert LeaseOk(c, s, t);
    }
  }

  predicate IsQuiet(a: Action) {
    a.Report? || a.Purge? || a.Tick?
  }

  /** Reports, purges and time: everything but the fate of the events. */
  lemma QuietKeepsRest(c: Settings, s: System, a: Action)
    requires Inv(c, s) && Enabled(s, a) && IsQuiet(a)
    ensures var s' := Step(c, s, a);
            TableOk(c, s') && TicketsOk(s') && LeasesOk(c, s') && forall t :: t in s'.held ==> PhaseOk(s', t)
  {
    QuietTable(c, s, a);
    QuietTickets(c, s, a);
    QuietLeases(c, s, a);
    QuietPhases(c, s, a);
  }

  lemma QuietRow(c: Settings, s: System, a: Action, i: nat)
    requires TableOk(c, s) && Enabled(s, a) && IsQuiet(a) && i in Step(c, s, a).store.rows
    ensures i in s.store.rows && s.store.rows[i].key == Step(c, s, a).store.rows[i].key
    ensures RowOk(c, Step(c, s, a), i)
  {
    assert RowOk(c, s, i);
  }

  lemma QuietTable(c: Settings, s: System, a: Action)
    requires TableOk(c, s) && Enabled(s, a) && IsQuiet(a)
    ensures TableOk(c, Step(c, s, a))
  {
    var s' := Step(c, s, a);
    forall i | i in s'.store.rows
      ensures RowOk(c, s', i) && i in s.store.rows && s.store.rows[i].key == s'.store.rows[i].key
    {
      QuietRow(c, s, a, i);
    }
  }

  lemma QuietTickets(c: Settings, s: System, a: Action)
    requires TicketsOk(s) && Enabled(s, a) && IsQuiet(a)
    ensures TicketsOk(Step(c, s, a))
  {
    var s' := Step(c, s, a);
    forall t | t in s'.issued
      ensures TicketOk(s', t)
    {
      assert TicketOk(s, t);
    }
  }

  lemma QuietLease(c: Settings, s: System, a: Action, u: Ticket)
    requires TicketsOk(s) && LeasesOk(c, s) && Enabled(s, a) && IsQuiet(a) && u in Step(c, s, a).held
    ensures LeaseOk(c, Step(c, s, a), u)
  {
    assert LeaseOk(c, s, u);
    if a.Report? && u.id == a.ticket.id {
      assert u.attempts != a.ticket.attempts;
    }
  }

  lemma QuietLeases(c: Settings, s: System, a: Action)
    requires TicketsOk(s) && LeasesOk(c, s) && Enabled(s, a) && IsQuiet(a)
    ensures LeasesOk(c, Step(c, s, a))
  {
    forall u | u in Step(c, s, a).held
      ensures LeaseOk(c, Step(c, s, a), u)
    {
      QuietLease(c, s, a, u);
    }
    assert Step(c, s, a).held.Keys <= s.held.Keys;
  }

  lemma QuietPhases(c: Settings, s: System, a: Action)
    requires Inv(c, s) && Enabled(s, a) && IsQuiet(a)
    ensures var s' := Step(c, s, a); forall t :: t in s'.held ==> PhaseOk(s', t)
  {
    var s' := Step(c, s, a);
    forall t | t in s'.held
      ensures PhaseOk(s', t)
    {
      PhaseStays(s, s', t);
    }
  }

  /** A completion is covered by its own sync: it began after everything it covers arrived. */
  lemma CompletionHasWitness(c: Settings, s: System, t: Ticket, id: nat)
    requires Inv(c, s) && t in s.held && s.held[t].Synced?
    requires id in s.accepted && CoveredBy(s.store, id, t)
    ensures HasWitness(s, s.accepted[id].slug, s.accepted[id].receivedAt)
  {
    assert PhaseOk(s, t) && TicketOk(s, t) && RowOk(c, s, id);
    var w :| w in s.syncs && w.slug == t.slug && s.held[t].begunAt <= w.begunAt <= w.endedAt <= s.store.now;
    assert w.slug == s.accepted[id].slug && s.accepted[id].receivedAt <= w.begunAt;
  }

  lemma ReportLosesNothing(c: Settings, s: System, t: Ticket)
    requires Inv(c, s) && t in s.held && (s.held[t].Synced? || s.held[t].SyncFailed?)
    ensures NothingLost(ReportStep(c, s, t))
  {
    var s' := ReportStep(c, s, t);
    forall id | id in s'.accepted && !IsPending(s'.store, id)
      ensures HasWitness(s', s'.accepted[id].slug, s'.accepted[id].receivedAt)
    {
      if IsPending(s.store, id) {
        CompletionHasWitness(c, s, t, id);
      }
      WitnessStays(s, s', s.accepted[id].slug, s.accepted[id].receivedAt);
    }
  }

  lemma StepKeepsInv(c: Settings, s: System, a: Action)
    requires Inv(c, s)
    ensures Inv(c, Step(c, s, a))
  {
    if Enabled(s, a) {
      match a
      case Enqueue(key, slug, eventType) => EnqueueKeepsInv(c, s, key, slug, eventType);
      case Claim => ClaimKeepsInv(c, s);
      case BeginSync(_) => SyncKeepsInv(c, s, a);
      case EndSync(_, _) => SyncKeepsInv(c, s, a);
      case Drop(_) => SyncKeepsInv(c, s, a);
      case Report(t) =>
        QuietKeepsRest(c, s, a);
        ReportLosesNothing(c, s, t);
      case Purge(_) =>
        QuietKeepsRest(c, s, a);
        NothingLostFrame(s, Step(c, s, a));
      case Tick(_) =>
        QuietKeepsRest(c, s, a);
        NothingLostFrame(s, Step(c, s, a));
    }
  }

  lemma {:induction false} RunKeepsInv(c: Settings, s: System, actions: seq<Action>)
    requires Inv(c, s)
    ensures Inv(c, Run(c, s, actions))
    decreases |actions|
  {
    if actions != [] {
      StepKeepsInv(c, s, actions[0]);
      RunKeepsInv(c, Step(c, s, actions[0]), actions[1..]);
    }
  }
}
