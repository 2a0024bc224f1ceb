/**
 The webhook queue in its own imperative form: the table updated in place by the
 repository's statements, and the service that drives them. Every method is tied to the
 step functions of WebhookStore, about which the theorems are proved.
 */
module WebhookService {
  import opened Sets
  import opened Wrappers
  import opened WebhookStore
  import P = WebhookProtocol
  import Backoff

  class WebhookRepository {
    var rows: map<nat, Row>
    var nextId: nat
    var now: int

    constructor (now: int)
      ensures Contents() == Store(map[], 0, now)
    {
      this.rows := map[];
      this.nextId := 0;
      this.now := now;
    }

    function Contents(): Store
      reads this
    {
      Store(rows, nextId, now)
    }

    method Enqueue(key: string, slug: string, eventType: string, lease: int) returns (ticket: Option<Ticket>)
      modifies this
      ensures (Contents(), ticket) == WebhookStore.Enqueue(old(Contents()), key, slug, eventType, lease)
    {
      var id := nextId;
      nextId := nextId + 1;
      if exists i :: i in rows && rows[i].key == key {
        return None;
      }
      rows := rows[id := Row(key, slug, eventType, Pending, 1, now + lease, now, None, None, now)];
      ticket := Some(Ticket(id, slug, 1, now));
    }

    /** The first of `ids` by ORDER BY next_attempt_at, id. */
    method FirstInOrder(ids: set<nat>) returns (first: nat)
      requires ids != {} && ids <= rows.Keys
      ensures first in ids && forall i :: i in ids && i != first ==> Before(rows, first, i)
    {
      first :| first in ids;
      var rest := ids - {first};
      while rest != {}
        invariant rest <= ids && first in ids - rest
        invariant forall i :: i in ids - rest && i != first ==> Before(rows, first, i)
        decreases rest
      {
        var x :| x in rest;
        ghost var f := first;
        if rows[x].nextAttemptAt < rows[first].nextAttemptAt
          || (rows[x].nextAttemptAt == rows[first].nextAttemptAt && x < first)
        {
          first := x;
        }
        rest := rest - {x};
        forall i | i in ids - rest && i != first
          ensures Before(rows, first, i)
        {
          assert i == x || i == f || Before(rows, f, i);
        }
      }
    }

    /** SELECT id ... ORDER BY next_attempt_at, id LIMIT limit. */
    method PickDue(limit: nat) returns (picked: seq<nat>)
      ensures forall i :: i in picked <==> i in FirstDue(Contents(), limit)
      ensures forall i, j :: 0 <= i < j < |picked| ==> picked[i] != picked[j]
    {
      var due := set i | i in rows && rows[i].status == Pending && rows[i].nextAttemptAt <= now;
      picked := [];
      ghost var s := Contents();
      assert due == Due(s);
      while |picked| < limit && due != {}
        invariant |picked| <= limit
        invariant forall i, j :: 0 <= i < j < |picked| ==> picked[i] != picked[j]
        invariant forall i :: i in picked <==> i in FirstDue(s, |picked|)
        invariant due == Due(s) - FirstDue(s, |picked|)
        decreases due
      {
        var first := FirstInOrder(due);
        NextOfOrder(s, |picked|, first);
        assert first !in picked;
        picked := picked + [first];
        due := due - {first};
      }
      if due == {} {
        AllDueTaken(s, |picked|, limit);
      }
    }

    /** RETURNING the claimed rows. */
    method TicketsOf(picked: seq<nat>) returns (tickets: seq<Ticket>)
      requires forall i :: i in picked ==> i in rows
      ensures |tickets| == |picked|
      ensures forall k :: 0 <= k < |picked| ==> tickets[k] == TicketFor(Contents(), picked[k])
    {
      tickets := [];
      for k := 0 to |picked|
        invariant |tickets| == k
        invariant forall j :: 0 <= j < k ==> tickets[j] == TicketFor(Contents(), picked[j])
      {
        var row := rows[picked[k]];
        tickets := tickets + [Ticket(picked[k], row.slug, row.attempts, now)];
      }
    }

    method ClaimDue(limit: nat, lease: int) returns (tickets: seq<Ticket>)
      modifies this
      ensures Contents() == WebhookStore.ClaimDue(old(Contents()), limit, lease)
      ensures (set t | t in tickets) == ClaimedTickets(old(Contents()), limit, lease)
      ensures forall i, j :: 0 <= i < j < |tickets| ==> tickets[i].id != tickets[j].id
    {
      ghost var s := Contents();
      var picked := PickDue(limit);
      rows := map id | id in rows ::
        if id in picked
        then rows[id].(attempts := rows[id].attempts + 1, nextAttemptAt := now + lease, updatedAt := now)
        else rows[id];
      assert Contents() == WebhookStore.ClaimDue(s, limit, lease);
      tickets := TicketsOf(picked);
      TicketsOfPicked(s, Contents(), limit, lease, picked, tickets);
    }

    method Complete(ticket: Ticket) returns (count: nat)
      modifies this
      ensures Contents() == WebhookStore.Complete(old(Contents()), ticket)
      ensures forall id :: id in rows <==> id in old(rows)
      ensures forall id :: id in rows && (id == ticket.id
                             || (old(rows)[id].slug == ticket.slug && old(rows)[id].receivedAt <= ticket.claimedAt))
                           ==> rows[id].status == Completed
      ensures count == |set id | id in old(rows) && old(rows)[id].status == Pending
                                 && (id == ticket.id || (old(rows)[id].slug == ticket.slug
                                                         && old(rows)[id].receivedAt <= ticket.claimedAt))|
    {
      var covered := set id | id in rows && rows[id].status == Pending
        && (id == ticket.id || (rows[id].slug == ticket.slug && rows[id].receivedAt <= ticket.claimedAt));
      rows := map id | id in rows ::
        if id in covered
        then rows[id].(status := Completed, processedAt := Some(now), lastError := None, updatedAt := now)
        else rows[id];
      assert covered == set id | id in old(rows) && old(rows)[id].status == Pending
        && (id == ticket.id || (old(rows)[id].slug == ticket.slug && old(rows)[id].receivedAt <= ticket.claimedAt));
      count := |covered|;
    }

    method Fail(ticket: Ticket, msg: string, retryIn: int)
      modifies this
      ensures Contents() == WebhookStore.Fail(old(Contents()), ticket, msg, retryIn)
    {
      var message := msg;
      if Size(message) > MAX_ERROR_LENGTH {
        message := Cut(message, MAX_ERROR_LENGTH);
      }
      var id := ticket.id;
      if id in rows && rows[id].status == Pending && rows[id].attempts == ticket.attempts {
        rows := rows[id := rows[id].(lastError := Some(message), nextAttemptAt := now + retryIn, updatedAt := now)];
      }
    }

    method DeleteCompletedBefore(before: int) returns (count: nat)
      modifies this
      ensures Contents() == WebhookStore.DeleteCompletedBefore(old(Contents()), before)
      ensures count == |set id | id in old(rows) && IsExpired(old(Contents()), id, before)|
    {
      var expired := set id | id in rows && rows[id].status == Completed && rows[id].processedAt.Some?
                              && rows[id].processedAt.value < before;
      assert expired == set id | id in rows && IsExpired(Contents(), id, before);
      rows := map id | id in rows && id !in expired :: rows[id];
      count := |expired|;
    }

    /** Time passes on the database clock. */
    method Wait(elapsed: nat)
      modifies this`now
      ensures now == old(now) + elapsed
    {
      now := now + elapsed;
    }
  }

  // ---- The claim's selection loop ----

  /** The first row left after the first k is the (k+1)-th. */
  lemma NextOfOrder(s: Store, k: nat, first: nat)
    requires first in Due(s) - FirstDue(s, k)
    requires forall i :: i in Due(s) - FirstDue(s, k) && i != first ==> Before(s.rows, first, i)
    ensures FirstDue(s, k + 1) == FirstDue(s, k) + {first}
  {
    var taken := FirstDue(s, k);
    forall i | i in Ahead(s, first)
      ensures i in taken
    {
      assert i in Due(s) && Before(s.rows, i, first);
      assert !Before(s.rows, first, i);
    }
    forall i | i in taken
      ensures i in Ahead(s, first)
    {
      if Before(s.rows, first, i) {
        ClaimTakesAPrefix(s, k, first, i);
      }
    }
    assert Ahead(s, first) == taken;
    ClaimSize(s, k);
    SubsetSize(taken, Due(s));
    assert taken != Due(s);
    assert |taken| == k;
    forall i | i in Due(s) - taken && i != first
      ensures |Ahead(s, i)| >= k + 1
    {
      assert Ahead(s, first) + {first} <= Ahead(s, i);
      assert |Ahead(s, first)| >= k;
      SubsetSize(Ahead(s, first) + {first}, Ahead(s, i));
    }
  }

  lemma AllDueTaken(s: Store, k: nat, limit: nat)
    requires k <= limit && Due(s) - FirstDue(s, k) == {}
    ensures FirstDue(s, k) == FirstDue(s, limit)
  {
    assert Due(s) == (Due(s) - FirstDue(s, k)) + FirstDue(s, k);
  }

  lemma TicketsOfPicked(s: Store, s': Store, limit: nat, lease: int, picked: seq<nat>, tickets: seq<Ticket>)
    requires s' == ClaimDue(s, limit, lease)
    requires forall i :: i in picked <==> i in FirstDue(s, limit)
    requires forall i, j :: 0 <= i < j < |picked| ==> picked[i] != picked[j]
    requires |tickets| == |picked|
    requires forall k :: 0 <= k < |picked| ==> picked[k] in s'.rows && tickets[k] == TicketFor(s', picked[k])
    ensures (set t | t in tickets) == ClaimedTickets(s, limit, lease)
    ensures forall i, j :: 0 <= i < j < |tickets| ==> tickets[i].id != tickets[j].id
  {
    forall t | t in ClaimedTickets(s, limit, lease)
      ensures t in tickets
    {
      var id :| id in FirstDue(s, limit) && t == TicketFor(s', id);
      var k :| 0 <= k < |picked| && picked[k] == id;
      assert tickets[k] == t;
    }
  }

  // ---- The service ----

  /** How an attempt ends: the sync's error if any, how long it took, and whether the store takes the result. */
  datatype Ending = Ending(error: Option<string>, took: nat, written: bool)

  datatype ProcessError = SyncFailed(msg: string) | NotWritten

  /** What one attempt does to the table. */
  function Reported(c: P.Config, s: Store, t: Ticket, e: Ending): Store {
    var later := s.(now := s.now + e.took);
    if !e.written then later
    else match e.error
      case None => Complete(later, t)
      case Some(error) => Fail(later, t, error, P.RetryDelay(c, t.attempts))
  }

  function AllReported(c: P.Config, s: Store, tickets: seq<Ticket>, sync: Ticket -> Ending): Store
    decreases |tickets|
  {
    if tickets == [] then s
    else AllReported(c, Reported(c, s, tickets[0], sync(tickets[0])), tickets[1..], sync)
  }

  /** The clock stands at the end of the sync, and what is written is timed by it. */
  lemma ReportedWrites(c: P.Config, s: Store, t: Ticket, e: Ending, id: nat)
    requires id in s.rows
    ensures var s', row, end := Reported(c, s, t, e), s.rows[id], s.now + e.took;
            && s'.now == end && s'.rows.Keys == s.rows.Keys
            && (s'.rows[id] != row ==> e.written && row.status == Pending)
            && (e.written && row.status == Pending && e.error.None?
                && (id == t.id || (row.slug == t.slug && row.receivedAt <= t.claimedAt)) ==>
                  s'.rows[id].status == Completed && s'.rows[id].processedAt == Some(end))
            && (e.written && row.status == Pending && e.error.Some? && id == t.id && row.attempts == t.attempts ==>
                  && s'.rows[id].status == Pending && s'.rows[id].attempts == t.attempts
                  && s'.rows[id].nextAttemptAt == end + P.RetryDelay(c, t.attempts))
            && (e.error.Some? && id != t.id ==> s'.rows[id] == row)
            && (e.error.None? && id != t.id && row.slug != t.slug ==> s'.rows[id] == row)
  {
  }

  /** Two minutes, 90 s, 30 s, one hour, 20 events, one week; durations in nanoseconds. */
  const DEFAULT_CONFIG: P.Config :=
    P.Config(120_000_000_000, 90_000_000_000, 30_000_000_000, 3_600_000_000_000, 20, 604_800_000_000_000)

  class WebhookService {
    const cfg: P.Config
    const store: WebhookRepository

    /** Each setting that is invalid is replaced, each valid one is kept. */
    constructor (store: WebhookRepository, config: P.Config)
      ensures this.store == store
      ensures P.IsNormalized(cfg)
      ensures cfg.lease == if config.lease > 0 then config.lease else 120_000_000_000
      ensures 0 < config.processTimeout < cfg.lease ==> cfg.processTimeout == config.processTimeout
      ensures !(0 < config.processTimeout < cfg.lease) ==>
                4 * cfg.processTimeout <= 3 * cfg.lease < 4 * (cfg.processTimeout + 1)
      ensures cfg.retryBaseDelay == if config.retryBaseDelay > 0 then config.retryBaseDelay else 30_000_000_000
      ensures config.retryMaxDelay >= cfg.retryBaseDelay ==> cfg.retryMaxDelay == config.retryMaxDelay
      ensures config.retryMaxDelay < cfg.retryBaseDelay ==> cfg.retryMaxDelay == cfg.retryBaseDelay
      ensures cfg.batchSize == if config.batchSize > 0 then config.batchSize else 20
      ensures cfg.retention == if config.retention > 0 then config.retention else 604_800_000_000_000
      ensures P.IsNormalized(config) && config.processTimeout > 0 ==> cfg == config
      ensures cfg.processTimeout == 0 ==> cfg.lease == 1
    {
      var c := config;
      if c.lease <= 0 {
        c := c.(lease := DEFAULT_CONFIG.lease);
      }
      if c.processTimeout <= 0 || c.processTimeout >= c.lease {
        c := c.(processTimeout := c.lease * 3 / 4);
      }
      if c.retryBaseDelay <= 0 {
        c := c.(retryBaseDelay := DEFAULT_CONFIG.retryBaseDelay);
      }
      if c.retryMaxDelay < c.retryBaseDelay {
        c := c.(retryMaxDelay := c.retryBaseDelay);
      }
      if c.batchSize <= 0 {
        c := c.(batchSize := DEFAULT_CONFIG.batchSize);
      }
      if c.retention <= 0 {
        c := c.(retention := DEFAULT_CONFIG.retention);
      }
      this.store := store;
      this.cfg := c;
    }

    /** One attempt. The sync's own error is returned, even when the store refuses to record it. */
    method Process(ticket: Ticket, ending: Ending) returns (error: Option<ProcessError>)
      modifies store
      ensures store.Contents() == Reported(cfg, old(store.Contents()), ticket, ending)
      ensures error == None <==> ending.error.None? && ending.written
      ensures ending.error.Some? ==> error == Some(SyncFailed(ending.error.value))
    {
      store.Wait(ending.took);
      if ending.error.Some? {
        var retryIn := Backoff.RetryDelay(cfg.retryBaseDelay, cfg.retryMaxDelay, ticket.attempts);
        if ending.written {
          store.Fail(ticket, ending.error.value, retryIn);
        }
        return Some(SyncFailed(ending.error.value));
      }
      if !ending.written {
        return Some(NotWritten);
      }
      var _ := store.Complete(ticket);
      return None;
    }

    /**
     One pass: claim a batch, then process its events in turn, until `alive` of them are
     done (the context may be cancelled in between). A claim that fails takes nothing.
     */
    method ProcessDue(claims: bool, sync: Ticket -> Ending, alive: nat) returns (events: seq<Ticket>, ok: bool)
      requires cfg.batchSize > 0
      modifies store
      ensures ok == claims
      ensures !ok ==> events == [] && store.Contents() == old(store.Contents())
      ensures ok ==> (set t | t in events) == ClaimedTickets(old(store.Contents()), cfg.batchSize, cfg.lease)
      ensures forall i, j :: 0 <= i < j < |events| ==> events[i].id != events[j].id
      ensures ok ==> (store.Contents() ==
                        AllReported(cfg, ClaimDue(old(store.Contents()), cfg.batchSize, cfg.lease),
                                    events[..if alive < |events| then alive else |events|], sync))
    {
      if !claims {
        return [], false;
      }
      events := store.ClaimDue(cfg.batchSize, cfg.lease);
      ok := true;
      var done := 0;
      ghost var processed := if alive < |events| then alive else |events|;
      while done < |events|
        invariant done <= processed
        invariant AllReported(cfg, store.Contents(), events[done..processed], sync)
               == AllReported(cfg, ClaimDue(old(store.Contents()), cfg.batchSize, cfg.lease), events[..processed], sync)
      {
        if done >= alive {
          break;
        }
        assert events[done..processed][1..] == events[done + 1..processed];
        var _ := Process(events[done], sync(events[done]));
        done := done + 1;
      }
    }
  }

  /** The tickets of one pass as the claim leaves them. */
  predicate Owned(c: P.Config, s: Store, t: Ticket) {
    && OwnedBy(s, t) && s.rows[t.id].slug == t.slug && s.rows[t.id].receivedAt <= t.claimedAt
    && s.rows[t.id].nextAttemptAt == t.claimedAt + c.lease
  }

  /** When the sync of the k-th ticket of a pass ends. */
  function EndOf(now: int, tickets: seq<Ticket>, sync: Ticket -> Ending, k: nat): int
    requires k < |tickets|
    decreases k
  {
    if k == 0 then now + sync(tickets[0]).took else EndOf(now + sync(tickets[0]).took, tickets[1..], sync, k - 1)
  }

  /**
   What a ticket's row may be once some of its batch has been reported: completed; or, after a failure that was
   recorded, pending with its error and due after the wait of its attempt, counted from the end of its sync; or,
   with no result recorded, pending until its lease ends.
   */
  predicate Settled(c: P.Config, s: Store, t: Ticket, e: Ending, end: int) {
    t.id in s.rows &&
    (s.rows[t.id].status == Completed ||
     (s.rows[t.id].status == Pending && s.rows[t.id].attempts == t.attempts &&
      if !e.written then s.rows[t.id].nextAttemptAt == t.claimedAt + c.lease
      else e.error.Some?
           && s.rows[t.id].lastError == Some(Truncated(e.error.value))
           && s.rows[t.id].updatedAt == end
           && s.rows[t.id].nextAttemptAt == end + P.RetryDelay(c, t.attempts)))
  }

  lemma {:induction false} SettledStays(
    c: P.Config, s: Store, t: Ticket, rest: seq<Ticket>, sync: Ticket -> Ending, end: int)
    requires Settled(c, s, t, sync(t), end) && forall u :: u in rest ==> u.id != t.id
    ensures Settled(c, AllReported(c, s, rest, sync), t, sync(t), end)
    decreases |rest|
  {
    if rest != [] {
      assert rest[0].id != t.id;
      SettledStays(c, Reported(c, s, rest[0], sync(rest[0])), t, rest[1..], sync, end);
    }
  }

  lemma OthersStayOwned(c: P.Config, s: Store, t: Ticket, e: Ending, u: Ticket)
    requires u.id in s.rows && (Owned(c, s, u) || s.rows[u.id].status == Completed) && u.id != t.id
    ensures var s' := Reported(c, s, t, e);
            u.id in s'.rows && (Owned(c, s', u) || s'.rows[u.id].status == Completed)
  {
  }

  lemma FirstIsSettled(c: P.Config, s: Store, t: Ticket, e: Ending)
    requires t.id in s.rows && (Owned(c, s, t) || s.rows[t.id].status == Completed)
    ensures Settled(c, Reported(c, s, t, e), t, e, s.now + e.took) && Reported(c, s, t, e).now == s.now + e.took
  {
  }

  /**
   A full pass settles every event it claimed, however long each sync takes and whichever results
   the store refuses.
   */
  lemma {:induction false} PassSettlesEvents(
    c: P.Config, s: Store, tickets: seq<Ticket>, sync: Ticket -> Ending, k: nat)
    requires k < |tickets|
    requires forall i, j :: 0 <= i < j < |tickets| ==> tickets[i].id != tickets[j].id
    requires forall u :: u in tickets ==> u.id in s.rows && (Owned(c, s, u) || s.rows[u.id].status == Completed)
    ensures Settled(c, AllReported(c, s, tickets, sync), tickets[k], sync(tickets[k]), EndOf(s.now, tickets, sync, k))
    decreases |tickets|
  {
    var s1 := Reported(c, s, tickets[0], sync(tickets[0]));
    forall u | u in tickets[1..]
      ensures u.id in s1.rows && (Owned(c, s1, u) || s1.rows[u.id].status == Completed) && u.id != tickets[0].id
    {
      assert u in tickets;
      OthersStayOwned(c, s, tickets[0], sync(tickets[0]), u);
    }
    FirstIsSettled(c, s, tickets[0], sync(tickets[0]));
    if k == 0 {
      SettledStays(c, s1, tickets[0], tickets[1..], sync, s1.now);
    } else {
      PassSettlesEvents(c, s1, tickets[1..], sync, k - 1);
    }
  }

  /** What a pass completes, it completes by a recorded success that covers it. */
  lemma {:induction false} PassCompletesBySuccess(
    c: P.Config, s: Store, tickets: seq<Ticket>, sync: Ticket -> Ending, id: nat)
    requires IsPending(s, id) && !IsPending(AllReported(c, s, tickets, sync), id)
    ensures exists u :: u in tickets && sync(u).error.None? && sync(u).written && CoveredBy(s, id, u)
    decreases |tickets|
  {
    if tickets != [] {
      var s1 := Reported(c, s, tickets[0], sync(tickets[0]));
      if IsPending(s1, id) {
        PassCompletesBySuccess(c, s1, tickets[1..], sync, id);
        var u :| u in tickets[1..] && sync(u).error.None? && sync(u).written && CoveredBy(s1, id, u);
        assert u in tickets && CoveredBy(s, id, u);
      } else {
        assert tickets[0] in tickets && CoveredBy(s, id, tickets[0]);
      }
    }
  }

  /** The claim hands out tickets in the state `PassSettlesEvents` starts from. */
  lemma ClaimedAreOwned(c: P.Settings, s: P.System, t: Ticket)
    requires P.Inv(c, s) && t in ClaimedTickets(s.store, c.batchSize, c.lease)
    ensures Owned(c, ClaimDue(s.store, c.batchSize, c.lease), t)
  {
    assert P.RowOk(c, s, t.id);
  }
}
