/**
 The event table of the webhook queue and its five statements, each one atomic step
 under one database clock `now`.
 */
module WebhookStore {
  import opened Sets
  import opened Wrappers

  datatype Status = Pending | Completed

  datatype Row = Row(
    key: string,
    slug: string,
    eventType: string,
    status: Status,
    attempts: nat,
    nextAttemptAt: int,
    receivedAt: int,
    processedAt: Option<int>,
    lastError: Option<string>,
    updatedAt: int)

  datatype Store = Store(rows: map<nat, Row>, nextId: nat, now: int)

  /** What a processor is handed: the event and the attempt that owns it. */
  datatype Ticket = Ticket(id: nat, slug: string, attempts: nat, claimedAt: int)

  /** In bytes. */
  const MAX_ERROR_LENGTH: nat := 1000

  /** The bytes of a character in UTF-8. */
  function Width(c: char): nat {
    if c < '\U{80}' then 1 else if c < '\U{800}' then 2 else if c < '\U{10000}' then 3 else 4
  }

  function Size(s: string): nat {
    if s == "" then 0 else Width(s[0]) + Size(s[1..])
  }

  /** The first `limit` bytes without the character they cut through. */
  function Cut(s: string, limit: nat): string {
    if s == "" || Width(s[0]) > limit then "" else [s[0]] + Cut(s[1..], limit - Width(s[0]))
  }

  function Truncated(msg: string): string {
    if Size(msg) > MAX_ERROR_LENGTH then Cut(msg, MAX_ERROR_LENGTH) else msg
  }

  predicate HasKey(s: Store, key: string) {
    exists id :: id in s.rows && s.rows[id].key == key
  }

  /** INSERT ... ON CONFLICT (event_key) DO NOTHING; the id sequence advances either way. */
  function Enqueue(s: Store, key: string, slug: string, eventType: string, lease: int): (Store, Option<Ticket>) {
    if HasKey(s, key) then
      (s.(nextId := s.nextId + 1), None)
    else
      var row := Row(key, slug, eventType, Pending, 1, s.now + lease, s.now, None, None, s.now);
      (s.(rows := s.rows[s.nextId := row], nextId := s.nextId + 1),
       Some(Ticket(s.nextId, slug, 1, s.now)))
  }

  predicate IsPending(s: Store, id: nat) {
    id in s.rows && s.rows[id].status == Pending
  }

  predicate IsDue(s: Store, id: nat) {
    IsPending(s, id) && s.rows[id].nextAttemptAt <= s.now
  }

  /** ORDER BY next_attempt_at, id. */
  predicate Before(rows: map<nat, Row>, a: nat, b: nat)
    requires a in rows && b in rows
  {
    rows[a].nextAttemptAt < rows[b].nextAttemptAt
    || (rows[a].nextAttemptAt == rows[b].nextAttemptAt && a < b)
  }

  /** The pending rows that the queue order puts before `id`. */
  function Ahead(s: Store, id: nat): set<nat>
    requires id in s.rows
  {
    set i | i in s.rows && IsPending(s, i) && Before(s.rows, i, id)
  }

  function Due(s: Store): set<nat> {
    set i | i in s.rows && IsDue(s, i)
  }

  /** The first `limit` due rows of the queue order. */
  function FirstDue(s: Store, limit: nat): set<nat> {
    set i | i in s.rows && IsDue(s, i) && |Ahead(s, i)| < limit
  }

  function Leased(s: Store, row: Row, lease: int): Row {
    row.(attempts := row.attempts + 1, nextAttemptAt := s.now + lease, updatedAt := s.now)
  }

  function TicketFor(s: Store, id: nat): Ticket
    requires id in s.rows
  {
    Ticket(id, s.rows[id].slug, s.rows[id].attempts, s.now)
  }

  /** UPDATE of the first `limit` due rows. */
  function ClaimDue(s: Store, limit: nat, lease: int): Store {
    s.(rows := map id | id in s.rows ::
         if id in FirstDue(s, limit) then Leased(s, s.rows[id], lease) else s.rows[id])
  }

  function ClaimedTickets(s: Store, limit: nat, lease: int): set<Ticket> {
    set id | id in FirstDue(s, limit) :: TicketFor(ClaimDue(s, limit, lease), id)
  }

  /** The rows a completion covers: its own event and earlier ones of the same slug. */
  predicate CoveredBy(s: Store, id: nat, t: Ticket) {
    IsPending(s, id) && (id == t.id || (s.rows[id].slug == t.slug && s.rows[id].receivedAt <= t.claimedAt))
  }

  function Completing(s: Store, row: Row): Row {
    row.(status := Completed, processedAt := Some(s.now), lastError := None, updatedAt := s.now)
  }

  function Complete(s: Store, t: Ticket): Store {
    s.(rows := map id | id in s.rows :: if CoveredBy(s, id, t) then Completing(s, s.rows[id]) else s.rows[id])
  }

  /** A failure counts only for the attempt that owns the event. */
  predicate OwnedBy(s: Store, t: Ticket) {
    IsPending(s, t.id) && s.rows[t.id].attempts == t.attempts
  }

  function Fail(s: Store, t: Ticket, msg: string, retryIn: int): Store {
    if OwnedBy(s, t) then
      s.(rows := s.rows[t.id := s.rows[t.id].(
           lastError := Some(Truncated(msg)), nextAttemptAt := s.now + retryIn, updatedAt := s.now)])
    else
      s
  }

  predicate IsExpired(s: Store, id: nat, before: int) {
    id in s.rows && s.rows[id].status == Completed
    && s.rows[id].processedAt.Some? && s.rows[id].processedAt.value < before
  }

  function DeleteCompletedBefore(s: Store, before: int): Store {
    s.(rows := map id | id in s.rows && !IsExpired(s, id, before) :: s.rows[id])
  }

  // ---- The stored error ----

  /** The cut is the longest start of the message that fits. */
  lemma {:induction false} CutIsLongest(s: string, limit: nat)
    ensures Cut(s, limit) <= s && Size(Cut(s, limit)) <= limit
    ensures forall n :: |Cut(s, limit)| < n <= |s| ==> Size(s[..n]) > limit
  {
    if s != "" {
      if Width(s[0]) <= limit {
        CutIsLongest(s[1..], limit - Width(s[0]));
      }
      var cut := Cut(s, limit);
      forall n | |cut| < n <= |s|
        ensures Size(s[..n]) > limit
      {
        assert s[..n][1..] == s[1..][..n - 1];
      }
    }
  }

  /** The error kept is the longest start of the message within 1000 bytes; a message that fits is kept whole. */
  lemma TruncatedIsLongest(msg: string)
    ensures Truncated(msg) <= msg && Size(Truncated(msg)) <= 1000
    ensures forall n :: |Truncated(msg)| < n <= |msg| ==> Size(msg[..n]) > 1000
    ensures Truncated(msg) == msg <==> Size(msg) <= 1000
  {
    CutIsLongest(msg, MAX_ERROR_LENGTH);
  }

  // ---- The queue order ----

  ghost function AheadIn(rows: map<nat, Row>, ids: set<nat>, id: nat): set<nat>
    requires ids <= rows.Keys && id in rows
  {
    set i | i in ids && Before(rows, i, id)
  }

  lemma {:induction false} LastInOrder(rows: map<nat, Row>, ids: set<nat>) returns (last: nat)
    requires ids <= rows.Keys && ids != {}
    ensures last in ids && forall i :: i in ids && i != last ==> Before(rows, i, last)
    decreases |ids|
  {
    var x :| x in ids;
    var rest := ids - {x};
    if rest == {} {
      last := x;
      assert ids == {x};
    } else {
      var r := LastInOrder(rows, rest);
      last := if Before(rows, r, x) then x else r;
      forall i | i in ids && i != last
        ensures Before(rows, i, last)
      {
        assert i == x || i in rest;
      }
    }
  }

  /** Exactly k members of any set of rows have fewer than k members ahead of them. */
  lemma {:induction false} FirstKOfOrder(rows: map<nat, Row>, ids: set<nat>, k: nat)
    requires ids <= rows.Keys && k <= |ids|
    ensures |set i | i in ids && |AheadIn(rows, ids, i)| < k| == k
    decreases |ids|
  {
    var first := set i | i in ids && |AheadIn(rows, ids, i)| < k;
    if ids == {} {
      assert first == {};
    } else {
      var last := LastInOrder(rows, ids);
      var rest := ids - {last};
      assert AheadIn(rows, ids, last) == rest;
      forall i | i in rest
        ensures AheadIn(rows, ids, i) == AheadIn(rows, rest, i)
      {
        assert Before(rows, i, last);
      }
      if k == |ids| {
        FirstKOfOrder(rows, rest, k - 1);
        forall i | i in ids
          ensures |AheadIn(rows, ids, i)| < k
        {
          assert i !in AheadIn(rows, ids, i);
          assert AheadIn(rows, ids, i) <= ids - {i};
          SubsetSize(AheadIn(rows, ids, i), ids - {i});
        }
        assert first == ids;
      } else {
        FirstKOfOrder(rows, rest, k);
        assert first == set i | i in rest && |AheadIn(rows, rest, i)| < k;
      }
    }
  }

  lemma AheadOfDueIsDue(s: Store, id: nat)
    requires IsDue(s, id)
    ensures Ahead(s, id) == AheadIn(s.rows, Due(s), id)
  {
  }

  /** LIMIT is exact: a claim takes `limit` rows, or every due row when there are fewer. */
  lemma ClaimSize(s: Store, limit: nat)
    ensures |FirstDue(s, limit)| == if limit <= |Due(s)| then limit else |Due(s)|
  {
    var k := if limit <= |Due(s)| then limit else |Due(s)|;
    FirstKOfOrder(s.rows, Due(s), k);
    forall i | i in Due(s)
      ensures |Ahead(s, i)| < limit <==> |AheadIn(s.rows, Due(s), i)| < k
    {
      AheadOfDueIsDue(s, i);
      assert i !in AheadIn(s.rows, Due(s), i);
      SubsetSize(AheadIn(s.rows, Due(s), i), Due(s));
    }
    assert FirstDue(s, limit) == set i | i in Due(s) && |AheadIn(s.rows, Due(s), i)| < k;
  }

  /** A claim takes a prefix of the order: no unclaimed due row comes before a claimed one. */
  lemma ClaimTakesAPrefix(s: Store, limit: nat, a: nat, b: nat)
    requires IsDue(s, a) && b in FirstDue(s, limit) && Before(s.rows, a, b)
    ensures a in FirstDue(s, limit)
  {
    assert a in Ahead(s, b) && a !in Ahead(s, a);
    assert Ahead(s, a) <= Ahead(s, b);
    SubsetSize(Ahead(s, a), Ahead(s, b));
  }
}
