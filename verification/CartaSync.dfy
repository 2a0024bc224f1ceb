/**
 One run of the Carta synchronisation: list, fetch the details that changed, map and
 upsert them in one transaction, soft-delete what is no longer listed, move the cursor.
 */
module CartaSync {
  import opened Wrappers
  import opened Strings

  /** The article status after classification. */
  datatype Status = Active | Draft | Inactive

  /** A service as the API returns it; `body` stands for every field the mapping copies. */
  datatype Detail = Detail(slug: string, name: string, status: Status, body: string)

  /** A listing entry; `modified` is the later of its two dates, None when it has neither. */
  datatype ListItem = ListItem(slug: string, modified: Option<int>)

  /** What version of the mapping made of a detail. */
  datatype Content = Mapped(version: nat, detail: Detail)

  datatype Row = Row(content: Content, status: Status, deleted: bool)

  type Table = map<string, Row>

  /** The API at one moment: its listing, and the detail each slug leads to, through its redirects. */
  datatype Source = Source(listed: seq<ListItem>, get: map<string, Detail>)

  // ---- The pieces of a run ----

  /** No mapping without a slug and a name. */
  predicate IsMappable(d: Detail) {
    d.slug != "" && d.name != ""
  }

  function RowOf(version: nat, d: Detail): Row {
    Row(Mapped(version, d), d.status, false)
  }

  /** UpsertBatch over the mappable details, in order. */
  function UpsertAll(t: Table, version: nat, details: seq<Detail>): Table
    decreases |details|
  {
    if details == [] then t
    else
      var d := details[0];
      UpsertAll(if IsMappable(d) then t[d.slug := RowOf(version, d)] else t, version, details[1..])
  }

  predicate IsVisible(t: Table, slug: string) {
    slug in t && !t[slug].deleted && t[slug].status == Active
  }

  function SoftDeleteActiveNotIn(t: Table, keep: set<string>): Table {
    map slug | slug in t :: if IsVisible(t, slug) && slug !in keep
                            then t[slug].(deleted := true, status := Inactive) else t[slug]
  }

  predicate NeedsDetail(x: ListItem, since: Option<int>) {
    since.None? || x.modified.None? || x.modified.value > since.value
  }

  function ToFetch(listed: seq<ListItem>, since: Option<int>): seq<ListItem> {
    if listed == [] then []
    else (if NeedsDetail(listed[0], since) then [listed[0]] else []) + ToFetch(listed[1..], since)
  }

  /** How the fetch of a slug ends when the slugs in `failing` fail. */
  function Fetch(src: Source, failing: set<string>, slug: string): Option<Detail> {
    if slug in failing || slug !in src.get then None else Some(src.get[slug])
  }

  /** The details fetched, in the order `order` in which the fetches finish. */
  function Details(src: Source, failing: set<string>, order: seq<ListItem>): seq<Detail> {
    if order == [] then []
    else
      (match Fetch(src, failing, order[0].slug) case Some(d) => [d] case None => [])
      + Details(src, failing, order[1..])
  }

  /** Listed slug -> canonical slug, for the fetches that were redirected. */
  function Redirects(src: Source, failing: set<string>, slugs: set<string>): map<string, string> {
    map x | x in slugs && Fetch(src, failing, x).Some?
            && Fetch(src, failing, x).value.slug != x && Fetch(src, failing, x).value.slug != ""
         :: Fetch(src, failing, x).value.slug
  }

  function Slugs(items: seq<ListItem>): set<string> {
    set x | x in items :: x.slug
  }

  /** The external id kept for a listed slug. */
  function Resolved(redirects: map<string, string>, slug: string): string {
    if slug in redirects && Trim(redirects[slug]) != "" then Trim(redirects[slug]) else slug
  }

  function Keep(listed: seq<ListItem>, redirects: map<string, string>): set<string> {
    set x | x in listed && x.slug != "" :: Resolved(redirects, x.slug)
  }

  // ---- What a listing and a source satisfy ----

  /** The listing as `listAndPersistHierarchy` leaves it: no blank slug, no slug twice. */
  predicate IsListing(listed: seq<ListItem>) {
    && (forall x :: x in listed ==> x.slug != "")
    && (forall i, j :: 0 <= i < j < |listed| ==> listed[i].slug != listed[j].slug)
  }

  /** While the source stands still, a service has one detail, whichever slug leads to it, and never a blank slug. */
  predicate IsCoherent(src: Source) {
    && (forall a :: a in src.get ==> src.get[a].slug != "")
    && (forall a, b :: a in src.get && b in src.get && src.get[a].slug == src.get[b].slug ==> src.get[a] == src.get[b])
  }

  /** An order in which the fetches of `items` finish: each of them once. */
  predicate IsScheduleOf(order: seq<ListItem>, items: seq<ListItem>) {
    && (forall i, j :: 0 <= i < j < |order| ==> order[i] != order[j])
    && (forall x :: x in order ==> x in items)
    && (forall x :: x in items ==> x in order)
  }

  // ---- A run ----

  datatype Cursor = Cursor(at: int, version: nat)

  datatype Db = Db(table: Table, cursor: Option<Cursor>)

  /** What goes wrong in a run. `upsert` is how many items went in before the batch failed. */
  datatype Faults = Faults(
    listing: bool,
    failing: set<string>,
    upsert: Option<nat>,
    softDelete: bool,
    cursorWrite: bool)

  datatype Outcome = Completed | Failed

  datatype Result = Result(db: Db, outcome: Outcome, processed: nat, failed: nat)

  function Mappable(details: seq<Detail>): seq<Detail> {
    if details == [] then []
    else (if IsMappable(details[0]) then [details[0]] else []) + Mappable(details[1..])
  }

  /** Every fetch was tried and none came back. */
  predicate NothingFetched(src: Source, failing: set<string>, order: seq<ListItem>) {
    order != [] && Details(src, failing, order) == []
  }

  /** The catalog after a run that reaches the end. */
  function SyncedTable(
    src: Source, t: Table, version: nat, failing: set<string>, order: seq<ListItem>, softDelete: bool): Table
  {
    var upserted := UpsertAll(t, version, Details(src, failing, order));
    var keep := Keep(src.listed, Redirects(src, failing, Slugs(order)));
    if keep == {} || !softDelete then upserted else SoftDeleteActiveNotIn(upserted, keep)
  }

  function AtMost(a: nat, b: nat): nat {
    if a <= b then a else b
  }

  /** `runSync`; `now` is the time its cursor is stamped with, `order` a schedule of the fetches. */
  function RunSync(src: Source, db: Db, version: nat, now: int, faults: Faults, order: seq<ListItem>): Result {
    if faults.listing then Result(db, Failed, 0, 0) else
    var details := Details(src, faults.failing, order);
    var fetchFailed := if |details| <= |order| then |order| - |details| else 0;
    if fetchFailed > 0 && details == [] then Result(db, Failed, 0, fetchFailed) else
    var items := Mappable(details);
    var mappingFailed := if |items| <= |details| then |details| - |items| else 0;
    if faults.upsert.Some? && items != [] then
      var processed := AtMost(faults.upsert.value, |items|);
      Result(db, Failed, processed, fetchFailed + mappingFailed + (|items| - processed))
    else
      var keepsAny := Keep(src.listed, Redirects(src, faults.failing, Slugs(order))) != {};
      var table := SyncedTable(src, db.table, version, faults.failing, order, !faults.softDelete);
      var softFailed := keepsAny && faults.softDelete;
      if softFailed || fetchFailed > 0 then
        Result(db.(table := table), Failed, |items|, fetchFailed + mappingFailed)
      else
        Result(Db(table, if faults.cursorWrite then db.cursor else Some(Cursor(now, version))),
               Completed, |items|, fetchFailed + mappingFailed)
  }

  // ---- Facts about the pieces ----

  lemma {:induction false} ToFetchIsFilter(listed: seq<ListItem>, since: Option<int>)
    ensures forall x :: x in ToFetch(listed, since) <==> x in listed && NeedsDetail(x, since)
    ensures since.None? ==> ToFetch(listed, since) == listed
  {
    if listed != [] {
      ToFetchIsFilter(listed[1..], since);
    }
  }

  lemma {:induction false} DetailsAre(src: Source, failing: set<string>, order: seq<ListItem>)
    ensures |Details(src, failing, order)| <= |order|
    ensures forall d :: d in Details(src, failing, order) <==>
              exists x :: x in order && Fetch(src, failing, x.slug) == Some(d)
    ensures |Details(src, failing, order)| == |order| <==>
              forall x :: x in order ==> Fetch(src, failing, x.slug).Some?
  {
    if order != [] {
      DetailsAre(src, failing, order[1..]);
      var rest := Details(src, failing, order[1..]);
      forall d
        ensures d in Details(src, failing, order) <==> exists x :: x in order && Fetch(src, failing, x.slug) == Some(d)
      {
        if d in Details(src, failing, order) {
          if d in rest {
            var x :| x in order[1..] && Fetch(src, failing, x.slug) == Some(d);
            assert x in order;
          } else {
            assert Fetch(src, failing, order[0].slug) == Some(d);
          }
        }
        if x :| x in order && Fetch(src, failing, x.slug) == Some(d) {
          assert x == order[0] || x in order[1..];
        }
      }
      assert forall x :: x in order <==> x == order[0] || x in order[1..];
    }
  }

  lemma {:induction false} MappableFits(details: seq<Detail>)
    ensures |Mappable(details)| <= |details|
    ensures forall d :: d in Mappable(details) <==> d in details && IsMappable(d)
  {
    if details != [] {
      MappableFits(details[1..]);
    }
  }

  /** When a slug names one detail, the batch leaves that detail's row under it, whatever the order. */
  lemma {:induction false} UpsertAllAt(t: Table, version: nat, details: seq<Detail>, slug: string)
    requires forall d, e :: d in details && e in details && d.slug == e.slug ==> d == e
    ensures var after := UpsertAll(t, version, details);
            if exists d :: d in details && IsMappable(d) && d.slug == slug
            then slug in after
                 && forall d :: d in details && IsMappable(d) && d.slug == slug ==> after[slug] == RowOf(version, d)
            else (slug in after <==> slug in t) && (slug in t ==> after[slug] == t[slug])
    decreases |details|
  {
    if details != [] {
      var d := details[0];
      var t1 := if IsMappable(d) then t[d.slug := RowOf(version, d)] else t;
      UpsertAllAt(t1, version, details[1..], slug);
      assert forall e :: e in details <==> e == d || e in details[1..];
    }
  }

  /** The fetch of `x` puts a row under `c`. */
  predicate Writes(src: Source, failing: set<string>, x: string, c: string) {
    match Fetch(src, failing, x) case Some(d) => IsMappable(d) && d.slug == c case None => false
  }

  predicate HasWriter(src: Source, failing: set<string>, slugs: set<string>, c: string) {
    exists x :: x in slugs && Writes(src, failing, x, c)
  }

  /** What the batch leaves under one slug, said without the order of the fetches. */
  ghost predicate UpsertedAt(
    src: Source, t: Table, version: nat, failing: set<string>, slugs: set<string>, after: Table, c: string)
  {
    if HasWriter(src, failing, slugs, c)
    then c in after && forall x :: x in slugs && Writes(src, failing, x, c) ==> after[c] == RowOf(version, src.get[x])
    else (c in after <==> c in t) && (c in t ==> after[c] == t[c])
  }

  /** The details that put a row under `c` are those of its writers. */
  lemma WritersAreDetails(src: Source, failing: set<string>, order: seq<ListItem>, c: string)
    ensures forall x :: x in Slugs(order) && Writes(src, failing, x, c) ==>
              src.get[x] in Details(src, failing, order) && IsMappable(src.get[x]) && src.get[x].slug == c
    ensures (exists d :: d in Details(src, failing, order) && IsMappable(d) && d.slug == c)
       <==> HasWriter(src, failing, Slugs(order), c)
  {
    DetailsAre(src, failing, order);
    forall x | x in Slugs(order) && Writes(src, failing, x, c)
      ensures src.get[x] in Details(src, failing, order)
    {
      var item :| item in order && item.slug == x;
      assert Fetch(src, failing, item.slug) == Some(src.get[x]);
    }
    if d :| d in Details(src, failing, order) && IsMappable(d) && d.slug == c {
      var item :| item in order && Fetch(src, failing, item.slug) == Some(d);
      assert item.slug in Slugs(order) && Writes(src, failing, item.slug, c);
    }
  }

  lemma DetailsAreDistinct(src: Source, failing: set<string>, order: seq<ListItem>)
    requires IsCoherent(src)
    ensures var details := Details(src, failing, order);
            forall d, e :: d in details && e in details && d.slug == e.slug ==> d == e
  {
    DetailsAre(src, failing, order);
  }

  lemma BatchAt(src: Source, t: Table, version: nat, failing: set<string>, order: seq<ListItem>, c: string)
    requires IsCoherent(src)
    ensures UpsertedAt(src, t, version, failing, Slugs(order), UpsertAll(t, version, Details(src, failing, order)), c)
  {
    DetailsAreDistinct(src, failing, order);
    UpsertAllAt(t, version, Details(src, failing, order), c);
    WritersAreDetails(src, failing, order, c);
  }
}
