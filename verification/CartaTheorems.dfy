/**
 What a run of the Carta synchronisation leaves behind: a delta equals a full recompute,
 schedules do not matter, nothing just written is dropped, failures are safe.
 */
module CartaTheorems {
  import opened Wrappers
  import opened Strings
  import opened CartaSync

  // ---- Schedules ----

  ghost function FetchedItems(src: Source, failing: set<string>, items: set<ListItem>): set<ListItem> {
    set x | x in items && Fetch(src, failing, x.slug).Some?
  }

  ghost function MappableItems(src: Source, failing: set<string>, items: set<ListItem>): set<ListItem> {
    set x | x in items && Fetch(src, failing, x.slug).Some? && IsMappable(Fetch(src, failing, x.slug).value)
  }

  function Items(order: seq<ListItem>): set<ListItem> {
    set x | x in order
  }

  predicate HasNoRepeats(order: seq<ListItem>) {
    forall i, j :: 0 <= i < j < |order| ==> order[i] != order[j]
  }

  lemma {:induction false} LengthIsSize(order: seq<ListItem>)
    requires HasNoRepeats(order)
    ensures |order| == |Items(order)|
  {
    if order != [] {
      LengthIsSize(order[1..]);
      assert Items(order) == Items(order[1..]) + {order[0]};
    }
  }

  lemma FetchedItemsMore(src: Source, failing: set<string>, items: set<ListItem>, x: ListItem)
    requires x !in items
    ensures |FetchedItems(src, failing, items + {x})|
         == |FetchedItems(src, failing, items)| + if Fetch(src, failing, x.slug).Some? then 1 else 0
  {
    var before := FetchedItems(src, failing, items);
    assert FetchedItems(src, failing, items + {x})
        == if Fetch(src, failing, x.slug).Some? then before + {x} else before;
  }

  lemma {:induction false} FetchedCountIsSize(src: Source, failing: set<string>, order: seq<ListItem>)
    requires HasNoRepeats(order)
    ensures |Details(src, failing, order)| == |FetchedItems(src, failing, Items(order))|
  {
    if order != [] {
      ItemsSplit(order);
      FetchedCountIsSize(src, failing, order[1..]);
      FetchedItemsMore(src, failing, Items(order[1..]), order[0]);
    }
  }

  lemma MappableHead(d: Detail, rest: seq<Detail>)
    ensures Mappable([d] + rest) == (if IsMappable(d) then [d] else []) + Mappable(rest)
  {
  }

  lemma ItemsSplit(order: seq<ListItem>)
    requires HasNoRepeats(order) && order != []
    ensures Items(order) == Items(order[1..]) + {order[0]} && order[0] !in Items(order[1..])
    ensures HasNoRepeats(order[1..])
  {
  }

  predicate MapsOne(src: Source, failing: set<string>, x: ListItem) {
    match Fetch(src, failing, x.slug) case Some(d) => IsMappable(d) case None => false
  }

  lemma MappableItemsMore(src: Source, failing: set<string>, items: set<ListItem>, x: ListItem)
    requires x !in items
    ensures |MappableItems(src, failing, items + {x})|
         == |MappableItems(src, failing, items)| + if MapsOne(src, failing, x) then 1 else 0
  {
    var before := MappableItems(src, failing, items);
    assert MappableItems(src, failing, items + {x}) == if MapsOne(src, failing, x) then before + {x} else before;
  }

  lemma MappableDetailsMore(src: Source, failing: set<string>, order: seq<ListItem>)
    requires order != []
    ensures |Mappable(Details(src, failing, order))|
         == |Mappable(Details(src, failing, order[1..]))| + if MapsOne(src, failing, order[0]) then 1 else 0
  {
    var rest := Details(src, failing, order[1..]);
    match Fetch(src, failing, order[0].slug)
    case Some(d) => MappableHead(d, rest);
    case None => assert [] + rest == rest;
  }

  lemma {:induction false} MappableCountIsSize(src: Source, failing: set<string>, order: seq<ListItem>)
    requires HasNoRepeats(order)
    ensures |Mappable(Details(src, failing, order))| == |MappableItems(src, failing, Items(order))|
  {
    if order != [] {
      ItemsSplit(order);
      MappableCountIsSize(src, failing, order[1..]);
      MappableDetailsMore(src, failing, order);
      MappableItemsMore(src, failing, Items(order[1..]), order[0]);
    }
  }

  /** The counts of a run are sizes of sets that no order enters. */
  lemma CountsAreSizes(src: Source, failing: set<string>, order: seq<ListItem>)
    requires HasNoRepeats(order)
    ensures |order| == |Items(order)|
    ensures |Details(src, failing, order)| == |FetchedItems(src, failing, Items(order))|
    ensures |Mappable(Details(src, failing, order))| == |MappableItems(src, failing, Items(order))|
  {
    LengthIsSize(order);
    FetchedCountIsSize(src, failing, order);
    MappableCountIsSize(src, failing, order);
  }

  lemma SameBatch(src: Source, t: Table, version: nat, failing: set<string>, a: seq<ListItem>, b: seq<ListItem>)
    requires IsCoherent(src) && forall x :: x in a <==> x in b
    ensures UpsertAll(t, version, Details(src, failing, a)) == UpsertAll(t, version, Details(src, failing, b))
  {
    var ta, tb := UpsertAll(t, version, Details(src, failing, a)), UpsertAll(t, version, Details(src, failing, b));
    assert Slugs(a) == Slugs(b);
    forall c
      ensures (c in ta <==> c in tb) && (c in ta ==> ta[c] == tb[c])
    {
      BatchAt(src, t, version, failing, a, c);
      BatchAt(src, t, version, failing, b, c);
    }
  }

  /**
   No schedule of the fetches matters: the run ends with the same catalog, the same cursor
   and the same counts.
   */
  lemma ScheduleDoesNotMatter(
    src: Source, db: Db, version: nat, now: int, faults: Faults,
    items: seq<ListItem>, a: seq<ListItem>, b: seq<ListItem>)
    requires IsCoherent(src) && IsScheduleOf(a, items) && IsScheduleOf(b, items)
    ensures RunSync(src, db, version, now, faults, a) == RunSync(src, db, version, now, faults, b)
  {
    SameCounts(src, faults.failing, a, b);
    SameTables(src, db.table, version, faults.failing, a, b, !faults.softDelete);
  }

  lemma SameCounts(src: Source, failing: set<string>, a: seq<ListItem>, b: seq<ListItem>)
    requires HasNoRepeats(a) && HasNoRepeats(b) && forall x :: x in a <==> x in b
    ensures |a| == |b| && |Details(src, failing, a)| == |Details(src, failing, b)|
    ensures |Mappable(Details(src, failing, a))| == |Mappable(Details(src, failing, b))|
  {
    assert Items(a) == Items(b);
    CountsAreSizes(src, failing, a);
    CountsAreSizes(src, failing, b);
  }

  lemma SameTables(
    src: Source, t: Table, version: nat, failing: set<string>, a: seq<ListItem>, b: seq<ListItem>, softDelete: bool)
    requires IsCoherent(src) && forall x :: x in a <==> x in b
    ensures Slugs(a) == Slugs(b)
    ensures SyncedTable(src, t, version, failing, a, softDelete) == SyncedTable(src, t, version, failing, b, softDelete)
  {
    assert Slugs(a) == Slugs(b);
    SameBatch(src, t, version, failing, a, b);
  }

  /** Every run that reaches the batch accounts for each detail it set out to fetch. */
  lemma AccountsForEveryFetch(src: Source, db: Db, version: nat, now: int, faults: Faults, order: seq<ListItem>)
    requires !faults.listing
    ensures var r := RunSync(src, db, version, now, faults, order);
            r.processed + r.failed == |order|
    ensures var r := RunSync(src, db, version, now, faults, order);
            r.outcome == Completed <==>
              && (forall x :: x in order ==> Fetch(src, faults.failing, x.slug).Some?)
              && (faults.upsert.None? || Mappable(Details(src, faults.failing, order)) == [])
              && (!faults.softDelete || Keep(src.listed, Redirects(src, faults.failing, Slugs(order))) == {})
  {
    DetailsAre(src, faults.failing, order);
    MappableFits(Details(src, faults.failing, order));
  }

  /**
   A completed run stamps the cursor with its own end and version, if the write succeeds; every
   other run leaves it where it was, so what failed is fetched again.
   */
  lemma CursorMovesIff(src: Source, db: Db, version: nat, now: int, faults: Faults, order: seq<ListItem>)
    ensures var r := RunSync(src, db, version, now, faults, order);
            r.db.cursor == if r.outcome == Completed && !faults.cursorWrite then Some(Cursor(now, version))
                           else db.cursor
    ensures var r := RunSync(src, db, version, now, faults, order);
            (exists x :: x in order && Fetch(src, faults.failing, x.slug).None?) ==> r.db.cursor == db.cursor
  {
    DetailsAre(src, faults.failing, order);
  }

  /** What the batch reports: every mapped item when it goes in, those before the failure when it does not. */
  lemma ProcessedIs(src: Source, db: Db, version: nat, now: int, faults: Faults, order: seq<ListItem>)
    requires !faults.listing && !NothingFetched(src, faults.failing, order)
    ensures var mapped := |Mappable(Details(src, faults.failing, order))|;
            var r := RunSync(src, db, version, now, faults, order);
            r.processed == if faults.upsert.Some? && faults.upsert.value < mapped then faults.upsert.value else mapped
  {
    DetailsAre(src, faults.failing, order);
  }

  // ---- Incremental equals full ----

  /** The row under a slug is what this version of the mapping makes of the slug's own detail. */
  predicate RowAgrees(src: Source, t: Table, version: nat, slug: string) {
    && slug in src.get && src.get[slug].slug == slug
    && (IsMappable(src.get[slug]) ==> slug in t && t[slug] == RowOf(version, src.get[slug]))
  }

  /** Every listed service unchanged since the cursor has its mapped row, under its canonical slug. */
  predicate RowsAgree(src: Source, t: Table, version: nat, since: Option<int>) {
    forall x :: x in src.listed && !NeedsDetail(x, since) ==> RowAgrees(src, t, version, x.slug)
  }

  /** Under one slug, fetching the changed services leaves what fetching all of them does. */
  lemma SameUpsertAt(
    src: Source, t: Table, version: nat, failing: set<string>, since: Option<int>, a: Table, b: Table, c: string)
    requires IsCoherent(src) && RowsAgree(src, t, version, since)
    requires UpsertedAt(src, t, version, failing, Slugs(ToFetch(src.listed, since)), a, c)
    requires UpsertedAt(src, t, version, failing, Slugs(src.listed), b, c)
    ensures (c in a <==> c in b) && (c in a ==> a[c] == b[c])
  {
    ToFetchIsFilter(src.listed, since);
    var some, all := Slugs(ToFetch(src.listed, since)), Slugs(src.listed);
    if HasWriter(src, failing, some, c) {
      var x :| x in some && Writes(src, failing, x, c);
      assert x in all;
    } else if HasWriter(src, failing, all, c) {
      var x :| x in all && Writes(src, failing, x, c);
      var item :| item in src.listed && item.slug == x;
      assert !NeedsDetail(item, since);
      assert RowAgrees(src, t, version, x);
    }
  }

  lemma SameKeep(src: Source, t: Table, version: nat, failing: set<string>, since: Option<int>)
    requires RowsAgree(src, t, version, since)
    ensures Keep(src.listed, Redirects(src, failing, Slugs(ToFetch(src.listed, since))))
         == Keep(src.listed, Redirects(src, failing, Slugs(src.listed)))
  {
    ToFetchIsFilter(src.listed, since);
    var some := Redirects(src, failing, Slugs(ToFetch(src.listed, since)));
    var all := Redirects(src, failing, Slugs(src.listed));
    forall x | x in src.listed
      ensures Resolved(some, x.slug) == Resolved(all, x.slug)
    {
      if NeedsDetail(x, since) {
        assert x.slug in Slugs(ToFetch(src.listed, since)) && x.slug in Slugs(src.listed);
      } else {
        assert RowAgrees(src, t, version, x.slug);
      }
    }
  }

  /**
   Incremental equals full: where the unchanged services already have their rows, a delta
   since the cursor and a full run end with the same table, whatever fetches fail, as long
   as neither gives up because every one of its fetches failed.
   */
  lemma IncrementalEqualsFull(
    src: Source, db: Db, version: nat, now: int, since: Option<int>, faults: Faults,
    deltaOrder: seq<ListItem>, fullOrder: seq<ListItem>)
    requires IsCoherent(src) && RowsAgree(src, db.table, version, since)
    requires IsScheduleOf(deltaOrder, ToFetch(src.listed, since)) && IsScheduleOf(fullOrder, src.listed)
    requires !faults.listing && faults.upsert.None?
    requires !NothingFetched(src, faults.failing, deltaOrder) && !NothingFetched(src, faults.failing, fullOrder)
    ensures RunSync(src, db, version, now, faults, deltaOrder).db.table
         == RunSync(src, db, version, now, faults, fullOrder).db.table
  {
    assert Slugs(deltaOrder) == Slugs(ToFetch(src.listed, since)) && Slugs(fullOrder) == Slugs(src.listed);
    SameKeep(src, db.table, version, faults.failing, since);
    SameUpserts(src, db.table, version, faults.failing, since, deltaOrder, fullOrder);
    RunReachesEnd(src, db, version, now, faults, deltaOrder);
    RunReachesEnd(src, db, version, now, faults, fullOrder);
  }

  lemma SameUpserts(
    src: Source, t: Table, version: nat, failing: set<string>, since: Option<int>,
    deltaOrder: seq<ListItem>, fullOrder: seq<ListItem>)
    requires IsCoherent(src) && RowsAgree(src, t, version, since)
    requires Slugs(deltaOrder) == Slugs(ToFetch(src.listed, since)) && Slugs(fullOrder) == Slugs(src.listed)
    ensures UpsertAll(t, version, Details(src, failing, deltaOrder))
         == UpsertAll(t, version, Details(src, failing, fullOrder))
  {
    var a := UpsertAll(t, version, Details(src, failing, deltaOrder));
    var b := UpsertAll(t, version, Details(src, failing, fullOrder));
    forall c
      ensures (c in a <==> c in b) && (c in a ==> a[c] == b[c])
    {
      BatchAt(src, t, version, failing, deltaOrder, c);
      BatchAt(src, t, version, failing, fullOrder, c);
      SameUpsertAt(src, t, version, failing, since, a, b, c);
    }
  }

  /** A run that is not cut short leaves the synced table. */
  lemma RunReachesEnd(src: Source, db: Db, version: nat, now: int, faults: Faults, order: seq<ListItem>)
    requires !faults.listing && faults.upsert.None? && !NothingFetched(src, faults.failing, order)
    ensures RunSync(src, db, version, now, faults, order).db.table
         == SyncedTable(src, db.table, version, faults.failing, order, !faults.softDelete)
  {
  }

  // ---- What a run deletes ----

  /** A listed slug whose fetch gave a mappable, active detail. */
  predicate IsLiveFetch(src: Source, failing: set<string>, slugs: set<string>, x: string) {
    x in slugs && Fetch(src, failing, x).Some? && IsMappable(src.get[x]) && src.get[x].status == Active
  }

  /** The fetches of a run, full or delta, are of listed entries. */
  predicate FetchesListed(src: Source, order: seq<ListItem>) {
    forall x :: x in order ==> x in src.listed
  }

  /** No surrounding space, or listed as it stands and not redirected away by this run. */
  predicate IsSafeCanonical(src: Source, failing: set<string>, order: seq<ListItem>, c: string) {
    IsTrimmed(c) || (c in Slugs(src.listed) && Resolved(Redirects(src, failing, Slugs(order)), c) == c)
  }

  /**
   A canonical slug is kept by the run that wrote it exactly when it has no surrounding space,
   or is itself listed and not redirected away.
   */
  lemma KeptIff(src: Source, failing: set<string>, order: seq<ListItem>, x: string)
    requires IsListing(src.listed) && FetchesListed(src, order)
    requires x in Slugs(order) && Fetch(src, failing, x).Some? && src.get[x].slug != ""
    ensures src.get[x].slug in Keep(src.listed, Redirects(src, failing, Slugs(order)))
       <==> IsSafeCanonical(src, failing, order, src.get[x].slug)
  {
    var redirects := Redirects(src, failing, Slugs(order));
    var c := src.get[x].slug;
    TrimIsTrimmed(c);
    var item :| item in order && item.slug == x;
    if IsTrimmed(c) {
      assert Resolved(redirects, x) == c;
      assert item in src.listed && c in Keep(src.listed, redirects);
    } else {
      forall y | y in src.listed && Resolved(redirects, y.slug) == c
        ensures y.slug == c
      {
        if y.slug in redirects {
          TrimIsTrimmed(redirects[y.slug]);
        }
      }
      forall y | y in src.listed && y.slug == c
        ensures Resolved(redirects, c) in Keep(src.listed, redirects)
      {
      }
    }
  }

  /** Every active service the run fetched is visible in a table. */
  predicate ShowsItsFetches(src: Source, failing: set<string>, order: seq<ListItem>, t: Table) {
    forall x :: x in Slugs(order) && IsLiveFetch(src, failing, Slugs(order), x) ==> IsVisible(t, src.get[x].slug)
  }

  predicate FetchesSafeCanonicals(src: Source, failing: set<string>, order: seq<ListItem>) {
    forall x :: x in Slugs(order) && IsLiveFetch(src, failing, Slugs(order), x) ==>
      IsSafeCanonical(src, failing, order, src.get[x].slug)
  }

  /**
   A run, full or delta, never soft-deletes what it just wrote, exactly when the canonical slug
   of every active service it fetched has no surrounding space (or is listed as it stands).
   */
  lemma SyncedShowsItsFetchesIff(src: Source, t: Table, version: nat, failing: set<string>, order: seq<ListItem>)
    requires IsCoherent(src) && IsListing(src.listed) && FetchesListed(src, order)
    ensures ShowsItsFetches(src, failing, order, SyncedTable(src, t, version, failing, order, true))
       <==> FetchesSafeCanonicals(src, failing, order)
  {
    forall x | IsLiveFetch(src, failing, Slugs(order), x)
      ensures IsVisible(SyncedTable(src, t, version, failing, order, true), src.get[x].slug)
         <==> IsSafeCanonical(src, failing, order, src.get[x].slug)
    {
      WrittenSurvivesIff(src, t, version, failing, order, x);
    }
  }

  lemma WrittenSurvivesIff(src: Source, t: Table, version: nat, failing: set<string>, order: seq<ListItem>, x: string)
    requires IsCoherent(src) && IsListing(src.listed) && FetchesListed(src, order)
    requires IsLiveFetch(src, failing, Slugs(order), x)
    ensures IsVisible(SyncedTable(src, t, version, failing, order, true), src.get[x].slug)
       <==> IsSafeCanonical(src, failing, order, src.get[x].slug)
  {
    var c := src.get[x].slug;
    BatchAt(src, t, version, failing, order, c);
    KeptIff(src, failing, order, x);
    assert Writes(src, failing, x, c);
    var item :| item in order && item.slug == x;
    var redirects := Redirects(src, failing, Slugs(order));
    assert Resolved(redirects, item.slug) in Keep(src.listed, redirects);
  }

  lemma UpsertShowsFetches(src: Source, t: Table, version: nat, failing: set<string>, order: seq<ListItem>)
    requires IsCoherent(src)
    ensures ShowsItsFetches(src, failing, order, UpsertAll(t, version, Details(src, failing, order)))
  {
    forall x | x in Slugs(order) && IsLiveFetch(src, failing, Slugs(order), x)
      ensures IsVisible(UpsertAll(t, version, Details(src, failing, order)), src.get[x].slug)
    {
      BatchAt(src, t, version, failing, order, src.get[x].slug);
      assert Writes(src, failing, x, src.get[x].slug);
    }
  }

  /**
   The same of the run itself, whichever fetches fail, once the batch is in; a soft delete
   that fails takes nothing.
   */
  lemma NeverDeletesWhatItWrote(src: Source, db: Db, version: nat, now: int, faults: Faults, order: seq<ListItem>)
    requires IsCoherent(src) && IsListing(src.listed) && FetchesListed(src, order)
    requires !faults.listing && faults.upsert.None?
    ensures ShowsItsFetches(src, faults.failing, order, RunSync(src, db, version, now, faults, order).db.table)
       <==> faults.softDelete || FetchesSafeCanonicals(src, faults.failing, order)
  {
    if NothingFetched(src, faults.failing, order) {
      DetailsAre(src, faults.failing, order);
    } else {
      RunReachesEnd(src, db, version, now, faults, order);
      SyncedShowsItsFetchesIff(src, db.table, version, faults.failing, order);
      UpsertShowsFetches(src, db.table, version, faults.failing, order);
    }
  }

  /** A canonical slug with a space around it is dropped by the run that writes it. */
  lemma UntrimmedCanonicalIsDropped(slug: string, d: Detail, t: Table, version: nat)
    requires slug != "" && d.slug != slug && !IsTrimmed(d.slug) && d.name != "" && d.status == Active
    ensures var src := Source([ListItem(slug, None)], map[slug := d]);
            !IsVisible(SyncedTable(src, t, version, {}, src.listed, true), d.slug)
  {
    var src := Source([ListItem(slug, None)], map[slug := d]);
    assert src.listed[0].slug in Slugs(src.listed);
    assert Slugs(src.listed) == {slug};
    WrittenSurvivesIff(src, t, version, {}, src.listed, slug);
  }

  /** The canonical slugs of the listed services that are active. */
  function LiveSlugs(src: Source): set<string> {
    set x | x in Slugs(src.listed) && x in src.get && IsMappable(src.get[x]) && src.get[x].status == Active
         :: src.get[x].slug
  }

  /**
   After a full run in which every fetch and mapping succeeds, exactly the canonical slugs of
   the listed active services are visible, whatever the redirects and the table before.
   */
  lemma FullRunMirrorsSource(src: Source, t: Table, version: nat, order: seq<ListItem>)
    requires IsCoherent(src) && IsListing(src.listed) && src.listed != [] && IsScheduleOf(order, src.listed)
    requires AllFetchable(src)
    ensures var after := SyncedTable(src, t, version, {}, order, true);
            && (forall c :: IsVisible(after, c) <==> c in LiveSlugs(src))
            && (forall x :: x in src.listed ==>
                  src.get[x.slug].slug in after
                  && after[src.get[x.slug].slug]
                     == Row(Mapped(version, src.get[x.slug]), src.get[x.slug].status, false))
  {
    var after := SyncedTable(src, t, version, {}, order, true);
    KeepIsCanonicals(src, order);
    forall x | x in src.listed
      ensures src.get[x.slug].slug in after && after[src.get[x.slug].slug] == RowOf(version, src.get[x.slug])
    {
      CanonicalRow(src, t, version, order, x);
    }
    forall c
      ensures IsVisible(after, c) <==> c in LiveSlugs(src)
    {
      if c in Canonicals(src) {
        var x :| x in src.listed && src.get[x.slug].slug == c;
        CanonicalRow(src, t, version, order, x);
        assert x.slug in Slugs(src.listed);
      } else {
        assert src.get[src.listed[0].slug].slug in Canonicals(src);
        assert c !in LiveSlugs(src);
      }
    }
  }

  /** Every listed service can be fetched and mapped, and its canonical slug has no surrounding space. */
  predicate AllFetchable(src: Source) {
    forall x :: x in src.listed ==>
      (x.slug in src.get && IsMappable(src.get[x.slug]) && IsTrimmed(src.get[x.slug].slug))
  }

  function Canonicals(src: Source): set<string>
    requires AllFetchable(src)
  {
    set x | x in src.listed :: src.get[x.slug].slug
  }

  lemma KeepIsCanonicals(src: Source, order: seq<ListItem>)
    requires IsListing(src.listed) && AllFetchable(src) && IsScheduleOf(order, src.listed)
    ensures Keep(src.listed, Redirects(src, {}, Slugs(order))) == Canonicals(src)
  {
  }

  lemma CanonicalRow(src: Source, t: Table, version: nat, order: seq<ListItem>, x: ListItem)
    requires IsCoherent(src) && IsListing(src.listed) && AllFetchable(src) && IsScheduleOf(order, src.listed)
    requires x in src.listed
    ensures var after := SyncedTable(src, t, version, {}, order, true);
            src.get[x.slug].slug in after && after[src.get[x.slug].slug] == RowOf(version, src.get[x.slug])
  {
    KeepIsCanonicals(src, order);
    assert Slugs(order) == Slugs(src.listed);
    BatchAt(src, t, version, {}, order, src.get[x.slug].slug);
    assert x.slug in Slugs(order) && Writes(src, {}, x.slug, src.get[x.slug].slug);
  }

  lemma HeadIsMember<T>(items: seq<T>)
    ensures items != [] ==> items[0] in items
  {
  }

  /**
   A failed listing, an empty one, or fetches that all fail change nothing at all in the
   catalog; neither does a batch that fails.
   */
  lemma FailuresDeleteNothing(src: Source, db: Db, version: nat, now: int, faults: Faults, order: seq<ListItem>)
    requires forall x :: x in order ==> x in src.listed
    requires faults.listing || src.listed == [] || NothingFetched(src, faults.failing, order)
             || (faults.upsert.Some? && Mappable(Details(src, faults.failing, order)) != [])
    ensures RunSync(src, db, version, now, faults, order).db.table == db.table
  {
    DetailsAre(src, faults.failing, order);
    if src.listed == [] {
      HeadIsMember(order);
    }
  }

  /** A soft delete hides the visible rows outside the kept set, keeps what they hold, and touches no other. */
  lemma SoftDeleteEffect(t: Table, keep: set<string>, slug: string)
    ensures var after := SoftDeleteActiveNotIn(t, keep);
            && (slug in after <==> slug in t)
            && (slug in t ==>
                  after[slug] == if !t[slug].deleted && t[slug].status == Active && slug !in keep
                                 then Row(t[slug].content, Inactive, true) else t[slug])
  {
  }

  /**
   What a run that reaches its soft delete shows: whatever the batch or the table before shows, of
   the slugs it keeps. An empty listing keeps everything.
   */
  lemma VisibleAfterRunIff(src: Source, db: Db, version: nat, now: int, faults: Faults, order: seq<ListItem>, c: string)
    requires !faults.listing && faults.upsert.None? && !faults.softDelete
    requires !NothingFetched(src, faults.failing, order) && IsCoherent(src) && IsListing(src.listed)
    ensures IsVisible(RunSync(src, db, version, now, faults, order).db.table, c)
       <==> && (src.listed == [] ||
                exists x :: x in src.listed && Resolved(Redirects(src, faults.failing, Slugs(order)), x.slug) == c)
            && if HasWriter(src, faults.failing, Slugs(order), c)
               then exists x :: x in Slugs(order) && Writes(src, faults.failing, x, c) && src.get[x].status == Active
               else IsVisible(db.table, c)
  {
    RunReachesEnd(src, db, version, now, faults, order);
    BatchAt(src, db.table, version, faults.failing, order, c);
    KeepsAnyIff(src, Redirects(src, faults.failing, Slugs(order)));
  }

  lemma KeepsAnyIff(src: Source, redirects: map<string, string>)
    requires IsListing(src.listed)
    ensures Keep(src.listed, redirects) == {} <==> src.listed == []
  {
    if src.listed != [] {
      assert Resolved(redirects, src.listed[0].slug) in Keep(src.listed, redirects);
    }
  }

  /** The only rows a run takes out of the catalog are visible ones it does not keep. */
  lemma DeletesOnlyUnlisted(
    src: Source, db: Db, version: nat, now: int, faults: Faults, order: seq<ListItem>, slug: string)
    requires IsCoherent(src)
    requires IsVisible(db.table, slug) && !IsVisible(RunSync(src, db, version, now, faults, order).db.table, slug)
    ensures slug !in Keep(src.listed, Redirects(src, faults.failing, Slugs(order)))
            || (exists x :: x in Slugs(order) && Writes(src, faults.failing, x, slug) && src.get[x].status != Active)
  {
    BatchAt(src, db.table, version, faults.failing, order, slug);
  }
}
