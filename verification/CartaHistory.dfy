/**
 The Carta mirror over time: the source changes, runs fail or complete, webhooks sync single
 records in between, the mapping gets new versions. The cursor keeps its meaning through all of it.
 */
module CartaHistory {
  import opened Wrappers
  import opened Strings
  import opened CartaSync
  import opened CartaTheorems
  import opened CartaRecord

  /** A dated entry stands under its own canonical slug; undated ones, always fetched, may be old slugs. */
  predicate IsCanonicalListing(src: Source) {
    forall x :: x in src.listed && x.modified.Some? && x.slug in src.get ==> src.get[x.slug].slug == x.slug
  }

  predicate IsSource(src: Source) {
    IsListing(src.listed) && IsCoherent(src) && IsCanonicalListing(src)
  }

  /** What the source changes after `now` is dated after `now`, or not dated. */
  predicate ChangesAreDated(before: Source, after: Source, now: int) {
    forall x :: x in after.listed && x.modified.Some? && x.modified.value <= now ==>
      && x in before.listed
      && (x.slug in after.get <==> x.slug in before.get)
      && (x.slug in after.get ==> after.get[x.slug] == before.get[x.slug])
  }

  datatype World = World(src: Source, now: int, version: nat, db: Db)

  datatype Action =
    | Change(src: Source, elapsed: nat)
    | Sync(full: bool, cursorReadable: bool, faults: Faults, order: seq<ListItem>, elapsed: nat)
    | Record(slug: string, recordFaults: RecordFaults, elapsed: nat)
    | NewVersion

  /** The start of a run: FullSync from nothing, DeltaSync from the cursor if it is readable and of this version. */
  function Since(w: World, full: bool, cursorReadable: bool): Option<int> {
    if full || !cursorReadable || w.db.cursor.None? || w.db.cursor.value.version != w.version then None
    else Some(w.db.cursor.value.at)
  }

  predicate Enabled(w: World, a: Action) {
    match a
    case Change(src, _) => IsSource(src) && ChangesAreDated(w.src, src, w.now)
    case Sync(full, readable, _, order, _) => IsScheduleOf(order, ToFetch(w.src.listed, Since(w, full, readable)))
    case Record(_, _, _) => true
    case NewVersion => true
  }

  /** The source stands still during a run, whose cursor is stamped at its end. */
  function Step(w: World, a: Action): World {
    if !Enabled(w, a) then w else
    match a
    case Change(src, elapsed) => w.(src := src, now := w.now + elapsed)
    case Sync(_, _, faults, order, elapsed) =>
      w.(now := w.now + elapsed, db := RunSync(w.src, w.db, w.version, w.now + elapsed, faults, order).db)
    case Record(slug, faults, elapsed) =>
      w.(now := w.now + elapsed, db := w.db.(table := SyncRecord(w.src, w.db.table, w.version, slug, faults).0))
    case NewVersion => w.(version := w.version + 1)
  }

  function Run(w: World, actions: seq<Action>): World
    decreases |actions|
  {
    if actions == [] then w else Run(Step(w, actions[0]), actions[1..])
  }

  /** Rows agree with the source up to the stored cursor and version. */
  predicate CursorHolds(w: World) {
    w.db.cursor.Some? ==>
      var cursor := w.db.cursor.value;
      && cursor.at <= w.now && cursor.version <= w.version
      && (cursor.version == w.version ==> RowsAgree(w.src, w.db.table, w.version, Some(cursor.at)))
  }

  predicate Inv(w: World) {
    IsSource(w.src) && CursorHolds(w)
  }

  /** A slug listed under its own canonical name is kept by every run. */
  lemma OwnNameIsKept(src: Source, failing: set<string>, slugs: set<string>, x: ListItem)
    requires IsListing(src.listed) && x in src.listed && x.slug in src.get && src.get[x.slug].slug == x.slug
    ensures x.slug in Keep(src.listed, Redirects(src, failing, slugs))
  {
  }

  /** A row that agrees with the source still does after any run, whatever fails. */
  lemma RunKeepsAgreement(
    src: Source, db: Db, version: nat, now: int, faults: Faults, order: seq<ListItem>, x: ListItem)
    requires IsListing(src.listed) && IsCoherent(src)
    requires x in src.listed && RowAgrees(src, db.table, version, x.slug)
    ensures RowAgrees(src, RunSync(src, db, version, now, faults, order).db.table, version, x.slug)
  {
    OwnNameIsKept(src, faults.failing, Slugs(order), x);
    BatchAt(src, db.table, version, faults.failing, order, x.slug);
  }

  /** A completed run makes the row of every entry it fetched under its own name agree. */
  lemma CompletedRunAgrees(
    src: Source, db: Db, version: nat, now: int, faults: Faults, order: seq<ListItem>, x: ListItem)
    requires IsListing(src.listed) && IsCoherent(src)
    requires RunSync(src, db, version, now, faults, order).outcome == Completed
    requires x in src.listed && x in order && (x.slug in src.get ==> src.get[x.slug].slug == x.slug)
    ensures RowAgrees(src, RunSync(src, db, version, now, faults, order).db.table, version, x.slug)
  {
    AccountsForEveryFetch(src, db, version, now, faults, order);
    assert Fetch(src, faults.failing, x.slug).Some?;
    OwnNameIsKept(src, faults.failing, Slugs(order), x);
    BatchAt(src, db.table, version, faults.failing, order, x.slug);
    MappableFits(Details(src, faults.failing, order));
    DetailsAre(src, faults.failing, order);
    if IsMappable(src.get[x.slug]) {
      assert x.slug in Slugs(order) && Writes(src, faults.failing, x.slug, x.slug);
      assert src.get[x.slug] in Mappable(Details(src, faults.failing, order));
    }
  }

  lemma SyncKeepsInv(w: World, a: Action)
    requires Inv(w) && a.Sync? && Enabled(w, a)
    ensures Inv(Step(w, a))
  {
    var w' := Step(w, a);
    var since := Since(w, a.full, a.cursorReadable);
    var r := RunSync(w.src, w.db, w.version, w'.now, a.faults, a.order);
    ToFetchIsFilter(w.src.listed, since);
    if w'.db.cursor.Some? && w'.db.cursor.value.version == w.version {
      var at := w'.db.cursor.value.at;
      forall x | x in w.src.listed && !NeedsDetail(x, Some(at))
        ensures RowAgrees(w.src, w'.db.table, w.version, x.slug)
      {
        if w'.db.cursor == w.db.cursor || !NeedsDetail(x, since) {
          assert RowAgrees(w.src, w.db.table, w.version, x.slug);
          RunKeepsAgreement(w.src, w.db, w.version, w'.now, a.faults, a.order, x);
        } else {
          assert r.outcome == Completed && x in a.order;
          CompletedRunAgrees(w.src, w.db, w.version, w'.now, a.faults, a.order, x);
        }
      }
    }
  }

  lemma RecordKeepsInv(w: World, a: Action)
    requires Inv(w) && a.Record?
    ensures Inv(Step(w, a))
  {
    var w' := Step(w, a);
    if w.db.cursor.Some? && w.db.cursor.value.version == w.version {
      forall x | x in w.src.listed && !NeedsDetail(x, Some(w.db.cursor.value.at))
        ensures RowAgrees(w.src, w'.db.table, w.version, x.slug)
      {
        assert RowAgrees(w.src, w.db.table, w.version, x.slug);
        RecordKeepsAgreement(w.src, w.db.table, w.version, a.slug, a.recordFaults, x.slug);
      }
    }
  }

  lemma ChangeKeepsInv(w: World, a: Action)
    requires Inv(w) && a.Change? && Enabled(w, a)
    ensures Inv(Step(w, a))
  {
  }

  /**
   The cursor keeps its meaning: over any mix of failed and completed runs, single-record
   syncs, changes of the source and new versions of the mapping, the rows agree with the source up to the stored
   cursor, if it is of the current version.
   */
  lemma {:induction false} CursorAlwaysHolds(w: World, actions: seq<Action>)
    requires Inv(w)
    ensures Inv(Run(w, actions))
    decreases |actions|
  {
    if actions != [] {
      var a := actions[0];
      if Enabled(w, a) {
        match a
        case Change(_, _) => ChangeKeepsInv(w, a);
        case Sync(_, _, _, _, _) => SyncKeepsInv(w, a);
        case Record(_, _, _) => RecordKeepsInv(w, a);
        case NewVersion =>
      }
      CursorAlwaysHolds(Step(w, a), actions[1..]);
    }
  }

  // ---- The next delta starts where the last completed run ended ----

  lemma SinceIs(w: World, full: bool, cursorReadable: bool)
    ensures Since(w, full, cursorReadable).Some? <==>
              !full && cursorReadable && w.db.cursor.Some? && w.db.cursor.value.version == w.version
    ensures Since(w, full, cursorReadable).Some? ==> Since(w, full, cursorReadable).value == w.db.cursor.value.at
  {
  }

  /** After a completed run whose cursor is written, the next delta fetches nothing dated up to its end. */
  lemma CompletedRunIsNotRepeated(w: World, a: Action, x: ListItem)
    requires a.Sync? && Enabled(w, a) && !a.faults.cursorWrite
    requires RunSync(w.src, w.db, w.version, w.now + a.elapsed, a.faults, a.order).outcome == Completed
    ensures Since(Step(w, a), false, true) == Some(w.now + a.elapsed)
    ensures var next := ToFetch(w.src.listed, Since(Step(w, a), false, true));
            x in next <==> x in w.src.listed && (x.modified.None? || x.modified.value > w.now + a.elapsed)
  {
    CursorMovesIff(w.src, w.db, w.version, w.now + a.elapsed, a.faults, a.order);
    ToFetchIsFilter(w.src.listed, Since(Step(w, a), false, true));
  }

  /** After any other run, the next delta starts where this one could have. */
  lemma FailedRunIsRepeated(w: World, a: Action)
    requires a.Sync? && Enabled(w, a)
    requires RunSync(w.src, w.db, w.version, w.now + a.elapsed, a.faults, a.order).outcome == Failed
    ensures Since(Step(w, a), false, true) == Since(w, false, true)
  {
    CursorMovesIff(w.src, w.db, w.version, w.now + a.elapsed, a.faults, a.order);
  }

  /** A new version of the mapping fetches everything once more. */
  lemma NewVersionFetchesAll(w: World)
    requires Inv(w)
    ensures ToFetch(w.src.listed, Since(Step(w, NewVersion), false, true)) == w.src.listed
  {
    ToFetchIsFilter(w.src.listed, None);
  }

  /**
   So after any history that starts without a cursor, a delta ends with exactly the table a
   full recompute would leave.
   */
  lemma DeltaEqualsFullAfterAnyHistory(
    start: World, actions: seq<Action>, readable: bool, faults: Faults,
    deltaOrder: seq<ListItem>, fullOrder: seq<ListItem>)
    requires IsSource(start.src) && start.db.cursor.None?
    requires var w := Run(start, actions);
             && IsScheduleOf(deltaOrder, ToFetch(w.src.listed, Since(w, false, readable)))
             && IsScheduleOf(fullOrder, w.src.listed)
             && !faults.listing && faults.upsert.None?
             && !NothingFetched(w.src, faults.failing, deltaOrder)
             && !NothingFetched(w.src, faults.failing, fullOrder)
    ensures var w := Run(start, actions);
            RunSync(w.src, w.db, w.version, w.now, faults, deltaOrder).db.table
            == RunSync(w.src, w.db, w.version, w.now, faults, fullOrder).db.table
  {
    CursorAlwaysHolds(start, actions);
    var w := Run(start, actions);
    var since := Since(w, false, readable);
    assert RowsAgree(w.src, w.db.table, w.version, since);
    IncrementalEqualsFull(w.src, w.db, w.version, w.now, since, faults, deltaOrder, fullOrder);
  }

  /** And a delta whose fetches and mappings all succeed mirrors the source exactly. */
  lemma DeltaMirrorsSourceAfterAnyHistory(
    start: World, actions: seq<Action>, readable: bool, deltaOrder: seq<ListItem>)
    requires IsSource(start.src) && start.db.cursor.None?
    requires var w := Run(start, actions);
             && IsScheduleOf(deltaOrder, ToFetch(w.src.listed, Since(w, false, readable)))
             && w.src.listed != [] && AllFetchable(w.src)
    ensures var w := Run(start, actions);
            var after := RunSync(w.src, w.db, w.version, w.now, NoFaults(), deltaOrder).db.table;
            (forall c :: IsVisible(after, c) <==> c in LiveSlugs(w.src))
  {
    CursorAlwaysHolds(start, actions);
    var w := Run(start, actions);
    var full := w.src.listed;
    assert IsScheduleOf(full, full) by {
      assert forall i, j :: 0 <= i < j < |full| ==> full[i].slug != full[j].slug;
    }
    ToFetchIsFilter(full, Since(w, false, readable));
    DetailsAre(w.src, {}, deltaOrder);
    DetailsAre(w.src, {}, full);
    DeltaEqualsFullAfterAnyHistory(start, actions, readable, NoFaults(), deltaOrder, full);
    RunReachesEnd(w.src, w.db, w.version, w.now, NoFaults(), full);
    FullRunMirrorsSource(w.src, w.db.table, w.version, full);
  }

  function NoFaults(): Faults {
    Faults(false, {}, None, false, false)
  }

  // ---- Old slugs that the listing still shows ----

  /** The catalog still names c: under its own slug, or under an entry that is fetched again. */
  predicate StaysNamed(src: Source, since: Option<int>, c: string)
    requires AllFetchable(src)
  {
    exists y :: y in src.listed && NameOf(src, since, y) == c
  }

  /** The slug a delta without faults keeps for an entry. */
  function NameOf(src: Source, since: Option<int>, y: ListItem): string
    requires AllFetchable(src) && y in src.listed
  {
    if NeedsDetail(y, since) then src.get[y.slug].slug else y.slug
  }

  lemma SameSlugSameEntry(listed: seq<ListItem>, x: ListItem, y: ListItem)
    requires IsListing(listed) && x in listed && y in listed && x.slug == y.slug
    ensures x == y
  {
    var i :| 0 <= i < |listed| && listed[i] == x;
    var j :| 0 <= j < |listed| && listed[j] == y;
    assert i == j;
  }

  lemma FetchedNeed(listed: seq<ListItem>, since: Option<int>, order: seq<ListItem>, x: ListItem)
    requires IsScheduleOf(order, ToFetch(listed, since))
    ensures x in order <==> x in listed && NeedsDetail(x, since)
  {
    ToFetchIsFilter(listed, since);
  }

  /** With one entry for each slug, a slug is fetched when its entry needs it. */
  lemma FetchedIffNeeded(src: Source, since: Option<int>, order: seq<ListItem>, y: ListItem)
    requires IsListing(src.listed) && IsScheduleOf(order, ToFetch(src.listed, since)) && y in src.listed
    ensures y.slug in Slugs(order) <==> NeedsDetail(y, since)
  {
    FetchedNeed(src.listed, since, order, y);
    if y.slug in Slugs(order) {
      var x :| x in order && x.slug == y.slug;
      FetchedNeed(src.listed, since, order, x);
      SameSlugSameEntry(src.listed, x, y);
    }
  }

  lemma DeltaResolves(src: Source, since: Option<int>, order: seq<ListItem>, y: ListItem)
    requires IsListing(src.listed) && AllFetchable(src) && IsScheduleOf(order, ToFetch(src.listed, since))
    requires y in src.listed
    ensures Resolved(Redirects(src, {}, Slugs(order)), y.slug) == NameOf(src, since, y)
  {
    TrimIsTrimmed(src.get[y.slug].slug);
    FetchedIffNeeded(src, since, order, y);
  }

  lemma DeltaKeepIs(src: Source, since: Option<int>, order: seq<ListItem>, c: string)
    requires IsListing(src.listed) && AllFetchable(src) && IsScheduleOf(order, ToFetch(src.listed, since))
    ensures c in Keep(src.listed, Redirects(src, {}, Slugs(order))) <==> StaysNamed(src, since, c)
  {
    var redirects := Redirects(src, {}, Slugs(order));
    if c in Keep(src.listed, redirects) {
      var y :| y in src.listed && y.slug != "" && Resolved(redirects, y.slug) == c;
      DeltaResolves(src, since, order, y);
    }
    if StaysNamed(src, since, c) {
      var y :| y in src.listed && NameOf(src, since, y) == c;
      DeltaResolves(src, since, order, y);
    }
  }

  /**
   Without IsCanonicalListing: right after a completed full run of the same source, a
   faultless delta keeps every live service exactly when each is still named, by its own
   listed slug or by an entry the delta fetches again. A dated old slug is neither.
   */
  lemma DeltaAfterFullKeepsCatalogIff(
    src: Source, t: Table, version: nat, now: int, fullOrder: seq<ListItem>, deltaOrder: seq<ListItem>)
    requires IsListing(src.listed) && IsCoherent(src) && AllFetchable(src) && src.listed != []
    requires IsScheduleOf(fullOrder, src.listed) && IsScheduleOf(deltaOrder, ToFetch(src.listed, Some(now)))
    ensures var full := SyncedTable(src, t, version, {}, fullOrder, true);
            var delta := SyncedTable(src, full, version, {}, deltaOrder, true);
            (forall c :: c in LiveSlugs(src) ==> IsVisible(delta, c))
            <==> (forall c :: c in LiveSlugs(src) ==> StaysNamed(src, Some(now), c))
  {
    var full := SyncedTable(src, t, version, {}, fullOrder, true);
    var delta := SyncedTable(src, full, version, {}, deltaOrder, true);
    FullRunMirrorsSource(src, t, version, fullOrder);
    forall c | c in LiveSlugs(src)
      ensures IsVisible(delta, c) <==> StaysNamed(src, Some(now), c)
    {
      LiveAfterDeltaIff(src, full, version, now, deltaOrder, c);
    }
  }

  lemma LiveAfterDeltaIff(src: Source, t: Table, version: nat, now: int, order: seq<ListItem>, c: string)
    requires IsListing(src.listed) && IsCoherent(src) && AllFetchable(src) && src.listed != []
    requires IsScheduleOf(order, ToFetch(src.listed, Some(now)))
    requires c in LiveSlugs(src) && IsVisible(t, c)
    ensures IsVisible(SyncedTable(src, t, version, {}, order, true), c) <==> StaysNamed(src, Some(now), c)
  {
    DeltaKeepIs(src, Some(now), order, c);
    LiveAfterUpsert(src, t, version, order, c);
    var named := NameOf(src, Some(now), src.listed[0]);
    assert StaysNamed(src, Some(now), named);
    DeltaKeepIs(src, Some(now), order, named);
  }

  lemma LiveAfterUpsert(src: Source, t: Table, version: nat, order: seq<ListItem>, c: string)
    requires IsCoherent(src) && c in LiveSlugs(src) && IsVisible(t, c)
    ensures IsVisible(UpsertAll(t, version, Details(src, {}, order)), c)
  {
    BatchAt(src, t, version, {}, order, c);
    var x :| x in Slugs(src.listed) && x in src.get && src.get[x].status == Active && src.get[x].slug == c;
    forall y | y in Slugs(order) && Writes(src, {}, y, c)
      ensures src.get[y] == src.get[x]
    {
    }
  }

  function OneEntry(old_: string, d: Detail, at: int): Source {
    Source([ListItem(old_, Some(at))], map[old_ := d])
  }

  lemma OneEntryIsSource(old_: string, d: Detail, at: int)
    requires old_ != "" && IsMappable(d) && IsTrimmed(d.slug) && d.status == Active
    ensures var src := OneEntry(old_, d, at);
            IsListing(src.listed) && IsCoherent(src) && AllFetchable(src) && d.slug in LiveSlugs(src)
  {
    var src := OneEntry(old_, d, at);
    assert src.listed[0].slug in Slugs(src.listed);
    assert src.get[old_].slug == d.slug;
  }

  lemma OneStaleEntry(old_: string, d: Detail, at: int, now: int)
    requires old_ != "" && IsMappable(d) && IsTrimmed(d.slug) && d.slug != old_ && d.status == Active && at <= now
    ensures AllFetchable(OneEntry(old_, d, at))
    ensures ToFetch(OneEntry(old_, d, at).listed, Some(now)) == []
    ensures !StaysNamed(OneEntry(old_, d, at), Some(now), d.slug)
  {
    OneEntryIsSource(old_, d, at);
    ToFetchIsFilter(OneEntry(old_, d, at).listed, Some(now));
    HeadIsMember(ToFetch(OneEntry(old_, d, at).listed, Some(now)));
  }

  /** The smallest case: one service, listed under a dated old slug, is dropped by the delta after its full run. */
  lemma StaleSlugDropsService(old_: string, d: Detail, at: int, t: Table, version: nat, now: int)
    requires old_ != "" && IsMappable(d) && IsTrimmed(d.slug) && d.slug != old_ && d.status == Active && at <= now
    ensures var src := OneEntry(old_, d, at);
            var full := SyncedTable(src, t, version, {}, src.listed, true);
            IsVisible(full, d.slug) && !IsVisible(SyncedTable(src, full, version, {}, [], true), d.slug)
  {
    var src := OneEntry(old_, d, at);
    OneEntryIsSource(old_, d, at);
    FullRunMirrorsSource(src, t, version, src.listed);
    OneStaleEntry(old_, d, at, now);
    LiveAfterDeltaIff(src, SyncedTable(src, t, version, {}, src.listed, true), version, now, [], d.slug);
  }
}
