/**
 The Carta synchronisation in its own imperative form: the catalog table updated in place
 and the loops of the service, each tied to the functions of CartaSync.
 */
module CartaService {
  import opened Wrappers
  import opened Strings
  import opened CartaSync
  import CartaRecord

  lemma {:induction false} BatchOfMappable(t: Table, version: nat, details: seq<Detail>)
    ensures UpsertAll(t, version, Mappable(details)) == UpsertAll(t, version, details)
    decreases |details|
  {
    if details != [] {
      var d := details[0];
      BatchOfMappable(if IsMappable(d) then t[d.slug := RowOf(version, d)] else t, version, details[1..]);
      if IsMappable(d) {
        assert Mappable(details)[1..] == Mappable(details[1..]);
      } else {
        assert Mappable(details) == Mappable(details[1..]);
      }
    }
  }

  lemma {:induction false} UpsertOneMore(t: Table, version: nat, details: seq<Detail>, d: Detail)
    requires IsMappable(d)
    ensures UpsertAll(t, version, details + [d]) == UpsertAll(t, version, details)[d.slug := RowOf(version, d)]
    decreases |details|
  {
    if details == [] {
      assert UpsertAll(t, version, [d]) == UpsertAll(t[d.slug := RowOf(version, d)], version, [d][1..]);
    } else {
      var e := details[0];
      assert (details + [d])[1..] == details[1..] + [d];
      UpsertOneMore(if IsMappable(e) then t[e.slug := RowOf(version, e)] else t, version, details[1..], d);
    }
  }

  /** The catalog rows of one source, and its sync cursor. */
  class CatalogRepository {
    var items: Table
    var cursor: Option<Cursor>

    function Contents(): Db
      reads this
    {
      Db(items, cursor)
    }

    method Upsert(version: nat, d: Detail)
      requires IsMappable(d)
      modifies this`items
      ensures items == old(items)[d.slug := RowOf(version, d)]
    {
      items := items[d.slug := RowOf(version, d)];
    }

    /** One transaction; `failAt` is the item it fails on, or the commit when there are none left. */
    method UpsertBatch(version: nat, batch: seq<Detail>, failAt: Option<nat>) returns (count: nat, ok: bool)
      requires forall d :: d in batch ==> IsMappable(d)
      modifies this`items
      ensures ok <==> batch == [] || failAt.None?
      ensures ok ==> count == |batch| && items == UpsertAll(old(items), version, batch)
      ensures !ok ==> count == AtMost(failAt.value, |batch|) && items == old(items)
    {
      if |batch| == 0 {
        return 0, true;
      }
      var staged := items;
      count := 0;
      while count < |batch|
        invariant count <= |batch| && (failAt.Some? ==> count <= failAt.value)
        invariant items == old(items)
        invariant staged == UpsertAll(items, version, batch[..count])
      {
        if failAt == Some(count) {
          return count, false;
        }
        UpsertOneMore(items, version, batch[..count], batch[count]);
        assert batch[..count + 1] == batch[..count] + [batch[count]];
        staged := staged[batch[count].slug := RowOf(version, batch[count])];
        count := count + 1;
      }
      assert batch[..count] == batch;
      if failAt.Some? {
        return count, false;
      }
      items := staged;
      ok := true;
    }

    method SoftDeleteActiveNotIn(keep: set<string>) returns (count: nat)
      modifies this`items
      ensures items == CartaSync.SoftDeleteActiveNotIn(old(items), keep)
      ensures count == |set slug | slug in old(items) && IsVisible(old(items), slug) && slug !in keep|
    {
      var gone := set slug | slug in items && !items[slug].deleted && items[slug].status == Active && slug !in keep;
      assert gone == set slug | slug in items && IsVisible(items, slug) && slug !in keep;
      items := map slug | slug in items ::
        if slug in gone then items[slug].(deleted := true, status := Inactive) else items[slug];
      count := |gone|;
    }

    method SoftDelete(slug: string)
      modifies this`items
      ensures items == CartaRecord.SoftDelete(old(items), slug)
    {
      if slug in items {
        items := items[slug := items[slug].(deleted := true, status := Inactive)];
      }
    }

    method UpsertSalesForceCursor(at: int, version: nat)
      modifies this`cursor
      ensures cursor == Some(Cursor(at, version))
    {
      cursor := Some(Cursor(at, version));
    }
  }

  /** Some entry before the j-th of list i has that slug. */
  ghost predicate IsBefore(lists: seq<seq<ListItem>>, i: nat, j: nat, slug: string) {
    exists k: nat, l: nat :: IsAt(lists, k, l, slug) && (k < i || (k == i && l < j))
  }

  predicate IsAt(lists: seq<seq<ListItem>>, k: nat, l: nat, slug: string) {
    k < |lists| && l < |lists[k]| && lists[k][l].slug == slug
  }

  /** The entry is in some list, the first to arrive under its slug. */
  ghost predicate ArrivesFirst(lists: seq<seq<ListItem>>, x: ListItem) {
    exists i: nat, j: nat :: IsAt(lists, i, j, x.slug) && lists[i][j] == x && !IsBefore(lists, i, j, x.slug)
  }

  /** After the first j entries of list i. */
  ghost predicate IsMerged(lists: seq<seq<ListItem>>, i: nat, j: nat, all: seq<ListItem>) {
    && IsListing(all)
    && (forall x :: x in all ==> ArrivesFirst(lists, x))
    && (forall slug :: slug in Slugs(all) <==> slug != "" && IsBefore(lists, i, j, slug))
  }

  lemma OneEntryMore(lists: seq<seq<ListItem>>, i: nat, j: nat, slug: string)
    requires i < |lists| && j < |lists[i]|
    ensures IsBefore(lists, i, j + 1, slug) <==> IsBefore(lists, i, j, slug) || lists[i][j].slug == slug
  {
    if lists[i][j].slug == slug {
      assert IsAt(lists, i, j, slug);
    }
  }

  lemma SkipEntry(lists: seq<seq<ListItem>>, i: nat, j: nat, all: seq<ListItem>)
    requires i < |lists| && j < |lists[i]| && IsMerged(lists, i, j, all)
    requires lists[i][j].slug == "" || lists[i][j].slug in Slugs(all)
    ensures IsMerged(lists, i, j + 1, all)
  {
    forall slug
      ensures slug in Slugs(all) <==> slug != "" && IsBefore(lists, i, j + 1, slug)
    {
      OneEntryMore(lists, i, j, slug);
    }
  }

  lemma AddEntry(lists: seq<seq<ListItem>>, i: nat, j: nat, all: seq<ListItem>)
    requires i < |lists| && j < |lists[i]| && IsMerged(lists, i, j, all)
    requires lists[i][j].slug != "" && lists[i][j].slug !in Slugs(all)
    ensures IsMerged(lists, i, j + 1, all + [lists[i][j]])
    ensures Slugs(all + [lists[i][j]]) == Slugs(all) + {lists[i][j].slug}
  {
    var x := lists[i][j];
    assert forall y :: y in all + [x] <==> y in all || y == x;
    assert forall y :: y in all ==> y.slug in Slugs(all);
    assert x in all + [x];
    assert Slugs(all + [x]) == Slugs(all) + {x.slug};
    assert IsAt(lists, i, j, x.slug) && ArrivesFirst(lists, x);
    forall slug
      ensures slug in Slugs(all + [x]) <==> slug != "" && IsBefore(lists, i, j + 1, slug)
    {
      OneEntryMore(lists, i, j, slug);
    }
  }

  lemma NextList(lists: seq<seq<ListItem>>, i: nat, all: seq<ListItem>)
    requires i < |lists| && IsMerged(lists, i, |lists[i]|, all)
    ensures IsMerged(lists, i + 1, 0, all)
  {
    forall slug
      ensures IsBefore(lists, i + 1, 0, slug) <==> IsBefore(lists, i, |lists[i]|, slug)
    {
    }
  }

  /**
   The services of every subtheme, in the order their lists arrive: one entry per slug, the
   first to arrive. Which slugs are listed does not depend on that order.
   */
  method MergeListings(lists: seq<seq<ListItem>>) returns (all: seq<ListItem>)
    ensures IsListing(all)
    ensures forall slug :: slug in Slugs(all) <==> slug != "" && exists i: nat, j: nat :: IsAt(lists, i, j, slug)
    ensures forall x :: x in all ==> ArrivesFirst(lists, x)
  {
    all := [];
    var seen: set<string> := {};
    for i := 0 to |lists|
      invariant IsMerged(lists, i, 0, all) && seen == Slugs(all)
    {
      for j := 0 to |lists[i]|
        invariant IsMerged(lists, i, j, all) && seen == Slugs(all)
      {
        var svc := lists[i][j];
        if svc.slug == "" || svc.slug in seen {
          SkipEntry(lists, i, j, all);
          continue;
        }
        AddEntry(lists, i, j, all);
        seen := seen + {svc.slug};
        all := all + [svc];
      }
      NextList(lists, i, all);
    }
  }

  lemma AppendKeepsRest<T>(done: seq<T>, one: seq<T>, rest: seq<T>)
    ensures done + (one + rest) == (done + one) + rest
  {
  }

  lemma ToFetchFrom(listed: seq<ListItem>, since: Option<int>, i: nat)
    requires i < |listed|
    ensures ToFetch(listed[i..], since)
         == (if NeedsDetail(listed[i], since) then [listed[i]] else []) + ToFetch(listed[i + 1..], since)
  {
    assert listed[i..][1..] == listed[i + 1..];
  }

  method FilterServicesNeedingDetail(listed: seq<ListItem>, since: Option<int>) returns (out: seq<ListItem>)
    ensures out == ToFetch(listed, since)
    ensures forall x :: x in out <==>
              x in listed && (since.None? || x.modified.None? || x.modified.value > since.value)
  {
    if since.None? {
      ToFetchIsFilter(listed, since);
      return listed;
    }
    out := [];
    for i := 0 to |listed|
      invariant out + ToFetch(listed[i..], since) == ToFetch(listed, since)
    {
      ToFetchFrom(listed, since, i);
      var m := listed[i].modified;
      if m.None? || m.value > since.value {
        AppendKeepsRest(out, [listed[i]], ToFetch(listed[i + 1..], since));
        out := out + [listed[i]];
      } else {
        AppendKeepsRest(out, [], ToFetch(listed[i + 1..], since));
      }
    }
    ToFetchIsFilter(listed, since);
  }

  lemma SlugsOneMore(order: seq<ListItem>, i: nat)
    requires i < |order|
    ensures Slugs(order[..i + 1]) == Slugs(order[..i]) + {order[i].slug}
  {
  }

  lemma RedirectsOneMore(src: Source, failing: set<string>, slugs: set<string>, slug: string)
    ensures Redirects(src, failing, slugs + {slug}) ==
            match Fetch(src, failing, slug)
            case Some(d) => if d.slug != slug && d.slug != "" then Redirects(src, failing, slugs)[slug := d.slug]
                            else Redirects(src, failing, slugs)
            case None => Redirects(src, failing, slugs)
  {
  }

  lemma DetailsFrom(src: Source, failing: set<string>, order: seq<ListItem>, i: nat)
    requires i < |order|
    ensures Details(src, failing, order[i..]) ==
            (match Fetch(src, failing, order[i].slug) case Some(d) => [d] case None => [])
            + Details(src, failing, order[i + 1..])
  {
    assert order[i..][1..] == order[i + 1..];
  }

  /** After i fetches. */
  ghost predicate FetchedSoFar(
    src: Source, failing: set<string>, order: seq<ListItem>, i: nat,
    details: seq<Detail>, redirects: map<string, string>)
  {
    && i <= |order|
    && details + Details(src, failing, order[i..]) == Details(src, failing, order)
    && redirects == Redirects(src, failing, Slugs(order[..i]))
  }

  lemma OneFetchFails(
    src: Source, failing: set<string>, order: seq<ListItem>, i: nat,
    details: seq<Detail>, redirects: map<string, string>)
    requires i < |order| && FetchedSoFar(src, failing, order, i, details, redirects)
    requires Fetch(src, failing, order[i].slug).None?
    ensures FetchedSoFar(src, failing, order, i + 1, details, redirects)
  {
    DetailsFrom(src, failing, order, i);
    AppendKeepsRest(details, [], Details(src, failing, order[i + 1..]));
    SlugsOneMore(order, i);
    RedirectsOneMore(src, failing, Slugs(order[..i]), order[i].slug);
  }

  lemma OneFetchSucceeds(
    src: Source, failing: set<string>, order: seq<ListItem>, i: nat,
    details: seq<Detail>, redirects: map<string, string>, d: Detail)
    requires i < |order| && FetchedSoFar(src, failing, order, i, details, redirects)
    requires Fetch(src, failing, order[i].slug) == Some(d)
    ensures var slug := order[i].slug;
            FetchedSoFar(src, failing, order, i + 1, details + [d],
                         if slug != d.slug && d.slug != "" then redirects[slug := d.slug] else redirects)
  {
    DetailsFrom(src, failing, order, i);
    AppendKeepsRest(details, [d], Details(src, failing, order[i + 1..]));
    SlugsOneMore(order, i);
    RedirectsOneMore(src, failing, Slugs(order[..i]), order[i].slug);
  }

  /** The fetches, in the order they finish; a failure never stops the others. */
  method FetchDetails(src: Source, failing: set<string>, order: seq<ListItem>)
    returns (details: seq<Detail>, redirects: map<string, string>, failed: nat)
    ensures details == Details(src, failing, order)
    ensures redirects == Redirects(src, failing, Slugs(order))
    ensures failed + |details| == |order|
  {
    details, redirects, failed := [], map[], 0;
    for i := 0 to |order|
      invariant FetchedSoFar(src, failing, order, i, details, redirects)
      invariant failed + |details| == i
    {
      var slug := order[i].slug;
      match Fetch(src, failing, slug) {
        case None =>
          OneFetchFails(src, failing, order, i, details, redirects);
          failed := failed + 1;
        case Some(d) =>
          OneFetchSucceeds(src, failing, order, i, details, redirects, d);
          details := details + [d];
          if slug != d.slug && d.slug != "" {
            redirects := redirects[slug := d.slug];
          }
      }
    }
    assert order[..|order|] == order;
  }

  method ResolveSeenSlugs(listed: seq<ListItem>, redirects: map<string, string>) returns (seen: seq<string>)
    ensures (set s | s in seen) == Keep(listed, redirects)
    ensures seen == [] <==> Keep(listed, redirects) == {}
  {
    seen := [];
    for i := 0 to |listed|
      invariant forall s :: s in seen <==> s in Keep(listed[..i], redirects)
    {
      assert listed[..i + 1] == listed[..i] + [listed[i]];
      KeepOneMore(listed[..i], redirects, listed[i]);
      if listed[i].slug == "" {
        continue;
      }
      var slug := listed[i].slug;
      var to := if slug in redirects then Trim(redirects[slug]) else "";
      if to != "" {
        slug := to;
      }
      seen := seen + [slug];
    }
    assert listed[..|listed|] == listed;
    if seen != [] {
      assert seen[0] in seen;
    }
  }

  lemma KeepOneMore(listed: seq<ListItem>, redirects: map<string, string>, x: ListItem)
    ensures Keep(listed + [x], redirects)
         == Keep(listed, redirects) + (if x.slug == "" then {} else {Resolved(redirects, x.slug)})
  {
  }

  /** The end of `runSync`, from the soft delete on. */
  method Conclude(
    repo: CatalogRepository, src: Source, version: nat, now: int, faults: Faults, redirects: map<string, string>,
    fetchFailed: nat)
    returns (outcome: Outcome)
    modifies repo
    ensures var keep := Keep(src.listed, redirects);
            && repo.items == (if keep == {} || faults.softDelete then old(repo.items)
                              else CartaSync.SoftDeleteActiveNotIn(old(repo.items), keep))
            && outcome == (if (keep != {} && faults.softDelete) || fetchFailed > 0 then Failed else Completed)
            && repo.cursor == if outcome == Completed && !faults.cursorWrite then Some(Cursor(now, version))
                              else old(repo.cursor)
  {
    var softFailed := false;
    var seen := ResolveSeenSlugs(src.listed, redirects);
    if |seen| > 0 && faults.softDelete {
      softFailed := true;
    } else if |seen| > 0 {
      var _ := repo.SoftDeleteActiveNotIn(set s | s in seen);
    }
    if softFailed || fetchFailed > 0 {
      return Failed;
    }
    if !faults.cursorWrite {
      repo.UpsertSalesForceCursor(now, version);
    }
    return Completed;
  }

  /** `runSync`, statement by statement, for the schedule `order` of its fetches. */
  method RunSync(
    repo: CatalogRepository, src: Source, version: nat, now: int, faults: Faults, order: seq<ListItem>)
    returns (outcome: Outcome, processed: nat, failed: nat)
    modifies repo
    ensures Result(repo.Contents(), outcome, processed, failed)
         == CartaSync.RunSync(src, old(repo.Contents()), version, now, faults, order)
  {
    if faults.listing {
      return Failed, 0, 0;
    }
    var details, redirects, fetchFailed := FetchDetails(src, faults.failing, order);
    if fetchFailed > 0 && |details| == 0 {
      return Failed, 0, fetchFailed;
    }
    var batch, mappingFailed := MapDetails(details);
    BatchOfMappable(repo.items, version, details);
    MappableFits(details);
    var ok: bool;
    processed, ok := repo.UpsertBatch(version, batch, faults.upsert);
    failed := fetchFailed + mappingFailed + (|batch| - processed);
    if !ok {
      return Failed, processed, failed;
    }
    outcome := Conclude(repo, src, version, now, faults, redirects, fetchFailed);
  }

  lemma MappableFrom(details: seq<Detail>, i: nat)
    requires i < |details|
    ensures Mappable(details[i..])
         == (if IsMappable(details[i]) then [details[i]] else []) + Mappable(details[i + 1..])
  {
    assert details[i..][1..] == details[i + 1..];
  }

  method MapDetails(details: seq<Detail>) returns (batch: seq<Detail>, mappingFailed: nat)
    ensures batch == Mappable(details) && mappingFailed + |batch| == |details|
    ensures forall d :: d in batch <==> d in details && d.slug != "" && d.name != ""
  {
    batch, mappingFailed := [], 0;
    for i := 0 to |details|
      invariant batch + Mappable(details[i..]) == Mappable(details)
      invariant mappingFailed + |batch| == i
    {
      MappableFrom(details, i);
      if details[i].slug == "" || details[i].name == "" {
        AppendKeepsRest(batch, [], Mappable(details[i + 1..]));
        mappingFailed := mappingFailed + 1;
      } else {
        AppendKeepsRest(batch, [details[i]], Mappable(details[i + 1..]));
        batch := batch + [details[i]];
      }
    }
    MappableFits(details);
  }

  /** `SyncRecord`, statement by statement. */
  method SyncRecord(
    repo: CatalogRepository, src: Source, version: nat, request: string, faults: CartaRecord.RecordFaults)
    returns (ok: bool)
    modifies repo`items
    ensures (repo.items, ok) == CartaRecord.SyncRecord(src, old(repo.items), version, request, faults)
  {
    var slug := Trim(request);
    if slug == "" || faults.fetch {
      return false;
    }
    if slug !in src.get {
      if faults.softDelete {
        return false;
      }
      repo.SoftDelete(slug);
      return true;
    }
    var detail := src.get[slug];
    if detail.slug == "" || detail.name == "" || faults.upsert {
      return false;
    }
    repo.Upsert(version, detail);
    if detail.slug != slug && !faults.softDelete {
      repo.SoftDelete(slug);
    }
    return true;
  }
}
