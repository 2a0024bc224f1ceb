/**
 `SyncRecord`, what a webhook event asks for: one service is fetched and written under its
 canonical slug, and the slug it was asked for, if another, is taken out of the catalog.
 */
module CartaRecord {
  import opened Strings
  import opened CartaSync
  import opened CartaTheorems

  /** What goes wrong; `fetch` is any failure but the answer that there is no such service. */
  datatype RecordFaults = RecordFaults(fetch: bool, upsert: bool, softDelete: bool)

  function NoRecordFaults(): RecordFaults {
    RecordFaults(false, false, false)
  }

  function SoftDelete(t: Table, slug: string): Table {
    if slug in t then t[slug := t[slug].(deleted := true, status := Inactive)] else t
  }

  /** The table afterwards, and whether the call returned without error. */
  function SyncRecord(src: Source, t: Table, version: nat, request: string, faults: RecordFaults): (Table, bool) {
    var slug := Trim(request);
    if slug == "" || faults.fetch then (t, false)
    else if slug !in src.get then (if faults.softDelete then t else SoftDelete(t, slug), !faults.softDelete)
    else
      var d := src.get[slug];
      if !IsMappable(d) || faults.upsert then (t, false)
      else
        var written := t[d.slug := RowOf(version, d)];
        (if d.slug == slug || faults.softDelete then written else SoftDelete(written, slug), true)
  }

  /**
   When it succeeds: the slug is not blank, the API answers, and either there is no such service and
   the old row is hidden, or there is one, with a slug and a name, and it is written.
   */
  lemma RecordSucceedsIff(src: Source, t: Table, version: nat, request: string, faults: RecordFaults)
    ensures SyncRecord(src, t, version, request, faults).1 <==>
              && Trim(request) != "" && !faults.fetch
              && if Trim(request) !in src.get then !faults.softDelete
                 else src.get[Trim(request)].slug != "" && src.get[Trim(request)].name != "" && !faults.upsert
  {
  }

  /**
   A call that fails changes nothing; one that succeeds leaves the service's own row under its
   canonical slug, hides a slug that is not canonical or no longer leads anywhere, and touches no other row.
   */
  lemma RecordEffect(src: Source, t: Table, version: nat, request: string, faults: RecordFaults, x: string)
    ensures var slug := Trim(request);
            var (after, ok) := SyncRecord(src, t, version, request, faults);
            && (!ok ==> after == t)
            && (ok && slug in src.get ==>
                  && src.get[slug].slug in after
                  && after[src.get[slug].slug] == Row(Mapped(version, src.get[slug]), src.get[slug].status, false)
                  && (src.get[slug].slug != slug && !faults.softDelete ==> !IsVisible(after, slug)))
            && (ok && slug !in src.get ==> !IsVisible(after, slug))
            && (x != slug && !(slug in src.get && x == src.get[slug].slug) ==>
                  (x in after <==> x in t) && (x in t ==> after[x] == t[x]))
  {
  }

  /** An event may be processed again: while the source stands still, a second call changes nothing more. */
  lemma RecordIsIdempotent(src: Source, t: Table, version: nat, request: string, faults: RecordFaults)
    requires SyncRecord(src, t, version, request, NoRecordFaults()).1
    ensures var (once, _) := SyncRecord(src, t, version, request, NoRecordFaults());
            && SyncRecord(src, once, version, request, NoRecordFaults()) == (once, true)
            && (forall faults :: SyncRecord(src, once, version, request, faults).0 == once)
            && var cut := SyncRecord(src, t, version, request, faults).0;
               SyncRecord(src, cut, version, request, NoRecordFaults()).0 == once
  {
    var slug := Trim(request);
    var (once, _) := SyncRecord(src, t, version, request, NoRecordFaults());
    var partial := SyncRecord(src, t, version, request, faults).0;
    var again := SyncRecord(src, partial, version, request, NoRecordFaults()).0;
    assert again == once;
    if slug in src.get {
      assert once[src.get[slug].slug := RowOf(version, src.get[slug])] == once;
    }
    assert SoftDelete(once, slug) == once || (slug in src.get && src.get[slug].slug == slug);
  }

  /** No call, however it ends, makes a listed row disagree with the source. */
  lemma RecordKeepsAgreement(src: Source, t: Table, version: nat, request: string, faults: RecordFaults, slug: string)
    requires IsCoherent(src) && RowAgrees(src, t, version, slug)
    ensures RowAgrees(src, SyncRecord(src, t, version, request, faults).0, version, slug)
  {
    RecordEffect(src, t, version, request, faults, slug);
  }

  /** After a successful call for a service under its own slug, its row agrees, whatever was there before. */
  lemma RecordMakesAgree(src: Source, t: Table, version: nat, request: string, faults: RecordFaults)
    requires Trim(request) in src.get && SyncRecord(src, t, version, request, faults).1
    requires IsCoherent(src) && src.get[Trim(request)].slug in src.get
    requires src.get[src.get[Trim(request)].slug].slug == src.get[Trim(request)].slug
    ensures RowAgrees(src, SyncRecord(src, t, version, request, faults).0, version, src.get[Trim(request)].slug)
  {
    RecordEffect(src, t, version, request, faults, "");
  }
}
