/** `normalizeHomeFeatured`: the editorial list of the home page, without repeated slugs or positions. */
module HomeFeatured {
  import opened Strings

  /** `data` stands for the fields the normalisation copies. */
  datatype Featured = Featured(slug: string, position: int, data: string)

  /** The raw list with every slug trimmed. */
  function Cleaned(raw: seq<Featured>): (es: seq<Featured>)
    ensures |es| == |raw|
  {
    seq(|raw|, i requires 0 <= i < |raw| => raw[i].(slug := Trim(raw[i].slug)))
  }

  /** Entry i is not worse than entry j: another slug, a lower position, or the same position no later. */
  predicate NotWorse(es: seq<Featured>, i: nat, j: nat)
    requires i < |es| && j < |es|
  {
    || es[i].slug != es[j].slug
    || es[i].position < es[j].position
    || (es[i].position == es[j].position && i <= j)
  }

  /** Entry i is the first of the lowest position for its slug, among the first n. */
  ghost predicate IsBest(es: seq<Featured>, n: nat, i: nat) {
    n <= |es| && i < n && forall j :: 0 <= j < n ==> NotWorse(es, i, j)
  }

  /** Entry f is where its slug, not blank, is first seen. */
  ghost predicate IsFirst(es: seq<Featured>, f: nat) {
    f < |es| && es[f].slug != "" && forall j :: 0 <= j < f ==> es[j].slug != es[f].slug
  }

  ghost predicate Increasing(s: seq<nat>) {
    forall a, b :: 0 <= a < b < |s| ==> s[a] < s[b]
  }

  // ---- The first loop: one entry per slug ----

  /** `bySlug` holds the best entry of every slug of the first n entries; `best` says where it stands. */
  ghost predicate Collected(es: seq<Featured>, n: nat, bySlug: map<string, Featured>, best: map<string, nat>) {
    && n <= |es|
    && best.Keys == bySlug.Keys
    && "" !in bySlug
    && (forall j :: 0 <= j < n && es[j].slug != "" ==> es[j].slug in bySlug)
    && (forall s :: s in bySlug ==>
          IsBest(es, n, best[s]) && bySlug[s] == es[best[s]] && es[best[s]].slug == s)
  }

  /** `order` holds each slug of `bySlug` once, in the order they are first seen. */
  ghost predicate Ordered(es: seq<Featured>, bySlug: map<string, Featured>, order: seq<string>, first: seq<nat>) {
    && |first| == |order|
    && Increasing(first)
    && (forall k :: 0 <= k < |order| ==>
          IsFirst(es, first[k]) && es[first[k]].slug == order[k] && order[k] in bySlug)
    && (forall s :: s in bySlug ==> s in order)
  }

  method CollectBySlug(raw: seq<Featured>)
    returns (bySlug: map<string, Featured>, slugOrder: seq<string>, ghost best: map<string, nat>, ghost first: seq<nat>)
    ensures Collected(Cleaned(raw), |raw|, bySlug, best)
    ensures Ordered(Cleaned(raw), bySlug, slugOrder, first)
    ensures forall s :: s in bySlug ==> s in slugOrder && bySlug[s].slug == s && bySlug[s] in Cleaned(raw)
    ensures forall s :: s in slugOrder ==> s in bySlug
  {
    bySlug, slugOrder, best, first := map[], [], map[], [];
    ghost var es := Cleaned(raw);
    for n := 0 to |raw|
      invariant Collected(es, n, bySlug, best)
      invariant Ordered(es, bySlug, slugOrder, first)
      invariant forall k :: 0 <= k < |first| ==> first[k] < n
    {
      var item := raw[n].(slug := Trim(raw[n].slug));
      assert item == es[n];
      if item.slug == "" {
        SkipBlank(es, n, bySlug, best);
        continue;
      }
      if item.slug !in bySlug {
        AddSlug(es, n, bySlug, best);
        AppendSlug(es, n, bySlug, best, slugOrder, first);
        bySlug, best := bySlug[item.slug := item], best[item.slug := n];
        slugOrder, first := slugOrder + [item.slug], first + [n];
        continue;
      }
      if item.position < bySlug[item.slug].position {
        BetterSlug(es, n, bySlug, best);
        bySlug, best := bySlug[item.slug := item], best[item.slug := n];
      } else {
        KeepSlug(es, n, bySlug, best);
      }
    }
  }

  lemma SkipBlank(es: seq<Featured>, n: nat, bySlug: map<string, Featured>, best: map<string, nat>)
    requires n < |es| && Collected(es, n, bySlug, best) && es[n].slug == ""
    ensures Collected(es, n + 1, bySlug, best)
  {
  }

  lemma AddSlug(es: seq<Featured>, n: nat, bySlug: map<string, Featured>, best: map<string, nat>)
    requires n < |es| && Collected(es, n, bySlug, best) && es[n].slug != "" && es[n].slug !in bySlug
    ensures Collected(es, n + 1, bySlug[es[n].slug := es[n]], best[es[n].slug := n])
  {
  }

  lemma AppendSlug(es: seq<Featured>, n: nat, bySlug: map<string, Featured>, best: map<string, nat>, order: seq<string>,
                   first: seq<nat>)
    requires n < |es| && Collected(es, n, bySlug, best) && es[n].slug != "" && es[n].slug !in bySlug
    requires Ordered(es, bySlug, order, first) && forall k :: 0 <= k < |first| ==> first[k] < n
    ensures Ordered(es, bySlug[es[n].slug := es[n]], order + [es[n].slug], first + [n])
  {
  }

  lemma BetterSlug(es: seq<Featured>, n: nat, bySlug: map<string, Featured>, best: map<string, nat>)
    requires n < |es| && Collected(es, n, bySlug, best) && es[n].slug in bySlug
    requires es[n].position < bySlug[es[n].slug].position
    ensures Collected(es, n + 1, bySlug[es[n].slug := es[n]], best[es[n].slug := n])
  {
    forall s | s in bySlug && s != es[n].slug
      ensures IsBest(es, n + 1, best[s])
    {
    }
    var b := best[es[n].slug];
    forall j | 0 <= j < n + 1
      ensures NotWorse(es, n, j)
    {
      if j < n {
        assert NotWorse(es, b, j);
      }
    }
    assert IsBest(es, n + 1, n);
  }

  lemma KeepSlug(es: seq<Featured>, n: nat, bySlug: map<string, Featured>, best: map<string, nat>)
    requires n < |es| && Collected(es, n, bySlug, best) && es[n].slug in bySlug
    requires es[n].position >= bySlug[es[n].slug].position
    ensures Collected(es, n + 1, bySlug, best)
  {
  }

  // ---- The second loop: one entry per position ----

  /** Item a is the best entry of its slug; it stands at `from` in the list, and its slug is first seen at `seen`. */
  ghost predicate IsItem(es: seq<Featured>, item: Featured, from: nat, seen: nat) {
    IsBest(es, |es|, from) && IsFirst(es, seen) && item == es[from] && es[seen].slug == item.slug
  }

  /** The best entry of the slug first seen at f has its place taken by an item whose slug is seen earlier. */
  ghost predicate PlaceTaken(items: seq<Featured>, seen: seq<nat>, f: nat, position: int) {
    exists a :: 0 <= a < |items| && a < |seen| && seen[a] < f && items[a].position == position
  }

  /** The slug first seen at f is kept, or the position of its best entry belongs to an item kept before it. */
  ghost predicate IsSettled(es: seq<Featured>, items: seq<Featured>, seen: seq<nat>, f: nat) {
    f < |es| && (f in seen || forall i: nat :: IsBest(es, |es|, i) && es[i].slug == es[f].slug ==>
                                PlaceTaken(items, seen, f, es[i].position))
  }

  /** What both the list under construction and the finished one satisfy. */
  ghost predicate AreItems(es: seq<Featured>, items: seq<Featured>, from: seq<nat>, seen: seq<nat>) {
    && |items| == |from| == |seen|
    && (forall a :: 0 <= a < |items| ==> IsItem(es, items[a], from[a], seen[a]))
    && Increasing(seen)
    && (forall a, b :: 0 <= a < b < |items| ==> items[a].position != items[b].position)
  }

  /**
    * What the normalised list is: best entries, in first-seen order of their slugs, with no slug and no
    * position twice, and a slug left out only for an earlier item that holds its position.
    */
  ghost predicate IsNormalized(es: seq<Featured>, items: seq<Featured>, from: seq<nat>, seen: seq<nat>) {
    AreItems(es, items, from, seen) && forall f: nat :: IsFirst(es, f) ==> IsSettled(es, items, seen, f)
  }

  /** After the first n slugs of the order. */
  ghost predicate SettledUpTo(es: seq<Featured>, items: seq<Featured>, seen: seq<nat>, first: seq<nat>, n: nat) {
    && n <= |first|
    && (forall k :: 0 <= k < n ==> IsSettled(es, items, seen, first[k]))
    && (forall a, k :: 0 <= a < |seen| && n <= k < |first| ==> seen[a] < first[k])
  }

  predicate HasPosition(items: seq<Featured>, position: int) {
    exists a :: 0 <= a < |items| && items[a].position == position
  }

  method NormalizeHomeFeatured(raw: seq<Featured>)
    returns (items: seq<Featured>, ghost from: seq<nat>, ghost seen: seq<nat>)
    ensures IsNormalized(Cleaned(raw), items, from, seen)
    ensures forall a, b :: 0 <= a < b < |items| ==> items[a].slug != items[b].slug
  {
    var bySlug, slugOrder;
    ghost var best, first;
    bySlug, slugOrder, best, first := CollectBySlug(raw);
    ghost var es := Cleaned(raw);
    items, from, seen := [], [], [];
    var seenPos: set<int> := {};
    for n := 0 to |slugOrder|
      invariant AreItems(es, items, from, seen)
      invariant SettledUpTo(es, items, seen, first, n)
      invariant forall p :: p in seenPos <==> HasPosition(items, p)
    {
      var item := bySlug[slugOrder[n]];
      ghost var f, i := first[n], best[slugOrder[n]];
      assert IsItem(es, item, i, f);
      if item.position in seenPos {
        LeaveItem(es, items, from, seen, first, n, i);
        continue;
      }
      KeepItem(es, items, from, seen, first, n, item, i);
      OneMorePosition(items, item);
      seenPos := seenPos + {item.position};
      items, from, seen := items + [item], from + [i], seen + [f];
    }
    forall f: nat | IsFirst(es, f)
      ensures IsSettled(es, items, seen, f)
    {
      FirstIsListed(es, bySlug, best, slugOrder, first, f);
    }
    SlugsAreDistinct(es, items, from, seen);
  }

  lemma OneMorePosition(items: seq<Featured>, item: Featured)
    ensures forall p :: HasPosition(items + [item], p) <==> HasPosition(items, p) || p == item.position
  {
    forall p
      ensures HasPosition(items + [item], p) <==> HasPosition(items, p) || p == item.position
    {
      if HasPosition(items, p) {
        var a :| 0 <= a < |items| && items[a].position == p;
        assert (items + [item])[a] == items[a];
      }
      assert (items + [item])[|items|] == item;
    }
  }

  /** The best entry of a slug is one entry. */
  lemma BestIsUnique(es: seq<Featured>, i: nat, j: nat)
    requires IsBest(es, |es|, i) && IsBest(es, |es|, j) && es[i].slug == es[j].slug
    ensures i == j
  {
    assert NotWorse(es, i, j) && NotWorse(es, j, i);
  }

  lemma LeaveItem(es: seq<Featured>, items: seq<Featured>, from: seq<nat>, seen: seq<nat>, first: seq<nat>, n: nat,
                  best: nat)
    requires AreItems(es, items, from, seen) && n < |first| && SettledUpTo(es, items, seen, first, n)
    requires IsFirst(es, first[n]) && IsBest(es, |es|, best) && es[best].slug == es[first[n]].slug
    requires HasPosition(items, es[best].position)
    ensures SettledUpTo(es, items, seen, first, n + 1)
  {
    var f := first[n];
    forall i: nat | IsBest(es, |es|, i) && es[i].slug == es[f].slug
      ensures PlaceTaken(items, seen, f, es[i].position)
    {
      BestIsUnique(es, i, best);
    }
    assert IsSettled(es, items, seen, f);
  }

  lemma KeepItem(es: seq<Featured>, items: seq<Featured>, from: seq<nat>, seen: seq<nat>, first: seq<nat>, n: nat,
                 item: Featured, i: nat)
    requires AreItems(es, items, from, seen) && n < |first| && SettledUpTo(es, items, seen, first, n)
    requires IsItem(es, item, i, first[n]) && Increasing(first) && !HasPosition(items, item.position)
    ensures AreItems(es, items + [item], from + [i], seen + [first[n]])
    ensures SettledUpTo(es, items + [item], seen + [first[n]], first, n + 1)
  {
    var seen' := seen + [first[n]];
    forall k | 0 <= k < n
      ensures IsSettled(es, items + [item], seen', first[k])
    {
      StillSettled(es, items, seen, item, first[n], first[k]);
    }
    assert seen'[|seen|] == first[n];
    assert IsSettled(es, items + [item], seen', first[n]);
  }

  lemma StillSettled(es: seq<Featured>, items: seq<Featured>, seen: seq<nat>, item: Featured, f: nat, earlier: nat)
    requires |items| == |seen| && IsSettled(es, items, seen, earlier)
    ensures IsSettled(es, items + [item], seen + [f], earlier)
  {
    forall p | PlaceTaken(items, seen, earlier, p)
      ensures PlaceTaken(items + [item], seen + [f], earlier, p)
    {
      var a :| 0 <= a < |items| && a < |seen| && seen[a] < earlier && items[a].position == p;
      assert (items + [item])[a] == items[a] && (seen + [f])[a] == seen[a];
    }
  }

  lemma FirstIsListed(es: seq<Featured>, bySlug: map<string, Featured>, best: map<string, nat>, order: seq<string>,
                      first: seq<nat>, f: nat)
    requires Collected(es, |es|, bySlug, best) && Ordered(es, bySlug, order, first) && IsFirst(es, f)
    ensures exists k :: 0 <= k < |first| && first[k] == f
  {
  }

  lemma SlugsAreDistinct(es: seq<Featured>, items: seq<Featured>, from: seq<nat>, seen: seq<nat>)
    requires AreItems(es, items, from, seen)
    ensures forall a, b :: 0 <= a < b < |items| ==> items[a].slug != items[b].slug
  {
  }

  // ---- The list is determined, and normalising it again changes nothing ----

  /** There is one normalised list: whatever satisfies the contract is what the code returns. */
  lemma NormalizationIsUnique(es: seq<Featured>, items: seq<Featured>, from: seq<nat>, seen: seq<nat>,
                              items': seq<Featured>, from': seq<nat>, seen': seq<nat>)
    requires IsNormalized(es, items, from, seen) && IsNormalized(es, items', from', seen')
    ensures items == items'
  {
    AgreeUpTo(es, items, from, seen, items', from', seen', |items|);
    AgreeUpTo(es, items', from', seen', items, from, seen, |items'|);
  }

  ghost predicate Agree(items: seq<Featured>, seen: seq<nat>, items': seq<Featured>, seen': seq<nat>, n: nat) {
    && n <= |items| && n <= |seen| && n <= |items'| && n <= |seen'|
    && forall a :: 0 <= a < n ==> seen[a] == seen'[a] && items[a] == items'[a]
  }

  lemma {:induction false} AgreeUpTo(es: seq<Featured>, items: seq<Featured>, from: seq<nat>, seen: seq<nat>,
                                     items': seq<Featured>, from': seq<nat>, seen': seq<nat>, n: nat)
    requires IsNormalized(es, items, from, seen) && IsNormalized(es, items', from', seen')
    requires n <= |items|
    ensures Agree(items, seen, items', seen', n)
  {
    if n > 0 {
      AgreeUpTo(es, items, from, seen, items', from', seen', n - 1);
      AgreeOneMore(es, items, from, seen, items', from', seen', n - 1);
    }
  }

  lemma AgreeOneMore(es: seq<Featured>, items: seq<Featured>, from: seq<nat>, seen: seq<nat>,
                     items': seq<Featured>, from': seq<nat>, seen': seq<nat>, n: nat)
    requires IsNormalized(es, items, from, seen) && IsNormalized(es, items', from', seen')
    requires n < |items| && Agree(items, seen, items', seen', n)
    ensures Agree(items, seen, items', seen', n + 1)
  {
    NextIsSame(es, items, from, seen, items', from', seen', n);
    assert IsItem(es, items[n], from[n], seen[n]) && IsItem(es, items'[n], from'[n], seen'[n]);
    SameItem(es, items[n], from[n], items'[n], from'[n], seen[n]);
  }

  lemma NextIsSame(es: seq<Featured>, items: seq<Featured>, from: seq<nat>, seen: seq<nat>,
                   items': seq<Featured>, from': seq<nat>, seen': seq<nat>, n: nat)
    requires IsNormalized(es, items, from, seen) && IsNormalized(es, items', from', seen')
    requires n < |items| && Agree(items, seen, items', seen', n)
    ensures n < |items'| && n < |seen| && n < |seen'| && seen'[n] == seen[n]
  {
    NextIsForced(es, items, from, seen, items', from', seen', n);
    NextIsForced(es, items', from', seen', items, from, seen, n);
  }

  lemma SameItem(es: seq<Featured>, item: Featured, from: nat, item': Featured, from': nat, seen: nat)
    requires IsItem(es, item, from, seen) && IsItem(es, item', from', seen)
    ensures item == item'
  {
    BestIsUnique(es, from, from');
  }

  /** A second list that agrees up to n cannot skip what the first one keeps next. */
  lemma NextIsForced(es: seq<Featured>, items: seq<Featured>, from: seq<nat>, seen: seq<nat>,
                     items': seq<Featured>, from': seq<nat>, seen': seq<nat>, n: nat)
    requires IsNormalized(es, items, from, seen) && IsNormalized(es, items', from', seen')
    requires n < |items| && Agree(items, seen, items', seen', n)
    ensures n < |items'| && seen'[n] <= seen[n]
  {
    var f := seen[n];
    assert IsItem(es, items[n], from[n], f) && IsSettled(es, items', seen', f);
    if a :| n <= a < |seen'| && seen'[a] < f {
      assert seen'[n] <= seen'[a];
    } else {
      assert !PlaceTaken(items', seen', f, es[from[n]].position);
      var b :| 0 <= b < |seen'| && seen'[b] == f;
      assert b >= n;
    }
  }

  /** Normalising a normalised list returns it. */
  lemma NormalizingAgain(raw: seq<Featured>, items: seq<Featured>, from: seq<nat>, seen: seq<nat>,
                         again: seq<Featured>, from': seq<nat>, seen': seq<nat>)
    requires IsNormalized(Cleaned(raw), items, from, seen)
    requires IsNormalized(Cleaned(items), again, from', seen')
    ensures again == items
  {
    forall a | 0 <= a < |items|
      ensures Cleaned(items)[a] == items[a] && items[a].slug != ""
    {
      assert IsItem(Cleaned(raw), items[a], from[a], seen[a]);
      TrimIsTrimmed(raw[from[a]].slug);
      TrimIsTrimmed(items[a].slug);
    }
    assert Cleaned(items) == items;
    var self := seq(|items|, a requires 0 <= a < |items| => a);
    SlugsAreDistinct(Cleaned(raw), items, from, seen);
    NormalizedIsItsOwn(items, self);
    NormalizationIsUnique(items, items, self, self, again, from', seen');
  }

  lemma NormalizedIsItsOwn(items: seq<Featured>, self: seq<nat>)
    requires |self| == |items| && forall a :: 0 <= a < |items| ==> self[a] == a && items[a].slug != ""
    requires forall a, b :: 0 <= a < b < |items| ==>
               items[a].slug != items[b].slug && items[a].position != items[b].position
    ensures IsNormalized(items, items, self, self)
  {
  }
}
