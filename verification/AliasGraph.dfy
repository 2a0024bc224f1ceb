/**
 The redirect table `old slug -> canonical slug`, which must never loop.

 `UpsertSlugAlias` is two statements, an insert and a delete, and any number of workers
 run them interleaved. The invariant looks at the table without the out-edges of the
 canonicals whose second statement is still to come.
 */
module AliasGraph {
  import opened Sets
  import opened Wrappers
  import opened Strings

  type Aliases = map<string, string>

  /** Where `n` redirects lead from `slug`; None once there is no alias left to follow. */
  function Follow(g: Aliases, slug: string, n: nat): Option<string>
    decreases n
  {
    if n == 0 then Some(slug)
    else if slug in g then Follow(g, g[slug], n - 1)
    else None
  }

  /** No slug is redirected back to itself. */
  ghost predicate Acyclic(g: Aliases) {
    forall slug, n: nat :: n > 0 ==> Follow(g, slug, n) != Some(slug)
  }

  lemma {:induction false} FollowAdds(g: Aliases, slug: string, m: nat, n: nat)
    ensures Follow(g, slug, m + n) ==
            match Follow(g, slug, m) case Some(mid) => Follow(g, mid, n) case None => None
    decreases m
  {
    if m > 0 && slug in g {
      FollowAdds(g, g[slug], m - 1, n);
    }
  }

  /** Everything a walk of n hops leaves from has an alias. */
  lemma FollowsThroughAliases(g: Aliases, slug: string, n: nat, k: nat)
    requires k < n && Follow(g, slug, n).Some?
    ensures Follow(g, slug, k).Some? && Follow(g, slug, k).value in g
    ensures Follow(g, slug, k + 1) == Some(g[Follow(g, slug, k).value])
  {
    FollowAdds(g, slug, k, n - k);
    FollowAdds(g, slug, k, 1);
    if Follow(g, slug, k).Some? {
      var mid := Follow(g, slug, k).value;
      assert Follow(g, mid, n - k).Some?;
      if mid in g {
        assert Follow(g, mid, 1) == Follow(g, g[mid], 0);
      }
    }
  }

  /** A table whose walk uses only aliases of another table has the same walk there. */
  lemma {:induction false} WalkCarriesOver(g: Aliases, h: Aliases, slug: string, n: nat)
    requires Follow(g, slug, n).Some?
    requires forall k: nat :: k < n && Follow(g, slug, k).Some? ==>
               Follow(g, slug, k).value in g && Follow(g, slug, k).value in h
               && g[Follow(g, slug, k).value] == h[Follow(g, slug, k).value]
    ensures Follow(h, slug, n) == Follow(g, slug, n)
    decreases n
  {
    if n > 0 {
      FollowsThroughAliases(g, slug, n, n - 1);
      WalkCarriesOver(g, h, slug, n - 1);
      FollowAdds(h, slug, n - 1, 1);
      var last := Follow(g, slug, n - 1).value;
      assert Follow(h, last, 1) == Follow(h, h[last], 0);
    }
  }

  /** Dropping aliases makes no loop. */
  lemma SmallerIsAcyclic(g: Aliases, h: Aliases)
    requires Acyclic(g) && h.Keys <= g.Keys && forall x :: x in h ==> h[x] == g[x]
    ensures Acyclic(h)
  {
    forall slug, n: nat | n > 0
      ensures Follow(h, slug, n) != Some(slug)
    {
      if Follow(h, slug, n) == Some(slug) {
        forall k: nat | k < n && Follow(h, slug, k).Some?
          ensures Follow(h, slug, k).value in h
        {
          FollowsThroughAliases(h, slug, n, k);
        }
        WalkCarriesOver(h, g, slug, n);
      }
    }
  }

  /** On a loop, every slug reached has an alias. */
  lemma LoopStaysInside(g: Aliases, slug: string, n: nat, k: nat)
    requires n > 0 && k <= n && Follow(g, slug, n) == Some(slug)
    ensures Follow(g, slug, k).Some? && Follow(g, slug, k).value in g
  {
    if k < n {
      FollowsThroughAliases(g, slug, n, k);
    } else {
      FollowsThroughAliases(g, slug, n, 0);
    }
  }

  /** Pointing any slug at one that has no alias makes no loop. */
  lemma PointingAtEndIsAcyclic(g: Aliases, old_: string, canonical: string)
    requires Acyclic(g) && canonical !in g && old_ != canonical
    ensures Acyclic(g[old_ := canonical])
  {
    var h := g[old_ := canonical];
    forall slug, n: nat | n > 0
      ensures Follow(h, slug, n) != Some(slug)
    {
      if Follow(h, slug, n) == Some(slug) {
        forall k: nat | k < n && Follow(h, slug, k).Some?
          ensures Follow(h, slug, k).value in h && Follow(h, slug, k).value in g
          ensures h[Follow(h, slug, k).value] == g[Follow(h, slug, k).value]
        {
          LoopStaysInside(h, slug, n, k);
          LoopStaysInside(h, slug, n, k + 1);
          FollowsThroughAliases(h, slug, n, k);
        }
        WalkCarriesOver(h, g, slug, n);
      }
    }
  }

  /** Once the new alias leads back to `old_`, the old table already did, from its canonical. */
  lemma {:induction false} WayBackIsOld(g: Aliases, old_: string, canonical: string, m: nat)
    requires Follow(g[old_ := canonical], canonical, m) == Some(old_)
    ensures exists n: nat :: Follow(g, canonical, n) == Some(old_)
  {
    var h := g[old_ := canonical];
    if k: nat :| k < m && Follow(h, canonical, k) == Some(old_) {
      WayBackIsOld(g, old_, canonical, k);
    } else {
      forall k: nat | k < m
        ensures Follow(h, canonical, k).Some?
        ensures Follow(h, canonical, k).value in h && Follow(h, canonical, k).value in g
      {
        FollowsThroughAliases(h, canonical, m, k);
      }
      WalkCarriesOver(h, g, canonical, m);
    }
  }

  /** A loop can be entered at any of its slugs. */
  lemma {:induction false} LoopTurns(h: Aliases, slug: string, n: nat, k: nat, x: string)
    requires Follow(h, slug, n) == Some(slug) && k <= n && Follow(h, slug, k) == Some(x)
    ensures Follow(h, x, n) == Some(x)
  {
    FollowAdds(h, slug, k, n - k);
    FollowAdds(h, x, n - k, k);
  }

  /** A loop that the new alias makes runs through it. */
  lemma NewLoopUsesAlias(g: Aliases, old_: string, canonical: string, slug: string, n: nat) returns (k: nat)
    requires Acyclic(g) && n > 0 && Follow(g[old_ := canonical], slug, n) == Some(slug)
    ensures k < n && Follow(g[old_ := canonical], slug, k) == Some(old_)
  {
    var h := g[old_ := canonical];
    if j: nat :| j < n && Follow(h, slug, j) == Some(old_) {
      k := j;
    } else {
      forall j: nat | j < n
        ensures Follow(h, slug, j).Some? && Follow(h, slug, j).value in h && Follow(h, slug, j).value in g
      {
        LoopStaysInside(h, slug, n, j);
      }
      WalkCarriesOver(h, g, slug, n);
      assert false;
    }
  }

  /**
   What the first statement of an upsert may do: it leaves the table without loops exactly when
   the canonical does not already lead to the old slug.
   */
  lemma InsertIsSafeIff(g: Aliases, old_: string, canonical: string)
    requires Acyclic(g) && old_ != canonical
    ensures Acyclic(g[old_ := canonical]) <==> forall n: nat :: Follow(g, canonical, n) != Some(old_)
  {
    var h := g[old_ := canonical];
    if n: nat :| Follow(g, canonical, n) == Some(old_) {
      forall k: nat | k < n
        ensures Follow(g, canonical, k).Some? && Follow(g, canonical, k).value in g
        ensures Follow(g, canonical, k) != Some(old_)
      {
        FollowsThroughAliases(g, canonical, n, k);
        FollowAdds(g, canonical, k, n - k);
      }
      WalkCarriesOver(g, h, canonical, n);
      assert Follow(h, old_, n + 1) == Follow(h, canonical, n);
    }
    if slug, n: nat :| n > 0 && Follow(h, slug, n) == Some(slug) {
      var k := NewLoopUsesAlias(g, old_, canonical, slug, n);
      LoopTurns(h, slug, n, k, old_);
      assert Follow(h, old_, n) == Follow(h, canonical, n - 1);
      WayBackIsOld(g, old_, canonical, n - 1);
    }
  }

  // ---- Statements and workers ----

  function Inserted(g: Aliases, old_: string, canonical: string): Aliases {
    g[old_ := canonical]
  }

  function Deleted(g: Aliases, slug: string): Aliases {
    g - {slug}
  }

  /** The table, and for each worker between its two statements the canonical it still has to delete. */
  datatype State = State(aliases: Aliases, halfDone: map<nat, string>)

  datatype Action =
    | Insert(worker: nat, old_: string, canonical: string)
    | Finish(worker: nat)
    | Delete(slug: string)

  /** A worker inserts when it is idle, and only the upserts that pass the checks of UpsertSlugAlias. */
  predicate Enabled(s: State, a: Action) {
    match a
    case Insert(w, old_, canonical) =>
      && w !in s.halfDone
      && IsTrimmed(old_) && IsTrimmed(canonical)
      && old_ != "" && canonical != "" && old_ != canonical
    case Finish(w) => w in s.halfDone
    case Delete(_) => true
  }

  function Step(s: State, a: Action): State {
    if !Enabled(s, a) then s else
    match a
    case Insert(w, old_, canonical) => State(Inserted(s.aliases, old_, canonical), s.halfDone[w := canonical])
    case Finish(w) => State(Deleted(s.aliases, s.halfDone[w]), s.halfDone - {w})
    case Delete(slug) => s.(aliases := Deleted(s.aliases, slug))
  }

  /** Slug by slug, what each statement does to the table, and which second statements are still to come. */
  lemma StatementEffect(s: State, a: Action, x: string)
    ensures var s' := Step(s, a);
            && (!Enabled(s, a) ==> s' == s)
            && (a.Insert? && Enabled(s, a) ==>
                  && (x == a.old_ ==> x in s'.aliases && s'.aliases[x] == a.canonical)
                  && (x != a.old_ ==> (x in s'.aliases <==> x in s.aliases))
                  && (x != a.old_ && x in s.aliases ==> s'.aliases[x] == s.aliases[x])
                  && a.worker in s'.halfDone && s'.halfDone[a.worker] == a.canonical)
            && (!a.Insert? && Enabled(s, a) ==>
                  var gone := if a.Delete? then a.slug else s.halfDone[a.worker];
                  && (x in s'.aliases <==> x in s.aliases && x != gone)
                  && (x in s'.aliases ==> s'.aliases[x] == s.aliases[x]))
            && (a.Finish? ==> a.worker !in s'.halfDone)
  {
  }

  function Run(s: State, actions: seq<Action>): State
    decreases |actions|
  {
    if actions == [] then s else Run(Step(s, actions[0]), actions[1..])
  }

  /** The table without the out-edges of the canonicals of half-done upserts. */
  function Settled(s: State): Aliases {
    s.aliases - s.halfDone.Values
  }

  lemma StepKeepsSettledAcyclic(s: State, a: Action)
    requires Acyclic(Settled(s))
    ensures Acyclic(Settled(Step(s, a)))
  {
    var s' := Step(s, a);
    if a.Insert? && Enabled(s, a) {
      assert s'.halfDone[a.worker] == a.canonical;
      assert s.halfDone.Values <= s'.halfDone.Values by {
        forall v | v in s.halfDone.Values
          ensures v in s'.halfDone.Values
        {
          var w :| w in s.halfDone && s.halfDone[w] == v;
          assert s'.halfDone[w] == v;
        }
      }
      var rest := Settled(s) - {a.canonical};
      SmallerIsAcyclic(Settled(s), rest);
      PointingAtEndIsAcyclic(rest, a.old_, a.canonical);
      SmallerIsAcyclic(rest[a.old_ := a.canonical], Settled(s'));
    } else if a.Finish? && Enabled(s, a) {
      var canonical := s.halfDone[a.worker];
      forall v | v in s.halfDone.Values && v != canonical
        ensures v in s'.halfDone.Values
      {
        var w :| w in s.halfDone && s.halfDone[w] == v;
        assert s'.halfDone[w] == v;
      }
      SmallerIsAcyclic(Settled(s), Settled(s'));
    } else {
      SmallerIsAcyclic(Settled(s), Settled(s'));
    }
  }

  /**
   In every interleaving of any number of upserts and deletes, started on a table that does
   not loop, the table without the out-edges of the half-done canonicals never loops.
   */
  lemma {:induction false} SettledNeverLoops(s: State, actions: seq<Action>)
    requires Acyclic(Settled(s))
    ensures Acyclic(Settled(Run(s, actions)))
    decreases |actions|
  {
    if actions != [] {
      StepKeepsSettledAcyclic(s, actions[0]);
      SettledNeverLoops(Step(s, actions[0]), actions[1..]);
    }
  }

  /** The stored canonicals have no surrounding space. */
  predicate AllTrimmed(g: Aliases) {
    forall x :: x in g ==> IsTrimmed(g[x])
  }

  lemma {:induction false} RunKeepsTrimmed(s: State, actions: seq<Action>)
    requires AllTrimmed(s.aliases)
    ensures AllTrimmed(Run(s, actions).aliases)
    decreases |actions|
  {
    if actions != [] {
      RunKeepsTrimmed(Step(s, actions[0]), actions[1..]);
    }
  }

  /**
   So the whole table is free of loops whenever no half-done canonical has an alias: no upsert is
   half done, or what the missing second statements would delete is already gone.
   */
  lemma QuietTableNeverLoops(g: Aliases, actions: seq<Action>)
    requires Acyclic(g) && AllTrimmed(g)
    ensures var s := Run(State(g, map[]), actions);
            (forall canonical :: canonical in s.halfDone.Values ==> canonical !in s.aliases)
            ==> Acyclic(s.aliases) && AllTrimmed(s.aliases)
  {
    var s := Run(State(g, map[]), actions);
    RunKeepsTrimmed(State(g, map[]), actions);
    SmallerIsAcyclic(g, Settled(State(g, map[])));
    SettledNeverLoops(State(g, map[]), actions);
    if forall canonical :: canonical in s.halfDone.Values ==> canonical !in s.aliases {
      assert Settled(s) == s.aliases;
    }
  }

  /** At any moment, a loop passes through the canonical of some half-done upsert. */
  lemma LoopsPassThroughHalfDone(g: Aliases, actions: seq<Action>, slug: string, n: nat)
    requires Acyclic(g) && n > 0
    requires Follow(Run(State(g, map[]), actions).aliases, slug, n) == Some(slug)
    ensures var s := Run(State(g, map[]), actions);
            exists k: nat :: k < n && Follow(s.aliases, slug, k).Some?
                             && Follow(s.aliases, slug, k).value in s.halfDone.Values
  {
    var s := Run(State(g, map[]), actions);
    SmallerIsAcyclic(g, Settled(State(g, map[])));
    SettledNeverLoops(State(g, map[]), actions);
    if forall k: nat :: k < n && Follow(s.aliases, slug, k).Some? ==>
         Follow(s.aliases, slug, k).value !in s.halfDone.Values
    {
      forall k: nat | k < n && Follow(s.aliases, slug, k).Some?
        ensures Follow(s.aliases, slug, k).value in s.aliases
      {
        LoopStaysInside(s.aliases, slug, n, k);
      }
      WalkCarriesOver(s.aliases, Settled(s), slug, n);
      assert false;
    }
  }

  /** And the table has a loop exactly when the canonical of a half-done upsert leads back to itself. */
  lemma LoopsStartAtHalfDoneIff(g: Aliases, actions: seq<Action>)
    requires Acyclic(g)
    ensures var s := Run(State(g, map[]), actions);
            Acyclic(s.aliases) <==>
              forall canonical, n: nat :: canonical in s.halfDone.Values && n > 0 ==>
                Follow(s.aliases, canonical, n) != Some(canonical)
  {
    var s := Run(State(g, map[]), actions);
    if slug, n: nat :| n > 0 && Follow(s.aliases, slug, n) == Some(slug) {
      LoopsPassThroughHalfDone(g, actions, slug, n);
      var k: nat :| k < n && Follow(s.aliases, slug, k).Some? && Follow(s.aliases, slug, k).value in s.halfDone.Values;
      LoopTurns(s.aliases, slug, n, k, Follow(s.aliases, slug, k).value);
    }
  }

  /** A worker that stops between its statements can leave a loop behind. */
  lemma HalfDoneCanLoop(a: string, b: string)
    requires a != "" && b != "" && a != b && IsTrimmed(a) && IsTrimmed(b)
    ensures Acyclic(map[a := b])
    ensures var s := Run(State(map[a := b], map[]), [Insert(0, b, a)]);
            s.halfDone.Keys == {0} && Follow(s.aliases, a, 2) == Some(a)
  {
  }

  // ---- Redirects terminate ----

  ghost function Visited(g: Aliases, slug: string, n: nat): set<string> {
    set k: nat | k < n && Follow(g, slug, k).Some? :: Follow(g, slug, k).value
  }

  lemma NoSlugTwice(g: Aliases, slug: string, k: nat, m: nat)
    requires Acyclic(g) && k < m && Follow(g, slug, m).Some?
    ensures Follow(g, slug, k) != Follow(g, slug, m)
  {
    FollowAdds(g, slug, k, m - k);
  }

  lemma {:induction false} VisitedGrows(g: Aliases, slug: string, n: nat)
    requires Acyclic(g) && Follow(g, slug, n).Some?
    ensures |Visited(g, slug, n)| == n
    ensures Visited(g, slug, n) <= g.Keys
    decreases n
  {
    if n == 0 {
      assert Visited(g, slug, 0) == {};
    } else {
      FollowsThroughAliases(g, slug, n, n - 1);
      VisitedGrows(g, slug, n - 1);
      var last := Follow(g, slug, n - 1).value;
      forall k: nat | k < n - 1
        ensures Follow(g, slug, k) != Some(last)
      {
        NoSlugTwice(g, slug, k, n - 1);
      }
      assert Visited(g, slug, n) == Visited(g, slug, n - 1) + {last};
    }
  }

  /** In a table that does not loop, a chain of redirects is no longer than the table. */
  lemma RedirectsTerminate(g: Aliases, slug: string, n: nat)
    requires Acyclic(g) && Follow(g, slug, n).Some?
    ensures n <= |g|
  {
    VisitedGrows(g, slug, n);
    SubsetSize(Visited(g, slug, n), g.Keys);
    assert |g.Keys| == |g|;
  }

  /** What `GetServiceDetail` answers. */
  datatype Answer = Detail(slug: string) | RedirectTo(slug: string) | NotFound | BlankSlug

  function ServiceAnswer(active: set<string>, g: Aliases, request: string): Answer {
    var slug := Trim(request);
    if slug == "" then BlankSlug
    else if slug in active then Detail(slug)
    else if slug in g && g[slug] != "" && g[slug] != slug then RedirectTo(g[slug])
    else NotFound
  }

  /**
   A published service is answered as it is, whatever aliases there are; otherwise one alias is
   followed, unless it is blank or leads to the slug itself.
   */
  lemma AnswerMeans(active: set<string>, g: Aliases, request: string, x: string)
    ensures var slug, answer := Trim(request), ServiceAnswer(active, g, request);
            && (answer == BlankSlug <==> slug == "")
            && (answer == Detail(x) <==> x == slug && slug != "" && slug in active)
            && (answer == RedirectTo(x) <==>
                  slug != "" && slug !in active && Follow(g, slug, 1) == Some(x) && x != "" && x != slug)
            && (answer == NotFound <==>
                  slug != "" && slug !in active && Follow(g, slug, 1) in {None, Some(""), Some(slug)})
  {
    var slug := Trim(request);
    if slug in g {
      assert Follow(g, slug, 1) == Follow(g, g[slug], 0);
    }
  }

  /** A client that asks again at each redirect it gets, ends at a service if the chain leads to a published slug. */
  method FollowRedirects(active: set<string>, g: Aliases, request: string)
    returns (answer: Answer, hops: nat, ghost last: string)
    requires Acyclic(g) && AllTrimmed(g)
    ensures hops <= |g| && Follow(g, Trim(request), hops) == Some(last)
    ensures forall k: nat :: k < hops ==>
              Follow(g, Trim(request), k).Some? && Follow(g, Trim(request), k).value !in active
    ensures answer == BlankSlug <==> Trim(request) == ""
    ensures answer == Detail(last) <==> Trim(request) != "" && last in active
    ensures answer == NotFound <==> Trim(request) != "" && last !in active
    ensures answer == NotFound ==> Follow(g, last, 1) in {None, Some("")}
  {
    ghost var start := Trim(request);
    last := start;
    hops := 0;
    TrimIsTrimmed(start);
    TrimIsTrimmed(request);
    answer := ServiceAnswer(active, g, request);
    assert answer == ServiceAnswer(active, g, start);
    RedirectsTerminate(g, start, 0);
    while answer.RedirectTo?
      invariant Follow(g, start, hops) == Some(last) && IsTrimmed(last)
      invariant answer == ServiceAnswer(active, g, last)
      invariant last == "" <==> start == ""
      invariant forall k: nat :: k < hops ==> Follow(g, start, k).Some? && Follow(g, start, k).value !in active
      invariant hops <= |g|
      decreases |g| - hops
    {
      TrimIsTrimmed(last);
      FollowAdds(g, start, hops, 1);
      assert Follow(g, last, 1) == Follow(g, g[last], 0);
      last := g[last];
      hops := hops + 1;
      RedirectsTerminate(g, start, hops);
      answer := ServiceAnswer(active, g, answer.slug);
    }
    TrimIsTrimmed(last);
    AnswerMeans(active, g, last, last);
    if answer == NotFound {
      assert Follow(g, last, 0) == Some(last) && Follow(g, last, 1) != Some(last);
    }
  }

  // ---- The repository's functions, run alone ----

  /** The table after `olds` have become aliases of `canonical`, which itself is none. */
  function Promoted(g: Aliases, canonical: string, olds: set<string>): Aliases {
    map x | x in (g.Keys + olds) - {canonical} :: if x in olds then canonical else g[x]
  }

  /** Read back: each old slug is one hop from the canonical, which leads nowhere; the rest is as it was. */
  lemma PromotedSlugsResolve(g: Aliases, canonical: string, olds: set<string>, slug: string)
    ensures Follow(Promoted(g, canonical, olds), slug, 1) ==
            if slug == canonical then None else if slug in olds then Some(canonical) else Follow(g, slug, 1)
  {
    var h := Promoted(g, canonical, olds);
    if slug in h {
      assert Follow(h, slug, 1) == Follow(h, h[slug], 0);
    }
    if slug in g {
      assert Follow(g, slug, 1) == Follow(g, g[slug], 0);
    }
  }

  /** The slugs a history list names, blanks aside. */
  function Names(olds: seq<string>): set<string> {
    (set o | o in olds :: Trim(o)) - {""}
  }

  lemma NamesOneMore(olds: seq<string>, i: nat)
    requires i < |olds|
    ensures Names(olds[..i + 1]) == Names(olds[..i]) + (if Trim(olds[i]) == "" then {} else {Trim(olds[i])})
  {
  }

  lemma PromotedOneMore(g: Aliases, h: Aliases, canonical: string, done: set<string>, o: string)
    requires h - {canonical} == Promoted(g, canonical, done) && o != canonical
    ensures Promoted(h, canonical, {o}) == Promoted(g, canonical, done + {o})
  {
    var p := Promoted(g, canonical, done);
    forall x: string | x != canonical
      ensures x in h <==> x in g || x in done
      ensures x in h ==> h[x] == if x in done then canonical else g[x]
    {
      assert x in h <==> x in h - {canonical};
      assert x in p <==> x in g || x in done;
    }
  }

  lemma OwnNameChangesNothing(g: Aliases, canonical: string, olds: set<string>)
    ensures Promoted(g, canonical, olds + {canonical}) == Promoted(g, canonical, olds)
  {
  }

  lemma NewAliasSet(g: Aliases, h: Aliases, h': Aliases, canonical: string, done: set<string>, o: string)
    requires h - {canonical} == Promoted(g, canonical, done) && o != canonical && h' == Promoted(h, canonical, {o})
    ensures h' - {canonical} == Promoted(g, canonical, done + {o})
  {
    PromotedOneMore(g, h, canonical, done, o);
    assert h' - {canonical} == h';
  }

  /** One round of the loop below. */
  lemma PromotedRound(g: Aliases, h: Aliases, h': Aliases, canonical: string, olds: seq<string>, i: nat)
    requires i < |olds| && h - {canonical} == Promoted(g, canonical, Names(olds[..i]))
    requires var o := Trim(olds[i]);
             h' == if o == "" || o == canonical then h else Promoted(h, canonical, {o})
    ensures h' - {canonical} == Promoted(g, canonical, Names(olds[..i + 1]))
  {
    var o, done := Trim(olds[i]), Names(olds[..i]);
    NamesOneMore(olds, i);
    if o != "" && o != canonical {
      NewAliasSet(g, h, h', canonical, done, o);
    } else {
      OwnNameChangesNothing(g, canonical, done);
      assert done + {} == done;
    }
  }

  class AliasTable {
    var aliases: Aliases

    constructor ()
      ensures aliases == map[]
    {
      aliases := map[];
    }

    method DeleteSlugAlias(slug: string)
      modifies this
      ensures aliases == if Trim(slug) == "" then old(aliases) else old(aliases) - {Trim(slug)}
    {
      var s := Trim(slug);
      if s == "" {
        return;
      }
      aliases := Deleted(aliases, s);
    }

    /** One hop from the trimmed slug; a blank answer means there is nowhere to go. */
    method ResolveSlugAlias(slug: string) returns (canonical: string)
      ensures canonical != "" ==> Trim(slug) != "" && Follow(aliases, Trim(slug), 1) == Some(canonical)
      ensures canonical == "" && Trim(slug) != "" ==> Follow(aliases, Trim(slug), 1) in {None, Some("")}
    {
      var s := Trim(slug);
      if s == "" || s !in aliases {
        return "";
      }
      canonical := aliases[s];
    }

    /** `active` are the slugs of the published services. */
    method GetServiceDetail(active: set<string>, request: string) returns (answer: Answer)
      ensures answer == ServiceAnswer(active, aliases, request)
      ensures answer == BlankSlug <==> Trim(request) == ""
      ensures forall x :: answer == Detail(x) <==> x == Trim(request) && x != "" && x in active
      ensures forall x :: answer == RedirectTo(x) <==>
                && Trim(request) != "" && Trim(request) !in active
                && Follow(aliases, Trim(request), 1) == Some(x) && x != "" && x != Trim(request)
    {
      forall x {
        AnswerMeans(active, aliases, request, x);
      }
      var slug := Trim(request);
      if slug == "" {
        return BlankSlug;
      }
      if slug in active {
        return Detail(slug);
      }
      var canonical := ResolveSlugAlias(slug);
      TrimIsTrimmed(request);
      TrimIsTrimmed(slug);
      assert Follow(aliases, slug, 1) == if slug in aliases then Some(aliases[slug]) else None by {
        assert slug in aliases ==> Follow(aliases, slug, 1) == Follow(aliases, aliases[slug], 0);
      }
      if canonical != "" && canonical != slug {
        return RedirectTo(canonical);
      }
      return NotFound;
    }

    /** The mapping is in place, the canonical redirects nowhere, the rest is as it was. */
    method UpsertSlugAlias(oldSlug: string, canonicalSlug: string)
      modifies this
      ensures var o, c := Trim(oldSlug), Trim(canonicalSlug);
              aliases == if o == "" || c == "" || o == c then old(aliases) else Promoted(old(aliases), c, {o})
      ensures old(Acyclic(aliases)) ==> Acyclic(aliases)
    {
      var o, c := Trim(oldSlug), Trim(canonicalSlug);
      if o == "" || c == "" || o == c {
        return;
      }
      ghost var before := aliases;
      aliases := Inserted(aliases, o, c);
      TrimIsTrimmed(canonicalSlug);
      TrimIsTrimmed(c);
      DeleteSlugAlias(c);
      assert aliases == Promoted(before, c, {o});
      if Acyclic(before) {
        SmallerIsAcyclic(before, before - {c});
        PointingAtEndIsAcyclic(before - {c}, o, c);
        assert aliases == (before - {c})[o := c];
      }
    }

    /** Every other old slug of the list now redirects to the canonical, in one hop. */
    method UpsertSlugAliases(canonicalSlug: string, oldSlugs: seq<string>)
      modifies this
      ensures var c := Trim(canonicalSlug);
              aliases == if c == "" then old(aliases)
                         else Promoted(old(aliases), c, Names(oldSlugs))
      ensures var c := Trim(canonicalSlug);
              c != "" ==> c !in aliases && forall i :: 0 <= i < |oldSlugs| && Trim(oldSlugs[i]) !in {"", c} ==>
                                             Trim(oldSlugs[i]) in aliases && aliases[Trim(oldSlugs[i])] == c
      ensures old(Acyclic(aliases)) ==> Acyclic(aliases)
    {
      var c := Trim(canonicalSlug);
      if c == "" {
        return;
      }
      TrimIsTrimmed(canonicalSlug);
      TrimIsTrimmed(c);
      ghost var start, wasAcyclic := aliases, Acyclic(aliases);
      for i := 0 to |oldSlugs|
        invariant aliases - {c} == Promoted(start, c, Names(oldSlugs[..i]))
        invariant wasAcyclic ==> Acyclic(aliases)
      {
        ghost var before := aliases;
        UpsertSlugAlias(oldSlugs[i], c);
        PromotedRound(start, before, aliases, c, oldSlugs, i);
      }
      assert oldSlugs[..|oldSlugs|] == oldSlugs;
      if wasAcyclic {
        SmallerIsAcyclic(aliases, aliases - {c});
      }
      DeleteSlugAlias(c);
    }
  }
}
