/** Pages of the fused list: each page is a query of its own, ordered by (score descending, id). */
module SearchPages {
  import opened Wrappers
  import opened Fusion
  import Backoff

  // ---- The order ----

  /** `ORDER BY r.rrf_score DESC, ci.id`. */
  predicate Before(a: Scored, b: Scored) {
    a.score > b.score || (a.score == b.score && a.id < b.id)
  }

  /** What the database may return for the whole list: its rows, none behind one it should precede. */
  ghost predicate IsRanking(rows: seq<Scored>, ranked: seq<Scored>) {
    && multiset(ranked) == multiset(rows)
    && forall i, j :: 0 <= i < j < |ranked| ==> !Before(ranked[j], ranked[i])
  }

  /** The same with the order on the score alone. */
  ghost predicate IsScoreRanking(rows: seq<Scored>, ranked: seq<Scored>) {
    && multiset(ranked) == multiset(rows)
    && forall i, j :: 0 <= i < j < |ranked| ==> ranked[i].score >= ranked[j].score
  }

  lemma SameRows(rows: seq<Scored>, other: seq<Scored>)
    requires multiset(rows) == multiset(other)
    ensures |rows| == |other|
    ensures forall r :: r in rows <==> r in other
  {
    assert |multiset(rows)| == |rows| && |multiset(other)| == |other|;
    forall r
      ensures r in rows <==> r in other
    {
      assert r in rows <==> r in multiset(rows);
      assert r in other <==> r in multiset(other);
    }
  }

  lemma RestOfRows(rows: seq<Scored>, ranked: seq<Scored>)
    requires multiset(ranked) == multiset(rows) && ranked != []
    ensures multiset(ranked[1..]) == multiset(rows) - multiset{ranked[0]}
    ensures forall r :: r in ranked[1..] ==> r in rows
  {
    assert ranked == [ranked[0]] + ranked[1..];
    SameRows(ranked, rows);
  }

  /** Without two rows of one id, the order leaves the database no choice. */
  lemma {:induction false} RankingIsUnique(rows: seq<Scored>, ranked: seq<Scored>, other: seq<Scored>)
    requires IsRanking(rows, ranked) && IsRanking(rows, other)
    requires forall a, b :: a in rows && b in rows && a.id == b.id ==> a == b
    ensures ranked == other
    decreases |ranked|
  {
    SameRows(ranked, rows);
    SameRows(other, rows);
    if ranked != [] {
      FirstIsLeast(ranked, other[0]);
      FirstIsLeast(other, ranked[0]);
      RestOfRows(rows, ranked);
      RestOfRows(rows, other);
      RankingIsUnique(ranked[1..], ranked[1..], other[1..]);
    }
  }

  lemma FirstIsLeast(ranked: seq<Scored>, r: Scored)
    requires r in ranked && forall i, j :: 0 <= i < j < |ranked| ==> !Before(ranked[j], ranked[i])
    ensures !Before(r, ranked[0])
  {
    var i :| 0 <= i < |ranked| && ranked[i] == r;
  }

  /** The ranking of a list: each row put in its place. */
  function Put(row: Scored, ranked: seq<Scored>): seq<Scored> {
    if ranked == [] || Before(row, ranked[0]) then [row] + ranked else [ranked[0]] + Put(row, ranked[1..])
  }

  function Ranking(rows: seq<Scored>): seq<Scored> {
    if rows == [] then [] else Put(rows[0], Ranking(rows[1..]))
  }

  lemma {:induction false} PutKeepsRows(row: Scored, ranked: seq<Scored>)
    ensures multiset(Put(row, ranked)) == multiset(ranked) + multiset{row}
  {
    if ranked != [] && !Before(row, ranked[0]) {
      PutKeepsRows(row, ranked[1..]);
      assert ranked == [ranked[0]] + ranked[1..];
    }
  }

  predicate InOrder(ranked: seq<Scored>) {
    forall i, j :: 0 <= i < j < |ranked| ==> !Before(ranked[j], ranked[i])
  }

  lemma PutAfterFirst(row: Scored, ranked: seq<Scored>, r: Scored)
    requires ranked != [] && !Before(row, ranked[0]) && InOrder(ranked) && r in Put(row, ranked[1..])
    ensures !Before(r, ranked[0])
  {
    PutKeepsRows(row, ranked[1..]);
    assert r in multiset(Put(row, ranked[1..]));
    if r != row {
      assert r in multiset(ranked[1..]) && r in ranked;
      FirstIsLeast(ranked, r);
    }
  }

  lemma {:induction false} PutKeepsOrder(row: Scored, ranked: seq<Scored>)
    requires InOrder(ranked)
    ensures InOrder(Put(row, ranked))
  {
    if ranked != [] && !Before(row, ranked[0]) {
      var rest := Put(row, ranked[1..]);
      PutKeepsOrder(row, ranked[1..]);
      forall j | 0 <= j < |rest|
        ensures !Before(rest[j], ranked[0])
      {
        PutAfterFirst(row, ranked, rest[j]);
      }
    }
  }

  lemma {:induction false} RankingRanks(rows: seq<Scored>)
    ensures IsRanking(rows, Ranking(rows))
  {
    if rows != [] {
      RankingRanks(rows[1..]);
      PutKeepsRows(rows[0], Ranking(rows[1..]));
      PutKeepsOrder(rows[0], Ranking(rows[1..]));
      assert rows == [rows[0]] + rows[1..];
    }
  }

  // ---- Pages ----

  /** `LIMIT limit OFFSET offset`. */
  function Page(ranked: seq<Scored>, limit: nat, offset: nat): seq<Scored> {
    if offset >= |ranked| then []
    else if offset + limit >= |ranked| then ranked[offset..]
    else ranked[offset..offset + limit]
  }

  /** The first n pages, in a row; the query of page p sees the arrangement `arranged(p)`. */
  function Pages(arranged: nat -> seq<Scored>, perPage: nat, n: nat): seq<Scored> {
    if n == 0 then [] else Pages(arranged, perPage, n - 1) + Page(arranged(n - 1), perPage, (n - 1) * perPage)
  }

  /** Whatever the database returns to each of n page queries, they continue one another. */
  lemma PagesContinue(rows: seq<Scored>, arranged: nat -> seq<Scored>, perPage: nat, n: nat)
    requires forall a, b :: a in rows && b in rows && a.id == b.id ==> a == b
    requires forall p: nat :: p < n ==> IsRanking(rows, arranged(p))
    ensures Pages(arranged, perPage, n) == Page(Ranking(rows), n * perPage, 0)
  {
    forall p: nat | p < n
      ensures arranged(p) == Ranking(rows)
    {
      RankingRanks(rows);
      RankingIsUnique(rows, arranged(p), Ranking(rows));
    }
    SlicesContinue(Ranking(rows), arranged, perPage, n);
  }

  lemma {:induction false} SlicesContinue(ranked: seq<Scored>, arranged: nat -> seq<Scored>, perPage: nat, n: nat)
    requires forall p: nat :: p < n ==> arranged(p) == ranked
    ensures Pages(arranged, perPage, n) == Page(ranked, n * perPage, 0)
  {
    if n > 0 {
      SlicesContinue(ranked, arranged, perPage, n - 1);
      var offset := Reached(perPage, n);
      OnePageMore(ranked, perPage, offset);
    }
  }

  lemma Reached(perPage: nat, n: nat) returns (offset: nat)
    requires n > 0
    ensures offset == (n - 1) * perPage && offset + perPage == n * perPage
  {
    offset := (n - 1) * perPage;
  }

  lemma OnePageMore(ranked: seq<Scored>, perPage: nat, offset: nat)
    ensures Page(ranked, offset, 0) + Page(ranked, perPage, offset) == Page(ranked, offset + perPage, 0)
  {
  }

  /** With pages enough for the list, they hold every row once and no other. */
  lemma PagesPartition(rows: seq<Scored>, arranged: nat -> seq<Scored>, perPage: nat, n: nat)
    requires IdsDiffer(rows) && |rows| <= n * perPage
    requires forall p: nat :: p < n ==> IsRanking(rows, arranged(p))
    ensures multiset(Pages(arranged, perPage, n)) == multiset(rows)
    ensures IdsDiffer(Pages(arranged, perPage, n))
  {
    PagesContinue(rows, arranged, perPage, n);
    RankingRanks(rows);
    SameRows(Ranking(rows), rows);
    RankingIdsDiffer(rows, Ranking(rows));
  }

  lemma RankingIdsDiffer(rows: seq<Scored>, ranked: seq<Scored>)
    requires IdsDiffer(rows) && multiset(ranked) == multiset(rows)
    ensures IdsDiffer(ranked)
  {
    SameRows(rows, ranked);
    forall i, j | 0 <= i < j < |ranked|
      ensures ranked[i].id != ranked[j].id
    {
      if ranked[i].id == ranked[j].id {
        assert ranked[i] in rows && ranked[j] in rows;
        assert ranked[i] == ranked[j];
        TwiceInRanked(ranked, i, j);
        OnceInRows(rows, ranked[i]);
      }
    }
  }

  lemma TwiceInRanked(ranked: seq<Scored>, i: nat, j: nat)
    requires i < j < |ranked| && ranked[i] == ranked[j]
    ensures multiset(ranked)[ranked[i]] >= 2
  {
    assert ranked == ranked[..j] + [ranked[j]] + ranked[j + 1..];
    assert ranked[..j][i] == ranked[i];
  }

  lemma {:induction false} OnceInRows(rows: seq<Scored>, r: Scored)
    requires IdsDiffer(rows)
    ensures multiset(rows)[r] <= 1
  {
    if rows != [] {
      var last := |rows| - 1;
      OnceInRows(rows[..last], r);
      assert rows == rows[..last] + [rows[last]];
      if r == rows[last] {
        assert r !in rows[..last];
      }
    }
  }

  /** Place i of a page shows place offset + i of the list, if the list goes that far. */
  predicate ShowsFrom(page: seq<Scored>, list: seq<Scored>, limit: nat, offset: nat, i: nat) {
    && |page| <= limit
    && (i < |page| <==> offset + i < |list|)
    && (i < |page| ==> page[i] == list[offset + i])
  }

  lemma SliceShows(ranked: seq<Scored>, limit: nat, offset: nat, i: nat)
    requires i < limit
    ensures ShowsFrom(Page(ranked, limit, offset), ranked, limit, offset, i)
  {
  }

  /** Row by row, page p shows the ranking from row p * perPage on, and nothing past its end. */
  lemma PageShows(rows: seq<Scored>, arranged: seq<Scored>, perPage: nat, p: nat, i: nat)
    requires IdsDiffer(rows) && IsRanking(rows, arranged) && i < perPage
    ensures ShowsFrom(Page(arranged, perPage, p * perPage), Ranking(rows), perPage, p * perPage, i)
    ensures |Ranking(rows)| == |rows|
  {
    RankingRanks(rows);
    RankingIsUnique(rows, arranged, Ranking(rows));
    SameRows(arranged, rows);
    SliceShows(arranged, perPage, p * perPage, i);
  }

  /** Along the list scores never rise, and equal scores go by rising id. */
  lemma ScoresDescend(rows: seq<Scored>, i: nat, j: nat)
    requires IdsDiffer(rows) && i < j < |Ranking(rows)|
    ensures var a, b := Ranking(rows)[i], Ranking(rows)[j];
            a.score > b.score || (a.score == b.score && a.id < b.id)
  {
    RankingRanks(rows);
    RankingIdsDiffer(rows, Ranking(rows));
    assert !Before(Ranking(rows)[j], Ranking(rows)[i]);
  }

  /** The tie-break is needed: with the score alone, two pages can show one item twice and never show the other. */
  lemma ScoreAloneRepeatsItems()
    ensures exists rows: seq<Scored>, arranged: nat -> seq<Scored> ::
              && IdsDiffer(rows) && |rows| == 2
              && IsScoreRanking(rows, arranged(0)) && IsScoreRanking(rows, arranged(1))
              && Pages(arranged, 1, 2) == [rows[0], rows[0]]
  {
    var a, b := Scored(1, 0.5), Scored(2, 0.5);
    var rows, swapped := [a, b], [b, a];
    var arranged := (p: nat) => if p == 0 then rows else swapped;
    assert multiset(swapped) == multiset(rows);
    assert Pages(arranged, 1, 1) == [a];
    assert Pages(arranged, 1, 2) == [a, a];
  }

  // ---- The page query and the total ----

  datatype SearchError = QueryFailed | CountFailed

  /** One row of the page query: the item and `COUNT(*) OVER ()`. */
  datatype PageRow = PageRow(item: Scored, total: nat)

  /** The rows of the page query: the window count is taken before LIMIT and OFFSET. */
  function PageRows(ranked: seq<Scored>, limit: nat, offset: nat): seq<PageRow> {
    var page := Page(ranked, limit, offset);
    seq(|page|, i requires 0 <= i < |page| => PageRow(page[i], |ranked|))
  }

  /** `queryResults`: the items, and the total read with the last row; zero without rows. */
  method QueryResults(rows: seq<PageRow>) returns (results: seq<Scored>, total: nat)
    ensures |results| == |rows| && forall i :: 0 <= i < |rows| ==> results[i] == rows[i].item
    ensures total == if rows == [] then 0 else rows[|rows| - 1].total
  {
    results, total := [], 0;
    for n := 0 to |rows|
      invariant |results| == n && forall i :: 0 <= i < n ==> results[i] == rows[i].item
      invariant total == if n == 0 then 0 else rows[n - 1].total
    {
      results, total := results + [rows[n].item], rows[n].total;
    }
  }

  /**
    * `searchHybridPage`. `arranged` is what the database makes of the list for this query; a negative LIMIT
    * or OFFSET is an error of the query. An empty page past the start is counted apart.
    */
  method SearchHybridPage(
    rows: seq<Scored>, arranged: seq<Scored>, perPage: int, offset: int, queryFails: bool, countFails: bool)
    returns (r: Result<(seq<Scored>, nat), SearchError>)
    requires IdsDiffer(rows) && IsRanking(rows, arranged)
    ensures r == Err(QueryFailed) <==> queryFails || perPage < 0 || offset < 0
    ensures r == Err(CountFailed) <==>
            !queryFails && perPage >= 0 && offset > 0 && countFails && (perPage == 0 || offset >= |rows|)
    ensures r.Ok? ==> r.value.0 == Page(Ranking(rows), perPage, offset)
    ensures r.Ok? ==> (r.value.1 == |rows| <==> !(perPage == 0 && offset == 0 && rows != []))
  {
    if queryFails || perPage < 0 || offset < 0 {
      return Err(QueryFailed);
    }
    SameRows(arranged, rows);
    RankingRanks(rows);
    RankingIsUnique(rows, arranged, Ranking(rows));
    var results, total := QueryResults(PageRows(arranged, perPage, offset));
    assert results == Page(arranged, perPage, offset);
    if |results| > 0 || offset == 0 {
      return Ok((results, total));
    }
    if countFails {
      return Err(CountFailed);
    }
    return Ok((results, |rows|));
  }

  // ---- The request ----

  const DEFAULT_PER_PAGE := 10
  const MAX_PER_PAGE := 100

  predicate IsNormalized(page: int, perPage: int) {
    page >= 1 && 1 <= perPage <= 100
  }

  /** `Normalize`: a valid request is left alone, an invalid one becomes valid. */
  method Normalize(page: int, perPage: int) returns (p: int, pp: int)
    ensures IsNormalized(p, pp)
    ensures p == if page < 1 then 1 else page
    ensures 1 <= perPage <= 100 ==> pp == perPage
    ensures perPage < 1 ==> pp == 10
    ensures perPage > 100 ==> pp == 100
  {
    p, pp := page, perPage;
    if p < 1 {
      p := 1;
    }
    if pp < 1 {
      pp := DEFAULT_PER_PAGE;
    }
    if pp > MAX_PER_PAGE {
      pp := MAX_PER_PAGE;
    }
  }

  /** `(page - 1) * perPage` in 64 bits. */
  function Offset(page: int, perPage: int): int {
    Backoff.Wrap((page - 1) * perPage)
  }

  /** Where the page is meant to start. */
  function Start(page: int, perPage: int): nat
    requires IsNormalized(page, perPage)
  {
    (page - 1) * perPage
  }

  lemma OffsetIsStartIff(page: int, perPage: int)
    requires IsNormalized(page, perPage)
    ensures Offset(page, perPage) == Start(page, perPage) <==> Start(page, perPage) < Backoff.INT64_BOUND
  {
    WrapIsIdentityIff(Start(page, perPage));
  }

  lemma WrapIsIdentityIff(x: nat)
    ensures -Backoff.INT64_BOUND <= Backoff.Wrap(x) < Backoff.INT64_BOUND
    ensures Backoff.Wrap(x) == x <==> x < Backoff.INT64_BOUND
  {
  }

  /**
    * A page so far out that its start leaves 64 bits is still the empty page it should be exactly when the
    * start wraps to another place past the end; when it wraps below zero, the query is refused.
    */
  lemma FarPageIsMeantIff(ranked: seq<Scored>, page: int, perPage: int)
    requires IsNormalized(page, perPage) && |ranked| < Backoff.INT64_BOUND && Offset(page, perPage) >= 0
    ensures Page(ranked, perPage, Offset(page, perPage)) == Page(ranked, perPage, Start(page, perPage))
       <==> Start(page, perPage) < Backoff.INT64_BOUND || Offset(page, perPage) >= |ranked|
  {
    var offset, start := Offset(page, perPage), Start(page, perPage);
    OffsetIsStartIff(page, perPage);
    if start >= Backoff.INT64_BOUND && offset < |ranked| {
      assert Page(ranked, perPage, start) == [];
      assert |Page(ranked, perPage, offset)| > 0;
    }
  }

  /** Page 2^60 + 1 of size 16 shows page one again. */
  lemma FarPageShowsFirst(ranked: seq<Scored>)
    ensures Offset(0x1000_0000_0000_0001, 16) == 0
    ensures Page(ranked, 16, Offset(0x1000_0000_0000_0001, 16)) == Page(ranked, 16, Offset(1, 16))
  {
  }

  /** `SearchHybrid` of a normalised request: every answer carries the size of the whole list. */
  method SearchHybrid(
    rows: seq<Scored>, arranged: seq<Scored>, page: int, perPage: int, queryFails: bool, countFails: bool)
    returns (r: Result<(seq<Scored>, nat), SearchError>)
    requires IsNormalized(page, perPage) && IdsDiffer(rows) && IsRanking(rows, arranged)
    ensures r == Err(QueryFailed) <==> queryFails || Offset(page, perPage) < 0
    ensures r == Err(CountFailed) <==>
            !queryFails && countFails && Offset(page, perPage) > 0 && Offset(page, perPage) >= |rows|
    ensures r.Ok? ==> r.value.1 == |rows| && r.value.0 == Page(Ranking(rows), perPage, Offset(page, perPage))
    ensures r.Ok? && Start(page, perPage) < Backoff.INT64_BOUND ==>
              r.value.0 == Page(Ranking(rows), perPage, Start(page, perPage))
  {
    OffsetIsStartIff(page, perPage);
    r := SearchHybridPage(rows, arranged, perPage, Offset(page, perPage), queryFails, countFails);
  }
}
