/** Hybrid search: ranked lists fused by full outer joins (reciprocal rank fusion). */
module Fusion {
  import opened Wrappers

  // ---- FULL OUTER JOIN on equality of keys that are never NULL ----

  datatype Pair<L, R> = Pair(left: Option<L>, right: Option<R>)

  /** The joined rows of l: one for each matching row on the right. */
  function Matching<L, R>(l: L, right: seq<R>, kl: L -> nat, kr: R -> nat): seq<Pair<L, R>> {
    if right == [] then []
    else
      Matching(l, right[..|right| - 1], kl, kr)
      + if kl(l) == kr(right[|right| - 1]) then [Pair(Some(l), Some(right[|right| - 1]))] else []
  }

  /** A left row without a match stays, with NULLs on the right. */
  function RowsOf<L, R>(l: L, right: seq<R>, kl: L -> nat, kr: R -> nat): seq<Pair<L, R>> {
    if Matching(l, right, kl, kr) == [] then [Pair(Some(l), None)] else Matching(l, right, kl, kr)
  }

  function LeftRows<L, R>(left: seq<L>, right: seq<R>, kl: L -> nat, kr: R -> nat): seq<Pair<L, R>> {
    if left == [] then []
    else LeftRows(left[..|left| - 1], right, kl, kr) + RowsOf(left[|left| - 1], right, kl, kr)
  }

  /** The right rows without a match, with NULLs on the left. */
  function RightRows<L, R>(left: seq<L>, right: seq<R>, kl: L -> nat, kr: R -> nat): seq<Pair<L, R>> {
    if right == [] then []
    else
      RightRows(left, right[..|right| - 1], kl, kr)
      + if exists i :: 0 <= i < |left| && kl(left[i]) == kr(right[|right| - 1]) then []
        else [Pair(None, Some(right[|right| - 1]))]
  }

  function FullJoin<L, R>(left: seq<L>, right: seq<R>, kl: L -> nat, kr: R -> nat): seq<Pair<L, R>> {
    LeftRows(left, right, kl, kr) + RightRows(left, right, kl, kr)
  }

  /** COALESCE of the two keys; 0 for the row of NULLs, which a join never makes. */
  function Key<L, R>(p: Pair<L, R>, kl: L -> nat, kr: R -> nat): nat {
    if p.left.Some? then kl(p.left.value) else if p.right.Some? then kr(p.right.value) else 0
  }

  ghost predicate KeysDiffer<T>(s: seq<T>, k: T -> nat) {
    forall i, j :: 0 <= i < j < |s| ==> k(s[i]) != k(s[j])
  }

  /** The row with that key, if any. */
  function Lookup<T>(s: seq<T>, k: T -> nat, id: nat): (r: Option<T>)
    ensures r.Some? ==> k(r.value) == id && r.value in s
  {
    if s == [] then None
    else if k(s[|s| - 1]) == id then Some(s[|s| - 1])
    else Lookup(s[..|s| - 1], k, id)
  }

  lemma {:induction false} AbsentKey<T>(s: seq<T>, k: T -> nat, id: nat)
    requires forall i :: 0 <= i < |s| ==> k(s[i]) != id
    ensures Lookup(s, k, id) == None
  {
  }

  lemma {:induction false} LookupFinds<T>(s: seq<T>, k: T -> nat, i: nat)
    requires KeysDiffer(s, k) && i < |s|
    ensures Lookup(s, k, k(s[i])) == Some(s[i])
  {
    if i < |s| - 1 {
      LookupFinds(s[..|s| - 1], k, i);
    }
  }

  lemma {:induction false} MatchingIsLookup<L, R>(l: L, right: seq<R>, kl: L -> nat, kr: R -> nat)
    requires KeysDiffer(right, kr)
    ensures var r := Lookup(right, kr, kl(l));
            Matching(l, right, kl, kr) == if r.Some? then [Pair(Some(l), r)] else []
  {
    if right != [] {
      var rest := right[..|right| - 1];
      MatchingIsLookup(l, rest, kl, kr);
      if kl(l) == kr(right[|right| - 1]) {
        AbsentKey(rest, kr, kl(l));
      }
    }
  }

  lemma LastLeftRow<L, R>(left: seq<L>, right: seq<R>, kl: L -> nat, kr: R -> nat)
    requires KeysDiffer(right, kr) && left != []
    ensures var before, l := left[..|left| - 1], left[|left| - 1];
            LeftRows(left, right, kl, kr)
            == LeftRows(before, right, kl, kr) + [Pair(Some(l), Lookup(right, kr, kl(l)))]
  {
    MatchingIsLookup(left[|left| - 1], right, kl, kr);
  }

  ghost predicate AreLeftRows<L, R>(
    rows: seq<Pair<L, R>>, left: seq<L>, right: seq<R>, kl: L -> nat, kr: R -> nat)
  {
    |rows| == |left| &&
    forall i :: 0 <= i < |left| ==> rows[i] == Pair(Some(left[i]), Lookup(right, kr, kl(left[i])))
  }

  lemma OneLeftRowMore<L, R>(
    rows: seq<Pair<L, R>>, before: seq<L>, l: L, right: seq<R>, kl: L -> nat, kr: R -> nat)
    requires AreLeftRows(rows, before, right, kl, kr)
    ensures AreLeftRows(rows + [Pair(Some(l), Lookup(right, kr, kl(l)))], before + [l], right, kl, kr)
  {
  }

  lemma {:induction false} LeftRowsAre<L, R>(left: seq<L>, right: seq<R>, kl: L -> nat, kr: R -> nat)
    requires KeysDiffer(right, kr)
    ensures AreLeftRows(LeftRows(left, right, kl, kr), left, right, kl, kr)
  {
    if left != [] {
      var before, l := left[..|left| - 1], left[|left| - 1];
      LeftRowsAre(before, right, kl, kr);
      LastLeftRow(left, right, kl, kr);
      OneLeftRowMore(LeftRows(before, right, kl, kr), before, l, right, kl, kr);
      assert left == before + [l];
    }
  }

  /** Row p is what the join makes of its key: whatever each side has under it. */
  ghost predicate IsJoinOf<L, R>(p: Pair<L, R>, left: seq<L>, right: seq<R>, kl: L -> nat, kr: R -> nat) {
    && (p.left.Some? || p.right.Some?)
    && p.left == Lookup(left, kl, Key(p, kl, kr))
    && p.right == Lookup(right, kr, Key(p, kl, kr))
  }

  /** A row of the right side without a match, and where it comes from. */
  lemma {:induction false} RightRowIs<L, R>(
    left: seq<L>, right: seq<R>, kl: L -> nat, kr: R -> nat, n: nat, p: Pair<L, R>)
    returns (i: nat)
    requires KeysDiffer(right, kr) && n <= |right| && p in RightRows(left, right[..n], kl, kr)
    ensures i < n && p == Pair(None, Some(right[i])) && IsJoinOf(p, left, right, kl, kr)
  {
    assert n > 0;
    assert right[..n][..n - 1] == right[..n - 1];
    if p in RightRows(left, right[..n - 1], kl, kr) {
      i := RightRowIs(left, right, kl, kr, n - 1, p);
    } else {
      i := n - 1;
      LookupFinds(right, kr, i);
      AbsentKey(left, kl, kr(right[i]));
    }
  }

  lemma {:induction false} RightKeysDiffer<L, R>(left: seq<L>, right: seq<R>, kl: L -> nat, kr: R -> nat, n: nat)
    requires KeysDiffer(right, kr) && n <= |right|
    ensures KeysDiffer(RightRows(left, right[..n], kl, kr), p => Key(p, kl, kr))
  {
    if n > 0 {
      RightKeysDiffer(left, right, kl, kr, n - 1);
      assert right[..n][..n - 1] == right[..n - 1];
      var before, rows := RightRows(left, right[..n - 1], kl, kr), RightRows(left, right[..n], kl, kr);
      forall a, b | 0 <= a < b < |rows|
        ensures Key(rows[a], kl, kr) != Key(rows[b], kl, kr)
      {
        if b == |before| {
          var i := RightRowIs(left, right, kl, kr, n - 1, before[a]);
        } else {
          var k := (p: Pair<L, R>) => Key(p, kl, kr);
          assert k(before[a]) != k(before[b]);
        }
      }
    }
  }

  lemma {:induction false} UnmatchedStays<L, R>(left: seq<L>, right: seq<R>, kl: L -> nat, kr: R -> nat, i: nat)
    requires i < |right| && forall l :: l in left ==> kl(l) != kr(right[i])
    ensures Pair(None, Some(right[i])) in RightRows(left, right, kl, kr)
  {
    if i < |right| - 1 {
      UnmatchedStays(left, right[..|right| - 1], kl, kr, i);
    }
  }

  /** Every joined row holds, under its key, exactly what each side has there. */
  lemma JoinRowsAre<L, R>(left: seq<L>, right: seq<R>, kl: L -> nat, kr: R -> nat, p: Pair<L, R>)
    requires KeysDiffer(left, kl) && KeysDiffer(right, kr) && p in FullJoin(left, right, kl, kr)
    ensures IsJoinOf(p, left, right, kl, kr)
  {
    if p in LeftRows(left, right, kl, kr) {
      LeftRowsAre(left, right, kl, kr);
      var i :| 0 <= i < |left| && p == LeftRows(left, right, kl, kr)[i];
      LookupFinds(left, kl, i);
    } else {
      assert right[..|right|] == right;
      var i := RightRowIs(left, right, kl, kr, |right|, p);
    }
  }

  /** No key comes out twice, so a join can be joined again by its key. */
  lemma JoinKeysDiffer<L, R>(left: seq<L>, right: seq<R>, kl: L -> nat, kr: R -> nat)
    requires KeysDiffer(left, kl) && KeysDiffer(right, kr)
    ensures KeysDiffer(FullJoin(left, right, kl, kr), p => Key(p, kl, kr))
  {
    var lefts, rights := LeftRows(left, right, kl, kr), RightRows(left, right, kl, kr);
    assert right[..|right|] == right;
    LeftRowsAre(left, right, kl, kr);
    RightKeysDiffer(left, right, kl, kr, |right|);
    forall i, j | 0 <= i < |lefts| && 0 <= j < |rights|
      ensures Key(lefts[i], kl, kr) != Key(rights[j], kl, kr)
    {
      LookupFinds(left, kl, i);
      var at := RightRowIs(left, right, kl, kr, |right|, rights[j]);
    }
  }

  /** Every key of either side comes out. */
  lemma JoinIsFull<L, R>(left: seq<L>, right: seq<R>, kl: L -> nat, kr: R -> nat, id: nat)
    requires KeysDiffer(left, kl) && KeysDiffer(right, kr)
    requires Lookup(left, kl, id).Some? || Lookup(right, kr, id).Some?
    ensures exists p :: p in FullJoin(left, right, kl, kr) && Key(p, kl, kr) == id
  {
    LeftRowsAre(left, right, kl, kr);
    if l :| l in left && kl(l) == id {
      var i :| 0 <= i < |left| && left[i] == l;
      assert LeftRows(left, right, kl, kr)[i] in FullJoin(left, right, kl, kr);
    } else {
      var r := Lookup(right, kr, id).value;
      var i :| 0 <= i < |right| && right[i] == r;
      UnmatchedStays(left, right, kl, kr, i);
      assert Pair(None, Some(r)) in FullJoin(left, right, kl, kr);
    }
  }

  // ---- The fused list ----

  /** `LIMIT 50` of each list. */
  const CAP := 50

  /** A row of a list: an item and its ROW_NUMBER. */
  datatype Ranked = Ranked(id: nat, rn: nat)

  /** The first 50 items of a ranked list, with their row numbers. */
  function Capped(list: seq<nat>): (rows: seq<Ranked>)
    ensures |rows| == if |list| <= CAP then |list| else CAP
    ensures forall i :: 0 <= i < |rows| ==> rows[i] == Ranked(list[i], i + 1)
  {
    seq(if |list| <= CAP then |list| else CAP, i requires 0 <= i < |list| => Ranked(list[i], i + 1))
  }

  ghost predicate NoRepeats(list: seq<nat>) {
    forall i, j :: 0 <= i < j < |list| ==> list[i] != list[j]
  }

  datatype Scored = Scored(id: nat, score: real)

  /** COALESCE(1.0 / (60.0 + rn), 0.0) * weight. */
  function Term(row: Option<Ranked>, weight: real): real {
    if row.Some? then weight / (60.0 + row.value.rn as real) else 0.0
  }

  function IdOf(r: Ranked): nat { r.id }

  type Two = Pair<Ranked, Ranked>

  function IdOfTwo(p: Two): nat { Key(p, IdOf, IdOf) }

  type Three = Pair<Two, Ranked>

  function IdOfThree(p: Three): nat { Key(p, IdOfTwo, IdOf) }

  function JoinTwo(fts: seq<nat>, sem: seq<nat>): seq<Two> {
    FullJoin(Capped(fts), Capped(sem), IdOf, IdOf)
  }

  function JoinThree(fts: seq<nat>, sem: seq<nat>, hyde: seq<nat>): seq<Three> {
    FullJoin(JoinTwo(fts, sem), Capped(hyde), IdOfTwo, IdOf)
  }

  function ScoreTwo(p: Two): real {
    Term(p.left, 1.0) + Term(p.right, 2.0)
  }

  /** With the pair NULL, both its columns are. */
  function ScoreThree(p: Three): real {
    (if p.left.Some? then ScoreTwo(p.left.value) else 0.0) + Term(p.right, 1.5)
  }

  /** The list of `SearchHybrid`. */
  function Hybrid(fts: seq<nat>, sem: seq<nat>): seq<Scored> {
    var rows := JoinTwo(fts, sem);
    seq(|rows|, i requires 0 <= i < |rows| => Scored(IdOfTwo(rows[i]), ScoreTwo(rows[i])))
  }

  /** The list of `SearchHybridWithHyDE`. */
  function HybridWithHyde(fts: seq<nat>, sem: seq<nat>, hyde: seq<nat>): seq<Scored> {
    var rows := JoinThree(fts, sem, hyde);
    seq(|rows|, i requires 0 <= i < |rows| => Scored(IdOfThree(rows[i]), ScoreThree(rows[i])))
  }

  // ---- What the score is meant to be ----

  /** The place of an item in a list, if it is among the first 50. */
  ghost predicate IsAt(list: seq<nat>, id: nat, i: nat) {
    i < |list| && i < 50 && list[i] == id
  }

  ghost predicate Occurs(list: seq<nat>, id: nat) {
    exists i: nat :: IsAt(list, id, i)
  }

  /** What a list gives to an item: weight / (60 + rank), or nothing. */
  ghost function Share(list: seq<nat>, weight: real, id: nat): real {
    if i: nat :| IsAt(list, id, i) then weight / (61.0 + i as real) else 0.0
  }

  lemma TermIsShare(list: seq<nat>, weight: real, id: nat)
    requires NoRepeats(list)
    ensures Term(Lookup(Capped(list), IdOf, id), weight) == Share(list, weight, id)
    ensures Lookup(Capped(list), IdOf, id).Some? <==> Occurs(list, id)
    ensures KeysDiffer(Capped(list), IdOf)
  {
    var rows := Capped(list);
    if i: nat :| IsAt(list, id, i) {
      assert rows[i] == Ranked(id, i + 1);
      LookupFinds(rows, IdOf, i);
    } else {
      forall i | 0 <= i < |rows|
        ensures IdOf(rows[i]) != id
      {
        assert !IsAt(list, id, i);
      }
      AbsentKey(rows, IdOf, id);
    }
  }

  ghost predicate IdsDiffer(rows: seq<Scored>) {
    forall i, j :: 0 <= i < j < |rows| ==> rows[i].id != rows[j].id
  }

  ghost predicate HasId(rows: seq<Scored>, id: nat) {
    exists i :: 0 <= i < |rows| && rows[i].id == id
  }

  /** Two lists: one row for each item of either, scored by the sum of its shares. */
  lemma HybridIsFusion(fts: seq<nat>, sem: seq<nat>)
    requires NoRepeats(fts) && NoRepeats(sem)
    ensures IdsDiffer(Hybrid(fts, sem))
    ensures forall id :: HasId(Hybrid(fts, sem), id) <==> Occurs(fts, id) || Occurs(sem, id)
    ensures forall row :: row in Hybrid(fts, sem) ==>
              row.score == Share(fts, 1.0, row.id) + Share(sem, 2.0, row.id)
  {
    var rows, fused := JoinTwo(fts, sem), Hybrid(fts, sem);
    TermIsShare(fts, 1.0, 0);
    TermIsShare(sem, 2.0, 0);
    JoinKeysDiffer(Capped(fts), Capped(sem), IdOf, IdOf);
    forall i | 0 <= i < |rows|
      ensures fused[i].score == Share(fts, 1.0, fused[i].id) + Share(sem, 2.0, fused[i].id)
      ensures Occurs(fts, fused[i].id) || Occurs(sem, fused[i].id)
    {
      TwoIsShares(fts, sem, rows[i]);
    }
    forall id | Occurs(fts, id) || Occurs(sem, id)
      ensures HasId(fused, id)
    {
      var p := TwoIsFull(fts, sem, id);
      var i :| 0 <= i < |rows| && rows[i] == p;
      assert fused[i].id == id;
    }
  }

  lemma TwoIsShares(fts: seq<nat>, sem: seq<nat>, p: Two)
    requires NoRepeats(fts) && NoRepeats(sem) && p in JoinTwo(fts, sem)
    ensures ScoreTwo(p) == Share(fts, 1.0, IdOfTwo(p)) + Share(sem, 2.0, IdOfTwo(p))
    ensures Occurs(fts, IdOfTwo(p)) || Occurs(sem, IdOfTwo(p))
  {
    TermIsShare(fts, 1.0, IdOfTwo(p));
    TermIsShare(sem, 2.0, IdOfTwo(p));
    JoinRowsAre(Capped(fts), Capped(sem), IdOf, IdOf, p);
  }

  lemma TwoIsFull(fts: seq<nat>, sem: seq<nat>, id: nat) returns (p: Two)
    requires NoRepeats(fts) && NoRepeats(sem) && (Occurs(fts, id) || Occurs(sem, id))
    ensures p in JoinTwo(fts, sem) && IdOfTwo(p) == id
  {
    TermIsShare(fts, 1.0, id);
    TermIsShare(sem, 2.0, id);
    JoinIsFull(Capped(fts), Capped(sem), IdOf, IdOf, id);
    p :| p in FullJoin(Capped(fts), Capped(sem), IdOf, IdOf) && Key(p, IdOf, IdOf) == id;
  }

  lemma TwoKeysDiffer(fts: seq<nat>, sem: seq<nat>)
    requires NoRepeats(fts) && NoRepeats(sem)
    ensures KeysDiffer(JoinTwo(fts, sem), IdOfTwo)
  {
    TermIsShare(fts, 1.0, 0);
    TermIsShare(sem, 2.0, 0);
    JoinKeysDiffer(Capped(fts), Capped(sem), IdOf, IdOf);
    var rows := JoinTwo(fts, sem);
    var k := (p: Two) => Key(p, IdOf, IdOf);
    forall i, j | 0 <= i < j < |rows|
      ensures IdOfTwo(rows[i]) != IdOfTwo(rows[j])
    {
      assert k(rows[i]) != k(rows[j]);
    }
  }

  lemma ThreeIsShares(fts: seq<nat>, sem: seq<nat>, hyde: seq<nat>, p: Three)
    requires NoRepeats(fts) && NoRepeats(sem) && NoRepeats(hyde) && p in JoinThree(fts, sem, hyde)
    ensures var id := IdOfThree(p);
            && ScoreThree(p) == Share(fts, 1.0, id) + Share(sem, 2.0, id) + Share(hyde, 1.5, id)
            && (Occurs(fts, id) || Occurs(sem, id) || Occurs(hyde, id))
  {
    var id := IdOfThree(p);
    TwoKeysDiffer(fts, sem);
    TermIsShare(hyde, 1.5, id);
    JoinRowsAre(JoinTwo(fts, sem), Capped(hyde), IdOfTwo, IdOf, p);
    if p.left.Some? {
      TwoIsShares(fts, sem, p.left.value);
    } else {
      NotInTwo(fts, sem, id);
    }
  }

  /** An item the first join does not have is in neither of its lists. */
  lemma NotInTwo(fts: seq<nat>, sem: seq<nat>, id: nat)
    requires NoRepeats(fts) && NoRepeats(sem) && Lookup(JoinTwo(fts, sem), IdOfTwo, id).None?
    ensures Share(fts, 1.0, id) == 0.0 && Share(sem, 2.0, id) == 0.0
  {
    if Occurs(fts, id) || Occurs(sem, id) {
      var p := TwoIsFull(fts, sem, id);
      var rows := JoinTwo(fts, sem);
      var i :| 0 <= i < |rows| && rows[i] == p;
      TwoKeysDiffer(fts, sem);
      LookupFinds(rows, IdOfTwo, i);
      assert false;
    }
  }

  /** Three lists, the third joined on COALESCE(f.id, s.id): again one row for each item, scored by the sum. */
  lemma HydeIsFusion(fts: seq<nat>, sem: seq<nat>, hyde: seq<nat>)
    requires NoRepeats(fts) && NoRepeats(sem) && NoRepeats(hyde)
    ensures IdsDiffer(HybridWithHyde(fts, sem, hyde))
    ensures forall id ::
              HasId(HybridWithHyde(fts, sem, hyde), id) <==> Occurs(fts, id) || Occurs(sem, id) || Occurs(hyde, id)
    ensures forall row :: row in HybridWithHyde(fts, sem, hyde) ==>
              row.score == Share(fts, 1.0, row.id) + Share(sem, 2.0, row.id) + Share(hyde, 1.5, row.id)
  {
    var rows, fused := JoinThree(fts, sem, hyde), HybridWithHyde(fts, sem, hyde);
    TwoKeysDiffer(fts, sem);
    TermIsShare(hyde, 1.5, 0);
    JoinKeysDiffer(JoinTwo(fts, sem), Capped(hyde), IdOfTwo, IdOf);
    var k := (p: Three) => Key(p, IdOfTwo, IdOf);
    forall i, j | 0 <= i < j < |rows|
      ensures fused[i].id != fused[j].id
    {
      assert k(rows[i]) != k(rows[j]);
    }
    forall i | 0 <= i < |rows|
      ensures fused[i].score ==
              Share(fts, 1.0, fused[i].id) + Share(sem, 2.0, fused[i].id) + Share(hyde, 1.5, fused[i].id)
      ensures Occurs(fts, fused[i].id) || Occurs(sem, fused[i].id) || Occurs(hyde, fused[i].id)
    {
      ThreeIsShares(fts, sem, hyde, rows[i]);
    }
    forall id | Occurs(fts, id) || Occurs(sem, id) || Occurs(hyde, id)
      ensures HasId(fused, id)
    {
      var i := ThreeIsFull(fts, sem, hyde, id);
      assert fused[i].id == id;
    }
  }

  lemma ThreeIsFull(fts: seq<nat>, sem: seq<nat>, hyde: seq<nat>, id: nat) returns (i: nat)
    requires NoRepeats(fts) && NoRepeats(sem) && NoRepeats(hyde)
    requires Occurs(fts, id) || Occurs(sem, id) || Occurs(hyde, id)
    ensures i < |JoinThree(fts, sem, hyde)| && IdOfThree(JoinThree(fts, sem, hyde)[i]) == id
  {
    TwoKeysDiffer(fts, sem);
    TermIsShare(hyde, 1.5, id);
    var two := JoinTwo(fts, sem);
    if Occurs(fts, id) || Occurs(sem, id) {
      var p := TwoIsFull(fts, sem, id);
      var j :| 0 <= j < |two| && two[j] == p;
      LookupFinds(two, IdOfTwo, j);
    }
    JoinIsFull(two, Capped(hyde), IdOfTwo, IdOf, id);
    var p :| p in FullJoin(two, Capped(hyde), IdOfTwo, IdOf) && Key(p, IdOfTwo, IdOf) == id;
    i :| 0 <= i < |JoinThree(fts, sem, hyde)| && JoinThree(fts, sem, hyde)[i] == p;
  }

  // ---- Winning everywhere wins ----

  /** In this list a comes before b, or b does not occur. */
  ghost predicate Beats(list: seq<nat>, a: nat, b: nat) {
    forall j: nat :: IsAt(list, b, j) ==> exists i: nat :: IsAt(list, a, i) && i < j
  }

  lemma LowerRankScoresMore(weight: real, i: nat, j: nat)
    requires weight > 0.0 && i < j
    ensures weight / (61.0 + i as real) > weight / (61.0 + j as real) > 0.0
  {
  }

  lemma BeatingShares(list: seq<nat>, weight: real, a: nat, b: nat)
    requires NoRepeats(list) && weight > 0.0 && Beats(list, a, b)
    ensures Share(list, weight, a) >= Share(list, weight, b)
    ensures Occurs(list, b) ==> Share(list, weight, a) > Share(list, weight, b)
  {
    if j: nat :| IsAt(list, b, j) {
      var i: nat :| IsAt(list, a, i) && i < j;
      LowerRankScoresMore(weight, i, j);
      assert Share(list, weight, a) == weight / (61.0 + i as real);
      assert Share(list, weight, b) == weight / (61.0 + j as real);
    } else if i: nat :| IsAt(list, a, i) {
      LowerRankScoresMore(weight, i, i + 1);
    }
  }

  /** An item that comes before another in every list that has the other scores strictly more. */
  lemma WinningEverywhereWins(fts: seq<nat>, sem: seq<nat>, hyde: seq<nat>, a: Scored, b: Scored)
    requires NoRepeats(fts) && NoRepeats(sem) && NoRepeats(hyde)
    requires a in HybridWithHyde(fts, sem, hyde) && b in HybridWithHyde(fts, sem, hyde)
    requires Beats(fts, a.id, b.id) && Beats(sem, a.id, b.id) && Beats(hyde, a.id, b.id)
    ensures a.score > b.score
  {
    HydeIsFusion(fts, sem, hyde);
    assert HasId(HybridWithHyde(fts, sem, hyde), b.id);
    BeatingShares(fts, 1.0, a.id, b.id);
    BeatingShares(sem, 2.0, a.id, b.id);
    BeatingShares(hyde, 1.5, a.id, b.id);
  }

  /** The same with two lists. */
  lemma WinningBothWins(fts: seq<nat>, sem: seq<nat>, a: Scored, b: Scored)
    requires NoRepeats(fts) && NoRepeats(sem)
    requires a in Hybrid(fts, sem) && b in Hybrid(fts, sem)
    requires Beats(fts, a.id, b.id) && Beats(sem, a.id, b.id)
    ensures a.score > b.score
  {
    HybridIsFusion(fts, sem);
    assert HasId(Hybrid(fts, sem), b.id);
    BeatingShares(fts, 1.0, a.id, b.id);
    BeatingShares(sem, 2.0, a.id, b.id);
  }
}
