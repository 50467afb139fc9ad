/** The display order of `sortEntities`, written over any element type. An
    element is read through three keys: its id, its parent's id (the empty
    string when it has none) and its rank, the place of its category in the
    sort order. */
module DisplayOrder {

  // ---------------------------------------------------------------------------
  // Counting
  // ---------------------------------------------------------------------------

  /** The sum of `w` over the elements of `s`. */
  function Weight<E>(s: seq<E>, w: E -> nat): nat {
    if s == [] then 0 else Weight(s[..|s| - 1], w) + w(s[|s| - 1])
  }

  /** How often `y` occurs in `s`. */
  ghost function Count<E>(s: seq<E>, y: E): nat {
    Weight(s, x => if x == y then 1 else 0)
  }

  /** How many elements of `s` carry the id `i`. */
  ghost function IdCount<E>(s: seq<E>, id: E -> string, i: string): nat {
    Weight(s, x => if id(x) == i then 1 else 0)
  }

  /** Weights add up over a concatenation. */
  lemma {:induction false} WeightConcat<E>(a: seq<E>, b: seq<E>, w: E -> nat)
    ensures Weight(a + b, w) == Weight(a, w) + Weight(b, w)
  {
    if b == [] {
      assert a + b == a;
    } else {
      var front := b[..|b| - 1];
      WeightConcat(a, front, w);
      assert (a + b)[..|a + b| - 1] == a + front;
    }
  }

  /** An element occurs in `s` exactly when it is counted there. */
  lemma {:induction false} CountPositive<E>(s: seq<E>, y: E)
    ensures Count(s, y) > 0 <==> y in s
  {
    if s != [] {
      var front := s[..|s| - 1];
      CountPositive(front, y);
      assert s == front + [s[|s| - 1]];
    }
  }

  /** `Count` is the multiplicity in the multiset of `s`. */
  lemma {:induction false} CountIsMultiplicity<E>(s: seq<E>, y: E)
    ensures Count(s, y) == multiset(s)[y]
  {
    if s != [] {
      var front := s[..|s| - 1];
      CountIsMultiplicity(front, y);
      assert s == front + [s[|s| - 1]];
    }
  }

  /** An element is counted no more often than its id. */
  lemma {:induction false} CountBelowIdCount<E>(s: seq<E>, id: E -> string, y: E)
    ensures Count(s, y) <= IdCount(s, id, id(y))
  {
    if s != [] {
      CountBelowIdCount(s[..|s| - 1], id, y);
    }
  }

  /** No two elements of `s` share an id. */
  predicate DistinctIds<E>(s: seq<E>, id: E -> string) {
    forall i, j :: 0 <= i < j < |s| ==> id(s[i]) != id(s[j])
  }

  /** An id no element carries is counted zero times. */
  lemma {:induction false} IdCountAbsent<E>(s: seq<E>, id: E -> string, i: string)
    requires forall k :: 0 <= k < |s| ==> id(s[k]) != i
    ensures IdCount(s, id, i) == 0
  {
    if s != [] {
      IdCountAbsent(s[..|s| - 1], id, i);
    }
  }

  /** With distinct ids, each id is carried at most once. */
  lemma {:induction false} DistinctIdCount<E>(s: seq<E>, id: E -> string, i: string)
    requires DistinctIds(s, id)
    ensures IdCount(s, id, i) <= 1
  {
    if s != [] {
      var front := s[..|s| - 1];
      DistinctIdCount(front, id, i);
      if id(s[|s| - 1]) == i {
        IdCountAbsent(front, id, i);
      }
    }
  }

  // ---------------------------------------------------------------------------
  // Filters
  // ---------------------------------------------------------------------------

  /** Line 65: the top-level elements, in order. */
  function Parents<E>(es: seq<E>, parent: E -> string): seq<E> {
    if es == [] then []
    else
      var x := es[|es| - 1];
      Parents(es[..|es| - 1], parent) + (if parent(x) == "" then [x] else [])
  }

  /** The children of the element with id `i`, in order. */
  function ChildrenOf<E>(es: seq<E>, parent: E -> string, i: string): seq<E> {
    if es == [] then []
    else
      var x := es[|es| - 1];
      ChildrenOf(es[..|es| - 1], parent, i) + (if parent(x) != "" && parent(x) == i then [x] else [])
  }

  /** The elements of rank `r`, in order. */
  function WithRank<E>(ps: seq<E>, rank: E -> nat, r: nat): seq<E> {
    if ps == [] then []
    else
      var x := ps[|ps| - 1];
      WithRank(ps[..|ps| - 1], rank, r) + (if rank(x) == r then [x] else [])
  }

  /** Top-level elements are counted as in the input; others not at all. */
  lemma {:induction false} ParentsWeight<E>(es: seq<E>, parent: E -> string, w: E -> nat)
    ensures Weight(Parents(es, parent), w) <= Weight(es, w)
  {
    if es != [] {
      var front, x := es[..|es| - 1], es[|es| - 1];
      ParentsWeight(front, parent, w);
      WeightConcat(Parents(front, parent), if parent(x) == "" then [x] else [], w);
      assert [x][..0] == [];
    }
  }

  /** Top-level elements are counted as in the input; others not at all. */
  lemma {:induction false} ParentsCount<E>(es: seq<E>, parent: E -> string, y: E)
    ensures Count(Parents(es, parent), y) == if parent(y) == "" then Count(es, y) else 0
  {
    if es != [] {
      var front, x := es[..|es| - 1], es[|es| - 1];
      ParentsCount(front, parent, y);
      WeightConcat(Parents(front, parent), if parent(x) == "" then [x] else [], x' => if x' == y then 1 else 0);
      assert [x][..0] == [];
    }
  }

  // ---------------------------------------------------------------------------
  // The stable sort by rank (lines 77-81)
  // ---------------------------------------------------------------------------

  /** The stable sort of `ps` on ranks below `n`: one block per rank, lowest
      first, each block in input order. */
  function SortedByRank<E>(ps: seq<E>, rank: E -> nat, n: nat): seq<E> {
    if n == 0 then [] else SortedByRank(ps, rank, n - 1) + WithRank(ps, rank, n - 1)
  }

  /** Ranks never decrease along `s`. */
  predicate RankOrdered<E>(s: seq<E>, rank: E -> nat) {
    forall i, j :: 0 <= i < j < |s| ==> rank(s[i]) <= rank(s[j])
  }

  /** Every element of `s` has a rank below `n`. */
  predicate RankedBelow<E>(s: seq<E>, rank: E -> nat, n: nat) {
    forall k :: 0 <= k < |s| ==> rank(s[k]) < n
  }

  /** One more rank adds the weight of its block. */
  lemma SortedStepWeight<E>(ps: seq<E>, rank: E -> nat, m: nat, w: E -> nat)
    ensures Weight(SortedByRank(ps, rank, m + 1), w) ==
            Weight(SortedByRank(ps, rank, m), w) + Weight(WithRank(ps, rank, m), w)
  {
    WeightConcat(SortedByRank(ps, rank, m), WithRank(ps, rank, m), w);
  }

  /** Weights that add up pointwise add up over a list. */
  lemma {:induction false} WeightSum<E>(s: seq<E>, f: E -> nat, g: E -> nat, h: E -> nat)
    requires forall x :: h(x) == f(x) + g(x)
    ensures Weight(s, h) == Weight(s, f) + Weight(s, g)
  {
    if s != [] {
      WeightSum(s[..|s| - 1], f, g, h);
    }
  }

  /** Weights that agree on the elements of a list agree over it. */
  lemma {:induction false} WeightAgree<E>(s: seq<E>, f: E -> nat, g: E -> nat)
    requires forall k :: 0 <= k < |s| ==> f(s[k]) == g(s[k])
    ensures Weight(s, f) == Weight(s, g)
  {
    if s != [] {
      var front := s[..|s| - 1];
      assert forall k :: 0 <= k < |front| ==> front[k] == s[k];
      WeightAgree(front, f, g);
    }
  }

  /** A rank block weighs what its rank's elements weigh in the input. */
  lemma {:induction false} WithRankWeight<E>(ps: seq<E>, rank: E -> nat, r: nat, w: E -> nat)
    ensures Weight(WithRank(ps, rank, r), w) == Weight(ps, x => if rank(x) == r then w(x) else 0)
  {
    if ps != [] {
      var front, x := ps[..|ps| - 1], ps[|ps| - 1];
      WithRankWeight(front, rank, r, w);
      WeightConcat(WithRank(front, rank, r), if rank(x) == r then [x] else [], w);
      assert [x][..0] == [];
    }
  }

  /** The sort on ranks below `m` weighs what the input's elements of those
      ranks weigh. */
  lemma {:induction false} SortedWeightBelow<E>(ps: seq<E>, rank: E -> nat, m: nat, w: E -> nat)
    ensures Weight(SortedByRank(ps, rank, m), w) == Weight(ps, x => if rank(x) < m then w(x) else 0)
  {
    if m == 0 {
      NoRankWeight(ps, rank, w);
    } else {
      SortedWeightBelow(ps, rank, m - 1, w);
      SortedStepWeight(ps, rank, m - 1, w);
      WithRankWeight(ps, rank, m - 1, w);
      RankWeightStep(ps, rank, m, w);
    }
  }

  /** The weight below rank `m` is the weight below `m - 1` plus the weight at `m - 1`. */
  lemma RankWeightStep<E>(ps: seq<E>, rank: E -> nat, m: nat, w: E -> nat)
    requires m > 0
    ensures Weight(ps, x => if rank(x) < m then w(x) else 0) ==
            Weight(ps, x => if rank(x) < m - 1 then w(x) else 0) + Weight(ps, x => if rank(x) == m - 1 then w(x) else 0)
  {
    WeightSum(ps, x => if rank(x) < m - 1 then w(x) else 0, x => if rank(x) == m - 1 then w(x) else 0,
              x => if rank(x) < m then w(x) else 0);
  }

  /** No element has a rank below zero. */
  lemma NoRankWeight<E>(ps: seq<E>, rank: E -> nat, w: E -> nat)
    ensures Weight(ps, x => if rank(x) < 0 then w(x) else 0) == 0
  {
    WeightAgree(ps, x => if rank(x) < 0 then w(x) else 0, x => 0);
    WeightZero(ps);
  }

  /** Nothing weighs nothing. */
  lemma {:induction false} WeightZero<E>(s: seq<E>)
    ensures Weight(s, x => 0) == 0
  {
    if s != [] {
      WeightZero(s[..|s| - 1]);
    }
  }

  /** The sort keeps every weight of a list ranked below `n`. */
  lemma SortedWeight<E>(ps: seq<E>, rank: E -> nat, n: nat, w: E -> nat)
    requires RankedBelow(ps, rank, n)
    ensures Weight(SortedByRank(ps, rank, n), w) == Weight(ps, w)
  {
    SortedWeightBelow(ps, rank, n, w);
    WeightAgree(ps, x => if rank(x) < n then w(x) else 0, w);
  }

  /** Sorting nothing gives nothing. */
  lemma {:induction false} SortedEmpty<E>(rank: E -> nat, n: nat)
    ensures SortedByRank([], rank, n) == []
  {
    if n > 0 {
      SortedEmpty(rank, n - 1);
    }
  }

  /** The sort keeps how often each element occurs. */
  lemma SortedCount<E>(ps: seq<E>, rank: E -> nat, n: nat, y: E)
    requires RankedBelow(ps, rank, n)
    ensures Count(SortedByRank(ps, rank, n), y) == Count(ps, y)
  {
    SortedWeight(ps, rank, n, x => if x == y then 1 else 0);
  }

  /** The sort keeps how many elements carry each id. */
  lemma SortedIdCount<E>(ps: seq<E>, id: E -> string, rank: E -> nat, n: nat, i: string)
    requires RankedBelow(ps, rank, n)
    ensures IdCount(SortedByRank(ps, rank, n), id, i) == IdCount(ps, id, i)
  {
    SortedWeight(ps, rank, n, x => if id(x) == i then 1 else 0);
  }

  /** The sort is a permutation of a list ranked below `n`. */
  lemma SortedPermutes<E(!new)>(ps: seq<E>, rank: E -> nat, n: nat)
    requires RankedBelow(ps, rank, n)
    ensures multiset(SortedByRank(ps, rank, n)) == multiset(ps)
  {
    var s := SortedByRank(ps, rank, n);
    forall y
      ensures multiset(s)[y] == multiset(ps)[y]
    {
      SortedCount(ps, rank, n, y);
      CountIsMultiplicity(s, y);
      CountIsMultiplicity(ps, y);
    }
  }

  /** The elements of a rank block have that rank and come from the input. */
  lemma {:induction false} WithRankMembers<E>(ps: seq<E>, rank: E -> nat, r: nat)
    ensures forall x :: x in WithRank(ps, rank, r) ==> x in ps && rank(x) == r
  {
    if ps != [] {
      WithRankMembers(ps[..|ps| - 1], rank, r);
      assert forall y :: y in ps[..|ps| - 1] ==> y in ps;
    }
  }

  /** The sorted list holds input elements of rank below `m`. */
  lemma {:induction false} SortedMembers<E>(ps: seq<E>, rank: E -> nat, m: nat)
    ensures forall x :: x in SortedByRank(ps, rank, m) ==> x in ps && rank(x) < m
  {
    if m > 0 {
      var a, b := SortedByRank(ps, rank, m - 1), WithRank(ps, rank, m - 1);
      SortedMembers(ps, rank, m - 1);
      WithRankMembers(ps, rank, m - 1);
      assert forall x :: x in a + b ==> x in a || x in b;
    }
  }

  /** Every element of a rank block has that rank. */
  lemma {:induction false} WithRankRanks<E>(ps: seq<E>, rank: E -> nat, r: nat)
    ensures forall k :: 0 <= k < |WithRank(ps, rank, r)| ==> rank(WithRank(ps, rank, r)[k]) == r
  {
    if ps != [] {
      var front, x := ps[..|ps| - 1], ps[|ps| - 1];
      var w0 := WithRank(front, rank, r);
      WithRankRanks(front, rank, r);
      if rank(x) == r {
        assert forall k :: 0 <= k < |w0| ==> (w0 + [x])[k] == w0[k];
      } else {
        assert WithRank(ps, rank, r) == w0;
      }
    }
  }

  /** Every element of the sort on ranks below `m` has a rank below `m`. */
  lemma {:induction false} SortedRanks<E>(ps: seq<E>, rank: E -> nat, m: nat)
    ensures forall k :: 0 <= k < |SortedByRank(ps, rank, m)| ==> rank(SortedByRank(ps, rank, m)[k]) < m
  {
    if m > 0 {
      var a, b := SortedByRank(ps, rank, m - 1), WithRank(ps, rank, m - 1);
      SortedRanks(ps, rank, m - 1);
      WithRankRanks(ps, rank, m - 1);
      assert forall k :: 0 <= k < |a| ==> (a + b)[k] == a[k];
      assert forall k :: |a| <= k < |a + b| ==> (a + b)[k] == b[k - |a|];
    }
  }

  /** A run ranked below `c` followed by a run of rank `c` is ordered when the
      first run is. */
  lemma ConcatOrdered<E>(a: seq<E>, b: seq<E>, rank: E -> nat, c: nat)
    requires RankOrdered(a, rank)
    requires forall k :: 0 <= k < |a| ==> rank(a[k]) < c
    requires forall k :: 0 <= k < |b| ==> rank(b[k]) == c
    ensures RankOrdered(a + b, rank)
  {
    var s := a + b;
    assert forall k :: 0 <= k < |a| ==> s[k] == a[k];
    assert forall k :: |a| <= k < |s| ==> s[k] == b[k - |a|];
  }

  /** The sort orders by rank. */
  lemma {:induction false} SortedOrdered<E>(ps: seq<E>, rank: E -> nat, m: nat)
    ensures RankOrdered(SortedByRank(ps, rank, m), rank)
  {
    if m > 0 {
      SortedOrdered(ps, rank, m - 1);
      SortedRanks(ps, rank, m - 1);
      WithRankRanks(ps, rank, m - 1);
      ConcatOrdered(SortedByRank(ps, rank, m - 1), WithRank(ps, rank, m - 1), rank, m - 1);
    }
  }

  /** Selecting one rank distributes over concatenation. */
  lemma {:induction false} WithRankConcat<E>(a: seq<E>, b: seq<E>, rank: E -> nat, r: nat)
    ensures WithRank(a + b, rank, r) == WithRank(a, rank, r) + WithRank(b, rank, r)
  {
    if b == [] {
      assert a + b == a;
    } else {
      var front, y := b[..|b| - 1], b[|b| - 1];
      WithRankConcat(a, front, rank, r);
      assert (a + b)[..|a + b| - 1] == a + front;
    }
  }

  /** Selecting rank `r` from a rank-`q` block keeps all of it or nothing. */
  lemma {:induction false} WithRankTwice<E>(ps: seq<E>, rank: E -> nat, r: nat, q: nat)
    ensures WithRank(WithRank(ps, rank, q), rank, r) == if r == q then WithRank(ps, rank, r) else []
  {
    if ps != [] {
      var front, x := ps[..|ps| - 1], ps[|ps| - 1];
      WithRankTwice(front, rank, r, q);
      var tail := if rank(x) == q then [x] else [];
      WithRankConcat(WithRank(front, rank, q), tail, rank, r);
      assert [x][..0] == [];
    }
  }

  /** A list with no element of rank `r` has an empty rank-`r` block. */
  lemma {:induction false} WithRankNone<E>(s: seq<E>, rank: E -> nat, r: nat)
    requires forall k :: 0 <= k < |s| ==> rank(s[k]) != r
    ensures WithRank(s, rank, r) == []
  {
    if s != [] {
      WithRankNone(s[..|s| - 1], rank, r);
    }
  }

  /** The sort on ranks below `m` holds nothing of rank `m` or more. */
  lemma SortedWithRankAbove<E>(ps: seq<E>, rank: E -> nat, m: nat, r: nat)
    requires m <= r
    ensures WithRank(SortedByRank(ps, rank, m), rank, r) == []
  {
    SortedRanks(ps, rank, m);
    WithRankNone(SortedByRank(ps, rank, m), rank, r);
  }

  /** Selecting rank `r` from the sort on one more rank. */
  lemma SortedStepWithRank<E>(ps: seq<E>, rank: E -> nat, m: nat, r: nat)
    ensures WithRank(SortedByRank(ps, rank, m + 1), rank, r) ==
            WithRank(SortedByRank(ps, rank, m), rank, r) + WithRank(WithRank(ps, rank, m), rank, r)
  {
    WithRankConcat(SortedByRank(ps, rank, m), WithRank(ps, rank, m), rank, r);
  }

  /** The block of the top rank of the sort is the input's block. */
  lemma SortedWithTopRank<E>(ps: seq<E>, rank: E -> nat, r: nat)
    ensures WithRank(SortedByRank(ps, rank, r + 1), rank, r) == WithRank(ps, rank, r)
  {
    SortedStepWithRank(ps, rank, r, r);
    WithRankTwice(ps, rank, r, r);
    SortedWithRankAbove(ps, rank, r, r);
    assert [] + WithRank(ps, rank, r) == WithRank(ps, rank, r);
  }

  /** A rank below `m` gains nothing when the sort takes in rank `m`. */
  lemma SortedWithLowerRank<E>(ps: seq<E>, rank: E -> nat, m: nat, r: nat)
    requires r < m
    ensures WithRank(SortedByRank(ps, rank, m + 1), rank, r) == WithRank(SortedByRank(ps, rank, m), rank, r)
  {
    SortedStepWithRank(ps, rank, m, r);
    WithRankTwice(ps, rank, r, m);
    assert WithRank(SortedByRank(ps, rank, m), rank, r) + [] == WithRank(SortedByRank(ps, rank, m), rank, r);
  }

  /** The sort is stable: its rank-`r` elements are the input's, in input order. */
  lemma {:induction false} SortedWithRank<E>(ps: seq<E>, rank: E -> nat, m: nat, r: nat)
    requires r < m
    ensures WithRank(SortedByRank(ps, rank, m), rank, r) == WithRank(ps, rank, r)
  {
    if r == m - 1 {
      SortedWithTopRank(ps, rank, r);
    } else {
      SortedWithRank(ps, rank, m - 1, r);
      SortedWithLowerRank(ps, rank, m - 1, r);
    }
  }

  // ---------------------------------------------------------------------------
  // Grouping and orphans (lines 84-98)
  // ---------------------------------------------------------------------------

  /** The ids of `ps`. */
  function ParentIds<E>(ps: seq<E>, id: E -> string): set<string> {
    if ps == [] then {} else ParentIds(ps[..|ps| - 1], id) + {id(ps[|ps| - 1])}
  }

  /** Lines 84-89: each element of `sp` followed by its children. */
  function Grouped<E>(sp: seq<E>, es: seq<E>, id: E -> string, parent: E -> string): seq<E> {
    if sp == [] then []
    else
      var p := sp[|sp| - 1];
      Grouped(sp[..|sp| - 1], es, id, parent) + [p] + ChildrenOf(es, parent, id(p))
  }

  /** Lines 92-98: each element of `es` with a parent id outside `ids`,
      appended to `acc` unless it is already listed. */
  function AppendOrphans<E(==)>(acc: seq<E>, es: seq<E>, parent: E -> string, ids: set<string>): (r: seq<E>)
    ensures |acc| <= |r| && r[..|acc|] == acc
  {
    if es == [] then acc
    else
      var x := es[|es| - 1];
      var r := AppendOrphans(acc, es[..|es| - 1], parent, ids);
      if parent(x) != "" && parent(x) !in ids && x !in r then r + [x] else r
  }

  /** The display order of `sortEntities`: the top-level elements sorted by
      rank, each followed by its children, then the orphans. */
  function Arranged<E(==)>(es: seq<E>, id: E -> string, parent: E -> string, rank: E -> nat, n: nat): seq<E> {
    var ps := Parents(es, parent);
    AppendOrphans(Grouped(SortedByRank(ps, rank, n), es, id, parent), es, parent, ParentIds(ps, id))
  }

  /** An id is a parent id exactly when some element carries it. */
  lemma {:induction false} ParentIdsCount<E>(ps: seq<E>, id: E -> string, i: string)
    ensures i in ParentIds(ps, id) <==> IdCount(ps, id, i) > 0
  {
    if ps != [] {
      ParentIdsCount(ps[..|ps| - 1], id, i);
    }
  }

  /** The top-level elements are input elements without a parent. */
  lemma {:induction false} ParentsMembers<E>(es: seq<E>, parent: E -> string)
    ensures forall x :: x in Parents(es, parent) ==> x in es && parent(x) == ""
  {
    if es != [] {
      ParentsMembers(es[..|es| - 1], parent);
      assert forall y :: y in es[..|es| - 1] ==> y in es;
    }
  }

  /** The children of `i` are input elements whose parent is `i`. */
  lemma {:induction false} ChildrenMembers<E>(es: seq<E>, parent: E -> string, i: string)
    ensures forall x :: x in ChildrenOf(es, parent, i) ==> x in es && parent(x) != "" && parent(x) == i
  {
    if es != [] {
      ChildrenMembers(es[..|es| - 1], parent, i);
      assert forall y :: y in es[..|es| - 1] ==> y in es;
    }
  }

  /** The children of `i` are counted as in the input. */
  lemma {:induction false} ChildrenCount<E>(es: seq<E>, parent: E -> string, i: string, y: E)
    ensures Count(ChildrenOf(es, parent, i), y) == if parent(y) != "" && parent(y) == i then Count(es, y) else 0
  {
    if es != [] {
      var front, x := es[..|es| - 1], es[|es| - 1];
      ChildrenCount(front, parent, i, y);
      WeightConcat(ChildrenOf(front, parent, i), if parent(x) != "" && parent(x) == i then [x] else [],
                   x' => if x' == y then 1 else 0);
      assert [x][..0] == [];
    }
  }

  /** Grouping lists each element of `sp` once, and each child once when one
      element of `sp` carries its parent's id. */
  lemma {:induction false} GroupedCount<E>(sp: seq<E>, es: seq<E>, id: E -> string, parent: E -> string, y: E)
    requires parent(y) != "" ==> IdCount(sp, id, parent(y)) <= 1
    ensures Count(Grouped(sp, es, id, parent), y) ==
            Count(sp, y) + (if parent(y) != "" && IdCount(sp, id, parent(y)) > 0 then Count(es, y) else 0)
  {
    if sp != [] {
      var front, p := sp[..|sp| - 1], sp[|sp| - 1];
      var g0, kids := Grouped(front, es, id, parent), ChildrenOf(es, parent, id(p));
      GroupedCount(front, es, id, parent, y);
      WeightConcat(g0 + [p], kids, x => if x == y then 1 else 0);
      WeightConcat(g0, [p], x => if x == y then 1 else 0);
      assert [p][..0] == [];
      ChildrenCount(es, parent, id(p), y);
    }
  }

  /** Appending orphans adds an element once when it is an orphan, is not
      yet listed in `acc` and occurs in `es`. */
  lemma {:induction false} OrphansCount<E>(acc: seq<E>, es: seq<E>, parent: E -> string, ids: set<string>, y: E)
    ensures Count(AppendOrphans(acc, es, parent, ids), y) ==
            Count(acc, y) + (if parent(y) != "" && parent(y) !in ids && Count(acc, y) == 0 && Count(es, y) > 0 then 1 else 0)
  {
    if es != [] {
      var front, x := es[..|es| - 1], es[|es| - 1];
      var r := AppendOrphans(acc, front, parent, ids);
      OrphansCount(acc, front, parent, ids, y);
      CountPositive(r, x);
      if parent(x) != "" && parent(x) !in ids && x !in r {
        WeightConcat(r, [x], x' => if x' == y then 1 else 0);
        assert [x][..0] == [];
      }
    }
  }

  /** What appending orphans adds has a parent id outside `ids`. */
  lemma {:induction false} OrphansTail<E>(acc: seq<E>, es: seq<E>, parent: E -> string, ids: set<string>)
    ensures forall k :: |acc| <= k < |AppendOrphans(acc, es, parent, ids)| ==>
              parent(AppendOrphans(acc, es, parent, ids)[k]) != "" &&
              parent(AppendOrphans(acc, es, parent, ids)[k]) !in ids
  {
    if es != [] {
      var front, x := es[..|es| - 1], es[|es| - 1];
      var r0 := AppendOrphans(acc, front, parent, ids);
      OrphansTail(acc, front, parent, ids);
      if parent(x) != "" && parent(x) !in ids && x !in r0 {
        var r := r0 + [x];
        assert AppendOrphans(acc, es, parent, ids) == r;
        assert forall k :: 0 <= k < |r0| ==> r[k] == r0[k];
        assert r[|r0|] == x;
      } else {
        assert AppendOrphans(acc, es, parent, ids) == r0;
      }
    }
  }

  // ---------------------------------------------------------------------------
  // What the display order keeps
  // ---------------------------------------------------------------------------

  /** The top-level elements of an input ranked below `n` are ranked below `n`. */
  lemma ParentsRanked<E>(es: seq<E>, parent: E -> string, rank: E -> nat, n: nat)
    requires RankedBelow(es, rank, n)
    ensures RankedBelow(Parents(es, parent), rank, n)
  {
    var ps := Parents(es, parent);
    ParentsMembers(es, parent);
    forall k | 0 <= k < |ps|
      ensures rank(ps[k]) < n
    {
      assert ps[k] in ps;
    }
  }

  /** With distinct ids, an id is carried by at most one sorted top-level
      element, and by one exactly when it is a parent id. */
  lemma SortedParentIdCount<E>(es: seq<E>, id: E -> string, parent: E -> string, rank: E -> nat, n: nat, i: string)
    requires DistinctIds(es, id) && RankedBelow(es, rank, n)
    ensures IdCount(SortedByRank(Parents(es, parent), rank, n), id, i) <= 1
    ensures i in ParentIds(Parents(es, parent), id) <==> IdCount(SortedByRank(Parents(es, parent), rank, n), id, i) > 0
  {
    var ps := Parents(es, parent);
    ParentsRanked(es, parent, rank, n);
    SortedIdCount(ps, id, rank, n, i);
    ParentsWeight(es, parent, x => if id(x) == i then 1 else 0);
    DistinctIdCount(es, id, i);
    ParentIdsCount(ps, id, i);
  }

  /** With distinct ids and every rank below `n`, each element is listed as
      often as it occurs in the input. */
  lemma ArrangedCount<E>(es: seq<E>, id: E -> string, parent: E -> string, rank: E -> nat, n: nat, y: E)
    requires DistinctIds(es, id) && RankedBelow(es, rank, n)
    ensures Count(Arranged(es, id, parent, rank, n), y) == Count(es, y)
  {
    var ps := Parents(es, parent);
    var sp := SortedByRank(ps, rank, n);
    var ids := ParentIds(ps, id);
    var acc := Grouped(sp, es, id, parent);
    ParentsRanked(es, parent, rank, n);
    SortedCount(ps, rank, n, y);
    ParentsCount(es, parent, y);
    SortedParentIdCount(es, id, parent, rank, n, parent(y));
    GroupedCount(sp, es, id, parent, y);
    OrphansCount(acc, es, parent, ids, y);
    CountBelowIdCount(es, id, y);
    DistinctIdCount(es, id, id(y));
  }

  /** With distinct ids and every rank below `n`, the display order is a
      permutation of the input. (Two top-level elements sharing an id would
      have their children listed twice.) */
  lemma ArrangedPermutes<E(!new)>(es: seq<E>, id: E -> string, parent: E -> string, rank: E -> nat, n: nat)
    requires DistinctIds(es, id) && RankedBelow(es, rank, n)
    ensures multiset(Arranged(es, id, parent, rank, n)) == multiset(es)
  {
    var r := Arranged(es, id, parent, rank, n);
    forall y
      ensures multiset(r)[y] == multiset(es)[y]
    {
      ArrangedCount(es, id, parent, rank, n, y);
      CountIsMultiplicity(r, y);
      CountIsMultiplicity(es, y);
    }
  }

  // ---------------------------------------------------------------------------
  // Where the display order puts things
  // ---------------------------------------------------------------------------

  /** Selecting the top-level elements distributes over concatenation. */
  lemma {:induction false} ParentsConcat<E>(a: seq<E>, b: seq<E>, parent: E -> string)
    ensures Parents(a + b, parent) == Parents(a, parent) + Parents(b, parent)
  {
    if b == [] {
      assert a + b == a;
    } else {
      ParentsConcat(a, b[..|b| - 1], parent);
      assert (a + b)[..|a + b| - 1] == a + b[..|b| - 1];
    }
  }

  /** A list of children holds no top-level element. */
  lemma {:induction false} ParentsNone<E>(s: seq<E>, parent: E -> string)
    requires forall k :: 0 <= k < |s| ==> parent(s[k]) != ""
    ensures Parents(s, parent) == []
  {
    if s != [] {
      ParentsNone(s[..|s| - 1], parent);
    }
  }

  /** A list of top-level elements is its own selection. */
  lemma {:induction false} ParentsAll<E>(s: seq<E>, parent: E -> string)
    requires forall k :: 0 <= k < |s| ==> parent(s[k]) == ""
    ensures Parents(s, parent) == s
  {
    if s != [] {
      ParentsAll(s[..|s| - 1], parent);
    }
  }

  /** Children are never top-level elements. */
  lemma {:induction false} ParentsOfChildren<E>(es: seq<E>, parent: E -> string, i: string)
    ensures Parents(ChildrenOf(es, parent, i), parent) == []
  {
    if es != [] {
      var front, x := es[..|es| - 1], es[|es| - 1];
      ParentsOfChildren(front, parent, i);
      if parent(x) != "" && parent(x) == i {
        ParentsConcat(ChildrenOf(front, parent, i), [x], parent);
        assert [x][..0] == [];
      } else {
        assert ChildrenOf(es, parent, i) == ChildrenOf(front, parent, i);
      }
    }
  }

  /** Appending orphans adds no top-level element. */
  lemma {:induction false} ParentsOfOrphans<E>(acc: seq<E>, es: seq<E>, parent: E -> string, ids: set<string>)
    ensures Parents(AppendOrphans(acc, es, parent, ids), parent) == Parents(acc, parent)
  {
    if es != [] {
      var front, x := es[..|es| - 1], es[|es| - 1];
      var r0 := AppendOrphans(acc, front, parent, ids);
      ParentsOfOrphans(acc, front, parent, ids);
      if parent(x) != "" && parent(x) !in ids && x !in r0 {
        assert (r0 + [x])[..|r0|] == r0;
        assert Parents(r0 + [x], parent) == Parents(r0, parent);
      }
    }
  }

  /** The sorted top-level elements have no parent. */
  lemma SortedParentless<E>(es: seq<E>, parent: E -> string, rank: E -> nat, n: nat)
    ensures forall k :: 0 <= k < |SortedByRank(Parents(es, parent), rank, n)| ==>
              parent(SortedByRank(Parents(es, parent), rank, n)[k]) == ""
  {
    var sp := SortedByRank(Parents(es, parent), rank, n);
    ParentsMembers(es, parent);
    SortedMembers(Parents(es, parent), rank, n);
    assert forall k :: 0 <= k < |sp| ==> sp[k] in sp;
  }

  /** A top-level element followed by children adds just that element to the
      top-level elements. */
  lemma ParentsOfGroup<E>(g: seq<E>, p: E, kids: seq<E>, parent: E -> string)
    requires parent(p) == "" && Parents(kids, parent) == []
    ensures Parents(g + [p] + kids, parent) == Parents(g, parent) + [p]
  {
    ParentsConcat(g + [p], kids, parent);
    ParentsConcat(g, [p], parent);
    ParentsAll([p], parent);
    assert Parents(g, parent) + [p] + [] == Parents(g, parent) + [p];
  }

  /** The top-level elements of a grouping of top-level elements are those
      elements, in order. */
  lemma {:induction false} ParentsOfGrouped<E>(sp: seq<E>, es: seq<E>, id: E -> string, parent: E -> string)
    requires forall k :: 0 <= k < |sp| ==> parent(sp[k]) == ""
    ensures Parents(Grouped(sp, es, id, parent), parent) == sp
  {
    if sp != [] {
      var front, p := sp[..|sp| - 1], sp[|sp| - 1];
      ParentsOfGrouped(front, es, id, parent);
      ParentsOfChildren(es, parent, id(p));
      ParentsOfGroup(Grouped(front, es, id, parent), p, ChildrenOf(es, parent, id(p)), parent);
      assert front + [p] == sp;
    }
  }


  /** The top-level elements of the display order are the input's, in the
      order of the stable sort by rank. */
  lemma ArrangedSortsParents<E>(es: seq<E>, id: E -> string, parent: E -> string, rank: E -> nat, n: nat)
    ensures Parents(Arranged(es, id, parent, rank, n), parent) == SortedByRank(Parents(es, parent), rank, n)
  {
    var ps := Parents(es, parent);
    var sp := SortedByRank(ps, rank, n);
    SortedParentless(es, parent, rank, n);
    ParentsOfGrouped(sp, es, id, parent);
    ParentsOfOrphans(Grouped(sp, es, id, parent), es, parent, ParentIds(ps, id));
  }

  /** In a grouping of top-level elements, each child comes after an element
      of `sp` carrying its parent's id. */
  lemma {:induction false} GroupedChildAfterParent<E>(sp: seq<E>, es: seq<E>, id: E -> string, parent: E -> string, i: nat)
    requires forall k :: 0 <= k < |sp| ==> parent(sp[k]) == ""
    requires i < |Grouped(sp, es, id, parent)| && parent(Grouped(sp, es, id, parent)[i]) != ""
    ensures exists j :: 0 <= j < i && Grouped(sp, es, id, parent)[j] in sp &&
                        id(Grouped(sp, es, id, parent)[j]) == parent(Grouped(sp, es, id, parent)[i])
  {
    var front, p := sp[..|sp| - 1], sp[|sp| - 1];
    var g0, kids := Grouped(front, es, id, parent), ChildrenOf(es, parent, id(p));
    var g := g0 + [p] + kids;
    assert Grouped(sp, es, id, parent) == g;
    if i < |g0| {
      GroupedChildAfterParent(front, es, id, parent, i);
      var j :| 0 <= j < i && g0[j] in front && id(g0[j]) == parent(g0[i]);
      assert g[j] == g0[j] && g[i] == g0[i];
      assert forall x :: x in front ==> x in sp;
    } else {
      assert g[|g0|] == p && p in sp;
      ChildrenMembers(es, parent, id(p));
      assert g[i] == kids[i - |g0| - 1] && kids[i - |g0| - 1] in kids;
    }
  }

  /** In the display order, every child of a top-level element comes after
      that element. */
  lemma ArrangedChildAfterParent<E>(es: seq<E>, id: E -> string, parent: E -> string, rank: E -> nat, n: nat, i: nat)
    requires i < |Arranged(es, id, parent, rank, n)|
    requires parent(Arranged(es, id, parent, rank, n)[i]) != ""
    requires parent(Arranged(es, id, parent, rank, n)[i]) in ParentIds(Parents(es, parent), id)
    ensures exists j :: 0 <= j < i && parent(Arranged(es, id, parent, rank, n)[j]) == "" &&
                        id(Arranged(es, id, parent, rank, n)[j]) == parent(Arranged(es, id, parent, rank, n)[i])
  {
    var ps := Parents(es, parent);
    var sp := SortedByRank(ps, rank, n);
    var acc := Grouped(sp, es, id, parent);
    var r := Arranged(es, id, parent, rank, n);
    OrphansTail(acc, es, parent, ParentIds(ps, id));
    if i >= |acc| {
      assert false;
    }
    SortedParentless(es, parent, rank, n);
    assert r[i] == acc[i];
    GroupedChildAfterParent(sp, es, id, parent, i);
    var j :| 0 <= j < i && acc[j] in sp && id(acc[j]) == parent(acc[i]);
    assert r[j] == acc[j];
  }

  /** In a grouping, an element without a parent is followed by exactly its
      children. */
  lemma {:induction false} GroupedHeadChildren<E>(sp: seq<E>, es: seq<E>, id: E -> string, parent: E -> string, j: nat)
    requires j < |Grouped(sp, es, id, parent)| && parent(Grouped(sp, es, id, parent)[j]) == ""
    ensures j + 1 + |ChildrenOf(es, parent, id(Grouped(sp, es, id, parent)[j]))| <= |Grouped(sp, es, id, parent)|
    ensures Grouped(sp, es, id, parent)[j + 1..j + 1 + |ChildrenOf(es, parent, id(Grouped(sp, es, id, parent)[j]))|] ==
            ChildrenOf(es, parent, id(Grouped(sp, es, id, parent)[j]))
  {
    var front, p := sp[..|sp| - 1], sp[|sp| - 1];
    var g0, kids := Grouped(front, es, id, parent), ChildrenOf(es, parent, id(p));
    var g := g0 + [p] + kids;
    assert Grouped(sp, es, id, parent) == g;
    if j < |g0| {
      assert g[j] == g0[j];
      GroupedHeadChildren(front, es, id, parent, j);
      var c := ChildrenOf(es, parent, id(g0[j]));
      assert g[j + 1..j + 1 + |c|] == g0[j + 1..j + 1 + |c|];
    } else if j == |g0| {
      assert g[j] == p;
      assert g[j + 1..j + 1 + |kids|] == kids;
    } else {
      ChildrenMembers(es, parent, id(p));
      assert false;
    }
  }

  /** In the display order, a top-level element is followed by exactly its
      children, in input order. */
  lemma ArrangedChildrenFollow<E>(es: seq<E>, id: E -> string, parent: E -> string, rank: E -> nat, n: nat, j: nat)
    requires j < |Arranged(es, id, parent, rank, n)| && parent(Arranged(es, id, parent, rank, n)[j]) == ""
    ensures j + 1 + |ChildrenOf(es, parent, id(Arranged(es, id, parent, rank, n)[j]))| <= |Arranged(es, id, parent, rank, n)|
    ensures Arranged(es, id, parent, rank, n)[j + 1..j + 1 + |ChildrenOf(es, parent, id(Arranged(es, id, parent, rank, n)[j]))|] ==
            ChildrenOf(es, parent, id(Arranged(es, id, parent, rank, n)[j]))
  {
    var ps := Parents(es, parent);
    var sp := SortedByRank(ps, rank, n);
    var acc := Grouped(sp, es, id, parent);
    var r := Arranged(es, id, parent, rank, n);
    OrphansTail(acc, es, parent, ParentIds(ps, id));
    if j >= |acc| {
      assert false;
    }
    GroupedHeadChildren(sp, es, id, parent, j);
    SliceOfPrefix(r, acc, j, ChildrenOf(es, parent, id(acc[j])));
  }

  /** A slice of a prefix is a slice of the whole. */
  lemma SliceOfPrefix<E>(r: seq<E>, acc: seq<E>, j: nat, c: seq<E>)
    requires |acc| <= |r| && r[..|acc|] == acc
    requires j + 1 + |c| <= |acc| && acc[j + 1..j + 1 + |c|] == c
    ensures r[j] == acc[j] && r[j + 1..j + 1 + |c|] == c
  {
    assert r[j] == r[..|acc|][j];
  }

  /** The elements of `es` with a parent id outside `ids`, in input order. */
  function Orphans<E>(es: seq<E>, parent: E -> string, ids: set<string>): seq<E> {
    if es == [] then []
    else
      var x := es[|es| - 1];
      Orphans(es[..|es| - 1], parent, ids) + (if parent(x) != "" && parent(x) !in ids then [x] else [])
  }

  /** The orphans are input elements with a parent id outside `ids`. */
  lemma {:induction false} OrphansMembers<E>(es: seq<E>, parent: E -> string, ids: set<string>)
    ensures forall x :: x in Orphans(es, parent, ids) ==> x in es && parent(x) != "" && parent(x) !in ids
  {
    if es != [] {
      OrphansMembers(es[..|es| - 1], parent, ids);
      assert forall y :: y in es[..|es| - 1] ==> y in es;
    }
  }

  /** The id of every element of `s` is among its ids. */
  lemma {:induction false} ParentIdsMembers<E>(s: seq<E>, id: E -> string)
    ensures forall x :: x in s ==> id(x) in ParentIds(s, id)
  {
    if s != [] {
      var front := s[..|s| - 1];
      ParentIdsMembers(front, id);
      assert forall x :: x in s ==> x in front || x == s[|s| - 1];
    }
  }

  /** Fewer elements carry fewer ids. */
  lemma {:induction false} ParentIdsSubset<E>(a: seq<E>, b: seq<E>, id: E -> string)
    requires forall x :: x in a ==> x in b
    ensures ParentIds(a, id) <= ParentIds(b, id)
  {
    if a != [] {
      ParentIdsSubset(a[..|a| - 1], b, id);
      ParentIdsMembers(b, id);
      assert a[|a| - 1] in a;
    }
  }

  /** A grouping lists elements of `sp` and children of their ids. */
  lemma {:induction false} GroupedMembers<E>(sp: seq<E>, es: seq<E>, id: E -> string, parent: E -> string)
    ensures forall x :: x in Grouped(sp, es, id, parent) ==>
              x in sp || (parent(x) != "" && parent(x) in ParentIds(sp, id))
  {
    if sp != [] {
      var front, p := sp[..|sp| - 1], sp[|sp| - 1];
      GroupedMembers(front, es, id, parent);
      ChildrenMembers(es, parent, id(p));
      assert forall x :: x in front ==> x in sp;
      assert Grouped(sp, es, id, parent) == Grouped(front, es, id, parent) + [p] + ChildrenOf(es, parent, id(p));
    }
  }

  /** With distinct ids no element repeats, so appending orphans to a list
      that holds none adds exactly the orphans, in input order. */
  lemma {:induction false} AppendOrphansDistinct<E>(acc: seq<E>, es: seq<E>, id: E -> string, parent: E -> string, ids: set<string>)
    requires DistinctIds(es, id)
    requires forall x :: x in acc ==> parent(x) == "" || parent(x) in ids
    ensures AppendOrphans(acc, es, parent, ids) == acc + Orphans(es, parent, ids)
  {
    if es != [] {
      var front, x := es[..|es| - 1], es[|es| - 1];
      assert DistinctIds(front, id) by {
        forall i, j | 0 <= i < j < |front|
          ensures id(front[i]) != id(front[j])
        {
          assert front[i] == es[i] && front[j] == es[j];
        }
      }
      AppendOrphansDistinct(acc, front, id, parent, ids);
      OrphansMembers(front, parent, ids);
    }
  }

  /** With distinct ids, the display order is the grouping followed by the
      orphans in input order. */
  lemma ArrangedOrphans<E>(es: seq<E>, id: E -> string, parent: E -> string, rank: E -> nat, n: nat)
    requires DistinctIds(es, id)
    ensures Arranged(es, id, parent, rank, n) ==
            Grouped(SortedByRank(Parents(es, parent), rank, n), es, id, parent) +
            Orphans(es, parent, ParentIds(Parents(es, parent), id))
  {
    var ps := Parents(es, parent);
    var sp := SortedByRank(ps, rank, n);
    var ids := ParentIds(ps, id);
    GroupedMembers(sp, es, id, parent);
    SortedMembers(ps, rank, n);
    ParentsMembers(es, parent);
    ParentIdsSubset(sp, ps, id);
    AppendOrphansDistinct(Grouped(sp, es, id, parent), es, id, parent, ids);
  }

  // ---------------------------------------------------------------------------
  // The loops of `sortEntities`
  // ---------------------------------------------------------------------------

  /** `m` maps each parent id with children in `s` to those children, in order,
      and holds no other key. */
  ghost predicate IndexesChildren<E>(m: map<string, seq<E>>, s: seq<E>, parent: E -> string) {
    (forall i :: i in m ==> m[i] == ChildrenOf(s, parent, i) && m[i] != []) &&
    (forall i :: i !in m ==> ChildrenOf(s, parent, i) == [])
  }

  /** Filing one more element under its parent id keeps the index exact. */
  lemma IndexesChildrenSnoc<E>(m: map<string, seq<E>>, s: seq<E>, x: E, parent: E -> string)
    requires IndexesChildren(m, s, parent)
    ensures parent(x) == "" ==> IndexesChildren(m, s + [x], parent)
    ensures parent(x) != "" ==>
              IndexesChildren(m[parent(x) := (if parent(x) in m then m[parent(x)] else []) + [x]], s + [x], parent)
  {
    assert (s + [x])[..|s|] == s;
  }

  /** Lines 66-74: the children of each parent id, in input order; an id
      with no children has no entry. */
  method ChildrenByParent<E>(es: seq<E>, parent: E -> string) returns (byParent: map<string, seq<E>>)
    ensures forall i :: i in byParent ==> byParent[i] == ChildrenOf(es, parent, i) && byParent[i] != []
    ensures forall i :: i !in byParent ==> ChildrenOf(es, parent, i) == []
  {
    byParent := map[];
    for k := 0 to |es|
      invariant IndexesChildren(byParent, es[..k], parent)
    {
      var x := es[k];
      assert es[..k + 1] == es[..k] + [x];
      IndexesChildrenSnoc(byParent, es[..k], x, parent);
      if parent(x) != "" {
        var children := if parent(x) in byParent then byParent[parent(x)] else [];
        byParent := byParent[parent(x) := children + [x]];
      }
    }
    assert es[..|es|] == es;
  }

  /** Lines 84-89: each sorted parent followed by its children. */
  method GroupParents<E>(sortedParents: seq<E>, es: seq<E>, id: E -> string, parent: E -> string)
    returns (result: seq<E>)
    ensures result == Grouped(sortedParents, es, id, parent)
  {
    var byParent := ChildrenByParent(es, parent);
    result := [];
    for k := 0 to |sortedParents|
      invariant result == Grouped(sortedParents[..k], es, id, parent)
    {
      var p := sortedParents[k];
      assert sortedParents[..k + 1][..k] == sortedParents[..k];
      var children := if id(p) in byParent then byParent[id(p)] else [];
      result := result + [p] + children;
    }
    assert sortedParents[..|sortedParents|] == sortedParents;
  }

  /** Lines 92-98: append each orphan of `es` not yet listed. */
  method AddOrphans<E(==)>(acc: seq<E>, es: seq<E>, parent: E -> string, ids: set<string>)
    returns (result: seq<E>)
    ensures result == AppendOrphans(acc, es, parent, ids)
  {
    result := acc;
    for k := 0 to |es|
      invariant result == AppendOrphans(acc, es[..k], parent, ids)
    {
      var x := es[k];
      assert es[..k + 1][..k] == es[..k];
      if parent(x) != "" && parent(x) !in ids && x !in result {
        result := result + [x];
      }
    }
    assert es[..|es|] == es;
  }

  /** `sortEntities` over elements read through `id`, `parent` and `rank`:
      the filter of line 65 and the sort of lines 77-81 are library calls,
      modelled by their results. */
  method Arrange<E(==)>(es: seq<E>, id: E -> string, parent: E -> string, rank: E -> nat, n: nat)
    returns (result: seq<E>)
    ensures result == Arranged(es, id, parent, rank, n)
  {
    var parents := Parents(es, parent);
    var sortedParents := SortedByRank(parents, rank, n);
    result := GroupParents(sortedParents, es, id, parent);
    result := AddOrphans(result, es, parent, ParentIds(parents, id));
  }
}
