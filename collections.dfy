/** Sequence helpers shared by the calendar, schedule and entity modules:
    strict ordering and the `Array.from(new Set(xs)).sort((a, b) => a - b)` idiom. */
module Collections {

  /** Every element is smaller than every later one (sorted, no duplicates). */
  predicate StrictlyAscending(s: seq<int>) {
    forall i, j :: 0 <= i < j < |s| ==> s[i] < s[j]
  }

  /** Inserts `x` into a strictly ascending sequence, dropping it if present. */
  function Insert(s: seq<int>, x: int): (r: seq<int>)
    requires StrictlyAscending(s)
    ensures StrictlyAscending(r)
    ensures forall y :: y in r <==> y in s || y == x
    ensures |r| <= |s| + 1
  {
    if s == [] then [x]
    else if x < s[0] then [x] + s
    else if x == s[0] then s
    else
      var tail := Insert(s[1..], x);
      assert forall y :: y in s <==> y == s[0] || y in s[1..];
      assert forall i :: 0 <= i < |tail| ==> s[0] < tail[i] by {
        forall i | 0 <= i < |tail| ensures s[0] < tail[i] {
          assert tail[i] in tail;
        }
      }
      [s[0]] + tail
  }

  /** The distinct elements of `xs` in ascending order: what the source computes
      with `Array.from(new Set(xs)).sort((a, b) => a - b)`. */
  function SortedSet(xs: seq<int>): (r: seq<int>)
    ensures StrictlyAscending(r)
    ensures forall y :: y in r <==> y in xs
    ensures |r| <= |xs|
  {
    if xs == [] then []
    else
      var front := SortedSet(xs[..|xs| - 1]);
      assert forall y :: y in xs <==> y in xs[..|xs| - 1] || y == xs[|xs| - 1];
      Insert(front, xs[|xs| - 1])
  }

  /** Two strictly ascending sequences with the same elements are equal, so a
      strictly ascending result is fixed by saying which values it contains. */
  lemma {:induction false} AscendingUnique(a: seq<int>, b: seq<int>)
    requires StrictlyAscending(a) && StrictlyAscending(b)
    requires forall y :: y in a <==> y in b
    ensures a == b
  {
    if a == [] || b == [] {
      FirstIsMember(a);
      FirstIsMember(b);
    } else {
      assert a[0] in b && b[0] in a;
      assert a[0] == b[0];
      forall y ensures y in a[1..] <==> y in b[1..] {
        if y in a[1..] {
          var i :| 1 <= i < |a| && a[i] == y;
          assert y in b && y != b[0];
        }
        if y in b[1..] {
          var i :| 1 <= i < |b| && b[i] == y;
          assert y in a && y != a[0];
        }
      }
      AscendingUnique(a[1..], b[1..]);
      assert a == [a[0]] + a[1..] && b == [b[0]] + b[1..];
    }
  }

  /** The first element of a non-empty sequence is one of its elements. */
  lemma FirstIsMember(s: seq<int>)
    ensures s != [] ==> s[0] in s
  {
  }

  /** Sorting and deduplicating an already strictly ascending sequence changes nothing. */
  lemma SortedSetOfAscending(xs: seq<int>)
    requires StrictlyAscending(xs)
    ensures SortedSet(xs) == xs
  {
    AscendingUnique(SortedSet(xs), xs);
  }

  /** Appending a value larger than every element keeps a sequence strictly ascending. */
  lemma AppendAscending(s: seq<int>, x: int)
    requires StrictlyAscending(s)
    requires forall i :: 0 <= i < |s| ==> s[i] < x
    ensures StrictlyAscending(s + [x])
  {
  }
}
