/** A stable sort by a comparator, as JavaScript's Array.prototype.sort: negative or zero keeps the order. */
module StableSort {

  /** Puts `x` behind the last element that does not come after it. */
  function Insert<T>(s: seq<T>, x: T, cmp: (T, T) -> int): seq<T> {
    if s == [] || cmp(s[|s| - 1], x) <= 0 then s + [x]
    else Insert(s[..|s| - 1], x, cmp) + [s[|s| - 1]]
  }

  function Sort<T>(s: seq<T>, cmp: (T, T) -> int): seq<T> {
    if s == [] then [] else Insert(Sort(s[..|s| - 1], cmp), s[|s| - 1], cmp)
  }

  /** The comparator orders the elements of `s` by the difference of their ranks. */
  ghost predicate Ranks<T>(s: seq<T>, cmp: (T, T) -> int, rank: T -> int) {
    forall i, j :: 0 <= i < |s| && 0 <= j < |s| ==> cmp(s[i], s[j]) == rank(s[i]) - rank(s[j])
  }

  ghost predicate Ascending<T>(s: seq<T>, rank: T -> int) {
    forall i, j :: 0 <= i < j < |s| ==> rank(s[i]) <= rank(s[j])
  }

  /** The elements of one rank, in order. */
  function OfRank<T>(s: seq<T>, rank: T -> int, k: int): seq<T> {
    if s == [] then []
    else OfRank(s[..|s| - 1], rank, k) + (if rank(s[|s| - 1]) == k then [s[|s| - 1]] else [])
  }

  lemma OfRankAppend<T>(s: seq<T>, x: T, rank: T -> int, k: int)
    ensures OfRank(s + [x], rank, k) == OfRank(s, rank, k) + (if rank(x) == k then [x] else [])
  {
    assert (s + [x])[..|s|] == s;
  }

  ghost predicate Inserts<T>(s: seq<T>, x: T, rank: T -> int, r: seq<T>) {
    && multiset(r) == multiset(s) + multiset{x}
    && Ascending(r, rank)
    && forall k :: OfRank(r, rank, k) == OfRank(s, rank, k) + (if rank(x) == k then [x] else [])
  }

  lemma {:induction false} InsertInserts<T>(s: seq<T>, x: T, cmp: (T, T) -> int, rank: T -> int)
    requires Ranks(s + [x], cmp, rank) && Ascending(s, rank)
    ensures Inserts(s, x, rank, Insert(s, x, cmp))
  {
    if s == [] {
      InsertLast(s, x, rank);
    } else {
      var m := |s| - 1;
      assert (s + [x])[m] == s[m] && (s + [x])[|s|] == x;
      if cmp(s[m], x) <= 0 {
        InsertLast(s, x, rank);
      } else {
        var front := s[..m];
        forall i, j | 0 <= i < |front + [x]| && 0 <= j < |front + [x]|
          ensures cmp((front + [x])[i], (front + [x])[j]) == rank((front + [x])[i]) - rank((front + [x])[j])
        {
          var i', j' := if i < m then i else |s|, if j < m then j else |s|;
          assert (s + [x])[i'] == (front + [x])[i] && (s + [x])[j'] == (front + [x])[j];
        }
        InsertInserts(front, x, cmp, rank);
        InsertBehind(s, x, rank, Insert(front, x, cmp));
      }
    }
  }

  lemma InsertLast<T>(s: seq<T>, x: T, rank: T -> int)
    requires Ascending(s, rank) && (s != [] ==> rank(s[|s| - 1]) <= rank(x))
    ensures Inserts(s, x, rank, s + [x])
  {
    forall k
      ensures OfRank(s + [x], rank, k) == OfRank(s, rank, k) + (if rank(x) == k then [x] else [])
    {
      OfRankAppend(s, x, rank, k);
    }
  }

  lemma InsertBehind<T>(s: seq<T>, x: T, rank: T -> int, r: seq<T>)
    requires s != [] && Ascending(s, rank) && rank(x) < rank(s[|s| - 1])
    requires Inserts(s[..|s| - 1], x, rank, r)
    ensures Inserts(s, x, rank, r + [s[|s| - 1]])
  {
    hide OfRank;
    var m := |s| - 1;
    var last := s[m];
    assert s == s[..m] + [last];
    forall i | 0 <= i < |r|
      ensures rank(r[i]) <= rank(last)
    {
      assert r[i] in multiset(r);
      assert r[i] == x || r[i] in multiset(s[..m]);
      if r[i] != x {
        var j :| 0 <= j < m && s[..m][j] == r[i];
        assert s[j] == r[i];
      }
    }
    forall k
      ensures OfRank(r + [last], rank, k) == OfRank(s, rank, k) + (if rank(x) == k then [x] else [])
    {
      OfRankAppend(r, last, rank, k);
      OfRankAppend(s[..m], last, rank, k);
      if rank(x) == k {
        assert rank(last) != k;
      }
    }
  }

  /** What a stable sort is: a rearrangement in ascending order that keeps the order of equals. */
  ghost predicate Sorts<T>(s: seq<T>, rank: T -> int, r: seq<T>) {
    && multiset(r) == multiset(s)
    && Ascending(r, rank)
    && forall k :: OfRank(r, rank, k) == OfRank(s, rank, k)
  }

  lemma {:induction false} SortSorts<T>(s: seq<T>, cmp: (T, T) -> int, rank: T -> int)
    requires Ranks(s, cmp, rank)
    ensures Sorts(s, rank, Sort(s, cmp))
  {
    if s != [] {
      var m := |s| - 1;
      var front, r := s[..m], Sort(s[..m], cmp);
      SortSorts(front, cmp, rank);
      assert s == front + [s[m]];
      SameElements(front, r, s[m], cmp, rank);
      InsertInserts(r, s[m], cmp, rank);
      forall k
        ensures OfRank(Sort(s, cmp), rank, k) == OfRank(s, rank, k)
      {
        OfRankAppend(front, s[m], rank, k);
      }
    }
  }

  lemma SameElements<T>(s: seq<T>, r: seq<T>, x: T, cmp: (T, T) -> int, rank: T -> int)
    requires Ranks(s + [x], cmp, rank) && multiset(r) == multiset(s)
    ensures Ranks(r + [x], cmp, rank)
  {
    forall i, j | 0 <= i < |r + [x]| && 0 <= j < |r + [x]|
      ensures cmp((r + [x])[i], (r + [x])[j]) == rank((r + [x])[i]) - rank((r + [x])[j])
    {
      var i', j' := Position(s, r, x, i), Position(s, r, x, j);
      assert (s + [x])[i'] == (r + [x])[i] && (s + [x])[j'] == (r + [x])[j];
    }
  }

  ghost function Position<T>(s: seq<T>, r: seq<T>, x: T, i: nat): (j: nat)
    requires multiset(r) == multiset(s) && i < |r + [x]|
    ensures j < |s + [x]| && (s + [x])[j] == (r + [x])[i]
  {
    if i == |r| then
      assert |multiset(r)| == |r| && |multiset(s)| == |s|;
      |s|
    else
      assert r[i] in multiset(r);
      assert r[i] in multiset(s);
      var j :| 0 <= j < |s| && s[j] == r[i];
      j
  }

  /** Two stable sorts of the same elements agree on their multisets and ranks, so sorting what is sorted and one more
      element is sorting it all. */
  lemma {:induction false} SortOfSorted<T>(s: seq<T>, x: T, cmp: (T, T) -> int, rank: T -> int)
    requires Ranks(s + [x], cmp, rank)
    ensures Sort(Sort(s, cmp) + [x], cmp) == Sort(s + [x], cmp)
  {
    assert Ranks(s, cmp, rank) by {
      assert forall i :: 0 <= i < |s| ==> (s + [x])[i] == s[i];
    }
    var r := Sort(s, cmp);
    SortSorts(s, cmp, rank);
    SameElements(s, r, x, cmp, rank);
    assert Ranks(r, cmp, rank) by {
      assert forall i :: 0 <= i < |r| ==> (r + [x])[i] == r[i];
    }
    SortIsIdentity(r, cmp, rank);
    assert (r + [x])[..|r|] == r && (s + [x])[..|s|] == s;
  }

  lemma InsertAtEnd<T>(s: seq<T>, x: T, cmp: (T, T) -> int)
    requires s == [] || cmp(s[|s| - 1], x) <= 0
    ensures Insert(s, x, cmp) == s + [x]
  {
  }

  lemma {:induction false} SortIsIdentity<T>(s: seq<T>, cmp: (T, T) -> int, rank: T -> int)
    requires Ranks(s, cmp, rank) && Ascending(s, rank)
    ensures Sort(s, cmp) == s
  {
    hide Insert;
    if s != [] {
      var m := |s| - 1;
      var front := s[..m];
      assert forall i :: 0 <= i < m ==> front[i] == s[i];
      assert Ranks(front, cmp, rank) && Ascending(front, rank);
      SortIsIdentity(front, cmp, rank);
      if m > 0 {
        assert cmp(s[m - 1], s[m]) == rank(s[m - 1]) - rank(s[m]) <= 0;
      }
      InsertAtEnd(front, s[m], cmp);
      assert s == front + [s[m]];
    }
  }

  // ----- numbers -----

  /** Sorting numbers by difference ranks each by itself. */
  function Difference(a: int, b: int): int {
    a - b
  }

  function Itself(a: int): int {
    a
  }

  // ----- lists without repetition -----

  ghost predicate Distinct<T>(s: seq<T>) {
    forall i, j :: 0 <= i < j < |s| ==> s[i] != s[j]
  }

  lemma {:induction false} AtMostOnce<T>(s: seq<T>, x: T)
    requires Distinct(s)
    ensures multiset(s)[x] <= 1
  {
    if s != [] {
      var m := |s| - 1;
      AtMostOnce(s[..m], x);
      assert s == s[..m] + [s[m]];
      if s[m] == x {
        assert x !in s[..m];
        assert x !in multiset(s[..m]);
      }
    }
  }

  /** A rearrangement repeats nothing that was not repeated. */
  lemma KeepsDistinct<T>(s: seq<T>, r: seq<T>)
    requires multiset(s) == multiset(r) && Distinct(s)
    ensures Distinct(r)
  {
    forall i, j | 0 <= i < j < |r|
      ensures r[i] != r[j]
    {
      if r[i] == r[j] {
        assert r == r[..i] + [r[i]] + r[i + 1..j] + [r[j]] + r[j + 1..];
        assert multiset(r)[r[i]] >= 2;
        AtMostOnce(s, r[i]);
      }
    }
  }
}
