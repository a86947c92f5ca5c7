/** The stride lengths of the route trie (web/utls/router.ts): how they are derived from the
    prefix lengths of the routes, and the cuts they put into an address. */
module Segments {
  import StableSort

  /** The strides of one trie, root first. */
  ghost predicate Positive(ss: seq<nat>) {
    forall i :: 0 <= i < |ss| ==> ss[i] > 0
  }

  /** How many leading bits the first `k` strides consume. */
  function Cut(ss: seq<nat>, k: nat): nat
    requires k <= |ss|
  {
    if k == 0 then 0 else Cut(ss, k - 1) + ss[k - 1]
  }

  ghost predicate IsCut(p: nat, ss: seq<nat>) {
    exists k :: 0 <= k <= |ss| && Cut(ss, k) == p
  }

  /** The largest of the first `k` cuts that is not above `p`. */
  function LargestCutUpTo(p: nat, ss: seq<nat>, k: nat): (c: nat)
    requires k <= |ss|
    ensures c <= p
  {
    if Cut(ss, k) <= p || k == 0 then Cut(ss, k) else LargestCutUpTo(p, ss, k - 1)
  }

  function LargestCut(p: nat, ss: seq<nat>): nat {
    LargestCutUpTo(p, ss, |ss|)
  }

  lemma {:induction false} CutsIncrease(ss: seq<nat>, j: nat, k: nat)
    requires Positive(ss) && j <= k <= |ss|
    ensures Cut(ss, j) + (k - j) <= Cut(ss, k)
    decreases k
  {
    if j < k {
      CutsIncrease(ss, j, k - 1);
    }
  }

  lemma CutsInjective(ss: seq<nat>, j: nat, k: nat)
    requires Positive(ss) && j <= |ss| && k <= |ss| && Cut(ss, j) == Cut(ss, k)
    ensures j == k
  {
    if j <= k {
      CutsIncrease(ss, j, k);
    } else {
      CutsIncrease(ss, k, j);
    }
  }

  /** A cut that the next cut overshoots is the largest one. */
  lemma {:induction false} LargestCutAt(p: nat, ss: seq<nat>, d: nat, k: nat)
    requires Positive(ss) && d <= k <= |ss|
    requires Cut(ss, d) <= p && (d == |ss| || Cut(ss, d + 1) > p)
    ensures LargestCutUpTo(p, ss, k) == Cut(ss, d)
    decreases k
  {
    if d < k {
      CutsIncrease(ss, d + 1, k);
      LargestCutAt(p, ss, d, k - 1);
    }
  }

  /** The largest cut not above `p` is `p` itself exactly when `p` is a cut. */
  lemma {:induction false} LargestCutIsExact(p: nat, ss: seq<nat>)
    requires Positive(ss)
    ensures LargestCut(p, ss) == p <==> IsCut(p, ss)
    ensures IsCut(LargestCut(p, ss), ss)
  {
    LargestCutIsCut(p, ss, |ss|);
    if IsCut(p, ss) {
      var k :| 0 <= k <= |ss| && Cut(ss, k) == p;
      if k < |ss| {
        CutsIncrease(ss, k, k + 1);
      }
      LargestCutAt(p, ss, k, |ss|);
    }
  }

  lemma {:induction false} LargestCutIsCut(p: nat, ss: seq<nat>, k: nat)
    requires k <= |ss|
    ensures IsCut(LargestCutUpTo(p, ss, k), ss)
  {
    if k > 0 && Cut(ss, k) > p {
      LargestCutIsCut(p, ss, k - 1);
    }
  }

  ghost predicate Ascending(xs: seq<nat>) {
    forall i, j :: 0 <= i < j < |xs| ==> xs[i] <= xs[j]
  }

  /** The sort of the source, by difference. */
  function Sort(xs: seq<nat>): (r: seq<nat>)
    ensures multiset(r) == multiset(xs)
  {
    SortedByDifference(xs);
    StableSort.Sort<int>(xs, StableSort.Difference)
  }

  lemma SortedByDifference(xs: seq<nat>)
    ensures StableSort.Sorts<int>(xs, StableSort.Itself, StableSort.Sort<int>(xs, StableSort.Difference))
    ensures forall i :: 0 <= i < |StableSort.Sort<int>(xs, StableSort.Difference)| ==> StableSort.Sort<int>(xs, StableSort.Difference)[i] >= 0
  {
    StableSort.SortSorts<int>(xs, StableSort.Difference, StableSort.Itself);
    hide StableSort.Sort, StableSort.Ascending, StableSort.OfRank;
    var r := StableSort.Sort<int>(xs, StableSort.Difference);
    forall i | 0 <= i < |r|
      ensures r[i] >= 0
    {
      assert r[i] in multiset(r);
    }
  }

  /** Lowest first. */
  lemma SortAscending(xs: seq<nat>)
    ensures Ascending(Sort(xs)) && multiset(Sort(xs)) == multiset(xs)
  {
    SortedByDifference(xs);
    hide StableSort.Sort, StableSort.OfRank;
    forall i, j | 0 <= i < j < |Sort(xs)|
      ensures Sort(xs)[i] <= Sort(xs)[j]
    {
      assert StableSort.Itself(Sort(xs)[i]) <= StableSort.Itself(Sort(xs)[j]);
    }
  }

  function PositiveOnly(xs: seq<int>): (r: seq<nat>)
    ensures Positive(r)
  {
    if xs == [] then []
    else
      var r := PositiveOnly(xs[..|xs| - 1]);
      if xs[|xs| - 1] > 0 then r + [xs[|xs| - 1]] else r
  }

  /** What the in-place loop leaves at each index: every entry is reduced by the entry before it,
      which has been reduced already. */
  function Overwritten(p: seq<int>): (s: seq<int>)
    ensures |s| == |p|
  {
    if |p| <= 1 then p
    else
      var s := Overwritten(p[..|p| - 1]);
      s + [p[|p| - 1] - s[|p| - 2]]
  }

  /** What a loop over unmodified predecessors would leave. */
  function Differences(p: seq<int>): (s: seq<int>)
    ensures |s| == |p|
  {
    seq(|p|, i requires 0 <= i < |p| => if i == 0 then p[0] else p[i] - p[i - 1])
  }

  /** The strides the table is built with. */
  function SegmentLengths(lengths: seq<nat>): (ss: seq<nat>)
    ensures Positive(ss)
  {
    PositiveOnly(Overwritten(Sort(lengths)))
  }

  /** On sorted lengths no entry of the loop drops below zero or exceeds the length it came from,
      and each obeys s[i] = p[i] - s[i-1]. */
  lemma {:induction false} OverwrittenEntries(p: seq<nat>, i: nat)
    requires Ascending(p) && i < |p|
    ensures 0 <= Overwritten(p)[i] <= p[i]
    ensures i == 0 ==> Overwritten(p)[0] == p[0]
    ensures i > 0 ==> Overwritten(p)[i] == p[i] - Overwritten(p)[i - 1]
    decreases |p|
  {
    var m := |p| - 1;
    if i < m {
      OverwrittenEntries(p[..m], i);
    } else if m > 0 {
      OverwrittenEntries(p[..m], m - 1);
    }
  }

  /** The loop of the source, in place. */
  method SubtractPredecessors(a: array<int>)
    modifies a
    ensures a[..] == Overwritten(old(a[..]))
  {
    ghost var p := a[..];
    assert a.Length > 0 ==> p[..1] == [a[0]];
    var i := 1;
    while i < a.Length
      invariant a.Length > 0 ==> 1 <= i <= a.Length && a[..i] == Overwritten(p[..i])
      invariant forall j :: i <= j < a.Length ==> a[j] == p[j]
    {
      a[i] := a[i] - a[i - 1];
      assert p[..i + 1][..i] == p[..i];
      assert a[..i + 1] == a[..i] + [a[i]];
      i := i + 1;
    }
    if a.Length > 0 {
      assert p[..i] == p;
    }
  }

  method KeepPositive(xs: seq<int>) returns (r: seq<nat>)
    ensures r == PositiveOnly(xs)
  {
    r := [];
    for i := 0 to |xs|
      invariant r == PositiveOnly(xs[..i])
    {
      assert xs[..i + 1][..i] == xs[..i];
      if xs[i] > 0 {
        r := r + [xs[i]];
      }
    }
    assert xs[..|xs|] == xs;
  }

  method GetTrieTreeSegmentLengths(lengths: seq<nat>) returns (segmentLengths: seq<nat>)
    ensures segmentLengths == SegmentLengths(lengths)
  {
    if |lengths| == 0 {
      return [];
    }
    hide Sort, Overwritten, PositiveOnly;
    var sorted := Sort(lengths);
    var a := new int[|sorted|](i requires 0 <= i < |sorted| => sorted[i]);
    assert a[..] == sorted;
    SubtractPredecessors(a);
    segmentLengths := KeepPositive(a[..]);
  }

  /** Cuts depend only on the strides below them. */
  lemma {:induction false} CutOfPrefix(ss: seq<nat>, whole: seq<nat>, k: nat)
    requires ss <= whole && k <= |ss|
    ensures Cut(whole, k) == Cut(ss, k)
  {
    if k > 0 {
      CutOfPrefix(ss, whole, k - 1);
    }
  }

  lemma {:induction false} PositiveOnlyPrefix(xs: seq<int>, n: nat)
    requires n <= |xs|
    ensures PositiveOnly(xs[..n]) <= PositiveOnly(xs)
    decreases |xs|
  {
    if n == |xs| {
      assert xs[..n] == xs;
    } else {
      PositiveOnlyPrefix(xs[..|xs| - 1], n);
      assert xs[..|xs| - 1][..n] == xs[..n];
    }
  }

  lemma {:induction false} PositiveOnlyAll(xs: seq<nat>)
    requires Positive(xs)
    ensures PositiveOnly(xs) == xs
  {
    if xs != [] {
      var m := |xs| - 1;
      PositiveOnlyAll(xs[..m]);
      assert xs == xs[..m] + [xs[m]];
    }
  }

  lemma SortOfAscending(xs: seq<nat>)
    requires Ascending(xs)
    ensures Sort(xs) == xs
  {
    StableSort.SortIsIdentity<int>(xs, StableSort.Difference, StableSort.Itself);
  }

  /** The positive differences of sorted lengths add up to the last length. */
  lemma {:induction false} DifferencesAddUp(p: seq<nat>)
    requires Ascending(p) && p != []
    ensures var ss := PositiveOnly(Differences(p)); Cut(ss, |ss|) == p[|p| - 1]
    decreases |p|
  {
    var m := |p| - 1;
    var d, ss := Differences(p), PositiveOnly(Differences(p));
    assert d[..m] == Differences(p[..m]);
    if m > 0 {
      DifferencesAddUp(p[..m]);
      var ss' := PositiveOnly(d[..m]);
      CutOfPrefix(ss', ss, |ss'|);
    }
  }

  /** Consecutive differences of sorted lengths have every length among their cuts. */
  lemma DifferencesCutEverywhere(p: seq<nat>, i: nat)
    requires Ascending(p) && i < |p|
    ensures IsCut(p[i], PositiveOnly(Differences(p)))
  {
    var d := Differences(p);
    assert d[..i + 1] == Differences(p[..i + 1]);
    DifferencesAddUp(p[..i + 1]);
    PositiveOnlyPrefix(d, i + 1);
    var ss := PositiveOnly(d[..i + 1]);
    CutOfPrefix(ss, PositiveOnly(d), |ss|);
  }

  // ----- the cuts of the loop, in closed form -----

  /** p[i] + p[i - 2] + p[i - 4] + ... */
  function EverySecond(p: seq<nat>, i: nat): nat
    requires i < |p|
  {
    p[i] + if i >= 2 then EverySecond(p, i - 2) else 0
  }

  function SumOf(xs: seq<int>): int {
    if xs == [] then 0 else SumOf(xs[..|xs| - 1]) + xs[|xs| - 1]
  }

  /** Two neighbouring entries of the loop add up to the later length, so leading sums skip every second length. */
  lemma {:induction false} OverwrittenSum(p: seq<nat>, i: nat)
    requires Ascending(p) && i < |p|
    ensures SumOf(Overwritten(p)[..i + 1]) == EverySecond(p, i)
  {
    hide Overwritten;
    var s := Overwritten(p);
    OverwrittenEntries(p, i);
    SumStep(s, i);
    if i >= 1 {
      SumStep(s, i - 1);
      if i >= 2 {
        OverwrittenSum(p, i - 2);
      }
    }
  }

  lemma SumStep(xs: seq<int>, i: nat)
    requires i < |xs|
    ensures SumOf(xs[..i + 1]) == SumOf(xs[..i]) + xs[i]
    ensures SumOf(xs[..0]) == 0
  {
    assert xs[..i + 1][..i] == xs[..i];
  }

  ghost predicate IsLeadingSum(q: int, xs: seq<int>) {
    exists k :: 0 <= k <= |xs| && SumOf(xs[..k]) == q
  }

  lemma LeadingSumsOfLonger(front: seq<int>, xs: seq<int>, q: int)
    requires xs != [] && front == xs[..|xs| - 1]
    ensures IsLeadingSum(q, xs) <==> IsLeadingSum(q, front) || q == SumOf(xs)
  {
    hide SumOf;
    assert xs[..|xs|] == xs;
    forall k | 0 <= k <= |front|
      ensures SumOf(front[..k]) == SumOf(xs[..k])
    {
      assert xs[..k] == front[..k];
    }
  }

  /** Dropping zeros keeps every leading sum as a cut, and adds no other. */
  lemma {:induction false} CutsAreSums(xs: seq<nat>, q: nat)
    ensures IsCut(q, PositiveOnly(xs)) <==> IsLeadingSum(q, xs)
  {
    if xs == [] {
      assert SumOf(xs[..0]) == 0 && Cut(PositiveOnly(xs), 0) == 0;
    } else {
      hide IsCut, IsLeadingSum;
      var front := xs[..|xs| - 1];
      CutsAreSums(front, q);
      CutsOfLonger(front, xs, q);
      LeadingSumsOfLonger(front, xs, q);
    }
  }

  lemma {:induction false} LastCut(xs: seq<nat>)
    ensures Cut(PositiveOnly(xs), |PositiveOnly(xs)|) == SumOf(xs)
  {
    if xs != [] {
      var m := |xs| - 1;
      LastCut(xs[..m]);
      var ss', ss := PositiveOnly(xs[..m]), PositiveOnly(xs);
      CutOfPrefix(ss', ss, |ss'|);
    }
  }

  /** One more entry adds its sum to the cuts. */
  lemma CutsOfLonger(front: seq<nat>, xs: seq<nat>, q: nat)
    requires xs != [] && front == xs[..|xs| - 1]
    ensures IsCut(q, PositiveOnly(xs)) <==> IsCut(q, PositiveOnly(front)) || q == SumOf(xs)
  {
    var x := xs[|xs| - 1];
    LastCut(xs);
    LastCut(front);
    assert PositiveOnly(xs) == if x > 0 then PositiveOnly(front) + [x] else PositiveOnly(front);
    hide PositiveOnly, SumOf;
    CutsAppend(PositiveOnly(front), x, q);
  }

  lemma CutsAppend(ss: seq<nat>, x: nat, q: nat)
    ensures IsCut(q, ss + [x]) <==> IsCut(q, ss) || q == Cut(ss + [x], |ss| + 1)
    ensures IsCut(q, ss) || q != Cut(ss, |ss|)
  {
    hide Cut;
    var longer := ss + [x];
    forall k | 0 <= k <= |ss|
      ensures Cut(longer, k) == Cut(ss, k)
    {
      CutOfPrefix(ss, longer, k);
    }
    if IsCut(q, longer) {
      var k :| 0 <= k <= |longer| && Cut(longer, k) == q;
      assert k <= |ss| ==> Cut(ss, k) == q;
    }
    if IsCut(q, ss) {
      var k :| 0 <= k <= |ss| && Cut(ss, k) == q;
      assert Cut(longer, k) == q;
    }
  }

  /** Zero, or the sum of every second length of `p` from some length down. */
  ghost predicate IsAlternateSum(q: nat, p: seq<nat>) {
    q == 0 || exists i :: 0 <= i < |p| && q == EverySecond(p, i)
  }

  lemma AlternateSums(p: seq<nat>, s: seq<nat>, q: nat)
    requires |s| == |p| && forall i :: 0 <= i < |p| ==> SumOf(s[..i + 1]) == EverySecond(p, i)
    ensures IsLeadingSum(q, s) <==> IsAlternateSum(q, p)
  {
    assert SumOf(s[..0]) == 0;
    hide SumOf, EverySecond;
    if IsLeadingSum(q, s) {
      var k :| 0 <= k <= |s| && SumOf(s[..k]) == q;
      assert k > 0 ==> SumOf(s[..k - 1 + 1]) == EverySecond(p, k - 1);
    }
    if i :| 0 <= i < |p| && q == EverySecond(p, i) {
      assert SumOf(s[..i + 1]) == q;
    }
  }

  /** The cuts of the source's strides in closed form, for any lengths. */
  lemma LoopCuts(lengths: seq<nat>, q: nat)
    ensures IsCut(q, SegmentLengths(lengths)) <==> IsAlternateSum(q, Sort(lengths))
  {
    hide Sort, Overwritten, PositiveOnly, SumOf, EverySecond;
    var p := Sort(lengths);
    SortAscending(lengths);
    forall i | 0 <= i < |p|
      ensures 0 <= Overwritten(p)[i] && SumOf(Overwritten(p)[..i + 1]) == EverySecond(p, i)
    {
      OverwrittenEntries(p, i);
      OverwrittenSum(p, i);
    }
    CutsAreSums(Overwritten(p), q);
    AlternateSums(p, Overwritten(p), q);
  }

  /** Lengths 8, 16 and 24 are cut at 8, 16 and 32, so 24 is not a cut. */
  lemma OverwriteMisses24()
    ensures SegmentLengths([8, 16, 24]) == [8, 8, 16]
    ensures !IsCut(24, SegmentLengths([8, 16, 24]))
  {
    hide Sort, Overwritten, PositiveOnly;
    var p: seq<nat>, ss: seq<nat> := [8, 16, 24], [8, 8, 16];
    SortOfAscending(p);
    OverwrittenEntries(p, 0);
    OverwrittenEntries(p, 1);
    OverwrittenEntries(p, 2);
    assert Overwritten(p) == ss;
    PositiveOnlyAll(ss);
    assert Cut(ss, 1) == 8 && Cut(ss, 2) == 16 && Cut(ss, 3) == 32;
  }
}
