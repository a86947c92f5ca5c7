/** The counting loop of pkg/utils/parse.go on 64-bit ints: the increment wraps, so a counter that passes the largest int
    goes on from below. What the loop collects, and exactly when it ends. */
module Counting {
  import opened Bits
  import opened Text
  import opened Wrappers

  // ----- remainders -----

  lemma MulAtLeast(d: int, p: int)
    requires d >= 1 && p > 0
    ensures d * p >= p
  {
  }

  lemma MulMonotonic(a: int, b: int, p: int)
    requires a <= b && p > 0
    ensures a * p <= b * p
  {
    if a < b {
      MulAtLeast(b - a, p);
      assert (b - a) * p == b * p - a * p;
    }
  }

  lemma SameRemainder(n: int, p: int, q: int, r: int)
    requires p > 0 && n == q * p + r && 0 <= r < p
    ensures n % p == r
  {
    var d := n / p - q;
    assert d * p == (n / p) * p - q * p;
    assert d * p == r - n % p;
    assert (-d) * p == -(d * p);
    if d >= 1 {
      MulAtLeast(d, p);
    } else if d <= -1 {
      MulAtLeast(-d, p);
    }
  }

  lemma Multiples(n: int, p: int, k: int)
    requires p > 0
    ensures (n - k * p) % p == n % p
  {
    var q := n / p;
    assert n == q * p + n % p;
    assert n - k * p == (q - k) * p + n % p by {
      assert (q - k) * p == q * p - k * p;
    }
    SameRemainder(n - k * p, p, q - k, n % p);
  }

  // ----- 64-bit addition -----

  const WORDS: int := 0x1_0000_0000_0000_0000

  /** The int that a sum is stored as. */
  function Wrap(x: int): Int {
    (x - MIN_INT) % WORDS + MIN_INT
  }

  lemma WrapIsShift(x: int) returns (t: int)
    ensures Wrap(x) == x - t * WORDS
  {
    t := (x - MIN_INT) / WORDS;
  }

  lemma WrapShifted(x: int, t: int)
    ensures Wrap(x + t * WORDS) == Wrap(x)
  {
    Multiples(x - MIN_INT, WORDS, -t);
    assert x + t * WORDS - MIN_INT == x - MIN_INT - (-t) * WORDS;
  }

  /** The start and `k` steps, as a number. */
  function Sum(start: Int, step: Int, k: nat): int {
    start + k * step
  }

  /** The counter after `k` increments. */
  function At(start: Int, step: Int, k: nat): Int {
    Wrap(Sum(start, step, k))
  }

  lemma AtNext(start: Int, step: Int, k: nat)
    ensures At(start, step, 0) == start
    ensures At(start, step, k + 1) == Wrap(At(start, step, k) + step)
  {
    var t := WrapIsShift(start + k * step);
    assert (k + 1) * step == k * step + step;
    WrapShifted(At(start, step, k) + step, t);
  }

  // ----- which values the counter takes -----

  /** The largest power of two that divides `n`. */
  function PowerOfTwoIn(n: nat): (g: nat)
    requires n > 0
    ensures 1 <= g <= n
  {
    if n % 2 == 1 then 1 else 2 * PowerOfTwoIn(n / 2)
  }

  lemma {:induction false} OddPart(n: nat) returns (e: nat, s: nat)
    requires n > 0
    ensures PowerOfTwoIn(n) == Pow2(e) && n == PowerOfTwoIn(n) * s && s % 2 == 1
  {
    if n % 2 == 1 {
      e, s := 0, n;
    } else {
      e, s := OddPart(n / 2);
      e := e + 1;
      assert 2 * PowerOfTwoIn(n / 2) * s == 2 * (PowerOfTwoIn(n / 2) * s);
    }
  }

  /** Values the counter takes lie this far apart: the common divisors of the step and the number of ints. */
  function Stride(step: Int): (g: int)
    requires step >= 0
    ensures g >= 1
  {
    if step == 0 then WORDS else PowerOfTwoIn(step)
  }

  /** The greatest int that is a whole number of strides from the start. */
  function Highest(start: Int, step: Int): int
    requires step >= 0
  {
    MAX_INT - (MAX_INT - start) % Stride(step)
  }

  /** The loop ends: some value that the counter takes lies behind `end`. */
  predicate Ends(start: Int, end: Int, step: Int)
    requires step >= 0
  {
    Highest(start, step) > end
  }

  lemma Pow2Of64()
    ensures Pow2(64) == WORDS
  {
    Pow2Of32();
    Pow2Sum(32, 32);
    ShiftsAsArithmetic(Pow2(32), 32);
  }

  /** A power of two that divides a positive int divides the number of ints. */
  lemma Cofactor(e: nat)
    requires Pow2(e) <= MAX_INT
    ensures e < 64 && WORDS == Pow2(e) * Pow2(64 - e)
  {
    Pow2Of64();
    if e >= 64 {
      Pow2Monotonic(64, e);
    } else {
      Pow2Sum(e, 64 - e);
      ShiftsAsArithmetic(Pow2(e), 64 - e);
    }
  }

  lemma Regroup(k: int, g: int, s: int, t: int, h: int)
    ensures k * (g * s) - t * (g * h) == (k * s - t * h) * g
  {
    assert k * (g * s) == (k * s) * g;
    assert t * (g * h) == (t * h) * g;
    assert (k * s) * g - (t * h) * g == (k * s - t * h) * g;
  }

  lemma NoneAboveHighest(start: Int, step: Int, k: nat)
    requires step >= 0
    ensures At(start, step, k) <= Highest(start, step)
  {
    if step == 0 {
      AtOfZero(start, k);
    } else {
      var g := PowerOfTwoIn(step);
      var e, s := OddPart(step);
      Cofactor(e);
      var h := Pow2(64 - e);
      var t := WrapIsShift(start + k * step);
      Regroup(k, g, s, t, h);
      NoneAbove(start, At(start, step, k), g, k * s - t * h);
    }
  }

  lemma NoneAbove(start: Int, x: Int, g: int, m: int)
    requires g > 0 && x == start + m * g
    ensures x <= MAX_INT - (MAX_INT - start) % g
  {
    Multiples(MAX_INT - start, g, m);
    RemainderAtMost(MAX_INT - x, g);
  }

  lemma AtOfZero(start: Int, k: nat)
    ensures At(start, 0, k) == start && Highest(start, 0) == start
  {
    assert k * 0 == 0;
  }

  lemma RemainderAtMost(n: nat, p: int)
    requires p > 0
    ensures n % p <= n
  {
  }

  /** Modulo a power of two, every number is a multiple of an odd one. */
  lemma {:induction false} OddReaches(s: nat, c: int, m: nat) returns (k: nat, q: int)
    requires s % 2 == 1
    ensures k * s - c == q * Pow2(m)
  {
    if m == 0 {
      k, q := 0, -c;
    } else {
      k, q := OddReaches(s, c, m - 1);
      var p := Pow2(m - 1);
      if q % 2 == 0 {
        q := q / 2;
      } else {
        k, q := OddStep(s, c, p, k, q);
      }
    }
  }

  lemma OddStep(s: nat, c: int, p: nat, k: nat, q: int) returns (k': nat, q': int)
    requires s % 2 == 1 && q % 2 != 0 && k * s - c == q * p
    ensures k' * s - c == q' * (2 * p)
  {
    k', q' := k + p, (q + s) / 2;
    assert q + s == 2 * q';
    assert (k + p) * s == k * s + p * s;
    assert (q + s) * p == q * p + s * p;
    assert 2 * q' * p == q' * (2 * p);
  }

  lemma HighestIsReached(start: Int, step: Int) returns (k: nat)
    requires step >= 0
    ensures At(start, step, k) == Highest(start, step)
  {
    if step == 0 {
      k := 0;
      AtOfZero(start, 0);
    } else {
      var g := PowerOfTwoIn(step);
      var e, s := OddPart(step);
      Cofactor(e);
      var h := Pow2(64 - e);
      var q: int;
      k, q := OddReaches(s, (MAX_INT - start) / g, 64 - e);
      Reached(start, step, g, s, h, k, q);
    }
  }

  lemma Reached(start: Int, step: Int, g: int, s: int, h: int, k: nat, q: int)
    requires g > 0 && step == g * s && WORDS == g * h && k * s - (MAX_INT - start) / g == q * h
    ensures At(start, step, k) == MAX_INT - (MAX_INT - start) % g
  {
    var c := (MAX_INT - start) / g;
    var v := MAX_INT - (MAX_INT - start) % g;
    assert v == start + c * g by {
      assert MAX_INT - start == g * c + (MAX_INT - start) % g;
    }
    RemainderAtMost(MAX_INT - start, g);
    Regroup(k, g, s, q, h);
    assert k * s - q * h == c;
    assert start + k * step == v + q * WORDS;
    WrapShifted(v, q);
    WrapOfInt(v);
  }

  lemma WrapOfInt(x: int)
    requires MIN_INT <= x <= MAX_INT
    ensures Wrap(x) == x
  {
  }

  /** The exact condition for the loop to end, as one a caller can check. */
  lemma EndsIff(start: Int, end: Int, step: Int)
    requires step >= 0
    ensures Ends(start, end, step) <==> exists k: nat :: At(start, step, k) > end
  {
    hide At, Highest;
    if Ends(start, end, step) {
      var k := HighestIsReached(start, step);
      assert At(start, step, k) > end;
    }
    forall k: nat
      ensures At(start, step, k) <= Highest(start, step)
    {
      NoneAboveHighest(start, step, k);
    }
  }

  // ----- the loop -----

  /** The values of the counter up to the first one behind `end`, which is not among them. */
  ghost predicate IsCount(values: seq<Int>, start: Int, end: Int, step: Int) {
    && (forall k :: 0 <= k < |values| ==> values[k] == At(start, step, k) <= end)
    && At(start, step, |values|) > end
  }

  lemma CountUnique(xs: seq<Int>, ys: seq<Int>, start: Int, end: Int, step: Int)
    requires IsCount(xs, start, end, step) && IsCount(ys, start, end, step)
    ensures xs == ys
  {
    hide At;
    assert |xs| == |ys|;
  }

  /** The first increment that takes the counter behind `end`, at or before the `k`-th. */
  lemma FirstBehind(start: Int, end: Int, step: Int, k: nat) returns (n: nat)
    requires At(start, step, k) > end
    ensures At(start, step, n) > end && forall j: nat :: j < n ==> At(start, step, j) <= end
  {
    hide At;
    n := 0;
    while At(start, step, n) <= end
      invariant n <= k && forall j: nat :: j < n ==> At(start, step, j) <= end
      decreases k - n
    {
      n := n + 1;
    }
  }

  /** `for i := start; i <= end; i += step`. Where the loop has no end the outcome is None. */
  method Count(start: Int, end: Int, step: Int) returns (r: Option<seq<Int>>)
    requires step >= 0
    ensures r.Some? <==> Ends(start, end, step)
    ensures r.Some? <==> exists k: nat :: At(start, step, k) > end
    ensures r.Some? ==> IsCount(r.value, start, end, step)
  {
    hide At, Ends, Wrap;
    EndsIff(start, end, step);
    if !Ends(start, end, step) {
      return None;
    }
    ghost var k: nat :| At(start, step, k) > end;
    ghost var n := FirstBehind(start, end, step, k);
    var results: seq<Int> := [];
    var i := start;
    AtNext(start, step, 0);
    while i <= end
      invariant |results| <= n && i == At(start, step, |results|)
      invariant forall j :: 0 <= j < |results| ==> results[j] == At(start, step, j) <= end
      decreases n - |results|
    {
      AtNext(start, step, |results|);
      results := results + [i];
      i := Wrap(i + step);
    }
    r := Some(results);
  }

  // ----- when the values are a progression -----

  /** The first number behind `end` that counting without wrapping meets. */
  function Beyond(start: Int, end: Int, step: int): int
    requires step > 0
  {
    end - (end - start) % step + step
  }

  predicate CountsToEnd(start: Int, end: Int, step: Int) {
    step > 0 && Beyond(start, end, step) <= MAX_INT
  }

  /** start, start + step, start + 2 step, ... up to `end`. */
  ghost predicate IsProgression(values: seq<Int>, start: Int, end: Int, step: Int) {
    && step > 0
    && (forall k :: 0 <= k < |values| ==> values[k] == Sum(start, step, k) <= end)
    && Sum(start, step, |values|) > end
  }

  lemma ProgressionEnd(values: seq<Int>, start: Int, end: Int, step: Int)
    requires start <= end && IsProgression(values, start, end, step)
    ensures Sum(start, step, |values|) == Beyond(start, end, step)
  {
    var n := |values|;
    assert n > 0;
    assert values[n - 1] == Sum(start, step, n - 1);
    assert n * step == (n - 1) * step + step;
    SameRemainder(end - start, step, n - 1, end - start - (n - 1) * step);
  }

  /** The result is the plain progression if and only if the first number behind the end is still an int. */
  lemma ProgressionIff(values: seq<Int>, start: Int, end: Int, step: Int)
    requires step >= 0 && start <= end && IsCount(values, start, end, step)
    ensures IsProgression(values, start, end, step) <==> CountsToEnd(start, end, step)
  {
    hide Sum;
    if CountsToEnd(start, end, step) {
      CountIsProgression(values, start, end, step);
    }
    if IsProgression(values, start, end, step) {
      ProgressionEnd(values, start, end, step);
      BeyondIsNear(start, end, step);
      WrapBehind(Sum(start, step, |values|), end, step);
    }
  }

  lemma BeyondIsNear(start: Int, end: Int, step: Int)
    requires step > 0
    ensures end < Beyond(start, end, step) <= end + step
  {
  }

  lemma WrapOver(x: int)
    requires MAX_INT < x <= MAX_INT + WORDS
    ensures Wrap(x) == x - WORDS
  {
  }

  lemma WrapBehind(x: int, end: Int, step: Int)
    requires end < x <= end + step && Wrap(x) > end
    ensures x <= MAX_INT
  {
    hide Wrap;
    if x > MAX_INT {
      WrapOver(x);
    }
  }

  lemma CountIsProgression(values: seq<Int>, start: Int, end: Int, step: Int)
    requires start <= end && IsCount(values, start, end, step) && CountsToEnd(start, end, step)
    ensures IsProgression(values, start, end, step)
  {
    hide At, Sum, Beyond;
    var last := LastOfProgression(start, end, step);
    forall k: nat | k <= last + 1
      ensures At(start, step, k) == Sum(start, step, k) && (k <= last ==> Sum(start, step, k) <= end)
    {
      PlainAt(start, end, step, last, k);
    }
    BeyondIsNear(start, end, step);
    LengthOfCount(values, start, end, step, last + 1);
  }

  lemma LastOfProgression(start: Int, end: Int, step: Int) returns (last: nat)
    requires start <= end && step > 0
    ensures Sum(start, step, last) <= end && Sum(start, step, last + 1) == Beyond(start, end, step)
  {
    last := (end - start) / step;
    assert end - start == step * last + (end - start) % step;
    assert (last + 1) * step == last * step + step;
  }

  lemma LengthOfCount(values: seq<Int>, start: Int, end: Int, step: Int, n: nat)
    requires IsCount(values, start, end, step)
    requires At(start, step, n) > end && forall k: nat :: k < n ==> At(start, step, k) <= end
    ensures |values| == n
  {
    hide At;
  }

  lemma PlainAt(start: Int, end: Int, step: Int, last: nat, k: nat)
    requires step > 0 && k <= last + 1 && start <= end
    requires Sum(start, step, last) <= end && Sum(start, step, last + 1) <= MAX_INT
    ensures At(start, step, k) == Sum(start, step, k)
    ensures k <= last ==> Sum(start, step, k) <= end
  {
    MulMonotonic(k, last + 1, step);
    MulMonotonic(0, k, step);
    if k <= last {
      MulMonotonic(k, last, step);
    }
    WrapOfInt(Sum(start, step, k));
  }

  lemma CountsToEndEnds(start: Int, end: Int, step: Int)
    requires step >= 0 && start <= end && CountsToEnd(start, end, step)
    ensures Ends(start, end, step)
  {
    hide At, Sum, Beyond, Ends;
    var last := LastOfProgression(start, end, step);
    PlainAt(start, end, step, last, last + 1);
    BeyondIsNear(start, end, step);
    EndsIff(start, end, step);
  }

  lemma StartIsBelowHighest(start: Int, step: Int)
    requires step >= 0
    ensures start <= Highest(start, step)
  {
    RemainderAtMost(MAX_INT - start, Stride(step));
  }

  // ----- an example -----

  lemma WrappedCountEnds()
    ensures Ends(1, 2, MAX_INT) && !CountsToEnd(1, 2, MAX_INT)
  {
    assert At(1, MAX_INT, 3) > 2;
    EndsIff(1, 2, MAX_INT);
  }

  /** From 1 up to 2 by the largest int: the counter wraps twice, and the loop ends after three values. */
  lemma WrappedCount(values: seq<Int>)
    requires IsCount(values, 1, 2, MAX_INT)
    ensures values == [1, MIN_INT, -1]
  {
    assert At(1, MAX_INT, 0) == 1 && At(1, MAX_INT, 1) == MIN_INT && At(1, MAX_INT, 2) == -1 && At(1, MAX_INT, 3) == MAX_INT - 1;
    LengthOfCount(values, 1, 2, MAX_INT, 3);
    assert values[0] == At(1, MAX_INT, 0) && values[1] == At(1, MAX_INT, 1) && values[2] == At(1, MAX_INT, 2);
  }
}
