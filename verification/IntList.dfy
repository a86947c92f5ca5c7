/** Lists of integers as text (pkg/utils/parse.go): "range(a;b)", "range(a;b;step)", or numbers with commas. */
module IntList {
  import opened Wrappers
  import opened Text
  import opened Counting

  /** The integers, an error, or a counting loop that never ends. */
  datatype Outcome = Ints(values: seq<Int>) | Bad | RunsAway

  // ----- the two fixed patterns -----

  /** `\s` of a regular expression. */
  predicate IsBlank(c: char) {
    c == '\t' || c == '\n' || c == '\U{0C}' || c == '\r' || c == ' '
  }

  /** The white space below the 129th character, but for the vertical tab. */
  lemma BlanksAreSpaces(c: char)
    ensures IsBlank(c) <==> c < '\U{80}' && IsSpace(c) && c != '\U{0B}'
  {
  }

  function NumDigits(s: string): (n: nat)
    ensures n <= |s| && AllDigits(s[..n])
    ensures n < |s| ==> !IsDigit(s[n])
  {
    if s != "" && IsDigit(s[0]) then 1 + NumDigits(s[1..]) else 0
  }

  function SkipBlanks(s: string): string {
    if s != "" && IsBlank(s[0]) then SkipBlanks(s[1..]) else s
  }

  /** `(\d+)` and the character behind it; what is matched, and what follows. */
  function DigitsThen(s: string, c: char): Option<(string, string)> {
    var n := NumDigits(s);
    if 0 < n < |s| && s[n] == c then Some((s[..n], s[n + 1..])) else None
  }

  const RANGE := "range("

  /** `^range\((\d+);\s*(\d+)\)$` */
  function MatchRange(s: string): Option<(string, string)> {
    if !(RANGE <= s) then None
    else
      var start := DigitsThen(s[|RANGE|..], ';');
      if start.None? then None
      else
        var end := DigitsThen(SkipBlanks(start.value.1), ')');
        if end.None? || end.value.1 != "" then None else Some((start.value.0, end.value.0))
  }

  /** `^range\((\d+);\s*(\d+);\s*(\d+)\)`: what follows the parenthesis does not matter. */
  function MatchRangeStep(s: string): Option<(string, string, string)> {
    if !(RANGE <= s) then None
    else
      var start := DigitsThen(s[|RANGE|..], ';');
      if start.None? then None
      else
        var end := DigitsThen(SkipBlanks(start.value.1), ';');
        if end.None? then None
        else
          var step := DigitsThen(SkipBlanks(end.value.1), ')');
          if step.None? then None else Some((start.value.0, end.value.0, step.value.0))
  }

  // ----- the whole parser -----

  /** The numbers between the commas; blank parts are skipped, and one bad part spoils the list. */
  function ListOf(segs: seq<string>): Option<seq<Int>> {
    if segs == [] then Some([])
    else
      var front, seg := ListOf(segs[..|segs| - 1]), TrimSpace(segs[|segs| - 1]);
      if front.None? || seg == "" then front
      else if Atoi(seg).None? then None
      else Some(front.value + [Atoi(seg).value])
  }

  /** What counting between two matched numbers gives. */
  ghost predicate IsRange(start: Option<Int>, end: Option<Int>, step: Option<Int>, r: Outcome) {
    if start.None? || end.None? || step.None? || step.value < 0 then r == Bad
    else if start.value > end.value then r == Bad
    else if !Ends(start.value, end.value, step.value) then r == RunsAway
    else r.Ints? && IsCount(r.values, start.value, end.value, step.value)
  }

  /** What the text stands for. */
  ghost predicate Denotes(s: string, r: Outcome) {
    var two, three := MatchRange(s), MatchRangeStep(s);
    if two.Some? then IsRange(Atoi(two.value.0), Atoi(two.value.1), Some(1), r)
    else if three.Some? then IsRange(Atoi(three.value.0), Atoi(three.value.1), Atoi(three.value.2), r)
    else
      var list := ListOf(Split(s, ','));
      r == if list.None? || list.value == [] then Bad else Ints(list.value)
  }

  lemma {:induction false} ListOfFails(segs: seq<string>, k: nat)
    requires k <= |segs| && ListOf(segs[..k]).None?
    ensures ListOf(segs).None?
  {
    hide TrimSpace, Atoi;
    if k == |segs| {
      assert segs[..k] == segs;
    } else {
      var m := |segs| - 1;
      assert segs[..m][..k] == segs[..k];
      ListOfFails(segs[..m], k);
    }
  }

  lemma NotSigned(s: string)
    requires s != "" && AllDigits(s)
    ensures Atoi(s).Some? ==> Atoi(s).value >= 0
  {
    assert IsDigit(s[0]);
  }

  /** A range that ends behind its start is empty, and an error. */
  method CountRange(start: Int, end: Int, step: Int) returns (r: Outcome)
    requires step >= 0
    ensures IsRange(Some(start), Some(end), Some(step), r)
  {
    hide At, Highest;
    AtNext(start, step, 0);
    StartIsBelowHighest(start, step);
    var results := Count(start, end, step);
    if results.None? {
      return RunsAway;
    }
    if |results.value| == 0 {
      return Bad;
    }
    assert results.value[0] == At(start, step, 0);
    r := Ints(results.value);
  }

  method ParseInts(s: string) returns (r: Outcome)
    ensures Denotes(s, r)
  {
    hide DigitsThen, Split, ListOf, TrimSpace, IsCount, Ends;
    MatchedAreDigits(s);
    hide MatchRange, MatchRangeStep, Atoi, AllDigits;
    var two := MatchRange(s);
    if two.Some? {
      var start := Atoi(two.value.0);
      if start.None? {
        return Bad;
      }
      var end := Atoi(two.value.1);
      if end.None? {
        return Bad;
      }
      r := CountRange(start.value, end.value, 1);
      return;
    }
    var three := MatchRangeStep(s);
    if three.Some? {
      var start := Atoi(three.value.0);
      if start.None? {
        return Bad;
      }
      var end := Atoi(three.value.1);
      if end.None? {
        return Bad;
      }
      var step := Atoi(three.value.2);
      if step.None? {
        return Bad;
      }
      NotSigned(three.value.2);
      r := CountRange(start.value, end.value, step.value);
      return;
    }
    r := ParseList(Split(s, ','));
  }

  method ParseList(segs: seq<string>) returns (r: Outcome)
    ensures r == if ListOf(segs).None? || ListOf(segs).value == [] then Bad else Ints(ListOf(segs).value)
  {
    hide TrimSpace, Atoi;
    var results: seq<Int> := [];
    var k := 0;
    while k < |segs|
      invariant 0 <= k <= |segs| && ListOf(segs[..k]) == Some(results)
    {
      assert segs[..k + 1][..k] == segs[..k];
      var seg := TrimSpace(segs[k]);
      if seg != "" {
        var num := Atoi(seg);
        if num.None? {
          ListOfFails(segs, k + 1);
          return Bad;
        }
        results := results + [num.value];
      }
      k := k + 1;
    }
    assert segs[..k] == segs;
    if |results| == 0 {
      return Bad;
    }
    r := Ints(results);
  }

  lemma MatchedAreDigits(s: string)
    ensures MatchRangeStep(s).Some? ==> MatchRangeStep(s).value.2 != "" && AllDigits(MatchRangeStep(s).value.2)
  {
    hide NumDigits, SkipBlanks;
  }

  /** The text denotes one outcome. */
  lemma DenotesOne(s: string, r: Outcome, r': Outcome)
    requires Denotes(s, r) && Denotes(s, r')
    ensures r == r'
  {
    hide MatchRange, MatchRangeStep, Atoi, ListOf, Split, IsCount, Ends;
    if r.Ints? && r'.Ints? && r != r' {
      var two, three := MatchRange(s), MatchRangeStep(s);
      if two.Some? {
        CountUnique(r.values, r'.values, Atoi(two.value.0).value, Atoi(two.value.1).value, 1);
      } else if three.Some? {
        CountUnique(r.values, r'.values, Atoi(three.value.0).value, Atoi(three.value.1).value, Atoi(three.value.2).value);
      }
    }
  }

  // ----- round trips -----

  /** The numbers in decimal. */
  function Printed(ints: seq<Int>): seq<string> {
    if ints == [] then [] else Printed(ints[..|ints| - 1]) + [Itoa(ints[|ints| - 1])]
  }

  lemma {:induction false} PrintedSegs(ints: seq<Int>)
    ensures |Printed(ints)| == |ints|
    ensures forall i :: 0 <= i < |ints| ==> Printed(ints)[i] == Itoa(ints[i]) && ',' !in Printed(ints)[i]
    ensures ListOf(Printed(ints)) == Some(ints)
  {
    hide Itoa, Atoi, TrimSpace;
    if ints != [] {
      var m := |ints| - 1;
      PrintedSegs(ints[..m]);
      var segs := Printed(ints);
      assert segs[..m] == Printed(ints[..m]);
      AtoiUndoesItoa(ints[m]);
      ItoaIsPlain(ints[m], ',');
      ItoaIsTrimmed(ints[m]);
      TrimSpaceTrims(Itoa(ints[m]));
      assert ints == ints[..m] + [ints[m]];
    }
  }

  /** The printed form of a non-empty list starts with a digit or a minus sign, so no pattern matches it. */
  lemma PrintedStart(ints: seq<Int>)
    requires ints != []
    ensures var s := Join(Printed(ints), ',');
            s != "" && (IsDigit(s[0]) || s[0] == '-')
  {
    hide Itoa;
    PrintedSegs(ints);
    AtoiUndoesItoa(ints[0]);
    var segs := Printed(ints);
    assert segs[0] == Itoa(ints[0]);
    assert Join(segs, ',')[0] == segs[0][0];
  }

  /** Parsing undoes printing, for every non-empty list of ints. */
  lemma ParseUndoesPrint(ints: seq<Int>, r: Outcome)
    requires ints != [] && Denotes(Join(Printed(ints), ','), r)
    ensures r == Ints(ints)
  {
    hide ListOf, Printed, Join, Split, DigitsThen, SkipBlanks;
    var s := Join(Printed(ints), ',');
    PrintedSegs(ints);
    PrintedStart(ints);
    assert RANGE[0] == 'r' && s[0] != 'r';
    SplitUndoesJoin(Printed(ints), ',');
  }

  lemma {:induction false} NumDigitsThen(digits: string, c: char, rest: string)
    requires AllDigits(digits) && !IsDigit(c)
    ensures NumDigits(digits + [c] + rest) == |digits|
  {
    var s := digits + [c] + rest;
    if digits != "" {
      assert s[1..] == digits[1..] + [c] + rest && s[0] == digits[0];
      NumDigitsThen(digits[1..], c, rest);
    }
  }

  lemma DigitsThenAt(digits: string, c: char, rest: string)
    requires digits != "" && AllDigits(digits) && !IsDigit(c)
    ensures DigitsThen(digits + [c] + rest, c) == Some((digits, rest))
    ensures forall d :: d != c ==> DigitsThen(digits + [c] + rest, d) == None
  {
    NumDigitsThen(digits, c, rest);
    var s := digits + [c] + rest;
    assert s[..|digits|] == digits && s[|digits| + 1..] == rest && s[|digits|] == c;
  }

  lemma {:induction false} SkipBlanksAt(blanks: string, rest: string)
    requires (forall i :: 0 <= i < |blanks| ==> IsBlank(blanks[i])) && rest != "" && !IsBlank(rest[0])
    ensures SkipBlanks(blanks + rest) == rest
  {
    if blanks == "" {
      assert blanks + rest == rest;
    } else {
      assert (blanks + rest)[1..] == blanks[1..] + rest && (blanks + rest)[0] == blanks[0];
      SkipBlanksAt(blanks[1..], rest);
    }
  }

  predicate AllBlank(s: string) {
    forall i :: 0 <= i < |s| ==> IsBlank(s[i])
  }

  predicate IsNumber(s: string) {
    s != "" && AllDigits(s)
  }

  lemma DigitsThenOnly(s: string, c: char)
    ensures DigitsThen(s, c).Some? ==>
              var m := DigitsThen(s, c).value; IsNumber(m.0) && s == m.0 + ([c] + m.1)
  {
    var n := NumDigits(s);
    if 0 < n < |s| && s[n] == c {
      assert s == s[..n] + ([s[n]] + s[n + 1..]);
    }
  }

  lemma {:induction false} SkipBlanksOnly(s: string) returns (blanks: string)
    ensures AllBlank(blanks) && s == blanks + SkipBlanks(s)
  {
    if s != "" && IsBlank(s[0]) {
      var rest := SkipBlanksOnly(s[1..]);
      blanks := [s[0]] + rest;
      assert s == [s[0]] + s[1..] == blanks + SkipBlanks(s);
    } else {
      blanks := "";
      assert s == "" + s;
    }
  }

  /** The two texts that count as ranges: any number of digits, blanks behind the semicolons. */
  function TwoNumbers(start: string, blanks: string, end: string): string {
    RANGE + (start + ";" + (blanks + (end + ")" + "")))
  }

  function ThreeNumbers(start: string, blanks: string, end: string, blanks': string, step: string, junk: string): string {
    RANGE + (start + ";" + (blanks + (end + ";" + (blanks' + (step + ")" + junk)))))
  }

  lemma MatchesTwo(start: string, blanks: string, end: string)
    requires IsNumber(start) && IsNumber(end) && AllBlank(blanks)
    ensures MatchRange(TwoNumbers(start, blanks, end)) == Some((start, end))
  {
    hide DigitsThen, SkipBlanks;
    var last := end + ")" + "";
    var inner := start + ";" + (blanks + last);
    assert (RANGE + inner)[|RANGE|..] == inner;
    DigitsThenAt(start, ';', blanks + last);
    assert IsDigit(end[0]) && last[0] == end[0];
    SkipBlanksAt(blanks, last);
    DigitsThenAt(end, ')', "");
  }

  lemma MatchesThree(start: string, blanks: string, end: string, blanks': string, step: string, junk: string)
    requires IsNumber(start) && IsNumber(end) && IsNumber(step) && AllBlank(blanks) && AllBlank(blanks')
    ensures var s := ThreeNumbers(start, blanks, end, blanks', step, junk);
            MatchRange(s) == None && MatchRangeStep(s) == Some((start, end, step))
  {
    hide DigitsThen, SkipBlanks;
    var last := step + ")" + junk;
    var middle := end + ";" + (blanks' + last);
    var inner := start + ";" + (blanks + middle);
    assert (RANGE + inner)[|RANGE|..] == inner;
    DigitsThenAt(start, ';', blanks + middle);
    assert IsDigit(end[0]) && middle[0] == end[0];
    SkipBlanksAt(blanks, middle);
    DigitsThenAt(end, ';', blanks' + last);
    assert IsDigit(step[0]) && last[0] == step[0];
    SkipBlanksAt(blanks', last);
    DigitsThenAt(step, ')', junk);
  }

  /** Only such a text matches the first pattern. */
  lemma OnlyTwoMatch(s: string) returns (blanks: string)
    requires MatchRange(s).Some?
    ensures var m := MatchRange(s).value;
            IsNumber(m.0) && IsNumber(m.1) && AllBlank(blanks) && s == TwoNumbers(m.0, blanks, m.1)
    ensures "range(" <= s
  {
    hide DigitsThen, SkipBlanks, IsNumber, AllBlank;
    var inner := s[|RANGE|..];
    DigitsThenOnly(inner, ';');
    var start := DigitsThen(inner, ';').value;
    blanks := SkipBlanksOnly(start.1);
    DigitsThenOnly(SkipBlanks(start.1), ')');
    var end := DigitsThen(SkipBlanks(start.1), ')').value;
    assert s == RANGE + inner;
    Regrouped(start.0, ';', blanks + SkipBlanks(start.1));
    Regrouped(end.0, ')', end.1);
  }

  lemma Regrouped(a: string, c: char, b: string)
    ensures a + ([c] + b) == a + [c] + b
  {
  }

  /** And only such a text the second. */
  lemma OnlyThreeMatch(s: string) returns (blanks: string, blanks': string, junk: string)
    requires MatchRangeStep(s).Some?
    ensures var m := MatchRangeStep(s).value;
            && IsNumber(m.0) && IsNumber(m.1) && IsNumber(m.2) && AllBlank(blanks) && AllBlank(blanks')
            && s == ThreeNumbers(m.0, blanks, m.1, blanks', m.2, junk)
    ensures "range(" <= s
  {
    hide DigitsThen, SkipBlanks, IsNumber, AllBlank;
    var inner := s[|RANGE|..];
    DigitsThenOnly(inner, ';');
    var start := DigitsThen(inner, ';').value;
    blanks := SkipBlanksOnly(start.1);
    DigitsThenOnly(SkipBlanks(start.1), ';');
    var end := DigitsThen(SkipBlanks(start.1), ';').value;
    blanks' := SkipBlanksOnly(end.1);
    DigitsThenOnly(SkipBlanks(end.1), ')');
    var step := DigitsThen(SkipBlanks(end.1), ')').value;
    junk := step.1;
    assert s == RANGE + inner;
    Regrouped(start.0, ';', blanks + SkipBlanks(start.1));
    Regrouped(end.0, ';', blanks' + SkipBlanks(end.1));
    Regrouped(step.0, ')', step.1);
  }

  /** What one more part in front adds to a list. */
  function ReadInFront(seg: string, list: Option<seq<Int>>): Option<seq<Int>> {
    if TrimSpace(seg) == "" then list
    else if Atoi(TrimSpace(seg)).None? || list.None? then None
    else Some([Atoi(TrimSpace(seg)).value] + list.value)
  }

  function ReadBehind(list: Option<seq<Int>>, seg: string): Option<seq<Int>> {
    if TrimSpace(seg) == "" then list
    else if Atoi(TrimSpace(seg)).None? || list.None? then None
    else Some(list.value + [Atoi(TrimSpace(seg)).value])
  }

  lemma ListOfLast(segs: seq<string>, seg: string)
    ensures ListOf([]) == Some([]) && ListOf(segs + [seg]) == ReadBehind(ListOf(segs), seg)
  {
    hide TrimSpace, Atoi;
    assert (segs + [seg])[..|segs|] == segs;
  }

  lemma ReadBothEnds(first: string, list: Option<seq<Int>>, last: string)
    ensures ReadBehind(ReadInFront(first, list), last) == ReadInFront(first, ReadBehind(list, last))
    ensures ReadBehind(Some([]), first) == ReadInFront(first, Some([]))
  {
    hide TrimSpace, Atoi;
    if Atoi(TrimSpace(first)).Some? && Atoi(TrimSpace(last)).Some? && list.Some? {
      var x, y := Atoi(TrimSpace(first)).value, Atoi(TrimSpace(last)).value;
      assert ([x] + list.value) + [y] == [x] + (list.value + [y]);
    }
    assert forall x: Int :: [] + [x] == [x] + [];
  }

  /** The first part of a list is read on its own: a blank one is skipped, one that is no int spoils the list. */
  lemma {:induction false} ListOfFront(seg: string, segs: seq<string>)
    ensures ListOf([]) == Some([]) && ListOf([seg] + segs) == ReadInFront(seg, ListOf(segs))
  {
    hide ListOf, ReadInFront, ReadBehind;
    ListOfLast([], seg);
    if segs == [] {
      ReadBothEnds(seg, Some([]), "");
      assert [seg] + segs == [] + [seg];
    } else {
      var front, last := segs[..|segs| - 1], segs[|segs| - 1];
      assert segs == front + [last] && [seg] + segs == ([seg] + front) + [last];
      ListOfFront(seg, front);
      ListOfLast(front, last);
      ListOfLast([seg] + front, last);
      ReadBothEnds(seg, ListOf(front), last);
    }
  }

  /** A list is read from its first comma on. */
  lemma ListText(first: string, rest: string)
    requires ',' !in first
    ensures ListOf(Split(first, ',')) == ReadInFront(first, Some([]))
    ensures ListOf(Split(first + [','] + rest, ',')) == ReadInFront(first, ListOf(Split(rest, ',')))
  {
    hide ListOf, Split, ReadInFront;
    SplitPlain(first, ',');
    SplitAtFirst(first, ',', rest);
    assert [first] + [] == [first];
    ListOfFront(first, []);
    ListOfFront(first, Split(rest, ','));
  }

  /** A range written with two numbers, and any blanks between, counts from the one to the other. */
  lemma RangeText(start: Int, end: Int, blanks: string, r: Outcome)
    requires start >= 0 && end >= 0 && AllBlank(blanks) && Denotes(TwoNumbers(Itoa(start), blanks, Itoa(end)), r)
    ensures r.Ints? <==> start <= end < MAX_INT
    ensures r.Ints? ==> |r.values| == end - start + 1 && forall k :: 0 <= k < |r.values| ==> r.values[k] == start + k
    ensures r == RunsAway <==> start <= end == MAX_INT
  {
    hide ListOf, Split, DigitsOf, Atoi, MatchRangeStep, MatchRange, TwoNumbers, Ends, IsCount;
    AtoiUndoesItoa(start);
    AtoiUndoesItoa(end);
    MatchesTwo(Itoa(start), blanks, Itoa(end));
    hide Itoa;
    CountByOne(start, end);
    if r.Ints? {
      ProgressionByOne(start, end, r.values);
    }
  }

  lemma CountByOne(start: Int, end: Int)
    ensures Ends(start, end, 1) <==> end < MAX_INT
    ensures start <= end ==> (CountsToEnd(start, end, 1) <==> end < MAX_INT)
  {
    assert PowerOfTwoIn(1) == 1;
  }

  lemma ProgressionByOne(start: Int, end: Int, values: seq<Int>)
    requires start <= end < MAX_INT && IsCount(values, start, end, 1)
    ensures |values| == end - start + 1 && forall k :: 0 <= k < |values| ==> values[k] == start + k
  {
    hide IsCount, Ends;
    CountByOne(start, end);
    ProgressionIff(values, start, end, 1);
    ProgressionEnd(values, start, end, 1);
  }

  /** A range written with a step counts by it on 64-bit ints; what follows the parenthesis is ignored. It never ends if
      and only if the highest int that counting reaches, going round, is not behind the end; and it gives the plain
      progression if and only if the first number behind the end is still an int. */
  lemma RangeStepText(start: Int, end: Int, step: Int, blanks: string, blanks': string, junk: string, r: Outcome)
    requires start >= 0 && end >= 0 && step >= 0 && AllBlank(blanks) && AllBlank(blanks')
    requires Denotes(ThreeNumbers(Itoa(start), blanks, Itoa(end), blanks', Itoa(step), junk), r)
    ensures r == Bad <==> start > end
    ensures r == RunsAway <==> start <= end && !Ends(start, end, step)
    ensures r.Ints? ==> IsCount(r.values, start, end, step)
    ensures start <= end ==>
              (r.Ints? && IsProgression(r.values, start, end, step) <==> CountsToEnd(start, end, step))
  {
    hide ListOf, Split, DigitsOf, Atoi, MatchRange, MatchRangeStep, ThreeNumbers, IsProgression, CountsToEnd, Ends, IsCount;
    AtoiUndoesItoa(start);
    AtoiUndoesItoa(end);
    AtoiUndoesItoa(step);
    MatchesThree(Itoa(start), blanks, Itoa(end), blanks', Itoa(step), junk);
    hide Itoa;
    if start <= end {
      if CountsToEnd(start, end, step) {
        CountsToEndEnds(start, end, step);
      }
      if r.Ints? {
        ProgressionIff(r.values, start, end, step);
      }
    }
  }

  /** The text range(1;2;9223372036854775807). */
  function WrappedText(): string {
    ThreeNumbers(Itoa(1), "", Itoa(2), "", Itoa(MAX_INT), "")
  }

  /** range(1;2;9223372036854775807) is accepted, and gives three numbers of which one lies between its ends. */
  lemma WrappedRangeText(r: Outcome)
    requires Denotes(WrappedText(), r)
    ensures r == Ints([1, MIN_INT, -1])
  {
    hide Denotes, Itoa, IsCount;
    RangeStepText(1, 2, MAX_INT, "", "", "", r);
    WrappedCountEnds();
    WrappedCount(r.values);
  }
}
