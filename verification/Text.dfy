/** The text routines of Go's standard library that the request codec uses: Split, Join, TrimSpace, Itoa, Atoi, and
    the numbers they work on. */
module Text {
  import opened Wrappers

  const MAX_INT: int := 0x7FFF_FFFF_FFFF_FFFF
  const MIN_INT: int := -0x8000_0000_0000_0000

  /** Go's int on a 64-bit platform. */
  type Int = n: int | MIN_INT <= n <= MAX_INT

  // ----- splitting and joining -----

  /** The parts between the separators; one more than there are separators. */
  function Split(s: string, sep: char): (segs: seq<string>)
    ensures |segs| > 0
  {
    if s == "" then [""]
    else
      var rest := Split(s[1..], sep);
      if s[0] == sep then [""] + rest else [[s[0]] + rest[0]] + rest[1..]
  }

  function Join(segs: seq<string>, sep: char): string {
    if |segs| == 0 then "" else if |segs| == 1 then segs[0] else segs[0] + [sep] + Join(segs[1..], sep)
  }

  lemma {:induction false} SplitPlain(s: string, sep: char)
    requires sep !in s
    ensures Split(s, sep) == [s]
  {
    if s != "" {
      SplitPlain(s[1..], sep);
      assert s[0] in s && [s[0]] + s[1..] == s;
    }
  }

  lemma {:induction false} SplitAtFirst(s: string, sep: char, rest: string)
    requires sep !in s
    ensures Split(s + [sep] + rest, sep) == [s] + Split(rest, sep)
  {
    var all := s + [sep] + rest;
    if s == "" {
      assert all[1..] == rest;
    } else {
      assert all[1..] == s[1..] + [sep] + rest && all[0] == s[0];
      assert s[0] in s;
      SplitAtFirst(s[1..], sep, rest);
      assert [s[0]] + s[1..] == s;
    }
  }

  /** Splitting undoes joining when no part holds the separator. */
  lemma {:induction false} SplitUndoesJoin(segs: seq<string>, sep: char)
    requires |segs| > 0 && forall i :: 0 <= i < |segs| ==> sep !in segs[i]
    ensures Split(Join(segs, sep), sep) == segs
  {
    if |segs| == 1 {
      SplitPlain(segs[0], sep);
    } else {
      SplitUndoesJoin(segs[1..], sep);
      SplitAtFirst(segs[0], sep, Join(segs[1..], sep));
    }
  }

  lemma {:induction false} SplitHasNoSeparator(s: string, sep: char)
    ensures forall i :: 0 <= i < |Split(s, sep)| ==> sep !in Split(s, sep)[i]
  {
    if s != "" {
      SplitHasNoSeparator(s[1..], sep);
    }
  }

  /** Joining undoes splitting, for every string: with the parts free of separators, splitting is the only way to do so. */
  lemma {:induction false} JoinUndoesSplit(s: string, sep: char)
    ensures Join(Split(s, sep), sep) == s
  {
    if s != "" {
      var rest, all := Split(s[1..], sep), Split(s, sep);
      JoinUndoesSplit(s[1..], sep);
      assert s == [s[0]] + s[1..];
      if s[0] == sep {
        assert all[1..] == rest;
      } else {
        assert all[1..] == rest[1..];
      }
    }
  }

  // ----- white space -----

  /** unicode.IsSpace. */
  predicate IsSpace(c: char) {
    || '\t' <= c <= '\r' || c == ' ' || c == '\U{85}' || c == '\U{A0}' || c == '\U{1680}'
    || '\U{2000}' <= c <= '\U{200A}' || c == '\U{2028}' || c == '\U{2029}' || c == '\U{202F}' || c == '\U{205F}'
    || c == '\U{3000}'
  }

  function TrimLeft(s: string): string {
    if s != "" && IsSpace(s[0]) then TrimLeft(s[1..]) else s
  }

  function TrimRight(s: string): string {
    if s != "" && IsSpace(s[|s| - 1]) then TrimRight(s[..|s| - 1]) else s
  }

  function TrimSpace(s: string): string {
    TrimRight(TrimLeft(s))
  }

  predicate Trimmed(s: string) {
    s != "" ==> !IsSpace(s[0]) && !IsSpace(s[|s| - 1])
  }

  lemma {:induction false} TrimLeftIsPart(s: string)
    ensures TrimLeft(s) != "" ==> !IsSpace(TrimLeft(s)[0])
    ensures forall c :: c in TrimLeft(s) ==> c in s
  {
    if s != "" && IsSpace(s[0]) {
      TrimLeftIsPart(s[1..]);
    }
  }

  lemma {:induction false} TrimRightIsPart(s: string)
    ensures TrimRight(s) <= s
    ensures TrimRight(s) != "" ==> !IsSpace(TrimRight(s)[|TrimRight(s)| - 1])
  {
    if s != "" && IsSpace(s[|s| - 1]) {
      TrimRightIsPart(s[..|s| - 1]);
    }
  }

  /** Trimming gives a trimmed part of the string, and leaves exactly the trimmed strings alone. */
  lemma TrimSpaceTrims(s: string)
    ensures Trimmed(TrimSpace(s)) && (TrimSpace(s) == s <==> Trimmed(s))
    ensures forall c :: c in TrimSpace(s) ==> c in s
  {
    TrimLeftIsPart(s);
    TrimRightIsPart(TrimLeft(s));
  }

  lemma {:induction false} TrimLeftCut(s: string) returns (i: nat)
    ensures i <= |s| && TrimLeft(s) == s[i..] && forall k :: 0 <= k < i ==> IsSpace(s[k])
  {
    if s != "" && IsSpace(s[0]) {
      i := TrimLeftCut(s[1..]);
      i := i + 1;
    } else {
      i := 0;
    }
  }

  lemma {:induction false} TrimRightCut(s: string) returns (j: nat)
    ensures j <= |s| && TrimRight(s) == s[..j] && forall k :: j <= k < |s| ==> IsSpace(s[k])
  {
    if s != "" && IsSpace(s[|s| - 1]) {
      j := TrimRightCut(s[..|s| - 1]);
    } else {
      j := |s|;
    }
  }

  /** Only white space is cut off, before and behind one part of the string: so it is the longest trimmed part. */
  lemma TrimSpaceCuts(s: string) returns (i: nat, j: nat)
    ensures i <= j <= |s| && TrimSpace(s) == s[i..j] && Trimmed(s[i..j])
    ensures forall k :: 0 <= k < i || j <= k < |s| ==> IsSpace(s[k])
  {
    hide TrimLeft, TrimRight, IsSpace;
    TrimSpaceTrims(s);
    i := TrimLeftCut(s);
    var left := TrimLeft(s);
    j := TrimRightCut(left);
    forall k | i + j <= k < |s|
      ensures IsSpace(s[k])
    {
      assert s[k] == left[k - i];
    }
    j := i + j;
  }

  /** Of the first 128 characters, white space are the blank, and tab to carriage return. */
  lemma AsciiSpaces(c: char)
    requires c < '\U{80}'
    ensures IsSpace(c) <==> c as int == 32 || 9 <= c as int <= 13
  {
  }

  // ----- decimal numbers -----

  predicate IsDigit(c: char) {
    '0' <= c <= '9'
  }

  predicate AllDigits(s: string) {
    forall i :: 0 <= i < |s| ==> IsDigit(s[i])
  }

  function DigitsOf(n: nat): (s: string)
    ensures s != "" && AllDigits(s)
  {
    var last := [('0' as int + n % 10) as char];
    if n < 10 then last else DigitsOf(n / 10) + last
  }

  function NumberOf(s: string): nat
    requires AllDigits(s)
  {
    if s == "" then 0 else 10 * NumberOf(s[..|s| - 1]) + (s[|s| - 1] as int - '0' as int)
  }

  /** strconv.Itoa. */
  function Itoa(n: Int): string {
    if n < 0 then "-" + DigitsOf(Abs(n)) else DigitsOf(n)
  }

  function Abs(n: int): nat {
    if n < 0 then -n else n
  }

  /** strconv.Atoi: an optional sign and at least one digit, in the range of an int. */
  function Atoi(s: string): Option<Int> {
    var digits := if s != "" && (s[0] == '-' || s[0] == '+') then s[1..] else s;
    if digits == "" || !AllDigits(digits) then None
    else
      var magnitude: int := NumberOf(digits);
      var n: int := if s[0] == '-' then -magnitude else magnitude;
      if MIN_INT <= n <= MAX_INT then Some(n) else None
  }

  lemma {:induction false} NumberOfDigits(n: nat)
    ensures NumberOf(DigitsOf(n)) == n
  {
    if n >= 10 {
      NumberOfDigits(n / 10);
      var s := DigitsOf(n);
      assert s[..|s| - 1] == DigitsOf(n / 10);
    }
  }

  /** Reading undoes writing, for every int. */
  lemma AtoiUndoesItoa(n: Int)
    ensures Atoi(Itoa(n)) == Some(n)
    ensures Itoa(n) != "" && (IsDigit(Itoa(n)[0]) || Itoa(n)[0] == '-')
  {
    hide NumberOf, DigitsOf;
    NumberOfDigits(Abs(n));
    var digits := DigitsOf(Abs(n));
    assert IsDigit(digits[0]);
    if n < 0 {
      assert Itoa(n)[1..] == digits;
    }
  }

  /** No number but zero is written with a leading zero. */
  lemma {:induction false} NoLeadingZero(n: nat)
    ensures DigitsOf(n)[0] == '0' <==> n == 0
  {
    if n >= 10 {
      NoLeadingZero(n / 10);
    }
  }

  /** Zeros in front of a number. */
  function Zeros(k: nat): string {
    if k == 0 then "" else "0" + Zeros(k - 1)
  }

  /** A number as it may be written: with a plus sign unless negative, and with zeros in front. */
  function Written(n: int, plus: bool, zeros: nat): string {
    (if n < 0 then "-" else if plus then "+" else "") + (Zeros(zeros) + DigitsOf(Abs(n)))
  }

  lemma {:induction false} NumberOfZeros(k: nat, digits: string)
    requires AllDigits(digits)
    ensures AllDigits(Zeros(k) + digits) && NumberOf(Zeros(k) + digits) == NumberOf(digits)
    decreases k, |digits|
  {
    AllZeros(k);
    if digits == "" {
      assert Zeros(k) + digits == Zeros(k);
      NumberOfAllZeros(k);
    } else {
      var m := |digits| - 1;
      NumberOfZeros(k, digits[..m]);
      var s := Zeros(k) + digits;
      assert s[..|s| - 1] == Zeros(k) + digits[..m];
    }
  }

  lemma {:induction false} AllZeros(k: nat)
    ensures |Zeros(k)| == k && forall i :: 0 <= i < k ==> Zeros(k)[i] == '0'
  {
    if k > 0 {
      AllZeros(k - 1);
    }
  }

  lemma {:induction false} NumberOfAllZeros(k: nat)
    ensures AllDigits(Zeros(k)) && NumberOf(Zeros(k)) == 0
  {
    AllZeros(k);
    if k > 0 {
      AllZeros(k - 1);
      assert Zeros(k)[..k - 1] == Zeros(k - 1);
      NumberOfAllZeros(k - 1);
    }
  }

  /** Every way of writing an int is read as that int. */
  lemma AtoiReads(n: int, plus: bool, zeros: nat)
    ensures Atoi(Written(n, plus, zeros)) == if MIN_INT <= n <= MAX_INT then Some(n) else None
  {
    hide NumberOf, DigitsOf;
    NumberOfDigits(Abs(n));
    NumberOfZeros(zeros, DigitsOf(Abs(n)));
    var digits, s := Zeros(zeros) + DigitsOf(Abs(n)), Written(n, plus, zeros);
    assert digits != "" && IsDigit(digits[0]);
    if n < 0 || plus {
      assert s[1..] == digits;
    } else {
      assert s == digits;
    }
  }

  lemma DigitsOfNext(n: nat, c: char)
    requires IsDigit(c)
    ensures DigitsOf(10 * n + (c as int - '0' as int)) == (if n == 0 then "" else DigitsOf(n)) + [c]
  {
    var all := 10 * n + (c as int - '0' as int);
    assert all / 10 == n && all % 10 == c as int - '0' as int;
    assert "" + [c] == [c];
  }

  lemma NumberOfLast(s: string, c: char)
    requires AllDigits(s) && IsDigit(c)
    ensures AllDigits(s + [c]) && NumberOf(s + [c]) == 10 * NumberOf(s) + (c as int - '0' as int)
  {
    assert (s + [c])[..|s|] == s;
  }

  /** A non-empty string of digits is a number behind zeros. */
  lemma {:induction false} DigitsAreWritten(s: string) returns (zeros: nat)
    requires s != "" && AllDigits(s)
    ensures s == Zeros(zeros) + DigitsOf(NumberOf(s))
  {
    hide DigitsOf, NumberOf, Zeros;
    var front, c := s[..|s| - 1], s[|s| - 1];
    assert s == front + [c] && AllDigits(front) && IsDigit(c);
    NumberOfLast(front, c);
    DigitsOfNext(NumberOf(front), c);
    if front == "" {
      zeros := 0;
      NoZeros();
      assert s == [c];
    } else {
      zeros := DigitsAreWritten(front);
      if NumberOf(front) == 0 {
        DigitsOfZero();
        ZerosEnd(zeros);
        zeros := zeros + 1;
      } else {
        AppendAgain(Zeros(zeros), DigitsOf(NumberOf(front)), c);
      }
    }
  }

  lemma NoZeros()
    ensures NumberOf("") == 0 && forall s: string {:trigger Zeros(0) + s} :: Zeros(0) + s == s
  {
  }

  lemma AppendAgain(a: string, b: string, c: char)
    ensures (a + b) + [c] == a + (b + [c])
  {
  }

  lemma {:induction false} ZerosEnd(k: nat)
    ensures Zeros(k) + "0" == Zeros(k + 1)
  {
    if k > 0 {
      ZerosEnd(k - 1);
      assert Zeros(k) + "0" == "0" + (Zeros(k - 1) + "0");
    }
  }

  /** And nothing else is read: a text that reads as an int is one of the ways of writing it, or a zero with a minus sign. */
  lemma AtoiReadsOnlyWritten(s: string) returns (plus: bool, zeros: nat)
    requires Atoi(s).Some?
    ensures s == Written(Atoi(s).value, plus, zeros) || (Atoi(s).value == 0 && s == "-" + (Zeros(zeros) + "0"))
  {
    var digits := if s[0] == '-' || s[0] == '+' then s[1..] else s;
    plus := s[0] == '+';
    hide NumberOf, DigitsOf, Zeros, Atoi;
    AtoiOfSigned(s, digits);
    zeros := DigitsAreWritten(digits);
    DigitsOfZero();
  }

  lemma AtoiOfSigned(s: string, digits: string)
    requires s != "" && digits == if s[0] == '-' || s[0] == '+' then s[1..] else s
    ensures Atoi(s).Some? ==>
              && digits != "" && AllDigits(digits)
              && Atoi(s).value == (if s[0] == '-' then -(NumberOf(digits) as int) else NumberOf(digits))
              && s == (if s[0] == '-' then "-" else if s[0] == '+' then "+" else "") + digits
  {
    hide NumberOf;
    assert s == [s[0]] + s[1..];
  }

  lemma DigitsOfZero()
    ensures DigitsOf(0) == "0"
  {
  }

  lemma ItoaIsPlain(n: Int, c: char)
    requires !IsDigit(c) && c != '-'
    ensures c !in Itoa(n)
  {
    hide DigitsOf;
    assert AllDigits(DigitsOf(Abs(n)));
  }

  lemma ItoaIsTrimmed(n: Int)
    ensures Trimmed(Itoa(n))
  {
    hide DigitsOf;
    var s, digits := Itoa(n), DigitsOf(Abs(n));
    assert IsDigit(digits[|digits| - 1]) && s[|s| - 1] == digits[|digits| - 1];
    assert IsDigit(digits[0]) && (s[0] == digits[0] || s[0] == '-');
  }
}
