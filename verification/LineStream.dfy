/** The line tokenizer of the measurement stream (LineTokenizer in web/apis/globalping.ts). */
module LineStream {

  /** The first newline at or behind position 0; -1 when there is none. */
  function IndexOfNewline(s: string): (i: int)
    ensures -1 <= i < |s|
    ensures i == -1 ==> '\n' !in s
    ensures i >= 0 ==> s[i] == '\n' && '\n' !in s[..i]
  {
    if s == "" then -1
    else if s[0] == '\n' then 0
    else
      var i := IndexOfNewline(s[1..]);
      if i == -1 then -1 else i + 1
  }

  predicate EndsWithCR(line: string) {
    line != "" && line[|line| - 1] == '\r'
  }

  function Clean(line: string): string {
    if EndsWithCR(line) then line[..|line| - 1] else line
  }

  /** The complete lines of a text, and what follows the last newline. */
  function Lines(text: string): seq<string> {
    var i := IndexOfNewline(text);
    if i == -1 then [] else [Clean(text[..i])] + Lines(text[i + 1..])
  }

  function Tail(text: string): string {
    var i := IndexOfNewline(text);
    if i == -1 then text else Tail(text[i + 1..])
  }

  /** The tokens of a whole text: an unfinished last line counts unless it is empty. */
  function Tokens(text: string): seq<string> {
    Lines(text) + if Tail(text) == "" then [] else [Clean(Tail(text))]
  }

  function Join(chunks: seq<string>): string {
    if chunks == [] then "" else Join(chunks[..|chunks| - 1]) + chunks[|chunks| - 1]
  }

  // ----- resuming -----

  lemma {:induction false} NewlineBefore(a: string, b: string)
    requires '\n' in a
    ensures IndexOfNewline(a + b) == IndexOfNewline(a) >= 0
  {
    if a[0] == '\n' {
      assert (a + b)[0] == '\n';
    } else {
      assert (a + b)[1..] == a[1..] + b;
      NewlineBefore(a[1..], b);
    }
  }

  lemma LinesStep(text: string)
    ensures var i := IndexOfNewline(text);
            if i == -1 then Lines(text) == [] && Tail(text) == text
            else Lines(text) == [Clean(text[..i])] + Lines(text[i + 1..]) && Tail(text) == Tail(text[i + 1..])
  {
  }

  /** More text behind a complete line changes neither the line nor where it ends. */
  lemma ResumeFirst(a: string, b: string, i: nat)
    requires '\n' in a && i == IndexOfNewline(a)
    ensures i < |a|
    ensures Lines(a) == [Clean(a[..i])] + Lines(a[i + 1..]) && Tail(a) == Tail(a[i + 1..])
    ensures Lines(a + b) == [Clean(a[..i])] + Lines(a[i + 1..] + b) && Tail(a + b) == Tail(a[i + 1..] + b)
  {
    hide Lines, Tail, IndexOfNewline, Clean;
    LinesStep(a);
    NewlineBefore(a, b);
    LinesStep(a + b);
    assert (a + b)[..i] == a[..i] && (a + b)[i + 1..] == a[i + 1..] + b;
  }

  lemma ConsAppend(line: string, xs: seq<string>, ys: seq<string>)
    ensures [line] + (xs + ys) == ([line] + xs) + ys
  {
  }

  lemma NilAppend(xs: seq<string>)
    ensures [] + xs == xs
  {
  }

  /** Tokenizing can stop after any character and go on from the unfinished line. */
  lemma {:induction false} LinesResume(a: string, b: string)
    ensures Lines(a + b) == Lines(a) + Lines(Tail(a) + b)
    ensures Tail(a + b) == Tail(Tail(a) + b)
    decreases |a|
  {
    hide Lines, Tail, IndexOfNewline, Clean;
    var i := IndexOfNewline(a);
    if i == -1 {
      LinesStep(a);
      NilAppend(Lines(a + b));
    } else {
      ResumeFirst(a, b, i);
      LinesResume(a[i + 1..], b);
      ConsAppend(Clean(a[..i]), Lines(a[i + 1..]), Lines(Tail(a) + b));
    }
  }

  lemma {:induction false} TailIsUnfinished(text: string)
    ensures '\n' !in Tail(text) && Lines(Tail(text)) == [] && Tail(Tail(text)) == Tail(text)
  {
    var i := IndexOfNewline(text);
    if i >= 0 {
      TailIsUnfinished(text[i + 1..]);
    }
  }

  /** No token holds a newline. */
  lemma {:induction false} LinesHaveNoNewline(text: string, k: nat)
    requires k < |Lines(text)|
    ensures '\n' !in Lines(text)[k]
  {
    var i := IndexOfNewline(text);
    if k > 0 {
      LinesHaveNoNewline(text[i + 1..], k - 1);
    }
  }

  class LineTokenizer {
    var buffer: string
    /** What was handed to the controller. */
    var enqueued: seq<string>
    ghost var input: string

    ghost predicate Valid()
      reads this
    {
      enqueued == Lines(input) && buffer == Tail(input)
    }

    constructor ()
      ensures Valid() && input == ""
    {
      buffer, enqueued, input := "", [], "";
    }

    method Transform(chunk: string)
      requires Valid()
      modifies this
      ensures Valid() && input == old(input) + chunk
    {
      LinesResume(input, chunk);
      hide Lines, Tail, IndexOfNewline;
      input := input + chunk;
      buffer := buffer + chunk;
      var newlineIndex := IndexOfNewline(buffer);
      while newlineIndex != -1
        invariant newlineIndex == IndexOfNewline(buffer) >= -1
        invariant input == old(input) + chunk
        invariant enqueued + Lines(buffer) == Lines(input) && Tail(buffer) == Tail(input)
        decreases |buffer|
      {
        var line := buffer[..newlineIndex];
        var cleanLine := if EndsWithCR(line) then line[..|line| - 1] else line;
        LinesStep(buffer);
        assert enqueued + Lines(buffer) == (enqueued + [cleanLine]) + Lines(buffer[newlineIndex + 1..]);
        enqueued := enqueued + [cleanLine];
        buffer := buffer[newlineIndex + 1..];
        newlineIndex := IndexOfNewline(buffer);
      }
      LinesStep(buffer);
      assert enqueued + [] == enqueued;
    }

    method Flush()
      requires Valid()
      modifies `enqueued
      ensures enqueued == Tokens(input)
    {
      if buffer != "" {
        var cleanLine := if EndsWithCR(buffer) then buffer[..|buffer| - 1] else buffer;
        enqueued := enqueued + [cleanLine];
      }
    }
  }

  /** Feeds a whole stream: whatever the chunks, the tokens are those of the joined text. */
  method TokenizeStream(chunks: seq<string>) returns (tokens: seq<string>)
    ensures tokens == Tokens(Join(chunks))
  {
    var tokenizer := new LineTokenizer();
    assert chunks[..0] == [] && Join([]) == "";
    hide Lines, Tail, Clean, Join;
    var k := 0;
    while k < |chunks|
      invariant 0 <= k <= |chunks| && fresh(tokenizer) && tokenizer.Valid() && tokenizer.input == Join(chunks[..k])
    {
      JoinStep(chunks, k);
      tokenizer.Transform(chunks[k]);
      k := k + 1;
    }
    assert chunks[..k] == chunks;
    tokenizer.Flush();
    tokens := tokenizer.enqueued;
  }

  lemma JoinStep(chunks: seq<string>, k: nat)
    requires k < |chunks|
    ensures Join(chunks[..k + 1]) == Join(chunks[..k]) + chunks[k]
  {
    assert chunks[..k + 1][..k] == chunks[..k];
  }

  // ----- round trips -----

  /** Every line followed by the same line end. */
  function Printed(lines: seq<string>, lineEnd: string): string {
    if lines == [] then "" else lines[0] + lineEnd + Printed(lines[1..], lineEnd)
  }

  /** The lines without one carriage return at their end. */
  function Cleaned(lines: seq<string>): seq<string> {
    if lines == [] then [] else [Clean(lines[0])] + Cleaned(lines[1..])
  }

  lemma {:induction false} NewlineAt(line: string, rest: string)
    requires '\n' !in line
    ensures IndexOfNewline(line + "\n" + rest) == |line|
  {
    var text := line + "\n" + rest;
    if line != "" {
      assert text[1..] == line[1..] + "\n" + rest;
      assert text[0] == line[0] && line[0] in line;
      NewlineAt(line[1..], rest);
    }
  }

  lemma TokensOfFirst(line: string, rest: string)
    requires '\n' !in line
    ensures Lines(line + "\n" + rest) == [Clean(line)] + Lines(rest) && Tail(line + "\n" + rest) == Tail(rest)
  {
    NewlineAt(line, rest);
    var text := line + "\n" + rest;
    assert text[..|line|] == line && text[|line| + 1..] == rest;
  }

  lemma {:induction false} TokensOfPrinted(lines: seq<string>)
    requires forall i :: 0 <= i < |lines| ==> '\n' !in lines[i]
    ensures Tokens(Printed(lines, "\n")) == Cleaned(lines) && Tail(Printed(lines, "\n")) == ""
  {
    if lines != [] {
      TokensOfFirst(lines[0], Printed(lines[1..], "\n"));
      TokensOfPrinted(lines[1..]);
    }
  }

  lemma {:induction false} CleanedSame(lines: seq<string>)
    ensures Cleaned(lines) == lines <==> forall i :: 0 <= i < |lines| ==> !EndsWithCR(lines[i])
  {
    if lines != [] {
      CleanedSame(lines[1..]);
      if EndsWithCR(lines[0]) {
        assert |Cleaned(lines)[0]| < |lines[0]|;
      } else {
        assert Cleaned(lines) == lines <==> Cleaned(lines[1..]) == lines[1..] by {
          assert lines == [lines[0]] + lines[1..];
        }
        assert forall i :: 1 <= i < |lines| ==> lines[i] == lines[1..][i - 1];
      }
    }
  }

  /** Text printed one line per "\n" comes back as its lines if and only if no line ends in a carriage return. */
  lemma PrintedLinesComeBack(lines: seq<string>)
    requires forall i :: 0 <= i < |lines| ==> '\n' !in lines[i]
    ensures Tokens(Printed(lines, "\n")) == lines <==> forall i :: 0 <= i < |lines| ==> !EndsWithCR(lines[i])
  {
    TokensOfPrinted(lines);
    CleanedSame(lines);
  }

  /** Text printed with "\r\n" comes back whatever its lines end in. */
  lemma {:induction false} CrLfLinesComeBack(lines: seq<string>)
    requires forall i :: 0 <= i < |lines| ==> '\n' !in lines[i]
    ensures Tokens(Printed(lines, "\r\n")) == lines && Tail(Printed(lines, "\r\n")) == ""
  {
    if lines != [] {
      hide IndexOfNewline, Lines, Tail;
      var line, rest := lines[0] + "\r", Printed(lines[1..], "\r\n");
      assert lines[0] + "\r\n" + rest == line + "\n" + rest;
      TokensOfFirst(line, rest);
      CrLfLinesComeBack(lines[1..]);
      assert Clean(line) == lines[0];
      assert [lines[0]] + lines[1..] == lines;
    }
  }

  // ----- every text -----

  lemma PrintedAppend(line: string, lines: seq<string>, last: string)
    ensures Printed([line] + lines, "\n") + last == line + "\n" + (Printed(lines, "\n") + last)
  {
    assert ([line] + lines)[1..] == lines;
  }

  lemma LastLine(last: string)
    requires '\n' !in last
    ensures Lines(last) == [] && Tail(last) == last
  {
    assert IndexOfNewline(last) == -1;
  }

  /** The tokens of any text: its lines, each less a carriage return at its end, and the unfinished last one unless it is
      empty. */
  lemma {:induction false} TokensOfText(lines: seq<string>, last: string)
    requires '\n' !in last && forall i :: 0 <= i < |lines| ==> '\n' !in lines[i]
    ensures Lines(Printed(lines, "\n") + last) == Cleaned(lines) && Tail(Printed(lines, "\n") + last) == last
    ensures Tokens(Printed(lines, "\n") + last) == Cleaned(lines) + (if last == "" then [] else [Clean(last)])
  {
    hide Lines, Tail;
    if lines == [] {
      assert "" + last == last;
      LastLine(last);
    } else {
      var rest := lines[1..];
      assert lines == [lines[0]] + rest;
      PrintedAppend(lines[0], rest, last);
      TokensOfText(rest, last);
      TokensOfFirst(lines[0], Printed(rest, "\n") + last);
    }
  }

  /** Every text is some lines with their newlines and an unfinished last one. */
  lemma {:induction false} EveryTextHasLines(text: string) returns (lines: seq<string>, last: string)
    ensures text == Printed(lines, "\n") + last && '\n' !in last && forall i :: 0 <= i < |lines| ==> '\n' !in lines[i]
  {
    var i := IndexOfNewline(text);
    if i == -1 {
      lines, last := [], text;
      assert "" + text == text;
    } else {
      var rest: seq<string>;
      rest, last := EveryTextHasLines(text[i + 1..]);
      lines := [text[..i]] + rest;
      PrintedAppend(text[..i], rest, last);
      assert text == text[..i] + "\n" + text[i + 1..];
    }
  }
}
