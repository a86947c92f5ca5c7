/** The parser of 32-bit words in network byte order (web/utls/streams.ts). */
module WordStream {
  import Bits
  import opened Bytes

  const WORD_SIZE := 4

  /** The whole words at the front of `bs`, big end first. */
  function Words(bs: seq<byte>): seq<nat> {
    if |bs| < WORD_SIZE then [] else [BigEndian(bs[..WORD_SIZE])] + Words(bs[WORD_SIZE..])
  }

  /** The bytes behind the last whole word. */
  function Rest(bs: seq<byte>): seq<byte> {
    bs[|bs| - |bs| % WORD_SIZE..]
  }

  function Concat(chunks: seq<seq<byte>>): seq<byte> {
    if chunks == [] then [] else Concat(chunks[..|chunks| - 1]) + chunks[|chunks| - 1]
  }

  /** What `Words` means: one word per four bytes, the i-th read from bytes 4i to 4i + 3. */
  lemma {:induction false} WordAt(bs: seq<byte>, i: nat)
    requires i < |bs| / WORD_SIZE
    ensures |Words(bs)| == |bs| / WORD_SIZE
    ensures Words(bs)[i] == BigEndian(bs[WORD_SIZE * i..WORD_SIZE * i + WORD_SIZE])
  {
    NumWords(bs);
    if i > 0 {
      WordAt(bs[WORD_SIZE..], i - 1);
      assert bs[WORD_SIZE..][WORD_SIZE * (i - 1)..WORD_SIZE * i] == bs[WORD_SIZE * i..WORD_SIZE * i + WORD_SIZE];
    }
  }

  lemma {:induction false} NumWords(bs: seq<byte>)
    ensures |Words(bs)| == |bs| / WORD_SIZE
  {
    if |bs| >= WORD_SIZE {
      NumWords(bs[WORD_SIZE..]);
    }
  }

  lemma SliceDrop(bs: seq<byte>, k: nat, m: nat)
    requires k <= m <= |bs|
    ensures bs[k..][m - k..] == bs[m..]
  {
  }

  lemma RemainderDrop(n: nat)
    requires n >= WORD_SIZE
    ensures (n - WORD_SIZE) % WORD_SIZE == n % WORD_SIZE
    ensures WORD_SIZE <= n - n % WORD_SIZE
  {
    var q, r := n / WORD_SIZE, n % WORD_SIZE;
    assert n == WORD_SIZE * q + r && q >= 1;
  }

  lemma RestAt(bs: seq<byte>, m: nat)
    requires m == |bs| - |bs| % WORD_SIZE
    ensures Rest(bs) == bs[m..]
  {
  }

  lemma RestDrop(bs: seq<byte>)
    requires |bs| >= WORD_SIZE
    ensures Rest(bs[WORD_SIZE..]) == Rest(bs)
  {
    hide Rest;
    RemainderDrop(|bs|);
    var m := |bs| - |bs| % WORD_SIZE;
    RestAt(bs, m);
    RestAt(bs[WORD_SIZE..], m - WORD_SIZE);
    SliceDrop(bs, WORD_SIZE, m);
  }

  /** Parsing can stop after any number of bytes and go on from what is left over. */
  lemma {:induction false} WordsResume(a: seq<byte>, b: seq<byte>)
    ensures Words(a + b) == Words(a) + Words(Rest(a) + b)
    ensures Rest(a + b) == Rest(Rest(a) + b)
  {
    hide Rest;
    if |a| < WORD_SIZE {
      WordsOfShort(a);
      assert Words(a + b) == [] + Words(a + b);
    } else {
      var a', first := a[WORD_SIZE..], BigEndian(a[..WORD_SIZE]);
      assert (a + b)[..WORD_SIZE] == a[..WORD_SIZE];
      assert (a + b)[WORD_SIZE..] == a' + b;
      WordsResume(a', b);
      RestDrop(a);
      RestDrop(a + b);
      assert [first] + (Words(a') + Words(Rest(a') + b)) == ([first] + Words(a')) + Words(Rest(a') + b);
    }
  }

  lemma WordsOfShort(a: seq<byte>)
    requires |a| < WORD_SIZE
    ensures Words(a) == [] && Rest(a) == a
  {
    assert |a| % WORD_SIZE == |a|;
  }

  lemma WordsOfRest(bs: seq<byte>)
    ensures |Rest(bs)| < WORD_SIZE && Words(Rest(bs)) == [] && Rest(Rest(bs)) == Rest(bs)
  {
  }

  /** Writing words out and parsing them gives the words back. */
  function Written(words: seq<nat>): seq<byte> {
    if words == [] then [] else ToBytes(words[0], WORD_SIZE) + Written(words[1..])
  }

  lemma {:induction false} ParseUndoesWrite(words: seq<nat>)
    requires forall i :: 0 <= i < |words| ==> words[i] < 0x1_0000_0000
    ensures Words(Written(words)) == words && Rest(Written(words)) == []
  {
    if words != [] {
      var first, more := ToBytes(words[0], WORD_SIZE), Written(words[1..]);
      ParseUndoesWrite(words[1..]);
      assert (first + more)[..WORD_SIZE] == first && (first + more)[WORD_SIZE..] == more;
      FourBytes(words[0]);
      assert Rest(first + more) == Rest(more);
    }
  }

  lemma FourBytes(w: nat)
    requires w < 0x1_0000_0000
    ensures BigEndian(ToBytes(w, WORD_SIZE)) == w
  {
    Bits.Pow2Of32();
    BigEndianOfToBytes(w, WORD_SIZE);
  }

  // ----- the merge -----

  /** Writes one chunk at its place. */
  method SetBytes(buffer: array<byte>, offset: nat, chunk: seq<byte>)
    requires offset + |chunk| <= buffer.Length
    modifies buffer
    ensures buffer[..offset + |chunk|] == old(buffer[..offset]) + chunk
  {
    var i := 0;
    while i < |chunk|
      invariant 0 <= i <= |chunk|
      invariant buffer[..offset + i] == old(buffer[..offset]) + chunk[..i]
    {
      buffer[offset + i] := chunk[i];
      i := i + 1;
    }
    assert chunk[..i] == chunk;
  }

  /** Copies the chunks one after the other into a new buffer. */
  method MergeArrayBuffers(chunks: seq<seq<byte>>, totalSize: nat) returns (mergedBuffer: array<byte>)
    requires totalSize == |Concat(chunks)|
    ensures fresh(mergedBuffer) && mergedBuffer[..] == Concat(chunks)
  {
    hide Concat;
    mergedBuffer := new byte[totalSize](_ => 0);
    var offset := 0;
    var k := 0;
    assert chunks[..0] == [] && chunks[..|chunks|] == chunks;
    ConcatOfOne([]);
    while k < |chunks|
      invariant 0 <= k <= |chunks| && offset == |Concat(chunks[..k])| <= totalSize == mergedBuffer.Length
      invariant fresh(mergedBuffer) && mergedBuffer[..offset] == Concat(chunks[..k])
    {
      ConcatStep(chunks, k);
      SetBytes(mergedBuffer, offset, chunks[k]);
      offset := offset + |chunks[k]|;
      k := k + 1;
    }
    assert mergedBuffer[..] == mergedBuffer[..offset];
  }

  lemma ConcatStep(chunks: seq<seq<byte>>, k: nat)
    requires k < |chunks|
    ensures Concat(chunks[..k + 1]) == Concat(chunks[..k]) + chunks[k]
    ensures |Concat(chunks[..k + 1])| <= |Concat(chunks)|
  {
    assert chunks[..k + 1][..k] == chunks[..k];
    ConcatPrefix(chunks, k + 1);
  }

  lemma {:induction false} ConcatPrefix(chunks: seq<seq<byte>>, k: nat)
    requires k <= |chunks|
    ensures |Concat(chunks[..k])| <= |Concat(chunks)|
  {
    if k < |chunks| {
      var m := |chunks| - 1;
      assert chunks[..m][..k] == chunks[..k];
      ConcatPrefix(chunks[..m], k);
    } else {
      assert chunks[..k] == chunks;
    }
  }

  lemma ConcatOfOne(chunk: seq<byte>)
    ensures Concat([]) == [] && Concat([chunk]) == chunk
  {
    assert [chunk][..0] == [];
  }

  // ----- the stream parser -----

  /** A chunk of the stream: binary data, or something else. */
  datatype Chunk = Binary(data: seq<byte>) | Other

  class Uint32StreamParser {
    var chunks: seq<seq<byte>>
    var totalSize: nat
    /** The controller: what was enqueued, and whether the stream failed. */
    var enqueued: seq<nat>
    var failed: bool
    ghost var input: seq<byte>

    /** What was enqueued are the words of the input so far, and what is kept is the rest. */
    ghost predicate Valid()
      reads this
    {
      totalSize == |Concat(chunks)| && enqueued == Words(input) && Concat(chunks) == Rest(input)
    }

    constructor ()
      ensures Valid() && input == [] && !failed
    {
      chunks, totalSize, enqueued, failed, input := [], 0, [], false, [];
    }

    method DoConsume()
      requires totalSize == |Concat(chunks)|
      modifies `chunks, `totalSize, `enqueued
      ensures enqueued == old(enqueued) + Words(old(Concat(chunks)))
      ensures Concat(chunks) == Rest(old(Concat(chunks))) && totalSize == |Concat(chunks)|
    {
      hide Words, Concat, BigEndian;
      if |Concat(chunks)| < WORD_SIZE {
        WordsOfShort(Concat(chunks));
      }
      if totalSize >= WORD_SIZE {
        var nWords := totalSize / WORD_SIZE;
        var restSize := totalSize % WORD_SIZE;
        var mergedBuffer := MergeArrayBuffers(chunks, totalSize);
        ghost var bs := mergedBuffer[..];
        NumWords(bs);
        var i := 0;
        while i < nWords
          invariant 0 <= i <= nWords && mergedBuffer[..] == bs
          invariant enqueued == old(enqueued) + Words(bs)[..i]
        {
          var offset := i * WORD_SIZE;
          var word := BigEndian(mergedBuffer[offset..offset + WORD_SIZE]);
          WordAt(bs, i);
          assert mergedBuffer[offset..offset + WORD_SIZE] == bs[offset..offset + WORD_SIZE];
          enqueued := enqueued + [word];
          i := i + 1;
        }
        assert Words(bs)[..i] == Words(bs);
        chunks := [];
        totalSize := 0;
        ConcatOfOne(Rest(bs));
        if restSize > 0 {
          var restChunk := mergedBuffer[mergedBuffer.Length - restSize..];
          chunks := chunks + [restChunk];
          totalSize := totalSize + restSize;
          assert restChunk == Rest(bs) && chunks == [restChunk];
        }
      }
    }

    method Transform(chunk: Chunk)
      requires Valid()
      modifies this
      ensures Valid()
      ensures chunk.Binary? ==> input == old(input) + chunk.data && failed == old(failed)
      ensures chunk.Other? ==> failed && input == old(input) && enqueued == old(enqueued) && chunks == old(chunks)
    {
      match chunk
      case Other =>
        failed := true;
      case Binary(data) =>
        WordsResume(input, data);
        assert (chunks + [data])[..|chunks|] == chunks;
        chunks := chunks + [data];
        totalSize := totalSize + |data|;
        DoConsume();
        input := input + data;
    }

    /** Nothing is left to enqueue when the stream ends. */
    method Flush()
      requires Valid()
      modifies `chunks, `totalSize, `enqueued
      ensures Valid() && enqueued == old(enqueued)
    {
      WordsOfRest(input);
      DoConsume();
    }
  }

  method FeedAll(parser: Uint32StreamParser, data: seq<seq<byte>>)
    requires parser.Valid() && parser.input == []
    modifies parser
    ensures parser.Valid() && parser.input == Concat(data)
  {
    hide Words, Rest, Uint32StreamParser.Valid;
    assert data[..0] == [];
    var k := 0;
    while k < |data|
      invariant 0 <= k <= |data| && parser.Valid() && parser.input == Concat(data[..k])
    {
      ConcatStep(data, k);
      parser.Transform(Binary(data[k]));
      k := k + 1;
    }
    assert data[..k] == data;
  }

  /** A whole stream: whatever the chunks, the words that come out are those of the concatenation, and fewer than
      four bytes are left over. */
  method ParseStream(data: seq<seq<byte>>) returns (words: seq<nat>, left: seq<byte>)
    ensures words == Words(Concat(data)) && left == Rest(Concat(data)) && |left| < WORD_SIZE
  {
    hide Words, Rest, Concat;
    var parser := new Uint32StreamParser();
    FeedAll(parser, data);
    parser.Flush();
    WordsOfRest(parser.input);
    var buffer := MergeArrayBuffers(parser.chunks, parser.totalSize);
    words, left := parser.enqueued, buffer[..];
  }
}
