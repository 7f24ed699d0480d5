/** Cutting a document into chunks for the wire and putting it together again
    (client/sync_server.cpp SendSyncResponse, ui/app.js chunkText). */
module Chunks {
  import opened WideText

  const SYNC_CHUNK_CHARS: nat := 8 * 1024
  const RELAY_CHUNK_SIZE: nat := 10000

  function Concat(chunks: seq<Text>): Text {
    if chunks == [] then [] else chunks[0] + Concat(chunks[1..])
  }

  /** Consecutive pieces of `size` units, the last one shorter; one empty piece for empty text. */
  function Cuts(text: Text, size: nat): (chunks: seq<Text>)
    requires size > 0
    ensures chunks != []
    decreases |text|
  {
    if |text| <= size then [text] else [text[..size]] + Cuts(text[size..], size)
  }

  /** The pieces in order make up the text again. */
  lemma {:induction false} CutsConcat(text: Text, size: nat)
    requires size > 0
    ensures Concat(Cuts(text, size)) == text
    decreases |text|
  {
    if |text| <= size {
      assert Concat([text]) == text + Concat([]);
    } else {
      CutsConcat(text[size..], size);
      assert text == text[..size] + text[size..];
    }
  }

  /** max(1, ceil(n / size)), as the server computes it. */
  function ChunkCount(n: nat, size: nat): nat
    requires size > 0
  {
    var ceiling := (n + size - 1) / size;
    if ceiling < 1 then 1 else ceiling
  }

  function Min(a: nat, b: nat): nat {
    if a < b then a else b
  }

  lemma DivideStep(n: nat, size: nat)
    requires 0 < size < n
    ensures ChunkCount(n, size) == 1 + ChunkCount(n - size, size)
  {
    var k := n - size;
    assert (n + size - 1) / size == (k + size - 1) / size + 1 by {
      DivideShift(k + size - 1, size);
    }
    DivideAtLeastOne(k + size - 1, size);
  }

  lemma DivideShift(n: nat, size: nat)
    requires size > 0
    ensures (n + size) / size == n / size + 1
  {
    var q, r := n / size, n % size;
    assert n + size == (q + 1) * size + r;
    QuotientUnique(n + size, size, q + 1, r);
  }

  lemma QuotientUnique(n: nat, size: nat, q: nat, r: nat)
    requires size > 0 && n == q * size + r && r < size
    ensures n / size == q
  {
    var p := n / size;
    assert n == p * size + n % size;
    if p < q {
      TimesMonotone(p + 1, q, size);
    } else if p > q {
      TimesMonotone(q + 1, p, size);
    }
  }

  lemma TimesMonotone(a: nat, b: nat, size: nat)
    requires a <= b
    ensures a * size <= b * size
  {
  }

  lemma DivideAtLeastOne(n: nat, size: nat)
    requires 0 < size <= n
    ensures n / size >= 1
  {
    DivideShift(n - size, size);
  }

  /** The pieces are as many as the server counts. */
  lemma {:induction false} CutsCount(text: Text, size: nat)
    requires size > 0
    ensures |Cuts(text, size)| == ChunkCount(|text|, size)
    decreases |text|
  {
    if |text| == 0 {
      QuotientUnique(size - 1, size, 0, size - 1);
    } else if |text| <= size {
      QuotientUnique(|text| + size - 1, size, 1, |text| - 1);
    } else {
      DivideStep(|text|, size);
      CutsCount(text[size..], size);
    }
  }

  /** `offset` is where piece `i` starts. */
  lemma CutsAtOffset(text: Text, size: nat, i: nat, offset: nat)
    requires size > 0 && i < |Cuts(text, size)| && offset == i * size
    ensures offset <= |text|
    ensures Cuts(text, size)[i] == text[offset..offset + Min(size, |text| - offset)]
  {
    hide Cuts, Skipped;
    SkippedIs(i, size);
    CutsAtSkipped(text, size, i);
  }

  /** Where piece `i` starts. */
  function Skipped(i: nat, size: nat): nat {
    if i == 0 then 0 else Skipped(i - 1, size) + size
  }

  lemma {:induction false} SkippedIs(i: nat, size: nat)
    ensures Skipped(i, size) == i * size
  {
    if i > 0 {
      SkippedIs(i - 1, size);
      assert i * size == (i - 1) * size + size;
    }
  }

  lemma {:induction false} CutsAtSkipped(text: Text, size: nat, i: nat)
    requires size > 0 && i < |Cuts(text, size)|
    ensures Skipped(i, size) <= |text|
    ensures Cuts(text, size)[i] == text[Skipped(i, size)..Skipped(i, size) + Min(size, |text| - Skipped(i, size))]
    decreases i
  {
    if i == 0 {
      assert text[..|text|] == text;
    } else {
      var rest, start := text[size..], Skipped(i - 1, size);
      assert Cuts(text, size) == [text[..size]] + Cuts(rest, size);
      assert Skipped(i, size) == start + size;
      hide Cuts, Skipped;
      CutsAtSkipped(rest, size, i - 1);
      SliceShift(text, size, start, Min(size, |rest| - start));
    }
  }

  lemma SliceShift(text: Text, skip: nat, start: nat, length: nat)
    requires skip + start + length <= |text|
    ensures text[skip..][start..start + length] == text[start + skip..start + skip + length]
  {
  }

  method ChunkText(text: Text) returns (chunks: seq<Text>)
    ensures chunks == Cuts(text, RELAY_CHUNK_SIZE)
  {
    chunks := [];
    var index := 0;
    while index < |text|
      invariant 0 <= index
      invariant index == 0 ==> chunks == []
      invariant 0 < index < |text| ==> chunks + Cuts(text[index..], RELAY_CHUNK_SIZE) == Cuts(text, RELAY_CHUNK_SIZE)
      invariant 0 < index && |text| <= index ==> chunks == Cuts(text, RELAY_CHUNK_SIZE)
      decreases |text| - index
    {
      var end := Min(index + RELAY_CHUNK_SIZE, |text|);
      ghost var rest := text[index..];
      assert index == 0 ==> rest == text;
      assert chunks + Cuts(rest, RELAY_CHUNK_SIZE) == Cuts(text, RELAY_CHUNK_SIZE);
      if |rest| > RELAY_CHUNK_SIZE {
        assert rest[..RELAY_CHUNK_SIZE] == text[index..end];
        assert rest[RELAY_CHUNK_SIZE..] == text[end..];
      } else {
        assert rest == text[index..end];
      }
      chunks := chunks + [text[index..end]];
      index := index + RELAY_CHUNK_SIZE;
    }
    if chunks == [] {
      chunks := [[]];
      assert text == [];
    }
  }
}
