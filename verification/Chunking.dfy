/** Cutting a knowledge document into overlapping chunks. */
module Chunking {

  const CHUNK_CHARS: nat := 720
  const OVERLAP_CHARS: nat := 96

  /** The chunks of a text: each starts where the one before ends, less the overlap. */
  function Chunks(text: string): seq<string>
    decreases |text|
  {
    if text == [] then []
    else if |text| <= CHUNK_CHARS then [text]
    else [text[..CHUNK_CHARS]] + Chunks(text[CHUNK_CHARS - OVERLAP_CHARS..])
  }

  /** `chunk_text`. */
  method ChunkText(text: string) returns (chunks: seq<string>)
    ensures chunks == Chunks(text)
  {
    chunks := [];
    if text == [] { return; }
    var start := 0;
    while start < |text|
      invariant start < |text|
      invariant Chunks(text) == chunks + Chunks(text[start..])
    {
      var end := if start + CHUNK_CHARS < |text| then start + CHUNK_CHARS else |text|;
      ghost var rest := text[start..];
      assert text[start..end] == if |rest| <= CHUNK_CHARS then rest else rest[..CHUNK_CHARS];
      chunks := chunks + [text[start..end]];
      if end == |text| { break; }
      start := if end < OVERLAP_CHARS then 0 else end - OVERLAP_CHARS;
      assert text[start..] == rest[CHUNK_CHARS - OVERLAP_CHARS..];
    }
  }

  /** The first chunk and every later one without the overlap. */
  function Rebuilt(chunks: seq<string>): string
    requires forall i :: 0 < i < |chunks| ==> |chunks[i]| >= OVERLAP_CHARS
  {
    if chunks == [] then "" else chunks[0] + Tails(chunks[1..])
  }

  function Tails(chunks: seq<string>): string
    requires forall i :: 0 <= i < |chunks| ==> |chunks[i]| >= OVERLAP_CHARS
  {
    if chunks == [] then "" else chunks[0][OVERLAP_CHARS..] + Tails(chunks[1..])
  }

  /** Chunks have between 97 and 720 characters, except that the first may be shorter. */
  lemma {:induction false} ChunkSizes(text: string)
    ensures forall i :: 0 <= i < |Chunks(text)| ==> 0 < |Chunks(text)[i]| <= CHUNK_CHARS
    ensures forall i :: 0 < i < |Chunks(text)| ==> |Chunks(text)[i]| > OVERLAP_CHARS
    ensures |text| > OVERLAP_CHARS ==> |Chunks(text)[0]| > OVERLAP_CHARS
    decreases |text|
  {
    if |text| > CHUNK_CHARS { ChunkSizes(text[CHUNK_CHARS - OVERLAP_CHARS..]); }
  }

  /** Dropping the overlap from every chunk leaves the text without its first 96 characters. */
  lemma {:induction false} TailsOfChunks(text: string)
    requires |text| > OVERLAP_CHARS
    ensures forall i :: 0 <= i < |Chunks(text)| ==> |Chunks(text)[i]| >= OVERLAP_CHARS
    ensures Tails(Chunks(text)) == text[OVERLAP_CHARS..]
    decreases |text|
  {
    ChunkSizes(text);
    var chunks := Chunks(text);
    if |text| > CHUNK_CHARS {
      var rest := text[CHUNK_CHARS - OVERLAP_CHARS..];
      TailsOfChunks(rest);
      assert chunks[1..] == Chunks(rest);
      assert text[..CHUNK_CHARS][OVERLAP_CHARS..] + rest[OVERLAP_CHARS..] == text[OVERLAP_CHARS..];
    } else {
      assert chunks[1..] == [];
      assert text[OVERLAP_CHARS..] + "" == text[OVERLAP_CHARS..];
    }
  }

  /** MAIN: chunking loses nothing: the first chunk followed by every later one without its first 96
      characters is the text. */
  lemma ChunksRebuildText(text: string)
    ensures forall i :: 0 < i < |Chunks(text)| ==> |Chunks(text)[i]| >= OVERLAP_CHARS
    ensures Rebuilt(Chunks(text)) == text
  {
    ChunkSizes(text);
    var chunks := Chunks(text);
    if |text| > CHUNK_CHARS {
      var rest := text[CHUNK_CHARS - OVERLAP_CHARS..];
      TailsOfChunks(rest);
      assert chunks[1..] == Chunks(rest);
      assert text[..CHUNK_CHARS] + rest[OVERLAP_CHARS..] == text;
    } else if text != [] {
      assert chunks[1..] == [];
      assert text + "" == text;
    }
  }

  /** MAIN: a text of more than 720 characters gives the length less 96, over 624, rounded up; a
      shorter one gives one chunk, and an empty one none. */
  lemma {:induction false} ChunkCount(text: string)
    ensures text == [] ==> |Chunks(text)| == 0
    ensures 0 < |text| <= CHUNK_CHARS ==> |Chunks(text)| == 1
    ensures |text| > CHUNK_CHARS ==> |Chunks(text)| == (|text| - OVERLAP_CHARS + 623) / 624
    decreases |text|
  {
    if |text| > CHUNK_CHARS { ChunkCount(text[CHUNK_CHARS - OVERLAP_CHARS..]); }
  }
}
