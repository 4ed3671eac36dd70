/**
 * `ContentProcessor._chunk_content` (services/api/content_processor.py):
 * cut a text's token sequence into overlapping windows, snap each window's
 * decoded text to a sentence boundary, then backfill `total_chunks`.
 *
 * The tokenizer is left uninterpreted: `encode` and `decode` are
 * parameters, so the windowing is pure sequence arithmetic.
 */
module Chunker {
  import opened PyStr
  import opened Documents
  import opened Boundary

  /** `max_chunk_tokens`. */
  const MaxChunkTokens: nat := 500
  /** `chunk_overlap`. */
  const ChunkOverlap: nat := 50
  /** The step of `range(0, len(tokens), max_chunk_tokens - chunk_overlap)`. */
  const Stride: nat := MaxChunkTokens - ChunkOverlap

  /** `{**doc_metadata, "chunk_index": index, "total_chunks": total}`. */
  function ChunkMeta(doc: Metadata, index: int, total: int): (m: Metadata)
    ensures "chunk_index" in m && m["chunk_index"] == Int(index)
    ensures "total_chunks" in m && m["total_chunks"] == Int(total)
    ensures forall key :: key in doc && key != "chunk_index" && key != "total_chunks" ==> key in m && m[key] == doc[key]
    ensures m.Keys == doc.Keys + {"chunk_index", "total_chunks"}
  {
    doc["chunk_index" := Int(index)]["total_chunks" := Int(total)]
  }

  /** How many times `range(0, n, Stride)` iterates. */
  function NumWindows(n: nat): (c: nat)
    ensures c == 0 <==> n == 0
    ensures n > 0 ==> Stride * (c - 1) < n <= Stride * c
  {
    (n + Stride - 1) / Stride
  }

  /** `tokens[i:i + max_chunk_tokens]` for the `k`-th start `i = Stride * k`. */
  function Window<T>(tokens: seq<T>, k: nat): (w: seq<T>)
    ensures |tokens| <= Stride * k ==> w == []
    ensures Stride * k < |tokens| ==>
      |w| == (if Stride * k + MaxChunkTokens <= |tokens| then MaxChunkTokens else |tokens| - Stride * k)
    ensures forall i :: 0 <= i < |w| ==> w[i] == tokens[Stride * k + i]
  {
    Slice(tokens, Stride * k, Stride * k + MaxChunkTokens)
  }

  /** The chunk the `k`-th loop iteration appends, with `total_chunks` set to `total`. */
  function WindowChunk<T>(tokens: seq<T>, decode: seq<T> -> string, doc: Metadata, k: nat, total: int): (c: Chunk)
    ensures "chunk_index" in c.metadata && c.metadata["chunk_index"] == Int(k)
    ensures "total_chunks" in c.metadata && c.metadata["total_chunks"] == Int(total)
    ensures c.tokenCount == |Window(tokens, k)| <= MaxChunkTokens
    ensures |c.content| <= |decode(Window(tokens, k))|
  {
    var w := Window(tokens, k);
    Chunk(SnapBoundary(decode(w)), ChunkMeta(doc, k, total), |w|)
  }

  lemma StrideStep(k: nat)
    ensures Stride * (k + 1) == Stride * k + Stride
  {
  }

  /** More than 500 tokens make at least two windows. */
  lemma NumWindowsBounds(n: nat)
    ensures n > MaxChunkTokens ==> NumWindows(n) >= 2
  {
  }

  /** The `k`-th window is the plain slice from `450k`, between 1 and 500 tokens long. */
  lemma WindowShape<T>(tokens: seq<T>, k: nat)
    requires k < NumWindows(|tokens|)
    ensures var lo := Stride * k;
      var hi := if lo + MaxChunkTokens <= |tokens| then lo + MaxChunkTokens else |tokens|;
      lo < hi && Window(tokens, k) == tokens[lo..hi]
    ensures 1 <= |Window(tokens, k)| <= MaxChunkTokens
  {
    StartBelow(k, |tokens|);
  }

  /** Every window starts inside the token sequence. */
  lemma StartBelow(k: nat, n: nat)
    requires k < NumWindows(n)
    ensures Stride * k < n
  {
    NumWindowsBounds(n);
    var m := NumWindows(n) - 1;
    assert Stride * m == Stride * k + Stride * (m - k);
  }

  /** Consecutive windows share their boundary tokens: the 50 tokens (fewer at the very end) after index 450 of one window open the next. */
  lemma WindowsOverlap<T>(tokens: seq<T>, k: nat)
    requires k + 1 < NumWindows(|tokens|)
    ensures var w, w' := Window(tokens, k), Window(tokens, k + 1);
      && Stride < |w|
      && |w| - Stride == (if ChunkOverlap <= |tokens| - Stride * (k + 1) then ChunkOverlap else |tokens| - Stride * (k + 1))
      && w[Stride..] == w'[..|w| - Stride]
  {
    WindowShape(tokens, k);
    WindowShape(tokens, k + 1);
    StrideStep(k);
    var lo := Stride * k;
    var hi := if lo + MaxChunkTokens <= |tokens| then lo + MaxChunkTokens else |tokens|;
    var hi' := if lo + Stride + MaxChunkTokens <= |tokens| then lo + Stride + MaxChunkTokens else |tokens|;
    assert Window(tokens, k) == tokens[lo..hi];
    assert Window(tokens, k + 1) == tokens[lo + Stride..hi'];
    assert tokens[lo..hi][Stride..] == tokens[lo + Stride..hi];
    assert tokens[lo + Stride..hi'][..hi - lo - Stride] == tokens[lo + Stride..hi];
  }

  /** Glue windows back together, dropping the overlap each window shares with the next. */
  function Reassemble<T>(ws: seq<seq<T>>): seq<T> {
    if ws == [] then []
    else if |ws| == 1 then ws[0]
    else (if Stride <= |ws[0]| then ws[0][..Stride] else ws[0]) + Reassemble(ws[1..])
  }

  /** The windows of `tokens`, in order. */
  function Windows<T>(tokens: seq<T>): seq<seq<T>> {
    seq(NumWindows(|tokens|), k requires 0 <= k => Window(tokens, k))
  }

  lemma {:induction false} ReassembleFrom<T>(tokens: seq<T>, k: nat)
    requires k < NumWindows(|tokens|)
    ensures Reassemble(Windows(tokens)[k..]) == tokens[Stride * k..]
    decreases NumWindows(|tokens|) - k
  {
    var ws := Windows(tokens);
    if k + 1 == NumWindows(|tokens|) {
      LastWindow(tokens, k);
      assert ws[k..] == [Window(tokens, k)];
    } else {
      InnerWindow(tokens, k);
      ReassembleFrom(tokens, k + 1);
      var rest := ws[k..];
      assert rest[0] == Window(tokens, k) && rest[1..] == ws[k + 1..];
      assert Reassemble(rest) == rest[0][..Stride] + Reassemble(rest[1..]);
      SuffixSplit(tokens, Stride * k, Stride * (k + 1));
    }
  }

  lemma SuffixSplit<T>(s: seq<T>, i: int, j: int)
    requires 0 <= i <= j <= |s|
    ensures s[i..] == s[i..j] + s[j..]
  {
  }

  /** The last window runs to the end of the tokens. */
  lemma LastWindow<T>(tokens: seq<T>, k: nat)
    requires k + 1 == NumWindows(|tokens|)
    ensures Window(tokens, k) == tokens[Stride * k..]
  {
    WindowShape(tokens, k);
    StrideStep(k);
  }

  /** A window that is not the last one starts with the 450 tokens up to the next window's start. */
  lemma InnerWindow<T>(tokens: seq<T>, k: nat)
    requires k + 1 < NumWindows(|tokens|)
    ensures Stride * k < Stride * (k + 1) < |tokens|
    ensures Stride <= |Window(tokens, k)| && Window(tokens, k)[..Stride] == tokens[Stride * k..Stride * (k + 1)]
  {
    WindowShape(tokens, k);
    StartBelow(k + 1, |tokens|);
    StrideStep(k);
  }

  /** The windows cover the token sequence exactly: dropping the overlaps gives back every token, in order, once. */
  lemma WindowsReassemble<T>(tokens: seq<T>)
    ensures Reassemble(Windows(tokens)) == tokens
  {
    if |tokens| > 0 {
      NumWindowsBounds(|tokens|);
      ReassembleFrom(tokens, 0);
      assert Windows(tokens)[0..] == Windows(tokens);
    }
  }

  /** The body of the windowing loop: the chunk of the window starting at token `i`, numbered `chunkIndex`. */
  method WindowAt<Token>(tokens: seq<Token>, decode: seq<Token> -> string, docMeta: Metadata, i: nat, chunkIndex: nat)
    returns (chunk: Chunk)
    requires i == Stride * chunkIndex
    ensures chunk == WindowChunk(tokens, decode, docMeta, chunkIndex, -1)
  {
    var chunkTokens := Slice(tokens, i, i + MaxChunkTokens);
    assert chunkTokens == Window(tokens, chunkIndex);
    var chunkText := decode(chunkTokens);
    chunkText := AdjustChunkBoundary(chunkText);
    chunk := Chunk(chunkText, ChunkMeta(docMeta, chunkIndex, -1), |chunkTokens|);
  }

  /** The windowing loop: one chunk per window start, `total_chunks` left at the placeholder -1. */
  method SlideWindows<Token>(tokens: seq<Token>, decode: seq<Token> -> string, docMeta: Metadata)
    returns (chunks: seq<Chunk>)
    ensures |chunks| == NumWindows(|tokens|)
    ensures forall k :: 0 <= k < |chunks| ==> chunks[k] == WindowChunk(tokens, decode, docMeta, k, -1)
  {
    chunks := [];
    var chunkIndex := 0;
    var i := 0;
    while i < |tokens|
      invariant chunkIndex == |chunks| && i == Stride * chunkIndex
      invariant Stride * (chunkIndex - 1) < |tokens|
      invariant forall k :: 0 <= k < |chunks| ==> chunks[k] == WindowChunk(tokens, decode, docMeta, k, -1)
    {
      var chunk := WindowAt(tokens, decode, docMeta, i, chunkIndex);
      chunks := chunks + [chunk];
      StrideStep(chunkIndex);
      chunkIndex := chunkIndex + 1;
      i := i + Stride;
    }
    NumWindowsBounds(|tokens|);
  }

  /** The second pass: every chunk's `total_chunks` becomes the number of chunks; nothing else changes. */
  method BackfillTotals(chunks: seq<Chunk>) returns (r: seq<Chunk>)
    ensures |r| == |chunks|
    ensures forall k :: 0 <= k < |r| ==>
      && r[k].content == chunks[k].content && r[k].tokenCount == chunks[k].tokenCount
      && r[k].metadata == chunks[k].metadata["total_chunks" := Int(|chunks|)]
  {
    r := chunks;
    for j := 0 to |r|
      invariant |r| == |chunks|
      invariant forall k :: 0 <= k < j ==> r[k] == chunks[k].(metadata := chunks[k].metadata["total_chunks" := Int(|chunks|)])
      invariant forall k :: j <= k < |r| ==> r[k] == chunks[k]
    {
      var c := r[j];
      r := r[j := c.(metadata := c.metadata["total_chunks" := Int(|r|)])];
    }
  }

  /** The chunk of an actual window (one the loop reaches) counts at least one token. */
  lemma WindowChunkFacts<T>(tokens: seq<T>, decode: seq<T> -> string, doc: Metadata, k: nat, total: int)
    requires k < NumWindows(|tokens|)
    ensures 1 <= WindowChunk(tokens, decode, doc, k, total).tokenCount
  {
    WindowShape(tokens, k);
  }

  /** Every chunk is labelled with its index and the chunk count, and holds at most 500 tokens. */
  predicate Labelled(cs: seq<Chunk>) {
    forall k :: 0 <= k < |cs| ==>
      && "chunk_index" in cs[k].metadata && "total_chunks" in cs[k].metadata
      && cs[k].metadata["chunk_index"] == Int(k)
      && cs[k].metadata["total_chunks"] == Int(|cs|)
      && cs[k].tokenCount <= MaxChunkTokens
  }

  /** The chunks `_chunk_content` makes of a long token sequence: one per window, each numbered and carrying the count. */
  function WindowChunks<T>(tokens: seq<T>, decode: seq<T> -> string, doc: Metadata): (cs: seq<Chunk>)
    ensures |cs| == NumWindows(|tokens|)
    ensures Labelled(cs)
    ensures forall k :: 0 <= k < |cs| ==> 1 <= cs[k].tokenCount
  {
    var n := NumWindows(|tokens|);
    var cs := seq(n, k requires 0 <= k < n => WindowChunk(tokens, decode, doc, k, n));
    forall k | 0 <= k < n
      ensures && "chunk_index" in cs[k].metadata && "total_chunks" in cs[k].metadata
              && cs[k].metadata["chunk_index"] == Int(k)
              && cs[k].metadata["total_chunks"] == Int(n)
              && 1 <= cs[k].tokenCount <= MaxChunkTokens
    {
      WindowChunkFacts(tokens, decode, doc, k, n);
    }
    cs
  }

  /** The two loops of `_chunk_content`: one chunk per window, each carrying the final count. */
  method ChunkWindows<Token>(tokens: seq<Token>, decode: seq<Token> -> string, docMeta: Metadata)
    returns (chunks: seq<Chunk>)
    ensures chunks == WindowChunks(tokens, decode, docMeta)
  {
    var windows := SlideWindows(tokens, decode, docMeta);
    chunks := BackfillTotals(windows);
    forall k | 0 <= k < |chunks| ensures chunks[k] == WindowChunk(tokens, decode, docMeta, k, |chunks|) {
      Backfilled(tokens, decode, docMeta, k, |chunks|, windows[k], chunks[k]);
    }
  }

  /** A window's chunk with `total_chunks` overwritten by `n` is the window's chunk built with `n`. */
  lemma Backfilled<T>(tokens: seq<T>, decode: seq<T> -> string, doc: Metadata, k: nat, n: int, c: Chunk, r: Chunk)
    requires c == WindowChunk(tokens, decode, doc, k, -1)
    requires r.content == c.content && r.tokenCount == c.tokenCount && r.metadata == c.metadata["total_chunks" := Int(n)]
    ensures r == WindowChunk(tokens, decode, doc, k, n)
  {
    assert c.metadata["total_chunks" := Int(n)] == ChunkMeta(doc, k, n);
  }

  /**
   * `_chunk_content(content, doc_metadata)`. Whitespace-only content gives
   * no chunk; content of at most 500 tokens gives itself as one chunk;
   * longer content gives one chunk per window, numbered in order, each
   * carrying the final chunk count and its pre-snap window length.
   */
  method ChunkContent<Token>(content: string, docMeta: Metadata,
                             encode: string -> seq<Token>, decode: seq<Token> -> string)
    returns (chunks: seq<Chunk>)
    ensures AllSpace(content) ==> chunks == []
    ensures !AllSpace(content) && |encode(content)| <= MaxChunkTokens ==>
      chunks == [Chunk(content, ChunkMeta(docMeta, 0, 1), |encode(content)|)]
    ensures !AllSpace(content) && |encode(content)| > MaxChunkTokens ==>
      chunks == WindowChunks(encode(content), decode, docMeta) && |chunks| >= 2
    ensures Labelled(chunks)
  {
    // `not content.strip()`: by `StripSpec`, the stripped text is empty exactly when every character is whitespace.
    if AllSpace(content) {
      return [];
    }
    var tokens := encode(content);
    if |tokens| <= MaxChunkTokens {
      return [Chunk(content, ChunkMeta(docMeta, 0, 1), |tokens|)];
    }
    NumWindowsBounds(|tokens|);
    chunks := ChunkWindows(tokens, decode, docMeta);
  }
}
