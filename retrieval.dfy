/**
 * `SimpleRAGRetriever` (services/api/content_processor.py): an in-memory
 * index holding a map from document id to document and the flat,
 * append-only list of every indexed chunk, searched by keyword overlap.
 */
module Retrieval {
  import opened PyStr
  import opened Documents
  import opened Ranking

  /** `top_k`'s default. */
  const DefaultTopK: int := 3

  /** The score `search` gives a chunk: shared distinct words plus twice the phrase occurrences, both after lower-casing. */
  function Score(query: string, content: string): (r: int)
    ensures r >= 0
    ensures r > 0 <==> WordSet(Lower(query)) * WordSet(Lower(content)) != {} || Count(Lower(content), Lower(query)) > 0
  {
    var q, c := Lower(query), Lower(content);
    |WordSet(q) * WordSet(c)| + 2 * Count(c, q)
  }

  /** The chunks of `cs` whose `score` is positive, in index order, each paired with its score. */
  function Positive(score: Chunk -> int, cs: seq<Chunk>): (r: seq<(int, Chunk)>)
    ensures |r| <= |cs|
    ensures forall i :: 0 <= i < |r| ==> r[i].1 in cs && r[i].0 == score(r[i].1) > 0
    ensures forall c :: c in cs && score(c) > 0 ==> (score(c), c) in r
    ensures forall i, j :: 0 <= i < j < |r| ==> Before(cs, r[i].1, r[j].1)
  {
    if cs == [] then []
    else
      var pre := cs[..|cs| - 1];
      var init := Positive(score, pre);
      var c := cs[|cs| - 1];
      assert cs == pre + [c];
      OrderSnoc(pre, c, init, (score(c), c));
      if score(c) > 0 then init + [(score(c), c)] else init
  }

  /** The indices of the chunks of `cs` whose `score` is positive, in increasing order. */
  function Positions(score: Chunk -> int, cs: seq<Chunk>): (idx: seq<int>)
    ensures forall i :: 0 <= i < |idx| ==> 0 <= idx[i] < |cs| && score(cs[idx[i]]) > 0
    ensures forall i, j :: 0 <= i < j < |idx| ==> idx[i] < idx[j]
    ensures forall p :: 0 <= p < |cs| && score(cs[p]) > 0 ==> p in idx
  {
    if cs == [] then []
    else
      var pre := Positions(score, cs[..|cs| - 1]);
      assert forall i :: 0 <= i < |cs| - 1 ==> cs[..|cs| - 1][i] == cs[i];
      if score(cs[|cs| - 1]) > 0 then pre + [|cs| - 1] else pre
  }

  /** `Positive` holds exactly one pair per positive-scoring position of `cs`, in position order: duplicates are kept and ties are not reordered. */
  lemma {:induction false} PositiveAtPositions(score: Chunk -> int, cs: seq<Chunk>)
    ensures var r, idx := Positive(score, cs), Positions(score, cs);
      |r| == |idx| && forall i :: 0 <= i < |r| ==> r[i] == (score(cs[idx[i]]), cs[idx[i]])
  {
    if cs != [] {
      var pre, c := cs[..|cs| - 1], cs[|cs| - 1];
      assert cs == pre + [c];
      PositiveAtPositions(score, pre);
      SnocAtPositions(score, pre, c, Positive(score, pre), Positions(score, pre), Positive(score, cs), Positions(score, cs));
    }
  }

  /** The step of `PositiveAtPositions`: appending `c` extends both the pairs and the positions, or neither. */
  lemma SnocAtPositions(score: Chunk -> int, pre: seq<Chunk>, c: Chunk,
                        r0: seq<(int, Chunk)>, idx0: seq<int>, r: seq<(int, Chunk)>, idx: seq<int>)
    requires |r0| == |idx0|
    requires forall i :: 0 <= i < |idx0| ==> 0 <= idx0[i] < |pre|
    requires forall i :: 0 <= i < |r0| ==> r0[i] == (score(pre[idx0[i]]), pre[idx0[i]])
    requires score(c) > 0 ==> r == r0 + [(score(c), c)] && idx == idx0 + [|pre|]
    requires score(c) <= 0 ==> r == r0 && idx == idx0
    ensures var cs := pre + [c];
      |r| == |idx| && forall i :: 0 <= i < |r| ==> r[i] == (score(cs[idx[i]]), cs[idx[i]])
  {
    var cs := pre + [c];
    forall i | 0 <= i < |r| ensures r[i] == (score(cs[idx[i]]), cs[idx[i]]) {
      if i < |r0| {
        assert r[i] == r0[i] && idx[i] == idx0[i];
        assert cs[idx0[i]] == pre[idx0[i]];
      }
    }
  }

  /** Appending chunk `c` keeps the pairs drawn from `pre` in order, and puts `c` after all of them. */
  lemma OrderSnoc(pre: seq<Chunk>, c: Chunk, init: seq<(int, Chunk)>, x: (int, Chunk))
    requires x.1 == c
    requires forall i :: 0 <= i < |init| ==> init[i].1 in pre
    requires forall i, j :: 0 <= i < j < |init| ==> Before(pre, init[i].1, init[j].1)
    ensures forall i, j :: 0 <= i < j < |init| ==> Before(pre + [c], init[i].1, init[j].1)
    ensures var r := init + [x]; forall i, j :: 0 <= i < j < |r| ==> Before(pre + [c], r[i].1, r[j].1)
  {
    var cs := pre + [c];
    forall a, b | Before(pre, a, b) ensures Before(cs, a, b) {
      var p, q :| 0 <= p < q < |pre| && pre[p] == a && pre[q] == b;
      assert cs[p] == a && cs[q] == b;
    }
    forall a | a in pre ensures Before(cs, a, c) {
      var p :| 0 <= p < |pre| && pre[p] == a;
      assert cs[p] == a && cs[|pre|] == c;
    }
    var r := init + [x];
    forall i, j | 0 <= i < j < |r| ensures Before(cs, r[i].1, r[j].1) {
      assert r[i] == init[i];
      if j < |init| {
        assert r[j] == init[j];
      }
    }
  }

  /** `scored_chunks` after the scoring loop: the chunks with a positive score for `query`, in index order, paired with it. */
  function Scored(query: string, cs: seq<Chunk>): (r: seq<(int, Chunk)>)
    ensures |r| <= |cs|
    ensures forall i :: 0 <= i < |r| ==> r[i].1 in cs && r[i].0 == Score(query, r[i].1.content) > 0
    ensures forall c :: c in cs && Score(query, c.content) > 0 ==> (Score(query, c.content), c) in r
    ensures forall i, j :: 0 <= i < j < |r| ==> Before(cs, r[i].1, r[j].1)
  {
    Positive(ScoreFor(query), cs)
  }

  /** `Score` for a fixed query, as a function of the chunk. */
  function ScoreFor(query: string): Chunk -> int {
    (c: Chunk) => Score(query, c.content)
  }

  /** An empty query matches every chunk: `str.count("")` is `len + 1`, so the score is `2 * (len(content) + 1)`. */
  lemma {:induction false} EmptyQueryMatchesAll(content: string)
    ensures Score("", content) == 2 * (|content| + 1)
  {
    assert Lower("") == "";
    assert WordSet("") == {};
  }

  /** When two chunks both contain every query word, the one with more phrase occurrences scores higher. */
  lemma {:induction false} MorePhraseMatchesScoreHigher(query: string, a: string, b: string)
    requires WordSet(Lower(query)) <= WordSet(Lower(a)) && WordSet(Lower(query)) <= WordSet(Lower(b))
    requires Count(Lower(a), Lower(query)) > Count(Lower(b), Lower(query))
    ensures Score(query, a) > Score(query, b)
  {
    var q := WordSet(Lower(query));
    IntersectSubset(q, WordSet(Lower(a)));
    IntersectSubset(q, WordSet(Lower(b)));
  }

  lemma IntersectSubset<T>(q: set<T>, w: set<T>)
    requires q <= w
    ensures q * w == q
  {
  }

  /** The body of `search`'s scoring loop for one chunk's content, given the lower-cased query and its word set. */
  method ScoreChunk(query: string, queryLower: string, queryWords: set<string>, content: string) returns (score: int)
    requires queryLower == Lower(query) && queryWords == WordSet(queryLower)
    ensures score == Score(query, content)
  {
    var contentLower := Lower(content);
    var contentWords := WordSet(contentLower);
    var wordOverlap := |queryWords * contentWords|;
    var phraseMatches := Count(contentLower, queryLower);
    assert queryWords * contentWords == WordSet(Lower(query)) * WordSet(Lower(content));
    score := wordOverlap + phraseMatches * 2;
  }

  /** `search`'s scoring loop over `cs`: the chunks with a positive score, in index order, paired with it. */
  method ScoreAll(query: string, cs: seq<Chunk>) returns (scored: seq<(int, Chunk)>)
    ensures scored == Scored(query, cs)
  {
    var queryLower := Lower(query);
    var queryWords := WordSet(queryLower);
    var f := ScoreFor(query);
    scored := [];
    for i := 0 to |cs|
      invariant scored == Positive(f, cs[..i])
    {
      var chunk := cs[i];
      PositiveSnoc(f, cs, i);
      var score := ScoreChunk(query, queryLower, queryWords, chunk.content);
      assert score == f(chunk);
      if score > 0 {
        scored := scored + [(score, chunk)];
      }
    }
    assert cs[..|cs|] == cs;
  }

  /** Taking one more chunk of `cs` extends `Positive` by at most that chunk. */
  lemma {:induction false} PositiveSnoc(score: Chunk -> int, cs: seq<Chunk>, i: nat)
    requires i < |cs|
    ensures Positive(score, cs[..i + 1]) ==
      if score(cs[i]) > 0 then Positive(score, cs[..i]) + [(score(cs[i]), cs[i])] else Positive(score, cs[..i])
  {
    assert cs[..i + 1][..i] == cs[..i];
  }

  /** `get_document_stats()`'s result; `domains` is a list built from a set, so its order is not modelled. */
  datatype DocStats = DocStats(totalDocuments: nat, totalChunks: nat, totalTokens: int, domains: set<MetaValue>)

  /** The statistics of an index holding `documents` and `chunks`. */
  function StatsOf(documents: map<string, Document>, chunks: seq<Chunk>): (s: DocStats)
    ensures s.totalChunks == |chunks| && s.totalDocuments == |documents|
    ensures (forall i :: 0 <= i < |chunks| ==> chunks[i].tokenCount >= 0) ==> s.totalTokens >= 0
  {
    DocStats(|documents|, |chunks|, SumTokens(chunks), Domains(chunks))
  }

  /** Adding a document moves each statistic by that document's share. */
  lemma StatsOfAdd(documents: map<string, Document>, chunks: seq<Chunk>, doc: Document)
    ensures var s, s' := StatsOf(documents, chunks), StatsOf(documents[doc.id := doc], chunks + doc.chunks);
      && s'.totalDocuments == s.totalDocuments + (if doc.id in documents then 0 else 1)
      && s'.totalChunks == s.totalChunks + |doc.chunks|
      && s'.totalTokens == s.totalTokens + SumTokens(doc.chunks)
      && s'.domains == s.domains + Domains(doc.chunks)
  {
    SumTokensAppend(chunks, doc.chunks);
    DomainsAppend(chunks, doc.chunks);
    StoreCount(documents, doc);
  }

  /** Storing a document adds one entry unless its id is already present. */
  lemma StoreCount(documents: map<string, Document>, doc: Document)
    ensures |documents[doc.id := doc]| == |documents| + (if doc.id in documents then 0 else 1)
  {
    if doc.id !in documents {
      assert documents[doc.id := doc].Keys == documents.Keys + {doc.id};
    } else {
      assert documents[doc.id := doc].Keys == documents.Keys;
    }
  }

  class Retriever {
    /** `self.documents`. */
    var documents: map<string, Document>
    /** `self.chunks`. */
    var chunks: seq<Chunk>

    /** `SimpleRAGRetriever()`: an empty index. */
    constructor ()
      ensures documents == map[] && chunks == []
    {
      documents := map[];
      chunks := [];
    }

    /**
     * `get_document_stats()`: the number of documents and chunks, the token
     * total, and the domain of every chunk ("unknown" where it has none).
     */
    function Stats(): (s: DocStats)
      reads this
      ensures forall i :: 0 <= i < |chunks| ==> DomainOf(chunks[i]) in s.domains
      ensures forall d :: d in s.domains ==> exists i :: 0 <= i < |chunks| && DomainOf(chunks[i]) == d
    {
      StatsOf(documents, chunks)
    }

    /**
     * `add_document(doc)`: the document replaces any document of the same
     * id, and its chunks are appended to the flat list (so re-adding a
     * document duplicates its chunks).
     */
    method AddDocument(doc: Document)
      modifies this
      ensures documents == old(documents)[doc.id := doc]
      ensures chunks == old(chunks) + doc.chunks
      ensures Stats().totalDocuments == old(Stats().totalDocuments) + (if doc.id in old(documents) then 0 else 1)
      ensures Stats().totalChunks == old(Stats().totalChunks) + |doc.chunks|
      ensures Stats().totalTokens == old(Stats().totalTokens) + SumTokens(doc.chunks)
      ensures Stats().domains == old(Stats().domains) + Domains(doc.chunks)
    {
      ghost var before := StatsOf(documents, chunks);
      assert Stats() == before;
      StatsOfAdd(documents, chunks, doc);
      documents, chunks := documents[doc.id := doc], chunks + doc.chunks;
      ghost var after := StatsOf(documents, chunks);
      assert Stats() == after;
      assert after.totalDocuments == before.totalDocuments + (if doc.id in old(documents) then 0 else 1);
    }

    /**
     * `search(query, top_k)`: score every chunk, keep the positive ones,
     * sort them stably by descending score and return the chunks of the
     * first `top_k` (Python slice semantics, so a negative `top_k` drops
     * that many from the end). The index is not modified.
     */
    method Search(query: string, topK: int) returns (r: seq<Chunk>)
      ensures var ranked := SortDesc(Scored(query, chunks));
        |r| == |Slice(ranked, 0, topK)| && forall i :: 0 <= i < |r| ==> r[i] == ranked[i].1
      ensures 0 <= topK ==> |r| == (if topK <= |Scored(query, chunks)| then topK else |Scored(query, chunks)|)
      ensures forall i :: 0 <= i < |r| ==> r[i] in chunks && Score(query, r[i].content) > 0
      ensures forall i, j :: 0 <= i < j < |r| ==> Score(query, r[i].content) >= Score(query, r[j].content)
      ensures forall c, i :: c in chunks && Score(query, c.content) > 0 && c !in r && 0 <= i < |r| ==>
        Score(query, c.content) <= Score(query, r[i].content)
      ensures forall i, j :: 0 <= i < j < |r| && Score(query, r[i].content) == Score(query, r[j].content) ==>
        Before(chunks, r[i], r[j])
    {
      var scored := ScoreAll(query, chunks);
      r := TopK(scored, topK);
      SearchFacts(query, chunks, r);
    }

    /** `search(query)` with `top_k` left at its default: at most three chunks, the head of the ranking. */
    method SearchDefault(query: string) returns (r: seq<Chunk>)
      ensures var ranked := SortDesc(Scored(query, chunks));
        && |r| == (if |ranked| < DefaultTopK then |ranked| else DefaultTopK)
        && forall i :: 0 <= i < |r| ==> r[i] == ranked[i].1
    {
      r := Search(query, DefaultTopK);
    }
  }

  /** The end of `search`: sort the scored chunks and return the chunks of the first `top_k`. */
  method TopK<T>(scored: seq<(int, T)>, topK: int) returns (r: seq<T>)
    ensures var ranked := SortDesc(scored);
      |r| == |Slice(ranked, 0, topK)| && forall i :: 0 <= i < |r| ==> r[i] == ranked[i].1
    ensures 0 <= topK ==> |r| == (if topK <= |scored| then topK else |scored|)
  {
    var ranked := SortDesc(scored);
    var top := Slice(ranked, 0, topK);
    PrefixSlice(ranked, topK);
    r := seq(|top|, i requires 0 <= i < |top| => top[i].1);
    assert |r| == |top| && forall i :: 0 <= i < |r| ==> r[i] == top[i].1 == ranked[i].1;
  }

  /** `xs[:k]` is a prefix of `xs`, of length `k` clamped to `len(xs)` when `k` is not negative. */
  lemma PrefixSlice<U>(xs: seq<U>, k: int)
    ensures var t := Slice(xs, 0, k);
      t == xs[..|t|] && (0 <= k ==> |t| == (if k <= |xs| then k else |xs|))
  {
  }

  /** What `search` promises about a prefix of the ranking, stated with `Score`. */
  lemma {:induction false} SearchFacts(query: string, cs: seq<Chunk>, r: seq<Chunk>)
    requires var ranked := SortDesc(Scored(query, cs));
      |r| <= |ranked| && forall i :: 0 <= i < |r| ==> r[i] == ranked[i].1
    ensures forall i :: 0 <= i < |r| ==> r[i] in cs && Score(query, r[i].content) > 0
    ensures forall i, j :: 0 <= i < j < |r| ==> Score(query, r[i].content) >= Score(query, r[j].content)
    ensures forall c, i :: c in cs && Score(query, c.content) > 0 && c !in r && 0 <= i < |r| ==>
      Score(query, c.content) <= Score(query, r[i].content)
    ensures forall i, j :: 0 <= i < j < |r| && Score(query, r[i].content) == Score(query, r[j].content) ==>
      Before(cs, r[i], r[j])
  {
    RankedFacts(ScoreFor(query), cs, r);
    RankedTies(ScoreFor(query), cs, r);
  }

  /** Every entry of the ranking is a chunk of `cs` paired with its positive score. */
  lemma {:induction false} RankedSound(score: Chunk -> int, cs: seq<Chunk>)
    ensures var ranked := SortDesc(Positive(score, cs));
      forall i :: 0 <= i < |ranked| ==> ranked[i].1 in cs && ranked[i].0 == score(ranked[i].1) > 0
  {
    var scored := Positive(score, cs);
    var ranked := SortDesc(scored);
    SortDescPermutes(scored);
    forall i | 0 <= i < |ranked| ensures ranked[i] in scored {
      assert ranked[i] in multiset(ranked);
    }
  }

  /** Every chunk of `cs` with a positive score has an entry in the ranking. */
  lemma {:induction false} RankedComplete(score: Chunk -> int, cs: seq<Chunk>, c: Chunk)
    requires c in cs && score(c) > 0
    ensures exists p :: 0 <= p < |SortDesc(Positive(score, cs))| && SortDesc(Positive(score, cs))[p] == (score(c), c)
  {
    var scored := Positive(score, cs);
    SortDescPermutes(scored);
    assert (score(c), c) in multiset(scored);
    assert (score(c), c) in SortDesc(scored);
  }

  /** What `search` promises about the chunks it returns, given that they are a prefix of the ranking under `score`. */
  lemma {:induction false} RankedFacts(score: Chunk -> int, cs: seq<Chunk>, r: seq<Chunk>)
    requires var ranked := SortDesc(Positive(score, cs));
      |r| <= |ranked| && forall i :: 0 <= i < |r| ==> r[i] == ranked[i].1
    ensures forall i :: 0 <= i < |r| ==> r[i] in cs && score(r[i]) > 0
    ensures forall i, j :: 0 <= i < j < |r| ==> score(r[i]) >= score(r[j])
    ensures forall c, i :: c in cs && score(c) > 0 && c !in r && 0 <= i < |r| ==> score(c) <= score(r[i])
  {
    var ranked := SortDesc(Positive(score, cs));
    RankedSound(score, cs);
    SortDescDescending(Positive(score, cs));
    forall c | c in cs && score(c) > 0 ensures (score(c), c) in ranked {
      RankedComplete(score, cs, c);
    }
    PrefixFacts(score, cs, ranked, r);
  }

  /** A prefix of any sound, complete and descending ranking of `cs` has the properties `search` promises. */
  lemma PrefixFacts(score: Chunk -> int, cs: seq<Chunk>, ranked: seq<(int, Chunk)>, r: seq<Chunk>)
    requires forall i :: 0 <= i < |ranked| ==> ranked[i].1 in cs && ranked[i].0 == score(ranked[i].1) > 0
    requires forall c :: c in cs && score(c) > 0 ==> (score(c), c) in ranked
    requires Descending(ranked)
    requires |r| <= |ranked| && forall i :: 0 <= i < |r| ==> r[i] == ranked[i].1
    ensures forall i :: 0 <= i < |r| ==> r[i] in cs && score(r[i]) > 0
    ensures forall i, j :: 0 <= i < j < |r| ==> score(r[i]) >= score(r[j])
    ensures forall c, i :: c in cs && score(c) > 0 && c !in r && 0 <= i < |r| ==> score(c) <= score(r[i])
  {
    forall c, i | c in cs && score(c) > 0 && c !in r && 0 <= i < |r|
      ensures score(c) <= score(r[i])
    {
      var p :| 0 <= p < |ranked| && ranked[p] == (score(c), c);
      assert |r| <= p;
    }
  }

  /** Chunks of equal score come out of the ranking in the order they were indexed. */
  lemma RankedTies(score: Chunk -> int, cs: seq<Chunk>, r: seq<Chunk>)
    requires var ranked := SortDesc(Positive(score, cs));
      |r| <= |ranked| && forall i :: 0 <= i < |r| ==> r[i] == ranked[i].1
    ensures forall i, j :: 0 <= i < j < |r| && score(r[i]) == score(r[j]) ==> Before(cs, r[i], r[j])
  {
    RankedSound(score, cs);
    forall i, j | 0 <= i < j < |r| && score(r[i]) == score(r[j]) ensures Before(cs, r[i], r[j]) {
      TieInOrder(score, cs, i, j);
    }
  }

  /** Two entries of the ranking with equal score are in the order their chunks were indexed. */
  lemma TieInOrder(score: Chunk -> int, cs: seq<Chunk>, i: int, j: int)
    requires var ranked := SortDesc(Positive(score, cs));
      0 <= i < j < |ranked| && ranked[i].0 == ranked[j].0
    ensures var ranked := SortDesc(Positive(score, cs));
      Before(cs, ranked[i].1, ranked[j].1)
  {
    var scored := Positive(score, cs);
    var ranked := SortDesc(scored);
    BeforeAt(ranked, i, j);
    SortDescKeepsTies(scored, ranked[i], ranked[j]);
    var p, q :| 0 <= p < q < |scored| && scored[p] == ranked[i] && scored[q] == ranked[j];
    assert Before(cs, scored[p].1, scored[q].1);
  }
}
