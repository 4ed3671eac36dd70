/**
 * The records the content pipeline produces: `ProcessedChunk` and
 * `ProcessedDocument` (services/api/content_processor.py), as values.
 */
module Documents {

  /** A value of a metadata dictionary (`Dict[str, Any]`); the pipeline stores strings, integers and booleans. */
  datatype MetaValue = Str(s: string) | Int(i: int) | Bool(b: bool)

  type Metadata = map<string, MetaValue>

  /** `ProcessedChunk`: a span of text, its metadata and its token count. */
  datatype Chunk = Chunk(content: string, metadata: Metadata, tokenCount: int)

  /** `ProcessedDocument`: an identifier, its ordered chunks, metadata and the token total. */
  datatype Document = Document(id: string, chunks: seq<Chunk>, metadata: Metadata, totalTokens: int)

  /** `sum(chunk.token_count for chunk in cs)`. */
  function SumTokens(cs: seq<Chunk>): (t: int)
    ensures (forall i :: 0 <= i < |cs| ==> cs[i].tokenCount >= 0) ==> t >= 0
    ensures (forall i :: 0 <= i < |cs| ==> cs[i].tokenCount == 0) ==> t == 0
  {
    if cs == [] then 0 else SumTokens(cs[..|cs| - 1]) + cs[|cs| - 1].tokenCount
  }

  /** Summing token counts distributes over concatenation. */
  lemma {:induction false} SumTokensAppend(a: seq<Chunk>, b: seq<Chunk>)
    ensures SumTokens(a + b) == SumTokens(a) + SumTokens(b)
    decreases |b|
  {
    if b == [] {
      assert a + b == a;
    } else {
      assert (a + b)[..|a + b| - 1] == a + b[..|b| - 1];
      SumTokensAppend(a, b[..|b| - 1]);
    }
  }

  /** `chunk.metadata.get("domain", "unknown")`. */
  function DomainOf(c: Chunk): (d: MetaValue)
    ensures "domain" in c.metadata ==> d == c.metadata["domain"]
    ensures "domain" !in c.metadata ==> d == Str("unknown")
  {
    if "domain" in c.metadata then c.metadata["domain"] else Str("unknown")
  }

  /** `set(chunk.metadata.get("domain", "unknown") for chunk in cs)`. */
  function Domains(cs: seq<Chunk>): (ds: set<MetaValue>)
    ensures forall i :: 0 <= i < |cs| ==> DomainOf(cs[i]) in ds
    ensures forall d :: d in ds ==> exists i :: 0 <= i < |cs| && DomainOf(cs[i]) == d
  {
    if cs == [] then {}
    else
      var rest := Domains(cs[1..]);
      assert forall i :: 1 <= i < |cs| ==> cs[i] == cs[1..][i - 1];
      {DomainOf(cs[0])} + rest
  }

  /** The domains of a concatenation are the union of the domains. */
  lemma DomainsAppend(a: seq<Chunk>, b: seq<Chunk>)
    ensures Domains(a + b) == Domains(a) + Domains(b)
  {
    forall d | d in Domains(a + b) ensures d in Domains(a) + Domains(b) {
      var i :| 0 <= i < |a + b| && DomainOf((a + b)[i]) == d;
      if i < |a| { assert (a + b)[i] == a[i]; } else { assert (a + b)[i] == b[i - |a|]; }
    }
    forall d | d in Domains(a) + Domains(b) ensures d in Domains(a + b) {
      if d in Domains(a) {
        var i :| 0 <= i < |a| && DomainOf(a[i]) == d;
        assert (a + b)[i] == a[i];
      } else {
        var i :| 0 <= i < |b| && DomainOf(b[i]) == d;
        assert (a + b)[|a| + i] == b[i];
      }
    }
  }
}
