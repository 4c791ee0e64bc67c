/**
 * `search_papers` of app/streamlit_app.py: lowercase the query, score it
 * against every stored paper, and return the metadata rows of the `top_k`
 * best scores with their `similarity`.
 *
 * The TF-IDF transform and the cosine similarity are library calls: they
 * arrive together as `score`, from the query text to one similarity per
 * stored paper. `np.argsort` of those similarities arrives as `order`.
 */
module Search {
  import opened Normalize
  import opened Ranking

  /** One row of the results table: the metadata row at `index`, with the added `similarity` column. */
  datatype Hit<R> = Hit(index: nat, row: R, similarity: real)

  /**
   * `query.lower()`, the only change made to the query before it is
   * vectorised: on ASCII text only the capitals change, and punctuation,
   * digits and whitespace are passed on as they are.
   */
  function QueryText(query: string): (q: string)
    ensures (forall i :: 0 <= i < |query| ==> query[i] < '\U{80}') ==>
      |q| == |query| &&
      forall i :: 0 <= i < |query| ==> q[i] == if 'A' <= query[i] <= 'Z' then (query[i] as int + 32) as char else query[i]
  {
    if forall i :: 0 <= i < |query| ==> query[i] < '\U{80}' then
      LowerAscii(query);
      Lower(query)
    else
      Lower(query)
  }

  /** `search_papers(query, top_k)` over the metadata rows `meta`. */
  function SearchPapers<R>(query: string, topK: int, meta: seq<R>, score: string -> seq<real>, order: seq<nat>)
    : (hits: seq<Hit<R>>)
    requires |score(QueryText(query))| == |meta|
    requires IsArgsort(order, score(QueryText(query)))
    ensures |hits| == SliceLength(|meta|, topK)
  {
    var sims := score(QueryText(query));
    var top := TopIndices(order, topK);
    TopIndicesDistinct(order, sims, topK);
    seq(|top|, i requires 0 <= i < |top| => Hit(top[i], meta[top[i]], sims[top[i]]))
  }

  /** `min(top_k, n)` results for a non-negative `top_k`; an empty corpus gives no results. */
  lemma SearchCount<R>(query: string, topK: int, meta: seq<R>, score: string -> seq<real>, order: seq<nat>)
    requires |score(QueryText(query))| == |meta|
    requires IsArgsort(order, score(QueryText(query)))
    ensures topK >= 0 ==> |SearchPapers(query, topK, meta, score, order)| == if topK < |meta| then topK else |meta|
    ensures |meta| == 0 ==> SearchPapers(query, topK, meta, score, order) == []
  {
  }

  /**
   * Every result is a distinct row of the metadata, and its `similarity` is
   * the score at that row's own index.
   */
  lemma SearchHitsAreRows<R>(query: string, topK: int, meta: seq<R>, score: string -> seq<real>, order: seq<nat>)
    requires |score(QueryText(query))| == |meta|
    requires IsArgsort(order, score(QueryText(query)))
    ensures var hits, sims := SearchPapers(query, topK, meta, score, order), score(QueryText(query));
      (forall i :: 0 <= i < |hits| ==>
        hits[i].index < |meta| && hits[i].row == meta[hits[i].index] && hits[i].similarity == sims[hits[i].index]) &&
      (forall i, j :: 0 <= i < j < |hits| ==> hits[i].index != hits[j].index)
  {
    TopIndicesDistinct(order, score(QueryText(query)), topK);
  }

  /** The results come in non-increasing order of similarity. */
  lemma SearchOrdered<R>(query: string, topK: int, meta: seq<R>, score: string -> seq<real>, order: seq<nat>)
    requires |score(QueryText(query))| == |meta|
    requires IsArgsort(order, score(QueryText(query)))
    ensures var hits := SearchPapers(query, topK, meta, score, order);
      forall i, j :: 0 <= i < j < |hits| ==> hits[i].similarity >= hits[j].similarity
  {
    TopIndicesOrdered(order, score(QueryText(query)), topK);
  }

  /** No paper left out of the results scores higher than any paper in them. */
  lemma SearchDominates<R>(query: string, topK: int, meta: seq<R>, score: string -> seq<real>, order: seq<nat>)
    requires |score(QueryText(query))| == |meta|
    requires IsArgsort(order, score(QueryText(query)))
    ensures var hits, sims := SearchPapers(query, topK, meta, score, order), score(QueryText(query));
      forall p, i :: 0 <= p < |meta| && (forall j :: 0 <= j < |hits| ==> hits[j].index != p) && 0 <= i < |hits| ==>
        hits[i].similarity >= sims[p]
  {
    var sims := score(QueryText(query));
    var hits := SearchPapers(query, topK, meta, score, order);
    var top := TopIndices(order, topK);
    TopIndicesDominate(order, sims, topK);
    forall p, i | 0 <= p < |meta| && (forall j :: 0 <= j < |hits| ==> hits[j].index != p) && 0 <= i < |hits|
      ensures hits[i].similarity >= sims[p]
    {
      forall j | 0 <= j < |top|
        ensures top[j] != p
      {
        assert hits[j].index == top[j];
      }
    }
  }

  /** Two queries that lowercase to the same text give the same results. */
  lemma SearchSeesOnlyLoweredQuery<R>(q1: string, q2: string, topK: int, meta: seq<R>,
                                      score: string -> seq<real>, order: seq<nat>)
    requires Lower(q1) == Lower(q2)
    requires |score(QueryText(q1))| == |meta|
    requires IsArgsort(order, score(QueryText(q1)))
    ensures |score(QueryText(q2))| == |meta| && IsArgsort(order, score(QueryText(q2)))
    ensures SearchPapers(q1, topK, meta, score, order) == SearchPapers(q2, topK, meta, score, order)
  {
  }

  /** Lowercasing is all that happens: an already lowercase query reaches the vectoriser unchanged. */
  lemma QueryTextOfLowered(query: string)
    ensures QueryText(Lower(query)) == QueryText(query)
  {
    LowerIdempotent(query);
  }

  /** Capitals are lowered; the ampersand, the space, the digit and the question mark stay. */
  lemma QueryTextExample()
    ensures QueryText("Q&A 2?") == "q&a 2?"
  {
  }
}
