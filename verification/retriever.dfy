/** Hybrid retrieval: a dense search through the vector store and a lexical
    (BM25) search over the same chunks, fused and cut to `top_k`. The BM25
    scores themselves and the embedding of the query are outside the model;
    a retrieval takes the BM25 score of every chunk and the ascending
    argsort of those scores as inputs. */
module Retriever {
  import opened Records
  import opened Ranking
  import opened Normalization
  import opened Fusion
  import opened VectorStore

  /** A retriever over a store; the lexical index exists only when the
      store held chunks when the retriever was built. */
  datatype Retriever = Retriever(store: Store, lexicalReady: bool)

  function NewRetriever(store: Store): (r: Retriever)
    ensures r.store == store
    ensures r.lexicalReady <==> |store.documents| > 0
  {
    Retriever(store, |store.documents| > 0)
  }

  /** `order` is an argsort of `scores`: a permutation of its positions
      listing them by non-decreasing score. Ties may come in any order. */
  ghost predicate IsAscendingOrder(order: seq<nat>, scores: seq<real>) {
    |order| == |scores| &&
    (forall p :: 0 <= p < |order| ==> order[p] < |scores|) &&
    (forall j :: 0 <= j < |scores| ==> j in order) &&
    (forall p, q :: 0 <= p < q < |order| ==> order[p] != order[q] && scores[order[p]] <= scores[order[q]])
  }

  /** Python's `s[::-1]`. */
  function Reverse<T>(s: seq<T>): (r: seq<T>)
    ensures |r| == |s|
    ensures forall p :: 0 <= p < |s| ==> r[p] == s[|s| - 1 - p]
  {
    seq(|s|, p requires 0 <= p < |s| => s[|s| - 1 - p])
  }

  /** Reversing an ascending argsort lists the positions by non-increasing
      score, still each position once. */
  lemma {:induction false} ReverseIsDescending(order: seq<nat>, scores: seq<real>)
    requires IsAscendingOrder(order, scores)
    ensures forall p :: 0 <= p < |order| ==> Reverse(order)[p] < |scores|
    ensures forall j :: 0 <= j < |scores| ==> j in Reverse(order)
    ensures forall p, q :: 0 <= p < q < |order| ==>
      Reverse(order)[p] != Reverse(order)[q] && scores[Reverse(order)[p]] >= scores[Reverse(order)[q]]
  {
    var n := |order|;
    var rev := Reverse(order);
    forall j | 0 <= j < |scores| ensures j in rev {
      assert j in order;
      var p :| 0 <= p < n && order[p] == j;
      assert rev[n - 1 - p] == j;
    }
    forall p, q | 0 <= p < q < n
      ensures rev[p] != rev[q] && scores[rev[p]] >= scores[rev[q]]
    {
      assert rev[p] == order[n - 1 - p] && rev[q] == order[n - 1 - q];
    }
  }

  /** The lexical results: the `k` best-scoring chunks, best first, each
      with its BM25 score (`argsort(scores)[::-1][:k]`). That these are the
      best-scoring chunks, in order, is LexicalTopKIsTopK. */
  function LexicalTopK(docs: seq<Chunk>, scores: seq<real>, ascending: seq<nat>, k: nat): (r: seq<Scored>)
    requires |scores| == |docs| && IsAscendingOrder(ascending, scores)
    ensures |r| == Min(k, |docs|)
    ensures forall p :: 0 <= p < |r| ==>
      Reverse(ascending)[p] < |docs| && r[p] == Scored(docs[Reverse(ascending)[p]], scores[Reverse(ascending)[p]])
  {
    ReverseIsDescending(ascending, scores);
    var top := Prefix(Reverse(ascending), k);
    seq(|top|, p requires 0 <= p < |top| => Scored(docs[top[p]], scores[top[p]]))
  }

  /** The lexical results are sorted, come from distinct positions, and no
      position left out scores above any position taken. */
  lemma {:induction false} LexicalTopKIsTopK(docs: seq<Chunk>, scores: seq<real>, ascending: seq<nat>, k: nat)
    requires |scores| == |docs| && IsAscendingOrder(ascending, scores)
    ensures SortedDesc(LexicalTopK(docs, scores, ascending, k))
    ensures forall j :: 0 <= j < |docs| && j !in Prefix(Reverse(ascending), k) ==>
      forall p :: 0 <= p < |LexicalTopK(docs, scores, ascending, k)| ==>
        scores[j] <= LexicalTopK(docs, scores, ascending, k)[p].score
  {
    ReverseIsDescending(ascending, scores);
    var rev := Reverse(ascending);
    var top := Prefix(rev, k);
    var r := LexicalTopK(docs, scores, ascending, k);
    forall p, q | 0 <= p < q < |r| ensures r[p].score >= r[q].score {
      assert r[p].score == scores[rev[p]] && r[q].score == scores[rev[q]];
    }
    forall j, p | 0 <= j < |docs| && j !in top && 0 <= p < |r|
      ensures scores[j] <= r[p].score
    {
      assert j in rev;
      var q :| 0 <= q < |rev| && rev[q] == j;
      assert r[p].score == scores[rev[p]];
    }
  }

  /** `top_k` when given, the configuration's retrieval depth otherwise
      (the configuration as it stands at the call, sliders included). */
  function ResolveTopK(topK: Option<nat>, cfg: Config): (k: nat)
    ensures topK.Some? ==> k == topK.value
    ensures topK.None? ==> k == cfg.topKRetrieval
  {
    if topK.Some? then topK.value else cfg.topKRetrieval
  }

  /** The lexical list a retrieval fuses: empty when there is no lexical
      index. */
  function LexicalResults(r: Retriever, scores: seq<real>, ascending: seq<nat>, k: nat): (lex: seq<Scored>)
    requires r.lexicalReady ==> |scores| == |r.store.documents| && IsAscendingOrder(ascending, scores)
    ensures !r.lexicalReady ==> lex == []
    ensures |lex| <= k
  {
    if r.lexicalReady then LexicalTopK(r.store.documents, scores, ascending, k) else []
  }

  /** One retrieval: search the store with the neighbours the index
      returned, fuse with the lexical results using the configured BM25 weight, and keep
      the first `top_k` entries. */
  function Retrieve(r: Retriever, neighbours: seq<Neighbour>, scores: seq<real>, ascending: seq<nat>,
                    topK: Option<nat>, cfg: Config): (res: Result<seq<Scored>>)
    requires r.lexicalReady ==> |scores| == |r.store.documents| && IsAscendingOrder(ascending, scores)
    ensures res.Ok? ==> |res.value| <= ResolveTopK(topK, cfg)
    ensures res.Ok? ==> (Search(r.store, neighbours).Ok? &&
      var k := ResolveTopK(topK, cfg);
      var fused := CombineResults(Search(r.store, neighbours).value, LexicalResults(r, scores, ascending, k), cfg.bm25Weight);
      |res.value| == Min(k, |fused|) && res.value == fused[..|res.value|])
    ensures res.Ok? ==> SortedDesc(res.value) && IdsDistinct(res.value)
    ensures res == Err(IndexNotReady) <==> r.store.index.None?
  {
    SearchNeedsIndex(r.store, neighbours);
    var k := ResolveTopK(topK, cfg);
    match Search(r.store, neighbours)
    case Err(e) => Err(e)
    case Ok(dense) =>
      var fused := CombineResults(dense, LexicalResults(r, scores, ascending, k), cfg.bm25Weight);
      PrefixSorted(fused, k);
      Ok(Prefix(fused, k))
  }

  // ---------------------------------------------------------------------
  // Properties

  /** A prefix of a sorted list with distinct keys is sorted with distinct
      keys, and nothing it leaves out scores above anything it keeps. */
  lemma {:induction false} PrefixSorted(s: seq<Scored>, k: nat)
    requires SortedDesc(s) && IdsDistinct(s)
    ensures SortedDesc(Prefix(s, k)) && IdsDistinct(Prefix(s, k))
    ensures forall p, q :: 0 <= p < |Prefix(s, k)| <= q < |s| ==> s[p].score >= s[q].score
  {
    var t := Prefix(s, k);
    forall p, q | 0 <= p < q < |t| ensures t[p].score >= t[q].score && Id(t[p].doc) != Id(t[q].doc) {
      assert t[p] == s[p] && t[q] == s[q];
    }
  }

  /** With no lexical results, the fused entry of an id is its last dense
      chunk with its weighted dense score. */
  lemma {:induction false} DenseOnlyWith(dense: seq<Scored>, nd: seq<real>, alpha: real, id: string)
    requires |nd| == |dense|
    ensures FusedWith(dense, [], Weighted(nd, 1.0 - alpha), [], id).Some? <==> LastIndex(dense, id, |dense|).Some?
    ensures LastIndex(dense, id, |dense|).Some? ==>
      FusedWith(dense, [], Weighted(nd, 1.0 - alpha), [], id).value.doc == dense[LastIndex(dense, id, |dense|).value].doc &&
      FusedWith(dense, [], Weighted(nd, 1.0 - alpha), [], id).value.score == (1.0 - alpha) * nd[LastIndex(dense, id, |dense|).value]
  {
    assert LexicalSum([], [], id, 0) == 0.0;
    match LastIndex(dense, id, |dense|)
    case Some(i) =>
      WeightedAt(nd, 1.0 - alpha, i);
    case None =>
      assert FirstIndex([], id, 0).None?;
  }

  /** With an empty lexical list every fused entry is its dense chunk
      scored (1 - alpha) times its normalised dense score. */
  lemma {:induction false} DenseOnlyFusion(dense: seq<Scored>, alpha: real, id: string)
    ensures FusedEntry(dense, [], alpha, id).Some? <==> LastIndex(dense, id, |dense|).Some?
    ensures LastIndex(dense, id, |dense|).Some? ==>
      FusedEntry(dense, [], alpha, id).value.doc == dense[LastIndex(dense, id, |dense|).value].doc &&
      FusedEntry(dense, [], alpha, id).value.score ==
        (1.0 - alpha) * NormalizeScores(Scores(dense))[LastIndex(dense, id, |dense|).value]
  {
    assert LexWeights([], alpha) == [];
    DenseOnlyWith(dense, NormalizeScores(Scores(dense)), alpha, id);
  }

  /** Without a lexical index a retrieval is the dense results alone, fused
      with an empty lexical list and cut to `top_k`. */
  lemma {:induction false} RetrieveDenseOnly(r: Retriever, neighbours: seq<Neighbour>, scores: seq<real>,
                                             ascending: seq<nat>, topK: Option<nat>, cfg: Config)
    requires !r.lexicalReady
    ensures Search(r.store, neighbours).Ok? ==>
      Retrieve(r, neighbours, scores, ascending, topK, cfg) ==
        Ok(Prefix(CombineResults(Search(r.store, neighbours).value, [], cfg.bm25Weight), ResolveTopK(topK, cfg)))
    ensures Search(r.store, neighbours).Err? ==>
      Retrieve(r, neighbours, scores, ascending, topK, cfg) == Search(r.store, neighbours)
  {
  }

  /** Every entry a retrieval returns is the fused entry of its id, and the
      entries it drops score no higher than those it keeps. */
  lemma {:induction false} RetrieveKeepsBestFused(r: Retriever, neighbours: seq<Neighbour>, scores: seq<real>,
                                                  ascending: seq<nat>, topK: Option<nat>, cfg: Config)
    requires r.lexicalReady ==> |scores| == |r.store.documents| && IsAscendingOrder(ascending, scores)
    requires Search(r.store, neighbours).Ok?
    ensures var k := ResolveTopK(topK, cfg);
      var dense := Search(r.store, neighbours).value;
      var lex := LexicalResults(r, scores, ascending, k);
      var fused := CombineResults(dense, lex, cfg.bm25Weight);
      var res := Retrieve(r, neighbours, scores, ascending, topK, cfg).value;
      |res| == Min(k, |fused|) &&
      (forall p :: 0 <= p < |res| ==> Some(res[p]) == FusedEntry(dense, lex, cfg.bm25Weight, Id(res[p].doc))) &&
      (forall p, q :: 0 <= p < |res| <= q < |fused| ==> res[p].score >= fused[q].score)
  {
    var k := ResolveTopK(topK, cfg);
    var dense := Search(r.store, neighbours).value;
    var lex := LexicalResults(r, scores, ascending, k);
    var fused := CombineResults(dense, lex, cfg.bm25Weight);
    var res := Prefix(fused, k);
    assert Retrieve(r, neighbours, scores, ascending, topK, cfg) == Ok(res);
    PrefixSorted(fused, k);
    forall p | 0 <= p < |res| ensures Some(res[p]) == FusedEntry(dense, lex, cfg.bm25Weight, Id(res[p].doc)) {
      var e := res[p];
      assert e == fused[p];
      LookupMembership(fused, Id(e.doc), e);
      CombineResultsIsKeyedUnion(dense, lex, cfg.bm25Weight, Id(e.doc));
    }
  }
}
