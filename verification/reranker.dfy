/** Cross-encoder reranking: every candidate is scored afresh against the
    query, the candidates are sorted by the new score and the best `top_k`
    are kept. The cross-encoder is a function parameter. */
module Reranker {
  import opened Records
  import opened Ranking

  /** Each candidate with its incoming score replaced by the cross-encoder's
      score of the (query, content) pair. */
  function Rescore(query: string, docs: seq<Scored>, score: (string, string) -> real): (r: seq<Scored>)
    ensures |r| == |docs|
    ensures forall i :: 0 <= i < |docs| ==> r[i].doc == docs[i].doc && r[i].score == score(query, docs[i].doc.content)
  {
    seq(|docs|, i requires 0 <= i < |docs| => Scored(docs[i].doc, score(query, docs[i].doc.content)))
  }

  /** `top_k` when given, the configuration's rerank depth otherwise (the
      configuration as it stands at the call, sliders included). */
  function ResolveTopK(topK: Option<nat>, cfg: Config): (k: nat)
    ensures topK.Some? ==> k == topK.value
    ensures topK.None? ==> k == cfg.topKRerank
  {
    if topK.Some? then topK.value else cfg.topKRerank
  }

  /** `Reranker.rerank`. */
  function Rerank(query: string, docs: seq<Scored>, topK: Option<nat>, cfg: Config, score: (string, string) -> real): (r: seq<Scored>)
    ensures docs == [] ==> r == []
    ensures |r| == Min(ResolveTopK(topK, cfg), |docs|)
  {
    if docs == [] then []
    else Prefix(SortDesc(Rescore(query, docs, score)), ResolveTopK(topK, cfg))
  }

  /** The reranked list is sorted by the new score, is the first entries of
      a reordering of the rescored candidates, and keeps tied candidates in
      their incoming order. */
  lemma {:induction false} RerankSpec(query: string, docs: seq<Scored>, topK: Option<nat>, cfg: Config, score: (string, string) -> real)
    ensures var r := Rerank(query, docs, topK, cfg, score);
      SortedDesc(r) &&
      (forall i :: 0 <= i < |r| ==> r[i].score == score(query, r[i].doc.content)) &&
      r == SortDesc(Rescore(query, docs, score))[..|r|] &&
      multiset(SortDesc(Rescore(query, docs, score))) == multiset(Rescore(query, docs, score))
  {
    var rescored := Rescore(query, docs, score);
    var sorted := SortDesc(rescored);
    SortDescSorted(rescored);
    SortDescPermutation(rescored);
    var r := Rerank(query, docs, topK, cfg, score);
    forall i, j | 0 <= i < j < |r| ensures r[i].score >= r[j].score {
      assert r[i] == sorted[i] && r[j] == sorted[j];
    }
    forall i | 0 <= i < |r| ensures r[i].score == score(query, r[i].doc.content) {
      assert r[i] == sorted[i];
      assert sorted[i] in multiset(rescored);
      var j :| 0 <= j < |rescored| && rescored[j] == sorted[i];
    }
  }

  /** Candidates given the same new score keep their incoming order: the
      sorted list, restricted to one score, is the rescored list restricted
      to it. */
  lemma {:induction false} RerankStable(query: string, docs: seq<Scored>, score: (string, string) -> real, v: real)
    ensures WithScore(SortDesc(Rescore(query, docs, score)), v) == WithScore(Rescore(query, docs, score), v)
  {
    SortDescStable(Rescore(query, docs, score), v);
  }
}
