/** Weighted fusion of the dense (embedding) and lexical (BM25) result lists.
    Each list is normalised on its own, then the two are merged in a table
    keyed by chunk id, which behaves like Python's insertion-ordered dict:
    a dense entry with an id already present overwrites it in place, a
    lexical entry with an id already present adds to its score. The table
    is finally sorted by non-increasing fused score. */
module Fusion {
  import opened Records
  import opened Ranking
  import opened Normalization

  /** The scores of a result list, in order. */
  function Scores(rs: seq<Scored>): (r: seq<real>)
    ensures |r| == |rs|
    ensures forall i :: 0 <= i < |rs| ==> r[i] == rs[i].score
  {
    seq(|rs|, i requires 0 <= i < |rs| => rs[i].score)
  }

  /** Every value multiplied by the weight `w`. */
  function Weighted(values: seq<real>, w: real): (r: seq<real>)
    ensures |r| == |values|
    ensures forall i :: 0 <= i < |values| ==> r[i] == w * values[i]
  {
    seq(|values|, i requires 0 <= i < |values| => w * values[i])
  }

  // ---------------------------------------------------------------------
  // Positions of a chunk id

  /** The first position below `n` holding `id`. */
  function FirstIndex(s: seq<Scored>, id: string, n: nat): (r: Option<nat>)
    requires n <= |s|
    ensures r.Some? ==> r.value < n && Id(s[r.value].doc) == id
    ensures r.Some? ==> forall k :: 0 <= k < r.value ==> Id(s[k].doc) != id
    ensures r.None? ==> forall k :: 0 <= k < n ==> Id(s[k].doc) != id
  {
    if n == 0 then None
    else match FirstIndex(s, id, n - 1)
      case Some(j) => Some(j)
      case None => if Id(s[n - 1].doc) == id then Some(n - 1) else None
  }

  /** The last position below `n` holding `id`. */
  function LastIndex(s: seq<Scored>, id: string, n: nat): (r: Option<nat>)
    requires n <= |s|
    ensures r.Some? ==> r.value < n && Id(s[r.value].doc) == id
    ensures r.Some? ==> forall k :: r.value < k < n ==> Id(s[k].doc) != id
    ensures r.None? ==> forall k :: 0 <= k < n ==> Id(s[k].doc) != id
  {
    if n == 0 then None
    else if Id(s[n - 1].doc) == id then Some(n - 1)
    else LastIndex(s, id, n - 1)
  }

  // ---------------------------------------------------------------------
  // The insertion-ordered table

  /** The position of the table holding `id`. */
  function Find(d: seq<Scored>, id: string): (r: Option<nat>)
    ensures r.Some? ==> r.value < |d| && Id(d[r.value].doc) == id
    ensures r.Some? ==> forall k :: 0 <= k < r.value ==> Id(d[k].doc) != id
    ensures r.None? ==> forall k :: 0 <= k < |d| ==> Id(d[k].doc) != id
  {
    FirstIndex(d, id, |d|)
  }

  /** The table entry for `id`, if any. */
  function Lookup(d: seq<Scored>, id: string): Option<Scored> {
    match Find(d, id)
    case Some(i) => Some(d[i])
    case None => None
  }

  /** `score_dict[id] = {doc, score}`: overwrite in place, or append. */
  function Put(d: seq<Scored>, doc: Chunk, score: real): seq<Scored> {
    match Find(d, Id(doc))
    case Some(i) => d[i := Scored(doc, score)]
    case None => d + [Scored(doc, score)]
  }

  /** `score_dict[id]['score'] += score` when present (the stored chunk is
      kept), otherwise a new entry appended. */
  function Accumulate(d: seq<Scored>, doc: Chunk, score: real): seq<Scored> {
    match Find(d, Id(doc))
    case Some(i) => d[i := Scored(d[i].doc, d[i].score + score)]
    case None => d + [Scored(doc, score)]
  }

  /** The table after the first `n` rounds of the loop over the dense
      results, whose weighted normalised scores are `ws`. */
  function DenseTable(dense: seq<Scored>, ws: seq<real>, n: nat): seq<Scored>
    requires |ws| == |dense| && n <= |dense|
  {
    if n == 0 then []
    else Put(DenseTable(dense, ws, n - 1), dense[n - 1].doc, ws[n - 1])
  }

  /** The table after the first `n` rounds of the loop over the lexical
      results, whose weighted normalised scores are `ws`, starting from
      `base`. */
  function LexTable(base: seq<Scored>, lex: seq<Scored>, ws: seq<real>, n: nat): seq<Scored>
    requires |ws| == |lex| && n <= |lex|
  {
    if n == 0 then base
    else Accumulate(LexTable(base, lex, ws, n - 1), lex[n - 1].doc, ws[n - 1])
  }

  /** The dense scores, normalised and weighted by 1 - alpha. */
  function DenseWeights(dense: seq<Scored>, alpha: real): (r: seq<real>)
    ensures |r| == |dense|
  {
    Weighted(NormalizeScores(Scores(dense)), 1.0 - alpha)
  }

  /** The lexical scores, normalised and weighted by alpha. */
  function LexWeights(lex: seq<Scored>, alpha: real): (r: seq<real>)
    ensures |r| == |lex|
  {
    Weighted(NormalizeScores(Scores(lex)), alpha)
  }

  /** The dense loop followed by the lexical loop, before sorting. */
  function Fuse(dense: seq<Scored>, lex: seq<Scored>, wd: seq<real>, wl: seq<real>): (r: seq<Scored>)
    requires |wd| == |dense| && |wl| == |lex|
    ensures IdsDistinct(r)
  {
    var base := DenseTable(dense, wd, |dense|);
    DenseTableDistinct(dense, wd, |dense|);
    LexTableDistinct(base, lex, wl, |lex|);
    LexTable(base, lex, wl, |lex|)
  }

  function FusionTable(dense: seq<Scored>, lex: seq<Scored>, alpha: real): (r: seq<Scored>)
    ensures IdsDistinct(r)
  {
    Fuse(dense, lex, DenseWeights(dense, alpha), LexWeights(lex, alpha))
  }

  /** The fused list: the table's entries sorted by non-increasing score,
      entries of equal score staying in table order. */
  function CombineResults(dense: seq<Scored>, lex: seq<Scored>, alpha: real): (r: seq<Scored>)
    ensures SortedDesc(r)
    ensures IdsDistinct(r)
    ensures multiset(r) == multiset(FusionTable(dense, lex, alpha))
  {
    var table := FusionTable(dense, lex, alpha);
    SortDescSorted(table);
    SortDescPermutation(table);
    SortDescIdsDistinct(table);
    SortDesc(table)
  }

  // ---------------------------------------------------------------------
  // The reference definition of a fused entry

  /** The sum of `values` over the first `n` entries of `lex` holding `id`. */
  function LexicalSum(lex: seq<Scored>, values: seq<real>, id: string, n: nat): real
    requires |values| == |lex| && n <= |lex|
  {
    if n == 0 then 0.0
    else LexicalSum(lex, values, id, n - 1) + (if Id(lex[n - 1].doc) == id then values[n - 1] else 0.0)
  }

  /** What the two loops leave in the table for `id`, given the weighted
      scores of both lists: the last dense chunk with that id scoring its
      dense weight plus the sum of the lexical weights of that id, or else
      the first lexical chunk with that id scoring that sum, or nothing. */
  function FusedWith(dense: seq<Scored>, lex: seq<Scored>, wd: seq<real>, wl: seq<real>, id: string): Option<Scored>
    requires |wd| == |dense| && |wl| == |lex|
  {
    var sum := LexicalSum(lex, wl, id, |lex|);
    match LastIndex(dense, id, |dense|)
    case Some(i) => Some(Scored(dense[i].doc, wd[i] + sum))
    case None =>
      match FirstIndex(lex, id, |lex|)
      case Some(j) => Some(Scored(lex[j].doc, sum))
      case None => None
  }

  /** What the fused list holds for `id`: the union of both lists, with the
      normalised dense score weighted by 1 - alpha and the normalised
      lexical scores by alpha. FusedScoreDense and FusedScoreLexical spell
      the resulting scores out. */
  function FusedEntry(dense: seq<Scored>, lex: seq<Scored>, alpha: real, id: string): Option<Scored> {
    FusedWith(dense, lex, DenseWeights(dense, alpha), LexWeights(lex, alpha), id)
  }

  // ---------------------------------------------------------------------
  // Table lemmas

  lemma {:induction false} FindAppend(d: seq<Scored>, x: Scored, id: string)
    ensures Find(d + [x], id) ==
      match Find(d, id)
      case Some(i) => Some(i)
      case None => if Id(x.doc) == id then Some(|d|) else None
  {
    var e := d + [x];
    assert forall k :: 0 <= k < |d| ==> e[k] == d[k];
    match Find(d, id)
    case Some(i) =>
      assert Id(e[i].doc) == id;
    case None =>
      if Id(x.doc) == id {
        assert Id(e[|d|].doc) == id;
      }
  }

  lemma {:induction false} FindSameKeys(a: seq<Scored>, b: seq<Scored>, id: string)
    requires |a| == |b|
    requires forall k :: 0 <= k < |a| ==> Id(a[k].doc) == Id(b[k].doc)
    ensures Find(a, id) == Find(b, id)
  {
    match Find(a, id)
    case Some(i) =>
      assert Id(b[i].doc) == id;
    case None =>
  }

  lemma {:induction false} PutLookup(d: seq<Scored>, doc: Chunk, score: real, id: string)
    ensures Lookup(Put(d, doc, score), id) ==
      if id == Id(doc) then Some(Scored(doc, score)) else Lookup(d, id)
  {
    match Find(d, Id(doc))
    case Some(i) =>
      FindSameKeys(d, d[i := Scored(doc, score)], id);
    case None =>
      FindAppend(d, Scored(doc, score), id);
  }

  lemma {:induction false} AccumulateLookup(d: seq<Scored>, doc: Chunk, score: real, id: string)
    ensures Lookup(Accumulate(d, doc, score), id) ==
      if id != Id(doc) then Lookup(d, id)
      else match Lookup(d, id)
        case Some(e) => Some(Scored(e.doc, e.score + score))
        case None => Some(Scored(doc, score))
  {
    match Find(d, Id(doc))
    case Some(i) =>
      FindSameKeys(d, d[i := Scored(d[i].doc, d[i].score + score)], id);
    case None =>
      FindAppend(d, Scored(doc, score), id);
  }

  lemma {:induction false} PutDistinct(d: seq<Scored>, doc: Chunk, score: real)
    requires IdsDistinct(d)
    ensures IdsDistinct(Put(d, doc, score))
  {
    var r := Put(d, doc, score);
    forall i, j | 0 <= i < j < |r|
      ensures Id(r[i].doc) != Id(r[j].doc)
    {
      if j == |d| {
        assert Id(d[i].doc) != Id(doc);
      } else {
        assert Id(r[i].doc) == Id(d[i].doc) && Id(r[j].doc) == Id(d[j].doc);
      }
    }
  }

  lemma {:induction false} AccumulateDistinct(d: seq<Scored>, doc: Chunk, score: real)
    requires IdsDistinct(d)
    ensures IdsDistinct(Accumulate(d, doc, score))
  {
    var r := Accumulate(d, doc, score);
    forall i, j | 0 <= i < j < |r|
      ensures Id(r[i].doc) != Id(r[j].doc)
    {
      if j == |d| {
        assert Id(d[i].doc) != Id(doc);
      } else {
        assert Id(r[i].doc) == Id(d[i].doc) && Id(r[j].doc) == Id(d[j].doc);
      }
    }
  }

  lemma {:induction false} DenseTableDistinct(dense: seq<Scored>, ws: seq<real>, n: nat)
    requires |ws| == |dense| && n <= |dense|
    ensures IdsDistinct(DenseTable(dense, ws, n))
  {
    if n > 0 {
      DenseTableDistinct(dense, ws, n - 1);
      PutDistinct(DenseTable(dense, ws, n - 1), dense[n - 1].doc, ws[n - 1]);
    }
  }

  lemma {:induction false} LexTableDistinct(base: seq<Scored>, lex: seq<Scored>, ws: seq<real>, n: nat)
    requires |ws| == |lex| && n <= |lex|
    requires IdsDistinct(base)
    ensures IdsDistinct(LexTable(base, lex, ws, n))
  {
    if n > 0 {
      LexTableDistinct(base, lex, ws, n - 1);
      AccumulateDistinct(LexTable(base, lex, ws, n - 1), lex[n - 1].doc, ws[n - 1]);
    }
  }

  /** After the dense loop the table holds, for each id, the last dense
      chunk with that id and that entry's weighted score. */
  lemma {:induction false} DenseTableLookup(dense: seq<Scored>, ws: seq<real>, id: string, n: nat)
    requires |ws| == |dense| && n <= |dense|
    ensures Lookup(DenseTable(dense, ws, n), id) ==
      match LastIndex(dense, id, n)
      case Some(i) => Some(Scored(dense[i].doc, ws[i]))
      case None => None
  {
    if n > 0 {
      DenseTableLookup(dense, ws, id, n - 1);
      PutLookup(DenseTable(dense, ws, n - 1), dense[n - 1].doc, ws[n - 1], id);
    }
  }

  lemma {:induction false} LexicalSumAbsent(lex: seq<Scored>, values: seq<real>, id: string, n: nat)
    requires |values| == |lex| && n <= |lex|
    requires forall k :: 0 <= k < n ==> Id(lex[k].doc) != id
    ensures LexicalSum(lex, values, id, n) == 0.0
  {
    if n > 0 {
      LexicalSumAbsent(lex, values, id, n - 1);
    }
  }

  lemma {:induction false} Distribute(w: real, a: real, b: real)
    ensures w * (a + b) == w * a + w * b
  {
  }

  /** Weighting every value scales the sum by the weight. */
  lemma {:induction false} LexicalSumWeighted(lex: seq<Scored>, values: seq<real>, w: real, id: string, n: nat)
    requires |values| == |lex| && n <= |lex|
    ensures LexicalSum(lex, Weighted(values, w), id, n) == w * LexicalSum(lex, values, id, n)
  {
    if n > 0 {
      LexicalSumWeighted(lex, values, w, id, n - 1);
      var x := if Id(lex[n - 1].doc) == id then values[n - 1] else 0.0;
      Distribute(w, LexicalSum(lex, values, id, n - 1), x);
    }
  }

  /** After the lexical loop an id already in `base` keeps its chunk and has
      its lexical sum added to its score. */
  lemma {:induction false} LexTableLookupPresent(base: seq<Scored>, lex: seq<Scored>, ws: seq<real>, id: string, e: Scored, n: nat)
    requires |ws| == |lex| && n <= |lex|
    requires Lookup(base, id) == Some(e)
    ensures Lookup(LexTable(base, lex, ws, n), id) == Some(Scored(e.doc, e.score + LexicalSum(lex, ws, id, n)))
  {
    if n > 0 {
      LexTableLookupPresent(base, lex, ws, id, e, n - 1);
      AccumulateLookup(LexTable(base, lex, ws, n - 1), lex[n - 1].doc, ws[n - 1], id);
    }
  }

  /** After the lexical loop an id absent from `base` holds its first lexical
      chunk scored with its lexical sum, or is still absent. */
  lemma {:induction false} LexTableLookupAbsent(base: seq<Scored>, lex: seq<Scored>, ws: seq<real>, id: string, n: nat)
    requires |ws| == |lex| && n <= |lex|
    requires Lookup(base, id).None?
    ensures Lookup(LexTable(base, lex, ws, n), id) ==
      match FirstIndex(lex, id, n)
      case Some(j) => Some(Scored(lex[j].doc, LexicalSum(lex, ws, id, n)))
      case None => None
  {
    if n > 0 {
      var prev := LexTable(base, lex, ws, n - 1);
      var x, w := lex[n - 1].doc, ws[n - 1];
      LexTableLookupAbsent(base, lex, ws, id, n - 1);
      if Id(x) != id {
        AccumulateLookup(prev, x, w, id);
        assert LexTable(base, lex, ws, n) == Accumulate(prev, x, w);
        assert LexicalSum(lex, ws, id, n) == LexicalSum(lex, ws, id, n - 1);
        assert FirstIndex(lex, id, n) == FirstIndex(lex, id, n - 1);
      } else {
        LexTableAbsentHit(base, lex, ws, id, n);
      }
    }
  }

  /** The step of `LexTableLookupAbsent` at a lexical chunk with the id. */
  lemma {:induction false} LexTableAbsentHit(base: seq<Scored>, lex: seq<Scored>, ws: seq<real>, id: string, n: nat)
    requires |ws| == |lex| && 0 < n <= |lex| && Id(lex[n - 1].doc) == id
    requires Lookup(LexTable(base, lex, ws, n - 1), id) ==
      match FirstIndex(lex, id, n - 1)
      case Some(j) => Some(Scored(lex[j].doc, LexicalSum(lex, ws, id, n - 1)))
      case None => None
    ensures Lookup(LexTable(base, lex, ws, n), id) ==
      match FirstIndex(lex, id, n)
      case Some(j) => Some(Scored(lex[j].doc, LexicalSum(lex, ws, id, n)))
      case None => None
  {
    var prev := LexTable(base, lex, ws, n - 1);
    var x, w := lex[n - 1].doc, ws[n - 1];
    var sp := LexicalSum(lex, ws, id, n - 1);
    AccumulateLookup(prev, x, w, id);
    assert LexTable(base, lex, ws, n) == Accumulate(prev, x, w);
    assert LexicalSum(lex, ws, id, n) == sp + w;
    match FirstIndex(lex, id, n - 1)
    case Some(j) =>
      assert FirstIndex(lex, id, n) == Some(j);
      assert Lookup(prev, id) == Some(Scored(lex[j].doc, sp));
    case None =>
      LexicalSumAbsent(lex, ws, id, n - 1);
      assert FirstIndex(lex, id, n) == Some(n - 1);
      assert Lookup(prev, id) == None;
  }

  lemma {:induction false} LookupMembership(d: seq<Scored>, id: string, e: Scored)
    requires IdsDistinct(d)
    ensures Lookup(d, id) == Some(e) <==> e in d && Id(e.doc) == id
  {
    if e in d && Id(e.doc) == id {
      var k :| 0 <= k < |d| && d[k] == e;
      var i := Find(d, id).value;
      assert i == k;
    }
  }

  /** Two tables with the same entries and distinct keys answer every
      lookup alike, whatever their order. */
  lemma {:induction false} LookupPermutation(a: seq<Scored>, b: seq<Scored>, id: string)
    requires IdsDistinct(a) && IdsDistinct(b)
    requires multiset(a) == multiset(b)
    ensures Lookup(a, id) == Lookup(b, id)
  {
    match Lookup(a, id)
    case Some(e) =>
      LookupMembership(a, id, e);
      assert e in multiset(a);
      LookupMembership(b, id, e);
    case None =>
      match Lookup(b, id)
      case Some(e) =>
        LookupMembership(b, id, e);
        assert e in multiset(b);
        LookupMembership(a, id, e);
      case None =>
  }

  // ---------------------------------------------------------------------
  // Properties of the fused list

  /** The two loops together, for an id the dense list holds. */
  lemma {:induction false} FuseLookupDense(dense: seq<Scored>, lex: seq<Scored>, wd: seq<real>, wl: seq<real>, id: string, i: nat)
    requires |wd| == |dense| && |wl| == |lex|
    requires LastIndex(dense, id, |dense|) == Some(i)
    ensures Lookup(Fuse(dense, lex, wd, wl), id) == Some(Scored(dense[i].doc, wd[i] + LexicalSum(lex, wl, id, |lex|)))
  {
    var base := DenseTable(dense, wd, |dense|);
    assert Fuse(dense, lex, wd, wl) == LexTable(base, lex, wl, |lex|);
    DenseTableLookup(dense, wd, id, |dense|);
    assert Lookup(base, id) == Some(Scored(dense[i].doc, wd[i]));
    LexTableLookupPresent(base, lex, wl, id, Scored(dense[i].doc, wd[i]), |lex|);
  }

  /** The two loops together, for an id the dense list does not hold. */
  lemma {:induction false} FuseLookupLexical(dense: seq<Scored>, lex: seq<Scored>, wd: seq<real>, wl: seq<real>, id: string)
    requires |wd| == |dense| && |wl| == |lex|
    requires LastIndex(dense, id, |dense|).None?
    ensures Lookup(Fuse(dense, lex, wd, wl), id) ==
      match FirstIndex(lex, id, |lex|)
      case Some(j) => Some(Scored(lex[j].doc, LexicalSum(lex, wl, id, |lex|)))
      case None => None
  {
    var base := DenseTable(dense, wd, |dense|);
    assert Fuse(dense, lex, wd, wl) == LexTable(base, lex, wl, |lex|);
    DenseTableLookup(dense, wd, id, |dense|);
    assert Lookup(base, id).None?;
    LexTableLookupAbsent(base, lex, wl, id, |lex|);
  }

  lemma {:induction false} FuseLookup(dense: seq<Scored>, lex: seq<Scored>, wd: seq<real>, wl: seq<real>, id: string)
    requires |wd| == |dense| && |wl| == |lex|
    ensures Lookup(Fuse(dense, lex, wd, wl), id) == FusedWith(dense, lex, wd, wl, id)
  {
    match LastIndex(dense, id, |dense|)
    case Some(i) =>
      FuseLookupDense(dense, lex, wd, wl, id, i);
    case None =>
      FuseLookupLexical(dense, lex, wd, wl, id);
  }

  /** The unsorted table holds exactly what FusedEntry predicts. */
  lemma {:induction false} FusionTableLookup(dense: seq<Scored>, lex: seq<Scored>, alpha: real, id: string)
    ensures Lookup(FusionTable(dense, lex, alpha), id) == FusedEntry(dense, lex, alpha, id)
  {
    FuseLookup(dense, lex, DenseWeights(dense, alpha), LexWeights(lex, alpha), id);
  }

  /** Fusion is the keyed union described by FusedEntry: for every chunk id
      the fused list holds exactly the entry FusedEntry predicts, and no
      entry when the id is in neither list. */
  lemma {:induction false} CombineResultsIsKeyedUnion(dense: seq<Scored>, lex: seq<Scored>, alpha: real, id: string)
    ensures Lookup(CombineResults(dense, lex, alpha), id) == FusedEntry(dense, lex, alpha, id)
  {
    FusionTableLookup(dense, lex, alpha, id);
    LookupPermutation(FusionTable(dense, lex, alpha), CombineResults(dense, lex, alpha), id);
  }

  /** A chunk id is in the fused list exactly when it is in either input. */
  lemma {:induction false} CombineResultsUnion(dense: seq<Scored>, lex: seq<Scored>, alpha: real, id: string)
    ensures Lookup(CombineResults(dense, lex, alpha), id).Some? <==>
      (exists i :: 0 <= i < |dense| && Id(dense[i].doc) == id) ||
      (exists j :: 0 <= j < |lex| && Id(lex[j].doc) == id)
  {
    CombineResultsIsKeyedUnion(dense, lex, alpha, id);
  }

  lemma {:induction false} MulNonneg(a: real, b: real)
    requires a >= 0.0 && b >= 0.0
    ensures a * b >= 0.0
  {
  }

  /** A convex combination of two values in [0, 1] stays in [0, 1]. */
  lemma {:induction false} ConvexInUnit(alpha: real, x: real, y: real)
    requires 0.0 <= alpha <= 1.0 && 0.0 <= x <= 1.0 && 0.0 <= y <= 1.0
    ensures 0.0 <= (1.0 - alpha) * x + alpha * y <= 1.0
  {
    MulNonneg(1.0 - alpha, x);
    MulNonneg(alpha, y);
    MulNonneg(1.0 - alpha, 1.0 - x);
    MulNonneg(alpha, 1.0 - y);
  }

  /** With distinct lexical ids an id's lexical sum is its one value, or
      zero. */
  lemma {:induction false} LexicalSumDistinct(lex: seq<Scored>, values: seq<real>, id: string, n: nat)
    requires |values| == |lex| && n <= |lex|
    requires IdsDistinct(lex)
    requires InUnitInterval(values)
    ensures 0.0 <= LexicalSum(lex, values, id, n) <= 1.0
  {
    if n > 0 {
      LexicalSumDistinct(lex, values, id, n - 1);
      if Id(lex[n - 1].doc) == id {
        LexicalSumAbsent(lex, values, id, n - 1);
      }
    }
  }

  lemma {:induction false} WeightedAt(values: seq<real>, w: real, i: nat)
    requires i < |values|
    ensures Weighted(values, w)[i] == w * values[i]
  {
  }

  lemma {:induction false} FusedWithDense(dense: seq<Scored>, lex: seq<Scored>, wd: seq<real>, wl: seq<real>, id: string, i: nat)
    requires |wd| == |dense| && |wl| == |lex|
    requires LastIndex(dense, id, |dense|) == Some(i)
    ensures FusedWith(dense, lex, wd, wl, id) == Some(Scored(dense[i].doc, wd[i] + LexicalSum(lex, wl, id, |lex|)))
  {
  }

  lemma {:induction false} FusedWithLexical(dense: seq<Scored>, lex: seq<Scored>, wd: seq<real>, wl: seq<real>, id: string, j: nat)
    requires |wd| == |dense| && |wl| == |lex|
    requires LastIndex(dense, id, |dense|).None?
    requires FirstIndex(lex, id, |lex|) == Some(j)
    ensures FusedWith(dense, lex, wd, wl, id) == Some(Scored(lex[j].doc, LexicalSum(lex, wl, id, |lex|)))
  {
  }

  lemma {:induction false} WeightedScoreDense(dense: seq<Scored>, lex: seq<Scored>, nd: seq<real>, nl: seq<real>, alpha: real, id: string, i: nat)
    requires |nd| == |dense| && |nl| == |lex|
    requires LastIndex(dense, id, |dense|) == Some(i)
    ensures FusedWith(dense, lex, Weighted(nd, 1.0 - alpha), Weighted(nl, alpha), id).Some?
    ensures FusedWith(dense, lex, Weighted(nd, 1.0 - alpha), Weighted(nl, alpha), id).value.doc == dense[i].doc
    ensures FusedWith(dense, lex, Weighted(nd, 1.0 - alpha), Weighted(nl, alpha), id).value.score ==
      (1.0 - alpha) * nd[i] + alpha * LexicalSum(lex, nl, id, |lex|)
  {
    var wd, wl := Weighted(nd, 1.0 - alpha), Weighted(nl, alpha);
    FusedWithDense(dense, lex, wd, wl, id, i);
    WeightedAt(nd, 1.0 - alpha, i);
    LexicalSumWeighted(lex, nl, alpha, id, |lex|);
  }

  lemma {:induction false} WeightedScoreLexical(dense: seq<Scored>, lex: seq<Scored>, nd: seq<real>, nl: seq<real>, alpha: real, id: string, j: nat)
    requires |nd| == |dense| && |nl| == |lex|
    requires LastIndex(dense, id, |dense|).None?
    requires FirstIndex(lex, id, |lex|) == Some(j)
    ensures FusedWith(dense, lex, Weighted(nd, 1.0 - alpha), Weighted(nl, alpha), id).Some?
    ensures FusedWith(dense, lex, Weighted(nd, 1.0 - alpha), Weighted(nl, alpha), id).value.doc == lex[j].doc
    ensures FusedWith(dense, lex, Weighted(nd, 1.0 - alpha), Weighted(nl, alpha), id).value.score ==
      alpha * LexicalSum(lex, nl, id, |lex|)
  {
    var wd, wl := Weighted(nd, 1.0 - alpha), Weighted(nl, alpha);
    FusedWithLexical(dense, lex, wd, wl, id, j);
    LexicalSumWeighted(lex, nl, alpha, id, |lex|);
  }

  /** The fused score of a chunk found densely is (1 - alpha) times its
      normalised dense score plus alpha times the sum of the normalised
      lexical scores of its id. */
  lemma {:induction false} FusedScoreDense(dense: seq<Scored>, lex: seq<Scored>, alpha: real, id: string, i: nat)
    requires LastIndex(dense, id, |dense|) == Some(i)
    ensures FusedEntry(dense, lex, alpha, id).Some?
    ensures FusedEntry(dense, lex, alpha, id).value.doc == dense[i].doc
    ensures FusedEntry(dense, lex, alpha, id).value.score ==
      (1.0 - alpha) * NormalizeScores(Scores(dense))[i] +
      alpha * LexicalSum(lex, NormalizeScores(Scores(lex)), id, |lex|)
  {
    WeightedScoreDense(dense, lex, NormalizeScores(Scores(dense)), NormalizeScores(Scores(lex)), alpha, id, i);
  }

  /** The fused score of a chunk found only lexically is alpha times the
      sum of the normalised lexical scores of its id. */
  lemma {:induction false} FusedScoreLexical(dense: seq<Scored>, lex: seq<Scored>, alpha: real, id: string, j: nat)
    requires LastIndex(dense, id, |dense|).None?
    requires FirstIndex(lex, id, |lex|) == Some(j)
    ensures FusedEntry(dense, lex, alpha, id).Some?
    ensures FusedEntry(dense, lex, alpha, id).value.doc == lex[j].doc
    ensures FusedEntry(dense, lex, alpha, id).value.score ==
      alpha * LexicalSum(lex, NormalizeScores(Scores(lex)), id, |lex|)
  {
    WeightedScoreLexical(dense, lex, NormalizeScores(Scores(dense)), NormalizeScores(Scores(lex)), alpha, id, j);
  }

  lemma {:induction false} ScaledInUnit(alpha: real, y: real)
    requires 0.0 <= alpha <= 1.0 && 0.0 <= y <= 1.0
    ensures 0.0 <= alpha * y <= 1.0
  {
    MulNonneg(alpha, y);
    MulNonneg(alpha, 1.0 - y);
  }

  /** Weighted fusion of values in [0, 1] with distinct lexical ids stays in
      [0, 1]. */
  lemma {:induction false} WeightedInUnit(dense: seq<Scored>, lex: seq<Scored>, nd: seq<real>, nl: seq<real>, alpha: real, id: string)
    requires |nd| == |dense| && |nl| == |lex|
    requires 0.0 <= alpha <= 1.0
    requires InUnitInterval(nd) && InUnitInterval(nl)
    requires IdsDistinct(lex)
    ensures var f := FusedWith(dense, lex, Weighted(nd, 1.0 - alpha), Weighted(nl, alpha), id);
      f.Some? ==> 0.0 <= f.value.score <= 1.0
  {
    LexicalSumDistinct(lex, nl, id, |lex|);
    var sum := LexicalSum(lex, nl, id, |lex|);
    match LastIndex(dense, id, |dense|)
    case Some(i) =>
      WeightedScoreDense(dense, lex, nd, nl, alpha, id, i);
      assert 0.0 <= nd[i] <= 1.0;
      ConvexInUnit(alpha, nd[i], sum);
    case None =>
      match FirstIndex(lex, id, |lex|)
      case Some(j) =>
        WeightedScoreLexical(dense, lex, nd, nl, alpha, id, j);
        ScaledInUnit(alpha, sum);
      case None =>
  }

  /** With a lexical weight in [0, 1] and no chunk id repeated in the
      lexical list, every fused score lies in [0, 1]. */
  lemma {:induction false} FusedEntryInUnitInterval(dense: seq<Scored>, lex: seq<Scored>, alpha: real, id: string)
    requires 0.0 <= alpha <= 1.0
    requires IdsDistinct(lex)
    ensures FusedEntry(dense, lex, alpha, id).Some? ==>
      0.0 <= FusedEntry(dense, lex, alpha, id).value.score <= 1.0
  {
    NormalizeInUnitInterval(Scores(dense));
    NormalizeInUnitInterval(Scores(lex));
    WeightedInUnit(dense, lex, NormalizeScores(Scores(dense)), NormalizeScores(Scores(lex)), alpha, id);
  }

  /** Every entry of the fused list scores in [0, 1] under the same
      conditions. */
  lemma {:induction false} FusedScoresInUnitInterval(dense: seq<Scored>, lex: seq<Scored>, alpha: real, id: string)
    requires 0.0 <= alpha <= 1.0
    requires IdsDistinct(lex)
    ensures Lookup(CombineResults(dense, lex, alpha), id).Some? ==>
      0.0 <= Lookup(CombineResults(dense, lex, alpha), id).value.score <= 1.0
  {
    CombineResultsIsKeyedUnion(dense, lex, alpha, id);
    FusedEntryInUnitInterval(dense, lex, alpha, id);
  }

  /** The bound needs distinct lexical ids: when the lexical list holds the
      same chunk twice with equal scores, both normalise to 1 and are added,
      so a chunk also found densely scores 1 + alpha, above 1 for any
      positive lexical weight. */
  lemma {:induction false} RepeatedLexicalIdExceedsOne(c: Chunk, dense: real, lexical: real, alpha: real)
    ensures Lookup(CombineResults([Scored(c, dense)], [Scored(c, lexical), Scored(c, lexical)], alpha), Id(c)) ==
      Some(Scored(c, 1.0 + alpha))
  {
    var d := [Scored(c, dense)];
    var l := [Scored(c, lexical), Scored(c, lexical)];
    assert LastIndex(d, Id(c), 1) == Some(0);
    FusedScoreDense(d, l, alpha, Id(c), 0);
    assert Scores(d) == [dense] && Scores(l) == [lexical, lexical];
    NormalizeDegenerate(Scores(d));
    NormalizeDegenerate(Scores(l));
    var nl := NormalizeScores(Scores(l));
    assert nl[0] == 1.0 && nl[1] == 1.0;
    assert Id(l[0].doc) == Id(c) && Id(l[1].doc) == Id(c);
    assert LexicalSum(l, nl, Id(c), 1) == 1.0;
    assert LexicalSum(l, nl, Id(c), 2) == 2.0;
    var e := FusedEntry(d, l, alpha, Id(c));
    assert NormalizeScores(Scores(d))[0] == 1.0;
    assert e.value.score == (1.0 - alpha) * 1.0 + alpha * 2.0;
    assert e == Some(Scored(c, 1.0 + alpha));
    CombineResultsIsKeyedUnion(d, l, alpha, Id(c));
  }
}
