/** The vector store: an exact L2 index over chunk embeddings, the chunks
    it was built from, and the two files it is saved to. The index's own
    nearest-neighbour computation is outside the model: a search takes the
    neighbour list the index returned, as `(row, distance)` pairs. */
module VectorStore {
  import opened Records

  /** L2 distances are never negative. */
  type Distance = d: real | 0.0 <= d

  /** One neighbour reported by the index: the row it matched, or -1 when
      fewer rows exist than were asked for, and its L2 distance. */
  datatype Neighbour = Neighbour(row: int, distance: Distance)

  /** A flat index: the embedding width it was created with and its rows. */
  datatype FlatIndex = FlatIndex(dimension: nat, rows: seq<seq<real>>)

  /** What the two files on disk hold, if they exist. */
  datatype Disk = Disk(indexFile: Option<FlatIndex>, docsFile: Option<seq<Chunk>>)

  datatype Store = Store(index: Option<FlatIndex>, documents: seq<Chunk>, disk: Disk)

  /** A fresh store: no index, no chunks, whatever is on disk. */
  function NewStore(disk: Disk): (s: Store)
    ensures s.index.None? && s.documents == [] && s.disk == disk
  {
    Store(None, [], disk)
  }

  /** Builds a new index of the given width over `rows` and replaces the
      store's chunks with `docs`; the disk is untouched. */
  function CreateIndex(s: Store, dimension: nat, rows: seq<seq<real>>, docs: seq<Chunk>): (r: Store)
    ensures r.index == Some(FlatIndex(dimension, rows))
    ensures r.documents == docs
    ensures r.disk == s.disk
  {
    Store(Some(FlatIndex(dimension, rows)), docs, s.disk)
  }

  /** Writes both files when an index exists, and does nothing otherwise. */
  function Save(s: Store): (r: Store)
    ensures r.index == s.index && r.documents == s.documents
    ensures s.index.None? ==> r == s
    ensures s.index.Some? ==> r.disk == Disk(s.index, Some(s.documents))
  {
    if s.index.Some? then s.(disk := Disk(s.index, Some(s.documents))) else s
  }

  /** Restores index and chunks when both files exist and reports whether
      it did; otherwise the store is left as it was. */
  function Load(s: Store): (r: (Store, bool))
    ensures r.1 <==> s.disk.indexFile.Some? && s.disk.docsFile.Some?
    ensures r.1 ==> r.0 == Store(s.disk.indexFile, s.disk.docsFile.value, s.disk)
    ensures !r.1 ==> r.0 == s
  {
    if s.disk.indexFile.Some? && s.disk.docsFile.Some? then
      (s.(index := s.disk.indexFile, documents := s.disk.docsFile.value), true)
    else (s, false)
  }

  /** Drops the index and the chunks and deletes both files. */
  function Clear(s: Store): (r: Store)
    ensures r.index.None? && r.documents == []
    ensures r.disk.indexFile.None? && r.disk.docsFile.None?
  {
    Store(None, [], Disk(None, None))
  }

  /** The similarity reported for an L2 distance. */
  function Similarity(d: Distance): real {
    1.0 / (1.0 + d)
  }

  /** The position Python's `documents[row]` reads for a row in
      [-n, n): negative labels count from the end. */
  function Resolve(row: int, n: nat): (i: nat)
    requires -(n as int) <= row < n
    ensures i < n
    ensures row >= 0 ==> i == row
    ensures row < 0 ==> i == n + row
  {
    if row >= 0 then row else n + row
  }

  /** The result a kept neighbour contributes. */
  function Hit(docs: seq<Chunk>, nb: Neighbour): Scored
    requires -|docs| <= nb.row < |docs|
  {
    Scored(docs[Resolve(nb.row, |docs|)], Similarity(nb.distance))
  }

  /** The loop over the first `n` neighbours: a row at or beyond the
      number of chunks is skipped, any other row is read with Python's
      indexing, which fails for a row below minus that number. */
  function SearchLoop(docs: seq<Chunk>, ns: seq<Neighbour>, n: nat): Result<seq<Scored>>
    requires n <= |ns|
  {
    if n == 0 then Ok([])
    else
      match SearchLoop(docs, ns, n - 1)
      case Err(e) => Err(e)
      case Ok(prev) =>
        var nb := ns[n - 1];
        if nb.row >= |docs| then Ok(prev)
        else if nb.row < -|docs| then Err(LabelOutOfRange(nb.row))
        else Ok(prev + [Hit(docs, nb)])
  }

  /** Search post-processing: fails when no index exists; otherwise, when
      every row can be read, yields the hits of the kept neighbours, and
      fails at the first unreadable row when one cannot. */
  function Search(s: Store, ns: seq<Neighbour>): (r: Result<seq<Scored>>)
    ensures s.index.None? ==> r == Err(IndexNotReady)
    ensures s.index.Some? ==> r == SearchLoop(s.documents, ns, |ns|)
    ensures s.index.Some? && Readable(s.documents, ns, |ns|) ==>
      (forall k :: 0 <= k < |Kept(s.documents, ns, |ns|)| ==>
        -|s.documents| <= Kept(s.documents, ns, |ns|)[k].row < |s.documents|) &&
      r == Ok(Hits(s.documents, Kept(s.documents, ns, |ns|)))
    ensures s.index.Some? && !Readable(s.documents, ns, |ns|) ==>
      r == Err(LabelOutOfRange(ns[FirstUnreadable(s.documents, ns, |ns|).value].row))
  {
    if s.index.None? then Err(IndexNotReady)
    else
      if Readable(s.documents, ns, |ns|) then
        SearchLoopIsFilterMap(s.documents, ns, |ns|);
        SearchLoop(s.documents, ns, |ns|)
      else
        SearchLoopFails(s.documents, ns, |ns|);
        SearchLoop(s.documents, ns, |ns|)
  }

  // ---------------------------------------------------------------------
  // The reference definition of a search: filter, then map

  /** Every row among the first `n` neighbours can be read. */
  predicate Readable(docs: seq<Chunk>, ns: seq<Neighbour>, n: nat)
    requires n <= |ns|
  {
    forall i :: 0 <= i < n ==> ns[i].row >= -|docs|
  }

  /** The first `n` neighbours whose row is below the number of chunks,
      in order. */
  function Kept(docs: seq<Chunk>, ns: seq<Neighbour>, n: nat): seq<Neighbour>
    requires n <= |ns|
  {
    if n == 0 then []
    else if ns[n - 1].row < |docs| then Kept(docs, ns, n - 1) + [ns[n - 1]]
    else Kept(docs, ns, n - 1)
  }

  lemma {:induction false} KeptLabels(docs: seq<Chunk>, ns: seq<Neighbour>, n: nat)
    requires n <= |ns|
    ensures forall k :: 0 <= k < |Kept(docs, ns, n)| ==> Kept(docs, ns, n)[k].row < |docs|
  {
    if n > 0 {
      KeptLabels(docs, ns, n - 1);
    }
  }

  /** A neighbour is kept exactly when its row is below the number of
      chunks. */
  lemma {:induction false} KeptMembers(docs: seq<Chunk>, ns: seq<Neighbour>, n: nat, nb: Neighbour)
    requires n <= |ns|
    ensures nb in Kept(docs, ns, n) <==> nb in ns[..n] && nb.row < |docs|
  {
    if n > 0 {
      KeptMembers(docs, ns, n - 1, nb);
      assert ns[..n] == ns[..n - 1] + [ns[n - 1]];
    }
  }

  /** The kept neighbours mapped to their results. */
  function Hits(docs: seq<Chunk>, kept: seq<Neighbour>): (r: seq<Scored>)
    requires forall k :: 0 <= k < |kept| ==> -|docs| <= kept[k].row < |docs|
    ensures |r| == |kept|
    ensures forall k :: 0 <= k < |kept| ==> r[k] == Hit(docs, kept[k])
  {
    seq(|kept|, k requires 0 <= k < |kept| => Hit(docs, kept[k]))
  }

  /** The loop succeeds exactly when every row can be read. */
  lemma {:induction false} SearchLoopSucceeds(docs: seq<Chunk>, ns: seq<Neighbour>, n: nat)
    requires n <= |ns|
    ensures SearchLoop(docs, ns, n).Ok? <==> Readable(docs, ns, n)
  {
    if n > 0 {
      SearchLoopSucceeds(docs, ns, n - 1);
    }
  }

  /** When it succeeds, the loop returns the kept neighbours' results in
      neighbour order. */
  lemma {:induction false} SearchLoopIsFilterMap(docs: seq<Chunk>, ns: seq<Neighbour>, n: nat)
    requires n <= |ns|
    requires Readable(docs, ns, n)
    ensures forall k :: 0 <= k < |Kept(docs, ns, n)| ==> -|docs| <= Kept(docs, ns, n)[k].row < |docs|
    ensures SearchLoop(docs, ns, n) == Ok(Hits(docs, Kept(docs, ns, n)))
  {
    if n > 0 {
      SearchLoopIsFilterMap(docs, ns, n - 1);
      SearchLoopSucceeds(docs, ns, n - 1);
      var prev := Kept(docs, ns, n - 1);
      var nb := ns[n - 1];
      if nb.row < |docs| {
        assert Kept(docs, ns, n) == prev + [nb];
        assert Hits(docs, prev + [nb]) == Hits(docs, prev) + [Hit(docs, nb)];
      }
    }
  }

  /** The first neighbour whose row cannot be read, if any. */
  function FirstUnreadable(docs: seq<Chunk>, ns: seq<Neighbour>, n: nat): (r: Option<nat>)
    requires n <= |ns|
    ensures r.None? <==> Readable(docs, ns, n)
    ensures r.Some? ==> r.value < n && ns[r.value].row < -|docs| && Readable(docs, ns, r.value)
  {
    if n == 0 then None
    else
      match FirstUnreadable(docs, ns, n - 1)
      case Some(i) => Some(i)
      case None => if ns[n - 1].row < -|docs| then Some(n - 1) else None
  }

  /** The loop fails on the first row it cannot read, and reports it. */
  lemma {:induction false} SearchLoopFails(docs: seq<Chunk>, ns: seq<Neighbour>, n: nat)
    requires n <= |ns|
    requires FirstUnreadable(docs, ns, n).Some?
    ensures SearchLoop(docs, ns, n) == Err(LabelOutOfRange(ns[FirstUnreadable(docs, ns, n).value].row))
  {
    var i := FirstUnreadable(docs, ns, n - 1);
    if i.Some? {
      SearchLoopFails(docs, ns, n - 1);
    } else {
      SearchLoopSucceeds(docs, ns, n - 1);
    }
  }

  // ---------------------------------------------------------------------
  // Properties

    /** The index's "no such row" sentinel -1 is not filtered out: it reads
      the last chunk. */
  lemma {:induction false} SentinelReadsLastChunk(s: Store, d: Distance)
    requires s.index.Some? && |s.documents| > 0
    ensures Search(s, [Neighbour(-1, d)]) == Ok([Scored(s.documents[|s.documents| - 1], Similarity(d))])
  {
    var ns := [Neighbour(-1, d)];
    var h := Hit(s.documents, ns[0]);
    assert Resolve(-1, |s.documents|) == |s.documents| - 1;
    assert SearchLoop(s.documents, ns, 0) == Ok([]);
    assert [] + [h] == [h];
    assert SearchLoop(s.documents, ns, 1) == Ok([h]);
  }

  /** Similarity lies in (0, 1] and is 1 exactly at distance 0. */
  lemma {:induction false} SimilarityRange(d: Distance)
    ensures 0.0 < Similarity(d) <= 1.0
    ensures Similarity(d) == 1.0 <==> d == 0.0
  {
  }

  /** A larger distance gives a strictly smaller similarity, and only a
      larger distance does. */
  lemma {:induction false} SimilarityDecreasing(d1: Distance, d2: Distance)
    ensures d1 < d2 <==> Similarity(d2) < Similarity(d1)
  {
    ReciprocalDecreasing(1.0 + d1, 1.0 + d2);
  }

  lemma {:induction false} ReciprocalDecreasing(a: real, b: real)
    requires 0.0 < a && 0.0 < b
    ensures a < b <==> 1.0 / b < 1.0 / a
  {
    var p := a * b;
    assert p > 0.0;
    assert 1.0 / a == b / p;
    assert 1.0 / b == a / p;
  }

  /** Searching a store with no index fails, whatever the neighbours. */
  lemma {:induction false} SearchNeedsIndex(s: Store, ns: seq<Neighbour>)
    ensures Search(s, ns).Err? && Search(s, ns).error == IndexNotReady <==> s.index.None?
  {
    if s.index.Some? {
      if FirstUnreadable(s.documents, ns, |ns|).Some? {
        SearchLoopFails(s.documents, ns, |ns|);
      } else {
        SearchLoopSucceeds(s.documents, ns, |ns|);
      }
    }
  }

  /** Saving then loading restores the same index and chunks. */
  lemma {:induction false} SaveLoadRoundTrip(s: Store)
    requires s.index.Some?
    ensures Load(Save(s)).1
    ensures Load(Save(s)).0.index == s.index && Load(Save(s)).0.documents == s.documents
  {
  }

  /** Clearing twice is clearing once. */
  lemma {:induction false} ClearIdempotent(s: Store)
    ensures Clear(Clear(s)) == Clear(s)
  {
  }

  /** After a clear nothing can be loaded and no search succeeds. */
  lemma {:induction false} LoadAfterClear(s: Store, ns: seq<Neighbour>)
    ensures !Load(Clear(s)).1 && Load(Clear(s)).0 == Clear(s)
    ensures Search(Clear(s), ns) == Err(IndexNotReady)
  {
  }
}
