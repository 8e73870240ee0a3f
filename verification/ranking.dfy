/** Ordering of scored lists as the pipeline does it: Python's
    `list.sort(key=score, reverse=True)`, which is stable, so entries with
    equal scores keep the order they had; and truncation to a prefix. */
module Ranking {
  import opened Records

  /** Scores never increase along `s`. */
  ghost predicate SortedDesc(s: seq<Scored>) {
    forall i, j :: 0 <= i < j < |s| ==> s[i].score >= s[j].score
  }

  lemma {:induction false} SortedTail(r: seq<Scored>)
    requires |r| > 0 && SortedDesc(r)
    ensures SortedDesc(r[1..])
  {
    var t := r[1..];
    forall i, j | 0 <= i < j < |t| ensures t[i].score >= t[j].score {
      assert t[i] == r[i + 1] && t[j] == r[j + 1];
    }
  }

  /** The entries of `s` whose score is exactly `v`, in their order in `s`. */
  function WithScore(s: seq<Scored>, v: real): seq<Scored> {
    if |s| == 0 then []
    else (if s[0].score == v then [s[0]] else []) + WithScore(s[1..], v)
  }

  /** Places `x` after every leading entry of `r` whose score is at least
      `x`'s; on a sorted `r` that is where a stable sort puts the later of
      two equal entries. */
  function Insert(r: seq<Scored>, x: Scored): (out: seq<Scored>)
    ensures |out| == |r| + 1
  {
    if |r| == 0 then [x]
    else if r[0].score >= x.score then [r[0]] + Insert(r[1..], x)
    else [x] + r
  }

  /** Stable sort by non-increasing score: each entry in turn is inserted
      after the entries already placed whose score is at least its own. */
  function SortDesc(s: seq<Scored>): (r: seq<Scored>)
    ensures |r| == |s|
  {
    if |s| == 0 then []
    else Insert(SortDesc(s[..|s| - 1]), s[|s| - 1])
  }

  /** Python's `s[:k]` for a non-negative `k`. */
  function Prefix<T>(s: seq<T>, k: nat): (r: seq<T>)
    ensures |r| == Min(k, |s|)
    ensures forall i :: 0 <= i < |r| ==> r[i] == s[i]
  {
    if k < |s| then s[..k] else s
  }

  lemma {:induction false} WithScoreAppend(a: seq<Scored>, b: seq<Scored>, v: real)
    ensures WithScore(a + b, v) == WithScore(a, v) + WithScore(b, v)
    decreases |a|
  {
    if |a| == 0 {
      assert a + b == b;
    } else {
      var t := a[1..];
      assert (a + b)[1..] == t + b;
      WithScoreAppend(t, b, v);
      var h := if a[0].score == v then [a[0]] else [];
      assert WithScore(a + b, v) == h + WithScore(t + b, v);
      assert WithScore(a, v) == h + WithScore(t, v);
    }
  }

  lemma {:induction false} WithScoreNone(s: seq<Scored>, v: real)
    requires forall e :: e in s ==> e.score != v
    ensures WithScore(s, v) == []
    decreases |s|
  {
    if |s| > 0 {
      assert s[0] in s;
      assert forall e :: e in s[1..] ==> e in s;
      WithScoreNone(s[1..], v);
    }
  }

  lemma {:induction false} WithScoreCons(a: Scored, t: seq<Scored>, v: real)
    ensures WithScore([a] + t, v) == (if a.score == v then [a] else []) + WithScore(t, v)
  {
    assert ([a] + t)[1..] == t;
  }

  /** When `x` beats the head of `r`, no entry of `r` has `x`'s score. */
  lemma {:induction false} InsertAtFront(r: seq<Scored>, x: Scored, v: real)
    requires SortedDesc(r)
    requires |r| > 0 && x.score > r[0].score
    ensures WithScore([x] + r, v) == WithScore(r, v) + (if x.score == v then [x] else [])
  {
    WithScoreCons(x, r, v);
    if x.score == v {
      forall e | e in r
        ensures e.score != v
      {
        var i :| 0 <= i < |r| && r[i] == e;
        assert r[0].score >= r[i].score;
      }
      WithScoreNone(r, v);
      assert [x] + [] == [x];
      assert [] + [x] == [x];
    } else {
      assert [] + WithScore(r, v) == WithScore(r, v);
      assert WithScore(r, v) + [] == WithScore(r, v);
    }
  }

  /** The step of InsertWithScore when `x` goes after the head of `r`. */
  lemma {:induction false} InsertWithScoreStep(r: seq<Scored>, x: Scored, v: real)
    requires |r| > 0 && r[0].score >= x.score
    requires WithScore(Insert(r[1..], x), v) == WithScore(r[1..], v) + (if x.score == v then [x] else [])
    ensures WithScore(Insert(r, x), v) == WithScore(r, v) + (if x.score == v then [x] else [])
  {
    var hx := if x.score == v then [x] else [];
    var h0 := if r[0].score == v then [r[0]] else [];
    var rest := Insert(r[1..], x);
    assert Insert(r, x) == [r[0]] + rest;
    WithScoreCons(r[0], rest, v);
    WithScoreCons(r[0], r[1..], v);
    assert r == [r[0]] + r[1..];
    assert WithScore(Insert(r, x), v) == h0 + (WithScore(r[1..], v) + hx);
    assert WithScore(r, v) == h0 + WithScore(r[1..], v);
  }

  lemma {:induction false} InsertWithScore(r: seq<Scored>, x: Scored, v: real)
    requires SortedDesc(r)
    ensures WithScore(Insert(r, x), v) == WithScore(r, v) + (if x.score == v then [x] else [])
    decreases |r|
  {
    if |r| == 0 {
      var hx := if x.score == v then [x] else [];
      assert Insert(r, x) == [x] + [];
      WithScoreCons(x, [], v);
      assert hx + [] == hx;
      assert WithScore(r, v) + hx == hx;
    } else if r[0].score >= x.score {
      SortedTail(r);
      InsertWithScore(r[1..], x, v);
      InsertWithScoreStep(r, x, v);
    } else {
      assert Insert(r, x) == [x] + r;
      InsertAtFront(r, x, v);
    }
  }

  /** The sort is stable: for every score value, the entries carrying that
      score appear in the output in exactly their input order. */
  lemma {:induction false} SortDescStable(s: seq<Scored>, v: real)
    ensures WithScore(SortDesc(s), v) == WithScore(s, v)
    decreases |s|
  {
    if |s| > 0 {
      var init, last := s[..|s| - 1], s[|s| - 1];
      var h := if last.score == v then [last] else [];
      assert SortDesc(s) == Insert(SortDesc(init), last);
      SortDescStable(init, v);
      SortDescSorted(init);
      InsertWithScore(SortDesc(init), last, v);
      assert WithScore(SortDesc(s), v) == WithScore(init, v) + h;
      assert s == init + [last];
      WithScoreAppend(init, [last], v);
      WithScoreCons(last, [], v);
      assert WithScore([last], v) == h;
      assert WithScore(s, v) == WithScore(init, v) + h;
    }
  }

  /** No score in `s` exceeds `b`. */
  ghost predicate AtMost(s: seq<Scored>, b: real) {
    forall k :: 0 <= k < |s| ==> s[k].score <= b
  }

  lemma {:induction false} InsertAtMost(r: seq<Scored>, x: Scored, b: real)
    requires AtMost(r, b) && x.score <= b
    ensures AtMost(Insert(r, x), b)
    decreases |r|
  {
    if |r| > 0 && r[0].score >= x.score {
      var rest := Insert(r[1..], x);
      assert AtMost(r[1..], b) by {
        forall k | 0 <= k < |r| - 1 ensures r[1..][k].score <= b {
          assert r[1..][k] == r[k + 1];
        }
      }
      InsertAtMost(r[1..], x, b);
      var out := [r[0]] + rest;
      assert Insert(r, x) == out;
      forall k | 0 <= k < |out| ensures out[k].score <= b {
        if k > 0 {
          assert out[k] == rest[k - 1];
        }
      }
    } else if |r| > 0 {
      var out := [x] + r;
      assert Insert(r, x) == out;
      forall k | 0 <= k < |out| ensures out[k].score <= b {
        if k > 0 {
          assert out[k] == r[k - 1];
        }
      }
    }
  }

  /** Inserting into a sorted list keeps it sorted. */
  lemma {:induction false} InsertSorted(r: seq<Scored>, x: Scored)
    requires SortedDesc(r)
    ensures SortedDesc(Insert(r, x))
    decreases |r|
  {
    if |r| > 0 && r[0].score >= x.score {
      var t := r[1..];
      var rest := Insert(t, x);
      SortedTail(r);
      InsertSorted(t, x);
      assert AtMost(t, r[0].score) by {
        forall k | 0 <= k < |t| ensures t[k].score <= r[0].score {
          assert t[k] == r[k + 1];
        }
      }
      InsertAtMost(t, x, r[0].score);
      var out := [r[0]] + rest;
      assert Insert(r, x) == out;
      forall i, j | 0 <= i < j < |out| ensures out[i].score >= out[j].score {
        assert out[j] == rest[j - 1];
        if i > 0 {
          assert out[i] == rest[i - 1];
        }
      }
    } else if |r| > 0 {
      var out := [x] + r;
      assert Insert(r, x) == out;
      forall i, j | 0 <= i < j < |out| ensures out[i].score >= out[j].score {
        assert out[j] == r[j - 1];
        if i > 0 {
          assert out[i] == r[i - 1];
        } else {
          assert r[0].score >= r[j - 1].score;
        }
      }
    }
  }

  /** The sort's output is ordered by non-increasing score. */
  lemma {:induction false} SortDescSorted(s: seq<Scored>)
    ensures SortedDesc(SortDesc(s))
    decreases |s|
  {
    if |s| > 0 {
      var init := s[..|s| - 1];
      SortDescSorted(init);
      InsertSorted(SortDesc(init), s[|s| - 1]);
    }
  }

  lemma {:induction false} InsertMultiset(r: seq<Scored>, x: Scored)
    ensures multiset(Insert(r, x)) == multiset(r) + multiset{x}
    decreases |r|
  {
    if |r| > 0 && r[0].score >= x.score {
      var rest := Insert(r[1..], x);
      InsertMultiset(r[1..], x);
      assert Insert(r, x) == [r[0]] + rest;
      assert multiset([r[0]] + rest) == multiset([r[0]]) + multiset(rest);
      assert r == [r[0]] + r[1..];
      assert multiset(r) == multiset([r[0]]) + multiset(r[1..]);
    } else if |r| > 0 {
      assert Insert(r, x) == [x] + r;
      assert multiset([x] + r) == multiset([x]) + multiset(r);
    }
  }

  /** The sort's output is a permutation of its input. */
  lemma {:induction false} SortDescPermutation(s: seq<Scored>)
    ensures multiset(SortDesc(s)) == multiset(s)
    decreases |s|
  {
    if |s| > 0 {
      var init, last := s[..|s| - 1], s[|s| - 1];
      SortDescPermutation(init);
      InsertMultiset(SortDesc(init), last);
      assert s == init + [last];
      assert multiset(s) == multiset(init) + multiset([last]);
    }
  }

  /** Two entries of `s` never share a key. */
  ghost predicate IdsDistinct(s: seq<Scored>) {
    forall i, j :: 0 <= i < j < |s| ==> Id(s[i].doc) != Id(s[j].doc)
  }

  /** No entry of `s` has the key `id`. */
  ghost predicate NoId(s: seq<Scored>, id: string) {
    forall k :: 0 <= k < |s| ==> Id(s[k].doc) != id
  }

  lemma {:induction false} InsertNoId(r: seq<Scored>, x: Scored, id: string)
    requires NoId(r, id) && Id(x.doc) != id
    ensures NoId(Insert(r, x), id)
    decreases |r|
  {
    if |r| > 0 && r[0].score >= x.score {
      var rest := Insert(r[1..], x);
      assert NoId(r[1..], id) by {
        forall k | 0 <= k < |r| - 1 ensures Id(r[1..][k].doc) != id {
          assert r[1..][k] == r[k + 1];
        }
      }
      InsertNoId(r[1..], x, id);
      var out := [r[0]] + rest;
      assert Insert(r, x) == out;
      forall k | 0 <= k < |out| ensures Id(out[k].doc) != id {
        if k > 0 {
          assert out[k] == rest[k - 1];
        }
      }
    } else if |r| > 0 {
      var out := [x] + r;
      assert Insert(r, x) == out;
      forall k | 0 <= k < |out| ensures Id(out[k].doc) != id {
        if k > 0 {
          assert out[k] == r[k - 1];
        }
      }
    }
  }

  lemma {:induction false} InsertIdsDistinct(r: seq<Scored>, x: Scored)
    requires IdsDistinct(r) && NoId(r, Id(x.doc))
    ensures IdsDistinct(Insert(r, x))
    decreases |r|
  {
    if |r| > 0 && r[0].score >= x.score {
      var t := r[1..];
      var rest := Insert(t, x);
      assert IdsDistinct(t) && NoId(t, Id(x.doc)) && NoId(t, Id(r[0].doc)) by {
        forall k | 0 <= k < |t| ensures Id(t[k].doc) != Id(x.doc) && Id(t[k].doc) != Id(r[0].doc) {
          assert t[k] == r[k + 1];
        }
        forall i, j | 0 <= i < j < |t| ensures Id(t[i].doc) != Id(t[j].doc) {
          assert t[i] == r[i + 1] && t[j] == r[j + 1];
        }
      }
      InsertIdsDistinct(t, x);
      InsertNoId(t, x, Id(r[0].doc));
      var out := [r[0]] + rest;
      assert Insert(r, x) == out;
      forall i, j | 0 <= i < j < |out| ensures Id(out[i].doc) != Id(out[j].doc) {
        assert out[j] == rest[j - 1];
        if i > 0 {
          assert out[i] == rest[i - 1];
        }
      }
    } else if |r| > 0 {
      var out := [x] + r;
      assert Insert(r, x) == out;
      forall i, j | 0 <= i < j < |out| ensures Id(out[i].doc) != Id(out[j].doc) {
        assert out[j] == r[j - 1];
        if i > 0 {
          assert out[i] == r[i - 1];
        }
      }
    }
  }

  lemma {:induction false} SortDescNoId(s: seq<Scored>, id: string)
    requires NoId(s, id)
    ensures NoId(SortDesc(s), id)
    decreases |s|
  {
    if |s| > 0 {
      var init := s[..|s| - 1];
      assert NoId(init, id) by {
        forall k | 0 <= k < |init| ensures Id(init[k].doc) != id {
          assert init[k] == s[k];
        }
      }
      SortDescNoId(init, id);
      InsertNoId(SortDesc(init), s[|s| - 1], id);
    }
  }

  /** Sorting keeps keys distinct. */
  lemma {:induction false} SortDescIdsDistinct(s: seq<Scored>)
    requires IdsDistinct(s)
    ensures IdsDistinct(SortDesc(s))
    decreases |s|
  {
    if |s| > 0 {
      var init, last := s[..|s| - 1], s[|s| - 1];
      assert IdsDistinct(init) && NoId(init, Id(last.doc)) by {
        forall k | 0 <= k < |init| ensures Id(init[k].doc) != Id(last.doc) {
          assert init[k] == s[k];
        }
        forall i, j | 0 <= i < j < |init| ensures Id(init[i].doc) != Id(init[j].doc) {
          assert init[i] == s[i] && init[j] == s[j];
        }
      }
      SortDescIdsDistinct(init);
      SortDescNoId(init, Id(last.doc));
      InsertIdsDistinct(SortDesc(init), last);
    }
  }
}
