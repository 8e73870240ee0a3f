/** Min-max normalisation of one result list's scores, applied separately to
    the dense and the lexical list before they are fused. */
module Normalization {

  /** The smallest score of a non-empty list. */
  function MinOf(s: seq<real>): (m: real)
    requires |s| > 0
    ensures m in s
    ensures forall i :: 0 <= i < |s| ==> m <= s[i]
  {
    if |s| == 1 then s[0]
    else
      var m := MinOf(s[1..]);
      assert forall i :: 1 <= i < |s| ==> s[i] == s[1..][i - 1];
      if s[0] <= m then s[0] else m
  }

  /** The largest score of a non-empty list. */
  function MaxOf(s: seq<real>): (m: real)
    requires |s| > 0
    ensures m in s
    ensures forall i :: 0 <= i < |s| ==> s[i] <= m
  {
    if |s| == 1 then s[0]
    else
      var m := MaxOf(s[1..]);
      assert forall i :: 1 <= i < |s| ==> s[i] == s[1..][i - 1];
      if m <= s[0] then s[0] else m
  }

  /** Position of `x` on the segment from `lo` to `hi`. */
  function Scale(x: real, lo: real, hi: real): real
    requires lo < hi
  {
    (x - lo) / (hi - lo)
  }

  lemma {:induction false} ScaleMonotone(x: real, y: real, lo: real, hi: real)
    requires lo < hi
    ensures x <= y <==> Scale(x, lo, hi) <= Scale(y, lo, hi)
  {
    assert Scale(y, lo, hi) - Scale(x, lo, hi) == (y - x) / (hi - lo);
  }

  lemma {:induction false} ScaleEnds(x: real, lo: real, hi: real)
    requires lo < hi
    ensures Scale(x, lo, hi) == 0.0 <==> x == lo
    ensures Scale(x, lo, hi) == 1.0 <==> x == hi
    ensures lo <= x <= hi ==> 0.0 <= Scale(x, lo, hi) <= 1.0
  {
    ScaleMonotone(x, lo, lo, hi);
    ScaleMonotone(x, hi, lo, hi);
    ScaleMonotone(lo, x, lo, hi);
    ScaleMonotone(hi, x, lo, hi);
    assert Scale(lo, lo, hi) == 0.0;
    assert Scale(hi, lo, hi) == 1.0;
  }

  /** What scaling does to every score of a list whose minimum and maximum
      differ. */
  lemma {:induction false} ScaleAll(scores: seq<real>)
    requires |scores| > 0 && MinOf(scores) < MaxOf(scores)
    ensures forall i :: 0 <= i < |scores| ==>
      var x := Scale(scores[i], MinOf(scores), MaxOf(scores));
      0.0 <= x <= 1.0 &&
      (x == 0.0 <==> scores[i] == MinOf(scores)) &&
      (x == 1.0 <==> scores[i] == MaxOf(scores))
    ensures forall i, j :: 0 <= i < |scores| && 0 <= j < |scores| ==>
      (scores[i] <= scores[j] <==>
       Scale(scores[i], MinOf(scores), MaxOf(scores)) <= Scale(scores[j], MinOf(scores), MaxOf(scores)))
  {
    var lo, hi := MinOf(scores), MaxOf(scores);
    forall i | 0 <= i < |scores| {
      ScaleEnds(scores[i], lo, hi);
    }
    forall i, j | 0 <= i < |scores| && 0 <= j < |scores| {
      ScaleMonotone(scores[i], scores[j], lo, hi);
    }
  }

  /** Maps the scores linearly onto [0, 1]. An empty list stays empty; a list
      whose scores are all equal maps every entry to exactly 1.0 rather than
      dividing by zero. */
  function NormalizeScores(scores: seq<real>): (r: seq<real>)
    ensures |r| == |scores|
  {
    if |scores| == 0 then []
    else
      var lo, hi := MinOf(scores), MaxOf(scores);
      if hi == lo then
        seq(|scores|, _ => 1.0)
      else
        seq(|scores|, i requires 0 <= i < |scores| => Scale(scores[i], lo, hi))
  }

  /** An empty list normalises to an empty list. */
  lemma {:induction false} NormalizeEmpty(scores: seq<real>)
    ensures NormalizeScores(scores) == [] <==> scores == []
  {
  }

  /** When every score is the same, every normalised score is exactly 1.0. */
  lemma {:induction false} NormalizeDegenerate(scores: seq<real>)
    requires |scores| > 0 && MinOf(scores) == MaxOf(scores)
    ensures forall i :: 0 <= i < |scores| ==> NormalizeScores(scores)[i] == 1.0
  {
  }

  /** Otherwise every normalised score lies in [0, 1], and exactly the entries
      holding the minimum map to 0 and exactly those holding the maximum map
      to 1. */
  lemma {:induction false} NormalizeSpread(scores: seq<real>)
    requires |scores| > 0 && MinOf(scores) != MaxOf(scores)
    ensures forall i :: 0 <= i < |scores| ==>
      var x := NormalizeScores(scores)[i];
      0.0 <= x <= 1.0 &&
      (x == 0.0 <==> scores[i] == MinOf(scores)) &&
      (x == 1.0 <==> scores[i] == MaxOf(scores))
  {
    ScaleAll(scores);
  }

  /** Every value of `s` lies in [0, 1]. */
  ghost predicate InUnitInterval(s: seq<real>) {
    forall i :: 0 <= i < |s| ==> 0.0 <= s[i] <= 1.0
  }

  /** In every case the normalised scores lie in [0, 1]. */
  lemma {:induction false} NormalizeInUnitInterval(scores: seq<real>)
    ensures InUnitInterval(NormalizeScores(scores))
  {
    if |scores| > 0 && MinOf(scores) != MaxOf(scores) {
      NormalizeSpread(scores);
    }
  }

  /** Normalisation preserves the order of scores in both directions. */
  lemma {:induction false} NormalizeMonotone(scores: seq<real>)
    ensures forall i, j :: 0 <= i < |scores| && 0 <= j < |scores| ==>
      (scores[i] <= scores[j] <==> NormalizeScores(scores)[i] <= NormalizeScores(scores)[j])
  {
    if |scores| > 0 {
      if MinOf(scores) != MaxOf(scores) {
        ScaleAll(scores);
      } else {
        forall i, j | 0 <= i < |scores| && 0 <= j < |scores|
          ensures scores[i] <= scores[j]
        {
          assert MinOf(scores) <= scores[i] <= MaxOf(scores);
        }
      }
    }
  }

  lemma {:induction false} ScaleUnit(x: real)
    ensures Scale(x, 0.0, 1.0) == x
  {
  }

  /** A list that already spans exactly [0, 1] is left as it is. */
  lemma {:induction false} NormalizeUnitSpan(r: seq<real>)
    requires |r| > 0 && MinOf(r) == 0.0 && MaxOf(r) == 1.0
    ensures NormalizeScores(r) == r
  {
    var rr := NormalizeScores(r);
    assert rr == seq(|r|, i requires 0 <= i < |r| => Scale(r[i], 0.0, 1.0));
    forall i | 0 <= i < |r|
      ensures rr[i] == r[i]
    {
      ScaleUnit(r[i]);
    }
  }

  /** Normalising twice is normalising once: the output already has minimum
      0 and maximum 1, or is all ones. */
  lemma {:induction false} NormalizeIdempotent(scores: seq<real>)
    ensures NormalizeScores(NormalizeScores(scores)) == NormalizeScores(scores)
  {
    var r := NormalizeScores(scores);
    if |scores| > 0 && MinOf(scores) != MaxOf(scores) {
      assert MinOf(r) == 0.0 && MaxOf(r) == 1.0 by {
        NormalizeSpread(scores);
        var lo, hi := MinOf(scores), MaxOf(scores);
        var a :| 0 <= a < |scores| && scores[a] == lo;
        var b :| 0 <= b < |scores| && scores[b] == hi;
        assert r[a] == 0.0 && r[b] == 1.0;
      }
      NormalizeUnitSpan(r);
    } else if |scores| > 0 {
      assert MinOf(r) == MaxOf(r) by {
        assert forall i :: 0 <= i < |r| ==> r[i] == 1.0;
      }
    }
  }
}
