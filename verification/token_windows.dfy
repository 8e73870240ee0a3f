/** Token-budget helpers: trimming the conversation memory to a token
    budget, and cutting a token sequence into overlapping fixed-size
    windows. The tokenizer is outside the model: the token count of a text
    is a function parameter, and windows are cut from a token sequence
    that has already been encoded. */
module TokenWindows {
  import opened Records

  // ---------------------------------------------------------------------
  // Memory truncation

  /** The tokens a turn costs: the count of its query and answer together. */
  function Cost(count: string -> nat, t: Turn): nat {
    count(t.query + t.answer)
  }

  /** The tokens a list of turns costs. */
  function TotalCost(count: string -> nat, s: seq<Turn>): nat {
    if |s| == 0 then 0 else TotalCost(count, s[..|s| - 1]) + Cost(count, s[|s| - 1])
  }

  /** The last `n` turns of `s`. */
  function Last(s: seq<Turn>, n: nat): seq<Turn>
    requires n <= |s|
  {
    s[|s| - n..]
  }

  /** Splitting off the newest turn: the last `k + 1` turns cost the last
      `k` of the older turns plus the newest one. */
  lemma {:induction false} LastCost(count: string -> nat, memory: seq<Turn>, k: nat)
    requires k < |memory|
    ensures TotalCost(count, Last(memory, k + 1)) ==
      TotalCost(count, Last(memory[..|memory| - 1], k)) + Cost(count, memory[|memory| - 1])
  {
    var s := Last(memory, k + 1);
    assert s[..|s| - 1] == Last(memory[..|memory| - 1], k);
    assert s[|s| - 1] == memory[|memory| - 1];
  }

  /** How many of the most recent turns are kept under a budget: walking
      from the newest turn back, each turn is kept while the running total
      stays within the budget, and the walk stops at the first turn that
      would exceed it. `budget` is what is left of the limit once the newer
      turns are paid for. */
  function KeptCount(count: string -> nat, memory: seq<Turn>, budget: int): (n: nat)
    ensures n <= |memory|
    ensures |memory| > 0 && Cost(count, memory[|memory| - 1]) > budget ==> n == 0
    decreases |memory|
  {
    if |memory| == 0 then 0
    else
      var c := Cost(count, memory[|memory| - 1]);
      if c > budget then 0 else 1 + KeptCount(count, memory[..|memory| - 1], budget - c)
  }

  /** The turns kept fit the budget. */
  lemma {:induction false} KeptCountFits(count: string -> nat, memory: seq<Turn>, budget: int)
    ensures var n := KeptCount(count, memory, budget);
      n == 0 || TotalCost(count, Last(memory, n)) <= budget
    decreases |memory|
  {
    if |memory| > 0 {
      var c := Cost(count, memory[|memory| - 1]);
      if c <= budget {
        var k := KeptCount(count, memory[..|memory| - 1], budget - c);
        KeptCountFits(count, memory[..|memory| - 1], budget - c);
        FitsStep(count, memory, k, budget);
        assert KeptCount(count, memory, budget) == k + 1;
      }
    }
  }

  /** If the last `k` older turns fit what the newest turn leaves of the
      budget, the last `k + 1` turns fit the budget. */
  lemma {:induction false} FitsStep(count: string -> nat, memory: seq<Turn>, k: nat, budget: int)
    requires k < |memory| && Cost(count, memory[|memory| - 1]) <= budget
    requires k == 0 || TotalCost(count, Last(memory[..|memory| - 1], k)) <= budget - Cost(count, memory[|memory| - 1])
    ensures TotalCost(count, Last(memory, k + 1)) <= budget
  {
    LastCost(count, memory, k);
    assert k == 0 ==> TotalCost(count, Last(memory[..|memory| - 1], k)) == 0;
  }

  /** The walk stops only at the oldest turn or at a turn that does not
      fit: one more turn would exceed the budget. */
  lemma {:induction false} KeptCountMaximal(count: string -> nat, memory: seq<Turn>, budget: int)
    ensures var n := KeptCount(count, memory, budget);
      n == |memory| || TotalCost(count, Last(memory, n + 1)) > budget
    decreases |memory|
  {
    if |memory| > 0 {
      var c := Cost(count, memory[|memory| - 1]);
      if c > budget {
        LastCost(count, memory, 0);
      } else {
        var k := KeptCount(count, memory[..|memory| - 1], budget - c);
        KeptCountMaximal(count, memory[..|memory| - 1], budget - c);
        if k < |memory| - 1 {
          LastCost(count, memory, k + 1);
        }
      }
    }
  }

  /** The turns `truncate_memory` keeps, oldest first. */
  function Truncate(count: string -> nat, memory: seq<Turn>, maxTokens: int): (r: seq<Turn>)
    ensures |r| <= |memory| && r == Last(memory, |r|)
    ensures r == [] || TotalCost(count, r) <= maxTokens
    ensures |memory| > 0 && Cost(count, memory[|memory| - 1]) > maxTokens ==> r == []
  {
    KeptCountFits(count, memory, maxTokens);
    Last(memory, KeptCount(count, memory, maxTokens))
  }

  /** `truncate_memory`: the loop over the turns from newest to oldest,
      with its running total. It keeps a run of recent turns that fits the
      limit and stops where one more turn would not, which is the run
      `Truncate` describes. */
  method TruncateMemory(count: string -> nat, memory: seq<Turn>, maxTokens: int) returns (truncated: seq<Turn>)
    ensures |truncated| <= |memory| && truncated == Last(memory, |truncated|)
    ensures truncated == [] || TotalCost(count, truncated) <= maxTokens
    ensures |truncated| == |memory| || TotalCost(count, Last(memory, |truncated| + 1)) > maxTokens
    ensures truncated == Truncate(count, memory, maxTokens)
  {
    truncated := [];
    var total := 0;
    var i := |memory|;
    while i > 0
      invariant 0 <= i <= |memory|
      invariant truncated == memory[i..]
      invariant total == TotalCost(count, truncated)
      invariant truncated == [] || total <= maxTokens
      decreases i
    {
      var item := memory[i - 1];
      var itemTokens := Cost(count, item);
      CostCons(count, item, truncated);
      SuffixCons(memory, i);
      if total + itemTokens > maxTokens {
        break;
      }
      truncated := [item] + truncated;
      total := total + itemTokens;
      i := i - 1;
    }
    KeptCountUnique(count, memory, maxTokens, |truncated|);
  }

  /** No longer run of recent turns than the one kept fits the limit. */
  lemma {:induction false} KeptCountAtLeast(count: string -> nat, memory: seq<Turn>, budget: int, n: nat)
    requires n <= |memory|
    requires n == 0 || TotalCost(count, Last(memory, n)) <= budget
    ensures n <= KeptCount(count, memory, budget)
  {
    var k := KeptCount(count, memory, budget);
    KeptCountMaximal(count, memory, budget);
    if k < n {
      SuffixCostMonotone(count, memory, k + 1, n);
      assert false;
    }
  }

  /** A run that one more turn would push over the limit is no shorter
      than the one kept. */
  lemma {:induction false} KeptCountAtMost(count: string -> nat, memory: seq<Turn>, budget: int, n: nat)
    requires n <= |memory|
    requires n == |memory| || TotalCost(count, Last(memory, n + 1)) > budget
    ensures KeptCount(count, memory, budget) <= n
  {
    var k := KeptCount(count, memory, budget);
    KeptCountFits(count, memory, budget);
    if n < k {
      SuffixCostMonotone(count, memory, n + 1, k);
      assert false;
    }
  }

  /** The number of turns kept is the only count whose run fits the limit
      while one more turn would not. */
  lemma {:induction false} KeptCountUnique(count: string -> nat, memory: seq<Turn>, budget: int, n: nat)
    requires n <= |memory|
    requires n == 0 || TotalCost(count, Last(memory, n)) <= budget
    requires n == |memory| || TotalCost(count, Last(memory, n + 1)) > budget
    ensures n == KeptCount(count, memory, budget)
  {
    KeptCountAtLeast(count, memory, budget, n);
    KeptCountAtMost(count, memory, budget, n);
  }

  lemma {:induction false} SuffixCons<T>(s: seq<T>, i: nat)
    requires 0 < i <= |s|
    ensures s[i - 1..] == [s[i - 1]] + s[i..]
  {
  }

  /** Prepending a turn adds its cost. */
  lemma {:induction false} CostCons(count: string -> nat, t: Turn, s: seq<Turn>)
    ensures TotalCost(count, [t] + s) == Cost(count, t) + TotalCost(count, s)
    decreases |s|
  {
    if |s| > 0 {
      var ts := [t] + s;
      assert ts[..|ts| - 1] == [t] + s[..|s| - 1];
      CostCons(count, t, s[..|s| - 1]);
    }
  }

  /** A longer suffix never costs less. */
  lemma {:induction false} SuffixCostMonotone(count: string -> nat, s: seq<Turn>, m: nat, n: nat)
    requires m <= n <= |s|
    ensures TotalCost(count, Last(s, m)) <= TotalCost(count, Last(s, n))
    decreases n - m
  {
    if m < n {
      SuffixCostMonotone(count, s, m + 1, n);
      var a, b := Last(s, m), Last(s, m + 1);
      assert b == [s[|s| - m - 1]] + a;
      CostCons(count, s[|s| - m - 1], a);
    }
  }

  /** The turns kept are the longest run of recent turns within the limit:
      every longer run of recent turns exceeds it. */
  lemma {:induction false} TruncateIsLongestFit(count: string -> nat, memory: seq<Turn>, maxTokens: int)
    ensures var r := Truncate(count, memory, maxTokens);
      forall n :: |r| < n <= |memory| ==> TotalCost(count, Last(memory, n)) > maxTokens
  {
    var k := KeptCount(count, memory, maxTokens);
    KeptCountMaximal(count, memory, maxTokens);
    forall n | k < n <= |memory| ensures TotalCost(count, Last(memory, n)) > maxTokens {
      SuffixCostMonotone(count, memory, k + 1, n);
    }
  }

  /** A run of turns that fits the limit as a whole is kept whole. */
  lemma {:induction false} KeptCountFitting(count: string -> nat, memory: seq<Turn>, budget: int)
    requires TotalCost(count, memory) <= budget
    ensures KeptCount(count, memory, budget) == |memory|
    decreases |memory|
  {
    if |memory| > 0 {
      var init := memory[..|memory| - 1];
      KeptCountFitting(count, init, budget - Cost(count, memory[|memory| - 1]));
    }
  }

  /** Truncating twice is truncating once. */
  lemma {:induction false} TruncateIdempotent(count: string -> nat, memory: seq<Turn>, maxTokens: int)
    ensures Truncate(count, Truncate(count, memory, maxTokens), maxTokens) == Truncate(count, memory, maxTokens)
  {
    var r := Truncate(count, memory, maxTokens);
    if r != [] {
      KeptCountFitting(count, r, maxTokens);
      assert Last(r, |r|) == r;
    }
  }

  // ---------------------------------------------------------------------
  // Token windows

  /** The distance between the starts of consecutive windows. */
  function Stride(size: nat, overlap: int): int {
    size - overlap
  }

  /** `tokens[start:start + size]` for a non-negative start. The windows
      are generic: the same cut pages a document's words. */
  function Window<T>(tokens: seq<T>, start: nat, size: nat): seq<T> {
    tokens[Min(start, |tokens|)..Min(start + size, |tokens|)]
  }

  /** The number of windows: the token count divided by the stride,
      rounded up. */
  function WindowCount(n: nat, d: int): nat
    requires 0 < d
  {
    (n + d - 1) / d
  }

  /** The windows of a token sequence: window `i` starts `i` strides in
      and holds up to `size` tokens. */
  function SplitTokens<T>(tokens: seq<T>, size: nat, overlap: int): (r: seq<seq<T>>)
    requires 0 < size && overlap < size
    ensures |r| == WindowCount(|tokens|, Stride(size, overlap))
  {
    var d := Stride(size, overlap);
    seq(WindowCount(|tokens|, d), i requires 0 <= i => Window(tokens, i * d, size))
  }

  /** A product with a positive factor has the sign of the other factor. */
  lemma {:induction false} ProductSign(a: int, d: int)
    requires 0 < d
    ensures a <= 0 ==> a * d <= 0
    ensures a > 0 ==> a * d > 0
  {
  }

  /** `c` is the ceiling of `n / d` exactly when `c` strides reach `n` and
      `c - 1` strides do not. */
  lemma {:induction false} CeilingUnique(n: nat, d: int, c: nat)
    requires 0 < d && c * d >= n && (c == 0 || (c - 1) * d < n)
    ensures c == WindowCount(n, d)
  {
    var q := WindowCount(n, d);
    var m := (n + d - 1) % d;
    assert n + d - 1 == q * d + m && 0 <= m < d;
    assert (c + 1 - q) * d == c * d + d - q * d;
    ProductSign(c + 1 - q, d);
    if c > 0 {
      assert (q - c + 1) * d == q * d - (c - 1) * d;
      ProductSign(q - c + 1, d);
    } else {
      ProductSign(q, d);
    }
  }

  /** The first `WindowCount` strides start inside the tokens and together
      they reach the end. */
  lemma {:induction false} WindowStarts(n: nat, d: int, i: nat)
    requires 0 < d
    ensures WindowCount(n, d) * d >= n
    ensures i < WindowCount(n, d) ==> i * d < n
  {
    var q := WindowCount(n, d);
    var m := (n + d - 1) % d;
    assert n + d - 1 == q * d + m && 0 <= m < d;
    if i < q {
      assert i * d <= (q - 1) * d;
    }
  }

  /** No tokens give no windows; otherwise every window holds between one
      and `size` tokens. */
  lemma {:induction false} SplitTokensWindows<T>(tokens: seq<T>, size: nat, overlap: int)
    requires 0 < size && overlap < size
    ensures tokens == [] <==> SplitTokens(tokens, size, overlap) == []
    ensures forall i :: 0 <= i < |SplitTokens(tokens, size, overlap)| ==>
      0 < |SplitTokens(tokens, size, overlap)[i]| <= size
  {
    var d := Stride(size, overlap);
    var r := SplitTokens(tokens, size, overlap);
    WindowStarts(|tokens|, d, 0);
    forall i | 0 <= i < |r| ensures 0 < |r[i]| <= size {
      WindowStarts(|tokens|, d, i);
    }
  }

  /** With a non-negative overlap every token lies in a window: token `t`
      is in window `t / stride`. */
  lemma {:induction false} SplitTokensCovers<T>(tokens: seq<T>, size: nat, overlap: int, t: nat)
    requires 0 <= overlap < size && t < |tokens|
    ensures var d := Stride(size, overlap);
      t / d < |SplitTokens(tokens, size, overlap)| &&
      SplitTokens(tokens, size, overlap)[t / d] == tokens[t / d * d..Min(t / d * d + size, |tokens|)] &&
      t / d * d <= t < Min(t / d * d + size, |tokens|)
  {
    var d := Stride(size, overlap);
    var i := t / d;
    assert i * d <= t < i * d + d;
    WindowStarts(|tokens|, d, i);
    ProductSign(WindowCount(|tokens|, d) - i, d);
    assert (WindowCount(|tokens|, d) - i) * d == WindowCount(|tokens|, d) * d - i * d;
  }

  /** `split_text_by_tokens` on an encoded text: the loop that moves the
      start of the next window `size - overlap` on from the last. */
  method SplitTextByTokens(tokens: seq<int>, chunkSize: nat, overlap: int) returns (chunks: seq<seq<int>>)
    requires 0 < chunkSize && overlap < chunkSize
    ensures chunks == SplitTokens(tokens, chunkSize, overlap)
  {
    var d := Stride(chunkSize, overlap);
    chunks := [];
    var start: nat := 0;
    while start < |tokens|
      invariant start == |chunks| * d
      invariant |chunks| == 0 || (|chunks| - 1) * d < |tokens|
      invariant forall i :: 0 <= i < |chunks| ==> chunks[i] == Window(tokens, i * d, chunkSize)
      decreases |tokens| - start
    {
      var end := start + chunkSize;
      chunks := chunks + [Window(tokens, start, chunkSize)];
      start := end - overlap;
      assert start == (|chunks| - 1) * d + d;
    }
    CeilingUnique(|tokens|, d, |chunks|);
  }

  /** The windows concatenated in order. */
  function Flatten<T>(ws: seq<seq<T>>): seq<T>
    decreases |ws|
  {
    if |ws| == 0 then [] else Flatten(ws[..|ws| - 1]) + ws[|ws| - 1]
  }

  /** The first `c` windows without overlap concatenate to the first `c`
      strides of the tokens. */
  lemma {:induction false} FlattenPrefix<T>(tokens: seq<T>, size: nat, c: nat)
    requires 0 < size && c <= WindowCount(|tokens|, size)
    ensures Flatten(SplitTokens(tokens, size, 0)[..c]) == tokens[..Min(c * size, |tokens|)]
    decreases c
  {
    var ws := SplitTokens(tokens, size, 0);
    if c > 0 {
      FlattenPrefix(tokens, size, c - 1);
      var a := (c - 1) * size;
      WindowStarts(|tokens|, size, c - 1);
      StrideStep(c, size);
      var e := Min(c * size, |tokens|);
      assert ws[..c][..c - 1] == ws[..c - 1];
      assert ws[c - 1] == tokens[a..e];
      SliceJoin(tokens, a, e);
    }
  }

  lemma {:induction false} StrideStep(c: nat, d: nat)
    requires 0 < c
    ensures (c - 1) * d + d == c * d
  {
  }

  lemma {:induction false} SliceJoin<T>(s: seq<T>, i: nat, j: nat)
    requires i <= j <= |s|
    ensures s[..i] + s[i..j] == s[..j]
  {
  }

  /** Windows without overlap split the tokens exactly: concatenated in
      order they give back the tokens. */
  lemma {:induction false} SplitTokensConcat<T>(tokens: seq<T>, size: nat)
    requires 0 < size
    ensures Flatten(SplitTokens(tokens, size, 0)) == tokens
  {
    var ws := SplitTokens(tokens, size, 0);
    FlattenPrefix(tokens, size, |ws|);
    WindowStarts(|tokens|, size, 0);
    assert ws[..|ws|] == ws;
  }
}
