/** Decimal rendering of numbers, the `"{page}_{idx}"` chunk id built from
    it, and joining strings with a separator. */
module Text {

  predicate IsDigit(c: char) {
    '0' <= c <= '9'
  }

  /** The character of a decimal digit. */
  function DigitChar(d: nat): (c: char)
    requires d < 10
    ensures IsDigit(c)
  {
    ['0', '1', '2', '3', '4', '5', '6', '7', '8', '9'][d]
  }

  /** The value of a decimal digit character. */
  function DigitValue(c: char): (d: nat)
    requires IsDigit(c)
    ensures d < 10
  {
    if c == '0' then 0 else if c == '1' then 1 else if c == '2' then 2
    else if c == '3' then 3 else if c == '4' then 4 else if c == '5' then 5
    else if c == '6' then 6 else if c == '7' then 7 else if c == '8' then 8 else 9
  }

  lemma {:induction false} DigitRoundTrip(d: nat)
    requires d < 10
    ensures DigitValue(DigitChar(d)) == d
  {
  }

  predicate AllDigits(s: string) {
    forall i :: 0 <= i < |s| ==> IsDigit(s[i])
  }

  /** Python's `str(n)` for a non-negative integer. */
  function NatToString(n: nat): (s: string)
    ensures |s| > 0 && AllDigits(s)
    decreases n
  {
    if n < 10 then [DigitChar(n)] else NatToString(n / 10) + [DigitChar(n % 10)]
  }

  /** The number a string of decimal digits denotes. */
  function ParseNat(s: string): nat
    requires AllDigits(s)
  {
    if |s| == 0 then 0 else 10 * ParseNat(s[..|s| - 1]) + DigitValue(s[|s| - 1])
  }

  /** Reading back a rendered number gives the number. */
  lemma {:induction false} ParseNatToString(n: nat)
    ensures ParseNat(NatToString(n)) == n
    decreases n
  {
    var s := NatToString(n);
    if n < 10 {
      assert s[..0] == [];
      DigitRoundTrip(n);
    } else {
      ParseNatToString(n / 10);
      assert s[..|s| - 1] == NatToString(n / 10);
      DigitRoundTrip(n % 10);
    }
  }

  /** Different numbers render differently. */
  lemma {:induction false} NatToStringInjective(m: nat, n: nat)
    requires NatToString(m) == NatToString(n)
    ensures m == n
  {
    ParseNatToString(m);
    ParseNatToString(n);
  }

  /** The id of chunk `idx` of page `page` within a file. */
  function ChunkId(page: nat, idx: nat): string {
    NatToString(page) + "_" + NatToString(idx)
  }

  /** The part of `s` before its first `sep`, or all of `s`. */
  function Before(s: string, sep: char): (r: string)
    ensures |r| <= |s| && r == s[..|r|]
    ensures sep !in r
  {
    if |s| == 0 || s[0] == sep then [] else [s[0]] + Before(s[1..], sep)
  }

  /** When `a` holds no `sep`, the part of `a + [sep] + b` before the
      first `sep` is `a`. */
  lemma {:induction false} BeforeConcat(a: string, sep: char, b: string)
    requires sep !in a
    ensures Before(a + [sep] + b, sep) == a
    decreases |a|
  {
    if |a| > 0 {
      assert (a + [sep] + b)[1..] == a[1..] + [sep] + b;
      BeforeConcat(a[1..], sep, b);
    }
  }

  /** The page a chunk id names. */
  function PageOfChunkId(id: string): nat
  {
    var p := Before(id, '_');
    if AllDigits(p) then ParseNat(p) else 0
  }

  /** The page can be read back from a chunk id. */
  lemma {:induction false} PageOfChunkIdRoundTrip(page: nat, idx: nat)
    ensures PageOfChunkId(ChunkId(page, idx)) == page
  {
    var a := NatToString(page);
    assert '_' !in a;
    BeforeConcat(a, '_', NatToString(idx));
    ParseNatToString(page);
  }

  /** Chunk ids of different (page, index) pairs differ. */
  lemma {:induction false} ChunkIdInjective(p: nat, k: nat, q: nat, j: nat)
    requires ChunkId(p, k) == ChunkId(q, j)
    ensures p == q && k == j
  {
    PageOfChunkIdRoundTrip(p, k);
    PageOfChunkIdRoundTrip(q, j);
    var a := NatToString(p);
    var s := ChunkId(p, k);
    assert s[|a| + 1..] == NatToString(k);
    assert s[|a| + 1..] == NatToString(j);
    NatToStringInjective(k, j);
  }

  /** Python's `sep.join(parts)`. */
  function Join(parts: seq<string>, sep: string): (r: string)
    ensures |parts| == 1 ==> r == parts[0]
    decreases |parts|
  {
    if |parts| == 0 then ""
    else if |parts| == 1 then parts[0]
    else Join(parts[..|parts| - 1], sep) + sep + parts[|parts| - 1]
  }

  /** Where part `i` starts in `sep.join(parts)`: after every earlier part,
      each followed by one separator. */
  function JoinOffset(parts: seq<string>, sep: string, i: nat): nat
    requires i <= |parts|
    decreases i
  {
    if i == 0 then 0 else JoinOffset(parts, sep, i - 1) + |parts[i - 1]| + |sep|
  }

  /** Offsets depend only on the parts before them. */
  lemma {:induction false} JoinOffsetPrefix(parts: seq<string>, sep: string, n: nat, i: nat)
    requires i <= n <= |parts|
    ensures JoinOffset(parts[..n], sep, i) == JoinOffset(parts, sep, i)
    decreases i
  {
    if i > 0 {
      JoinOffsetPrefix(parts, sep, n, i - 1);
      assert parts[..n][i - 1] == parts[i - 1];
    }
  }

  /** A joined text is as long as its parts with one separator between
      each two neighbours. */
  lemma {:induction false} JoinLength(parts: seq<string>, sep: string)
    requires |parts| >= 1
    ensures |Join(parts, sep)| + |sep| == JoinOffset(parts, sep, |parts|)
    decreases |parts|
  {
    if |parts| >= 2 {
      var n := |parts|;
      var init := parts[..n - 1];
      JoinLength(init, sep);
      JoinOffsetPrefix(parts, sep, n - 1, n - 1);
    }
  }

  /** `s` holds `part` starting at offset `o`. */
  ghost predicate Occurs(s: string, o: nat, part: string) {
    o + |part| <= |s| && s[o..o + |part|] == part
  }

  /** What a text holds, it still holds with more text after it. */
  lemma {:induction false} OccursExtend(s: string, t: string, o: nat, part: string)
    requires Occurs(s, o, part)
    ensures Occurs(s + t, o, part)
  {
    assert (s + t)[o..o + |part|] == s[o..o + |part|];
  }

  /** The middle of a three-way concatenation. */
  lemma {:induction false} OccursMiddle(s: string, m: string, t: string)
    ensures Occurs(s + m + t, |s|, m)
  {
    assert (s + m + t)[|s|..|s| + |m|] == m;
  }

  /** Part `i` sits, unchanged, at its offset in the joined text. */
  lemma {:induction false} JoinPartAt(parts: seq<string>, sep: string, i: nat)
    requires i < |parts|
    ensures Occurs(Join(parts, sep), JoinOffset(parts, sep, i), parts[i])
    decreases |parts|
  {
    var n := |parts|;
    if n >= 2 {
      var init := parts[..n - 1];
      var head := Join(init, sep);
      assert Join(parts, sep) == head + sep + parts[n - 1];
      JoinLength(init, sep);
      JoinOffsetPrefix(parts, sep, n - 1, n - 1);
      if i < n - 1 {
        JoinPartAt(init, sep, i);
        JoinOffsetPrefix(parts, sep, n - 1, i);
        assert init[i] == parts[i];
        OccursExtend(head, sep + parts[n - 1], JoinOffset(parts, sep, i), parts[i]);
        assert head + sep + parts[n - 1] == head + (sep + parts[n - 1]);
      } else {
        OccursMiddle(head + sep, parts[n - 1], []);
        assert head + sep + parts[n - 1] + [] == head + sep + parts[n - 1];
      }
    }
  }

  /** Between part `i` and part `i + 1` the joined text holds exactly one
      separator. */
  lemma {:induction false} JoinSepAt(parts: seq<string>, sep: string, i: nat)
    requires i + 1 < |parts|
    ensures Occurs(Join(parts, sep), JoinOffset(parts, sep, i) + |parts[i]|, sep)
    decreases |parts|
  {
    var n := |parts|;
    var init := parts[..n - 1];
    var head := Join(init, sep);
    assert Join(parts, sep) == head + sep + parts[n - 1];
    JoinLength(init, sep);
    JoinOffsetPrefix(parts, sep, n - 1, n - 1);
    if i + 2 < n {
      JoinSepAt(init, sep, i);
      JoinOffsetPrefix(parts, sep, n - 1, i);
      assert init[i] == parts[i];
      OccursExtend(head, sep + parts[n - 1], JoinOffset(parts, sep, i) + |parts[i]|, sep);
      assert head + sep + parts[n - 1] == head + (sep + parts[n - 1]);
    } else {
      assert JoinOffset(parts, sep, i) + |parts[i]| == |head|;
      OccursMiddle(head, sep, parts[n - 1]);
    }
  }
}
