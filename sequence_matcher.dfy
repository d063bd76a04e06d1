/** The similarity ratio of Python's `difflib.SequenceMatcher(None, a, b)`,
    which `prefix_search` in tools/main.py compares with 0.8.  The matcher
    is Ratcliff/Obershelp: take the longest matching block (the earliest in
    `a`, then the earliest in `b`), recurse on the pieces to its left and to
    its right, and count the matched characters `M`; the ratio is
    `2 * M / (|a| + |b|)`, or 1 when both strings are empty. */
module SequenceMatcher {

  /** A matching block: `a[i..i + size] == b[j..j + size]`. */
  datatype Block = Block(i: nat, j: nat, size: nat)

  /** The length of the longest common prefix of `a[i..ahi]` and `b[j..bhi]`:
      the largest block that starts at `(i, j)`. */
  function RunLength(a: string, b: string, i: nat, ahi: nat, j: nat, bhi: nat): (r: nat)
    requires i <= ahi <= |a| && j <= bhi <= |b|
    ensures i + r <= ahi && j + r <= bhi
    ensures a[i..i + r] == b[j..j + r]
    ensures i + r == ahi || j + r == bhi || a[i + r] != b[j + r]
    decreases ahi - i
  {
    if i < ahi && j < bhi && a[i] == b[j] then
      var r := RunLength(a, b, i + 1, ahi, j + 1, bhi);
      assert a[i..i + 1 + r] == [a[i]] + a[i + 1..i + 1 + r];
      assert b[j..j + 1 + r] == [b[j]] + b[j + 1..j + 1 + r];
      1 + r
    else 0
  }

  /** No block starting at `(i, j)` is longer than `RunLength`. */
  lemma {:induction false} BlockWithinRun(a: string, b: string, i: nat, ahi: nat, j: nat, bhi: nat, k: nat)
    requires i <= ahi <= |a| && j <= bhi <= |b|
    requires i + k <= ahi && j + k <= bhi && a[i..i + k] == b[j..j + k]
    ensures k <= RunLength(a, b, i, ahi, j, bhi)
    decreases k
  {
    if k > 0 {
      assert a[i] == a[i..i + k][0] && b[j] == b[j..j + k][0];
      assert a[i + 1..i + k] == a[i..i + k][1..] && b[j + 1..j + k] == b[j..j + k][1..];
      BlockWithinRun(a, b, i + 1, ahi, j + 1, bhi, k - 1);
    }
  }

  predicate Ranges(a: string, b: string, alo: nat, ahi: nat, blo: nat, bhi: nat) {
    alo <= ahi <= |a| && blo <= bhi <= |b|
  }

  /** `(i', j')` comes before `(i, j)` in the order `a`-index first. */
  predicate Before(i': nat, j': nat, i: nat, j: nat) {
    i' < i || (i' == i && j' < j)
  }

  /** `best` is the first longest block among the start positions of
      `[alo, ahi) x [blo, bhi)` that come before `(i, j)`; with no block of
      positive size it is `(alo, blo, 0)`. */
  ghost predicate FirstLongestBefore(a: string, b: string, alo: nat, ahi: nat, blo: nat, bhi: nat,
                                     i: nat, j: nat, best: Block)
    requires Ranges(a, b, alo, ahi, blo, bhi)
  {
    && alo <= best.i <= ahi && blo <= best.j <= bhi
    && best.i + best.size <= ahi && best.j + best.size <= bhi
    && (best.size == 0 ==> best.i == alo && best.j == blo)
    && (best.size > 0 ==> RunLength(a, b, best.i, ahi, best.j, bhi) == best.size)
    && (forall i', j' :: alo <= i' < ahi && blo <= j' < bhi && Before(i', j', i, j) ==>
          RunLength(a, b, i', ahi, j', bhi) <= best.size)
    && (forall i', j' :: alo <= i' < ahi && blo <= j' < bhi && Before(i', j', best.i, best.j) ==>
          RunLength(a, b, i', ahi, j', bhi) < best.size)
  }

  /** The scan of `find_longest_match`: positions in order, a block replacing
      the best so far only when it is strictly longer. */
  function LongestFrom(a: string, b: string, alo: nat, ahi: nat, blo: nat, bhi: nat,
                       i: nat, j: nat, best: Block): (r: Block)
    requires Ranges(a, b, alo, ahi, blo, bhi)
    requires alo <= i <= ahi && blo <= j <= bhi
    requires FirstLongestBefore(a, b, alo, ahi, blo, bhi, i, j, best)
    ensures FirstLongestBefore(a, b, alo, ahi, blo, bhi, ahi, blo, r)
    decreases ahi - i, bhi - j
  {
    if i == ahi then best
    else if j == bhi then
      NextRowKeeps(a, b, alo, ahi, blo, bhi, i, best);
      LongestFrom(a, b, alo, ahi, blo, bhi, i + 1, blo, best)
    else
      var k := RunLength(a, b, i, ahi, j, bhi);
      var next := if k > best.size then Block(i, j, k) else best;
      NextPositionKeeps(a, b, alo, ahi, blo, bhi, i, j, best, next);
      LongestFrom(a, b, alo, ahi, blo, bhi, i, j + 1, next)
  }

  lemma NextRowKeeps(a: string, b: string, alo: nat, ahi: nat, blo: nat, bhi: nat, i: nat, best: Block)
    requires Ranges(a, b, alo, ahi, blo, bhi) && alo <= i < ahi
    requires FirstLongestBefore(a, b, alo, ahi, blo, bhi, i, bhi, best)
    ensures FirstLongestBefore(a, b, alo, ahi, blo, bhi, i + 1, blo, best)
  {
  }

  lemma NextPositionKeeps(a: string, b: string, alo: nat, ahi: nat, blo: nat, bhi: nat,
                          i: nat, j: nat, best: Block, next: Block)
    requires Ranges(a, b, alo, ahi, blo, bhi) && alo <= i < ahi && blo <= j < bhi
    requires FirstLongestBefore(a, b, alo, ahi, blo, bhi, i, j, best)
    requires next == (var k := RunLength(a, b, i, ahi, j, bhi); if k > best.size then Block(i, j, k) else best)
    ensures FirstLongestBefore(a, b, alo, ahi, blo, bhi, i, j + 1, next)
  {
    var k := RunLength(a, b, i, ahi, j, bhi);
    forall i', j' | alo <= i' < ahi && blo <= j' < bhi && Before(i', j', i, j + 1)
      ensures RunLength(a, b, i', ahi, j', bhi) <= next.size
    {
      if Before(i', j', i, j) {
        assert RunLength(a, b, i', ahi, j', bhi) <= best.size;
      } else {
        assert i' == i && j' == j;
      }
    }
    if k > best.size {
      forall i', j' | alo <= i' < ahi && blo <= j' < bhi && Before(i', j', i, j)
        ensures RunLength(a, b, i', ahi, j', bhi) < k
      {
        assert RunLength(a, b, i', ahi, j', bhi) <= best.size;
      }
    }
  }

  /** `a[i..i + k] == b[j..j + k]`, both slices inside their strings. */
  predicate CommonBlock(a: string, b: string, i: nat, j: nat, k: nat) {
    i + k <= |a| && j + k <= |b| && a[i..i + k] == b[j..j + k]
  }

  /** `find_longest_match(alo, ahi, blo, bhi)`: the longest matching block in
      the ranges, the earliest in `a` among those, then the earliest in `b`;
      `(alo, blo, 0)` when nothing matches. */
  function FindLongestMatch(a: string, b: string, alo: nat, ahi: nat, blo: nat, bhi: nat): (r: Block)
    requires Ranges(a, b, alo, ahi, blo, bhi)
    ensures alo <= r.i && r.i + r.size <= ahi && blo <= r.j && r.j + r.size <= bhi
    ensures CommonBlock(a, b, r.i, r.j, r.size)
    ensures r.size == 0 ==> r.i == alo && r.j == blo
    ensures forall i': nat, j': nat, k': nat ::
              alo <= i' && i' + k' <= ahi && blo <= j' && j' + k' <= bhi && CommonBlock(a, b, i', j', k')
              ==> k' <= r.size
    ensures forall i', j' :: alo <= i' < ahi && blo <= j' < bhi && Before(i', j', r.i, r.j) ==>
              RunLength(a, b, i', ahi, j', bhi) < r.size
  {
    var r := LongestFrom(a, b, alo, ahi, blo, bhi, alo, blo, Block(alo, blo, 0));
    forall i': nat, j': nat, k': nat |
        alo <= i' && i' + k' <= ahi && blo <= j' && j' + k' <= bhi && CommonBlock(a, b, i', j', k')
      ensures k' <= r.size
    {
      BlockWithinRun(a, b, i', ahi, j', bhi, k');
    }
    r
  }

  /** The number of characters covered by `get_matching_blocks()` on the
      ranges: the longest block plus, recursively, the blocks of the parts to
      its left and to its right. */
  function MatchedIn(a: string, b: string, alo: nat, ahi: nat, blo: nat, bhi: nat): (m: nat)
    requires Ranges(a, b, alo, ahi, blo, bhi)
    ensures m <= ahi - alo && m <= bhi - blo
    decreases ahi - alo
  {
    var x := FindLongestMatch(a, b, alo, ahi, blo, bhi);
    if x.size == 0 then 0
    else x.size + MatchedIn(a, b, alo, x.i, blo, x.j)
                + MatchedIn(a, b, x.i + x.size, ahi, x.j + x.size, bhi)
  }

  /** `M`: the matched-character count of the whole strings. */
  function Matched(a: string, b: string): (m: nat)
    ensures m <= |a| && m <= |b|
  {
    MatchedIn(a, b, 0, |a|, 0, |b|)
  }

  /** `SequenceMatcher(None, a, b).ratio()`. */
  function Ratio(a: string, b: string): (r: real)
    ensures 0.0 <= r <= 1.0
  {
    if |a| + |b| == 0 then 1.0
    else
      var m := Matched(a, b);
      FractionAtMostOne((2 * m) as real, (|a| + |b|) as real);
      (2 * m) as real / (|a| + |b|) as real
  }

  lemma FractionAtMostOne(x: real, y: real)
    requires 0.0 <= x <= y && y > 0.0
    ensures 0.0 <= x / y <= 1.0
  {
    var q := x / y;
    assert q * y == x;
  }

  lemma FractionThreshold(x: real, y: real)
    requires y > 0.0
    ensures x / y >= 0.8 <==> 5.0 * x >= 4.0 * y
  {
    var q := x / y;
    assert q * y == x;
  }

  /** `ratio() >= 0.8` without floating point. */
  predicate Similar(a: string, b: string) {
    5 * Matched(a, b) >= 2 * (|a| + |b|)
  }

  lemma SimilarIsRatioThreshold(a: string, b: string)
    ensures Similar(a, b) <==> Ratio(a, b) >= 0.8
  {
    var m, n := Matched(a, b), |a| + |b|;
    if n > 0 {
      FractionThreshold((2 * m) as real, n as real);
    }
  }

  /** A string matches itself completely: `M(a, a) == |a|`, so its ratio is 1. */
  lemma SelfMatch(a: string)
    ensures Matched(a, a) == |a|
    ensures Ratio(a, a) == 1.0
  {
    var n := |a|;
    if n > 0 {
      SelfBlock(a);
      assert (2 * n) as real / (n + n) as real == 1.0;
    }
  }

  /** The longest block of a string against itself is the whole string. */
  lemma SelfBlock(a: string)
    ensures FindLongestMatch(a, a, 0, |a|, 0, |a|) == Block(0, 0, |a|)
  {
    var x := FindLongestMatch(a, a, 0, |a|, 0, |a|);
    assert CommonBlock(a, a, 0, 0, |a|);
  }
}
