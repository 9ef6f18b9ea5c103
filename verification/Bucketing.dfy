/** The first half of `fit_isotonic`: rows sorted by score are cut into equal-count buckets, and
    buckets that share a score bound are pooled. */
module Bucketing {
  import opened Sorting
  import opened Pava

  // ---- bucketing ------------------------------------------------------------------------------

  /** `np.minimum((i * max_blocks) // n, max_blocks - 1)` for row i of n. */
  function BucketOf(i: nat, n: nat, blocks: int): int
    requires i < n
  {
    var b := (i * blocks) / n;
    if b <= blocks - 1 then b else blocks - 1
  }

  /** The rows the mask `bucket == b` selects, among the first k. */
  function Rows(n: nat, blocks: int, b: int, k: nat): (r: seq<nat>)
    requires k <= n
    ensures forall j :: 0 <= j < |r| ==> r[j] < k && BucketOf(r[j], n, blocks) == b
  {
    if k == 0 then [] else
    Rows(n, blocks, b, k - 1) + if BucketOf(k - 1, n, blocks) == b then [k - 1] else []
  }

  /** The first row of bucket b. */
  function Start(n: nat, blocks: int, b: nat): nat
    requires blocks > 0
  {
    StartSign(n, blocks, b);
    (b * n + (blocks - 1)) / blocks
  }

  lemma StartSign(n: nat, blocks: int, b: nat)
    requires blocks > 0
    ensures (b * n + (blocks - 1)) / blocks >= 0
  {
    assert b * n >= 0;
  }

  lemma DivideBound(x: int, m: int, i: int)
    requires m > 0
    ensures x / m <= i <==> x < (i + 1) * m
    ensures x / m >= i <==> x >= i * m
  {
    var q := x / m;
    QuotientBounds(x, m);
    SumOfMultiples(i, 0, m);
    if q <= i { MultiplesGrow(q, i, m); } else { MultiplesGrow(i + 1, q, m); }
    if q >= i { MultiplesGrow(i, q, m); } else { MultiplesGrow(q + 1, i, m); SumOfMultiples(q, 0, m); }
  }

  lemma QuotientBounds(x: int, m: int)
    requires m > 0
    ensures (x / m) * m <= x < (x / m) * m + m
  {
  }

  lemma MultiplesGrow(a: int, b: int, m: int)
    requires a <= b && m > 0
    ensures a * m <= b * m
  {
  }

  lemma BoundaryArithmetic(x: int, y: int, n: int, blocks: int, i: int, b: int)
    requires n > 0 && blocks > 0
    requires x == i * blocks && y == b * n
    ensures x / n >= b <==> (y + (blocks - 1)) / blocks <= i
  {
    DivideBound(x, n, b);
    DivideBound(y + (blocks - 1), blocks, i);
    assert (i + 1) * blocks == x + blocks;
  }

  lemma BucketRange(i: nat, n: nat, blocks: int)
    requires i < n && blocks > 0
    ensures 0 <= (i * blocks) / n < blocks
  {
    var x := i * blocks;
    assert 0 <= x < n * blocks;
    DivideBound(x, n, 0);
    DivideBound(x, n, blocks - 1);
  }

  lemma BucketBoundary(i: nat, n: nat, blocks: int, b: nat)
    requires i < n && blocks > 0
    ensures 0 <= BucketOf(i, n, blocks) < blocks
    ensures BucketOf(i, n, blocks) >= b <==> Start(n, blocks, b) <= i
  {
    BucketRange(i, n, blocks);
    BoundaryArithmetic(i * blocks, b * n, n, blocks, i, b);
  }

  lemma SumOfMultiples(s: int, q: int, m: int)
    ensures (s + q) * m == s * m + q * m
    ensures (s + q + 1 + 1) * m == (s + 1) * m + (q + 1) * m
  {
  }

  lemma DivideSum(x: nat, y: nat, m: int)
    requires m > 0
    ensures x / m + y / m <= (x + y) / m <= x / m + y / m + 1
  {
    var s, q := x / m, y / m;
    DivideBound(x, m, s);
    DivideBound(y, m, q);
    SumOfMultiples(s, q, m);
    DivideBound(x + y, m, s + q);
    DivideBound(x + y, m, s + q + 1);
  }

  lemma StartsGrow(n: nat, blocks: int, b: nat)
    requires blocks > 0
    ensures Start(n, blocks, b) + n / blocks <= Start(n, blocks, b + 1) <= Start(n, blocks, b) + n / blocks + 1
  {
    var x := b * n + (blocks - 1);
    assert x >= 0;
    assert (b + 1) * n + (blocks - 1) == x + n;
    DivideSum(x, n, blocks);
  }

  lemma StartEnds(n: nat, blocks: int)
    requires blocks > 0
    ensures Start(n, blocks, 0) == 0 && Start(n, blocks, blocks) == n
  {
    DivideBound(blocks - 1, blocks, 0);
    DivideBound(blocks * n + (blocks - 1), blocks, n);
    assert (n + 1) * blocks == blocks * n + blocks;
  }

  function Range(lo: nat, hi: nat): (r: seq<nat>)
    requires lo <= hi
    ensures |r| == hi - lo && forall j :: 0 <= j < |r| ==> r[j] == lo + j
  {
    seq(hi - lo, j requires 0 <= j < hi - lo => lo + j)
  }

  function Cap(x: nat, hi: nat): nat {
    if x <= hi then x else hi
  }

  lemma {:induction false} RowsPrefix(n: nat, blocks: int, b: nat, k: nat)
    requires blocks > 0 && k <= n
    requires Start(n, blocks, b) <= Start(n, blocks, b + 1)
    ensures Rows(n, blocks, b, k)
         == Range(Cap(Start(n, blocks, b), k), Cap(Start(n, blocks, b + 1), k))
  {
    if k == 0 {
    } else {
      RowsPrefix(n, blocks, b, k - 1);
      BucketBoundary(k - 1, n, blocks, b);
      BucketBoundary(k - 1, n, blocks, b + 1);
    }
  }

  /** A bucket is a contiguous run of rows, and any two bucket sizes differ by at most one. */
  lemma RowsAreARun(n: nat, blocks: int, b: nat)
    requires blocks > 0 && b < blocks
    ensures Start(n, blocks, b) <= Start(n, blocks, b + 1) <= n
    ensures Rows(n, blocks, b, n) == Range(Start(n, blocks, b), Start(n, blocks, b + 1))
    ensures n / blocks <= |Rows(n, blocks, b, n)| <= n / blocks + 1
  {
    StartsGrow(n, blocks, b);
    StartEnds(n, blocks);
    StartsMonotone(n, blocks, b + 1, blocks);
    RowsPrefix(n, blocks, b, n);
  }

  lemma {:induction false} StartsMonotone(n: nat, blocks: int, b: nat, c: nat)
    requires blocks > 0 && b <= c
    ensures Start(n, blocks, b) <= Start(n, blocks, c)
    decreases c - b
  {
    hide Start;
    if b < c {
      StartsGrow(n, blocks, b);
      StartsMonotone(n, blocks, b + 1, c);
    }
  }

  // ---- pooling by score bound -------------------------------------------------------------------

  function MaxAt(s: seq<real>, rows: seq<nat>): real
    requires rows != [] && forall j :: 0 <= j < |rows| ==> rows[j] < |s|
  {
    if |rows| == 1 then s[rows[0]]
    else
      var m := MaxAt(s, rows[1..]);
      if s[rows[0]] >= m then s[rows[0]] else m
  }

  lemma {:induction false} MaxOfRun(s: seq<real>, lo: nat, hi: nat)
    requires lo < hi <= |s| && NonDecreasing(s)
    ensures MaxAt(s, Range(lo, hi)) == s[hi - 1]
    decreases hi - lo
  {
    if lo + 1 < hi {
      MaxOfRun(s, lo + 1, hi);
      assert Range(lo, hi)[1..] == Range(lo + 1, hi);
    }
  }

  /** `labels[mask].sum()`. */
  function HitsAt(labels: seq<bool>, rows: seq<nat>): nat
    requires forall j :: 0 <= j < |rows| ==> rows[j] < |labels|
  {
    if rows == [] then 0 else (if labels[rows[0]] then 1 else 0) + HitsAt(labels, rows[1..])
  }

  lemma {:induction false} HitsBound(labels: seq<bool>, rows: seq<nat>)
    requires forall j :: 0 <= j < |rows| ==> rows[j] < |labels|
    ensures HitsAt(labels, rows) <= |rows|
  {
    if rows == [] {
    } else {
      HitsBound(labels, rows[1..]);
    }
  }

  function CountTrue(labels: seq<bool>): nat {
    if labels == [] then 0 else (if labels[0] then 1 else 0) + CountTrue(labels[1..])
  }

  lemma {:induction false} CountTrueAppend(a: seq<bool>, b: seq<bool>)
    ensures CountTrue(a + b) == CountTrue(a) + CountTrue(b)
  {
    if a == [] { assert a + b == b; }
    else { assert (a + b)[1..] == a[1..] + b; CountTrueAppend(a[1..], b); }
  }

  lemma {:induction false} HitsOfRun(labels: seq<bool>, lo: nat, hi: nat)
    requires lo <= hi <= |labels|
    ensures HitsAt(labels, Range(lo, hi)) == CountTrue(labels[lo..hi])
    decreases hi - lo
  {
    if lo < hi {
      HitsOfRun(labels, lo + 1, hi);
      assert Range(lo, hi)[1..] == Range(lo + 1, hi);
      assert labels[lo..hi][1..] == labels[lo + 1..hi];
    }
  }

  // The pool that owns a score bound gathers every bucket whose largest score is that bound.

  function CountFor(s: seq<real>, blocks: int, u: real, b: nat): nat {
    if b == 0 then 0 else
    var rows := Rows(|s|, blocks, b - 1, |s|);
    CountFor(s, blocks, u, b - 1) + if rows != [] && MaxAt(s, rows) == u then |rows| else 0
  }

  function HitsFor(s: seq<real>, labels: seq<bool>, blocks: int, u: real, b: nat): nat
    requires |labels| == |s|
  {
    if b == 0 then 0 else
    var rows := Rows(|s|, blocks, b - 1, |s|);
    HitsFor(s, labels, blocks, u, b - 1) + if rows != [] && MaxAt(s, rows) == u then HitsAt(labels, rows) else 0
  }

  function SumNat(s: seq<nat>): nat {
    if s == [] then 0 else s[|s| - 1] + SumNat(s[..|s| - 1])
  }

  ghost predicate Increasing(s: seq<real>) {
    forall i, j :: 0 <= i < j < |s| ==> s[i] < s[j]
  }

  /** Strictly increasing bounds that carry everything the tallies `count` and `hit` record. */
  ghost predicate Groups(count: real -> nat, hit: real -> nat, uppers: seq<real>, hits: seq<nat>, counts: seq<nat>) {
    && |uppers| == |hits| == |counts|
    && Increasing(uppers)
    && (forall k :: 0 <= k < |uppers| ==> counts[k] == count(uppers[k]) > 0 && hits[k] == hit(uppers[k]) <= counts[k])
    && (forall u: real :: count(u) > 0 ==> u in uppers)
  }

  /** The pooled buckets of sorted rows, after the first b buckets. */
  ghost predicate Pools(s: seq<real>, labels: seq<bool>, blocks: int, b: nat,
                        uppers: seq<real>, hits: seq<nat>, counts: seq<nat>)
    requires |labels| == |s|
  {
    Groups(u => CountFor(s, blocks, u, b), u => HitsFor(s, labels, blocks, u, b), uppers, hits, counts)
  }

  /** Nothing is left to choose: the pools of given rows are unique. */
  lemma PoolsAreUnique(s: seq<real>, labels: seq<bool>, blocks: int, b: nat,
                       u: seq<real>, h: seq<nat>, c: seq<nat>, u': seq<real>, h': seq<nat>, c': seq<nat>)
    requires |labels| == |s|
    requires Pools(s, labels, blocks, b, u, h, c) && Pools(s, labels, blocks, b, u', h', c')
    ensures u == u' && h == h' && c == c'
  {
    GroupsAreUnique(x => CountFor(s, blocks, x, b), x => HitsFor(s, labels, blocks, x, b), u, h, c, u', h', c');
  }

  // Fewer rows than buckets: every row is a bucket of its own, so rows pool by score alone.

  function ScoreCount(s: seq<real>, u: real, k: nat): nat
    requires k <= |s|
  {
    if k == 0 then 0 else ScoreCount(s, u, k - 1) + if s[k - 1] == u then 1 else 0
  }

  function ScoreHits(s: seq<real>, labels: seq<bool>, u: real, k: nat): nat
    requires k <= |s| == |labels|
  {
    if k == 0 then 0 else ScoreHits(s, labels, u, k - 1) + if s[k - 1] == u && labels[k - 1] then 1 else 0
  }

  lemma FewRowsOneEach(n: nat, blocks: int, b: nat)
    requires n < blocks && b < blocks
    ensures var i, rows := Start(n, blocks, b), Rows(n, blocks, b, n);
            && Start(n, blocks, b + 1) <= n
            && (if rows == [] then Start(n, blocks, b + 1) == i else Start(n, blocks, b + 1) == i + 1 && rows == [i])
  {
    RowsAreARun(n, blocks, b);
    DivideBound(n, blocks, 0);
  }

  lemma OneRow(s: seq<real>, labels: seq<bool>, i: nat)
    requires i < |s| == |labels|
    ensures MaxAt(s, [i]) == s[i] && HitsAt(labels, [i]) == if labels[i] then 1 else 0
  {
    assert [i][1..] == [];
  }

  lemma {:induction false} FewRowsPoolByScore(s: seq<real>, labels: seq<bool>, blocks: int, u: real, b: nat)
    requires |labels| == |s| < blocks && b <= blocks
    ensures Start(|s|, blocks, b) <= |s|
    ensures CountFor(s, blocks, u, b) == ScoreCount(s, u, Start(|s|, blocks, b))
    ensures HitsFor(s, labels, blocks, u, b) == ScoreHits(s, labels, u, Start(|s|, blocks, b))
  {
    hide Start, Rows, MaxAt, HitsAt;
    if b == 0 {
      StartEnds(|s|, blocks);
    } else {
      FewRowsPoolByScore(s, labels, blocks, u, b - 1);
      FewRowsOneEach(|s|, blocks, b - 1);
      if Rows(|s|, blocks, b - 1, |s|) != [] {
        OneRow(s, labels, Start(|s|, blocks, b - 1));
      }
    }
  }

  lemma GroupsAreUnique(count: real -> nat, hit: real -> nat,
                        u: seq<real>, h: seq<nat>, c: seq<nat>, u': seq<real>, h': seq<nat>, c': seq<nat>)
    requires Groups(count, hit, u, h, c) && Groups(count, hit, u', h', c')
    ensures u == u' && h == h' && c == c'
  {
    forall x: real ensures x in u <==> x in u' {
      assert x in u ==> count(x) > 0;
      assert x in u' ==> count(x) > 0;
    }
    IncreasingUnique(u, u');
  }

  lemma IncreasingUnique(a: seq<real>, b: seq<real>)
    requires Increasing(a) && Increasing(b)
    requires forall x: real :: x in a <==> x in b
    ensures a == b
  {
    forall i | 0 <= i < |a| ensures a[i] in b { assert a[i] in a; }
    forall i | 0 <= i < |b| ensures b[i] in a { assert b[i] in b; }
    StrictChainUnique(a, b, (x: real, y: real) => x < y);
  }

  lemma TallyStep(s: seq<real>, labels: seq<bool>, blocks: int, b: nat, u: real)
    requires |labels| == |s|
    requires Rows(|s|, blocks, b, |s|) != []
    ensures var rows := Rows(|s|, blocks, b, |s|);
            var mine := MaxAt(s, rows) == u;
            && CountFor(s, blocks, u, b + 1) == CountFor(s, blocks, u, b) + (if mine then |rows| else 0)
            && HitsFor(s, labels, blocks, u, b + 1) == HitsFor(s, labels, blocks, u, b) + (if mine then HitsAt(labels, rows) else 0)
  {
  }

  /** A tally that grows at the last bound only. */
  lemma GroupsMerge(f: real -> nat, g: real -> nat, f': real -> nat, g': real -> nat, rows: nat, hit: nat,
                    uppers: seq<real>, hits: seq<nat>, counts: seq<nat>)
    requires Groups(f, g, uppers, hits, counts) && uppers != [] && hit <= rows
    requires forall u :: f'(u) == f(u) + if u == uppers[|uppers| - 1] then rows else 0
    requires forall u :: g'(u) == g(u) + if u == uppers[|uppers| - 1] then hit else 0
    ensures Groups(f', g', uppers, AddToLast(hits, hit), AddToLast(counts, rows))
  {
  }

  /** A tally that grows at a bound above all the others. */
  lemma GroupsAppend(f: real -> nat, g: real -> nat, f': real -> nat, g': real -> nat, rows: nat, hit: nat,
                     upper: real, uppers: seq<real>, hits: seq<nat>, counts: seq<nat>)
    requires Groups(f, g, uppers, hits, counts) && hit <= rows && rows > 0
    requires uppers != [] ==> uppers[|uppers| - 1] < upper
    requires f(upper) == 0 ==> g(upper) == 0
    requires forall u :: f'(u) == f(u) + if u == upper then rows else 0
    requires forall u :: g'(u) == g(u) + if u == upper then hit else 0
    ensures Groups(f', g', uppers + [upper], hits + [hit], counts + [rows])
  {
    var n := |uppers|;
    var uppers', hits', counts' := uppers + [upper], hits + [hit], counts + [rows];
    IncreasingAppend(uppers, upper);
    assert f(upper) == 0;
    assert counts'[n] == f'(upper) && hits'[n] == g'(upper);
    forall k | 0 <= k < n
      ensures counts'[k] == f'(uppers'[k]) > 0 && hits'[k] == g'(uppers'[k]) <= counts'[k]
    {
      assert uppers'[k] == uppers[k] < upper;
    }
    forall u: real | f'(u) > 0 ensures u in uppers' {
      if u == upper { assert uppers'[n] == u; }
      else { assert f(u) > 0 && u in uppers; }
    }
  }

  lemma IncreasingAppend(s: seq<real>, x: real)
    requires Increasing(s) && (s != [] ==> s[|s| - 1] < x)
    ensures Increasing(s + [x])
    ensures x !in s && forall k :: 0 <= k < |s| ==> s[k] < x
  {
    assert forall k :: 0 <= k < |s| ==> s[k] <= s[|s| - 1];
  }

  lemma PoolsStep(s: seq<real>, labels: seq<bool>, blocks: int, b: nat, rows: seq<nat>, upper: real,
                  uppers: seq<real>, hits: seq<nat>, counts: seq<nat>)
    requires |labels| == |s|
    requires Pools(s, labels, blocks, b, uppers, hits, counts)
    requires rows == Rows(|s|, blocks, b, |s|) != [] && upper == MaxAt(s, rows)
    requires uppers != [] ==> uppers[|uppers| - 1] <= upper
    ensures if uppers != [] && upper == uppers[|uppers| - 1] then
              Pools(s, labels, blocks, b + 1, uppers, AddToLast(hits, HitsAt(labels, rows)), AddToLast(counts, |rows|))
            else
              Pools(s, labels, blocks, b + 1, uppers + [upper], hits + [HitsAt(labels, rows)], counts + [|rows|])
  {
    HitsBound(labels, rows);
    forall u: real { TallyStep(s, labels, blocks, b, u); }
    var f, g := u => CountFor(s, blocks, u, b), u => HitsFor(s, labels, blocks, u, b);
    var f', g' := u => CountFor(s, blocks, u, b + 1), u => HitsFor(s, labels, blocks, u, b + 1);
    hide Groups, MaxAt, HitsAt, Rows, CountFor, HitsFor;
    if uppers != [] && upper == uppers[|uppers| - 1] {
      GroupsMerge(f, g, f', g', |rows|, HitsAt(labels, rows), uppers, hits, counts);
    } else {
      if f(upper) == 0 { NoRowsNoHits(s, labels, blocks, upper, b); }
      GroupsAppend(f, g, f', g', |rows|, HitsAt(labels, rows), upper, uppers, hits, counts);
    }
  }

  lemma {:induction false} NoRowsNoHits(s: seq<real>, labels: seq<bool>, blocks: int, u: real, b: nat)
    requires |labels| == |s| && CountFor(s, blocks, u, b) == 0
    ensures HitsFor(s, labels, blocks, u, b) == 0
  {
    hide Rows, MaxAt;
    if b == 0 {
    } else {
      NoRowsNoHits(s, labels, blocks, u, b - 1);
    }
  }

  lemma PoolsSkip(s: seq<real>, labels: seq<bool>, blocks: int, b: nat,
                  uppers: seq<real>, hits: seq<nat>, counts: seq<nat>)
    requires |labels| == |s|
    requires Pools(s, labels, blocks, b, uppers, hits, counts) && Rows(|s|, blocks, b, |s|) == []
    ensures Pools(s, labels, blocks, b + 1, uppers, hits, counts)
  {
    forall u: real
      ensures CountFor(s, blocks, u, b + 1) == CountFor(s, blocks, u, b)
      ensures HitsFor(s, labels, blocks, u, b + 1) == HitsFor(s, labels, blocks, u, b)
    {
    }
    var f, g := u => CountFor(s, blocks, u, b), u => HitsFor(s, labels, blocks, u, b);
    var f', g' := u => CountFor(s, blocks, u, b + 1), u => HitsFor(s, labels, blocks, u, b + 1);
    hide Rows, CountFor, HitsFor;
    assert Groups(f, g, uppers, hits, counts);
    assert Groups(f', g', uppers, hits, counts);
  }

  function AddToLast(s: seq<nat>, x: nat): (r: seq<nat>)
    ensures |r| == |s|
  {
    if s == [] then [] else s[..|s| - 1] + [s[|s| - 1] + x]
  }

  lemma SumAddToLast(s: seq<nat>, x: nat)
    ensures s != [] ==> SumNat(AddToLast(s, x)) == SumNat(s) + x
    ensures SumNat(s + [x]) == SumNat(s) + x
  {
    assert (s + [x])[..|s|] == s;
    if s != [] { assert AddToLast(s, x)[..|s| - 1] == s[..|s| - 1]; }
  }

  lemma NoPools(s: seq<real>, labels: seq<bool>, blocks: int)
    requires |labels| == |s|
    ensures Pools(s, labels, blocks, 0, [], [], [])
    ensures SumNat([]) == 0 && CountTrue(labels[..0]) == 0
  {
  }

  /** Where the bucket loop stands: the pools so far, and how many rows and hits they carry. */
  ghost predicate Bucketed(s: seq<real>, labels: seq<bool>, blocks: int, b: nat,
                           uppers: seq<real>, hits: seq<nat>, counts: seq<nat>)
    requires |labels| == |s| && blocks > 0
  {
    var done := Start(|s|, blocks, b);
    && |uppers| == |hits| == |counts| <= b
    && done <= |s|
    && Pools(s, labels, blocks, b, uppers, hits, counts)
    && SumNat(counts) == done && SumNat(hits) == CountTrue(labels[..done])
    && (uppers == [] <==> done == 0)
    && (uppers != [] ==> uppers[|uppers| - 1] == s[done - 1])
  }

  lemma BucketedSkip(s: seq<real>, labels: seq<bool>, blocks: int, b: nat,
                     uppers: seq<real>, hits: seq<nat>, counts: seq<nat>)
    requires |labels| == |s| && b < blocks
    requires Bucketed(s, labels, blocks, b, uppers, hits, counts) && Rows(|s|, blocks, b, |s|) == []
    ensures Bucketed(s, labels, blocks, b + 1, uppers, hits, counts)
  {
    RowsAreARun(|s|, blocks, b);
    PoolsSkip(s, labels, blocks, b, uppers, hits, counts);
  }

  lemma BucketFacts(s: seq<real>, labels: seq<bool>, blocks: int, b: nat, rows: seq<nat>)
    requires |labels| == |s| && NonDecreasing(s) && b < blocks
    requires rows == Rows(|s|, blocks, b, |s|) != []
    ensures var lo, hi := Start(|s|, blocks, b), Start(|s|, blocks, b + 1);
            && lo < hi <= |s| && |rows| == hi - lo && MaxAt(s, rows) == s[hi - 1]
            && CountTrue(labels[..hi]) == CountTrue(labels[..lo]) + HitsAt(labels, rows)
  {
    var lo, hi := Start(|s|, blocks, b), Start(|s|, blocks, b + 1);
    RowsAreARun(|s|, blocks, b);
    HitsOfRun(labels, lo, hi);
    assert labels[..hi] == labels[..lo] + labels[lo..hi];
    CountTrueAppend(labels[..lo], labels[lo..hi]);
    MaxOfRun(s, lo, hi);
  }

  lemma BucketedStep(s: seq<real>, labels: seq<bool>, blocks: int, b: nat, rows: seq<nat>,
                     uppers: seq<real>, hits: seq<nat>, counts: seq<nat>)
    requires |labels| == |s| && NonDecreasing(s) && b < blocks
    requires Bucketed(s, labels, blocks, b, uppers, hits, counts)
    requires rows == Rows(|s|, blocks, b, |s|) != []
    ensures var upper := MaxAt(s, rows);
            if uppers != [] && upper == uppers[|uppers| - 1] then
              Bucketed(s, labels, blocks, b + 1, uppers, AddToLast(hits, HitsAt(labels, rows)), AddToLast(counts, |rows|))
            else
              Bucketed(s, labels, blocks, b + 1, uppers + [upper], hits + [HitsAt(labels, rows)], counts + [|rows|])
  {
    hide Start, MaxAt, HitsAt, Rows, Pools, SumNat, CountTrue;
    BucketFacts(s, labels, blocks, b, rows);
    PoolsStep(s, labels, blocks, b, rows, MaxAt(s, rows), uppers, hits, counts);
    SumAddToLast(hits, HitsAt(labels, rows));
    SumAddToLast(counts, |rows|);
  }

  lemma BucketedEnd(s: seq<real>, labels: seq<bool>, blocks: int, uppers: seq<real>, hits: seq<nat>, counts: seq<nat>)
    requires |labels| == |s| && blocks > 0
    requires Bucketed(s, labels, blocks, blocks, uppers, hits, counts)
    ensures |uppers| == |hits| == |counts| <= blocks
    ensures Pools(s, labels, blocks, blocks, uppers, hits, counts)
    ensures SumNat(counts) == |s| && SumNat(hits) == CountTrue(labels)
    ensures s != [] ==> uppers != [] && uppers[|uppers| - 1] == s[|s| - 1]
  {
    StartEnds(|s|, blocks);
    assert labels[..|s|] == labels;
  }

  lemma BucketedStart(s: seq<real>, labels: seq<bool>, blocks: int)
    requires |labels| == |s| && blocks > 0
    ensures Bucketed(s, labels, blocks, 0, [], [], [])
  {
    StartEnds(|s|, blocks);
    NoPools(s, labels, blocks);
  }

  /** The bucket loop. The pools partition the rows: row and hit totals are conserved. */
  method PoolBuckets(s: seq<real>, labels: seq<bool>, blocks: int)
    returns (uppers: seq<real>, hits: seq<nat>, counts: seq<nat>)
    requires |labels| == |s| && NonDecreasing(s)
    ensures |uppers| == |hits| == |counts| <= if blocks > 0 then blocks else 0
    ensures Pools(s, labels, blocks, if blocks > 0 then blocks else 0, uppers, hits, counts)
    ensures blocks > 0 ==> SumNat(counts) == |s| && SumNat(hits) == CountTrue(labels)
    ensures blocks > 0 && s != [] ==> uppers != [] && uppers[|uppers| - 1] == s[|s| - 1]
  {
    hide AddToLast, MaxAt, HitsAt, Rows, Pools, Bucketed, SumNat, CountTrue;
    uppers, hits, counts := [], [], [];
    NoPools(s, labels, blocks);
    if blocks <= 0 {
      return;
    }
    BucketedStart(s, labels, blocks);
    var b := 0;
    while b < blocks
      invariant 0 <= b <= blocks
      invariant |uppers| == |hits| == |counts|
      invariant Bucketed(s, labels, blocks, b, uppers, hits, counts)
    {
      var rows := Rows(|s|, blocks, b, |s|);
      if rows == [] {
        BucketedSkip(s, labels, blocks, b, uppers, hits, counts);
        b := b + 1;
        continue;
      }
      var upper, hitsHere, count := MaxAt(s, rows), HitsAt(labels, rows), |rows|;
      BucketedStep(s, labels, blocks, b, rows, uppers, hits, counts);
      if uppers != [] && upper == uppers[|uppers| - 1] {
        hits := AddToLast(hits, hitsHere);
        counts := AddToLast(counts, count);
      } else {
        uppers := uppers + [upper];
        hits := hits + [hitsHere];
        counts := counts + [count];
      }
      b := b + 1;
    }
    BucketedEnd(s, labels, blocks, uppers, hits, counts);
  }
}
