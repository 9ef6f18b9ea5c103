/** Pool-adjacent-violators, as the gate fitter runs it: one list of block values and one of
    block counts, spliced in place by an index that steps back after every merge. The result
    is proved to be the one non-decreasing sequence closest to the data in squared error. */
module Pava {
  import opened RealProducts

  // ---- the problem, stated without the algorithm ----------------------------------------------

  ghost predicate NonDecreasing(s: seq<real>) {
    forall i, j :: 0 <= i <= j < |s| ==> s[i] <= s[j]
  }

  function Sum(s: seq<real>): real {
    if s == [] then 0.0 else s[0] + Sum(s[1..])
  }

  function Sse(data: seq<real>, fit: seq<real>): real
    requires |data| == |fit|
  {
    if data == [] then 0.0
    else Square(data[0] - fit[0]) + Sse(data[1..], fit[1..])
  }

  function Repeat(x: real, n: nat): (r: seq<real>)
    ensures |r| == n && forall i :: 0 <= i < n ==> r[i] == x
  {
    seq(n, _ => x)
  }

  /** Each value as many times as its weight: the data the fit is measured against. */
  function Expand(values: seq<real>, counts: seq<nat>): seq<real>
    requires |values| == |counts|
  {
    if values == [] then [] else Repeat(values[0], counts[0]) + Expand(values[1..], counts[1..])
  }

  ghost predicate IsLeastSquaresFit(data: seq<real>, fit: seq<real>) {
    && |fit| == |data|
    && NonDecreasing(fit)
    && forall other :: |other| == |data| && NonDecreasing(other) ==> Sse(data, fit) <= Sse(data, other)
  }

  // ---- at most one sequence solves it -----------------------------------------------------------

  function Midpoint(a: seq<real>, b: seq<real>): (m: seq<real>)
    requires |a| == |b|
    ensures |m| == |a| && forall i :: 0 <= i < |a| ==> m[i] == (a[i] + b[i]) / 2.0
  {
    seq(|a|, i requires 0 <= i < |a| => (a[i] + b[i]) / 2.0)
  }

  /** The parallelogram law over whole sequences. */
  lemma {:induction false} MidpointSse(e: seq<real>, a: seq<real>, b: seq<real>)
    requires |e| == |a| == |b|
    ensures 4.0 * Sse(e, Midpoint(a, b)) + Sse(a, b) == 2.0 * Sse(e, a) + 2.0 * Sse(e, b)
  {
    if e == [] {
    } else {
      hide Square;
      MidpointSse(e[1..], a[1..], b[1..]);
      MidpointTerm(e[0], a[0], b[0]);
      assert Midpoint(a, b)[1..] == Midpoint(a[1..], b[1..]);
    }
  }

  lemma {:induction false} SseSign(a: seq<real>, b: seq<real>)
    requires |a| == |b|
    ensures Sse(a, b) >= 0.0
    ensures Sse(a, b) == 0.0 ==> a == b
  {
    if a == [] {
    } else {
      hide Square;
      SseSign(a[1..], b[1..]);
      SquareSign(a[0] - b[0]);
      assert a == [a[0]] + a[1..] && b == [b[0]] + b[1..];
    }
  }

  /** The least-squares monotone fit is unique, so the contract of `Fit` below pins its output. */
  lemma FitIsUnique(data: seq<real>, a: seq<real>, b: seq<real>)
    requires IsLeastSquaresFit(data, a) && IsLeastSquaresFit(data, b)
    ensures a == b
  {
    var m := Midpoint(a, b);
    assert NonDecreasing(m);
    MidpointSse(data, a, b);
    SseSign(a, b);
  }

  lemma {:induction false} SelfSse(a: seq<real>)
    ensures Sse(a, a) == 0.0
  {
    if a == [] {
    } else {
      SelfSse(a[1..]);
      TimesZero(0.0);
    }
  }

  /** Data that is already monotone is its own fit, so fitting a second time changes nothing. */
  lemma MonotoneDataIsItsOwnFit(data: seq<real>, fit: seq<real>)
    requires NonDecreasing(data) && IsLeastSquaresFit(data, fit)
    ensures fit == data
  {
    SelfSse(data);
    forall other | |other| == |data| ensures Sse(data, data) <= Sse(data, other) {
      SseSign(data, other);
    }
    FitIsUnique(data, data, fit);
  }

  // ---- blocks: runs of data pooled to one value --------------------------------------------------

  function Excess(s: seq<real>, v: real): real {
    if s == [] then 0.0 else (s[0] - v) + Excess(s[1..], v)
  }

  /** `v` is the mean of the run, and every prefix of the run has mean at least `v`. */
  ghost predicate Block(run: seq<real>, v: real) {
    && Excess(run, v) == 0.0
    && forall k :: 0 <= k <= |run| ==> Excess(run[..k], v) >= 0.0
  }

  function Flatten(runs: seq<seq<real>>): seq<real> {
    if runs == [] then [] else runs[0] + Flatten(runs[1..])
  }

  ghost predicate Blocks(runs: seq<seq<real>>, values: seq<real>, counts: seq<nat>) {
    && |runs| == |values| == |counts|
    && forall j :: 0 <= j < |runs| ==> |runs[j]| == counts[j] > 0 && Block(runs[j], values[j])
  }

  lemma {:induction false} ExcessAppend(s: seq<real>, t: seq<real>, v: real)
    ensures Excess(s + t, v) == Excess(s, v) + Excess(t, v)
  {
    if s == [] {
      assert s + t == t;
    } else {
      assert (s + t)[1..] == s[1..] + t;
      ExcessAppend(s[1..], t, v);
    }
  }

  lemma {:induction false} ExcessShift(s: seq<real>, v: real, u: real)
    ensures Excess(s, u) == Excess(s, v) + Multiple(v - u, |s|)
  {
    if s == [] {
    } else {
      ExcessShift(s[1..], v, u);
    }
  }

  lemma {:induction false} RepeatIsBlock(x: real, n: nat)
    ensures Block(Repeat(x, n), x)
  {
    forall k | 0 <= k <= n ensures Excess(Repeat(x, n)[..k], x) == 0.0 {
      RepeatExcess(x, k);
      assert Repeat(x, n)[..k] == Repeat(x, k);
    }
    assert Repeat(x, n)[..n] == Repeat(x, n);
  }

  lemma {:induction false} RepeatExcess(x: real, n: nat)
    ensures Excess(Repeat(x, n), x) == 0.0
  {
    if n == 0 {
    } else {
      assert Repeat(x, n)[1..] == Repeat(x, n - 1);
      RepeatExcess(x, n - 1);
    }
  }


  lemma PoolPrefix(run: seq<real>, next: seq<real>, a: real, b: real, v: real, k: nat)
    requires Block(run, a) && Block(next, b) && b < v < a && k <= |run| + |next|
    requires Multiple(a - v, |run|) == Multiple(v - b, |next|)
    ensures Excess((run + next)[..k], v) >= 0.0
    ensures k == |run| + |next| ==> Excess(run + next, v) == 0.0
  {
    if k < |run| {
      assert (run + next)[..k] == run[..k];
      ExcessShift(run[..k], a, v);
      MultipleSign(a - v, k);
    } else {
      var t := k - |run|;
      assert (run + next)[..k] == run + next[..t];
      assert run[..|run|] == run && (t == |next| ==> next[..t] == next);
      ExcessAppend(run, next[..t], v);
      ExcessShift(run, a, v);
      ExcessShift(next[..t], b, v);
      MultipleSplits(v - b, t, |next| - t);
      MultipleSign(v - b, |next| - t);
      MultipleAdds(0.0, v - b, t);
      MultipleZero(t);
    }
  }

  lemma {:induction false} MultipleZero(n: nat)
    ensures Multiple(0.0, n) == 0.0
  {
    if n == 0 {
    } else {
      MultipleZero(n - 1);
    }
  }

  /** Pooling two adjacent blocks that violate the order gives a block again. */
  lemma PoolIsBlock(run: seq<real>, next: seq<real>, a: real, b: real)
    requires |run| > 0 && |next| > 0
    requires Block(run, a) && Block(next, b) && a > b
    ensures b < PooledMean(a, |run|, b, |next|) < a
    ensures Block(run + next, PooledMean(a, |run|, b, |next|))
  {
    hide PooledMean;
    var v := PooledMean(a, |run|, b, |next|);
    PooledBetween(a, |run|, b, |next|);
    forall k | 0 <= k <= |run + next| ensures Excess((run + next)[..k], v) >= 0.0 {
      PoolPrefix(run, next, a, b, v, k);
    }
    PoolPrefix(run, next, a, b, v, |run| + |next|);
  }

  // ---- why blocks are optimal ---------------------------------------------------------------------

  function Cross(e: seq<real>, g: seq<real>, h: seq<real>): real
    requires |e| == |g| == |h|
  {
    if e == [] then 0.0 else Times(e[0] - g[0], g[0] - h[0]) + Cross(e[1..], g[1..], h[1..])
  }

  lemma {:induction false} SseSplit(e: seq<real>, g: seq<real>, h: seq<real>)
    requires |e| == |g| == |h|
    ensures Sse(e, h) == Sse(e, g) + 2.0 * Cross(e, g, h) + Sse(g, h)
  {
    if e == [] {
    } else {
      hide Times, Square;
      SseSplit(e[1..], g[1..], h[1..]);
      SquareOfSum(e[0] - g[0], g[0] - h[0]);
      assert e[0] - h[0] == (e[0] - g[0]) + (g[0] - h[0]);
    }
  }

  lemma {:induction false} CrossAppend(e: seq<real>, g: seq<real>, h: seq<real>,
                                      e': seq<real>, g': seq<real>, h': seq<real>)
    requires |e| == |g| == |h| && |e'| == |g'| == |h'|
    ensures Cross(e + e', g + g', h + h') == Cross(e, g, h) + Cross(e', g', h')
  {
    if e == [] {
      assert e + e' == e' && g + g' == g' && h + h' == h';
    } else {
      assert (e + e')[1..] == e[1..] + e' && (g + g')[1..] == g[1..] + g' && (h + h')[1..] == h[1..] + h';
      CrossAppend(e[1..], g[1..], h[1..], e', g', h');
    }
  }

  /** Summation by parts: the excess carried out of a prefix is never negative, and it is only
      ever paid out against larger values of a non-decreasing competitor. */
  lemma {:induction false} BlockBeats(e: seq<real>, v: real, h: seq<real>, carry: real, floor: real)
    requires |e| == |h| && NonDecreasing(h)
    requires carry >= 0.0 && (h != [] ==> floor <= h[0])
    requires carry + Excess(e, v) == 0.0
    requires forall k :: 0 <= k <= |e| ==> carry + Excess(e[..k], v) >= 0.0
    ensures Times(carry, v - floor) + Cross(e, Repeat(v, |e|), h) >= 0.0
  {
    hide Times;
    if e == [] {
      TimesZero(v - floor);
    } else {
      var carry' := carry + (e[0] - v);
      assert Excess(e[..1], v) == e[0] - v;
      forall k | 0 <= k <= |e[1..]| ensures carry' + Excess(e[1..][..k], v) >= 0.0 {
        assert e[..k + 1][1..] == e[1..][..k];
        assert Excess(e[..k + 1], v) == (e[0] - v) + Excess(e[1..][..k], v);
      }
      BlockBeats(e[1..], v, h[1..], carry', h[0]);
      assert Repeat(v, |e|)[1..] == Repeat(v, |e[1..]|);
      CarryStep(carry, floor, e[0] - v, v, h[0]);
    }
  }

  lemma {:induction false} BlocksBeat(runs: seq<seq<real>>, values: seq<real>, counts: seq<nat>, h: seq<real>)
    requires Blocks(runs, values, counts)
    requires |h| == |Flatten(runs)| && NonDecreasing(h)
    ensures |Expand(values, counts)| == |h|
    ensures Cross(Flatten(runs), Expand(values, counts), h) >= 0.0
  {
    if runs == [] {
    } else {
      var n := counts[0];
      assert Block(runs[0], values[0]);
      BlockBeats(runs[0], values[0], h[..n], 0.0, h[0]);
      TimesZero(values[0] - h[0]);
      assert Blocks(runs[1..], values[1..], counts[1..]);
      BlocksBeat(runs[1..], values[1..], counts[1..], h[n..]);
      assert h == h[..n] + h[n..];
      CrossAppend(runs[0], Repeat(values[0], n), h[..n],
                  Flatten(runs[1..]), Expand(values[1..], counts[1..]), h[n..]);
    }
  }

  /** A monotone list of blocks is the answer: every competitor pays at least its own squared
      distance from the block fit on top of the block fit's error. */
  lemma BlocksAreOptimal(runs: seq<seq<real>>, values: seq<real>, counts: seq<nat>)
    requires Blocks(runs, values, counts) && NonDecreasing(values)
    ensures IsLeastSquaresFit(Flatten(runs), Expand(values, counts))
  {
    var e, g := Flatten(runs), Expand(values, counts);
    ExpandShape(runs, values, counts);
    forall h | |h| == |e| && NonDecreasing(h) ensures Sse(e, g) <= Sse(e, h) {
      BlocksBeat(runs, values, counts, h);
      SseSplit(e, g, h);
      SseSign(g, h);
    }
  }

  lemma {:induction false} ExpandShape(runs: seq<seq<real>>, values: seq<real>, counts: seq<nat>)
    requires Blocks(runs, values, counts) && NonDecreasing(values)
    ensures |Expand(values, counts)| == |Flatten(runs)|
    ensures NonDecreasing(Expand(values, counts))
    ensures forall i :: 0 <= i < |Expand(values, counts)| ==> values[0] <= Expand(values, counts)[i]
  {
    if runs == [] {
    } else {
      assert Blocks(runs[1..], values[1..], counts[1..]);
      assert NonDecreasing(values[1..]);
      ExpandShape(runs[1..], values[1..], counts[1..]);
    }
  }

  // ---- conservation and range -----------------------------------------------------------------------

  lemma {:induction false} SumAppend(s: seq<real>, t: seq<real>)
    ensures Sum(s + t) == Sum(s) + Sum(t)
  {
    if s == [] {
      assert s + t == t;
    } else {
      assert (s + t)[1..] == s[1..] + t;
      SumAppend(s[1..], t);
    }
  }

  lemma {:induction false} ExcessIsSum(s: seq<real>, v: real)
    ensures Excess(s, v) == Sum(s) - Sum(Repeat(v, |s|))
  {
    if s == [] {
    } else {
      assert Repeat(v, |s|)[1..] == Repeat(v, |s[1..]|);
      ExcessIsSum(s[1..], v);
    }
  }

  lemma {:induction false} BlocksKeepSum(runs: seq<seq<real>>, values: seq<real>, counts: seq<nat>)
    requires Blocks(runs, values, counts)
    ensures Sum(Expand(values, counts)) == Sum(Flatten(runs))
  {
    if runs == [] {
    } else {
      assert Blocks(runs[1..], values[1..], counts[1..]);
      BlocksKeepSum(runs[1..], values[1..], counts[1..]);
      assert Block(runs[0], values[0]);
      ExcessIsSum(runs[0], values[0]);
      SumAppend(runs[0], Flatten(runs[1..]));
      SumAppend(Repeat(values[0], counts[0]), Expand(values[1..], counts[1..]));
    }
  }

  ghost predicate Within(s: seq<real>, lo: real, hi: real) {
    forall i :: 0 <= i < |s| ==> lo <= s[i] <= hi
  }

  /** Every interval that holds the data holds the values. */
  ghost predicate InRangeOf(values: seq<real>, data: seq<real>) {
    forall lo, hi :: Within(data, lo, hi) ==> Within(values, lo, hi)
  }

  lemma {:induction false} ExpandWithin(values: seq<real>, counts: seq<nat>, lo: real, hi: real)
    requires |values| == |counts| && Within(values, lo, hi)
    ensures Within(Expand(values, counts), lo, hi)
  {
    if values == [] {
    } else {
      ExpandWithin(values[1..], counts[1..], lo, hi);
    }
  }

  // ---- list surgery ------------------------------------------------------------------------------------

  lemma {:induction false} FlattenPool(runs: seq<seq<real>>, i: nat)
    requires i + 1 < |runs|
    ensures Flatten(runs[..i] + [runs[i] + runs[i + 1]] + runs[i + 2..]) == Flatten(runs)
  {
    var pooled := runs[..i] + [runs[i] + runs[i + 1]] + runs[i + 2..];
    if i == 0 {
      assert pooled[1..] == runs[1..][1..];
      assert runs[1..][0] == runs[1];
      assert Flatten(runs) == runs[0] + (runs[1] + Flatten(runs[2..]));
    } else {
      FlattenPool(runs[1..], i - 1);
      assert pooled[1..] == runs[1..][..i - 1] + [runs[1..][i - 1] + runs[1..][i]] + runs[1..][i + 1..];
    }
  }

  lemma {:induction false} ExpandAppend(values: seq<real>, counts: seq<nat>, v: real, c: nat)
    requires |values| == |counts|
    ensures Expand(values + [v], counts + [c]) == Expand(values, counts) + Repeat(v, c)
  {
    if values == [] {
      assert values + [v] == [v] && counts + [c] == [c];
      assert [v][1..] == [] && [c][1..] == [];
    } else {
      assert (values + [v])[1..] == values[1..] + [v] && (counts + [c])[1..] == counts[1..] + [c];
      ExpandAppend(values[1..], counts[1..], v, c);
    }
  }

  ghost function Singles(y: seq<real>, weights: seq<nat>): (runs: seq<seq<real>>)
    requires |y| == |weights|
    ensures |runs| == |y| && forall j :: 0 <= j < |y| ==> runs[j] == Repeat(y[j], weights[j])
    ensures Flatten(runs) == Expand(y, weights)
  {
    if y == [] then []
    else
      var rest := Singles(y[1..], weights[1..]);
      assert ([Repeat(y[0], weights[0])] + rest)[1..] == rest;
      [Repeat(y[0], weights[0])] + rest
  }

  function Splice<T>(s: seq<T>, i: nat, x: T): (r: seq<T>)
    requires i + 1 < |s|
    ensures |r| == |s| - 1
  {
    s[..i] + [x] + s[i + 2..]
  }

  /** One splice keeps every block a block, and the pooled value lies between the two it replaces. */
  lemma SpliceKeepsBlocks(runs: seq<seq<real>>, values: seq<real>, counts: seq<nat>, i: nat, pooled: real)
    requires Blocks(runs, values, counts)
    requires i + 1 < |values| && values[i] > values[i + 1]
    requires pooled == PooledMean(values[i], counts[i], values[i + 1], counts[i + 1])
    ensures values[i + 1] < pooled < values[i]
    ensures Blocks(Splice(runs, i, runs[i] + runs[i + 1]),
                   Splice(values, i, pooled),
                   Splice(counts, i, counts[i] + counts[i + 1]))
    ensures Flatten(Splice(runs, i, runs[i] + runs[i + 1])) == Flatten(runs)
  {
    hide PooledMean;
    FlattenPool(runs, i);
    assert Block(runs[i], values[i]) && Block(runs[i + 1], values[i + 1]);
    PoolIsBlock(runs[i], runs[i + 1], values[i], values[i + 1]);
    var runs', values' := Splice(runs, i, runs[i] + runs[i + 1]), Splice(values, i, pooled);
    var counts' := Splice(counts, i, counts[i] + counts[i + 1]);
    forall j | 0 <= j < |runs'| ensures |runs'[j]| == counts'[j] > 0 && Block(runs'[j], values'[j]) {
      if j < i {
        assert Block(runs[j], values[j]);
      } else if j > i {
        assert Block(runs[j + 1], values[j + 1]);
      }
    }
  }

  /** What the loop keeps: the lists describe a pooling of the data into blocks. */
  ghost predicate Pooling(runs: seq<seq<real>>, values: seq<real>, counts: seq<nat>, y: seq<real>, weights: seq<nat>)
    requires |y| == |weights|
  {
    && Blocks(runs, values, counts)
    && Flatten(runs) == Expand(y, weights)
    && InRangeOf(values, y)
  }

  lemma StartsAsPooling(y: seq<real>, weights: seq<nat>)
    requires |y| == |weights|
    requires forall j :: 0 <= j < |weights| ==> weights[j] > 0
    ensures Pooling(Singles(y, weights), y, weights, y, weights)
  {
    forall j | 0 <= j < |y| ensures Block(Singles(y, weights)[j], y[j]) {
      RepeatIsBlock(y[j], weights[j]);
    }
  }

  lemma SpliceKeepsPooling(runs: seq<seq<real>>, values: seq<real>, counts: seq<nat>, y: seq<real>,
                           weights: seq<nat>, i: nat, pooled: real)
    requires |y| == |weights| && |counts| == |values|
    requires Pooling(runs, values, counts, y, weights)
    requires i + 1 < |values| && values[i] > values[i + 1]
    requires counts[i] > 0 && counts[i + 1] > 0
    requires pooled == PooledMean(values[i], counts[i], values[i + 1], counts[i + 1])
    ensures values[i + 1] < pooled < values[i]
    ensures Pooling(Splice(runs, i, runs[i] + runs[i + 1]), Splice(values, i, pooled),
                    Splice(counts, i, counts[i] + counts[i + 1]), y, weights)
  {
    SpliceKeepsBlocks(runs, values, counts, i, pooled);
    hide PooledMean, Blocks;
    var values' := Splice(values, i, pooled);
    forall lo, hi | Within(y, lo, hi) ensures Within(values', lo, hi) {
      assert Within(values, lo, hi);
    }
  }

  lemma PoolingIsAnswer(runs: seq<seq<real>>, values: seq<real>, counts: seq<nat>, y: seq<real>, weights: seq<nat>)
    requires |y| == |weights| && |counts| == |values|
    requires Pooling(runs, values, counts, y, weights) && NonDecreasing(values)
    ensures IsLeastSquaresFit(Expand(y, weights), Expand(values, counts))
    ensures Sum(Expand(values, counts)) == Sum(Expand(y, weights))
    ensures InRangeOf(Expand(values, counts), y)
  {
    BlocksAreOptimal(runs, values, counts);
    BlocksKeepSum(runs, values, counts);
    forall lo, hi | Within(y, lo, hi) ensures Within(Expand(values, counts), lo, hi) {
      ExpandWithin(values, counts, lo, hi);
    }
  }

  // ---- the loop ------------------------------------------------------------------------------------------

  method Spread(values: seq<real>, counts: seq<nat>) returns (out: seq<real>)
    requires |values| == |counts|
    ensures out == Expand(values, counts)
  {
    out := [];
    for j := 0 to |values|
      invariant out == Expand(values[..j], counts[..j])
    {
      assert values[..j + 1] == values[..j] + [values[j]] && counts[..j + 1] == counts[..j] + [counts[j]];
      ExpandAppend(values[..j], counts[..j], values[j], counts[j]);
      out := out + Repeat(values[j], counts[j]);
    }
    assert values[..|values|] == values && counts[..|counts|] == counts;
  }

  method Fit(y: seq<real>, weights: seq<nat>) returns (out: seq<real>)
    requires |y| == |weights|
    requires forall j :: 0 <= j < |weights| ==> weights[j] > 0
    ensures IsLeastSquaresFit(Expand(y, weights), out)
    ensures Sum(out) == Sum(Expand(y, weights))
    ensures InRangeOf(out, y)
  {
    hide Pooling, PooledMean, IsLeastSquaresFit, InRangeOf;
    StartsAsPooling(y, weights);
    var values, counts := y, weights;
    ghost var runs := Singles(y, weights);
    var i := 0;
    while i < |values| - 1
      invariant |runs| == |counts| == |values|
      invariant forall j :: 0 <= j < |counts| ==> counts[j] > 0
      invariant Pooling(runs, values, counts, y, weights)
      invariant 0 <= i && (values != [] ==> i < |values|)
      invariant forall j, k :: 0 <= j <= k <= i && k < |values| ==> values[j] <= values[k]
      decreases 2 * |values| - i
    {
      if values[i] <= values[i + 1] {
        i := i + 1;
        continue;
      }
      var total := counts[i] + counts[i + 1];
      var pooled := PooledMean(values[i], counts[i], values[i + 1], counts[i + 1]);
      SpliceKeepsPooling(runs, values, counts, y, weights, i, pooled);
      runs := Splice(runs, i, runs[i] + runs[i + 1]);
      values := Splice(values, i, pooled);
      counts := Splice(counts, i, total);
      if i > 0 {
        i := i - 1;
      }
    }
    PoolingIsAnswer(runs, values, counts, y, weights);
    out := Spread(values, counts);
  }
}
