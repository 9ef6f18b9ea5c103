/** `fit_isotonic` end to end. */
module Isotonic {
  import opened Sorting
  import opened RealProducts
  import opened Pava
  import opened Bucketing
  import opened Rounding
  import opened CalibrationCurve

  const CALIBRATION_BLOCKS := 256

  /** The rate is the mean of `count` labels of which `hits` are hits. */
  ghost predicate IsMean(rate: real, hits: nat, count: nat) {
    count > 0 && rate * (count as real) == hits as real
  }

  ghost predicate AreMeans(rates: seq<real>, hits: seq<nat>, counts: seq<nat>) {
    |rates| == |hits| == |counts| && forall k :: 0 <= k < |rates| ==> IsMean(rates[k], hits[k], counts[k])
  }

  /** `hits / count` per pool. */
  function Rates(hits: seq<nat>, counts: seq<nat>): (r: seq<real>)
    requires |hits| == |counts| && forall k :: 0 <= k < |counts| ==> counts[k] > 0
    ensures AreMeans(r, hits, counts)
  {
    var r := seq(|hits|, k requires 0 <= k < |hits| => (hits[k] as real) / (counts[k] as real));
    RatesAreMeans(r, hits, counts);
    r
  }

  lemma RatesAreMeans(r: seq<real>, hits: seq<nat>, counts: seq<nat>)
    requires |r| == |hits| == |counts|
    requires forall k :: 0 <= k < |r| ==> counts[k] > 0 && r[k] == (hits[k] as real) / (counts[k] as real)
    ensures AreMeans(r, hits, counts)
  {
    forall k | 0 <= k < |r| ensures IsMean(r[k], hits[k], counts[k]) {
      var h, c := hits[k] as real, counts[k] as real;
      assert (h / c) * c == h;
    }
  }

  lemma MeanIsUnique(a: real, b: real, hits: nat, count: nat)
    requires IsMean(a, hits, count) && IsMean(b, hits, count)
    ensures a == b
  {
    MeanIsRatio(a, hits as real, count as real);
    MeanIsRatio(b, hits as real, count as real);
  }

  lemma MeanIsRatio(rate: real, h: real, c: real)
    requires c > 0.0 && rate * c == h
    ensures rate == h / c
  {
  }

  lemma MeansAreUnique(a: seq<real>, b: seq<real>, hits: seq<nat>, counts: seq<nat>)
    requires AreMeans(a, hits, counts) && AreMeans(b, hits, counts)
    ensures a == b
  {
    forall k | 0 <= k < |a| ensures a[k] == b[k] {
      MeanIsUnique(a[k], b[k], hits[k], counts[k]);
    }
  }

  lemma MeanRange(rate: real, hits: nat, count: nat)
    requires IsMean(rate, hits, count) && hits <= count
    ensures 0.0 <= rate <= 1.0
  {
    MeanIsRatio(rate, hits as real, count as real);
    RatioRange(hits as real, count as real);
  }

  lemma RatioRange(h: real, c: real)
    requires 0.0 <= h <= c && c > 0.0
    ensures 0.0 <= h / c <= 1.0
  {
  }

  lemma RatesAreProbabilities(rates: seq<real>, hits: seq<nat>, counts: seq<nat>)
    requires AreMeans(rates, hits, counts) && forall k :: 0 <= k < |counts| ==> hits[k] <= counts[k]
    ensures Within(rates, 0.0, 1.0)
  {
    forall k | 0 <= k < |rates| ensures 0.0 <= rates[k] <= 1.0 {
      assert IsMean(rates[k], hits[k], counts[k]);
      MeanRange(rates[k], hits[k], counts[k]);
    }
  }

  /** Spread over the rows they stand for, the rates add up to the hits. */
  lemma {:induction false} MeansAddUp(rates: seq<real>, hits: seq<nat>, counts: seq<nat>)
    requires AreMeans(rates, hits, counts)
    ensures Sum(Expand(rates, counts)) == SumNat(hits) as real
  {
    if rates == [] {
    } else {
      var n := |rates| - 1;
      MeansAddUp(rates[..n], hits[..n], counts[..n]);
      assert rates == rates[..n] + [rates[n]] && counts == counts[..n] + [counts[n]];
      assert IsMean(rates[n], hits[n], counts[n]);
      hide AreMeans, IsMean, Sum, Expand;
      OneMoreMean(rates[..n], counts[..n], rates[n], hits[n], counts[n]);
    }
  }

  lemma OneMoreMean(rates: seq<real>, counts: seq<nat>, rate: real, hits: nat, count: nat)
    requires |rates| == |counts| && IsMean(rate, hits, count)
    ensures Sum(Expand(rates + [rate], counts + [count])) == Sum(Expand(rates, counts)) + hits as real
  {
    ExpandAppend(rates, counts, rate, count);
    SumAppend(Expand(rates, counts), Repeat(rate, count));
    SumOfRepeat(rate, count);
  }

  lemma {:induction false} SumOfRepeat(x: real, n: nat)
    ensures Sum(Repeat(x, n)) == Multiple(x, n) == x * (n as real)
  {
    MultipleIsProduct(x, n);
    if n == 0 {
    } else {
      SumOfRepeat(x, n - 1);
      assert Repeat(x, n)[1..] == Repeat(x, n - 1);
    }
  }

  lemma {:induction false} UnitWeights(y: seq<real>, ones: seq<nat>)
    requires |y| == |ones| && forall k :: 0 <= k < |ones| ==> ones[k] == 1
    ensures Expand(y, ones) == y
  {
    if y == [] {
    } else {
      UnitWeights(y[1..], ones[1..]);
      assert y == [y[0]] + y[1..];
    }
  }

  ghost predicate IsMax(m: real, s: seq<real>) {
    m in s && forall k :: 0 <= k < |s| ==> s[k] <= m
  }

  lemma SortedScores(scores: seq<real>)
    ensures IsPermutation(ArgSort(scores), |scores|)
    ensures forall k :: 0 <= k < |ArgSort(scores)| ==> ArgSort(scores)[k] < |scores|
    ensures NonDecreasing(Take(scores, ArgSort(scores)))
    ensures scores != [] ==> IsMax(Take(scores, ArgSort(scores))[|scores| - 1], scores)
  {
    var order := ArgSort(scores);
    ArgSortOrders(scores);
    PermutationFacts(order, |scores|);
    hide ArgSort, IsPermutation, Distinct;
    assert forall i, j :: 0 <= i < j < |order| ==> scores[order[i]] <= scores[order[j]];
    if scores != [] { LastIsMax(scores, order); }
  }

  lemma LastIsMax(scores: seq<real>, order: seq<nat>)
    requires |order| == |scores| > 0 && forall x: nat :: x < |scores| ==> x in order
    requires forall k :: 0 <= k < |order| ==> order[k] < |scores|
    requires forall i, j :: 0 <= i < j < |order| ==> scores[order[i]] <= scores[order[j]]
    ensures IsMax(scores[order[|order| - 1]], scores)
  {
    forall k: nat | k < |scores| ensures scores[k] <= scores[order[|order| - 1]] {
      assert k in order;
      var p :| 0 <= p < |order| && order[p] == k;
    }
  }

  /** A column in the order of a stable sort by score. */
  function ByScore<T>(v: seq<T>, scores: seq<real>): (r: seq<T>)
    requires |v| == |scores|
    ensures |r| == |v|
  {
    SortedScores(scores);
    ArgSortOrders(scores);
    PermutationFacts(ArgSort(scores), |scores|);
    Take(v, ArgSort(scores))
  }

  /** The curve is the rounded, merged least-squares monotone fit of the pools' mean labels. */
  ghost predicate IsCalibration(s: seq<real>, labels: seq<bool>, maxBlocks: int, curve: seq<Point>)
    requires |labels| == |s|
  {
    exists uppers, hits, counts, fitted ::
      && Pools(s, labels, maxBlocks, if maxBlocks > 0 then maxBlocks else 0, uppers, hits, counts)
      && |fitted| == |uppers|
      && FitsRates(hits, counts, fitted)
      && curve == Curve(uppers, fitted)
  }

  ghost predicate FitsRates(hits: seq<nat>, counts: seq<nat>, fitted: seq<real>) {
    exists means :: AreMeans(means, hits, counts) && IsLeastSquaresFit(means, fitted)
  }

  /** The description leaves no freedom: given rows have one calibration curve. */
  lemma CalibrationIsUnique(s: seq<real>, labels: seq<bool>, maxBlocks: int, a: seq<Point>, b: seq<Point>)
    requires |labels| == |s|
    requires IsCalibration(s, labels, maxBlocks, a) && IsCalibration(s, labels, maxBlocks, b)
    ensures a == b
  {
    var n := if maxBlocks > 0 then maxBlocks else 0;
    var u, h, c, f :|
      Pools(s, labels, maxBlocks, n, u, h, c) && |f| == |u| && FitsRates(h, c, f) && a == Curve(u, f);
    var u', h', c', f' :|
      Pools(s, labels, maxBlocks, n, u', h', c') && |f'| == |u'| && FitsRates(h', c', f') && b == Curve(u', f');
    hide Pools, Curve, FitsRates;
    PoolsAreUnique(s, labels, maxBlocks, n, u, h, c, u', h', c');
    RatesFitIsUnique(h, c, f, f');
  }

  lemma RatesFitIsUnique(hits: seq<nat>, counts: seq<nat>, a: seq<real>, b: seq<real>)
    requires FitsRates(hits, counts, a) && FitsRates(hits, counts, b)
    ensures a == b
  {
    var m :| AreMeans(m, hits, counts) && IsLeastSquaresFit(m, a);
    var m' :| AreMeans(m', hits, counts) && IsLeastSquaresFit(m', b);
    hide IsLeastSquaresFit, AreMeans;
    MeansAreUnique(m, m', hits, counts);
    FitIsUnique(m, a, b);
  }

  /** The two emission loops. */
  method EmitCurve(uppers: seq<real>, fitted: seq<real>) returns (curve: seq<Point>)
    requires |uppers| == |fitted|
    ensures curve == Curve(uppers, fitted)
  {
    hide EmitOne, MergeOne;
    var blocks: seq<Point> := [];
    for k := 0 to |uppers|
      invariant blocks == Emit(uppers[..k], fitted[..k])
    {
      assert Init(uppers[..k + 1]) == uppers[..k] && Init(fitted[..k + 1]) == fitted[..k];
      blocks := EmitOne(blocks, uppers[k], fitted[k]);
    }
    assert uppers[..|uppers|] == uppers && fitted[..|fitted|] == fitted;
    var merged: seq<Point> := [];
    for k := 0 to |blocks|
      invariant merged == Merge(blocks[..k])
    {
      assert Init(blocks[..k + 1]) == blocks[..k];
      merged := MergeOne(merged, blocks[k]);
    }
    assert blocks[..|blocks|] == blocks;
    curve := merged;
  }

  /** The pools there are, whoever computes them. */
  lemma {:induction false} PoolsExist(s: seq<real>, labels: seq<bool>, blocks: int, b: nat)
    returns (uppers: seq<real>, hits: seq<nat>, counts: seq<nat>)
    requires |labels| == |s| && NonDecreasing(s) && blocks > 0 && b <= blocks
    ensures Bucketed(s, labels, blocks, b, uppers, hits, counts)
  {
    hide Bucketed, NonDecreasing;
    if b == 0 {
      uppers, hits, counts := [], [], [];
      BucketedStart(s, labels, blocks);
    } else {
      uppers, hits, counts := PoolsExist(s, labels, blocks, b - 1);
      var rows := Rows(|s|, blocks, b - 1, |s|);
      if rows == [] {
        BucketedSkip(s, labels, blocks, b - 1, uppers, hits, counts);
      } else {
        BucketedStep(s, labels, blocks, b - 1, rows, uppers, hits, counts);
        var upper, hit := MaxAt(s, rows), HitsAt(labels, rows);
        if uppers != [] && upper == uppers[|uppers| - 1] {
          hits, counts := AddToLast(hits, hit), AddToLast(counts, |rows|);
        } else {
          uppers, hits, counts := uppers + [upper], hits + [hit], counts + [|rows|];
        }
      }
    }
  }

  /** Each pool's rate is the mean of its rows' labels: spread over the rows they stand for, the rates add up to
      the labels that are hits, row for row. */
  lemma RatesKeepHits(s: seq<real>, labels: seq<bool>, blocks: nat,
                      uppers: seq<real>, hits: seq<nat>, counts: seq<nat>, rates: seq<real>)
    requires |labels| == |s| && NonDecreasing(s) && blocks > 0
    requires Pools(s, labels, blocks, blocks, uppers, hits, counts) && AreMeans(rates, hits, counts)
    ensures SumNat(counts) == |s|
    ensures Sum(Expand(rates, counts)) == CountTrue(labels) as real
  {
    var u, h, c := PoolsExist(s, labels, blocks, blocks);
    BucketedEnd(s, labels, blocks, u, h, c);
    PoolsAreUnique(s, labels, blocks, blocks, uppers, hits, counts, u, h, c);
    MeansAddUp(rates, hits, counts);
  }

  /** Sorting rows by score permutes their labels, so it keeps the hits. */
  lemma ByScoreKeepsHits(y: seq<bool>, scores: seq<real>)
    requires |y| == |scores|
    ensures CountTrue(ByScore(y, scores)) == CountTrue(y)
    ensures multiset(ByScore(y, scores)) == multiset(y)
  {
    ArgSortOrders(scores);
    PermutationFacts(ArgSort(scores), |scores|);
    TakePermutes(ArgSort(scores), Indices(|scores|), y);
    assert Take(y, Indices(|scores|)) == y;
    var f := (s: seq<bool>) => CountTrue(s);
    forall s, t ensures f(s + t) == f(t + s) {
      CountTrueAppend(s, t);
      CountTrueAppend(t, s);
    }
    forall r, s, t | f(s) == f(t) ensures f(r + s) == f(r + t) {
      CountTrueAppend(r, s);
      CountTrueAppend(r, t);
    }
    PermutationAddsUp(ByScore(y, scores), y, f);
  }

  /** Scores and labels are sorted together, by one stable sort. */
  lemma SortedTogether<T>(v: seq<T>, scores: seq<real>) returns (order: seq<nat>)
    requires |v| == |scores|
    ensures IsPermutation(order, |scores|) && |order| == |scores|
    ensures forall k :: 0 <= k < |order| ==>
              order[k] < |scores| && ByScore(v, scores)[k] == v[order[k]] && ByScore(scores, scores)[k] == scores[order[k]]
    ensures forall i, k :: 0 <= i < k < |order| ==>
              scores[order[i]] < scores[order[k]] || (scores[order[i]] == scores[order[k]] && order[i] < order[k])
  {
    order := ArgSort(scores);
    SortedScores(scores);
    PermutationFacts(order, |scores|);
    ArgSortOrders(scores);
    forall i, k | 0 <= i < k < |order|
      ensures scores[order[i]] < scores[order[k]] || (scores[order[i]] == scores[order[k]] && order[i] < order[k])
    {
      assert Ahead(scores, order[i], order[k]);
    }
  }

  lemma PoolsGiveRates(s: seq<real>, labels: seq<bool>, blocks: int, b: nat,
                       uppers: seq<real>, hits: seq<nat>, counts: seq<nat>)
    requires |labels| == |s| && Pools(s, labels, blocks, b, uppers, hits, counts)
    ensures Increasing(uppers) && |uppers| == |hits| == |counts|
    ensures forall k :: 0 <= k < |counts| ==> counts[k] > 0 && hits[k] <= counts[k]
  {
  }

  method FitIsotonic(scores: seq<real>, y: seq<bool>, maxBlocks: int := CALIBRATION_BLOCKS)
    returns (curve: seq<Point>)
    requires |y| == |scores|
    ensures IsCalibration(ByScore(scores, scores), ByScore(y, scores), maxBlocks, curve)
    ensures |curve| <= if maxBlocks > 0 then maxBlocks else 0
    ensures maxBlocks > 0 && scores != [] ==> exists top :: IsMax(top, scores) && WellFormed(curve, top)
  {
    SortedScores(scores);
    var s, labels := ByScore(scores, scores), ByScore(y, scores);
    var uppers, hits, counts := PoolBuckets(s, labels, maxBlocks);
    PoolsGiveRates(s, labels, maxBlocks, if maxBlocks > 0 then maxBlocks else 0, uppers, hits, counts);
    hide Pools, Curve, IsLeastSquaresFit, WellFormed, Increasing, AreMeans;
    var means := Rates(hits, counts);
    RatesAreProbabilities(means, hits, counts);
    var ones := seq(|means|, _ => 1);
    UnitWeights(means, ones);
    var fitted := Pava.Fit(means, ones);
    FitKeepsRange(means, fitted);
    assert FitsRates(hits, counts, fitted);
    curve := EmitCurve(uppers, fitted);
    assert IsCalibration(s, labels, maxBlocks, curve);
    if uppers != [] {
      CurveIsWellFormed(uppers, fitted);
    } else {
      EmptyCurve(uppers, fitted);
    }
  }

  /** At the resolution the tool chooses. */
  method FitByDefault(scores: seq<real>, y: seq<bool>) returns (curve: seq<Point>)
    requires |y| == |scores|
    ensures IsCalibration(ByScore(scores, scores), ByScore(y, scores), 256, curve) && |curve| <= 256
  {
    curve := FitIsotonic(scores, y);
  }

  lemma FitKeepsRange(data: seq<real>, fit: seq<real>)
    requires IsLeastSquaresFit(data, fit) && InRangeOf(fit, data) && Within(data, 0.0, 1.0)
    ensures |fit| == |data| && NonDecreasing(fit) && Within(fit, 0.0, 1.0)
  {
  }

  lemma EmptyCurve(uppers: seq<real>, fitted: seq<real>)
    requires uppers == [] == fitted
    ensures Curve(uppers, fitted) == []
  {
  }

  // ---- what the gate reads off the tool's curves -----------------------------------------------------------

  /** What the gate reads off the curve the tool returns, which is the one named here: the merge's promise, the
      reading at rounded bounds and the reading at the pools' own scores, each with its exact condition on the
      pools and their fit. */
  lemma CalibrationReadsExactly(s: seq<real>, labels: seq<bool>, maxBlocks: nat,
                                uppers: seq<real>, hits: seq<nat>, counts: seq<nat>, fitted: seq<real>)
    requires |labels| == |s| && 0 < |fitted| == |uppers|
    requires Pools(s, labels, maxBlocks, maxBlocks, uppers, hits, counts) && FitsRates(hits, counts, fitted)
    ensures IsCalibration(s, labels, maxBlocks, Curve(uppers, fitted))
    ensures Rising(uppers, fitted) && Curve(uppers, fitted) != []
    ensures forall x :: CalibrateCue(Curve(uppers, fitted), x) == Read(uppers, fitted, x)
    ensures KeepsHigher(uppers, fitted) <==> !exists t: nat, k: nat :: Loses(uppers, fitted, t, k)
    ensures ReadsEveryPool(uppers, fitted) <==> CollisionsAgree(uppers, fitted)
    ensures CollisionsAgree(uppers, fitted) ==>
              forall k: nat :: k < |uppers| ==> (ReadsOwnScore(uppers, fitted, k) <==> KeepsOwnScore(uppers, fitted, k))
  {
    PoolsGiveRates(s, labels, maxBlocks, maxBlocks, uppers, hits, counts);
    hide Pools, ReadsEveryPool, CollisionsAgree, KeepsHigher, Loses, ReadsOwnScore, KeepsOwnScore, Curve;
    CurveIsNotEmpty(uppers, fitted);
    hide Rising, FitsRates;
    KeepsHigherExactly(uppers, fitted);
    CurveReadsExactly(uppers, fitted);
    if CollisionsAgree(uppers, fitted) {
      forall k: nat | k < |uppers| ensures ReadsOwnScore(uppers, fitted, k) <==> KeepsOwnScore(uppers, fitted, k) {
        OwnScoreReadsExactly(uppers, fitted, k);
      }
    }
  }

  // ---- inputs that misread -----------------------------------------------------------------------------------

  /** Scores that already rise keep their places. */
  lemma SortedIsUntouched<T>(v: seq<T>, scores: seq<real>)
    requires |v| == |scores| && NonDecreasing(scores)
    ensures ByScore(v, scores) == v
  {
    var ahead := (i: nat, j: nat) => Ahead(scores, i, j);
    ArgSortOrders(scores);
    ChainUnique(ArgSort(scores), Indices(|scores|), ahead);
  }

  function Ones(n: nat): (r: seq<nat>)
    ensures |r| == n && forall k :: 0 <= k < n ==> r[k] == 1
  {
    seq(n, _ => 1)
  }

  function HitsOf(y: seq<bool>): (r: seq<nat>)
    ensures |r| == |y| && forall k :: 0 <= k < |r| ==> r[k] == if y[k] then 1 else 0
  {
    seq(|y|, k requires 0 <= k < |y| => if y[k] then 1 else 0)
  }

  lemma {:induction false} RisingScoreCounts(s: seq<real>, labels: seq<bool>, u: real, k: nat)
    requires k <= |s| == |labels| && Increasing(s)
    ensures ScoreCount(s, u, k) == if u in s[..k] then 1 else 0
    ensures forall i :: 0 <= i < k && s[i] == u ==> ScoreHits(s, labels, u, k) == if labels[i] then 1 else 0
    ensures u !in s[..k] ==> ScoreHits(s, labels, u, k) == 0
  {
    if k == 0 {
    } else {
      RisingScoreCounts(s, labels, u, k - 1);
      assert s[..k] == s[..k - 1] + [s[k - 1]];
    }
  }

  /** Fewer rows than buckets, with rising scores: every row is a pool. */
  lemma RisingRowsArePools(s: seq<real>, labels: seq<bool>, blocks: nat)
    requires |labels| == |s| < blocks && Increasing(s)
    ensures Pools(s, labels, blocks, blocks, s, HitsOf(labels), Ones(|s|))
  {
    hide CountFor, HitsFor, Start;
    StartEnds(|s|, blocks);
    assert s[..|s|] == s;
    forall u: real
      ensures CountFor(s, blocks, u, blocks) == if u in s then 1 else 0
      ensures forall i :: 0 <= i < |s| && s[i] == u ==> HitsFor(s, labels, blocks, u, blocks) == if labels[i] then 1 else 0
    {
      FewRowsPoolByScore(s, labels, blocks, u, blocks);
      RisingScoreCounts(s, labels, u, |s|);
    }
  }

  /** Rates of rows that are pools of their own. */
  function AsRates(y: seq<bool>): (r: seq<real>)
    ensures |r| == |y| && forall k :: 0 <= k < |r| ==> r[k] == if y[k] then 1.0 else 0.0
  {
    seq(|y|, k requires 0 <= k < |y| => if y[k] then 1.0 else 0.0)
  }

  /** Monotone rates are fitted by themselves. */
  lemma SelfIsFit(data: seq<real>)
    requires NonDecreasing(data)
    ensures IsLeastSquaresFit(data, data)
  {
    SelfSse(data);
    forall fit: seq<real> | |fit| == |data| && NonDecreasing(fit) ensures Sse(data, data) <= Sse(data, fit) {
      SseSign(data, fit);
    }
  }

  /** A few rows with rising scores, the hits last: the fit is the labels themselves. */
  lemma RisingRowsCurve(scores: seq<real>, y: seq<bool>)
    requires |y| == |scores| < CALIBRATION_BLOCKS && Increasing(scores) && NonDecreasing(AsRates(y))
    ensures IsCalibration(ByScore(scores, scores), ByScore(y, scores), CALIBRATION_BLOCKS, Curve(scores, AsRates(y)))
  {
    hide Pools, Curve, ByScore, FitsRates;
    SortedIsUntouched(scores, scores);
    SortedIsUntouched(y, scores);
    hide Increasing, NonDecreasing;
    RisingRowsArePools(scores, y, CALIBRATION_BLOCKS);
    SelfFitsRates(y);
  }

  lemma SelfFitsRates(y: seq<bool>)
    requires NonDecreasing(AsRates(y))
    ensures FitsRates(HitsOf(y), Ones(|y|), AsRates(y))
  {
    assert Rates(HitsOf(y), Ones(|y|)) == AsRates(y);
    SelfIsFit(AsRates(y));
  }

  const COLLIDING: seq<real> := [0.0999996, 0.0999998, 0.3]
  const COLLIDED: seq<Point> := [Point(0.1, 0.0), Point(0.3, 1.0)]

  /** Three rows, the last two of them hits: the middle row's rate and fit are 1 and the gate reads 0 there,
      because the emission loop has carried its bound on before the merge can keep its precision. */
  method FitColliding() returns (curve: seq<Point>)
    ensures curve == COLLIDED && Increasing(COLLIDING)
    ensures CalibrateCue(curve, COLLIDING[1]) == CalibrateCue(curve, 0.1) == 0.0
    ensures Loses(COLLIDING, [0.0, 1.0, 1.0], 0, 1)
  {
    var y := [false, true, true];
    assert AsRates(y) == [0.0, 1.0, 1.0];
    RisingRowsCurve(COLLIDING, y);
    CollidingCurve();
    CollidingLoses();
    hide Curve, IsCalibration, Loses, Increasing;
    curve := FitIsotonic(COLLIDING, y);
    CalibrationIsUnique(ByScore(COLLIDING, COLLIDING), ByScore(y, COLLIDING), CALIBRATION_BLOCKS, curve, COLLIDED);
  }

  lemma CollidingLoses()
    ensures Loses(COLLIDING, [0.0, 1.0, 1.0], 0, 1)
  {
    BothRoundToATenth();
    hide Round6;
  }

  const ROUNDING_DOWN: seq<real> := [0.0000004, 0.5]

  /** Two rows, the second a hit, and no collision: the first row's bound rounds down to 0, so the gate reads
      the second row's rate at the first row's own score. */
  method FitRoundingDown() returns (curve: seq<Point>)
    ensures CollisionsAgree(ROUNDING_DOWN, [0.0, 1.0])
    ensures curve != [] && CalibrateCue(curve, ROUNDING_DOWN[0]) == 1.0
  {
    var y := [false, true];
    assert AsRates(y) == [0.0, 1.0];
    RisingRowsCurve(ROUNDING_DOWN, y);
    hide Curve, IsCalibration, CollisionsAgree;
    curve := FitIsotonic(ROUNDING_DOWN, y);
    CalibrationIsUnique(ByScore(ROUNDING_DOWN, ROUNDING_DOWN), ByScore(y, ROUNDING_DOWN), CALIBRATION_BLOCKS,
                        curve, Curve(ROUNDING_DOWN, [0.0, 1.0]));
    RoundingDownReads();
  }

  lemma RoundingDownReads()
    ensures CollisionsAgree(ROUNDING_DOWN, [0.0, 1.0]) && Rising(ROUNDING_DOWN, [0.0, 1.0])
    ensures Curve(ROUNDING_DOWN, [0.0, 1.0]) != [] && CalibrateCue(Curve(ROUNDING_DOWN, [0.0, 1.0]), ROUNDING_DOWN[0]) == 1.0
  {
    RoundsToZero();
    hide Round6, Curve;
    CurveIsNotEmpty(ROUNDING_DOWN, [0.0, 1.0]);
    RoundedDown(ROUNDING_DOWN, [0.0, 1.0], 0, 1);
  }

  lemma RoundsToZero()
    ensures Round6(0.0000004) == 0.0 && Round6(0.5) == 0.5 && Round6(1.0) == 1.0 && Round6(0.0) == 0.0
  {
    assert 0.0000004 * 1000000.0 == 0.4 && (0.4 as real).Floor == 0;
    Round6Grid(0);
    Round6Grid(500000);
    Round6Grid(1000000);
  }
}
