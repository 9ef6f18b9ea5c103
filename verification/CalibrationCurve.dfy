/** The second half of `fit_isotonic`: the fitted rates are rounded, merged into blocks, and merged
    again where rounding made two bounds collide. */
module CalibrationCurve {
  import opened Rounding
  import opened Pava
  import opened Bucketing

  /** One `[score_upper, precision]` entry of the artifact. */
  datatype Point = Point(upper: real, precision: real)

  function Last<T>(s: seq<T>): T
    requires s != []
  {
    s[|s| - 1]
  }

  function Init<T>(s: seq<T>): seq<T>
    requires s != []
  {
    s[..|s| - 1]
  }

  const TINY := 0.000000000001

  function Close(a: real, b: real): bool {
    (if a >= b then a - b else b - a) < TINY
  }

  /** Closer than a millionth of a millionth, in either direction. */
  lemma CloseMeans(a: real, b: real)
    ensures Close(a, b) <==> -1.0 < (a - b) * 1000000000000.0 < 1.0
  {
  }

  /** The block list after one more fitted pool: extend the last block or start a new one. The
      comparison is between the last block's ROUNDED precision and the unrounded fit. */
  function EmitOne(blocks: seq<Point>, upper: real, precision: real): seq<Point> {
    if blocks != [] && Close(Last(blocks).precision, precision)
    then Init(blocks) + [Point(Round6(upper), Last(blocks).precision)]
    else blocks + [Point(Round6(upper), Round6(precision))]
  }

  function Emit(uppers: seq<real>, fitted: seq<real>): seq<Point>
    requires |uppers| == |fitted|
  {
    if uppers == [] then [] else EmitOne(Emit(Init(uppers), Init(fitted)), Last(uppers), Last(fitted))
  }

  /** Bounds that collide after rounding are merged and the LAST precision is kept. */
  function MergeOne(merged: seq<Point>, p: Point): seq<Point> {
    if merged != [] && Last(merged).upper == p.upper
    then Init(merged) + [Point(p.upper, p.precision)]
    else merged + [p]
  }

  function Merge(points: seq<Point>): seq<Point> {
    if points == [] then [] else MergeOne(Merge(Init(points)), Last(points))
  }

  function Curve(uppers: seq<real>, fitted: seq<real>): seq<Point>
    requires |uppers| == |fitted|
  {
    Merge(Emit(uppers, fitted))
  }

  ghost predicate Climbing(ps: seq<Point>) {
    forall i, j :: 0 <= i < j < |ps| ==> ps[i].upper <= ps[j].upper && ps[i].precision <= ps[j].precision
  }

  ghost predicate StrictBounds(ps: seq<Point>) {
    forall i, j :: 0 <= i < j < |ps| ==> ps[i].upper < ps[j].upper
  }

  ghost predicate Precisions(ps: seq<Point>) {
    forall i :: 0 <= i < |ps| ==> 0.0 <= ps[i].precision <= 1.0
  }

  // ---- the emitted blocks ----------------------------------------------------------------------------

  /** The point pool k would have as a block of its own. */
  function PointOf(uppers: seq<real>, fitted: seq<real>, k: nat): Point
    requires k < |uppers| == |fitted|
  {
    Point(Round6(uppers[k]), Round6(fitted[k]))
  }

  /** A fit that extends a block has the block's rounded precision. */
  lemma CloseRoundsAlike(x: real, p: real)
    requires Close(Round6(x), p)
    ensures Round6(p) == Round6(x)
  {
    var k, t := HalfEven(x * 1000000.0), p * 1000000.0;
    assert Round6(x) == (k as real) / 1000000.0;
    assert -0.000001 < t - (k as real) < 0.000001;
    assert t.Floor == k || t.Floor == k - 1;
    assert HalfEven(t) == k;
  }

  /** Pool k's block is carried on by the next pool. */
  predicate CarriedOn(fitted: seq<real>, k: nat)
    requires k < |fitted|
  {
    k + 1 < |fitted| && Close(Round6(fitted[k]), fitted[k + 1])
  }

  /** The points of the pools below k that are not carried on. */
  function Ends(uppers: seq<real>, fitted: seq<real>, k: nat): seq<Point>
    requires k <= |uppers| == |fitted|
  {
    if k == 0 then [] else
    Ends(uppers, fitted, k - 1) + if CarriedOn(fitted, k - 1) then [] else [PointOf(uppers, fitted, k - 1)]
  }

  lemma {:induction false} EmitPrefix(uppers: seq<real>, fitted: seq<real>, k: nat)
    requires k < |uppers| == |fitted|
    ensures Emit(uppers[..k + 1], fitted[..k + 1]) == Ends(uppers, fitted, k) + [PointOf(uppers, fitted, k)]
  {
    var us, fs := uppers[..k + 1], fitted[..k + 1];
    assert Init(us) == uppers[..k] && Init(fs) == fitted[..k] && Last(us) == uppers[k] && Last(fs) == fitted[k];
    if k == 0 {
      assert Emit(Init(us), Init(fs)) == [];
    } else {
      EmitPrefix(uppers, fitted, k - 1);
      var kept, last := Ends(uppers, fitted, k - 1), PointOf(uppers, fitted, k - 1);
      assert Init(kept + [last]) == kept;
      if CarriedOn(fitted, k - 1) { CloseRoundsAlike(fitted[k - 1], fitted[k]); }
    }
  }

  /** The emission loop keeps exactly the pools that are not carried on, at their own rounded points. */
  lemma EmitIsEnds(uppers: seq<real>, fitted: seq<real>)
    requires |uppers| == |fitted|
    ensures Emit(uppers, fitted) == Ends(uppers, fitted, |uppers|)
  {
    var n := |uppers|;
    if n > 0 {
      hide Emit;
      EmitPrefix(uppers, fitted, n - 1);
      assert uppers[..n] == uppers && fitted[..n] == fitted;
    }
  }

  /** A block is the point of a pool below k that is not carried on. */
  ghost predicate IsEnd(p: Point, uppers: seq<real>, fitted: seq<real>, k: nat)
    requires k <= |uppers| == |fitted|
  {
    exists i: nat :: i < k && !CarriedOn(fitted, i) && p == PointOf(uppers, fitted, i)
  }

  lemma {:induction false} EndsMembers(uppers: seq<real>, fitted: seq<real>, k: nat)
    requires k <= |uppers| == |fitted|
    ensures |Ends(uppers, fitted, k)| <= k
    ensures forall p :: p in Ends(uppers, fitted, k) <==> IsEnd(p, uppers, fitted, k)
  {
    hide Round6, CarriedOn;
    if k == 0 {
    } else {
      EndsMembers(uppers, fitted, k - 1);
      forall p ensures p in Ends(uppers, fitted, k) <==> IsEnd(p, uppers, fitted, k) {
        if IsEnd(p, uppers, fitted, k) {
          var i: nat :| i < k && !CarriedOn(fitted, i) && p == PointOf(uppers, fitted, i);
          if i < k - 1 { assert IsEnd(p, uppers, fitted, k - 1); }
        }
      }
    }
  }

  /** Rising pools have rising points. */
  lemma PointsRise(uppers: seq<real>, fitted: seq<real>, i: nat, k: nat)
    requires i <= k < |uppers| == |fitted| && Increasing(uppers) && NonDecreasing(fitted)
    ensures var p, q := PointOf(uppers, fitted, i), PointOf(uppers, fitted, k);
            p.upper <= q.upper && p.precision <= q.precision
  {
    Round6Monotone(uppers[i], uppers[k]);
    Round6Monotone(fitted[i], fitted[k]);
  }

  lemma {:induction false} EndsClimb(uppers: seq<real>, fitted: seq<real>, k: nat)
    requires k <= |uppers| == |fitted| && Increasing(uppers) && NonDecreasing(fitted)
    ensures Climbing(Ends(uppers, fitted, k))
  {
    hide Round6, CarriedOn, Increasing, NonDecreasing;
    if k == 0 {
    } else {
      EndsClimb(uppers, fitted, k - 1);
      EndsMembers(uppers, fitted, k - 1);
      var e, last := Ends(uppers, fitted, k - 1), PointOf(uppers, fitted, k - 1);
      forall i | 0 <= i < |e| ensures e[i].upper <= last.upper && e[i].precision <= last.precision {
        assert e[i] in e;
        var x: nat :| x < k - 1 && !CarriedOn(fitted, x) && e[i] == PointOf(uppers, fitted, x);
        PointsRise(uppers, fitted, x, k - 1);
      }
    }
  }

  /** The pool that ends pool k's block has the same rounded fit. */
  lemma {:induction false} EndOfBlock(fitted: seq<real>, k: nat) returns (m: nat)
    requires k < |fitted|
    ensures k <= m < |fitted| && !CarriedOn(fitted, m) && Round6(fitted[m]) == Round6(fitted[k])
    ensures forall i :: k <= i < m ==> CarriedOn(fitted, i)
    decreases |fitted| - k
  {
    if !CarriedOn(fitted, k) {
      m := k;
    } else {
      CloseRoundsAlike(fitted[k], fitted[k + 1]);
      m := EndOfBlock(fitted, k + 1);
    }
  }

  /** What the emission loop has built when it ends. */
  lemma EmitShape(uppers: seq<real>, fitted: seq<real>)
    requires |uppers| == |fitted| && Increasing(uppers) && NonDecreasing(fitted)
    ensures var e, n := Emit(uppers, fitted), |uppers|;
            && |e| <= n && (e == [] <==> uppers == []) && Climbing(e)
            && (forall p :: p in e <==> IsEnd(p, uppers, fitted, n))
            && (e != [] ==> Last(e) == PointOf(uppers, fitted, n - 1))
  {
    EmitIsEnds(uppers, fitted);
    EndsMembers(uppers, fitted, |uppers|);
    EndsClimb(uppers, fitted, |uppers|);
  }

  // ---- the merged blocks -----------------------------------------------------------------------------

  /** Merging drops blocks and nothing else, and every bound survives. */
  ghost predicate Thins(m: seq<Point>, ps: seq<Point>) {
    && |m| <= |ps| && (m == [] <==> ps == [])
    && (forall p :: p in m ==> p in ps)
    && (forall p :: p in ps ==> HasBound(m, p.upper))
    && (m != [] ==> Last(m) == Last(ps))
  }

  ghost predicate HasBound(m: seq<Point>, u: real) {
    exists p :: p in m && p.upper == u
  }

  lemma MergeOneOrders(m: seq<Point>, p: Point)
    requires StrictBounds(m) && Climbing(m)
    requires m != [] ==> Last(m).upper <= p.upper && Last(m).precision <= p.precision
    ensures StrictBounds(MergeOne(m, p)) && Climbing(MergeOne(m, p))
  {
    var r := MergeOne(m, p);
    assert forall i :: 0 <= i < |r| - 1 ==> r[i] == m[i];
    assert forall i :: 0 <= i < |m| - 1 ==> m[i].upper < Last(m).upper && m[i].precision <= Last(m).precision;
  }

  lemma MergeOneKeeps(m: seq<Point>, p: Point)
    ensures var r := MergeOne(m, p);
            && |r| <= |m| + 1 && r != [] && Last(r) == p
            && (forall q :: q in r ==> q in m || q == p)
            && (forall q :: q in m ==> HasBound(r, q.upper))
            && HasBound(r, p.upper)
  {
    var r := MergeOne(m, p);
    assert r[|r| - 1] == p && p in r;
    forall q | q in m ensures HasBound(r, q.upper) {
      var i :| 0 <= i < |m| && m[i] == q;
      if i < |r| - 1 { assert r[i] == q && r[i] in r; }
    }
  }

  lemma ThinsOneMore(m: seq<Point>, r: seq<Point>, ps: seq<Point>, p: Point)
    requires Thins(m, ps) && r == MergeOne(m, p)
    ensures Thins(r, ps + [p])
  {
    MergeOneKeeps(m, p);
    hide MergeOne, HasBound;
    forall q | q in ps + [p] ensures HasBound(r, q.upper) {
      if q in ps {
        BoundOf(m, q.upper);
      }
    }
  }

  lemma ThinsEnd(m: seq<Point>, ps: seq<Point>)
    requires Thins(m, ps)
    ensures m == [] <==> ps == []
    ensures m != [] ==> Last(m) == Last(ps)
  {
  }

  lemma BoundOf(m: seq<Point>, u: real)
    ensures HasBound(m, u) <==> exists p :: p in m && p.upper == u
  {
  }

  lemma NothingYet()
    ensures Climbing([]) && StrictBounds([]) && Thins([], []) && Tops([], [])
  {
  }

  lemma {:induction false} MergeShape(ps: seq<Point>)
    requires Climbing(ps)
    ensures StrictBounds(Merge(ps)) && Climbing(Merge(ps)) && Thins(Merge(ps), ps) && Tops(Merge(ps), ps)
  {
    hide MergeOne, Thins, Tops, Climbing, StrictBounds;
    if ps == [] {
      NothingYet();
    } else {
      var init, p := Init(ps), Last(ps);
      assert init + [p] == ps;
      ClimbingInit(ps);
      MergeShape(init);
      ThinsEnd(Merge(init), init);
      MergeOneOrders(Merge(init), p);
      ThinsOneMore(Merge(init), Merge(ps), init, p);
      TopsOneMore(Merge(init), Merge(ps), init, p);
    }
  }

  /** Of the blocks that share a bound, the merge keeps the highest precision. */
  ghost predicate Tops(m: seq<Point>, ps: seq<Point>) {
    forall p, q :: p in m && q in ps && p.upper == q.upper ==> q.precision <= p.precision
  }

  lemma TopsOneMore(m: seq<Point>, r: seq<Point>, ps: seq<Point>, p: Point)
    requires Tops(m, ps) && r == MergeOne(m, p) && StrictBounds(r) && Climbing(ps + [p])
    ensures Tops(r, ps + [p])
  {
    MergeOneKeeps(m, p);
    hide MergeOne, HasBound;
    forall x, q | x in r && q in ps + [p] && x.upper == q.upper ensures q.precision <= x.precision {
      var i :| 0 <= i < |r| && r[i] == x;
      var k :| 0 <= k < |ps + [p]| && (ps + [p])[k] == q;
      assert i < |r| - 1 ==> x.upper < p.upper && x in m;
      assert (ps + [p])[|ps|] == p && (k < |ps| ==> q.upper <= p.upper && q.precision <= p.precision);
    }
  }

  lemma ClimbingInit(ps: seq<Point>)
    requires Climbing(ps) && ps != []
    ensures Climbing(Init(ps))
    ensures Init(ps) != [] ==> Last(Init(ps)).upper <= Last(ps).upper && Last(Init(ps)).precision <= Last(ps).precision
  {
  }

  /** The promise the loader checks: strictly increasing bounds that end at the rounded top score,
      non-decreasing precisions that are probabilities. */
  ghost predicate WellFormed(curve: seq<Point>, top: real) {
    && StrictBounds(curve) && Climbing(curve) && Precisions(curve)
    && curve != [] && Last(curve).upper == Round6(top)
  }

  lemma CurveIsWellFormed(uppers: seq<real>, fitted: seq<real>)
    requires |uppers| == |fitted| > 0 && Increasing(uppers) && NonDecreasing(fitted) && Within(fitted, 0.0, 1.0)
    ensures WellFormed(Curve(uppers, fitted), Last(uppers)) && |Curve(uppers, fitted)| <= |uppers|
  {
    var m := Curve(uppers, fitted);
    EmitShape(uppers, fitted);
    MergeShape(Emit(uppers, fitted));
    hide Round6, Emit, Merge, Climbing, StrictBounds, Tops, HasBound, CarriedOn;
    forall i | 0 <= i < |m| ensures 0.0 <= m[i].precision <= 1.0 {
      assert m[i] in m && IsEnd(m[i], uppers, fitted, |uppers|);
      var k: nat :| k < |uppers| && !CarriedOn(fitted, k) && m[i] == PointOf(uppers, fitted, k);
      Round6Unit(fitted[k]);
    }
  }

  // ---- what the gate reads ----------------------------------------------------------------------------

  /** How many blocks have their bound below x. */
  function PartitionPoint(curve: seq<Point>, x: real): (r: nat)
    ensures r <= |curve|
    ensures forall i :: 0 <= i < r ==> curve[i].upper < x
    ensures r < |curve| ==> curve[r].upper >= x
  {
    if curve == [] || curve[0].upper >= x then 0 else 1 + PartitionPoint(curve[1..], x)
  }

  /** The gate's lookup: the first block whose bound is at or above x, and the last one above them all. */
  function CalibrateCue(curve: seq<Point>, x: real): real
    requires curve != []
  {
    var index := PartitionPoint(curve, x);
    curve[if index < |curve| then index else |curve| - 1].precision
  }

  ghost predicate Rising(uppers: seq<real>, fitted: seq<real>) {
    0 < |uppers| == |fitted| && Increasing(uppers) && NonDecreasing(fitted)
  }

  lemma CurveIsNotEmpty(uppers: seq<real>, fitted: seq<real>)
    requires Rising(uppers, fitted)
    ensures Curve(uppers, fitted) != []
  {
    EmitShape(uppers, fitted);
    MergeShape(Emit(uppers, fitted));
  }

  ghost function Read(uppers: seq<real>, fitted: seq<real>, x: real): real
    requires Rising(uppers, fitted)
  {
    CurveIsNotEmpty(uppers, fitted);
    CalibrateCue(Curve(uppers, fitted), x)
  }

  /** Pool i ends a block, its bound is the least at or above x that a block has, and its fit is the
      highest of the blocks with that bound. */
  ghost predicate Answers(uppers: seq<real>, fitted: seq<real>, x: real, i: nat)
    requires |uppers| == |fitted|
  {
    && i < |uppers| && !CarriedOn(fitted, i) && Round6(uppers[i]) >= x
    && forall e: nat :: e < |uppers| && !CarriedOn(fitted, e) && Round6(uppers[e]) >= x ==>
         NoBetterAnswer(PointOf(uppers, fitted, i), PointOf(uppers, fitted, e))
  }

  predicate NoBetterAnswer(p: Point, q: Point) {
    p.upper < q.upper || (p.upper == q.upper && p.precision >= q.precision)
  }

  lemma BoundAtOrAfter(m: seq<Point>, j: nat, x: real, q: Point)
    requires Climbing(m) && HasBound(m, q.upper) && q.upper >= x && j == PartitionPoint(m, x) < |m|
    ensures m[j].upper <= q.upper
  {
    var c :| c in m && c.upper == q.upper;
    var at :| 0 <= at < |m| && m[at] == c;
  }

  lemma FirstBlockAnswers(uppers: seq<real>, fitted: seq<real>, e: seq<Point>, m: seq<Point>, x: real) returns (i: nat)
    requires |uppers| == |fitted| && forall p :: p in e <==> IsEnd(p, uppers, fitted, |uppers|)
    requires Climbing(m) && Thins(m, e) && Tops(m, e) && PartitionPoint(m, x) < |m|
    ensures Answers(uppers, fitted, x, i) && m[PartitionPoint(m, x)].precision == Round6(fitted[i])
  {
    hide Round6, CarriedOn, HasBound, Climbing;
    var j, n := PartitionPoint(m, x), |uppers|;
    assert m[j] in m && IsEnd(m[j], uppers, fitted, n);
    i :| i < n && !CarriedOn(fitted, i) && m[j] == PointOf(uppers, fitted, i);
    forall o: nat | o < n && !CarriedOn(fitted, o) && Round6(uppers[o]) >= x
      ensures NoBetterAnswer(PointOf(uppers, fitted, i), PointOf(uppers, fitted, o))
    {
      var q := PointOf(uppers, fitted, o);
      assert IsEnd(q, uppers, fitted, n) && q in e;
      BoundAtOrAfter(m, j, x, q);
    }
  }

  /** Every score up to the top bound is answered by a pool. */
  lemma ReadAnswers(uppers: seq<real>, fitted: seq<real>, x: real) returns (i: nat)
    requires Rising(uppers, fitted) && x <= Round6(Last(uppers))
    ensures Answers(uppers, fitted, x, i) && Read(uppers, fitted, x) == Round6(fitted[i])
  {
    var e, m := Emit(uppers, fitted), Curve(uppers, fitted);
    EmitShape(uppers, fitted);
    MergeShape(e);
    hide Round6, Emit, Merge, Climbing, StrictBounds, Tops, HasBound, IsEnd, Answers, Increasing, NonDecreasing;
    assert Last(m).upper >= x;
    i := FirstBlockAnswers(uppers, fitted, e, m, x);
  }

  /** What is read is decided by the pools alone: at any score up to the top bound, whoever answers has the
      fit that is read. */
  lemma ReadExactly(uppers: seq<real>, fitted: seq<real>, x: real, p: real)
    requires Rising(uppers, fitted) && x <= Round6(Last(uppers))
    ensures Read(uppers, fitted, x) == p <==> forall i: nat :: Answers(uppers, fitted, x, i) ==> Round6(fitted[i]) == p
  {
    var a := ReadAnswers(uppers, fitted, x);
    hide Round6, CarriedOn, Rising, Read;
    forall i: nat | Answers(uppers, fitted, x, i) ensures Round6(fitted[i]) == Round6(fitted[a]) {
      assert NoBetterAnswer(PointOf(uppers, fitted, i), PointOf(uppers, fitted, a));
      assert NoBetterAnswer(PointOf(uppers, fitted, a), PointOf(uppers, fitted, i));
    }
  }

  lemma PastTheEnd(m: seq<Point>, x: real)
    requires m != [] && Climbing(m) && Last(m).upper < x
    ensures CalibrateCue(m, x) == Last(m).precision
  {
    assert forall i :: 0 <= i < |m| ==> m[i].upper <= Last(m).upper;
  }

  /** Above every bound the last pool answers. */
  lemma ReadAbove(uppers: seq<real>, fitted: seq<real>, x: real)
    requires Rising(uppers, fitted) && x > Round6(Last(uppers))
    ensures Read(uppers, fitted, x) == Round6(Last(fitted))
  {
    EmitShape(uppers, fitted);
    MergeShape(Emit(uppers, fitted));
    hide Emit, Merge, Round6, Tops, HasBound, Climbing, StrictBounds, CalibrateCue, Increasing, NonDecreasing, IsEnd;
    PastTheEnd(Curve(uppers, fitted), x);
  }

  // ---- the merge's promise: collisions keep the higher precision -----------------------------------------

  /** No pool reads less than its rounded fit at its rounded bound. */
  ghost predicate KeepsHigher(uppers: seq<real>, fitted: seq<real>)
    requires Rising(uppers, fitted)
  {
    forall k :: 0 <= k < |uppers| ==> Read(uppers, fitted, Round6(uppers[k])) >= Round6(fitted[k])
  }

  /** Pool t's fit is the last to end a block with its rounded bound: the pools after it, up to the last that
      shares the bound, fit higher and are all carried on past it. */
  ghost predicate Loses(uppers: seq<real>, fitted: seq<real>, t: nat, k: nat)
    requires |uppers| == |fitted|
  {
    && t < k && k + 1 < |uppers|
    && Round6(uppers[t]) == Round6(uppers[k]) < Round6(uppers[k + 1])
    && Round6(fitted[t]) < Round6(fitted[t + 1])
    && forall i :: t < i <= k ==> CarriedOn(fitted, i)
  }

  lemma AnswersNoLater(uppers: seq<real>, fitted: seq<real>, i: nat, t: nat, k: nat)
    requires Rising(uppers, fitted) && Loses(uppers, fitted, t, k) && Answers(uppers, fitted, Round6(uppers[k]), i)
    ensures i <= t
  {
    if CarriedOn(fitted, t) { CloseRoundsAlike(fitted[t], fitted[t + 1]); }
    assert NoBetterAnswer(PointOf(uppers, fitted, i), PointOf(uppers, fitted, t));
    if i > k { PointsRise(uppers, fitted, k + 1, i); }
  }

  lemma LosingIsLower(uppers: seq<real>, fitted: seq<real>, t: nat, k: nat)
    requires Rising(uppers, fitted) && Loses(uppers, fitted, t, k)
    ensures Read(uppers, fitted, Round6(uppers[k])) < Round6(fitted[k])
  {
    PointsRise(uppers, fitted, k, |uppers| - 1);
    var i := ReadAnswers(uppers, fitted, Round6(uppers[k]));
    AnswersNoLater(uppers, fitted, i, t, k);
    hide Round6, Read, Answers;
    PointsRise(uppers, fitted, i, t);
    PointsRise(uppers, fitted, t + 1, k);
  }

  /** The last pool that shares pool k's rounded bound. */
  lemma {:induction false} LastWithBound(uppers: seq<real>, k: nat) returns (h: nat)
    requires k < |uppers|
    ensures k <= h < |uppers| && Round6(uppers[h]) == Round6(uppers[k])
    ensures h + 1 < |uppers| ==> Round6(uppers[h + 1]) != Round6(uppers[k])
    decreases |uppers| - k
  {
    if k + 1 == |uppers| || Round6(uppers[k + 1]) != Round6(uppers[k]) {
      h := k;
    } else {
      h := LastWithBound(uppers, k + 1);
    }
  }

  /** The last pool from i to h that ends a block. */
  lemma {:induction false} LastEnd(fitted: seq<real>, i: nat, h: nat) returns (t: nat)
    requires i <= h < |fitted| && !CarriedOn(fitted, i)
    ensures i <= t <= h && !CarriedOn(fitted, t) && forall x :: t < x <= h ==> CarriedOn(fitted, x)
    decreases h
  {
    if !CarriedOn(fitted, h) {
      t := h;
    } else {
      t := LastEnd(fitted, i, h - 1);
    }
  }

  lemma LowerIsLosing(uppers: seq<real>, fitted: seq<real>, k: nat) returns (t: nat, h: nat)
    requires Rising(uppers, fitted) && k < |uppers|
    requires Read(uppers, fitted, Round6(uppers[k])) < Round6(fitted[k])
    ensures Loses(uppers, fitted, t, h)
  {
    PointsRise(uppers, fitted, k, |uppers| - 1);
    var i := ReadAnswers(uppers, fitted, Round6(uppers[k]));
    if i >= k { PointsRise(uppers, fitted, k, i); }
    PointsRise(uppers, fitted, i, k);
    h := LastWithBound(uppers, k);
    t := LastEnd(fitted, i, h);
    hide Round6, CarriedOn;
    PointsRise(uppers, fitted, k, h);
    PointsRise(uppers, fitted, i, t);
    PointsRise(uppers, fitted, t, h);
    assert NoBetterAnswer(PointOf(uppers, fitted, i), PointOf(uppers, fitted, t));
    var m := EndOfBlock(fitted, t + 1);
    assert m > h;
    PointsRise(uppers, fitted, t + 1, h);
    PointsRise(uppers, fitted, h, m);
    PointsRise(uppers, fitted, h, h + 1);
  }

  /** The merge keeps the higher precision of every collision exactly when no pool's fit is the last to end
      a block with its bound while higher ones that share the bound are carried on past it. */
  lemma KeepsHigherExactly(uppers: seq<real>, fitted: seq<real>)
    requires Rising(uppers, fitted)
    ensures KeepsHigher(uppers, fitted) <==> !exists t: nat, k: nat :: Loses(uppers, fitted, t, k)
  {
    hide Round6, Read;
    if t: nat, k: nat :| Loses(uppers, fitted, t, k) {
      LosingIsLower(uppers, fitted, t, k);
    }
    if !KeepsHigher(uppers, fitted) {
      var k :| 0 <= k < |uppers| && Read(uppers, fitted, Round6(uppers[k])) < Round6(fitted[k]);
      var t, h := LowerIsLosing(uppers, fitted, k);
    }
  }

  // ---- reading a pool's own fit ---------------------------------------------------------------------------

  /** Reading the curve at every pool's rounded bound gives that pool's rounded fit. */
  ghost predicate ReadsEveryPool(uppers: seq<real>, fitted: seq<real>)
    requires Rising(uppers, fitted)
  {
    forall k :: 0 <= k < |uppers| ==> Read(uppers, fitted, Round6(uppers[k])) == Round6(fitted[k])
  }

  /** Pools whose bounds collide after rounding have fits that round alike. */
  ghost predicate CollisionsAgree(uppers: seq<real>, fitted: seq<real>)
    requires |uppers| == |fitted|
  {
    forall i, j :: 0 <= i < |uppers| && 0 <= j < |uppers| && Round6(uppers[i]) == Round6(uppers[j])
                   ==> Round6(fitted[i]) == Round6(fitted[j])
  }

  /** Whoever answers a score that only pools from k's bound on can answer has k's rounded fit. */
  lemma AnswerAgrees(uppers: seq<real>, fitted: seq<real>, x: real, i: nat, k: nat)
    requires Rising(uppers, fitted) && CollisionsAgree(uppers, fitted)
    requires k < |uppers| && Answers(uppers, fitted, x, i)
    requires x <= Round6(uppers[k]) <= Round6(uppers[i])
    ensures Round6(fitted[i]) == Round6(fitted[k])
  {
    var m := EndOfBlock(fitted, k);
    hide Round6, CarriedOn;
    PointsRise(uppers, fitted, k, m);
    assert NoBetterAnswer(PointOf(uppers, fitted, i), PointOf(uppers, fitted, m));
    if i <= m { PointsRise(uppers, fitted, i, m); } else { PointsRise(uppers, fitted, m, i); }
    if i <= k { PointsRise(uppers, fitted, i, k); } else { PointsRise(uppers, fitted, k, i); }
  }

  /** Reading the curve at rounded bounds gives every pool its own fit exactly when pools with colliding
      bounds have fits that round alike. */
  lemma CurveReadsExactly(uppers: seq<real>, fitted: seq<real>)
    requires Rising(uppers, fitted)
    ensures ReadsEveryPool(uppers, fitted) <==> CollisionsAgree(uppers, fitted)
  {
    if CollisionsAgree(uppers, fitted) {
      forall k | 0 <= k < |uppers| ensures Read(uppers, fitted, Round6(uppers[k])) == Round6(fitted[k]) {
        PointsRise(uppers, fitted, k, |uppers| - 1);
        var i := ReadAnswers(uppers, fitted, Round6(uppers[k]));
        AnswerAgrees(uppers, fitted, Round6(uppers[k]), i, k);
      }
    }
  }

  const HALF_STEP := 0.0000005

  /** So then reading at a pool's rounded bound gives its fit to within half of the sixth decimal place; in
      particular when no two bounds collide. */
  lemma CurveReadsTheFit(uppers: seq<real>, fitted: seq<real>, k: nat)
    requires Rising(uppers, fitted) && CollisionsAgree(uppers, fitted) && k < |uppers|
    ensures -HALF_STEP <= Read(uppers, fitted, Round6(uppers[k])) - fitted[k] <= HALF_STEP
  {
    CurveReadsExactly(uppers, fitted);
    Round6Near(fitted[k]);
  }

  /** Pool l is the first with a higher rounded bound than pool k's. */
  ghost predicate NextHigher(uppers: seq<real>, k: nat, l: nat)
    requires k < |uppers|
  {
    && l < |uppers| && Round6(uppers[k]) < Round6(uppers[l])
    && forall i :: 0 <= i < l ==> Round6(uppers[i]) <= Round6(uppers[k])
  }

  /** A score is above a rounded bound exactly when its own rounded bound is at or above it and did not
      round down to it. */
  lemma GridBetween(x: real, y: real)
    ensures Round6(y) >= x ==> Round6(y) >= Round6(x)
    ensures Round6(y) > Round6(x) ==> Round6(y) >= x
  {
    Round6Grid(HalfEven(y * 1000000.0));
    if Round6(y) >= x { Round6Monotone(x, Round6(y)); } else { Round6Monotone(Round6(y), x); }
  }

  lemma {:induction false} NextHigherExists(uppers: seq<real>, k: nat, l: nat) returns (first: nat)
    requires k < |uppers| && l < |uppers| && Round6(uppers[k]) < Round6(uppers[l])
    ensures NextHigher(uppers, k, first) && first <= l
    decreases l
  {
    if i :| 0 <= i < l && Round6(uppers[i]) > Round6(uppers[k]) {
      first := NextHigherExists(uppers, k, i);
    } else {
      first := l;
    }
  }

  /** A pool whose bound rounds down is read past: the next higher bound answers for it, if there is one. */
  lemma RoundedDown(uppers: seq<real>, fitted: seq<real>, k: nat, l: nat)
    requires Rising(uppers, fitted) && CollisionsAgree(uppers, fitted) && k < |uppers|
    requires Round6(uppers[k]) < uppers[k] && NextHigher(uppers, k, l)
    ensures Read(uppers, fitted, uppers[k]) == Round6(fitted[l])
  {
    var x := uppers[k];
    GridBetween(x, uppers[l]);
    PointsRise(uppers, fitted, l, |uppers| - 1);
    var i := ReadAnswers(uppers, fitted, x);
    hide Round6, CarriedOn, Read;
    if i >= l { PointsRise(uppers, fitted, l, i); }
    AnswerAgrees(uppers, fitted, x, i, l);
  }

  lemma TopRoundedDown(uppers: seq<real>, fitted: seq<real>, k: nat)
    requires Rising(uppers, fitted) && CollisionsAgree(uppers, fitted) && k < |uppers|
    requires Round6(uppers[k]) < uppers[k] && forall l: nat :: !NextHigher(uppers, k, l)
    ensures Read(uppers, fitted, uppers[k]) == Round6(fitted[k])
  {
    var top := |uppers| - 1;
    PointsRise(uppers, fitted, k, top);
    if Round6(uppers[k]) < Round6(uppers[top]) {
      var l := NextHigherExists(uppers, k, top);
    }
    ReadAbove(uppers, fitted, uppers[k]);
  }

  ghost predicate ReadsOwnScore(uppers: seq<real>, fitted: seq<real>, k: nat)
    requires Rising(uppers, fitted) && k < |uppers|
  {
    Read(uppers, fitted, uppers[k]) == Round6(fitted[k])
  }

  ghost predicate KeepsOwnScore(uppers: seq<real>, fitted: seq<real>, k: nat)
    requires k < |uppers| == |fitted|
  {
    || Round6(uppers[k]) >= uppers[k]
    || forall l: nat :: NextHigher(uppers, k, l) ==> Round6(fitted[l]) == Round6(fitted[k])
  }

  /** When collisions agree, a pool reads its own rounded fit at its own score exactly when its bound does
      not round down, or no pool with the next higher rounded bound has another rounded fit. */
  lemma OwnScoreReadsExactly(uppers: seq<real>, fitted: seq<real>, k: nat)
    requires Rising(uppers, fitted) && CollisionsAgree(uppers, fitted) && k < |uppers|
    ensures ReadsOwnScore(uppers, fitted, k) <==> KeepsOwnScore(uppers, fitted, k)
  {
    var x := uppers[k];
    if Round6(x) >= x {
      PointsRise(uppers, fitted, k, |uppers| - 1);
      var i := ReadAnswers(uppers, fitted, x);
      GridBetween(x, uppers[i]);
      AnswerAgrees(uppers, fitted, x, i, k);
    } else {
      if l: nat :| NextHigher(uppers, k, l) {
        forall o: nat | NextHigher(uppers, k, o) ensures Round6(fitted[o]) == Read(uppers, fitted, x) {
          RoundedDown(uppers, fitted, k, o);
        }
      } else {
        TopRoundedDown(uppers, fitted, k);
      }
    }
  }

  // ---- a collision that loses a precision --------------------------------------------------------------

  lemma EmitThree(u: real, v: real, w: real, p: real, q: real, r: real)
    ensures Emit([u, v, w], [p, q, r]) == EmitOne(EmitOne(EmitOne([], u, p), v, q), w, r)
  {
    hide EmitOne;
    assert Init([u, v, w]) == [u, v] && Init([p, q, r]) == [p, q];
    assert Init([u, v]) == [u] && Init([p, q]) == [p];
    assert Init([u]) == [] && Init([p]) == [];
    assert Emit([u], [p]) == EmitOne([], u, p);
    assert Emit([u, v], [p, q]) == EmitOne(EmitOne([], u, p), v, q);
  }

  lemma MergeTwo(p: Point, q: Point)
    ensures Merge([p, q]) == MergeOne(MergeOne([], p), q)
  {
    hide MergeOne;
    assert Init([p, q]) == [p] && Init([p]) == [];
    assert Merge([p]) == MergeOne([], p);
  }

  lemma BothRoundToATenth()
    ensures Round6(0.0999996) == 0.1 == Round6(0.0999998)
    ensures Round6(0.3) == 0.3 && Round6(0.0) == 0.0 && Round6(1.0) == 1.0
  {
    assert 0.0999996 * 1000000.0 == 99999.6 && 0.0999998 * 1000000.0 == 99999.8;
    assert (99999.6 as real).Floor == 99999 && (99999.8 as real).Floor == 99999;
    assert HalfEven(99999.6) == 100000 == HalfEven(99999.8);
    Round6Grid(300000);
    Round6Grid(0);
    Round6Grid(1000000);
  }

  /** The emission loop carries the second bound on to the third, so the merge that keeps the later
      precision never sees the collision. */
  lemma CollidingCurve()
    ensures Curve([0.0999996, 0.0999998, 0.3], [0.0, 1.0, 1.0]) == [Point(0.1, 0.0), Point(0.3, 1.0)]
  {
    BothRoundToATenth();
    EmitThree(0.0999996, 0.0999998, 0.3, 0.0, 1.0, 1.0);
    MergeTwo(Point(0.1, 0.0), Point(0.3, 1.0));
    hide Round6, Emit, Merge;
    var two := [Point(0.1, 0.0), Point(0.1, 1.0)];
    assert EmitOne(EmitOne([], 0.0999996, 0.0), 0.0999998, 1.0) == two;
    assert Init(two) == [Point(0.1, 0.0)];
    assert EmitOne(two, 0.3, 1.0) == [Point(0.1, 0.0), Point(0.3, 1.0)];
  }
}
