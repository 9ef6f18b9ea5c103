/** The threshold sweep of the head probe, the naive count it must agree with, and its
    sign-inverted control. */
module Sweep {
  import opened Options
  import opened Sorting
  import opened Rounding

  datatype Label = Positive | Negative | Ambiguous

  /** What a feature returns: nothing, NaN, or a number. */
  datatype Feature = Absent | NotANumber | Value(x: real)

  /** A rank-1 / rank-2 pair with the feature already read off it. */
  datatype Probe = Probe(gold1: bool, gold2: bool, gap: Option<real>, value: Feature)

  /** `build_pairs`: would swapping the pair fix the query, break it, or neither? */
  function LabelOf(p: Probe): Label {
    if p.gold2 && !p.gold1 then Positive
    else if p.gold1 && !p.gold2 then Negative
    else Ambiguous
  }

  // ---- the naive count --------------------------------------------------------------------------------

  predicate Fires(p: Probe, strict: bool, tau: real) {
    p.value.Value? && if strict then p.value.x > tau else p.value.x >= tau
  }

  /** Pairs with the given label that a fixed threshold flips. */
  function Flipped(pairs: seq<Probe>, strict: bool, tau: real, kind: Label): nat {
    if pairs == [] then 0
    else
      var p := pairs[|pairs| - 1];
      Flipped(pairs[..|pairs| - 1], strict, tau, kind) + if Fires(p, strict, tau) && LabelOf(p) == kind then 1 else 0
  }

  lemma FlippedSnoc(pairs: seq<Probe>, p: Probe, strict: bool, tau: real, kind: Label)
    ensures Flipped(pairs + [p], strict, tau, kind)
         == Flipped(pairs, strict, tau, kind) + if Fires(p, strict, tau) && LabelOf(p) == kind then 1 else 0
  {
    assert (pairs + [p])[..|pairs|] == pairs;
  }

  const NEAR_TIE := 0.084

  datatype Band = Above | Inside | NoGap

  function BandOf(p: Probe): Band {
    if p.gap.None? then NoGap else if p.gap.value > NEAR_TIE then Above else Inside
  }

  function OnlyBand(pairs: seq<Probe>, b: Band): seq<Probe> {
    if pairs == [] then []
    else OnlyBand(pairs[..|pairs| - 1], b) + if BandOf(pairs[|pairs| - 1]) == b then [pairs[|pairs| - 1]] else []
  }

  datatype Counts = Counts(gained: nat, lost: nat, ambiguous: nat) {
    function Bump(l: Label): Counts {
      match l
      case Positive => Counts(gained + 1, lost, ambiguous)
      case Negative => Counts(gained, lost + 1, ambiguous)
      case Ambiguous => Counts(gained, lost, ambiguous + 1)
    }
    function Total(): nat { gained + lost + ambiguous }
    function Net(): int { gained - lost }
    function Plus(other: Counts): Counts {
      Counts(gained + other.gained, lost + other.lost, ambiguous + other.ambiguous)
    }
  }

  function CountsAt(pairs: seq<Probe>, strict: bool, tau: real): Counts {
    Counts(Flipped(pairs, strict, tau, Positive), Flipped(pairs, strict, tau, Negative), Flipped(pairs, strict, tau, Ambiguous))
  }

  lemma CountsSnoc(pairs: seq<Probe>, p: Probe, strict: bool, tau: real)
    ensures CountsAt(pairs + [p], strict, tau)
         == if Fires(p, strict, tau) then CountsAt(pairs, strict, tau).Bump(LabelOf(p)) else CountsAt(pairs, strict, tau)
  {
    forall l { FlippedSnoc(pairs, p, strict, tau, l); }
  }

  lemma BandSnoc(pairs: seq<Probe>, p: Probe, b: Band)
    ensures OnlyBand(pairs + [p], b) == OnlyBand(pairs, b) + if BandOf(p) == b then [p] else []
  {
    assert (pairs + [p])[..|pairs|] == pairs;
  }

  function Missing(pairs: seq<Probe>): nat {
    if pairs == [] then 0 else Missing(pairs[..|pairs| - 1]) + if pairs[|pairs| - 1].value.Absent? then 1 else 0
  }

  lemma NoPairs(strict: bool, tau: real)
    ensures CountsAt([], strict, tau) == Counts(0, 0, 0) && Missing([]) == 0
    ensures forall b :: CountsAt(OnlyBand([], b), strict, tau) == Counts(0, 0, 0)
  {
  }

  lemma OneMoreInBand(pairs: seq<Probe>, i: nat, strict: bool, tau: real, b: Band)
    requires i < |pairs|
    ensures CountsAt(OnlyBand(pairs[..i + 1], b), strict, tau)
         == if Fires(pairs[i], strict, tau) && BandOf(pairs[i]) == b
            then CountsAt(OnlyBand(pairs[..i], b), strict, tau).Bump(LabelOf(pairs[i]))
            else CountsAt(OnlyBand(pairs[..i], b), strict, tau)
  {
    assert pairs[..i + 1] == pairs[..i] + [pairs[i]];
    BandSnoc(pairs[..i], pairs[i], b);
    CountsSnoc(OnlyBand(pairs[..i], b), pairs[i], strict, tau);
    assert OnlyBand(pairs[..i], b) + [] == OnlyBand(pairs[..i], b);
  }

  lemma OneMorePair(pairs: seq<Probe>, i: nat, strict: bool, tau: real)
    requires i < |pairs|
    ensures Missing(pairs[..i + 1]) == Missing(pairs[..i]) + if pairs[i].value.Absent? then 1 else 0
    ensures Fires(pairs[i], strict, tau) ==> !pairs[i].value.Absent?
    ensures CountsAt(pairs[..i + 1], strict, tau)
         == if Fires(pairs[i], strict, tau) then CountsAt(pairs[..i], strict, tau).Bump(LabelOf(pairs[i]))
            else CountsAt(pairs[..i], strict, tau)
  {
    assert pairs[..i + 1] == pairs[..i] + [pairs[i]];
    assert pairs[..i + 1][..i] == pairs[..i];
    CountsSnoc(pairs[..i], pairs[i], strict, tau);
  }

  lemma PlusBump(x: Counts, y: Counts, z: Counts, l: Label)
    ensures x.Bump(l).Plus(y).Plus(z) == x.Plus(y).Plus(z).Bump(l)
    ensures x.Plus(y.Bump(l)).Plus(z) == x.Plus(y).Plus(z).Bump(l)
    ensures x.Plus(y).Plus(z.Bump(l)) == x.Plus(y).Plus(z).Bump(l)
  {
  }

  /** The bands, with the pairs that have no gap, account for every flip. */
  lemma {:induction false} BandsAddUp(pairs: seq<Probe>, n: nat, strict: bool, tau: real)
    requires n <= |pairs|
    ensures CountsAt(pairs[..n], strict, tau)
         == CountsAt(OnlyBand(pairs[..n], Above), strict, tau).Plus(CountsAt(OnlyBand(pairs[..n], Inside), strict, tau))
              .Plus(CountsAt(OnlyBand(pairs[..n], NoGap), strict, tau))
  {
    hide CountsAt, OnlyBand, Fires, Missing, LabelOf, Counts.Bump;
    if n == 0 {
      NoPairs(strict, tau);
      assert pairs[..0] == [];
    } else {
      hide Counts.Plus;
      BandsAddUp(pairs, n - 1, strict, tau);
      PlusBump(CountsAt(OnlyBand(pairs[..n - 1], Above), strict, tau),
               CountsAt(OnlyBand(pairs[..n - 1], Inside), strict, tau),
               CountsAt(OnlyBand(pairs[..n - 1], NoGap), strict, tau), LabelOf(pairs[n - 1]));
      OneMorePair(pairs, n - 1, strict, tau);
      OneMoreInBand(pairs, n - 1, strict, tau, Above);
      OneMoreInBand(pairs, n - 1, strict, tau, Inside);
      OneMoreInBand(pairs, n - 1, strict, tau, NoGap);
    }
  }

  // The naive count, read off the pairs.

  ghost predicate Defines(p: Probe, strict: bool, tau: real) {
    p.value.Value? && p.value.x >= tau && (strict ==> p.value.x != tau)
  }

  ghost predicate Fixes(p: Probe) {
    p.gold2 && !p.gold1
  }

  ghost predicate Breaks(p: Probe) {
    p.gold1 && !p.gold2
  }

  /** A flip is a gain where it brings gold to the top, a loss where it takes gold off it, and ambiguous where
      both or neither is gold; it happens where the value is there and reaches the threshold, or exceeds it
      when the comparison is strict. */
  lemma {:induction false} CountsMean(pairs: seq<Probe>, strict: bool, tau: real)
    ensures var c := CountsAt(pairs, strict, tau);
            && c.gained == |Places(pairs, (p: Probe) => Defines(p, strict, tau) && Fixes(p))|
            && c.lost == |Places(pairs, (p: Probe) => Defines(p, strict, tau) && Breaks(p))|
            && c.ambiguous == |Places(pairs, (p: Probe) => Defines(p, strict, tau) && p.gold1 == p.gold2)|
  {
    if pairs == [] {
    } else {
      var n := |pairs| - 1;
      var init, last := pairs[..n], pairs[n];
      CountsMean(init, strict, tau);
      CountsSnoc(init, last, strict, tau);
      PlacesSnoc(init, last, (p: Probe) => Defines(p, strict, tau) && Fixes(p));
      PlacesSnoc(init, last, (p: Probe) => Defines(p, strict, tau) && Breaks(p));
      PlacesSnoc(init, last, (p: Probe) => Defines(p, strict, tau) && p.gold1 == p.gold2);
      assert pairs == init + [last];
      hide CountsAt, Places;
    }
  }

  /** The bands, read off the pairs: a gap above 0.084, one that is not, and none. */
  ghost predicate InBand(p: Probe, b: Band) {
    match b
    case Above => p.gap.Some? && p.gap.value > 0.084
    case Inside => p.gap.Some? && p.gap.value <= 0.084
    case NoGap => p.gap == None
  }

  /** A band keeps exactly its pairs, as often as they occur. */
  lemma {:induction false} BandMeans(pairs: seq<Probe>, b: Band, p: Probe)
    ensures multiset(OnlyBand(pairs, b))[p] == if InBand(p, b) then multiset(pairs)[p] else 0
  {
    if pairs == [] {
    } else {
      var n := |pairs| - 1;
      BandMeans(pairs[..n], b, p);
      assert pairs == pairs[..n] + [pairs[n]];
    }
  }

  lemma {:induction false} MissingMeans(pairs: seq<Probe>)
    ensures Missing(pairs) == |Places(pairs, (p: Probe) => p.value == Absent)|
    ensures |Readings(pairs)| == |Places(pairs, (p: Probe) => p.value.Value?)|
  {
    if pairs == [] {
    } else {
      var n := |pairs| - 1;
      MissingMeans(pairs[..n]);
      PlacesSnoc(pairs[..n], pairs[n], (p: Probe) => p.value == Absent);
      PlacesSnoc(pairs[..n], pairs[n], (p: Probe) => p.value.Value?);
      assert pairs == pairs[..n] + [pairs[n]];
    }
  }

  /** The tallies of `table` after the first i pairs. */
  ghost predicate TableSoFar(pairs: seq<Probe>, i: nat, strict: bool, tau: real,
                             all: Counts, above: Counts, inside: Counts, noGap: nat, undefined: nat)
    requires i <= |pairs|
  {
    && undefined == Missing(pairs[..i])
    && all == CountsAt(pairs[..i], strict, tau)
    && above == CountsAt(OnlyBand(pairs[..i], Above), strict, tau)
    && inside == CountsAt(OnlyBand(pairs[..i], Inside), strict, tau)
    && noGap == CountsAt(OnlyBand(pairs[..i], NoGap), strict, tau).Total()
  }

  lemma TableStep(pairs: seq<Probe>, i: nat, strict: bool, tau: real,
                  all: Counts, above: Counts, inside: Counts, noGap: nat, undefined: nat)
    requires i < |pairs| && TableSoFar(pairs, i, strict, tau, all, above, inside, noGap, undefined)
    ensures var p := pairs[i];
            var l := LabelOf(p);
            if p.value.Absent? then TableSoFar(pairs, i + 1, strict, tau, all, above, inside, noGap, undefined + 1)
            else if !Fires(p, strict, tau) then TableSoFar(pairs, i + 1, strict, tau, all, above, inside, noGap, undefined)
            else if p.gap.None? then TableSoFar(pairs, i + 1, strict, tau, all.Bump(l), above, inside, noGap + 1, undefined)
            else if p.gap.value > NEAR_TIE then TableSoFar(pairs, i + 1, strict, tau, all.Bump(l), above.Bump(l), inside, noGap, undefined)
            else TableSoFar(pairs, i + 1, strict, tau, all.Bump(l), above, inside.Bump(l), noGap, undefined)
  {
    hide CountsAt, OnlyBand, Missing, Fires, LabelOf, Counts.Bump;
    OneMorePair(pairs, i, strict, tau);
    OneMoreInBand(pairs, i, strict, tau, Above);
    OneMoreInBand(pairs, i, strict, tau, Inside);
    OneMoreInBand(pairs, i, strict, tau, NoGap);
    BumpAddsOne(CountsAt(OnlyBand(pairs[..i], NoGap), strict, tau), LabelOf(pairs[i]));
  }

  lemma BumpAddsOne(c: Counts, l: Label)
    ensures c.Bump(l).Total() == c.Total() + 1
  {
  }

  lemma TableStarts(pairs: seq<Probe>, strict: bool, tau: real)
    ensures TableSoFar(pairs, 0, strict, tau, Counts(0, 0, 0), Counts(0, 0, 0), Counts(0, 0, 0), 0, 0)
  {
    NoPairs(strict, tau);
    assert pairs[..0] == [];
  }

  lemma TableEnds(pairs: seq<Probe>, strict: bool, tau: real,
                  all: Counts, above: Counts, inside: Counts, noGap: nat, undefined: nat)
    requires TableSoFar(pairs, |pairs|, strict, tau, all, above, inside, noGap, undefined)
    ensures all == CountsAt(pairs, strict, tau)
    ensures above == CountsAt(OnlyBand(pairs, Above), strict, tau)
    ensures inside == CountsAt(OnlyBand(pairs, Inside), strict, tau)
    ensures all.Total() == above.Total() + inside.Total() + noGap
    ensures undefined == Missing(pairs)
  {
    assert pairs[..|pairs|] == pairs;
    hide CountsAt, OnlyBand, Missing;
    BandsAddUp(pairs, |pairs|, strict, tau);
  }

  /** `table`: one pass over the pairs at a fixed threshold, split by the near-tie band. A NaN is not
      missing here; it simply never fires. */
  method Table(pairs: seq<Probe>, strict: bool, tau: real)
    returns (all: Counts, above: Counts, inside: Counts, noGap: nat, undefined: nat)
    ensures all == CountsAt(pairs, strict, tau)
    ensures above == CountsAt(OnlyBand(pairs, Above), strict, tau)
    ensures inside == CountsAt(OnlyBand(pairs, Inside), strict, tau)
    ensures all.Total() == above.Total() + inside.Total() + noGap
    ensures undefined == Missing(pairs)
  {
    hide CountsAt, OnlyBand, Missing, Fires, LabelOf, Counts.Bump, TableSoFar, Counts.Total;
    all, above, inside, noGap, undefined := Counts(0, 0, 0), Counts(0, 0, 0), Counts(0, 0, 0), 0, 0;
    TableStarts(pairs, strict, tau);
    for i := 0 to |pairs|
      invariant TableSoFar(pairs, i, strict, tau, all, above, inside, noGap, undefined)
    {
      var p := pairs[i];
      TableStep(pairs, i, strict, tau, all, above, inside, noGap, undefined);
      if p.value.Absent? {
        undefined := undefined + 1;
      } else if Fires(p, strict, tau) {
        all := all.Bump(LabelOf(p));
        if p.gap.None? {
          noGap := noGap + 1;
        } else if p.gap.value > NEAR_TIE {
          above := above.Bump(LabelOf(p));
        } else {
          inside := inside.Bump(LabelOf(p));
        }
      }
    }
    TableEnds(pairs, strict, tau, all, above, inside, noGap, undefined);
  }

  // ---- what a flip is worth --------------------------------------------------------------------------------

  function HitsBefore(pairs: seq<Probe>): nat {
    if pairs == [] then 0 else HitsBefore(pairs[..|pairs| - 1]) + if pairs[|pairs| - 1].gold1 then 1 else 0
  }

  /** Rank-1 hits once every pair the threshold fires on is swapped. */
  function HitsAfter(pairs: seq<Probe>, strict: bool, tau: real): nat {
    if pairs == [] then 0
    else
      var p := pairs[|pairs| - 1];
      HitsAfter(pairs[..|pairs| - 1], strict, tau)
        + if (if Fires(p, strict, tau) then p.gold2 else p.gold1) then 1 else 0
  }

  /** The net of a threshold is exactly the change in rank-1 hits it causes. */
  lemma {:induction false} NetIsHitChange(pairs: seq<Probe>, strict: bool, tau: real)
    ensures CountsAt(pairs, strict, tau).Net() == HitsAfter(pairs, strict, tau) - HitsBefore(pairs)
  {
    if pairs == [] {
    } else {
      NetIsHitChange(pairs[..|pairs| - 1], strict, tau);
    }
  }

  // ---- the sweep ---------------------------------------------------------------------------------------------

  datatype Reading = Reading(x: real, kind: Label)

  /** The defined readings, in pair order. */
  function Readings(pairs: seq<Probe>): seq<Reading> {
    if pairs == [] then []
    else
      var p := pairs[|pairs| - 1];
      Readings(pairs[..|pairs| - 1]) + if p.value.Value? then [Reading(p.value.x, LabelOf(p))] else []
  }

  function Tally(rs: seq<Reading>, tau: real, kind: Label): nat {
    if rs == [] then 0
    else Tally(rs[1..], tau, kind) + if rs[0].x >= tau && rs[0].kind == kind then 1 else 0
  }

  lemma {:induction false} TallyAppend(a: seq<Reading>, b: seq<Reading>, tau: real, kind: Label)
    ensures Tally(a + b, tau, kind) == Tally(a, tau, kind) + Tally(b, tau, kind)
  {
    if a == [] { assert a + b == b; }
    else { assert (a + b)[1..] == a[1..] + b; TallyAppend(a[1..], b, tau, kind); }
  }

  lemma {:induction false} ReadingsTally(pairs: seq<Probe>, tau: real, kind: Label)
    ensures Tally(Readings(pairs), tau, kind) == Flipped(pairs, false, tau, kind)
  {
    if pairs == [] {
    } else {
      var p, init := pairs[|pairs| - 1], pairs[..|pairs| - 1];
      ReadingsTally(init, tau, kind);
      if p.value.Value? {
        var last := [Reading(p.value.x, LabelOf(p))];
        TallyAppend(Readings(init), last, tau, kind);
        assert last[1..] == [];
      } else {
        assert Readings(init) + [] == Readings(init);
      }
    }
  }

  lemma TallyOfPermutation(a: seq<Reading>, b: seq<Reading>, tau: real, kind: Label)
    requires multiset(a) == multiset(b)
    ensures Tally(a, tau, kind) == Tally(b, tau, kind)
  {
    var f := s => Tally(s, tau, kind);
    forall s, t ensures f(s + t) == f(t + s) {
      TallyAppend(s, t, tau, kind);
      TallyAppend(t, s, tau, kind);
    }
    forall r, s, t | f(s) == f(t) ensures f(r + s) == f(r + t) {
      TallyAppend(r, s, tau, kind);
      TallyAppend(r, t, tau, kind);
    }
    PermutationAddsUp(a, b, f);
  }

  ghost predicate Falling(taus: seq<real>) {
    forall i, j :: 0 <= i < j < |taus| ==> taus[i] > taus[j]
  }

  /** The distinct defined values, highest first. */
  ghost predicate Thresholds(pairs: seq<Probe>, taus: seq<real>) {
    && Falling(taus)
    && forall t :: t in taus <==> exists r :: r in Readings(pairs) && r.x == t
  }

  datatype CurveRow = CurveRow(tau: real, nFlipped: nat, counts: Counts)

  /** One row per distinct value; the stored threshold is rounded, the counts are taken unrounded. */
  ghost predicate IsCurve(pairs: seq<Probe>, taus: seq<real>, rows: seq<CurveRow>) {
    && Thresholds(pairs, taus)
    && |rows| == |taus|
    && forall j :: 0 <= j < |rows| ==> RowAt(pairs, taus[j], rows[j])
  }

  ghost predicate RowAt(pairs: seq<Probe>, tau: real, row: CurveRow) {
    row.tau == Round6(tau) && row.counts == CountsAt(pairs, false, tau) && row.nFlipped == row.counts.Total()
  }

  // ---- the tie-block pass ----------------------------------------------------------------------------------

  function KindCount(rs: seq<Reading>, kind: Label): nat {
    if rs == [] then 0 else KindCount(rs[1..], kind) + if rs[0].kind == kind then 1 else 0
  }

  function KindCounts(rs: seq<Reading>): Counts {
    Counts(KindCount(rs, Positive), KindCount(rs, Negative), KindCount(rs, Ambiguous))
  }

  lemma {:induction false} KindCountAppend(a: seq<Reading>, r: Reading, kind: Label)
    ensures KindCount(a + [r], kind) == KindCount(a, kind) + if r.kind == kind then 1 else 0
  {
    if a == [] {
      assert a + [r] == [r] && [r][1..] == [];
    } else {
      assert (a + [r])[1..] == a[1..] + [r];
      KindCountAppend(a[1..], r, kind);
    }
  }

  lemma KindCountsAppend(a: seq<Reading>, r: Reading)
    ensures KindCounts(a + [r]) == KindCounts(a).Bump(r.kind)
  {
    KindCountAppend(a, r, Positive);
    KindCountAppend(a, r, Negative);
    KindCountAppend(a, r, Ambiguous);
  }

  lemma {:induction false} TallyAllOrNone(rs: seq<Reading>, tau: real, kind: Label)
    ensures (forall k :: 0 <= k < |rs| ==> rs[k].x >= tau) ==> Tally(rs, tau, kind) == KindCount(rs, kind)
    ensures (forall k :: 0 <= k < |rs| ==> rs[k].x < tau) ==> Tally(rs, tau, kind) == 0
  {
    if rs == [] {
    } else {
      TallyAllOrNone(rs[1..], tau, kind);
      assert forall k :: 0 <= k < |rs[1..]| ==> rs[1..][k] == rs[k + 1];
    }
  }

  lemma {:induction false} KindTotal(rs: seq<Reading>)
    ensures KindCounts(rs).Total() == |rs|
  {
    if rs == [] {
    } else {
      KindTotal(rs[1..]);
    }
  }

  ghost predicate Descending(rs: seq<Reading>) {
    forall i, j :: 0 <= i < j < |rs| ==> rs[i].x >= rs[j].x
  }

  lemma BlockCount(pairs: seq<Probe>, sorted: seq<Reading>, j: nat, tau: real, kind: Label)
    requires multiset(sorted) == multiset(Readings(pairs)) && Descending(sorted)
    requires 0 < j <= |sorted| && sorted[j - 1].x == tau && (j < |sorted| ==> sorted[j].x != tau)
    ensures KindCount(sorted[..j], kind) == Flipped(pairs, false, tau, kind)
  {
    hide Tally, KindCount, Flipped, Readings;
    ReadingsTally(pairs, tau, kind);
    TallyOfPermutation(sorted, Readings(pairs), tau, kind);
    assert sorted == sorted[..j] + sorted[j..];
    TallyAppend(sorted[..j], sorted[j..], tau, kind);
    assert forall k :: 0 <= k < j ==> sorted[k].x >= tau;
    assert j < |sorted| ==> sorted[j].x < tau;
    assert forall k :: j <= k < |sorted| ==> sorted[k].x < tau;
    TallyAllOrNone(sorted[..j], tau, kind);
    TallyAllOrNone(sorted[j..], tau, kind);
  }

  /** A whole prefix of tie blocks holds exactly the readings at or above its last value. */
  lemma BlockCounts(pairs: seq<Probe>, sorted: seq<Reading>, j: nat, tau: real)
    requires multiset(sorted) == multiset(Readings(pairs)) && Descending(sorted)
    requires 0 < j <= |sorted| && sorted[j - 1].x == tau && (j < |sorted| ==> sorted[j].x != tau)
    ensures KindCounts(sorted[..j]) == CountsAt(pairs, false, tau)
    ensures KindCounts(sorted[..j]).Total() == j
  {
    hide Readings, Descending, KindCount, Flipped;
    KindTotal(sorted[..j]);
    BlockCount(pairs, sorted, j, tau, Positive);
    BlockCount(pairs, sorted, j, tau, Negative);
    BlockCount(pairs, sorted, j, tau, Ambiguous);
  }

  /** The thresholds of the tie blocks that end at i. */
  ghost predicate ValuesSoFar(sorted: seq<Reading>, i: nat, taus: seq<real>)
    requires i <= |sorted|
  {
    && Falling(taus)
    && (forall t :: t in taus <==> exists k :: 0 <= k < i && sorted[k].x == t)
    && (i < |sorted| ==> forall t :: t in taus ==> t > sorted[i].x)
  }

  lemma FallingAppend(taus: seq<real>, tau: real)
    requires Falling(taus) && forall t :: t in taus ==> t > tau
    ensures Falling(taus + [tau])
    ensures forall t :: t in taus + [tau] <==> t in taus || t == tau
  {
    forall n | 0 <= n < |taus| ensures taus[n] > tau {
      assert taus[n] in taus;
    }
  }

  lemma ValuesBlock(sorted: seq<Reading>, i: nat, j: nat, taus: seq<real>)
    requires Descending(sorted) && i < j <= |sorted| && ValuesSoFar(sorted, i, taus)
    requires forall k :: i <= k < j ==> sorted[k].x == sorted[i].x
    requires j < |sorted| ==> sorted[j].x != sorted[i].x
    ensures ValuesSoFar(sorted, j, taus + [sorted[i].x])
  {
    var tau := sorted[i].x;
    FallingAppend(taus, tau);
    hide Falling;
    var taus' := taus + [tau];
    forall t ensures t in taus' <==> exists k :: 0 <= k < j && sorted[k].x == t {
      if t in taus {
        var k :| 0 <= k < i && sorted[k].x == t;
      }
      if t == tau { assert sorted[i].x == t; }
    }
    if j < |sorted| {
      assert sorted[i].x > sorted[j].x;
    }
  }

  /** The curve after the blocks that end at i. */
  ghost predicate CurveSoFar(pairs: seq<Probe>, sorted: seq<Reading>, i: nat, taus: seq<real>, rows: seq<CurveRow>)
    requires i <= |sorted|
  {
    && |rows| == |taus|
    && (forall j :: 0 <= j < |rows| ==> RowAt(pairs, taus[j], rows[j]))
    && ValuesSoFar(sorted, i, taus)
  }

  lemma CurveBlock(pairs: seq<Probe>, sorted: seq<Reading>, i: nat, j: nat, taus: seq<real>, rows: seq<CurveRow>)
    requires multiset(sorted) == multiset(Readings(pairs)) && Descending(sorted)
    requires i < j <= |sorted| && CurveSoFar(pairs, sorted, i, taus, rows)
    requires forall k :: i <= k < j ==> sorted[k].x == sorted[i].x
    requires j < |sorted| ==> sorted[j].x != sorted[i].x
    ensures var tau := sorted[i].x;
            CurveSoFar(pairs, sorted, j, taus + [tau], rows + [CurveRow(Round6(tau), j, KindCounts(sorted[..j]))])
  {
    hide KindCounts, Round6, CountsAt, ValuesSoFar, Readings;
    var tau := sorted[i].x;
    BlockCounts(pairs, sorted, j, tau);
    ValuesBlock(sorted, i, j, taus);
    var row := CurveRow(Round6(tau), j, KindCounts(sorted[..j]));
    assert RowAt(pairs, tau, row);
    hide RowAt;
    var taus', rows' := taus + [tau], rows + [row];
    forall n | 0 <= n < |rows'| ensures RowAt(pairs, taus'[n], rows'[n]) {
      if n < |rows| { assert taus'[n] == taus[n] && rows'[n] == rows[n]; }
    }
  }

  /** A row loses to one with a larger net, or with the same net and no more flips. */
  predicate NoBetter(r: CurveRow, b: CurveRow) {
    r.counts.Net() < b.counts.Net() || (r.counts.Net() == b.counts.Net() && r.nFlipped >= b.nFlipped)
  }

  ghost predicate IsBest(rows: seq<CurveRow>, b: CurveRow) {
    && b in rows
    && forall r :: r in rows ==> NoBetter(r, b)
  }

  /** `max(rows, key=(net, -n_flipped))`: the first row no other beats. */
  function Best(rows: seq<CurveRow>): (b: CurveRow)
    requires rows != []
    ensures IsBest(rows, b)
  {
    if |rows| == 1 then rows[0]
    else
      var b, last := Best(rows[..|rows| - 1]), rows[|rows| - 1];
      assert forall r :: r in rows ==> r in rows[..|rows| - 1] || r == last;
      if last.counts.Net() > b.counts.Net() || (last.counts.Net() == b.counts.Net() && last.nFlipped < b.nFlipped)
      then last else b
  }

  /** The best row, read off the rows. */
  lemma BestMeans(rows: seq<CurveRow>, r: CurveRow)
    requires r in rows
    ensures Best(rows) in rows
    ensures var b := Best(rows);
            && r.counts.gained - r.counts.lost <= b.counts.gained - b.counts.lost
            && (r.counts.gained - r.counts.lost == b.counts.gained - b.counts.lost ==> r.nFlipped >= b.nFlipped)
  {
    assert IsBest(rows, Best(rows));
  }

  /** `score_feature`: one pass over the readings, highest first, a whole tie block at a time. */
  method ScoreFeature(pairs: seq<Probe>)
    returns (rows: seq<CurveRow>, nDefined: nat, nUndefined: nat, ghost taus: seq<real>)
    ensures IsCurve(pairs, taus, rows)
    ensures nDefined == |Readings(pairs)| && nDefined + nUndefined == |pairs|
  {
    var vals: seq<Reading> := [];
    nUndefined := 0;
    for i := 0 to |pairs|
      invariant vals == Readings(pairs[..i]) && nUndefined + |vals| == i
    {
      assert pairs[..i + 1] == pairs[..i] + [pairs[i]];
      assert pairs[..i + 1][..i] == pairs[..i];
      match pairs[i].value
      case Value(x) => vals := vals + [Reading(x, LabelOf(pairs[i]))];
      case _ => nUndefined := nUndefined + 1;
    }
    assert pairs[..|pairs|] == pairs;
    nDefined := |vals|;
    rows, taus := Sweep(pairs, vals);
  }

  lemma SortedReadings(vals: seq<Reading>)
    ensures Descending(SortBy(vals, (a: Reading, b: Reading) => a.x >= b.x))
  {
    SortOrders(vals, (a: Reading, b: Reading) => a.x >= b.x);
  }

  method Sweep(ghost pairs: seq<Probe>, vals: seq<Reading>) returns (rows: seq<CurveRow>, ghost taus: seq<real>)
    requires vals == Readings(pairs)
    ensures IsCurve(pairs, taus, rows)
  {
    var sorted := SortBy(vals, (a: Reading, b: Reading) => a.x >= b.x);
    SortedReadings(vals);
    hide KindCounts, Round6, CurveSoFar, Readings, Descending, Counts.Bump;
    rows, taus := [], [];
    EmptyCurve(pairs, sorted);
    var counts := Counts(0, 0, 0);
    var i := 0;
    while i < |sorted|
      invariant 0 <= i <= |sorted|
      invariant CurveSoFar(pairs, sorted, i, taus, rows)
      invariant counts == KindCounts(sorted[..i])
    {
      var tau, j := sorted[i].x, i;
      while j < |sorted| && sorted[j].x == tau
        invariant i <= j <= |sorted|
        invariant forall k :: i <= k < j ==> sorted[k].x == tau
        invariant counts == KindCounts(sorted[..j])
      {
        assert sorted[..j + 1] == sorted[..j] + [sorted[j]];
        KindCountsAppend(sorted[..j], sorted[j]);
        counts := counts.Bump(sorted[j].kind);
        j := j + 1;
      }
      CurveBlock(pairs, sorted, i, j, taus, rows);
      rows := rows + [CurveRow(Round6(tau), j, counts)];
      taus := taus + [tau];
      i := j;
    }
    CurveEnds(pairs, sorted, taus, rows);
  }

  lemma EmptyCurve(pairs: seq<Probe>, sorted: seq<Reading>)
    ensures CurveSoFar(pairs, sorted, 0, [], []) && KindCounts(sorted[..0]) == Counts(0, 0, 0)
  {
  }

  lemma CurveEnds(pairs: seq<Probe>, sorted: seq<Reading>, taus: seq<real>, rows: seq<CurveRow>)
    requires multiset(sorted) == multiset(Readings(pairs)) && CurveSoFar(pairs, sorted, |sorted|, taus, rows)
    ensures IsCurve(pairs, taus, rows)
  {
    SameMembers(sorted, Readings(pairs));
    forall t ensures t in taus <==> exists r :: r in Readings(pairs) && r.x == t {
      if t in taus {
        var k :| 0 <= k < |sorted| && sorted[k].x == t;
        assert sorted[k] in Readings(pairs);
      }
      if exists r :: r in Readings(pairs) && r.x == t {
        var r :| r in Readings(pairs) && r.x == t;
        assert r in sorted;
        var k :| 0 <= k < |sorted| && sorted[k] == r;
        assert sorted[k].x == t;
      }
    }
  }

  // ---- the sign-inverted control ---------------------------------------------------------------------------

  function Negated(v: Feature): Feature {
    match v case Value(x) => Value(-x) case _ => v
  }

  /** The same pairs under `lambda p: None if fn(p) is None else -fn(p)`. */
  function Inverted(pairs: seq<Probe>): (r: seq<Probe>)
    ensures |r| == |pairs| && forall i :: 0 <= i < |r| ==> r[i] == pairs[i].(value := Negated(pairs[i].value))
  {
    seq(|pairs|, i requires 0 <= i < |pairs| => pairs[i].(value := Negated(pairs[i].value)))
  }

  /** Every defined pair with the given label. */
  function Defined(pairs: seq<Probe>, kind: Label): nat {
    if pairs == [] then 0
    else Defined(pairs[..|pairs| - 1], kind)
         + if pairs[|pairs| - 1].value.Value? && LabelOf(pairs[|pairs| - 1]) == kind then 1 else 0
  }

  function FlipEverything(pairs: seq<Probe>): Counts {
    Counts(Defined(pairs, Positive), Defined(pairs, Negative), Defined(pairs, Ambiguous))
  }

  /** Nothing is defined strictly between lo and hi. */
  ghost predicate Between(pairs: seq<Probe>, lo: real, hi: real) {
    forall i :: 0 <= i < |pairs| && pairs[i].value.Value? ==> pairs[i].value.x >= hi || pairs[i].value.x <= lo
  }

  lemma {:induction false} SidesAddUp(pairs: seq<Probe>, lo: real, hi: real, kind: Label)
    requires lo < hi && Between(pairs, lo, hi)
    ensures Flipped(pairs, false, hi, kind) + Flipped(Inverted(pairs), false, -lo, kind) == Defined(pairs, kind)
  {
    if pairs == [] {
    } else {
      var init := pairs[..|pairs| - 1];
      assert Inverted(pairs)[..|pairs| - 1] == Inverted(init);
      SidesAddUp(init, lo, hi, kind);
    }
  }

  lemma {:induction false} AllAbove(pairs: seq<Probe>, tau: real, kind: Label)
    requires forall i :: 0 <= i < |pairs| && pairs[i].value.Value? ==> pairs[i].value.x >= tau
    ensures Flipped(pairs, false, tau, kind) == Defined(pairs, kind)
  {
    if pairs == [] {
    } else {
      AllAbove(pairs[..|pairs| - 1], tau, kind);
    }
  }

  lemma {:induction false} ReadingsHold(pairs: seq<Probe>, t: real)
    ensures (exists r :: r in Readings(pairs) && r.x == t) <==> exists i :: 0 <= i < |pairs| && pairs[i].value == Value(t)
  {
    if pairs == [] {
    } else {
      var init, p := pairs[..|pairs| - 1], pairs[|pairs| - 1];
      ReadingsHold(init, t);
      if p.value.Value? {
        var last := Reading(p.value.x, LabelOf(p));
        assert forall r :: r in Readings(pairs) <==> r in Readings(init) || r == last;
      }
    }
  }

  lemma ThresholdsHold(pairs: seq<Probe>, taus: seq<real>, t: real)
    requires Thresholds(pairs, taus)
    ensures t in taus <==> exists i :: 0 <= i < |pairs| && pairs[i].value == Value(t)
  {
    ReadingsHold(pairs, t);
  }

  function Mirror(taus: seq<real>): (r: seq<real>)
    ensures |r| == |taus| && forall k :: 0 <= k < |r| ==> r[k] == -taus[|taus| - 1 - k]
  {
    seq(|taus|, k requires 0 <= k < |taus| => -taus[|taus| - 1 - k])
  }

  lemma FallingUnique(a: seq<real>, b: seq<real>)
    requires Falling(a) && Falling(b) && forall t: real :: t in a <==> t in b
    ensures a == b
  {
    forall i | 0 <= i < |a| ensures a[i] in b { assert a[i] in a; }
    forall i | 0 <= i < |b| ensures b[i] in a { assert b[i] in b; }
    StrictChainUnique(a, b, (x: real, y: real) => x > y);
  }

  /** The control's thresholds are the forward ones, negated and reversed. */
  lemma InvertedThresholds(pairs: seq<Probe>, taus: seq<real>, inv: seq<real>)
    requires Thresholds(pairs, taus) && Thresholds(Inverted(pairs), inv)
    ensures inv == Mirror(taus)
  {
    forall t: real ensures t in inv <==> t in Mirror(taus) {
      ThresholdsHold(Inverted(pairs), inv, t);
      ThresholdsHold(pairs, taus, -t);
      if t in inv {
        var i :| 0 <= i < |pairs| && Inverted(pairs)[i].value == Value(t);
        assert pairs[i].value == Value(-t);
        var k :| 0 <= k < |taus| && taus[k] == -t;
        assert Mirror(taus)[|taus| - 1 - k] == t;
      }
      if t in Mirror(taus) {
        var k :| 0 <= k < |taus| && Mirror(taus)[k] == t;
        assert taus[|taus| - 1 - k] == -t;
        var i :| 0 <= i < |pairs| && pairs[i].value == Value(-t);
        assert Inverted(pairs)[i].value == Value(t);
      }
    }
    hide Thresholds;
    FallingUnique(inv, Mirror(taus));
  }

  lemma GapBetweenThresholds(pairs: seq<Probe>, taus: seq<real>, j: nat)
    requires Thresholds(pairs, taus) && j + 1 < |taus|
    ensures Between(pairs, taus[j + 1], taus[j]) && taus[j + 1] < taus[j]
  {
    forall i | 0 <= i < |pairs| && pairs[i].value.Value? ensures pairs[i].value.x >= taus[j] || pairs[i].value.x <= taus[j + 1] {
      ThresholdsHold(pairs, taus, pairs[i].value.x);
      var k :| 0 <= k < |taus| && taus[k] == pairs[i].value.x;
      assert k <= j ==> taus[k] >= taus[j];
      assert k > j ==> taus[k] <= taus[j + 1];
    }
  }

  lemma LastRowIsEverything(pairs: seq<Probe>, taus: seq<real>)
    requires Thresholds(pairs, taus) && taus != []
    ensures CountsAt(pairs, false, taus[|taus| - 1]) == FlipEverything(pairs)
  {
    var last := taus[|taus| - 1];
    forall i | 0 <= i < |pairs| && pairs[i].value.Value? ensures pairs[i].value.x >= last {
      ThresholdsHold(pairs, taus, pairs[i].value.x);
      var k :| 0 <= k < |taus| && taus[k] == pairs[i].value.x;
    }
    forall kind { AllAbove(pairs, last, kind); }
  }

  /** Duality: forward row j and the control row that mirrors it flip complementary pairs, so their
      counts add up to flipping everything. */
  lemma ControlMirrorsForward(pairs: seq<Probe>, taus: seq<real>, rows: seq<CurveRow>,
                              inv: seq<real>, control: seq<CurveRow>, j: nat)
    requires IsCurve(pairs, taus, rows) && IsCurve(Inverted(pairs), inv, control)
    requires j < |rows|
    ensures |control| == |rows|
    ensures rows[|rows| - 1].counts == control[|rows| - 1].counts == FlipEverything(pairs)
    ensures j < |rows| - 1 ==> rows[j].counts.Plus(control[|rows| - 2 - j].counts) == rows[|rows| - 1].counts
  {
    InvertedThresholds(pairs, taus, inv);
    LastRowIsEverything(pairs, taus);
    LastRowIsEverything(Inverted(pairs), inv);
    DefinedInverted(pairs);
    assert RowAt(pairs, taus[|taus| - 1], rows[|rows| - 1]);
    assert RowAt(Inverted(pairs), inv[|inv| - 1], control[|control| - 1]);
    if j < |rows| - 1 {
      hide IsCurve, RowAt, Thresholds;
      RowMirrored(pairs, taus, rows, inv, control, j);
    }
  }

  lemma RowMirrored(pairs: seq<Probe>, taus: seq<real>, rows: seq<CurveRow>,
                    inv: seq<real>, control: seq<CurveRow>, j: nat)
    requires IsCurve(pairs, taus, rows) && IsCurve(Inverted(pairs), inv, control) && inv == Mirror(taus)
    requires j + 1 < |rows| == |control|
    ensures rows[j].counts.Plus(control[|rows| - 2 - j].counts) == FlipEverything(pairs)
  {
    GapBetweenThresholds(pairs, taus, j);
    assert RowAt(pairs, taus[j], rows[j]);
    assert RowAt(Inverted(pairs), inv[|rows| - 2 - j], control[|rows| - 2 - j]);
    assert inv[|rows| - 2 - j] == -taus[j + 1];
    hide IsCurve, RowAt, Between, Thresholds;
    forall kind { SidesAddUp(pairs, taus[j + 1], taus[j], kind); }
  }

  lemma DefinedInverted(pairs: seq<Probe>)
    ensures FlipEverything(Inverted(pairs)) == FlipEverything(pairs)
  {
    forall kind { DefinedInvertedFor(pairs, kind); }
  }

  lemma {:induction false} DefinedInvertedFor(pairs: seq<Probe>, kind: Label)
    ensures Defined(Inverted(pairs), kind) == Defined(pairs, kind)
  {
    if pairs == [] {
    } else {
      var init := pairs[..|pairs| - 1];
      assert Inverted(pairs)[..|pairs| - 1] == Inverted(init);
      DefinedInvertedFor(init, kind);
    }
  }

  lemma MirroredNets(pairs: seq<Probe>, taus: seq<real>, rows: seq<CurveRow>, inv: seq<real>, control: seq<CurveRow>)
    requires IsCurve(pairs, taus, rows) && IsCurve(Inverted(pairs), inv, control) && rows != []
    ensures |control| == |rows|
    ensures control[|rows| - 1].counts.Net() == rows[|rows| - 1].counts.Net()
    ensures forall j :: 0 <= j < |rows| - 1 ==>
              control[|rows| - 2 - j].counts.Net() == rows[|rows| - 1].counts.Net() - rows[j].counts.Net()
  {
    hide IsCurve, FlipEverything;
    ControlMirrorsForward(pairs, taus, rows, inv, control, 0);
    forall j | 0 <= j < |rows| - 1
      ensures control[|rows| - 2 - j].counts.Net() == rows[|rows| - 1].counts.Net() - rows[j].counts.Net()
    {
      ControlMirrorsForward(pairs, taus, rows, inv, control, j);
    }
  }

  /** So the control's best net is fixed by the forward curve: it is the net of flipping everything,
      or that net less some earlier forward row's, whichever is largest. */
  lemma ControlBestNet(pairs: seq<Probe>, taus: seq<real>, rows: seq<CurveRow>,
                       inv: seq<real>, control: seq<CurveRow>, b: CurveRow)
    requires IsCurve(pairs, taus, rows) && IsCurve(Inverted(pairs), inv, control) && IsBest(control, b) && rows != []
    ensures var total := rows[|rows| - 1].counts.Net();
            && b.counts.Net() >= total
            && (forall j :: 0 <= j < |rows| - 1 ==> b.counts.Net() >= total - rows[j].counts.Net())
            && (b.counts.Net() == total
                || exists j :: 0 <= j < |rows| - 1 && b.counts.Net() == total - rows[j].counts.Net())
  {
    hide IsCurve, Counts.Net;
    MirroredNets(pairs, taus, rows, inv, control);
    var n := |rows|;
    assert NoBetter(control[n - 1], b);
    forall j | 0 <= j < n - 1 ensures b.counts.Net() >= rows[n - 1].counts.Net() - rows[j].counts.Net() {
      assert NoBetter(control[n - 2 - j], b);
    }
    var k :| 0 <= k < n && control[k] == b;
    if k < n - 1 {
      var j := n - 2 - k;
      assert control[n - 2 - j] == b;
      assert b.counts.Net() == rows[n - 1].counts.Net() - rows[j].counts.Net();
    }
  }

  function Distance(r: CurveRow, budget: nat): nat {
    if r.nFlipped >= budget then r.nFlipped - budget else budget - r.nFlipped
  }

  /** Closest to the budget, then fewest flips. */
  predicate Closer(a: CurveRow, b: CurveRow, budget: nat) {
    Distance(a, budget) < Distance(b, budget) || (Distance(a, budget) == Distance(b, budget) && a.nFlipped <= b.nFlipped)
  }

  /** `min(rows, key=(abs(n_flipped - k), n_flipped))`. */
  function Nearest(rows: seq<CurveRow>, budget: nat): (r: CurveRow)
    requires rows != []
    ensures r in rows && forall s :: s in rows ==> Closer(r, s, budget)
  {
    if |rows| == 1 then rows[0]
    else
      var b, last := Nearest(rows[..|rows| - 1], budget), rows[|rows| - 1];
      assert forall r :: r in rows ==> r in rows[..|rows| - 1] || r == last;
      if Closer(b, last, budget) then b else last
  }

  /** The nearest row, read off the rows: no row is closer to the budget on either side, and none as close has
      fewer flips. */
  lemma NearestMeans(rows: seq<CurveRow>, budget: nat, r: CurveRow)
    requires r in rows
    ensures Nearest(rows, budget) in rows
    ensures var b := Nearest(rows, budget);
            && !(-Off(b, budget) < r.nFlipped - budget < Off(b, budget))
            && (r.nFlipped - budget in {Off(b, budget), -Off(b, budget)} ==> b.nFlipped <= r.nFlipped)
  {
    assert Closer(Nearest(rows, budget), r, budget);
  }

  ghost function Off(r: CurveRow, budget: nat): int {
    if r.nFlipped > budget then r.nFlipped - budget else budget - r.nFlipped
  }

  /** `evaluate`: the feature, its control, the control at the feature's own flip budget, and how far
      apart the two best nets are. */
  method Evaluate(pairs: seq<Probe>)
    returns (fwd: seq<CurveRow>, control: seq<CurveRow>, matched: Option<CurveRow>, best: int, separation: int,
             ghost taus: seq<real>, ghost inv: seq<real>)
    ensures IsCurve(pairs, taus, fwd) && IsCurve(Inverted(pairs), inv, control)
    ensures fwd == [] <==> control == []
    ensures fwd == [] ==> matched == None && best == 0 && separation == 0
    ensures fwd != [] ==>
              exists f, c :: IsBest(fwd, f) && IsBest(control, c) && best == f.counts.Net()
                             && separation == f.counts.Net() - c.counts.Net()
                             && matched == Some(Nearest(control, f.nFlipped))
  {
    var n, m;
    fwd, n, m, taus := ScoreFeature(pairs);
    control, n, m, inv := ScoreFeature(Inverted(pairs));
    matched, best, separation := None, 0, 0;
    InvertedThresholds(pairs, taus, inv);
    if fwd != [] {
      var f, c := Best(fwd), Best(control);
      matched := Some(Nearest(control, f.nFlipped));
      best := f.counts.Net();
      separation := best - c.counts.Net();
    }
  }

  // ---- reading the curve back ------------------------------------------------------------------------------

  /** Applying a row's STORED threshold flips what the row counted exactly when rounding did not go
      up and no other defined value lies between the stored and the true threshold. */
  lemma StoredThresholdReadsBack(pairs: seq<Probe>, taus: seq<real>, rows: seq<CurveRow>, j: nat)
    requires IsCurve(pairs, taus, rows) && j < |rows|
    ensures CountsAt(pairs, false, rows[j].tau) == rows[j].counts
       <==> rows[j].tau <= taus[j] && (forall i :: 0 <= i < |pairs| && pairs[i].value.Value? ==>
                                          !(rows[j].tau <= pairs[i].value.x < taus[j]))
  {
    var stored, tau := rows[j].tau, taus[j];
    assert RowAt(pairs, tau, rows[j]);
    assert tau in taus;
    ThresholdsHold(pairs, taus, tau);
    var w :| 0 <= w < |pairs| && pairs[w].value == Value(tau);
    if stored <= tau {
      TotalsDiffer(pairs, stored, tau);
    } else {
      TotalsDiffer(pairs, tau, stored);
    }
  }

  /** One pair, read at 0.7 millionths: the stored threshold rounds up to one millionth and fires on nothing. */
  lemma StoredThresholdMisses(taus: seq<real>, rows: seq<CurveRow>)
    requires IsCurve([Probe(false, true, None, Value(0.0000007))], taus, rows)
    ensures |rows| == 1 && rows[0].counts == Counts(1, 0, 0)
    ensures CountsAt([Probe(false, true, None, Value(0.0000007))], false, rows[0].tau) == Counts(0, 0, 0)
  {
    var p := Probe(false, true, None, Value(0.0000007));
    assert [p][..0] == [];
    assert taus == [0.0000007] by {
      forall t: real ensures t in taus <==> t in [0.0000007] { ThresholdsHold([p], taus, t); }
      FallingUnique(taus, [0.0000007]);
    }
    assert RowAt([p], taus[0], rows[0]);
    assert 0.0000007 * 1000000.0 == 0.7 && (0.7 as real).Floor == 0;
    assert Round6(0.0000007) == 1.0 / 1000000.0;
  }

  ghost predicate Straddled(pairs: seq<Probe>, lo: real, hi: real) {
    exists i :: 0 <= i < |pairs| && pairs[i].value.Value? && lo <= pairs[i].value.x < hi
  }

  /** Lowering a threshold changes the counts exactly when some value lies in between. */
  lemma {:induction false} TotalsDiffer(pairs: seq<Probe>, lo: real, hi: real)
    requires lo <= hi
    ensures CountsAt(pairs, false, lo) == CountsAt(pairs, false, hi) <==> !Straddled(pairs, lo, hi)
    ensures CountsAt(pairs, false, lo).gained >= CountsAt(pairs, false, hi).gained
    ensures CountsAt(pairs, false, lo).lost >= CountsAt(pairs, false, hi).lost
    ensures CountsAt(pairs, false, lo).ambiguous >= CountsAt(pairs, false, hi).ambiguous
  {
    if pairs == [] {
    } else {
      var init, p := pairs[..|pairs| - 1], pairs[|pairs| - 1];
      TotalsDiffer(init, lo, hi);
      assert pairs == init + [p];
      CountsSnoc(init, p, false, lo);
      CountsSnoc(init, p, false, hi);
      if Straddled(init, lo, hi) {
        var i :| 0 <= i < |init| && init[i].value.Value? && lo <= init[i].value.x < hi;
        assert pairs[i] == init[i];
      }
    }
  }
}
