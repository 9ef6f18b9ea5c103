/** The exact two-sided McNemar test in exact arithmetic, the verdicts that read it, and the
    gained/lost accounting it is fed. */
module McNemar {
  import opened Options
  import opened Sorting
  import opened Binomial

  function Min(a: nat, b: nat): nat {
    if a <= b then a else b
  }

  function Gap(b: nat, c: nat): nat {
    if b <= c then c - b else b - c
  }

  function AtMostOne(x: real): real {
    if x < 1.0 then x else 1.0
  }

  /** `answer_registered_question.mcnemar_exact`. */
  function ExactP(gains: nat, losses: nat): real {
    var n := gains + losses;
    if n == 0 then 1.0
    else
      var tail := (Tail(n, Min(gains, losses)) as real) / (Pow2(n) as real);
      AtMostOne(2.0 * tail)
  }

  /** `0.5 ** n`. */
  function Half(n: nat): real {
    if n == 0 then 1.0 else 0.5 * Half(n - 1)
  }

  /** `compare_top1.mcnemar_exact_two_sided`. */
  function CompareP(b: nat, c: nat): real {
    var n := b + c;
    if n == 0 then 1.0
    else
      var tail := (Tail(n, Min(b, c)) as real) * Half(n);
      AtMostOne(2.0 * tail)
  }

  /** The expression in `m0c_cv_arms.main`, which is NaN when nothing is discordant. */
  function CvP(gained: nat, lost: nat): Option<real> {
    var disc := gained + lost;
    if disc == 0 then None
    else Some(AtMostOne(2.0 * (Tail(disc, Min(gained, lost)) as real) / (Pow2(disc) as real)))
  }

  lemma {:induction false} HalfInvertsPow2(n: nat)
    ensures Half(n) * (Pow2(n) as real) == 1.0
  {
    if n == 0 {
    } else {
      HalfInvertsPow2(n - 1);
      var h, p := Half(n - 1), Pow2(n - 1) as real;
      assert Pow2(n) as real == 2.0 * p;
      assert (0.5 * h) * (2.0 * p) == h * p;
    }
  }

  lemma QuotientIsProduct(x: real, h: real, p: real)
    requires h * p == 1.0 && p > 0.0
    ensures x / p == x * h
  {
    assert (x * h) * p == x * (h * p);
  }

  /** The three tools compute one p-value; the third differs only in reporting no value for no
      discordant pairs. */
  lemma ImplementationsAgree(b: nat, c: nat)
    ensures CompareP(b, c) == ExactP(b, c)
    ensures CvP(b, c) == if b + c == 0 then None else Some(ExactP(b, c))
  {
    var n := b + c;
    var t, p := Tail(n, Min(b, c)) as real, Pow2(n) as real;
    HalfInvertsPow2(n);
    QuotientIsProduct(t, Half(n), p);
    assert 2.0 * (t / p) == 2.0 * t / p;
  }

  // ---- the shape of the p-value ----------------------------------------------------------------------

  function Ratio(a: nat, b: nat): real
    requires b > 0
  {
    (a as real) / (b as real)
  }

  lemma ScaleUp(x: real, y: real, p: real)
    requires p > 0.0 && x < y
    ensures x * p < y * p
  {
    assert (y - x) * p > 0.0;
  }

  lemma Quotient(a: real, p: real)
    requires p > 0.0
    ensures (a / p) * p == a
  {
  }

  lemma QuotientUnique(x: real, a: real, p: real)
    requires p > 0.0 && x * p == a
    ensures a / p == x
  {
    var y := a / p;
    Quotient(a, p);
    if x < y { ScaleUp(x, y, p); }
    if y < x { ScaleUp(y, x, p); }
  }

  lemma QuotientBelow(a: real, p: real, y: real)
    requires p > 0.0
    ensures a / p < y <==> a < y * p
  {
    var x := a / p;
    Quotient(a, p);
    if x < y { ScaleUp(x, y, p); }
    if y < x { ScaleUp(y, x, p); }
  }

  lemma RatioOrder(a: nat, c: nat, b: nat)
    requires b > 0
    ensures Ratio(a, b) < Ratio(c, b) <==> a < c
  {
    QuotientBelow(a as real, b as real, Ratio(c, b));
    Quotient(c as real, b as real);
  }

  lemma RatioEnds(b: nat)
    requires b > 0
    ensures Ratio(0, b) == 0.0 && Ratio(b, b) == 1.0
  {
  }

  lemma RatioDoubles(a: nat, b: nat)
    requires b > 0
    ensures Ratio(2 * a, b) == 2.0 * Ratio(a, b)
  {
    var x, p := Ratio(a, b), b as real;
    Quotient(a as real, p);
    assert (2.0 * x) * p == 2.0 * (x * p);
    QuotientUnique(2.0 * x, (2 * a) as real, p);
  }

  lemma RatioBelowTwentieth(a: nat, b: nat)
    requires b > 0
    ensures Ratio(a, b) < 0.05 <==> 20 * a < b
  {
    var p := b as real;
    assert a as real < 0.05 * p <==> 20 * a < b;
    QuotientBelow(a as real, p, 0.05);
  }

  /** The numerator over 2^n. */
  function Numerator(n: nat, k: nat): nat {
    if 2 * Tail(n, k) < Pow2(n) then 2 * Tail(n, k) else Pow2(n)
  }

  lemma PIsRatio(b: nat, c: nat)
    ensures ExactP(b, c) == Ratio(Numerator(b + c, Min(b, c)), Pow2(b + c))
  {
    var n, k := b + c, Min(b, c);
    RatioDoubles(Tail(n, k), Pow2(n));
    RatioEnds(Pow2(n));
    RatioOrder(2 * Tail(n, k), Pow2(n), Pow2(n));
    TailPositive(n, k);
    assert n > 0 ==> ExactP(b, c) == AtMostOne(2.0 * Ratio(Tail(n, k), Pow2(n)));
    hide Ratio, Tail;
  }

  /** The p-value IS the chance that fair flips come out at least as lopsided as the observed split,
      cap and empty case included. */
  lemma PCountsLopsidedOutcomes(b: nat, c: nat)
    ensures |Flips(b + c)| > 0
    ensures ExactP(b, c) == Ratio(LopsidedCount(Flips(b + c), b + c, Min(b, c)), |Flips(b + c)|)
  {
    hide Tail, Ratio, Pow2, ExactP;
    FlipsCount(b + c, 0);
    PIsRatio(b, c);
    LopsidedIsTwiceTail(b + c, Min(b, c));
    TwiceTail(b + c, Min(b, c));
  }

  lemma PSymmetric(b: nat, c: nat)
    ensures ExactP(b, c) == ExactP(c, b)
  {
    assert b + c == c + b && Min(b, c) == Min(c, b);
  }

  /** In (0, 1], and 1 exactly for a split as even as it can be. */
  lemma PRange(b: nat, c: nat)
    ensures 0.0 < ExactP(b, c) <= 1.0
    ensures ExactP(b, c) == 1.0 <==> Gap(b, c) <= 1
  {
    hide Tail, Ratio, Pow2, ExactP;
    var n, k := b + c, Min(b, c);
    PIsRatio(b, c);
    TailPositive(n, k);
    TwiceTail(n, k);
    RatioEnds(Pow2(n));
    RatioOrder(0, Numerator(n, k), Pow2(n));
    RatioOrder(Numerator(n, k), Pow2(n), Pow2(n));
  }

  /** At a fixed number of discordant pairs, a wider gap is a strictly smaller p. */
  lemma PStrictlyFalls(b: nat, c: nat, b': nat, c': nat)
    requires b + c == b' + c' && Gap(b, c) > Gap(b', c') && Gap(b, c) > 1
    ensures ExactP(b, c) < ExactP(b', c')
  {
    hide Tail, Ratio, Pow2, ExactP;
    var n, k, k' := b + c, Min(b, c), Min(b', c');
    PIsRatio(b, c);
    PIsRatio(b', c');
    TwiceTail(n, k);
    TailGrows(n, k, k');
    RatioOrder(Numerator(n, k), Numerator(n, k'), Pow2(n));
  }

  // ---- attainability -----------------------------------------------------------------------------------

  /** The rule the cross-validation arm reports. */
  predicate AlphaAttainable(disc: nat) {
    disc >= 6
  }

  lemma {:induction false} Pow2Bounds(n: nat)
    ensures n >= 6 ==> Pow2(n) >= 64
    ensures n <= 5 ==> Pow2(n) <= 32
  {
    if n == 0 {
    } else {
      Pow2Bounds(n - 1);
    }
    assert n == 6 ==> Pow2(5) == 32;
  }

  lemma SmallestP(b: nat, c: nat)
    ensures ExactP(b, c) < 0.05 ==> b + c >= 6
  {
    hide Tail, Ratio, Pow2, ExactP;
    var n, k := b + c, Min(b, c);
    PIsRatio(b, c);
    TailPositive(n, k);
    Pow2Bounds(n);
    RatioBelowTwentieth(Numerator(n, k), Pow2(n));
  }

  /** Some split of `disc` pairs reaches p < 0.05 exactly when the rule says so. */
  lemma AttainableExactly(disc: nat)
    ensures AlphaAttainable(disc) <==> exists b: nat, c: nat :: b + c == disc && ExactP(b, c) < 0.05
  {
    hide Ratio, Pow2, ExactP;
    if AlphaAttainable(disc) {
      PIsRatio(0, disc);
      Pow2Bounds(disc);
      assert Tail(disc, 0) == 1;
      RatioBelowTwentieth(Numerator(disc, 0), Pow2(disc));
      assert 0 + disc == disc && ExactP(0, disc) < 0.05;
    }
    forall b: nat, c: nat | b + c == disc && ExactP(b, c) < 0.05 ensures AlphaAttainable(disc) {
      SmallestP(b, c);
    }
  }

  // ---- a registered comparison -------------------------------------------------------------------------

  function Hits(s: seq<bool>): nat {
    if s == [] then 0 else (if s[0] then 1 else 0) + Hits(s[1..])
  }

  /** Positions where the first sequence hits and the second does not; `zip` stops at the shorter. */
  function Wins(a: seq<bool>, b: seq<bool>): nat {
    if a == [] || b == [] then 0 else (if a[0] && !b[0] then 1 else 0) + Wins(a[1..], b[1..])
  }

  datatype Verdict = Verdict(gains: nat, losses: nat, p: real, delta: real,
                             deltaMet: bool, significant: bool, floorMet: bool, passes: bool)

  /** `verdict`; no cases at all is a division by zero. */
  function VerdictOf(treat: seq<bool>, ctrl: seq<bool>, deltaBar: real, alpha: real, floor: real): Option<Verdict> {
    if treat == [] then None
    else
      var n := |treat| as real;
      var tRate, cRate := (Hits(treat) as real) / n, (Hits(ctrl) as real) / n;
      var gains, losses := Wins(treat, ctrl), Wins(ctrl, treat);
      var p, delta := ExactP(gains, losses), tRate - cRate;
      var deltaOk, pOk, floorOk := delta >= deltaBar, p < alpha, tRate > floor;
      Some(Verdict(gains, losses, p, delta, deltaOk, pOk, floorOk, deltaOk && pOk && floorOk))
  }

  lemma {:induction false} HitsMeans(s: seq<bool>)
    ensures Hits(s) == |Places(s, (b: bool) => b)|
  {
    if s == [] {
    } else {
      var n := |s| - 1;
      HitsMeans(s[..n]);
      HitsSnoc(s[..n], s[n]);
      PlacesSnoc(s[..n], s[n], (b: bool) => b);
      assert s == s[..n] + [s[n]];
    }
  }

  lemma {:induction false} HitsSnoc(s: seq<bool>, b: bool)
    ensures Hits(s + [b]) == Hits(s) + if b then 1 else 0
  {
    if s == [] {
      assert [b][1..] == [];
      assert s + [b] == [b];
    } else {
      HitsSnoc(s[1..], b);
      assert (s + [b])[1..] == s[1..] + [b];
    }
  }

  /** The places where the first hits and the second does not. */
  ghost function WonAt(a: seq<bool>, b: seq<bool>): set<int> {
    set i | 0 <= i < |a| && i < |b| && a[i] && !b[i]
  }

  lemma {:induction false} WinsMeans(a: seq<bool>, b: seq<bool>)
    requires |a| == |b|
    ensures Wins(a, b) == |WonAt(a, b)|
  {
    if a == [] {
    } else {
      var n := |a| - 1;
      WinsMeans(a[..n], b[..n]);
      WinsSnoc(a[..n], b[..n], a[n], b[n]);
      WonAtSnoc(a[..n], b[..n], a[n], b[n]);
      assert a == a[..n] + [a[n]] && b == b[..n] + [b[n]];
    }
  }

  lemma WonAtSnoc(a: seq<bool>, b: seq<bool>, x: bool, y: bool)
    requires |a| == |b|
    ensures |WonAt(a + [x], b + [y])| == |WonAt(a, b)| + if x && !y then 1 else 0
  {
    assert WonAt(a + [x], b + [y]) == WonAt(a, b) + if x && !y then {|a|} else {};
  }

  lemma {:induction false} WinsSnoc(a: seq<bool>, b: seq<bool>, x: bool, y: bool)
    requires |a| == |b|
    ensures Wins(a + [x], b + [y]) == Wins(a, b) + if x && !y then 1 else 0
  {
    if a == [] {
      assert a + [x] == [x] && b + [y] == [y] && [x][1..] == [] && [y][1..] == [];
    } else {
      WinsSnoc(a[1..], b[1..], x, y);
      assert (a + [x])[1..] == a[1..] + [x] && (b + [y])[1..] == b[1..] + [y];
    }
  }

  lemma {:induction false} NetIsDiscordance(a: seq<bool>, b: seq<bool>)
    requires |a| == |b|
    ensures Hits(a) as int - Hits(b) as int == Wins(a, b) as int - Wins(b, a) as int
  {
    if a == [] {
    } else {
      NetIsDiscordance(a[1..], b[1..]);
    }
  }

  lemma RateDifference(h: nat, g: nat, n: nat)
    requires n > 0
    ensures (h as real) / (n as real) - (g as real) / (n as real) == ((h - g) as real) / (n as real)
  {
    var x, y, p := (h as real) / (n as real), (g as real) / (n as real), n as real;
    Quotient(h as real, p);
    Quotient(g as real, p);
    assert (x - y) * p == x * p - y * p;
    QuotientUnique(x - y, (h - g) as real, p);
  }

  lemma PositiveRate(d: int, n: nat)
    requires n > 0
    ensures (d as real) / (n as real) > 0.0 <==> d > 0
  {
    var x, p := (d as real) / (n as real), n as real;
    Quotient(d as real, p);
    if x > 0.0 { ScaleUp(0.0, x, p); }
    if x < 0.0 { ScaleUp(x, 0.0, p); }
  }

  /** Passing at alpha 0.05 or below with a positive bar takes at least six discordant pairs, more
      of them gains than losses, and the rate difference is exactly their net over the cases. */
  lemma PassingTakesSix(treat: seq<bool>, ctrl: seq<bool>, deltaBar: real, alpha: real, floor: real)
    requires |treat| == |ctrl| > 0 && deltaBar > 0.0 && alpha <= 0.05
    ensures var v := VerdictOf(treat, ctrl, deltaBar, alpha, floor).value;
            && v.delta == ((v.gains - v.losses) as real) / (|treat| as real)
            && (v.passes ==> v.gains + v.losses >= 6 && v.gains > v.losses)
  {
    var v := VerdictOf(treat, ctrl, deltaBar, alpha, floor).value;
    hide ExactP, Hits, Wins;
    NetIsDiscordance(treat, ctrl);
    RateDifference(Hits(treat), Hits(ctrl), |treat|);
    PositiveRate(v.gains - v.losses, |treat|);
    SmallestP(v.gains, v.losses);
  }

  lemma RateAtLeast(d: int, n: nat, bar: real)
    requires n > 0
    ensures (d as real) / (n as real) >= bar <==> d as real >= bar * (n as real)
    ensures (d as real) / (n as real) > bar <==> d as real > bar * (n as real)
  {
    var x, p := (d as real) / (n as real), n as real;
    Quotient(d as real, p);
    if x < bar { ScaleUp(x, bar, p); }
    if x > bar { ScaleUp(bar, x, p); }
  }

  /** A verdict there is for every case list but the empty one, and it passes exactly when the net of gains
      over losses reaches the bar, p is below alpha, and the treatment's hits are above the floor. */
  lemma PassesExactly(treat: seq<bool>, ctrl: seq<bool>, deltaBar: real, alpha: real, floor: real)
    requires |treat| == |ctrl|
    ensures VerdictOf(treat, ctrl, deltaBar, alpha, floor) == None <==> |treat| == 0
    ensures |treat| > 0 ==>
              var v, n := VerdictOf(treat, ctrl, deltaBar, alpha, floor).value, |treat| as real;
              && v.gains == |WonAt(treat, ctrl)| && v.losses == |WonAt(ctrl, treat)|
              && v.p == ExactP(v.gains, v.losses)
              && (v.deltaMet <==> (v.gains - v.losses) as real >= deltaBar * n)
              && (v.significant <==> v.p < alpha)
              && (v.floorMet <==> |Places(treat, (b: bool) => b)| as real > floor * n)
              && (v.passes <==> v.deltaMet && v.significant && v.floorMet)
  {
    hide ExactP, Hits, Wins, WonAt, Places;
    if |treat| > 0 {
      var n := |treat|;
      var v := VerdictOf(treat, ctrl, deltaBar, alpha, floor).value;
      RateDifference(Hits(treat), Hits(ctrl), n);
      NetIsDiscordance(treat, ctrl);
      assert v.delta == ((v.gains - v.losses) as real) / (n as real);
      RateAtLeast(v.gains - v.losses, n, deltaBar);
      RateAtLeast(Hits(treat), n, floor);
      HitsMeans(treat);
      WinsMeans(treat, ctrl);
      WinsMeans(ctrl, treat);
    }
  }

  /** A comparison and its mirror image cannot both pass. */
  lemma NotBothWays(a: seq<bool>, b: seq<bool>, deltaBar: real, alpha: real, floor: real)
    requires |a| == |b| > 0 && deltaBar > 0.0 && alpha <= 0.05
    ensures !(VerdictOf(a, b, deltaBar, alpha, floor).value.passes && VerdictOf(b, a, deltaBar, alpha, floor).value.passes)
  {
    PassingTakesSix(a, b, deltaBar, alpha, floor);
    PassingTakesSix(b, a, deltaBar, alpha, floor);
  }

  // ---- the accounting of two runs ------------------------------------------------------------------------

  /** The two top-1 picks of one shared query; correctness is missing when the pick cannot be
      attributed to a turn. */
  datatype Pick = Pick(base: string, treat: string, baseOk: Option<bool>, treatOk: Option<bool>)

  datatype Kind = Unattributable | Lost | Gained | DifferentPick | Unmoved

  function KindOf(p: Pick): Kind {
    if p.baseOk.None? || p.treatOk.None? then Unattributable
    else if p.baseOk.value && !p.treatOk.value then Lost
    else if p.treatOk.value && !p.baseOk.value then Gained
    else if p.base != p.treat then DifferentPick
    else Unmoved
  }

  function Count(picks: seq<Pick>, k: Kind): nat {
    if picks == [] then 0 else Count(picks[..|picks| - 1], k) + if KindOf(picks[|picks| - 1]) == k then 1 else 0
  }

  function Moved(picks: seq<Pick>): seq<Pick> {
    if picks == [] then []
    else
      var k := KindOf(picks[|picks| - 1]);
      Moved(picks[..|picks| - 1]) + if k.Lost? || k.Gained? || k.DifferentPick? then [picks[|picks| - 1]] else []
  }

  lemma CountSnoc(picks: seq<Pick>, p: Pick)
    ensures forall k :: Count(picks + [p], k) == Count(picks, k) + if KindOf(p) == k then 1 else 0
    ensures Moved(picks + [p]) == Moved(picks) + if KindOf(p).Lost? || KindOf(p).Gained? || KindOf(p).DifferentPick? then [p] else []
  {
    assert (picks + [p])[..|picks|] == picks;
  }

  lemma {:induction false} KindsPartition(picks: seq<Pick>)
    ensures Count(picks, Unattributable) + Count(picks, Lost) + Count(picks, Gained)
            + Count(picks, DifferentPick) + Count(picks, Unmoved) == |picks|
  {
    if picks == [] {
    } else {
      KindsPartition(picks[..|picks| - 1]);
    }
  }

  /** The kinds, read off the picks: attributable on both sides, and right then wrong, wrong then right, or
      the same verdict on another pick. */
  ghost predicate HasKind(p: Pick, k: Kind) {
    match k
    case Unattributable => p.baseOk == None || p.treatOk == None
    case Lost => p.baseOk == Some(true) && p.treatOk == Some(false)
    case Gained => p.baseOk == Some(false) && p.treatOk == Some(true)
    case DifferentPick => p.baseOk == p.treatOk && p.baseOk != None && p.base != p.treat
    case Unmoved => p.baseOk == p.treatOk && p.baseOk != None && p.base == p.treat
  }

  lemma {:induction false} CountMeans(picks: seq<Pick>, k: Kind)
    ensures Count(picks, k) == |Places(picks, (p: Pick) => HasKind(p, k))|
  {
    if picks == [] {
    } else {
      var n := |picks| - 1;
      CountMeans(picks[..n], k);
      PlacesSnoc(picks[..n], picks[n], (p: Pick) => HasKind(p, k));
      assert picks == picks[..n] + [picks[n]];
    }
  }

  ghost predicate HasMoved(p: Pick) {
    HasKind(p, Lost) || HasKind(p, Gained) || HasKind(p, DifferentPick)
  }

  /** `at` are the places of s, in order, that hold the elements of r. */
  ghost predicate PicksOut(at: seq<nat>, s: seq<Pick>, r: seq<Pick>) {
    && |at| == |r|
    && (forall i :: 0 <= i < |at| ==> at[i] < |s| && s[at[i]] == r[i])
    && (forall i, j :: 0 <= i < j < |at| ==> at[i] < at[j])
  }

  lemma PicksOutSnoc(at: seq<nat>, s: seq<Pick>, r: seq<Pick>, p: Pick)
    requires PicksOut(at, s, r)
    ensures PicksOut(at, s + [p], r) && PicksOut(at + [|s|], s + [p], r + [p])
    ensures forall k :: k in at ==> k < |s|
  {
  }

  lemma MovedSnoc(picks: seq<Pick>, p: Pick)
    ensures Moved(picks + [p]) == Moved(picks) + if HasMoved(p) then [p] else []
  {
    CountSnoc(picks, p);
    hide Moved;
  }

  /** The list of moved picks is the lost, the gained and the differently picked ones, in order. */
  lemma {:induction false} MovedMeans(picks: seq<Pick>) returns (at: seq<nat>)
    ensures PicksOut(at, picks, Moved(picks))
    ensures forall k: nat :: k < |picks| ==> (k in at <==> HasMoved(picks[k]))
  {
    if picks == [] {
      at := [];
    } else {
      var n := |picks| - 1;
      var init, p := picks[..n], picks[n];
      var before := MovedMeans(init);
      MovedSnoc(init, p);
      assert picks == init + [p];
      PicksOutSnoc(before, init, Moved(init), p);
      at := if HasMoved(p) then before + [n] else before;
      assert Moved(init) + [] == Moved(init);
      hide Moved, HasMoved, PicksOut;
    }
  }

  /** Over the queries both runs could attribute: picks that did not change, and correct picks. */
  datatype Totals = Totals(identical: nat, base: nat, treat: nat)

  function One(b: bool): nat {
    if b then 1 else 0
  }

  function WithPick(t: Totals, p: Pick): Totals {
    if KindOf(p).Unattributable? then t
    else Totals(t.identical + One(p.base == p.treat), t.base + One(p.baseOk.value), t.treat + One(p.treatOk.value))
  }

  function TotalsOf(picks: seq<Pick>): Totals {
    if picks == [] then Totals(0, 0, 0) else WithPick(TotalsOf(picks[..|picks| - 1]), picks[|picks| - 1])
  }

  lemma TotalsSnoc(picks: seq<Pick>, p: Pick)
    ensures TotalsOf(picks + [p]) == WithPick(TotalsOf(picks), p)
  {
    assert (picks + [p])[..|picks|] == picks;
  }

  ghost predicate Attributed(p: Pick) {
    p.baseOk.Some? && p.treatOk.Some?
  }

  /** The totals, read off the picks. */
  lemma {:induction false} TotalsMean(picks: seq<Pick>)
    ensures TotalsOf(picks).identical == |Places(picks, (p: Pick) => Attributed(p) && p.base == p.treat)|
    ensures TotalsOf(picks).base == |Places(picks, (p: Pick) => Attributed(p) && p.baseOk == Some(true))|
    ensures TotalsOf(picks).treat == |Places(picks, (p: Pick) => Attributed(p) && p.treatOk == Some(true))|
  {
    if picks == [] {
    } else {
      var n := |picks| - 1;
      TotalsMean(picks[..n]);
      PlacesSnoc(picks[..n], picks[n], (p: Pick) => Attributed(p) && p.base == p.treat);
      PlacesSnoc(picks[..n], picks[n], (p: Pick) => Attributed(p) && p.baseOk == Some(true));
      PlacesSnoc(picks[..n], picks[n], (p: Pick) => Attributed(p) && p.treatOk == Some(true));
      assert picks == picks[..n] + [picks[n]];
    }
  }

  /** The net of gained over lost is the change in correct picks. */
  lemma {:induction false} NetIsCorrectnessChange(picks: seq<Pick>)
    ensures var t, compared := TotalsOf(picks), |picks| - Count(picks, Unattributable);
            && t.treat - t.base == Count(picks, Gained) - Count(picks, Lost)
            && t.base <= compared && t.treat <= compared && t.identical <= compared
    ensures TotalsOf(picks).identical >= Count(picks, Unmoved)
  {
    if picks == [] {
    } else {
      NetIsCorrectnessChange(picks[..|picks| - 1]);
    }
  }

  /** The comparison loop. */
  method Account(picks: seq<Pick>)
    returns (compared: nat, gained: nat, lost: nat, totals: Totals, moved: seq<Pick>, p: real)
    ensures compared == |picks| - Count(picks, Unattributable)
    ensures gained == Count(picks, Gained) && lost == Count(picks, Lost)
    ensures totals == TotalsOf(picks) && totals.treat - totals.base == gained - lost
    ensures moved == Moved(picks)
    ensures p == ExactP(gained, lost)
  {
    gained, lost, moved := 0, 0, [];
    var identical: nat, baseCorrect: nat, treatCorrect: nat, unattributable: nat := 0, 0, 0, 0;
    hide ExactP, CompareP;
    for i := 0 to |picks|
      invariant unattributable == Count(picks[..i], Unattributable)
      invariant gained == Count(picks[..i], Gained) && lost == Count(picks[..i], Lost)
      invariant Totals(identical, baseCorrect, treatCorrect) == TotalsOf(picks[..i])
      invariant moved == Moved(picks[..i])
    {
      var pick := picks[i];
      assert picks[..i + 1] == picks[..i] + [pick];
      CountSnoc(picks[..i], pick);
      TotalsSnoc(picks[..i], pick);
      if pick.baseOk.None? || pick.treatOk.None? {
        unattributable := unattributable + 1;
        continue;
      }
      if pick.base == pick.treat {
        identical := identical + 1;
      }
      baseCorrect := baseCorrect + One(pick.baseOk.value);
      treatCorrect := treatCorrect + One(pick.treatOk.value);
      if pick.baseOk.value && !pick.treatOk.value {
        lost := lost + 1;
        moved := moved + [pick];
      } else if pick.treatOk.value && !pick.baseOk.value {
        gained := gained + 1;
        moved := moved + [pick];
      } else if pick.base != pick.treat {
        moved := moved + [pick];
      }
    }
    assert picks[..|picks|] == picks;
    NetIsCorrectnessChange(picks);
    compared := |picks| - unattributable;
    totals := Totals(identical, baseCorrect, treatCorrect);
    p := CompareP(lost, gained);
    ImplementationsAgree(lost, gained);
    PSymmetric(lost, gained);
  }
}
