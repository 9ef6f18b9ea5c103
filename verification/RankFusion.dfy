/** Reciprocal rank fusion over candidate orders, and the best-rank read of a fused order. */
module RankFusion {
  import opened Sorting

  const RRF_K := 60

  /** `{i: r for r, i in enumerate(o)}` read with `get(i, missing)`: the last position wins. */
  function RankIn(o: seq<int>, i: int, missing: nat): nat {
    if o == [] then missing
    else if o[|o| - 1] == i then |o| - 1
    else RankIn(o[..|o| - 1], i, missing)
  }

  function Credit(rank: nat): real {
    1.0 / ((RRF_K + rank) as real)
  }

  /** The fused score of candidate i over the given lists; `missing` is the length of the first. */
  function Score(lists: seq<seq<int>>, i: int, missing: nat): real {
    if lists == [] then 0.0 else Credit(RankIn(lists[0], i, missing)) + Score(lists[1..], i, missing)
  }

  /** Higher score first, then lower candidate index. */
  predicate Before(lists: seq<seq<int>>, missing: nat, a: int, b: int) {
    Score(lists, a, missing) > Score(lists, b, missing) || (Score(lists, a, missing) == Score(lists, b, missing) && a <= b)
  }

  function Rrf(lists: seq<seq<int>>): (r: seq<int>)
    requires lists != []
    ensures multiset(r) == multiset(lists[0])
  {
    SortBy(lists[0], (a: int, b: int) => Before(lists, |lists[0]|, a, b))
  }

  lemma RrfOrders(lists: seq<seq<int>>)
    requires lists != []
    ensures forall p, q :: 0 <= p < q < |Rrf(lists)| ==> Before(lists, |lists[0]|, Rrf(lists)[p], Rrf(lists)[q])
  {
    SortOrders(lists[0], (a: int, b: int) => Before(lists, |lists[0]|, a, b));
  }

  /** One over sixty plus the rank. */
  lemma CreditMeans(rank: nat)
    ensures Credit(rank) * ((60 + rank) as real) == 1.0
  {
  }

  lemma {:induction false} RankOfStranger(o: seq<int>, i: int, missing: nat)
    requires i !in o
    ensures RankIn(o, i, missing) == missing
  {
    if o == [] {
    } else {
      RankOfStranger(o[..|o| - 1], i, missing);
    }
  }

  /** Each list adds the credit of the candidate's rank in it. */
  lemma ScoreStep(o: seq<int>, rest: seq<seq<int>>, i: int, missing: nat)
    ensures Score([], i, missing) == 0.0
    ensures Score([o] + rest, i, missing) == Credit(RankIn(o, i, missing)) + Score(rest, i, missing)
  {
    hide Credit, RankIn;
    assert ([o] + rest)[1..] == rest;
  }

  /** The fused score never rises along the fusion, and equal scores are in index order. */
  lemma FusionFalls(lists: seq<seq<int>>, p: nat, q: nat)
    requires lists != [] && p < q < |Rrf(lists)|
    ensures var a, b, n := Rrf(lists)[p], Rrf(lists)[q], |lists[0]|;
            Score(lists, a, n) >= Score(lists, b, n) && (Score(lists, a, n) == Score(lists, b, n) ==> a <= b)
  {
    RrfOrders(lists);
  }

  // ---- orders of one set ---------------------------------------------------------------------------

  /** Rankings of one and the same set of candidates. */
  ghost predicate Rankings(lists: seq<seq<int>>) {
    && lists != []
    && forall j :: 0 <= j < |lists| ==> Distinct(lists[j]) && multiset(lists[j]) == multiset(lists[0])
  }

  lemma {:induction false} RankIsPosition(o: seq<int>, p: nat, missing: nat)
    requires Distinct(o) && p < |o|
    ensures RankIn(o, o[p], missing) == p
  {
    if p < |o| - 1 {
      RankIsPosition(o[..|o| - 1], p, missing);
    }
  }

  lemma {:induction false} RankOfMember(o: seq<int>, i: int, missing: nat)
    requires i in o
    ensures RankIn(o, i, missing) < |o| && o[RankIn(o, i, missing)] == i
  {
    if o[|o| - 1] != i { RankOfMember(o[..|o| - 1], i, missing); }
  }

  lemma CreditFalls(a: nat, b: nat)
    requires a < b
    ensures Credit(a) > Credit(b)
  {
    var x, y := (RRF_K + a) as real, (RRF_K + b) as real;
    assert 0.0 < x < y;
    assert 1.0 / x > 1.0 / y by { Reciprocal(x, y); }
  }

  lemma Reciprocal(x: real, y: real)
    requires 0.0 < x < y
    ensures 1.0 / x > 1.0 / y
  {
    assert (1.0 / x) * x == 1.0 && (1.0 / y) * y == 1.0;
    var u, v := 1.0 / x, 1.0 / y;
    if u <= v {
      assert u > 0.0 && v > 0.0;
      assert v * y > v * x;
      assert v * x >= u * x;
    }
  }

  /** `a` is ahead of `b` in every list. */
  ghost predicate AheadEverywhere(lists: seq<seq<int>>, missing: nat, a: int, b: int) {
    forall j :: 0 <= j < |lists| ==> RankIn(lists[j], a, missing) < RankIn(lists[j], b, missing)
  }

  lemma {:induction false} AheadScoresHigher(lists: seq<seq<int>>, missing: nat, a: int, b: int)
    requires AheadEverywhere(lists, missing, a, b)
    ensures lists != [] ==> Score(lists, a, missing) > Score(lists, b, missing)
  {
    hide Credit;
    if lists == [] {
    } else {
      CreditFalls(RankIn(lists[0], a, missing), RankIn(lists[0], b, missing));
      assert AheadEverywhere(lists[1..], missing, a, b);
      AheadScoresHigher(lists[1..], missing, a, b);
    }
  }

  /** A candidate that trails another in every list trails it in the fusion. */
  lemma FusionRespectsConsensus(lists: seq<seq<int>>, p: nat, q: nat)
    requires Rankings(lists) && p < |Rrf(lists)| && q < |Rrf(lists)|
    requires AheadEverywhere(lists, |lists[0]|, Rrf(lists)[p], Rrf(lists)[q])
    ensures p < q
  {
    RrfOrders(lists);
    AheadScoresHigher(lists, |lists[0]|, Rrf(lists)[p], Rrf(lists)[q]);
  }

  // ---- the rank bound --------------------------------------------------------------------------------

  function RankSum(lists: seq<seq<int>>, i: int, missing: nat): nat {
    if lists == [] then 0 else RankIn(lists[0], i, missing) + RankSum(lists[1..], i, missing)
  }

  lemma RankSumMeans(o: seq<int>, rest: seq<seq<int>>, i: int, missing: nat)
    ensures RankSum([], i, missing) == 0
    ensures RankSum([o] + rest, i, missing) == RankIn(o, i, missing) + RankSum(rest, i, missing)
  {
    hide RankIn;
    assert ([o] + rest)[1..] == rest;
  }

  /** Everything some list puts before x. */
  function AheadSomewhere(lists: seq<seq<int>>, x: int, missing: nat): set<int> {
    if lists == [] then {} else
    (set k | 0 <= k < RankIn(lists[0], x, missing) && k < |lists[0]| :: lists[0][k]) + AheadSomewhere(lists[1..], x, missing)
  }

  lemma {:induction false} PrefixSetSize(o: seq<int>, n: nat)
    ensures |set k | 0 <= k < n && k < |o| :: o[k]| <= n
  {
    var s := set k | 0 <= k < n && k < |o| :: o[k];
    if n == 0 {
      assert s == {};
    } else {
      PrefixSetSize(o, n - 1);
      var before := set k | 0 <= k < n - 1 && k < |o| :: o[k];
      if n - 1 < |o| {
        assert s == before + {o[n - 1]};
      } else {
        assert s == before;
      }
    }
  }

  lemma {:induction false} AheadSomewhereSize(lists: seq<seq<int>>, x: int, missing: nat)
    ensures |AheadSomewhere(lists, x, missing)| <= RankSum(lists, x, missing)
  {
    if lists == [] {
    } else {
      AheadSomewhereSize(lists[1..], x, missing);
      PrefixSetSize(lists[0], RankIn(lists[0], x, missing));
    }
  }

  lemma {:induction false} InAheadSomewhere(lists: seq<seq<int>>, x: int, y: int, missing: nat, j: nat)
    requires j < |lists| && y in lists[j] && RankIn(lists[j], y, missing) < RankIn(lists[j], x, missing)
    ensures y in AheadSomewhere(lists, x, missing)
  {
    if j == 0 {
      RankOfMember(lists[0], y, missing);
    } else {
      InAheadSomewhere(lists[1..], x, y, missing, j - 1);
    }
  }

  lemma FusionMembers(lists: seq<seq<int>>)
    requires Rankings(lists)
    ensures Distinct(Rrf(lists))
    ensures forall p, j :: 0 <= p < |Rrf(lists)| && 0 <= j < |lists| ==> Rrf(lists)[p] in lists[j]
  {
    hide Rrf, Distinct;
    var fused := Rrf(lists);
    assert Distinct(lists[0]);
    DistinctIsMultiplicity(lists[0]);
    DistinctIsMultiplicity(fused);
    forall p, j | 0 <= p < |fused| && 0 <= j < |lists| ensures fused[p] in lists[j] {
      SameMembers(fused, lists[j]);
    }
  }

  lemma AheadOrNot(lists: seq<seq<int>>, missing: nat, x: int, y: int)
    requires x != y && forall j :: 0 <= j < |lists| ==> x in lists[j] && y in lists[j]
    ensures AheadEverywhere(lists, missing, x, y)
         || exists j :: 0 <= j < |lists| && RankIn(lists[j], y, missing) < RankIn(lists[j], x, missing)
  {
    forall j | 0 <= j < |lists| ensures RankIn(lists[j], x, missing) != RankIn(lists[j], y, missing) {
      RankOfMember(lists[j], x, missing);
      RankOfMember(lists[j], y, missing);
    }
  }

  /** Whatever the fusion puts before x, some list already put before x. */
  lemma AheadInFusion(lists: seq<seq<int>>, p: nat, q: nat)
    requires Rankings(lists) && p < q < |Rrf(lists)|
    ensures Rrf(lists)[p] in AheadSomewhere(lists, Rrf(lists)[q], |lists[0]|)
  {
    var n, fused := |lists[0]|, Rrf(lists);
    var y, x := fused[p], fused[q];
    FusionMembers(lists);
    AheadOrNot(lists, n, x, y);
    if AheadEverywhere(lists, n, x, y) {
      FusionRespectsConsensus(lists, q, p);
    }
    hide Rrf, RankIn;
    var j :| 0 <= j < |lists| && RankIn(lists[j], y, n) < RankIn(lists[j], x, n);
    InAheadSomewhere(lists, x, y, n, j);
  }

  /** An item's position in the fusion is at most the sum of its positions in the lists. */
  lemma FusedRankBound(lists: seq<seq<int>>, q: nat)
    requires Rankings(lists) && q < |Rrf(lists)|
    ensures q <= RankSum(lists, Rrf(lists)[q], |lists[0]|)
  {
    var n, fused := |lists[0]|, Rrf(lists);
    var x := fused[q];
    DistinctIsMultiplicity(lists[0]);
    DistinctIsMultiplicity(fused);
    SetOfDistinct(fused[..q]);
    var ahead := set y | y in fused[..q];
    forall y | y in ahead ensures y in AheadSomewhere(lists, x, n) {
      var p :| 0 <= p < |fused[..q]| && fused[..q][p] == y;
      AheadInFusion(lists, p, q);
    }
    SubsetSize(ahead, AheadSomewhere(lists, x, n));
    AheadSomewhereSize(lists, x, n);
  }

  // ---- agreement ---------------------------------------------------------------------------------------

  /** In a fusion of copies of o, positions follow o. */
  lemma CopiesFollow(o: seq<int>, lists: seq<seq<int>>, p: nat, q: nat)
    requires Rankings(lists) && forall j :: 0 <= j < |lists| ==> lists[j] == o
    requires p < q < |Rrf(lists)|
    ensures RankIn(o, Rrf(lists)[p], |o|) < RankIn(o, Rrf(lists)[q], |o|)
  {
    var fused := Rrf(lists);
    FusionMembers(lists);
    assert fused[p] in lists[0] && fused[q] in lists[0];
    RankOfMember(o, fused[p], |o|);
    RankOfMember(o, fused[q], |o|);
    if RankIn(o, fused[q], |o|) < RankIn(o, fused[p], |o|) {
      FusionRespectsConsensus(lists, q, p);
    }
    hide Rrf, RankIn;
  }

  /** Fusing copies of one ranking gives that ranking back. */
  lemma FusingCopies(o: seq<int>, lists: seq<seq<int>>)
    requires Distinct(o) && lists != [] && forall j :: 0 <= j < |lists| ==> lists[j] == o
    ensures Rrf(lists) == o
  {
    var byRank := (a: int, b: int) => RankIn(o, a, |o|) < RankIn(o, b, |o|);
    forall p, q | 0 <= p < q < |o| ensures byRank(o[p], o[q]) {
      RankIsPosition(o, p, |o|);
      RankIsPosition(o, q, |o|);
    }
    var fused := Rrf(lists);
    forall p, q | 0 <= p < q < |fused| ensures byRank(fused[p], fused[q]) {
      CopiesFollow(o, lists, p, q);
    }
    hide RankIn, Score;
    ChainUnique(fused, o, byRank);
  }

  // ---- the best rank ---------------------------------------------------------------------------------------

  const NO_RANK := 1000000

  /** `best_rank`: the 1-based rank of the first gold candidate. */
  method BestRank(order: seq<int>, gold: set<int>) returns (r: nat)
    ensures r == BestRankOf(order, gold)
  {
    for k := 0 to |order|
      invariant forall j :: 0 <= j < k ==> order[j] !in gold
      invariant BestRankOf(order, gold) == BestFrom(order, gold, k)
    {
      if order[k] in gold {
        return k + 1;
      }
    }
    return NO_RANK;
  }

  function BestFrom(order: seq<int>, gold: set<int>, k: nat): nat
    requires k <= |order|
    decreases |order| - k
  {
    if k == |order| then NO_RANK else if order[k] in gold then k + 1 else BestFrom(order, gold, k + 1)
  }

  function BestRankOf(order: seq<int>, gold: set<int>): nat {
    BestFrom(order, gold, 0)
  }

  lemma {:induction false} BestFromIsFirst(order: seq<int>, gold: set<int>, k: nat)
    requires k <= |order|
    ensures forall j :: k <= j < |order| && order[j] in gold ==> BestFrom(order, gold, k) <= j + 1
    ensures BestFrom(order, gold, k) != NO_RANK ==>
              k < BestFrom(order, gold, k) <= |order| && order[BestFrom(order, gold, k) - 1] in gold
    decreases |order| - k
  {
    if k < |order| && order[k] !in gold { BestFromIsFirst(order, gold, k + 1); }
  }

  /** An order without gold reads a million, past every depth. */
  lemma BestRankOfNone(order: seq<int>, gold: set<int>)
    requires forall j :: 0 <= j < |order| ==> order[j] !in gold
    ensures BestRankOf(order, gold) == 1000000
  {
    BestFromIsFirst(order, gold, 0);
  }

  /** R@k as the tool reads it: the best rank is within k exactly when a gold candidate is. */
  lemma BestRankWithin(order: seq<int>, gold: set<int>, k: nat)
    requires k < NO_RANK
    ensures BestRankOf(order, gold) <= k <==> exists j :: 0 <= j < |order| && j < k && order[j] in gold
  {
    BestFromIsFirst(order, gold, 0);
  }

  /** At full depth every arm reads the input recall, whatever order it puts the slate in. */
  lemma FullDepthReadsRecall(order: seq<int>, slate: seq<int>, gold: set<int>)
    requires multiset(order) == multiset(slate) && |slate| < NO_RANK
    ensures BestRankOf(order, gold) <= |slate| <==> exists i :: i in slate && i in gold
  {
    SameMembers(order, slate);
    BestRankWithin(order, gold, |slate|);
    if exists i :: i in slate && i in gold {
      var i :| i in slate && i in gold;
      assert i in order;
      var j :| 0 <= j < |order| && order[j] == i;
      assert order[j] in gold;
    }
  }

  /** A fusion ranks gold no worse than the sum of any gold candidate's positions allows. */
  lemma FusedBestRank(lists: seq<seq<int>>, gold: set<int>, g: int)
    requires Rankings(lists) && g in lists[0] && g in gold
    ensures BestRankOf(Rrf(lists), gold) <= RankSum(lists, g, |lists[0]|) + 1
  {
    var fused := Rrf(lists);
    SameMembers(fused, lists[0]);
    var q :| 0 <= q < |fused| && fused[q] == g;
    FusedRankBound(lists, q);
    BestFromIsFirst(fused, gold, 0);
  }
}
