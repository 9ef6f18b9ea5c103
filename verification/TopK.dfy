/** The top-k membership loss of the fine-tuner, and the recall it stands for. */
module TopK {
  import opened Sorting

  /** Negatives scoring strictly above a mark. */
  function CountAbove(s: seq<real>, mark: real): nat {
    if s == [] then 0 else CountAbove(s[1..], mark) + if s[0] > mark then 1 else 0
  }

  lemma {:induction false} CountAboveAppend(a: seq<real>, b: seq<real>, mark: real)
    ensures CountAbove(a + b, mark) == CountAbove(a, mark) + CountAbove(b, mark)
  {
    if a == [] { assert a + b == b; }
    else { assert (a + b)[1..] == a[1..] + b; CountAboveAppend(a[1..], b, mark); }
  }

  lemma CountAboveOfPermutation(a: seq<real>, b: seq<real>, mark: real)
    requires multiset(a) == multiset(b)
    ensures CountAbove(a, mark) == CountAbove(b, mark)
  {
    var f := s => CountAbove(s, mark);
    forall s, t ensures f(s + t) == f(t + s) {
      CountAboveAppend(s, t, mark);
      CountAboveAppend(t, s, mark);
    }
    forall r, s, t | f(s) == f(t) ensures f(r + s) == f(r + t) {
      CountAboveAppend(r, s, mark);
      CountAboveAppend(r, t, mark);
    }
    PermutationAddsUp(a, b, f);
  }

  lemma {:induction false} CountAllOrNone(s: seq<real>, mark: real)
    ensures CountAbove(s, mark) <= |s|
    ensures (forall k :: 0 <= k < |s| ==> s[k] > mark) ==> CountAbove(s, mark) == |s|
    ensures (forall k :: 0 <= k < |s| ==> s[k] <= mark) ==> CountAbove(s, mark) == 0
  {
    if s == [] {
    } else {
      CountAllOrNone(s[1..], mark);
      assert forall k :: 0 <= k < |s[1..]| ==> s[1..][k] == s[k + 1];
    }
  }

  // ---- the loss ------------------------------------------------------------------------------------

  function Descending(s: seq<real>): seq<real> {
    SortBy(s, (a: real, b: real) => a >= b)
  }

  /** `torch.topk(s_neg, k).values[-1]`; torch refuses k beyond the length, and the groups keep only
      queries with at least k negatives. */
  function KthHighest(neg: seq<real>, k: nat): real
    requires 1 <= k <= |neg|
  {
    Descending(neg)[k - 1]
  }

  function Relu(x: real): real {
    if x > 0.0 then x else 0.0
  }

  function Hinge(pos: real, neg: seq<real>, k: nat, delta: real): real
    requires 1 <= k <= |neg|
  {
    var gap := pos - KthHighest(neg, k);
    Relu(delta - gap)
  }

  lemma CountSplit(s: seq<real>, i: nat, mark: real)
    requires i <= |s|
    ensures CountAbove(s, mark) == CountAbove(s[..i], mark) + CountAbove(s[i..], mark)
  {
    assert s == s[..i] + s[i..];
    CountAboveAppend(s[..i], s[i..], mark);
  }

  lemma SortedCount(s: seq<real>, k: nat, mark: real)
    requires 1 <= k <= |s| && forall i, j :: 0 <= i < j < |s| ==> s[i] >= s[j]
    ensures s[k - 1] <= mark <==> CountAbove(s, mark) <= k - 1
  {
    hide CountAbove;
    if s[k - 1] <= mark {
      CountSplit(s, k - 1, mark);
      CountAllOrNone(s[..k - 1], mark);
      assert forall i :: k - 1 < i < |s| ==> s[k - 1] >= s[i];
      CountAllOrNone(s[k - 1..], mark);
    } else {
      CountSplit(s, k, mark);
      assert forall i :: 0 <= i < k - 1 ==> s[i] >= s[k - 1];
      CountAllOrNone(s[..k], mark);
    }
  }

  /** The k-th highest is at or below a mark exactly when fewer than k scores are above it. */
  lemma KthHighestMeans(neg: seq<real>, k: nat, mark: real)
    requires 1 <= k <= |neg|
    ensures KthHighest(neg, k) <= mark <==> CountAbove(neg, mark) <= k - 1
  {
    hide CountAbove;
    SortOrders(neg, (a: real, b: real) => a >= b);
    CountAboveOfPermutation(Descending(neg), neg, mark);
    SortedCount(Descending(neg), k, mark);
  }

  /** Zero loss is exactly: at most k - 1 negatives score above the positive less the margin. */
  lemma ZeroHingeMeans(pos: real, neg: seq<real>, k: nat, delta: real)
    requires 1 <= k <= |neg|
    ensures Hinge(pos, neg, k, delta) >= 0.0
    ensures Hinge(pos, neg, k, delta) == 0.0 <==> CountAbove(neg, pos - delta) <= k - 1
  {
    KthHighestMeans(neg, k, pos - delta);
  }

  // ---- membership ------------------------------------------------------------------------------------

  /** The size of the loss: at most t exactly when at most k - 1 negatives are further than t inside the margin. */
  lemma HingeAtMost(pos: real, neg: seq<real>, k: nat, delta: real, t: real)
    requires 1 <= k <= |neg| && t >= 0.0
    ensures Hinge(pos, neg, k, delta) <= t <==> CountAbove(neg, pos + t - delta) <= k - 1
  {
    KthHighestMeans(neg, k, pos + t - delta);
  }

  lemma {:induction false} CountAboveMeans(s: seq<real>, mark: real)
    ensures CountAbove(s, mark) == |Places(s, (x: real) => x > mark)|
  {
    if s == [] {
    } else {
      var n := |s| - 1;
      CountAboveMeans(s[..n], mark);
      CountAboveAppend(s[..n], [s[n]], mark);
      PlacesSnoc(s[..n], s[n], (x: real) => x > mark);
      assert s == s[..n] + [s[n]] && [s[n]][1..] == [];
    }
  }

  /** `order` lists the slate from the highest score down, ties in any order whatever. */
  ghost predicate RanksSlate(order: seq<nat>, scores: seq<real>) {
    && IsPermutation(order, |scores|)
    && forall p, q :: 0 <= p < q < |order| && order[p] < |scores| && order[q] < |scores| ==> scores[order[p]] >= scores[order[q]]
  }

  function Others(scores: seq<real>, g: nat): seq<real>
    requires g < |scores|
  {
    scores[..g] + scores[g + 1..]
  }

  lemma CountWithout(scores: seq<real>, g: nat, mark: real)
    requires g < |scores| && mark < scores[g]
    ensures CountAbove(scores, mark) == CountAbove(Others(scores, g), mark) + 1
  {
    CountSplit(scores, g, mark);
    assert scores[g..][1..] == scores[g + 1..];
    CountAboveAppend(scores[..g], scores[g + 1..], mark);
  }

  lemma CountAlongWithout(scores: seq<real>, order: seq<nat>, g: nat, mark: real)
    requires g < |scores| && IsPermutation(order, |scores|) && mark < scores[g]
    ensures forall p :: 0 <= p < |order| ==> order[p] < |scores|
    ensures CountAbove(Take(scores, order), mark) == CountAbove(Others(scores, g), mark) + 1
  {
    PermutationFacts(order, |scores|);
    TakePermutes(order, Indices(|scores|), scores);
    assert Take(scores, Indices(|scores|)) == scores;
    hide CountAbove;
    CountAboveOfPermutation(Take(scores, order), scores, mark);
    CountWithout(scores, g, mark);
  }

  /** Everything placed ahead of the gold scores at least as high, so the gold's place is at most the
      number of rivals above any mark below its own score. */
  lemma PlaceBound(scores: seq<real>, order: seq<nat>, g: nat, place: nat, mark: real)
    requires g < |scores| && RanksSlate(order, scores) && place < |order| && order[place] == g
    requires mark < scores[g]
    ensures place <= CountAbove(Others(scores, g), mark)
  {
    hide CountAbove, IsPermutation, Others;
    CountAlongWithout(scores, order, g, mark);
    var along := Take(scores, order);
    CountSplit(along, place + 1, mark);
    assert forall p :: 0 <= p < place ==> scores[order[p]] >= scores[order[place]];
    CountAllOrNone(along[..place + 1], mark);
    CountAllOrNone(along[place + 1..], mark);
  }

  /** Zero hinge puts gold inside the top k of its slate, whatever the tie order. */
  lemma ZeroHingeIsMembership(scores: seq<real>, g: nat, k: nat, delta: real, order: seq<nat>, place: nat)
    requires g < |scores| && 1 <= k <= |Others(scores, g)| && delta > 0.0
    requires Hinge(scores[g], Others(scores, g), k, delta) == 0.0
    requires RanksSlate(order, scores) && place < |order| && order[place] == g
    ensures place < k
  {
    ZeroHingeMeans(scores[g], Others(scores, g), k, delta);
    PlaceBound(scores, order, g, place, scores[g] - delta);
  }

  /** The slate with the gold's score lowered by the margin. */
  function Lowered(scores: seq<real>, g: nat, delta: real): (r: seq<real>)
    requires g < |scores|
    ensures |r| == |scores| && Others(r, g) == Others(scores, g) && r[g] == scores[g] - delta
  {
    scores[g := scores[g] - delta]
  }

  lemma CountAlong(scores: seq<real>, order: seq<nat>, g: nat)
    requires g < |scores| && IsPermutation(order, |scores|)
    ensures forall p :: 0 <= p < |order| ==> order[p] < |scores|
    ensures CountAbove(Take(scores, order), scores[g]) == CountAbove(Others(scores, g), scores[g])
  {
    PermutationFacts(order, |scores|);
    TakePermutes(order, Indices(|scores|), scores);
    assert Take(scores, Indices(|scores|)) == scores;
    CountAboveOfPermutation(Take(scores, order), scores, scores[g]);
    CountSplit(scores, g, scores[g]);
    assert scores[g..][1..] == scores[g + 1..];
    CountAboveAppend(scores[..g], scores[g + 1..], scores[g]);
  }

  /** No order places a candidate ahead of a rival that scores strictly higher. */
  lemma PlaceAtLeast(scores: seq<real>, order: seq<nat>, g: nat, place: nat)
    requires g < |scores| && RanksSlate(order, scores) && place < |order| && order[place] == g
    ensures CountAbove(Others(scores, g), scores[g]) <= place
  {
    CountAlong(scores, order, g);
    var along := Take(scores, order);
    CountSplit(along, place, scores[g]);
    hide CountAbove;
    assert forall p :: place <= p < |order| ==> scores[order[p]] <= scores[order[place]];
    CountAllOrNone(along[..place], scores[g]);
    CountAllOrNone(along[place..], scores[g]);
  }

  /** Ranks i before j, ties going to g. */
  predicate Favours(scores: seq<real>, g: nat, i: nat, j: nat) {
    At(scores, i) > At(scores, j) || (At(scores, i) == At(scores, j) && (i == g || j != g))
  }

  lemma FavouredOrder(scores: seq<real>, g: nat) returns (order: seq<nat>)
    ensures IsPermutation(order, |scores|)
    ensures forall p, q :: 0 <= p < q < |order| ==> Favours(scores, g, order[p], order[q])
  {
    var le := (i: nat, j: nat) => Favours(scores, g, i, j);
    order := SortBy(Indices(|scores|), le);
    SortOrders(Indices(|scores|), le);
  }

  /** The order that settles ties for g places it right after the rivals that score strictly higher. */
  lemma BestPlace(scores: seq<real>, g: nat) returns (order: seq<nat>, place: nat)
    requires g < |scores|
    ensures RanksSlate(order, scores) && place < |order| && order[place] == g
    ensures place == CountAbove(Others(scores, g), scores[g])
  {
    order := FavouredOrder(scores, g);
    PermutationFacts(order, |scores|);
    assert g in order;
    place :| 0 <= place < |order| && order[place] == g;
    CountAlong(scores, order, g);
    FavouredCount(scores, order, g, place);
  }

  lemma FavouredCount(scores: seq<real>, order: seq<nat>, g: nat, place: nat)
    requires forall p :: 0 <= p < |order| ==> order[p] < |scores|
    requires Distinct(order) && place < |order| && order[place] == g
    requires forall p, q :: 0 <= p < q < |order| ==> Favours(scores, g, order[p], order[q])
    ensures CountAbove(Take(scores, order), scores[g]) == place
  {
    var along := Take(scores, order);
    CountSplit(along, place, scores[g]);
    hide CountAbove;
    forall p | 0 <= p < place ensures along[p] > scores[g] {
      assert Favours(scores, g, order[p], order[place]) && order[p] != order[place];
    }
    forall p | place <= p < |order| ensures along[p] <= scores[g] {
      if p > place { assert Favours(scores, g, order[place], order[p]); }
    }
    CountAllOrNone(along[..place], scores[g]);
    CountAllOrNone(along[place..], scores[g]);
  }

  ghost predicate PlacesWithin(order: seq<nat>, scores: seq<real>, g: nat, k: nat) {
    RanksSlate(order, scores) && exists place :: 0 <= place < |order| && place < k && order[place] == g
  }

  /** Zero hinge is exactly top-k membership with the margin given away: lower the gold's score by it, and
      some tie order still places it inside the top k. */
  lemma ZeroHingeExactly(scores: seq<real>, g: nat, k: nat, delta: real)
    requires g < |scores| && 1 <= k <= |Others(scores, g)|
    ensures Hinge(scores[g], Others(scores, g), k, delta) == 0.0
       <==> exists order :: PlacesWithin(order, Lowered(scores, g, delta), g, k)
  {
    var lowered := Lowered(scores, g, delta);
    ZeroHingeMeans(scores[g], Others(scores, g), k, delta);
    var best, place := BestPlace(lowered, g);
    if place < k {
      assert PlacesWithin(best, lowered, g, k);
    }
    if order :| PlacesWithin(order, lowered, g, k) {
      var at :| 0 <= at < |order| && at < k && order[at] == g;
      PlaceAtLeast(lowered, order, g, at);
    }
  }

  // ---- recall at k --------------------------------------------------------------------------------------

  /** One cached slate: its scores and which candidates are gold. */
  datatype Slate = Slate(scores: seq<real>, gold: seq<bool>)

  /** `np.argsort(-scores, kind="stable")`. */
  function Order(scores: seq<real>): seq<nat> {
    ArgSort(Negated(scores))
  }

  function Negated(s: seq<real>): (r: seq<real>)
    ensures |r| == |s| && forall i :: 0 <= i < |r| ==> r[i] == -s[i]
  {
    seq(|s|, i requires 0 <= i < |s| => -s[i])
  }

  lemma OrderRanks(scores: seq<real>)
    ensures RanksSlate(Order(scores), scores)
  {
    ArgSortOrders(Negated(scores));
    var order := Order(scores);
    forall p, q | 0 <= p < q < |order| && order[p] < |scores| && order[q] < |scores|
      ensures scores[order[p]] >= scores[order[q]]
    {
      assert Ahead(Negated(scores), order[p], order[q]);
    }
  }

  /** Does the top k hold a gold candidate? */
  predicate HasGold(slate: Slate, k: nat) {
    var order := Order(slate.scores);
    exists p :: 0 <= p < |order| && p < k && order[p] < |slate.gold| && slate.gold[order[p]]
  }

  function HitCount(slates: seq<Slate>, k: nat): nat {
    if slates == [] then 0 else HitCount(slates[..|slates| - 1], k) + if HasGold(slates[|slates| - 1], k) then 1 else 0
  }

  /** `r_at_k_from_scores`: hits over slates; no slates at all is a division by zero. */
  method RecallAtK(slates: seq<Slate>, k: nat) returns (r: real)
    requires slates != []
    ensures r == (HitCount(slates, k) as real) / (|slates| as real)
  {
    var hits := 0;
    for i := 0 to |slates|
      invariant hits == HitCount(slates[..i], k)
    {
      assert slates[..i + 1][..i] == slates[..i];
      var order := Order(slates[i].scores);
      var found := false;
      var p := 0;
      while p < |order| && p < k && !found
        invariant 0 <= p <= |order| && p <= k
        invariant found ==> HasGold(slates[i], k)
        invariant !found ==> forall q :: 0 <= q < p ==> !(order[q] < |slates[i].gold| && slates[i].gold[order[q]])
      {
        if order[p] < |slates[i].gold| && slates[i].gold[order[p]] {
          found := true;
        }
        p := p + 1;
      }
      if found {
        hits := hits + 1;
      }
    }
    assert slates[..|slates|] == slates;
    r := (hits as real) / (|slates| as real);
  }

  /** Recall grows with k. */
  lemma {:induction false} RecallGrows(slates: seq<Slate>, j: nat, k: nat)
    requires j <= k
    ensures HitCount(slates, j) <= HitCount(slates, k) <= |slates|
  {
    if slates == [] {
    } else {
      RecallGrows(slates[..|slates| - 1], j, k);
    }
  }

  /** A slate trained to zero loss: some gold candidate has a zero hinge against all the others. */
  ghost predicate Trained(slate: Slate, k: nat, delta: real) {
    exists g :: 0 <= g < |slate.scores| && g < |slate.gold| && slate.gold[g]
                && 1 <= k <= |Others(slate.scores, g)| && Hinge(slate.scores[g], Others(slate.scores, g), k, delta) == 0.0
  }

  lemma TrainedSlateHits(slate: Slate, k: nat, delta: real)
    requires delta > 0.0 && Trained(slate, k, delta)
    ensures HasGold(slate, k)
  {
    var g :| 0 <= g < |slate.scores| && g < |slate.gold| && slate.gold[g]
             && 1 <= k <= |Others(slate.scores, g)| && Hinge(slate.scores[g], Others(slate.scores, g), k, delta) == 0.0;
    var order := Order(slate.scores);
    OrderRanks(slate.scores);
    PermutationFacts(order, |slate.scores|);
    assert (g as nat) in order;
    var place :| 0 <= place < |order| && order[place] == g;
    ZeroHingeIsMembership(slate.scores, g, k, delta, order, place);
  }

  /** When every slate reaches zero loss against its own rivals, recall at k is perfect. */
  lemma {:induction false} ZeroLossIsFullRecall(slates: seq<Slate>, k: nat, delta: real)
    requires delta > 0.0 && forall i :: 0 <= i < |slates| ==> Trained(slates[i], k, delta)
    ensures HitCount(slates, k) == |slates|
  {
    if slates == [] {
    } else {
      TrainedSlateHits(slates[|slates| - 1], k, delta);
      ZeroLossIsFullRecall(slates[..|slates| - 1], k, delta);
    }
  }

  // ---- a batch --------------------------------------------------------------------------------------------

  /** One query's scored group. */
  datatype Scored = Scored(pos: real, neg: seq<real>)

  /** Every group has the k negatives `torch.topk` needs; the tool drops the others up front. */
  predicate Usable(batch: seq<Scored>, k: nat) {
    k >= 1 && forall i :: 0 <= i < |batch| ==> k <= |batch[i].neg|
  }

  /** The hinges of the first n queries, added up. */
  function LossSum(batch: seq<Scored>, k: nat, delta: real, n: nat): real
    requires Usable(batch, k) && n <= |batch|
  {
    if n == 0 then 0.0 else LossSum(batch, k, delta, n - 1) + Hinge(batch[n - 1].pos, batch[n - 1].neg, k, delta)
  }

  ghost predicate InsideMargin(batch: seq<Scored>, k: nat, delta: real, n: nat)
    requires n <= |batch|
  {
    forall i :: 0 <= i < n ==> CountAbove(batch[i].neg, batch[i].pos - delta) <= k - 1
  }

  lemma InsideStep(batch: seq<Scored>, k: nat, delta: real, n: nat)
    requires 0 < n <= |batch|
    ensures InsideMargin(batch, k, delta, n)
       <==> InsideMargin(batch, k, delta, n - 1) && CountAbove(batch[n - 1].neg, batch[n - 1].pos - delta) <= k - 1
  {
  }

  lemma {:induction false} ZeroSumMeans(batch: seq<Scored>, k: nat, delta: real, n: nat)
    requires Usable(batch, k) && n <= |batch|
    ensures LossSum(batch, k, delta, n) >= 0.0
    ensures LossSum(batch, k, delta, n) == 0.0 <==> InsideMargin(batch, k, delta, n)
  {
    hide Hinge, CountAbove;
    if n == 0 {
    } else {
      InsideStep(batch, k, delta, n);
      hide InsideMargin;
      ZeroSumMeans(batch, k, delta, n - 1);
      ZeroHingeMeans(batch[n - 1].pos, batch[n - 1].neg, k, delta);
    }
  }

  lemma ZeroMean(sum: real, n: real)
    requires n > 0.0
    ensures sum / n == 0.0 <==> sum == 0.0
  {
    var m := sum / n;
    assert m * n == sum;
  }

  /** The accumulated batch loss is the mean hinge, and is zero exactly when every query has at most
      k - 1 negatives inside its margin. */
  method BatchLoss(batch: seq<Scored>, k: nat, delta: real) returns (loss: real)
    requires batch != [] && k >= 1 && forall i :: 0 <= i < |batch| ==> |batch[i].neg| >= k
    ensures loss == LossSum(batch, k, delta, |batch|) / (|batch| as real)
    ensures loss == 0.0 <==> InsideMargin(batch, k, delta, |batch|)
  {
    hide Hinge;
    var sum := 0.0;
    for i := 0 to |batch|
      invariant sum == LossSum(batch, k, delta, i)
    {
      sum := sum + Hinge(batch[i].pos, batch[i].neg, k, delta);
    }
    hide LossSum, InsideMargin;
    ZeroSumMeans(batch, k, delta, |batch|);
    ZeroMean(sum, |batch| as real);
    loss := sum / (|batch| as real);
  }
}
