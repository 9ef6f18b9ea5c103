/** The ranking keys: `np.lexsort` over columns with missing values, the five-level shipped order,
    the gate's own order, and the top-k read. */
module RankingKey {
  import opened Options
  import opened Sorting

  /** A sort key: a number, or the infinity that stands for a missing rerank score. */
  datatype Key = Num(x: real) | Inf

  predicate KeyLe(a: Key, b: Key) {
    b.Inf? || (a.Num? && a.x <= b.x)
  }

  function KeyAt(column: seq<Key>, i: nat): Key {
    if i < |column| then column[i] else Inf
  }

  function Column(column: seq<Key>): (nat, nat) -> bool {
    (i: nat, j: nat) => KeyLe(KeyAt(column, i), KeyAt(column, j))
  }

  /** `np.lexsort(columns)`: stable sorts from the first column to the last, so the LAST is primary. */
  function LexSort(columns: seq<seq<Key>>, n: nat): seq<nat> {
    if columns == [] then Indices(n)
    else SortBy(LexSort(columns[..|columns| - 1], n), Column(columns[|columns| - 1]))
  }

  /** The comparison the successive sorts amount to. */
  predicate LexBefore(columns: seq<seq<Key>>, i: nat, j: nat) {
    if columns == [] then i < j
    else
      var a, b := KeyAt(columns[|columns| - 1], i), KeyAt(columns[|columns| - 1], j);
      KeyLe(a, b) && (a == b ==> LexBefore(columns[..|columns| - 1], i, j))
  }

  lemma {:induction false} LexSortOrders(columns: seq<seq<Key>>, n: nat)
    ensures IsPermutation(LexSort(columns, n), n)
    ensures Chain(LexSort(columns, n), (i: nat, j: nat) => LexBefore(columns, i, j))
  {
    if columns == [] {
    } else {
      var init, last := columns[..|columns| - 1], columns[|columns| - 1];
      LexSortOrders(init, n);
      var rel := (i: nat, j: nat) => LexBefore(init, i, j);
      SortRefines(LexSort(init, n), Column(last), rel);
      var r := LexSort(columns, n);
      forall p, q | 0 <= p < q < |r| ensures LexBefore(columns, r[p], r[q]) {
        assert Refine(Column(last), rel)(r[p], r[q]);
      }
    }
  }

  // ---- the shipped order -------------------------------------------------------------------------

  /** One dumped candidate. A dump may predate pruning (`survived` absent means it survived) and a
      candidate may not have been reranked. */
  datatype Row = Row(score: real, margin: real, survived: Option<bool>, rerank: Option<real>)

  predicate Survives(r: Row) {
    r.survived.None? || r.survived.value
  }

  function MarginKeys(rows: seq<Row>): seq<Key> {
    seq(|rows|, i requires 0 <= i < |rows| => Num(-rows[i].margin))
  }

  function ScoreKeys(rows: seq<Row>): seq<Key> {
    seq(|rows|, i requires 0 <= i < |rows| => Num(-rows[i].score))
  }

  /** `np.where(np.isnan(rerank), np.inf, -rerank)`. */
  function RerankKeys(rows: seq<Row>): seq<Key> {
    seq(|rows|, i requires 0 <= i < |rows| =>
      match rows[i].rerank case Some(s) => Num(-s) case None => Inf)
  }

  /** `~survived`. */
  function PrunedKeys(rows: seq<Row>): seq<Key> {
    seq(|rows|, i requires 0 <= i < |rows| => Num(if Survives(rows[i]) then 0.0 else 1.0))
  }

  function ShippedOrder(rows: seq<Row>): seq<nat> {
    LexSort([MarginKeys(rows), ScoreKeys(rows), RerankKeys(rows), PrunedKeys(rows)], |rows|)
  }

  function GateOrder(rows: seq<Row>): seq<nat> {
    LexSort([MarginKeys(rows), ScoreKeys(rows)], |rows|)
  }

  /** Gate levels: score descending, then margin descending, then row order. */
  predicate GateAhead(rows: seq<Row>, i: nat, j: nat) {
    i < |rows| && j < |rows| &&
    var a, b := rows[i], rows[j];
    a.score > b.score || (a.score == b.score && (a.margin > b.margin || (a.margin == b.margin && i < j)))
  }

  /** A reranked candidate beats one that was not; two reranked ones compare by score, descending. */
  predicate RerankAhead(a: Option<real>, b: Option<real>) {
    a.Some? && (b.None? || a.value > b.value)
  }

  /** The five levels, in order. */
  predicate ShippedAhead(rows: seq<Row>, i: nat, j: nat) {
    i < |rows| && j < |rows| &&
    var a, b := rows[i], rows[j];
    if Survives(a) != Survives(b) then Survives(a)
    else if a.rerank != b.rerank then RerankAhead(a.rerank, b.rerank)
    else GateAhead(rows, i, j)
  }

  lemma LexBeforeGate(rows: seq<Row>, i: nat, j: nat)
    requires i < |rows| && j < |rows|
    ensures LexBefore([MarginKeys(rows), ScoreKeys(rows)], i, j) <==> GateAhead(rows, i, j)
  {
    var m, s := MarginKeys(rows), ScoreKeys(rows);
    assert [m, s][..1] == [m] && [m][..0] == [];
    assert LexBefore([m], i, j) <==>
           rows[i].margin > rows[j].margin || (rows[i].margin == rows[j].margin && i < j);
  }

  lemma LexBeforeShipped(rows: seq<Row>, i: nat, j: nat)
    requires i < |rows| && j < |rows|
    ensures LexBefore([MarginKeys(rows), ScoreKeys(rows), RerankKeys(rows), PrunedKeys(rows)], i, j)
       <==> ShippedAhead(rows, i, j)
  {
    var m, s, r, p := MarginKeys(rows), ScoreKeys(rows), RerankKeys(rows), PrunedKeys(rows);
    LexBeforeGate(rows, i, j);
    assert [m, s, r, p][..3] == [m, s, r] && [m, s, r][..2] == [m, s];
    assert KeyAt(r, i) == r[i] && KeyAt(r, j) == r[j] && KeyAt(p, i) == p[i] && KeyAt(p, j) == p[j];
  }

  ghost predicate ArrangedBy(order: seq<nat>, rows: seq<Row>, ahead: (seq<Row>, nat, nat) -> bool) {
    && IsPermutation(order, |rows|)
    && forall p, q :: 0 <= p < q < |order| ==> ahead(rows, order[p], order[q])
  }

  /** Four stable sorts, least significant first, give exactly the five-level order. */
  lemma ShippedOrderIsFiveLevel(rows: seq<Row>)
    ensures ArrangedBy(ShippedOrder(rows), rows, ShippedAhead)
  {
    var columns := [MarginKeys(rows), ScoreKeys(rows), RerankKeys(rows), PrunedKeys(rows)];
    LexSortOrders(columns, |rows|);
    var order := ShippedOrder(rows);
    PermutationFacts(order, |rows|);
    forall p, q | 0 <= p < q < |order| ensures ShippedAhead(rows, order[p], order[q])
    {
      assert LexBefore(columns, order[p], order[q]);
      LexBeforeShipped(rows, order[p], order[q]);
    }
  }

  lemma GateOrderIsThreeLevel(rows: seq<Row>)
    ensures ArrangedBy(GateOrder(rows), rows, GateAhead)
  {
    var columns := [MarginKeys(rows), ScoreKeys(rows)];
    LexSortOrders(columns, |rows|);
    var order := GateOrder(rows);
    PermutationFacts(order, |rows|);
    forall p, q | 0 <= p < q < |order| ensures GateAhead(rows, order[p], order[q])
    {
      assert LexBefore(columns, order[p], order[q]);
      LexBeforeGate(rows, order[p], order[q]);
    }
  }

  /** The five levels leave no ties, so any other way of producing the order gives the same one. */
  lemma FiveLevelOrderIsUnique(rows: seq<Row>, order: seq<nat>)
    requires ArrangedBy(order, rows, ShippedAhead)
    ensures order == ShippedOrder(rows)
  {
    ShippedOrderIsFiveLevel(rows);
    var rel := (i: nat, j: nat) => ShippedAhead(rows, i, j);
    ChainUnique(order, ShippedOrder(rows), rel);
  }

  ghost predicate Pruned(r: Row) {
    r.survived == Some(false)
  }

  /** The five levels, read off the rows: of two places in the order the later one is never the better. A
      pruned row comes after every other; then, with pruning equal, one that was not reranked after every one
      that was; and then, each level deciding only where those before it are equal, rerank, score and margin
      fall and row order rises. */
  lemma ShippedLevels(rows: seq<Row>, p: nat, q: nat)
    requires p < q < |ShippedOrder(rows)|
    ensures ShippedOrder(rows)[p] < |rows| && ShippedOrder(rows)[q] < |rows|
    ensures var i, j := ShippedOrder(rows)[p], ShippedOrder(rows)[q];
            var a, b := rows[i], rows[j];
            && (Pruned(a) ==> Pruned(b))
            && (Pruned(a) == Pruned(b) ==>
                 && (a.rerank == None ==> b.rerank == None)
                 && (a.rerank.Some? && b.rerank.Some? ==> a.rerank.value >= b.rerank.value)
                 && (a.rerank == b.rerank ==> a.score >= b.score)
                 && (a.rerank == b.rerank && a.score == b.score ==> a.margin >= b.margin)
                 && (a.rerank == b.rerank && a.score == b.score && a.margin == b.margin ==> i < j))
  {
    ShippedOrderIsFiveLevel(rows);
    assert ShippedAhead(rows, ShippedOrder(rows)[p], ShippedOrder(rows)[q]);
  }

  lemma GateLevels(rows: seq<Row>, p: nat, q: nat)
    requires p < q < |GateOrder(rows)|
    ensures GateOrder(rows)[p] < |rows| && GateOrder(rows)[q] < |rows|
    ensures var i, j := GateOrder(rows)[p], GateOrder(rows)[q];
            var a, b := rows[i], rows[j];
            && a.score >= b.score
            && (a.score == b.score ==> a.margin >= b.margin)
            && (a.score == b.score && a.margin == b.margin ==> i < j)
  {
    GateOrderIsThreeLevel(rows);
    assert GateAhead(rows, GateOrder(rows)[p], GateOrder(rows)[q]);
  }

  /** With nothing pruned and nothing reranked, the shipped order is the gate's. */
  lemma ShippedReducesToGate(rows: seq<Row>)
    requires forall i :: 0 <= i < |rows| ==> Survives(rows[i]) && rows[i].rerank.None?
    ensures ShippedOrder(rows) == GateOrder(rows)
  {
    GateOrderIsThreeLevel(rows);
    FiveLevelOrderIsUnique(rows, GateOrder(rows));
  }

  // ---- the top-k read ------------------------------------------------------------------------------

  /** `order[:k]`. */
  function Top(order: seq<nat>, k: nat): seq<nat> {
    if k <= |order| then order[..k] else order
  }

  function TopSet(order: seq<nat>, k: nat): set<nat> {
    set x | x in Top(order, k)
  }

  function GoldSet(gold: seq<bool>): set<nat> {
    set i: nat | i < |gold| && gold[i]
  }

  /** `hit`: does the top-k intersect gold? */
  predicate Hit(order: seq<nat>, gold: seq<bool>, k: nat) {
    TopSet(order, k) * GoldSet(gold) != {}
  }

  lemma HitMeans(order: seq<nat>, gold: seq<bool>, k: nat)
    ensures Hit(order, gold, k)
       <==> exists p :: 0 <= p < |order| && p < k && order[p] < |gold| && gold[order[p]]
  {
    if Hit(order, gold, k) {
      var x :| x in TopSet(order, k) * GoldSet(gold);
      var p :| 0 <= p < |Top(order, k)| && Top(order, k)[p] == x;
      assert order[p] == x;
    }
    if exists p :: 0 <= p < |order| && p < k && order[p] < |gold| && gold[order[p]] {
      var p :| 0 <= p < |order| && p < k && order[p] < |gold| && gold[order[p]];
      assert Top(order, k)[p] == order[p];
      assert order[p] in TopSet(order, k) * GoldSet(gold);
    }
  }

  /** At full depth every ranker reads the same: whether the pool holds gold at all. */
  lemma HitAtFullDepth(order: seq<nat>, gold: seq<bool>, k: nat)
    requires IsPermutation(order, |gold|) && k >= |gold|
    ensures Hit(order, gold, k) <==> exists i :: 0 <= i < |gold| && gold[i]
  {
    PermutationFacts(order, |gold|);
    HitMeans(order, gold, k);
    if exists i :: 0 <= i < |gold| && gold[i] {
      var i :| 0 <= i < |gold| && gold[i];
      assert (i as nat) in order;
      var p :| 0 <= p < |order| && order[p] == i;
    }
  }
}
