/** `top1` of the run comparison: sort one query's rows by `rank_key`, descending, take the first,
    and report whether only the id tie-break decided it. */
module TopOne {
  import opened Options
  import opened Sorting
  import opened Text

  datatype Row = Row(memoryId: string, score: real, rerank: Option<real>)

  /** The reranker's value, or the placeholder the key carries for a row it never scored. */
  function Rerank(r: Row): real {
    if r.rerank.Some? then r.rerank.value else 0.0
  }

  /** Greater on the first three components of the key. */
  predicate Above(a: Row, b: Row) {
    if a.rerank.Some? != b.rerank.Some? then a.rerank.Some?
    else if Rerank(a) != Rerank(b) then Rerank(a) > Rerank(b)
    else a.score > b.score
  }

  /** Equal on the first three components. */
  predicate Level(a: Row, b: Row) {
    a.rerank == b.rerank && a.score == b.score
  }

  /** `rank_key(a) >= rank_key(b)`. */
  predicate AtLeast(a: Row, b: Row) {
    Above(a, b) || (Level(a, b) && Leq(b.memoryId, a.memoryId))
  }

  lemma KeyOrder()
    ensures TotalPreorder((a: Row, b: Row) => AtLeast(a, b))
  {
    forall a: Row, b: Row ensures AtLeast(a, b) || AtLeast(b, a) {
      LeqTotal(a.memoryId, b.memoryId);
    }
    forall a: Row, b: Row, c: Row | AtLeast(a, b) && AtLeast(b, c) ensures AtLeast(a, c) {
      if Leq(c.memoryId, b.memoryId) && Leq(b.memoryId, a.memoryId) {
        LeqTransitive(c.memoryId, b.memoryId, a.memoryId);
      }
    }
  }

  /** The best row, as a property of the rows alone. */
  ghost predicate IsTop(rows: seq<Row>, w: Row) {
    w in rows && forall r :: r in rows ==> AtLeast(w, r)
  }

  /** Some other row cannot be told from w before the id is consulted. */
  ghost predicate Contested(rows: seq<Row>, w: Row) {
    exists r :: r in multiset(rows) - multiset{w} && Level(r, w)
  }

  lemma FirstIsTop(rows: seq<Row>, s: seq<Row>)
    requires rows != [] && multiset(s) == multiset(rows)
    requires forall i, j :: 0 <= i < j < |s| ==> AtLeast(s[i], s[j])
    ensures |s| == |rows| && IsTop(rows, s[0])
  {
    SameMembers(s, rows);
    LeqTotal(s[0].memoryId, s[0].memoryId);
    hide Leq, Above;
    forall r | r in rows ensures AtLeast(s[0], r) {
      assert r in s;
    }
  }

  lemma SecondDecides(s: seq<Row>, k: nat)
    requires forall i, j :: 0 <= i < j < |s| ==> AtLeast(s[i], s[j])
    requires 0 < k < |s| && Level(s[k], s[0])
    ensures Level(s[0], s[1])
  {
    hide Leq;
    assert AtLeast(s[0], s[1]) && (k > 1 ==> AtLeast(s[1], s[k]));
  }

  /** The rows other than the head of the arrangement. */
  lemma TailIsRest(rows: seq<Row>, s: seq<Row>, r: Row)
    requires s != [] && multiset(s) == multiset(rows)
    ensures r in multiset(rows) - multiset{s[0]} <==> r in s[1..]
  {
    assert s == [s[0]] + s[1..];
    assert multiset(s) == multiset{s[0]} + multiset(s[1..]);
    assert multiset(s) - multiset{s[0]} == multiset(s[1..]);
  }

  lemma TieIsContest(rows: seq<Row>, s: seq<Row>)
    requires s != [] && multiset(s) == multiset(rows)
    requires forall i, j :: 0 <= i < j < |s| ==> AtLeast(s[i], s[j])
    ensures Contested(rows, s[0]) <==> |s| > 1 && Level(s[0], s[1])
  {
    hide AtLeast, Level;
    if Contested(rows, s[0]) {
      var r :| r in multiset(rows) - multiset{s[0]} && Level(r, s[0]);
      TailIsRest(rows, s, r);
      var k :| 0 <= k < |s[1..]| && s[1..][k] == r;
      SecondDecides(s, k + 1);
    }
    if |s| > 1 && Level(s[0], s[1]) {
      assert s[1..][0] == s[1];
      TailIsRest(rows, s, s[1]);
      LevelSymmetric(s[0], s[1]);
    }
  }

  lemma LevelSymmetric(a: Row, b: Row)
    ensures Level(a, b) == Level(b, a)
  {
  }

  method Top1(rows: seq<Row>) returns (winner: Row, tieDecided: bool)
    requires rows != []
    ensures IsTop(rows, winner)
    ensures tieDecided <==> Contested(rows, winner)
  {
    var s := SortBy(rows, (a: Row, b: Row) => AtLeast(a, b));
    KeyOrder();
    SortOrders(rows, (a: Row, b: Row) => AtLeast(a, b));
    FirstIsTop(rows, s);
    TieIsContest(rows, s);
    winner := s[0];
    tieDecided := |s| > 1 && Level(s[0], s[1]);
  }

  /** The best row, read off the rows: no other row is reranked unless it is, none has a higher rerank, none
      with its rerank a higher score, and none with both a higher id. */
  lemma TopMeans(rows: seq<Row>, w: Row, r: Row)
    requires IsTop(rows, w) && r in rows
    ensures w in rows
    ensures w.rerank == None ==> r.rerank == None
    ensures w.rerank.Some? && r.rerank.Some? ==> w.rerank.value >= r.rerank.value
    ensures w.rerank == r.rerank ==> w.score >= r.score
    ensures w.rerank == r.rerank && w.score == r.score ==> Leq(r.memoryId, w.memoryId)
  {
    assert AtLeast(w, r);
    LeqTotal(w.memoryId, w.memoryId);
  }

  lemma RivalIsElsewhere(rows: seq<Row>, k: nat, r: Row) returns (j: nat)
    requires k < |rows| && r in multiset(rows) - multiset{rows[k]}
    ensures j < |rows| && j != k && rows[j] == r
  {
    var rest := rows[..k] + rows[k + 1..];
    WithoutElement(rows, k);
    assert r in rest;
    var i: nat :| i < |rest| && rest[i] == r;
    j := if i < k then i else i + 1;
  }

  lemma ElsewhereIsRival(rows: seq<Row>, k: nat, j: nat)
    requires k < |rows| && j < |rows| && j != k
    ensures rows[j] in multiset(rows) - multiset{rows[k]}
  {
    var rest := rows[..k] + rows[k + 1..];
    WithoutElement(rows, k);
    assert rest[if j < k then j else j - 1] == rows[j];
    assert rows[j] in rest;
  }

  /** A tie, read off the rows: another place holds the same rerank and the same score. */
  lemma ContestMeans(rows: seq<Row>, k: nat)
    requires k < |rows|
    ensures Contested(rows, rows[k]) <==> exists j :: 0 <= j < |rows| && j != k && Matches(rows[j], rows[k])
  {
    if Contested(rows, rows[k]) {
      var r :| r in multiset(rows) - multiset{rows[k]} && Level(r, rows[k]);
      var j := RivalIsElsewhere(rows, k, r);
      assert Matches(rows[j], rows[k]);
    }
    if j: nat :| j < |rows| && j != k && Matches(rows[j], rows[k]) {
      ElsewhereIsRival(rows, k, j);
      assert Level(rows[j], rows[k]);
    }
  }

  ghost predicate Matches(a: Row, b: Row) {
    a.rerank == b.rerank && a.score == b.score
  }

  /** With distinct ids there is one best row, so the order the dump is read in decides nothing. */
  lemma TopIsUnique(rows: seq<Row>, shuffled: seq<Row>, v: Row, w: Row)
    requires forall i, j :: 0 <= i < j < |rows| ==> rows[i].memoryId != rows[j].memoryId
    requires multiset(rows) == multiset(shuffled) && IsTop(rows, v) && IsTop(shuffled, w)
    ensures v == w && (Contested(rows, v) <==> Contested(shuffled, w))
  {
    SameMembers(rows, shuffled);
    if Leq(v.memoryId, w.memoryId) && Leq(w.memoryId, v.memoryId) {
      LeqAntisymmetric(v.memoryId, w.memoryId);
    }
    var i :| 0 <= i < |rows| && rows[i] == v;
    var j :| 0 <= j < |rows| && rows[j] == w;
  }
}
