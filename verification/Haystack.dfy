/** From one query's haystack to the instance the miner works on: its gold turns in order, and the
    ranked walk of every class. */
module Haystack {
  import opened Options
  import opened Sorting
  import opened Text
  import opened Selection
  import opened Miner

  /** A query as the corpus gives it. `deployed` is the deployed pipeline's order over its whole
      candidate pool, as turn ids; there may be no pool, and a candidate without a turn id has the empty one. */
  datatype Source = Source(qid: string, question: string, goldSessions: set<string>,
                           turns: seq<Turn>, deployed: Option<seq<string>>)

  function Filter<T>(s: seq<T>, keep: T -> bool): seq<T> {
    if s == [] then [] else One(s[0], keep) + Filter(s[1..], keep)
  }

  function One<T>(x: T, keep: T -> bool): seq<T> {
    if keep(x) then [x] else []
  }

  lemma {:induction false} FilterCounts<T>(s: seq<T>, keep: T -> bool, x: T)
    ensures multiset(Filter(s, keep))[x] == if keep(x) then multiset(s)[x] else 0
  {
    if s == [] {
    } else {
      FilterCounts(s[1..], keep, x);
      assert s == [s[0]] + s[1..];
    }
  }

  lemma FilterMembers<T>(s: seq<T>, keep: T -> bool)
    ensures forall x :: x in Filter(s, keep) <==> x in s && keep(x)
  {
    forall x ensures x in Filter(s, keep) <==> x in s && keep(x) {
      FilterCounts(s, keep, x);
      assert x in Filter(s, keep) <==> multiset(Filter(s, keep))[x] > 0;
      assert x in s <==> multiset(s)[x] > 0;
    }
  }

  lemma {:induction false} FilterAppend<T>(s: seq<T>, t: seq<T>, keep: T -> bool)
    ensures Filter(s + t, keep) == Filter(s, keep) + Filter(t, keep)
  {
    if s == [] {
      assert s + t == t;
    } else {
      FilterAppend(s[1..], t, keep);
      assert (s + t)[1..] == s[1..] + t;
      JoinAssociates(One(s[0], keep), Filter(s[1..], keep), Filter(t, keep));
    }
  }

  lemma JoinAssociates<T>(a: seq<T>, b: seq<T>, c: seq<T>)
    ensures a + (b + c) == a + b + c
  {
  }

  lemma FilterPermutes<T(!new)>(a: seq<T>, b: seq<T>, keep: T -> bool)
    requires multiset(a) == multiset(b)
    ensures multiset(Filter(a, keep)) == multiset(Filter(b, keep))
  {
    var f := s => multiset(Filter(s, keep));
    forall s, t ensures f(s + t) == f(t + s) {
      FilterAppend(s, t, keep);
      FilterAppend(t, s, keep);
    }
    forall r, s, t | f(s) == f(t) ensures f(r + s) == f(r + t) {
      FilterAppend(r, s, keep);
      FilterAppend(r, t, keep);
    }
    PermutationAddsUp(a, b, f);
  }

  lemma {:induction false} FilterDistinct(s: seq<Turn>, keep: Turn -> bool)
    requires DistinctIds(s)
    ensures DistinctIds(Filter(s, keep))
  {
    if s == [] {
    } else {
      FilterDistinct(s[1..], keep);
      FilterMembers(s[1..], keep);
      forall t | t in s[1..] ensures t.id != s[0].id {
      }
    }
  }

  // ---- the walks -------------------------------------------------------------------------------------

  predicate IsSpace(c: char) {
    c == ' ' || '\t' <= c <= '\r' || 0x1c as char <= c <= 0x1f as char
  }

  /** `not t["text"].strip()`. */
  predicate Blank(text: string) {
    forall i :: 0 <= i < |text| ==> IsSpace(text[i])
  }

  /** The characters Python strips, as far as ASCII goes. */
  lemma BlankMeans(text: string)
    ensures Blank(text) <==> forall c :: c in text ==> c as int in {9, 10, 11, 12, 13, 28, 29, 30, 31, 32}
  {
    assert forall c :: IsSpace(c) <==> c as int in {9, 10, 11, 12, 13, 28, 29, 30, 31, 32};
    if Blank(text) {
      forall c | c in text ensures IsSpace(c) {
        var i :| 0 <= i < |text| && text[i] == c;
      }
    }
    if forall c :: c in text ==> IsSpace(c) {
      forall i | 0 <= i < |text| ensures IsSpace(text[i]) {
        assert text[i] in text;
      }
    }
  }

  /** `per_turn.get(tid) if tid else None`. */
  function Lookup(turns: seq<Turn>, tid: string): Option<Turn> {
    if turns == [] || tid == [] then None
    else if turns[0].id == tid then Some(turns[0])
    else Lookup(turns[1..], tid)
  }

  function Recorded(turns: seq<Turn>, tids: seq<string>): seq<Turn> {
    if tids == [] then [] else
    (match Lookup(turns, tids[0]) case Some(t) => [t] case None => []) + Recorded(turns, tids[1..])
  }

  /** Cross-session candidates: not in a gold session, and not blank. */
  predicate Outside(goldSessions: set<string>, t: Turn) {
    t.sid !in goldSessions && !Blank(t.text)
  }

  /** The head of the deployed order, all that the miner keeps of it. */
  function DeployedTop(deployed: seq<string>): seq<string> {
    First(DEPLOYED_TOP_K_DEPTH, deployed)
  }

  /** The walk a class starts from, or nothing where there is no pool to walk. */
  function WalkOf(q: Source, c: Class): Option<seq<Turn>> {
    match c
    case DeployedTopK => if q.deployed.Some? then Some(Recorded(q.turns, DeployedTop(q.deployed.value))) else None
    case CrossSession => Some(Walk(Filter(q.turns, (t: Turn) => Outside(q.goldSessions, t))))
    case QuestionEcho => Some(Walk(Filter(q.turns, (t: Turn) => !Blank(t.text))))
  }

  function GoldLeq(a: Turn, b: Turn): bool {
    Less(a.sid, b.sid) || (a.sid == b.sid && a.idx <= b.idx)
  }

  /** `sorted((t for t in turns if t["gold"]), key=(sid, idx))`. */
  function GoldsOf(turns: seq<Turn>): seq<Turn> {
    SortBy(Filter(turns, (t: Turn) => t.gold), (a: Turn, b: Turn) => GoldLeq(a, b))
  }

  function Prepare(q: Source, classes: set<Class>): Instance {
    Instance(q.qid, q.question, q.goldSessions, GoldsOf(q.turns),
             map c | c in classes && WalkOf(q, c).Some? :: WalkOf(q, c).value)
  }

  // ---- reproducibility ---------------------------------------------------------------------------------

  /** A turn id spells out its session and its index, and no two turns share one. */
  ghost predicate Indexed(turns: seq<Turn>) {
    && DistinctIds(turns)
    && forall i, j :: 0 <= i < |turns| && 0 <= j < |turns| && turns[i].sid == turns[j].sid && turns[i].idx == turns[j].idx
                      ==> turns[i].id == turns[j].id
  }

  lemma {:induction false} LookupMeans(turns: seq<Turn>, tid: string)
    ensures Lookup(turns, tid).Some? <==> tid != [] && exists t :: t in turns && t.id == tid
    ensures Lookup(turns, tid).Some? ==> Lookup(turns, tid).value in turns && Lookup(turns, tid).value.id == tid
  {
    if turns != [] && tid != [] {
      LookupMeans(turns[1..], tid);
      assert turns == [turns[0]] + turns[1..];
    }
  }

  lemma LookupIgnoresOrder(s: seq<Turn>, t: seq<Turn>, tid: string)
    requires DistinctIds(s) && multiset(s) == multiset(t)
    ensures Lookup(s, tid) == Lookup(t, tid)
  {
    LookupMeans(s, tid);
    LookupMeans(t, tid);
    SameMembers(s, t);
  }

  lemma {:induction false} RecordedIgnoresOrder(s: seq<Turn>, t: seq<Turn>, tids: seq<string>)
    requires DistinctIds(s) && multiset(s) == multiset(t)
    ensures Recorded(s, tids) == Recorded(t, tids)
  {
    if tids == [] {
    } else {
      LookupIgnoresOrder(s, t, tids[0]);
      RecordedIgnoresOrder(s, t, tids[1..]);
    }
  }

  lemma GoldOrder()
    ensures TotalPreorder((a: Turn, b: Turn) => GoldLeq(a, b))
  {
    forall a: Turn, b: Turn ensures GoldLeq(a, b) || GoldLeq(b, a) {
      LeqTotal(a.sid, b.sid);
    }
    forall a: Turn, b: Turn, c: Turn | GoldLeq(a, b) && GoldLeq(b, c) ensures GoldLeq(a, c) {
      if Leq(a.sid, b.sid) && Leq(b.sid, c.sid) { LeqTransitive(a.sid, b.sid, c.sid); }
      if a.sid == c.sid && a.sid != b.sid { LeqAntisymmetric(a.sid, b.sid); }
    }
  }

  /** Strictly earlier in the gold order. */
  predicate GoldBefore(a: Turn, b: Turn) {
    GoldLeq(a, b) && !GoldLeq(b, a)
  }

  lemma GoldsAreStrict(turns: seq<Turn>)
    requires Indexed(turns)
    ensures Chain(GoldsOf(turns), (a: Turn, b: Turn) => GoldBefore(a, b))
    ensures forall i, j :: 0 <= i < j < |GoldsOf(turns)| ==>
              var a, b := GoldsOf(turns)[i], GoldsOf(turns)[j];
              Less(a.sid, b.sid) || (a.sid == b.sid && a.idx < b.idx)
    ensures forall t :: t in GoldsOf(turns) <==> t in turns && t.gold
  {
    var isGold := (t: Turn) => t.gold;
    var le := (a: Turn, b: Turn) => GoldLeq(a, b);
    var apart := (a: Turn, b: Turn) => a.sid != b.sid || a.idx != b.idx;
    var golds := Filter(turns, isGold);
    FilterMembers(turns, isGold);
    FilterDistinct(turns, isGold);
    SameMembers(GoldsOf(turns), golds);
    forall i, j | 0 <= i < j < |golds| ensures apart(golds[i], golds[j]) {
      assert golds[i] in turns && golds[j] in turns;
    }
    GoldOrder();
    SortRefines(golds, le, apart);
    var s := GoldsOf(turns);
    forall i, j | 0 <= i < j < |s| ensures GoldBefore(s[i], s[j]) {
      assert Refine(le, apart)(s[i], s[j]);
      if Less(s[i].sid, s[j].sid) && Less(s[j].sid, s[i].sid) { LeqAntisymmetric(s[i].sid, s[j].sid); }
    }
  }

  /** What is mined does not depend on the order a haystack is read in. */
  lemma PreparationIsReproducible(q: Source, shuffled: seq<Turn>, classes: set<Class>)
    requires Indexed(q.turns) && Indexed(shuffled) && multiset(q.turns) == multiset(shuffled)
    ensures Prepare(q, classes) == Prepare(q.(turns := shuffled), classes)
  {
    var p := q.(turns := shuffled);
    SameGolds(q.turns, shuffled);
    hide GoldsOf, WalkOf, Indexed;
    forall c ensures WalkOf(q, c) == WalkOf(p, c) {
      SameWalk(q, p, c);
    }
  }

  lemma SameGolds(s: seq<Turn>, t: seq<Turn>)
    requires Indexed(s) && Indexed(t) && multiset(s) == multiset(t)
    ensures GoldsOf(s) == GoldsOf(t)
  {
    FilterPermutes(s, t, (t: Turn) => t.gold);
    GoldsAreStrict(s);
    GoldsAreStrict(t);
    hide Indexed, GoldLeq;
    ChainUnique(GoldsOf(s), GoldsOf(t), (a: Turn, b: Turn) => GoldBefore(a, b));
  }

  lemma SameWalk(q: Source, p: Source, c: Class)
    requires DistinctIds(q.turns) && DistinctIds(p.turns) && multiset(q.turns) == multiset(p.turns)
    requires p == q.(turns := p.turns)
    ensures WalkOf(q, c) == WalkOf(p, c)
  {
    match c
    case DeployedTopK =>
      if q.deployed.Some? { RecordedIgnoresOrder(q.turns, p.turns, DeployedTop(q.deployed.value)); }
    case CrossSession =>
      SameFiltered(q.turns, p.turns, (t: Turn) => Outside(q.goldSessions, t));
    case QuestionEcho =>
      SameFiltered(q.turns, p.turns, (t: Turn) => !Blank(t.text));
  }

  lemma SameFiltered(s: seq<Turn>, t: seq<Turn>, keep: Turn -> bool)
    requires DistinctIds(s) && DistinctIds(t) && multiset(s) == multiset(t)
    ensures Walk(Filter(s, keep)) == Walk(Filter(t, keep))
  {
    FilterDistinct(s, keep);
    FilterDistinct(t, keep);
    FilterPermutes(s, t, keep);
    WalkIsReproducible(Filter(s, keep), Filter(t, keep));
  }

  // ---- what each class can yield -------------------------------------------------------------------------

  lemma {:induction false} RecordedMembers(turns: seq<Turn>, tids: seq<string>, t: Turn)
    requires DistinctIds(turns)
    ensures t in Recorded(turns, tids) <==> t in turns && t.id != [] && t.id in tids
  {
    if tids == [] {
    } else {
      LookupMeans(turns, tids[0]);
      RecordedMembers(turns, tids[1..], t);
      assert tids == [tids[0]] + tids[1..];
    }
  }

  function Ids(turns: seq<Turn>): (r: seq<string>)
    ensures |r| == |turns| && forall i :: 0 <= i < |r| ==> r[i] == turns[i].id
  {
    seq(|turns|, i requires 0 <= i < |turns| => turns[i].id)
  }

  ghost predicate Known(turns: seq<Turn>, tid: string) {
    tid != [] && exists t :: t in turns && t.id == tid
  }

  /** The deployed walk keeps the deployed order, less the candidates that are no turn of the haystack. */
  lemma {:induction false} RecordedInOrder(turns: seq<Turn>, tids: seq<string>)
    ensures Ids(Recorded(turns, tids)) == Filter(tids, (tid: string) => Known(turns, tid))
  {
    if tids == [] {
    } else {
      LookupMeans(turns, tids[0]);
      RecordedInOrder(turns, tids[1..]);
      var head := match Lookup(turns, tids[0]) case Some(t) => [t] case None => [];
      assert Ids(head + Recorded(turns, tids[1..])) == Ids(head) + Ids(Recorded(turns, tids[1..]));
    }
  }

  /** Which turns of the haystack a class draws on: the first ten of the deployed order, turns outside the gold
      sessions, or any; the last two only if something other than white space is said. */
  ghost predicate Draws(q: Source, c: Class, t: Turn) {
    match c
    case DeployedTopK => t.id != [] && q.deployed.Some? && InFirstTen(q.deployed.value, t.id)
    case CrossSession => t.sid !in q.goldSessions && Says(t.text)
    case QuestionEcho => Says(t.text)
  }

  ghost predicate InFirstTen(tids: seq<string>, tid: string) {
    exists k :: 0 <= k < |tids| && k < 10 && tids[k] == tid
  }

  ghost predicate Says(text: string) {
    exists c :: c in text && c as int !in {9, 10, 11, 12, 13, 28, 29, 30, 31, 32}
  }

  /** The walk of a class holds exactly the turns it draws on. */
  lemma WalkMembers(q: Source, c: Class, t: Turn)
    requires DistinctIds(q.turns) && WalkOf(q, c).Some?
    ensures t in WalkOf(q, c).value <==> t in q.turns && Draws(q, c, t)
  {
    BlankMeans(t.text);
    match c
    case DeployedTopK => RecordedMembers(q.turns, DeployedTop(q.deployed.value), t);
    case CrossSession => FilteredMembers(q.turns, (t: Turn) => Outside(q.goldSessions, t), t);
    case QuestionEcho => FilteredMembers(q.turns, (t: Turn) => !Blank(t.text), t);
  }

  lemma FilteredMembers(turns: seq<Turn>, keep: Turn -> bool, t: Turn)
    ensures t in Walk(Filter(turns, keep)) <==> t in turns && keep(t)
  {
    FilterMembers(turns, keep);
    SameMembers(Walk(Filter(turns, keep)), Filter(turns, keep));
  }

  /** Every class has a walk, but for the deployed one where there is no pool; and only mined classes do. */
  lemma WalksPrepared(q: Source, classes: set<Class>, c: Class)
    ensures var inst := Prepare(q, classes);
            && (c in inst.walks <==> c in classes && (c == DeployedTopK ==> q.deployed != None))
            && (c in inst.walks ==> WalkOf(q, c) == Some(inst.walks[c]))
            && inst.qid == q.qid && inst.question == q.question && inst.goldSessions == q.goldSessions
  {
  }

  /** The pair joins a gold turn of the query's own haystack to a turn of it that the pair's class draws on and
      that is not gold, does not state the answer and is not held out. */
  ghost predicate Made(q: Source, classes: set<Class>, held: set<string>, p: Pair, gold: Turn, neg: Turn) {
    && gold in q.turns && gold.gold && neg in q.turns && !neg.gold
    && neg.how.NoMatch? && neg.sid !in held
    && p.cls in classes && Draws(q, p.cls, neg)
    && Joins(p, q.qid, q.question, gold, neg)
  }

  /** Every pair mined from a haystack joins a gold turn of it to a non-gold turn of it that does not
      state the answer and that the pair's class may draw on. */
  lemma PairsComeFromTheHaystack(q: Source, classes: set<Class>, fit: set<string>, held: set<string>, p: Pair)
    requires Indexed(q.turns)
    requires var inst := Prepare(q, classes);
             TakesPart(inst, fit, held) && p in QueryPairs(inst, held, |inst.golds|)
    ensures exists gold, neg :: Made(q, classes, held, p, gold, neg)
  {
    var inst := Prepare(q, classes);
    QueryPairsClean(inst, fit, held, |inst.golds|, p);
    var g, neg :| Clean(inst, fit, held, p, g, neg);
    GoldsAreStrict(q.turns);
    assert inst.golds[g] in inst.golds;
    WalkMembers(q, p.cls, neg);
    assert Made(q, classes, held, p, inst.golds[g], neg);
  }

  /** When gold turns lie in the released gold sessions, a cross-session pair really crosses sessions. */
  lemma CrossSessionPairsCross(q: Source, classes: set<Class>, fit: set<string>, held: set<string>, p: Pair)
    requires Indexed(q.turns) && p.cls.CrossSession?
    requires forall t :: t in q.turns && t.gold ==> t.sid in q.goldSessions
    requires var inst := Prepare(q, classes);
             TakesPart(inst, fit, held) && p in QueryPairs(inst, held, |inst.golds|)
    ensures p.turnGap == None && p.conversation in q.goldSessions
  {
    PairsComeFromTheHaystack(q, classes, fit, held, p);
    var gold, neg :| Made(q, classes, held, p, gold, neg);
  }
}
