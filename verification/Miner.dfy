/** The loops of `mine`: instances, gold turns, classes and candidates, with the counters the
    manifest reports, and the fold every pair is given at the end. */
module Miner {
  import opened Options
  import opened Selection
  import opened FoldSplit

  datatype Class = DeployedTopK | CrossSession | QuestionEcho

  const CLASSES: seq<Class> := [DeployedTopK, CrossSession, QuestionEcho]

  const DEPLOYED_TOP_K_DEPTH := 10
  const CROSS_SESSION_CAP := 4
  const CROSS_SESSION_MAX_PER_SESSION := 1
  const QUESTION_ECHO_CAP := 4

  function CapOf(c: Class): nat {
    match c
    case DeployedTopK => DEPLOYED_TOP_K_DEPTH
    case CrossSession => CROSS_SESSION_CAP
    case QuestionEcho => QUESTION_ECHO_CAP
  }

  function SessionCapOf(c: Class): Option<nat> {
    if c.CrossSession? then Some(CROSS_SESSION_MAX_PER_SESSION) else None
  }

  /** One training pair. */
  datatype Pair = Pair(qid: string, conversation: string, question: string,
                       positive: string, positiveRole: string,
                       negative: string, negativeRole: string,
                       cls: Class, turnGap: Option<int>)

  /** One corpus instance: its gold sessions as released, its gold turns in order, and the ranked
      walk of every class that is being mined and has one. */
  datatype Instance = Instance(qid: string, question: string, goldSessions: set<string>,
                               golds: seq<Turn>, walks: map<Class, seq<Turn>>)

  // ---- the pairs, without the loops --------------------------------------------------------------------

  function PairOf(inst: Instance, gold: Turn, c: Class, neg: Turn): Pair {
    Pair(inst.qid, gold.sid, inst.question, gold.text, gold.role, neg.text, neg.role, c,
         if neg.sid == gold.sid then Some(neg.idx - gold.idx) else None)
  }

  function PairsOf(inst: Instance, gold: Turn, c: Class, negs: seq<Turn>): (r: seq<Pair>)
    ensures |r| == |negs| && forall i :: 0 <= i < |r| ==> r[i] == PairOf(inst, gold, c, negs[i])
  {
    seq(|negs|, i requires 0 <= i < |negs| => PairOf(inst, gold, c, negs[i]))
  }

  function ClassPairs(inst: Instance, gold: Turn, c: Class, held: set<string>): seq<Pair> {
    if c in inst.walks then PairsOf(inst, gold, c, Chosen(inst.walks[c], held, SessionCapOf(c), CapOf(c))) else []
  }

  /** The pairs of one gold turn, for the first k classes. */
  function GoldPairs(inst: Instance, gold: Turn, held: set<string>, k: nat): seq<Pair>
    requires k <= |CLASSES|
  {
    if k == 0 then [] else GoldPairs(inst, gold, held, k - 1) + ClassPairs(inst, gold, CLASSES[k - 1], held)
  }

  /** The pairs of one query, for its first n gold turns. */
  function QueryPairs(inst: Instance, held: set<string>, n: nat): seq<Pair>
    requires n <= |inst.golds|
  {
    if n == 0 then [] else
    QueryPairs(inst, held, n - 1) + GoldPairs(inst, inst.golds[n - 1], held, |CLASSES|)
  }

  /** An instance takes part when it is a fit query whose gold sessions avoid every held-out haystack. */
  predicate TakesPart(inst: Instance, fit: set<string>, held: set<string>) {
    inst.qid in fit && inst.goldSessions * held == {}
  }

  function AllPairs(insts: seq<Instance>, fit: set<string>, held: set<string>, n: nat): seq<Pair>
    requires n <= |insts|
  {
    if n == 0 then [] else
    var inst := insts[n - 1];
    AllPairs(insts, fit, held, n - 1)
      + if TakesPart(inst, fit, held) then QueryPairs(inst, held, |inst.golds|) else []
  }

  function GoldSids(golds: seq<Turn>): (r: seq<string>)
    ensures |r| == |golds| && forall i :: 0 <= i < |r| ==> r[i] == golds[i].sid
  {
    seq(|golds|, i requires 0 <= i < |golds| => golds[i].sid)
  }

  /** `query_to_sessions`: every participating query, with or without a gold turn. */
  function Entries(insts: seq<Instance>, fit: set<string>, held: set<string>, n: nat): seq<Entry>
    requires n <= |insts|
  {
    if n == 0 then [] else
    var inst := insts[n - 1];
    Entries(insts, fit, held, n - 1)
      + if TakesPart(inst, fit, held) then [Entry(inst.qid, GoldSids(inst.golds))] else []
  }

  // ---- counting ------------------------------------------------------------------------------------------

  type Counter = map<Class, nat>

  /** A `Counter` reads zero for a key it has not seen. */
  function Get<K>(m: map<K, nat>, k: K): nat {
    if k in m then m[k] else 0
  }

  function Bump<K>(m: map<K, nat>, k: K): map<K, nat> {
    m[k := Get(m, k) + 1]
  }

  lemma BumpGet<K>(m: map<K, nat>, k: K)
    ensures forall j :: Get(Bump(m, k), j) == Get(m, j) + if j == k then 1 else 0
  {
  }

  /** A counter after n more events of class c; no key is created for none. */
  function Tallied(m: Counter, c: Class, n: nat): Counter {
    if n == 0 then m else m[c := Get(m, c) + n]
  }

  lemma TalliedBump(m: Counter, c: Class, n: nat)
    ensures Bump(Tallied(m, c, n), c) == Tallied(m, c, n + 1)
    ensures Tallied(m, c, n + 0) == Tallied(m, c, n)
  {
  }

  lemma NothingCounted(inst: Instance, gold: Turn, c: Class, m: Counter)
    ensures Tallied(m, c, 0) == m && PairsOf(inst, gold, c, []) == []
    ensures forall s: string :: Get(map[], s) == 0
  {
  }

  lemma PairsOfSnoc(inst: Instance, gold: Turn, c: Class, negs: seq<Turn>, neg: Turn)
    ensures PairsOf(inst, gold, c, negs + [neg]) == PairsOf(inst, gold, c, negs) + [PairOf(inst, gold, c, neg)]
    ensures negs + [] == negs
  {
  }

  function CountClass(pairs: seq<Pair>, c: Class): nat {
    if pairs == [] then 0
    else CountClass(pairs[..|pairs| - 1], c) + if pairs[|pairs| - 1].cls == c then 1 else 0
  }

  function CountSame(pairs: seq<Pair>, c: Class): nat {
    if pairs == [] then 0
    else CountSame(pairs[..|pairs| - 1], c)
         + if pairs[|pairs| - 1].cls == c && pairs[|pairs| - 1].turnGap.Some? then 1 else 0
  }

  lemma CountSnoc(pairs: seq<Pair>, p: Pair, c: Class)
    ensures CountClass(pairs + [p], c) == CountClass(pairs, c) + if p.cls == c then 1 else 0
    ensures CountSame(pairs + [p], c) == CountSame(pairs, c) + if p.cls == c && p.turnGap.Some? then 1 else 0
  {
    assert (pairs + [p])[..|pairs|] == pairs;
  }

  // ---- the ledger ------------------------------------------------------------------------------------------

  class Ledger {
    var pairs: seq<Pair>
    var classCounts: Counter
    var sameSession: Counter
    var goldSkips: Counter
    var answerDrops: Counter
    var leakDrops: Counter

    /** Class counts add up to the pairs emitted. */
    ghost predicate Balanced()
      reads this`pairs, this`classCounts, this`sameSession
    {
      forall c :: Get(classCounts, c) == CountClass(pairs, c) && Get(sameSession, c) == CountSame(pairs, c)
    }

    constructor ()
      ensures Balanced() && pairs == []
      ensures goldSkips == answerDrops == leakDrops == map[]
    {
      pairs, classCounts, sameSession := [], map[], map[];
      goldSkips, answerDrops, leakDrops := map[], map[], map[];
    }

    /** Emit one pair. */
    method Emit(inst: Instance, gold: Turn, c: Class, neg: Turn)
      requires Balanced()
      modifies this`pairs, this`classCounts, this`sameSession
      ensures Balanced()
      ensures pairs == old(pairs) + [PairOf(inst, gold, c, neg)]
    {
      var p := PairOf(inst, gold, c, neg);
      forall d { CountSnoc(pairs, p, d); }
      pairs := pairs + [p];
      classCounts := Bump(classCounts, c);
      if neg.sid == gold.sid {
        sameSession := Bump(sameSession, c);
      }
    }

    /** The candidate loop for one (query, gold turn, class). */
    method Select(inst: Instance, gold: Turn, c: Class, walk: seq<Turn>, held: set<string>)
      requires Balanced()
      modifies this
      ensures Balanced()
      ensures pairs == old(pairs) + PairsOf(inst, gold, c, Chosen(walk, held, SessionCapOf(c), CapOf(c)))
      ensures var n := Visited(walk, held, SessionCapOf(c), CapOf(c), 0);
              && n <= |walk|
              && goldSkips == Tallied(old(goldSkips), c, Tally(walk, held, SessionCapOf(c), Gold, n))
              && answerDrops == Tallied(old(answerDrops), c, Tally(walk, held, SessionCapOf(c), States, n))
              && leakDrops == Tallied(old(leakDrops), c, Tally(walk, held, SessionCapOf(c), Leaks, n))
    {
      hide Balanced, PairsOf, PairOf, Chosen, Bump, Tallied, Get, KeptOf, Tally, Visited, Drawn, Limited, FateOf, CapOf, SessionCapOf;
      NoTurns(walk, held, SessionCapOf(c));
      NothingCounted(inst, gold, c, goldSkips);
      NothingCounted(inst, gold, c, answerDrops);
      NothingCounted(inst, gold, c, leakDrops);
      var cap, lim := CapOf(c), SessionCapOf(c);
      var taken, bySession: map<string, nat> := 0, map[];
      var k := 0;
      while k < |walk| && taken < cap
        invariant 0 <= k <= |walk| && Balanced()
        invariant taken == |KeptOf(walk, held, lim, k)| <= cap
        invariant pairs == old(pairs) + PairsOf(inst, gold, c, KeptOf(walk, held, lim, k))
        invariant forall s :: Get(bySession, s) == Limited(Drawn(walk, held, k, s), lim)
        invariant Visited(walk, held, lim, cap, 0) == Visited(walk, held, lim, cap, k)
        invariant goldSkips == Tallied(old(goldSkips), c, Tally(walk, held, lim, Gold, k))
        invariant answerDrops == Tallied(old(answerDrops), c, Tally(walk, held, lim, States, k))
        invariant leakDrops == Tallied(old(leakDrops), c, Tally(walk, held, lim, Leaks, k))
      {
        OneTurn(walk, held, lim, cap, k);
        PairsOfSnoc(inst, gold, c, KeptOf(walk, held, lim, k), walk[k]);
        TalliedBump(old(goldSkips), c, Tally(walk, held, lim, Gold, k));
        TalliedBump(old(answerDrops), c, Tally(walk, held, lim, States, k));
        TalliedBump(old(leakDrops), c, Tally(walk, held, lim, Leaks, k));
        var cand := walk[k];
        assert Get(bySession, cand.sid) == Limited(Drawn(walk, held, k, cand.sid), lim);
        k := k + 1;
        if cand.gold {
          goldSkips := Bump(goldSkips, c);
          continue;
        }
        if !cand.how.NoMatch? {
          answerDrops := Bump(answerDrops, c);
          continue;
        }
        if cand.sid in held {
          leakDrops := Bump(leakDrops, c);
          continue;
        }
        if lim.Some? && Get(bySession, cand.sid) >= lim.value {
          continue;
        }
        BumpGet(bySession, cand.sid);
        bySession := Bump(bySession, cand.sid);
        taken := taken + 1;
        Emit(inst, gold, c, cand);
      }
      StoppingEarly(walk, held, lim, cap, k);
      VisitedEnds(walk, held, lim, cap, k);
    }

    /** One turn of the class loop: a class that has a walk is selected from. */
    method MineClass(inst: Instance, gold: Turn, c: Class, held: set<string>)
      requires Balanced()
      modifies this
      ensures Balanced()
      ensures pairs == old(pairs) + ClassPairs(inst, gold, c, held)
    {
      hide Balanced, ClassPairs;
      ClassPairsMean(inst, gold, c, held);
      if c in inst.walks {
        Select(inst, gold, c, inst.walks[c], held);
      }
    }

    /** The gold-turn and class loops of one query. */
    method MineQuery(inst: Instance, held: set<string>)
      requires Balanced()
      modifies this
      ensures Balanced()
      ensures pairs == old(pairs) + QueryPairs(inst, held, |inst.golds|)
    {
      hide Balanced, ClassPairs;
      for n := 0 to |inst.golds|
        invariant Balanced()
        invariant pairs == old(pairs) + QueryPairs(inst, held, n)
      {
        var gold := inst.golds[n];
        ghost var before := pairs;
        for k := 0 to |CLASSES|
          invariant Balanced()
          invariant pairs == before + GoldPairs(inst, gold, held, k)
        {
          MineClass(inst, gold, CLASSES[k], held);
        }
      }
    }

    /** The instance loop; `entries` is the `query_to_sessions` dictionary it fills. */
    method Mine(insts: seq<Instance>, fit: set<string>, held: set<string>) returns (entries: seq<Entry>)
      requires Balanced() && pairs == []
      modifies this
      ensures Balanced()
      ensures pairs == AllPairs(insts, fit, held, |insts|)
      ensures entries == Entries(insts, fit, held, |insts|)
    {
      hide Balanced, QueryPairs;
      entries := [];
      for n := 0 to |insts|
        invariant Balanced()
        invariant pairs == AllPairs(insts, fit, held, n)
        invariant entries == Entries(insts, fit, held, n)
      {
        var inst := insts[n];
        if inst.qid !in fit {
          continue;
        }
        if inst.goldSessions * held != {} {
          continue;
        }
        entries := entries + [Entry(inst.qid, GoldSids(inst.golds))];
        NoGoldsNoPairs(inst, held);
        if inst.golds == [] {
          continue;
        }
        MineQuery(inst, held);
      }
    }
  }

  lemma ClassPairsMean(inst: Instance, gold: Turn, c: Class, held: set<string>)
    ensures c in inst.walks ==>
              ClassPairs(inst, gold, c, held) == PairsOf(inst, gold, c, Chosen(inst.walks[c], held, SessionCapOf(c), CapOf(c)))
    ensures c !in inst.walks ==> ClassPairs(inst, gold, c, held) == []
  {
  }

  lemma NoGoldsNoPairs(inst: Instance, held: set<string>)
    ensures inst.golds == [] ==> QueryPairs(inst, held, |inst.golds|) == []
  {
  }

  // ---- where pairs come from -----------------------------------------------------------------------------

  /** The pair's own fields: the gold turn is the positive and names the conversation, the other turn is the
      negative, and there is a gap exactly when they share a session: how far the negative comes after. */
  ghost predicate Joins(p: Pair, qid: string, question: string, gold: Turn, neg: Turn) {
    && p.qid == qid && p.question == question && p.conversation == gold.sid
    && p.positive == gold.text && p.positiveRole == gold.role
    && p.negative == neg.text && p.negativeRole == neg.role
    && (p.turnGap.Some? <==> neg.sid == gold.sid)
    && (p.turnGap.Some? ==> p.turnGap.value == neg.idx - gold.idx)
  }

  /** What a training pair may be made of: a participating query, one of its gold turns, and a turn
      of the class's walk that is not gold, does not state the answer and is not held out. */
  ghost predicate Clean(inst: Instance, fit: set<string>, held: set<string>, p: Pair, g: int, neg: Turn) {
    && TakesPart(inst, fit, held)
    && 0 <= g < |inst.golds|
    && p.cls in inst.walks && neg in inst.walks[p.cls]
    && !neg.gold && neg.how == NoMatch && neg.sid !in held
    && Joins(p, inst.qid, inst.question, inst.golds[g], neg)
  }

  ghost predicate HasSource(insts: seq<Instance>, fit: set<string>, held: set<string>, n: nat, p: Pair)
    requires n <= |insts|
  {
    exists i, g, neg :: 0 <= i < n && Clean(insts[i], fit, held, p, g, neg)
  }

  lemma {:induction false} GoldPairsClean(inst: Instance, fit: set<string>, held: set<string>, g: nat, k: nat, p: Pair)
    requires TakesPart(inst, fit, held) && g < |inst.golds| && k <= |CLASSES|
    requires p in GoldPairs(inst, inst.golds[g], held, k)
    ensures exists neg :: Clean(inst, fit, held, p, g, neg)
  {
    var c := CLASSES[k - 1];
    if p in ClassPairs(inst, inst.golds[g], c, held) {
      var negs := Chosen(inst.walks[c], held, SessionCapOf(c), CapOf(c));
      var i :| 0 <= i < |negs| && p == PairOf(inst, inst.golds[g], c, negs[i]);
      ChosenProperties(inst.walks[c], held, SessionCapOf(c), CapOf(c), "");
      assert negs[i] in negs;
      assert Clean(inst, fit, held, p, g, negs[i]);
    } else {
      GoldPairsClean(inst, fit, held, g, k - 1, p);
    }
  }

  lemma {:induction false} QueryPairsClean(inst: Instance, fit: set<string>, held: set<string>, n: nat, p: Pair)
    requires TakesPart(inst, fit, held) && n <= |inst.golds|
    requires p in QueryPairs(inst, held, n)
    ensures exists g, neg :: Clean(inst, fit, held, p, g, neg)
  {
    hide Clean, GoldPairs;
    if p in QueryPairs(inst, held, n - 1) {
      QueryPairsClean(inst, fit, held, n - 1, p);
    } else {
      GoldPairsClean(inst, fit, held, n - 1, |CLASSES|, p);
    }
  }

  /** Every pair emitted is clean. */
  lemma {:induction false} PairsAreClean(insts: seq<Instance>, fit: set<string>, held: set<string>, n: nat, p: Pair)
    requires n <= |insts| && p in AllPairs(insts, fit, held, n)
    ensures HasSource(insts, fit, held, n, p)
  {
    hide Clean, QueryPairs;
    if p in AllPairs(insts, fit, held, n - 1) {
      PairsAreClean(insts, fit, held, n - 1, p);
      var i, g, neg :| 0 <= i < n - 1 && Clean(insts[i], fit, held, p, g, neg);
      assert Clean(insts[i], fit, held, p, g, neg);
    } else {
      var inst := insts[n - 1];
      QueryPairsClean(inst, fit, held, |inst.golds|, p);
      var g, neg :| Clean(inst, fit, held, p, g, neg);
      assert Clean(insts[n - 1], fit, held, p, g, neg);
    }
  }

  ghost predicate Enters(inst: Instance, fit: set<string>, held: set<string>, q: string) {
    inst.qid == q && inst.qid in fit && inst.goldSessions * held == {}
  }

  ghost predicate GoldIn(inst: Instance, sid: string) {
    exists g :: 0 <= g < |inst.golds| && inst.golds[g].sid == sid
  }

  /** The split is over exactly the participating queries, and each owns exactly the sessions of its gold turns. */
  lemma {:induction false} EntriesMean(insts: seq<Instance>, fit: set<string>, held: set<string>, n: nat, q: string, sid: string)
    requires n <= |insts|
    ensures q in Queries(Entries(insts, fit, held, n)) <==> exists i :: 0 <= i < n && Enters(insts[i], fit, held, q)
    ensures (q, sid) in Owns(Entries(insts, fit, held, n))
       <==> exists i :: 0 <= i < n && Enters(insts[i], fit, held, q) && GoldIn(insts[i], sid)
  {
    var all := Entries(insts, fit, held, n);
    if n == 0 {
    } else {
      var before, inst := Entries(insts, fit, held, n - 1), insts[n - 1];
      EntriesMean(insts, fit, held, n - 1, q, sid);
      var last := Entry(inst.qid, GoldSids(inst.golds));
      SessionsMean(inst, sid);
      OwnsLast(before, inst.qid, GoldSids(inst.golds), (q, sid));
      QueriesOneMore(before + [last], |before|);
      assert (before + [last])[..|before|] == before && (before + [last])[..|before| + 1] == before + [last];
      hide Owns, Queries, GoldIn;
      if TakesPart(inst, fit, held) {
        assert all == before + [last];
        if Enters(inst, fit, held, q) { assert 0 <= n - 1 < n && Enters(insts[n - 1], fit, held, q); }
      } else {
        assert all == before;
      }
    }
  }

  lemma SessionsMean(inst: Instance, sid: string)
    ensures sid in GoldSids(inst.golds) <==> GoldIn(inst, sid)
  {
    if sid in GoldSids(inst.golds) {
      var g :| 0 <= g < |inst.golds| && GoldSids(inst.golds)[g] == sid;
      assert inst.golds[g].sid == sid;
    }
    if g :| 0 <= g < |inst.golds| && inst.golds[g].sid == sid {
      assert GoldSids(inst.golds)[g] == sid;
    }
  }

  /** And nothing chosen is left out: every class's choice for every gold turn of a participating query is a
      pair, of that class. */
  lemma {:induction false} ChoicesAreMined(insts: seq<Instance>, fit: set<string>, held: set<string>, n: nat, i: nat,
                                           g: nat, c: Class, neg: Turn)
    requires i < n <= |insts| && TakesPart(insts[i], fit, held) && g < |insts[i].golds| && c in insts[i].walks
    requires neg in Chosen(insts[i].walks[c], held, SessionCapOf(c), CapOf(c))
    ensures exists p :: p in AllPairs(insts, fit, held, n) && p.cls == c
                        && Joins(p, insts[i].qid, insts[i].question, insts[i].golds[g], neg)
  {
    hide QueryPairs;
    var inst := insts[i];
    if i < n - 1 {
      ChoicesAreMined(insts, fit, held, n - 1, i, g, c, neg);
      var p :| p in AllPairs(insts, fit, held, n - 1) && p.cls == c && Joins(p, inst.qid, inst.question, inst.golds[g], neg);
      assert p in AllPairs(insts, fit, held, n);
    } else {
      var p := PairOf(inst, inst.golds[g], c, neg);
      PairOfJoins(inst, inst.golds[g], c, neg);
      ChoiceInClass(inst, inst.golds[g], c, held, neg);
      assert CLASSES[..3] == [DeployedTopK, CrossSession, QuestionEcho] && c in CLASSES[..3];
      ClassInGold(inst, inst.golds[g], held, |CLASSES|, c, p);
      GoldInQuery(inst, held, |inst.golds|, g, p);
      assert p in AllPairs(insts, fit, held, n);
    }
  }

  lemma PairOfJoins(inst: Instance, gold: Turn, c: Class, neg: Turn)
    ensures Joins(PairOf(inst, gold, c, neg), inst.qid, inst.question, gold, neg) && PairOf(inst, gold, c, neg).cls == c
  {
  }

  lemma ChoiceInClass(inst: Instance, gold: Turn, c: Class, held: set<string>, neg: Turn)
    requires c in inst.walks && neg in Chosen(inst.walks[c], held, SessionCapOf(c), CapOf(c))
    ensures PairOf(inst, gold, c, neg) in ClassPairs(inst, gold, c, held)
  {
    var negs := Chosen(inst.walks[c], held, SessionCapOf(c), CapOf(c));
    var k :| 0 <= k < |negs| && negs[k] == neg;
    assert ClassPairs(inst, gold, c, held)[k] == PairOf(inst, gold, c, neg);
  }

  lemma {:induction false} ClassInGold(inst: Instance, gold: Turn, held: set<string>, k: nat, c: Class, p: Pair)
    requires k <= |CLASSES| && c in CLASSES[..k] && p in ClassPairs(inst, gold, c, held)
    ensures p in GoldPairs(inst, gold, held, k)
  {
    hide ClassPairs;
    if c != CLASSES[k - 1] {
      assert CLASSES[..k] == CLASSES[..k - 1] + [CLASSES[k - 1]];
      ClassInGold(inst, gold, held, k - 1, c, p);
    }
  }

  lemma {:induction false} GoldInQuery(inst: Instance, held: set<string>, n: nat, g: nat, p: Pair)
    requires g < n <= |inst.golds| && p in GoldPairs(inst, inst.golds[g], held, |CLASSES|)
    ensures p in QueryPairs(inst, held, n)
  {
    hide GoldPairs;
    if g < n - 1 {
      GoldInQuery(inst, held, n - 1, g, p);
    }
  }

  /** The caps, in numbers: at most ten of the deployed order; at most four across sessions, no two from one;
      at most four by echo. Fewer than that, and every session gave all it could. */
  lemma ClassLimits(walk: seq<Turn>, held: set<string>, c: Class, sid: string)
    ensures var chosen := Chosen(walk, held, SessionCapOf(c), CapOf(c));
            && |chosen| <= (if c == DeployedTopK then 10 else 4)
            && (c == CrossSession ==> FromSession(chosen, sid) <= 1)
            && (|chosen| < (if c == DeployedTopK then 10 else 4) ==>
                 FromSession(chosen, sid)
                 == if c == CrossSession && Drawn(walk, held, |walk|, sid) > 1 then 1 else Drawn(walk, held, |walk|, sid))
  {
    ChosenProperties(walk, held, SessionCapOf(c), CapOf(c), sid);
    hide Chosen, FromSession, Drawn;
  }

  /** The conversation of a pair is a gold session its query owns in the fold split. */
  lemma {:induction false} PairsAreOwned(insts: seq<Instance>, fit: set<string>, held: set<string>, n: nat, i: nat, p: Pair,
                                         g: int, neg: Turn)
    requires i < n <= |insts| && Clean(insts[i], fit, held, p, g, neg)
    ensures (p.qid, p.conversation) in Owns(Entries(insts, fit, held, n))
    ensures p.qid in Queries(Entries(insts, fit, held, n))
  {
    if i == n - 1 {
      var e := Entry(insts[i].qid, GoldSids(insts[i].golds));
      var all := Entries(insts, fit, held, n);
      assert all[|all| - 1] == e;
      assert e in all && e.sessions[g] in e.sessions;
    } else {
      PairsAreOwned(insts, fit, held, n - 1, i, p, g, neg);
      var before, all := Entries(insts, fit, held, n - 1), Entries(insts, fit, held, n);
      var e :| e in before && e.qid == p.qid && p.conversation in e.sessions;
      assert e in all;
    }
  }

  // ---- folds -----------------------------------------------------------------------------------------------

  datatype Fold = Train | Val

  type FoldCounter = map<(Class, Fold), nat>

  function SideOf(p: Pair, val: set<string>): Fold {
    if p.qid in val then Val else Train
  }

  /** Every pair on the side of its query. */
  ghost predicate OnTheirSides(pairs: seq<Pair>, folds: seq<Fold>, val: set<string>) {
    |folds| == |pairs| && forall i :: 0 <= i < |pairs| ==> (folds[i] == Val <==> pairs[i].qid in val)
  }

  /** Pairs of class c that ended up in the given fold. */
  function CountFold(pairs: seq<Pair>, folds: seq<Fold>, c: Class, fold: Fold): nat
    requires |folds| == |pairs|
  {
    if pairs == [] then 0
    else
      var n := |pairs| - 1;
      CountFold(pairs[..n], folds[..n], c, fold) + if pairs[n].cls == c && folds[n] == fold then 1 else 0
  }

  ghost predicate CountsFolds(counts: FoldCounter, pairs: seq<Pair>, folds: seq<Fold>)
    requires |folds| == |pairs|
  {
    forall c, fold :: Get(counts, (c, fold)) == CountFold(pairs, folds, c, fold)
  }

  lemma CountFoldSnoc(counts: FoldCounter, pairs: seq<Pair>, folds: seq<Fold>, p: Pair, fold: Fold)
    requires |folds| == |pairs| && CountsFolds(counts, pairs, folds)
    ensures CountsFolds(Bump(counts, (p.cls, fold)), pairs + [p], folds + [fold])
  {
    BumpGet(counts, (p.cls, fold));
    assert (pairs + [p])[..|pairs|] == pairs && (folds + [fold])[..|folds|] == folds;
  }

  /** The two folds of a class make up its pairs. */
  lemma {:induction false} FoldsMakeUpClasses(pairs: seq<Pair>, folds: seq<Fold>, c: Class)
    requires |folds| == |pairs|
    ensures CountFold(pairs, folds, c, Train) + CountFold(pairs, folds, c, Val) == CountClass(pairs, c)
  {
    if pairs == [] {
    } else {
      var n := |pairs| - 1;
      FoldsMakeUpClasses(pairs[..n], folds[..n], c);
      CountSnoc(pairs[..n], pairs[n], c);
      assert pairs == pairs[..n] + [pairs[n]];
    }
  }

  /** The two labelling loops: each pair goes to the side of its query, and the counts are those of the folds. */
  method AssignFolds(pairs: seq<Pair>, val: set<string>) returns (folds: seq<Fold>, counts: FoldCounter)
    ensures OnTheirSides(pairs, folds, val)
    ensures CountsFolds(counts, pairs, folds)
  {
    folds := [];
    for i := 0 to |pairs|
      invariant OnTheirSides(pairs[..i], folds, val)
    {
      folds := folds + [SideOf(pairs[i], val)];
    }
    assert pairs[..|pairs|] == pairs;
    counts := map[];
    for i := 0 to |pairs|
      invariant CountsFolds(counts, pairs[..i], folds[..i])
    {
      hide CountsFolds;
      CountFoldSnoc(counts, pairs[..i], folds[..i], pairs[i], folds[i]);
      assert pairs[..i + 1] == pairs[..i] + [pairs[i]] && folds[..i + 1] == folds[..i] + [folds[i]];
      counts := Bump(counts, (pairs[i].cls, folds[i]));
    }
    assert folds[..|folds|] == folds;
  }

  /** One conversation, one fold. */
  ghost predicate SplitByConversation(pairs: seq<Pair>, folds: seq<Fold>) {
    && |folds| == |pairs|
    && forall i, j :: 0 <= i < |pairs| && 0 <= j < |pairs| && pairs[i].conversation == pairs[j].conversation
                      ==> folds[i] == folds[j]
  }

  /** The queries the split holds out. */
  ghost function HeldOutQueries(insts: seq<Instance>, fit: set<string>, held: set<string>): set<string> {
    var entries := Entries(insts, fit, held, |insts|);
    Validation(Queries(entries), Owns(entries))
  }

  lemma FoldsFollowConversations(insts: seq<Instance>, fit: set<string>, held: set<string>, val: set<string>, p: Pair, q: Pair)
    requires p in AllPairs(insts, fit, held, |insts|) && q in AllPairs(insts, fit, held, |insts|)
    requires p.conversation == q.conversation
    requires val == HeldOutQueries(insts, fit, held)
    ensures p.qid in val <==> q.qid in val
  {
    var n, entries := |insts|, Entries(insts, fit, held, |insts|);
    PairsAreClean(insts, fit, held, n, p);
    PairsAreClean(insts, fit, held, n, q);
    var i, g, neg :| 0 <= i < n && Clean(insts[i], fit, held, p, g, neg);
    var i', g', neg' :| 0 <= i' < n && Clean(insts[i'], fit, held, q, g', neg');
    PairsAreOwned(insts, fit, held, n, i, p, g, neg);
    PairsAreOwned(insts, fit, held, n, i', q, g', neg');
    NoSessionOnBothSides(Queries(entries), Owns(entries), p.qid, q.qid, p.conversation);
  }

  ghost predicate OneInstancePerQuery(insts: seq<Instance>) {
    forall i, j :: 0 <= i < j < |insts| ==> insts[i].qid != insts[j].qid
  }

  /** Mining, splitting and labelling: every pair is on its query's side of the split, no conversation
      supplies positives to both folds, and the fold counts are those of the labels. */
  method MineAndSplit(insts: seq<Instance>, fit: set<string>, held: set<string>)
    returns (pairs: seq<Pair>, folds: seq<Fold>, counts: FoldCounter)
    requires OneInstancePerQuery(insts)
    ensures pairs == AllPairs(insts, fit, held, |insts|)
    ensures OnTheirSides(pairs, folds, HeldOutQueries(insts, fit, held))
    ensures SplitByConversation(pairs, folds)
    ensures CountsFolds(counts, pairs, folds)
  {
    var ledger := new Ledger();
    var entries := ledger.Mine(insts, fit, held);
    pairs := ledger.pairs;
    var train, val, nGroups := FoldAssignment(entries);
    folds, counts := AssignFolds(pairs, val);
    hide Validation, Queries, Owns, Entries, AllPairs, CountsFolds;
    forall i, j | 0 <= i < |pairs| && 0 <= j < |pairs| && pairs[i].conversation == pairs[j].conversation
      ensures folds[i] == folds[j]
    {
      FoldsFollowConversations(insts, fit, held, val, pairs[i], pairs[j]);
    }
  }
}
