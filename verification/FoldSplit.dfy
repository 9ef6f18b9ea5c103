/** `fold_assignment`: queries that share a gold session, directly or through a chain of other
    queries, are kept on one side of the train/validation boundary. */
module FoldSplit {
  import opened Sorting
  import opened Text
  import opened UnionFind

  /** One item of the `query_to_sessions` dictionary, in insertion order. */
  datatype Entry = Entry(qid: string, sessions: seq<string>)

  /** Which query owns which gold session. */
  type Ownership = set<(string, string)>

  function Queries(entries: seq<Entry>): set<string> {
    set e | e in entries :: e.qid
  }

  function Owns(entries: seq<Entry>): Ownership {
    set e, s | e in entries && s in e.sessions :: (e.qid, s)
  }

  // ---- what the split is meant to be, without any forest ------------------------------------------

  ghost predicate ShareSession(owns: Ownership, p: string, q: string) {
    exists s :: (p, s) in owns && (q, s) in owns
  }

  ghost predicate IsChain(owns: Ownership, chain: seq<string>, p: string, q: string) {
    && chain != [] && chain[0] == p && chain[|chain| - 1] == q
    && forall i :: 0 <= i < |chain| - 1 ==> ShareSession(owns, chain[i], chain[i + 1])
  }

  /** A chain of shared gold sessions links the two queries. */
  ghost predicate Tied(owns: Ownership, p: string, q: string) {
    exists chain :: IsChain(owns, chain, p, q)
  }

  ghost function Group(queries: set<string>, owns: Ownership, q: string): set<string> {
    set p | p in queries && Tied(owns, q, p)
  }

  ghost function Leader(queries: set<string>, owns: Ownership, q: string): string
    requires q in queries
  {
    TiedEquivalence(owns, q, q, q);
    assert q in Group(queries, owns, q);
    Least(Group(queries, owns, q))
  }

  /** The queries whose groups come before the group named `leader`. */
  ghost function Earlier(queries: set<string>, owns: Ownership, leader: string): set<string> {
    set p | p in queries && Less(Leader(queries, owns, p), leader)
  }

  /** A query is held out exactly when the groups before its own hold under a fifth of all queries. */
  ghost function Validation(queries: set<string>, owns: Ownership): set<string> {
    set q | q in queries && 5 * |Earlier(queries, owns, Leader(queries, owns, q))| < |queries|
  }

  ghost function Leaders(queries: set<string>, owns: Ownership): set<string> {
    set q | q in queries :: Leader(queries, owns, q)
  }

  // ---- chains and forest paths -------------------------------------------------------------------------

  ghost function Links(owns: Ownership): Edges {
    set o | o in owns :: (Query(o.0), Session(o.1))
  }

  lemma LinksMean(owns: Ownership, x: Node, y: Node)
    ensures (x, y) in Links(owns) <==> x.Query? && y.Session? && (x.id, y.id) in owns
  {
    if x.Query? && y.Session? && (x.id, y.id) in owns {
      var o := (x.id, y.id);
      assert o in owns && (Query(o.0), Session(o.1)) == (x, y);
    }
  }

  lemma {:induction false} ChainIsPath(owns: Ownership, chain: seq<string>, p: string, q: string)
    requires IsChain(owns, chain, p, q)
    ensures Connected(Links(owns), Query(p), Query(q))
  {
    if |chain| == 1 {
      ConnectedReflexive(Links(owns), Query(p));
    } else {
      assert ShareSession(owns, chain[0], chain[1]);
      var s :| (chain[0], s) in owns && (chain[1], s) in owns;
      LinksMean(owns, Query(p), Session(s));
      LinksMean(owns, Query(chain[1]), Session(s));
      ConnectedEdge(Links(owns), Query(p), Session(s));
      ConnectedEdge(Links(owns), Session(s), Query(chain[1]));
      ConnectedTransitive(Links(owns), Query(p), Session(s), Query(chain[1]));
      assert IsChain(owns, chain[1..], chain[1], q);
      ChainIsPath(owns, chain[1..], chain[1], q);
      ConnectedTransitive(Links(owns), Query(p), Query(chain[1]), Query(q));
    }
  }

  /** A path that starts at a query stays on queries tied to it and on sessions they own. */
  lemma {:induction false} PathIsChain(owns: Ownership, path: seq<Node>, p: string, y: Node)
    requires IsPath(Links(owns), path, Query(p), y)
    ensures y.Query? ==> Tied(owns, p, y.id)
    ensures y.Session? ==> exists z :: Tied(owns, p, z) && (z, y.id) in owns
  {
    var n := |path|;
    if n == 1 {
      assert IsChain(owns, [p], p, p);
    } else {
      var x := path[n - 2];
      assert IsPath(Links(owns), path[..n - 1], Query(p), x);
      PathIsChain(owns, path[..n - 1], p, x);
      assert Adjacent(Links(owns), path[n - 2], path[n - 2 + 1]);
      LinksMean(owns, x, y);
      LinksMean(owns, y, x);
      if y.Query? {
        var z :| Tied(owns, p, z) && (z, x.id) in owns;
        assert ShareSession(owns, z, y.id);
        var chain :| IsChain(owns, chain, p, z);
        assert IsChain(owns, chain + [y.id], p, y.id);
      } else {
        assert Tied(owns, p, x.id) && (x.id, y.id) in owns;
      }
    }
  }

  lemma TiedIsConnected(owns: Ownership, p: string, q: string)
    ensures Tied(owns, p, q) <==> Connected(Links(owns), Query(p), Query(q))
  {
    if Tied(owns, p, q) {
      var chain :| IsChain(owns, chain, p, q);
      ChainIsPath(owns, chain, p, q);
    }
    if Connected(Links(owns), Query(p), Query(q)) {
      var path :| IsPath(Links(owns), path, Query(p), Query(q));
      PathIsChain(owns, path, p, Query(q));
    }
  }

  lemma TiedEquivalence(owns: Ownership, p: string, q: string, r: string)
    ensures Tied(owns, p, p)
    ensures Tied(owns, p, q) ==> Tied(owns, q, p)
    ensures Tied(owns, p, q) && Tied(owns, q, r) ==> Tied(owns, p, r)
  {
    TiedIsConnected(owns, p, p);
    TiedIsConnected(owns, p, q);
    TiedIsConnected(owns, q, p);
    TiedIsConnected(owns, q, r);
    TiedIsConnected(owns, p, r);
    ConnectedReflexive(Links(owns), Query(p));
    if Tied(owns, p, q) {
      ConnectedSymmetric(Links(owns), Query(p), Query(q));
      if Tied(owns, q, r) { ConnectedTransitive(Links(owns), Query(p), Query(q), Query(r)); }
    }
  }

  /** Leaders name groups. */
  lemma SameLeader(queries: set<string>, owns: Ownership, p: string, q: string)
    requires p in queries && q in queries
    ensures Leader(queries, owns, p) == Leader(queries, owns, q) <==> Tied(owns, p, q)
    ensures Tied(owns, p, q) ==> Group(queries, owns, p) == Group(queries, owns, q)
    ensures Leader(queries, owns, p) in queries
  {
    if Tied(owns, p, q) {
      forall x | x in queries ensures Tied(owns, p, x) <==> Tied(owns, q, x) {
        TiedEquivalence(owns, p, q, x);
        TiedEquivalence(owns, q, p, x);
      }
      assert Group(queries, owns, p) == Group(queries, owns, q);
    }
    var l := Leader(queries, owns, p);
    assert l in Group(queries, owns, p);
    if l == Leader(queries, owns, q) {
      assert l in Group(queries, owns, q);
      TiedEquivalence(owns, q, l, p);
      TiedEquivalence(owns, p, l, q);
      TiedEquivalence(owns, q, l, q);
    }
  }

  // ---- the promises of the split -----------------------------------------------------------------------

  /** No gold session is owned on both sides of the boundary. */
  lemma NoSessionOnBothSides(queries: set<string>, owns: Ownership, p: string, q: string, s: string)
    requires (p, s) in owns && (q, s) in owns && p in queries && q in queries
    ensures p in Validation(queries, owns) <==> q in Validation(queries, owns)
  {
    assert ShareSession(owns, p, q);
    assert IsChain(owns, [p, q], p, q);
    SameLeader(queries, owns, p, q);
  }

  ghost predicate Leads(queries: set<string>, owns: Ownership, from: set<string>, q: string)
    requires from <= queries
  {
    q in from && forall p :: p in from ==> Leq(Leader(queries, owns, q), Leader(queries, owns, p))
  }

  lemma {:induction false} FirstExists(queries: set<string>, owns: Ownership, from: set<string>) returns (q: string)
    requires from <= queries && from != {}
    ensures Leads(queries, owns, from, q)
  {
    var names := set p | p in from :: Leader(queries, owns, p);
    var x :| x in from;
    assert Leader(queries, owns, x) in names;
    LeastExists(names);
    var m :| IsLeast(m, names);
    q :| q in from && Leader(queries, owns, q) == m;
  }

  lemma {:induction false} LastExists(queries: set<string>, owns: Ownership, from: set<string>) returns (q: string)
    requires from <= queries && from != {}
    ensures q in from && forall p :: p in from ==> Leq(Leader(queries, owns, p), Leader(queries, owns, q))
    decreases |from|
  {
    var x :| x in from;
    q := x;
    LeqTotal(Leader(queries, owns, x), Leader(queries, owns, x));
    if from != {x} {
      var y := LastExists(queries, owns, from - {x});
      LeqTotal(Leader(queries, owns, x), Leader(queries, owns, y));
      if Leq(Leader(queries, owns, x), Leader(queries, owns, y)) {
        q := y;
      } else {
        forall p | p in from ensures Leq(Leader(queries, owns, p), Leader(queries, owns, x)) {
          if p != x { LeqTransitive(Leader(queries, owns, p), Leader(queries, owns, y), Leader(queries, owns, x)); }
        }
      }
    }
  }

  /** At least a fifth of the queries are held out. */
  lemma ValidationIsLargeEnough(queries: set<string>, owns: Ownership)
    ensures 5 * |Validation(queries, owns)| >= |queries|
  {
    var val := Validation(queries, owns);
    if 5 * |val| < |queries| {
      assert val <= queries;
      assert queries == val + (queries - val);
      var q := FirstExists(queries, owns, queries - val);
      var before := Earlier(queries, owns, Leader(queries, owns, q));
      forall p | p in before ensures p in val {
        if p !in val { LeqAntisymmetric(Leader(queries, owns, p), Leader(queries, owns, q)); }
      }
      SubsetSize(before, val);
    }
  }

  /** The held-out share overshoots a fifth by less than one group. */
  lemma ValidationOvershootsByOneGroup(queries: set<string>, owns: Ownership) returns (q: string)
    requires queries != {}
    ensures q in queries
    ensures 5 * |Validation(queries, owns)| < |queries| + 5 * |Group(queries, owns, q)|
  {
    var val := Validation(queries, owns);
    ValidationIsLargeEnough(queries, owns);
    SubsetSize({}, queries);
    assert |queries| > 0;
    q := LastExists(queries, owns, val);
    var before, group := Earlier(queries, owns, Leader(queries, owns, q)), Group(queries, owns, q);
    forall p | p in val ensures p in before + group {
      if Leader(queries, owns, p) == Leader(queries, owns, q) {
        SameLeader(queries, owns, p, q);
        TiedEquivalence(owns, p, q, p);
      }
    }
    SubsetSize(val, before + group);
    assert |before + group| <= |before| + |group|;
  }

  lemma OwnsMeans(entries: seq<Entry>, q: string, sid: string)
    ensures (q, sid) in Owns(entries) <==> exists e :: e in entries && e.qid == q && sid in e.sessions
    ensures q in Queries(entries) <==> exists e :: e in entries && e.qid == q
  {
  }

  /** How many queries come before q. */
  ghost function LowerIds(queries: set<string>, q: string): set<string> {
    set p | p in queries && Less(p, q)
  }

  /** With no session shared, a query is held out exactly when fewer than a fifth of the queries have a lower id. */
  lemma LoneQueriesByRank(queries: set<string>, owns: Ownership, q: string)
    requires forall p, r, s :: (p, s) in owns && (r, s) in owns ==> p == r
    requires q in queries
    ensures q in Validation(queries, owns) <==> 5 * |LowerIds(queries, q)| < |queries|
  {
    forall p | p in queries ensures Leader(queries, owns, p) == p {
      LoneGroup(queries, owns, p);
    }
    assert Earlier(queries, owns, q) == LowerIds(queries, q);
  }

  /** So the queries held out are the least ones, a fifth of them rounded up. */
  lemma LoneQueriesHeldOut(queries: set<string>, owns: Ownership)
    requires forall p, r, s :: (p, s) in owns && (r, s) in owns ==> p == r
    ensures Validation(queries, owns) <= queries && |Validation(queries, owns)| == (|queries| + 4) / 5
    ensures forall v, t :: v in Validation(queries, owns) && t in queries - Validation(queries, owns) ==> Less(v, t)
  {
    var val := Validation(queries, owns);
    if queries != {} {
      ValidationIsLargeEnough(queries, owns);
      var q := ValidationOvershootsByOneGroup(queries, owns);
      LoneGroup(queries, owns, q);
    } else {
      assert val == {};
    }
    hide Validation;
    forall v, t | v in val && t in queries - val ensures Less(v, t) {
      LoneQueriesByRank(queries, owns, v);
      LoneQueriesByRank(queries, owns, t);
      LeqTotal(v, t);
      if Less(t, v) {
        forall p | p in LowerIds(queries, t) ensures p in LowerIds(queries, v) {
          LeqTransitive(p, t, v);
          if p == v { LeqAntisymmetric(t, v); }
        }
        SubsetSize(LowerIds(queries, t), LowerIds(queries, v));
      }
    }
  }

  lemma LoneGroup(queries: set<string>, owns: Ownership, q: string)
    requires forall p, r, s :: (p, s) in owns && (r, s) in owns ==> p == r
    requires q in queries
    ensures Group(queries, owns, q) == {q} && Leader(queries, owns, q) == q
  {
    forall p | p in Group(queries, owns, q) ensures p == q {
      var chain :| IsChain(owns, chain, q, p);
      LoneChain(owns, chain, q, p);
    }
    TiedEquivalence(owns, q, q, q);
    assert q in Group(queries, owns, q);
    LeastIsUnique({q}, Leader(queries, owns, q), q);
    LeqTotal(q, q);
  }

  lemma {:induction false} LoneChain(owns: Ownership, chain: seq<string>, p: string, q: string)
    requires forall p, r, s :: (p, s) in owns && (r, s) in owns ==> p == r
    requires IsChain(owns, chain, p, q)
    ensures p == q
    decreases |chain|
  {
    if |chain| == 1 {
    } else {
      assert ShareSession(owns, chain[0], chain[1]);
      LoneChain(owns, chain[1..], chain[1], q);
    }
  }

  /** Neither the order of the dictionary nor the order of a query's sessions matters. */
  lemma OrderDoesNotMatter(a: seq<Entry>, b: seq<Entry>)
    requires forall e :: e in a ==> exists f :: f in b && f.qid == e.qid && (forall s :: s in e.sessions <==> s in f.sessions)
    requires forall f :: f in b ==> exists e :: e in a && f.qid == e.qid && (forall s :: s in f.sessions <==> s in e.sessions)
    ensures Queries(a) == Queries(b) && Owns(a) == Owns(b)
    ensures Validation(Queries(a), Owns(a)) == Validation(Queries(b), Owns(b))
  {
    Covered(a, b);
    Covered(b, a);
  }

  lemma Covered(a: seq<Entry>, b: seq<Entry>)
    requires forall e :: e in a ==> exists f :: f in b && f.qid == e.qid && (forall s :: s in e.sessions <==> s in f.sessions)
    ensures Queries(a) <= Queries(b) && Owns(a) <= Owns(b)
  {
    forall o | o in Owns(a) ensures o in Owns(b) {
      var e :| e in a && e.qid == o.0 && o.1 in e.sessions;
      var f :| f in b && f.qid == e.qid && (forall s :: s in e.sessions <==> s in f.sessions);
      assert (f.qid, o.1) in Owns(b);
    }
    forall q | q in Queries(a) ensures q in Queries(b) {
      var e :| e in a && e.qid == q;
      var f :| f in b && f.qid == e.qid && (forall s :: s in e.sessions <==> s in f.sessions);
    }
  }

  // ---- the algorithm ---------------------------------------------------------------------------------------

  /** After the union loop: classes of the forest are the components of the links. */
  method BuildForest(entries: seq<Entry>) returns (uf: Forest)
    ensures fresh(uf) && uf.Valid()
    ensures Represents(uf.rep, Links(Owns(entries)))
    ensures forall q :: q in Queries(entries) ==> Query(q) in uf.rep
  {
    hide Represents, Links, Owns, Queries, Sound;
    uf := new Forest();
    NothingLinked();
    for i := 0 to |entries|
      invariant fresh(uf) && uf.Valid()
      invariant Represents(uf.rep, Links(Owns(entries[..i])))
      invariant forall q :: q in Queries(entries[..i]) ==> Query(q) in uf.rep
    {
      var qid, sessions := entries[i].qid, entries[i].sessions;
      SeenRepresents(uf.rep, Links(Owns(entries[..i])), Query(qid));
      var _ := uf.Find(Query(qid));
      ghost var owns := Owns(entries[..i]);
      OwnsNoneYet(entries[..i], qid);
      for k := 0 to |sessions|
        invariant fresh(uf) && uf.Valid()
        invariant Represents(uf.rep, Links(owns))
        invariant owns == Owns(entries[..i] + [Entry(qid, sessions[..k])])
        invariant Query(qid) in uf.rep
        invariant forall q :: q in Queries(entries[..i]) ==> Query(q) in uf.rep
      {
        UnionStep(uf.rep, owns, qid, sessions[k]);
        uf.Union(Query(qid), Session(sessions[k]));
        OwnsOneMore(entries[..i], qid, sessions, k);
        owns := owns + {(qid, sessions[k])};
      }
      assert sessions[..|sessions|] == sessions && Entry(qid, sessions) == entries[i];
      assert entries[..i + 1] == entries[..i] + [entries[i]];
      QueriesOneMore(entries, i);
    }
    assert entries[..|entries|] == entries;
  }

  lemma NothingLinked()
    ensures Represents(map[], Links(Owns([]))) && Queries([]) == {}
  {
    assert Owns([]) == {};
  }

  lemma UnionStep(rep: Reps, owns: Ownership, qid: string, sid: string)
    requires Represents(rep, Links(owns))
    ensures var seen := Seen(Seen(rep, Query(qid)), Session(sid));
            Represents(Joined(seen, Query(qid), Session(sid)), Links(owns + {(qid, sid)}))
  {
    hide Represents;
    SeenRepresents(rep, Links(owns), Query(qid));
    SeenRepresents(Seen(rep, Query(qid)), Links(owns), Session(sid));
    JoinedRepresents(Seen(Seen(rep, Query(qid)), Session(sid)), Links(owns), Query(qid), Session(sid));
    OneMoreLink(owns, qid, sid);
  }

  lemma OneMoreLink(owns: Ownership, qid: string, sid: string)
    ensures Links(owns + {(qid, sid)}) == Links(owns) + {(Query(qid), Session(sid))}
  {
    forall x, y ensures (x, y) in Links(owns + {(qid, sid)}) <==> (x, y) in Links(owns) + {(Query(qid), Session(sid))} {
      LinksMean(owns, x, y);
      LinksMean(owns + {(qid, sid)}, x, y);
    }
  }

  lemma OwnsOneMore(before: seq<Entry>, qid: string, sessions: seq<string>, k: nat)
    requires k < |sessions|
    ensures Owns(before + [Entry(qid, sessions[..k + 1])]) == Owns(before + [Entry(qid, sessions[..k])]) + {(qid, sessions[k])}
  {
    forall o ensures o in Owns(before + [Entry(qid, sessions[..k + 1])])
                <==> o in Owns(before + [Entry(qid, sessions[..k])]) + {(qid, sessions[k])} {
      OwnsLast(before, qid, sessions[..k + 1], o);
      OwnsLast(before, qid, sessions[..k], o);
      assert sessions[..k + 1] == sessions[..k] + [sessions[k]];
    }
  }

  lemma OwnsNoneYet(before: seq<Entry>, qid: string)
    ensures Owns(before + [Entry(qid, [])]) == Owns(before)
  {
    forall o ensures o in Owns(before + [Entry(qid, [])]) <==> o in Owns(before) {
      OwnsLast(before, qid, [], o);
    }
  }

  lemma OwnsLast(before: seq<Entry>, qid: string, sessions: seq<string>, o: (string, string))
    ensures o in Owns(before + [Entry(qid, sessions)]) <==> o in Owns(before) || (o.0 == qid && o.1 in sessions)
  {
    var entries := before + [Entry(qid, sessions)];
    if o.0 == qid && o.1 in sessions { assert entries[|before|] in entries; }
  }

  lemma QueriesOneMore(entries: seq<Entry>, i: nat)
    requires i < |entries|
    ensures Queries(entries[..i + 1]) == Queries(entries[..i]) + {entries[i].qid}
  {
    assert entries[..i + 1] == entries[..i] + [entries[i]];
  }

  /** A group with its sort key, `min(group)`. */
  datatype Keyed = Keyed(leader: string, group: set<string>)

  ghost predicate IsGroup(queries: set<string>, owns: Ownership, g: Keyed) {
    && g.leader in g.group
    && forall q :: q in g.group <==> q in queries && Leader(queries, owns, q) == g.leader
  }

  /** Every group once. */
  ghost predicate Listing(queries: set<string>, owns: Ownership, groups: seq<Keyed>) {
    && (forall i :: 0 <= i < |groups| ==> IsGroup(queries, owns, groups[i]))
    && (forall i, j :: 0 <= i < j < |groups| ==> groups[i].leader != groups[j].leader)
    && (forall q :: q in queries ==> exists i :: 0 <= i < |groups| && q in groups[i].group)
  }

  /** The grouping loop's dictionary, and the keys in insertion order. */
  ghost predicate Grouped(rep: Reps, queries: set<string>, roots: seq<Node>, groups: map<Node, set<string>>) {
    && (forall r :: r in groups <==> r in roots)
    && Distinct(roots)
    && (forall q :: q in queries ==> Query(q) in rep && rep[Query(q)] in groups)
    && (forall r, q :: r in groups ==> (q in groups[r] <==> q in queries && Query(q) in rep && rep[Query(q)] == r))
    && (forall r :: r in groups ==> groups[r] != {})
  }

  lemma GroupedStep(rep: Reps, queries: set<string>, roots: seq<Node>, groups: map<Node, set<string>>, q: string)
    requires Grouped(rep, queries, roots, groups) && Query(q) in rep
    ensures var r := rep[Query(q)];
            if r in groups then Grouped(rep, queries + {q}, roots, groups[r := groups[r] + {q}])
            else Grouped(rep, queries + {q}, roots + [r], groups[r := {q}])
  {
    var r := rep[Query(q)];
    if r !in groups {
      var roots' := roots + [r];
      assert roots'[|roots|] == r;
      assert forall x :: x in roots' <==> x in roots || x == r;
    }
  }

  method GroupByRoot(uf: Forest, entries: seq<Entry>) returns (roots: seq<Node>, groups: map<Node, set<string>>)
    requires uf.Valid() && forall q :: q in Queries(entries) ==> Query(q) in uf.rep
    modifies uf
    ensures uf.Valid() && uf.rep == old(uf.rep)
    ensures Grouped(uf.rep, Queries(entries), roots, groups)
  {
    roots, groups := [], map[];
    for i := 0 to |entries|
      invariant uf.Valid() && uf.rep == old(uf.rep)
      invariant Grouped(uf.rep, Queries(entries[..i]), roots, groups)
    {
      hide Grouped, Sound;
      var qid := entries[i].qid;
      assert entries[i] in entries && qid in Queries(entries);
      QueriesOneMore(entries, i);
      hide Queries;
      GroupedStep(uf.rep, Queries(entries[..i]), roots, groups, qid);
      var r := uf.Find(Query(qid));
      if r in groups {
        groups := groups[r := groups[r] + {qid}];
      } else {
        roots := roots + [r];
        groups := groups[r := {qid}];
      }
    }
    assert entries[..|entries|] == entries;
  }

  /** The class of a root is the group of each of its queries. */
  lemma ClassIsGroup(rep: Reps, queries: set<string>, owns: Ownership, roots: seq<Node>,
                     groups: map<Node, set<string>>, r: Node, leader: string)
    requires Represents(rep, Links(owns)) && Grouped(rep, queries, roots, groups) && r in groups
    requires IsLeast(leader, groups[r])
    ensures IsGroup(queries, owns, Keyed(leader, groups[r]))
  {
    var q :| q in groups[r];
    forall p | p in queries ensures p in groups[r] <==> Tied(owns, q, p) {
      TiedIsConnected(owns, q, p);
    }
    assert Group(queries, owns, q) == groups[r];
    LeastIsUnique(groups[r], leader, Leader(queries, owns, q));
    forall p | p in queries ensures p in groups[r] <==> Leader(queries, owns, p) == leader {
      SameLeader(queries, owns, q, p);
    }
  }

  lemma RootsListGroups(rep: Reps, queries: set<string>, owns: Ownership, roots: seq<Node>,
                        groups: map<Node, set<string>>, keyed: seq<Keyed>)
    requires Represents(rep, Links(owns)) && Grouped(rep, queries, roots, groups)
    requires |keyed| == |roots|
    requires forall i :: 0 <= i < |roots| ==> roots[i] in groups && keyed[i].group == groups[roots[i]]
                                              && IsLeast(keyed[i].leader, keyed[i].group)
    ensures Listing(queries, owns, keyed)
  {
    forall i | 0 <= i < |keyed| ensures IsGroup(queries, owns, keyed[i]) {
      ClassIsGroup(rep, queries, owns, roots, groups, roots[i], keyed[i].leader);
    }
    forall i, j | 0 <= i < j < |keyed| ensures keyed[i].leader != keyed[j].leader {
      assert keyed[i].leader in groups[roots[i]] && keyed[j].leader in groups[roots[j]];
    }
    forall q | q in queries ensures exists i :: 0 <= i < |keyed| && q in keyed[i].group {
      assert rep[Query(q)] in roots;
      var i :| 0 <= i < |roots| && roots[i] == rep[Query(q)];
      assert q in keyed[i].group;
    }
  }

  ghost predicate Ascending(groups: seq<Keyed>) {
    forall i, j :: 0 <= i < j < |groups| ==> Less(groups[i].leader, groups[j].leader)
  }

  lemma LeaderOrder()
    ensures TotalPreorder((a: Keyed, b: Keyed) => Leq(a.leader, b.leader))
  {
    forall a: Keyed, b: Keyed ensures Leq(a.leader, b.leader) || Leq(b.leader, a.leader) {
      LeqTotal(a.leader, b.leader);
    }
    forall a: Keyed, b: Keyed, c: Keyed | Leq(a.leader, b.leader) && Leq(b.leader, c.leader)
      ensures Leq(a.leader, c.leader)
    {
      LeqTransitive(a.leader, b.leader, c.leader);
    }
  }

  /** Sorting by key keeps the listing and puts leaders in strictly ascending order. */
  lemma SortedListing(queries: set<string>, owns: Ownership, keyed: seq<Keyed>, ordered: seq<Keyed>)
    requires Listing(queries, owns, keyed)
    requires ordered == SortBy(keyed, (a: Keyed, b: Keyed) => Leq(a.leader, b.leader))
    ensures Listing(queries, owns, ordered) && Ascending(ordered)
  {
    var le := (a: Keyed, b: Keyed) => Leq(a.leader, b.leader);
    LeaderOrder();
    var apart := (a: Keyed, b: Keyed) => a.leader != b.leader;
    SortRefines(keyed, le, apart);
    SameMembers(ordered, keyed);
    forall i, j | 0 <= i < j < |ordered| ensures Less(ordered[i].leader, ordered[j].leader) {
      assert Refine(le, apart)(ordered[i], ordered[j]);
      LeqTotal(ordered[i].leader, ordered[i].leader);
    }
    forall i | 0 <= i < |ordered| ensures IsGroup(queries, owns, ordered[i]) {
      assert ordered[i] in keyed;
    }
    forall q | q in queries ensures exists i :: 0 <= i < |ordered| && q in ordered[i].group {
      var k :| 0 <= k < |keyed| && q in keyed[k].group;
      assert keyed[k] in ordered;
    }
  }

  // ---- the greedy fill -----------------------------------------------------------------------------------

  /** The queries of the groups whose leader is below everything from position i on. */
  ghost function Prefix(queries: set<string>, owns: Ownership, ordered: seq<Keyed>, i: nat): set<string>
    requires i <= |ordered|
  {
    if i == |ordered| then queries else Earlier(queries, owns, ordered[i].leader)
  }

  lemma PrefixStep(queries: set<string>, owns: Ownership, ordered: seq<Keyed>, i: nat)
    requires Listing(queries, owns, ordered) && Ascending(ordered) && i < |ordered|
    ensures Prefix(queries, owns, ordered, i + 1) == Prefix(queries, owns, ordered, i) + ordered[i].group
    ensures Prefix(queries, owns, ordered, i) * ordered[i].group == {}
    ensures Prefix(queries, owns, ordered, 0) == {}
    ensures |Prefix(queries, owns, ordered, i + 1)| == |Prefix(queries, owns, ordered, i)| + |ordered[i].group|
  {
    forall q ensures q in Prefix(queries, owns, ordered, i + 1) <==> q in Prefix(queries, owns, ordered, i) + ordered[i].group {
      if q in queries { PrefixMember(queries, owns, ordered, i, q); }
    }
    forall q ensures q !in Prefix(queries, owns, ordered, 0) {
      if q in queries { PrefixMember(queries, owns, ordered, 0, q); }
    }
    assert IsGroup(queries, owns, ordered[i]);
  }

  lemma PrefixMember(queries: set<string>, owns: Ownership, ordered: seq<Keyed>, i: nat, q: string)
    requires Listing(queries, owns, ordered) && Ascending(ordered) && i < |ordered| && q in queries
    ensures exists k :: 0 <= k < |ordered| && Leader(queries, owns, q) == ordered[k].leader
                        && (q in Prefix(queries, owns, ordered, i) <==> k < i)
                        && (q in Prefix(queries, owns, ordered, i + 1) <==> k <= i)
                        && (q in ordered[i].group <==> k == i)
  {
    var k :| 0 <= k < |ordered| && q in ordered[k].group;
    assert IsGroup(queries, owns, ordered[k]) && IsGroup(queries, owns, ordered[i]);
    assert k < i ==> Less(ordered[k].leader, ordered[i].leader);
    if k > i { Below(ordered[i].leader, ordered[k].leader); }
    if k > i + 1 { Below(ordered[i + 1].leader, ordered[k].leader); }
    if k < i + 1 && i + 1 < |ordered| { assert Less(ordered[k].leader, ordered[i + 1].leader); }
    assert q in Prefix(queries, owns, ordered, i) <==> k < i;
    assert q in Prefix(queries, owns, ordered, i + 1) <==> k <= i;
  }

  lemma Below(a: string, b: string)
    requires Less(a, b)
    ensures !Less(b, a)
  {
    if Leq(b, a) { LeqAntisymmetric(a, b); }
  }

  lemma StoppedMember(queries: set<string>, owns: Ownership, ordered: seq<Keyed>, i: nat, q: string)
    requires Listing(queries, owns, ordered) && Ascending(ordered) && i <= |ordered| && q in queries
    requires forall j :: 0 <= j < i ==> 5 * |Prefix(queries, owns, ordered, j)| < |queries|
    requires i < |ordered| ==> 5 * |Prefix(queries, owns, ordered, i)| >= |queries|
    ensures q in Prefix(queries, owns, ordered, i) <==> q in Validation(queries, owns)
  {
    var k :| 0 <= k < |ordered| && q in ordered[k].group;
    assert IsGroup(queries, owns, ordered[k]);
    assert Earlier(queries, owns, Leader(queries, owns, q)) == Prefix(queries, owns, ordered, k);
    hide Leader, Earlier;
    if i < |ordered| { PrefixMember(queries, owns, ordered, i, q); }
    if i <= k { PrefixGrows(queries, owns, ordered, i, k); }
    assert k < i ==> 5 * |Prefix(queries, owns, ordered, k)| < |queries|;
    hide Listing, Ascending, IsGroup;
  }

  /** Where the greedy loop stopped decides membership. */
  lemma StoppedAt(queries: set<string>, owns: Ownership, ordered: seq<Keyed>, i: nat)
    requires Listing(queries, owns, ordered) && Ascending(ordered) && i <= |ordered|
    requires forall j :: 0 <= j < i ==> 5 * |Prefix(queries, owns, ordered, j)| < |queries|
    requires i < |ordered| ==> 5 * |Prefix(queries, owns, ordered, i)| >= |queries|
    ensures Prefix(queries, owns, ordered, i) == Validation(queries, owns)
  {
    forall q | q in queries ensures q in Prefix(queries, owns, ordered, i) <==> q in Validation(queries, owns) {
      StoppedMember(queries, owns, ordered, i, q);
    }
    hide Leader, Listing, Ascending;
  }

  lemma {:induction false} PrefixGrows(queries: set<string>, owns: Ownership, ordered: seq<Keyed>, i: nat, k: nat)
    requires Listing(queries, owns, ordered) && Ascending(ordered) && i <= k <= |ordered|
    ensures |Prefix(queries, owns, ordered, i)| <= |Prefix(queries, owns, ordered, k)|
    decreases k - i
  {
    if i < k {
      PrefixStep(queries, owns, ordered, i);
      PrefixGrows(queries, owns, ordered, i + 1, k);
    }
  }

  lemma NoGroupsNoQueries(queries: set<string>, owns: Ownership, ordered: seq<Keyed>)
    requires Listing(queries, owns, ordered) && Ascending(ordered)
    ensures Prefix(queries, owns, ordered, 0) == {} && Prefix(queries, owns, ordered, |ordered|) == queries
  {
    if ordered == [] {
      assert forall q :: q !in queries;
    } else {
      PrefixStep(queries, owns, ordered, 0);
    }
  }

  lemma ListingCountsLeaders(queries: set<string>, owns: Ownership, groups: seq<Keyed>)
    requires Listing(queries, owns, groups)
    ensures |groups| == |Leaders(queries, owns)|
  {
    var names := seq(|groups|, i requires 0 <= i < |groups| => groups[i].leader);
    SetOfDistinct(names);
    var named := set l | l in names;
    forall l ensures l in named <==> l in Leaders(queries, owns) {
      if l in named {
        var i :| 0 <= i < |names| && names[i] == l;
        assert IsGroup(queries, owns, groups[i]) && l in groups[i].group;
      }
      if l in Leaders(queries, owns) {
        var q :| q in queries && Leader(queries, owns, q) == l;
        var i :| 0 <= i < |groups| && q in groups[i].group;
        assert IsGroup(queries, owns, groups[i]) && names[i] == l;
      }
    }
    assert named == Leaders(queries, owns);
  }

  /** `sorted(groups.values(), key=lambda g: min(g))`. */
  method OrderGroups(roots: seq<Node>, groups: map<Node, set<string>>, ghost rep: Reps,
                     ghost queries: set<string>, ghost owns: Ownership) returns (ordered: seq<Keyed>)
    requires Represents(rep, Links(owns)) && Grouped(rep, queries, roots, groups)
    ensures Listing(queries, owns, ordered) && Ascending(ordered)
  {
    var keyed: seq<Keyed> := [];
    for i := 0 to |roots|
      invariant |keyed| == i
      invariant forall k :: 0 <= k < i ==> roots[k] in groups && keyed[k].group == groups[roots[k]]
                                           && IsLeast(keyed[k].leader, keyed[k].group)
    {
      assert roots[i] in roots;
      var leader := LeastOf(groups[roots[i]]);
      keyed := keyed + [Keyed(leader, groups[roots[i]])];
    }
    hide Listing, Ascending;
    RootsListGroups(rep, queries, owns, roots, groups, keyed);
    ordered := SortBy(keyed, (a: Keyed, b: Keyed) => Leq(a.leader, b.leader));
    SortedListing(queries, owns, keyed, ordered);
  }

  /** `VAL_FRACTION` is 0.2: the comparison `len(val) >= VAL_FRACTION * total`, kept in integers. */
  predicate Enough(held: nat, total: nat) {
    5 * held >= total
  }

  /** `sum(len(g) for g in ordered)` and the union of the groups. */
  method Everyone(ordered: seq<Keyed>, ghost queries: set<string>, ghost owns: Ownership)
    returns (total: nat, all: set<string>)
    requires Listing(queries, owns, ordered) && Ascending(ordered)
    ensures all == queries && total == |queries|
  {
    hide Listing, Ascending, Prefix;
    NoGroupsNoQueries(queries, owns, ordered);
    total, all := 0, {};
    for i := 0 to |ordered|
      invariant all == Prefix(queries, owns, ordered, i) && total == |all|
    {
      PrefixStep(queries, owns, ordered, i);
      total := total + |ordered[i].group|;
      all := all + ordered[i].group;
    }
  }

  /** Below the mark at every earlier position. */
  ghost predicate Wanting(queries: set<string>, owns: Ownership, ordered: seq<Keyed>, i: nat)
    requires i <= |ordered|
  {
    forall j :: 0 <= j < i ==> 5 * |Prefix(queries, owns, ordered, j)| < |queries|
  }

  method Fill(ordered: seq<Keyed>, ghost queries: set<string>, ghost owns: Ownership)
    returns (train: set<string>, val: set<string>)
    requires Listing(queries, owns, ordered) && Ascending(ordered)
    ensures val == Validation(queries, owns) && train == queries - val
  {
    hide Listing, Ascending, Validation, Prefix;
    var total, all := Everyone(ordered, queries, owns);
    NoGroupsNoQueries(queries, owns, ordered);
    val := {};
    var i := 0;
    while i < |ordered| && !Enough(|val|, total)
      invariant 0 <= i <= |ordered|
      invariant val == Prefix(queries, owns, ordered, i)
      invariant Wanting(queries, owns, ordered, i)
    {
      PrefixStep(queries, owns, ordered, i);
      val := val + ordered[i].group;
      i := i + 1;
    }
    StoppedAt(queries, owns, ordered, i);
    train := all - val;
  }

  /** The split depends on which queries there are and who owns what, and on nothing else. */
  method FoldAssignment(entries: seq<Entry>) returns (train: set<string>, val: set<string>, nGroups: nat)
    ensures val == Validation(Queries(entries), Owns(entries))
    ensures train == Queries(entries) - val
    ensures nGroups == |Leaders(Queries(entries), Owns(entries))|
  {
    hide Represents, Sound, Grouped, Listing, Ascending, Queries, Owns, Validation, Leaders, Links;
    var uf := BuildForest(entries);
    var roots, groups := GroupByRoot(uf, entries);
    var ordered := OrderGroups(roots, groups, uf.rep, Queries(entries), Owns(entries));
    train, val := Fill(ordered, Queries(entries), Owns(entries));
    ListingCountsLeaders(Queries(entries), Owns(entries), ordered);
    nGroups := |ordered|;
  }
}
