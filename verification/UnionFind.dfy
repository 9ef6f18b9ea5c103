/** The union-find of `fold_assignment`: a parent dictionary that `find` rewrites as it climbs
    (path halving) and `union` extends by hanging one root under another, with no ranks. */
module UnionFind {

  /** The keys `q:<query>` and `s:<session>`. */
  datatype Node = Query(id: string) | Session(id: string)

  type Reps = map<Node, Node>

  /** `parent.setdefault(x, x)` seen through representatives. */
  function Seen(rep: Reps, x: Node): Reps {
    if x in rep then rep else rep[x := x]
  }

  /** Two classes become one. */
  function Joined(rep: Reps, a: Node, b: Node): Reps
    requires a in rep && b in rep
  {
    map y | y in rep :: if rep[y] == rep[a] then rep[b] else rep[y]
  }

  /** One node of a sound forest: its link leads towards its root, and heights say how far. */
  ghost predicate Linked(parent: map<Node, Node>, rep: Reps, height: map<Node, nat>, x: Node) {
    && x in parent && x in rep && x in height
    && parent[x] in parent && parent[x] in rep && parent[x] in height
    && rep[x] in parent && rep[x] in rep && rep[x] in height
    && rep[parent[x]] == rep[x] && rep[rep[x]] == rep[x] && parent[rep[x]] == rep[x]
    && (parent[x] == x <==> rep[x] == x)
    && (parent[x] != x ==> height[x] < height[parent[x]])
    && height[x] <= height[rep[x]]
  }

  ghost predicate Sound(parent: map<Node, Node>, rep: Reps, height: map<Node, nat>) {
    && parent.Keys == rep.Keys
    && forall x {:trigger Linked(parent, rep, height, x)} :: x in parent ==> Linked(parent, rep, height, x)
  }

  lemma NewNodeSound(parent: map<Node, Node>, rep: Reps, height: map<Node, nat>, x: Node)
    requires Sound(parent, rep, height) && x !in parent
    ensures Sound(parent[x := x], rep[x := x], height[x := 0])
  {
    var p, r, t := parent[x := x], rep[x := x], height[x := 0];
    forall y | y in p ensures Linked(p, r, t, y) {
      if y != x { assert Linked(parent, rep, height, y); }
    }
  }

  lemma HalvingSound(parent: map<Node, Node>, rep: Reps, height: map<Node, nat>, x: Node)
    requires Sound(parent, rep, height) && x in parent && parent[x] != x
    ensures parent[x] in parent && Sound(parent[x := parent[parent[x]]], rep, height)
    ensures var up := parent[parent[x]];
            up in parent && x in height && up in height && up in rep && rep[up] in height
            && height[x] < height[up] <= height[rep[up]] && rep[up] == rep[x]
  {
    assert Linked(parent, rep, height, x);
    var mid := parent[x];
    assert Linked(parent, rep, height, mid);
    var up := parent[mid];
    assert Linked(parent, rep, height, up);
    var p := parent[x := up];
    forall y | y in p ensures Linked(p, rep, height, y) {
      assert Linked(parent, rep, height, y);
    }
  }

  lemma JoiningSound(parent: map<Node, Node>, rep: Reps, height: map<Node, nat>, a: Node, b: Node, h: nat)
    requires Sound(parent, rep, height) && a in rep && b in rep && rep[a] != rep[b]
    requires rep[a] in height && rep[b] in height && h > height[rep[a]] && h >= height[rep[b]]
    ensures Sound(parent[rep[a] := rep[b]], Joined(rep, a, b), height[rep[b] := h])
  {
    var p, r, t := parent[rep[a] := rep[b]], Joined(rep, a, b), height[rep[b] := h];
    assert Linked(parent, rep, height, a) && Linked(parent, rep, height, b);
    assert Linked(parent, rep, height, rep[a]) && Linked(parent, rep, height, rep[b]);
    assert p.Keys == r.Keys;
    forall y | y in p ensures Linked(p, r, t, y) {
      assert Linked(parent, rep, height, y);
      assert Linked(parent, rep, height, parent[y]);
    }
  }

  class Forest {
    var parent: map<Node, Node>
    /** The root of each node's tree. */
    ghost var rep: Reps
    /** Heights that grow strictly along parent links: why climbing ends. */
    ghost var height: map<Node, nat>

    ghost predicate Valid()
      reads this
    {
      Sound(parent, rep, height)
    }

    constructor ()
      ensures Valid() && parent == map[] && rep == map[]
    {
      parent, rep, height := map[], map[], map[];
    }

    /** Climbing ends, rewrites links, and changes no class. */
    method Find(start: Node) returns (x: Node)
      requires Valid()
      modifies this
      ensures Valid()
      ensures rep == Seen(old(rep), start)
      ensures start in rep && x == rep[start]
    {
      x := start;
      if x !in parent {
        NewNodeSound(parent, rep, height, x);
        parent, rep, height := parent[x := x], rep[x := x], height[x := 0];
      }
      assert Linked(parent, rep, height, x);
      while parent[x] != x
        invariant Valid()
        invariant rep == Seen(old(rep), start)
        invariant start in rep && Linked(parent, rep, height, x) && rep[x] == rep[start]
        decreases height[rep[x]] - height[x]
      {
        HalvingSound(parent, rep, height, x);
        parent := parent[x := parent[parent[x]]];
        x := parent[x];
        assert Linked(parent, rep, height, x);
      }
    }

    /** Exactly the two classes named become one. */
    method Union(a: Node, b: Node)
      requires Valid()
      modifies this
      ensures Valid()
      ensures a in Seen(Seen(old(rep), a), b) && b in Seen(Seen(old(rep), a), b)
      ensures rep == Joined(Seen(Seen(old(rep), a), b), a, b)
    {
      var ra := Find(a);
      var rb := Find(b);
      ghost var before := rep;
      assert Joined(before, a, b).Keys == before.Keys;
      if ra != rb {
        assert Linked(parent, rep, height, a) && Linked(parent, rep, height, b);
        ghost var h := if height[rb] > height[ra] then height[rb] else height[ra] + 1;
        JoiningSound(parent, rep, height, a, b, h);
        parent := parent[ra := rb];
        height := height[rb := h];
        rep := Joined(rep, a, b);
      } else {
        assert Joined(before, a, b) == before;
      }
    }
  }

  // ---- what the classes mean -------------------------------------------------------------------

  type Edges = set<(Node, Node)>

  predicate Adjacent(edges: Edges, x: Node, y: Node) {
    (x, y) in edges || (y, x) in edges
  }

  /** A walk along edges, in either direction. */
  ghost predicate IsPath(edges: Edges, p: seq<Node>, x: Node, y: Node) {
    && p != [] && p[0] == x && p[|p| - 1] == y
    && forall i :: 0 <= i < |p| - 1 ==> Adjacent(edges, p[i], p[i + 1])
  }

  ghost predicate Connected(edges: Edges, x: Node, y: Node) {
    exists p :: IsPath(edges, p, x, y)
  }

  lemma ConnectedReflexive(edges: Edges, x: Node)
    ensures Connected(edges, x, x)
  {
    assert IsPath(edges, [x], x, x);
  }

  lemma ConnectedEdge(edges: Edges, x: Node, y: Node)
    requires Adjacent(edges, x, y)
    ensures Connected(edges, x, y)
  {
    assert IsPath(edges, [x, y], x, y);
  }

  lemma ConnectedTransitive(edges: Edges, x: Node, y: Node, z: Node)
    requires Connected(edges, x, y) && Connected(edges, y, z)
    ensures Connected(edges, x, z)
  {
    var p :| IsPath(edges, p, x, y);
    var q :| IsPath(edges, q, y, z);
    var r := p + q[1..];
    forall i | 0 <= i < |r| - 1 ensures Adjacent(edges, r[i], r[i + 1]) {
      if i >= |p| - 1 {
        assert r[i] == q[i - (|p| - 1)] && r[i + 1] == q[i + 1 - (|p| - 1)];
      }
    }
    assert IsPath(edges, r, x, z);
  }

  lemma ConnectedSymmetric(edges: Edges, x: Node, y: Node)
    requires Connected(edges, x, y)
    ensures Connected(edges, y, x)
  {
    var p :| IsPath(edges, p, x, y);
    var n := |p|;
    var r := seq(n, i requires 0 <= i < n => p[n - 1 - i]);
    forall i | 0 <= i < n - 1 ensures Adjacent(edges, r[i], r[i + 1]) {
      assert Adjacent(edges, p[n - 2 - i], p[n - 2 - i + 1]);
    }
    assert IsPath(edges, r, y, x);
  }

  lemma ConnectedGrows(edges: Edges, more: Edges, x: Node, y: Node)
    requires edges <= more && Connected(edges, x, y)
    ensures Connected(more, x, y)
  {
    var p :| IsPath(edges, p, x, y);
    assert IsPath(more, p, x, y);
  }

  /** The classes of `rep` are the connected components of `edges`. */
  ghost predicate Represents(rep: Reps, edges: Edges) {
    && (forall x, y :: (x, y) in edges ==> x in rep && y in rep)
    && (forall x, y :: x in rep && y in rep ==> (rep[x] == rep[y] <==> Connected(edges, x, y)))
    && (forall x :: x in rep ==> rep[x] in rep)
  }

  lemma {:induction false} PathKeepsClass(rep: Reps, edges: Edges, p: seq<Node>, x: Node, y: Node)
    requires forall a, b :: (a, b) in edges ==> a in rep && b in rep && rep[a] == rep[b]
    requires x in rep && IsPath(edges, p, x, y)
    ensures y in rep && rep[x] == rep[y]
  {
    if |p| > 1 {
      assert Adjacent(edges, p[0], p[1]);
      assert IsPath(edges, p[1..], p[1], y);
      PathKeepsClass(rep, edges, p[1..], p[1], y);
    }
  }

  lemma PathLeavesByAnEdge(edges: Edges, x: Node, y: Node)
    requires Connected(edges, x, y) && x != y
    ensures exists n :: Adjacent(edges, x, n)
  {
    var p :| IsPath(edges, p, x, y);
    assert Adjacent(edges, p[0], p[1]);
  }

  lemma SeenRepresents(rep: Reps, edges: Edges, x: Node)
    requires Represents(rep, edges)
    ensures Represents(Seen(rep, x), edges)
  {
    if x !in rep {
      var after := Seen(rep, x);
      forall y | Connected(edges, x, y) ensures x == y {
        if x != y { PathLeavesByAnEdge(edges, x, y); }
      }
      forall a, b | a in after && b in after ensures after[a] == after[b] <==> Connected(edges, a, b) {
        ConnectedReflexive(edges, a);
        if Connected(edges, a, b) { ConnectedSymmetric(edges, a, b); }
      }
    }
  }

  lemma JoinedRepresents(rep: Reps, edges: Edges, a: Node, b: Node)
    requires Represents(rep, edges) && a in rep && b in rep
    ensures Represents(Joined(rep, a, b), edges + {(a, b)})
  {
    var after, more := Joined(rep, a, b), edges + {(a, b)};
    forall x, y | (x, y) in more ensures x in after && y in after && after[x] == after[y] {
      if (x, y) in edges { ConnectedEdge(edges, x, y); }
    }
    forall x, y | x in after && y in after ensures after[x] == after[y] <==> Connected(more, x, y) {
      if Connected(more, x, y) {
        var p :| IsPath(more, p, x, y);
        PathKeepsClass(after, more, p, x, y);
      }
      if after[x] == after[y] { JoinedConnects(rep, edges, a, b, x, y); }
    }
  }

  lemma JoinedConnects(rep: Reps, edges: Edges, a: Node, b: Node, x: Node, y: Node)
    requires Represents(rep, edges) && a in rep && b in rep && x in rep && y in rep
    requires Joined(rep, a, b)[x] == Joined(rep, a, b)[y]
    ensures Connected(edges + {(a, b)}, x, y)
  {
    var more := edges + {(a, b)};
    ConnectedEdge(more, a, b);
    ConnectedEdge(more, b, a);
    if rep[x] == rep[y] {
      ConnectedGrows(edges, more, x, y);
    } else if rep[x] == rep[a] {
      ConnectedGrows(edges, more, x, a);
      ConnectedGrows(edges, more, b, y);
      ConnectedTransitive(more, x, a, b);
      ConnectedTransitive(more, x, b, y);
    } else {
      ConnectedGrows(edges, more, x, b);
      ConnectedGrows(edges, more, a, y);
      ConnectedTransitive(more, x, b, a);
      ConnectedTransitive(more, x, a, y);
    }
  }
}
