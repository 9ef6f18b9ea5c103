/** Python's `sorted`, `list.sort` and NumPy's stable `argsort` are library calls. They are
    modelled by one stable sort on sequences, and used only through the two facts below:
    it permutes its input, and it refines whatever order the input already had. */
module Sorting {

  ghost predicate TotalPreorder<T(!new)>(le: (T, T) -> bool) {
    && (forall a, b :: le(a, b) || le(b, a))
    && (forall a, b, c :: le(a, b) && le(b, c) ==> le(a, c))
  }

  /** Every earlier element is related to every later one. */
  ghost predicate Chain<T>(s: seq<T>, rel: (T, T) -> bool) {
    forall i, j :: 0 <= i < j < |s| ==> rel(s[i], s[j])
  }

  ghost predicate Distinct<T>(s: seq<T>) {
    forall i, j :: 0 <= i < j < |s| ==> s[i] != s[j]
  }

  /** Order by `le`, and among elements that `le` cannot separate by `rel`. */
  function Refine<T>(le: (T, T) -> bool, rel: (T, T) -> bool): (T, T) -> bool {
    (a: T, b: T) => le(a, b) && (le(b, a) ==> rel(a, b))
  }

  function Insert<T>(x: T, s: seq<T>, le: (T, T) -> bool): (r: seq<T>)
    ensures multiset(r) == multiset(s) + multiset{x}
    ensures |r| == |s| + 1
  {
    if s == [] || le(x, s[0]) then [x] + s
    else
      assert s == [s[0]] + s[1..];
      [s[0]] + Insert(x, s[1..], le)
  }

  function SortBy<T>(s: seq<T>, le: (T, T) -> bool): (r: seq<T>)
    ensures multiset(r) == multiset(s)
    ensures |r| == |s|
  {
    if s == [] then []
    else
      assert s == [s[0]] + s[1..];
      Insert(s[0], SortBy(s[1..], le), le)
  }

  lemma SameMembers<T>(s: seq<T>, t: seq<T>)
    requires multiset(s) == multiset(t)
    ensures |s| == |t|
    ensures forall x :: x in s <==> x in t
  {
    assert |multiset(s)| == |multiset(t)|;
    forall x ensures x in s <==> x in t {
      assert x in s <==> x in multiset(s);
      assert x in t <==> x in multiset(t);
    }
  }

  lemma {:induction false} InsertChain<T(!new)>(x: T, s: seq<T>, le: (T, T) -> bool, rel: (T, T) -> bool)
    requires TotalPreorder(le)
    requires Chain(s, Refine(le, rel))
    requires forall y :: y in s ==> rel(x, y)
    ensures Chain(Insert(x, s, le), Refine(le, rel))
  {
    if s == [] {
    } else if le(x, s[0]) {
      forall y | y in s ensures Refine(le, rel)(x, y) {
        if y != s[0] {
          var j :| 0 <= j < |s| && s[j] == y;
          assert Refine(le, rel)(s[0], s[j]);
        }
      }
    } else {
      InsertChain(x, s[1..], le, rel);
      var t := Insert(x, s[1..], le);
      assert multiset(t) == multiset([x] + s[1..]);
      SameMembers(t, [x] + s[1..]);
      forall j | 0 <= j < |t| ensures Refine(le, rel)(s[0], t[j]) {
        assert t[j] in [x] + s[1..];
        if t[j] != x {
          var k :| 0 <= k < |s[1..]| && s[1..][k] == t[j];
          assert Refine(le, rel)(s[0], s[k + 1]);
        }
      }
    }
  }

  /** Stability, in the form every caller needs: sorting an input that is already ordered by
      `rel` yields an output ordered by `le` with `rel` as the tie-break. */
  lemma {:induction false} SortRefines<T(!new)>(s: seq<T>, le: (T, T) -> bool, rel: (T, T) -> bool)
    requires TotalPreorder(le)
    requires Chain(s, rel)
    ensures Chain(SortBy(s, le), Refine(le, rel))
  {
    if s == [] {
    } else {
      SortRefines(s[1..], le, rel);
      var t := SortBy(s[1..], le);
      SameMembers(t, s[1..]);
      forall y | y in t ensures rel(s[0], y) {
        assert y in s[1..];
        var j :| 0 <= j < |s[1..]| && s[1..][j] == y;
        assert s[j + 1] == y;
      }
      InsertChain(s[0], t, le, rel);
    }
  }

  /** Sorting without assuming anything about the input order. */
  lemma SortOrders<T(!new)>(s: seq<T>, le: (T, T) -> bool)
    requires TotalPreorder(le)
    ensures Chain(SortBy(s, le), le)
  {
    var any := (a: T, b: T) => true;
    SortRefines(s, le, any);
    var r := SortBy(s, le);
    forall i, j | 0 <= i < j < |r| ensures le(r[i], r[j]) {
      assert Refine(le, any)(r[i], r[j]);
    }
  }

  ghost predicate Asymmetric<T(!new)>(rel: (T, T) -> bool) {
    forall a, b :: rel(a, b) ==> !rel(b, a)
  }

  lemma HeadsAgree<T(!new)>(s: seq<T>, t: seq<T>, rel: (T, T) -> bool)
    requires multiset(s) == multiset(t) && s != []
    requires Chain(s, rel) && Chain(t, rel)
    requires Asymmetric(rel)
    ensures t != [] && s[0] == t[0]
  {
    SameMembers(s, t);
    assert t[0] in s && s[0] in t;
    var i :| 0 <= i < |s| && s[i] == t[0];
    var j :| 0 <= j < |t| && t[j] == s[0];
  }

  lemma TailsAgree<T>(s: seq<T>, t: seq<T>)
    requires multiset(s) == multiset(t) && s != [] && t != [] && s[0] == t[0]
    ensures multiset(s[1..]) == multiset(t[1..])
  {
    assert s == [s[0]] + s[1..] && t == [t[0]] + t[1..];
    assert multiset(s[1..]) == multiset(s) - multiset{s[0]};
    assert multiset(t[1..]) == multiset(t) - multiset{t[0]};
  }

  /** A collection has at most one arrangement that an asymmetric relation orders throughout. */
  lemma {:induction false} ChainUnique<T(!new)>(s: seq<T>, t: seq<T>, rel: (T, T) -> bool)
    requires multiset(s) == multiset(t)
    requires Chain(s, rel) && Chain(t, rel)
    requires Asymmetric(rel)
    ensures s == t
  {
    SameMembers(s, t);
    if s == [] {
    } else {
      HeadsAgree(s, t, rel);
      TailsAgree(s, t);
      ChainUnique(s[1..], t[1..], rel);
      assert s == [s[0]] + s[1..] && t == [t[0]] + t[1..];
    }
  }

  lemma HeadInChain<T(!new)>(s: seq<T>, x: T, rel: (T, T) -> bool)
    requires Chain(s, rel) && x in s
    ensures x == s[0] || rel(s[0], x)
  {
    var k :| 0 <= k < |s| && s[k] == x;
  }

  lemma TailMembers<T(!new)>(s: seq<T>, x: T, rel: (T, T) -> bool)
    requires Chain(s, rel) && Asymmetric(rel) && s != []
    ensures x in s[1..] <==> x in s && x != s[0]
  {
    assert s == [s[0]] + s[1..];
    if x in s[1..] {
      var k :| 0 <= k < |s[1..]| && s[1..][k] == x;
      assert rel(s[0], s[k + 1]);
    }
  }

  /** The same of arrangements known only to have the same members. */
  lemma {:induction false} StrictChainUnique<T(!new)>(a: seq<T>, b: seq<T>, rel: (T, T) -> bool)
    requires Chain(a, rel) && Chain(b, rel) && Asymmetric(rel)
    requires forall i :: 0 <= i < |a| ==> a[i] in b
    requires forall i :: 0 <= i < |b| ==> b[i] in a
    ensures a == b
  {
    assert (a != [] ==> a[0] in b) && (b != [] ==> b[0] in a);
    if a == [] || b == [] {
    } else {
      HeadInChain(a, b[0], rel);
      HeadInChain(b, a[0], rel);
      forall i | 0 <= i < |a[1..]| ensures a[1..][i] in b[1..] {
        TailMembers(a, a[1..][i], rel);
        TailMembers(b, a[1..][i], rel);
      }
      forall i | 0 <= i < |b[1..]| ensures b[1..][i] in a[1..] {
        TailMembers(a, b[1..][i], rel);
        TailMembers(b, b[1..][i], rel);
      }
      StrictChainUnique(a[1..], b[1..], rel);
      assert a == [a[0]] + a[1..] && b == [b[0]] + b[1..];
    }
  }

  /** The first element of one arrangement, found in another; removing it leaves arrangements of the rest. */
  lemma Matching<T>(a: seq<T>, b: seq<T>) returns (k: nat)
    requires multiset(a) == multiset(b) && a != []
    ensures k < |b| && b[k] == a[0]
    ensures multiset(a[1..]) == multiset(b[..k] + b[k + 1..])
  {
    SameMembers(a, b);
    assert a[0] in a;
    k :| 0 <= k < |b| && b[k] == a[0];
    RestsMatch(a, b, k);
  }

  lemma RestsMatch<T>(a: seq<T>, b: seq<T>, k: nat)
    requires multiset(a) == multiset(b) && a != [] && k < |b| && b[k] == a[0]
    ensures multiset(a[1..]) == multiset(b[..k] + b[k + 1..])
  {
    WithoutElement(a, 0);
    WithoutElement(b, k);
    assert a[..0] + a[1..] == a[1..];
  }

  lemma WithoutElement<T>(s: seq<T>, k: nat)
    requires k < |s|
    ensures multiset(s[..k] + s[k + 1..]) == multiset(s) - multiset{s[k]}
  {
    assert s == s[..k] + ([s[k]] + s[k + 1..]);
    assert multiset(s) == multiset(s[..k]) + (multiset{s[k]} + multiset(s[k + 1..]));
  }

  /** What `f` says of a sequence does not depend on which half comes first, nor on what else its halves are. */
  ghost predicate AddsUp<T(!new), R>(f: seq<T> -> R) {
    && (forall s, t {:trigger f(s + t)} :: f(s + t) == f(t + s))
    && (forall r, s, t {:trigger f(r + s), f(r + t)} :: f(s) == f(t) ==> f(r + s) == f(r + t))
  }

  /** Anything that adds up over concatenation does not depend on order. */
  lemma {:induction false} PermutationAddsUp<T(!new), R>(a: seq<T>, b: seq<T>, f: seq<T> -> R)
    requires multiset(a) == multiset(b) && AddsUp(f)
    ensures f(a) == f(b)
  {
    SameMembers(a, b);
    if a == [] {
      assert b == [];
    } else {
      var k := Matching(a, b);
      var before, x, after := b[..k], [b[k]], b[k + 1..];
      PermutationAddsUp(a[1..], before + after, f);
      assert f(before + after) == f(after + before);
      assert f(x + a[1..]) == f(x + (after + before));
      assert a == x + a[1..] && b == before + (x + after);
      assert x + (after + before) == (x + after) + before;
      assert f(before + (x + after)) == f((x + after) + before);
    }
  }

  /** Distinctness is a property of the multiset. */
  lemma {:induction false} DistinctIsMultiplicity<T>(s: seq<T>)
    ensures Distinct(s) <==> forall x :: x in multiset(s) ==> multiset(s)[x] == 1
  {
    if s == [] {
    } else {
      DistinctIsMultiplicity(s[1..]);
      assert s == [s[0]] + s[1..];
      assert multiset(s) == multiset{s[0]} + multiset(s[1..]);
      if Distinct(s) {
        assert Distinct(s[1..]);
        assert s[0] !in s[1..];
        forall x | x in multiset(s) ensures multiset(s)[x] == 1 {
          if x != s[0] { assert x in multiset(s[1..]); }
        }
      }
      if forall x :: x in multiset(s) ==> multiset(s)[x] == 1 {
        assert s[0] in multiset(s);
        assert multiset(s[1..])[s[0]] == 0;
        assert s[0] !in s[1..];
        forall x | x in multiset(s[1..]) ensures multiset(s[1..])[x] == 1 {
          assert x in multiset(s);
        }
        assert Distinct(s[1..]);
        forall i, j | 0 <= i < j < |s| ensures s[i] != s[j] {
          if i == 0 { assert s[1..][j - 1] == s[j]; }
          else { assert s[1..][i - 1] == s[i] && s[1..][j - 1] == s[j]; }
        }
      }
    }
  }

  lemma {:induction false} SetOfDistinct<T>(s: seq<T>)
    requires Distinct(s)
    ensures |set x | x in s| == |s|
  {
    if s == [] {
    } else {
      SetOfDistinct(s[1..]);
      assert s[0] !in s[1..];
      assert (set x | x in s) == {s[0]} + set x | x in s[1..];
    }
  }

  /** The places of a sequence where p holds. */
  ghost function Places<T>(s: seq<T>, p: T -> bool): set<int> {
    set i | 0 <= i < |s| && p(s[i])
  }

  lemma PlacesSnoc<T>(s: seq<T>, x: T, p: T -> bool)
    ensures |Places(s + [x], p)| == |Places(s, p)| + if p(x) then 1 else 0
    ensures Places<T>([], p) == {}
  {
    var old_, new_ := Places(s, p), Places(s + [x], p);
    assert new_ == old_ + if p(x) then {|s|} else {};
  }

  lemma SubsetSize<T>(a: set<T>, b: set<T>)
    requires a <= b
    ensures |a| <= |b|
  {
    assert b == a + (b - a);
  }

  /** Index ranges, the starting arrangement of every argsort. */
  function Indices(n: nat): (r: seq<nat>)
    ensures |r| == n
    ensures forall i :: 0 <= i < n ==> r[i] == i
  {
    seq(n, i requires 0 <= i < n => i)
  }

  /** `perm` is a rearrangement of the indices below n. */
  ghost predicate IsPermutation(perm: seq<nat>, n: nat) {
    multiset(perm) == multiset(Indices(n))
  }

  lemma PermutationFacts(perm: seq<nat>, n: nat)
    requires IsPermutation(perm, n)
    ensures |perm| == n
    ensures forall i :: 0 <= i < |perm| ==> perm[i] < n
    ensures forall x: nat :: x < n ==> x in perm
    ensures Distinct(perm)
  {
    SameMembers(perm, Indices(n));
    forall i | 0 <= i < |perm| ensures perm[i] < n {
      assert perm[i] in Indices(n);
    }
    forall x: nat | x < n ensures x in perm {
      assert Indices(n)[x] in Indices(n);
    }
    DistinctIsMultiplicity(Indices(n));
    DistinctIsMultiplicity(perm);
  }

  /** `v[order]`. */
  function Take<T>(v: seq<T>, order: seq<nat>): (r: seq<T>)
    requires forall k :: 0 <= k < |order| ==> order[k] < |v|
    ensures |r| == |order| && forall k :: 0 <= k < |r| ==> r[k] == v[order[k]]
  {
    seq(|order|, k requires 0 <= k < |order| => v[order[k]])
  }

  lemma TakeWithout<T>(v: seq<T>, order: seq<nat>, k: nat)
    requires k < |order| && forall p :: 0 <= p < |order| ==> order[p] < |v|
    ensures multiset(Take(v, order)) == multiset{v[order[k]]} + multiset(Take(v, order[..k] + order[k + 1..]))
  {
    var all := Take(v, order);
    assert all == all[..k] + ([all[k]] + all[k + 1..]);
    assert Take(v, order[..k] + order[k + 1..]) == all[..k] + all[k + 1..];
  }

  /** Reading a sequence along a permuted order permutes what is read. */
  lemma {:induction false} TakePermutes<T>(a: seq<nat>, b: seq<nat>, v: seq<T>)
    requires multiset(a) == multiset(b)
    requires forall p :: 0 <= p < |a| ==> a[p] < |v|
    requires forall p :: 0 <= p < |b| ==> b[p] < |v|
    ensures multiset(Take(v, a)) == multiset(Take(v, b))
  {
    if a == [] {
      SameMembers(a, b);
    } else {
      var k := Matching(a, b);
      TakeWithout(v, a, 0);
      TakeWithout(v, b, k);
      assert a[..0] + a[1..] == a[1..];
      TakePermutes(a[1..], b[..k] + b[k + 1..], v);
    }
  }

  // ---- argsort over real keys ------------------------------------------------------------------

  /** Total version of indexing, so that index orders are total on every natural number. */
  function At(keys: seq<real>, i: nat): real {
    if i < |keys| then keys[i] else 0.0
  }

  /** `np.argsort(keys, kind="stable")`: ascending, ties in row order. */
  function ArgSort(keys: seq<real>): seq<nat> {
    SortBy(Indices(|keys|), (i: nat, j: nat) => At(keys, i) <= At(keys, j))
  }

  /** Strictly ahead in an ascending stable argsort. */
  predicate Ahead(keys: seq<real>, i: nat, j: nat) {
    At(keys, i) < At(keys, j) || (At(keys, i) == At(keys, j) && i < j)
  }

  lemma ArgSortOrders(keys: seq<real>)
    ensures IsPermutation(ArgSort(keys), |keys|)
    ensures forall p, q :: 0 <= p < q < |ArgSort(keys)| ==> Ahead(keys, ArgSort(keys)[p], ArgSort(keys)[q])
  {
    var le := (i: nat, j: nat) => At(keys, i) <= At(keys, j);
    var row := (i: nat, j: nat) => i < j;
    SortRefines(Indices(|keys|), le, row);
    var r := ArgSort(keys);
    forall p, q | 0 <= p < q < |r| ensures Ahead(keys, r[p], r[q]) {
      assert Refine(le, row)(r[p], r[q]);
    }
  }
}
