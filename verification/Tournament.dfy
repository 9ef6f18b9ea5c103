/** The symmetrised pairwise tournament: every candidate meets every other once in each direction. */
module Tournament {
  import opened Sorting

  /** One call of the pairwise model, a shown first. */
  function Prefers<T>(prob: (T, T) -> real, a: T, b: T): real {
    prob(a, b)
  }

  /** The averaged preference for a over b. */
  function Symmetric<T>(prob: (T, T) -> real, a: T, b: T): real {
    0.5 * (Prefers(prob, a, b) + (1.0 - Prefers(prob, b, a)))
  }

  /** The one-directional preference of position x over position y: only the lower position is ever
      presented first. */
  function OneWay<T>(prob: (T, T) -> real, docs: seq<T>, x: nat, y: nat): real
    requires x < |docs| && y < |docs|
  {
    if x < y then Prefers(prob, docs[x], docs[y]) else 1.0 - Prefers(prob, docs[y], docs[x])
  }

  /** What position z takes from the opponents below n. */
  function Taken<T>(prob: (T, T) -> real, docs: seq<T>, z: nat, n: nat): real
    requires z < |docs| && n <= |docs|
  {
    if n == 0 then 0.0
    else Taken(prob, docs, z, n - 1) + if n - 1 == z then 0.0 else Symmetric(prob, docs[z], docs[n - 1])
  }

  function TakenOneWay<T>(prob: (T, T) -> real, docs: seq<T>, z: nat, n: nat): real
    requires z < |docs| && n <= |docs|
  {
    if n == 0 then 0.0
    else TakenOneWay(prob, docs, z, n - 1) + if n - 1 == z then 0.0 else OneWay(prob, docs, z, n - 1)
  }

  function Wins<T>(prob: (T, T) -> real, docs: seq<T>, z: nat): real
    requires z < |docs|
  {
    Taken(prob, docs, z, |docs|)
  }

  function RawWins<T>(prob: (T, T) -> real, docs: seq<T>, z: nat): real
    requires z < |docs|
  {
    TakenOneWay(prob, docs, z, |docs|)
  }

  lemma SymmetricComplement<T>(prob: (T, T) -> real, a: T, b: T)
    ensures Symmetric(prob, a, b) + Symmetric(prob, b, a) == 1.0
    ensures Symmetric(prob, a, a) == 0.5
  {
  }

  /** How many opponents of z have been met when pair (x, y) is next. */
  function Met(z: nat, x: nat, y: nat, k: nat): nat
    requires z < k && x < k && x < y <= k
  {
    if z < x then k else if z == x then y else if z < y then x + 1 else x
  }

  /** Meeting at pair (x, y): both sides gain, and passing oneself gains nothing. */
  lemma Meet<T>(prob: (T, T) -> real, docs: seq<T>, x: nat, y: nat)
    requires x < y < |docs|
    ensures Taken(prob, docs, x, y + 1) == Taken(prob, docs, x, y) + Symmetric(prob, docs[x], docs[y])
    ensures Taken(prob, docs, y, x + 1) == Taken(prob, docs, y, x) + (1.0 - Symmetric(prob, docs[x], docs[y]))
    ensures TakenOneWay(prob, docs, x, y + 1) == TakenOneWay(prob, docs, x, y) + Prefers(prob, docs[x], docs[y])
    ensures TakenOneWay(prob, docs, y, x + 1) == TakenOneWay(prob, docs, y, x) + (1.0 - Prefers(prob, docs[x], docs[y]))
  {
    SymmetricComplement(prob, docs[x], docs[y]);
  }

  lemma PassOneself<T>(prob: (T, T) -> real, docs: seq<T>, x: nat)
    requires x < |docs|
    ensures Taken(prob, docs, x, x + 1) == Taken(prob, docs, x, x)
    ensures TakenOneWay(prob, docs, x, x + 1) == TakenOneWay(prob, docs, x, x)
  {
  }

  /** The two score tables when pair (x, y) is next. */
  ghost predicate Standing<T>(ws: seq<real>, raw: seq<real>, prob: (T, T) -> real, docs: seq<T>, x: nat, y: nat)
    requires x < |docs| && x < y <= |docs|
  {
    && |ws| == |raw| == |docs|
    && forall z :: 0 <= z < |docs| ==> ws[z] == Taken(prob, docs, z, Met(z, x, y, |docs|))
                                       && raw[z] == TakenOneWay(prob, docs, z, Met(z, x, y, |docs|))
  }

  lemma StandingStep<T>(ws: seq<real>, raw: seq<real>, prob: (T, T) -> real, docs: seq<T>, x: nat, y: nat)
    requires x < y < |docs| && Standing(ws, raw, prob, docs, x, y)
    ensures var sym, p := Symmetric(prob, docs[x], docs[y]), Prefers(prob, docs[x], docs[y]);
            Standing(ws[x := ws[x] + sym][y := ws[y] + (1.0 - sym)], raw[x := raw[x] + p][y := raw[y] + (1.0 - p)],
                     prob, docs, x, y + 1)
  {
    Meet(prob, docs, x, y);
    hide Taken, TakenOneWay, Symmetric;
  }

  /** The tables once every pair whose lower position is below x has met. */
  ghost predicate RowsDone<T>(ws: seq<real>, raw: seq<real>, prob: (T, T) -> real, docs: seq<T>, x: nat)
    requires x <= |docs|
  {
    && |ws| == |raw| == |docs|
    && forall z :: 0 <= z < |docs| ==> ws[z] == Taken(prob, docs, z, if z < x then |docs| else x)
                                       && raw[z] == TakenOneWay(prob, docs, z, if z < x then |docs| else x)
  }

  lemma RowTurns<T>(ws: seq<real>, raw: seq<real>, prob: (T, T) -> real, docs: seq<T>, x: nat)
    requires x < |docs|
    ensures RowsDone(ws, raw, prob, docs, x) <==> Standing(ws, raw, prob, docs, x, x + 1)
    ensures RowsDone(ws, raw, prob, docs, x + 1) <==> Standing(ws, raw, prob, docs, x, |docs|)
  {
    PassOneself(prob, docs, x);
    hide Taken, TakenOneWay;
  }

  lemma NobodyMet<T>(ws: seq<real>, raw: seq<real>, prob: (T, T) -> real, docs: seq<T>)
    requires |ws| == |raw| == |docs| && forall z :: 0 <= z < |docs| ==> ws[z] == raw[z] == 0.0
    ensures RowsDone(ws, raw, prob, docs, 0)
  {
  }

  /** `wins[x] += p; wins[y] += 1.0 - p`. */
  method Award(wins: array<real>, x: nat, y: nat, p: real)
    requires x < y < wins.Length
    modifies wins
    ensures wins[..] == old(wins[..])[x := old(wins[x]) + p][y := old(wins[y]) + (1.0 - p)]
  {
    wins[x] := wins[x] + p;
    wins[y] := wins[y] + (1.0 - p);
  }

  /** The inner loop: position x meets everyone after it. */
  method PlayRow<T>(prob: (T, T) -> real, docs: seq<T>, x: nat, wins: array<real>, winsRaw: array<real>)
    requires x < |docs| && wins.Length == winsRaw.Length == |docs| && wins != winsRaw
    requires RowsDone(wins[..], winsRaw[..], prob, docs, x)
    modifies wins, winsRaw
    ensures RowsDone(wins[..], winsRaw[..], prob, docs, x + 1)
  {
    hide RowsDone, Standing, Symmetric, Prefers;
    RowTurns(wins[..], winsRaw[..], prob, docs, x);
    for y := x + 1 to |docs|
      invariant Standing(wins[..], winsRaw[..], prob, docs, x, y)
    {
      var p, q := Prefers(prob, docs[x], docs[y]), Prefers(prob, docs[y], docs[x]);
      var sym := 0.5 * (p + (1.0 - q));
      SymmetricMeans(prob, docs[x], docs[y]);
      StandingStep(wins[..], winsRaw[..], prob, docs, x, y);
      Award(wins, x, y, sym);
      Award(winsRaw, x, y, p);
    }
    RowTurns(wins[..], winsRaw[..], prob, docs, x);
  }

  method Play<T>(prob: (T, T) -> real, docs: seq<T>) returns (wins: array<real>, winsRaw: array<real>)
    ensures fresh(wins) && fresh(winsRaw) && wins.Length == winsRaw.Length == |docs|
    ensures forall z :: 0 <= z < |docs| ==> wins[z] == Wins(prob, docs, z)
    ensures forall z :: 0 <= z < |docs| ==> winsRaw[z] == RawWins(prob, docs, z)
  {
    wins := new real[|docs|](_ => 0.0);
    winsRaw := new real[|docs|](_ => 0.0);
    NobodyMet(wins[..], winsRaw[..], prob, docs);
    for x := 0 to |docs|
      invariant RowsDone(wins[..], winsRaw[..], prob, docs, x)
    {
      PlayRow(prob, docs, x, wins, winsRaw);
    }
    assert forall z :: 0 <= z < |docs| ==> wins[z] == wins[..][z] && winsRaw[z] == winsRaw[..][z];
  }

  lemma SymmetricMeans<T>(prob: (T, T) -> real, a: T, b: T)
    ensures Symmetric(prob, a, b) == 0.5 * (Prefers(prob, a, b) + (1.0 - Prefers(prob, b, a)))
  {
  }

  // ---- totals ------------------------------------------------------------------------------------------

  function TotalTo<T>(prob: (T, T) -> real, docs: seq<T>, m: nat, n: nat): real
    requires m <= |docs| && n <= |docs|
  {
    if m == 0 then 0.0 else TotalTo(prob, docs, m - 1, n) + Taken(prob, docs, m - 1, n)
  }

  function RawTotalTo<T>(prob: (T, T) -> real, docs: seq<T>, m: nat, n: nat): real
    requires m <= |docs| && n <= |docs|
  {
    if m == 0 then 0.0 else RawTotalTo(prob, docs, m - 1, n) + TakenOneWay(prob, docs, m - 1, n)
  }

  /** Adding opponent n to the first m rows, and row n's take from them, adds m points. */
  lemma {:induction false} ColumnAndRow<T>(prob: (T, T) -> real, docs: seq<T>, m: nat, n: nat)
    requires m <= n < |docs|
    ensures TotalTo(prob, docs, m, n + 1) + Taken(prob, docs, n, m) == TotalTo(prob, docs, m, n) + (m as real)
    ensures RawTotalTo(prob, docs, m, n + 1) + TakenOneWay(prob, docs, n, m) == RawTotalTo(prob, docs, m, n) + (m as real)
  {
    if m == 0 {
    } else {
      ColumnAndRow(prob, docs, m - 1, n);
      SymmetricComplement(prob, docs[m - 1], docs[n]);
    }
  }

  /** Half of k(k - 1), counted up. */
  function Pairs(k: nat): nat {
    if k == 0 then 0 else Pairs(k - 1) + (k - 1)
  }

  lemma {:induction false} PairsClosedForm(k: nat)
    ensures 2 * Pairs(k) == k * (k - 1)
  {
    if k == 0 {
    } else {
      PairsClosedForm(k - 1);
      assert k * (k - 1) == (k - 1) * (k - 2) + 2 * (k - 1);
    }
  }

  lemma {:induction false} TotalIsPairs<T>(prob: (T, T) -> real, docs: seq<T>, k: nat)
    requires k <= |docs|
    ensures TotalTo(prob, docs, k, k) == Pairs(k) as real
    ensures RawTotalTo(prob, docs, k, k) == Pairs(k) as real
  {
    if k == 0 {
    } else {
      TotalIsPairs(prob, docs, k - 1);
      ColumnAndRow(prob, docs, k - 1, k - 1);
    }
  }

  /** Every pair hands out exactly one point, in both versions. */
  lemma TotalWins<T>(prob: (T, T) -> real, docs: seq<T>)
    ensures 2.0 * TotalTo(prob, docs, |docs|, |docs|) == (|docs| * (|docs| - 1)) as real
    ensures 2.0 * RawTotalTo(prob, docs, |docs|, |docs|) == (|docs| * (|docs| - 1)) as real
  {
    TotalIsPairs(prob, docs, |docs|);
    PairsClosedForm(|docs|);
  }

  lemma {:induction false} TakenRange<T(!new)>(prob: (T, T) -> real, docs: seq<T>, z: nat, n: nat)
    requires z < |docs| && n <= |docs| && forall a, b :: 0.0 <= prob(a, b) <= 1.0
    ensures 0.0 <= Taken(prob, docs, z, n) <= (if z < n then n - 1 else n) as real
  {
    if n == 0 {
    } else {
      TakenRange(prob, docs, z, n - 1);
      assert 0.0 <= prob(docs[z], docs[n - 1]) <= 1.0 && 0.0 <= prob(docs[n - 1], docs[z]) <= 1.0;
    }
  }

  /** With probabilities for preferences, a candidate scores between nothing and one per opponent. */
  lemma WinsRange<T(!new)>(prob: (T, T) -> real, docs: seq<T>, z: nat)
    requires z < |docs| && forall a, b :: 0.0 <= prob(a, b) <= 1.0
    ensures 0.0 <= Wins(prob, docs, z) <= (|docs| - 1) as real
  {
    TakenRange(prob, docs, z, |docs|);
  }

  // ---- fairness ----------------------------------------------------------------------------------------

  /** What candidate d takes from a field of candidates, itself included. */
  function FromField<T>(prob: (T, T) -> real, d: T, field: seq<T>): real {
    if field == [] then 0.0 else Symmetric(prob, d, field[0]) + FromField(prob, d, field[1..])
  }

  lemma {:induction false} FromFieldAppend<T>(prob: (T, T) -> real, d: T, a: seq<T>, b: seq<T>)
    ensures FromField(prob, d, a + b) == FromField(prob, d, a) + FromField(prob, d, b)
  {
    if a == [] { assert a + b == b; }
    else { assert (a + b)[1..] == a[1..] + b; FromFieldAppend(prob, d, a[1..], b); }
  }

  lemma FromFieldOfPermutation<T(!new)>(prob: (T, T) -> real, d: T, a: seq<T>, b: seq<T>)
    requires multiset(a) == multiset(b)
    ensures FromField(prob, d, a) == FromField(prob, d, b)
  {
    var f := s => FromField(prob, d, s);
    forall s, t ensures f(s + t) == f(t + s) {
      FromFieldAppend(prob, d, s, t);
      FromFieldAppend(prob, d, t, s);
    }
    forall r, s, t | f(s) == f(t) ensures f(r + s) == f(r + t) {
      FromFieldAppend(prob, d, r, s);
      FromFieldAppend(prob, d, r, t);
    }
    PermutationAddsUp(a, b, f);
  }

  lemma {:induction false} TakenIsFromField<T>(prob: (T, T) -> real, docs: seq<T>, z: nat, n: nat)
    requires z < |docs| && n <= |docs|
    ensures Taken(prob, docs, z, n) == FromField(prob, docs[z], docs[..n]) - if z < n then 0.5 else 0.0
  {
    if n == 0 {
    } else {
      TakenIsFromField(prob, docs, z, n - 1);
      assert docs[..n] == docs[..n - 1] + [docs[n - 1]];
      FromFieldAppend(prob, docs[z], docs[..n - 1], [docs[n - 1]]);
      assert [docs[n - 1]][1..] == [];
      SymmetricComplement(prob, docs[z], docs[z]);
    }
  }

  /** Fairness: however biased the pairwise model is, a candidate's score depends only on which
      candidates are in the slate, not on where any of them stands. */
  lemma WinsIgnoreOrder<T(!new)>(prob: (T, T) -> real, docs: seq<T>, shuffled: seq<T>, x: nat, y: nat)
    requires multiset(docs) == multiset(shuffled)
    requires x < |docs| && y < |shuffled| && docs[x] == shuffled[y]
    ensures Wins(prob, docs, x) == Wins(prob, shuffled, y)
  {
    TakenIsFromField(prob, docs, x, |docs|);
    TakenIsFromField(prob, shuffled, y, |shuffled|);
    assert docs[..|docs|] == docs && shuffled[..|shuffled|] == shuffled;
    FromFieldOfPermutation(prob, docs[x], docs, shuffled);
  }

  // ---- the one-directional score -------------------------------------------------------------------------

  /** The model's two presentations of every two candidates of the slate are complementary. */
  ghost predicate Complementary<T(!new)>(prob: (T, T) -> real, slate: multiset<T>) {
    forall a, b :: a in slate && b in slate - multiset{a} ==> Unbiased(prob, a, b)
  }

  predicate Unbiased<T>(prob: (T, T) -> real, a: T, b: T) {
    prob(a, b) + prob(b, a) == 1.0
  }

  /** Wherever they stand in a slate, candidates keep their one-directional scores. */
  ghost predicate RawIgnoresOrder<T(!new)>(prob: (T, T) -> real, docs: seq<T>) {
    forall shuffled, x: nat, y: nat ::
      multiset(docs) == multiset(shuffled) && x < |docs| && y < |shuffled| && docs[x] == shuffled[y]
      ==> RawWins(prob, docs, x) == RawWins(prob, shuffled, y)
  }

  lemma TwoPlaces<T>(s: seq<T>, i: nat, j: nat)
    requires i < |s| && j < |s| && i != j
    ensures s[i] in multiset(s) && s[j] in multiset(s) - multiset{s[i]}
  {
    WithoutElement(s, i);
    var rest := s[..i] + s[i + 1..];
    assert s[j] == rest[if j < i then j else j - 1];
    assert s[j] in rest;
  }

  lemma {:induction false} ComplementaryTakesAlike<T(!new)>(prob: (T, T) -> real, docs: seq<T>, z: nat, n: nat)
    requires z < |docs| && n <= |docs| && Complementary(prob, multiset(docs))
    ensures TakenOneWay(prob, docs, z, n) == Taken(prob, docs, z, n)
  {
    if n == 0 {
    } else {
      ComplementaryTakesAlike(prob, docs, z, n - 1);
      if z != n - 1 {
        TwoPlaces(docs, z, n - 1);
        assert Unbiased(prob, docs[z], docs[n - 1]);
      }
    }
  }

  /** Two slates that agree from place 2 on hand their first two places the same there. */
  lemma {:induction false} SameFromTwoOn<T>(prob: (T, T) -> real, s: seq<T>, t: seq<T>, n: nat)
    requires 2 <= n <= |s| == |t| && s[2..] == t[2..] && s[0] == t[1]
    ensures TakenOneWay(prob, s, 0, n) - TakenOneWay(prob, s, 0, 2)
         == TakenOneWay(prob, t, 1, n) - TakenOneWay(prob, t, 1, 2)
  {
    if n == 2 {
    } else {
      SameFromTwoOn(prob, s, t, n - 1);
      assert s[2..][n - 3] == t[2..][n - 3];
    }
  }

  lemma FirstTwoPlaces<T>(prob: (T, T) -> real, s: seq<T>)
    requires |s| >= 2
    ensures TakenOneWay(prob, s, 0, 2) == prob(s[0], s[1])
    ensures TakenOneWay(prob, s, 1, 2) == 1.0 - prob(s[0], s[1])
  {
    assert TakenOneWay(prob, s, 0, 0) == TakenOneWay(prob, s, 0, 1) == 0.0;
    assert TakenOneWay(prob, s, 1, 1) == 1.0 - prob(s[0], s[1]);
  }

  /** A slate whose candidates keep their scores has complementary preferences: put any two of them
      first, in either order. */
  lemma FairMeansUnbiased<T(!new)>(prob: (T, T) -> real, docs: seq<T>, a: T, b: T)
    requires RawIgnoresOrder(prob, docs) && a in multiset(docs) && b in multiset(docs) - multiset{a}
    ensures Unbiased(prob, a, b)
  {
    var rest := FrontTwo(docs, a, b);
    var s, t := [a, b] + rest, [b, a] + rest;
    var x: nat :| x < |docs| && docs[x] == a;
    assert s[0] == docs[x] == t[1] && s[2..] == rest == t[2..];
    assert RawWins(prob, docs, x) == RawWins(prob, s, 0) == RawWins(prob, t, 1);
    SameFromTwoOn(prob, s, t, |s|);
    FirstTwoPlaces(prob, s);
    FirstTwoPlaces(prob, t);
  }

  lemma FrontTwo<T>(docs: seq<T>, a: T, b: T) returns (rest: seq<T>)
    requires a in multiset(docs) && b in multiset(docs) - multiset{a}
    ensures multiset([a, b] + rest) == multiset(docs) == multiset([b, a] + rest)
  {
    var i: nat :| i < |docs| && docs[i] == a;
    WithoutElement(docs, i);
    var others := docs[..i] + docs[i + 1..];
    assert b in others;
    var j: nat :| j < |others| && others[j] == b;
    WithoutElement(others, j);
    rest := others[..j] + others[j + 1..];
    TwoInFront(a, b, rest);
    TwoInFront(b, a, rest);
    PutBack(multiset(docs), a, b);
  }

  lemma PutBack<T>(m: multiset<T>, a: T, b: T)
    requires a in m && b in m - multiset{a}
    ensures m - multiset{a} - multiset{b} + multiset{b} + multiset{a} == m
    ensures m - multiset{a} - multiset{b} + multiset{a} + multiset{b} == m
  {
  }

  lemma TwoInFront<T>(a: T, b: T, rest: seq<T>)
    ensures multiset([a, b] + rest) == multiset(rest) + multiset{b} + multiset{a}
  {
    assert [a, b] + rest == [a] + ([b] + rest);
  }

  /** The one-directional score is independent of where candidates stand exactly when the model's two
      presentations of every two candidates of the slate are complementary. */
  lemma RawWinsFairExactly<T(!new)>(prob: (T, T) -> real, docs: seq<T>)
    ensures RawIgnoresOrder(prob, docs) <==> Complementary(prob, multiset(docs))
  {
    if RawIgnoresOrder(prob, docs) {
      forall a, b | a in multiset(docs) && b in multiset(docs) - multiset{a} ensures Unbiased(prob, a, b) {
        FairMeansUnbiased(prob, docs, a, b);
      }
    }
    if Complementary(prob, multiset(docs)) {
      forall shuffled, x: nat, y: nat |
        multiset(docs) == multiset(shuffled) && x < |docs| && y < |shuffled| && docs[x] == shuffled[y]
        ensures RawWins(prob, docs, x) == RawWins(prob, shuffled, y)
      {
        ComplementaryTakesAlike(prob, docs, x, |docs|);
        ComplementaryTakesAlike(prob, shuffled, y, |shuffled|);
        WinsIgnoreOrder(prob, docs, shuffled, x, y);
      }
    }
  }

  /** On every slate there could be, then, only for a model whose two presentations always add up to one. */
  lemma RawWinsAlwaysFair<T(!new)>(prob: (T, T) -> real)
    ensures (forall docs: seq<T> :: RawIgnoresOrder(prob, docs)) <==> (forall a, b :: Unbiased(prob, a, b))
  {
    hide RawIgnoresOrder;
    if forall docs: seq<T> :: RawIgnoresOrder(prob, docs) {
      forall a, b ensures Unbiased(prob, a, b) {
        RawWinsFairExactly(prob, [a, b]);
        TwoPlaces([a, b], 0, 1);
      }
    }
    if forall a, b :: Unbiased(prob, a, b) {
      forall docs: seq<T> ensures RawIgnoresOrder(prob, docs) {
        RawWinsFairExactly(prob, docs);
      }
    }
  }

  /** The scores, one opponent at a time: alone, nothing; and a new last candidate adds half of what the model
      gives one over it and half of what it is denied, and the same for it the other way round. */
  lemma WinsMean<T>(prob: (T, T) -> real, docs: seq<T>, d: T, z: nat)
    requires z < |docs|
    ensures Wins(prob, [d], 0) == RawWins(prob, [d], 0) == 0.0
    ensures Wins(prob, docs + [d], z) == Wins(prob, docs, z) + (prob(docs[z], d) + 1.0 - prob(d, docs[z])) / 2.0
    ensures RawWins(prob, docs + [d], z) == RawWins(prob, docs, z) + prob(docs[z], d)
  {
    var all, n := docs + [d], |docs|;
    assert Taken(prob, [d], 0, 0) == TakenOneWay(prob, [d], 0, 0) == 0.0;
    TakenFromSame(prob, docs, all, z, n);
    assert all[z] == docs[z] && all[n] == d;
    assert Taken(prob, all, z, n + 1) == Taken(prob, all, z, n) + Symmetric(prob, all[z], all[n]);
    assert TakenOneWay(prob, all, z, n + 1) == TakenOneWay(prob, all, z, n) + OneWay(prob, all, z, n);
  }

  lemma {:induction false} TakenFromSame<T>(prob: (T, T) -> real, docs: seq<T>, all: seq<T>, z: nat, n: nat)
    requires z < |docs| <= |all| && docs == all[..|docs|] && n <= |docs|
    ensures Taken(prob, docs, z, n) == Taken(prob, all, z, n)
    ensures TakenOneWay(prob, docs, z, n) == TakenOneWay(prob, all, z, n)
  {
    if n == 0 {
    } else {
      TakenFromSame(prob, docs, all, z, n - 1);
      assert docs[z] == all[z] && docs[n - 1] == all[n - 1];
    }
  }

  /** The newcomer's own scores. */
  lemma {:induction false} NewcomersWins<T>(prob: (T, T) -> real, docs: seq<T>, d: T, n: nat)
    requires n <= |docs|
    ensures Taken(prob, docs + [d], |docs|, n) == Denied(prob, docs, d, n, true)
    ensures TakenOneWay(prob, docs + [d], |docs|, n) == Denied(prob, docs, d, n, false)
  {
    if n == 0 {
    } else {
      NewcomersWins(prob, docs, d, n - 1);
      assert (docs + [d])[n - 1] == docs[n - 1] && (docs + [d])[|docs|] == d;
    }
  }

  /** Per opponent, one less what the model gives the opponent over d when shown first, or the mean of that and
      of what it gives d when d is shown first. */
  ghost function Denied<T>(prob: (T, T) -> real, docs: seq<T>, d: T, n: nat, both: bool): real
    requires n <= |docs|
  {
    if n == 0 then 0.0
    else
      var denied := 1.0 - prob(docs[n - 1], d);
      Denied(prob, docs, d, n - 1, both) + if both then (prob(d, docs[n - 1]) + denied) / 2.0 else denied
  }

  /** A model that always prefers whichever candidate it is shown first. */
  function FirstAlways(a: nat, b: nat): real {
    1.0
  }

  /** The one-directional score is not fair: shuffling two candidates moves the point, while the
      symmetrised score leaves both at one half. */
  lemma RawWinsFollowPosition()
    ensures RawWins(FirstAlways, [7, 8], 0) == 1.0 && RawWins(FirstAlways, [8, 7], 1) == 0.0
    ensures Wins(FirstAlways, [7, 8], 0) == 0.5 == Wins(FirstAlways, [8, 7], 1)
  {
    assert TakenOneWay(FirstAlways, [7, 8], 0, 1) == 0.0;
    assert TakenOneWay(FirstAlways, [8, 7], 1, 1) == 0.0;
    assert Taken(FirstAlways, [7, 8], 0, 1) == 0.0;
    assert Taken(FirstAlways, [8, 7], 1, 1) == 0.5;
  }
}
