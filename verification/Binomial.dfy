/** Binomial coefficients, their lower tails, and the coin flips they count. */
module Binomial {

  /** `math.comb(n, k)`, by Pascal's rule. */
  function Comb(n: nat, k: nat): nat {
    if k == 0 then 1 else if n == 0 then 0 else Comb(n - 1, k - 1) + Comb(n - 1, k)
  }

  function Pow2(n: nat): (p: nat)
    ensures p > 0
  {
    if n == 0 then 1 else 2 * Pow2(n - 1)
  }

  /** `sum(math.comb(n, i) for i in range(k + 1))`. */
  function Tail(n: nat, k: nat): nat {
    if k == 0 then Comb(n, 0) else Tail(n, k - 1) + Comb(n, k)
  }

  lemma {:induction false} CombRange(n: nat, k: nat)
    ensures k > n ==> Comb(n, k) == 0
    ensures k <= n ==> Comb(n, k) > 0
    ensures Comb(n, n) == 1
  {
    if n == 0 {
    } else {
      CombRange(n - 1, k);
      CombRange(n - 1, n);
      CombRange(n - 1, n - 1);
      if k > 0 { CombRange(n - 1, k - 1); }
    }
  }

  lemma {:induction false} CombSymmetric(n: nat, k: nat)
    requires k <= n
    ensures Comb(n, k) == Comb(n, n - k)
  {
    CombRange(n, n);
    if 0 < k < n {
      CombSymmetric(n - 1, k - 1);
      CombSymmetric(n - 1, k);
    }
  }

  function Factorial(n: nat): nat {
    if n == 0 then 1 else n * Factorial(n - 1)
  }

  /** Pascal's rule and the factorial formula agree. */
  lemma {:induction false} CombIsFactorialRatio(n: nat, k: nat)
    requires k <= n
    ensures Comb(n, k) * (Factorial(k) * Factorial(n - k)) == Factorial(n)
  {
    CombRange(n, n);
    if 0 < k < n {
      CombIsFactorialRatio(n - 1, k - 1);
      CombIsFactorialRatio(n - 1, k);
      PascalStep(n, k, Comb(n - 1, k - 1), Comb(n - 1, k), Factorial(k - 1), Factorial(n - 1 - k), Factorial(n - 1));
    }
  }

  lemma PascalStep(n: nat, k: nat, a: nat, b: nat, f: nat, g: nat, h: nat)
    requires 0 < k < n
    requires a * (f * ((n - k) * g)) == h && b * ((k * f) * g) == h
    ensures (a + b) * ((k * f) * ((n - k) * g)) == n * h
  {
    var m := n - k;
    calc {
      (a + b) * ((k * f) * (m * g));
      a * ((k * f) * (m * g)) + b * ((k * f) * (m * g));
      { assert a * ((k * f) * (m * g)) == k * (a * (f * (m * g))); }
      k * h + b * ((k * f) * (m * g));
      { assert b * ((k * f) * (m * g)) == m * (b * ((k * f) * g)); }
      k * h + m * h;
      (k + m) * h;
    }
  }

  lemma {:induction false} TailPascal(n: nat, k: nat)
    requires n > 0 && k > 0
    ensures Tail(n, k) == Tail(n - 1, k) + Tail(n - 1, k - 1)
  {
    if k > 1 { TailPascal(n, k - 1); }
  }

  lemma {:induction false} TailIsAll(n: nat)
    ensures Tail(n, n) == Pow2(n)
  {
    if n == 0 {
    } else {
      TailPascal(n, n);
      TailIsAll(n - 1);
      CombRange(n - 1, n);
    }
  }

  /** The lower tail up to k and the lower tail up to n - k - 1 are everything. */
  lemma {:induction false} TailComplement(n: nat, k: nat)
    requires k < n
    ensures Tail(n, k) + Tail(n, n - k - 1) == Pow2(n)
  {
    TailIsAll(n);
    if k == 0 {
      CombRange(n, n);
    } else {
      TailComplement(n, k - 1);
      CombSymmetric(n, k);
    }
  }

  lemma {:induction false} TailGrows(n: nat, j: nat, k: nat)
    requires j < k <= n
    ensures Tail(n, j) < Tail(n, k)
  {
    CombRange(n, k);
    if j < k - 1 { TailGrows(n, j, k - 1); }
  }

  lemma {:induction false} TailPositive(n: nat, k: nat)
    ensures Tail(n, k) >= 1
  {
    if k == 0 {
    } else {
      TailPositive(n, k - 1);
    }
  }

  /** Twice the tail up to k falls short of, meets or exceeds the whole as n - 2k is above, at or
      below one. */
  lemma TwiceTail(n: nat, k: nat)
    requires 2 * k <= n
    ensures n >= 2 * k + 2 ==> 2 * Tail(n, k) < Pow2(n)
    ensures n == 2 * k + 1 ==> 2 * Tail(n, k) == Pow2(n)
    ensures n == 2 * k ==> 2 * Tail(n, k) > Pow2(n)
  {
    if k < n {
      TailComplement(n, k);
      if n >= 2 * k + 2 { TailGrows(n, k, n - k - 1); }
      if n == 2 * k { TailGrows(n, k - 1, k); }
    }
  }

  // ---- coin flips ----------------------------------------------------------------------------------

  function Prepend(b: bool, s: seq<seq<bool>>): (r: seq<seq<bool>>)
    ensures |r| == |s| && forall i :: 0 <= i < |r| ==> r[i] == [b] + s[i]
  {
    seq(|s|, i requires 0 <= i < |s| => [b] + s[i])
  }

  /** Every sequence of n fair flips, each once. */
  function Flips(n: nat): seq<seq<bool>> {
    if n == 0 then [[]] else Prepend(true, Flips(n - 1)) + Prepend(false, Flips(n - 1))
  }

  function Heads(f: seq<bool>): nat {
    if f == [] then 0 else (if f[0] then 1 else 0) + Heads(f[1..])
  }

  /** How many of the given outcomes have exactly h heads. */
  function WithHeads(fs: seq<seq<bool>>, h: int): nat {
    if fs == [] then 0 else (if Heads(fs[0]) == h then 1 else 0) + WithHeads(fs[1..], h)
  }

  lemma {:induction false} WithHeadsAppend(a: seq<seq<bool>>, b: seq<seq<bool>>, h: int)
    ensures WithHeads(a + b, h) == WithHeads(a, h) + WithHeads(b, h)
  {
    if a == [] { assert a + b == b; }
    else { assert (a + b)[1..] == a[1..] + b; WithHeadsAppend(a[1..], b, h); }
  }

  lemma {:induction false} WithHeadsPrepend(b: bool, s: seq<seq<bool>>, h: int)
    ensures WithHeads(Prepend(b, s), h) == WithHeads(s, if b then h - 1 else h)
  {
    if s == [] {
    } else {
      assert Prepend(b, s)[1..] == Prepend(b, s[1..]);
      assert ([b] + s[0])[1..] == s[0];
      WithHeadsPrepend(b, s[1..], h);
    }
  }

  /** Binomial coefficients count flips. */
  lemma {:induction false} FlipsCount(n: nat, h: int)
    ensures WithHeads(Flips(n), h) == if h < 0 then 0 else Comb(n, h)
    ensures |Flips(n)| == Pow2(n)
  {
    hide WithHeads, Comb;
    if n == 0 {
      NoFlips(h);
    } else {
      FlipsCount(n - 1, h);
      FlipsCount(n - 1, h - 1);
      WithHeadsPrepend(true, Flips(n - 1), h);
      WithHeadsPrepend(false, Flips(n - 1), h);
      WithHeadsAppend(Prepend(true, Flips(n - 1)), Prepend(false, Flips(n - 1)), h);
      if h >= 0 { PascalsRule(n, h); }
    }
  }

  lemma NoFlips(h: int)
    ensures WithHeads([[]], h) == if h < 0 then 0 else Comb(0, h)
  {
    var nothing: seq<seq<bool>> := [[]];
    assert nothing[1..] == [];
  }

  lemma PascalsRule(n: nat, h: nat)
    requires n > 0
    ensures Comb(n, h) == Comb(n - 1, h) + if h > 0 then Comb(n - 1, h - 1) else 0
  {
    CombRange(n - 1, h);
  }

  /** An outcome of n flips whose rarer side comes up at most k times. */
  predicate Lopsided(n: nat, k: nat, h: nat) {
    h <= k || n <= h + k
  }

  function LopsidedCount(fs: seq<seq<bool>>, n: nat, k: nat): nat {
    if fs == [] then 0 else (if Lopsided(n, k, Heads(fs[0])) then 1 else 0) + LopsidedCount(fs[1..], n, k)
  }

  /** The same count, sorted by the number of heads up to m. */
  function LopsidedByHeads(fs: seq<seq<bool>>, n: nat, k: nat, m: nat): nat {
    (if Lopsided(n, k, m) then WithHeads(fs, m) else 0) + if m == 0 then 0 else LopsidedByHeads(fs, n, k, m - 1)
  }

  lemma {:induction false} ByHeadsStep(fs: seq<seq<bool>>, n: nat, k: nat, m: nat)
    requires fs != []
    ensures LopsidedByHeads(fs, n, k, m)
         == LopsidedByHeads(fs[1..], n, k, m) + if Heads(fs[0]) <= m && Lopsided(n, k, Heads(fs[0])) then 1 else 0
  {
    if m == 0 {
    } else {
      ByHeadsStep(fs, n, k, m - 1);
    }
  }

  lemma {:induction false} ByHeadsIsCount(fs: seq<seq<bool>>, n: nat, k: nat)
    requires forall i :: 0 <= i < |fs| ==> |fs[i]| == n
    ensures LopsidedByHeads(fs, n, k, n) == LopsidedCount(fs, n, k)
  {
    if fs == [] {
      ByHeadsOfNone(n, k, n);
    } else {
      ByHeadsStep(fs, n, k, n);
      ByHeadsIsCount(fs[1..], n, k);
      HeadsBound(fs[0]);
    }
  }

  lemma {:induction false} ByHeadsOfNone(n: nat, k: nat, m: nat)
    ensures LopsidedByHeads([], n, k, m) == 0
  {
    if m == 0 {
    } else {
      ByHeadsOfNone(n, k, m - 1);
    }
  }

  lemma {:induction false} HeadsBound(f: seq<bool>)
    ensures Heads(f) <= |f|
  {
    if f == [] {
    } else {
      HeadsBound(f[1..]);
    }
  }

  lemma {:induction false} FlipsLength(n: nat)
    ensures forall i :: 0 <= i < |Flips(n)| ==> |Flips(n)[i]| == n
  {
    if n == 0 {
    } else {
      FlipsLength(n - 1);
    }
  }

  lemma {:induction false} ByHeadsIsTails(n: nat, k: nat, m: nat)
    requires 2 * k < n && m <= n
    ensures LopsidedByHeads(Flips(n), n, k, m)
         == if m <= k then Tail(n, m)
            else if m < n - k then Tail(n, k)
            else Tail(n, k) + Tail(n, m) - Tail(n, n - k - 1)
  {
    FlipsCount(n, m);
    if m == 0 {
    } else {
      ByHeadsIsTails(n, k, m - 1);
    }
  }

  lemma {:induction false} ByHeadsIsAll(n: nat, k: nat, m: nat)
    requires 2 * k >= n
    ensures LopsidedByHeads(Flips(n), n, k, m) == Tail(n, m)
  {
    FlipsCount(n, m);
    if m == 0 {
    } else {
      ByHeadsIsAll(n, k, m - 1);
    }
  }

  /** Twice the tail, capped at everything, counts the outcomes at least as lopsided as k. */
  lemma LopsidedIsTwiceTail(n: nat, k: nat)
    requires 2 * k <= n
    ensures LopsidedCount(Flips(n), n, k) == if n == 2 * k then Pow2(n) else 2 * Tail(n, k)
  {
    FlipsLength(n);
    ByHeadsIsCount(Flips(n), n, k);
    TailIsAll(n);
    if n == 2 * k {
      ByHeadsIsAll(n, k, n);
    } else {
      ByHeadsIsTails(n, k, n);
      TailComplement(n, k);
    }
  }
}
