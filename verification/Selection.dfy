/** Which candidate turns become negatives for one (query, gold turn, class): the ranked walk and
    the filtered, capped, per-session-limited selection, stated without the loop. */
module Selection {
  import opened Options
  import opened Sorting
  import opened Text

  /** What the answer matcher says about a turn; which of its two matchers fired is recorded. */
  datatype Match = NoMatch | Exact | TokenSubset

  /** A turn record of one query's haystack, with the two facts the miner reads off it:
      `overlap`, the content words it shares with the question, and `how`, the matcher's verdict. */
  datatype Turn = Turn(id: string, sid: string, idx: int, role: string, text: string,
                       gold: bool, overlap: nat, how: Match)

  // ---- the ranked walk -----------------------------------------------------------------------------

  /** `overlap_key`: overlap descending, shorter text first, turn id ascending. */
  predicate KeyLeq(a: Turn, b: Turn) {
    a.overlap > b.overlap ||
    (a.overlap == b.overlap && (|a.text| < |b.text| || (|a.text| == |b.text| && Leq(a.id, b.id))))
  }

  function Walk(turns: seq<Turn>): seq<Turn> {
    SortBy(turns, (a: Turn, b: Turn) => KeyLeq(a, b))
  }

  lemma KeyOrder()
    ensures TotalPreorder((a: Turn, b: Turn) => KeyLeq(a, b))
  {
    forall a: Turn, b: Turn ensures KeyLeq(a, b) || KeyLeq(b, a) {
      LeqTotal(a.id, b.id);
    }
    forall a: Turn, b: Turn, c: Turn | KeyLeq(a, b) && KeyLeq(b, c) ensures KeyLeq(a, c) {
      if Leq(a.id, b.id) && Leq(b.id, c.id) { LeqTransitive(a.id, b.id, c.id); }
    }
  }

  ghost predicate DistinctIds(turns: seq<Turn>) {
    forall i, j :: 0 <= i < j < |turns| ==> turns[i].id != turns[j].id
  }

  lemma WalkIsStrict(turns: seq<Turn>)
    requires DistinctIds(turns)
    ensures Chain(Walk(turns), (a: Turn, b: Turn) => KeyLeq(a, b) && !KeyLeq(b, a))
  {
    var le := (a: Turn, b: Turn) => KeyLeq(a, b);
    var apart := (a: Turn, b: Turn) => a.id != b.id;
    KeyOrder();
    SortRefines(turns, le, apart);
    var w := Walk(turns);
    forall i, j | 0 <= i < j < |w| ensures KeyLeq(w[i], w[j]) && !KeyLeq(w[j], w[i]) {
      assert Refine(le, apart)(w[i], w[j]);
      if KeyLeq(w[j], w[i]) { LeqAntisymmetric(w[i].id, w[j].id); }
    }
  }

  /** The walk, read off its turns: overlap never rises, then text never gets shorter, then ids rise. */
  lemma WalkFalls(turns: seq<Turn>, i: nat, j: nat)
    requires i < j < |Walk(turns)|
    ensures var a, b := Walk(turns)[i], Walk(turns)[j];
            && a.overlap >= b.overlap
            && (a.overlap == b.overlap ==> |a.text| <= |b.text|)
            && (a.overlap == b.overlap && |a.text| == |b.text| ==> Leq(a.id, b.id))
    ensures multiset(Walk(turns)) == multiset(turns)
  {
    KeyOrder();
    SortOrders(turns, (a: Turn, b: Turn) => KeyLeq(a, b));
  }

  /** The key is total over turns with distinct ids, so the walk is reproducible: it does not
      depend on the order the haystack is read in. */
  lemma WalkIsReproducible(turns: seq<Turn>, shuffled: seq<Turn>)
    requires DistinctIds(turns) && DistinctIds(shuffled) && multiset(turns) == multiset(shuffled)
    ensures Walk(turns) == Walk(shuffled)
  {
    var rel := (a: Turn, b: Turn) => KeyLeq(a, b) && !KeyLeq(b, a);
    WalkIsStrict(turns);
    WalkIsStrict(shuffled);
    var w, v := Walk(turns), Walk(shuffled);
    assert Chain(w, rel) && Chain(v, rel);
    ChainUnique(w, v, rel);
  }

  // ---- the selection -----------------------------------------------------------------------------------

  /** Neither gold, nor stating the answer, nor from a held-out haystack. */
  predicate Eligible(held: set<string>, t: Turn) {
    !t.gold && t.how.NoMatch? && t.sid !in held
  }

  /** How many of the first k turns are eligible and come from session `sid`. */
  function Drawn(walk: seq<Turn>, held: set<string>, k: nat, sid: string): nat
    requires k <= |walk|
  {
    if k == 0 then 0 else
    Drawn(walk, held, k - 1, sid) + if Eligible(held, walk[k - 1]) && walk[k - 1].sid == sid then 1 else 0
  }

  /** Turn k survives the filters and the per-session limit. */
  predicate Kept(walk: seq<Turn>, held: set<string>, lim: Option<nat>, k: nat)
    requires k < |walk|
  {
    Eligible(held, walk[k]) && (lim.Some? ==> Drawn(walk, held, k, walk[k].sid) < lim.value)
  }

  function KeptOf(walk: seq<Turn>, held: set<string>, lim: Option<nat>, k: nat): (r: seq<Turn>)
    requires k <= |walk|
    ensures |r| <= k
  {
    if k == 0 then [] else
    KeptOf(walk, held, lim, k - 1) + if Kept(walk, held, lim, k - 1) then [walk[k - 1]] else []
  }

  function First<T>(n: nat, s: seq<T>): seq<T> {
    if n <= |s| then s[..n] else s
  }

  /** The negatives: the first `cap` surviving turns of the walk. */
  function Chosen(walk: seq<Turn>, held: set<string>, lim: Option<nat>, cap: nat): seq<Turn> {
    First(cap, KeptOf(walk, held, lim, |walk|))
  }

  lemma {:induction false} KeptGrows(walk: seq<Turn>, held: set<string>, lim: Option<nat>, j: nat, k: nat)
    requires j <= k <= |walk|
    ensures KeptOf(walk, held, lim, j) <= KeptOf(walk, held, lim, k)
    decreases k - j
  {
    if j < k { KeptGrows(walk, held, lim, j, k - 1); }
  }

  /** Stopping as soon as the cap is reached loses nothing. */
  lemma StoppingEarly(walk: seq<Turn>, held: set<string>, lim: Option<nat>, cap: nat, k: nat)
    requires k <= |walk| && |KeptOf(walk, held, lim, k)| <= cap
    requires k == |walk| || |KeptOf(walk, held, lim, k)| == cap
    ensures Chosen(walk, held, lim, cap) == KeptOf(walk, held, lim, k)
  {
    KeptGrows(walk, held, lim, k, |walk|);
  }

  lemma {:induction false} KeptAreEligible(walk: seq<Turn>, held: set<string>, lim: Option<nat>, k: nat)
    requires k <= |walk|
    ensures forall t :: t in KeptOf(walk, held, lim, k) ==> Eligible(held, t) && t in walk
  {
    if k == 0 {
    } else {
      KeptAreEligible(walk, held, lim, k - 1);
    }
  }

  function FromSession(turns: seq<Turn>, sid: string): nat {
    if turns == [] then 0
    else FromSession(turns[..|turns| - 1], sid) + if turns[|turns| - 1].sid == sid then 1 else 0
  }

  lemma FromSessionSnoc(turns: seq<Turn>, t: Turn, sid: string)
    ensures FromSession(turns + [t], sid) == FromSession(turns, sid) + if t.sid == sid then 1 else 0
  {
    assert (turns + [t])[..|turns|] == turns;
  }

  function Limited(n: nat, lim: Option<nat>): nat {
    if lim.Some? && n > lim.value then lim.value else n
  }

  /** Each session contributes every eligible turn it has, up to the limit. */
  lemma {:induction false} KeptPerSession(walk: seq<Turn>, held: set<string>, lim: Option<nat>, k: nat, sid: string)
    requires k <= |walk|
    ensures FromSession(KeptOf(walk, held, lim, k), sid) == Limited(Drawn(walk, held, k, sid), lim)
  {
    if k == 0 {
    } else {
      KeptPerSession(walk, held, lim, k - 1, sid);
      var before := KeptOf(walk, held, lim, k - 1);
      if Kept(walk, held, lim, k - 1) {
        FromSessionSnoc(before, walk[k - 1], sid);
      } else {
        assert before + [] == before;
      }
    }
  }

  lemma {:induction false} PrefixFromSession(turns: seq<Turn>, n: nat, sid: string)
    requires n <= |turns|
    ensures FromSession(turns[..n], sid) <= FromSession(turns, sid)
    decreases |turns|
  {
    if n < |turns| {
      var init := turns[..|turns| - 1];
      assert init[..n] == turns[..n];
      PrefixFromSession(init, n, sid);
    } else {
      assert turns[..n] == turns;
    }
  }

  /** `at` are the places of the walk, in order, that hold the chosen turns. */
  ghost predicate Located(at: seq<nat>, walk: seq<Turn>, chosen: seq<Turn>) {
    && |at| == |chosen|
    && (forall i :: 0 <= i < |at| ==> at[i] < |walk| && walk[at[i]] == chosen[i])
    && (forall i, j :: 0 <= i < j < |at| ==> at[i] < at[j])
  }

  /** Turn k is gold, states the answer or is held out, or its session has given all it may to the turns
      chosen before it. */
  ghost predicate PassedOver(walk: seq<Turn>, held: set<string>, lim: Option<nat>, chosen: seq<Turn>, at: seq<nat>, k: nat)
    requires k < |walk| && |at| == |chosen|
  {
    || walk[k].gold || walk[k].how != NoMatch || walk[k].sid in held
    || (lim.Some? && exists n :: 0 <= n <= |at| && Before(at, n, k) && FromSession(chosen[..n], walk[k].sid) >= lim.value)
  }

  ghost predicate Before(at: seq<nat>, n: int, k: nat)
    requires 0 <= n <= |at|
  {
    forall i :: 0 <= i < n ==> at[i] < k
  }

  lemma LocatedSnoc(at: seq<nat>, walk: seq<Turn>, kept: seq<Turn>, k: nat)
    requires k < |walk| && Located(at, walk[..k], kept)
    ensures Located(at, walk, kept) && Located(at + [k], walk, kept + [walk[k]]) && Before(at, |at|, k)
    ensures Located(at, walk[..k + 1], kept) && Located(at + [k], walk[..k + 1], kept + [walk[k]])
  {
    assert forall i :: 0 <= i < |at| ==> walk[..k][at[i]] == walk[at[i]];
  }

  lemma DroppedForCause(walk: seq<Turn>, held: set<string>, lim: Option<nat>, k: nat, at: seq<nat>)
    requires k < |walk| && !Kept(walk, held, lim, k) && Located(at, walk[..k], KeptOf(walk, held, lim, k))
    ensures PassedOver(walk, held, lim, KeptOf(walk, held, lim, k), at, k)
  {
    var kept := KeptOf(walk, held, lim, k);
    KeptPerSession(walk, held, lim, k, walk[k].sid);
    hide KeptOf, Drawn, FromSession;
    assert kept[..|at|] == kept;
    assert Before(at, |at|, k);
  }

  /** Nothing among the first k turns is passed over but for cause, and nothing is taken out of turn. */
  ghost predicate Explained(walk: seq<Turn>, held: set<string>, lim: Option<nat>, k: nat, kept: seq<Turn>, at: seq<nat>)
    requires k <= |walk|
  {
    && Located(at, walk[..k], kept)
    && forall i: nat :: i < k && i !in at ==> PassedOver(walk, held, lim, kept, at, i)
  }

  lemma ExplainedTaken(walk: seq<Turn>, held: set<string>, lim: Option<nat>, k: nat, kept: seq<Turn>, at: seq<nat>)
    requires k < |walk| && Explained(walk, held, lim, k, kept, at)
    ensures Explained(walk, held, lim, k + 1, kept + [walk[k]], at + [k])
  {
    LocatedSnoc(at, walk, kept, k);
    var now := at + [k];
    assert now[|at|] == k && forall x :: x in at ==> x in now;
    hide Located;
    forall i: nat | i < k + 1 && i !in now ensures PassedOver(walk, held, lim, kept + [walk[k]], now, i) {
      StillPassedOver(walk, held, lim, kept, at, kept + [walk[k]], now, i);
    }
  }

  lemma ExplainedDropped(walk: seq<Turn>, held: set<string>, lim: Option<nat>, k: nat, kept: seq<Turn>, at: seq<nat>)
    requires k < |walk| && Explained(walk, held, lim, k, kept, at) && PassedOver(walk, held, lim, kept, at, k)
    ensures Explained(walk, held, lim, k + 1, kept, at)
  {
    LocatedSnoc(at, walk, kept, k);
    hide Located, PassedOver;
  }

  /** The surviving turns among the first k, by their places in the walk. */
  lemma {:induction false} KeptInOrder(walk: seq<Turn>, held: set<string>, lim: Option<nat>, k: nat) returns (at: seq<nat>)
    requires k <= |walk|
    ensures Explained(walk, held, lim, k, KeptOf(walk, held, lim, k), at)
  {
    if k == 0 {
      at := [];
    } else {
      at := KeptInOrder(walk, held, lim, k - 1);
      var kept := KeptOf(walk, held, lim, k - 1);
      if Kept(walk, held, lim, k - 1) {
        ExplainedTaken(walk, held, lim, k - 1, kept, at);
        at := at + [k - 1];
      } else {
        DroppedForCause(walk, held, lim, k - 1, at);
        ExplainedDropped(walk, held, lim, k - 1, kept, at);
        assert kept + [] == kept;
      }
    }
  }

  lemma StillPassedOver(walk: seq<Turn>, held: set<string>, lim: Option<nat>, kept: seq<Turn>, before: seq<nat>,
                        now: seq<Turn>, at: seq<nat>, k: nat)
    requires k < |walk| && |before| == |kept| && |at| == |now| && kept <= now && before <= at
    requires PassedOver(walk, held, lim, kept, before, k)
    ensures PassedOver(walk, held, lim, now, at, k)
  {
    if lim.Some? {
      forall n | 0 <= n <= |before| && Before(before, n, k) ensures Before(at, n, k) && kept[..n] == now[..n] {
      }
    }
  }

  /** The negatives are taken from the walk in order, and every turn before the last of them, or every turn
      there is when the cap is not reached, is taken unless it is passed over for cause. */
  lemma ChosenInOrder(walk: seq<Turn>, held: set<string>, lim: Option<nat>, cap: nat) returns (at: seq<nat>)
    ensures Located(at, walk, Chosen(walk, held, lim, cap))
    ensures forall k: nat :: k < |walk| && k !in at && (|at| < cap || (at != [] && k < at[|at| - 1])) ==>
              PassedOver(walk, held, lim, Chosen(walk, held, lim, cap), at, k)
  {
    var all := KeptInOrder(walk, held, lim, |walk|);
    var kept := KeptOf(walk, held, lim, |walk|);
    assert walk[..|walk|] == walk;
    hide KeptOf;
    if |kept| <= cap {
      at := all;
      assert kept[..|kept|] == kept;
      assert Chosen(walk, held, lim, cap) == kept;
    } else {
      at := all[..cap];
      forall k: nat | k < |walk| && k !in at && at != [] && k < at[|at| - 1]
        ensures PassedOver(walk, held, lim, kept[..cap], at, k)
      {
        assert forall i :: 0 <= i < cap ==> at[i] == all[i];
        FewerPassedOver(walk, held, lim, kept, all, cap, k);
      }
    }
  }

  lemma FewerPassedOver(walk: seq<Turn>, held: set<string>, lim: Option<nat>, kept: seq<Turn>, all: seq<nat>, cap: nat, k: nat)
    requires Located(all, walk, kept) && 0 < cap <= |kept| && k < |walk| && k < all[cap - 1]
    requires PassedOver(walk, held, lim, kept, all, k)
    ensures PassedOver(walk, held, lim, kept[..cap], all[..cap], k)
  {
    if n :| lim.Some? && 0 <= n <= |all| && Before(all, n, k) && FromSession(kept[..n], walk[k].sid) >= lim.value {
      assert forall i :: 0 <= i < n ==> all[i] < k;
      assert n < cap;
      assert kept[..cap][..n] == kept[..n] && Before(all[..cap], n, k);
    }
  }

  /** The promises of the selection. */
  lemma ChosenProperties(walk: seq<Turn>, held: set<string>, lim: Option<nat>, cap: nat, sid: string)
    ensures var c := Chosen(walk, held, lim, cap);
            && |c| <= cap
            && (forall t :: t in c ==> t in walk && !t.gold && t.how.NoMatch? && t.sid !in held)
            && (lim.Some? ==> FromSession(c, sid) <= lim.value)
            && (|c| < cap ==> FromSession(c, sid) == Limited(Drawn(walk, held, |walk|, sid), lim))
  {
    var all := KeptOf(walk, held, lim, |walk|);
    KeptAreEligible(walk, held, lim, |walk|);
    KeptPerSession(walk, held, lim, |walk|, sid);
    hide KeptOf, FromSession, Drawn, Kept;
    if cap <= |all| {
      PrefixFromSession(all, cap, sid);
      assert forall t :: t in all[..cap] ==> t in all;
    }
  }

  // ---- what the counters count ---------------------------------------------------------------------------

  /** How many turns the loop looks at before it stops. */
  function Visited(walk: seq<Turn>, held: set<string>, lim: Option<nat>, cap: nat, k: nat): nat
    requires k <= |walk|
    decreases |walk| - k
  {
    if k == |walk| || |KeptOf(walk, held, lim, k)| >= cap then k else Visited(walk, held, lim, cap, k + 1)
  }

  /** Why a visited turn is not emitted; `Full` is the per-session limit, which no counter records. */
  datatype Fate = Gold | States | Leaks | Full | Emitted

  function FateOf(walk: seq<Turn>, held: set<string>, lim: Option<nat>, k: nat): Fate
    requires k < |walk|
  {
    var t := walk[k];
    if t.gold then Gold else if !t.how.NoMatch? then States else if t.sid in held then Leaks
    else if Kept(walk, held, lim, k) then Emitted else Full
  }

  function Tally(walk: seq<Turn>, held: set<string>, lim: Option<nat>, fate: Fate, k: nat): nat
    requires k <= |walk|
  {
    if k == 0 then 0 else
    Tally(walk, held, lim, fate, k - 1) + if FateOf(walk, held, lim, k - 1) == fate then 1 else 0
  }

  /** Every visited turn meets exactly one fate, and the emitted ones are the chosen ones. */
  lemma {:induction false} FatesPartition(walk: seq<Turn>, held: set<string>, lim: Option<nat>, k: nat)
    requires k <= |walk|
    ensures Tally(walk, held, lim, Gold, k) + Tally(walk, held, lim, States, k) + Tally(walk, held, lim, Leaks, k)
            + Tally(walk, held, lim, Full, k) + Tally(walk, held, lim, Emitted, k) == k
    ensures Tally(walk, held, lim, Emitted, k) == |KeptOf(walk, held, lim, k)|
  {
    if k == 0 {
    } else {
      FatesPartition(walk, held, lim, k - 1);
    }
  }

  /** One turn further: what changes in every quantity the loop tracks, by the turn's fate. */
  lemma OneTurn(walk: seq<Turn>, held: set<string>, lim: Option<nat>, cap: nat, k: nat)
    requires k < |walk| && |KeptOf(walk, held, lim, k)| < cap
    ensures var f := FateOf(walk, held, lim, k);
            && KeptOf(walk, held, lim, k + 1) == KeptOf(walk, held, lim, k) + (if f.Emitted? then [walk[k]] else [])
            && (forall g :: Tally(walk, held, lim, g, k + 1) == Tally(walk, held, lim, g, k) + if f == g then 1 else 0)
            && (forall s :: Limited(Drawn(walk, held, k + 1, s), lim)
                            == Limited(Drawn(walk, held, k, s), lim) + if f.Emitted? && s == walk[k].sid then 1 else 0)
    ensures Visited(walk, held, lim, cap, k) == Visited(walk, held, lim, cap, k + 1)
    ensures var full := lim.Some? && Limited(Drawn(walk, held, k, walk[k].sid), lim) >= lim.value;
            FateOf(walk, held, lim, k) ==
              if walk[k].gold then Gold else if !walk[k].how.NoMatch? then States else if walk[k].sid in held then Leaks
              else if full then Full else Emitted
  {
  }

  lemma NoTurns(walk: seq<Turn>, held: set<string>, lim: Option<nat>)
    ensures KeptOf(walk, held, lim, 0) == []
    ensures forall g :: Tally(walk, held, lim, g, 0) == 0
    ensures forall s :: Limited(Drawn(walk, held, 0, s), lim) == 0
  {
  }

  lemma VisitedEnds(walk: seq<Turn>, held: set<string>, lim: Option<nat>, cap: nat, k: nat)
    requires k <= |walk| && (k == |walk| || |KeptOf(walk, held, lim, k)| >= cap)
    ensures Visited(walk, held, lim, cap, k) == k
  {
  }
}
