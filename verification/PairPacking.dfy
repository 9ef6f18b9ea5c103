/** `encode_triple`: question and two candidates packed into one fixed-length input, truncating
    the longer candidate one token at a time and never the question. */
module PairPacking {

  function HalfUp(room: nat): nat {
    (room + 1) / 2
  }

  /** How much of the second candidate survives, in closed form. */
  function KeptB(a: nat, b: nat, room: int): nat {
    if a + b <= room then b
    else if room <= 0 then 0
    else
      var fair := if room - a > HalfUp(room) then room - a else HalfUp(room);
      if b <= fair then b else fair
  }

  /** The first candidate takes what the second leaves. */
  function KeptA(a: nat, b: nat, room: int): nat {
    if a + b <= room then a
    else if room <= 0 then 0
    else
      KeptFits(a, b, room);
      room - KeptB(a, b, room)
  }

  lemma KeptFits(a: nat, b: nat, room: int)
    requires a + b > room > 0
    ensures KeptB(a, b, room) <= b && 0 <= room - KeptB(a, b, room) <= a
  {
  }

  /** One pop of the loop does not move the closed form. */
  lemma PopKeepsClosedForm(a: nat, b: nat, room: int)
    requires a + b > room && (a > 0 || b > 0)
    ensures a >= b ==> a > 0 && KeptB(a - 1, b, room) == KeptB(a, b, room) && KeptA(a - 1, b, room) == KeptA(a, b, room)
    ensures a < b ==> KeptB(a, b - 1, room) == KeptB(a, b, room) && KeptA(a, b - 1, room) == KeptA(a, b, room)
  {
  }

  /** Longest first: an overflowing pair fills the room exactly, and if both were cut they end up
      equal or the second is one token longer. */
  lemma LongestFirst(a: nat, b: nat, room: int)
    requires a + b > room >= 0
    ensures KeptA(a, b, room) + KeptB(a, b, room) == room
    ensures KeptA(a, b, room) < a && KeptB(a, b, room) < b ==> 0 <= KeptB(a, b, room) - KeptA(a, b, room) <= 1
    ensures KeptA(a, b, room) == a ==> a <= KeptB(a, b, room)
    ensures KeptB(a, b, room) == b ==> b <= KeptA(a, b, room) + 1
  {
  }

  /** Presenting the same two candidates the other way round keeps the same tokens of each, except
      when an odd room overflows from both sides: then each loses one token in first place. */
  lemma OrderMattersExactlyWhenOdd(a: nat, b: nat, room: int)
    ensures KeptB(a, b, room) == KeptA(b, a, room)
       <==> !(room > 0 && room % 2 == 1 && a >= HalfUp(room) && b >= HalfUp(room))
    ensures 0 <= KeptB(a, b, room) - KeptA(b, a, room) <= 1
  {
  }

  /** Two candidates of two tokens in a room of three: whichever comes first is cut to one. */
  lemma OrderMattersForOddRoom()
    ensures KeptA(2, 2, 3) == 1 && KeptB(2, 2, 3) == 2
  {
  }

  function Fill(x: int, n: int): (r: seq<int>)
    ensures |r| == if n > 0 then n else 0
    ensures forall i :: 0 <= i < |r| ==> r[i] == x
  {
    seq(if n > 0 then n else 0, _ => x)
  }

  datatype Special = Special(cls: int, sep: int, pad: int)

  /** The three parallel lists the model is fed. */
  datatype Packed = Packed(ids: seq<int>, types: seq<int>, mask: seq<int>)

  ghost predicate IsPacking(tok: Special, q: seq<int>, a: seq<int>, b: seq<int>, maxLen: int, p: Packed) {
    var room := maxLen - 4 - |q|;
    && KeptA(|a|, |b|, room) <= |a| && KeptB(|a|, |b|, room) <= |b|
    && var ta, tb := a[..KeptA(|a|, |b|, room)], b[..KeptB(|a|, |b|, room)];
       var n := |q| + |ta| + |tb| + 4;
       && p.ids == [tok.cls] + q + [tok.sep] + ta + [tok.sep] + tb + [tok.sep] + Fill(tok.pad, maxLen - n)
       && |p.types| == |p.mask| == |p.ids|
       && (forall i :: 0 <= i < |p.types| ==> p.types[i] == if |q| + |ta| + 3 <= i < n then 1 else 0)
       && (forall i :: 0 <= i < |p.mask| ==> p.mask[i] == if i < n then 1 else 0)
  }

  /** The truncation loop. */
  method Truncate(a: seq<int>, b: seq<int>, room: int) returns (ta: seq<int>, tb: seq<int>)
    ensures KeptA(|a|, |b|, room) <= |a| && KeptB(|a|, |b|, room) <= |b|
    ensures ta == a[..KeptA(|a|, |b|, room)] && tb == b[..KeptB(|a|, |b|, room)]
  {
    ta, tb := a, b;
    while |ta| + |tb| > room && (ta != [] || tb != [])
      invariant ta <= a && tb <= b
      invariant KeptA(|ta|, |tb|, room) == KeptA(|a|, |b|, room)
      invariant KeptB(|ta|, |tb|, room) == KeptB(|a|, |b|, room)
      decreases |ta| + |tb|
    {
      hide KeptA, KeptB;
      PopKeepsClosedForm(|ta|, |tb|, room);
      if |ta| >= |tb| {
        ta := ta[..|ta| - 1];
      } else {
        tb := tb[..|tb| - 1];
      }
    }
    Settled(|a|, |b|, |ta|, |tb|, room);
  }

  method EncodeTriple(tok: Special, q: seq<int>, a: seq<int>, b: seq<int>, maxLen: int) returns (p: Packed)
    ensures IsPacking(tok, q, a, b, maxLen, p)
  {
    hide KeptA, KeptB;
    var room := maxLen - 4 - |q|;
    var ta, tb := Truncate(a, b, room);
    var ids := [tok.cls] + q + [tok.sep] + ta + [tok.sep] + tb + [tok.sep];
    var n0 := 1 + |q| + 1 + |ta| + 1;
    var types := Fill(0, n0) + Fill(1, |ids| - n0);
    var mask := Fill(1, |ids|);
    var pad := maxLen - |ids|;
    p := Packed(ids + Fill(tok.pad, pad), types + Fill(0, pad), mask + Fill(0, pad));
  }

  /** The loop ends where the closed form says. */
  lemma Settled(a: nat, b: nat, ka: nat, kb: nat, room: int)
    requires ka + kb <= room || (ka == 0 && kb == 0)
    requires KeptA(ka, kb, room) == KeptA(a, b, room) && KeptB(ka, kb, room) == KeptB(a, b, room)
    ensures KeptA(a, b, room) == ka && KeptB(a, b, room) == kb
  {
  }

  /** All three lists have length `max_len` exactly when the question leaves room for the four
      special tokens; a longer question overflows by what it needs. */
  lemma PackedLength(tok: Special, q: seq<int>, a: seq<int>, b: seq<int>, maxLen: int, p: Packed)
    requires IsPacking(tok, q, a, b, maxLen, p)
    ensures |p.ids| == |p.types| == |p.mask| == if |q| + 4 <= maxLen then maxLen else |q| + 4
  {
  }

  /** Segment 1 is exactly the second candidate and its separator. */
  lemma SegmentOneIsB(tok: Special, q: seq<int>, a: seq<int>, b: seq<int>, maxLen: int, p: Packed, i: nat)
    requires IsPacking(tok, q, a, b, maxLen, p) && i < |p.types|
    ensures var room := maxLen - 4 - |q|;
            var start, kept := |q| + KeptA(|a|, |b|, room) + 3, KeptB(|a|, |b|, room);
            && (p.types[i] == 1 <==> start <= i <= start + kept)
            && (p.types[i] == 1 ==> p.mask[i] == 1 && p.ids[i] == if i < start + kept then b[i - start] else tok.sep)
  {
  }
}
