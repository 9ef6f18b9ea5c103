/** The string operations the mutation tools edit source files with. */
module TextEdit {
  import opened Options

  predicate MatchesAt(text: string, pat: string, i: nat) {
    i + |pat| <= |text| && text[i..i + |pat|] == pat
  }

  /** `text.index(pat, from)`, or nothing where Python raises. */
  function Index(text: string, pat: string, from: nat): (r: Option<nat>)
    ensures r.Some? ==> from <= r.value && MatchesAt(text, pat, r.value)
    decreases |text| - from
  {
    if from + |pat| > |text| then None
    else if MatchesAt(text, pat, from) then Some(from)
    else Index(text, pat, from + 1)
  }

  lemma {:induction false} IndexIsFirst(text: string, pat: string, from: nat)
    ensures forall i :: from <= i && MatchesAt(text, pat, i) ==> Index(text, pat, from).Some? && Index(text, pat, from).value <= i
    decreases |text| - from
  {
    if from + |pat| <= |text| && !MatchesAt(text, pat, from) {
      IndexIsFirst(text, pat, from + 1);
    }
  }

  /** `text.count(pat)`: occurrences that do not overlap, scanned from the left. */
  function Count(text: string, pat: string): nat
    requires pat != []
    decreases |text|
  {
    if |text| < |pat| then 0
    else if pat <= text then 1 + Count(text[|pat|..], pat)
    else Count(text[1..], pat)
  }

  /** `text.replace(pat, repl)`. */
  function Replace(text: string, pat: string, repl: string): string
    requires pat != []
    decreases |text|
  {
    if |text| < |pat| then text
    else if pat <= text then repl + Replace(text[|pat|..], pat, repl)
    else [text[0]] + Replace(text[1..], pat, repl)
  }

  lemma {:induction false} NothingToReplace(text: string, pat: string, repl: string)
    requires pat != [] && Count(text, pat) == 0
    ensures Replace(text, pat, repl) == text
    decreases |text|
  {
    if |text| >= |pat| { NothingToReplace(text[1..], pat, repl); }
  }

  lemma OneCharacterMore(c: char, before: string, mid: string, after: string)
    ensures ([c] + before) + mid + after == [c] + (before + mid + after)
  {
  }

  /** A text with one match is edited in that one place and nowhere else. */
  lemma {:induction false} ReplaceOnce(text: string, pat: string, repl: string) returns (before: string, after: string)
    requires pat != [] && Count(text, pat) == 1
    ensures text == before + pat + after
    ensures Replace(text, pat, repl) == before + repl + after
    decreases |text|
  {
    if pat <= text {
      before, after := [], text[|pat|..];
      NothingToReplace(after, pat, repl);
      assert text == pat + after;
    } else {
      var rest;
      rest, after := ReplaceOnce(text[1..], pat, repl);
      before := [text[0]] + rest;
      OneCharacterMore(text[0], rest, pat, after);
      OneCharacterMore(text[0], rest, repl, after);
      assert text == [text[0]] + text[1..];
    }
  }

  // ---- spans ---------------------------------------------------------------------------------------

  function DepthChange(c: char): int {
    if c == '{' then 1 else if c == '}' then -1 else 0
  }

  /** Braces opened less braces closed in text[i..j]. */
  function Depth(text: string, i: nat, j: nat): int
    requires i <= j <= |text|
  {
    if i == j then 0 else Depth(text, i, j - 1) + DepthChange(text[j - 1])
  }

  /** `[open, end)` is the brace block that opens at `open`: balanced, and not before its end. */
  ghost predicate IsBlock(text: string, open: nat, end: nat) {
    && open < end <= |text| && text[open] == '{'
    && Depth(text, open, end) == 0
    && forall j :: open < j < end ==> Depth(text, open, j) > 0
  }

  lemma BlockIsUnique(text: string, open: nat, a: nat, b: nat)
    requires IsBlock(text, open, a) && IsBlock(text, open, b)
    ensures a == b
  {
  }

  /** The brace counter: the end of the block, or nothing when the text runs out first. */
  method BlockEnd(text: string, open: nat) returns (end: Option<nat>)
    requires open < |text| && text[open] == '{'
    ensures end.Some? ==> IsBlock(text, open, end.value)
    ensures end.None? ==> forall e :: !IsBlock(text, open, e)
  {
    var depth := 0;
    for j := open to |text|
      invariant depth == Depth(text, open, j)
      invariant forall i :: open < i <= j ==> Depth(text, open, i) > 0
    {
      if text[j] == '{' {
        depth := depth + 1;
      } else if text[j] == '}' {
        depth := depth - 1;
        if depth == 0 {
          return Some(j + 1);
        }
      }
    }
    return None;
  }

  /** What `span_of` promises about the function it is asked for. */
  ghost predicate IsSpan(text: string, fn: string, start: nat, end: nat) {
    var s := Index(text, "fn " + fn + "(", 0);
    && s == Some(start)
    && var o := Index(text, "{", start);
       o.Some? && IsBlock(text, o.value, end)
  }

  method SpanOf(text: string, fn: string) returns (span: Option<(nat, nat)>)
    ensures span.Some? ==> IsSpan(text, fn, span.value.0, span.value.1)
    ensures span.None? ==> forall a, b :: !IsSpan(text, fn, a, b)
  {
    var start := Index(text, "fn " + fn + "(", 0);
    if start.None? {
      return None;
    }
    var open := Index(text, "{", start.value);
    if open.None? {
      return None;
    }
    assert text[open.value..open.value + 1][0] == text[open.value];
    var end := BlockEnd(text, open.value);
    if end.None? {
      return None;
    }
    return Some((start.value, end.value));
  }

  lemma SpanIsUnique(text: string, fn: string, a: nat, b: nat, a': nat, b': nat)
    requires IsSpan(text, fn, a, b) && IsSpan(text, fn, a', b')
    ensures a == a' && b == b' && a < b <= |text|
  {
    BlockIsUnique(text, Index(text, "{", a).value, b, b');
  }

  const LINE := "sanitize_line("
  const PROSE := "sanitize_prose("
  const IDENTITY := "std::convert::identity("

  /** Both sanitiser calls turned into the identity, in a body that has at least one. */
  function Unsanitised(body: string): Option<string> {
    if Count(body, LINE) + Count(body, PROSE) == 0 then None
    else Some(Replace(Replace(body, LINE, IDENTITY), PROSE, IDENTITY))
  }

  function RevertedAt(text: string, a: nat, b: nat): Option<string>
    requires a <= b <= |text|
  {
    match Unsanitised(text[a..b])
    case Some(body) => Some(text[..a] + body + text[b..])
    case None => None
  }

  /** `edited` is `text` with the named function's body unsanitised and every character outside its
      span untouched. */
  ghost predicate IsReverted(text: string, fn: string, edited: string) {
    exists a: nat, b: nat :: IsSpan(text, fn, a, b) && a <= b <= |text| && RevertedAt(text, a, b) == Some(edited)
  }

  method Revert(text: string, fn: string) returns (edited: Option<string>)
    ensures edited.Some? ==> IsReverted(text, fn, edited.value)
    ensures edited.None? ==> forall t :: !IsReverted(text, fn, t)
  {
    var span := SpanOf(text, fn);
    if span.None? {
      return None;
    }
    var a, b := span.value.0, span.value.1;
    SpanIsUnique(text, fn, a, b, a, b);
    forall c, d | IsSpan(text, fn, c, d) ensures c == a && d == b {
      SpanIsUnique(text, fn, a, b, c, d);
    }
    hide IsSpan, Unsanitised;
    var body := Unsanitised(text[a..b]);
    if body.None? {
      return None;
    }
    return Some(text[..a] + body.value + text[b..]);
  }

  lemma RevertIsUnique(text: string, fn: string, s: string, t: string)
    requires IsReverted(text, fn, s) && IsReverted(text, fn, t)
    ensures s == t
  {
    var a: nat, b: nat :| IsSpan(text, fn, a, b) && a <= b <= |text| && RevertedAt(text, a, b) == Some(s);
    var c: nat, d: nat :| IsSpan(text, fn, c, d) && c <= d <= |text| && RevertedAt(text, c, d) == Some(t);
    SpanIsUnique(text, fn, a, b, c, d);
  }

  // ---- what a reversion is for -------------------------------------------------------------------------

  ghost predicate Free(text: string, pat: string) {
    forall i: nat :: !MatchesAt(text, pat, i)
  }

  lemma {:induction false} FreeMeansNone(text: string, pat: string)
    requires pat != []
    ensures Count(text, pat) == 0 <==> Free(text, pat)
    decreases |text|
  {
    if |text| < |pat| {
    } else if pat <= text {
      assert MatchesAt(text, pat, 0);
    } else {
      FreeMeansNone(text[1..], pat);
      FreeAfterFirst(text, pat);
    }
  }

  lemma SliceOfTail(text: string, i: nat, n: nat)
    requires i + 1 + n <= |text|
    ensures text[1..][i..i + n] == text[i + 1..i + 1 + n]
  {
  }

  lemma FreeAfterFirst(text: string, pat: string)
    requires text != [] && pat != []
    ensures Free(text, pat) <==> !(pat <= text) && Free(text[1..], pat)
  {
    if !(pat <= text) && Free(text[1..], pat) {
      forall i: nat ensures !MatchesAt(text, pat, i) {
        if i > 0 && i + |pat| <= |text| {
          SliceOfTail(text, i - 1, |pat|);
          assert !MatchesAt(text[1..], pat, i - 1);
        }
      }
    }
    if Free(text, pat) {
      assert !MatchesAt(text, pat, 0);
      forall i: nat ensures !MatchesAt(text[1..], pat, i) {
        if i + |pat| <= |text[1..]| {
          SliceOfTail(text, i, |pat|);
          assert !MatchesAt(text, pat, i + 1);
        }
      }
    }
  }

  /** Nothing that starts in one of the two can end in the other: their first two characters rule it out. */
  predicate Apart(pat: string, repl: string) {
    && 2 <= |pat| <= |repl|
    && (forall k :: 0 <= k < |pat| && pat[k] == repl[0] ==> k + 1 < |pat| && pat[k + 1] != repl[1])
    && (forall k :: 0 <= k < |repl| && repl[k] == pat[0] ==> k + 1 < |repl| && repl[k + 1] != pat[1])
  }

  lemma NoSharedStart(q: string, k: nat, repl: string, after: string)
    requires Apart(q, repl) && k < |q|
    ensures !(q[k..] <= repl + after)
  {
    var text := repl + after;
    assert q[k..][0] == q[k] && text[0] == repl[0] && text[1] == repl[1];
    if q[k] == repl[0] { assert q[k..][1] == q[k + 1]; }
  }

  /** A text does not come to start with the rest of a pattern by a replacement. */
  lemma {:induction false} NewTextStartsAlike(text: string, pat: string, repl: string, q: string, k: nat)
    requires pat != [] && Apart(q, repl) && k <= |q| && q[k..] <= Replace(text, pat, repl)
    ensures q[k..] <= text
    decreases |text|
  {
    var rest := q[k..];
    if |text| < |pat| || k == |q| {
    } else if pat <= text {
      NoSharedStart(q, k, repl, Replace(text[|pat|..], pat, repl));
    } else {
      var after := Replace(text[1..], pat, repl);
      assert ([text[0]] + after)[1..] == after && rest[1..] == q[k + 1..];
      NewTextStartsAlike(text[1..], pat, repl, q, k + 1);
      assert text == [text[0]] + text[1..] && rest == [rest[0]] + rest[1..];
    }
  }

  lemma NoNewStart(text: string, pat: string, repl: string, q: string)
    requires pat != [] && Apart(q, repl)
    ensures q <= Replace(text, pat, repl) ==> q <= text
  {
    assert q[0..] == q;
    if q <= Replace(text, pat, repl) { NewTextStartsAlike(text, pat, repl, q, 0); }
  }

  lemma FreeInFront(repl: string, after: string, q: string)
    requires Apart(q, repl) && Free(after, q)
    ensures Free(repl + after, q)
  {
    var text := repl + after;
    forall i: nat ensures !MatchesAt(text, q, i) {
      if i + |q| <= |text| {
        if i < |repl| {
          assert text[i..i + |q|][0] == repl[i];
          assert i + 1 < |repl| ==> text[i..i + |q|][1] == repl[i + 1];
        } else {
          assert text[i..i + |q|] == after[i - |repl|..i - |repl| + |q|];
          assert !MatchesAt(after, q, i - |repl|);
        }
      }
    }
  }

  /** A replacement leaves the text free of the pattern it replaces and of any it was free of before. */
  lemma {:induction false} ReplaceFrees(text: string, pat: string, repl: string, q: string)
    requires pat != [] && Apart(q, repl) && (q == pat || Free(text, q))
    ensures Free(Replace(text, pat, repl), q)
    decreases |text|
  {
    if |text| < |pat| {
    } else if pat <= text {
      FreeLater(text, q, |pat|);
      ReplaceFrees(text[|pat|..], pat, repl, q);
      FreeInFront(repl, Replace(text[|pat|..], pat, repl), q);
    } else {
      FreeLater(text, q, 1);
      ReplaceFrees(text[1..], pat, repl, q);
      var after := Replace(text[1..], pat, repl);
      assert ([text[0]] + after)[1..] == after;
      FreeAfterFirst([text[0]] + after, q);
      FreeAfterFirst(text, q);
      NoNewStart(text, pat, repl, q);
    }
  }

  lemma FreeLater(text: string, q: string, n: nat)
    requires n <= |text|
    ensures Free(text, q) ==> Free(text[n..], q)
  {
    if Free(text, q) {
      forall i: nat ensures !MatchesAt(text[n..], q, i) {
        if i + |q| <= |text[n..]| {
          assert text[n..][i..i + |q|] == text[n + i..n + i + |q|];
          assert !MatchesAt(text, q, n + i);
        }
      }
    }
  }

  lemma CallsAreApart()
    ensures Apart(LINE, IDENTITY) && Apart(PROSE, IDENTITY)
  {
  }

  lemma {:induction false} ReplaceGrows(text: string, pat: string, repl: string)
    requires 0 < |pat| < |repl|
    ensures |Replace(text, pat, repl)| >= |text|
    ensures Count(text, pat) > 0 ==> |Replace(text, pat, repl)| > |text|
    decreases |text|
  {
    if |text| < |pat| {
    } else if pat <= text {
      ReplaceGrows(text[|pat|..], pat, repl);
    } else {
      ReplaceGrows(text[1..], pat, repl);
    }
  }

  lemma UnsanitisedMeans(body: string)
    requires Unsanitised(body).Some?
    ensures Count(Unsanitised(body).value, LINE) == 0 == Count(Unsanitised(body).value, PROSE)
    ensures |Unsanitised(body).value| > |body|
  {
    var once := Replace(body, LINE, IDENTITY);
    CallsAreApart();
    ReplaceFrees(body, LINE, IDENTITY, LINE);
    ReplaceFrees(once, PROSE, IDENTITY, LINE);
    ReplaceFrees(once, PROSE, IDENTITY, PROSE);
    FreeMeansNone(Unsanitised(body).value, LINE);
    FreeMeansNone(Unsanitised(body).value, PROSE);
    ReplaceGrows(body, LINE, IDENTITY);
    ReplaceGrows(once, PROSE, IDENTITY);
    if Count(body, LINE) == 0 { NothingToReplace(body, LINE, IDENTITY); }
  }

  /** The pieces with a separator between each two: Python's `sep.join(pieces)`. */
  ghost function Join(pieces: seq<string>, sep: string): string
    requires pieces != []
  {
    if |pieces| == 1 then pieces[0] else pieces[0] + sep + Join(pieces[1..], sep)
  }

  lemma JoinOneMore(c: char, pieces: seq<string>, sep: string)
    requires pieces != []
    ensures Join([[c] + pieces[0]] + pieces[1..], sep) == [c] + Join(pieces, sep)
  {
    var longer := [[c] + pieces[0]] + pieces[1..];
    assert longer[1..] == pieces[1..];
    if |pieces| > 1 { OneCharacterMore(c, pieces[0], sep, Join(pieces[1..], sep)); }
  }

  /** A replacement swaps each occurrence and keeps everything between them. */
  lemma {:induction false} ReplaceSwaps(text: string, pat: string, repl: string) returns (pieces: seq<string>)
    requires pat != []
    ensures |pieces| == Count(text, pat) + 1
    ensures Join(pieces, pat) == text && Join(pieces, repl) == Replace(text, pat, repl)
    decreases |text|
  {
    if |text| < |pat| {
      pieces := [text];
    } else if pat <= text {
      var rest := ReplaceSwaps(text[|pat|..], pat, repl);
      pieces := [""] + rest;
      assert pieces[1..] == rest && text == pat + text[|pat|..];
      assert "" + pat == pat && "" + repl == repl;
    } else {
      var rest := ReplaceSwaps(text[1..], pat, repl);
      pieces := [[text[0]] + rest[0]] + rest[1..];
      JoinOneMore(text[0], rest, pat);
      JoinOneMore(text[0], rest, repl);
      assert text == [text[0]] + text[1..];
    }
  }

  /** The edited span is the old one with every line call, and then every prose call, made the identity, and
      nothing between the calls touched; there is no edit exactly when there is no call. */
  lemma UnsanitisedSwaps(body: string) returns (lines: seq<string>, proses: seq<string>)
    ensures lines != [] && proses != [] && Join(lines, "sanitize_line(") == body
    ensures Join(proses, "sanitize_prose(") == Join(lines, "std::convert::identity(")
    ensures Unsanitised(body) == None <==> Count(body, "sanitize_line(") == 0 == Count(body, "sanitize_prose(")
    ensures Unsanitised(body) != None ==> Unsanitised(body).value == Join(proses, "std::convert::identity(")
  {
    lines := ReplaceSwaps(body, LINE, IDENTITY);
    proses := ReplaceSwaps(Replace(body, LINE, IDENTITY), PROSE, IDENTITY);
    hide Replace, Join, Count;
  }

  /** A reverted function has no sanitiser call left between its braces, and its text has grown. */
  lemma RevertRemovesCalls(text: string, fn: string, edited: string)
    requires IsReverted(text, fn, edited)
    ensures exists a: nat, b: nat, body ::
              && a <= b <= |text| && IsSpan(text, fn, a, b) && edited == text[..a] + body + text[b..]
              && Count(body, LINE) == 0 == Count(body, PROSE) && |body| > b - a
  {
    var a: nat, b: nat :| IsSpan(text, fn, a, b) && a <= b <= |text| && RevertedAt(text, a, b) == Some(edited);
    UnsanitisedMeans(text[a..b]);
    hide IsSpan, Unsanitised, Count;
    var body := Unsanitised(text[a..b]).value;
    assert edited == text[..a] + body + text[b..];
  }

  lemma RevertGrows(text: string, fn: string, edited: string)
    requires IsReverted(text, fn, edited)
    ensures |edited| > |text|
  {
    RevertRemovesCalls(text, fn, edited);
  }
}
