/** `mutate2.py`: one bound reverted at a time, each run a few primitive steps that may stop after
    any of them. */
module Mutate2 {
  import opened FileTree
  import opened TextEdit

  const BAK := ".item2-mutation-backup"

  /** One row of the mutation table. */
  datatype Mutation = Mutation(rel: string, find: string, repl: string)

  type Table = map<string, Mutation>

  ghost predicate GoodTable(table: Table) {
    forall n :: n in table ==> table[n].find != [] && !EndsWith(table[n].rel, BAK)
  }

  /** What a run has in hand between two steps. */
  datatype Run =
    | Idle
    | Checked(path: string, text: string)
    | CopiedOut(path: string, text: string)
    | Scanning
    | CopiedBack(path: string)

  /** The disk, the run in progress, and the files whose last write was cut short. */
  datatype State = State(files: Files, run: Run, torn: set<string>)

  // ---- the steps ---------------------------------------------------------------------------------------

  predicate Applies(files: Files, m: Mutation)
    requires m.find != []
  {
    m.rel in files && Count(files[m.rel], m.find) == 1 && BackupOf(m.rel, BAK) !in files
  }

  /** All the checks of a mutating run pass. */
  ghost predicate CheckFor(s: State, t: State, table: Table, n: string) {
    && s.run == Idle && n in table && table[n].find != [] && Applies(s.files, table[n])
    && t == s.(run := Checked(table[n].rel, Replace(s.files[table[n].rel], table[n].find, table[n].repl)))
  }

  ghost predicate Check(s: State, t: State, table: Table) {
    exists n :: CheckFor(s, t, table, n)
  }

  ghost predicate CopyOut(s: State, t: State) {
    s.run.Checked? && s.run.path in s.files
    && t == s.(files := s.files[BackupOf(s.run.path, BAK) := s.files[s.run.path]], run := CopiedOut(s.run.path, s.run.text))
  }

  ghost predicate Write(s: State, t: State) {
    s.run.CopiedOut?
    && t == State(s.files[s.run.path := s.run.text], Idle, s.torn - {s.run.path})
  }

  ghost predicate Scan(s: State, t: State) {
    s.run == Idle && t == s.(run := Scanning)
  }

  ghost predicate CopyBack(s: State, t: State) {
    exists p :: CopyBackOf(s, t, p)
  }

  ghost predicate CopyBackOf(s: State, t: State, p: string) {
    && s.run == Scanning && BackupOf(p, BAK) in s.files
    && t == State(s.files[p := s.files[BackupOf(p, BAK)]], CopiedBack(p), s.torn - {p})
  }

  ghost predicate Unlink(s: State, t: State) {
    s.run.CopiedBack? && t == s.(files := s.files - {BackupOf(s.run.path, BAK)}, run := Scanning)
  }

  ghost predicate Finish(s: State, t: State) {
    s.run == Scanning && (forall f :: f in s.files ==> !EndsWith(f, BAK)) && t == s.(run := Idle)
  }

  /** The run dies between two steps. */
  ghost predicate Crash(s: State, t: State) {
    t == s.(run := Idle)
  }

  /** The run dies inside a write to a source file, which is left holding anything. */
  ghost predicate Tear(s: State, t: State) {
    exists p, junk :: TearOf(s, t, p, junk)
  }

  ghost predicate TearOf(s: State, t: State, p: string, junk: string) {
    MayWrite(s, p) && t == State(s.files[p := junk], Idle, s.torn + {p})
  }

  ghost predicate MayWrite(s: State, p: string) {
    (s.run.CopiedOut? && s.run.path == p) || (s.run == Scanning && BackupOf(p, BAK) in s.files)
  }

  /** Every step but the one below. */
  ghost predicate SoundStep(s: State, t: State, table: Table) {
    Check(s, t, table) || CopyOut(s, t) || Write(s, t) || Scan(s, t) || CopyBack(s, t) || Unlink(s, t)
    || Finish(s, t) || Crash(s, t) || Tear(s, t)
  }

  /** The run dies inside the copy that makes the backup, which is left holding anything. */
  ghost predicate TearBackupOf(s: State, t: State, p: string, arrived: string) {
    && s.run.Checked? && s.run.path == p && p in s.files && BackupOf(p, BAK) !in s.files
    && t == s.(files := s.files[BackupOf(p, BAK) := arrived], run := Idle)
  }

  ghost predicate Step(s: State, t: State, table: Table) {
    SoundStep(s, t, table) || exists p, arrived :: TearBackupOf(s, t, p, arrived)
  }

  /** If the step cuts a backup copy short, all of the pristine text had arrived. */
  ghost predicate Whole(s: State, t: State, pristine: Files) {
    forall p, arrived :: TearBackupOf(s, t, p, arrived) ==> p in pristine && arrived == pristine[p]
  }

  // ---- the invariant --------------------------------------------------------------------------------------

  /** `text` is the pristine file with one of the table's mutations applied to it. */
  ghost predicate OneMutation(pristine: Files, table: Table, p: string, text: string)
    requires p in pristine
  {
    exists n :: n in table && table[n].rel == p && table[n].find != []
      && Count(pristine[p], table[n].find) == 1 && text == Replace(pristine[p], table[n].find, table[n].repl)
  }

  /** A source holds its pristine text, one mutation of it, or a write cut short: never two mutations. */
  ghost predicate NeverStacked(s: State, pristine: Files, table: Table) {
    forall p :: p in pristine && p in s.files && p !in s.torn ==>
      s.files[p] == pristine[p] || OneMutation(pristine, table, p, s.files[p])
  }

  ghost predicate RunFits(s: State, pristine: Files, table: Table) {
    match s.run
    case Idle => true
    case Scanning => true
    case Checked(p, text) =>
      p in pristine && BackupOf(p, BAK) !in s.files && p !in s.torn && OneMutation(pristine, table, p, text)
    case CopiedOut(p, text) =>
      p in pristine && BackupOf(p, BAK) in s.files && OneMutation(pristine, table, p, text)
    case CopiedBack(p) =>
      p in pristine && p in s.files && s.files[p] == pristine[p] && BackupOf(p, BAK) in s.files && p !in s.torn
  }

  /** A file with a torn write has a backup. */
  ghost predicate TornIsCovered(s: State, pristine: Files) {
    forall p :: p in s.torn ==> p in pristine && BackupOf(p, BAK) in s.files
  }

  ghost predicate Invariant(s: State, pristine: Files, table: Table) {
    && Safe(s.files, pristine, BAK)
    && NeverStacked(s, pristine, table)
    && TornIsCovered(s, pristine)
    && RunFits(s, pristine, table)
  }

  lemma CheckKeeps(s: State, t: State, pristine: Files, table: Table)
    requires Pristine(pristine, BAK) && GoodTable(table) && Invariant(s, pristine, table) && Check(s, t, table)
    ensures Invariant(t, pristine, table)
  {
    var n :| CheckFor(s, t, table, n);
    var p := table[n].rel;
    SourcePath(s.files, pristine, BAK, p);
    assert Recoverable(s.files, pristine, BAK, p);
    assert OneMutation(pristine, table, p, t.run.text);
  }

  lemma CopyOutKeeps(s: State, t: State, pristine: Files, table: Table)
    requires Pristine(pristine, BAK) && Invariant(s, pristine, table) && CopyOut(s, t)
    ensures Invariant(t, pristine, table)
  {
    hide Safe, OneMutation, EndsWith;
    var p := s.run.path;
    CopyOutSafe(s.files, pristine, BAK, p);
    BackupsAreDistinct(p, p, BAK);
    NotABackup(pristine, p);
    assert NeverStacked(t, pristine, table);
    forall q | q in t.torn ensures q in pristine && BackupOf(q, BAK) in t.files {
    }
  }

  lemma NotABackup(pristine: Files, p: string)
    requires Pristine(pristine, BAK)
    ensures forall q :: q in pristine ==> q != BackupOf(p, BAK)
  {
    BackupsAreDistinct(p, p, BAK);
  }

  lemma WriteKeeps(s: State, t: State, pristine: Files, table: Table)
    requires Pristine(pristine, BAK) && Invariant(s, pristine, table) && Write(s, t)
    ensures Invariant(t, pristine, table)
  {
    hide Safe, OneMutation, EndsWith, Pristine;
    var p := s.run.path;
    WriteSafe(s.files, pristine, BAK, p, s.run.text);
  }

  lemma TearKeeps(s: State, t: State, pristine: Files, table: Table)
    requires Pristine(pristine, BAK) && Invariant(s, pristine, table) && Tear(s, t)
    ensures Invariant(t, pristine, table)
  {
    hide Safe, OneMutation, EndsWith, Pristine;
    var p, junk :| TearOf(s, t, p, junk);
    BackedUpIsSource(s.files, pristine, BAK, p);
    WriteSafe(s.files, pristine, BAK, p, junk);
  }

  lemma CopyBackKeeps(s: State, t: State, pristine: Files, table: Table)
    requires Pristine(pristine, BAK) && Invariant(s, pristine, table) && CopyBack(s, t)
    ensures Invariant(t, pristine, table)
  {
    hide Safe, OneMutation, EndsWith, Pristine;
    var p :| CopyBackOf(s, t, p);
    BackedUpIsSource(s.files, pristine, BAK, p);
    WriteSafe(s.files, pristine, BAK, p, pristine[p]);
    BackupsAreDistinct(p, p, BAK);
  }

  lemma UnlinkKeeps(s: State, t: State, pristine: Files, table: Table)
    requires Pristine(pristine, BAK) && Invariant(s, pristine, table) && Unlink(s, t)
    ensures Invariant(t, pristine, table)
  {
    hide Safe, OneMutation, EndsWith, Pristine;
    var p := s.run.path;
    UnlinkSafe(s.files, pristine, BAK, p);
    BackupsAreDistinct(p, p, BAK);
    forall q | q in t.torn ensures q in pristine && BackupOf(q, BAK) in t.files {
      BackupsAreDistinct(p, q, BAK);
    }
  }

  lemma SoundStepKeeps(s: State, t: State, pristine: Files, table: Table)
    requires Pristine(pristine, BAK) && GoodTable(table)
    requires Invariant(s, pristine, table) && SoundStep(s, t, table)
    ensures Invariant(t, pristine, table) && Whole(s, t, pristine)
  {
    hide Pristine, GoodTable, Safe;
    if Check(s, t, table) { CheckKeeps(s, t, pristine, table); }
    else if CopyOut(s, t) { CopyOutKeeps(s, t, pristine, table); }
    else if Write(s, t) { WriteKeeps(s, t, pristine, table); }
    else if CopyBack(s, t) { CopyBackKeeps(s, t, pristine, table); }
    else if Unlink(s, t) { UnlinkKeeps(s, t, pristine, table); }
    else if Tear(s, t) { TearKeeps(s, t, pristine, table); }
    else {
      assert Scan(s, t) || Finish(s, t) || Crash(s, t);
    }
    SoundIsWhole(s, t, pristine, table);
  }

  lemma SoundIsWhole(s: State, t: State, pristine: Files, table: Table)
    requires SoundStep(s, t, table)
    ensures Whole(s, t, pristine)
  {
  }

  lemma TearBackupKeeps(s: State, t: State, pristine: Files, table: Table, p: string, arrived: string)
    requires Pristine(pristine, BAK) && Invariant(s, pristine, table) && TearBackupOf(s, t, p, arrived)
    ensures p in pristine
    ensures Safe(t.files, pristine, BAK) <==> arrived == pristine[p]
    ensures arrived == pristine[p] ==> Invariant(t, pristine, table)
  {
    hide Safe, OneMutation, EndsWith;
    TornBackup(s.files, pristine, BAK, p, arrived);
    NotABackup(pristine, p);
  }

  /** Every step of every run, finished, refused, killed or torn, keeps the tree recoverable, unless it is
      a backup copy cut before the whole text had arrived; and that step never does. */
  lemma StepKeepsInvariant(s: State, t: State, pristine: Files, table: Table)
    requires Pristine(pristine, BAK) && GoodTable(table)
    requires Invariant(s, pristine, table) && Step(s, t, table)
    ensures Whole(s, t, pristine) ==> Invariant(t, pristine, table)
    ensures Whole(s, t, pristine) <==> Safe(t.files, pristine, BAK)
  {
    hide Pristine, GoodTable, Safe, SoundStep, RunFits, NeverStacked, TornIsCovered;
    if SoundStep(s, t, table) {
      SoundStepKeeps(s, t, pristine, table);
    } else {
      var p, arrived :| TearBackupOf(s, t, p, arrived);
      TearBackupKeeps(s, t, pristine, table, p, arrived);
      OneTear(s, t, pristine, p, arrived);
    }
  }

  /** A step tears at most one backup, and leaves one thing in it. */
  lemma OneTear(s: State, t: State, pristine: Files, p: string, arrived: string)
    requires TearBackupOf(s, t, p, arrived) && p in pristine
    ensures Whole(s, t, pristine) <==> arrived == pristine[p]
  {
    forall q, other | TearBackupOf(s, t, q, other) ensures q == p && other == arrived {
      assert t.files[BackupOf(p, BAK)] == arrived;
      assert t.files[BackupOf(q, BAK)] == other;
    }
  }

  /** Any sequence of runs, each cut anywhere: consecutive states of the machine. */
  ghost predicate IsHistory(h: seq<State>, table: Table) {
    forall i :: 0 <= i < |h| - 1 ==> Step(h[i], h[i + 1], table)
  }

  /** Every backup copy that was cut short had already copied everything. */
  ghost predicate WholeBackups(h: seq<State>, pristine: Files) {
    forall i :: 0 <= i < |h| - 1 ==> Whole(h[i], h[i + 1], pristine)
  }

  ghost predicate SafeThroughout(h: seq<State>, pristine: Files) {
    forall i :: 0 <= i < |h| ==> Safe(h[i].files, pristine, BAK)
  }

  lemma {:induction false} HistoryIsSafe(h: seq<State>, pristine: Files, table: Table, i: nat)
    requires Pristine(pristine, BAK) && GoodTable(table) && IsHistory(h, table)
    requires i < |h| && Invariant(h[0], pristine, table)
    requires WholeBackups(h, pristine) || SafeThroughout(h, pristine)
    ensures Invariant(h[i], pristine, table)
  {
    hide Step, Invariant, Whole, Safe;
    if i == 0 {
    } else {
      HistoryIsSafe(h, pristine, table, i - 1);
      StepKeepsInvariant(h[i - 1], h[i - 1 + 1], pristine, table);
    }
  }

  /** Crash safety: starting from a pristine tree, at every moment of every history in which no backup copy
      was cut short with text missing, each backup holds the pristine text, each file without one is
      pristine, and no file carries two mutations. */
  lemma CrashSafety(h: seq<State>, pristine: Files, table: Table, i: nat)
    requires Pristine(pristine, BAK) && GoodTable(table) && IsHistory(h, table) && WholeBackups(h, pristine)
    requires i < |h| && h[0] == State(pristine, Idle, {})
    ensures Safe(h[i].files, pristine, BAK) && NeverStacked(h[i], pristine, table)
  {
    PristineIsSafe(pristine, BAK);
    assert Invariant(h[0], pristine, table);
    HistoryIsSafe(h, pristine, table, i);
  }

  /** And only in those: the tree stays recoverable throughout exactly when no backup copy was cut short
      with text missing. */
  lemma CrashSafetyExactly(h: seq<State>, pristine: Files, table: Table)
    requires Pristine(pristine, BAK) && GoodTable(table) && IsHistory(h, table)
    requires h != [] && h[0] == State(pristine, Idle, {})
    ensures SafeThroughout(h, pristine) <==> WholeBackups(h, pristine)
  {
    PristineIsSafe(pristine, BAK);
    assert Invariant(h[0], pristine, table);
    hide Invariant, Safe, Whole, Step;
    if SafeThroughout(h, pristine) {
      forall i | 0 <= i < |h| - 1 ensures Whole(h[i], h[i + 1], pristine) {
        HistoryIsSafe(h, pristine, table, i);
        StepKeepsInvariant(h[i], h[i + 1], pristine, table);
      }
    }
    if WholeBackups(h, pristine) {
      forall i: nat | i < |h| ensures Safe(h[i].files, pristine, BAK) {
        CrashSafety(h, pristine, table, i);
      }
    }
  }

  /** A restore that gets to its end gives the pristine tree back, whatever else happened before. */
  lemma RestoreIsComplete(h: seq<State>, pristine: Files, table: Table, i: nat)
    requires Pristine(pristine, BAK) && GoodTable(table) && IsHistory(h, table) && WholeBackups(h, pristine)
    requires i + 1 < |h| && h[0] == State(pristine, Idle, {}) && Finish(h[i], h[i + 1])
    ensures h[i + 1].files == pristine
  {
    CrashSafety(h, pristine, table, i + 1);
    NoBackupsIsPristine(h[i + 1].files, pristine, BAK);
  }

  /** What the other histories cost. A mutating run dies inside its backup copy; the restore that follows
      runs to its end and leaves what had arrived in place of the pristine text. */
  lemma TornBackupLoses(pristine: Files, table: Table, n: string, arrived: string) returns (h: seq<State>)
    requires Pristine(pristine, BAK) && n in table && table[n].find != [] && Applies(pristine, table[n])
    ensures IsHistory(h, table) && h != [] && h[0] == State(pristine, Idle, {})
    ensures |h| > 1 && Finish(h[|h| - 2], h[|h| - 1])
    ensures h[|h| - 1].files == pristine[table[n].rel := arrived]
  {
    var p := table[n].rel;
    var b, text := BackupOf(p, BAK), Replace(pristine[p], table[n].find, table[n].repl);
    BackupsAreDistinct(p, p, BAK);
    hide Replace, Count, BackupOf;
    h := [State(pristine, Idle, {}), State(pristine, Checked(p, text), {}), State(pristine[b := arrived], Idle, {}),
          State(pristine[b := arrived], Scanning, {}), State(pristine[b := arrived][p := arrived], CopiedBack(p), {}),
          State(pristine[p := arrived], Scanning, {}), State(pristine[p := arrived], Idle, {})];
    assert CheckFor(h[0], h[1], table, n);
    assert TearBackupOf(h[1], h[2], p, arrived);
    assert Scan(h[2], h[3]);
    assert CopyBackOf(h[3], h[4], p);
    assert pristine[b := arrived][p := arrived] - {b} == pristine[p := arrived];
    assert Unlink(h[4], h[5]);
    assert Finish(h[5], h[6]);
  }

  /** A history the tool completes never cuts a backup copy. */
  ghost predicate Uncut(h: seq<State>, table: Table) {
    forall i :: 0 <= i < |h| - 1 ==> SoundStep(h[i], h[i + 1], table)
  }

  lemma UncutIsWhole(h: seq<State>, table: Table, pristine: Files)
    requires Uncut(h, table)
    ensures IsHistory(h, table) && WholeBackups(h, pristine)
  {
    hide SoundStep;
    forall i | 0 <= i < |h| - 1 ensures Whole(h[i], h[i + 1], pristine) {
      SoundIsWhole(h[i], h[i + 1], pristine, table);
    }
  }

  // ---- restoring everything --------------------------------------------------------------------------------

  function Backups(files: Files): set<string> {
    set f | f in files && EndsWith(f, BAK)
  }

  ghost predicate Tidy(files: Files) {
    forall p :: BackupOf(p, BAK) in files ==> !EndsWith(p, BAK)
  }

  /** Restoring one file leaves one backup fewer. */
  lemma BackupsShrink(files: Files, p: string)
    requires Tidy(files) && BackupOf(p, BAK) in files
    ensures var after := files[p := files[BackupOf(p, BAK)]] - {BackupOf(p, BAK)};
            Tidy(after) && |Backups(after)| < |Backups(files)|
  {
    var b := BackupOf(p, BAK);
    var after := files[p := files[b]] - {b};
    BackupsAreDistinct(p, p, BAK);
    assert b in Backups(files);
    assert Backups(after) == Backups(files) - {b};
    forall q | BackupOf(q, BAK) in after ensures !EndsWith(q, BAK) {
      BackupsAreDistinct(q, q, BAK);
    }
  }

  lemma SafeIsTidy(files: Files, pristine: Files)
    requires Safe(files, pristine, BAK) && Pristine(pristine, BAK)
    ensures Tidy(files)
  {
    forall p | BackupOf(p, BAK) in files ensures !EndsWith(p, BAK) {
      BackedUpIsSource(files, pristine, BAK, p);
    }
  }

  lemma BackedUpPath(b: string)
    requires EndsWith(b, BAK)
    ensures |b| >= |BAK| && b == BackupOf(b[..|b| - |BAK|], BAK)
  {
    BackupPath(b, BAK);
  }

  // ---- the tool itself ---------------------------------------------------------------------------------------

  class Tool {
    var files: Files
    ghost var torn: set<string>
    /** Every state the disk and the run have been in. */
    ghost var history: seq<State>
    ghost const table: Table

    ghost predicate Valid()
      reads this
    {
      && Uncut(history, table)
      && history != [] && history[|history| - 1] == State(files, Idle, torn)
    }

    constructor (files: Files, ghost table: Table)
      ensures Valid() && this.files == files && this.torn == {} && this.table == table
      ensures history == [State(files, Idle, {})]
    {
      this.files, this.torn, this.table := files, {}, table;
      history := [State(files, Idle, {})];
    }

    /** The next state of the machine, recorded. */
    ghost method Record(t: State)
      requires Uncut(history, table) && history != [] && SoundStep(history[|history| - 1], t, table)
      modifies this`history
      ensures history == old(history) + [t] && Uncut(history, table)
    {
      var before := history;
      history := history + [t];
      forall i | 0 <= i < |history| - 1 ensures SoundStep(history[i], history[i + 1], table) {
        if i < |before| - 1 { assert history[i] == before[i] && history[i + 1] == before[i + 1]; }
      }
    }

    /** A mutating run: refused without a trace, or carried through check, copy and write. */
    method Mutate(name: string, m: Mutation) returns (applied: bool)
      requires Valid() && name in table && table[name] == m && m.find != []
      modifies this
      ensures Valid() && old(history) <= history
      ensures applied <==> Applies(old(files), m)
      ensures !applied ==> files == old(files)
      ensures applied ==>
                files == old(files)[BackupOf(m.rel, BAK) := old(files)[m.rel]]
                                   [m.rel := Replace(old(files)[m.rel], m.find, m.repl)]
    {
      hide Uncut, Replace, Count;
      if m.rel !in files {
        return false;
      }
      var text := files[m.rel];
      if Count(text, m.find) != 1 {
        return false;
      }
      var backup := BackupOf(m.rel, BAK);
      if backup in files {
        return false;
      }
      var mutated := Replace(text, m.find, m.repl);
      assert CheckFor(State(files, Idle, torn), State(files, Checked(m.rel, mutated), torn), table, name);
      Record(State(files, Checked(m.rel, mutated), torn));
      assert CopyOut(State(files, Checked(m.rel, mutated), torn), State(files[backup := text], CopiedOut(m.rel, mutated), torn));
      files := files[backup := text];
      Record(State(files, CopiedOut(m.rel, mutated), torn));
      assert Write(State(files, CopiedOut(m.rel, mutated), torn), State(files[m.rel := mutated], Idle, torn - {m.rel}));
      files := files[m.rel := mutated];
      torn := torn - {m.rel};
      Record(State(files, Idle, torn));
      return true;
    }

    /** A restoring run: every backup is copied back and removed, in whatever order they are found.
        No backup has a backup of its own: the table names none, so no run ever makes one. */
    method Restore()
      requires Valid() && Tidy(files)
      modifies this
      ensures Valid() && old(history) <= history
      ensures forall f :: f in files ==> !EndsWith(f, BAK)
      ensures |history| > |old(history)| && Finish(history[|history| - 2], history[|history| - 1])
    {
      hide Uncut, EndsWith;
      Record(State(files, Scanning, torn));
      while Backups(files) != {}
        invariant Uncut(history, table) && old(history) < history && Tidy(files)
        invariant history[|history| - 1] == State(files, Scanning, torn)
        decreases |Backups(files)|
      {
        hide Tidy;
        var b :| b in Backups(files);
        BackedUpPath(b);
        var p := b[..|b| - |BAK|];
        BackupsShrink(files, p);
        assert CopyBackOf(State(files, Scanning, torn), State(files[p := files[b]], CopiedBack(p), torn - {p}), p);
        files := files[p := files[b]];
        torn := torn - {p};
        Record(State(files, CopiedBack(p), torn));
        assert Unlink(State(files, CopiedBack(p), torn), State(files - {b}, Scanning, torn));
        files := files - {b};
        Record(State(files, Scanning, torn));
      }
      assert forall f :: f in files && EndsWith(f, BAK) ==> f in Backups(files);
      Record(State(files, Idle, torn));
    }
  }

  /** Mutating any number of times and then restoring is the identity on the tree. */
  method MutateAndRestore(files: Files, table: Table, names: seq<string>) returns (after: Files)
    requires Pristine(files, BAK) && GoodTable(table) && forall n :: n in names ==> n in table
    ensures after == files
  {
    hide Uncut, IsHistory, WholeBackups, Safe, EndsWith, Tidy, NeverStacked, Finish, Applies;
    var tool := new Tool(files, table);
    ghost var start := tool.history;
    for i := 0 to |names|
      invariant tool.Valid() && fresh(tool) && tool.table == table && start <= tool.history
    {
      var n := names[i];
      assert n in names;
      var _ := tool.Mutate(n, table[n]);
    }
    assert tool.history[0] == start[0];
    UncutIsWhole(tool.history, table, files);
    CrashSafety(tool.history, files, table, |tool.history| - 1);
    SafeIsTidy(tool.files, files);
    tool.Restore();
    after := tool.files;
    assert tool.history[0] == start[0];
    UncutIsWhole(tool.history, table, files);
    RestoreIsComplete(tool.history, files, table, |tool.history| - 2);
  }
}
