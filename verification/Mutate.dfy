/** `mutate.py`: one function's sanitiser calls reverted at a time. A backup is made only if there is
    none, so mutations may pile up on a file and the first backup stays the pristine one. */
module Mutate {
  import opened FileTree
  import opened TextEdit

  const BAK := ".sanitiser-mutation-backup"

  datatype Run =
    | Idle
    | Opened(path: string, text: string, fn: string)
    | BackedUp(path: string, text: string, fn: string)
    | CopiedBack(path: string)

  datatype State = State(files: Files, run: Run)

  // ---- the steps ---------------------------------------------------------------------------------------

  /** The file is read, whatever its name. */
  ghost predicate OpenOf(s: State, t: State, path: string, fn: string) {
    && s.run == Idle && path in s.files
    && t == s.(run := Opened(path, s.files[path], fn))
  }

  ghost predicate BackUp(s: State, t: State) {
    && s.run.Opened? && s.run.path in s.files
    && var p, b := s.run.path, BackupOf(s.run.path, BAK);
       t == State(if b in s.files then s.files else s.files[b := s.files[p]], BackedUp(p, s.run.text, s.run.fn))
  }

  /** The edited text is written, or the run gives up with the backup already made. */
  ghost predicate WriteOf(s: State, t: State, edited: string) {
    && s.run.BackedUp? && IsReverted(s.run.text, s.run.fn, edited)
    && t == State(s.files[s.run.path := edited], Idle)
  }

  ghost predicate CopyBackOf(s: State, t: State, p: string) {
    && s.run == Idle && BackupOf(p, BAK) in s.files
    && t == State(s.files[p := s.files[BackupOf(p, BAK)]], CopiedBack(p))
  }

  ghost predicate Unlink(s: State, t: State) {
    s.run.CopiedBack? && t == State(s.files - {BackupOf(s.run.path, BAK)}, Idle)
  }

  /** The run gives up or dies between two steps. */
  ghost predicate Stop(s: State, t: State) {
    t == s.(run := Idle)
  }

  /** The run dies inside a write to a source file that has a backup. */
  ghost predicate TearOf(s: State, t: State, p: string, junk: string) {
    && ((s.run.BackedUp? && s.run.path == p) || (s.run == Idle && BackupOf(p, BAK) in s.files))
    && t == State(s.files[p := junk], Idle)
  }

  /** Every step but the one below. */
  ghost predicate SoundStep(s: State, t: State) {
    || (exists p, fn :: OpenOf(s, t, p, fn)) || BackUp(s, t) || (exists e :: WriteOf(s, t, e))
    || (exists p :: CopyBackOf(s, t, p)) || Unlink(s, t) || Stop(s, t) || (exists p, junk :: TearOf(s, t, p, junk))
  }

  /** The run dies inside the copy that makes the backup, which is left holding anything. */
  ghost predicate TearBackupOf(s: State, t: State, p: string, arrived: string) {
    && s.run.Opened? && s.run.path == p && p in s.files && BackupOf(p, BAK) !in s.files
    && t == State(s.files[BackupOf(p, BAK) := arrived], Idle)
  }

  ghost predicate Step(s: State, t: State) {
    SoundStep(s, t) || exists p, arrived :: TearBackupOf(s, t, p, arrived)
  }

  /** If the step cuts a backup copy short, all of the pristine text had arrived. */
  ghost predicate Whole(s: State, t: State, pristine: Files) {
    forall p, arrived :: TearBackupOf(s, t, p, arrived) ==> p in pristine && arrived == pristine[p]
  }

  /** The path the tool was given is a backup, and it is now backed up in turn. */
  ghost predicate BacksUpBackup(s: State, t: State) {
    BackUp(s, t) && EndsWith(s.run.path, BAK)
  }

  /** The step does neither of the two things that cost the pristine text. */
  ghost predicate Faithful(s: State, t: State, pristine: Files) {
    Whole(s, t, pristine) && !BacksUpBackup(s, t)
  }

  // ---- the invariant --------------------------------------------------------------------------------------

  ghost predicate RunFits(s: State, pristine: Files) {
    match s.run
    case Idle => true
    case Opened(p, _, _) => p in s.files && (p in pristine || EndsWith(p, BAK))
    case BackedUp(p, _, _) => p in pristine && BackupOf(p, BAK) in s.files
    case CopiedBack(p) => p in pristine && p in s.files && s.files[p] == pristine[p]
  }

  ghost predicate Invariant(s: State, pristine: Files) {
    Safe(s.files, pristine, BAK) && RunFits(s, pristine)
  }

  lemma BackUpKeeps(s: State, t: State, pristine: Files)
    requires Pristine(pristine, BAK) && Invariant(s, pristine) && BackUp(s, t) && !BacksUpBackup(s, t)
    ensures Invariant(t, pristine)
  {
    hide Safe, EndsWith, Pristine;
    if BackupOf(s.run.path, BAK) !in s.files {
      CopyOutSafe(s.files, pristine, BAK, s.run.path);
    }
  }

  lemma BackingUpBackupBreaks(s: State, t: State, pristine: Files)
    requires Pristine(pristine, BAK) && Invariant(s, pristine) && BacksUpBackup(s, t)
    ensures !Safe(t.files, pristine, BAK)
  {
    var p := s.run.path;
    if BackupOf(p, BAK) in s.files {
      BackedUpIsSource(s.files, pristine, BAK, p);
    } else {
      BackupOfBackupUnsafe(s.files, pristine, BAK, p, s.files[p]);
    }
  }

  lemma TearKeeps(s: State, t: State, pristine: Files, p: string, junk: string)
    requires Pristine(pristine, BAK) && Invariant(s, pristine) && TearOf(s, t, p, junk)
    ensures Invariant(t, pristine)
  {
    hide Safe, EndsWith, Pristine;
    BackedUpIsSource(s.files, pristine, BAK, p);
    WriteSafe(s.files, pristine, BAK, p, junk);
  }

  lemma CopyBackKeeps(s: State, t: State, pristine: Files, p: string)
    requires Pristine(pristine, BAK) && Invariant(s, pristine) && CopyBackOf(s, t, p)
    ensures Invariant(t, pristine)
  {
    hide Safe, EndsWith, Pristine;
    BackedUpIsSource(s.files, pristine, BAK, p);
    WriteSafe(s.files, pristine, BAK, p, pristine[p]);
  }

  lemma SoundStepKeeps(s: State, t: State, pristine: Files)
    requires Pristine(pristine, BAK) && Invariant(s, pristine) && SoundStep(s, t) && !BacksUpBackup(s, t)
    ensures Invariant(t, pristine) && Whole(s, t, pristine)
  {
    SoundIsWhole(s, t, pristine);
    if p, fn :| OpenOf(s, t, p, fn) {
      if !EndsWith(p, BAK) { SourcePath(s.files, pristine, BAK, p); }
    } else if BackUp(s, t) {
      BackUpKeeps(s, t, pristine);
    } else if e :| WriteOf(s, t, e) {
      WriteSafe(s.files, pristine, BAK, s.run.path, e);
    } else if p :| CopyBackOf(s, t, p) {
      CopyBackKeeps(s, t, pristine, p);
    } else if Unlink(s, t) {
      UnlinkSafe(s.files, pristine, BAK, s.run.path);
    } else if p, junk :| TearOf(s, t, p, junk) {
      TearKeeps(s, t, pristine, p, junk);
    } else {
      assert Stop(s, t);
    }
  }

  lemma SoundIsWhole(s: State, t: State, pristine: Files)
    requires SoundStep(s, t)
    ensures Whole(s, t, pristine)
  {
  }

  lemma TearBackupKeeps(s: State, t: State, pristine: Files, p: string, arrived: string)
    requires Pristine(pristine, BAK) && Invariant(s, pristine) && TearBackupOf(s, t, p, arrived)
    ensures Safe(t.files, pristine, BAK) <==> p in pristine && arrived == pristine[p]
    ensures p in pristine && arrived == pristine[p] ==> Invariant(t, pristine)
  {
    hide Safe, EndsWith;
    if p in pristine {
      TornBackup(s.files, pristine, BAK, p, arrived);
    } else {
      BackupOfBackupUnsafe(s.files, pristine, BAK, p, arrived);
    }
  }

  /** A step tears at most one backup, and leaves one thing in it. */
  lemma OneTear(s: State, t: State, pristine: Files, p: string, arrived: string)
    requires TearBackupOf(s, t, p, arrived)
    ensures Faithful(s, t, pristine) <==> p in pristine && arrived == pristine[p]
  {
    forall q, other | TearBackupOf(s, t, q, other) ensures q == p && other == arrived {
      assert t.files[BackupOf(p, BAK)] == arrived;
      assert t.files[BackupOf(q, BAK)] == other;
    }
  }

  /** Every step of every run keeps the tree recoverable, unless it cuts the copy that makes a backup before
      the whole text had arrived, or backs up a backup; and those two never do. */
  lemma StepKeepsInvariant(s: State, t: State, pristine: Files)
    requires Pristine(pristine, BAK) && Invariant(s, pristine) && Step(s, t)
    ensures Faithful(s, t, pristine) ==> Invariant(t, pristine)
    ensures Faithful(s, t, pristine) <==> Safe(t.files, pristine, BAK)
  {
    hide Pristine, Safe, SoundStep, RunFits, BackUp;
    if BacksUpBackup(s, t) {
      BackingUpBackupBreaks(s, t, pristine);
    } else if SoundStep(s, t) {
      SoundStepKeeps(s, t, pristine);
    } else {
      var p, arrived :| TearBackupOf(s, t, p, arrived);
      TearBackupKeeps(s, t, pristine, p, arrived);
      OneTear(s, t, pristine, p, arrived);
    }
  }

  /** Any sequence of runs on any paths, each cut anywhere: consecutive states of the machine. */
  ghost predicate IsHistory(h: seq<State>) {
    forall i :: 0 <= i < |h| - 1 ==> Step(h[i], h[i + 1])
  }

  /** Every backup copy that was cut short had already copied everything, and no backup was backed up. */
  ghost predicate Faithfully(h: seq<State>, pristine: Files) {
    forall i :: 0 <= i < |h| - 1 ==> Faithful(h[i], h[i + 1], pristine)
  }

  ghost predicate SafeThroughout(h: seq<State>, pristine: Files) {
    forall i :: 0 <= i < |h| ==> Safe(h[i].files, pristine, BAK)
  }

  lemma {:induction false} HistoryIsSafe(h: seq<State>, pristine: Files, i: nat)
    requires Pristine(pristine, BAK) && IsHistory(h)
    requires i < |h| && h[0] == State(pristine, Idle)
    requires Faithfully(h, pristine) || SafeThroughout(h, pristine)
    ensures Invariant(h[i], pristine)
  {
    hide Step, Faithful, Safe;
    if i == 0 {
      PristineIsSafe(pristine, BAK);
    } else {
      hide Invariant;
      HistoryIsSafe(h, pristine, i - 1);
      StepKeepsInvariant(h[i - 1], h[i - 1 + 1], pristine);
    }
  }

  /** Crash safety: at every moment of every history that starts from a pristine tree, backs up no backup and
      cuts no backup copy short with text missing, each backup holds the pristine text and each file without
      one is pristine. */
  lemma CrashSafety(h: seq<State>, pristine: Files, i: nat)
    requires Pristine(pristine, BAK) && IsHistory(h) && Faithfully(h, pristine)
    requires i < |h| && h[0] == State(pristine, Idle)
    ensures Invariant(h[i], pristine)
  {
    HistoryIsSafe(h, pristine, i);
  }

  /** And only of those. */
  lemma CrashSafetyExactly(h: seq<State>, pristine: Files)
    requires Pristine(pristine, BAK) && IsHistory(h)
    requires h != [] && h[0] == State(pristine, Idle)
    ensures SafeThroughout(h, pristine) <==> Faithfully(h, pristine)
  {
    hide Safe, Faithful, Step;
    if SafeThroughout(h, pristine) {
      forall i | 0 <= i < |h| - 1 ensures Faithful(h[i], h[i + 1], pristine) {
        HistoryIsSafe(h, pristine, i);
        StepKeepsInvariant(h[i], h[i + 1], pristine);
      }
    }
    if Faithfully(h, pristine) {
      forall i: nat | i < |h| ensures Safe(h[i].files, pristine, BAK) {
        CrashSafety(h, pristine, i);
      }
    }
  }

  /** A restore that gets to its end leaves its file pristine and without a backup. */
  lemma RestoreIsComplete(h: seq<State>, pristine: Files, i: nat)
    requires Pristine(pristine, BAK) && IsHistory(h) && Faithfully(h, pristine)
    requires i + 1 < |h| && h[0] == State(pristine, Idle) && Unlink(h[i], h[i + 1])
    ensures var p := h[i].run.path;
            p in pristine && p in h[i + 1].files && h[i + 1].files[p] == pristine[p] && BackupOf(p, BAK) !in h[i + 1].files
  {
    hide IsHistory, Faithfully, Step, Safe, Pristine;
    CrashSafety(h, pristine, i);
    BackupsAreDistinct(h[i].run.path, h[i].run.path, BAK);
  }

  /** What the other histories cost. A run dies inside its backup copy; the next run finds a backup, makes
      none, and writes over the last pristine copy; the restore after it leaves what had arrived. */
  lemma TornBackupLoses(pristine: Files, p: string, fn: string, edited: string, arrived: string) returns (h: seq<State>)
    requires Pristine(pristine, BAK) && p in pristine && IsReverted(pristine[p], fn, edited)
    ensures IsHistory(h) && |h| == 8 && h[0] == State(pristine, Idle)
    ensures h[5].files == pristine[BackupOf(p, BAK) := arrived][p := edited] && edited != pristine[p]
    ensures Unlink(h[6], h[7]) && h[7].files == pristine[p := arrived]
  {
    var b, text := BackupOf(p, BAK), pristine[p];
    BackupsAreDistinct(p, p, BAK);
    RevertGrows(text, fn, edited);
    hide IsReverted, BackupOf;
    var torn := pristine[b := arrived];
    h := [State(pristine, Idle), State(pristine, Opened(p, text, fn)), State(torn, Idle),
          State(torn, Opened(p, text, fn)), State(torn, BackedUp(p, text, fn)), State(torn[p := edited], Idle),
          State(torn[p := arrived], CopiedBack(p)), State(pristine[p := arrived], Idle)];
    assert OpenOf(h[0], h[1], p, fn);
    assert TearBackupOf(h[1], h[2], p, arrived);
    assert OpenOf(h[2], h[3], p, fn);
    assert BackUp(h[3], h[4]);
    assert WriteOf(h[4], h[5], edited);
    assert torn[p := edited][p := arrived] == torn[p := arrived];
    assert CopyBackOf(h[5], h[6], p);
    assert torn[p := arrived] - {b} == pristine[p := arrived];
    assert Unlink(h[6], h[7]);
  }

  /** The tool is run on a source and then on its backup: the second mutation is written over the pristine
      text, and the restore of the source that follows leaves it mutated, with no backup of its own. */
  lemma BackedUpBackupLoses(pristine: Files, p: string, fn: string, edited: string) returns (h: seq<State>)
    requires Pristine(pristine, BAK) && p in pristine && IsReverted(pristine[p], fn, edited)
    ensures IsHistory(h) && |h| == 9 && h[0] == State(pristine, Idle)
    ensures BacksUpBackup(h[4], h[5]) && !Recoverable(h[6].files, pristine, BAK, p)
    ensures Unlink(h[7], h[8]) && edited != pristine[p]
    ensures h[8].files == pristine[BackupOf(BackupOf(p, BAK), BAK) := pristine[p]][p := edited]
  {
    var b, bb, text := BackupOf(p, BAK), BackupOf(BackupOf(p, BAK), BAK), pristine[p];
    BackupsAreDistinct(p, p, BAK);
    BackupsAreDistinct(b, b, BAK);
    BackupsAreDistinct(p, b, BAK);
    RevertGrows(text, fn, edited);
    hide IsReverted, BackupOf, EndsWith;
    var backed := pristine[b := text];
    var twice := backed[p := edited][bb := text];
    h := [State(pristine, Idle), State(pristine, Opened(p, text, fn)), State(backed, BackedUp(p, text, fn)),
          State(backed[p := edited], Idle), State(backed[p := edited], Opened(b, text, fn)),
          State(twice, BackedUp(b, text, fn)), State(twice[b := edited], Idle),
          State(twice[b := edited], CopiedBack(p)), State(twice - {b}, Idle)];
    assert OpenOf(h[0], h[1], p, fn);
    assert BackUp(h[1], h[2]);
    assert WriteOf(h[2], h[3], edited);
    assert OpenOf(h[3], h[4], b, fn);
    assert BackUp(h[4], h[5]);
    assert WriteOf(h[5], h[6], edited);
    assert twice[b := edited][p := edited] == twice[b := edited];
    assert CopyBackOf(h[6], h[7], p);
    assert twice[b := edited] - {b} == twice - {b};
    assert Unlink(h[7], h[8]);
    assert twice - {b} == pristine[bb := text][p := edited];
  }

  /** A history the tool completes never cuts a backup copy. */
  ghost predicate Uncut(h: seq<State>) {
    forall i :: 0 <= i < |h| - 1 ==> SoundStep(h[i], h[i + 1])
  }

  ghost predicate SourcesOnly(h: seq<State>) {
    forall i :: 0 <= i < |h| - 1 ==> !BacksUpBackup(h[i], h[i + 1])
  }

  lemma UncutIsFaithful(h: seq<State>, pristine: Files)
    requires Uncut(h) && SourcesOnly(h)
    ensures IsHistory(h) && Faithfully(h, pristine)
  {
    hide SoundStep;
    forall i | 0 <= i < |h| - 1 ensures Faithful(h[i], h[i + 1], pristine) {
      SoundIsWhole(h[i], h[i + 1], pristine);
    }
  }

  // ---- the tool itself ---------------------------------------------------------------------------------------

  class Tool {
    var files: Files
    /** Every state the disk and the run have been in. */
    ghost var history: seq<State>

    ghost predicate Valid()
      reads this
    {
      Uncut(history) && history != [] && history[|history| - 1] == State(files, Idle)
    }

    constructor (files: Files)
      ensures Valid() && this.files == files && history == [State(files, Idle)]
    {
      this.files := files;
      history := [State(files, Idle)];
    }

    ghost method Record(t: State)
      requires Uncut(history) && history != [] && SoundStep(history[|history| - 1], t)
      modifies this`history
      ensures history == old(history) + [t] && Uncut(history)
      ensures old(SourcesOnly(history)) && !BacksUpBackup(old(history)[|old(history)| - 1], t) ==> SourcesOnly(history)
    {
      var before := history;
      history := history + [t];
      hide SoundStep, BacksUpBackup;
      forall i | 0 <= i < |history| - 1 ensures SoundStep(history[i], history[i + 1]) {
        if i < |before| - 1 { assert history[i] == before[i] && history[i + 1] == before[i + 1]; }
      }
      if SourcesOnly(before) && !BacksUpBackup(before[|before| - 1], t) {
        forall i | 0 <= i < |history| - 1 ensures !BacksUpBackup(history[i], history[i + 1]) {
          if i < |before| - 1 { assert history[i] == before[i] && history[i + 1] == before[i + 1]; }
        }
      }
    }

    /** A mutating run: backup if absent, then write, or give up leaving only the backup behind. */
    method Mutate(path: string, fn: string) returns (applied: bool)
      requires Valid()
      modifies this
      ensures Valid() && old(history) <= history
      ensures old(SourcesOnly(history)) && !EndsWith(path, BAK) ==> SourcesOnly(history)
      ensures path !in old(files) ==> !applied && files == old(files)
      ensures path in old(files) ==>
                var backed := if BackupOf(path, BAK) in old(files) then old(files)
                              else old(files)[BackupOf(path, BAK) := old(files)[path]];
                if applied then exists e :: IsReverted(old(files)[path], fn, e) && files == backed[path := e]
                else files == backed && forall e :: !IsReverted(old(files)[path], fn, e)
    {
      hide Uncut, IsReverted, EndsWith, SourcesOnly;
      if path !in files {
        return false;
      }
      var text := files[path];
      assert OpenOf(State(files, Idle), State(files, Opened(path, text, fn)), path, fn);
      Record(State(files, Opened(path, text, fn)));
      ghost var asRead := State(files, Opened(path, text, fn));
      if BackupOf(path, BAK) !in files {
        files := files[BackupOf(path, BAK) := files[path]];
      }
      assert BackUp(asRead, State(files, BackedUp(path, text, fn)));
      Record(State(files, BackedUp(path, text, fn)));
      var edited := Revert(text, fn);
      if edited.None? {
        assert Stop(State(files, BackedUp(path, text, fn)), State(files, Idle));
        Record(State(files, Idle));
        return false;
      }
      assert WriteOf(State(files, BackedUp(path, text, fn)), State(files[path := edited.value], Idle), edited.value);
      files := files[path := edited.value];
      Record(State(files, Idle));
      return true;
    }

    /** A restoring run; without a backup the copy fails before anything is touched. */
    method Restore(path: string) returns (restored: bool)
      requires Valid()
      modifies this
      ensures Valid() && old(history) <= history
      ensures old(SourcesOnly(history)) ==> SourcesOnly(history)
      ensures restored <==> BackupOf(path, BAK) in old(files)
      ensures !restored ==> files == old(files)
      ensures restored ==>
                files == old(files)[path := old(files)[BackupOf(path, BAK)]] - {BackupOf(path, BAK)}
    {
      hide Uncut, EndsWith, SourcesOnly;
      var b := BackupOf(path, BAK);
      if b !in files {
        return false;
      }
      assert CopyBackOf(State(files, Idle), State(files[path := files[b]], CopiedBack(path)), path);
      files := files[path := files[b]];
      Record(State(files, CopiedBack(path)));
      assert Unlink(State(files, CopiedBack(path)), State(files - {b}, Idle));
      files := files - {b};
      Record(State(files, Idle));
      return true;
    }
  }

  /** Piling up reversions in one file and restoring it once is the identity on the tree. */
  method MutateAndRestore(files: Files, path: string, fns: seq<string>) returns (after: Files)
    requires Pristine(files, BAK) && path in files
    ensures after == files
  {
    hide Uncut, Safe, Pristine, EndsWith, IsReverted;
    var tool := new Tool(files);
    ghost var start := tool.history;
    NotABackup(files, path);
    for i := 0 to |fns|
      invariant tool.Valid() && fresh(tool) && start <= tool.history && SourcesOnly(tool.history)
      invariant path in tool.files && tool.files.Keys <= files.Keys + {BackupOf(path, BAK)}
    {
      var _ := tool.Mutate(path, fns[i]);
    }
    var restored := tool.Restore(path);
    after := tool.files;
    assert tool.history[0] == start[0];
    UncutIsFaithful(tool.history, files);
    CrashSafety(tool.history, files, |tool.history| - 1);
    NoBackupLeft(after, files, path);
    NoBackupsIsPristine(after, files, BAK);
  }

  lemma NotABackup(files: Files, path: string)
    requires Pristine(files, BAK) && path in files
    ensures !EndsWith(path, BAK) && BackupOf(path, BAK) !in files
  {
    BackupsAreDistinct(path, path, BAK);
  }

  lemma NoBackupLeft(after: Files, files: Files, path: string)
    requires Pristine(files, BAK) && after.Keys <= files.Keys + {BackupOf(path, BAK)}
    requires BackupOf(path, BAK) !in after
    ensures forall f :: f in after ==> !EndsWith(f, BAK)
  {
    forall f | f in after ensures !EndsWith(f, BAK) {
      assert f in after.Keys && f in files.Keys;
    }
  }
}
