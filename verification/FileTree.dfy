/** The disk the mutation tools work on, and what it means for it to be recoverable. */
module FileTree {

  type Files = map<string, string>

  predicate EndsWith(s: string, t: string) {
    |t| <= |s| && s[|s| - |t|..] == t
  }

  /** `str(p) + BAK`. */
  function BackupOf(p: string, bak: string): string {
    p + bak
  }

  lemma BackupsAreDistinct(p: string, q: string, bak: string)
    ensures EndsWith(BackupOf(p, bak), bak)
    ensures BackupOf(p, bak) == BackupOf(q, bak) ==> p == q
    ensures BackupOf(p, bak)[..|BackupOf(p, bak)| - |bak|] == p
  {
    assert (p + bak)[..|p + bak| - |bak|] == p;
    assert (q + bak)[..|q + bak| - |bak|] == q;
  }

  lemma BackupPath(b: string, bak: string)
    requires EndsWith(b, bak)
    ensures b == BackupOf(b[..|b| - |bak|], bak)
  {
  }

  /** A tree with no backups in it: what the tools are first let loose on. */
  ghost predicate Pristine(files: Files, bak: string) {
    forall p :: p in files ==> !EndsWith(p, bak)
  }

  /** One source file is recoverable: from its backup if it has one, and as it stands if not. */
  ghost predicate Recoverable(files: Files, pristine: Files, bak: string, p: string)
    requires p in pristine
  {
    && p in files
    && (if BackupOf(p, bak) in files then files[BackupOf(p, bak)] == pristine[p] else files[p] == pristine[p])
  }

  ghost predicate BacksUp(f: string, pristine: Files, bak: string) {
    exists p :: p in pristine && f == BackupOf(p, bak)
  }

  /** Every existing backup holds the pristine text, every file without one is pristine, and nothing
      else has appeared. */
  ghost predicate Safe(files: Files, pristine: Files, bak: string) {
    && (forall p :: p in pristine ==> Recoverable(files, pristine, bak, p))
    && (forall f :: f in files ==> f in pristine || BacksUp(f, pristine, bak))
  }

  lemma PristineIsSafe(pristine: Files, bak: string)
    requires Pristine(pristine, bak)
    ensures Safe(pristine, pristine, bak)
  {
    forall p | p in pristine ensures Recoverable(pristine, pristine, bak, p) {
      BackupsAreDistinct(p, p, bak);
    }
  }

  /** A path that is no backup and exists is a source file. */
  lemma SourcePath(files: Files, pristine: Files, bak: string, p: string)
    requires Safe(files, pristine, bak) && p in files && !EndsWith(p, bak)
    ensures p in pristine
  {
  }

  /** A backed-up path is a source, and its backup holds the pristine text. */
  lemma BackedUpIsSource(files: Files, pristine: Files, bak: string, p: string)
    requires Safe(files, pristine, bak) && Pristine(pristine, bak) && BackupOf(p, bak) in files
    ensures p in pristine && p in files && files[BackupOf(p, bak)] == pristine[p]
  {
    BackupsAreDistinct(p, p, bak);
    assert Recoverable(files, pristine, bak, p);
  }

  // ---- the three primitive steps -----------------------------------------------------------------------

  /** Copying a source out when it has no backup yet. */
  lemma CopyOutSafe(files: Files, pristine: Files, bak: string, p: string)
    requires Safe(files, pristine, bak) && Pristine(pristine, bak) && p in pristine && BackupOf(p, bak) !in files
    ensures p in files && Safe(files[BackupOf(p, bak) := files[p]], pristine, bak)
  {
    assert Recoverable(files, pristine, bak, p);
    var b := BackupOf(p, bak);
    var after := files[b := files[p]];
    BackupsAreDistinct(p, p, bak);
    forall q | q in pristine ensures Recoverable(after, pristine, bak, q) {
      BackupsAreDistinct(p, q, bak);
      assert Recoverable(files, pristine, bak, q);
    }
  }

  /** Writing anything at all to a source that has a backup, even a write cut short. */
  lemma WriteSafe(files: Files, pristine: Files, bak: string, p: string, text: string)
    requires Safe(files, pristine, bak) && Pristine(pristine, bak) && p in pristine && BackupOf(p, bak) in files
    ensures Safe(files[p := text], pristine, bak)
  {
    var after := files[p := text];
    forall q | q in pristine ensures Recoverable(after, pristine, bak, q) {
      BackupsAreDistinct(q, p, bak);
      assert Recoverable(files, pristine, bak, q);
    }
  }

  /** Removing the backup of a source that is pristine again. */
  lemma UnlinkSafe(files: Files, pristine: Files, bak: string, p: string)
    requires Safe(files, pristine, bak) && Pristine(pristine, bak) && p in pristine && p in files && files[p] == pristine[p]
    ensures Safe(files - {BackupOf(p, bak)}, pristine, bak)
  {
    var after := files - {BackupOf(p, bak)};
    forall q | q in pristine ensures Recoverable(after, pristine, bak, q) {
      BackupsAreDistinct(p, q, bak);
      assert Recoverable(files, pristine, bak, q);
    }
  }

  /** A safe tree without backups is the pristine one, file for file. */
  lemma NoBackupsIsPristine(files: Files, pristine: Files, bak: string)
    requires Safe(files, pristine, bak) && forall f :: f in files ==> !EndsWith(f, bak)
    ensures files == pristine
  {
    forall p | p in pristine ensures p in files && files[p] == pristine[p] {
      assert Recoverable(files, pristine, bak, p);
      BackupsAreDistinct(p, p, bak);
    }
  }

  // ---- where the safety ends ------------------------------------------------------------------------------

  /** A copy that makes or replaces a backup keeps the tree recoverable exactly when what arrives is the
      whole pristine text. */
  lemma TornBackup(files: Files, pristine: Files, bak: string, p: string, arrived: string)
    requires Safe(files, pristine, bak) && Pristine(pristine, bak) && p in pristine
    ensures Safe(files[BackupOf(p, bak) := arrived], pristine, bak) <==> arrived == pristine[p]
  {
    var after := files[BackupOf(p, bak) := arrived];
    BackupsAreDistinct(p, p, bak);
    assert Recoverable(files, pristine, bak, p);
    if arrived == pristine[p] {
      forall q | q in pristine ensures Recoverable(after, pristine, bak, q) {
        BackupsAreDistinct(p, q, bak);
        assert Recoverable(files, pristine, bak, q);
      }
    } else {
      assert !Recoverable(after, pristine, bak, p);
    }
  }

  /** Copying a source out over its own backup is safe exactly when the source is pristine: what a second
      mutation would do, and what two runs interleaved between check and copy do. */
  lemma CopyOverBackup(files: Files, pristine: Files, bak: string, p: string)
    requires Safe(files, pristine, bak) && Pristine(pristine, bak) && p in pristine
    ensures p in files
    ensures Safe(files[BackupOf(p, bak) := files[p]], pristine, bak) <==> files[p] == pristine[p]
  {
    assert Recoverable(files, pristine, bak, p);
    TornBackup(files, pristine, bak, p, files[p]);
  }

  /** Nothing the tools call pristine has a backup's name, so a backup of a backup is a stranger. */
  lemma BackupOfBackupUnsafe(files: Files, pristine: Files, bak: string, p: string, arrived: string)
    requires Pristine(pristine, bak) && EndsWith(p, bak)
    ensures !Safe(files[BackupOf(p, bak) := arrived], pristine, bak)
  {
    BackupsAreDistinct(p, p, bak);
    assert BackupOf(p, bak) in files[BackupOf(p, bak) := arrived];
  }

  /** Backing up is safe exactly when the path is not itself a backup. */
  lemma BackingUpABackup(files: Files, pristine: Files, bak: string, p: string)
    requires Safe(files, pristine, bak) && Pristine(pristine, bak) && p in files && BackupOf(p, bak) !in files
    ensures Safe(files[BackupOf(p, bak) := files[p]], pristine, bak) <==> !EndsWith(p, bak)
  {
    if !EndsWith(p, bak) {
      CopyOutSafe(files, pristine, bak, p);
    } else {
      BackupOfBackupUnsafe(files, pristine, bak, p, files[p]);
    }
  }

  /** A backup of a backup, for every source there is. */
  lemma BackupOfABackup(pristine: Files, bak: string, p: string)
    requires Pristine(pristine, bak) && p in pristine && bak != []
    ensures var b := BackupOf(p, bak);
            var files := pristine[b := pristine[p]];
            Safe(files, pristine, bak) && !Safe(files[BackupOf(b, bak) := files[b]], pristine, bak)
  {
    var b := BackupOf(p, bak);
    PristineIsSafe(pristine, bak);
    BackupsAreDistinct(p, p, bak);
    CopyOutSafe(pristine, pristine, bak, p);
    BackupsAreDistinct(b, b, bak);
    assert BackupOf(b, bak) != b;
    BackingUpABackup(pristine[b := pristine[p]], pristine, bak, b);
  }
}
