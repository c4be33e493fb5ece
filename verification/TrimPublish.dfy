/** Replacing a recording by its trimmed copy: sixteen stages that may each fail, then cleanup. */
module TrimPublish {
  import opened Common

  datatype Stage =
    | ResolveSource | OpenSource | SelectInterval | ReportInterval | CheckBackup | CreateTemporary | Export
    | Validate | PreservePermissions | SyncTemporary | CreateBackup | SyncBackup | RemoveSidecars | Install
    | SyncReplacement | ReadSize

  /** What a path holds: the source, an exported copy, part of one, or somebody else's file. */
  datatype Content = Original | Exported(valid: bool) | Fragment | Foreign(id: nat)

  datatype Files = Files(archive: Content, backup: Option<Content>, temporary: Option<Content>, sidecars: nat)

  datatype Options = Options(dryRun: bool, keepBackup: bool, reports: bool)

  datatype Cleanup = RemovingBackup | ClosingSource | RemovingTemporary

  /** Where the world goes wrong. `stages` fail when reached; the other fields say how. */
  datatype Faults = Faults(
    stages: set<Stage>,
    temporaryStuck: bool,            // the new temporary file could be made but not closed and unlinked
    exported: Option<Content>,       // what a failing export leaves at the temporary path
    exportValid: bool,               // whether a finished export passes validation
    rival: Option<nat>,              // a file another process puts at the backup path after the check
    sidecarsLeft: nat,               // sidecars a failing removal leaves
    linkUnrecorded: bool,            // interrupted right after the link, before it is recorded
    installUnrecorded: bool,         // interrupted right after the replacement, before it is recorded
    backupStuck: bool, readerStuck: bool, temporaryKept: bool,
    interrupted: Option<Cleanup>,    // the cleanup step an interrupt falls into, which nothing catches
    interruptedLate: bool)           // whether that step had taken effect

  datatype Trimmed = Trimmed(replaced: bool, backup: bool)

  /** What the caller is told when the trim did not end well; an interrupted cleanup tells nothing. */
  datatype TrimError =
    | TrimError(stage: Option<Stage>, replaced: bool, backupRetained: bool, cleanup: seq<Cleanup>)
    | Interrupted

  // ---------- how far a trim gets, from what its caller passes and finds ----------

  predicate Planned(options: Options, faults: Faults) {
    {ResolveSource, OpenSource, SelectInterval} !! faults.stages && (options.reports ==> ReportInterval !in faults.stages)
  }

  predicate ReachesTemporary(before: Files, options: Options, faults: Faults) {
    && Planned(options, faults) && !options.dryRun
    && (options.keepBackup ==> CheckBackup !in faults.stages && before.backup.None?)
  }

  predicate Validated(before: Files, options: Options, faults: Faults) {
    && ReachesTemporary(before, options, faults) && faults.exportValid
    && {CreateTemporary, Export, Validate, PreservePermissions, SyncTemporary} !! faults.stages
  }

  /** The source gets its second name. */
  predicate Linked(before: Files, options: Options, faults: Faults) {
    Validated(before, options, faults) && options.keepBackup && CreateBackup !in faults.stages && faults.rival.None?
  }

  predicate ReachesInstall(before: Files, options: Options, faults: Faults) {
    && Validated(before, options, faults) && RemoveSidecars !in faults.stages
    && (options.keepBackup ==> Linked(before, options, faults) && !faults.linkUnrecorded && SyncBackup !in faults.stages)
  }

  predicate Replaces(before: Files, options: Options, faults: Faults) {
    ReachesInstall(before, options, faults) && Install !in faults.stages
  }

  predicate Completes(before: Files, options: Options, faults: Faults) {
    Replaces(before, options, faults) && !faults.installUnrecorded && {SyncReplacement, ReadSize} !! faults.stages
  }

  /** A named stage is one at which something did go wrong. */
  predicate WentWrong(before: Files, faults: Faults, stage: Stage) {
    || stage in faults.stages
    || (stage == CheckBackup && before.backup.Some?)
    || (stage == Validate && !faults.exportValid)
    || (stage == CreateBackup && (faults.rival.Some? || faults.linkUnrecorded))
    || (stage == Install && faults.installUnrecorded)
  }

  predicate SomeoneElses(backup: Option<Content>, faults: Faults) {
    faults.rival.Some? && backup == Some(Foreign(faults.rival.value))
  }

  // ---------- what cleanup comes to ----------

  /** Cleanup is asked to take the backup away: it was recorded, the replacement was not. */
  predicate UndoesBackup(before: Files, options: Options, faults: Faults) {
    && Linked(before, options, faults) && !faults.linkUnrecorded
    && !(Replaces(before, options, faults) && !faults.installUnrecorded)
  }

  predicate BackupGoes(faults: Faults) {
    if faults.interrupted == Some(RemovingBackup) then faults.interruptedLate else !faults.backupStuck
  }

  /** No earlier cleanup step is interrupted, and removing the temporary file itself works. */
  predicate TemporaryGoes(faults: Faults, undoesBackup: bool, readerOpen: bool) {
    && !(undoesBackup && faults.interrupted == Some(RemovingBackup))
    && !(readerOpen && faults.interrupted == Some(ClosingSource))
    && if faults.interrupted == Some(RemovingTemporary) then faults.interruptedLate else !faults.temporaryKept
  }

  /** A file stays at the temporary path: it was made but never recorded, or something was there when the
      stages stopped and cleanup did not get to remove it. */
  predicate TemporaryLeft(before: Files, options: Options, faults: Faults) {
    && ReachesTemporary(before, options, faults)
    && if CreateTemporary in faults.stages then faults.temporaryStuck
       else && !Replaces(before, options, faults) && (Export in faults.stages ==> faults.exported.Some?)
            && !TemporaryGoes(faults, UndoesBackup(before, options, faults), true)
  }

  class RecordingTrim {
    var files: Files
    var readerOpen: bool
    var temporaryKnown: bool
    var backupWanted: bool
    var backupCreated: bool
    var replacementInstalled: bool

    constructor (files: Files)
      ensures this.files == files
      ensures !readerOpen && !temporaryKnown && !backupCreated && !replacementInstalled
    {
      this.files := files;
      readerOpen, temporaryKnown, backupWanted, backupCreated, replacementInstalled := false, false, false, false, false;
    }

    method CreateTemporaryPath(faults: Faults) returns (ok: bool)
      requires files.temporary.None? && !temporaryKnown
      modifies this`files, this`temporaryKnown
      ensures files == old(files).(temporary := files.temporary)
      ensures ok <==> CreateTemporary !in faults.stages
      ensures ok <==> temporaryKnown
      ensures files.temporary == if !ok && faults.temporaryStuck then Some(Fragment) else None
    {
      if CreateTemporary in faults.stages {
        if faults.temporaryStuck {
          files := files.(temporary := Some(Fragment));
        }
        return false;
      }
      temporaryKnown := true;
      return true;
    }

    /** Opening, planning and reporting: nothing is written. */
    method Plan(options: Options, faults: Faults) returns (failed: Option<Stage>)
      modifies this`readerOpen
      ensures failed.None? <==> Planned(options, faults)
      ensures failed.None? ==> readerOpen
      ensures failed.Some? ==> failed.value in faults.stages
    {
      if ResolveSource in faults.stages { return Some(ResolveSource); }
      if OpenSource in faults.stages { return Some(OpenSource); }
      readerOpen := true;
      if SelectInterval in faults.stages { return Some(SelectInterval); }
      if options.reports && ReportInterval in faults.stages { return Some(ReportInterval); }
      return None;
    }

    /** From the temporary path to a validated, synchronized copy at it. */
    method Prepare(faults: Faults) returns (failed: Option<Stage>)
      requires files.temporary.None? && !temporaryKnown
      modifies this`files, this`temporaryKnown
      ensures files == old(files).(temporary := files.temporary)
      ensures temporaryKnown <==> CreateTemporary !in faults.stages
      ensures failed.None? <==>
                faults.exportValid && {CreateTemporary, Export, Validate, PreservePermissions, SyncTemporary} !! faults.stages
      ensures failed.None? ==> files.temporary == Some(Exported(true))
      ensures files.temporary.Some? <==>
                if !temporaryKnown then faults.temporaryStuck else Export in faults.stages ==> faults.exported.Some?
      ensures failed.Some? ==>
                failed.value in {CreateTemporary, Export, Validate, PreservePermissions, SyncTemporary}
                && WentWrong(files, faults, failed.value)
    {
      var made := CreateTemporaryPath(faults);
      if !made { return Some(CreateTemporary); }
      if Export in faults.stages {
        files := files.(temporary := faults.exported);
        return Some(Export);
      }
      files := files.(temporary := Some(Exported(faults.exportValid)));
      if Validate in faults.stages || !faults.exportValid { return Some(Validate); }
      if PreservePermissions in faults.stages { return Some(PreservePermissions); }
      if SyncTemporary in faults.stages { return Some(SyncTemporary); }
      return None;
    }

    /** Linking never replaces a file: it fails when anything is at the backup path already. */
    method LinkBackup(faults: Faults) returns (failed: Option<Stage>)
      requires !backupCreated && files.archive == Original
      modifies this`files, this`backupCreated
      ensures files.(backup := old(files).backup) == old(files)
      ensures var linked := CreateBackup !in faults.stages && old(files).backup.None?;
              && files.backup == (if linked then Some(Original) else old(files).backup)
              && (backupCreated <==> linked && !faults.linkUnrecorded)
              && (failed.None? <==> backupCreated && SyncBackup !in faults.stages)
      ensures failed.Some? ==> failed == Some(if backupCreated then SyncBackup else CreateBackup)
    {
      if CreateBackup in faults.stages || files.backup.Some? { return Some(CreateBackup); }
      files := files.(backup := Some(files.archive));
      if faults.linkUnrecorded { return Some(CreateBackup); }
      backupCreated := true;
      if SyncBackup in faults.stages { return Some(SyncBackup); }
      return None;
    }

    /** The rename that puts the copy in place, and what follows it. */
    method InstallReplacement(faults: Faults) returns (failed: Option<Stage>)
      requires files.temporary == Some(Exported(true)) && !replacementInstalled && files.archive == Original
      modifies this`files, this`replacementInstalled
      ensures files.backup == old(files).backup
      ensures var replaced := {RemoveSidecars, Install} !! faults.stages;
              && files.archive == (if replaced then Exported(true) else Original)
              && files.temporary == (if replaced then None else old(files).temporary)
              && (replacementInstalled <==> replaced && !faults.installUnrecorded)
              && (failed.None? <==> replacementInstalled && {SyncReplacement, ReadSize} !! faults.stages)
      ensures failed.Some? ==> failed.value in faults.stages || (failed == Some(Install) && faults.installUnrecorded)
    {
      if RemoveSidecars in faults.stages {
        files := files.(sidecars := faults.sidecarsLeft);
        return Some(RemoveSidecars);
      }
      files := files.(sidecars := 0);
      if Install in faults.stages { return Some(Install); }
      files := files.(archive := files.temporary.value, temporary := None);
      if faults.installUnrecorded { return Some(Install); }
      replacementInstalled := true;
      if SyncReplacement in faults.stages { return Some(SyncReplacement); }
      if ReadSize in faults.stages { return Some(ReadSize); }
      return None;
    }

    /** The operation up to its first failure. */
    method Attempt(options: Options, faults: Faults) returns (failed: Option<Stage>)
      requires files.archive == Original && files.temporary.None?
      requires !readerOpen && !temporaryKnown && !backupCreated && !replacementInstalled
      modifies this
      ensures options.dryRun ==> files == old(files)
      ensures Stopped(old(files), options, faults)
      ensures failed.None? <==> if options.dryRun then Planned(options, faults) else Completes(old(files), options, faults)
      ensures failed.Some? ==> WentWrong(old(files), faults, failed.value)
    {
      backupWanted := false;
      failed := Plan(options, faults);
      if failed.Some? || options.dryRun { return; }
      if options.keepBackup {
        backupWanted := true;
        if CheckBackup in faults.stages || files.backup.Some? { return Some(CheckBackup); }
      }
      failed := Prepare(faults);
      if failed.Some? { return; }
      // Between the check and the link another process may have taken the backup path.
      if options.keepBackup && faults.rival.Some? {
        files := files.(backup := Some(Foreign(faults.rival.value)));
      }
      if options.keepBackup {
        failed := LinkBackup(faults);
        if failed.Some? { return; }
      }
      failed := InstallReplacement(faults);
    }

    /** The files and flags, wherever the stages stopped. */
    predicate Stopped(before: Files, options: Options, faults: Faults)
      reads this
    {
      && files.archive == (if Replaces(before, options, faults) then Exported(true) else Original)
      && files.backup == (if Linked(before, options, faults) then Some(Original)
                          else if Validated(before, options, faults) && options.keepBackup && faults.rival.Some?
                          then Some(Foreign(faults.rival.value)) else before.backup)
      && (replacementInstalled <==> Replaces(before, options, faults) && !faults.installUnrecorded)
      && (backupCreated <==> Linked(before, options, faults) && !faults.linkUnrecorded)
      && (backupCreated ==> backupWanted) && (backupWanted ==> options.keepBackup)
      && (temporaryKnown <==> ReachesTemporary(before, options, faults) && CreateTemporary !in faults.stages)
      && (temporaryKnown ==> readerOpen)
      && (files.temporary.Some? <==>
          && ReachesTemporary(before, options, faults) && !Replaces(before, options, faults)
          && if CreateTemporary in faults.stages then faults.temporaryStuck
             else Export in faults.stages ==> faults.exported.Some?)
    }

    /** Each cleanup step is tried whatever the earlier ones raised, unless an interrupt falls into one: then
        the later steps are skipped. The flag says whether a backup this trim recorded is still there. */
    method CleanUp(removeBackup: bool, faults: Faults)
      returns (failures: seq<Cleanup>, backupRetained: bool, interrupted: bool)
      requires removeBackup ==> backupCreated
      requires backupCreated ==> backupWanted
      modifies this`files, this`readerOpen
      ensures files == old(files).(backup := files.backup, temporary := files.temporary)
      ensures files.backup == if removeBackup && BackupGoes(faults) then None else old(files).backup
      ensures files.temporary ==
                if temporaryKnown && TemporaryGoes(faults, removeBackup, old(readerOpen)) then None else old(files).temporary
      ensures interrupted <==> || (removeBackup && faults.interrupted == Some(RemovingBackup))
                               || (old(readerOpen) && faults.interrupted == Some(ClosingSource))
                               || (temporaryKnown && faults.interrupted == Some(RemovingTemporary))
      ensures !interrupted ==> (backupRetained <==> backupCreated && (removeBackup ==> faults.backupStuck))
      ensures !interrupted ==>
                && (RemovingBackup in failures <==> removeBackup && faults.backupStuck)
                && (RemovingTemporary in failures <==> temporaryKnown && faults.temporaryKept)
                && (ClosingSource in failures <==> old(readerOpen) && faults.readerStuck)
    {
      failures := [];
      backupRetained := backupCreated;
      interrupted := false;
      if removeBackup && backupWanted {
        interrupted := faults.interrupted == Some(RemovingBackup);
        var gone := if interrupted then faults.interruptedLate else !faults.backupStuck;
        if gone {
          files := files.(backup := None);
          backupRetained := false;
        }
        if interrupted { return; }
        if faults.backupStuck { failures := failures + [RemovingBackup]; }
      }
      if readerOpen {
        if faults.interrupted == Some(ClosingSource) { return failures, backupRetained, true; }
        if faults.readerStuck { failures := failures + [ClosingSource]; } else { readerOpen := false; }
      }
      if temporaryKnown {
        interrupted := faults.interrupted == Some(RemovingTemporary);
        var gone := if interrupted then faults.interruptedLate else !faults.temporaryKept;
        if gone {
          files := files.(temporary := None);
        }
        if interrupted { return; }
        if faults.temporaryKept { failures := failures + [RemovingTemporary]; }
      }
    }

    /** Whichever stage fails, the archive path holds the complete source or the validated copy. */
    method Trim(options: Options, faults: Faults) returns (r: Result<Trimmed, TrimError>)
      requires files.archive == Original && files.temporary.None?
      requires !readerOpen && !temporaryKnown && !backupCreated && !replacementInstalled
      modifies this
      ensures options.dryRun ==> files == old(files)
      ensures files.archive == if Replaces(old(files), options, faults) then Exported(true) else Original
      // A replaced source stays reachable, except when an interrupt makes the cleanup take its backup away.
      ensures Replaces(old(files), options, faults) && options.keepBackup ==>
                (files.backup == Some(Original) <==> !(faults.installUnrecorded && BackupGoes(faults)))
      // Nobody else's backup is touched.
      ensures old(files).backup.Some? && options.keepBackup ==> files.backup == old(files).backup && files.archive == Original
      ensures !options.keepBackup ==> files.backup == old(files).backup
      // A trim that did not replace leaves no backup, but for a link never recorded or one that would not go.
      ensures !Replaces(old(files), options, faults) ==>
                (files.backup == old(files).backup || SomeoneElses(files.backup, faults) <==>
                 !(Linked(old(files), options, faults) && (faults.linkUnrecorded || !BackupGoes(faults))))
      // No temporary file stays, but for one never recorded or one that cleanup did not remove.
      ensures files.temporary.None? <==> !TemporaryLeft(old(files), options, faults)
      // The report is true.
      ensures r.Success? ==> if options.dryRun then r.value == Trimmed(false, false)
                             else Completes(old(files), options, faults) && r.value == Trimmed(true, options.keepBackup)
      ensures r.Success? && r.value.backup ==> files.backup == Some(Original)
      ensures r.Failure? && r.error.TrimError? ==>
                && (r.error.stage.Some? ==> WentWrong(old(files), faults, r.error.stage.value))
                && (r.error.replaced <==> Replaces(old(files), options, faults) && !faults.installUnrecorded)
                && (r.error.backupRetained ==> files.backup == Some(Original) && old(files).backup.None?)
    {
      var failed := Attempt(options, faults);
      var cleanup, backupRetained, interrupted := CleanUp(backupCreated && !replacementInstalled, faults);
      if interrupted {
        return Failure(Interrupted);
      }
      if failed.Some? || cleanup != [] {
        return Failure(TrimError(failed, replacementInstalled, backupRetained, cleanup));
      }
      return Success(Trimmed(!options.dryRun, !options.dryRun && backupWanted));
    }
  }
}
