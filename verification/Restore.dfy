/**
 Applying a pending restore at start-up.  The database directory is a map from
 file names to contents; a start may crash at any step, and a crash in the
 middle of a copy leaves arbitrary contents in the target file.
 */
module Restore {
  import opened Common
  import opened Text

  const MARKER := ".peanut_restore"

  type Files = map<string, string>

  /** Where a start stops.  `torn` is what an interrupted copy leaves behind. */
  datatype Crash =
    | BeforeCopies
    | TornPreserve(torn: string)
    | AfterPreserve
    | TornRestore(torn: string)
    | BeforeMarkerRemoval
    | NoCrash(markerRemovable: bool)

  datatype Outcome = NothingPending | InvalidMarker | BackupMissing | Crashed | Applied(markerRemoved: bool)

  predicate EndsWith(s: string, suffix: string) {
    |suffix| <= |s| && s[|s| - |suffix|..] == suffix
  }

  predicate ValidBackupName(name: string) {
    && name != "" && '/' !in name && '\\' !in name
    && Find(name, "..") < 0
    && EndsWith(name, ".backup")
  }

  function PreserveName(db: string, stamp: string): string {
    db + ".pre-restore." + stamp
  }

  /** The copies and the removal of the marker, once a backup has been named. */
  function CopySteps(files: Files, db: string, preserved: string, backup: string, crash: Crash): (Files, Outcome)
    requires backup in files
  {
    if crash.BeforeCopies? then (files, Crashed)
    else if db in files && crash.TornPreserve? then (files[preserved := crash.torn], Crashed)
    else
      var kept := if db in files then files[preserved := files[db]] else files;
      if crash.AfterPreserve? || crash.TornPreserve? then (kept, Crashed)
      else if crash.TornRestore? then (kept[db := crash.torn], Crashed)
      else
        var restored := kept[db := kept[backup]];
        if crash.BeforeMarkerRemoval? then (restored, Crashed)
        else if crash.markerRemovable then (restored - {MARKER}, Applied(true))
        else (restored, Applied(false))
  }

  /** One start: the database file is `db`, the clock reads `stamp`. */
  function Apply(files: Files, db: string, stamp: string, crash: Crash): (Files, Outcome) {
    if MARKER !in files then (files, NothingPending)
    else
      var backup := Trim(files[MARKER]);
      if !ValidBackupName(backup) then (files, InvalidMarker)
      else if backup !in files then (files, BackupMissing)
      else CopySteps(files, db, PreserveName(db, stamp), backup, crash)
  }

  // --- Names never collide -----------------------------------------------------

  /** A time stamp such as `20250131_235959`. */
  predicate IsStamp(stamp: string) {
    stamp != "" && '0' <= Last(stamp) <= '9'
  }

  /** The database file is neither the marker nor a backup. */
  predicate IsDbName(db: string) {
    db != "" && db != MARKER && !EndsWith(db, ".backup")
  }

  lemma PreserveNameIsNew(db: string, stamp: string, backup: string)
    requires IsStamp(stamp) && EndsWith(backup, ".backup")
    ensures PreserveName(db, stamp) != backup
    ensures PreserveName(db, stamp) != MARKER
    ensures PreserveName(db, stamp) != db
    ensures MARKER != backup
  {
    var name := PreserveName(db, stamp);
    assert Last(name) == Last(stamp);
    assert Last(backup) == 'p' by {
      assert backup[|backup| - 7..][6] == 'p';
    }
    assert Last(MARKER) == 'e';
    assert |name| > |db|;
  }

  lemma PreserveNameInjective(db: string, a: string, b: string)
    requires PreserveName(db, a) == PreserveName(db, b)
    ensures a == b
  {
    var p := db + ".pre-restore.";
    assert PreserveName(db, a)[|p|..] == a && PreserveName(db, b)[|p|..] == b;
  }

  // --- Runs of starts ------------------------------------------------------------

  datatype Start = Start(stamp: string, crash: Crash)

  function Starts(files: Files, db: string, starts: seq<Start>): Files {
    if starts == [] then files
    else Apply(Starts(files, db, Init(starts)), db, Last(starts).stamp, Last(starts).crash).0
  }

  ghost predicate ValidStarts(starts: seq<Start>) {
    && (forall i :: 0 <= i < |starts| ==> IsStamp(starts[i].stamp))
    && (forall i, j :: 0 <= i < j < |starts| ==> starts[i].stamp != starts[j].stamp)
  }

  /** The original is still in place, or a preserved copy made by one of the starts holds it in full. */
  ghost predicate Safe(files: Files, db: string, original: string, starts: seq<Start>) {
    || (db in files && files[db] == original)
    || exists i :: 0 <= i < |starts| && HoldsOriginal(files, db, original, starts[i])
  }

  ghost predicate HoldsOriginal(files: Files, db: string, original: string, start: Start) {
    PreserveName(db, start.stamp) in files && files[PreserveName(db, start.stamp)] == original
  }

  lemma CopiesTouch(files: Files, db: string, preserved: string, backup: string, crash: Crash, name: string)
    requires backup in files && name != db && name != MARKER && name != preserved
    ensures
      var after := CopySteps(files, db, preserved, backup, crash).0;
      (name in after <==> name in files) && (name in files ==> after[name] == files[name])
  {
  }

  /** A start touches no file but the database, its own preserved copy and the marker. */
  lemma ApplyTouches(files: Files, db: string, stamp: string, crash: Crash, name: string)
    requires name != db && name != MARKER && name != PreserveName(db, stamp)
    ensures name in Apply(files, db, stamp, crash).0 <==> name in files
    ensures name in files ==> Apply(files, db, stamp, crash).0[name] == files[name]
  {
    if Pending(files) {
      CopiesTouch(files, db, PreserveName(db, stamp), Trim(files[MARKER]), crash, name);
    }
  }

  /** A start overwrites the database only after a complete copy of it exists. */
  lemma ApplyPreservesFirst(files: Files, db: string, stamp: string, crash: Crash)
    requires IsDbName(db) && IsStamp(stamp) && db in files
    ensures
      var after := Apply(files, db, stamp, crash).0;
      db in after &&
      (after[db] == files[db] ||
       (PreserveName(db, stamp) in after && after[PreserveName(db, stamp)] == files[db]))
  {
    if MARKER in files && ValidBackupName(Trim(files[MARKER])) {
      PreserveNameIsNew(db, stamp, Trim(files[MARKER]));
    }
  }

  /** However often start-up crashes, the original database is never lost. */
  lemma {:induction false} OriginalNeverLost(files: Files, db: string, starts: seq<Start>)
    requires IsDbName(db) && db in files && ValidStarts(starts)
    ensures Safe(Starts(files, db, starts), db, files[db], starts)
    ensures db in Starts(files, db, starts)
  {
    if starts != [] {
      var earlier, last := Init(starts), Last(starts);
      assert forall i :: 0 <= i < |earlier| ==> earlier[i] == starts[i];
      OriginalNeverLost(files, db, earlier);
      var before := Starts(files, db, earlier);
      if db in before && before[db] == files[db] {
        ApplyPreservesFirst(before, db, last.stamp, last.crash);
        assert last == starts[|starts| - 1];
      } else {
        var i :| 0 <= i < |earlier| && HoldsOriginal(before, db, files[db], earlier[i]);
        ApplyPreservesFirst(before, db, last.stamp, last.crash);
        OlderCopySurvives(before, db, files[db], earlier[i], last);
        assert HoldsOriginal(Starts(files, db, starts), db, files[db], starts[i]);
      }
    }
  }

  lemma OlderCopySurvives(files: Files, db: string, original: string, older: Start, last: Start)
    requires IsDbName(db) && IsStamp(older.stamp) && IsStamp(last.stamp) && older.stamp != last.stamp
    requires HoldsOriginal(files, db, original, older)
    ensures HoldsOriginal(Apply(files, db, last.stamp, last.crash).0, db, original, older)
  {
    var name := PreserveName(db, older.stamp);
    if name == PreserveName(db, last.stamp) {
      PreserveNameInjective(db, older.stamp, last.stamp);
    }
    PreserveNameIsNew(db, older.stamp, ".backup");
    ApplyTouches(files, db, last.stamp, last.crash, name);
  }

  /** Every start keeps the backup and, until it completes, the marker. */
  lemma PendingStays(files: Files, db: string, stamp: string, crash: Crash)
    requires IsDbName(db) && IsStamp(stamp) && Pending(files)
    ensures
      var (after, outcome) := Apply(files, db, stamp, crash);
      var backup := Trim(files[MARKER]);
      && backup in after && after[backup] == files[backup]
      && (outcome != Applied(true) ==> MARKER in after && after[MARKER] == files[MARKER])
      && (outcome == Applied(true) ==> MARKER !in after)
      && (outcome.Applied? ==> db in after && after[db] == files[backup])
      && (outcome.Applied? || outcome.Crashed?)
  {
    PreserveNameIsNew(db, stamp, Trim(files[MARKER]));
  }

  ghost predicate Pending(files: Files) {
    MARKER in files && ValidBackupName(Trim(files[MARKER])) && Trim(files[MARKER]) in files
  }

  /** Still pending, for the same backup with the same contents. */
  ghost predicate StillPending(files: Files, after: Files) {
    && Pending(files) && Pending(after) && after[MARKER] == files[MARKER]
    && after[Trim(files[MARKER])] == files[Trim(files[MARKER])]
  }

  predicate CrashedStart(start: Start) {
    IsStamp(start.stamp) && !start.crash.NoCrash?
  }

  lemma CrashKeepsPending(files: Files, before: Files, db: string, start: Start)
    requires IsDbName(db) && StillPending(files, before) && CrashedStart(start)
    ensures StillPending(files, Apply(before, db, start.stamp, start.crash).0)
  {
    PendingStays(before, db, start.stamp, start.crash);
  }

  /** After any number of crashed starts, at whatever times, the restore is still pending for the same backup. */
  lemma {:induction false} CrashesKeepPending(files: Files, db: string, starts: seq<Start>)
    requires IsDbName(db) && Pending(files)
    requires forall i :: 0 <= i < |starts| ==> CrashedStart(starts[i])
    ensures StillPending(files, Starts(files, db, starts))
  {
    if starts != [] {
      forall i | 0 <= i < |Init(starts)| ensures CrashedStart(Init(starts)[i]) {
        assert Init(starts)[i] == starts[i];
      }
      CrashesKeepPending(files, db, Init(starts));
      assert CrashedStart(starts[|starts| - 1]);
      CrashKeepsPending(files, Starts(files, db, Init(starts)), db, Last(starts));
    }
  }

  /** The first complete start leaves the named backup in the database file. */
  lemma CompleteStartRestores(files: Files, db: string, crashed: seq<Start>, stamp: string, markerRemovable: bool)
    requires IsDbName(db) && IsStamp(stamp) && Pending(files)
    requires forall i :: 0 <= i < |crashed| ==> CrashedStart(crashed[i])
    ensures
      var (after, outcome) := Apply(Starts(files, db, crashed), db, stamp, NoCrash(markerRemovable));
      && outcome == Applied(markerRemovable)
      && db in after && after[db] == files[Trim(files[MARKER])]
      && (MARKER in after <==> !markerRemovable)
  {
    CrashesKeepPending(files, db, crashed);
    PendingStays(Starts(files, db, crashed), db, stamp, NoCrash(markerRemovable));
  }

  /** Without the marker, later starts change nothing. */
  lemma {:induction false} LaterStartsChangeNothing(files: Files, db: string, starts: seq<Start>)
    requires MARKER !in files
    ensures Starts(files, db, starts) == files
  {
    if starts != [] {
      LaterStartsChangeNothing(files, db, Init(starts));
    }
  }

  /** A marker that names anything but a plain `.backup` file in the directory is ignored, and nothing is touched. */
  lemma UnsafeNamesIgnored(files: Files, db: string, stamp: string, crash: Crash)
    requires MARKER in files
    requires
      var name := Trim(files[MARKER]);
      '/' in name || '\\' in name || Contains(name, "..") || !EndsWith(name, ".backup") || name == ""
    ensures Apply(files, db, stamp, crash) == (files, InvalidMarker)
  {
    var name := Trim(files[MARKER]);
    if Contains(name, "..") {
      var i :| OccursAt(name, "..", i);
    }
  }

  /** A backup that is missing is not restored, and a plain name is accepted. */
  lemma PlainNames(files: Files, db: string, stamp: string, crash: Crash)
    requires MARKER in files
    requires
      var name := Trim(files[MARKER]);
      '/' !in name && '\\' !in name && !Contains(name, "..") && EndsWith(name, ".backup") && name != ""
    ensures Trim(files[MARKER]) !in files ==> Apply(files, db, stamp, crash) == (files, BackupMissing)
    ensures Trim(files[MARKER]) in files ==> Pending(files)
  {
    assert Find(Trim(files[MARKER]), "..") < 0;
  }

  // --- The time stamps must differ ---------------------------------------------------

  /** Starts at the given times; `crash[k]` says how start `k` ends. */
  function At(stamps: seq<string>, crash: seq<Crash>): (starts: seq<Start>)
    requires |stamps| == |crash|
  {
    seq(|stamps|, k requires 0 <= k < |stamps| => Start(stamps[k], crash[k]))
  }

  /** The database is torn at start `i`, and start `j` tears the only complete copy. */
  function FatalCrashes(n: nat, i: nat, j: nat, torn: string): (crash: seq<Crash>)
    ensures |crash| == n
  {
    seq(n, k => if k == i then TornRestore(torn) else if k == j then TornPreserve(torn) else BeforeCopies)
  }

  lemma CrashEffects(files: Files, db: string, stamp: string, torn: string)
    ensures Apply(files, db, stamp, BeforeCopies).0 == files
    ensures
      Pending(files) && db in files ==>
        && Apply(files, db, stamp, TornPreserve(torn)).0 == files[PreserveName(db, stamp) := torn]
        && Apply(files, db, stamp, TornRestore(torn)).0 == files[PreserveName(db, stamp) := files[db]][db := torn]
  {
  }

  /** The directory after the first `n` of those starts. */
  function AfterFatal(files: Files, db: string, name: string, i: nat, j: nat, torn: string, n: nat): Files
    requires db in files
  {
    if n <= i then files
    else if n <= j then files[name := files[db]][db := torn]
    else files[name := torn][db := torn]
  }

  lemma AfterFatalPending(files: Files, db: string, stamp: string, i: nat, j: nat, torn: string, n: nat)
    requires IsDbName(db) && db in files && Pending(files) && IsStamp(stamp)
    ensures Pending(AfterFatal(files, db, PreserveName(db, stamp), i, j, torn, n))
  {
    PreserveNameIsNew(db, stamp, Trim(files[MARKER]));
  }

  lemma FatalStep(files: Files, db: string, stamps: seq<string>, i: nat, j: nat, torn: string, n: nat)
    requires IsDbName(db) && db in files && Pending(files)
    requires i < j < |stamps| && stamps[i] == stamps[j] && IsStamp(stamps[i]) && n < |stamps|
    ensures
      var name := PreserveName(db, stamps[i]);
      Apply(AfterFatal(files, db, name, i, j, torn, n), db, stamps[n], FatalCrashes(|stamps|, i, j, torn)[n]).0 ==
      AfterFatal(files, db, name, i, j, torn, n + 1)
  {
    var name := PreserveName(db, stamps[i]);
    var before := AfterFatal(files, db, name, i, j, torn, n);
    AfterFatalPending(files, db, stamps[i], i, j, torn, n);
    CrashEffects(before, db, stamps[n], torn);
    if n == j {
      PreserveNameIsNew(db, stamps[i], ".backup");
      assert before[name := torn] == files[name := torn][db := torn];
    }
  }

  lemma StartsOneMore(files: Files, db: string, starts: seq<Start>, n: nat)
    requires n < |starts|
    ensures
      Starts(files, db, starts[..n + 1]) ==
      Apply(Starts(files, db, starts[..n]), db, starts[n].stamp, starts[n].crash).0
  {
    assert Init(starts[..n + 1]) == starts[..n];
  }

  lemma {:induction false} FatalRun(files: Files, db: string, stamps: seq<string>, i: nat, j: nat, torn: string, n: nat)
    requires IsDbName(db) && db in files && Pending(files)
    requires i < j < |stamps| && stamps[i] == stamps[j] && IsStamp(stamps[i]) && n <= |stamps|
    ensures
      Starts(files, db, At(stamps, FatalCrashes(|stamps|, i, j, torn))[..n]) ==
      AfterFatal(files, db, PreserveName(db, stamps[i]), i, j, torn, n)
  {
    if n > 0 {
      var starts := At(stamps, FatalCrashes(|stamps|, i, j, torn));
      FatalRun(files, db, stamps, i, j, torn, n - 1);
      StartsOneMore(files, db, starts, n - 1);
      FatalStep(files, db, stamps, i, j, torn, n - 1);
    }
  }

  ghost predicate SafeWhatever(files: Files, db: string, stamps: seq<string>) {
    db in files &&
    forall crash: seq<Crash> | |crash| == |stamps| ::
      Safe(Starts(files, db, At(stamps, crash)), db, files[db], At(stamps, crash))
  }

  /** No file of an earlier restore already holds the original under one of the names. */
  ghost predicate FreshNames(files: Files, db: string, stamps: seq<string>) {
    db in files &&
    forall k :: 0 <= k < |stamps| && PreserveName(db, stamps[k]) in files ==>
                  files[PreserveName(db, stamps[k])] != files[db]
  }

  lemma RepeatedStampLoses(files: Files, db: string, stamps: seq<string>, i: nat, j: nat)
    requires IsDbName(db) && Pending(files) && FreshNames(files, db, stamps)
    requires i < j < |stamps| && stamps[i] == stamps[j] && IsStamp(stamps[i])
    ensures !SafeWhatever(files, db, stamps)
  {
    var torn := files[db] + "!";
    var crash := FatalCrashes(|stamps|, i, j, torn);
    var starts := At(stamps, crash);
    FatalRun(files, db, stamps, i, j, torn, |stamps|);
    assert starts[..|stamps|] == starts;
    var after := Starts(files, db, starts);
    assert after[db] == torn != files[db];
    forall k | 0 <= k < |starts| ensures !HoldsOriginal(after, db, files[db], starts[k]) {
      assert starts[k].stamp == stamps[k];
    }
  }

  /** The original survives every pattern of crashes if and only if no two starts share a time stamp. */
  lemma DistinctStampsCondition(files: Files, db: string, stamps: seq<string>)
    requires IsDbName(db) && Pending(files) && FreshNames(files, db, stamps)
    requires forall k :: 0 <= k < |stamps| ==> IsStamp(stamps[k])
    ensures SafeWhatever(files, db, stamps) <==> Distinct(stamps)
  {
    if Distinct(stamps) {
      forall crash: seq<Crash> | |crash| == |stamps|
        ensures Safe(Starts(files, db, At(stamps, crash)), db, files[db], At(stamps, crash))
      {
        OriginalNeverLost(files, db, At(stamps, crash));
      }
    } else {
      var i, j :| 0 <= i < j < |stamps| && stamps[i] == stamps[j];
      RepeatedStampLoses(files, db, stamps, i, j);
    }
  }

  // --- The start-up code -----------------------------------------------------------

  class Directory {
    var files: Files

    constructor (files: Files)
      ensures this.files == files
    {
      this.files := files;
    }

    /** `fs::copy` of an existing file, cut short when `torn` is given. */
    method Copy(from: string, to: string, torn: Option<string>)
      requires from in files
      modifies this
      ensures files == old(files)[to := if torn.Some? then torn.value else old(files)[from]]
    {
      files := files[to := if torn.Some? then torn.value else files[from]];
    }

    method ApplyPendingRestore(db: string, stamp: string, crash: Crash) returns (outcome: Outcome)
      modifies this
      ensures (files, outcome) == Apply(old(files), db, stamp, crash)
    {
      if MARKER !in files {
        return NothingPending;
      }
      var backupName := Trim(files[MARKER]);
      if !ValidBackupName(backupName) {
        return InvalidMarker;
      }
      if backupName !in files {
        return BackupMissing;
      }
      if crash.BeforeCopies? {
        return Crashed;
      }
      if db in files {
        var preserved := PreserveName(db, stamp);
        if crash.TornPreserve? {
          Copy(db, preserved, Some(crash.torn));
          return Crashed;
        }
        Copy(db, preserved, None);
      }
      if crash.AfterPreserve? || crash.TornPreserve? {
        return Crashed;
      }
      if crash.TornRestore? {
        Copy(backupName, db, Some(crash.torn));
        return Crashed;
      }
      Copy(backupName, db, None);
      if crash.BeforeMarkerRemoval? {
        return Crashed;
      }
      if crash.markerRemovable {
        files := files - {MARKER};
      }
      outcome := Applied(crash.markerRemovable);
    }
  }
}
