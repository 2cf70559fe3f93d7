/**
 * Migration tracking of `internal/database/database.go`: the applied migrations are a list of
 * file names kept in `migrations.json`; `runMigrations` executes, in name order, every embedded
 * `.up.sql` file not yet in that list, appends it, and saves the list. Reading and executing a
 * file, probing an existing database and writing the state file are parameters.
 */
module Migrations {
  import opened Wrappers
  import opened Text
  import opened Tables
  import opened Sorting

  const UpSuffix: string := ".up.sql"

  /** The migrations `isMigrationAlreadyInDB` knows how to probe for. */
  const KnownMigrations: seq<string> := [
    "001_initial_schema.up.sql",
    "002_user_sessions.up.sql",
    "003_add_activity_urls.up.sql",
    "004_activity_sharing_and_links.up.sql",
    "005_add_activity_status_material_category.up.sql",
    "006_test_migration.up.sql"]

  datatype MigrationError = ReadFailed(name: string) | ExecFailed(name: string) | SaveFailed

  /** What a run leaves behind: the list in memory, what was written to the state file, the error. */
  datatype RunResult = RunResult(applied: seq<string>, written: Option<seq<string>>, error: Option<MigrationError>)

  ghost predicate NoDuplicates(s: seq<string>) {
    forall i, j :: 0 <= i < j < |s| ==> s[i] != s[j]
  }

  /** `isMigrationApplied`: a linear scan of the applied list. */
  method IsMigrationApplied(applied: seq<string>, name: string) returns (found: bool)
    ensures found <==> name in applied
  {
    for i := 0 to |applied|
      invariant name !in applied[..i]
    {
      if applied[i] == name {
        return true;
      }
    }
    assert applied[..|applied|] == applied;
    return false;
  }

  /** The embedded files that are up migrations. */
  predicate IsUpFile(e: string) {
    HasSuffix(e, UpSuffix)
  }

  /** The embedded files that are up migrations, sorted by name as `sort.Strings` does. */
  function MigrationFiles(entries: seq<string>): (files: seq<string>)
    ensures multiset(files) == multiset(Where(entries, IsUpFile))
    ensures forall i :: 0 <= i < |files| ==> files[i] in entries && HasSuffix(files[i], UpSuffix)
    ensures forall i :: 0 <= i < |entries| && HasSuffix(entries[i], UpSuffix) ==> entries[i] in files
    ensures forall i, j :: 0 <= i < j < |files| ==> LexLe(files[i], files[j])
  {
    var ups := Where(entries, IsUpFile);
    var files := InsertionSort(ups, LexOrder());
    LexOrderIsTotal();
    InsertionSortSorted(ups, LexOrder());
    assert forall i :: 0 <= i < |files| ==> files[i] in ups by {
      forall i | 0 <= i < |files| ensures files[i] in ups {
        assert files[i] in multiset(files);
      }
    }
    assert forall i :: 0 <= i < |ups| ==> ups[i] in files by {
      forall i | 0 <= i < |ups| ensures ups[i] in files {
        assert ups[i] in multiset(ups);
      }
    }
    files
  }

  /**
   * The loop of `runMigrations` on the sorted files: skip the applied ones, run the others in
   * order and append each after it ran; the first file that cannot be read or executed stops
   * the run with the list as it stood.
   */
  function ApplyAll(files: seq<string>, applied: seq<string>, readable: string -> bool, runs: string -> bool)
      : (r: (seq<string>, Option<MigrationError>))
    ensures applied <= r.0
    ensures forall i :: |applied| <= i < |r.0| ==> r.0[i] in files && r.0[i] !in applied
  {
    if |files| == 0 then (applied, None)
    else if files[0] in applied then ApplyAll(files[1..], applied, readable, runs)
    else if !readable(files[0]) then (applied, Some(ReadFailed(files[0])))
    else if !runs(files[0]) then (applied, Some(ExecFailed(files[0])))
    else
      var r := ApplyAll(files[1..], applied + [files[0]], readable, runs);
      assert forall i :: |applied| < i < |r.0| ==> r.0[i] in files[1..];
      r
  }

  /** An applied list without duplicates keeps none: a name already present is never appended again. */
  lemma {:induction false} ApplyAllNoDuplicates(files: seq<string>, applied: seq<string>, readable: string -> bool,
                                                runs: string -> bool)
    requires NoDuplicates(applied)
    requires NoDuplicates(files)
    ensures NoDuplicates(ApplyAll(files, applied, readable, runs).0)
  {
    if |files| > 0 && files[0] !in applied && readable(files[0]) && runs(files[0]) {
      var next := applied + [files[0]];
      ApplyAllNoDuplicates(files[1..], next, readable, runs);
      var r := ApplyAll(files[1..], next, readable, runs).0;
      assert r == ApplyAll(files, applied, readable, runs).0;
      forall i, j | 0 <= i < j < |r| ensures r[i] != r[j] {
        if j < |next| {
          assert r[i] == next[i] && r[j] == next[j];
        }
      }
    } else if |files| > 0 && files[0] in applied {
      ApplyAllNoDuplicates(files[1..], applied, readable, runs);
    }
  }

  /** A run that stops on no error has every file in the list. */
  lemma {:induction false} ApplyAllComplete(files: seq<string>, applied: seq<string>, readable: string -> bool,
                                            runs: string -> bool)
    requires ApplyAll(files, applied, readable, runs).1.None?
    ensures forall i :: 0 <= i < |files| ==> files[i] in ApplyAll(files, applied, readable, runs).0
  {
    if |files| > 0 {
      var r := ApplyAll(files, applied, readable, runs).0;
      if files[0] in applied {
        ApplyAllComplete(files[1..], applied, readable, runs);
        assert files[0] in r by {
          var k :| 0 <= k < |applied| && applied[k] == files[0];
          assert r[k] == applied[k];
        }
      } else {
        ApplyAllComplete(files[1..], applied + [files[0]], readable, runs);
        assert r[|applied|] == files[0];
      }
      forall i | 0 <= i < |files| ensures files[i] in r {
        if i > 0 {
          assert files[i] == files[1..][i - 1];
        }
      }
    }
  }

  /** A run that stops on an error names a file it did not record, because it could not read or run it. */
  lemma {:induction false} ApplyAllFailure(files: seq<string>, applied: seq<string>, readable: string -> bool,
                                           runs: string -> bool)
    requires ApplyAll(files, applied, readable, runs).1.Some?
    ensures var (r, e) := ApplyAll(files, applied, readable, runs);
      (e.value.ReadFailed? && e.value.name in files && e.value.name !in r && !readable(e.value.name)) ||
      (e.value.ExecFailed? && e.value.name in files && e.value.name !in r && readable(e.value.name) &&
       !runs(e.value.name))
  {
    if files[0] in applied {
      ApplyAllFailure(files[1..], applied, readable, runs);
    } else if readable(files[0]) && runs(files[0]) {
      ApplyAllFailure(files[1..], applied + [files[0]], readable, runs);
      var (r, e) := ApplyAll(files, applied, readable, runs);
      assert e.value.name != files[0] by {
        assert r[|applied|] == files[0];
      }
    }
  }

  /** When every file is already in the list, a run changes nothing and reports no error. */
  lemma {:induction false} NothingPending(files: seq<string>, applied: seq<string>, readable: string -> bool,
                                          runs: string -> bool)
    requires forall i :: 0 <= i < |files| ==> files[i] in applied
    ensures ApplyAll(files, applied, readable, runs) == (applied, None)
  {
    if |files| > 0 {
      NothingPending(files[1..], applied, readable, runs);
    }
  }

  /** Running again after a successful run applies nothing. */
  lemma ApplyAllIdempotent(files: seq<string>, applied: seq<string>, readable: string -> bool, runs: string -> bool)
    requires ApplyAll(files, applied, readable, runs).1.None?
    ensures var again := ApplyAll(files, ApplyAll(files, applied, readable, runs).0, readable, runs);
      again == (ApplyAll(files, applied, readable, runs).0, None)
  {
    ApplyAllComplete(files, applied, readable, runs);
    NothingPending(files, ApplyAll(files, applied, readable, runs).0, readable, runs);
  }

  /** In a sorted list, the first name comes before every later one. */
  lemma FirstIsLeast(files: seq<string>)
    requires |files| > 0
    requires forall i, j :: 0 <= i < j < |files| ==> LexLe(files[i], files[j])
    ensures forall y :: y in files[1..] ==> LexLe(files[0], y)
  {
    forall y | y in files[1..] ensures LexLe(files[0], y) {
      var k :| 0 <= k < |files| - 1 && files[1..][k] == y;
      assert files[k + 1] == y;
    }
  }

  /** The names of `r` from position `k` on are in ascending order. */
  predicate AscendingFrom(r: seq<string>, k: nat) {
    forall i, j :: k <= i < j < |r| ==> LexLe(r[i], r[j])
  }

  /** Over sorted files, the names a run appends are in ascending order. */
  lemma {:induction false} AppendedInOrder(files: seq<string>, applied: seq<string>, readable: string -> bool,
                                           runs: string -> bool)
    requires AscendingFrom(files, 0)
    ensures AscendingFrom(ApplyAll(files, applied, readable, runs).0, |applied|)
  {
    if |files| > 0 {
      var rest := files[1..];
      forall i, j | 0 <= i < j < |rest| ensures LexLe(rest[i], rest[j]) {
        assert rest[i] == files[i + 1] && rest[j] == files[j + 1];
      }
      assert AscendingFrom(rest, 0);
      if files[0] in applied {
        AppendedInOrder(rest, applied, readable, runs);
        assert ApplyAll(files, applied, readable, runs) == ApplyAll(rest, applied, readable, runs);
      } else if readable(files[0]) && runs(files[0]) {
        var next := applied + [files[0]];
        AppendedInOrder(rest, next, readable, runs);
        FirstIsLeast(files);
        var r := ApplyAll(rest, next, readable, runs).0;
        assert AscendingFrom(r, |next|);
        assert ApplyAll(files, applied, readable, runs).0 == r;
        assert next <= r && r[|applied|] == files[0];
        forall i, j | |applied| <= i < j < |r| ensures LexLe(r[i], r[j]) {
          if i == |applied| {
            assert |next| <= j;
            assert r[j] in rest;
            assert LexLe(files[0], r[j]);
            assert r[i] == files[0];
          }
        }
        assert AscendingFrom(r, |applied|);
      } else {
        assert ApplyAll(files, applied, readable, runs).0 == applied;
      }
    }
  }

  /**
   * `detectAppliedMigrations` probes for the changes of the migrations it knows; any other name is
   * taken as not applied.
   */
  function AlreadyInDatabase(name: string, probe: string -> bool): (b: bool)
    ensures name !in KnownMigrations ==> !b
    ensures name in KnownMigrations ==> (b <==> probe(name))
  {
    name in KnownMigrations && probe(name)
  }

  /** `detectAppliedMigrations`: the up migrations, in name order, whose changes the probe finds. */
  method DetectAppliedMigrations(entries: seq<string>, probe: string -> bool) returns (applied: seq<string>)
    ensures applied == Where(MigrationFiles(entries), (n: string) => AlreadyInDatabase(n, probe))
    ensures forall i :: 0 <= i < |applied| ==> applied[i] in KnownMigrations
  {
    var files := MigrationFiles(entries);
    var found := (n: string) => AlreadyInDatabase(n, probe);
    applied := [];
    for i := 0 to |files|
      invariant applied == Where(files[..i], found)
    {
      WhereStep(files, i, found);
      if found(files[i]) {
        applied := applied + [files[i]];
      }
    }
    assert files[..|files|] == files;
    assert forall i :: 0 <= i < |applied| ==> found(applied[i]);
  }

  /**
   * `runMigrations` from the loaded list: the applied list is what `ApplyAll` leaves. An error
   * while reading or executing returns before anything is saved. Otherwise the list is saved
   * exactly when a migration ran or the state file does not exist, and a failed save is the error.
   */
  method RunMigrations(loaded: seq<string>, entries: seq<string>, readable: string -> bool, runs: string -> bool,
                       stateFileExists: bool, saveSucceeds: bool) returns (result: RunResult)
    ensures var (final, failure) := ApplyAll(MigrationFiles(entries), loaded, readable, runs);
      result.applied == final &&
      (failure.Some? ==> result.error == failure && result.written.None?) &&
      (failure.None? && |final| == |loaded| && stateFileExists ==>
        result.written.None? && result.error.None?) &&
      (failure.None? && (|final| > |loaded| || !stateFileExists) ==>
        result.written == (if saveSucceeds then Some(final) else None) &&
        result.error == (if saveSucceeds then None else Some(SaveFailed)))
  {
    var files := MigrationFiles(entries);
    var applied := loaded;
    var migrationsApplied := false;
    for i := 0 to |files|
      invariant ApplyAll(files, loaded, readable, runs) == ApplyAll(files[i..], applied, readable, runs)
      invariant loaded <= applied
      invariant migrationsApplied <==> |applied| > |loaded|
    {
      assert files[i..][1..] == files[i + 1..];
      var done := IsMigrationApplied(applied, files[i]);
      if done {
        continue;
      }
      if !readable(files[i]) {
        return RunResult(applied, None, Some(ReadFailed(files[i])));
      }
      if !runs(files[i]) {
        return RunResult(applied, None, Some(ExecFailed(files[i])));
      }
      applied := applied + [files[i]];
      migrationsApplied := true;
    }
    if migrationsApplied || !stateFileExists {
      if saveSucceeds {
        return RunResult(applied, Some(applied), None);
      }
      return RunResult(applied, None, Some(SaveFailed));
    }
    result := RunResult(applied, None, None);
  }

  /**
   * After a successful run has saved its list, running again with the same files runs nothing and
   * writes nothing.
   */
  lemma SecondRunIsQuiet(loaded: seq<string>, entries: seq<string>, readable: string -> bool, runs: string -> bool)
    requires ApplyAll(MigrationFiles(entries), loaded, readable, runs).1.None?
    ensures var saved := ApplyAll(MigrationFiles(entries), loaded, readable, runs).0;
      ApplyAll(MigrationFiles(entries), saved, readable, runs) == (saved, None)
  {
    ApplyAllIdempotent(MigrationFiles(entries), loaded, readable, runs);
  }
}
