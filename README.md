# SQLite backups job and system commenter, modelled in Dafny

This project models two parts of a multi-tenant Rails application.

**`SQLiteBackupsJob`** backs up every tenant's SQLite database while the
database stays live. For each tenant, in order, it does four things:

1. It rotates the local generations `main.sqlite3.1 … main.sqlite3.<keep>` one slot older.
2. It drives SQLite's online backup API into generation 1, one `step` at a time.
3. It copies generation 1 into an archive directory `<sweep_dir>/<env>/<tenant>/`. The copy is named after generation 1's UTC creation time (`YYYYMMDDHHMMSS`).
4. It deletes archive files older than the retention window.

Each failing `step` appends the tenant to `@failures`. After the last tenant,
the job raises one error naming all of them.

**`Card::Eventable::SystemCommenter`** turns a card event into a comment by
the system user. The comment body depends on the event's action. There is no
comment for an action outside the seven it handles.

The model is split as follows:

- The filesystem is a map from path to entry. Each entry is a regular file (bytes and creation time) or a directory (writable or not). Creation times are nanoseconds since the Unix epoch.
- The `File`/`FileUtils` calls become functions that return the new map and the exception raised, if any.
- The class `Files.FileSystem` performs those calls in place.
- The SQLite backup handle is the list of reports that successive `step` calls return (status, `pagecount`, `remaining`), plus the bytes that `finish` leaves behind.
- Each phase is a function: `RolloverPhase.Rollover`, `BackupPhase.Backup`, `SweepPhase.Sweep` and `RetentionPhase.Retain`. The lemmas about each phase state what the job promises.
- `JobRun.Run` composes the phases over the tenant list.
- The class `Backups.SQLiteBackupsJob` holds `@failures` as a field and performs the job step by step: the `downto` loop, the `step` loop and the `Find.find` loop. Each of its methods is proved to yield exactly what the matching function specifies.
- The commenter's body builder is a function. `Eventable.SystemCommenter.Comment` appends to the `comments` field of a `Card` object.

Behaviour of the backup job's code that the model keeps as written:

- **A failing step does not leave the loop.** The `else` branch of the step loop appends the tenant and keeps looping (sqlite_backups_job.rb:87-90). A tenant with two failing steps is recorded twice (`Copier.RepeatedFailuresRecordedTwice`).
- **SQLite repeats a fatal step code.** SQLite documents the codes other than OK, BUSY, LOCKED and DONE as fatal for a backup, and returns the same code on every later `step`. Against real SQLite, a failing step therefore keeps appending the tenant and DONE never comes. The model's report list is more general: it also allows a failure followed by DONE.
- **A failed backup is still swept.** Sweep and retention run after a failing step as well (`JobRun.FailedBackupStillSwept`).
- **BUSY and LOCKED are retried without bound.** The step loop ends only when the handle reports DONE.
- **A filesystem error ends the whole job.** Nothing in the job rescues it, so later tenants are not touched (`JobRun.RunStopsAtRaise`).
- **The retention cutoff is strict.** Only files created strictly before `now - retention` are deleted (sqlite_backups_job.rb:131).

## Model

| member | source | states |
|---|---|---|
| Decimal.ValueOfToDecimal | app/jobs/sqlite_backups_job.rb:140 | the decimal rendering of a generation index reads back as that index |
| Decimal.ToDecimalInjective | app/jobs/sqlite_backups_job.rb:140 | two indices render to the same digits exactly when they are equal |
| Decimal.Padded | app/jobs/sqlite_backups_job.rb:112 | a zero-padded field is all digits, at least the requested width, and reads back as the number |
| Paths.BackupPathInjective | app/jobs/sqlite_backups_job.rb:139-141 | `backup_path(t, i) == backup_path(t, j)` exactly when `i == j` |
| Paths.BackupPathExtendsDb | app/jobs/sqlite_backups_job.rb:139-141 | every generation path starts with `db_path + "."` and so is never the live database |
| Paths.Join | app/jobs/sqlite_backups_job.rb:108 | `File.join(dir, name)` with a name that does not start with a separator, the empty name included, is `dir`, one added separator unless `dir` already ends in one, then the name |
| Paths.TrimSeps | app/jobs/sqlite_backups_job.rb:108 | `File.join` cuts the directory back to a prefix that does not end in a separator, and only separators are cut |
| Paths.JoinShape | app/jobs/sqlite_backups_job.rb:108 | the joined path is the directory without trailing separators, a non-empty run of separators, then the whole name |
| Paths.JoinCancel | app/jobs/sqlite_backups_job.rb:113 | under one directory, two plain names join to the same path exactly when they are equal |
| Paths.Basename | app/jobs/sqlite_backups_job.rb:113 | `File.basename` is the longest suffix of the path that holds no separator |
| Files.Remove | app/jobs/sqlite_backups_job.rb:56 | `FileUtils.rm` succeeds exactly on a regular file; then that path disappears and every other path keeps its entry; on a raise nothing changes |
| Files.Move | app/jobs/sqlite_backups_job.rb:62 | `FileUtils.mv` to a free path: the source disappears and the destination holds its entry; a raise changes nothing |
| Files.Copy | app/jobs/sqlite_backups_job.rb:114 | `FileUtils.cp` of a regular file to a different path that is not a directory: the destination gets the source's bytes, created now; a raise changes nothing |
| Files.MakeDirs | app/jobs/sqlite_backups_job.rb:109 | `FileUtils.mkdir_p` raises exactly when a component is a regular file; otherwise every component is a directory; other paths and existing directories are untouched |
| Files.FileSystem.Rm | app/jobs/sqlite_backups_job.rb:56 | the in-place `rm` leaves the state and error that `Remove` gives |
| Files.FileSystem.Mv | app/jobs/sqlite_backups_job.rb:62 | the in-place `mv` leaves the state and error that `Move` gives |
| Files.FileSystem.Cp | app/jobs/sqlite_backups_job.rb:114 | the in-place `cp` leaves the state and error that `Copy` gives |
| Files.FileSystem.MkdirP | app/jobs/sqlite_backups_job.rb:109 | the in-place `mkdir_p` leaves the state and error that `MakeDirs` gives |
| Files.FileSystem.Store | app/jobs/sqlite_backups_job.rb:94 | after `finish`, the database file holds the written bytes, changed now |
| Copier.FirstDone | app/jobs/sqlite_backups_job.rb:79-80 | the step loop ends at the first step that reports DONE |
| Copier.StepOnce | app/jobs/sqlite_backups_job.rb:76-91 | one more step appends the tenant exactly on a failure code, and logs `pagecount - remaining` exactly on OK |
| Copier.FailuresNameTenant | app/jobs/sqlite_backups_job.rb:89 | every entry the loop appends is the tenant being backed up |
| Copier.FailuresIffFailingStep | app/jobs/sqlite_backups_job.rb:87-89 | the tenant is recorded exactly when some step returned a code other than DONE, OK, BUSY or LOCKED |
| Copier.FailuresAppend | app/jobs/sqlite_backups_job.rb:76-91 | failures and progress over two runs of steps are those of each run, concatenated |
| Copier.RepeatedFailuresRecordedTwice | app/jobs/sqlite_backups_job.rb:87-90 | two failing steps record the tenant twice: a failure does not leave the loop |
| Copier.RetriesAreInert | app/jobs/sqlite_backups_job.rb:85-86 | inserting BUSY/LOCKED steps anywhere changes neither the failures nor the progress log |
| Copier.RetriesContributeNothing | app/jobs/sqlite_backups_job.rb:85-86 | steps that are all BUSY/LOCKED record nothing and log no progress |
| Timestamps.DateOfDay | app/jobs/sqlite_backups_job.rb:112 | the calendar date of a day number is valid and counts back to that day number |
| Timestamps.Utc | app/jobs/sqlite_backups_job.rb:112 | `ctime.utc` is a valid UTC breakdown whose seconds since the epoch are the file time's whole seconds |
| Timestamps.Strftime | app/jobs/sqlite_backups_job.rb:112 | `%Y%m%d%H%M%S` is all digits, and exactly 14 of them for years up to 9999 |
| Timestamps.StrftimeInjective | app/jobs/sqlite_backups_job.rb:112 | two valid breakdowns render alike only when they are equal |
| Timestamps.StampSameSecond | app/jobs/sqlite_backups_job.rb:112 | two file times give the same timestamp exactly when they fall in the same second |
| RolloverPhase.MoveFootprint | app/jobs/sqlite_backups_job.rb:62 | renaming a generation to a free slot moves its entry there, frees the old slot and touches nothing else |
| RolloverPhase.ShiftOneShifts | app/jobs/sqlite_backups_job.rb:59-63 | one iteration extends the shifted region by one slot and raises nothing |
| RolloverPhase.DropStalest | app/jobs/sqlite_backups_job.rb:55-57 | the first iteration drops the oldest generation, if present, before shifting |
| RolloverPhase.RolledOverShifts | app/jobs/sqlite_backups_job.rb:51-64 | after iterations `keep` down to `j`, slots `j..keep` hold the old slots `j-1..keep-1`, slot `j-1` is free, and nothing else changed |
| RolloverPhase.RolloverShifts | app/jobs/sqlite_backups_job.rb:50-65 | with `keep >= 2` and no directory in slot `keep`: no raise, slot j holds what slot j-1 held for 2 <= j <= keep, slot 1 is free, and every other path is unchanged |
| RolloverPhase.DatabaseNotASlot | app/jobs/sqlite_backups_job.rb:50-65 | the live database is none of the slots, so rollover never touches it |
| RolloverPhase.RaisedStaysRaised | app/jobs/sqlite_backups_job.rb:51-64 | once an iteration raises, no later iteration runs |
| RolloverPhase.RolloverRaisesOnDirectory | app/jobs/sqlite_backups_job.rb:55-57 | a directory in slot `keep` makes `rm` raise before anything moves |
| RolloverPhase.RolloverRaisesIff | app/jobs/sqlite_backups_job.rb:50-65 | rollover raises exactly when `keep >= 2` and slot `keep` is a directory; with `keep < 2` it does nothing |
| BackupPhase.Backup | app/jobs/sqlite_backups_job.rb:70-71 | opening generation 1 raises exactly when it is a directory; otherwise generation 1 holds the backup image and nothing else changes |
| BackupPhase.BackupFailures | app/jobs/sqlite_backups_job.rb:76-91 | the loop's failure entries all name the tenant and are non-empty exactly when a step before DONE failed |
| SweepPhase.SweptName | app/jobs/sqlite_backups_job.rb:112-113 | the archive name ends with the whole timestamp, does not start with a separator and has none before the timestamp |
| SweepPhase.SweepSkippedWithoutSweepDir | app/jobs/sqlite_backups_job.rb:102-105 | without a writable sweep directory the sweep changes nothing |
| SweepPhase.ArchiveBelowSweepPath | app/jobs/sqlite_backups_job.rb:108-113 | the archive copy lies below the tenant's archive directory, where `Find.find` looks, and is neither of the directories `mkdir_p` creates |
| SweepPhase.ArchivePathSameSecond | app/jobs/sqlite_backups_job.rb:112-114 | two sweeps use the same archive path exactly when generation 1 was created in the same second, so a re-sweep overwrites |
| SweepPhase.SweepWithoutGeneration | app/jobs/sqlite_backups_job.rb:107-118 | with no generation 1 the sweep still creates the archive directory and copies nothing |
| SweepPhase.SweepCopiesGeneration1 | app/jobs/sqlite_backups_job.rb:107-115 | the archive copy, named after generation 1's creation time, holds generation 1's bytes; only it and the archive directories change |
| RetentionPhase.PruneOneMore | app/jobs/sqlite_backups_job.rb:130-135 | each visited path is removed exactly when it is a regular file older than the cutoff, and then `FileUtils.rm` of it succeeds |
| RetentionPhase.RetentionRemovesExactlyExpired | app/jobs/sqlite_backups_job.rb:127-136 | retention removes exactly the regular files below the archive directory created before `now - retention`, keeping all else unchanged |
| RetentionPhase.RetentionSkipped | app/jobs/sqlite_backups_job.rb:122-128 | without a writable sweep directory or an archive directory, retention changes nothing |
| RetentionPhase.RetentionIdempotent | app/jobs/sqlite_backups_job.rb:121-137 | a second retention pass with the same clock removes nothing more |
| RetentionPhase.FreshEntrySurvives | app/jobs/sqlite_backups_job.rb:129-131 | an entry created at or after the cutoff is kept |
| JobRun.RunCollectsAllFailures | app/jobs/sqlite_backups_job.rb:35-42 | a run without a raise ends with exactly every tenant's failure entries, in tenant order, starting from empty |
| JobRun.RunStopsAtRaise | app/jobs/sqlite_backups_job.rb:37-42 | after a raise, later tenants are not touched |
| JobRun.DefaultsKeepFiveGenerations | app/jobs/sqlite_backups_job.rb:29-34 | with the default `keep:` of five, rollover drops generation 5, moves generations 1 to 4 one slot older and frees slot 1 |
| JobRun.InBackupFailures | app/jobs/sqlite_backups_job.rb:89 | a name is in a tenant's entries exactly when it is that tenant's and the tenant had a failing step |
| JobRun.AllBackupFailuresIff | app/jobs/sqlite_backups_job.rb:37-42 | a name is among all failures exactly when some tenant of that name had a failing step |
| JobRun.NoFailuresIff | app/jobs/sqlite_backups_job.rb:44 | the failure list is empty exactly when no tenant had a failing step |
| JobRun.RunVerdict | app/jobs/sqlite_backups_job.rb:44-46 | a run without a filesystem raise completes exactly when no tenant failed, and otherwise raises with the message listing all failure entries |
| JobRun.MessageContains | app/jobs/sqlite_backups_job.rb:45 | every failure entry appears verbatim in the raised message |
| JobRun.MessageNamesFailedTenant | app/jobs/sqlite_backups_job.rb:45 | the message names every tenant that had a failing step |
| JobRun.FailedBackupStillSwept | app/jobs/sqlite_backups_job.rb:38-41 | a tenant with failing steps is recorded and its generation 1 is still archived, under the name stamped now, and survives retention |
| Strings.JoinWithContains | app/jobs/sqlite_backups_job.rb:45 | every element appears verbatim in `join(", ")` |
| Backups.SQLiteBackupsJob.constructor | app/jobs/sqlite_backups_job.rb:28 | the job starts on the given filesystem with no failures |
| Backups.SQLiteBackupsJob.Perform | app/jobs/sqlite_backups_job.rb:34-47 | the filesystem, `@failures` and the outcome are those of `Run` and `Verdict` on the initial filesystem |
| Backups.SQLiteBackupsJob.PerformFileRollover | app/jobs/sqlite_backups_job.rb:50-65 | the `downto` loop leaves the filesystem and error that `Rollover` specifies |
| Backups.SQLiteBackupsJob.PerformBackup | app/jobs/sqlite_backups_job.rb:67-99 | the step loop appends exactly `BackupFailures`, logs `Progress` of the steps before DONE, reports DONE's page count, and writes generation 1 as `Backup` specifies |
| Backups.SQLiteBackupsJob.PerformSweep | app/jobs/sqlite_backups_job.rb:101-119 | the sweep leaves the filesystem and error that `Sweep` specifies |
| Backups.SQLiteBackupsJob.EnforceRetention | app/jobs/sqlite_backups_job.rb:121-137 | runs the walk only when the sweep directory is writable and the archive directory exists, and leaves the filesystem that `Retain` specifies |
| Backups.SQLiteBackupsJob.PruneExpired | app/jobs/sqlite_backups_job.rb:130-135 | the `Find.find` loop, in any visiting order, removes exactly the expired regular files below the archive directory |
| Eventable.BodyNilIffUnhandled | app/models/card/eventable/system_commenter.rb:16-31 | `comment_body` is nil exactly for actions outside the seven handled ones |
| Eventable.BodyRaisesIff | app/models/card/eventable/system_commenter.rb:24 | `comment_body` raises exactly for `card_closed` on a card without a closure |
| Eventable.BodiesArePresent | app/models/card/eventable/system_commenter.rb:9 | every body that is a string is present (not blank) |
| Eventable.CommentCreatedIffHandled | app/models/card/eventable/system_commenter.rb:8-12 | `comment` creates a comment exactly for handled actions; its creator is the system user, its date the event's, its body `comment_body` |
| Eventable.ToSentenceNamesAll | app/models/card/eventable/system_commenter.rb:18 | every assignee name appears verbatim in `to_sentence` |
| Eventable.ToSentenceAvoids | app/models/card/eventable/system_commenter.rb:18 | `to_sentence` adds no character outside the names and its connectors |
| Eventable.PlainTextStrong | app/models/card/eventable/system_commenter.rb:18 | the plain text of a `<strong>` span keeps exactly its words |
| Eventable.PlainChangeBody | app/models/card/eventable/system_commenter.rb:28-30 | a title or collection body reads: heading, "from", the quoted old value, "to", the quoted new value, "by" the creator |
| Eventable.PlainTextIsSentence | app/models/card/eventable/system_commenter.rb:16-31 | the plain text of each handled body is the expected sentence, when the interpolated values hold no markup |
| Eventable.PlainAssignment | app/models/card/eventable/system_commenter.rb:17-20 | assigned and unassigned bodies read "Assigned to"/"Unassigned from" the names' sentence, "by" the creator, with a period |
| Eventable.PlainStageOrClosure | app/models/card/eventable/system_commenter.rb:21-26 | staged, closed and reopened bodies read as their sentences, quoting the stage name or the closure reason |
| Eventable.PlainChange | app/models/card/eventable/system_commenter.rb:27-30 | title and collection bodies quote the old then the new value, dug from `particulars['particulars']` |
| Eventable.ClosingBodiesEndWithCreator | app/models/card/eventable/system_commenter.rb:23-26 | closed and reopened bodies end with " by " and the creator's name, with no period |
| Eventable.OtherBodiesEndWithPeriod | app/models/card/eventable/system_commenter.rb:17-30 | the other five bodies end with " by ", the creator's name and a period |
| Eventable.ChangeBodyDeterminesValues | app/models/card/eventable/system_commenter.rb:28-30 | the old and the new value can be read back from a title or collection body, when neither value contains a closing quote ’ |
| Eventable.AssignedTest | test/models/card/eventable/system_commenter_test.rb:9-13 | assigning Kevin, by David, reads "Assigned to Kevin by David." |
| Eventable.UnassignedTest | test/models/card/eventable/system_commenter_test.rb:15-22 | unassigning Kevin, by David, reads "Unassigned from Kevin by David." |
| Eventable.StagedTest | test/models/card/eventable/system_commenter_test.rb:24-28 | staging into "In progress", by David, reads "Moved to ‘In progress’ by David." |
| Eventable.ClosedTest | test/models/card/eventable/system_commenter_test.rb:30-34 | closing as "Done", by David, reads "Closed as ‘Done’ by David" |
| Eventable.TitleChangedTest | test/models/card/eventable/system_commenter_test.rb:36-40 | retitling, by David, reads "Title changed from ‘The text is too small’ to ‘Make text larger’ by David." |
| Eventable.Card.constructor | app/models/card/eventable/system_commenter.rb:2 | a card with the given comments and closure |
| Eventable.SystemCommenter.constructor | app/models/card/eventable/system_commenter.rb:4-6 | the commenter holds the card and the event |
| Eventable.SystemCommenter.Comment | app/models/card/eventable/system_commenter.rb:8-12 | the outcome is `CommentFor` of the event and the card's closure, and the card's comments grow by exactly the created comment, if any |

## Left out

- The values the job logs as progress are modelled (`Copier.Progress`, the `progress` result of `PerformBackup`). The log output itself (`log`, `Rails.logger`) is not. Neither is the `ActiveSupport::Benchmark` millisecond timing, which is a float.
- RetentionPhase.Cutoff: the retention window is an exact span of nanoseconds. `30.days` is a calendar duration that `Time#advance` applies in the local time zone, so across a daylight-saving change the real cutoff moves by an hour. That is not modelled.
- The `step:` argument (`DEFAULT_STEP_PAGES`) is not modelled. It only shapes the handle's reports, which are an input here.
- SQLite itself is outside the model: the page copying, `finish` errors, and `SQLite3::Database.new` failures other than a directory at generation 1 (for example a missing parent directory).
- `with_each_tenant`, `with_connection` and `db_config` are connection plumbing and are left out. The model takes the tenant list, each tenant's `db_path` and its backup handle as inputs.
- One `now` parameter stands for both `Time.now` and the time every file the job writes is created or changed. File times are stored creation times and cannot be earlier than 1970.
- The order in which `Find.find` visits entries is left open. The retention method visits them in any order, and the result does not depend on it.
- Concurrency is not modelled, and neither is the atomicity of `mv` and `cp`.
- Permissions are modelled only as the writable flag of the sweep directory.
- Files.Move: moving a directory moves only its own entry, not the entries below it.
- Paths.Basename: a path ending in a separator has an empty basename here; Ruby would strip the separator first.
- SweepPhase.Sweep: the environment and tenant names are taken as single path components. `mkdir_p` creates only the two innermost directories, because the sweep directory is checked to exist first.
- Backups.SQLiteBackupsJob.Perform: requires a DONE report in every tenant's step list. Without one, the source loops forever, and that is not modelled.
- JobRun.Run: requires a DONE report in every tenant's step list, including tenants after a raise that are never reached.
- Backups.SQLiteBackupsJob.PerformBackup: requires a DONE report in the tenant's step list. The BUSY/LOCKED retries are unbounded, as in the source.
- Exceptions are modelled as returned error values. A filesystem exception ends the whole job, because nothing in the job rescues it.
- Eventable.PlainTextIsSentence: `to_plain_text` is modelled as removing `<…>` tags only. Entity decoding is not modelled, and the lemma assumes the interpolated values hold no '<'.
- Eventable.IsBlank: only ASCII whitespace counts as blank.
- Eventable.ToSentence: uses the English connectors only; locale-specific ones are left out.
- The commenter's persistence (`comments.create!`), the `pluck` query and `User.system` are modelled as a sequence field, a list of names and a `SystemUser` creator.
- A nil event creator is not modelled. `particulars` is modelled as a map of string maps, so non-hash values are not modelled either.
- The notification test (system_commenter_test.rb:42-48) is left out. Notifications are not part of this model.
