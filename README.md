# Skytable snapshot engine — a Dafny model

This project models the snapshot subsystem of the Skytable server
(`server/src/diskstore/snapshot.rs`). It covers four parts:

- the retention queue (`mod queue`), a FIFO of snapshot names that gives back its oldest name when a
  new one arrives while it is exactly full, unless it is set never to pop;
- the snapshot-name validator `SNAP_MATCH` and the name generator `get_snapname`;
- `SnapshotEngine::new`, which picks the queue configuration from the retention count and then
  either starts empty (fresh install) or recovers the names already in the snapshot root;
- the two sections of `mksnap`: the nonblocking bookkeeping, which adds the new name to the queue,
  and the blocking section, which takes the snapshot lock, flushes, deletes the evicted snapshot
  and releases the lock.

Files:

- `wrappers.dfy`: module `Wrappers`, the `Option` and `Result` datatypes.
- `snapname.dfy`: module `SnapName`. `SnapMatch` is the anchored pattern written by hand. The
  time part after the dash has optional one- or two-character pieces, and the regex search over
  where each piece ends is an existential over split points. `FormatSnapname` is
  `%Y%m%d-%H%M%S` applied to a clock reading.
- `queue.dfy`: module `SnapQueue`. The class `Queue` has the three fields of `queue::Queue` (`queue`,
  `maxlen`, `dontpop`) and its methods `Add` and `Pop`. `Added` and `AddAll` are the pure
  specification of one add and of a run of adds. The lemmas state FIFO eviction, unbounded
  mode, and what happens to an overfull queue.
- `engine.dfy`: module `Snapshot`. It holds the queue configuration and the recovery loop
  (`ScanSnapshotDir`, a method proved against the function `Scanned`). It also holds the
  lemmas on recovery outcomes, the blocking section, the `SnapshotEngine` class with its
  nonblocking section and the sequential `mksnap`, and `NewEngine`.

The filesystem and the store are inputs:

- The outcome of `create_dir` is an input.
- The directory listing is an input. Each entry has a kind (regular file, directory or
  neither) and a name that may not be valid Unicode, and the iterator may yield an error
  instead of an entry.
- The outcomes of the flush and of `remove_dir_all` are inputs.
- The clock reading behind `get_snapname` is an input.

The blocking section returns the trace of the steps it issues: acquire the lock, flush, remove
the old snapshot, release the lock. Its contract states the lock discipline on that trace.

The model follows the code as written. Three consequences of the code are easy to miss:

- Recovery collects entries that are neither regular files nor directories. Directories, which
  is where snapshots are actually written, are skipped: the collecting branch sits under
  `if !path.is_dir()` (line 115). A root holding valid snapshot directories therefore recovers
  an empty queue, and a directory named `not-a-timestamp` is skipped rather than rejected.
  `DirectoriesSkippedExample` and `RejectionExamples` prove both effects.
- The capacity bound of a bounded queue holds only when the queue starts within a positive
  capacity. `is_overflow` tests `len == maxlen`, so a queue seeded by `init_pre` with more than
  `maxlen` names never evicts again (`OverfullNeverEvicts`). With `maxlen == 0`, the first add
  pops an empty queue and from then on the queue grows (`ZeroCapacityGrows`). The engine never
  builds a queue of capacity zero (`QueueConfig`).
- The pattern makes both the hour and the minute optional, not only the hour. After a valid
  date and the dash it accepts any one to three digits, such as `20210601-5`, which the
  generator never produces (`ShortNamesMatch`). Four digits are accepted only when they split
  as a valid time, so `20210601-9999` is rejected (`FourDigitTailRejected`). Names of the
  generated width are exactly the generated names (`FullWidthMatchIsGenerated`).

## Model

| member | source | states |
|---|---|---|
| SnapName.MonthField | server/src/diskstore/snapshot.rs:44 | the month group of the pattern matches only two digits (its range is stated by TwoDigitFields) |
| SnapName.DayField | server/src/diskstore/snapshot.rs:44 | the day group of the pattern matches only two digits (its range is stated by TwoDigitFields) |
| SnapName.HourField | server/src/diskstore/snapshot.rs:44 | the optional hour group matches only one or two digits |
| SnapName.SixtyField | server/src/diskstore/snapshot.rs:44 | the minute and second groups match only one or two digits |
| SnapName.HourMinuteShape | server/src/diskstore/snapshot.rs:44 | the optional hour followed by the minute matches one to four digits |
| SnapName.TimePartShape | server/src/diskstore/snapshot.rs:44 | the anchored time part after the dash, however the regex splits it, is one to six digits |
| SnapName.SnapMatch | server/src/diskstore/snapshot.rs:43-45 | a name `SNAP_MATCH` accepts is ten to fifteen characters, all ASCII digits except a dash at position 8 |
| SnapName.FormatSnapname | server/src/diskstore/snapshot.rs:158-160 | a generated name is fifteen characters, all digits except a dash at position 8 |
| SnapName.MatchOfFields | server/src/diskstore/snapshot.rs:44 | a date of valid year, month and day fields, a dash, a two-digit hour, a minute and a second is accepted |
| SnapName.GeneratedNameMatches | server/src/diskstore/snapshot.rs:39-45 | every name `get_snapname` produces from a valid clock reading (four-digit year, month 1-12, day 1-31, hour 0-23, minute and second 0-59) is accepted by `SNAP_MATCH` |
| SnapName.TwoDigitFields | server/src/diskstore/snapshot.rs:44 | on two digits, the month, day, hour and minute-or-second groups match if and only if the value is in 1-12, 1-31, 0-23 and 0-59 respectively |
| SnapName.FullTimePartSplit | server/src/diskstore/snapshot.rs:44 | a six-character time part can only be split as a two-digit hour, minute and second |
| SnapName.FullWidthMatchIsGenerated | server/src/diskstore/snapshot.rs:43-45 | every fifteen-character name the pattern accepts is the formatting of some valid clock reading (the converse of GeneratedNameMatches) |
| SnapName.ParseFormatted | server/src/diskstore/snapshot.rs:159 | reading the digits of a generated name back gives the clock reading it was made from, so distinct readings give distinct names |
| SnapName.FirstExampleNameMatches | server/src/diskstore/snapshot.rs:43-45 | `20210601-120000` is accepted |
| SnapName.SecondExampleNameMatches | server/src/diskstore/snapshot.rs:43-45 | `20210601-140000` is accepted |
| SnapName.ExampleNamesRejected | server/src/diskstore/snapshot.rs:43-45 | `not-a-timestamp` and a name with month 13 are rejected |
| SnapName.ShortTimePart | server/src/diskstore/snapshot.rs:44 | any one, two or three digits form an accepted time part: a second; a minute and a second; or an hour, a minute and a second |
| SnapName.ShortNamesMatch | server/src/diskstore/snapshot.rs:43-45 | because the hour-and-minute group and the hour are optional, every valid date followed by a dash and one to three digits, such as `20210601-5`, is accepted |
| SnapName.FourDigitTailRejected | server/src/diskstore/snapshot.rs:44 | four digits after the dash are not always accepted: `20210601-9999` has no valid split and is rejected |
| SnapQueue.Overflowing | server/src/diskstore/snapshot.rs:276-278 | the overflow test is `len == maxlen`, equality and not "at least"; its consequence for an overfull queue is OverfullNeverEvicts |
| SnapQueue.PopFront | server/src/diskstore/snapshot.rs:280-286 | popping an empty queue gives `None` and leaves it empty; otherwise the front name is given back and the rest is kept in order |
| SnapQueue.Added | server/src/diskstore/snapshot.rs:258-278 | an add gives a name back exactly when popping is on and the queue holds exactly `maxlen > 0` names, and that name is the oldest; the new name always goes at the back behind the kept ones; a bounded queue within a positive capacity stays within it |
| SnapQueue.AddAll | server/src/diskstore/snapshot.rs:258-274 | a run of adds returns one result per added name |
| SnapQueue.FifoWindow | server/src/diskstore/snapshot.rs:258-286 | starting within a positive capacity, a run of bounded adds leaves exactly the last `maxlen` names seen, in order, never more than `maxlen`; the j-th add gives back nothing while the queue fills, and afterwards the name exactly `maxlen` places older than the one it adds |
| SnapQueue.FifoContents | server/src/diskstore/snapshot.rs:258-286 | after a run of bounded adds from within a positive capacity, the queue holds the last `maxlen` names seen, in order |
| SnapQueue.FifoEvicted | server/src/diskstore/snapshot.rs:258-286 | the j-th of those adds gives back nothing while the queue fills, and afterwards the name `maxlen` places older than the one it adds |
| SnapQueue.DontPopKeepsAll | server/src/diskstore/snapshot.rs:259-263 | with `dontpop`, a run of adds keeps every name in order and gives back `None` every time |
| SnapQueue.OverfullNeverEvicts | server/src/diskstore/snapshot.rs:276-278 | a bounded queue holding more than `maxlen` names never gives a name back and keeps growing |
| SnapQueue.ZeroCapacityGrows | server/src/diskstore/snapshot.rs:280-283 | with capacity zero the first add pops an empty queue, gives back `None` and leaves one name |
| SnapQueue.BoundedScenario | server/src/diskstore/snapshot.rs:290-298 | capacity 4, adds `snap1` to `snap6`: four `None`, then `snap1`, then `snap2`, leaving `snap3` to `snap6` |
| SnapQueue.DontPopScenario | server/src/diskstore/snapshot.rs:301-310 | unbounded with hint 4, six adds: every result is `None` and all six names are kept |
| SnapQueue.QueueTests | server/src/diskstore/snapshot.rs:289-310 | `test_queue` and `test_queue_dontpop` against the class: a bounded queue of capacity 4 gives back four `None`, then `snap1`, then `snap2`, and keeps `snap3` to `snap6`; with `dontpop` all six adds give back `None` |
| SnapQueue.Queue.New | server/src/diskstore/snapshot.rs:243-249 | a new queue is empty with the given `maxlen` and `dontpop` |
| SnapQueue.Queue.InitPre | server/src/diskstore/snapshot.rs:250-256 | a seeded queue holds the given names unchanged, neither checked nor trimmed |
| SnapQueue.Queue.IsOverflow | server/src/diskstore/snapshot.rs:276-278 | the class's overflow test is `Overflowing` on its contents and capacity |
| SnapQueue.Queue.Pop | server/src/diskstore/snapshot.rs:280-286 | the new contents and the result are those of `PopFront` on the old contents; only the contents change |
| SnapQueue.Queue.Add | server/src/diskstore/snapshot.rs:258-274 | the new contents and the result are those of `Added` on the old contents; `maxlen` and `dontpop` never change; a bounded queue within a positive capacity stays within it |
| Snapshot.QueueConfig | server/src/diskstore/snapshot.rs:47-49 | a retention count of zero selects `(12, true)` (keep all), any other count `n` selects `(n, false)`; the capacity is never zero |
| Snapshot.Judge | server/src/diskstore/snapshot.rs:104-134 | one entry: a directory is skipped; an entry that is neither file nor directory is kept, under its name, exactly when its name is Unicode and satisfies `SNAP_MATCH`; an iterator error is rejected as `IoError` of that error, and every other rejection is an `EngineError` |
| Snapshot.Scanned | server/src/diskstore/snapshot.rs:103-136 | a successful recovery keeps no more names than entries, all satisfying `SNAP_MATCH`; a failed one reports the error of some rejected entry |
| Snapshot.Kept | server/src/diskstore/snapshot.rs:115-135 | the names the recovery keeps are no more than the entries and all satisfy `SNAP_MATCH` |
| Snapshot.ScanErrSticks | server/src/diskstore/snapshot.rs:103-136 | once an entry fails the recovery, later entries do not change the outcome |
| Snapshot.ScanSucceeds | server/src/diskstore/snapshot.rs:103-147 | recovery succeeds exactly when no entry is rejected, and then returns exactly the kept names in listing order, with directories skipped |
| Snapshot.ScanFailsAtFirstRejection | server/src/diskstore/snapshot.rs:103-136 | a failed recovery reports the error of the first rejected entry: an iterator error gives `IoError`, a regular file or a bad non-directory name gives `EngineError` |
| Snapshot.FileEntryFails | server/src/diskstore/snapshot.rs:107-114 | a regular file anywhere in the snapshot root makes recovery fail |
| Snapshot.ScanSnapshotDir | server/src/diskstore/snapshot.rs:103-136 | the recovery loop returns the outcome `Scanned` defines: the error of the first rejected entry, or the kept names in listing order |
| Snapshot.InitialSnapshots | server/src/diskstore/snapshot.rs:97-155 | the names the engine starts with all satisfy `SNAP_MATCH`; names are found, and an `EngineError` arises, only when the root already exists and is listed |
| Snapshot.StartupOutcomes | server/src/diskstore/snapshot.rs:97-155 | a fresh install starts with no names; a `create_dir` error other than already-exists and a `read_dir` error are `IoError`; otherwise startup fails exactly when an entry is rejected and succeeds with the kept names in listing order |
| Snapshot.ScanOfValidNames | server/src/diskstore/snapshot.rs:115-128 | a listing of validly named entries that are neither file nor directory recovers exactly those names, in listing order |
| Snapshot.DirectoriesSkippedExample | server/src/diskstore/snapshot.rs:115-135 | snapshot directories `20210601-120000` and `20210601-140000` recover no names, as written |
| Snapshot.RejectionExamples | server/src/diskstore/snapshot.rs:107-134 | a regular file beside a snapshot directory gives `EngineError`; a non-directory `not-a-timestamp` gives `EngineError`; a directory of that name is skipped |
| Snapshot.MksnapBlockingSection | server/src/diskstore/snapshot.rs:172-204 | the lock is acquired first and released last, exactly once each; the flush of the new name comes first under the lock; a delete is issued only after a successful flush and only of the old snapshot, and always when both hold; the trace has four steps when the delete is issued and three otherwise; the result is true exactly when the flush succeeded and the delete was absent or succeeded |
| Snapshot.SnapshotEngine.MksnapNonblockingSection | server/src/diskstore/snapshot.rs:157-165 | the new name is the formatted clock reading and satisfies `SNAP_MATCH`; the queue changes as one `add` of it, and the returned old name is exactly what that add gave back |
| Snapshot.SnapshotEngine.Mksnap | server/src/diskstore/snapshot.rs:220-228 | the queue changes as one `add` of the new name whatever the I/O reports; the lock is acquired first and released last, once each, and the new name is flushed right after the lock; the evicted name, and only it, is deleted, after a successful flush and always when the flush succeeded; the trace has four steps then and three otherwise; the result is true exactly when the flush succeeded and there was no eviction or its delete succeeded |
| Snapshot.NewEngine | server/src/diskstore/snapshot.rs:90-156 | startup fails exactly when `InitialSnapshots` does, with its error; otherwise the new engine's queue holds the initial names, with the configuration `QueueConfig` selects |

## Left out

- The worker-thread dispatch of `mksnap` (`spawn_blocking(...).await.expect(...)`) and its panic path: `Mksnap` is the sequential composition of the two sections.
- The filesystem calls `create_dir`, `read_dir`, `remove_dir_all`, `is_file` and `is_dir`: their outcomes are inputs, and operating-system semantics (symbolic links, races between the two kind checks) are not modelled.
- The snapshot root path `DIR_SNAPROOT` is defined outside this file and is not part of this model: the delete step names the old snapshot only, not the joined path.
- The store: `lock_snap`, `get_store`, `snap_flush_full` and the `Corestore` clone are foreign code. The lock and flush appear only as steps of the effect trace, and the flush outcome is an input.
- The `dbref` field of `SnapshotEngine`: the engine holds only its queue.
- `Utc::now()`: the clock reading is a parameter.
- FormatSnapname: takes only four-digit years and seconds 0-59, and checks day 1-31 without month lengths. Chrono prints years outside 0-9999 with a sign and more digits, and the model does not cover those years.
- SnapMatch: `\d` is the ASCII digits only. Rust's regex `\d` also matches other Unicode decimal digits. The regex engine itself is not modelled.
- `usize` widths: the retention count and the queue length are unbounded naturals, since no realistic number of snapshots reaches `usize` overflow.
- `Vec::with_capacity`: preallocation has no observable effect and is not modelled.
- `impl fmt::Display for SnapengineError`, `println!` and the `log::` calls: output formatting only.
- `server/src/actions/pop.rs` and `server/src/actions/get.rs`: client-protocol handlers built from macros not shown here, doing connection I/O over process-wide state; they are not part of this model.
