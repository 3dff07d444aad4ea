/**
  * The snapshot engine: the queue configuration, the startup recovery over the snapshot root,
  * and the two sections of `mksnap` (bookkeeping, then the lock-guarded flush and delete).
  *
  * The filesystem and the store are not modelled: what `create_dir`, `read_dir`, `is_file`,
  * `is_dir`, the flush and `remove_dir_all` report is given to the operations as input, and
  * the lock and I/O steps the blocking section issues are returned as an effect trace.
  */
module Snapshot {
  import opened Wrappers
  import opened SnapName
  import opened SnapQueue

  /** `DEF_SNAPSHOT_COUNT`: the queue capacity used when the retention count is zero. */
  const DefSnapshotCount: nat := 12

  const UnrecognizedFiles: string := "The snapshot directory contains unrecognized files/directories"
  const InvalidNames: string :=
    "The snapshot file names have invalid characters. This should not happen! Please report an error"

  /** An operating-system error (`io::Error`), carried along but never inspected. */
  datatype OsError = OsError(code: int)

  /** `SnapengineError`. */
  datatype SnapengineError = EngineError(reason: string) | IoError(err: OsError)

  /** What `fs::create_dir` on the snapshot root reports. */
  datatype CreateDirOutcome = Created | AlreadyExists | CreateFailed(err: OsError)

  /** What `is_file` and `is_dir` say of an entry: a regular file, a directory, or neither. */
  datatype EntryKind = File | Dir | Other

  /** An entry's file name: valid Unicode (`to_str` succeeds) or not. */
  datatype FileName = Unicode(text: string) | NotUnicode

  /** One item of the directory iterator: an entry, or the error the iterator yielded instead. */
  datatype DirEntry = Entry(kind: EntryKind, name: FileName) | EntryFailed(err: OsError)

  /** What `fs::read_dir` on the snapshot root gives: the entries in listing order, or an error. */
  datatype ReadDirOutcome = Listed(entries: seq<DirEntry>) | ReadDirFailed(err: OsError)

  /**
    * `q_cfg_tuple`: a retention count of zero keeps every snapshot, with the default count as
    * the capacity hint; any other count bounds the queue by it.  The capacity is never zero.
    */
  function QueueConfig(maxtop: nat): (cfg: (nat, bool))
    ensures cfg.1 <==> maxtop == 0
    ensures cfg.0 == if maxtop == 0 then DefSnapshotCount else maxtop
    ensures cfg.0 > 0
  {
    if maxtop == 0 then (DefSnapshotCount, true) else (maxtop, false)
  }

  /** What the recovery loop does with one entry. */
  datatype Verdict = Keep(name: string) | Skip | Reject(error: SnapengineError)

  /**
    * Directories are skipped, validly named entries that are neither file nor directory are
    * kept under their name, and everything else is rejected: an iterator error as an I/O error.
    */
  function Judge(e: DirEntry): (v: Verdict)
    ensures v.Skip? <==> e.Entry? && e.kind == Dir
    ensures v.Keep? <==> e.Entry? && e.kind == Other && e.name.Unicode? && SnapMatch(e.name.text)
    ensures v.Keep? ==> v.name == e.name.text
    ensures e.EntryFailed? <==> v.Reject? && v.error.IoError?
    ensures e.EntryFailed? ==> v.error == IoError(e.err)
  {
    match e
    case EntryFailed(err) => Reject(IoError(err))
    case Entry(File, _) => Reject(EngineError(UnrecognizedFiles))
    case Entry(Dir, _) => Skip
    case Entry(Other, NotUnicode) => Reject(EngineError(InvalidNames))
    case Entry(Other, Unicode(n)) => if SnapMatch(n) then Keep(n) else Reject(EngineError(InvalidNames))
  }

  /** The recovery loop over the entries in listing order: it stops at the first rejected entry. */
  function Scanned(es: seq<DirEntry>): (r: Result<seq<string>, SnapengineError>)
    ensures r.Ok? ==> |r.value| <= |es| && forall k :: 0 <= k < |r.value| ==> SnapMatch(r.value[k])
    ensures r.Err? ==> exists k :: 0 <= k < |es| && Judge(es[k]) == Reject(r.error)
    decreases |es|
  {
    if es == [] then Ok([])
    else
      match Scanned(es[..|es| - 1])
      case Err(e) => Err(e)
      case Ok(names) =>
        match Judge(es[|es| - 1])
        case Reject(e) => Err(e)
        case Skip => Ok(names)
        case Keep(n) => Ok(names + [n])
  }

  /** The names of the entries the loop keeps, in listing order: valid snapshot names only. */
  function Kept(es: seq<DirEntry>): (names: seq<string>)
    ensures |names| <= |es|
    ensures forall k :: 0 <= k < |names| ==> SnapMatch(names[k])
    decreases |es|
  {
    if es == [] then []
    else (if Judge(es[0]).Keep? then [Judge(es[0]).name] else []) + Kept(es[1..])
  }

  /** Once the loop has failed on a prefix of the listing, the rest of the listing is not looked at. */
  lemma {:induction false} ScanErrSticks(es: seq<DirEntry>, i: nat)
    requires i <= |es| && Scanned(es[..i]).Err?
    ensures Scanned(es) == Scanned(es[..i])
    decreases |es|
  {
    if i < |es| {
      var front := es[..|es| - 1];
      assert front[..i] == es[..i];
      ScanErrSticks(front, i);
    } else {
      assert es[..i] == es;
    }
  }

  /** Keeping works entry by entry, so it extends over a listing that grows at the back. */
  lemma {:induction false} KeptSnoc(es: seq<DirEntry>, e: DirEntry)
    ensures Kept(es + [e]) == Kept(es) + (if Judge(e).Keep? then [Judge(e).name] else [])
    decreases |es|
  {
    if es != [] {
      var xs := es + [e];
      assert xs[0] == es[0] && xs[1..] == es[1..] + [e];
      KeptSnoc(es[1..], e);
    } else {
      assert [] + [e] == [e];
    }
  }

  /**
    * The recovery succeeds exactly when no entry is rejected, and then it returns every kept
    * name in listing order: the non-file, non-directory entries, all of them validly named.
    * Directories are skipped.
    */
  lemma {:induction false} ScanSucceeds(es: seq<DirEntry>)
    ensures Scanned(es).Ok? <==> forall k :: 0 <= k < |es| ==> !Judge(es[k]).Reject?
    ensures Scanned(es).Ok? ==> Scanned(es).value == Kept(es)
    decreases |es|
  {
    if es != [] {
      var front, last := es[..|es| - 1], es[|es| - 1];
      ScanSucceeds(front);
      assert es == front + [last];
      KeptSnoc(front, last);
      assert forall k :: 0 <= k < |front| ==> front[k] == es[k];
    }
  }

  /** A failed recovery reports the error of the first rejected entry of the listing. */
  lemma {:induction false} ScanFailsAtFirstRejection(es: seq<DirEntry>)
    requires Scanned(es).Err?
    ensures exists i :: 0 <= i < |es| && Judge(es[i]) == Reject(Scanned(es).error) &&
                        forall j :: 0 <= j < i ==> !Judge(es[j]).Reject?
    decreases |es|
  {
    var front, last := es[..|es| - 1], es[|es| - 1];
    assert forall k :: 0 <= k < |front| ==> front[k] == es[k];
    if Scanned(front).Err? {
      ScanFailsAtFirstRejection(front);
    } else {
      ScanSucceeds(front);
      assert Judge(es[|es| - 1]) == Reject(Scanned(es).error);
    }
  }

  /** One more entry of the listing is judged on its own, after the ones before it. */
  lemma ScanStep(es: seq<DirEntry>, i: nat)
    requires i < |es|
    ensures Scanned(es[..i + 1]) ==
      match Scanned(es[..i])
      case Err(e) => Err(e)
      case Ok(names) =>
        match Judge(es[i])
        case Reject(e) => Err(e)
        case Skip => Ok(names)
        case Keep(n) => Ok(names + [n])
  {
    assert es[..i + 1][..i] == es[..i];
  }

  /** Any regular file in the snapshot root makes the recovery fail. */
  lemma FileEntryFails(es: seq<DirEntry>, i: nat, name: FileName)
    requires i < |es| && es[i] == Entry(File, name)
    ensures Scanned(es).Err?
  {
    ScanSucceeds(es);
  }

  /**
    * The recovery loop of `SnapshotEngine::new`: walk the listing in order, fail on an
    * iterator error, a regular file, or an entry that is neither file nor directory whose
    * name is not Unicode or not a snapshot name; collect the names of the other such entries.
    */
  method ScanSnapshotDir(entries: seq<DirEntry>) returns (r: Result<seq<string>, SnapengineError>)
    ensures r == Scanned(entries)
  {
    var snaps: seq<string> := [];
    var i := 0;
    while i < |entries|
      invariant i <= |entries|
      invariant Scanned(entries[..i]) == Ok(snaps)
    {
      ScanStep(entries, i);
      match entries[i]
      case EntryFailed(err) =>
        r := Err(IoError(err));
        ScanErrSticks(entries, i + 1);
        return;
      case Entry(kind, name) =>
        if kind == File {
          r := Err(EngineError(UnrecognizedFiles));
          ScanErrSticks(entries, i + 1);
          return;
        }
        if kind != Dir {
          match name
          case NotUnicode =>
            r := Err(EngineError(InvalidNames));
            ScanErrSticks(entries, i + 1);
            return;
          case Unicode(fileName) =>
            if SnapMatch(fileName) {
              assert Judge(entries[i]) == Keep(fileName);
              snaps := snaps + [fileName];
            } else {
              assert Judge(entries[i]) == Reject(EngineError(InvalidNames));
              r := Err(EngineError(InvalidNames));
              ScanErrSticks(entries, i + 1);
              return;
            }
        } else {
          assert Judge(entries[i]) == Skip;
        }
      i := i + 1;
    }
    assert entries[..i] == entries;
    r := Ok(snaps);
  }

  /**
    * The names the engine starts with: none on a fresh install, the recovered ones when the
    * snapshot root already exists, or the error that aborts startup.
    */
  function InitialSnapshots(mkdir: CreateDirOutcome, listing: ReadDirOutcome): (r: Result<seq<string>, SnapengineError>)
    ensures r.Ok? ==> forall k :: 0 <= k < |r.value| ==> SnapMatch(r.value[k])
    ensures r.Ok? && r.value != [] ==> mkdir.AlreadyExists? && listing.Listed?
    ensures r.Err? && r.error.EngineError? ==> mkdir.AlreadyExists? && listing.Listed?
  {
    match mkdir
    case Created => Ok([])
    case CreateFailed(e) => Err(IoError(e))
    case AlreadyExists =>
      match listing
      case ReadDirFailed(e) => Err(IoError(e))
      case Listed(es) => Scanned(es)
  }

  /**
    * Startup outcomes: a fresh install starts empty; a `create_dir` or `read_dir` failure is an
    * I/O error; otherwise startup fails exactly when an entry is rejected, and succeeds with the
    * kept names, in listing order.
    */
  lemma StartupOutcomes(mkdir: CreateDirOutcome, listing: ReadDirOutcome)
    ensures mkdir.Created? ==> InitialSnapshots(mkdir, listing) == Ok([])
    ensures mkdir.CreateFailed? ==> InitialSnapshots(mkdir, listing) == Err(IoError(mkdir.err))
    ensures mkdir.AlreadyExists? && listing.ReadDirFailed? ==>
              InitialSnapshots(mkdir, listing) == Err(IoError(listing.err))
    ensures mkdir.AlreadyExists? && listing.Listed? ==>
              (InitialSnapshots(mkdir, listing).Ok? <==>
                 forall k :: 0 <= k < |listing.entries| ==> !Judge(listing.entries[k]).Reject?)
    ensures mkdir.AlreadyExists? && listing.Listed? && InitialSnapshots(mkdir, listing).Ok? ==>
              InitialSnapshots(mkdir, listing).value == Kept(listing.entries)
  {
    if mkdir.AlreadyExists? && listing.Listed? {
      ScanSucceeds(listing.entries);
    }
  }

  /**
    * Recovering a listing of entries that are neither file nor directory, all validly named,
    * gives back exactly their names in listing order.
    */
  lemma {:induction false} ScanOfValidNames(names: seq<string>)
    requires forall k :: 0 <= k < |names| ==> SnapMatch(names[k])
    ensures Scanned(OtherEntries(names)) == Ok(names)
    decreases |names|
  {
    if names != [] {
      var front := names[..|names| - 1];
      ScanOfValidNames(front);
      var es := OtherEntries(names);
      assert es[..|es| - 1] == OtherEntries(front);
      assert front + [names[|names| - 1]] == names;
    }
  }

  /** Each name as an entry that is neither a regular file nor a directory. */
  function OtherEntries(names: seq<string>): (es: seq<DirEntry>)
    ensures |es| == |names|
    ensures forall k :: 0 <= k < |names| ==> es[k] == Entry(Other, Unicode(names[k]))
  {
    seq(|names|, k requires 0 <= k < |names| => Entry(Other, Unicode(names[k])))
  }

  /**
    * A root holding the snapshot directories `20210601-120000` and `20210601-140000` recovers no
    * names, because directories are skipped.
    */
  lemma DirectoriesSkippedExample()
    ensures Scanned([Entry(Dir, Unicode("20210601-120000")), Entry(Dir, Unicode("20210601-140000"))]) == Ok([])
  {
    var es := [Entry(Dir, Unicode("20210601-120000")), Entry(Dir, Unicode("20210601-140000"))];
    assert es[..1] == [es[0]] && es[..1][..0] == [];
  }

  /**
    * A regular file beside snapshot directories aborts startup with an engine error; so does a
    * non-directory entry named `not-a-timestamp`, while a directory of that name is skipped.
    */
  lemma RejectionExamples()
    ensures Scanned([Entry(Dir, Unicode("20210601-120000")), Entry(File, Unicode("notes.txt"))])
         == Err(EngineError(UnrecognizedFiles))
    ensures Scanned([Entry(Other, Unicode("not-a-timestamp"))]) == Err(EngineError(InvalidNames))
    ensures Scanned([Entry(Dir, Unicode("not-a-timestamp"))]) == Ok([])
  {
    ExampleNamesRejected();
    var es := [Entry(Dir, Unicode("20210601-120000")), Entry(File, Unicode("notes.txt"))];
    assert es[..1] == [es[0]] && es[..1][..0] == [];
  }

  /** The lock and I/O steps of the blocking section, in the order it issues them. */
  datatype Effect = AcquireLock | Flush(snapname: string) | RemoveSnapshot(name: string) | ReleaseLock

  /**
    * `mksnap_blocking_section`: take the snapshot lock, flush the store under the new name, then
    * delete the evicted snapshot if there is one, and release the lock on every path.  The flush
    * and the delete report `flushOk` and `removeOk`; the result is true when nothing failed.
    */
  method MksnapBlockingSection(snapname: string, oldsnap: Option<string>, flushOk: bool, removeOk: bool)
    returns (ok: bool, trace: seq<Effect>)
    // the lock is taken first and released last, exactly once each
    ensures |trace| >= 3 && trace[0] == AcquireLock && trace[|trace| - 1] == ReleaseLock
    ensures multiset(trace)[AcquireLock] == 1 && multiset(trace)[ReleaseLock] == 1
    // the flush of the new snapshot comes first under the lock
    ensures trace[1] == Flush(snapname)
    // a delete is issued exactly when the flush succeeded and there is an old snapshot, and it is that one
    ensures forall e :: e in trace && e.RemoveSnapshot? ==> flushOk && oldsnap == Some(e.name)
    ensures flushOk && oldsnap.Some? ==> RemoveSnapshot(oldsnap.value) in trace
    ensures |trace| == if flushOk && oldsnap.Some? then 4 else 3
    ensures ok <==> flushOk && (oldsnap.None? || removeOk)
  {
    trace := [AcquireLock];
    trace := trace + [Flush(snapname)];
    if !flushOk {
      trace := trace + [ReleaseLock];
      return false, trace;
    }
    if oldsnap.Some? {
      trace := trace + [RemoveSnapshot(oldsnap.value)];
      if !removeOk {
        trace := trace + [ReleaseLock];
        return false, trace;
      }
    }
    trace := trace + [ReleaseLock];
    ok := true;
  }

  /** `SnapshotEngine`: the retention queue it owns (the store handle is not modelled). */
  class SnapshotEngine {
    var snaps: Queue

    constructor (q: Queue)
      ensures snaps == q
    {
      snaps := q;
    }

    /** The `add` that a snapshot taken at `now` performs on the queue as it stands. */
    ghost function PendingAdd(now: Timestamp): AddStep
      requires ValidTimestamp(now)
      reads this, snaps
    {
      Added(snaps.queue, snaps.maxlen, snaps.dontpop, FormatSnapname(now))
    }

    /**
      * `_mksnap_nonblocking_section`: name the new snapshot after the clock reading `now` and
      * add it to the queue, returning the name and exactly what the queue gave back.
      */
    method MksnapNonblockingSection(now: Timestamp) returns (snapname: string, oldSnap: Option<string>)
      requires ValidTimestamp(now)
      modifies snaps`queue
      ensures snapname == FormatSnapname(now) && SnapMatch(snapname)
      ensures AddStep(snaps.queue, oldSnap) == old(PendingAdd(now))
    {
      snapname := FormatSnapname(now);
      GeneratedNameMatches(now);
      oldSnap := snaps.Add(snapname);
    }

    /**
      * `mksnap` without its worker-thread dispatch: the nonblocking section, then the blocking
      * section on its results.  The queue changes whatever the I/O reports.
      */
    method Mksnap(now: Timestamp, flushOk: bool, removeOk: bool) returns (ok: bool, trace: seq<Effect>)
      requires ValidTimestamp(now)
      modifies snaps`queue
      ensures snaps.queue == old(PendingAdd(now)).items
      ensures ok <==> flushOk && (old(PendingAdd(now)).evicted.None? || removeOk)
      // the lock is taken first and released last, exactly once each, around the flush
      ensures |trace| >= 3 && trace[0] == AcquireLock && trace[|trace| - 1] == ReleaseLock
      ensures multiset(trace)[AcquireLock] == 1 && multiset(trace)[ReleaseLock] == 1
      ensures trace[1] == Flush(FormatSnapname(now))
      // the evicted name is deleted exactly when the flush succeeded, and nothing else is
      ensures forall e :: e in trace && e.RemoveSnapshot? ==> flushOk && old(PendingAdd(now)).evicted == Some(e.name)
      ensures flushOk && old(PendingAdd(now)).evicted.Some? ==>
                RemoveSnapshot(old(PendingAdd(now)).evicted.value) in trace
      ensures |trace| == if flushOk && old(PendingAdd(now)).evicted.Some? then 4 else 3
    {
      ghost var step := PendingAdd(now);
      var createThis, removeThis := MksnapNonblockingSection(now);
      assert removeThis == step.evicted;
      ok, trace := MksnapBlockingSection(createThis, removeThis, flushOk, removeOk);
    }
  }

  /**
    * `SnapshotEngine::new`: choose the queue configuration from the retention count, then start
    * empty on a fresh install or from the recovered names when the snapshot root exists.
    */
  method NewEngine(maxtop: nat, mkdir: CreateDirOutcome, listing: ReadDirOutcome)
    returns (r: Result<SnapshotEngine, SnapengineError>)
    ensures r.Err? <==> InitialSnapshots(mkdir, listing).Err?
    ensures r.Err? ==> r.error == InitialSnapshots(mkdir, listing).error
    ensures r.Ok? ==> fresh(r.value) && fresh(r.value.snaps)
    ensures r.Ok? ==> r.value.snaps.queue == InitialSnapshots(mkdir, listing).value
    ensures r.Ok? ==> (r.value.snaps.maxlen, r.value.snaps.dontpop) == QueueConfig(maxtop)
  {
    var cfg := QueueConfig(maxtop);
    if mkdir.CreateFailed? {
      return Err(IoError(mkdir.err));
    }
    if mkdir.AlreadyExists? {
      if listing.ReadDirFailed? {
        return Err(IoError(listing.err));
      }
      var scanned := ScanSnapshotDir(listing.entries);
      if scanned.Err? {
        return Err(scanned.error);
      }
      var snaps := scanned.value;
      var q;
      if snaps == [] {
        q := new Queue.New(cfg);
      } else {
        q := new Queue.InitPre(cfg, snaps);
      }
      var engine := new SnapshotEngine(q);
      return Ok(engine);
    }
    var q := new Queue.New(cfg);
    var engine := new SnapshotEngine(q);
    r := Ok(engine);
  }
}
