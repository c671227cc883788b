/** The private staging directory: how it is made, checked, synced and cleaned up. */
module Staging {
  import opened Wrappers
  import opened Paths
  import opened Disks
  import opened Custody
  import opened FileSystems
  import opened Moves

  const GROUP_AND_OTHER_BITS: Mode := 0x1FF // 0o777

  // What creating and cleaning up may do to the disk

  /** `own` has been created since `d`; everything older is untouched, and what
      else is new belongs to other writers. */
  ghost predicate Added(quiet: bool, d: Disk, e: Disk, own: Names) {
    && WellFormed(e)
    && (forall q | q in d.names :: At(e.names, q, d.names[q]))
    && (forall q | q in own :: At(e.names, q, own[q]) && own[q] !in d.nodes)
    && (forall q | q in e.names ::
          At(d.names, q, e.names[q]) || At(own, q, e.names[q]) || (e.names[q] !in d.nodes && e.names[q] !in own.Values))
    && (forall i | i in d.nodes :: i in e.nodes && e.nodes[i] == d.nodes[i])
    && (forall p, q | p in own && q in own && own[p] == own[q] :: p == q)
    && (quiet ==> e.names == d.names + own)
  }

  ghost predicate Holds(d: Disk, i: Inode, kind: Kind, mode: Mode) {
    i in d.nodes && d.nodes[i].kind == kind && d.nodes[i].mode == mode
  }

  lemma AddedNothing(quiet: bool, d: Disk)
    requires WellFormed(d)
    ensures Added(quiet, d, d, map[])
  {
  }

  lemma AddedDrifts(quiet: bool, d: Disk, e: Disk, f: Disk, own: Names)
    requires Added(quiet, d, e, own) && Steady(quiet, e, f)
    ensures Added(quiet, d, f, own)
  {
  }

  lemma NewLinksKnown(quiet: bool, d: Disk, e: Disk, own: Names, p: Path, i: Inode, q: Path)
    requires WellFormed(d) && Added(quiet, d, e, own) && p !in e.names && i !in e.nodes
    requires q == p || q in e.names
    ensures var j := e.names[p := i][q];
      At(d.names, q, j) || At(own[p := i], q, j) || (j !in d.nodes && j !in own[p := i].Values)
  {
    if q != p && e.names[q] in own[p := i].Values {
      var r :| r in own[p := i] && own[p := i][r] == e.names[q];
      assert r in own && own[r] == e.names[q];
    }
  }

  lemma OwnStaysLinked(quiet: bool, d: Disk, e: Disk, own: Names, p: Path, i: Inode, more: Names, names: Names)
    requires WellFormed(d) && Added(quiet, d, e, own) && p !in e.names && i !in e.nodes
    requires more == own[p := i] && names == e.names[p := i]
    ensures forall q | q in more :: At(names, q, more[q]) && more[q] !in d.nodes
    ensures forall r, q | r in more && q in more && more[r] == more[q] :: r == q
    ensures quiet ==> names == d.names + more
  {
    assert forall q | q in own :: q in e.names && own[q] in e.nodes;
  }

  lemma AddedCreates(quiet: bool, d: Disk, e: Disk, own: Names, p: Path, i: Inode, kind: Kind, mode: Mode)
    requires WellFormed(d) && Added(quiet, d, e, own)
    requires Enabled(e, Create(p, i, kind, mode))
    ensures Added(quiet, d, Apply(e, Create(p, i, kind, mode)), own[p := i])
  {
    var f := Apply(e, Create(p, i, kind, mode));
    OwnStaysLinked(quiet, d, e, own, p, i, own[p := i], f.names);
    forall q | q in f.names
      ensures At(d.names, q, f.names[q]) || At(own[p := i], q, f.names[q])
              || (f.names[q] !in d.nodes && f.names[q] !in own[p := i].Values)
    {
      NewLinksKnown(quiet, d, e, own, p, i, q);
    }
    assert quiet ==> f.names == d.names + own[p := i];
  }

  lemma AddedOne(quiet: bool, d: Disk, e: Disk, f: Disk, own: Names, p: Path, i: Inode, kind: Kind, mode: Mode)
    requires WellFormed(d) && Added(quiet, d, e, own)
    requires Enabled(e, Create(p, i, kind, mode)) && Drift(quiet, Apply(e, Create(p, i, kind, mode)), f)
    ensures Added(quiet, d, f, own[p := i]) && Holds(f, i, kind, mode)
  {
    AddedCreates(quiet, d, e, own, p, i, kind, mode);
    AddedDrifts(quiet, d, Apply(e, Create(p, i, kind, mode)), f, own[p := i]);
  }

  lemma AddedIsOnlyAt(quiet: bool, d: Disk, e: Disk, own: Names, p: Path)
    requires WellFormed(d) && Added(quiet, d, e, own) && p in own
    ensures OnlyAt(e.names, own[p], p)
  {
  }

  /** Some of the links in `gone` have been removed, and nothing else has changed. */
  ghost predicate Cleared(quiet: bool, d: Disk, e: Disk, gone: Names) {
    && WellFormed(e)
    && (forall q | q in d.names && !At(gone, q, d.names[q]) :: At(e.names, q, d.names[q]))
    && (forall q | q in e.names && e.names[q] in d.nodes :: At(d.names, q, e.names[q]))
    && (forall i | i in d.nodes :: i in e.nodes && e.nodes[i] == d.nodes[i])
    && (forall i | i in e.dirtyNodes && i in d.nodes :: i in d.dirtyNodes)
    && (forall q | q in e.dirtyNames && q in d.names :: q in d.dirtyNames || At(gone, q, d.names[q]))
    && (quiet ==> forall q | q in e.names :: q in d.names)
  }

  lemma ClearedTransitive(quiet: bool, d: Disk, e: Disk, f: Disk, gone: Names)
    requires Cleared(quiet, d, e, gone) && Cleared(quiet, e, f, gone) && WellFormed(d)
    ensures Cleared(quiet, d, f, gone)
  {
  }

  lemma FileRemovedIsCleared(quiet: bool, d: Disk, e: Disk, p: Path, gone: Names)
    requires WellFormed(d) && Enabled(d, Remove(p)) && Drift(quiet, Apply(d, Remove(p)), e)
    requires At(gone, p, d.names[p])
    ensures Cleared(quiet, d, e, gone)
  {
  }

  lemma RemovedIsCleared(quiet: bool, d: Disk, e: Disk, p: Path, gone: Names)
    requires WellFormed(d) && Enabled(d, Event.RemoveDirectory(p)) && Drift(quiet, Apply(d, Event.RemoveDirectory(p)), e)
    requires At(gone, p, d.names[p])
    ensures Cleared(quiet, d, e, gone)
  {
  }

  lemma SteadyIsCleared(quiet: bool, d: Disk, e: Disk, gone: Names)
    requires Steady(quiet, d, e)
    ensures Cleared(quiet, d, e, gone)
  {
  }

  /** A fresh 0700 directory holding the replacement and its rollback journal. */
  class Stage {
    const path: Path
    const directory: Inode
    const file: Inode
    var retain: bool
    var journal: Option<Inode>
    var quarantined: bool

    constructor (path: Path, directory: Inode, file: Inode)
      ensures this.path == path && this.directory == directory && this.file == file
      ensures !retain && journal == None && !quarantined
    {
      this.path, this.directory, this.file := path, directory, file;
      retain, journal, quarantined := false, None, false;
    }

    function Rebuilt(): Path { Child(path, "rebuilt.db") }
    function Failed(): Path { Child(path, "failed.db") }
    function JournalPath(): Path { Sidecar(Rebuilt(), "-journal") }
    function Inside(): seq<string> { path.dir + [path.name] }

    ghost predicate Private(d: Disk) {
      At(d.names, path, directory) && directory in d.nodes && d.nodes[directory].mode == PRIVATE_DIRECTORY
    }

    /** The parent and the staging directory are still the ones first seen, and
        staging is still private. */
    method Check(fs: FileSystem) returns (r: Result<(), Failure>)
      requires fs.Valid()
      modifies fs
      ensures fs.Continues() && fs.mine == old(fs.mine) && fs.notes == old(fs.notes)
      ensures Drift(fs.quiet, old(fs.disk), fs.disk)
      ensures r.Err? ==> r.error.Plain?
      ensures r.Ok? ==>
                && At(fs.disk.names, path, directory) && directory in fs.disk.nodes
                && fs.disk.nodes[directory].mode & GROUP_AND_OTHER_BITS == PRIVATE_DIRECTORY
      ensures fs.faults == old(fs.faults) && Private(old(fs.disk)) ==> r.Ok?
      ensures r.Ok? ==> fs.faults == old(fs.faults)
      ensures r.Ok? ==> fs.checks >= old(fs.checks) + 2
    {
      r := StillOurs(fs);
      if r.Err? { return; }
      ghost var e := fs.disk;
      r := StillPrivate(fs);
      GrewTransitive(old(fs.disk), e, fs.disk);
    }

    /** The mode bits of the staging name are those of a private directory. */
    method StillPrivate(fs: FileSystem) returns (r: Result<(), Failure>)
      requires fs.Valid() && At(fs.disk.names, path, directory)
      modifies fs
      ensures fs.Continues() && fs.mine == old(fs.mine) && fs.notes == old(fs.notes)
      ensures Drift(fs.quiet, old(fs.disk), fs.disk)
      ensures r.Err? ==> r.error.Plain?
      ensures r.Ok? ==>
                && At(fs.disk.names, path, directory) && directory in fs.disk.nodes
                && fs.disk.nodes[directory].mode & GROUP_AND_OTHER_BITS == PRIVATE_DIRECTORY
      ensures fs.faults == old(fs.faults) && Private(old(fs.disk)) ==> r.Ok?
      ensures r.Ok? ==> fs.faults == old(fs.faults)
    {
      var look := fs.Stat(path);
      if !look.Found? { return Err(Plain("filesystem_failure")); }
      if look.mode & GROUP_AND_OTHER_BITS != PRIVATE_DIRECTORY { return Err(Plain("unsafe_recovery_staging")); }
      r := Ok(());
    }

    /** Neither the parent nor the staging name has come to link another directory. */
    method StillOurs(fs: FileSystem) returns (r: Result<(), Failure>)
      requires fs.Valid()
      modifies fs
      ensures fs.Continues() && fs.mine == old(fs.mine) && fs.notes == old(fs.notes)
      ensures Drift(fs.quiet, old(fs.disk), fs.disk)
      ensures r.Err? ==> r.error == Plain("recovery_path_changed")
      ensures r.Ok? ==> At(fs.disk.names, path, directory)
      ensures fs.faults == old(fs.faults) && At(old(fs.disk.names), path, directory) ==> r.Ok?
      ensures r.Ok? ==> fs.faults == old(fs.faults)
      ensures r.Ok? ==> fs.checks >= old(fs.checks) + 2
    {
      var parent := fs.Probe();
      if !parent { return Err(Plain("recovery_path_changed")); }
      ghost var d := fs.disk;
      var same := fs.Check(path, directory);
      GrewTransitive(old(fs.disk), d, fs.disk);
      r := if same then Ok(()) else Err(Plain("recovery_path_changed"));
    }

    /** Sync the staging directory, then the directory that holds it. */
    method Sync(fs: FileSystem) returns (r: Result<(), Failure>)
      requires fs.Valid()
      modifies fs
      ensures fs.Continues() && fs.mine == old(fs.mine) && fs.notes == old(fs.notes)
      ensures Steady(fs.quiet, old(fs.disk), fs.disk)
      ensures r.Err? ==> r.error.Plain?
      ensures r.Ok? ==> forall q | q in old(fs.disk.names) && (q.dir == path.dir || q.dir == Inside()) :: q !in fs.disk.dirtyNames
      ensures fs.faults == old(fs.faults) && Private(old(fs.disk)) ==> r.Ok?
      ensures r.Ok? ==> fs.faults == old(fs.faults)
      ensures r.Ok? ==> fs.checks >= old(fs.checks) + 2
    {
      r := Check(fs);
      if r.Err? { return; }
      ghost var d := fs.disk;
      r := SyncBoth(fs);
      SteadyTransitive(fs.quiet, old(fs.disk), d, fs.disk);
    }

    method SyncBoth(fs: FileSystem) returns (r: Result<(), Failure>)
      requires fs.Valid()
      modifies fs
      ensures fs.Continues() && fs.mine == old(fs.mine) && fs.notes == old(fs.notes)
      ensures Steady(fs.quiet, old(fs.disk), fs.disk)
      ensures r.Err? ==> r.error.Plain?
      ensures r.Ok? ==> forall q | q in old(fs.disk.names) && (q.dir == path.dir || q.dir == Inside()) :: q !in fs.disk.dirtyNames
      ensures fs.faults == old(fs.faults) ==> r.Ok?
      ensures r.Ok? ==> fs.faults == old(fs.faults)
    {
      r := SyncDirectoryOf(fs, Rebuilt());
      if r.Err? { return; }
      ghost var e := fs.disk;
      r := SyncDirectoryOf(fs, path);
      SteadyTransitive(fs.quiet, old(fs.disk), e, fs.disk);
    }

    /** The code may remove what it made in this stage. */
    ghost predicate Fits(fs: FileSystem)
      reads fs, this
    {
      && fs.Valid() && fs.copy == None && directory in fs.mine && file in fs.mine && (journal.Some? ==> journal.value in fs.mine)
      && fs.disk.nodes[file].kind != Directory && fs.disk.nodes[directory].kind == Directory
      && (journal.Some? ==> fs.disk.nodes[journal.value].kind != Directory)
      && (fs.plan.Some? ==>
            && fs.plan.value.staging == path && fs.plan.value.directory == directory && fs.plan.value.rebuilt == file
            && journal == Some(fs.plan.value.journal) && fs.notes.cleaning.Some?)
    }

    /** The links the clean-up may remove. */
    ghost function Own(): Names
      reads this
    {
      var made := map[path := directory][Rebuilt() := file];
      if journal.Some? then made[JournalPath() := journal.value] else made
    }

    ghost function OwnNames(): set<Path> { {path, Rebuilt(), JournalPath()} }

    /** The staging directory holds nothing but what this stage put there. */
    ghost predicate HoldsOnlyOwn(d: Disk)
      reads this
    {
      forall q | q in d.names && q.dir == Inside() ::
        (q == Rebuilt() && d.names[q] == file) || (q == JournalPath() && journal == Some(d.names[q]))
    }

    /** Remove one file of this stage. */
    method RemoveOwn(fs: FileSystem, at: Path, ino: Inode)
      requires Fits(fs) && At(fs.disk.names, at, ino)
      requires (at == Rebuilt() && ino == file) || (at == JournalPath() && journal == Some(ino))
      modifies fs
      ensures fs.Continues() && Fits(fs) && fs.mine == old(fs.mine) && fs.notes == old(fs.notes)
      ensures Cleared(fs.quiet, old(fs.disk), fs.disk, Own())
      ensures At(old(fs.disk.names), path, directory) ==> At(fs.disk.names, path, directory)
      ensures fs.quiet && fs.faults == old(fs.faults) ==> fs.disk.names == old(fs.disk.names) - {at}
    {
      var ok := fs.RemoveFile(at);
      if ok {
        FileRemovedIsCleared(fs.quiet, old(fs.disk), fs.disk, at, Own());
      } else {
        SteadyIsCleared(fs.quiet, old(fs.disk), fs.disk, Own());
      }
    }

    /** The replacement is removed if it is still in staging; a stranger under
        its name stops the clean-up. */
    method ClearRebuilt(fs: FileSystem) returns (go: bool)
      requires Fits(fs) && At(fs.disk.names, path, directory)
      modifies fs
      ensures fs.Continues() && Fits(fs) && fs.mine == old(fs.mine) && fs.notes == old(fs.notes)
      ensures Cleared(fs.quiet, old(fs.disk), fs.disk, Own()) && At(fs.disk.names, path, directory)
      ensures fs.quiet && fs.faults == old(fs.faults) ==>
                if Rebuilt() in old(fs.disk.names) && old(fs.disk.names[Rebuilt()]) != file
                then !go && fs.disk.names == old(fs.disk.names)
                else go && fs.disk.names == old(fs.disk.names) - {Rebuilt()}
    {
      var look := fs.Stat(Rebuilt());
      ghost var d := fs.disk;
      go := !look.Found? || look.ino == file;
      if look.Found? && look.ino == file {
        RemoveOwn(fs, Rebuilt(), file);
        ClearedTransitive(fs.quiet, old(fs.disk), d, fs.disk, Own());
      }
    }

    method ClearJournal(fs: FileSystem)
      requires Fits(fs) && At(fs.disk.names, path, directory)
      modifies fs
      ensures fs.Continues() && Fits(fs) && fs.mine == old(fs.mine) && fs.notes == old(fs.notes)
      ensures Cleared(fs.quiet, old(fs.disk), fs.disk, Own()) && At(fs.disk.names, path, directory)
      ensures fs.quiet && fs.faults == old(fs.faults) ==>
                fs.disk.names ==
                  if journal.Some? && At(old(fs.disk.names), JournalPath(), journal.value)
                  then old(fs.disk.names) - {JournalPath()} else old(fs.disk.names)
    {
      if journal.Some? {
        var there := fs.Check(JournalPath(), journal.value);
        ghost var d := fs.disk;
        if there {
          RemoveOwn(fs, JournalPath(), journal.value);
          ClearedTransitive(fs.quiet, old(fs.disk), d, fs.disk, Own());
        }
      }
    }

    /** Remove the directory itself, which the system does only if it is empty. */
    method ClearDirectory(fs: FileSystem)
      requires Fits(fs) && At(fs.disk.names, path, directory)
      modifies fs
      ensures fs.Continues() && fs.mine == old(fs.mine) && fs.notes == old(fs.notes)
      ensures Cleared(fs.quiet, old(fs.disk), fs.disk, Own())
      ensures fs.quiet && fs.faults == old(fs.faults) ==>
                (path !in fs.disk.names <==> forall q | q in old(fs.disk.names) :: q.dir != Inside())
      ensures fs.quiet && fs.faults == old(fs.faults) ==> path !in fs.disk.dirtyNames
    {
      RemoveIfEmpty(fs);
      ghost var d := fs.disk;
      var synced := SyncDirectoryOf(fs, path);
      SteadyIsCleared(fs.quiet, d, fs.disk, Own());
      ClearedTransitive(fs.quiet, old(fs.disk), d, fs.disk, Own());
    }

    method RemoveIfEmpty(fs: FileSystem)
      requires Fits(fs) && At(fs.disk.names, path, directory)
      modifies fs
      ensures fs.Continues() && fs.mine == old(fs.mine) && fs.notes == old(fs.notes)
      ensures Cleared(fs.quiet, old(fs.disk), fs.disk, Own())
      ensures fs.quiet && fs.faults == old(fs.faults) ==>
                (path !in fs.disk.names <==> forall q | q in old(fs.disk.names) :: q.dir != Inside())
    {
      var removed := fs.RemoveEmptyDirectory(path);
      if removed {
        RemovedIsCleared(fs.quiet, old(fs.disk), fs.disk, path, Own());
      } else {
        SteadyIsCleared(fs.quiet, old(fs.disk), fs.disk, Own());
      }
    }

    /** `Stage::drop`: it removes its own two files and the directory, and nothing
        else. With no other writer and no failing call the directory goes
        exactly when it holds nothing of anyone else's. */
    method Drop(fs: FileSystem)
      requires Fits(fs)
      modifies fs
      ensures fs.Continues() && fs.mine == old(fs.mine) && fs.notes == old(fs.notes)
      ensures Cleared(fs.quiet, old(fs.disk), fs.disk, Own())
      ensures retain ==> fs.disk == old(fs.disk) && fs.faults == old(fs.faults)
      ensures fs.quiet && fs.faults == old(fs.faults) && !retain && Private(old(fs.disk)) ==>
                (path !in fs.disk.names <==> HoldsOnlyOwn(old(fs.disk)))
      ensures fs.quiet && fs.faults == old(fs.faults) && !retain && Private(old(fs.disk)) && HoldsOnlyOwn(old(fs.disk)) ==>
                path !in fs.disk.dirtyNames
    {
      if retain { return; }
      var checked := Check(fs);
      if checked.Err? { return; }
      ghost var d := fs.disk;
      DropChecked(fs);
      ClearedTransitive(fs.quiet, old(fs.disk), d, fs.disk, Own());
    }

    /** The clean-up of a directory that is still this stage's. */
    method DropChecked(fs: FileSystem)
      requires Fits(fs) && At(fs.disk.names, path, directory)
      modifies fs
      ensures fs.Continues() && fs.mine == old(fs.mine) && fs.notes == old(fs.notes)
      ensures Cleared(fs.quiet, old(fs.disk), fs.disk, Own())
      ensures fs.quiet && fs.faults == old(fs.faults) ==> (path !in fs.disk.names <==> HoldsOnlyOwn(old(fs.disk)))
      ensures fs.quiet && fs.faults == old(fs.faults) && HoldsOnlyOwn(old(fs.disk)) ==> path !in fs.disk.dirtyNames
    {
      var go := ClearRebuilt(fs);
      ghost var e := fs.disk;
      if !go {
        assert fs.quiet && fs.faults == old(fs.faults) ==> Rebuilt().dir == Inside();
        return;
      }
      ClearRest(fs);
      ClearedTransitive(fs.quiet, old(fs.disk), e, fs.disk, Own());
      if fs.quiet && fs.faults == old(fs.faults) { EmptiedExactly(old(fs.disk), e); }
    }

    lemma EmptiedExactly(d: Disk, e: Disk)
      requires e.names == d.names - {Rebuilt()} && (Rebuilt() in d.names ==> d.names[Rebuilt()] == file)
      ensures HoldsOnlyOwn(d) <==> forall q | q in e.names && q.dir == Inside() :: q == JournalPath() && journal == Some(e.names[q])
    {
    }

    /** The journal and the directory. */
    method ClearRest(fs: FileSystem)
      requires Fits(fs) && At(fs.disk.names, path, directory)
      modifies fs
      ensures fs.Continues() && fs.mine == old(fs.mine) && fs.notes == old(fs.notes)
      ensures Cleared(fs.quiet, old(fs.disk), fs.disk, Own())
      ensures fs.quiet && fs.faults == old(fs.faults) ==>
                (path !in fs.disk.names <==>
                  forall q | q in old(fs.disk.names) && q.dir == Inside() :: q == JournalPath() && journal == Some(old(fs.disk.names)[q]))
      ensures fs.quiet && fs.faults == old(fs.faults) ==> path !in fs.disk.dirtyNames
    {
      ClearJournal(fs);
      ghost var f := fs.disk;
      ClearDirectory(fs);
      ClearedTransitive(fs.quiet, old(fs.disk), f, fs.disk, Own());
    }
  }

  // Creating it

  const ATTEMPTS: nat := 32

  function Candidate(source: Path, pid: nat, now: nat, attempt: nat): Path {
    Path(source.dir, StagingName(pid, Nonce(now, attempt)))
  }

  /** The candidates differ, until the nonce reaches the top of its range. */
  lemma CandidatesDiffer(source: Path, pid: nat, now: nat, m: nat, n: nat)
    requires m < n && now + n <= NONCE_MAX
    ensures Candidate(source, pid, now, m) != Candidate(source, pid, now, n)
  {
    StagingNamesDiffer(pid, now + m, now + n);
  }

  /** A name the staging directory may be given. */
  ghost predicate IsStagingPath(source: Path, pid: nat, now: nat, q: Path) {
    exists attempt | 0 <= attempt < ATTEMPTS :: q == Candidate(source, pid, now, attempt)
  }

  /** The first candidates are all taken. */
  ghost predicate AllTaken(source: Path, pid: nat, now: nat, names: Names, n: nat) {
    forall m | 0 <= m < n :: Candidate(source, pid, now, m) in names
  }

  /** Every candidate before this one is taken, by something else. */
  ghost predicate TakenBefore(source: Path, pid: nat, now: nat, names: Names, n: nat, q: Path) {
    forall m | 0 <= m < n :: Candidate(source, pid, now, m) in names && Candidate(source, pid, now, m) != q
  }

  /** The first candidate that was free. */
  ghost predicate IsFirstFree(source: Path, pid: nat, now: nat, names: Names, q: Path) {
    exists n | 0 <= n < ATTEMPTS :: q == Candidate(source, pid, now, n) && TakenBefore(source, pid, now, names, n, q)
  }

  lemma TakenStay(source: Path, pid: nat, now: nat, d: Names, e: Names, n: nat)
    requires AllTaken(source, pid, now, d, n) && forall q | q in d :: q in e
    ensures AllTaken(source, pid, now, e, n)
    ensures Candidate(source, pid, now, n) in e ==> AllTaken(source, pid, now, e, n + 1)
    ensures n < ATTEMPTS && Candidate(source, pid, now, n) !in d ==> IsFirstFree(source, pid, now, e, Candidate(source, pid, now, n))
  {
    if n < ATTEMPTS && Candidate(source, pid, now, n) !in d {
      assert TakenBefore(source, pid, now, e, n, Candidate(source, pid, now, n));
    }
  }

  /** Such a name, or a name in such a directory. */
  ghost predicate IsStagingPlace(source: Path, pid: nat, now: nat, q: Path) {
    exists at :: IsStagingPath(source, pid, now, at) && (q == at || q.dir == at.dir + [at.name])
  }

  /** The names a stage at `at` makes. */
  ghost function StageNames(at: Path): set<Path> {
    {at, Child(at, "rebuilt.db"), Sidecar(Child(at, "rebuilt.db"), "-journal")}
  }

  lemma StagePlaces(source: Path, pid: nat, now: nat, at: Path)
    requires IsStagingPath(source, pid, now, at)
    ensures forall q | q in StageNames(at) :: IsStagingPlace(source, pid, now, q)
  {
  }

  /** `private_file`: exclusive creation at mode 0600. */
  method PrivateFile(fs: FileSystem, path: Path, ghost d: Disk, ghost own: Names) returns (made: Option<Inode>)
    requires fs.Valid() && fs.plan == None && fs.copy == None && WellFormed(d) && Added(fs.quiet, d, fs.disk, own)
    modifies fs
    ensures fs.Continues() && SameBut(old(fs.notes), fs.notes)
    ensures NodesStay(old(fs.disk), fs.disk)
    ensures made.Some? ==>
              && fs.mine == old(fs.mine) + {made.value} && Added(fs.quiet, d, fs.disk, own[path := made.value])
              && fs.notes.absent == {}
              && Holds(fs.disk, made.value, Regular, PRIVATE_FILE)
    ensures made == None ==> fs.mine == old(fs.mine) && Added(fs.quiet, d, fs.disk, own)
    ensures fs.faults == old(fs.faults) ==> (made.Some? <==> path !in old(fs.disk.names))
    ensures made.Some? ==> fs.faults == old(fs.faults)
  {
    var it := fs.MakeNew(path, Regular, PRIVATE_FILE);
    if it.Made? {
      AddedOne(fs.quiet, d, old(fs.disk), fs.disk, own, path, it.ino, Regular, PRIVATE_FILE);
      made := Some(it.ino);
    } else {
      AddedDrifts(fs.quiet, d, old(fs.disk), fs.disk, own);
      made := None;
    }
  }

  ghost predicate SameBut(n: Notes, m: Notes) {
    m == n || m == n.(absent := {})
  }

  ghost predicate NodesStay(d: Disk, e: Disk) {
    forall i | i in d.nodes :: i in e.nodes && e.nodes[i] == d.nodes[i]
  }

  /** The directory just made, as inspected: still ours and still private. */
  method InspectDirectory(fs: FileSystem, path: Path, ghost ino: Inode) returns (r: Result<Inode, Failure>)
    requires fs.Valid() && At(fs.disk.names, path, ino)
    modifies fs
    ensures fs.Continues() && fs.notes == old(fs.notes) && fs.mine == old(fs.mine)
    ensures Drift(fs.quiet, old(fs.disk), fs.disk)
    ensures r.Ok? ==> r.value == ino
    ensures r.Err? ==> r.error == Plain("filesystem_failure") || r.error == Plain("unsafe_recovery_staging")
    ensures fs.faults == old(fs.faults) && Holds(old(fs.disk), ino, Directory, PRIVATE_DIRECTORY) ==> r.Ok?
    ensures r.Ok? ==> fs.faults == old(fs.faults)
    ensures r.Ok? ==> fs.checks > old(fs.checks)
  {
    var look := fs.Stat(path);
    ghost var d := fs.disk;
    if !look.Found? { return Err(Plain("filesystem_failure")); }
    var device := fs.Probe();
    GrewTransitive(old(fs.disk), d, fs.disk);
    if look.kind != Directory || look.mode & GROUP_AND_OTHER_BITS != PRIVATE_DIRECTORY || !device {
      return Err(Plain("unsafe_recovery_staging"));
    }
    return Ok(look.ino);
  }

  /** One name is tried: it is taken, or the directory is made and inspected. */
  method TryDirectory(fs: FileSystem, path: Path, ghost d: Disk) returns (r: Result<Option<Inode>, Failure>, ghost own: Names)
    requires fs.Valid() && fs.plan == None && fs.copy == None && WellFormed(d) && Added(fs.quiet, d, fs.disk, map[])
    modifies fs
    ensures fs.Continues() && SameBut(old(fs.notes), fs.notes)
    ensures Added(fs.quiet, d, fs.disk, own) && own.Keys <= {path}
    ensures r.Err? ==> r.error == Plain("filesystem_failure") || r.error == Plain("unsafe_recovery_staging")
    ensures forall q | q in old(fs.disk.names) :: q in fs.disk.names
    ensures r == Ok(None) ==> own == map[] && fs.notes == old(fs.notes) && fs.mine == old(fs.mine) && path in fs.disk.names
    ensures r.Ok? && r.value.Some? ==>
              && path !in old(fs.disk.names)
              && own == map[path := r.value.value] && r.value.value in fs.mine
              && Holds(fs.disk, r.value.value, Directory, PRIVATE_DIRECTORY)
              && forall q | q in d.names :: q.dir != path.dir + [path.name]
    ensures fs.faults == old(fs.faults) ==>
              (if path in old(fs.disk.names) then r == Ok(None) else r.Ok? <==> !HoldsNames(old(fs.disk), path))
    ensures r.Ok? ==> fs.faults == old(fs.faults)
    ensures r.Ok? && r.value.Some? ==> fs.checks > old(fs.checks)
    ensures fs.faults == old(fs.faults) && r.Err? ==> r.error == Plain("filesystem_failure")
  {
    own := map[];
    var made;
    made, own := NewDirectory(fs, path, d);
    match made
    case Taken => r := Ok(None);
    case NotMade => r := Err(Plain("filesystem_failure"));
    case Made(i) => r := InspectNew(fs, path, i, d);
  }

  method InspectNew(fs: FileSystem, path: Path, ghost i: Inode, ghost d: Disk) returns (r: Result<Option<Inode>, Failure>)
    requires fs.Valid() && At(fs.disk.names, path, i) && Added(fs.quiet, d, fs.disk, map[path := i])
    requires Holds(fs.disk, i, Directory, PRIVATE_DIRECTORY)
    modifies fs
    ensures fs.Continues() && fs.notes == old(fs.notes) && fs.mine == old(fs.mine)
    ensures Added(fs.quiet, d, fs.disk, map[path := i]) && Holds(fs.disk, i, Directory, PRIVATE_DIRECTORY)
    ensures forall q | q in old(fs.disk.names) :: q in fs.disk.names
    ensures r.Ok? ==> r.value == Some(i)
    ensures r.Err? ==> r.error == Plain("filesystem_failure") || r.error == Plain("unsafe_recovery_staging")
    ensures fs.faults == old(fs.faults) ==> r.Ok?
    ensures r.Ok? ==> fs.faults == old(fs.faults)
    ensures r.Ok? ==> fs.checks > old(fs.checks)
  {
    ghost var e := fs.disk;
    var ino := InspectDirectory(fs, path, i);
    AddedDrifts(fs.quiet, d, e, fs.disk, map[path := i]);
    r := match ino case Ok(found) => Ok(Some(found)) case Err(error) => Err(error);
  }

  method NewDirectory(fs: FileSystem, path: Path, ghost d: Disk) returns (made: Made, ghost own: Names)
    requires fs.Valid() && fs.plan == None && fs.copy == None && WellFormed(d) && Added(fs.quiet, d, fs.disk, map[])
    modifies fs
    ensures fs.Continues() && SameBut(old(fs.notes), fs.notes)
    ensures own == (if made.Made? then map[path := made.ino] else map[]) && Added(fs.quiet, d, fs.disk, own)
    ensures forall q | q in old(fs.disk.names) :: q in fs.disk.names
    ensures made.Made? ==>
              && path !in old(fs.disk.names) && At(fs.disk.names, path, made.ino) && made.ino in fs.mine
              && Holds(fs.disk, made.ino, Directory, PRIVATE_DIRECTORY)
              && forall q | q in d.names :: q.dir != path.dir + [path.name]
    ensures made.Taken? ==> path in old(fs.disk.names) && fs.notes == old(fs.notes) && fs.mine == old(fs.mine)
    ensures fs.faults == old(fs.faults) ==>
              (if path in old(fs.disk.names) then made.Taken? else made.Made? <==> !HoldsNames(old(fs.disk), path))
    ensures !made.NotMade? ==> fs.faults == old(fs.faults)
  {
    own := map[];
    made := fs.MakeNew(path, Directory, PRIVATE_DIRECTORY);
    if made.Made? {
      AddedOne(fs.quiet, d, old(fs.disk), fs.disk, own, path, made.ino, Directory, PRIVATE_DIRECTORY);
      own := map[path := made.ino];
    } else {
      AddedDrifts(fs.quiet, d, old(fs.disk), fs.disk, own);
    }
  }

  /** Some candidate is free before any that could not be made. */
  ghost predicate RoomForStage(d: Disk, source: Path, pid: nat, now: nat) {
    exists n | 0 <= n < ATTEMPTS :: IsRoom(d, source, pid, now, n)
  }

  /** The first free candidate, with nothing inside it. */
  ghost predicate IsRoom(d: Disk, source: Path, pid: nat, now: nat, n: nat) {
    && Candidate(source, pid, now, n) !in d.names && AllTaken(source, pid, now, d.names, n)
    && !HoldsNames(d, Candidate(source, pid, now, n))
  }

  lemma NoOtherRoom(d: Disk, source: Path, pid: nat, now: nat, n: nat)
    requires n < ATTEMPTS && Candidate(source, pid, now, n) !in d.names && AllTaken(source, pid, now, d.names, n)
    ensures RoomForStage(d, source, pid, now) <==> !HoldsNames(d, Candidate(source, pid, now, n))
  {
    if !HoldsNames(d, Candidate(source, pid, now, n)) { assert IsRoom(d, source, pid, now, n); }
    if RoomForStage(d, source, pid, now) {
      var m :| 0 <= m < ATTEMPTS && IsRoom(d, source, pid, now, m);
      assert m == n;
    }
  }

  lemma NoRoom(d: Disk, source: Path, pid: nat, now: nat)
    requires AllTaken(source, pid, now, d.names, ATTEMPTS)
    ensures !RoomForStage(d, source, pid, now)
  {
  }

  /** The first of thirty-two names that is free becomes the directory. */
  method MakeDirectory(fs: FileSystem, source: Path, pid: nat, now: nat)
    returns (r: Result<(Path, Inode), Failure>, ghost own: Names)
    requires fs.Valid() && fs.plan == None && fs.copy == None
    modifies fs
    ensures fs.Continues() && SameBut(old(fs.notes), fs.notes)
    ensures Added(fs.quiet, old(fs.disk), fs.disk, own)
    ensures forall q | q in own :: IsStagingPath(source, pid, now, q) && IsStagingPlace(source, pid, now, q)
    ensures r.Err? ==> r.error.Plain?
    ensures r == Err(Plain("recovery_staging_exhausted")) ==>
              AllTaken(source, pid, now, fs.disk.names, ATTEMPTS)
    ensures r.Ok? ==>
              && own == map[r.value.0 := r.value.1] && IsFirstFree(source, pid, now, fs.disk.names, r.value.0)
              && r.value.1 in fs.mine
              && Holds(fs.disk, r.value.1, Directory, PRIVATE_DIRECTORY)
              && forall q | q in old(fs.disk.names) :: q.dir != r.value.0.dir + [r.value.0.name]
    ensures fs.quiet && fs.faults == old(fs.faults) ==> (r.Ok? <==> RoomForStage(old(fs.disk), source, pid, now))
    ensures r.Ok? ==> fs.faults == old(fs.faults)
    ensures r.Ok? ==> fs.checks > old(fs.checks)
    ensures fs.quiet && fs.faults == old(fs.faults) && r.Err? ==>
              r.error == Plain(if AllTaken(source, pid, now, old(fs.disk.names), ATTEMPTS) then "recovery_staging_exhausted" else "filesystem_failure")
  {
    own := map[];
    AddedNothing(fs.quiet, fs.disk);
    for attempt := 0 to ATTEMPTS
      invariant fs.Continues() && fs.notes == old(fs.notes) && fs.mine == old(fs.mine)
      invariant own == map[] && Added(fs.quiet, old(fs.disk), fs.disk, own)
      invariant AllTaken(source, pid, now, fs.disk.names, attempt)
      invariant fs.faults == old(fs.faults)
    {
      var made;
      if fs.quiet { SameRoom(old(fs.disk), fs.disk, source, pid, now); }
      made, own := TryCandidate(fs, source, pid, now, attempt, old(fs.disk));
      match made
      case Ok(None) =>
      case Ok(Some(directory)) =>
        return Ok((Candidate(source, pid, now, attempt), directory)), own;
      case Err(error) => return Err(error), own;
    }
    if fs.quiet { NoRoom(old(fs.disk), source, pid, now); }
    return Err(Plain("recovery_staging_exhausted")), own;
  }

  /** One round of the loop, begun on disk `d`. */
  method TryCandidate(fs: FileSystem, source: Path, pid: nat, now: nat, attempt: nat, ghost d: Disk)
    returns (r: Result<Option<Inode>, Failure>, ghost own: Names)
    requires fs.Valid() && fs.plan == None && fs.copy == None && attempt < ATTEMPTS
    requires WellFormed(d) && Added(fs.quiet, d, fs.disk, map[]) && AllTaken(source, pid, now, fs.disk.names, attempt)
    modifies fs
    ensures fs.Continues() && SameBut(old(fs.notes), fs.notes)
    ensures Added(fs.quiet, d, fs.disk, own)
    ensures forall q | q in own :: IsStagingPath(source, pid, now, q) && IsStagingPlace(source, pid, now, q)
    ensures r.Err? ==> r.error == Plain("filesystem_failure") || r.error == Plain("unsafe_recovery_staging")
    ensures r == Ok(None) ==>
              own == map[] && fs.notes == old(fs.notes) && fs.mine == old(fs.mine) && AllTaken(source, pid, now, fs.disk.names, attempt + 1)
    ensures r.Ok? && r.value.Some? ==>
              && var path := Candidate(source, pid, now, attempt);
              && own == map[path := r.value.value] && IsFirstFree(source, pid, now, fs.disk.names, path)
              && r.value.value in fs.mine && Holds(fs.disk, r.value.value, Directory, PRIVATE_DIRECTORY)
              && forall q | q in d.names :: q.dir != path.dir + [path.name]
    ensures fs.quiet && fs.faults == old(fs.faults) && r != Ok(None) ==> (r.Ok? <==> RoomForStage(old(fs.disk), source, pid, now))
    ensures r.Ok? ==> fs.faults == old(fs.faults)
    ensures r.Ok? && r.value.Some? ==> fs.checks > old(fs.checks)
    ensures fs.faults == old(fs.faults) && r.Err? ==> r.error == Plain("filesystem_failure") && Candidate(source, pid, now, attempt) !in old(fs.disk.names)
  {
    CandidatePlaces(source, pid, now, attempt);
    r, own := TryDirectory(fs, Candidate(source, pid, now, attempt), d);
    TakenStay(source, pid, now, old(fs.disk.names), fs.disk.names, attempt);
    if Candidate(source, pid, now, attempt) !in old(fs.disk.names) { NoOtherRoom(old(fs.disk), source, pid, now, attempt); }
  }

  lemma SameRoom(d: Disk, e: Disk, source: Path, pid: nat, now: nat)
    requires d.names == e.names
    ensures RoomForStage(d, source, pid, now) <==> RoomForStage(e, source, pid, now)
  {
    forall n | 0 <= n < ATTEMPTS ensures IsRoom(d, source, pid, now, n) <==> IsRoom(e, source, pid, now, n) {}
  }

  lemma CandidatePlaces(source: Path, pid: nat, now: nat, attempt: nat)
    requires attempt < ATTEMPTS
    ensures IsStagingPath(source, pid, now, Candidate(source, pid, now, attempt))
    ensures IsStagingPlace(source, pid, now, Candidate(source, pid, now, attempt))
  {
    var at := Candidate(source, pid, now, attempt);
    StagePlaces(source, pid, now, at);
    assert at in StageNames(at);
  }

  /** What a stage has put on the disk. */
  ghost function Contents(stage: Stage): Names
    reads stage
    requires stage.journal.Some?
  {
    map[stage.path := stage.directory][stage.Rebuilt() := stage.file][stage.JournalPath() := stage.journal.value]
  }

  /** The stage is complete, fresh since `d`, private, alone in its directory, and
      its own name would survive a power loss. */
  ghost predicate Prepared(fs: FileSystem, stage: Stage, d: Disk)
    reads fs, stage
  {
    && stage.Fits(fs) && stage.journal.Some? && !stage.retain && !stage.quarantined && fs.notes.absent == {}
    && Added(fs.quiet, d, fs.disk, Contents(stage))
    && Holds(fs.disk, stage.directory, Directory, PRIVATE_DIRECTORY)
    && Holds(fs.disk, stage.file, Regular, PRIVATE_FILE)
    && Holds(fs.disk, stage.journal.value, Regular, PRIVATE_FILE)
    && stage.path !in fs.disk.dirtyNames
    && forall q | q in d.names :: q.dir != stage.Inside()
  }

  /** What remains after a failed creation: older names and files as they were. */
  ghost predicate Abandoned(quiet: bool, d: Disk, e: Disk, gone: set<Path>) {
    && (forall q | q in d.names :: At(e.names, q, d.names[q]))
    && NodesStay(d, e) && WellFormed(e)
    && (quiet ==> forall q | q in e.names :: q in d.names || q in gone)
  }

  /** `Stage::create_with_nonce`. With no other writer and no failing call it
      succeeds exactly when there is room for a staging directory. */
  method CreateStage(fs: FileSystem, source: Path, pid: nat, now: nat) returns (r: Result<Stage, Failure>, ghost gone: set<Path>)
    requires fs.Valid() && fs.plan == None && fs.copy == None
    modifies fs
    ensures fs.Continues() && SameBut(old(fs.notes), fs.notes)
    ensures r.Ok? ==> fresh(r.value) && IsStagingPath(source, pid, now, r.value.path) && Prepared(fs, r.value, old(fs.disk))
    ensures r.Err? ==> r.error.Plain? && Abandoned(fs.quiet, old(fs.disk), fs.disk, gone)
    ensures forall q | q in gone :: IsStagingPlace(source, pid, now, q)
    ensures fs.quiet && fs.faults == old(fs.faults) ==> (r.Ok? <==> RoomForStage(old(fs.disk), source, pid, now))
    ensures r.Ok? ==> fs.faults == old(fs.faults)
    ensures r.Ok? ==> fs.checks >= old(fs.checks) + 7
    ensures fs.quiet && fs.faults == old(fs.faults) && r.Err? ==>
              r.error == Plain(if AllTaken(source, pid, now, old(fs.disk.names), ATTEMPTS) then "recovery_staging_exhausted" else "filesystem_failure")
  {
    gone := {};
    var parent := fs.Probe();
    if !parent { return Err(Plain("unsafe_recovery_directory")), gone; }
    ghost var d := fs.disk;
    r, gone := StageInParent(fs, source, pid, now);
    StartedEarlier(fs, r, old(fs.disk), d, gone);
  }

  /** What was true of a stage, or of its failure, since `d1` was true since `d`. */
  lemma StartedEarlier(fs: FileSystem, r: Result<Stage, Failure>, d: Disk, d1: Disk, gone: set<Path>)
    requires WellFormed(d) && Drift(fs.quiet, d, d1)
    requires r.Ok? ==> Prepared(fs, r.value, d1)
    requires r.Err? ==> Abandoned(fs.quiet, d1, fs.disk, gone)
    ensures r.Ok? ==> Prepared(fs, r.value, d)
    ensures r.Err? ==> Abandoned(fs.quiet, d, fs.disk, gone)
  {
    if r.Ok? { AddedSince(fs.quiet, d, d1, fs.disk, Contents(r.value)); }
  }

  /** The directory, and what goes into it. */
  method StageInParent(fs: FileSystem, source: Path, pid: nat, now: nat) returns (r: Result<Stage, Failure>, ghost gone: set<Path>)
    requires fs.Valid() && fs.plan == None && fs.copy == None
    modifies fs
    ensures fs.Continues() && SameBut(old(fs.notes), fs.notes)
    ensures r.Ok? ==> fresh(r.value) && IsStagingPath(source, pid, now, r.value.path) && Prepared(fs, r.value, old(fs.disk))
    ensures r.Err? ==> r.error.Plain? && Abandoned(fs.quiet, old(fs.disk), fs.disk, gone)
    ensures forall q | q in gone :: IsStagingPlace(source, pid, now, q)
    ensures fs.quiet && fs.faults == old(fs.faults) ==> (r.Ok? <==> RoomForStage(old(fs.disk), source, pid, now))
    ensures r.Ok? ==> fs.faults == old(fs.faults)
    ensures r.Ok? ==> fs.checks >= old(fs.checks) + 6
    ensures fs.quiet && fs.faults == old(fs.faults) && r.Err? ==>
              r.error == Plain(if AllTaken(source, pid, now, old(fs.disk.names), ATTEMPTS) then "recovery_staging_exhausted" else "filesystem_failure")
  {
    ghost var own;
    var made;
    made, own := MakeDirectory(fs, source, pid, now);
    gone := own.Keys;
    if made.Err? { return Err(made.error), gone; }
    var path, directory := made.value.0, made.value.1;
    StagePlaces(source, pid, now, path);
    r := FillDirectory(fs, path, directory, old(fs.disk));
    gone := StageNames(path);
  }

  ghost predicate Within(a: Names, b: Names) {
    forall q | q in a :: At(b, q, a[q])
  }

  lemma DroppedIsAbandoned(quiet: bool, d: Disk, e: Disk, f: Disk, own: Names, stage: Stage)
    requires WellFormed(d) && Added(quiet, d, e, own) && Cleared(quiet, e, f, stage.Own())
    requires Within(stage.Own(), own)
    requires own.Keys <= stage.OwnNames() && stage.path in own && forall q | q in d.names :: q.dir != stage.Inside()
    ensures Abandoned(quiet, d, f, stage.OwnNames())
  {
  }

  /** The replacement's file, then the rest; what fails after the file exists is
      cleaned up again. */
  method FillDirectory(fs: FileSystem, path: Path, directory: Inode, ghost d: Disk) returns (r: Result<Stage, Failure>)
    requires fs.Valid() && fs.plan == None && fs.copy == None && WellFormed(d) && Added(fs.quiet, d, fs.disk, map[path := directory])
    requires directory in fs.mine && Holds(fs.disk, directory, Directory, PRIVATE_DIRECTORY)
    requires forall q | q in d.names :: q.dir != path.dir + [path.name]
    modifies fs
    ensures fs.Continues() && SameBut(old(fs.notes), fs.notes)
    ensures r.Ok? ==> fresh(r.value) && r.value.path == path && Prepared(fs, r.value, d)
    ensures r.Err? ==>
              && r.error.Plain?
              && Abandoned(fs.quiet, d, fs.disk, StageNames(path))
    ensures fs.quiet && fs.faults == old(fs.faults) ==> r.Ok?
    ensures r.Ok? ==> fs.faults == old(fs.faults)
    ensures r.Ok? ==> fs.checks >= old(fs.checks) + 5
  {
    r := StageWithFile(fs, path, directory, d);
    if r.Err? { return; }
    var done := FinishOrDrop(fs, r.value, d);
    if done.Err? { r := Err(done.error); }
  }

  /** A stage that holds the replacement's file and no more. */
  method StageWithFile(fs: FileSystem, path: Path, directory: Inode, ghost d: Disk) returns (r: Result<Stage, Failure>)
    requires fs.Valid() && fs.plan == None && fs.copy == None && WellFormed(d) && Added(fs.quiet, d, fs.disk, map[path := directory])
    requires directory in fs.mine && Holds(fs.disk, directory, Directory, PRIVATE_DIRECTORY)
    requires forall q | q in d.names :: q.dir != path.dir + [path.name]
    modifies fs
    ensures fs.Continues() && SameBut(old(fs.notes), fs.notes)
    ensures r.Ok? ==>
              && var stage := r.value;
              && fresh(stage) && stage.Fits(fs) && stage.path == path && stage.directory == directory
              && stage.journal == None && !stage.retain && !stage.quarantined
              && Added(fs.quiet, d, fs.disk, map[path := directory][stage.Rebuilt() := stage.file])
              && Holds(fs.disk, directory, Directory, PRIVATE_DIRECTORY) && Holds(fs.disk, stage.file, Regular, PRIVATE_FILE)
    ensures r.Err? ==> r.error.Plain? && Abandoned(fs.quiet, d, fs.disk, StageNames(path))
    ensures fs.quiet && fs.faults == old(fs.faults) ==> r.Ok?
    ensures r.Ok? ==> fs.faults == old(fs.faults)
  {
    RebuiltIsFree(fs.quiet, d, fs.disk, path, directory);
    var file := PrivateFile(fs, Child(path, "rebuilt.db"), d, map[path := directory]);
    if file == None {
      return Err(Plain("filesystem_failure"));
    }
    var stage := new Stage(path, directory, file.value);
    r := Ok(stage);
  }

  lemma RebuiltIsFree(quiet: bool, d: Disk, e: Disk, path: Path, directory: Inode)
    requires Added(quiet, d, e, map[path := directory]) && forall q | q in d.names :: q.dir != path.dir + [path.name]
    ensures quiet ==> Child(path, "rebuilt.db") !in e.names
  {
    assert |Child(path, "rebuilt.db").dir| == |path.dir| + 1;
    InsideIsFree(quiet, d, e, map[path := directory], Child(path, "rebuilt.db"), path.dir + [path.name]);
  }

  /** From here on a failure cleans up what has been made. */
  method FinishOrDrop(fs: FileSystem, stage: Stage, ghost d: Disk) returns (r: Result<(), Failure>)
    requires stage.Fits(fs) && fs.plan == None && fs.copy == None && stage.journal == None && !stage.retain && !stage.quarantined
    requires WellFormed(d) && Added(fs.quiet, d, fs.disk, map[stage.path := stage.directory][stage.Rebuilt() := stage.file])
    requires Holds(fs.disk, stage.directory, Directory, PRIVATE_DIRECTORY)
    requires Holds(fs.disk, stage.file, Regular, PRIVATE_FILE)
    requires forall q | q in d.names :: q.dir != stage.Inside()
    modifies fs, stage`journal
    ensures fs.Continues() && SameBut(old(fs.notes), fs.notes)
    ensures r.Ok? ==> Prepared(fs, stage, d)
    ensures r.Err? ==> r.error.Plain? && Abandoned(fs.quiet, d, fs.disk, stage.OwnNames())
    ensures fs.quiet && fs.faults == old(fs.faults) ==> r.Ok?
    ensures r.Err? && fs.quiet && fs.faults == old(fs.faults) + 1 && (stage.journal.Some? || stage.JournalPath() !in fs.disk.names) ==>
              stage.path !in fs.disk.names
    ensures r.Ok? ==> fs.faults == old(fs.faults)
    ensures r.Ok? ==> fs.checks >= old(fs.checks) + 5
  {
    ghost var own;
    r, own := FinishStage(fs, stage, d);
    if r.Err? { DropUnfinished(fs, stage, d, own); }
  }

  /** The clean-up of a stage that could not be finished. */
  method DropUnfinished(fs: FileSystem, stage: Stage, ghost d: Disk, ghost own: Names)
    requires stage.Fits(fs) && !stage.retain && WellFormed(d) && Added(fs.quiet, d, fs.disk, own)
    requires own.Keys <= stage.OwnNames() && stage.path in own && Within(stage.Own(), own)
    requires Holds(fs.disk, stage.directory, Directory, PRIVATE_DIRECTORY)
    requires forall q | q in d.names :: q.dir != stage.Inside()
    modifies fs
    ensures fs.Continues() && fs.notes == old(fs.notes)
    ensures Abandoned(fs.quiet, d, fs.disk, stage.OwnNames())
    ensures fs.quiet && fs.faults == old(fs.faults) && (stage.journal.Some? || stage.JournalPath() !in fs.disk.names) ==>
              stage.path !in fs.disk.names
  {
    ghost var e := fs.disk;
    LeftIsOwn(fs.quiet, d, e, own, stage);
    stage.Drop(fs);
    DroppedIsAbandoned(fs.quiet, d, e, fs.disk, own, stage);
    if stage.journal == None { JournalStays(fs.quiet, e, fs.disk, stage); }
  }

  /** The clean-up leaves alone a journal it cannot tell for its own. */
  lemma JournalStays(quiet: bool, d: Disk, e: Disk, stage: Stage)
    requires Cleared(quiet, d, e, stage.Own()) && stage.journal == None
    ensures stage.JournalPath() in d.names ==> stage.JournalPath() in e.names
  {
    OwnsThree(stage, stage.file);
  }

  /** With no other writer only a journal whose identity could not be read keeps
      the directory from being removed. */
  lemma LeftIsOwn(quiet: bool, d: Disk, e: Disk, own: Names, stage: Stage)
    requires Added(quiet, d, e, own) && own.Keys <= stage.OwnNames() && Within(stage.Own(), own)
    requires forall q | q in d.names :: q.dir != stage.Inside()
    ensures At(e.names, stage.path, stage.directory)
    ensures quiet && (stage.journal.Some? || stage.JournalPath() !in e.names) ==> stage.HoldsOnlyOwn(e)
  {
    assert |stage.path.dir| + 1 == |stage.Inside()|;
    assert stage.path != stage.Rebuilt() && stage.path != stage.JournalPath();
    assert stage.path in stage.Own() && stage.Rebuilt() in stage.Own() && (stage.journal.Some? ==> stage.JournalPath() in stage.Own());
    if quiet && (stage.journal.Some? || stage.JournalPath() !in e.names) {
      forall q | q in e.names && q.dir == stage.Inside()
        ensures (q == stage.Rebuilt() && e.names[q] == stage.file) || (q == stage.JournalPath() && stage.journal == Some(e.names[q]))
      {
        assert q in own;
      }
    }
  }

  /** The journal, and the checks that end the creation. */
  method FinishStage(fs: FileSystem, stage: Stage, ghost d: Disk) returns (r: Result<(), Failure>, ghost own: Names)
    requires stage.Fits(fs) && fs.plan == None && fs.copy == None && stage.journal == None && !stage.retain && !stage.quarantined
    requires WellFormed(d) && Added(fs.quiet, d, fs.disk, map[stage.path := stage.directory][stage.Rebuilt() := stage.file])
    requires Holds(fs.disk, stage.directory, Directory, PRIVATE_DIRECTORY)
    requires Holds(fs.disk, stage.file, Regular, PRIVATE_FILE)
    requires forall q | q in d.names :: q.dir != stage.Inside()
    modifies fs, stage`journal
    ensures fs.Continues() && SameBut(old(fs.notes), fs.notes) && stage.Fits(fs) && fs.plan == None && fs.copy == None
    ensures Added(fs.quiet, d, fs.disk, own) && own.Keys <= stage.OwnNames() && stage.path in own
    ensures Within(stage.Own(), own) && NodesStay(old(fs.disk), fs.disk) && !stage.retain
    ensures r.Ok? ==> Prepared(fs, stage, d)
    ensures r.Err? ==> r.error.Plain?
    ensures fs.quiet && fs.faults == old(fs.faults) ==> r.Ok?
    ensures r.Ok? ==> fs.faults == old(fs.faults)
    ensures r.Ok? ==> fs.checks >= old(fs.checks) + 5
  {
    JournalIsFree(fs.quiet, d, fs.disk, stage);
    r, own := StockStage(fs, stage, d);
    if r.Err? { return; }
    r := ConfirmStocked(fs, stage, d);
  }

  /** The checks that end the creation of a stage that holds all it should. */
  method ConfirmStocked(fs: FileSystem, stage: Stage, ghost d: Disk) returns (r: Result<(), Failure>)
    requires stage.Fits(fs) && stage.journal.Some? && !stage.retain && !stage.quarantined && fs.notes.absent == {}
    requires WellFormed(d) && Added(fs.quiet, d, fs.disk, Contents(stage))
    requires Holds(fs.disk, stage.directory, Directory, PRIVATE_DIRECTORY)
    requires Holds(fs.disk, stage.file, Regular, PRIVATE_FILE) && Holds(fs.disk, stage.journal.value, Regular, PRIVATE_FILE)
    requires forall q | q in d.names :: q.dir != stage.Inside()
    modifies fs
    ensures fs.Continues() && fs.mine == old(fs.mine) && fs.notes == old(fs.notes) && stage.Fits(fs)
    ensures Added(fs.quiet, d, fs.disk, Contents(stage)) && NodesStay(old(fs.disk), fs.disk)
    ensures r.Ok? ==> Prepared(fs, stage, d)
    ensures r.Err? ==> r.error.Plain?
    ensures fs.faults == old(fs.faults) ==> r.Ok?
    ensures r.Ok? ==> fs.faults == old(fs.faults)
    ensures r.Ok? ==> fs.checks >= old(fs.checks) + 3
  {
    ghost var e := fs.disk;
    ContentsArePrivate(fs.quiet, d, e, stage);
    r := ConfirmStage(fs, stage);
    AddedDrifts(fs.quiet, d, e, fs.disk, Contents(stage));
  }

  lemma ContentsArePrivate(quiet: bool, d: Disk, e: Disk, stage: Stage)
    requires stage.journal.Some? && Added(quiet, d, e, Contents(stage)) && Holds(e, stage.directory, Directory, PRIVATE_DIRECTORY)
    ensures stage.Private(e)
  {
    OwnsThree(stage, stage.journal.value);
  }

  /** With no other writer nothing is inside but what was put there. */
  lemma InsideIsFree(quiet: bool, d: Disk, e: Disk, own: Names, path: Path, inside: seq<string>)
    requires Added(quiet, d, e, own) && path.dir == inside
    requires forall q | q in d.names :: q.dir != inside
    ensures quiet && path !in own ==> path !in e.names
  {
  }

  lemma JournalIsFree(quiet: bool, d: Disk, e: Disk, stage: Stage)
    requires stage.journal == None
    requires Added(quiet, d, e, map[stage.path := stage.directory][stage.Rebuilt() := stage.file])
    requires forall q | q in d.names :: q.dir != stage.Inside()
    ensures quiet ==> stage.JournalPath() !in e.names
  {
    OwnsThree(stage, stage.file);
    InsideIsFree(quiet, d, e, map[stage.path := stage.directory][stage.Rebuilt() := stage.file], stage.JournalPath(), stage.Inside());
  }

  /** The ownership check, then the journal. */
  method StockStage(fs: FileSystem, stage: Stage, ghost d: Disk) returns (r: Result<(), Failure>, ghost own: Names)
    requires stage.Fits(fs) && fs.plan == None && fs.copy == None && stage.journal == None
    requires WellFormed(d) && Added(fs.quiet, d, fs.disk, map[stage.path := stage.directory][stage.Rebuilt() := stage.file])
    modifies fs, stage`journal
    ensures fs.Continues() && SameBut(old(fs.notes), fs.notes) && stage.Fits(fs) && fs.plan == None && fs.copy == None
    ensures NodesStay(old(fs.disk), fs.disk)
    ensures Added(fs.quiet, d, fs.disk, own) && own.Keys <= stage.OwnNames() && stage.path in own
    ensures Within(stage.Own(), own)
    ensures r.Ok? ==> fs.notes.absent == {}
    ensures r.Ok? ==> stage.journal.Some? && own == Contents(stage) && Holds(fs.disk, stage.journal.value, Regular, PRIVATE_FILE)
    ensures r.Err? ==> r.error.Plain?
    ensures fs.quiet && fs.faults == old(fs.faults) ==> (r.Ok? <==> stage.JournalPath() !in old(fs.disk.names))
    ensures r.Ok? ==> fs.faults == old(fs.faults)
    ensures r.Ok? ==> fs.checks >= old(fs.checks) + 2
  {
    own := map[stage.path := stage.directory][stage.Rebuilt() := stage.file];
    OwnsTwo(stage);
    var owner := fs.Probe();
    AddedDrifts(fs.quiet, d, old(fs.disk), fs.disk, own);
    if !owner { return Err(Plain("recovery_ownership_unavailable")), own; }
    r, own := MakeJournal(fs, stage, d);
  }

  /** Without a journal the stage owns its directory and file. */
  lemma OwnsTwo(stage: Stage)
    requires stage.journal == None
    ensures var own := map[stage.path := stage.directory][stage.Rebuilt() := stage.file];
      Within(stage.Own(), own) && own.Keys <= stage.OwnNames() && stage.path in own
  {
  }

  lemma OwnsThree(stage: Stage, journal: Inode)
    requires stage.journal == None || stage.journal == Some(journal)
    ensures var own := map[stage.path := stage.directory][stage.Rebuilt() := stage.file][stage.JournalPath() := journal];
      Within(stage.Own(), own) && own.Keys <= stage.OwnNames() && stage.path in own
    ensures stage.path != stage.Rebuilt() && stage.JournalPath() != stage.path && stage.JournalPath() != stage.Rebuilt()
  {
    assert |stage.Rebuilt().dir| == |stage.path.dir| + 1;
    assert |stage.JournalPath().name| > |stage.Rebuilt().name|;
  }

  /** The rollback journal, made before anything is written so that it is private. */
  method MakeJournal(fs: FileSystem, stage: Stage, ghost d: Disk) returns (r: Result<(), Failure>, ghost own: Names)
    requires stage.Fits(fs) && fs.plan == None && fs.copy == None && stage.journal == None
    requires WellFormed(d) && Added(fs.quiet, d, fs.disk, map[stage.path := stage.directory][stage.Rebuilt() := stage.file])
    modifies fs, stage`journal
    ensures fs.Continues() && SameBut(old(fs.notes), fs.notes) && stage.Fits(fs) && fs.plan == None && fs.copy == None
    ensures NodesStay(old(fs.disk), fs.disk)
    ensures Added(fs.quiet, d, fs.disk, own) && own.Keys <= stage.OwnNames() && stage.path in own
    ensures Within(stage.Own(), own)
    ensures r.Ok? ==> fs.notes.absent == {}
    ensures r.Ok? ==> stage.journal.Some? && own == Contents(stage) && Holds(fs.disk, stage.journal.value, Regular, PRIVATE_FILE)
    ensures r.Err? ==> r.error.Plain?
    ensures fs.quiet && fs.faults == old(fs.faults) ==> (r.Ok? <==> stage.JournalPath() !in old(fs.disk.names))
    ensures r.Ok? ==> fs.faults == old(fs.faults)
    ensures r.Ok? ==> fs.checks > old(fs.checks)
  {
    own := map[stage.path := stage.directory][stage.Rebuilt() := stage.file];
    OwnsTwo(stage);
    var made;
    made, own := IdentifiedFile(fs, stage.JournalPath(), d, own);
    if made.Err? {
      if stage.JournalPath() in own { OwnsThree(stage, own[stage.JournalPath()]); }
      return Err(made.error), own;
    }
    OwnsThree(stage, made.value);
    stage.journal := Some(made.value);
    OwnsThree(stage, made.value);
    r := Ok(());
  }

  /** A private file whose identity could be read; if it could not, the file is
      there all the same. */
  method IdentifiedFile(fs: FileSystem, path: Path, ghost d: Disk, ghost own: Names) returns (r: Result<Inode, Failure>, ghost now: Names)
    requires fs.Valid() && fs.plan == None && fs.copy == None && WellFormed(d) && Added(fs.quiet, d, fs.disk, own)
    modifies fs
    ensures fs.Continues() && SameBut(old(fs.notes), fs.notes) && NodesStay(old(fs.disk), fs.disk)
    ensures Added(fs.quiet, d, fs.disk, now) && (now == own || (path in now && now == own[path := now[path]]))
    ensures r.Err? ==> r.error.Plain?
    ensures r.Ok? ==>
              && now == own[path := r.value] && r.value in fs.mine && fs.notes.absent == {}
              && Holds(fs.disk, r.value, Regular, PRIVATE_FILE)
    ensures fs.faults == old(fs.faults) ==> (r.Ok? <==> path !in old(fs.disk.names))
    ensures r.Ok? ==> fs.faults == old(fs.faults)
    ensures r.Ok? ==> fs.checks > old(fs.checks)
  {
    now := own;
    var made := PrivateFile(fs, path, d, own);
    if made == None { return Err(Plain("filesystem_failure")), now; }
    now := own[path := made.value];
    ghost var e := fs.disk;
    var known := fs.Probe();
    AddedDrifts(fs.quiet, d, e, fs.disk, now);
    r := if known then Ok(made.value) else Err(Plain("filesystem_failure"));
  }

  /** Check the stage and sync the directory that holds it. */
  method ConfirmStage(fs: FileSystem, stage: Stage) returns (r: Result<(), Failure>)
    requires fs.Valid()
    modifies fs
    ensures fs.Continues() && fs.mine == old(fs.mine) && fs.notes == old(fs.notes)
    ensures Steady(fs.quiet, old(fs.disk), fs.disk)
    ensures r.Err? ==> r.error.Plain?
    ensures r.Ok? && stage.path in old(fs.disk.names) ==> stage.path !in fs.disk.dirtyNames
    ensures fs.faults == old(fs.faults) && stage.Private(old(fs.disk)) ==> r.Ok?
    ensures r.Ok? ==> fs.faults == old(fs.faults)
    ensures r.Ok? ==> fs.checks >= old(fs.checks) + 3
  {
    r := stage.Check(fs);
    if r.Err? { return; }
    ghost var d := fs.disk;
    r := SyncStage(fs, stage.path);
    SteadyTransitive(fs.quiet, old(fs.disk), d, fs.disk);
  }

  /** The sync, and the checkpoint after it. */
  method SyncStage(fs: FileSystem, path: Path) returns (r: Result<(), Failure>)
    requires fs.Valid()
    modifies fs
    ensures fs.Continues() && fs.mine == old(fs.mine) && fs.notes == old(fs.notes)
    ensures Steady(fs.quiet, old(fs.disk), fs.disk)
    ensures r.Err? ==> r.error.Plain?
    ensures r.Ok? && path in old(fs.disk.names) ==> path !in fs.disk.dirtyNames
    ensures fs.faults == old(fs.faults) ==> r.Ok?
    ensures r.Ok? ==> fs.faults == old(fs.faults)
    ensures r.Ok? ==> fs.checks > old(fs.checks)
  {
    r := SyncDirectoryOf(fs, path);
    if r.Err? { return; }
    ghost var e := fs.disk;
    var go := fs.Probe();
    SteadyTransitive(fs.quiet, old(fs.disk), e, fs.disk);
    r := if go then Ok(()) else Err(Plain("injected_failure"));
  }

  /** An earlier start than the one a disk was compared with. */
  lemma AddedSince(quiet: bool, d: Disk, d1: Disk, e: Disk, own: Names)
    requires WellFormed(d) && Drift(quiet, d, d1) && Added(quiet, d1, e, own)
    ensures Added(quiet, d, e, own)
  {
  }
}
