/** Undoing preservation: the logged files go back last-first, then the original
    is synced and reopened. */
module Rollback {
  import opened Wrappers
  import opened Paths
  import opened Disks
  import opened Custody
  import opened UndoLog
  import opened FileSystems
  import opened Moves
  import opened Preservation
  import opened Adapters

  /** The undo loop with `i` entries still to go. */
  ghost predicate Unwinding(p: Plan, names: Names, n: Notes, i: nat) {
    && i <= |n.moved| && p.IsLog(n.moved)
    && (forall j | 0 <= j < i :: At(names, n.moved[j].to, n.moved[j].ino))
    && (forall j | i <= j < |n.moved| :: At(names, n.moved[j].from, n.moved[j].ino))
    && (At(names, p.source, p.rebuilt) ==> p.Activation() in n.strays)
  }

  /** Undoing what is left of the log gets exactly as far as undoing all of it would. */
  ghost predicate OnTheWay(start: Names, names: Names, moved: seq<Entry>, i: nat)
    requires i <= |moved|
  {
    Unwind(names, moved[..i]) == Unwind(start, moved)
  }

  lemma OnTheWayBlocked(start: Names, names: Names, moved: seq<Entry>, i: nat)
    requires 0 < i <= |moved| && OnTheWay(start, names, moved, i) && moved[i - 1].from in names
    ensures Blocked(start, names, moved)
  {
    UnwindAgrees(start, moved);
    assert moved[..i][i - 1] == moved[i - 1];
  }

  lemma UnwindingAllows(p: Plan, d: Disk, n: Notes, i: nat)
    requires p.Valid() && p.HasCustody(d.names) && p.Owned(d.names) && !n.live && n.cleaning == None
    requires 0 < i && Unwinding(p, d.names, n, i)
    ensures var x := n.moved[i - 1]; At(d.names, x.to, x.ino) && p.AllowedRename(d, n, x.to, x.from)
  {
    var x := n.moved[i - 1];
    assert n.moved[0] == p.Main();
    if i == 1 {
      assert p.RestoresMain(d.names, n, x.to, x.from);
    } else {
      assert p.IsSidecar(x);
      assert p.RestoresSidecar(d.names, n, x.to, x.from);
    }
  }

  lemma TheRestIsAway(p: Plan, quiet: bool, d: Disk, e: Disk, moved: seq<Entry>, i: nat)
    requires p.Valid() && 0 < i <= |moved| && p.IsLog(moved) && forall j | 0 <= j < i :: At(d.names, moved[j].to, moved[j].ino)
    requires Shifted(quiet, d, e, moved[i - 1].to, moved[i - 1].from)
    ensures forall j | 0 <= j < i - 1 :: At(e.names, moved[j].to, moved[j].ino)
  {
    forall j | 0 <= j < i - 1 ensures At(e.names, moved[j].to, moved[j].ino) {
      LogNamesDiffer(p, moved, j, i - 1);
    }
  }

  lemma TheOthersAreBack(p: Plan, quiet: bool, d: Disk, e: Disk, moved: seq<Entry>, i: nat)
    requires p.Valid() && 0 < i <= |moved| && p.IsLog(moved) && forall j | i <= j < |moved| :: At(d.names, moved[j].from, moved[j].ino)
    requires Shifted(quiet, d, e, moved[i - 1].to, moved[i - 1].from) && At(d.names, moved[i - 1].to, moved[i - 1].ino)
    ensures forall j | i - 1 <= j < |moved| :: At(e.names, moved[j].from, moved[j].ino)
  {
    forall j | i - 1 <= j < |moved| ensures At(e.names, moved[j].from, moved[j].ino) {
      if j > i - 1 { LogNamesDiffer(p, moved, i - 1, j); }
    }
  }

  lemma UnwindingShifts(p: Plan, quiet: bool, d: Disk, e: Disk, n: Notes, m: Notes, i: nat)
    requires p.Valid() && 0 < i && Unwinding(p, d.names, n, i) && p.rebuilt in d.nodes
    requires Shifted(quiet, d, e, n.moved[i - 1].to, n.moved[i - 1].from)
    requires At(d.names, n.moved[i - 1].to, n.moved[i - 1].ino)
    requires m.moved == n.moved && m.strays == n.strays
    ensures Unwinding(p, e.names, m, i - 1)
  {
    TheRestIsAway(p, quiet, d, e, n.moved, i);
    TheOthersAreBack(p, quiet, d, e, n.moved, i);
    NoReplacementBack(p, quiet, d, e, n.moved, i);
  }

  /** Undoing one entry does not bring the replacement to the source. */
  lemma NoReplacementBack(p: Plan, quiet: bool, d: Disk, e: Disk, moved: seq<Entry>, i: nat)
    requires p.Valid() && 0 < i <= |moved| && p.IsLog(moved) && At(d.names, moved[i - 1].to, moved[i - 1].ino)
    requires Shifted(quiet, d, e, moved[i - 1].to, moved[i - 1].from) && p.rebuilt in d.nodes
    ensures At(e.names, p.source, p.rebuilt) ==> At(d.names, p.source, p.rebuilt)
  {
    assert moved[0] == p.Main();
    assert i > 1 ==> !p.Mine(moved[i - 1].ino);
    assert p.Mine(p.rebuilt);
  }

  lemma LogNamesDiffer(p: Plan, moved: seq<Entry>, i: nat, j: nat)
    requires p.Valid() && p.IsLog(moved) && i < j < |moved|
    ensures moved[i].from != moved[j].from && moved[i].to != moved[j].to
    ensures moved[i].from != moved[j].to && moved[i].to != moved[j].from
    ensures moved[i].from != moved[i].to && moved[j].from != moved[j].to
  {
    p.PathsDiffer();
    assert p.IsSidecar(moved[j]);
    assert i > 0 ==> p.IsSidecar(moved[i]);
    assert i == 0 ==> moved[i] == p.Main();
  }

  lemma OnTheWayShifts(start: Names, names: Names, moved: seq<Entry>, i: nat)
    requires 0 < i <= |moved| && OnTheWay(start, names, moved, i)
    requires moved[i - 1].to in names && moved[i - 1].from !in names
    ensures OnTheWay(start, MoveName(names, moved[i - 1].to, moved[i - 1].from), moved, i - 1)
  {
    assert moved[..i][..i - 1] == moved[..i - 1];
  }

  lemma OnTheWayStarts(start: Names, moved: seq<Entry>)
    ensures OnTheWay(start, start, moved, |moved|)
  {
    assert moved[..|moved|] == moved;
  }

  lemma OnTheWayEnds(start: Names, names: Names, moved: seq<Entry>)
    requires OnTheWay(start, names, moved, 0)
    ensures Undoes(start, moved) && names == Undo(start, moved)
  {
    UnwindAgrees(start, moved);
    assert moved[..0] == [];
  }

  /** The log cannot be undone, and the directory is where undoing it gets stuck. */
  ghost predicate Blocked(start: Names, names: Names, moved: seq<Entry>) {
    !Undoes(start, moved) && names == UndoFar(start, moved)
  }

  /** The loop, begun on disk `start` with these strays, with `i` entries still to go. */
  ghost predicate Rewinding(p: Plan, start: Disk, strays: set<Entry>, d: Disk, n: Notes, moved: seq<Entry>, i: nat, quiet: bool) {
    && n.moved == moved && n.strays == strays && Unwinding(p, d.names, n, i) && Undamaged(p, start, d)
    && (quiet ==> OnTheWay(start.names, d.names, moved, i))
  }

  lemma RewindingStarts(p: Plan, d: Disk, n: Notes, quiet: bool)
    requires Unwinding(p, d.names, n, |n.moved|)
    ensures Rewinding(p, d, n.strays, d, n, n.moved, |n.moved|, quiet)
  {
    OnTheWayStarts(d.names, n.moved);
  }

  lemma RewindingEnds(p: Plan, start: Disk, strays: set<Entry>, d: Disk, n: Notes, moved: seq<Entry>, quiet: bool)
    requires Rewinding(p, start, strays, d, n, moved, 0, quiet)
    ensures Unwinding(p, d.names, n, 0) && Undamaged(p, start, d)
    ensures quiet ==> Undoes(start.names, moved) && d.names == Undo(start.names, moved)
  {
    if quiet { OnTheWayEnds(start.names, d.names, moved); }
  }

  /** The undo loop. */
  method UndoMoves(fs: FileSystem, ghost p: Plan, moved: seq<Entry>) returns (r: Result<(), Failure>)
    requires Underway(fs, p) && moved == fs.notes.moved && Unwinding(p, fs.disk.names, fs.notes, |moved|)
    modifies fs
    ensures fs.Continues() && Underway(fs, p) && fs.mine == old(fs.mine)
    ensures fs.notes.moved == moved && (r.Ok? ==> fs.notes.strays == old(fs.notes.strays))
    ensures Undamaged(p, old(fs.disk), fs.disk)
    ensures r.Err? ==> r.error.Plain?
    ensures r.Ok? && fs.quiet ==> Undoes(old(fs.disk.names), moved) && fs.disk.names == Undo(old(fs.disk.names), moved)
    ensures r.Ok? ==> Unwinding(p, fs.disk.names, fs.notes, 0)
    ensures p.Activation() in fs.notes.strays ==> p.Activation() in old(fs.notes.strays)
    ensures fs.quiet && fs.faults == old(fs.faults) && r.Err? ==> Blocked(old(fs.disk.names), fs.disk.names, moved)
    ensures r.Ok? ==> fs.faults == old(fs.faults)
  {
    ghost var start := fs.disk;
    var i := |moved|;
    RewindingStarts(p, start, fs.notes, fs.quiet);
    while i > 0
      invariant 0 <= i <= |moved|
      invariant fs.Continues() && Underway(fs, p) && fs.mine == old(fs.mine)
      invariant fs.faults == old(fs.faults)
      invariant Rewinding(p, start, old(fs.notes.strays), fs.disk, fs.notes, moved, i, fs.quiet)
    {
      r := UndoNext(fs, p, moved, i, start);
      if r.Err? { return; }
      i := i - 1;
    }
    r := Ok(());
    RewindingEnds(p, start, old(fs.notes.strays), fs.disk, fs.notes, moved, fs.quiet);
  }

  /** One round of the loop, seen from where the loop began. */
  method UndoNext(fs: FileSystem, ghost p: Plan, moved: seq<Entry>, i: nat, ghost start: Disk) returns (r: Result<(), Failure>)
    requires Underway(fs, p) && 0 < i && Rewinding(p, start, fs.notes.strays, fs.disk, fs.notes, moved, i, fs.quiet)
    modifies fs
    ensures fs.Continues() && Underway(fs, p) && fs.mine == old(fs.mine)
    ensures fs.notes.moved == moved
    ensures Undamaged(p, start, fs.disk)
    ensures r.Err? ==> r.error.Plain?
    ensures r.Ok? ==> Rewinding(p, start, old(fs.notes.strays), fs.disk, fs.notes, moved, i - 1, fs.quiet)
    ensures p.Activation() in fs.notes.strays ==> p.Activation() in old(fs.notes.strays)
    ensures fs.quiet && fs.faults == old(fs.faults) && r.Err? ==> Blocked(start.names, fs.disk.names, moved)
    ensures r.Ok? ==> fs.faults == old(fs.faults)
  {
    r := UndoOne(fs, p, moved, i);
    UndamagedTransitive(p, start, old(fs.disk), fs.disk);
    if fs.quiet {
      if r.Ok? {
        OnTheWayShifts(start.names, old(fs.disk.names), moved, i);
      } else if fs.faults == old(fs.faults) {
        OnTheWayBlocked(start.names, old(fs.disk.names), moved, i);
      }
    }
  }

  /** A logged name is beside the source; moving its file back is no activation. */
  lemma LoggedBeside(p: Plan, moved: seq<Entry>, j: nat)
    requires p.Valid() && p.IsLog(moved) && j < |moved|
    ensures moved[j].to.dir == p.source.dir && Entry(moved[j].to, moved[j].from, moved[j].ino) != p.Activation()
  {
    p.StagingApart();
    assert moved[0] == p.Main();
    assert j > 0 ==> p.IsSidecar(moved[j]);
  }

  method UndoOne(fs: FileSystem, ghost p: Plan, moved: seq<Entry>, i: nat) returns (r: Result<(), Failure>)
    requires Underway(fs, p) && moved == fs.notes.moved && 0 < i && Unwinding(p, fs.disk.names, fs.notes, i)
    modifies fs
    ensures fs.Continues() && Underway(fs, p) && fs.mine == old(fs.mine)
    ensures fs.notes.moved == moved
    ensures Undamaged(p, old(fs.disk), fs.disk)
    ensures r.Err? ==> r.error.Plain?
    ensures r.Ok? ==>
              && fs.notes.strays == old(fs.notes.strays)
              && Unwinding(p, fs.disk.names, fs.notes, i - 1)
              && moved[i - 1].to in old(fs.disk.names) && moved[i - 1].from !in old(fs.disk.names)
              && (fs.quiet ==> fs.disk.names == MoveName(old(fs.disk.names), moved[i - 1].to, moved[i - 1].from))
    ensures fs.quiet && fs.faults == old(fs.faults) && r.Err? ==>
              moved[i - 1].from in old(fs.disk.names) && fs.disk.names == old(fs.disk.names)
    ensures p.Activation() in fs.notes.strays ==> p.Activation() in old(fs.notes.strays)
    ensures r.Ok? ==> fs.faults == old(fs.faults)
  {
    MayUndo(fs, p, i);
    r := PutBack(fs, p, moved[i - 1]);
    if r.Ok? { UnwindingShifts(p, fs.quiet, old(fs.disk), fs.disk, old(fs.notes), fs.notes, i); }
  }

  /** Move one file back. */
  method PutBack(fs: FileSystem, ghost p: Plan, x: Entry) returns (r: Result<(), Failure>)
    requires Underway(fs, p) && At(fs.disk.names, x.to, x.ino) && x.to.dir == p.source.dir && x.ino != p.directory
    requires p.AllowedRename(fs.disk, fs.notes, x.to, x.from) && Entry(x.to, x.from, x.ino) != p.Activation()
    modifies fs
    ensures fs.Continues() && Underway(fs, p) && fs.mine == old(fs.mine)
    ensures fs.notes.moved == old(fs.notes.moved) && Undamaged(p, old(fs.disk), fs.disk)
    ensures r.Err? ==> r.error.Plain?
    ensures r.Ok? ==> Shifted(fs.quiet, old(fs.disk), fs.disk, x.to, x.from) && fs.notes.strays == old(fs.notes.strays)
    ensures fs.quiet && fs.faults == old(fs.faults) && r.Err? ==>
              x.from in old(fs.disk.names) && fs.disk.names == old(fs.disk.names)
    ensures p.Activation() in fs.notes.strays ==> p.Activation() in old(fs.notes.strays)
    ensures r.Ok? ==> fs.faults == old(fs.faults)
    ensures r.Ok? ==> fs.checks >= old(fs.checks) + 2
  {
    ghost var lost;
    r, lost := MoveNoReplace(fs, p, x.to, x.from, x.ino);
    if r.Ok? || lost { ShiftedIsUndamaged(p, fs.quiet, old(fs.disk), fs.disk, x.to, x.from); }
  }

  lemma MayUndo(fs: FileSystem, p: Plan, i: nat)
    requires Underway(fs, p) && 0 < i && Unwinding(p, fs.disk.names, fs.notes, i)
    ensures p.Valid() && p.rebuilt in fs.disk.nodes
    ensures var x := fs.notes.moved[i - 1];
      && At(fs.disk.names, x.to, x.ino) && x.to.dir == p.source.dir && x.ino != p.directory
      && p.AllowedRename(fs.disk, fs.notes, x.to, x.from) && Entry(x.to, x.from, x.ino) != p.Activation()
  {
    NamesKept(fs, p);
    UnwindingAllows(p, fs.disk, fs.notes, i);
    LoggedBeside(p, fs.notes.moved, i - 1);
    assert p.Mine(p.directory);
  }

  /** The original is back and open: what a plain error after the close means. */
  ghost predicate Restored(fs: FileSystem, p: Plan, a: SqliteAdapter)
    reads fs, a
  {
    && fs.Valid() && fs.plan == Some(p)
    && At(fs.disk.names, p.source, p.original)
    && a.handle == Open(p.original) && !a.transaction
    && (a.identity == None || a.identity == Some(p.original))
  }

  /** The logged sidecars' names and, unless an existence test failed, the files
      themselves would survive a power loss. */
  ghost predicate HomeDurably(e: Disk, n: Notes) {
    forall j | 1 <= j < |n.moved| ::
      n.moved[j].from !in e.dirtyNames && (n.moved[j].ino !in e.dirtyNodes || n.moved[j].from in n.overlooked)
  }

  /** What the notes say of the reopening: the original, its name at the source and
      every sidecar put back would have survived a power loss. */
  ghost predicate ReopenedDurably(p: Plan, n: Notes) {
    && n.reopened.Some?
    && p.original !in n.reopened.value.dirtyNodes && p.source !in n.reopened.value.dirtyNames
    && HomeDurably(n.reopened.value, n)
  }

  /** Undoing the log is possible and brings the original back. */
  ghost predicate CanRestore(p: Plan, start: Names, moved: seq<Entry>) {
    Undoes(start, moved) && At(Undo(start, moved), p.source, p.original)
  }

  /** `rollback_original`. The given error comes back only when the original is
      back; and with no other writer, no failing call and no refusal by SQLite,
      it comes back exactly when the log can be undone. */
  method RollbackOriginal(fs: FileSystem, ghost p: Plan, a: SqliteAdapter, error: Failure, moved: seq<Entry>, original: Inode)
    returns (e: Failure)
    requires Underway(fs, p) && moved == fs.notes.moved && Unwinding(p, fs.disk.names, fs.notes, |moved|)
    requires a.path == p.source && original == p.original
    modifies fs, a`handle, a`transaction, a`identity, a`refusals
    ensures fs.Continues() && fs.mine == old(fs.mine) && ElsewhereKept(p, old(fs.disk), fs.disk)
    ensures fs.notes.cleaning == None && a.refusals >= old(a.refusals)
    ensures p.Activation() in fs.notes.strays ==> p.Activation() in old(fs.notes.strays)
    ensures e != error ==> e.RollbackFailed? && e.original == error
    ensures e == error ==>
              && Restored(fs, p, a) && fs.notes.strays == old(fs.notes.strays)
              && ReopenedDurably(p, fs.notes)
              && (fs.quiet ==>
                    && CanRestore(p, old(fs.disk.names), moved)
                    && fs.notes.reopened.value.names == Undo(old(fs.disk.names), moved))
              && (fs.faults == old(fs.faults) ==> a.identity == Some(p.original))
    ensures fs.quiet && fs.faults == old(fs.faults) && CanRestore(p, old(fs.disk.names), moved) && a.refusals == old(a.refusals) ==>
              e == error
    ensures fs.quiet && fs.faults == old(fs.faults) && !CanRestore(p, old(fs.disk.names), moved) ==>
              fs.disk.names == UndoFar(old(fs.disk.names), moved)
    ensures a.transaction ==> old(a.transaction)
    ensures e == error ==> fs.faults <= old(fs.faults) + 4 && a.refusals == old(a.refusals)
  {
    var r := UndoAndCheck(fs, p, moved, a.path, original);
    if r.Err? {
      RollbackIsNew(error, r.error);
      return RollbackFailed(error, r.error);
    }
    e := ReopenOriginal(fs, p, a, error);
  }

  /** Undo the log, and see that the original is at the source. */
  method UndoAndCheck(fs: FileSystem, ghost p: Plan, moved: seq<Entry>, source: Path, original: Inode) returns (r: Result<(), Failure>)
    requires Underway(fs, p) && moved == fs.notes.moved && Unwinding(p, fs.disk.names, fs.notes, |moved|)
    requires source == p.source && original == p.original
    modifies fs
    ensures fs.Continues() && Underway(fs, p) && fs.mine == old(fs.mine) && ElsewhereKept(p, old(fs.disk), fs.disk)
    ensures p.Activation() in fs.notes.strays ==> p.Activation() in old(fs.notes.strays)
    ensures r.Err? ==> r.error.Plain?
    ensures r.Ok? ==>
              && At(fs.disk.names, source, original) && fs.notes.strays == old(fs.notes.strays)
              && (fs.quiet ==> CanRestore(p, old(fs.disk.names), moved) && fs.disk.names == Undo(old(fs.disk.names), moved))
    ensures fs.quiet && fs.faults == old(fs.faults) ==>
              && (r.Ok? <==> CanRestore(p, old(fs.disk.names), moved))
              && fs.disk.names == UndoFar(old(fs.disk.names), moved)
    ensures r.Ok? ==> fs.faults == old(fs.faults)
    ensures r.Ok? ==> fs.checks > old(fs.checks)
  {
    if fs.quiet { UnwindAgrees(fs.disk.names, moved); }
    r := UndoMoves(fs, p, moved);
    if r.Err? { return; }
    var back := fs.Check(source, original);
    if !back { r := Err(Plain("recovery_path_changed")); }
  }

  lemma WorkKeepsElsewhere(p: Plan, quiet: bool, d: Disk, e: Disk)
    requires p.Valid() && p.Owned(d.names) && Worked(quiet, d, e, p.source)
    ensures ElsewhereKept(p, d, e)
  {
    p.StagingApart();
    assert p.staging != p.Beside(0) && p.staging != p.Beside(1) && p.staging != p.Beside(2);
  }

  /** Sync the restored files and reopen the database; both are tried. */
  method ReopenOriginal(fs: FileSystem, ghost p: Plan, a: SqliteAdapter, error: Failure) returns (e: Failure)
    requires Underway(fs, p) && At(fs.disk.names, p.source, p.original) && a.path == p.source
    modifies fs, a`handle, a`transaction, a`identity, a`refusals
    ensures fs.Continues() && fs.mine == old(fs.mine) && ElsewhereKept(p, old(fs.disk), fs.disk)
    ensures fs.notes.cleaning == None && a.refusals >= old(a.refusals) && fs.notes.strays == old(fs.notes.strays)
    ensures e != error ==> e.RollbackFailed? && e.original == error
    ensures e == error ==>
              && Restored(fs, p, a) && ReopenedDurably(p, fs.notes)
              && (fs.quiet ==> fs.notes.reopened.value.names == old(fs.disk.names))
              && (fs.faults == old(fs.faults) ==> a.identity == Some(p.original))
    ensures fs.faults == old(fs.faults) && a.refusals == old(a.refusals) ==> e == error
    ensures a.transaction ==> old(a.transaction)
    ensures e == error ==> fs.faults <= old(fs.faults) + 4 && a.refusals == old(a.refusals)
  {
    var sync := SyncRestored(fs, p, a.path);
    var reopen := ReopenRestored(fs, p, a);
    e := error;
    if sync.Err? || reopen.Err? {
      e := RollbackFailed(error, if sync.Err? then sync.error else reopen.error);
      RollbackIsNew(error, e.rollback);
    }
  }

  method ReopenRestored(fs: FileSystem, ghost p: Plan, a: SqliteAdapter) returns (r: Result<(), Failure>)
    requires fs.Valid() && fs.plan == Some(p) && At(fs.disk.names, p.source, p.original) && fs.notes.live && a.path == p.source
    requires fs.notes.cleaning == None
    modifies fs, a`handle, a`transaction, a`identity, a`refusals
    ensures fs.Continues() && fs.mine == old(fs.mine) && ElsewhereKept(p, old(fs.disk), fs.disk)
    ensures fs.notes.strays == old(fs.notes.strays) && fs.notes.cleaning == None && fs.notes.reopened == old(fs.notes.reopened)
    ensures fs.notes.moved == old(fs.notes.moved) && fs.notes.overlooked == old(fs.notes.overlooked)
    ensures r.Err? ==> r.error.Plain?
    ensures r.Ok? ==> Restored(fs, p, a) && (fs.faults == old(fs.faults) ==> a.identity == Some(p.original))
    ensures r.Ok? <==> a.refusals == old(a.refusals)
    ensures a.refusals >= old(a.refusals)
    ensures a.transaction ==> old(a.transaction)
    ensures r.Ok? ==> fs.faults <= old(fs.faults) + 1
  {
    NamesKept(fs, p);
    p.SourceSidecarsApart();
    r := a.Reopen(fs);
    WorkKeepsElsewhere(p, fs.quiet, old(fs.disk), fs.disk);
  }

  /** Sync the restored family; from here on the original may be opened again. */
  method SyncRestored(fs: FileSystem, ghost p: Plan, source: Path) returns (r: Result<(), Failure>)
    requires Underway(fs, p) && At(fs.disk.names, p.source, p.original) && source == p.source
    modifies fs
    ensures fs.Continues() && fs.plan == Some(p) && fs.mine == old(fs.mine) && ElsewhereKept(p, old(fs.disk), fs.disk)
    ensures fs.notes.live && fs.notes.strays == old(fs.notes.strays) && fs.notes.cleaning == None
    ensures fs.notes.reopened == Some(fs.disk)
    ensures At(fs.disk.names, p.source, p.original) && (fs.quiet ==> fs.disk.names == old(fs.disk.names))
    ensures r.Err? ==> r.error.Plain?
    ensures r.Ok? ==> ReopenedDurably(p, fs.notes)
    ensures fs.faults == old(fs.faults) ==> r.Ok?
    ensures r.Ok? ==> fs.faults <= old(fs.faults) + 3
  {
    fs.NodesKept();
    FileOpens(fs.disk, source);
    LoggedAreHome(fs, p);
    ghost var d := fs.disk;
    r := SyncDatabaseFiles(fs, source, true);
    if r.Ok? { HomeAfterSync(p, d, fs.disk, fs.notes); }
    fs.Mark(Reopened(fs.disk));
  }

  /** With the original at the source, each logged sidecar is home too. */
  lemma LoggedAreHome(fs: FileSystem, p: Plan)
    requires fs.Valid() && fs.plan == Some(p) && !fs.notes.live && At(fs.disk.names, p.source, p.original)
    ensures p.SidecarsHome(fs.disk.names, fs.notes.moved) && p.IsLog(fs.notes.moved) && p.LogPlain(fs.disk, fs.notes.moved)
  {
    fs.Sound();
  }

  lemma HomeAfterSync(p: Plan, d: Disk, e: Disk, n: Notes)
    requires WellFormed(d) && p.IsLog(n.moved) && p.SidecarsHome(d.names, n.moved) && p.LogPlain(d, n.moved)
    requires forall s | 0 <= s < 3 :: SidecarDurable(d, e, n, p.source, s)
    requires forall q | q in d.names && q.dir == p.source.dir :: q !in e.dirtyNames
    ensures HomeDurably(e, n)
  {
    forall j | 1 <= j < |n.moved|
      ensures n.moved[j].from !in e.dirtyNames && (n.moved[j].ino !in e.dirtyNodes || n.moved[j].from in n.overlooked)
    {
      var s :| 0 <= s < 3 && n.moved[j].from == p.Beside(s) && n.moved[j].to == p.Kept(s);
      assert SidecarDurable(d, e, n, p.source, s);
    }
  }
}
