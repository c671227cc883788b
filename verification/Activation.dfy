/** Putting the replacement in place, reopening it, and taking it out again when
    that fails. */
module Activation {
  import opened Wrappers
  import opened Databases
  import opened Paths
  import opened Disks
  import opened Custody
  import opened FileSystems
  import opened Moves
  import opened Staging
  import opened Preservation
  import opened Adapters
  import opened Rollback

  /** The replacement in staging is the source's database under the source's
      permission bits, and it is synced. */
  ghost predicate Ready(p: Plan, d: Disk) {
    && At(d.names, p.Temporary(), p.rebuilt) && p.rebuilt in d.nodes
    && d.nodes[p.rebuilt].data.Image? && d.nodes[p.rebuilt].data.checked
    && Faithful(p.engine, p.snapshot, d.nodes[p.rebuilt].data.db)
    && d.nodes[p.rebuilt].mode == p.mode
    && p.rebuilt !in d.dirtyNodes
  }

  lemma ReadyLasts(p: Plan, d: Disk, e: Disk)
    requires p.Valid() && Ready(p, d) && Undamaged(p, d, e)
    ensures Ready(p, e)
  {
    p.StagingApart();
  }

  lemma MayActivate(fs: FileSystem, p: Plan, moved: seq<Entry>)
    requires Underway(fs, p) && moved == fs.notes.moved && moved != []
    requires Ready(p, fs.disk) && Preserved(p, fs.disk.names, moved, 3) && Durable(p, fs.disk, fs.notes, moved)
    requires forall s | 0 <= s < 3 :: Sidecar(p.source, SIDECARS[s]) in fs.notes.absent
    ensures p.AllowedRename(fs.disk, fs.notes, p.Temporary(), p.source)
  {
    fs.NodesKept();
    assert p.Gate(fs.disk, fs.notes);
    assert p.Activates(fs.disk, fs.notes, p.Temporary(), p.source);
  }

  /** After the replacement has moved, confirmed or not, the archive is as it was. */
  lemma ArchivedThroughActivation(p: Plan, quiet: bool, d: Disk, e: Disk, moved: seq<Entry>)
    requires p.Valid() && p.IsLog(moved) && p.Archived(d.names, moved) && Shifted(quiet, d, e, p.Temporary(), p.source)
    ensures p.Archived(e.names, moved)
  {
    p.StagingApart();
    forall j | 0 <= j < |moved| ensures At(e.names, moved[j].to, moved[j].ino) {
      assert j > 0 ==> p.IsSidecar(moved[j]);
      assert j == 0 ==> moved[j] == p.Main();
    }
  }

  lemma DurableThroughActivation(p: Plan, quiet: bool, d: Disk, e: Disk, n: Notes, m: Notes, moved: seq<Entry>)
    requires p.Valid() && p.IsLog(moved) && p.Archived(d.names, moved) && Shifted(quiet, d, e, p.Temporary(), p.source)
    requires WellFormed(d) && Durable(p, d, n, moved) && m.overlooked == n.overlooked
    ensures Durable(p, e, m, moved)
  {
    p.StagingApart();
    p.PathsDiffer();
    forall x | x in moved ensures x.to !in e.dirtyNames && (x.ino !in e.dirtyNodes || x.to in m.overlooked) {
      var j :| 0 <= j < |moved| && moved[j] == x;
      assert At(d.names, x.to, x.ino);
      assert j > 0 ==> p.IsSidecar(x);
      assert j == 0 ==> x == p.Main();
    }
  }

  /** SQLite's work on the replacement cannot undo the archive's durability. */
  lemma WorkKeepsDurable(p: Plan, quiet: bool, d: Disk, e: Disk, n: Notes, m: Notes, moved: seq<Entry>)
    requires p.Valid() && p.IsLog(moved) && p.Archived(d.names, moved) && p.Placed(d.names, moved)
    requires WellFormed(d) && Worked(quiet, d, e, p.source) && Durable(p, d, n, moved) && m.overlooked == n.overlooked
    ensures Durable(p, e, m, moved)
  {
    p.SourceSidecarsApart();
    p.PathsDiffer();
    forall x | x in moved ensures x.to !in e.dirtyNames && (x.ino !in e.dirtyNodes || x.to in m.overlooked) {
      var j :| 0 <= j < |moved| && moved[j] == x;
      assert j > 0 ==> p.IsSidecar(x);
      assert j == 0 ==> x == p.Main();
      assert OnlyAt(d.names, x.ino, x.to);
      assert !InFamily(d.names, p.source, x.ino);
    }
  }

  lemma PlacedNow(fs: FileSystem, p: Plan)
    requires Underway(fs, p)
    ensures p.Valid() && p.IsLog(fs.notes.moved) && p.Placed(fs.disk.names, fs.notes.moved)
    ensures !IsSidecarOf(p.source, p.source)
  {
    fs.Sound();
    p.SourceSidecarsApart();
  }

  /** The `activate` step. With no other writer and no failing call it succeeds
      exactly when nothing is at the source's four names. */
  method Activate(fs: FileSystem, ghost p: Plan, source: Path, temporary: Path, file: Inode, ghost moved: seq<Entry>)
    returns (r: Result<(), Failure>, ghost stray: bool)
    requires Underway(fs, p) && source == p.source && temporary == p.Temporary() && file == p.rebuilt
    requires moved == fs.notes.moved && moved != []
    requires Ready(p, fs.disk) && Preserved(p, fs.disk.names, moved, 3) && Durable(p, fs.disk, fs.notes, moved)
    modifies fs
    ensures fs.Continues() && Underway(fs, p) && fs.mine == old(fs.mine)
    ensures fs.notes.moved == moved
    ensures fs.notes.strays == old(fs.notes.strays) + (if stray then {p.Activation()} else {})
    ensures p.Archived(fs.disk.names, moved)
    ensures r.Err? ==> r.error.Plain? && Unwinding(p, fs.disk.names, fs.notes, |moved|)
    ensures r.Ok? ==> !stray && At(fs.disk.names, source, file) && source !in old(fs.disk.names)
    ensures r.Ok? ==> Durable(p, fs.disk, fs.notes, moved)
    ensures fs.notes.overlooked == old(fs.notes.overlooked)
    ensures stray ==> At(fs.disk.names, source, file)
    ensures fs.quiet && !stray ==>
              fs.disk.names == if r.Ok? then MoveName(old(fs.disk.names), temporary, source) else old(fs.disk.names)
    ensures r.Err? && !stray ==> Ready(p, fs.disk)
    ensures (r.Ok? || stray) && fs.quiet ==> forall s | 0 <= s < 3 :: p.Beside(s) !in fs.disk.names
    ensures fs.quiet && fs.faults == old(fs.faults) ==> (r.Ok? <==> Vacated(p, old(fs.disk.names)))
    ensures r.Ok? ==> fs.faults == old(fs.faults)
    ensures r.Ok? ==> fs.checks >= old(fs.checks) + 2
  {
    PlanKept(fs, p);
    stray := false;
    r := SidecarsAbsent(fs, source);
    ghost var d := fs.disk;
    PreservedDrifts(p, old(fs.disk), d, moved, 3);
    DurableDrifts(p, old(fs.disk), d, fs.notes, moved);
    ReadyLasts(p, old(fs.disk), d);
    if r.Err? { return; }
    r, stray := TakeSource(fs, p, source, temporary, file, moved);
  }

  /** The rename itself, once the source's sidecar names were seen absent. */
  method TakeSource(fs: FileSystem, ghost p: Plan, source: Path, temporary: Path, file: Inode, ghost moved: seq<Entry>)
    returns (r: Result<(), Failure>, ghost stray: bool)
    requires Underway(fs, p) && source == p.source && temporary == p.Temporary() && file == p.rebuilt
    requires moved == fs.notes.moved && moved != []
    requires Ready(p, fs.disk) && Preserved(p, fs.disk.names, moved, 3) && Durable(p, fs.disk, fs.notes, moved)
    requires forall s | 0 <= s < 3 :: Sidecar(p.source, SIDECARS[s]) in fs.notes.absent
    modifies fs
    ensures fs.Continues() && Underway(fs, p) && fs.mine == old(fs.mine)
    ensures fs.notes.moved == moved
    ensures fs.notes.strays == old(fs.notes.strays) + (if stray then {p.Activation()} else {})
    ensures p.Archived(fs.disk.names, moved)
    ensures r.Err? ==> r.error.Plain? && Unwinding(p, fs.disk.names, fs.notes, |moved|)
    ensures r.Ok? ==> !stray && At(fs.disk.names, source, file) && source !in old(fs.disk.names)
    ensures r.Ok? ==> Durable(p, fs.disk, fs.notes, moved)
    ensures fs.notes.overlooked == old(fs.notes.overlooked)
    ensures stray ==> At(fs.disk.names, source, file)
    ensures fs.quiet && !stray ==>
              fs.disk.names == if r.Ok? then MoveName(old(fs.disk.names), temporary, source) else old(fs.disk.names)
    ensures r.Err? && !stray ==> Ready(p, fs.disk)
    ensures (r.Ok? || stray) && fs.quiet ==> forall s | 0 <= s < 3 :: p.Beside(s) !in fs.disk.names
    ensures fs.quiet && fs.faults == old(fs.faults) ==> (r.Ok? <==> source !in old(fs.disk.names))
    ensures r.Ok? ==> fs.faults == old(fs.faults)
    ensures r.Ok? ==> fs.checks >= old(fs.checks) + 2
  {
    MayActivate(fs, p, moved);
    NothingBeside(fs, p);
    ghost var x;
    r, x := Carry(fs, p, temporary, source, file);
    stray := x.Some?;
    if r.Ok? || stray {
      ActivationShifted(p, fs.quiet, old(fs.disk), fs.disk, old(fs.notes), fs.notes, moved);
    } else {
      ActivationRefused(p, old(fs.disk), fs.disk, fs.notes);
    }
  }

  lemma NothingBeside(fs: FileSystem, p: Plan)
    requires Underway(fs, p) && forall s | 0 <= s < 3 :: Sidecar(p.source, SIDECARS[s]) in fs.notes.absent
    ensures p.Valid() && p.rebuilt in fs.disk.nodes
    ensures fs.quiet ==> forall s | 0 <= s < 3 :: p.Beside(s) !in fs.disk.names
  {
    PlanKept(fs, p);
    if fs.quiet { AbsentStays(fs, p); }
  }

  /** What the rename to the source does, confirmed or not. */
  lemma ActivationShifted(p: Plan, quiet: bool, d: Disk, e: Disk, n: Notes, m: Notes, moved: seq<Entry>)
    requires p.Valid() && p.IsLog(moved) && p.Archived(d.names, moved) && Shifted(quiet, d, e, p.Temporary(), p.source)
    requires WellFormed(d) && Durable(p, d, n, moved) && m.overlooked == n.overlooked
    ensures p.Archived(e.names, moved) && Durable(p, e, m, moved)
    ensures m.moved == moved && p.Activation() in m.strays ==> Unwinding(p, e.names, m, |moved|)
    ensures quiet && (forall s | 0 <= s < 3 :: p.Beside(s) !in d.names) ==> forall s | 0 <= s < 3 :: p.Beside(s) !in e.names
  {
    ArchivedThroughActivation(p, quiet, d, e, moved);
    DurableThroughActivation(p, quiet, d, e, n, m, moved);
    if quiet && forall s | 0 <= s < 3 :: p.Beside(s) !in d.names { ActivationLeavesSidecars(p, d.names); }
  }

  lemma ActivationRefused(p: Plan, d: Disk, e: Disk, n: Notes)
    requires p.Valid() && WellFormed(d) && Grew(d, e) && p.rebuilt in d.nodes
    requires Preserved(p, d.names, n.moved, 3) && Ready(p, d)
    ensures p.Archived(e.names, n.moved) && Ready(p, e) && Unwinding(p, e.names, n, |n.moved|)
  {
    PreservedDrifts(p, d, e, n.moved, 3);
    ReadyLasts(p, d, e);
  }

  lemma AbsentStays(fs: FileSystem, p: Plan)
    requires fs.Valid() && fs.plan == Some(p) && fs.quiet
    ensures forall q | q in fs.notes.absent :: q !in fs.disk.names
  {
    fs.Sound();
  }

  lemma ActivationLeavesSidecars(p: Plan, names: Names)
    requires p.Valid() && p.Temporary() in names && forall s | 0 <= s < 3 :: p.Beside(s) !in names
    ensures forall s | 0 <= s < 3 :: p.Beside(s) !in MoveName(names, p.Temporary(), p.source)
  {
    p.PathsDiffer();
  }

  /** The replacement is at the source, confirmed, with every logged file archived. */
  ghost predicate Active(fs: FileSystem, p: Plan)
    reads fs
  {
    && Underway(fs, p) && At(fs.disk.names, p.source, p.rebuilt) && p.Activation() !in fs.notes.strays
    && p.Archived(fs.disk.names, fs.notes.moved)
  }

  /** The replacement stays active through anything that keeps its name. */
  lemma ActiveLasts(fs: FileSystem, p: Plan)
    requires Underway(fs, p) && At(fs.disk.names, p.source, p.rebuilt) && p.Activation() !in fs.notes.strays
    ensures Active(fs, p) && p.Valid() && !IsSidecarOf(p.source, p.source)
    ensures fs.Permits(Library(p.source, false))
  {
    fs.Sound();
    p.SourceSidecarsApart();
  }

  /** SQLite's work on the active source changes no name but its sidecars'. */
  ghost predicate OnlySidecarsChange(p: Plan, quiet: bool, d: Disk, e: Disk) {
    && (forall q | q in d.names && !IsSidecarOf(q, p.source) :: At(e.names, q, d.names[q]))
    && (quiet ==> forall q | q in e.names && !IsSidecarOf(q, p.source) :: q in d.names)
  }

  /** The source's new name and the archive would survive a power loss. */
  ghost predicate Lasting(fs: FileSystem, p: Plan)
    reads fs
  {
    p.source !in fs.disk.dirtyNames && Durable(p, fs.disk, fs.notes, fs.notes.moved)
  }

  /** The steps after the rename: sync both directories, check, reopen. With no
      failing call they succeed exactly when SQLite refuses nothing. */
  method FinishActivation(fs: FileSystem, ghost p: Plan, stage: Stage, a: SqliteAdapter) returns (r: Result<(), Failure>)
    requires Active(fs, p) && a.path == p.source && Staged(p, stage)
    requires Durable(p, fs.disk, fs.notes, fs.notes.moved)
    modifies fs, a`handle, a`transaction, a`identity, a`refusals
    ensures fs.Continues() && Active(fs, p) && fs.mine == old(fs.mine)
    ensures fs.notes.moved == old(fs.notes.moved) && fs.notes.strays == old(fs.notes.strays)
    ensures OnlySidecarsChange(p, fs.quiet, old(fs.disk), fs.disk)
    ensures r.Err? ==> r.error.Plain?
    ensures r.Ok? ==> Lasting(fs, p)
    ensures r.Ok? ==> a.handle == Open(p.rebuilt) && !a.transaction && (a.identity == None || a.identity == Some(p.rebuilt))
    ensures r.Ok? && fs.faults == old(fs.faults) ==> a.identity == Some(p.rebuilt)
    ensures fs.notes.overlooked == old(fs.notes.overlooked)
    ensures fs.faults == old(fs.faults) ==> (r.Ok? <==> a.refusals == old(a.refusals))
    ensures a.refusals >= old(a.refusals)
    ensures a.transaction ==> old(a.transaction)
    ensures r.Ok? ==> fs.faults <= old(fs.faults) + 1 && a.refusals == old(a.refusals)
    ensures r.Ok? ==> fs.checks >= old(fs.checks) + 5
    ensures fs.faults == old(fs.faults) && r.Err? ==> r.error == Plain("recovery_reopen_failed")
  {
    r := ConfirmActivated(fs, p, stage, a.path);
    ActiveLasts(fs, p);
    if r.Err? { return; }
    ghost var d, n := fs.disk, fs.notes;
    PlacedNow(fs, p);
    r := a.Reopen(fs);
    ActiveLasts(fs, p);
    WorkKeepsDurable(p, fs.quiet, d, fs.disk, n, fs.notes, fs.notes.moved);
    if r.Err? {
      r := Err(Plain("recovery_reopen_failed"));
    }
  }

  /** Sync what the activation changed, and look at the source again. */
  method ConfirmActivated(fs: FileSystem, ghost p: Plan, stage: Stage, source: Path) returns (r: Result<(), Failure>)
    requires Active(fs, p) && source == p.source && Staged(p, stage)
    requires Durable(p, fs.disk, fs.notes, fs.notes.moved)
    modifies fs
    ensures fs.Continues() && Active(fs, p) && fs.mine == old(fs.mine) && fs.notes == old(fs.notes)
    ensures Steady(fs.quiet, old(fs.disk), fs.disk)
    ensures r.Err? ==> r.error.Plain?
    ensures r.Ok? ==> Lasting(fs, p)
    ensures fs.faults == old(fs.faults) ==> r.Ok?
    ensures r.Ok? ==> fs.faults == old(fs.faults)
    ensures r.Ok? ==> fs.checks >= old(fs.checks) + 5
  {
    PlanKept(fs, p);
    StageIsPrivate(fs, p, stage);
    r := SyncActivated(fs, stage);
    if r.Err? { return; }
    ghost var d := fs.disk;
    var there := fs.Check(source, stage.file);
    SteadyTransitive(fs.quiet, old(fs.disk), d, fs.disk);
    DurableDrifts(p, old(fs.disk), fs.disk, fs.notes, fs.notes.moved);
    if !there {
      return Err(Plain("recovery_path_changed"));
    }
  }

  method SyncActivated(fs: FileSystem, stage: Stage) returns (r: Result<(), Failure>)
    requires fs.Valid()
    modifies fs
    ensures fs.Continues() && fs.mine == old(fs.mine) && fs.notes == old(fs.notes)
    ensures Steady(fs.quiet, old(fs.disk), fs.disk)
    ensures r.Err? ==> r.error.Plain?
    ensures r.Ok? ==> forall q | q in old(fs.disk.names) && (q.dir == stage.path.dir || q.dir == stage.Inside()) :: q !in fs.disk.dirtyNames
    ensures fs.faults == old(fs.faults) && stage.Private(old(fs.disk)) ==> r.Ok?
    ensures r.Ok? ==> fs.faults == old(fs.faults)
    ensures r.Ok? ==> fs.checks >= old(fs.checks) + 4
  {
    var go := fs.Probe();
    if !go { return Err(Plain("injected_failure")); }
    ghost var d := fs.disk;
    r := stage.Sync(fs);
    SteadyTransitive(fs.quiet, old(fs.disk), d, fs.disk);
    if r.Err? { return Err(Plain("recovery_sync_failed")); }
    ghost var e := fs.disk;
    go := fs.Probe();
    SteadyTransitive(fs.quiet, old(fs.disk), e, fs.disk);
    r := if go then Ok(()) else Err(Plain("injected_failure"));
  }

  /** `Stage::quarantine`: make the failed replacement private and move it back
      into staging. With no other writer and no failing call it succeeds exactly when
      nothing is beside the source. */
  method Quarantine(fs: FileSystem, ghost p: Plan, stage: Stage, source: Path) returns (r: Result<(), Failure>)
    requires Active(fs, p) && source == p.source && Staged(p, stage)
    requires !stage.quarantined && p.rebuilt in fs.mine
    modifies fs, stage`retain, stage`quarantined
    ensures fs.Continues() && Underway(fs, p) && fs.mine == old(fs.mine)
    ensures stage.retain && fs.notes.moved == old(fs.notes.moved) && p.Activation() !in fs.notes.strays
    ensures r.Err? ==> r.error.Plain?
    ensures r.Ok? ==> stage.quarantined && p.rebuilt !in fs.disk.dirtyNodes && p.Failed() !in fs.disk.dirtyNames
    ensures stage.quarantined ==>
              && fs.notes.strays == old(fs.notes.strays)
              && At(fs.disk.names, p.Failed(), p.rebuilt)
              && Unwinding(p, fs.disk.names, fs.notes, |fs.notes.moved|)
              && (fs.quiet ==>
                    && fs.disk.names == MoveName(old(fs.disk.names), source, p.Failed())
                    && forall s | 0 <= s < 3 :: p.Beside(s) !in old(fs.disk.names))
    ensures fs.quiet && fs.faults == old(fs.faults) ==> (r.Ok? <==> SidecarsFree(old(fs.disk.names), source, 3))
    ensures r.Ok? ==> fs.faults == old(fs.faults)
    ensures r.Ok? ==> fs.checks >= old(fs.checks) + 8
  {
    stage.retain := true;
    r := MakePrivate(fs, p, stage, source);
    if r.Err? { return; }
    ghost var d := fs.disk;
    r := TakeBack(fs, p, stage, source);
    if !stage.quarantined { return; }
    r := ConfirmQuarantined(fs, p, stage);
  }

  /** The checkpoint, and the sync of what was moved. */
  method ConfirmQuarantined(fs: FileSystem, ghost p: Plan, stage: Stage) returns (r: Result<(), Failure>)
    requires Underway(fs, p) && Staged(p, stage)
    requires At(fs.disk.names, p.Failed(), p.rebuilt) && Unwinding(p, fs.disk.names, fs.notes, |fs.notes.moved|)
    modifies fs
    ensures fs.Continues() && Underway(fs, p) && fs.mine == old(fs.mine) && fs.notes == old(fs.notes)
    ensures At(fs.disk.names, p.Failed(), p.rebuilt) && Unwinding(p, fs.disk.names, fs.notes, |fs.notes.moved|)
    ensures fs.quiet ==> fs.disk.names == old(fs.disk.names)
    ensures r.Err? ==> r.error.Plain?
    ensures r.Ok? ==> p.rebuilt !in fs.disk.dirtyNodes && p.Failed() !in fs.disk.dirtyNames
    ensures fs.faults == old(fs.faults) ==> r.Ok?
    ensures r.Ok? ==> fs.faults == old(fs.faults)
    ensures r.Ok? ==> fs.checks >= old(fs.checks) + 3
  {
    PlanKept(fs, p);
    StageIsPrivate(fs, p, stage);
    ghost var e := fs.disk;
    var go := fs.Probe();
    ghost var f := fs.disk;
    UnwindingLasts(p, e, f, fs.notes);
    if !go { return Err(Plain("injected_failure")); }
    r := SyncQuarantined(fs, stage);
    UnwindingLasts(p, f, fs.disk, fs.notes);
  }

  lemma UnwindingLasts(p: Plan, d: Disk, e: Disk, n: Notes)
    requires WellFormed(d) && Grew(d, e) && Unwinding(p, d.names, n, |n.moved|) && p.rebuilt in d.nodes
    ensures Unwinding(p, e.names, n, |n.moved|)
  {
  }

  /** Staging is still there and the source is still the replacement. */
  method LookAtActive(fs: FileSystem, ghost p: Plan, stage: Stage, source: Path) returns (r: Result<(), Failure>)
    requires Active(fs, p) && source == p.source && Staged(p, stage)
    modifies fs
    ensures fs.Continues() && Active(fs, p) && fs.mine == old(fs.mine) && fs.notes == old(fs.notes)
    ensures fs.quiet ==> fs.disk.names == old(fs.disk.names)
    ensures r.Err? ==> r.error.Plain?
    ensures fs.faults == old(fs.faults) ==> r.Ok?
    ensures r.Ok? ==> fs.faults == old(fs.faults)
    ensures r.Ok? ==> fs.checks >= old(fs.checks) + 3
  {
    StageIsPrivate(fs, p, stage);
    r := stage.Check(fs);
    if r.Err? { return; }
    var there := fs.Check(source, stage.file);
    r := if there then Ok(()) else Err(Plain("recovery_path_changed"));
  }

  /** Check that the source is still the replacement, and make it 0600. */
  method MakePrivate(fs: FileSystem, ghost p: Plan, stage: Stage, source: Path) returns (r: Result<(), Failure>)
    requires Active(fs, p) && source == p.source && Staged(p, stage) && p.rebuilt in fs.mine
    modifies fs
    ensures fs.Continues() && Active(fs, p) && fs.mine == old(fs.mine) && fs.notes == old(fs.notes)
    ensures fs.quiet ==> fs.disk.names == old(fs.disk.names)
    ensures r.Err? ==> r.error.Plain?
    ensures r.Ok? ==> p.rebuilt in fs.disk.nodes && fs.disk.nodes[p.rebuilt].mode == PRIVATE_FILE
    ensures fs.faults == old(fs.faults) ==> r.Ok?
    ensures r.Ok? ==> fs.faults == old(fs.faults)
    ensures r.Ok? ==> fs.checks >= old(fs.checks) + 3
  {
    r := LookAtActive(fs, p, stage, source);
    if r.Err? { return; }
    r := Restrict(fs, p, stage.file);
  }

  method Restrict(fs: FileSystem, ghost p: Plan, file: Inode) returns (r: Result<(), Failure>)
    requires Active(fs, p) && file == p.rebuilt && p.rebuilt in fs.mine
    modifies fs
    ensures fs.Continues() && Active(fs, p) && fs.mine == old(fs.mine) && fs.notes == old(fs.notes)
    ensures fs.quiet ==> fs.disk.names == old(fs.disk.names)
    ensures r.Err? ==> r.error.Plain?
    ensures r.Ok? ==> p.rebuilt in fs.disk.nodes && fs.disk.nodes[p.rebuilt].mode == PRIVATE_FILE
    ensures fs.faults == old(fs.faults) ==> r.Ok?
    ensures r.Ok? ==> fs.faults == old(fs.faults)
  {
    NamesKept(fs, p);
    p.StagingApart();
    var done := fs.SetMode(file, PRIVATE_FILE);
    r := if done then Ok(()) else Err(Plain("filesystem_failure"));
  }

  /** Move the replacement from the source back into staging. */
  method TakeBack(fs: FileSystem, ghost p: Plan, stage: Stage, source: Path) returns (r: Result<(), Failure>)
    requires Active(fs, p) && source == p.source && stage.path == p.staging && stage.file == p.rebuilt
    requires p.rebuilt in fs.disk.nodes && fs.disk.nodes[p.rebuilt].mode == PRIVATE_FILE && !stage.quarantined
    modifies fs, stage`quarantined
    ensures fs.Continues() && Underway(fs, p) && fs.mine == old(fs.mine)
    ensures fs.notes.moved == old(fs.notes.moved) && p.Activation() !in fs.notes.strays
    ensures r.Err? ==> r.error.Plain?
    ensures r.Ok? <==> stage.quarantined
    ensures stage.quarantined ==>
              && fs.notes.strays == old(fs.notes.strays)
              && At(fs.disk.names, p.Failed(), p.rebuilt)
              && Unwinding(p, fs.disk.names, fs.notes, |fs.notes.moved|)
              && (fs.quiet ==>
                    && fs.disk.names == MoveName(old(fs.disk.names), source, p.Failed())
                    && forall s | 0 <= s < 3 :: p.Beside(s) !in old(fs.disk.names))
    ensures fs.quiet && fs.faults == old(fs.faults) ==> (r.Ok? <==> SidecarsFree(old(fs.disk.names), source, 3))
    ensures r.Ok? ==> fs.faults == old(fs.faults)
    ensures r.Ok? ==> fs.checks >= old(fs.checks) + 2
  {
    r := SidecarsAbsent(fs, source);
    ActiveLasts(fs, p);
    if r.Err? { return; }
    if fs.quiet { AbsentStays(fs, p); }
    r := MoveToStaging(fs, p, stage, source);
  }

  lemma MayQuarantine(fs: FileSystem, p: Plan)
    requires Active(fs, p) && p.rebuilt in fs.disk.nodes && fs.disk.nodes[p.rebuilt].mode == PRIVATE_FILE
    ensures p.Valid() && p.IsLog(fs.notes.moved) && p.AllowedRename(fs.disk, fs.notes, p.source, p.Failed())
    ensures Entry(p.source, p.Failed(), p.rebuilt) != p.Activation()
    ensures fs.quiet ==> p.Failed() !in fs.disk.names
  {
    NamesKept(fs, p);
    fs.Sound();
    p.StagingApart();
    assert p.Quarantines(fs.disk, fs.notes, p.source, p.Failed());
  }

  method MoveToStaging(fs: FileSystem, ghost p: Plan, stage: Stage, source: Path) returns (r: Result<(), Failure>)
    requires Active(fs, p) && source == p.source && stage.path == p.staging && stage.file == p.rebuilt
    requires p.rebuilt in fs.disk.nodes && fs.disk.nodes[p.rebuilt].mode == PRIVATE_FILE && !stage.quarantined
    modifies fs, stage`quarantined
    ensures fs.Continues() && Underway(fs, p) && fs.mine == old(fs.mine)
    ensures fs.notes.moved == old(fs.notes.moved) && p.Activation() !in fs.notes.strays
    ensures r.Err? ==> r.error.Plain?
    ensures r.Ok? <==> stage.quarantined
    ensures stage.quarantined ==>
              && fs.notes.strays == old(fs.notes.strays)
              && At(fs.disk.names, p.Failed(), p.rebuilt)
              && Unwinding(p, fs.disk.names, fs.notes, |fs.notes.moved|)
              && (fs.quiet ==> fs.disk.names == MoveName(old(fs.disk.names), source, p.Failed()))
    ensures fs.quiet && fs.faults == old(fs.faults) ==> r.Ok?
    ensures r.Ok? ==> fs.faults == old(fs.faults)
    ensures r.Ok? ==> fs.checks >= old(fs.checks) + 2
  {
    MayQuarantine(fs, p);
    ghost var lost;
    r, lost := MoveNoReplace(fs, p, source, stage.Failed(), stage.file);
    if r.Ok? {
      QuarantineUnwinds(p, fs.quiet, old(fs.disk), fs.disk, fs.notes);
      stage.quarantined := true;
    }
  }

  lemma QuarantineUnwinds(p: Plan, quiet: bool, d: Disk, e: Disk, n: Notes)
    requires p.Valid() && p.IsLog(n.moved) && p.Archived(d.names, n.moved) && p.rebuilt in d.nodes
    requires Shifted(quiet, d, e, p.source, p.Failed())
    ensures Unwinding(p, e.names, n, |n.moved|)
  {
    p.PathsDiffer();
    p.StagingApart();
    forall j | 0 <= j < |n.moved| ensures At(e.names, n.moved[j].to, n.moved[j].ino) {
      assert j > 0 ==> p.IsSidecar(n.moved[j]);
      assert j == 0 ==> n.moved[j] == p.Main();
    }
  }

  /** Make the quarantined file and both directories durable. */
  method SyncQuarantined(fs: FileSystem, stage: Stage) returns (r: Result<(), Failure>)
    requires fs.Valid() && stage.file in fs.disk.nodes
    modifies fs
    ensures fs.Continues() && fs.mine == old(fs.mine) && fs.notes == old(fs.notes)
    ensures Steady(fs.quiet, old(fs.disk), fs.disk)
    ensures r.Err? ==> r.error.Plain?
    ensures r.Ok? ==>
              && stage.file !in fs.disk.dirtyNodes
              && forall q | q in old(fs.disk.names) && (q.dir == stage.path.dir || q.dir == stage.Inside()) :: q !in fs.disk.dirtyNames
    ensures fs.faults == old(fs.faults) && stage.Private(old(fs.disk)) ==> r.Ok?
    ensures r.Ok? ==> fs.faults == old(fs.faults)
    ensures r.Ok? ==> fs.checks >= old(fs.checks) + 2
  {
    var synced := fs.SyncHandle(stage.file);
    if !synced {
      return Err(Plain("filesystem_failure"));
    }
    SyncIsSteady(fs.quiet, old(fs.disk), SyncNode(stage.file), fs.disk);
    ghost var d := fs.disk;
    r := stage.Sync(fs);
    SteadyTransitive(fs.quiet, old(fs.disk), d, fs.disk);
  }
}
