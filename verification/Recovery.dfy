/** `recover`: the checks, the staging, the rebuild, the transfer, and what is
    true however it returns. */
module Recovery {
  import opened Wrappers
  import opened Databases
  import opened Paths
  import opened Disks
  import opened Custody
  import opened FileSystems
  import opened Moves
  import opened Staging
  import opened Preservation
  import opened Adapters
  import opened Activation
  import opened Transfer
  import opened Rebuild

  const MEMORY := Path([], ":memory:")

  // Before anything is created

  /** Only looks were taken. */
  ghost predicate OnlyLooked(quiet: bool, d: Disk, e: Disk, n: Notes, m: Notes) {
    Drift(quiet, d, e) && m == n.(absent := m.absent)
  }

  /** One sidecar name of the archive is free, and the source's is, or links a
      plain file with one name. */
  ghost predicate SlotClear(d: Disk, source: Path, archive: Path, s: nat)
    requires s < 3
  {
    && Sidecar(archive, SIDECARS[s]) !in d.names
    && (Sidecar(source, SIDECARS[s]) in d.names ==> SoleFile(d, Sidecar(source, SIDECARS[s])))
  }

  ghost predicate SlotsClear(d: Disk, source: Path, archive: Path, n: nat)
    requires n <= 3
  {
    forall s | 0 <= s < n :: SlotClear(d, source, archive, s)
  }

  /** The archive's four names are free, and the source's sidecars are as they should be. */
  ghost predicate NamesFit(d: Disk, source: Path, archive: Path) {
    archive !in d.names && SlotsClear(d, source, archive, 3)
  }

  /** What is wrong with one sidecar's two names, and the code it is reported under. */
  ghost function SlotTrouble(d: Disk, source: Path, archive: Path, s: nat): Option<string>
    requires s < 3
  {
    if Sidecar(archive, SIDECARS[s]) in d.names then Some("path_exists")
    else if !SlotClear(d, source, archive, s) then Some("unsafe_recovery_file")
    else None
  }

  /** The first thing wrong from sidecar `s` on. */
  ghost function SlotsTrouble(d: Disk, source: Path, archive: Path, s: nat): (code: Option<string>)
    requires s <= 3
    ensures code == None <==> forall t | s <= t < 3 :: SlotClear(d, source, archive, t)
    decreases 3 - s
  {
    if s == 3 then None
    else
      match SlotTrouble(d, source, archive, s)
      case Some(code) => assert !SlotClear(d, source, archive, s); Some(code)
      case None => SlotsTrouble(d, source, archive, s + 1)
  }

  ghost function NamesTrouble(d: Disk, source: Path, archive: Path): (code: Option<string>)
    ensures code == None <==> NamesFit(d, source, archive)
  {
    if archive in d.names then Some("path_exists") else SlotsTrouble(d, source, archive, 0)
  }

  /** Only looks were taken since disk `d`, and they found the archive's first
      sidecar names free and, if none of them failed and no one interfered, the
      source's as they should be. */
  ghost predicate Looked(quiet: bool, d: Disk, e: Disk, n: Notes, m: Notes, source: Path, archive: Path, s: nat, fault: bool)
    requires s <= 3
  {
    && OnlyLooked(quiet, d, e, n, m) && SidecarsFree(d.names, archive, s)
    && (quiet && !fault ==> SlotsClear(d, source, archive, s))
  }

  lemma LookedOnce(quiet: bool, d: Disk, n: Notes, e: Disk, m: Notes, f: Disk, k: Notes, source: Path, archive: Path, s: nat, fault: bool, more: bool)
    requires s < 3 && Looked(quiet, d, e, n, m, source, archive, s, fault) && OnlyLooked(quiet, e, f, m, k)
    ensures OnlyLooked(quiet, d, f, n, k)
    ensures Sidecar(archive, SIDECARS[s]) !in e.names && (quiet && !more ==> SlotClear(e, source, archive, s)) ==>
              Looked(quiet, d, f, n, k, source, archive, s + 1, fault || more)
    ensures quiet && !fault ==> SlotsTrouble(d, source, archive, 0) == SlotsTrouble(e, source, archive, s)
  {
    GrewTransitive(d, e, f);
    if Sidecar(archive, SIDECARS[s]) !in e.names { OneMoreFree(d, e, archive, s); }
    if quiet && !fault { SlotsSoFar(d, source, archive, s); }
  }

  lemma {:induction false} SlotsSoFar(d: Disk, source: Path, archive: Path, s: nat)
    requires s <= 3 && SlotsClear(d, source, archive, s)
    ensures SlotsTrouble(d, source, archive, 0) == SlotsTrouble(d, source, archive, s)
  {
    if s > 0 {
      assert SlotClear(d, source, archive, s - 1);
      SlotsSoFar(d, source, archive, s - 1);
    }
  }

  /** The archive's names are free, and what lies beside the source is plain files.
      With no other writer and no failing call it succeeds exactly then. */
  method CheckNames(fs: FileSystem, source: Path, archive: Path) returns (r: Result<(), Failure>)
    requires fs.Valid()
    modifies fs
    ensures fs.Continues() && fs.mine == old(fs.mine)
    ensures OnlyLooked(fs.quiet, old(fs.disk), fs.disk, old(fs.notes), fs.notes)
    ensures r.Err? ==> r.error.Plain?
    ensures r.Ok? ==>
              archive !in old(fs.disk.names) && SidecarsFree(old(fs.disk.names), archive, 3)
    ensures fs.quiet && fs.faults == old(fs.faults) ==>
              (if r.Ok? then NamesFit(old(fs.disk), source, archive)
               else r.error.Plain? && NamesTrouble(old(fs.disk), source, archive) == Some(r.error.code))
    ensures r.Ok? ==> fs.faults <= old(fs.faults) + 3
  {
    r := fs.Absent(archive);
    if r.Err? { return; }
    ghost var d := fs.disk;
    r := CheckSidecars(fs, source, archive);
    GrewTransitive(old(fs.disk), d, fs.disk);
  }

  method CheckSidecars(fs: FileSystem, source: Path, archive: Path) returns (r: Result<(), Failure>)
    requires fs.Valid()
    modifies fs
    ensures fs.Continues() && fs.mine == old(fs.mine)
    ensures OnlyLooked(fs.quiet, old(fs.disk), fs.disk, old(fs.notes), fs.notes)
    ensures r.Err? ==> r.error.Plain?
    ensures r.Ok? ==> SidecarsFree(old(fs.disk.names), archive, 3)
    ensures fs.quiet && fs.faults == old(fs.faults) ==>
              (if r.Ok? then SlotsClear(old(fs.disk), source, archive, 3)
               else r.error.Plain? && SlotsTrouble(old(fs.disk), source, archive, 0) == Some(r.error.code))
    ensures r.Ok? ==> fs.faults <= old(fs.faults) + 3
  {
    r := Ok(());
    for s := 0 to 3
      invariant r.Ok? && fs.Continues() && fs.mine == old(fs.mine)
      invariant fs.faults <= old(fs.faults) + s
      invariant Looked(fs.quiet, old(fs.disk), fs.disk, old(fs.notes), fs.notes, source, archive, s, fs.faults != old(fs.faults))
    {
      ghost var d, n, f := fs.disk, fs.notes, fs.faults;
      r := CheckSidecar(fs, source, archive, s);
      LookedOnce(fs.quiet, old(fs.disk), old(fs.notes), d, n, fs.disk, fs.notes, source, archive, s, f != old(fs.faults), fs.faults != f);
      if r.Err? { return; }
    }
  }

  method CheckSidecar(fs: FileSystem, source: Path, archive: Path, s: nat) returns (r: Result<(), Failure>)
    requires fs.Valid() && s < 3
    modifies fs
    ensures fs.Continues() && fs.mine == old(fs.mine)
    ensures OnlyLooked(fs.quiet, old(fs.disk), fs.disk, old(fs.notes), fs.notes)
    ensures r.Err? ==> r.error.Plain?
    ensures r.Ok? ==> Sidecar(archive, SIDECARS[s]) !in old(fs.disk.names)
    ensures fs.quiet && fs.faults == old(fs.faults) ==>
              (if r.Ok? then SlotClear(old(fs.disk), source, archive, s)
               else r.error.Plain? && SlotTrouble(old(fs.disk), source, archive, s) == Some(r.error.code))
    ensures r.Ok? ==> fs.faults <= old(fs.faults) + 1
  {
    r := fs.Absent(Sidecar(archive, SIDECARS[s]));
    if r.Err? { return; }
    ghost var d := fs.disk;
    r := CheckBeside(fs, Sidecar(source, SIDECARS[s]));
    GrewTransitive(old(fs.disk), d, fs.disk);
  }

  /** What is seen at the name must be a plain file; what cannot be seen passes. */
  method CheckBeside(fs: FileSystem, from: Path) returns (r: Result<(), Failure>)
    requires fs.Valid()
    modifies fs
    ensures fs.Continues() && fs.mine == old(fs.mine) && fs.notes == old(fs.notes) && Drift(fs.quiet, old(fs.disk), fs.disk)
    ensures r.Err? ==> r.error.Plain?
    ensures fs.quiet && fs.faults == old(fs.faults) ==> (r.Ok? <==> (from in old(fs.disk.names) ==> SoleFile(old(fs.disk), from)))
    ensures r.Ok? ==> fs.faults <= old(fs.faults) + 1
    ensures fs.quiet && fs.faults == old(fs.faults) && r.Err? ==> r.error == Plain("unsafe_recovery_file")
  {
    r := Ok(());
    var look := fs.Stat(from);
    if look.Found? {
      ghost var e := fs.disk;
      var file := PlainFile(fs, from);
      GrewTransitive(old(fs.disk), e, fs.disk);
      if file.Err? { r := Err(file.error); }
    }
  }

  /** `reject_extended_metadata` on the source and on its directory. */
  method PlainMetadata(fs: FileSystem) returns (r: Result<(), Failure>)
    requires fs.Valid()
    modifies fs
    ensures fs.Continues() && fs.mine == old(fs.mine) && fs.notes == old(fs.notes) && Drift(fs.quiet, old(fs.disk), fs.disk)
    ensures r.Err? ==> r.error.Plain?
    ensures r.Ok? <==> fs.faults == old(fs.faults)
    ensures r.Ok? ==> fs.checks >= old(fs.checks) + 2
  {
    r := Ok(());
    var plain := fs.Probe();
    if plain {
      ghost var d := fs.disk;
      plain := fs.Probe();
      GrewTransitive(old(fs.disk), d, fs.disk);
    }
    if !plain { r := Err(Plain("recovery_metadata_unsupported")); }
  }

  /** The path links a plain file with that one name, the one the adapter opened,
      with mode bits that can be kept. */
  ghost predicate SourceFits(d: Disk, source: Path, identity: Option<Inode>) {
    SoleFile(d, source) && d.nodes[d.names[source]].mode & REFUSED_BITS == 0 && identity == Some(d.names[source])
  }

  /** What is wrong with the source's file. */
  ghost function FileTrouble(d: Disk, source: Path): Option<string> {
    if source !in d.names then Some("filesystem_failure")
    else if !SoleFile(d, source) then Some("unsafe_recovery_file")
    else if d.nodes[d.names[source]].mode & REFUSED_BITS != 0 then Some("unsafe_recovery_mode")
    else None
  }

  /** What is wrong with the source itself. */
  ghost function SourceTrouble(d: Disk, source: Path, identity: Option<Inode>): (code: Option<string>)
    ensures code == None <==> SourceFits(d, source, identity)
  {
    if FileTrouble(d, source).Some? then FileTrouble(d, source)
    else if identity != Some(d.names[source]) then Some("recovery_path_changed")
    else None
  }

  /** The inode is the plain file of that name, with that mode. */
  ghost predicate IsSource(d: Disk, source: Path, original: Inode, mode: Mode) {
    OnlyAt(d.names, original, source) && Holds(d, original, Regular, mode)
  }

  lemma SourceStays(quiet: bool, d: Disk, e: Disk, f: Disk, source: Path, original: Inode, mode: Mode)
    requires Drift(quiet, d, e) && Drift(quiet, e, f) && WellFormed(e) && IsSource(e, source, original, mode)
    ensures Drift(quiet, d, f) && IsSource(f, source, original, mode)
    ensures original in d.nodes ==> At(d.names, source, original)
    ensures quiet ==> d == e && At(d.names, source, original)
  {
    GrewTransitive(d, e, f);
    GrewKeepsOnlyAt(e, f, original, source);
  }

  /** A plain file with mode bits that can be kept. */
  method KeepableFile(fs: FileSystem, source: Path) returns (r: Result<(Inode, Mode), Failure>)
    requires fs.Valid()
    modifies fs
    ensures fs.Continues() && fs.mine == old(fs.mine) && fs.notes == old(fs.notes) && Drift(fs.quiet, old(fs.disk), fs.disk)
    ensures r.Ok? ==> IsSource(fs.disk, source, r.value.0, r.value.1) && r.value.1 & REFUSED_BITS == 0
    ensures r.Err? ==> r.error.Plain?
    ensures fs.quiet && fs.faults == old(fs.faults) ==>
              FileTrouble(old(fs.disk), source) == if r.Ok? then None else Some(r.error.code)
    ensures r.Ok? ==> fs.faults == old(fs.faults)
  {
    r := PlainFile(fs, source);
    if r.Ok? && r.value.1 & REFUSED_BITS != 0 { r := Err(Plain("unsafe_recovery_mode")); }
  }

  /** The source is the plain file this adapter opened, with mode bits that can be kept. */
  method CheckSource(fs: FileSystem, a: SqliteAdapter) returns (r: Result<(Inode, Mode), Failure>)
    requires fs.Valid()
    modifies fs
    ensures fs.Continues() && fs.mine == old(fs.mine) && fs.notes == old(fs.notes) && Drift(fs.quiet, old(fs.disk), fs.disk)
    ensures r.Ok? ==>
              && IsSource(fs.disk, a.path, r.value.0, r.value.1)
              && r.value.1 & REFUSED_BITS == 0 && a.identity == Some(r.value.0)
    ensures r.Err? ==> r.error.Plain?
    ensures fs.quiet && fs.faults == old(fs.faults) ==>
              (if r.Ok? then SourceFits(old(fs.disk), a.path, a.identity)
               else r.error.Plain? && SourceTrouble(old(fs.disk), a.path, a.identity) == Some(r.error.code))
    ensures r.Ok? ==> fs.faults == old(fs.faults)
    ensures r.Ok? ==> fs.checks >= old(fs.checks) + 2
  {
    r := KeepableFile(fs, a.path);
    if r.Err? { return; }
    ghost var d := fs.disk;
    var plain := PlainMetadata(fs);
    SourceStays(fs.quiet, old(fs.disk), d, fs.disk, a.path, r.value.0, r.value.1);
    if plain.Err? { return Err(plain.error); }
    if a.identity != Some(r.value.0) { return Err(Plain("recovery_path_changed")); }
  }

  /** What recovery asks before it creates anything. */
  ghost predicate Startable(d: Disk, source: Path, identity: Option<Inode>, archive: Path) {
    && source != MEMORY && ValidRecoveryPaths(source, archive) && SourceFits(d, source, identity)
    && NamesFit(d, source, archive)
  }

  /** The first thing recovery finds wrong, and the code it is reported under. */
  ghost function StartTrouble(d: Disk, source: Path, identity: Option<Inode>, archive: Path): (code: Option<string>)
    ensures code == None <==> Startable(d, source, identity, archive)
  {
    if source == MEMORY then Some("unsupported_memory_recovery")
    else if !ValidRecoveryPaths(source, archive) then Some("recovery_paths_must_share_parent")
    else if SourceTrouble(d, source, identity).Some? then SourceTrouble(d, source, identity)
    else NamesTrouble(d, source, archive)
  }

  /** Every check that comes before anything is created. With no other writer and no
      failing call it succeeds exactly when all they ask is so, and reports the first
      thing that is not. */
  method CheckAll(fs: FileSystem, a: SqliteAdapter, archive: Path) returns (r: Result<(Inode, Mode), Failure>)
    requires fs.Valid() && (a.identity.Some? ==> a.identity.value in fs.disk.nodes)
    modifies fs
    ensures fs.Continues() && fs.mine == old(fs.mine)
    ensures OnlyLooked(fs.quiet, old(fs.disk), fs.disk, old(fs.notes), fs.notes)
    ensures r.Ok? ==>
              && a.path != MEMORY && ValidRecoveryPaths(a.path, archive)
              && At(old(fs.disk.names), a.path, r.value.0) && a.identity == Some(r.value.0)
              && IsSource(fs.disk, a.path, r.value.0, r.value.1)
              && r.value.1 & REFUSED_BITS == 0
              && (fs.quiet ==> archive !in fs.disk.names && SidecarsFree(fs.disk.names, archive, 3))
    ensures r.Err? ==> r.error.Plain?
    ensures fs.quiet && fs.faults == old(fs.faults) ==>
              (if r.Ok? then Startable(old(fs.disk), a.path, a.identity, archive)
               else r.error.Plain? && StartTrouble(old(fs.disk), a.path, a.identity, archive) == Some(r.error.code))
    ensures r.Ok? ==> fs.faults <= old(fs.faults) + 3
    ensures r.Ok? ==> fs.checks >= old(fs.checks) + 2
  {
    if a.path == MEMORY { return Err(Plain("unsupported_memory_recovery")); }
    if !ValidRecoveryPaths(a.path, archive) { return Err(Plain("recovery_paths_must_share_parent")); }
    r := CheckFiles(fs, a, archive);
  }

  /** The checks that look at files. */
  method CheckFiles(fs: FileSystem, a: SqliteAdapter, archive: Path) returns (r: Result<(Inode, Mode), Failure>)
    requires fs.Valid() && (a.identity.Some? ==> a.identity.value in fs.disk.nodes)
    modifies fs
    ensures fs.Continues() && fs.mine == old(fs.mine)
    ensures OnlyLooked(fs.quiet, old(fs.disk), fs.disk, old(fs.notes), fs.notes)
    ensures r.Ok? ==>
              && At(old(fs.disk.names), a.path, r.value.0) && a.identity == Some(r.value.0)
              && IsSource(fs.disk, a.path, r.value.0, r.value.1)
              && r.value.1 & REFUSED_BITS == 0
              && (fs.quiet ==> archive !in fs.disk.names && SidecarsFree(fs.disk.names, archive, 3))
    ensures r.Err? ==> r.error.Plain?
    ensures fs.quiet && fs.faults == old(fs.faults) ==>
              (if r.Ok? then SourceFits(old(fs.disk), a.path, a.identity) && NamesFit(old(fs.disk), a.path, archive)
               else
                 && r.error.Plain?
                 && Some(r.error.code) == if SourceTrouble(old(fs.disk), a.path, a.identity).Some?
                                          then SourceTrouble(old(fs.disk), a.path, a.identity)
                                          else NamesTrouble(old(fs.disk), a.path, archive))
    ensures r.Ok? ==> fs.faults <= old(fs.faults) + 3
    ensures r.Ok? ==> fs.checks >= old(fs.checks) + 2
  {
    r := CheckSource(fs, a);
    if r.Err? { return; }
    ghost var d := fs.disk;
    var free := CheckNames(fs, a.path, archive);
    SourceStays(fs.quiet, old(fs.disk), d, fs.disk, a.path, r.value.0, r.value.1);
    if free.Err? { return Err(free.error); }
  }

  // From staging to the close of the old handle

  /** The staging directory is there, with the replacement in it. */
  ghost predicate StagingStands(p: Plan, names: Names) {
    At(names, p.staging, p.directory) && At(names, p.Temporary(), p.rebuilt)
  }

  /** Nothing has been moved: the original and the replacement are at their first names. */
  ghost predicate Standing(fs: FileSystem, p: Plan)
    reads fs
  {
    && fs.Valid() && fs.plan == Some(p)
    && fs.notes.moved == [] && fs.notes.strays == {} && fs.notes.overlooked == {} && fs.notes.live
    && fs.notes.closed == None && fs.notes.reopened == None && fs.notes.cleaning == None
    && At(fs.disk.names, p.source, p.original) && StagingStands(p, fs.disk.names)
  }

  lemma StandingNames(fs: FileSystem, p: Plan)
    requires Standing(fs, p)
    ensures p.Valid() && p.Owned(fs.disk.names) && p.original in fs.disk.nodes && p.rebuilt in fs.disk.nodes
    ensures fs.disk.nodes[p.original].mode == p.mode
    ensures !At(fs.disk.names, p.Failed(), p.rebuilt)
  {
    fs.Sound();
    p.StagingApart();
  }

  /** What the rebuild left in the replacement's file. */
  ghost predicate Carries(p: Plan, d: Disk) {
    && p.rebuilt in d.nodes && d.nodes[p.rebuilt].data.Image? && d.nodes[p.rebuilt].data.checked
    && Faithful(p.engine, p.snapshot, d.nodes[p.rebuilt].data.db)
  }

  lemma WorkSparesStaging(p: Plan, quiet: bool, d: Disk, e: Disk)
    requires p.Valid() && p.Owned(d.names) && StagingStands(p, d.names) && p.rebuilt in d.nodes
    requires Worked(quiet, d, e, p.source)
    ensures StagingStands(p, e.names) && e.nodes[p.rebuilt] == d.nodes[p.rebuilt]
    ensures p.rebuilt !in d.dirtyNodes ==> p.rebuilt !in e.dirtyNodes
    ensures p.Temporary() !in d.dirtyNames ==> p.Temporary() !in e.dirtyNames
    ensures At(d.names, p.source, p.original) ==> At(e.names, p.source, p.original)
  {
    p.StagingApart();
    p.SourceSidecarsApart();
    assert p.staging != p.Beside(0) && p.staging != p.Beside(1) && p.staging != p.Beside(2);
  }

  /** The snapshot's transaction is opened or ended on the source. */
  method OnSource(fs: FileSystem, ghost p: Plan, a: SqliteAdapter, begin: bool) returns (r: Result<(), Failure>)
    requires Standing(fs, p) && a.path == p.source
    modifies fs, a`transaction, a`refusals, a`stuck
    ensures fs.Continues() && Standing(fs, p) && fs.mine == old(fs.mine)
    ensures fs.disk.nodes[p.rebuilt] == old(fs.disk.nodes[p.rebuilt])
    ensures r.Err? ==> r.error.Plain?
    ensures a.transaction <==> if begin then r.Ok? || old(a.transaction) else r.Err? && old(a.transaction)
    ensures r.Ok? <==> a.refusals == old(a.refusals)
    ensures a.refusals >= old(a.refusals)
    ensures a.stuck == old(a.stuck) + if begin || r.Ok? then 0 else 1
    ensures fs.faults == old(fs.faults)
  {
    StandingNames(fs, p);
    if begin { r := a.Begin(fs); } else { r := a.EndTransaction(fs); }
    WorkSparesStaging(p, fs.quiet, old(fs.disk), fs.disk);
  }

  lemma StagingWorkSpares(p: Plan, quiet: bool, d: Disk, e: Disk)
    requires p.Valid() && StagingStands(p, d.names) && Worked(quiet, d, e, p.Temporary())
    ensures StagingStands(p, e.names)
    ensures At(d.names, p.source, p.original) ==> At(e.names, p.source, p.original)
  {
    p.StagingApart();
  }

  /** SQLite works inside staging, where it may create nothing new; at the end
      the file holds `image` if one is given. */
  method InStaging(fs: FileSystem, ghost p: Plan, temporary: Path, image: Option<Content>)
    requires Standing(fs, p) && temporary == p.Temporary()
    modifies fs
    ensures fs.Continues() && Standing(fs, p) && fs.mine == old(fs.mine)
    ensures image.Some? ==> p.rebuilt in fs.disk.nodes && fs.disk.nodes[p.rebuilt].data == image.value
    ensures fs.faults == old(fs.faults)
  {
    StandingNames(fs, p);
    WorkOn(fs, temporary, true, image);
    StagingWorkSpares(p, fs.quiet, old(fs.disk), fs.disk);
    StandingNames(fs, p);
  }

  /** The logical rebuild of the snapshot into the staged file. If SQLite refuses
      nothing it succeeds exactly when the source can be rebuilt. */
  method FillReplacement(fs: FileSystem, ghost p: Plan, a: SqliteAdapter, temporary: Path, engine: Engine) returns (r: Result<Versions, Failure>)
    requires Standing(fs, p) && temporary == p.Temporary() && p.engine == engine && p.snapshot == a.store
    modifies fs, a`refusals
    ensures fs.Continues() && Standing(fs, p) && fs.mine == old(fs.mine)
    ensures r.Ok? ==> Carries(p, fs.disk) && r.value == Versions(a.store.userVersion, a.store.applicationId)
    ensures r.Err? ==> r.error.Plain?
    ensures a.refusals == old(a.refusals) ==> RebuildsIff(engine, a.store, r.Ok?)
    ensures a.refusals >= old(a.refusals)
    ensures r.Ok? ==> a.refusals == old(a.refusals)
    ensures fs.faults == old(fs.faults)
  {
    InStaging(fs, p, temporary, None);
    var image;
    r, image := BuildImage(a, engine);
    InStaging(fs, p, temporary, if r.Ok? then Some(image) else None);
  }

  /** The rebuild, and what it leaves in its file. */
  method BuildImage(a: SqliteAdapter, engine: Engine) returns (r: Result<Versions, Failure>, image: Content)
    modifies a`refusals
    ensures r.Ok? ==>
              && image.Image? && image.checked && Faithful(engine, a.store, image.db)
              && r.value == Versions(a.store.userVersion, a.store.applicationId)
    ensures r.Err? ==> r.error.Plain?
    ensures a.refusals == old(a.refusals) ==> RebuildsIff(engine, a.store, r.Ok?)
    ensures a.refusals >= old(a.refusals) && (r.Ok? ==> a.refusals == old(a.refusals))
  {
    var destination := new Destination(engine);
    r := RebuildDatabase(a.store, destination);
    image := Image(destination.db, destination.checked);
    var unclosed: bool := *;
    a.Refusing(destination.refusals > 0 || unclosed || (r.Err? && destination.declines > 0));
    if r.Ok? && unclosed { r := Err(Plain("sqlite_error")); }
  }

  /** Take the snapshot, rebuild from it, and let it go, whatever came of it. The error
      is plain, and no transaction of this run's is left, exactly unless SQLite
      refuses to end it. */
  method MakeReplacement(fs: FileSystem, ghost p: Plan, a: SqliteAdapter, temporary: Path, engine: Engine) returns (r: Result<Versions, Failure>)
    requires Standing(fs, p) && temporary == p.Temporary() && p.engine == engine && p.snapshot == a.store && a.path == p.source
    modifies fs, a`transaction, a`refusals, a`stuck
    ensures fs.Continues() && Standing(fs, p) && fs.mine == old(fs.mine)
    ensures r.Ok? ==> Carries(p, fs.disk) && r.value == Versions(a.store.userVersion, a.store.applicationId) && !a.transaction
    ensures r.Err? && r.error.Plain? && a.transaction ==> old(a.transaction)
    ensures a.refusals == old(a.refusals) ==> RebuildsIff(engine, a.store, r.Ok?)
    ensures (r.Err? && !r.error.Plain? <==> a.stuck != old(a.stuck)) && (a.refusals == old(a.refusals) ==> a.stuck == old(a.stuck))
    ensures a.transaction ==> old(a.transaction) || a.stuck != old(a.stuck)
    ensures a.refusals >= old(a.refusals)
    ensures fs.faults == old(fs.faults)
    ensures r.Ok? ==> a.refusals == old(a.refusals)
  {
    var begun := OnSource(fs, p, a, true);
    if begun.Err? { return Err(begun.error); }
    var rebuild := FillReplacement(fs, p, a, temporary, engine);
    var rollback := OnSource(fs, p, a, false);
    StandingNames(fs, p);
    match (rebuild, rollback)
    case (Ok(versions), Ok(_)) => return Ok(versions);
    case (Err(error), Ok(_)) => return Err(error);
    case (Err(error), Err(failure)) => return Err(RollbackFailed(error, failure));
    case (Ok(_), Err(error)) => return Err(RollbackFailed(error, Plain("storage")));
  }

  /** The replacement keeps what it carries, and nothing has been moved. */
  ghost predicate Filled(fs: FileSystem, p: Plan)
    reads fs
  {
    Standing(fs, p) && Carries(p, fs.disk)
  }

  /** The checkpoint, staging's own check, and the source's identity. */
  method LookAround(fs: FileSystem, ghost p: Plan, stage: Stage, source: Path, original: Inode) returns (r: Result<(), Failure>)
    requires Filled(fs, p) && Staged(p, stage) && source == p.source && original == p.original
    modifies fs
    ensures fs.Continues() && Filled(fs, p) && fs.mine == old(fs.mine) && Grew(old(fs.disk), fs.disk)
    ensures r.Err? ==> r.error.Plain?
    ensures fs.faults == old(fs.faults) ==> r.Ok?
    ensures r.Ok? ==> fs.faults == old(fs.faults)
    ensures r.Ok? ==> fs.checks >= old(fs.checks) + 4
  {
    StageIsPrivate(fs, p, stage);
    r := LookAgain(fs, stage);
    if r.Err? { return; }
    ghost var d := fs.disk;
    var there := fs.Check(source, original);
    GrewTransitive(old(fs.disk), d, fs.disk);
    r := if there then Ok(()) else Err(Plain("recovery_path_changed"));
  }

  /** `Stage::apply_mode`. */
  method ApplyMode(fs: FileSystem, ghost p: Plan, stage: Stage, mode: Mode) returns (r: Result<(), Failure>)
    requires Filled(fs, p) && Staged(p, stage) && p.rebuilt in fs.mine
    modifies fs
    ensures fs.Continues() && Filled(fs, p) && fs.mine == old(fs.mine)
    ensures r.Ok? ==> fs.disk.nodes[p.rebuilt].mode == mode & KEPT_BITS && p.rebuilt !in fs.disk.dirtyNodes
    ensures r.Err? ==> r.error.Plain?
    ensures fs.faults == old(fs.faults) ==> r.Ok?
    ensures r.Ok? ==> fs.faults == old(fs.faults)
    ensures r.Ok? ==> fs.checks > old(fs.checks)
  {
    var there := fs.Check(stage.Rebuilt(), stage.file);
    if !there { return Err(Plain("recovery_path_changed")); }
    r := SetMode(fs, p, stage.file, mode & KEPT_BITS);
    if r.Err? { return; }
    r := SyncReplacement(fs, p, stage.file);
  }

  method SyncReplacement(fs: FileSystem, ghost p: Plan, file: Inode) returns (r: Result<(), Failure>)
    requires Filled(fs, p) && file == p.rebuilt
    modifies fs
    ensures fs.Continues() && Filled(fs, p) && fs.mine == old(fs.mine)
    ensures fs.disk.nodes[p.rebuilt] == old(fs.disk.nodes[p.rebuilt])
    ensures r.Ok? ==> p.rebuilt !in fs.disk.dirtyNodes
    ensures r.Err? ==> r.error.Plain?
    ensures fs.faults == old(fs.faults) ==> r.Ok?
    ensures r.Ok? ==> fs.faults == old(fs.faults)
  {
    var done := fs.SyncHandle(file);
    r := if done then Ok(()) else Err(Plain("filesystem_failure"));
  }

  method SetMode(fs: FileSystem, ghost p: Plan, file: Inode, mode: Mode) returns (r: Result<(), Failure>)
    requires Filled(fs, p) && file == p.rebuilt && p.rebuilt in fs.mine
    modifies fs
    ensures fs.Continues() && Filled(fs, p) && fs.mine == old(fs.mine)
    ensures r.Ok? ==> fs.disk.nodes[p.rebuilt].mode == mode
    ensures r.Err? ==> r.error.Plain?
    ensures fs.faults == old(fs.faults) ==> r.Ok?
    ensures r.Ok? ==> fs.faults == old(fs.faults)
  {
    StandingNames(fs, p);
    var done := fs.SetMode(file, mode);
    r := if done then Ok(()) else Err(Plain("filesystem_failure"));
  }

  lemma RebuiltLinksFile(fs: FileSystem, p: Plan)
    requires Standing(fs, p)
    ensures LinksFile(fs.disk, p.Temporary()) && Opens(fs.disk, p.Temporary())
  {
    fs.Sound();
    assert p.Mine(p.rebuilt) && p.rebuilt != p.directory;
    FileOpens(fs.disk, p.Temporary());
  }

  /** Settle the replacement's mode and sync it. */
  method SettleReplacement(fs: FileSystem, ghost p: Plan, stage: Stage, mode: Mode) returns (r: Result<(), Failure>)
    requires Filled(fs, p) && Staged(p, stage) && p.rebuilt in fs.mine
    requires mode == p.mode && mode & REFUSED_BITS == 0
    modifies fs
    ensures fs.Continues() && Filled(fs, p) && fs.mine == old(fs.mine)
    ensures r.Ok? ==> Ready(p, fs.disk) && p.Temporary() !in fs.disk.dirtyNames
    ensures r.Err? ==> r.error.Plain?
    ensures fs.faults == old(fs.faults) ==> r.Ok?
    ensures r.Ok? ==> fs.faults == old(fs.faults)
    ensures r.Ok? ==> fs.checks > old(fs.checks)
  {
    p.ModeKept(mode);
    r := ApplyMode(fs, p, stage, mode);
    if r.Err? { return; }
    RebuiltLinksFile(fs, p);
    r := SyncDatabaseFiles(fs, stage.Rebuilt(), false);
  }

  /** Look, settle the replacement, look again. */
  method CompleteReplacement(fs: FileSystem, ghost p: Plan, stage: Stage, source: Path, original: Inode, mode: Mode) returns (r: Result<(), Failure>)
    requires Filled(fs, p) && Staged(p, stage) && p.rebuilt in fs.mine && source == p.source && original == p.original
    requires mode == p.mode && mode & REFUSED_BITS == 0
    modifies fs
    ensures fs.Continues() && Filled(fs, p) && fs.mine == old(fs.mine)
    ensures r.Ok? ==> Ready(p, fs.disk) && p.Temporary() !in fs.disk.dirtyNames
    ensures r.Err? ==> r.error.Plain?
    ensures fs.faults == old(fs.faults) ==> r.Ok?
    ensures r.Ok? ==> fs.faults == old(fs.faults)
    ensures r.Ok? ==> fs.checks >= old(fs.checks) + 9
  {
    r := LookAround(fs, p, stage, source, original);
    if r.Err? { return; }
    r := SettleReplacement(fs, p, stage, mode);
    if r.Err? { return; }
    r := LookAround(fs, p, stage, source, original);
  }

  /** The last steps before the close, and the close. */
  method FinishReplacement(fs: FileSystem, ghost p: Plan, stage: Stage, a: SqliteAdapter, original: Inode, mode: Mode) returns (r: Result<(), Failure>)
    requires Filled(fs, p) && Staged(p, stage) && p.rebuilt in fs.mine && a.path == p.source && original == p.original
    requires mode == p.mode && mode & REFUSED_BITS == 0 && a.handle == Open(p.original)
    modifies fs, a`handle, a`transaction, a`refusals
    ensures fs.Continues() && Standing(fs, p) && fs.mine == old(fs.mine)
    ensures a.transaction ==> old(a.transaction)
    ensures r.Ok? ==> p.Temporary() !in fs.disk.dirtyNames
    ensures if r.Ok? then Ready(p, fs.disk) && a.handle == Shut && !a.transaction else r.error.Plain? && a.handle == old(a.handle)
    ensures fs.faults == old(fs.faults) ==> (r.Ok? <==> a.refusals == old(a.refusals))
    ensures a.refusals >= old(a.refusals)
    ensures r.Ok? ==> fs.faults == old(fs.faults)
    ensures r.Ok? ==> fs.checks >= old(fs.checks) + 9
    ensures r.Ok? ==> a.refusals == old(a.refusals)
  {
    r := CompleteReplacement(fs, p, stage, a.path, original, mode);
    if r.Err? { return; }
    StandingNames(fs, p);
    ghost var e := fs.disk;
    r := a.Close(fs);
    WorkSparesStaging(p, fs.quiet, e, fs.disk);
  }

  /** From the snapshot to the close of the old handle. */
  method PrepareReplacement(fs: FileSystem, ghost p: Plan, stage: Stage, a: SqliteAdapter, original: Inode, mode: Mode, engine: Engine)
    returns (r: Result<Versions, Failure>)
    requires Standing(fs, p) && Staged(p, stage) && p.rebuilt in fs.mine && a.path == p.source && original == p.original
    requires p.engine == engine && p.snapshot == a.store && mode == p.mode && mode & REFUSED_BITS == 0
    requires a.handle == Open(p.original)
    modifies fs, a`handle, a`transaction, a`refusals, a`stuck
    ensures fs.Continues() && Standing(fs, p) && fs.mine == old(fs.mine)
    ensures r.Ok? ==>
              && Ready(p, fs.disk) && a.handle == Shut && !a.transaction
              && r.value == Versions(a.store.userVersion, a.store.applicationId)
    ensures r.Err? ==> a.handle == old(a.handle) && (r.error.Plain? && a.transaction ==> old(a.transaction))
    ensures fs.faults == old(fs.faults) && a.refusals == old(a.refusals) ==> RebuildsIff(engine, a.store, r.Ok?)
    ensures (r.Err? && !r.error.Plain? <==> a.stuck != old(a.stuck)) && (a.refusals == old(a.refusals) ==> a.stuck == old(a.stuck))
    ensures a.transaction ==> old(a.transaction) || a.stuck != old(a.stuck)
    ensures a.refusals >= old(a.refusals)
    ensures r.Ok? ==> fs.faults == old(fs.faults)
    ensures r.Ok? ==> fs.checks >= old(fs.checks) + 9
    ensures r.Ok? ==> a.refusals == old(a.refusals)
  {
    r := MakeReplacement(fs, p, a, stage.Rebuilt(), engine);
    if r.Err? { return; }
    var done := FinishReplacement(fs, p, stage, a, original, mode);
    if done.Err? { r := Err(done.error); }
  }

  // However it returns

  /** Every sidecar of the close is under its archive name. */
  ghost predicate SidecarsPreserved(p: Plan, n: Notes, names: Names) {
    && n.closed.Some?
    && forall s | 0 <= s < 3 && p.Beside(s) in n.closed.value.names :: At(names, p.Kept(s), n.closed.value.names[p.Beside(s)])
  }

  /** Every sidecar of the close is at one of its two names, now or, once the
      original has been reopened, when it was. */
  ghost predicate SidecarsAccounted(p: Plan, n: Notes, names: Names) {
    var found := if n.reopened.Some? then n.reopened.value.names else names;
    n.closed.Some? ==>
      forall s | 0 <= s < 3 && p.Beside(s) in n.closed.value.names ::
        At(found, p.Beside(s), n.closed.value.names[p.Beside(s)]) || At(found, p.Kept(s), n.closed.value.names[p.Beside(s)])
  }

  /** The three outcomes. Success: the replacement is at the source, the original
      and every sidecar of the close at its archive name, and a power loss would
      undo nothing of that that is in the log. A
      plain error: the original is at the source and open, with no transaction this
      run began, in the directory as it was at the close exactly when no move went
      unconfirmed. A failed rollback: the original still has its one name, the
      source's or the archive's. Where no call has failed (`calm`), the adapter has
      recorded the inode now at the source, and no archived file was overlooked. */
  ghost predicate Concluded(fs: FileSystem, p: Plan, a: SqliteAdapter, r: Result<Versions, Failure>, had: bool, calm: bool)
    reads fs, a
  {
    && fs.Valid() && fs.plan == Some(p)
    && (fs.notes.closed == None ==> r.Err? && fs.notes.moved == [] && fs.notes.strays == {})
    && SidecarsAccounted(p, fs.notes, fs.disk.names)
    && match r
       case Ok(versions) =>
         && versions == Versions(p.snapshot.userVersion, p.snapshot.applicationId)
         && At(fs.disk.names, p.source, p.rebuilt) && p.Activation() !in fs.notes.strays
         && OnlyAt(fs.disk.names, p.original, p.archive) && p.Archived(fs.disk.names, fs.notes.moved)
         && fs.notes.moved != [] && Lasting(fs, p)
         && SidecarsPreserved(p, fs.notes, fs.disk.names) && fs.notes.reopened == None
         && AllLogged(p, fs.notes.closed.value.names, fs.notes.moved)
         && a.handle == Open(p.rebuilt) && !a.transaction && (a.identity == None || a.identity == Some(p.rebuilt))
         && (calm ==> a.identity == Some(p.rebuilt) && AllSeen(fs.notes, fs.notes.moved))
       case Err(Plain(_)) =>
         && OnlyAt(fs.disk.names, p.original, p.source)
         && a.handle == Open(p.original) && (a.transaction ==> had) && (a.identity == None || a.identity == Some(p.original))
         && (calm || fs.notes.closed == None ==> a.identity == Some(p.original))
         && (fs.notes.closed.Some? ==> Undone(p, fs.notes.closed.value.names, fs.notes, fs.quiet))
       case Err(RollbackFailed(_, _)) =>
         OnlyAt(fs.disk.names, p.original, p.source) || OnlyAt(fs.disk.names, p.original, p.archive)
  }

  /** Custody, order, and the sidecars, from what holds at every moment. */
  lemma ConcludesFromInvariant(fs: FileSystem, p: Plan)
    requires fs.Valid() && fs.plan == Some(p)
    ensures p.Valid() && p.HasCustody(fs.disk.names)
    ensures At(fs.disk.names, p.source, p.original) ==> OnlyAt(fs.disk.names, p.original, p.source)
    ensures At(fs.disk.names, p.source, p.rebuilt) ==> OnlyAt(fs.disk.names, p.original, p.archive)
    ensures At(fs.disk.names, p.source, p.rebuilt) && p.Activation() !in fs.notes.strays ==>
              p.Archived(fs.disk.names, fs.notes.moved)
    ensures SidecarsAccounted(p, fs.notes, fs.disk.names)
    ensures At(fs.disk.names, p.source, p.rebuilt) && p.Activation() !in fs.notes.strays && fs.notes.closed.Some? && fs.notes.reopened == None ==>
              SidecarsPreserved(p, fs.notes, fs.disk.names)
  {
    fs.Sound();
    SidecarsFromRun(fs, p);
  }

  lemma SidecarsFromRun(fs: FileSystem, p: Plan)
    requires fs.Valid() && fs.plan == Some(p)
    ensures SidecarsAccounted(p, fs.notes, fs.disk.names)
    ensures At(fs.disk.names, p.source, p.rebuilt) && p.Activation() !in fs.notes.strays && fs.notes.closed.Some? && fs.notes.reopened == None ==>
              SidecarsPreserved(p, fs.notes, fs.disk.names)
  {
    fs.SidecarsSound();
  }

  /** How an error comes to be what it is. Before the close it is plain, and no
      transaction of this run's is left, exactly unless SQLite refused to end it.
      After the close the run has undone what it did, from some time on: with no other
      writer, no failing call and no refusal from then until the clean-up, and nothing
      left beside the replacement, the error is plain exactly unless a move away from
      or to the source went unconfirmed; if nothing had failed before, it was a name in
      the way at the close that the run gave up for. `faults`, `refusals` and `stuck` are the counts
      at the start, `end` the failed calls at the end. */
  ghost predicate Accounted(fs: FileSystem, p: Plan, a: SqliteAdapter, r: Result<Versions, Failure>, faults: nat, refusals: nat, stuck: nat, end: nat)
    reads fs, a
  {
    && (fs.notes.closed == None ==> r.Err? && (r.error.Plain? <==> a.stuck == stuck) && a.undoing == None)
    && (fs.notes.closed.Some? ==> a.stuck == stuck && (r.Ok? <==> a.undoing == None))
    && (a.undoing.Some? ==> faults <= a.undoing.value.faults <= end && refusals <= a.undoing.value.refusals <= a.refusals)
    && (fs.quiet && a.undoing == Some(Mark(faults, refusals)) ==>
          fs.notes.closed.Some? && !CanPreserve(p, fs.notes.closed.value))
    && (r.Err? && fs.quiet && a.undoing == Some(Mark(end, a.refusals)) && StaysAlone(p, fs.trail, fs.since) ==>
          (r.error.Plain? <==> !StrayedAtSource(p, fs.notes)))
    && (r.Err? && fs.quiet && end == faults && a.refusals == refusals ==> r.error.Plain?)
    && (a.refusals == refusals ==> a.stuck == stuck)
  }

  /** From the adopted plan to the result, before the clean-up. */
  method RunRecovery(fs: FileSystem, ghost p: Plan, stage: Stage, a: SqliteAdapter, archive: Path, original: Inode, mode: Mode, engine: Engine)
    returns (r: Result<Versions, Failure>)
    requires Standing(fs, p) && Staged(p, stage) && !stage.retain && !stage.quarantined && p.rebuilt in fs.mine
    requires p.Main() == Entry(a.path, archive, original) && p.engine == engine && p.snapshot == a.store
    requires mode == p.mode && mode & REFUSED_BITS == 0
    requires a.handle == Open(p.original) && a.identity == Some(p.original) && a.undoing == None
    modifies fs, a, stage`retain, stage`quarantined
    ensures fs.Continues() && fs.mine == old(fs.mine) && fs.notes.cleaning == None
    ensures Concluded(fs, p, a, r, old(a.transaction), fs.faults == old(fs.faults))
    ensures Leaves(p, fs, stage, r.Err?)
    ensures Accounted(fs, p, a, r, old(fs.faults), old(a.refusals), old(a.stuck), fs.faults)
    ensures a.transaction ==> old(a.transaction) || a.stuck != old(a.stuck)
    ensures fs.quiet && fs.faults == old(fs.faults) && a.refusals == old(a.refusals)
            && p.Unobstructed(old(fs.trail[fs.since].disk)) && WellShaped(engine, a.store) ==>
              (r.Ok? <==> p.staging != p.archive && Rebuildable(a.store))
    ensures a.refusals >= old(a.refusals)
    ensures r.Ok? ==> fs.faults <= old(fs.faults) + 4
    ensures r.Ok? ==> fs.checks >= old(fs.checks) + 21
    ensures r.Ok? ==> a.refusals == old(a.refusals)
  {
    r := PrepareReplacement(fs, p, stage, a, original, mode, engine);
    ConcludesFromInvariant(fs, p);
    if r.Err? { return; }
    r := ChangeHands(fs, p, stage, a, archive, original, r.value);
  }

  /** From the prepared replacement to the result. */
  method ChangeHands(fs: FileSystem, ghost p: Plan, stage: Stage, a: SqliteAdapter, archive: Path, original: Inode, versions: Versions)
    returns (r: Result<Versions, Failure>)
    requires Standing(fs, p) && Ready(p, fs.disk) && p.Main() == Entry(a.path, archive, original)
    requires Staged(p, stage) && !stage.retain && !stage.quarantined && p.rebuilt in fs.mine && a.undoing == None && !a.transaction
    requires versions == Versions(p.snapshot.userVersion, p.snapshot.applicationId)
    modifies fs, a`handle, a`transaction, a`identity, a`refusals, a`undoing, stage`retain, stage`quarantined
    ensures fs.Continues() && fs.mine == old(fs.mine) && fs.notes.cleaning == None
    ensures Concluded(fs, p, a, r, false, fs.faults == old(fs.faults)) && fs.notes.closed.Some?
    ensures Leaves(p, fs, stage, r.Err?)
    ensures Accounted(fs, p, a, r, old(fs.faults), old(a.refusals), a.stuck, fs.faults) && !a.transaction
    ensures fs.quiet && fs.faults == old(fs.faults) && p.Unobstructed(old(fs.trail[fs.since].disk)) ==>
              (r.Ok? <==> p.staging != p.archive && a.refusals == old(a.refusals))
    ensures a.refusals >= old(a.refusals)
    ensures r.Ok? ==> fs.faults <= old(fs.faults) + 4
    ensures r.Ok? ==> fs.checks >= old(fs.checks) + 12
    ensures r.Ok? ==> a.refusals == old(a.refusals)
  {
    if fs.quiet && p.Unobstructed(fs.trail[fs.since].disk) { ClearAtTheClose(fs, p); }
    var done := RunTransfer(fs, p, stage, a, archive, original);
    ConcludesFromInvariant(fs, p);
    r := if done.Ok? then Ok(versions) else Err(done.error);
  }

  /** With no other writer, what was clear when the plan was adopted is clear at the close. */
  lemma ClearAtTheClose(fs: FileSystem, p: Plan)
    requires Standing(fs, p) && fs.quiet && p.Unobstructed(fs.trail[fs.since].disk)
    ensures CanPreserve(p, fs.disk) <==> p.staging != p.archive
  {
    p.RunStaysUnobstructed(fs.trail, fs.since, |fs.trail| - 1);
    forall s | 0 <= s < 3 ensures Sidecar(p.archive, SIDECARS[s]) !in fs.disk.names {
      assert p.Kept(s) == Sidecar(p.archive, SIDECARS[s]);
    }
  }

  /** The close is marked, and the files change hands. */
  method RunTransfer(fs: FileSystem, ghost p: Plan, stage: Stage, a: SqliteAdapter, archive: Path, original: Inode)
    returns (r: Result<(), Failure>)
    requires Standing(fs, p) && Ready(p, fs.disk) && p.Main() == Entry(a.path, archive, original)
    requires Staged(p, stage) && !stage.retain && !stage.quarantined && p.rebuilt in fs.mine && a.undoing == None
    modifies fs, a`handle, a`transaction, a`identity, a`refusals, a`undoing, stage`retain, stage`quarantined
    ensures fs.Continues() && fs.mine == old(fs.mine)
    ensures Ended(fs, p, a, r, fs.faults == old(fs.faults)) && Leaves(p, fs, stage, r.Err?)
    ensures fs.notes.closed == Some(old(fs.disk))
    ensures r.Ok? && fs.faults == old(fs.faults) ==> AllSeen(fs.notes, fs.notes.moved)
    ensures r.Ok? ==> AllLogged(p, old(fs.disk.names), fs.notes.moved)
    ensures r.Err? && r.error.Plain? ==> Undone(p, old(fs.disk.names), fs.notes, fs.quiet)
    ensures fs.quiet && fs.faults == old(fs.faults) ==> (r.Ok? <==> CanPreserve(p, old(fs.disk)) && a.refusals == old(a.refusals))
    ensures if r.Ok? then a.undoing == None else GaveUp(a, old(fs.faults), old(a.refusals), fs.faults) && EndsPlainly(fs, p, a, r.error)
    ensures fs.quiet && CanPreserve(p, old(fs.disk)) && r.Err? ==> a.undoing != Some(Mark(old(fs.faults), old(a.refusals)))
    ensures fs.quiet && fs.faults == old(fs.faults) && a.refusals == old(a.refusals) && r.Err? ==> r.error.Plain?
    ensures a.refusals >= old(a.refusals)
    ensures a.transaction ==> old(a.transaction)
    ensures r.Ok? ==> fs.faults <= old(fs.faults) + 4
    ensures r.Ok? ==> fs.checks >= old(fs.checks) + 12
    ensures r.Ok? ==> a.refusals == old(a.refusals)
  {
    fs.Mark(Closed(fs.disk));
    r := TransferAll(fs, p, stage, a, a.path, archive, original);
  }

  lemma StageFits(fs: FileSystem, p: Plan, stage: Stage)
    requires fs.Valid() && fs.plan == Some(p) && Staged(p, stage) && fs.notes.cleaning.Some?
    requires p.directory in fs.mine && p.rebuilt in fs.mine && p.journal in fs.mine
    ensures stage.Fits(fs) && fs.disk.nodes[p.directory].mode == PRIVATE_DIRECTORY
  {
    PlanKept(fs, p);
    fs.NodesKept();
    assert p.Mine(p.directory) && p.Mine(p.rebuilt) && p.Mine(p.journal);
  }

  /** With no other writer, what is in staging is the stage's own, unless the
      failed replacement is. */
  lemma StagingHoldsOnlyOwn(fs: FileSystem, p: Plan, stage: Stage)
    requires fs.Valid() && fs.plan == Some(p) && Staged(p, stage) && fs.quiet && !At(fs.disk.names, p.Failed(), p.rebuilt)
    ensures stage.HoldsOnlyOwn(fs.disk)
  {
    fs.Sound();
    p.StagingApart();
  }

  /** Staging is kept for whoever looks into it: an activation was confirmed, and failed. */
  ghost predicate KeptForDiagnosis(p: Plan, fs: FileSystem, failed: bool)
    reads fs
  {
    failed && WasActive(p, fs.trail, fs.since) && p.Activation() !in fs.notes.strays
  }

  /** The failed replacement is in staging, and both are private. */
  ghost predicate Quarantined(p: Plan, d: Disk) {
    && At(d.names, p.Failed(), p.rebuilt) && At(d.names, p.staging, p.directory)
    && p.rebuilt in d.nodes && d.nodes[p.rebuilt].mode == PRIVATE_FILE
    && p.directory in d.nodes && d.nodes[p.directory].mode == PRIVATE_DIRECTORY
  }

  /** How the clean-up leaves the disk. */
  ghost predicate TidiedUp(p: Plan, fs: FileSystem, failed: bool)
    reads fs
  {
    && fs.notes.cleaning.Some?
    && (KeptForDiagnosis(p, fs, failed) ==> At(fs.disk.names, p.staging, p.directory))
    && (fs.quiet && fs.notes.cleaning == Some(fs.faults) ==>
          (p.staging in fs.disk.names <==> KeptForDiagnosis(p, fs, failed)))
    && (WasActive(p, fs.trail, fs.since) ==> At(fs.disk.names, p.source, p.rebuilt) || Quarantined(p, fs.disk))
  }

  /** A replacement that has been active is at the source or quarantined. */
  lemma ActiveIsQuarantined(fs: FileSystem, p: Plan)
    requires fs.Valid() && fs.plan == Some(p)
    ensures WasActive(p, fs.trail, fs.since) ==>
              && (At(fs.disk.names, p.source, p.rebuilt) || Quarantined(p, fs.disk))
              && !At(fs.disk.names, p.Temporary(), p.rebuilt)
  {
    if WasActive(p, fs.trail, fs.since) {
      var k :| fs.since <= k < |fs.trail| && At(fs.trail[k].disk.names, p.source, p.rebuilt);
      p.ActiveStays(fs.trail, fs.since, k, |fs.trail| - 1);
      fs.Sound();
      p.StagingApart();
      assert p.Mine(p.directory);
    }
  }

  /** Where the run has left the replacement, staging is either to be kept or holds
      nothing but the stage's own. */
  lemma StageAtTheEnd(fs: FileSystem, p: Plan, stage: Stage, failed: bool)
    requires fs.Valid() && fs.plan == Some(p) && Staged(p, stage) && fs.notes.cleaning == None && Leaves(p, fs, stage, failed)
    requires !failed ==> At(fs.disk.names, p.source, p.rebuilt)
    ensures p.Valid() && p.Owned(fs.disk.names) && p.rebuilt in fs.disk.nodes && At(fs.disk.names, p.staging, p.directory)
    ensures stage.retain <==> KeptForDiagnosis(p, fs, failed)
    ensures fs.quiet && !stage.retain ==> stage.HoldsOnlyOwn(fs.disk)
  {
    fs.Sound();
    ActiveIsQuarantined(fs, p);
    p.StagingApart();
    if fs.quiet && !stage.retain { StagingHoldsOnlyOwn(fs, p, stage); }
  }

  /** The stage is dropped; the start of the clean-up is marked. */
  method Leave(fs: FileSystem, ghost p: Plan, stage: Stage, ghost failed: bool)
    requires fs.Valid() && fs.plan == Some(p) && Staged(p, stage) && fs.notes.cleaning == None && Leaves(p, fs, stage, failed)
    requires !failed ==> At(fs.disk.names, p.source, p.rebuilt)
    requires p.directory in fs.mine && p.rebuilt in fs.mine && p.journal in fs.mine
    modifies fs
    ensures fs.Continues() && fs.mine == old(fs.mine)
    ensures fs.notes == old(fs.notes).(cleaning := Some(old(fs.faults)))
    ensures Cleared(fs.quiet, old(fs.disk), fs.disk, stage.Own())
    ensures TidiedUp(p, fs, failed)
  {
    StageAtTheEnd(fs, p, stage, failed);
    ghost var kept := KeptForDiagnosis(p, fs, failed);
    DropMarked(fs, p, stage);
    ActiveIsQuarantined(fs, p);
    KeptThroughout(fs, p, stage, old(fs.disk), failed, kept);
  }

  method DropMarked(fs: FileSystem, ghost p: Plan, stage: Stage)
    requires fs.Valid() && fs.plan == Some(p) && Staged(p, stage) && fs.notes.cleaning == None
    requires p.directory in fs.mine && p.rebuilt in fs.mine && p.journal in fs.mine
    requires At(fs.disk.names, p.staging, p.directory)
    modifies fs
    ensures fs.Continues() && fs.mine == old(fs.mine)
    ensures fs.notes == old(fs.notes).(cleaning := Some(old(fs.faults)))
    ensures Cleared(fs.quiet, old(fs.disk), fs.disk, stage.Own())
    ensures stage.retain ==> fs.disk == old(fs.disk)
    ensures fs.quiet && fs.faults == old(fs.faults) && !stage.retain ==>
              (p.staging !in fs.disk.names <==> stage.HoldsOnlyOwn(old(fs.disk)))
  {
    fs.Mark(Cleaning(fs.faults));
    StageFits(fs, p, stage);
    stage.Drop(fs);
  }

  /** The clean-up does not activate anything. */
  lemma KeptThroughout(fs: FileSystem, p: Plan, stage: Stage, d: Disk, failed: bool, kept: bool)
    requires fs.Valid() && fs.plan == Some(p) && WellFormed(d) && p.rebuilt in d.nodes && p.Owned(d.names) && p.Valid()
    requires Cleared(fs.quiet, d, fs.disk, stage.Own())
    requires kept ==> KeptForDiagnosis(p, fs, failed)
    requires !kept && failed ==> At(d.names, p.Temporary(), p.rebuilt) || p.Activation() in fs.notes.strays
    ensures KeptForDiagnosis(p, fs, failed) <==> kept
  {
    ActiveIsQuarantined(fs, p);
    p.StagingApart();
  }

  // A complete stage is where a plan begins

  /** A staging directory's name is beside the source and is none of the eight. */
  ghost predicate StagingNamed(p: Plan) {
    p.staging.dir == p.source.dir && forall s | 0 <= s < 3 :: p.staging != p.Beside(s) && p.staging != p.Kept(s)
  }

  lemma StagingPathIsNamed(p: Plan, pid: nat, now: nat)
    requires IsStagingPath(p.source, pid, now, p.staging)
    ensures StagingNamed(p)
  {
    var attempt :| 0 <= attempt < ATTEMPTS && p.staging == Path(p.source.dir, StagingName(pid, Nonce(now, attempt)));
    forall s | 0 <= s < 3 ensures p.staging != p.Beside(s) && p.staging != p.Kept(s) {
      StagingIsNoSidecar(pid, Nonce(now, attempt), p.source.name, s);
      StagingIsNoSidecar(pid, Nonce(now, attempt), p.archive.name, s);
    }
  }

  lemma StagedIsValid(p: Plan, own: Names, d: Disk, quiet: bool, e: Disk)
    requires WellFormed(d) && Added(quiet, d, e, own) && OnlyAt(d.names, p.original, p.source)
    requires At(own, p.staging, p.directory) && At(own, p.Temporary(), p.rebuilt) && At(own, p.Journal(), p.journal)
    requires StagingNamed(p) && ValidRecoveryPaths(p.source, p.archive)
    ensures p.Valid()
  {
    StageNamesDiffer(p);
  }

  /** What the plan says of the disk, from what creating the stage added to it. */
  lemma StagedIsOwned(p: Plan, own: Names, d: Disk, quiet: bool, e: Disk)
    requires WellFormed(d) && Added(quiet, d, e, own) && OnlyAt(d.names, p.original, p.source)
    requires At(own, p.staging, p.directory) && At(own, p.Temporary(), p.rebuilt) && At(own, p.Journal(), p.journal)
    ensures OnlyAt(e.names, p.original, p.source) && p.Owned(e.names)
    ensures At(e.names, p.staging, p.directory) && OnlyAt(e.names, p.rebuilt, p.Temporary())
  {
    AddedIsOnlyAt(quiet, d, e, own, p.staging);
    AddedIsOnlyAt(quiet, d, e, own, p.Temporary());
    AddedIsOnlyAt(quiet, d, e, own, p.Journal());
  }

  lemma StagedIsUndisturbed(p: Plan, own: Names, d: Disk, e: Disk, n: Notes)
    requires p.Valid() && e.names == d.names + own && n.absent == {} && p.archive !in d.names
    requires forall q | q in own :: (q == p.staging || q == p.Temporary() || q == p.Journal()) && p.Mine(own[q])
    requires forall q | q in d.names :: q.dir != p.staging.dir + [p.staging.name]
    ensures p.Undisturbed(e.names, n)
  {
    p.StagingApart();
  }

  /** The plan's disk, once everything of the stage is on it. */
  lemma StagedKeepsNodes(p: Plan, own: Names, d: Disk, quiet: bool, e: Disk)
    requires WellFormed(d) && Added(quiet, d, e, own) && OnlyAt(e.names, p.rebuilt, p.Temporary())
    requires p.directory != p.rebuilt && p.directory != p.journal && p.Temporary() != p.Failed()
    requires Holds(d, p.original, Regular, p.mode) && Holds(e, p.directory, Directory, PRIVATE_DIRECTORY)
    requires Holds(e, p.rebuilt, Regular, PRIVATE_FILE) && Holds(e, p.journal, Regular, PRIVATE_FILE)
    ensures p.NodesKept(e)
  {
  }

  /** A moment whose disk is `d` with a complete stage added is where a plan begins. */
  lemma StagedBegins(p: Plan, m: Moment, own: Names, d: Disk)
    requires WellFormed(d) && Added(p.quiet, d, m.disk, own)
    requires At(own, p.staging, p.directory) && At(own, p.Temporary(), p.rebuilt) && At(own, p.Journal(), p.journal)
    requires forall q | q in own :: q == p.staging || q == p.Temporary() || q == p.Journal()
    requires forall q | q in d.names :: q.dir != p.staging.dir + [p.staging.name]
    requires StagingNamed(p) && ValidRecoveryPaths(p.source, p.archive)
    requires OnlyAt(d.names, p.original, p.source) && Holds(d, p.original, Regular, p.mode)
    requires Holds(m.disk, p.directory, Directory, PRIVATE_DIRECTORY)
    requires Holds(m.disk, p.rebuilt, Regular, PRIVATE_FILE) && Holds(m.disk, p.journal, Regular, PRIVATE_FILE)
    requires m.notes == BLANK
    requires p.quiet ==> p.archive !in d.names
    ensures p.Begins(m) && StagingStands(p, m.disk.names) && At(m.disk.names, p.source, p.original)
  {
    StagedIsValid(p, own, d, p.quiet, m.disk);
    StagedIsOwned(p, own, d, p.quiet, m.disk);
    p.StagingApart();
    StagedKeepsNodes(p, own, d, p.quiet, m.disk);
    if p.quiet { StagedIsUndisturbed(p, own, d, m.disk, m.notes); }
  }

  lemma ThreeNames(a: Path, b: Path, c: Path, i: Inode, j: Inode, k: Inode)
    requires a != b && a != c && b != c
    ensures var own := map[a := i][b := j][c := k];
      At(own, a, i) && At(own, b, j) && At(own, c, k) && forall q | q in own :: q == a || q == b || q == c
  {
  }

  lemma StageNamesDiffer(p: Plan)
    ensures p.staging != p.Temporary() && p.staging != p.Journal() && p.Temporary() != p.Journal()
  {
    assert |p.Temporary().dir| == |p.staging.dir| + 1;
    assert |p.Journal().name| > |p.Temporary().name|;
  }

  lemma BeginsWithStage(fs: FileSystem, p: Plan, stage: Stage, d: Disk)
    requires WellFormed(d) && Prepared(fs, stage, d) && Staged(p, stage) && p.quiet == fs.quiet
    requires StagingNamed(p) && ValidRecoveryPaths(p.source, p.archive)
    requires OnlyAt(d.names, p.original, p.source) && Holds(d, p.original, Regular, p.mode)
    requires fs.notes == BLANK
    requires fs.quiet ==> p.archive !in d.names
    ensures p.Begins(fs.Now()) && StagingStands(p, fs.disk.names) && At(fs.disk.names, p.source, p.original)
  {
    StageNamesDiffer(p);
    ThreeNames(p.staging, p.Temporary(), p.Journal(), p.directory, p.rebuilt, p.journal);
    StagedBegins(p, fs.Now(), Contents(stage), d);
  }

  /** Why there is no room for a staging directory, as it is reported. */
  ghost function StageTrouble(d: Disk, source: Path, pid: nat, now: nat): string {
    if Staging.AllTaken(source, pid, now, d.names, Staging.ATTEMPTS) then "recovery_staging_exhausted" else "filesystem_failure"
  }

  /** The replacement's staging is made and the run is held to its plan. */
  method Adopt(fs: FileSystem, a: SqliteAdapter, archive: Path, original: Inode, mode: Mode, pid: nat, now: nat, engine: Engine)
    returns (r: Result<Stage, Failure>, ghost p: Option<Plan>)
    requires fs.Valid() && fs.plan == None && fs.copy == None && ValidRecoveryPaths(a.path, archive)
    requires IsSource(fs.disk, a.path, original, mode)
    requires fs.notes.(absent := {}) == BLANK
    requires fs.quiet ==> archive !in fs.disk.names
    modifies fs
    ensures fs.Valid() && old(fs.trail) <= fs.trail && fs.plan == p && old(fs.faults) <= fs.faults
    ensures p.Some? ==> |old(fs.trail)| - 1 <= fs.since < |fs.trail|
    ensures forall i | i in fs.mine :: i in old(fs.mine) || i !in old(fs.disk.nodes)
    ensures r.Err? ==> p == None && r.error.Plain? && NamesAndNodesKept(old(fs.disk), fs.disk)
    ensures r.Ok? ==>
              && p.Some? && fresh(r.value) && Standing(fs, p.value) && Staged(p.value, r.value)
              && !r.value.retain && !r.value.quarantined
              && p.value.Main() == Entry(a.path, archive, original) && p.value.mode == mode
              && p.value.engine == engine && p.value.snapshot == a.store
              && p.value.directory in fs.mine && p.value.rebuilt in fs.mine && p.value.journal in fs.mine
              && (fs.quiet && SlotsClear(old(fs.disk), a.path, archive, 3) ==> p.value.Unobstructed(fs.trail[fs.since].disk))
    ensures fs.quiet && fs.faults == old(fs.faults) ==> (r.Ok? <==> RoomForStage(old(fs.disk), a.path, pid, now))
    ensures r.Ok? ==> fs.faults == old(fs.faults)
    ensures r.Ok? ==> fs.checks >= old(fs.checks) + 7
    ensures fs.quiet && fs.faults == old(fs.faults) && r.Err? ==>
              r.error == Plain(StageTrouble(old(fs.disk), a.path, pid, now))
  {
    p := None;
    ghost var gone;
    r, gone := CreateStage(fs, a.path, pid, now);
    if r.Err? { return; }
    var stage := r.value;
    p := Some(Plan(a.path, archive, original, mode, stage.path, stage.directory, stage.file, stage.journal.value, fs.quiet, engine, a.store));
    HoldToPlan(fs, p.value, stage, old(fs.disk), pid, now);
    AdoptedIsUnobstructed(fs, p.value, stage, old(fs.disk));
  }

  /** A finished stage, begun on disk `d`, is where the plan begins. */
  ghost method HoldToPlan(fs: FileSystem, p: Plan, stage: Stage, d: Disk, pid: nat, now: nat)
    requires fs.plan == None && fs.copy == None && Prepared(fs, stage, d) && Staged(p, stage) && p.quiet == fs.quiet
    requires IsStagingPath(p.source, pid, now, p.staging) && ValidRecoveryPaths(p.source, p.archive)
    requires WellFormed(d) && IsSource(d, p.source, p.original, p.mode) && fs.notes == BLANK
    requires fs.quiet ==> p.archive !in d.names
    modifies fs`plan, fs`since
    ensures Standing(fs, p) && fs.since == |fs.trail| - 1
  {
    StagingPathIsNamed(p, pid, now);
    BeginsWithStage(fs, p, stage, d);
    fs.Adopt(p);
  }

  lemma AdoptedIsUnobstructed(fs: FileSystem, p: Plan, stage: Stage, d: Disk)
    requires fs.Valid() && fs.plan == Some(p) && Staged(p, stage) && Added(fs.quiet, d, fs.disk, Contents(stage))
    requires WellFormed(d) && (fs.quiet ==> p.archive !in d.names)
    ensures fs.quiet && SlotsClear(d, p.source, p.archive, 3) ==> p.Unobstructed(fs.disk)
  {
    PlanKept(fs, p);
    if fs.quiet && SlotsClear(d, p.source, p.archive, 3) { StagedIsUnobstructed(p, Contents(stage), d, fs.disk); }
  }

  /** Staging is not in the archive's way, unless it has the archive's name. */
  lemma StagedIsUnobstructed(p: Plan, own: Names, d: Disk, e: Disk)
    requires WellFormed(d) && Added(true, d, e, own) && p.Valid() && p.archive !in d.names && SlotsClear(d, p.source, p.archive, 3)
    requires forall q | q in own :: q == p.staging || q == p.Temporary() || q == p.Journal()
    ensures p.Unobstructed(e)
  {
    p.StagingApart();
    forall s | 0 <= s < 3 ensures p.Kept(s) !in e.names && (p.Beside(s) in e.names ==> SoleFile(e, p.Beside(s))) {
      assert SlotClear(d, p.source, p.archive, s);
      assert p.Kept(s).dir == p.source.dir && p.Beside(s).dir == p.source.dir;
    }
  }

  ghost predicate NamesAndNodesKept(d: Disk, e: Disk) {
    (forall q | q in d.names :: At(e.names, q, d.names[q])) && NodesStay(d, e)
  }

  /** Nothing the clean-up may remove matters to the outcome. */
  lemma ConclusionSurvives(fs: FileSystem, p: Plan, d: Disk, gone: Names)
    requires fs.Valid() && fs.plan == Some(p) && Cleared(fs.quiet, d, fs.disk, gone)
    requires forall q | q in gone :: p.Mine(gone[q]) && q != p.source
    ensures At(d.names, p.source, p.original) ==> At(fs.disk.names, p.source, p.original)
    ensures At(d.names, p.source, p.rebuilt) ==> At(fs.disk.names, p.source, p.rebuilt)
    ensures WellFormed(d) && p.Archived(d.names, fs.notes.moved) && Durable(p, d, fs.notes, fs.notes.moved) ==>
              Durable(p, fs.disk, fs.notes, fs.notes.moved)
    ensures p.source in d.names && p.source !in d.dirtyNames ==> p.source !in fs.disk.dirtyNames
  {
    NamesKept(fs, p);
    if WellFormed(d) && p.Archived(d.names, fs.notes.moved) && Durable(p, d, fs.notes, fs.notes.moved) {
      forall x | x in fs.notes.moved
        ensures x.to !in fs.disk.dirtyNames && (x.ino !in fs.disk.dirtyNodes || x.to in fs.notes.overlooked)
      {
        var j :| 0 <= j < |fs.notes.moved| && fs.notes.moved[j] == x;
        assert At(d.names, x.to, x.ino) && !p.Mine(x.ino);
      }
    }
  }

  lemma OwnIsMine(p: Plan, stage: Stage)
    requires p.Valid() && Staged(p, stage)
    ensures forall q | q in stage.Own() :: p.Mine(stage.Own()[q]) && q != p.source
  {
    p.StagingApart();
  }

  /** What was undone stays so: the mark of the clean-up is all that is noted. */
  lemma UndoneMarked(p: Plan, base: Names, n: Notes, faults: nat, quiet: bool)
    ensures Undone(p, base, n, quiet) <==> Undone(p, base, n.(cleaning := Some(faults)), quiet)
  {
  }

  /** Clean up after the run. */
  method Conclude(fs: FileSystem, ghost p: Plan, stage: Stage, ghost a: SqliteAdapter, ghost r: Result<Versions, Failure>, ghost had: bool,
                  ghost calm: bool, ghost faults: nat, ghost refusals: nat, ghost stuck: nat)
    requires Staged(p, stage) && p.directory in fs.mine && p.rebuilt in fs.mine && p.journal in fs.mine
    requires Concluded(fs, p, a, r, had, calm) && Leaves(p, fs, stage, r.Err?) && fs.notes.cleaning == None
    requires Accounted(fs, p, a, r, faults, refusals, stuck, fs.faults)
    modifies fs
    ensures fs.Continues() && fs.mine == old(fs.mine)
    ensures Concluded(fs, p, a, r, had, calm)
    ensures fs.notes.cleaning == Some(old(fs.faults)) && TidiedUp(p, fs, r.Err?)
    ensures Accounted(fs, p, a, r, faults, refusals, stuck, old(fs.faults))
  {
    PlanKept(fs, p);
    if fs.notes.closed.Some? { UndoneMarked(p, fs.notes.closed.value.names, fs.notes, fs.faults, fs.quiet); }
    Leave(fs, p, stage, r.Err?);
    AloneBefore(p, old(fs.trail), fs.trail, fs.since);
    OwnIsMine(p, stage);
    ConclusionSurvives(fs, p, old(fs.disk), stage.Own());
    ConcludesFromInvariant(fs, p);
  }

  /** The run under its plan, then the clean-up. */
  method RunAndConclude(fs: FileSystem, ghost p: Plan, stage: Stage, a: SqliteAdapter, archive: Path, original: Inode, mode: Mode, engine: Engine)
    returns (r: Result<Versions, Failure>)
    requires Standing(fs, p) && Staged(p, stage) && !stage.retain && !stage.quarantined
    requires p.directory in fs.mine && p.rebuilt in fs.mine && p.journal in fs.mine
    requires p.Main() == Entry(a.path, archive, original) && p.engine == engine && p.snapshot == a.store
    requires mode == p.mode && mode & REFUSED_BITS == 0
    requires a.handle == Open(p.original) && a.identity == Some(p.original) && a.undoing == None
    modifies fs, a, stage`retain, stage`quarantined
    ensures fs.Continues() && fs.mine == old(fs.mine)
    ensures Concluded(fs, p, a, r, old(a.transaction), fs.faults == old(fs.faults))
    ensures TidiedUp(p, fs, r.Err?) && CleanedLast(fs.notes, old(fs.faults), fs.faults)
    ensures r.Err? && r.error.Plain? && WasActive(p, fs.trail, fs.since) ==> Quarantined(p, fs.disk)
    ensures Accounted(fs, p, a, r, old(fs.faults), old(a.refusals), old(a.stuck), fs.notes.cleaning.value)
    ensures a.transaction ==> old(a.transaction) || a.stuck != old(a.stuck)
    ensures fs.quiet && fs.faults == old(fs.faults) && a.refusals == old(a.refusals)
            && p.Unobstructed(old(fs.trail[fs.since].disk)) && WellShaped(engine, a.store) ==>
              (r.Ok? <==> p.staging != p.archive && Rebuildable(a.store))
    ensures a.refusals >= old(a.refusals)
    ensures r.Ok? ==> fs.notes.cleaning.value <= old(fs.faults) + 4 && fs.checks >= old(fs.checks) + 21
    ensures r.Ok? ==> a.refusals == old(a.refusals)
  {
    r := RunRecovery(fs, p, stage, a, archive, original, mode, engine);
    Conclude(fs, p, stage, a, r, old(a.transaction), fs.faults == old(fs.faults), old(fs.faults), old(a.refusals), old(a.stuck));
    PlanKept(fs, p);
    assert p.Mine(p.rebuilt);
  }

  /** `recover`. Without a plan it was refused before anything of its own was
      there to clean up, or nothing came of its staging: the adapter and every name
      and file are as they were. With one, it ends in one of the three outcomes,
      and at every one of its moments the plan's invariant has held. A plain error
      after the replacement had been active leaves it in staging, private; and
      with no other writer and no failing call since the clean-up began, staging is
      left exactly when an activation that was confirmed has failed. With no other
      writer and no failing call, there is a plan exactly when the checks' conditions
      hold and there is room for a staging directory; and if SQLite refuses nothing
      either, it then succeeds exactly when staging has not got the archive's name
      and the source can be rebuilt. */
  method Recover(fs: FileSystem, a: SqliteAdapter, archive: Path, pid: nat, now: nat, engine: Engine) returns (r: Result<Versions, Failure>)
    requires fs.Valid() && fs.plan == None && fs.copy == None && fs.notes.(absent := {}) == BLANK
    requires a.identity.Some? ==> a.handle == Open(a.identity.value) && a.identity.value in fs.disk.nodes
    modifies fs, a
    ensures fs.Valid() && old(fs.trail) <= fs.trail
    ensures forall i | i in fs.mine :: i in old(fs.mine) || i !in old(fs.disk.nodes)
    ensures fs.plan == None ==>
              && r.Err? && r.error.Plain? && NamesAndNodesKept(old(fs.disk), fs.disk)
              && a.handle == old(a.handle) && a.transaction == old(a.transaction) && a.identity == old(a.identity)
    ensures fs.plan.Some? ==>
              && var p := fs.plan.value;
              && p.source == a.path && p.archive == archive && p.engine == engine && p.snapshot == a.store
              && At(old(fs.disk.names), a.path, p.original) && old(a.handle) == Open(p.original)
              && |old(fs.trail)| - 1 <= fs.since < |fs.trail|
              && Concluded(fs, p, a, r, old(a.transaction), fs.faults == old(fs.faults))
              && TidiedUp(p, fs, r.Err?) && CleanedLast(fs.notes, old(fs.faults), fs.faults)
    ensures fs.plan.Some? && r.Err? && r.error.Plain? && WasActive(fs.plan.value, fs.trail, fs.since) ==>
              Quarantined(fs.plan.value, fs.disk)
    ensures fs.plan.Some? ==>
              Accounted(fs, fs.plan.value, a, r, old(fs.faults), old(a.refusals), old(a.stuck), fs.notes.cleaning.value)
    ensures a.transaction ==> old(a.transaction) || a.stuck != old(a.stuck)
    ensures fs.quiet && fs.faults == old(fs.faults) && a.refusals == old(a.refusals) && r.Err? ==> r.error.Plain?
    ensures fs.quiet && fs.faults == old(fs.faults) ==>
              (fs.plan.Some? <==>
                && Startable(old(fs.disk), a.path, old(a.identity), archive)
                && RoomForStage(old(fs.disk), a.path, pid, now))
    ensures fs.quiet && fs.faults == old(fs.faults) && a.refusals == old(a.refusals) && WellShaped(engine, a.store) ==>
              (r.Ok? <==> fs.plan.Some? && fs.plan.value.staging != archive && Rebuildable(a.store))
    ensures r.Ok? ==> fs.notes.cleaning.value <= old(fs.faults) + 7 && fs.checks >= old(fs.checks) + 30
    ensures r.Ok? ==> a.refusals == old(a.refusals)
    ensures fs.quiet && fs.faults == old(fs.faults) && StartTrouble(old(fs.disk), a.path, old(a.identity), archive).Some? ==>
              r == Err(Plain(StartTrouble(old(fs.disk), a.path, old(a.identity), archive).value))
    ensures fs.quiet && fs.faults == old(fs.faults) && fs.plan == None && Startable(old(fs.disk), a.path, old(a.identity), archive) ==>
              r == Err(Plain(StageTrouble(old(fs.disk), a.path, pid, now)))
  {
    var source := CheckAll(fs, a, archive);
    if source.Err? {
      return Err(source.error);
    }
    ghost var d := fs.disk;
    r := RecoverChecked(fs, a, archive, source.value.0, source.value.1, pid, now, engine);
    KeptSince(fs.quiet, old(fs.disk), d, fs.disk);
  }

  lemma KeptSince(quiet: bool, d: Disk, d1: Disk, e: Disk)
    requires Drift(quiet, d, d1)
    ensures NamesAndNodesKept(d1, e) ==> NamesAndNodesKept(d, e)
  {
  }

  /** Recovery of a source that has passed every check. */
  method RecoverChecked(fs: FileSystem, a: SqliteAdapter, archive: Path, original: Inode, mode: Mode, pid: nat, now: nat, engine: Engine)
    returns (r: Result<Versions, Failure>)
    requires fs.Valid() && fs.plan == None && fs.copy == None && fs.notes.(absent := {}) == BLANK
    requires ValidRecoveryPaths(a.path, archive) && IsSource(fs.disk, a.path, original, mode) && mode & REFUSED_BITS == 0
    requires a.handle == Open(original) && a.identity == Some(original)
    requires fs.quiet ==> archive !in fs.disk.names
    modifies fs, a
    ensures fs.Valid() && old(fs.trail) <= fs.trail && old(fs.faults) <= fs.faults
    ensures forall i | i in fs.mine :: i in old(fs.mine) || i !in old(fs.disk.nodes)
    ensures fs.plan == None ==>
              && r.Err? && r.error.Plain? && NamesAndNodesKept(old(fs.disk), fs.disk)
              && a.handle == old(a.handle) && a.transaction == old(a.transaction) && a.identity == old(a.identity)
    ensures fs.plan.Some? ==>
              && var p := fs.plan.value;
              && p.Main() == Entry(a.path, archive, original) && p.engine == engine && p.snapshot == a.store
              && |old(fs.trail)| - 1 <= fs.since < |fs.trail|
              && Concluded(fs, p, a, r, old(a.transaction), fs.faults == old(fs.faults))
              && TidiedUp(p, fs, r.Err?) && CleanedLast(fs.notes, old(fs.faults), fs.faults)
    ensures fs.plan.Some? && r.Err? && r.error.Plain? && WasActive(fs.plan.value, fs.trail, fs.since) ==>
              Quarantined(fs.plan.value, fs.disk)
    ensures fs.plan.Some? ==>
              Accounted(fs, fs.plan.value, a, r, old(fs.faults), old(a.refusals), old(a.stuck), fs.notes.cleaning.value)
    ensures a.transaction ==> old(a.transaction) || a.stuck != old(a.stuck)
    ensures fs.quiet && fs.faults == old(fs.faults) ==> (fs.plan.Some? <==> RoomForStage(old(fs.disk), a.path, pid, now))
    ensures fs.quiet && fs.faults == old(fs.faults) && a.refusals == old(a.refusals)
            && SlotsClear(old(fs.disk), a.path, archive, 3) && WellShaped(engine, a.store) ==>
              (r.Ok? <==> fs.plan.Some? && fs.plan.value.staging != archive && Rebuildable(a.store))
    ensures r.Ok? ==> fs.notes.cleaning.value <= old(fs.faults) + 4 && fs.checks >= old(fs.checks) + 28
    ensures r.Ok? ==> a.refusals == old(a.refusals)
    ensures fs.quiet && fs.faults == old(fs.faults) && fs.plan == None ==> r == Err(Plain(StageTrouble(old(fs.disk), a.path, pid, now)))
  {
    a.Forget();
    var staged;
    ghost var p;
    staged, p := Adopt(fs, a, archive, original, mode, pid, now, engine);
    if staged.Err? {
      return Err(staged.error);
    }
    r := RunAndConclude(fs, p.value, staged.value, a, archive, original, mode, engine);
  }
}
