/** Recovery's one way of renaming a file, and of making files durable. */
module Moves {
  import opened Wrappers
  import opened Paths
  import opened Disks
  import opened Custody
  import opened FileSystems

  /** One file went from `from` to `to`; everything else only grew. */
  ghost predicate Shifted(quiet: bool, d: Disk, e: Disk, from: Path, to: Path) {
    && from in d.names && to !in d.names
    && At(e.names, to, d.names[from])
    && (forall p | p in d.names && p != from :: At(e.names, p, d.names[p]))
    && (forall p | p in e.names && e.names[p] in d.nodes ::
          (p == to && e.names[p] == d.names[from]) || (p != from && At(d.names, p, e.names[p])))
    && (forall i | i in d.nodes :: i in e.nodes && e.nodes[i] == d.nodes[i])
    && (forall i | i in e.dirtyNodes && i in d.nodes :: i in d.dirtyNodes)
    && (forall p | p in e.dirtyNames :: p in d.dirtyNames || p == from || p == to || p !in d.names)
    && WellFormed(e)
    && (quiet ==> e.names == MoveName(d.names, from, to))
  }

  /** Nothing was renamed, created or written by us; other writers may have
      added names, and some of what was unsynced may have been synced. */
  ghost predicate Steady(quiet: bool, d: Disk, e: Disk) {
    Grew(d, e) && (quiet ==> e.names == d.names && e.nodes == d.nodes)
  }

  /** `move_noreplace`: check, rename without replacing, check again. When the
      last check fails the file has moved but the caller is told it has not;
      the trail then carries a `Strayed` mark. */
  method MoveNoReplace(fs: FileSystem, ghost p: Plan, from: Path, to: Path, ino: Inode)
    returns (r: Result<(), Failure>, ghost stray: bool)
    requires fs.Valid() && fs.plan == Some(p)
    requires At(fs.disk.names, from, ino) ==> p.AllowedRename(fs.disk, fs.notes, from, to)
    modifies fs
    ensures fs.Continues() && fs.mine == old(fs.mine)
    ensures r.Ok? ==>
              && At(old(fs.disk.names), from, ino)
              && Shifted(fs.quiet, old(fs.disk), fs.disk, from, to)
              && fs.notes == Noted(old(fs.notes), Rename(from, to))
    ensures r.Err? ==> r.error.Plain?
    ensures r.Err? && !stray ==> Drift(fs.quiet, old(fs.disk), fs.disk) && fs.notes == old(fs.notes)
    ensures stray ==>
              && r.Err?
              && At(old(fs.disk.names), from, ino)
              && Shifted(fs.quiet, old(fs.disk), fs.disk, from, to)
              && fs.notes == Noted(Noted(old(fs.notes), Rename(from, to)), Strayed(Entry(from, to, ino)))
    ensures fs.quiet && fs.faults == old(fs.faults) ==>
              !stray && (r.Ok? <==> At(old(fs.disk.names), from, ino) && to !in old(fs.disk.names))
    ensures r.Ok? ==> fs.faults == old(fs.faults)
    ensures r.Ok? ==> fs.checks >= old(fs.checks) + 2
    ensures fs.quiet && fs.faults == old(fs.faults) && r.Err? ==>
              r.error == Plain(if At(old(fs.disk.names), from, ino) then "path_exists" else "recovery_path_changed")
  {
    r := CheckedRename(fs, p, from, to, ino);
    stray := false;
    if r.Ok? {
      ghost var d := fs.disk;
      var there := fs.Check(to, ino);
      ShiftedDrifts(fs.quiet, old(fs.disk), d, fs.disk, from, to);
      if !there {
        fs.MarkStray(Entry(from, to, ino));
        r, stray := Err(Plain("recovery_path_changed")), true;
      }
    }
  }

  /** The first check and the rename itself. */
  method CheckedRename(fs: FileSystem, ghost p: Plan, from: Path, to: Path, ino: Inode) returns (r: Result<(), Failure>)
    requires fs.Valid() && fs.plan == Some(p)
    requires At(fs.disk.names, from, ino) ==> p.AllowedRename(fs.disk, fs.notes, from, to)
    modifies fs
    ensures fs.Continues() && fs.mine == old(fs.mine)
    ensures r.Ok? ==>
              && At(old(fs.disk.names), from, ino)
              && Shifted(fs.quiet, old(fs.disk), fs.disk, from, to)
              && fs.notes == Noted(old(fs.notes), Rename(from, to))
    ensures r.Err? ==> r.error.Plain? && Drift(fs.quiet, old(fs.disk), fs.disk) && fs.notes == old(fs.notes)
    ensures fs.quiet && fs.faults == old(fs.faults) ==>
              (r.Ok? <==> At(old(fs.disk.names), from, ino) && to !in old(fs.disk.names))
    ensures r.Ok? ==> fs.faults == old(fs.faults)
    ensures r.Ok? ==> fs.checks > old(fs.checks)
    ensures fs.quiet && fs.faults == old(fs.faults) && r.Err? ==>
              r.error == Plain(if At(old(fs.disk.names), from, ino) then "path_exists" else "recovery_path_changed")
  {
    fs.NodesKept();
    var found := fs.Check(from, ino);
    if !found {
      return Err(Plain("recovery_path_changed"));
    }
    ghost var d := fs.disk;
    p.RenameStaysAllowed(old(fs.disk), d, fs.notes, from, to);
    r := fs.RenameNoReplace(from, to);
    if r.Ok? {
      ShiftedBetween(fs.quiet, old(fs.disk), d, fs.disk, from, to);
    } else {
      GrewTransitive(old(fs.disk), d, fs.disk);
    }
  }

  lemma ShiftedBetween(quiet: bool, d: Disk, d1: Disk, d2: Disk, from: Path, to: Path)
    requires WellFormed(d) && from in d.names && Drift(quiet, d, d1)
    requires Enabled(d1, Rename(from, to)) && Drift(quiet, Apply(d1, Rename(from, to)), d2)
    ensures Shifted(quiet, d, d2, from, to)
  {
    assert Apply(d1, Rename(from, to)).names == MoveName(d1.names, from, to);
  }

  lemma ShiftedDrifts(quiet: bool, d: Disk, e: Disk, f: Disk, from: Path, to: Path)
    requires Shifted(quiet, d, e, from, to) && Drift(quiet, e, f)
    ensures Shifted(quiet, d, f, from, to)
  {
  }

  /** `regular`: one name, a plain file. */
  method PlainFile(fs: FileSystem, path: Path) returns (r: Result<(Inode, Mode), Failure>)
    requires fs.Valid()
    modifies fs
    ensures fs.Continues() && fs.mine == old(fs.mine) && fs.notes == old(fs.notes) && Drift(fs.quiet, old(fs.disk), fs.disk)
    ensures r.Ok? ==>
              && OnlyAt(fs.disk.names, r.value.0, path) && r.value.0 in fs.disk.nodes
              && fs.disk.nodes[r.value.0].kind == Regular && fs.disk.nodes[r.value.0].mode == r.value.1
    ensures r.Err? ==> r.error.Plain?
    ensures r.Ok? <==> fs.faults == old(fs.faults) && SoleFile(old(fs.disk), path)
    ensures r.Err? ==> r.error == Plain(if fs.faults == old(fs.faults) && path in old(fs.disk.names) then "unsafe_recovery_file" else "filesystem_failure")
  {
    var look := fs.Stat(path);
    if !look.Found? { return Err(Plain("filesystem_failure")); }
    if look.kind != Regular || !look.single { return Err(Plain("unsafe_recovery_file")); }
    GrewKeepsOnlyAt(old(fs.disk), fs.disk, look.ino, path);
    return Ok((look.ino, look.mode));
  }

  /** The first `n` sidecar names of the path are free. */
  ghost predicate SidecarsFree(names: Names, path: Path, n: nat)
    requires n <= 3
  {
    forall s | 0 <= s < n :: Sidecar(path, SIDECARS[s]) !in names
  }

  lemma OneMoreFree(d: Disk, e: Disk, path: Path, n: nat)
    requires n < 3 && SidecarsFree(d.names, path, n) && Grew(d, e) && Sidecar(path, SIDECARS[n]) !in e.names
    ensures SidecarsFree(d.names, path, n + 1)
  {
    forall s | 0 <= s < n + 1 ensures Sidecar(path, SIDECARS[s]) !in d.names {
      if s == n { assert Sidecar(path, SIDECARS[s]) !in e.names; }
    }
  }

  /** Nothing but the set of overlooked names has been noted. */
  ghost predicate SameLog(n: Notes, m: Notes) {
    m == n.(overlooked := m.overlooked)
  }

  lemma SteadyTransitive(quiet: bool, d: Disk, e: Disk, f: Disk)
    requires Steady(quiet, d, e) && Steady(quiet, e, f)
    ensures Steady(quiet, d, f)
  {
    GrewTransitive(d, e, f);
  }

  lemma SyncIsSteady(quiet: bool, d: Disk, e: Event, f: Disk)
    requires WellFormed(d) && (e.SyncNode? || e.SyncDirectory?) && Drift(quiet, Apply(d, e), f)
    ensures Steady(quiet, d, f)
    ensures e.SyncNode? && e.ino in d.nodes ==> e.ino !in f.dirtyNodes
    ensures e.SyncDirectory? ==> forall p | p in d.names && p.dir == e.dir :: p !in f.dirtyNames
  {
    SyncGrows(d, e);
    GrewTransitive(d, Apply(d, e), f);
  }

  /** Sync one file by name. */
  method SyncOne(fs: FileSystem, path: Path) returns (r: Result<(), Failure>)
    requires fs.Valid()
    modifies fs
    ensures fs.Continues() && fs.mine == old(fs.mine) && fs.notes == old(fs.notes)
    ensures Steady(fs.quiet, old(fs.disk), fs.disk)
    ensures r.Err? ==> r.error.Plain?
    ensures r.Ok? && LinksFile(old(fs.disk), path) ==> old(fs.disk.names[path]) !in fs.disk.dirtyNodes
    ensures r.Ok? <==> fs.faults == old(fs.faults) && Opens(old(fs.disk), path)
  {
    var ok := fs.SyncFile(path);
    if LinksFile(old(fs.disk), path) { FileOpens(old(fs.disk), path); }
    if ok {
      SyncIsSteady(fs.quiet, old(fs.disk), SyncNode(old(fs.disk).names[Final(old(fs.disk), path, MAX_HOPS)]), fs.disk);
      r := Ok(());
    } else {
      r := Err(Plain("filesystem_failure"));
    }
  }

  method SyncDirectoryOf(fs: FileSystem, path: Path) returns (r: Result<(), Failure>)
    requires fs.Valid()
    modifies fs
    ensures fs.Continues() && fs.mine == old(fs.mine) && fs.notes == old(fs.notes)
    ensures Steady(fs.quiet, old(fs.disk), fs.disk)
    ensures r.Err? ==> r.error.Plain?
    ensures r.Ok? ==> forall p | p in old(fs.disk.names) && p.dir == path.dir :: p !in fs.disk.dirtyNames
    ensures r.Ok? <==> fs.faults == old(fs.faults)
    ensures r.Ok? && fs.quiet ==> forall p | p in fs.disk.dirtyNames :: p.dir != path.dir
  {
    var ok := fs.SyncParent(path);
    if ok {
      SyncIsSteady(fs.quiet, old(fs.disk), Event.SyncDirectory(path.dir), fs.disk);
      r := Ok(());
    } else {
      r := Err(Plain("filesystem_failure"));
    }
  }

  /** The sidecar, if there was one and it is no link, is synced, unless its
      existence test failed. */
  ghost predicate SidecarDurable(d: Disk, e: Disk, n: Notes, path: Path, s: nat)
    requires s < 3
  {
    var q := Sidecar(path, SIDECARS[s]);
    LinksFile(d, q) ==> d.names[q] !in e.dirtyNodes || q in n.overlooked
  }

  lemma SidecarsStayDurable(d: Disk, e: Disk, n: Notes, f: Disk, m: Notes, path: Path, s: nat)
    requires s < 3 && WellFormed(d) && Grew(d, e) && Grew(e, f) && n.overlooked <= m.overlooked
    requires forall t | 0 <= t < s :: SidecarDurable(d, e, n, path, t)
    ensures forall t | 0 <= t < s :: SidecarDurable(d, f, m, path, t)
    ensures SidecarDurable(e, f, m, path, s) ==> SidecarDurable(d, f, m, path, s)
  {
    forall t | 0 <= t < s ensures SidecarDurable(d, f, m, path, t) {
      assert SidecarDurable(d, e, n, path, t);
    }
  }

  lemma DurableFromStart(d: Disk, d1: Disk, e: Disk, f: Disk, n: Notes, path: Path)
    requires WellFormed(d) && Grew(d, d1) && Grew(d1, e) && Grew(e, f)
    requires forall s | 0 <= s < 3 :: SidecarDurable(d1, e, n, path, s)
    ensures forall s | 0 <= s < 3 :: SidecarDurable(d, f, n, path, s)
  {
    forall s | 0 <= s < 3 ensures SidecarDurable(d, f, n, path, s) {
      assert SidecarDurable(d1, e, n, path, s);
    }
  }

  /** What an existence test failed to see between the two: sidecars of the path
      that are there; with no failing call, links that led nowhere at the start. */
  ghost predicate Missed(d: Disk, n: Notes, e: Disk, m: Notes, path: Path, fault: bool) {
    && SameLog(n, m) && n.overlooked <= m.overlooked
    && forall q | q in m.overlooked && q !in n.overlooked :: IsSidecarOf(q, path) && q in e.names && (fault || !Opens(d, q))
  }

  lemma MissedTransitive(d: Disk, n: Notes, e: Disk, m: Notes, f: Disk, k: Notes, path: Path, fault: bool, more: bool)
    requires Grew(d, e) && Grew(e, f) && Missed(d, n, e, m, path, fault) && Missed(e, m, f, k, path, more)
    ensures Missed(d, n, f, k, path, fault || more)
  {
    forall q | q in k.overlooked && q !in n.overlooked
      ensures IsSidecarOf(q, path) && q in f.names && (fault || more || !Opens(d, q))
    {
      if Opens(d, q) { ResolvesGrows(d, e, q, MAX_HOPS); }
    }
  }

  /** Sync one sidecar if it is seen. */
  method SyncSidecar(fs: FileSystem, path: Path, s: nat) returns (r: Result<(), Failure>)
    requires fs.Valid() && s < 3
    modifies fs
    ensures fs.Continues() && fs.mine == old(fs.mine)
    ensures Missed(old(fs.disk), old(fs.notes), fs.disk, fs.notes, path, fs.faults != old(fs.faults))
    ensures Steady(fs.quiet, old(fs.disk), fs.disk)
    ensures r.Err? ==> r.error.Plain?
    ensures r.Ok? ==> SidecarDurable(old(fs.disk), fs.disk, fs.notes, path, s)
    ensures fs.faults == old(fs.faults) ==> r.Ok?
    ensures r.Ok? && (fs.faults != old(fs.faults) || !Opens(old(fs.disk), Sidecar(path, SIDECARS[s]))) ==>
              && Drift(fs.quiet, old(fs.disk), fs.disk)
              && (Sidecar(path, SIDECARS[s]) in old(fs.disk.names) ==> Sidecar(path, SIDECARS[s]) in fs.notes.overlooked)
    ensures r.Ok? ==> fs.faults <= old(fs.faults) + 1
  {
    var sidecar := Sidecar(path, SIDECARS[s]);
    var there := fs.Exists(sidecar);
    ghost var d := fs.disk;
    if there {
      ResolvesGrows(old(fs.disk), d, sidecar, MAX_HOPS);
      r := SyncOne(fs, sidecar);
      SteadyTransitive(fs.quiet, old(fs.disk), d, fs.disk);
    } else {
      r := Ok(());
    }
  }

  /** `sync_database_files`. */
  method SyncDatabaseFiles(fs: FileSystem, path: Path, sidecars: bool) returns (r: Result<(), Failure>)
    requires fs.Valid()
    modifies fs
    ensures fs.Continues() && fs.mine == old(fs.mine)
    ensures Missed(old(fs.disk), old(fs.notes), fs.disk, fs.notes, path, fs.faults != old(fs.faults))
    ensures !sidecars ==> fs.notes == old(fs.notes)
    ensures Steady(fs.quiet, old(fs.disk), fs.disk)
    ensures r.Err? ==> r.error.Plain?
    ensures r.Ok? ==>
              && path in old(fs.disk.names) && (LinksFile(old(fs.disk), path) ==> old(fs.disk.names[path]) !in fs.disk.dirtyNodes)
              && (sidecars ==> forall s | 0 <= s < 3 :: SidecarDurable(old(fs.disk), fs.disk, fs.notes, path, s))
              && forall p | p in old(fs.disk.names) && p.dir == path.dir :: p !in fs.disk.dirtyNames
    ensures fs.faults == old(fs.faults) ==> (r.Ok? <==> Opens(old(fs.disk), path))
    ensures r.Ok? ==> fs.faults <= old(fs.faults) + if sidecars then 3 else 0
  {
    r := SyncFamily(fs, path, sidecars);
    if r.Err? { return; }
    ghost var e := fs.disk;
    r := SyncDirectoryOf(fs, path);
    SteadyTransitive(fs.quiet, old(fs.disk), e, fs.disk);
    if sidecars {
      DurableFromStart(old(fs.disk), old(fs.disk), e, fs.disk, fs.notes, path);
    }
  }

  /** The file, and its sidecars if asked. */
  method SyncFamily(fs: FileSystem, path: Path, sidecars: bool) returns (r: Result<(), Failure>)
    requires fs.Valid()
    modifies fs
    ensures fs.Continues() && fs.mine == old(fs.mine)
    ensures Missed(old(fs.disk), old(fs.notes), fs.disk, fs.notes, path, fs.faults != old(fs.faults))
    ensures !sidecars ==> fs.notes == old(fs.notes)
    ensures Steady(fs.quiet, old(fs.disk), fs.disk)
    ensures r.Err? ==> r.error.Plain?
    ensures r.Ok? ==>
              && path in old(fs.disk.names) && (LinksFile(old(fs.disk), path) ==> old(fs.disk.names[path]) !in fs.disk.dirtyNodes)
              && (sidecars ==> forall s | 0 <= s < 3 :: SidecarDurable(old(fs.disk), fs.disk, fs.notes, path, s))
    ensures fs.faults == old(fs.faults) ==> (r.Ok? <==> Opens(old(fs.disk), path))
    ensures r.Ok? ==> fs.faults <= old(fs.faults) + if sidecars then 3 else 0
  {
    r := SyncOne(fs, path);
    if r.Ok? && sidecars {
      ghost var d, n, f := fs.disk, fs.notes, fs.faults;
      r := SyncSidecars(fs, path);
      MissedTransitive(old(fs.disk), old(fs.notes), d, n, fs.disk, fs.notes, path, f != old(fs.faults), fs.faults != f);
      SteadyTransitive(fs.quiet, old(fs.disk), d, fs.disk);
      if r.Ok? { DurableFromStart(old(fs.disk), d, fs.disk, fs.disk, fs.notes, path); }
    }
  }

  /** The first `s` sidecars are synced since disk `d`. */
  ghost predicate SyncedUpTo(quiet: bool, d: Disk, n: Notes, e: Disk, m: Notes, path: Path, fault: bool, s: nat)
    requires s <= 3
  {
    Missed(d, n, e, m, path, fault) && Steady(quiet, d, e) && forall t | 0 <= t < s :: SidecarDurable(d, e, m, path, t)
  }

  lemma OneMoreSynced(quiet: bool, d: Disk, n: Notes, e: Disk, m: Notes, f: Disk, k: Notes, path: Path, fault: bool, more: bool, s: nat)
    requires s < 3 && WellFormed(d) && SyncedUpTo(quiet, d, n, e, m, path, fault, s)
    requires Missed(e, m, f, k, path, more) && Steady(quiet, e, f)
    ensures Missed(d, n, f, k, path, fault || more) && Steady(quiet, d, f)
    ensures SidecarDurable(e, f, k, path, s) ==> SyncedUpTo(quiet, d, n, f, k, path, fault || more, s + 1)
  {
    MissedTransitive(d, n, e, m, f, k, path, fault, more);
    SteadyTransitive(quiet, d, e, f);
    SidecarsStayDurable(d, e, m, f, k, path, s);
  }

  method SyncSidecars(fs: FileSystem, path: Path) returns (r: Result<(), Failure>)
    requires fs.Valid()
    modifies fs
    ensures fs.Continues() && fs.mine == old(fs.mine)
    ensures Missed(old(fs.disk), old(fs.notes), fs.disk, fs.notes, path, fs.faults != old(fs.faults))
    ensures Steady(fs.quiet, old(fs.disk), fs.disk)
    ensures r.Err? ==> r.error.Plain?
    ensures r.Ok? ==> forall s | 0 <= s < 3 :: SidecarDurable(old(fs.disk), fs.disk, fs.notes, path, s)
    ensures fs.faults == old(fs.faults) ==> r.Ok?
    ensures r.Ok? ==> fs.faults <= old(fs.faults) + 3
  {
    r := Ok(());
    for s := 0 to 3
      invariant r.Ok? && fs.Continues() && fs.mine == old(fs.mine) && fs.faults <= old(fs.faults) + s
      invariant SyncedUpTo(fs.quiet, old(fs.disk), old(fs.notes), fs.disk, fs.notes, path, fs.faults != old(fs.faults), s)
    {
      ghost var d, n, f := fs.disk, fs.notes, fs.faults;
      r := SyncSidecar(fs, path, s);
      OneMoreSynced(fs.quiet, old(fs.disk), old(fs.notes), d, n, fs.disk, fs.notes, path, f != old(fs.faults), fs.faults != f, s);
      if r.Err? { return; }
    }
  }
}
