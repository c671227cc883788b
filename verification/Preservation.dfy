/** Moving the original and its sidecars to their archive names, and moving
    them back. */
module Preservation {
  import opened Wrappers
  import opened Paths
  import opened Disks
  import opened Custody
  import opened UndoLog
  import opened FileSystems
  import opened Moves
  import opened Staging

  /** The run is under plan `p`, between the close of the old handle and its
      reopening, and before the clean-up. */
  ghost predicate Underway(fs: FileSystem, p: Plan)
    reads fs
  {
    && fs.Valid() && fs.plan == Some(p) && !fs.notes.live
    && fs.notes.closed.Some? && fs.notes.reopened == None && fs.notes.cleaning == None
  }

  /** Contents and modes are untouched, nothing synced became dirty, and neither
      the staging directory's own name nor any name outside the database
      directory changed. */
  ghost predicate Undamaged(p: Plan, d: Disk, e: Disk) {
    && (forall i | i in d.nodes :: i in e.nodes && e.nodes[i] == d.nodes[i])
    && (forall i | i in e.dirtyNodes && i in d.nodes :: i in d.dirtyNodes)
    && ElsewhereKept(p, d, e)
  }

  ghost predicate ElsewhereKept(p: Plan, d: Disk, e: Disk) {
    forall q | q in d.names && (q.dir != p.source.dir || d.names[q] == p.directory) :: At(e.names, q, d.names[q])
  }

  ghost function Option1(x: Option<Entry>): seq<Entry> {
    match x
    case None => []
    case Some(e) => [e]
  }

  /** The directory is what performing the log, and the stray if any, on `base` gives. */
  ghost predicate Performed(base: Names, names: Names, moved: seq<Entry>, stray: Option<Entry>) {
    Performs(base, moved + Option1(stray)) && names == Perform(base, moved + Option1(stray))
  }

  ghost predicate InSlot(p: Plan, x: Entry, t: nat)
    requires t < 3
  {
    x.from == p.Beside(t) && x.to == p.Kept(t)
  }

  ghost predicate SlotBefore(p: Plan, x: Entry, s: nat) {
    (0 < s && InSlot(p, x, 0)) || (1 < s && InSlot(p, x, 1)) || (2 < s && InSlot(p, x, 2))
  }

  /** The logged sidecars are among the first `s`. */
  ghost predicate SlotsBefore(p: Plan, moved: seq<Entry>, s: nat) {
    forall j | 1 <= j < |moved| :: SlotBefore(p, moved[j], s)
  }

  /** The log covers the main file and sidecars before `s`, everything logged is archived. */
  ghost predicate Preserved(p: Plan, names: Names, moved: seq<Entry>, s: nat) {
    p.IsLog(moved) && p.Archived(names, moved) && !At(names, p.source, p.rebuilt) && SlotsBefore(p, moved, s)
  }

  lemma ShiftedOnlyAt(quiet: bool, d: Disk, e: Disk, from: Path, to: Path)
    requires Shifted(quiet, d, e, from, to) && WellFormed(d) && OnlyAt(d.names, d.names[from], from)
    ensures OnlyAt(e.names, d.names[from], to)
  {
  }

  lemma ShiftedIsUndamaged(p: Plan, quiet: bool, d: Disk, e: Disk, from: Path, to: Path)
    requires Shifted(quiet, d, e, from, to) && from.dir == p.source.dir && d.names[from] != p.directory
    ensures Undamaged(p, d, e)
  {
  }

  /** What the plan's invariant says of the names now. */
  lemma NamesKept(fs: FileSystem, p: Plan)
    requires fs.Valid() && fs.plan == Some(p)
    ensures p.Valid() && p.HasCustody(fs.disk.names) && p.Owned(fs.disk.names) && p.IsLog(fs.notes.moved)
    ensures p.original in fs.disk.nodes && p.rebuilt in fs.disk.nodes
    ensures p.Sheltered(fs.disk.names, fs.notes)
  {
    fs.Sound();
  }

  lemma PlanKept(fs: FileSystem, p: Plan)
    requires fs.Valid() && fs.plan == Some(p)
    ensures p.Valid() && p.original in fs.disk.nodes && p.rebuilt in fs.disk.nodes
  {
    fs.Sound();
  }

  lemma CustodyKept(fs: FileSystem, p: Plan)
    requires fs.Valid() && fs.plan == Some(p)
    ensures p.Valid() && p.HasCustody(fs.disk.names)
  {
    fs.Sound();
  }

  /** After a file has left a name, only another writer's file can be there. */
  lemma NameLeft(quiet: bool, d: Disk, e: Disk, from: Path, to: Path, i: Inode)
    requires Shifted(quiet, d, e, from, to) && i in d.nodes && from != to
    ensures !At(e.names, from, i)
  {
  }

  /** Log a confirmed move. */
  ghost method Record(fs: FileSystem, p: Plan, x: Entry)
    requires Underway(fs, p) && p.AllowedRecord(fs.disk, fs.notes, x)
    modifies fs`notes, fs`trail
    ensures fs.Continues() && Underway(fs, p)
    ensures fs.notes == Noted(old(fs.notes), Recorded(x))
  {
    fs.Mark(Recorded(x));
  }

  /** Log the main file's move. */
  ghost method RecordMain(fs: FileSystem, p: Plan, x: Entry)
    requires Underway(fs, p) && x == p.Main() && fs.notes.moved == []
    requires At(fs.disk.names, p.archive, p.original) && !At(fs.disk.names, p.source, p.rebuilt)
    modifies fs`notes, fs`trail
    ensures fs.Continues() && Underway(fs, p)
    ensures fs.notes == Noted(old(fs.notes), Recorded(x))
    ensures Preserved(p, fs.disk.names, [x], 0)
  {
    CustodyKept(fs, p);
    fs.NodesKept();
    p.MainMayBeRecorded(fs.disk, fs.notes);
    Record(fs, p, x);
  }

  /** Every name but that one links what it did. */
  ghost predicate OnlyLeaves(d: Names, e: Names, from: Path) {
    forall q | q in d && q != from :: At(e, q, d[q])
  }

  method ArchiveMain(fs: FileSystem, ghost p: Plan, source: Path, archive: Path, original: Inode)
    returns (r: Result<(), Failure>, moved: seq<Entry>, ghost stray: Option<Entry>)
    requires Underway(fs, p) && p.Main() == Entry(source, archive, original) && fs.notes.moved == []
    requires At(fs.disk.names, source, original)
    modifies fs
    ensures fs.Continues() && Underway(fs, p) && fs.mine == old(fs.mine)
    ensures moved == fs.notes.moved && fs.notes.overlooked == old(fs.notes.overlooked)
    ensures fs.notes.strays == old(fs.notes.strays) + (if stray.Some? then {stray.value} else {})
    ensures Undamaged(p, old(fs.disk), fs.disk)
    ensures Preserved(p, fs.disk.names, moved, 0)
    ensures fs.quiet ==> Performed(old(fs.disk.names), fs.disk.names, moved, stray)
    ensures if r.Ok? then moved == [p.Main()] && stray == None else r.error.Plain? && moved == []
    ensures stray.Some? ==> stray.value == p.Main() && At(fs.disk.names, archive, original)
    ensures OnlyLeaves(old(fs.disk.names), fs.disk.names, source)
    ensures fs.quiet && r.Ok? ==> fs.disk.names == MoveName(old(fs.disk.names), source, archive)
    ensures fs.quiet && fs.faults == old(fs.faults) ==> stray == None && (r.Ok? <==> archive !in old(fs.disk.names))
    ensures r.Ok? ==> fs.faults == old(fs.faults)
    ensures r.Ok? ==> fs.checks >= old(fs.checks) + 2
  {
    moved := [];
    r, stray := ShiftMain(fs, p, source, archive, original);
    if r.Ok? {
      var x := Entry(source, archive, original);
      RecordMain(fs, p, x);
      moved := [x];
    }
  }

  /** A move as the log and the stray mark see it. */
  method Carry(fs: FileSystem, ghost p: Plan, from: Path, to: Path, ino: Inode) returns (r: Result<(), Failure>, ghost stray: Option<Entry>)
    requires Underway(fs, p) && At(fs.disk.names, from, ino) && p.AllowedRename(fs.disk, fs.notes, from, to)
    modifies fs
    ensures fs.Continues() && Underway(fs, p) && fs.mine == old(fs.mine)
    ensures fs.notes.moved == old(fs.notes.moved) && fs.notes.overlooked == old(fs.notes.overlooked)
    ensures fs.notes.strays == old(fs.notes.strays) + (if stray.Some? then {stray.value} else {})
    ensures stray.Some? ==> r.Err? && stray.value == Entry(from, to, ino)
    ensures r.Err? ==> r.error.Plain?
    ensures if r.Ok? || stray.Some? then Shifted(fs.quiet, old(fs.disk), fs.disk, from, to) else Drift(fs.quiet, old(fs.disk), fs.disk)
    ensures fs.quiet && fs.faults == old(fs.faults) ==> stray == None && (r.Ok? <==> to !in old(fs.disk.names))
    ensures r.Ok? ==> fs.faults == old(fs.faults)
    ensures r.Ok? ==> fs.checks >= old(fs.checks) + 2
  {
    ghost var lost;
    r, lost := MoveNoReplace(fs, p, from, to, ino);
    stray := if lost then Some(Entry(from, to, ino)) else None;
  }

  /** The move without its log entry. */
  method ShiftMain(fs: FileSystem, ghost p: Plan, source: Path, archive: Path, original: Inode)
    returns (r: Result<(), Failure>, ghost stray: Option<Entry>)
    requires Underway(fs, p) && p.Main() == Entry(source, archive, original) && fs.notes.moved == []
    requires At(fs.disk.names, source, original)
    modifies fs
    ensures fs.Continues() && Underway(fs, p) && fs.mine == old(fs.mine)
    ensures fs.notes.moved == [] && fs.notes.overlooked == old(fs.notes.overlooked)
    ensures fs.notes.strays == old(fs.notes.strays) + (if stray.Some? then {stray.value} else {})
    ensures Undamaged(p, old(fs.disk), fs.disk) && !At(fs.disk.names, p.source, p.rebuilt)
    ensures r.Ok? ==>
              && stray == None && At(fs.disk.names, archive, original)
              && (fs.quiet ==> Performed(old(fs.disk.names), fs.disk.names, [p.Main()], None))
    ensures r.Err? ==> r.error.Plain? && (fs.quiet ==> Performed(old(fs.disk.names), fs.disk.names, [], stray))
    ensures stray.Some? ==> r.Err? && stray.value == p.Main() && At(fs.disk.names, archive, original)
    ensures OnlyLeaves(old(fs.disk.names), fs.disk.names, source)
    ensures fs.quiet && r.Ok? ==> fs.disk.names == MoveName(old(fs.disk.names), source, archive)
    ensures fs.quiet && fs.faults == old(fs.faults) ==> stray == None && (r.Ok? <==> archive !in old(fs.disk.names))
    ensures r.Ok? ==> fs.faults == old(fs.faults)
    ensures r.Ok? ==> fs.checks >= old(fs.checks) + 2
  {
    MainMayMove(fs, p);
    r, stray := Carry(fs, p, source, archive, original);
    MainMoved(p, fs.quiet, old(fs.disk), fs.disk, r.Ok? || stray.Some?);
  }

  lemma MainMayMove(fs: FileSystem, p: Plan)
    requires Underway(fs, p) && fs.notes.moved == [] && At(fs.disk.names, p.source, p.original)
    ensures p.Valid() && p.rebuilt in fs.disk.nodes && p.AllowedRename(fs.disk, fs.notes, p.source, p.archive)
  {
    PlanKept(fs, p);
    assert p.ArchivesMain(fs.disk.names, fs.notes, p.source, p.archive);
  }

  /** What the move of the main file, or its refusal, does to the directory. */
  lemma MainMoved(p: Plan, quiet: bool, d: Disk, e: Disk, shifted: bool)
    requires p.Valid() && WellFormed(d) && At(d.names, p.source, p.original) && p.rebuilt in d.nodes
    requires if shifted then Shifted(quiet, d, e, p.source, p.archive) else Drift(quiet, d, e)
    ensures Undamaged(p, d, e) && !At(e.names, p.source, p.rebuilt)
    ensures shifted ==> At(e.names, p.archive, p.original)
    ensures quiet && shifted ==> Performed(d.names, e.names, [p.Main()], None) && Performed(d.names, e.names, [], Some(p.Main()))
    ensures quiet && !shifted ==> Performed(d.names, e.names, [], None)
    ensures OnlyLeaves(d.names, e.names, p.source)
    ensures quiet && shifted ==> e.names == MoveName(d.names, p.source, p.archive)
  {
    PerformedNothing(d.names);
    if shifted {
      ShiftedIsUndamaged(p, quiet, d, e, p.source, p.archive);
      NameLeft(quiet, d, e, p.source, p.archive, p.rebuilt);
      if quiet {
        PerformedNext(d.names, d.names, [], p.Main());
        assert [] + [p.Main()] == [p.Main()];
      }
    }
  }

  lemma PerformedNothing(base: Names)
    ensures Performed(base, base, [], None)
  {
    assert [] + Option1(None) == [];
  }

  /** One more move, logged or strayed. */
  lemma PerformedNext(base: Names, names: Names, moved: seq<Entry>, x: Entry)
    requires Performed(base, names, moved, None)
    requires At(names, x.from, x.ino) && x.to !in names
    ensures Performed(base, MoveName(names, x.from, x.to), moved + [x], None)
    ensures Performed(base, MoveName(names, x.from, x.to), moved, Some(x))
  {
    assert moved + Option1(None) == moved;
    assert (moved + [x]) + Option1(None) == moved + [x];
    PerformAppends(base, moved, x);
  }

  /** Log one sidecar's move. */
  ghost method RecordSidecar(fs: FileSystem, p: Plan, moved: seq<Entry>, s: nat, x: Entry)
    requires Underway(fs, p) && s < 3 && moved == fs.notes.moved && moved != []
    requires x.from == p.Beside(s) && x.to == p.Kept(s) && x.ino != p.original && !p.Mine(x.ino)
    requires Preserved(p, fs.disk.names, moved, s) && SoleFile(fs.disk, x.to) && fs.disk.names[x.to] == x.ino
    modifies fs`notes, fs`trail
    ensures fs.Continues() && Underway(fs, p)
    ensures fs.notes.moved == moved + [x]
    ensures fs.notes == Noted(old(fs.notes), Recorded(x))
    ensures Preserved(p, fs.disk.names, moved + [x], s + 1)
  {
    PlanKept(fs, p);
    p.PathsDiffer();
    assert moved[0] == p.Main();
    p.SidecarMayBeRecorded(fs.disk, fs.notes, s, x.ino);
    Record(fs, p, x);
  }

  lemma PreservedShifts(p: Plan, quiet: bool, d: Disk, e: Disk, moved: seq<Entry>, s: nat)
    requires p.Valid() && s < 3 && Preserved(p, d.names, moved, s) && p.rebuilt in d.nodes
    requires Shifted(quiet, d, e, p.Beside(s), p.Kept(s)) && d.names[p.Beside(s)] != p.rebuilt
    ensures Preserved(p, e.names, moved, s)
  {
    p.PathsDiffer();
    forall j | 0 <= j < |moved| ensures At(e.names, moved[j].to, moved[j].ino) {
      assert j == 0 ==> moved[j] == p.Main();
      assert At(d.names, moved[j].to, moved[j].ino);
    }
  }

  lemma PreservedDrifts(p: Plan, d: Disk, e: Disk, moved: seq<Entry>, s: nat)
    requires WellFormed(d) && Grew(d, e) && Preserved(p, d.names, moved, s) && p.rebuilt in d.nodes
    ensures Preserved(p, e.names, moved, s)
  {
  }

  lemma SlotsWiden(p: Plan, moved: seq<Entry>, s: nat, t: nat)
    requires SlotsBefore(p, moved, s) && s <= t
    ensures SlotsBefore(p, moved, t)
  {
  }

  /** What one round of the sidecar loop does: nothing, a logged move, or a stray. */
  ghost predicate RoundDone(p: Plan, base: Names, d: Disk, n: Notes, e: Disk, m: Notes,
                            r: Result<(), Failure>, stray: Option<Entry>, s: nat, quiet: bool) {
    && Undamaged(p, d, e)
    && m.overlooked == n.overlooked
    && m.strays == n.strays + (if stray.Some? then {stray.value} else {})
    && Preserved(p, e.names, m.moved, s + 1)
    && m.moved != []
    && (quiet && Performed(base, d.names, n.moved, None) ==> Performed(base, e.names, m.moved, stray))
    && (r.Ok? ==> stray == None)
    && (r.Err? ==> r.error.Plain?)
    && (stray.Some? && s < 3 ==>
          stray.value.from == p.Beside(s) && stray.value.to == p.Kept(s) && At(e.names, stray.value.to, stray.value.ino)
          && SlotsBefore(p, m.moved, s))
  }

  /** The log says that the file went from beside the source to the archive's name for it. */
  ghost predicate Logged(p: Plan, moved: seq<Entry>, s: nat, i: Inode)
    requires s < 3
  {
    Entry(p.Beside(s), p.Kept(s), i) in moved
  }

  /** What a round leaves where it was, and what it has logged. */
  ghost predicate RoundKeeps(p: Plan, d: Disk, n: Notes, e: Disk, m: Notes, r: Result<(), Failure>, s: nat, quiet: bool)
    requires s < 3
  {
    && n.moved <= m.moved
    && OnlyLeaves(d.names, e.names, p.Beside(s))
    && (r.Ok? && p.Beside(s) in d.names ==> Logged(p, m.moved, s, d.names[p.Beside(s)]))
    && (quiet && r.Ok? && p.Beside(s) in d.names ==> p.Kept(s) !in d.names)
    && (quiet && r.Ok? ==>
          e.names == if p.Beside(s) in d.names then MoveName(d.names, p.Beside(s), p.Kept(s)) else d.names)
  }

  /** Nothing is beside the source under this sidecar's name, or a plain file that
      can go to its archive name. */
  ghost predicate MayGo(p: Plan, d: Disk, s: nat)
    requires s < 3
  {
    p.Beside(s) in d.names ==> SoleFile(d, p.Beside(s)) && p.Kept(s) !in d.names
  }

  /** Move one sidecar to its archive name, if it is there. */
  method ArchiveSidecar(fs: FileSystem, ghost p: Plan, ghost base: Names, source: Path, archive: Path, moved: seq<Entry>, s: nat)
    returns (r: Result<(), Failure>, log: seq<Entry>, ghost stray: Option<Entry>)
    requires Underway(fs, p) && p.source == source && p.archive == archive && s < 3
    requires moved == fs.notes.moved && moved != [] && Preserved(p, fs.disk.names, moved, s)
    modifies fs
    ensures fs.Continues() && Underway(fs, p) && fs.mine == old(fs.mine)
    ensures log == fs.notes.moved
    ensures RoundDone(p, base, old(fs.disk), old(fs.notes), fs.disk, fs.notes, r, stray, s, fs.quiet)
    ensures RoundKeeps(p, old(fs.disk), old(fs.notes), fs.disk, fs.notes, r, s, fs.quiet)
    ensures fs.quiet && fs.faults == old(fs.faults) ==> stray == None && (r.Ok? <==> MayGo(p, old(fs.disk), s))
    ensures r.Ok? ==> fs.faults == old(fs.faults)
  {
    var from, to := Sidecar(source, SIDECARS[s]), Sidecar(archive, SIDECARS[s]);
    log, stray := moved, None;
    NamesKept(fs, p);
    var found := FindSidecar(fs, from);
    PreservedDrifts(p, old(fs.disk), fs.disk, moved, s);
    SlotsWiden(p, moved, s, s + 1);
    match found
    case Err(error) => r := Err(error);
    case Ok(None) => r := Ok(());
    case Ok(Some(ino)) =>
      ghost var d := fs.disk;
      r, log, stray := MoveSidecar(fs, p, base, from, to, ino, moved, s);
      RoundSince(p, base, old(fs.disk), d, fs.notes, old(fs.notes), fs.disk, r, stray, s, fs.quiet);
  }

  /** Nothing there, a plain file with one name, or an error. */
  method FindSidecar(fs: FileSystem, from: Path) returns (r: Result<Option<Inode>, Failure>)
    requires fs.Valid()
    modifies fs
    ensures fs.Continues() && fs.mine == old(fs.mine) && fs.notes == old(fs.notes) && Drift(fs.quiet, old(fs.disk), fs.disk)
    ensures r.Ok? && r.value.Some? ==>
              SoleFile(fs.disk, from) && fs.disk.names[from] == r.value.value
    ensures r == Ok(None) ==> from !in old(fs.disk.names)
    ensures r.Err? ==> r.error.Plain?
    ensures fs.quiet && fs.faults == old(fs.faults) ==>
              (r.Ok? <==> (from in old(fs.disk.names) ==> SoleFile(old(fs.disk), from)))
    ensures r.Ok? ==> fs.faults == old(fs.faults)
  {
    var look := fs.Stat(from);
    match look
    case Missing => r := Ok(None);
    case Fault => r := Err(Plain("filesystem_failure"));
    case Found(_, _, _, _) =>
      ghost var d := fs.disk;
      var file := PlainFile(fs, from);
      GrewTransitive(old(fs.disk), d, fs.disk);
      r := match file case Ok(f) => Ok(Some(f.0)) case Err(error) => Err(error);
  }

  /** A round seen from before other writers last added names. */
  lemma RoundSince(p: Plan, base: Names, d: Disk, d1: Disk, m: Notes, n: Notes, e: Disk,
                   r: Result<(), Failure>, stray: Option<Entry>, s: nat, quiet: bool)
    requires WellFormed(d) && Drift(quiet, d, d1) && RoundDone(p, base, d1, n, e, m, r, stray, s, quiet)
    requires s < 3 && RoundKeeps(p, d1, n, e, m, r, s, quiet)
    ensures RoundDone(p, base, d, n, e, m, r, stray, s, quiet)
    ensures RoundKeeps(p, d, n, e, m, r, s, quiet)
  {
  }

  method MoveSidecar(fs: FileSystem, ghost p: Plan, ghost base: Names, from: Path, to: Path, ino: Inode, moved: seq<Entry>, s: nat)
    returns (r: Result<(), Failure>, log: seq<Entry>, ghost stray: Option<Entry>)
    requires Underway(fs, p) && s < 3 && from == p.Beside(s) && to == p.Kept(s)
    requires moved == fs.notes.moved && moved != [] && Preserved(p, fs.disk.names, moved, s)
    requires SoleFile(fs.disk, from) && fs.disk.names[from] == ino
    modifies fs
    ensures fs.Continues() && Underway(fs, p) && fs.mine == old(fs.mine)
    ensures log == fs.notes.moved
    ensures RoundDone(p, base, old(fs.disk), old(fs.notes), fs.disk, fs.notes, r, stray, s, fs.quiet)
    ensures RoundKeeps(p, old(fs.disk), old(fs.notes), fs.disk, fs.notes, r, s, fs.quiet)
    ensures fs.quiet && fs.faults == old(fs.faults) ==> stray == None && (r.Ok? <==> p.Kept(s) !in old(fs.disk.names))
    ensures r.Ok? ==> fs.faults == old(fs.faults)
  {
    log := moved;
    r, stray := ShiftSidecar(fs, p, base, from, to, ino, moved, s);
    if r.Ok? {
      RecordSidecar(fs, p, moved, s, Entry(from, to, ino));
      log := moved + [Entry(from, to, ino)];
      JustLogged(p, moved, s, ino);
    }
  }

  lemma JustLogged(p: Plan, moved: seq<Entry>, s: nat, i: Inode)
    requires s < 3
    ensures var log := moved + [Entry(p.Beside(s), p.Kept(s), i)]; moved <= log && Logged(p, log, s, i)
  {
    var log := moved + [Entry(p.Beside(s), p.Kept(s), i)];
    assert log[|moved|] == Entry(p.Beside(s), p.Kept(s), i);
  }

  /** The move without its log entry. */
  method ShiftSidecar(fs: FileSystem, ghost p: Plan, ghost base: Names, from: Path, to: Path, ino: Inode, ghost moved: seq<Entry>, ghost s: nat)
    returns (r: Result<(), Failure>, ghost stray: Option<Entry>)
    requires Underway(fs, p) && s < 3 && from == p.Beside(s) && to == p.Kept(s)
    requires moved == fs.notes.moved && moved != [] && Preserved(p, fs.disk.names, moved, s)
    requires SoleFile(fs.disk, from) && fs.disk.names[from] == ino
    modifies fs
    ensures fs.Continues() && Underway(fs, p) && fs.mine == old(fs.mine)
    ensures fs.notes.moved == moved && (r.Ok? ==> to !in old(fs.disk.names))
    ensures r.Err? ==> RoundDone(p, base, old(fs.disk), old(fs.notes), fs.disk, fs.notes, r, stray, s, fs.quiet)
    ensures r.Ok? ==>
              && stray == None && Undamaged(p, old(fs.disk), fs.disk) && Preserved(p, fs.disk.names, moved, s)
              && fs.notes.overlooked == old(fs.notes.overlooked) && fs.notes.strays == old(fs.notes.strays)
              && SoleFile(fs.disk, to) && fs.disk.names[to] == ino && ino != p.original && !p.Mine(ino)
              && (fs.quiet && Performed(base, old(fs.disk.names), moved, None) ==>
                    Performed(base, fs.disk.names, moved + [Entry(from, to, ino)], None))
    ensures OnlyLeaves(old(fs.disk.names), fs.disk.names, from)
    ensures fs.quiet && r.Ok? ==> fs.disk.names == MoveName(old(fs.disk.names), from, to)
    ensures fs.quiet && fs.faults == old(fs.faults) ==> stray == None && (r.Ok? <==> to !in old(fs.disk.names))
    ensures r.Ok? ==> fs.faults == old(fs.faults)
  {
    SidecarMayMove(fs, p, moved, s);
    ghost var x := Entry(from, to, ino);
    r, stray := Carry(fs, p, from, to, ino);
    if r.Ok? || stray.Some? {
      SidecarMoved(p, base, fs.quiet, old(fs.disk), fs.disk, moved, s, x);
      if stray.Some? { RoundStrayed(p, base, old(fs.disk), old(fs.notes), fs.disk, fs.notes, r, x, s, fs.quiet); }
    } else {
      RoundRefused(p, base, old(fs.disk), old(fs.notes), fs.disk, fs.notes, r, s, fs.quiet);
    }
  }

  lemma RoundRefused(p: Plan, base: Names, d: Disk, n: Notes, e: Disk, m: Notes, r: Result<(), Failure>, s: nat, quiet: bool)
    requires WellFormed(d) && Drift(quiet, d, e) && Preserved(p, d.names, n.moved, s) && n.moved != [] && p.rebuilt in d.nodes
    requires r.Err? && r.error.Plain?
    requires m.moved == n.moved && m.overlooked == n.overlooked && m.strays == n.strays
    ensures RoundDone(p, base, d, n, e, m, r, None, s, quiet)
  {
    PreservedDrifts(p, d, e, n.moved, s);
    SlotsWiden(p, n.moved, s, s + 1);
  }

  lemma RoundStrayed(p: Plan, base: Names, d: Disk, n: Notes, e: Disk, m: Notes, r: Result<(), Failure>, x: Entry, s: nat, quiet: bool)
    requires s < 3 && x.from == p.Beside(s) && x.to == p.Kept(s) && OnlyAt(e.names, x.ino, x.to)
    requires Undamaged(p, d, e) && Preserved(p, e.names, n.moved, s) && n.moved != []
    requires m.moved == n.moved && m.overlooked == n.overlooked && m.strays == n.strays + {x} && r.Err? && r.error.Plain?
    requires quiet && Performed(base, d.names, n.moved, None) ==> Performed(base, e.names, n.moved, Some(x))
    ensures RoundDone(p, base, d, n, e, m, r, Some(x), s, quiet)
  {
    SlotsWiden(p, n.moved, s, s + 1);
  }

  lemma SidecarMayMove(fs: FileSystem, p: Plan, moved: seq<Entry>, s: nat)
    requires Underway(fs, p) && s < 3 && moved == fs.notes.moved && moved != [] && Preserved(p, fs.disk.names, moved, s)
    ensures p.Valid() && p.rebuilt in fs.disk.nodes
    ensures p.Beside(s) in fs.disk.names ==>
              && fs.disk.names[p.Beside(s)] != p.original && !p.Mine(fs.disk.names[p.Beside(s)])
              && p.AllowedRename(fs.disk, fs.notes, p.Beside(s), p.Kept(s))
  {
    NamesKept(fs, p);
    assert moved[0] == p.Main();
    if p.Beside(s) in fs.disk.names {
      p.SidecarIsForeign(fs.disk.names, s);
      assert p.ArchivesSidecar(fs.disk.names, fs.notes, p.Beside(s), p.Kept(s));
    }
  }

  /** What the move of one sidecar does to what has been preserved. */
  lemma SidecarMoved(p: Plan, base: Names, quiet: bool, d: Disk, e: Disk, moved: seq<Entry>, s: nat, x: Entry)
    requires p.Valid() && WellFormed(d) && p.rebuilt in d.nodes && s < 3 && Preserved(p, d.names, moved, s)
    requires x.from == p.Beside(s) && x.to == p.Kept(s) && OnlyAt(d.names, x.ino, x.from) && !p.Mine(x.ino)
    requires Shifted(quiet, d, e, x.from, x.to) && x.ino in d.nodes && d.nodes[x.ino].kind == Regular
    ensures Undamaged(p, d, e) && Preserved(p, e.names, moved, s) && OnlyAt(e.names, x.ino, x.to)
    ensures SoleFile(e, x.to)
    ensures quiet && Performed(base, d.names, moved, None) ==>
              Performed(base, e.names, moved, Some(x)) && Performed(base, e.names, moved + [x], None)
  {
    ShiftedIsUndamaged(p, quiet, d, e, x.from, x.to);
    PreservedShifts(p, quiet, d, e, moved, s);
    ShiftedOnlyAt(quiet, d, e, x.from, x.to);
    if quiet && Performed(base, d.names, moved, None) {
      PerformedNext(base, d.names, moved, x);
    }
  }

  /** Every logged file and its name are durable, except a sidecar whose
      existence test failed. */
  ghost predicate Durable(p: Plan, d: Disk, n: Notes, moved: seq<Entry>) {
    && p.archive !in n.overlooked
    && forall x | x in moved :: x.to !in d.dirtyNames && (x.ino !in d.dirtyNodes || x.to in n.overlooked)
  }

  lemma UndamagedTransitive(p: Plan, d: Disk, e: Disk, f: Disk)
    requires Undamaged(p, d, e) && Undamaged(p, e, f)
    ensures Undamaged(p, d, f)
  {
  }

  lemma SteadyIsUndamaged(p: Plan, quiet: bool, d: Disk, e: Disk)
    requires Steady(quiet, d, e)
    ensures Undamaged(p, d, e)
  {
  }

  /** The path's first `s` sidecar names were seen absent, and free from the start. */
  ghost predicate AbsentUpTo(quiet: bool, d: Disk, n: Notes, e: Disk, m: Notes, path: Path, s: nat)
    requires s <= 3
  {
    && Drift(quiet, d, e) && m == n.(absent := m.absent) && SidecarsFree(d.names, path, s)
    && forall t | 0 <= t < s :: Sidecar(path, SIDECARS[t]) in m.absent
  }

  lemma OneMoreAbsent(quiet: bool, d: Disk, n: Notes, e: Disk, m: Notes, f: Disk, path: Path, s: nat)
    requires s < 3 && AbsentUpTo(quiet, d, n, e, m, path, s) && Drift(quiet, e, f) && Sidecar(path, SIDECARS[s]) !in e.names
    ensures AbsentUpTo(quiet, d, n, f, Noted(m, SeenAbsent(Sidecar(path, SIDECARS[s]))), path, s + 1)
  {
    GrewTransitive(d, e, f);
    OneMoreFree(d, e, path, s);
  }

  /** `absent` for each sidecar of a path. */
  method SidecarsAbsent(fs: FileSystem, path: Path) returns (r: Result<(), Failure>)
    requires fs.Valid()
    modifies fs
    ensures fs.Continues() && fs.mine == old(fs.mine) && Drift(fs.quiet, old(fs.disk), fs.disk)
    ensures r.Err? ==> r.error.Plain?
    ensures exists seen :: fs.notes == old(fs.notes).(absent := seen)
    ensures r.Ok? ==> forall s | 0 <= s < 3 :: Sidecar(path, SIDECARS[s]) in fs.notes.absent
    ensures r.Ok? ==> SidecarsFree(old(fs.disk.names), path, 3)
    ensures fs.quiet && fs.faults == old(fs.faults) && SidecarsFree(old(fs.disk.names), path, 3) ==> r.Ok?
    ensures r.Ok? ==> fs.faults == old(fs.faults)
  {
    r := Ok(());
    for s := 0 to 3
      invariant r.Ok? && fs.Continues() && fs.mine == old(fs.mine)
      invariant fs.faults == old(fs.faults)
      invariant AbsentUpTo(fs.quiet, old(fs.disk), old(fs.notes), fs.disk, fs.notes, path, s)
    {
      ghost var d, n := fs.disk, fs.notes;
      r := fs.Absent(Sidecar(path, SIDECARS[s]));
      if r.Err? {
        GrewTransitive(old(fs.disk), d, fs.disk);
        return;
      }
      OneMoreAbsent(fs.quiet, old(fs.disk), old(fs.notes), d, n, fs.disk, path, s);
    }
  }

  /** The first `s` rounds have logged every sidecar that was there at the start, and
      the rest are where they were; with no other writer, the names of the first
      are free, and the rest may go exactly if they could at the start. */
  ghost predicate RoundsDone(p: Plan, start: Disk, d: Disk, moved: seq<Entry>, s: nat, quiet: bool)
    requires s <= 3
  {
    && (forall t | 0 <= t < 3 && p.Beside(t) in start.names ::
          if t < s then Logged(p, moved, t, start.names[p.Beside(t)]) else At(d.names, p.Beside(t), start.names[p.Beside(t)]))
    && (quiet ==> forall t | 0 <= t < s :: p.Beside(t) !in d.names)
    && (quiet ==> forall t | s <= t < 3 :: MayGo(p, start, t) <==> MayGo(p, d, t))
  }

  lemma MayStillGo(p: Plan, d: Disk, e: Disk, s: nat, t: nat)
    requires p.Valid() && WellFormed(d) && s < 3 && t < 3 && s != t && NodesStay(d, e)
    requires e.names == if p.Beside(s) in d.names then MoveName(d.names, p.Beside(s), p.Kept(s)) else d.names
    requires p.Beside(s) in d.names ==> p.Kept(s) !in d.names
    ensures MayGo(p, d, t) <==> MayGo(p, e, t)
  {
    p.PathsDiffer();
    if p.Beside(s) in d.names && p.Beside(t) in d.names {
      var i := d.names[p.Beside(t)];
      assert At(e.names, p.Kept(s), d.names[p.Beside(s)]) && forall q | q in d.names && q != p.Beside(s) :: At(e.names, q, d.names[q]);
      if OnlyAt(e.names, i, p.Beside(t)) {
        assert OnlyAt(d.names, i, p.Beside(t));
      }
    }
  }

  lemma RoundsGoOn(p: Plan, start: Disk, d: Disk, n: Notes, e: Disk, m: Notes, s: nat, quiet: bool)
    requires p.Valid() && WellFormed(d) && s < 3 && NodesStay(d, e)
    requires RoundsDone(p, start, d, n.moved, s, quiet) && RoundKeeps(p, d, n, e, m, Ok(()), s, quiet)
    ensures RoundsDone(p, start, e, m.moved, s + 1, quiet)
  {
    p.PathsDiffer();
    if quiet {
      forall t | s < t < 3 ensures MayGo(p, start, t) <==> MayGo(p, e, t) {
        MayStillGo(p, d, e, s, t);
      }
    }
  }

  /** The sidecar loop, begun on disk `start` with notes `first`, before round `s`. */
  ghost predicate Archiving(p: Plan, base: Names, start: Disk, first: Notes, d: Disk, n: Notes, s: nat, quiet: bool)
    requires s <= 3
  {
    && n.moved != [] && n.strays == first.strays && n.overlooked == first.overlooked
    && Undamaged(p, start, d) && Preserved(p, d.names, n.moved, s) && RoundsDone(p, start, d, n.moved, s, quiet)
    && (quiet ==> Performed(base, d.names, n.moved, None) && Vacates(start.names, d.names, p.source))
  }

  lemma ArchivingStarts(p: Plan, base: Names, d: Disk, n: Notes, quiet: bool)
    requires n.moved != [] && Preserved(p, d.names, n.moved, 0) && (quiet ==> Performed(base, d.names, n.moved, None))
    ensures Archiving(p, base, d, n, d, n, 0, quiet)
  {
  }

  /** The loop ended by an error. */
  ghost predicate Stopped(p: Plan, base: Names, start: Disk, first: Notes, d: Disk, n: Notes, stray: Option<Entry>, quiet: bool) {
    && n.moved != [] && n.strays == first.strays + (if stray.Some? then {stray.value} else {}) && n.overlooked == first.overlooked
    && Undamaged(p, start, d) && Preserved(p, d.names, n.moved, 3)
    && (quiet ==> Performed(base, d.names, n.moved, stray))
    && (stray.Some? ==> IsStraySidecar(p, d.names, n.moved, stray.value))
  }

  /** One round, seen from where the loop began. */
  method NextRound(fs: FileSystem, ghost p: Plan, ghost base: Names, ghost start: Disk, ghost first: Notes,
                   source: Path, archive: Path, moved: seq<Entry>, s: nat)
    returns (r: Result<(), Failure>, log: seq<Entry>, ghost stray: Option<Entry>)
    requires Underway(fs, p) && p.source == source && p.archive == archive && s < 3 && moved == fs.notes.moved
    requires Archiving(p, base, start, first, fs.disk, fs.notes, s, fs.quiet)
    modifies fs
    ensures fs.Continues() && Underway(fs, p) && fs.mine == old(fs.mine)
    ensures log == fs.notes.moved
    ensures r.Ok? ==> stray == None && Archiving(p, base, start, first, fs.disk, fs.notes, s + 1, fs.quiet)
    ensures r.Err? ==> r.error.Plain? && Stopped(p, base, start, first, fs.disk, fs.notes, stray, fs.quiet)
    ensures fs.quiet && fs.faults == old(fs.faults) ==> stray == None && (r.Ok? <==> MayGo(p, start, s))
    ensures r.Ok? ==> fs.faults == old(fs.faults)
  {
    PlanKept(fs, p);
    r, log, stray := ArchiveSidecar(fs, p, base, source, archive, moved, s);
    UndamagedTransitive(p, start, old(fs.disk), fs.disk);
    if r.Ok? {
      p.PathsDiffer();
      RoundsGoOn(p, start, old(fs.disk), old(fs.notes), fs.disk, fs.notes, s, fs.quiet);
    } else {
      SlotsWiden(p, log, s + 1, 3);
      if stray.Some? { StrayIsApart(fs, p, log, s, stray.value); }
    }
  }

  /** The sidecar loop of preservation. Success means every sidecar that was there
      is logged; with no other writer and no failing call it succeeds exactly when
      each may go. */
  method ArchiveSidecars(fs: FileSystem, ghost p: Plan, ghost base: Names, source: Path, archive: Path, moved: seq<Entry>)
    returns (r: Result<(), Failure>, log: seq<Entry>, ghost stray: Option<Entry>)
    requires Underway(fs, p) && p.source == source && p.archive == archive
    requires moved == fs.notes.moved && moved != [] && Preserved(p, fs.disk.names, moved, 0)
    requires fs.quiet ==> Performed(base, fs.disk.names, moved, None)
    modifies fs
    ensures fs.Continues() && Underway(fs, p) && fs.mine == old(fs.mine)
    ensures log == fs.notes.moved && (r.Ok? ==> stray == None)
    ensures Stopped(p, base, old(fs.disk), old(fs.notes), fs.disk, fs.notes, stray, fs.quiet)
    ensures r.Err? ==> r.error.Plain?
    ensures r.Ok? ==> AllLogged(p, old(fs.disk.names), log)
    ensures r.Ok? && fs.quiet ==> SidecarsFree(fs.disk.names, source, 3) && Vacates(old(fs.disk.names), fs.disk.names, source)
    ensures fs.quiet && fs.faults == old(fs.faults) ==> stray == None && (r.Ok? <==> forall s | 0 <= s < 3 :: MayGo(p, old(fs.disk), s))
    ensures r.Ok? ==> fs.faults == old(fs.faults)
  {
    r, log, stray := Ok(()), moved, None;
    ArchivingStarts(p, base, fs.disk, fs.notes, fs.quiet);
    for s := 0 to 3
      invariant r.Ok? && stray == None && fs.Continues() && Underway(fs, p) && fs.mine == old(fs.mine)
      invariant fs.faults == old(fs.faults)
      invariant log == fs.notes.moved
      invariant Archiving(p, base, old(fs.disk), old(fs.notes), fs.disk, fs.notes, s, fs.quiet)
      invariant fs.quiet && fs.faults == old(fs.faults) ==> forall t | 0 <= t < s :: MayGo(p, old(fs.disk), t)
    {
      r, log, stray := NextRound(fs, p, base, old(fs.disk), old(fs.notes), source, archive, log, s);
      if r.Err? { return; }
    }
    ArchivingEnds(p, base, old(fs.disk), old(fs.notes), fs.disk, fs.notes, fs.quiet);
  }

  lemma ArchivingEnds(p: Plan, base: Names, start: Disk, first: Notes, d: Disk, n: Notes, quiet: bool)
    requires Archiving(p, base, start, first, d, n, 3, quiet)
    ensures Stopped(p, base, start, first, d, n, None, quiet) && AllLogged(p, start.names, n.moved)
    ensures quiet ==> SidecarsFree(d.names, p.source, 3) && Vacates(start.names, d.names, p.source)
  {
    forall s | quiet && 0 <= s < 3 ensures Sidecar(p.source, SIDECARS[s]) !in d.names {
      assert p.Beside(s) == Sidecar(p.source, SIDECARS[s]);
    }
  }

  /** A sidecar under its archive name that no log entry mentions. */
  ghost predicate IsStraySidecar(p: Plan, names: Names, moved: seq<Entry>, x: Entry) {
    p.IsSidecar(x) && x.from != x.to && At(names, x.to, x.ino) && Apart(moved, x)
  }

  /** Every sidecar that was there is logged. */
  ghost predicate AllLogged(p: Plan, names: Names, moved: seq<Entry>) {
    forall s | 0 <= s < 3 && p.Beside(s) in names :: Logged(p, moved, s, names[p.Beside(s)])
  }

  /** The name is not taken anew. */
  ghost predicate Vacates(d: Names, e: Names, path: Path) {
    path !in d ==> path !in e
  }

  lemma StrayIsApart(fs: FileSystem, p: Plan, moved: seq<Entry>, s: nat, x: Entry)
    requires fs.Valid() && fs.plan == Some(p) && p.IsLog(moved)
    requires s < 3 && x.from == p.Beside(s) && x.to == p.Kept(s) && At(fs.disk.names, x.to, x.ino)
    requires SlotsBefore(p, moved, s)
    ensures IsStraySidecar(p, fs.disk.names, moved, x)
  {
    PlanKept(fs, p);
    p.PathsDiffer();
    forall e | e in moved ensures e.from != x.from && e.from != x.to && e.to != x.from && e.to != x.to {
      var j :| 0 <= j < |moved| && moved[j] == e;
      assert j > 0 ==> SlotBefore(p, moved[j], s);
    }
  }

  /** Nothing logged was overlooked. */
  ghost predicate AllSeen(n: Notes, moved: seq<Entry>) {
    forall x | x in moved :: x.to !in n.overlooked
  }

  /** The existence test sees every logged file, unless its call fails. */
  lemma LoggedAreSeen(fs: FileSystem, p: Plan, moved: seq<Entry>)
    requires fs.Valid() && fs.plan == Some(p) && moved == fs.notes.moved && p.Archived(fs.disk.names, moved)
    ensures forall x | x in moved :: Opens(fs.disk, x.to) && LinksFile(fs.disk, x.to)
  {
    fs.Sound();
    forall x | x in moved ensures Opens(fs.disk, x.to) && LinksFile(fs.disk, x.to) {
      var j :| 0 <= j < |moved| && moved[j] == x;
      assert At(fs.disk.names, x.to, x.ino);
      FileOpens(fs.disk, x.to);
    }
  }

  lemma DurableAfterSync(p: Plan, d: Disk, e: Disk, n: Notes, moved: seq<Entry>)
    requires p.Valid() && WellFormed(d) && Grew(d, e) && Preserved(p, d.names, moved, 3) && moved != []
    requires d.names[p.archive] !in e.dirtyNodes
    requires forall s | 0 <= s < 3 :: SidecarDurable(d, e, n, p.archive, s)
    requires forall q | q in d.names && q.dir == p.archive.dir :: q !in e.dirtyNames
    requires forall q | q in n.overlooked :: IsSidecarOf(q, p.archive)
    requires p.archive in d.names && forall x | x in moved :: LinksFile(d, x.to)
    ensures Durable(p, e, n, moved)
  {
    forall x | x in moved ensures x.to !in e.dirtyNames && (x.ino !in e.dirtyNodes || x.to in n.overlooked) {
      var j :| 0 <= j < |moved| && moved[j] == x;
      assert At(d.names, x.to, x.ino);
      if j > 0 {
        var t := if InSlot(p, x, 0) then 0 else if InSlot(p, x, 1) then 1 else 2;
        assert SlotBefore(p, x, 3);
        assert SidecarDurable(d, e, n, p.archive, t);
      } else {
        assert x == p.Main();
      }
    }
    MembersDiffer(p.archive, p.archive, 0, 1);
    MembersDiffer(p.archive, p.archive, 0, 2);
    MembersDiffer(p.archive, p.archive, 0, 3);
  }

  lemma DurableDrifts(p: Plan, d: Disk, e: Disk, n: Notes, moved: seq<Entry>)
    requires Grew(d, e) && WellFormed(d) && p.Archived(d.names, moved) && Durable(p, d, n, moved)
    ensures Durable(p, e, n, moved)
  {
    forall x | x in moved ensures x.to !in e.dirtyNames && (x.ino !in e.dirtyNodes || x.to in n.overlooked) {
      var j :| 0 <= j < |moved| && moved[j] == x;
      assert At(d.names, x.to, x.ino);
    }
  }

  /** Sync what has been archived, and look at staging once more. */
  method SyncArchive(fs: FileSystem, ghost p: Plan, stage: Stage, archive: Path, moved: seq<Entry>) returns (r: Result<(), Failure>)
    requires Underway(fs, p) && Staged(p, stage) && p.archive == archive && moved == fs.notes.moved && moved != []
    requires Preserved(p, fs.disk.names, moved, 3) && fs.notes.overlooked == {}
    modifies fs
    ensures fs.Continues() && Underway(fs, p) && fs.mine == old(fs.mine) && SameLog(old(fs.notes), fs.notes)
    ensures Steady(fs.quiet, old(fs.disk), fs.disk)
    ensures Preserved(p, fs.disk.names, moved, 3)
    ensures r.Err? ==> r.error.Plain?
    ensures r.Ok? ==> Durable(p, fs.disk, fs.notes, moved)
    ensures fs.faults == old(fs.faults) ==> r.Ok? && AllSeen(fs.notes, moved)
    ensures r.Ok? ==> fs.faults <= old(fs.faults) + 3
    ensures r.Ok? ==> fs.checks >= old(fs.checks) + 3
  {
    PlanKept(fs, p);
    r := SyncLogged(fs, p, archive, moved);
    ghost var d := fs.disk;
    PreservedDrifts(p, old(fs.disk), d, moved, 3);
    if r.Err? { return; }
    StageIsPrivate(fs, p, stage);
    r := LookAgain(fs, stage);
    GrewTransitive(old(fs.disk), d, fs.disk);
    PreservedDrifts(p, d, fs.disk, moved, 3);
    DurableDrifts(p, d, fs.disk, fs.notes, moved);
  }

  method SyncLogged(fs: FileSystem, ghost p: Plan, archive: Path, moved: seq<Entry>) returns (r: Result<(), Failure>)
    requires Underway(fs, p) && p.archive == archive && moved == fs.notes.moved && moved != []
    requires Preserved(p, fs.disk.names, moved, 3) && fs.notes.overlooked == {}
    modifies fs
    ensures fs.Continues() && Underway(fs, p) && fs.mine == old(fs.mine) && SameLog(old(fs.notes), fs.notes)
    ensures Steady(fs.quiet, old(fs.disk), fs.disk)
    ensures r.Err? ==> r.error.Plain?
    ensures r.Ok? ==> Durable(p, fs.disk, fs.notes, moved)
    ensures fs.faults == old(fs.faults) ==> r.Ok? && AllSeen(fs.notes, moved)
    ensures r.Ok? ==> fs.faults <= old(fs.faults) + 3
  {
    PlanKept(fs, p);
    LoggedAreSeen(fs, p, moved);
    assert moved[0] == p.Main() && p.Main() in moved;
    r := SyncDatabaseFiles(fs, archive, true);
    if r.Ok? { DurableAfterSync(p, old(fs.disk), fs.disk, fs.notes, moved); }
  }

  /** The stage is the plan's. */
  ghost predicate Staged(p: Plan, stage: Stage)
    reads stage
  {
    stage.path == p.staging && stage.directory == p.directory && stage.file == p.rebuilt && stage.journal == Some(p.journal)
  }

  /** Until the clean-up staging is there and private. */
  lemma StageIsPrivate(fs: FileSystem, p: Plan, stage: Stage)
    requires fs.Valid() && fs.plan == Some(p) && Staged(p, stage) && fs.notes.cleaning == None
    ensures stage.Private(fs.disk)
  {
    fs.Sound();
    assert p.Mine(p.directory);
  }

  /** The checkpoint, and staging's own check. */
  method LookAgain(fs: FileSystem, stage: Stage) returns (r: Result<(), Failure>)
    requires fs.Valid()
    modifies fs
    ensures fs.Continues() && fs.mine == old(fs.mine) && fs.notes == old(fs.notes)
    ensures Drift(fs.quiet, old(fs.disk), fs.disk)
    ensures r.Err? ==> r.error.Plain?
    ensures fs.faults == old(fs.faults) && stage.Private(old(fs.disk)) ==> r.Ok?
    ensures r.Ok? ==> fs.faults == old(fs.faults)
    ensures r.Ok? ==> fs.checks >= old(fs.checks) + 3
  {
    var go := fs.Probe();
    if !go { return Err(Plain("injected_failure")); }
    ghost var d := fs.disk;
    r := stage.Check(fs);
    GrewTransitive(old(fs.disk), d, fs.disk);
  }

  /** How preservation may end: a refusal before anything moved, or with part of
      the files moved; the last move may have happened without being logged. */
  ghost predicate PreservationEnds(p: Plan, names: Names, moved: seq<Entry>, stray: Option<Entry>) {
    match stray
    case None => true
    case Some(x) => if moved == [] then x == p.Main() && At(names, p.archive, p.original) else IsStraySidecar(p, names, moved, x)
  }

  /** What preservation asks of the directory: the archive's four names are free,
      and what is beside the source is plain files with one name each. */
  ghost predicate CanPreserve(p: Plan, d: Disk) {
    && p.archive !in d.names && SidecarsFree(d.names, p.archive, 3)
    && forall s | 0 <= s < 3 && p.Beside(s) in d.names :: SoleFile(d, p.Beside(s))
  }

  /** Nothing is at the source's four names. */
  ghost predicate Vacated(p: Plan, names: Names) {
    p.source !in names && SidecarsFree(names, p.source, 3)
  }

  /** The `preserve` step: archive the main file, then each sidecar found, then
      make the archive durable. Success means every sidecar that was there at the
      start is logged; with no other writer and no failing call it succeeds exactly
      when nothing is in the way. */
  method Preserve(fs: FileSystem, ghost p: Plan, stage: Stage, source: Path, archive: Path, original: Inode)
    returns (r: Result<(), Failure>, moved: seq<Entry>, ghost stray: Option<Entry>)
    requires Underway(fs, p) && Staged(p, stage) && p.Main() == Entry(source, archive, original)
    requires fs.notes.moved == [] && fs.notes.overlooked == {} && At(fs.disk.names, source, original)
    modifies fs
    ensures fs.Continues() && Underway(fs, p) && fs.mine == old(fs.mine)
    ensures moved == fs.notes.moved
    ensures fs.notes.strays == old(fs.notes.strays) + (if stray.Some? then {stray.value} else {})
    ensures Undamaged(p, old(fs.disk), fs.disk)
    ensures Preserved(p, fs.disk.names, moved, 3)
    ensures fs.quiet ==> Performed(old(fs.disk.names), fs.disk.names, moved, stray)
    ensures PreservationEnds(p, fs.disk.names, moved, stray)
    ensures r.Err? ==> r.error.Plain?
    ensures r.Ok? ==>
              && stray == None && moved != [] && Durable(p, fs.disk, fs.notes, moved)
              && AllLogged(p, old(fs.disk.names), moved) && (fs.quiet ==> Vacated(p, fs.disk.names))
    ensures r.Ok? && fs.faults == old(fs.faults) ==> AllSeen(fs.notes, moved)
    ensures fs.quiet && fs.faults == old(fs.faults) ==> stray == None && (r.Ok? <==> CanPreserve(p, old(fs.disk)))
    ensures r.Ok? ==> fs.faults <= old(fs.faults) + 3
    ensures r.Ok? ==> fs.checks >= old(fs.checks) + 5
  {
    r, moved, stray := PreserveMain(fs, p, source, archive, original);
    if r.Err? { return; }
    ghost var d := fs.disk;
    StillMayGo(p, old(fs.disk), d, fs.quiet);
    r, moved, stray := ArchiveRest(fs, p, stage, old(fs.disk), source, archive, moved);
  }

  /** Moving the main file leaves the sidecars as they were. */
  lemma StillMayGo(p: Plan, d: Disk, e: Disk, quiet: bool)
    requires p.Valid() && WellFormed(d) && Undamaged(p, d, e) && OnlyLeaves(d.names, e.names, p.source)
    requires SidecarsFree(d.names, p.archive, 3)
    requires quiet ==> p.source in d.names && p.archive !in d.names && e.names == MoveName(d.names, p.source, p.archive)
    ensures forall s | 0 <= s < 3 && p.Beside(s) in d.names :: At(e.names, p.Beside(s), d.names[p.Beside(s)])
    ensures quiet ==> (CanPreserve(p, d) <==> forall s | 0 <= s < 3 :: MayGo(p, e, s))
  {
    p.PathsDiffer();
    if quiet {
      forall s | 0 <= s < 3 && p.Beside(s) in d.names ensures SoleFile(d, p.Beside(s)) <==> MayGo(p, e, s) {
        var i := d.names[p.Beside(s)];
        assert At(e.names, p.archive, d.names[p.source]) && forall q | q in d.names && q != p.source :: At(e.names, q, d.names[q]);
        if OnlyAt(e.names, i, p.Beside(s)) { assert OnlyAt(d.names, i, p.Beside(s)); }
      }
    }
  }

  /** The archive's sidecar names are free, and the main file goes there. */
  method PreserveMain(fs: FileSystem, ghost p: Plan, source: Path, archive: Path, original: Inode)
    returns (r: Result<(), Failure>, moved: seq<Entry>, ghost stray: Option<Entry>)
    requires Underway(fs, p) && p.Main() == Entry(source, archive, original)
    requires fs.notes.moved == [] && At(fs.disk.names, source, original)
    modifies fs
    ensures fs.Continues() && Underway(fs, p) && fs.mine == old(fs.mine)
    ensures moved == fs.notes.moved && fs.notes.overlooked == old(fs.notes.overlooked)
    ensures fs.notes.strays == old(fs.notes.strays) + (if stray.Some? then {stray.value} else {})
    ensures Undamaged(p, old(fs.disk), fs.disk) && p.Valid()
    ensures Preserved(p, fs.disk.names, moved, 0) && Preserved(p, fs.disk.names, moved, 3)
    ensures fs.quiet ==> Performed(old(fs.disk.names), fs.disk.names, moved, stray)
    ensures PreservationEnds(p, fs.disk.names, moved, stray)
    ensures if r.Ok? then moved == [p.Main()] && stray == None else r.error.Plain?
    ensures OnlyLeaves(old(fs.disk.names), fs.disk.names, source)
    ensures r.Ok? ==> SidecarsFree(old(fs.disk.names), archive, 3)
    ensures fs.quiet && r.Ok? ==> archive !in old(fs.disk.names) && fs.disk.names == MoveName(old(fs.disk.names), source, archive)
    ensures fs.quiet && fs.faults == old(fs.faults) ==>
              stray == None && (r.Ok? <==> archive !in old(fs.disk.names) && SidecarsFree(old(fs.disk.names), archive, 3))
    ensures r.Ok? ==> fs.faults == old(fs.faults)
    ensures r.Ok? ==> fs.checks >= old(fs.checks) + 2
  {
    moved, stray := [], None;
    PlanKept(fs, p);
    PerformedNothing(old(fs.disk.names));
    r := SidecarsAbsent(fs, archive);
    ghost var d := fs.disk;
    if r.Err? { return; }
    r, moved, stray := ArchiveMain(fs, p, source, archive, original);
    UndamagedTransitive(p, old(fs.disk), d, fs.disk);
    SlotsWiden(p, moved, 0, 3);
  }

  method ArchiveRest(fs: FileSystem, ghost p: Plan, stage: Stage, ghost start: Disk, source: Path, archive: Path, main: seq<Entry>)
    returns (r: Result<(), Failure>, moved: seq<Entry>, ghost stray: Option<Entry>)
    requires Underway(fs, p) && Staged(p, stage) && p.source == source && p.archive == archive
    requires main == fs.notes.moved && main != [] && Preserved(p, fs.disk.names, main, 0) && fs.notes.overlooked == {}
    requires Undamaged(p, start, fs.disk)
    requires fs.quiet ==> Performed(start.names, fs.disk.names, main, None) && source !in fs.disk.names
    modifies fs
    ensures fs.Continues() && Underway(fs, p) && fs.mine == old(fs.mine)
    ensures moved == fs.notes.moved
    ensures fs.notes.strays == old(fs.notes.strays) + (if stray.Some? then {stray.value} else {})
    ensures Undamaged(p, start, fs.disk)
    ensures Preserved(p, fs.disk.names, moved, 3)
    ensures fs.quiet ==> Performed(start.names, fs.disk.names, moved, stray)
    ensures PreservationEnds(p, fs.disk.names, moved, stray) && moved != []
    ensures r.Err? ==> r.error.Plain?
    ensures r.Ok? ==>
              && stray == None && Durable(p, fs.disk, fs.notes, moved)
              && AllLogged(p, old(fs.disk.names), moved) && (fs.quiet ==> Vacated(p, fs.disk.names))
    ensures r.Ok? && fs.faults == old(fs.faults) ==> AllSeen(fs.notes, moved)
    ensures fs.quiet && fs.faults == old(fs.faults) ==> stray == None && (r.Ok? <==> forall s | 0 <= s < 3 :: MayGo(p, old(fs.disk), s))
    ensures r.Ok? ==> fs.faults <= old(fs.faults) + 3
    ensures r.Ok? ==> fs.checks >= old(fs.checks) + 3
  {
    r, moved, stray := ArchiveSidecars(fs, p, start.names, source, archive, main);
    ghost var d := fs.disk;
    UndamagedTransitive(p, start, old(fs.disk), d);
    if r.Err? { return; }
    r := SyncArchive(fs, p, stage, archive, moved);
    SteadyIsUndamaged(p, fs.quiet, d, fs.disk);
    UndamagedTransitive(p, start, d, fs.disk);
  }
}
