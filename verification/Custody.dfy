/** The custody protocol of recovery as a rule on single steps, and what every
    run that keeps to the rule preserves.

    `Allowed` says which steps recovery may take and when. The imperative code in
    Recovery is proved to take no other; the theorems here hold of every run of
    allowed steps, cut off at any moment, with any other writer that only adds
    names of its own. */
module Custody {
  import opened Wrappers
  import opened Databases
  import opened Paths
  import opened Disks

  const PRIVATE_FILE: Mode := 0x180      // 0o600
  const PRIVATE_DIRECTORY: Mode := 0x1C0 // 0o700
  const REFUSED_BITS: Mode := 0xE49      // 0o7111
  const KEPT_BITS: Mode := 0x1B6         // 0o666

  /** What a recovery has fixed once its staging exists. */
  datatype Plan = Plan(
    source: Path,
    archive: Path,
    original: Inode,
    mode: Mode,
    staging: Path,
    directory: Inode,
    rebuilt: Inode,
    journal: Inode,
    quiet: bool,
    engine: Engine,
    snapshot: Database)
  {
    function Temporary(): Path { Child(staging, "rebuilt.db") }
    function Journal(): Path { Sidecar(Temporary(), "-journal") }
    function Failed(): Path { Child(staging, "failed.db") }
    function Beside(s: nat): Path requires s < 3 { Sidecar(source, SIDECARS[s]) }
    function Kept(s: nat): Path requires s < 3 { Sidecar(archive, SIDECARS[s]) }
    function Main(): Entry { Entry(source, archive, original) }
    function Activation(): Entry { Entry(Temporary(), source, rebuilt) }

    predicate Mine(i: Inode) {
      i == directory || i == rebuilt || i == journal
    }

    ghost predicate Valid() {
      && ValidRecoveryPaths(source, archive)
      && staging.dir == source.dir && staging != source
      && (forall s | 0 <= s < 3 :: staging != Beside(s) && staging != Kept(s))
      && !Mine(original)
      && directory != rebuilt && directory != journal && rebuilt != journal
    }

    /** The entry moves one sidecar between the source's and the archive's name for it. */
    ghost predicate IsSidecar(x: Entry) {
      exists s | 0 <= s < 3 :: x.from == Beside(s) && x.to == Kept(s)
    }

    /** The undo log begins with the main file; each sidecar follows at most once. */
    ghost predicate IsLog(moved: seq<Entry>) {
      && (moved != [] ==> moved[0] == Main())
      && (forall j | 1 <= j < |moved| :: IsSidecar(moved[j]) && moved[j].ino != original && !Mine(moved[j].ino))
      && (forall i, j | 1 <= i < j < |moved| :: moved[i].from != moved[j].from)
    }

    /** Every logged file is where it was put. */
    ghost predicate Archived(names: Names, moved: seq<Entry>) {
      forall j | 0 <= j < |moved| :: At(names, moved[j].to, moved[j].ino)
    }

    /** Every logged sidecar is where it came from. */
    ghost predicate SidecarsHome(names: Names, moved: seq<Entry>) {
      forall j | 1 <= j < |moved| :: At(names, moved[j].from, moved[j].ino)
    }

    /** The replacement may take the source's name: it carries the source's
        database and permission bits, it and the archived files are synced,
        every logged file is archived, and the names beside the source were each
        seen absent since the last move. */
    ghost predicate Gate(d: Disk, n: Notes) {
      && rebuilt in d.nodes && original in d.nodes
      && d.nodes[rebuilt].data.Image? && d.nodes[rebuilt].data.checked
      && Faithful(engine, snapshot, d.nodes[rebuilt].data.db)
      && d.nodes[rebuilt].mode == d.nodes[original].mode
      && rebuilt !in d.dirtyNodes
      && n.moved != [] && Archived(d.names, n.moved)
      && (forall x | x in n.moved :: x.to !in d.dirtyNames && (x.ino !in d.dirtyNodes || x.to in n.overlooked))
      && archive !in n.overlooked
      && (forall s | 0 <= s < 3 :: Beside(s) in n.absent)
    }

    ghost predicate ArchivesMain(names: Names, n: Notes, from: Path, to: Path) {
      from == source && to == archive && At(names, from, original) && n.moved == []
    }

    ghost predicate ArchivesSidecar(names: Names, n: Notes, from: Path, to: Path) {
      && (exists s | 0 <= s < 3 :: from == Beside(s) && to == Kept(s))
      && from in names && names[from] != original && !Mine(names[from])
      && At(names, archive, original) && !At(names, source, rebuilt)
    }

    ghost predicate Activates(d: Disk, n: Notes, from: Path, to: Path) {
      from == Temporary() && to == source && At(d.names, from, rebuilt) && Gate(d, n)
    }

    ghost predicate Quarantines(d: Disk, n: Notes, from: Path, to: Path) {
      from == source && to == Failed() && At(d.names, from, rebuilt) && At(d.names, staging, directory)
      && Activation() !in n.strays && rebuilt in d.nodes && d.nodes[rebuilt].mode == PRIVATE_FILE
    }

    ghost predicate RestoresSidecar(names: Names, n: Notes, from: Path, to: Path) {
      && (exists s | 0 <= s < 3 :: from == Kept(s) && to == Beside(s))
      && from in names && names[from] != original && !Mine(names[from])
      && At(names, archive, original) && (At(names, source, rebuilt) ==> Activation() in n.strays)
    }

    ghost predicate RestoresMain(names: Names, n: Notes, from: Path, to: Path) {
      from == archive && to == source && At(names, from, original) && SidecarsHome(names, n.moved)
    }

    ghost predicate AllowedRename(d: Disk, n: Notes, from: Path, to: Path) {
      && !n.live && n.cleaning == None
      && (|| ArchivesMain(d.names, n, from, to)
          || ArchivesSidecar(d.names, n, from, to)
          || Activates(d, n, from, to)
          || Quarantines(d, n, from, to)
          || RestoresSidecar(d.names, n, from, to)
          || RestoresMain(d.names, n, from, to))
    }

    ghost predicate AllowedLibrary(names: Names, n: Notes, path: Path, confined: bool) {
      && n.cleaning == None
      && (|| (path == source && n.live && At(names, source, original))
          || (path == source && At(names, source, rebuilt) && Activation() !in n.strays)
          || (path == Temporary() && confined && At(names, path, rebuilt)))
    }

    ghost predicate AllowedRecord(d: Disk, n: Notes, x: Entry) {
      var names := d.names;
      && x.ino in d.nodes && d.nodes[x.ino].kind == Regular
      && !n.live && At(names, archive, original) && !At(names, source, rebuilt) && OnlyAt(names, x.ino, x.to)
      && IsLog(n.moved + [x])
    }

    /** The steps recovery may take from moment `m`. The old handle is closed once
        and reopened once; nothing is removed before the clean-up begins, and the
        clean-up does nothing but remove and sync. */
    ghost predicate Allowed(m: Moment, e: Event) {
      match e
      case Library(path, confined) => AllowedLibrary(m.disk.names, m.notes, path, confined)
      case Create(_, _, _, _) => false
      case Replace(_, _) => false
      case Rename(from, to) => AllowedRename(m.disk, m.notes, from, to)
      case Remove(p) =>
        m.notes.cleaning.Some? && p in m.disk.names && Mine(m.disk.names[p]) && (p == Temporary() || p == Journal())
      case RemoveDirectory(p) => m.notes.cleaning.Some? && p == staging && At(m.disk.names, p, directory)
      case Chmod(i, _) => m.notes.cleaning == None && i == rebuilt && !At(m.disk.names, Failed(), rebuilt)
      case Recorded(x) => AllowedRecord(m.disk, m.notes, x)
      case Strayed(x) => At(m.disk.names, x.to, x.ino)
      case Closed(_) => m.notes.moved == [] && m.notes.closed == None
      case Reopened(_) => At(m.disk.names, source, original) && m.notes.closed.Some? && m.notes.reopened == None
      case Cleaning(_) => m.notes.cleaning == None
      case _ => true
    }

    // What holds at every moment

    /** The original has exactly one name, the source's or the archive's. */
    ghost predicate HasCustody(names: Names) {
      OnlyAt(names, original, source) || OnlyAt(names, original, archive)
    }

    /** With the original main file back at the source, so is every sidecar in
        the undo log; with the replacement there, every original file is archived. */
    ghost predicate Ordered(names: Names, n: Notes) {
      && (!n.live && At(names, source, original) ==> SidecarsHome(names, n.moved))
      && (At(names, source, rebuilt) && Activation() !in n.strays ==> n.moved != [] && Archived(names, n.moved))
    }

    /** Recovery's own inodes are only at the names it gives them. */
    ghost predicate Owned(names: Names) {
      && (forall p | p in names && names[p] == directory :: p == staging)
      && (forall p | p in names && names[p] == journal :: p == Journal())
      && (forall p | p in names && names[p] == rebuilt :: p == Temporary() || p == source || p == Failed())
      && (forall p, q | p in names && q in names && names[p] == rebuilt && names[q] == rebuilt :: p == q)
    }

    ghost predicate NodesKept(d: Disk) {
      && original in d.nodes && d.nodes[original].kind == Regular && d.nodes[original].mode == mode
      && (forall i | Mine(i) :: i in d.nodes && d.nodes[i].kind == if i == directory then Directory else Regular)
      && d.nodes[directory].mode == PRIVATE_DIRECTORY
      && (At(d.names, Failed(), rebuilt) ==> d.nodes[rebuilt].mode == PRIVATE_FILE)
    }

    /** Every logged file is a plain one. */
    ghost predicate LogPlain(d: Disk, moved: seq<Entry>) {
      forall x | x in moved :: x.ino in d.nodes && d.nodes[x.ino].kind == Regular
    }

    /** Between the close of the old handle and its reopening, each logged file
        has exactly one name: where it came from or where it was put. */
    ghost predicate Placed(names: Names, moved: seq<Entry>) {
      forall j | 0 <= j < |moved| ::
        OnlyAt(names, moved[j].ino, moved[j].from) || OnlyAt(names, moved[j].ino, moved[j].to)
    }

    /** The staging directory is there until the clean-up, and for as long as it
        holds the failed replacement; one that strayed to the source is never in it. */
    ghost predicate Sheltered(names: Names, n: Notes) {
      && (n.cleaning == None || At(names, Failed(), rebuilt) ==> At(names, staging, directory))
      && (Activation() in n.strays ==> !At(names, Failed(), rebuilt))
    }

    /** What only holds when no other writer adds names. */
    ghost predicate Undisturbed(names: Names, n: Notes) {
      && (forall p | p in n.absent :: p !in names)
      && (staging != archive && archive in names ==> names[archive] == original)
      && (forall p | p in names && p.dir == staging.dir + [staging.name] :: Mine(names[p]))
    }

    ghost predicate Invariant(m: Moment) {
      var d, n := m.disk, m.notes;
      && WellFormed(d)
      && HasCustody(d.names)
      && (n.live ==> At(d.names, source, original))
      && Owned(d.names)
      && NodesKept(d)
      && IsLog(n.moved) && LogPlain(d, n.moved)
      && (!n.live ==> Placed(d.names, n.moved))
      && Ordered(d.names, n)
      && Sheltered(d.names, n)
      && (quiet ==> Undisturbed(d.names, n))
    }

    /** The moment staging is complete: nothing moved, the old handle still open. */
    ghost predicate Begins(m: Moment) {
      var d, n := m.disk, m.notes;
      && Valid() && WellFormed(d)
      && OnlyAt(d.names, original, source)
      && Owned(d.names) && NodesKept(d) && At(d.names, staging, directory) && At(d.names, Temporary(), rebuilt)
      && n.moved == [] && n.strays == {} && n.live && n.closed == None && n.reopened == None && n.cleaning == None
      && (quiet ==> Undisturbed(d.names, n))
    }

    ghost predicate AllowedAt(trail: seq<Moment>, since: nat, k: nat)
      requires since <= k < |trail|
    {
      if k == since then Begins(trail[k]) else Allowed(trail[k - 1], trail[k].event)
    }

    /** A run that, from moment `since` on, takes only allowed steps. */
    ghost predicate Obeyed(trail: seq<Moment>, since: nat) {
      since < |trail| && forall k | since <= k < |trail| :: AllowedAt(trail, since, k)
    }

    lemma ObeyedExtends(trail: seq<Moment>, since: nat, m: Moment)
      requires Obeyed(trail, since) && Allowed(trail[|trail| - 1], m.event)
      ensures Obeyed(trail + [m], since)
    {
      forall k | since <= k < |trail + [m]| ensures AllowedAt(trail + [m], since, k) {
        if k < |trail| { assert AllowedAt(trail, since, k); }
      }
    }

    /** Other writers cannot turn an allowed rename into a forbidden one. */
    lemma RenameStaysAllowed(d: Disk, d': Disk, n: Notes, from: Path, to: Path)
      requires WellFormed(d) && NodesKept(d) && Grew(d, d')
      requires from in d.names && AllowedRename(d, n, from, to)
      ensures AllowedRename(d', n, from, to)
    {
      assert forall p, i | i in d.nodes && At(d'.names, p, i) :: At(d.names, p, i);
      if Activates(d, n, from, to) {
        forall x | x in n.moved
          ensures x.to !in d'.dirtyNames && (x.ino !in d'.dirtyNodes || x.to in n.overlooked)
        {
          var j :| 0 <= j < |n.moved| && n.moved[j] == x;
          assert At(d.names, x.to, x.ino);
        }
        assert Activates(d', n, from, to);
      }
    }

    // The paths of a plan do not collide

    lemma PathsDiffer()
      requires Valid()
      ensures source != archive
      ensures forall s | 0 <= s < 3 :: Beside(s) != source && Beside(s) != archive && Kept(s) != source && Kept(s) != archive
      ensures forall s, t | 0 <= s < 3 && 0 <= t < 3 :: Beside(s) != Kept(t)
      ensures forall s, t | 0 <= s < t < 3 :: Beside(s) != Beside(t) && Kept(s) != Kept(t)
    {
      forall s | 0 <= s < 3 ensures Beside(s) == Member(source, s + 1) && Kept(s) == Member(archive, s + 1) {}
      forall s | 0 <= s < 3
        ensures Beside(s) != source && Beside(s) != archive && Kept(s) != source && Kept(s) != archive
      {
        MembersDiffer(source, source, s + 1, 0);
        MembersDiffer(source, archive, s + 1, 0);
        MembersDiffer(source, archive, 0, s + 1);
        MembersDiffer(archive, archive, s + 1, 0);
      }
      forall s, t | 0 <= s < 3 && 0 <= t < 3 ensures Beside(s) != Kept(t) {
        MembersDiffer(source, archive, s + 1, t + 1);
      }
      forall s, t | 0 <= s < t < 3 ensures Beside(s) != Beside(t) && Kept(s) != Kept(t) {
        MembersDiffer(source, source, s + 1, t + 1);
        MembersDiffer(archive, archive, s + 1, t + 1);
      }
    }

    lemma StagingApart()
      requires Valid()
      ensures Temporary() != Failed() && Temporary() != Journal() && Failed() != Journal()
      ensures forall p: Path | p.dir == source.dir :: p != Temporary() && p != Failed() && p != Journal()
      ensures !IsSidecarOf(Temporary(), Temporary()) && !IsSidecarOf(Failed(), Temporary())
      ensures forall p: Path | p.dir == source.dir :: !IsSidecarOf(p, Temporary())
      ensures forall p: Path | p.dir != source.dir :: !IsSidecarOf(p, source)
    {
      assert |Temporary().dir| == |source.dir| + 1;
      forall s | 0 <= s < 3 ensures Temporary().name + SIDECARS[s] != "rebuilt.db" && Temporary().name + SIDECARS[s] != "failed.db" {
        assert |"rebuilt.db" + SIDECARS[s]| > |"rebuilt.db"| > |"failed.db"|;
      }
      assert Journal().name == "rebuilt.db" + SIDECARS[2];
    }

    lemma SourceSidecarsApart()
      requires Valid()
      ensures !IsSidecarOf(source, source) && !IsSidecarOf(archive, source)
      ensures forall s | 0 <= s < 3 :: !IsSidecarOf(Kept(s), source)
    {
      PathsDiffer();
      assert forall p | IsSidecarOf(p, source) :: p == Beside(0) || p == Beside(1) || p == Beside(2);
    }

    // What may be recorded

    lemma MainMayBeRecorded(d: Disk, n: Notes)
      requires Valid() && HasCustody(d.names) && original in d.nodes && d.nodes[original].kind == Regular && !n.live && n.moved == []
      requires At(d.names, archive, original) && !At(d.names, source, rebuilt)
      ensures n.moved + [Main()] == [Main()] && AllowedRecord(d, n, Main())
    {
      assert n.moved + [Main()] == [Main()];
    }

    lemma SidecarMayBeRecorded(d: Disk, n: Notes, s: nat, i: Inode)
      requires i in d.nodes && d.nodes[i].kind == Regular
      requires Valid() && s < 3 && !n.live && IsLog(n.moved) && n.moved != []
      requires At(d.names, archive, original) && !At(d.names, source, rebuilt)
      requires OnlyAt(d.names, i, Kept(s)) && i != original && !Mine(i)
      requires forall j | 1 <= j < |n.moved| :: n.moved[j].from != Beside(s)
      ensures AllowedRecord(d, n, Entry(Beside(s), Kept(s), i))
    {
      var x := Entry(Beside(s), Kept(s), i);
      assert IsSidecar(x);
      forall j | 1 <= j < |n.moved + [x]|
        ensures IsSidecar((n.moved + [x])[j]) && (n.moved + [x])[j].ino != original && !Mine((n.moved + [x])[j].ino)
      {
        if j < |n.moved| { assert (n.moved + [x])[j] == n.moved[j]; }
      }
    }

    /** A regular file beside the source is neither the original nor recovery's own. */
    lemma SidecarIsForeign(names: Names, s: nat)
      requires Valid() && HasCustody(names) && Owned(names) && s < 3 && Beside(s) in names
      ensures names[Beside(s)] != original && !Mine(names[Beside(s)])
    {
      PathsDiffer();
      StagingApart();
    }

    // One step

    lemma EnvironmentKeepsInvariant(m: Moment, m': Moment)
      requires Valid() && Invariant(m)
      requires m'.event.Environment? && Follows(quiet, m, m')
      ensures Invariant(m')
    {
      var d, d', moved := m.disk, m'.disk, m.notes.moved;
      GrewKeepsOnlyAt(d, d', original, if At(d.names, source, original) then source else archive);
      forall j | !m.notes.live && 0 <= j < |moved|
        ensures OnlyAt(d'.names, moved[j].ino, moved[j].from) || OnlyAt(d'.names, moved[j].ino, moved[j].to)
      {
        GrewKeepsOnlyAt(d, d', moved[j].ino, if At(d.names, moved[j].from, moved[j].ino) then moved[j].from else moved[j].to);
      }
      assert forall p, i | i in d.nodes && At(d'.names, p, i) :: At(d.names, p, i);
    }

    /** No name outside staging that recovery cares about is a sidecar SQLite may touch. */
    lemma LibrarySpares(names: Names, n: Notes, path: Path, confined: bool, x: Entry)
      requires Valid() && AllowedLibrary(names, n, path, confined)
      requires x == Main() || IsSidecar(x)
      ensures !IsSidecarOf(x.to, path) && (path == source || !IsSidecarOf(x.from, path))
      ensures !IsSidecarOf(source, path) && !IsSidecarOf(archive, path)
      ensures !IsSidecarOf(Failed(), path) && !IsSidecarOf(Temporary(), path)
    {
      StagingApart();
      SourceSidecarsApart();
    }

    lemma LibraryKeepsInvariant(m: Moment, m': Moment)
      requires Valid() && Invariant(m)
      requires m'.event.Library? && Allowed(m, m'.event) && Follows(quiet, m, m')
      ensures Invariant(m')
    {
      var d, d', n, path, confined := m.disk, m'.disk, m.notes, m'.event.path, m'.event.confined;
      LibrarySpares(d.names, n, path, confined, Main());
      ServedKeepsOnlyAt(d, d', path, confined, original, if At(d.names, source, original) then source else archive);
      ServedKeepsOwned(d, d', path, confined);
      LibraryKeepsPlaced(m, d', path, confined);
      LibraryKeepsOrdered(m, d', path, confined);
      LibraryKeepsSheltered(m, d', path, confined);
      if quiet {
        LibraryKeepsUndisturbed(m, d', path, confined);
      }
    }

    lemma ServedKeepsOwned(d: Disk, d': Disk, path: Path, confined: bool)
      requires Owned(d.names) && NodesKept(d) && Served(d, d', path, confined)
      ensures Owned(d'.names) && NodesKept(d')
    {
      assert forall p, i | i in d.nodes && At(d'.names, p, i) :: At(d.names, p, i);
    }

    lemma LibraryKeepsSheltered(m: Moment, d': Disk, path: Path, confined: bool)
      requires Valid() && WellFormed(m.disk) && NodesKept(m.disk) && Sheltered(m.disk.names, m.notes)
      requires AllowedLibrary(m.disk.names, m.notes, path, confined) && Served(m.disk, d', path, confined)
      ensures Sheltered(d'.names, m.notes)
    {
      StagingApart();
      assert staging != Beside(0) && staging != Beside(1) && staging != Beside(2);
      assert Mine(rebuilt);
    }

    lemma RenameKeepsSheltered(d: Disk, n: Notes, from: Path, to: Path)
      requires Valid() && Sheltered(d.names, n)
      requires from in d.names && to !in d.names && AllowedRename(d, n, from, to)
      ensures Sheltered(MoveName(d.names, from, to), n)
    {
      StagingApart();
      assert Mine(directory) && from != staging;
    }

    lemma LibraryKeepsUndisturbed(m: Moment, d': Disk, path: Path, confined: bool)
      requires Valid() && WellFormed(m.disk) && Undisturbed(m.disk.names, m.notes)
      requires AllowedLibrary(m.disk.names, m.notes, path, confined) && Served(m.disk, d', path, confined)
      ensures Undisturbed(d'.names, m.notes.(absent := {}))
    {
      LibrarySpares(m.disk.names, m.notes, path, confined, Main());
      StagingApart();
      assert staging.dir + [staging.name] != source.dir;
    }

    lemma LibraryKeepsOrdered(m: Moment, d': Disk, path: Path, confined: bool)
      requires Valid() && WellFormed(m.disk) && NodesKept(m.disk) && IsLog(m.notes.moved) && Ordered(m.disk.names, m.notes)
      requires HasCustody(m.disk.names)
      requires AllowedLibrary(m.disk.names, m.notes, path, confined) && Served(m.disk, d', path, confined)
      ensures Ordered(d'.names, m.notes)
    {
      var d, moved := m.disk, m.notes.moved;
      assert forall p, i | i in d.nodes && At(d'.names, p, i) :: At(d.names, p, i);
      forall j | 0 <= j < |moved|
        ensures At(d.names, moved[j].to, moved[j].ino) ==> At(d'.names, moved[j].to, moved[j].ino)
        ensures path != source && At(d.names, moved[j].from, moved[j].ino) ==> At(d'.names, moved[j].from, moved[j].ino)
      {
        LibrarySpares(d.names, m.notes, path, confined, moved[j]);
      }
    }

    lemma LibraryKeepsPlaced(m: Moment, d': Disk, path: Path, confined: bool)
      requires Valid() && WellFormed(m.disk) && IsLog(m.notes.moved) && Ordered(m.disk.names, m.notes)
      requires AllowedLibrary(m.disk.names, m.notes, path, confined) && Served(m.disk, d', path, confined)
      requires !m.notes.live ==> Placed(m.disk.names, m.notes.moved)
      ensures !m.notes.live ==> Placed(d'.names, m.notes.moved)
    {
      var d, moved := m.disk, m.notes.moved;
      forall j | !m.notes.live && 0 <= j < |moved|
        ensures OnlyAt(d'.names, moved[j].ino, moved[j].from) || OnlyAt(d'.names, moved[j].ino, moved[j].to)
      {
        LibrarySpares(d.names, m.notes, path, confined, moved[j]);
        ServedKeepsOnlyAt(d, d', path, confined, moved[j].ino,
                          if At(d.names, moved[j].to, moved[j].ino) then moved[j].to else moved[j].from);
      }
    }

    lemma RenameKeepsInvariant(m: Moment, m': Moment)
      requires Valid() && Invariant(m)
      requires m'.event.Rename? && Allowed(m, m'.event) && Follows(quiet, m, m')
      ensures Invariant(m')
    {
      var from, to := m'.event.from, m'.event.to;
      var d, names := m.disk, MoveName(m.disk.names, from, to);
      assert m'.disk.names == names;
      RenameKeepsCustody(d, m.notes, from, to);
      RenameKeepsOwned(d, m.notes, from, to);
      RenameKeepsPlaced(d, m.notes, from, to);
      RenameKeepsSheltered(d, m.notes, from, to);
      if At(names, source, original) {
        OriginalReturnsLast(d, m.notes, from, to);
      }
      if At(names, source, rebuilt) && Activation() !in m.notes.strays {
        ReplacementComesFirst(d, m.notes, from, to);
      }
      if quiet {
        RenameKeepsUndisturbed(d, m.notes, from, to);
      }
    }

    lemma RenameKeepsCustody(d: Disk, n: Notes, from: Path, to: Path)
      requires Valid() && HasCustody(d.names)
      requires from in d.names && to !in d.names && AllowedRename(d, n, from, to)
      ensures HasCustody(MoveName(d.names, from, to))
    {
      RenameMovesOnlyAt(d.names, from, to, original, if At(d.names, source, original) then source else archive);
    }

    lemma RenameKeepsOwned(d: Disk, n: Notes, from: Path, to: Path)
      requires Valid() && Owned(d.names)
      requires from in d.names && to !in d.names && AllowedRename(d, n, from, to)
      ensures Owned(MoveName(d.names, from, to))
    {
    }

    lemma RenameKeepsUndisturbed(d: Disk, n: Notes, from: Path, to: Path)
      requires Valid() && Undisturbed(d.names, n)
      requires from in d.names && to !in d.names && AllowedRename(d, n, from, to)
      ensures Undisturbed(MoveName(d.names, from, to), n.(absent := {}))
    {
      PathsDiffer();
      StagingApart();
      assert staging.dir + [staging.name] != source.dir;
    }

    lemma RenameKeepsPlaced(d: Disk, n: Notes, from: Path, to: Path)
      requires Valid() && IsLog(n.moved) && Placed(d.names, n.moved)
      requires from in d.names && to !in d.names && AllowedRename(d, n, from, to)
      ensures Placed(MoveName(d.names, from, to), n.moved)
    {
      PathsDiffer();
      var names, moved := MoveName(d.names, from, to), n.moved;
      forall j | 0 <= j < |moved|
        ensures OnlyAt(names, moved[j].ino, moved[j].from) || OnlyAt(names, moved[j].ino, moved[j].to)
      {
        var x := moved[j];
        RenameMovesOnlyAt(d.names, from, to, x.ino, if At(d.names, x.from, x.ino) then x.from else x.to);
        if j > 0 {
          assert IsSidecar(x);
        } else {
          assert x == Main();
        }
      }
    }

    /** The original's return to the source is the last undo step. */
    lemma OriginalReturnsLast(d: Disk, n: Notes, from: Path, to: Path)
      requires Valid() && IsLog(n.moved) && HasCustody(d.names)
      requires from in d.names && to !in d.names && AllowedRename(d, n, from, to)
      requires At(MoveName(d.names, from, to), source, original)
      ensures SidecarsHome(MoveName(d.names, from, to), n.moved)
    {
      PathsDiffer();
      assert n.moved != [] ==> n.moved[0] == Main();
      assert RestoresMain(d.names, n, from, to);
      forall j | 1 <= j < |n.moved|
        ensures At(MoveName(d.names, from, to), n.moved[j].from, n.moved[j].ino)
      {
        assert IsSidecar(n.moved[j]);
      }
    }

    /** The replacement arrives at the source only through the gate, and while
        it stays there unstrayed nothing but the quarantine moves. */
    lemma ReplacementComesFirst(d: Disk, n: Notes, from: Path, to: Path)
      requires Valid() && IsLog(n.moved) && HasCustody(d.names) && Owned(d.names) && Activation() !in n.strays
      requires At(d.names, source, rebuilt) ==> n.moved != [] && Archived(d.names, n.moved)
      requires from in d.names && to !in d.names && AllowedRename(d, n, from, to)
      requires At(MoveName(d.names, from, to), source, rebuilt)
      ensures n.moved != [] && Archived(MoveName(d.names, from, to), n.moved)
    {
      PathsDiffer();
      StagingApart();
      assert n.moved != [] ==> n.moved[0] == Main();
      assert Activates(d, n, from, to);
      forall j | 0 <= j < |n.moved|
        ensures At(MoveName(d.names, from, to), n.moved[j].to, n.moved[j].ino)
      {
        assert j > 0 ==> IsSidecar(n.moved[j]);
      }
    }

    /** What links a file of someone else's is still there after a removal, and
        where it was. */
    lemma RemoveSparesOthers(m: Moment, m': Moment)
      requires m'.event.Remove? || m'.event.RemoveDirectory?
      requires Allowed(m, m'.event) && Follows(quiet, m, m')
      ensures forall q, i | At(m.disk.names, q, i) && !Mine(i) :: At(m'.disk.names, q, i)
      ensures forall i, p | OnlyAt(m.disk.names, i, p) && !Mine(i) :: OnlyAt(m'.disk.names, i, p)
    {
    }

    lemma RemoveKeepsSheltered(m: Moment, m': Moment)
      requires Valid() && Sheltered(m.disk.names, m.notes)
      requires m'.event.Remove? || m'.event.RemoveDirectory?
      requires Allowed(m, m'.event) && Follows(quiet, m, m')
      ensures Sheltered(m'.disk.names, m'.notes)
    {
      StagingApart();
    }

    lemma RemoveKeepsPlaced(m: Moment, m': Moment)
      requires IsLog(m.notes.moved) && Placed(m.disk.names, m.notes.moved) && !Mine(original)
      requires forall i, p | OnlyAt(m.disk.names, i, p) && !Mine(i) :: OnlyAt(m'.disk.names, i, p)
      ensures Placed(m'.disk.names, m.notes.moved)
    {
      var names, moved := m.disk.names, m.notes.moved;
      forall j | 0 <= j < |moved|
        ensures OnlyAt(m'.disk.names, moved[j].ino, moved[j].from) || OnlyAt(m'.disk.names, moved[j].ino, moved[j].to)
      {
        assert !Mine(moved[j].ino);
        assert OnlyAt(names, moved[j].ino, moved[j].from) || OnlyAt(names, moved[j].ino, moved[j].to);
      }
    }

    /** Removing only unlinks names of recovery's own inodes. */
    lemma RemoveKeepsInvariant(m: Moment, m': Moment)
      requires Valid() && Invariant(m)
      requires m'.event.Remove? || m'.event.RemoveDirectory?
      requires Allowed(m, m'.event) && Follows(quiet, m, m')
      ensures Invariant(m')
    {
      var names, moved := m.disk.names, m.notes.moved;
      RemoveSparesOthers(m, m');
      RemoveKeepsSheltered(m, m');
      assert OnlyAt(m'.disk.names, original, if At(names, source, original) then source else archive);
      if !m.notes.live { RemoveKeepsPlaced(m, m'); }
      RemoveKeepsOrdered(m, m');
    }

    lemma RemoveKeepsOrdered(m: Moment, m': Moment)
      requires m'.event.Remove? || m'.event.RemoveDirectory?
      requires Allowed(m, m'.event) && Follows(quiet, m, m') && IsLog(m.notes.moved) && Ordered(m.disk.names, m.notes) && !Mine(original)
      requires forall q, i | At(m.disk.names, q, i) && !Mine(i) :: At(m'.disk.names, q, i)
      ensures Ordered(m'.disk.names, m'.notes)
    {
      forall j | 0 <= j < |m.notes.moved| ensures !Mine(m.notes.moved[j].ino) {}
    }

    lemma StepKeepsInvariant(m: Moment, m': Moment)
      requires Valid() && Invariant(m)
      requires Allowed(m, m'.event) && Follows(quiet, m, m')
      ensures Invariant(m')
    {
      if m'.event.Environment? {
        EnvironmentKeepsInvariant(m, m');
      } else if m'.event.Library? {
        LibraryKeepsInvariant(m, m');
      } else if m'.event.Rename? {
        RenameKeepsInvariant(m, m');
      } else if m'.event.Remove? || m'.event.RemoveDirectory? {
        RemoveKeepsInvariant(m, m');
      } else if m'.event.Recorded? {
        RecordKeepsInvariant(m, m');
      } else {
        OtherKeepsInvariant(m, m');
      }
    }

    /** Chmod, syncing, looking, and marking leave every name and log entry alone. */
    lemma OtherKeepsInvariant(m: Moment, m': Moment)
      requires Valid() && Invariant(m)
      requires !m'.event.Environment? && !m'.event.Library? && !m'.event.Rename?
      requires !m'.event.Remove? && !m'.event.RemoveDirectory? && !m'.event.Recorded?
      requires Allowed(m, m'.event) && Follows(quiet, m, m')
      ensures Invariant(m')
    {
      assert m'.disk.names == m.disk.names && m'.notes.moved == m.notes.moved;
      OtherKeepsNodes(m, m');
      OtherKeepsSheltered(m, m');
    }

    lemma OtherKeepsNodes(m: Moment, m': Moment)
      requires Valid() && NodesKept(m.disk) && LogPlain(m.disk, m.notes.moved) && WellFormed(m.disk)
      requires m'.disk.names == m.disk.names && m'.notes.moved == m.notes.moved && !m'.event.Environment? && !m'.event.Library?
      requires !m'.event.Rename? && !m'.event.Remove? && !m'.event.RemoveDirectory? && !m'.event.Recorded?
      requires Allowed(m, m'.event) && Follows(quiet, m, m')
      ensures NodesKept(m'.disk) && LogPlain(m'.disk, m'.notes.moved) && WellFormed(m'.disk)
    {
      assert Mine(rebuilt);
    }

    /** A stray mark is made where the file is, and the replacement is never at both places. */
    lemma OtherKeepsSheltered(m: Moment, m': Moment)
      requires Valid() && Sheltered(m.disk.names, m.notes) && Owned(m.disk.names) && m'.disk.names == m.disk.names
      requires !m'.event.Environment? && !m'.event.Library? && !m'.event.Rename? && !m'.event.Remove? && !m'.event.RemoveDirectory?
      requires Allowed(m, m'.event) && Follows(quiet, m, m')
      ensures Sheltered(m'.disk.names, m'.notes)
    {
      StagingApart();
    }

    lemma RecordKeepsInvariant(m: Moment, m': Moment)
      requires Valid() && Invariant(m)
      requires m'.event.Recorded? && Allowed(m, m'.event) && Follows(quiet, m, m')
      ensures Invariant(m')
    {
      var x := m'.event.entry;
      PathsDiffer();
      var names, moved := m.disk.names, m.notes.moved;
      forall j | 0 <= j < |moved + [x]|
        ensures OnlyAt(names, (moved + [x])[j].ino, (moved + [x])[j].from) || OnlyAt(names, (moved + [x])[j].ino, (moved + [x])[j].to)
      {
        if j < |moved| { assert (moved + [x])[j] == moved[j]; }
      }
    }

    // Every moment of every run

    /** Custody, ordering and the rest hold wherever an allowed run is cut off. */
    lemma {:induction false} RunKeepsInvariant(trail: seq<Moment>, since: nat, k: nat)
      requires IsRun(quiet, trail) && Obeyed(trail, since)
      requires since <= k < |trail|
      ensures Valid() && Invariant(trail[k])
    {
      assert AllowedAt(trail, since, since);
      if since < k {
        RunKeepsInvariant(trail, since, k - 1);
        assert StepAt(quiet, trail, k) && AllowedAt(trail, since, k);
        StepKeepsInvariant(trail[k - 1], trail[k]);
      }
    }

    /** The original's bytes and mode change only while the old handle is open
        and only by SQLite's own hand. */
    lemma {:induction false} OriginalKept(trail: seq<Moment>, since: nat, j: nat, k: nat)
      requires IsRun(quiet, trail) && Obeyed(trail, since)
      requires since <= j <= k < |trail|
      requires forall i | j <= i < k :: !trail[i].notes.live
      ensures original in trail[j].disk.nodes && original in trail[k].disk.nodes
      ensures trail[k].disk.nodes[original] == trail[j].disk.nodes[original]
    {
      RunKeepsInvariant(trail, since, j);
      if j < k {
        OriginalKept(trail, since, j, k - 1);
        RunKeepsInvariant(trail, since, k - 1);
        assert StepAt(quiet, trail, k) && AllowedAt(trail, since, k);
        StepKeepsOriginal(trail[k - 1], trail[k]);
      }
    }

    lemma StepKeepsOriginal(m: Moment, m': Moment)
      requires Valid() && Invariant(m) && !m.notes.live
      requires Allowed(m, m'.event) && Follows(quiet, m, m')
      ensures original in m'.disk.nodes && m'.disk.nodes[original] == m.disk.nodes[original]
    {
      if m'.event.Library? { OriginalIsSpared(m.disk.names, m.notes, m'.event.path, m'.event.confined); }
    }

    /** While the old handle is closed SQLite works on no family that holds the original. */
    lemma OriginalIsSpared(names: Names, n: Notes, path: Path, confined: bool)
      requires Valid() && HasCustody(names) && !n.live && AllowedLibrary(names, n, path, confined)
      ensures !InFamily(names, path, original)
    {
      StagingApart();
      SourceSidecarsApart();
    }

    /** The file an operator opens after a stop: the archive if there is one. */
    function Candidate(names: Names): Path {
      if archive in names then archive else source
    }

    /** With no other writer, "the archive if present, else the source" finds the
        original wherever the run stops, unless the archive name was chosen to be
        the staging directory's own name; then it already fails at the start. */
    lemma RuleFindsOriginal(trail: seq<Moment>, since: nat)
      requires quiet && IsRun(quiet, trail) && Obeyed(trail, since)
      ensures staging != archive <==>
              forall k | since <= k < |trail| :: At(trail[k].disk.names, Candidate(trail[k].disk.names), original)
    {
      assert AllowedAt(trail, since, since);
      if staging == archive {
        assert !At(trail[since].disk.names, Candidate(trail[since].disk.names), original);
      } else {
        forall k | since <= k < |trail| ensures At(trail[k].disk.names, Candidate(trail[k].disk.names), original) {
          RunKeepsInvariant(trail, since, k);
        }
      }
    }

    /** What passes the refusal of bits 0o7111 is exactly what loses nothing to the mask 0o666. */
    lemma ModeKept(m: Mode)
      ensures m & REFUSED_BITS == 0 <==> m & KEPT_BITS == m
    {
    }

    /** What is true just before the replacement takes the source's name: it holds
        the source's database under the original's permission bits; it, the
        archived main file and the archived names are durable; every logged file
        is archived, and durable unless an existence test failed to see it; and
        nothing is beside the source unless another writer put it there. */
    ghost predicate ReadyToActivate(m: Moment) {
      var d, n := m.disk, m.notes;
      && At(d.names, Temporary(), rebuilt) && OnlyAt(d.names, original, archive) && !n.live
      && rebuilt in d.nodes && d.nodes[rebuilt].data.Image? && d.nodes[rebuilt].data.checked
      && Faithful(engine, snapshot, d.nodes[rebuilt].data.db)
      && original in d.nodes && d.nodes[rebuilt].mode == d.nodes[original].mode == mode
      && rebuilt !in d.dirtyNodes && original !in d.dirtyNodes && archive !in d.dirtyNames
      && (forall x | x in n.moved ::
            At(d.names, x.to, x.ino) && x.to !in d.dirtyNames && (x.ino in d.dirtyNodes ==> x.to in n.overlooked))
      && (quiet ==> forall s | 0 <= s < 3 :: Beside(s) !in d.names)
    }

    lemma GateHolds(m: Moment)
      requires Valid() && Invariant(m) && Allowed(m, Rename(Temporary(), source))
      ensures ReadyToActivate(m) && forall s | 0 <= s < 3 :: Beside(s) in m.notes.absent
    {
      PathsDiffer();
      StagingApart();
      var d, n := m.disk, m.notes;
      assert Activates(d, n, Temporary(), source);
      assert n.moved[0] == Main();
      assert Main() in n.moved;
      forall x | x in n.moved ensures At(d.names, x.to, x.ino) {
        var j :| 0 <= j < |n.moved| && n.moved[j] == x;
      }
    }

    /** Activation is gated in every run. */
    lemma ActivationGated(trail: seq<Moment>, since: nat, k: nat)
      requires IsRun(quiet, trail) && Obeyed(trail, since)
      requires since < k < |trail| && trail[k].event == Rename(Temporary(), source)
      ensures ReadyToActivate(trail[k - 1])
      ensures forall s | 0 <= s < 3 :: Beside(s) in trail[k - 1].notes.absent
    {
      RunKeepsInvariant(trail, since, k - 1);
      assert AllowedAt(trail, since, k);
      GateHolds(trail[k - 1]);
    }

    // The sidecars that were there at the close

    /** A sidecar that was beside the source at the close is still there or under
        its archive name: under the latter once the source's name for it was seen
        absent, and while a confirmed replacement is at the source. If that name
        was its only one, one of the two still is. */
    ghost predicate SidecarHeld(m: Moment, s: nat, i: Inode)
      requires s < 3
    {
      var names, n := m.disk.names, m.notes;
      && (At(names, Beside(s), i) || At(names, Kept(s), i))
      && (Beside(s) in n.absent ==> At(names, Kept(s), i))
      && (At(names, source, rebuilt) && Activation() !in n.strays ==> At(names, Kept(s), i))
      && (n.closed.Some? && OnlyAt(n.closed.value.names, i, Beside(s)) ==> OnlyAt(names, i, Beside(s)) || OnlyAt(names, i, Kept(s)))
    }

    /** Every sidecar of the close is at one of its two names, now or, once the old
        handle has been reopened, when it was. */
    ghost predicate SidecarsHeld(m: Moment) {
      var n := m.notes;
      && (n.live <==> n.closed == None || n.reopened.Some?)
      && (n.reopened.Some? ==> n.closed.Some?)
      && (n.closed.Some? ==>
            forall s | 0 <= s < 3 && Beside(s) in n.closed.value.names ::
              var i := n.closed.value.names[Beside(s)];
              if n.reopened == None then SidecarHeld(m, s, i)
              else At(n.reopened.value.names, Beside(s), i) || At(n.reopened.value.names, Kept(s), i))
    }

    lemma RenameKeepsHeld(m: Moment, m': Moment, s: nat, i: Inode)
      requires Valid() && WellFormed(m.disk) && NodesKept(m.disk) && s < 3 && SidecarHeld(m, s, i)
      requires m'.event.Rename? && Allowed(m, m'.event) && Follows(quiet, m, m')
      ensures SidecarHeld(m', s, i)
    {
      RenameKeepsEither(m, m', s, i);
      RenameKeepsAway(m, m', s, i);
      if m.notes.closed.Some? && OnlyAt(m.notes.closed.value.names, i, Beside(s)) { RenameKeepsSole(m, m', s, i); }
    }

    lemma RenameKeepsEither(m: Moment, m': Moment, s: nat, i: Inode)
      requires Valid() && s < 3 && (At(m.disk.names, Beside(s), i) || At(m.disk.names, Kept(s), i))
      requires m'.event.Rename? && Allowed(m, m'.event) && Follows(quiet, m, m')
      ensures At(m'.disk.names, Beside(s), i) || At(m'.disk.names, Kept(s), i)
    {
      PathsDiffer();
      StagingApart();
    }

    /** While a confirmed replacement is at the source nothing brings a sidecar back. */
    lemma RenameKeepsAway(m: Moment, m': Moment, s: nat, i: Inode)
      requires Valid() && s < 3 && SidecarHeld(m, s, i)
      requires m'.event.Rename? && Allowed(m, m'.event) && Follows(quiet, m, m')
      ensures At(m'.disk.names, source, rebuilt) && Activation() !in m'.notes.strays ==> At(m'.disk.names, Kept(s), i)
    {
      PathsDiffer();
      StagingApart();
    }

    /** A rename that moves a sidecar moves it between its two names. */
    lemma RenameKeepsSole(m: Moment, m': Moment, s: nat, i: Inode)
      requires Valid() && WellFormed(m.disk) && NodesKept(m.disk) && s < 3
      requires OnlyAt(m.disk.names, i, Beside(s)) || OnlyAt(m.disk.names, i, Kept(s))
      requires m'.event.Rename? && Allowed(m, m'.event) && Follows(quiet, m, m')
      ensures OnlyAt(m'.disk.names, i, Beside(s)) || OnlyAt(m'.disk.names, i, Kept(s))
    {
      PathsDiffer();
      StagingApart();
      var names := m.disk.names;
      RenameMovesOnlyAt(names, m'.event.from, m'.event.to, i, if OnlyAt(names, i, Beside(s)) then Beside(s) else Kept(s));
    }

    lemma LibraryKeepsHeld(m: Moment, m': Moment, s: nat, i: Inode)
      requires Valid() && WellFormed(m.disk) && NodesKept(m.disk) && s < 3 && SidecarHeld(m, s, i) && !m.notes.live
      requires m'.event.Library? && Allowed(m, m'.event) && Follows(quiet, m, m')
      ensures SidecarHeld(m', s, i)
    {
      PathsDiffer();
      var path, confined := m'.event.path, m'.event.confined;
      var x := Entry(Beside(s), Kept(s), i);
      assert IsSidecar(x);
      LibrarySpares(m.disk.names, m.notes, path, confined, x);
      if m.notes.closed.Some? && OnlyAt(m.notes.closed.value.names, i, Beside(s)) {
        ServedKeepsOnlyAt(m.disk, m'.disk, path, confined, i, if At(m.disk.names, Kept(s), i) then Kept(s) else Beside(s));
      }
    }

    lemma OtherKeepsHeld(m: Moment, m': Moment, s: nat, i: Inode)
      requires Valid() && WellFormed(m.disk) && NodesKept(m.disk) && s < 3 && SidecarHeld(m, s, i)
      requires !m'.event.Rename? && !m'.event.Library? && !m'.event.Closed? && !m'.event.Reopened?
      requires Allowed(m, m'.event) && Follows(quiet, m, m')
      ensures SidecarHeld(m', s, i)
    {
      StagingApart();
      if m.notes.closed.Some? && OnlyAt(m.notes.closed.value.names, i, Beside(s)) {
        var p := if OnlyAt(m.disk.names, i, Beside(s)) then Beside(s) else Kept(s);
        if m'.event.Environment? { GrewKeepsOnlyAt(m.disk, m'.disk, i, p); }
        assert OnlyAt(m'.disk.names, i, p);
      }
    }

    lemma StepKeepsHeld(m: Moment, m': Moment)
      requires Valid() && Invariant(m) && SidecarsHeld(m)
      requires Allowed(m, m'.event) && Follows(quiet, m, m')
      ensures SidecarsHeld(m')
    {
      if m.notes.closed.Some? && m.notes.reopened == None && !m'.event.Reopened? {
        forall s | 0 <= s < 3 && Beside(s) in m.notes.closed.value.names
          ensures SidecarHeld(m', s, m.notes.closed.value.names[Beside(s)])
        {
          var i := m.notes.closed.value.names[Beside(s)];
          assert SidecarHeld(m, s, i);
          if m'.event.Rename? {
            RenameKeepsHeld(m, m', s, i);
          } else if m'.event.Library? {
            LibraryKeepsHeld(m, m', s, i);
          } else {
            OtherKeepsHeld(m, m', s, i);
          }
        }
      } else if m'.event.Reopened? && m.notes.closed.Some? {
        assert forall s | 0 <= s < 3 && Beside(s) in m.notes.closed.value.names :: SidecarHeld(m, s, m.notes.closed.value.names[Beside(s)]);
      }
    }

    /** Wherever an allowed run is cut off, every sidecar of the close is at one of
        its two names. */
    lemma {:induction false} RunKeepsHeld(trail: seq<Moment>, since: nat, k: nat)
      requires IsRun(quiet, trail) && Obeyed(trail, since)
      requires since <= k < |trail|
      ensures SidecarsHeld(trail[k])
    {
      assert AllowedAt(trail, since, since);
      if since < k {
        RunKeepsHeld(trail, since, k - 1);
        RunKeepsInvariant(trail, since, k - 1);
        assert StepAt(quiet, trail, k) && AllowedAt(trail, since, k);
        StepKeepsHeld(trail[k - 1], trail[k]);
      }
    }

    /** Before each activation every sidecar of the close is under its archive name. */
    lemma SidecarsArchivedFirst(trail: seq<Moment>, since: nat, k: nat, s: nat)
      requires IsRun(quiet, trail) && Obeyed(trail, since)
      requires since < k < |trail| && trail[k].event == Rename(Temporary(), source)
      requires s < 3
      ensures trail[k - 1].notes.closed.Some? && trail[k - 1].notes.reopened == None
      ensures var closed := trail[k - 1].notes.closed.value.names;
        Beside(s) in closed ==> At(trail[k - 1].disk.names, Kept(s), closed[Beside(s)])
    {
      ActivationGated(trail, since, k);
      RunKeepsHeld(trail, since, k - 1);
      assert Beside(s) in trail[k - 1].notes.absent;
    }

    // The way to the archive stays clear

    /** The archive's names are free, but for a staging directory of the archive's
        own name, and what is beside the source is plain files with one name each. */
    ghost predicate Unobstructed(d: Disk) {
      && (staging != archive ==> archive !in d.names)
      && forall s | 0 <= s < 3 :: Kept(s) !in d.names && (Beside(s) in d.names ==> SoleFile(d, Beside(s)))
    }

    lemma LibraryStaysUnobstructed(d: Disk, d': Disk, n: Notes, path: Path, confined: bool)
      requires Valid() && WellFormed(d) && Unobstructed(d)
      requires AllowedLibrary(d.names, n, path, confined) && Served(d, d', path, confined)
      ensures Unobstructed(d')
    {
      LibrarySpares(d.names, n, path, confined, Main());
      forall s | 0 <= s < 3 ensures Kept(s) !in d'.names && (Beside(s) in d'.names ==> SoleFile(d', Beside(s))) {
        var x := Entry(Beside(s), Kept(s), original);
        assert IsSidecar(x);
        LibrarySpares(d.names, n, path, confined, x);
      }
    }

    lemma StepStaysUnobstructed(m: Moment, m': Moment)
      requires Valid() && quiet && Invariant(m) && m.notes.live && Unobstructed(m.disk)
      requires Allowed(m, m'.event) && Follows(quiet, m, m')
      ensures Unobstructed(m'.disk)
    {
      if m'.event.Library? {
        LibraryStaysUnobstructed(m.disk, m'.disk, m.notes, m'.event.path, m'.event.confined);
      } else {
        FewerNamesUnobstructed(m.disk, m'.disk);
      }
    }

    /** What adds no name and leaves each file of its kind obstructs nothing. */
    lemma FewerNamesUnobstructed(d: Disk, d': Disk)
      requires Unobstructed(d) && (forall q | q in d'.names :: At(d.names, q, d'.names[q]))
      requires forall i | i in d.nodes :: i in d'.nodes && d'.nodes[i].kind == d.nodes[i].kind
      ensures Unobstructed(d')
    {
      forall s | 0 <= s < 3 && Beside(s) in d'.names ensures SoleFile(d', Beside(s)) {
        assert SoleFile(d, Beside(s)) && At(d.names, Beside(s), d'.names[Beside(s)]);
      }
    }

    /** With no other writer, a way that was clear at the start is clear at every
        moment up to the close of the old handle, whatever SQLite does meanwhile. */
    lemma {:induction false} RunStaysUnobstructed(trail: seq<Moment>, since: nat, k: nat)
      requires quiet && IsRun(quiet, trail) && Obeyed(trail, since)
      requires since <= k < |trail| && Unobstructed(trail[since].disk) && trail[k].notes.closed == None
      ensures Unobstructed(trail[k].disk)
    {
      if since < k {
        assert StepAt(quiet, trail, k) && AllowedAt(trail, since, k);
        RunStaysUnobstructed(trail, since, k - 1);
        RunKeepsInvariant(trail, since, k - 1);
        RunKeepsHeld(trail, since, k - 1);
        StepStaysUnobstructed(trail[k - 1], trail[k]);
      }
    }

    /** Once at the source, the replacement is from then on there or in staging as
        the failed one. */
    lemma {:induction false} ActiveStays(trail: seq<Moment>, since: nat, j: nat, k: nat)
      requires IsRun(quiet, trail) && Obeyed(trail, since)
      requires since <= j <= k < |trail| && At(trail[j].disk.names, source, rebuilt)
      ensures At(trail[k].disk.names, source, rebuilt) || At(trail[k].disk.names, Failed(), rebuilt)
    {
      if j < k {
        ActiveStays(trail, since, j, k - 1);
        RunKeepsInvariant(trail, since, k - 1);
        assert StepAt(quiet, trail, k) && AllowedAt(trail, since, k);
        StepKeepsActive(trail[k - 1], trail[k]);
      }
    }

    lemma StepKeepsActive(m: Moment, m': Moment)
      requires Valid() && Invariant(m) && Allowed(m, m'.event) && Follows(quiet, m, m')
      requires At(m.disk.names, source, rebuilt) || At(m.disk.names, Failed(), rebuilt)
      ensures At(m'.disk.names, source, rebuilt) || At(m'.disk.names, Failed(), rebuilt)
    {
      PathsDiffer();
      StagingApart();
      if m'.event.Library? {
        LibrarySpares(m.disk.names, m.notes, m'.event.path, m'.event.confined, Main());
      }
    }

    /** Before each activation every name beside the source was seen absent, at a
        moment after the last move. */
    lemma SourceSeenAlone(trail: seq<Moment>, since: nat, k: nat, s: nat)
      requires IsRun(quiet, trail) && Obeyed(trail, since)
      requires since < k < |trail| && trail[k].event == Rename(Temporary(), source)
      requires s < 3
      ensures SeenSince(trail, Beside(s), k - 1)
    {
      ActivationGated(trail, since, k);
      AbsentWasSeen(quiet, trail, Beside(s), k - 1);
    }
  }

  /** At moment `j` the name `p` was seen absent, and nothing has been renamed,
      created or opened from then up to moment `k`. */
  ghost predicate SeenAt(trail: seq<Moment>, p: Path, j: nat, k: nat)
    requires j <= k < |trail|
  {
    && trail[j].event == SeenAbsent(p) && p !in trail[j].disk.names
    && forall i | j < i <= k :: !trail[i].event.Rename? && !trail[i].event.Create? && !trail[i].event.Library?
  }

  ghost predicate SeenSince(trail: seq<Moment>, p: Path, k: nat)
    requires k < |trail|
  {
    exists j | 0 < j <= k :: SeenAt(trail, p, j, k)
  }

  lemma {:induction false} AbsentWasSeen(quiet: bool, trail: seq<Moment>, p: Path, k: nat)
    requires IsRun(quiet, trail)
    requires k < |trail| && p in trail[k].notes.absent
    ensures SeenSince(trail, p, k)
  {
    assert StepAt(quiet, trail, k);
    if trail[k].event == SeenAbsent(p) {
      assert SeenAt(trail, p, k, k);
    } else {
      AbsentWasSeen(quiet, trail, p, k - 1);
      var j :| 0 < j <= k - 1 && SeenAt(trail, p, j, k - 1);
      assert SeenAt(trail, p, j, k);
    }
  }
}
