/** The state of the file system and the steps that change it. */
module Disks {
  import opened Wrappers
  import opened Databases
  import opened Paths

  type Inode = nat
  /** The twelve permission bits. */
  type Mode = bv12

  /** A link names another path, which may or may not be there. */
  datatype Kind = Regular | Directory | Link(target: Path) | Other
  datatype Node = Node(kind: Kind, data: Content, mode: Mode)

  /** Names link inodes. An inode number stays in `nodes` after its last link is
      gone, so a number is never used twice. The dirty sets hold what a power
      loss could still undo: unsynced contents and modes, and unsynced names. */
  datatype Disk = Disk(
    names: map<Path, Inode>,
    nodes: map<Inode, Node>,
    dirtyNodes: set<Inode>,
    dirtyNames: set<Path>)

  /** A recorded move of one file. */
  datatype Entry = Entry(from: Path, to: Path, ino: Inode)

  /** Who did what. `Environment` is other writers; `Library` is SQLite acting
      on an open database's family of files (`confined` when it may create no
      new file); the rest is the recovery and backup code itself. `Recorded`,
      `Strayed`, `Overlooked`, `Closed`, `Reopened` and `Cleaning` change no
      file: they mark a move entered in the undo log, a move whose confirmation
      failed, a file an existence test failed to see, the close and reopening of
      the old handle with the disk they found, and the start of the clean-up
      with the number of calls that had failed by then. */
  datatype Event =
    | Environment
    | Library(path: Path, confined: bool)
    | Create(path: Path, ino: Inode, kind: Kind, mode: Mode)
    | Rename(from: Path, to: Path)
    | Replace(from: Path, to: Path)
    | Remove(path: Path)
    | RemoveDirectory(path: Path)
    | Chmod(ino: Inode, mode: Mode)
    | SyncNode(ino: Inode)
    | SyncDirectory(dir: seq<string>)
    | SeenAbsent(path: Path)
    | Overlooked(path: Path)
    | Recorded(entry: Entry)
    | Strayed(entry: Entry)
    | Closed(disk: Disk)
    | Reopened(disk: Disk)
    | Cleaning(faults: nat)

  ghost predicate WellFormed(d: Disk) {
    forall p | p in d.names :: d.names[p] in d.nodes
  }

  type Names = map<Path, Inode>

  ghost predicate At(names: Names, p: Path, i: Inode) {
    p in names && names[p] == i
  }

  /** `p` is the one name of inode `i`. */
  ghost predicate OnlyAt(names: Names, i: Inode, p: Path) {
    At(names, p, i) && forall q | q in names && names[q] == i :: q == p
  }

  ghost predicate Linked(names: Names, i: Inode) {
    exists p :: At(names, p, i)
  }

  /** A call that follows links gets from `p` to a file in at most so many hops. */
  predicate Resolves(d: Disk, p: Path, hops: nat)
    decreases hops
  {
    p in d.names && d.names[p] in d.nodes
    && match d.nodes[d.names[p]].kind
       case Link(target) => hops > 0 && Resolves(d, target, hops - 1)
       case _ => true
  }

  /** The system's limit on links in a row. */
  const MAX_HOPS: nat := 40

  /** The name can be opened: it links a file, or links that lead to one. */
  predicate Opens(d: Disk, p: Path) {
    Resolves(d, p, MAX_HOPS)
  }

  /** Where following links from `p` ends. */
  function Final(d: Disk, p: Path, hops: nat): (q: Path)
    requires Resolves(d, p, hops)
    ensures q in d.names && d.names[q] in d.nodes && !d.nodes[d.names[q]].kind.Link?
    decreases hops
  {
    match d.nodes[d.names[p]].kind
    case Link(target) => Final(d, target, hops - 1)
    case _ => p
  }

  /** The name links a file itself, no link. */
  ghost predicate LinksFile(d: Disk, p: Path) {
    p in d.names && d.names[p] in d.nodes && !d.nodes[d.names[p]].kind.Link?
  }

  /** The name links a regular file that has no other name. */
  ghost predicate SoleFile(d: Disk, p: Path) {
    LinksFile(d, p) && d.nodes[d.names[p]].kind == Regular && OnlyAt(d.names, d.names[p], p)
  }

  lemma FileOpens(d: Disk, p: Path)
    requires LinksFile(d, p)
    ensures Opens(d, p) && Final(d, p, MAX_HOPS) == p
  {
  }

  /** Other writers add names for inodes of their own and touch nothing else. */
  ghost predicate Grew(d: Disk, e: Disk) {
    && (forall p | p in d.names :: p in e.names && e.names[p] == d.names[p])
    && (forall p | p in e.names && p !in d.names :: e.names[p] !in d.nodes)
    && (forall i | i in d.nodes :: i in e.nodes && e.nodes[i] == d.nodes[i])
    && (forall i | i in e.dirtyNodes && i in d.nodes :: i in d.dirtyNodes)
    && (forall p | p in e.dirtyNames :: p in d.dirtyNames || (p in e.names && p !in d.names))
    && WellFormed(e)
  }

  predicate IsSidecarOf(p: Path, path: Path) {
    p == Sidecar(path, SIDECARS[0]) || p == Sidecar(path, SIDECARS[1]) || p == Sidecar(path, SIDECARS[2])
  }

  /** The inodes SQLite may write for the database at `path`: its file and its sidecars. */
  ghost predicate InFamily(names: Names, path: Path, i: Inode) {
    At(names, path, i)
    || At(names, Sidecar(path, SIDECARS[0]), i) || At(names, Sidecar(path, SIDECARS[1]), i)
    || At(names, Sidecar(path, SIDECARS[2]), i)
  }

  /** SQLite at work on the database at `path`: it may rewrite that file and its
      sidecars and drop sidecars; unless confined it may also create them, as plain
      files with one name. */
  ghost predicate Served(d: Disk, e: Disk, path: Path, confined: bool) {
    && path in d.names
    && NamesServed(d, e, path, confined)
    && FilesServed(d, e, path)
    && WellFormed(e)
    && NewArePlain(d, e)
  }

  ghost predicate NamesServed(d: Disk, e: Disk, path: Path, confined: bool) {
    && (forall p | p in d.names && !IsSidecarOf(p, path) :: p in e.names && e.names[p] == d.names[p])
    && (forall p | p in e.names :: At(d.names, p, e.names[p]) || (IsSidecarOf(p, path) && !confined && e.names[p] !in d.nodes))
    && (forall p | p in e.dirtyNames :: p in d.dirtyNames || IsSidecarOf(p, path))
  }

  ghost predicate FilesServed(d: Disk, e: Disk, path: Path) {
    && (forall i | i in d.nodes ::
          i in e.nodes && e.nodes[i].kind == d.nodes[i].kind && e.nodes[i].mode == d.nodes[i].mode
          && (e.nodes[i] != d.nodes[i] ==> InFamily(d.names, path, i)))
    && (forall i | i in e.dirtyNodes && i in d.nodes :: i in d.dirtyNodes || InFamily(d.names, path, i))
  }

  /** What is newly linked is plain files with one name. */
  ghost predicate NewArePlain(d: Disk, e: Disk) {
    forall p | p in e.names && e.names[p] !in d.nodes :: SoleFile(e, p)
  }

  /** The step is possible: nothing is created over, or renamed onto, an
      existing name, no directory is replaced by a file, and only an empty directory is
      removed. */
  ghost predicate Enabled(d: Disk, e: Event) {
    match e
    case Create(p, i, kind, _) =>
      p !in d.names && i !in d.nodes
      && (kind == Directory ==> forall q | q in d.names :: q.dir != p.dir + [p.name])
    case Rename(from, to) => from in d.names && to !in d.names
    case Replace(from, to) =>
      from in d.names && from != to
      && (to in d.names && d.names[to] in d.nodes ==> d.nodes[d.names[to]].kind != Directory)
    case Remove(p) => p in d.names && d.names[p] in d.nodes && d.nodes[d.names[p]].kind != Directory
    case RemoveDirectory(p) =>
      p in d.names && d.names[p] in d.nodes && d.nodes[d.names[p]].kind == Directory
      && forall q | q in d.names :: q.dir != p.dir + [p.name]
    case Chmod(i, _) => i in d.nodes
    case SeenAbsent(p) => p !in d.names
    case Closed(found) => found == d
    case Reopened(found) => found == d
    case _ => true
  }

  function MoveName(names: Names, from: Path, to: Path): (moved: Names)
    requires from in names
  {
    (names - {from})[to := names[from]]
  }

  function Apply(d: Disk, e: Event): Disk
    requires Enabled(d, e)
  {
    match e
    case Create(p, i, kind, mode) =>
      Disk(d.names[p := i], d.nodes[i := Node(kind, Raw([]), mode)], d.dirtyNodes + {i}, d.dirtyNames + {p})
    case Rename(from, to) => d.(names := MoveName(d.names, from, to), dirtyNames := d.dirtyNames + {from, to})
    case Replace(from, to) => d.(names := MoveName(d.names, from, to), dirtyNames := d.dirtyNames + {from, to})
    case Remove(p) => d.(names := d.names - {p}, dirtyNames := d.dirtyNames + {p})
    case RemoveDirectory(p) => d.(names := d.names - {p}, dirtyNames := d.dirtyNames + {p})
    case Chmod(i, mode) =>
      d.(nodes := d.nodes[i := d.nodes[i].(mode := mode)], dirtyNodes := d.dirtyNodes + {i})
    case SyncNode(i) => d.(dirtyNodes := d.dirtyNodes - {i})
    case SyncDirectory(dir) => d.(dirtyNames := set p | p in d.dirtyNames && p.dir != dir)
    case _ => d
  }

  ghost predicate Next(quiet: bool, d: Disk, e: Event, d': Disk) {
    match e
    case Environment => Grew(d, d') && (quiet ==> d' == d)
    case Library(path, confined) => Served(d, d', path, confined)
    case _ => Enabled(d, e) && d' == Apply(d, e)
  }

  /** The code itself only unlinks, overwrites and chmods inodes it created,
      unless it overwrites what an existence test failed to see. */
  ghost predicate Careful(mine: set<Inode>, m: Moment, e: Event) {
    var d := m.disk;
    match e
    case Replace(_, to) => to in d.names ==> d.names[to] in mine || to in m.notes.overlooked
    case Remove(p) => p in d.names && d.names[p] in mine
    case RemoveDirectory(p) => p in d.names && d.names[p] in mine
    case Chmod(i, _) => i in mine
    case _ => true
  }

  /** What a run has noted beside the files: the undo log, the moves that
      happened but were never confirmed, whether the old handle may still
      write, the names seen absent since the last move, the files an existence
      test overlooked, the disks at the close and at the reopening of the old
      handle, and how many calls had failed when the clean-up began. */
  datatype Notes = Notes(
    moved: seq<Entry>,
    strays: set<Entry>,
    live: bool,
    absent: set<Path>,
    overlooked: set<Path>,
    closed: Option<Disk>,
    reopened: Option<Disk>,
    cleaning: Option<nat>)

  /** Nothing has happened yet. */
  const BLANK := Notes([], {}, true, {}, {}, None, None, None)

  ghost function Noted(n: Notes, e: Event): Notes {
    match e
    case Recorded(x) => n.(moved := n.moved + [x])
    case Strayed(x) => n.(strays := n.strays + {x})
    case Closed(d) => n.(live := false, closed := Some(d), absent := {})
    case Reopened(d) => n.(live := true, reopened := Some(d))
    case Cleaning(f) => n.(cleaning := Some(f))
    case SeenAbsent(p) => n.(absent := n.absent + {p})
    case Overlooked(p) => n.(overlooked := n.overlooked + {p})
    case Rename(_, _) => n.(absent := {})
    case Library(_, _) => n.(absent := {})
    case Create(_, _, _, _) => n.(absent := {})
    case _ => n
  }

  /** One moment of a run: the step just taken, and the state it left. The
      process may stop at any moment, leaving exactly that disk. */
  datatype Moment = Moment(event: Event, disk: Disk, notes: Notes)

  ghost predicate Follows(quiet: bool, m: Moment, n: Moment) {
    Next(quiet, m.disk, n.event, n.disk) && n.notes == Noted(m.notes, n.event)
  }

  /** The first moment is well formed; every other follows from the one before. */
  ghost predicate StepAt(quiet: bool, trail: seq<Moment>, k: nat)
    requires k < |trail|
  {
    if k == 0 then WellFormed(trail[0].disk) && trail[0].notes.absent == {}
    else Follows(quiet, trail[k - 1], trail[k])
  }

  ghost predicate IsRun(quiet: bool, trail: seq<Moment>) {
    |trail| > 0 && forall k | 0 <= k < |trail| :: StepAt(quiet, trail, k)
  }

  ghost predicate CarefulAt(mine: set<Inode>, trail: seq<Moment>, k: nat)
    requires 0 < k < |trail|
  {
    Careful(mine, trail[k - 1], trail[k].event)
  }

  /** The code unlinks, overwrites and chmods nothing but `mine` between moments `j` and `k`. */
  ghost predicate CarefulRun(mine: set<Inode>, trail: seq<Moment>, j: nat, k: nat)
    requires k < |trail|
  {
    forall x | j < x <= k :: CarefulAt(mine, trail, x)
  }

  lemma RunExtends(quiet: bool, trail: seq<Moment>, m: Moment)
    requires IsRun(quiet, trail) && Follows(quiet, trail[|trail| - 1], m)
    ensures IsRun(quiet, trail + [m])
  {
    forall k | 0 <= k < |trail + [m]| ensures StepAt(quiet, trail + [m], k) {
      if k < |trail| { assert StepAt(quiet, trail, k); }
    }
  }

  lemma CareExtends(mine: set<Inode>, trail: seq<Moment>, m: Moment)
    requires |trail| > 0 && CarefulRun(mine, trail, 0, |trail| - 1)
    requires Careful(mine, trail[|trail| - 1], m.event)
    ensures CarefulRun(mine, trail + [m], 0, |trail|)
  {
    forall k | 0 < k <= |trail| ensures CarefulAt(mine, trail + [m], k) {
      if k < |trail| { assert CarefulAt(mine, trail, k); }
    }
  }

  lemma CareGrows(mine: set<Inode>, more: set<Inode>, trail: seq<Moment>, k: nat)
    requires k < |trail| && CarefulRun(mine, trail, 0, k) && mine <= more
    ensures CarefulRun(more, trail, 0, k)
  {
    forall x | 0 < x <= k ensures CarefulAt(more, trail, x) {
      assert CarefulAt(mine, trail, x);
    }
  }

  lemma StepKeepsWellFormed(quiet: bool, d: Disk, e: Event, d': Disk)
    requires WellFormed(d) && Next(quiet, d, e, d')
    ensures WellFormed(d')
  {
  }

  /** No step of any kind reuses or forgets an inode number. */
  lemma StepKeepsNodes(quiet: bool, d: Disk, e: Event, d': Disk)
    requires Next(quiet, d, e, d')
    ensures d.nodes.Keys <= d'.nodes.Keys
  {
  }

  lemma GrewKeepsOnlyAt(d: Disk, e: Disk, i: Inode, p: Path)
    requires WellFormed(d) && Grew(d, e) && OnlyAt(d.names, i, p)
    ensures OnlyAt(e.names, i, p)
  {
  }

  /** What opens still does when names are added. */
  lemma {:induction false} ResolvesGrows(d: Disk, e: Disk, p: Path, hops: nat)
    requires Grew(d, e) && Resolves(d, p, hops)
    ensures Resolves(e, p, hops)
    decreases hops
  {
    if d.nodes[d.names[p]].kind.Link? {
      ResolvesGrows(d, e, d.nodes[d.names[p]].kind.target, hops - 1);
    }
  }

  lemma GrewTransitive(d: Disk, e: Disk, f: Disk)
    requires Grew(d, e) && Grew(e, f)
    ensures Grew(d, f)
  {
  }

  /** Syncing only takes from the dirty sets, which growth allows. */
  lemma SyncGrows(d: Disk, e: Event)
    requires WellFormed(d) && (e.SyncNode? || e.SyncDirectory?)
    ensures Enabled(d, e) && Grew(d, Apply(d, e))
  {
  }

  /** SQLite's work leaves alone an inode whose one name is not a sidecar of the database. */
  lemma ServedKeepsOnlyAt(d: Disk, e: Disk, path: Path, confined: bool, i: Inode, p: Path)
    requires WellFormed(d) && Served(d, e, path, confined)
    requires OnlyAt(d.names, i, p) && !IsSidecarOf(p, path)
    ensures OnlyAt(e.names, i, p)
  {
  }

  /** A rename carries an inode's one name with it and leaves every other inode's alone. */
  lemma RenameMovesOnlyAt(names: Names, from: Path, to: Path, i: Inode, p: Path)
    requires from in names && to !in names && OnlyAt(names, i, p)
    ensures OnlyAt(MoveName(names, from, to), i, if p == from then to else p)
  {
  }

  /** The step may write or unlink an inode it did not create: SQLite at work on a
      family holding it, or a replacement of a name that was overlooked. */
  ghost predicate MayTouch(m: Moment, e: Event, i: Inode) {
    match e
    case Library(path, _) => InFamily(m.disk.names, path, i)
    case Replace(_, to) => to in m.notes.overlooked
    case _ => false
  }

  /** Over any stretch of a careful run, an inode the code did not create keeps a
      name, its contents and its mode, except where SQLite itself is at work on a
      family holding it, or its name was overlooked and replaced. */
  lemma {:induction false} ForeignKept(quiet: bool, mine: set<Inode>, trail: seq<Moment>, j: nat, k: nat, i: Inode)
    requires IsRun(quiet, trail) && j <= k < |trail|
    requires CarefulRun(mine, trail, j, k)
    requires forall x | j < x <= k :: !MayTouch(trail[x - 1], trail[x].event, i)
    requires i !in mine && i in trail[j].disk.nodes && Linked(trail[j].disk.names, i)
    ensures i in trail[k].disk.nodes && Linked(trail[k].disk.names, i)
    ensures trail[k].disk.nodes[i] == trail[j].disk.nodes[i]
  {
    if j < k {
      assert CarefulRun(mine, trail, j, k - 1);
      ForeignKept(quiet, mine, trail, j, k - 1, i);
      assert StepAt(quiet, trail, k) && CarefulAt(mine, trail, k);
      StepKeepsForeign(quiet, mine, trail[k - 1], trail[k], i);
    }
  }

  lemma StepKeepsForeign(quiet: bool, mine: set<Inode>, m: Moment, m': Moment, i: Inode)
    requires Follows(quiet, m, m') && Careful(mine, m, m'.event)
    requires !MayTouch(m, m'.event, i)
    requires i !in mine && i in m.disk.nodes && Linked(m.disk.names, i)
    ensures i in m'.disk.nodes && Linked(m'.disk.names, i) && m'.disk.nodes[i] == m.disk.nodes[i]
  {
    var d, e, d' := m.disk, m'.event, m'.disk;
    var p :| At(d.names, p, i);
    if (e.Rename? || e.Replace?) && p == e.from {
      assert At(d'.names, e.to, i);
    } else {
      assert At(d'.names, p, i);
    }
  }

  /** An inode number not yet used. */
  lemma Unused(inodes: set<Inode>) returns (i: Inode)
    ensures i !in inodes
  {
    i := 0;
    var left := inodes;
    while i in left
      invariant left <= inodes && forall j | j in inodes && j !in left :: j < i
      decreases left
    {
      left := set j | j in left && j > i;
      i := i + 1;
    }
  }
}
