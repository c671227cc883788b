/** The file system as recovery and backup see it: system calls that may each
    fail, with other writers at work after every one of them.

    The ghost trail records every step, so a claim about all of its moments is a
    claim about every place the process may stop. */
module FileSystems {
  import opened Databases
  import opened Paths
  import opened Disks
  import opened Custody
  import opened Publication
  import opened Wrappers

  /** What other writers may have done between two calls. */
  ghost predicate Drift(quiet: bool, d: Disk, e: Disk) {
    Grew(d, e) && (quiet ==> e == d)
  }

  datatype Look = Missing | Fault | Found(ino: Inode, kind: Kind, mode: Mode, single: bool)

  datatype Made = Made(ino: Inode) | Taken | NotMade

  /** The clean-up began within the run; if no call failed in it, none failed after. */
  ghost predicate CleanedLast(n: Notes, before: nat, after: nat) {
    n.cleaning.Some? && before <= n.cleaning.value <= after && (before == after ==> n.cleaning == Some(after))
  }

  /** What looking at a name tells, if the call works. */
  function LookAt(d: Disk, path: Path, failed: bool): Look {
    if failed then Fault
    else if path in d.names && d.names[path] in d.nodes then
      var i := d.names[path];
      Found(i, d.nodes[i].kind, d.nodes[i].mode, forall q | q in d.names :: d.names[q] == i ==> q == path)
    else Missing
  }

  /** Some name is inside the directory, whether or not it exists. */
  predicate HoldsNames(d: Disk, path: Path) {
    exists q | q in d.names :: q.dir == path.dir + [path.name]
  }

  /** `Path::exists` follows links; it takes a failed call, and a link that leads
      nowhere, for absence. */
  function Visible(d: Disk, path: Path, failed: bool): bool {
    !failed && Opens(d, path)
  }

  lemma ServedDrops(d: Disk, e: Disk, path: Path, confined: bool, s: nat)
    requires s < 3 && Served(d, e, path, confined)
    ensures var p := Sidecar(path, SIDECARS[s]);
      p != path && Served(d, e.(names := e.names - {p}, dirtyNames := e.dirtyNames + {p}), path, confined)
  {
    assert |(path.name + SIDECARS[s])| > |path.name|;
  }

  lemma NewStayPlain(d: Disk, e: Disk, p: Path, i: Inode)
    requires WellFormed(e) && NewArePlain(d, e) && p !in e.names && i !in e.nodes
    ensures NewArePlain(d, Disk(e.names[p := i], e.nodes[i := Node(Regular, Raw([]), 0)], e.dirtyNodes + {i}, e.dirtyNames + {p}))
  {
  }

  lemma FilesStayServed(d: Disk, e: Disk, path: Path, p: Path, i: Inode)
    requires FilesServed(d, e, path) && i !in e.nodes
    ensures FilesServed(d, Disk(e.names[p := i], e.nodes[i := Node(Regular, Raw([]), 0)], e.dirtyNodes + {i}, e.dirtyNames + {p}), path)
  {
  }

  lemma ServedAdds(d: Disk, e: Disk, path: Path, s: nat, i: Inode)
    requires s < 3 && Served(d, e, path, false) && i !in e.nodes
    requires Sidecar(path, SIDECARS[s]) !in e.names
    ensures var p := Sidecar(path, SIDECARS[s]);
      && p != path
      && Served(d, Disk(e.names[p := i], e.nodes[i := Node(Regular, Raw([]), 0)], e.dirtyNodes + {i}, e.dirtyNames + {p}), path, false)
  {
    assert |(path.name + SIDECARS[s])| > |path.name|;
    NewStayPlain(d, e, Sidecar(path, SIDECARS[s]), i);
    FilesStayServed(d, e, path, Sidecar(path, SIDECARS[s]), i);
  }

  /** Some work SQLite may do. */
  method Work(d: Disk, path: Path, confined: bool, image: Option<Content>) returns (next: Disk)
    requires WellFormed(d) && path in d.names
    ensures Served(d, next, path, confined) && At(next.names, path, d.names[path])
    ensures image.Some? ==> next.nodes[next.names[path]].data == image.value
  {
    var i := d.names[path];
    var data: Content := *;
    var synced: bool := *;
    data := if image.Some? then image.value else data;
    next := d.(
      nodes := d.nodes[i := d.nodes[i].(data := data)],
      dirtyNodes := if synced then d.dirtyNodes - {i} else d.dirtyNodes + {i});
    for s := 0 to 3
      invariant Served(d, next, path, confined) && At(next.names, path, i) && next.nodes[i].data == data
    {
      var p := Sidecar(path, SIDECARS[s]);
      var drop: bool := *;
      var extra: Inode := *;
      if drop {
        ServedDrops(d, next, path, confined, s);
        next := next.(names := next.names - {p}, dirtyNames := next.dirtyNames + {p});
      } else if !confined && p !in next.names && extra !in next.nodes {
        ServedAdds(d, next, path, s, extra);
        next := Disk(next.names[p := extra], next.nodes[extra := Node(Regular, Raw([]), 0)],
                     next.dirtyNodes + {extra}, next.dirtyNames + {p});
      }
    }
  }

  class FileSystem {
    var disk: Disk
    const quiet: bool
    /** Calls that failed without a reason in the files. */
    ghost var faults: nat
    /** How many checks have passed, of a name's identity or of what this model does
        not look into. */
    ghost var checks: nat
    ghost var notes: Notes
    ghost var trail: seq<Moment>
    ghost var mine: set<Inode>
    ghost var plan: Option<Plan>
    ghost var copy: Option<Copy>
    ghost var since: nat

    ghost predicate Valid()
      reads this
    {
      && IsRun(quiet, trail)
      && trail[|trail| - 1].disk == disk && trail[|trail| - 1].notes == notes
      && CarefulRun(mine, trail, 0, |trail| - 1)
      && mine <= disk.nodes.Keys
      && (notes.cleaning.Some? ==> notes.cleaning.value <= faults)
      && WellFormed(disk)
      && (plan.Some? ==> copy == None && plan.value.quiet == quiet && plan.value.Obeyed(trail, since))
      && (copy.Some? ==> copy.value.Obeyed(trail, since))
    }

    ghost function Now(): Moment
      reads this
      requires Valid()
    {
      trail[|trail| - 1]
    }

    /** Nothing recorded is forgotten, only new inodes become this code's own, and
        the rule the run is held to stands. */
    twostate predicate Continues()
      reads this
    {
      && Valid()
      && old(trail) <= trail && old(mine) <= mine
      && old(disk.nodes.Keys) <= disk.nodes.Keys
      && (forall i | i in mine :: i in old(mine) || i !in old(disk.nodes))
      && plan == old(plan) && copy == old(copy) && since == old(since) && old(faults) <= faults && old(checks) <= checks
      && old(notes.strays) <= notes.strays
      && (old(notes.closed).Some? ==> notes.closed == old(notes.closed))
      && (old(notes.reopened).Some? ==> notes.reopened == old(notes.reopened))
      && (old(notes.cleaning).Some? ==> notes.cleaning == old(notes.cleaning))
    }

    ghost predicate Permits(e: Event)
      reads this
      requires Valid()
    {
      && (plan.Some? ==> plan.value.Allowed(Now(), e))
      && (copy.Some? ==> copy.value.Allowed(Now(), e))
    }

    constructor (disk: Disk, quiet: bool)
      requires WellFormed(disk)
      ensures Valid() && this.disk == disk && this.quiet == quiet
      ensures plan == None && copy == None && mine == {} && notes == BLANK
      ensures trail == [Moment(Environment, disk, notes)]
    {
      this.disk, this.quiet, faults, checks := disk, quiet, 0, 0;
      notes := BLANK;
      trail := [Moment(Environment, disk, BLANK)];
      mine, plan, copy, since := {}, None, None, 0;
    }

    /** One step, entered in the trail. */
    method Take(ghost e: Event, next: Disk)
      requires Valid() && !e.Closed? && !e.Reopened? && !e.Cleaning? && Next(quiet, disk, e, next) && Permits(e) && Careful(mine, Now(), e)
      modifies this
      ensures Continues() && disk == next && notes == Noted(old(notes), e) && mine == old(mine) && faults == old(faults)
      ensures trail == old(trail) + [Moment(e, next, notes)]
    {
      StepKeepsWellFormed(quiet, disk, e, next);
      StepKeepsNodes(quiet, disk, e, next);
      TrailExtends(Moment(e, next, Noted(notes, e)));
      notes := Noted(notes, e);
      disk := next;
      trail := trail + [Moment(e, next, notes)];
    }

    /** One more moment, if it follows and is allowed, keeps every rule on the trail. */
    lemma TrailExtends(m: Moment)
      requires Valid() && Follows(quiet, Now(), m) && Permits(m.event) && Careful(mine, Now(), m.event)
      ensures IsRun(quiet, trail + [m]) && CarefulRun(mine, trail + [m], 0, |trail|)
      ensures plan.Some? ==> plan.value.Obeyed(trail + [m], since)
      ensures copy.Some? ==> copy.value.Obeyed(trail + [m], since)
    {
      RunExtends(quiet, trail, m);
      CareExtends(mine, trail, m);
      if plan.Some? { plan.value.ObeyedExtends(trail, since, m); }
      if copy.Some? { copy.value.ObeyedExtends(trail, since, m); }
    }

    /** Other writers add names of their own. */
    method Interfere()
      requires Valid()
      modifies this
      ensures Continues() && Drift(quiet, old(disk), disk) && notes == old(notes) && mine == old(mine) && faults == old(faults)
    {
      var next := disk;
      var steps: nat := *;
      while steps > 0
        invariant Drift(quiet, disk, next)
      {
        var p: Path := *;
        var i: Inode := *;
        var node: Node := *;
        if !quiet && p !in next.names && i !in next.nodes {
          next := Disk(next.names[p := i], next.nodes[i := node], next.dirtyNodes + {i}, next.dirtyNames + {p});
        }
        steps := steps - 1;
      }
      Take(Environment, next);
    }

    ghost method Failing(fault: bool)
      requires Valid()
      modifies this`faults
      ensures Valid() && faults == old(faults) + if fault then 1 else 0
    {
      faults := faults + if fault then 1 else 0;
    }

    ghost method Passing(passed: bool)
      requires Valid()
      modifies this`checks
      ensures Valid() && checks == old(checks) + if passed then 1 else 0
    {
      checks := checks + if passed then 1 else 0;
    }

    /** A check this model does not look into; it changes nothing. */
    method Probe() returns (ok: bool)
      requires Valid()
      modifies this
      ensures Continues() && Drift(quiet, old(disk), disk) && notes == old(notes) && mine == old(mine)
      ensures ok <==> faults == old(faults)
      ensures ok ==> checks > old(checks)
      ensures faults <= old(faults) + 1
    {
      ok := *;
      Failing(!ok);
      Passing(ok);
      Interfere();
    }

    method Stat(path: Path) returns (look: Look)
      requires Valid()
      modifies this
      ensures Continues() && Drift(quiet, old(disk), disk) && notes == old(notes) && mine == old(mine)
      ensures look == LookAt(old(disk), path, faults != old(faults))
      ensures look.Missing? ==> path !in old(disk).names
      ensures look.Fault? <==> faults != old(faults)
      ensures look.Found? ==>
                && At(old(disk).names, path, look.ino) && look.ino in old(disk).nodes
                && look.kind == old(disk).nodes[look.ino].kind && look.mode == old(disk).nodes[look.ino].mode
                && (look.single <==> OnlyAt(old(disk).names, look.ino, path))
      ensures faults <= old(faults) + 1
    {
      var fault: bool := *;
      Failing(fault);
      look := LookAt(disk, path, fault);
      Interfere();
    }

    /** `Identity::check`: the name links that inode. */
    method Check(path: Path, ino: Inode) returns (ok: bool)
      requires Valid()
      modifies this
      ensures Continues() && Drift(quiet, old(disk), disk) && notes == old(notes) && mine == old(mine)
      ensures ok <==> faults == old(faults) && At(old(disk).names, path, ino)
      ensures ok ==> checks > old(checks)
      ensures faults <= old(faults) + 1
    {
      var fault: bool := *;
      Failing(fault);
      ok := !fault && path in disk.names && disk.names[path] == ino;
      Passing(ok);
      Interfere();
    }

    /** `absent`: the name links nothing. */
    method Absent(path: Path) returns (r: Result<(), Failure>)
      requires Valid()
      modifies this
      ensures Continues() && Drift(quiet, old(disk), disk) && mine == old(mine)
      ensures notes == if r.Ok? then Noted(old(notes), SeenAbsent(path)) else old(notes)
      ensures r.Ok? <==> faults == old(faults) && path !in old(disk).names
      ensures r.Err? ==> r.error == Plain(if faults == old(faults) then "path_exists" else "filesystem_failure")
      ensures faults <= old(faults) + 1
    {
      var fault: bool := *;
      Failing(fault);
      if fault {
        r := Err(Plain("filesystem_failure"));
      } else if path in disk.names {
        r := Err(Plain("path_exists"));
      } else {
        Take(SeenAbsent(path), disk);
        r := Ok(());
      }
      Interfere();
    }

    /** `Path::exists`: an unreadable name counts as absent, and so does a link that
        leads nowhere. */
    method Exists(path: Path) returns (there: bool)
      requires Valid()
      modifies this
      ensures Continues() && Drift(quiet, old(disk), disk) && mine == old(mine)
      ensures there == Visible(old(disk), path, faults != old(faults))
      ensures notes == if !there && path in old(disk).names then Noted(old(notes), Overlooked(path)) else old(notes)
      ensures faults <= old(faults) + 1
    {
      var fault: bool := *;
      Failing(fault);
      there := Visible(disk, path, fault);
      if !there && path in disk.names {
        Take(Overlooked(path), disk);
      }
      Interfere();
    }

    /** A rename that refuses to replace. */
    method RenameNoReplace(from: Path, to: Path) returns (r: Result<(), Failure>)
      requires Valid()
      requires from in disk.names && to !in disk.names ==> Permits(Rename(from, to))
      modifies this
      ensures Continues() && mine == old(mine)
      ensures r.Ok? ==>
                && Enabled(old(disk), Rename(from, to))
                && notes == Noted(old(notes), Rename(from, to))
                && Drift(quiet, Apply(old(disk), Rename(from, to)), disk)
      ensures r.Err? ==> r.error.Plain? && notes == old(notes) && Drift(quiet, old(disk), disk)
      ensures r.Ok? <==> faults == old(faults) && Enabled(old(disk), Rename(from, to))
      ensures faults <= old(faults) + 1
      ensures r.Err? && faults == old(faults) && from in old(disk).names ==> r.error == Plain("path_exists")
    {
      var fault: bool := *;
      Failing(fault);
      if !fault && from in disk.names && to !in disk.names {
        Take(Rename(from, to), Apply(disk, Rename(from, to)));
        r := Ok(());
      } else {
        r := Err(Plain(if to in disk.names then "path_exists" else "filesystem_failure"));
      }
      Interfere();
    }

    method SetMode(ino: Inode, mode: Mode) returns (ok: bool)
      requires Valid() && ino in mine && Permits(Chmod(ino, mode))
      modifies this
      ensures Continues() && mine == old(mine) && notes == old(notes)
      ensures Drift(quiet, if ok then Apply(old(disk), Chmod(ino, mode)) else old(disk), disk)
      ensures ok <==> faults == old(faults)
      ensures faults <= old(faults) + 1
    {
      ok := *;
      Failing(!ok);
      if ok {
        Take(Chmod(ino, mode), Apply(disk, Chmod(ino, mode)));
      }
      Interfere();
    }

    method SyncHandle(ino: Inode) returns (ok: bool)
      requires Valid()
      modifies this
      ensures Continues() && mine == old(mine) && notes == old(notes)
      ensures Drift(quiet, if ok then Apply(old(disk), SyncNode(ino)) else old(disk), disk)
      ensures ok <==> faults == old(faults)
      ensures faults <= old(faults) + 1
    {
      ok := *;
      Failing(!ok);
      if ok {
        Take(SyncNode(ino), Apply(disk, SyncNode(ino)));
      }
      Interfere();
    }

    /** `perform_file_sync`: open the file by name, following links, and sync it. */
    method SyncFile(path: Path) returns (ok: bool)
      requires Valid()
      modifies this
      ensures Continues() && mine == old(mine) && notes == old(notes)
      ensures ok ==>
                && Opens(old(disk), path)
                && Drift(quiet, Apply(old(disk), SyncNode(old(disk).names[Final(old(disk), path, MAX_HOPS)])), disk)
      ensures !ok ==> Drift(quiet, old(disk), disk)
      ensures ok <==> faults == old(faults) && Opens(old(disk), path)
      ensures faults <= old(faults) + 1
    {
      var fault: bool := *;
      Failing(fault);
      ok := !fault && Opens(disk, path);
      if ok {
        var e := SyncNode(disk.names[Final(disk, path, MAX_HOPS)]);
        Take(e, Apply(disk, e));
      }
      Interfere();
    }

    /** `sync_parent`: sync the directory that holds the name. */
    method SyncParent(path: Path) returns (ok: bool)
      requires Valid()
      modifies this
      ensures Continues() && mine == old(mine) && notes == old(notes)
      ensures Drift(quiet, if ok then Apply(old(disk), Event.SyncDirectory(path.dir)) else old(disk), disk)
      ensures ok <==> faults == old(faults)
      ensures faults <= old(faults) + 1
    {
      ok := *;
      Failing(!ok);
      if ok {
        Take(Event.SyncDirectory(path.dir), Apply(disk, Event.SyncDirectory(path.dir)));
      }
      Interfere();
    }

    /** The new inode is this code's own. */
    method Put(path: Path, i: Inode, kind: Kind, mode: Mode)
      requires Valid() && plan == None && (copy.Some? ==> path != copy.value.destination && notes.cleaning == None)
      requires Enabled(disk, Create(path, i, kind, mode))
      modifies this
      ensures Continues() && faults == old(faults)
      ensures mine == old(mine) + {i} && notes == Noted(old(notes), Create(path, i, kind, mode))
      ensures disk == Apply(old(disk), Create(path, i, kind, mode))
    {
      var e := Create(path, i, kind, mode);
      Take(e, Apply(disk, e));
      CareGrows(mine, mine + {i}, trail, |trail| - 1);
      mine := mine + {i};
    }

    /** Exclusive creation of a file or a directory. */
    method MakeNew(path: Path, kind: Kind, mode: Mode) returns (made: Made)
      requires Valid() && plan == None && (copy.Some? ==> path != copy.value.destination && notes.cleaning == None)
      modifies this
      ensures Continues()
      ensures made.Made? ==>
                && Enabled(old(disk), Create(path, made.ino, kind, mode))
                && mine == old(mine) + {made.ino}
                && notes == Noted(old(notes), Create(path, made.ino, kind, mode))
                && Drift(quiet, Apply(old(disk), Create(path, made.ino, kind, mode)), disk)
      ensures !made.Made? ==> notes == old(notes) && mine == old(mine) && Drift(quiet, old(disk), disk)
      ensures made.Taken? ==> path in old(disk).names
      ensures faults == old(faults) ==>
                (made.Taken? <==> path in old(disk).names)
                && (made.Made? <==> path !in old(disk).names && (kind == Directory ==> !HoldsNames(old(disk), path)))
      ensures !made.NotMade? ==> faults == old(faults)
      ensures faults <= old(faults) + 1
    {
      var fault: bool := *;
      Failing(fault);
      if path in disk.names {
        made := if fault then NotMade else Taken;
      } else if fault || (kind == Directory && HoldsNames(disk, path)) {
        made := NotMade;
      } else {
        ghost var unused := Unused(disk.nodes.Keys);
        var i: Inode :| i !in disk.nodes;
        Put(path, i, kind, mode);
        made := Made(i);
      }
      Interfere();
    }

    /** A rename that replaces what is at the new name: this code's own file, or one
        that was overlooked. */
    method RenameOver(from: Path, to: Path) returns (ok: bool)
      requires Valid() && from != to
      requires from in disk.names ==>
                 Permits(Replace(from, to)) && (to in disk.names ==> disk.names[to] in mine || to in notes.overlooked)
      modifies this
      ensures Continues() && mine == old(mine) && notes == old(notes)
      ensures ok ==> Enabled(old(disk), Replace(from, to)) && Drift(quiet, Apply(old(disk), Replace(from, to)), disk)
      ensures !ok ==> Drift(quiet, old(disk), disk)
      ensures ok <==> faults == old(faults) && Enabled(old(disk), Replace(from, to))
      ensures faults <= old(faults) + 1
    {
      var fault: bool := *;
      Failing(fault);
      ok := !fault && from in disk.names && (to in disk.names ==> disk.nodes[disk.names[to]].kind != Directory);
      if ok {
        Take(Replace(from, to), Apply(disk, Replace(from, to)));
      }
      Interfere();
    }

    /** Unlink a file this code created. */
    method RemoveFile(path: Path) returns (ok: bool)
      requires Valid()
      requires path in disk.names ==> disk.names[path] in mine && Permits(Remove(path))
      modifies this
      ensures Continues() && mine == old(mine) && notes == old(notes)
      ensures ok ==> Enabled(old(disk), Remove(path)) && Drift(quiet, Apply(old(disk), Remove(path)), disk)
      ensures !ok ==> Drift(quiet, old(disk), disk)
      ensures ok <==> faults == old(faults) && Enabled(old(disk), Remove(path))
      ensures faults <= old(faults) + 1
    {
      var fault: bool := *;
      Failing(fault);
      ok := !fault && path in disk.names && disk.nodes[disk.names[path]].kind != Directory;
      if ok {
        Take(Remove(path), Apply(disk, Remove(path)));
      }
      Interfere();
    }

    /** Remove an empty directory this code created. */
    method RemoveEmptyDirectory(path: Path) returns (ok: bool)
      requires Valid()
      requires path in disk.names ==> disk.names[path] in mine && Permits(Event.RemoveDirectory(path))
      modifies this
      ensures Continues() && mine == old(mine) && notes == old(notes)
      ensures ok ==>
                && Enabled(old(disk), Event.RemoveDirectory(path))
                && Drift(quiet, Apply(old(disk), Event.RemoveDirectory(path)), disk)
      ensures !ok ==> Drift(quiet, old(disk), disk)
      ensures ok <==> faults == old(faults) && Enabled(old(disk), Event.RemoveDirectory(path))
      ensures faults <= old(faults) + 1
    {
      var fault: bool := *;
      Failing(fault);
      ok := !fault && path in disk.names && disk.nodes[disk.names[path]].kind == Directory
        && forall q | q in disk.names :: q.dir != path.dir + [path.name];
      if ok {
        Take(Event.RemoveDirectory(path), Apply(disk, Event.RemoveDirectory(path)));
      }
      Interfere();
    }

    /** SQLite does some work on the open database at `path`; when `image` is
        given, that is what its file then holds. Nothing else is known of it. */
    method Serve(path: Path, confined: bool, image: Option<Content>)
      requires Valid() && path in disk.names
      requires Permits(Library(path, confined))
      modifies this
      ensures Continues() && mine == old(mine) && faults == old(faults)
      ensures notes == Noted(old(notes), Library(path, confined))
      ensures Served(old(disk), disk, path, confined)
      ensures image.Some? ==> disk.nodes[disk.names[path]].data == image.value
    {
      var next := Work(disk, path, confined, image);
      Take(Library(path, confined), next);
    }

    /** A mark in the trail: it changes no file. */
    ghost method Mark(e: Event)
      requires Valid() && Permits(e)
      requires e.Recorded? || e.Strayed? || e.Closed? || e.Reopened? || e.Cleaning?
      requires Enabled(disk, e) && (e.Cleaning? ==> e.faults == faults && notes.cleaning == None)
      requires (e.Closed? ==> notes.closed == None) && (e.Reopened? ==> notes.reopened == None)
      modifies this`notes, this`trail
      ensures Continues() && notes == Noted(old(notes), e)
      ensures trail == old(trail) + [Moment(e, disk, notes)]
    {
      ghost var m := Moment(e, disk, Noted(notes, e));
      TrailExtends(m);
      notes, trail := m.notes, trail + [m];
    }

    /** Marks the move as made but not confirmed. */
    ghost method MarkStray(x: Entry)
      requires Valid() && At(disk.names, x.to, x.ino)
      modifies this`notes, this`trail
      ensures Continues() && notes == Noted(old(notes), Strayed(x))
    {
      Mark(Strayed(x));
    }

    /** From here on the run is held to `p`. */
    ghost method Adopt(p: Plan)
      requires Valid() && plan == None && copy == None && p.quiet == quiet && p.Begins(Now())
      modifies this`plan, this`since
      ensures Valid() && plan == Some(p) && since == |trail| - 1
    {
      plan, since := Some(p), |trail| - 1;
    }

    /** From here on the run is a backup, and held to `c`. */
    ghost method Publish(c: Copy)
      requires Valid() && plan == None && copy == None && c.before == LinkAt(disk.names, c.destination)
      modifies this`copy, this`since
      ensures Valid() && copy == Some(c) && since == |trail| - 1
    {
      copy, since := Some(c), |trail| - 1;
    }

    lemma NodesKept()
      requires Valid() && plan.Some?
      ensures plan.value.NodesKept(disk)
    {
      Sound();
    }

    /** And so are the sidecars of the close at one of their two names. */
    lemma SidecarsSound()
      requires Valid() && plan.Some?
      ensures plan.value.SidecarsHeld(Now())
    {
      plan.value.RunKeepsHeld(trail, since, |trail| - 1);
    }

    /** Whatever the run has done so far, the plan's invariant holds now. */
    lemma Sound()
      requires Valid() && plan.Some?
      ensures plan.value.Invariant(Now()) && plan.value.Valid()
    {
      plan.value.RunKeepsInvariant(trail, since, |trail| - 1);
    }
  }
}
