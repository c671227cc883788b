/** The rule a backup keeps to, and what it preserves: the destination name is
    free, or links what it linked before, or a complete, checked and synced copy. */
module Publication {
  import opened Wrappers
  import opened Databases
  import opened Paths
  import opened Disks

  ghost function LinkAt(names: Names, p: Path): Option<Inode> {
    if p in names then Some(names[p]) else None
  }

  /** A backup of `store` to `destination`, which linked `before` when it began. */
  datatype Copy = Copy(destination: Path, store: Database, before: Option<Inode>)
  {
    /** The inode holds the whole copy, which has passed the integrity check and
        would survive a power loss. */
    ghost predicate Complete(d: Disk, i: Inode) {
      i in d.nodes && d.nodes[i].data == Image(store, true) && i !in d.dirtyNodes
    }

    /** The destination is what it was, or the copy; it is what it was for as long
        as no existence test has overlooked it. */
    ghost predicate Sound(m: Moment) {
      var names := m.disk.names;
      && (destination in names ==> before == Some(names[destination]) || Complete(m.disk, names[destination]))
      && (before.Some? && destination !in m.notes.overlooked ==> At(names, destination, before.value))
    }

    /** The destination may be replaced: it is free, or was overlooked. */
    ghost predicate MayReplace(m: Moment) {
      destination in m.disk.names ==> destination in m.notes.overlooked
    }

    /** The steps a backup may take. Nothing is removed before the clean-up begins,
        and the clean-up does nothing but remove. */
    ghost predicate Allowed(m: Moment, e: Event) {
      match e
      case Create(p, _, _, _) => m.notes.cleaning == None && p != destination
      case Rename(_, _) => false
      case Replace(from, to) =>
        && m.notes.cleaning == None && from in m.disk.names
        && (to == destination ==> Complete(m.disk, m.disk.names[from]) && MayReplace(m))
        && (from == destination ==> before != Some(m.disk.names[from]))
      case Remove(p) => m.notes.cleaning.Some? && p != destination
      case RemoveDirectory(p) => false
      case Chmod(i, _) => !At(m.disk.names, destination, i)
      case Library(path, _) =>
        && m.notes.cleaning == None && path != destination && !IsSidecarOf(destination, path)
        && (destination in m.disk.names && before != Some(m.disk.names[destination]) ==>
              !InFamily(m.disk.names, path, m.disk.names[destination]))
      case _ => true
    }

    ghost predicate AllowedAt(trail: seq<Moment>, since: nat, k: nat)
      requires since <= k < |trail|
    {
      if k == since then before == LinkAt(trail[k].disk.names, destination) else Allowed(trail[k - 1], trail[k].event)
    }

    ghost predicate Obeyed(trail: seq<Moment>, since: nat) {
      since < |trail| && forall k | since <= k < |trail| :: AllowedAt(trail, since, k)
    }

    lemma ObeyedExtends(trail: seq<Moment>, since: nat, m: Moment)
      requires Obeyed(trail, since) && Allowed(trail[|trail| - 1], m.event)
      ensures Obeyed(trail + [m], since)
    {
      forall k | since <= k < |trail + [m]| ensures AllowedAt(trail + [m], since, k) {
        if k < |trail| { assert AllowedAt(trail, since, k); }
      }
    }

    lemma StepKeepsSound(m: Moment, m': Moment)
      requires WellFormed(m.disk) && Sound(m)
      requires Allowed(m, m'.event) && Follows(true, m, m')
      ensures Sound(m')
    {
    }

    lemma {:induction false} RunIsWellFormed(trail: seq<Moment>, k: nat)
      requires IsRun(true, trail) && k < |trail|
      ensures WellFormed(trail[k].disk)
    {
      assert StepAt(true, trail, k);
      if k > 0 {
        RunIsWellFormed(trail, k - 1);
        StepKeepsWellFormed(true, trail[k - 1].disk, trail[k].event, trail[k].disk);
      }
    }

    /** In a quiet directory, wherever a backup is cut off, the destination is what
        it was, or free, or complete. */
    lemma {:induction false} DestinationIsSound(trail: seq<Moment>, since: nat, k: nat)
      requires IsRun(true, trail) && Obeyed(trail, since)
      requires since <= k < |trail|
      ensures Sound(trail[k])
    {
      assert AllowedAt(trail, since, k);
      if since < k {
        DestinationIsSound(trail, since, k - 1);
        RunIsWellFormed(trail, k - 1);
        assert StepAt(true, trail, k);
        StepKeepsSound(trail[k - 1], trail[k]);
      }
    }
  }

  /** Why the destination must not be a sidecar name of a database SQLite has open:
      there its work may leave a file that is no copy. */
  lemma SidecarIsNoDestination(c: Copy, m: Moment, path: Path)
    requires WellFormed(m.disk) && path in m.disk.names && c.destination !in m.disk.names && IsSidecarOf(c.destination, path)
    requires c.before == None
    ensures exists e :: Served(m.disk, e, path, false) && !c.Sound(m.(disk := e))
  {
    var d := m.disk;
    var i := Unused(d.nodes.Keys);
    var e := Disk(d.names[c.destination := i], d.nodes[i := Node(Regular, Raw([]), 0)], d.dirtyNodes + {i}, d.dirtyNames + {c.destination});
    assert Served(d, e, path, false) && !c.Sound(m.(disk := e));
  }

  /** Why the source must not be a sidecar name of the temporary file: SQLite's work
      on that file may then remove it. */
  lemma SidecarIsNoSource(d: Disk, source: Path, temporary: Path)
    requires WellFormed(d) && temporary in d.names && source in d.names && IsSidecarOf(source, temporary)
    ensures exists e :: Served(d, e, temporary, false) && source !in e.names
  {
    assert |temporary.name + SIDECARS[0]| > |temporary.name| && |temporary.name + SIDECARS[1]| > |temporary.name|
        && |temporary.name + SIDECARS[2]| > |temporary.name|;
    var e := d.(names := d.names - {source}, dirtyNames := d.dirtyNames + {source});
    assert Served(d, e, temporary, false);
  }
}
