/** The adapter whose database is being recovered: its SQLite handle, and the
    inode it recorded when it opened. */
module Adapters {
  import opened Wrappers
  import opened Databases
  import opened Paths
  import opened Disks
  import opened FileSystems

  datatype Handle = Shut | Open(ino: Inode)

  /** What a spell of SQLite work, and other writers beside it, may have done. */
  ghost predicate Worked(quiet: bool, d: Disk, e: Disk, path: Path) {
    && (forall q | q in d.names && !IsSidecarOf(q, path) :: At(e.names, q, d.names[q]))
    && (forall q | q in e.names && e.names[q] in d.nodes :: At(d.names, q, e.names[q]))
    && (forall i | i in d.nodes ::
          i in e.nodes && e.nodes[i].kind == d.nodes[i].kind && e.nodes[i].mode == d.nodes[i].mode
          && (e.nodes[i] != d.nodes[i] ==> InFamily(d.names, path, i)))
    && (quiet ==> forall q | q in e.names && !IsSidecarOf(q, path) :: q in d.names)
    && (forall i | i in e.dirtyNodes && i in d.nodes :: i in d.dirtyNodes || InFamily(d.names, path, i))
    && (forall q | q in e.dirtyNames && q in d.names :: q in d.dirtyNames || IsSidecarOf(q, path))
    && WellFormed(e)
  }

  lemma ServedThenDrifted(quiet: bool, d: Disk, e: Disk, f: Disk, path: Path, confined: bool)
    requires Served(d, e, path, confined) && Drift(quiet, e, f)
    ensures Worked(quiet, d, f, path)
  {
  }

  lemma WorkedThenDrifted(quiet: bool, d: Disk, e: Disk, f: Disk, path: Path)
    requires WellFormed(d) && Worked(quiet, d, e, path) && Drift(quiet, e, f)
    ensures Worked(quiet, d, f, path)
  {
  }

  lemma WorkedNothing(quiet: bool, d: Disk, path: Path)
    requires WellFormed(d)
    ensures Worked(quiet, d, d, path)
  {
  }

  /** SQLite works on the database at `path`, if its handle is on that file. */
  method WorkOn(fs: FileSystem, path: Path, confined: bool, image: Option<Content>)
    requires fs.Valid() && path in fs.disk.names && fs.Permits(Library(path, confined))
    modifies fs
    ensures fs.Continues() && fs.mine == old(fs.mine) && fs.faults == old(fs.faults)
    ensures fs.notes == Noted(old(fs.notes), Library(path, confined))
    ensures Worked(fs.quiet, old(fs.disk), fs.disk, path) && path in fs.disk.names
    ensures image.Some? ==> fs.disk.nodes[fs.disk.names[path]].data == image.value
    ensures fs.quiet && confined ==>
              && (forall q | q in fs.disk.names :: At(old(fs.disk.names), q, fs.disk.names[q]))
  {
    fs.Serve(path, confined, image);
    ghost var d := fs.disk;
    fs.Interfere();
    ServedThenDrifted(fs.quiet, old(fs.disk), d, fs.disk, path, confined);
  }

  /** `file_identity`: the inode, if the call that looks for it works. */
  function Identified(look: Look): Option<Inode> {
    match look
    case Found(i, _, _, _) => Some(i)
    case _ => None
  }

  /** How many calls had failed, and how often SQLite had refused, at some time. */
  datatype Mark = Mark(faults: nat, refusals: nat)

  class SqliteAdapter {
    const path: Path
    /** What queries through the opened source return. */
    const store: Database
    var handle: Handle
    var transaction: bool
    var identity: Option<Inode>
    /** How often SQLite has refused what was asked of it. */
    ghost var refusals: nat
    /** How often it has refused to end a transaction. */
    ghost var stuck: nat
    /** When a recovery began to undo, if it did. */
    ghost var undoing: Option<Mark>

    constructor (path: Path, store: Database, handle: Handle, identity: Option<Inode>)
      ensures this.path == path && this.store == store && this.handle == handle
      ensures !transaction && this.identity == identity && undoing == None
    {
      this.path, this.store, this.handle, this.identity := path, store, handle, identity;
      transaction, refusals, stuck, undoing := false, 0, 0, None;
    }

    ghost method Refusing(refused: bool)
      modifies this`refusals
      ensures refusals == old(refusals) + if refused then 1 else 0
    {
      refusals := refusals + if refused then 1 else 0;
    }

    /** A new recovery has not begun to undo. */
    ghost method Forget()
      modifies this`undoing
      ensures undoing == None
    {
      undoing := None;
    }

    /** From here on the recovery undoes what it has done. */
    ghost method GiveUp(fs: FileSystem)
      requires undoing == None
      modifies this`undoing
      ensures undoing == Some(Mark(fs.faults, refusals))
    {
      undoing := Some(Mark(fs.faults, refusals));
    }

    /** `BEGIN EXCLUSIVE`. */
    method Begin(fs: FileSystem) returns (r: Result<(), Failure>)
      requires fs.Valid() && path in fs.disk.names && fs.Permits(Library(path, false))
      modifies this`transaction, this`refusals, fs
      ensures fs.Continues() && fs.mine == old(fs.mine)
      ensures fs.notes == Noted(old(fs.notes), Library(path, false))
      ensures Worked(fs.quiet, old(fs.disk), fs.disk, path)
      ensures transaction <==> r.Ok? || old(transaction)
      ensures r.Err? ==> r.error.Plain?
      ensures r.Ok? <==> refusals == old(refusals)
      ensures refusals >= old(refusals)
      ensures fs.faults == old(fs.faults)
    {
      WorkOn(fs, path, false, None);
      var fault: bool := *;
      Refusing(fault);
      r := if fault then Err(Plain("busy")) else Ok(());
      transaction := transaction || !fault;
    }

    /** `ROLLBACK`. */
    method EndTransaction(fs: FileSystem) returns (r: Result<(), Failure>)
      requires fs.Valid() && path in fs.disk.names && fs.Permits(Library(path, false))
      modifies this`transaction, this`refusals, this`stuck, fs
      ensures fs.Continues() && fs.mine == old(fs.mine)
      ensures fs.notes == Noted(old(fs.notes), Library(path, false))
      ensures Worked(fs.quiet, old(fs.disk), fs.disk, path)
      ensures transaction <==> r.Err? && old(transaction)
      ensures r.Err? ==> r.error.Plain?
      ensures r.Ok? <==> refusals == old(refusals)
      ensures refusals >= old(refusals)
      ensures stuck == old(stuck) + if r.Err? then 1 else 0
      ensures fs.faults == old(fs.faults)
    {
      WorkOn(fs, path, false, None);
      var fault: bool := *;
      Refusing(fault);
      stuck := stuck + if fault then 1 else 0;
      r := if fault then Err(Plain("sqlite_error")) else Ok(());
      transaction := transaction && fault;
    }

    /** Close the handle; a refused close leaves it open. */
    method Close(fs: FileSystem) returns (r: Result<(), Failure>)
      requires fs.Valid()
      requires handle.Open? ==> path in fs.disk.names && fs.Permits(Library(path, false))
      modifies this`handle, this`transaction, this`refusals, fs
      ensures fs.Continues() && fs.mine == old(fs.mine)
      ensures fs.notes == if old(handle).Open? then Noted(old(fs.notes), Library(path, false)) else old(fs.notes)
      ensures if old(handle).Open? then Worked(fs.quiet, old(fs.disk), fs.disk, path) else fs.disk == old(fs.disk)
      ensures handle == (if r.Ok? then Shut else old(handle))
      ensures transaction <==> old(transaction) && r.Err?
      ensures r.Err? ==> r.error.Plain?
      ensures r.Ok? <==> refusals == old(refusals)
      ensures refusals >= old(refusals) && fs.faults == old(fs.faults)
    {
      if handle == Shut {
        transaction := false;
        return Ok(());
      }
      WorkOn(fs, path, false, None);
      var fault: bool := *;
      Refusing(fault);
      if fault {
        return Err(Plain("busy"));
      }
      handle, transaction := Shut, false;
      r := Ok(());
    }

    /** `reopen_connection`: open, configure, and record the inode found, or nothing
        if the call that looks for it fails. */
    method Reopen(fs: FileSystem) returns (r: Result<(), Failure>)
      requires fs.Valid() && path in fs.disk.names && fs.Permits(Library(path, false))
      modifies this`handle, this`transaction, this`identity, this`refusals, fs
      ensures fs.Continues() && fs.mine == old(fs.mine)
      ensures fs.notes.(absent := {}) == old(fs.notes).(absent := {})
      ensures Worked(fs.quiet, old(fs.disk), fs.disk, path)
      ensures r.Ok? ==>
                && handle == Open(old(fs.disk.names[path])) && !transaction
                && identity == (if fs.faults == old(fs.faults) then Some(old(fs.disk.names[path])) else None)
      ensures r.Err? ==> r.error.Plain? && identity == old(identity)
      ensures r.Err? ==> handle == old(handle) || handle == Shut || handle == Open(old(fs.disk.names[path]))
      ensures r.Ok? <==> refusals == old(refusals)
      ensures refusals >= old(refusals)
      ensures transaction ==> old(transaction)
      ensures fs.faults <= old(fs.faults) + if r.Ok? then 1 else 0
    {
      r := Configure(fs);
      if r.Err? { return; }
      ghost var d := fs.disk;
      Identify(fs);
      WorkedThenDrifted(fs.quiet, old(fs.disk), d, fs.disk, path);
    }

    method Identify(fs: FileSystem)
      requires fs.Valid() && path in fs.disk.names
      modifies this`identity, fs
      ensures fs.Continues() && fs.mine == old(fs.mine) && fs.notes == old(fs.notes) && Drift(fs.quiet, old(fs.disk), fs.disk)
      ensures identity == if fs.faults == old(fs.faults) then Some(old(fs.disk.names[path])) else None
      ensures fs.faults <= old(fs.faults) + 1
    {
      var look := fs.Stat(path);
      identity := Identified(look);
    }

    /** Open the database and configure the connection; one that cannot be
        configured is closed again, if it lets itself be closed. */
    method Configure(fs: FileSystem) returns (r: Result<(), Failure>)
      requires fs.Valid() && path in fs.disk.names && fs.Permits(Library(path, false))
      modifies this`handle, this`transaction, this`refusals, fs
      ensures fs.Continues() && fs.mine == old(fs.mine) && fs.faults == old(fs.faults)
      ensures r.Ok? <==> refusals == old(refusals)
      ensures refusals >= old(refusals)
      ensures fs.notes.(absent := {}) == old(fs.notes).(absent := {})
      ensures Worked(fs.quiet, old(fs.disk), fs.disk, path)
      ensures path in fs.disk.names && fs.disk.names[path] == old(fs.disk.names[path])
      ensures r.Ok? ==> handle == Open(old(fs.disk.names[path])) && !transaction
      ensures r.Err? ==> r.error.Plain?
      ensures r.Err? ==> handle == old(handle) || handle == Shut || handle == Open(old(fs.disk.names[path]))
      ensures transaction ==> old(transaction)
    {
      var ino := fs.disk.names[path];
      var unopened: bool := *;
      if unopened {
        Refusing(true);
        WorkedNothing(fs.quiet, fs.disk, path);
        return Err(Plain("cannot_open"));
      }
      handle, transaction := Open(ino), false;
      WorkOn(fs, path, false, None);
      r := Settle();
    }

    /** The pragmas of a connection just opened. */
    method Settle() returns (r: Result<(), Failure>)
      modifies this`handle, this`refusals
      ensures handle == old(handle) || (r.Err? && handle == Shut)
      ensures r.Err? ==> r.error.Plain?
      ensures r.Ok? <==> refusals == old(refusals)
      ensures refusals >= old(refusals)
    {
      var misconfigured: bool := *;
      Refusing(misconfigured);
      if misconfigured {
        var unclosed: bool := *;
        handle := if unclosed then handle else Shut;
        return Err(Plain("sqlite_error"));
      }
      return Ok(());
    }
  }
}
