/** From the close of the old handle to its outcome: preserve, activate, finish,
    and on any failure undo. */
module Transfer {
  import opened Wrappers
  import opened Paths
  import opened Disks
  import opened Custody
  import opened UndoLog
  import opened FileSystems
  import opened Moves
  import opened Staging
  import opened Preservation
  import opened Adapters
  import opened Rollback
  import opened Activation

  ghost predicate AgreeAt(d: Names, e: Names, q: Path) {
    (q in d <==> q in e) && (q in d ==> d[q] == e[q])
  }

  /** The database directory has the same names linking the same files. */
  ghost predicate SameDirectory(p: Plan, d: Names, e: Names) {
    forall q: Path | q.dir == p.source.dir :: AgreeAt(d, e, q)
  }

  /** What the rollback found when it reopened the original: the original and its
      name at the source would survive a power loss; and with no other writer, the
      directory is exactly as it was at the close, unless some move was made and
      never confirmed; then it is not. */
  ghost predicate Undone(p: Plan, base: Names, n: Notes, quiet: bool) {
    && ReopenedDurably(p, n)
    && (quiet ==> (n.strays == {} <==> SameDirectory(p, base, n.reopened.value.names)))
  }

  /** Undoing a preservation that failed part-way. */
  lemma UndoneAfterPreservation(p: Plan, base: Names, names: Names, moved: seq<Entry>, stray: Option<Entry>)
    requires p.Valid() && p.IsLog(moved) && Performed(base, names, moved, stray) && PreservationEnds(p, names, moved, stray)
    ensures Undoes(names, moved)
    ensures stray == None <==> SameDirectory(p, base, Undo(names, moved))
  {
    match stray
    case None =>
      assert moved + Option1(None) == moved;
      UndoInvertsPerform(base, moved);
    case Some(x) =>
      if moved == [] {
        assert Option1(stray) == [x] && moved + [x] == [x] && [x][1..] == [];
        assert p.source != p.archive;
        assert !AgreeAt(base, names, p.archive);
      } else {
        UndoMissesStray(base, moved, x);
        assert !AgreeAt(base, MoveName(base, x.from, x.to), x.from);
      }
  }

  /** The log's names are all beside the source, none inside staging. */
  lemma LogIsApartFromStaging(p: Plan, moved: seq<Entry>)
    requires p.Valid() && p.IsLog(moved)
    ensures Apart(moved, Entry(p.Temporary(), p.Failed(), p.rebuilt))
  {
    p.StagingApart();
    forall e | e in moved ensures e.from.dir == p.source.dir && e.to.dir == p.source.dir {
      var j :| 0 <= j < |moved| && moved[j] == e;
      assert j == 0 ==> e == p.Main();
      assert j > 0 ==> p.IsSidecar(e);
    }
  }

  lemma MovedTwice(names: Names, a: Path, b: Path, c: Path)
    requires a in names && b !in names && a != b
    ensures MoveName(MoveName(names, a, b), b, c) == MoveName(names, a, c)
  {
  }

  lemma MoveElsewhere(p: Plan, names: Names, from: Path, to: Path)
    requires from in names && from.dir != p.source.dir && to.dir != p.source.dir
    ensures SameDirectory(p, names, MoveName(names, from, to))
  {
  }

  /** Undoing after the replacement was activated and quarantined. */
  lemma UndoneAfterQuarantine(p: Plan, base: Names, names: Names, moved: seq<Entry>)
    requires p.Valid() && p.IsLog(moved) && Performed(base, names, moved, None)
    requires At(base, p.Temporary(), p.rebuilt) && p.Failed() !in base && p.source !in names
    ensures p.Temporary() in names
    ensures var after := MoveName(MoveName(names, p.Temporary(), p.source), p.source, p.Failed());
      Undoes(after, moved) && SameDirectory(p, base, Undo(after, moved))
  {
    p.StagingApart();
    LogIsApartFromStaging(p, moved);
    assert moved + Option1(None) == moved;
    UndoCarriesOther(base, moved, Entry(p.Temporary(), p.Failed(), p.rebuilt));
    MovedTwice(names, p.Temporary(), p.source, p.Failed());
    MoveElsewhere(p, base, p.Temporary(), p.Failed());
  }

  /** While the replacement holds the source's name the log cannot be undone. */
  lemma StrayActivationBlocksUndo(p: Plan, names: Names, moved: seq<Entry>)
    requires p.Valid() && p.IsLog(moved) && moved != [] && p.source in names
    ensures !Undoes(names, moved)
  {
    if Undoes(names, moved) {
      p.PathsDiffer();
      forall j | 1 <= j < |moved| ensures moved[j].from != p.source && moved[j].to != p.source {
        assert p.IsSidecar(moved[j]);
      }
      UndoNeedsFirstFree(names, moved);
    }
  }

  /** With no other writer nothing of anyone else's is in staging, so `failed.db`
      is free while the replacement is still `rebuilt.db`. */
  lemma FailedIsFree(fs: FileSystem, p: Plan)
    requires fs.Valid() && fs.plan == Some(p) && fs.quiet && At(fs.disk.names, p.Temporary(), p.rebuilt)
    ensures p.Failed() !in fs.disk.names
  {
    fs.Sound();
    p.StagingApart();
  }

  lemma PreservedUnwinds(p: Plan, names: Names, n: Notes)
    requires Preserved(p, names, n.moved, 3)
    ensures Unwinding(p, names, n, |n.moved|)
  {
  }

  /** How the transfer may end: the replacement is active with every original
      file archived; or the original is back, open, with no transaction; or the
      rollback failed. If no call has failed (`calm`), the inode now at the source
      is the recorded one. */
  ghost predicate Ended(fs: FileSystem, p: Plan, a: SqliteAdapter, r: Result<(), Failure>, calm: bool)
    reads fs, a
  {
    && fs.Valid() && fs.plan == Some(p) && fs.notes.cleaning == None
    && match r
       case Ok(_) =>
         && Underway(fs, p)
         && At(fs.disk.names, p.source, p.rebuilt) && p.Activation() !in fs.notes.strays
         && p.Archived(fs.disk.names, fs.notes.moved) && fs.notes.moved != [] && Lasting(fs, p)
         && a.handle == Open(p.rebuilt) && !a.transaction && (a.identity == None || a.identity == Some(p.rebuilt))
         && (calm ==> a.identity == Some(p.rebuilt))
       case Err(Plain(_)) => Restored(fs, p, a) && (calm ==> a.identity == Some(p.original))
       case Err(RollbackFailed(_, _)) => true
  }

  /** At some moment since the plan was adopted the replacement was at the source. */
  ghost predicate WasActive(p: Plan, trail: seq<Moment>, since: nat) {
    exists k | since <= k < |trail| :: At(trail[k].disk.names, p.source, p.rebuilt)
  }

  /** The stage is kept only for a failed replacement whose activation was
      confirmed; otherwise the replacement has not left it, or strayed from it. */
  ghost predicate Leaves(p: Plan, fs: FileSystem, stage: Stage, failed: bool)
    reads fs, stage
  {
    && (stage.retain ==> failed && WasActive(p, fs.trail, fs.since) && p.Activation() !in fs.notes.strays)
    && (!stage.retain && failed ==> At(fs.disk.names, p.Temporary(), p.rebuilt) || p.Activation() in fs.notes.strays)
  }

  /** Whenever the replacement is at the source nothing is beside it. */
  ghost predicate AloneAt(p: Plan, trail: seq<Moment>, k: nat)
    requires k < |trail|
  {
    At(trail[k].disk.names, p.source, p.rebuilt) ==> NoSidecars(p, trail[k].disk.names)
  }

  /** SQLite has left nothing beside the replacement at any moment. */
  ghost predicate StaysAlone(p: Plan, trail: seq<Moment>, since: nat) {
    forall k | since <= k < |trail| :: AloneAt(p, trail, k)
  }

  lemma AloneBefore(p: Plan, trail: seq<Moment>, more: seq<Moment>, since: nat)
    requires trail <= more
    ensures StaysAlone(p, more, since) ==> StaysAlone(p, trail, since)
    ensures StaysAlone(p, more, since) && since < |trail| ==> AloneAt(p, trail, |trail| - 1)
  {
    if StaysAlone(p, more, since) {
      forall k | since <= k < |trail| ensures AloneAt(p, trail, k) { assert AloneAt(p, more, k); }
    }
  }

  /** The main file's move or the activation was made and never confirmed. */
  ghost predicate StrayedAtSource(p: Plan, n: Notes) {
    p.Main() in n.strays || p.Activation() in n.strays
  }

  /** The recovery began to undo at some time between. */
  ghost predicate GaveUp(a: SqliteAdapter, faults: nat, refusals: nat, after: nat)
    reads a
  {
    && a.undoing.Some? && faults <= a.undoing.value.faults <= after && refusals <= a.undoing.value.refusals <= a.refusals
  }

  /** With no other writer, no failing call and no refusal since the recovery began to
      undo, and nothing left beside the replacement, the error is plain exactly unless
      a move away from or to the source went unconfirmed. */
  ghost predicate EndsPlainly(fs: FileSystem, p: Plan, a: SqliteAdapter, e: Failure)
    reads fs, a
  {
    fs.quiet && a.undoing == Some(Mark(fs.faults, a.refusals)) && StaysAlone(p, fs.trail, fs.since) ==>
      (e.Plain? <==> !StrayedAtSource(p, fs.notes))
  }

  lemma ActiveNow(fs: FileSystem, p: Plan)
    requires fs.Valid() && fs.plan == Some(p) && At(fs.disk.names, p.source, p.rebuilt)
    ensures WasActive(p, fs.trail, fs.since)
  {
    assert At(fs.trail[|fs.trail| - 1].disk.names, p.source, p.rebuilt);
  }

  /** Undo a failed preservation. With no other writer, no failing call and no refusal
      meanwhile, the error comes back plain, with the original restored, exactly
      unless the main file strayed. */
  method GiveUpPreserving(fs: FileSystem, ghost p: Plan, a: SqliteAdapter, ghost base: Names, error: Failure, moved: seq<Entry>,
                          original: Inode, ghost stray: Option<Entry>)
    returns (e: Failure)
    requires Underway(fs, p) && moved == fs.notes.moved && a.path == p.source && original == p.original && error.Plain?
    requires Preserved(p, fs.disk.names, moved, 3) && PreservationEnds(p, fs.disk.names, moved, stray)
    requires fs.notes.strays == if stray.Some? then {stray.value} else {}
    requires fs.quiet ==> Performed(base, fs.disk.names, moved, stray) && At(base, p.source, p.original)
    requires a.undoing == None && At(fs.disk.names, p.Temporary(), p.rebuilt)
    modifies fs, a`handle, a`transaction, a`identity, a`refusals, a`undoing
    ensures fs.Continues() && fs.mine == old(fs.mine) && At(fs.disk.names, p.Temporary(), p.rebuilt)
    ensures Ended(fs, p, a, Err(e), fs.faults == old(fs.faults)) && a.refusals >= old(a.refusals)
    ensures e.Plain? ==> Undone(p, base, fs.notes, fs.quiet)
    ensures a.undoing == Some(Mark(old(fs.faults), old(a.refusals))) && EndsPlainly(fs, p, a, e)
    ensures fs.quiet && fs.faults == old(fs.faults) && a.refusals == old(a.refusals) ==>
              (e.Plain? <==> !StrayedAtSource(p, fs.notes)) && (stray != Some(p.Main()) ==> e == error)
    ensures a.transaction ==> old(a.transaction)
    ensures e.Plain? ==> fs.faults <= old(fs.faults) + 4 && a.refusals == old(a.refusals)
  {
    a.GiveUp(fs);
    PlanKept(fs, p);
    PreservedUnwinds(p, fs.disk.names, fs.notes);
    if fs.quiet {
      UndoneAfterPreservation(p, base, fs.disk.names, moved, stray);
      RestorableIff(p, base, fs.disk.names, moved, stray);
    }
    e := RollbackOriginal(fs, p, a, error, moved, original);
    ReplacementStays(p, old(fs.disk), fs.disk);
  }

  /** Undoing brings the original back exactly unless it is the main file that strayed. */
  lemma RestorableIff(p: Plan, base: Names, names: Names, moved: seq<Entry>, stray: Option<Entry>)
    requires p.Valid() && p.IsLog(moved) && Performed(base, names, moved, stray) && PreservationEnds(p, names, moved, stray)
    requires At(base, p.source, p.original)
    ensures CanRestore(p, names, moved) <==> stray != Some(p.Main())
    ensures stray.Some? ==> stray.value != p.Activation()
  {
    p.PathsDiffer();
    p.StagingApart();
    UndoneAfterPreservation(p, base, names, moved, stray);
    match stray
    case None =>
      assert AgreeAt(base, Undo(names, moved), p.source);
    case Some(x) =>
      if moved == [] {
        assert Option1(stray) == [x] && moved + Option1(stray) == [x] && [x][1..] == [];
        assert Perform(base, [x]) == Perform(MoveName(base, x.from, x.to), []);
      } else {
        UndoMissesStray(base, moved, x);
        assert p.IsSidecar(x) && x.from != p.source && x.to != p.source;
      }
  }

  /** Undo after the replacement could not be activated. If it strayed to the
      source, then with no other writer and no failing call the rollback is
      refused half-way: every sidecar is back beside the replacement, while the
      original stays archived. */
  method GiveUpActivating(fs: FileSystem, ghost p: Plan, a: SqliteAdapter, ghost base: Names, error: Failure, moved: seq<Entry>,
                          original: Inode, ghost stray: bool)
    returns (e: Failure)
    requires Underway(fs, p) && moved == fs.notes.moved && moved != [] && a.path == p.source && original == p.original && error.Plain?
    requires Unwinding(p, fs.disk.names, fs.notes, |moved|)
    requires fs.notes.strays == if stray then {p.Activation()} else {}
    requires stray ==> At(fs.disk.names, p.source, p.rebuilt) && (fs.quiet ==> NoSidecars(p, fs.disk.names))
    requires fs.quiet && !stray ==> Performed(base, fs.disk.names, moved, None) && At(base, p.source, p.original)
    requires a.undoing == None
    modifies fs, a`handle, a`transaction, a`identity, a`refusals, a`undoing
    ensures fs.Continues() && ElsewhereKept(p, old(fs.disk), fs.disk) && fs.mine == old(fs.mine)
    ensures Ended(fs, p, a, Err(e), fs.faults == old(fs.faults)) && a.refusals >= old(a.refusals)
    ensures e.Plain? ==> Undone(p, base, fs.notes, fs.quiet)
    ensures fs.quiet && stray ==> e.RollbackFailed?
    ensures fs.quiet && stray && fs.faults == old(fs.faults) ==> SplitByStray(p, fs.disk.names, moved)
    ensures a.undoing == Some(Mark(old(fs.faults), old(a.refusals))) && EndsPlainly(fs, p, a, e)
    ensures fs.quiet && fs.faults == old(fs.faults) && a.refusals == old(a.refusals) ==>
              (e.Plain? <==> !StrayedAtSource(p, fs.notes)) && (e.Plain? ==> e == error)
    ensures a.transaction ==> old(a.transaction)
    ensures e.Plain? ==> fs.faults <= old(fs.faults) + 4 && a.refusals == old(a.refusals)
  {
    a.GiveUp(fs);
    PlanKept(fs, p);
    if stray {
      StrayActivationBlocksUndo(p, fs.disk.names, moved);
      if fs.quiet { StrayActivationSplits(p, fs.disk.names, fs.notes); }
    } else if fs.quiet {
      UndoneAfterPreservation(p, base, fs.disk.names, moved, None);
      RestorableIff(p, base, fs.disk.names, moved, None);
    }
    e := RollbackOriginal(fs, p, a, error, moved, original);
  }

  /** The replacement is at the source with the original's sidecars beside it,
      while the original itself is archived. */
  ghost predicate SplitByStray(p: Plan, names: Names, moved: seq<Entry>) {
    At(names, p.source, p.rebuilt) && At(names, p.archive, p.original) && p.SidecarsHome(names, moved)
  }

  lemma LogIsApart(p: Plan, moved: seq<Entry>)
    requires p.Valid() && p.IsLog(moved)
    ensures AllApart(moved)
  {
    p.PathsDiffer();
    forall j | 0 <= j < |moved| ensures moved[j].from != moved[j].to {
      assert j > 0 ==> p.IsSidecar(moved[j]);
    }
    forall i, j | 0 <= i < j < |moved|
      ensures moved[i].from != moved[j].from && moved[i].from != moved[j].to
      ensures moved[i].to != moved[j].from && moved[i].to != moved[j].to
    {
      LogNamesDiffer(p, moved, i, j);
    }
  }

  /** Where undoing gets stuck after a stray activation. */
  lemma StrayActivationSplits(p: Plan, names: Names, n: Notes)
    requires p.Valid() && n.moved != [] && Unwinding(p, names, n, |n.moved|)
    requires At(names, p.source, p.rebuilt) && NoSidecars(p, names)
    ensures SplitByStray(p, UndoFar(names, n.moved), n.moved)
  {
    var moved := n.moved;
    LogIsApart(p, moved);
    p.PathsDiffer();
    forall j | 1 <= j < |moved|
      ensures At(names, moved[j].to, moved[j].ino) && moved[j].from !in names
      ensures moved[j].to != p.source && moved[j].to != p.archive
    {
      assert p.IsSidecar(moved[j]);
    }
    assert moved[0] == p.Main();
    UndoFarSplits(names, moved);
  }

  /** Apart from sidecars of the source, the two directories are the same. */
  ghost predicate SameButSidecars(p: Plan, d: Names, e: Names) {
    && (forall q | q in d && !IsSidecarOf(q, p.source) :: At(e, q, d[q]))
    && (forall q | q in e && !IsSidecarOf(q, p.source) :: q in d)
  }

  ghost predicate NoSidecars(p: Plan, names: Names) {
    forall s | 0 <= s < 3 :: p.Beside(s) !in names
  }

  lemma SameWithoutSidecars(p: Plan, d: Names, e: Names)
    requires SameButSidecars(p, d, e) && NoSidecars(p, d) && NoSidecars(p, e)
    ensures d == e
  {
    forall q ensures (q in d <==> q in e) && (q in d ==> d[q] == e[q]) {
      assert IsSidecarOf(q, p.source) ==> q == p.Beside(0) || q == p.Beside(1) || q == p.Beside(2);
    }
  }

  /** Close whatever handle there is, and quarantine the replacement; `before` is
      the directory as the quarantine found it. */
  method Withdraw(fs: FileSystem, ghost p: Plan, stage: Stage, a: SqliteAdapter, source: Path)
    returns (r: Result<(), Failure>, ghost before: Names)
    requires Active(fs, p) && source == p.source && a.path == source && Staged(p, stage) && !stage.quarantined
    requires p.rebuilt in fs.mine
    modifies fs, a`handle, a`transaction, a`refusals, stage`retain, stage`quarantined
    ensures fs.Continues() && Underway(fs, p) && fs.mine == old(fs.mine) && a.refusals >= old(a.refusals)
    ensures stage.retain && fs.notes.moved == old(fs.notes.moved) && p.Activation() !in fs.notes.strays
    ensures r.Err? ==> r.error.Plain?
    ensures r.Ok? ==> stage.quarantined
    ensures stage.quarantined ==>
              && fs.notes.strays == old(fs.notes.strays)
              && At(fs.disk.names, p.Failed(), p.rebuilt)
              && Unwinding(p, fs.disk.names, fs.notes, |fs.notes.moved|)
    ensures source in before
    ensures fs.quiet && stage.quarantined ==>
              && fs.disk.names == MoveName(before, source, p.Failed())
              && SameButSidecars(p, old(fs.disk.names), before) && NoSidecars(p, before)
    ensures fs.quiet && fs.faults == old(fs.faults) && StaysAlone(p, fs.trail, fs.since) ==> r.Ok?
    ensures a.transaction ==> old(a.transaction)
    ensures r.Ok? ==> fs.faults == old(fs.faults)
    ensures r.Ok? ==> fs.checks >= old(fs.checks) + 8
  {
    ActiveLasts(fs, p);
    var closed := a.Close(fs);
    ActiveLasts(fs, p);
    before := fs.disk.names;
    ghost var trail := fs.trail;
    r := Quarantine(fs, p, stage, source);
    AloneBefore(p, trail, fs.trail, fs.since);
    assert NoSidecars(p, before) ==> SidecarsFree(before, source, 3) by {
      assert forall s | 0 <= s < 3 :: p.Beside(s) == Sidecar(source, SIDECARS[s]);
    }
  }

  /** Where the activated replacement stands, seen from the close of the old handle. */
  ghost predicate ActivatedFrom(p: Plan, base: Names, names: Names, active: Names, moved: seq<Entry>) {
    && Performed(base, names, moved, None) && p.source !in names && p.Temporary() in names
    && At(base, p.Temporary(), p.rebuilt) && p.Failed() !in base && At(base, p.source, p.original)
    && NoSidecars(p, MoveName(names, p.Temporary(), p.source))
    && SameButSidecars(p, MoveName(names, p.Temporary(), p.source), active)
  }

  lemma UndoneAfterWithdrawal(p: Plan, base: Names, names: Names, active: Names, before: Names, moved: seq<Entry>)
    requires p.Valid() && p.IsLog(moved) && ActivatedFrom(p, base, names, active, moved)
    requires SameButSidecars(p, active, before) && NoSidecars(p, before) && p.source in before
    ensures var after := MoveName(before, p.source, p.Failed());
      Undoes(after, moved) && SameDirectory(p, base, Undo(after, moved)) && CanRestore(p, after, moved)
  {
    SameWithoutSidecars(p, MoveName(names, p.Temporary(), p.source), before);
    UndoneAfterQuarantine(p, base, names, moved);
    assert AgreeAt(base, Undo(MoveName(before, p.source, p.Failed()), moved), p.source);
  }

  /** Undo after the activated replacement could not be finished. With no other writer,
      no failing call and no refusal meanwhile, and nothing left beside the
      replacement, the error comes back plain, with the original restored. */
  method GiveUpFinishing(fs: FileSystem, ghost p: Plan, stage: Stage, a: SqliteAdapter, ghost base: Names, ghost names: Names,
                         error: Failure, moved: seq<Entry>, source: Path, original: Inode)
    returns (e: Failure)
    requires Active(fs, p) && source == p.source && a.path == source && Staged(p, stage) && !stage.quarantined
    requires p.rebuilt in fs.mine && moved == fs.notes.moved && original == p.original && fs.notes.strays == {} && error.Plain?
    requires fs.quiet ==> ActivatedFrom(p, base, names, fs.disk.names, moved)
    requires a.undoing == None
    modifies fs, a`handle, a`transaction, a`identity, a`refusals, a`undoing, stage`retain, stage`quarantined
    ensures fs.Continues() && fs.mine == old(fs.mine)
    ensures Ended(fs, p, a, Err(e), fs.faults == old(fs.faults)) && a.refusals >= old(a.refusals)
    ensures stage.retain && p.Activation() !in fs.notes.strays
    ensures e.Plain? ==> stage.quarantined && Undone(p, base, fs.notes, fs.quiet)
    ensures a.undoing == Some(Mark(old(fs.faults), old(a.refusals))) && EndsPlainly(fs, p, a, e)
    ensures fs.quiet && fs.faults == old(fs.faults) && a.refusals == old(a.refusals) && StaysAlone(p, fs.trail, fs.since) ==>
              e == error && fs.notes.strays == {}
    ensures a.transaction ==> old(a.transaction)
    ensures e.Plain? ==> fs.faults <= old(fs.faults) + 4
  {
    a.GiveUp(fs);
    ghost var active, before := fs.disk.names, map[];
    var withdrawn;
    withdrawn, before := Withdraw(fs, p, stage, a, source);
    ghost var trail := fs.trail;
    e := if withdrawn.Ok? then error else RollbackFailed(error, withdrawn.error);
    if stage.quarantined {
      e := UndoWithdrawn(fs, p, a, base, names, active, before, e, moved, original);
    }
    AloneBefore(p, trail, fs.trail, fs.since);
  }

  method UndoWithdrawn(fs: FileSystem, ghost p: Plan, a: SqliteAdapter, ghost base: Names, ghost names: Names,
                       ghost active: Names, ghost before: Names, error: Failure, moved: seq<Entry>, original: Inode)
    returns (e: Failure)
    requires Underway(fs, p) && moved == fs.notes.moved && a.path == p.source && original == p.original
    requires Unwinding(p, fs.disk.names, fs.notes, |moved|) && fs.notes.strays == {}
    requires p.source in before
    requires fs.quiet ==>
               && fs.disk.names == MoveName(before, p.source, p.Failed())
               && SameButSidecars(p, active, before) && NoSidecars(p, before)
               && ActivatedFrom(p, base, names, active, moved)
    modifies fs, a`handle, a`transaction, a`identity, a`refusals, a`undoing
    ensures fs.Continues() && fs.mine == old(fs.mine)
    ensures Ended(fs, p, a, Err(e), fs.faults == old(fs.faults)) && a.refusals >= old(a.refusals)
    ensures p.Activation() !in fs.notes.strays
    ensures e.Plain? ==> error.Plain? && Undone(p, base, fs.notes, fs.quiet)
    ensures a.undoing == old(a.undoing)
    ensures fs.quiet && fs.faults == old(fs.faults) && a.refusals == old(a.refusals) ==> e == error && fs.notes.strays == {}
    ensures a.transaction ==> old(a.transaction)
    ensures e.Plain? ==> fs.faults <= old(fs.faults) + 4 && a.refusals == old(a.refusals)
  {
    PlanKept(fs, p);
    if fs.quiet { UndoneAfterWithdrawal(p, base, names, active, before, moved); }
    e := RollbackOriginal(fs, p, a, error, moved, original);
  }

  /** The replacement takes the source's place, or everything is undone. */
  method TransferReplacement(fs: FileSystem, ghost p: Plan, stage: Stage, a: SqliteAdapter, ghost base: Names,
                             source: Path, original: Inode, moved: seq<Entry>)
    returns (r: Result<(), Failure>)
    requires Underway(fs, p) && source == p.source && a.path == source && original == p.original
    requires Staged(p, stage) && !stage.retain && !stage.quarantined && p.rebuilt in fs.mine
    requires moved == fs.notes.moved && moved != [] && fs.notes.strays == {}
    requires Ready(p, fs.disk) && Preserved(p, fs.disk.names, moved, 3) && Durable(p, fs.disk, fs.notes, moved)
    requires fs.quiet ==>
               && Performed(base, fs.disk.names, moved, None) && At(base, p.Temporary(), p.rebuilt) && p.Failed() !in base
               && At(base, p.source, p.original)
    requires a.undoing == None
    modifies fs, a`handle, a`transaction, a`identity, a`refusals, a`undoing, stage`retain, stage`quarantined
    ensures fs.Continues() && fs.mine == old(fs.mine)
    ensures Ended(fs, p, a, r, fs.faults == old(fs.faults)) && Leaves(p, fs, stage, r.Err?)
    ensures r.Ok? ==> fs.notes.overlooked == old(fs.notes.overlooked) && fs.notes.moved == moved
    ensures r.Err? && r.error.Plain? ==> Undone(p, base, fs.notes, fs.quiet)
    ensures fs.quiet && fs.faults == old(fs.faults) ==> (r.Ok? <==> Vacated(p, old(fs.disk.names)) && a.refusals == old(a.refusals))
    ensures if r.Ok? then a.undoing == None else GaveUp(a, old(fs.faults), old(a.refusals), fs.faults) && EndsPlainly(fs, p, a, r.error)
    ensures fs.quiet && Vacated(p, old(fs.disk.names)) && r.Err? ==> a.undoing != Some(Mark(old(fs.faults), old(a.refusals)))
    ensures a.refusals >= old(a.refusals)
    ensures a.transaction ==> old(a.transaction)
    ensures r.Ok? ==> fs.faults <= old(fs.faults) + 1
    ensures r.Ok? ==> fs.checks >= old(fs.checks) + 7
    ensures r.Ok? ==> a.refusals == old(a.refusals)
  {
    PlanKept(fs, p);
    ghost var stray;
    r, stray := Activate(fs, p, source, stage.Rebuilt(), stage.file, moved);
    if r.Err? {
      ghost var d := fs.disk;
      var e := GiveUpActivating(fs, p, a, base, r.error, moved, original, stray);
      if !stray { ReplacementStays(p, d, fs.disk); }
      return Err(e);
    }
    r := Finish(fs, p, stage, a, base, old(fs.disk.names), source, original, moved);
  }

  lemma ReplacementStays(p: Plan, d: Disk, e: Disk)
    requires p.Valid() && At(d.names, p.Temporary(), p.rebuilt) && ElsewhereKept(p, d, e)
    ensures At(e.names, p.Temporary(), p.rebuilt)
  {
    p.StagingApart();
  }

  /** The steps after the replacement's rename was confirmed. */
  method Finish(fs: FileSystem, ghost p: Plan, stage: Stage, a: SqliteAdapter, ghost base: Names, ghost names: Names,
                source: Path, original: Inode, moved: seq<Entry>)
    returns (r: Result<(), Failure>)
    requires Active(fs, p) && source == p.source && a.path == source && original == p.original
    requires Staged(p, stage) && !stage.retain && !stage.quarantined && p.rebuilt in fs.mine
    requires moved == fs.notes.moved && moved != [] && fs.notes.strays == {}
    requires Durable(p, fs.disk, fs.notes, moved)
    requires fs.quiet ==> ActivatedFrom(p, base, names, fs.disk.names, moved)
    requires a.undoing == None
    modifies fs, a`handle, a`transaction, a`identity, a`refusals, a`undoing, stage`retain, stage`quarantined
    ensures fs.Continues() && fs.mine == old(fs.mine)
    ensures Ended(fs, p, a, r, fs.faults == old(fs.faults)) && Leaves(p, fs, stage, r.Err?)
    ensures r.Ok? ==> fs.notes.overlooked == old(fs.notes.overlooked) && fs.notes.moved == moved
    ensures r.Err? && r.error.Plain? ==> Undone(p, base, fs.notes, fs.quiet)
    ensures fs.faults == old(fs.faults) ==> (r.Ok? <==> a.refusals == old(a.refusals))
    ensures if r.Ok? then a.undoing == None else GaveUp(a, old(fs.faults), old(a.refusals), fs.faults) && EndsPlainly(fs, p, a, r.error)
    ensures r.Err? ==> a.undoing != Some(Mark(old(fs.faults), old(a.refusals)))
    ensures a.refusals >= old(a.refusals)
    ensures a.transaction ==> old(a.transaction)
    ensures r.Ok? ==> fs.faults <= old(fs.faults) + 1
    ensures r.Ok? ==> fs.checks >= old(fs.checks) + 5
    ensures r.Ok? ==> a.refusals == old(a.refusals)
  {
    ActiveNow(fs, p);
    r := FinishActivation(fs, p, stage, a);
    if r.Err? {
      var e := GiveUpFinishing(fs, p, stage, a, base, names, r.error, moved, source, original);
      return Err(e);
    }
  }

  /** Everything between the close of the old handle and the return. With no other
      writer and no failing call it succeeds exactly when nothing is in
      preservation's way and SQLite refuses nothing. */
  method TransferAll(fs: FileSystem, ghost p: Plan, stage: Stage, a: SqliteAdapter, source: Path, archive: Path, original: Inode)
    returns (r: Result<(), Failure>)
    requires Underway(fs, p) && p.Main() == Entry(source, archive, original) && a.path == source
    requires Staged(p, stage) && !stage.retain && !stage.quarantined && p.rebuilt in fs.mine
    requires fs.notes.moved == [] && fs.notes.strays == {} && fs.notes.overlooked == {}
    requires At(fs.disk.names, source, original) && Ready(p, fs.disk)
    requires a.undoing == None
    modifies fs, a`handle, a`transaction, a`identity, a`refusals, a`undoing, stage`retain, stage`quarantined
    ensures fs.Continues() && fs.mine == old(fs.mine)
    ensures Ended(fs, p, a, r, fs.faults == old(fs.faults)) && Leaves(p, fs, stage, r.Err?)
    ensures r.Ok? && fs.faults == old(fs.faults) ==> AllSeen(fs.notes, fs.notes.moved)
    ensures r.Ok? ==> AllLogged(p, old(fs.disk.names), fs.notes.moved)
    ensures r.Err? && r.error.Plain? ==> Undone(p, old(fs.disk.names), fs.notes, fs.quiet)
    ensures fs.quiet && fs.faults == old(fs.faults) ==> (r.Ok? <==> CanPreserve(p, old(fs.disk)) && a.refusals == old(a.refusals))
    ensures if r.Ok? then a.undoing == None else GaveUp(a, old(fs.faults), old(a.refusals), fs.faults) && EndsPlainly(fs, p, a, r.error)
    ensures fs.quiet && CanPreserve(p, old(fs.disk)) && r.Err? ==> a.undoing != Some(Mark(old(fs.faults), old(a.refusals)))
    ensures fs.quiet && fs.faults == old(fs.faults) && a.refusals == old(a.refusals) && r.Err? ==> r.error.Plain?
    ensures a.refusals >= old(a.refusals)
    ensures a.transaction ==> old(a.transaction)
    ensures r.Ok? ==> fs.faults <= old(fs.faults) + 4
    ensures r.Ok? ==> fs.checks >= old(fs.checks) + 12
    ensures r.Ok? ==> a.refusals == old(a.refusals)
  {
    PlanKept(fs, p);
    if fs.quiet { FailedIsFree(fs, p); }
    var moved;
    ghost var stray;
    r, moved, stray := Preserve(fs, p, stage, source, archive, original);
    ReadyLasts(p, old(fs.disk), fs.disk);
    if r.Err? {
      var e := GiveUpPreserving(fs, p, a, old(fs.disk.names), r.error, moved, original, stray);
      return Err(e);
    }
    r := TransferReplacement(fs, p, stage, a, old(fs.disk.names), source, original, moved);
  }
}
