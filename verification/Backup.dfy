/** The online backup: its step loop, and the publication of the finished copy. */
module Backup {
  import opened Wrappers
  import opened Databases
  import opened Paths
  import opened Disks
  import opened Publication
  import opened FileSystems
  import opened Moves
  import opened Adapters

  // The step loop

  type Page = seq<Byte>

  datatype Code = Done | More | Busy | Locked | Failed

  const PAGES_A_STEP: nat := 64

  /** One SQLite backup object, over a source no one else is writing. */
  class Session {
    const source: seq<Page>
    var copied: seq<Page>
    var complete: bool
    var clean: bool
    var finishes: nat
    /** What the steps have answered. */
    ghost var answers: seq<Code>

    ghost predicate Valid()
      reads this
    {
      copied <= source && (complete ==> copied == source) && (complete <==> answers != [] && answers[|answers| - 1].Done?)
    }

    constructor (source: seq<Page>)
      ensures Valid() && this.source == source && finishes == 0 && answers == []
    {
      this.source, copied, complete, clean, finishes, answers := source, [], false, false, 0, [];
    }

    /** `sqlite3_backup_step`. A source that is locked is no refusal. */
    method Step(pages: nat, ghost a: SqliteAdapter) returns (code: Code)
      requires Valid() && finishes == 0 && pages > 0
      modifies this`copied, this`complete, this`answers, a`refusals
      ensures a.refusals >= old(a.refusals)
      ensures code.Failed? <==> a.refusals != old(a.refusals)
      ensures Valid() && (code.Done? <==> complete) && answers == old(answers) + [code]
      ensures code.More? ==> |old(copied)| < |copied|
      ensures code.Busy? || code.Locked? || code.Failed? ==> copied == old(copied)
    {
      var trouble: Code := *;
      complete := false;
      a.Refusing(trouble.Failed?);
      if trouble.Busy? || trouble.Locked? || trouble.Failed? {
        answers := answers + [trouble];
        return trouble;
      }
      if |copied| + pages >= |source| {
        copied, complete, answers := source, true, answers + [Done];
        return Done;
      }
      copied, answers := source[..|copied| + pages], answers + [More];
      return More;
    }

    /** `sqlite3_backup_finish`. */
    method Finish(ghost a: SqliteAdapter) returns (ok: bool)
      modifies this`finishes, this`clean, a`refusals
      ensures finishes == old(finishes) + 1 && clean == ok
      ensures ok <==> a.refusals == old(a.refusals)
      ensures a.refusals >= old(a.refusals)
    {
      ok := *;
      a.Refusing(!ok);
      finishes, clean := finishes + 1, ok;
    }
  }

  /** A clock that does not run backwards, in milliseconds. */
  class Clock {
    var time: nat
    /** When each sleep began. */
    ghost var naps: seq<nat>

    constructor () {
      time, naps := 0, [];
    }

    method Now() returns (t: nat)
      modifies this`time
      ensures time >= old(time) && t == time
    {
      var passed: int := *;
      if passed > 0 { time := time + passed; }
      t := time;
    }

    method Sleep()
      modifies this
      ensures time > old(time) && naps == old(naps) + [old(time)]
    {
      var passed: int := *;
      naps := naps + [time];
      time := time + if passed > 1 then passed else 1;
    }
  }

  predicate IsLock(code: Code) {
    code.Busy? || code.Locked?
  }

  /** How many answers were that the source is locked. */
  ghost function Locks(answers: seq<Code>): nat {
    if answers == [] then 0 else Locks(answers[..|answers| - 1]) + if IsLock(answers[|answers| - 1]) then 1 else 0
  }

  /** Every answer but the last was to go on: pages were copied, or the source was locked. */
  ghost predicate WentOn(answers: seq<Code>) {
    forall k | 0 <= k < |answers| :: answers[k].More? || IsLock(answers[k])
  }

  /** What a session ends in, by its last answer. */
  ghost predicate EndsAs(session: Session, r: Result<(), Failure>)
    reads session
  {
    && session.answers != [] && WentOn(session.answers[..|session.answers| - 1])
    && match session.answers[|session.answers| - 1]
       case Done => r == if session.clean then Ok(()) else Err(Plain("sqlite_error"))
       case Failed => r == Err(Plain("sqlite_error"))
       case More => false
       case _ => r == Err(Plain("backup_timeout"))
  }

  /** The sleeps since: one after each lock that was not the last answer, each begun
      before the deadline. */
  ghost predicate Waited(before: seq<nat>, naps: seq<nat>, locks: nat, deadline: nat) {
    before <= naps && |naps| == |before| + locks && forall k | |before| <= k < |naps| :: naps[k] < deadline
  }

  /** The error is the lock timeout, and so much time has passed. */
  ghost predicate TimedOut(r: Result<(), Failure>, from: nat, to: nat, timeout: nat) {
    r == Err(Plain("backup_timeout")) && to >= from + timeout
  }

  /** `perform_backup`. The loop ends; a session that was begun is finished exactly
      once; the result is what its last answer and its finish make it. A lock ends
      the loop only at the deadline; before it, the loop sleeps and tries again. */
  method PerformBackup(source: seq<Page>, ghost a: SqliteAdapter, clock: Clock, timeout: nat)
    returns (r: Result<(), Failure>, session: Session?, ghost deadline: nat)
    modifies clock, a`refusals
    ensures session != null ==> fresh(session) && session.Valid() && session.source == source && session.finishes == 1
    ensures if session == null then r == Err(Plain("sqlite_error")) else EndsAs(session, r)
    ensures r.Ok? <==> session != null && session.complete && session.clean
    ensures session != null ==> Waited(old(clock.naps), clock.naps, Locks(session.answers[..|session.answers| - 1]), deadline)
    ensures session != null ==> old(clock.time) + timeout <= deadline <= clock.time + timeout
    ensures r == Err(Plain("backup_timeout")) ==> clock.time >= deadline && TimedOut(r, old(clock.time), clock.time, timeout)
    ensures a.refusals >= old(a.refusals)
    ensures a.refusals == old(a.refusals) ==> r.Ok? || TimedOut(r, old(clock.time), clock.time, timeout)
    ensures r.Ok? ==> a.refusals == old(a.refusals)
  {
    deadline := 0;
    var uninitialised: bool := *;
    a.Refusing(uninitialised);
    if uninitialised { return Err(Plain("sqlite_error")), null, deadline; }
    session := new Session(source);
    var now := clock.Now();
    deadline := now + timeout;
    r := StepThrough(session, a, clock, now + timeout);
    var finished := session.Finish(a);
    if r.Ok? && !finished {
      r := Err(Plain("sqlite_error"));
    }
  }

  /** The loop itself. */
  method StepThrough(session: Session, ghost a: SqliteAdapter, clock: Clock, deadline: nat) returns (r: Result<(), Failure>)
    requires session.Valid() && session.finishes == 0 && session.answers == []
    modifies session`copied, session`complete, session`answers, clock, a`refusals
    ensures session.Valid() && clock.time >= old(clock.time) && a.refusals >= old(a.refusals)
    ensures Stepped(session.answers, r, clock.time >= deadline)
    ensures Waited(old(clock.naps), clock.naps, Locks(session.answers[..|session.answers| - 1]), deadline)
    ensures session.answers[|session.answers| - 1].Failed? <==> a.refusals != old(a.refusals)
  {
    r := Ok(());
    var stepping := true;
    while stepping
      invariant session.Valid() && clock.time >= old(clock.time) && a.refusals >= old(a.refusals)
      invariant stepping ==>
                  && r == Ok(()) && a.refusals == old(a.refusals)
                  && GoingOn(session.answers, old(clock.naps), clock.naps, deadline)
      invariant !stepping ==>
                  && Ended(session.answers, r, clock.time >= deadline, old(clock.naps), clock.naps, deadline)
                  && (session.answers[|session.answers| - 1].Failed? <==> a.refusals != old(a.refusals))
      decreases stepping, |session.source| - |session.copied|, if deadline > clock.time then deadline - clock.time else 0
    {
      ghost var before, naps := session.answers, clock.naps;
      var code := session.Step(PAGES_A_STEP, a);
      OneMoreAnswer(before, code, old(clock.naps), naps, deadline);
      match code
      case Done => stepping := false;
      case More =>
      case Failed =>
        r, stepping := Err(Plain("sqlite_error")), false;
      case _ =>
        var t := clock.Now();
        if t < deadline {
          clock.Sleep();
        } else {
          r, stepping := Err(Plain("backup_timeout")), false;
        }
    }
  }

  /** Every answer so far was to go on, and each lock has been slept through. */
  ghost predicate GoingOn(answers: seq<Code>, before: seq<nat>, naps: seq<nat>, deadline: nat) {
    WentOn(answers) && Waited(before, naps, Locks(answers), deadline)
  }

  /** The last answer has ended the loop, and each lock before it was slept through. */
  ghost predicate Ended(answers: seq<Code>, r: Result<(), Failure>, late: bool, before: seq<nat>, naps: seq<nat>, deadline: nat) {
    Stepped(answers, r, late) && Waited(before, naps, Locks(answers[..|answers| - 1]), deadline)
  }

  lemma OneMoreAnswer(answers: seq<Code>, code: Code, before: seq<nat>, naps: seq<nat>, deadline: nat)
    requires GoingOn(answers, before, naps, deadline)
    ensures var more := answers + [code];
      && (code.More? ==> GoingOn(more, before, naps, deadline))
      && (code.Done? ==> forall late :: Ended(more, Ok(()), late, before, naps, deadline))
      && (code.Failed? ==> forall late :: Ended(more, Err(Plain("sqlite_error")), late, before, naps, deadline))
      && (IsLock(code) ==>
            && Ended(more, Err(Plain("backup_timeout")), true, before, naps, deadline)
            && forall t | 0 <= t < deadline :: GoingOn(more, before, naps + [t], deadline))
  {
    assert (answers + [code])[..|answers + [code]| - 1] == answers;
  }

  /** How the loop ended, before the finish. */
  ghost predicate Stepped(answers: seq<Code>, r: Result<(), Failure>, late: bool) {
    && answers != [] && WentOn(answers[..|answers| - 1])
    && match answers[|answers| - 1]
       case Done => r == Ok(())
       case Failed => r == Err(Plain("sqlite_error"))
       case More => false
       case _ => r == Err(Plain("backup_timeout")) && late
  }

  // Publication

  const TEMPORARY_MODE: Mode := 0x1A4 // 0o644, the common result of the process's mask
  const ATTEMPTS: nat := 32

  function TemporaryName(destination: Path, pid: nat, nonce: nat): Path {
    Path(destination.dir, "." + destination.name + ".dactyl-backup-" + Decimal(pid) + "-" + Decimal(nonce))
  }

  function Candidate(destination: Path, pid: nat, now: nat, n: nat): Path {
    TemporaryName(destination, pid, Nonce(now, n))
  }

  /** The candidates differ, until the nonce reaches the top of its range. */
  lemma CandidatesDiffer(destination: Path, pid: nat, now: nat, m: nat, n: nat)
    requires m < n && now + n <= NONCE_MAX
    ensures Candidate(destination, pid, now, m) != Candidate(destination, pid, now, n)
  {
    DecimalsDiffer(now + m, now + n);
    PrefixInjective("." + destination.name + ".dactyl-backup-" + Decimal(pid) + "-", Decimal(now + m), Decimal(now + n));
  }

  /** A name the temporary file may be given. */
  ghost predicate IsTemporary(destination: Path, pid: nat, now: nat, q: Path) {
    exists n | 0 <= n < ATTEMPTS :: q == Candidate(destination, pid, now, n)
  }

  ghost predicate AllTaken(destination: Path, pid: nat, now: nat, names: Names, n: nat) {
    forall m | 0 <= m < n :: Candidate(destination, pid, now, m) in names
  }

  /** The first candidate that is free. */
  ghost predicate IsFirstFree(destination: Path, pid: nat, now: nat, names: Names, q: Path) {
    exists n | 0 <= n < ATTEMPTS :: q == Candidate(destination, pid, now, n) && q !in names && AllTaken(destination, pid, now, names, n)
  }

  /** A temporary name is longer than the destination's and ends in a digit. */
  lemma TemporaryIsApart(destination: Path, source: Path, pid: nat, nonce: nat)
    ensures var t := TemporaryName(destination, pid, nonce);
      && t != destination && !IsSidecarOf(destination, t) && !IsSidecarOf(t, source) && !IsSidecarOf(t, t)
  {
    var t := TemporaryName(destination, pid, nonce);
    forall s | 0 <= s < 3 ensures t.name != source.name + SIDECARS[s] {
      EndsDiffer("." + destination.name + ".dactyl-backup-" + Decimal(pid) + "-", Decimal(nonce), source.name, SIDECARS[s]);
    }
    assert |t.name| > |destination.name|;
    forall s | 0 <= s < 3 ensures |t.name + SIDECARS[s]| > |t.name| {}
  }

  /** The source is no temporary name's sidecar. */
  ghost predicate NoTemporaryHas(source: Path, destination: Path, pid: nat) {
    forall nonce :: !IsSidecarOf(source, TemporaryName(destination, pid, nonce))
  }

  /** A backup is under way in a quiet directory, with the source there. */
  ghost predicate Starting(fs: FileSystem, c: Copy, source: Path)
    reads fs
  {
    && fs.Valid() && fs.quiet && fs.plan == None && fs.copy == Some(c) && fs.notes.cleaning == None
    && source in fs.disk.names && c.destination != source && !IsSidecarOf(c.destination, source)
    && c.before == LinkAt(fs.disk.names, c.destination)
  }

  /** The destination is free, or was overlooked. */
  ghost predicate MayPublish(fs: FileSystem, c: Copy)
    reads fs
  {
    c.destination in fs.disk.names ==> c.destination in fs.notes.overlooked
  }

  /** The temporary file `i` is at its name or at the destination, and the names
      do not get in each other's way. */
  ghost predicate Copying(fs: FileSystem, c: Copy, source: Path, temporary: Path, i: Inode)
    reads fs
  {
    && fs.Valid() && fs.quiet && fs.plan == None && fs.copy == Some(c) && fs.notes.cleaning == None
    && i in fs.mine && fs.disk.nodes[i].kind == Regular && c.before != Some(i)
    && (forall q | At(fs.disk.names, q, i) :: q == temporary || q == c.destination)
    && (temporary in fs.disk.names ==> fs.disk.names[temporary] == i)
    && (c.destination in fs.disk.names ==> fs.disk.names[c.destination] == i || c.before == Some(fs.disk.names[c.destination]))
    && source in fs.disk.names && fs.disk.names[source] != i
    && temporary != c.destination && temporary != source && c.destination != source
    && !IsSidecarOf(c.destination, temporary) && !IsSidecarOf(temporary, source) && !IsSidecarOf(temporary, temporary)
    && !IsSidecarOf(c.destination, source) && !IsSidecarOf(source, temporary) && !IsSidecarOf(source, source)
  }

  /** What SQLite and the copy may change of the names: the destination, the
      temporary name, and sidecars of the source and of the temporary file. */
  ghost predicate Spared(c: Copy, source: Path, temporary: Path, q: Path) {
    !IsSidecarOf(q, source) && !IsSidecarOf(q, temporary) && q != temporary && q != c.destination
  }

  /** Every other name is as it was, and no old file has got a new name but the
      destination or the temporary one. */
  ghost predicate Others(c: Copy, d: Disk, e: Disk, source: Path, temporary: Path) {
    && (forall q | Spared(c, source, temporary, q) :: LinkAt(e.names, q) == LinkAt(d.names, q))
    && (forall q | q in e.names && e.names[q] in d.nodes && q != temporary && q != c.destination :: At(d.names, q, e.names[q]))
    && (forall i | i in d.nodes :: i in e.nodes && e.nodes[i].kind == d.nodes[i].kind)
  }

  /** No directory is in the way at the destination. */
  ghost predicate Replaceable(c: Copy, d: Disk) {
    c.destination in d.names && d.names[c.destination] in d.nodes ==> d.nodes[d.names[c.destination]].kind != Directory
  }

  /** The copy is still under its temporary name. */
  ghost predicate Unpublished(fs: FileSystem, c: Copy, temporary: Path, i: Inode)
    reads fs
  {
    At(fs.disk.names, temporary, i) && c.before == LinkAt(fs.disk.names, c.destination)
  }

  /** SQLite works on the source or on the temporary file. */
  method Touch(fs: FileSystem, ghost c: Copy, source: Path, temporary: Path, ghost i: Inode, on: Path, image: Option<Content>)
    requires Copying(fs, c, source, temporary, i) && (on == source || (on == temporary && Unpublished(fs, c, temporary, i)))
    modifies fs
    ensures fs.Continues() && Copying(fs, c, source, temporary, i) && fs.mine == old(fs.mine)
    ensures Others(c, old(fs.disk), fs.disk, source, temporary)
    ensures LinkAt(fs.disk.names, temporary) == old(LinkAt(fs.disk.names, temporary))
    ensures LinkAt(fs.disk.names, c.destination) == old(LinkAt(fs.disk.names, c.destination))
    ensures on == temporary && image.Some? ==> fs.disk.nodes[i].data == image.value
    ensures fs.faults == old(fs.faults) && fs.notes.overlooked == old(fs.notes.overlooked)
    ensures c.destination in old(fs.disk.names) && c.destination in fs.disk.dirtyNames ==> c.destination in old(fs.disk.dirtyNames)
  {
    assert fs.Permits(Library(on, false));
    WorkOn(fs, on, false, image);
  }

  lemma OthersTransitive(c: Copy, d: Disk, e: Disk, f: Disk, source: Path, temporary: Path)
    requires Others(c, d, e, source, temporary) && Others(c, e, f, source, temporary)
    ensures Others(c, d, f, source, temporary)
  {
  }

  /** One of the thirty-two names is free. */
  ghost predicate RoomForTemporary(destination: Path, pid: nat, now: nat, names: Names) {
    exists n | 0 <= n < ATTEMPTS :: Candidate(destination, pid, now, n) !in names
  }

  /** `temporary_path`: exclusive creation under the first free of thirty-two names. */
  method MakeTemporary(fs: FileSystem, ghost c: Copy, source: Path, destination: Path, pid: nat, now: nat)
    returns (r: Result<(Path, Inode), Failure>)
    requires Starting(fs, c, source) && destination == c.destination
    requires NoTemporaryHas(source, destination, pid)
    modifies fs
    ensures fs.Continues() && fs.notes.overlooked == old(fs.notes.overlooked)
    ensures r.Err? ==> r.error.Plain? && Starting(fs, c, source) && fs.disk.names == old(fs.disk.names)
    ensures r.Ok? ==>
              && Copying(fs, c, source, r.value.0, r.value.1) && Unpublished(fs, c, r.value.0, r.value.1)
              && IsFirstFree(destination, pid, now, old(fs.disk.names), r.value.0)
              && Added(c, old(fs.disk), fs.disk, r.value.0, r.value.1)
    ensures fs.faults == old(fs.faults) ==> (r.Ok? <==> RoomForTemporary(destination, pid, now, old(fs.disk.names)))
    ensures r.Ok? ==> fs.faults == old(fs.faults)
  {
    for attempt := 0 to ATTEMPTS
      invariant fs.Continues() && Starting(fs, c, source) && fs.disk == old(fs.disk)
      invariant fs.notes.overlooked == old(fs.notes.overlooked)
      invariant AllTaken(destination, pid, now, fs.disk.names, attempt)
      invariant fs.faults == old(fs.faults)
    {
      var candidate := Candidate(destination, pid, now, attempt);
      var made := TryTemporary(fs, c, source, destination, pid, Nonce(now, attempt), candidate);
      match made
      case Ok(None) =>
      case Err(error) => return Err(error);
      case Ok(Some(i)) => return Ok((candidate, i));
    }
    return Err(Plain("storage"));
  }

  /** The temporary file `i` is the only difference between the disks' names; what
      was there is as it was. */
  ghost predicate Added(c: Copy, d: Disk, e: Disk, temporary: Path, i: Inode) {
    && temporary !in d.names && temporary != c.destination && i !in d.nodes && e.names == d.names[temporary := i]
    && forall j | j in d.nodes :: j in e.nodes && e.nodes[j] == d.nodes[j]
  }

  /** One name is tried. */
  method TryTemporary(fs: FileSystem, ghost c: Copy, source: Path, destination: Path, ghost pid: nat, ghost nonce: nat, candidate: Path)
    returns (r: Result<Option<Inode>, Failure>)
    requires Starting(fs, c, source) && destination == c.destination && candidate == TemporaryName(destination, pid, nonce)
    requires !IsSidecarOf(source, candidate)
    modifies fs
    ensures fs.Continues() && fs.notes.overlooked == old(fs.notes.overlooked)
    ensures r.Err? ==> r.error.Plain?
    ensures r.Err? || r.value == None ==> Starting(fs, c, source) && fs.disk == old(fs.disk)
    ensures r == Ok(None) ==> candidate in fs.disk.names
    ensures r.Ok? && r.value.Some? ==>
              && Copying(fs, c, source, candidate, r.value.value) && Unpublished(fs, c, candidate, r.value.value)
              && Added(c, old(fs.disk), fs.disk, candidate, r.value.value)
    ensures fs.faults == old(fs.faults) ==> (if candidate in old(fs.disk.names) then r == Ok(None) else r.Ok?)
    ensures r.Ok? ==> fs.faults == old(fs.faults)
  {
    TemporaryIsApart(destination, source, pid, nonce);
    SidecarsAreLonger(source);
    var made := fs.MakeNew(candidate, Regular, TEMPORARY_MODE);
    match made
    case Taken => return Ok(None);
    case NotMade => return Err(Plain("filesystem_failure"));
    case Made(i) => return Ok(Some(i));
  }

  lemma SidecarsAreLonger(path: Path)
    ensures !IsSidecarOf(path, path)
  {
    assert |path.name + SIDECARS[0]| > |path.name| && |path.name + SIDECARS[1]| > |path.name| && |path.name + SIDECARS[2]| > |path.name|;
  }

  /** Fill, check, close and sync the temporary file. It succeeds whenever no call
      fails and SQLite refuses nothing, unless the source stays locked too long. */
  method FillTemporary(fs: FileSystem, ghost c: Copy, ghost a: SqliteAdapter, source: Path, temporary: Path, ghost i: Inode,
                       pages: seq<Page>, decode: seq<Page> -> Database, clock: Clock, timeout: nat)
    returns (r: Result<(), Failure>)
    requires Copying(fs, c, source, temporary, i) && Unpublished(fs, c, temporary, i) && c.store == decode(pages)
    modifies fs, clock, a`refusals
    ensures fs.Continues() && Copying(fs, c, source, temporary, i) && Unpublished(fs, c, temporary, i)
    ensures Others(c, old(fs.disk), fs.disk, source, temporary) && fs.notes.overlooked == old(fs.notes.overlooked)
    ensures r.Ok? ==> c.Complete(fs.disk, i)
    ensures r.Err? ==> r.error.Plain?
    ensures a.refusals >= old(a.refusals)
    ensures fs.faults == old(fs.faults) && a.refusals == old(a.refusals) ==> r.Ok? || TimedOut(r, old(clock.time), clock.time, timeout)
    ensures r.Ok? ==> fs.faults == old(fs.faults) && a.refusals == old(a.refusals)
  {
    Touch(fs, c, source, temporary, i, temporary, None);
    var trouble: bool := *;
    a.Refusing(trouble);
    if trouble { return Err(Plain("cannot_open")); }
    ghost var d := fs.disk;
    r := CopyPages(fs, c, a, source, temporary, i, pages, decode, clock, timeout);
    OthersTransitive(c, old(fs.disk), d, fs.disk, source, temporary);
  }

  /** Copy the pages of the source, then check and sync what they make. */
  method CopyPages(fs: FileSystem, ghost c: Copy, ghost a: SqliteAdapter, source: Path, temporary: Path, ghost i: Inode,
                   pages: seq<Page>, decode: seq<Page> -> Database, clock: Clock, timeout: nat)
    returns (r: Result<(), Failure>)
    requires Copying(fs, c, source, temporary, i) && Unpublished(fs, c, temporary, i) && c.store == decode(pages)
    modifies fs, clock, a`refusals
    ensures fs.Continues() && Copying(fs, c, source, temporary, i) && Unpublished(fs, c, temporary, i)
    ensures Others(c, old(fs.disk), fs.disk, source, temporary) && fs.notes.overlooked == old(fs.notes.overlooked)
    ensures r.Ok? ==> c.Complete(fs.disk, i)
    ensures r.Err? ==> r.error.Plain?
    ensures a.refusals >= old(a.refusals)
    ensures fs.faults == old(fs.faults) && a.refusals == old(a.refusals) ==> r.Ok? || TimedOut(r, old(clock.time), clock.time, timeout)
    ensures r.Ok? ==> fs.faults == old(fs.faults) && a.refusals == old(a.refusals)
  {
    var session;
    ghost var deadline;
    r, session, deadline := PerformBackup(pages, a, clock, timeout);
    Touch(fs, c, source, temporary, i, source, None);
    if r.Err? { return; }
    ghost var d := fs.disk;
    r := CheckAndSync(fs, c, a, source, temporary, i, decode(session.copied));
    OthersTransitive(c, old(fs.disk), d, fs.disk, source, temporary);
  }

  /** The pages copied are the file's; it is checked, closed and synced. */
  method CheckAndSync(fs: FileSystem, ghost c: Copy, ghost a: SqliteAdapter, source: Path, temporary: Path, ghost i: Inode, copied: Database)
    returns (r: Result<(), Failure>)
    requires Copying(fs, c, source, temporary, i) && Unpublished(fs, c, temporary, i) && copied == c.store
    modifies fs, a`refusals
    ensures fs.Continues() && Copying(fs, c, source, temporary, i) && Unpublished(fs, c, temporary, i)
    ensures Others(c, old(fs.disk), fs.disk, source, temporary) && fs.notes.overlooked == old(fs.notes.overlooked)
    ensures r.Ok? ==> c.Complete(fs.disk, i)
    ensures r.Err? ==> r.error.Plain?
    ensures a.refusals >= old(a.refusals)
    ensures fs.faults == old(fs.faults) && a.refusals == old(a.refusals) ==> r.Ok?
    ensures r.Ok? ==> fs.faults == old(fs.faults) && a.refusals == old(a.refusals)
  {
    r := WriteAndVerify(fs, c, a, source, temporary, i, copied);
    if r.Err? { return; }
    r := SyncCopy(fs, c, source, temporary, i);
  }

  method WriteAndVerify(fs: FileSystem, ghost c: Copy, ghost a: SqliteAdapter, source: Path, temporary: Path, ghost i: Inode, copied: Database)
    returns (r: Result<(), Failure>)
    requires Copying(fs, c, source, temporary, i) && Unpublished(fs, c, temporary, i)
    modifies fs, a`refusals
    ensures fs.Continues() && Copying(fs, c, source, temporary, i) && Unpublished(fs, c, temporary, i)
    ensures Others(c, old(fs.disk), fs.disk, source, temporary) && fs.notes.overlooked == old(fs.notes.overlooked)
    ensures r.Ok? ==> fs.disk.nodes[i].data == Image(copied, true)
    ensures r.Err? ==> r.error.Plain?
    ensures r.Ok? <==> a.refusals == old(a.refusals)
    ensures a.refusals >= old(a.refusals)
    ensures fs.faults == old(fs.faults)
  {
    Touch(fs, c, source, temporary, i, temporary, Some(Image(copied, false)));
    ghost var d := fs.disk;
    r := VerifyCopy(fs, c, a, source, temporary, i);
    OthersTransitive(c, old(fs.disk), d, fs.disk, source, temporary);
  }

  method SyncCopy(fs: FileSystem, ghost c: Copy, source: Path, temporary: Path, ghost i: Inode) returns (r: Result<(), Failure>)
    requires Copying(fs, c, source, temporary, i) && Unpublished(fs, c, temporary, i)
    modifies fs
    ensures fs.Continues() && Copying(fs, c, source, temporary, i) && fs.notes == old(fs.notes)
    ensures fs.disk.names == old(fs.disk.names) && fs.disk.nodes == old(fs.disk.nodes)
    ensures r.Ok? ==> i !in fs.disk.dirtyNodes
    ensures r.Err? ==> r.error.Plain?
    ensures fs.faults == old(fs.faults) ==> r.Ok?
    ensures r.Ok? ==> fs.faults == old(fs.faults)
  {
    FileOpens(fs.disk, temporary);
    r := SyncDatabaseFiles(fs, temporary, false);
  }

  /** `verify_integrity` on the copy, and the close of its handle. */
  method VerifyCopy(fs: FileSystem, ghost c: Copy, ghost a: SqliteAdapter, source: Path, temporary: Path, ghost i: Inode)
    returns (r: Result<(), Failure>)
    requires Copying(fs, c, source, temporary, i) && Unpublished(fs, c, temporary, i)
    modifies fs, a`refusals
    ensures fs.Continues() && Copying(fs, c, source, temporary, i) && Unpublished(fs, c, temporary, i)
    ensures Others(c, old(fs.disk), fs.disk, source, temporary) && fs.notes.overlooked == old(fs.notes.overlooked)
    ensures r.Ok? ==>
              && old(fs.disk.nodes[i].data).Image?
              && fs.disk.nodes[i].data == Image(old(fs.disk.nodes[i].data).db, true)
    ensures r.Err? ==> r.error.Plain?
    ensures a.refusals >= old(a.refusals)
    ensures r.Ok? <==> a.refusals == old(a.refusals) && old(fs.disk.nodes[i].data).Image?
    ensures fs.faults == old(fs.faults)
  {
    var content := fs.disk.nodes[fs.disk.names[temporary]].data;
    var damaged: bool := *;
    var unclosed: bool := *;
    a.Refusing(damaged || unclosed);
    if damaged || unclosed || !content.Image? {
      Touch(fs, c, source, temporary, i, temporary, None);
      return Err(Plain(if unclosed then "sqlite_error" else "integrity_check_failed"));
    }
    Touch(fs, c, source, temporary, i, temporary, Some(Image(content.db, true)));
    return Ok(());
  }

  lemma OnlyMovedBetween(names: Names, from: Path, to: Path, i: Inode)
    requires from in names && (forall q | At(names, q, i) :: q == from || q == to)
    ensures forall q | At(MoveName(names, from, to), q, i) :: q == from || q == to
  {
    forall q | At(MoveName(names, from, to), q, i) ensures q == from || q == to {
      if q != to { assert At(names, q, i); }
    }
  }

  /** Rename the copy to the destination, or back. */
  method MoveCopy(fs: FileSystem, ghost c: Copy, source: Path, ghost temporary: Path, ghost i: Inode, from: Path, to: Path) returns (ok: bool)
    requires Copying(fs, c, source, temporary, i) && At(fs.disk.names, from, i)
    requires (from == temporary && to == c.destination && c.Complete(fs.disk, i) && MayPublish(fs, c))
             || (from == c.destination && to == temporary && temporary !in fs.disk.names)
    modifies fs
    ensures fs.Continues() && Copying(fs, c, source, temporary, i) && fs.notes.overlooked == old(fs.notes.overlooked)
    ensures Others(c, old(fs.disk), fs.disk, source, temporary)
    ensures fs.disk.names == if ok then MoveName(old(fs.disk.names), from, to) else old(fs.disk.names)
    ensures ok <==> fs.faults == old(fs.faults) && (to == c.destination ==> Replaceable(c, old(fs.disk)))
  {
    OnlyMovedBetween(fs.disk.names, from, to, i);
    assert fs.Permits(Replace(from, to));
    ok := fs.RenameOver(from, to);
  }

  /** The copy is at the destination, and not under its temporary name. */
  ghost predicate Published(fs: FileSystem, c: Copy, temporary: Path, i: Inode)
    reads fs
  {
    At(fs.disk.names, c.destination, i) && temporary !in fs.disk.names
  }

  /** No name links any longer what only the destination linked. */
  ghost predicate Lost(c: Copy, d: Disk, e: Disk) {
    forall j | OnlyAt(d.names, j, c.destination) :: !Linked(e.names, j)
  }

  lemma RenamedOverIsLost(c: Copy, d: Disk, e: Disk, temporary: Path)
    requires temporary in d.names && temporary != c.destination
    requires e.names == MoveName(d.names, temporary, c.destination)
    ensures Lost(c, d, e)
  {
    forall j, q | OnlyAt(d.names, j, c.destination) ensures !At(e.names, q, j) {}
  }

  /** `publish_temp_file`. What was at the destination, and nowhere else, is gone
      when it succeeds. Without a failing call only a directory stops it. */
  method PublishTemporary(fs: FileSystem, ghost c: Copy, source: Path, temporary: Path, destination: Path, ghost i: Inode)
    returns (r: Result<(), Failure>)
    requires Copying(fs, c, source, temporary, i) && Unpublished(fs, c, temporary, i) && MayPublish(fs, c)
    requires c.Complete(fs.disk, i) && destination == c.destination
    modifies fs
    ensures fs.Continues() && Copying(fs, c, source, temporary, i) && fs.notes.overlooked == old(fs.notes.overlooked)
    ensures Others(c, old(fs.disk), fs.disk, source, temporary)
    ensures r.Ok? ==> Published(fs, c, temporary, i) && Lost(c, old(fs.disk), fs.disk)
    ensures r.Err? && r.error.Plain? ==> At(fs.disk.names, temporary, i) && !At(fs.disk.names, destination, i)
    ensures fs.faults == old(fs.faults) ==> (r.Ok? <==> Replaceable(c, old(fs.disk)))
    ensures r.Ok? ==> fs.faults == old(fs.faults)
    ensures r.Ok? ==> destination !in fs.disk.dirtyNames
  {
    var published := MoveCopy(fs, c, source, temporary, i, temporary, destination);
    if !published { return Err(Plain("filesystem_failure")); }
    RenamedOverIsLost(c, old(fs.disk), fs.disk, temporary);
    ghost var d := fs.disk;
    r := SyncOrWithdraw(fs, c, source, temporary, destination, i);
    OthersTransitive(c, old(fs.disk), d, fs.disk, source, temporary);
  }

  /** Sync the destination's directory, or take the copy back. */
  method SyncOrWithdraw(fs: FileSystem, ghost c: Copy, source: Path, temporary: Path, destination: Path, ghost i: Inode)
    returns (r: Result<(), Failure>)
    requires Copying(fs, c, source, temporary, i) && Published(fs, c, temporary, i) && destination == c.destination
    modifies fs
    ensures fs.Continues() && Copying(fs, c, source, temporary, i) && fs.notes.overlooked == old(fs.notes.overlooked)
    ensures Others(c, old(fs.disk), fs.disk, source, temporary)
    ensures r.Ok? ==> fs.disk.names == old(fs.disk.names)
    ensures r.Err? && r.error.Plain? ==> At(fs.disk.names, temporary, i) && !At(fs.disk.names, destination, i)
    ensures fs.faults == old(fs.faults) ==> r.Ok?
    ensures r.Ok? ==> fs.faults == old(fs.faults)
    ensures r.Ok? ==> destination !in fs.disk.dirtyNames
  {
    r := SyncDirectoryOf(fs, destination);
    if r.Err? {
      ghost var d := fs.disk;
      var withdrawn := MoveCopy(fs, c, source, temporary, i, destination, temporary);
      OthersTransitive(c, old(fs.disk), d, fs.disk, source, temporary);
      if !withdrawn { r := Err(RollbackFailed(r.error, Plain("filesystem_failure"))); }
    }
  }

  /** Everything from the temporary file on, before any clean-up. */
  method Produce(fs: FileSystem, ghost c: Copy, ghost a: SqliteAdapter, source: Path, temporary: Path, ghost i: Inode, pages: seq<Page>,
                 decode: seq<Page> -> Database, clock: Clock, timeout: nat, destination: Path)
    returns (r: Result<(), Failure>)
    requires Copying(fs, c, source, temporary, i) && Unpublished(fs, c, temporary, i) && MayPublish(fs, c)
    requires c.store == decode(pages) && destination == c.destination
    modifies fs, clock, a`refusals
    ensures fs.Continues() && Copying(fs, c, source, temporary, i) && fs.notes.overlooked == old(fs.notes.overlooked)
    ensures Others(c, old(fs.disk), fs.disk, source, temporary)
    ensures r.Ok? ==> Published(fs, c, temporary, i) && Lost(c, old(fs.disk), fs.disk)
    ensures a.refusals >= old(a.refusals)
    ensures fs.faults == old(fs.faults) && a.refusals == old(a.refusals) ==>
              (r.Ok? ==> Replaceable(c, old(fs.disk)))
              && (Replaceable(c, old(fs.disk)) ==> r.Ok? || TimedOut(r, old(clock.time), clock.time, timeout))
    ensures r.Ok? ==> fs.faults == old(fs.faults) && a.refusals == old(a.refusals)
    ensures r.Ok? ==> destination !in fs.disk.dirtyNames
  {
    r := FillTemporary(fs, c, a, source, temporary, i, pages, decode, clock, timeout);
    if r.Err? { return; }
    ghost var d := fs.disk;
    StillReplaceable(c, old(fs.disk), d, source, temporary);
    r := PublishAndReport(fs, c, a, source, temporary, destination, i);
    OthersTransitive(c, old(fs.disk), d, fs.disk, source, temporary);
    LostSince(c, old(fs.disk), d, fs.disk, source, temporary, i);
  }

  lemma StillReplaceable(c: Copy, d: Disk, e: Disk, source: Path, temporary: Path)
    requires WellFormed(d) && Others(c, d, e, source, temporary) && LinkAt(d.names, c.destination) == LinkAt(e.names, c.destination)
    ensures Replaceable(c, d) <==> Replaceable(c, e)
  {
  }

  /** What only the destination linked before SQLite's work, only it linked after. */
  lemma LostSince(c: Copy, d: Disk, d1: Disk, e: Disk, source: Path, temporary: Path, i: Inode)
    requires WellFormed(d) && Others(c, d, d1, source, temporary) && LinkAt(d.names, c.destination) == LinkAt(d1.names, c.destination)
    requires At(d1.names, temporary, i) && c.before != Some(i) && c.before == LinkAt(d.names, c.destination)
    ensures Lost(c, d1, e) ==> Lost(c, d, e)
  {
    forall j | OnlyAt(d.names, j, c.destination) ensures OnlyAt(d1.names, j, c.destination) {}
  }

  /** The copy takes its place, and is looked at there. */
  method PublishAndReport(fs: FileSystem, ghost c: Copy, ghost a: SqliteAdapter, source: Path, temporary: Path, destination: Path, ghost i: Inode)
    returns (r: Result<(), Failure>)
    requires Copying(fs, c, source, temporary, i) && Unpublished(fs, c, temporary, i) && MayPublish(fs, c)
    requires c.Complete(fs.disk, i) && destination == c.destination
    modifies fs, a`refusals
    ensures fs.Continues() && Copying(fs, c, source, temporary, i) && fs.notes.overlooked == old(fs.notes.overlooked)
    ensures Others(c, old(fs.disk), fs.disk, source, temporary)
    ensures r.Ok? ==> Published(fs, c, temporary, i) && Lost(c, old(fs.disk), fs.disk)
    ensures a.refusals >= old(a.refusals)
    ensures fs.faults == old(fs.faults) && a.refusals == old(a.refusals) ==> (r.Ok? <==> Replaceable(c, old(fs.disk)))
    ensures r.Ok? ==> fs.faults == old(fs.faults) && a.refusals == old(a.refusals)
    ensures r.Ok? ==> fs.checks > old(fs.checks)
    ensures r.Ok? ==> destination !in fs.disk.dirtyNames
  {
    r := PublishTemporary(fs, c, source, temporary, destination, i);
    if r.Err? { return; }
    ghost var e := fs.disk;
    r := Report(fs, c, a, source, temporary, destination, i);
    OthersTransitive(c, old(fs.disk), e, fs.disk, source, temporary);
    StillLost(c, old(fs.disk), e, fs.disk, source, temporary);
  }

  lemma StillLost(c: Copy, d: Disk, e: Disk, f: Disk, source: Path, temporary: Path)
    requires WellFormed(d) && Lost(c, d, e) && Others(c, d, e, source, temporary) && Others(c, e, f, source, temporary)
    requires temporary !in f.names && LinkAt(f.names, c.destination) == LinkAt(e.names, c.destination)
    ensures Lost(c, d, f)
  {
    forall j, q | OnlyAt(d.names, j, c.destination) && At(f.names, q, j) ensures false {
      assert j in d.nodes;
      assert At(e.names, q, j);
    }
  }

  /** The copy's size and the source's journal mode; a failure here comes after
      the copy is already published. */
  method Report(fs: FileSystem, ghost c: Copy, ghost a: SqliteAdapter, source: Path, temporary: Path, destination: Path, ghost i: Inode)
    returns (r: Result<(), Failure>)
    requires Copying(fs, c, source, temporary, i) && Published(fs, c, temporary, i) && destination == c.destination
    modifies fs, a`refusals
    ensures fs.Continues() && Copying(fs, c, source, temporary, i) && fs.notes.overlooked == old(fs.notes.overlooked)
    ensures Others(c, old(fs.disk), fs.disk, source, temporary)
    ensures Published(fs, c, temporary, i)
    ensures r.Err? ==> r.error.Plain?
    ensures a.refusals >= old(a.refusals)
    ensures fs.faults == old(fs.faults) && a.refusals == old(a.refusals) ==> r.Ok?
    ensures r.Ok? ==> fs.faults == old(fs.faults) && a.refusals == old(a.refusals)
    ensures r.Ok? ==> fs.checks > old(fs.checks)
    ensures destination in fs.disk.dirtyNames ==> destination in old(fs.disk.dirtyNames)
  {
    var look := fs.Stat(destination);
    if !look.Found? { return Err(Plain("filesystem_failure")); }
    fs.Passing(true);
    Touch(fs, c, source, temporary, i, source, None);
    var trouble: bool := *;
    a.Refusing(trouble);
    r := if trouble then Err(Plain("sqlite_error")) else Ok(());
  }

  /** `remove_file_if_exists` on the temporary file, its result ignored; the start
      of the clean-up is marked. */
  method Discard(fs: FileSystem, ghost c: Copy, source: Path, temporary: Path, ghost i: Inode)
    requires Copying(fs, c, source, temporary, i)
    modifies fs
    ensures fs.Continues() && Others(c, old(fs.disk), fs.disk, source, temporary)
    ensures fs.notes.overlooked == old(fs.notes.overlooked) && fs.notes.cleaning == Some(old(fs.faults))
    ensures LinkAt(fs.disk.names, c.destination) == old(LinkAt(fs.disk.names, c.destination))
    ensures fs.faults == old(fs.faults) ==> temporary !in fs.disk.names
  {
    fs.Mark(Cleaning(fs.faults));
    var removed := fs.RemoveFile(temporary);
  }

  method ProduceOrDiscard(fs: FileSystem, ghost c: Copy, ghost a: SqliteAdapter, source: Path, temporary: Path, ghost i: Inode, pages: seq<Page>,
                          decode: seq<Page> -> Database, clock: Clock, timeout: nat, destination: Path)
    returns (r: Result<(), Failure>)
    requires Copying(fs, c, source, temporary, i) && Unpublished(fs, c, temporary, i) && MayPublish(fs, c)
    requires c.store == decode(pages) && destination == c.destination
    modifies fs, clock, a`refusals
    ensures fs.Continues() && Others(c, old(fs.disk), fs.disk, source, temporary) && fs.notes.overlooked == old(fs.notes.overlooked)
    ensures r.Ok? ==> At(fs.disk.names, destination, i) && Lost(c, old(fs.disk), fs.disk)
    ensures a.refusals >= old(a.refusals)
    ensures fs.faults == old(fs.faults) && a.refusals == old(a.refusals) ==>
              (r.Ok? ==> Replaceable(c, old(fs.disk)))
              && (Replaceable(c, old(fs.disk)) ==> r.Ok? || TimedOut(r, old(clock.time), clock.time, timeout))
    ensures if r.Ok? then fs.notes.cleaning == None
            else CleanedLast(fs.notes, old(fs.faults), fs.faults)
    ensures fs.notes.cleaning == None || fs.notes.cleaning == Some(fs.faults) ==> temporary !in fs.disk.names
    ensures r.Ok? ==> fs.faults == old(fs.faults) && a.refusals == old(a.refusals)
    ensures r.Ok? ==> destination !in fs.disk.dirtyNames
  {
    r := Produce(fs, c, a, source, temporary, i, pages, decode, clock, timeout, destination);
    if r.Err? {
      ghost var d := fs.disk;
      Discard(fs, c, source, temporary, i);
      OthersTransitive(c, old(fs.disk), d, fs.disk, source, temporary);
    }
  }

  /** The names whose absence is tested: the destination, its `-wal` and its `-shm`. */
  function Tested(destination: Path, n: nat): Path
    requires n < 3
  {
    Member(destination, n)
  }

  /** Each of the first `n` is not there, or was overlooked. */
  ghost predicate NotSeen(destination: Path, names: Names, overlooked: set<Path>, n: nat)
    requires n <= 3
  {
    forall k | 0 <= k < n :: Tested(destination, k) in names ==> Tested(destination, k) in overlooked
  }

  /** None of the three can be opened. */
  ghost predicate NoneOpens(destination: Path, d: Disk) {
    forall k | 0 <= k < 3 :: !Opens(d, Tested(destination, k))
  }

  /** The parent directory, and the three names that must not be seen. Without a
      failing call it succeeds exactly when none of them can be opened. */
  method CheckDestination(fs: FileSystem, ghost c: Copy, source: Path, destination: Path) returns (r: Result<(), Failure>)
    requires Starting(fs, c, source) && destination == c.destination
    modifies fs
    ensures fs.Continues() && Starting(fs, c, source) && fs.disk == old(fs.disk)
    ensures r.Err? ==> r.error.Plain?
    ensures r.Ok? ==> MayPublish(fs, c) && NotSeen(destination, fs.disk.names, fs.notes.overlooked, 3)
    ensures fs.faults == old(fs.faults) ==> (r.Ok? <==> NoneOpens(destination, old(fs.disk)))
    ensures r.Ok? ==> fs.faults <= old(fs.faults) + 3
    ensures r.Ok? ==> fs.checks > old(fs.checks)
    ensures r.Err? && fs.faults == old(fs.faults) ==> r.error == Plain("path_exists")
  {
    var parent := fs.Probe();
    if !parent { return Err(Plain("filesystem_failure")); }
    assert Tested(destination, 0) == destination;
    assert Tested(destination, 1) == Sidecar(destination, SIDECARS[0]) && Tested(destination, 2) == Sidecar(destination, SIDECARS[1]);
    r := EnsureAbsent(fs, c, source, destination);
    if r.Err? { return; }
    r := EnsureAbsent(fs, c, source, Sidecar(destination, SIDECARS[0]));
    if r.Err? { return; }
    r := EnsureAbsent(fs, c, source, Sidecar(destination, SIDECARS[1]));
  }

  /** `ensure_absent`, by an existence test that takes a failed call, and a link that
      leads nowhere, for absence. */
  method EnsureAbsent(fs: FileSystem, ghost c: Copy, source: Path, path: Path) returns (r: Result<(), Failure>)
    requires Starting(fs, c, source)
    modifies fs
    ensures fs.Continues() && Starting(fs, c, source) && fs.disk == old(fs.disk)
    ensures old(fs.notes.overlooked) <= fs.notes.overlooked
    ensures r.Err? ==> r.error.Plain?
    ensures r.Ok? && path in fs.disk.names ==> path in fs.notes.overlooked
    ensures r.Ok? <==> fs.faults != old(fs.faults) || !Opens(old(fs.disk), path)
    ensures r.Ok? ==> fs.faults <= old(fs.faults) + 1
    ensures r.Err? ==> r.error == Plain("path_exists")
  {
    var there := fs.Exists(path);
    r := if there then Err(Plain("path_exists")) else Ok(());
  }

  /** The name may be new or changed after a backup that has left no temporary file. */
  ghost predicate MayDiffer(destination: Path, source: Path, pid: nat, now: nat, q: Path) {
    q == destination || IsSidecarOf(q, source) || exists t :: IsTemporary(destination, pid, now, t) && IsSidecarOf(q, t)
  }

  /** How a backup leaves the names. */
  ghost predicate LeavesNames(destination: Path, source: Path, pid: nat, now: nat, d: Disk, e: Disk, clean: bool) {
    && (forall q | !MayDiffer(destination, source, pid, now, q) && !IsTemporary(destination, pid, now, q) ::
          LinkAt(e.names, q) == LinkAt(d.names, q))
    && (forall q | q in d.names && !MayDiffer(destination, source, pid, now, q) :: At(e.names, q, d.names[q]))
    && (clean ==> forall q | q in e.names && !MayDiffer(destination, source, pid, now, q) :: q in d.names)
  }

  lemma LeavesFromOthers(c: Copy, source: Path, pid: nat, now: nat, d: Disk, d1: Disk, e: Disk, temporary: Path, i: Inode, clean: bool)
    requires IsTemporary(c.destination, pid, now, temporary) && temporary !in d.names && d1.names == d.names[temporary := i]
    requires Others(c, d1, e, source, temporary) && (clean ==> temporary !in e.names)
    ensures LeavesNames(c.destination, source, pid, now, d, e, clean)
  {
    forall q | !MayDiffer(c.destination, source, pid, now, q) && q != temporary ensures LinkAt(e.names, q) == LinkAt(d.names, q) {
      assert Spared(c, source, temporary, q);
    }
  }

  lemma LeavesUnchanged(destination: Path, source: Path, pid: nat, now: nat, d: Disk, e: Disk)
    requires e.names == d.names
    ensures LeavesNames(destination, source, pid, now, d, e, true)
  {
  }

  /** The destination's three sidecar names link what they did. */
  ghost predicate SidecarsKept(destination: Path, d: Disk, e: Disk) {
    forall s | 0 <= s < 3 :: LinkAt(e.names, Sidecar(destination, SIDECARS[s])) == LinkAt(d.names, Sidecar(destination, SIDECARS[s]))
  }

  /** The destination's sidecars are neither the source's nor the temporary file's. */
  lemma SidecarsSpared(c: Copy, source: Path, pid: nat, nonce: nat, s: nat)
    requires s < 3 && c.destination != source
    ensures Spared(c, source, TemporaryName(c.destination, pid, nonce), Sidecar(c.destination, SIDECARS[s]))
  {
    var t, q := TemporaryName(c.destination, pid, nonce), Sidecar(c.destination, SIDECARS[s]);
    TemporaryIsApart(c.destination, c.destination, pid, nonce);
    SidecarsAreLonger(c.destination);
    forall k | 0 <= k < 3 ensures q != Sidecar(source, SIDECARS[k]) && q != Sidecar(t, SIDECARS[k]) {
      if c.destination.dir == source.dir { SidecarsDiffer(c.destination, source, s, k); }
      SidecarsDiffer(c.destination, t, s, k);
    }
  }

  lemma SidecarsStay(c: Copy, source: Path, pid: nat, now: nat, d: Disk, d1: Disk, e: Disk, temporary: Path, i: Inode)
    requires IsTemporary(c.destination, pid, now, temporary) && c.destination != source
    requires Added(c, d, d1, temporary, i) && Others(c, d1, e, source, temporary)
    ensures SidecarsKept(c.destination, d, e)
  {
    var n :| 0 <= n < ATTEMPTS && temporary == Candidate(c.destination, pid, now, n);
    forall s | 0 <= s < 3
      ensures LinkAt(e.names, Sidecar(c.destination, SIDECARS[s])) == LinkAt(d.names, Sidecar(c.destination, SIDECARS[s]))
    {
      SidecarsSpared(c, source, pid, Nonce(now, n), s);
    }
  }

  /** The temporary file took nothing's place. */
  lemma LostFromStart(c: Copy, d: Disk, d1: Disk, e: Disk, temporary: Path, i: Inode)
    requires WellFormed(d) && Added(c, d, d1, temporary, i)
    ensures Lost(c, d1, e) ==> Lost(c, d, e)
    ensures Replaceable(c, d) <==> Replaceable(c, d1)
  {
    forall j | OnlyAt(d.names, j, c.destination) ensures OnlyAt(d1.names, j, c.destination) {}
  }

  /** What leads nowhere is a link, and no directory. */
  lemma NoneOpensIsReplaceable(c: Copy, d: Disk)
    requires NoneOpens(c.destination, d)
    ensures Replaceable(c, d)
  {
    assert Tested(c.destination, 0) == c.destination;
  }

  ghost predicate SoundThroughout(c: Copy, trail: seq<Moment>, since: nat) {
    forall k | since <= k < |trail| :: c.Sound(trail[k])
  }

  /** How a backup that succeeds leaves the destination: a new file is there, and its
      name would survive a power loss; what only the destination linked before is
      lost; and of its sidecars none has been touched, and no `-wal` or `-shm` was
      seen. */
  ghost predicate Replaced(c: Copy, d: Disk, e: Disk, overlooked: set<Path>) {
    && c.destination in e.names && e.names[c.destination] !in d.nodes && c.destination !in e.dirtyNames
    && Lost(c, d, e) && SidecarsKept(c.destination, d, e) && NotSeen(c.destination, d.names, overlooked, 3)
  }

  /** `backup_database`, in a directory no one else is changing; `decode` is how the
      engine reads a file's pages, and `a` counts SQLite's refusals. At every moment
      of it, and so wherever it is cut off, the destination is what it was, or free,
      or a complete, checked and synced copy; and what it was it stays, unless an
      existence test overlooked it. Success means a new, complete copy is there.
      Unless a call fails after the clean-up has begun, no temporary file is left:
      every name is an old one, the destination, or a sidecar SQLite manages. If no
      call fails and SQLite refuses nothing it succeeds exactly when neither the
      destination nor its `-wal` or `-shm` can be opened and there is room for the
      temporary file: so a link there that leads nowhere is replaced, and only a
      caller who knows the destination has no entry at all knows that nothing is lost. */
  method BackupDatabase(fs: FileSystem, ghost a: SqliteAdapter, source: Path, destination: Path, sameFile: bool, pages: seq<Page>,
                        decode: seq<Page> -> Database, clock: Clock, timeout: nat, pid: nat, now: nat)
    returns (r: Result<(), Failure>)
    requires fs.Valid() && fs.quiet && fs.plan == None && fs.copy == None && fs.notes.(absent := {}) == BLANK
    requires source in fs.disk.names && !IsSidecarOf(destination, source)
    requires NoTemporaryHas(source, destination, pid)
    modifies fs, clock, a`refusals
    ensures fs.Valid() && old(fs.trail) <= fs.trail
    ensures fs.copy == Some(Copy(destination, decode(pages), old(LinkAt(fs.disk.names, destination))))
    ensures fs.since == |old(fs.trail)| - 1 && SoundThroughout(fs.copy.value, fs.trail, fs.since)
    ensures r.Ok? ==> !sameFile && Replaced(fs.copy.value, old(fs.disk), fs.disk, fs.notes.overlooked)
    ensures fs.faults == old(fs.faults) && !NoneOpens(destination, old(fs.disk)) ==> r.Err? && fs.disk == old(fs.disk)
    ensures fs.faults == old(fs.faults) && a.refusals == old(a.refusals) ==>
              var may := !sameFile && destination != source && NoneOpens(destination, old(fs.disk))
                         && RoomForTemporary(destination, pid, now, old(fs.disk.names));
              (r.Ok? ==> may) && (may ==> r.Ok? || TimedOut(r, old(clock.time), clock.time, timeout))
    ensures LeavesNames(destination, source, pid, now, old(fs.disk), fs.disk,
                   fs.notes.cleaning == None || fs.notes.cleaning == Some(fs.faults))
    ensures r.Ok? ==> fs.notes.cleaning == None
    ensures fs.notes.cleaning.Some? ==> CleanedLast(fs.notes, old(fs.faults), fs.faults)
    ensures r.Ok? ==> fs.faults <= old(fs.faults) + 3 && a.refusals == old(a.refusals)
    ensures r.Err? && fs.faults == old(fs.faults) && destination != source && !sameFile && !NoneOpens(destination, old(fs.disk)) ==> r.error == Plain("path_exists")
    ensures destination == source || sameFile ==> r == Err(Plain("backup_destination_is_source"))
  {
    ghost var c := Copy(destination, decode(pages), LinkAt(fs.disk.names, destination));
    fs.Publish(c);
    if destination == source || sameFile {
      LeavesUnchanged(destination, source, pid, now, old(fs.disk), fs.disk);
      AllSound(fs, c);
      return Err(Plain("backup_destination_is_source"));
    }
    r := BackUp(fs, c, a, source, destination, pages, decode, clock, timeout, pid, now);
    AllSound(fs, c);
  }

  /** The backup of a source that is not its own destination. */
  method BackUp(fs: FileSystem, ghost c: Copy, ghost a: SqliteAdapter, source: Path, destination: Path, pages: seq<Page>,
                decode: seq<Page> -> Database, clock: Clock, timeout: nat, pid: nat, now: nat)
    returns (r: Result<(), Failure>)
    requires Starting(fs, c, source) && destination == c.destination && c.store == decode(pages)
    requires NoTemporaryHas(source, destination, pid)
    modifies fs, clock, a`refusals
    ensures fs.Continues()
    ensures r.Ok? ==> Replaced(c, old(fs.disk), fs.disk, fs.notes.overlooked)
    ensures fs.faults == old(fs.faults) && !NoneOpens(destination, old(fs.disk)) ==> r.Err? && fs.disk == old(fs.disk)
    ensures a.refusals >= old(a.refusals)
    ensures fs.faults == old(fs.faults) && a.refusals == old(a.refusals) ==>
              var may := NoneOpens(destination, old(fs.disk)) && RoomForTemporary(destination, pid, now, old(fs.disk.names));
              (r.Ok? ==> may) && (may ==> r.Ok? || TimedOut(r, old(clock.time), clock.time, timeout))
    ensures LeavesNames(destination, source, pid, now, old(fs.disk), fs.disk,
                   fs.notes.cleaning == None || fs.notes.cleaning == Some(fs.faults))
    ensures r.Ok? ==> fs.notes.cleaning == None
    ensures fs.notes.cleaning.Some? ==> CleanedLast(fs.notes, old(fs.faults), fs.faults)
    ensures r.Ok? ==> fs.faults <= old(fs.faults) + 3 && a.refusals == old(a.refusals)
    ensures r.Err? && fs.faults == old(fs.faults) && !NoneOpens(destination, old(fs.disk)) ==> r.error == Plain("path_exists")
  {
    LeavesUnchanged(destination, source, pid, now, old(fs.disk), fs.disk);
    r := CheckDestination(fs, c, source, destination);
    if r.Err? { return; }
    if NoneOpens(destination, fs.disk) { NoneOpensIsReplaceable(c, fs.disk); }
    r := CopyAndPublish(fs, c, a, source, destination, pages, decode, clock, timeout, pid, now);
  }

  /** The backup once nothing has been seen at the destination. */
  method CopyAndPublish(fs: FileSystem, ghost c: Copy, ghost a: SqliteAdapter, source: Path, destination: Path, pages: seq<Page>,
                        decode: seq<Page> -> Database, clock: Clock, timeout: nat, pid: nat, now: nat)
    returns (r: Result<(), Failure>)
    requires Starting(fs, c, source) && destination == c.destination && c.store == decode(pages)
    requires NoTemporaryHas(source, destination, pid) && MayPublish(fs, c)
    modifies fs, clock, a`refusals
    ensures fs.Continues() && fs.notes.overlooked == old(fs.notes.overlooked)
    ensures r.Ok? ==>
              && destination in fs.disk.names && fs.disk.names[destination] !in old(fs.disk.nodes)
              && destination !in fs.disk.dirtyNames
              && Lost(c, old(fs.disk), fs.disk) && SidecarsKept(destination, old(fs.disk), fs.disk)
    ensures a.refusals >= old(a.refusals)
    ensures fs.faults == old(fs.faults) && a.refusals == old(a.refusals) ==>
              var may := Replaceable(c, old(fs.disk)) && RoomForTemporary(destination, pid, now, old(fs.disk.names));
              (r.Ok? ==> may) && (may ==> r.Ok? || TimedOut(r, old(clock.time), clock.time, timeout))
    ensures LeavesNames(destination, source, pid, now, old(fs.disk), fs.disk,
                   fs.notes.cleaning == None || fs.notes.cleaning == Some(fs.faults))
    ensures r.Ok? ==> fs.notes.cleaning == None
    ensures fs.notes.cleaning.Some? ==> CleanedLast(fs.notes, old(fs.faults), fs.faults)
    ensures r.Ok? ==> fs.faults == old(fs.faults) && a.refusals == old(a.refusals)
  {
    var made := MakeTemporary(fs, c, source, destination, pid, now);
    if made.Err? {
      LeavesUnchanged(destination, source, pid, now, old(fs.disk), fs.disk);
      return Err(made.error);
    }
    ghost var d := fs.disk;
    LostFromStart(c, old(fs.disk), d, d, made.value.0, made.value.1);
    r := ProduceOrDiscard(fs, c, a, source, made.value.0, made.value.1, pages, decode, clock, timeout, destination);
    LeavesFromOthers(c, source, pid, now, old(fs.disk), d, fs.disk, made.value.0, made.value.1,
                     fs.notes.cleaning == None || fs.notes.cleaning == Some(fs.faults));
    LostFromStart(c, old(fs.disk), d, fs.disk, made.value.0, made.value.1);
    SidecarsStay(c, source, pid, now, old(fs.disk), d, fs.disk, made.value.0, made.value.1);
  }

  lemma AllSound(fs: FileSystem, c: Copy)
    requires fs.Valid() && fs.quiet && fs.copy == Some(c)
    ensures SoundThroughout(c, fs.trail, fs.since)
  {
    forall k | fs.since <= k < |fs.trail| ensures c.Sound(fs.trail[k]) {
      c.DestinationIsSound(fs.trail, fs.since, k);
    }
  }
}
