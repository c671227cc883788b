/** Recovery's undo log as a function on directories: what performing the logged
    moves does, and what undoing them last-first does. */
module UndoLog {
  import opened Paths
  import opened Disks

  /** Each move finds its file and a free name when its turn comes. */
  ghost predicate Performs(names: Names, log: seq<Entry>)
    decreases log
  {
    log == [] ||
    (At(names, log[0].from, log[0].ino) && log[0].to !in names
     && Performs(MoveName(names, log[0].from, log[0].to), log[1..]))
  }

  ghost function Perform(names: Names, log: seq<Entry>): Names
    requires Performs(names, log)
    decreases log
  {
    if log == [] then names else Perform(MoveName(names, log[0].from, log[0].to), log[1..])
  }

  ghost predicate Undoes(names: Names, log: seq<Entry>)
    decreases |log|
  {
    log == [] ||
    (var x := log[|log| - 1];
     x.to in names && x.from !in names && Undoes(MoveName(names, x.to, x.from), log[..|log| - 1]))
  }

  /** The rollback loop's effect: the last entry is moved back first. */
  ghost function Undo(names: Names, log: seq<Entry>): Names
    requires Undoes(names, log)
    decreases |log|
  {
    if log == [] then names
    else
      var x := log[|log| - 1];
      Undo(MoveName(names, x.to, x.from), log[..|log| - 1])
  }

  /** How far the rollback loop gets when no call fails, and how many entries it
      leaves: it stops where a file is missing or its old name is taken. */
  ghost function Unwind(names: Names, log: seq<Entry>): (Names, nat)
    decreases |log|
  {
    if log == [] then (names, 0)
    else
      var x := log[|log| - 1];
      if x.to in names && x.from !in names then Unwind(MoveName(names, x.to, x.from), log[..|log| - 1])
      else (names, |log|)
  }

  ghost function UndoFar(names: Names, log: seq<Entry>): Names {
    Unwind(names, log).0
  }

  /** The loop gets to the end exactly when the log can be undone, and then it has
      undone it. */
  lemma {:induction false} UnwindAgrees(names: Names, log: seq<Entry>)
    ensures Undoes(names, log) <==> Unwind(names, log).1 == 0
    ensures Undoes(names, log) ==> Undo(names, log) == UndoFar(names, log)
    decreases |log|
  {
    if log != [] {
      var x := log[|log| - 1];
      if x.to in names && x.from !in names {
        UnwindAgrees(MoveName(names, x.to, x.from), log[..|log| - 1]);
      }
    }
  }

  lemma MoveBack(names: Names, from: Path, to: Path)
    requires from in names && to !in names
    ensures MoveName(MoveName(names, from, to), to, from) == names
  {
  }

  lemma {:induction false} PerformAppends(names: Names, log: seq<Entry>, x: Entry)
    requires Performs(names, log)
    requires At(Perform(names, log), x.from, x.ino) && x.to !in Perform(names, log)
    ensures Performs(names, log + [x])
    ensures Perform(names, log + [x]) == MoveName(Perform(names, log), x.from, x.to)
    decreases log
  {
    if log == [] {
      assert log + [x] == [x] && [x][1..] == [];
    } else {
      assert (log + [x])[1..] == log[1..] + [x];
      PerformAppends(MoveName(names, log[0].from, log[0].to), log[1..], x);
    }
  }

  /** The same split at the other end: all but the last move, then the last. */
  lemma {:induction false} PerformSplits(names: Names, log: seq<Entry>)
    requires Performs(names, log) && log != []
    ensures var x := log[|log| - 1];
      && Performs(names, log[..|log| - 1])
      && At(Perform(names, log[..|log| - 1]), x.from, x.ino) && x.to !in Perform(names, log[..|log| - 1])
      && Perform(names, log) == MoveName(Perform(names, log[..|log| - 1]), x.from, x.to)
    decreases log
  {
    if |log| == 1 {
      assert log[1..] == [] && log[..0] == [];
    } else {
      PerformSplits(MoveName(names, log[0].from, log[0].to), log[1..]);
      assert log[..|log| - 1][1..] == log[1..][..|log| - 2];
    }
  }

  /** Undoing a log in reverse gives back exactly the directory it began from. */
  lemma {:induction false} UndoInvertsPerform(names: Names, log: seq<Entry>)
    requires Performs(names, log)
    ensures Undoes(Perform(names, log), log)
    ensures Undo(Perform(names, log), log) == names
    decreases |log|
  {
    if log != [] {
      PerformSplits(names, log);
      var x := log[|log| - 1];
      MoveBack(Perform(names, log[..|log| - 1]), x.from, x.to);
      UndoInvertsPerform(names, log[..|log| - 1]);
    }
  }

  /** A move the log never learned of: the file's names are no entry's. */
  ghost predicate Apart(log: seq<Entry>, x: Entry) {
    forall e | e in log :: e.from != x.from && e.from != x.to && e.to != x.from && e.to != x.to
  }

  lemma {:induction false} PerformElsewhere(names: Names, log: seq<Entry>, p: Path)
    requires Performs(names, log) && forall e | e in log :: e.from != p && e.to != p
    ensures p in Perform(names, log) <==> p in names
    ensures p in names ==> Perform(names, log)[p] == names[p]
    decreases log
  {
    if log != [] {
      PerformElsewhere(MoveName(names, log[0].from, log[0].to), log[1..], p);
    }
  }

  lemma {:induction false} PerformCommutes(names: Names, log: seq<Entry>, x: Entry)
    requires Performs(names, log) && Apart(log, x) && x.from != x.to
    requires x.from in names && x.to !in names
    ensures x.from in Perform(names, log)
    ensures Performs(MoveName(names, x.from, x.to), log)
    ensures Perform(MoveName(names, x.from, x.to), log) == MoveName(Perform(names, log), x.from, x.to)
    decreases log
  {
    if log != [] {
      var e := log[0];
      var next := MoveName(names, e.from, e.to);
      assert MoveName(next, x.from, x.to) == MoveName(MoveName(names, x.from, x.to), e.from, e.to);
      PerformCommutes(next, log[1..], x);
    }
  }

  /** Undoing the log when one more file was moved but never logged restores
      everything but that file: it stays under its new name. */
  lemma UndoMissesStray(names: Names, log: seq<Entry>, x: Entry)
    requires Performs(names, log + [x]) && Apart(log, x) && x.from != x.to
    ensures Undoes(Perform(names, log + [x]), log)
    ensures x.from in names && x.to !in names
    ensures Undo(Perform(names, log + [x]), log) == MoveName(names, x.from, x.to)
    ensures Undo(Perform(names, log + [x]), log) != names
  {
    PerformSplits(names, log + [x]);
    assert (log + [x])[..|log|] == log;
    PerformElsewhere(names, log, x.from);
    PerformElsewhere(names, log, x.to);
    PerformCommutes(names, log, x);
    UndoInvertsPerform(MoveName(names, x.from, x.to), log);
    assert x.from !in MoveName(names, x.from, x.to);
  }

  /** The log cannot be undone while something holds the name its first entry
      came from. */
  lemma {:induction false} UndoNeedsFirstFree(names: Names, log: seq<Entry>)
    requires Undoes(names, log) && log != []
    requires forall j | 1 <= j < |log| :: log[j].from != log[0].from && log[j].to != log[0].from
    ensures log[0].from !in names
    decreases |log|
  {
    if |log| > 1 {
      var x := log[|log| - 1];
      UndoNeedsFirstFree(MoveName(names, x.to, x.from), log[..|log| - 1]);
    }
  }

  /** Undoing the log carries an unrelated move along. */
  lemma UndoCarriesOther(names: Names, log: seq<Entry>, x: Entry)
    requires Performs(names, log) && Apart(log, x) && x.from != x.to
    requires x.from in names && x.to !in names
    ensures x.from in Perform(names, log)
    ensures Undoes(MoveName(Perform(names, log), x.from, x.to), log)
    ensures Undo(MoveName(Perform(names, log), x.from, x.to), log) == MoveName(names, x.from, x.to)
  {
    PerformCommutes(names, log, x);
    UndoInvertsPerform(MoveName(names, x.from, x.to), log);
  }

  /** No two entries share a name. */
  ghost predicate AllApart(log: seq<Entry>) {
    && (forall j | 0 <= j < |log| :: log[j].from != log[j].to)
    && (forall i, j | 0 <= i < j < |log| ::
          log[i].from != log[j].from && log[i].from != log[j].to && log[i].to != log[j].from && log[i].to != log[j].to)
  }

  /** Every file but the first is where it was put, and its old name is free. */
  ghost predicate RestAway(names: Names, log: seq<Entry>) {
    forall j | 1 <= j < |log| :: At(names, log[j].to, log[j].ino) && log[j].from !in names
  }

  /** When the first entry's old name is taken, undoing brings every other file
      back and stops there. */
  lemma {:induction false} UndoFarSplits(names: Names, log: seq<Entry>)
    requires log != [] && AllApart(log) && RestAway(names, log) && log[0].from in names
    ensures !Undoes(names, log)
    ensures forall j | 1 <= j < |log| :: At(UndoFar(names, log), log[j].from, log[j].ino)
    ensures forall q | q in names && (forall j | 1 <= j < |log| :: q != log[j].to) :: At(UndoFar(names, log), q, names[q])
    decreases |log|
  {
    if |log| > 1 {
      var x := log[|log| - 1];
      var rest, next := log[..|log| - 1], MoveName(names, x.to, x.from);
      assert AllApart(rest) && RestAway(next, rest);
      UndoFarSplits(next, rest);
      assert Unwind(names, log) == Unwind(next, rest);
      assert At(next, x.from, x.ino) && forall j | 1 <= j < |rest| :: x.from != rest[j].to;
      forall j | 1 <= j < |log| ensures At(UndoFar(names, log), log[j].from, log[j].ino) {
        if j < |rest| { assert rest[j] == log[j]; }
      }
      forall q | q in names && (forall j | 1 <= j < |log| :: q != log[j].to) ensures At(UndoFar(names, log), q, names[q]) {
        assert q != x.to && q in next && next[q] == names[q];
        assert forall j | 1 <= j < |rest| :: q != rest[j].to;
      }
    }
  }
}
