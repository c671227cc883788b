/** Atomic batches over a transactional store. */
module Atomic {
  import opened Wrappers
  import opened Databases
  import opened SqlText
  import Cells
  import Rows

  type Kind = Rows.OperationKind

  datatype Operation = Operation(kind: Kind, sql: string, params: seq<Cells.Parameter>)

  datatype Effect = Effect(db: Database, rows: seq<Rows.Row>, affected: nat)

  /** What a statement does to a store, or that the engine refuses it. Statements
      that begin or end transactions are not among those given a meaning. */
  datatype Semantics = Semantics(run: (string, seq<Cells.Parameter>, Database) -> Option<Effect>)

  // Which operations are admitted

  function TakeWord(s: string): string {
    if s == "" || IsWhitespace(s[0]) then "" else [s[0]] + TakeWord(s[1..])
  }

  function TrimSemicolons(s: string): string {
    if s != "" && s[0] == ';' then TrimSemicolons(s[1..])
    else if s != "" && s[|s| - 1] == ';' then TrimSemicolons(s[..|s| - 1])
    else s
  }

  function LowerAll(s: string): string {
    seq(|s|, i requires 0 <= i < |s| => Lower(s[i]))
  }

  /** `first_word`. */
  function FirstWord(sql: string): Option<string> {
    var text := TrimStart(sql);
    if text == "" then None else Some(LowerAll(TrimSemicolons(TakeWord(text))))
  }

  predicate IsQuery(first: Option<string>) {
    first == Some("select") || first == Some("with") || first == Some("pragma") || first == Some("explain") || first == Some("values")
  }

  predicate IsSchemaWord(first: Option<string>) {
    first == Some("create") || first == Some("alter") || first == Some("drop")
  }

  ghost predicate Splits(sql: string) {
    exists i | 0 <= i < |sql| :: SplitsAt(sql, i)
  }

  /** `execute_operation` passes the operation on to the engine. */
  ghost predicate Admitted(op: Operation) {
    && '\0' !in op.sql
    && match op.kind
       case Read => IsQuery(FirstWord(op.sql))
       case Write => true
       case Schema => IsSchemaWord(FirstWord(op.sql)) && (Splits(op.sql) ==> op.params == [])
  }

  // What a batch amounts to

  ghost function ResultOf(op: Operation, e: Effect): Rows.OperationResult {
    if op.kind.Read? then Rows.OperationResult.Rows(e.rows)
    else Rows.Written(if op.kind.Schema? && Splits(op.sql) then 0 else e.affected)
  }

  datatype Outcome = Outcome(db: Database, results: seq<Rows.OperationResult>)

  /** The operations one after another, or nothing if one is refused. */
  ghost function Fold(sem: Semantics, ops: seq<Operation>, db: Database): Option<Outcome> {
    if ops == [] then Some(Outcome(db, []))
    else
      var n := |ops| - 1;
      match Fold(sem, ops[..n], db)
      case None => None
      case Some(before) =>
        if !Admitted(ops[n]) then None
        else
          match sem.run(ops[n].sql, ops[n].params, before.db)
          case None => None
          case Some(e) => Some(Outcome(e.db, before.results + [ResultOf(ops[n], e)]))
  }

  /** The store where the batch comes to a stop if nothing fails but what is refused. */
  ghost function StopsAt(sem: Semantics, ops: seq<Operation>, db: Database): Database {
    match Fold(sem, ops, db)
    case Some(outcome) => outcome.db
    case None => if ops == [] then db else StopsAt(sem, ops[..|ops| - 1], db)
  }

  /** An operation that is refused stops the batch, however it goes on. */
  lemma {:induction false} RefusalStops(sem: Semantics, ops: seq<Operation>, db: Database, n: nat)
    requires n < |ops| && Fold(sem, ops[..n], db).Some? && Fold(sem, ops[..n + 1], db) == None
    ensures Fold(sem, ops, db) == None && StopsAt(sem, ops, db) == Fold(sem, ops[..n], db).value.db
  {
    if n + 1 == |ops| {
      assert ops[..n + 1] == ops;
    } else {
      var rest := ops[..|ops| - 1];
      assert rest[..n] == ops[..n] && rest[..n + 1] == ops[..n + 1];
      RefusalStops(sem, rest, db, n);
    }
  }

  lemma {:induction false} ResultForEach(sem: Semantics, ops: seq<Operation>, db: Database)
    requires Fold(sem, ops, db).Some?
    ensures |Fold(sem, ops, db).value.results| == |ops|
  {
    if ops != [] { ResultForEach(sem, ops[..|ops| - 1], db); }
  }

  /** Result `i` is what operation `i` gave on the store the ones before it left;
      it is rows exactly when the operation is a read. */
  lemma {:induction false} ResultsBelong(sem: Semantics, ops: seq<Operation>, db: Database, i: nat)
    requires Fold(sem, ops, db).Some? && i < |ops|
    ensures |Fold(sem, ops, db).value.results| == |ops|
    ensures Fold(sem, ops, db).value.results[i].Rows? <==> ops[i].kind.Read?
    ensures Fold(sem, ops[..i], db).Some?
    ensures sem.run(ops[i].sql, ops[i].params, Fold(sem, ops[..i], db).value.db).Some?
    ensures Fold(sem, ops, db).value.results[i]
            == ResultOf(ops[i], sem.run(ops[i].sql, ops[i].params, Fold(sem, ops[..i], db).value.db).value)
  {
    var n := |ops| - 1;
    ResultForEach(sem, ops[..n], db);
    if i < n {
      ResultsBelong(sem, ops[..n], db, i);
      assert ops[..n][..i] == ops[..i];
    }
  }

  predicate Mutates(ops: seq<Operation>) {
    exists op | op in ops :: !op.kind.Read?
  }

  /** The batch stopped after some of its operations had run. */
  ghost predicate StoppedPartWay(sem: Semantics, ops: seq<Operation>, before: Database, after: Database) {
    exists k :: 0 <= k <= |ops| && Fold(sem, ops[..k], before).Some? && Fold(sem, ops[..k], before).value.db == after
  }

  /** A connection to the store: what is committed, and the open transaction's view. */
  class Connection {
    const sem: Semantics
    const readOnly: bool
    var committed: Database
    var working: Option<Database>
    /** How often a statement failed that the engine would have carried out. */
    ghost var faults: nat

    constructor (sem: Semantics, readOnly: bool, db: Database)
      ensures this.sem == sem && this.readOnly == readOnly && committed == db && working == None
    {
      this.sem, this.readOnly, committed, working, faults := sem, readOnly, db, None, 0;
    }

    ghost method Failing(fault: bool)
      modifies this`faults
      ensures faults == old(faults) + if fault then 1 else 0
    {
      faults := faults + if fault then 1 else 0;
    }

    /** What a statement sees. */
    function View(): Database
      reads this
    {
      if working.Some? then working.value else committed
    }

    method Begin() returns (r: Result<(), Failure>)
      modifies this`working, this`faults
      ensures r.Ok? ==> old(working) == None && working == Some(committed)
      ensures r.Err? ==> working == old(working)
      ensures faults >= old(faults) && (r.Ok? <==> faults == old(faults) && old(working) == None)
    {
      var fault: bool := *;
      Failing(fault);
      if fault || working.Some? { return Err(Plain("sqlite_error")); }
      working := Some(committed);
      return Ok(());
    }

    /** A refused commit may leave the transaction open. */
    method Commit() returns (r: Result<(), Failure>)
      modifies this
      ensures r.Ok? ==> old(working) == Some(committed) && working == None
      ensures r.Err? ==> committed == old(committed)
      ensures faults >= old(faults) && (r.Ok? <==> faults == old(faults) && old(working).Some?)
    {
      var fault: bool := *;
      Failing(fault);
      if working == None { return Err(Plain("sqlite_error")); }
      if fault {
        var ended: bool := *;
        if ended { working := None; }
        return Err(Plain("busy"));
      }
      committed, working := working.value, None;
      return Ok(());
    }

    /** Whatever it reports, no transaction is open afterwards. */
    method Rollback()
      modifies this`working
      ensures working == None
    {
      working := None;
    }

    /** One statement. A failing one may end the transaction, and a failing script
        inside a transaction may have run in part. */
    method Run(op: Operation, script: bool) returns (r: Result<Effect, Failure>)
      modifies this
      ensures r.Ok? ==>
                && sem.run(op.sql, op.params, old(View())) == Some(r.value)
                && if old(working).Some? then working == Some(r.value.db) && committed == old(committed)
                   else working == None && committed == r.value.db
      ensures r.Err? && (old(working).Some? || !script) ==> committed == old(committed)
      ensures old(working) == None ==> working == None
      ensures faults >= old(faults)
      ensures r.Ok? <==> faults == old(faults) && '\0' !in op.sql && sem.run(op.sql, op.params, old(View())).Some?
    {
      var fault: bool := *;
      Failing(fault);
      var e := sem.run(op.sql, op.params, View());
      if fault || '\0' in op.sql || e == None {
        var ended: bool := *;
        var partial: Database := *;
        if working.Some? {
          working := if ended then None else if script then Some(partial) else working;
        } else if script {
          committed := partial;
        }
        return Err(Plain("sqlite_error"));
      }
      if working.Some? {
        working := Some(e.value.db);
      } else {
        committed := e.value.db;
      }
      return Ok(e.value);
    }

    /** `execute_operation`. */
    method Execute(op: Operation) returns (r: Result<Rows.OperationResult, Failure>)
      modifies this
      ensures r.Ok? ==>
                && Admitted(op) && sem.run(op.sql, op.params, old(View())).Some?
                && var e := sem.run(op.sql, op.params, old(View())).value;
                   && r.value == ResultOf(op, e)
                   && if old(working).Some? then working == Some(e.db) && committed == old(committed)
                      else working == None && committed == e.db
      ensures r.Err? && (old(working).Some? || op.kind.Read?) ==> committed == old(committed)
      ensures old(working) == None ==> working == None
      ensures faults >= old(faults)
      ensures r.Ok? <==> faults == old(faults) && Admitted(op) && sem.run(op.sql, op.params, old(View())).Some?
      ensures (op.kind.Read? && !IsQuery(FirstWord(op.sql))) || (op.kind.Schema? && !IsSchemaWord(FirstWord(op.sql))) ==> r == Err(Plain("invalid_operation"))
      ensures op.kind.Schema? && IsSchemaWord(FirstWord(op.sql)) && Splits(op.sql) && op.params != [] ==> r == Err(Plain("capability"))
    {
      var first := FirstWord(op.sql);
      var script := false;
      match op.kind {
        case Read =>
          if !IsQuery(first) { return Err(Plain("invalid_operation")); }
        case Write =>
        case Schema =>
          if !IsSchemaWord(first) { return Err(Plain("invalid_operation")); }
          script := HasMultipleStatements(op.sql);
          if script && op.params != [] { return Err(Plain("capability")); }
      }
      var e := Run(op, script);
      match e
      case Err(error) => return Err(error);
      case Ok(effect) =>
        return Ok(if op.kind.Read? then Rows.OperationResult.Rows(effect.rows)
                  else Rows.Written(if script then 0 else effect.affected));
    }

    /** The loop over the operations, inside or outside a transaction. */
    method ExecuteAll(ops: seq<Operation>) returns (r: Result<seq<Rows.OperationResult>, Failure>)
      requires working.Some? || !Mutates(ops)
      modifies this
      ensures r.Ok? ==>
                && Fold(sem, ops, old(View())) == Some(Outcome(View(), r.value))
                && (old(working).Some? <==> working.Some?)
      ensures old(working).Some? ==> committed == old(committed)
      ensures old(working) == None ==> working == None && StoppedPartWay(sem, ops, old(committed), committed)
      ensures faults >= old(faults)
      ensures faults == old(faults) ==> (r.Ok? <==> Fold(sem, ops, old(View())).Some?)
      ensures faults == old(faults) && old(working) == None ==> committed == StopsAt(sem, ops, old(committed))
    {
      var results: seq<Rows.OperationResult> := [];
      ghost var start := View();
      for n := 0 to |ops|
        invariant Fold(sem, ops[..n], start) == Some(Outcome(View(), results))
        invariant working.Some? <==> old(working).Some?
        invariant working.Some? ==> committed == old(committed)
        invariant faults >= old(faults)
      {
        assert ops[..n + 1][..n] == ops[..n] && ops[..n + 1][n] == ops[n];
        assert ops[n] in ops;
        ghost var failed := faults;
        var one := Execute(ops[n]);
        if one.Err? && faults == failed { RefusalStops(sem, ops, start, n); }
        match one
        case Err(error) => return Err(error);
        case Ok(result) => results := results + [result];
      }
      assert ops[..|ops|] == ops;
      return Ok(results);
    }

    /** `atomic`. Success is the whole batch, with its own results; a failed batch
        that was to change anything has changed nothing; a failed batch of reads
        leaves what the reads before the failing one left. */
    method RunBatch(ops: seq<Operation>) returns (r: Result<seq<Rows.OperationResult>, Failure>)
      modifies this
      ensures old(working) == None ==> working == None
      ensures old(working) == None && r.Ok? ==> Fold(sem, ops, old(committed)) == Some(Outcome(committed, r.value))
      ensures old(working) == None && r.Err? && Mutates(ops) ==> committed == old(committed)
      ensures old(working) == None && r.Err? && !Mutates(ops) ==> StoppedPartWay(sem, ops, old(committed), committed)
      ensures faults >= old(faults)
      ensures old(working) == None && faults == old(faults) ==>
                if Mutates(ops) then r.Ok? <==> !readOnly && Fold(sem, ops, old(committed)).Some?
                else (r.Ok? <==> Fold(sem, ops, old(committed)).Some?) && committed == StopsAt(sem, ops, old(committed))
      ensures readOnly && Mutates(ops) ==> r == Err(Plain("read_only"))
    {
      if ops == [] { return Ok([]); }
      var mutates := Mutates(ops);
      if !mutates {
        r := ExecuteAll(ops);
        return;
      }
      if readOnly { return Err(Plain("read_only")); }
      var begun := Begin();
      if begun.Err? { return Err(begun.error); }
      r := ExecuteAll(ops);
      if r.Err? {
        Rollback();
        return;
      }
      var done := Commit();
      if done.Err? {
        Rollback();
        return Err(done.error);
      }
    }
  }

  // When a batch of reads is atomic too

  /** Each operation that can be reached leaves the store it began with as it is. */
  ghost predicate ChangesNothing(sem: Semantics, ops: seq<Operation>, db: Database) {
    forall i | 0 <= i < |ops| && Fold(sem, ops[..i + 1], db).Some? :: LeavesAlone(sem, ops[i], db)
  }

  ghost predicate LeavesAlone(sem: Semantics, op: Operation, db: Database) {
    sem.run(op.sql, op.params, db).Some? && sem.run(op.sql, op.params, db).value.db == db
  }

  /** Wherever a batch outside a transaction may stop, the store is as it was,
      exactly when no operation it can reach changes it. The word a read must
      begin with does not see to that. */
  lemma StopsCleanlyIff(sem: Semantics, ops: seq<Operation>, db: Database)
    ensures (forall after | StoppedPartWay(sem, ops, db, after) :: after == db) <==> ChangesNothing(sem, ops, db)
  {
    if ChangesNothing(sem, ops, db) {
      forall k | 0 <= k <= |ops| && Fold(sem, ops[..k], db).Some? ensures Fold(sem, ops[..k], db).value.db == db {
        PrefixUnchanged(sem, ops, db, k);
      }
    }
    if forall after | StoppedPartWay(sem, ops, db, after) :: after == db {
      forall i | 0 <= i < |ops| && Fold(sem, ops[..i + 1], db).Some? ensures LeavesAlone(sem, ops[i], db) {
        assert ops[..i + 1][..i] == ops[..i] && ops[..i + 1][i] == ops[i];
        assert StoppedPartWay(sem, ops, db, Fold(sem, ops[..i], db).value.db);
        assert StoppedPartWay(sem, ops, db, Fold(sem, ops[..i + 1], db).value.db);
      }
    }
  }

  lemma {:induction false} PrefixUnchanged(sem: Semantics, ops: seq<Operation>, db: Database, k: nat)
    requires k <= |ops| && Fold(sem, ops[..k], db).Some? && ChangesNothing(sem, ops, db)
    ensures Fold(sem, ops[..k], db).value.db == db
  {
    if k > 0 {
      assert ops[..k][..k - 1] == ops[..k - 1] && ops[..k][k - 1] == ops[k - 1];
      PrefixUnchanged(sem, ops, db, k - 1);
      assert LeavesAlone(sem, ops[k - 1], db);
    }
  }

  /** An engine that carries out one setting of the version number, as it does for
      `PRAGMA user_version = 1`, and refuses everything else. */
  function OneSetting(setting: string): Semantics {
    Semantics((sql, params, d: Database) => if sql == setting then Some(Effect(d.(userVersion := 1), [], 0)) else None)
  }

  lemma FoldOne(sem: Semantics, op: Operation, db: Database)
    requires Admitted(op) && sem.run(op.sql, op.params, db).Some?
    ensures Fold(sem, [op], db) == Some(Outcome(sem.run(op.sql, op.params, db).value.db, [ResultOf(op, sem.run(op.sql, op.params, db).value)]))
  {
    assert [op][..0] == [];
    var result := ResultOf(op, sem.run(op.sql, op.params, db).value);
    assert [] + [result] == [result];
  }

  /** A batch of two reads, both admitted by their first words, of which the first
      changes the store and the second is refused: it fails and is not undone. */
  lemma ReadsMayWrite(setting: string, refused: string, db: Database) returns (ops: seq<Operation>)
    requires IsQuery(FirstWord(setting)) && IsQuery(FirstWord(refused)) && '\0' !in setting
    requires setting != refused && db.userVersion != 1
    ensures !Mutates(ops) && |ops| == 2 && ops[0].sql == setting && ops[1].sql == refused
    ensures Fold(OneSetting(setting), ops, db) == None && !ChangesNothing(OneSetting(setting), ops, db)
    ensures StopsAt(OneSetting(setting), ops, db) == db.(userVersion := 1) != db
  {
    var sem := OneSetting(setting);
    ops := [Operation(Kind.Read, setting, []), Operation(Kind.Read, refused, [])];
    assert ops[..1] == [ops[0]];
    FoldOne(sem, ops[0], db);
    assert Fold(sem, ops[..0 + 1], db).Some? && !LeavesAlone(sem, ops[0], db);
  }

  // The first word

  ghost predicate Semicolons(s: string) {
    forall i | 0 <= i < |s| :: s[i] == ';'
  }

  /** No white space in it, and no semicolon at either end. */
  ghost predicate IsWord(s: string) {
    (forall c | c in s :: !IsWhitespace(c)) && (s != "" ==> s[0] != ';' && s[|s| - 1] != ';')
  }

  /** The statement's first word, between any semicolons that touch it. */
  ghost predicate StartsWithWord(sql: string, word: string, before: string, open: string, close: string, rest: string) {
    && sql == before + open + word + close + rest && open + word + close != ""
    && Blank(before) && Semicolons(open) && IsWord(word) && Semicolons(close)
    && (rest == "" || IsWhitespace(rest[0]))
  }

  lemma {:induction false} TakeWordOf(word: string, rest: string)
    requires forall c | c in word :: !IsWhitespace(c)
    requires rest == "" || IsWhitespace(rest[0])
    ensures TakeWord(word + rest) == word
  {
    if word == "" {
      assert word + rest == rest;
    } else {
      assert (word + rest)[1..] == word[1..] + rest;
      TakeWordOf(word[1..], rest);
    }
  }

  lemma {:induction false} TrimmedOf(open: string, word: string, close: string)
    requires Semicolons(open) && IsWord(word) && Semicolons(close)
    ensures TrimSemicolons(open + word + close) == word
    decreases |open| + |close|
  {
    var s := open + word + close;
    if open != "" {
      assert s[0] == open[0] && s[1..] == open[1..] + word + close;
      TrimmedOf(open[1..], word, close);
    } else if close != "" {
      assert s[|s| - 1] == close[|close| - 1] && s[..|s| - 1] == open + word + close[..|close| - 1];
      if s[0] == ';' {
        assert word == "" && s[1..] == open + word + close[1..];
        TrimmedOf(open, word, close[1..]);
      } else {
        TrimmedOf(open, word, close[..|close| - 1]);
      }
    } else {
      assert s == word;
    }
  }

  /** Whatever the statement, its first word is the one it starts with, in lower case. */
  lemma FirstWordIs(sql: string, word: string, before: string, open: string, close: string, rest: string, lower: string)
    requires StartsWithWord(sql, word, before, open, close, rest)
    requires Spells(word, lower) && forall c | c in lower :: !('A' <= c <= 'Z')
    ensures FirstWord(sql) == Some(lower)
  {
    var text := open + word + close;
    forall c | c in text ensures !IsWhitespace(c) {
      assert c in open || c in word || c in close;
    }
    assert sql == before + (text + rest) && (text + rest)[0] == text[0] && text[0] in text;
    TrimStartSkips(before, text + rest);
    TakeWordOf(text, rest);
    TrimmedOf(open, word, close);
    forall i | 0 <= i < |word| ensures LowerAll(word)[i] == lower[i] {
      assert SameLetter(word[i], lower[i]) && lower[i] in lower;
    }
    assert LowerAll(word) == lower;
  }

  lemma {:induction false} BlankHasNoWord(sql: string)
    requires Blank(sql)
    ensures FirstWord(sql) == None
  {
    if sql != "" {
      assert TrimStart(sql) == TrimStart(sql[1..]);
      BlankHasNoWord(sql[1..]);
    }
  }

  ghost predicate SpellsOne(word: string, words: set<string>) {
    exists w | w in words :: Spells(word, w)
  }

  lemma SpellingIsFolding(word: string, lower: string, w: string)
    requires |lower| == |word| && forall i | 0 <= i < |word| :: lower[i] == Lower(word[i])
    requires forall i | 0 <= i < |w| :: Lower(w[i]) == w[i]
    ensures Spells(word, w) <==> lower == w
  {
    FoldingIsSpelling(word, w);
    if EqualIgnoringCase(word, w) {
      assert forall i | 0 <= i < |w| :: lower[i] == Lower(word[i]) == Lower(w[i]) == w[i];
    }
  }

  lemma LowerStays(w: string)
    requires w in {"select", "with", "pragma", "explain", "values", "create", "alter", "drop"}
    ensures forall i | 0 <= i < |w| :: Lower(w[i]) == w[i]
  {
  }

  /** Which operations are passed on to the engine: a write always; a read whose first
      word, in any case, is one of five; a schema change whose first word is one of
      three, and which binds nothing if it is several statements; and none with a NUL. */
  lemma AdmittedIff(op: Operation, word: string, before: string, open: string, close: string, rest: string)
    requires StartsWithWord(op.sql, word, before, open, close, rest)
    ensures op.kind.Read? ==>
              (Admitted(op) <==> NUL !in op.sql && SpellsOne(word, {"select", "with", "pragma", "explain", "values"}))
    ensures op.kind.Schema? ==>
              (Admitted(op) <==>
                NUL !in op.sql && SpellsOne(word, {"create", "alter", "drop"}) && (Splits(op.sql) ==> op.params == []))
    ensures op.kind.Write? ==> (Admitted(op) <==> NUL !in op.sql)
  {
    var lower := LowerAll(word);
    forall i | 0 <= i < |word| ensures SameLetter(word[i], lower[i]) && !('A' <= lower[i] <= 'Z') {}
    FirstWordIs(op.sql, word, before, open, close, rest, lower);
    forall w | w in {"select", "with", "pragma", "explain", "values", "create", "alter", "drop"}
      ensures Spells(word, w) <==> lower == w
    {
      LowerStays(w);
      SpellingIsFolding(word, lower, w);
    }
  }

  /** A statement that is nothing but white space is passed on only as a write. */
  lemma BlankAdmittedIff(op: Operation)
    requires Blank(op.sql)
    ensures Admitted(op) <==> op.kind.Write? && NUL !in op.sql
  {
    BlankHasNoWord(op.sql);
  }

  lemma {:induction false} AfterBlank(sql: string) returns (before: string, text: string)
    requires !Blank(sql)
    ensures sql == before + text && Blank(before) && text != "" && !IsWhitespace(text[0])
  {
    if IsWhitespace(sql[0]) {
      assert sql == [sql[0]] + sql[1..] && !Blank(sql[1..]);
      before, text := AfterBlank(sql[1..]);
      before := [sql[0]] + before;
    } else {
      before, text := "", sql;
    }
  }

  lemma {:induction false} UpToBlank(text: string) returns (body: string, rest: string)
    ensures text == body + rest && (forall c | c in body :: !IsWhitespace(c)) && (rest == "" || IsWhitespace(rest[0]))
    ensures text != "" && !IsWhitespace(text[0]) ==> body != ""
  {
    if text == "" || IsWhitespace(text[0]) {
      body, rest := "", text;
    } else {
      body, rest := UpToBlank(text[1..]);
      assert text == [text[0]] + text[1..];
      body := [text[0]] + body;
    }
  }

  lemma {:induction false} Peel(body: string) returns (open: string, word: string, close: string)
    requires forall c | c in body :: !IsWhitespace(c)
    ensures body == open + word + close && Semicolons(open) && IsWord(word) && Semicolons(close)
    decreases |body|
  {
    if body != "" && body[0] == ';' {
      assert body == [';'] + body[1..];
      open, word, close := Peel(body[1..]);
      open := [';'] + open;
    } else if body != "" && body[|body| - 1] == ';' {
      assert body == body[..|body| - 1] + [';'];
      open, word, close := Peel(body[..|body| - 1]);
      close := close + [';'];
    } else {
      open, word, close := "", body, "";
    }
  }

  /** Every other statement starts with a word. */
  lemma SomeFirstWord(sql: string) returns (word: string, before: string, open: string, close: string, rest: string)
    requires !Blank(sql)
    ensures StartsWithWord(sql, word, before, open, close, rest)
  {
    var text, body;
    before, text := AfterBlank(sql);
    body, rest := UpToBlank(text);
    open, word, close := Peel(body);
    assert sql == before + open + word + close + rest;
  }
}
