/** The logical rebuild: every table of the source copied through SQL text and
    JSON values into a fresh database, then checked. */
module Rebuild {
  import opened Wrappers
  import opened Databases
  import Cells
  import opened SqlText

  /** SQLite's own table of AUTOINCREMENT counters. Its contents are SQLite's to
      change on any insert, so nothing is claimed of them. */
  const SEQUENCE := "sqlite_sequence"

  // The catalogue query

  function ByName(objects: seq<SchemaObject>): (sorted: seq<SchemaObject>)
    ensures multiset(sorted) == multiset(objects)
  {
    if objects == [] then []
    else
      assert objects == [objects[0]] + objects[1..];
      InsertByName(objects[0], ByName(objects[1..]))
  }

  function InsertByName(o: SchemaObject, sorted: seq<SchemaObject>): (inserted: seq<SchemaObject>)
    ensures multiset(inserted) == multiset(sorted) + multiset{o}
  {
    if sorted == [] || NameAtMost(o.name, sorted[0].name) then [o] + sorted
    else
      assert sorted == [sorted[0]] + sorted[1..];
      [sorted[0]] + InsertByName(o, sorted[1..])
  }

  predicate NameAtMost(a: string, b: string) {
    a == "" || (b != "" && (a[0] < b[0] || (a[0] == b[0] && NameAtMost(a[1..], b[1..]))))
  }

  function OfKind(objects: seq<SchemaObject>, kind: string): seq<SchemaObject> {
    ByName(Select(objects, o => IsListed(o) && o.kind == kind))
  }

  /** `schema_objects`: tables first, then indexes, views, triggers, and the rest. */
  function SchemaObjects(source: Database): seq<SchemaObject> {
    OfKind(source.objects, "table") + OfKind(source.objects, "index")
    + OfKind(source.objects, "view") + OfKind(source.objects, "trigger")
    + ByName(Select(source.objects, o => IsListed(o) && !IsTable(o) && !IsDependent(o)))
  }

  lemma ListedOnce(all: seq<SchemaObject>, o: SchemaObject)
    ensures multiset(Select(all, IsListed))[o]
            == multiset(OfKind(all, "table"))[o] + multiset(OfKind(all, "index"))[o]
               + multiset(OfKind(all, "view"))[o] + multiset(OfKind(all, "trigger"))[o]
               + multiset(Select(all, x => IsListed(x) && !IsTable(x) && !IsDependent(x)))[o]
  {
    SelectCounts(all, x => IsListed(x) && x.kind == "table", o);
    SelectCounts(all, x => IsListed(x) && x.kind == "index", o);
    SelectCounts(all, x => IsListed(x) && x.kind == "view", o);
    SelectCounts(all, x => IsListed(x) && x.kind == "trigger", o);
    SelectCounts(all, x => IsListed(x) && !IsTable(x) && !IsDependent(x), o);
    SelectCounts(all, IsListed, o);
  }

  lemma CountsAdd<T>(a: seq<T>, b: seq<T>, c: seq<T>, d: seq<T>, e: seq<T>, x: T)
    ensures multiset(a + b + c + d + e)[x]
            == multiset(a)[x] + multiset(b)[x] + multiset(c)[x] + multiset(d)[x] + multiset(e)[x]
  {
  }

  /** The query returns the listed rows, each as often as the catalogue has it. */
  lemma CatalogueComplete(source: Database)
    ensures multiset(SchemaObjects(source)) == multiset(Select(source.objects, IsListed))
  {
    var all := source.objects;
    var tables, indexes, views, triggers := OfKind(all, "table"), OfKind(all, "index"), OfKind(all, "view"), OfKind(all, "trigger");
    var rest := ByName(Select(all, x => IsListed(x) && !IsTable(x) && !IsDependent(x)));
    assert SchemaObjects(source) == tables + indexes + views + triggers + rest;
    forall o: SchemaObject
      ensures multiset(SchemaObjects(source))[o] == multiset(Select(source.objects, IsListed))[o]
    {
      ListedOnce(all, o);
      CountsAdd(tables, indexes, views, triggers, rest, o);
    }
  }

  // The order of the query's rows

  function Rank(o: SchemaObject): nat {
    if o.kind == "table" then 0 else if o.kind == "index" then 1 else if o.kind == "view" then 2 else if o.kind == "trigger" then 3 else 4
  }

  /** The one name is the other's beginning, or smaller where they first differ. */
  ghost predicate ComesBefore(a: string, b: string) {
    exists n | 0 <= n <= |a| && n <= |b| :: a[..n] == b[..n] && (n == |a| || (n < |b| && a[n] < b[n]))
  }

  lemma {:induction false} NameOrder(a: string, b: string)
    ensures NameAtMost(a, b) <==> ComesBefore(a, b)
  {
    if a == "" {
      assert a[..0] == b[..0];
    } else if b != "" {
      if a[0] < b[0] {
        assert a[..0] == b[..0] && 0 < |b|;
      } else {
        NameOrder(a[1..], b[1..]);
        if a[0] == b[0] && ComesBefore(a[1..], b[1..]) {
          var n :| 0 <= n <= |a[1..]| && n <= |b[1..]| && a[1..][..n] == b[1..][..n] && (n == |a[1..]| || (n < |b[1..]| && a[1..][n] < b[1..][n]));
          assert a[..n + 1] == [a[0]] + a[1..][..n] && b[..n + 1] == [b[0]] + b[1..][..n];
        }
        if ComesBefore(a, b) {
          var n :| 0 <= n <= |a| && n <= |b| && a[..n] == b[..n] && (n == |a| || (n < |b| && a[n] < b[n]));
          assert n > 0;
          assert a[..n][0] == b[..n][0];
          assert a[1..][..n - 1] == a[..n][1..] && b[1..][..n - 1] == b[..n][1..];
        }
      }
    }
  }

  ghost predicate InOrder(a: SchemaObject, b: SchemaObject) {
    Rank(a) < Rank(b) || (Rank(a) == Rank(b) && ComesBefore(a.name, b.name))
  }

  ghost predicate AllInOrder(objects: seq<SchemaObject>) {
    forall i, j | 0 <= i < j < |objects| :: InOrder(objects[i], objects[j])
  }

  lemma {:induction false} NamesTotal(a: string, b: string)
    ensures NameAtMost(a, b) || NameAtMost(b, a)
  {
    if a != "" && b != "" && a[0] == b[0] { NamesTotal(a[1..], b[1..]); }
  }

  lemma {:induction false} NamesTransitive(a: string, b: string, c: string)
    requires NameAtMost(a, b) && NameAtMost(b, c)
    ensures NameAtMost(a, c)
  {
    if a != "" && a[0] == b[0] && b[0] == c[0] { NamesTransitive(a[1..], b[1..], c[1..]); }
  }

  ghost predicate NamesClimb(objects: seq<SchemaObject>) {
    forall i, j | 0 <= i < j < |objects| :: NameAtMost(objects[i].name, objects[j].name)
  }

  lemma {:induction false} InsertClimbs(o: SchemaObject, sorted: seq<SchemaObject>)
    requires NamesClimb(sorted)
    ensures NamesClimb(InsertByName(o, sorted))
  {
    if sorted == [] || NameAtMost(o.name, sorted[0].name) {
      forall j | 0 <= j < |sorted| ensures NameAtMost(o.name, sorted[j].name) {
        if j > 0 { NamesTransitive(o.name, sorted[0].name, sorted[j].name); }
      }
    } else {
      InsertClimbs(o, sorted[1..]);
      NamesTotal(o.name, sorted[0].name);
      var rest := InsertByName(o, sorted[1..]);
      forall j | 0 <= j < |rest| ensures NameAtMost(sorted[0].name, rest[j].name) {
        assert rest[j] in multiset(rest);
        assert rest[j] == o || rest[j] in sorted[1..];
      }
    }
  }

  lemma {:induction false} SortingClimbs(objects: seq<SchemaObject>)
    ensures NamesClimb(ByName(objects))
  {
    if objects != [] {
      SortingClimbs(objects[1..]);
      InsertClimbs(objects[0], ByName(objects[1..]));
    }
  }

  /** One kind's rows are in order, and of that kind. */
  lemma OneKindInOrder(sorted: seq<SchemaObject>, chosen: seq<SchemaObject>, rank: nat)
    requires sorted == ByName(chosen) && forall o | o in chosen :: Rank(o) == rank
    ensures AllInOrder(sorted) && forall o | o in sorted :: Rank(o) == rank
  {
    SortingClimbs(chosen);
    forall o | o in sorted ensures Rank(o) == rank {
      assert o in multiset(sorted);
    }
    forall i, j | 0 <= i < j < |sorted| ensures InOrder(sorted[i], sorted[j]) {
      NameOrder(sorted[i].name, sorted[j].name);
    }
  }

  lemma OrderAppends(a: seq<SchemaObject>, b: seq<SchemaObject>, rank: nat)
    requires AllInOrder(a) && AllInOrder(b) && (forall o | o in a :: Rank(o) < rank) && forall o | o in b :: Rank(o) == rank
    ensures AllInOrder(a + b) && forall o | o in a + b :: Rank(o) < rank + 1
  {
    forall i, j | 0 <= i < j < |a + b| ensures InOrder((a + b)[i], (a + b)[j]) {
      if i < |a| <= j { assert a[i] in a && b[j - |a|] in b; }
    }
  }

  /** The query returns tables first, then indexes, views and triggers, each kind in
      order of name. */
  lemma CatalogueInOrder(source: Database)
    ensures AllInOrder(SchemaObjects(source))
  {
    var all := source.objects;
    var tables, indexes, views, triggers := OfKind(all, "table"), OfKind(all, "index"), OfKind(all, "view"), OfKind(all, "trigger");
    OneKindInOrder(tables, Select(all, o => IsListed(o) && o.kind == "table"), 0);
    OneKindInOrder(indexes, Select(all, o => IsListed(o) && o.kind == "index"), 1);
    OneKindInOrder(views, Select(all, o => IsListed(o) && o.kind == "view"), 2);
    OneKindInOrder(triggers, Select(all, o => IsListed(o) && o.kind == "trigger"), 3);
    var others := Select(all, o => IsListed(o) && !IsTable(o) && !IsDependent(o));
    OneKindInOrder(ByName(others), others, 4);
    OrderAppends([], tables, 0);
    assert [] + tables == tables;
    OrderAppends(tables, indexes, 1);
    OrderAppends(tables + indexes, views, 2);
    OrderAppends(tables + indexes + views, triggers, 3);
    OrderAppends(tables + indexes + views + triggers, ByName(others), 4);
  }

  // Rows

  function Column(row: seq<Cell>, k: nat): Cell {
    if k < |row| then row[k] else Null
  }

  /** The first `n` cells of a row as parameters, or nothing if one cannot be read. */
  function RowParameters(row: seq<Cell>, n: nat): (params: Option<seq<Cells.Parameter>>)
    ensures params.Some? ==> |params.value| == n
  {
    if n == 0 then Some([])
    else
      match RowParameters(row, n - 1)
      case None => None
      case Some(before) =>
        match Cells.Value(Column(row, n - 1))
        case None => None
        case Some(v) =>
          match Cells.FromValue(v)
          case None => None
          case Some(p) => Some(before + [p])
  }

  function BindAll(params: seq<Cells.Parameter>): (cells: seq<Cell>)
    ensures |cells| == |params|
  {
    seq(|params|, k requires 0 <= k < |params| => Cells.Bind(params[k]))
  }

  predicate Readable(c: Cell) {
    c != Real(NonFinite) && !c.Garbled?
  }

  /** A row makes the trip as it is, or has a cell that is refused. */
  lemma {:induction false} RowSurvives(row: seq<Cell>, n: nat)
    ensures RowParameters(row, n).Some? <==> forall k | 0 <= k < n :: Readable(Column(row, k))
    ensures RowParameters(row, n).Some? ==>
              forall k | 0 <= k < n :: BindAll(RowParameters(row, n).value)[k] == Column(row, k)
  {
    if n > 0 {
      RowSurvives(row, n - 1);
      Cells.CellSurvives(Column(row, n - 1));
      if RowParameters(row, n).Some? {
        forall k | 0 <= k < n ensures BindAll(RowParameters(row, n).value)[k] == Column(row, k) {
          if k < n - 1 {
            assert BindAll(RowParameters(row, n).value)[k] == BindAll(RowParameters(row, n - 1).value)[k];
          }
        }
      }
    }
  }

  // The destination

  predicate HasTrigger(db: Database) {
    exists o | o in db.objects :: o.kind == "trigger"
  }

  type Tables = map<string, Table>

  /** The same tables, apart from the AUTOINCREMENT counters. */
  ghost predicate SameTables(t: Tables, u: Tables) {
    && (forall name | name in t && name != SEQUENCE :: name in u)
    && (forall name | name in u && name != SEQUENCE :: name in t && t[name] == u[name])
  }

  /** Everything but the tables is as it was. */
  ghost predicate SameCatalogue(d: Database, e: Database) {
    e.(tables := d.tables) == d
  }

  /** What a successful CREATE statement did. */
  ghost predicate Executed(engine: Engine, sql: string, d: Database, e: Database) {
    match engine.creates(sql)
    case None => false
    case Some(NewTable(o, columns)) =>
      o.name !in d.tables && SameTables(e.tables, d.tables[o.name := Table(columns, [])]) && Filed(d, e, o)
    case Some(NewOther(o)) => SameTables(e.tables, d.tables) && Filed(d, e, o)
  }

  /** The CREATE statement is one, and makes no table that is there. */
  predicate CanCreate(engine: Engine, sql: string, d: Database) {
    && NUL !in sql
    && match engine.creates(sql)
       case None => false
       case Some(NewTable(o, _)) => o.name !in d.tables
       case Some(NewOther(_)) => true
  }

  /** The catalogue gained `o`, and perhaps rows of SQLite's own. */
  ghost predicate Filed(d: Database, e: Database, o: SchemaObject) {
    && e.(tables := d.tables, objects := d.objects) == d
    && Select(e.objects, IsListed) == Select(d.objects, IsListed) + (if IsListed(o) then [o] else [])
    && (HasTrigger(e) <==> HasTrigger(d) || o.kind == "trigger")
    && (forall x | x in e.objects :: x in d.objects || x == o || Own(x))
  }

  /** A row SQLite files by itself, under a name it reserves. */
  predicate Own(o: SchemaObject) {
    Reserved(o.name) && o.kind != "trigger"
  }

  /** The table is there with those columns, and takes so many values. */
  predicate Takes(tables: Tables, to: Target, values: nat) {
    to.table in tables && tables[to.table].columns == to.columns && values == to.values
  }

  lemma SelectOne(o: SchemaObject)
    ensures Select([o], IsListed) == if IsListed(o) then [o] else []
  {
    assert [o][1..] == [];
  }

  lemma ListedAfterFiling(objects: seq<SchemaObject>, o: SchemaObject, own: seq<SchemaObject>)
    requires forall x | x in own :: Own(x)
    ensures Select(objects + [o] + own, IsListed) == Select(objects, IsListed) + (if IsListed(o) then [o] else [])
  {
    SelectAppends(objects + [o], own, IsListed);
    SelectAppends(objects, [o], IsListed);
    PatternIsWider();
    NothingListed(own);
    SelectOne(o);
  }

  lemma FilingAdds(d: Database, o: SchemaObject, extra: seq<SchemaObject>, tables: Tables)
    ensures Filed(d, d.(objects := d.objects + [o] + Select(extra, Own), tables := tables), o)
  {
    var objects := d.objects + [o] + Select(extra, Own);
    ListedAfterFiling(d.objects, o, Select(extra, Own));
    forall x ensures x in objects <==> x in d.objects || x == o || x in Select(extra, Own) {}
  }

  lemma {:induction false} NothingListed(own: seq<SchemaObject>)
    requires forall o | o in own :: !IsListed(o)
    ensures Select(own, IsListed) == []
  {
    if own != [] { NothingListed(own[1..]); }
  }

  /** The database being built, through its SQLite handle. */
  class Destination {
    const engine: Engine
    var db: Database
    /** The integrity check has passed since the last change. */
    var checked: bool
    /** How often SQLite has refused what was asked of it, of either database. */
    ghost var refusals: nat
    /** How often it has left the journal mode as it was, without an error. */
    ghost var declines: nat

    constructor (engine: Engine)
      ensures this.engine == engine && db == Database([], map[], 0, 0, Delete) && !checked
      ensures refusals == 0 && declines == 0
    {
      this.engine, db, checked, refusals, declines := engine, Database([], map[], 0, 0, Delete), false, 0, 0;
    }

    ghost method Refusing(refused: bool)
      modifies this`refusals
      ensures refusals == old(refusals) + if refused then 1 else 0
    {
      refusals := refusals + if refused then 1 else 0;
    }

    /** `exec_sql` of one CREATE statement. */
    method Exec(sql: string) returns (r: Result<(), Failure>)
      modifies this
      ensures r.Ok? ==> Executed(engine, sql, old(db), db)
      ensures r.Err? ==> db == old(db) && r.error.Plain?
      ensures refusals >= old(refusals)
      ensures refusals == old(refusals) ==> (r.Ok? <==> CanCreate(engine, sql, old(db)))
      ensures !checked && declines == old(declines) && (r.Ok? ==> refusals == old(refusals))
    {
      var fault: bool := *;
      checked := false;
      Refusing(fault);
      if fault || NUL in sql {
        return Err(Plain("sqlite_error"));
      }
      var extra: seq<SchemaObject> := *;
      var counters: Table := *;
      r := Ok(());
      match engine.creates(sql)
      case None => return Err(Plain("sqlite_error"));
      case Some(NewTable(o, columns)) =>
        if o.name in db.tables { return Err(Plain("sqlite_error")); }
        var tables := db.tables[o.name := Table(columns, [])];
        tables := if extra == [] || o.name == SEQUENCE then tables else tables[SEQUENCE := counters];
        FilingAdds(db, o, extra, tables);
        db := db.(objects := db.objects + [o] + Select(extra, Own), tables := tables);
      case Some(NewOther(o)) =>
        FilingAdds(db, o, [], db.tables);
        db := db.(objects := db.objects + [o] + Select([], Own));
    }

    /** `execute_write` of one insert. A trigger may change any table. What goes
        wrong with SQLite's own counters counts as a refusal. */
    method Insert(sql: string, params: seq<Cells.Parameter>) returns (r: Result<(), Failure>)
      modifies this
      ensures SameCatalogue(old(db), db)
      ensures r.Err? ==> db == old(db) && r.error.Plain?
      ensures r.Ok? ==>
                && ParseInsert(sql).Some?
                && var to := ParseInsert(sql).value;
                && to.table in old(db.tables) && to.values == |params| && to.columns == old(db.tables[to.table].columns)
                && (!HasTrigger(old(db)) ==>
                      var t := old(db.tables[to.table]);
                      SameTables(db.tables, old(db.tables)[to.table := t.(rows := t.rows + [AsStored(engine, to.table, BindAll(params))])]))
      ensures refusals >= old(refusals)
      ensures refusals == old(refusals) && NUL !in sql && ParseInsert(sql).Some? ==>
                (r.Ok? <==> ParseInsert(sql).value.table == SEQUENCE || Takes(old(db.tables), ParseInsert(sql).value, |params|))
      ensures NUL in sql ==> r.Err?
      ensures !checked && declines == old(declines) && (r.Ok? ==> refusals == old(refusals))
    {
      var fault: bool := *;
      checked := false;
      var target := ParseInsert(sql);
      Refusing(fault || (target.Some? && target.value.table == SEQUENCE && !Takes(db.tables, target.value, |params|)));
      if fault || NUL in sql || target == None {
        return Err(Plain("sqlite_error"));
      }
      var to := target.value;
      if to.table !in db.tables || db.tables[to.table].columns != to.columns || |params| != to.values {
        return Err(Plain("sqlite_error"));
      }
      if HasTrigger(db) {
        var tables: Tables := *;
        db := db.(tables := tables);
      } else {
        var t := db.tables[to.table];
        var tables := db.tables[to.table := t.(rows := t.rows + [AsStored(engine, to.table, BindAll(params))])];
        var counters: Table := *;
        db := db.(tables := if SEQUENCE in tables then tables[SEQUENCE := counters] else tables);
      }
      return Ok(());
    }

    /** `PRAGMA journal_mode = …`: the engine may decline without an error. */
    method SetJournal(mode: JournalMode) returns (r: Result<(), Failure>)
      modifies this
      ensures db == old(db).(journal := if r.Ok? && declines == old(declines) then mode else old(db).journal)
      ensures r.Err? ==> r.error.Plain?
      ensures refusals >= old(refusals) && old(declines) <= declines <= old(declines) + 1
      ensures r.Ok? <==> refusals == old(refusals)
      ensures !checked
    {
      var fault: bool := *;
      var declined: bool := *;
      Refusing(fault);
      checked := false;
      if fault { return Err(Plain("sqlite_error")); }
      if declined {
        declines := declines + 1;
      } else {
        db := db.(journal := mode);
      }
      return Ok(());
    }

    method SetVersions(user: Int64, application: Int64) returns (r: Result<(), Failure>)
      modifies this
      ensures r.Ok? ==> db == old(db).(userVersion := user, applicationId := application)
      ensures r.Err? ==> r.error.Plain?
      ensures refusals >= old(refusals) && (r.Ok? <==> refusals == old(refusals)) && declines == old(declines)
      ensures !checked
    {
      checked := false;
      var fault: bool := *;
      Refusing(fault);
      if fault { return Err(Plain("sqlite_error")); }
      db := db.(userVersion := user);
      fault := *;
      Refusing(fault);
      if fault { return Err(Plain("sqlite_error")); }
      db := db.(applicationId := application);
      return Ok(());
    }

    /** `verify_integrity`: all messages are "ok"; the journal mode found. */
    method VerifyIntegrity() returns (r: Result<JournalMode, Failure>)
      modifies this`checked, this`refusals
      ensures r.Ok? ==> checked && r.value == db.journal
      ensures r.Err? ==> r.error.Plain?
      ensures refusals >= old(refusals) && (r.Ok? <==> refusals == old(refusals))
      ensures r.Err? ==> checked == old(checked)
      ensures r.Err? ==> r.error == Plain("integrity_check_failed")
    {
      var damaged: bool := *;
      Refusing(damaged);
      if damaged { return Err(Plain("integrity_check_failed")); }
      checked := true;
      return Ok(db.journal);
    }
  }

  // The copy of one table

  /** The rows a select in the copy's form scans. */
  function Scan(source: Database, sql: string): Option<seq<seq<Cell>>> {
    match ParseSelect(sql)
    case None => None
    case Some(from) =>
      if from.table in source.tables && source.tables[from.table].columns == from.columns
      then Some(source.tables[from.table].rows) else None
  }

  ghost predicate Fits(rows: seq<seq<Cell>>, n: nat) {
    forall row | row in rows :: |row| == n
  }

  ghost predicate AllReadable(rows: seq<seq<Cell>>) {
    forall row | row in rows :: forall c | c in row :: Readable(c)
  }

  /** A select of the table's columns, and the insert it feeds, can be run, and every
      cell that is scanned can be read. */
  ghost predicate Copyable(source: Database, table: string) {
    table in source.tables && source.tables[table].columns != [] ==>
      && !HasNul(table, source.tables[table].columns)
      && AllPass(source.tables[table].rows, |source.tables[table].columns|)
  }

  /** The first `n` cells of the row can be read. */
  ghost predicate Passes(row: seq<Cell>, n: nat) {
    forall k | 0 <= k < n :: Readable(Column(row, k))
  }

  ghost predicate AllPass(rows: seq<seq<Cell>>, n: nat) {
    forall row | row in rows :: Passes(row, n)
  }

  lemma PassedAreReadable(rows: seq<seq<Cell>>, n: nat)
    requires AllPass(rows, n) && Fits(rows, n)
    ensures AllReadable(rows)
  {
    forall row, c | row in rows && c in row ensures Readable(c) {
      var k :| 0 <= k < |row| && row[k] == c;
      assert Passes(row, n) && Column(row, k) == c;
    }
  }

  /** The destination takes rows of the table: it is there as in the source, or it
      is SQLite's own. */
  ghost predicate ReadyFor(tables: Tables, table: string, columns: seq<string>) {
    table == SEQUENCE || (table in tables && tables[table].columns == columns)
  }

  /** `copy_table_rows`: on success the destination's table holds, after what it
      held before, exactly the scanned rows in order, each as affinity stores it,
      and no cell was one that cannot be read. */
  method CopyTableRows(source: Database, destination: Destination, table: string) returns (r: Result<(), Failure>)
    modifies destination
    ensures SameCatalogue(old(destination.db), destination.db)
    ensures r.Err? ==> r.error.Plain?
    ensures r.Ok? && table in source.tables && source.tables[table].columns != [] && !HasTrigger(old(destination.db)) ==>
              && var t := source.tables[table];
              && (Fits(t.rows, |t.columns|) ==> AllReadable(t.rows))
              && (table in old(destination.db.tables) && old(destination.db.tables[table].columns) == t.columns && Fits(t.rows, |t.columns|) ==>
                    SameTables(destination.db.tables, Appended(destination.engine, old(destination.db.tables), table, t.rows)))
    ensures r.Ok? && table == SEQUENCE && !HasTrigger(old(destination.db)) ==>
              SameTables(destination.db.tables, old(destination.db.tables))
    ensures destination.refusals >= old(destination.refusals)
    ensures destination.refusals == old(destination.refusals) && !HasTrigger(old(destination.db))
            && (table in source.tables ==> ReadyFor(old(destination.db.tables), table, source.tables[table].columns)) ==>
              (r.Ok? <==> Copyable(source, table))
    ensures destination.declines == old(destination.declines) && (r.Ok? ==> destination.refusals == old(destination.refusals))
  {
    var unreadable: bool := *;
    destination.Refusing(unreadable);
    if unreadable { return Err(Plain("sqlite_error")); }
    var columns := if table in source.tables then source.tables[table].columns else [];
    if columns == [] { return Ok(()); }
    var select, insert := SelectSql(table, columns), InsertSql(table, columns);
    SelectNamesItsTable(table, columns);
    InsertNamesItsTable(table, columns);
    NulComesFromNames(table, columns);
    var rows := Scan(source, select);
    if NUL in select || rows == None {
      return Err(Plain("sqlite_error"));
    }
    r := CopyRows(destination, table, columns, insert, rows.value);
    if r.Ok? && Fits(rows.value, |columns|) { PassedAreReadable(rows.value, |columns|); }
  }

  ghost function Appended(engine: Engine, tables: Tables, table: string, rows: seq<seq<Cell>>): Tables
    requires table in tables
  {
    tables[table := tables[table].(rows := tables[table].rows + AllAsStored(engine, table, rows))]
  }

  /** Scan, read, bind, insert, row by row. */
  method CopyRows(destination: Destination, table: string, columns: seq<string>, insert: string, rows: seq<seq<Cell>>)
    returns (r: Result<(), Failure>)
    requires ParseInsert(insert) == Some(Target(table, columns, |columns|)) && NUL !in insert
    modifies destination
    ensures SameCatalogue(old(destination.db), destination.db)
    ensures r.Err? ==> r.error.Plain?
    ensures r.Ok? ==> AllPass(rows, |columns|)
    ensures r.Ok? && !HasTrigger(old(destination.db)) ==>
              Copied(destination.engine, old(destination.db.tables), destination.db.tables, table, |columns|, rows)
    ensures destination.refusals >= old(destination.refusals)
    ensures destination.refusals == old(destination.refusals) && !HasTrigger(old(destination.db))
            && ReadyFor(old(destination.db.tables), table, columns) ==>
              (r.Ok? <==> AllPass(rows, |columns|))
    ensures destination.declines == old(destination.declines) && (r.Ok? ==> destination.refusals == old(destination.refusals))
  {
    var i := 0;
    NothingCopied(destination.engine, destination.db.tables, table, |columns|);
    while i < |rows|
      invariant 0 <= i <= |rows|
      invariant destination.refusals == old(destination.refusals) && destination.declines == old(destination.declines)
      invariant CopiedSoFar(destination.engine, old(destination.db), destination.db, table, columns, rows[..i])
    {
      ghost var before := destination.db;
      r := CopyRow(destination, table, |columns|, columns, insert, rows[i]);
      if r.Err? { return; }
      assert rows[..i + 1] == rows[..i] + [rows[i]];
      OneMoreRow(destination.engine, old(destination.db), before, destination.db, table, columns, rows[..i], rows[i]);
      i := i + 1;
    }
    assert rows[..|rows|] == rows;
    return Ok(());
  }

  /** The rows have been read and inserted, and the destination takes more of them. */
  ghost predicate CopiedSoFar(engine: Engine, start: Database, db: Database, table: string, columns: seq<string>, rows: seq<seq<Cell>>) {
    && SameCatalogue(start, db) && AllPass(rows, |columns|)
    && (!HasTrigger(start) ==>
          && Copied(engine, start.tables, db.tables, table, |columns|, rows)
          && (ReadyFor(start.tables, table, columns) ==> ReadyFor(db.tables, table, columns)))
  }

  lemma OneMoreRow(engine: Engine, start: Database, before: Database, db: Database, table: string, columns: seq<string>,
                   rows: seq<seq<Cell>>, row: seq<Cell>)
    requires CopiedSoFar(engine, start, before, table, columns, rows) && SameCatalogue(before, db) && table in before.tables
    requires Passes(row, |columns|)
    requires !HasTrigger(before) && |row| == |columns| ==>
               var t := before.tables[table];
               SameTables(db.tables, before.tables[table := t.(rows := t.rows + [AsStored(engine, table, row)])])
    requires !HasTrigger(before) && table == SEQUENCE ==> SameTables(db.tables, before.tables)
    requires !HasTrigger(before) && ReadyFor(before.tables, table, columns) ==> ReadyFor(db.tables, table, columns)
    ensures CopiedSoFar(engine, start, db, table, columns, rows + [row])
  {
    if !HasTrigger(start) {
      OneMoreCopied(engine, start.tables, table, |columns|, rows, row, before.tables, db.tables);
    }
  }

  /** The rows have been appended to the table, or only counters have changed. */
  ghost predicate Copied(engine: Engine, tables: Tables, t: Tables, table: string, n: nat, rows: seq<seq<Cell>>) {
    && (table in tables && Fits(rows, n) ==> SameTables(t, Appended(engine, tables, table, rows)))
    && (table == SEQUENCE ==> SameTables(t, tables))
  }

  lemma NothingCopied(engine: Engine, tables: Tables, table: string, n: nat)
    ensures Copied(engine, tables, tables, table, n, [])
  {
    NothingAppended(engine, tables, table);
  }

  lemma OneMoreCopied(engine: Engine, tables: Tables, table: string, n: nat, rows: seq<seq<Cell>>, row: seq<Cell>, t: Tables, u: Tables)
    requires Copied(engine, tables, t, table, n, rows) && table in t
    requires |row| == n ==> SameTables(u, t[table := t[table].(rows := t[table].rows + [AsStored(engine, table, row)])])
    requires table == SEQUENCE ==> SameTables(u, t)
    ensures Copied(engine, tables, u, table, n, rows + [row])
  {
    if table in tables && Fits(rows + [row], n) {
      assert row in rows + [row];
      assert forall x | x in rows :: x in rows + [row];
      OneMoreAppended(engine, tables, table, rows, row, t, u);
    }
  }

  /** One step of the scan: read the row's cells, then insert them. */
  method CopyRow(destination: Destination, table: string, n: nat, columns: seq<string>, insert: string, row: seq<Cell>)
    returns (r: Result<(), Failure>)
    requires n == |columns| && ParseInsert(insert) == Some(Target(table, columns, n)) && NUL !in insert
    modifies destination
    ensures SameCatalogue(old(destination.db), destination.db)
    ensures r.Err? ==> r.error.Plain?
    ensures r.Ok? ==> table in old(destination.db.tables)
    ensures r.Ok? ==> Passes(row, n)
    ensures r.Ok? && !HasTrigger(old(destination.db)) && table in old(destination.db.tables) && |row| == n ==>
              var t := old(destination.db.tables[table]);
              SameTables(destination.db.tables,
                         old(destination.db.tables)[table := t.(rows := t.rows + [AsStored(destination.engine, table, row)])])
    ensures r.Ok? && !HasTrigger(old(destination.db)) && table == SEQUENCE ==>
              SameTables(destination.db.tables, old(destination.db.tables))
    ensures r.Ok? && !HasTrigger(old(destination.db)) && ReadyFor(old(destination.db.tables), table, columns) ==>
              ReadyFor(destination.db.tables, table, columns)
    ensures destination.refusals >= old(destination.refusals)
    ensures destination.refusals == old(destination.refusals) && ReadyFor(old(destination.db.tables), table, columns) ==>
              (r.Ok? <==> Passes(row, n))
    ensures destination.declines == old(destination.declines) && (r.Ok? ==> destination.refusals == old(destination.refusals))
    ensures destination.refusals == old(destination.refusals) && !Passes(row, n) ==> r == Err(Plain("value"))
  {
    var interrupted: bool := *;
    destination.Refusing(interrupted);
    if interrupted { return Err(Plain("sqlite_error")); }
    var params := RowParameters(row, n);
    RowSurvives(row, n);
    if params == None { return Err(Plain("value")); }
    r := destination.Insert(insert, params.value);
    if |row| == n { assert BindAll(params.value) == row; }
  }

  lemma NothingAppended(engine: Engine, tables: Tables, table: string)
    ensures table in tables ==> Appended(engine, tables, table, []) == tables
  {
    if table in tables {
      assert tables[table].rows + AllAsStored(engine, table, []) == tables[table].rows;
    }
  }

  lemma OneMoreAppended(engine: Engine, tables: Tables, table: string, rows: seq<seq<Cell>>, row: seq<Cell>, t: Tables, u: Tables)
    requires table in tables && SameTables(t, Appended(engine, tables, table, rows)) && table in t
    requires SameTables(u, t[table := t[table].(rows := t[table].rows + [AsStored(engine, table, row)])])
    ensures SameTables(u, Appended(engine, tables, table, rows + [row]))
  {
    assert AllAsStored(engine, table, rows + [row]) == AllAsStored(engine, table, rows) + [AsStored(engine, table, row)];
    var was := tables[table].rows;
    assert (was + AllAsStored(engine, table, rows)) + [AsStored(engine, table, row)]
        == was + (AllAsStored(engine, table, rows) + [AsStored(engine, table, row)]);
  }

  // The whole rebuild

  /** The first `i` listed tables exist in the destination, and no other but the
      counters; the first `filled` of them hold their rows. */
  ghost predicate Made(engine: Engine, source: Database, made: Tables, tables: seq<SchemaObject>, i: nat, filled: nat)
    requires i <= |tables|
  {
    && (forall k | 0 <= k < i ::
          && tables[k].name in source.tables && tables[k].name in made
          && made[tables[k].name].columns == source.tables[tables[k].name].columns
          && made[tables[k].name].rows ==
               if k < filled then AllAsStored(engine, tables[k].name, source.tables[tables[k].name].rows) else [])
    && (forall name | name in made && name != SEQUENCE :: exists k :: 0 <= k < i && tables[k].name == name)
    && (forall j, k | 0 <= j < k < i :: tables[j].name != tables[k].name)
  }

  ghost predicate AreTables(source: Database, tables: seq<SchemaObject>) {
    forall o | o in tables :: o in source.objects && IsTable(o)
  }

  lemma ListedNameIsNotSequence(o: SchemaObject)
    requires IsListed(o)
    ensures o.name != SEQUENCE
  {
    assert SEQUENCE[..6] == "sqlite";
  }

  lemma OneMoreMade(engine: Engine, source: Database, d: Tables, e: Tables, tables: seq<SchemaObject>, i: nat)
    requires i < |tables| && AreTables(source, tables) && Made(engine, source, d, tables, i, 0)
    requires tables[i].name in source.tables && tables[i].name !in d
    requires SameTables(e, d[tables[i].name := Table(source.tables[tables[i].name].columns, [])])
    ensures Made(engine, source, e, tables, i + 1, 0)
  {
    forall k | 0 <= k < i + 1 ensures tables[k].name != SEQUENCE && tables[k].name in e {
      assert tables[k] in tables;
      ListedNameIsNotSequence(tables[k]);
    }
    forall name | name in e && name != SEQUENCE ensures exists k :: 0 <= k < i + 1 && tables[k].name == name {
      if name != tables[i].name {
        assert name in d;
        var k :| 0 <= k < i && tables[k].name == name;
      }
    }
    forall k | 0 <= k < i ensures tables[k].name != tables[i].name {}
  }

  lemma OneMoreFilled(engine: Engine, source: Database, d: Tables, e: Tables, tables: seq<SchemaObject>, i: nat)
    requires i < |tables| && AreTables(source, tables) && Made(engine, source, d, tables, |tables|, i)
    requires SameTables(e, Appended(engine, d, tables[i].name, source.tables[tables[i].name].rows))
    ensures Made(engine, source, e, tables, |tables|, i + 1)
  {
    var name := tables[i].name;
    assert [] + AllAsStored(engine, name, source.tables[name].rows) == AllAsStored(engine, name, source.tables[name].rows);
    forall k | 0 <= k < |tables| ensures tables[k].name != SEQUENCE && tables[k].name in e {
      assert tables[k] in tables;
      ListedNameIsNotSequence(tables[k]);
    }
  }

  lemma MadeKept(engine: Engine, source: Database, d: Tables, e: Tables, tables: seq<SchemaObject>)
    requires AreTables(source, tables) && Made(engine, source, d, tables, |tables|, |tables|) && SameTables(e, d)
    ensures Made(engine, source, e, tables, |tables|, |tables|)
  {
    forall k | 0 <= k < |tables| ensures tables[k].name != SEQUENCE && tables[k].name in e {
      assert tables[k] in tables;
      ListedNameIsNotSequence(tables[k]);
    }
  }

  /** Nothing is in the catalogue but what was listed and what is SQLite's own. */
  ghost predicate OnlyListed(db: Database) {
    forall o | o in db.objects :: IsListed(o) || Reserved(o.name)
  }

  predicate FoundAt(s: string, t: string, i: nat) {
    i + |t| <= |s| && EqualIgnoringCase(s[i..i + |t|], t)
  }

  predicate Contains(s: string, t: string) {
    exists i | 0 <= i <= |s| :: FoundAt(s, t, i)
  }

  const VIRTUAL := "virtual table"

  /** The statement says so, somewhere, in any case of letters. */
  predicate IsVirtual(o: SchemaObject) {
    o.sql.Some? && Contains(o.sql.value, VIRTUAL)
  }

  /** The table's statement can be run, and does not look like a virtual table's. */
  predicate Runnable(o: SchemaObject) {
    o.sql.Some? && NUL !in o.sql.value && !IsVirtual(o)
  }

  /** The table can be made after those before it. */
  ghost predicate MakeableAt(tables: seq<SchemaObject>, i: nat)
    requires i < |tables|
  {
    Runnable(tables[i]) && forall k | 0 <= k < i :: tables[k].name != tables[i].name
  }

  ghost predicate NoneVirtual(tables: seq<SchemaObject>, n: nat)
    requires n <= |tables|
  {
    forall k | 0 <= k < n :: !IsVirtual(tables[k])
  }

  ghost predicate MakeableUpTo(tables: seq<SchemaObject>, n: nat)
    requires n <= |tables|
  {
    forall i | 0 <= i < n :: MakeableAt(tables, i)
  }

  ghost predicate Makeable(tables: seq<SchemaObject>) {
    MakeableUpTo(tables, |tables|)
  }

  lemma OneMoreMakeable(tables: seq<SchemaObject>, i: nat)
    requires i < |tables|
    ensures MakeableUpTo(tables, i) && MakeableAt(tables, i) ==> MakeableUpTo(tables, i + 1)
    ensures !MakeableAt(tables, i) ==> !Makeable(tables)
  {
  }

  /** A statement looks virtual exactly when those two words, one space between them,
      are somewhere in it, in any case. */
  lemma VirtualIff(o: SchemaObject)
    ensures IsVirtual(o)
            <==> o.sql.Some? && exists before, words, after :: o.sql.value == before + words + after && Spells(words, "virtual table")
  {
    if IsVirtual(o) {
      var sql := o.sql.value;
      var i :| 0 <= i <= |sql| && FoundAt(sql, VIRTUAL, i);
      FoldingIsSpelling(sql[i..i + |VIRTUAL|], VIRTUAL);
      assert sql == sql[..i] + sql[i..i + |VIRTUAL|] + sql[i + |VIRTUAL|..];
    }
    if o.sql.Some? && exists before, words, after :: o.sql.value == before + words + after && Spells(words, "virtual table") {
      var before, words, after :| o.sql.value == before + words + after && Spells(words, "virtual table");
      FoldingIsSpelling(words, "virtual table");
      assert o.sql.value[|before|..|before| + |VIRTUAL|] == words;
      assert FoundAt(o.sql.value, VIRTUAL, |before|);
    }
  }

  /** Create every listed table, empty; a virtual one is refused. */
  method CreateTables(source: Database, destination: Destination, tables: seq<SchemaObject>) returns (r: Result<(), Failure>)
    requires AreTables(source, tables) && destination.db.tables == map[] && destination.db.objects == []
    modifies destination
    ensures r.Err? ==> r.error.Plain?
    ensures r.Ok? && WellShaped(destination.engine, source) ==>
              && Made(destination.engine, source, destination.db.tables, tables, |tables|, 0)
              && Select(destination.db.objects, IsListed) == tables && !HasTrigger(destination.db) && OnlyListed(destination.db)
    ensures r.Ok? ==> forall o | o in tables :: !IsVirtual(o)
    ensures destination.refusals >= old(destination.refusals)
    ensures destination.refusals == old(destination.refusals) && WellShaped(destination.engine, source) ==>
              (r.Ok? <==> Makeable(tables))
    ensures destination.declines == old(destination.declines) && (r.Ok? ==> destination.refusals == old(destination.refusals))
  {
    for i := 0 to |tables|
      invariant destination.refusals == old(destination.refusals) && destination.declines == old(destination.declines)
      invariant destination.refusals == old(destination.refusals) && WellShaped(destination.engine, source) ==> MakeableUpTo(tables, i)
      invariant NoneVirtual(tables, i)
      invariant WellShaped(destination.engine, source) ==> Created(destination.engine, source, destination.db, tables, i)
    {
      r := CreateTable(source, destination, tables, i);
      OneMoreMakeable(tables, i);
      if r.Err? { return; }
    }
    assert tables[..|tables|] == tables;
    return Ok(());
  }

  /** The first `i` listed tables exist, empty, and nothing else is filed. */
  ghost predicate Created(engine: Engine, source: Database, db: Database, tables: seq<SchemaObject>, i: nat)
    requires i <= |tables|
  {
    && Made(engine, source, db.tables, tables, i, 0)
    && Select(db.objects, IsListed) == tables[..i] && !HasTrigger(db) && OnlyListed(db)
  }

  lemma MakeableIff(engine: Engine, source: Database, db: Database, tables: seq<SchemaObject>, i: nat)
    requires i < |tables| && AreTables(source, tables) && WellShaped(engine, source) && Created(engine, source, db, tables, i)
    requires tables[i] in tables
    ensures MakeableAt(tables, i) <==> !IsVirtual(tables[i]) && CanCreate(engine, tables[i].sql.value, db)
  {
    ListedNameIsNotSequence(tables[i]);
  }

  /** Create one listed table. */
  method CreateTable(source: Database, destination: Destination, tables: seq<SchemaObject>, i: nat) returns (r: Result<(), Failure>)
    requires i < |tables| && AreTables(source, tables)
    requires WellShaped(destination.engine, source) ==> Created(destination.engine, source, destination.db, tables, i)
    modifies destination
    ensures r.Err? ==> r.error.Plain?
    ensures r.Ok? ==> !IsVirtual(tables[i])
    ensures r.Ok? && WellShaped(destination.engine, source) ==> Created(destination.engine, source, destination.db, tables, i + 1)
    ensures destination.refusals >= old(destination.refusals)
    ensures destination.refusals == old(destination.refusals) && WellShaped(destination.engine, source) ==>
              (r.Ok? <==> MakeableAt(tables, i))
    ensures destination.declines == old(destination.declines) && (r.Ok? ==> destination.refusals == old(destination.refusals))
    ensures IsVirtual(tables[i]) ==> r == Err(Plain("unsupported_recovery_object"))
  {
    assert tables[i] in tables && tables[..i + 1] == tables[..i] + [tables[i]];
    if WellShaped(destination.engine, source) { MakeableIff(destination.engine, source, destination.db, tables, i); }
    if IsVirtual(tables[i]) {
      return Err(Plain("unsupported_recovery_object"));
    }
    r := destination.Exec(tables[i].sql.value);
    if r.Ok? && WellShaped(destination.engine, source) {
      OneMoreMade(destination.engine, source, old(destination.db.tables), destination.db.tables, tables, i);
    }
  }

  ghost predicate CopyableUpTo(source: Database, tables: seq<SchemaObject>, n: nat)
    requires n <= |tables|
  {
    forall k | 0 <= k < n :: Copyable(source, tables[k].name)
  }

  lemma OneMoreCopyable(source: Database, tables: seq<SchemaObject>, i: nat)
    requires i < |tables|
    ensures CopyableUpTo(source, tables, i) && Copyable(source, tables[i].name) ==> CopyableUpTo(source, tables, i + 1)
    ensures !Copyable(source, tables[i].name) ==> !CopyableUpTo(source, tables, |tables|)
  {
  }

  /** Copy every listed table's rows; the schema holds the tables and nothing else
      of the source's yet, so no index, view or trigger can interfere. */
  method CopyTables(source: Database, destination: Destination, tables: seq<SchemaObject>) returns (r: Result<(), Failure>)
    requires AreTables(source, tables)
    requires WellShaped(destination.engine, source) ==>
               && Made(destination.engine, source, destination.db.tables, tables, |tables|, 0) && !HasTrigger(destination.db)
               && Select(destination.db.objects, IsListed) == tables
    modifies destination
    ensures SameCatalogue(old(destination.db), destination.db)
    ensures r.Err? ==> r.error.Plain?
    ensures r.Ok? && WellShaped(destination.engine, source) ==>
              Made(destination.engine, source, destination.db.tables, tables, |tables|, |tables|)
    ensures destination.refusals >= old(destination.refusals)
    ensures destination.refusals == old(destination.refusals) && WellShaped(destination.engine, source) ==>
              (r.Ok? <==> CopyableUpTo(source, tables, |tables|))
    ensures destination.declines == old(destination.declines) && (r.Ok? ==> destination.refusals == old(destination.refusals))
  {
    ghost var shaped := WellShaped(destination.engine, source);
    for i := 0 to |tables|
      invariant SameCatalogue(old(destination.db), destination.db)
      invariant destination.refusals == old(destination.refusals) && destination.declines == old(destination.declines)
      invariant shaped ==> Made(destination.engine, source, destination.db.tables, tables, |tables|, i)
      invariant destination.refusals == old(destination.refusals) && shaped ==> CopyableUpTo(source, tables, i)
    {
      r := CopyTable(source, destination, tables, i);
      OneMoreCopyable(source, tables, i);
      if r.Err? { return; }
    }
    return Ok(());
  }

  /** Copy one listed table's rows. */
  method CopyTable(source: Database, destination: Destination, tables: seq<SchemaObject>, i: nat) returns (r: Result<(), Failure>)
    requires i < |tables| && AreTables(source, tables)
    requires WellShaped(destination.engine, source) ==>
               Made(destination.engine, source, destination.db.tables, tables, |tables|, i) && !HasTrigger(destination.db)
    modifies destination
    ensures SameCatalogue(old(destination.db), destination.db)
    ensures r.Err? ==> r.error.Plain?
    ensures r.Ok? && WellShaped(destination.engine, source) ==>
              Made(destination.engine, source, destination.db.tables, tables, |tables|, i + 1)
    ensures destination.refusals >= old(destination.refusals)
    ensures destination.refusals == old(destination.refusals) && WellShaped(destination.engine, source) ==>
              (r.Ok? <==> Copyable(source, tables[i].name))
    ensures destination.declines == old(destination.declines) && (r.Ok? ==> destination.refusals == old(destination.refusals))
  {
    assert tables[i] in tables;
    r := CopyTableRows(source, destination, tables[i].name);
    if r.Ok? && WellShaped(destination.engine, source) {
      OneMoreFilled(destination.engine, source, old(destination.db.tables), destination.db.tables, tables, i);
    }
  }

  predicate HasSequence(source: Database) {
    exists o | o in source.objects :: o.kind == "table" && o.name == SEQUENCE
  }

  /** SQLite's counters are copied over what the inserts have left of them. */
  method CopySequence(source: Database, destination: Destination, ghost tables: seq<SchemaObject>) returns (r: Result<(), Failure>)
    requires AreTables(source, tables)
    requires WellShaped(destination.engine, source) ==>
               && Made(destination.engine, source, destination.db.tables, tables, |tables|, |tables|)
               && !HasTrigger(destination.db)
    modifies destination
    ensures SameCatalogue(old(destination.db), destination.db)
    ensures r.Err? ==> r.error.Plain?
    ensures r.Ok? && WellShaped(destination.engine, source) ==>
              Made(destination.engine, source, destination.db.tables, tables, |tables|, |tables|)
    ensures destination.refusals >= old(destination.refusals)
    ensures destination.refusals == old(destination.refusals) && WellShaped(destination.engine, source) ==>
              (r.Ok? <==> (HasSequence(source) ==> Copyable(source, SEQUENCE)))
    ensures destination.declines == old(destination.declines) && (r.Ok? ==> destination.refusals == old(destination.refusals))
  {
    var fault: bool := *;
    destination.Refusing(fault);
    if fault { return Err(Plain("sqlite_error")); }
    if HasSequence(source) {
      r := CopyTableRows(source, destination, SEQUENCE);
      if r.Ok? && WellShaped(destination.engine, source) {
        MadeKept(destination.engine, source, old(destination.db.tables), destination.db.tables, tables);
      }
    } else {
      r := Ok(());
    }
  }

  /** The first `n` statements can be run. */
  ghost predicate RunnableUpTo(objects: seq<SchemaObject>, n: nat)
    requires n <= |objects|
  {
    forall k | 0 <= k < n :: objects[k].sql.Some? && NUL !in objects[k].sql.value
  }

  /** Create the indexes, views and triggers, over the finished tables. */
  method CreateDependents(source: Database, destination: Destination, ghost tables: seq<SchemaObject>, dependents: seq<SchemaObject>)
    returns (r: Result<(), Failure>)
    requires AreTables(source, tables) && forall o | o in dependents :: o in source.objects && IsDependent(o)
    requires WellShaped(destination.engine, source) ==>
               && Made(destination.engine, source, destination.db.tables, tables, |tables|, |tables|)
               && Select(destination.db.objects, IsListed) == tables && OnlyListed(destination.db)
    modifies destination
    ensures r.Err? ==> r.error.Plain?
    ensures r.Ok? && WellShaped(destination.engine, source) ==>
              && Made(destination.engine, source, destination.db.tables, tables, |tables|, |tables|)
              && Select(destination.db.objects, IsListed) == tables + dependents && OnlyListed(destination.db)
    ensures destination.refusals >= old(destination.refusals)
    ensures destination.refusals == old(destination.refusals) && WellShaped(destination.engine, source) ==>
              (r.Ok? <==> RunnableUpTo(dependents, |dependents|))
    ensures destination.declines == old(destination.declines) && (r.Ok? ==> destination.refusals == old(destination.refusals))
  {
    ghost var shaped := WellShaped(destination.engine, source);
    assert tables + dependents[..0] == tables;
    for i := 0 to |dependents|
      invariant destination.refusals == old(destination.refusals) && destination.declines == old(destination.declines)
      invariant destination.refusals == old(destination.refusals) && shaped ==> RunnableUpTo(dependents, i)
      invariant shaped ==>
                  && Made(destination.engine, source, destination.db.tables, tables, |tables|, |tables|)
                  && Select(destination.db.objects, IsListed) == tables + dependents[..i] && OnlyListed(destination.db)
    {
      assert dependents[i] in dependents;
      assert tables + dependents[..i + 1] == tables + dependents[..i] + [dependents[i]];
      ghost var d := destination.db;
      r := destination.Exec(dependents[i].sql.value);
      if r.Err? { return; }
      if shaped {
        MadeKept(destination.engine, source, d.tables, destination.db.tables, tables);
      }
    }
    assert dependents[..|dependents|] == dependents;
    return Ok(());
  }

  predicate OfTableKind(o: SchemaObject) {
    o.kind == "table"
  }

  predicate OfDependentKind(o: SchemaObject) {
    o.kind == "index" || o.kind == "view" || o.kind == "trigger"
  }

  lemma ListedAre(source: Database, o: SchemaObject)
    ensures o in SchemaObjects(source) <==> o in source.objects && IsListed(o)
  {
    CatalogueComplete(source);
    assert o in SchemaObjects(source) <==> o in multiset(SchemaObjects(source));
    assert o in Select(source.objects, IsListed) <==> o in multiset(Select(source.objects, IsListed));
  }

  lemma PassesCount(source: Database, o: SchemaObject)
    ensures multiset(Select(SchemaObjects(source), OfTableKind))[o] + multiset(Select(SchemaObjects(source), OfDependentKind))[o]
            == multiset(Select(source.objects, x => IsTable(x) || IsDependent(x)))[o]
  {
    CatalogueComplete(source);
    SelectCounts(SchemaObjects(source), OfTableKind, o);
    SelectCounts(SchemaObjects(source), OfDependentKind, o);
    SelectCounts(source.objects, IsListed, o);
    SelectCounts(source.objects, x => IsTable(x) || IsDependent(x), o);
  }

  /** What the two passes over the catalogue pick out, together. */
  lemma PassesComplete(source: Database)
    ensures AreTables(source, Select(SchemaObjects(source), OfTableKind))
    ensures forall o | o in Select(SchemaObjects(source), OfDependentKind) :: o in source.objects && IsDependent(o)
    ensures multiset(Select(SchemaObjects(source), OfTableKind) + Select(SchemaObjects(source), OfDependentKind))
            == multiset(Select(source.objects, o => IsTable(o) || IsDependent(o)))
    ensures forall o | o in source.objects && IsTable(o) :: o in Select(SchemaObjects(source), OfTableKind)
  {
    var tables, dependents := Select(SchemaObjects(source), OfTableKind), Select(SchemaObjects(source), OfDependentKind);
    forall o: SchemaObject ensures o in SchemaObjects(source) <==> o in source.objects && IsListed(o) {
      ListedAre(source, o);
    }
    forall o: SchemaObject
      ensures multiset(tables + dependents)[o] == multiset(Select(source.objects, x => IsTable(x) || IsDependent(x)))[o]
    {
      PassesCount(source, o);
    }
  }

  lemma RebuiltFromParts(engine: Engine, source: Database, db: Database, tables: seq<SchemaObject>, dependents: seq<SchemaObject>)
    requires AreTables(source, tables) && forall o | o in source.objects && IsTable(o) :: o in tables
    requires multiset(tables + dependents) == multiset(Select(source.objects, o => IsTable(o) || IsDependent(o)))
    requires Made(engine, source, db.tables, tables, |tables|, |tables|)
    requires Select(db.objects, IsListed) == tables + dependents && OnlyListed(db)
    requires db.userVersion == source.userVersion && db.applicationId == source.applicationId && db.journal == Delete
    ensures Rebuilt(engine, source, db)
  {
    forall o | o in source.objects && IsTable(o)
      ensures o.name in source.tables && o.name in db.tables
      ensures db.tables[o.name].columns == source.tables[o.name].columns
      ensures db.tables[o.name].rows == AllAsStored(engine, o.name, source.tables[o.name].rows)
    {
      var k :| 0 <= k < |tables| && tables[k] == o;
    }
    forall name | name in db.tables && name != SEQUENCE
      ensures exists o :: o in source.objects && IsTable(o) && o.name == name
    {
      var k :| 0 <= k < |tables| && tables[k].name == name;
      assert tables[k] in tables;
    }
  }

  /** No listed table is a virtual one, by the look of its statement. */
  ghost predicate NothingVirtual(source: Database) {
    forall o | o in source.objects && IsTable(o) :: !IsVirtual(o)
  }

  /** What a rebuild asks of the source: no listed table looks virtual or shares its
      name with another, no statement or name has a NUL in it, and every cell of a
      listed table, and of the counters, can be read. */
  ghost predicate Rebuildable(source: Database) {
    && Makeable(Select(SchemaObjects(source), OfTableKind))
    && (forall o | o in source.objects && IsTable(o) :: Copyable(source, o.name))
    && (HasSequence(source) ==> Copyable(source, SEQUENCE))
    && (forall o | o in source.objects && IsDependent(o) :: NUL !in o.sql.value)
  }

  /** Of a real catalogue, a rebuild succeeds exactly if it can. */
  ghost predicate RebuildsIff(engine: Engine, source: Database, ok: bool) {
    WellShaped(engine, source) ==> (ok <==> Rebuildable(source))
  }

  /** Build the destination up to its version numbers. */
  method CopyAll(source: Database, destination: Destination) returns (r: Result<(), Failure>)
    requires destination.db.tables == map[] && destination.db.objects == []
    modifies destination
    ensures r.Err? ==> r.error.Plain?
    ensures r.Ok? && WellShaped(destination.engine, source) ==>
              && Made(destination.engine, source, destination.db.tables, Select(SchemaObjects(source), OfTableKind),
                      |Select(SchemaObjects(source), OfTableKind)|, |Select(SchemaObjects(source), OfTableKind)|)
              && Select(destination.db.objects, IsListed)
                 == Select(SchemaObjects(source), OfTableKind) + Select(SchemaObjects(source), OfDependentKind)
              && OnlyListed(destination.db)
    ensures r.Ok? ==> NothingVirtual(source)
    ensures destination.refusals >= old(destination.refusals)
    ensures destination.refusals == old(destination.refusals) && WellShaped(destination.engine, source) ==> (r.Ok? <==> Rebuildable(source))
    ensures destination.declines == old(destination.declines) && (r.Ok? ==> destination.refusals == old(destination.refusals))
  {
    var objects := SchemaObjects(source);
    PassesComplete(source);
    var tables := Select(objects, OfTableKind);
    r := Populate(source, destination, tables);
    RebuildableIff(source, tables, Select(objects, OfDependentKind));
    if r.Err? { return; }
    r := CreateDependents(source, destination, tables, Select(objects, OfDependentKind));
  }

  lemma CopyableIff(source: Database, tables: seq<SchemaObject>)
    requires forall o :: o in tables <==> o in source.objects && IsTable(o)
    ensures CopyableUpTo(source, tables, |tables|) <==> forall o | o in source.objects && IsTable(o) :: Copyable(source, o.name)
  {
    forall k | 0 <= k < |tables| ensures tables[k] in source.objects && IsTable(tables[k]) { assert tables[k] in tables; }
  }

  lemma RunnableIff(source: Database, dependents: seq<SchemaObject>)
    requires forall o :: o in dependents <==> o in source.objects && IsDependent(o)
    ensures RunnableUpTo(dependents, |dependents|) <==> forall o | o in source.objects && IsDependent(o) :: NUL !in o.sql.value
  {
    forall k | 0 <= k < |dependents| ensures dependents[k] in source.objects && IsDependent(dependents[k]) {
      assert dependents[k] in dependents;
    }
  }

  lemma RebuildableIff(source: Database, tables: seq<SchemaObject>, dependents: seq<SchemaObject>)
    requires tables == Select(SchemaObjects(source), OfTableKind) && dependents == Select(SchemaObjects(source), OfDependentKind)
    ensures Rebuildable(source) <==> PopulatesFrom(source, tables) && RunnableUpTo(dependents, |dependents|)
  {
    forall o: SchemaObject
      ensures o in tables <==> o in source.objects && IsTable(o)
      ensures o in dependents <==> o in source.objects && IsDependent(o)
    {
      ListedAre(source, o);
    }
    CopyableIff(source, tables);
    RunnableIff(source, dependents);
  }

  /** The tables can be made and filled. */
  ghost predicate PopulatesFrom(source: Database, tables: seq<SchemaObject>) {
    Makeable(tables) && CopyableUpTo(source, tables, |tables|) && (HasSequence(source) ==> Copyable(source, SEQUENCE))
  }

  /** The tables, their rows, and the counters. */
  method Populate(source: Database, destination: Destination, tables: seq<SchemaObject>) returns (r: Result<(), Failure>)
    requires AreTables(source, tables) && destination.db.tables == map[] && destination.db.objects == []
    modifies destination
    ensures r.Err? ==> r.error.Plain?
    ensures r.Ok? && WellShaped(destination.engine, source) ==>
              && Made(destination.engine, source, destination.db.tables, tables, |tables|, |tables|)
              && Select(destination.db.objects, IsListed) == tables && OnlyListed(destination.db)
    ensures r.Ok? ==> forall o | o in tables :: !IsVirtual(o)
    ensures destination.refusals >= old(destination.refusals)
    ensures destination.refusals == old(destination.refusals) && WellShaped(destination.engine, source) ==>
              (r.Ok? <==> PopulatesFrom(source, tables))
    ensures destination.declines == old(destination.declines) && (r.Ok? ==> destination.refusals == old(destination.refusals))
  {
    r := CreateTables(source, destination, tables);
    if r.Err? { return; }
    r := CopyTables(source, destination, tables);
    if r.Err? { return; }
    r := CopySequence(source, destination, tables);
  }

  datatype Versions = Versions(user: Int64, application: Int64)

  /** `rebuild_database`: what it accepts carries the source faithfully, has passed
      the integrity check as it stands, and is in the single-file journal mode. If
      SQLite refuses nothing and changes the journal mode when asked, it accepts
      exactly what can be rebuilt. */
  method RebuildDatabase(source: Database, destination: Destination) returns (r: Result<Versions, Failure>)
    requires destination.db.tables == map[] && destination.db.objects == []
    modifies destination
    ensures r.Err? ==> r.error.Plain?
    ensures r.Ok? ==>
              && r.value == Versions(source.userVersion, source.applicationId)
              && destination.checked && destination.db.journal == Delete
              && Faithful(destination.engine, source, destination.db) && NothingVirtual(source)
    ensures r.Ok? && WellShaped(destination.engine, source) ==> CarriesPlainNames(destination.engine, source, destination.db)
    ensures destination.refusals >= old(destination.refusals) && destination.declines >= old(destination.declines)
    ensures r.Ok? ==> destination.refusals == old(destination.refusals) && RebuildsIff(destination.engine, source, true)
    ensures destination.refusals == old(destination.refusals) && destination.declines == old(destination.declines) ==>
              RebuildsIff(destination.engine, source, r.Ok?)
  {
    var step := FillDestination(source, destination);
    if step.Err? { return Err(step.error); }
    r := Validate(source, destination);
    if r.Ok? && WellShaped(destination.engine, source) { RebuiltFromPasses(destination.engine, source, destination.db); }
  }

  lemma RebuiltFromPasses(engine: Engine, source: Database, db: Database)
    requires Made(engine, source, db.tables, Select(SchemaObjects(source), OfTableKind),
                  |Select(SchemaObjects(source), OfTableKind)|, |Select(SchemaObjects(source), OfTableKind)|)
    requires Select(db.objects, IsListed) == Select(SchemaObjects(source), OfTableKind) + Select(SchemaObjects(source), OfDependentKind)
    requires OnlyListed(db)
    requires db.userVersion == source.userVersion && db.applicationId == source.applicationId && db.journal == Delete
    ensures Rebuilt(engine, source, db) && CarriesPlainNames(engine, source, db)
  {
    PassesComplete(source);
    RebuiltFromParts(engine, source, db, Select(SchemaObjects(source), OfTableKind), Select(SchemaObjects(source), OfDependentKind));
    RebuiltCarries(engine, source, db);
  }

  /** Everything up to the validation. */
  method FillDestination(source: Database, destination: Destination) returns (r: Result<(), Failure>)
    requires destination.db.tables == map[] && destination.db.objects == []
    modifies destination
    ensures r.Err? ==> r.error.Plain?
    ensures r.Ok? && WellShaped(destination.engine, source) ==>
              && Made(destination.engine, source, destination.db.tables, Select(SchemaObjects(source), OfTableKind),
                      |Select(SchemaObjects(source), OfTableKind)|, |Select(SchemaObjects(source), OfTableKind)|)
              && Select(destination.db.objects, IsListed)
                 == Select(SchemaObjects(source), OfTableKind) + Select(SchemaObjects(source), OfDependentKind)
              && OnlyListed(destination.db)
    ensures r.Ok? ==>
              && NothingVirtual(source)
              && destination.db.userVersion == source.userVersion && destination.db.applicationId == source.applicationId
    ensures destination.refusals >= old(destination.refusals) && destination.declines >= old(destination.declines)
    ensures r.Ok? ==> destination.refusals == old(destination.refusals)
    ensures destination.refusals == old(destination.refusals) && WellShaped(destination.engine, source) ==> (r.Ok? <==> Rebuildable(source))
  {
    var fault: bool := *;
    destination.Refusing(fault);
    if fault { return Err(Plain("sqlite_error")); }
    r := destination.SetJournal(Persist);
    if r.Err? { return; }
    fault := *;
    destination.Refusing(fault);
    if fault { return Err(Plain("sqlite_error")); }
    r := CopyAll(source, destination);
    if r.Err? { return; }
    r := destination.SetVersions(source.userVersion, source.applicationId);
    if r.Err? { return; }
    fault := *;
    destination.Refusing(fault);
    if fault { r := Err(Plain("injected_failure")); }
  }

  /** Switch to the single-file journal mode, then check that the switch took and
      that the database is sound. */
  method Validate(source: Database, destination: Destination) returns (r: Result<Versions, Failure>)
    modifies destination
    ensures destination.db == old(destination.db).(journal := destination.db.journal)
    ensures r.Err? ==> r.error.Plain?
    ensures r.Ok? ==>
              && r.value == Versions(source.userVersion, source.applicationId)
              && destination.checked && destination.db.journal == Delete
    ensures destination.refusals >= old(destination.refusals) && (r.Ok? ==> destination.refusals == old(destination.refusals))
    ensures destination.declines >= old(destination.declines)
    ensures destination.refusals == old(destination.refusals) && destination.declines == old(destination.declines) ==> r.Ok?
  {
    var step := destination.SetJournal(Delete);
    if step.Err? { return Err(step.error); }
    var report := destination.VerifyIntegrity();
    if report.Err? { return Err(report.error); }
    if report.value != Delete { return Err(Plain("recovery_journal_mode_mismatch")); }
    return Ok(Versions(source.userVersion, source.applicationId));
  }
}
