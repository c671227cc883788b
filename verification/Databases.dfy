/** What a SQLite file holds, as far as recovery is concerned. */
module Databases {
  import opened Wrappers

  type Byte = n: nat | n < 256
  type Int64 = n: int | -0x8000_0000_0000_0000 <= n <= 0x7FFF_FFFF_FFFF_FFFF
  type UInt64 = n: nat | n <= 0xFFFF_FFFF_FFFF_FFFF

  /** A double: its finite values are taken as reals, infinities and NaN are not told apart. */
  datatype Float = Finite(value: real) | NonFinite

  /** A stored cell. Text is either a character sequence or bytes that are not UTF-8. */
  datatype Cell =
    | Null
    | Integer(value: Int64)
    | Real(float: Float)
    | Text(text: string)
    | Garbled(raw: seq<Byte>)
    | Blob(bytes: seq<Byte>)

  datatype Table = Table(columns: seq<string>, rows: seq<seq<Cell>>)

  /** One row of the schema catalogue; automatic indexes have no SQL. */
  datatype SchemaObject = SchemaObject(kind: string, name: string, sql: Option<string>)

  datatype JournalMode = Delete | Persist | OtherMode

  datatype Database = Database(
    objects: seq<SchemaObject>,
    tables: map<string, Table>,
    userVersion: Int64,
    applicationId: Int64,
    journal: JournalMode)

  /** The bytes of a file: a database image, which has or has not passed the
      integrity check as it stands, or anything else. */
  datatype Content = Raw(bytes: seq<Byte>) | Image(db: Database, checked: bool)

  // The schema catalogue

  function Lower(c: char): char {
    if 'A' <= c <= 'Z' then c - 'A' + 'a' else c
  }

  predicate EqualIgnoringCase(s: string, t: string) {
    |s| == |t| && forall i | 0 <= i < |s| :: Lower(s[i]) == Lower(t[i])
  }

  /** The same character, or one ASCII letter in both cases. */
  predicate SameLetter(a: char, b: char) {
    || a == b
    || ('A' <= a <= 'Z' && b as int == a as int - 'A' as int + 'a' as int)
    || ('A' <= b <= 'Z' && a as int == b as int - 'A' as int + 'a' as int)
  }

  ghost predicate Spells(s: string, word: string) {
    |s| == |word| && forall i | 0 <= i < |s| :: SameLetter(s[i], word[i])
  }

  /** Folding both sides is comparing without case. */
  lemma FoldingIsSpelling(s: string, word: string)
    ensures EqualIgnoringCase(s, word) <==> Spells(s, word)
  {
    forall a, b ensures SameLetter(a, b) <==> Lower(a) == Lower(b) {}
    if EqualIgnoringCase(s, word) {
      forall i | 0 <= i < |s| ensures SameLetter(s[i], word[i]) { assert Lower(s[i]) == Lower(word[i]); }
    }
    if Spells(s, word) {
      forall i | 0 <= i < |s| ensures Lower(s[i]) == Lower(word[i]) { assert SameLetter(s[i], word[i]); }
    }
  }

  /** SQLite's LIKE: `_` stands for one character, `%` for any run of them, and an
      ASCII letter for itself in either case. */
  ghost predicate Like(pattern: string, s: string)
    decreases |pattern|
  {
    if pattern == "" then s == ""
    else if pattern[0] == '%' then exists k | 0 <= k <= |s| :: Like(pattern[1..], s[k..])
    else s != "" && (pattern[0] == '_' || SameLetter(pattern[0], s[0])) && Like(pattern[1..], s[1..])
  }

  lemma {:induction false} LikeRuns(prefix: string, rest: string, s: string)
    requires '%' !in prefix
    ensures Like(prefix + rest, s)
            <==> |prefix| <= |s| && (forall i | 0 <= i < |prefix| :: prefix[i] == '_' || SameLetter(prefix[i], s[i]))
                 && Like(rest, s[|prefix|..])
    decreases |prefix|
  {
    if prefix == "" {
      assert prefix + rest == rest && s[0..] == s;
    } else {
      assert (prefix + rest)[1..] == prefix[1..] + rest && (prefix + rest)[0] == prefix[0];
      if s != "" {
        LikeRuns(prefix[1..], rest, s[1..]);
        if |prefix| <= |s| { assert s[1..][|prefix[1..]|..] == s[|prefix|..]; }
      }
    }
  }

  lemma AnythingGoes(s: string)
    ensures Like("%", s)
  {
    assert "%"[1..] == "" && s[|s|..] == "" && Like("", s[|s|..]);
  }

  /** The catalogue query's pattern matches just the names that begin with `sqlite`,
      in any case, and have a seventh character. */
  lemma LikeReservedIff(name: string)
    ensures LikeReserved(name) <==> Like("sqlite_%", name)
  {
    LikeRuns("sqlite_", "%", name);
    assert "sqlite_" + "%" == "sqlite_%";
    if |name| >= 7 {
      AnythingGoes(name[7..]);
      FoldingIsSpelling(name[..6], "sqlite");
      assert forall i | 0 <= i < 6 :: "sqlite_"[i] == "sqlite"[i] && name[..6][i] == name[i];
      assert "sqlite_"[6] == '_';
      if Spells(name[..6], "sqlite") {
        forall i | 0 <= i < 7 ensures "sqlite_"[i] == '_' || SameLetter("sqlite_"[i], name[i]) {
          if i < 6 { assert SameLetter(name[..6][i], "sqlite"[i]); }
        }
      }
    }
  }

  /** The name begins with SQLite's own reserved prefix. */
  predicate Reserved(name: string) {
    |name| >= 7 && EqualIgnoringCase(name[..7], "sqlite_")
  }

  /** `name LIKE 'sqlite_%'`: in a pattern the underscore is any one character. */
  predicate LikeReserved(name: string) {
    |name| >= 7 && EqualIgnoringCase(name[..6], "sqlite")
  }

  /** The catalogue query returns the row. */
  predicate IsListed(o: SchemaObject) {
    o.sql.Some? && !LikeReserved(o.name)
  }

  predicate IsTable(o: SchemaObject) {
    IsListed(o) && o.kind == "table"
  }

  /** Indexes, views and triggers: what the rebuild adds after the rows. */
  predicate IsDependent(o: SchemaObject) {
    IsListed(o) && (o.kind == "index" || o.kind == "view" || o.kind == "trigger")
  }

  function Select(objects: seq<SchemaObject>, keep: SchemaObject -> bool): (kept: seq<SchemaObject>)
    ensures forall o :: o in kept <==> o in objects && keep(o)
  {
    if objects == [] then []
    else (if keep(objects[0]) then [objects[0]] else []) + Select(objects[1..], keep)
  }

  lemma {:induction false} SelectAppends(x: seq<SchemaObject>, y: seq<SchemaObject>, keep: SchemaObject -> bool)
    ensures Select(x + y, keep) == Select(x, keep) + Select(y, keep)
  {
    if x == [] {
      assert x + y == y;
    } else {
      assert (x + y)[1..] == x[1..] + y;
      SelectAppends(x[1..], y, keep);
    }
  }

  lemma {:induction false} SelectCounts(objects: seq<SchemaObject>, keep: SchemaObject -> bool, o: SchemaObject)
    ensures multiset(Select(objects, keep))[o] == if keep(o) then multiset(objects)[o] else 0
  {
    if objects != [] {
      SelectCounts(objects[1..], keep, o);
      assert objects == [objects[0]] + objects[1..];
    }
  }

  // The engine, and what a rebuild through it amounts to

  datatype Creation = NewTable(object: SchemaObject, columns: seq<string>) | NewOther(object: SchemaObject)

  /** What is taken from SQLite: what a CREATE statement makes, and the cell a
      column's affinity turns a bound cell into. */
  datatype Engine = Engine(creates: string -> Option<Creation>, stores: (string, nat, Cell) -> Cell)

  function AsStored(engine: Engine, table: string, row: seq<Cell>): (stored: seq<Cell>)
    ensures |stored| == |row|
  {
    seq(|row|, k requires 0 <= k < |row| => engine.stores(table, k, row[k]))
  }

  function AllAsStored(engine: Engine, table: string, rows: seq<seq<Cell>>): (stored: seq<seq<Cell>>)
    ensures |stored| == |rows|
  {
    seq(|rows|, i requires 0 <= i < |rows| => AsStored(engine, table, rows[i]))
  }

  /** The column keeps every cell stored in it as it is. */
  ghost predicate FixedUnderAffinity(engine: Engine, table: string, rows: seq<seq<Cell>>) {
    forall i, k | 0 <= i < |rows| && 0 <= k < |rows[i]| :: engine.stores(table, k, rows[i][k]) == rows[i][k]
  }

  /** The copy is cell for cell exactly when affinity leaves the stored cells alone. */
  lemma CopiedExactlyIff(engine: Engine, table: string, rows: seq<seq<Cell>>)
    ensures AllAsStored(engine, table, rows) == rows <==> FixedUnderAffinity(engine, table, rows)
  {
    if AllAsStored(engine, table, rows) == rows {
      forall i, k | 0 <= i < |rows| && 0 <= k < |rows[i]| ensures engine.stores(table, k, rows[i][k]) == rows[i][k] {
        assert AllAsStored(engine, table, rows)[i][k] == rows[i][k];
      }
    } else if FixedUnderAffinity(engine, table, rows) {
      forall i | 0 <= i < |rows| ensures AsStored(engine, table, rows[i]) == rows[i] {}
      assert false;
    }
  }

  /** Storing a cell that was stored changes nothing more. */
  ghost predicate Idempotent(engine: Engine, table: string) {
    forall k, c :: engine.stores(table, k, engine.stores(table, k, c)) == engine.stores(table, k, c)
  }

  /** A table filled through its own affinity, whatever was bound, is copied cell
      for cell exactly when affinity is idempotent. */
  lemma StoredRowsCopiedIff(engine: Engine, table: string)
    ensures Idempotent(engine, table)
            <==> forall bound :: AllAsStored(engine, table, AllAsStored(engine, table, bound)) == AllAsStored(engine, table, bound)
  {
    if Idempotent(engine, table) {
      forall bound ensures AllAsStored(engine, table, AllAsStored(engine, table, bound)) == AllAsStored(engine, table, bound) {
        CopiedExactlyIff(engine, table, AllAsStored(engine, table, bound));
      }
    }
    if forall bound :: AllAsStored(engine, table, AllAsStored(engine, table, bound)) == AllAsStored(engine, table, bound) {
      forall k: nat, c ensures engine.stores(table, k, engine.stores(table, k, c)) == engine.stores(table, k, c) {
        var bound := [seq(k + 1, i => c)];
        var stored := AllAsStored(engine, table, bound);
        assert stored[0][k] == engine.stores(table, k, c);
        assert AllAsStored(engine, table, stored)[0][k] == stored[0][k];
      }
    }
  }

  /** The catalogue is a real one: every listed table is there with rows that fit
      its columns, and each listed statement makes just the object it is filed under. */
  ghost predicate WellShaped(engine: Engine, source: Database) {
    && (forall o | o in source.objects && IsTable(o) ::
          && o.name in source.tables && source.tables[o.name].columns != []
          && engine.creates(o.sql.value) == Some(NewTable(o, source.tables[o.name].columns))
          && forall row | row in source.tables[o.name].rows :: |row| == |source.tables[o.name].columns|)
    && (forall o | o in source.objects && IsDependent(o) :: engine.creates(o.sql.value) == Some(NewOther(o)))
  }

  /** `rebuilt` has exactly the listed tables (and perhaps SQLite's own sequence
      table), each with the source's columns and its rows in order as stored; the
      same listed tables, indexes, views and triggers, and besides only objects under
      SQLite's own names; both version numbers; and the single-file journal mode. */
  ghost predicate Rebuilt(engine: Engine, source: Database, rebuilt: Database) {
    && (forall o | o in source.objects && IsTable(o) ::
          && o.name in source.tables && o.name in rebuilt.tables
          && rebuilt.tables[o.name].columns == source.tables[o.name].columns
          && rebuilt.tables[o.name].rows == AllAsStored(engine, o.name, source.tables[o.name].rows))
    && (forall name | name in rebuilt.tables ::
          name == "sqlite_sequence" || exists o :: o in source.objects && IsTable(o) && o.name == name)
    && (forall o | o in rebuilt.objects :: IsListed(o) || Reserved(o.name))
    && multiset(Select(rebuilt.objects, IsListed)) == multiset(Select(source.objects, o => IsTable(o) || IsDependent(o)))
    && rebuilt.userVersion == source.userVersion
    && rebuilt.applicationId == source.applicationId
    && rebuilt.journal == Delete
  }

  /** What activation relies on. */
  ghost predicate Faithful(engine: Engine, source: Database, rebuilt: Database) {
    WellShaped(engine, source) ==> Rebuilt(engine, source, rebuilt)
  }

  ghost predicate BeginsWithSqlite(name: string) {
    |name| >= 6 && Spells(name[..6], "sqlite")
  }

  /** Whatever the query may leave out, it is none of this: a table whose name does
      not begin with `sqlite` is there with its rows, an index, view or trigger of
      such a name is there, and nothing else is but under SQLite's own prefix. */
  ghost predicate CarriesPlainNames(engine: Engine, source: Database, rebuilt: Database) {
    && (forall o | o in source.objects && o.sql.Some? && !BeginsWithSqlite(o.name) ::
          && (o.kind == "table" ==>
                && o in rebuilt.objects && o.name in source.tables && o.name in rebuilt.tables
                && rebuilt.tables[o.name] == Table(source.tables[o.name].columns, AllAsStored(engine, o.name, source.tables[o.name].rows)))
          && (o.kind == "index" || o.kind == "view" || o.kind == "trigger" ==> o in rebuilt.objects))
    && (forall o | o in rebuilt.objects :: o in source.objects || (|o.name| >= 7 && Spells(o.name[..7], "sqlite_")))
    && (forall name | name in rebuilt.tables && name != "sqlite_sequence" ::
          exists o :: o in source.objects && o.kind == "table" && o.sql.Some? && o.name == name)
  }

  lemma RebuiltCarries(engine: Engine, source: Database, rebuilt: Database)
    requires Rebuilt(engine, source, rebuilt)
    ensures CarriesPlainNames(engine, source, rebuilt)
  {
    var kept, listed := Select(source.objects, o => IsTable(o) || IsDependent(o)), Select(rebuilt.objects, IsListed);
    forall o ensures o in kept <==> o in listed {
      assert o in kept <==> o in multiset(kept);
      assert o in listed <==> o in multiset(listed);
    }
    forall o | o in source.objects && o.sql.Some? && !BeginsWithSqlite(o.name) ensures IsListed(o) {
      if LikeReserved(o.name) { FoldingIsSpelling(o.name[..6], "sqlite"); }
    }
    forall o | o in rebuilt.objects ensures o in source.objects || (|o.name| >= 7 && Spells(o.name[..7], "sqlite_")) {
      if !IsListed(o) { FoldingIsSpelling(o.name[..7], "sqlite_"); } else { assert o in listed; }
    }
    forall name | name in rebuilt.tables && name != "sqlite_sequence"
      ensures exists o :: o in source.objects && o.kind == "table" && o.sql.Some? && o.name == name
    {
      var o :| o in source.objects && IsTable(o) && o.name == name;
    }
  }

  /** A table its users could have made: SQLite reserves only the prefix. */
  predicate IsUserTable(o: SchemaObject) {
    o.sql.Some? && o.kind == "table" && !Reserved(o.name)
  }

  /** The rebuild keeps every user table exactly when none has a name that only
      the pattern, not the reserved prefix, matches. */
  lemma EveryTableKeptIff(engine: Engine, source: Database, rebuilt: Database)
    requires Rebuilt(engine, source, rebuilt)
    ensures (forall o | o in source.objects && IsUserTable(o) :: o.name in rebuilt.tables)
            <==> (forall o | o in source.objects && IsUserTable(o) :: !LikeReserved(o.name))
  {
    assert Reserved("sqlite_sequence");
  }

  /** An object its users could have made. */
  predicate IsUserObject(o: SchemaObject) {
    o.sql.Some? && !Reserved(o.name) && (o.kind == "table" || o.kind == "index" || o.kind == "view" || o.kind == "trigger")
  }

  /** The same for every kind of object: a table may keep its rows and lose a
      trigger or an index. */
  lemma EveryObjectKeptIff(engine: Engine, source: Database, rebuilt: Database)
    requires Rebuilt(engine, source, rebuilt)
    ensures (forall o | o in source.objects && IsUserObject(o) :: o in rebuilt.objects)
            <==> (forall o | o in source.objects && IsUserObject(o) :: !LikeReserved(o.name))
  {
    forall o | o in source.objects && IsUserObject(o) && !LikeReserved(o.name) ensures o in rebuilt.objects {
      var kept := Select(source.objects, x => IsTable(x) || IsDependent(x));
      assert o in kept && o in multiset(kept);
      assert o in multiset(Select(rebuilt.objects, IsListed));
      assert o in Select(rebuilt.objects, IsListed);
    }
  }

  lemma SpellsOneMore(s: string, word: string)
    requires |s| == |word| == 7 && word[6] == '_'
    ensures Spells(s, word) <==> Spells(s[..6], word[..6]) && s[6] == '_'
  {
    assert forall c :: SameLetter(c, '_') <==> c == '_';
    if Spells(s[..6], word[..6]) && s[6] == '_' {
      forall i | 0 <= i < 7 ensures SameLetter(s[i], word[i]) {
        if i < 6 { assert SameLetter(s[..6][i], word[..6][i]); }
      }
    }
    if Spells(s, word) {
      forall i | 0 <= i < 6 ensures SameLetter(s[..6][i], word[..6][i]) { assert SameLetter(s[i], word[i]); }
      assert SameLetter(s[6], word[6]);
    }
  }

  /** Such names exist: the ones with some other seventh character. */
  lemma PatternIsWider()
    ensures LikeReserved("sqlite3_users") && !Reserved("sqlite3_users")
    ensures forall name :: Reserved(name) ==> LikeReserved(name)
    ensures forall name :: LikeReserved(name) && !Reserved(name) <==> |name| >= 7 && Spells(name[..6], "sqlite") && name[6] != '_'
  {
    forall name: string ensures LikeReserved(name) && !Reserved(name) <==> |name| >= 7 && Spells(name[..6], "sqlite") && name[6] != '_' {
      if |name| >= 7 {
        FoldingIsSpelling(name[..6], "sqlite");
        FoldingIsSpelling(name[..7], "sqlite_");
        SpellsOneMore(name[..7], "sqlite_");
        assert name[..7][..6] == name[..6] && "sqlite_"[..6] == "sqlite";
      }
    }
    var name := "sqlite3_users";
    assert name[..6] == "sqlite";
    assert name[..7][6] == '3';
    forall name: string | Reserved(name) ensures LikeReserved(name) {
      forall i | 0 <= i < 6 ensures Lower(name[..6][i]) == Lower("sqlite"[i]) {
        assert name[..6][i] == name[..7][i] && "sqlite"[i] == "sqlite_"[i];
      }
    }
  }
}
