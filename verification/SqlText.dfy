/** SQL text as the connector writes and reads it: quoted identifiers, the copy
    statements, the multi-statement scanner, and column defaults. */
module SqlText {
  import opened Wrappers
  import Cells
  import opened Databases

  // Quoting

  /** Every occurrence of `q` doubled. */
  function DoubleUp(s: string, q: char): string {
    if s == "" then "" else (if s[0] == q then [q, q] else [s[0]]) + DoubleUp(s[1..], q)
  }

  /** Pairs of `q` replaced by one, from the left, without overlap. */
  function Undouble(s: string, q: char): string {
    if |s| >= 2 && s[0] == q && s[1] == q then [q] + Undouble(s[2..], q)
    else if s == "" then ""
    else [s[0]] + Undouble(s[1..], q)
  }

  lemma {:induction false} UndoubleInverts(s: string, q: char)
    ensures Undouble(DoubleUp(s, q), q) == s
  {
    if s != "" {
      var d := DoubleUp(s, q);
      UndoubleInverts(s[1..], q);
      if s[0] == q {
        assert d[2..] == DoubleUp(s[1..], q);
      } else {
        assert d[1..] == DoubleUp(s[1..], q);
      }
      assert [s[0]] + s[1..] == s;
    }
  }

  /** So many characters of one kind in a row. */
  function Run(q: char, n: nat): string {
    seq(n, i => q)
  }

  /** Of a run of quotes every pair gives one, and an odd one is left; anything else
      is left as it is. */
  lemma {:induction false} UndoubleRun(q: char, n: nat, rest: string)
    requires rest == "" || rest[0] != q
    ensures Undouble(Run(q, n) + rest, q) == Run(q, (n + 1) / 2) + (if rest == "" then "" else [rest[0]] + Undouble(rest[1..], q))
  {
    if n >= 2 {
      var tail := Run(q, n - 2) + rest;
      assert Run(q, n) + rest == [q, q] + tail;
      PairUndoubled(q, tail);
      UndoubleRun(q, n - 2, rest);
      RunGrows(q, (n - 1) / 2, if rest == "" then "" else [rest[0]] + Undouble(rest[1..], q));
    } else {
      ShortRun(q, n, rest);
    }
  }

  lemma RunGrows(q: char, n: nat, tail: string)
    ensures [q] + (Run(q, n) + tail) == Run(q, n + 1) + tail
  {
    assert [q] + Run(q, n) == Run(q, n + 1);
  }

  lemma PairUndoubled(q: char, tail: string)
    ensures Undouble([q, q] + tail, q) == [q] + Undouble(tail, q)
  {
    assert ([q, q] + tail)[2..] == tail;
  }

  lemma ShortRun(q: char, n: nat, rest: string)
    requires n < 2 && (rest == "" || rest[0] != q)
    ensures Undouble(Run(q, n) + rest, q) == Run(q, n) + (if rest == "" then "" else [rest[0]] + Undouble(rest[1..], q))
  {
    if n == 1 {
      assert Run(q, 1) == [q] && ([q] + rest)[1..] == rest;
    } else {
      assert Run(q, 0) + rest == rest;
    }
  }

  /** `quote_identifier`. */
  function QuoteIdentifier(name: string): string {
    "\"" + DoubleUp(name, '"') + "\""
  }

  /** The rest of a delimited identifier once its opening quote is past: a
      doubled quote stands for one, a single quote ends it (section 5.2 of
      ISO/IEC 9075-2). The name read and what follows it. */
  function ReadBody(s: string): Option<(string, string)>
    decreases |s|
  {
    if s == "" then None
    else if s[0] != '"' then
      match ReadBody(s[1..])
      case None => None
      case Some(r) => Some(([s[0]] + r.0, r.1))
    else if |s| >= 2 && s[1] == '"' then
      match ReadBody(s[2..])
      case None => None
      case Some(r) => Some((['"'] + r.0, r.1))
    else Some(("", s[1..]))
  }

  function ReadIdentifier(s: string): (r: Option<(string, string)>)
    ensures r.Some? ==> |r.value.1| < |s|
  {
    if s == "" || s[0] != '"' then None
    else
      ReadBodyShrinks(s[1..]);
      ReadBody(s[1..])
  }

  lemma ReadBodyShrinks(s: string)
    ensures ReadBody(s).Some? ==> |ReadBody(s).value.1| < |s|
    decreases |s|
  {
    if s != "" && s[0] != '"' {
      ReadBodyShrinks(s[1..]);
    } else if |s| >= 2 && s[1] == '"' {
      ReadBodyShrinks(s[2..]);
    }
  }

  lemma PlainCharacterRead(c: char, tail: string)
    requires c != '"'
    ensures ReadBody([c] + tail)
            == match ReadBody(tail) { case None => None case Some(r) => Some(([c] + r.0, r.1)) }
  {
    assert ([c] + tail)[1..] == tail;
  }

  lemma DoubledQuoteRead(tail: string)
    ensures ReadBody(['"', '"'] + tail)
            == match ReadBody(tail) { case None => None case Some(r) => Some((['"'] + r.0, r.1)) }
  {
    assert (['"', '"'] + tail)[2..] == tail;
  }

  lemma ClosingQuoteRead(rest: string)
    requires rest == "" || rest[0] != '"'
    ensures ReadBody("\"" + rest) == Some(("", rest))
  {
    assert ("\"" + rest)[1..] == rest;
  }

  lemma {:induction false} ReadBodyInverts(name: string, rest: string)
    requires rest == "" || rest[0] != '"'
    ensures ReadBody(DoubleUp(name, '"') + ("\"" + rest)) == Some((name, rest))
  {
    if name == "" {
      assert DoubleUp(name, '"') + ("\"" + rest) == "\"" + rest;
      ClosingQuoteRead(rest);
    } else {
      var tail := DoubleUp(name[1..], '"') + ("\"" + rest);
      ReadBodyInverts(name[1..], rest);
      DoubledFirst(name, '"', "\"" + rest);
      if name[0] == '"' {
        DoubledQuoteRead(tail);
      } else {
        PlainCharacterRead(name[0], tail);
      }
      assert [name[0]] + name[1..] == name;
    }
  }

  lemma DoubledFirst(name: string, q: char, after: string)
    requires name != ""
    ensures DoubleUp(name, q) + after == (if name[0] == q then [q, q] else [name[0]]) + (DoubleUp(name[1..], q) + after)
  {
  }

  /** Reading back a quoted name gives the name, whatever it holds, and stops at its end. */
  lemma QuotingReadsBack(name: string, rest: string)
    requires rest == "" || rest[0] != '"'
    ensures ReadIdentifier(QuoteIdentifier(name) + rest) == Some((name, rest))
  {
    ReadBodyInverts(name, rest);
    var s := QuoteIdentifier(name) + rest;
    assert s == "\"" + (DoubleUp(name, '"') + ("\"" + rest));
    assert s[1..] == DoubleUp(name, '"') + ("\"" + rest);
  }

  // Lists of names and of placeholders

  function QuotedList(names: seq<string>): string {
    if names == [] then ""
    else if |names| == 1 then QuoteIdentifier(names[0])
    else QuoteIdentifier(names[0]) + ", " + QuotedList(names[1..])
  }

  predicate StartsWith(s: string, prefix: string) {
    |prefix| <= |s| && s[..|prefix|] == prefix
  }

  function ReadList(s: string): Option<(seq<string>, string)>
    decreases |s|
  {
    match ReadIdentifier(s)
    case None => None
    case Some(first) =>
      if StartsWith(first.1, ", ") then
        match ReadList(first.1[2..])
        case None => None
        case Some(more) => Some(([first.0] + more.0, more.1))
      else Some(([first.0], first.1))
  }

  lemma LastNameRead(name: string, rest: string)
    requires (rest == "" || rest[0] != '"') && !StartsWith(rest, ", ")
    ensures ReadList(QuoteIdentifier(name) + rest) == Some(([name], rest))
  {
    QuotingReadsBack(name, rest);
  }

  lemma NextNameRead(name: string, tail: string)
    ensures ReadList(QuoteIdentifier(name) + (", " + tail))
            == match ReadList(tail) { case None => None case Some(more) => Some(([name] + more.0, more.1)) }
  {
    QuotingReadsBack(name, ", " + tail);
    assert (", " + tail)[2..] == tail;
  }

  lemma Regroup(a: string, b: string, c: string, d: string)
    ensures a + b + c + d == a + (b + (c + d))
  {
  }

  lemma RegroupFive(a: string, b: string, c: string, d: string, e: string)
    ensures a + b + c + d + e == a + (b + (c + (d + e)))
  {
    Regroup(a, b, c, d + e);
    Regroup(a + b, c, d, e);
  }

  lemma RegroupSeven(a: string, b: string, c: string, d: string, e: string, f: string, g: string)
    ensures a + b + c + d + e + f + g == a + (b + (c + (d + (e + (f + g)))))
  {
    RegroupFive(a, b, c, d, e + (f + g));
    Regroup(a + b + c + d, e, f, g);
  }

  lemma {:induction false} QuotedListReadsBack(names: seq<string>, rest: string)
    requires names != [] && (rest == "" || rest[0] != '"') && !StartsWith(rest, ", ")
    ensures ReadList(QuotedList(names) + rest) == Some((names, rest))
  {
    if |names| == 1 {
      LastNameRead(names[0], rest);
      assert names == [names[0]];
    } else {
      var tail := QuotedList(names[1..]) + rest;
      Regroup(QuoteIdentifier(names[0]), ", ", QuotedList(names[1..]), rest);
      NextNameRead(names[0], tail);
      QuotedListReadsBack(names[1..], rest);
      assert [names[0]] + names[1..] == names;
    }
  }

  function Placeholders(n: nat): string {
    if n == 0 then "" else if n == 1 then "?" else "?, " + Placeholders(n - 1)
  }

  /** How many placeholders a list holds, and what follows it. */
  function ReadPlaceholders(s: string): Option<(nat, string)>
    decreases |s|
  {
    if s == "" || s[0] != '?' then None
    else if StartsWith(s[1..], ", ") then
      match ReadPlaceholders(s[3..])
      case None => None
      case Some(r) => Some((r.0 + 1, r.1))
    else Some((1, s[1..]))
  }

  lemma {:induction false} PlaceholdersReadBack(n: nat, rest: string)
    requires n > 0 && !StartsWith(rest, ", ")
    ensures ReadPlaceholders(Placeholders(n) + rest) == Some((n, rest))
  {
    var s := Placeholders(n) + rest;
    if n == 1 {
      assert s[1..] == rest;
    } else {
      var tail := Placeholders(n - 1) + rest;
      assert s == "?, " + tail;
      assert s[1..] == ", " + tail && s[3..] == tail;
      PlaceholdersReadBack(n - 1, rest);
    }
  }

  // The copy statements

  function SelectSql(table: string, columns: seq<string>): string {
    "SELECT " + QuotedList(columns) + " FROM " + QuoteIdentifier(table) + " NOT INDEXED"
  }

  function InsertSql(table: string, columns: seq<string>): string {
    "INSERT INTO " + QuoteIdentifier(table) + " (" + QuotedList(columns) + ") VALUES (" + Placeholders(|columns|) + ")"
  }

  /** A NUL character, at which SQLite's C interface would cut a statement off. */
  const NUL := '\0'

  predicate HasNul(table: string, columns: seq<string>) {
    NUL in table || exists c | c in columns :: NUL in c
  }

  lemma {:induction false} DoublingAddsNoNul(s: string)
    ensures NUL in DoubleUp(s, '"') <==> NUL in s
  {
    if s != "" { DoublingAddsNoNul(s[1..]); }
  }

  lemma {:induction false} ListAddsNoNul(names: seq<string>)
    ensures NUL in QuotedList(names) <==> exists c | c in names :: NUL in c
  {
    if names != [] {
      DoublingAddsNoNul(names[0]);
      ListAddsNoNul(names[1..]);
      assert forall c :: c in names <==> c == names[0] || c in names[1..];
    }
  }

  lemma {:induction false} PlaceholdersHaveNoNul(n: nat)
    ensures NUL !in Placeholders(n)
  {
    if n > 1 { PlaceholdersHaveNoNul(n - 1); }
  }

  /** A generated statement has a NUL exactly when a name in it has. */
  lemma NulComesFromNames(table: string, columns: seq<string>)
    ensures NUL in SelectSql(table, columns) <==> HasNul(table, columns)
    ensures NUL in InsertSql(table, columns) <==> HasNul(table, columns)
  {
    DoublingAddsNoNul(table);
    ListAddsNoNul(columns);
    PlaceholdersHaveNoNul(|columns|);
    var list, name, places := QuotedList(columns), QuoteIdentifier(table), Placeholders(|columns|);
    assert NUL in SelectSql(table, columns) <==> NUL in list || NUL in name;
    assert NUL in InsertSql(table, columns) <==> NUL in list || NUL in name || NUL in places;
  }

  function Skip(s: string, prefix: string): Option<string> {
    if StartsWith(s, prefix) then Some(s[|prefix|..]) else None
  }

  lemma SkipReadsBack(prefix: string, rest: string)
    ensures Skip(prefix + rest, prefix) == Some(rest)
  {
    assert (prefix + rest)[..|prefix|] == prefix;
    assert (prefix + rest)[|prefix|..] == rest;
  }

  datatype Target = Target(table: string, columns: seq<string>, values: nat)

  /** What an engine makes of a select in the copy's form. */
  function ParseSelect(sql: string): Option<Target> {
    match Skip(sql, "SELECT ")
    case None => None
    case Some(a) =>
      match ReadList(a)
      case None => None
      case Some(columns) =>
        match Skip(columns.1, " FROM ")
        case None => None
        case Some(b) =>
          match ReadIdentifier(b)
          case None => None
          case Some(table) =>
            if table.1 == " NOT INDEXED" then Some(Target(table.0, columns.0, 0)) else None
  }

  /** What an engine makes of an insert in the copy's form. */
  function ParseInsert(sql: string): Option<Target> {
    match Skip(sql, "INSERT INTO ")
    case None => None
    case Some(a) =>
      match ReadIdentifier(a)
      case None => None
      case Some(table) =>
        match Skip(table.1, " (")
        case None => None
        case Some(b) =>
          match ReadList(b)
          case None => None
          case Some(columns) =>
            match Skip(columns.1, ") VALUES (")
            case None => None
            case Some(c) =>
              match ReadPlaceholders(c)
              case None => None
              case Some(values) =>
                if values.1 == ")" then Some(Target(table.0, columns.0, values.0)) else None
  }

  /** The generated select names exactly the table and columns it was built from. */
  lemma SelectNamesItsTable(table: string, columns: seq<string>)
    requires columns != []
    ensures ParseSelect(SelectSql(table, columns)) == Some(Target(table, columns, 0))
  {
    var b := QuoteIdentifier(table) + " NOT INDEXED";
    var a := QuotedList(columns) + (" FROM " + b);
    RegroupFive("SELECT ", QuotedList(columns), " FROM ", QuoteIdentifier(table), " NOT INDEXED");
    SkipReadsBack("SELECT ", a);
    QuotedListReadsBack(columns, " FROM " + b);
    SkipReadsBack(" FROM ", b);
    QuotingReadsBack(table, " NOT INDEXED");
  }

  /** The generated insert names exactly the table and columns it was built from,
      with one placeholder a column. */
  lemma InsertNamesItsTable(table: string, columns: seq<string>)
    requires columns != []
    ensures ParseInsert(InsertSql(table, columns)) == Some(Target(table, columns, |columns|))
  {
    var c := Placeholders(|columns|) + ")";
    var b := QuotedList(columns) + (") VALUES (" + c);
    var a := QuoteIdentifier(table) + (" (" + b);
    RegroupSeven("INSERT INTO ", QuoteIdentifier(table), " (", QuotedList(columns), ") VALUES (", Placeholders(|columns|), ")");
    SkipReadsBack("INSERT INTO ", a);
    QuotingReadsBack(table, " (" + b);
    SkipReadsBack(" (", b);
    QuotedListReadsBack(columns, ") VALUES (" + c);
    SkipReadsBack(") VALUES (", c);
    PlaceholdersReadBack(|columns|, ")");
  }

  // The multi-statement scanner

  /** Unicode's White_Space property. */
  predicate IsWhitespace(c: char) {
    || '\U{0009}' <= c <= '\U{000D}' || c == ' ' || c == '\U{0085}' || c == '\U{00A0}' || c == '\U{1680}'
    || '\U{2000}' <= c <= '\U{200A}' || c == '\U{2028}' || c == '\U{2029}' || c == '\U{202F}'
    || c == '\U{205F}' || c == '\U{3000}'
  }

  /** The twenty-five characters of that property. */
  const WHITE_SPACE: string :=
    "\U{0009}\U{000A}\U{000B}\U{000C}\U{000D}\U{0020}\U{0085}\U{00A0}\U{1680}\U{2000}\U{2001}\U{2002}\U{2003}"
    + "\U{2004}\U{2005}\U{2006}\U{2007}\U{2008}\U{2009}\U{200A}\U{2028}\U{2029}\U{202F}\U{205F}\U{3000}"

  lemma WhitespaceIs(c: char)
    ensures IsWhitespace(c) <==> c in WHITE_SPACE
  {
    var first := "\U{0009}\U{000A}\U{000B}\U{000C}\U{000D}\U{0020}\U{0085}\U{00A0}\U{1680}\U{2000}\U{2001}\U{2002}\U{2003}";
    var second := "\U{2004}\U{2005}\U{2006}\U{2007}\U{2008}\U{2009}\U{200A}\U{2028}\U{2029}\U{202F}\U{205F}\U{3000}";
    assert c in WHITE_SPACE <==> c in first || c in second;
  }

  function Quotes(s: string): nat {
    if s == "" then 0 else Quotes(s[..|s| - 1]) + if s[|s| - 1] == '\'' then 1 else 0
  }

  /** A semicolon outside single quotes, by parity alone, with text after it. */
  ghost predicate SplitsAt(sql: string, i: nat)
    requires i < |sql|
  {
    sql[i] == ';' && Quotes(sql[..i]) % 2 == 0 && exists j | i < j < |sql| :: !IsWhitespace(sql[j])
  }

  /** Any character of the tail is not white space. */
  method HasText(sql: string, from: nat) returns (found: bool)
    requires from <= |sql|
    ensures found <==> exists j | from <= j < |sql| :: !IsWhitespace(sql[j])
  {
    for j := from to |sql|
      invariant forall k | from <= k < j :: IsWhitespace(sql[k])
    {
      if !IsWhitespace(sql[j]) { return true; }
    }
    return false;
  }

  lemma QuotesStep(sql: string, i: nat)
    requires i < |sql|
    ensures Quotes(sql[..i + 1]) == Quotes(sql[..i]) + if sql[i] == '\'' then 1 else 0
  {
    assert sql[..i + 1][..i] == sql[..i];
  }

  /** `has_multiple_statements`: the lookahead that swallows a doubled quote is,
      on every string, the same as plain quote parity. */
  method HasMultipleStatements(sql: string) returns (many: bool)
    ensures many <==> exists i | 0 <= i < |sql| :: SplitsAt(sql, i)
  {
    var quoted := false;
    var i := 0;
    while i < |sql|
      invariant 0 <= i <= |sql|
      invariant quoted <==> Quotes(sql[..i]) % 2 == 1
      invariant forall k | 0 <= k < i :: !SplitsAt(sql, k)
    {
      var c := sql[i];
      QuotesStep(sql, i);
      i := i + 1;
      if c == '\'' {
        if quoted && i < |sql| && sql[i] == '\'' {
          QuotesStep(sql, i);
          i := i + 1;
        } else {
          quoted := !quoted;
        }
      } else if c == ';' && !quoted {
        var text := HasText(sql, i);
        if text {
          assert SplitsAt(sql, i - 1);
          return true;
        }
      }
    }
    return false;
  }

  // Column defaults

  function TrimStart(s: string): string {
    if s != "" && IsWhitespace(s[0]) then TrimStart(s[1..]) else s
  }

  function TrimEnd(s: string): string {
    if s != "" && IsWhitespace(s[|s| - 1]) then TrimEnd(s[..|s| - 1]) else s
  }

  predicate IsNullWord(s: string) {
    |s| == 4 && (s[0] == 'n' || s[0] == 'N') && (s[1] == 'u' || s[1] == 'U')
    && (s[2] == 'l' || s[2] == 'L') && (s[3] == 'l' || s[3] == 'L')
  }

  /** `default_value`; `parse` stands for the JSON parser. */
  function DefaultValue(value: string, parse: string -> Option<Cells.Json>): Cells.Json {
    var trimmed := TrimEnd(TrimStart(value));
    if IsNullWord(trimmed) then Cells.JNull
    else if |trimmed| >= 2 && trimmed[0] == '\'' && trimmed[|trimmed| - 1] == '\'' then
      Cells.JString(Undouble(trimmed[1..|trimmed| - 1], '\''))
    else
      match parse(trimmed)
      case Some(v) => v
      case None => Cells.JString(trimmed)
  }

  function QuoteLiteral(s: string): string {
    "'" + DoubleUp(s, '\'') + "'"
  }

  predicate Blank(s: string) {
    forall c | c in s :: IsWhitespace(c)
  }

  lemma {:induction false} TrimStartSkips(blank: string, s: string)
    requires Blank(blank) && (s == "" || !IsWhitespace(s[0]))
    ensures TrimStart(blank + s) == s
  {
    if blank == "" {
      assert blank + s == s;
    } else {
      assert (blank + s)[1..] == blank[1..] + s;
      TrimStartSkips(blank[1..], s);
    }
  }

  lemma {:induction false} TrimEndSkips(s: string, blank: string)
    requires Blank(blank) && (s == "" || !IsWhitespace(s[|s| - 1]))
    ensures TrimEnd(s + blank) == s
  {
    if blank == "" {
      assert s + blank == s;
    } else {
      assert (s + blank)[..|s + blank| - 1] == s + blank[..|blank| - 1];
      TrimEndSkips(s, blank[..|blank| - 1]);
    }
  }

  /** The text has no white space around it. */
  ghost predicate IsTrimmed(s: string) {
    s == "" || (!IsWhitespace(s[0]) && !IsWhitespace(s[|s| - 1]))
  }

  lemma TrimmingFinds(before: string, s: string, after: string)
    requires Blank(before) && Blank(after) && IsTrimmed(s)
    ensures TrimEnd(TrimStart(before + s + after)) == s
  {
    assert before + s + after == before + (s + after);
    if s == "" {
      assert before + s + after == before + after && Blank(before + after);
      TrimStartSkips(before + after, "");
      assert before + after + "" == before + after;
    } else {
      TrimStartSkips(before, s + after);
      TrimEndSkips(s, after);
    }
  }

  /** What any default is read as, in any white space: null where the word is spelled,
      in any case; the text of what is between single quotes; what the parser makes
      of it; and where that refuses it, its own text. */
  lemma DefaultReads(s: string, before: string, after: string, parse: string -> Option<Cells.Json>)
    requires Blank(before) && Blank(after) && IsTrimmed(s)
    ensures Spells(s, "null") ==> DefaultValue(before + s + after, parse) == Cells.JNull
    ensures forall inner | s == "'" + inner + "'" ::
              DefaultValue(before + s + after, parse) == Cells.JString(Undouble(inner, '\''))
    ensures !Spells(s, "null") && (forall inner :: s != "'" + inner + "'") ==>
              DefaultValue(before + s + after, parse)
              == match parse(s) { case Some(v) => v case None => Cells.JString(s) }
  {
    TrimmingFinds(before, s, after);
    NullWordIff(s);
    forall inner | s == "'" + inner + "'" ensures s[1..|s| - 1] == inner && |s| >= 2 && s[0] == '\'' && s[|s| - 1] == '\'' {}
    if |s| >= 2 && s[0] == '\'' && s[|s| - 1] == '\'' { assert s == "'" + s[1..|s| - 1] + "'"; }
  }

  lemma NullWordIff(s: string)
    ensures IsNullWord(s) <==> Spells(s, "null")
  {
    if |s| == 4 {
      var word := "null";
      assert Spells(s, word) <==> SameLetter(s[0], word[0]) && SameLetter(s[1], word[1]) && SameLetter(s[2], word[2]) && SameLetter(s[3], word[3]);
    }
  }

  /** A quoted literal of any text, in any white space, is read as that text. */
  lemma DefaultReadsLiteral(s: string, before: string, after: string, parse: string -> Option<Cells.Json>)
    requires Blank(before) && Blank(after)
    ensures DefaultValue(before + QuoteLiteral(s) + after, parse) == Cells.JString(s)
  {
    var literal := QuoteLiteral(s);
    assert before + literal + after == before + (literal + after);
    TrimStartSkips(before, literal + after);
    TrimEndSkips(literal, after);
    assert literal[1..|literal| - 1] == DoubleUp(s, '\'');
    UndoubleInverts(s, '\'');
  }
}
