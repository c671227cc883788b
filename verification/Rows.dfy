/** Result rows: lookup by name, and the two normalisers that turn a service's
    response into rows, one strict and one lenient. */
module Rows {
  import opened Wrappers
  import opened Cells

  datatype Row = Row(columns: seq<string>, values: seq<Json>)

  /** What a service sends back for one statement. */
  datatype Response = Response(columns: seq<string>, rows: seq<Json>, affected: nat)

  datatype RowsError = DuplicateColumns | NotAnObject | WrongWidth | MissingColumn | Unsupported

  type Fields = map<string, Json>

  function NameSet(names: seq<string>): set<string> {
    set name | name in names
  }

  ghost predicate Distinct(names: seq<string>) {
    forall i, j | 0 <= i < j < |names| :: names[i] != names[j]
  }

  // Lookup

  /** `RowIndex` for a name: the first match from the left. */
  function Position(columns: seq<string>, name: string): (at: Option<nat>)
    ensures at.Some? ==> at.value < |columns| && columns[at.value] == name && name !in columns[..at.value]
    ensures at == None ==> name !in columns
  {
    if columns == [] then None
    else if columns[0] == name then Some(0)
    else
      match Position(columns[1..], name)
      case None => None
      case Some(i) =>
        assert columns[..i + 1] == [columns[0]] + columns[1..][..i];
        Some(i + 1)
  }

  /** `Row::get_json_ref` by name. */
  function Lookup(row: Row, name: string): Option<Json> {
    match Position(row.columns, name)
    case None => None
    case Some(i) => if i < |row.values| then Some(row.values[i]) else None
  }

  /** The object a row is the columns and values of; a repeated name keeps its last value. */
  ghost function Zip(columns: seq<string>, values: seq<Json>): Fields
    requires |columns| == |values|
  {
    if columns == [] then map[]
    else Zip(columns[..|columns| - 1], values[..|columns| - 1])[columns[|columns| - 1] := values[|columns| - 1]]
  }

  // The strict normaliser

  /** One row's values in column order. */
  function StrictValues(columns: seq<string>, fields: Fields): Result<seq<Json>, RowsError> {
    if columns == [] then Ok([])
    else if columns[0] !in fields then Err(MissingColumn)
    else if !Supported(fields[columns[0]]) then Err(Unsupported)
    else
      match StrictValues(columns[1..], fields)
      case Err(e) => Err(e)
      case Ok(rest) => Ok([fields[columns[0]]] + rest)
  }

  function StrictRow(columns: seq<string>, value: Json): Result<Row, RowsError> {
    if !value.JObject? then Err(NotAnObject)
    else if |value.fields| != |columns| then Err(WrongWidth)
    else
      match StrictValues(columns, value.fields)
      case Err(e) => Err(e)
      case Ok(values) => Ok(Row(columns, values))
  }

  function StrictList(columns: seq<string>, rows: seq<Json>): Result<seq<Row>, RowsError> {
    if rows == [] then Ok([])
    else
      match StrictRow(columns, rows[0])
      case Err(e) => Err(e)
      case Ok(first) =>
        match StrictList(columns, rows[1..])
        case Err(e) => Err(e)
        case Ok(rest) => Ok([first] + rest)
  }

  /** The service adapter's `rows_from_response`. */
  function StrictRows(response: Response): Result<seq<Row>, RowsError> {
    if |NameSet(response.columns)| != |response.columns| then Err(DuplicateColumns)
    else StrictList(response.columns, response.rows)
  }

  // What acceptance means

  lemma {:induction false} NamesCounted(names: seq<string>)
    ensures |NameSet(names)| <= |names|
    ensures |NameSet(names)| == |names| <==> Distinct(names)
  {
    if names == [] {
      assert NameSet(names) == {};
    } else {
      var last, before := names[|names| - 1], names[..|names| - 1];
      NamesCounted(before);
      assert names == before + [last];
      assert NameSet(names) == NameSet(before) + {last};
      if last in before {
        var i :| 0 <= i < |before| && before[i] == last;
        assert names[i] == names[|names| - 1];
      } else {
        forall i, j | Distinct(before) && 0 <= i < j < |names| ensures names[i] != names[j] {
          if j == |names| - 1 { assert names[i] == before[i]; }
        }
        assert Distinct(names) ==> Distinct(before);
      }
    }
  }

  /** The cells of a row fit the portable profile. */
  ghost predicate AllSupported(fields: Fields) {
    forall name | name in fields :: Supported(fields[name])
  }

  lemma {:induction false} StrictValuesAre(columns: seq<string>, fields: Fields)
    ensures StrictValues(columns, fields).Ok? <==> forall name | name in columns :: name in fields && Supported(fields[name])
    ensures StrictValues(columns, fields).Ok? ==>
              && |StrictValues(columns, fields).value| == |columns|
              && forall i | 0 <= i < |columns| :: StrictValues(columns, fields).value[i] == fields[columns[i]]
  {
    if columns != [] {
      StrictValuesAre(columns[1..], fields);
      assert columns == [columns[0]] + columns[1..];
    }
  }

  /** Distinct names, all of them keys and as many as there are keys, are all the keys. */
  lemma NamesAreKeys(columns: seq<string>, fields: Fields)
    requires Distinct(columns) && |fields| == |columns|
    requires forall name | name in columns :: name in fields
    ensures NameSet(columns) == fields.Keys
  {
    NamesCounted(columns);
    SubsetOfEqualSize(NameSet(columns), fields.Keys);
  }

  lemma SubsetOfEqualSize<T>(a: set<T>, b: set<T>)
    requires a <= b && |a| == |b|
    ensures a == b
  {
    assert b == a + (b - a);
    assert |b| == |a| + |b - a|;
  }

  lemma SizeOfKeys(fields: Fields)
    ensures |fields.Keys| == |fields|
  {
  }

  lemma {:induction false} ZipIs(columns: seq<string>, values: seq<Json>, fields: Fields)
    requires |columns| == |values|
    requires forall i | 0 <= i < |columns| :: columns[i] in fields && values[i] == fields[columns[i]]
    ensures Zip(columns, values).Keys == NameSet(columns)
    ensures forall name | name in columns :: Zip(columns, values)[name] == fields[name]
  {
    if columns != [] {
      var n := |columns| - 1;
      ZipIs(columns[..n], values[..n], fields);
      assert columns == columns[..n] + [columns[n]];
    }
  }

  /** What the strict form keeps of one row: everything. */
  ghost predicate RowIsObject(row: Row, value: Json) {
    && value.JObject? && |row.values| == |row.columns|
    && Zip(row.columns, row.values) == value.fields
    && (forall name :: Lookup(row, name) == if name in value.fields then Some(value.fields[name]) else None)
  }

  lemma StrictRowKeepsAll(columns: seq<string>, value: Json)
    requires Distinct(columns)
    ensures StrictRow(columns, value).Ok?
            <==> value.JObject? && value.fields.Keys == NameSet(columns) && AllSupported(value.fields)
    ensures StrictRow(columns, value).Ok? ==>
              StrictRow(columns, value).value.columns == columns && RowIsObject(StrictRow(columns, value).value, value)
  {
    if value.JObject? {
      NamesCounted(columns);
      SizeOfKeys(value.fields);
      StrictValuesAre(columns, value.fields);
      if StrictRow(columns, value).Ok? {
        NamesAreKeys(columns, value.fields);
        StrictRowIsObject(columns, value);
      }
    }
  }

  lemma StrictRowIsObject(columns: seq<string>, value: Json)
    requires StrictRow(columns, value).Ok? && value.fields.Keys == NameSet(columns)
    ensures RowIsObject(StrictRow(columns, value).value, value)
  {
    StrictValuesAre(columns, value.fields);
    var row := StrictRow(columns, value).value;
    ZipIs(columns, row.values, value.fields);
    assert Zip(columns, row.values) == value.fields;
    forall name
      ensures Lookup(row, name) == if name in value.fields then Some(value.fields[name]) else None
    {
      assert name in value.fields <==> name in columns;
    }
  }

  lemma {:induction false} StrictListKeepsAll(columns: seq<string>, rows: seq<Json>)
    ensures StrictList(columns, rows).Ok? <==> forall i | 0 <= i < |rows| :: StrictRow(columns, rows[i]).Ok?
    ensures StrictList(columns, rows).Ok? ==>
              && |StrictList(columns, rows).value| == |rows|
              && forall i | 0 <= i < |rows| :: StrictRow(columns, rows[i]) == Ok(StrictList(columns, rows).value[i])
  {
    if rows != [] {
      StrictListKeepsAll(columns, rows[1..]);
    }
  }

  /** The strict normaliser accepts exactly the responses with distinct columns
      whose every row is an object with just those keys and portable cells; and
      then each row, zipped or looked up by name, is its object. */
  lemma StrictLosesNothing(response: Response)
    ensures StrictRows(response).Ok?
            <==> Distinct(response.columns)
                 && forall value | value in response.rows ::
                      value.JObject? && value.fields.Keys == NameSet(response.columns) && AllSupported(value.fields)
    ensures StrictRows(response).Ok? ==>
              && |StrictRows(response).value| == |response.rows|
              && forall i | 0 <= i < |response.rows| :: RowIsObject(StrictRows(response).value[i], response.rows[i])
  {
    NamesCounted(response.columns);
    if Distinct(response.columns) {
      StrictListKeepsAll(response.columns, response.rows);
      forall value ensures StrictRow(response.columns, value).Ok?
                           <==> value.JObject? && value.fields.Keys == NameSet(response.columns) && AllSupported(value.fields)
      {
        StrictRowKeepsAll(response.columns, value);
      }
      forall i | StrictRows(response).Ok? && 0 <= i < |response.rows|
        ensures RowIsObject(StrictRows(response).value[i], response.rows[i])
      {
        StrictRowKeepsAll(response.columns, response.rows[i]);
      }
    }
  }

  // What refusal means

  /** Why one column of one row is refused. */
  ghost predicate ColumnRefused(fields: Fields, name: string, e: RowsError) {
    || (name !in fields && e == MissingColumn)
    || (name in fields && !Supported(fields[name]) && e == Unsupported)
  }

  ghost predicate ColumnPasses(fields: Fields, name: string) {
    name in fields && Supported(fields[name])
  }

  /** Why one row is refused: it is no object, or not of the width, or its first
      column that does not pass is missing or not portable. */
  ghost predicate RowRefused(columns: seq<string>, value: Json, e: RowsError) {
    || (!value.JObject? && e == NotAnObject)
    || (value.JObject? && |value.fields| != |columns| && e == WrongWidth)
    || (value.JObject? && |value.fields| == |columns|
        && exists j | 0 <= j < |columns| ::
             ColumnRefused(value.fields, columns[j], e) && forall i | 0 <= i < j :: ColumnPasses(value.fields, columns[i]))
  }

  ghost predicate RowPasses(columns: seq<string>, value: Json) {
    value.JObject? && |value.fields| == |columns| && forall i | 0 <= i < |columns| :: ColumnPasses(value.fields, columns[i])
  }

  lemma {:induction false} ValuesRefused(columns: seq<string>, fields: Fields)
    requires StrictValues(columns, fields).Err?
    ensures exists j | 0 <= j < |columns| ::
              ColumnRefused(fields, columns[j], StrictValues(columns, fields).error)
              && forall i | 0 <= i < j :: ColumnPasses(fields, columns[i])
  {
    if ColumnPasses(fields, columns[0]) {
      ValuesRefused(columns[1..], fields);
      var j :| 0 <= j < |columns[1..]| && ColumnRefused(fields, columns[1..][j], StrictValues(columns, fields).error)
                 && forall i | 0 <= i < j :: ColumnPasses(fields, columns[1..][i]);
      forall i | 0 <= i < j + 1 ensures ColumnPasses(fields, columns[i]) {
        if i > 0 { assert columns[1..][i - 1] == columns[i]; }
      }
      assert ColumnRefused(fields, columns[j + 1], StrictValues(columns, fields).error);
    } else {
      assert ColumnRefused(fields, columns[0], StrictValues(columns, fields).error);
    }
  }

  lemma {:induction false} ValuesPass(columns: seq<string>, fields: Fields)
    ensures StrictValues(columns, fields).Ok? <==> forall i | 0 <= i < |columns| :: ColumnPasses(fields, columns[i])
  {
    if columns != [] {
      ValuesPass(columns[1..], fields);
      assert forall i | 0 < i < |columns| :: columns[1..][i - 1] == columns[i];
    }
  }

  lemma StrictRowRefuses(columns: seq<string>, value: Json)
    ensures StrictRow(columns, value).Ok? <==> RowPasses(columns, value)
    ensures StrictRow(columns, value).Err? ==> RowRefused(columns, value, StrictRow(columns, value).error)
  {
    if value.JObject? && |value.fields| == |columns| {
      ValuesPass(columns, value.fields);
      if StrictRow(columns, value).Err? { ValuesRefused(columns, value.fields); }
    }
  }

  lemma {:induction false} StrictListRefuses(columns: seq<string>, rows: seq<Json>)
    requires StrictList(columns, rows).Err?
    ensures exists i | 0 <= i < |rows| ::
              RowRefused(columns, rows[i], StrictList(columns, rows).error) && forall k | 0 <= k < i :: RowPasses(columns, rows[k])
  {
    StrictRowRefuses(columns, rows[0]);
    if StrictRow(columns, rows[0]).Ok? {
      StrictListRefuses(columns, rows[1..]);
      var i :| 0 <= i < |rows[1..]| && RowRefused(columns, rows[1..][i], StrictList(columns, rows).error)
                 && forall k | 0 <= k < i :: RowPasses(columns, rows[1..][k]);
      forall k | 0 <= k < i + 1 ensures RowPasses(columns, rows[k]) {
        if k > 0 { assert rows[1..][k - 1] == rows[k]; }
      }
      assert RowRefused(columns, rows[i + 1], StrictList(columns, rows).error);
    } else {
      assert RowRefused(columns, rows[0], StrictList(columns, rows).error);
    }
  }

  /** A refusal is of repeated columns, or of the first row that does not pass, for
      the first reason there is. */
  lemma StrictRefusal(response: Response)
    requires StrictRows(response).Err?
    ensures StrictRows(response).error == DuplicateColumns <==> !Distinct(response.columns)
    ensures Distinct(response.columns) ==>
              exists i | 0 <= i < |response.rows| ::
                && RowRefused(response.columns, response.rows[i], StrictRows(response).error)
                && forall k | 0 <= k < i :: RowPasses(response.columns, response.rows[k])
  {
    NamesCounted(response.columns);
    if Distinct(response.columns) { StrictListRefuses(response.columns, response.rows); }
  }

  // The lenient normaliser

  function ValueOrNull(fields: Fields, name: string): Json {
    if name in fields then fields[name] else JNull
  }

  function LenientValues(columns: seq<string>, fields: Fields): (values: seq<Json>)
    ensures |values| == |columns|
  {
    seq(|columns|, i requires 0 <= i < |columns| => ValueOrNull(fields, columns[i]))
  }

  /** The keys of an object, in some order. */
  method KeysOf(fields: Fields) returns (keys: seq<string>)
    ensures Distinct(keys) && NameSet(keys) == fields.Keys
  {
    keys := [];
    var left := fields.Keys;
    while left != {}
      invariant Distinct(keys) && NameSet(keys) + left == fields.Keys && NameSet(keys) !! left
      decreases left
    {
      var key :| key in left;
      assert key !in NameSet(keys);
      assert NameSet(keys + [key]) == NameSet(keys) + {key};
      keys := keys + [key];
      left := left - {key};
    }
  }

  /** What the lenient form makes of one object: its own keys if no columns were
      given, else the given columns with null for what is missing. */
  ghost predicate IsLenientRow(columns: seq<string>, value: Json, row: Row) {
    && value.JObject?
    && (if columns == [] then Distinct(row.columns) && NameSet(row.columns) == value.fields.Keys else row.columns == columns)
    && row.values == LenientValues(row.columns, value.fields)
  }

  /** The remote adapter's `rows_from_response`: it refuses only what is not an
      object, and whatever the strict form accepts it turns into the same rows. */
  method LenientRows(response: Response) returns (r: Result<seq<Row>, RowsError>)
    ensures r.Ok? <==> forall value | value in response.rows :: value.JObject?
    ensures r.Ok? ==>
              && |r.value| == |response.rows|
              && forall i | 0 <= i < |response.rows| :: IsLenientRow(response.columns, response.rows[i], r.value[i])
    ensures StrictRows(response).Ok? ==> r == StrictRows(response)
    ensures r.Err? ==> r.error == NotAnObject
  {
    var rows: seq<Row> := [];
    for n := 0 to |response.rows|
      invariant |rows| == n
      invariant forall i | 0 <= i < n :: IsLenientRow(response.columns, response.rows[i], rows[i])
    {
      if !response.rows[n].JObject? {
        assert response.rows[n] in response.rows;
        StrictLosesNothing(response);
        return Err(NotAnObject);
      }
      var fields := response.rows[n].fields;
      var columns := response.columns;
      if columns == [] {
        columns := KeysOf(fields);
      }
      rows := rows + [Row(columns, LenientValues(columns, fields))];
    }
    r := Ok(rows);
    if StrictRows(response).Ok? { LenientIsStrict(response, rows); }
  }

  /** Wherever the strict form accepts, a lenient row can only be the strict one. */
  lemma LenientIsStrict(response: Response, rows: seq<Row>)
    requires StrictRows(response).Ok? && |rows| == |response.rows|
    requires forall i | 0 <= i < |rows| :: IsLenientRow(response.columns, response.rows[i], rows[i])
    ensures rows == StrictRows(response).value
  {
    StrictLosesNothing(response);
    StrictListKeepsAll(response.columns, response.rows);
    forall i | 0 <= i < |rows| ensures rows[i] == StrictRows(response).value[i] {
      LenientRowIsStrict(response.columns, response.rows[i], rows[i]);
    }
  }

  lemma LenientRowIsStrict(columns: seq<string>, value: Json, row: Row)
    requires IsLenientRow(columns, value, row) && StrictRow(columns, value).Ok?
    ensures StrictRow(columns, value) == Ok(row)
  {
    StrictValuesAre(columns, value.fields);
    SizeOfKeys(value.fields);
    assert row.columns == [] || row.columns[0] in NameSet(row.columns);
    assert row.columns == columns;
    assert row.values == StrictValues(columns, value.fields).value;
  }

  /** With columns given, a lenient row is its object exactly when the columns are
      its keys; anything else is dropped or filled in with null. */
  lemma LenientKeepsIff(columns: seq<string>, value: Json, row: Row)
    requires IsLenientRow(columns, value, row)
    ensures Zip(row.columns, row.values) == value.fields <==> NameSet(row.columns) == value.fields.Keys
  {
    var filled := map name | name in NameSet(row.columns) :: ValueOrNull(value.fields, name);
    ZipIs(row.columns, row.values, filled);
  }

  // One result for each operation of a batch

  datatype OperationKind = Read | Write | Schema

  datatype OperationResult = Rows(rows: seq<Row>) | Written(affected: nat)

  datatype PairingError = CountMismatch | BadRows(error: RowsError)

  function PairOne(kind: OperationKind, response: Response): Result<OperationResult, PairingError> {
    if kind.Read? then
      match StrictRows(response)
      case Ok(rows) => Ok(OperationResult.Rows(rows))
      case Err(e) => Err(BadRows(e))
    else Ok(Written(response.affected))
  }

  function PairEach(kinds: seq<OperationKind>, responses: seq<Response>): Result<seq<OperationResult>, PairingError>
    requires |kinds| == |responses|
  {
    if kinds == [] then Ok([])
    else
      match PairOne(kinds[0], responses[0])
      case Err(e) => Err(e)
      case Ok(first) =>
        match PairEach(kinds[1..], responses[1..])
        case Err(e) => Err(e)
        case Ok(rest) => Ok([first] + rest)
  }

  /** The service adapter's `atomic`, from its response on. */
  function PairStrict(kinds: seq<OperationKind>, responses: seq<Response>): Result<seq<OperationResult>, PairingError> {
    if |responses| != |kinds| then Err(CountMismatch) else PairEach(kinds, responses)
  }

  lemma {:induction false} PairedInOrder(kinds: seq<OperationKind>, responses: seq<Response>)
    ensures PairStrict(kinds, responses).Ok?
            <==> |responses| == |kinds| && forall i | 0 <= i < |kinds| :: kinds[i].Read? ==> StrictRows(responses[i]).Ok?
    ensures PairStrict(kinds, responses).Ok? ==>
              && var results := PairStrict(kinds, responses).value;
              && |results| == |kinds|
              && forall i | 0 <= i < |kinds| ::
                   && (results[i].Rows? <==> kinds[i].Read?)
                   && (kinds[i].Read? ==> StrictRows(responses[i]) == Ok(results[i].rows))
                   && (!kinds[i].Read? ==> results[i].affected == responses[i].affected)
  {
    if kinds != [] && |responses| == |kinds| {
      PairedInOrder(kinds[1..], responses[1..]);
    }
  }

  /** A read's rows in their lenient form, or the count of anything else. */
  ghost predicate IsLenientResult(kind: OperationKind, response: Response, result: OperationResult) {
    if kind.Read? then
      && result.Rows? && |result.rows| == |response.rows|
      && forall i | 0 <= i < |response.rows| :: IsLenientRow(response.columns, response.rows[i], result.rows[i])
    else result == Written(response.affected)
  }

  /** The strict pairing refuses a wrong number of results, or else the first read
      whose rows are refused, for their reason. */
  lemma {:induction false} PairingRefused(kinds: seq<OperationKind>, responses: seq<Response>)
    requires PairStrict(kinds, responses).Err?
    ensures PairStrict(kinds, responses).error == CountMismatch <==> |responses| != |kinds|
    ensures |responses| == |kinds| ==>
              exists i | 0 <= i < |kinds| ::
                && kinds[i].Read? && StrictRows(responses[i]).Err?
                && PairStrict(kinds, responses).error == BadRows(StrictRows(responses[i]).error)
                && forall k | 0 <= k < i :: kinds[k].Read? ==> StrictRows(responses[k]).Ok?
  {
    if |responses| == |kinds| && PairOne(kinds[0], responses[0]).Ok? {
      PairingRefused(kinds[1..], responses[1..]);
      var i :| 0 <= i < |kinds[1..]| && kinds[1..][i].Read? && StrictRows(responses[1..][i]).Err?
                 && PairStrict(kinds, responses).error == BadRows(StrictRows(responses[1..][i]).error)
                 && forall k | 0 <= k < i :: kinds[1..][k].Read? ==> StrictRows(responses[1..][k]).Ok?;
      assert kinds[i + 1] == kinds[1..][i] && responses[i + 1] == responses[1..][i];
      forall k | 0 <= k < i + 1 && kinds[k].Read? ensures StrictRows(responses[k]).Ok? {
        if k > 0 { assert kinds[1..][k - 1] == kinds[k] && responses[1..][k - 1] == responses[k]; }
      }
    }
  }

  /** The remote adapter's pairing loop; it never refuses what the strict form
      accepts, and gives the same results for it. */
  method PairLenient(kinds: seq<OperationKind>, responses: seq<Response>) returns (r: Result<seq<OperationResult>, PairingError>)
    ensures r.Ok? <==> |responses| == |kinds|
                       && forall i | 0 <= i < |kinds| :: kinds[i].Read? ==> forall v | v in responses[i].rows :: v.JObject?
    ensures r.Ok? ==> |r.value| == |kinds| && forall i | 0 <= i < |kinds| :: IsLenientResult(kinds[i], responses[i], r.value[i])
    ensures r.Err? ==> r.error == if |responses| != |kinds| then CountMismatch else BadRows(NotAnObject)
    ensures PairStrict(kinds, responses).Ok? ==> r == PairStrict(kinds, responses)
  {
    if |responses| != |kinds| { return Err(CountMismatch); }
    var results: seq<OperationResult> := [];
    PairedInOrder(kinds, responses);
    for n := 0 to |kinds|
      invariant |results| == n
      invariant forall i | 0 <= i < n :: kinds[i].Read? ==> forall v | v in responses[i].rows :: v.JObject?
      invariant forall i | 0 <= i < n :: IsLenientResult(kinds[i], responses[i], results[i])
      invariant PairStrict(kinds, responses).Ok? ==> results == PairStrict(kinds, responses).value[..n]
    {
      if kinds[n].Read? {
        var rows := LenientRows(responses[n]);
        if rows.Err? { return Err(BadRows(rows.error)); }
        results := results + [OperationResult.Rows(rows.value)];
      } else {
        results := results + [Written(responses[n].affected)];
      }
    }
    r := Ok(results);
    assert PairStrict(kinds, responses).Ok? ==>
        PairStrict(kinds, responses).value[..|kinds|] == PairStrict(kinds, responses).value;
  }
}
