/** Regrouping the rows of the foreign-key catalogue into one key per id. */
module ForeignKeys {
  /** One row of `foreign_key_list`; `action` is already one of the five actions. */
  datatype Row = Row(id: int, sequence: int, table: string, column: string, refColumn: string, action: Action)

  datatype Action = Cascade | SetNull | SetDefault | NoAction | Restrict

  datatype ForeignKey = ForeignKey(columns: seq<string>, refTable: string, refColumns: seq<string>, onDelete: Action)

  /** What is gathered for an id: the first row's table and action, and the rows as they came. */
  datatype Group = Group(table: string, action: Action, rows: seq<Row>)

  // The specification

  function Ids(rows: seq<Row>): set<int> {
    set r | r in rows :: r.id
  }

  /** The rows of one id, as they came. */
  function OfId(rows: seq<Row>, id: int): seq<Row> {
    if rows == [] then []
    else OfId(rows[..|rows| - 1], id) + if rows[|rows| - 1].id == id then [rows[|rows| - 1]] else []
  }

  lemma {:induction false} OfIdHolds(rows: seq<Row>, id: int, r: Row)
    ensures r in OfId(rows, id) <==> r in rows && r.id == id
  {
    if rows != [] {
      OfIdHolds(rows[..|rows| - 1], id, r);
      assert rows == rows[..|rows| - 1] + [rows[|rows| - 1]];
    }
  }

  lemma SomeOfId(rows: seq<Row>, id: int)
    ensures OfId(rows, id) != [] <==> id in Ids(rows)
  {
    if id in Ids(rows) {
      var r :| r in rows && r.id == id;
      OfIdHolds(rows, id, r);
    } else if OfId(rows, id) != [] {
      OfIdHolds(rows, id, OfId(rows, id)[0]);
      assert false;
    }
  }

  /** A stable sort by sequence. */
  function BySequence(rows: seq<Row>): seq<Row> {
    if rows == [] then [] else Place(BySequence(rows[..|rows| - 1]), rows[|rows| - 1])
  }

  function Place(sorted: seq<Row>, r: Row): seq<Row> {
    var n := |sorted|;
    if n == 0 || sorted[n - 1].sequence <= r.sequence then sorted + [r]
    else Place(sorted[..n - 1], r) + [sorted[n - 1]]
  }

  predicate Sorted(rows: seq<Row>) {
    forall i, j | 0 <= i < j < |rows| :: rows[i].sequence <= rows[j].sequence
  }

  lemma {:induction false} PlaceKeeps(sorted: seq<Row>, r: Row)
    ensures multiset(Place(sorted, r)) == multiset(sorted) + multiset{r}
  {
    var n := |sorted|;
    if n != 0 && sorted[n - 1].sequence > r.sequence {
      PlaceKeeps(sorted[..n - 1], r);
      assert sorted == sorted[..n - 1] + [sorted[n - 1]];
    }
  }

  lemma {:induction false} PlaceSorts(sorted: seq<Row>, r: Row)
    requires Sorted(sorted)
    ensures Sorted(Place(sorted, r))
  {
    var n := |sorted|;
    if n != 0 && sorted[n - 1].sequence > r.sequence {
      var rest, last := Place(sorted[..n - 1], r), sorted[n - 1];
      PlaceSorts(sorted[..n - 1], r);
      PlaceKeeps(sorted[..n - 1], r);
      forall i | 0 <= i < |rest| ensures rest[i].sequence <= last.sequence {
        assert rest[i] in multiset(rest);
        assert rest[i] in sorted[..n - 1] || rest[i] == r;
      }
    }
  }

  lemma {:induction false} SortKeeps(rows: seq<Row>)
    ensures multiset(BySequence(rows)) == multiset(rows)
    ensures Sorted(BySequence(rows))
  {
    if rows != [] {
      var n := |rows| - 1;
      SortKeeps(rows[..n]);
      PlaceKeeps(BySequence(rows[..n]), rows[n]);
      PlaceSorts(BySequence(rows[..n]), rows[n]);
      assert rows == rows[..n] + [rows[n]];
    }
  }

  function Columns(rows: seq<Row>): (columns: seq<string>)
    ensures |columns| == |rows| && forall j | 0 <= j < |rows| :: columns[j] == rows[j].column
  {
    seq(|rows|, j requires 0 <= j < |rows| => rows[j].column)
  }

  function RefColumns(rows: seq<Row>): (columns: seq<string>)
    ensures |columns| == |rows| && forall j | 0 <= j < |rows| :: columns[j] == rows[j].refColumn
  {
    seq(|rows|, j requires 0 <= j < |rows| => rows[j].refColumn)
  }

  function KeyOf(g: Group): ForeignKey {
    var sorted := BySequence(g.rows);
    ForeignKey(Columns(sorted), g.table, RefColumns(sorted), g.action)
  }

  function GroupOf(rows: seq<Row>, id: int): Group
    requires id in Ids(rows)
  {
    SomeOfId(rows, id);
    var kept := OfId(rows, id);
    Group(kept[0].table, kept[0].action, kept)
  }

  ghost predicate IsLeast(ids: set<int>, m: int) {
    m in ids && forall j | j in ids :: m <= j
  }

  lemma SomethingIn<T>(s: set<T>) returns (x: T)
    requires |s| > 0
    ensures x in s
  {
    x :| x in s;
  }

  lemma {:induction false} LeastExists(ids: set<int>)
    requires |ids| > 0
    ensures exists m :: IsLeast(ids, m)
  {
    var x := SomethingIn(ids);
    if |ids - {x}| == 0 {
      assert forall j | j in ids :: j == x || j in ids - {x};
      assert IsLeast(ids, x);
    } else {
      LeastExists(ids - {x});
      var m :| IsLeast(ids - {x}, m);
      assert forall j | j in ids :: j == x || j in ids - {x};
      assert IsLeast(ids, if x < m then x else m);
    }
  }

  ghost function Ascending(ids: set<int>): seq<int> {
    if |ids| == 0 then []
    else
      LeastExists(ids);
      var m :| IsLeast(ids, m);
      [m] + Ascending(ids - {m})
  }

  ghost function KeysFor(rows: seq<Row>, ids: seq<int>): (keys: seq<ForeignKey>)
    requires forall id | id in ids :: id in Ids(rows)
    ensures |keys| == |ids| && forall k | 0 <= k < |ids| :: keys[k] == KeyOf(GroupOf(rows, ids[k]))
  {
    seq(|ids|, k requires 0 <= k < |ids| => KeyOf(GroupOf(rows, ids[k])))
  }

  lemma LeastComesFirst(ids: set<int>, m: int)
    requires IsLeast(ids, m)
    ensures |ids| > 0 && Ascending(ids) == [m] + Ascending(ids - {m})
  {
    assert |ids| > 0;
    LeastExists(ids);
    var n :| IsLeast(ids, n) && Ascending(ids) == [n] + Ascending(ids - {n});
  }

  ghost predicate Climbing(ids: seq<int>) {
    forall i, j | 0 <= i < j < |ids| :: ids[i] < ids[j]
  }

  lemma {:induction false} AscendingIs(ids: set<int>)
    ensures forall id :: id in Ascending(ids) <==> id in ids
    ensures Climbing(Ascending(ids))
  {
    if |ids| > 0 {
      LeastExists(ids);
      var m :| IsLeast(ids, m);
      LeastComesFirst(ids, m);
      AscendingIs(ids - {m});
      var rest := Ascending(ids - {m});
      forall i | 0 <= i < |rest| ensures m < rest[i] {
        assert rest[i] in rest;
      }
    }
  }

  /** The keys in order of id. */
  ghost function Regroup(rows: seq<Row>): seq<ForeignKey> {
    AscendingIs(Ids(rows));
    KeysFor(rows, Ascending(Ids(rows)))
  }

  // The loops

  /** What the map holds after some rows. */
  ghost predicate Gathered(rows: seq<Row>, grouped: map<int, Group>) {
    grouped.Keys == Ids(rows) && forall id | id in grouped :: grouped[id] == GroupOf(rows, id)
  }

  lemma OneMoreGathered(rows: seq<Row>, r: Row, grouped: map<int, Group>)
    requires Gathered(rows, grouped)
    ensures var g := if r.id in grouped then grouped[r.id] else Group(r.table, r.action, []);
      Gathered(rows + [r], grouped[r.id := g.(rows := g.rows + [r])])
  {
    assert Ids(rows + [r]) == Ids(rows) + {r.id};
    assert (rows + [r])[..|rows|] == rows;
    SomeOfId(rows, r.id);
    forall id | id in Ids(rows) ensures OfId(rows, id) != [] { SomeOfId(rows, id); }
  }

  /** `foreign_keys_for_table`: gather by id, then emit in key order. */
  method ForeignKeysFor(rows: seq<Row>) returns (keys: seq<ForeignKey>)
    ensures keys == Regroup(rows)
    ensures exists ids :: AreKeysOf(rows, ids, keys)
  {
    var grouped: map<int, Group> := map[];
    for n := 0 to |rows|
      invariant Gathered(rows[..n], grouped)
    {
      var r := rows[n];
      OneMoreGathered(rows[..n], r, grouped);
      assert rows[..n + 1] == rows[..n] + [r];
      var g := if r.id in grouped then grouped[r.id] else Group(r.table, r.action, []);
      grouped := grouped[r.id := g.(rows := g.rows + [r])];
    }
    assert rows[..|rows|] == rows;
    keys := Emit(rows, grouped);
    KeysAreTheRows(rows);
  }

  /** The smallest of some ids. */
  method Least(ids: set<int>) returns (m: int)
    requires |ids| > 0
    ensures IsLeast(ids, m)
  {
    ghost var some := SomethingIn(ids);
    m :| m in ids;
    var left := ids - {m};
    while |left| > 0
      invariant left <= ids && m in ids && forall j | j in ids :: j in left || m <= j
      decreases left
    {
      ghost var another := SomethingIn(left);
      var x :| x in left;
      if x < m { m := x; }
      left := left - {x};
    }
    assert left == {};
  }

  /** The keys of the ids in `done` are out; those of `left` are still to come. */
  ghost predicate Emitted(rows: seq<Row>, left: set<int>, done: seq<int>, keys: seq<ForeignKey>) {
    && left <= Ids(rows) && (forall id | id in done :: id in Ids(rows))
    && done + Ascending(left) == Ascending(Ids(rows))
    && keys == KeysFor(rows, done)
  }

  lemma OneMoreEmitted(rows: seq<Row>, left: set<int>, done: seq<int>, keys: seq<ForeignKey>, m: int)
    requires Emitted(rows, left, done, keys) && IsLeast(left, m)
    ensures Emitted(rows, left - {m}, done + [m], keys + [KeyOf(GroupOf(rows, m))])
  {
    LeastComesFirst(left, m);
    assert done + ([m] + Ascending(left - {m})) == (done + [m]) + Ascending(left - {m});
  }

  lemma AllEmitted(rows: seq<Row>, done: seq<int>, keys: seq<ForeignKey>)
    requires Emitted(rows, {}, done, keys)
    ensures keys == Regroup(rows)
  {
    assert done + [] == done;
    AscendingIs(Ids(rows));
  }

  /** `BTreeMap::into_values`, each value turned into a key. */
  method Emit(ghost rows: seq<Row>, grouped: map<int, Group>) returns (keys: seq<ForeignKey>)
    requires Gathered(rows, grouped)
    ensures keys == Regroup(rows)
  {
    var left := grouped.Keys;
    keys := [];
    ghost var done: seq<int> := [];
    assert [] + Ascending(left) == Ascending(left);
    while |left| > 0
      invariant Emitted(rows, left, done, keys)
      decreases left
    {
      var m := Least(left);
      OneMoreEmitted(rows, left, done, keys, m);
      keys := keys + [KeyOf(grouped[m])];
      done := done + [m];
      left := left - {m};
    }
    AllEmitted(rows, done, keys);
  }

  // What the keys are, in terms of the rows alone

  /** Every row of the id by its position, once each; by sequence, and rows of one
      sequence as they came. */
  ghost predicate IsOrder(rows: seq<Row>, id: int, at: seq<nat>) {
    && (forall p: nat :: p in at <==> p < |rows| && rows[p].id == id)
    && (forall i, j | 0 <= i < j < |at| :: Before(rows, at[i], at[j]))
  }

  ghost predicate Before(rows: seq<Row>, p: nat, q: nat) {
    p < |rows| && q < |rows| && (rows[p].sequence < rows[q].sequence || (rows[p].sequence == rows[q].sequence && p < q))
  }

  /** The key has the table and the action of the id's first row, and its columns
      and referenced columns are the rows' in that order. */
  ghost predicate IsKeyOf(rows: seq<Row>, id: int, key: ForeignKey, at: seq<nat>) {
    && IsOrder(rows, id, at) && |key.columns| == |key.refColumns| == |at|
    && (forall j | 0 <= j < |at| ::
          at[j] < |rows| && key.columns[j] == rows[at[j]].column && key.refColumns[j] == rows[at[j]].refColumn)
    && (exists p | 0 <= p < |rows| :: IsFirstOf(rows, id, p) && key.refTable == rows[p].table && key.onDelete == rows[p].action)
  }

  ghost predicate IsFirstOf(rows: seq<Row>, id: int, p: nat) {
    p < |rows| && rows[p].id == id && forall q | 0 <= q < p :: rows[q].id != id
  }

  ghost predicate HasKey(rows: seq<Row>, id: int, key: ForeignKey) {
    exists at :: IsKeyOf(rows, id, key, at)
  }

  /** One key for each id that occurs, in order of id. */
  ghost predicate AreKeysOf(rows: seq<Row>, ids: seq<int>, keys: seq<ForeignKey>) {
    && |keys| == |ids| && Climbing(ids)
    && (forall id :: id in ids <==> exists p | 0 <= p < |rows| :: rows[p].id == id)
    && (forall k | 0 <= k < |ids| :: HasKey(rows, ids[k], keys[k]))
  }

  ghost predicate Within(rows: seq<Row>, at: seq<nat>) {
    forall j | 0 <= j < |at| :: at[j] < |rows|
  }

  /** The positions of an id's rows. */
  ghost function Positions(rows: seq<Row>, id: int): (at: seq<nat>)
    ensures Within(rows, at)
    ensures forall i, j | 0 <= i < j < |at| :: at[i] < at[j]
  {
    if rows == [] then []
    else
      var n := |rows| - 1;
      Positions(rows[..n], id) + if rows[n].id == id then [n] else []
  }

  ghost function RowsAt(rows: seq<Row>, at: seq<nat>): seq<Row>
    requires Within(rows, at)
  {
    seq(|at|, j requires 0 <= j < |at| => rows[at[j]])
  }

  lemma {:induction false} PositionsAre(rows: seq<Row>, id: int)
    ensures forall p: nat :: p in Positions(rows, id) <==> p < |rows| && rows[p].id == id
    ensures OfId(rows, id) == RowsAt(rows, Positions(rows, id))
  {
    if rows != [] {
      var n := |rows| - 1;
      PositionsAre(rows[..n], id);
      var before := Positions(rows[..n], id);
      assert RowsAt(rows[..n], before) == RowsAt(rows, before);
    }
  }

  /** The sort, on positions. */
  ghost function SortedPositions(rows: seq<Row>, at: seq<nat>): (sorted: seq<nat>)
    requires Within(rows, at)
    ensures Within(rows, sorted)
  {
    if at == [] then [] else PlaceAt(rows, SortedPositions(rows, at[..|at| - 1]), at[|at| - 1])
  }

  ghost function PlaceAt(rows: seq<Row>, sorted: seq<nat>, p: nat): (placed: seq<nat>)
    requires p < |rows| && Within(rows, sorted)
    ensures Within(rows, placed)
  {
    var n := |sorted|;
    if n == 0 || rows[sorted[n - 1]].sequence <= rows[p].sequence then sorted + [p]
    else PlaceAt(rows, sorted[..n - 1], p) + [sorted[n - 1]]
  }

  lemma {:induction false} PlaceAtHolds(rows: seq<Row>, sorted: seq<nat>, p: nat, q: nat)
    requires p < |rows| && Within(rows, sorted)
    ensures q in PlaceAt(rows, sorted, p) <==> q in sorted || q == p
  {
    var n := |sorted|;
    if n != 0 && rows[sorted[n - 1]].sequence > rows[p].sequence {
      PlaceAtHolds(rows, sorted[..n - 1], p, q);
      assert sorted == sorted[..n - 1] + [sorted[n - 1]];
    }
  }

  lemma {:induction false} SortedPositionsHold(rows: seq<Row>, at: seq<nat>, q: nat)
    requires Within(rows, at)
    ensures q in SortedPositions(rows, at) <==> q in at
  {
    if at != [] {
      var n := |at| - 1;
      SortedPositionsHold(rows, at[..n], q);
      PlaceAtHolds(rows, SortedPositions(rows, at[..n]), at[n], q);
      assert at == at[..n] + [at[n]];
    }
  }

  lemma {:induction false} PlaceAtPlaces(rows: seq<Row>, sorted: seq<nat>, p: nat)
    requires p < |rows| && Within(rows, sorted)
    ensures RowsAt(rows, PlaceAt(rows, sorted, p)) == Place(RowsAt(rows, sorted), rows[p])
  {
    var n := |sorted|;
    if n != 0 && rows[sorted[n - 1]].sequence > rows[p].sequence {
      PlaceAtPlaces(rows, sorted[..n - 1], p);
      assert RowsAt(rows, sorted)[..n - 1] == RowsAt(rows, sorted[..n - 1]);
    }
  }

  lemma {:induction false} SortedPositionsSort(rows: seq<Row>, at: seq<nat>)
    requires Within(rows, at)
    ensures RowsAt(rows, SortedPositions(rows, at)) == BySequence(RowsAt(rows, at))
  {
    if at != [] {
      var n := |at| - 1;
      SortedPositionsSort(rows, at[..n]);
      PlaceAtPlaces(rows, SortedPositions(rows, at[..n]), at[n]);
      assert RowsAt(rows, at)[..n] == RowsAt(rows, at[..n]);
    }
  }

  ghost predicate Ordered(rows: seq<Row>, at: seq<nat>) {
    forall i, j | 0 <= i < j < |at| :: Before(rows, at[i], at[j])
  }

  lemma {:induction false} PlaceAtKeepsOrder(rows: seq<Row>, sorted: seq<nat>, p: nat)
    requires p < |rows| && Within(rows, sorted) && Ordered(rows, sorted)
    requires Within(rows[..p], sorted)
    ensures Ordered(rows, PlaceAt(rows, sorted, p))
  {
    var n := |sorted|;
    if n == 0 || rows[sorted[n - 1]].sequence <= rows[p].sequence {
      forall i | 0 <= i < n ensures Before(rows, sorted[i], p) {
        assert i < n - 1 ==> Before(rows, sorted[i], sorted[n - 1]);
      }
    } else {
      PlaceAtKeepsOrder(rows, sorted[..n - 1], p);
      var rest := PlaceAt(rows, sorted[..n - 1], p);
      forall i | 0 <= i < |rest| ensures Before(rows, rest[i], sorted[n - 1]) {
        PlaceAtHolds(rows, sorted[..n - 1], p, rest[i]);
        if rest[i] != p {
          var j :| 0 <= j < n - 1 && sorted[..n - 1][j] == rest[i];
          assert Before(rows, sorted[j], sorted[n - 1]);
        }
      }
    }
  }

  lemma {:induction false} SortedPositionsOrder(rows: seq<Row>, at: seq<nat>)
    requires Within(rows, at) && forall i, j | 0 <= i < j < |at| :: at[i] < at[j]
    ensures Ordered(rows, SortedPositions(rows, at))
  {
    if at != [] {
      var n := |at| - 1;
      SortedPositionsOrder(rows, at[..n]);
      forall j | 0 <= j < |SortedPositions(rows, at[..n])| ensures SortedPositions(rows, at[..n])[j] < at[n] {
        SortedPositionsHold(rows, at[..n], SortedPositions(rows, at[..n])[j]);
      }
      PlaceAtKeepsOrder(rows, SortedPositions(rows, at[..n]), at[n]);
    }
  }

  lemma {:induction false} FirstIsFirst(rows: seq<Row>, id: int)
    requires OfId(rows, id) != []
    ensures exists p | 0 <= p < |rows| :: IsFirstOf(rows, id, p) && rows[p] == OfId(rows, id)[0]
  {
    var n := |rows| - 1;
    if OfId(rows[..n], id) == [] {
      forall q | 0 <= q < n ensures rows[q].id != id { OfIdHolds(rows[..n], id, rows[q]); }
      assert IsFirstOf(rows, id, n);
    } else {
      FirstIsFirst(rows[..n], id);
      var p :| 0 <= p < n && IsFirstOf(rows[..n], id, p) && rows[..n][p] == OfId(rows[..n], id)[0];
      assert IsFirstOf(rows, id, p);
    }
  }

  lemma GroupHasKey(rows: seq<Row>, id: int)
    requires id in Ids(rows)
    ensures HasKey(rows, id, KeyOf(GroupOf(rows, id)))
  {
    SomeOfId(rows, id);
    FirstIsFirst(rows, id);
    PositionsAre(rows, id);
    var at := Positions(rows, id);
    SortedPositionsSort(rows, at);
    SortedPositionsOrder(rows, at);
    var sorted := SortedPositions(rows, at);
    assert RowsAt(rows, sorted) == BySequence(OfId(rows, id));
    forall p: nat ensures p in sorted <==> p < |rows| && rows[p].id == id { SortedPositionsHold(rows, at, p); }
    assert IsKeyOf(rows, id, KeyOf(GroupOf(rows, id)), sorted);
  }

  /** There is one key for each id that occurs, in order of id; it has the table and
      the action of the id's first row, and its columns are the rows' in order of
      sequence, and as they came within one sequence. */
  lemma KeysAreTheRows(rows: seq<Row>)
    ensures AreKeysOf(rows, Ascending(Ids(rows)), Regroup(rows))
  {
    var ids := Ascending(Ids(rows));
    AscendingIs(Ids(rows));
    forall id ensures id in ids <==> exists p | 0 <= p < |rows| :: rows[p].id == id {
      if id in ids { var r :| r in rows && r.id == id; }
    }
    forall k | 0 <= k < |ids| ensures HasKey(rows, ids[k], Regroup(rows)[k]) {
      GroupHasKey(rows, ids[k]);
    }
  }

  // Order does not matter

  /** No row twice, one row per id and sequence, and rows of one id agree on
      table and action: what the catalogue promises. */
  ghost predicate Catalogued(rows: seq<Row>) {
    && (forall r | r in rows :: multiset(rows)[r] == 1)
    && (forall r, s | r in rows && s in rows && r.id == s.id && r.sequence == s.sequence :: r == s)
    && (forall r, s | r in rows && s in rows && r.id == s.id :: r.table == s.table && r.action == s.action)
  }

  lemma {:induction false} OfIdCounts(rows: seq<Row>, id: int, r: Row)
    ensures multiset(OfId(rows, id))[r] == if r.id == id then multiset(rows)[r] else 0
  {
    if rows != [] {
      var n := |rows| - 1;
      OfIdCounts(rows[..n], id, r);
      assert rows == rows[..n] + [rows[n]];
    }
  }

  lemma CountedTwice(rows: seq<Row>, i: nat, j: nat)
    requires i < j < |rows| && rows[i] == rows[j]
    ensures multiset(rows)[rows[i]] >= 2
  {
    assert rows == rows[..j] + rows[j..];
    assert rows[..j][i] in multiset(rows[..j]) && rows[j..][0] in multiset(rows[j..]);
  }

  ghost predicate Increasing(rows: seq<Row>) {
    forall i, j | 0 <= i < j < |rows| :: rows[i].sequence < rows[j].sequence
  }

  /** Within one id the sorted rows are strictly in order. */
  lemma SortedStrictly(rows: seq<Row>, id: int)
    requires Catalogued(rows)
    ensures Increasing(BySequence(OfId(rows, id)))
  {
    var sorted := BySequence(OfId(rows, id));
    SortKeeps(OfId(rows, id));
    forall i, j | 0 <= i < j < |sorted| ensures sorted[i].sequence < sorted[j].sequence {
      assert sorted[i] in multiset(sorted) && sorted[j] in multiset(sorted);
      assert sorted[i] in OfId(rows, id) && sorted[j] in OfId(rows, id);
      OfIdHolds(rows, id, sorted[i]);
      OfIdHolds(rows, id, sorted[j]);
      if sorted[i].sequence == sorted[j].sequence {
        CountedTwice(sorted, i, j);
        OfIdCounts(rows, id, sorted[i]);
      }
    }
  }

  lemma SameFirst(a: seq<Row>, b: seq<Row>)
    requires Increasing(a) && Increasing(b) && multiset(a) == multiset(b) && a != [] && b != []
    ensures a[0] == b[0]
  {
    assert a[0] in multiset(b) && b[0] in multiset(a);
    var i :| 0 <= i < |a| && a[i] == b[0];
    var j :| 0 <= j < |b| && b[j] == a[0];
  }

  lemma RestIs(a: seq<Row>)
    requires a != []
    ensures multiset(a[1..]) == multiset(a) - multiset{a[0]}
  {
    assert a == [a[0]] + a[1..];
  }

  /** A strictly ordered sequence is determined by what it holds. */
  lemma {:induction false} IncreasingIsUnique(a: seq<Row>, b: seq<Row>)
    requires Increasing(a) && Increasing(b) && multiset(a) == multiset(b)
    ensures a == b
  {
    assert |multiset(a)| == |a| && |multiset(b)| == |b|;
    if a != [] {
      SameFirst(a, b);
      RestIs(a);
      RestIs(b);
      IncreasingIsUnique(a[1..], b[1..]);
      assert a == [a[0]] + a[1..] && b == [b[0]] + b[1..];
    }
  }

  /** Any two listings of the same rows regroup to the very same keys. */
  lemma OrderDoesNotMatter(rows: seq<Row>, other: seq<Row>)
    requires Catalogued(rows) && multiset(rows) == multiset(other)
    ensures Regroup(rows) == Regroup(other)
  {
    forall r ensures r in rows <==> r in other {
      assert r in rows <==> r in multiset(rows);
      assert r in other <==> r in multiset(other);
    }
    assert Ids(rows) == Ids(other);
    forall id | id in Ids(rows) ensures KeyOf(GroupOf(rows, id)) == KeyOf(GroupOf(other, id)) {
      SameKey(rows, other, id);
    }
    AscendingIs(Ids(rows));
  }

  lemma SameKey(rows: seq<Row>, other: seq<Row>, id: int)
    requires Catalogued(rows) && Catalogued(other) && multiset(rows) == multiset(other)
    requires id in Ids(rows) && id in Ids(other)
    ensures KeyOf(GroupOf(rows, id)) == KeyOf(GroupOf(other, id))
  {
    var a, b := OfId(rows, id), OfId(other, id);
    forall r: Row ensures multiset(a)[r] == multiset(b)[r] {
      OfIdCounts(rows, id, r);
      OfIdCounts(other, id, r);
    }
    assert multiset(a) == multiset(b);
    SortedStrictly(rows, id);
    SortedStrictly(other, id);
    SortKeeps(a);
    SortKeeps(b);
    IncreasingIsUnique(BySequence(a), BySequence(b));
    SomeOfId(rows, id);
    SomeOfId(other, id);
    OfIdHolds(rows, id, a[0]);
    OfIdHolds(other, id, b[0]);
    assert b[0] in multiset(other);
  }

  // Nothing is lost

  ghost function TotalColumns(keys: seq<ForeignKey>): nat {
    if keys == [] then 0 else |keys[0].columns| + TotalColumns(keys[1..])
  }

  ghost function TotalOf(rows: seq<Row>, ids: seq<int>): nat {
    if ids == [] then 0 else |OfId(rows, ids[0])| + TotalOf(rows, ids[1..])
  }

  lemma {:induction false} TotalsAgree(rows: seq<Row>, ids: seq<int>)
    requires forall id | id in ids :: id in Ids(rows)
    ensures TotalColumns(KeysFor(rows, ids)) == TotalOf(rows, ids)
  {
    if ids != [] {
      TotalsAgree(rows, ids[1..]);
      assert KeysFor(rows, ids)[1..] == KeysFor(rows, ids[1..]);
      var kept := OfId(rows, ids[0]);
      SortKeeps(kept);
      assert |BySequence(kept)| == |multiset(kept)| == |kept|;
    }
  }

  lemma {:induction false} OneRowMore(rows: seq<Row>, r: Row, ids: seq<int>)
    requires Climbing(ids)
    ensures TotalOf(rows + [r], ids) == TotalOf(rows, ids) + if r.id in ids then 1 else 0
  {
    if ids != [] {
      OneRowMore(rows, r, ids[1..]);
      assert (rows + [r])[..|rows|] == rows;
      assert ids == [ids[0]] + ids[1..];
      assert forall i | 0 <= i < |ids[1..]| :: ids[0] < ids[1..][i];
    }
  }

  lemma {:induction false} TotalIsAll(rows: seq<Row>, ids: seq<int>)
    requires Climbing(ids)
    requires forall r | r in rows :: r.id in ids
    ensures TotalOf(rows, ids) == |rows|
  {
    if rows == [] {
      NoRows(ids);
    } else {
      var n := |rows| - 1;
      assert rows == rows[..n] + [rows[n]];
      TotalIsAll(rows[..n], ids);
      OneRowMore(rows[..n], rows[n], ids);
    }
  }

  lemma {:induction false} NoRows(ids: seq<int>)
    ensures TotalOf([], ids) == 0
  {
    if ids != [] { NoRows(ids[1..]); }
  }

  /** The row is column `j` of key `k`. */
  ghost predicate IsColumnOf(keys: seq<ForeignKey>, r: Row, k: nat, j: nat) {
    && k < |keys| && j < |keys[k].columns| && j < |keys[k].refColumns|
    && keys[k].columns[j] == r.column && keys[k].refColumns[j] == r.refColumn
  }

  lemma {:induction false} IndexOf(ids: seq<int>, id: int) returns (k: nat)
    requires id in ids
    ensures k < |ids| && ids[k] == id
  {
    k := 0;
    while ids[k] != id
      invariant k < |ids| && id in ids[k..]
      decreases |ids| - k
    {
      k := k + 1;
    }
  }

  lemma RowPlaced(rows: seq<Row>, r: Row)
    requires r in rows
    ensures exists k, j :: IsColumnOf(Regroup(rows), r, k, j)
  {
    var ids := Ascending(Ids(rows));
    AscendingIs(Ids(rows));
    assert r.id in ids;
    var k := IndexOf(ids, r.id);
    OfIdHolds(rows, r.id, r);
    SortKeeps(OfId(rows, r.id));
    var sorted := BySequence(OfId(rows, r.id));
    assert r in multiset(sorted);
    var j :| 0 <= j < |sorted| && sorted[j] == r;
    assert IsColumnOf(Regroup(rows), r, k, j);
  }

  /** Every catalogue row gives a column of a key, beside its reference, and there
      are no more columns than rows. */
  lemma EveryRowKept(rows: seq<Row>)
    ensures TotalColumns(Regroup(rows)) == |rows|
    ensures forall r | r in rows :: exists k, j :: IsColumnOf(Regroup(rows), r, k, j)
  {
    var ids := Ascending(Ids(rows));
    AscendingIs(Ids(rows));
    assert forall r | r in rows :: r.id in Ids(rows);
    TotalsAgree(rows, ids);
    TotalIsAll(rows, ids);
    forall r | r in rows ensures exists k, j :: IsColumnOf(Regroup(rows), r, k, j) {
      RowPlaced(rows, r);
    }
  }
}
