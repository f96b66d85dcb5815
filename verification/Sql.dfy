/**
  The SQL statements generated from cmd/sqlgen/template.go, as functions from table to table.

  A table holds at most one row per conflict key (its UNIQUE columns), so it is a map.
  The unique columns are chain_name plus the module's own key columns.
*/
module Sql {
  import opened Wrappers

  /** A row as the modules build it: base columns, the other unique columns, and the rest. */
  datatype Row = Row(chain: string, height: nat, columns: seq<string>, values: seq<string>)

  /** The value of a table's UNIQUE columns. */
  datatype Key = Key(chain: string, columns: seq<string>)

  /** A row in the database; deleteHeight is NULL while the row is live. */
  datatype Stored = Stored(row: Row, deleteHeight: Option<nat>)

  type Table = map<Key, Stored>

  function KeyOf(r: Row): Key {
    Key(r.chain, r.columns)
  }

  function Live(r: Row): Stored {
    Stored(r, None)
  }

  // ---------------------------------------------------------------- statements

  /** INSERT ... ON CONFLICT DO UPDATE SET delete_height = NULL, ... WHERE height < EXCLUDED.height */
  function UpsertRow(t: Table, r: Row): Table {
    if KeyOf(r) in t && t[KeyOf(r)].row.height >= r.height then t else t[KeyOf(r) := Live(r)]
  }

  /** UPDATE SET delete_height = :height, height = :height WHERE unique columns match AND delete_height IS NULL */
  function DeleteRow(t: Table, r: Row): Table {
    var k := KeyOf(r);
    if k in t && t[k].deleteHeight.None?
    then t[k := Stored(t[k].row.(height := r.height), Some(r.height))]
    else t
  }

  function UpsertRows(t: Table, rows: seq<Row>): Table
    decreases |rows|
  {
    if rows == [] then t else UpsertRow(UpsertRows(t, rows[..|rows| - 1]), rows[|rows| - 1])
  }

  function DeleteRows(t: Table, rows: seq<Row>): Table
    decreases |rows|
  {
    if rows == [] then t else DeleteRow(DeleteRows(t, rows[..|rows| - 1]), rows[|rows| - 1])
  }

  predicate DistinctKeys(rows: seq<Row>) {
    forall i, j :: 0 <= i < j < |rows| ==> KeyOf(rows[i]) != KeyOf(rows[j])
  }

  /** A plain INSERT is refused as a whole when it would break the UNIQUE constraint. */
  predicate Insertable(t: Table, rows: seq<Row>) {
    DistinctKeys(rows) && forall i :: 0 <= i < |rows| ==> KeyOf(rows[i]) !in t
  }

  /** The rows by key; a later row replaces an earlier one. */
  function ByKey(rows: seq<Row>): (m: map<Key, Row>)
    decreases |rows|
  {
    if rows == [] then map[] else ByKey(rows[..|rows| - 1])[KeyOf(rows[|rows| - 1]) := rows[|rows| - 1]]
  }

  function InsertRows(t: Table, rows: seq<Row>): Table {
    if Insertable(t, rows) then t + AllLive(ByKey(rows)) else t
  }

  function AllLive(m: map<Key, Row>): Table {
    map k | k in m :: Live(m[k])
  }

  datatype StatementKind = Upsert | Insert | Delete

  /**
    One statement run on its table; a refused statement leaves the table as it was. An upsert that names a conflict key
    twice is refused as a whole: ON CONFLICT DO UPDATE may not affect a row a second time.
  */
  function Execute(t: Table, kind: StatementKind, rows: seq<Row>): Table {
    match kind
    case Upsert => if DistinctKeys(rows) then UpsertRows(t, rows) else t
    case Insert => InsertRows(t, rows)
    case Delete => DeleteRows(t, rows)
  }

  datatype Statement = Statement(kind: StatementKind, rows: seq<Row>)

  function Run(t: Table, stmts: seq<Statement>): Table
    decreases |stmts|
  {
    if stmts == [] then t
    else
      var last := stmts[|stmts| - 1];
      Execute(Run(t, stmts[..|stmts| - 1]), last.kind, last.rows)
  }

  // ---------------------------------------------------------------- splitting a statement

  lemma {:induction false} UpsertRowsAppend(t: Table, a: seq<Row>, b: seq<Row>)
    ensures UpsertRows(t, a + b) == UpsertRows(UpsertRows(t, a), b)
    decreases |b|
  {
    if b == [] {
      assert a + b == a;
    } else {
      UpsertRowsAppend(t, a, b[..|b| - 1]);
      assert (a + b)[..|a + b| - 1] == a + b[..|b| - 1];
    }
  }

  lemma {:induction false} DeleteRowsAppend(t: Table, a: seq<Row>, b: seq<Row>)
    ensures DeleteRows(t, a + b) == DeleteRows(DeleteRows(t, a), b)
    decreases |b|
  {
    if b == [] {
      assert a + b == a;
    } else {
      DeleteRowsAppend(t, a, b[..|b| - 1]);
      assert (a + b)[..|a + b| - 1] == a + b[..|b| - 1];
    }
  }

  ghost predicate Mentions(rows: seq<Row>, k: Key) {
    exists i :: 0 <= i < |rows| && KeyOf(rows[i]) == k
  }

  lemma {:induction false} ByKeyContents(rows: seq<Row>)
    ensures forall k :: k in ByKey(rows) <==> Mentions(rows, k)
    ensures forall k :: k in ByKey(rows) ==> KeyOf(ByKey(rows)[k]) == k && ByKey(rows)[k] in rows
    decreases |rows|
  {
    if rows != [] {
      var front, last := rows[..|rows| - 1], rows[|rows| - 1];
      ByKeyContents(front);
      assert rows == front + [last];
      forall k ensures Mentions(rows, k) <==> Mentions(front, k) || k == KeyOf(last) {
        MentionsSnoc(front, last, k);
      }
    }
  }

  lemma {:induction false} ByKeyOfDistinct(rows: seq<Row>)
    requires DistinctKeys(rows)
    ensures forall i :: 0 <= i < |rows| ==> KeyOf(rows[i]) in ByKey(rows) && ByKey(rows)[KeyOf(rows[i])] == rows[i]
  {
    ByKeyContents(rows);
    forall i | 0 <= i < |rows|
      ensures KeyOf(rows[i]) in ByKey(rows) && ByKey(rows)[KeyOf(rows[i])] == rows[i]
    {
      assert Mentions(rows, KeyOf(rows[i]));
    }
  }

  lemma MentionsSnoc(front: seq<Row>, last: Row, k: Key)
    ensures Mentions(front + [last], k) <==> Mentions(front, k) || k == KeyOf(last)
  {
    var rows := front + [last];
    if k == KeyOf(last) {
      assert KeyOf(rows[|front|]) == k;
    } else if Mentions(front, k) {
      var i :| 0 <= i < |front| && KeyOf(front[i]) == k;
      assert KeyOf(rows[i]) == k;
    }
  }

  lemma {:induction false} ByKeyAppend(a: seq<Row>, b: seq<Row>)
    ensures ByKey(a + b) == ByKey(a) + ByKey(b)
    decreases |b|
  {
    if b == [] {
      assert a + b == a;
    } else {
      ByKeyAppend(a, b[..|b| - 1]);
      assert (a + b)[..|a + b| - 1] == a + b[..|b| - 1];
    }
  }

  /** Inserting fresh rows in two statements is inserting them in one. */
  lemma InsertRowsAppend(t: Table, a: seq<Row>, b: seq<Row>)
    requires Insertable(t, a + b)
    ensures Insertable(t, a) && Insertable(InsertRows(t, a), b)
    ensures InsertRows(t, a + b) == InsertRows(InsertRows(t, a), b)
  {
    var ab := a + b;
    assert forall i :: 0 <= i < |a| ==> a[i] == ab[i];
    assert forall i :: 0 <= i < |b| ==> b[i] == ab[|a| + i];
    assert Insertable(t, a);
    InsertLaterRows(t, a, b);
    ByKeyAppend(a, b);
    AddLive(t, ByKey(a), ByKey(b));
  }

  lemma AddLive(t: Table, a: map<Key, Row>, b: map<Key, Row>)
    ensures t + AllLive(a + b) == (t + AllLive(a)) + AllLive(b)
  {
  }

  lemma InsertLaterRows(t: Table, a: seq<Row>, b: seq<Row>)
    requires Insertable(t, a + b) && Insertable(t, a)
    ensures Insertable(InsertRows(t, a), b)
  {
    var ab := a + b;
    assert forall i :: 0 <= i < |a| ==> a[i] == ab[i];
    assert forall i :: 0 <= i < |b| ==> b[i] == ab[|a| + i];
    ByKeyContents(a);
    forall i | 0 <= i < |b| ensures KeyOf(b[i]) !in InsertRows(t, a) {
      assert KeyOf(ab[|a| + i]) !in t;
      assert !Mentions(a, KeyOf(b[i]));
    }
  }

  // ---------------------------------------------------------------- what a statement does, key by key

  /** What a whole batch of distinct rows does to a table, whatever the order of its rows. */
  function UpsertMap(t: Table, m: map<Key, Row>): Table {
    map k | k in t.Keys + m.Keys ::
      if k in m && (k in t ==> t[k].row.height < m[k].height) then Live(m[k]) else t[k]
  }

  function DeleteMap(t: Table, m: map<Key, Row>): Table {
    map k | k in t ::
      if k in m && t[k].deleteHeight.None?
      then Stored(t[k].row.(height := m[k].height), Some(m[k].height))
      else t[k]
  }

  /** rows lists the entries of m once each, in any order. */
  ghost predicate Enumerates(rows: seq<Row>, m: map<Key, Row>) {
    DistinctKeys(rows) && ByKey(rows) == m
  }

  lemma UpsertOneMore(t: Table, m: map<Key, Row>, r: Row)
    requires KeyOf(r) !in m
    ensures UpsertRow(UpsertMap(t, m), r) == UpsertMap(t, m[KeyOf(r) := r])
  {
  }

  lemma DeleteOneMore(t: Table, m: map<Key, Row>, r: Row)
    requires KeyOf(r) !in m
    ensures DeleteRow(DeleteMap(t, m), r) == DeleteMap(t, m[KeyOf(r) := r])
  {
  }

  lemma FrontIsDistinct(rows: seq<Row>)
    requires rows != [] && DistinctKeys(rows)
    ensures DistinctKeys(rows[..|rows| - 1])
    ensures KeyOf(rows[|rows| - 1]) !in ByKey(rows[..|rows| - 1])
  {
    ByKeyContents(rows[..|rows| - 1]);
  }

  lemma {:induction false} UpsertDistinctRows(t: Table, rows: seq<Row>)
    requires DistinctKeys(rows)
    ensures UpsertRows(t, rows) == UpsertMap(t, ByKey(rows))
    decreases |rows|
  {
    if rows == [] {
      assert UpsertMap(t, map[]) == t;
    } else {
      FrontIsDistinct(rows);
      UpsertDistinctRows(t, rows[..|rows| - 1]);
      UpsertOneMore(t, ByKey(rows[..|rows| - 1]), rows[|rows| - 1]);
    }
  }

  lemma {:induction false} DeleteDistinctRows(t: Table, rows: seq<Row>)
    requires DistinctKeys(rows)
    ensures DeleteRows(t, rows) == DeleteMap(t, ByKey(rows))
    decreases |rows|
  {
    if rows == [] {
      assert DeleteMap(t, map[]) == t;
    } else {
      FrontIsDistinct(rows);
      DeleteDistinctRows(t, rows[..|rows| - 1]);
      DeleteOneMore(t, ByKey(rows[..|rows| - 1]), rows[|rows| - 1]);
    }
  }

  /**
    On fresh keys a plain INSERT and an upsert leave the same table.
  */
  lemma InsertAgreesWithUpsert(t: Table, rows: seq<Row>)
    requires Insertable(t, rows)
    ensures InsertRows(t, rows) == UpsertRows(t, rows)
  {
    UpsertDistinctRows(t, rows);
    ByKeyContents(rows);
    assert t + AllLive(ByKey(rows)) == UpsertMap(t, ByKey(rows));
  }

  /** The row is listed, and none of the rows of its key is higher. */
  ghost predicate IsNewest(r: Row, rows: seq<Row>) {
    && r in rows
    && forall i :: 0 <= i < |rows| && KeyOf(rows[i]) == KeyOf(r) ==> rows[i].height <= r.height
  }

  /** No row of the list for key k is newer than what the table holds for it. */
  ghost predicate NothingNewer(t: Table, rows: seq<Row>, k: Key)
    requires k in t
  {
    forall i :: 0 <= i < |rows| && KeyOf(rows[i]) == k ==> rows[i].height <= t[k].row.height
  }

  /**
    Any list of upserts, key by key: a key is present exactly when it was or is mentioned; the stored row
    is the old one when nothing newer arrived, and otherwise a live row that no row of the list exceeds.
  */
  lemma {:induction false} UpsertKeepsNewest(t: Table, rows: seq<Row>, k: Key)
    ensures k in UpsertRows(t, rows) <==> k in t || Mentions(rows, k)
    ensures k in t && NothingNewer(t, rows, k) ==> UpsertRows(t, rows)[k] == t[k]
    ensures k in UpsertRows(t, rows) && !(k in t && NothingNewer(t, rows, k)) ==>
              var s := UpsertRows(t, rows)[k];
              s.deleteHeight.None? && KeyOf(s.row) == k && IsNewest(s.row, rows)
    decreases |rows|
  {
    if rows != [] {
      var front, last := rows[..|rows| - 1], rows[|rows| - 1];
      UpsertKeepsNewest(t, front, k);
      assert rows == front + [last];
      MentionsSnoc(front, last, k);
      NewestSnoc(t, front, last, k);
    }
  }

  lemma NewestSnoc(t: Table, front: seq<Row>, last: Row, k: Key)
    ensures k in t ==> (NothingNewer(t, front + [last], k) <==>
                          NothingNewer(t, front, k) && (KeyOf(last) == k ==> last.height <= t[k].row.height))
    ensures forall r :: IsNewest(r, front) && (KeyOf(last) == KeyOf(r) ==> last.height <= r.height) ==>
              IsNewest(r, front + [last])
    ensures KeyOf(last) == k && k in t && NothingNewer(t, front, k) && last.height > t[k].row.height ==>
              IsNewest(last, front + [last])
    ensures forall r :: KeyOf(r) == KeyOf(last) && IsNewest(r, front) && r.height < last.height ==>
              IsNewest(last, front + [last])
    ensures !Mentions(front, KeyOf(last)) ==> IsNewest(last, front + [last])
  {
    var rows := front + [last];
    assert forall i :: 0 <= i < |front| ==> rows[i] == front[i];
    assert rows[|front|] == last;
  }
}
