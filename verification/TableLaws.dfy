/**
  Laws of the generated statements over whole runs: what every table keeps, how long a soft delete lasts,
  and when the order of upserts does not matter.
*/
module TableLaws {
  import opened Sql

  // ---------------------------------------------------------------- soft deletes

  /** Rows sit under their own key, and a soft-deleted row was deleted at the height it carries. */
  ghost predicate Consistent(t: Table) {
    forall k :: k in t ==>
         KeyOf(t[k].row) == k && (t[k].deleteHeight.Some? ==> t[k].deleteHeight.value == t[k].row.height)
  }

  lemma {:induction false} UpsertsKeepConsistent(t: Table, rows: seq<Row>)
    requires Consistent(t)
    ensures Consistent(UpsertRows(t, rows))
    decreases |rows|
  {
    if rows != [] {
      UpsertsKeepConsistent(t, rows[..|rows| - 1]);
    }
  }

  lemma {:induction false} DeletesKeepConsistent(t: Table, rows: seq<Row>)
    requires Consistent(t)
    ensures Consistent(DeleteRows(t, rows))
    decreases |rows|
  {
    if rows != [] {
      DeletesKeepConsistent(t, rows[..|rows| - 1]);
    }
  }

  /** Every run of statements, of any kind and in any order, keeps the table consistent. */
  lemma {:induction false} RunKeepsConsistent(t: Table, stmts: seq<Statement>)
    requires Consistent(t)
    ensures Consistent(Run(t, stmts))
    decreases |stmts|
  {
    if stmts != [] {
      var last := stmts[|stmts| - 1];
      var before := Run(t, stmts[..|stmts| - 1]);
      RunKeepsConsistent(t, stmts[..|stmts| - 1]);
      match last.kind
      case Upsert => UpsertsKeepConsistent(before, last.rows);
      case Delete => DeletesKeepConsistent(before, last.rows);
      case Insert => ByKeyContents(last.rows);
    }
  }

  ghost predicate SoftDeleted(t: Table, k: Key) {
    k in t && t[k].deleteHeight.Some?
  }

  lemma {:induction false} DeletesSkipDeleted(t: Table, rows: seq<Row>, k: Key)
    requires SoftDeleted(t, k)
    ensures k in DeleteRows(t, rows) && DeleteRows(t, rows)[k] == t[k]
    decreases |rows|
  {
    if rows != [] {
      DeletesSkipDeleted(t, rows[..|rows| - 1], k);
    }
  }

  ghost predicate Restores(t: Table, s: Statement, k: Key)
    requires k in t
  {
    s.kind.Upsert? && DistinctKeys(s.rows) && !NothingNewer(t, s.rows, k)
  }

  /**
    One statement changes a soft-deleted row exactly when it upserts the key at a greater height; the row is then
    live.
  */
  lemma StatementOnDeletedRow(t: Table, s: Statement, k: Key)
    requires SoftDeleted(t, k)
    ensures k in Execute(t, s.kind, s.rows)
    ensures Execute(t, s.kind, s.rows)[k] == t[k] <==> !Restores(t, s, k)
    ensures Restores(t, s, k) ==>
              var after := Execute(t, s.kind, s.rows)[k];
              after.deleteHeight.None? && after.row.height > t[k].row.height && IsNewest(after.row, s.rows)
  {
    match s.kind
    case Upsert =>
      UpsertKeepsNewest(t, s.rows, k);
    case Delete => DeletesSkipDeleted(t, s.rows, k);
    case Insert => ByKeyContents(s.rows);
  }

  /** The row of k is the same at every point of the run. */
  ghost predicate Untouched(t: Table, stmts: seq<Statement>, k: Key)
    requires k in t
  {
    forall n :: 0 <= n <= |stmts| ==> k in Run(t, stmts[..n]) && Run(t, stmts[..n])[k] == t[k]
  }

  ghost predicate NeverRestored(t: Table, stmts: seq<Statement>, k: Key)
    requires k in t
  {
    forall n :: 0 <= n < |stmts| ==> !Restores(t, stmts[n], k)
  }

  lemma UntouchedSnoc(t: Table, front: seq<Statement>, last: Statement, k: Key)
    requires k in t
    ensures var all := front + [last];
            Untouched(t, all, k) <==> Untouched(t, front, k) && k in Run(t, all) && Run(t, all)[k] == t[k]
  {
    var all := front + [last];
    assert all[..|all|] == all;
    assert forall n :: 0 <= n <= |front| ==> all[..n] == front[..n];
  }

  /**
    Over a whole run a soft-deleted row stays exactly as it is, at every point of the run,
    if and only if no upsert of the run carries the key at a greater height.
  */
  lemma {:induction false} DeletedUntilNewerUpsert(t: Table, stmts: seq<Statement>, k: Key)
    requires SoftDeleted(t, k)
    ensures Untouched(t, stmts, k) <==> NeverRestored(t, stmts, k)
    decreases |stmts|
  {
    if stmts != [] {
      var front, last := stmts[..|stmts| - 1], stmts[|stmts| - 1];
      DeletedUntilNewerUpsert(t, front, k);
      assert stmts == front + [last];
      UntouchedSnoc(t, front, last, k);
      if Untouched(t, front, k) {
        assert front[..|front|] == front;
        var before := Run(t, front);
        StatementOnDeletedRow(before, last, k);
        assert NothingNewer(before, last.rows, k) <==> NothingNewer(t, last.rows, k);
        assert NeverRestored(t, stmts, k) <==> !Restores(t, last, k);
      }
    }
  }

  // ---------------------------------------------------------------- order of upserts

  lemma SameMembers(a: seq<Row>, b: seq<Row>)
    requires multiset(a) == multiset(b)
    ensures forall r :: r in a <==> r in b
  {
    forall r ensures r in a <==> r in b {
      assert r in a <==> r in multiset(a);
    }
  }

  lemma MentionsByMember(rows: seq<Row>, k: Key)
    ensures Mentions(rows, k) <==> exists r :: r in rows && KeyOf(r) == k
  {
    if r :| r in rows && KeyOf(r) == k {
      var i :| 0 <= i < |rows| && rows[i] == r;
      assert KeyOf(rows[i]) == k;
    }
  }

  /** Rows of one key that share its greatest height are the same row. */
  ghost predicate AgreeAtTop(rows: seq<Row>) {
    forall r, r' :: IsNewest(r, rows) && IsNewest(r', rows) && KeyOf(r) == KeyOf(r') ==> r == r'
  }

  /** In any order, the stored keys are the same and every key ends at the same height. */
  lemma HeightsConverge(t: Table, a: seq<Row>, b: seq<Row>)
    requires multiset(a) == multiset(b)
    ensures UpsertRows(t, a).Keys == UpsertRows(t, b).Keys
    ensures forall k :: k in UpsertRows(t, a) ==> UpsertRows(t, a)[k].row.height == UpsertRows(t, b)[k].row.height
    ensures AgreeAtTop(a) ==> UpsertRows(t, a) == UpsertRows(t, b)
  {
    SameMembers(a, b);
    var ta, tb := UpsertRows(t, a), UpsertRows(t, b);
    forall k
      ensures k in ta <==> k in tb
      ensures k in ta ==> ta[k].row.height == tb[k].row.height
      ensures k in ta && AgreeAtTop(a) ==> ta[k] == tb[k]
    {
      KeyConverges(t, a, b, k);
    }
  }

  lemma KeyConverges(t: Table, a: seq<Row>, b: seq<Row>, k: Key)
    requires forall r :: r in a <==> r in b
    ensures k in UpsertRows(t, a) <==> k in UpsertRows(t, b)
    ensures k in UpsertRows(t, a) ==> UpsertRows(t, a)[k].row.height == UpsertRows(t, b)[k].row.height
    ensures k in UpsertRows(t, a) && AgreeAtTop(a) ==> UpsertRows(t, a)[k] == UpsertRows(t, b)[k]
  {
    var ta, tb := UpsertRows(t, a), UpsertRows(t, b);
    UpsertKeepsNewest(t, a, k);
    UpsertKeepsNewest(t, b, k);
    MentionsByMember(a, k);
    MentionsByMember(b, k);
    assert forall i :: 0 <= i < |a| ==> a[i] in b;
    assert forall i :: 0 <= i < |b| ==> b[i] in a;
    if k in t && NothingNewer(t, a, k) {
      assert NothingNewer(t, b, k);
    } else if k in ta {
      assert !(k in t && NothingNewer(t, b, k));
      assert IsNewest(tb[k].row, a);
    }
  }

  lemma {:induction false} FirstNewestWins(r: Row, rest: seq<Row>)
    requires IsNewest(r, [r] + rest)
    ensures KeyOf(r) in UpsertRows(map[], [r] + rest) && UpsertRows(map[], [r] + rest)[KeyOf(r)] == Live(r)
  {
    var one := UpsertRows(map[], [r]);
    assert one == UpsertRow(UpsertRows(map[], [r][..0]), r);
    assert one == map[KeyOf(r) := Live(r)];
    UpsertRowsAppend(map[], [r], rest);
    forall i | 0 <= i < |rest| && KeyOf(rest[i]) == KeyOf(r) ensures rest[i].height <= r.height {
      assert ([r] + rest)[i + 1] == rest[i];
    }
    UpsertKeepsNewest(one, rest, KeyOf(r));
  }

  lemma MoveToFront(rows: seq<Row>, r: Row) returns (rest: seq<Row>)
    requires r in rows
    ensures multiset([r] + rest) == multiset(rows)
  {
    var i :| 0 <= i < |rows| && rows[i] == r;
    rest := rows[..i] + rows[i + 1..];
    assert rows == rows[..i] + [r] + rows[i + 1..];
  }

  ghost predicate OrderIrrelevant(rows: seq<Row>) {
    forall t, other :: multiset(other) == multiset(rows) ==> UpsertRows(t, other) == UpsertRows(t, rows)
  }

  /**
    The final table is the same for every order of the rows, on every table,
    if and only if rows that tie for the newest of a key are equal.
  */
  lemma OrderIrrelevantIff(rows: seq<Row>)
    ensures OrderIrrelevant(rows) <==> AgreeAtTop(rows)
  {
    if AgreeAtTop(rows) {
      forall t, other | multiset(other) == multiset(rows) ensures UpsertRows(t, other) == UpsertRows(t, rows) {
        HeightsConverge(t, rows, other);
      }
    }
    if OrderIrrelevant(rows) {
      forall r, r' | IsNewest(r, rows) && IsNewest(r', rows) && KeyOf(r) == KeyOf(r') ensures r == r' {
        TopRowIsStored(rows, r);
        TopRowIsStored(rows, r');
      }
    }
  }

  /** Some order of the rows stores r, so if every order stores the same, the rows as given do. */
  lemma TopRowIsStored(rows: seq<Row>, r: Row)
    requires OrderIrrelevant(rows) && IsNewest(r, rows)
    ensures KeyOf(r) in UpsertRows(map[], rows) && UpsertRows(map[], rows)[KeyOf(r)] == Live(r)
  {
    hide IsNewest;
    var rest := RestOf(rows, r);
    NewestSurvivesReorder(r, rows, [r] + rest);
    FirstNewestWins(r, rest);
    assert UpsertRows(map[], [r] + rest) == UpsertRows(map[], rows);
  }

  lemma RestOf(rows: seq<Row>, r: Row) returns (rest: seq<Row>)
    requires IsNewest(r, rows)
    ensures multiset([r] + rest) == multiset(rows)
  {
    rest := MoveToFront(rows, r);
  }

  lemma NewestSurvivesReorder(r: Row, a: seq<Row>, b: seq<Row>)
    requires IsNewest(r, a) && multiset(a) == multiset(b)
    ensures IsNewest(r, b)
  {
    SameMembers(a, b);
    assert forall i :: 0 <= i < |b| ==> b[i] in a;
  }
}
