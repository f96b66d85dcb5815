/**
  Execution of write-back ops: the database, the consumer loop of cmd/tracelistener/main.go and the
  bulk importer's processWritebackData.
*/
module Writeback {
  import opened Wrappers
  import opened Sql
  import opened SplitArithmetic
  import opened Chunking

  /** All tables by name; the migrations have created every table an op may name. */
  type Tables = map<string, Table>

  function TableOf(db: Tables, name: string): Table {
    if name in db then db[name] else map[]
  }

  /** One op run as one statement; an op without rows is skipped. */
  function ExecuteOp(db: Tables, op: WritebackOp): Tables {
    if op.data == [] || op.query.Unset? then db
    else db[op.query.table := Execute(TableOf(db, op.query.table), op.query.kind, op.data)]
  }

  function ExecuteOps(db: Tables, ops: seq<WritebackOp>): Tables
    decreases |ops|
  {
    if ops == [] then db else ExecuteOp(ExecuteOps(db, ops[..|ops| - 1]), ops[|ops| - 1])
  }

  lemma {:induction false} ExecuteOpsAppend(db: Tables, a: seq<WritebackOp>, b: seq<WritebackOp>)
    ensures ExecuteOps(db, a + b) == ExecuteOps(ExecuteOps(db, a), b)
    decreases |b|
  {
    if b == [] {
      assert a + b == a;
    } else {
      ExecuteOpsAppend(db, a, b[..|b| - 1]);
      assert (a + b)[..|a + b| - 1] == a + b[..|b| - 1];
    }
  }

  // ---------------------------------------------------------------- chunks against whole ops

  /**
    The statement's effect does not depend on being one: deletes always, upserts of distinct keys, inserts of fresh
    ones.
  */
  ghost predicate Cuttable(t: Table, kind: StatementKind, rows: seq<Row>) {
    match kind
    case Upsert => DistinctKeys(rows)
    case Insert => Insertable(t, rows)
    case Delete => true
  }

  ghost predicate Divisible(db: Tables, wo: WritebackOp) {
    wo.query.On? && Cuttable(TableOf(db, wo.query.table), wo.query.kind, wo.data)
  }

  lemma ExecuteAppend(t: Table, kind: StatementKind, a: seq<Row>, b: seq<Row>)
    requires Cuttable(t, kind, a + b)
    ensures Execute(t, kind, a + b) == Execute(Execute(t, kind, a), kind, b)
    ensures Cuttable(t, kind, a)
  {
    match kind
    case Upsert =>
      DistinctHalves(a, b);
      UpsertRowsAppend(t, a, b);
    case Delete => DeleteRowsAppend(t, a, b);
    case Insert => InsertRowsAppend(t, a, b);
  }

  lemma DistinctHalves(a: seq<Row>, b: seq<Row>)
    requires DistinctKeys(a + b)
    ensures DistinctKeys(a) && DistinctKeys(b)
  {
    assert forall i :: 0 <= i < |a| ==> (a + b)[i] == a[i];
    assert forall i :: 0 <= i < |b| ==> (a + b)[|a| + i] == b[i];
  }

  lemma OneMoreChunk(db: Tables, wo: WritebackOp, rows: seq<Row>, last: seq<Row>)
    requires Divisible(db, wo.(data := rows + last))
    ensures Divisible(db, wo.(data := rows))
    ensures ExecuteOp(ExecuteOp(db, wo.(data := rows)), ChunkOp(wo, last)) == ExecuteOp(db, wo.(data := rows + last))
  {
    ExecuteAppend(TableOf(db, wo.query.table), wo.query.kind, rows, last);
    if rows == [] {
      assert rows + last == last;
    }
    if last == [] {
      assert rows + last == rows;
    }
  }

  lemma {:induction false} ChunksRunLikeOne(db: Tables, wo: WritebackOp, chunks: seq<seq<Row>>)
    requires Divisible(db, wo.(data := Flatten(chunks)))
    ensures ExecuteOps(db, ChunkOps(wo, chunks)) == ExecuteOp(db, wo.(data := Flatten(chunks)))
    decreases |chunks|
  {
    if chunks != [] {
      var front, last := chunks[..|chunks| - 1], chunks[|chunks| - 1];
      assert chunks == front + [last];
      FlattenAppend(front, [last]);
      assert [last][1..] == [];
      assert Flatten(chunks) == Flatten(front) + last;
      OneMoreChunk(db, wo, Flatten(front), last);
      ChunksRunLikeOne(db, wo, front);
      assert ChunkOps(wo, chunks) == ChunkOps(wo, front) + [ChunkOp(wo, last)];
    }
  }

  /**
    Running the pieces of a split in order leaves every table as running the whole op at once.
  */
  lemma SplitIsTransparent(db: Tables, wo: WritebackOp, limit: int)
    requires Divisible(db, wo) && Split(wo, limit).Ok?
    ensures ExecuteOps(db, Split(wo, limit).value) == ExecuteOp(db, wo)
  {
    var ops := Split(wo, limit).value;
    if FitsOneStatement(wo, limit) {
      assert ops[..0] == [];
      assert ExecuteOps(db, [wo]) == ExecuteOp(ExecuteOps(db, [wo][..0]), wo);
    } else {
      SplitAmountIsQuotient(|wo.data|, DBSinglePlaceholderAmount(wo), limit);
      var k := SplitAmount(DBPlaceholderAmount(wo), DBSinglePlaceholderAmount(wo), limit);
      ChunksLoseNothing(wo.data, k);
      ChunkSizes(wo.data, k);
      ChunksRunLikeOne(db, wo, Chunks(wo.data, k));
    }
  }

  // ---------------------------------------------------------------- whole batches

  /** A batch with every op replaced by the pieces of its split, in order. */
  ghost function Pieces(batch: seq<WritebackOp>, limit: int): seq<WritebackOp>
    requires forall op :: op in batch ==> Split(op, limit).Ok?
    decreases |batch|
  {
    if batch == [] then []
    else Pieces(batch[..|batch| - 1], limit) + Split(batch[|batch| - 1], limit).value
  }

  /** Every op is divisible in the state in which its turn comes. */
  ghost predicate DivisibleRun(db: Tables, batch: seq<WritebackOp>) {
    forall i :: 0 <= i < |batch| ==> Divisible(ExecuteOps(db, batch[..i]), batch[i])
  }

  lemma PiecesSnoc(db: Tables, front: seq<WritebackOp>, last: WritebackOp, limit: int)
    requires forall op :: op in front + [last] ==> Split(op, limit).Ok?
    ensures ExecuteOps(db, Pieces(front + [last], limit))
         == ExecuteOps(ExecuteOps(db, Pieces(front, limit)), Split(last, limit).value)
  {
    hide Split;
    var batch := front + [last];
    assert batch[..|batch| - 1] == front && batch[|batch| - 1] == last;
    ExecuteOpsAppend(db, Pieces(front, limit), Split(last, limit).value);
  }

  lemma NoPieces(db: Tables, limit: int)
    ensures ExecuteOps(db, Pieces([], limit)) == db
  {
  }

  // ---------------------------------------------------------------- one table

  /** What a list of ops does to the table of the given name. */
  function TableRun(t: Table, ops: seq<WritebackOp>, name: string): Table
    decreases |ops|
  {
    if ops == [] then t
    else
      var before, op := TableRun(t, ops[..|ops| - 1], name), ops[|ops| - 1];
      if OnTable(op, name) then Execute(before, op.query.kind, op.data) else before
  }

  predicate OnTable(op: WritebackOp, name: string) {
    op.data != [] && op.query.On? && op.query.table == name
  }

  /** Ops on other tables do not matter. */
  lemma {:induction false} TableOfRun(db: Tables, ops: seq<WritebackOp>, name: string)
    ensures TableOf(ExecuteOps(db, ops), name) == TableRun(TableOf(db, name), ops, name)
    decreases |ops|
  {
    if ops != [] {
      TableOfRun(db, ops[..|ops| - 1], name);
    }
  }

  lemma {:induction false} TableRunAppend(t: Table, a: seq<WritebackOp>, b: seq<WritebackOp>, name: string)
    ensures TableRun(t, a + b, name) == TableRun(TableRun(t, a, name), b, name)
    decreases |b|
  {
    if b == [] {
      assert a + b == a;
    } else {
      TableRunAppend(t, a, b[..|b| - 1], name);
      assert (a + b)[..|a + b| - 1] == a + b[..|b| - 1];
    }
  }

  lemma {:induction false} OffTable(t: Table, ops: seq<WritebackOp>, name: string)
    requires forall op :: op in ops ==> !OnTable(op, name)
    ensures TableRun(t, ops, name) == t
    decreases |ops|
  {
    if ops != [] {
      OffTable(t, ops[..|ops| - 1], name);
    }
  }

  lemma SplitOnTable(t: Table, op: WritebackOp, limit: int, name: string)
    requires Split(op, limit).Ok? && (OnTable(op, name) ==> Cuttable(t, op.query.kind, op.data))
    ensures TableRun(t, Split(op, limit).value, name)
         == if OnTable(op, name) then Execute(t, op.query.kind, op.data) else t
  {
    SplitShape(op, limit);
    if OnTable(op, name) {
      var db: Tables := map[name := t];
      SplitIsTransparent(db, op, limit);
      TableOfRun(db, Split(op, limit).value, name);
    } else {
      if op.data == [] {
        assert Split(op, limit).value == [op];
      }
      OffTable(t, Split(op, limit).value, name);
    }
  }

  // ---------------------------------------------------------------- when cutting an op shows

  /** Run on the table, a statement of these rows changes nothing: it is refused, or nothing in it is newer. */
  ghost predicate Quiet(t: Table, kind: StatementKind, rows: seq<Row>) {
    match kind
    case Upsert =>
      !DistinctKeys(rows)
      || forall i :: 0 <= i < |rows| ==> KeyOf(rows[i]) in t && t[KeyOf(rows[i])].row.height >= rows[i].height
    case Insert => !Insertable(t, rows)
    case Delete => forall i :: 0 <= i < |rows| ==> KeyOf(rows[i]) in t ==> t[KeyOf(rows[i])].deleteHeight.Some?
  }

  /**
    Cutting the op does not show: the whole may be cut anywhere, or, being refused, none of its pieces does anything.
  */
  ghost predicate Transparent(t: Table, wo: WritebackOp, limit: int)
    requires wo.query.On?
  {
    || Cuttable(t, wo.query.kind, wo.data)
    || (Split(wo, limit).Ok? && forall op :: op in Split(wo, limit).value ==> Quiet(t, wo.query.kind, op.data))
  }

  /** Keys stay, and their heights never fall. */
  ghost predicate Grows(t: Table, t': Table) {
    forall k :: k in t ==> k in t' && t[k].row.height <= t'[k].row.height
  }

  /** Some key is new, or its height has risen. */
  ghost predicate Gains(t: Table, t': Table) {
    exists k :: k in t' && (k in t ==> t[k].row.height < t'[k].row.height)
  }

  lemma UpsertMapGrows(t: Table, m: map<Key, Row>)
    ensures Grows(t, UpsertMap(t, m))
    ensures (exists k :: k in m && (k in t ==> t[k].row.height < m[k].height)) ==> Gains(t, UpsertMap(t, m))
    ensures (forall k :: k in m ==> k in t && t[k].row.height >= m[k].height) ==> UpsertMap(t, m) == t
  {
    if k :| k in m && (k in t ==> t[k].row.height < m[k].height) {
      assert UpsertMap(t, m)[k] == Live(m[k]);
    }
  }

  lemma UpsertGrows(t: Table, rows: seq<Row>)
    requires DistinctKeys(rows)
    ensures Grows(t, UpsertRows(t, rows))
    ensures if Quiet(t, Upsert, rows) then UpsertRows(t, rows) == t else Gains(t, UpsertRows(t, rows))
  {
    hide UpsertMap, Grows, Gains;
    UpsertDistinctRows(t, rows);
    UpsertMapGrows(t, ByKey(rows));
    ByKeyContents(rows);
    ByKeyOfDistinct(rows);
    if Quiet(t, Upsert, rows) {
      forall k | k in ByKey(rows) ensures k in t && t[k].row.height >= ByKey(rows)[k].height {
        var i :| 0 <= i < |rows| && KeyOf(rows[i]) == k;
      }
    } else {
      var i :| 0 <= i < |rows| && (KeyOf(rows[i]) in t ==> t[KeyOf(rows[i])].row.height < rows[i].height);
      assert KeyOf(rows[i]) in ByKey(rows);
    }
  }

  lemma InsertGrows(t: Table, rows: seq<Row>)
    requires Insertable(t, rows) && rows != []
    ensures Grows(t, InsertRows(t, rows)) && Gains(t, InsertRows(t, rows))
  {
    ByKeyOfDistinct(rows);
    ByKeyContents(rows);
    assert KeyOf(rows[0]) in InsertRows(t, rows) && KeyOf(rows[0]) !in t;
  }

  /** A write statement changes nothing, or makes the table gain: so what later statements do cannot hide it. */
  lemma QuietOrGains(t: Table, kind: StatementKind, rows: seq<Row>)
    requires !kind.Delete? && rows != []
    ensures Grows(t, Execute(t, kind, rows))
    ensures if Quiet(t, kind, rows) then Execute(t, kind, rows) == t else Gains(t, Execute(t, kind, rows))
  {
    hide Gains;
    if kind.Upsert? && DistinctKeys(rows) {
      UpsertGrows(t, rows);
    } else if kind.Insert? && Insertable(t, rows) {
      InsertGrows(t, rows);
    }
  }

  lemma GainsStay(t: Table, t': Table, t'': Table)
    requires Gains(t, t') && Grows(t', t'')
    ensures Gains(t, t'') && t'' != t
  {
    var k :| k in t' && (k in t ==> t[k].row.height < t'[k].row.height);
    assert k in t'' && t'[k].row.height <= t''[k].row.height;
  }

  /** Write statements on one table leave it as it was if and only if each of them alone would. */
  lemma {:induction false} PiecesQuiet(t: Table, ops: seq<WritebackOp>, name: string, kind: StatementKind)
    requires !kind.Delete? && forall op :: op in ops ==> op.query == On(name, kind) && op.data != []
    ensures if forall op :: op in ops ==> Quiet(t, kind, op.data) then TableRun(t, ops, name) == t
            else Gains(t, TableRun(t, ops, name))
    decreases |ops|
  {
    if ops != [] {
      hide Quiet, Gains, Grows, Execute;
      var front, last := ops[..|ops| - 1], ops[|ops| - 1];
      assert ops == front + [last];
      PiecesQuiet(t, front, name, kind);
      var before := TableRun(t, front, name);
      QuietOrGains(before, kind, last.data);
      if !(forall op :: op in front ==> Quiet(t, kind, op.data)) {
        GainsStay(t, before, Execute(before, kind, last.data));
        assert !(forall op :: op in ops ==> Quiet(t, kind, op.data));
      }
    }
  }

  lemma GainsDiffers(t: Table, t': Table)
    requires Gains(t, t')
    ensures t' != t
  {
  }

  lemma RefusedWhole(t: Table, kind: StatementKind, rows: seq<Row>)
    requires !Cuttable(t, kind, rows)
    ensures !kind.Delete? && rows != [] && Execute(t, kind, rows) == t
  {
  }

  /** On its table an op leaves in pieces what it leaves whole if and only if cutting it does not show. */
  lemma SplitOnTableIff(t: Table, op: WritebackOp, limit: int, name: string)
    requires op.query.On? && op.query.table == name && Split(op, limit).Ok?
    ensures TableRun(t, Split(op, limit).value, name)
         == (if op.data == [] then t else Execute(t, op.query.kind, op.data))
       <==> Transparent(t, op, limit)
  {
    hide Split, Quiet;
    if Cuttable(t, op.query.kind, op.data) {
      SplitOnTable(t, op, limit, name);
    } else {
      hide Cuttable;
      RefusedWhole(t, op.query.kind, op.data);
      SplitShape(op, limit);
      PiecesQuiet(t, Split(op, limit).value, name, op.query.kind);
      if !Transparent(t, op, limit) {
        GainsDiffers(t, TableRun(t, Split(op, limit).value, name));
      }
    }
  }

  /** No op on the table shows that it was cut when its turn comes. */
  ghost predicate TransparentOnTable(t: Table, ops: seq<WritebackOp>, limit: int, name: string) {
    forall i :: 0 <= i < |ops| && OnTable(ops[i], name) ==> Transparent(TableRun(t, ops[..i], name), ops[i], limit)
  }

  lemma TransparentOnTableSnoc(t: Table, front: seq<WritebackOp>, last: WritebackOp, limit: int, name: string)
    requires TransparentOnTable(t, front + [last], limit, name)
    ensures TransparentOnTable(t, front, limit, name)
    ensures OnTable(last, name) ==> Transparent(TableRun(t, front, name), last, limit)
  {
    hide Transparent, TableRun;
    var ops := front + [last];
    assert forall i :: 0 <= i < |front| ==> ops[..i] == front[..i] && ops[i] == front[i];
    assert ops[..|front|] == front && ops[|front|] == last;
  }

  /** Piece by piece a table then ends as op by op, whatever the ops on other tables are. */
  lemma {:induction false} PiecesOnTable(t: Table, batch: seq<WritebackOp>, limit: int, name: string)
    requires TransparentOnTable(t, batch, limit, name)
    requires forall op :: op in batch ==> Split(op, limit).Ok?
    ensures TableRun(t, Pieces(batch, limit), name) == TableRun(t, batch, name)
    decreases |batch|
  {
    if batch != [] {
      hide Split, Transparent, TransparentOnTable, Execute;
      var front, last := batch[..|batch| - 1], batch[|batch| - 1];
      assert batch == front + [last];
      TransparentOnTableSnoc(t, front, last, limit, name);
      PiecesOnTable(t, front, limit, name);
      if OnTable(last, name) {
        SplitOnTableIff(TableRun(t, front, name), last, limit, name);
      } else {
        SplitOnTable(TableRun(t, front, name), last, limit, name);
      }
      TableRunAppend(t, Pieces(front, limit), Split(last, limit).value, name);
    }
  }

  lemma {:induction false} OffTableStays(db: Tables, ops: seq<WritebackOp>, name: string)
    requires forall op :: op in ops ==> op.query.On? && op.query.table == name && op.data != []
    ensures ExecuteOps(db, ops) == if ops == [] then db else db[name := TableRun(TableOf(db, name), ops, name)]
    decreases |ops|
  {
    if ops != [] {
      OffTableStays(db, ops[..|ops| - 1], name);
    }
  }

  /**
    Running the pieces of a split in order leaves every table as running the whole op at once, if and only if no
    conflict key stands in the way of the whole op, or else none of its pieces changes anything either.
  */
  lemma SplitIsTransparentIff(db: Tables, wo: WritebackOp, limit: int)
    requires wo.query.On? && Split(wo, limit).Ok?
    ensures ExecuteOps(db, Split(wo, limit).value) == ExecuteOp(db, wo)
       <==> Transparent(TableOf(db, wo.query.table), wo, limit)
  {
    hide Transparent, Execute, Split, ExecuteOps, TableRun;
    var name := wo.query.table;
    SplitOnTableIff(TableOf(db, name), wo, limit, name);
    if wo.data == [] {
      NothingToShow(db, wo, limit);
    } else {
      SplitShape(wo, limit);
      OffTableStays(db, Split(wo, limit).value, name);
      NothingFlattened(Split(wo, limit).value);
      var t := TableOf(db, name);
      assert db[name := TableRun(t, Split(wo, limit).value, name)][name] == TableRun(t, Split(wo, limit).value, name);
      assert db[name := Execute(t, wo.query.kind, wo.data)][name] == Execute(t, wo.query.kind, wo.data);
    }
  }

  lemma NothingToShow(db: Tables, wo: WritebackOp, limit: int)
    requires wo.query.On? && wo.data == []
    ensures Transparent(TableOf(db, wo.query.table), wo, limit)
    ensures Split(wo, limit).Ok? && ExecuteOps(db, Split(wo, limit).value) == ExecuteOp(db, wo)
  {
    assert ExecuteOps(db, [wo]) == ExecuteOp(ExecuteOps(db, [wo][..0]), wo);
  }

  lemma NothingFlattened(ops: seq<WritebackOp>)
    ensures ops == [] ==> Flatten(DataOf(ops)) == []
  {
  }

  /** Every op may be cut under the limit without a difference when its turn comes. */
  ghost predicate TransparentRun(db: Tables, batch: seq<WritebackOp>, limit: int) {
    forall i :: 0 <= i < |batch| && batch[i].query.On? ==>
      Transparent(TableOf(ExecuteOps(db, batch[..i]), batch[i].query.table), batch[i], limit)
  }

  ghost predicate PiecesFollow(db: Tables, batch: seq<WritebackOp>, limit: int)
    requires forall op :: op in batch ==> Split(op, limit).Ok?
  {
    forall n :: 0 <= n <= |batch| ==> ExecuteOps(db, Pieces(batch[..n], limit)) == ExecuteOps(db, batch[..n])
  }

  /**
    A batch executed piece by piece agrees with its whole ops after every op, if and only if no op shows that it was
    cut.
  */
  lemma {:induction false} PiecesRunLikeBatchIff(db: Tables, batch: seq<WritebackOp>, limit: int)
    requires forall op :: op in batch ==> op.query.On? && Split(op, limit).Ok?
    ensures PiecesFollow(db, batch, limit) <==> TransparentRun(db, batch, limit)
    decreases |batch|
  {
    if batch != [] {
      hide Split, Transparent, PiecesFollow, TransparentRun, ExecuteOps, ExecuteOp, Pieces;
      var front, last := batch[..|batch| - 1], batch[|batch| - 1];
      assert batch == front + [last];
      PiecesRunLikeBatchIff(db, front, limit);
      RunsSnoc(db, front, last, limit);
      if PiecesFollow(db, front, limit) {
        WholeFollows(db, front, limit);
        PiecesSnoc(db, front, last, limit);
        ExecuteSnoc(db, front, last);
        SplitIsTransparentIff(ExecuteOps(db, front), last, limit);
      }
    } else {
      NothingFollows(db, limit);
    }
  }

  /** In particular a batch of ops that may be cut anywhere ends piece by piece as op by op. */
  lemma PiecesRunLikeBatch(db: Tables, batch: seq<WritebackOp>, limit: int)
    requires DivisibleRun(db, batch)
    requires forall op :: op in batch ==> Split(op, limit).Ok?
    ensures ExecuteOps(db, Pieces(batch, limit)) == ExecuteOps(db, batch)
  {
    hide Split, Pieces, ExecuteOps, PiecesFollow;
    forall op | op in batch ensures op.query.On? {
      var i :| 0 <= i < |batch| && batch[i] == op;
      assert Divisible(ExecuteOps(db, batch[..i]), batch[i]);
    }
    forall i | 0 <= i < |batch|
      ensures Transparent(TableOf(ExecuteOps(db, batch[..i]), batch[i].query.table), batch[i], limit)
    {
      assert Divisible(ExecuteOps(db, batch[..i]), batch[i]);
    }
    PiecesRunLikeBatchIff(db, batch, limit);
    WholeFollows(db, batch, limit);
  }

  lemma ExecuteSnoc(db: Tables, front: seq<WritebackOp>, last: WritebackOp)
    ensures ExecuteOps(db, front + [last]) == ExecuteOp(ExecuteOps(db, front), last)
  {
    assert (front + [last])[..|front + [last]| - 1] == front;
  }

  lemma NothingFollows(db: Tables, limit: int)
    ensures PiecesFollow(db, [], limit) && TransparentRun(db, [], limit)
  {
  }

  lemma WholeFollows(db: Tables, batch: seq<WritebackOp>, limit: int)
    requires (forall op :: op in batch ==> Split(op, limit).Ok?) && PiecesFollow(db, batch, limit)
    ensures ExecuteOps(db, Pieces(batch, limit)) == ExecuteOps(db, batch)
  {
    assert batch[..|batch|] == batch;
  }

  lemma RunsSnoc(db: Tables, front: seq<WritebackOp>, last: WritebackOp, limit: int)
    requires last.query.On? && forall op :: op in front + [last] ==> Split(op, limit).Ok?
    ensures PiecesFollow(db, front + [last], limit) <==>
              && PiecesFollow(db, front, limit)
              && ExecuteOps(db, Pieces(front + [last], limit)) == ExecuteOps(db, front + [last])
    ensures TransparentRun(db, front + [last], limit) <==>
              && TransparentRun(db, front, limit)
              && Transparent(TableOf(ExecuteOps(db, front), last.query.table), last, limit)
  {
    hide Split, Transparent, Pieces, ExecuteOps;
    var batch := front + [last];
    assert forall n :: 0 <= n <= |front| ==> batch[..n] == front[..n];
    assert batch[..|batch|] == batch;
    assert forall i :: 0 <= i < |front| ==> batch[i] == front[i];
    assert batch[|front|] == last;
  }

  /** Two rows of one key that the table does not hold, in a limit for one: refused whole, and written in pieces. */
  lemma RepeatedKeyCutApart(db: Tables, wo: WritebackOp, r: Row, r': Row, limit: int)
    requires wo.query.On? && !wo.query.kind.Delete? && wo.data == [r, r'] && KeyOf(r) == KeyOf(r')
    requires KeyOf(r) !in TableOf(db, wo.query.table) && NumField(r) <= limit < 2 * NumField(r)
    ensures Split(wo, limit) == Ok([ChunkOp(wo, [r]), ChunkOp(wo, [r'])])
    ensures TableOf(ExecuteOp(db, wo), wo.query.table) == TableOf(db, wo.query.table)
    ensures KeyOf(r) in TableOf(ExecuteOps(db, Split(wo, limit).value), wo.query.table)
  {
    var t, name := TableOf(db, wo.query.table), wo.query.table;
    assert KeyOf(wo.data[0]) == KeyOf(wo.data[1]);
    TwoChunks(wo, r, r', limit);
    var first, second := ChunkOp(wo, [r]), ChunkOp(wo, [r']);
    TableOfRun(db, [first, second], name);
    assert [first, second][..1] == [first] && [first][..0] == [];
    var after := Execute(t, wo.query.kind, [r]);
    OneFreshRow(t, wo.query.kind, r);
    QuietOrGains(after, wo.query.kind, [r']);
    assert TableRun(t, [first], name) == after;
  }

  lemma OneFreshRow(t: Table, kind: StatementKind, r: Row)
    requires !kind.Delete? && KeyOf(r) !in t
    ensures KeyOf(r) in Execute(t, kind, [r])
  {
    ByKeyOfDistinct([r]);
    assert [r][..0] == [] && [r][0] == r;
    assert UpsertRows(t, [r]) == UpsertRow(UpsertRows(t, [r][..0]), [r][0]);
    assert DistinctKeys([r]);
    assert [r][0] in [r];
  }

  lemma TwoChunks(wo: WritebackOp, r: Row, r': Row, limit: int)
    requires wo.data == [r, r'] && NumField(r) <= limit < 2 * NumField(r)
    ensures Split(wo, limit) == Ok([ChunkOp(wo, [r]), ChunkOp(wo, [r'])])
  {
    var f := NumField(r);
    assert DBSinglePlaceholderAmount(wo) == f && DBPlaceholderAmount(wo) == f * 2;
    SplitAmountIsQuotient(2, f, limit);
    var k := SplitAmount(2 * f, f, limit);
    if k >= 2 { MulMonotone(2, k, f); }
    assert k == 1 && !FitsOneStatement(wo, limit);
    assert wo.data[..1] == [r] && wo.data[1..] == [r'];
    assert Chunks(wo.data[1..], 1) == [[r']];
    assert Chunks(wo.data, 1) == [[r]] + [[r']] == [[r], [r']];
    assert Split(wo, limit) == Ok(ChunkOps(wo, Chunks(wo.data, k)));
    assert ChunkOps(wo, [[r], [r']]) == [ChunkOp(wo, [r]), ChunkOp(wo, [r'])];
  }

  // ---------------------------------------------------------------- the database and its two writers

  class Database {
    var tables: Tables

    constructor (tables: Tables)
      ensures this.tables == tables
    {
      this.tables := tables;
    }

    /** Runs one statement; a refused statement is logged and changes nothing. */
    method Add(query: Query, rows: seq<Row>)
      requires query.On?
      modifies this
      ensures tables == old(tables)[query.table := Execute(TableOf(old(tables), query.table), query.kind, rows)]
    {
      tables := tables[query.table := Execute(TableOf(tables, query.table), query.kind, rows)];
    }

    /** Executes the pieces of one op, skipping the ones without rows; returns how many rows it handed over. */
    method AddPieces(wbUnits: seq<WritebackOp>) returns (totalUnitsAmt: nat)
      requires forall op :: op in wbUnits ==> op.query.On?
      modifies this
      ensures tables == ExecuteOps(old(tables), wbUnits)
      ensures totalUnitsAmt == |Flatten(DataOf(wbUnits))|
    {
      totalUnitsAmt := 0;
      for i := 0 to |wbUnits|
        invariant tables == ExecuteOps(old(tables), wbUnits[..i])
        invariant totalUnitsAmt == |Flatten(DataOf(wbUnits[..i]))|
      {
        assert wbUnits[..i + 1] == wbUnits[..i] + [wbUnits[i]];
        assert DataOf(wbUnits[..i + 1]) == DataOf(wbUnits[..i]) + [wbUnits[i].data];
        FlattenAppend(DataOf(wbUnits[..i]), [wbUnits[i].data]);
        assert [wbUnits[i].data][1..] == [];
        totalUnitsAmt := totalUnitsAmt + |wbUnits[i].data|;
        if wbUnits[i].data == [] {
          continue;
        }
        Add(wbUnits[i].query, wbUnits[i].data);
      }
      assert wbUnits[..|wbUnits|] == wbUnits;
    }

    /** Splits one op and executes its pieces. */
    method ConsumeOp(p: WritebackOp) returns (remain: nat)
      requires p.query.On?
      requires p.data != [] ==> DBSinglePlaceholderAmount(p) <= DB_PLACEHOLDER_LIMIT
      modifies this
      ensures Split(p, DB_PLACEHOLDER_LIMIT).Ok?
      ensures tables == ExecuteOps(old(tables), Split(p, DB_PLACEHOLDER_LIMIT).value)
      ensures remain == 0
    {
      hide Split, ExecuteOps, Flatten;
      SplitPanicsIff(p, DB_PLACEHOLDER_LIMIT);
      var wbUnits := SplitStatements(p, DB_PLACEHOLDER_LIMIT);
      SplitShape(p, DB_PLACEHOLDER_LIMIT);
      var totalUnitsAmt := AddPieces(wbUnits.value);
      remain := |p.data| - totalUnitsAmt;
    }

    /**
      The consumer loop for one batch, and the bulk importer's loop over the same ops. A row wider than the
      placeholder limit would panic the process. remains is what the importer logs: rows not written, per op.
    */
    method ConsumeBatch(batch: seq<WritebackOp>) returns (remains: seq<nat>)
      requires forall op :: op in batch ==> op.query.On?
      requires forall op :: op in batch && op.data != [] ==> DBSinglePlaceholderAmount(op) <= DB_PLACEHOLDER_LIMIT
      modifies this
      ensures forall op :: op in batch ==> Split(op, DB_PLACEHOLDER_LIMIT).Ok?
      ensures tables == ExecuteOps(old(tables), Pieces(batch, DB_PLACEHOLDER_LIMIT))
      ensures TransparentRun(old(tables), batch, DB_PLACEHOLDER_LIMIT) ==> tables == ExecuteOps(old(tables), batch)
      ensures |remains| == |batch| && forall i :: 0 <= i < |remains| ==> remains[i] == 0
    {
      hide Split, ExecuteOps, Pieces, TransparentRun, PiecesFollow;
      forall op | op in batch ensures Split(op, DB_PLACEHOLDER_LIMIT).Ok? {
        SplitPanicsIff(op, DB_PLACEHOLDER_LIMIT);
      }
      remains := [];
      NoPieces(old(tables), DB_PLACEHOLDER_LIMIT);
      for i := 0 to |batch|
        invariant tables == ExecuteOps(old(tables), Pieces(batch[..i], DB_PLACEHOLDER_LIMIT))
        invariant |remains| == i && forall j :: 0 <= j < i ==> remains[j] == 0
      {
        var p := batch[i];
        assert batch[..i + 1] == batch[..i] + [p];
        PiecesSnoc(old(tables), batch[..i], p, DB_PLACEHOLDER_LIMIT);
        var remain := ConsumeOp(p);
        remains := remains + [remain];
      }
      assert batch[..|batch|] == batch;
      PiecesRunLikeBatchIff(old(tables), batch, DB_PLACEHOLDER_LIMIT);
      if TransparentRun(old(tables), batch, DB_PLACEHOLDER_LIMIT) {
        WholeFollows(old(tables), batch, DB_PLACEHOLDER_LIMIT);
      }
    }
  }
}
