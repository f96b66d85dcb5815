/**
  What the batches of a run do to the database: each module's table ends as its caches say, whatever the order
  of rows inside an op, the chunking, and the other modules of the batch.
*/
module Flushing {
  import opened Sql
  import opened Chunking
  import opened Writeback
  import opened Modules
  import opened Processing

  /**
    A module's table after its cache is flushed: the writes, none if the statement is refused, then the deletes. The
    rows of a set-update module are under their own keys.
  */
  ghost function FlushTable(t: Table, chain: string, c: Cache): Table {
    match c
    case Writes(rows) => UpsertMap(t, Delivered(rows, chain))
    case Updates(inserts, deletes) => DeleteMap(UpsertMap(t, Stamp(inserts, chain)), Stamp(deletes, chain))
  }

  /** The cached rows are under their own keys wherever that matters: in a set-update module. */
  ghost predicate Flushable(c: Cache) {
    c.Writes? || ValidCache(c)
  }

  /** The write statement does not meet a stored row: it is an upsert, or none of the keys it brings is in the table. */
  ghost predicate Unobstructed(t: Table, chain: string, useDBUpsert: bool, c: Cache) {
    useDBUpsert || forall k :: k in Delivered(WriteRows(c), chain) ==> k !in t
  }

  // ---------------------------------------------------------------- the contract of one flush

  ghost predicate RowsOf(data: seq<Row>, m: RowCache, chain: string) {
    forall i :: 0 <= i < |data| ==> CarriesOne(data[i], m, chain)
  }

  /** A delete op of a flush holds one row of the delete cache. */
  lemma DeleteOpRow(chain: string, m: RowCache, ops: seq<WritebackOp>, n: nat)
    requires SingleDeletes(ops) && Lists(Heads(ops), StampRows(m, chain)) && n < |ops|
    ensures |ops[n].data| == 1 && RowsOf(ops[n].data, m, chain)
  {
    hide Lists;
    ListedRowsCarry(Heads(ops), m, chain);
    assert Heads(ops)[n] == ops[n].data[0];
  }

  /**
    Every op a flush emits has rows of its cache, with the chain's name and unchanged otherwise, and runs the
    statement of its own type on its own module's table; deletes come one row at a time and only from set-update
    modules. The conflict keys of a write op are pairwise distinct if and only if the cached rows have pairwise
    distinct columns.
  */
  lemma FlushContract(cfg: Config, chain: string, useDBUpsert: bool, c: Cache, ops: seq<WritebackOp>, n: nat)
    requires Emits(cfg, chain, useDBUpsert, c, ops) && n < |ops|
    ensures ops[n].data != [] && forall i :: 0 <= i < |ops[n].data| ==> ops[n].data[i].chain == chain
    ensures ops[n].query
         == On(cfg.table, if ops[n].typ == DeleteOp then Delete else if useDBUpsert then Upsert else Insert)
    ensures ops[n].typ == DeleteOp ==> c.Updates? && |ops[n].data| == 1 && RowsOf(ops[n].data, DeleteRowsOf(c), chain)
    ensures ops[n].typ == WriteOp ==> n == 0 && RowsOf(ops[n].data, WriteRows(c), chain)
    ensures ops[n].typ == WriteOp ==> (DistinctKeys(ops[n].data) <==> DistinctColumns(WriteRows(c)))
  {
    hide Lists, DistinctKeys, DistinctColumns, StampRows;
    if WriteRows(c) != map[] && n == 0 {
      ListedRowsCarry(ops[0].data, WriteRows(c), chain);
      ListedKeysDistinctIff(ops[0].data, WriteRows(c), chain);
    } else {
      assert c.Updates?;
      var dels := if c.inserts == map[] then ops else ops[1..];
      DeleteOpRow(chain, c.deletes, dels, if c.inserts == map[] then n else n - 1);
    }
  }

  // ---------------------------------------------------------------- the effect of one module's ops

  /** ops changed one table, to t, and left the others alone. */
  ghost predicate Changes(db: Tables, db': Tables, table: string, t: Table) {
    TableOf(db', table) == t && forall name :: name != table ==> TableOf(db', name) == TableOf(db, name)
  }

  /**
    The write op of a flush, whatever its rows are cached under, brings all of them to the table if they have pairwise
    distinct columns, and is refused as a whole otherwise.
  */
  lemma WriteOpEffect(db: Tables, cfg: Config, chain: string, useDBUpsert: bool, m: RowCache, op: WritebackOp)
    requires EmitsWrite(cfg, chain, useDBUpsert, m, op)
    requires useDBUpsert || forall k :: k in Delivered(m, chain) ==> k !in TableOf(db, cfg.table)
    ensures DistinctKeys(op.data) <==> DistinctColumns(m)
    ensures DistinctColumns(m) ==> Divisible(db, op)
    ensures Changes(db, ExecuteOp(db, op), cfg.table, UpsertMap(TableOf(db, cfg.table), Delivered(m, chain)))
  {
    hide Lists, Delivered, ByKey, DistinctColumns, DistinctKeys;
    var t := TableOf(db, cfg.table);
    ListedKeysDistinctIff(op.data, m, chain);
    if DistinctColumns(m) {
      ListedRowsDelivered(op.data, m, chain);
      UpsertDistinctRows(t, op.data);
      if !useDBUpsert {
        FreshRowsInsert(t, op.data, Delivered(m, chain));
      }
    } else {
      NothingDelivered(t, m, chain);
    }
  }

  lemma FreshRowsInsert(t: Table, rows: seq<Row>, m: map<Key, Row>)
    requires Enumerates(rows, m) && forall k :: k in m ==> k !in t
    ensures Insertable(t, rows) && InsertRows(t, rows) == UpsertRows(t, rows)
  {
    ByKeyOfDistinct(rows);
    InsertAgreesWithUpsert(t, rows);
  }

  lemma NothingDelivered(t: Table, m: RowCache, chain: string)
    requires !DistinctColumns(m)
    ensures UpsertMap(t, Delivered(m, chain)) == t
  {
  }

  /**
    An upsert op of a flush: the database runs it if and only if the cached rows have pairwise distinct columns, and
    then every row of it takes part.
  */
  lemma WriteOpRunsIff(db: Tables, cfg: Config, chain: string, m: RowCache, op: WritebackOp)
    requires EmitsWrite(cfg, chain, true, m, op)
    ensures DistinctKeys(op.data) <==> DistinctColumns(m)
    ensures Changes(
              db, ExecuteOp(db, op), cfg.table,
              if DistinctColumns(m) then UpsertMap(TableOf(db, cfg.table), ByKey(op.data)) else TableOf(db, cfg.table))
  {
    hide Lists, DistinctKeys, DistinctColumns, Delivered;
    WriteOpEffect(db, cfg, chain, true, m, op);
    if DistinctColumns(m) {
      ListedRowsDelivered(op.data, m, chain);
    } else {
      NothingDelivered(TableOf(db, cfg.table), m, chain);
    }
  }

  lemma {:induction false} DeleteOpsRun(db: Tables, table: string, ops: seq<WritebackOp>)
    requires SingleDeletes(ops) && forall i :: 0 <= i < |ops| ==> ops[i].query == On(table, Delete)
    ensures Changes(db, ExecuteOps(db, ops), table, DeleteRows(TableOf(db, table), Heads(ops)))
    decreases |ops|
  {
    if ops != [] {
      var front, last := ops[..|ops| - 1], ops[|ops| - 1];
      DeleteOpsRun(db, table, front);
      assert Heads(ops)[..|ops| - 1] == Heads(front);
      var t := TableOf(ExecuteOps(db, front), table);
      assert last.data == [last.data[0]];
      assert DeleteRows(t, last.data) == DeleteRow(DeleteRows(t, last.data[..0]), last.data[0]);
    } else {
      assert Heads(ops) == [];
    }
  }

  lemma DeleteOpsEffect(db: Tables, cfg: Config, chain: string, m: RowCache, ops: seq<WritebackOp>)
    requires EmitsDeletes(cfg, chain, m, ops) && WellKeyed(m)
    ensures Changes(db, ExecuteOps(db, ops), cfg.table, DeleteMap(TableOf(db, cfg.table), Stamp(m, chain)))
  {
    hide Lists, Stamp;
    ListedRowsEnumerate(Heads(ops), m, chain);
    DeleteOpsRun(db, cfg.table, ops);
    DeleteDistinctRows(TableOf(db, cfg.table), Heads(ops));
  }

  lemma NothingToWrite(t: Table, chain: string)
    ensures UpsertMap(t, Delivered(map[], chain)) == t && UpsertMap(t, Stamp(map[], chain)) == t
  {
    NoRows(chain);
    NoUpserts(t);
  }

  lemma NoRows(chain: string)
    ensures Stamp(map[], chain) == map[] && Delivered(map[], chain) == map[]
  {
    forall k ensures k !in Delivered(map[], chain) && k !in Stamp(map[], chain) {
      DeliveredContents(map[], chain);
      StampContents(map[], chain, k);
    }
  }

  lemma NoUpserts(t: Table)
    ensures UpsertMap(t, map[]) == t
  {
  }

  lemma ExecuteFirst(db: Tables, ops: seq<WritebackOp>)
    requires ops != []
    ensures ExecuteOps(db, ops) == ExecuteOps(ExecuteOp(db, ops[0]), ops[1..])
  {
    ExecuteOpsAppend(db, [ops[0]], ops[1..]);
    assert ops == [ops[0]] + ops[1..];
    assert ExecuteOps(db, [ops[0]]) == ExecuteOp(ExecuteOps(db, [ops[0]][..0]), ops[0]);
  }

  /** The ops of one module flush its cache into its table and touch no other. */
  lemma ModuleOpsEffect(db: Tables, cfg: Config, chain: string, useDBUpsert: bool, c: Cache, ops: seq<WritebackOp>)
    requires Emits(cfg, chain, useDBUpsert, c, ops) && Flushable(c)
    requires Unobstructed(TableOf(db, cfg.table), chain, useDBUpsert, c)
    ensures Changes(db, ExecuteOps(db, ops), cfg.table, FlushTable(TableOf(db, cfg.table), chain, c))
  {
    hide Delivered, Stamp, WellKeyed, EmitsWrite, EmitsDeletes;
    NothingToWrite(TableOf(db, cfg.table), chain);
    match c
    case Writes(rows) =>
      if rows != map[] {
        WriteOpEffect(db, cfg, chain, useDBUpsert, rows, ops[0]);
        ExecuteFirst(db, ops);
        assert ops[1..] == [];
      }
    case Updates(inserts, deletes) =>
      DeliveredOfKeyed(inserts, chain);
      if inserts == map[] {
        DeleteOpsEffect(db, cfg, chain, deletes, ops);
      } else {
        WriteOpEffect(db, cfg, chain, useDBUpsert, inserts, ops[0]);
        ExecuteFirst(db, ops);
        DeleteOpsEffect(ExecuteOp(db, ops[0]), cfg, chain, deletes, ops[1..]);
      }
  }

  // ---------------------------------------------------------------- the effect of a batch, table by table

  ghost predicate DistinctTables(cfgs: seq<Config>) {
    forall i, j :: 0 <= i < j < |cfgs| ==> cfgs[i].table != cfgs[j].table
  }

  /** Its rows have distinct conflict keys, or it goes out as one statement. */
  ghost predicate Whole(op: WritebackOp, limit: int) {
    DistinctKeys(op.data) || FitsOneStatement(op, limit)
  }

  /** No op of the part is cut between rows of one key: none has such rows, or it is not cut at all. */
  ghost predicate Uncut(c: Cache, ops: seq<WritebackOp>, limit: int) {
    ValidCache(c) || forall op :: op in ops ==> Whole(op, limit)
  }

  /** One module's ops flush its cache into its table, and under the limit do so in pieces as well. */
  lemma OwnOpsOnTable(
    t: Table, cfg: Config, chain: string, useDBUpsert: bool, c: Cache, ops: seq<WritebackOp>, limit: int)
    requires Emits(cfg, chain, useDBUpsert, c, ops) && Flushable(c) && Unobstructed(t, chain, useDBUpsert, c)
    ensures TableRun(t, ops, cfg.table) == FlushTable(t, chain, c)
    ensures Uncut(c, ops, limit) ==> TransparentOnTable(t, ops, limit, cfg.table)
  {
    hide Emits, Unobstructed, FlushTable, DistinctKeys, Transparent, Uncut, Flushable;
    var db: Tables := map[cfg.table := t];
    ModuleOpsEffect(db, cfg, chain, useDBUpsert, c, ops);
    TableOfRun(db, ops, cfg.table);
    if Uncut(c, ops, limit) {
      forall i | 0 <= i < |ops| && OnTable(ops[i], cfg.table)
        ensures Transparent(TableRun(t, ops[..i], cfg.table), ops[i], limit)
      {
        OwnOpTransparent(t, cfg, chain, useDBUpsert, c, ops, i, limit);
      }
    }
  }

  lemma OwnOpTransparent(
    t: Table, cfg: Config, chain: string, useDBUpsert: bool, c: Cache, ops: seq<WritebackOp>, i: nat, limit: int)
    requires Emits(cfg, chain, useDBUpsert, c, ops) && Unobstructed(t, chain, useDBUpsert, c) && i < |ops|
    requires Uncut(c, ops, limit)
    ensures ops[i].query.On? && Transparent(TableRun(t, ops[..i], cfg.table), ops[i], limit)
  {
    hide Lists, DistinctKeys, DistinctColumns, Delivered, Split, StampRows, WellKeyed;
    FlushContract(cfg, chain, useDBUpsert, c, ops, i);
    if ops[i].typ == WriteOp {
      assert ops[..0] == [];
      WriteOpEffect(map[cfg.table := t], cfg, chain, useDBUpsert, WriteRows(c), ops[0]);
      if !DistinctColumns(WriteRows(c)) {
        if ValidCache(c) { WellKeyedIsDistinct(WriteRows(c)); }
        assert ops[0] in ops;
        RefusedUncut(t, ops[0], limit);
      }
    }
  }

  /** A refused op that goes out as one statement shows nothing. */
  lemma RefusedUncut(t: Table, op: WritebackOp, limit: int)
    requires op.query.On? && !op.query.kind.Delete? && !DistinctKeys(op.data) && FitsOneStatement(op, limit)
    ensures Transparent(t, op, limit)
  {
    assert Split(op, limit).value == [op];
  }

  /** The other modules' ops are on other tables, whatever they hold. */
  lemma OthersOffTable(
    cfgs: seq<Config>, chain: string, useDBUpsert: bool, caches: seq<Cache>, parts: seq<seq<WritebackOp>>,
    i: nat, j: nat)
    requires EmitsAll(cfgs, chain, useDBUpsert, caches, parts) && DistinctTables(cfgs)
    requires i < |cfgs| && j < |cfgs| && i != j
    ensures forall op :: op in parts[j] ==> !OnTable(op, cfgs[i].table)
  {
    hide Emits;
    forall op | op in parts[j] ensures !OnTable(op, cfgs[i].table) {
      var n :| 0 <= n < |parts[j]| && parts[j][n] == op;
      FlushContract(cfgs[j], chain, useDBUpsert, caches[j], parts[j], n);
      var lo, hi := if i < j then i else j, if i < j then j else i;
      assert cfgs[lo].table != cfgs[hi].table;
    }
  }

  /** On module i's table the first n parts of a batch do what module i's part does, once it is among them. */
  lemma {:induction false} PartsOnTable(
    t: Table, cfgs: seq<Config>, chain: string, useDBUpsert: bool, caches: seq<Cache>, parts: seq<seq<WritebackOp>>,
    i: nat, n: nat, limit: int)
    requires EmitsAll(cfgs, chain, useDBUpsert, caches, parts) && DistinctTables(cfgs) && i < |cfgs| && n <= |parts|
    ensures TableRun(t, Flatten(parts[..n]), cfgs[i].table) == if i < n then TableRun(t, parts[i], cfgs[i].table) else t
    ensures TransparentOnTable(t, Flatten(parts[..n]), limit, cfgs[i].table)
       <==> (i < n ==> TransparentOnTable(t, parts[i], limit, cfgs[i].table))
  {
    hide Emits, TransparentOnTable, Flatten, TableRun;
    var name := cfgs[i].table;
    if n == 0 {
      FlattenNothing<WritebackOp>();
      NothingOnTable(t, limit, name);
    } else {
      PartsOnTable(t, cfgs, chain, useDBUpsert, caches, parts, i, n - 1, limit);
      assert parts[..n] == parts[..n - 1] + [parts[n - 1]];
      FlattenSnoc(parts[..n - 1], parts[n - 1]);
      TableRunAppend(t, Flatten(parts[..n - 1]), parts[n - 1], name);
      if n - 1 != i {
        OthersOffTable(cfgs, chain, useDBUpsert, caches, parts, i, n - 1);
        OffTable(TableRun(t, Flatten(parts[..n - 1]), name), parts[n - 1], name);
        OffIsTransparent(TableRun(t, Flatten(parts[..n - 1]), name), parts[n - 1], limit, name);
      }
      TransparentAppend(t, Flatten(parts[..n - 1]), parts[n - 1], limit, name);
    }
  }

  lemma NothingOnTable(t: Table, limit: int, name: string)
    ensures TableRun(t, [], name) == t && TransparentOnTable(t, [], limit, name)
  {
  }

  lemma OffIsTransparent(t: Table, ops: seq<WritebackOp>, limit: int, name: string)
    requires forall op :: op in ops ==> !OnTable(op, name)
    ensures TransparentOnTable(t, ops, limit, name)
  {
  }

  lemma TransparentAppend(t: Table, a: seq<WritebackOp>, b: seq<WritebackOp>, limit: int, name: string)
    ensures TransparentOnTable(t, a + b, limit, name) <==>
              TransparentOnTable(t, a, limit, name) && TransparentOnTable(TableRun(t, a, name), b, limit, name)
  {
    hide Transparent, TableRun;
    forall i | 0 <= i < |a| ensures (a + b)[i] == a[i] && (a + b)[..i] == a[..i] {
    }
    forall i | 0 <= i < |b|
      ensures (a + b)[|a| + i] == b[i]
      ensures TableRun(t, (a + b)[..|a| + i], name) == TableRun(TableRun(t, a, name), b[..i], name)
    {
      assert (a + b)[..|a| + i] == a + b[..i];
      TableRunAppend(t, a, b[..i], name);
    }
    if TransparentOnTable(t, a, limit, name) && TransparentOnTable(TableRun(t, a, name), b, limit, name) {
      forall i | 0 <= i < |a + b| && OnTable((a + b)[i], name)
        ensures Transparent(TableRun(t, (a + b)[..i], name), (a + b)[i], limit)
      {
        if i >= |a| {
          assert (a + b)[|a| + (i - |a|)] == b[i - |a|];
        }
      }
    }
  }

  /**
    A batch executed chunk by chunk flushes each module's cache into that module's table, as long as none of the
    module's ops is cut between rows of one key; what the other modules' caches hold does not matter.
  */
  lemma BatchEffect(
    db: Tables, cfgs: seq<Config>, chain: string, useDBUpsert: bool, caches: seq<Cache>,
    parts: seq<seq<WritebackOp>>, i: nat)
    requires EmitsAll(cfgs, chain, useDBUpsert, caches, parts) && DistinctTables(cfgs) && i < |cfgs|
    requires Flushable(caches[i]) && Uncut(caches[i], parts[i], DB_PLACEHOLDER_LIMIT)
    requires Unobstructed(TableOf(db, cfgs[i].table), chain, useDBUpsert, caches[i])
    requires Fits(Flatten(parts))
    ensures TableOf(ExecuteOps(db, Pieces(Flatten(parts), DB_PLACEHOLDER_LIMIT)), cfgs[i].table)
         == FlushTable(TableOf(db, cfgs[i].table), chain, caches[i])
  {
    hide Emits, Unobstructed, FlushTable, Pieces, TableRun, TransparentOnTable, Split, Flatten, Uncut, Flushable;
    var t := TableOf(db, cfgs[i].table);
    OwnOpsOnTable(t, cfgs[i], chain, useDBUpsert, caches[i], parts[i], DB_PLACEHOLDER_LIMIT);
    PartsOnTable(t, cfgs, chain, useDBUpsert, caches, parts, i, |parts|, DB_PLACEHOLDER_LIMIT);
    assert parts[..|parts|] == parts;
    PiecesOnTable(t, Flatten(parts), DB_PLACEHOLDER_LIMIT, cfgs[i].table);
    TableOfRun(db, Pieces(Flatten(parts), DB_PLACEHOLDER_LIMIT), cfgs[i].table);
  }

  // ---------------------------------------------------------------- the effect of a run

  /** No row of the batch is too wide for the placeholder limit. */
  ghost predicate Fits(batch: seq<WritebackOp>) {
    forall op :: op in batch ==> Split(op, DB_PLACEHOLDER_LIMIT).Ok?
  }

  ghost predicate AllFit(batches: seq<seq<WritebackOp>>) {
    forall j :: 0 <= j < |batches| ==> Fits(batches[j])
  }

  /** The consumer: every batch in order, each op as the pieces of its split. */
  ghost function Consumed(db: Tables, batches: seq<seq<WritebackOp>>): Tables
    requires AllFit(batches)
    decreases |batches|
  {
    if batches == [] then db
    else
      ExecuteOps(Consumed(db, batches[..|batches| - 1]), Pieces(batches[|batches| - 1], DB_PLACEHOLDER_LIMIT))
  }

  /** A module's table after its caches are flushed in order. */
  ghost function FlushSeries(t: Table, chain: string, flushes: seq<seq<Cache>>, i: nat): Table
    requires forall j :: 0 <= j < |flushes| ==> i < |flushes[j]|
    decreases |flushes|
  {
    if flushes == [] then t
    else FlushTable(FlushSeries(t, chain, flushes[..|flushes| - 1], i), chain, flushes[|flushes| - 1][i])
  }

  /** Module i's caches at the flushes hold their rows under their own keys. */
  ghost predicate KeyedFlushes(flushes: seq<seq<Cache>>, i: nat) {
    forall j :: 0 <= j < |flushes| ==> i < |flushes[j]| && ValidCache(flushes[j][i])
  }

  /** At each flush module i is flushable, and none of its ops is cut between rows of one key. */
  ghost predicate UncutFlushes(flushes: seq<seq<Cache>>, parts: seq<seq<seq<WritebackOp>>>, i: nat) {
    && |parts| == |flushes|
    && forall j :: 0 <= j < |flushes| ==>
         && i < |flushes[j]| && i < |parts[j]| && Flushable(flushes[j][i])
         && Uncut(flushes[j][i], parts[j][i], DB_PLACEHOLDER_LIMIT)
  }

  lemma KeyedFlushesAreUncut(flushes: seq<seq<Cache>>, parts: seq<seq<seq<WritebackOp>>>, i: nat)
    requires KeyedFlushes(flushes, i) && |parts| == |flushes| && forall j :: 0 <= j < |parts| ==> i < |parts[j]|
    ensures UncutFlushes(flushes, parts, i)
  {
    hide ValidCache;
  }

  /**
    Consuming the batches of a live run in order, chunk by chunk, leaves a module's table as if its own caches had been
    flushed into it directly.
  */
  lemma {:induction false} ConsumedTables(
    db: Tables, cfgs: seq<Config>, chain: string,
    flushes: seq<seq<Cache>>, batches: seq<seq<WritebackOp>>, parts: seq<seq<seq<WritebackOp>>>, i: nat)
    requires Sent(cfgs, chain, true, flushes, batches, parts) && DistinctTables(cfgs) && i < |cfgs|
    requires AllFit(batches) && UncutFlushes(flushes, parts, i)
    ensures TableOf(Consumed(db, batches), cfgs[i].table) == FlushSeries(TableOf(db, cfgs[i].table), chain, flushes, i)
    decreases |batches|
  {
    hide Emits, FlushTable, Fits, Uncut, Flushable;
    if batches != [] {
      var n := |batches| - 1;
      ConsumedTables(db, cfgs, chain, flushes[..n], batches[..n], parts[..n], i);
      UpsertsUnobstructed(TableOf(Consumed(db, batches[..n]), cfgs[i].table), chain, flushes[n][i]);
      BatchEffect(Consumed(db, batches[..n]), cfgs, chain, true, flushes[n], parts[n], i);
    }
  }

  lemma UpsertsUnobstructed(t: Table, chain: string, c: Cache)
    ensures Unobstructed(t, chain, true, c)
  {
  }

  // ---------------------------------------------------------------- caches under their rows' own keys

  /** Every trace the module handles decodes, if at all, to a row that names its cache key; only token infos may not. */
  ghost predicate RowsKeyed(cfg: Config, mapped: set<string>, stream: seq<TraceOperation>) {
    forall i :: 0 <= i < |stream| && Handles(cfg, mapped, stream[i]) ==> NamesItsKey(cfg, stream[i])
  }

  lemma RowsKeyedFront(cfg: Config, mapped: set<string>, stream: seq<TraceOperation>)
    requires stream != [] && RowsKeyed(cfg, mapped, stream)
    ensures RowsKeyed(cfg, mapped, stream[..|stream| - 1])
    ensures Handles(cfg, mapped, stream[|stream| - 1]) ==> NamesItsKey(cfg, stream[|stream| - 1])
  {
  }

  lemma ReceivedStaysKeyed(cfg: Config, mapped: set<string>, c: Cache, data: TraceOperation)
    requires ValidCache(c) && (Handles(cfg, mapped, data) ==> NamesItsKey(cfg, data))
    ensures ValidCache(Received(cfg, mapped, c, data)) && ValidCache(Emptied(c))
  {
    ProcessedKeepsKeysIff(cfg, c, data);
  }

  /** A module whose rows name their cache keys flushes only such caches, whatever the other modules do. */
  lemma {:induction false} RunStaysKeyed(
    cfgs: seq<Config>, mapped: set<string>, s: Memory, stream: seq<TraceOperation>, i: nat)
    requires |cfgs| == |s.caches| && i < |cfgs| && RowsKeyed(cfgs[i], mapped, stream) && ValidCache(s.caches[i])
    ensures ValidCache(Steps(cfgs, mapped, s, stream).caches[i])
    ensures KeyedFlushes(Flushes(cfgs, mapped, s, stream), i)
    decreases |stream|
  {
    if stream != [] {
      hide ValidCache, RowsKeyed, NamesItsKey, Handles, Received, Emptied;
      var front, data := stream[..|stream| - 1], stream[|stream| - 1];
      RowsKeyedFront(cfgs[i], mapped, stream);
      RunStaysKeyed(cfgs, mapped, s, front, i);
      var before := Steps(cfgs, mapped, s, front);
      ReceivedStaysKeyed(cfgs[i], mapped, before.caches[i], data);
      ReceivedStaysKeyed(cfgs[i], mapped, Emptied(before.caches[i]), data);
    }
  }

  // ---------------------------------------------------------------- the last row per cache key

  /** The last row per cache key that a sequence of writes leaves in a module. */
  ghost function LastRows(cfg: Config, mapped: set<string>, stream: seq<TraceOperation>): RowCache
    decreases |stream|
  {
    if stream == [] then map[]
    else
      var before, last := LastRows(cfg, mapped, stream[..|stream| - 1]), stream[|stream| - 1];
      if WritesRow(cfg, mapped, last)
      then before[cfg.cacheKey(last) := cfg.unmarshal(last).value]
      else before
  }

  ghost predicate WritesRow(cfg: Config, mapped: set<string>, data: TraceOperation) {
    Handles(cfg, mapped, data) && cfg.unmarshal(data).Ok?
  }

  /** The last trace of the block to write its cache entry. */
  ghost predicate IsLast(cfg: Config, mapped: set<string>, block: seq<TraceOperation>, i: nat)
    requires i < |block|
  {
    && WritesRow(cfg, mapped, block[i])
    && forall j :: i < j < |block| && WritesRow(cfg, mapped, block[j]) ==>
         cfg.cacheKey(block[j]) != cfg.cacheKey(block[i])
  }

  lemma {:induction false} LastRowAt(cfg: Config, mapped: set<string>, block: seq<TraceOperation>, i: nat)
    requires i < |block| && IsLast(cfg, mapped, block, i)
    ensures var rows, c := LastRows(cfg, mapped, block), cfg.cacheKey(block[i]);
            c in rows && rows[c] == cfg.unmarshal(block[i]).value
    decreases |block|
  {
    if i < |block| - 1 {
      var front := block[..|block| - 1];
      assert forall j :: 0 <= j < |front| ==> front[j] == block[j];
      LastRowAt(cfg, mapped, front, i);
    }
  }

  lemma {:induction false} LastRowHasTrace(cfg: Config, mapped: set<string>, block: seq<TraceOperation>, c: CacheKey)
    returns (i: nat)
    requires c in LastRows(cfg, mapped, block)
    ensures i < |block| && IsLast(cfg, mapped, block, i) && cfg.cacheKey(block[i]) == c
    decreases |block|
  {
    var front, last := block[..|block| - 1], block[|block| - 1];
    if WritesRow(cfg, mapped, last) && cfg.cacheKey(last) == c {
      i := |block| - 1;
    } else {
      assert forall j :: 0 <= j < |front| ==> front[j] == block[j];
      i := LastRowHasTrace(cfg, mapped, front, c);
    }
  }
}
