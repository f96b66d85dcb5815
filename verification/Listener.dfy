/**
  The live listener as a whole (cmd/tracelistener/main.go): the processor's lifecycle over a stream of traces and the
  consumer loop over the batches it sends, in the order they were sent.
*/
module Listener {
  import opened Sql
  import opened Chunking
  import opened Writeback
  import opened Modules
  import opened Processing
  import opened Flushing
  import opened Refinement

  // ---------------------------------------------------------------- no statement is too wide

  /** One row alone fits a statement. */
  predicate Narrow(r: Row) {
    NumField(r) <= DB_PLACEHOLDER_LIMIT
  }

  ghost predicate NarrowRows(m: RowCache) {
    forall k :: k in m ==> Narrow(m[k])
  }

  ghost predicate NarrowCache(c: Cache) {
    match c
    case Writes(rows) => NarrowRows(rows)
    case Updates(inserts, deletes) => NarrowRows(inserts) && NarrowRows(deletes)
  }

  ghost predicate NarrowCaches(caches: seq<Cache>) {
    forall i :: 0 <= i < |caches| ==> NarrowCache(caches[i])
  }

  ghost predicate NarrowFlushes(flushes: seq<seq<Cache>>) {
    forall j :: 0 <= j < |flushes| ==> NarrowCaches(flushes[j])
  }

  ghost predicate NarrowTraces(cfgs: seq<Config>, stream: seq<TraceOperation>) {
    forall i, n :: 0 <= i < |cfgs| && 0 <= n < |stream| && cfgs[i].unmarshal(stream[n]).Ok? ==>
      Narrow(cfgs[i].unmarshal(stream[n]).value)
  }

  lemma NarrowReceived(cfg: Config, mapped: set<string>, c: Cache, data: TraceOperation)
    requires NarrowCache(c) && (cfg.unmarshal(data).Ok? ==> Narrow(cfg.unmarshal(data).value))
    ensures NarrowCache(Received(cfg, mapped, c, data)) && NarrowCache(Received(cfg, mapped, Emptied(c), data))
  {
  }

  lemma NarrowStep(cfgs: seq<Config>, mapped: set<string>, s: Memory, data: TraceOperation)
    requires |cfgs| == |s.caches| && NarrowCaches(s.caches)
    requires forall i :: 0 <= i < |cfgs| && cfgs[i].unmarshal(data).Ok? ==> Narrow(cfgs[i].unmarshal(data).value)
    ensures NarrowCaches(Step(cfgs, mapped, s, data).caches)
  {
    hide NarrowCache, Received, Emptied, Narrow;
    var s' := Step(cfgs, mapped, s, data);
    forall i | 0 <= i < |s'.caches| ensures NarrowCache(s'.caches[i]) {
      NarrowReceived(cfgs[i], mapped, s.caches[i], data);
    }
  }

  lemma {:induction false} NarrowRun(cfgs: seq<Config>, mapped: set<string>, s: Memory, stream: seq<TraceOperation>)
    requires |cfgs| == |s.caches| && NarrowCaches(s.caches) && NarrowTraces(cfgs, stream)
    ensures NarrowCaches(Steps(cfgs, mapped, s, stream).caches) && NarrowFlushes(Flushes(cfgs, mapped, s, stream))
    decreases |stream|
  {
    if stream != [] {
      hide NarrowCaches, Step, Narrow;
      var front, data := stream[..|stream| - 1], stream[|stream| - 1];
      assert forall n :: 0 <= n < |front| ==> front[n] == stream[n];
      NarrowRun(cfgs, mapped, s, front);
      NarrowStep(cfgs, mapped, Steps(cfgs, mapped, s, front), data);
    }
  }

  /** An op the consumer can execute: a completed statement whose rows each fit. */
  ghost predicate Executable(op: WritebackOp) {
    op.query.On? && (op.data != [] ==> DBSinglePlaceholderAmount(op) <= DB_PLACEHOLDER_LIMIT)
  }

  lemma NarrowOp(cfg: Config, chain: string, useDBUpsert: bool, c: Cache, ops: seq<WritebackOp>, n: nat)
    requires Emits(cfg, chain, useDBUpsert, c, ops) && NarrowCache(c) && n < |ops|
    ensures Executable(ops[n])
  {
    FlushContract(cfg, chain, useDBUpsert, c, ops, n);
    if ops[n].typ == WriteOp {
      NarrowData(ops[n].data, WriteRows(c), chain);
    } else {
      NarrowData(ops[n].data, DeleteRowsOf(c), chain);
    }
  }

  lemma NarrowData(data: seq<Row>, m: RowCache, chain: string)
    requires RowsOf(data, m, chain) && NarrowRows(m)
    ensures forall i :: 0 <= i < |data| ==> Narrow(data[i])
  {
    forall i | 0 <= i < |data| ensures Narrow(data[i]) {
      assert CarriesOne(data[i], m, chain);
    }
  }

  /** When single rows fit, the division by a zero chunk size never happens in a run. */
  lemma NarrowBatch(
    cfgs: seq<Config>, chain: string, useDBUpsert: bool, caches: seq<Cache>, parts: seq<seq<WritebackOp>>)
    requires EmitsAll(cfgs, chain, useDBUpsert, caches, parts) && NarrowCaches(caches)
    ensures forall op :: op in Flatten(parts) ==> Executable(op)
    ensures Fits(Flatten(parts))
  {
    hide Emits, NarrowCache;
    forall op | op in Flatten(parts) ensures Executable(op) && Split(op, DB_PLACEHOLDER_LIMIT).Ok? {
      var i, n := FlattenedMember(parts, op);
      NarrowOp(cfgs[i], chain, useDBUpsert, caches[i], parts[i], n);
      SplitPanicsIff(op, DB_PLACEHOLDER_LIMIT);
    }
  }

  // ---------------------------------------------------------------- the consumer and the listener

  /** The consumer loop over everything sent. */
  method ConsumeAll(db: Database, batches: seq<seq<WritebackOp>>)
    requires forall j, op :: 0 <= j < |batches| && op in batches[j] ==> Executable(op)
    requires AllFit(batches)
    modifies db
    ensures db.tables == Consumed(old(db.tables), batches)
  {
    hide Consumed, ExecuteOps, Pieces, Split;
    assert batches[..0] == [];
    NothingConsumed(db.tables);
    for i := 0 to |batches|
      invariant AllFit(batches[..i]) && db.tables == Consumed(old(db.tables), batches[..i])
    {
      assert forall op :: op in batches[i] ==> Executable(op);
      assert Fits(batches[i]);
      var remains := db.ConsumeBatch(batches[i]);
      ConsumedSnoc(old(db.tables), batches[..i], batches[i]);
      assert batches[..i + 1] == batches[..i] + [batches[i]];
    }
    assert batches[..|batches|] == batches;
  }

  lemma NothingConsumed(db: Tables)
    ensures AllFit([]) && Consumed(db, []) == db
  {
  }

  lemma ConsumedSnoc(db: Tables, batches: seq<seq<WritebackOp>>, last: seq<WritebackOp>)
    requires AllFit(batches) && Fits(last)
    ensures AllFit(batches + [last])
    ensures Consumed(db, batches + [last]) == ExecuteOps(Consumed(db, batches), Pieces(last, DB_PLACEHOLDER_LIMIT))
  {
    var all := batches + [last];
    assert all[..|all| - 1] == batches && all[|all| - 1] == last;
  }

  lemma SentIsExecutable(
    cfgs: seq<Config>, chain: string, flushes: seq<seq<Cache>>,
    batches: seq<seq<WritebackOp>>, parts: seq<seq<seq<WritebackOp>>>)
    requires Sent(cfgs, chain, true, flushes, batches, parts) && NarrowFlushes(flushes)
    ensures AllFit(batches)
    ensures forall j, op :: 0 <= j < |batches| && op in batches[j] ==> Executable(op)
  {
    hide NarrowCaches, Executable, Fits, EmitsAll;
    forall j | 0 <= j < |batches| ensures Fits(batches[j]) && forall op :: op in batches[j] ==> Executable(op) {
      NarrowBatch(cfgs, chain, true, flushes[j], parts[j]);
    }
  }

  /** No op on the table is cut between rows of one key. */
  ghost predicate AllWhole(table: string, batches: seq<seq<WritebackOp>>) {
    forall j, op :: 0 <= j < |batches| && op in batches[j] && op.query.On? && op.query.table == table ==>
      Whole(op, DB_PLACEHOLDER_LIMIT)
  }

  ghost predicate WriteOnlyFlushes(flushes: seq<seq<Cache>>, i: nat) {
    forall j :: 0 <= j < |flushes| ==> i < |flushes[j]| && flushes[j][i].Writes?
  }

  lemma {:induction false} RunStaysWriteOnly(
    cfgs: seq<Config>, mapped: set<string>, s: Memory, stream: seq<TraceOperation>, i: nat)
    requires |cfgs| == |s.caches| && i < |cfgs| && s.caches[i].Writes?
    ensures Steps(cfgs, mapped, s, stream).caches[i].Writes?
    ensures WriteOnlyFlushes(Flushes(cfgs, mapped, s, stream), i)
    decreases |stream|
  {
    if stream != [] {
      RunStaysWriteOnly(cfgs, mapped, s, stream[..|stream| - 1], i);
    }
  }

  lemma SentParts(
    cfgs: seq<Config>, chain: string, flushes: seq<seq<Cache>>,
    batches: seq<seq<WritebackOp>>, parts: seq<seq<seq<WritebackOp>>>)
    requires Sent(cfgs, chain, true, flushes, batches, parts)
    ensures |parts| == |flushes| && forall j :: 0 <= j < |parts| ==> |parts[j]| == |flushes[j]| == |cfgs|
  {
    hide Emits;
  }

  lemma WholeFlushesAreUncut(
    cfgs: seq<Config>, chain: string, flushes: seq<seq<Cache>>,
    batches: seq<seq<WritebackOp>>, parts: seq<seq<seq<WritebackOp>>>, i: nat)
    requires Sent(cfgs, chain, true, flushes, batches, parts) && i < |cfgs|
    requires WriteOnlyFlushes(flushes, i) && AllWhole(cfgs[i].table, batches)
    ensures UncutFlushes(flushes, parts, i)
  {
    hide Emits, Whole, Flatten;
    SentParts(cfgs, chain, flushes, batches, parts);
    forall j, op | 0 <= j < |parts| && op in parts[j][i] ensures Whole(op, DB_PLACEHOLDER_LIMIT) {
      var n :| 0 <= n < |parts[j][i]| && parts[j][i][n] == op;
      FlushContract(cfgs[i], chain, true, flushes[j][i], parts[j][i], n);
      PartOfBatch(parts[j], i, op);
    }
  }

  lemma ConfigAt(ms: seq<Module>, i: nat)
    requires i < |ms|
    ensures Configs(ms)[i] == ms[i].Cfg()
  {
  }

  /**
    Listens to a stream and consumes what is sent. Each module's cache ends as if the module had been followed on its
    own, and so does its table when its rows name their cache keys, or when it only writes and no op that repeats a
    key is cut into pieces, whatever the other modules' rows do; whether the table then agrees with the plain map of
    its traces is what the refinement lemmas decide.
  */
  method Listen(p: Processor, db: Database, stream: seq<TraceOperation>)
    requires p.Valid() && p.useDBUpsert && DistinctTables(Configs(p.moduleProcessors))
    requires NarrowCaches(p.Caches()) && NarrowTraces(Configs(p.moduleProcessors), stream)
    requires db as object != p && db !in p.objects
    modifies p, p.objects, db
    ensures p.Valid() && |old(p.writebackChan)| <= |p.writebackChan|
    ensures forall i :: 0 <= i < |p.moduleProcessors| ==>
              var cfg := p.moduleProcessors[i].Cfg();
              var u := Follow(
                         View(cfg, p.sdkModuleMapping.Keys, p.chainName),
                         Pipe(old(p.lastHeight), old(p.Caches())[i], TableOf(old(db.tables), cfg.table)), stream);
              && p.Caches()[i] == u.cache
              && (|| (RowsKeyed(cfg, p.sdkModuleMapping.Keys, stream) && ValidCache(old(p.Caches())[i]))
                  || (old(p.Caches())[i].Writes? && AllWhole(cfg.table, p.writebackChan[|old(p.writebackChan)|..]))
                  ==> TableOf(db.tables, cfg.table) == u.table)
  {
    hide *;
    ghost var cfgs, mapped, chain := Configs(p.moduleProcessors), p.sdkModuleMapping.Keys, p.chainName;
    ghost var start, before, n := Memory(p.lastHeight, p.Caches()), db.tables, |p.parts|;
    var sent := |p.writebackChan|;
    p.Apart();
    p.Lifecycle(stream);
    ghost var flushes := Flushes(cfgs, mapped, start, stream);
    NarrowRun(cfgs, mapped, start, stream);
    SentIsExecutable(cfgs, chain, flushes, p.writebackChan[sent..], p.parts[n..]);
    ConsumeAll(db, p.writebackChan[sent..]);
    forall i | 0 <= i < |p.moduleProcessors|
      ensures var cfg := p.moduleProcessors[i].Cfg();
              var u := Follow(
                         View(cfg, mapped, chain),
                         Pipe(start.lastHeight, start.caches[i], TableOf(before, cfg.table)), stream);
              && p.Caches()[i] == u.cache
              && (|| (RowsKeyed(cfg, mapped, stream) && ValidCache(start.caches[i]))
                  || (start.caches[i].Writes? && AllWhole(cfg.table, p.writebackChan[sent..]))
                  ==> TableOf(db.tables, cfg.table) == u.table)
    {
      ConfigAt(p.moduleProcessors, i);
      FollowIsProjection(cfgs, mapped, chain, start, TableOf(before, cfgs[i].table), stream, i);
      if RowsKeyed(cfgs[i], mapped, stream) && ValidCache(start.caches[i]) {
        RunStaysKeyed(cfgs, mapped, start, stream, i);
        SentParts(cfgs, chain, flushes, p.writebackChan[sent..], p.parts[n..]);
        KeyedFlushesAreUncut(flushes, p.parts[n..], i);
        ConsumedTables(before, cfgs, chain, flushes, p.writebackChan[sent..], p.parts[n..], i);
      } else if start.caches[i].Writes? && AllWhole(cfgs[i].table, p.writebackChan[sent..]) {
        RunStaysWriteOnly(cfgs, mapped, start, stream, i);
        WholeFlushesAreUncut(cfgs, chain, flushes, p.writebackChan[sent..], p.parts[n..], i);
        ConsumedTables(before, cfgs, chain, flushes, p.writebackChan[sent..], p.parts[n..], i);
      }
    }
  }
}
