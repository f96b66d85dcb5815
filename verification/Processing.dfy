/**
  The processor (tracelistener/processor/processor.go): routing of traces to modules, the epoch kept in
  lastHeight, and the flush that turns the caches into a batch of write-back ops.
*/
module Processing {
  import opened Wrappers
  import opened Sql
  import opened Chunking
  import opened Modules

  // ---------------------------------------------------------------- specification: routing and epochs

  /** The module is on the list for the trace: no suggestion, a suggestion nobody registered, or its own SDK name. */
  ghost predicate Routed(cfg: Config, mapped: set<string>, data: TraceOperation) {
    data.suggestedProcessor == "" || data.suggestedProcessor !in mapped || data.suggestedProcessor == cfg.sdkName
  }

  ghost predicate Handles(cfg: Config, mapped: set<string>, data: TraceOperation) {
    Routed(cfg, mapped, data) && cfg.owns(data.key)
  }

  ghost function Received(cfg: Config, mapped: set<string>, c: Cache, data: TraceOperation): Cache {
    if Handles(cfg, mapped, data) then Processed(cfg, c, data) else c
  }

  ghost function ReceivedAll(
    cfgs: seq<Config>, mapped: set<string>, caches: seq<Cache>, data: TraceOperation): (r: seq<Cache>)
    requires |cfgs| == |caches|
    ensures |r| == |caches|
  {
    seq(|caches|, i requires 0 <= i < |caches| => Received(cfgs[i], mapped, caches[i], data))
  }

  ghost function EmptiedAll(caches: seq<Cache>): (r: seq<Cache>)
    ensures |r| == |caches|
  {
    seq(|caches|, i requires 0 <= i < |caches| => Emptied(caches[i]))
  }

  /** A trace of another, non-zero height opens a new epoch. */
  predicate OpensEpoch(lastHeight: nat, data: TraceOperation) {
    data.blockHeight != lastHeight && data.blockHeight != 0
  }

  datatype Memory = Memory(lastHeight: nat, caches: seq<Cache>)

  /** One iteration of lifecycle. */
  ghost function Step(cfgs: seq<Config>, mapped: set<string>, s: Memory, data: TraceOperation): (r: Memory)
    requires |cfgs| == |s.caches|
    ensures |r.caches| == |s.caches|
  {
    var s' := if OpensEpoch(s.lastHeight, data) then Memory(data.blockHeight, EmptiedAll(s.caches)) else s;
    Memory(s'.lastHeight, ReceivedAll(cfgs, mapped, s'.caches, data))
  }

  ghost function Steps(cfgs: seq<Config>, mapped: set<string>, s: Memory, stream: seq<TraceOperation>): (r: Memory)
    requires |cfgs| == |s.caches|
    ensures |r.caches| == |s.caches|
    decreases |stream|
  {
    if stream == [] then s
    else Step(cfgs, mapped, Steps(cfgs, mapped, s, stream[..|stream| - 1]), stream[|stream| - 1])
  }

  /** The caches as they stood at each flush of the stream, in order. */
  ghost function Flushes(
    cfgs: seq<Config>, mapped: set<string>, s: Memory, stream: seq<TraceOperation>): (r: seq<seq<Cache>>)
    requires |cfgs| == |s.caches|
    ensures forall j :: 0 <= j < |r| ==> |r[j]| == |cfgs|
    decreases |stream|
  {
    if stream == [] then []
    else
      var before := Steps(cfgs, mapped, s, stream[..|stream| - 1]);
      var earlier := Flushes(cfgs, mapped, s, stream[..|stream| - 1]);
      if OpensEpoch(before.lastHeight, stream[|stream| - 1]) then earlier + [before.caches] else earlier
  }

  // ---------------------------------------------------------------- specification: what a flush emits

  function WriteKind(useDBUpsert: bool): StatementKind {
    if useDBUpsert then Upsert else Insert
  }

  /** The one write op for a non-empty cache: its rows once each, in any order, under the right statement. */
  ghost predicate EmitsWrite(cfg: Config, chain: string, useDBUpsert: bool, m: RowCache, op: WritebackOp) {
    && op.typ == WriteOp
    && op.query == On(cfg.table, WriteKind(useDBUpsert))
    && op.source == cfg.sdkName
    && op.data != []
    && Lists(op.data, StampRows(m, chain))
  }

  ghost predicate EmitsDeletes(cfg: Config, chain: string, m: RowCache, ops: seq<WritebackOp>) {
    && SingleDeletes(ops)
    && (forall i :: 0 <= i < |ops| ==> ops[i].query == On(cfg.table, Delete) && ops[i].source == cfg.sdkName)
    && Lists(Heads(ops), StampRows(m, chain))
  }

  /** The ops one module contributes to a batch: at most one write op, then its deletes. */
  ghost predicate Emits(cfg: Config, chain: string, useDBUpsert: bool, c: Cache, ops: seq<WritebackOp>) {
    match c
    case Writes(rows) =>
      if rows == map[] then ops == [] else |ops| == 1 && EmitsWrite(cfg, chain, useDBUpsert, rows, ops[0])
    case Updates(inserts, deletes) =>
      if inserts == map[] then EmitsDeletes(cfg, chain, deletes, ops)
      else
        && |ops| >= 1 && EmitsWrite(cfg, chain, useDBUpsert, inserts, ops[0])
        && EmitsDeletes(cfg, chain, deletes, ops[1..])
  }

  /** parts[i] is what module i contributes. */
  ghost predicate EmitsAll(
    cfgs: seq<Config>, chain: string, useDBUpsert: bool, caches: seq<Cache>, parts: seq<seq<WritebackOp>>)
  {
    && |parts| == |caches| == |cfgs|
    && forall i :: 0 <= i < |parts| ==> Emits(cfgs[i], chain, useDBUpsert, caches[i], parts[i])
  }

  // ---------------------------------------------------------------- the processor object

  datatype Module = Bank(bank: BankProcessor) | Delegations(delegations: DelegationsProcessor)
  {
    ghost function Obj(): object {
      match this
      case Bank(b) => b
      case Delegations(d) => d
    }

    function Cfg(): Config {
      match this
      case Bank(b) => b.config
      case Delegations(d) => d.config
    }

    ghost function CacheOf(): Cache
      reads Obj()
    {
      match this
      case Bank(b) => Writes(b.heightCache)
      case Delegations(d) => Updates(d.insertHeightCache, d.deleteHeightCache)
    }

    method FlushCache() returns (ops: seq<WritebackOp>)
      modifies Obj()
      ensures CacheOf() == Emptied(old(CacheOf()))
      ensures Bank? ==> forall op :: op in ops ==> op.typ == WriteOp
      ensures RawOps(old(CacheOf()), ops)
    {
      hide Lists;
      match this
      case Bank(b) => ops := b.FlushCache();
      case Delegations(d) => ops := d.FlushCache();
    }

    method Process(data: TraceOperation) returns (err: Option<string>)
      modifies Obj()
      ensures CacheOf() == Processed(Cfg(), old(CacheOf()), data)
      ensures err == ErrorOf(Cfg(), data)
    {
      match this
      case Bank(b) => err := b.Process(data);
      case Delegations(d) => err := d.Process(data);
    }

    /** bankProcessor.DeleteStatement panics, so only a set-update module may be asked for it. */
    function DeleteStatement(): Query
      requires Delegations?
    {
      On(Cfg().table, Delete)
    }
  }

  /** What FlushCache hands to the processor, before chain names and statements are filled in. */
  ghost predicate RawOps(c: Cache, ops: seq<WritebackOp>) {
    match c
    case Writes(rows) =>
      if rows == map[] then ops == [] else |ops| == 1 && ops[0].typ == WriteOp && Lists(ops[0].data, rows)
    case Updates(inserts, deletes) =>
      if inserts == map[] && deletes == map[] then ops == []
      else
        && |ops| >= 1 && ops[0].typ == WriteOp && Lists(ops[0].data, inserts)
        && SingleDeletes(ops[1..]) && Lists(Heads(ops[1..]), deletes)
  }

  /** An op as Flush completes it. */
  function Completed(m: Module, chain: string, useDBUpsert: bool, entry: WritebackOp): WritebackOp
    requires entry.typ == DeleteOp ==> m.Delegations?
  {
    WritebackOp(
      entry.typ, Stamped(entry.data, chain),
      if entry.typ == DeleteOp then m.DeleteStatement() else On(m.Cfg().table, WriteKind(useDBUpsert)),
      m.Cfg().sdkName)
  }

  /** Flush completes every op that has rows and drops the others. */
  ghost function CompletedAll(m: Module, chain: string, useDBUpsert: bool, ops: seq<WritebackOp>): seq<WritebackOp>
    requires forall i :: 0 <= i < |ops| && ops[i].typ == DeleteOp ==> m.Delegations?
  {
    if ops == [] then []
    else
      (if ops[0].data == [] then [] else [Completed(m, chain, useDBUpsert, ops[0])])
      + CompletedAll(m, chain, useDBUpsert, ops[1..])
  }

  lemma NothingToComplete(m: Module, chain: string, useDBUpsert: bool)
    ensures CompletedAll(m, chain, useDBUpsert, []) == []
  {
  }

  lemma {:induction false} CompletedSnoc(
    m: Module, chain: string, useDBUpsert: bool, ops: seq<WritebackOp>, last: WritebackOp)
    requires last.typ == DeleteOp ==> m.Delegations?
    requires forall i :: 0 <= i < |ops| && ops[i].typ == DeleteOp ==> m.Delegations?
    ensures var done := CompletedAll(m, chain, useDBUpsert, ops);
            CompletedAll(m, chain, useDBUpsert, ops + [last])
            == if last.data == [] then done else done + [Completed(m, chain, useDBUpsert, last)]
  {
    hide Completed;
    var all := ops + [last];
    if ops == [] {
      assert all[1..] == [];
    } else {
      assert all[0] == ops[0] && all[1..] == ops[1..] + [last];
      CompletedSnoc(m, chain, useDBUpsert, ops[1..], last);
    }
  }

  lemma {:induction false} CompletesEach(m: Module, chain: string, useDBUpsert: bool, ops: seq<WritebackOp>)
    requires m.Delegations? && SingleDeletes(ops)
    ensures var r := CompletedAll(m, chain, useDBUpsert, ops);
            |r| == |ops| && forall i :: 0 <= i < |ops| ==> r[i] == Completed(m, chain, useDBUpsert, ops[i])
  {
    if ops != [] {
      CompletesEach(m, chain, useDBUpsert, ops[1..]);
    }
  }

  lemma CompletedDeletesEmit(m: Module, chain: string, useDBUpsert: bool, deletes: RowCache, ops: seq<WritebackOp>)
    requires m.Delegations? && SingleDeletes(ops) && Lists(Heads(ops), deletes)
    ensures EmitsDeletes(m.Cfg(), chain, deletes, CompletedAll(m, chain, useDBUpsert, ops))
  {
    var r := CompletedAll(m, chain, useDBUpsert, ops);
    CompletesEach(m, chain, useDBUpsert, ops);
    assert Heads(r) == Stamped(Heads(ops), chain);
    ListsStamped(Heads(ops), deletes, chain);
  }

  lemma CompletedWriteEmits(m: Module, chain: string, useDBUpsert: bool, rows: RowCache, op: WritebackOp)
    requires op.typ == WriteOp && Lists(op.data, rows)
    ensures op.data == [] <==> rows == map[]
    ensures rows != map[] ==> EmitsWrite(m.Cfg(), chain, useDBUpsert, rows, Completed(m, chain, useDBUpsert, op))
  {
    hide Lists, StampRows;
    ListsNothing(op.data, rows);
    ListsStamped(op.data, rows, chain);
  }

  /** Completing what FlushCache returned gives exactly the ops promised for the cache. */
  lemma CompletedEmits(m: Module, chain: string, useDBUpsert: bool, c: Cache, ops: seq<WritebackOp>)
    requires m.Bank? <==> c.Writes?
    requires RawOps(c, ops)
    requires forall i :: 0 <= i < |ops| && ops[i].typ == DeleteOp ==> m.Delegations?
    ensures Emits(m.Cfg(), chain, useDBUpsert, c, CompletedAll(m, chain, useDBUpsert, ops))
  {
    if ops == [] {
      if c.Updates? {
        assert Heads([]) == [];
        assert StampRows(map[], chain) == map[];
        NothingListed();
      }
    } else {
      match c
      case Writes(rows) =>
        CompletedWriteEmits(m, chain, useDBUpsert, rows, ops[0]);
        assert ops[1..] == [];
      case Updates(inserts, deletes) =>
        CompletedWriteEmits(m, chain, useDBUpsert, inserts, ops[0]);
        CompletedDeletesEmit(m, chain, useDBUpsert, deletes, ops[1..]);
        var rest := CompletedAll(m, chain, useDBUpsert, ops[1..]);
        if inserts == map[] {
          assert CompletedAll(m, chain, useDBUpsert, ops) == rest;
        } else {
          assert CompletedAll(m, chain, useDBUpsert, ops)[1..] == rest;
        }
    }
  }

  // ---------------------------------------------------------------- a flush, field by field

  /**
    The op is the module's: its name, its table's statement, and all its cached writes or one of its cached deletes.
  */
  ghost predicate OpCarries(cfg: Config, chain: string, useDBUpsert: bool, c: Cache, op: WritebackOp) {
    && op.source == cfg.sdkName
    && match op.typ
       case WriteOp =>
         op.query == On(cfg.table, if useDBUpsert then Upsert else Insert) && Carries(op.data, WriteRows(c), chain)
       case DeleteOp =>
         op.query == On(cfg.table, Delete) && |op.data| == 1 && CarriesOne(op.data[0], DeleteRowsOf(c), chain)
  }

  /** The deletes of the ops are the cached ones. */
  ghost predicate DeletesAll(cfg: Config, chain: string, m: RowCache, ops: seq<WritebackOp>) {
    forall k :: k in m ==> DeletesOne(cfg, Row(chain, m[k].height, m[k].columns, m[k].values), ops)
  }

  ghost predicate DeletesOne(cfg: Config, r: Row, ops: seq<WritebackOp>) {
    exists op :: op in ops && op.typ == DeleteOp && op.query == On(cfg.table, Delete) && op.data == [r]
  }

  ghost predicate WritesAll(cfg: Config, chain: string, useDBUpsert: bool, c: Cache, ops: seq<WritebackOp>) {
    WriteRows(c) != map[] ==>
      exists op :: op in ops && op.typ == WriteOp && OpCarries(cfg, chain, useDBUpsert, c, op)
  }

  lemma DeletesCarried(cfg: Config, chain: string, useDBUpsert: bool, c: Cache, ops: seq<WritebackOp>)
    requires c.Updates? && EmitsDeletes(cfg, chain, c.deletes, ops)
    ensures |ops| == |c.deletes| && DeletesAll(cfg, chain, c.deletes, ops)
    ensures forall op :: op in ops ==> OpCarries(cfg, chain, useDBUpsert, c, op)
  {
    hide Lists, StampRows;
    var heads := Heads(ops);
    ListedRowsCarry(heads, c.deletes, chain);
    forall op | op in ops ensures OpCarries(cfg, chain, useDBUpsert, c, op) {
      var i :| 0 <= i < |ops| && ops[i] == op;
      assert heads[i] == op.data[0];
    }
    forall k | k in c.deletes
      ensures DeletesOne(cfg, Row(chain, c.deletes[k].height, c.deletes[k].columns, c.deletes[k].values), ops)
    {
      var r := Row(chain, c.deletes[k].height, c.deletes[k].columns, c.deletes[k].values);
      var i :| 0 <= i < |heads| && heads[i] == r;
      assert ops[i] in ops && ops[i].data == [r];
    }
  }

  lemma WriteCarried(cfg: Config, chain: string, useDBUpsert: bool, c: Cache, op: WritebackOp)
    requires EmitsWrite(cfg, chain, useDBUpsert, WriteRows(c), op)
    ensures op.typ == WriteOp && OpCarries(cfg, chain, useDBUpsert, c, op)
  {
    ListedRowsCarry(op.data, WriteRows(c), chain);
  }

  /**
    A module's ops carry its cache: every cached write in the one write op, every cached delete in an op of its own,
    each with the chain's name and otherwise as it was cached, and nothing else.
  */
  lemma FlushKeepsRows(cfg: Config, chain: string, useDBUpsert: bool, c: Cache, ops: seq<WritebackOp>)
    requires Emits(cfg, chain, useDBUpsert, c, ops)
    ensures |ops| == (if WriteRows(c) == map[] then 0 else 1) + |DeleteRowsOf(c)|
    ensures forall op :: op in ops ==> OpCarries(cfg, chain, useDBUpsert, c, op)
    ensures WritesAll(cfg, chain, useDBUpsert, c, ops) && DeletesAll(cfg, chain, DeleteRowsOf(c), ops)
  {
    hide EmitsWrite, EmitsDeletes, OpCarries, DeletesAll;
    match c
    case Writes(rows) =>
      NoDeletes(cfg, chain, ops);
      if rows != map[] {
        WriteCarried(cfg, chain, useDBUpsert, c, ops[0]);
        assert ops[0] in ops;
      }
    case Updates(inserts, deletes) =>
      if inserts == map[] {
        DeletesCarried(cfg, chain, useDBUpsert, c, ops);
      } else {
        WriteCarried(cfg, chain, useDBUpsert, c, ops[0]);
        DeletesCarried(cfg, chain, useDBUpsert, c, ops[1..]);
        assert ops == [ops[0]] + ops[1..];
        MoreOps(cfg, chain, deletes, ops[1..], ops);
      }
  }

  lemma NoDeletes(cfg: Config, chain: string, ops: seq<WritebackOp>)
    ensures DeletesAll(cfg, chain, map[], ops)
  {
  }

  lemma MoreOps(cfg: Config, chain: string, m: RowCache, some: seq<WritebackOp>, ops: seq<WritebackOp>)
    requires DeletesAll(cfg, chain, m, some) && forall op :: op in some ==> op in ops
    ensures DeletesAll(cfg, chain, m, ops)
  {
    forall k | k in m ensures DeletesOne(cfg, Row(chain, m[k].height, m[k].columns, m[k].values), ops) {
      assert DeletesOne(cfg, Row(chain, m[k].height, m[k].columns, m[k].values), some);
    }
  }

  /** The batch carries every module's cache, and nothing else. */
  ghost predicate BatchCarries(
    cfgs: seq<Config>, chain: string, useDBUpsert: bool, caches: seq<Cache>, batch: seq<WritebackOp>)
    requires |cfgs| == |caches|
  {
    && (forall op :: op in batch ==> OpOfSome(cfgs, chain, useDBUpsert, caches, op))
    && (forall i :: 0 <= i < |cfgs| ==>
          && WritesAll(cfgs[i], chain, useDBUpsert, caches[i], batch)
          && DeletesAll(cfgs[i], chain, DeleteRowsOf(caches[i]), batch))
  }

  ghost predicate OpOfSome(
    cfgs: seq<Config>, chain: string, useDBUpsert: bool, caches: seq<Cache>, op: WritebackOp)
    requires |cfgs| == |caches|
  {
    exists i :: 0 <= i < |cfgs| && OpCarries(cfgs[i], chain, useDBUpsert, caches[i], op)
  }

  lemma BatchKeepsRows(
    cfgs: seq<Config>, chain: string, useDBUpsert: bool, caches: seq<Cache>, parts: seq<seq<WritebackOp>>)
    requires EmitsAll(cfgs, chain, useDBUpsert, caches, parts)
    ensures BatchCarries(cfgs, chain, useDBUpsert, caches, Flatten(parts))
  {
    hide Emits, OpCarries, DeletesAll, WritesAll;
    var batch := Flatten(parts);
    forall op | op in batch ensures OpOfSome(cfgs, chain, useDBUpsert, caches, op) {
      var i, n := FlattenedMember(parts, op);
      FlushKeepsRows(cfgs[i], chain, useDBUpsert, caches[i], parts[i]);
      assert OpCarries(cfgs[i], chain, useDBUpsert, caches[i], op);
    }
    forall i | 0 <= i < |cfgs|
      ensures WritesAll(cfgs[i], chain, useDBUpsert, caches[i], batch)
      ensures DeletesAll(cfgs[i], chain, DeleteRowsOf(caches[i]), batch)
    {
      FlushKeepsRows(cfgs[i], chain, useDBUpsert, caches[i], parts[i]);
      forall op | op in parts[i] ensures op in batch { PartOfBatch(parts, i, op); }
      MoreOps(cfgs[i], chain, DeleteRowsOf(caches[i]), parts[i], batch);
      MoreWrites(cfgs[i], chain, useDBUpsert, caches[i], parts[i], batch);
    }
  }

  lemma MoreWrites(
    cfg: Config, chain: string, useDBUpsert: bool, c: Cache, some: seq<WritebackOp>, ops: seq<WritebackOp>)
    requires WritesAll(cfg, chain, useDBUpsert, c, some) && forall op :: op in some ==> op in ops
    ensures WritesAll(cfg, chain, useDBUpsert, c, ops)
  {
    hide OpCarries;
  }

  datatype TracingError = TracingError(message: string, moduleName: string, data: TraceOperation)

  /** The modules with the given SDK name, in order. */
  function BySdkName(ms: seq<Module>, sdkName: string): seq<Module>
    decreases |ms|
  {
    if ms == [] then []
    else
      BySdkName(ms[..|ms| - 1], sdkName) + (if ms[|ms| - 1].Cfg().sdkName == sdkName then [ms[|ms| - 1]] else [])
  }

  ghost predicate Mapping(ms: seq<Module>, mapping: map<string, seq<Module>>) {
    && (forall name :: name in mapping <==> exists i :: 0 <= i < |ms| && ms[i].Cfg().sdkName == name)
    && (forall name :: name in mapping ==> mapping[name] == BySdkName(ms, name))
  }

  /** The list holds the modules with the name, and those in the order of all modules. */
  ghost predicate InOrder(list: seq<Module>, ms: seq<Module>, name: string) {
    && (forall m :: m in list ==> m in ms && m.Cfg().sdkName == name)
    && (forall m :: m in ms && m.Cfg().sdkName == name ==> m in list)
    && exists at: seq<nat> :: Places(list, ms, at)
  }

  ghost predicate Places(list: seq<Module>, ms: seq<Module>, at: seq<nat>) {
    && |at| == |list|
    && (forall i :: 0 <= i < |at| ==> at[i] < |ms| && ms[at[i]] == list[i])
    && forall i, j :: 0 <= i < j < |at| ==> at[i] < at[j]
  }

  lemma {:induction false} BySdkNamePlaces(ms: seq<Module>, name: string) returns (at: seq<nat>)
    ensures Places(BySdkName(ms, name), ms, at)
    decreases |ms|
  {
    at := [];
    if ms != [] {
      at := BySdkNamePlaces(ms[..|ms| - 1], name);
      if ms[|ms| - 1].Cfg().sdkName == name { at := at + [|ms| - 1]; }
    }
  }

  lemma MappingKeepsOrder(ms: seq<Module>, mapping: map<string, seq<Module>>, name: string)
    requires DistinctObjects(ms) && Mapping(ms, mapping) && name in mapping
    ensures InOrder(mapping[name], ms, name)
  {
    BySdkNameSelects(ms, name);
    var at := BySdkNamePlaces(ms, name);
  }

  ghost predicate DistinctObjects(ms: seq<Module>) {
    forall i, j :: 0 <= i < j < |ms| ==> ms[i].Obj() != ms[j].Obj()
  }

  ghost function Configs(ms: seq<Module>): (r: seq<Config>)
    ensures |r| == |ms|
  {
    seq(|ms|, i requires 0 <= i < |ms| => ms[i].Cfg())
  }

  /** What the source's switch over module names builds: the module's configuration and the shape of its caches. */
  datatype Entry = Entry(config: Config, setUpdate: bool)

  const DEFAULT_PROCESSORS := [
    "auth", "bank", "delegations", "unbonding_delegations", "ibc_clients", "ibc_channels", "ibc_connections",
    "ibc_denom_traces", "validators", "cw20_balances", "cw20_token_infos"]

  function EnabledNames(enabled: Option<seq<string>>): seq<string> {
    if enabled.None? then DEFAULT_PROCESSORS else enabled.value
  }

  ghost predicate FirstUnknown(names: seq<string>, catalogue: map<string, Entry>, name: string) {
    exists i :: 0 <= i < |names| && names[i] == name && name !in catalogue
      && forall j :: 0 <= j < i ==> names[j] in catalogue
  }

  ghost predicate IsNamed(m: Module, e: Entry) {
    m.Cfg() == e.config && (m.Delegations? <==> e.setUpdate)
  }

  ghost predicate AsNamed(ms: seq<Module>, names: seq<string>, catalogue: map<string, Entry>) {
    && |ms| == |names|
    && forall i :: 0 <= i < |ms| ==> names[i] in catalogue && IsNamed(ms[i], catalogue[names[i]])
  }

  /** Each name's own kind of module, over its own configuration. */
  ghost predicate BuiltFor(ms: seq<Module>, names: seq<string>, catalogue: map<string, Entry>) {
    && |ms| == |names|
    && forall i :: 0 <= i < |ms| ==>
         && names[i] in catalogue && ms[i].Cfg() == catalogue[names[i]].config
         && (if catalogue[names[i]].setUpdate then ms[i].Delegations? else ms[i].Bank?)
  }

  lemma NamedIsBuilt(ms: seq<Module>, enabled: Option<seq<string>>, catalogue: map<string, Entry>)
    requires AsNamed(ms, EnabledNames(enabled), catalogue)
    ensures enabled.Some? ==> BuiltFor(ms, enabled.value, catalogue)
    ensures enabled.None? ==>
              BuiltFor(
                ms,
                [ "auth", "bank", "delegations", "unbonding_delegations", "ibc_clients", "ibc_channels",
                  "ibc_connections", "ibc_denom_traces", "validators", "cw20_balances", "cw20_token_infos"],
                catalogue)
  {
  }

  class Processor {
    const chainName: string
    const moduleProcessors: seq<Module>
    const sdkModuleMapping: map<string, seq<Module>>
    var useDBUpsert: bool
    var lastHeight: nat
    var writebackChan: seq<seq<WritebackOp>>
    var errorsChan: seq<TracingError>
    /** For each batch sent, the ops of each module in it. */
    ghost var parts: seq<seq<seq<WritebackOp>>>
    /** The module objects, which the processor alone updates. */
    ghost const objects: set<object>

    ghost predicate Valid()
      reads objects
    {
      && DistinctObjects(moduleProcessors)
      && this !in objects
      && (forall m :: m in moduleProcessors ==> m.Obj() in objects)
      && Mapping(moduleProcessors, sdkModuleMapping)
    }

    ghost function Caches(): (r: seq<Cache>)
      requires Valid()
      reads objects
      ensures |r| == |moduleProcessors|
    {
      CachesOf(moduleProcessors)
    }

    lemma Apart()
      requires Valid()
      ensures this !in objects
    {
    }

    constructor (chainName: string, modules: seq<Module>)
      requires DistinctObjects(modules)
      requires forall i :: 0 <= i < |modules| ==> modules[i].CacheOf() == Emptied(modules[i].CacheOf())
      ensures Valid() && this.chainName == chainName && moduleProcessors == modules
      ensures objects == set m | m in modules :: m.Obj()
      ensures forall name :: name in sdkModuleMapping ==> InOrder(sdkModuleMapping[name], modules, name)
      ensures lastHeight == 0 && !useDBUpsert && writebackChan == [] && errorsChan == [] && parts == []
    {
      hide Mapping, BySdkName, InOrder;
      this.chainName := chainName;
      this.moduleProcessors := modules;
      this.objects := set m | m in modules :: m.Obj();
      var mapping: map<string, seq<Module>> := map[];
      NothingMapped();
      assert modules[..0] == [];
      for i := 0 to |modules|
        invariant Mapping(modules[..i], mapping)
      {
        var name := modules[i].Cfg().sdkName;
        assert modules[..i + 1] == modules[..i] + [modules[i]];
        ghost var before := mapping;
        mapping := mapping[name := (if name in mapping then mapping[name] else []) + [modules[i]]];
        MappingSnoc(modules[..i], modules[i], before);
      }
      assert modules[..|modules|] == modules;
      forall name | name in mapping ensures InOrder(mapping[name], modules, name) {
        MappingKeepsOrder(modules, mapping, name);
      }
      this.sdkModuleMapping := mapping;
      useDBUpsert := false;
      lastHeight := 0;
      writebackChan := [];
      errorsChan := [];
      parts := [];
    }

    /**
      New: the enabled modules by name, or the default ones. An unknown name fails the whole construction and is
      reported; otherwise each name, in order, has its own module object with empty caches.
    */
    static method New(chainName: string, enabled: Option<seq<string>>, catalogue: map<string, Entry>)
      returns (r: Result<Processor, string>)
      ensures r.Err? ==> FirstUnknown(EnabledNames(enabled), catalogue, r.error)
      ensures r.Ok? ==>
                && fresh(r.value) && r.value.Valid() && r.value.chainName == chainName
                && fresh(r.value.objects)
                && AsNamed(r.value.moduleProcessors, EnabledNames(enabled), catalogue)
                && r.value.Caches() == EmptiedAll(r.value.Caches()) && r.value.lastHeight == 0
                && !r.value.useDBUpsert && r.value.writebackChan == [] && r.value.errorsChan == []
      ensures r.Ok? && enabled.Some? ==> BuiltFor(r.value.moduleProcessors, enabled.value, catalogue)
      ensures r.Ok? && enabled.None? ==>
                BuiltFor(
                  r.value.moduleProcessors,
                  [ "auth", "bank", "delegations", "unbonding_delegations", "ibc_clients", "ibc_channels",
                    "ibc_connections", "ibc_denom_traces", "validators", "cw20_balances", "cw20_token_infos"],
                  catalogue)
    {
      hide EnabledNames, Mapping, BySdkName, BuiltFor;
      var names := EnabledNames(enabled);
      var mp: seq<Module> := [];
      for i := 0 to |names|
        invariant |mp| == i && DistinctObjects(mp)
        invariant forall j :: 0 <= j < i ==>
                  names[j] in catalogue && IsNamed(mp[j], catalogue[names[j]]) && fresh(mp[j].Obj())
        invariant forall j :: 0 <= j < i ==> mp[j].CacheOf() == Emptied(mp[j].CacheOf())
      {
        if names[i] !in catalogue {
          return Err(names[i]);
        }
        var p := ProcessorByName(catalogue[names[i]]);
        mp := mp + [p];
      }
      NamedIsBuilt(mp, enabled, catalogue);
      var p := new Processor(chainName, mp);
      return Ok(p);
    }

    static method ProcessorByName(e: Entry) returns (m: Module)
      ensures IsNamed(m, e) && fresh(m.Obj()) && m.CacheOf() == Emptied(m.CacheOf())
    {
      if e.setUpdate {
        var d := new DelegationsProcessor(e.config);
        m := Delegations(d);
      } else {
        var b := new BankProcessor(e.config);
        m := Bank(b);
      }
    }

    method SetDBUpsertEnabled(enabled: bool)
      modifies this`useDBUpsert
      ensures useDBUpsert == enabled
    {
      useDBUpsert := enabled;
    }

    method CompleteEntries(mp: Module, cd: seq<WritebackOp>) returns (wb: seq<WritebackOp>)
      requires forall i :: 0 <= i < |cd| && cd[i].typ == DeleteOp ==> mp.Delegations?
      ensures wb == CompletedAll(mp, chainName, useDBUpsert, cd)
    {
      hide CompletedAll, Completed;
      wb := [];
      NothingToComplete(mp, chainName, useDBUpsert);
      assert cd[..0] == [];
      for i := 0 to |cd|
        invariant wb == CompletedAll(mp, chainName, useDBUpsert, cd[..i])
      {
        var entry := cd[i];
        assert cd[..i + 1] == cd[..i] + [entry];
        CompletedSnoc(mp, chainName, useDBUpsert, cd[..i], entry);
        if entry.data == [] {
          continue;
        }
        wb := wb + [Completed(mp, chainName, useDBUpsert, entry)];
      }
      assert cd[..|cd|] == cd;
    }

    method FlushModule(mp: Module) returns (done: seq<WritebackOp>)
      modifies mp.Obj()
      ensures mp.CacheOf() == Emptied(old(mp.CacheOf()))
      ensures Emits(mp.Cfg(), chainName, old(useDBUpsert), old(mp.CacheOf()), done)
    {
      ghost var c := mp.CacheOf();
      ghost var upsert := useDBUpsert;
      var cd := mp.FlushCache();
      done := CompleteEntries(mp, cd);
      CompletedEmits(mp, chainName, useDBUpsert, c, cd);
    }

    method FlushModules() returns (wb: seq<WritebackOp>, ghost ps: seq<seq<WritebackOp>>)
      requires Valid()
      modifies objects
      ensures forall j :: 0 <= j < |moduleProcessors| ==>
                moduleProcessors[j].CacheOf() == Emptied(old(moduleProcessors[j].CacheOf()))
      ensures |ps| == |moduleProcessors|
      ensures forall j :: 0 <= j < |ps| ==>
                Emits(moduleProcessors[j].Cfg(), chainName, useDBUpsert, old(moduleProcessors[j].CacheOf()), ps[j])
      ensures wb == Flatten(ps)
    {
      hide Emits, Emptied, Mapping, Flatten;
      wb, ps := [], [];
      FlattenNothing<WritebackOp>();
      for i := 0 to |moduleProcessors|
        invariant |ps| == i && wb == Flatten(ps)
        invariant forall j :: 0 <= j < i ==>
                    Emits(moduleProcessors[j].Cfg(), chainName, useDBUpsert, old(moduleProcessors[j].CacheOf()), ps[j])
        invariant forall j :: 0 <= j < i ==>
                  moduleProcessors[j].CacheOf() == Emptied(old(moduleProcessors[j].CacheOf()))
        invariant forall j :: i <= j < |moduleProcessors| ==>
                  moduleProcessors[j].CacheOf() == old(moduleProcessors[j].CacheOf())
      {
        var done := FlushModule(moduleProcessors[i]);
        FlattenSnoc(ps, done);
        wb, ps := wb + done, ps + [done];
      }
    }

    /** Empties every cache and sends one batch with what each module had cached. */
    method Flush()
      requires Valid()
      modifies this`writebackChan, this`parts, objects
      ensures Valid()
      ensures Caches() == EmptiedAll(old(Caches()))
      ensures SendsOne(
                Configs(moduleProcessors), chainName, useDBUpsert, old(Caches()),
                old(writebackChan), writebackChan, old(parts), parts)
      ensures writebackChan != [] && writebackChan[..|writebackChan| - 1] == old(writebackChan)
      ensures BatchCarries(
                Configs(moduleProcessors), chainName, useDBUpsert, old(Caches()), writebackChan[|writebackChan| - 1])
    {
      hide Emits, Emptied, Mapping, Flatten, BatchCarries;
      var wb, ps := FlushModules();
      writebackChan := writebackChan + [wb];
      parts := parts + [ps];
      BatchKeepsRows(Configs(moduleProcessors), chainName, useDBUpsert, old(Caches()), ps);
    }

    method ProcessModule(mp: Module, data: TraceOperation)
      modifies this`errorsChan, mp.Obj()
      ensures mp.CacheOf() == Offered(mp.Cfg(), old(mp.CacheOf()), data)
      ensures errorsChan == old(errorsChan) + ErrorsFrom(mp, data)
    {
      if !mp.Cfg().owns(data.key) {
        return;
      }
      var err := mp.Process(data);
      if err.Some? {
        errorsChan := errorsChan + [TracingError(err.value, mp.Cfg().name, data)];
      }
    }

    /** processData: every module on the list that owns the key processes the trace; failures are reported. */
    method ProcessList(processorList: seq<Module>, data: TraceOperation)
      requires Valid()
      requires DistinctObjects(processorList)
      requires forall m :: m in processorList ==> m in moduleProcessors
      modifies this`errorsChan, objects
      ensures forall m :: m in moduleProcessors && m in processorList ==>
                m.CacheOf() == Offered(m.Cfg(), old(m.CacheOf()), data)
      ensures forall m :: m in moduleProcessors && m !in processorList ==> m.CacheOf() == old(m.CacheOf())
      ensures errorsChan == old(errorsChan) + ErrorsOf(processorList, data)
      ensures forall e :: e in ErrorsOf(processorList, data) <==> SomeFails(processorList, data, e)
    {
      ErrorsAreFailures(processorList, data);
      hide Offered, ErrorsOf, ErrorsFrom, Mapping;
      ObjectsIdentify(moduleProcessors);
      NoErrors(data);
      assert processorList[..0] == [];
      for i := 0 to |processorList|
        invariant forall m :: m in moduleProcessors && m in processorList[..i] ==>
                  m.CacheOf() == Offered(m.Cfg(), old(m.CacheOf()), data)
        invariant forall m :: m in moduleProcessors && m !in processorList[..i] ==> m.CacheOf() == old(m.CacheOf())
        invariant errorsChan == old(errorsChan) + ErrorsOf(processorList[..i], data)
      {
        var mp := processorList[i];
        assert processorList[..i + 1] == processorList[..i] + [mp];
        assert mp !in processorList[..i];
        ErrorsSnoc(processorList[..i], mp, data);
        ProcessModule(mp, data);
      }
      assert processorList[..|processorList|] == processorList;
    }

    /** The modules a trace is offered to. */
    function ProcessorList(data: TraceOperation): seq<Module> {
      ListFor(moduleProcessors, sdkModuleMapping, data)
    }

    method ProcessData(data: TraceOperation)
      requires Valid()
      modifies this`errorsChan, objects
      ensures Valid()
      ensures Caches() == ReceivedAll(Configs(moduleProcessors), sdkModuleMapping.Keys, old(Caches()), data)
      ensures data.suggestedProcessor == "" || NobodysName(moduleProcessors, data.suggestedProcessor) ==>
                forall m :: m in moduleProcessors ==>
                  if m.Cfg().owns(data.key) then m.CacheOf() == Processed(m.Cfg(), old(m.CacheOf()), data)
                  else m.CacheOf() == old(m.CacheOf())
      ensures data.suggestedProcessor != "" && !NobodysName(moduleProcessors, data.suggestedProcessor) ==>
                forall m :: m in moduleProcessors ==>
                  if m.Cfg().owns(data.key) && m.Cfg().sdkName == data.suggestedProcessor
                  then m.CacheOf() == Processed(m.Cfg(), old(m.CacheOf()), data)
                  else m.CacheOf() == old(m.CacheOf())
      ensures errorsChan == old(errorsChan) + ErrorsOf(ProcessorList(data), data)
    {
      hide Mapping, Received, Offered;
      ListIsRouting(moduleProcessors, sdkModuleMapping, data);
      ListReaches(moduleProcessors, sdkModuleMapping, data);
      forall m: Module { OfferedToOwner(m.Cfg(), m.CacheOf(), data); }
      ProcessList(ProcessorList(data), data);
      forall i | 0 <= i < |moduleProcessors|
        ensures moduleProcessors[i].CacheOf()
             == Received(moduleProcessors[i].Cfg(), sdkModuleMapping.Keys, old(moduleProcessors[i].CacheOf()), data)
      {
        var m := moduleProcessors[i];
        assert m in moduleProcessors;
        ReceivedWhenListed(m, sdkModuleMapping.Keys, old(m.CacheOf()), data);
      }
    }

    /** A trace of a new block flushes what the block before left in the caches. */
    method BeginBlock(data: TraceOperation)
      requires Valid()
      modifies this`lastHeight, this`writebackChan, this`parts, objects
      ensures Valid()
      ensures !OpensEpoch(old(lastHeight), data) ==> lastHeight == old(lastHeight) && Caches() == old(Caches())
      ensures !OpensEpoch(old(lastHeight), data) ==> writebackChan == old(writebackChan) && parts == old(parts)
      ensures OpensEpoch(old(lastHeight), data) ==>
                lastHeight == data.blockHeight && Caches() == EmptiedAll(old(Caches()))
      ensures OpensEpoch(old(lastHeight), data) ==>
                SendsOne(
                  Configs(moduleProcessors), chainName, useDBUpsert, old(Caches()),
                  old(writebackChan), writebackChan, old(parts), parts)
    {
      hide EmptiedAll, SendsOne, Valid, Caches;
      Apart();
      if data.blockHeight != lastHeight && data.blockHeight != 0 {
        Flush();
        lastHeight := data.blockHeight;
      }
    }

    /** One trace taken from the write channel. */
    method Receive(data: TraceOperation)
      requires Valid()
      modifies this`lastHeight, this`errorsChan, this`writebackChan, this`parts, objects
      ensures Valid()
      ensures Memory(lastHeight, Caches())
           == Step(Configs(moduleProcessors), sdkModuleMapping.Keys, Memory(old(lastHeight), old(Caches())), data)
      ensures !OpensEpoch(old(lastHeight), data) ==> writebackChan == old(writebackChan) && parts == old(parts)
      ensures OpensEpoch(old(lastHeight), data) ==>
                SendsOne(
                  Configs(moduleProcessors), chainName, useDBUpsert, old(Caches()),
                  old(writebackChan), writebackChan, old(parts), parts)
    {
      hide *;
      Apart();
      StepByCases(Configs(moduleProcessors), sdkModuleMapping.Keys, Memory(lastHeight, Caches()), data);
      BeginBlock(data);
      ProcessData(data);
    }

    /** The lifecycle loop over the traces it receives. */
    method Lifecycle(stream: seq<TraceOperation>)
      requires Valid()
      modifies this`lastHeight, this`errorsChan, this`writebackChan, this`parts, objects
      ensures Valid()
      ensures Memory(lastHeight, Caches())
           == Steps(Configs(moduleProcessors), sdkModuleMapping.Keys, Memory(old(lastHeight), old(Caches())), stream)
      ensures |writebackChan| >= |old(writebackChan)| && writebackChan[..|old(writebackChan)|] == old(writebackChan)
      ensures |parts| >= |old(parts)| && parts[..|old(parts)|] == old(parts)
      ensures Sent(
                Configs(moduleProcessors), chainName, useDBUpsert,
                Flushes(
                  Configs(moduleProcessors), sdkModuleMapping.Keys, Memory(old(lastHeight), old(Caches())), stream),
                writebackChan[|old(writebackChan)|..], parts[|old(parts)|..])
    {
      hide *;
      Apart();
      ghost var cfgs, mapped, start := Configs(moduleProcessors), sdkModuleMapping.Keys, Memory(lastHeight, Caches());
      ghost var batches: seq<seq<WritebackOp>>, ps: seq<seq<seq<WritebackOp>>> := [], [];
      NothingYet(cfgs, mapped, start, chainName, useDBUpsert);
      assert stream[..0] == [];
      for i := 0 to |stream|
        invariant Valid()
        invariant Memory(lastHeight, Caches()) == Steps(cfgs, mapped, start, stream[..i])
        invariant writebackChan == old(writebackChan) + batches && parts == old(parts) + ps
        invariant Sent(cfgs, chainName, useDBUpsert, Flushes(cfgs, mapped, start, stream[..i]), batches, ps)
      {
        StepsSnoc(cfgs, mapped, start, stream[..i], stream[i]);
        assert stream[..i + 1] == stream[..i] + [stream[i]];
        ghost var opens, caches, chan, before := OpensEpoch(lastHeight, stream[i]), Caches(), writebackChan, parts;
        Receive(stream[i]);
        if opens {
          var part := OnePart(cfgs, chainName, useDBUpsert, caches, chan, writebackChan, before, parts);
          SentSnoc(cfgs, chainName, useDBUpsert, Flushes(cfgs, mapped, start, stream[..i]), batches, ps, caches, part);
          batches, ps := batches + [Flatten(part)], ps + [part];
        }
      }
      assert stream[..|stream|] == stream;
      assert writebackChan[|old(writebackChan)|..] == batches && parts[|old(parts)|..] == ps;
    }
  }

  lemma StepByCases(cfgs: seq<Config>, mapped: set<string>, s: Memory, data: TraceOperation)
    requires |cfgs| == |s.caches|
    ensures OpensEpoch(s.lastHeight, data) ==>
              Step(cfgs, mapped, s, data)
              == Memory(data.blockHeight, ReceivedAll(cfgs, mapped, EmptiedAll(s.caches), data))
    ensures !OpensEpoch(s.lastHeight, data) ==>
              Step(cfgs, mapped, s, data) == Memory(s.lastHeight, ReceivedAll(cfgs, mapped, s.caches, data))
  {
  }

  lemma StepsSnoc(cfgs: seq<Config>, mapped: set<string>, s: Memory, stream: seq<TraceOperation>, data: TraceOperation)
    requires |cfgs| == |s.caches|
    ensures Steps(cfgs, mapped, s, stream + [data]) == Step(cfgs, mapped, Steps(cfgs, mapped, s, stream), data)
    ensures Flushes(cfgs, mapped, s, stream + [data]) ==
              if OpensEpoch(Steps(cfgs, mapped, s, stream).lastHeight, data)
              then Flushes(cfgs, mapped, s, stream) + [Steps(cfgs, mapped, s, stream).caches]
              else Flushes(cfgs, mapped, s, stream)
  {
    assert (stream + [data])[..|stream + [data]| - 1] == stream;
  }

  lemma NothingYet(cfgs: seq<Config>, mapped: set<string>, s: Memory, chain: string, useDBUpsert: bool)
    requires |cfgs| == |s.caches|
    ensures Steps(cfgs, mapped, s, []) == s && Flushes(cfgs, mapped, s, []) == []
    ensures Sent(cfgs, chain, useDBUpsert, [], [], [])
  {
  }

  lemma SentSnoc(
    cfgs: seq<Config>, chain: string, useDBUpsert: bool,
    flushes: seq<seq<Cache>>, batches: seq<seq<WritebackOp>>, parts: seq<seq<seq<WritebackOp>>>,
    caches: seq<Cache>, part: seq<seq<WritebackOp>>)
    requires Sent(cfgs, chain, useDBUpsert, flushes, batches, parts)
    requires EmitsAll(cfgs, chain, useDBUpsert, caches, part)
    ensures Sent(cfgs, chain, useDBUpsert, flushes + [caches], batches + [Flatten(part)], parts + [part])
  {
    hide EmitsAll;
  }

  /** One more batch was sent, made of what each of the given caches emits. */
  ghost predicate SendsOne(
    cfgs: seq<Config>, chain: string, useDBUpsert: bool, caches: seq<Cache>,
    sent: seq<seq<WritebackOp>>, sent': seq<seq<WritebackOp>>,
    parts: seq<seq<seq<WritebackOp>>>, parts': seq<seq<seq<WritebackOp>>>)
  {
    && |parts'| == |parts| + 1 && parts'[..|parts|] == parts
    && EmitsAll(cfgs, chain, useDBUpsert, caches, parts'[|parts|])
    && sent' == sent + [Flatten(parts'[|parts|])]
  }

  lemma OnePart(
    cfgs: seq<Config>, chain: string, useDBUpsert: bool, caches: seq<Cache>,
    sent: seq<seq<WritebackOp>>, sent': seq<seq<WritebackOp>>,
    parts: seq<seq<seq<WritebackOp>>>, parts': seq<seq<seq<WritebackOp>>>) returns (part: seq<seq<WritebackOp>>)
    requires SendsOne(cfgs, chain, useDBUpsert, caches, sent, sent', parts, parts')
    ensures EmitsAll(cfgs, chain, useDBUpsert, caches, part)
    ensures sent' == sent + [Flatten(part)] && parts' == parts + [part]
  {
    part := parts'[|parts|];
  }

  /** The batches sent are the flushes of the run, each as the concatenation of its modules' parts. */
  ghost predicate Sent(
    cfgs: seq<Config>, chain: string, useDBUpsert: bool,
    flushes: seq<seq<Cache>>, batches: seq<seq<WritebackOp>>, parts: seq<seq<seq<WritebackOp>>>)
  {
    && |batches| == |flushes| == |parts|
    && forall j :: 0 <= j < |flushes| ==>
         EmitsAll(cfgs, chain, useDBUpsert, flushes[j], parts[j]) && batches[j] == Flatten(parts[j])
  }

  function ListFor(ms: seq<Module>, mapping: map<string, seq<Module>>, data: TraceOperation): seq<Module> {
    if data.suggestedProcessor != "" && data.suggestedProcessor in mapping
    then mapping[data.suggestedProcessor]
    else ms
  }

  /** The list for a trace holds exactly the modules it is routed to, each once. */
  lemma ListIsRouting(ms: seq<Module>, mapping: map<string, seq<Module>>, data: TraceOperation)
    requires DistinctObjects(ms) && Mapping(ms, mapping)
    ensures DistinctObjects(ListFor(ms, mapping, data))
    ensures forall m :: m in ListFor(ms, mapping, data) ==> m in ms
    ensures forall m :: m in ms ==> (m in ListFor(ms, mapping, data) <==> Routed(m.Cfg(), mapping.Keys, data))
  {
    BySdkNameSelects(ms, data.suggestedProcessor);
  }

  /** No module of the list has the name. */
  ghost predicate NobodysName(ms: seq<Module>, name: string) {
    forall m :: m in ms ==> m.Cfg().sdkName != name
  }

  /**
    Every module is on the list for a trace without a suggestion, or with one that is nobody's name; else the named
    ones.
  */
  lemma ListReaches(ms: seq<Module>, mapping: map<string, seq<Module>>, data: TraceOperation)
    requires DistinctObjects(ms) && Mapping(ms, mapping)
    ensures forall m :: m in ms ==>
              (m in ListFor(ms, mapping, data) <==>
                 || data.suggestedProcessor == "" || NobodysName(ms, data.suggestedProcessor)
                 || m.Cfg().sdkName == data.suggestedProcessor)
  {
    BySdkNameSelects(ms, data.suggestedProcessor);
    if data.suggestedProcessor in mapping {
      var i :| 0 <= i < |ms| && ms[i].Cfg().sdkName == data.suggestedProcessor;
      assert ms[i] in ms;
    } else {
      forall m | m in ms ensures m.Cfg().sdkName != data.suggestedProcessor {
        var i :| 0 <= i < |ms| && ms[i] == m;
      }
    }
  }

  lemma OfferedToOwner(cfg: Config, c: Cache, data: TraceOperation)
    ensures Offered(cfg, c, data) == if cfg.owns(data.key) then Processed(cfg, c, data) else c
  {
  }

  lemma ReceivedWhenListed(m: Module, mapped: set<string>, c: Cache, data: TraceOperation)
    ensures Received(m.Cfg(), mapped, c, data) == if Routed(m.Cfg(), mapped, data) then Offered(m.Cfg(), c, data) else c
  {
  }

  function Offered(cfg: Config, c: Cache, data: TraceOperation): Cache {
    if cfg.owns(data.key) then Processed(cfg, c, data) else c
  }

  function ErrorsFrom(m: Module, data: TraceOperation): seq<TracingError> {
    var err := ErrorOf(m.Cfg(), data);
    if m.Cfg().owns(data.key) && err.Some? then [TracingError(err.value, m.Cfg().name, data)] else []
  }

  function ErrorsOf(list: seq<Module>, data: TraceOperation): seq<TracingError>
    decreases |list|
  {
    if list == [] then []
    else ErrorsOf(list[..|list| - 1], data) + ErrorsFrom(list[|list| - 1], data)
  }

  /** A module of the list owns the key and fails to decode the trace, which is the error reported. */
  ghost predicate SomeFails(list: seq<Module>, data: TraceOperation, e: TracingError) {
    exists m :: m in list && m.Cfg().owns(data.key) && m.Cfg().unmarshal(data).Err?
      && e == TracingError(m.Cfg().unmarshal(data).error, m.Cfg().name, data)
  }

  lemma {:induction false} ErrorsAreFailures(list: seq<Module>, data: TraceOperation)
    ensures forall e :: e in ErrorsOf(list, data) <==> SomeFails(list, data, e)
    decreases |list|
  {
    if list != [] {
      var front, last := list[..|list| - 1], list[|list| - 1];
      ErrorsAreFailures(front, data);
      assert list == front + [last];
      forall e ensures SomeFails(list, data, e) <==> SomeFails(front, data, e) || e in ErrorsFrom(last, data) {
        if SomeFails(front, data, e) {
          var m :| m in front && m.Cfg().owns(data.key) && m.Cfg().unmarshal(data).Err?
            && e == TracingError(m.Cfg().unmarshal(data).error, m.Cfg().name, data);
          assert m in list;
        }
        if e in ErrorsFrom(last, data) {
          assert last in list;
        }
      }
    }
  }

  lemma NoErrors(data: TraceOperation)
    ensures ErrorsOf([], data) == []
  {
  }

  lemma ErrorsSnoc(list: seq<Module>, m: Module, data: TraceOperation)
    ensures ErrorsOf(list + [m], data) == ErrorsOf(list, data) + ErrorsFrom(m, data)
  {
    assert (list + [m])[..|list + [m]| - 1] == list;
  }

  lemma ObjectsIdentify(ms: seq<Module>)
    requires DistinctObjects(ms)
    ensures forall a, b :: a in ms && b in ms && a != b ==> a.Obj() != b.Obj()
  {
  }

  lemma {:induction false} BySdkNameSelects(ms: seq<Module>, name: string)
    requires DistinctObjects(ms)
    ensures DistinctObjects(BySdkName(ms, name))
    ensures forall m :: m in BySdkName(ms, name) <==> m in ms && m.Cfg().sdkName == name
    decreases |ms|
  {
    if ms != [] {
      var front, last := ms[..|ms| - 1], ms[|ms| - 1];
      BySdkNameSelects(front, name);
      assert ms == front + [last];
      assert forall m :: m in BySdkName(front, name) ==> m.Obj() != last.Obj();
    }
  }

  ghost function CachesOf(ms: seq<Module>): (r: seq<Cache>)
    reads set m | m in ms :: m.Obj()
    ensures |r| == |ms|
    ensures forall i :: 0 <= i < |r| ==> r[i] == ms[i].CacheOf()
  {
    if ms == [] then [] else [ms[0].CacheOf()] + CachesOf(ms[1..])
  }

  lemma NothingMapped()
    ensures Mapping([], map[])
  {
  }

  lemma NoneNamed(ms: seq<Module>, name: string)
    requires forall i :: 0 <= i < |ms| ==> ms[i].Cfg().sdkName != name
    ensures BySdkName(ms, name) == []
    decreases |ms|
  {
    if ms != [] {
      NoneNamed(ms[..|ms| - 1], name);
    }
  }

  lemma MappingSnoc(ms: seq<Module>, m: Module, mapping: map<string, seq<Module>>)
    requires Mapping(ms, mapping)
    ensures var name := m.Cfg().sdkName;
            Mapping(ms + [m], mapping[name := (if name in mapping then mapping[name] else []) + [m]])
  {
    var name := m.Cfg().sdkName;
    var all := ms + [m];
    var mapping' := mapping[name := (if name in mapping then mapping[name] else []) + [m]];
    assert all[..|all| - 1] == ms;
    if name !in mapping {
      NoneNamed(ms, name);
    }
    forall x ensures x in mapping' <==> exists i :: 0 <= i < |all| && all[i].Cfg().sdkName == x {
      if x == name {
        assert all[|ms|].Cfg().sdkName == x;
      } else if x in mapping {
        var i :| 0 <= i < |ms| && ms[i].Cfg().sdkName == x;
        assert all[i].Cfg().sdkName == x;
      }
    }
  }
}
