/**
  The pipeline against the simple thing it stands for: a map that every accepted trace updates at once.
  A module is followed on its own through a run: its cache, its table once all batches sent so far are executed,
  and the epoch, which traces of any module advance.
*/
module Refinement {
  import opened Wrappers
  import opened Sql
  import opened TableLaws
  import opened Chunking
  import opened Writeback
  import opened Modules
  import opened Processing
  import opened Flushing

  /** What a module sees of the configuration. */
  datatype View = View(cfg: Config, mapped: set<string>, chain: string)

  datatype Pipe = Pipe(lastHeight: nat, cache: Cache, table: Table)

  /** What opening an epoch, if the trace opens one, leaves before the trace itself is received. */
  ghost function Opened(v: View, u: Pipe, data: TraceOperation): Pipe {
    if OpensEpoch(u.lastHeight, data)
    then Pipe(data.blockHeight, Emptied(u.cache), FlushTable(u.table, v.chain, u.cache))
    else u
  }

  ghost function Advance(v: View, u: Pipe, data: TraceOperation): Pipe {
    Opened(v, u, data).(cache := Received(v.cfg, v.mapped, Opened(v, u, data).cache, data))
  }

  ghost function Follow(v: View, u: Pipe, stream: seq<TraceOperation>): Pipe
    decreases |stream|
  {
    if stream == [] then u else Advance(v, Follow(v, u, stream[..|stream| - 1]), stream[|stream| - 1])
  }

  lemma FollowSnoc(v: View, u: Pipe, stream: seq<TraceOperation>, data: TraceOperation)
    ensures Follow(v, u, stream + [data]) == Advance(v, Follow(v, u, stream), data)
  {
    assert (stream + [data])[..|stream + [data]| - 1] == stream;
  }

  /** Following one module agrees with the whole processor and with the tables its flushes build. */
  lemma {:induction false} FollowIsProjection(
    cfgs: seq<Config>, mapped: set<string>, chain: string, s: Memory, t: Table, stream: seq<TraceOperation>, i: nat)
    requires |cfgs| == |s.caches| && i < |cfgs|
    ensures var u := Follow(View(cfgs[i], mapped, chain), Pipe(s.lastHeight, s.caches[i], t), stream);
            var r := Steps(cfgs, mapped, s, stream);
            && u.lastHeight == r.lastHeight
            && u.cache == r.caches[i]
            && u.table == FlushSeries(t, chain, Flushes(cfgs, mapped, s, stream), i)
    decreases |stream|
  {
    if stream != [] {
      var front, last := stream[..|stream| - 1], stream[|stream| - 1];
      FollowIsProjection(cfgs, mapped, chain, s, t, front, i);
      assert stream == front + [last];
      StepsSnoc(cfgs, mapped, s, front, last);
      var f := Flushes(cfgs, mapped, s, front);
      var c := Steps(cfgs, mapped, s, front).caches;
      assert (f + [c])[..|f + [c]| - 1] == f;
    }
  }

  // ---------------------------------------------------------------- reading a trace

  ghost predicate Accepted(v: View, data: TraceOperation) {
    Handles(v.cfg, v.mapped, data) && v.cfg.unmarshal(data).Ok?
  }

  /** The row of an accepted trace as the database would hold it. */
  function RowOf(v: View, data: TraceOperation): Row
    requires v.cfg.unmarshal(data).Ok?
  {
    WithChainName(v.cfg.unmarshal(data).value, v.chain)
  }

  /** Every accepted trace decodes to a row that names its cache key. */
  ghost predicate Keyed(v: View, stream: seq<TraceOperation>) {
    RowsKeyed(v.cfg, v.mapped, stream)
  }

  lemma KeyedFront(v: View, stream: seq<TraceOperation>)
    requires stream != [] && Keyed(v, stream)
    ensures Keyed(v, stream[..|stream| - 1])
    ensures Accepted(v, stream[|stream| - 1]) ==> NamesItsKey(v.cfg, stream[|stream| - 1])
  {
    RowsKeyedFront(v.cfg, v.mapped, stream);
  }

  /** A write-only module caches an accepted row under its columns, in place of what it had there. */
  lemma CachesItsRow(v: View, m: RowCache, data: TraceOperation)
    requires Accepted(v, data) && NamesItsKey(v.cfg, data)
    ensures Received(v.cfg, v.mapped, Writes(m), data)
         == Writes(m[v.cfg.unmarshal(data).value.columns := v.cfg.unmarshal(data).value])
  {
  }

  // ---------------------------------------------------------------- traces that decode to a skip row

  /**
    Several decoders answer a trace they skip with a zero row and no error, and Process caches that row like any other.
    It is one constant row a module, of height zero; None stands for a module whose decoder never does this.
  */
  type SkipRow = Option<Row>

  predicate IsSkipKey(skip: SkipRow, k: Key) {
    skip.Some? && k == KeyOf(skip.value)
  }

  /** The skip row under its own key, and a row of height h under every other. */
  predicate Timed(skip: SkipRow, r: Row, h: nat) {
    if IsSkipKey(skip, KeyOf(r)) then r == skip.value else r.height == h
  }

  /** Every accepted trace decodes to the skip row or to a row of its own block's height. */
  ghost predicate RowsTimed(v: View, skip: SkipRow, stream: seq<TraceOperation>) {
    forall i :: 0 <= i < |stream| && Accepted(v, stream[i]) ==> Timed(skip, RowOf(v, stream[i]), stream[i].blockHeight)
  }

  /** The skip key, if present, holds the skip row; every other row is older. */
  ghost predicate Settled(t: Table, skip: SkipRow, h: nat) {
    forall k :: k in t ==> if IsSkipKey(skip, k) then t[k] == Live(skip.value) else t[k].row.height < h
  }

  /** Heights are at least one and never decrease, and the table is settled before the first. */
  ghost predicate Chronological(t: Table, skip: SkipRow, stream: seq<TraceOperation>) {
    && (forall i :: 0 <= i < |stream| ==> stream[i].blockHeight >= 1)
    && (forall i, j :: 0 <= i < j < |stream| ==> stream[i].blockHeight <= stream[j].blockHeight)
    && (stream != [] ==> Settled(t, skip, stream[0].blockHeight))
  }

  // ---------------------------------------------------------------- write-only modules

  /** The simple map: every accepted trace overwrites its key at once. */
  ghost function LastWrites(v: View, t: Table, stream: seq<TraceOperation>): Table
    decreases |stream|
  {
    if stream == [] then t
    else
      var before := LastWrites(v, t, stream[..|stream| - 1]);
      var last := stream[|stream| - 1];
      if Accepted(v, last) then before[KeyOf(RowOf(v, last)) := Live(RowOf(v, last))] else before
  }

  /** The trace is the module's to receive, and decodes to a row with the columns. */
  ghost predicate TakesRow(v: View, data: TraceOperation, columns: seq<string>) {
    && v.cfg.owns(data.key)
    && (data.suggestedProcessor in ["", v.cfg.sdkName] || data.suggestedProcessor !in v.mapped)
    && v.cfg.unmarshal(data).Ok? && v.cfg.unmarshal(data).value.columns == columns
  }

  /** No trace from n on has a row with the columns. */
  ghost predicate Untaken(v: View, stream: seq<TraceOperation>, n: nat, columns: seq<string>) {
    forall j :: n <= j < |stream| ==> !TakesRow(v, stream[j], columns)
  }

  lemma TakesRowIff(v: View, data: TraceOperation, columns: seq<string>)
    ensures TakesRow(v, data, columns) <==> Accepted(v, data) && KeyOf(RowOf(v, data)) == Key(v.chain, columns)
  {
  }

  /** The simple map keeps what it had under a key of which no trace has a row. */
  lemma {:induction false} UntakenIsKept(v: View, t: Table, stream: seq<TraceOperation>, columns: seq<string>)
    requires Untaken(v, stream, 0, columns)
    ensures var key, m := Key(v.chain, columns), LastWrites(v, t, stream);
            (key in m <==> key in t) && (key in t ==> m[key] == t[key])
    decreases |stream|
  {
    if stream != [] {
      UntakenIsKept(v, t, stream[..|stream| - 1], columns);
      TakesRowIff(v, stream[|stream| - 1], columns);
    }
  }

  /**
    Of a key that is written the simple map holds, live, the row that its last write decoded to: with the row's own
    height, columns and values, under the chain's name.
  */
  lemma {:induction false} LastWriteHeld(v: View, t: Table, stream: seq<TraceOperation>, n: nat, row: Row)
    requires n < |stream| && v.cfg.unmarshal(stream[n]) == Ok(row) && TakesRow(v, stream[n], row.columns)
    requires Untaken(v, stream, n + 1, row.columns)
    ensures var key, m := Key(v.chain, row.columns), LastWrites(v, t, stream);
            key in m && m[key] == Stored(Row(v.chain, row.height, row.columns, row.values), None)
    decreases |stream|
  {
    var front, last := stream[..|stream| - 1], stream[|stream| - 1];
    TakesRowIff(v, last, row.columns);
    if n < |stream| - 1 {
      LastWriteHeld(v, t, front, n, row);
    }
  }

  /** The table with the pending cache laid over it. */
  function Overlaid(t: Table, chain: string, m: RowCache): Table {
    t + AllLive(Stamp(m, chain))
  }

  /** The state of a module between two traces of a chronological run. */
  ghost predicate InStep(v: View, skip: SkipRow, u: Pipe) {
    && u.cache.Writes?
    && PendingTimed(Stamp(u.cache.rows, v.chain), skip, u.lastHeight)
    && Settled(u.table, skip, u.lastHeight)
  }

  ghost predicate PendingTimed(m: map<Key, Row>, skip: SkipRow, h: nat) {
    forall k :: k in m ==> KeyOf(m[k]) == k && Timed(skip, m[k], h)
  }

  /** The pending row of the key beats what the table holds for it. */
  ghost predicate Commits(t: Table, m: map<Key, Row>, k: Key)
    requires k in t && k in m
  {
    t[k].row.height < m[k].height || t[k] == Live(m[k])
  }

  /**
    A flush leaves the overlay, so loses no pending row, exactly when every pending row whose key is in the table
    is newer than the stored row or already is the stored row.
  */
  lemma FlushCommitsIff(t: Table, m: map<Key, Row>)
    ensures UpsertMap(t, m) == t + AllLive(m) <==> forall k :: k in m && k in t ==> Commits(t, m, k)
  {
    var flushed, laid := UpsertMap(t, m), t + AllLive(m);
    assert flushed.Keys == laid.Keys;
    if flushed == laid {
      forall k | k in m && k in t ensures Commits(t, m, k) {
        assert flushed[k] == laid[k];
      }
    }
  }

  /** A pending skip row meets itself or nothing; every other pending row meets only older ones. */
  lemma SettledFlush(t: Table, m: map<Key, Row>, skip: SkipRow, h: nat)
    requires Settled(t, skip, h) && PendingTimed(m, skip, h)
    ensures UpsertMap(t, m) == t + AllLive(m)
    ensures forall h' :: h' > h ==> Settled(UpsertMap(t, m), skip, h')
  {
    FlushCommitsIff(t, m);
  }

  lemma FlushInStep(v: View, skip: SkipRow, u: Pipe)
    requires InStep(v, skip, u)
    ensures FlushTable(u.table, v.chain, u.cache) == Overlaid(u.table, v.chain, u.cache.rows)
    ensures forall h :: h > u.lastHeight ==> Settled(FlushTable(u.table, v.chain, u.cache), skip, h)
  {
    hide PendingTimed, Settled, Stamp, UpsertMap, AllLive, Delivered, WellKeyed;
    SettledFlush(u.table, Stamp(u.cache.rows, v.chain), skip, u.lastHeight);
    PendingIsKeyed(u.cache.rows, v.chain, skip, u.lastHeight);
    DeliveredOfKeyed(u.cache.rows, v.chain);
  }

  lemma PendingIsKeyed(m: RowCache, chain: string, skip: SkipRow, h: nat)
    requires PendingTimed(Stamp(m, chain), skip, h)
    ensures WellKeyed(m)
  {
    hide Stamp;
    forall k | k in m ensures m[k].columns == k {
      StampContents(m, chain, Key(chain, k));
    }
  }

  lemma LiveGrows(t: Table, m: map<Key, Row>, k: Key, r: Row)
    ensures t + AllLive(m[k := r]) == (t + AllLive(m))[k := Live(r)]
  {
  }

  lemma OverlayGrows(t: Table, chain: string, m: RowCache, row: Row)
    ensures Overlaid(t, chain, m[row.columns := row])
         == Overlaid(t, chain, m)[Key(chain, row.columns) := Live(WithChainName(row, chain))]
  {
    hide Stamp;
    StampGrows(m, chain, row);
    LiveGrows(t, Stamp(m, chain), Key(chain, row.columns), WithChainName(row, chain));
  }

  lemma OverlayOfNothing(t: Table, chain: string)
    ensures Overlaid(t, chain, map[]) == t
  {
    assert Stamp(map[], chain) == map[];
  }

  lemma OpeningKeepsOverlay(v: View, skip: SkipRow, u: Pipe, data: TraceOperation)
    requires InStep(v, skip, u) && u.lastHeight <= data.blockHeight && data.blockHeight >= 1
    ensures InStep(v, skip, Opened(v, u, data)) && Opened(v, u, data).lastHeight == data.blockHeight
    ensures Overlaid(Opened(v, u, data).table, v.chain, Opened(v, u, data).cache.rows)
         == Overlaid(u.table, v.chain, u.cache.rows)
  {
    if OpensEpoch(u.lastHeight, data) {
      assert Stamp(map[], v.chain) == map[];
      FlushInStep(v, skip, u);
      OverlayOfNothing(FlushTable(u.table, v.chain, u.cache), v.chain);
    }
  }

  lemma ReceivingWrites(v: View, skip: SkipRow, u: Pipe, data: TraceOperation)
    requires InStep(v, skip, u) && u.lastHeight == data.blockHeight
    requires Accepted(v, data) ==> NamesItsKey(v.cfg, data) && Timed(skip, RowOf(v, data), data.blockHeight)
    ensures var c, before := Received(v.cfg, v.mapped, u.cache, data), Overlaid(u.table, v.chain, u.cache.rows);
            && InStep(v, skip, u.(cache := c))
            && Overlaid(u.table, v.chain, c.rows)
            == if Accepted(v, data) then before[KeyOf(RowOf(v, data)) := Live(RowOf(v, data))] else before
  {
    hide Stamp, Overlaid;
    if Accepted(v, data) {
      StampGrows(u.cache.rows, v.chain, v.cfg.unmarshal(data).value);
      OverlayGrows(u.table, v.chain, u.cache.rows, v.cfg.unmarshal(data).value);
    }
  }

  /**
    Refinement for write-only modules. Over any chronological run, of traces for this and for other modules, skipped,
    decodable or not, the table with the pending cache laid over it is, after every trace, the last-write map of all
    traces so far.
  */
  lemma {:induction false} WriteOnlyRefinesLastWrites(v: View, skip: SkipRow, t: Table, stream: seq<TraceOperation>)
    requires Chronological(t, skip, stream) && RowsTimed(v, skip, stream) && Keyed(v, stream)
    ensures var u := Follow(v, Pipe(0, Writes(map[]), t), stream);
            && u.cache.Writes?
            && Overlaid(u.table, v.chain, u.cache.rows) == LastWrites(v, t, stream)
            && (stream != [] ==> InStep(v, skip, u) && u.lastHeight == stream[|stream| - 1].blockHeight)
    decreases |stream|
  {
    OverlayOfNothing(t, v.chain);
    if stream != [] {
      hide Keyed, Accepted, InStep, Overlaid, Settled, Timed, Opened, Received, NamesItsKey;
      var front, data := stream[..|stream| - 1], stream[|stream| - 1];
      KeyedFront(v, stream);
      ChronologicalFront(v, t, skip, stream);
      WriteOnlyRefinesLastWrites(v, skip, t, front);
      var u := Follow(v, Pipe(0, Writes(map[]), t), front);
      if front == [] {
        FirstOpening(v, skip, t, data);
      } else {
        OpeningKeepsOverlay(v, skip, u, data);
      }
      ReceivingWrites(v, skip, Opened(v, u, data), data);
    }
  }

  lemma ChronologicalFront(v: View, t: Table, skip: SkipRow, stream: seq<TraceOperation>)
    requires stream != [] && Chronological(t, skip, stream) && RowsTimed(v, skip, stream)
    ensures var front, data := stream[..|stream| - 1], stream[|stream| - 1];
            && Chronological(t, skip, front) && RowsTimed(v, skip, front)
            && data.blockHeight >= 1 && (front == [] ==> Settled(t, skip, data.blockHeight))
            && (front != [] ==> front[|front| - 1].blockHeight <= data.blockHeight)
            && (Accepted(v, data) ==> Timed(skip, RowOf(v, data), data.blockHeight))
  {
  }

  lemma FirstOpening(v: View, skip: SkipRow, t: Table, data: TraceOperation)
    requires data.blockHeight >= 1 && Settled(t, skip, data.blockHeight)
    ensures Opened(v, Pipe(0, Writes(map[]), t), data) == Pipe(data.blockHeight, Writes(map[]), t)
    ensures InStep(v, skip, Pipe(data.blockHeight, Writes(map[]), t))
    ensures Overlaid(t, v.chain, map[]) == t
  {
    hide Overlaid, Delivered, UpsertMap, Stamp;
    NothingStamped(v.chain);
    NothingToWrite(t, v.chain);
    OverlayOfNothing(t, v.chain);
  }

  lemma NothingStamped(chain: string)
    ensures Stamp(map[], chain) == map[]
  {
  }

  /**
    The processor as a whole: whatever batches a run emitted and however they were chunked, once they are executed in
    order a write-only module's table with its pending cache laid over it is the last-write map of the run.
  */
  lemma PipelineKeepsLastWrites(
    cfgs: seq<Config>, mapped: set<string>, chain: string, caches: seq<Cache>, db: Tables, stream: seq<TraceOperation>,
    batches: seq<seq<WritebackOp>>, parts: seq<seq<seq<WritebackOp>>>, i: nat, skip: SkipRow)
    requires |cfgs| == |caches| && i < |cfgs| && DistinctTables(cfgs) && caches[i] == Writes(map[])
    requires Sent(cfgs, chain, true, Flushes(cfgs, mapped, Memory(0, caches), stream), batches, parts)
    requires AllFit(batches)
    requires Chronological(TableOf(db, cfgs[i].table), skip, stream)
    requires RowsTimed(View(cfgs[i], mapped, chain), skip, stream)
    requires Keyed(View(cfgs[i], mapped, chain), stream)
    ensures var pending := Steps(cfgs, mapped, Memory(0, caches), stream).caches[i];
            && pending.Writes?
            && Overlaid(TableOf(Consumed(db, batches), cfgs[i].table), chain, pending.rows)
            == LastWrites(View(cfgs[i], mapped, chain), TableOf(db, cfgs[i].table), stream)
  {
    var t := TableOf(db, cfgs[i].table);
    FollowIsProjection(cfgs, mapped, chain, Memory(0, caches), t, stream, i);
    RunStaysKeyed(cfgs, mapped, Memory(0, caches), stream, i);
    KeyedFlushesAreUncut(Flushes(cfgs, mapped, Memory(0, caches), stream), parts, i);
    ConsumedTables(db, cfgs, chain, Flushes(cfgs, mapped, Memory(0, caches), stream), batches, parts, i);
    WriteOnlyRefinesLastWrites(View(cfgs[i], mapped, chain), skip, t, stream);
  }

  lemma PendingHeight(v: View, skip: SkipRow, u: Pipe, key: Key)
    requires InStep(v, skip, u) && key in Stamp(u.cache.rows, v.chain) && !IsSkipKey(skip, key)
    ensures Overlaid(u.table, v.chain, u.cache.rows)[key].row.height == u.lastHeight
  {
    hide Stamp;
  }

  lemma NotPending(v: View, u: Pipe, key: Key)
    requires u.cache.Writes? && key !in Stamp(u.cache.rows, v.chain)
    ensures key in Overlaid(u.table, v.chain, u.cache.rows) ==>
              key in u.table && u.table[key] == Overlaid(u.table, v.chain, u.cache.rows)[key]
  {
    hide Stamp;
  }

  /**
    From trace to table, field by field. In a chronological run of the whole processor, once a later block has begun,
    the database holds for a write-only module the row that the last write of its key decoded to: live, with the
    chain's name and the row's own height, columns and values.
  */
  lemma DecodedRowIsStored(
    cfgs: seq<Config>, mapped: set<string>, chain: string, caches: seq<Cache>, db: Tables, stream: seq<TraceOperation>,
    batches: seq<seq<WritebackOp>>, parts: seq<seq<seq<WritebackOp>>>, i: nat, skip: SkipRow, n: nat, row: Row)
    requires |cfgs| == |caches| && i < |cfgs| && DistinctTables(cfgs) && caches[i] == Writes(map[])
    requires Sent(cfgs, chain, true, Flushes(cfgs, mapped, Memory(0, caches), stream), batches, parts)
    requires AllFit(batches) && Chronological(TableOf(db, cfgs[i].table), skip, stream)
    requires RowsTimed(View(cfgs[i], mapped, chain), skip, stream) && Keyed(View(cfgs[i], mapped, chain), stream)
    requires n < |stream| && cfgs[i].unmarshal(stream[n]) == Ok(row) && !IsSkipKey(skip, Key(chain, row.columns))
    requires TakesRow(View(cfgs[i], mapped, chain), stream[n], row.columns)
    requires Untaken(View(cfgs[i], mapped, chain), stream, n + 1, row.columns)
    requires stream[n].blockHeight < stream[|stream| - 1].blockHeight
    ensures var t, key := TableOf(Consumed(db, batches), cfgs[i].table), Key(chain, row.columns);
            key in t && t[key] == Stored(Row(chain, row.height, row.columns, row.values), None)
  {
    hide Sent, AllFit, Chronological, Keyed, Overlaid, InStep, Consumed, LastWrites, Follow, Steps, Stamp;
    var v, t, key := View(cfgs[i], mapped, chain), TableOf(db, cfgs[i].table), Key(chain, row.columns);
    PipelineKeepsLastWrites(cfgs, mapped, chain, caches, db, stream, batches, parts, i, skip);
    LastWriteHeld(v, t, stream, n, row);
    WriteOnlyRefinesLastWrites(v, skip, t, stream);
    FollowIsProjection(cfgs, mapped, chain, Memory(0, caches), t, stream, i);
    ConsumedIsFollowed(cfgs, mapped, chain, caches, db, stream, batches, parts, i);
    var u := Follow(v, Pipe(0, Writes(map[]), t), stream);
    assert RowOf(v, stream[n]).height == stream[n].blockHeight;
    if key in Stamp(u.cache.rows, chain) {
      PendingHeight(v, skip, u, key);
    } else {
      NotPending(v, u, key);
    }
  }

  lemma ConsumedIsFollowed(
    cfgs: seq<Config>, mapped: set<string>, chain: string, caches: seq<Cache>, db: Tables, stream: seq<TraceOperation>,
    batches: seq<seq<WritebackOp>>, parts: seq<seq<seq<WritebackOp>>>, i: nat)
    requires |cfgs| == |caches| && i < |cfgs| && DistinctTables(cfgs) && caches[i] == Writes(map[])
    requires Sent(cfgs, chain, true, Flushes(cfgs, mapped, Memory(0, caches), stream), batches, parts)
    requires AllFit(batches) && Keyed(View(cfgs[i], mapped, chain), stream)
    ensures TableOf(Consumed(db, batches), cfgs[i].table)
         == Follow(
              View(cfgs[i], mapped, chain), Pipe(0, Writes(map[]), TableOf(db, cfgs[i].table)), stream).table
  {
    FollowIsProjection(cfgs, mapped, chain, Memory(0, caches), TableOf(db, cfgs[i].table), stream, i);
    RunStaysKeyed(cfgs, mapped, Memory(0, caches), stream, i);
    KeyedFlushesAreUncut(Flushes(cfgs, mapped, Memory(0, caches), stream), parts, i);
    ConsumedTables(db, cfgs, chain, Flushes(cfgs, mapped, Memory(0, caches), stream), batches, parts, i);
  }

  // ---------------------------------------------------------------- a stream, cut at its last opening

  /** The epoch after a stream, which its heights decide. */
  function EpochAfter(h: nat, stream: seq<TraceOperation>): nat
    decreases |stream|
  {
    if stream == [] then h
    else
      var before := EpochAfter(h, stream[..|stream| - 1]);
      if OpensEpoch(before, stream[|stream| - 1]) then stream[|stream| - 1].blockHeight else before
  }

  /** The traces since the last epoch was opened. */
  ghost function Epoch(h: nat, stream: seq<TraceOperation>): seq<TraceOperation>
    decreases |stream|
  {
    if stream == [] then []
    else
      var front, last := stream[..|stream| - 1], stream[|stream| - 1];
      (if OpensEpoch(EpochAfter(h, front), last) then [] else Epoch(h, front)) + [last]
  }

  /** The traces before that. */
  ghost function Earlier(h: nat, stream: seq<TraceOperation>): seq<TraceOperation>
    decreases |stream|
  {
    if stream == [] then []
    else
      var front, last := stream[..|stream| - 1], stream[|stream| - 1];
      if OpensEpoch(EpochAfter(h, front), last) then front else Earlier(h, front)
  }

  lemma {:induction false} CutAtOpening(h: nat, stream: seq<TraceOperation>)
    ensures Earlier(h, stream) + Epoch(h, stream) == stream
    decreases |stream|
  {
    if stream != [] {
      var front, last := stream[..|stream| - 1], stream[|stream| - 1];
      CutAtOpening(h, front);
      assert stream == front + [last];
      Reassociate(Earlier(h, front), Epoch(h, front), [last]);
    }
  }

  lemma KeyedEpoch(v: View, h: nat, stream: seq<TraceOperation>)
    requires Keyed(v, stream)
    ensures Keyed(v, Epoch(h, stream))
  {
    CutAtOpening(h, stream);
    KeyedHalves(v, Earlier(h, stream), Epoch(h, stream));
  }

  // ---------------------------------------------------------------- a write of an earlier block that comes later

  /** No trace of the stream writes the key. */
  ghost predicate Spares(v: View, stream: seq<TraceOperation>, k: Key) {
    forall i :: 0 <= i < |stream| && Accepted(v, stream[i]) ==> KeyOf(RowOf(v, stream[i])) != k
  }

  lemma {:induction false} LastWritesAppend(v: View, t: Table, a: seq<TraceOperation>, b: seq<TraceOperation>)
    ensures LastWrites(v, t, a + b) == LastWrites(v, LastWrites(v, t, a), b)
    decreases |b|
  {
    if b == [] {
      assert a + b == a;
    } else {
      LastWritesAppend(v, t, a, b[..|b| - 1]);
      assert (a + b)[..|a + b| - 1] == a + b[..|b| - 1];
    }
  }

  lemma {:induction false} FollowAppend(v: View, u: Pipe, a: seq<TraceOperation>, b: seq<TraceOperation>)
    ensures Follow(v, u, a + b) == Follow(v, Follow(v, u, a), b)
    decreases |b|
  {
    if b == [] {
      assert a + b == a;
    } else {
      FollowAppend(v, u, a, b[..|b| - 1]);
      assert (a + b)[..|a + b| - 1] == a + b[..|b| - 1];
    }
  }

  /** Between a write and an older one nobody else touches the key: the row is pending in its epoch, or stored. */
  ghost predicate FirstHeld(v: View, u: Pipe, a: TraceOperation)
    requires Accepted(v, a)
  {
    var k := KeyOf(RowOf(v, a));
    && u.cache.Writes? && WellKeyed(u.cache.rows)
    && if k in Stamp(u.cache.rows, v.chain)
       then Stamp(u.cache.rows, v.chain)[k] == RowOf(v, a) && u.lastHeight == a.blockHeight && k !in u.table
       else k in u.table && u.table[k] == Live(RowOf(v, a))
  }

  /** From the older write on: the first row is stored, and the older one is at most pending, in its own epoch. */
  ghost predicate SecondShut(v: View, u: Pipe, a: TraceOperation, b: TraceOperation)
    requires Accepted(v, a) && Accepted(v, b)
  {
    var k := KeyOf(RowOf(v, a));
    && u.cache.Writes? && WellKeyed(u.cache.rows) && k in u.table && u.table[k] == Live(RowOf(v, a))
    && (k in Stamp(u.cache.rows, v.chain) ==>
          Stamp(u.cache.rows, v.chain)[k] == RowOf(v, b) && u.lastHeight == b.blockHeight)
  }

  lemma AdvanceStamp(v: View, u: Pipe, data: TraceOperation)
    requires u.cache.Writes? && WellKeyed(u.cache.rows) && (Accepted(v, data) ==> NamesItsKey(v.cfg, data))
    ensures var u', opens := Advance(v, u, data), OpensEpoch(u.lastHeight, data);
            var held := if opens then map[] else Stamp(u.cache.rows, v.chain);
            && u'.cache.Writes? && WellKeyed(u'.cache.rows)
            && Stamp(u'.cache.rows, v.chain)
            == (if Accepted(v, data) then held[KeyOf(RowOf(v, data)) := RowOf(v, data)] else held)
            && u'.lastHeight == (if opens then data.blockHeight else u.lastHeight)
            && u'.table == (if opens then UpsertMap(u.table, Stamp(u.cache.rows, v.chain)) else u.table)
  {
    hide Stamp, Delivered;
    NothingStamped(v.chain);
    DeliveredOfKeyed(u.cache.rows, v.chain);
    if Accepted(v, data) {
      CachesItsRow(v, Opened(v, u, data).cache.rows, data);
      StampGrows(Opened(v, u, data).cache.rows, v.chain, v.cfg.unmarshal(data).value);
    }
  }

  lemma SparesFront(v: View, x: seq<TraceOperation>, k: Key)
    requires x != [] && Spares(v, x, k)
    ensures Spares(v, x[..|x| - 1], k)
    ensures Accepted(v, x[|x| - 1]) ==> KeyOf(RowOf(v, x[|x| - 1])) != k
  {
  }

  lemma FirstHeldStep(v: View, u: Pipe, a: TraceOperation, data: TraceOperation)
    requires Accepted(v, a) && FirstHeld(v, u, a)
    requires Accepted(v, data) ==> NamesItsKey(v.cfg, data) && KeyOf(RowOf(v, data)) != KeyOf(RowOf(v, a))
    ensures FirstHeld(v, Advance(v, u, data), a)
  {
    hide Advance, Stamp, WellKeyed, Accepted, NamesItsKey;
    AdvanceStamp(v, u, data);
  }

  lemma {:induction false} FirstStaysHeld(v: View, u: Pipe, a: TraceOperation, x: seq<TraceOperation>)
    requires Accepted(v, a) && FirstHeld(v, u, a) && Spares(v, x, KeyOf(RowOf(v, a))) && Keyed(v, x)
    ensures FirstHeld(v, Follow(v, u, x), a)
    decreases |x|
  {
    if x != [] {
      hide Advance, Keyed, Spares, FirstHeld;
      KeyedFront(v, x);
      SparesFront(v, x, KeyOf(RowOf(v, a)));
      FirstStaysHeld(v, u, a, x[..|x| - 1]);
      FirstHeldStep(v, Follow(v, u, x[..|x| - 1]), a, x[|x| - 1]);
    }
  }

  /** No row is pending under the key. */
  ghost predicate NonePending(v: View, u: Pipe, k: Key) {
    u.cache.Writes? && k !in Stamp(u.cache.rows, v.chain)
  }

  lemma SecondShutStep(v: View, u: Pipe, a: TraceOperation, b: TraceOperation, data: TraceOperation)
    requires Accepted(v, a) && Accepted(v, b) && RowOf(v, a).height >= RowOf(v, b).height
    requires KeyOf(RowOf(v, a)) == KeyOf(RowOf(v, b)) && SecondShut(v, u, a, b)
    requires Accepted(v, data) ==> NamesItsKey(v.cfg, data) && KeyOf(RowOf(v, data)) != KeyOf(RowOf(v, a))
    ensures SecondShut(v, Advance(v, u, data), a, b)
    ensures NonePending(v, u, KeyOf(RowOf(v, a))) || OpensEpoch(b.blockHeight, data) ==>
              NonePending(v, Advance(v, u, data), KeyOf(RowOf(v, a)))
  {
    hide Advance, Stamp, WellKeyed, Accepted, NamesItsKey;
    AdvanceStamp(v, u, data);
  }

  lemma {:induction false} SecondStaysShut(
    v: View, u: Pipe, a: TraceOperation, b: TraceOperation, y: seq<TraceOperation>)
    requires Accepted(v, a) && Accepted(v, b) && RowOf(v, a).height >= RowOf(v, b).height
    requires KeyOf(RowOf(v, a)) == KeyOf(RowOf(v, b)) && Spares(v, y, KeyOf(RowOf(v, a))) && Keyed(v, y)
    requires SecondShut(v, u, a, b)
    ensures SecondShut(v, Follow(v, u, y), a, b)
    ensures (exists n :: 0 <= n < |y| && OpensEpoch(b.blockHeight, y[n])) ==>
              NonePending(v, Follow(v, u, y), KeyOf(RowOf(v, a)))
    decreases |y|
  {
    if y != [] {
      hide Advance, Keyed, Spares, SecondShut, NonePending, Accepted;
      KeyedFront(v, y);
      SparesFront(v, y, KeyOf(RowOf(v, a)));
      SecondStaysShut(v, u, a, b, y[..|y| - 1]);
      SecondShutStep(v, Follow(v, u, y[..|y| - 1]), a, b, y[|y| - 1]);
      if n :| 0 <= n < |y| && OpensEpoch(b.blockHeight, y[n]) {
        assert n < |y| - 1 ==> y[..|y| - 1][n] == y[n];
      }
    }
  }

  lemma {:induction false} SparedLastWrite(v: View, t: Table, stream: seq<TraceOperation>, k: Key)
    requires Spares(v, stream, k)
    ensures k in LastWrites(v, t, stream) <==> k in t
    ensures k in t ==> LastWrites(v, t, stream)[k] == t[k]
    decreases |stream|
  {
    if stream != [] {
      var front := stream[..|stream| - 1];
      assert forall i :: 0 <= i < |front| ==> front[i] == stream[i];
      SparedLastWrite(v, t, front, k);
    }
  }

  lemma KeyedHalves(v: View, a: seq<TraceOperation>, b: seq<TraceOperation>)
    requires Keyed(v, a + b)
    ensures Keyed(v, a) && Keyed(v, b)
  {
    assert forall i :: 0 <= i < |a| ==> a[i] == (a + b)[i];
    assert forall i :: 0 <= i < |b| ==> b[i] == (a + b)[|a| + i];
  }

  lemma KeyedOne(v: View, data: TraceOperation)
    requires Keyed(v, [data])
    ensures Accepted(v, data) ==> NamesItsKey(v.cfg, data)
  {
    assert [data][0] == data;
  }

  lemma KeyedParts(v: View, a: TraceOperation, x: seq<TraceOperation>, b: TraceOperation, y: seq<TraceOperation>)
    requires Keyed(v, [a] + x + [b] + y)
    ensures (Accepted(v, a) ==> NamesItsKey(v.cfg, a)) && (Accepted(v, b) ==> NamesItsKey(v.cfg, b))
    ensures Keyed(v, x) && Keyed(v, y)
  {
    hide Keyed, Accepted, NamesItsKey;
    KeyedHalves(v, [a] + x + [b], y);
    KeyedHalves(v, [a] + x, [b]);
    KeyedHalves(v, [a], x);
    KeyedOne(v, a);
    KeyedOne(v, b);
  }

  lemma FollowParts(
    v: View, u: Pipe, a: TraceOperation, x: seq<TraceOperation>, b: TraceOperation, y: seq<TraceOperation>)
    ensures Follow(v, u, [a] + x + [b] + y) == Follow(v, Advance(v, Follow(v, Advance(v, u, a), x), b), y)
  {
    FollowAppend(v, u, [a] + x + [b], y);
    FollowSnoc(v, u, [a] + x, b);
    FollowAppend(v, u, [a], x);
    FollowSnoc(v, u, [], a);
    assert [] + [a] == [a];
  }

  lemma LastWriteOfParts(v: View, t: Table, front: seq<TraceOperation>, b: TraceOperation, y: seq<TraceOperation>)
    requires Accepted(v, b) && Spares(v, y, KeyOf(RowOf(v, b)))
    ensures var k, m := KeyOf(RowOf(v, b)), LastWrites(v, t, front + [b] + y); k in m && m[k] == Live(RowOf(v, b))
  {
    LastWritesAppend(v, t, front + [b], y);
    assert (front + [b])[..|front + [b]| - 1] == front;
    SparedLastWrite(v, LastWrites(v, t, front + [b]), y, KeyOf(RowOf(v, b)));
  }

  /**
    The order of heights matters. A module that holds nothing for a key receives a write of it and later one of an
    earlier block, with any traces around them that do not write the key: from then on the table has the first row for
    good, the second is at most pending until its epoch ends, and the last write is lost.
  */
  lemma DecreasingHeightLosesWrite(
    v: View, u: Pipe, a: TraceOperation, x: seq<TraceOperation>, b: TraceOperation, y: seq<TraceOperation>)
    requires Accepted(v, a) && Accepted(v, b) && KeyOf(RowOf(v, a)) == KeyOf(RowOf(v, b))
    requires a.blockHeight > b.blockHeight >= 1
    requires RowOf(v, a).height == a.blockHeight && RowOf(v, b).height == b.blockHeight
    requires u.cache.Writes? && WellKeyed(u.cache.rows)
    requires KeyOf(RowOf(v, a)) !in Stamp(u.cache.rows, v.chain) && KeyOf(RowOf(v, a)) !in u.table
    requires Spares(v, x, KeyOf(RowOf(v, a))) && Spares(v, y, KeyOf(RowOf(v, a))) && Keyed(v, [a] + x + [b] + y)
    ensures var k, u' := KeyOf(RowOf(v, a)), Follow(v, u, [a] + x + [b] + y);
            && SecondShut(v, u', a, b)
            && ((exists n :: 0 <= n < |y| && OpensEpoch(b.blockHeight, y[n])) ==> NonePending(v, u', k))
    ensures var k, m := KeyOf(RowOf(v, b)), LastWrites(v, u.table, [a] + x + [b] + y);
            k in m && m[k] == Live(RowOf(v, b))
  {
    hide Follow, LastWrites, Stamp, Advance, Spares, Keyed, WellKeyed;
    KeyedParts(v, a, x, b, y);
    FollowParts(v, u, a, x, b, y);
    LastWriteOfParts(v, u.table, [a] + x, b, y);
    AdvanceStamp(v, u, a);
    FirstStaysHeld(v, Advance(v, u, a), a, x);
    AdvanceStamp(v, Follow(v, Advance(v, u, a), x), b);
    SecondStaysShut(v, Advance(v, Follow(v, Advance(v, u, a), x), b), a, b, y);
  }

  // ---------------------------------------------------------------- batches in any order

  /** The module's caches at the flushes of a run, in order. */
  ghost function FlushedCaches(v: View, u: Pipe, stream: seq<TraceOperation>): seq<Cache>
    decreases |stream|
  {
    if stream == [] then []
    else
      var before := Follow(v, u, stream[..|stream| - 1]);
      var earlier := FlushedCaches(v, u, stream[..|stream| - 1]);
      if OpensEpoch(before.lastHeight, stream[|stream| - 1]) then earlier + [before.cache] else earlier
  }

  /**
    Rows sit under their own keys and the skip key holds the skip row; under the other keys later flushes carry strictly
    greater heights, all below the current epoch's.
  */
  ghost predicate Ascending(flushed: seq<Cache>, chain: string, skip: SkipRow, last: nat) {
    && (forall j :: 0 <= j < |flushed| ==> flushed[j].Writes? && Below(Stamp(flushed[j].rows, chain), skip, last))
    && (forall i, j :: 0 <= i < j < |flushed| ==>
          Before(Stamp(flushed[i].rows, chain), Stamp(flushed[j].rows, chain), skip))
  }

  ghost predicate Below(m: map<Key, Row>, skip: SkipRow, last: nat) {
    forall k :: k in m ==> KeyOf(m[k]) == k && if IsSkipKey(skip, k) then m[k] == skip.value else m[k].height < last
  }

  ghost predicate Before(m: map<Key, Row>, m': map<Key, Row>, skip: SkipRow) {
    forall k, l :: k in m && l in m' && !IsSkipKey(skip, k) && !IsSkipKey(skip, l) ==> m[k].height < m'[l].height
  }

  lemma AscendingSnoc(flushed: seq<Cache>, chain: string, skip: SkipRow, last: nat, c: Cache, next: nat)
    requires Ascending(flushed, chain, skip, last) && last < next
    requires c.Writes? && PendingTimed(Stamp(c.rows, chain), skip, last)
    ensures Ascending(flushed + [c], chain, skip, next)
  {
    hide Stamp;
    var all := flushed + [c];
    forall i | 0 <= i < |flushed| ensures Before(Stamp(all[i].rows, chain), Stamp(c.rows, chain), skip) {
      assert Below(Stamp(flushed[i].rows, chain), skip, last);
    }
    forall i | 0 <= i < |flushed| ensures Below(Stamp(all[i].rows, chain), skip, next) {
      assert Below(Stamp(flushed[i].rows, chain), skip, last);
    }
  }

  lemma {:induction false} FlushesAscend(v: View, skip: SkipRow, t: Table, stream: seq<TraceOperation>)
    requires Chronological(t, skip, stream) && RowsTimed(v, skip, stream) && Keyed(v, stream)
    ensures var u := Pipe(0, Writes(map[]), t);
            Ascending(FlushedCaches(v, u, stream), v.chain, skip, Follow(v, u, stream).lastHeight)
    decreases |stream|
  {
    if stream != [] {
      hide Ascending, PendingTimed, Stamp;
      var front, data := stream[..|stream| - 1], stream[|stream| - 1];
      var start := Pipe(0, Writes(map[]), t);
      KeyedFront(v, stream);
      FlushesAscend(v, skip, t, front);
      WriteOnlyRefinesLastWrites(v, skip, t, front);
      var u := Follow(v, start, front);
      NothingTimed(v.chain, skip, u.lastHeight);
      if OpensEpoch(u.lastHeight, data) {
        AscendingSnoc(FlushedCaches(v, start, front), v.chain, skip, u.lastHeight, u.cache, data.blockHeight);
      }
    } else {
      NothingAscends(v.chain, skip);
    }
  }

  lemma NothingTimed(chain: string, skip: SkipRow, h: nat)
    ensures PendingTimed(Stamp(map[], chain), skip, h)
  {
    assert Stamp(map[], chain) == map[];
  }

  lemma NothingAscends(chain: string, skip: SkipRow)
    ensures Ascending([], chain, skip, 0)
  {
  }

  /** lists[j] holds the rows of the j-th flush, in any order. */
  ghost predicate ListsFlushes(lists: seq<seq<Row>>, flushed: seq<Cache>, chain: string) {
    && |lists| == |flushed|
    && forall j :: 0 <= j < |lists| ==> flushed[j].Writes? && Enumerates(lists[j], Stamp(flushed[j].rows, chain))
  }

  lemma FollowedTable(v: View, u: Pipe, stream: seq<TraceOperation>)
    requires stream != []
    ensures var before := Follow(v, u, stream[..|stream| - 1]);
            var opens := OpensEpoch(before.lastHeight, stream[|stream| - 1]);
            && Follow(v, u, stream).table
            == (if opens then FlushTable(before.table, v.chain, before.cache) else before.table)
            && var earlier := FlushedCaches(v, u, stream[..|stream| - 1]);
               FlushedCaches(v, u, stream) == if opens then earlier + [before.cache] else earlier
  {
  }

  lemma LastListFlushes(t: Table, lists: seq<seq<Row>>, chain: string, m: RowCache)
    requires lists != [] && Enumerates(lists[|lists| - 1], Stamp(m, chain))
    ensures UpsertRows(t, Flatten(lists))
         == FlushTable(UpsertRows(t, Flatten(lists[..|lists| - 1])), chain, Writes(m))
  {
    var n := |lists| - 1;
    assert lists == lists[..n] + [lists[n]];
    hide Delivered, Stamp;
    FlattenSnoc(lists[..n], lists[n]);
    UpsertRowsAppend(t, Flatten(lists[..n]), lists[n]);
    UpsertDistinctRows(UpsertRows(t, Flatten(lists[..n])), lists[n]);
    EnumeratedIsKeyed(lists[n], m, chain);
    DeliveredOfKeyed(m, chain);
  }

  lemma EnumeratedIsKeyed(rows: seq<Row>, m: RowCache, chain: string)
    requires Enumerates(rows, Stamp(m, chain))
    ensures WellKeyed(m)
  {
    hide Stamp, ByKey;
    ByKeyContents(rows);
    forall k | k in m ensures m[k].columns == k {
      StampContents(m, chain, Key(chain, k));
    }
  }

  lemma FewerLists(lists: seq<seq<Row>>, earlier: seq<Cache>, last: Cache, chain: string)
    requires ListsFlushes(lists, earlier + [last], chain)
    ensures ListsFlushes(lists[..|lists| - 1], earlier, chain)
    ensures last.Writes? && Enumerates(lists[|lists| - 1], Stamp(last.rows, chain))
  {
    hide Enumerates;
    assert forall j :: 0 <= j < |earlier| ==> (earlier + [last])[j] == earlier[j];
    assert (earlier + [last])[|earlier|] == last;
  }

  lemma {:induction false} FlushesInOrder(v: View, u: Pipe, stream: seq<TraceOperation>, lists: seq<seq<Row>>)
    requires ListsFlushes(lists, FlushedCaches(v, u, stream), v.chain)
    ensures UpsertRows(u.table, Flatten(lists)) == Follow(v, u, stream).table
    decreases |stream|
  {
    if stream != [] {
      hide Follow, FlushedCaches, Enumerates, FlushTable;
      var front := stream[..|stream| - 1];
      var before := Follow(v, u, front);
      FollowedTable(v, u, stream);
      if OpensEpoch(before.lastHeight, stream[|stream| - 1]) {
        assert FlushedCaches(v, u, stream)[|lists| - 1] == before.cache;
        FewerLists(lists, FlushedCaches(v, u, front), before.cache, v.chain);
        FlushesInOrder(v, u, front, lists[..|lists| - 1]);
        LastListFlushes(u.table, lists, v.chain, before.cache.rows);
      } else {
        FlushesInOrder(v, u, front, lists);
      }
    }
  }

  lemma FlushedRowsAgree(lists: seq<seq<Row>>, flushed: seq<Cache>, chain: string, skip: SkipRow, last: nat)
    requires ListsFlushes(lists, flushed, chain) && Ascending(flushed, chain, skip, last)
    ensures AgreeAtTop(Flatten(lists))
  {
    var rows := Flatten(lists);
    forall r, r' | IsNewest(r, rows) && IsNewest(r', rows) && KeyOf(r) == KeyOf(r') ensures r == r' {
      hide IsNewest, Stamp;
      NewestTie(rows, r, r');
      var i, n := FlattenedMember(lists, r);
      var j, l := FlattenedMember(lists, r');
      ByKeyOfDistinct(lists[i]);
      ByKeyOfDistinct(lists[j]);
      assert Below(Stamp(flushed[i].rows, chain), skip, last) && Below(Stamp(flushed[j].rows, chain), skip, last);
      if !IsSkipKey(skip, KeyOf(r)) {
        assert i == j;
      }
    }
  }

  lemma NewestTie(rows: seq<Row>, r: Row, r': Row)
    requires IsNewest(r, rows) && IsNewest(r', rows) && KeyOf(r) == KeyOf(r')
    ensures r.height == r'.height && r in rows && r' in rows
  {
  }

  /**
    The goroutines of Flush may hand over batches in any order. For a write-only module in a chronological run the
    table is the same for every order of all the rows flushed: the one the in-order execution leaves.
  */
  lemma ReorderedFlushesConverge(
    v: View, skip: SkipRow, t: Table, stream: seq<TraceOperation>, lists: seq<seq<Row>>, rows: seq<Row>)
    requires Chronological(t, skip, stream) && RowsTimed(v, skip, stream) && Keyed(v, stream)
    requires ListsFlushes(lists, FlushedCaches(v, Pipe(0, Writes(map[]), t), stream), v.chain)
    requires multiset(rows) == multiset(Flatten(lists))
    ensures UpsertRows(t, rows) == Follow(v, Pipe(0, Writes(map[]), t), stream).table
  {
    var start := Pipe(0, Writes(map[]), t);
    FlushesInOrder(v, start, stream, lists);
    FlushesAscend(v, skip, t, stream);
    FlushedRowsAgree(lists, FlushedCaches(v, start, stream), v.chain, skip, Follow(v, start, stream).lastHeight);
    HeightsConverge(t, Flatten(lists), rows);
  }

  // ---------------------------------------------------------------- epochs, in any run

  ghost predicate HeightsIn(m: RowCache, h: nat) {
    forall k :: k in m ==> m[k].height == 0 || m[k].height == h
  }

  ghost predicate CacheHeightsIn(c: Cache, h: nat) {
    match c
    case Writes(rows) => HeightsIn(rows, h)
    case Updates(inserts, deletes) => HeightsIn(inserts, h) && HeightsIn(deletes, h)
  }

  /** The module's rows have their trace's height, or none as for the traces it merely skips. */
  ghost predicate OwnHeightOrZero(cfg: Config, mapped: set<string>, stream: seq<TraceOperation>) {
    forall i :: 0 <= i < |stream| && Handles(cfg, mapped, stream[i]) ==> HeightOrZero(cfg, stream[i])
  }

  predicate HeightOrZero(cfg: Config, data: TraceOperation) {
    cfg.unmarshal(data).Ok? ==>
      cfg.unmarshal(data).value.height == 0 || cfg.unmarshal(data).value.height == data.blockHeight
  }

  /** The caches of the modules in own hold no height but 0 and h. */
  ghost predicate OneEpoch(caches: seq<Cache>, own: set<nat>, h: nat) {
    forall i :: i in own && i < |caches| ==> CacheHeightsIn(caches[i], h)
  }

  ghost predicate HasOneEpoch(caches: seq<Cache>, own: set<nat>) {
    exists h :: OneEpoch(caches, own, h)
  }

  ghost predicate EachOneEpoch(flushes: seq<seq<Cache>>, own: set<nat>) {
    forall j :: 0 <= j < |flushes| ==> HasOneEpoch(flushes[j], own)
  }

  lemma EpochStep(cfg: Config, mapped: set<string>, c: Cache, last: nat, data: TraceOperation)
    requires CacheHeightsIn(c, last) && (Handles(cfg, mapped, data) ==> HeightOrZero(cfg, data))
    ensures OpensEpoch(last, data) ==> CacheHeightsIn(Received(cfg, mapped, Emptied(c), data), data.blockHeight)
    ensures !OpensEpoch(last, data) ==> CacheHeightsIn(Received(cfg, mapped, c, data), last)
  {
  }

  /**
    In every run, whatever the order of heights and whatever the other modules do, for the modules whose rows have their
    trace's height or none: each cached row's height is zero or the current epoch's, and each flush carries at most one
    non-zero height over all of them. A trace of height zero never opens an epoch.
  */
  lemma {:induction false} EpochInvariant(
    cfgs: seq<Config>, mapped: set<string>, own: set<nat>, s: Memory, stream: seq<TraceOperation>)
    requires |cfgs| == |s.caches|
    requires OneEpoch(s.caches, own, s.lastHeight)
    requires forall i :: i in own && i < |cfgs| ==> OwnHeightOrZero(cfgs[i], mapped, stream)
    ensures OneEpoch(Steps(cfgs, mapped, s, stream).caches, own, Steps(cfgs, mapped, s, stream).lastHeight)
    ensures EachOneEpoch(Flushes(cfgs, mapped, s, stream), own)
    ensures (forall i :: 0 <= i < |stream| ==> stream[i].blockHeight == 0) ==>
              Flushes(cfgs, mapped, s, stream) == [] && Steps(cfgs, mapped, s, stream).lastHeight == s.lastHeight
    decreases |stream|
  {
    if stream != [] {
      hide HeightOrZero, CacheHeightsIn, Handles;
      var front, data := stream[..|stream| - 1], stream[|stream| - 1];
      assert stream == front + [data];
      assert forall i :: 0 <= i < |front| ==> front[i] == stream[i];
      forall i | i in own && i < |cfgs| ensures OwnHeightOrZero(cfgs[i], mapped, front) {
        assert OwnHeightOrZero(cfgs[i], mapped, stream);
      }
      EpochInvariant(cfgs, mapped, own, s, front);
      StepsSnoc(cfgs, mapped, s, front, data);
      var before := Steps(cfgs, mapped, s, front);
      forall i | i in own && i < |cfgs|
        ensures CacheHeightsIn(Steps(cfgs, mapped, s, stream).caches[i], Steps(cfgs, mapped, s, stream).lastHeight)
      {
        assert OwnHeightOrZero(cfgs[i], mapped, stream);
        EpochStep(cfgs[i], mapped, before.caches[i], before.lastHeight, data);
      }
      assert HasOneEpoch(before.caches, own);
    }
  }
}
