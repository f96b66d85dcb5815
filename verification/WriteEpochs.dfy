/**
  Write-only modules over heights in any order, whatever their rows are cached under. Traces of different blocks may
  overtake one another on the way to the processor, and a token info may be cached under another key than its row's.
  When every flush still runs, and when it still commits the last writes so far, can be read off the stream.
*/
module WriteEpochs {
  import opened Sql
  import opened Chunking
  import opened Modules
  import opened Processing
  import opened Flushing
  import opened Refinement

  // ---------------------------------------------------------------- what an epoch leaves in the cache

  /** The last row per conflict key of the traces. */
  ghost function Overwritten(v: View, block: seq<TraceOperation>): map<Key, Row>
    decreases |block|
  {
    if block == [] then map[]
    else
      var before, last := Overwritten(v, block[..|block| - 1]), block[|block| - 1];
      if Accepted(v, last) then before[KeyOf(RowOf(v, last)) := RowOf(v, last)] else before
  }

  lemma {:induction false} LastWritesOverlay(v: View, t: Table, block: seq<TraceOperation>)
    ensures LastWrites(v, t, block) == t + AllLive(Overwritten(v, block))
    decreases |block|
  {
    if block != [] {
      hide AllLive;
      var front, last := block[..|block| - 1], block[|block| - 1];
      LastWritesOverlay(v, t, front);
      if Accepted(v, last) {
        LiveGrows(t, Overwritten(v, front), KeyOf(RowOf(v, last)), RowOf(v, last));
      }
    } else {
      assert t + AllLive(map[]) == t;
    }
  }

  /** What the rows of a list of traces, kept one per cache key, bring to the table. */
  ghost function Kept(v: View, block: seq<TraceOperation>): map<Key, Row> {
    Delivered(LastRows(v.cfg, v.mapped, block), v.chain)
  }

  /** No key is delivered that the traces did not write. */
  lemma {:induction false} CachedIsWritten(v: View, block: seq<TraceOperation>, c: CacheKey)
    requires c in LastRows(v.cfg, v.mapped, block)
    ensures Key(v.chain, LastRows(v.cfg, v.mapped, block)[c].columns) in Overwritten(v, block)
    decreases |block|
  {
    var front, last := block[..|block| - 1], block[|block| - 1];
    if !(WritesRow(v.cfg, v.mapped, last) && v.cfg.cacheKey(last) == c) {
      CachedIsWritten(v, front, c);
    }
  }

  lemma KeptIsWritten(v: View, block: seq<TraceOperation>)
    ensures Kept(v, block).Keys <= Overwritten(v, block).Keys
  {
    hide Delivered, LastRows, Overwritten;
    var rows := LastRows(v.cfg, v.mapped, block);
    DeliveredContents(rows, v.chain);
    forall k | k in Kept(v, block) ensures k in Overwritten(v, block) {
      var c :| c in rows && k == Key(v.chain, rows[c].columns);
      CachedIsWritten(v, block, c);
    }
  }

  lemma {:induction false} CacheIsLastRows(v: View, start: Pipe, stream: seq<TraceOperation>)
    requires start.cache == Writes(map[])
    ensures var u := Follow(v, start, stream);
            && u.lastHeight == EpochAfter(start.lastHeight, stream)
            && u.cache == Writes(LastRows(v.cfg, v.mapped, Epoch(start.lastHeight, stream)))
    decreases |stream|
  {
    if stream != [] {
      var front, last := stream[..|stream| - 1], stream[|stream| - 1];
      CacheIsLastRows(v, start, front);
      var opens := OpensEpoch(EpochAfter(start.lastHeight, front), last);
      var before := if opens then [] else Epoch(start.lastHeight, front);
      assert (before + [last])[..|before + [last]| - 1] == before;
    }
  }

  // ---------------------------------------------------------------- one flush

  /**
    Upserting the kept rows leaves the row stored: it is kept and newer than what was there, or was there and stays.
  */
  ghost predicate Arrives(t: Table, kept: map<Key, Row>, k: Key, w: Row) {
    || (k in kept && kept[k] == w && (k in t ==> t[k].row.height < w.height))
    || (k in t && t[k] == Live(w) && (k in kept ==> kept[k].height <= w.height))
  }

  lemma FlushArrivesIff(t: Table, kept: map<Key, Row>, last: map<Key, Row>)
    requires kept.Keys <= last.Keys
    ensures UpsertMap(t, kept) == t + AllLive(last) <==> forall k :: k in last ==> Arrives(t, kept, k, last[k])
  {
    var flushed, laid := UpsertMap(t, kept), t + AllLive(last);
    forall k | k in last ensures Arrives(t, kept, k, last[k]) <==> k in flushed && flushed[k] == laid[k] {
    }
    forall k | k in t && k !in last ensures k in flushed && flushed[k] == laid[k] {
    }
    if forall k :: k in last ==> Arrives(t, kept, k, last[k]) {
      assert flushed.Keys == laid.Keys;
    }
  }

  /** Every last row of the epoch arrives over the last writes before it. */
  ghost predicate EpochArrives(v: View, t: Table, h: nat, stream: seq<TraceOperation>) {
    var epoch := Epoch(h, stream);
    forall k :: k in Overwritten(v, epoch) ==>
      Arrives(LastWrites(v, t, Earlier(h, stream)), Kept(v, epoch), k, Overwritten(v, epoch)[k])
  }

  // ---------------------------------------------------------------- flushes against the stream

  /** The flush that trace n sets off, if any, commits exactly the last writes so far. */
  ghost predicate FlushCommitsAt(v: View, start: Pipe, stream: seq<TraceOperation>, n: nat)
    requires n < |stream|
  {
    var u := Follow(v, start, stream[..n]);
    OpensEpoch(u.lastHeight, stream[n]) ==>
      FlushTable(u.table, v.chain, u.cache) == LastWrites(v, start.table, stream[..n])
  }

  ghost predicate FlushesCommit(v: View, start: Pipe, stream: seq<TraceOperation>) {
    forall n :: 0 <= n < |stream| ==> FlushCommitsAt(v, start, stream, n)
  }

  /** If trace n opens an epoch, the last rows of the one it ends arrive. */
  ghost predicate EpochArrivesAt(v: View, t: Table, h: nat, stream: seq<TraceOperation>, n: nat)
    requires n < |stream|
  {
    OpensEpoch(EpochAfter(h, stream[..n]), stream[n]) ==> EpochArrives(v, t, h, stream[..n])
  }

  ghost predicate EpochsArrive(v: View, t: Table, h: nat, stream: seq<TraceOperation>) {
    forall n :: 0 <= n < |stream| ==> EpochArrivesAt(v, t, h, stream, n)
  }

  lemma SamePrefix(v: View, start: Pipe, stream: seq<TraceOperation>, n: nat)
    requires n < |stream| - 1
    ensures var front := stream[..|stream| - 1];
            && (FlushCommitsAt(v, start, stream, n) <==> FlushCommitsAt(v, start, front, n))
            && (EpochArrivesAt(v, start.table, start.lastHeight, stream, n)
                <==> EpochArrivesAt(v, start.table, start.lastHeight, front, n))
  {
    var front := stream[..|stream| - 1];
    assert stream[..n] == front[..n] && stream[n] == front[n];
  }

  lemma CommitsSnoc(v: View, start: Pipe, stream: seq<TraceOperation>)
    requires stream != []
    ensures FlushesCommit(v, start, stream) <==>
              FlushesCommit(v, start, stream[..|stream| - 1]) && FlushCommitsAt(v, start, stream, |stream| - 1)
    ensures var t, h := start.table, start.lastHeight;
            EpochsArrive(v, t, h, stream) <==>
              EpochsArrive(v, t, h, stream[..|stream| - 1]) && EpochArrivesAt(v, t, h, stream, |stream| - 1)
  {
    hide FlushCommitsAt, EpochArrivesAt;
    var front := stream[..|stream| - 1];
    forall n | 0 <= n < |front|
      ensures FlushCommitsAt(v, start, stream, n) <==> FlushCommitsAt(v, start, front, n)
      ensures EpochArrivesAt(v, start.table, start.lastHeight, stream, n)
         <==> EpochArrivesAt(v, start.table, start.lastHeight, front, n)
    {
      SamePrefix(v, start, stream, n);
    }
  }

  /** The table between two flushes is that of the last writes before the last opening. */
  ghost predicate TableRead(v: View, start: Pipe, stream: seq<TraceOperation>) {
    Follow(v, start, stream).table == LastWrites(v, start.table, Earlier(start.lastHeight, stream))
  }

  /** One flush in such a state commits the last writes exactly when the epoch's last rows arrive. */
  lemma NextFlush(v: View, start: Pipe, stream: seq<TraceOperation>)
    requires start.cache == Writes(map[]) && TableRead(v, start, stream)
    ensures FlushTable(Follow(v, start, stream).table, v.chain, Follow(v, start, stream).cache)
         == LastWrites(v, start.table, stream)
       <==> EpochArrives(v, start.table, start.lastHeight, stream)
  {
    hide Follow, LastWrites, Arrives, UpsertMap, AllLive, Overwritten, LastRows, Delivered, Epoch, Earlier;
    var h := start.lastHeight;
    var until, epoch := LastWrites(v, start.table, Earlier(h, stream)), Epoch(h, stream);
    CacheIsLastRows(v, start, stream);
    KeptIsWritten(v, epoch);
    FlushArrivesIff(until, Kept(v, epoch), Overwritten(v, epoch));
    CutAtOpening(h, stream);
    LastWritesAppend(v, start.table, Earlier(h, stream), epoch);
    LastWritesOverlay(v, until, epoch);
  }

  /** While every epoch's last rows have arrived, the table is as read off the stream. */
  lemma {:induction false} TableIsRead(v: View, start: Pipe, stream: seq<TraceOperation>)
    requires start.cache == Writes(map[]) && EpochsArrive(v, start.table, start.lastHeight, stream)
    ensures TableRead(v, start, stream)
    decreases |stream|
  {
    if stream != [] {
      hide TableRead, EpochsArrive;
      CommitsSnoc(v, start, stream);
      TableIsRead(v, start, stream[..|stream| - 1]);
      TableReadGrows(v, start, stream);
    }
  }

  lemma TableReadGrows(v: View, start: Pipe, stream: seq<TraceOperation>)
    requires stream != [] && start.cache == Writes(map[]) && TableRead(v, start, stream[..|stream| - 1])
    requires EpochArrivesAt(v, start.table, start.lastHeight, stream, |stream| - 1)
    ensures TableRead(v, start, stream)
  {
    hide EpochArrives, FlushTable, LastWrites, Epoch, LastRows;
    var front := stream[..|stream| - 1];
    CacheIsLastRows(v, start, front);
    NextFlush(v, start, front);
  }

  /**
    For every stream, heights in any order, rows of any height and cached under any key: each flush of the run commits
    exactly the last writes so far if and only if, in the stream itself, whenever an epoch ends each last row of it
    arrives: it is among the rows that the epoch leaves one per cache key, their columns being pairwise distinct, and is
    newer than the last write before the epoch, or it already was that last write and no newer row comes in its place.
  */
  lemma {:induction false} FlushesCommitIff(v: View, start: Pipe, stream: seq<TraceOperation>)
    requires start.cache == Writes(map[])
    ensures FlushesCommit(v, start, stream) <==> EpochsArrive(v, start.table, start.lastHeight, stream)
    decreases |stream|
  {
    if stream != [] {
      hide FlushesCommit, EpochsArrive, TableRead, EpochArrives, FlushTable, Follow, LastWrites;
      var front := stream[..|stream| - 1];
      CommitsSnoc(v, start, stream);
      FlushesCommitIff(v, start, front);
      if EpochsArrive(v, start.table, start.lastHeight, front) {
        TableIsRead(v, start, front);
        NextFlush(v, start, front);
        CacheIsLastRows(v, start, front);
      }
    } else {
      NothingToCommit(v, start);
    }
  }

  lemma NothingToCommit(v: View, start: Pipe)
    ensures FlushesCommit(v, start, []) && EpochsArrive(v, start.table, start.lastHeight, [])
  {
  }

  // ---------------------------------------------------------------- rows under their own keys

  /** No row written since comes after a different row of its key that is as new. */
  ghost predicate NoneStale(until: Table, since: map<Key, Row>) {
    forall k :: k in since && k in until ==> Commits(until, since, k)
  }

  /** If trace n opens an epoch, no row written in the epoch it ends comes after a different row that is as new. */
  ghost predicate NothingStaleAt(v: View, t: Table, h: nat, stream: seq<TraceOperation>, n: nat)
    requires n < |stream|
  {
    OpensEpoch(EpochAfter(h, stream[..n]), stream[n]) ==>
      NoneStale(LastWrites(v, t, Earlier(h, stream[..n])), Overwritten(v, Epoch(h, stream[..n])))
  }

  ghost predicate NothingStale(v: View, t: Table, h: nat, stream: seq<TraceOperation>) {
    forall n :: 0 <= n < |stream| ==> NothingStaleAt(v, t, h, stream, n)
  }

  /** Rows that name their cache keys are kept one per conflict key. */
  lemma {:induction false} KeyedRowsAreKept(v: View, block: seq<TraceOperation>)
    requires Keyed(v, block)
    ensures WellKeyed(LastRows(v.cfg, v.mapped, block))
    ensures Stamp(LastRows(v.cfg, v.mapped, block), v.chain) == Overwritten(v, block)
    decreases |block|
  {
    NothingStamped(v.chain);
    if block != [] {
      hide Keyed, Stamp;
      var front, last := block[..|block| - 1], block[|block| - 1];
      KeyedFront(v, block);
      KeyedRowsAreKept(v, front);
      if Accepted(v, last) {
        StampGrows(LastRows(v.cfg, v.mapped, front), v.chain, v.cfg.unmarshal(last).value);
      }
    }
  }

  lemma KeyedEpochArrivesIff(v: View, t: Table, h: nat, stream: seq<TraceOperation>)
    requires Keyed(v, stream)
    ensures EpochArrives(v, t, h, stream)
       <==> NoneStale(LastWrites(v, t, Earlier(h, stream)), Overwritten(v, Epoch(h, stream)))
  {
    hide Keyed, Stamp, Delivered, Overwritten, LastRows, LastWrites, Epoch, Earlier, WellKeyed;
    var epoch := Epoch(h, stream);
    KeyedEpoch(v, h, stream);
    KeyedRowsAreKept(v, epoch);
    DeliveredOfKeyed(LastRows(v.cfg, v.mapped, epoch), v.chain);
    assert Kept(v, epoch) == Overwritten(v, epoch);
    AllArriveIff(LastWrites(v, t, Earlier(h, stream)), Overwritten(v, epoch));
  }

  lemma AllArriveIff(until: Table, since: map<Key, Row>)
    ensures (forall k :: k in since ==> Arrives(until, since, k, since[k])) <==> NoneStale(until, since)
  {
    forall k | k in since ensures Arrives(until, since, k, since[k]) <==> (k in until ==> Commits(until, since, k)) {
    }
  }

  /**
    When the rows name their cache keys: each flush commits exactly the last writes so far if and only if, whenever an
    epoch ends, no row last written in it comes after a different last write of its key of the same height or newer.
  */
  lemma KeyedFlushesCommitIff(v: View, start: Pipe, stream: seq<TraceOperation>)
    requires start.cache == Writes(map[]) && Keyed(v, stream)
    ensures FlushesCommit(v, start, stream) <==> NothingStale(v, start.table, start.lastHeight, stream)
  {
    hide Keyed, FlushesCommit, EpochArrives, NoneStale, Overwritten, LastWrites, Epoch, Earlier, EpochAfter;
    FlushesCommitIff(v, start, stream);
    forall n | 0 <= n < |stream|
      ensures EpochArrivesAt(v, start.table, start.lastHeight, stream, n)
         <==> NothingStaleAt(v, start.table, start.lastHeight, stream, n)
    {
      assert stream == stream[..n] + stream[n..];
      KeyedHalves(v, stream[..n], stream[n..]);
      KeyedEpochArrivesIff(v, start.table, start.lastHeight, stream[..n]);
    }
  }

  // ---------------------------------------------------------------- which flushes the database runs

  /** The rows of any two such traces differ in their columns. */
  ghost predicate LastRowsDiffer(cfg: Config, mapped: set<string>, block: seq<TraceOperation>) {
    forall i, j :: 0 <= i < j < |block| && IsLast(cfg, mapped, block, i) && IsLast(cfg, mapped, block, j) ==>
      cfg.unmarshal(block[i]).value.columns != cfg.unmarshal(block[j]).value.columns
  }

  /**
    The rows that traces leave one per cache key have pairwise distinct columns if and only if the last ones differ.
  */
  lemma LastRowsDistinctIff(cfg: Config, mapped: set<string>, block: seq<TraceOperation>)
    ensures DistinctColumns(LastRows(cfg, mapped, block)) <==> LastRowsDiffer(cfg, mapped, block)
  {
    hide LastRows, WritesRow;
    var rows := LastRows(cfg, mapped, block);
    if DistinctColumns(rows) {
      LastRowsTold(cfg, mapped, block);
    } else {
      var k, l :| k in rows && l in rows && k != l && rows[k].columns == rows[l].columns;
      var i := LastRowHasTrace(cfg, mapped, block, k);
      var j := LastRowHasTrace(cfg, mapped, block, l);
      LastRowAt(cfg, mapped, block, i);
      LastRowAt(cfg, mapped, block, j);
    }
  }

  lemma LastRowsTold(cfg: Config, mapped: set<string>, block: seq<TraceOperation>)
    requires DistinctColumns(LastRows(cfg, mapped, block))
    ensures LastRowsDiffer(cfg, mapped, block)
  {
    hide LastRows;
    forall i, j | 0 <= i < j < |block| && IsLast(cfg, mapped, block, i) && IsLast(cfg, mapped, block, j)
      ensures cfg.unmarshal(block[i]).value.columns != cfg.unmarshal(block[j]).value.columns
    {
      LastRowAt(cfg, mapped, block, i);
      LastRowAt(cfg, mapped, block, j);
    }
  }

  /** Whenever trace n opens an epoch, the last rows of the one it ends differ in their columns. */
  ghost predicate OpeningsDiffer(cfg: Config, mapped: set<string>, h: nat, stream: seq<TraceOperation>) {
    forall n :: 0 <= n < |stream| && OpensEpoch(EpochAfter(h, stream[..n]), stream[n]) ==>
      LastRowsDiffer(cfg, mapped, Epoch(h, stream[..n]))
  }

  lemma OpeningsSnoc(cfg: Config, mapped: set<string>, h: nat, stream: seq<TraceOperation>)
    requires stream != []
    ensures var front := stream[..|stream| - 1];
            OpeningsDiffer(cfg, mapped, h, stream) <==>
              && OpeningsDiffer(cfg, mapped, h, front)
              && (OpensEpoch(EpochAfter(h, front), stream[|stream| - 1]) ==>
                    LastRowsDiffer(cfg, mapped, Epoch(h, front)))
  {
    hide LastRowsDiffer, Epoch, EpochAfter, OpensEpoch;
    var front := stream[..|stream| - 1];
    assert forall n :: 0 <= n < |front| ==> stream[..n] == front[..n] && stream[n] == front[n];
  }

  /** No op names a conflict key twice, which is when the database runs an upsert. */
  ghost predicate Runs(ops: seq<WritebackOp>) {
    forall op :: op in ops ==> DistinctKeys(op.data)
  }

  ghost predicate AllRun(parts: seq<seq<seq<WritebackOp>>>, i: nat) {
    forall j :: 0 <= j < |parts| && i < |parts[j]| ==> Runs(parts[j][i])
  }

  lemma AllRunSnoc(front: seq<seq<seq<WritebackOp>>>, last: seq<seq<WritebackOp>>, i: nat)
    ensures AllRun(front + [last], i) <==> AllRun(front, i) && (i < |last| ==> Runs(last[i]))
  {
    hide Runs;
    var parts := front + [last];
    assert forall j :: 0 <= j < |front| ==> parts[j] == front[j];
    assert parts[|front|] == last;
  }

  lemma FlushRunsIff(cfg: Config, chain: string, useDBUpsert: bool, rows: RowCache, ops: seq<WritebackOp>)
    requires Emits(cfg, chain, useDBUpsert, Writes(rows), ops)
    ensures Runs(ops) <==> DistinctColumns(rows)
  {
    hide Lists, DistinctKeys, StampRows, DistinctColumns;
    if rows == map[] {
      NothingClashes();
    } else {
      ListedKeysDistinctIff(ops[0].data, rows, chain);
      assert ops == [ops[0]];
    }
  }

  lemma NothingClashes()
    ensures DistinctColumns(map[])
  {
  }

  /** One module's epoch and cache in the run of the whole processor. */
  lemma ModuleLastRows(
    cfgs: seq<Config>, mapped: set<string>, s: Memory, stream: seq<TraceOperation>, i: nat)
    requires |cfgs| == |s.caches| && i < |cfgs| && s.caches[i] == Writes(map[])
    ensures var r := Steps(cfgs, mapped, s, stream);
            && r.lastHeight == EpochAfter(s.lastHeight, stream)
            && r.caches[i] == Writes(LastRows(cfgs[i], mapped, Epoch(s.lastHeight, stream)))
  {
    hide Follow, LastRows, Epoch, FlushSeries;
    var v := View(cfgs[i], mapped, "");
    FollowIsProjection(cfgs, mapped, "", s, map[], stream, i);
    CacheIsLastRows(v, Pipe(s.lastHeight, s.caches[i], map[]), stream);
  }

  /**
    The processor as a whole, whatever the rows of a write-only module are cached under: no op that a run sends for
    the module names a conflict key twice, and so the database runs every upsert of it, if and only if, in the stream
    itself, whenever an epoch ends the last rows it wrote to different cache entries differ in their columns.
  */
  lemma {:induction false} FlushesRunIff(
    cfgs: seq<Config>, mapped: set<string>, chain: string, useDBUpsert: bool, s: Memory, stream: seq<TraceOperation>,
    batches: seq<seq<WritebackOp>>, parts: seq<seq<seq<WritebackOp>>>, i: nat)
    requires |cfgs| == |s.caches| && i < |cfgs| && s.caches[i] == Writes(map[])
    requires Sent(cfgs, chain, useDBUpsert, Flushes(cfgs, mapped, s, stream), batches, parts)
    ensures AllRun(parts, i) <==> OpeningsDiffer(cfgs[i], mapped, s.lastHeight, stream)
    decreases |stream|
  {
    if stream != [] {
      hide *;
      var front, last := stream[..|stream| - 1], stream[|stream| - 1];
      var epoch := Epoch(s.lastHeight, front);
      OpeningsSnoc(cfgs[i], mapped, s.lastHeight, stream);
      ModuleLastRows(cfgs, mapped, s, front, i);
      FlushesGrow(cfgs, mapped, s, stream);
      if OpensEpoch(EpochAfter(s.lastHeight, front), last) {
        var n := |parts| - 1;
        SentFront(
          cfgs, chain, useDBUpsert, Flushes(cfgs, mapped, s, front), Steps(cfgs, mapped, s, front).caches,
          batches, parts, i);
        FlushesRunIff(cfgs, mapped, chain, useDBUpsert, s, front, batches[..n], parts[..n], i);
        LastFlushRunsIff(cfgs[i], mapped, chain, useDBUpsert, epoch, parts, i);
      } else {
        FlushesRunIff(cfgs, mapped, chain, useDBUpsert, s, front, batches, parts, i);
      }
    } else {
      NothingSent(cfgs, mapped, chain, useDBUpsert, s, batches, parts, i);
    }
  }

  lemma LastFlushRunsIff(
    cfg: Config, mapped: set<string>, chain: string, useDBUpsert: bool, epoch: seq<TraceOperation>,
    parts: seq<seq<seq<WritebackOp>>>, i: nat)
    requires parts != [] && i < |parts[|parts| - 1]|
    requires Emits(cfg, chain, useDBUpsert, Writes(LastRows(cfg, mapped, epoch)), parts[|parts| - 1][i])
    ensures AllRun(parts, i) <==> AllRun(parts[..|parts| - 1], i) && LastRowsDiffer(cfg, mapped, epoch)
  {
    hide Emits, AllRun, LastRowsDiffer, LastRows, Runs, DistinctColumns;
    var n := |parts| - 1;
    assert parts == parts[..n] + [parts[n]];
    AllRunSnoc(parts[..n], parts[n], i);
    FlushRunsIff(cfg, chain, useDBUpsert, LastRows(cfg, mapped, epoch), parts[n][i]);
    LastRowsDistinctIff(cfg, mapped, epoch);
  }

  lemma NothingSent(
    cfgs: seq<Config>, mapped: set<string>, chain: string, useDBUpsert: bool, s: Memory,
    batches: seq<seq<WritebackOp>>, parts: seq<seq<seq<WritebackOp>>>, i: nat)
    requires |cfgs| == |s.caches| && i < |cfgs|
    requires Sent(cfgs, chain, useDBUpsert, Flushes(cfgs, mapped, s, []), batches, parts)
    ensures AllRun(parts, i) && OpeningsDiffer(cfgs[i], mapped, s.lastHeight, [])
  {
  }

  lemma FlushesGrow(cfgs: seq<Config>, mapped: set<string>, s: Memory, stream: seq<TraceOperation>)
    requires |cfgs| == |s.caches| && stream != []
    ensures var front := stream[..|stream| - 1];
            var before, earlier := Steps(cfgs, mapped, s, front), Flushes(cfgs, mapped, s, front);
            Flushes(cfgs, mapped, s, stream)
            == if OpensEpoch(before.lastHeight, stream[|stream| - 1]) then earlier + [before.caches] else earlier
  {
  }

  lemma SentFront(
    cfgs: seq<Config>, chain: string, useDBUpsert: bool, earlier: seq<seq<Cache>>, caches: seq<Cache>,
    batches: seq<seq<WritebackOp>>, parts: seq<seq<seq<WritebackOp>>>, i: nat)
    requires Sent(cfgs, chain, useDBUpsert, earlier + [caches], batches, parts) && i < |cfgs|
    ensures var n := |parts| - 1;
            && |parts| == |batches| == |earlier| + 1
            && Sent(cfgs, chain, useDBUpsert, earlier, batches[..n], parts[..n])
            && |parts[n]| == |caches| == |cfgs|
            && Emits(cfgs[i], chain, useDBUpsert, caches[i], parts[n][i])
  {
    hide Emits;
    var all := earlier + [caches];
    assert forall j :: 0 <= j < |earlier| ==> all[j] == earlier[j];
    assert all[|earlier|] == caches;
  }
}
