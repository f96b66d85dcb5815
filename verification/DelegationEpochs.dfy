/**
  Set-update modules over heights in any order. Traces of different blocks may overtake one another on the way to the
  processor, so an epoch may end and a later one have the same or a smaller height. When every flush still agrees with
  plain replay can be read off the stream, given where it leaves soft-deleted rows and of which height.
*/
module DelegationEpochs {
  import opened Wrappers
  import opened Sql
  import opened Modules
  import opened Processing
  import opened Flushing
  import opened Refinement
  import opened Delegations

  // ---------------------------------------------------------------- what the stream says of the rows before

  /** The rows of the plain replay before the last opening. */
  ghost function ReplayedBefore(v: View, t: Table, h: nat, stream: seq<TraceOperation>): map<Key, Row> {
    Replay(v, LiveRows(t), Earlier(h, stream))
  }

  // ---------------------------------------------------------------- soft-deleted rows

  /**
    The height of the key's soft-deleted row after an epoch that wrote w and deleted d last, if at all: a delete marks
    the row that was live, or that the write made live over an older mark, and otherwise finds nothing to mark.
  */
  function NextTomb(live: bool, tomb: Option<nat>, w: Option<Row>, d: Option<Row>): Option<nat> {
    if d.Some? then
      if live || (w.Some? && (tomb.Some? ==> tomb.value < w.value.height)) then Some(d.value.height) else tomb
    else if w.Some? then None
    else tomb
  }

  /** That height before the last opening, for a stream whose flushes have agreed so far. */
  ghost function TombBefore(v: View, t: Table, h: nat, stream: seq<TraceOperation>, k: Key): Option<nat>
    decreases |stream|, 0
  {
    if stream == [] then TombAt(StoredAt(t, k))
    else
      var front, last := stream[..|stream| - 1], stream[|stream| - 1];
      if OpensEpoch(EpochAfter(h, front), last)
      then TombNow(v, t, h, front, k)
      else TombBefore(v, t, h, front, k)
  }

  /** The same after the flush that would end the epoch now. */
  ghost function TombNow(v: View, t: Table, h: nat, stream: seq<TraceOperation>, k: Key): Option<nat>
    decreases |stream|, 1
  {
    NextTomb(
      k in ReplayedBefore(v, t, h, stream), TombBefore(v, t, h, stream, k),
      LastWrite(v, Epoch(h, stream), k), LastDelete(v, Epoch(h, stream), k))
  }

  lemma TombAfterFlush(t: Table, ins: map<Key, Row>, del: map<Key, Row>, k: Key)
    requires k in ins && k !in del ==> Lands(LiveAt(StoredAt(t, k)), TombAt(StoredAt(t, k)), ins[k])
    ensures TombAt(StoredAt(DeleteMap(UpsertMap(t, ins), del), k))
         == NextTomb(LiveAt(StoredAt(t, k)).Some?, TombAt(StoredAt(t, k)), Lookup(ins, k), Lookup(del, k))
  {
  }

  lemma FlushedTombAt(v: View, t: Table, block: seq<TraceOperation>, k: Key)
    requires Keyed(v, block) && WritesLand(v, t, block)
    ensures TombAt(StoredAt(FlushTable(t, v.chain, Gathered(v, block)), k))
         == NextTomb(k in LiveRows(t), TombAt(StoredAt(t, k)), LastWrite(v, block, k), LastDelete(v, block, k))
  {
    hide Keyed, Gathered, NextTomb, TombAt, LastWrite, LastDelete, Deletes, Stamp, UpsertMap, DeleteMap, Lands;
    GatheredRecords(v, block);
    DeletesIff(v, block, k);
    var c := Gathered(v, block);
    TombAfterFlush(t, Stamp(c.inserts, v.chain), Stamp(c.deletes, v.chain), k);
  }

  // ---------------------------------------------------------------- flushes against the stream

  /** The flush that trace n sets off, if any, leaves the live rows of the plain replay so far. */
  ghost predicate FlushReplaysAt(v: View, start: Pipe, stream: seq<TraceOperation>, n: nat)
    requires n < |stream|
  {
    var u := Follow(v, start, stream[..n]);
    OpensEpoch(u.lastHeight, stream[n]) ==>
      CommittedRows(v, u) == Replay(v, LiveRows(start.table), stream[..n])
  }

  ghost predicate FlushesReplay(v: View, start: Pipe, stream: seq<TraceOperation>) {
    forall n :: 0 <= n < |stream| ==> FlushReplaysAt(v, start, stream, n)
  }

  /**
    The write of a key the epoch only writes is newer than the key's row before, live or soft-deleted, or is that row.
  */
  ghost predicate EpochLands(v: View, t: Table, h: nat, stream: seq<TraceOperation>) {
    var epoch := Epoch(h, stream);
    forall k :: LastWrite(v, epoch, k).Some? && !Deletes(v, epoch, k) ==>
      Lands(Lookup(ReplayedBefore(v, t, h, stream), k), TombBefore(v, t, h, stream, k), LastWrite(v, epoch, k).value)
  }

  /** The epoch deletes last what it deletes, and what it only writes lands. */
  ghost predicate EndsWell(v: View, t: Table, h: nat, stream: seq<TraceOperation>) {
    DeletesAreFinal(v, Epoch(h, stream)) && EpochLands(v, t, h, stream)
  }

  /** If trace n opens an epoch, the one it ends ends well. */
  ghost predicate EndsWellAt(v: View, t: Table, h: nat, stream: seq<TraceOperation>, n: nat)
    requires n < |stream|
  {
    OpensEpoch(EpochAfter(h, stream[..n]), stream[n]) ==> EndsWell(v, t, h, stream[..n])
  }

  ghost predicate EpochsEndWell(v: View, t: Table, h: nat, stream: seq<TraceOperation>) {
    forall n :: 0 <= n < |stream| ==> EndsWellAt(v, t, h, stream, n)
  }

  lemma FlushesSnoc(v: View, start: Pipe, stream: seq<TraceOperation>)
    requires stream != []
    ensures FlushesReplay(v, start, stream) <==>
              FlushesReplay(v, start, stream[..|stream| - 1]) && FlushReplaysAt(v, start, stream, |stream| - 1)
  {
    hide FlushReplaysAt;
    var front := stream[..|stream| - 1];
    forall n | 0 <= n < |front| ensures FlushReplaysAt(v, start, stream, n) <==> FlushReplaysAt(v, start, front, n) {
      SamePrefix(v, start, stream, n);
    }
  }

  lemma SamePrefix(v: View, start: Pipe, stream: seq<TraceOperation>, n: nat)
    requires n < |stream| - 1
    ensures var front := stream[..|stream| - 1];
            && (FlushReplaysAt(v, start, stream, n) <==> FlushReplaysAt(v, start, front, n))
            && (EndsWellAt(v, start.table, start.lastHeight, stream, n)
                <==> EndsWellAt(v, start.table, start.lastHeight, front, n))
  {
    var front := stream[..|stream| - 1];
    assert stream[..n] == front[..n] && stream[n] == front[n];
  }

  lemma EpochsSnoc(v: View, start: Pipe, stream: seq<TraceOperation>)
    requires stream != []
    ensures var t, h := start.table, start.lastHeight;
            EpochsEndWell(v, t, h, stream) <==>
              EpochsEndWell(v, t, h, stream[..|stream| - 1]) && EndsWellAt(v, t, h, stream, |stream| - 1)
  {
    hide EndsWellAt;
    var front := stream[..|stream| - 1];
    forall n | 0 <= n < |front|
      ensures EndsWellAt(v, start.table, start.lastHeight, stream, n)
         <==> EndsWellAt(v, start.table, start.lastHeight, front, n)
    {
      SamePrefix(v, start, stream, n);
    }
  }

  lemma {:induction false} CacheIsGathered(v: View, start: Pipe, stream: seq<TraceOperation>)
    requires start.cache == Updates(map[], map[])
    ensures var u := Follow(v, start, stream);
            && u.lastHeight == EpochAfter(start.lastHeight, stream)
            && u.cache == Gathered(v, Epoch(start.lastHeight, stream))
    decreases |stream|
  {
    if stream != [] {
      var front, last := stream[..|stream| - 1], stream[|stream| - 1];
      CacheIsGathered(v, start, front);
      GatheredIsUpdates(v, Epoch(start.lastHeight, front));
      var epoch, opens := Epoch(start.lastHeight, stream), OpensEpoch(EpochAfter(start.lastHeight, front), last);
      assert epoch[..|epoch| - 1] == if opens then [] else Epoch(start.lastHeight, front);
    }
  }

  /** The table between two flushes, read off the stream: live rows by replay, soft-deleted ones by their heights. */
  ghost predicate TableRead(v: View, start: Pipe, stream: seq<TraceOperation>) {
    var u := Follow(v, start, stream);
    && LiveRows(u.table) == ReplayedBefore(v, start.table, start.lastHeight, stream)
    && forall k :: TombAt(StoredAt(u.table, k)) == TombBefore(v, start.table, start.lastHeight, stream, k)
  }

  lemma ReadLands(v: View, start: Pipe, stream: seq<TraceOperation>)
    requires TableRead(v, start, stream)
    ensures WritesLand(v, Follow(v, start, stream).table, Epoch(start.lastHeight, stream))
       <==> EpochLands(v, start.table, start.lastHeight, stream)
  {
    hide Follow, LastWrite, Deletes, TombBefore, ReplayedBefore, Epoch, Lands, TombAt;
    var t := Follow(v, start, stream).table;
    forall k ensures LiveAt(StoredAt(t, k)) == Lookup(LiveRows(t), k) {
    }
  }

  /** One flush in a state read off the stream: it agrees exactly when the epoch ends well. */
  lemma NextFlush(v: View, start: Pipe, stream: seq<TraceOperation>)
    requires start.cache == Updates(map[], map[]) && Keyed(v, stream) && TableRead(v, start, stream)
    ensures CommittedRows(v, Follow(v, start, stream)) == Replay(v, LiveRows(start.table), stream)
       <==> EndsWell(v, start.table, start.lastHeight, stream)
  {
    hide Follow, DeletesAreFinal, WritesLand, EpochLands, FlushTable, LiveRows, Keyed, Epoch, Earlier, TombBefore;
    var u, h := Follow(v, start, stream), start.lastHeight;
    CacheIsGathered(v, start, stream);
    KeyedEpoch(v, h, stream);
    FlushAgreesIff(v, u.table, Epoch(h, stream));
    ReadLands(v, start, stream);
    CutAtOpening(h, stream);
    ReplayAppend(v, LiveRows(start.table), Earlier(h, stream), Epoch(h, stream));
  }

  lemma NextTombs(v: View, start: Pipe, stream: seq<TraceOperation>, k: Key)
    requires start.cache == Updates(map[], map[]) && Keyed(v, stream) && TableRead(v, start, stream)
    requires EpochLands(v, start.table, start.lastHeight, stream)
    ensures TombAt(StoredAt(Flushed(v, Follow(v, start, stream)), k))
         == TombNow(v, start.table, start.lastHeight, stream, k)
  {
    hide Follow, WritesLand, EpochLands, FlushTable, LiveRows, Keyed, Epoch, TombBefore, NextTomb, LastWrite,
      LastDelete, TombAt;
    CacheIsGathered(v, start, stream);
    KeyedEpoch(v, start.lastHeight, stream);
    ReadLands(v, start, stream);
    FlushedTombAt(v, Follow(v, start, stream).table, Epoch(start.lastHeight, stream), k);
  }

  /** While every epoch so far has ended well, the table is as read off the stream. */
  lemma {:induction false} TableIsRead(v: View, start: Pipe, stream: seq<TraceOperation>)
    requires start.cache == Updates(map[], map[]) && Keyed(v, stream)
    requires EpochsEndWell(v, start.table, start.lastHeight, stream)
    ensures TableRead(v, start, stream)
    decreases |stream|
  {
    if stream == [] {
      NothingRead(v, start);
    } else {
      hide TableRead, Keyed, EpochsEndWell;
      var front := stream[..|stream| - 1];
      EpochsSnoc(v, start, stream);
      KeyedFront(v, stream);
      TableIsRead(v, start, front);
      TableReadGrows(v, start, stream);
    }
  }

  lemma NothingRead(v: View, start: Pipe)
    ensures TableRead(v, start, [])
  {
  }

  lemma TableReadGrows(v: View, start: Pipe, stream: seq<TraceOperation>)
    requires stream != [] && start.cache == Updates(map[], map[])
    requires Keyed(v, stream[..|stream| - 1]) && TableRead(v, start, stream[..|stream| - 1])
    requires EndsWellAt(v, start.table, start.lastHeight, stream, |stream| - 1)
    ensures TableRead(v, start, stream)
  {
    hide Keyed, DeletesAreFinal, EpochLands, FlushTable, LiveRows, Epoch, NextTomb, TombAt, LastWrite, LastDelete;
    var front, last := stream[..|stream| - 1], stream[|stream| - 1];
    CacheIsGathered(v, start, front);
    if OpensEpoch(EpochAfter(start.lastHeight, front), last) {
      NextFlush(v, start, front);
      forall k { NextTombs(v, start, front, k); }
    }
  }

  /**
    For every stream whose rows name their cache keys, heights in any order and rows of any height: after every flush of
    the run the live rows are those of replaying writes and deletes one by one if and only if, in the stream itself,
    whenever an epoch ends it deletes last each key it deletes, and each key it only writes it writes newer than the row
    the stream so far leaves there, live or soft-deleted, or as exactly that live row.
  */
  lemma {:induction false} FlushesReplayIff(v: View, start: Pipe, stream: seq<TraceOperation>)
    requires start.cache == Updates(map[], map[]) && Keyed(v, stream)
    ensures FlushesReplay(v, start, stream) <==> EpochsEndWell(v, start.table, start.lastHeight, stream)
    decreases |stream|
  {
    if stream != [] {
      hide Keyed, FlushesReplay, EpochsEndWell, TableRead, DeletesAreFinal, EpochLands, FlushTable, Follow, Epoch,
        LiveRows;
      var front := stream[..|stream| - 1];
      FlushesSnoc(v, start, stream);
      EpochsSnoc(v, start, stream);
      KeyedFront(v, stream);
      FlushesReplayIff(v, start, front);
      if EpochsEndWell(v, start.table, start.lastHeight, front) {
        TableIsRead(v, start, front);
        NextFlush(v, start, front);
        CacheIsGathered(v, start, front);
      }
    } else {
      NothingToReplay(v, start);
    }
  }

  lemma NothingToReplay(v: View, start: Pipe)
    ensures FlushesReplay(v, start, []) && EpochsEndWell(v, start.table, start.lastHeight, [])
  {
  }
}
