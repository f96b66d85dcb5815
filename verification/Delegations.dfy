/**
  The set-update modules against plain replay of their writes and deletes (tracelistener/processor/delegations.go).
  A flush runs all writes of the block before all its deletes, so the two agree on some blocks and not on others.
*/
module Delegations {
  import opened Wrappers
  import opened Sql
  import opened TableLaws
  import opened Chunking
  import opened Modules
  import opened Processing
  import opened Flushing
  import opened Refinement
  import Keys

  /** The rows a reader of the table sees. */
  function LiveRows(t: Table): map<Key, Row> {
    map k | k in t && t[k].deleteHeight.None? :: t[k].row
  }

  function Remove(m: map<Key, Row>, k: Key): map<Key, Row> {
    m - {k}
  }

  /** The plain map: a write sets its key, a delete removes it, one trace at a time. */
  ghost function Replay(v: View, m: map<Key, Row>, stream: seq<TraceOperation>): map<Key, Row>
    decreases |stream|
  {
    if stream == [] then m
    else
      var before := Replay(v, m, stream[..|stream| - 1]);
      var last := stream[|stream| - 1];
      if !Accepted(v, last) then before
      else if last.operation == DELETE_OP then Remove(before, KeyOf(RowOf(v, last)))
      else before[KeyOf(RowOf(v, last)) := RowOf(v, last)]
  }

  lemma {:induction false} ReplayAppend(v: View, m: map<Key, Row>, a: seq<TraceOperation>, b: seq<TraceOperation>)
    ensures Replay(v, m, a + b) == Replay(v, Replay(v, m, a), b)
    decreases |b|
  {
    if b == [] {
      assert a + b == a;
    } else {
      ReplayAppend(v, m, a, b[..|b| - 1]);
      assert (a + b)[..|a + b| - 1] == a + b[..|b| - 1];
    }
  }

  function Lookup(m: map<Key, Row>, k: Key): Option<Row> {
    if k in m then Some(m[k]) else None
  }

  /** The replay keeps what it had under a key of which no trace has a row. */
  lemma {:induction false} UntakenIsReplayed(
    v: View, m: map<Key, Row>, stream: seq<TraceOperation>, columns: seq<string>)
    requires Untaken(v, stream, 0, columns)
    ensures Lookup(Replay(v, m, stream), Key(v.chain, columns)) == Lookup(m, Key(v.chain, columns))
    decreases |stream|
  {
    if stream != [] {
      UntakenIsReplayed(v, m, stream[..|stream| - 1], columns);
      TakesRowIff(v, stream[|stream| - 1], columns);
    }
  }

  /**
    Of a key that traces touch the replay holds what the last of them says: nothing if it is a delete, and otherwise the
    row it decoded to, with its own height, columns and values, under the chain's name.
  */
  lemma {:induction false} LastTraceReplayed(
    v: View, m: map<Key, Row>, stream: seq<TraceOperation>, n: nat, row: Row)
    requires n < |stream| && v.cfg.unmarshal(stream[n]) == Ok(row) && TakesRow(v, stream[n], row.columns)
    requires Untaken(v, stream, n + 1, row.columns)
    ensures Lookup(Replay(v, m, stream), Key(v.chain, row.columns))
         == if stream[n].operation == "delete" then None
            else Some(Row(v.chain, row.height, row.columns, row.values))
    decreases |stream|
  {
    var front, last := stream[..|stream| - 1], stream[|stream| - 1];
    TakesRowIff(v, last, row.columns);
    if n < |stream| - 1 {
      LastTraceReplayed(v, m, front, n, row);
    }
  }

  // ---------------------------------------------------------------- rows of a block

  /**
    The row has its trace's height, or sits under the module's skip key and is deleted: the v42 decoder answers a delete
    whose key is too short to hold two addresses with a zero row and no error.
  */
  predicate Dated(skip: SkipRow, r: Row, data: TraceOperation) {
    if IsSkipKey(skip, KeyOf(r)) then data.operation == DELETE_OP else r.height == data.blockHeight
  }

  /** Every accepted trace decodes to a row so dated that names its cache key. */
  ghost predicate RowsDated(v: View, skip: SkipRow, stream: seq<TraceOperation>) {
    Keyed(v, stream) && forall i :: 0 <= i < |stream| && Accepted(v, stream[i]) ==>
         Dated(skip, RowOf(v, stream[i]), stream[i])
  }

  lemma RowsDatedFront(v: View, skip: SkipRow, stream: seq<TraceOperation>)
    requires stream != [] && RowsDated(v, skip, stream)
    ensures RowsDated(v, skip, stream[..|stream| - 1])
    ensures var data := stream[|stream| - 1];
            Accepted(v, data) ==> NamesItsKey(v.cfg, data) && Dated(skip, RowOf(v, data), data)
  {
    KeyedFront(v, stream);
    assert forall i :: 0 <= i < |stream| - 1 ==> stream[..|stream| - 1][i] == stream[i];
  }

  /** The table has rows below height h only, and none under the skip key. */
  ghost predicate Older(t: Table, skip: SkipRow, h: nat) {
    forall k :: k in t ==> !IsSkipKey(skip, k) && t[k].row.height < h
  }

  /** Rows of height h, and none under the skip key. */
  ghost predicate AllAt(m: map<Key, Row>, skip: SkipRow, h: nat) {
    forall k :: k in m ==> !IsSkipKey(skip, k) && m[k].height == h
  }

  /** Rows of height h, but for the skip key. */
  ghost predicate OthersAt(m: map<Key, Row>, skip: SkipRow, h: nat) {
    forall k :: k in m && !IsSkipKey(skip, k) ==> m[k].height == h
  }

  // ---------------------------------------------------------------- what a block says about a key

  ghost predicate Touches(v: View, data: TraceOperation, k: Key) {
    Accepted(v, data) && KeyOf(RowOf(v, data)) == k
  }

  ghost predicate Deletes(v: View, block: seq<TraceOperation>, k: Key) {
    exists i :: 0 <= i < |block| && Touches(v, block[i], k) && block[i].operation == DELETE_OP
  }

  /** The last trace of the block that touches the key is a delete. */
  ghost predicate EndsDeleted(v: View, block: seq<TraceOperation>, k: Key) {
    exists i :: 0 <= i < |block| && Touches(v, block[i], k) && block[i].operation == DELETE_OP
      && forall j :: i < j < |block| ==> !Touches(v, block[j], k)
  }

  /** Every key the block deletes, it deletes last: no deleted key is left written again. */
  ghost predicate DeletesAreFinal(v: View, block: seq<TraceOperation>) {
    forall k :: Deletes(v, block, k) ==> EndsDeleted(v, block, k)
  }

  /** The row of the last write to the key, whatever deletes surround it. */
  ghost function LastWrite(v: View, block: seq<TraceOperation>, k: Key): Option<Row>
    decreases |block|
  {
    if block == [] then None
    else
      var last := block[|block| - 1];
      if Touches(v, last, k) && last.operation != DELETE_OP then Some(RowOf(v, last))
      else LastWrite(v, block[..|block| - 1], k)
  }

  /** The row of the last delete of the key, whatever writes surround it. */
  ghost function LastDelete(v: View, block: seq<TraceOperation>, k: Key): Option<Row>
    decreases |block|
  {
    if block == [] then None
    else
      var last := block[|block| - 1];
      if Touches(v, last, k) && last.operation == DELETE_OP then Some(RowOf(v, last))
      else LastDelete(v, block[..|block| - 1], k)
  }

  lemma {:induction false} DeletesIff(v: View, block: seq<TraceOperation>, k: Key)
    ensures Deletes(v, block, k) <==> LastDelete(v, block, k).Some?
    decreases |block|
  {
    if block != [] {
      var front, data := block[..|block| - 1], block[|block| - 1];
      assert block == front + [data];
      DeletesIff(v, front, k);
      DeletesSnoc(v, front, data, k);
    }
  }

  lemma DeletesSnoc(v: View, block: seq<TraceOperation>, data: TraceOperation, k: Key)
    ensures Deletes(v, block + [data], k) <==>
              Deletes(v, block, k) || (Touches(v, data, k) && data.operation == DELETE_OP)
  {
    hide Touches;
    var all := block + [data];
    assert all[|block|] == data;
    if Deletes(v, block, k) {
      var i :| 0 <= i < |block| && Touches(v, block[i], k) && block[i].operation == DELETE_OP;
      assert all[i] == block[i];
    }
  }

  lemma EndsDeletedSnoc(v: View, block: seq<TraceOperation>, data: TraceOperation, k: Key)
    ensures EndsDeleted(v, block + [data], k) <==>
              if Touches(v, data, k) then data.operation == DELETE_OP else EndsDeleted(v, block, k)
  {
    hide Touches;
    var all := block + [data];
    assert all[|block|] == data;
    if EndsDeleted(v, block, k) {
      var i :| 0 <= i < |block| && Touches(v, block[i], k) && block[i].operation == DELETE_OP
        && forall j :: i < j < |block| ==> !Touches(v, block[j], k);
      assert all[i] == block[i];
    }
    if EndsDeleted(v, all, k) && !Touches(v, data, k) {
      var i :| 0 <= i < |all| && Touches(v, all[i], k) && all[i].operation == DELETE_OP
        && forall j :: i < j < |all| ==> !Touches(v, all[j], k);
      assert forall j :: i < j < |block| ==> block[j] == all[j];
    }
  }

  /** The cache after a block that began with empty caches. */
  ghost function Gathered(v: View, block: seq<TraceOperation>): Cache
    decreases |block|
  {
    if block == [] then Updates(map[], map[])
    else Received(v.cfg, v.mapped, Gathered(v, block[..|block| - 1]), block[|block| - 1])
  }

  ghost predicate SameHeight(block: seq<TraceOperation>, h: nat) {
    forall i :: 0 <= i < |block| ==> block[i].blockHeight == h
  }

  /** The caches hold, per key, the block's last write and its last delete. */
  ghost predicate Records(v: View, block: seq<TraceOperation>, c: Cache) {
    && c.Updates?
    && forall k ::
         && Lookup(Stamp(c.inserts, v.chain), k) == LastWrite(v, block, k)
         && Lookup(Stamp(c.deletes, v.chain), k) == LastDelete(v, block, k)
  }

  /** The caches after a block of rows of any height, as long as the rows name their cache keys. */
  lemma {:induction false} GatheredRecords(v: View, block: seq<TraceOperation>)
    requires Keyed(v, block)
    ensures Records(v, block, Gathered(v, block))
    decreases |block|
  {
    if block == [] {
      NothingStamped(v.chain);
    } else {
      hide Records, Keyed;
      var front, data := block[..|block| - 1], block[|block| - 1];
      KeyedFront(v, block);
      GatheredRecords(v, front);
      RecordsGrow(v, front, data, Gathered(v, front));
      assert block == front + [data];
    }
  }

  lemma RecordsGrow(v: View, front: seq<TraceOperation>, data: TraceOperation, c: Cache)
    requires Records(v, front, c) && (Accepted(v, data) ==> NamesItsKey(v.cfg, data))
    ensures Records(v, front + [data], Received(v.cfg, v.mapped, c, data))
  {
    hide Stamp;
    var block := front + [data];
    assert block[..|block| - 1] == front && block[|block| - 1] == data;
    if Accepted(v, data) {
      var row := v.cfg.unmarshal(data).value;
      StampGrows(c.inserts, v.chain, row);
      StampGrows(c.deletes, v.chain, row);
    }
    var c' := Received(v.cfg, v.mapped, c, data);
    forall k
      ensures Lookup(Stamp(c'.inserts, v.chain), k) == LastWrite(v, block, k)
      ensures Lookup(Stamp(c'.deletes, v.chain), k) == LastDelete(v, block, k)
    {
      assert Lookup(Stamp(c.inserts, v.chain), k) == LastWrite(v, front, k);
    }
  }

  /** In a block of one height the caches' rows have that height, but for what is deleted under the skip key. */
  lemma GatheredDated(v: View, skip: SkipRow, block: seq<TraceOperation>, h: nat)
    requires SameHeight(block, h) && RowsDated(v, skip, block)
    ensures var c := Gathered(v, block);
            && c.Updates? && Records(v, block, c)
            && AllAt(Stamp(c.inserts, v.chain), skip, h) && OthersAt(Stamp(c.deletes, v.chain), skip, h)
  {
    hide Stamp, LastWrite, LastDelete;
    GatheredRecords(v, block);
    var c := Gathered(v, block);
    forall k | k in Stamp(c.inserts, v.chain)
      ensures !IsSkipKey(skip, k) && Stamp(c.inserts, v.chain)[k].height == h
    {
      LastRowsDated(v, skip, block, h, k);
    }
    forall k | k in Stamp(c.deletes, v.chain) && !IsSkipKey(skip, k) ensures Stamp(c.deletes, v.chain)[k].height == h {
      LastRowsDated(v, skip, block, h, k);
    }
  }

  lemma {:induction false} LastRowsDated(v: View, skip: SkipRow, block: seq<TraceOperation>, h: nat, k: Key)
    requires SameHeight(block, h) && RowsDated(v, skip, block)
    ensures LastWrite(v, block, k).Some? ==> !IsSkipKey(skip, k) && LastWrite(v, block, k).value.height == h
    ensures LastDelete(v, block, k).Some? && !IsSkipKey(skip, k) ==> LastDelete(v, block, k).value.height == h
    decreases |block|
  {
    if block != [] {
      hide RowsDated;
      RowsDatedFront(v, skip, block);
      LastRowsDated(v, skip, block[..|block| - 1], h, k);
    }
  }

  lemma {:induction false} ReplayAt(v: View, m: map<Key, Row>, block: seq<TraceOperation>, k: Key)
    ensures EndsDeleted(v, block, k) ==> k !in Replay(v, m, block)
    ensures !EndsDeleted(v, block, k) && LastWrite(v, block, k).Some? ==>
              k in Replay(v, m, block) && Replay(v, m, block)[k] == LastWrite(v, block, k).value
    ensures !EndsDeleted(v, block, k) && LastWrite(v, block, k).None? ==>
              && !Deletes(v, block, k)
              && (k in Replay(v, m, block) <==> k in m) && (k in m ==> Replay(v, m, block)[k] == m[k])
    decreases |block|
  {
    if block != [] {
      var front, data := block[..|block| - 1], block[|block| - 1];
      assert block == front + [data];
      ReplayAt(v, m, front, k);
      DeletesSnoc(v, front, data, k);
      EndsDeletedSnoc(v, front, data, k);
    }
  }

  // ---------------------------------------------------------------- one block

  lemma FlushAt(t: Table, skip: SkipRow, ins: map<Key, Row>, del: map<Key, Row>, h: nat, k: Key)
    requires Older(t, skip, h) && AllAt(ins, skip, h) && OthersAt(del, skip, h)
    ensures var t' := DeleteMap(UpsertMap(t, ins), del);
            && (k in del ==> k !in LiveRows(t'))
            && (k in del && (k in t || k in ins) ==> SoftDeleted(t', k))
            && (k !in del && k in ins ==> k in LiveRows(t') && LiveRows(t')[k] == ins[k])
            && (k !in del && k !in ins ==>
                  (k in LiveRows(t') <==> k in LiveRows(t)) && (k in LiveRows(t) ==> LiveRows(t')[k] == LiveRows(t)[k]))
            && (k in t' ==> !IsSkipKey(skip, k) && t'[k].row.height <= h)
  {
  }

  /**
    After the flush of a block over older rows: a key the block deletes is not live, and if it has a row at all the row
    is soft-deleted; a key it only writes holds its last write; any other key is as it was.
  */
  lemma FlushedBlockAt(v: View, skip: SkipRow, t: Table, block: seq<TraceOperation>, h: nat, k: Key)
    requires SameHeight(block, h) && RowsDated(v, skip, block) && Older(t, skip, h)
    ensures var t' := FlushTable(t, v.chain, Gathered(v, block));
            && (Deletes(v, block, k) ==> k !in LiveRows(t'))
            && (Deletes(v, block, k) && (k in t || LastWrite(v, block, k).Some?) ==> SoftDeleted(t', k))
            && (!Deletes(v, block, k) && LastWrite(v, block, k).Some? ==>
                  k in LiveRows(t') && LiveRows(t')[k] == LastWrite(v, block, k).value)
            && (!Deletes(v, block, k) && LastWrite(v, block, k).None? ==>
                  (k in LiveRows(t') <==> k in LiveRows(t)) && (k in LiveRows(t) ==> LiveRows(t')[k] == LiveRows(t)[k]))
            && (k in t' ==> !IsSkipKey(skip, k) && t'[k].row.height <= h)
  {
    hide Deletes, LastWrite, LastDelete, Gathered, LiveRows, SoftDeleted, UpsertMap, DeleteMap, AllAt, OthersAt, Stamp;
    GatheredDated(v, skip, block, h);
    DeletesIff(v, block, k);
    var c := Gathered(v, block);
    FlushAt(t, skip, Stamp(c.inserts, v.chain), Stamp(c.deletes, v.chain), h, k);
  }

  function StoredAt(t: Table, k: Key): Option<Stored> {
    if k in t then Some(t[k]) else None
  }

  function LiveAt(s: Option<Stored>): Option<Row> {
    if s.Some? && s.value.deleteHeight.None? then Some(s.value.row) else None
  }

  /** The height of the key's row where the row is soft-deleted. */
  function TombAt(s: Option<Stored>): Option<nat> {
    if s.Some? && s.value.deleteHeight.Some? then Some(s.value.row.height) else None
  }

  /** A write passes the height guard, over a live or a soft-deleted row, or is what is live already. */
  predicate Lands(live: Option<Row>, tomb: Option<nat>, w: Row) {
    && (live.Some? ==> live.value.height < w.height || live.value == w)
    && (tomb.Some? ==> tomb.value < w.height)
  }

  /** The write of every key the block only writes lands. */
  ghost predicate WritesLand(v: View, t: Table, block: seq<TraceOperation>) {
    forall k :: LastWrite(v, block, k).Some? && !Deletes(v, block, k) ==>
      Lands(LiveAt(StoredAt(t, k)), TombAt(StoredAt(t, k)), LastWrite(v, block, k).value)
  }

  lemma LiveAfterFlush(t: Table, ins: map<Key, Row>, del: map<Key, Row>, k: Key)
    ensures var live := LiveAt(StoredAt(DeleteMap(UpsertMap(t, ins), del), k));
            && (k in del ==> live == None)
            && (k !in del && k !in ins ==> live == LiveAt(StoredAt(t, k)))
            && (k !in del && k in ins ==>
                  (live == Some(ins[k]) <==> Lands(LiveAt(StoredAt(t, k)), TombAt(StoredAt(t, k)), ins[k])))
  {
  }

  /** One key of one flush, over any table and rows of any height. */
  lemma FlushAgreesAt(v: View, t: Table, block: seq<TraceOperation>, c: Cache, k: Key)
    requires Records(v, block, c)
    ensures LiveAt(StoredAt(FlushTable(t, v.chain, c), k)) == Lookup(Replay(v, LiveRows(t), block), k)
       <==> && (Deletes(v, block, k) ==> EndsDeleted(v, block, k))
            && (LastWrite(v, block, k).Some? && !Deletes(v, block, k) ==>
                  Lands(LiveAt(StoredAt(t, k)), TombAt(StoredAt(t, k)), LastWrite(v, block, k).value))
  {
    hide Replay, Deletes, EndsDeleted, LastWrite, LastDelete, Lands, Stamp, UpsertMap, DeleteMap;
    ReplayAt(v, LiveRows(t), block, k);
    EndsDeletedMeansDeletes(v, block, k);
    DeletesIff(v, block, k);
    LiveAfterFlush(t, Stamp(c.inserts, v.chain), Stamp(c.deletes, v.chain), k);
  }

  /**
    One flush, over any table and rows of any height: its live rows are those of the plain replay if and only if every
    key the block deletes is deleted last and the write of every key it only writes lands.
  */
  lemma FlushAgreesIff(v: View, t: Table, block: seq<TraceOperation>)
    requires Keyed(v, block)
    ensures LiveRows(FlushTable(t, v.chain, Gathered(v, block))) == Replay(v, LiveRows(t), block)
       <==> DeletesAreFinal(v, block) && WritesLand(v, t, block)
  {
    hide Replay, Deletes, EndsDeleted, LastWrite, Lands, FlushTable, Gathered, Keyed, LiveRows, Records, StoredAt,
      LiveAt, TombAt;
    GatheredRecords(v, block);
    var flushed := FlushTable(t, v.chain, Gathered(v, block));
    forall k
      ensures LiveAt(StoredAt(flushed, k)) == Lookup(Replay(v, LiveRows(t), block), k)
         <==> && (Deletes(v, block, k) ==> EndsDeleted(v, block, k))
              && (LastWrite(v, block, k).Some? && !Deletes(v, block, k) ==>
                    Lands(LiveAt(StoredAt(t, k)), TombAt(StoredAt(t, k)), LastWrite(v, block, k).value))
    {
      FlushAgreesAt(v, t, block, Gathered(v, block), k);
    }
    LiveRowsAre(flushed, Replay(v, LiveRows(t), block));
  }

  lemma LiveRowsAre(t: Table, m: map<Key, Row>)
    ensures LiveRows(t) == m <==> forall k :: LiveAt(StoredAt(t, k)) == Lookup(m, k)
  {
    if forall k :: LiveAt(StoredAt(t, k)) == Lookup(m, k) {
      forall k ensures k in LiveRows(t) <==> k in m ensures k in m ==> LiveRows(t)[k] == m[k] {
        assert LiveAt(StoredAt(t, k)) == Lookup(m, k);
      }
    }
  }

  lemma LiveRowsKeywise(a: Table, b: Table)
    ensures LiveRows(a) == LiveRows(b) <==> forall k :: LiveAt(StoredAt(a, k)) == LiveAt(StoredAt(b, k))
  {
    forall k ensures Lookup(LiveRows(b), k) == LiveAt(StoredAt(b, k)) {
    }
    LiveRowsAre(a, LiveRows(b));
  }

  /**
    One block over older rows: the live rows after the flush are those of the plain replay if and only if every key the
    block deletes has a delete as its last trace in the block.
  */
  lemma BlockReplaysIff(v: View, skip: SkipRow, t: Table, block: seq<TraceOperation>, h: nat)
    requires SameHeight(block, h) && RowsDated(v, skip, block) && Older(t, skip, h)
    ensures LiveRows(FlushTable(t, v.chain, Gathered(v, block))) == Replay(v, LiveRows(t), block)
       <==> DeletesAreFinal(v, block)
  {
    hide Deletes, LastWrite, LiveRows, FlushTable, Replay, Keyed;
    FlushAgreesIff(v, t, block);
    forall k | LastWrite(v, block, k).Some?
      ensures Lands(LiveAt(StoredAt(t, k)), TombAt(StoredAt(t, k)), LastWrite(v, block, k).value)
    {
      LastRowsDated(v, skip, block, h, k);
    }
  }

  lemma EndsDeletedMeansDeletes(v: View, block: seq<TraceOperation>, k: Key)
    ensures EndsDeleted(v, block, k) ==> Deletes(v, block, k)
  {
    if EndsDeleted(v, block, k) {
      var i :| 0 <= i < |block| && Touches(v, block[i], k) && block[i].operation == DELETE_OP
        && forall j :: i < j < |block| ==> !Touches(v, block[j], k);
    }
  }

  // ---------------------------------------------------------------- whole runs of blocks

  /** Non-empty blocks of strictly increasing heights, all newer than the table's rows. */
  ghost predicate Blocks(v: View, skip: SkipRow, t: Table, blocks: seq<seq<TraceOperation>>) {
    && (forall j :: 0 <= j < |blocks| ==>
          blocks[j] != [] && blocks[j][0].blockHeight >= 1 && SameHeight(blocks[j], blocks[j][0].blockHeight)
          && RowsDated(v, skip, blocks[j]) && Older(t, skip, blocks[j][0].blockHeight))
    && (forall i, j :: 0 <= i < j < |blocks| ==> blocks[i][0].blockHeight < blocks[j][0].blockHeight)
  }

  /** The table once every one of the blocks has been flushed. */
  ghost function TableAfter(v: View, t: Table, blocks: seq<seq<TraceOperation>>): Table
    decreases |blocks|
  {
    if blocks == [] then t
    else FlushTable(TableAfter(v, t, blocks[..|blocks| - 1]), v.chain, Gathered(v, blocks[|blocks| - 1]))
  }

  lemma FlushedBlockBound(v: View, skip: SkipRow, t: Table, block: seq<TraceOperation>, h: nat, next: nat)
    requires SameHeight(block, h) && RowsDated(v, skip, block) && Older(t, skip, h) && h < next
    ensures Older(FlushTable(t, v.chain, Gathered(v, block)), skip, next)
  {
    forall k | k in FlushTable(t, v.chain, Gathered(v, block))
      ensures !IsSkipKey(skip, k) && FlushTable(t, v.chain, Gathered(v, block))[k].row.height < next
    {
      FlushedBlockAt(v, skip, t, block, h, k);
    }
  }

  lemma {:induction false} TableAfterIsOlder(
    v: View, skip: SkipRow, t: Table, blocks: seq<seq<TraceOperation>>, next: nat)
    requires Blocks(v, skip, t, blocks) && Older(t, skip, next)
    requires forall j :: 0 <= j < |blocks| ==> blocks[j][0].blockHeight < next
    ensures Older(TableAfter(v, t, blocks), skip, next)
    decreases |blocks|
  {
    if blocks != [] {
      var front, last := blocks[..|blocks| - 1], blocks[|blocks| - 1];
      TableAfterIsOlder(v, skip, t, front, last[0].blockHeight);
      FlushedBlockBound(v, skip, TableAfter(v, t, front), last, last[0].blockHeight, next);
    }
  }

  ghost predicate AgreesAfter(v: View, t: Table, blocks: seq<seq<TraceOperation>>) {
    LiveRows(TableAfter(v, t, blocks)) == Replay(v, LiveRows(t), Flatten(blocks))
  }

  lemma NextBlockAgreesIff(v: View, skip: SkipRow, t: Table, blocks: seq<seq<TraceOperation>>)
    requires blocks != [] && Blocks(v, skip, t, blocks) && AgreesAfter(v, t, blocks[..|blocks| - 1])
    ensures AgreesAfter(v, t, blocks) <==> DeletesAreFinal(v, blocks[|blocks| - 1])
  {
    hide DeletesAreFinal;
    var front, last := blocks[..|blocks| - 1], blocks[|blocks| - 1];
    assert blocks == front + [last];
    TableAfterIsOlder(v, skip, t, front, last[0].blockHeight);
    BlockReplaysIff(v, skip, TableAfter(v, t, front), last, last[0].blockHeight);
    FlattenSnoc(front, last);
    ReplayAppend(v, LiveRows(t), Flatten(front), last);
  }

  ghost predicate AlwaysAgrees(v: View, t: Table, blocks: seq<seq<TraceOperation>>) {
    forall n :: 0 <= n <= |blocks| ==> AgreesAfter(v, t, blocks[..n])
  }

  lemma {:induction false} AlwaysAgreesIff(v: View, skip: SkipRow, t: Table, blocks: seq<seq<TraceOperation>>)
    requires Blocks(v, skip, t, blocks)
    ensures AlwaysAgrees(v, t, blocks) <==> forall j :: 0 <= j < |blocks| ==> DeletesAreFinal(v, blocks[j])
    decreases |blocks|
  {
    hide AgreesAfter, DeletesAreFinal;
    if blocks == [] {
      NothingReplayed(v, t);
      assert blocks[..0] == [];
    } else {
      var front, last := blocks[..|blocks| - 1], blocks[|blocks| - 1];
      AlwaysAgreesIff(v, skip, t, front);
      assert forall n :: 0 <= n <= |front| ==> blocks[..n] == front[..n];
      assert front[..|front|] == front && blocks[..|blocks|] == blocks;
      assert AlwaysAgrees(v, t, blocks) <==> AlwaysAgrees(v, t, front) && AgreesAfter(v, t, blocks);
      if AlwaysAgrees(v, t, front) {
        assert AgreesAfter(v, t, front);
        NextBlockAgreesIff(v, skip, t, blocks);
      }
    }
  }

  lemma NothingReplayed(v: View, t: Table)
    ensures AgreesAfter(v, t, [])
  {
  }

  // ---------------------------------------------------------------- the processor on those blocks

  /** A block of a new height flushes what was pending at its first trace and then only gathers. */
  lemma {:induction false} FollowBlock(v: View, u: Pipe, block: seq<TraceOperation>, h: nat)
    requires block != [] && SameHeight(block, h) && h != 0 && h != u.lastHeight && u.cache.Updates?
    ensures Follow(v, u, block) == Pipe(h, Gathered(v, block), FlushTable(u.table, v.chain, u.cache))
    decreases |block|
  {
    var front, data := block[..|block| - 1], block[|block| - 1];
    if front != [] {
      FollowBlock(v, u, front, h);
    } else {
      assert Follow(v, u, front) == u;
      assert Gathered(v, front) == Updates(map[], map[]);
    }
  }

  lemma FlushOfNothing(t: Table, chain: string)
    ensures FlushTable(t, chain, Updates(map[], map[])) == t
  {
    assert Stamp(map[], chain) == map[];
    assert UpsertMap(t, map[]) == t && DeleteMap(t, map[]) == t;
  }

  /** The table once the pending caches are flushed. */
  ghost function Flushed(v: View, u: Pipe): Table {
    FlushTable(u.table, v.chain, u.cache)
  }

  ghost function CommittedRows(v: View, u: Pipe): map<Key, Row> {
    LiveRows(Flushed(v, u))
  }

  function Start(t: Table): Pipe {
    Pipe(0, Updates(map[], map[]), t)
  }

  lemma FollowNextBlock(v: View, u0: Pipe, front: seq<seq<TraceOperation>>, last: seq<TraceOperation>, h: nat)
    requires last != [] && SameHeight(last, h) && h != 0
    requires Follow(v, u0, Flatten(front)).cache.Updates? && Follow(v, u0, Flatten(front)).lastHeight != h
    ensures var before := Follow(v, u0, Flatten(front));
            Follow(v, u0, Flatten(front + [last]))
            == Pipe(h, Gathered(v, last), FlushTable(before.table, v.chain, before.cache))
  {
    FlattenSnoc(front, last);
    FollowAppend(v, u0, Flatten(front), last);
    FollowBlock(v, Follow(v, u0, Flatten(front)), last, h);
  }

  lemma {:induction false} GatheredIsUpdates(v: View, block: seq<TraceOperation>)
    ensures Gathered(v, block).Updates?
    decreases |block|
  {
    if block != [] {
      GatheredIsUpdates(v, block[..|block| - 1]);
    }
  }

  lemma BlocksSnoc(v: View, skip: SkipRow, t: Table, blocks: seq<seq<TraceOperation>>)
    requires blocks != [] && Blocks(v, skip, t, blocks)
    ensures var front, last := blocks[..|blocks| - 1], blocks[|blocks| - 1];
            && Blocks(v, skip, t, front)
            && last != [] && last[0].blockHeight >= 1 && SameHeight(last, last[0].blockHeight)
            && (front != [] ==> front[|front| - 1] != [] && front[|front| - 1][0].blockHeight < last[0].blockHeight)
  {
    hide RowsDated, Older, SameHeight;
  }

  lemma NoBlocks(v: View, t: Table)
    ensures var u := Follow(v, Start(t), Flatten([]));
            FlushTable(u.table, v.chain, u.cache) == TableAfter(v, t, []) && u.cache.Updates? && u.lastHeight == 0
  {
    FlushOfNothing(t, v.chain);
  }

  lemma {:induction false} FollowBlocks(v: View, skip: SkipRow, t: Table, blocks: seq<seq<TraceOperation>>)
    requires Blocks(v, skip, t, blocks)
    ensures var u := Follow(v, Start(t), Flatten(blocks));
            && FlushTable(u.table, v.chain, u.cache) == TableAfter(v, t, blocks)
            && u.cache.Updates?
            && (blocks == [] ==> u.lastHeight == 0)
            && (blocks != [] ==> blocks[|blocks| - 1] != [] && u.lastHeight == blocks[|blocks| - 1][0].blockHeight)
    decreases |blocks|
  {
    hide *;
    if blocks == [] {
      NoBlocks(v, t);
    } else {
      var front, last := blocks[..|blocks| - 1], blocks[|blocks| - 1];
      BlocksSnoc(v, skip, t, blocks);
      FollowBlocks(v, skip, t, front);
      FollowNextBlock(v, Start(t), front, last, last[0].blockHeight);
      GatheredIsUpdates(v, last);
      TableAfterSnoc(v, t, front, last);
      assert blocks == front + [last];
    }
  }

  lemma TableAfterSnoc(v: View, t: Table, front: seq<seq<TraceOperation>>, last: seq<TraceOperation>)
    ensures TableAfter(v, t, front + [last]) == FlushTable(TableAfter(v, t, front), v.chain, Gathered(v, last))
  {
    var blocks := front + [last];
    assert blocks[..|blocks| - 1] == front && blocks[|blocks| - 1] == last;
  }

  /** Flushed now, the table's live rows are those of the plain replay of the blocks. */
  ghost predicate CommitsReplay(v: View, t: Table, blocks: seq<seq<TraceOperation>>) {
    CommittedRows(v, Follow(v, Start(t), Flatten(blocks))) == Replay(v, LiveRows(t), Flatten(blocks))
  }

  lemma BlocksPrefix(v: View, skip: SkipRow, t: Table, blocks: seq<seq<TraceOperation>>, n: nat)
    requires Blocks(v, skip, t, blocks) && n <= |blocks|
    ensures Blocks(v, skip, t, blocks[..n])
  {
    hide RowsDated, Older, SameHeight;
  }

  lemma AgreesIsCommits(v: View, skip: SkipRow, t: Table, blocks: seq<seq<TraceOperation>>)
    requires Blocks(v, skip, t, blocks)
    ensures AgreesAfter(v, t, blocks) <==> CommitsReplay(v, t, blocks)
  {
    hide Blocks, Follow, TableAfter, Replay, LiveRows, FlushTable, Flatten;
    FollowBlocks(v, skip, t, blocks);
  }

  /**
    Refinement for set-update modules. Over blocks of strictly increasing heights, the live rows after the flush of
    every block of the run are those of the plain replay if and only if in each block every deleted key is deleted last.
  */
  lemma DelegationsReplayIff(v: View, skip: SkipRow, t: Table, blocks: seq<seq<TraceOperation>>)
    requires Blocks(v, skip, t, blocks)
    ensures (forall n :: 0 <= n <= |blocks| ==> CommitsReplay(v, t, blocks[..n]))
       <==> (forall j :: 0 <= j < |blocks| ==> DeletesAreFinal(v, blocks[j]))
  {
    hide Blocks, AgreesAfter, CommitsReplay, DeletesAreFinal;
    AlwaysAgreesIff(v, skip, t, blocks);
    forall n | 0 <= n <= |blocks| ensures AgreesAfter(v, t, blocks[..n]) <==> CommitsReplay(v, t, blocks[..n]) {
      BlocksPrefix(v, skip, t, blocks, n);
      AgreesIsCommits(v, skip, t, blocks[..n]);
    }
  }

  // ---------------------------------------------------------------- a delete and the row it is meant for

  /** The view of a delegations module that decodes its deletes as the source does. */
  function ViewOf(
    prefix: Keys.byte, decodeWrite: TraceOperation -> Result<Row, string>, mapped: set<string>,
    chain: string): View
  {
    View(DelegationsConfig(prefix, decodeWrite), mapped, chain)
  }

  /** A trace of the module's keys that is live, and so suggests no module, or of a bulk import of its store. */
  ghost predicate ForStaking(prefix: Keys.byte, data: TraceOperation) {
    data.suggestedProcessor in ["", "staking"] && data.key != [] && data.key[0] == prefix
  }

  lemma DeleteTakesRow(
    prefix: Keys.byte, decodeWrite: TraceOperation -> Result<Row, string>, mapped: set<string>,
    chain: string, data: TraceOperation, del: seq<Keys.byte>, val: seq<Keys.byte>)
    requires 1 <= |del| <= 254 && 1 <= |val| <= 255 && data.key == Keys.DelegationKey(prefix, del, val)
    requires data.operation == "delete" && data.suggestedProcessor in ["", "staking"]
    ensures var v, row := ViewOf(prefix, decodeWrite, mapped, chain),
                          Row("", data.blockHeight, [Keys.Hex(del), Keys.Hex(val)], [""]);
            && v.cfg.unmarshal(data) == Ok(row) && TakesRow(v, data, row.columns)
            && v.cfg.cacheKey(data) == row.columns
  {
    DelegationDeleteNames(data, prefix, del, val);
    OwnsItsPrefix(prefix, decodeWrite, data.key);
  }

  /**
    A delete of the store key of two addresses hits the row written for just these: after it the replay has the row of a
    delegation if and only if its addresses are others.
  */
  lemma DeleteHitsItsRow(
    prefix: Keys.byte, decodeWrite: TraceOperation -> Result<Row, string>, mapped: set<string>,
    chain: string, m: map<Key, Row>, write: TraceOperation, delete: TraceOperation,
    del: seq<Keys.byte>, val: seq<Keys.byte>, del': seq<Keys.byte>, val': seq<Keys.byte>, row: Row)
    requires 1 <= |del| <= 254 && 1 <= |val| <= 255 && delete.key == Keys.DelegationKey(prefix, del, val)
    requires delete.operation == "delete" && delete.suggestedProcessor in ["", "staking"]
    requires write.operation != "delete" && ForStaking(prefix, write) && decodeWrite(write) == Ok(row)
    requires row.columns == [Keys.Hex(del'), Keys.Hex(val')]
    ensures var v := ViewOf(prefix, decodeWrite, mapped, chain);
            Lookup(Replay(v, m, [write, delete]), Key(chain, row.columns))
            == if del' == del && val' == val then None else Some(Row(chain, row.height, row.columns, row.values))
  {
    hide Replay, Keys.Hex;
    var v, stream := ViewOf(prefix, decodeWrite, mapped, chain), [write, delete];
    DeleteTakesRow(prefix, decodeWrite, mapped, chain, delete, del, val);
    var gone := Row("", delete.blockHeight, [Keys.Hex(del), Keys.Hex(val)], [""]);
    assert stream[0] == write && stream[1] == delete;
    if del' == del && val' == val {
      LastTraceReplayed(v, m, stream, 1, gone);
    } else {
      if Keys.Hex(del') == Keys.Hex(del) { Keys.HexInjective(del', del); }
      if Keys.Hex(val') == Keys.Hex(val) { Keys.HexInjective(val', val); }
      assert gone.columns[0] != row.columns[0] || gone.columns[1] != row.columns[1];
      LastTraceReplayed(v, m, stream, 0, row);
    }
  }

  /** In the table the flush of that delete marks exactly that row, if it is live, and keeps all its other fields. */
  lemma FlushedDeleteMarksItsRow(
    prefix: Keys.byte, decodeWrite: TraceOperation -> Result<Row, string>, mapped: set<string>,
    chain: string, t: Table, delete: TraceOperation, del: seq<Keys.byte>, val: seq<Keys.byte>, k: Key)
    requires 1 <= |del| <= 254 && 1 <= |val| <= 255 && delete.key == Keys.DelegationKey(prefix, del, val)
    requires delete.operation == "delete" && delete.suggestedProcessor in ["", "staking"]
    ensures var v := ViewOf(prefix, decodeWrite, mapped, chain);
            var t' := FlushTable(t, chain, Gathered(v, [delete]));
            && (k in t' <==> k in t)
            && (k in t ==>
                  t'[k] == if k == Key(chain, [Keys.Hex(del), Keys.Hex(val)]) && t[k].deleteHeight.None?
                           then Stored(
                             Row(t[k].row.chain, delete.blockHeight, t[k].row.columns, t[k].row.values),
                             Some(delete.blockHeight))
                           else t[k])
  {
    hide Keys.Hex;
    var v := ViewOf(prefix, decodeWrite, mapped, chain);
    var row := Row("", delete.blockHeight, [Keys.Hex(del), Keys.Hex(val)], [""]);
    DeleteTakesRow(prefix, decodeWrite, mapped, chain, delete, del, val);
    assert [delete][..0] == [] && [delete][0] == delete;
    assert Gathered(v, [delete]) == Updates(map[], map[row.columns := row]);
    StampContents(map[row.columns := row], chain, k);
    NothingStamped(chain);
  }
}
