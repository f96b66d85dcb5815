/**
  The bulk import (tracelistener/bulk/bulkimport.go): one goroutine per store feeds the shared processor, whose mutex
  lets one trace through at a time, so what the processor sees is some interleaving of the stores.
*/
module BulkImport {
  import opened Wrappers
  import opened Sql
  import opened Chunking
  import opened Writeback
  import opened Modules
  import opened Processing
  import opened Flushing
  import Keys

  datatype Entry = Entry(key: seq<Keys.byte>, value: seq<Keys.byte>)

  datatype Store = Store(name: string, entries: seq<Entry>)

  /** Every entry of a store becomes a write suggested to the module of the store's name. */
  function TraceOf(name: string, height: nat, e: Entry): TraceOperation {
    TraceOperation("write", e.key, e.value, height, name)
  }

  function TracesOf(store: Store, height: nat): seq<TraceOperation> {
    seq(|store.entries|, i requires 0 <= i < |store.entries| => TraceOf(store.name, height, store.entries[i]))
  }

  /** The traces of a stream that came from the store of the given name, in their order. */
  function From(stream: seq<TraceOperation>, name: string): seq<TraceOperation>
    decreases |stream|
  {
    if stream == [] then []
    else
      var front, last := From(stream[..|stream| - 1], name), stream[|stream| - 1];
      if last.suggestedProcessor == name then front + [last] else front
  }

  ghost predicate DistinctNames(stores: seq<Store>) {
    forall i, j :: 0 <= i < j < |stores| ==> stores[i].name != stores[j].name
  }

  ghost predicate Names(stores: seq<Store>, name: string) {
    exists k :: 0 <= k < |stores| && stores[k].name == name
  }

  /** Each store's traces appear once, in the store's order, and nothing else does. */
  ghost predicate Interleaves(stream: seq<TraceOperation>, stores: seq<Store>, height: nat) {
    && (forall i :: 0 <= i < |stream| ==> Names(stores, stream[i].suggestedProcessor))
    && (forall k :: 0 <= k < |stores| ==> From(stream, stores[k].name) == TracesOf(stores[k], height))
  }

  /** The traces of the one store so named, none if no such store is imported. */
  function OwnTraces(stores: seq<Store>, name: string, height: nat): seq<TraceOperation> {
    if stores == [] then []
    else if stores[0].name == name then TracesOf(stores[0], height)
    else OwnTraces(stores[1..], name, height)
  }

  /** Every imported store has a module registered under its name. */
  ghost predicate AllMapped(stores: seq<Store>, mapped: set<string>) {
    forall k :: 0 <= k < |stores| ==> stores[k].name != "" && stores[k].name in mapped
  }

  // ---------------------------------------------------------------- caches after an import

  ghost function Absorbed(cfg: Config, mapped: set<string>, c: Cache, stream: seq<TraceOperation>): Cache
    decreases |stream|
  {
    if stream == [] then c
    else Received(cfg, mapped, Absorbed(cfg, mapped, c, stream[..|stream| - 1]), stream[|stream| - 1])
  }

  lemma AbsorbedSnoc(cfg: Config, mapped: set<string>, c: Cache, stream: seq<TraceOperation>, data: TraceOperation)
    ensures Absorbed(cfg, mapped, c, stream + [data]) == Received(cfg, mapped, Absorbed(cfg, mapped, c, stream), data)
  {
    assert (stream + [data])[..|stream + [data]| - 1] == stream;
  }

  /** A module's cache depends only on the traces of its own store when every trace names a registered module. */
  lemma {:induction false} OthersPassBy(cfg: Config, mapped: set<string>, c: Cache, stream: seq<TraceOperation>)
    requires forall i :: 0 <= i < |stream| ==>
              stream[i].suggestedProcessor != "" && stream[i].suggestedProcessor in mapped
    ensures Absorbed(cfg, mapped, c, stream) == Absorbed(cfg, mapped, c, From(stream, cfg.sdkName))
    decreases |stream|
  {
    if stream != [] {
      var front, last := stream[..|stream| - 1], stream[|stream| - 1];
      OthersPassBy(cfg, mapped, c, front);
      AbsorbedSnoc(cfg, mapped, c, From(front, cfg.sdkName), last);
    }
  }

  lemma {:induction false} NothingFrom(stream: seq<TraceOperation>, name: string)
    requires forall i :: 0 <= i < |stream| ==> stream[i].suggestedProcessor != name
    ensures From(stream, name) == []
    decreases |stream|
  {
    if stream != [] {
      NothingFrom(stream[..|stream| - 1], name);
    }
  }

  lemma {:induction false} OwnTracesOfStore(stores: seq<Store>, k: nat, height: nat)
    requires DistinctNames(stores) && k < |stores|
    ensures OwnTraces(stores, stores[k].name, height) == TracesOf(stores[k], height)
  {
    if k > 0 {
      OwnTracesOfStore(stores[1..], k - 1, height);
    }
  }

  lemma {:induction false} NoOwnTraces(stores: seq<Store>, name: string, height: nat)
    requires !Names(stores, name)
    ensures OwnTraces(stores, name, height) == []
  {
    if stores != [] {
      assert stores[0].name != name;
      forall k | 0 <= k < |stores[1..]| ensures stores[1..][k].name != name {
        assert stores[k + 1].name != name;
      }
      NoOwnTraces(stores[1..], name, height);
    }
  }

  lemma FromIsOwnTraces(stream: seq<TraceOperation>, stores: seq<Store>, height: nat, name: string)
    requires Interleaves(stream, stores, height) && DistinctNames(stores)
    ensures From(stream, name) == OwnTraces(stores, name, height)
  {
    if Names(stores, name) {
      var k :| 0 <= k < |stores| && stores[k].name == name;
      OwnTracesOfStore(stores, k, height);
    } else {
      NothingFrom(stream, name);
      NoOwnTraces(stores, name, height);
    }
  }

  /**
    The mapped case: when every imported store is some registered module's, any interleaving leaves each module's
    cache as if the module had processed its own store alone, from the first entry to the last.
  */
  lemma ImportIsConfluent(
    cfg: Config, mapped: set<string>, c: Cache, stores: seq<Store>, height: nat, stream: seq<TraceOperation>)
    requires Interleaves(stream, stores, height) && DistinctNames(stores) && AllMapped(stores, mapped)
    ensures Absorbed(cfg, mapped, c, stream) == Absorbed(cfg, mapped, c, OwnTraces(stores, cfg.sdkName, height))
  {
    OthersPassBy(cfg, mapped, c, stream);
    FromIsOwnTraces(stream, stores, height, cfg.sdkName);
  }

  // ---------------------------------------------------------------- the entries of a store

  /** The module takes the entry: it owns the key, and the write of its value at the height decodes. */
  ghost predicate TakesEntry(cfg: Config, name: string, height: nat, e: Entry) {
    cfg.owns(e.key) && cfg.unmarshal(TraceOperation("write", e.key, e.value, height, name)).Ok?
  }

  function EntryCacheKey(cfg: Config, name: string, height: nat, e: Entry): CacheKey {
    cfg.cacheKey(TraceOperation("write", e.key, e.value, height, name))
  }

  /** The last entry of the store that the module takes under its cache key. */
  ghost predicate IsLastEntry(cfg: Config, store: Store, height: nat, n: nat)
    requires n < |store.entries|
  {
    && TakesEntry(cfg, store.name, height, store.entries[n])
    && forall j :: n < j < |store.entries| && TakesEntry(cfg, store.name, height, store.entries[j]) ==>
         EntryCacheKey(cfg, store.name, height, store.entries[n])
         != EntryCacheKey(cfg, store.name, height, store.entries[j])
  }

  lemma EntryIsLastTrace(cfg: Config, mapped: set<string>, store: Store, height: nat, n: nat)
    requires n < |store.entries| && cfg.sdkName == store.name
    ensures IsLast(cfg, mapped, TracesOf(store, height), n) <==> IsLastEntry(cfg, store, height, n)
  {
    var stream := TracesOf(store, height);
    forall j | 0 <= j < |stream|
      ensures stream[j] == TraceOperation("write", store.entries[j].key, store.entries[j].value, height, store.name)
      ensures WritesRow(cfg, mapped, stream[j]) <==> TakesEntry(cfg, store.name, height, store.entries[j])
    {
    }
  }

  /**
    The import entry by entry: whatever the interleaving, a module ends with the row that the last entry of its store
    under a cache key decodes to, as a write at the import's height; and under any other key with what it had.
  */
  lemma LastEntryIsKept(
    cfg: Config, mapped: set<string>, c: Cache, stores: seq<Store>, height: nat, stream: seq<TraceOperation>, s: nat)
    requires Interleaves(stream, stores, height) && DistinctNames(stores) && AllMapped(stores, mapped)
    requires s < |stores| && stores[s].name == cfg.sdkName
    ensures DeleteRowsOf(Absorbed(cfg, mapped, c, stream)) == DeleteRowsOf(c)
    ensures forall n :: 0 <= n < |stores[s].entries| && IsLastEntry(cfg, stores[s], height, n) ==>
              var e, rows := stores[s].entries[n], WriteRows(Absorbed(cfg, mapped, c, stream));
              && EntryCacheKey(cfg, cfg.sdkName, height, e) in rows
              && Ok(rows[EntryCacheKey(cfg, cfg.sdkName, height, e)])
              == cfg.unmarshal(TraceOperation("write", e.key, e.value, height, cfg.sdkName))
    ensures forall k :: (forall n :: 0 <= n < |stores[s].entries| && IsLastEntry(cfg, stores[s], height, n) ==>
                           EntryCacheKey(cfg, cfg.sdkName, height, stores[s].entries[n]) != k) ==>
              var rows := WriteRows(Absorbed(cfg, mapped, c, stream));
              (k in rows <==> k in WriteRows(c)) && (k in rows ==> rows[k] == WriteRows(c)[k])
  {
    hide Absorbed, LastRows, Interleaves, IsLast, IsLastEntry;
    var own := TracesOf(stores[s], height);
    ImportIsConfluent(cfg, mapped, c, stores, height, stream);
    OwnTracesOfStore(stores, s, height);
    TracesOnlyWrite(stores[s], height);
    AbsorbsLastRows(cfg, mapped, c, own);
    forall n | 0 <= n < |stores[s].entries| && IsLastEntry(cfg, stores[s], height, n)
      ensures var k := EntryCacheKey(cfg, cfg.sdkName, height, stores[s].entries[n]);
              && k in LastRows(cfg, mapped, own)
              && Ok(LastRows(cfg, mapped, own)[k]) == cfg.unmarshal(own[n])
    {
      EntryIsLastTrace(cfg, mapped, stores[s], height, n);
      LastRowAt(cfg, mapped, own, n);
      LastIsWritten(cfg, mapped, own, n);
    }
    forall k | k in LastRows(cfg, mapped, own)
      ensures exists n :: 0 <= n < |stores[s].entries| && IsLastEntry(cfg, stores[s], height, n)
                && EntryCacheKey(cfg, cfg.sdkName, height, stores[s].entries[n]) == k
    {
      var n := LastRowHasTrace(cfg, mapped, own, k);
      EntryIsLastTrace(cfg, mapped, stores[s], height, n);
    }
  }

  lemma LastIsWritten(cfg: Config, mapped: set<string>, block: seq<TraceOperation>, n: nat)
    requires n < |block| && IsLast(cfg, mapped, block, n)
    ensures cfg.unmarshal(block[n]).Ok?
  {
  }

  lemma TracesOnlyWrite(store: Store, height: nat)
    ensures OnlyWrites(TracesOf(store, height))
  {
  }

  // ---------------------------------------------------------------- exactly when interleavings agree

  /** Imports only write. */
  ghost predicate OnlyWrites(stream: seq<TraceOperation>) {
    forall i :: 0 <= i < |stream| ==> stream[i].operation != DELETE_OP
  }

  /** The cache with rows put over what it had to write. */
  function WithWrites(c: Cache, rows: RowCache): Cache {
    match c
    case Writes(held) => Writes(held + rows)
    case Updates(inserts, deletes) => Updates(inserts + rows, deletes)
  }

  /** What a module absorbs does not depend on what it held before. */
  lemma {:induction false} AbsorbsLastRows(cfg: Config, mapped: set<string>, c: Cache, stream: seq<TraceOperation>)
    requires OnlyWrites(stream)
    ensures Absorbed(cfg, mapped, c, stream) == WithWrites(c, LastRows(cfg, mapped, stream))
    decreases |stream|
  {
    if stream == [] {
      assert WriteRows(c) + map[] == WriteRows(c);
    } else {
      var front, last := stream[..|stream| - 1], stream[|stream| - 1];
      assert forall i :: 0 <= i < |front| ==> front[i] == stream[i];
      AbsorbsLastRows(cfg, mapped, c, front);
      assert stream[|front|].operation != DELETE_OP;
      if WritesRow(cfg, mapped, last) {
        AddOne(WriteRows(c), LastRows(cfg, mapped, front), cfg.cacheKey(last), cfg.unmarshal(last).value);
      }
    }
  }

  lemma AddOne(m: RowCache, n: RowCache, k: CacheKey, row: Row)
    ensures (m + n)[k := row] == m + n[k := row]
  {
  }

  /**
    Key by key: the last row of the whole stream is the last row of one of the names it is made of, and a key written
    under any name is written.
  */
  lemma {:induction false} LastRowHasStore(
    cfg: Config, mapped: set<string>, stream: seq<TraceOperation>, k: CacheKey) returns (name: string)
    requires k in LastRows(cfg, mapped, stream)
    ensures k in LastRows(cfg, mapped, From(stream, name))
    ensures LastRows(cfg, mapped, From(stream, name))[k] == LastRows(cfg, mapped, stream)[k]
    decreases |stream|
  {
    var front, last := stream[..|stream| - 1], stream[|stream| - 1];
    if WritesRow(cfg, mapped, last) && cfg.cacheKey(last) == k {
      name := last.suggestedProcessor;
      LastRowsSnoc(cfg, mapped, From(front, name), last);
    } else {
      name := LastRowHasStore(cfg, mapped, front, k);
      LastRowsSnoc(cfg, mapped, From(front, name), last);
    }
  }

  lemma LastRowsSnoc(cfg: Config, mapped: set<string>, front: seq<TraceOperation>, last: TraceOperation)
    ensures LastRows(cfg, mapped, front + [last])
         == if WritesRow(cfg, mapped, last)
            then LastRows(cfg, mapped, front)[cfg.cacheKey(last) := cfg.unmarshal(last).value]
            else LastRows(cfg, mapped, front)
  {
    assert (front + [last])[..|front + [last]| - 1] == front;
  }

  lemma {:induction false} StoreRowIsWritten(
    cfg: Config, mapped: set<string>, stream: seq<TraceOperation>, name: string, k: CacheKey)
    requires k in LastRows(cfg, mapped, From(stream, name))
    ensures k in LastRows(cfg, mapped, stream)
    decreases |stream|
  {
    if stream != [] {
      var front, last := stream[..|stream| - 1], stream[|stream| - 1];
      LastRowsSnoc(cfg, mapped, From(front, name), last);
      if k in LastRows(cfg, mapped, From(front, name)) {
        StoreRowIsWritten(cfg, mapped, front, name, k);
      }
    }
  }

  lemma {:induction false} InOwnSequence(stream: seq<TraceOperation>, i: nat)
    requires i < |stream|
    ensures stream[i] in From(stream, stream[i].suggestedProcessor)
    decreases |stream|
  {
    if i < |stream| - 1 {
      InOwnSequence(stream[..|stream| - 1], i);
    }
  }

  lemma ImportsOnlyWrite(stream: seq<TraceOperation>, stores: seq<Store>, height: nat)
    requires Interleaves(stream, stores, height)
    ensures OnlyWrites(stream)
  {
    forall i | 0 <= i < |stream| ensures stream[i].operation != DELETE_OP {
      var k :| 0 <= k < |stores| && stores[k].name == stream[i].suggestedProcessor;
      InOwnSequence(stream, i);
      assert stream[i] in TracesOf(stores[k], height);
    }
  }

  /** The rows one store leaves in the module when processed alone. */
  ghost function StoreRows(cfg: Config, mapped: set<string>, store: Store, height: nat): RowCache {
    LastRows(cfg, mapped, TracesOf(store, height))
  }

  /** Any two stores agree on the last row of every cache key of the module that both of them write. */
  ghost predicate StoresAgree(cfg: Config, mapped: set<string>, stores: seq<Store>, height: nat) {
    forall i, j :: 0 <= i < j < |stores| ==>
      Agree(StoreRows(cfg, mapped, stores[i], height), StoreRows(cfg, mapped, stores[j], height))
  }

  ghost predicate Agree(m: RowCache, n: RowCache) {
    forall k :: k in m && k in n ==> m[k] == n[k]
  }

  /** A key of an interleaving's rows is some store's, with that store's row; a key of any store is one of its keys. */
  lemma InterleavedRows(
    cfg: Config, mapped: set<string>, stores: seq<Store>, height: nat, stream: seq<TraceOperation>, k: CacheKey)
    returns (i: nat)
    requires Interleaves(stream, stores, height)
    ensures k in LastRows(cfg, mapped, stream) ==>
              && i < |stores| && k in StoreRows(cfg, mapped, stores[i], height)
              && StoreRows(cfg, mapped, stores[i], height)[k] == LastRows(cfg, mapped, stream)[k]
    ensures forall j :: 0 <= j < |stores| && k in StoreRows(cfg, mapped, stores[j], height) ==>
              k in LastRows(cfg, mapped, stream)
  {
    hide LastRows, WritesRow;
    i := 0;
    forall j | 0 <= j < |stores| && k in StoreRows(cfg, mapped, stores[j], height)
      ensures k in LastRows(cfg, mapped, stream)
    {
      StoreRowIsWritten(cfg, mapped, stream, stores[j].name, k);
    }
    if k in LastRows(cfg, mapped, stream) {
      var name := LastRowHasStore(cfg, mapped, stream, k);
      if !Names(stores, name) {
        NothingFrom(stream, name);
        NoRows(cfg, mapped);
        assert false;
      }
      i :| 0 <= i < |stores| && stores[i].name == name;
    }
  }

  lemma NoRows(cfg: Config, mapped: set<string>)
    ensures LastRows(cfg, mapped, []) == map[]
  {
  }

  lemma AgreeingStoresConverge(
    cfg: Config, mapped: set<string>, stores: seq<Store>, height: nat, x: seq<TraceOperation>, y: seq<TraceOperation>)
    requires Interleaves(x, stores, height) && Interleaves(y, stores, height)
    requires StoresAgree(cfg, mapped, stores, height)
    ensures LastRows(cfg, mapped, x) == LastRows(cfg, mapped, y)
  {
    hide LastRows, Interleaves, StoreRows;
    var a, b := LastRows(cfg, mapped, x), LastRows(cfg, mapped, y);
    forall k ensures k in a <==> k in b ensures k in a && k in b ==> a[k] == b[k] {
      var i := InterleavedRows(cfg, mapped, stores, height, x, k);
      var j := InterleavedRows(cfg, mapped, stores, height, y, k);
      if k in a && k in b && i != j {
        var lo, hi := if i < j then i else j, if i < j then j else i;
        assert Agree(StoreRows(cfg, mapped, stores[lo], height), StoreRows(cfg, mapped, stores[hi], height));
      }
    }
  }

  // Two orders that tell disagreeing stores apart: all others first, and one or the other last.

  /** The stores one after the other. */
  function InTurn(stores: seq<Store>, height: nat): seq<TraceOperation>
    decreases |stores|
  {
    if stores == [] then [] else InTurn(stores[..|stores| - 1], height) + TracesOf(stores[|stores| - 1], height)
  }

  lemma {:induction false} FromAppend(a: seq<TraceOperation>, b: seq<TraceOperation>, name: string)
    ensures From(a + b, name) == From(a, name) + From(b, name)
    decreases |b|
  {
    if b == [] {
      assert a + b == a;
    } else {
      FromAppend(a, b[..|b| - 1], name);
      assert (a + b)[..|a + b| - 1] == a + b[..|b| - 1];
    }
  }

  lemma {:induction false} AllFrom(stream: seq<TraceOperation>, name: string)
    requires forall i :: 0 <= i < |stream| ==> stream[i].suggestedProcessor == name
    ensures From(stream, name) == stream
    decreases |stream|
  {
    if stream != [] {
      AllFrom(stream[..|stream| - 1], name);
    }
  }

  lemma {:induction false} FromInTurn(stores: seq<Store>, height: nat, name: string)
    requires DistinctNames(stores)
    ensures forall k :: 0 <= k < |stores| && stores[k].name == name ==>
              From(InTurn(stores, height), name) == TracesOf(stores[k], height)
    ensures !Names(stores, name) ==> From(InTurn(stores, height), name) == []
    decreases |stores|
  {
    if stores != [] {
      var front, last := stores[..|stores| - 1], stores[|stores| - 1];
      assert forall k :: 0 <= k < |front| ==> front[k] == stores[k];
      FromInTurn(front, height, name);
      FromAppend(InTurn(front, height), TracesOf(last, height), name);
      if last.name == name {
        AllFrom(TracesOf(last, height), name);
        assert Names(stores, name);
        assert !Names(front, name);
      } else {
        NothingFrom(TracesOf(last, height), name);
        assert Names(front, name) ==> Names(stores, name);
      }
    }
  }

  lemma {:induction false} InTurnNames(stores: seq<Store>, height: nat)
    ensures forall i :: 0 <= i < |InTurn(stores, height)| ==>
              Names(stores, InTurn(stores, height)[i].suggestedProcessor)
    decreases |stores|
  {
    if stores != [] {
      var front, last := stores[..|stores| - 1], stores[|stores| - 1];
      InTurnNames(front, height);
      forall name | Names(front, name) || name == last.name ensures Names(stores, name) {
        if Names(front, name) {
          var k :| 0 <= k < |front| && front[k].name == name;
          assert stores[k].name == name;
        } else {
          assert stores[|front|].name == name;
        }
      }
    }
  }

  /** Store i moved to the end. */
  function LastOf(stores: seq<Store>, i: nat): seq<Store>
    requires i < |stores|
  {
    stores[..i] + stores[i + 1..] + [stores[i]]
  }

  lemma LastOfInterleaves(stores: seq<Store>, i: nat, height: nat)
    requires DistinctNames(stores) && i < |stores|
    ensures Interleaves(InTurn(LastOf(stores, i), height), stores, height)
  {
    var order := LastOf(stores, i);
    var stream := InTurn(order, height);
    assert DistinctNames(order);
    InTurnNames(order, height);
    forall n | 0 <= n < |stream| ensures Names(stores, stream[n].suggestedProcessor) {
      var k :| 0 <= k < |order| && order[k].name == stream[n].suggestedProcessor;
      assert order[k] == stores[if k < i then k else if k < |stores| - 1 then k + 1 else i];
    }
    forall k | 0 <= k < |stores| ensures From(stream, stores[k].name) == TracesOf(stores[k], height) {
      var at := if k < i then k else if k == i then |stores| - 1 else k - 1;
      assert order[at] == stores[k];
      FromInTurn(order, height, stores[k].name);
    }
  }

  lemma {:induction false} LastRowsAppend(
    cfg: Config, mapped: set<string>, a: seq<TraceOperation>, b: seq<TraceOperation>)
    ensures LastRows(cfg, mapped, a + b) == LastRows(cfg, mapped, a) + LastRows(cfg, mapped, b)
    decreases |b|
  {
    if b == [] {
      assert a + b == a;
    } else {
      var front, last := b[..|b| - 1], b[|b| - 1];
      LastRowsAppend(cfg, mapped, a, front);
      assert (a + b)[..|a + b| - 1] == a + front;
      if WritesRow(cfg, mapped, last) {
        AddOne(LastRows(cfg, mapped, a), LastRows(cfg, mapped, front), cfg.cacheKey(last), cfg.unmarshal(last).value);
      }
    }
  }

  lemma LastStoreWins(cfg: Config, mapped: set<string>, stores: seq<Store>, i: nat, height: nat, k: CacheKey)
    requires i < |stores| && k in StoreRows(cfg, mapped, stores[i], height)
    ensures var rows := LastRows(cfg, mapped, InTurn(LastOf(stores, i), height));
            k in rows && rows[k] == StoreRows(cfg, mapped, stores[i], height)[k]
  {
    hide LastRows;
    var order := LastOf(stores, i);
    var front := order[..|order| - 1];
    assert order[|order| - 1] == stores[i];
    LastRowsAppend(cfg, mapped, InTurn(front, height), TracesOf(stores[i], height));
  }

  /** Every interleaving leaves the module with the same cache. */
  ghost predicate Confluent(cfg: Config, mapped: set<string>, c: Cache, stores: seq<Store>, height: nat) {
    forall x, y :: Interleaves(x, stores, height) && Interleaves(y, stores, height) ==>
      Absorbed(cfg, mapped, c, x) == Absorbed(cfg, mapped, c, y)
  }

  /**
    For any stores and any module, write-only or set-update, with anything in its cache: all interleavings leave the
    same cache if and only if any two stores agree on the last row of each of the module's cache keys that both write.
  */
  lemma ConfluentIff(cfg: Config, mapped: set<string>, c: Cache, stores: seq<Store>, height: nat)
    requires DistinctNames(stores)
    ensures Confluent(cfg, mapped, c, stores, height) <==> StoresAgree(cfg, mapped, stores, height)
  {
    hide Absorbed, Interleaves, LastRows, StoreRows, InTurn;
    if StoresAgree(cfg, mapped, stores, height) {
      forall x, y | Interleaves(x, stores, height) && Interleaves(y, stores, height)
        ensures Absorbed(cfg, mapped, c, x) == Absorbed(cfg, mapped, c, y)
      {
        AgreeingStoresConverge(cfg, mapped, stores, height, x, y);
        ImportsOnlyWrite(x, stores, height);
        ImportsOnlyWrite(y, stores, height);
        AbsorbsLastRows(cfg, mapped, c, x);
        AbsorbsLastRows(cfg, mapped, c, y);
      }
    }
    if Confluent(cfg, mapped, c, stores, height) {
      forall i, j, k | 0 <= i < j < |stores|
        && k in StoreRows(cfg, mapped, stores[i], height) && k in StoreRows(cfg, mapped, stores[j], height)
        ensures StoreRows(cfg, mapped, stores[i], height)[k] == StoreRows(cfg, mapped, stores[j], height)[k]
      {
        OrdersTellApart(cfg, mapped, c, stores, height, i, k);
        OrdersTellApart(cfg, mapped, c, stores, height, j, k);
        var x, y := InTurn(LastOf(stores, i), height), InTurn(LastOf(stores, j), height);
        assert Absorbed(cfg, mapped, c, x) == Absorbed(cfg, mapped, c, y);
      }
    }
  }

  lemma OrdersTellApart(
    cfg: Config, mapped: set<string>, c: Cache, stores: seq<Store>, height: nat, i: nat, k: CacheKey)
    requires DistinctNames(stores) && i < |stores| && k in StoreRows(cfg, mapped, stores[i], height)
    ensures var x := InTurn(LastOf(stores, i), height);
            && Interleaves(x, stores, height)
            && k in WriteRows(Absorbed(cfg, mapped, c, x))
            && WriteRows(Absorbed(cfg, mapped, c, x))[k] == StoreRows(cfg, mapped, stores[i], height)[k]
  {
    hide Absorbed, Interleaves, LastRows, StoreRows, InTurn;
    var x := InTurn(LastOf(stores, i), height);
    LastOfInterleaves(stores, i, height);
    LastStoreWins(cfg, mapped, stores, i, height, k);
    ImportsOnlyWrite(x, stores, height);
    AbsorbsLastRows(cfg, mapped, c, x);
  }

  /** Stores that each have their own registered module agree, since a module writes nothing of the others'. */
  lemma MappedStoresAgree(cfg: Config, mapped: set<string>, stores: seq<Store>, height: nat)
    requires DistinctNames(stores) && AllMapped(stores, mapped)
    ensures StoresAgree(cfg, mapped, stores, height)
  {
    forall i | 0 <= i < |stores| && stores[i].name != cfg.sdkName
      ensures StoreRows(cfg, mapped, stores[i], height) == map[]
    {
      NothingHandled(cfg, mapped, TracesOf(stores[i], height));
    }
  }

  lemma {:induction false} NothingHandled(cfg: Config, mapped: set<string>, stream: seq<TraceOperation>)
    requires forall i :: 0 <= i < |stream| ==> !Handles(cfg, mapped, stream[i])
    ensures LastRows(cfg, mapped, stream) == map[]
    decreases |stream|
  {
    if stream != [] {
      NothingHandled(cfg, mapped, stream[..|stream| - 1]);
    }
  }

  // ---------------------------------------------------------------- inserting the import

  /** What a module absorbs from traces whose rows name their cache keys sits under those keys. */
  lemma {:induction false} AbsorbedStaysKeyed(cfg: Config, mapped: set<string>, c: Cache, stream: seq<TraceOperation>)
    requires ValidCache(c) && RowsKeyed(cfg, mapped, stream)
    ensures ValidCache(Absorbed(cfg, mapped, c, stream))
    decreases |stream|
  {
    if stream != [] {
      hide RowsKeyed, ValidCache, Received;
      RowsKeyedFront(cfg, mapped, stream);
      AbsorbedStaysKeyed(cfg, mapped, c, stream[..|stream| - 1]);
      ReceivedStaysKeyed(cfg, mapped, Absorbed(cfg, mapped, c, stream[..|stream| - 1]), stream[|stream| - 1]);
    }
  }

  /**
    The whole import. Whatever the interleaving of the stores, the chunking of the plain inserts and the other
    modules' rows, over a table without the imported keys a module ends with its table as if its own store alone had
    been processed and upserted at once, as long as its rows name their cache keys or none of its inserts is cut
    between rows of one key.
  */
  lemma ImportLeavesOwnStores(
    db: Tables, cfgs: seq<Config>, mapped: set<string>, chain: string, caches: seq<Cache>,
    stores: seq<Store>, height: nat, stream: seq<TraceOperation>, parts: seq<seq<WritebackOp>>, i: nat)
    requires Interleaves(stream, stores, height) && DistinctNames(stores) && AllMapped(stores, mapped)
    requires |cfgs| == |caches| && DistinctTables(cfgs) && i < |cfgs|
    requires EmitsAll(cfgs, chain, false, AbsorbedAll(cfgs, mapped, caches, stream), parts)
    requires || (ValidCache(caches[i]) && RowsKeyed(cfgs[i], mapped, OwnTraces(stores, cfgs[i].sdkName, height)))
             || (caches[i].Writes? && forall op :: op in parts[i] ==> Whole(op, DB_PLACEHOLDER_LIMIT))
    requires Unobstructed(
               TableOf(db, cfgs[i].table), chain, false,
               Absorbed(cfgs[i], mapped, caches[i], OwnTraces(stores, cfgs[i].sdkName, height)))
    requires Fits(Flatten(parts))
    ensures TableOf(ExecuteOps(db, Pieces(Flatten(parts), DB_PLACEHOLDER_LIMIT)), cfgs[i].table)
         == FlushTable(
              TableOf(db, cfgs[i].table), chain,
              Absorbed(cfgs[i], mapped, caches[i], OwnTraces(stores, cfgs[i].sdkName, height)))
  {
    hide Emits, Unobstructed, FlushTable, Absorbed, Interleaves, Fits, RowsKeyed, ValidCache, Whole;
    ImportIsConfluent(cfgs[i], mapped, caches[i], stores, height, stream);
    if ValidCache(caches[i]) && RowsKeyed(cfgs[i], mapped, OwnTraces(stores, cfgs[i].sdkName, height)) {
      AbsorbedStaysKeyed(cfgs[i], mapped, caches[i], OwnTraces(stores, cfgs[i].sdkName, height));
    } else {
      KeepsKind(cfgs[i], mapped, caches[i], OwnTraces(stores, cfgs[i].sdkName, height));
    }
    FitsIsSplit(Flatten(parts));
    BatchEffect(db, cfgs, chain, false, AbsorbedAll(cfgs, mapped, caches, stream), parts, i);
  }

  lemma FitsIsSplit(batch: seq<WritebackOp>)
    requires Fits(batch)
    ensures forall op :: op in batch ==> Split(op, DB_PLACEHOLDER_LIMIT).Ok?
  {
  }

  ghost function AbsorbedAll(
    cfgs: seq<Config>, mapped: set<string>, caches: seq<Cache>, stream: seq<TraceOperation>): (r: seq<Cache>)
    requires |cfgs| == |caches|
    ensures |r| == |caches|
  {
    seq(|caches|, i requires 0 <= i < |caches| => Absorbed(cfgs[i], mapped, caches[i], stream))
  }

  lemma AbsorbedAllSnoc(
    cfgs: seq<Config>, mapped: set<string>, caches: seq<Cache>, stream: seq<TraceOperation>, data: TraceOperation)
    requires |cfgs| == |caches|
    ensures AbsorbedAll(cfgs, mapped, caches, stream + [data])
         == ReceivedAll(cfgs, mapped, AbsorbedAll(cfgs, mapped, caches, stream), data)
  {
    hide Received, Absorbed;
    forall i | 0 <= i < |caches|
      ensures Absorbed(cfgs[i], mapped, caches[i], stream + [data])
           == Received(cfgs[i], mapped, Absorbed(cfgs[i], mapped, caches[i], stream), data)
    {
      AbsorbedSnoc(cfgs[i], mapped, caches[i], stream, data);
    }
  }

  lemma AbsorbedNothing(cfgs: seq<Config>, mapped: set<string>, caches: seq<Cache>)
    requires |cfgs| == |caches|
    ensures AbsorbedAll(cfgs, mapped, caches, []) == caches
  {
  }

  /** One goroutine of the importer: ranges over its store's entries, each of which the processor gets as a write. */
  method ImportStore(p: Processor, store: Store, height: nat)
    requires p.Valid()
    modifies p, p.objects
    ensures p.Valid() && p.useDBUpsert == old(p.useDBUpsert) && p.lastHeight == old(p.lastHeight)
    ensures p.writebackChan == old(p.writebackChan) && p.parts == old(p.parts)
    ensures p.Caches()
         == AbsorbedAll(
              Configs(p.moduleProcessors), p.sdkModuleMapping.Keys, old(p.Caches()), TracesOf(store, height))
  {
    hide *;
    p.Apart();
    ghost var cfgs, mapped, before := Configs(p.moduleProcessors), p.sdkModuleMapping.Keys, p.Caches();
    ghost var stream := TracesOf(store, height);
    TracesAt(store, height);
    AbsorbedNothing(cfgs, mapped, before);
    assert stream[..0] == [];
    for i := 0 to |store.entries|
      invariant p.Valid() && p.useDBUpsert == old(p.useDBUpsert) && p.lastHeight == old(p.lastHeight)
      invariant p.writebackChan == old(p.writebackChan) && p.parts == old(p.parts)
      invariant p.Caches() == AbsorbedAll(cfgs, mapped, before, stream[..i])
    {
      var entry := store.entries[i];
      var to := TraceOperation("write", entry.key, entry.value, height, store.name);
      AbsorbedAllSnoc(cfgs, mapped, before, stream[..i], to);
      assert stream[..i + 1] == stream[..i] + [to];
      p.ProcessData(to);
    }
    assert stream[..|stream|] == stream;
  }

  lemma TracesAt(store: Store, height: nat)
    ensures |TracesOf(store, height)| == |store.entries|
    ensures forall i :: 0 <= i < |store.entries| ==>
              TracesOf(store, height)[i]
              == TraceOperation("write", store.entries[i].key, store.entries[i].value, height, store.name)
  {
  }

  /** Do, up to the batch it hands to the database: no upserts, every trace processed, one flush. */
  method Collect(p: Processor, stream: seq<TraceOperation>)
    returns (batch: seq<WritebackOp>, ghost parts: seq<seq<WritebackOp>>)
    requires p.Valid()
    modifies p, p.objects
    ensures p.Valid() && !p.useDBUpsert && p.lastHeight == old(p.lastHeight)
    ensures p.Caches() == EmptiedAll(old(p.Caches()))
    ensures batch == Flatten(parts) && p.writebackChan == old(p.writebackChan) + [batch]
    ensures EmitsAll(
              Configs(p.moduleProcessors), p.chainName, false,
              AbsorbedAll(Configs(p.moduleProcessors), p.sdkModuleMapping.Keys, old(p.Caches()), stream), parts)
  {
    hide *;
    p.Apart();
    ghost var cfgs, mapped, before := Configs(p.moduleProcessors), p.sdkModuleMapping.Keys, p.Caches();
    p.SetDBUpsertEnabled(false);
    AbsorbedNothing(cfgs, mapped, before);
    assert stream[..0] == [];
    for i := 0 to |stream|
      invariant p.Valid() && !p.useDBUpsert && p.lastHeight == old(p.lastHeight)
      invariant p.writebackChan == old(p.writebackChan) && p.parts == old(p.parts)
      invariant p.Caches() == AbsorbedAll(cfgs, mapped, before, stream[..i])
    {
      AbsorbedAllSnoc(cfgs, mapped, before, stream[..i], stream[i]);
      assert stream[..i + 1] == stream[..i] + [stream[i]];
      p.ProcessData(stream[i]);
    }
    assert stream[..|stream|] == stream;
    EmptiesTheSame(cfgs, mapped, before, stream);
    p.Flush();
    parts := OnePart(
      cfgs, p.chainName, false, AbsorbedAll(cfgs, mapped, before, stream),
      old(p.writebackChan), p.writebackChan, old(p.parts), p.parts);
    batch := p.writebackChan[|p.writebackChan| - 1];
  }

  lemma EmptiesTheSame(cfgs: seq<Config>, mapped: set<string>, caches: seq<Cache>, stream: seq<TraceOperation>)
    requires |cfgs| == |caches|
    ensures EmptiedAll(AbsorbedAll(cfgs, mapped, caches, stream)) == EmptiedAll(caches)
  {
    hide Absorbed;
    forall i | 0 <= i < |caches| ensures Emptied(Absorbed(cfgs[i], mapped, caches[i], stream)) == Emptied(caches[i]) {
      KeepsKind(cfgs[i], mapped, caches[i], stream);
    }
  }

  lemma {:induction false} KeepsKind(cfg: Config, mapped: set<string>, c: Cache, stream: seq<TraceOperation>)
    ensures Emptied(Absorbed(cfg, mapped, c, stream)) == Emptied(c)
    decreases |stream|
  {
    if stream != [] {
      KeepsKind(cfg, mapped, c, stream[..|stream| - 1]);
    }
  }
}
