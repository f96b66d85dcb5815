/**
  The module caches of tracelistener/processor: the write-only shape (bank, auth, ibc_*, denom traces, cw20)
  and the set-update shape (delegations). Decoding a trace into a row is a parameter of the module.
*/
module Modules {
  import opened Wrappers
  import opened Sql
  import opened Chunking
  import Keys

  datatype TraceOperation = TraceOperation(
    operation: string, key: seq<Keys.byte>, value: seq<Keys.byte>, blockHeight: nat, suggestedProcessor: string)

  const DELETE_OP := "delete"

  /** A cache entry's key: the values of the module's unique columns, without the chain name. */
  type CacheKey = seq<string>

  /**
    What is fixed about a module: names, table, the keys it owns, how it decodes a trace, and the key it caches the row
    under.
  */
  datatype Config = Config(
    name: string, sdkName: string, table: string,
    owns: seq<Keys.byte> -> bool,
    unmarshal: TraceOperation -> Result<Row, string>,
    cacheKey: TraceOperation -> CacheKey)

  /** The row, if the trace decodes to one, names in its columns the key it is cached under. */
  predicate NamesItsKey(cfg: Config, data: TraceOperation) {
    cfg.unmarshal(data).Ok? ==> cfg.unmarshal(data).value.columns == cfg.cacheKey(data)
  }

  type RowCache = map<CacheKey, Row>

  datatype Cache = Writes(rows: RowCache) | Updates(inserts: RowCache, deletes: RowCache)

  function Emptied(c: Cache): Cache {
    if c.Writes? then Writes(map[]) else Updates(map[], map[])
  }

  function WriteRows(c: Cache): RowCache {
    match c
    case Writes(rows) => rows
    case Updates(inserts, _) => inserts
  }

  function DeleteRowsOf(c: Cache): RowCache {
    match c
    case Writes(_) => map[]
    case Updates(_, deletes) => deletes
  }

  /** What Process leaves in a cache; a trace that does not decode changes nothing. */
  function Processed(cfg: Config, c: Cache, data: TraceOperation): Cache {
    match cfg.unmarshal(data)
    case Err(_) => c
    case Ok(row) =>
      match c
      case Writes(rows) => Writes(rows[cfg.cacheKey(data) := row])
      case Updates(inserts, deletes) =>
        if data.operation == DELETE_OP
        then Updates(inserts, deletes[cfg.cacheKey(data) := row])
        else Updates(inserts[cfg.cacheKey(data) := row], deletes)
  }

  /** The error Process reports. */
  function ErrorOf(cfg: Config, data: TraceOperation): Option<string> {
    match cfg.unmarshal(data)
    case Ok(_) => None
    case Err(e) => Some(e)
  }

  /** Cached rows carry their own cache key. */
  ghost predicate WellKeyed(m: RowCache) {
    forall k :: k in m ==> m[k].columns == k
  }

  ghost predicate ValidCache(c: Cache) {
    match c
    case Writes(rows) => WellKeyed(rows)
    case Updates(inserts, deletes) => WellKeyed(inserts) && WellKeyed(deletes)
  }

  /**
    Processing a trace keeps the rows under their own keys if and only if the decoded row, if any, names its cache
    key.
  */
  lemma ProcessedKeepsKeysIff(cfg: Config, c: Cache, data: TraceOperation)
    requires ValidCache(c)
    ensures ValidCache(Processed(cfg, c, data)) <==> NamesItsKey(cfg, data)
  {
    if cfg.unmarshal(data).Ok? {
      var row, k := cfg.unmarshal(data).value, cfg.cacheKey(data);
      var c' := Processed(cfg, c, data);
      match c'
      case Writes(rows) => assert rows[k] == row;
      case Updates(inserts, deletes) =>
        assert if data.operation == DELETE_OP then deletes[k] == row else inserts[k] == row;
    }
  }

  // ---------------------------------------------------------------- rows of a cache, in any order

  /** rows[i] is the row cached under keys[i], and keys has every cache key once. */
  ghost predicate ListedBy(keys: seq<CacheKey>, rows: seq<Row>, m: RowCache) {
    && |keys| == |rows|
    && (forall i, j :: 0 <= i < j < |keys| ==> keys[i] != keys[j])
    && (forall i :: 0 <= i < |keys| ==> keys[i] in m && m[keys[i]] == rows[i])
    && (forall k :: k in m ==> k in keys)
  }

  /** rows lists the row of every cache entry once, in any order. */
  ghost predicate Lists(rows: seq<Row>, m: RowCache) {
    exists keys :: ListedBy(keys, rows, m)
  }

  method ListRows(m: RowCache) returns (rows: seq<Row>)
    ensures Lists(rows, m)
    ensures rows == [] <==> m == map[]
  {
    rows := [];
    ghost var keys: seq<CacheKey> := [];
    var remaining := m.Keys;
    while remaining != {}
      invariant remaining <= m.Keys && |keys| == |rows|
      invariant forall i, j :: 0 <= i < j < |keys| ==> keys[i] != keys[j]
      invariant forall i :: 0 <= i < |keys| ==> keys[i] in m && m[keys[i]] == rows[i] && keys[i] !in remaining
      invariant forall k :: k in m && k !in remaining ==> k in keys
      decreases |remaining|
    {
      var k :| k in remaining;
      rows, keys := rows + [m[k]], keys + [k];
      remaining := remaining - {k};
    }
    assert ListedBy(keys, rows, m);
    ListsNothing(rows, m);
  }

  lemma NothingListed()
    ensures Lists([], map[])
  {
    assert ListedBy([], [], map[]);
  }

  lemma ListsNothing(rows: seq<Row>, m: RowCache)
    requires Lists(rows, m)
    ensures rows == [] <==> m == map[]
  {
    var keys :| ListedBy(keys, rows, m);
    if rows == [] {
      assert forall k :: k in m ==> k in keys;
      assert m == map[];
    } else {
      assert keys[0] in m;
    }
  }

  function WithChainName(r: Row, chain: string): Row {
    r.(chain := chain)
  }

  function Stamped(rows: seq<Row>, chain: string): (s: seq<Row>)
    ensures |s| == |rows|
  {
    seq(|rows|, i requires 0 <= i < |rows| => WithChainName(rows[i], chain))
  }

  /** The cache as the database sees it: keys and rows carry the chain name. */
  function Stamp(m: RowCache, chain: string): map<Key, Row> {
    map k | k in m :: Key(chain, k) := WithChainName(m[k], chain)
  }

  lemma StampContents(m: RowCache, chain: string, k: Key)
    ensures k in Stamp(m, chain) <==> k.chain == chain && k.columns in m
    ensures k in Stamp(m, chain) ==> Stamp(m, chain)[k] == WithChainName(m[k.columns], chain)
  {
    assert k == Key(k.chain, k.columns);
  }

  lemma StampUpdate(m: RowCache, chain: string, row: Row, k: Key)
    ensures k in Stamp(m[row.columns := row], chain) <==> k in Stamp(m, chain) || k == Key(chain, row.columns)
    ensures k == Key(chain, row.columns) ==> Stamp(m[row.columns := row], chain)[k] == WithChainName(row, chain)
    ensures k in Stamp(m, chain) && k != Key(chain, row.columns) ==>
              Stamp(m[row.columns := row], chain)[k] == Stamp(m, chain)[k]
  {
    StampContents(m, chain, k);
    StampContents(m[row.columns := row], chain, k);
  }

  lemma StampGrows(m: RowCache, chain: string, row: Row)
    ensures Stamp(m[row.columns := row], chain) == Stamp(m, chain)[Key(chain, row.columns) := WithChainName(row, chain)]
  {
    hide Stamp;
    forall k { StampUpdate(m, chain, row, k); }
  }

  /** The cache with the chain's name on its rows. */
  function StampRows(m: RowCache, chain: string): RowCache {
    map k | k in m :: WithChainName(m[k], chain)
  }

  lemma ListedByStamped(keys: seq<CacheKey>, rows: seq<Row>, m: RowCache, chain: string)
    requires ListedBy(keys, rows, m)
    ensures ListedBy(keys, Stamped(rows, chain), StampRows(m, chain))
  {
    var data, stamped := Stamped(rows, chain), StampRows(m, chain);
    forall i | 0 <= i < |keys| ensures keys[i] in stamped && stamped[keys[i]] == data[i] {
      assert keys[i] in m && m[keys[i]] == rows[i];
    }
    assert forall k :: k in stamped ==> k in m;
  }

  lemma ListsStamped(rows: seq<Row>, m: RowCache, chain: string)
    requires Lists(rows, m)
    ensures Lists(Stamped(rows, chain), StampRows(m, chain))
  {
    var keys :| ListedBy(keys, rows, m);
    ListedByStamped(keys, rows, m, chain);
  }

  /** The list has a row for each cached one, once: the chain's name, and the cached height, columns and values. */
  ghost predicate Carries(data: seq<Row>, m: RowCache, chain: string) {
    && |data| == |m|
    && (forall i :: 0 <= i < |data| ==> CarriesOne(data[i], m, chain))
    && (forall k :: k in m ==> Row(chain, m[k].height, m[k].columns, m[k].values) in data)
  }

  ghost predicate CarriesOne(r: Row, m: RowCache, chain: string) {
    exists k :: k in m && r == Row(chain, m[k].height, m[k].columns, m[k].values)
  }

  lemma {:induction false} KeysListedOnce(keys: seq<CacheKey>, s: set<CacheKey>)
    requires forall i, j :: 0 <= i < j < |keys| ==> keys[i] != keys[j]
    requires forall k :: k in s <==> k in keys
    ensures |keys| == |s|
    decreases |keys|
  {
    if keys == [] {
      assert s == {};
    } else {
      var front, last := keys[..|keys| - 1], keys[|keys| - 1];
      assert keys == front + [last];
      KeysListedOnce(front, s - {last});
    }
  }

  /** The rows listed under the chain's name lose nothing and change nothing but that name. */
  lemma ListedRowsCarry(data: seq<Row>, m: RowCache, chain: string)
    requires Lists(data, StampRows(m, chain))
    ensures Carries(data, m, chain)
  {
    var keys :| ListedBy(keys, data, StampRows(m, chain));
    ListedAt(keys, data, m, chain);
    KeysListedOnce(keys, m.Keys);
    forall i | 0 <= i < |data| ensures CarriesOne(data[i], m, chain) {
      var k := keys[i];
      assert k in m && data[i] == Row(chain, m[k].height, m[k].columns, m[k].values);
    }
    forall k | k in m ensures Row(chain, m[k].height, m[k].columns, m[k].values) in data {
      var i :| 0 <= i < |keys| && keys[i] == k;
      assert data[i] == StampRows(m, chain)[k];
    }
  }

  /** No two cached rows have the same unique columns. */
  ghost predicate DistinctColumns(m: RowCache) {
    forall k, l :: k in m && l in m && k != l ==> m[k].columns != m[l].columns
  }

  lemma ListedAt(keys: seq<CacheKey>, data: seq<Row>, m: RowCache, chain: string)
    requires ListedBy(keys, data, StampRows(m, chain))
    ensures forall i :: 0 <= i < |keys| ==> keys[i] in m && KeyOf(data[i]) == Key(chain, m[keys[i]].columns)
    ensures forall k :: k in m ==> k in keys
  {
    assert forall k :: k in m ==> k in StampRows(m, chain);
  }

  lemma SameKeyTwice(data: seq<Row>, i: nat, j: nat)
    requires i < |data| && j < |data| && i != j && KeyOf(data[i]) == KeyOf(data[j])
    ensures !DistinctKeys(data)
  {
    var lo, hi := if i < j then i else j, if i < j then j else i;
    assert KeyOf(data[lo]) == KeyOf(data[hi]);
  }

  /** The rows of a flush have distinct conflict keys if and only if the cached rows have distinct columns. */
  lemma ListedKeysDistinctIff(data: seq<Row>, m: RowCache, chain: string)
    requires Lists(data, StampRows(m, chain))
    ensures DistinctKeys(data) <==> DistinctColumns(m)
  {
    hide DistinctKeys;
    var keys :| ListedBy(keys, data, StampRows(m, chain));
    ListedAt(keys, data, m, chain);
    if !DistinctColumns(m) {
      var k, l :| k in m && l in m && k != l && m[k].columns == m[l].columns;
      assert k in keys && l in keys;
      var i :| 0 <= i < |keys| && keys[i] == k;
      var j :| 0 <= j < |keys| && keys[j] == l;
      SameKeyTwice(data, i, j);
    } else {
      DistinctListed(keys, data, m, chain);
    }
  }

  lemma DistinctListed(keys: seq<CacheKey>, data: seq<Row>, m: RowCache, chain: string)
    requires ListedBy(keys, data, StampRows(m, chain)) && DistinctColumns(m)
    ensures DistinctKeys(data)
  {
    ListedAt(keys, data, m, chain);
  }

  lemma WellKeyedIsDistinct(m: RowCache)
    requires WellKeyed(m)
    ensures DistinctColumns(m)
  {
  }

  /** The cached rows by conflict key, whatever they are cached under. */
  ghost function ByColumns(m: RowCache, chain: string): map<Key, Row>
    requires DistinctColumns(m)
  {
    map k | k in m :: Key(chain, m[k].columns) := WithChainName(m[k], chain)
  }

  /**
    What the write statement of a flush brings to the table: all cached rows, or none when two of them name one key.
  */
  ghost function Delivered(m: RowCache, chain: string): map<Key, Row> {
    if DistinctColumns(m) then ByColumns(m, chain) else map[]
  }

  lemma DeliveredContents(m: RowCache, chain: string)
    ensures DistinctColumns(m) ==> forall k :: k in m ==>
              var key := Key(chain, m[k].columns);
              key in Delivered(m, chain) && Delivered(m, chain)[key] == WithChainName(m[k], chain)
    ensures forall key :: key in Delivered(m, chain) ==>
              DistinctColumns(m) && exists k :: k in m && key == Key(chain, m[k].columns)
  {
  }

  /** Rows under their own keys are delivered, and under just those keys. */
  lemma DeliveredOfKeyed(m: RowCache, chain: string)
    requires WellKeyed(m)
    ensures Delivered(m, chain) == Stamp(m, chain)
  {
    WellKeyedIsDistinct(m);
  }

  /** The rows of a flush list what it delivers, whatever order they are ranged over in. */
  lemma ListedRowsDelivered(data: seq<Row>, m: RowCache, chain: string)
    requires Lists(data, StampRows(m, chain)) && DistinctColumns(m)
    ensures Enumerates(data, Delivered(m, chain))
  {
    hide ByKey, ByColumns, Delivered, Lists, ListedBy, DistinctKeys, DistinctColumns;
    ListedKeysDistinctIff(data, m, chain);
    ByKeyOfDistinct(data);
    ByKeyContents(data);
    forall k ensures k in ByKey(data) <==> k in Delivered(m, chain)
      ensures k in ByKey(data) ==> ByKey(data)[k] == Delivered(m, chain)[k]
    {
      ListedMentions(data, m, chain, k);
    }
  }

  /** The listed rows have a row of conflict key k exactly when one is delivered, and it is that row. */
  lemma ListedMentions(data: seq<Row>, m: RowCache, chain: string, k: Key)
    requires Lists(data, StampRows(m, chain)) && DistinctColumns(m)
    ensures Mentions(data, k) <==> k in Delivered(m, chain)
    ensures forall i :: 0 <= i < |data| && KeyOf(data[i]) == k ==>
              k in Delivered(m, chain) && data[i] == Delivered(m, chain)[k]
  {
    hide ByColumns, Delivered;
    var keys :| ListedBy(keys, data, StampRows(m, chain));
    DeliveredContents(m, chain);
    ListedAt(keys, data, m, chain);
    forall i | 0 <= i < |data| && KeyOf(data[i]) == k
      ensures k in Delivered(m, chain) && data[i] == Delivered(m, chain)[k]
    {
      assert keys[i] in m && k == Key(chain, m[keys[i]].columns);
    }
    if k in Delivered(m, chain) {
      var c :| c in m && k == Key(chain, m[c].columns);
      assert c in keys;
      var i :| 0 <= i < |keys| && keys[i] == c;
      assert KeyOf(data[i]) == k;
    }
  }

  lemma ListedRowsEnumerate(data: seq<Row>, m: RowCache, chain: string)
    requires WellKeyed(m) && Lists(data, StampRows(m, chain))
    ensures Enumerates(data, Stamp(m, chain))
  {
    hide Lists, Stamp, Delivered;
    WellKeyedIsDistinct(m);
    DeliveredOfKeyed(m, chain);
    ListedRowsDelivered(data, m, chain);
  }

  // ---------------------------------------------------------------- the module objects

  class BankProcessor {
    const config: Config
    var heightCache: RowCache

    constructor (config: Config)
      ensures this.config == config && heightCache == map[]
    {
      this.config := config;
      heightCache := map[];
    }

    method FlushCache() returns (ops: seq<WritebackOp>)
      modifies this
      ensures heightCache == map[]
      ensures old(heightCache) == map[] ==> ops == []
      ensures old(heightCache) != map[] ==>
                |ops| == 1 && ops[0].typ == WriteOp && Lists(ops[0].data, old(heightCache))
    {
      if heightCache == map[] {
        return [];
      }
      var l := ListRows(heightCache);
      heightCache := map[];
      return [WritebackOp(WriteOp, l, Unset, "")];
    }

    method Process(data: TraceOperation) returns (err: Option<string>)
      modifies this
      ensures config.unmarshal(data).Ok? ==>
                err.None? && heightCache == old(heightCache)[config.cacheKey(data) := config.unmarshal(data).value]
      ensures config.unmarshal(data).Err? ==>
                err == Some(config.unmarshal(data).error) && heightCache == old(heightCache)
      ensures Writes(heightCache) == Processed(config, Writes(old(heightCache)), data)
      ensures err == ErrorOf(config, data)
    {
      var res := config.unmarshal(data);
      if res.Err? {
        return Some(res.error);
      }
      heightCache := heightCache[config.cacheKey(data) := res.value];
      return None;
    }
  }

  /** One delete op per row, each with exactly one row. */
  ghost predicate SingleDeletes(ops: seq<WritebackOp>) {
    forall i :: 0 <= i < |ops| ==> ops[i].typ == DeleteOp && |ops[i].data| == 1
  }

  ghost function Heads(ops: seq<WritebackOp>): (h: seq<Row>)
    requires forall i :: 0 <= i < |ops| ==> |ops[i].data| == 1
    ensures |h| == |ops|
  {
    seq(|ops|, i requires 0 <= i < |ops| => ops[i].data[0])
  }

  class DelegationsProcessor {
    const config: Config
    var insertHeightCache: RowCache
    var deleteHeightCache: RowCache

    constructor (config: Config)
      ensures this.config == config && insertHeightCache == map[] && deleteHeightCache == map[]
    {
      this.config := config;
      insertHeightCache := map[];
      deleteHeightCache := map[];
    }

    /** The write op comes first, even when it has no rows, and one delete op per cached delete follows. */
    method FlushCache() returns (ops: seq<WritebackOp>)
      modifies this
      ensures insertHeightCache == map[] && deleteHeightCache == map[]
      ensures old(insertHeightCache) == map[] && old(deleteHeightCache) == map[] ==> ops == []
      ensures !(old(insertHeightCache) == map[] && old(deleteHeightCache) == map[]) ==>
                && |ops| >= 1 && ops[0].typ == WriteOp && Lists(ops[0].data, old(insertHeightCache))
                && SingleDeletes(ops[1..]) && Lists(Heads(ops[1..]), old(deleteHeightCache))
    {
      hide Lists;
      var insert: seq<Row> := [];
      if insertHeightCache != map[] {
        insert := ListRows(insertHeightCache);
        insertHeightCache := map[];
      } else {
        NothingListed();
      }
      ops := [WritebackOp(WriteOp, insert, Unset, "")];
      if deleteHeightCache == map[] && insert == [] {
        return [];
      }
      var deletes := ListRows(deleteHeightCache);
      for i := 0 to |deletes|
        invariant |ops| == i + 1 && ops[0] == WritebackOp(WriteOp, insert, Unset, "")
        invariant forall j :: 1 <= j < |ops| ==> ops[j] == WritebackOp(DeleteOp, [deletes[j - 1]], Unset, "")
      {
        ops := ops + [WritebackOp(DeleteOp, [deletes[i]], Unset, "")];
      }
      assert Heads(ops[1..]) == deletes;
      deleteHeightCache := map[];
    }

    method Process(data: TraceOperation) returns (err: Option<string>)
      modifies this
      ensures config.unmarshal(data).Ok? && data.operation == "delete" ==>
                && err.None? && insertHeightCache == old(insertHeightCache)
                && deleteHeightCache == old(deleteHeightCache)[config.cacheKey(data) := config.unmarshal(data).value]
      ensures config.unmarshal(data).Ok? && data.operation != "delete" ==>
                && err.None? && deleteHeightCache == old(deleteHeightCache)
                && insertHeightCache == old(insertHeightCache)[config.cacheKey(data) := config.unmarshal(data).value]
      ensures config.unmarshal(data).Err? ==>
                && err == Some(config.unmarshal(data).error)
                && insertHeightCache == old(insertHeightCache) && deleteHeightCache == old(deleteHeightCache)
      ensures Updates(insertHeightCache, deleteHeightCache)
           == Processed(config, Updates(old(insertHeightCache), old(deleteHeightCache)), data)
      ensures err == ErrorOf(config, data)
    {
      var res := config.unmarshal(data);
      if res.Err? {
        return Some(res.error);
      }
      if data.operation == DELETE_OP {
        deleteHeightCache := deleteHeightCache[config.cacheKey(data) := res.value];
        return None;
      }
      insertHeightCache := insertHeightCache[config.cacheKey(data) := res.value];
      return None;
    }
  }

  // ---------------------------------------------------------------- delegation deletes

  /** How a delegation delete is decoded: both addresses from the store key, and no other field. */
  function DecodeDelegationDelete(data: TraceOperation): Result<Row, string> {
    var split := Keys.SplitDelegationKey(data.key);
    if split.Err? then Err("malformed key")
    else if split.value.delegator == "" || split.value.validator == "" then Err("badly-formatted key")
    else Ok(Row("", data.blockHeight, [split.value.delegator, split.value.validator], [""]))
  }

  /**
    A delete names the delegation of its store key: delegator first, validator second, both in hexadecimal, at the
    height of its block.
  */
  lemma DelegationDeleteNames(data: TraceOperation, prefix: Keys.byte, del: seq<Keys.byte>, val: seq<Keys.byte>)
    requires 1 <= |del| <= 254 && 1 <= |val| <= 255 && data.key == Keys.DelegationKey(prefix, del, val)
    ensures DecodeDelegationDelete(data) == Ok(Row("", data.blockHeight, [Keys.Hex(del), Keys.Hex(val)], [""]))
  {
    Keys.ParsesWellFormedIff(prefix, del, val);
  }

  /**
    And those are the only keys it accepts. A key on which the parser slices out of bounds, which ends the process, is
    an error here.
  */
  lemma DelegationDeleteLanguage(data: TraceOperation)
    ensures DecodeDelegationDelete(data).Ok? <==>
              exists prefix, del, val ::
                1 <= |del| <= 254 && 1 <= |val| <= 255 && data.key == Keys.DelegationKey(prefix, del, val)
  {
    if DecodeDelegationDelete(data).Ok? {
      Keys.DelegationKeyLanguage(data.key);
      var prefix, del, val :| |del| <= 254 && |val| <= 255 && data.key == Keys.DelegationKey(prefix, del, val);
      Keys.ParsesWellFormedIff(prefix, del, val);
      assert |del| >= 1 && |val| >= 1;
    }
    forall prefix, del, val | 1 <= |del| <= 254 && 1 <= |val| <= 255 && data.key == Keys.DelegationKey(prefix, del, val)
      ensures DecodeDelegationDelete(data).Ok?
    {
      DelegationDeleteNames(data, prefix, del, val);
    }
  }

  /** The delegations module over the decoder of its deletes; prefix is the first byte of the keys it owns. */
  function DelegationsConfig(prefix: Keys.byte, decodeWrite: TraceOperation -> Result<Row, string>): Config {
    Config(
      "delegations", "staking", "tracelistener.delegations", key => Keys.HasPrefix(key, [prefix]),
      data => DecodeDelegation(decodeWrite, data),
      data => if DecodeDelegation(decodeWrite, data).Ok? then DecodeDelegation(decodeWrite, data).value.columns else [])
  }

  /** The module owns the keys of its prefix byte and no others. */
  lemma OwnsItsPrefix(prefix: Keys.byte, decodeWrite: TraceOperation -> Result<Row, string>, key: seq<Keys.byte>)
    ensures DelegationsConfig(prefix, decodeWrite).owns(key) <==> key != [] && key[0] == prefix
  {
    if key != [] { assert key[..1] == [key[0]]; }
  }

  function DecodeDelegation(
    decodeWrite: TraceOperation -> Result<Row, string>, data: TraceOperation): Result<Row, string>
  {
    if data.operation == DELETE_OP then DecodeDelegationDelete(data) else decodeWrite(data)
  }

  /** Deletes of two different store keys with one prefix byte never share a cache entry. */
  lemma DelegationDeletesDoNotCollide(a: TraceOperation, b: TraceOperation)
    requires DecodeDelegationDelete(a).Ok? && DecodeDelegationDelete(b).Ok?
    requires a.key[0] == b.key[0]
    ensures DecodeDelegationDelete(a).value.columns == DecodeDelegationDelete(b).value.columns <==> a.key == b.key
  {
    var ca, cb := DecodeDelegationDelete(a).value.columns, DecodeDelegationDelete(b).value.columns;
    if ca == cb {
      assert ca[0] == cb[0] && ca[1] == cb[1];
      Keys.SplitDelegationKeyInjective(a.key, b.key);
    }
  }
}
