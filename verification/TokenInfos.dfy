/**
  The token infos of CW20 contracts (tracelistener/processor/cw20_token_info.go), the one module whose rows need not
  name the key they are cached under: the contract's own JSON is unmarshalled over the row.
*/
module TokenInfos {
  import opened Wrappers
  import opened Sql
  import opened Chunking
  import opened Writeback
  import opened Modules
  import opened Processing
  import opened Flushing
  import opened Refinement
  import opened WriteEpochs
  import Keys

  /** The JSON fields that land in the row; the chain's name is one more, but a flush overwrites it. */
  datatype TokenJson = TokenJson(contract: Option<string>, height: Option<nat>, info: seq<string>)

  /** JSON decoding is a parameter; None is a value that does not unmarshal into a row. */
  type Parser = seq<Keys.byte> -> Option<TokenJson>

  /** The row starts with the contract of the store key and the block's height; what the JSON names replaces them. */
  function TokenRow(contract: string, blockHeight: nat, json: TokenJson): Row {
    Row(
      "", if json.height.Some? then json.height.value else blockHeight,
      [if json.contract.Some? then json.contract.value else contract], json.info)
  }

  function Unmarshal(parse: Parser, data: TraceOperation): Result<Row, string> {
    var contract := Keys.SplitCW20TokenInfoKey(data.key);
    if contract.Err? then Err("malformed cw20 token_info key")
    else
      var json := parse(data.value);
      if json.None? then Err("unmarshal cw20 token_info value")
      else Ok(TokenRow(contract.value, data.blockHeight, json.value))
  }

  function CacheKeyOf(data: TraceOperation): CacheKey {
    var contract := Keys.SplitCW20TokenInfoKey(data.key);
    if contract.Ok? then [contract.value] else []
  }

  function TokenInfosConfig(parse: Parser): Config {
    Config(
      "cw20_token_infos", "cw20", "tracelistener.cw20_token_infos",
      key => Keys.SplitCW20TokenInfoKey(key).Ok?, data => Unmarshal(parse, data), data => CacheKeyOf(data))
  }

  function ViewOf(parse: Parser, mapped: set<string>, chain: string): View {
    View(TokenInfosConfig(parse), mapped, chain)
  }

  // ---------------------------------------------------------------- tokens that keep to their own row

  /** The JSON names no contract but the one of the store key, and no height but the block's. */
  predicate Plain(parse: Parser, data: TraceOperation) {
    Unmarshal(parse, data).Ok? ==>
      var json := parse(data.value).value;
      && (json.contract.Some? ==> [json.contract.value] == CacheKeyOf(data))
      && (json.height.Some? ==> json.height.value == data.blockHeight)
  }

  /**
    A stream meets the hypotheses of the theorems about chronological runs, with no skip row, if and only if every
    accepted trace is plain.
  */
  lemma PlainTokensQualifyIff(parse: Parser, mapped: set<string>, chain: string, stream: seq<TraceOperation>)
    ensures Keyed(ViewOf(parse, mapped, chain), stream) && RowsTimed(ViewOf(parse, mapped, chain), None, stream)
       <==> forall i :: 0 <= i < |stream| && Accepted(ViewOf(parse, mapped, chain), stream[i]) ==>
            Plain(parse, stream[i])
  {
    var v := ViewOf(parse, mapped, chain);
    forall i | 0 <= i < |stream| && Accepted(v, stream[i])
      ensures Plain(parse, stream[i]) <==>
                NamesItsKey(v.cfg, stream[i]) && Timed(None, RowOf(v, stream[i]), stream[i].blockHeight)
    {
      PlainIff(parse, mapped, chain, stream[i]);
    }
    assert Keyed(v, stream) <==>
        forall i :: 0 <= i < |stream| && Accepted(v, stream[i]) ==> NamesItsKey(v.cfg, stream[i]);
  }

  lemma PlainIff(parse: Parser, mapped: set<string>, chain: string, data: TraceOperation)
    requires Accepted(ViewOf(parse, mapped, chain), data)
    ensures var v := ViewOf(parse, mapped, chain);
            Plain(parse, data) <==> NamesItsKey(v.cfg, data) && Timed(None, RowOf(v, data), data.blockHeight)
  {
  }

  // ---------------------------------------------------------------- tokens that name another's row

  /** The store's write of a token info. */
  function Trace(contract: seq<Keys.byte>, value: seq<Keys.byte>, height: nat): TraceOperation {
    TraceOperation("write", Keys.TokenInfoKey(contract), value, height, "")
  }

  lemma TraceDecodes(parse: Parser, contract: seq<Keys.byte>, value: seq<Keys.byte>, height: nat)
    requires |contract| == 32 && parse(value).Some?
    ensures var cfg, data := TokenInfosConfig(parse), Trace(contract, value, height);
            && cfg.owns(data.key) && cfg.cacheKey(data) == [Keys.Hex(contract)]
            && cfg.unmarshal(data) == Ok(TokenRow(Keys.Hex(contract), height, parse(value).value))
  {
    Keys.TokenInfoKeyLanguage(Keys.TokenInfoKey(contract));
  }

  /** Field by field: what the JSON names stands in the row, and the store key and the block fill the rest. */
  lemma TokenRowFields(parse: Parser, data: TraceOperation)
    ensures TokenInfosConfig(parse).owns(data.key) <==>
              exists c: seq<Keys.byte> :: |c| == 32 && data.key == Keys.TokenInfoKey(c)
    ensures Unmarshal(parse, data).Ok? <==>
              parse(data.value).Some? && exists c: seq<Keys.byte> :: |c| == 32 && data.key == Keys.TokenInfoKey(c)
    ensures forall c: seq<Keys.byte> :: |c| == 32 && data.key == Keys.TokenInfoKey(c) && parse(data.value).Some? ==>
              var json, row := parse(data.value).value, Unmarshal(parse, data).value;
              && row.chain == "" && row.values == json.info
              && row.height == (match json.height case Some(h) => h case None => data.blockHeight)
              && row.columns == [match json.contract case Some(named) => named case None => Keys.Hex(c)]
              && CacheKeyOf(data) == [Keys.Hex(c)]
  {
    Keys.TokenInfoKeyLanguage(data.key);
  }

  /**
    A decoded token info of a live trace, or of a bulk import of its store, is cached under the contract of its key.
  */
  lemma TokenIsCached(
    parse: Parser, mapped: set<string>, held: RowCache, data: TraceOperation, contract: seq<Keys.byte>)
    requires |contract| == 32 && data.key == Keys.TokenInfoKey(contract) && parse(data.value).Some?
    requires data.suggestedProcessor in ["", "cw20"]
    ensures var cfg, json := TokenInfosConfig(parse), parse(data.value).value;
            var height := match json.height case Some(h) => h case None => data.blockHeight;
            var named := match json.contract case Some(c) => c case None => Keys.Hex(contract);
            Received(cfg, mapped, Writes(held), data)
            == Writes(held[[Keys.Hex(contract)] := Row("", height, [named], json.info)])
  {
    TokenRowFields(parse, data);
  }

  /**
    Two contracts whose JSON names the same address, processed in one epoch by a module that may hold anything else: the
    statement of the flush names that address twice, so the database refuses it, and no row of the epoch is written. Cut
    into pieces it is lost all the same if and only if each piece names a key twice or has nothing newer than the table.
  */
  lemma SharedAddressLosesFlush(
    parse: Parser, chain: string, db: Tables, held: RowCache, height: nat,
    a: seq<Keys.byte>, b: seq<Keys.byte>, x: seq<Keys.byte>, y: seq<Keys.byte>, op: WritebackOp)
    requires |a| == |b| == 32 && a != b && parse(x).Some? && parse(y).Some?
    requires parse(x).value.contract.Some? && parse(x).value.contract == parse(y).value.contract
    requires var cfg := TokenInfosConfig(parse);
             var c := Processed(cfg, Processed(cfg, Writes(held), Trace(a, x, height)), Trace(b, y, height));
             EmitsWrite(cfg, chain, true, c.rows, op)
    ensures !DistinctKeys(op.data)
    ensures forall name :: TableOf(ExecuteOp(db, op), name) == TableOf(db, name)
    ensures forall limit :: Split(op, limit).Ok? ==>
              (ExecuteOps(db, Split(op, limit).value) == ExecuteOp(db, op)
               <==> forall piece :: piece in Split(op, limit).value ==>
                    Quiet(TableOf(db, op.query.table), Upsert, piece.data))
  {
    hide Lists, DistinctKeys, Split, Quiet;
    var cfg := TokenInfosConfig(parse);
    var c := Processed(cfg, Processed(cfg, Writes(held), Trace(a, x, height)), Trace(b, y, height));
    TraceDecodes(parse, a, x, height);
    TraceDecodes(parse, b, y, height);
    if Keys.Hex(a) == Keys.Hex(b) { Keys.HexInjective(a, b); }
    var k, l := [Keys.Hex(a)], [Keys.Hex(b)];
    assert k[0] != l[0];
    assert k in c.rows && l in c.rows && c.rows[k].columns == c.rows[l].columns;
    WriteOpRunsIff(db, cfg, chain, c.rows, op);
    forall limit | Split(op, limit).Ok? { SplitIsTransparentIff(db, op, limit); }
  }

  // ---------------------------------------------------------------- which flushes of token infos run

  ghost predicate Accepts(parse: Parser, mapped: set<string>, data: TraceOperation) {
    WritesRow(TokenInfosConfig(parse), mapped, data)
  }

  /** The contract whose row an accepted trace writes: the one its JSON names, or the one of the store key. */
  function NamedContract(parse: Parser, data: TraceOperation): string
    requires Unmarshal(parse, data).Ok?
  {
    var json := parse(data.value).value;
    if json.contract.Some? then json.contract.value else Keys.SplitCW20TokenInfoKey(data.key).value
  }

  /** The last accepted trace of its store key in the block. */
  ghost predicate LastOfContract(parse: Parser, mapped: set<string>, block: seq<TraceOperation>, i: nat)
    requires i < |block|
  {
    && Accepts(parse, mapped, block[i])
    && forall j :: i < j < |block| && Accepts(parse, mapped, block[j]) ==> block[j].key != block[i].key
  }

  /** No two contracts name the same one with their last values. */
  ghost predicate NamesDiffer(parse: Parser, mapped: set<string>, block: seq<TraceOperation>) {
    forall i, j ::
      0 <= i < j < |block| && LastOfContract(parse, mapped, block, i) && LastOfContract(parse, mapped, block, j) ==>
        NamedContract(parse, block[i]) != NamedContract(parse, block[j])
  }

  lemma SameEntryIff(parse: Parser, mapped: set<string>, a: TraceOperation, b: TraceOperation)
    requires Accepts(parse, mapped, a) && Accepts(parse, mapped, b)
    ensures CacheKeyOf(a) == CacheKeyOf(b) <==> a.key == b.key
  {
    Keys.TokenInfoKeyLanguage(a.key);
    Keys.TokenInfoKeyLanguage(b.key);
    var x: seq<Keys.byte> :| |x| == 32 && a.key == Keys.TokenInfoKey(x);
    var y: seq<Keys.byte> :| |y| == 32 && b.key == Keys.TokenInfoKey(y);
    if CacheKeyOf(a) == CacheKeyOf(b) {
      assert CacheKeyOf(a)[0] == Keys.Hex(x) && CacheKeyOf(b)[0] == Keys.Hex(y);
      Keys.HexInjective(x, y);
    }
  }

  lemma LastOfContractIff(parse: Parser, mapped: set<string>, block: seq<TraceOperation>, i: nat)
    requires i < |block|
    ensures IsLast(TokenInfosConfig(parse), mapped, block, i) <==> LastOfContract(parse, mapped, block, i)
  {
    if Accepts(parse, mapped, block[i]) {
      forall j | i < j < |block| && Accepts(parse, mapped, block[j])
        ensures CacheKeyOf(block[j]) == CacheKeyOf(block[i]) <==> block[j].key == block[i].key
      {
        SameEntryIff(parse, mapped, block[j], block[i]);
      }
    }
  }

  lemma ColumnsNameContract(parse: Parser, mapped: set<string>, data: TraceOperation)
    requires Accepts(parse, mapped, data)
    ensures Unmarshal(parse, data).Ok?
    ensures TokenInfosConfig(parse).unmarshal(data).value.columns == [NamedContract(parse, data)]
  {
  }

  lemma NamesDifferIff(parse: Parser, mapped: set<string>, block: seq<TraceOperation>)
    ensures NamesDiffer(parse, mapped, block) <==> LastRowsDiffer(TokenInfosConfig(parse), mapped, block)
  {
    hide NamedContract, Accepts, IsLast;
    var cfg := TokenInfosConfig(parse);
    forall i | 0 <= i < |block| ensures IsLast(cfg, mapped, block, i) <==> LastOfContract(parse, mapped, block, i) {
      LastOfContractIff(parse, mapped, block, i);
    }
    forall i | 0 <= i < |block| && LastOfContract(parse, mapped, block, i)
      ensures cfg.unmarshal(block[i]).Ok? && Unmarshal(parse, block[i]).Ok?
      ensures cfg.unmarshal(block[i]).value.columns == [NamedContract(parse, block[i])]
    {
      ColumnsNameContract(parse, mapped, block[i]);
    }
  }

  /**
    Over any run of the processor: no flush of token infos names a contract twice, and so the database runs each of a
    live run, if and only if, whenever an epoch ends, no two contracts that wrote in it name the same one with their
    last values.
  */
  lemma TokenFlushesRunIff(
    parse: Parser, cfgs: seq<Config>, mapped: set<string>, chain: string, useDBUpsert: bool, s: Memory,
    stream: seq<TraceOperation>, batches: seq<seq<WritebackOp>>, parts: seq<seq<seq<WritebackOp>>>, i: nat)
    requires |cfgs| == |s.caches| && i < |cfgs| && s.caches[i] == Writes(map[]) && cfgs[i] == TokenInfosConfig(parse)
    requires Sent(cfgs, chain, useDBUpsert, Flushes(cfgs, mapped, s, stream), batches, parts)
    ensures AllRun(parts, i) <==>
              forall n :: 0 <= n < |stream| && OpensEpoch(EpochAfter(s.lastHeight, stream[..n]), stream[n]) ==>
                NamesDiffer(parse, mapped, Epoch(s.lastHeight, stream[..n]))
  {
    hide AllRun, NamesDiffer, LastRowsDiffer, Sent, Flushes, Epoch, EpochAfter, OpensEpoch;
    FlushesRunIff(cfgs, mapped, chain, useDBUpsert, s, stream, batches, parts, i);
    forall n | 0 <= n < |stream|
      ensures NamesDiffer(parse, mapped, Epoch(s.lastHeight, stream[..n]))
         <==> LastRowsDiffer(cfgs[i], mapped, Epoch(s.lastHeight, stream[..n]))
    {
      NamesDifferIff(parse, mapped, Epoch(s.lastHeight, stream[..n]));
    }
  }
}
