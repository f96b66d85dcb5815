/**
  WritebackOp and its split into chunks under the database placeholder limit (tracelistener/tracelistener.go).
*/
module Chunking {
  import opened Wrappers
  import opened Sql
  import opened SplitArithmetic

  datatype OpType = DeleteOp | WriteOp

  /** The SQL text of an op: Unset until the processor fills it in, then one of a table's three statements. */
  datatype Query = Unset | On(table: string, kind: StatementKind)

  datatype WritebackOp = WritebackOp(typ: OpType, data: seq<Row>, query: Query, source: string)

  const DB_PLACEHOLDER_TOTAL_LIMIT := 65535
  const DB_PLACEHOLDER_LIMIT := DB_PLACEHOLDER_TOTAL_LIMIT / 10

  /** Top-level struct fields of a row: the embedded base row counts as one. */
  function NumField(r: Row): (f: nat)
    ensures f >= 1
  {
    1 + |r.columns| + |r.values|
  }

  /** Columns an INSERT binds for a row: height and chain_name, then every other field. */
  function BoundColumns(r: Row): nat {
    2 + |r.columns| + |r.values|
  }

  function DBSinglePlaceholderAmount(wo: WritebackOp): (f: nat)
    requires wo.data != []
    ensures f >= 1
  {
    NumField(wo.data[0])
  }

  function DBPlaceholderAmount(wo: WritebackOp): nat
    requires wo.data != []
  {
    DBSinglePlaceholderAmount(wo) * |wo.data|
  }

  // ---------------------------------------------------------------- chunks of a slice

  /** s cut into pieces of the given size, the last one possibly shorter. */
  function Chunks<T>(s: seq<T>, size: nat): seq<seq<T>>
    requires size > 0
  {
    if s == [] then [] else if |s| <= size then [s] else [s[..size]] + Chunks(s[size..], size)
  }

  function Flatten<T>(chunks: seq<seq<T>>): seq<T> {
    if chunks == [] then [] else chunks[0] + Flatten(chunks[1..])
  }

  lemma FlattenFirst<T>(first: seq<T>, rest: seq<seq<T>>)
    ensures Flatten([first] + rest) == first + Flatten(rest)
  {
    assert ([first] + rest)[1..] == rest;
  }

  lemma {:induction false} FlattenAppend<T>(a: seq<seq<T>>, b: seq<seq<T>>)
    ensures Flatten(a + b) == Flatten(a) + Flatten(b)
  {
    if a == [] {
      assert a + b == b;
    } else {
      hide Flatten;
      FlattenAppend(a[1..], b);
      FlattenFirst(a[0], a[1..] + b);
      FlattenFirst(a[0], a[1..]);
      assert a == [a[0]] + a[1..];
      assert a + b == [a[0]] + (a[1..] + b);
      Reassociate(a[0], Flatten(a[1..]), Flatten(b));
    }
  }

  lemma Reassociate<T>(x: seq<T>, y: seq<T>, z: seq<T>)
    ensures x + (y + z) == (x + y) + z
  {
  }

  lemma FlattenNothing<T>()
    ensures Flatten<T>([]) == []
  {
  }

  lemma FlattenSnoc<T>(chunks: seq<seq<T>>, last: seq<T>)
    ensures Flatten(chunks + [last]) == Flatten(chunks) + last
  {
    FlattenAppend(chunks, [last]);
    assert [last][1..] == [];
  }

  lemma FlattenUpTo<T>(parts: seq<seq<T>>, n: nat)
    requires n < |parts|
    ensures Flatten(parts[..n + 1]) == Flatten(parts[..n]) + parts[n]
  {
    assert parts[..n + 1] == parts[..n] + [parts[n]];
    FlattenSnoc(parts[..n], parts[n]);
  }

  lemma {:induction false} FlattenedMember<T>(parts: seq<seq<T>>, x: T) returns (i: nat, n: nat)
    requires x in Flatten(parts)
    ensures i < |parts| && n < |parts[i]| && parts[i][n] == x
  {
    if x in parts[0] {
      i := 0;
      n :| 0 <= n < |parts[0]| && parts[0][n] == x;
    } else {
      i, n := FlattenedMember(parts[1..], x);
      i := i + 1;
    }
  }

  lemma {:induction false} PartOfBatch<T>(parts: seq<seq<T>>, i: nat, x: T)
    requires i < |parts| && x in parts[i]
    ensures x in Flatten(parts)
  {
    if i > 0 {
      PartOfBatch(parts[1..], i - 1, x);
    }
  }

  method BuildEntrierChunks(slice: seq<Row>, chunkSize: nat) returns (chunks: seq<seq<Row>>)
    requires chunkSize > 0
    ensures chunks == Chunks(slice, chunkSize)
  {
    chunks := [];
    var i := 0;
    while i < |slice|
      invariant 0 <= i
      invariant i <= |slice| ==> chunks + Chunks(slice[i..], chunkSize) == Chunks(slice, chunkSize)
      invariant i >= |slice| ==> chunks == Chunks(slice, chunkSize)
    {
      var end := i + chunkSize;
      if end > |slice| {
        end := |slice|;
      }
      ghost var rest := slice[i..];
      if |rest| <= chunkSize {
        assert slice[i..end] == rest;
      } else {
        assert rest[..chunkSize] == slice[i..end];
        assert rest[chunkSize..] == slice[i + chunkSize..];
        assert chunks + Chunks(rest, chunkSize)
            == (chunks + [slice[i..end]]) + Chunks(slice[i + chunkSize..], chunkSize);
      }
      chunks := chunks + [slice[i..end]];
      i := i + chunkSize;
    }
  }

  lemma {:induction false} ChunksLoseNothing<T>(s: seq<T>, size: nat)
    requires size > 0
    ensures Flatten(Chunks(s, size)) == s
  {
    if s == [] {
    } else if |s| <= size {
      assert [s][1..] == [];
    } else {
      ChunksLoseNothing(s[size..], size);
      assert Chunks(s, size)[1..] == Chunks(s[size..], size);
    }
  }

  /** Every chunk is non-empty and no larger than size; all but the last have exactly that size. */
  lemma {:induction false} ChunkSizes<T>(s: seq<T>, size: nat)
    requires size > 0
    ensures |Chunks(s, size)| == CeilDiv(|s|, size)
    ensures forall i :: 0 <= i < |Chunks(s, size)| ==> 0 < |Chunks(s, size)[i]| <= size
    ensures forall i :: 0 <= i < |Chunks(s, size)| - 1 ==> |Chunks(s, size)[i]| == size
  {
    if s == [] {
      DivUnique(size - 1, size, 0);
    } else if |s| <= size {
      DivUnique(|s| + size - 1, size, 1);
    } else {
      ChunkSizes(s[size..], size);
      DivBounds(|s| - 1, size);
      var q := CeilDiv(|s| - size, size);
      assert (q + 1) * size == q * size + size;
      assert (q + 2) * size == q * size + 2 * size;
      DivBounds(|s| - size + size - 1, size);
      DivUnique(|s| + size - 1, size, q + 1);
      assert Chunks(s, size) == [s[..size]] + Chunks(s[size..], size);
    }
  }

  // ---------------------------------------------------------------- SplitStatements

  /** The integer division by a zero chunk size in buildEntrierChunks. */
  datatype Panic = DivideByZero

  /** A chunk keeps the type and the SQL of its op; the source module is not carried over. */
  function ChunkOp(wo: WritebackOp, chunk: seq<Row>): WritebackOp {
    WritebackOp(wo.typ, chunk, wo.query, "")
  }

  function ChunkOps(wo: WritebackOp, chunks: seq<seq<Row>>): seq<WritebackOp> {
    seq(|chunks|, i requires 0 <= i < |chunks| => ChunkOp(wo, chunks[i]))
  }

  ghost predicate FitsOneStatement(wo: WritebackOp, limit: int) {
    wo.data == [] || DBPlaceholderAmount(wo) <= limit
  }

  /** What SplitStatements returns: the op itself, chunks of it, or a panic when not even one row fits. */
  ghost function Split(wo: WritebackOp, limit: int): Result<seq<WritebackOp>, Panic> {
    if FitsOneStatement(wo, limit) then Ok([wo])
    else if limit < DBSinglePlaceholderAmount(wo) then Err(DivideByZero)
    else
      SplitAmountIsQuotient(|wo.data|, DBSinglePlaceholderAmount(wo), limit);
      Ok(ChunkOps(wo, Chunks(wo.data, SplitAmount(DBPlaceholderAmount(wo), DBSinglePlaceholderAmount(wo), limit))))
  }

  method SplitStatements(wo: WritebackOp, limit: int) returns (r: Result<seq<WritebackOp>, Panic>)
    ensures r == Split(wo, limit)
  {
    if wo.data == [] {
      return Ok([wo]);
    }
    var amount := DBPlaceholderAmount(wo);
    if amount <= limit {
      return Ok([wo]);
    }
    var fields := DBSinglePlaceholderAmount(wo);
    MulMonotone(1, |wo.data|, fields);
    if limit <= 0 {
      // the quotient by limit is infinite or negative, and so is the slice bound built from it
      return Err(DivideByZero);
    }
    SplitAmountIsQuotient(|wo.data|, fields, limit);
    var splitAmount := SplitAmount(amount, fields, limit);
    if splitAmount == 0 {
      return Err(DivideByZero);
    }
    var chunks := BuildEntrierChunks(wo.data, splitAmount);
    var ret: seq<WritebackOp> := [];
    for i := 0 to |chunks|
      invariant ret == ChunkOps(wo, chunks[..i])
    {
      assert chunks[..i + 1] == chunks[..i] + [chunks[i]];
      ret := ret + [ChunkOp(wo, chunks[i])];
    }
    assert chunks[..|chunks|] == chunks;
    return Ok(ret);
  }

  /**
    The split panics exactly when there are rows and one of them alone exceeds the limit.
  */
  lemma SplitPanicsIff(wo: WritebackOp, limit: int)
    ensures Split(wo, limit).Err? <==> wo.data != [] && limit < DBSinglePlaceholderAmount(wo)
  {
    if wo.data != [] {
      MulMonotone(1, |wo.data|, DBSinglePlaceholderAmount(wo));
    }
  }

  function DataOf(ops: seq<WritebackOp>): (d: seq<seq<Row>>)
    ensures |d| == |ops|
  {
    seq(|ops|, i requires 0 <= i < |ops| => ops[i].data)
  }

  /**
    The shape of a split: no row is lost, added or moved, type and SQL are kept, and every piece fits the limit.
    When the op is really cut, every piece is non-empty, all but the last are equally large, and with c the
    number of pieces aimed at there are between c and 2c - 1 of them.
  */
  lemma SplitShape(wo: WritebackOp, limit: int)
    requires Split(wo, limit).Ok?
    ensures Flatten(DataOf(Split(wo, limit).value)) == wo.data
    ensures forall op :: op in Split(wo, limit).value ==> op.typ == wo.typ && op.query == wo.query
    ensures forall op :: op in Split(wo, limit).value ==>
              op.source == if FitsOneStatement(wo, limit) then wo.source else ""
    ensures wo.data != [] ==> forall op :: op in Split(wo, limit).value ==>
              0 < |op.data| && DBSinglePlaceholderAmount(wo) * |op.data| <= limit
    ensures !FitsOneStatement(wo, limit) ==>
              var ops := Split(wo, limit).value;
              var c := CeilDiv(DBPlaceholderAmount(wo), limit);
              && (forall i :: 0 <= i < |ops| - 1 ==> |ops[i].data| == |wo.data| / c)
              && c <= |ops| <= 2 * c - 1
  {
    var ops := Split(wo, limit).value;
    if FitsOneStatement(wo, limit) {
      assert DataOf(ops) == [wo.data];
      assert DataOf(ops)[1..] == [];
    } else {
      var n, f := |wo.data|, DBSinglePlaceholderAmount(wo);
      SplitAmountIsQuotient(n, f, limit);
      var k := SplitAmount(n * f, f, limit);
      var chunks := Chunks(wo.data, k);
      assert DataOf(ops) == chunks;
      ChunksLoseNothing(wo.data, k);
      ChunkSizes(wo.data, k);
      forall i | 0 <= i < |ops| ensures 0 < |ops[i].data| && f * |ops[i].data| <= limit {
        assert ops[i].data == chunks[i];
        MulMonotone(|ops[i].data|, k, f);
      }
      var c := CeilDiv(n * f, limit);
      CeilOfQuotient(n * f, limit);
      DivAtLeastOne(n, c);
      ChunkCountBounds(n, c);
    }
  }

  /** Rows of one op come from one module, so they have the same Go type and hence the same fields. */
  ghost predicate Uniform(wo: WritebackOp) {
    forall i, j :: 0 <= i < |wo.data| && 0 <= j < |wo.data| ==> NumField(wo.data[i]) == NumField(wo.data[j])
  }

  /** Parameters the database really receives for the rows of an INSERT or upsert. */
  function BoundParameters(rows: seq<Row>): nat {
    if rows == [] then 0 else BoundColumns(rows[0]) + BoundParameters(rows[1..])
  }

  lemma {:induction false} UniformParameters(rows: seq<Row>, fields: nat)
    requires forall i :: 0 <= i < |rows| ==> NumField(rows[i]) == fields
    ensures BoundParameters(rows) == |rows| * (fields + 1)
  {
    if rows != [] {
      UniformParameters(rows[1..], fields);
    }
  }

  lemma {:induction false} FlattenMember<T>(chunks: seq<seq<T>>, i: nat, j: nat)
    requires i < |chunks| && j < |chunks[i]|
    ensures chunks[i][j] in Flatten(chunks)
  {
    if i > 0 {
      FlattenMember(chunks[1..], i - 1, j);
    }
  }

  lemma SplitIsUniform(wo: WritebackOp, limit: int, i: nat)
    requires Uniform(wo) && wo.data != []
    requires Split(wo, limit).Ok? && i < |Split(wo, limit).value|
    ensures forall j :: 0 <= j < |Split(wo, limit).value[i].data| ==>
              NumField(Split(wo, limit).value[i].data[j]) == DBSinglePlaceholderAmount(wo)
  {
    var ops := Split(wo, limit).value;
    SplitShape(wo, limit);
    forall j | 0 <= j < |ops[i].data| ensures NumField(ops[i].data[j]) == DBSinglePlaceholderAmount(wo) {
      assert DataOf(ops)[i] == ops[i].data;
      FlattenMember(DataOf(ops), i, j);
    }
  }

  lemma OneMoreColumn(rows: nat, fields: nat, limit: nat)
    requires fields >= 1 && fields * rows <= limit
    ensures rows * (fields + 1) <= 2 * limit
  {
    MulMonotone(1, fields, rows);
  }

  /**
    The struct count leaves out one bound column a row, yet no op split at the source's limit
    comes near the database's own limit of parameters.
  */
  lemma SplitRespectsDatabaseLimit(wo: WritebackOp, op: WritebackOp)
    requires Uniform(wo)
    requires Split(wo, DB_PLACEHOLDER_LIMIT).Ok? && op in Split(wo, DB_PLACEHOLDER_LIMIT).value
    ensures wo.data != [] ==> BoundParameters(op.data) == |op.data| * (DBSinglePlaceholderAmount(wo) + 1)
    ensures BoundParameters(op.data) <= 2 * 6553 < 65535
  {
    if wo.data == [] {
      assert op == wo;
    } else {
      var f := DBSinglePlaceholderAmount(wo);
      SplitShape(wo, DB_PLACEHOLDER_LIMIT);
      var i :| 0 <= i < |Split(wo, DB_PLACEHOLDER_LIMIT).value| && Split(wo, DB_PLACEHOLDER_LIMIT).value[i] == op;
      SplitIsUniform(wo, DB_PLACEHOLDER_LIMIT, i);
      UniformParameters(op.data, f);
      OneMoreColumn(|op.data|, f, DB_PLACEHOLDER_LIMIT);
    }
  }

  /** How many of n rows of the given fields the largest piece of a split has. */
  function LargestPieceRows(n: nat, fields: nat, limit: nat): nat
    requires limit > 0
  {
    if n * fields <= limit then n
    else
      CeilOfQuotient(n * fields, limit);
      n / CeilDiv(n * fields, limit)
  }

  lemma LargestPiece(wo: WritebackOp, limit: nat)
    requires limit > 0 && wo.data != [] && Split(wo, limit).Ok?
    ensures var ops, m := Split(wo, limit).value, LargestPieceRows(|wo.data|, DBSinglePlaceholderAmount(wo), limit);
            && ops != [] && |ops[0].data| == m
            && forall i :: 0 <= i < |ops| ==> |ops[i].data| <= m
  {
    if !FitsOneStatement(wo, limit) {
      var n, f := |wo.data|, DBSinglePlaceholderAmount(wo);
      SplitAmountIsQuotient(n, f, limit);
      ChunkSizes(wo.data, SplitAmount(n * f, f, limit));
      SplitShape(wo, limit);
      CeilOfQuotient(n * f, limit);
    }
  }

  /**
    Counting what is really bound: every piece of a split stays within the limit it was split for if and only if its
    largest piece does with one column more a row.
  */
  lemma RealParametersFitIff(wo: WritebackOp, limit: nat)
    requires Uniform(wo) && limit > 0 && wo.data != [] && Split(wo, limit).Ok?
    ensures var f := DBSinglePlaceholderAmount(wo);
            (forall op :: op in Split(wo, limit).value ==> BoundParameters(op.data) <= limit)
            <==> LargestPieceRows(|wo.data|, f, limit) * (f + 1) <= limit
  {
    hide Split, BoundParameters, LargestPieceRows, Uniform;
    var ops, f := Split(wo, limit).value, DBSinglePlaceholderAmount(wo);
    var m := LargestPieceRows(|wo.data|, f, limit);
    LargestPiece(wo, limit);
    forall i | 0 <= i < |ops| ensures BoundParameters(ops[i].data) == |ops[i].data| * (f + 1) <= m * (f + 1) {
      SplitIsUniform(wo, limit, i);
      UniformParameters(ops[i].data, f);
      MulMonotone(|ops[i].data|, m, f + 1);
    }
    assert ops[0] in ops;
  }

  /**
    Any balances op of 1638 rows is within the source's limit as it counts, goes out whole, and binds 8190 parameters.
  */
  lemma BalancesExceedOwnLimit(wo: WritebackOp)
    requires |wo.data| == 1638
    requires forall i :: 0 <= i < |wo.data| ==> |wo.data[i].columns| == 2 && |wo.data[i].values| == 1
    ensures Split(wo, DB_PLACEHOLDER_LIMIT) == Ok([wo])
    ensures BoundParameters(wo.data) == 8190 > DB_PLACEHOLDER_LIMIT == 6553
  {
    UniformParameters(wo.data, 4);
  }
}
