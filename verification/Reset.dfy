/**
  The chain reset loop (cmd/resetchain/resetter.go): rows are deleted in chunks from the newest id downwards, with
  whichever id of a chunk the database returns first as the next cursor, while other rows keep arriving.
*/
module Reset {
  import opened Wrappers
  import opened SplitArithmetic

  datatype TableRow = TableRow(id: int, chain: string)

  function OfChain(rows: set<TableRow>, chain: string): set<TableRow> {
    set r | r in rows && r.chain == chain
  }

  /** WHERE id <= last AND chain_name = chain */
  function Eligible(rows: set<TableRow>, chain: string, last: int): set<TableRow> {
    set r | r in rows && r.chain == chain && r.id <= last
  }

  /** ORDER BY id DESC LIMIT limit: as many as there are, up to the limit, and none of the others has a greater id. */
  ghost predicate TopChunk(chunk: set<TableRow>, eligible: set<TableRow>, limit: nat) {
    && chunk <= eligible
    && |chunk| == (if |eligible| < limit then |eligible| else limit)
    && forall c, r :: c in chunk && r in eligible - chunk ==> r.id <= c.id
  }

  lemma {:induction false} GreatestExists(rows: set<TableRow>) returns (g: TableRow)
    requires rows != {}
    ensures g in rows && forall r :: r in rows ==> r.id <= g.id
    decreases |rows|
  {
    g :| g in rows;
    if rows != {g} {
      var g' := GreatestExists(rows - {g});
      if g'.id > g.id { g := g'; }
    }
  }

  // ---------------------------------------------------------------- one chunk

  /** The chain's rows still to go all lie at or below the cursor. */
  ghost predicate Covered(left: set<TableRow>, last: int) {
    forall r :: r in left ==> r.id <= last
  }

  /**
    Whichever id of the chunk becomes the cursor, it covers every row still to go; and the chunks still needed are one
    fewer.
  */
  lemma AnyReturnedIdCovers(left: set<TableRow>, chunk: set<TableRow>, limit: nat, returned: TableRow)
    requires limit > 0 && TopChunk(chunk, left, limit) && returned in chunk
    ensures Covered(left - chunk, returned.id)
    ensures CeilDiv(|left - chunk|, limit) + 1 == CeilDiv(|left|, limit)
    ensures |left - chunk| < |left|
  {
    var rest := left - chunk;
    assert left == rest + chunk;
    assert |left| == |rest| + |chunk|;
    if |left| < limit {
      DivUnique(|left| + limit - 1, limit, 1);
      DivUnique(limit - 1, limit, 0);
    } else {
      OneChunkFewer(|rest|, limit);
    }
  }

  lemma OneChunkFewer(rest: nat, limit: nat)
    requires limit > 0
    ensures CeilDiv(rest, limit) + 1 == CeilDiv(rest + limit, limit)
  {
    var q := CeilDiv(rest, limit);
    DivBounds(rest + limit - 1, limit);
    assert (q + 1) * limit == q * limit + limit && (q + 2) * limit == (q + 1) * limit + limit;
    DivUnique(rest + limit + limit - 1, limit, q + 1);
  }

  lemma NoChunkForNone(limit: nat)
    requires limit > 0
    ensures CeilDiv(0, limit) == 0
  {
    DivUnique(limit - 1, limit, 0);
  }

  /** How the database picks the rows: the greatest id first, up to the limit. */
  method ChooseChunk(eligible: set<TableRow>, limit: nat) returns (chunk: set<TableRow>)
    ensures TopChunk(chunk, eligible, limit)
  {
    chunk := {};
    while |chunk| < limit && eligible - chunk != {}
      invariant chunk <= eligible && |chunk| <= limit
      invariant forall c, r :: c in chunk && r in eligible - chunk ==> r.id <= c.id
      decreases |eligible - chunk|
    {
      ghost var greatest := GreatestExists(eligible - chunk);
      var g :| g in eligible - chunk && forall r :: r in eligible - chunk ==> r.id <= g.id;
      assert eligible - (chunk + {g}) == (eligible - chunk) - {g};
      chunk := chunk + {g};
    }
    assert eligible == chunk + (eligible - chunk);
    assert |eligible| == |chunk| + |eligible - chunk|;
  }

  // ---------------------------------------------------------------- the table

  datatype ResetError = NegativeLimit

  /** All rows that arrived before each of the first n deletes. */
  ghost function Arrived(arrivals: nat -> set<TableRow>, n: nat): set<TableRow> {
    if n == 0 then {} else Arrived(arrivals, n - 1) + arrivals(n - 1)
  }

  /** New rows of the chain get greater ids than all the chain has. */
  ghost predicate Beyond(more: set<TableRow>, rows: set<TableRow>, chain: string) {
    forall a, r :: a in more && a.chain == chain && r in OfChain(rows, chain) ==> a.id > r.id
  }

  /** Between two deletes: of the rows the chain had, left remain, all under the cursor; what arrived lies beyond it. */
  ghost predicate Midway(
    before: set<TableRow>, chain: string, left: set<TableRow>, rows: set<TableRow>, arrived: set<TableRow>, last: int)
  {
    && left <= OfChain(before, chain) && Covered(left, last)
    && rows == (before - (OfChain(before, chain) - left)) + arrived
    && (exists r :: r in OfChain(before, chain) && last <= r.id)
    && Beyond(arrived, before, chain)
  }

  lemma EligibleIsLeft(
    before: set<TableRow>, chain: string, left: set<TableRow>, rows: set<TableRow>, arrived: set<TableRow>, last: int)
    requires Midway(before, chain, left, rows, arrived, last)
    ensures Eligible(rows, chain, last) == left
  {
    var top :| top in OfChain(before, chain) && last <= top.id;
    assert forall a :: a in arrived && a.chain == chain ==> a.id > top.id;
  }

  lemma MoreArrive(
    before: set<TableRow>, chain: string, left: set<TableRow>, rows: set<TableRow>, arrived: set<TableRow>, last: int,
    more: set<TableRow>)
    requires Midway(before, chain, left, rows, arrived, last)
    requires Beyond(more, before, chain)
    ensures Midway(before, chain, left, rows + more, arrived + more, last)
  {
  }

  lemma ChunkDeleted(
    before: set<TableRow>, chain: string, left: set<TableRow>, rows: set<TableRow>, arrived: set<TableRow>, last: int,
    chunk: set<TableRow>, limit: nat, returned: TableRow)
    requires Midway(before, chain, left, rows, arrived, last)
    requires limit > 0 && TopChunk(chunk, left, limit) && returned in chunk
    ensures Midway(before, chain, left - chunk, rows - chunk, arrived, returned.id)
  {
    AnyReturnedIdCovers(left, chunk, limit, returned);
    var mine := OfChain(before, chain);
    assert chunk !! arrived by {
      forall c | c in chunk ensures c !in arrived {
        assert c in mine && c.id <= c.id;
      }
    }
    assert mine - (left - chunk) == (mine - left) + chunk;
  }

  class DataTable {
    var rows: set<TableRow>

    constructor (rows: set<TableRow>)
      ensures this.rows == rows
    {
      this.rows := rows;
    }

    method Insert(more: set<TableRow>)
      modifies this
      ensures rows == old(rows) + more
    {
      rows := rows + more;
    }

    /** SELECT id ... ORDER BY id DESC LIMIT 1 */
    method LatestId(chain: string) returns (id: Option<int>)
      ensures id.None? <==> OfChain(rows, chain) == {}
      ensures id.Some? ==> Covered(OfChain(rows, chain), id.value) && TableRow(id.value, chain) in rows
    {
      var mine := OfChain(rows, chain);
      if mine == {} {
        return None;
      }
      ghost var greatest := GreatestExists(mine);
      var g :| g in mine && forall r :: r in mine ==> r.id <= g.id;
      assert g == TableRow(g.id, chain);
      return Some(g.id);
    }

    /** The DELETE statement; the ids come back in no particular order, and one of them comes first. */
    method DeleteChunk(chain: string, last: int, limit: nat) returns (first: Option<int>, ghost chunk: set<TableRow>)
      modifies this
      ensures TopChunk(chunk, Eligible(old(rows), chain, last), limit) && rows == old(rows) - chunk
      ensures first.None? <==> chunk == {}
      ensures first.Some? ==> exists c :: c in chunk && c.id == first.value
    {
      var doomed := ChooseChunk(Eligible(rows, chain, last), limit);
      rows := rows - doomed;
      chunk := doomed;
      if doomed == {} {
        return None, chunk;
      }
      var c :| c in doomed;
      return Some(c.id), chunk;
    }
  }

  /** One turn of the loop: deletes a chunk of what is left, if anything is, and moves the cursor. */
  method DeleteNext(
    table: DataTable, chain: string, last: int, chunkSize: nat,
    ghost before: set<TableRow>, ghost left: set<TableRow>, ghost arrived: set<TableRow>)
    returns (first: Option<int>, ghost rest: set<TableRow>)
    requires Midway(before, chain, left, table.rows, arrived, last)
    modifies table
    ensures first.None? <==> chunkSize == 0 || left == {}
    ensures first.None? ==> rest == left && table.rows == old(table.rows)
    ensures first.Some? ==>
              && Midway(before, chain, rest, table.rows, arrived, first.value)
              && CeilDiv(|rest|, chunkSize) + 1 == CeilDiv(|left|, chunkSize) && |rest| < |left|
  {
    hide Midway, TopChunk, Eligible, CeilDiv;
    EligibleIsLeft(before, chain, left, table.rows, arrived, last);
    ghost var chunk;
    first, chunk := table.DeleteChunk(chain, last, chunkSize);
    EmptyChunk(chunk, left, chunkSize);
    rest := left - chunk;
    if first.Some? {
      ghost var c :| c in chunk && c.id == first.value;
      AnyReturnedIdCovers(left, chunk, chunkSize, c);
      ChunkDeleted(before, chain, left, old(table.rows), arrived, last, chunk, chunkSize, c);
    }
  }

  /**
    ResetTable, with rows arriving before each delete: of other chains anything, of this chain only ids beyond the ones
    it had. For a positive chunk size every row the chain had is gone after ceil(n / chunk) + 1 deletes, and nothing
    else is. A chunk size of zero deletes nothing, and the database refuses a negative one.
  */
  method ResetTable(table: DataTable, chain: string, chunkSize: int, arrivals: nat -> set<TableRow>)
    returns (err: Option<ResetError>, deletes: nat)
    requires forall n :: Beyond(arrivals(n), table.rows, chain)
    modifies table
    ensures err.Some? <==> chunkSize < 0 && OfChain(old(table.rows), chain) != {}
    ensures OfChain(old(table.rows), chain) == {} ==> deletes == 0
    ensures OfChain(old(table.rows), chain) != {} && chunkSize > 0 ==>
              deletes == CeilDiv(|OfChain(old(table.rows), chain)|, chunkSize) + 1
    ensures chunkSize > 0 ==>
              table.rows == old(table.rows) - OfChain(old(table.rows), chain) + Arrived(arrivals, deletes)
    ensures chunkSize <= 0 ==> table.rows == old(table.rows) + Arrived(arrivals, deletes)
  {
    hide Midway, CeilDiv, Beyond, Covered, OfChain;
    ghost var before := table.rows;
    ghost var mine := OfChain(before, chain);
    deletes := 0;
    var latest := table.LatestId(chain);
    if latest.None? {
      return None, 0;
    }
    var lastID := latest.value;
    StartsMidway(before, chain, lastID);
    if chunkSize > 0 {
      NoChunkForNone(chunkSize);
    }
    ghost var left := mine;
    while true
      invariant Midway(before, chain, left, table.rows, Arrived(arrivals, deletes), lastID)
      invariant chunkSize > 0 ==> CeilDiv(|mine|, chunkSize) == deletes + CeilDiv(|left|, chunkSize)
      invariant chunkSize <= 0 ==> left == mine
      decreases |left|
    {
      MoreArrive(before, chain, left, table.rows, Arrived(arrivals, deletes), lastID, arrivals(deletes));
      table.Insert(arrivals(deletes));
      deletes := deletes + 1;
      if chunkSize < 0 {
        EndsMidway(before, chain, left, table.rows, Arrived(arrivals, deletes), lastID);
        return Some(NegativeLimit), deletes;
      }
      var first;
      first, left := DeleteNext(table, chain, lastID, chunkSize, before, left, Arrived(arrivals, deletes));
      if first.None? {
        break;
      }
      lastID := first.value;
    }
    EndsMidway(before, chain, left, table.rows, Arrived(arrivals, deletes), lastID);
    return None, deletes;
  }

  lemma StartsMidway(before: set<TableRow>, chain: string, last: int)
    requires Covered(OfChain(before, chain), last) && TableRow(last, chain) in before
    ensures Midway(before, chain, OfChain(before, chain), before, {}, last)
  {
    assert TableRow(last, chain) in OfChain(before, chain);
  }

  lemma EndsMidway(
    before: set<TableRow>, chain: string, left: set<TableRow>, rows: set<TableRow>, arrived: set<TableRow>, last: int)
    requires Midway(before, chain, left, rows, arrived, last)
    ensures left == {} ==> rows == before - OfChain(before, chain) + arrived
    ensures left == OfChain(before, chain) ==> rows == before + arrived
  {
  }

  lemma EmptyChunk(chunk: set<TableRow>, left: set<TableRow>, limit: nat)
    requires TopChunk(chunk, left, limit)
    ensures chunk == {} <==> limit == 0 || left == {}
  {
  }
}
