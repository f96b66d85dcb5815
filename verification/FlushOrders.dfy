/**
  Flush hands its batches to goroutines (tracelistener/processor/processor.go:239-241), so they may be executed in any
  order. For a set-update module, whose deletes have no height guard, this decides exactly when the order matters.
*/
module FlushOrders {
  import opened Wrappers
  import opened Sql
  import opened Modules
  import opened Flushing
  import opened Refinement
  import opened Delegations

  // ---------------------------------------------------------------- one key

  /** What one flush holds for a key. */
  datatype KeyOp = KeyOp(insert: Option<Row>, delete: Option<Row>)
  {
    /** Writes the key and leaves it written. */
    predicate Writes() { insert.Some? && delete.None? }

    predicate Deletes() { delete.Some? }

    /** Writes the key and then deletes it. */
    predicate Rewrites() { insert.Some? && delete.Some? }

    ghost predicate At(h: nat) {
      (insert.Some? ==> insert.value.height == h) && (delete.Some? ==> delete.value.height == h)
    }
  }

  type KeyState = Option<Stored>

  predicate IsLive(s: KeyState) {
    s.Some? && s.value.deleteHeight.None?
  }

  predicate Under(s: KeyState, h: nat) {
    s.Some? ==> s.value.row.height < h
  }

  function Apply(s: KeyState, op: KeyOp): KeyState {
    var written := if op.insert.Some? && Under(s, op.insert.value.height) then Some(Live(op.insert.value)) else s;
    if op.delete.Some? && IsLive(written)
    then Some(Stored(written.value.row.(height := op.delete.value.height), Some(op.delete.value.height)))
    else written
  }

  function ApplyAll(s: KeyState, ops: seq<KeyOp>): KeyState
    decreases |ops|
  {
    if ops == [] then s else Apply(ApplyAll(s, ops[..|ops| - 1]), ops[|ops| - 1])
  }

  lemma {:induction false} ApplyAllAppend(s: KeyState, a: seq<KeyOp>, b: seq<KeyOp>)
    ensures ApplyAll(s, a + b) == ApplyAll(ApplyAll(s, a), b)
    decreases |b|
  {
    if b == [] {
      assert a + b == a;
    } else {
      ApplyAllAppend(s, a, b[..|b| - 1]);
      assert (a + b)[..|a + b| - 1] == a + b[..|b| - 1];
    }
  }

  /** Flushes of strictly increasing heights, all newer than what the table holds. */
  ghost predicate Rising(s: KeyState, ops: seq<KeyOp>, hs: seq<nat>) {
    && |hs| == |ops|
    && (forall i, j :: 0 <= i < j < |hs| ==> hs[i] < hs[j])
    && (forall j :: 0 <= j < |ops| ==> ops[j].At(hs[j]))
    && (forall j :: 0 <= j < |hs| ==> Under(s, hs[j]))
  }

  predicate DeletesWithin(ops: seq<KeyOp>, lo: nat, hi: nat)
    requires hi <= |ops|
  {
    exists j :: lo <= j < hi && ops[j].Deletes()
  }

  predicate RewritesAfter(ops: seq<KeyOp>, p: nat) {
    exists j :: p < j < |ops| && ops[j].Rewrites()
  }

  predicate LastWriter(ops: seq<KeyOp>, p: nat) {
    p < |ops| && ops[p].Writes() && forall j :: p < j < |ops| ==> !ops[j].Writes()
  }

  /**
    Let p be the last flush that leaves the key written, if any does. Without a later delete, no flush may delete the
    key at all; with one, some later flush must also have rewritten it, or the key was live at first and none before p
    deletes.
  */
  predicate Harmless(s: KeyState, ops: seq<KeyOp>) {
    forall p :: 0 <= p < |ops| && LastWriter(ops, p) ==>
      if DeletesWithin(ops, p + 1, |ops|) then RewritesAfter(ops, p) || (IsLive(s) && !DeletesWithin(ops, 0, p))
      else !DeletesWithin(ops, 0, p)
  }

  // ---------------------------------------------------------------- when the order does not matter

  ghost predicate SameOps(a: seq<KeyOp>, b: seq<KeyOp>) {
    forall op :: op in a <==> op in b
  }

  lemma {:induction false} NobodyWrites(s: KeyState, ops: seq<KeyOp>)
    requires forall i :: 0 <= i < |ops| ==> !ops[i].Writes()
    ensures IsLive(ApplyAll(s, ops)) <==> IsLive(s) && !DeletesWithin(ops, 0, |ops|)
    ensures IsLive(ApplyAll(s, ops)) ==> ApplyAll(s, ops) == s
    decreases |ops|
  {
    if ops != [] {
      var front, last := ops[..|ops| - 1], ops[|ops| - 1];
      NobodyWrites(s, front);
      DeletesSnoc(front, last);
      assert ops == front + [last];
    }
  }

  lemma DeletesSnoc(front: seq<KeyOp>, last: KeyOp)
    ensures DeletesWithin(front + [last], 0, |front| + 1) <==> DeletesWithin(front, 0, |front|) || last.Deletes()
  {
    var ops := front + [last];
    if DeletesWithin(front, 0, |front|) {
      var j :| 0 <= j < |front| && front[j].Deletes();
      assert ops[j].Deletes();
    }
    if last.Deletes() {
      assert ops[|front|].Deletes();
    }
  }

  /** Every op is one of the flushes: it carries the height of its flush, and a writer comes no later than the last. */
  ghost predicate Known(op: KeyOp, ops: seq<KeyOp>) {
    op in ops
  }

  lemma KnownWriter(s: KeyState, ops: seq<KeyOp>, hs: seq<nat>, p: nat, op: KeyOp)
    requires Rising(s, ops, hs) && LastWriter(ops, p) && Known(op, ops)
    ensures op.Writes() ==> op.insert.value.height <= hs[p] && (op.insert.value.height == hs[p] ==> op == ops[p])
  {
    var j :| 0 <= j < |ops| && ops[j] == op;
  }

  /** Only writes: the newest one stays, wherever it comes. */
  lemma {:induction false} NewestWriteStays(
    s: KeyState, ops: seq<KeyOp>, hs: seq<nat>, p: nat, other: seq<KeyOp>)
    requires Rising(s, ops, hs) && LastWriter(ops, p)
    requires forall i :: 0 <= i < |other| ==> Known(other[i], ops) && !other[i].Deletes()
    ensures if ops[p] in other then ApplyAll(s, other) == Some(Live(ops[p].insert.value))
            else Under(ApplyAll(s, other), hs[p])
    decreases |other|
  {
    if other != [] {
      var front, last := other[..|other| - 1], other[|other| - 1];
      NewestWriteStays(s, ops, hs, p, front);
      KnownWriter(s, ops, hs, p, last);
      assert other == front + [last];
      assert Known(other[|front|], ops);
    }
  }

  /** Once a rewrite newer than every write has come, the key stays deleted; before that, live rows are older. */
  lemma {:induction false} RewriteBuries(
    s: KeyState, ops: seq<KeyOp>, hs: seq<nat>, p: nat, b: nat, other: seq<KeyOp>)
    requires Rising(s, ops, hs) && LastWriter(ops, p) && p < b < |ops| && ops[b].Rewrites()
    requires forall i :: 0 <= i < |other| ==> Known(other[i], ops)
    ensures IsLive(ApplyAll(s, other)) ==> Under(ApplyAll(s, other), hs[b])
    ensures ops[b] in other ==>
              ApplyAll(s, other).Some? && !IsLive(ApplyAll(s, other)) && !Under(ApplyAll(s, other), hs[b])
    decreases |other|
  {
    if other != [] {
      var front, last := other[..|other| - 1], other[|other| - 1];
      RewriteBuries(s, ops, hs, p, b, front);
      KnownWriter(s, ops, hs, p, last);
      assert other == front + [last];
      assert Known(other[|front|], ops);
      assert hs[p] < hs[b];
      BuriedStep(ApplyAll(s, front), last, ops[b], hs[b]);
    }
  }

  lemma BuriedStep(s: KeyState, op: KeyOp, rewrite: KeyOp, h: nat)
    requires rewrite.Rewrites() && rewrite.At(h)
    requires IsLive(s) ==> Under(s, h)
    requires op.Writes() ==> op.insert.value.height < h
    requires op.Rewrites() ==> op.insert.value.height == op.delete.value.height
    ensures IsLive(Apply(s, op)) ==> Under(Apply(s, op), h)
    ensures s.Some? && !IsLive(s) && !Under(s, h) ==>
              Apply(s, op).Some? && !IsLive(Apply(s, op)) && !Under(Apply(s, op), h)
    ensures op == rewrite ==> Apply(s, op).Some? && !IsLive(Apply(s, op)) && !Under(Apply(s, op), h)
  {
  }

  /** A key live at first, all of whose deletes are newer than every write, stays deleted from the first delete on. */
  lemma {:induction false} FirstDeleteStays(
    s: KeyState, ops: seq<KeyOp>, hs: seq<nat>, p: nat, other: seq<KeyOp>)
    requires Rising(s, ops, hs) && LastWriter(ops, p) && IsLive(s)
    requires !DeletesWithin(ops, 0, p) && !RewritesAfter(ops, p)
    requires forall i :: 0 <= i < |other| ==> Known(other[i], ops)
    ensures !DeletesWithin(other, 0, |other|) ==> IsLive(ApplyAll(s, other))
    ensures DeletesWithin(other, 0, |other|) ==>
              ApplyAll(s, other).Some? && !IsLive(ApplyAll(s, other)) && ApplyAll(s, other).value.row.height > hs[p]
    decreases |other|
  {
    if other != [] {
      var front, last := other[..|other| - 1], other[|other| - 1];
      FirstDeleteStays(s, ops, hs, p, front);
      KnownWriter(s, ops, hs, p, last);
      assert Known(other[|front|], ops);
      LateDelete(s, ops, hs, p, last);
      DeletesSnoc(front, last);
      assert other == front + [last];
    }
  }

  lemma LateDelete(s: KeyState, ops: seq<KeyOp>, hs: seq<nat>, p: nat, op: KeyOp)
    requires Rising(s, ops, hs) && LastWriter(ops, p) && !DeletesWithin(ops, 0, p) && !RewritesAfter(ops, p)
    requires Known(op, ops)
    ensures op.Deletes() ==> op.insert.None? && op.delete.value.height > hs[p]
  {
    if op.Deletes() {
      var j :| 0 <= j < |ops| && ops[j] == op;
      assert j > p;
      assert !ops[j].Rewrites();
    }
  }

  lemma FindLastWriter(ops: seq<KeyOp>) returns (p: nat)
    requires exists j :: 0 <= j < |ops| && ops[j].Writes()
    ensures LastWriter(ops, p)
  {
    p := |ops| - 1;
    while !ops[p].Writes()
      invariant p < |ops| && forall j :: p < j < |ops| ==> !ops[j].Writes()
      invariant exists j :: 0 <= j <= p && ops[j].Writes()
      decreases p
    {
      p := p - 1;
    }
  }

  lemma DeletesOfSame(a: seq<KeyOp>, b: seq<KeyOp>)
    requires SameOps(a, b) && DeletesWithin(a, 0, |a|)
    ensures DeletesWithin(b, 0, |b|)
  {
    var i :| 0 <= i < |a| && a[i].Deletes();
    assert a[i] in b;
  }

  lemma HarmlessAgrees(s: KeyState, ops: seq<KeyOp>, hs: seq<nat>, other: seq<KeyOp>)
    requires Rising(s, ops, hs) && Harmless(s, ops) && SameOps(other, ops)
    ensures LiveAt(ApplyAll(s, other)) == LiveAt(ApplyAll(s, ops))
  {
    hide ApplyAll, Rising;
    assert forall i :: 0 <= i < |other| ==> Known(other[i], ops) && other[i] in ops;
    assert forall i :: 0 <= i < |ops| ==> Known(ops[i], ops) && ops[i] in other;
    if DeletesWithin(other, 0, |other|) { DeletesOfSame(other, ops); }
    if DeletesWithin(ops, 0, |ops|) { DeletesOfSame(ops, other); }
    if exists j :: 0 <= j < |ops| && ops[j].Writes() {
      var p := FindLastWriter(ops);
      if !DeletesWithin(ops, p + 1, |ops|) {
        assert !DeletesWithin(ops, 0, |ops|);
        NewestWriteStays(s, ops, hs, p, other);
        NewestWriteStays(s, ops, hs, p, ops);
      } else if RewritesAfter(ops, p) {
        var b :| p < b < |ops| && ops[b].Rewrites();
        RewriteBuries(s, ops, hs, p, b, other);
        RewriteBuries(s, ops, hs, p, b, ops);
      } else {
        assert DeletesWithin(ops, 0, |ops|);
        FirstDeleteStays(s, ops, hs, p, other);
        FirstDeleteStays(s, ops, hs, p, ops);
      }
    } else {
      assert forall i :: 0 <= i < |other| ==> !other[i].Writes();
      NobodyWrites(s, other);
      NobodyWrites(s, ops);
    }
  }

  // ---------------------------------------------------------------- orders that tell

  lemma {:induction false} StaysUnder(s: KeyState, ops: seq<KeyOp>, h: nat)
    requires Under(s, h)
    requires forall i :: 0 <= i < |ops| ==>
               && (ops[i].insert.Some? ==> ops[i].insert.value.height < h)
               && (ops[i].delete.Some? ==> ops[i].delete.value.height < h)
    ensures Under(ApplyAll(s, ops), h)
    decreases |ops|
  {
    if ops != [] {
      StaysUnder(s, ops[..|ops| - 1], h);
    }
  }

  lemma {:induction false} DeletesFindNothing(s: KeyState, ops: seq<KeyOp>)
    requires !IsLive(s) && forall i :: 0 <= i < |ops| ==> ops[i].insert.None?
    ensures ApplyAll(s, ops) == s
    decreases |ops|
  {
    if ops != [] {
      DeletesFindNothing(s, ops[..|ops| - 1]);
    }
  }

  lemma {:induction false} NobodyTouches(s: KeyState, ops: seq<KeyOp>)
    requires forall i :: 0 <= i < |ops| ==> ops[i].insert.None? && ops[i].delete.None?
    ensures ApplyAll(s, ops) == s
    decreases |ops|
  {
    if ops != [] {
      NobodyTouches(s, ops[..|ops| - 1]);
    }
  }

  lemma ApplyLast(s: KeyState, ops: seq<KeyOp>, op: KeyOp)
    ensures ApplyAll(s, ops + [op]) == Apply(ApplyAll(s, ops), op)
  {
    assert (ops + [op])[..|ops + [op]| - 1] == ops;
  }

  function ToEnd<T>(xs: seq<T>, i: nat): seq<T>
    requires i < |xs|
  {
    xs[..i] + xs[i + 1..] + [xs[i]]
  }

  /** What comes after p, then what comes before it, then p; and with i given, that one first of all. */
  function Delayed<T>(xs: seq<T>, p: nat): seq<T>
    requires p < |xs|
  {
    xs[p + 1..] + xs[..p] + [xs[p]]
  }

  function Swept<T>(xs: seq<T>, i: nat, p: nat): seq<T>
    requires i < p < |xs|
  {
    [xs[i]] + xs[p + 1..] + (xs[..i] + xs[i + 1..p]) + [xs[p]]
  }

  /** Where the j-th of the swept elements was. */
  function SweptFrom(n: nat, i: nat, p: nat, j: nat): nat
    requires i < p < n && j < n
  {
    if j == 0 then i
    else if j < n - p then p + j
    else if j < n - p + i then j - (n - p)
    else if j < n - 1 then j - (n - p) + 1
    else p
  }

  lemma SweptAt<T>(xs: seq<T>, i: nat, p: nat)
    requires i < p < |xs|
    ensures |Swept(xs, i, p)| == |xs|
    ensures forall j :: 0 <= j < |xs| ==>
              SweptFrom(|xs|, i, p, j) < |xs| && Swept(xs, i, p)[j] == xs[SweptFrom(|xs|, i, p, j)]
  {
  }

  lemma InOrderWriteStays(s: KeyState, ops: seq<KeyOp>, hs: seq<nat>, p: nat)
    requires Rising(s, ops, hs) && LastWriter(ops, p) && !DeletesWithin(ops, p + 1, |ops|)
    ensures ApplyAll(s, ops) == Some(Live(ops[p].insert.value))
  {
    var before, after := ops[..p], ops[p + 1..];
    assert ops == before + [ops[p]] + after;
    ApplyAllAppend(s, before + [ops[p]], after);
    ApplyLast(s, before, ops[p]);
    StaysUnder(s, before, hs[p]);
    forall i | 0 <= i < |after| ensures after[i].insert.None? && after[i].delete.None? {
      assert after[i] == ops[p + 1 + i];
      assert !ops[p + 1 + i].Writes() && !ops[p + 1 + i].Deletes();
    }
    NobodyTouches(ApplyAll(s, before + [ops[p]]), after);
  }

  lemma InOrderDeleteStays(s: KeyState, ops: seq<KeyOp>, p: nat)
    requires LastWriter(ops, p) && DeletesWithin(ops, p + 1, |ops|)
    ensures !IsLive(ApplyAll(s, ops))
  {
    var d :| p < d < |ops| && ops[d].Deletes();
    var before, after := ops[..d], ops[d + 1..];
    assert ops == before + [ops[d]] + after;
    ApplyAllAppend(s, before + [ops[d]], after);
    ApplyLast(s, before, ops[d]);
    assert forall i :: 0 <= i < |after| ==> after[i] == ops[d + 1 + i];
    NobodyWrites(ApplyAll(s, before + [ops[d]]), after);
  }

  /** A delete moved to the end undoes the newest write. */
  lemma LateDeleteTells(s: KeyState, ops: seq<KeyOp>, hs: seq<nat>, p: nat, i: nat)
    requires Rising(s, ops, hs) && LastWriter(ops, p) && !DeletesWithin(ops, p + 1, |ops|)
    requires i < p && ops[i].Deletes()
    ensures LiveAt(ApplyAll(s, ToEnd(ops, i))) != LiveAt(ApplyAll(s, ops))
  {
    InOrderWriteStays(s, ops, hs, p);
    ApplyLast(s, ops[..i] + ops[i + 1..], ops[i]);
  }

  /** The last writer moved to the end writes, when the deletes find nothing and nothing newer is stored. */
  lemma WriterAtEnd(s: KeyState, ops: seq<KeyOp>, hs: seq<nat>, p: nat, first: KeyState, middle: seq<KeyOp>)
    requires Rising(s, ops, hs) && LastWriter(ops, p) && !RewritesAfter(ops, p)
    requires !IsLive(first) && Under(first, hs[p])
    requires forall j :: 0 <= j < |middle| ==> middle[j] in ops[..p]
    ensures IsLive(ApplyAll(first, ops[p + 1..] + middle + [ops[p]]))
  {
    var after := ops[p + 1..];
    forall j | 0 <= j < |after| ensures after[j].insert.None? {
      assert after[j] == ops[p + 1 + j];
      assert !ops[p + 1 + j].Writes() && !ops[p + 1 + j].Rewrites();
    }
    DeletesFindNothing(first, after);
    ApplyAllAppend(first, after, middle);
    forall j | 0 <= j < |middle|
      ensures middle[j].insert.Some? ==> middle[j].insert.value.height < hs[p]
      ensures middle[j].delete.Some? ==> middle[j].delete.value.height < hs[p]
    {
      var n :| 0 <= n < p && ops[..p][n] == middle[j];
      assert ops[n].At(hs[n]);
    }
    StaysUnder(first, middle, hs[p]);
    ApplyLast(first, after + middle, ops[p]);
    assert ops[p].At(hs[p]);
  }

  lemma LateWriteTells(s: KeyState, ops: seq<KeyOp>, hs: seq<nat>, p: nat)
    requires Rising(s, ops, hs) && LastWriter(ops, p) && DeletesWithin(ops, p + 1, |ops|) && !RewritesAfter(ops, p)
    requires !IsLive(s)
    ensures LiveAt(ApplyAll(s, Delayed(ops, p))) != LiveAt(ApplyAll(s, ops))
  {
    InOrderDeleteStays(s, ops, p);
    WriterAtEnd(s, ops, hs, p, s, ops[..p]);
  }

  lemma SweptRegroups(ops: seq<KeyOp>, i: nat, p: nat)
    requires i < p < |ops|
    ensures Swept(ops, i, p) == [ops[i]] + (ops[p + 1..] + (ops[..i] + ops[i + 1..p]) + [ops[p]])
    ensures forall op :: op in ops[..i] + ops[i + 1..p] ==> op in ops[..p]
  {
    assert ops[..p] == ops[..i] + [ops[i]] + ops[i + 1..p];
  }

  /** A delete of an earlier flush ends the live row, and leaves it older than the later flush. */
  lemma EarlyDelete(s: KeyState, ops: seq<KeyOp>, hs: seq<nat>, i: nat, p: nat)
    requires Rising(s, ops, hs) && i < p < |ops| && ops[i].Deletes() && IsLive(s)
    ensures !IsLive(ApplyAll(s, [ops[i]])) && Under(ApplyAll(s, [ops[i]]), hs[p])
  {
    ApplyLast(s, [], ops[i]);
    assert [] + [ops[i]] == [ops[i]];
    assert ops[i].At(hs[i]);
  }

  lemma SweptWriteTells(s: KeyState, ops: seq<KeyOp>, hs: seq<nat>, p: nat, i: nat)
    requires Rising(s, ops, hs) && LastWriter(ops, p) && DeletesWithin(ops, p + 1, |ops|) && !RewritesAfter(ops, p)
    requires i < p && ops[i].Deletes() && IsLive(s)
    ensures LiveAt(ApplyAll(s, Swept(ops, i, p))) != LiveAt(ApplyAll(s, ops))
  {
    hide ApplyAll, Rising, Under, DeletesWithin, RewritesAfter, Swept;
    var middle := ops[..i] + ops[i + 1..p];
    InOrderDeleteStays(s, ops, p);
    EarlyDelete(s, ops, hs, i, p);
    SweptRegroups(ops, i, p);
    WriterAtEnd(s, ops, hs, p, ApplyAll(s, [ops[i]]), middle);
    ApplyAllAppend(s, [ops[i]], ops[p + 1..] + middle + [ops[p]]);
  }

  // ---------------------------------------------------------------- whole flushes

  ghost function FlushAll(t: Table, chain: string, flushes: seq<Cache>): Table
    decreases |flushes|
  {
    if flushes == [] then t else FlushTable(FlushAll(t, chain, flushes[..|flushes| - 1]), chain, flushes[|flushes| - 1])
  }

  ghost function OpAt(c: Cache, chain: string, k: Key): KeyOp {
    match c
    case Writes(rows) => KeyOp(Lookup(Delivered(rows, chain), k), None)
    case Updates(inserts, deletes) => KeyOp(Lookup(Stamp(inserts, chain), k), Lookup(Stamp(deletes, chain), k))
  }

  ghost function OpsAt(flushes: seq<Cache>, chain: string, k: Key): (ops: seq<KeyOp>)
    ensures |ops| == |flushes|
  {
    seq(|flushes|, j requires 0 <= j < |flushes| => OpAt(flushes[j], chain, k))
  }

  lemma FlushIsApply(t: Table, chain: string, c: Cache, k: Key)
    ensures StoredAt(FlushTable(t, chain, c), k) == Apply(StoredAt(t, k), OpAt(c, chain, k))
  {
    hide Stamp, Delivered;
  }

  lemma {:induction false} FlushAllKeywise(t: Table, chain: string, flushes: seq<Cache>, k: Key)
    ensures StoredAt(FlushAll(t, chain, flushes), k) == ApplyAll(StoredAt(t, k), OpsAt(flushes, chain, k))
    decreases |flushes|
  {
    if flushes != [] {
      hide StoredAt, FlushTable, OpAt, Apply;
      var front, last := flushes[..|flushes| - 1], flushes[|flushes| - 1];
      FlushAllKeywise(t, chain, front, k);
      FlushIsApply(FlushAll(t, chain, front), chain, last, k);
      OpsSnoc(flushes, chain, k);
      ApplyLast(StoredAt(t, k), OpsAt(front, chain, k), OpAt(last, chain, k));
    }
  }

  lemma OpsSnoc(flushes: seq<Cache>, chain: string, k: Key)
    requires flushes != []
    ensures OpsAt(flushes, chain, k)
         == OpsAt(flushes[..|flushes| - 1], chain, k) + [OpAt(flushes[|flushes| - 1], chain, k)]
  {
    hide OpAt;
  }

  /**
    Flush j holds rows of height hs[j] only, and heights increase from above what the table holds; under the skip key
    there is nothing in the table and nothing but deletes in the flushes.
  */
  ghost predicate Ordered(t: Table, chain: string, skip: SkipRow, flushes: seq<Cache>, hs: seq<nat>) {
    && |hs| == |flushes|
    && (forall i, j :: 0 <= i < j < |hs| ==> hs[i] < hs[j])
    && (forall j :: 0 <= j < |hs| ==> Older(t, skip, hs[j]) && OfHeight(flushes[j], chain, skip, hs[j]))
  }

  ghost predicate OfHeight(c: Cache, chain: string, skip: SkipRow, h: nat) {
    c.Updates? && AllAt(Stamp(c.inserts, chain), skip, h) && OthersAt(Stamp(c.deletes, chain), skip, h)
  }

  lemma OrderedRises(t: Table, chain: string, skip: SkipRow, flushes: seq<Cache>, hs: seq<nat>, k: Key)
    requires Ordered(t, chain, skip, flushes, hs) && !IsSkipKey(skip, k)
    ensures Rising(StoredAt(t, k), OpsAt(flushes, chain, k), hs)
  {
    hide Stamp;
    forall j | 0 <= j < |hs| ensures OpAt(flushes[j], chain, k).At(hs[j]) {
      assert OfHeight(flushes[j], chain, skip, hs[j]);
    }
  }

  /** Nothing is written under the skip key, and nothing was there. */
  lemma SkipKeyInserts(t: Table, chain: string, skip: SkipRow, flushes: seq<Cache>, hs: seq<nat>, k: Key, c: Cache)
    requires Ordered(t, chain, skip, flushes, hs) && IsSkipKey(skip, k) && c in flushes
    ensures OpAt(c, chain, k).insert.None? && StoredAt(t, k).None?
  {
    hide Stamp;
    var j :| 0 <= j < |flushes| && flushes[j] == c;
    assert OfHeight(flushes[j], chain, skip, hs[j]) && Older(t, skip, hs[j]);
  }

  lemma SkipKeyIsHarmless(t: Table, chain: string, skip: SkipRow, flushes: seq<Cache>, hs: seq<nat>, k: Key)
    requires Ordered(t, chain, skip, flushes, hs) && IsSkipKey(skip, k)
    ensures HarmlessAt(t, chain, flushes, k)
  {
    hide OpAt, Ordered;
    forall j | 0 <= j < |flushes| ensures !OpAt(flushes[j], chain, k).Writes() {
      SkipKeyInserts(t, chain, skip, flushes, hs, k, flushes[j]);
    }
  }

  /** In whatever order its deletes come, they find nothing. */
  lemma SkipKeyStays(
    t: Table, chain: string, skip: SkipRow, flushes: seq<Cache>, hs: seq<nat>, other: seq<Cache>, k: Key)
    requires Ordered(t, chain, skip, flushes, hs) && IsSkipKey(skip, k) && Permutes(other, flushes)
    ensures ApplyAll(StoredAt(t, k), OpsAt(other, chain, k)) == StoredAt(t, k)
  {
    hide OpAt, StoredAt, Ordered;
    forall j | 0 <= j < |other| ensures OpAt(other[j], chain, k).insert.None? && StoredAt(t, k).None? {
      assert other[j] in multiset(other);
      SkipKeyInserts(t, chain, skip, flushes, hs, k, other[j]);
    }
    if other != [] {
      assert OpAt(other[0], chain, k).insert.None?;
      DeletesFindNothing(StoredAt(t, k), OpsAt(other, chain, k));
    }
  }

  ghost predicate Permutes(a: seq<Cache>, b: seq<Cache>) {
    multiset(a) == multiset(b)
  }

  /** Every order of the flushes leaves the live rows of the order in which they were made. */
  ghost predicate AnyOrderAgrees(t: Table, chain: string, flushes: seq<Cache>) {
    forall other :: Permutes(other, flushes) ==>
         LiveRows(FlushAll(t, chain, other)) == LiveRows(FlushAll(t, chain, flushes))
  }

  ghost predicate HarmlessAt(t: Table, chain: string, flushes: seq<Cache>, k: Key) {
    Harmless(StoredAt(t, k), OpsAt(flushes, chain, k))
  }

  lemma PermutedOps(a: seq<Cache>, b: seq<Cache>, chain: string, k: Key)
    requires Permutes(a, b)
    ensures SameOps(OpsAt(a, chain, k), OpsAt(b, chain, k))
  {
    hide OpAt;
    OpsFound(a, b, chain, k);
    OpsFound(b, a, chain, k);
  }

  lemma OpsFound(a: seq<Cache>, b: seq<Cache>, chain: string, k: Key)
    requires Permutes(a, b)
    ensures forall op :: op in OpsAt(a, chain, k) ==> op in OpsAt(b, chain, k)
  {
    hide OpAt;
    forall op | op in OpsAt(a, chain, k) ensures op in OpsAt(b, chain, k) {
      var i :| 0 <= i < |a| && OpsAt(a, chain, k)[i] == op;
      assert a[i] in multiset(a);
      var j :| 0 <= j < |b| && b[j] == a[i];
      assert OpsAt(b, chain, k)[j] == op;
    }
  }

  lemma ToEndPermutes(xs: seq<Cache>, i: nat)
    requires i < |xs|
    ensures Permutes(ToEnd(xs, i), xs)
  {
    assert xs == xs[..i] + [xs[i]] + xs[i + 1..];
  }

  lemma DelayedPermutes(xs: seq<Cache>, p: nat)
    requires p < |xs|
    ensures Permutes(Delayed(xs, p), xs)
  {
    assert xs == xs[..p] + [xs[p]] + xs[p + 1..];
  }

  lemma SweptPermutes(xs: seq<Cache>, i: nat, p: nat)
    requires i < p < |xs|
    ensures Permutes(Swept(xs, i, p), xs)
  {
    assert xs == xs[..i] + [xs[i]] + xs[i + 1..p] + [xs[p]] + xs[p + 1..];
    SweepPermutes(xs[..i], [xs[i]], xs[i + 1..p], [xs[p]], xs[p + 1..]);
  }

  lemma SweepPermutes(a: seq<Cache>, x: seq<Cache>, b: seq<Cache>, y: seq<Cache>, c: seq<Cache>)
    ensures Permutes(x + c + (a + b) + y, a + x + b + y + c)
  {
  }

  lemma KeyDiffers(t: Table, chain: string, other: seq<Cache>, flushes: seq<Cache>, k: Key)
    requires LiveAt(ApplyAll(StoredAt(t, k), OpsAt(other, chain, k)))
         != LiveAt(ApplyAll(StoredAt(t, k), OpsAt(flushes, chain, k)))
    ensures LiveAt(StoredAt(FlushAll(t, chain, other), k)) != LiveAt(StoredAt(FlushAll(t, chain, flushes), k))
  {
    hide LiveAt, ApplyAll, StoredAt, OpsAt, FlushAll;
    FlushAllKeywise(t, chain, other, k);
    FlushAllKeywise(t, chain, flushes, k);
  }

  lemma OpsToEnd(flushes: seq<Cache>, chain: string, k: Key, i: nat)
    requires i < |flushes|
    ensures OpsAt(ToEnd(flushes, i), chain, k) == ToEnd(OpsAt(flushes, chain, k), i)
  {
    hide OpAt;
  }

  lemma OpsDelayed(flushes: seq<Cache>, chain: string, k: Key, p: nat)
    requires p < |flushes|
    ensures OpsAt(Delayed(flushes, p), chain, k) == Delayed(OpsAt(flushes, chain, k), p)
  {
    hide OpAt;
  }

  lemma OpsSwept(flushes: seq<Cache>, chain: string, k: Key, i: nat, p: nat)
    requires i < p < |flushes|
    ensures OpsAt(Swept(flushes, i, p), chain, k) == Swept(OpsAt(flushes, chain, k), i, p)
  {
    hide OpAt, Swept;
    SweptAt(flushes, i, p);
    SweptAt(OpsAt(flushes, chain, k), i, p);
  }

  /** The order in which a harmful key shows. */
  lemma HarmfulShows(
    t: Table, chain: string, skip: SkipRow, flushes: seq<Cache>, hs: seq<nat>, k: Key)
    returns (other: seq<Cache>)
    requires Ordered(t, chain, skip, flushes, hs) && !IsSkipKey(skip, k) && !HarmlessAt(t, chain, flushes, k)
    ensures Permutes(other, flushes)
    ensures LiveAt(StoredAt(FlushAll(t, chain, other), k)) != LiveAt(StoredAt(FlushAll(t, chain, flushes), k))
  {
    hide ApplyAll, FlushAll, OpsAt, StoredAt, Rising, LiveAt, ToEnd, Delayed, Swept, Ordered, Permutes;
    OrderedRises(t, chain, skip, flushes, hs, k);
    var s, ops := StoredAt(t, k), OpsAt(flushes, chain, k);
    var p: nat :| p < |ops| && LastWriter(ops, p)
      && !(if DeletesWithin(ops, p + 1, |ops|) then RewritesAfter(ops, p) || (IsLive(s) && !DeletesWithin(ops, 0, p))
           else !DeletesWithin(ops, 0, p));
    if !DeletesWithin(ops, p + 1, |ops|) {
      var i: nat :| i < p && ops[i].Deletes();
      other := ToEnd(flushes, i);
      ToEndPermutes(flushes, i);
      OpsToEnd(flushes, chain, k, i);
      LateDeleteTells(s, ops, hs, p, i);
    } else if !IsLive(s) {
      other := Delayed(flushes, p);
      DelayedPermutes(flushes, p);
      OpsDelayed(flushes, chain, k, p);
      LateWriteTells(s, ops, hs, p);
    } else {
      var i: nat :| i < p && ops[i].Deletes();
      other := Swept(flushes, i, p);
      SweptPermutes(flushes, i, p);
      OpsSwept(flushes, chain, k, i, p);
      SweptWriteTells(s, ops, hs, p, i);
    }
    KeyDiffers(t, chain, other, flushes, k);
  }

  lemma HarmlessKeyAgrees(
    t: Table, chain: string, skip: SkipRow, flushes: seq<Cache>, hs: seq<nat>, other: seq<Cache>, k: Key)
    requires Ordered(t, chain, skip, flushes, hs) && Permutes(other, flushes) && HarmlessAt(t, chain, flushes, k)
    ensures LiveAt(StoredAt(FlushAll(t, chain, other), k)) == LiveAt(StoredAt(FlushAll(t, chain, flushes), k))
  {
    hide FlushAll, OpsAt, StoredAt, LiveAt, Harmless, Ordered, ApplyAll;
    FlushAllKeywise(t, chain, other, k);
    FlushAllKeywise(t, chain, flushes, k);
    if IsSkipKey(skip, k) {
      SkipKeyStays(t, chain, skip, flushes, hs, other, k);
      SkipKeyStays(t, chain, skip, flushes, hs, flushes, k);
    } else {
      OrderedRises(t, chain, skip, flushes, hs, k);
      PermutedOps(other, flushes, chain, k);
      HarmlessAgrees(StoredAt(t, k), OpsAt(flushes, chain, k), hs, OpsAt(other, chain, k));
    }
  }

  /**
    For any number of successive flushes of a set-update module: every order in which they may be executed leaves the
    same live rows if and only if each key is harmless.
  */
  lemma AnyOrderAgreesIff(t: Table, chain: string, skip: SkipRow, flushes: seq<Cache>, hs: seq<nat>)
    requires Ordered(t, chain, skip, flushes, hs)
    ensures AnyOrderAgrees(t, chain, flushes) <==> forall k :: HarmlessAt(t, chain, flushes, k)
  {
    hide FlushAll, OpsAt, StoredAt, LiveAt, LiveRows, Harmless, Permutes, Ordered;
    if forall k :: HarmlessAt(t, chain, flushes, k) {
      forall other | Permutes(other, flushes)
        ensures LiveRows(FlushAll(t, chain, other)) == LiveRows(FlushAll(t, chain, flushes))
      {
        forall k
          ensures LiveAt(StoredAt(FlushAll(t, chain, other), k)) == LiveAt(StoredAt(FlushAll(t, chain, flushes), k))
        {
          assert HarmlessAt(t, chain, flushes, k);
          HarmlessKeyAgrees(t, chain, skip, flushes, hs, other, k);
        }
        LiveRowsKeywise(FlushAll(t, chain, other), FlushAll(t, chain, flushes));
      }
    }
    if AnyOrderAgrees(t, chain, flushes) {
      forall k ensures HarmlessAt(t, chain, flushes, k) {
        if IsSkipKey(skip, k) {
          SkipKeyIsHarmless(t, chain, skip, flushes, hs, k);
        } else if !HarmlessAt(t, chain, flushes, k) {
          var other := HarmfulShows(t, chain, skip, flushes, hs, k);
          LiveRowsKeywise(FlushAll(t, chain, other), FlushAll(t, chain, flushes));
        }
      }
    }
  }

  // ---------------------------------------------------------------- two flushes

  /**
    The key on which swapping two successive flushes shows: the later one leaves written what the earlier one deletes,
    or the later one only deletes what the earlier one leaves written and no live row was there before.
  */
  ghost predicate Crossed(t: Table, chain: string, c1: Cache, c2: Cache, k: Key) {
    var first, second := OpAt(c1, chain, k), OpAt(c2, chain, k);
    || (first.Deletes() && second.Writes())
    || (first.Writes() && second.Deletes() && !second.Rewrites() && !IsLive(StoredAt(t, k)))
  }

  lemma CrossedIsHarmful(t: Table, chain: string, c1: Cache, c2: Cache, k: Key)
    ensures HarmlessAt(t, chain, [c1, c2], k) <==> !Crossed(t, chain, c1, c2, k)
  {
    hide OpAt;
    var ops := OpsAt([c1, c2], chain, k);
    assert ops == [OpAt(c1, chain, k), OpAt(c2, chain, k)];
    PairIsHarmless(StoredAt(t, k), ops[0], ops[1]);
  }

  lemma PairIsHarmless(s: KeyState, first: KeyOp, second: KeyOp)
    ensures Harmless(s, [first, second]) <==>
              !((first.Deletes() && second.Writes())
                || (first.Writes() && second.Deletes() && !second.Rewrites() && !IsLive(s)))
  {
    var ops := [first, second];
    assert ops[0] == first && ops[1] == second;
    assert DeletesWithin(ops, 1, 2) <==> second.Deletes();
    assert DeletesWithin(ops, 0, 1) <==> first.Deletes();
    assert !DeletesWithin(ops, 0, 0) && !DeletesWithin(ops, 2, 2);
    assert RewritesAfter(ops, 0) <==> second.Rewrites();
    assert LastWriter(ops, 1) <==> second.Writes();
    assert LastWriter(ops, 0) <==> first.Writes() && !second.Writes();
  }

  lemma PermutationsOfTwo(c1: Cache, c2: Cache, other: seq<Cache>)
    ensures Permutes(other, [c1, c2]) <==> other == [c1, c2] || other == [c2, c1]
  {
    if Permutes(other, [c1, c2]) {
      assert |multiset(other)| == 2;
      assert other == [other[0], other[1]];
      assert multiset{other[0], other[1]} == multiset{c1, c2};
      assert other[0] in multiset{c1, c2};
    }
    if other == [c2, c1] {
      assert multiset(other) == multiset{c1, c2};
    }
  }

  /**
    Two successive flushes taken in the wrong order leave the same live rows if and only if no key is crossed by them.
  */
  lemma SwappedFlushesAgreeIff(t: Table, chain: string, skip: SkipRow, c1: Cache, c2: Cache, h1: nat, h2: nat)
    requires Ordered(t, chain, skip, [c1, c2], [h1, h2])
    ensures LiveRows(FlushTable(FlushTable(t, chain, c1), chain, c2))
         == LiveRows(FlushTable(FlushTable(t, chain, c2), chain, c1))
       <==> forall k :: !Crossed(t, chain, c1, c2, k)
  {
    hide FlushTable, LiveRows, Permutes, Ordered, HarmlessAt, Crossed;
    AnyOrderAgreesIff(t, chain, skip, [c1, c2], [h1, h2]);
    forall k { CrossedIsHarmful(t, chain, c1, c2, k); }
    forall other { PermutationsOfTwo(c1, c2, other); }
    FlushPair(t, chain, c1, c2);
    FlushPair(t, chain, c2, c1);
  }

  lemma FlushPair(t: Table, chain: string, c1: Cache, c2: Cache)
    ensures FlushAll(t, chain, [c1, c2]) == FlushTable(FlushTable(t, chain, c1), chain, c2)
  {
    hide FlushTable;
    assert [c1, c2][..1] == [c1] && [c1][..0] == [];
    assert FlushAll(t, chain, [c1]) == FlushTable(FlushAll(t, chain, []), chain, c1);
  }

  // ---------------------------------------------------------------- the flushes of a run

  ghost function GatheredAll(v: View, blocks: seq<seq<TraceOperation>>): (r: seq<Cache>)
    ensures |r| == |blocks|
  {
    seq(|blocks|, j requires 0 <= j < |blocks| => Gathered(v, blocks[j]))
  }

  function Heights(blocks: seq<seq<TraceOperation>>): (r: seq<nat>)
    requires forall j :: 0 <= j < |blocks| ==> blocks[j] != []
    ensures |r| == |blocks|
  {
    seq(|blocks|, j requires 0 <= j < |blocks| => blocks[j][0].blockHeight)
  }

  lemma {:induction false} FlushAllIsTableAfter(v: View, t: Table, blocks: seq<seq<TraceOperation>>)
    ensures FlushAll(t, v.chain, GatheredAll(v, blocks)) == TableAfter(v, t, blocks)
    decreases |blocks|
  {
    if blocks != [] {
      hide FlushTable, Gathered;
      var front := blocks[..|blocks| - 1];
      FlushAllIsTableAfter(v, t, front);
      assert GatheredAll(v, blocks)[..|blocks| - 1] == GatheredAll(v, front);
    }
  }

  lemma BlocksAreOrdered(v: View, skip: SkipRow, t: Table, blocks: seq<seq<TraceOperation>>)
    requires Blocks(v, skip, t, blocks)
    ensures Ordered(t, v.chain, skip, GatheredAll(v, blocks), Heights(blocks))
  {
    hide Gathered, Stamp, Records, RowsDated, SameHeight, Older, AllAt, OthersAt;
    forall j | 0 <= j < |blocks| ensures OfHeight(Gathered(v, blocks[j]), v.chain, skip, blocks[j][0].blockHeight) {
      GatheredDated(v, skip, blocks[j], blocks[j][0].blockHeight);
    }
  }

  /**
    A run over blocks of increasing heights: whatever order the goroutines bring about for its flushes, the live rows
    are those of the in-order execution, if and only if each key is harmless in what the blocks write and delete.
  */
  lemma RunFlushesInAnyOrderIff(v: View, skip: SkipRow, t: Table, blocks: seq<seq<TraceOperation>>)
    requires Blocks(v, skip, t, blocks)
    ensures (forall other :: Permutes(other, GatheredAll(v, blocks)) ==>
               LiveRows(FlushAll(t, v.chain, other)) == LiveRows(TableAfter(v, t, blocks)))
       <==> forall k :: HarmlessAt(t, v.chain, GatheredAll(v, blocks), k)
  {
    assert forall j :: 0 <= j < |blocks| ==> blocks[j] != [];
    hide Blocks, Ordered, HarmlessAt, FlushAll, TableAfter, LiveRows, Permutes;
    BlocksAreOrdered(v, skip, t, blocks);
    FlushAllIsTableAfter(v, t, blocks);
    AnyOrderAgreesIff(t, v.chain, skip, GatheredAll(v, blocks), Heights(blocks));
  }
}
