/** What dexcore may rely on over any history of writes: lookups return the last write, and iterating a market
    yields exactly the rows present since its list last overflowed, once each, oldest insertion first. */
module CoreStoreRuns {
  import opened Bytes
  import opened EvmSlots
  import opened Wrappers
  import opened CoreStore

  datatype Op = Put(key: seq<byte>, value: seq<byte>) | Delete(key: seq<byte>)

  function Apply(v: View, op: Op): View {
    match op
    case Put(k, b) => PutView(v, k, b)
    case Delete(k) => DeleteView(v, k)
  }

  function Run(ops: seq<Op>): View {
    if ops == [] then View(map[], map[]) else Apply(Run(ops[..|ops| - 1]), ops[|ops| - 1])
  }

  // ----- the reference: read off the history alone -----

  /** The value the last write to `key` left, if it left a readable one. */
  function LastWritten(ops: seq<Op>, key: seq<byte>): Option<seq<byte>> {
    if ops == [] then None
    else if ops[|ops| - 1].key != key then LastWritten(ops[..|ops| - 1], key)
    else match ops[|ops| - 1]
      case Put(_, b) => Visible(b)
      case Delete(_) => None
  }

  /** The step at which `key` was first Put after its last Delete, if it was. */
  function Born(ops: seq<Op>, key: seq<byte>): (b: Option<nat>)
    ensures b.Some? ==> b.value < |ops|
  {
    if ops == [] then None
    else
      var before := Born(ops[..|ops| - 1], key);
      if ops[|ops| - 1].key != key then before
      else match ops[|ops| - 1]
        case Put(_, _) => if before.Some? then before else Some(|ops| - 1)
        case Delete(_) => None
  }

  /** A Put that would list one order more of a market than a readable count can say. */
  predicate Overflows(v: View, op: Op, pool: Word) {
    op.Put? && match ParseOrderKey(op.key)
      case None => false
      case Some(row) => row.pool == pool && row.id !in IndexIn(v, pool) && |IndexIn(v, pool)| == MAX_INT32
  }

  /** How many steps there were when the market's list last overflowed; 0 if it never has. */
  function LastOverflow(ops: seq<Op>, pool: Word): (n: nat)
    ensures n <= |ops|
  {
    if ops == [] then 0
    else if Overflows(Run(ops[..|ops| - 1]), ops[|ops| - 1], pool) then |ops|
    else LastOverflow(ops[..|ops| - 1], pool)
  }

  /** The history since then; all of it if the list never overflowed. */
  function Since(ops: seq<Op>, pool: Word): seq<Op> {
    ops[LastOverflow(ops, pool)..]
  }

  lemma SinceStep(ops: seq<Op>, op: Op, pool: Word)
    ensures Since(ops + [op], pool) == if Overflows(Run(ops), op, pool) then [] else Since(ops, pool) + [op]
  {
    assert (ops + [op])[..|ops|] == ops;
  }

  // ----- lookups -----

  /** Get and Has answer from the last Put or Delete of that very key, whatever else was written. */
  lemma {:induction false} LookupIsLastWrite(ops: seq<Op>, key: seq<byte>)
    ensures ValueIn(Run(ops), key) == LastWritten(ops, key)
  {
    if ops != [] {
      LookupIsLastWrite(ops[..|ops| - 1], key);
    }
  }

  /** After a Put, Has tells what Get tells exactly when the value is not over-long. */
  lemma HasAgreesWithGet(m: Slots, key: seq<byte>, value: seq<byte>)
    requires |value| < U64 / 2 && Spells(m, CoreValue(key), value)
    ensures (LowU64(Load(m, RecordWord(CoreValue(key), 0))) != 0) == Stored(m, CoreValue(key)).Some?
            <==> |value| <= MAX_INT32
  {
    SpelledIsStored(m, CoreValue(key), value);
    U64WordRoundTrip(|value|);
  }

  // ----- the index -----

  /** Both keys are live and the first has been live longer. */
  predicate Older(ops: seq<Op>, a: seq<byte>, b: seq<byte>) {
    Born(ops, a).Some? && Born(ops, b).Some? && Born(ops, a).value < Born(ops, b).value
  }

  ghost predicate ByAge(ids: seq<nat>, ops: seq<Op>, pool: Word) {
    forall i, j :: 0 <= i < j < |ids| ==> Older(ops, OrderRowKey(pool, ids[i]), OrderRowKey(pool, ids[j]))
  }

  /** The list of one market: live ids only, all of them, in strictly increasing birth order. */
  ghost predicate IndexTells(ids: seq<nat>, ops: seq<Op>, pool: Word) {
    && AllU64(ids)
    && (forall id: nat :: id < U64 ==> (id in ids <==> Born(ops, OrderRowKey(pool, id)).Some?))
    && ByAge(ids, ops, pool)
  }

  lemma RowKeyInjective(p: Word, i: nat, p': Word, i': nat)
    requires i < U64 && i' < U64
    ensures OrderRowKey(p, i) == OrderRowKey(p', i') <==> p == p' && i == i'
    ensures ParseOrderKey(OrderRowKey(p, i)) == Some(OrderRow(p, i))
  {
    OrderKeyRoundTrip(OrderRowKey(p, i), p, i);
    OrderKeyRoundTrip(OrderRowKey(p, i), p', i');
  }

  /** Every id keeps the birth it had before a step that does not write its row. */
  lemma BornElsewhere(ops: seq<Op>, op: Op, pool: Word, id: nat)
    requires op.key != OrderRowKey(pool, id)
    ensures Born(ops + [op], OrderRowKey(pool, id)) == Born(ops, OrderRowKey(pool, id))
  {
    assert (ops + [op])[..|ops|] == ops;
  }

  lemma StepElsewhere(ids: seq<nat>, ops: seq<Op>, op: Op, pool: Word)
    requires IndexTells(ids, ops, pool)
    requires forall id: nat :: id < U64 ==> op.key != OrderRowKey(pool, id)
    ensures IndexTells(ids, ops + [op], pool)
  {
    forall id: nat | id < U64
      ensures Born(ops + [op], OrderRowKey(pool, id)) == Born(ops, OrderRowKey(pool, id))
    {
      BornElsewhere(ops, op, pool, id);
    }
  }

  lemma StepInsert(ids: seq<nat>, ops: seq<Op>, op: Op, pool: Word, id: nat)
    requires IndexTells(ids, ops, pool) && id < U64
    requires op.Put? && op.key == OrderRowKey(pool, id)
    ensures IndexTells(if id in ids then ids else ids + [id], ops + [op], pool)
  {
    assert (ops + [op])[..|ops|] == ops;
    forall x: nat | x < U64
      ensures x != id ==> Born(ops + [op], OrderRowKey(pool, x)) == Born(ops, OrderRowKey(pool, x))
      ensures x == id ==> Born(ops + [op], OrderRowKey(pool, x))
                          == if id in ids then Born(ops, OrderRowKey(pool, x)) else Some(|ops|)
    {
      RowKeyInjective(pool, x, pool, id);
    }
    var now := if id in ids then ids else ids + [id];
    assert forall x :: x in now <==> x in ids || x == id;
  }

  /** Dropping one id keeps the relative order of the others. */
  lemma {:induction false} WithoutKeepsOrder(ids: seq<nat>, id: nat, ops: seq<Op>, pool: Word)
    requires ByAge(ids, ops, pool)
    ensures ByAge(Without(ids, id), ops, pool)
  {
    if ids != [] {
      var front := ids[..|ids| - 1];
      forall i, j | 0 <= i < j < |front|
        ensures Older(ops, OrderRowKey(pool, front[i]), OrderRowKey(pool, front[j]))
      {
        assert front[i] == ids[i] && front[j] == ids[j];
      }
      WithoutKeepsOrder(front, id, ops, pool);
      WithoutMembers(front, id);
      var r := Without(front, id);
      forall i | 0 <= i < |r|
        ensures Older(ops, OrderRowKey(pool, r[i]), OrderRowKey(pool, ids[|ids| - 1]))
      {
        assert r[i] in front;
        var k :| 0 <= k < |front| && front[k] == r[i];
        assert ids[k] == r[i];
      }
    }
  }

  lemma StepRemove(ids: seq<nat>, ops: seq<Op>, op: Op, pool: Word, id: nat)
    requires IndexTells(ids, ops, pool) && id < U64
    requires op.Delete? && op.key == OrderRowKey(pool, id)
    ensures IndexTells(Without(ids, id), ops + [op], pool)
  {
    assert (ops + [op])[..|ops|] == ops;
    WithoutU64(ids, id);
    WithoutMembers(ids, id);
    WithoutKeepsOrder(ids, id, ops, pool);
    forall x: nat | x < U64 && x != id
      ensures Born(ops + [op], OrderRowKey(pool, x)) == Born(ops, OrderRowKey(pool, x))
    {
      RowKeyInjective(pool, x, pool, id);
      BornElsewhere(ops, op, pool, x);
    }
  }

  /** In every reachable state each market's list is its orders live since it last overflowed, once each, by age. */
  lemma {:induction false} IndexIsLiveOrdersByAge(ops: seq<Op>, pool: Word)
    ensures IndexTells(IndexIn(Run(ops), pool), Since(ops, pool), pool)
  {
    if ops != [] {
      var prev, op := ops[..|ops| - 1], ops[|ops| - 1];
      IndexIsLiveOrdersByAge(prev, pool);
      assert ops == prev + [op];
      SinceStep(prev, op, pool);
      IndexFits(prev, pool);
      if Overflows(Run(prev), op, pool) {
        OverflowEmpties(Run(prev), op, pool);
      } else {
        IndexStep(Run(prev), Since(prev, pool), op, pool);
      }
    }
  }

  lemma OverflowEmpties(v: View, op: Op, pool: Word)
    requires Overflows(v, op, pool)
    ensures IndexIn(Apply(v, op), pool) == [] && IndexTells([], [], pool)
  {
  }

  lemma IndexStep(v: View, ops: seq<Op>, op: Op, pool: Word)
    requires IndexTells(IndexIn(v, pool), ops, pool) && |IndexIn(v, pool)| <= MAX_INT32
    requires !Overflows(v, op, pool)
    ensures IndexTells(IndexIn(Apply(v, op), pool), ops + [op], pool)
  {
    var row := ParseOrderKey(op.key);
    if row.Some? && row.value.pool == pool {
      ParsedOrderIdBound(op.key);
      OrderKeyRoundTrip(op.key, pool, row.value.id);
      if op.Put? {
        StepInsert(IndexIn(v, pool), ops, op, pool, row.value.id);
      } else {
        StepRemove(IndexIn(v, pool), ops, op, pool, row.value.id);
      }
    } else {
      forall id: nat | id < U64
        ensures op.key != OrderRowKey(pool, id)
      {
        RowKeyInjective(pool, id, pool, id);
      }
      StepElsewhere(IndexIn(v, pool), ops, op, pool);
    }
  }

  lemma {:induction false} IndexFits(ops: seq<Op>, pool: Word)
    ensures |IndexIn(Run(ops), pool)| <= MAX_INT32
  {
    if ops != [] {
      IndexFits(ops[..|ops| - 1], pool);
    }
  }

  /** The guard is exact: a Put keeps a market's list, extended by a new id, unless it overflows,
      and then the list reads back empty although its rows are still there. */
  lemma PutKeepsIndexUnlessFull(v: View, pool: Word, id: nat, value: seq<byte>)
    requires id < U64 && |IndexIn(v, pool)| <= MAX_INT32
    ensures var op, ids := Put(OrderRowKey(pool, id), value), IndexIn(v, pool);
            && (IndexIn(Apply(v, op), pool) == (if id in ids then ids else ids + [id]) <==> !Overflows(v, op, pool))
            && (Overflows(v, op, pool) ==> IndexIn(Apply(v, op), pool) == [])
  {
    RowKeyInjective(pool, id, pool, id);
  }

  /** The first `n` orders of a market, put one after another. */
  function Filling(pool: Word, n: nat): (ops: seq<Op>)
    ensures |ops| == n
  {
    if n == 0 then [] else Filling(pool, n - 1) + [Put(OrderRowKey(pool, n - 1), [1])]
  }

  lemma {:induction false} NextListed(v: View, pool: Word, n: nat)
    requires |IndexIn(v, pool)| == n < MAX_INT32 && forall i :: 0 <= i < n ==> IndexIn(v, pool)[i] == i
    ensures IndexIn(Apply(v, Put(OrderRowKey(pool, n), [1])), pool) == IndexIn(v, pool) + [n]
  {
    PutKeepsIndexUnlessFull(v, pool, n, [1]);
    RowKeyInjective(pool, n, pool, n);
  }

  lemma NothingListed(pool: Word)
    ensures IndexIn(Run([]), pool) == []
  {
  }

  lemma {:induction false} FillingLists(pool: Word, n: nat)
    requires n <= MAX_INT32
    ensures var ids := IndexIn(Run(Filling(pool, n)), pool); |ids| == n && forall i :: 0 <= i < n ==> ids[i] == i
  {
    hide IndexIn, Apply;
    if n == 0 {
      NothingListed(pool);
    } else {
      FillingLists(pool, n - 1);
      assert Filling(pool, n)[..n - 1] == Filling(pool, n - 1);
      NextListed(Run(Filling(pool, n - 1)), pool, n - 1);
      assert Filling(pool, n)[n - 1] == Put(OrderRowKey(pool, n - 1), [1]);
      assert Run(Filling(pool, n)) == Apply(Run(Filling(pool, n - 1)), Put(OrderRowKey(pool, n - 1), [1]));
    }
  }

  lemma {:induction false} FillingWrites(pool: Word, n: nat, id: nat)
    requires id < n <= U64
    ensures LastWritten(Filling(pool, n), OrderRowKey(pool, id)) == Some([1])
  {
    assert Filling(pool, n)[..n - 1] == Filling(pool, n - 1);
    RowKeyInjective(pool, n - 1, pool, id);
    if id < n - 1 {
      FillingWrites(pool, n - 1, id);
    }
  }

  /** A history in which a market's list does read empty: 2^31 orders put one after another, every one of whose rows
      is there. */
  lemma ListMayVanish(pool: Word, id: nat)
    requires id <= MAX_INT32
    ensures var ops := Filling(pool, MAX_INT32 + 1);
            IndexIn(Run(ops), pool) == [] && ValueIn(Run(ops), OrderRowKey(pool, id)) == Some([1])
  {
    var n: nat := MAX_INT32 + 1;
    FillingLists(pool, n - 1);
    assert Filling(pool, n)[..n - 1] == Filling(pool, n - 1);
    RowKeyInjective(pool, n - 1, pool, n - 1);
    PutKeepsIndexUnlessFull(Run(Filling(pool, n - 1)), pool, n - 1, [1]);
    FillingWrites(pool, n, id);
    LookupIsLastWrite(Filling(pool, n), OrderRowKey(pool, id));
  }

  // ----- iteration -----

  function HistoryRows(p: Word, ids: seq<nat>, ops: seq<Op>): seq<Row> {
    if ids == [] then []
    else
      var rest := HistoryRows(p, ids[1..], ops);
      match LastWritten(ops, OrderRowKey(p, ids[0]))
      case None => rest
      case Some(v) => [Row(OrderRowKey(p, ids[0]), v)] + rest
  }

  /** Rows read from storage are rows of the history. */
  lemma {:induction false} RowsFromHistory(m: Slots, ops: seq<Op>, pool: Word, ids: seq<nat>)
    requires Refines(m, Run(ops))
    ensures RowsOf(m, pool, ids) == HistoryRows(pool, ids, ops)
  {
    if ids != [] {
      RowsFromHistory(m, ops, pool, ids[1..]);
      LookupIsLastWrite(ops, OrderRowKey(pool, ids[0]));
      assert Stored(m, CoreValue(OrderRowKey(pool, ids[0]))) == ValueIn(Run(ops), OrderRowKey(pool, ids[0]));
    }
  }

  /** A row is present only if its order is live. */
  lemma {:induction false} PresentIsBorn(ops: seq<Op>, key: seq<byte>)
    requires LastWritten(ops, key).Some?
    ensures Born(ops, key).Some?
  {
    if ops[|ops| - 1].key != key {
      PresentIsBorn(ops[..|ops| - 1], key);
    }
  }

  /** `rows` are exactly the present rows of `pool`, each once with its last value, oldest first. */
  ghost predicate ExactRows(rows: seq<Row>, ops: seq<Op>, pool: Word) {
    && (forall r :: r in rows ==>
          && LastWritten(ops, r.key) == Some(r.value)
          && exists id: nat :: id < U64 && r.key == OrderRowKey(pool, id))
    && (forall id: nat :: id < U64 && LastWritten(ops, OrderRowKey(pool, id)).Some? ==>
          Row(OrderRowKey(pool, id), LastWritten(ops, OrderRowKey(pool, id)).value) in rows)
    && (forall i, j :: 0 <= i < j < |rows| ==> Older(ops, rows[i].key, rows[j].key))
  }

  /** The rows of a list, characterised: members and order. */
  lemma {:induction false} HistoryRowsTells(pool: Word, ids: seq<nat>, ops: seq<Op>)
    requires AllU64(ids)
    requires ByAge(ids, ops, pool)
    ensures var rows := HistoryRows(pool, ids, ops);
            && (forall r :: r in rows ==>
                  && LastWritten(ops, r.key) == Some(r.value)
                  && exists id: nat :: id in ids && r.key == OrderRowKey(pool, id))
            && (forall id: nat :: id in ids && LastWritten(ops, OrderRowKey(pool, id)).Some? ==>
                  Row(OrderRowKey(pool, id), LastWritten(ops, OrderRowKey(pool, id)).value) in rows)
            && (forall i, j :: 0 <= i < j < |rows| ==> Older(ops, rows[i].key, rows[j].key))
  {
    if ids != [] {
      forall i, j | 0 <= i < j < |ids| - 1
        ensures Older(ops, OrderRowKey(pool, ids[1..][i]), OrderRowKey(pool, ids[1..][j]))
      {
        assert ids[1..][i] == ids[i + 1] && ids[1..][j] == ids[j + 1];
      }
      HistoryRowsTells(pool, ids[1..], ops);
      var rest := HistoryRows(pool, ids[1..], ops);
      forall j | 0 <= j < |rest|
        ensures Older(ops, OrderRowKey(pool, ids[0]), rest[j].key)
      {
        assert rest[j] in rest;
        var id: nat :| id in ids[1..] && rest[j].key == OrderRowKey(pool, id);
        var k :| 0 <= k < |ids| - 1 && ids[1..][k] == id;
        assert ids[k + 1] == id;
      }
    }
  }

  /** What was last written to an order live since some step was written since that step. */
  lemma {:induction false} SuffixDecides(before: seq<Op>, since: seq<Op>, key: seq<byte>)
    requires Born(since, key).Some?
    ensures LastWritten(before + since, key) == LastWritten(since, key)
  {
    var all := before + since;
    assert all[..|all| - 1] == before + since[..|since| - 1];
    if since[|since| - 1].key != key {
      SuffixDecides(before, since[..|since| - 1], key);
    }
  }

  lemma {:induction false} SameHistoryRows(pool: Word, ids: seq<nat>, before: seq<Op>, since: seq<Op>)
    requires forall id: nat :: id in ids ==> Born(since, OrderRowKey(pool, id)).Some?
    ensures HistoryRows(pool, ids, before + since) == HistoryRows(pool, ids, since)
  {
    if ids != [] {
      SuffixDecides(before, since, OrderRowKey(pool, ids[0]));
      SameHistoryRows(pool, ids[1..], before, since);
    }
  }

  /** Over any history a fresh iterator of a market has exactly the rows present since the market's list last
      overflowed before it. */
  lemma IterationIsExact(m: Slots, ops: seq<Op>, pool: Word)
    requires Refines(m, Run(ops))
    ensures ExactRows(RowsOf(m, pool, IndexIn(Run(ops), pool)), Since(ops, pool), pool)
  {
    var ids, since := IndexIn(Run(ops), pool), Since(ops, pool);
    IndexIsLiveOrdersByAge(ops, pool);
    RowsFromHistory(m, ops, pool, ids);
    assert ops == ops[..LastOverflow(ops, pool)] + since;
    SameHistoryRows(pool, ids, ops[..LastOverflow(ops, pool)], since);
    RowsAreExact(HistoryRows(pool, ids, since), ids, since, pool);
  }

  lemma RowsAreExact(rows: seq<Row>, ids: seq<nat>, ops: seq<Op>, pool: Word)
    requires IndexTells(ids, ops, pool) && rows == HistoryRows(pool, ids, ops)
    ensures ExactRows(rows, ops, pool)
  {
    HistoryRowsTells(pool, ids, ops);
    forall r | r in rows
      ensures exists id: nat :: id < U64 && r.key == OrderRowKey(pool, id)
    {
      var id: nat :| id in ids && r.key == OrderRowKey(pool, id);
    }
    forall id: nat | id < U64 && LastWritten(ops, OrderRowKey(pool, id)).Some?
      ensures id in ids
    {
      PresentIsBorn(ops, OrderRowKey(pool, id));
    }
  }

  ghost predicate Shows(rows: seq<Row>, key: seq<byte>) {
    exists r :: r in rows && r.key == key
  }

  /** So iteration shows a present row of a market exactly when the row was put since the list last overflowed. */
  lemma IterationShowsIff(m: Slots, ops: seq<Op>, pool: Word, id: nat)
    requires Refines(m, Run(ops)) && id < U64 && LastWritten(ops, OrderRowKey(pool, id)).Some?
    ensures Shows(RowsOf(m, pool, IndexIn(Run(ops), pool)), OrderRowKey(pool, id))
            <==> Born(Since(ops, pool), OrderRowKey(pool, id)).Some?
  {
    var key, since := OrderRowKey(pool, id), Since(ops, pool);
    var rows := RowsOf(m, pool, IndexIn(Run(ops), pool));
    IterationIsExact(m, ops, pool);
    if Shows(rows, key) {
      PresentIsBorn(since, key);
    }
    if Born(since, key).Some? {
      assert ops == ops[..LastOverflow(ops, pool)] + since;
      SuffixDecides(ops[..LastOverflow(ops, pool)], since, key);
      assert Row(key, LastWritten(since, key).value) in rows;
    }
  }
}
