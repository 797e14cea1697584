/** dexcore's key/value store over the 0x9999 storage trie: multi-slot values, and the packed
    per-market order-id index that stands in for prefix iteration. */
module CoreStore {
  import opened Bytes
  import opened EvmSlots
  import opened Wrappers

  // ----- keys -----

  const ORDER: seq<byte> := Ascii("order:")

  /** order:<poolID:32><orderID:8> */
  function OrderRowKey(pool: Word, id: nat): seq<byte> {
    ORDER + pool + BE(id, 8)
  }

  datatype OrderRow = OrderRow(pool: Word, id: nat)

  function ParseOrderKey(key: seq<byte>): Option<OrderRow> {
    if |key| != |ORDER| + 32 + 8 || key[..|ORDER|] != ORDER then None
    else Some(OrderRow(key[|ORDER|..|ORDER| + 32], FromBE(key[|ORDER| + 32..])))
  }

  function ParseOrderPrefix(prefix: seq<byte>): Option<Word> {
    if |prefix| != |ORDER| + 32 || prefix[..|ORDER|] != ORDER then None
    else Some(prefix[|ORDER|..])
  }

  /** The parser recognises exactly the rebuilt row keys. */
  lemma OrderKeyRoundTrip(key: seq<byte>, pool: Word, id: nat)
    requires id < U64
    ensures ParseOrderKey(key) == Some(OrderRow(pool, id)) <==> key == OrderRowKey(pool, id)
  {
    Pow256Values();
    BERoundTrip(id, 8);
    if key == OrderRowKey(pool, id) {
      assert key[..|ORDER|] == ORDER;
      assert key[|ORDER|..|ORDER| + 32] == pool;
      assert key[|ORDER| + 32..] == BE(id, 8);
    }
    if ParseOrderKey(key) == Some(OrderRow(pool, id)) {
      FromBERoundTrip(key[|ORDER| + 32..]);
      assert key == key[..|ORDER|] + key[|ORDER|..|ORDER| + 32] + key[|ORDER| + 32..];
    }
  }

  /** And exactly the six letters of the prefix followed by a market are iterated as that market's orders. */
  lemma OrderPrefixRoundTrip(prefix: seq<byte>, pool: Word)
    ensures ParseOrderPrefix(prefix) == Some(pool) <==> prefix == Ascii("order:") + pool
    ensures ParseOrderPrefix(prefix).None? <==> |prefix| != 38 || prefix[..6] != Ascii("order:")
  {
    assert |ORDER| == 6;
    if ParseOrderPrefix(prefix) == Some(pool) {
      assert prefix == prefix[..6] + prefix[6..];
    }
    if prefix == ORDER + pool {
      assert prefix[..6] == ORDER && prefix[6..] == pool;
    }
  }

  lemma ParsedOrderIdBound(key: seq<byte>)
    ensures ParseOrderKey(key).Some? ==> ParseOrderKey(key).value.id < U64
  {
    if ParseOrderKey(key).Some? {
      FromBEBound(key[|ORDER| + 32..]);
      Pow256Values();
    }
  }

  // ----- the packed id list -----

  function IdBytes(ids: seq<nat>, k: nat): (b: seq<byte>)
    ensures |b| == 8
  {
    if k < |ids| then BE(ids[k], 8) else Zeros(8)
  }

  /** The first `n` ids of word `i`, eight bytes each; missing ids are zero bytes. */
  function PackedIn(ids: seq<nat>, i: nat, n: nat): (b: seq<byte>)
    ensures |b| == 8 * n
  {
    if n == 0 then [] else PackedIn(ids, i, n - 1) + IdBytes(ids, 4 * i + n - 1)
  }

  /** Four ids to a word. */
  function PackedWord(ids: seq<nat>, i: nat): Word {
    PackedIn(ids, i, 4)
  }

  function PackedId(m: Slots, r: RecordId, i: nat): nat {
    FromBE(Load(m, RecordWord(r, i / 4 + 1))[i % 4 * 8..i % 4 * 8 + 8])
  }

  /** The id list a reader sees in the record `r`. */
  function PackedIds(m: Slots, r: RecordId): (ids: seq<nat>)
    ensures |ids| <= MAX_INT32
  {
    match SlotLen(Load(m, RecordWord(r, 0)))
    case None => []
    case Some(n) => seq(n, i requires 0 <= i < n => PackedId(m, r, i))
  }

  /** What a reader sees of a written list: one id too many and the whole list reads as empty. */
  function Countable(ids: seq<nat>): seq<nat> {
    if |ids| <= MAX_INT32 then ids else []
  }

  function PackedWords(ids: seq<nat>): seq<Word> {
    seq((|ids| + 3) / 4, i requires 0 <= i < (|ids| + 3) / 4 => PackedWord(ids, i))
  }

  ghost predicate AllU64(ids: seq<nat>) {
    forall i :: 0 <= i < |ids| ==> ids[i] < U64
  }

  lemma {:induction false} SliceOfFront(front: seq<byte>, tail: seq<byte>, lo: nat, hi: nat)
    requires lo <= hi <= |front|
    ensures (front + tail)[lo..hi] == front[lo..hi]
  {
  }

  lemma {:induction false} PackedInAt(ids: seq<nat>, i: nat, j: nat, n: nat)
    requires j < n
    ensures PackedIn(ids, i, n)[j * 8..j * 8 + 8] == IdBytes(ids, 4 * i + j)
  {
    var front, tail := PackedIn(ids, i, n - 1), IdBytes(ids, 4 * i + n - 1);
    assert PackedIn(ids, i, n) == front + tail;
    if j < n - 1 {
      PackedInAt(ids, i, j, n - 1);
      SliceOfFront(front, tail, j * 8, j * 8 + 8);
    } else {
      assert (front + tail)[|front|..|front| + 8] == tail;
    }
  }

  lemma {:induction false} PaddingIsZero(ids: seq<nat>, i: nat, j: nat, n: nat)
    requires j <= n && (j == n || 4 * i + j >= |ids|)
    ensures PackedIn(ids, i, n) == PackedIn(ids, i, j) + Zeros(8 * (n - j))
  {
    if j < n {
      var front, zeros := PackedIn(ids, i, j), Zeros(8 * (n - 1 - j));
      PaddingIsZero(ids, i, j, n - 1);
      assert IdBytes(ids, 4 * i + n - 1) == Zeros(8);
      assert zeros + Zeros(8) == Zeros(8 * (n - j));
      assert front + zeros + Zeros(8) == front + (zeros + Zeros(8));
    }
  }

  /** A word with its first `j` ids written and zeros behind them. */
  function Filled(ids: seq<nat>, i: nat, j: nat): Word
    requires j <= 4
  {
    PackedIn(ids, i, j) + Zeros(32 - 8 * j)
  }

  /** Writing the next id over the zeros behind the first `j`. */
  lemma OneMoreId(ids: seq<nat>, i: nat, j: nat)
    requires j < 4 && i * 4 + j < |ids|
    ensures var w := Filled(ids, i, j);
            w[..j * 8] + BE(ids[i * 4 + j], 8) + w[j * 8 + 8..] == Filled(ids, i, j + 1)
  {
    hide BE;
    var w := Filled(ids, i, j);
    assert w[..j * 8] == PackedIn(ids, i, j);
    assert w[j * 8 + 8..] == Zeros(24 - 8 * j);
  }

  lemma FilledEnds(ids: seq<nat>, i: nat, j: nat)
    requires j <= 4 && (j == 4 || 4 * i + j >= |ids|)
    ensures Filled(ids, i, 0) == ZERO_WORD && Filled(ids, i, j) == PackedWord(ids, i)
  {
    hide BE;
    PaddingIsZero(ids, i, j, 4);
  }

  lemma PackedIdIsRead(m: Slots, r: RecordId, ids: seq<nat>, i: nat, j: nat)
    requires AllU64(ids) && Holds(m, r, |ids|, PackedWords(ids)) && j < 4 && 4 * i + j < |ids|
    ensures PackedId(m, r, 4 * i + j) == ids[4 * i + j]
  {
    assert (4 * i + j) / 4 == i && (4 * i + j) % 4 == j;
    assert Load(m, RecordWord(r, i + 1)) == PackedWords(ids)[i] == PackedWord(ids, i);
    PackedInAt(ids, i, j, 4);
    Pow256Values();
    BERoundTrip(ids[4 * i + j], 8);
  }

  lemma PackedIsRead(m: Slots, r: RecordId, ids: seq<nat>)
    requires |ids| < U64 && AllU64(ids) && Holds(m, r, |ids|, PackedWords(ids))
    ensures PackedIds(m, r) == Countable(ids)
  {
    U64WordRoundTrip(|ids|);
    if 1 <= |ids| <= MAX_INT32 {
      forall k: nat | k < |ids|
        ensures PackedId(m, r, k) == ids[k]
      {
        PackedIdIsRead(m, r, ids, k / 4, k % 4);
      }
      assert PackedIds(m, r) == ids;
    }
  }

  lemma PackedIdsBound(m: Slots, r: RecordId)
    ensures AllU64(PackedIds(m, r))
  {
    Pow256Values();
    forall i | 0 <= i < |PackedIds(m, r)|
      ensures PackedIds(m, r)[i] < U64
    {
      FromBEBound(Load(m, RecordWord(r, i / 4 + 1))[i % 4 * 8..i % 4 * 8 + 8]);
    }
  }

  lemma PackedFrame(m: Slots, m': Slots, r: RecordId)
    requires forall w: nat :: Load(m', RecordWord(r, w)) == Load(m, RecordWord(r, w))
    ensures PackedIds(m', r) == PackedIds(m, r)
  {
    assert Load(m', RecordWord(r, 0)) == Load(m, RecordWord(r, 0));
    forall i: nat
      ensures PackedId(m', r, i) == PackedId(m, r, i)
    {
      assert Load(m', RecordWord(r, i / 4 + 1)) == Load(m, RecordWord(r, i / 4 + 1));
    }
    assert PackedIds(m', r) == PackedIds(m, r);
  }

  /** The list with every occurrence of `id` dropped, order kept. */
  function Without(ids: seq<nat>, id: nat): (r: seq<nat>)
    ensures |r| <= |ids|
  {
    if ids == [] then []
    else if ids[|ids| - 1] == id then Without(ids[..|ids| - 1], id)
    else Without(ids[..|ids| - 1], id) + [ids[|ids| - 1]]
  }

  lemma {:induction false} WithoutMembers(ids: seq<nat>, id: nat)
    ensures forall x :: x in Without(ids, id) <==> x in ids && x != id
  {
    if ids != [] {
      WithoutMembers(ids[..|ids| - 1], id);
      assert ids == ids[..|ids| - 1] + [ids[|ids| - 1]];
    }
  }

  lemma {:induction false} WithoutU64(ids: seq<nat>, id: nat)
    requires AllU64(ids)
    ensures AllU64(Without(ids, id))
  {
    if ids != [] {
      WithoutU64(ids[..|ids| - 1], id);
    }
  }

  lemma {:induction false} WithoutAbsent(ids: seq<nat>, id: nat)
    requires id !in ids
    ensures Without(ids, id) == ids
  {
    if ids != [] {
      WithoutAbsent(ids[..|ids| - 1], id);
      assert ids == ids[..|ids| - 1] + [ids[|ids| - 1]];
    }
  }

  // ----- the abstract store: a byte-string map and one id list per market -----

  datatype View = View(values: map<seq<byte>, seq<byte>>, index: map<Word, seq<nat>>)

  function ValueIn(v: View, key: seq<byte>): Option<seq<byte>> {
    if key in v.values then Some(v.values[key]) else None
  }

  function IndexIn(v: View, pool: Word): seq<nat> {
    if pool in v.index then v.index[pool] else []
  }

  function Inserted(ids: seq<nat>, id: nat): seq<nat> {
    if id in ids then ids else Countable(ids + [id])
  }

  function PutView(v: View, key: seq<byte>, value: seq<byte>): View {
    View(
      if Visible(value).Some? then v.values[key := value] else v.values - {key},
      match ParseOrderKey(key)
      case None => v.index
      case Some(row) => v.index[row.pool := Inserted(IndexIn(v, row.pool), row.id)])
  }

  function DeleteView(v: View, key: seq<byte>): View {
    View(
      v.values - {key},
      match ParseOrderKey(key)
      case None => v.index
      case Some(row) => v.index[row.pool := Without(IndexIn(v, row.pool), row.id)])
  }

  /** The rows of one market a reader can iterate, in index order. */
  datatype Row = Row(key: seq<byte>, value: seq<byte>)

  function RowsOf(m: Slots, pool: Word, ids: seq<nat>): seq<Row> {
    if ids == [] then []
    else
      var key := OrderRowKey(pool, ids[0]);
      var rest := RowsOf(m, pool, ids[1..]);
      match Stored(m, CoreValue(key))
      case None => rest
      case Some(v) => [Row(key, v)] + rest
  }

  /** The storage holds exactly the abstract store. */
  ghost predicate Refines(m: Slots, v: View) {
    && (forall k: seq<byte> :: Stored(m, CoreValue(k)) == ValueIn(v, k))
    && (forall p: Word :: PackedIds(m, CoreIndex(p)) == IndexIn(v, p))
  }

  /** Rewriting one value record moves the abstract store at that key only. */
  lemma ValueRecordChanged(m: Slots, m': Slots, v: View, key: seq<byte>, now: Option<seq<byte>>)
    requires Refines(m, v) && OnlyRecord(m, m', CoreValue(key))
    requires Stored(m', CoreValue(key)) == now
    ensures Refines(m', View(if now.Some? then v.values[key := now.value] else v.values - {key}, v.index))
  {
    var v' := View(if now.Some? then v.values[key := now.value] else v.values - {key}, v.index);
    forall k: seq<byte>
      ensures Stored(m', CoreValue(k)) == ValueIn(v', k)
    {
      if k != key {
        OtherRecordUnchanged(m, m', CoreValue(key), CoreValue(k));
      }
    }
    forall p: Word
      ensures PackedIds(m', CoreIndex(p)) == IndexIn(v', p)
    {
      PackedFrame(m, m', CoreIndex(p));
    }
  }

  /** Rewriting one market's list moves the abstract store at that market only. */
  lemma IndexRecordChanged(m: Slots, m': Slots, v: View, pool: Word, ids: seq<nat>)
    requires Refines(m, v) && OnlyRecord(m, m', CoreIndex(pool))
    requires PackedIds(m', CoreIndex(pool)) == ids
    ensures Refines(m', v.(index := v.index[pool := ids]))
  {
    var v' := v.(index := v.index[pool := ids]);
    forall k: seq<byte>
      ensures Stored(m', CoreValue(k)) == ValueIn(v', k)
    {
      OtherRecordUnchanged(m, m', CoreIndex(pool), CoreValue(k));
    }
    forall p: Word
      ensures PackedIds(m', CoreIndex(p)) == IndexIn(v', p)
    {
      if p != pool {
        PackedFrame(m, m', CoreIndex(p));
      }
    }
  }

  lemma SameListIsNoChange(m: Slots, v: View, pool: Word)
    requires Refines(m, v)
    ensures Refines(m, v.(index := v.index[pool := IndexIn(v, pool)]))
  {
    var v' := v.(index := v.index[pool := IndexIn(v, pool)]);
    assert forall p: Word :: IndexIn(v', p) == IndexIn(v, p);
    assert forall k: seq<byte> :: ValueIn(v', k) == ValueIn(v, k);
  }

  class EvmStore {
    const sdb: Storage
    ghost var view: View

    ghost predicate Valid()
      reads this, sdb
    {
      Refines(sdb.slots, view)
    }

    constructor (s: Storage)
      requires s.slots == map[]
      ensures sdb == s && Valid() && view == View(map[], map[])
    {
      sdb, view := s, View(map[], map[]);
      LowU64Zero();
    }

    method Get(key: seq<byte>) returns (r: Option<seq<byte>>)
      requires Valid()
      ensures r == ValueIn(view, key)
    {
      r := sdb.ReadBytes(CoreValue(key));
      assert Stored(sdb.slots, CoreValue(key)) == ValueIn(view, key);
    }

    /** Has looks at the raw length word, so it disagrees with Get on over-long values. */
    method Has(key: seq<byte>) returns (r: bool)
      requires Valid()
      ensures r == (LowU64(sdb.GetState(RecordWord(CoreValue(key), 0))) != 0)
      ensures ValueIn(view, key).Some? ==> r
    {
      var lenWord := sdb.GetState(RecordWord(CoreValue(key), 0));
      r := LowU64(lenWord) != 0;
      assert Stored(sdb.slots, CoreValue(key)) == ValueIn(view, key);
    }

    method Put(key: seq<byte>, value: seq<byte>)
      requires Valid() && |value| < U64 / 2
      modifies this, sdb
      ensures Valid() && view == PutView(old(view), key, value)
      ensures sdb.GetState(RecordWord(CoreValue(key), 0)) == U64Word(|value|)
    {
      sdb.WriteBytes(CoreValue(key), value);
      SpelledIsStored(sdb.slots, CoreValue(key), value);
      ValueRecordChanged(old(sdb.slots), sdb.slots, view, key, Visible(value));
      view := view.(values := if Visible(value).Some? then view.values[key := value] else view.values - {key});
      var row := ParseOrderKey(key);
      if row.Some? {
        ParsedOrderIdBound(key);
        IndexAdd(row.value.pool, row.value.id);
      }
    }

    method Delete(key: seq<byte>)
      requires Valid()
      modifies this, sdb
      ensures Valid() && view == DeleteView(old(view), key)
    {
      sdb.SetState(RecordWord(CoreValue(key), 0), ZERO_WORD);
      LowU64Zero();
      ValueRecordChanged(old(sdb.slots), sdb.slots, view, key, None);
      view := view.(values := view.values - {key});
      var row := ParseOrderKey(key);
      if row.Some? {
        IndexRemove(row.value.pool, row.value.id);
      }
    }

    method IndexIDs(pool: Word) returns (ids: seq<nat>)
      requires Valid()
      ensures ids == IndexIn(view, pool) && AllU64(ids) && |ids| <= MAX_INT32
    {
      var r := CoreIndex(pool);
      PackedIdsBound(sdb.slots, r);
      assert PackedIds(sdb.slots, r) == IndexIn(view, pool);
      var n := SlotLen(sdb.GetState(RecordWord(r, 0)));
      ids := [];
      if n.None? {
        return;
      }
      for i := 0 to n.value
        invariant |ids| == i
        invariant forall k :: 0 <= k < i ==> ids[k] == PackedId(sdb.slots, r, k)
      {
        var word, off := i / 4 + 1, i % 4 * 8;
        var w := sdb.GetState(RecordWord(r, word));
        var id := BytesToU64(w[off..off + 8]);
        ids := ids + [id];
      }
      assert ids == PackedIds(sdb.slots, r);
    }

    /** Packs the ids of one word, eight bytes each. */
    static method PackWord(ids: seq<nat>, i: nat) returns (w: Word)
      requires i * 4 < |ids|
      ensures w == PackedWord(ids, i)
    {
      hide Filled, PackedWord, BE;
      w := ZERO_WORD;
      var j := 0;
      FilledEnds(ids, i, 4);
      while j < 4 && i * 4 + j < |ids|
        invariant 0 <= j <= 4
        invariant w == Filled(ids, i, j)
      {
        var b := PutU64(ids[i * 4 + j]);
        OneMoreId(ids, i, j);
        w := w[..j * 8] + b + w[j * 8 + 8..];
        j := j + 1;
      }
      FilledEnds(ids, i, j);
    }

    method IndexWrite(pool: Word, ids: seq<nat>)
      requires Valid() && AllU64(ids) && |ids| < U64
      modifies this, sdb
      ensures Valid() && view == old(view).(index := old(view).index[pool := Countable(ids)])
      ensures OnlyRecord(old(sdb.slots), sdb.slots, CoreIndex(pool))
    {
      hide Holds, OnlyRecord;
      var r := CoreIndex(pool);
      LengthWritten(sdb.slots, r, |ids|);
      sdb.SetState(RecordWord(r, 0), U64Word(|ids|));
      var i := 0;
      while i * 4 < |ids|
        invariant 0 <= i <= (|ids| + 3) / 4 && view == old(view)
        invariant Holds(sdb.slots, r, |ids|, PackedWords(ids)[..i])
        invariant OnlyRecord(old(sdb.slots), sdb.slots, r)
      {
        var w := PackWord(ids, i);
        WordWritten(old(sdb.slots), sdb.slots, r, |ids|, PackedWords(ids)[..i], w);
        assert PackedWords(ids)[..i + 1] == PackedWords(ids)[..i] + [w];
        sdb.SetState(RecordWord(r, i + 1), w);
        i := i + 1;
      }
      assert PackedWords(ids)[..i] == PackedWords(ids);
      PackedIsRead(sdb.slots, r, ids);
      IndexRecordChanged(old(sdb.slots), sdb.slots, view, pool, Countable(ids));
      view := view.(index := view.index[pool := Countable(ids)]);
    }

    method IndexAdd(pool: Word, id: nat)
      requires Valid() && id < U64
      modifies this, sdb
      ensures Valid()
      ensures view == old(view).(index := old(view).index[pool := Inserted(IndexIn(old(view), pool), id)])
      ensures OnlyRecord(old(sdb.slots), sdb.slots, CoreIndex(pool))
    {
      var ids := IndexIDs(pool);
      var present := Lists(ids, id);
      if present {
        SameListIsNoChange(sdb.slots, view, pool);
        view := view.(index := view.index[pool := ids]);
        return;
      }
      IndexWrite(pool, ids + [id]);
    }

    static method Lists(ids: seq<nat>, id: nat) returns (present: bool)
      ensures present <==> id in ids
    {
      for i := 0 to |ids|
        invariant forall j :: 0 <= j < i ==> ids[j] != id
      {
        if ids[i] == id { return true; }
      }
      present := false;
    }

    static method Compact(ids: seq<nat>, id: nat) returns (out: seq<nat>, found: bool)
      ensures out == Without(ids, id)
      ensures found <==> id in ids
    {
      out, found := [], false;
      for i := 0 to |ids|
        invariant out == Without(ids[..i], id)
        invariant found <==> id in ids[..i]
      {
        assert ids[..i + 1] == ids[..i] + [ids[i]];
        if ids[i] == id {
          found := true;
        } else {
          out := out + [ids[i]];
        }
      }
      assert ids[..|ids|] == ids;
    }

    method IndexRemove(pool: Word, id: nat)
      requires Valid()
      modifies this, sdb
      ensures Valid()
      ensures view == old(view).(index := old(view).index[pool := Without(IndexIn(old(view), pool), id)])
    {
      var ids := IndexIDs(pool);
      var out, found := Compact(ids, id);
      if !found {
        WithoutAbsent(ids, id);
        SameListIsNoChange(sdb.slots, view, pool);
        view := view.(index := view.index[pool := ids]);
        return;
      }
      WithoutU64(ids, id);
      IndexWrite(pool, out);
    }

    /** Only order:<poolID> iterates; any other prefix yields no rows. */
    method NewIteratorWithPrefix(prefix: seq<byte>) returns (it: OrderIterator)
      requires Valid()
      ensures fresh(it) && it.store == this
      ensures it.Remaining() == match ParseOrderPrefix(prefix)
                                case None => []
                                case Some(pool) => RowsOf(sdb.slots, pool, IndexIn(view, pool))
    {
      var pool := ParseOrderPrefix(prefix);
      if pool.None? {
        it := new OrderIterator(this, ZERO_WORD, []);
      } else {
        var ids := IndexIDs(pool.value);
        it := new OrderIterator(this, pool.value, ids);
      }
    }
  }

  class OrderIterator {
    const store: EvmStore
    const pool: Word
    const ids: seq<nat>
    var pos: int
    var curKey: seq<byte>
    var curVal: seq<byte>

    constructor (s: EvmStore, p: Word, list: seq<nat>)
      ensures store == s && pool == p && ids == list && pos == -1
      ensures Remaining() == RowsOf(s.sdb.slots, p, list)
    {
      store, pool, ids, pos, curKey, curVal := s, p, list, -1, [], [];
    }

    /** The rows still to come, read lazily from the store as it is now. */
    ghost function Remaining(): seq<Row>
      reads this, store.sdb
    {
      if -1 <= pos < |ids| - 1 then RowsOf(store.sdb.slots, pool, ids[pos + 1..]) else []
    }

    method Next() returns (more: bool)
      requires pos >= -1 && store.Valid()
      modifies this
      ensures pos > old(pos) && (more ==> pos < |ids|)
      ensures more == (old(Remaining()) != [])
      ensures more ==> old(Remaining()) == [Row(curKey, curVal)] + Remaining()
      ensures !more ==> Remaining() == [] && curKey == [] && curVal == []
      decreases |ids| - pos
    {
      ghost var ahead := Remaining();
      pos := pos + 1;
      if pos >= |ids| {
        curKey, curVal := [], [];
        return false;
      }
      assert ahead == RowsOf(store.sdb.slots, pool, ids[pos..]);
      assert ids[pos..][0] == ids[pos] && ids[pos..][1..] == ids[pos + 1..];
      curKey := OrderRowKey(pool, ids[pos]);
      var v := store.Get(curKey);
      assert Stored(store.sdb.slots, CoreValue(curKey)) == ValueIn(store.view, curKey);
      if v.None? {
        assert ahead == RowsOf(store.sdb.slots, pool, ids[pos + 1..]);
        assert ahead == Remaining();
        more := Next();
        return;
      }
      curVal := v.value;
      more := true;
      assert ahead == [Row(curKey, curVal)] + RowsOf(store.sdb.slots, pool, ids[pos + 1..]);
      assert Remaining() == RowsOf(store.sdb.slots, pool, ids[pos + 1..]);
    }
  }
}
