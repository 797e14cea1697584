/** The on-chain chain registry: a dense table of three-word rows in EVM storage, read by linear
    scan, and what its row operations mean on the sequence of chains it holds. */
module Registry {
  import opened Bytes
  import opened Wrappers

  type ChainId = x: nat | x < U32

  datatype Chain = Chain(id: ChainId, name: seq<byte>, evm: bool, gatewayAt: Address)

  // ----- storage keys -----

  /** Keys at the gateway's account (rows) and at the registrar's (governance, nonce). */
  datatype Slot = RegistrySlot(offset: nat) | GovSlot(offset: nat) | NonceSlot

  const REGISTRY_BASE: seq<byte> := Zeros(5) + Ascii("lux.bridge.registry")
  const GOV_BASE: seq<byte> := Zeros(10) + Ascii("lux.bridge.gov")
  const NONCE_BASE: seq<byte> := Zeros(8) + Ascii("lux.bridge.nonce")

  /** The account tag and the 32-byte key a slot stands for. */
  function KeyOf(k: Slot): (bool, Word) {
    match k
    case RegistrySlot(o) => (true, REGISTRY_BASE + BE(o, 8))
    case GovSlot(o) => (false, GOV_BASE + BE(o, 8))
    case NonceSlot => (false, NONCE_BASE + Zeros(8))
  }

  predicate Fits(k: Slot) {
    !k.NonceSlot? ==> k.offset < U64
  }

  /** No two slots share an account and key. */
  lemma KeysInjective(k: Slot, l: Slot)
    requires Fits(k) && Fits(l)
    ensures KeyOf(k) == KeyOf(l) <==> k == l
  {
    if KeyOf(k) == KeyOf(l) {
      assert KeyOf(k).1[9] == KeyOf(l).1[9];
      assert GOV_BASE[9] == 0 && NONCE_BASE[9] == 'u' as int;
      if !k.NonceSlot? && !l.NonceSlot? {
        assert KeyOf(k).1[24..] == BE(k.offset, 8) && KeyOf(l).1[24..] == BE(l.offset, 8);
        Pow256Values();
        BEInjective(k.offset, l.offset, 8);
      }
    }
  }

  /** Rows live at the gateway's account, the operators and the nonce at the registrar's; each base is the name of
      its region in ASCII, and the last eight bytes are the offset within it. */
  lemma KeysAre(o: nat)
    ensures |Ascii("lux.bridge.registry")| == 19 && |Ascii("lux.bridge.gov")| == 14 && |Ascii("lux.bridge.nonce")| == 16
    ensures KeyOf(RegistrySlot(o)) == (true, seq(5, i => 0) + Ascii("lux.bridge.registry") + BE(o, 8))
    ensures KeyOf(GovSlot(o)) == (false, seq(10, i => 0) + Ascii("lux.bridge.gov") + BE(o, 8))
    ensures KeyOf(NonceSlot) == (false, seq(8, i => 0) + Ascii("lux.bridge.nonce") + seq(8, i => 0))
  {
    assert forall n: nat :: Zeros(n) == seq(n, i => 0);
  }

  type Slots = map<Slot, Word>

  function Load(m: Slots, k: Slot): Word {
    if k in m then m[k] else ZERO_WORD
  }

  // ----- rows -----

  function TrimRightZero(b: seq<byte>): seq<byte> {
    if |b| > 0 && b[|b| - 1] == 0 then TrimRightZero(b[..|b| - 1]) else b
  }

  function PackHeader(c: Chain): Word {
    BE(c.id, 4) + [if c.evm then 1 else 0] + c.gatewayAt + Zeros(7)
  }

  /** The name's first 32 bytes, right-padded. */
  function PackName(c: Chain): Word {
    if |c.name| > 32 then c.name[..32] else c.name + Zeros(32 - |c.name|)
  }

  function HeaderId(h: Word): ChainId {
    FromBEBound(h[0..4]);
    Pow256Values();
    FromBE(h[0..4])
  }

  function Unpack(h: Word, n: Word): Chain {
    Chain(HeaderId(h), TrimRightZero(n), h[4] == 1, h[5..25])
  }

  /** What a row keeps of a chain: trailing zero bytes of the name are gone. */
  function Kept(c: Chain): Chain {
    c.(name := TrimRightZero(c.name))
  }

  lemma {:induction false} TrimPadding(b: seq<byte>, n: nat)
    ensures TrimRightZero(b + Zeros(n)) == TrimRightZero(b)
  {
    if n == 0 {
      assert b + Zeros(0) == b;
    } else {
      assert (b + Zeros(n))[..|b| + n - 1] == b + Zeros(n - 1);
      TrimPadding(b, n - 1);
    }
  }

  lemma UnpackPacked(c: Chain)
    requires |c.name| <= 32
    ensures Unpack(PackHeader(c), PackName(c)) == Kept(c)
  {
    var h := PackHeader(c);
    assert h[0..4] == BE(c.id, 4) && h[5..25] == c.gatewayAt;
    Pow256Values();
    BERoundTrip(c.id, 4);
    TrimPadding(c.name, 32 - |c.name|);
    assert |c.name| == 32 ==> c.name + Zeros(0) == c.name;
  }

  /** Trimming shortens exactly the names that end in a zero byte. */
  lemma {:induction false} TrimIsIdentity(b: seq<byte>)
    ensures TrimRightZero(b) == b <==> !(|b| > 0 && b[|b| - 1] == 0)
    ensures |TrimRightZero(b)| <= |b|
  {
    if |b| > 0 && b[|b| - 1] == 0 {
      TrimIsIdentity(b[..|b| - 1]);
    }
  }

  /** A row gives back the chain it was packed from exactly when the name does not end in a zero byte. */
  lemma RowRoundTripIff(c: Chain)
    requires |c.name| <= 32
    ensures Unpack(PackHeader(c), PackName(c)) == c <==> !(|c.name| > 0 && c.name[|c.name| - 1] == 0)
  {
    UnpackPacked(c);
    TrimIsIdentity(c.name);
  }

  /** The header with its gateway bytes overwritten. */
  function Patched(h: Word, gw: Address): Word {
    h[..5] + gw + h[25..]
  }

  lemma UnpackPatched(h: Word, n: Word, gw: Address)
    ensures Unpack(Patched(h, gw), n) == Unpack(h, n).(gatewayAt := gw)
  {
    var p := Patched(h, gw);
    assert p[0..4] == h[0..4] && p[5..25] == gw;
  }

  // ----- the table -----

  /** Word `k` of row `i`; the offset wraps at 64 bits as the source's does. */
  function RowSlot(i: nat, k: nat): Slot {
    RegistrySlot((1 + i * 3 + k) % U64)
  }

  function Count(m: Slots): (n: nat)
    ensures n < U64
  {
    LowU64(Load(m, RegistrySlot(0)))
  }

  function Row(m: Slots, i: nat): Chain {
    Unpack(Load(m, RowSlot(i, 0)), Load(m, RowSlot(i, 1)))
  }

  /** The chains registered, in row order. */
  function Chains(m: Slots): (cs: seq<Chain>)
    ensures |cs| == Count(m)
  {
    seq(Count(m), i requires 0 <= i < Count(m) => Row(m, i))
  }

  /** The first row that holds `id`. */
  function IndexOf(cs: seq<Chain>, id: ChainId): (r: Option<nat>)
    ensures r.Some? ==> r.value < |cs| && cs[r.value].id == id
    ensures r.None? ==> forall j :: 0 <= j < |cs| ==> cs[j].id != id
  {
    if cs == [] then None
    else match IndexOf(cs[..|cs| - 1], id)
      case Some(i) => Some(i)
      case None => if cs[|cs| - 1].id == id then Some(|cs| - 1) else None
  }

  lemma {:induction false} IndexOfFirst(cs: seq<Chain>, id: ChainId, i: nat)
    requires i < |cs| && cs[i].id == id && forall j :: 0 <= j < i ==> cs[j].id != id
    ensures IndexOf(cs, id) == Some(i)
  {
    var front := cs[..|cs| - 1];
    if i < |cs| - 1 {
      IndexOfFirst(front, id, i);
    } else {
      assert forall j :: 0 <= j < |front| ==> front[j].id != id;
    }
  }

  lemma IndexOfNone(cs: seq<Chain>, id: ChainId)
    requires forall j :: 0 <= j < |cs| ==> cs[j].id != id
    ensures IndexOf(cs, id) == None
  {
  }

  // ----- the row operations -----

  function RowWritten(m: Slots, i: nat, c: Chain): Slots {
    m[RowSlot(i, 0) := PackHeader(c)][RowSlot(i, 1) := PackName(c)]
  }

  function CountSet(m: Slots, n: nat): Slots {
    m[RegistrySlot(0) := U64Word(n)]
  }

  function Appended(m: Slots, c: Chain): Slots {
    CountSet(RowWritten(m, Count(m), c), Count(m) + 1)
  }

  function RowMoved(m: Slots, from: nat, to: nat): Slots {
    if from == to then m
    else m[RowSlot(to, 0) := Load(m, RowSlot(from, 0))][RowSlot(to, 1) := Load(m, RowSlot(from, 1))]
  }

  function RowCleared(m: Slots, i: nat): Slots {
    m[RowSlot(i, 0) := ZERO_WORD][RowSlot(i, 1) := ZERO_WORD][RowSlot(i, 2) := ZERO_WORD]
  }

  function Removed(m: Slots, i: nat): Slots
    requires Count(m) > 0
  {
    CountSet(RowCleared(RowMoved(m, Count(m) - 1, i), Count(m) - 1), Count(m) - 1)
  }

  function GatewaySet(m: Slots, i: nat, gw: Address): Slots {
    m[RowSlot(i, 0) := Patched(Load(m, RowSlot(i, 0)), gw)]
  }

  function RowsWritten(m: Slots, cs: seq<Chain>): Slots {
    if cs == [] then m else RowWritten(RowsWritten(m, cs[..|cs| - 1]), |cs| - 1, cs[|cs| - 1])
  }

  function Seeded(m: Slots, cs: seq<Chain>): Slots {
    CountSet(RowsWritten(m, cs), |cs|)
  }

  // ----- what every operation keeps -----

  predicate DistinctIds(cs: seq<Chain>) {
    forall i, j :: 0 <= i < j < |cs| ==> cs[i].id != cs[j].id
  }

  /** Every slot past the last row, and every reserved third word, is zero. */
  ghost predicate TailZero(m: Slots) {
    forall o: nat :: 0 < o < U64 && (o > 3 * Count(m) || o % 3 == 0) ==> Load(m, RegistrySlot(o)) == ZERO_WORD
  }

  /** How many rows hold an id some other row already holds. */
  function Repeats(cs: seq<Chain>): int {
    |cs| - |IdSet(cs)|
  }

  /** A dense table: nothing past its rows, and no more repeated ids than there are ids. */
  ghost predicate Dense(m: Slots) {
    TailZero(m) && Repeats(Chains(m)) <= U32
  }

  /** A sound table: dense, and no id twice. */
  ghost predicate Table(m: Slots) {
    TailZero(m) && DistinctIds(Chains(m))
  }

  const MAX_ROWS: nat := 2 * U32

  lemma {:induction false} ManyIdsRepeat(ids: set<nat>, n: nat)
    requires forall x :: x in ids ==> x < n
    ensures |ids| <= n
  {
    if n == 0 {
      assert ids == {};
    } else {
      assert ids <= ids - {n - 1} + {n - 1};
      ManyIdsRepeat(ids - {n - 1}, n - 1);
    }
  }

  function IdSet(cs: seq<Chain>): set<nat> {
    set i | 0 <= i < |cs| :: cs[i].id as nat
  }

  lemma {:induction false} DistinctCount(cs: seq<Chain>)
    requires DistinctIds(cs)
    ensures |IdSet(cs)| == |cs|
  {
    if cs == [] {
      assert IdSet(cs) == {};
    } else {
      var front := cs[..|cs| - 1];
      DistinctCount(front);
      assert IdSet(cs) == IdSet(front) + {cs[|cs| - 1].id as nat};
    }
  }

  lemma {:induction false} IdSetSmall(cs: seq<Chain>)
    ensures |IdSet(cs)| <= U32
    ensures forall id: ChainId :: id !in IdSet(cs) ==> |IdSet(cs)| < U32
  {
    ManyIdsRepeat(IdSet(cs), U32);
    forall id: ChainId | id !in IdSet(cs)
      ensures |IdSet(cs)| < U32
    {
      ManyIdsRepeat(IdSet(cs) + {id as nat}, U32);
    }
  }

  lemma {:induction false} RepeatsNonNegative(cs: seq<Chain>)
    ensures Repeats(cs) >= 0
    ensures Repeats(cs) == 0 ==> DistinctIds(cs)
  {
    if cs == [] {
      assert IdSet(cs) == {};
    } else {
      var front := cs[..|cs| - 1];
      RepeatsNonNegative(front);
      IdSetAppend(front, cs[|cs| - 1]);
      assert cs == front + [cs[|cs| - 1]];
      LastIsNew(front, cs[|cs| - 1]);
    }
  }

  lemma {:induction false} LastIsNew(cs: seq<Chain>, c: Chain)
    ensures DistinctIds(cs + [c]) <==> DistinctIds(cs) && c.id !in IdSet(cs)
  {
    var all := cs + [c];
    assert all[..|cs|] == cs && all[|cs|] == c;
  }

  /** Ids are pairwise distinct exactly when none repeats. */
  lemma {:induction false} DistinctIffNoRepeats(cs: seq<Chain>)
    ensures DistinctIds(cs) <==> Repeats(cs) == 0
  {
    RepeatsNonNegative(cs);
    if DistinctIds(cs) {
      DistinctCount(cs);
    }
  }

  lemma TableIsDense(m: Slots)
    ensures Table(m) <==> Dense(m) && Repeats(Chains(m)) == 0
  {
    DistinctIffNoRepeats(Chains(m));
  }

  /** Ids are 32-bit, so a dense table never outgrows 2^33 rows, nor one of distinct ids 2^32. */
  lemma DenseIsSmall(m: Slots)
    requires Dense(m)
    ensures Count(m) <= MAX_ROWS && (Table(m) ==> Count(m) <= U32)
  {
    IdSetSmall(Chains(m));
    TableIsDense(m);
  }

  lemma {:induction false} IdSetAppend(cs: seq<Chain>, c: Chain)
    ensures IdSet(cs + [c]) == IdSet(cs) + {c.id as nat}
  {
    var all := cs + [c];
    forall x | x in IdSet(cs)
      ensures x in IdSet(all)
    {
      var i :| 0 <= i < |cs| && cs[i].id == x;
      assert all[i].id == x;
    }
    assert all[|cs|].id == c.id;
  }

  lemma {:induction false} AppendRepeatsNothing(cs: seq<Chain>, c: Chain)
    requires forall j :: 0 <= j < |cs| ==> cs[j].id != c.id
    ensures Repeats(cs + [c]) == Repeats(cs) && |IdSet(cs)| < U32
  {
    IdSetAppend(cs, c);
    assert c.id !in IdSet(cs);
    IdSetSmall(cs);
  }

  lemma {:induction false} SwapRemoveRepeatsNothing(cs: seq<Chain>, i: nat)
    requires i < |cs|
    ensures Repeats(SwapRemove(cs, i)) <= Repeats(cs)
  {
    var r, gone := SwapRemove(cs, i), cs[i].id as nat;
    forall x | x in IdSet(cs) && x != gone
      ensures x in IdSet(r)
    {
      var j :| 0 <= j < |cs| && cs[j].id == x;
      assert r[if j == |cs| - 1 then i else j].id == x;
    }
    assert IdSet(cs) <= IdSet(r) + {gone};
    SubsetSize(IdSet(cs), IdSet(r) + {gone});
  }

  lemma {:induction false} SubsetSize<T>(a: set<T>, b: set<T>)
    requires a <= b
    ensures |a| <= |b|
  {
    if a != {} {
      var x :| x in a;
      SubsetSize(a - {x}, b - {x});
    }
  }

  lemma {:induction false} SameIdsSameRepeats(cs: seq<Chain>, ds: seq<Chain>)
    requires |cs| == |ds| && forall i :: 0 <= i < |cs| ==> cs[i].id == ds[i].id
    ensures Repeats(cs) == Repeats(ds)
  {
    assert IdSet(cs) == IdSet(ds);
  }

  /** Rows of a table lie at distinct offsets that do not wrap. */
  lemma RowOffset(i: nat, k: nat)
    requires i <= MAX_ROWS && k < 3
    ensures RowSlot(i, k) == RegistrySlot(1 + i * 3 + k)
  {
  }

  lemma CountAfter(m: Slots, n: nat)
    requires n < U64
    ensures Count(CountSet(m, n)) == n
  {
    U64WordRoundTrip(n);
  }

  lemma RowUnchanged(m: Slots, m': Slots, i: nat)
    requires Load(m', RowSlot(i, 0)) == Load(m, RowSlot(i, 0)) && Load(m', RowSlot(i, 1)) == Load(m, RowSlot(i, 1))
    ensures Row(m', i) == Row(m, i)
  {
  }

  lemma AppendedRow(m: Slots, c: Chain, i: nat)
    requires i <= Count(m) < MAX_ROWS && |c.name| <= 32
    ensures Row(Appended(m, c), i) == if i < Count(m) then Row(m, i) else Kept(c)
  {
    hide RowSlot;
    RowOffset(i, 0);
    RowOffset(i, 1);
    RowOffset(Count(m), 0);
    RowOffset(Count(m), 1);
    if i < Count(m) {
      RowUnchanged(m, Appended(m, c), i);
    } else {
      UnpackPacked(c);
    }
  }

  /** Register: the rows are the old ones and the new chain at the end. */
  lemma {:induction false} AppendedRows(m: Slots, c: Chain)
    requires Count(m) < MAX_ROWS && |c.name| <= 32
    ensures Chains(Appended(m, c)) == Chains(m) + [Kept(c)]
  {
    hide Row, Kept, RowWritten;
    var cs := Chains(m) + [Kept(c)];
    CountAfter(RowWritten(m, Count(m), c), Count(m) + 1);
    forall i: nat | i < |cs|
      ensures Row(Appended(m, c), i) == cs[i]
    {
      AppendedRow(m, c, i);
    }
    RowsAre(Appended(m, c), cs);
  }

  lemma AppendKeepsTail(m: Slots, c: Chain)
    requires Count(m) < MAX_ROWS && TailZero(m)
    ensures TailZero(Appended(m, c))
  {
    hide RowSlot;
    var n, m' := Count(m), Appended(m, c);
    CountAfter(RowWritten(m, n, c), n + 1);
    RowOffset(n, 0);
    RowOffset(n, 1);
  }

  lemma AppendKeepsTable(m: Slots, c: Chain)
    requires Dense(m) && |c.name| <= 32 && IndexOf(Chains(m), c.id).None?
    ensures Chains(Appended(m, c)) == Chains(m) + [Kept(c)]
    ensures Dense(Appended(m, c)) && Repeats(Chains(Appended(m, c))) == Repeats(Chains(m))
    ensures Table(m) ==> Table(Appended(m, c))
  {
    var cs := Chains(m) + [Kept(c)];
    DenseIsSmall(m);
    AppendRepeatsNothing(Chains(m), Kept(c));
    AppendedRows(m, c);
    AppendKeepsTail(m, c);
    TableIsDense(m);
    TableIsDense(Appended(m, c));
  }

  /** Row `i` replaced by the last one, and the last one dropped. */
  function SwapRemove(cs: seq<Chain>, i: nat): seq<Chain>
    requires i < |cs|
  {
    cs[i := cs[|cs| - 1]][..|cs| - 1]
  }

  lemma RemovedRow(m: Slots, i: nat, j: nat)
    requires Count(m) <= MAX_ROWS && i < Count(m) && j < Count(m) - 1
    ensures Row(Removed(m, i), j) == Row(m, if j == i then Count(m) - 1 else j)
  {
    hide RowSlot;
    var last := Count(m) - 1;
    RowOffset(j, 0);
    RowOffset(j, 1);
    RowOffset(i, 0);
    RowOffset(i, 1);
    RowOffset(last, 0);
    RowOffset(last, 1);
    RowOffset(last, 2);
    if j != i {
      RowUnchanged(m, Removed(m, i), j);
    }
  }

  lemma RemovedCount(m: Slots, i: nat)
    requires Count(m) > 0
    ensures Count(Removed(m, i)) == Count(m) - 1
  {
    CountAfter(RowCleared(RowMoved(m, Count(m) - 1, i), Count(m) - 1), Count(m) - 1);
  }

  /** Rows given one by one are the chains. */
  lemma RowsAre(m: Slots, cs: seq<Chain>)
    requires |cs| == Count(m) && forall j: nat :: j < |cs| ==> Row(m, j) == cs[j]
    ensures Chains(m) == cs
  {
  }

  lemma SwapRemoveAt(cs: seq<Chain>, i: nat, j: nat)
    requires i < |cs| && j < |cs| - 1
    ensures |SwapRemove(cs, i)| == |cs| - 1
    ensures SwapRemove(cs, i)[j] == cs[if j == i then |cs| - 1 else j]
  {
  }

  lemma RemovedRows(m: Slots, i: nat)
    requires Count(m) <= MAX_ROWS && i < Count(m)
    ensures Chains(Removed(m, i)) == SwapRemove(Chains(m), i)
  {
    var m', cs := Removed(m, i), SwapRemove(Chains(m), i);
    RemovedCount(m, i);
    forall j: nat | j < |cs|
      ensures Row(m', j) == cs[j]
    {
      RemovedRow(m, i, j);
      SwapRemoveAt(Chains(m), i, j);
    }
    RowsAre(m', cs);
  }

  lemma RemoveKeepsTail(m: Slots, i: nat)
    requires Count(m) <= MAX_ROWS && i < Count(m) && TailZero(m)
    ensures TailZero(Removed(m, i))
  {
    hide RowSlot;
    var last, m' := Count(m) - 1, Removed(m, i);
    CountAfter(RowCleared(RowMoved(m, last, i), last), last);
    RowOffset(i, 0);
    RowOffset(i, 1);
    RowOffset(last, 0);
    RowOffset(last, 1);
    RowOffset(last, 2);
  }

  lemma RemoveKeepsTable(m: Slots, i: nat)
    requires Dense(m) && i < Count(m)
    ensures Chains(Removed(m, i)) == SwapRemove(Chains(m), i)
    ensures Dense(Removed(m, i)) && Repeats(Chains(Removed(m, i))) <= Repeats(Chains(m))
    ensures Table(m) ==> Table(Removed(m, i))
  {
    DenseIsSmall(m);
    RemovedRows(m, i);
    RemoveKeepsTail(m, i);
    SwapRemoveRepeatsNothing(Chains(m), i);
    RepeatsNonNegative(Chains(Removed(m, i)));
    TableIsDense(m);
    TableIsDense(Removed(m, i));
  }

  lemma GatewaySetRows(m: Slots, i: nat, gw: Address)
    requires Count(m) <= MAX_ROWS && i < Count(m)
    ensures Chains(GatewaySet(m, i, gw)) == Chains(m)[i := Chains(m)[i].(gatewayAt := gw)]
  {
    var m' := GatewaySet(m, i, gw);
    RowOffset(i, 0);
    RowOffset(i, 1);
    UnpackPatched(Load(m, RowSlot(i, 0)), Load(m, RowSlot(i, 1)), gw);
    forall j: nat | j < Count(m) && j != i
      ensures Chains(m')[j] == Chains(m)[j]
    {
      RowOffset(j, 0);
      RowOffset(j, 1);
      RowUnchanged(m, m', j);
    }
  }

  lemma GatewaySetKeepsTail(m: Slots, i: nat, gw: Address)
    requires Count(m) <= MAX_ROWS && i < Count(m) && TailZero(m)
    ensures TailZero(GatewaySet(m, i, gw))
  {
    hide RowSlot;
    RowOffset(i, 0);
  }

  lemma GatewaySetKeepsTable(m: Slots, i: nat, gw: Address)
    requires Dense(m) && i < Count(m)
    ensures Chains(GatewaySet(m, i, gw)) == Chains(m)[i := Chains(m)[i].(gatewayAt := gw)]
    ensures Dense(GatewaySet(m, i, gw)) && Repeats(Chains(GatewaySet(m, i, gw))) == Repeats(Chains(m))
    ensures Table(m) ==> Table(GatewaySet(m, i, gw))
  {
    DenseIsSmall(m);
    GatewaySetRows(m, i, gw);
    GatewaySetKeepsTail(m, i, gw);
    SameIdsSameRepeats(Chains(m), Chains(GatewaySet(m, i, gw)));
    TableIsDense(m);
    TableIsDense(GatewaySet(m, i, gw));
  }

  // ----- seeding -----

  function AllKept(cs: seq<Chain>): (ks: seq<Chain>)
    ensures |ks| == |cs|
  {
    seq(|cs|, i requires 0 <= i < |cs| => Kept(cs[i]))
  }

  predicate NamesFit(cs: seq<Chain>) {
    forall i :: 0 <= i < |cs| ==> |cs[i].name| <= 32
  }

  lemma {:induction false} RowsWrittenRow(m: Slots, cs: seq<Chain>, i: nat)
    requires |cs| <= U32 && i < |cs| && |cs[i].name| <= 32
    ensures Row(RowsWritten(m, cs), i) == Kept(cs[i])
  {
    hide RowSlot, PackHeader, PackName, Unpack, Kept, BE;
    var last := |cs| - 1;
    var front := RowsWritten(m, cs[..last]);
    RowOffset(i, 0);
    RowOffset(i, 1);
    RowOffset(last, 0);
    RowOffset(last, 1);
    if i == last {
      UnpackPacked(cs[i]);
    } else {
      RowsWrittenRow(m, cs[..last], i);
      RowUnchanged(front, RowsWritten(m, cs), i);
    }
  }

  lemma {:induction false} RowsWrittenFrame(m: Slots, cs: seq<Chain>, k: Slot)
    requires |cs| <= U32
    requires k.RegistrySlot? ==> k.offset == 0 || k.offset > 3 * |cs| || k.offset % 3 == 0
    ensures Load(RowsWritten(m, cs), k) == Load(m, k)
  {
    hide RowSlot;
    if cs != [] {
      RowOffset(|cs| - 1, 0);
      RowOffset(|cs| - 1, 1);
      RowsWrittenFrame(m, cs[..|cs| - 1], k);
    }
  }

  /** Seeding an empty table writes the given chains, and leaves a sound table exactly when their ids
      are distinct: the seed itself does not look. */
  lemma SeedMakesTableIff(m: Slots, cs: seq<Chain>)
    requires Count(m) == 0 && TailZero(m) && NamesFit(cs) && |cs| <= U32
    ensures Chains(Seeded(m, cs)) == AllKept(cs)
    ensures Dense(Seeded(m, cs)) && Repeats(Chains(Seeded(m, cs))) == Repeats(cs)
    ensures Table(Seeded(m, cs)) <==> DistinctIds(cs)
  {
    var w, m' := RowsWritten(m, cs), Seeded(m, cs);
    CountAfter(w, |cs|);
    forall i: nat | i < |cs|
      ensures Chains(m')[i] == AllKept(cs)[i]
    {
      RowsWrittenRow(m, cs, i);
      RowOffset(i, 0);
      RowOffset(i, 1);
      RowUnchanged(w, m', i);
    }
    assert Chains(m') == AllKept(cs);
    SeedKeepsTail(m, cs);
    SameIdsSameRepeats(AllKept(cs), cs);
    DistinctIffNoRepeats(cs);
    TableIsDense(m');
  }

  lemma SeedKeepsTail(m: Slots, cs: seq<Chain>)
    requires Count(m) == 0 && TailZero(m) && |cs| <= U32
    ensures TailZero(Seeded(m, cs))
  {
    var m' := Seeded(m, cs);
    CountAfter(RowsWritten(m, cs), |cs|);
    forall o: nat | 0 < o < U64 && (o > 3 * Count(m') || o % 3 == 0)
      ensures Load(m', RegistrySlot(o)) == ZERO_WORD
    {
      RowsWrittenFrame(m, cs, RegistrySlot(o));
    }
  }

  // ----- the table as a finite map -----

  /** Chain id to chain. */
  function Directory(cs: seq<Chain>): (d: map<ChainId, Chain>)
    requires DistinctIds(cs)
  {
    map i | 0 <= i < |cs| :: cs[i].id := cs[i]
  }

  lemma DirectoryAt(cs: seq<Chain>, i: nat)
    requires DistinctIds(cs) && i < |cs|
    ensures cs[i].id in Directory(cs) && Directory(cs)[cs[i].id] == cs[i]
  {
  }

  lemma DirectoryRow(cs: seq<Chain>, id: ChainId) returns (i: nat)
    requires DistinctIds(cs) && id in Directory(cs)
    ensures i < |cs| && cs[i].id == id && Directory(cs)[id] == cs[i]
  {
    i :| i < |cs| && cs[i].id == id;
  }

  /** A scan finds an id exactly when the directory has it, and finds the directory's chain. */
  lemma ScanAgreesWithDirectory(cs: seq<Chain>, id: ChainId)
    requires DistinctIds(cs)
    ensures IndexOf(cs, id).Some? <==> id in Directory(cs)
    ensures IndexOf(cs, id).Some? ==> cs[IndexOf(cs, id).value] == Directory(cs)[id]
  {
    var r := IndexOf(cs, id);
    if r.Some? {
      DirectoryAt(cs, r.value);
    } else if id in Directory(cs) {
      var i := DirectoryRow(cs, id);
      assert false;
    }
  }

  /** The directory has as many chains as the table has rows. */
  lemma DirectorySize(cs: seq<Chain>)
    requires DistinctIds(cs)
    ensures |Directory(cs)| == |cs|
  {
    DistinctCount(cs);
    assert Directory(cs).Keys == IdSet(cs);
  }

  /** Two tables, the second holding exactly the first's ids and `c` instead of whatever had its id. */
  lemma SameButFor(cs: seq<Chain>, ds: seq<Chain>, c: Chain)
    requires DistinctIds(cs) && DistinctIds(ds) && c.id in Directory(ds) && Directory(ds)[c.id] == c
    requires forall i :: 0 <= i < |cs| && cs[i].id != c.id ==>
               cs[i].id in Directory(ds) && Directory(ds)[cs[i].id] == cs[i]
    requires forall i :: 0 <= i < |ds| && ds[i].id != c.id ==> ds[i].id in Directory(cs)
    ensures Directory(ds) == Directory(cs)[c.id := c]
  {
    var l, r := Directory(ds), Directory(cs)[c.id := c];
    forall id: ChainId
      ensures (id in l <==> id in r) && (id in l ==> l[id] == r[id])
    {
      if id in l && id != c.id {
        var i := DirectoryRow(ds, id);
        assert ds[i].id in Directory(cs);
      }
      if id in r && id != c.id {
        var i := DirectoryRow(cs, id);
        assert cs[i].id in Directory(ds);
      }
    }
  }

  lemma AppendIsInsert(cs: seq<Chain>, c: Chain)
    requires DistinctIds(cs) && IndexOf(cs, c.id).None?
    ensures DistinctIds(cs + [c]) && c.id !in Directory(cs)
    ensures Directory(cs + [c]) == Directory(cs)[c.id := c]
  {
    hide Directory;
    var ds := cs + [c];
    ScanAgreesWithDirectory(cs, c.id);
    DirectoryAt(ds, |cs|);
    forall i | 0 <= i < |cs|
      ensures cs[i].id in Directory(ds) && Directory(ds)[cs[i].id] == cs[i] && ds[i].id in Directory(cs)
    {
      DirectoryAt(ds, i);
      DirectoryAt(cs, i);
    }
    SameButFor(cs, ds, c);
  }

  lemma UpdateIsUpdate(cs: seq<Chain>, i: nat, gw: Address)
    requires DistinctIds(cs) && i < |cs|
    ensures var c := cs[i].(gatewayAt := gw);
            DistinctIds(cs[i := c]) && Directory(cs[i := c]) == Directory(cs)[cs[i].id := c]
  {
    var c := cs[i].(gatewayAt := gw);
    var ds := cs[i := c];
    DirectoryAt(ds, i);
    forall j | 0 <= j < |cs| && j != i
      ensures cs[j].id in Directory(ds) && Directory(ds)[cs[j].id] == cs[j] && ds[j].id in Directory(cs)
    {
      DirectoryAt(ds, j);
      DirectoryAt(cs, j);
    }
    SameButFor(cs, ds, c);
  }

  lemma SwapRemoveDistinct(cs: seq<Chain>, i: nat)
    requires DistinctIds(cs) && i < |cs|
    ensures DistinctIds(SwapRemove(cs, i))
  {
  }

  lemma DeletedAt(cs: seq<Chain>, i: nat, id: ChainId)
    requires DistinctIds(cs) && i < |cs| && DistinctIds(SwapRemove(cs, i))
    ensures var rs := SwapRemove(cs, i);
            if id in Directory(cs) && id != cs[i].id then id in Directory(rs) && Directory(rs)[id] == Directory(cs)[id]
            else id !in Directory(rs)
  {
    var rs := SwapRemove(cs, i);
    if id in Directory(cs) && id != cs[i].id {
      var j := DirectoryRow(cs, id);
      var k := if j == |cs| - 1 then i else j;
      SwapRemoveAt(cs, i, k);
      DirectoryAt(rs, k);
    } else if id in Directory(rs) {
      var j := DirectoryRow(rs, id);
      SwapRemoveAt(cs, i, j);
    }
  }

  /** Swap-with-last removal deletes one id and nothing else. */
  lemma SwapRemoveIsDelete(cs: seq<Chain>, i: nat)
    requires DistinctIds(cs) && i < |cs|
    ensures DistinctIds(SwapRemove(cs, i))
    ensures Directory(SwapRemove(cs, i)) == Directory(cs) - {cs[i].id}
  {
    SwapRemoveDistinct(cs, i);
    forall id: ChainId
      ensures var l, r := Directory(SwapRemove(cs, i)), Directory(cs) - {cs[i].id};
              (id in l <==> id in r) && (id in l ==> l[id] == r[id])
    {
      DeletedAt(cs, i, id);
    }
  }
}
