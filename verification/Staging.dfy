/** The revert-aware log of cross-chain operations kept in 0x9999 storage, and the flush that
    hands one block's window of it to shared memory. */
module Staging {
  import opened Bytes
  import opened EvmSlots
  import opened Wire
  import opened Wrappers

  datatype StagedOp =
    | StagedPut(chain: Word, key: Word, claim: seq<byte>)
    | StagedRemove(chain: Word, key: Word)

  predicate WellFormed(op: StagedOp) {
    op.StagedPut? ==> |op.claim| == CLAIM_SIZE
  }

  // ----- storage layout -----

  const KIND_PUT: byte := 1
  const KIND_REMOVE: byte := 2
  const STAGED_OP_VERSION: byte := 2

  function KindWord(kind: byte): Word {
    Zeros(31) + [kind]
  }

  /** version(1) | chain(32) | key(32) | claim(60) */
  function PackPut(chain: Word, key: Word, claim: seq<byte>): (b: seq<byte>)
    ensures |b| == 65 + |claim|
  {
    [STAGED_OP_VERSION] + chain + key + claim
  }

  function PackRemove(chain: Word, key: Word): (b: seq<byte>)
    ensures |b| == 65
  {
    [STAGED_OP_VERSION] + chain + key
  }

  function PackedOp(op: StagedOp): seq<byte> {
    match op
    case StagedPut(c, k, v) => PackPut(c, k, v)
    case StagedRemove(c, k) => PackRemove(c, k)
  }

  function KindOf(op: StagedOp): byte {
    if op.StagedPut? then KIND_PUT else KIND_REMOVE
  }

  // ----- what the flush decodes at one position -----

  function DecodePut(rec: seq<byte>): Option<StagedOp> {
    if |rec| != 65 + CLAIM_SIZE || rec[0] != STAGED_OP_VERSION then None
    else Some(StagedPut(rec[1..33], rec[33..65], rec[65..]))
  }

  function DecodeRemove(rec: seq<byte>): Option<StagedOp> {
    if |rec| < 65 || rec[0] != STAGED_OP_VERSION then None
    else Some(StagedRemove(rec[1..33], rec[33..65]))
  }

  function OrEmpty(rec: Option<seq<byte>>): seq<byte> {
    if rec.Some? then rec.value else []
  }

  /** The operation staged at position `s`, or None when the flush calls it malformed. */
  function OpAt(m: Slots, s: nat): (op: Option<StagedOp>)
    ensures op.Some? ==> WellFormed(op.value)
  {
    var kind := Load(m, StageKind(s))[31];
    if kind == KIND_PUT then DecodePut(OrEmpty(Stored(m, StagedPutRecord(s))))
    else if kind == KIND_REMOVE then DecodeRemove(OrEmpty(Stored(m, StagedRemoveRecord(s))))
    else None
  }

  /** A position decodes exactly when its kind is 1 and its put record is 125 bytes, or its kind is 2 and its removal
      has 65, either behind version 2; chain and key follow the version, the claim is the rest. */
  lemma OpReads(m: Slots, s: nat, kind: byte, put: seq<byte>, removal: seq<byte>)
    requires kind == Load(m, StageKind(s))[31]
    requires put == OrEmpty(Stored(m, StagedPutRecord(s))) && removal == OrEmpty(Stored(m, StagedRemoveRecord(s)))
    ensures OpAt(m, s).Some? <==>
            (kind == 1 && |put| == 125 && put[0] == 2) || (kind == 2 && |removal| >= 65 && removal[0] == 2)
    ensures OpAt(m, s).Some? && kind == 1 ==> OpAt(m, s).value == StagedPut(put[1..33], put[33..65], put[65..125])
    ensures OpAt(m, s).Some? && kind == 2 ==> OpAt(m, s).value == StagedRemove(removal[1..33], removal[33..65])
  {
  }

  /** The decodable operations at positions [from, to). */
  function Window(m: Slots, from: nat, to: nat): (ops: seq<StagedOp>)
    ensures |ops| <= if from <= to then to - from else 0
  {
    if to <= from then []
    else
      var op := OpAt(m, to - 1);
      Window(m, from, to - 1) + if op.Some? then [op.value] else []
  }

  predicate AllDecode(m: Slots, from: nat, to: nat) {
    to <= from || (AllDecode(m, from, to - 1) && OpAt(m, to - 1).Some?)
  }

  /** The storage holds exactly the log `log`: its length in the counter, its operations in order. */
  ghost predicate LogIs(m: Slots, log: seq<StagedOp>) {
    && |log| < U64
    && LowU64(Load(m, StageSeq)) == |log|
    && Window(m, 0, |log|) == log
  }

  // ----- staging one operation -----

  predicate IsStaging(k: Slot) {
    k.RecordWord? ==> k.record.StagedPutRecord? || k.record.StagedRemoveRecord?
  }

  /** Whatever else was written, no staging slot was. */
  ghost predicate SameStaging(m: Slots, m': Slots) {
    forall k: Slot :: IsStaging(k) ==> Load(m', k) == Load(m, k)
  }

  function OpRecord(n: nat, op: StagedOp): RecordId {
    if op.StagedPut? then StagedPutRecord(n) else StagedRemoveRecord(n)
  }

  /** The record, its kind and the advanced counter, written in that order at position `n`. */
  ghost predicate StagedAt(m: Slots, record: Slots, m': Slots, n: nat, op: StagedOp) {
    && OnlyRecord(m, record, OpRecord(n, op)) && Stored(record, OpRecord(n, op)) == Some(PackedOp(op))
    && m' == record[StageKind(n) := KindWord(KindOf(op))][StageSeq := U64Word(n + 1)]
  }

  /** One operation staged at the position the counter says. */
  ghost predicate StagesOne(m: Slots, m': Slots, op: StagedOp) {
    exists record: Slots :: StagedAt(m, record, m', LowU64(Load(m, StageSeq)), op)
  }

  // ----- per-chain requests -----

  /** Trait: the claim's beneficiary, the one index the far side looks claims up by. */
  datatype Element = Element(key: Word, value: seq<byte>, destination: Address)

  datatype Requests = Requests(puts: seq<Element>, removes: seq<Word>)

  function RequestsOf(r: map<Word, Requests>, chain: Word): Requests {
    if chain in r then r[chain] else Requests([], [])
  }

  /** The account a claim's bytes name; a value of any other width names no one. */
  function Destination(claim: seq<byte>): Address {
    match DecodeClaim(claim)
    case None => Zeros(20)
    case Some(c) => c.beneficiary
  }

  function ElementOf(op: StagedOp): Element
    requires op.StagedPut?
  {
    Element(op.key, op.claim, Destination(op.claim))
  }

  /** The puts of `ops` for one chain, in log order. */
  function PutsFor(ops: seq<StagedOp>, chain: Word): seq<Element>
  {
    if ops == [] then []
    else
      var front, op := ops[..|ops| - 1], ops[|ops| - 1];
      if op.StagedPut? && op.chain == chain then PutsFor(front, chain) + [ElementOf(op)] else PutsFor(front, chain)
  }

  function RemovesFor(ops: seq<StagedOp>, chain: Word): seq<Word> {
    if ops == [] then []
    else
      var front, op := ops[..|ops| - 1], ops[|ops| - 1];
      if op.StagedRemove? && op.chain == chain then RemovesFor(front, chain) + [op.key] else RemovesFor(front, chain)
  }

  function ChainsOf(ops: seq<StagedOp>): set<Word> {
    if ops == [] then {} else ChainsOf(ops[..|ops| - 1]) + {ops[|ops| - 1].chain}
  }

  /** The collected requests are, chain by chain, the operations of the window in order. */
  ghost predicate Collects(r: map<Word, Requests>, ops: seq<StagedOp>)
  {
    && r.Keys == ChainsOf(ops)
    && forall c: Word :: RequestsOf(r, c) == Requests(PutsFor(ops, c), RemovesFor(ops, c))
  }

  /** One more operation joins its own chain's request. */
  function AddOp(r: map<Word, Requests>, op: StagedOp): map<Word, Requests> {
    var req := RequestsOf(r, op.chain);
    r[op.chain := if op.StagedPut? then req.(puts := req.puts + [ElementOf(op)])
                  else req.(removes := req.removes + [op.key])]
  }

  lemma NextFor(ops: seq<StagedOp>, op: StagedOp, c: Word)
    ensures PutsFor(ops + [op], c)
            == if op.StagedPut? && op.chain == c then PutsFor(ops, c) + [ElementOf(op)] else PutsFor(ops, c)
    ensures RemovesFor(ops + [op], c)
            == if op.StagedRemove? && op.chain == c then RemovesFor(ops, c) + [op.key] else RemovesFor(ops, c)
    ensures ChainsOf(ops + [op]) == ChainsOf(ops) + {op.chain}
  {
    var all := ops + [op];
    assert all[..|all| - 1] == ops;
  }

  lemma CollectNext(r: map<Word, Requests>, ops: seq<StagedOp>, op: StagedOp)
    requires Collects(r, ops)
    ensures Collects(AddOp(r, op), ops + [op])
  {
    NextFor(ops, op, op.chain);
    forall c: Word
      ensures RequestsOf(AddOp(r, op), c) == Requests(PutsFor(ops + [op], c), RemovesFor(ops + [op], c))
    {
      NextFor(ops, op, c);
      assert RequestsOf(r, c) == Requests(PutsFor(ops, c), RemovesFor(ops, c));
      assert RequestsOf(r, op.chain) == Requests(PutsFor(ops, op.chain), RemovesFor(ops, op.chain));
    }
  }

  lemma NothingFor(chain: Word)
    ensures PutsFor([], chain) == [] && RemovesFor([], chain) == [] && ChainsOf([]) == {}
  {
  }

  lemma {:induction false} ForConcat(a: seq<StagedOp>, b: seq<StagedOp>, chain: Word)
    ensures PutsFor(a + b, chain) == PutsFor(a, chain) + PutsFor(b, chain)
    ensures RemovesFor(a + b, chain) == RemovesFor(a, chain) + RemovesFor(b, chain)
    ensures ChainsOf(a + b) == ChainsOf(a) + ChainsOf(b)
  {
    hide PutsFor, RemovesFor, ChainsOf;
    if b == [] {
      NothingFor(chain);
      assert a + b == a;
    } else {
      var b', op := b[..|b| - 1], b[|b| - 1];
      ForConcat(a, b', chain);
      FrontAndLast(b);
      Assoc(a, b', [op]);
      NextFor(a + b', op, chain);
      NextFor(b', op, chain);
      if op.StagedPut? {
        Assoc(PutsFor(a, chain), PutsFor(b', chain), [ElementOf(op)]);
      } else {
        Assoc(RemovesFor(a, chain), RemovesFor(b', chain), [op.key]);
      }
    }
  }

  /** Collecting [x, z) is, chain by chain, collecting [x, y) and then [y, z). */
  lemma WindowsSplit(m: Slots, x: nat, y: nat, z: nat,
                     r: map<Word, Requests>, r1: map<Word, Requests>, r2: map<Word, Requests>)
    requires x <= y <= z
    requires Collects(r, Window(m, x, z)) && Collects(r1, Window(m, x, y)) && Collects(r2, Window(m, y, z))
    ensures r.Keys == r1.Keys + r2.Keys
    ensures forall c: Word ::
              RequestsOf(r, c) == Requests(RequestsOf(r1, c).puts + RequestsOf(r2, c).puts,
                                           RequestsOf(r1, c).removes + RequestsOf(r2, c).removes)
  {
    WindowConcat(m, x, y, z);
    ForConcat(Window(m, x, y), Window(m, y, z), ZERO_WORD);
    forall c: Word
      ensures RequestsOf(r, c) == Requests(RequestsOf(r1, c).puts + RequestsOf(r2, c).puts,
                                           RequestsOf(r1, c).removes + RequestsOf(r2, c).removes)
    {
      ForConcat(Window(m, x, y), Window(m, y, z), c);
    }
  }

  lemma {:induction false} WindowConcat(m: Slots, x: nat, y: nat, z: nat)
    requires x <= y <= z
    ensures Window(m, x, z) == Window(m, x, y) + Window(m, y, z)
  {
    if y < z {
      WindowConcat(m, x, y, z - 1);
    }
  }

  // ----- shared memory -----

  type Partition = map<Word, seq<byte>>

  /** Objects this chain has put for each peer, and objects each peer has put for this chain. */
  datatype SharedMemory = SharedMemory(outbound: map<Word, Partition>, inbound: map<Word, Partition>)

  function Part(p: map<Word, Partition>, chain: Word): Partition {
    if chain in p then p[chain] else map[]
  }

  /** The meaning of the log: one operation after another. */
  function ApplyOps(sm: SharedMemory, ops: seq<StagedOp>): SharedMemory {
    if ops == [] then sm
    else
      var before, op := ApplyOps(sm, ops[..|ops| - 1]), ops[|ops| - 1];
      match op
      case StagedPut(c, k, v) => before.(outbound := before.outbound[c := Part(before.outbound, c)[k := v]])
      case StagedRemove(c, k) => before.(inbound := before.inbound[c := Part(before.inbound, c) - {k}])
  }

  function PutAll(p: Partition, es: seq<Element>): Partition {
    if es == [] then p else PutAll(p, es[..|es| - 1])[es[|es| - 1].key := es[|es| - 1].value]
  }

  function RemoveAll(p: Partition, ks: seq<Word>): Partition {
    if ks == [] then p else RemoveAll(p, ks[..|ks| - 1]) - {ks[|ks| - 1]}
  }

  /** What Apply does with the grouped requests: all of a chain's puts, all of its removes. */
  ghost predicate Applied(sm: SharedMemory, r: map<Word, Requests>, sm': SharedMemory) {
    forall c: Word ::
      && Part(sm'.outbound, c) == PutAll(Part(sm.outbound, c), RequestsOf(r, c).puts)
      && Part(sm'.inbound, c) == RemoveAll(Part(sm.inbound, c), RequestsOf(r, c).removes)
  }

  /** The same objects at every peer. */
  ghost predicate SameMemory(a: SharedMemory, b: SharedMemory) {
    forall c: Word :: Part(a.outbound, c) == Part(b.outbound, c) && Part(a.inbound, c) == Part(b.inbound, c)
  }

  lemma {:induction false} PutAllNext(p: Partition, es: seq<Element>, e: Element)
    ensures PutAll(p, es + [e]) == PutAll(p, es)[e.key := e.value]
  {
    assert (es + [e])[..|es|] == es;
  }

  lemma {:induction false} RemoveAllNext(p: Partition, ks: seq<Word>, k: Word)
    ensures RemoveAll(p, ks + [k]) == RemoveAll(p, ks) - {k}
  {
    assert (ks + [k])[..|ks|] == ks;
  }

  /** Grouping by chain loses nothing: the grouped batch does what the log says, in log order. */
  lemma {:induction false} GroupingIsFaithful(sm: SharedMemory, ops: seq<StagedOp>, c: Word)
    ensures Part(ApplyOps(sm, ops).outbound, c) == PutAll(Part(sm.outbound, c), PutsFor(ops, c))
    ensures Part(ApplyOps(sm, ops).inbound, c) == RemoveAll(Part(sm.inbound, c), RemovesFor(ops, c))
  {
    if ops != [] {
      var front, op := ops[..|ops| - 1], ops[|ops| - 1];
      GroupingIsFaithful(sm, front, c);
      match op
      case StagedPut(d, k, v) =>
        if d == c {
          PutAllNext(Part(sm.outbound, c), PutsFor(front, c), ElementOf(op));
        }
      case StagedRemove(d, k) =>
        if d == c {
          RemoveAllNext(Part(sm.inbound, c), RemovesFor(front, c), k);
        }
    }
  }

  lemma {:induction false} ApplyOpsConcat(sm: SharedMemory, a: seq<StagedOp>, b: seq<StagedOp>)
    ensures ApplyOps(sm, a + b) == ApplyOps(ApplyOps(sm, a), b)
  {
    if b == [] {
      assert a + b == a;
    } else {
      ApplyOpsConcat(sm, a, b[..|b| - 1]);
      assert (a + b)[..|a + b| - 1] == a + b[..|b| - 1];
    }
  }

  // ----- the staging methods -----

  datatype FlushError = AtomicSeqRegression | StagedOpMalformed

  class StagingLog {
    const sdb: Storage
    ghost var log: seq<StagedOp>

    ghost predicate Valid()
      reads this, sdb
    {
      LogIs(sdb.slots, log)
    }

    constructor (s: Storage)
      requires s.slots == map[]
      ensures sdb == s && Valid() && log == []
    {
      sdb, log := s, [];
      LowU64Zero();
    }

    method ReadSeq() returns (n: nat)
      ensures n == LowU64(sdb.GetState(StageSeq))
    {
      var w := sdb.GetState(StageSeq);
      n := BytesToU64(w[24..32]);
    }

    method StageAtomicPut(chain: Word, key: Word, claim: seq<byte>)
      requires Valid() && |log| + 1 < U64 && |claim| == CLAIM_SIZE
      modifies this, sdb
      ensures Valid() && log == old(log) + [StagedPut(chain, key, claim)]
      ensures StagesOne(old(sdb.slots), sdb.slots, StagedPut(chain, key, claim))
    {
      var s := ReadSeq();
      ghost var before := sdb.slots;
      var rec := PackPut(chain, key, claim);
      sdb.WriteBytes(StagedPutRecord(s), rec);
      ghost var written := sdb.slots;
      sdb.SetState(StageKind(s), KindWord(KIND_PUT));
      sdb.SetState(StageSeq, U64Word(s + 1));
      ghost var op := StagedPut(chain, key, claim);
      PackedIsStored(written, s, op);
      StagedThroughCounter(before, written, sdb.slots, log, op);
      log := log + [op];
    }

    method StageAtomicRemove(chain: Word, key: Word)
      requires Valid() && |log| + 1 < U64
      modifies this, sdb
      ensures Valid() && log == old(log) + [StagedRemove(chain, key)]
      ensures StagesOne(old(sdb.slots), sdb.slots, StagedRemove(chain, key))
    {
      var s := ReadSeq();
      ghost var before := sdb.slots;
      var rec := PackRemove(chain, key);
      sdb.WriteBytes(StagedRemoveRecord(s), rec);
      ghost var written := sdb.slots;
      sdb.SetState(StageKind(s), KindWord(KIND_REMOVE));
      sdb.SetState(StageSeq, U64Word(s + 1));
      ghost var op := StagedRemove(chain, key);
      PackedIsStored(written, s, op);
      StagedThroughCounter(before, written, sdb.slots, log, op);
      log := log + [op];
    }
  }

  /** Writing one record, its kind and the counter appends one operation and alters none before it. */
  lemma {:induction false} OpAppended(before: Slots, record: Slots, after: Slots, log: seq<StagedOp>, op: StagedOp)
    requires LogIs(before, log) && |log| + 1 < U64 && WellFormed(op)
    requires StagedAt(before, record, after, |log|, op)
    ensures LogIs(after, log + [op])
  {
    hide OpAt, OnlyRecord, Stored;
    EarlierOpsKept(before, record, after, |log|, op);
    SameWindow(before, after, |log|);
    StagedDecodes(before, record, after, |log|, op);
    U64WordRoundTrip(|log| + 1);
    LogExtends(after, log, op);
  }

  lemma EarlierOpsKept(before: Slots, record: Slots, after: Slots, n: nat, op: StagedOp)
    requires StagedAt(before, record, after, n, op)
    ensures forall i: nat :: i < n ==> OpAt(after, i) == OpAt(before, i)
  {
    forall i: nat | i < n
      ensures OpAt(after, i) == OpAt(before, i)
    {
      OldOpKept(before, record, after, OpRecord(n, op), i, n, KindOf(op));
    }
  }

  lemma StagedDecodes(before: Slots, record: Slots, after: Slots, n: nat, op: StagedOp)
    requires StagedAt(before, record, after, n, op) && WellFormed(op)
    ensures OpAt(after, n) == Some(op)
  {
    RecordsSurviveMarks(record, after, n, n, KindOf(op));
    NewOpDecodes(after, n, op);
  }

  lemma {:induction false} PackedIsStored(record: Slots, n: nat, op: StagedOp)
    requires WellFormed(op) && Spells(record, OpRecord(n, op), PackedOp(op))
    ensures Stored(record, OpRecord(n, op)) == Some(PackedOp(op))
  {
    SpelledIsStored(record, OpRecord(n, op), PackedOp(op));
  }

  lemma {:induction false} StagedThroughCounter(
    before: Slots, record: Slots, after: Slots, log: seq<StagedOp>, op: StagedOp)
    requires LogIs(before, log) && |log| + 1 < U64 && WellFormed(op)
    requires StagedAt(before, record, after, |log|, op)
    ensures LogIs(after, log + [op]) && StagesOne(before, after, op)
  {
    OpAppended(before, record, after, log, op);
    StagedByCounter(before, record, after, log, op);
  }

  lemma StagedByCounter(before: Slots, record: Slots, after: Slots, log: seq<StagedOp>, op: StagedOp)
    requires LogIs(before, log) && StagedAt(before, record, after, |log|, op)
    ensures StagesOne(before, after, op)
  {
    assert StagedAt(before, record, after, LowU64(Load(before, StageSeq)), op);
  }

  /** Staging through the counter appends to whatever log the slots hold. */
  lemma StagesOneExtends(m: Slots, m': Slots, log: seq<StagedOp>, op: StagedOp)
    requires LogIs(m, log) && |log| + 1 < U64 && WellFormed(op) && StagesOne(m, m', op)
    ensures LogIs(m', log + [op])
  {
    var record :| StagedAt(m, record, m', LowU64(Load(m, StageSeq)), op);
    OpAppended(m, record, m', log, op);
  }

  lemma SameStagingSameLog(m: Slots, m': Slots, log: seq<StagedOp>)
    requires LogIs(m, log) && SameStaging(m, m')
    ensures LogIs(m', log)
  {
    forall i: nat | i < |log|
      ensures OpAt(m', i) == OpAt(m, i)
    {
      StoredFrame(m, m', StagedPutRecord(i));
      StoredFrame(m, m', StagedRemoveRecord(i));
      assert IsStaging(StageKind(i));
    }
    SameWindow(m, m', |log|);
    assert IsStaging(StageSeq);
  }

  lemma {:induction false} LogExtends(m: Slots, log: seq<StagedOp>, op: StagedOp)
    requires Window(m, 0, |log|) == log && OpAt(m, |log|) == Some(op)
    requires |log| + 1 < U64 && LowU64(Load(m, StageSeq)) == |log| + 1
    ensures LogIs(m, log + [op])
  {
    WindowNext(m, 0, |log|, op);
  }

  lemma {:induction false} SameWindow(m: Slots, m': Slots, to: nat)
    requires forall i: nat :: i < to ==> OpAt(m', i) == OpAt(m, i)
    ensures Window(m', 0, to) == Window(m, 0, to)
  {
    if to > 0 {
      SameWindow(m, m', to - 1);
    }
  }

  lemma NewOpDecodes(m: Slots, n: nat, op: StagedOp)
    requires WellFormed(op)
    requires Load(m, StageKind(n)) == KindWord(KindOf(op))
    requires Stored(m, if op.StagedPut? then StagedPutRecord(n) else StagedRemoveRecord(n)) == Some(PackedOp(op))
    ensures OpAt(m, n) == Some(op)
  {
    if op.StagedPut? {
      var rec := PackPut(op.chain, op.key, op.claim);
      assert rec[1..33] == op.chain && rec[33..65] == op.key && rec[65..] == op.claim;
    } else {
      var rec := PackRemove(op.chain, op.key);
      assert rec[1..33] == op.chain && rec[33..65] == op.key;
    }
  }

  lemma OldOpKept(before: Slots, written: Slots, after: Slots, r: RecordId, i: nat, n: nat, kind: byte)
    requires i < n && (r == StagedPutRecord(n) || r == StagedRemoveRecord(n))
    requires OnlyRecord(before, written, r)
    requires after == written[StageKind(n) := KindWord(kind)][StageSeq := U64Word(n + 1)]
    ensures OpAt(after, i) == OpAt(before, i)
  {
    RecordsSurviveMarks(written, after, i, n, kind);
    OtherRecordUnchanged(before, written, r, StagedPutRecord(i));
    OtherRecordUnchanged(before, written, r, StagedRemoveRecord(i));
    assert Load(after, StageKind(i)) == Load(before, StageKind(i));
  }

  lemma RecordsSurviveMarks(m: Slots, m': Slots, i: nat, n: nat, kind: byte)
    requires m' == m[StageKind(n) := KindWord(kind)][StageSeq := U64Word(n + 1)]
    ensures Stored(m', StagedPutRecord(i)) == Stored(m, StagedPutRecord(i))
    ensures Stored(m', StagedRemoveRecord(i)) == Stored(m, StagedRemoveRecord(i))
  {
    StoredFrame(m, m', StagedPutRecord(i));
    StoredFrame(m, m', StagedRemoveRecord(i));
  }

  /** Reads one staged position the way the flush does. */
  method DecodeStaged(sdb: Storage, i: nat) returns (op: Option<StagedOp>)
    ensures op == OpAt(sdb.slots, i)
  {
    var kind := sdb.GetState(StageKind(i))[31];
    if kind == KIND_PUT {
      var rec := sdb.ReadBytes(StagedPutRecord(i));
      return DecodePut(OrEmpty(rec));
    }
    if kind == KIND_REMOVE {
      var rec := sdb.ReadBytes(StagedRemoveRecord(i));
      return DecodeRemove(OrEmpty(rec));
    }
    return None;
  }

  /** Appends one operation to its chain's request, creating the request on first use. */
  method AppendRequest(out: map<Word, Requests>, op: StagedOp) returns (out': map<Word, Requests>)
    ensures out' == AddOp(out, op)
  {
    var req := if op.chain in out then out[op.chain] else Requests([], []);
    if op.StagedPut? {
      req := req.(puts := req.puts + [Element(op.key, op.claim, Destination(op.claim))]);
    } else {
      req := req.(removes := req.removes + [op.key]);
    }
    out' := out[op.chain := req];
  }

  /** The requests collected from positions [from, to), every one of which decoded. */
  ghost predicate Collected(m: Slots, from: nat, to: nat, out: map<Word, Requests>) {
    from <= to && |Window(m, from, to)| == to - from && Collects(out, Window(m, from, to))
  }

  lemma NothingCollected(m: Slots, from: nat)
    ensures Collected(m, from, from, map[])
  {
  }

  lemma OneMoreCollected(m: Slots, from: nat, i: nat, out: map<Word, Requests>, op: StagedOp)
    requires Collected(m, from, i, out) && OpAt(m, i) == Some(op)
    ensures Collected(m, from, i + 1, AddOp(out, op))
  {
    CollectNext(out, Window(m, from, i), op);
    WindowNext(m, from, i, op);
  }

  lemma {:induction false} WindowNext(m: Slots, from: nat, i: nat, op: StagedOp)
    requires from <= i && OpAt(m, i) == Some(op)
    ensures Window(m, from, i + 1) == Window(m, from, i) + [op]
  {
  }

  lemma {:induction false} LastDecodes(m: Slots, from: nat, to: nat)
    requires from < to && |Window(m, from, to)| == to - from
    ensures |Window(m, from, to - 1)| == to - 1 - from
    ensures AllDecode(m, from, to - 1) ==> AllDecode(m, from, to)
  {
  }

  /** A window that lost no position decodes throughout. */
  lemma {:induction false} FullWindowDecodes(m: Slots, from: nat, to: nat)
    requires from <= to && |Window(m, from, to)| == to - from
    ensures AllDecode(m, from, to)
  {
    hide OpAt;
    if from == to {
    } else {
      LastDecodes(m, from, to);
      FullWindowDecodes(m, from, to - 1);
    }
  }

  lemma {:induction false} UndecodableStops(m: Slots, from: nat, i: nat, to: nat)
    requires from <= i < to && OpAt(m, i).None?
    ensures !AllDecode(m, from, to)
  {
    if i < to - 1 {
      UndecodableStops(m, from, i, to - 1);
    }
  }

  /** Every put of the requests is indexed under the account its own claim credits. */
  ghost predicate Indexed(r: map<Word, Requests>) {
    forall c: Word, i: nat :: i < |RequestsOf(r, c).puts| ==>
      var el := RequestsOf(r, c).puts[i];
      DecodeClaim(el.value).Some? && el.destination == DecodeClaim(el.value).value.beneficiary
  }

  lemma {:induction false} PutsAreIndexed(ops: seq<StagedOp>, c: Word, i: nat)
    requires i < |PutsFor(ops, c)| && forall k :: 0 <= k < |ops| ==> WellFormed(ops[k])
    ensures var el := PutsFor(ops, c)[i];
            DecodeClaim(el.value).Some? && el.destination == DecodeClaim(el.value).value.beneficiary
  {
    var front, op := ops[..|ops| - 1], ops[|ops| - 1];
    if i < |PutsFor(front, c)| {
      PutsAreIndexed(front, c, i);
    } else {
      assert WellFormed(op);
    }
  }

  lemma {:induction false} WindowWellFormed(m: Slots, from: nat, to: nat)
    ensures forall k :: 0 <= k < |Window(m, from, to)| ==> WellFormed(Window(m, from, to)[k])
  {
    if from < to {
      WindowWellFormed(m, from, to - 1);
    }
  }

  /** Whatever collects a window hands every put over under the beneficiary of its claim. */
  lemma CollectedIsIndexed(m: Slots, from: nat, to: nat, r: map<Word, Requests>)
    requires Collects(r, Window(m, from, to))
    ensures Indexed(r)
  {
    WindowWellFormed(m, from, to);
    forall c: Word, i: nat | i < |RequestsOf(r, c).puts|
      ensures var el := RequestsOf(r, c).puts[i];
              DecodeClaim(el.value).Some? && el.destination == DecodeClaim(el.value).value.beneficiary
    {
      PutsAreIndexed(Window(m, from, to), c, i);
    }
  }

  /** The flush's window reader: Ok with the window's operations when every position decodes,
      the malformed error otherwise. */
  method CollectRange(sdb: Storage, from: nat, to: nat) returns (r: Result<map<Word, Requests>, FlushError>)
    requires to < U64
    ensures r.Ok? <==> AllDecode(sdb.slots, from, to)
    ensures r.Err? ==> r.error == StagedOpMalformed
    ensures r.Ok? ==> Collects(r.value, Window(sdb.slots, from, to)) && Indexed(r.value)
  {
    if to <= from {
      return Ok(map[]);
    }
    var out: map<Word, Requests> := map[];
    NothingCollected(sdb.slots, from);
    for i := from to to
      invariant Collected(sdb.slots, from, i, out)
    {
      var ok;
      ok, out := CollectOne(sdb, from, i, out);
      if !ok {
        UndecodableStops(sdb.slots, from, i, to);
        return Err(StagedOpMalformed);
      }
    }
    FullWindowDecodes(sdb.slots, from, to);
    CollectedIsIndexed(sdb.slots, from, to, out);
    r := Ok(out);
  }

  /** Reads one more position into the requests. */
  method CollectOne(sdb: Storage, from: nat, i: nat, out: map<Word, Requests>)
      returns (ok: bool, out': map<Word, Requests>)
    requires Collected(sdb.slots, from, i, out)
    ensures ok <==> OpAt(sdb.slots, i).Some?
    ensures ok ==> Collected(sdb.slots, from, i + 1, out')
  {
    var op := DecodeStaged(sdb, i);
    ok, out' := op.Some?, out;
    if ok {
      OneMoreCollected(sdb.slots, from, i, out, op.value);
      out' := AppendRequest(out, op.value);
    }
  }

  /** The grouped requests of a window do what its operations say, chain by chain. */
  lemma AppliedIsFlush(sm: SharedMemory, r: map<Word, Requests>, ops: seq<StagedOp>, sm': SharedMemory)
    requires Collects(r, ops)
    ensures Applied(sm, r, ApplyOps(sm, ops))
    ensures Applied(sm, r, sm') ==> SameMemory(sm', ApplyOps(sm, ops))
  {
    forall c: Word
      ensures Part(ApplyOps(sm, ops).outbound, c) == PutAll(Part(sm.outbound, c), RequestsOf(r, c).puts)
      ensures Part(ApplyOps(sm, ops).inbound, c) == RemoveAll(Part(sm.inbound, c), RequestsOf(r, c).removes)
    {
      GroupingIsFaithful(sm, ops, c);
    }
  }

  /** One chain's request carried out. */
  function ChainApplied(sm: SharedMemory, c: Word, req: Requests): SharedMemory {
    SharedMemory(sm.outbound[c := PutAll(Part(sm.outbound, c), req.puts)],
                 sm.inbound[c := RemoveAll(Part(sm.inbound, c), req.removes)])
  }

  /** The chains in `todo` are as they were, every other chain's request is carried out. */
  ghost predicate AppliedExcept(sm: SharedMemory, r: map<Word, Requests>, todo: set<Word>, sm': SharedMemory) {
    forall c: Word ::
      && Part(sm'.outbound, c) == (if c in todo then Part(sm.outbound, c)
                                   else PutAll(Part(sm.outbound, c), RequestsOf(r, c).puts))
      && Part(sm'.inbound, c) == (if c in todo then Part(sm.inbound, c)
                                  else RemoveAll(Part(sm.inbound, c), RequestsOf(r, c).removes))
  }

  lemma NothingApplied(sm: SharedMemory, r: map<Word, Requests>)
    ensures AppliedExcept(sm, r, r.Keys, sm)
  {
  }

  lemma OneMoreApplied(sm: SharedMemory, r: map<Word, Requests>, todo: set<Word>, sm': SharedMemory, c: Word)
    requires AppliedExcept(sm, r, todo, sm') && c in todo && todo <= r.Keys
    ensures AppliedExcept(sm, r, todo - {c}, ChainApplied(sm', c, r[c]))
  {
    hide PutAll, RemoveAll;
    assert Part(sm'.outbound, c) == Part(sm.outbound, c) && Part(sm'.inbound, c) == Part(sm.inbound, c);
  }

  lemma AllApplied(sm: SharedMemory, r: map<Word, Requests>, sm': SharedMemory)
    requires AppliedExcept(sm, r, {}, sm')
    ensures Applied(sm, r, sm')
  {
  }

  /** The host's shared memory. */
  class SharedMemoryHost {
    var held: SharedMemory

    constructor ()
      ensures held == SharedMemory(map[], map[])
    {
      held := SharedMemory(map[], map[]);
    }

    /** One chain's puts, then its removes. */
    method ApplyOne(c: Word, req: Requests)
      modifies this
      ensures held == ChainApplied(old(held), c, req)
    {
      var out := PutEach(Part(held.outbound, c), req.puts);
      var into := RemoveEach(Part(held.inbound, c), req.removes);
      held := SharedMemory(held.outbound[c := out], held.inbound[c := into]);
    }

    /** Every chain's request, the chains in any order. */
    method Apply(reqs: map<Word, Requests>)
      modifies this
      ensures Applied(old(held), reqs, held)
    {
      hide AppliedExcept, ChainApplied;
      var todo := reqs.Keys;
      NothingApplied(held, reqs);
      while todo != {}
        invariant todo <= reqs.Keys && AppliedExcept(old(held), reqs, todo, held)
      {
        var c :| c in todo;
        OneMoreApplied(old(held), reqs, todo, held, c);
        ApplyOne(c, reqs[c]);
        todo := todo - {c};
      }
      AllApplied(old(held), reqs, held);
    }
  }

  method PutEach(p: Partition, es: seq<Element>) returns (r: Partition)
    ensures r == PutAll(p, es)
  {
    r := p;
    for i := 0 to |es|
      invariant r == PutAll(p, es[..i])
    {
      PutAllNext(p, es[..i], es[i]);
      assert es[..i + 1] == es[..i] + [es[i]];
      r := r[es[i].key := es[i].value];
    }
    assert es[..|es|] == es;
  }

  method RemoveEach(p: Partition, ks: seq<Word>) returns (r: Partition)
    ensures r == RemoveAll(p, ks)
  {
    r := p;
    for i := 0 to |ks|
      invariant r == RemoveAll(p, ks[..i])
    {
      RemoveAllNext(p, ks[..i], ks[i]);
      assert ks[..i + 1] == ks[..i] + [ks[i]];
      r := r - {ks[i]};
    }
    assert ks[..|ks|] == ks;
  }

  /** FlushAcceptedAtomicOps: the parent's counter and the accepted block's counter bracket the block's window; the
      window is collected and applied, and on any error nothing is. A dev harness may have no shared memory. */
  method FlushAcceptedAtomicOps(parent: Storage, current: Storage, sm: SharedMemoryHost?)
      returns (err: Option<FlushError>)
    modifies sm
    ensures var from, to := LowU64(parent.GetState(StageSeq)), LowU64(current.GetState(StageSeq));
            && (err == Some(AtomicSeqRegression) <==> to < from)
            && (err == Some(StagedOpMalformed) <==> from < to && !AllDecode(current.slots, from, to))
            && (err.None? && sm != null ==>
                  SameMemory(sm.held, ApplyOps(old(sm.held), Window(current.slots, from, to))))
            && (err.Some? && sm != null ==> sm.held == old(sm.held))
  {
    var pw := parent.GetState(StageSeq);
    var cw := current.GetState(StageSeq);
    var from := BytesToU64(pw[24..32]);
    var to := BytesToU64(cw[24..32]);
    if to < from {
      return Some(AtomicSeqRegression);
    }
    var reqs := CollectRange(current, from, to);
    if reqs.Err? {
      return Some(reqs.error);
    }
    if sm != null {
      AppliedIsFlush(sm.held, reqs.value, Window(current.slots, from, to), sm.held);
    }
    if |reqs.value| == 0 || sm == null {
      return None;
    }
    ghost var was := sm.held;
    sm.Apply(reqs.value);
    AppliedIsFlush(was, reqs.value, Window(current.slots, from, to), sm.held);
    return None;
  }

  /** What the flush of an accepted block delivers: exactly the operations its log gained, in order,
      never an error, when the parent's log is a prefix of the block's. */
  lemma FlushDeliversGain(parent: Slots, current: Slots, before: seq<StagedOp>, gain: seq<StagedOp>)
    requires LogIs(parent, before) && LogIs(current, before + gain)
    ensures var from, to := LowU64(Load(parent, StageSeq)), LowU64(Load(current, StageSeq));
            from <= to && Window(current, from, to) == gain && AllDecode(current, from, to)
  {
    WindowIsSlice(current, before + gain, |before|, |before + gain|);
    assert (before + gain)[|before|..|before + gain|] == gain;
    FullWindowDecodes(current, |before|, |before + gain|);
  }

  lemma WindowIsSlice(m: Slots, log: seq<StagedOp>, from: nat, to: nat)
    requires LogIs(m, log) && from <= to <= |log|
    ensures Window(m, from, to) == log[from..to]
  {
    WindowConcat(m, 0, from, to);
    WindowConcat(m, 0, to, |log|);
    assert log == Window(m, 0, from) + Window(m, from, to) + Window(m, to, |log|);
  }
}
