/** The 0x9999 account's storage: 32-byte words under hashed keys, and the multi-word byte
    record (word 0 the length, words 1.. the data) that every variable-length value uses. */
module EvmSlots {
  import opened Bytes
  import opened Wrappers

  // ----- storage keys -----

  /** The multi-word records kept under 0x9999. */
  datatype RecordId =
    | CoreValue(key: seq<byte>)
    | CoreIndex(pool: Word)
    | StagedPutRecord(s: nat)
    | StagedRemoveRecord(s: nat)

  /** A storage key, named by what makeStorageKey hashes rather than by the digest. */
  datatype Slot =
    | RecordWord(record: RecordId, word: nat)
    | StageKind(s: nat)
    | StageSeq

  /** prefix || id of a record, before the word number. */
  function RecordPreimage(r: RecordId): seq<byte> {
    match r
    case CoreValue(key) => Ascii("dex.precompile.v1.9999.core.kv.") + key
    case CoreIndex(pool) => Ascii("dex.precompile.v1.9999.core.oidx.") + pool
    case StagedPutRecord(s) => Ascii("dex.precompile.v1.9999.stg.put") + BE(s, 8)
    case StagedRemoveRecord(s) => Ascii("dex.precompile.v1.9999.stg.rm") + BE(s, 8)
  }

  /** The byte string makeStorageKey hashes for a key. */
  function Preimage(k: Slot): seq<byte> {
    match k
    case RecordWord(r, w) => RecordPreimage(r) + BE(w, 8)
    case StageKind(s) => Ascii("dex.precompile.v1.9999.stg.kind") + BE(s, 8)
    case StageSeq => Ascii("dex.precompile.v1.9999.stg.seq")
  }

  predicate RecordFits(r: RecordId) {
    (r.StagedPutRecord? ==> r.s < U64) && (r.StagedRemoveRecord? ==> r.s < U64)
  }

  /** Every number in the key is the uint64 the source writes. */
  predicate Fits(k: Slot) {
    match k
    case RecordWord(r, w) => RecordFits(r) && w < U64
    case StageKind(s) => s < U64
    case StageSeq => true
  }

  lemma TailsEqual(p: seq<byte>, a: nat, q: seq<byte>, b: nat)
    requires a < U64 && b < U64 && p + BE(a, 8) == q + BE(b, 8)
    ensures p == q && a == b
  {
    assert (p + BE(a, 8))[..|p|] == p && (p + BE(a, 8))[|p|..] == BE(a, 8);
    assert (q + BE(b, 8))[..|q|] == q && (q + BE(b, 8))[|q|..] == BE(b, 8);
    Pow256Values();
    BEInjective(a, b, 8);
  }

  lemma RecordPreimageInjective(r: RecordId, q: RecordId)
    requires RecordFits(r) && RecordFits(q) && RecordPreimage(r) == RecordPreimage(q)
    ensures r == q
  {
    var p := RecordPreimage(r);
    assert r.CoreValue? ==> p[23] == 'c' as int && p[28] == 'k' as int && p[31..] == r.key;
    assert r.CoreIndex? ==> p[23] == 'c' as int && p[28] == 'o' as int && p[33..] == r.pool;
    assert r.StagedPutRecord? || r.StagedRemoveRecord? ==> p[23] == 's' as int;
    assert q.CoreValue? ==> p[23] == 'c' as int && p[28] == 'k' as int && p[31..] == q.key;
    assert q.CoreIndex? ==> p[23] == 'c' as int && p[28] == 'o' as int && p[33..] == q.pool;
    assert q.StagedPutRecord? || q.StagedRemoveRecord? ==> p[23] == 's' as int;
    if r.StagedPutRecord? && q.StagedPutRecord? {
      TailsEqual(Ascii("dex.precompile.v1.9999.stg.put"), r.s, Ascii("dex.precompile.v1.9999.stg.put"), q.s);
    }
    if r.StagedRemoveRecord? && q.StagedRemoveRecord? {
      TailsEqual(Ascii("dex.precompile.v1.9999.stg.rm"), r.s, Ascii("dex.precompile.v1.9999.stg.rm"), q.s);
    }
  }

  /** Naming keys by their preimages is sound: distinct keys hash distinct byte strings. */
  lemma PreimageInjective(k: Slot, l: Slot)
    requires Fits(k) && Fits(l)
    ensures Preimage(k) == Preimage(l) <==> k == l
  {
    if Preimage(k) == Preimage(l) {
      if k.RecordWord? && l.RecordWord? {
        TailsEqual(RecordPreimage(k.record), k.word, RecordPreimage(l.record), l.word);
        RecordPreimageInjective(k.record, l.record);
      } else if k.StageKind? && l.StageKind? {
        TailsEqual(Ascii("dex.precompile.v1.9999.stg.kind"), k.s, Ascii("dex.precompile.v1.9999.stg.kind"), l.s);
      } else if k.RecordWord? && !l.RecordWord? {
        RecordIsNotMark(k, l);
      } else if l.RecordWord? && !k.RecordWord? {
        RecordIsNotMark(l, k);
      }
    }
  }

  lemma RecordIsNotMark(k: Slot, l: Slot)
    requires k.RecordWord? && !l.RecordWord?
    ensures Preimage(k) != Preimage(l)
  {
    if k.record.CoreValue? || k.record.CoreIndex? {
      assert Preimage(k)[23] == RecordPreimage(k.record)[23] == 'c' as int;
      assert Preimage(l)[23] == 's' as int;
    }
  }

  // ----- records -----

  type Slots = map<Slot, Word>

  function Load(m: Slots, k: Slot): Word {
    if k in m then m[k] else ZERO_WORD
  }

  /** Number of 32-byte words that hold `n` bytes. */
  function WordCount(n: nat): nat {
    (n + 31) / 32
  }

  /** Data word `i` of `b`, right-padded with zero bytes. */
  function DataWord(b: seq<byte>, i: nat): (w: Word)
    requires i * 32 < |b|
  {
    var end := if (i + 1) * 32 > |b| then |b| else (i + 1) * 32;
    b[i * 32..end] + Zeros(32 - (end - i * 32))
  }

  /** A byte length read from a word is a length only in (0, MaxInt32]. */
  function SlotLen(w: Word): (n: Option<nat>)
    ensures n.Some? ==> 0 < n.value <= MAX_INT32 && n.value == LowU64(w)
  {
    var n := LowU64(w);
    if n == 0 || n > MAX_INT32 then None else Some(n)
  }

  function StoredByte(m: Slots, r: RecordId, j: nat): byte {
    Load(m, RecordWord(r, j / 32 + 1))[j % 32]
  }

  /** The value a reader sees in record `r`. */
  function Stored(m: Slots, r: RecordId): Option<seq<byte>> {
    match SlotLen(Load(m, RecordWord(r, 0)))
    case None => None
    case Some(n) => Some(seq(n, j requires 0 <= j < n => StoredByte(m, r, j)))
  }

  /** What a reader sees of a written value: an empty or over-long value reads as absent. */
  function Visible(b: seq<byte>): Option<seq<byte>> {
    if 1 <= |b| <= MAX_INT32 then Some(b) else None
  }

  function DataWords(b: seq<byte>): seq<Word> {
    seq(WordCount(|b|), i requires 0 <= i < WordCount(|b|) => DataWord(b, i))
  }

  /** Record `r` holds the count `n` followed by `words`. */
  ghost predicate Holds(m: Slots, r: RecordId, n: nat, words: seq<Word>) {
    && Load(m, RecordWord(r, 0)) == U64Word(n)
    && forall i: nat :: i < |words| ==> Load(m, RecordWord(r, i + 1)) == words[i]
  }

  /** The words of record `r` are those that spell `b`. */
  ghost predicate Spells(m: Slots, r: RecordId, b: seq<byte>) {
    Holds(m, r, |b|, DataWords(b))
  }

  /** Nothing outside record `r` differs between `m` and `m'`. */
  ghost predicate OnlyRecord(m: Slots, m': Slots, r: RecordId) {
    forall k: Slot :: !(k.RecordWord? && k.record == r) ==> Load(m', k) == Load(m, k)
  }

  lemma DataWordByte(b: seq<byte>, i: nat, x: nat)
    requires x < 32 && i * 32 + x < |b|
    ensures DataWord(b, i)[x] == b[i * 32 + x]
  {
  }

  lemma SpelledByte(m: Slots, r: RecordId, b: seq<byte>, j: nat)
    requires Spells(m, r, b) && j < |b|
    ensures StoredByte(m, r, j) == b[j]
  {
    var i := j / 32;
    assert j == i * 32 + j % 32 && i < WordCount(|b|);
    assert Load(m, RecordWord(r, i + 1)) == DataWords(b)[i] == DataWord(b, i);
    DataWordByte(b, i, j % 32);
  }

  /** Whatever longer value the record held before, a reader sees exactly the value spelled now. */
  lemma SpelledIsStored(m: Slots, r: RecordId, b: seq<byte>)
    requires |b| < U64 && Spells(m, r, b)
    ensures Stored(m, r) == Visible(b)
  {
    U64WordRoundTrip(|b|);
    if 1 <= |b| <= MAX_INT32 {
      hide StoredByte, Spells;
      forall j: nat | j < |b|
        ensures StoredByte(m, r, j) == b[j]
      {
        SpelledByte(m, r, b, j);
      }
      assert Stored(m, r).value == b;
    }
  }

  /** A record none of whose words changed reads as before. */
  lemma StoredFrame(m: Slots, m': Slots, r: RecordId)
    requires forall w: nat :: Load(m', RecordWord(r, w)) == Load(m, RecordWord(r, w))
    ensures Stored(m', r) == Stored(m, r)
  {
    assert Load(m', RecordWord(r, 0)) == Load(m, RecordWord(r, 0));
    if Stored(m, r).Some? {
      forall j: nat
        ensures StoredByte(m', r, j) == StoredByte(m, r, j)
      {
        assert Load(m', RecordWord(r, j / 32 + 1)) == Load(m, RecordWord(r, j / 32 + 1));
      }
      assert Stored(m', r).value == Stored(m, r).value;
    }
  }

  /** A write to one record is invisible at every other record. */
  lemma OtherRecordUnchanged(m: Slots, m': Slots, r: RecordId, other: RecordId)
    requires OnlyRecord(m, m', r) && r != other
    ensures Stored(m', other) == Stored(m, other)
  {
    StoredFrame(m, m', other);
  }

  /** Writing the length starts a record, and touches no other. */
  lemma LengthWritten(m: Slots, r: RecordId, n: nat)
    ensures var m' := m[RecordWord(r, 0) := U64Word(n)]; Holds(m', r, n, []) && OnlyRecord(m, m', r)
  {
  }

  /** Writing the next word extends what the record holds and touches no other record. */
  lemma WordWritten(before: Slots, m: Slots, r: RecordId, n: nat, words: seq<Word>, w: Word)
    requires Holds(m, r, n, words) && OnlyRecord(before, m, r)
    ensures var m' := m[RecordWord(r, |words| + 1) := w]; Holds(m', r, n, words + [w]) && OnlyRecord(before, m', r)
  {
  }

  class Storage {
    var slots: Slots

    constructor ()
      ensures slots == map[]
    {
      slots := map[];
    }

    function GetState(k: Slot): Word
      reads this
    {
      Load(slots, k)
    }

    method SetState(k: Slot, w: Word)
      modifies this
      ensures slots == old(slots)[k := w]
    {
      slots := slots[k := w];
    }

    /** Length word first, then the data words in order; stale words of a longer value stay. */
    method WriteBytes(r: RecordId, b: seq<byte>)
      requires |b| < U64 / 2
      modifies this
      ensures Spells(slots, r, b)
      ensures OnlyRecord(old(slots), slots, r)
    {
      hide Holds, OnlyRecord;
      LengthWritten(slots, r, |b|);
      SetState(RecordWord(r, 0), U64Word(|b|));
      var i := 0;
      while i * 32 < |b|
        invariant 0 <= i <= WordCount(|b|)
        invariant Holds(slots, r, |b|, DataWords(b)[..i])
        invariant OnlyRecord(old(slots), slots, r)
      {
        WordWritten(old(slots), slots, r, |b|, DataWords(b)[..i], DataWord(b, i));
        assert DataWords(b)[..i + 1] == DataWords(b)[..i] + [DataWord(b, i)];
        var end := if (i + 1) * 32 > |b| then |b| else (i + 1) * 32;
        SetState(RecordWord(r, i + 1), b[i * 32..end] + Zeros(32 - (end - i * 32)));
        i := i + 1;
      }
      assert DataWords(b)[..i] == DataWords(b);
    }

    method ReadBytes(r: RecordId) returns (out: Option<seq<byte>>)
      ensures out == Stored(slots, r)
    {
      var n := SlotLen(GetState(RecordWord(r, 0)));
      if n.None? {
        return None;
      }
      var buf: seq<byte> := [];
      var i := 0;
      while i * 32 < n.value
        invariant 0 <= i <= WordCount(n.value)
        invariant |buf| == if i * 32 <= n.value then i * 32 else n.value
        invariant forall j: nat :: j < |buf| ==> buf[j] == StoredByte(slots, r, j)
      {
        var end := if (i + 1) * 32 > n.value then n.value else (i + 1) * 32;
        var w := GetState(RecordWord(r, i + 1));
        forall j: nat | i * 32 <= j < end
          ensures w[j - i * 32] == StoredByte(slots, r, j)
        {
          assert j / 32 == i;
        }
        buf := buf + w[..end - i * 32];
        i := i + 1;
      }
      assert buf == Stored(slots, r).value;
      out := Some(buf);
    }
  }
}
