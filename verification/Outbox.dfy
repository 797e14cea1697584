/** The inference bridge's C-side store: one word per field of an outbox intent, the consumed marks, and
    the committed receipt roots. */
module Outbox {
  import opened Bytes
  import opened InferenceWire
  import opened Merkle

  datatype Tag = Status | Caller | CChain | AChain | Model | Prompt | Fanout | Height

  /** A storage key, by what it is derived from. */
  datatype Slot<+D> = FieldOf(id: D, tag: Tag) | ConsumedMark(id: D) | RootMark(root: D)

  function TagText(t: Tag): (s: string)
    ensures |s| == 2
  {
    match t
    case Status => "st"
    case Caller => "cl"
    case CChain => "cc"
    case AChain => "ac"
    case Model => "ms"
    case Prompt => "pr"
    case Fanout => "nt"
    case Height => "bn"
  }

  /** The byte string a key hashes. */
  function Preimage(k: Slot<Word>): seq<byte> {
    match k
    case FieldOf(id, tag) => Ascii("aivmbridge.v1.outbox") + id + Ascii(TagText(tag))
    case ConsumedMark(id) => Ascii("aivmbridge.v1.consumed") + id
    case RootMark(root) => Ascii("aivmbridge.v1.rcptroot") + root
  }

  lemma TagsDiffer(s: Tag, t: Tag)
    requires Ascii(TagText(s)) == Ascii(TagText(t))
    ensures s == t
  {
    assert Ascii(TagText(s))[0] == Ascii(TagText(t))[0] && Ascii(TagText(s))[1] == Ascii(TagText(t))[1];
  }

  /** Distinct keys hash distinct byte strings. */
  lemma PreimageInjective(k: Slot<Word>, l: Slot<Word>)
    ensures Preimage(k) == Preimage(l) <==> k == l
  {
    var p, q := Preimage(k), Preimage(l);
    assert p[14] == (if k.FieldOf? then 'o' else if k.ConsumedMark? then 'c' else 'r') as int;
    assert q[14] == (if l.FieldOf? then 'o' else if l.ConsumedMark? then 'c' else 'r') as int;
    if p == q {
      if k.FieldOf? {
        assert p[20..52] == k.id && q[20..52] == l.id;
        assert p[52..] == Ascii(TagText(k.tag)) && q[52..] == Ascii(TagText(l.tag));
        TagsDiffer(k.tag, l.tag);
      } else {
        assert p[22..] == if k.ConsumedMark? then k.id else k.root;
        assert q[22..] == if l.ConsumedMark? then l.id else l.root;
      }
    }
  }

  // ----- records -----

  const NONE: byte := 0
  const PENDING: byte := 1
  const CONSUMED: byte := 2

  datatype OutboxIntent = OutboxIntent(
    status: byte, caller: Address, cChainId: Word, aChainId: Word, modelSpecHash: Word, promptHash: Word,
    n: nat, threshold: nat, height: nat)

  const ABSENT: OutboxIntent :=
    OutboxIntent(NONE, Zeros(20), ZERO_WORD, ZERO_WORD, ZERO_WORD, ZERO_WORD, 0, 0, 0)

  type Slots = map<Slot<Digest>, Word>

  function Load(m: Slots, k: Slot<Digest>): Word {
    if k in m then m[k] else ZERO_WORD
  }

  function StatusOf(m: Slots, id: Digest): byte {
    Load(m, FieldOf(id, Status))[31]
  }

  function FanoutWord(n: nat, threshold: nat): Word {
    Zeros(28) + BE(n, 2) + BE(threshold, 2)
  }

  /** The record a reader sees at `id`. */
  function RecordAt(m: Slots, id: Digest): OutboxIntent {
    var status := StatusOf(m, id);
    if status == NONE then ABSENT
    else
      var nt := Load(m, FieldOf(id, Fanout));
      OutboxIntent(status, Load(m, FieldOf(id, Caller))[12..32], Load(m, FieldOf(id, CChain)),
                   Load(m, FieldOf(id, AChain)), Load(m, FieldOf(id, Model)), Load(m, FieldOf(id, Prompt)),
                   FromBE(nt[28..30]), FromBE(nt[30..32]), LowU64(Load(m, FieldOf(id, Height))))
  }

  function RootCommitted(m: Slots, root: Digest): bool {
    root != Raw(ZERO_WORD) && Load(m, RootMark(root)) != ZERO_WORD
  }

  function StatusWord(status: byte): Word {
    Zeros(31) + [status]
  }

  function Put(m: Slots, height: nat, id: Digest, oi: OutboxIntent): Slots {
    m[FieldOf(id, Status) := StatusWord(PENDING)]
     [FieldOf(id, Caller) := Zeros(12) + oi.caller]
     [FieldOf(id, CChain) := oi.cChainId]
     [FieldOf(id, AChain) := oi.aChainId]
     [FieldOf(id, Model) := oi.modelSpecHash]
     [FieldOf(id, Prompt) := oi.promptHash]
     [FieldOf(id, Fanout) := FanoutWord(oi.n, oi.threshold)]
     [FieldOf(id, Height) := U64Word(height)]
  }

  function Consumed(m: Slots, id: Digest, height: nat): Slots {
    m[FieldOf(id, Status) := StatusWord(CONSUMED)][ConsumedMark(id) := U64Word(height + 1)]
  }

  function Committed(m: Slots, root: Digest, height: nat): Slots {
    if root == Raw(ZERO_WORD) then m else m[RootMark(root) := U64Word(height + 1)]
  }

  lemma FanoutReads(n: nat, threshold: nat)
    requires n < U16 && threshold < U16
    ensures FromBE(FanoutWord(n, threshold)[28..30]) == n && FromBE(FanoutWord(n, threshold)[30..32]) == threshold
  {
    var w := FanoutWord(n, threshold);
    assert w[28..30] == BE(n, 2) && w[30..32] == BE(threshold, 2);
    Pow256Values();
    BERoundTrip(n, 2);
    BERoundTrip(threshold, 2);
  }

  /** A put record loads back whole, pending, at the store's own height. */
  lemma PutLoadsBack(m: Slots, height: nat, id: Digest, oi: OutboxIntent)
    requires oi.n < U16 && oi.threshold < U16 && height < U64
    ensures RecordAt(Put(m, height, id, oi), id) == oi.(status := PENDING, height := height)
  {
    hide Put;
    PutWords(m, height, id, oi);
    FanoutReads(oi.n, oi.threshold);
    U64WordRoundTrip(height);
    assert (Zeros(12) + oi.caller)[12..32] == oi.caller;
    assert StatusWord(PENDING)[31] == PENDING;
  }

  /** The eight words of a put record. */
  lemma PutWords(m: Slots, height: nat, id: Digest, oi: OutboxIntent)
    ensures var m' := Put(m, height, id, oi);
            && Load(m', FieldOf(id, Status)) == StatusWord(PENDING)
            && Load(m', FieldOf(id, Caller)) == Zeros(12) + oi.caller
            && Load(m', FieldOf(id, CChain)) == oi.cChainId && Load(m', FieldOf(id, AChain)) == oi.aChainId
            && Load(m', FieldOf(id, Model)) == oi.modelSpecHash && Load(m', FieldOf(id, Prompt)) == oi.promptHash
            && Load(m', FieldOf(id, Fanout)) == FanoutWord(oi.n, oi.threshold)
            && Load(m', FieldOf(id, Height)) == U64Word(height)
  {
  }

  /** The packed words of a record byte for byte: the status last, the caller in the low twenty bytes, then the
      fan-out and threshold in two bytes each, and the height in the low eight. */
  lemma RecordLayout(m: Slots, height: nat, id: Digest, oi: OutboxIntent)
    ensures var m' := Put(m, height, id, oi);
            && m'[FieldOf(id, Status)] == seq(31, i => 0) + [1]
            && m'[FieldOf(id, Caller)] == seq(12, i => 0) + oi.caller
            && m'[FieldOf(id, Fanout)] == seq(28, i => 0) + BE(oi.n, 2) + BE(oi.threshold, 2)
            && m'[FieldOf(id, Height)] == seq(24, i => 0) + BE(height, 8)
            && Consumed(m', id, height)[FieldOf(id, Status)] == seq(31, i => 0) + [2]
  {
    assert forall n: nat :: Zeros(n) == seq(n, i => 0);
  }

  /** Consuming flips the status of a recorded intent and nothing else in its record. */
  lemma ConsumedLoadsBack(m: Slots, id: Digest, height: nat)
    requires StatusOf(m, id) != NONE
    ensures RecordAt(Consumed(m, id, height), id) == RecordAt(m, id).(status := CONSUMED)
  {
  }

  /** An id with no status has no record, whatever its other words hold. */
  lemma NoStatusNoRecord(m: Slots, id: Digest)
    requires StatusOf(m, id) == NONE
    ensures RecordAt(m, id)
            == OutboxIntent(0, Zeros(20), Zeros(32), Zeros(32), Zeros(32), Zeros(32), 0, 0, 0)
  {
  }

  /** The marks are the height after the writer's, in the low eight bytes; each writer touches no other key, and
      the zero root is never marked. */
  lemma MarksAre(m: Slots, id: Digest, root: Digest, height: nat, k: Slot<Digest>)
    ensures Load(Consumed(m, id, height), ConsumedMark(id)) == seq(24, i => 0) + BE(height + 1, 8)
    ensures k != ConsumedMark(id) && k != FieldOf(id, Status) ==> Load(Consumed(m, id, height), k) == Load(m, k)
    ensures root != Raw(seq(32, i => 0)) ==>
              Load(Committed(m, root, height), RootMark(root)) == seq(24, i => 0) + BE(height + 1, 8)
    ensures k != RootMark(root) || root == Raw(seq(32, i => 0)) ==>
              Load(Committed(m, root, height), k) == Load(m, k)
  {
    assert Zeros(24) == seq(24, i => 0) && ZERO_WORD == seq(32, i => 0);
  }

  /** An intent none of whose words changed reads as before. */
  lemma IntentFrame(m: Slots, m': Slots, other: Digest)
    requires forall t: Tag :: Load(m', FieldOf(other, t)) == Load(m, FieldOf(other, t))
    ensures RecordAt(m', other) == RecordAt(m, other)
  {
    assert Load(m', FieldOf(other, Status)) == Load(m, FieldOf(other, Status));
    assert Load(m', FieldOf(other, Caller)) == Load(m, FieldOf(other, Caller));
    assert Load(m', FieldOf(other, CChain)) == Load(m, FieldOf(other, CChain));
    assert Load(m', FieldOf(other, AChain)) == Load(m, FieldOf(other, AChain));
    assert Load(m', FieldOf(other, Model)) == Load(m, FieldOf(other, Model));
    assert Load(m', FieldOf(other, Prompt)) == Load(m, FieldOf(other, Prompt));
    assert Load(m', FieldOf(other, Fanout)) == Load(m, FieldOf(other, Fanout));
    assert Load(m', FieldOf(other, Height)) == Load(m, FieldOf(other, Height));
  }

  /** Writes to one intent show at no other intent and no root. */
  lemma PutFrame(m: Slots, id: Digest, other: Digest, height: nat, oi: OutboxIntent)
    requires other != id
    ensures RecordAt(Put(m, height, id, oi), other) == RecordAt(m, other)
  {
    IntentFrame(m, Put(m, height, id, oi), other);
  }

  lemma ConsumedFrame(m: Slots, id: Digest, other: Digest, height: nat)
    requires other != id
    ensures RecordAt(Consumed(m, id, height), other) == RecordAt(m, other)
  {
    IntentFrame(m, Consumed(m, id, height), other);
  }

  lemma RootsUnchanged(m: Slots, id: Digest, root: Digest, height: nat, oi: OutboxIntent)
    ensures RootCommitted(Put(m, height, id, oi), root) == RootCommitted(m, root)
    ensures RootCommitted(Consumed(m, id, height), root) == RootCommitted(m, root)
  {
  }

  /** The low eight bytes of a height sentinel, which wraps at 64 bits. */
  lemma SentinelReads(height: nat)
    ensures LowU64(U64Word(height + 1)) == (height + 1) % U64
  {
    Pow256Values();
    BETruncates(height + 1, 8);
    assert U64Word(height + 1)[24..32] == BE(height + 1, 8);
  }

  lemma ZeroLow(b: seq<byte>)
    requires |b| == 8 && FromBE(b) == 0
    ensures b == Zeros(8)
  {
    FromBEZeros(8);
    FromBERoundTrip(b);
    FromBERoundTrip(Zeros(8));
  }

  lemma LastSentinelEmpty(w: Word)
    requires w[..24] == Zeros(24) && LowU64(w) == 0
    ensures w == ZERO_WORD
  {
    ZeroLow(w[24..32]);
    assert w == w[..24] + w[24..32];
  }

  lemma SentinelEmptyIff(height: nat)
    requires height < U64
    ensures U64Word(height + 1) == ZERO_WORD <==> height == U64 - 1
  {
    SentinelReads(height);
    LowU64Zero();
    if height == U64 - 1 {
      LastSentinelEmpty(U64Word(height + 1));
    }
  }

  /** Committing a root makes it trusted exactly when it is not the zero root and the height is not the
      last uint64, whose sentinel wraps to the empty word. */
  lemma CommitTrustsIff(m: Slots, root: Digest, height: nat)
    requires height < U64
    ensures RootCommitted(Committed(m, root, height), root) <==> root != Raw(ZERO_WORD) && height != U64 - 1
    ensures forall other: Digest :: other != root ==>
              RootCommitted(Committed(m, root, height), other) == RootCommitted(m, other)
  {
    SentinelEmptyIff(height);
  }

  // ----- the store -----

  class Store {
    var slots: Slots
    const height: nat

    constructor (m: Slots, now: nat)
      ensures slots == m && height == now
    {
      slots, height := m, now;
    }

    function GetState(k: Slot<Digest>): Word
      reads this
    {
      Load(slots, k)
    }

    method SetState(k: Slot<Digest>, w: Word)
      modifies this
      ensures slots == old(slots)[k := w]
    {
      slots := slots[k := w];
    }

    method IntentStatus(id: Digest) returns (status: byte)
      ensures status == StatusOf(slots, id)
    {
      var w := GetState(FieldOf(id, Status));
      status := w[31];
    }

    method PutPendingIntent(id: Digest, oi: OutboxIntent)
      modifies this
      ensures slots == Put(old(slots), height, id, oi)
    {
      SetState(FieldOf(id, Status), Zeros(31) + [PENDING]);
      SetState(FieldOf(id, Caller), Zeros(12) + oi.caller);
      SetState(FieldOf(id, CChain), oi.cChainId);
      SetState(FieldOf(id, AChain), oi.aChainId);
      SetState(FieldOf(id, Model), oi.modelSpecHash);
      SetState(FieldOf(id, Prompt), oi.promptHash);
      SetState(FieldOf(id, Fanout), Zeros(28) + BE(oi.n, 2) + BE(oi.threshold, 2));
      var bn := PutU64(height);
      SetState(FieldOf(id, Height), Zeros(24) + bn);
    }

    method LoadIntent(id: Digest) returns (oi: OutboxIntent)
      ensures oi == RecordAt(slots, id)
    {
      var st := GetState(FieldOf(id, Status));
      if st[31] == NONE { return ABSENT; }
      var caller, nt, bn := GetState(FieldOf(id, Caller)), GetState(FieldOf(id, Fanout)), GetState(FieldOf(id, Height));
      var height := BytesToU64(bn[24..32]);
      oi := OutboxIntent(st[31], caller[12..32], GetState(FieldOf(id, CChain)), GetState(FieldOf(id, AChain)),
                         GetState(FieldOf(id, Model)), GetState(FieldOf(id, Prompt)),
                         FromBE(nt[28..30]), FromBE(nt[30..32]), height);
    }

    method MarkIntentConsumed(id: Digest, blockNumber: nat)
      modifies this
      ensures slots == Consumed(old(slots), id, blockNumber)
    {
      SetState(FieldOf(id, Status), Zeros(31) + [CONSUMED]);
      var v := PutU64(blockNumber + 1);
      SetState(ConsumedMark(id), Zeros(24) + v);
    }

    method ReceiptRootCommitted(root: Digest) returns (ok: bool)
      ensures ok == RootCommitted(slots, root)
    {
      if root == Raw(ZERO_WORD) { return false; }
      ok := GetState(RootMark(root)) != ZERO_WORD;
    }

    method CommitReceiptRoot(root: Digest, committedHeight: nat)
      modifies this
      ensures slots == Committed(old(slots), root, committedHeight)
    {
      if root == Raw(ZERO_WORD) { return; }
      var v := PutU64(committedHeight + 1);
      SetState(RootMark(root), Zeros(24) + v);
    }
  }
}
