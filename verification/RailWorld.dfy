/** Whole runs of the funding rail: nested frames and reverts, block accept and reject, shared
    memory, and a D chain that credits only consumed claims and debits what it exports. */
module RailWorld {
  import opened Bytes
  import opened RailInvariant
  import opened RailState
  import opened Staging
  import opened Sums
  import opened Wire
  import opened Wrappers

  /** D's side: what its accounts own, the C->D claims it has credited, every D->C claim it made. received is
      history: what crediting claims ever brought each account. */
  datatype DChain = DChain(
    owned: map<(Address, Word), nat>, credited: set<Word>, exported: Partition, received: map<(Address, Word), nat>)

  /** accepted: state of the last accepted block. saved: snapshots open inside the block in progress.
      cur: the state right now. delivered: history of all operations applied to shared memory. */
  datatype World = World(
    chain: Word, accepted: Evm, saved: seq<Evm>, cur: Evm,
    sm: SharedMemory, d: DChain, delivered: seq<StagedOp>)

  function ToD(w: World): Partition {
    Part(w.sm.outbound, w.chain)
  }

  function ToC(w: World): Partition {
    Part(w.sm.inbound, w.chain)
  }

  datatype Step =
    | CallStep(c: Call)
    | SnapshotStep
    | RevertStep(depth: nat)
    | CommitStep
    | AcceptStep
    | RejectStep
    | DConsumeStep(id: Word)
    | DTradeStep(owned: map<(Address, Word), nat>)
    | DExportStep(id: Word, account: Address, claim: Claim)

  /** What the block declared beyond its parent. */
  function NewDeclarations(w: World): seq<Declaration> {
    if |w.accepted.declared| <= |w.cur.declared| then w.cur.declared[|w.accepted.declared|..] else []
  }

  /** What the block staged beyond its parent: the flush window. */
  function FlushWindow(w: World): seq<StagedOp> {
    if |w.accepted.staged| <= |w.cur.staged| then w.cur.staged[|w.accepted.staged|..] else []
  }

  /** Block.Verify: every declared consumption is the recorded object, byte for byte. */
  ghost predicate Authentic(ds: seq<Declaration>, toC: Partition) {
    forall i :: 0 <= i < |ds| ==> ds[i].id in toC && toC[ds[i].id] == ds[i].claim
  }

  ghost predicate SameTotals(a: map<(Address, Word), nat>, b: map<(Address, Word), nat>) {
    forall asset: Word :: SumMap(a, HeldWeight(asset)) == SumMap(b, HeldWeight(asset))
  }

  ghost predicate Enabled(w: World, s: Step) {
    match s
    case CallStep(c) => Callable(w.cur, c) && OnChain(c, w.chain)
    case SnapshotStep => true
    case RevertStep(k) => k < |w.saved|
    case CommitStep => w.saved != []
    case AcceptStep => w.saved == [] && Authentic(NewDeclarations(w), ToC(w))
    case RejectStep => true
    case DConsumeStep(id) => id in ToD(w) && DecodeClaim(ToD(w)[id]).Some?
    case DTradeStep(owned) => SameTotals(owned, w.d.owned)
    case DExportStep(id, account, c) =>
      id !in w.d.exported && c.amount < U64 && c.amount <= At(w.d.owned, (account, c.asset))
  }

  function DConsumed(d: DChain, id: Word, c: Claim): DChain {
    var k := (c.beneficiary, c.asset);
    d.(owned := d.owned[k := At(d.owned, k) + c.amount], credited := d.credited + {id},
       received := d.received[k := At(d.received, k) + c.amount])
  }

  function DExported(d: DChain, id: Word, account: Address, c: Claim): DChain
    requires c.amount <= At(d.owned, (account, c.asset))
  {
    var k := (account, c.asset);
    d.(owned := d.owned[k := At(d.owned, k) - c.amount], exported := d.exported[id := EncodeClaim(c)])
  }

  ghost function Next(w: World, s: Step): World
    requires Enabled(w, s)
  {
    match s
    case CallStep(c) => w.(cur := Frame(w.cur, c))
    case SnapshotStep => w.(saved := w.saved + [w.cur])
    case RevertStep(k) => w.(cur := w.saved[k], saved := w.saved[..k])
    case CommitStep => w.(saved := w.saved[..|w.saved| - 1])
    case AcceptStep =>
      w.(accepted := w.cur, sm := ApplyOps(w.sm, FlushWindow(w)), delivered := w.delivered + FlushWindow(w))
    case RejectStep => w.(cur := w.accepted, saved := [])
    case DConsumeStep(id) =>
      w.(d := DConsumed(w.d, id, DecodeClaim(ToD(w)[id]).value),
         sm := w.sm.(outbound := w.sm.outbound[w.chain := ToD(w) - {id}]))
    case DTradeStep(owned) => w.(d := w.d.(owned := owned))
    case DExportStep(id, account, c) =>
      w.(d := DExported(w.d, id, account, c),
         sm := w.sm.(inbound := w.sm.inbound[w.chain := ToC(w)[id := EncodeClaim(c)]]))
  }

  // ----- the invariant -----

  ghost function ObjectWeight(a: Word): (Word, seq<byte>) -> int {
    (k: Word, v: seq<byte>) => AmountIn(v, a)
  }

  ghost function InTransit(p: Partition, a: Word): int {
    SumMap(p, ObjectWeight(a))
  }

  ghost function OwnedTotal(d: DChain, a: Word): int {
    SumMap(d.owned, HeldWeight(a))
  }

  /** Shared memory against the accepted state: the C->D objects are the exports D has not credited. */
  ghost predicate OutboundExact(es: seq<Element>, written: set<Word>, d: DChain, toD: Partition) {
    && d.credited <= written && toD.Keys == written - d.credited
    && forall i :: 0 <= i < |es| && es[i].key in toD ==> toD[es[i].key] == es[i].value
  }

  /** The D->C objects are the D exports C has not consumed; every consumption was of the recorded bytes. */
  ghost predicate InboundExact(ds: seq<Declaration>, consumed: set<Word>, d: DChain, toC: Partition) {
    && toC.Keys == d.exported.Keys - consumed
    && (forall id :: id in toC ==> toC[id] == d.exported[id])
    && forall i :: 0 <= i < |ds| ==> ds[i].id in d.exported && d.exported[ds[i].id] == ds[i].claim
  }

  /** D's books: what it ever received is owned, exported again, or still on its way. */
  ghost predicate DBooks(es: seq<Element>, d: DChain, toD: Partition) {
    forall a: Word :: OwnedTotal(d, a) + InTransit(d.exported, a) + InTransit(toD, a) == PutTotal(es, a)
  }

  /** What D exported is still on its way or was imported by C. */
  ghost predicate CBooks(ds: seq<Declaration>, d: DChain, toC: Partition) {
    forall a: Word :: InTransit(d.exported, a) == InTransit(toC, a) + DeclaredTotal(ds, a)
  }

  ghost predicate Linked(e: Evm, d: DChain, sm: SharedMemory, chain: Word) {
    var toD, toC := Part(sm.outbound, chain), Part(sm.inbound, chain);
    && OutboundExact(PutsFor(e.staged, chain), Marked(e.written), d, toD)
    && InboundExact(e.declared, Marked(e.consumed), d, toC)
    && DBooks(PutsFor(e.staged, chain), d, toD)
    && CBooks(e.declared, d, toC)
  }

  /** A state of the block in progress: locally sound, and built on the accepted state. */
  ghost predicate BuiltOn(e: Evm, base: Evm, chain: Word) {
    Local(e, chain) && base.staged <= e.staged && base.declared <= e.declared
  }

  ghost predicate Inv(w: World) {
    && Local(w.accepted, w.chain)
    && BuiltOn(w.cur, w.accepted, w.chain)
    && (forall i :: 0 <= i < |w.saved| ==> BuiltOn(w.saved[i], w.accepted, w.chain))
    && w.delivered == w.accepted.staged
  }

  /** While every crossing leaves its mark: each id crossed once in every state, and the accepted state, shared
      memory and D's books agree. */
  ghost predicate InStep(w: World) {
    && CrossedOnce(w.accepted, w.chain) && CrossedOnce(w.cur, w.chain)
    && (forall i :: 0 <= i < |w.saved| ==> CrossedOnce(w.saved[i], w.chain))
    && Linked(w.accepted, w.d, w.sm, w.chain)
  }

  // ----- flushing the puts -----

  lemma KeysConcat(a: seq<Element>, b: seq<Element>)
    ensures Keys(a + b) == Keys(a) + Keys(b)
  {
  }

  lemma NoDupSplit(s: seq<Word>, t: seq<Word>)
    requires NoDup(s + t)
    ensures NoDup(s) && NoDup(t) && ToSet(s) !! ToSet(t) && ToSet(s + t) == ToSet(s) + ToSet(t)
  {
    forall i, j | 0 <= i < j < |s|
      ensures s[i] != s[j]
    {
      assert (s + t)[i] == s[i] && (s + t)[j] == s[j];
    }
    forall i, j | 0 <= i < j < |t|
      ensures t[i] != t[j]
    {
      assert (s + t)[|s| + i] == t[i] && (s + t)[|s| + j] == t[j];
    }
    forall i, j | 0 <= i < |s| && 0 <= j < |t|
      ensures s[i] != t[j]
    {
      assert (s + t)[i] == s[i] && (s + t)[|s| + j] == t[j];
    }
  }

  /** New ids only add to the partition: keys, values and totals. */
  lemma {:induction false} PutAllFresh(p: Partition, es: seq<Element>)
    requires NoDup(Keys(es)) && p.Keys !! ToSet(Keys(es))
    ensures PutAll(p, es).Keys == p.Keys + ToSet(Keys(es))
    ensures forall k :: k in p ==> PutAll(p, es)[k] == p[k]
    ensures forall i :: 0 <= i < |es| ==> es[i].key in PutAll(p, es) && PutAll(p, es)[es[i].key] == es[i].value
    ensures forall a: Word :: InTransit(PutAll(p, es), a) == InTransit(p, a) + PutTotal(es, a)
  {
    if es != [] {
      var front, last := es[..|es| - 1], es[|es| - 1];
      assert Keys(es) == Keys(front) + [last.key];
      NoDupSplit(Keys(front), [last.key]);
      assert last.key in ToSet([last.key]);
      PutAllFresh(p, front);
      forall i | 0 <= i < |es| - 1
        ensures es[i].key in PutAll(p, es) && PutAll(p, es)[es[i].key] == es[i].value
      {
        assert front[i] == es[i] && Keys(es)[i] != Keys(es)[|es| - 1];
      }
      forall a: Word
        ensures InTransit(PutAll(p, es), a) == InTransit(p, a) + PutTotal(es, a)
      {
        SumMapInsert(PutAll(p, front), ObjectWeight(a), last.key, last.value);
      }
    }
  }

  lemma {:induction false} PutTotalConcat(x: seq<Element>, y: seq<Element>, a: Word)
    ensures PutTotal(x + y, a) == PutTotal(x, a) + PutTotal(y, a)
  {
    if y == [] {
      assert x + y == x;
    } else {
      PutTotalConcat(x, y[..|y| - 1], a);
      assert (x + y)[..|x + y| - 1] == x + y[..|y| - 1];
    }
  }

  /** Delivering a window's puts keeps the outbound partition exact and D's books balanced. */
  lemma OutboundFlushed(es: seq<Element>, gain: seq<Element>, d: DChain, toD: Partition)
    requires NoDup(Keys(es + gain))
    requires OutboundExact(es, ToSet(Keys(es)), d, toD) && DBooks(es, d, toD)
    ensures OutboundExact(es + gain, ToSet(Keys(es + gain)), d, PutAll(toD, gain))
    ensures DBooks(es + gain, d, PutAll(toD, gain))
  {
    KeysConcat(es, gain);
    NoDupSplit(Keys(es), Keys(gain));
    PutAllFresh(toD, gain);
    forall i | 0 <= i < |es + gain| && (es + gain)[i].key in PutAll(toD, gain)
      ensures PutAll(toD, gain)[(es + gain)[i].key] == (es + gain)[i].value
    {
      if i < |es| {
        assert Keys(es)[i] in ToSet(Keys(es));
      } else {
        assert (es + gain)[i] == gain[i - |es|];
      }
    }
    forall a: Word
      ensures OwnedTotal(d, a) + InTransit(d.exported, a) + InTransit(PutAll(toD, gain), a) == PutTotal(es + gain, a)
    {
      PutTotalConcat(es, gain, a);
    }
  }

  // ----- flushing the removes -----

  lemma {:induction false} DeclaredConcat(x: seq<Declaration>, y: seq<Declaration>, a: Word)
    ensures DeclaredTotal(x + y, a) == DeclaredTotal(x, a) + DeclaredTotal(y, a)
  {
    if y == [] {
      assert x + y == x;
    } else {
      DeclaredConcat(x, y[..|y| - 1], a);
      assert (x + y)[..|x + y| - 1] == x + y[..|y| - 1];
    }
  }

  /** Removing distinct recorded objects takes away exactly what they carry. */
  lemma {:induction false} RemoveAllRecorded(p: Partition, ds: seq<Declaration>)
    requires NoDup(Ids(ds)) && Authentic(ds, p)
    ensures RemoveAll(p, Ids(ds)).Keys == p.Keys - ToSet(Ids(ds))
    ensures forall k :: k in RemoveAll(p, Ids(ds)) ==> RemoveAll(p, Ids(ds))[k] == p[k]
    ensures forall a: Word :: InTransit(p, a) == InTransit(RemoveAll(p, Ids(ds)), a) + DeclaredTotal(ds, a)
  {
    if ds != [] {
      var front, last := ds[..|ds| - 1], ds[|ds| - 1];
      assert Ids(ds) == Ids(front) + [last.id];
      assert Ids(ds)[..|ds| - 1] == Ids(front);
      NoDupSplit(Ids(front), [last.id]);
      assert last.id in ToSet([last.id]);
      RemoveAllRecorded(p, front);
      forall a: Word
        ensures InTransit(p, a) == InTransit(RemoveAll(p, Ids(ds)), a) + DeclaredTotal(ds, a)
      {
        SumMapSplit(RemoveAll(p, Ids(front)), ObjectWeight(a), last.id);
      }
    }
  }

  lemma InboundFlushed(ds: seq<Declaration>, gain: seq<Declaration>, d: DChain, toC: Partition)
    requires NoDup(Ids(ds + gain)) && Authentic(gain, toC)
    requires InboundExact(ds, ToSet(Ids(ds)), d, toC) && CBooks(ds, d, toC)
    ensures InboundExact(ds + gain, ToSet(Ids(ds + gain)), d, RemoveAll(toC, Ids(gain)))
    ensures CBooks(ds + gain, d, RemoveAll(toC, Ids(gain)))
  {
    assert Ids(ds + gain) == Ids(ds) + Ids(gain);
    NoDupSplit(Ids(ds), Ids(gain));
    RemoveAllRecorded(toC, gain);
    forall a: Word
      ensures InTransit(d.exported, a) == InTransit(RemoveAll(toC, Ids(gain)), a) + DeclaredTotal(ds + gain, a)
    {
      DeclaredConcat(ds, gain, a);
    }
  }

  // ----- each step keeps the invariant -----

  lemma IdsConcat(a: seq<Declaration>, b: seq<Declaration>)
    ensures Ids(a + b) == Ids(a) + Ids(b)
  {
  }

  lemma SameTail(a: seq<Word>, x: seq<Word>, b: seq<Word>, y: seq<Word>)
    requires a == b && a + x == b + y
    ensures x == y
  {
    assert (a + x)[|a|..] == x && (b + y)[|b|..] == y;
  }

  lemma AcceptKeepsLinked(w: World)
    requires Inv(w) && InStep(w) && Enabled(w, AcceptStep)
    ensures Linked(w.cur, w.d, ApplyOps(w.sm, FlushWindow(w)), w.chain)
    ensures w.delivered + FlushWindow(w) == w.cur.staged
  {
    hide OutboundExact, InboundExact, DBooks, CBooks, ApplyOps, PutAll, RemoveAll, NoDup;
    var c, base, cur := w.chain, w.accepted, w.cur;
    var window, gain := FlushWindow(w), NewDeclarations(w);
    assert cur.staged == base.staged + window && cur.declared == base.declared + gain;
    ForConcat(base.staged, window, c);
    IdsConcat(base.declared, gain);
    SameTail(RemovesFor(base.staged, c), RemovesFor(window, c), Ids(base.declared), Ids(gain));
    KeysConcat(PutsFor(base.staged, c), PutsFor(window, c));
    GroupingIsFaithful(w.sm, window, c);
    OutboundFlushed(PutsFor(base.staged, c), PutsFor(window, c), w.d, ToD(w));
    InboundFlushed(base.declared, gain, w.d, ToC(w));
  }

  lemma OwnedMoves(d: DChain, k: (Address, Word), now: nat, a: Word)
    ensures OwnedTotal(d.(owned := d.owned[k := now]), a)
            == OwnedTotal(d, a) + if k.1 == a then now - At(d.owned, k) else 0
  {
    SumMapInsert<(Address, Word), nat>(d.owned, HeldWeight(a), k, now);
  }

  /** Crediting a claim moves its amount from transit into D's accounts. */
  lemma DConsumeBalances(d: DChain, toD: Partition, id: Word, c: Claim, a: Word)
    requires id in toD && DecodeClaim(toD[id]) == Some(c)
    ensures OwnedTotal(DConsumed(d, id, c), a) + InTransit(toD - {id}, a) == OwnedTotal(d, a) + InTransit(toD, a)
  {
    var k := (c.beneficiary, c.asset);
    OwnedMoves(d, k, At(d.owned, k) + c.amount, a);
    SumMapSplit(toD, ObjectWeight(a), id);
  }

  lemma DConsumeKeepsLinked(e: Evm, d: DChain, sm: SharedMemory, chain: Word, id: Word, c: Claim)
    requires Linked(e, d, sm, chain) && id in Part(sm.outbound, chain)
    requires DecodeClaim(Part(sm.outbound, chain)[id]) == Some(c)
    ensures Linked(e, DConsumed(d, id, c),
                   sm.(outbound := sm.outbound[chain := Part(sm.outbound, chain) - {id}]), chain)
  {
    var toD := Part(sm.outbound, chain);
    forall a: Word
      ensures OwnedTotal(DConsumed(d, id, c), a) + InTransit(d.exported, a) + InTransit(toD - {id}, a)
              == PutTotal(PutsFor(e.staged, chain), a)
    {
      DConsumeBalances(d, toD, id, c, a);
    }
  }

  /** Exporting debits D's account by what the new object carries. */
  lemma DExportBalances(d: DChain, toC: Partition, id: Word, account: Address, c: Claim, a: Word)
    requires id !in d.exported && id !in toC && c.amount < U64 && c.amount <= At(d.owned, (account, c.asset))
    ensures var d' := DExported(d, id, account, c);
            && OwnedTotal(d', a) + InTransit(d'.exported, a) == OwnedTotal(d, a) + InTransit(d.exported, a)
            && InTransit(d'.exported, a) - InTransit(d.exported, a)
               == InTransit(toC[id := EncodeClaim(c)], a) - InTransit(toC, a)
  {
    var k := (account, c.asset);
    ClaimRoundTrip(c);
    OwnedMoves(d, k, At(d.owned, k) - c.amount, a);
    SumMapInsert(d.exported, ObjectWeight(a), id, EncodeClaim(c));
    SumMapInsert(toC, ObjectWeight(a), id, EncodeClaim(c));
  }

  /** An id D never exported is an id C never consumed. */
  lemma ConsumedWasExported(ds: seq<Declaration>, d: DChain, toC: Partition, id: Word)
    requires InboundExact(ds, ToSet(Ids(ds)), d, toC) && id in ToSet(Ids(ds))
    ensures id in d.exported
  {
    var i :| 0 <= i < |ds| && Ids(ds)[i] == id;
    assert ds[i].id in d.exported;
  }

  lemma DExportKeepsLinked(e: Evm, d: DChain, sm: SharedMemory, chain: Word, id: Word, account: Address, c: Claim)
    requires Linked(e, d, sm, chain) && CrossedOnce(e, chain)
    requires id !in d.exported && c.amount < U64 && c.amount <= At(d.owned, (account, c.asset))
    ensures Linked(e, DExported(d, id, account, c),
                   sm.(inbound := sm.inbound[chain := Part(sm.inbound, chain)[id := EncodeClaim(c)]]), chain)
  {
    var toC := Part(sm.inbound, chain);
    var d' := DExported(d, id, account, c);
    if id in Marked(e.consumed) {
      ConsumedWasExported(e.declared, d, toC, id);
    }
    forall a: Word
      ensures OwnedTotal(d', a) + InTransit(d'.exported, a) == OwnedTotal(d, a) + InTransit(d.exported, a)
      ensures InTransit(d'.exported, a) == InTransit(toC[id := EncodeClaim(c)], a) + DeclaredTotal(e.declared, a)
    {
      DExportBalances(d, toC, id, account, c, a);
    }
  }

  /** Every step keeps the pots' books, the payments on record, and the accepted log as what was delivered. */
  lemma StepKeepsInv(w: World, s: Step)
    requires Inv(w) && Enabled(w, s)
    ensures Inv(Next(w, s))
  {
    if s.CallStep? {
      FrameKeepsLocal(w.cur, s.c, w.chain);
    }
  }

  /** A call of the run that took effect. */
  predicate TookEffect(w: World, s: Step) {
    s.CallStep? && Callable(w.cur, s.c) && Refusal(w.cur, s.c).None?
  }

  /** Every step that takes effect and leaves its mark keeps the three stores in agreement. */
  lemma StepKeepsInStep(w: World, s: Step)
    requires Inv(w) && InStep(w) && Enabled(w, s)
    requires TookEffect(w, s) ==> LeavesMark(s.c)
    ensures InStep(Next(w, s))
  {
    match s
    case CallStep(c) =>
      if TookEffect(w, s) {
        CrossedOnceIff(w.cur, c, w.chain);
      }
    case AcceptStep => AcceptKeepsLinked(w);
    case DConsumeStep(id) =>
      DConsumeKeepsLinked(w.accepted, w.d, w.sm, w.chain, id, DecodeClaim(ToD(w)[id]).value);
    case DExportStep(id, account, c) => DExportKeepsLinked(w.accepted, w.d, w.sm, w.chain, id, account, c);
    case DTradeStep(owned) =>
      assert forall a: Word :: OwnedTotal(Next(w, s).d, a) == OwnedTotal(w.d, a);
    case _ =>
  }

  // ----- reachable states -----

  /** Genesis: the vault is empty, nothing has crossed, D owns nothing. */
  ghost predicate Genesis(w: World) {
    && w.accepted == w.cur && w.saved == [] && w.delivered == []
    && w.cur == Untouched(w.cur.balance)
    && w.d == DChain(map[], {}, map[], map[])
    && ToD(w) == map[] && ToC(w) == map[]
  }

  /** A run: worlds linked by enabled steps, from genesis. */
  ghost predicate IsRun(ws: seq<World>, steps: seq<Step>) {
    && |ws| == |steps| + 1 && Genesis(ws[0])
    && forall i :: 0 <= i < |steps| ==> Enabled(ws[i], steps[i]) && ws[i + 1] == Next(ws[i], steps[i])
  }

  lemma GenesisInv(w: World)
    requires Genesis(w)
    ensures Inv(w) && InStep(w)
  {
    assert Marked(map[]) == {};
  }

  /** The invariant holds in every world of every run. */
  lemma {:induction false} RunKeepsInv(ws: seq<World>, steps: seq<Step>, n: nat)
    requires IsRun(ws, steps) && n < |ws|
    ensures Inv(ws[n])
  {
    if n == 0 {
      GenesisInv(ws[0]);
    } else {
      RunKeepsInv(ws, steps, n - 1);
      StepKeepsInv(ws[n - 1], steps[n - 1]);
    }
  }

  /** The first `n` steps made no crossing at the last uint64 height. */
  predicate AllMarked(ws: seq<World>, steps: seq<Step>, n: nat)
    requires n <= |steps| && n <= |ws|
  {
    forall i :: 0 <= i < n && TookEffect(ws[i], steps[i]) ==> LeavesMark(steps[i].c)
  }

  /** The three stores agree in every world up to which every crossing left its mark. */
  lemma {:induction false} RunStaysInStep(ws: seq<World>, steps: seq<Step>, n: nat)
    requires IsRun(ws, steps) && n < |ws| && AllMarked(ws, steps, n)
    ensures Inv(ws[n]) && InStep(ws[n])
  {
    RunKeepsInv(ws, steps, n);
    if n == 0 {
      GenesisInv(ws[0]);
    } else {
      RunStaysInStep(ws, steps, n - 1);
      StepKeepsInStep(ws[n - 1], steps[n - 1]);
    }
  }

  /** Every id has crossed once and is marked, in every state of a run, if and only if no crossing that took effect
      was at the last uint64 height. */
  lemma {:induction false} CrossedOnceThroughoutIff(ws: seq<World>, steps: seq<Step>, n: nat)
    requires IsRun(ws, steps) && n < |ws|
    ensures (forall i :: 0 <= i <= n ==> CrossedOnce(ws[i].cur, ws[i].chain)) <==> AllMarked(ws, steps, n)
  {
    if forall i :: 0 <= i <= n ==> CrossedOnce(ws[i].cur, ws[i].chain) {
      forall i | 0 <= i < n && TookEffect(ws[i], steps[i])
        ensures LeavesMark(steps[i].c)
      {
        assert ws[i + 1] == Next(ws[i], steps[i]);
        CrossedOnceIff(ws[i].cur, steps[i].c, ws[i].chain);
      }
    }
    if AllMarked(ws, steps, n) {
      forall i | 0 <= i <= n
        ensures CrossedOnce(ws[i].cur, ws[i].chain)
      {
        RunStaysInStep(ws, steps, i);
      }
    }
  }

  // ----- the rail's promises, in every world of every run -----

  /** What the documentation writes as custody = seed + exported - imported, told by where the value
      is: at each accepted block custody is the operator's seed, everything D's accounts own, and
      everything still in transit in either direction. */
  lemma CustodyIsSeedPlusDValue(ws: seq<World>, steps: seq<Step>, n: nat, a: Word)
    requires IsRun(ws, steps) && n < |ws| && AllMarked(ws, steps, n)
    ensures var w := ws[n];
            At(w.accepted.custody, a)
            == At(w.accepted.seeded, a) + OwnedTotal(w.d, a) + InTransit(ToD(w), a) + InTransit(ToC(w), a)
  {
    RunStaysInStep(ws, steps, n);
    var w := ws[n];
    assert At(w.accepted.custody, a) + DeclaredTotal(w.accepted.declared, a)
           == At(w.accepted.seeded, a) + PutTotal(PutsFor(w.accepted.staged, w.chain), a);
    assert OwnedTotal(w.d, a) + InTransit(w.d.exported, a) + InTransit(ToD(w), a)
           == PutTotal(PutsFor(w.accepted.staged, w.chain), a);
    assert InTransit(w.d.exported, a) == InTransit(ToC(w), a) + DeclaredTotal(w.accepted.declared, a);
  }

  /** In every state, pending ones included, the depositor pot is the sum of the depositors' claims. */
  lemma DepositorPotIsClaims(ws: seq<World>, steps: seq<Step>, n: nat, a: Word)
    requires IsRun(ws, steps) && n < |ws|
    ensures At(ws[n].cur.settleVault, a) == SumMap(ws[n].cur.claims, HeldWeight(a))
  {
    RunKeepsInv(ws, steps, n);
  }

  // ----- the vault against its pots, along runs -----

  ghost predicate AllBalanced(w: World) {
    Balanced(w.accepted) && Balanced(w.cur) && forall i :: 0 <= i < |w.saved| ==> Balanced(w.saved[i])
  }

  lemma StepKeepsBalanced(w: World, s: Step)
    requires Enabled(w, s) && AllBalanced(w)
    requires TookEffect(w, s) ==> KeepsIdentity(w.cur, s.c)
    ensures AllBalanced(Next(w, s))
  {
    if TookEffect(w, s) {
      BalancedIff(w.cur, s.c);
    }
  }

  lemma {:induction false} RunKeepsBalanced(ws: seq<World>, steps: seq<Step>, n: nat)
    requires IsRun(ws, steps) && n < |ws|
    requires forall t: Token :: Holding(ws[0].cur, t) == 0
    requires forall i :: 0 <= i < n && TookEffect(ws[i], steps[i]) ==> KeepsIdentity(ws[i].cur, steps[i].c)
    ensures AllBalanced(ws[n])
  {
    if n > 0 {
      RunKeepsBalanced(ws, steps, n - 1);
      StepKeepsBalanced(ws[n - 1], steps[n - 1]);
    }
  }

  /** THE VAULT-ACCOUNT IDENTITY: through every state of a run the vault holds of each token its depositor pot
      plus its custody, if and only if it started empty and every call that took effect keeps the identity. */
  lemma {:induction false} VaultIdentity(ws: seq<World>, steps: seq<Step>, n: nat)
    requires IsRun(ws, steps) && n < |ws|
    ensures (forall i :: 0 <= i <= n ==> Balanced(ws[i].cur))
            <==> (forall t: Token :: Holding(ws[0].cur, t) == 0)
                 && (forall i :: 0 <= i < n && TookEffect(ws[i], steps[i]) ==> KeepsIdentity(ws[i].cur, steps[i].c))
  {
    assert Balanced(ws[0].cur) <==> forall t: Token :: Holding(ws[0].cur, t) == 0 by {
      assert forall t: Token :: Surplus(ws[0].cur, t) == Holding(ws[0].cur, t);
    }
    if forall i :: 0 <= i <= n ==> Balanced(ws[i].cur) {
      forall i | 0 <= i < n && TookEffect(ws[i], steps[i])
        ensures KeepsIdentity(ws[i].cur, steps[i].c)
      {
        assert ws[i + 1].cur == Frame(ws[i].cur, steps[i].c);
        BalancedIff(ws[i].cur, steps[i].c);
      }
    }
    if (forall t: Token :: Holding(ws[0].cur, t) == 0)
       && (forall i :: 0 <= i < n && TookEffect(ws[i], steps[i]) ==> KeepsIdentity(ws[i].cur, steps[i].c)) {
      forall i | 0 <= i <= n
        ensures Balanced(ws[i].cur)
      {
        RunKeepsBalanced(ws, steps, i);
      }
    }
  }

  ghost predicate AllCovered(w: World) {
    PotsCovered(w.accepted) && PotsCovered(w.cur) && forall i :: 0 <= i < |w.saved| ==> PotsCovered(w.saved[i])
  }

  lemma StepKeepsCovered(w: World, s: Step)
    requires Enabled(w, s) && AllCovered(w) && (TookEffect(w, s) ==> KeepsCover(w.cur, s.c))
    ensures AllCovered(Next(w, s))
  {
    hide PotsCovered;
    if TookEffect(w, s) {
      CoveredIff(w.cur, s.c);
    }
  }

  lemma {:induction false} RunKeepsCovered(ws: seq<World>, steps: seq<Step>, n: nat)
    requires IsRun(ws, steps) && n < |ws|
    requires forall i :: 0 <= i < n && TookEffect(ws[i], steps[i]) ==> KeepsCover(ws[i].cur, steps[i].c)
    ensures AllCovered(ws[n])
  {
    if n > 0 {
      RunKeepsCovered(ws, steps, n - 1);
      StepKeepsCovered(ws[n - 1], steps[n - 1]);
    }
  }

  /** Through every state of a run the vault holds both pots of every token, if and only if every call that
      took effect keeps them covered. */
  lemma {:induction false} PotsCoveredIff(ws: seq<World>, steps: seq<Step>, n: nat)
    requires IsRun(ws, steps) && n < |ws|
    ensures (forall i :: 0 <= i <= n ==> PotsCovered(ws[i].cur))
            <==> (forall i :: 0 <= i < n && TookEffect(ws[i], steps[i]) ==> KeepsCover(ws[i].cur, steps[i].c))
  {
    if forall i :: 0 <= i <= n ==> PotsCovered(ws[i].cur) {
      forall i | 0 <= i < n && TookEffect(ws[i], steps[i])
        ensures KeepsCover(ws[i].cur, steps[i].c)
      {
        assert ws[i + 1].cur == Frame(ws[i].cur, steps[i].c);
        CoveredIff(ws[i].cur, steps[i].c);
      }
    }
    if forall i :: 0 <= i < n && TookEffect(ws[i], steps[i]) ==> KeepsCover(ws[i].cur, steps[i].c) {
      forall i | 0 <= i <= n
        ensures PotsCovered(ws[i].cur)
      {
        RunKeepsCovered(ws, steps, i);
      }
    }
  }

  ghost predicate AllCanonical(w: World) {
    CustodyCanonical(w.accepted) && CustodyCanonical(w.cur)
    && forall i :: 0 <= i < |w.saved| ==> CustodyCanonical(w.saved[i])
  }

  /** The exports so far name the tokens of their assets, as both entry points do. */
  predicate AllNamed(steps: seq<Step>, n: nat)
    requires n <= |steps|
  {
    forall i :: 0 <= i < n && steps[i].CallStep? ==> NamesItsToken(steps[i].c)
  }

  lemma StepKeepsCanonical(w: World, s: Step)
    requires Enabled(w, s) && AllCanonical(w) && (s.CallStep? ==> NamesItsToken(s.c))
    ensures AllCanonical(Next(w, s))
  {
    hide CustodyCanonical;
    if s.CallStep? {
      NamedCallsCover(w.cur, s.c);
    }
  }

  lemma {:induction false} NamedRunIsCanonical(ws: seq<World>, steps: seq<Step>, n: nat)
    requires IsRun(ws, steps) && n < |ws| && AllNamed(steps, n)
    ensures AllCanonical(ws[n])
  {
    hide Next, Enabled;
    if n > 0 {
      NamedRunIsCanonical(ws, steps, n - 1);
      StepKeepsCanonical(ws[n - 1], steps[n - 1]);
    }
  }

  /** So the vault always covers both pots of every token when the exports name their tokens, and no pot can
      ever pay for the other. */
  lemma {:induction false} VaultCoversBothPots(ws: seq<World>, steps: seq<Step>, n: nat, t: Token)
    requires IsRun(ws, steps) && n < |ws| && AllNamed(steps, n)
    ensures Holding(ws[n].cur, t) >= At(ws[n].cur.settleVault, AssetID(t)) + At(ws[n].cur.custody, AssetID(t))
  {
    forall i | 0 <= i < n && TookEffect(ws[i], steps[i])
      ensures KeepsCover(ws[i].cur, steps[i].c)
    {
      NamedRunIsCanonical(ws, steps, i);
      NamedCallsCover(ws[i].cur, steps[i].c);
    }
    RunKeepsCovered(ws, steps, n);
    assert Surplus(ws[n].cur, t) >= 0;
  }

  // ----- a recorded claim is always backed -----

  lemma {:induction false} PrefixTotal(xs: seq<Element>, ys: seq<Element>, a: Word)
    requires xs <= ys
    ensures PutTotal(xs, a) <= PutTotal(ys, a)
  {
    PutTotalConcat(xs, ys[|xs|..], a);
    assert ys == xs + ys[|xs|..];
  }

  /** The block's consumptions so far and one more recorded object together carry no more than shared
      memory holds. */
  lemma RoomForOneMore(w: World, id: Word, a: Word)
    requires Inv(w) && InStep(w) && id in ToC(w) && id !in Marked(w.cur.consumed) && Authentic(NewDeclarations(w), ToC(w))
    ensures DeclaredTotal(NewDeclarations(w), a) + AmountIn(ToC(w)[id], a) <= InTransit(ToC(w), a)
  {
    hide InboundExact, OutboundExact, DBooks, CBooks, Local, InTransit;
    var base, gain := w.accepted.declared, NewDeclarations(w);
    assert w.cur.declared == base + gain;
    IdsConcat(base, gain);
    NoDupSplit(Ids(base), Ids(gain));
    OneMoreRecorded(ToC(w), gain, Declaration(id, ToC(w)[id]), a);
  }

  lemma OneMoreRecorded(p: Partition, gain: seq<Declaration>, d: Declaration, a: Word)
    requires NoDup(Ids(gain)) && Authentic(gain, p) && d.id !in ToSet(Ids(gain)) && d.id in p && p[d.id] == d.claim
    ensures DeclaredTotal(gain, a) + AmountIn(d.claim, a) <= InTransit(p, a)
  {
    IdsConcat(gain, [d]);
    assert Ids([d]) == [d.id];
    NoDupAppend(Ids(gain), d.id);
    RemoveAllRecorded(p, gain + [d]);
    SumMapNonNegative(RemoveAll(p, Ids(gain + [d])), ObjectWeight(a));
    assert (gain + [d])[..|gain|] == gain;
  }

  /** What the pending state exported covers all D ever exported to C. */
  lemma ExportsCoverDExports(w: World, a: Word)
    requires Inv(w) && InStep(w)
    ensures InTransit(w.d.exported, a) <= PutTotal(PutsFor(w.cur.staged, w.chain), a)
  {
    assert w.cur.staged == w.accepted.staged + FlushWindow(w);
    ForConcat(w.accepted.staged, FlushWindow(w), w.chain);
    PrefixTotal(PutsFor(w.accepted.staged, w.chain), PutsFor(w.cur.staged, w.chain), a);
    SumMapNonNegative(w.d.owned, HeldWeight(a));
    SumMapNonNegative(ToD(w), ObjectWeight(a));
    assert OwnedTotal(w.d, a) + InTransit(w.d.exported, a) + InTransit(ToD(w), a)
           == PutTotal(PutsFor(w.accepted.staged, w.chain), a);
  }

  /** In a block whose consumptions so far are authentic, custody covers any recorded D->C object the
      block has not consumed yet. */
  lemma RecordedClaimBacked(w: World, id: Word)
    requires Inv(w) && InStep(w) && id in ToC(w) && id !in Marked(w.cur.consumed) && DecodeClaim(ToC(w)[id]).Some?
    requires Authentic(NewDeclarations(w), ToC(w))
    ensures var c := DecodeClaim(ToC(w)[id]).value; At(w.cur.custody, c.asset) >= c.amount
  {
    var a := DecodeClaim(ToC(w)[id]).value.asset;
    RoomForOneMore(w, id, a);
    ExportsCoverDExports(w, a);
    ConsumedSoFar(w, a);
    assert At(w.cur.custody, a) + DeclaredTotal(w.cur.declared, a)
           == At(w.cur.seeded, a) + PutTotal(PutsFor(w.cur.staged, w.chain), a);
  }

  lemma ConsumedSoFar(w: World, a: Word)
    requires Inv(w) && InStep(w)
    ensures DeclaredTotal(w.cur.declared, a) + InTransit(ToC(w), a)
            == InTransit(w.d.exported, a) + DeclaredTotal(NewDeclarations(w), a)
  {
    hide OutboundExact, InboundExact, DBooks, Local, CrossedOnce, DeclaredTotal, InTransit;
    assert w.cur.declared == w.accepted.declared + NewDeclarations(w);
    DeclaredConcat(w.accepted.declared, NewDeclarations(w), a);
    assert InTransit(w.d.exported, a) == InTransit(ToC(w), a) + DeclaredTotal(w.accepted.declared, a);
  }

  /** The Import of a recorded claim, on an open rail and in its own terms, is never refused by the rail: of a
      native asset it succeeds, of an ERC-20 it fails only if the token itself refuses the transfer. */
  lemma RecordedImportSucceeds(ws: seq<World>, steps: seq<Step>, n: nat, ctx: Ctx, c: ClaimArg, push: Push)
    requires IsRun(ws, steps) && n < |ws| && AllMarked(ws, steps, n) && AllNamed(steps, n)
    requires Authentic(NewDeclarations(ws[n]), ToC(ws[n]))
    requires c.id in ToC(ws[n]) && ToC(ws[n])[c.id] == c.claim
    ensures ImportRefusal(ws[n].cur, ctx, c, push) != Some(CustodyUnbacked)
    ensures var rec := DecodeClaim(c.claim);
            rec.Some? && rec.value == Claim(c.beneficiary, c.asset, rec.value.amount) && rec.value.amount > 0
            && c.id !in Marked(ws[n].cur.consumed) && ctx.memory && ctx.dChain != NO_CHAIN
            ==> ImportRefusal(ws[n].cur, ctx, c, push)
                == if c.asset != NATIVE_ASSET && push.PushRefused? then Some(ERC20TransferFailed) else None
  {
    hide Inv, InStep, AllCanonical, CustodyCanonical, Authentic, Marked, CreditRefusal, DecodeClaim;
    RunStaysInStep(ws, steps, n);
    var w := ws[n];
    if DecodeClaim(c.claim).Some? && c.id !in Marked(w.cur.consumed) {
      var rec := DecodeClaim(c.claim).value;
      RecordedClaimBacked(w, c.id);
      NamedRunIsCanonical(ws, steps, n);
      CanonicalNow(w);
      VaultCoversBothPots(ws, steps, n, AssetAddress(rec.asset));
      BackedIsPaid(w.cur, rec, push);
    }
  }

  lemma CanonicalNow(w: World)
    requires AllCanonical(w)
    ensures CustodyCanonical(w.cur)
  {
  }

  /** A claim custody covers, of a real asset the vault covers, is paid unless its token refuses. */
  lemma BackedIsPaid(e: Evm, rec: Claim, push: Push)
    requires CustodyCanonical(e) && At(e.custody, rec.asset) >= rec.amount
    requires Holding(e, AssetAddress(rec.asset)) >= At(e.custody, AssetID(AssetAddress(rec.asset)))
    ensures rec.amount > 0 ==>
              CreditRefusal(e.custody, e.balance, rec, push)
              == if rec.asset != NATIVE_ASSET && push.PushRefused? then Some(ERC20TransferFailed) else None
  {
    AssetIDRoundTrip(NATIVE, NATIVE_ASSET);
    assert Canonical(rec.asset) || At(e.custody, rec.asset) == 0;
  }

  // ----- exactly once -----

  /** At each accepted block: every C->D claim id was exported once, every D->C id imported once, each
      import was of the very bytes D recorded, and shared memory has received exactly the accepted log. */
  lemma CrossedExactlyOnce(ws: seq<World>, steps: seq<Step>, n: nat)
    requires IsRun(ws, steps) && n < |ws| && AllMarked(ws, steps, n)
    ensures var w := ws[n];
            && NoDup(Keys(PutsFor(w.accepted.staged, w.chain)))
            && NoDup(Ids(w.accepted.declared))
            && (forall i :: 0 <= i < |w.accepted.declared| ==>
                  && w.accepted.declared[i].id in w.d.exported
                  && w.accepted.declared[i].claim == w.d.exported[w.accepted.declared[i].id])
            && w.delivered == w.accepted.staged
  {
    RunStaysInStep(ws, steps, n);
  }

  ghost function NamedWeight(payee: Address, a: Word): (Word, seq<byte>) -> int {
    (k: Word, v: seq<byte>) => AmountTo(v, payee, a)
  }

  lemma AuthenticWithin(all: Partition, p: Partition, ds: seq<Declaration>)
    requires Authentic(ds, all) && ToSet(Ids(ds)) <= p.Keys && forall k :: k in p ==> k in all && p[k] == all[k]
    ensures Authentic(ds, p)
  {
    forall i | 0 <= i < |ds|
      ensures ds[i].id in p && p[ds[i].id] == ds[i].claim
    {
      assert Ids(ds)[i] in ToSet(Ids(ds));
    }
  }

  /** Objects recorded once each carry together what the declarations of them say. */
  lemma {:induction false} DeclaredOnce(p: Partition, ds: seq<Declaration>, payee: Address, a: Word)
    requires NoDup(Ids(ds)) && Authentic(ds, p) && p.Keys == ToSet(Ids(ds))
    ensures SumMap(p, NamedWeight(payee, a)) == DeclaredTo(ds, payee, a)
    ensures InTransit(p, a) == DeclaredTotal(ds, a)
  {
    if ds != [] {
      var front, last := ds[..|ds| - 1], ds[|ds| - 1];
      assert Ids(ds) == Ids(front) + [last.id];
      NoDupSplit(Ids(front), [last.id]);
      assert last.id in ToSet([last.id]);
      SumMapSplit(p, NamedWeight(payee, a), last.id);
      SumMapSplit(p, ObjectWeight(a), last.id);
      AuthenticWithin(p, p - {last.id}, front);
      DeclaredOnce(p - {last.id}, front, payee, a);
    }
  }

  /** In every state, pending ones included, what C ever paid `payee` of an asset is what the consumed claims naming
      both carry. */
  lemma PaymentsAreOnRecord(ws: seq<World>, steps: seq<Step>, n: nat, payee: Address, a: Word)
    requires IsRun(ws, steps) && n < |ws|
    ensures At(ws[n].cur.paid, (payee, a)) == DeclaredTo(ws[n].cur.declared, payee, a)
    ensures SumMap(ws[n].cur.paid, HeldWeight(a)) == DeclaredTotal(ws[n].cur.declared, a)
  {
    RunKeepsInv(ws, steps, n);
  }

  /** What C ever paid `payee` of an asset, and paid of it to anyone, is what the distinct D exports it has
      consumed name: the exports less those still in transit. */
  lemma PaidIsConsumedExports(ws: seq<World>, steps: seq<Step>, n: nat, payee: Address, a: Word)
    requires IsRun(ws, steps) && n < |ws| && AllMarked(ws, steps, n)
    ensures var w := ws[n];
            && At(w.accepted.paid, (payee, a)) == SumMap(w.d.exported - ToC(w).Keys, NamedWeight(payee, a))
            && SumMap(w.accepted.paid, HeldWeight(a)) == InTransit(w.d.exported - ToC(w).Keys, a)
  {
    RunStaysInStep(ws, steps, n);
    var w := ws[n];
    var ds, gone := w.accepted.declared, w.d.exported - ToC(w).Keys;
    assert gone.Keys == ToSet(Ids(ds)) by {
      forall x | x in ToSet(Ids(ds))
        ensures x in w.d.exported
      {
        ConsumedWasExported(ds, w.d, ToC(w), x);
      }
    }
    AuthenticWithin(w.d.exported, gone, ds);
    DeclaredOnce(gone, ds, payee, a);
  }

  /** A paid import: the recorded beneficiary's balance of the recorded asset's token grows by exactly
      what the transfer delivered, the vault's falls by the recorded amount, no other balance moves. */
  lemma ImportPaysTheBeneficiary(e: Evm, ctx: Ctx, c: ClaimArg, push: Push)
    requires ImportRefusal(e, ctx, c, push).None? && DecodeClaim(c.claim).value.beneficiary != VAULT
    ensures var rec, e' := DecodeClaim(c.claim).value, Imported(e, ctx, c, push);
            var token := AssetAddress(rec.asset);
            && At(e'.balance, (token, rec.beneficiary)) - At(e.balance, (token, rec.beneficiary))
               == (if rec.asset == NATIVE_ASSET then rec.amount else push.received)
            && Holding(e', token) == Holding(e, token) - rec.amount
            && forall k :: k != (token, VAULT) && k != (token, rec.beneficiary) ==> At(e'.balance, k) == At(e.balance, k)
  {
    AssetIDRoundTrip(NATIVE, NATIVE_ASSET);
  }

  /** A state rolled back by a revert has delivered nothing: the next accepted window starts at the
      parent's log whatever was staged and reverted in between. */
  lemma RevertedNeverDelivered(ws: seq<World>, steps: seq<Step>, n: nat)
    requires IsRun(ws, steps) && n < |steps| && steps[n] == AcceptStep
    ensures ws[n + 1].delivered == ws[n].cur.staged
    ensures ws[n].delivered <= ws[n + 1].delivered
            && ApplyOps(ws[n].sm, ws[n + 1].delivered[|ws[n].delivered|..]) == ws[n + 1].sm
  {
    RunKeepsInv(ws, steps, n);
    RunKeepsInv(ws, steps, n + 1);
  }
}
