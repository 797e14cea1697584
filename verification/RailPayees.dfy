/** Who the crossings are for: what D credits to an account is what the exports naming it carry, and the far side
    finds each claim under the account it was made for. */
module RailPayees {
  import opened Bytes
  import opened EvmSlots
  import opened RailInvariant
  import opened RailSlots
  import opened RailState
  import opened RailWorld
  import opened Staging
  import opened Sums
  import opened Wire
  import opened Wrappers

  /** What transfers of asset `a` say is for `who`: a transfer that names no beneficiary is for its owner. */
  function SentTo(ts: seq<Transfer>, who: Address, a: Word): nat {
    if ts == [] then 0
    else
      var t := ts[|ts| - 1];
      SentTo(ts[..|ts| - 1], who, a)
      + if t.asset == a && (if t.beneficiary == Zeros(20) then t.owner else t.beneficiary) == who then t.amount else 0
  }

  /** What the claims of put elements carry of asset `a` for `who`. */
  function PutTo(es: seq<Element>, who: Address, a: Word): nat {
    if es == [] then 0 else PutTo(es[..|es| - 1], who, a) + AmountTo(es[|es| - 1].value, who, a)
  }

  /** What put elements carry of asset `a` under the index `who`. */
  function IndexedTo(es: seq<Element>, who: Address, a: Word): nat {
    if es == [] then 0
    else
      IndexedTo(es[..|es| - 1], who, a)
      + if es[|es| - 1].destination == who then AmountIn(es[|es| - 1].value, a) else 0
  }

  // ----- one export -----

  /** A successful export stages, last, one put under its claim id for the D peer, whose value names the transfer's
      beneficiary, or its owner where it names none, and the transfer's own asset and amount. */
  lemma ExportStagesItsClaim(e: Evm, ctx: Ctx, t: Transfer, pull: Pull)
    requires t.amount < U64 && ExportRefusal(e, ctx, t, pull).None?
    ensures var s := Exported(e, ctx, t, pull).staged;
            && |s| == |e.staged| + 1 && s[..|e.staged|] == e.staged
            && s[|e.staged|].StagedPut? && s[|e.staged|].chain == ctx.dChain && s[|e.staged|].key == ctx.claimID
            && DecodeClaim(s[|e.staged|].claim)
               == Some(Claim(if t.beneficiary == Zeros(20) then t.owner else t.beneficiary, t.asset, t.amount))
  {
    ClaimRoundTrip(Claim(if t.beneficiary == Zeros(20) then t.owner else t.beneficiary, t.asset, t.amount));
  }

  // ----- whole runs -----

  /** The staged puts are for whom the exports say, and indexed so. */
  ghost predicate SentMatches(e: Evm, chain: Word) {
    forall who: Address, a: Word ::
      && PutTo(PutsFor(e.staged, chain), who, a) == SentTo(e.exports, who, a)
      && IndexedTo(PutsFor(e.staged, chain), who, a) == SentTo(e.exports, who, a)
  }

  lemma {:induction false} NextSent(ts: seq<Transfer>, t: Transfer, es: seq<Element>, el: Element, who: Address, a: Word)
    requires DecodeClaim(el.value)
             == Some(Claim(if t.beneficiary == Zeros(20) then t.owner else t.beneficiary, t.asset, t.amount))
    requires el.destination == DecodeClaim(el.value).value.beneficiary
    requires PutTo(es, who, a) == SentTo(ts, who, a) == IndexedTo(es, who, a)
    ensures PutTo(es + [el], who, a) == SentTo(ts + [t], who, a) == IndexedTo(es + [el], who, a)
  {
    assert (ts + [t])[..|ts|] == ts;
    assert (es + [el])[..|es|] == es;
  }

  lemma ExportKeepsSent(e: Evm, ctx: Ctx, t: Transfer, pull: Pull)
    requires t.amount < U64 && SentMatches(e, ctx.dChain) && ExportRefusal(e, ctx, t, pull).None?
    ensures SentMatches(Exported(e, ctx, t, pull), ctx.dChain)
  {
    var e', es := Exported(e, ctx, t, pull), PutsFor(e.staged, ctx.dChain);
    var op := StagedPut(ctx.dChain, ctx.claimID, ExportClaim(t));
    ExportStagesItsClaim(e, ctx, t, pull);
    NextFor(e.staged, op, ctx.dChain);
    forall who: Address, a: Word
      ensures PutTo(PutsFor(e'.staged, ctx.dChain), who, a) == SentTo(e'.exports, who, a)
      ensures IndexedTo(PutsFor(e'.staged, ctx.dChain), who, a) == SentTo(e'.exports, who, a)
    {
      assert PutTo(es, who, a) == SentTo(e.exports, who, a);
      NextSent(e.exports, t, es, ElementOf(op), who, a);
    }
  }

  lemma OtherCallsSendNothing(e: Evm, c: Call, chain: Word)
    requires Callable(e, c) && !c.Export?
    ensures Frame(e, c).exports == e.exports
    ensures PutsFor(Frame(e, c).staged, chain) == PutsFor(e.staged, chain)
  {
    if c.Import? && Refusal(e, c).None? {
      NextFor(e.staged, StagedRemove(c.ctx.dChain, c.c.id), chain);
    }
  }

  lemma FrameKeepsSent(e: Evm, c: Call, chain: Word)
    requires Callable(e, c) && OnChain(c, chain) && SentMatches(e, chain)
    ensures SentMatches(Frame(e, c), chain)
  {
    if c.Export? {
      if Refusal(e, c).None? {
        ExportKeepsSent(e, c.ctx, c.t, c.pull);
      }
    } else {
      OtherCallsSendNothing(e, c, chain);
    }
  }

  ghost predicate AllSent(w: World) {
    && SentMatches(w.accepted, w.chain) && SentMatches(w.cur, w.chain)
    && forall i :: 0 <= i < |w.saved| ==> SentMatches(w.saved[i], w.chain)
  }

  lemma StepKeepsSent(w: World, s: Step)
    requires Enabled(w, s) && AllSent(w)
    ensures AllSent(Next(w, s))
  {
    hide SentMatches;
    if s.CallStep? {
      FrameKeepsSent(w.cur, s.c, w.chain);
    }
  }

  lemma NothingSent(w: World)
    requires Genesis(w)
    ensures AllSent(w)
  {
  }

  /** In every state of any run the staged puts are for whom the exports say. */
  lemma {:induction false} RunKeepsSent(ws: seq<World>, steps: seq<Step>, n: nat)
    requires IsRun(ws, steps) && n < |ws|
    ensures AllSent(ws[n])
  {
    hide Next, Enabled;
    if n == 0 {
      NothingSent(ws[0]);
    } else {
      RunKeepsSent(ws, steps, n - 1);
      StepKeepsSent(ws[n - 1], steps[n - 1]);
    }
  }

  /** What D was brought for each account is what the flushed puts carry for it, less what is on its way. */
  ghost predicate Brought(es: seq<Element>, d: DChain, toD: Partition) {
    forall who: Address, a: Word :: At(d.received, (who, a)) + SumMap(toD, NamedWeight(who, a)) == PutTo(es, who, a)
  }

  lemma {:induction false} PutToConcat(x: seq<Element>, y: seq<Element>, who: Address, a: Word)
    ensures PutTo(x + y, who, a) == PutTo(x, who, a) + PutTo(y, who, a)
    ensures IndexedTo(x + y, who, a) == IndexedTo(x, who, a) + IndexedTo(y, who, a)
  {
    if y == [] {
      assert x + y == x;
    } else {
      PutToConcat(x, y[..|y| - 1], who, a);
      assert (x + y)[..|x + y| - 1] == x + y[..|y| - 1];
    }
  }

  lemma {:induction false} PutAllNamed(p: Partition, es: seq<Element>, who: Address, a: Word)
    requires NoDup(Keys(es)) && p.Keys !! ToSet(Keys(es))
    ensures SumMap(PutAll(p, es), NamedWeight(who, a)) == SumMap(p, NamedWeight(who, a)) + PutTo(es, who, a)
  {
    if es != [] {
      var front, last := es[..|es| - 1], es[|es| - 1];
      assert Keys(es) == Keys(front) + [last.key];
      NoDupSplit(Keys(front), [last.key]);
      assert last.key in ToSet([last.key]);
      PutAllNamed(p, front, who, a);
      PutAllFresh(p, front);
      SumMapInsert(PutAll(p, front), NamedWeight(who, a), last.key, last.value);
    }
  }

  lemma FlushBrings(es: seq<Element>, gain: seq<Element>, d: DChain, toD: Partition)
    requires NoDup(Keys(es + gain)) && OutboundExact(es, ToSet(Keys(es)), d, toD) && Brought(es, d, toD)
    ensures Brought(es + gain, d, PutAll(toD, gain))
  {
    KeysConcat(es, gain);
    NoDupSplit(Keys(es), Keys(gain));
    forall who: Address, a: Word
      ensures At(d.received, (who, a)) + SumMap(PutAll(toD, gain), NamedWeight(who, a)) == PutTo(es + gain, who, a)
    {
      PutAllNamed(toD, gain, who, a);
      PutToConcat(es, gain, who, a);
      assert At(d.received, (who, a)) + SumMap(toD, NamedWeight(who, a)) == PutTo(es, who, a);
    }
  }

  lemma ConsumeBrings(es: seq<Element>, d: DChain, toD: Partition, id: Word, c: Claim)
    requires Brought(es, d, toD) && id in toD && DecodeClaim(toD[id]) == Some(c)
    ensures Brought(es, DConsumed(d, id, c), toD - {id})
  {
    forall who: Address, a: Word
      ensures At(DConsumed(d, id, c).received, (who, a)) + SumMap(toD - {id}, NamedWeight(who, a)) == PutTo(es, who, a)
    {
      SumMapSplit(toD, NamedWeight(who, a), id);
      assert At(d.received, (who, a)) + SumMap(toD, NamedWeight(who, a)) == PutTo(es, who, a);
    }
  }

  ghost predicate BroughtNow(w: World) {
    Brought(PutsFor(w.accepted.staged, w.chain), w.d, ToD(w))
  }

  lemma StepBrings(w: World, s: Step)
    requires Inv(w) && InStep(w) && Enabled(w, s) && BroughtNow(w)
    ensures BroughtNow(Next(w, s))
  {
    match s
    case AcceptStep =>
      var base, window := w.accepted.staged, FlushWindow(w);
      assert w.cur.staged == base + window;
      ForConcat(base, window, w.chain);
      GroupingIsFaithful(w.sm, window, w.chain);
      FlushBrings(PutsFor(base, w.chain), PutsFor(window, w.chain), w.d, ToD(w));
    case DConsumeStep(id) =>
      ConsumeBrings(PutsFor(w.accepted.staged, w.chain), w.d, ToD(w), id, DecodeClaim(ToD(w)[id]).value);
    case _ =>
  }

  lemma {:induction false} RunBrings(ws: seq<World>, steps: seq<Step>, n: nat)
    requires IsRun(ws, steps) && n < |ws| && AllMarked(ws, steps, n)
    ensures BroughtNow(ws[n])
  {
    if n > 0 {
      RunBrings(ws, steps, n - 1);
      RunStaysInStep(ws, steps, n - 1);
      StepBrings(ws[n - 1], steps[n - 1]);
    }
  }

  /** What D's crediting of claims ever brought an account of an asset is what the accepted exports naming that
      account carry, less what is still on its way to it. */
  lemma CreditedIsSent(ws: seq<World>, steps: seq<Step>, n: nat, who: Address, a: Word)
    requires IsRun(ws, steps) && n < |ws| && AllMarked(ws, steps, n)
    ensures At(ws[n].d.received, (who, a)) + SumMap(ToD(ws[n]), NamedWeight(who, a))
            == SentTo(ws[n].accepted.exports, who, a)
  {
    RunBrings(ws, steps, n);
    RunKeepsSent(ws, steps, n);
    assert PutTo(PutsFor(ws[n].accepted.staged, ws[n].chain), who, a) == SentTo(ws[n].accepted.exports, who, a);
  }

  /** Whatever the accept of a block collects from its storage for the D peer indexes under each account exactly
      what the block's own exports naming that account carry, whatever was snapshot and reverted before. */
  lemma FlushIndexesTheNamed(vs: seq<SlotWorld>, steps: seq<Step>, n: nat, r: map<Word, Requests>,
                             who: Address, a: Word)
    requires IsSlotRun(vs, steps) && n < |vs| && n < U64 && Enabled(vs[n].w, AcceptStep)
    requires var v := vs[n];
             Collects(r, Window(v.cur, LowU64(Load(v.accepted, StageSeq)), LowU64(Load(v.cur, StageSeq))))
    ensures Indexed(r)
    ensures IndexedTo(RequestsOf(r, vs[n].w.chain).puts, who, a)
            == SentTo(vs[n].w.cur.exports, who, a) - SentTo(vs[n].w.accepted.exports, who, a)
  {
    var v := vs[n];
    var w := v.w;
    FlushNeverFails(vs, steps, n, r);
    CollectedIsIndexed(v.cur, LowU64(Load(v.accepted, StageSeq)), LowU64(Load(v.cur, StageSeq)), r);
    SlotRunIsRun(vs, steps);
    RunKeepsInv(Worlds(vs), steps, n);
    RunKeepsSent(Worlds(vs), steps, n);
    WindowSent(w, who, a);
  }

  lemma WindowSent(w: World, who: Address, a: Word)
    requires Inv(w) && AllSent(w)
    ensures IndexedTo(PutsFor(FlushWindow(w), w.chain), who, a)
            == SentTo(w.cur.exports, who, a) - SentTo(w.accepted.exports, who, a)
  {
    assert w.cur.staged == w.accepted.staged + FlushWindow(w);
    ForConcat(w.accepted.staged, FlushWindow(w), w.chain);
    PutToConcat(PutsFor(w.accepted.staged, w.chain), PutsFor(FlushWindow(w), w.chain), who, a);
    assert IndexedTo(PutsFor(w.cur.staged, w.chain), who, a) == SentTo(w.cur.exports, who, a);
    assert IndexedTo(PutsFor(w.accepted.staged, w.chain), who, a) == SentTo(w.accepted.exports, who, a);
  }
}
