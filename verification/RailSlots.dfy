/** The rail's runs down at the storage slots: the staged log lives in 0x9999 storage, is snapshot, reverted and
    accepted with it, and the flush reads it back from there. */
module RailSlots {
  import opened Bytes
  import opened EvmSlots
  import opened RailInvariant
  import opened RailState
  import opened RailWorld
  import opened Staging
  import opened Wire

  /** A world of the rail together with the storage of the last accepted block, of every open snapshot and of
      the state right now. */
  datatype SlotWorld = SlotWorld(w: World, accepted: Slots, saved: seq<Slots>, cur: Slots)

  /** The operations a call stages: an export one put, an import one removal, every other call none. */
  function StagedBy(e: Evm, c: Call): seq<StagedOp>
    requires Callable(e, c)
  {
    if Refusal(e, c).Some? then []
    else match c
      case Export(ctx, t, _) => [StagedPut(ctx.dChain, ctx.claimID, ExportClaim(t))]
      case Import(ctx, arg, _) => [StagedRemove(ctx.dChain, arg.id)]
      case _ => []
  }

  lemma StagedByIsGain(e: Evm, c: Call)
    requires Callable(e, c)
    ensures Frame(e, c).staged == e.staged + StagedBy(e, c)
    ensures |StagedBy(e, c)| <= 1
    ensures StagedBy(e, c) != [] ==> WellFormed(StagedBy(e, c)[0])
  {
  }

  /** What a call does to the storage: it writes other slots, stages at most one operation through the counter,
      and writes other slots again. */
  ghost predicate CallWrites(m: Slots, m': Slots, ops: seq<StagedOp>)
    requires |ops| <= 1
  {
    if ops == [] then SameStaging(m, m')
    else exists before: Slots, after: Slots ::
           SameStaging(m, before) && StagesOne(before, after, ops[0]) && SameStaging(after, m')
  }

  ghost predicate SlotStep(v: SlotWorld, s: Step, v': SlotWorld)
    requires Enabled(v.w, s)
  {
    && v'.w == Next(v.w, s)
    && match s
       case CallStep(c) =>
         StagedByIsGain(v.w.cur, c);
         v' == v.(w := v'.w, cur := v'.cur) && CallWrites(v.cur, v'.cur, StagedBy(v.w.cur, c))
       case SnapshotStep => v' == v.(w := v'.w, saved := v.saved + [v.cur])
       case RevertStep(k) => k < |v.saved| && v' == v.(w := v'.w, cur := v.saved[k], saved := v.saved[..k])
       case CommitStep => v.saved != [] && v' == v.(w := v'.w, saved := v.saved[..|v.saved| - 1])
       case AcceptStep => v' == v.(w := v'.w, accepted := v.cur)
       case RejectStep => v' == v.(w := v'.w, cur := v.accepted, saved := [])
       case _ => v' == v.(w := v'.w)
  }

  /** A run at the slots, from a genesis whose staging counter is zero. */
  ghost predicate IsSlotRun(vs: seq<SlotWorld>, steps: seq<Step>) {
    && |vs| == |steps| + 1
    && Genesis(vs[0].w) && vs[0].accepted == vs[0].cur && vs[0].saved == [] && LogIs(vs[0].cur, [])
    && forall i :: 0 <= i < |steps| ==> Enabled(vs[i].w, steps[i]) && SlotStep(vs[i], steps[i], vs[i + 1])
  }

  function Worlds(vs: seq<SlotWorld>): (ws: seq<World>)
    ensures |ws| == |vs| && forall i :: 0 <= i < |vs| ==> ws[i] == vs[i].w
  {
    seq(|vs|, i requires 0 <= i < |vs| => vs[i].w)
  }

  lemma SlotRunIsRun(vs: seq<SlotWorld>, steps: seq<Step>)
    requires IsSlotRun(vs, steps)
    ensures IsRun(Worlds(vs), steps)
  {
    var ws := Worlds(vs);
    forall i | 0 <= i < |steps|
      ensures Enabled(ws[i], steps[i]) && ws[i + 1] == Next(ws[i], steps[i])
    {
      assert SlotStep(vs[i], steps[i], vs[i + 1]);
    }
  }

  /** Every storage holds the log its state says, and no log is longer than the run. */
  ghost predicate SlotsAgree(v: SlotWorld, n: nat) {
    && Agree(v.accepted, v.w.accepted, n) && Agree(v.cur, v.w.cur, n) && |v.saved| == |v.w.saved|
    && forall i :: 0 <= i < |v.saved| ==> Agree(v.saved[i], v.w.saved[i], n)
  }

  ghost predicate Agree(m: Slots, e: Evm, n: nat) {
    LogIs(m, e.staged) && |e.staged| <= n
  }

  lemma {:induction false} StagedAmongWrites(
    m: Slots, before: Slots, after: Slots, m': Slots, log: seq<StagedOp>, op: StagedOp)
    requires LogIs(m, log) && |log| + 1 < U64 && WellFormed(op)
    requires SameStaging(m, before) && StagesOne(before, after, op) && SameStaging(after, m')
    ensures LogIs(m', log + [op])
  {
    hide LogIs, SameStaging, StagesOne;
    SameStagingSameLog(m, before, log);
    StagesOneExtends(before, after, log, op);
    SameStagingSameLog(after, m', log + [op]);
  }

  lemma {:induction false} CallAgrees(m: Slots, m': Slots, log: seq<StagedOp>, ops: seq<StagedOp>)
    requires LogIs(m, log) && |log| + 1 < U64 && |ops| <= 1 && (ops != [] ==> WellFormed(ops[0]))
    requires CallWrites(m, m', ops)
    ensures LogIs(m', log + ops)
  {
    hide LogIs, SameStaging, StagesOne;
    if ops == [] {
      SameStagingSameLog(m, m', log);
      assert log + ops == log;
    } else {
      var before, after :| SameStaging(m, before) && StagesOne(before, after, ops[0]) && SameStaging(after, m');
      StagedAmongWrites(m, before, after, m', log, ops[0]);
      assert ops == [ops[0]];
    }
  }

  lemma StepAgrees(v: SlotWorld, s: Step, v': SlotWorld, n: nat)
    requires Enabled(v.w, s) && SlotStep(v, s, v') && SlotsAgree(v, n) && n + 1 < U64
    ensures SlotsAgree(v', n + 1)
  {
    hide LogIs, CallWrites, StagedBy;
    if s.CallStep? {
      StagedByIsGain(v.w.cur, s.c);
      CallAgrees(v.cur, v'.cur, v.w.cur.staged, StagedBy(v.w.cur, s.c));
    }
  }

  /** Through calls, snapshots, reverts, commits, accepts and rejects, the storage of every state of a run holds
      exactly that state's log, while the run is shorter than the counter's range. */
  lemma {:induction false} SlotsHoldTheLogs(vs: seq<SlotWorld>, steps: seq<Step>, n: nat)
    requires IsSlotRun(vs, steps) && n < |vs| && n < U64
    ensures SlotsAgree(vs[n], n)
  {
    if n > 0 {
      SlotsHoldTheLogs(vs, steps, n - 1);
      StepAgrees(vs[n - 1], steps[n - 1], vs[n], n - 1);
    }
  }

  /** A block's storage spells its parent's log and what the block staged beyond it. */
  lemma BlockLogs(vs: seq<SlotWorld>, steps: seq<Step>, n: nat)
    requires IsSlotRun(vs, steps) && n < |vs| && n < U64 && vs[n].w.saved == []
    ensures LogIs(vs[n].accepted, vs[n].w.accepted.staged)
    ensures LogIs(vs[n].cur, vs[n].w.accepted.staged + FlushWindow(vs[n].w))
  {
    hide LogIs;
    var w := vs[n].w;
    SlotsHoldTheLogs(vs, steps, n);
    SlotRunIsRun(vs, steps);
    RunKeepsInv(Worlds(vs), steps, n);
    assert w.cur.staged == w.accepted.staged + FlushWindow(w);
  }

  /** EXACTLY ONCE: whatever was snapshot and reverted before, the flush of a block at any point of a run sees no
      regressed counter and no malformed position, reads exactly what the block staged beyond its parent, and its
      grouped requests take shared memory to where the accepted log says. */
  lemma FlushNeverFails(vs: seq<SlotWorld>, steps: seq<Step>, n: nat, r: map<Word, Requests>)
    requires IsSlotRun(vs, steps) && n < |vs| && n < U64 && Enabled(vs[n].w, AcceptStep)
    ensures var v := vs[n];
            var from, to := LowU64(Load(v.accepted, StageSeq)), LowU64(Load(v.cur, StageSeq));
            && from <= to && AllDecode(v.cur, from, to)
            && Window(v.cur, from, to) == FlushWindow(v.w)
            && (Collects(r, Window(v.cur, from, to)) ==> Applied(v.w.sm, r, Next(v.w, AcceptStep).sm))
  {
    hide LogIs, Window, AllDecode, ApplyOps, Applied, Collects, IsSlotRun, FlushWindow;
    var v := vs[n];
    BlockLogs(vs, steps, n);
    FlushDeliversGain(v.accepted, v.cur, v.w.accepted.staged, FlushWindow(v.w));
    if Collects(r, FlushWindow(v.w)) {
      AppliedIsFlush(v.w.sm, r, FlushWindow(v.w), v.w.sm);
    }
  }

  /** So the accepted block's storage always holds exactly the operations ever applied to shared memory. */
  lemma AcceptedSlotsAreDelivered(vs: seq<SlotWorld>, steps: seq<Step>, n: nat)
    requires IsSlotRun(vs, steps) && n < |vs| && n < U64
    ensures LogIs(vs[n].accepted, vs[n].w.delivered)
  {
    SlotsHoldTheLogs(vs, steps, n);
    SlotRunIsRun(vs, steps);
    RunKeepsInv(Worlds(vs), steps, n);
  }
}
