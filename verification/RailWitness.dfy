/** Short runs of the rail in which a promise does fail: one input for each condition proved exact. */
module RailWitness {
  import opened Bytes
  import opened RailInvariant
  import opened RailState
  import opened RailWorld
  import opened Staging
  import opened Sums
  import opened Wire
  import opened Wrappers

  const ALICE: Address := Zeros(19) + [1]
  const GOLD: Token := Zeros(19) + [2]
  const LEAD: Token := Zeros(19) + [3]
  const CHAIN: Word := Zeros(31) + [4]
  const KEY: Word := Zeros(31) + [5]

  lemma AllDiffer()
    ensures ALICE != VAULT && GOLD != LEAD && GOLD != NATIVE && LEAD != NATIVE && CHAIN != NO_CHAIN
  {
    assert ALICE[18] == 0 && VAULT[18] == 0x99 && GOLD[19] == 2 && LEAD[19] == 3 && CHAIN[31] == 4;
  }

  /** A genesis in which Alice alone holds anything: `n` of `t`. */
  function Start(t: Token, n: nat): World {
    var e := Untouched(map[(t, ALICE) := n]);
    World(CHAIN, e, [], e, SharedMemory(map[], map[]), DChain(map[], {}, map[], map[]), [])
  }

  lemma StartIsGenesis(t: Token, n: nat)
    ensures Genesis(Start(t, n))
    ensures forall u: Token :: Holding(Start(t, n).cur, u) == 0
  {
    AllDiffer();
  }

  // ----- an over-sent deposit -----

  function OverSent(): Call {
    Deposit(ALICE, NATIVE, 1, 2, PullRefused)
  }

  /** Alice sends two units and deposits one: the vault starts empty, holds both, and records one. */
  lemma DepositMayUnbalance() returns (ws: seq<World>, steps: seq<Step>)
    ensures IsRun(ws, steps) && steps == [CallStep(OverSent())]
    ensures TookEffect(ws[0], steps[0]) && Balanced(ws[0].cur) && !KeepsIdentity(ws[0].cur, OverSent())
    ensures Surplus(ws[1].cur, NATIVE) == 1 && !Balanced(ws[1].cur)
  {
    var w := Start(NATIVE, 2);
    AllDiffer();
    StartIsGenesis(NATIVE, 2);
    assert forall u: Token :: Surplus(w.cur, u) == 0;
    ValueDrifts(w.cur, ALICE, 2, NATIVE);
    FrameDrifts(w.cur, OverSent(), NATIVE);
    steps := [CallStep(OverSent())];
    ws := [w, Next(w, steps[0])];
  }

  // ----- an export that names another token -----

  function Mismatched(): Call {
    Export(Ctx(true, CHAIN, KEY, 0), Transfer(ALICE, ALICE, AssetID(GOLD), LEAD, 1), Pulled(1, 1))
  }

  /** Paid in lead, the export is not refused, and it costs the vault a unit of gold it holds none of. */
  lemma MismatchedIsMade(e: Evm)
    requires e == Start(LEAD, 1).cur
    ensures Callable(e, Mismatched()) && Refusal(e, Mismatched()).None?
    ensures Drift(e, Mismatched(), GOLD) == -1 && !KeepsCover(e, Mismatched())
  {
    AllDiffer();
    StartIsGenesis(LEAD, 1);
    NativeAssetOnly(GOLD);
    AssetIDRoundTrip(GOLD, AssetID(GOLD));
    AssetIDRoundTrip(LEAD, AssetID(GOLD));
    assert Marked(e.written) == {};
  }

  /** Alice exports a unit of gold and pays for it in lead: the vault owes gold it does not hold. */
  lemma ExportMayUncover() returns (ws: seq<World>, steps: seq<Step>)
    ensures IsRun(ws, steps) && steps == [CallStep(Mismatched())]
    ensures TookEffect(ws[0], steps[0]) && PotsCovered(ws[0].cur) && !KeepsCover(ws[0].cur, Mismatched())
    ensures Surplus(ws[1].cur, GOLD) == -1 && !PotsCovered(ws[1].cur)
  {
    hide Frame, Drift, Callable, Refusal, KeepsCover;
    var w := Start(LEAD, 1);
    StartIsGenesis(LEAD, 1);
    MismatchedIsMade(w.cur);
    assert forall u: Token :: Surplus(w.cur, u) == 0;
    FrameDrifts(w.cur, Mismatched(), GOLD);
    steps := [CallStep(Mismatched())];
    ws := [w, Next(w, steps[0])];
  }

  // ----- one id exported twice at the last height -----

  const LAST: Transfer := Transfer(ALICE, ALICE, NATIVE_ASSET, NATIVE, 1)

  function AtTheEnd(): Call {
    Export(Ctx(true, CHAIN, KEY, U64 - 1), LAST, PullRefused)
  }

  function TheClaim(): seq<byte> {
    ExportClaim(LAST)
  }

  /** An export at the last height leaves no mark, so the same id is exported again as if it were new. */
  lemma ExportedAgain(e: Evm, n: nat)
    requires At(e.balance, (NATIVE, ALICE)) == n && 1 <= n && Marked(e.written) == {}
    ensures Callable(e, AtTheEnd()) && Refusal(e, AtTheEnd()).None?
    ensures var e' := Frame(e, AtTheEnd());
            && At(e'.balance, (NATIVE, ALICE)) == n - 1 && Marked(e'.written) == {}
            && At(e'.custody, NATIVE_ASSET) == At(e.custody, NATIVE_ASSET) + 1
            && e'.staged == e.staged + [ThePut()]
            && e'.seeded == e.seeded && e'.declared == e.declared
  {
    AllDiffer();
    MarkAddsIff(e.written, KEY, U64 - 1);
  }

  function ThePut(): StagedOp {
    StagedPut(CHAIN, KEY, TheClaim())
  }

  lemma TwoPuts()
    ensures PutsFor([ThePut(), ThePut()], CHAIN) == [ElementOf(ThePut()), ElementOf(ThePut())]
    ensures RemovesFor([ThePut(), ThePut()], CHAIN) == []
    ensures PutAll(map[], [ElementOf(ThePut()), ElementOf(ThePut())]) == map[KEY := TheClaim()]
  {
    var op := ThePut();
    NextFor([], op, CHAIN);
    NextFor([op], op, CHAIN);
    assert [] + [op] == [op] && [op] + [op] == [op, op];
    PutAllNext(map[], [], ElementOf(op));
    PutAllNext(map[], [ElementOf(op)], ElementOf(op));
    assert [] + [ElementOf(op)] == [ElementOf(op)];
    assert [ElementOf(op)] + [ElementOf(op)] == [ElementOf(op), ElementOf(op)];
  }

  /** Two puts under one key leave one object. */
  lemma {:induction false} OneObject(sm: SharedMemory)
    requires sm == SharedMemory(map[], map[])
    ensures Part(ApplyOps(sm, [ThePut(), ThePut()]).outbound, CHAIN) == map[KEY := TheClaim()]
    ensures Part(ApplyOps(sm, [ThePut(), ThePut()]).inbound, CHAIN) == map[]
  {
    hide ApplyOps, PutAll, PutsFor, RemovesFor;
    GroupingIsFaithful(sm, [ThePut(), ThePut()], CHAIN);
    TwoPuts();
    NoRemoves(map[]);
  }

  lemma NoRemoves(p: Partition)
    ensures RemoveAll(p, []) == p
  {
  }

  lemma CarriesOne()
    ensures InTransit(map[KEY := TheClaim()], NATIVE_ASSET) == 1
    ensures InTransit(map[], NATIVE_ASSET) == 0
  {
    ExportClaimAmount(LAST, NATIVE_ASSET);
    SumMapInsert<Word, seq<byte>>(map[], ObjectWeight(NATIVE_ASSET), KEY, TheClaim());
    assert map[][KEY := TheClaim()] == map[KEY := TheClaim()];
  }

  /** In the last block Alice exports twice under one id: custody holds two units, one is on its way to D, and
      nothing else is owed. */
  lemma MarkMayBeLost() returns (ws: seq<World>, steps: seq<Step>)
    ensures IsRun(ws, steps) && steps == [CallStep(AtTheEnd()), CallStep(AtTheEnd()), AcceptStep]
    ensures TookEffect(ws[0], steps[0]) && TookEffect(ws[1], steps[1]) && !AllMarked(ws, steps, 3)
    ensures var w := ws[3];
            && At(w.accepted.custody, NATIVE_ASSET) == 2 && At(w.accepted.seeded, NATIVE_ASSET) == 0
            && OwnedTotal(w.d, NATIVE_ASSET) == 0
            && InTransit(ToD(w), NATIVE_ASSET) == 1 && InTransit(ToC(w), NATIVE_ASSET) == 0
  {
    hide Enabled, Next, ApplyOps, Frame, Refusal, Callable;
    var w0, again := Start(NATIVE, 2), CallStep(AtTheEnd());
    StartIsGenesis(NATIVE, 2);
    var w1 := SpendsOne(w0, 2);
    var w2 := SpendsOne(w1, 1);
    assert [] + [ThePut()] + [ThePut()] == [ThePut(), ThePut()];
    OneObject(w2.sm);
    CarriesOne();
    var w3 := Accepts(w2);
    ws, steps := [w0, w1, w2, w3], [again, again, AcceptStep];
    ThreeSteps(ws, steps);
    assert TookEffect(ws[0], steps[0]) && !LeavesMark(steps[0].c);
  }

  lemma SpendsOne(w: World, n: nat) returns (w': World)
    requires At(w.cur.balance, (NATIVE, ALICE)) == n && 1 <= n && Marked(w.cur.written) == {} && w.chain == CHAIN
    ensures var again := CallStep(AtTheEnd());
            Enabled(w, again) && TookEffect(w, again) && w' == Next(w, again) && w' == w.(cur := w'.cur)
    ensures At(w'.cur.balance, (NATIVE, ALICE)) == n - 1 && Marked(w'.cur.written) == {}
    ensures At(w'.cur.custody, NATIVE_ASSET) == At(w.cur.custody, NATIVE_ASSET) + 1
    ensures w'.cur.staged == w.cur.staged + [ThePut()]
    ensures w'.cur.seeded == w.cur.seeded && w'.cur.declared == w.cur.declared
  {
    ExportedAgain(w.cur, n);
    w' := Next(w, CallStep(AtTheEnd()));
  }

  lemma Accepts(w: World) returns (w': World)
    requires w.saved == [] && w.cur.declared == [] && w.accepted.staged == []
    ensures Enabled(w, AcceptStep) && w' == Next(w, AcceptStep)
    ensures w'.accepted == w.cur && w'.d == w.d && w'.chain == w.chain && w'.sm == ApplyOps(w.sm, w.cur.staged)
  {
    assert w.cur.staged[0..] == w.cur.staged;
    w' := Next(w, AcceptStep);
  }

  lemma {:induction false} ThreeSteps(ws: seq<World>, steps: seq<Step>)
    requires |ws| == 4 && |steps| == 3 && Genesis(ws[0])
    requires Enabled(ws[0], steps[0]) && ws[1] == Next(ws[0], steps[0])
    requires Enabled(ws[1], steps[1]) && ws[2] == Next(ws[1], steps[1])
    requires Enabled(ws[2], steps[2]) && ws[3] == Next(ws[2], steps[2])
    ensures IsRun(ws, steps)
  {
    hide Next, Enabled;
  }
}
