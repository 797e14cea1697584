/** The broker-fill ledger: attestations that wait out a fraud window, and the outstanding total they
    hold against a prefund ceiling. */
module FillAttestation {
  import opened Bytes
  import opened Sums
  import opened Wrappers

  type OrderId = Word

  const NOBODY: Address := Zeros(20)
  const DEFAULT_FRAUD_WINDOW: nat := 259_200

  datatype Status = Pending | Finalized | Reversed

  datatype Settlement = Settlement(
    symbol: Word, amount: int, price: int, user: Address, attester: Address, timestamp: nat, block: nat, status: Status)

  /** A ceiling of 0 is no ceiling; no window set is the default one. */
  datatype Ledger = Ledger(
    attester: Address, ceiling: nat, fraudWindow: Option<nat>, attestations: map<OrderId, Settlement>, outstanding: int)

  datatype FillError =
    | UnauthorizedAttester | InvalidParam | DuplicateAttestation | CeilingExceeded | TotalTooWide
    | NotFound | AlreadyFinalized | AlreadyReversed | InvalidReversalProof | FraudWindowActive

  datatype Outcome = Outcome(ledger: Ledger, error: Option<FillError>)

  function FillValue(s: Settlement): int {
    s.amount * s.price
  }

  function Window(l: Ledger): nat {
    if l.fraudWindow.None? then DEFAULT_FRAUD_WINDOW else l.fraudWindow.value
  }

  // ----- the operations' meanings -----

  function AttestRefusal(l: Ledger, caller: Address, id: OrderId, s: Settlement): Option<FillError> {
    if l.attester == NOBODY || caller != l.attester then Some(UnauthorizedAttester)
    else if s.amount <= 0 || s.price <= 0 || s.user == NOBODY then Some(InvalidParam)
    else if id in l.attestations then Some(DuplicateAttestation)
    else if l.ceiling > 0 && l.outstanding + FillValue(s) > l.ceiling then Some(CeilingExceeded)
    else if l.outstanding + FillValue(s) >= U256 then Some(TotalTooWide)
    else None
  }

  /** Records a pending attestation and adds its value to the total. A total that does not fit its 32-byte
      slot aborts the call before anything is written. */
  function Attested(l: Ledger, block: nat, caller: Address, id: OrderId, s: Settlement): Outcome {
    match AttestRefusal(l, caller, id, s)
    case Some(e) => Outcome(l, Some(e))
    case None =>
      Outcome(l.(outstanding := l.outstanding + FillValue(s),
                 attestations := l.attestations[id := s.(attester := caller, block := block, status := Pending)]), None)
  }

  function ClampedAt0(n: int): int {
    if n < 0 then 0 else n
  }

  /** Takes an attestation out of Pending and its value off the total, never below zero. */
  function Closed(l: Ledger, id: OrderId, status: Status): Ledger
    requires id in l.attestations
  {
    l.(attestations := l.attestations[id := l.attestations[id].(status := status)],
       outstanding := ClampedAt0(l.outstanding - FillValue(l.attestations[id])))
  }

  function NotPending(l: Ledger, id: OrderId): Option<FillError> {
    if id !in l.attestations then Some(NotFound)
    else match l.attestations[id].status
      case Finalized => Some(AlreadyFinalized)
      case Reversed => Some(AlreadyReversed)
      case Pending => None
  }

  function Challenged(l: Ledger, caller: Address, id: OrderId, proof: seq<byte>): Outcome {
    match NotPending(l, id)
    case Some(e) => Outcome(l, Some(e))
    case None =>
      if caller != l.attester then Outcome(l, Some(UnauthorizedAttester))
      else if proof == [] then Outcome(l, Some(InvalidReversalProof))
      else Outcome(Closed(l, id, Reversed), None)
  }

  /** The block from which an attestation may be finalized: a uint64 sum, which wraps. */
  function Matures(l: Ledger, s: Settlement): nat {
    (s.block + Window(l)) % U64
  }

  function FinalizedAt(l: Ledger, block: nat, id: OrderId): Outcome {
    match NotPending(l, id)
    case Some(e) => Outcome(l, Some(e))
    case None =>
      if block < Matures(l, l.attestations[id]) then Outcome(l, Some(FraudWindowActive))
      else Outcome(Closed(l, id, Finalized), None)
  }

  function AttesterSet(l: Ledger, caller: Address, attester: Address): Outcome {
    if l.attester != NOBODY && caller != l.attester then Outcome(l, Some(UnauthorizedAttester))
    else Outcome(l.(attester := attester), None)
  }

  function CeilingSet(l: Ledger, caller: Address, ceiling: nat): Outcome {
    if caller != l.attester then Outcome(l, Some(UnauthorizedAttester)) else Outcome(l.(ceiling := ceiling), None)
  }

  function WindowSet(l: Ledger, caller: Address, blocks: nat): Outcome {
    if caller != l.attester then Outcome(l, Some(UnauthorizedAttester))
    else Outcome(l.(fraudWindow := Some(blocks)), None)
  }

  // ----- the manager -----

  class SettlementManager {
    var attester: Address
    var ceiling: nat
    var fraudWindow: Option<nat>
    var attestations: map<OrderId, Settlement>
    var outstanding: int

    ghost function State(): Ledger
      reads this
    {
      Ledger(attester, ceiling, fraudWindow, attestations, outstanding)
    }

    constructor ()
      ensures State() == EMPTY
    {
      attester, ceiling, fraudWindow, attestations, outstanding := NOBODY, 0, None, map[], 0;
    }

    method SetAttester(caller: Address, newAttester: Address) returns (e: Option<FillError>)
      modifies this
      ensures Outcome(State(), e) == old(AttesterSet(State(), caller, newAttester))
    {
      if attester != NOBODY && caller != attester { return Some(UnauthorizedAttester); }
      attester := newAttester;
      e := None;
    }

    method SetCeiling(caller: Address, value: nat) returns (e: Option<FillError>)
      modifies this
      ensures Outcome(State(), e) == old(CeilingSet(State(), caller, value))
    {
      if caller != attester { return Some(UnauthorizedAttester); }
      ceiling := value;
      e := None;
    }

    method SetFraudWindow(caller: Address, blocks: nat) returns (e: Option<FillError>)
      modifies this
      ensures Outcome(State(), e) == old(WindowSet(State(), caller, blocks))
    {
      if caller != attester { return Some(UnauthorizedAttester); }
      fraudWindow := Some(blocks);
      e := None;
    }

    method Attest(block: nat, caller: Address, id: OrderId, symbol: Word, amount: int, price: int, user: Address,
                  timestamp: nat) returns (e: Option<FillError>)
      modifies this
      ensures Outcome(State(), e) == old(Attested(State(), block, caller, id,
                Settlement(symbol, amount, price, user, caller, timestamp, block, Pending)))
    {
      if attester == NOBODY { return Some(UnauthorizedAttester); }
      if caller != attester { return Some(UnauthorizedAttester); }
      if amount <= 0 { return Some(InvalidParam); }
      if price <= 0 { return Some(InvalidParam); }
      if user == NOBODY { return Some(InvalidParam); }
      if id in attestations { return Some(DuplicateAttestation); }
      var fillValue := amount * price;
      if ceiling > 0 {
        var newOutstanding := outstanding + fillValue;
        if newOutstanding > ceiling { return Some(CeilingExceeded); }
      }
      if outstanding + fillValue >= U256 { return Some(TotalTooWide); }
      outstanding := outstanding + fillValue;
      attestations := attestations[id := Settlement(symbol, amount, price, user, caller, timestamp, block, Pending)];
      e := None;
    }

    /** Saves the new status, then reduces the total. */
    method Close(id: OrderId, status: Status)
      requires id in attestations
      modifies this
      ensures State() == old(Closed(State(), id, status))
    {
      var attestation := attestations[id];
      attestations := attestations[id := attestation.(status := status)];
      var newOutstanding := outstanding - attestation.amount * attestation.price;
      if newOutstanding < 0 {
        newOutstanding := 0;
      }
      outstanding := newOutstanding;
    }

    method Challenge(caller: Address, id: OrderId, proof: seq<byte>) returns (e: Option<FillError>)
      modifies this
      ensures Outcome(State(), e) == old(Challenged(State(), caller, id, proof))
    {
      if id !in attestations { return Some(NotFound); }
      if attestations[id].status == Finalized { return Some(AlreadyFinalized); }
      if attestations[id].status == Reversed { return Some(AlreadyReversed); }
      if caller != attester { return Some(UnauthorizedAttester); }
      if |proof| == 0 { return Some(InvalidReversalProof); }
      Close(id, Reversed);
      e := None;
    }

    method Finalize(block: nat, id: OrderId) returns (e: Option<FillError>)
      modifies this
      ensures Outcome(State(), e) == old(FinalizedAt(State(), block, id))
    {
      if id !in attestations { return Some(NotFound); }
      if attestations[id].status == Finalized { return Some(AlreadyFinalized); }
      if attestations[id].status == Reversed { return Some(AlreadyReversed); }
      var window := if fraudWindow.None? then DEFAULT_FRAUD_WINDOW else fraudWindow.value;
      if block < (attestations[id].block + window) % U64 { return Some(FraudWindowActive); }
      Close(id, Finalized);
      e := None;
    }
  }

  const EMPTY: Ledger := Ledger(NOBODY, 0, None, map[], 0)

  // ----- the total -----

  ghost function PendingWeight(): (OrderId, Settlement) -> int {
    (id: OrderId, s: Settlement) => if s.status == Pending then s.amount * s.price else 0
  }

  ghost function PendingTotal(l: Ledger): int {
    SumMap(l.attestations, PendingWeight())
  }

  /** Every recorded fill has a positive amount and price, and the total is that of the pending ones. */
  ghost predicate Inv(l: Ledger) {
    && (forall id :: id in l.attestations ==> l.attestations[id].amount > 0 && l.attestations[id].price > 0)
    && l.outstanding == PendingTotal(l)
  }

  lemma ValuePositive(s: Settlement)
    requires s.amount > 0 && s.price > 0
    ensures FillValue(s) > 0
  {
  }

  /** One pending fill is part of the total, so taking it off never goes below zero. */
  lemma ClampNeverFires(l: Ledger, id: OrderId)
    requires Inv(l) && id in l.attestations && l.attestations[id].status == Pending
    ensures l.outstanding - FillValue(l.attestations[id]) >= 0
  {
    forall j | j in l.attestations
      ensures PendingWeight()(j, l.attestations[j]) >= 0
    {
      ValuePositive(l.attestations[j]);
    }
    SumMapAtLeast(l.attestations, PendingWeight(), id);
  }

  lemma CloseKeepsInv(l: Ledger, id: OrderId, status: Status)
    requires Inv(l) && NotPending(l, id).None? && status != Pending
    ensures Inv(Closed(l, id, status))
    ensures Closed(l, id, status).outstanding == l.outstanding - FillValue(l.attestations[id])
  {
    ClampNeverFires(l, id);
    SumMapInsert(l.attestations, PendingWeight(), id, l.attestations[id].(status := status));
  }

  lemma AttestKeepsInv(l: Ledger, block: nat, caller: Address, id: OrderId, s: Settlement)
    requires Inv(l)
    ensures Inv(Attested(l, block, caller, id, s).ledger)
  {
    SumMapInsert(l.attestations, PendingWeight(), id, s.(attester := caller, block := block, status := Pending));
  }

  // ----- when each operation succeeds -----

  /** An attestation is recorded exactly for the attester's new fill of positive amount and price for someone, whose
      value keeps the total within the ceiling, if there is one, and within 256 bits. */
  lemma AttestSucceedsIff(l: Ledger, block: nat, caller: Address, id: OrderId, s: Settlement)
    ensures var o, total := Attested(l, block, caller, id, s), l.outstanding + s.amount * s.price;
            && (o.error.None? <==>
                  && caller == l.attester != Zeros(20) && s.amount > 0 && s.price > 0 && s.user != Zeros(20)
                  && id !in l.attestations && (l.ceiling == 0 || total <= l.ceiling) && total < U256)
            && (o.error.Some? ==> o.ledger == l)
            && (o.error.None? ==>
                  && o.ledger.outstanding == total
                  && o.ledger == l.(outstanding := total, attestations := l.attestations[id :=
                       s.(attester := caller, block := block, status := Pending)]))
            && (o.error == Some(CeilingExceeded) ==> 0 < l.ceiling < total)
            && (o.error == Some(DuplicateAttestation) ==> id in l.attestations)
  {
  }

  /** The fill has its new status and its amount times its price is off the total, never below zero; nothing else
      moves. */
  predicate IsClosed(l: Ledger, l': Ledger, id: OrderId, status: Status)
    requires id in l.attestations
  {
    var s := l.attestations[id];
    var left := l.outstanding - s.amount * s.price;
    l' == l.(attestations := l.attestations[id := s.(status := status)], outstanding := if left < 0 then 0 else left)
  }

  /** A challenge reverses exactly a pending fill, by the attester, with a proof. */
  lemma ChallengeSucceedsIff(l: Ledger, caller: Address, id: OrderId, proof: seq<byte>)
    ensures var o := Challenged(l, caller, id, proof);
            && (o.error.None? <==>
                  id in l.attestations && l.attestations[id].status == Pending && caller == l.attester && |proof| > 0)
            && (o.error.Some? ==> o.ledger == l)
            && (o.error.None? ==> IsClosed(l, o.ledger, id, Reversed))
  {
  }

  /** A fill is finalized exactly when it is pending and its block plus the window, cut to 64 bits, is reached. */
  lemma FinalizeSucceedsIff(l: Ledger, block: nat, id: OrderId)
    ensures var o, window := FinalizedAt(l, block, id), if l.fraudWindow.None? then 259_200 else l.fraudWindow.value;
            && (o.error.None? <==>
                  && id in l.attestations && l.attestations[id].status == Pending
                  && (l.attestations[id].block + window) % 0x1_0000_0000_0000_0000 <= block)
            && (o.error.Some? ==> o.ledger == l)
            && (o.error.None? ==> IsClosed(l, o.ledger, id, Finalized))
  {
  }

  /** The settings are the attester's; the first attester is anyone's to name. */
  lemma SettingsAreTheAttesters(l: Ledger, caller: Address, attester: Address, n: nat)
    ensures AttesterSet(l, caller, attester)
            == if l.attester == Zeros(20) || caller == l.attester then Outcome(l.(attester := attester), None)
               else Outcome(l, Some(UnauthorizedAttester))
    ensures CeilingSet(l, caller, n)
            == if caller == l.attester then Outcome(l.(ceiling := n), None) else Outcome(l, Some(UnauthorizedAttester))
    ensures WindowSet(l, caller, n)
            == if caller == l.attester then Outcome(l.(fraudWindow := Some(n)), None)
               else Outcome(l, Some(UnauthorizedAttester))
  {
  }

  // ----- steps -----

  datatype Step =
    | SetAttester(caller: Address, attester: Address)
    | SetCeiling(caller: Address, ceiling: nat)
    | SetFraudWindow(caller: Address, blocks: nat)
    | Attest(caller: Address, id: OrderId, fill: Settlement)
    | Challenge(caller: Address, id: OrderId, proof: seq<byte>)
    | Finalize(id: OrderId)

  function Apply(l: Ledger, block: nat, t: Step): Outcome {
    match t
    case SetAttester(caller, attester) => AttesterSet(l, caller, attester)
    case SetCeiling(caller, ceiling) => CeilingSet(l, caller, ceiling)
    case SetFraudWindow(caller, blocks) => WindowSet(l, caller, blocks)
    case Attest(caller, id, fill) => Attested(l, block, caller, id, fill)
    case Challenge(caller, id, proof) => Challenged(l, caller, id, proof)
    case Finalize(id) => FinalizedAt(l, block, id)
  }

  lemma StepKeepsInv(l: Ledger, block: nat, t: Step)
    requires Inv(l)
    ensures Inv(Apply(l, block, t).ledger)
  {
    match t
    case Attest(caller, id, fill) => AttestKeepsInv(l, block, caller, id, fill);
    case Challenge(_, id, _) =>
      if NotPending(l, id).None? {
        CloseKeepsInv(l, id, Reversed);
      }
    case Finalize(id) =>
      if NotPending(l, id).None? {
        CloseKeepsInv(l, id, Finalized);
      }
    case _ =>
  }

  /** A recorded fill keeps everything but its status, and the status moves only from Pending: to Reversed
      by the attester's challenge, to Finalized at a mature block. */
  lemma StatusMoves(l: Ledger, block: nat, t: Step, id: OrderId)
    requires id in l.attestations
    ensures id in Apply(l, block, t).ledger.attestations
    ensures var s, s' := l.attestations[id], Apply(l, block, t).ledger.attestations[id];
            && s' == s.(status := s'.status)
            && (s'.status != s.status ==>
                  && s.status == Pending
                  && (s'.status == Reversed ==> t.Challenge? && t.id == id && t.caller == l.attester && t.proof != [])
                  && (s'.status == Finalized ==> t.Finalize? && t.id == id && block >= Matures(l, s)))
  {
  }

  /** A fill appears only by the attester's attestation, pending, at the current block. */
  lemma FillsAreAttested(l: Ledger, block: nat, t: Step, id: OrderId)
    requires id !in l.attestations && id in Apply(l, block, t).ledger.attestations
    ensures t.Attest? && t.id == id && t.caller == l.attester != NOBODY
    ensures Apply(l, block, t).ledger.attestations[id] == t.fill.(attester := t.caller, block := block, status := Pending)
  {
  }

  /** An attestation under a positive ceiling ends at or below it, and is refused for the ceiling only when it
      would not. */
  lemma AttestRespectsCeiling(l: Ledger, block: nat, caller: Address, id: OrderId, s: Settlement)
    requires l.ceiling > 0
    ensures var o := Attested(l, block, caller, id, s);
            && (o.error == None ==> o.ledger.outstanding == l.outstanding + FillValue(s) <= l.ceiling)
            && (o.error == Some(CeilingExceeded) ==> l.outstanding + FillValue(s) > l.ceiling)
            && (o.error != None ==> o.ledger == l)
  {
  }

  predicate UnderCeiling(l: Ledger) {
    l.ceiling > 0 && l.outstanding <= l.ceiling
  }

  /** A ceiling the attester sets must cover what is outstanding. */
  predicate CeilingCovers(l: Ledger, t: Step) {
    t.SetCeiling? && t.caller == l.attester ==> t.ceiling > 0 && l.outstanding <= t.ceiling
  }

  /** Nothing but a new ceiling lifts the total above the ceiling, and a new one does exactly when it is none or
      too low. */
  lemma StepStaysUnderCeilingIff(l: Ledger, block: nat, t: Step)
    requires Inv(l) && UnderCeiling(l)
    ensures UnderCeiling(Apply(l, block, t).ledger) <==> CeilingCovers(l, t)
  {
    match t
    case Attest(caller, id, fill) => AttestRespectsCeiling(l, block, caller, id, fill);
    case Challenge(_, id, _) =>
      if NotPending(l, id).None? {
        CloseKeepsInv(l, id, Reversed);
        ValuePositive(l.attestations[id]);
      }
    case Finalize(id) =>
      if NotPending(l, id).None? {
        CloseKeepsInv(l, id, Finalized);
        ValuePositive(l.attestations[id]);
      }
    case _ =>
  }

  // ----- the fraud window -----

  predicate WaitsOut(l: Ledger, s: Settlement, block: nat) {
    block >= Matures(l, s) <==> block >= s.block + Window(l)
  }

  /** Finalization waits out the fraud window at every block exactly when the end of the window fits a
      uint64: a window set beyond it wraps and the fill matures early. */
  lemma FinalizeWaitsIff(l: Ledger, s: Settlement)
    requires s.block < U64 && Window(l) < U64
    ensures (forall block: nat :: block < U64 ==> WaitsOut(l, s, block)) <==> s.block + Window(l) < U64
  {
    var end := s.block + Window(l);
    if end < U64 {
      SmallMod(end, U64);
    } else {
      WrappedMod(end);
      assert !WaitsOut(l, s, U64 - 1);
    }
  }

  lemma WrappedMod(n: nat)
    requires U64 <= n < 2 * U64
    ensures n % U64 == n - U64
  {
  }

  // ----- runs -----

  predicate Follows(ls: seq<Ledger>, blocks: seq<nat>, ts: seq<Step>, i: nat)
    requires i < |ts| == |blocks| && |ls| == |ts| + 1
  {
    ls[i + 1] == Apply(ls[i], blocks[i], ts[i]).ledger
  }

  ghost predicate IsRun(ls: seq<Ledger>, blocks: seq<nat>, ts: seq<Step>) {
    && |ls| == |ts| + 1 && |blocks| == |ts| && ls[0] == EMPTY
    && forall i: nat :: i < |ts| ==> Follows(ls, blocks, ts, i)
  }

  /** In every reachable state the outstanding total is exactly that of the pending fills. */
  lemma {:induction false} OutstandingIsPending(ls: seq<Ledger>, blocks: seq<nat>, ts: seq<Step>, n: nat)
    requires IsRun(ls, blocks, ts) && n < |ls|
    ensures Inv(ls[n])
  {
    if n > 0 {
      OutstandingIsPending(ls, blocks, ts, n - 1);
      assert Follows(ls, blocks, ts, n - 1);
      StepKeepsInv(ls[n - 1], blocks[n - 1], ts[n - 1]);
    }
  }

  /** Once a fill leaves Pending its record never changes again. */
  lemma {:induction false} SettledForGood(ls: seq<Ledger>, blocks: seq<nat>, ts: seq<Step>, id: OrderId, i: nat, j: nat)
    requires IsRun(ls, blocks, ts) && i <= j < |ls|
    requires id in ls[i].attestations && ls[i].attestations[id].status != Pending
    ensures id in ls[j].attestations && ls[j].attestations[id] == ls[i].attestations[id]
  {
    if i < j {
      SettledForGood(ls, blocks, ts, id, i, j - 1);
      assert Follows(ls, blocks, ts, j - 1);
      StatusMoves(ls[j - 1], blocks[j - 1], ts[j - 1], id);
    }
  }

  /** From a total within its ceiling on, a run keeps it within the ceiling in force, if and only if each ceiling
      the attester sets on the way covers what is then outstanding. */
  lemma {:induction false} RunStaysUnderCeilingIff(ls: seq<Ledger>, blocks: seq<nat>, ts: seq<Step>, i: nat, j: nat)
    requires IsRun(ls, blocks, ts) && i <= j < |ls| && UnderCeiling(ls[i])
    ensures (forall k :: i <= k <= j ==> UnderCeiling(ls[k]))
            <==> (forall k :: i <= k < j ==> CeilingCovers(ls[k], ts[k]))
  {
    if i < j {
      RunStaysUnderCeilingIff(ls, blocks, ts, i, j - 1);
      if UnderCeiling(ls[j - 1]) {
        OutstandingIsPending(ls, blocks, ts, j - 1);
        assert Follows(ls, blocks, ts, j - 1);
        StepStaysUnderCeilingIff(ls[j - 1], blocks[j - 1], ts[j - 1]);
      }
    }
  }

  /** The step takes the fill out of Pending: reversed by the attester's challenge with a proof, or finalized at a
      block at or past its maturity. */
  predicate Decides(l: Ledger, block: nat, t: Step, id: OrderId, s: Settlement, status: Status) {
    match status
    case Pending => false
    case Reversed => t.Challenge? && t.id == id && t.caller == l.attester && t.proof != []
    case Finalized => t.Finalize? && t.id == id && block >= Matures(l, s)
  }

  /** Every recorded fill traces back to one step `k`, an attestation of it by the then attester whose terms it
      still has, and if it has left Pending, to one later step `d` that decided it, by the rule of its status. */
  lemma {:induction false} FillTracesBack(ls: seq<Ledger>, blocks: seq<nat>, ts: seq<Step>, id: OrderId, n: nat)
      returns (k: nat, d: nat)
    requires IsRun(ls, blocks, ts) && n < |ls| && id in ls[n].attestations
    ensures k < n && ts[k].Attest? && ts[k].id == id && ts[k].caller == ls[k].attester != NOBODY
    ensures id !in ls[k].attestations
    ensures var s := ls[n].attestations[id];
            && s == ts[k].fill.(attester := ts[k].caller, block := blocks[k], status := s.status)
            && (s.status != Pending ==> k < d < n && Decides(ls[d], blocks[d], ts[d], id, s, s.status))
  {
    k, d := 0, 0;
    if n > 0 {
      var l, t := ls[n - 1], ts[n - 1];
      assert Follows(ls, blocks, ts, n - 1);
      if id in l.attestations {
        k, d := FillTracesBack(ls, blocks, ts, id, n - 1);
        StatusMoves(l, blocks[n - 1], t, id);
        if ls[n].attestations[id].status != l.attestations[id].status {
          d := n - 1;
        }
      } else {
        k := n - 1;
        FillsAreAttested(l, blocks[n - 1], t, id);
      }
    }
  }
}
