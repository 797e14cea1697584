/** The registrar over whole runs: the table stays dense and duplicate-free, edits are finite-map edits,
    and an authorisation takes effect at most once. */
module RegistrarRuns {
  import opened Bytes
  import opened Governance
  import opened Registrar
  import opened Registry
  import opened Wrappers

  // ----- what an edit does to the registry -----

  /** The rows after an authorised edit that succeeds. */
  function RowsAfter(cs: seq<Chain>, action: Action): seq<Chain> {
    match action
    case AddChain(c) => cs + [Kept(c)]
    case DropChain(id) =>
      var i := IndexOf(cs, id);
      if i.None? then cs else SwapRemove(cs, i.value)
    case MoveGateway(id, gw) =>
      var i := IndexOf(cs, id);
      if i.None? then cs else cs[i.value := cs[i.value].(gatewayAt := gw)]
  }

  /** The directory after it: an insert, a delete or an update. */
  function DirectoryAfter(d: map<ChainId, Chain>, action: Action): map<ChainId, Chain> {
    match action
    case AddChain(c) => d[c.id := Kept(c)]
    case DropChain(id) => d - {id}
    case MoveGateway(id, gw) => if id in d then d[id := d[id].(gatewayAt := gw)] else d
  }

  /** An edit applies exactly when its id is absent (register) or present (the others). */
  predicate Applies(d: map<ChainId, Chain>, action: Action) {
    match action
    case AddChain(c) => c.id !in d
    case DropChain(id) => id in d
    case MoveGateway(id, _) => id in d
  }

  predicate NameFits(action: Action) {
    action.AddChain? ==> |action.chain.name| <= 32
  }

  lemma SameRegistry(m: Slots, m': Slots)
    requires forall o: nat :: Load(m', RegistrySlot(o)) == Load(m, RegistrySlot(o))
    ensures Count(m') == Count(m) && Chains(m') == Chains(m)
    ensures Dense(m) ==> Dense(m')
    ensures Table(m) ==> Table(m')
  {
    assert Load(m', RegistrySlot(0)) == Load(m, RegistrySlot(0));
    forall i: nat | i < Count(m)
      ensures Row(m', i) == Row(m, i)
    {
      RowUnchanged(m, m', i);
    }
    RowsAre(m', Chains(m));
  }

  /** A successful edit moves the rows as it says, whether or not ids repeat, and repeats no id itself. */
  lemma EffectRows(m: Slots, action: Action)
    requires Dense(m) && NameFits(action) && Effect(m, action).result.Ok?
    ensures var m' := Effect(m, action).slots;
            && Dense(m') && Chains(m') == RowsAfter(Chains(m), action)
            && Repeats(Chains(m')) <= Repeats(Chains(m))
            && (Table(m) ==> Table(m'))
  {
    hide Dense, Table, Bumped, Appended, Removed, GatewaySet, Repeats;
    match action
    case AddChain(c) =>
      AppendKeepsTable(m, c);
      BumpKeepsRows(Appended(m, c));
    case DropChain(id) =>
      var i := IndexOf(Chains(m), id).value;
      RemoveKeepsTable(m, i);
      BumpKeepsRows(Removed(m, i));
    case MoveGateway(id, gw) =>
      var i := IndexOf(Chains(m), id).value;
      GatewaySetKeepsTable(m, i, gw);
      BumpKeepsRows(GatewaySet(m, i, gw));
  }

  lemma BumpKeepsRows(e: Slots)
    ensures Chains(Bumped(e)) == Chains(e) && (Dense(e) ==> Dense(Bumped(e))) && (Table(e) ==> Table(Bumped(e)))
  {
    SameRegistry(e, Bumped(e));
  }

  lemma RowsAfterDirectory(cs: seq<Chain>, action: Action)
    requires DistinctIds(cs) && Applies(Directory(cs), action)
    ensures DistinctIds(RowsAfter(cs, action))
    ensures Directory(RowsAfter(cs, action)) == DirectoryAfter(Directory(cs), action)
  {
    match action
    case AddChain(c) =>
      ScanAgreesWithDirectory(cs, c.id);
      AppendIsInsert(cs, Kept(c));
    case DropChain(id) =>
      ScanAgreesWithDirectory(cs, id);
      SwapRemoveIsDelete(cs, IndexOf(cs, id).value);
    case MoveGateway(id, gw) =>
      ScanAgreesWithDirectory(cs, id);
      UpdateIsUpdate(cs, IndexOf(cs, id).value, gw);
  }

  lemma SucceedsIffApplies(m: Slots, action: Action)
    requires Table(m)
    ensures Effect(m, action).result.Ok? <==> Applies(Directory(Chains(m)), action)
    ensures Effect(m, action).result.Err? ==> Effect(m, action).slots == m
  {
    match action
    case AddChain(c) => ScanAgreesWithDirectory(Chains(m), c.id);
    case DropChain(id) => ScanAgreesWithDirectory(Chains(m), id);
    case MoveGateway(id, _) => ScanAgreesWithDirectory(Chains(m), id);
  }

  /** On a sound table an authorised edit succeeds exactly when it applies to the directory, and is then
      the insert, delete or update it names; otherwise nothing changes. */
  lemma EditRefinesDirectory(m: Slots, action: Action)
    requires Table(m) && NameFits(action)
    ensures var d, o := Directory(Chains(m)), Effect(m, action);
            && (o.result.Ok? <==> Applies(d, action))
            && Table(o.slots)
            && Directory(Chains(o.slots)) == (if Applies(d, action) then DirectoryAfter(d, action) else d)
            && (o.result.Err? ==> o.slots == m)
  {
    SucceedsIffApplies(m, action);
    TableIsDense(m);
    if Applies(Directory(Chains(m)), action) {
      EffectRows(m, action);
      RowsAfterDirectory(Chains(m), action);
    }
  }

  /** What an edit answers: a registration the new row's number, unless some row has the id; the others the number of
      the first row that has it, if one does. */
  lemma EditAnswers(m: Slots, action: Action)
    ensures var r, n := Effect(m, action).result, Count(m);
            match action
            case AddChain(c) =>
              && (r == Ok(n) <==> forall j: nat :: j < n ==> Row(m, j).id != c.id)
              && (r == Err(AlreadyRegistered) <==> exists j: nat :: j < n && Row(m, j).id == c.id)
            case DropChain(id) =>
              && (forall i: nat :: r == Ok(i) <==> IsFirstRow(m, id, i))
              && (r == Err(NotRegistered) <==> forall j: nat :: j < n ==> Row(m, j).id != id)
            case MoveGateway(id, _) =>
              && (forall i: nat :: r == Ok(i) <==> IsFirstRow(m, id, i))
              && (r == Err(NotRegistered) <==> forall j: nat :: j < n ==> Row(m, j).id != id)
  {
    var id := match action case AddChain(c) => c.id case DropChain(i) => i case MoveGateway(i, _) => i;
    FirstRowIs(m, id);
  }

  predicate IsFirstRow(m: Slots, id: ChainId, i: nat) {
    i < Count(m) && Row(m, i).id == id && forall j: nat :: j < i ==> Row(m, j).id != id
  }

  lemma FirstRowIs(m: Slots, id: ChainId)
    ensures forall i: nat :: IndexOf(Chains(m), id) == Some(i) <==> IsFirstRow(m, id, i)
    ensures IndexOf(Chains(m), id) == None <==> forall j: nat :: j < Count(m) ==> Row(m, j).id != id
  {
    var cs := Chains(m);
    forall i: nat
      ensures IndexOf(cs, id) == Some(i) <==> IsFirstRow(m, id, i)
    {
      if IsFirstRow(m, id, i) {
        IndexOfFirst(cs, id, i);
      }
      if IndexOf(cs, id) == Some(i) {
        NoneBefore(cs, id);
        EarlierRowsDiffer(m, id, i);
      }
    }
    match IndexOf(cs, id)
    case Some(i) => assert cs[i] == Row(m, i);
    case None => assert forall j: nat :: j < Count(m) ==> cs[j] == Row(m, j);
  }

  lemma EarlierRowsDiffer(m: Slots, id: ChainId, i: nat)
    requires IndexOf(Chains(m), id) == Some(i) && forall j :: 0 <= j < i ==> Chains(m)[j].id != id
    ensures IsFirstRow(m, id, i)
  {
    assert forall j: nat :: j <= i ==> Chains(m)[j] == Row(m, j);
  }

  lemma {:induction false} NoneBefore(cs: seq<Chain>, id: ChainId)
    requires IndexOf(cs, id).Some?
    ensures forall j :: 0 <= j < IndexOf(cs, id).value ==> cs[j].id != id
  {
    var front := cs[..|cs| - 1];
    if IndexOf(front, id).Some? {
      NoneBefore(front, id);
      assert forall j :: 0 <= j < |front| ==> front[j] == cs[j];
    } else {
      assert forall j :: 0 <= j < |front| ==> front[j].id != id && front[j] == cs[j];
    }
  }

  /** A write is done exactly when it is a write, not in read-only mode, decodes, reaches the threshold and applies;
      each refusal names the first of these that fails. */
  lemma WriteSucceedsIff(m: Slots, rec: Recovery, selector: byte, args: seq<byte>, readOnly: bool)
    ensures var call, r := DecodeCall(selector, args), Written(m, rec, selector, args, readOnly).result;
            && (r == Err(UnknownSelector) <==> selector != 1 && selector != 2 && selector != 3)
            && (selector in {1, 2, 3} && readOnly ==> r == Err(ReadOnly))
            && (selector in {1, 2, 3} && !readOnly && call.Err? ==> r == Err(call.error))
            && (selector in {1, 2, 3} && !readOnly && call.Ok? ==>
                  var verdict := Verdict(m, rec, selector, call.value.payload, call.value.sigs);
                  if verdict.Err? then r == Err(verdict.error)
                  else Written(m, rec, selector, args, readOnly) == Effect(m, call.value.action))
  {
    if DecodeCall(selector, args).Ok? {
      VerdictErrors(m, rec, selector, DecodeCall(selector, args).value.payload, DecodeCall(selector, args).value.sigs);
    }
  }

  /** No signature check answers UnknownSelector. */
  lemma VerdictErrors(m: Slots, rec: Recovery, selector: byte, payload: seq<byte>, sigs: seq<seq<byte>>)
    ensures Verdict(m, rec, selector, payload, sigs) != Err(UnknownSelector)
  {
    if LoadGovernance(m).Ok? {
      AcceptsIff(m, rec, selector, payload, sigs, LoadGovernance(m).value);
    }
  }

  /** A signed set-gateway call gives that chain that gateway, and touches no other entry. */
  lemma GatewayCallSets(m: Slots, rec: Recovery, id: ChainId, gw: Address, b: seq<byte>)
    requires Table(m) && id in Directory(Chains(m)) && DecodeSigs(b).Ok?
    requires Verdict(m, rec, SET_GATEWAY, BE(id, 4) + gw, DecodeSigs(b).value).Ok?
    ensures var o, d := Written(m, rec, SET_GATEWAY, BE(id, 4) + gw + b, false), Directory(Chains(m));
            && o.result.Ok? && Table(o.slots)
            && Directory(Chains(o.slots)) == d[id := d[id].(gatewayAt := gw)]
  {
    GatewayCallReads(id, gw, b);
    EditRefinesDirectory(m, MoveGateway(id, gw));
  }

  // ----- the nonce -----

  /** A table edit followed by the bump advances the nonce. */
  lemma BumpAfter(m: Slots, e: Slots)
    requires Load(e, NonceSlot) == Load(m, NonceSlot)
    ensures Nonce(Bumped(e)) == (Nonce(m) + 1) % U64
  {
    BumpAdvances(e);
  }

  lemma EffectSpendsNonce(m: Slots, action: Action)
    requires Effect(m, action).result.Ok?
    ensures Nonce(Effect(m, action).slots) == (Nonce(m) + 1) % U64
  {
    match action
    case AddChain(c) => BumpAfter(m, Appended(m, c));
    case DropChain(id) => BumpAfter(m, Removed(m, IndexOf(Chains(m), id).value));
    case MoveGateway(id, gw) => BumpAfter(m, GatewaySet(m, IndexOf(Chains(m), id).value, gw));
  }

  /** A write call that succeeds advances the nonce by one; one that fails changes nothing at all. */
  lemma SuccessSpendsNonce(m: Slots, rec: Recovery, selector: byte, args: seq<byte>, readOnly: bool)
    ensures var o := Written(m, rec, selector, args, readOnly);
            if o.result.Ok? then Nonce(o.slots) == (Nonce(m) + 1) % U64 else o.slots == m
  {
    var o := Written(m, rec, selector, args, readOnly);
    if o.result.Ok? {
      EffectSpendsNonce(m, DecodeCall(selector, args).value.action);
    }
  }

  // ----- runs -----

  datatype Step =
    | Write(selector: byte, args: seq<byte>, readOnly: bool)
    | SeedChains(chains: seq<Chain>)
    | SeedOperators(operators: seq<Address>, threshold: nat)

  function Next(m: Slots, rec: Recovery, t: Step): Outcome {
    match t
    case Write(selector, args, readOnly) => Written(m, rec, selector, args, readOnly)
    case SeedChains(cs) => RegistrySeeded(m, cs)
    case SeedOperators(ops, threshold) => OperatorsSeeded(m, ops, threshold)
  }

  /** A genesis list has at most 2^32 chains; everything else is arbitrary. */
  predicate Callable(t: Step) {
    t.SeedChains? ==> |t.chains| <= U32
  }

  predicate Decodes(t: Step) {
    t.Write? && DecodeCall(t.selector, t.args).Ok?
  }

  predicate Effective(m: Slots, rec: Recovery, t: Step) {
    t.Write? && Next(m, rec, t).result.Ok?
  }

  lemma WriteMovesRows(m: Slots, rec: Recovery, t: Step)
    requires Dense(m) && t.Write?
    ensures var m' := Next(m, rec, t).slots;
            && Dense(m') && Repeats(Chains(m')) <= Repeats(Chains(m))
            && (Effective(m, rec, t) ==>
                  Chains(m') == RowsAfter(Chains(m), DecodeCall(t.selector, t.args).value.action))
  {
    hide Dense, Repeats, RowsAfter, Chains, Verdict;
    if Effective(m, rec, t) {
      EffectRows(m, DecodeCall(t.selector, t.args).value.action);
    }
  }

  /** The ids a seed that takes effect brings in twice. */
  function SeedRepeats(m: Slots, t: Step): int {
    if t.SeedChains? && Count(m) == 0 && NamesFit(t.chains) then Repeats(t.chains) else 0
  }

  lemma NextKeepsDense(m: Slots, rec: Recovery, t: Step)
    requires Dense(m) && Callable(t)
    ensures Dense(Next(m, rec, t).slots)
    ensures Repeats(Chains(Next(m, rec, t).slots)) <= Max(Repeats(Chains(m)), SeedRepeats(m, t))
  {
    match t
    case Write(_, _, _) => WriteMovesRows(m, rec, t);
    case SeedChains(cs) =>
      if Count(m) == 0 && NamesFit(cs) {
        SeedMakesTableIff(m, cs);
      }
    case SeedOperators(ops, threshold) =>
      if SeedRefusal(ops, threshold).None? {
        SeedLoadsBack(m, ops, threshold);
        SameRegistry(m, GovernanceSeeded(m, ops, threshold));
      }
  }

  function Max(a: int, b: int): int {
    if a < b then b else a
  }

  lemma SeedKeepsNonce(m: Slots, t: Step)
    requires t.SeedChains? || t.SeedOperators?
    ensures var o := if t.SeedChains? then RegistrySeeded(m, t.chains) else OperatorsSeeded(m, t.operators, t.threshold);
            Nonce(o.slots) == Nonce(m)
  {
    match t
    case SeedChains(cs) => RowsKeepNonce(m, cs);
    case SeedOperators(ops, threshold) =>
      if SeedRefusal(ops, threshold).None? {
        SeedLoadsBack(m, ops, threshold);
      }
  }

  lemma NextNonce(m: Slots, rec: Recovery, t: Step)
    ensures Nonce(Next(m, rec, t).slots) == (Nonce(m) + if Effective(m, rec, t) then 1 else 0) % U64
  {
    hide Nonce, Written, RegistrySeeded, OperatorsSeeded;
    SmallMod(Nonce(m), U64);
    if t.Write? {
      SuccessSpendsNonce(m, rec, t.selector, t.args, t.readOnly);
    } else {
      SeedKeepsNonce(m, t);
    }
  }

  lemma {:induction false} RowsKeepNonce(m: Slots, cs: seq<Chain>)
    ensures Load(RowsWritten(m, cs), NonceSlot) == Load(m, NonceSlot)
  {
    if cs != [] {
      RowsKeepNonce(m, cs[..|cs| - 1]);
    }
  }

  predicate Follows(ms: seq<Slots>, rec: Recovery, ts: seq<Step>, took: seq<bool>, i: nat)
    requires i < |ts| == |took| && |ms| == |ts| + 1
  {
    && Callable(ts[i]) && ms[i + 1] == Next(ms[i], rec, ts[i]).slots
    && took[i] == Effective(ms[i], rec, ts[i])
  }

  /** A run from a registrar nobody has written to; `took` records which steps were writes that took effect. */
  ghost predicate IsRun(ms: seq<Slots>, rec: Recovery, ts: seq<Step>, took: seq<bool>) {
    && |took| == |ts| && |ms| == |ts| + 1 && ms[0] == map[]
    && forall i: nat :: i < |ts| ==> Follows(ms, rec, ts, took, i)
  }

  lemma EmptyIsDense()
    ensures Dense(map[]) && Repeats(Chains(map[])) == 0
  {
    LowU64Zero();
    TableIsDense(map[]);
  }

  lemma FirstNonce()
    ensures Nonce(map[]) == 0
  {
    LowU64Zero();
  }

  /** The most repeats any seed that took effect before step `n` brought in. */
  function WorstSeed(ms: seq<Slots>, ts: seq<Step>, n: nat): int
    requires n <= |ts| && n <= |ms|
  {
    if n == 0 then 0 else Max(WorstSeed(ms, ts, n - 1), SeedRepeats(ms[n - 1], ts[n - 1]))
  }

  /** In every reachable state every slot past the last row is zero and ids repeat no more than in the worst seed
      so far; with seeds of distinct ids they never repeat, and the directory holds exactly the rows. */
  lemma {:induction false} RunKeepsTable(ms: seq<Slots>, rec: Recovery, ts: seq<Step>, took: seq<bool>, n: nat)
    requires IsRun(ms, rec, ts, took) && n < |ms|
    ensures Dense(ms[n]) && Repeats(Chains(ms[n])) <= WorstSeed(ms, ts, n)
    ensures WorstSeed(ms, ts, n) == 0 ==> Table(ms[n]) && |Directory(Chains(ms[n]))| == Count(ms[n])
  {
    hide Next, Dense, Table, Repeats, SeedRepeats, Directory;
    if n == 0 {
      EmptyIsDense();
    } else {
      RunKeepsTable(ms, rec, ts, took, n - 1);
      assert Follows(ms, rec, ts, took, n - 1);
      NextKeepsDense(ms[n - 1], rec, ts[n - 1]);
    }
    if WorstSeed(ms, ts, n) == 0 {
      NoRepeatsIsTable(ms[n]);
    }
  }

  lemma NoRepeatsIsTable(m: Slots)
    requires Dense(m) && Repeats(Chains(m)) <= 0
    ensures Table(m) && |Directory(Chains(m))| == Count(m)
  {
    RepeatsNonNegative(Chains(m));
    DirectorySize(Chains(m));
  }

  /** A lookup finds exactly its directory entry, and the listing holds each entry once. */
  predicate ReadersAgree(rows: seq<Chain>, id: ChainId)
    requires DistinctIds(rows)
  {
    && (IndexOf(rows, id).Some? <==> id in Directory(rows))
    && (IndexOf(rows, id).Some? ==> rows[IndexOf(rows, id).value] == Directory(rows)[id])
    && |rows| == |Directory(rows)|
    && forall i :: 0 <= i < |rows| ==> rows[i].id in Directory(rows) && Directory(rows)[rows[i].id] == rows[i]
  }

  lemma DistinctRowsAgree(rows: seq<Chain>, id: ChainId)
    requires DistinctIds(rows)
    ensures ReadersAgree(rows, id)
  {
    ScanAgreesWithDirectory(rows, id);
    DirectorySize(rows);
  }

  /** Through any run seeded with distinct ids the readers agree with the directory. */
  lemma RunReadsDirectory(ms: seq<Slots>, rec: Recovery, ts: seq<Step>, took: seq<bool>, n: nat, id: ChainId)
    requires IsRun(ms, rec, ts, took) && n < |ms| && WorstSeed(ms, ts, n) == 0
    ensures DistinctIds(Chains(ms[n])) && ReadersAgree(Chains(ms[n]), id)
  {
    hide Next, Dense, Repeats, SeedRepeats, ReadersAgree, Directory;
    RunKeepsTable(ms, rec, ts, took, n);
    DistinctRowsAgree(Chains(ms[n]), id);
  }

  /** A seed that takes effect leaves the directory well defined exactly when its ids are distinct. */
  lemma RunSeedsTableIff(ms: seq<Slots>, rec: Recovery, ts: seq<Step>, took: seq<bool>, n: nat)
    requires IsRun(ms, rec, ts, took) && n < |ts|
    requires ts[n].SeedChains? && Count(ms[n]) == 0 && NamesFit(ts[n].chains)
    ensures Table(ms[n + 1]) <==> DistinctIds(ts[n].chains)
    ensures Chains(ms[n + 1]) == AllKept(ts[n].chains)
  {
    RunKeepsTable(ms, rec, ts, took, n);
    assert Follows(ms, rec, ts, took, n);
    SeedMakesTableIff(ms[n], ts[n].chains);
  }

  /** How an edit takes rows to rows: as it says, and as the directory edit it names where no id repeats. */
  predicate EditsRows(rows: seq<Chain>, rows': seq<Chain>, action: Action) {
    && rows' == RowsAfter(rows, action)
    && (DistinctIds(rows) ==> DistinctIds(rows') && Directory(rows') == DirectoryAfter(Directory(rows), action))
  }

  lemma WriteEditsRows(m: Slots, rec: Recovery, t: Step)
    requires Dense(m) && Effective(m, rec, t)
    ensures EditsRows(Chains(m), Chains(Next(m, rec, t).slots), DecodeCall(t.selector, t.args).value.action)
  {
    WriteMovesRows(m, rec, t);
    if DistinctIds(Chains(m)) {
      EditRefinesDirectory(m, DecodeCall(t.selector, t.args).value.action);
    }
  }

  /** Along any run the rows move by exactly the edits that take effect, and where ids do not repeat the directory
      does too: by the insert, delete or update each names. */
  lemma RunEditsDirectory(ms: seq<Slots>, rec: Recovery, ts: seq<Step>, took: seq<bool>, n: nat)
    requires IsRun(ms, rec, ts, took) && n < |ts| && ts[n].Write?
    ensures took[n] ==> Decodes(ts[n])
    ensures if took[n] then
              EditsRows(Chains(ms[n]), Chains(ms[n + 1]), DecodeCall(ts[n].selector, ts[n].args).value.action)
            else ms[n + 1] == ms[n]
  {
    hide EditsRows, Dense, Repeats;
    RunKeepsTable(ms, rec, ts, took, n);
    assert Follows(ms, rec, ts, took, n);
    SuccessSpendsNonce(ms[n], rec, ts[n].selector, ts[n].args, ts[n].readOnly);
    if took[n] {
      WriteEditsRows(ms[n], rec, ts[n]);
    }
  }

  /** How many writes took effect before step `n`. */
  function Effects(took: seq<bool>, n: nat): nat
    requires n <= |took|
  {
    if n == 0 then 0 else Effects(took, n - 1) + if took[n - 1] then 1 else 0
  }

  lemma {:induction false} NonceCounts(ms: seq<Slots>, rec: Recovery, ts: seq<Step>, took: seq<bool>, n: nat)
    requires IsRun(ms, rec, ts, took) && n <= |ts|
    ensures Nonce(ms[n]) == Effects(took, n) % U64
  {
    hide Nonce, Next, Effective;
    if n == 0 {
      FirstNonce();
    } else {
      NonceCounts(ms, rec, ts, took, n - 1);
      assert Follows(ms, rec, ts, took, n - 1);
      NextNonce(ms[n - 1], rec, ts[n - 1]);
      ModAdd(Effects(took, n - 1), if took[n - 1] then 1 else 0);
    }
  }

  lemma ModAdd(x: nat, b: nat)
    ensures (x % U64 + b) % U64 == (x + b) % U64
  {
  }

  lemma {:induction false} EffectsGrow(took: seq<bool>, i: nat, j: nat)
    requires i <= j <= |took|
    ensures Effects(took, i) <= Effects(took, j)
  {
    if i < j {
      EffectsGrow(took, i, j - 1);
    }
  }

  /** The selector and payload a write's signatures cover. */
  function Signs(t: Step): (byte, seq<byte>)
    requires Decodes(t)
  {
    (t.selector, DecodeCall(t.selector, t.args).value.payload)
  }

  /** The message that authorised write `n`. */
  function Authorisation(ms: seq<Slots>, ts: seq<Step>, n: nat): Digest
    requires n < |ts| && n < |ms| && Decodes(ts[n])
  {
    Digest(Signs(ts[n]).0, Nonce(ms[n]), Signs(ts[n]).1)
  }

  lemma EffectsBetween(took: seq<bool>, i: nat, j: nat)
    requires i < j <= |took| && took[i]
    ensures Effects(took, i) < Effects(took, j)
  {
    EffectsGrow(took, i + 1, j);
  }

  /** The nonce repeats exactly after a whole multiple of 2^64 effective writes. */
  lemma NonceRepeatsIff(ms: seq<Slots>, rec: Recovery, ts: seq<Step>, took: seq<bool>, i: nat, j: nat)
    requires IsRun(ms, rec, ts, took) && i <= j <= |ts|
    ensures Effects(took, i) <= Effects(took, j)
    ensures Nonce(ms[i]) == Nonce(ms[j]) <==> (Effects(took, j) - Effects(took, i)) % U64 == 0
  {
    NonceCounts(ms, rec, ts, took, i);
    NonceCounts(ms, rec, ts, took, j);
    EffectsGrow(took, i, j);
    EqualMod(Effects(took, i), Effects(took, j));
  }

  lemma EqualMod(x: nat, y: nat)
    requires x <= y
    ensures x % U64 == y % U64 <==> (y - x) % U64 == 0
  {
  }

  lemma BelowPeriod(x: nat)
    requires 0 < x < U64
    ensures x % U64 != 0
  {
  }

  /** Two writes that take effect were authorised by the same message exactly when they carry the same
      selector and payload and a whole multiple of 2^64 writes took effect from the one to the other. */
  lemma AuthorisationRepeatsIff(ms: seq<Slots>, rec: Recovery, ts: seq<Step>, took: seq<bool>, i: nat, j: nat)
    requires IsRun(ms, rec, ts, took) && i < j < |ts|
    requires took[i] && took[j]
    ensures Effects(took, i) < Effects(took, j)
    ensures Decodes(ts[i]) && Decodes(ts[j])
    ensures Authorisation(ms, ts, i) == Authorisation(ms, ts, j) <==>
            && Signs(ts[i]) == Signs(ts[j])
            && (Effects(took, j) - Effects(took, i)) % U64 == 0
  {
    assert Follows(ms, rec, ts, took, i) && Follows(ms, rec, ts, took, j);
    EffectsBetween(took, i, j);
    NonceRepeatsIff(ms, rec, ts, took, i, j);
  }

  /** Hence, short of 2^64 writes, an authorisation takes effect at most once. */
  lemma AuthorisedOnce(ms: seq<Slots>, rec: Recovery, ts: seq<Step>, took: seq<bool>, i: nat, j: nat)
    requires IsRun(ms, rec, ts, took) && i < j < |ts| && Effects(took, |ts|) <= U64
    requires took[i] && took[j]
    ensures Decodes(ts[i]) && Decodes(ts[j]) && Authorisation(ms, ts, i) != Authorisation(ms, ts, j)
  {
    AuthorisationRepeatsIff(ms, rec, ts, took, i, j);
    EffectsBetween(took, j, |ts|);
    BelowPeriod(Effects(took, j) - Effects(took, i));
  }
}
