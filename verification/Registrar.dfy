/** The bridge registrar: signed, nonce-protected edits of the chain registry. */
module Registrar {
  import opened Bytes
  import opened Governance
  import opened Registry
  import opened Wrappers

  // ----- argument decoding -----

  datatype Action =
    | AddChain(chain: Chain)
    | DropChain(id: ChainId)
    | MoveGateway(id: ChainId, gateway: Address)

  /** A decoded write: what to do, the bytes the operators signed, and their signatures. */
  datatype Call = Call(action: Action, payload: seq<byte>, sigs: seq<seq<byte>>)

  const REGISTER: byte := 1
  const UNREGISTER: byte := 2
  const SET_GATEWAY: byte := 3
  const GET_COUNT: byte := 4
  const GET_CHAIN: byte := 5
  const GET_NONCE: byte := 6

  /** count(1) | signatures(65 each); bytes past the last are ignored. */
  function DecodeSigs(b: seq<byte>): Result<seq<seq<byte>>, RegistrarError> {
    if |b| < 1 || |b| < 1 + b[0] * SIGNATURE_SIZE then Err(InputTooShort)
    else Ok(seq(b[0], i requires 0 <= i < b[0] => b[1 + i * SIGNATURE_SIZE..1 + (i + 1) * SIGNATURE_SIZE]))
  }

  function WithSigs(action: Action, args: seq<byte>, off: nat): Result<Call, RegistrarError>
    requires off <= |args|
  {
    match DecodeSigs(args[off..])
    case Err(e) => Err(e)
    case Ok(sigs) => Ok(Call(action, args[..off], sigs))
  }

  function ReadId(args: seq<byte>): ChainId
    requires |args| >= 4
  {
    FromBEBound(args[0..4]);
    Pow256Values();
    FromBE(args[0..4])
  }

  /** chain_id(4) | name_len(1) | name | evm(1) | gateway(20) | signatures */
  function DecodeRegister(args: seq<byte>): Result<Call, RegistrarError> {
    if |args| < 5 then Err(InputTooShort)
    else if args[4] > 32 then Err(ChainNameTooLong)
    else
      var off := 5 + args[4];
      if |args| < off + 21 then Err(InputTooShort)
      else WithSigs(AddChain(Chain(ReadId(args), args[5..off], args[off] == 1, args[off + 1..off + 21])), args, off + 21)
  }

  function DecodeUnregister(args: seq<byte>): Result<Call, RegistrarError> {
    if |args| < 4 then Err(InputTooShort)
    else WithSigs(DropChain(ReadId(args)), args, 4)
  }

  function DecodeSetGateway(args: seq<byte>): Result<Call, RegistrarError> {
    if |args| < 24 then Err(InputTooShort)
    else WithSigs(MoveGateway(ReadId(args), args[4..24]), args, 24)
  }

  function DecodeCall(selector: byte, args: seq<byte>): Result<Call, RegistrarError> {
    if selector == REGISTER then DecodeRegister(args)
    else if selector == UNREGISTER then DecodeUnregister(args)
    else if selector == SET_GATEWAY then DecodeSetGateway(args)
    else Err(UnknownSelector)
  }

  /** chain_id(4) | name_len(1) | name | evm(1) | gateway(20), the reply of GetChain. */
  function EncodeChain(c: Chain): seq<byte> {
    var name := if |c.name| > 32 then c.name[..32] else c.name;
    BE(c.id, 4) + [|name|] + name + [if c.evm then 1 else 0] + c.gatewayAt
  }

  /** GetChain's reply is a registration payload for the same chain, whatever signatures follow it. */
  lemma ReplyIsPayload(c: Chain, b: seq<byte>)
    requires |c.name| <= 32
    ensures DecodeRegister(EncodeChain(c) + b) ==
            match DecodeSigs(b)
            case Err(e) => Err(e)
            case Ok(sigs) => Ok(Call(AddChain(c), EncodeChain(c), sigs))
  {
    var p, off := EncodeChain(c), 5 + |c.name|;
    var args := p + b;
    assert args[0..4] == BE(c.id, 4);
    assert args[4] == |c.name|;
    assert args[5..off] == c.name;
    assert args[off + 1..off + 21] == c.gatewayAt;
    assert args[..off + 21] == p;
    assert args[off + 21..] == b;
    Pow256Values();
    BERoundTrip(c.id, 4);
  }

  /** A set-gateway call names its chain in its first four bytes and the gateway in the twenty after them; those are
      what is signed, and the signatures follow. */
  lemma GatewayCallReads(id: ChainId, gw: Address, b: seq<byte>)
    ensures DecodeCall(SET_GATEWAY, BE(id, 4) + gw + b) ==
            match DecodeSigs(b)
            case Err(e) => Err(e)
            case Ok(sigs) => Ok(Call(MoveGateway(id, gw), BE(id, 4) + gw, sigs))
  {
    var args := BE(id, 4) + gw + b;
    assert args[0..4] == BE(id, 4);
    assert args[4..24] == gw;
    assert args[..24] == BE(id, 4) + gw;
    assert args[24..] == b;
    Pow256Values();
    BERoundTrip(id, 4);
  }

  /** An unregister call names its chain in its first four bytes, and that is what is signed. */
  lemma UnregisterCallReads(id: ChainId, b: seq<byte>)
    ensures DecodeCall(UNREGISTER, BE(id, 4) + b) ==
            match DecodeSigs(b)
            case Err(e) => Err(e)
            case Ok(sigs) => Ok(Call(DropChain(id), BE(id, 4), sigs))
  {
    var args := BE(id, 4) + b;
    assert args[0..4] == BE(id, 4);
    assert args[..4] == BE(id, 4);
    assert args[4..] == b;
    Pow256Values();
    BERoundTrip(id, 4);
  }

  /** A register call spells id, name length, name, flag and gateway. */
  lemma RegisterCallReads(id: ChainId, name: seq<byte>, flag: byte, gw: Address, b: seq<byte>)
    requires |name| <= 32
    ensures DecodeCall(REGISTER, BE(id, 4) + [|name|] + name + [flag] + gw + b) ==
            match DecodeSigs(b)
            case Err(e) => Err(e)
            case Ok(sigs) =>
              Ok(Call(AddChain(Chain(id, name, flag == 1, gw)), BE(id, 4) + [|name|] + name + [flag] + gw, sigs))
  {
    var p, off := BE(id, 4) + [|name|] + name + [flag] + gw, 5 + |name|;
    var args := p + b;
    assert args[0..4] == BE(id, 4);
    assert args[4] == |name|;
    assert args[5..off] == name;
    assert args[off] == flag;
    assert args[off + 1..off + 21] == gw;
    assert args[..off + 21] == p;
    assert args[off + 21..] == b;
    Pow256Values();
    BERoundTrip(id, 4);
  }

  /** The signatures are as many 65-byte slices as the first byte says; fewer bytes than that are refused. */
  lemma SignaturesRead(b: seq<byte>)
    ensures DecodeSigs(b).Ok? <==> |b| >= 1 && 1 + 65 * b[0] <= |b|
    ensures DecodeSigs(b).Err? ==> DecodeSigs(b) == Err(InputTooShort)
    ensures DecodeSigs(b).Ok? ==>
              && |DecodeSigs(b).value| == b[0]
              && forall i :: 0 <= i < b[0] ==> DecodeSigs(b).value[i] == b[1 + i * 65..1 + (i + 1) * 65]
  {
  }

  /** Short arguments and over-long names are refused, and no other selector is a write. */
  lemma ShortCallsRefused(args: seq<byte>)
    ensures forall selector: byte :: selector !in {1, 2, 3} ==> DecodeCall(selector, args) == Err(UnknownSelector)
    ensures |args| < 4 ==> DecodeCall(UNREGISTER, args) == Err(InputTooShort)
    ensures |args| < 24 ==> DecodeCall(SET_GATEWAY, args) == Err(InputTooShort)
    ensures |args| < 5 ==> DecodeCall(REGISTER, args) == Err(InputTooShort)
    ensures |args| >= 5 && args[4] > 32 ==> DecodeCall(REGISTER, args) == Err(ChainNameTooLong)
    ensures |args| >= 5 && args[4] <= 32 && |args| < 26 + args[4] ==> DecodeCall(REGISTER, args) == Err(InputTooShort)
  {
  }

  /** What the operators signed fixes what is done: equal payloads under one selector decode to one action. */
  lemma PayloadFixesAction(selector: byte, x: seq<byte>, y: seq<byte>)
    requires DecodeCall(selector, x).Ok? && DecodeCall(selector, y).Ok?
    requires DecodeCall(selector, x).value.payload == DecodeCall(selector, y).value.payload
    ensures DecodeCall(selector, x).value.action == DecodeCall(selector, y).value.action
  {
    var p := DecodeCall(selector, x).value.payload;
    assert x[..|p|] == p == y[..|p|];
    SamePrefix(x, y, |p|, 0, 4);
    if selector == REGISTER {
      var off := 5 + p[4];
      assert x[4] == p[4] == y[4] && x[off] == p[off] == y[off];
      SamePrefix(x, y, |p|, 5, off);
      SamePrefix(x, y, |p|, off + 1, off + 21);
    } else if selector == SET_GATEWAY {
      SamePrefix(x, y, |p|, 4, 24);
    }
  }

  lemma SamePrefix(x: seq<byte>, y: seq<byte>, n: nat, lo: nat, hi: nat)
    requires lo <= hi <= n <= |x| && n <= |y| && x[..n] == y[..n]
    ensures x[lo..hi] == y[lo..hi]
  {
    SliceOfPrefix(x, n, lo, hi);
    SliceOfPrefix(y, n, lo, hi);
  }

  // ----- what a call does -----

  datatype Outcome = Outcome(slots: Slots, result: Result<nat, RegistrarError>)

  /** The edit itself, once authorised; a success retires the nonce. */
  function Effect(m: Slots, action: Action): Outcome {
    match action
    case AddChain(c) =>
      if IndexOf(Chains(m), c.id).Some? then Outcome(m, Err(AlreadyRegistered))
      else Outcome(Bumped(Appended(m, c)), Ok(Count(m)))
    case DropChain(id) =>
      (match IndexOf(Chains(m), id)
       case None => Outcome(m, Err(NotRegistered))
       case Some(i) => Outcome(Bumped(Removed(m, i)), Ok(i)))
    case MoveGateway(id, gw) =>
      match IndexOf(Chains(m), id)
      case None => Outcome(m, Err(NotRegistered))
      case Some(i) => Outcome(Bumped(GatewaySet(m, i, gw)), Ok(i))
  }

  function Written(m: Slots, rec: Recovery, selector: byte, args: seq<byte>, readOnly: bool): Outcome {
    if selector !in {REGISTER, UNREGISTER, SET_GATEWAY} then Outcome(m, Err(UnknownSelector))
    else if readOnly then Outcome(m, Err(ReadOnly))
    else match DecodeCall(selector, args)
      case Err(e) => Outcome(m, Err(e))
      case Ok(call) =>
        match Verdict(m, rec, selector, call.payload, call.sigs)
        case Err(e) => Outcome(m, Err(e))
        case Ok(_) => Effect(m, call.action)
  }

  /** GetChain: the row at a big-endian index, as its registration payload. */
  function ChainReply(m: Slots, args: seq<byte>): Result<seq<byte>, RegistrarError> {
    if |args| < 8 then Err(InputTooShort)
    else if FromBE(args[..8]) >= Count(m) then Err(IndexOutOfRange)
    else Ok(EncodeChain(Chains(m)[FromBE(args[..8])]))
  }

  /** What the precompile answers to an input, and the state it leaves: the selector is read first, and a number is
      answered as a 32-byte word. */
  function Answer(m: Slots, rec: Recovery, input: seq<byte>, readOnly: bool): (Slots, Result<seq<byte>, RegistrarError>)
  {
    if input == [] then (m, Err(InputTooShort))
    else if input[0] == GET_COUNT then (m, Ok(U64Word(Count(m))))
    else if input[0] == GET_CHAIN then (m, ChainReply(m, input[1..]))
    else if input[0] == GET_NONCE then (m, Ok(U64Word(Nonce(m))))
    else
      var o := Written(m, rec, input[0], input[1..], readOnly);
      (o.slots, match o.result case Ok(i) => Ok(U64Word(i)) case Err(e) => Err(e))
  }

  /** The three views answer the row count, a row's registration payload, and the nonce, and change nothing; an empty
      input is too short, and everything else is a write or unknown. */
  lemma ViewsAnswer(m: Slots, rec: Recovery, args: seq<byte>, i: nat, readOnly: bool)
    requires i < U64
    ensures Answer(m, rec, [], readOnly) == (m, Err(InputTooShort))
    ensures Answer(m, rec, [4] + args, readOnly) == (m, Ok(Zeros(24) + BE(Count(m), 8)))
    ensures Answer(m, rec, [6] + args, readOnly) == (m, Ok(Zeros(24) + BE(Nonce(m), 8)))
    ensures Answer(m, rec, [5] + BE(i, 8) + args, readOnly)
            == (m, if i < Count(m) then Ok(EncodeChain(Row(m, i))) else Err(IndexOutOfRange))
    ensures |args| < 8 ==> Answer(m, rec, [5] + args, readOnly) == (m, Err(InputTooShort))
  {
    Pow256Values();
    BERoundTrip(i, 8);
    var input := [5] + BE(i, 8) + args;
    assert input[1..] == BE(i, 8) + args;
    assert input[1..][..8] == BE(i, 8);
    assert ([5] + args)[1..] == args;
  }

  /** Every other selector is answered as the write it is, a success with the row's number as a word. */
  lemma WritesAnswer(m: Slots, rec: Recovery, selector: byte, args: seq<byte>, readOnly: bool)
    requires selector !in {4, 5, 6}
    ensures var o, r := Written(m, rec, selector, args, readOnly), Answer(m, rec, [selector] + args, readOnly);
            && r.0 == o.slots
            && (o.result.Ok? ==> r.1 == Ok(Zeros(24) + BE(o.result.value, 8)))
            && (o.result.Err? ==> r.1 == Err(o.result.error))
  {
    assert ([selector] + args)[1..] == args;
  }

  /** A row is spelled id, name length, name, flag and gateway; of a name longer than 32 bytes, its first 32. */
  lemma ChainLayout(c: Chain)
    ensures EncodeChain(c) == BE(c.id, 4) + [if |c.name| < 32 then |c.name| else 32]
                              + c.name[..if |c.name| < 32 then |c.name| else 32]
                              + [if c.evm then 1 else 0] + c.gatewayAt
  {
  }

  /** Seeding a populated registry does nothing and says so; otherwise it answers how many chains it wrote. */
  lemma SeedsAnswer(m: Slots, cs: seq<Chain>, operators: seq<Address>, threshold: nat)
    ensures Count(m) > 0 ==> RegistrySeeded(m, cs) == Outcome(m, Ok(0))
    ensures Count(m) == 0 && (exists i :: 0 <= i < |cs| && |cs[i].name| > 32) ==>
              RegistrySeeded(m, cs) == Outcome(m, Err(ChainNameTooLong))
    ensures Count(m) == 0 && (forall i :: 0 <= i < |cs| ==> |cs[i].name| <= 32) ==>
              RegistrySeeded(m, cs) == Outcome(Seeded(m, cs), Ok(|cs|))
    ensures OperatorsSeeded(m, operators, threshold)
            == if 1 <= threshold <= |operators| <= 65_536 then Outcome(GovernanceSeeded(m, operators, threshold), Ok(0))
               else Outcome(m, Err(if 1 <= threshold <= |operators| then TooManyOperators else InvalidThreshold))
  {
  }

  function RegistrySeeded(m: Slots, cs: seq<Chain>): Outcome {
    if Count(m) > 0 then Outcome(m, Ok(0))
    else if !NamesFit(cs) then Outcome(m, Err(ChainNameTooLong))
    else Outcome(Seeded(m, cs), Ok(|cs|))
  }

  function OperatorsSeeded(m: Slots, operators: seq<Address>, threshold: nat): Outcome {
    match SeedRefusal(operators, threshold)
    case Some(e) => Outcome(m, Err(e))
    case None => Outcome(GovernanceSeeded(m, operators, threshold), Ok(0))
  }

  // ----- the precompile -----

  class Precompile {
    var slots: Slots
    const recover: Recovery

    constructor (rec: Recovery)
      ensures slots == map[] && recover == rec
    {
      slots, recover := map[], rec;
    }

    function GetState(k: Slot): Word
      reads this
    {
      Load(slots, k)
    }

    method SetState(k: Slot, w: Word)
      modifies this
      ensures slots == old(slots)[k := w]
    {
      slots := slots[k := w];
    }

    /** The first row that holds `id`. */
    method FindIndex(id: ChainId) returns (r: Option<nat>)
      ensures r == IndexOf(Chains(slots), id)
    {
      var n := Count(slots);
      for i := 0 to n
        invariant forall j :: 0 <= j < i ==> Chains(slots)[j].id != id
      {
        var row := Row(slots, i);
        if row.id == id {
          IndexOfFirst(Chains(slots), id, i);
          return Some(i);
        }
      }
      IndexOfNone(Chains(slots), id);
      r := None;
    }

    method Get(id: ChainId) returns (r: Option<Chain>)
      ensures var i := IndexOf(Chains(slots), id);
              r == if i.Some? then Some(Chains(slots)[i.value]) else None
    {
      var i := FindIndex(id);
      if i.None? { return None; }
      r := Some(Row(slots, i.value));
    }

    method All() returns (out: seq<Chain>)
      ensures out == Chains(slots)
    {
      out := [];
      for i := 0 to Count(slots)
        invariant out == Chains(slots)[..i]
      {
        out := out + [Row(slots, i)];
      }
    }

    method ReadGovernance() returns (r: Result<Governors, RegistrarError>)
      ensures r == LoadGovernance(slots)
    {
      var header := GetState(GovSlot(0));
      var count, threshold := FromBE(header[24..28]), FromBE(header[28..32]);
      if count == 0 || threshold == 0 { return Err(Unauthorized); }
      if count > MAX_OPERATORS { return Err(TooManyOperators); }
      if threshold > count { return Err(Unauthorized); }
      var ops: seq<Address> := [];
      for i := 0 to count
        invariant ops == Operators(slots, i)
      {
        ops := ops + [GetState(GovSlot(i + 1))[12..32]];
      }
      r := Ok(Governors(ops, threshold));
    }

    /** Counts operators through the signatures, stopping at the threshold or the first fault. */
    method VerifyMultisig(selector: byte, payload: seq<byte>, sigs: seq<seq<byte>>)
        returns (r: Result<bool, RegistrarError>)
      ensures r == Verdict(slots, recover, selector, payload, sigs)
    {
      var d := Digest(selector, Nonce(slots), payload);
      var g := ReadGovernance();
      if g.Err? { return Err(g.error); }
      var opSet, threshold := OperatorSet(g.value), g.value.threshold;
      var seen: set<Address> := {};
      var valid := 0;
      for i := 0 to |sigs|
        invariant valid == |seen|
        invariant Scan(recover, d, opSet, threshold, sigs, {}) == Scan(recover, d, opSet, threshold, sigs[i..], seen)
      {
        assert sigs[i..][0] == sigs[i] && sigs[i..][1..] == sigs[i + 1..];
        if |sigs[i]| != SIGNATURE_SIZE { return Err(InvalidSignatureBytes); }
        var a := recover(d, sigs[i]);
        if a.None? { return Err(InvalidSignatureBytes); }
        if a.value in opSet {
          if a.value in seen { return Err(DuplicateSigner); }
          seen := seen + {a.value};
          valid := valid + 1;
          if valid >= threshold { return Ok(true); }
        }
      }
      r := Err(Unauthorized);
    }

    method BumpNonce()
      modifies this
      ensures slots == Bumped(old(slots))
    {
      SetState(NonceSlot, U64Word(Nonce(slots) + 1));
    }

    method WriteCount(n: nat)
      modifies this
      ensures slots == CountSet(old(slots), n)
    {
      SetState(RegistrySlot(0), U64Word(n));
    }

    method WriteRow(i: nat, c: Chain)
      modifies this
      ensures slots == RowWritten(old(slots), i, c)
    {
      SetState(RowSlot(i, 0), PackHeader(c));
      SetState(RowSlot(i, 1), PackName(c));
    }

    method RegisterChain(c: Chain) returns (r: Result<nat, RegistrarError>)
      modifies this
      ensures Outcome(slots, r) == Effect(old(slots), AddChain(c))
    {
      var found := Get(c.id);
      if found.Some? { return Err(AlreadyRegistered); }
      var idx := Count(slots);
      WriteRow(idx, c);
      WriteCount(idx + 1);
      BumpNonce();
      r := Ok(idx);
    }

    method MoveRow(from: nat, to: nat)
      modifies this
      ensures slots == RowMoved(old(slots), from, to)
    {
      if to != from {
        var hdr, name := GetState(RowSlot(from, 0)), GetState(RowSlot(from, 1));
        SetState(RowSlot(to, 0), hdr);
        SetState(RowSlot(to, 1), name);
      }
    }

    method ClearRow(i: nat)
      modifies this
      ensures slots == RowCleared(old(slots), i)
    {
      SetState(RowSlot(i, 0), ZERO_WORD);
      SetState(RowSlot(i, 1), ZERO_WORD);
      SetState(RowSlot(i, 2), ZERO_WORD);
    }

    /** Moves the last row into the vacated one, zeroes the trailing row, shrinks the count. */
    method UnregisterChain(id: ChainId) returns (r: Result<nat, RegistrarError>)
      modifies this
      ensures Outcome(slots, r) == Effect(old(slots), DropChain(id))
    {
      hide RowMoved, RowCleared, CountSet, Bumped;
      var n := Count(slots);
      var idx := FindIndex(id);
      if idx.None? { return Err(NotRegistered); }
      var last := n - 1;
      MoveRow(last, idx.value);
      ClearRow(last);
      WriteCount(last);
      BumpNonce();
      r := Ok(idx.value);
    }

    method SetGateway(id: ChainId, gw: Address) returns (r: Result<nat, RegistrarError>)
      modifies this
      ensures Outcome(slots, r) == Effect(old(slots), MoveGateway(id, gw))
    {
      var idx := FindIndex(id);
      if idx.None? { return Err(NotRegistered); }
      var hdr := GetState(RowSlot(idx.value, 0));
      SetState(RowSlot(idx.value, 0), hdr[..5] + gw + hdr[25..]);
      BumpNonce();
      r := Ok(idx.value);
    }

    /** Dispatch on the leading selector byte. */
    method Run(input: seq<byte>, readOnly: bool) returns (r: Result<seq<byte>, RegistrarError>)
      modifies this
      ensures (slots, r) == Answer(old(slots), recover, input, readOnly)
    {
      if |input| < 1 { return Err(InputTooShort); }
      var sel, args := input[0], input[1..];
      if sel in {REGISTER, UNREGISTER, SET_GATEWAY} {
        var w := RunWrite(sel, args, readOnly);
        return match w case Ok(i) => Ok(U64Word(i)) case Err(e) => Err(e);
      } else if sel == GET_COUNT {
        return Ok(U64Word(Count(slots)));
      } else if sel == GET_CHAIN {
        r := RunGetChain(args);
      } else if sel == GET_NONCE {
        return Ok(U64Word(Nonce(slots)));
      } else {
        return Err(UnknownSelector);
      }
    }

    /** A write: refused when read-only, undecodable or unauthorised, in that order. */
    method RunWrite(selector: byte, args: seq<byte>, readOnly: bool) returns (r: Result<nat, RegistrarError>)
      requires selector in {REGISTER, UNREGISTER, SET_GATEWAY}
      modifies this
      ensures Outcome(slots, r) == Written(old(slots), recover, selector, args, readOnly)
    {
      if readOnly { return Err(ReadOnly); }
      var call := DecodeCall(selector, args);
      if call.Err? { return Err(call.error); }
      var ok := VerifyMultisig(selector, call.value.payload, call.value.sigs);
      if ok.Err? { return Err(ok.error); }
      match call.value.action
      case AddChain(c) => r := RegisterChain(c);
      case DropChain(id) => r := UnregisterChain(id);
      case MoveGateway(id, gw) => r := SetGateway(id, gw);
    }

    method RunGetChain(args: seq<byte>) returns (r: Result<seq<byte>, RegistrarError>)
      ensures r == ChainReply(slots, args)
    {
      if |args| < 8 { return Err(InputTooShort); }
      var idx := FromBE(args[..8]);
      var n := Count(slots);
      if idx >= n { return Err(IndexOutOfRange); }
      r := Ok(EncodeChain(Row(slots, idx)));
    }

    /** Writes a first set of chains; a no-op on a registry that has any. */
    method SeedRegistry(chains: seq<Chain>) returns (r: Result<nat, RegistrarError>)
      modifies this
      ensures Outcome(slots, r) == RegistrySeeded(old(slots), chains)
    {
      hide RowWritten;
      if Count(slots) > 0 { return Ok(0); }
      for i := 0 to |chains|
        invariant NamesFit(chains[..i])
      {
        if |chains[i].name| > 32 { return Err(ChainNameTooLong); }
      }
      assert chains[..|chains|] == chains;
      for i := 0 to |chains|
        invariant slots == RowsWritten(old(slots), chains[..i])
      {
        assert chains[..i + 1][..i] == chains[..i];
        WriteRow(i, chains[i]);
      }
      WriteCount(|chains|);
      r := Ok(|chains|);
    }

    method SeedGovernance(operators: seq<Address>, threshold: nat) returns (r: Result<nat, RegistrarError>)
      modifies this
      ensures Outcome(slots, r) == OperatorsSeeded(old(slots), operators, threshold)
    {
      if threshold == 0 || threshold > |operators| { return Err(InvalidThreshold); }
      if |operators| > MAX_OPERATORS { return Err(TooManyOperators); }
      SetState(GovSlot(0), GovernanceHeader(|operators|, threshold));
      label Header:
      for i := 0 to |operators|
        invariant slots == OperatorsWritten(old@Header(slots), operators[..i])
      {
        assert operators[..i + 1][..i] == operators[..i];
        SetState(GovSlot(i + 1), Zeros(12) + operators[i]);
      }
      assert operators[..|operators|] == operators;
      r := Ok(0);
    }
  }
}
