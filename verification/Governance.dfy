/** The registrar's operator set, its single-use nonce, and the M-of-N signature check. */
module Governance {
  import opened Bytes
  import opened Registry
  import opened Wrappers

  datatype RegistrarError =
    | InputTooShort | UnknownSelector | ReadOnly | AlreadyRegistered | NotRegistered | IndexOutOfRange
    | Unauthorized | InvalidSignatureBytes | DuplicateSigner | ChainNameTooLong | TooManyOperators | InvalidThreshold

  // ----- what operators sign -----

  /** The hashed message, named by its parts rather than by its hash. */
  datatype Digest = Digest(selector: byte, nonce: nat, payload: seq<byte>)

  function DigestPreimage(d: Digest): seq<byte> {
    Ascii("lux.bridge.registrar.v1") + [d.selector] + BE(d.nonce, 8) + d.payload
  }

  /** Naming digests by their parts is sound: different parts, different hashed bytes. */
  lemma DigestInjective(d: Digest, e: Digest)
    requires d.nonce < U64 && e.nonce < U64
    ensures DigestPreimage(d) == DigestPreimage(e) <==> d == e
  {
    var p, q := DigestPreimage(d), DigestPreimage(e);
    assert p[23] == d.selector && p[24..32] == BE(d.nonce, 8) && p[32..] == d.payload;
    assert q[23] == e.selector && q[24..32] == BE(e.nonce, 8) && q[32..] == e.payload;
    Pow256Values();
    if p == q {
      BEInjective(d.nonce, e.nonce, 8);
    }
  }

  /** Public-key recovery and address derivation; None for an unusable signature. */
  type Recovery = (Digest, seq<byte>) -> Option<Address>

  const SIGNATURE_SIZE: nat := 65
  const MAX_OPERATORS: nat := 0x1_0000

  // ----- the nonce -----

  function Nonce(m: Slots): (n: nat)
    ensures n < U64
  {
    LowU64(Load(m, NonceSlot))
  }

  function Bumped(m: Slots): Slots {
    m[NonceSlot := U64Word(Nonce(m) + 1)]
  }

  /** The counter advances by one and wraps at 64 bits. */
  lemma BumpAdvances(m: Slots)
    ensures Nonce(Bumped(m)) == (Nonce(m) + 1) % U64
  {
    Pow256Values();
    BETruncates(Nonce(m) + 1, 8);
    assert U64Word(Nonce(m) + 1)[24..32] == BE(Nonce(m) + 1, 8);
  }

  // ----- the operator set -----

  datatype Governors = Governors(operators: seq<Address>, threshold: nat)

  function OperatorSet(g: Governors): set<Address> {
    set a | a in g.operators
  }

  function OperatorAt(m: Slots, i: nat): Address {
    Load(m, GovSlot(i + 1))[12..32]
  }

  function Operators(m: Slots, n: nat): (ops: seq<Address>)
    ensures |ops| == n
  {
    seq(n, i requires 0 <= i < n => OperatorAt(m, i))
  }

  function LoadGovernance(m: Slots): Result<Governors, RegistrarError> {
    var header := Load(m, GovSlot(0));
    var count, threshold := FromBE(header[24..28]), FromBE(header[28..32]);
    if count == 0 || threshold == 0 then Err(Unauthorized)
    else if count > MAX_OPERATORS then Err(TooManyOperators)
    else if threshold > count then Err(Unauthorized)
    else Ok(Governors(Operators(m, count), threshold))
  }

  function SeedRefusal(operators: seq<Address>, threshold: nat): Option<RegistrarError> {
    if threshold == 0 || threshold > |operators| then Some(InvalidThreshold)
    else if |operators| > MAX_OPERATORS then Some(TooManyOperators)
    else None
  }

  function OperatorsWritten(m: Slots, operators: seq<Address>): Slots {
    if operators == [] then m
    else
      var last := |operators| - 1;
      OperatorsWritten(m, operators[..last])[GovSlot(last + 1) := Zeros(12) + operators[last]]
  }

  function GovernanceHeader(count: nat, threshold: nat): Word {
    Zeros(24) + BE(count, 4) + BE(threshold, 4)
  }

  function GovernanceSeeded(m: Slots, operators: seq<Address>, threshold: nat): Slots {
    OperatorsWritten(m[GovSlot(0) := GovernanceHeader(|operators|, threshold)], operators)
  }

  lemma {:induction false} OperatorsWrittenAt(m: Slots, operators: seq<Address>, k: Slot)
    ensures Load(OperatorsWritten(m, operators), k)
            == if k.GovSlot? && 1 <= k.offset <= |operators| then Zeros(12) + operators[k.offset - 1] else Load(m, k)
  {
    if operators != [] {
      OperatorsWrittenAt(m, operators[..|operators| - 1], k);
    }
  }

  lemma HeaderReads(count: nat, threshold: nat)
    requires count < U32 && threshold < U32
    ensures var h := GovernanceHeader(count, threshold);
            FromBE(h[24..28]) == count && FromBE(h[28..32]) == threshold
  {
    var h := GovernanceHeader(count, threshold);
    assert h[24..28] == BE(count, 4) && h[28..32] == BE(threshold, 4);
    Pow256Values();
    BERoundTrip(count, 4);
    BERoundTrip(threshold, 4);
  }

  /** An accepted seed loads back exactly, whatever larger set it replaces, and touches neither the nonce
      nor the registry. */
  lemma SeedLoadsBack(m: Slots, operators: seq<Address>, threshold: nat)
    requires SeedRefusal(operators, threshold).None?
    ensures LoadGovernance(GovernanceSeeded(m, operators, threshold)) == Ok(Governors(operators, threshold))
    ensures forall k: Slot :: !k.GovSlot? ==> Load(GovernanceSeeded(m, operators, threshold), k) == Load(m, k)
  {
    var n := |operators|;
    var w := m[GovSlot(0) := GovernanceHeader(n, threshold)];
    var m' := GovernanceSeeded(m, operators, threshold);
    OperatorsWrittenAt(w, operators, GovSlot(0));
    HeaderReads(n, threshold);
    forall i: nat | i < n
      ensures OperatorAt(m', i) == operators[i]
    {
      OperatorsWrittenAt(w, operators, GovSlot(i + 1));
      assert (Zeros(12) + operators[i])[12..32] == operators[i];
    }
    assert Operators(m', n) == operators;
    SeedTouchesNoOther(m, operators, threshold);
  }

  /** A seed is accepted exactly when its threshold is at least one and at most its operators, which are at most
      65,536. */
  lemma SeedAcceptedIff(operators: seq<Address>, threshold: nat)
    ensures SeedRefusal(operators, threshold).None? <==> 1 <= threshold <= |operators| <= 65_536
    ensures SeedRefusal(operators, threshold) == Some(InvalidThreshold) <==> !(1 <= threshold <= |operators|)
  {
  }

  /** The stored set is used exactly with 1 <= threshold <= operators <= 65,536 in its header, whatever wrote it. */
  lemma LoadSucceedsIff(m: Slots, count: nat, threshold: nat)
    requires count == FromBE(Load(m, GovSlot(0))[24..28]) && threshold == FromBE(Load(m, GovSlot(0))[28..32])
    ensures LoadGovernance(m).Ok? <==> 1 <= threshold <= count <= 65_536
    ensures LoadGovernance(m).Ok? ==>
              && LoadGovernance(m).value.threshold == threshold && |LoadGovernance(m).value.operators| == count
              && forall i :: 0 <= i < count ==> LoadGovernance(m).value.operators[i] == Load(m, GovSlot(i + 1))[12..32]
    ensures LoadGovernance(m) == Err(TooManyOperators) <==> threshold > 0 && count > 65_536
    ensures LoadGovernance(m).Err? ==> LoadGovernance(m).error in {TooManyOperators, Unauthorized}
  {
  }

  lemma SeedTouchesNoOther(m: Slots, operators: seq<Address>, threshold: nat)
    ensures forall k: Slot :: !k.GovSlot? ==> Load(GovernanceSeeded(m, operators, threshold), k) == Load(m, k)
  {
    forall k: Slot | !k.GovSlot?
      ensures Load(GovernanceSeeded(m, operators, threshold), k) == Load(m, k)
    {
      OperatorsWrittenAt(m[GovSlot(0) := GovernanceHeader(|operators|, threshold)], operators, k);
    }
  }

  // ----- the signature scan -----

  function Signer(rec: Recovery, d: Digest, sig: seq<byte>): Option<Address> {
    if |sig| != SIGNATURE_SIZE then None else rec(d, sig)
  }

  /** Only a 65-byte signature has a signer. */
  lemma SignerIs(rec: Recovery, d: Digest, sig: seq<byte>)
    ensures Signer(rec, d, sig) == if |sig| == 65 then rec(d, sig) else None
  {
  }

  /** What the loop over signatures returns from the state `seen`. */
  function Scan(rec: Recovery, d: Digest, ops: set<Address>, threshold: nat, sigs: seq<seq<byte>>, seen: set<Address>)
    : Result<bool, RegistrarError>
  {
    if sigs == [] then Err(Unauthorized)
    else match Signer(rec, d, sigs[0])
      case None => Err(InvalidSignatureBytes)
      case Some(a) =>
        if a !in ops then Scan(rec, d, ops, threshold, sigs[1..], seen)
        else if a in seen then Err(DuplicateSigner)
        else if |seen| + 1 >= threshold then Ok(true)
        else Scan(rec, d, ops, threshold, sigs[1..], seen + {a})
  }

  predicate ByOperator(rec: Recovery, d: Digest, ops: set<Address>, sig: seq<byte>) {
    Signer(rec, d, sig).Some? && Signer(rec, d, sig).value in ops
  }

  /** The operators among the first `n` signers. */
  function Signed(rec: Recovery, d: Digest, ops: set<Address>, sigs: seq<seq<byte>>, n: nat): set<Address>
    requires n <= |sigs|
  {
    set i | 0 <= i < n && ByOperator(rec, d, ops, sigs[i]) :: Signer(rec, d, sigs[i]).value
  }

  /** The first `n` signatures all recover, and no operator is among them twice. */
  predicate Clean(rec: Recovery, d: Digest, ops: set<Address>, sigs: seq<seq<byte>>, n: nat)
    requires n <= |sigs|
  {
    && (forall i :: 0 <= i < n ==> Signer(rec, d, sigs[i]).Some?)
    && (forall i, j :: 0 <= i < j < n && ByOperator(rec, d, ops, sigs[i]) && ByOperator(rec, d, ops, sigs[j]) ==>
          Signer(rec, d, sigs[i]) != Signer(rec, d, sigs[j]))
  }

  /** A clean prefix with enough operators. */
  predicate Enough(rec: Recovery, d: Digest, ops: set<Address>, threshold: nat, sigs: seq<seq<byte>>, n: nat) {
    n <= |sigs| && Clean(rec, d, ops, sigs, n) && |Signed(rec, d, ops, sigs, n)| >= threshold
  }

  /** A clean prefix still short of the threshold. */
  predicate Short(rec: Recovery, d: Digest, ops: set<Address>, threshold: nat, sigs: seq<seq<byte>>, n: nat) {
    n <= |sigs| && Clean(rec, d, ops, sigs, n) && |Signed(rec, d, ops, sigs, n)| < threshold
  }

  lemma SignedStep(rec: Recovery, d: Digest, ops: set<Address>, sigs: seq<seq<byte>>, n: nat)
    requires n < |sigs|
    ensures Signed(rec, d, ops, sigs, n + 1) == Signed(rec, d, ops, sigs, n)
            + if ByOperator(rec, d, ops, sigs[n]) then {Signer(rec, d, sigs[n]).value} else {}
  {
  }

  lemma CleanStep(rec: Recovery, d: Digest, ops: set<Address>, sigs: seq<seq<byte>>, n: nat)
    requires n < |sigs| && Clean(rec, d, ops, sigs, n)
    ensures Clean(rec, d, ops, sigs, n + 1) <==>
            (Signer(rec, d, sigs[n]).Some?
             && (Signer(rec, d, sigs[n]).value in ops ==> Signer(rec, d, sigs[n]).value !in Signed(rec, d, ops, sigs, n)))
  {
  }

  lemma CleanDown(rec: Recovery, d: Digest, ops: set<Address>, sigs: seq<seq<byte>>, n: nat, k: nat)
    requires n <= k <= |sigs| && Clean(rec, d, ops, sigs, k)
    ensures Clean(rec, d, ops, sigs, n)
  {
  }

  /** What result `r` of scanning from signature `n` on says about the signatures. */
  ghost predicate Tells(rec: Recovery, d: Digest, ops: set<Address>, threshold: nat, sigs: seq<seq<byte>>, n: nat,
                        r: Result<bool, RegistrarError>)
  {
    && (r.Ok? <==> exists k :: n <= k && Enough(rec, d, ops, threshold, sigs, k))
    && (r == Err(Unauthorized) <==> Short(rec, d, ops, threshold, sigs, |sigs|))
    && (r == Err(InvalidSignatureBytes) <==>
        exists k :: n <= k < |sigs| && Short(rec, d, ops, threshold, sigs, k) && Signer(rec, d, sigs[k]).None?)
    && r in {Ok(true), Err(Unauthorized), Err(InvalidSignatureBytes), Err(DuplicateSigner)}
  }

  /** No prefix past an unclean one is clean. */
  lemma NothingPast(rec: Recovery, d: Digest, ops: set<Address>, threshold: nat, sigs: seq<seq<byte>>, n: nat)
    requires n <= |sigs| && !Clean(rec, d, ops, sigs, n)
    ensures forall k :: n <= k ==> !Short(rec, d, ops, threshold, sigs, k) && !Enough(rec, d, ops, threshold, sigs, k)
  {
    forall k | n <= k <= |sigs|
      ensures !Clean(rec, d, ops, sigs, k)
    {
      if Clean(rec, d, ops, sigs, k) {
        CleanDown(rec, d, ops, sigs, n, k);
      }
    }
  }

  lemma StopsAtBadSignature(rec: Recovery, d: Digest, ops: set<Address>, threshold: nat, sigs: seq<seq<byte>>, n: nat)
    requires n < |sigs| && Short(rec, d, ops, threshold, sigs, n) && Signer(rec, d, sigs[n]).None?
    ensures Tells(rec, d, ops, threshold, sigs, n, Err(InvalidSignatureBytes))
  {
    CleanStep(rec, d, ops, sigs, n);
    NothingPast(rec, d, ops, threshold, sigs, n + 1);
  }

  lemma StopsAtRepeat(rec: Recovery, d: Digest, ops: set<Address>, threshold: nat, sigs: seq<seq<byte>>, n: nat)
    requires n < |sigs| && Short(rec, d, ops, threshold, sigs, n) && ByOperator(rec, d, ops, sigs[n])
    requires Signer(rec, d, sigs[n]).value in Signed(rec, d, ops, sigs, n)
    ensures Tells(rec, d, ops, threshold, sigs, n, Err(DuplicateSigner))
  {
    CleanStep(rec, d, ops, sigs, n);
    NothingPast(rec, d, ops, threshold, sigs, n + 1);
  }

  lemma StopsWithEnough(rec: Recovery, d: Digest, ops: set<Address>, threshold: nat, sigs: seq<seq<byte>>, n: nat)
    requires n < |sigs| && Short(rec, d, ops, threshold, sigs, n) && Enough(rec, d, ops, threshold, sigs, n + 1)
    ensures Tells(rec, d, ops, threshold, sigs, n, Ok(true))
  {
    EnoughStays(rec, d, ops, threshold, sigs, n + 1);
  }

  lemma GoesOn(rec: Recovery, d: Digest, ops: set<Address>, threshold: nat, sigs: seq<seq<byte>>, n: nat,
               r: Result<bool, RegistrarError>)
    requires n < |sigs| && Short(rec, d, ops, threshold, sigs, n) && Signer(rec, d, sigs[n]).Some?
    requires Tells(rec, d, ops, threshold, sigs, n + 1, r)
    ensures Tells(rec, d, ops, threshold, sigs, n, r)
  {
  }

  /** Once a prefix has enough operators no longer prefix is short. */
  lemma EnoughStays(rec: Recovery, d: Digest, ops: set<Address>, threshold: nat, sigs: seq<seq<byte>>, n: nat)
    requires Enough(rec, d, ops, threshold, sigs, n)
    ensures forall k :: n <= k ==> !Short(rec, d, ops, threshold, sigs, k)
  {
    forall k | n <= k <= |sigs|
      ensures |Signed(rec, d, ops, sigs, k)| >= threshold
    {
      assert Signed(rec, d, ops, sigs, n) <= Signed(rec, d, ops, sigs, k);
      SubsetSize(Signed(rec, d, ops, sigs, n), Signed(rec, d, ops, sigs, k));
    }
  }

  lemma ScanStep(rec: Recovery, d: Digest, ops: set<Address>, threshold: nat, sigs: seq<seq<byte>>, n: nat,
                 seen: set<Address>)
    requires n < |sigs|
    ensures Scan(rec, d, ops, threshold, sigs[n..], seen) ==
            match Signer(rec, d, sigs[n])
            case None => Err(InvalidSignatureBytes)
            case Some(a) =>
              if a !in ops then Scan(rec, d, ops, threshold, sigs[n + 1..], seen)
              else if a in seen then Err(DuplicateSigner)
              else if |seen| + 1 >= threshold then Ok(true)
              else Scan(rec, d, ops, threshold, sigs[n + 1..], seen + {a})
  {
    assert sigs[n..][1..] == sigs[n + 1..];
  }

  lemma StopsAtEnd(rec: Recovery, d: Digest, ops: set<Address>, threshold: nat, sigs: seq<seq<byte>>,
                   seen: set<Address>)
    requires Short(rec, d, ops, threshold, sigs, |sigs|)
    ensures Tells(rec, d, ops, threshold, sigs, |sigs|, Scan(rec, d, ops, threshold, sigs[|sigs|..], seen))
  {
    assert sigs[|sigs|..] == [];
  }

  /** Where the scan stands after a clean prefix short of the threshold decides what it returns. */
  lemma {:induction false} ScanFrom(rec: Recovery, d: Digest, ops: set<Address>, threshold: nat,
                                    sigs: seq<seq<byte>>, n: nat)
    requires Short(rec, d, ops, threshold, sigs, n)
    ensures Tells(rec, d, ops, threshold, sigs, n,
                  Scan(rec, d, ops, threshold, sigs[n..], Signed(rec, d, ops, sigs, n)))
    decreases |sigs| - n
  {
    hide Tells, Scan, Signed;
    if n == |sigs| {
      StopsAtEnd(rec, d, ops, threshold, sigs, Signed(rec, d, ops, sigs, n));
    } else {
      ScanStep(rec, d, ops, threshold, sigs, n, Signed(rec, d, ops, sigs, n));
      if Signer(rec, d, sigs[n]).None? {
        StopsAtBadSignature(rec, d, ops, threshold, sigs, n);
      } else if ByOperator(rec, d, ops, sigs[n]) && Signer(rec, d, sigs[n]).value in Signed(rec, d, ops, sigs, n) {
        StopsAtRepeat(rec, d, ops, threshold, sigs, n);
      } else {
        SignedStep(rec, d, ops, sigs, n);
        CleanStep(rec, d, ops, sigs, n);
        if Short(rec, d, ops, threshold, sigs, n + 1) {
          ScanFrom(rec, d, ops, threshold, sigs, n + 1);
          GoesOn(rec, d, ops, threshold, sigs, n,
                 Scan(rec, d, ops, threshold, sigs[n + 1..], Signed(rec, d, ops, sigs, n + 1)));
        } else {
          StopsWithEnough(rec, d, ops, threshold, sigs, n);
        }
      }
    }
  }

  function Verdict(m: Slots, rec: Recovery, selector: byte, payload: seq<byte>, sigs: seq<seq<byte>>)
    : Result<bool, RegistrarError>
  {
    match LoadGovernance(m)
    case Err(e) => Err(e)
    case Ok(g) => Scan(rec, Digest(selector, Nonce(m), payload), OperatorSet(g), g.threshold, sigs, {})
  }

  /** The multisig accepts exactly when some prefix of the signatures is entirely recoverable, repeats no
      operator and holds threshold-many operators; and says which way it fails. */
  lemma AcceptsIff(m: Slots, rec: Recovery, selector: byte, payload: seq<byte>, sigs: seq<seq<byte>>, g: Governors)
    requires LoadGovernance(m) == Ok(g)
    ensures var d, ops := Digest(selector, Nonce(m), payload), OperatorSet(g);
            var r := Verdict(m, rec, selector, payload, sigs);
            && (r.Ok? <==> exists n :: 0 <= n && Enough(rec, d, ops, g.threshold, sigs, n))
            && (r == Err(Unauthorized) <==> Short(rec, d, ops, g.threshold, sigs, |sigs|))
            && (r == Err(InvalidSignatureBytes) <==>
                exists n :: 0 <= n < |sigs| && Short(rec, d, ops, g.threshold, sigs, n) && Signer(rec, d, sigs[n]).None?)
            && r in {Ok(true), Err(Unauthorized), Err(InvalidSignatureBytes), Err(DuplicateSigner)}
  {
    var d, ops := Digest(selector, Nonce(m), payload), OperatorSet(g);
    assert Signed(rec, d, ops, sigs, 0) == {};
    assert sigs[0..] == sigs;
    ScanFrom(rec, d, ops, g.threshold, sigs, 0);
  }

  /** An operator list with fewer distinct members than its threshold, which seeding accepts, authorises
      nothing. */
  lemma RepeatedOperatorsBrick(m: Slots, rec: Recovery, selector: byte, payload: seq<byte>, sigs: seq<seq<byte>>,
                               g: Governors)
    requires LoadGovernance(m) == Ok(g) && |OperatorSet(g)| < g.threshold
    ensures Verdict(m, rec, selector, payload, sigs).Err?
  {
    var d, ops := Digest(selector, Nonce(m), payload), OperatorSet(g);
    AcceptsIff(m, rec, selector, payload, sigs, g);
    forall n | 0 <= n <= |sigs|
      ensures !Enough(rec, d, ops, g.threshold, sigs, n)
    {
      SubsetSize(Signed(rec, d, ops, sigs, n), ops);
    }
  }
}
