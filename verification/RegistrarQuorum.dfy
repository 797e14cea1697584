/** Which operator sets can authorise anything at all. */
module RegistrarQuorum {
  import opened Bytes
  import opened Governance
  import opened Registrar
  import opened Registry
  import opened Wrappers

  /** The most signatures one call can carry: their count is one byte. */
  const MAX_SIGNATURES: nat := 255

  /** A write whose arguments decode and whose signatures reach the threshold. */
  predicate Authorised(m: Slots, rec: Recovery, selector: byte, args: seq<byte>) {
    && DecodeCall(selector, args).Ok?
    && Verdict(m, rec, selector, DecodeCall(selector, args).value.payload, DecodeCall(selector, args).value.sigs).Ok?
  }

  ghost predicate Authorisable(m: Slots) {
    exists rec: Recovery, selector: byte, args: seq<byte> :: Authorised(m, rec, selector, args)
  }

  // ----- the threshold must be within reach -----

  lemma DecodedSignatures(selector: byte, args: seq<byte>)
    requires DecodeCall(selector, args).Ok?
    ensures |DecodeCall(selector, args).value.sigs| <= MAX_SIGNATURES
  {
  }

  lemma {:induction false} SignersAtMost(rec: Recovery, d: Digest, ops: set<Address>, sigs: seq<seq<byte>>, n: nat)
    requires n <= |sigs|
    ensures |Signed(rec, d, ops, sigs, n)| <= n
  {
    if n > 0 {
      SignersAtMost(rec, d, ops, sigs, n - 1);
      SignedStep(rec, d, ops, sigs, n - 1);
    } else {
      assert Signed(rec, d, ops, sigs, 0) == {};
    }
  }

  /** Whoever signs, an authorised write had a threshold no larger than the distinct operators and the
      signature count. */
  lemma AuthorisedIsInReach(m: Slots, rec: Recovery, selector: byte, args: seq<byte>, g: Governors)
    requires LoadGovernance(m) == Ok(g) && Authorised(m, rec, selector, args)
    ensures g.threshold <= |OperatorSet(g)| && g.threshold <= MAX_SIGNATURES
  {
    var call := DecodeCall(selector, args).value;
    var d, ops := Digest(selector, Nonce(m), call.payload), OperatorSet(g);
    DecodedSignatures(selector, args);
    AcceptsIff(m, rec, selector, call.payload, call.sigs, g);
    var n :| 0 <= n && Enough(rec, d, ops, g.threshold, call.sigs, n);
    SignersAtMost(rec, d, ops, call.sigs, n);
    if |ops| < g.threshold {
      RepeatedOperatorsBrick(m, rec, selector, call.payload, call.sigs, g);
    }
  }

  // ----- a threshold within reach can be met -----

  predicate Distinct<T(==)>(s: seq<T>) {
    forall i, j :: 0 <= i < j < |s| ==> s[i] != s[j]
  }

  /** Any set has a list of that many of its members. */
  lemma {:induction false} Members(ops: set<Address>, n: nat) returns (l: seq<Address>)
    requires n <= |ops|
    ensures |l| == n && Distinct(l) && forall i :: 0 <= i < n ==> l[i] in ops
  {
    if n == 0 {
      l := [];
    } else {
      var a :| a in ops;
      var rest := Members(ops - {a}, n - 1);
      l := rest + [a];
    }
  }

  /** A signature of each listed operator, as `sign` makes them. */
  function Signatures(sign: Address -> seq<byte>, l: seq<Address>): (s: seq<seq<byte>>)
    ensures |s| == |l| && forall i :: 0 <= i < |l| ==> s[i] == sign(l[i])
  {
    seq(|l|, i requires 0 <= i < |l| => sign(l[i]))
  }

  /** Every operator can sign `d`. */
  ghost predicate CanSign(rec: Recovery, d: Digest, ops: set<Address>, sign: Address -> seq<byte>) {
    forall a :: a in ops ==> |sign(a)| == SIGNATURE_SIZE && rec(d, sign(a)) == Some(a)
  }

  function ListSet(l: seq<Address>): set<Address> {
    set a | a in l
  }

  lemma {:induction false} DistinctSize(l: seq<Address>)
    requires Distinct(l)
    ensures |ListSet(l)| == |l|
  {
    if l == [] {
      assert ListSet(l) == {};
    } else {
      var front := l[..|l| - 1];
      DistinctSize(front);
      assert ListSet(l) == ListSet(front) + {l[|l| - 1]};
    }
  }

  lemma EachSigns(rec: Recovery, d: Digest, ops: set<Address>, sign: Address -> seq<byte>, l: seq<Address>)
    requires CanSign(rec, d, ops, sign) && forall i :: 0 <= i < |l| ==> l[i] in ops
    ensures forall i :: 0 <= i < |l| ==> Signer(rec, d, Signatures(sign, l)[i]) == Some(l[i])
    ensures Signed(rec, d, ops, Signatures(sign, l), |l|) == ListSet(l)
  {
    var sigs := Signatures(sign, l);
    forall i | 0 <= i < |l|
      ensures Signer(rec, d, sigs[i]) == Some(l[i]) && ByOperator(rec, d, ops, sigs[i])
    {
    }
    forall a | a in ListSet(l)
      ensures a in Signed(rec, d, ops, sigs, |l|)
    {
      var i :| 0 <= i < |l| && l[i] == a;
      assert ByOperator(rec, d, ops, sigs[i]) && Signer(rec, d, sigs[i]).value == a;
    }
  }

  lemma SignersSuffice(m: Slots, rec: Recovery, selector: byte, payload: seq<byte>, sign: Address -> seq<byte>,
                       l: seq<Address>, g: Governors)
    requires LoadGovernance(m) == Ok(g) && |l| >= g.threshold && Distinct(l)
    requires forall i :: 0 <= i < |l| ==> l[i] in OperatorSet(g)
    requires CanSign(rec, Digest(selector, Nonce(m), payload), OperatorSet(g), sign)
    ensures Verdict(m, rec, selector, payload, Signatures(sign, l)).Ok?
  {
    var d, ops, sigs := Digest(selector, Nonce(m), payload), OperatorSet(g), Signatures(sign, l);
    AcceptsIff(m, rec, selector, payload, sigs, g);
    EachSigns(rec, d, ops, sign, l);
    DistinctSize(l);
    assert Enough(rec, d, ops, g.threshold, sigs, |sigs|);
  }

  function Joined(sigs: seq<seq<byte>>): seq<byte> {
    if sigs == [] then [] else Joined(sigs[..|sigs| - 1]) + sigs[|sigs| - 1]
  }

  lemma {:induction false} JoinedAt(sigs: seq<seq<byte>>, i: nat)
    requires i < |sigs| && forall j :: 0 <= j < |sigs| ==> |sigs[j]| == SIGNATURE_SIZE
    ensures |Joined(sigs)| == |sigs| * SIGNATURE_SIZE
    ensures Joined(sigs)[i * SIGNATURE_SIZE..(i + 1) * SIGNATURE_SIZE] == sigs[i]
  {
    var front, last := sigs[..|sigs| - 1], |sigs| - 1;
    if last > 0 {
      JoinedAt(front, if i < last then i else 0);
    }
    if i < last {
      assert Joined(sigs)[i * SIGNATURE_SIZE..(i + 1) * SIGNATURE_SIZE]
          == Joined(front)[i * SIGNATURE_SIZE..(i + 1) * SIGNATURE_SIZE];
    }
  }

  /** Up to 255 signatures survive the encoding. */
  lemma SignaturesDecode(sigs: seq<seq<byte>>)
    requires 1 <= |sigs| <= MAX_SIGNATURES && forall j :: 0 <= j < |sigs| ==> |sigs[j]| == SIGNATURE_SIZE
    ensures DecodeSigs([|sigs|] + Joined(sigs)) == Ok(sigs)
  {
    var b := [|sigs|] + Joined(sigs);
    JoinedAt(sigs, 0);
    forall i | 0 <= i < |sigs|
      ensures b[1 + i * SIGNATURE_SIZE..1 + (i + 1) * SIGNATURE_SIZE] == sigs[i]
    {
      JoinedAt(sigs, i);
      assert b[1 + i * SIGNATURE_SIZE..1 + (i + 1) * SIGNATURE_SIZE]
          == Joined(sigs)[i * SIGNATURE_SIZE..(i + 1) * SIGNATURE_SIZE];
    }
    assert DecodeSigs(b).Ok? && DecodeSigs(b).value == sigs;
  }

  /** With a threshold in reach, operators who can sign it can unregister any chain id. */
  lemma ReachableThresholdAuthorises(m: Slots, rec: Recovery, id: ChainId, sign: Address -> seq<byte>, g: Governors)
    returns (args: seq<byte>)
    requires LoadGovernance(m) == Ok(g) && g.threshold <= |OperatorSet(g)| && g.threshold <= MAX_SIGNATURES
    requires CanSign(rec, Digest(UNREGISTER, Nonce(m), BE(id, 4)), OperatorSet(g), sign)
    ensures Authorised(m, rec, UNREGISTER, args)
    ensures DecodeCall(UNREGISTER, args).value.action == DropChain(id)
  {
    var l := Members(OperatorSet(g), g.threshold);
    var sigs := Signatures(sign, l);
    SignersSuffice(m, rec, UNREGISTER, BE(id, 4), sign, l, g);
    SignaturesDecode(sigs);
    args := BE(id, 4) + ([|sigs|] + Joined(sigs));
    assert args[..4] == BE(id, 4) && args[0..4] == BE(id, 4) && args[4..] == [|sigs|] + Joined(sigs);
    Pow256Values();
    BERoundTrip(id, 4);
  }

  /** A recovery that reads the signer off the signature. */
  function NamedSigner(d: Digest, sig: seq<byte>): Option<Address> {
    if |sig| == SIGNATURE_SIZE then Some(sig[..20]) else None
  }

  /** A registrar can be made to do anything at all if and only if its threshold is within its distinct operators
      and within the 255 signatures a call can carry. */
  lemma AuthorisableIff(m: Slots, g: Governors)
    requires LoadGovernance(m) == Ok(g)
    ensures Authorisable(m) <==> g.threshold <= |OperatorSet(g)| && g.threshold <= MAX_SIGNATURES
  {
    if rec: Recovery, selector: byte, args: seq<byte> :| Authorised(m, rec, selector, args) {
      AuthorisedIsInReach(m, rec, selector, args, g);
    }
    if g.threshold <= |OperatorSet(g)| && g.threshold <= MAX_SIGNATURES {
      var sign := (a: Address) => a + Zeros(45);
      var d := Digest(UNREGISTER, Nonce(m), BE(0, 4));
      forall a | a in OperatorSet(g)
        ensures |sign(a)| == SIGNATURE_SIZE && NamedSigner(d, sign(a)) == Some(a)
      {
        assert (a + Zeros(45))[..20] == a;
      }
      var args := ReachableThresholdAuthorises(m, NamedSigner, 0, sign, g);
      assert Authorised(m, NamedSigner, UNREGISTER, args);
    }
  }

  /** So it is for every seed SeedGovernance accepts. */
  lemma SeedIsAuthorisableIff(m: Slots, operators: seq<Address>, threshold: nat)
    requires SeedRefusal(operators, threshold).None?
    ensures Authorisable(GovernanceSeeded(m, operators, threshold))
            <==> threshold <= |OperatorSet(Governors(operators, threshold))| && threshold <= MAX_SIGNATURES
  {
    SeedLoadsBack(m, operators, threshold);
    AuthorisableIff(GovernanceSeeded(m, operators, threshold), Governors(operators, threshold));
  }

  // ----- the two ways an accepted seed falls out of reach -----

  /** Two operators on paper, one in fact. */
  lemma RepeatedOperatorsNeverAuthorise(m: Slots, a: Address)
    ensures SeedRefusal([a, a], 2).None?
    ensures !Authorisable(GovernanceSeeded(m, [a, a], 2))
  {
    var ops := OperatorSet(Governors([a, a], 2));
    SeedIsAuthorisableIff(m, [a, a], 2);
    assert ops == {a};
  }

  function Numbered(n: nat): (l: seq<Address>)
    ensures |l| == n
  {
    seq(n, i requires 0 <= i < n => BE(i, 20))
  }

  lemma NumberedDistinct(n: nat)
    requires n <= U64
    ensures Distinct(Numbered(n))
  {
    Pow256Values();
    Pow256Monotone(8, 20);
    forall i, j | 0 <= i < j < n
      ensures Numbered(n)[i] != Numbered(n)[j]
    {
      if Numbered(n)[i] == Numbered(n)[j] {
        BEInjective(i, j, 20);
      }
    }
  }

  /** 256 different operators who must all sign never can. */
  lemma TooManySignersNeverAuthorise(m: Slots)
    ensures SeedRefusal(Numbered(256), 256).None?
    ensures |OperatorSet(Governors(Numbered(256), 256))| == 256
    ensures !Authorisable(GovernanceSeeded(m, Numbered(256), 256))
  {
    NumberedDistinct(256);
    DistinctSize(Numbered(256));
    assert OperatorSet(Governors(Numbered(256), 256)) == ListSet(Numbered(256));
    SeedIsAuthorisableIff(m, Numbered(256), 256);
  }
}
