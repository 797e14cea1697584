/** The C<->D funding wire: the 60-byte claim and the claim-id preimage. */
module Wire {
  import opened Bytes
  import opened Wrappers

  /** beneficiary(20) | asset(32) | amount(8) */
  datatype Claim = Claim(beneficiary: Address, asset: Word, amount: nat)

  const CLAIM_SIZE: nat := 60

  function EncodeClaim(c: Claim): (v: seq<byte>)
    ensures |v| == CLAIM_SIZE
  {
    c.beneficiary + c.asset + BE(c.amount, 8)
  }

  /** Any width but the canonical one is refused. */
  function DecodeClaim(v: seq<byte>): Option<Claim> {
    if |v| != CLAIM_SIZE then None
    else Some(Claim(v[0..20], v[20..52], FromBE(v[52..60])))
  }

  lemma ClaimRoundTrip(c: Claim)
    requires c.amount < U64
    ensures DecodeClaim(EncodeClaim(c)) == Some(c)
  {
    var v := EncodeClaim(c);
    assert v[0..20] == c.beneficiary && v[20..52] == c.asset && v[52..60] == BE(c.amount, 8);
    Pow256Values();
    BERoundTrip(c.amount, 8);
  }

  /** The decoder reads nothing but canonical encodings, so no two records decode alike. */
  lemma DecodedIsCanonical(v: seq<byte>)
    requires |v| == CLAIM_SIZE
    ensures DecodeClaim(v).Some? && DecodeClaim(v).value.amount < U64
    ensures EncodeClaim(DecodeClaim(v).value) == v
  {
    FromBERoundTrip(v[52..60]);
    FromBEBound(v[52..60]);
    Pow256Values();
    assert v == v[0..20] + v[20..52] + v[52..60];
  }

  const CLAIM_DOMAIN: seq<byte> := Ascii("lux.dex.claim.v1")

  /** claimDomain | source | dest | sourceTx | index, the input of the claim-id hash. */
  function ClaimIDPreimage(source: Word, dest: Word, tx: Word, index: nat): seq<byte> {
    CLAIM_DOMAIN + source + dest + tx + BE(index, 4)
  }

  /** One corridor, one transaction, one call index: one preimage. */
  lemma ClaimIDPreimageInjective(s: Word, d: Word, t: Word, i: nat, s': Word, d': Word, t': Word, i': nat)
    requires i < U32 && i' < U32
    ensures ClaimIDPreimage(s, d, t, i) == ClaimIDPreimage(s', d', t', i')
            <==> s == s' && d == d' && t == t' && i == i'
  {
    var p, p' := ClaimIDPreimage(s, d, t, i), ClaimIDPreimage(s', d', t', i');
    assert p[16..48] == s && p[48..80] == d && p[80..112] == t && p[112..] == BE(i, 4);
    assert p'[16..48] == s' && p'[48..80] == d' && p'[80..112] == t' && p'[112..] == BE(i', 4);
    Pow256Values();
    if p == p' {
      BEInjective(i, i', 4);
    }
  }
}
