/** The fixed-width wire of the inference bridge: receipts, intent ids and Merkle proofs as bytes. */
module InferenceWire {
  import opened Bytes
  import opened FixedWidth
  import opened Wrappers

  /** `D` is what a 32-byte commitment is: its bytes on the wire, a named hash in the store. */
  datatype Receipt<+D> = Receipt(
    version: nat, intentId: D, taskId: Word, cChainId: Word, aChainId: Word, requester: Address,
    modelSpecHash: Word, promptHash: Word, outputHash: Word, status: nat, n: nat, threshold: nat,
    winnersRoot: Word, operatorsRoot: Word, feePaid: Word, settledAt: nat)

  datatype Intent = Intent(
    cChainId: Word, aChainId: Word, txHash: Word, callIndex: nat, caller: Address,
    modelSpecHash: Word, promptHash: Word, n: nat, threshold: nat, fee: Word)

  datatype Proof<+D> = Proof(root: D, path: seq<D>, index: nat)

  const U16: nat := 0x1_0000
  const RECEIPT_VERSION: nat := 1
  const RECEIPT_SIZE: nat := 355
  const RECEIPT_WIDTHS: seq<nat> := [2, 32, 32, 32, 32, 20, 32, 32, 32, 1, 2, 2, 32, 32, 32, 8]
  const INTENT_WIDTHS: seq<nat> := [24, 32, 32, 32, 4, 20, 32, 32, 2, 2, 32]

  // ----- receipts -----

  predicate ReceiptFits<D>(r: Receipt<D>) {
    r.version < U16 && r.status < 256 && r.n < U16 && r.threshold < U16 && r.settledAt < U64
  }

  function ReceiptFields(r: Receipt<Word>): (fs: seq<seq<byte>>)
    ensures Widths(fs, RECEIPT_WIDTHS)
  {
    [BE(r.version, 2), r.intentId, r.taskId, r.cChainId, r.aChainId, r.requester, r.modelSpecHash, r.promptHash,
     r.outputHash, BE(r.status, 1), BE(r.n, 2), BE(r.threshold, 2), r.winnersRoot, r.operatorsRoot, r.feePaid,
     BE(r.settledAt, 8)]
  }

  function FromFields(fs: seq<seq<byte>>): Receipt<Word>
    requires Widths(fs, RECEIPT_WIDTHS)
  {
    Receipt(FromBE(fs[0]), fs[1], fs[2], fs[3], fs[4], fs[5], fs[6], fs[7], fs[8], FromBE(fs[9]), FromBE(fs[10]),
            FromBE(fs[11]), fs[12], fs[13], fs[14], FromBE(fs[15]))
  }

  lemma FirstWidths()
    ensures Total(RECEIPT_WIDTHS[..8]) == 214
  {
    var ws := RECEIPT_WIDTHS;
    TotalPrefix(ws, 0);
    TotalPrefix(ws, 1);
    TotalPrefix(ws, 2);
    TotalPrefix(ws, 3);
    TotalPrefix(ws, 4);
    TotalPrefix(ws, 5);
    TotalPrefix(ws, 6);
    TotalPrefix(ws, 7);
  }

  lemma ReceiptSize()
    ensures Total(RECEIPT_WIDTHS) == RECEIPT_SIZE
  {
    var ws := RECEIPT_WIDTHS;
    FirstWidths();
    TotalPrefix(ws, 8);
    TotalPrefix(ws, 9);
    TotalPrefix(ws, 10);
    TotalPrefix(ws, 11);
    TotalPrefix(ws, 12);
    TotalPrefix(ws, 13);
    TotalPrefix(ws, 14);
    TotalPrefix(ws, 15);
    assert ws[..16] == ws;
  }

  function Encoding(r: Receipt<Word>): seq<byte> {
    Flatten(ReceiptFields(r))
  }

  /** Only the exact length and the one known version decode. */
  function Decoding(b: seq<byte>): Option<Receipt<Word>> {
    if |b| != RECEIPT_SIZE then None
    else
      ReceiptSize();
      var r := FromFields(Cut(b, RECEIPT_WIDTHS));
      if r.version != RECEIPT_VERSION then None else Some(r)
  }

  lemma FieldsRoundTrip(r: Receipt<Word>)
    requires ReceiptFits(r)
    ensures FromFields(ReceiptFields(r)) == r
  {
    Pow256Values();
    BERoundTrip(r.version, 2);
    BERoundTrip(r.status, 1);
    BERoundTrip(r.n, 2);
    BERoundTrip(r.threshold, 2);
    BERoundTrip(r.settledAt, 8);
  }

  lemma FieldsCanonical(fs: seq<seq<byte>>)
    requires Widths(fs, RECEIPT_WIDTHS)
    ensures ReceiptFits(FromFields(fs)) && ReceiptFields(FromFields(fs)) == fs
  {
    Pow256Values();
    FromBERoundTrip(fs[0]);
    FromBERoundTrip(fs[9]);
    FromBERoundTrip(fs[10]);
    FromBERoundTrip(fs[11]);
    FromBERoundTrip(fs[15]);
    FromBEBound(fs[0]);
    FromBEBound(fs[9]);
    FromBEBound(fs[10]);
    FromBEBound(fs[11]);
    FromBEBound(fs[15]);
  }

  /** A receipt decodes from its own encoding exactly when it declares the known version. */
  lemma ReceiptRoundTrip(r: Receipt<Word>)
    requires ReceiptFits(r)
    ensures Decoding(Encoding(r)) == if r.version == RECEIPT_VERSION then Some(r) else None
  {
    ReceiptSize();
    CutFlatten(ReceiptFields(r), RECEIPT_WIDTHS);
    FieldsRoundTrip(r);
  }

  /** The decoder reads nothing but canonical encodings. */
  lemma DecodedReceiptIsCanonical(b: seq<byte>)
    requires Decoding(b).Some?
    ensures ReceiptFits(Decoding(b).value) && Encoding(Decoding(b).value) == b
  {
    ReceiptSize();
    FieldsCanonical(Cut(b, RECEIPT_WIDTHS));
    FlattenCut(b, RECEIPT_WIDTHS);
  }

  const RECEIPT_DOMAIN: seq<byte> := Ascii("lux/aivmbridge/receipt/v1")

  /** Distinct receipts hash distinct bytes. */
  lemma ReceiptPreimageInjective(r: Receipt<Word>, q: Receipt<Word>)
    requires ReceiptFits(r) && ReceiptFits(q)
    ensures RECEIPT_DOMAIN + Encoding(r) == RECEIPT_DOMAIN + Encoding(q) <==> r == q
  {
    assert (RECEIPT_DOMAIN + Encoding(r))[25..] == Encoding(r);
    assert (RECEIPT_DOMAIN + Encoding(q))[25..] == Encoding(q);
    FlattenInjective(ReceiptFields(r), ReceiptFields(q), RECEIPT_WIDTHS);
    FieldsRoundTrip(r);
    FieldsRoundTrip(q);
  }

  /** The encoder: sixteen fields copied at an advancing offset. */
  method EncodeReceipt(r: Receipt<Word>) returns (b: array<byte>)
    ensures fresh(b) && b[..] == Encoding(r)
  {
    ReceiptSize();
    b := new byte[RECEIPT_SIZE];
    var fs := ReceiptFields(r);
    var o, k := 0, 0;
    while k < |fs|
      invariant 0 <= k <= |fs| && o == Total(RECEIPT_WIDTHS[..k])
      invariant o <= b.Length && b[..o] == Flatten(fs[..k])
    {
      TotalPrefix(RECEIPT_WIDTHS, k);
      TotalPrefix(RECEIPT_WIDTHS, k + 1);
      o := WriteField(b, fs, k, o);
      k := k + 1;
    }
    assert fs[..k] == fs && RECEIPT_WIDTHS[..k] == RECEIPT_WIDTHS;
    assert b[..o] == b[..];
  }

  lemma DecodingIs(b: seq<byte>)
    requires |b| == RECEIPT_SIZE
    ensures Total(RECEIPT_WIDTHS) == |b|
    ensures var fs := Cut(b, RECEIPT_WIDTHS);
            Decoding(b) == if FromBE(fs[0]) != RECEIPT_VERSION then None else Some(FromFields(fs))
  {
    ReceiptSize();
  }

  /** The decoder: the version first, then the remaining fields at an advancing offset. */
  method DecodeReceipt(b: seq<byte>) returns (r: Option<Receipt<Word>>)
    ensures r == Decoding(b)
  {
    hide Total, Cut, FromFields;
    if |b| != RECEIPT_SIZE { return None; }
    DecodingIs(b);
    NothingRead(b, RECEIPT_WIDTHS);
    var fs: seq<seq<byte>>, o := [], 0;
    fs, o := ReadNext(b, RECEIPT_WIDTHS, fs, o);
    ReadIsPrefix(b, RECEIPT_WIDTHS, fs, o);
    assert fs[0] == Cut(b, RECEIPT_WIDTHS)[0];
    if FromBE(fs[0]) != RECEIPT_VERSION { return None; }
    while |fs| < 16
      invariant 1 <= |fs| <= 16 && ReadSoFar(b, RECEIPT_WIDTHS, fs, o)
      decreases 16 - |fs|
    {
      fs, o := ReadNext(b, RECEIPT_WIDTHS, fs, o);
    }
    ReadIsPrefix(b, RECEIPT_WIDTHS, fs, o);
    assert fs == Cut(b, RECEIPT_WIDTHS);
    r := Some(FromFields(fs));
  }

  // ----- intents -----

  predicate IntentFits(i: Intent) {
    i.callIndex < U32 && i.n < U16 && i.threshold < U16
  }

  function IntentFields(i: Intent): (fs: seq<seq<byte>>)
    ensures Widths(fs, INTENT_WIDTHS)
  {
    [Ascii("lux/aivmbridge/intent/v1"), i.cChainId, i.aChainId, i.txHash, BE(i.callIndex, 4), i.caller, i.modelSpecHash,
     i.promptHash, BE(i.n, 2), BE(i.threshold, 2), i.fee]
  }

  lemma {:induction false} Pushed(fs: seq<seq<byte>>, f: seq<byte>)
    ensures Flatten(fs + [f]) == Flatten(fs) + f
  {
    assert (fs + [f])[..|fs|] == fs;
  }

  lemma FirstFour(a: seq<byte>, b: seq<byte>, c: seq<byte>, d: seq<byte>)
    ensures Flatten([a, b, c, d]) == a + b + c + d
  {
    Pushed([], a);
    Pushed([a], b);
    Pushed([a, b], c);
    Pushed([a, b, c], d);
    assert [] + [a] == [a] && [a] + [b] == [a, b] && [a, b] + [c] == [a, b, c] && [a, b, c] + [d] == [a, b, c, d];
  }

  lemma FourMore(fs: seq<seq<byte>>, a: seq<byte>, b: seq<byte>, c: seq<byte>, d: seq<byte>)
    ensures Flatten(fs + [a, b, c, d]) == Flatten(fs) + a + b + c + d
  {
    Pushed(fs, a);
    Pushed(fs + [a], b);
    Pushed(fs + [a] + [b], c);
    Pushed(fs + [a] + [b] + [c], d);
    assert fs + [a, b, c, d] == fs + [a] + [b] + [c] + [d];
  }

  /** The receipt's bytes: version, ids, chains, requester, model, prompt, output, status, counts, roots, fee and
      height, in that order. */
  lemma ReceiptLayout(r: Receipt<Word>)
    ensures Encoding(r)
            == BE(r.version, 2) + r.intentId + r.taskId + r.cChainId + r.aChainId + r.requester + r.modelSpecHash
               + r.promptHash + r.outputHash + BE(r.status, 1) + BE(r.n, 2) + BE(r.threshold, 2) + r.winnersRoot
               + r.operatorsRoot + r.feePaid + BE(r.settledAt, 8)
  {
    var one := [BE(r.version, 2), r.intentId, r.taskId, r.cChainId];
    var two := one + [r.aChainId, r.requester, r.modelSpecHash, r.promptHash];
    var three := two + [r.outputHash, BE(r.status, 1), BE(r.n, 2), BE(r.threshold, 2)];
    FirstFour(BE(r.version, 2), r.intentId, r.taskId, r.cChainId);
    FourMore(one, r.aChainId, r.requester, r.modelSpecHash, r.promptHash);
    FourMore(two, r.outputHash, BE(r.status, 1), BE(r.n, 2), BE(r.threshold, 2));
    FourMore(three, r.winnersRoot, r.operatorsRoot, r.feePaid, BE(r.settledAt, 8));
    assert ReceiptFields(r) == three + [r.winnersRoot, r.operatorsRoot, r.feePaid, BE(r.settledAt, 8)];
  }

  /** What DeriveIntentID hashes. */
  function IntentPreimage(i: Intent): seq<byte> {
    Flatten(IntentFields(i))
  }

  /** The intent's hashed bytes: the domain, both chains, the transaction and call, the caller, model, prompt, counts
      and fee, in that order. */
  lemma IntentLayout(i: Intent)
    ensures IntentPreimage(i)
            == Ascii("lux/aivmbridge/intent/v1") + i.cChainId + i.aChainId + i.txHash + BE(i.callIndex, 4) + i.caller
               + i.modelSpecHash + i.promptHash + BE(i.n, 2) + BE(i.threshold, 2) + i.fee
  {
    var domain := Ascii("lux/aivmbridge/intent/v1");
    var one := [domain, i.cChainId, i.aChainId, i.txHash];
    var two := one + [BE(i.callIndex, 4), i.caller, i.modelSpecHash, i.promptHash];
    FirstFour(domain, i.cChainId, i.aChainId, i.txHash);
    FourMore(one, BE(i.callIndex, 4), i.caller, i.modelSpecHash, i.promptHash);
    Pushed(two, BE(i.n, 2));
    Pushed(two + [BE(i.n, 2)], BE(i.threshold, 2));
    Pushed(two + [BE(i.n, 2)] + [BE(i.threshold, 2)], i.fee);
    assert IntentFields(i) == two + [BE(i.n, 2)] + [BE(i.threshold, 2)] + [i.fee];
  }

  /** Any change to any field of an intent changes the bytes its id hashes. */
  lemma IntentPreimageInjective(i: Intent, j: Intent)
    requires IntentFits(i) && IntentFits(j)
    ensures IntentPreimage(i) == IntentPreimage(j) <==> i == j
  {
    FlattenInjective(IntentFields(i), IntentFields(j), INTENT_WIDTHS);
    var fs, gs := IntentFields(i), IntentFields(j);
    if fs == gs {
      assert fs[1] == gs[1] && fs[2] == gs[2] && fs[3] == gs[3] && fs[4] == gs[4] && fs[5] == gs[5];
      assert fs[6] == gs[6] && fs[7] == gs[7] && fs[8] == gs[8] && fs[9] == gs[9] && fs[10] == gs[10];
      Pow256Values();
      BEInjective(i.callIndex, j.callIndex, 4);
      BEInjective(i.n, j.n, 2);
      BEInjective(i.threshold, j.threshold, 2);
    }
  }

  // ----- Merkle proofs -----

  const MAX_PROOF_DEPTH: nat := 64
  const PROOF_HEAD: nat := 42

  function Nodes(b: seq<byte>, n: nat): (path: seq<Word>)
    requires |b| == PROOF_HEAD + n * 32
    ensures |path| == n
  {
    seq(n, i requires 0 <= i < n => b[PROOF_HEAD + i * 32..PROOF_HEAD + i * 32 + 32])
  }

  /** root(32) | index(8) | length(2) | nodes: neither truncated, nor too deep, nor trailed by junk. */
  function ProofOf(b: seq<byte>): Option<Proof<Word>> {
    if |b| < PROOF_HEAD then None
    else
      var n := FromBE(b[40..42]);
      if n > MAX_PROOF_DEPTH || |b| != PROOF_HEAD + n * 32 then None
      else Some(Proof(b[0..32], Nodes(b, n), FromBE(b[32..40])))
  }

  function ProofBytes(p: Proof<Word>): seq<byte> {
    p.root + BE(p.index, 8) + BE(|p.path|, 2) + Flatten(p.path)
  }

  lemma {:induction false} FlattenNode(path: seq<Word>, i: nat)
    requires i < |path|
    ensures |Flatten(path)| == |path| * 32 && Flatten(path)[i * 32..i * 32 + 32] == path[i]
  {
    var n := |path| - 1;
    if n > 0 {
      FlattenNode(path[..n], if i < n then i else 0);
    }
    if i < n {
      assert Flatten(path)[i * 32..i * 32 + 32] == Flatten(path[..n])[i * 32..i * 32 + 32];
    }
  }

  lemma {:induction false} FlattenNodes(b: seq<byte>, n: nat)
    requires |b| == PROOF_HEAD + n * 32
    ensures Flatten(Nodes(b, n)) == b[PROOF_HEAD..]
    decreases n
  {
    if n > 0 {
      var front := b[..|b| - 32];
      FlattenNodes(front, n - 1);
      forall i | 0 <= i < n - 1
        ensures Nodes(b, n)[i] == Nodes(front, n - 1)[i]
      {
        assert PROOF_HEAD + i * 32 + 32 <= |front|;
      }
      assert Nodes(b, n)[..n - 1] == Nodes(front, n - 1);
      assert b[PROOF_HEAD..] == front[PROOF_HEAD..] + b[|b| - 32..];
    }
  }

  /** A proof within the depth and index bounds survives the wire. */
  lemma ProofRoundTrip(p: Proof<Word>)
    requires |p.path| <= MAX_PROOF_DEPTH && p.index < U64
    ensures ProofOf(ProofBytes(p)) == Some(p)
  {
    var b, n := ProofBytes(p), |p.path|;
    Pow256Values();
    BERoundTrip(p.index, 8);
    BERoundTrip(n, 2);
    assert |Flatten(p.path)| == n * 32 by {
      if n > 0 {
        FlattenNode(p.path, 0);
      }
    }
    assert b[0..32] == p.root && b[32..40] == BE(p.index, 8) && b[40..42] == BE(n, 2) && b[42..] == Flatten(p.path);
    forall i: nat | i < n
      ensures Nodes(b, n)[i] == p.path[i]
    {
      FlattenNode(p.path, i);
      assert b[42 + i * 32..42 + i * 32 + 32] == b[42..][i * 32..i * 32 + 32];
    }
    assert Nodes(b, n) == p.path;
  }

  /** The proof decoder reads nothing but canonical frames. */
  lemma DecodedProofIsCanonical(b: seq<byte>)
    requires ProofOf(b).Some?
    ensures var p := ProofOf(b).value;
            |p.path| <= MAX_PROOF_DEPTH && p.index < U64 && ProofBytes(p) == b
  {
    FromBERoundTrip(b[32..40]);
    FromBERoundTrip(b[40..42]);
    FromBEBound(b[32..40]);
    Pow256Values();
    FlattenNodes(b, FromBE(b[40..42]));
    assert b == b[0..32] + b[32..40] + b[40..42] + b[42..];
  }

  method DecodeProof(b: seq<byte>) returns (p: Option<Proof<Word>>)
    ensures p == ProofOf(b)
  {
    if |b| < PROOF_HEAD { return None; }
    var n := FromBE(b[40..42]);
    if n > MAX_PROOF_DEPTH { return None; }
    if |b| != PROOF_HEAD + n * 32 { return None; }
    var path: seq<Word> := [];
    for i := 0 to n
      invariant path == Nodes(b, n)[..i]
    {
      var off := PROOF_HEAD + i * 32;
      path := path + [b[off..off + 32]];
    }
    assert path == Nodes(b, n);
    p := Some(Proof(b[0..32], path, FromBE(b[32..40])));
  }
}
