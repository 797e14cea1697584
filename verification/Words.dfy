/** The 256-bit ABI word: its signed reading, and the range-checked narrowing to a declared width. */
module Words {
  import opened Bytes
  import opened Rounding
  import opened Wrappers

  /** x as an unsigned field of `bits`, or a refusal; wider than 64 bits refuses everything. */
  function Unsigned(x: int, bits: nat): Option<nat> {
    if bits > 64 || x < 0 || x >= Pow2(bits) then None else Some(x)
  }

  /** x as a two's-complement field of `bits`, or a refusal. */
  function Signed(x: int, bits: nat): Option<int> {
    if bits == 0 || bits > 64 || x >= Pow2(bits - 1) || x < -(Pow2(bits - 1) as int) then None else Some(x)
  }

  /** A number narrows to an unsigned field of at most 64 bits exactly when it fits it, and to a signed one of 1 to 64
      bits exactly within its two's-complement span. */
  lemma NarrowsIff(x: int, bits: nat)
    ensures Unsigned(x, bits) == (if bits <= 64 && 0 <= x < Pow2(bits) then Some(x) else None)
    ensures Signed(x, bits)
            == if 1 <= bits <= 64 && -(Pow2(bits - 1) as int) <= x < Pow2(bits - 1) then Some(x) else None
  {
  }

  const WORD_SPAN: int := U256
  const INT256_LIMIT: int := 0x8000_0000_0000_0000_0000_0000_0000_0000_0000_0000_0000_0000_0000_0000_0000_0000

  /** A number as its 32-byte two's-complement word. */
  function SignedWord(v: int): Word
    requires -WORD_SPAN <= v < WORD_SPAN
  {
    BE(if v < 0 then v + U256 else v, 32)
  }

  function ReadSigned(w: Word): int {
    if w[0] >= 128 then FromBE(w) - U256 else FromBE(w)
  }

  lemma WordWidth()
    ensures Pow256(32) == U256 && Pow256(31) * 128 == INT256_LIMIT
  {
    Pow256Values();
    Pow256Add(8, 8);
    Pow256Add(16, 16);
    assert Pow256(32) == 256 * Pow256(31);
  }

  lemma WordBound(w: Word)
    ensures FromBE(w) < U256
  {
    FromBEBound(w);
    WordWidth();
  }

  /** The sign bit splits the words in half. */
  lemma SignBit(w: Word)
    ensures FromBE(w) >= INT256_LIMIT <==> w[0] >= 128
  {
    var p := Pow256(31);
    assert w == w[..1] + w[1..];
    FromBEConcat(w[..1], w[1..]);
    assert w[..1][..0] == [] && FromBE(w[..1]) == w[0];
    FromBEBound(w[1..]);
    WordWidth();
    if w[0] >= 128 {
      MulMono(128, w[0], p);
    } else {
      MulMono(w[0] + 1, 128, p);
    }
  }

  /** Every word reads as the number whose word it is. */
  lemma ReadSignedInverse(w: Word)
    ensures -INT256_LIMIT <= ReadSigned(w) < INT256_LIMIT && SignedWord(ReadSigned(w)) == w
  {
    SignBit(w);
    WordBound(w);
    FromBERoundTrip(w);
  }

  /** A number survives its word exactly when it is an int256. */
  lemma SignedRoundTripIff(v: int)
    requires -WORD_SPAN <= v < WORD_SPAN
    ensures ReadSigned(SignedWord(v)) == v <==> -INT256_LIMIT <= v < INT256_LIMIT
  {
    var n := if v < 0 then v + U256 else v;
    WordWidth();
    BERoundTrip(n, 32);
    SignBit(SignedWord(v));
  }

  /** A right-aligned field narrower than the word reads as its own number. */
  lemma {:induction false} PaddedReads(b: seq<byte>)
    requires |b| <= 32
    ensures FromBE(Zeros(32 - |b|) + b) == FromBE(b)
  {
    FromBEConcat(Zeros(32 - |b|), b);
    FromBEZeros(32 - |b|);
    assert 0 * Pow256(|b|) == 0;
  }

  lemma Bits24()
    ensures Pow2(24) == 0x100_0000 && Pow2(23) == 0x80_0000 && Pow256(3) == 0x100_0000
  {
    assert Pow2(6) == 64;
    assert Pow2(12) == 64 * Pow2(6);
    assert Pow2(18) == 64 * Pow2(12);
    assert Pow2(23) == 32 * Pow2(18);
    Pow256Values();
    assert Pow256(4) == 256 * Pow256(3);
  }

  function Ones(n: nat): (b: seq<byte>)
    ensures |b| == n && forall i :: 0 <= i < n ==> b[i] == 255
  {
    seq(n, i => 255)
  }

  lemma {:induction false} OnesRead(n: nat)
    ensures FromBE(Ones(n)) == Pow256(n) - 1
  {
    if n > 0 {
      assert Ones(n)[..n - 1] == Ones(n - 1);
      OnesRead(n - 1);
    }
  }

  /** Sign extension of a 24-bit field byte by byte: 29 sign bytes over the low three. */
  function ExtendedInt24(v: int): Word
    requires -0x80_0000 <= v < 0x80_0000
  {
    if v < 0 then Ones(29) + BE(v + 0x100_0000, 3) else Zeros(29) + BE(v, 3)
  }

  lemma OnesOver(n: nat)
    requires n < 0x100_0000
    ensures FromBE(Ones(29) + BE(n, 3)) == U256 - 0x100_0000 + n
  {
    Bits24();
    FromBEConcat(Ones(29), BE(n, 3));
    OnesRead(29);
    BERoundTrip(n, 3);
    WordWidth();
    Pow256Add(29, 3);
    assert (Pow256(29) - 1) * 0x100_0000 == Pow256(29) * 0x100_0000 - 0x100_0000;
  }

  /** The byte-wise sign extension is the two's-complement word. */
  lemma ExtensionIsSignedWord(v: int)
    requires -0x80_0000 <= v < 0x80_0000
    ensures ExtendedInt24(v) == SignedWord(v)
  {
    var w := ExtendedInt24(v);
    if v < 0 {
      OnesOver(v + 0x100_0000);
    } else {
      Bits24();
      PaddedReads(BE(v, 3));
      BERoundTrip(v, 3);
    }
    FromBERoundTrip(w);
  }

  /** An int24 survives the word and the narrowing; no word outside the int24s does. */
  lemma Int24Narrows(w: Word)
    ensures Signed(ReadSigned(w), 24).Some? <==> -0x80_0000 <= ReadSigned(w) < 0x80_0000
    ensures Signed(ReadSigned(w), 24).Some? ==> w == ExtendedInt24(Signed(ReadSigned(w), 24).value)
  {
    Bits24();
    ReadSignedInverse(w);
    if Signed(ReadSigned(w), 24).Some? {
      ExtensionIsSignedWord(ReadSigned(w));
    }
  }

  lemma Int24RoundTrip(v: int)
    requires -0x80_0000 <= v < 0x80_0000
    ensures Signed(ReadSigned(ExtendedInt24(v)), 24) == Some(v)
  {
    Bits24();
    ExtensionIsSignedWord(v);
    SignedRoundTripIff(v);
  }
}
