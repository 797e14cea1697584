/** The calldata of pool keys and liquidity changes: what the builder writes the decoder reads back, and no
    decoder reads past the declared input. */
module PoolCodec {
  import opened Bytes
  import opened Cursor
  import opened Words
  import opened Wrappers

  datatype PoolKey = PoolKey(currency0: Address, currency1: Address, fee: nat, tickSpacing: int, hooks: Address)

  datatype LiquidityChange = LiquidityChange(tickLower: int, tickUpper: int, delta: int, salt: Word)

  datatype CodecError = TooShort | InvalidFee | InvalidTickSpacing | InvalidTick | ZeroDelta

  predicate IsInt24(v: int) {
    -0x80_0000 <= v < 0x80_0000
  }

  predicate KeyFits(k: PoolKey) {
    k.fee < 0x100_0000 && IsInt24(k.tickSpacing)
  }

  predicate ChangeFits(c: LiquidityChange) {
    IsInt24(c.tickLower) && IsInt24(c.tickUpper) && -INT256_LIMIT <= c.delta < INT256_LIMIT
  }

  /** What the builder can write: the delta's word need only not overflow. */
  predicate Writable(c: LiquidityChange) {
    IsInt24(c.tickLower) && IsInt24(c.tickUpper) && -WORD_SPAN <= c.delta < WORD_SPAN
  }

  // ----- pool keys -----

  function AddressWord(a: Address): Word {
    Zeros(12) + a
  }

  function FeeWord(fee: nat): Word {
    Zeros(29) + BE(fee, 3)
  }

  /** Five words: the addresses right-aligned, the fee's low three bytes, the spacing sign-extended. */
  function EncodePoolKey(k: PoolKey): (b: seq<byte>)
    requires IsInt24(k.tickSpacing)
    ensures |b| == 160
  {
    AddressWord(k.currency0) + AddressWord(k.currency1) + FeeWord(k.fee) + ExtendedInt24(k.tickSpacing)
    + AddressWord(k.hooks)
  }

  function WordAt(b: seq<byte>, i: nat): Word
    requires i + 32 <= |b|
  {
    b[i..i + 32]
  }

  function KeyOf(c0: Word, c1: Word, fee: Word, spacing: Word, hooks: Word): Result<PoolKey, CodecError> {
    var f, s := Unsigned(FromBE(fee), 24), Signed(ReadSigned(spacing), 24);
    if f.None? then Err(InvalidFee)
    else if s.None? then Err(InvalidTickSpacing)
    else Ok(PoolKey(c0[12..], c1[12..], f.value, s.value, hooks[12..]))
  }

  function DecodePoolKey(b: seq<byte>): Result<PoolKey, CodecError> {
    if |b| < 160 then Err(TooShort)
    else KeyOf(WordAt(b, 0), WordAt(b, 32), WordAt(b, 64), WordAt(b, 96), WordAt(b, 128))
  }

  lemma FeeReads(fee: nat)
    requires fee < 0x100_0000
    ensures Unsigned(FromBE(FeeWord(fee)), 24) == Some(fee)
  {
    Bits24();
    PaddedReads(BE(fee, 3));
    BERoundTrip(fee, 3);
  }

  lemma EncodedWords(k: PoolKey)
    requires KeyFits(k)
    ensures var b := EncodePoolKey(k);
            && WordAt(b, 0) == AddressWord(k.currency0) && WordAt(b, 32) == AddressWord(k.currency1)
            && WordAt(b, 64) == FeeWord(k.fee) && WordAt(b, 96) == ExtendedInt24(k.tickSpacing)
            && WordAt(b, 128) == AddressWord(k.hooks)
  {
    var b := EncodePoolKey(k);
    assert b[0..32] == AddressWord(k.currency0);
    assert b[32..64] == AddressWord(k.currency1);
    assert b[64..96] == FeeWord(k.fee);
    assert b[96..128] == ExtendedInt24(k.tickSpacing);
    assert b[128..160] == AddressWord(k.hooks);
  }

  /** Decoding inverts encoding on every in-range key. */
  lemma PoolKeyRoundTrip(k: PoolKey)
    requires KeyFits(k)
    ensures DecodePoolKey(EncodePoolKey(k)) == Ok(k)
  {
    EncodedWords(k);
    FeeReads(k.fee);
    Int24RoundTrip(k.tickSpacing);
    assert AddressWord(k.currency0)[12..] == k.currency0 && AddressWord(k.currency1)[12..] == k.currency1;
    assert AddressWord(k.hooks)[12..] == k.hooks;
  }

  /** Every decoded key is in range, so distinct decoded keys have distinct encodings. */
  lemma EncodingInjectiveOnDecoded(a: seq<byte>, b: seq<byte>)
    requires DecodePoolKey(a).Ok? && DecodePoolKey(b).Ok?
    ensures KeyFits(DecodePoolKey(a).value) && KeyFits(DecodePoolKey(b).value)
    ensures EncodePoolKey(DecodePoolKey(a).value) == EncodePoolKey(DecodePoolKey(b).value)
            <==> DecodePoolKey(a).value == DecodePoolKey(b).value
  {
    Bits24();
    PoolKeyRoundTrip(DecodePoolKey(a).value);
    PoolKeyRoundTrip(DecodePoolKey(b).value);
  }

  predicate CleanAddress(w: Word) {
    w[..12] == Zeros(12)
  }

  /** A fee word that narrows is the word the encoder writes. */
  lemma FeeCanonical(w: Word)
    requires Unsigned(FromBE(w), 24).Some?
    ensures FeeWord(FromBE(w)) == w
  {
    Bits24();
    var n := FromBE(w);
    PaddedReads(BE(n, 3));
    BERoundTrip(n, 3);
    FromBERoundTrip(w);
    FromBERoundTrip(FeeWord(n));
  }

  lemma AddressCanonicalIff(w: Word)
    ensures AddressWord(w[12..]) == w <==> CleanAddress(w)
  {
    assert w == w[..12] + w[12..];
    assert AddressWord(w[12..])[..12] == Zeros(12);
  }

  lemma EncodedIs(b: seq<byte>, k: PoolKey)
    requires |b| == 160 && IsInt24(k.tickSpacing)
    ensures EncodePoolKey(k) == b <==>
            && AddressWord(k.currency0) == WordAt(b, 0) && AddressWord(k.currency1) == WordAt(b, 32)
            && FeeWord(k.fee) == WordAt(b, 64) && ExtendedInt24(k.tickSpacing) == WordAt(b, 96)
            && AddressWord(k.hooks) == WordAt(b, 128)
  {
    assert b == WordAt(b, 0) + WordAt(b, 32) + WordAt(b, 64) + WordAt(b, 96) + WordAt(b, 128);
    var e := EncodePoolKey(k);
    assert WordAt(e, 0) == AddressWord(k.currency0) && WordAt(e, 32) == AddressWord(k.currency1)
        && WordAt(e, 64) == FeeWord(k.fee) && WordAt(e, 96) == ExtendedInt24(k.tickSpacing)
        && WordAt(e, 128) == AddressWord(k.hooks);
  }

  /** Of the 160-byte inputs that decode, those the encoder gives back are exactly the ones whose address words
      have clean high bytes: fee and spacing are canonical already, dirty address bytes are dropped. */
  lemma ReencodesIff(b: seq<byte>)
    requires |b| == 160 && DecodePoolKey(b).Ok?
    ensures IsInt24(DecodePoolKey(b).value.tickSpacing)
    ensures EncodePoolKey(DecodePoolKey(b).value) == b <==>
            CleanAddress(WordAt(b, 0)) && CleanAddress(WordAt(b, 32)) && CleanAddress(WordAt(b, 128))
  {
    Bits24();
    Int24Narrows(WordAt(b, 96));
    FeeCanonical(WordAt(b, 64));
    AddressCanonicalIff(WordAt(b, 0));
    AddressCanonicalIff(WordAt(b, 32));
    AddressCanonicalIff(WordAt(b, 128));
    EncodedIs(b, DecodePoolKey(b).value);
  }

  // ----- dynamic bytes -----

  /** The length-prefixed bytes the offset word at `pos` points to; empty when absent, backward, overlong or
      out of the input. */
  function DecodeABIBytes(args: seq<byte>, pos: nat): seq<byte> {
    if pos + 32 > |args| then []
    else
      var at := FromBE(WordAt(args, pos));
      if at >= TWO63 || at < pos + 32 || at > |args| || |args| - at < 32 then []
      else
        var n := FromBE(WordAt(args, at));
        if n >= TWO63 || n == 0 || |args| - (at + 32) < n then []
        else args[at + 32..at + 32 + n]
  }

  /** The offset word at `pos` points past itself to a length word, and that many bytes follow, all of it declared. */
  predicate PointsAt(args: seq<byte>, pos: nat, at: nat, n: nat) {
    && pos + 32 <= at && at + 32 + n <= |args| && n > 0
    && FromBE(args[pos..pos + 32]) == at && FromBE(args[at..at + 32]) == n
    && at < 0x8000_0000_0000_0000 && n < 0x8000_0000_0000_0000
  }

  /** Dynamic bytes are what a sound pointer points at, and nothing otherwise. */
  lemma DynamicBytesRead(args: seq<byte>, pos: nat)
    ensures forall at: nat, n: nat :: PointsAt(args, pos, at, n) ==>
              DecodeABIBytes(args, pos) == args[at + 32..at + 32 + n]
    ensures DecodeABIBytes(args, pos) != [] <==> exists at: nat, n: nat :: PointsAt(args, pos, at, n)
  {
    if DecodeABIBytes(args, pos) != [] {
      var at := FromBE(WordAt(args, pos));
      assert PointsAt(args, pos, at, FromBE(WordAt(args, at)));
    }
  }

  // ----- modifyLiquidity -----

  function DecodeModifyLiquidity(b: seq<byte>): Result<(PoolKey, LiquidityChange, seq<byte>), CodecError> {
    if |b| < 288 then Err(TooShort)
    else match DecodePoolKey(b[..160])
      case Err(e) => Err(e)
      case Ok(key) =>
        var lower, upper := Signed(ReadSigned(WordAt(b, 160)), 24), Signed(ReadSigned(WordAt(b, 192)), 24);
        if lower.None? || upper.None? then Err(InvalidTick)
        else
          var change := LiquidityChange(lower.value, upper.value, ReadSigned(WordAt(b, 224)), WordAt(b, 256));
          Ok((key, change, if |b| > 288 then DecodeABIBytes(b, 288) else []))
  }

  function Padded(hook: seq<byte>): seq<byte> {
    hook + Zeros((|hook| + 31) / 32 * 32 - |hook|)
  }

  /** The hook's bytes, zeros up to the next multiple of 32 and no further. */
  lemma PaddedIs(hook: seq<byte>)
    ensures var p := Padded(hook);
            && |p| % 32 == 0 && |hook| <= |p| < |hook| + 32 && p[..|hook|] == hook
            && forall i :: |hook| <= i < |p| ==> p[i] == 0
  {
  }

  /** Liquidity changes are refused exactly below 288 bytes, for a bad key, and for a tick that is no int24; a hook is
      read only from bytes past the fixed part. */
  lemma ModifyLiquidityRefusesIff(b: seq<byte>)
    ensures DecodeModifyLiquidity(b) == Err(TooShort) <==> |b| < 288
    ensures |b| >= 288 && DecodePoolKey(b[..160]).Err? ==> DecodeModifyLiquidity(b) == Err(DecodePoolKey(b[..160]).error)
    ensures |b| >= 288 && DecodePoolKey(b[..160]).Ok? ==>
              (DecodeModifyLiquidity(b).Ok? <==> IsInt24(ReadSigned(b[160..192])) && IsInt24(ReadSigned(b[192..224])))
    ensures |b| >= 288 && DecodePoolKey(b[..160]).Ok? && DecodeModifyLiquidity(b).Err? ==>
              DecodeModifyLiquidity(b) == Err(InvalidTick)
    ensures DecodeModifyLiquidity(b).Ok? ==>
              DecodeModifyLiquidity(b).value.2 == if |b| == 288 then [] else DecodeABIBytes(b, 288)
  {
    Bits24();
  }

  /** The fixed part: key, ticks, delta, salt. */
  function FixedArgs(k: PoolKey, c: LiquidityChange): (b: seq<byte>)
    requires IsInt24(k.tickSpacing) && Writable(c)
    ensures |b| == 288
  {
    EncodePoolKey(k) + SignedWord(c.tickLower) + SignedWord(c.tickUpper) + SignedWord(c.delta) + c.salt
  }

  /** The fixed part, the offset 320, the hook's length and its padded bytes. */
  function BuildModifyLiquidity(k: PoolKey, c: LiquidityChange, hook: seq<byte>): seq<byte>
    requires IsInt24(k.tickSpacing) && Writable(c)
  {
    FixedArgs(k, c) + U64Word(320) + U64Word(|hook|) + Padded(hook)
  }

  lemma WordOfNumber(n: nat)
    requires n < U64
    ensures FromBE(U64Word(n)) == n
  {
    Pow256Values();
    PaddedReads(BE(n, 8));
    BERoundTrip(n, 8);
  }

  lemma HookReads(fixedPart: seq<byte>, hook: seq<byte>)
    requires |fixedPart| == 288 && |hook| < TWO63
    ensures DecodeABIBytes(fixedPart + U64Word(320) + U64Word(|hook|) + Padded(hook), 288) == hook
  {
    var b := fixedPart + U64Word(320) + U64Word(|hook|) + Padded(hook);
    WordOfNumber(320);
    WordOfNumber(|hook|);
    assert WordAt(b, 288) == U64Word(320) && WordAt(b, 320) == U64Word(|hook|);
    assert |hook| > 0 ==> b[352..352 + |hook|] == hook;
  }

  lemma FixedWords(k: PoolKey, c: LiquidityChange, tail: seq<byte>)
    requires IsInt24(k.tickSpacing) && Writable(c)
    ensures var b := FixedArgs(k, c) + tail;
            && b[..160] == EncodePoolKey(k) && WordAt(b, 160) == SignedWord(c.tickLower)
            && WordAt(b, 192) == SignedWord(c.tickUpper) && WordAt(b, 224) == SignedWord(c.delta)
            && WordAt(b, 256) == c.salt
  {
    var b := FixedArgs(k, c) + tail;
    assert b[..160] == EncodePoolKey(k);
    assert b[160..192] == SignedWord(c.tickLower);
    assert b[192..224] == SignedWord(c.tickUpper);
    assert b[224..256] == SignedWord(c.delta);
    assert b[256..288] == c.salt;
  }

  lemma TickReads(v: int)
    requires IsInt24(v)
    ensures Signed(ReadSigned(SignedWord(v)), 24) == Some(v)
  {
    Bits24();
    SignedRoundTripIff(v);
  }

  /** Decoding what the builder wrote gives back the key, ticks, delta, salt and hook bytes that went in, for
      all in-range keys, ticks and lengths, exactly when the delta is an int256. */
  lemma ModifyLiquidityRoundTripIff(k: PoolKey, c: LiquidityChange, hook: seq<byte>)
    requires KeyFits(k) && Writable(c) && |hook| < TWO63
    ensures DecodeModifyLiquidity(BuildModifyLiquidity(k, c, hook))
            == Ok((k, c.(delta := ReadSigned(SignedWord(c.delta))), hook))
    ensures DecodeModifyLiquidity(BuildModifyLiquidity(k, c, hook)) == Ok((k, c, hook)) <==> ChangeFits(c)
  {
    var tail := U64Word(320) + U64Word(|hook|) + Padded(hook);
    var b := FixedArgs(k, c) + tail;
    assert b == BuildModifyLiquidity(k, c, hook);
    FixedWords(k, c, tail);
    PoolKeyRoundTrip(k);
    TickReads(c.tickLower);
    TickReads(c.tickUpper);
    SignedRoundTripIff(c.delta);
    HookReads(FixedArgs(k, c), hook);
  }

  // ----- the position manager's lifecycle calls -----

  datatype Side = Bid | Ask

  /** Whether an operation forces the delta's sign: open, increase and place add; decrease, cancel and close
      remove; modify keeps the caller's. */
  datatype Sign = Adds | Removes | AsGiven

  datatype Lifecycle = Lifecycle(key: PoolKey, change: LiquidityChange, side: Side)

  function DecodeLifecycle(b: seq<byte>): Result<Lifecycle, CodecError> {
    if |b| < 320 then Err(TooShort)
    else match DecodePoolKey(b[..160])
      case Err(e) => Err(e)
      case Ok(key) =>
        var lower, upper := Signed(ReadSigned(WordAt(b, 160)), 24), Signed(ReadSigned(WordAt(b, 192)), 24);
        if lower.None? || upper.None? then Err(InvalidTick)
        else
          var change := LiquidityChange(lower.value, upper.value, ReadSigned(WordAt(b, 224)), WordAt(b, 256));
          Ok(Lifecycle(key, change, if b[319] == 1 then Ask else Bid))
  }

  function Coerced(delta: int, sign: Sign): int {
    match sign
    case Adds => if delta < 0 then -delta else delta
    case Removes => if delta < 0 then delta else -delta
    case AsGiven => delta
  }

  function Envelope(side: Side): seq<byte> {
    Ascii("M999") + [if side == Ask then 1 else 0]
  }

  /** The side a hook names; anything but a tagged ask is a bid. */
  function MakerSide(hook: seq<byte>): Side {
    if |hook| >= 5 && hook[..4] == Ascii("M999") && hook[4] == 1 then Ask else Bid
  }

  lemma DecodedLifecycleFits(b: seq<byte>)
    requires DecodeLifecycle(b).Ok?
    ensures var l := DecodeLifecycle(b).value; KeyFits(l.key) && ChangeFits(l.change)
  {
    Bits24();
    ReadSignedInverse(WordAt(b, 224));
  }

  /** The kernel input a lifecycle call is turned into. */
  function KernelInput(l: Lifecycle, sign: Sign): seq<byte>
    requires KeyFits(l.key) && ChangeFits(l.change)
  {
    BuildModifyLiquidity(l.key, l.change.(delta := Coerced(l.change.delta, sign)), Envelope(l.side))
  }

  /** What each operation asks the kernel for: opening, increasing and placing a delta of the same size that adds,
      decreasing, cancelling and closing one that removes, modifying the caller's own. */
  lemma SignIsTheOperations(delta: int)
    ensures Coerced(delta, Adds) >= 0 && (Coerced(delta, Adds) == delta || Coerced(delta, Adds) == -delta)
    ensures Coerced(delta, Removes) <= 0 && (Coerced(delta, Removes) == delta || Coerced(delta, Removes) == -delta)
    ensures Coerced(delta, AsGiven) == delta
  {
  }

  /** The lifecycle calldata: the fixed part, then a word whose last byte is the side, one for an ask. */
  lemma LifecycleReads(k: PoolKey, c: LiquidityChange, side: Word, tail: seq<byte>)
    requires KeyFits(k) && ChangeFits(c)
    ensures DecodeLifecycle(FixedArgs(k, c) + side + tail) == Ok(Lifecycle(k, c, if side[31] == 1 then Ask else Bid))
  {
    var b := FixedArgs(k, c) + side + tail;
    assert b == FixedArgs(k, c) + (side + tail);
    FixedWords(k, c, side + tail);
    PoolKeyRoundTrip(k);
    TickReads(c.tickLower);
    TickReads(c.tickUpper);
    SignedRoundTripIff(c.delta);
    assert b[319] == side[31];
  }

  /** A lifecycle call routed to the kernel, or refused: a position cannot change by nothing. */
  function Routed(b: seq<byte>, sign: Sign): Result<seq<byte>, CodecError> {
    match DecodeLifecycle(b)
    case Err(e) => Err(e)
    case Ok(l) =>
      if l.change.delta == 0 then Err(ZeroDelta)
      else
        DecodedLifecycleFits(b);
        Ok(KernelInput(l, sign))
  }

  /** What the kernel should be asked: the decoded call with the delta's sign as the operation requires. */
  function Asked(l: Lifecycle, sign: Sign): (PoolKey, LiquidityChange, seq<byte>) {
    (l.key, l.change.(delta := Coerced(l.change.delta, sign)), Envelope(l.side))
  }

  /** Every decodable call of a non-zero delta is routed, no other is, and the kernel decodes the very call the
      position manager decoded, exactly unless an adding operation was handed the least int256, whose magnitude is
      not one. */
  lemma KernelSeesTheCallIff(b: seq<byte>, sign: Sign)
    ensures Routed(b, sign).Ok? <==> DecodeLifecycle(b).Ok? && DecodeLifecycle(b).value.change.delta != 0
    ensures DecodeLifecycle(b).Ok? && Routed(b, sign).Err? ==> Routed(b, sign) == Err(ZeroDelta)
    ensures Routed(b, sign).Ok? ==>
              (DecodeModifyLiquidity(Routed(b, sign).value) == Ok(Asked(DecodeLifecycle(b).value, sign))
               <==> !(sign == Adds && DecodeLifecycle(b).value.change.delta == -INT256_LIMIT))
    ensures DecodeLifecycle(b).Ok? ==> MakerSide(Envelope(DecodeLifecycle(b).value.side)) == DecodeLifecycle(b).value.side
  {
    if DecodeLifecycle(b).Ok? {
      DecodedLifecycleFits(b);
      var l := DecodeLifecycle(b).value;
      ModifyLiquidityRoundTripIff(l.key, l.change.(delta := Coerced(l.change.delta, sign)), Envelope(l.side));
      assert Envelope(l.side)[..4] == Ascii("M999");
    }
  }

  // ----- reading calldata in place -----

  lemma FieldIsWord(b: seq<byte>, i: nat, f: seq<byte>)
    requires FieldIs(b, i, 32, f)
    ensures i * 32 + 32 <= |b| && |f| == 32 && f == WordAt(b, i * 32)
  {
  }

  lemma FiveWords(b: seq<byte>, w: seq<seq<byte>>)
    requires IsFields(b, 5, 32, w)
    ensures |b| >= 160 && forall i: nat :: i < 5 ==> |w[i]| == 32
    ensures DecodePoolKey(b) == KeyOf(w[0], w[1], w[2], w[3], w[4])
  {
    FieldIsWord(b, 0, w[0]);
    FieldIsWord(b, 1, w[1]);
    FieldIsWord(b, 2, w[2]);
    FieldIsWord(b, 3, w[3]);
    FieldIsWord(b, 4, w[4]);
  }

  /** The key decoder over the cursor: whatever lies in memory past the declared input, the result is that of the
      declared input alone. */
  method ReadPoolKey(memory: seq<byte>, size: nat) returns (r: Result<PoolKey, CodecError>)
    requires size <= |memory|
    ensures r == DecodePoolKey(memory[..size])
  {
    var c := new Reader(memory, size);
    assert c.Left() == memory[..size];
    var slots := c.Fields(5, 32);
    if slots.Err? { return Err(TooShort); }
    var w := slots.value;
    FiveWords(memory[..size], w);
    var fee := Unsigned(FromBE(w[2]), 24);
    if fee.None? { return Err(InvalidFee); }
    var spacing := Signed(ReadSigned(w[3]), 24);
    if spacing.None? { return Err(InvalidTickSpacing); }
    r := Ok(PoolKey(w[0][12..], w[1][12..], fee.value, spacing.value, w[4][12..]));
  }

  /** The dynamic-bytes reader over the same memory: every bound is checked against the declared length before the
      slice it guards is taken. */
  method ReadABIBytes(memory: seq<byte>, size: nat, pos: nat) returns (r: seq<byte>)
    requires size <= |memory|
    ensures r == DecodeABIBytes(memory[..size], pos)
  {
    if pos + 32 > size { return []; }
    var at := FromBE(memory[pos..pos + 32]);
    SliceOfPrefix(memory, size, pos, pos + 32);
    if at >= TWO63 { return []; }
    if at < pos + 32 { return []; }
    if at > size || size - at < 32 { return []; }
    var n := FromBE(memory[at..at + 32]);
    SliceOfPrefix(memory, size, at, at + 32);
    if n >= TWO63 { return []; }
    var start := at + 32;
    if n == 0 { return []; }
    if start > size || size - start < n { return []; }
    SliceOfPrefix(memory, size, start, start + n);
    r := memory[start..start + n];
  }

  /** The liquidity-change decoder over the same memory. */
  method ReadModifyLiquidity(memory: seq<byte>, size: nat)
      returns (r: Result<(PoolKey, LiquidityChange, seq<byte>), CodecError>)
    requires size <= |memory|
    ensures r == DecodeModifyLiquidity(memory[..size])
  {
    ghost var b := memory[..size];
    if size < 288 { return Err(TooShort); }
    var key := ReadPoolKey(memory, 160);
    assert memory[..160] == b[..160];
    if key.Err? { return Err(key.error); }
    SliceOfPrefix(memory, size, 160, 192);
    SliceOfPrefix(memory, size, 192, 224);
    SliceOfPrefix(memory, size, 224, 256);
    SliceOfPrefix(memory, size, 256, 288);
    var lower := Signed(ReadSigned(memory[160..192]), 24);
    if lower.None? { return Err(InvalidTick); }
    var upper := Signed(ReadSigned(memory[192..224]), 24);
    if upper.None? { return Err(InvalidTick); }
    var change := LiquidityChange(lower.value, upper.value, ReadSigned(memory[224..256]), memory[256..288]);
    var hook: seq<byte> := [];
    if size > 288 {
      hook := ReadABIBytes(memory, size, 288);
    }
    r := Ok((key.value, change, hook));
  }
}
