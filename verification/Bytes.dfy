/** Byte strings, 32-byte EVM words and big-endian integers. */
module Bytes {

  type byte = x: int | 0 <= x < 256

  type Word = w: seq<byte> | |w| == 32 witness Zeros(32)

  /** A 20-byte account address. */
  type Address = a: seq<byte> | |a| == 20 witness Zeros(20)

  const U32: nat := 0x1_0000_0000
  const U64: nat := 0x1_0000_0000_0000_0000
  const TWO63: nat := 0x8000_0000_0000_0000
  const U256: nat := 0x1_0000000000000000_0000000000000000_0000000000000000_0000000000000000
  const MAX_INT32: nat := 0x7fff_ffff

  const ZERO_WORD: Word := Zeros(32)

  function Zeros(n: nat): (z: seq<byte>)
    ensures |z| == n && forall i :: 0 <= i < n ==> z[i] == 0
  {
    seq(n, i => 0)
  }

  lemma Assoc<T>(x: seq<T>, y: seq<T>, z: seq<T>)
    ensures x + y + z == x + (y + z)
  {
  }

  lemma FrontAndLast<T>(s: seq<T>)
    requires s != []
    ensures s == s[..|s| - 1] + [s[|s| - 1]]
  {
  }

  lemma PrefixOfPrefix<T>(s: seq<T>, n: nat, k: nat)
    requires k <= n <= |s|
    ensures s[..n][..k] == s[..k]
  {
  }

  /** A slice inside a prefix is the same slice of the whole. */
  lemma SliceOfPrefix<T>(s: seq<T>, size: nat, lo: nat, hi: nat)
    requires lo <= hi <= size <= |s|
    ensures s[..size][lo..hi] == s[lo..hi]
  {
  }

  /** ASCII text as bytes. */
  function Ascii(s: string): (b: seq<byte>)
    ensures |b| == |s|
  {
    seq(|s|, i requires 0 <= i < |s| => s[i] as int % 256)
  }

  function Pow2(n: nat): (p: nat)
    ensures p >= 1
  {
    if n == 0 then 1 else 2 * Pow2(n - 1)
  }

  function Pow256(n: nat): (p: nat)
    ensures p >= 1
  {
    if n == 0 then 1 else 256 * Pow256(n - 1)
  }

  lemma Pow256Values()
    ensures Pow256(1) == 0x100 && Pow256(2) == 0x1_0000 && Pow256(4) == U32 && Pow256(8) == U64
  {
    assert Pow256(1) == 256 * Pow256(0);
    assert Pow256(2) == 256 * Pow256(1);
    assert Pow256(3) == 256 * Pow256(2);
    assert Pow256(4) == 256 * Pow256(3);
    assert Pow256(5) == 256 * Pow256(4);
    assert Pow256(6) == 256 * Pow256(5);
    assert Pow256(7) == 256 * Pow256(6);
    assert Pow256(8) == 256 * Pow256(7);
  }

  /** The low `width` bytes of `n`, most significant first. */
  function BE(n: nat, width: nat): (b: seq<byte>)
    ensures |b| == width
  {
    if width == 0 then [] else BE(n / 256, width - 1) + [n % 256]
  }

  function FromBE(b: seq<byte>): nat
  {
    if b == [] then 0 else FromBE(b[..|b| - 1]) * 256 + b[|b| - 1]
  }

  lemma {:induction false} FromBEBound(b: seq<byte>)
    ensures FromBE(b) < Pow256(|b|)
  {
    if b != [] {
      FromBEBound(b[..|b| - 1]);
    }
  }

  lemma {:induction false} BERoundTrip(n: nat, width: nat)
    requires n < Pow256(width)
    ensures FromBE(BE(n, width)) == n
  {
    if width > 0 {
      BERoundTrip(n / 256, width - 1);
      assert BE(n, width)[..width - 1] == BE(n / 256, width - 1);
    }
  }

  /** A number wider than the field loses its high bits. */
  lemma {:induction false} BETruncates(n: nat, width: nat)
    ensures FromBE(BE(n, width)) == n % Pow256(width)
  {
    if width > 0 {
      BETruncates(n / 256, width - 1);
      assert BE(n, width)[..width - 1] == BE(n / 256, width - 1);
      DigitMod(n, Pow256(width - 1));
    }
  }

  lemma DigitMod(n: nat, p: nat)
    requires p >= 1
    ensures n / 256 % p * 256 + n % 256 == n % (256 * p)
  {
    var q, r := n / 256 / p, n / 256 % p * 256 + n % 256;
    assert n / 256 == q * p + n / 256 % p;
    assert n == q * (256 * p) + r;
    RemainderIs(n, 256 * p, q, r);
  }

  lemma RemainderIs(n: nat, d: nat, q: nat, r: nat)
    requires d >= 1 && r < d && n == q * d + r
    ensures n % d == r
  {
    var x := n / d - q;
    assert x * d == r - n % d;
    if x >= 1 {
      ScaledUp(x, d);
    } else if x <= -1 {
      ScaledUp(-x, d);
    }
  }

  lemma SmallMod(n: nat, d: nat)
    requires n < d
    ensures n % d == n
  {
    RemainderIs(n, d, 0, n);
  }

  lemma ScaledUp(x: int, d: int)
    requires x >= 1 && d >= 0
    ensures x * d >= d && (-x) * d <= -d
  {
  }

  lemma LastDigit(q: nat, d: byte)
    ensures (q * 256 + d) / 256 == q && (q * 256 + d) % 256 == d
  {
  }

  lemma {:induction false} FromBERoundTrip(b: seq<byte>)
    ensures BE(FromBE(b), |b|) == b
  {
    if b != [] {
      var front, last := b[..|b| - 1], b[|b| - 1];
      FromBERoundTrip(front);
      LastDigit(FromBE(front), last);
      assert BE(FromBE(b), |b|) == BE(FromBE(front), |front|) + [last];
      assert b == front + [last];
    }
  }

  lemma BEInjective(m: nat, n: nat, width: nat)
    requires m < Pow256(width) && n < Pow256(width)
    requires BE(m, width) == BE(n, width)
    ensures m == n
  {
    BERoundTrip(m, width);
    BERoundTrip(n, width);
  }

  lemma {:induction false} FromBEZeros(n: nat)
    ensures FromBE(Zeros(n)) == 0
  {
    if n > 0 {
      FromBEZeros(n - 1);
      assert Zeros(n)[..n - 1] == Zeros(n - 1);
    }
  }

  /** A word carrying `n` right-aligned in its low eight bytes. */
  function U64Word(n: nat): Word
  {
    Zeros(24) + BE(n, 8)
  }

  function LowU64(w: Word): (n: nat)
    ensures n < U64
  {
    FromBEBound(w[24..32]);
    Pow256Values();
    FromBE(w[24..32])
  }

  lemma U64WordRoundTrip(n: nat)
    requires n < U64
    ensures LowU64(U64Word(n)) == n
  {
    Pow256Values();
    BERoundTrip(n, 8);
    assert U64Word(n)[24..32] == BE(n, 8);
  }

  lemma LowU64Zero()
    ensures LowU64(ZERO_WORD) == 0
  {
    FromBEZeros(8);
    assert ZERO_WORD[24..32] == Zeros(8);
  }

  /** The byte loop that reads a big-endian uint64. */
  method BytesToU64(b: seq<byte>) returns (v: nat)
    requires |b| <= 8
    ensures v == FromBE(b) && v < U64
  {
    v := 0;
    for i := 0 to |b|
      invariant v == FromBE(b[..i])
    {
      assert b[..i + 1][..i] == b[..i];
      v := v * 256 + b[i];
    }
    assert b[..|b|] == b;
    FromBEBound(b);
    Pow256Values();
    Pow256Monotone(|b|, 8);
  }

  lemma {:induction false} Pow256Monotone(m: nat, n: nat)
    requires m <= n
    ensures Pow256(m) <= Pow256(n)
  {
    if m < n {
      Pow256Monotone(m, n - 1);
    }
  }

  lemma {:induction false} Pow256Add(m: nat, n: nat)
    ensures Pow256(m + n) == Pow256(m) * Pow256(n)
  {
    if m > 0 {
      Pow256Add(m - 1, n);
      assert Pow256(m) * Pow256(n) == 256 * (Pow256(m - 1) * Pow256(n));
    }
  }

  /** Reading a big-endian number digit group by digit group. */
  lemma {:induction false} FromBEConcat(a: seq<byte>, b: seq<byte>)
    ensures FromBE(a + b) == FromBE(a) * Pow256(|b|) + FromBE(b)
  {
    if b == [] {
      assert a + b == a;
    } else {
      var b' := b[..|b| - 1];
      FromBEConcat(a, b');
      assert (a + b)[..|a + b| - 1] == a + b';
      assert FromBE(a) * Pow256(|b|) == (FromBE(a) * Pow256(|b'|)) * 256;
    }
  }

  /** The byte loop that writes a uint64, last byte first; higher bits of `v` fall off. */
  method PutU64(v: nat) returns (b: seq<byte>)
    ensures b == BE(v, 8)
  {
    b := [];
    var rest, i := v, 8;
    while i > 0
      invariant 0 <= i <= 8 && |b| == 8 - i
      invariant BE(v, 8) == BE(rest, i) + b
    {
      b := [rest % 256] + b;
      rest := rest / 256;
      i := i - 1;
    }
  }
}
