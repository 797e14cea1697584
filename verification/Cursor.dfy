/** Reading calldata one field at a time. The input is a window on a longer memory: `memory` is all the
    bytes a slice expression could reach, `size` the length the caller declared. */
module Cursor {
  import opened Bytes
  import opened Rounding
  import opened Wrappers

  datatype ReadError = Short | Trailing

  class Reader {
    const memory: seq<byte>
    const size: nat
    var off: nat

    constructor (m: seq<byte>, n: nat)
      requires n <= |m|
      ensures memory == m && size == n && off == 0 && Valid()
    {
      memory, size, off := m, n, 0;
    }

    ghost predicate Valid()
      reads this
    {
      off <= size <= |memory|
    }

    /** The declared input, and what is left of it. */
    ghost function Declared(): seq<byte>
      requires size <= |memory|
    {
      memory[..size]
    }

    ghost function Left(): (b: seq<byte>)
      reads this
      requires Valid()
      ensures |b| == size - off
    {
      Declared()[off..]
    }

    function Len(): nat
      reads this
      requires Valid()
    {
      size - off
    }

    /** Exactly the next `n` declared bytes, or a refusal that consumes nothing. */
    method Bytes(n: nat) returns (r: Result<seq<byte>, ReadError>)
      requires Valid()
      modifies this`off
      ensures Valid()
      ensures if n <= |old(Left())| then r == Ok(old(Left())[..n]) && Left() == old(Left())[n..]
              else r == Err(Short) && off == old(off)
    {
      if n > Len() { return Err(Short); }
      var b := Take(n);
      r := Ok(b);
    }

    method Take(n: nat) returns (b: seq<byte>)
      requires Valid() && n <= |Left()|
      modifies this`off
      ensures Valid() && b == old(Left())[..n] && Left() == old(Left())[n..]
    {
      var lo := off;
      var hi := lo + n;
      off := hi;
      b := memory[lo..hi];
    }

    /** A big-endian unsigned number `w` bytes wide. */
    method Uint(w: nat) returns (r: Result<nat, ReadError>)
      requires Valid() && w <= 8
      modifies this`off
      ensures Valid()
      ensures if w <= |old(Left())| then r == Ok(FromBE(old(Left())[..w])) && Left() == old(Left())[w..]
              else r == Err(Short) && off == old(off)
    {
      var b := Bytes(w);
      if b.Err? { return Err(Short); }
      var v := BytesToU64(b.value);
      r := Ok(v);
    }

    /** `n` fields of `w` bytes: refused, before anything is allocated, exactly when they do not fit. A width of
        zero reads nothing. */
    method Fields(n: nat, w: nat) returns (r: Result<seq<seq<byte>>, ReadError>)
      requires Valid()
      modifies this`off
      ensures Valid()
      ensures if w == 0 then r == Ok([]) && off == old(off)
              else if n * w <= |old(Left())| then
                r.Ok? && IsFields(old(Left()), n, w, r.value) && Left() == old(Left())[n * w..]
              else r == Err(Short) && off == old(off)
    {
      if w == 0 { return Ok([]); }
      FitsIff(n, w, Len());
      if n > Len() / w { return Err(Short); }
      ghost var all := Left();
      var out: seq<seq<byte>> := [];
      var i := 0;
      while i < n
        invariant 0 <= i <= n && Valid()
        invariant i * w <= |all| && Left() == all[i * w..]
        invariant IsFields(all, i, w, out)
      {
        NextFits(i, n, w);
        var b := Take(w);
        NextField(all, i, w, out, b);
        out := out + [b];
        i := i + 1;
      }
      r := Ok(out);
    }

    method Rest() returns (b: seq<byte>)
      requires Valid()
      modifies this`off
      ensures Valid() && b == old(Left()) && Left() == []
    {
      var r := Bytes(Len());
      b := r.value;
    }

    method End() returns (r: Result<bool, ReadError>)
      requires Valid()
      ensures r == if Left() == [] then Ok(true) else Err(Trailing)
    {
      if Len() != 0 { return Err(Trailing); }
      r := Ok(true);
    }
  }

  /** `fs` are the first `n` consecutive `w`-byte fields of `b`. */
  ghost predicate IsFields(b: seq<byte>, n: nat, w: nat, fs: seq<seq<byte>>) {
    |fs| == n && forall i: nat :: i < n ==> FieldIs(b, i, w, fs[i])
  }

  predicate FieldIs(b: seq<byte>, i: nat, w: nat, f: seq<byte>) {
    (i + 1) * w <= |b| && f == b[i * w..(i + 1) * w]
  }

  /** The dividing bound is the multiplying one, with nothing to wrap. */
  lemma FitsIff(n: nat, w: nat, len: nat)
    requires w > 0
    ensures n > len / w <==> n * w > len
  {
    assert len == len / w * w + len % w;
    if n > len / w {
      MulMono(len / w + 1, n, w);
    } else {
      MulMono(n, len / w, w);
    }
  }

  lemma NextFits(i: nat, n: nat, w: nat)
    requires i < n
    ensures i * w + w == (i + 1) * w <= n * w
  {
    MulMono(i + 1, n, w);
  }

  lemma NextField(b: seq<byte>, i: nat, w: nat, fs: seq<seq<byte>>, f: seq<byte>)
    requires IsFields(b, i, w, fs) && i * w + w == (i + 1) * w <= |b| && f == b[i * w..][..w]
    ensures IsFields(b, i + 1, w, fs + [f])
  {
    assert FieldIs(b, i, w, f);
  }
}
