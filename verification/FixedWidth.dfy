/** Records of fixed-width byte fields: laying them end to end, and cutting them apart again. */
module FixedWidth {
  import opened Bytes

  /** The fields end to end. */
  function Flatten(fs: seq<seq<byte>>): seq<byte> {
    if fs == [] then [] else Flatten(fs[..|fs| - 1]) + fs[|fs| - 1]
  }

  function Total(ws: seq<nat>): nat {
    if ws == [] then 0 else Total(ws[..|ws| - 1]) + ws[|ws| - 1]
  }

  predicate Widths(fs: seq<seq<byte>>, ws: seq<nat>) {
    |fs| == |ws| && forall k :: 0 <= k < |fs| ==> |fs[k]| == ws[k]
  }

  /** The fields of the given widths. */
  function Cut(b: seq<byte>, ws: seq<nat>): (fs: seq<seq<byte>>)
    requires |b| == Total(ws)
    ensures Widths(fs, ws)
    decreases |ws|
  {
    if ws == [] then []
    else
      var n := |ws| - 1;
      Cut(b[..|b| - ws[n]], ws[..n]) + [b[|b| - ws[n]..]]
  }

  lemma {:induction false} FlattenLength(fs: seq<seq<byte>>, ws: seq<nat>)
    requires Widths(fs, ws)
    ensures |Flatten(fs)| == Total(ws)
  {
    if fs != [] {
      FlattenLength(fs[..|fs| - 1], ws[..|fs| - 1]);
    }
  }

  /** Cutting what was laid end to end gives the fields back. */
  lemma {:induction false} CutFlatten(fs: seq<seq<byte>>, ws: seq<nat>)
    requires Widths(fs, ws)
    ensures |Flatten(fs)| == Total(ws) && Cut(Flatten(fs), ws) == fs
  {
    FlattenLength(fs, ws);
    if fs != [] {
      var n := |fs| - 1;
      CutFlatten(fs[..n], ws[..n]);
      assert Flatten(fs)[..|Flatten(fs)| - ws[n]] == Flatten(fs[..n]);
      assert fs == fs[..n] + [fs[n]];
    }
  }

  /** Laying the cuts end to end gives the bytes back. */
  lemma {:induction false} FlattenCut(b: seq<byte>, ws: seq<nat>)
    requires |b| == Total(ws)
    ensures Flatten(Cut(b, ws)) == b
    decreases |ws|
  {
    if ws != [] {
      var n := |ws| - 1;
      var o := |b| - ws[n];
      FlattenCut(b[..o], ws[..n]);
      assert Cut(b, ws)[..n] == Cut(b[..o], ws[..n]);
      assert b == b[..o] + b[o..];
    }
  }

  /** Records of the same widths are equal exactly when their bytes are. */
  lemma FlattenInjective(fs: seq<seq<byte>>, gs: seq<seq<byte>>, ws: seq<nat>)
    requires Widths(fs, ws) && Widths(gs, ws)
    ensures Flatten(fs) == Flatten(gs) <==> fs == gs
  {
    CutFlatten(fs, ws);
    CutFlatten(gs, ws);
  }

  lemma {:induction false} TotalPrefix(ws: seq<nat>, k: nat)
    requires k <= |ws|
    ensures Total(ws[..k]) <= Total(ws)
    ensures k < |ws| ==> Total(ws[..k + 1]) == Total(ws[..k]) + ws[k]
    decreases |ws|
  {
    if k < |ws| {
      var n := |ws| - 1;
      TotalPrefix(ws[..n], k);
      assert ws[..n][..k] == ws[..k];
      assert ws[..k + 1][..k] == ws[..k];
    } else {
      assert ws[..k] == ws;
    }
  }

  /** `fs` are the first fields of `b`, and `o` is where the next one starts. */
  ghost predicate ReadSoFar(b: seq<byte>, ws: seq<nat>, fs: seq<seq<byte>>, o: nat) {
    |fs| <= |ws| && o == Total(ws[..|fs|]) <= |b| && fs == Cut(b[..o], ws[..|fs|])
  }

  lemma NothingRead(b: seq<byte>, ws: seq<nat>)
    ensures ReadSoFar(b, ws, [], 0)
  {
  }

  /** Reads the field at the offset variable and advances it. */
  method ReadNext(b: seq<byte>, ws: seq<nat>, fs: seq<seq<byte>>, o: nat) returns (fs': seq<seq<byte>>, o': nat)
    requires |b| == Total(ws) && ReadSoFar(b, ws, fs, o) && |fs| < |ws|
    ensures ReadSoFar(b, ws, fs', o') && |fs'| == |fs| + 1
  {
    var k := |fs|;
    TotalPrefix(ws, k);
    TotalPrefix(ws, k + 1);
    o' := o + ws[k];
    fs' := fs + [b[o..o']];
    assert b[..o'][..o] == b[..o] && b[..o'][o..] == b[o..o'] && ws[..k + 1][..k] == ws[..k];
  }

  lemma CutLast(b: seq<byte>, ws: seq<nat>)
    requires |b| == Total(ws) && ws != []
    ensures var n := |ws| - 1;
            && ws[n] <= |b| && |b| - ws[n] == Total(ws[..n])
            && Cut(b, ws) == Cut(b[..|b| - ws[n]], ws[..n]) + [b[|b| - ws[n]..]]
  {
  }

  /** The fields read so far are the record's first ones. */
  lemma {:induction false} ReadIsPrefix(b: seq<byte>, ws: seq<nat>, fs: seq<seq<byte>>, o: nat)
    requires |b| == Total(ws) && ReadSoFar(b, ws, fs, o)
    ensures fs == Cut(b, ws)[..|fs|]
    decreases |ws|
  {
    hide Total, Cut;
    if |fs| == |ws| {
      assert ws[..|ws|] == ws && b[..|b|] == b;
    } else {
      var n := |ws| - 1;
      CutLast(b, ws);
      var front := b[..|b| - ws[n]];
      TotalPrefix(ws[..n], |fs|);
      PrefixOfPrefix(ws, n, |fs|);
      PrefixOfPrefix(b, |front|, o);
      ReadIsPrefix(front, ws[..n], fs, o);
    }
  }

  /** Copies field `k` of `fs` to the offset variable and advances it. */
  method WriteField(b: array<byte>, fs: seq<seq<byte>>, k: nat, o: nat) returns (o': nat)
    requires k < |fs| && o + |fs[k]| <= b.Length && b[..o] == Flatten(fs[..k])
    modifies b
    ensures o' == o + |fs[k]| && b[..o'] == Flatten(fs[..k + 1])
  {
    var f := fs[k];
    for i := 0 to |f|
      invariant b[..o] == Flatten(fs[..k])
      invariant b[o..o + i] == f[..i]
    {
      b[o + i] := f[i];
    }
    o' := o + |f|;
    assert fs[..k + 1][..k] == fs[..k];
    assert b[..o'] == b[..o] + b[o..o'];
  }
}
