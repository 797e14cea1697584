/** The Merkle inclusion fold, checked against the tree it claims a path through. */
module Merkle {
  import opened Bytes
  import opened InferenceWire

  /** A 32-byte value, named by what was hashed: equal names, equal preimages; an image of one hash is
      never an image of another, nor a word somebody chose. */
  datatype Digest =
    | Raw(word: Word)
    | IntentId(intent: Intent)
    | ReceiptHash(receipt: Receipt<Digest>)
    | Leaf(of: Digest)
    | Node(left: Digest, right: Digest)

  // ----- the verifier -----

  /** The node `path` folds `node` into, turning by the bits of `idx`. */
  function Fold(node: Digest, path: seq<Digest>, idx: nat): Digest
    decreases |path|
  {
    if path == [] then node
    else Fold(if idx % 2 == 0 then Node(node, path[0]) else Node(path[0], node), path[1..], idx / 2)
  }

  predicate Accepts(leaf: Digest, p: Proof<Digest>) {
    && |p.path| <= MAX_PROOF_DEPTH
    && (|p.path| < 64 ==> p.index < Pow2(|p.path|))
    && Fold(leaf, p.path, p.index) == p.root
  }

  method VerifyMerkle(leaf: Digest, p: Proof<Digest>) returns (ok: bool)
    ensures ok == Accepts(leaf, p)
  {
    var depth := |p.path|;
    if depth > MAX_PROOF_DEPTH { return false; }
    if depth < 64 && p.index >= Pow2(depth) { return false; }
    var node, idx := leaf, p.index;
    for i := 0 to depth
      invariant Fold(leaf, p.path, p.index) == Fold(node, p.path[i..], idx)
    {
      assert p.path[i..][0] == p.path[i] && p.path[i..][1..] == p.path[i + 1..];
      if idx % 2 == 0 {
        node := Node(node, p.path[i]);
      } else {
        node := Node(p.path[i], node);
      }
      idx := idx / 2;
    }
    ok := node == p.root;
  }

  // ----- the tree -----

  function Root(leaves: seq<Digest>, depth: nat): Digest
    requires |leaves| == Pow2(depth)
  {
    if depth == 0 then leaves[0]
    else
      var half := Pow2(depth - 1);
      Node(Root(leaves[..half], depth - 1), Root(leaves[half..], depth - 1))
  }

  /** The siblings from leaf `i` up. */
  function HonestPath(leaves: seq<Digest>, depth: nat, i: nat): (path: seq<Digest>)
    requires |leaves| == Pow2(depth) && i < |leaves|
    ensures |path| == depth
  {
    if depth == 0 then []
    else
      var half := Pow2(depth - 1);
      if i < half then HonestPath(leaves[..half], depth - 1, i) + [Root(leaves[half..], depth - 1)]
      else HonestPath(leaves[half..], depth - 1, i - half) + [Root(leaves[..half], depth - 1)]
  }

  // ----- bits -----

  lemma HalfBits(idx: nat, n: nat)
    ensures idx / 2 / Pow2(n) == idx / Pow2(n + 1)
  {
    var p := Pow2(n);
    var q := idx / 2 / p;
    assert idx == 2 * (idx / 2) + idx % 2 && idx / 2 == q * p + idx / 2 % p;
    assert idx == q * (2 * p) + (2 * (idx / 2 % p) + idx % 2);
    QuotientIs(idx, 2 * p, q, 2 * (idx / 2 % p) + idx % 2);
  }

  lemma QuotientIs(a: nat, d: nat, q: nat, r: nat)
    requires d >= 1 && r < d && a == q * d + r
    ensures a / d == q
  {
    var x := a / d - q;
    assert x * d == r - a % d;
    if x >= 1 {
      ScaledUp(x, d);
    } else if x <= -1 {
      ScaledUp(-x, d);
    }
  }

  /** The last sibling joins at the turn given by bit `|path|`. */
  lemma {:induction false} FoldLast(node: Digest, path: seq<Digest>, s: Digest, idx: nat)
    ensures var below := Fold(node, path, idx);
            Fold(node, path + [s], idx)
            == if idx / Pow2(|path|) % 2 == 0 then Node(below, s) else Node(s, below)
    decreases |path|
  {
    if path == [] {
      assert (path + [s])[1..] == [];
    } else {
      var up := if idx % 2 == 0 then Node(node, path[0]) else Node(path[0], node);
      assert (path + [s])[1..] == path[1..] + [s];
      FoldLast(up, path[1..], s, idx / 2);
      HalfBits(idx, |path| - 1);
    }
  }

  /** The turns below bit `n` do not depend on the bits from `n` up. */
  lemma {:induction false} FoldLowBits(node: Digest, path: seq<Digest>, idx: nat, high: nat)
    ensures Fold(node, path, idx + high * Pow2(|path|)) == Fold(node, path, idx)
    decreases |path|
  {
    if path != [] {
      var n := |path| - 1;
      var step := high * Pow2(n);
      assert high * Pow2(|path|) == 2 * step;
      assert (idx + 2 * step) % 2 == idx % 2 && (idx + 2 * step) / 2 == idx / 2 + step;
      var up := if idx % 2 == 0 then Node(node, path[0]) else Node(path[0], node);
      FoldLowBits(up, path[1..], idx / 2, high);
    }
  }

  lemma TopBit(i: nat, half: nat)
    requires half >= 1 && i < 2 * half
    ensures i / half == if i < half then 0 else 1
  {
    QuotientIs(i, half, if i < half then 0 else 1, if i < half then i else i - half);
  }

  // ----- completeness -----

  /** Joining the left half's root to the right one at index bit 0, and the other way round at bit 1. */
  lemma FoldsLeft(leaf: Digest, path: seq<Digest>, below: Digest, s: Digest, i: nat)
    requires Fold(leaf, path, i) == below && i < Pow2(|path|)
    ensures Fold(leaf, path + [s], i) == Node(below, s)
  {
    TopBit(i, Pow2(|path|));
    FoldLast(leaf, path, s, i);
  }

  lemma FoldsRight(leaf: Digest, path: seq<Digest>, below: Digest, s: Digest, i: nat)
    requires Fold(leaf, path, i) == below && i < Pow2(|path|)
    ensures Fold(leaf, path + [s], i + Pow2(|path|)) == Node(s, below)
  {
    TopBit(i + Pow2(|path|), Pow2(|path|));
    FoldLowBits(leaf, path, i, 1);
    FoldLast(leaf, path, s, i + Pow2(|path|));
  }

  lemma {:induction false} HonestFold(leaves: seq<Digest>, depth: nat, i: nat)
    requires |leaves| == Pow2(depth) && i < |leaves|
    ensures Fold(leaves[i], HonestPath(leaves, depth, i), i) == Root(leaves, depth)
    decreases depth, 1
  {
    if depth > 0 {
      var half := Pow2(depth - 1);
      RootSplits(leaves, depth);
      PathSplits(leaves, depth, i);
      if i < half {
        HonestFoldLeft(leaves, depth, i, leaves[..half], Root(leaves[half..], depth - 1));
      } else {
        HonestFoldRight(leaves, depth, i - half, leaves[half..], Root(leaves[..half], depth - 1));
      }
    }
  }

  lemma {:induction false} HonestFoldLeft(leaves: seq<Digest>, depth: nat, i: nat, l: seq<Digest>, sibling: Digest)
    requires depth > 0 && |l| == Pow2(depth - 1) && i < |l| <= |leaves| && leaves[i] == l[i]
    ensures Fold(leaves[i], HonestPath(l, depth - 1, i) + [sibling], i) == Node(Root(l, depth - 1), sibling)
    decreases depth, 0
  {
    HonestFold(l, depth - 1, i);
    FoldsLeft(l[i], HonestPath(l, depth - 1, i), Root(l, depth - 1), sibling, i);
  }

  lemma {:induction false} HonestFoldRight(leaves: seq<Digest>, depth: nat, i: nat, r: seq<Digest>, sibling: Digest)
    requires depth > 0 && |r| == Pow2(depth - 1) && i < |r| && |r| + i < |leaves| && leaves[|r| + i] == r[i]
    ensures Fold(leaves[|r| + i], HonestPath(r, depth - 1, i) + [sibling], |r| + i) == Node(sibling, Root(r, depth - 1))
    decreases depth, 0
  {
    HonestFold(r, depth - 1, i);
    FoldsRight(r[i], HonestPath(r, depth - 1, i), Root(r, depth - 1), sibling, i);
  }

  lemma {:induction false} RootSplits(leaves: seq<Digest>, depth: nat)
    requires depth > 0 && |leaves| == Pow2(depth)
    ensures var half := Pow2(depth - 1);
            Root(leaves, depth) == Node(Root(leaves[..half], depth - 1), Root(leaves[half..], depth - 1))
  {
  }

  lemma {:induction false} PathSplits(leaves: seq<Digest>, depth: nat, i: nat)
    requires depth > 0 && |leaves| == Pow2(depth) && i < |leaves|
    ensures var half := Pow2(depth - 1);
            HonestPath(leaves, depth, i) ==
            if i < half then HonestPath(leaves[..half], depth - 1, i) + [Root(leaves[half..], depth - 1)]
            else HonestPath(leaves[half..], depth - 1, i - half) + [Root(leaves[..half], depth - 1)]
  {
  }

  lemma {:induction false} Pow2Add(m: nat, n: nat)
    ensures Pow2(m + n) == Pow2(m) * Pow2(n)
  {
    if m > 0 {
      Pow2Add(m - 1, n);
      assert Pow2(m) * Pow2(n) == 2 * (Pow2(m - 1) * Pow2(n));
    }
  }

  lemma SmallPowers()
    ensures Pow2(4) == 16
  {
    assert Pow2(1) == 2;
    Pow2Add(1, 1);
    Pow2Add(2, 2);
  }

  lemma Pow2Of64()
    ensures Pow2(64) == U64
  {
    hide Pow2;
    SmallPowers();
    Pow2Add(4, 4);
    Pow2Add(8, 8);
    Pow2Add(16, 16);
    Pow2Add(32, 32);
  }

  // ----- soundness -----

  /** A fold along at least one sibling is a node. */
  lemma {:induction false} FoldIsNode(node: Digest, path: seq<Digest>, idx: nat)
    requires path != []
    ensures Fold(node, path, idx).Node?
    decreases |path|
  {
    if |path| > 1 {
      FoldIsNode(if idx % 2 == 0 then Node(node, path[0]) else Node(path[0], node), path[1..], idx / 2);
    }
  }

  predicate AllLeaves(leaves: seq<Digest>) {
    forall i :: 0 <= i < |leaves| ==> leaves[i].Leaf?
  }

  /** Whatever folds from a leaf into the root went through the tree: as deep as it, from the leaf the low
      index bits name, past the honest siblings. */
  lemma {:induction false} FoldsThroughTree(leaves: seq<Digest>, depth: nat, leaf: Digest, path: seq<Digest>, idx: nat)
    requires |leaves| == Pow2(depth) && AllLeaves(leaves) && leaf.Leaf?
    requires Fold(leaf, path, idx) == Root(leaves, depth)
    ensures |path| == depth && leaf == leaves[idx % Pow2(depth)]
    ensures path == HonestPath(leaves, depth, idx % Pow2(depth))
    decreases depth
  {
    if depth == 0 {
      if path != [] {
        FoldIsNode(leaf, path, idx);
      }
    } else if path != [] {
      var half, n := Pow2(depth - 1), |path| - 1;
      var l, r := leaves[..half], leaves[half..];
      var low, s := path[..n], path[n];
      assert path == low + [s];
      FoldLast(leaf, low, s, idx);
      if idx / Pow2(n) % 2 == 0 {
        FoldsThroughTree(l, depth - 1, leaf, low, idx);
      } else {
        FoldsThroughTree(r, depth - 1, leaf, low, idx);
      }
      SplitBits(idx, half);
    }
  }

  /** An index modulo 2h is its low part, plus h when the bit at h is set. */
  lemma SplitBits(idx: nat, half: nat)
    requires half >= 1
    ensures idx % (2 * half) == idx % half + if idx / half % 2 == 0 then 0 else half
  {
    var q := idx / half;
    var b := q % 2;
    assert q == 2 * (q / 2) + b;
    assert idx == q / 2 * (2 * half) + (b * half + idx % half);
    RemainderIs(idx, 2 * half, q / 2, b * half + idx % half);
  }

  lemma WithinDepth(p: Proof<Digest>)
    requires p.index < U64 && |p.path| <= MAX_PROOF_DEPTH
    ensures (|p.path| < 64 ==> p.index < Pow2(|p.path|)) <==> p.index < Pow2(|p.path|)
  {
    Pow2Of64();
  }

  /** The verifier accepts a leaf under the root of a perfect tree of leaves, of any depth up to 64, exactly
      for that tree's depth, the leaf at that index and the honest siblings. */
  lemma AcceptsIff(leaves: seq<Digest>, depth: nat, leaf: Digest, path: seq<Digest>, i: nat)
    requires |leaves| == Pow2(depth) && depth <= MAX_PROOF_DEPTH && AllLeaves(leaves) && leaf.Leaf? && i < U64
    ensures Accepts(leaf, Proof(Root(leaves, depth), path, i)) <==>
            i < |leaves| && leaf == leaves[i] && path == HonestPath(leaves, depth, i)
  {
    if |path| <= MAX_PROOF_DEPTH {
      WithinDepth(Proof(Root(leaves, depth), path, i));
    }
    if Accepts(leaf, Proof(Root(leaves, depth), path, i)) {
      FoldsThroughTree(leaves, depth, leaf, path, i);
      SmallMod(i, Pow2(depth));
    } else if i < |leaves| && leaf == leaves[i] && path == HonestPath(leaves, depth, i) {
      HonestFold(leaves, depth, i);
    }
  }
}
