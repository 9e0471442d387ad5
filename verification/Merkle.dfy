/** The Merkle root of a block's transaction hashes. The pair hash (Keccak of two
    concatenated hashes) is a parameter. */
module Merkle {
  import opened Bytes

  type PairHash = (Hash, Hash) -> Hash

  /** EmptyTxsHash */
  const EMPTY_TXS: Hash :=
    [0x56, 0xe8, 0x1f, 0x17, 0x1b, 0xcc, 0x55, 0xa6, 0xff, 0x83, 0x45, 0xe6, 0x92, 0xc0, 0xf8, 0x6e,
     0x5b, 0x48, 0xe0, 0x1b, 0x99, 0x6c, 0xad, 0xc0, 0x01, 0x62, 0x2f, 0xb5, 0xe3, 0x63, 0xb4, 0x21]

  // ---------- the tree, top down ----------

  /** Number of nodes on a level over n leaves. */
  function Width(n: nat, level: nat): nat {
    if level == 0 then n else (Width(n, level - 1) + 1) / 2
  }

  /** Node i of a level: the hash of its two children; a missing right child is the left one again. */
  function Node(pair: PairHash, leaves: seq<Hash>, level: nat, i: nat): Hash
    requires i < Width(|leaves|, level)
    decreases level
  {
    if level == 0 then leaves[i] else
      var w := Width(|leaves|, level - 1);
      pair(Node(pair, leaves, level - 1, 2 * i),
           Node(pair, leaves, level - 1, if 2 * i + 1 < w then 2 * i + 1 else 2 * i))
  }

  /** Levels above the leaves until one node is left. */
  function Depth(n: nat): nat {
    if n <= 1 then 0 else 1 + Depth((n + 1) / 2)
  }

  /** Pair hashes needed for that. */
  function Work(n: nat): nat {
    if n <= 1 then 0 else (n + 1) / 2 + Work((n + 1) / 2)
  }

  function Root(pair: PairHash, leaves: seq<Hash>): Hash {
    if leaves == [] then EMPTY_TXS else
      DepthWidth(|leaves|, 0);
      Node(pair, leaves, Depth(|leaves|), 0)
  }

  lemma {:induction false} DepthWidth(n: nat, level: nat)
    requires n > 0
    ensures Width(n, level) > 0
    ensures Width(n, level + Depth(Width(n, level))) == 1
    decreases Width(n, level)
  {
    WidthPositive(n, level);
    if Width(n, level) > 1 {
      DepthWidth(n, level + 1);
    }
  }

  lemma {:induction false} WidthPositive(n: nat, level: nat)
    requires n > 0
    ensures Width(n, level) > 0
  {
    if level > 0 { WidthPositive(n, level - 1); }
  }

  function Pow2(n: nat): nat {
    if n == 0 then 1 else 2 * Pow2(n - 1)
  }

  /** Depth(n) is the ceiling of log2 n. */
  lemma {:induction false} DepthIsCeilLog2(n: nat)
    requires n > 0
    ensures n <= Pow2(Depth(n)) && (n > 1 ==> Pow2(Depth(n) - 1) < n)
  {
    if n > 1 { DepthIsCeilLog2((n + 1) / 2); }
  }

  lemma {:induction false} WorkBound(n: nat)
    requires n > 0
    ensures Work(n) <= n - 1 + Depth(n)
  {
    if n > 1 { WorkBound((n + 1) / 2); }
  }

  // ---------- the loop ----------

  /** The nodes of one level, left to right. */
  ghost predicate IsLevel(pair: PairHash, leaves: seq<Hash>, level: nat, hashes: seq<Hash>) {
    |hashes| == Width(|leaves|, level)
    && forall i :: 0 <= i < |hashes| ==> hashes[i] == Node(pair, leaves, level, i)
  }

  /** The inner loop: hashes neighbours in pairs. */
  method PairUp(pair: PairHash, hashes: seq<Hash>) returns (newLevel: seq<Hash>)
    requires |hashes| % 2 == 0
    ensures 2 * |newLevel| == |hashes|
    ensures forall k :: 0 <= k < |newLevel| ==> newLevel[k] == pair(hashes[2 * k], hashes[2 * k + 1])
  {
    newLevel := [];
    var i := 0;
    while i < |hashes|
      invariant i <= |hashes| && i == 2 * |newLevel|
      invariant forall k :: 0 <= k < |newLevel| ==> newLevel[k] == pair(hashes[2 * k], hashes[2 * k + 1])
    {
      newLevel := newLevel + [pair(hashes[i], hashes[i + 1])];
      i := i + 2;
    }
  }

  /** The loop equals the tree, takes ceil(log2 n) levels and at most n - 1 + ceil(log2 n) pair hashes. */
  method MerkleRoot(pair: PairHash, txHashes: seq<Hash>) returns (root: Hash, ghost levels: nat, ghost calls: nat)
    ensures root == Root(pair, txHashes)
    ensures levels == Depth(|txHashes|) && (txHashes != [] ==> calls <= |txHashes| - 1 + Depth(|txHashes|))
  {
    var hashes := txHashes;
    levels, calls := 0, 0;
    if |hashes| == 0 {
      return EMPTY_TXS, 0, 0;
    }
    DepthWidth(|txHashes|, 0);
    WorkBound(|txHashes|);
    LeafLevel(pair, txHashes);
    hide Node, Width, IsLevel, Root;
    while |hashes| > 1
      invariant IsLevel(pair, txHashes, levels, hashes) && |hashes| > 0
      invariant levels + Depth(|hashes|) == Depth(|txHashes|)
      invariant calls + Work(|hashes|) == Work(|txHashes|)
      decreases |hashes|
    {
      ghost var level := hashes;
      if |hashes| % 2 == 1 {
        hashes := hashes + [hashes[|hashes| - 1]];
      }
      var newLevel := PairUp(pair, hashes);
      LevelUp(pair, txHashes, levels, level, hashes, newLevel);
      calls := calls + |newLevel|;
      hashes := newLevel;
      levels := levels + 1;
    }
    OneLeft(pair, txHashes, levels, hashes);
    root := hashes[0];
  }

  lemma LeafLevel(pair: PairHash, leaves: seq<Hash>)
    ensures IsLevel(pair, leaves, 0, leaves)
  {
  }

  lemma OneLeft(pair: PairHash, leaves: seq<Hash>, level: nat, hashes: seq<Hash>)
    requires leaves != [] && level == Depth(|leaves|) && IsLevel(pair, leaves, level, hashes) && |hashes| == 1
    ensures hashes[0] == Root(pair, leaves)
  {
  }

  lemma LevelUp(pair: PairHash, leaves: seq<Hash>, level: nat, below: seq<Hash>, padded: seq<Hash>, above: seq<Hash>)
    requires IsLevel(pair, leaves, level, below) && |below| > 1
    requires padded == if |below| % 2 == 1 then below + [below[|below| - 1]] else below
    requires 2 * |above| == |padded|
    requires forall k :: 0 <= k < |above| ==> above[k] == pair(padded[2 * k], padded[2 * k + 1])
    ensures IsLevel(pair, leaves, level + 1, above) && |above| == (|below| + 1) / 2
  {
    forall k | 0 <= k < |above| ensures above[k] == Node(pair, leaves, level + 1, k) {
      assert padded[2 * k] == below[2 * k];
    }
  }

  // ---------- what a root commits to ----------

  function LeftChild(pair: PairHash, leaves: seq<Hash>, level: nat, i: nat): Hash
    requires level > 0 && i < Width(|leaves|, level)
  {
    Node(pair, leaves, level - 1, 2 * i)
  }

  function RightChild(pair: PairHash, leaves: seq<Hash>, level: nat, i: nat): Hash
    requires level > 0 && i < Width(|leaves|, level)
  {
    Node(pair, leaves, level - 1, if 2 * i + 1 < Width(|leaves|, level - 1) then 2 * i + 1 else 2 * i)
  }

  /** The two trees show a collision of the pair hash at this node: same hash, different children. */
  ghost predicate CollisionAt(pair: PairHash, xs: seq<Hash>, ys: seq<Hash>, level: nat, i: nat) {
    && |xs| == |ys| && 0 < level <= Depth(|xs|) && i < Width(|xs|, level)
    && (LeftChild(pair, xs, level, i), RightChild(pair, xs, level, i))
       != (LeftChild(pair, ys, level, i), RightChild(pair, ys, level, i))
    && pair(LeftChild(pair, xs, level, i), RightChild(pair, xs, level, i))
       == pair(LeftChild(pair, ys, level, i), RightChild(pair, ys, level, i))
  }

  /** Some node of the two trees shows a collision of the pair hash. */
  ghost predicate Collide(pair: PairHash, xs: seq<Hash>, ys: seq<Hash>) {
    exists level: nat, i: nat :: CollisionAt(pair, xs, ys, level, i)
  }

  /** The node above a leaf on a level. */
  function Above(leaf: nat, level: nat): nat {
    if level == 0 then leaf else Above(leaf, level - 1) / 2
  }

  lemma {:induction false} AboveInLevel(n: nat, leaf: nat, level: nat)
    requires leaf < n
    ensures Above(leaf, level) < Width(n, level)
  {
    if level > 0 { AboveInLevel(n, leaf, level - 1); }
  }

  lemma {:induction false} FindCollision(pair: PairHash, xs: seq<Hash>, ys: seq<Hash>, level: nat, leaf: nat)
    returns (l: nat, i: nat)
    requires |xs| == |ys| && leaf < |xs| && level <= Depth(|xs|) && Above(leaf, level) < Width(|xs|, level)
    requires Node(pair, xs, level, Above(leaf, level)) == Node(pair, ys, level, Above(leaf, level))
    requires xs[leaf] != ys[leaf]
    ensures CollisionAt(pair, xs, ys, l, i)
    decreases level
  {
    AboveInLevel(|xs|, leaf, level - 1);
    var below := Above(leaf, level - 1);
    if Node(pair, xs, level - 1, below) == Node(pair, ys, level - 1, below) {
      l, i := FindCollision(pair, xs, ys, level - 1, leaf);
    } else {
      l, i := level, Above(leaf, level);
    }
  }

  /** Equal-length lists with the same root are equal, or their trees show a collision of the pair hash. */
  lemma RootBinds(pair: PairHash, xs: seq<Hash>, ys: seq<Hash>)
    requires |xs| == |ys| && Root(pair, xs) == Root(pair, ys)
    ensures xs == ys || Collide(pair, xs, ys)
  {
    if xs != ys {
      DepthWidth(|xs|, 0);
      var k :| 0 <= k < |xs| && xs[k] != ys[k];
      AboveInLevel(|xs|, k, Depth(|xs|));
      var _, _ := FindCollision(pair, xs, ys, Depth(|xs|), k);
    }
  }
}
