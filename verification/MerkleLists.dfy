/** Which lists of hashes have the same Merkle root. */
module MerkleLists {
  import opened Bytes
  import opened Merkle

  // ---------- completed levels ----------

  /** In the full binary tree of depth d over n leaves, place i of a level holds this node of the actual tree: the
      left or right child of the one above, where a missing right child is the left one again. */
  function Place(n: nat, d: nat, level: nat, i: nat): nat
    decreases d - level
  {
    if level >= d then 0 else
      var p := Place(n, d, level + 1, i / 2);
      if i % 2 == 1 && 2 * p + 1 < Width(n, level) then 2 * p + 1 else 2 * p
  }

  lemma PlaceChildren(n: nat, d: nat, level: nat, i: nat)
    requires level < d
    ensures var p := Place(n, d, level + 1, i);
      && Place(n, d, level, 2 * i) == 2 * p
      && Place(n, d, level, 2 * i + 1) == if 2 * p + 1 < Width(n, level) then 2 * p + 1 else 2 * p
  {
    assert 2 * i / 2 == i && (2 * i + 1) / 2 == i;
  }

  lemma {:induction false} PlaceInLevel(n: nat, level: nat, i: nat)
    requires n > 0 && level <= Depth(n)
    ensures Place(n, Depth(n), level, i) < Width(n, level)
    decreases Depth(n) - level
  {
    if level == Depth(n) {
      DepthWidth(n, 0);
    } else {
      PlaceInLevel(n, level + 1, i / 2);
    }
  }

  /** A level of the tree, completed to a power of two by the tree's own duplication rule. */
  function Completed(pair: PairHash, leaves: seq<Hash>, level: nat): (r: seq<Hash>)
    requires leaves != [] && level <= Depth(|leaves|)
    ensures |r| == Pow2(Depth(|leaves|) - level)
  {
    var n := |leaves|;
    seq(Pow2(Depth(n) - level), i requires 0 <= i < Pow2(Depth(n) - level) =>
      PlaceInLevel(n, level, i);
      Node(pair, leaves, level, Place(n, Depth(n), level, i)))
  }

  lemma {:induction false} Pow2Shape(d: nat)
    ensures Pow2(d) > 0 && Depth(Pow2(d)) == d
  {
    if d > 0 {
      Pow2Shape(d - 1);
      assert (Pow2(d) + 1) / 2 == Pow2(d - 1);
    }
  }

  lemma {:induction false} Pow2Width(d: nat, level: nat)
    requires level <= d
    ensures Width(Pow2(d), level) == Pow2(d - level)
  {
    if level > 0 {
      Pow2Width(d, level - 1);
      assert Pow2(d - (level - 1)) == 2 * Pow2(d - level);
    }
  }

  /** The tree over a completed level is the rest of the tree. */
  lemma {:induction false} CompletedNode(pair: PairHash, leaves: seq<Hash>, d: nat, level: nat, up: nat, i: nat)
    requires leaves != [] && level + up <= d == Depth(|leaves|) && i < Pow2(d - level - up)
    ensures i < Width(Pow2(d - level), up) && Place(|leaves|, d, level + up, i) < Width(|leaves|, level + up)
    ensures Node(pair, Completed(pair, leaves, level), up, i)
      == Node(pair, leaves, level + up, Place(|leaves|, d, level + up, i))
    decreases up
  {
    hide Place, Depth, Node, Completed, Width, Pow2;
    Pow2Width(d - level, up);
    PlaceInLevel(|leaves|, level + up, i);
    if up == 0 {
      CompletedLeaf(pair, leaves, level, i);
    } else {
      Pow2Width(d - level, up - 1);
      Pow2Twice(d - level - up);
      CompletedNode(pair, leaves, d, level, up - 1, 2 * i);
      CompletedNode(pair, leaves, d, level, up - 1, 2 * i + 1);
      PlaceChildren(|leaves|, d, level + up - 1, i);
      NodeUp(pair, Completed(pair, leaves, level), up - 1, i);
      NodeUp(pair, leaves, level + up - 1, Place(|leaves|, d, level + up, i));
    }
  }

  lemma CompletedLeaf(pair: PairHash, leaves: seq<Hash>, level: nat, i: nat)
    requires leaves != [] && level <= Depth(|leaves|) && i < Pow2(Depth(|leaves|) - level)
    requires Place(|leaves|, Depth(|leaves|), level, i) < Width(|leaves|, level)
    ensures i < Width(Pow2(Depth(|leaves|) - level), 0)
    ensures Node(pair, Completed(pair, leaves, level), 0, i)
      == Node(pair, leaves, level, Place(|leaves|, Depth(|leaves|), level, i))
  {
  }

  lemma Pow2Twice(d: nat)
    ensures Pow2(d + 1) == 2 * Pow2(d)
  {
  }

  lemma NodeUp(pair: PairHash, leaves: seq<Hash>, level: nat, i: nat)
    requires i < Width(|leaves|, level + 1)
    ensures var w := Width(|leaves|, level);
      2 * i < w && Node(pair, leaves, level + 1, i)
        == pair(Node(pair, leaves, level, 2 * i), Node(pair, leaves, level, if 2 * i + 1 < w then 2 * i + 1 else 2 * i))
  {
  }

  lemma CompletedRoot(pair: PairHash, leaves: seq<Hash>, level: nat)
    requires leaves != [] && level <= Depth(|leaves|)
    ensures Root(pair, Completed(pair, leaves, level)) == Root(pair, leaves)
  {
    hide Node, Completed, Width, Depth, Pow2, Root, Place;
    var d := Depth(|leaves|);
    Pow2Shape(d - level);
    Tops(|leaves|, d);
    CompletedNode(pair, leaves, d, level, d - level, 0);
    RootIsTop(pair, leaves);
    RootIsTop(pair, Completed(pair, leaves, level));
  }

  lemma Tops(n: nat, d: nat)
    ensures Pow2(0) == 1 && Place(n, d, d, 0) == 0
  {
  }

  lemma RootIsTop(pair: PairHash, leaves: seq<Hash>)
    requires leaves != []
    ensures 0 < Width(|leaves|, Depth(|leaves|)) && Root(pair, leaves) == Node(pair, leaves, Depth(|leaves|), 0)
  {
    DepthWidth(|leaves|, 0);
  }

  // ---------- exactly when roots are equal ----------

  /** Exactly when two lists share a root, collisions aside. The deeper tree is cut where it is as high as the other;
      if the completed levels there are equal the roots are, and if the roots are equal the completed levels are, or a
      named node of the two trees over them is a collision of the pair hash. */
  lemma SameRoot(pair: PairHash, xs: seq<Hash>, ys: seq<Hash>)
    requires xs != [] && ys != [] && Depth(|xs|) <= Depth(|ys|)
    ensures var a, b := Completed(pair, xs, 0), Completed(pair, ys, Depth(|ys|) - Depth(|xs|));
      && (a == b ==> Root(pair, xs) == Root(pair, ys))
      && (Root(pair, xs) == Root(pair, ys) ==> a == b || Collide(pair, a, b))
  {
    hide Completed, Collide, Root;
    var a, b := Completed(pair, xs, 0), Completed(pair, ys, Depth(|ys|) - Depth(|xs|));
    CompletedRoot(pair, xs, 0);
    CompletedRoot(pair, ys, Depth(|ys|) - Depth(|xs|));
    if Root(pair, xs) == Root(pair, ys) {
      RootBinds(pair, a, b);
    }
  }

  // ---------- repeating the last group ----------

  /** m groups of 2^k. */
  function Groups(m: nat, k: nat): nat {
    if k == 0 then m else 2 * Groups(m, k - 1)
  }

  lemma {:induction false} OneMore(m: nat, k: nat)
    ensures Groups(m + 1, k) == Groups(m, k) + Pow2(k) && Pow2(k) > 0
  {
    if k > 0 { OneMore(m, k - 1); }
  }

  lemma {:induction false} GroupDepth(m: nat, k: nat)
    requires m > 0
    ensures Groups(m, k) > 0 && Depth(Groups(m, k)) == k + Depth(m)
  {
    if k > 0 {
      GroupDepth(m, k - 1);
      assert (Groups(m, k) + 1) / 2 == Groups(m, k - 1);
    }
  }

  lemma {:induction false} GroupWidth(m: nat, k: nat, level: nat)
    requires level <= k
    ensures Width(Groups(m, k), level) == Groups(m, k - level)
  {
    if level > 0 {
      GroupWidth(m, k, level - 1);
      assert Groups(m, k - (level - 1)) == 2 * Groups(m, k - level);
    }
  }

  /** Above the groups, one more than an odd number of them makes no difference. */
  lemma {:induction false} SameWidth(m: nat, k: nat, level: nat)
    requires m % 2 == 1 && level > k
    ensures Width(Groups(m + 1, k), level) == Width(Groups(m, k), level)
  {
    if level == k + 1 {
      GroupWidth(m, k, k);
      GroupWidth(m + 1, k, k);
    } else {
      SameWidth(m, k, level - 1);
    }
  }

  /** q is p, or p in the repeated last of m groups. */
  predicate SameOrRepeated(m: nat, k: nat, p: nat, q: nat) {
    q == p || (m > 0 && q == p + Pow2(k) && Groups(m - 1, k) <= p < Groups(m, k))
  }

  lemma RepeatedChildren(m: nat, k: nat, p: nat, q: nat)
    requires k > 0 && SameOrRepeated(m, k - 1, p, q)
    ensures SameOrRepeated(m, k, 2 * p, 2 * q)
    ensures SameOrRepeated(m, k, 2 * p + 1, 2 * q + 1)
  {
  }

  /** With the last group repeated, every place holds the same node or its repetition. */
  lemma {:induction false} GroupPlace(m: nat, k: nat, d: nat, level: nat, i: nat)
    requires m % 2 == 1 && m >= 3 && k < d == Depth(Groups(m, k)) && level <= d
    ensures var p, q := Place(Groups(m, k), d, level, i), Place(Groups(m + 1, k), d, level, i);
      if level > k then q == p else SameOrRepeated(m, k - level, p, q)
    decreases d - level
  {
    hide Width, Depth, Pow2, Groups, SameOrRepeated;
    if level < d {
      var n, n' := Groups(m, k), Groups(m + 1, k);
      GroupPlace(m, k, d, level + 1, i / 2);
      var p, q := Place(n, d, level + 1, i / 2), Place(n', d, level + 1, i / 2);
      if level > k {
        SameWidth(m, k, level);
      } else {
        GroupWidth(m, k, level);
        GroupWidth(m + 1, k, level);
        GroupPositive(m, k);
        PlaceInLevel(n, level + 1, i / 2);
        if level < k {
          GroupWidth(m, k, level + 1);
          InsideGroups(m, k - level, p, q);
          RepeatedChildren(m, k - level, p, q);
        } else {
          AtGroups(m, p);
          PlaceInLevel(n, level, i);
        }
      }
    }
  }

  lemma GroupPositive(m: nat, k: nat)
    requires m > 0
    ensures Groups(m, k) > 0
  {
    GroupDepth(m, k);
  }

  lemma InsideGroups(m: nat, k: nat, p: nat, q: nat)
    requires k > 0 && p < Groups(m, k - 1) && SameOrRepeated(m, k - 1, p, q)
    ensures 2 * p + 1 < Groups(m, k) && 2 * q + 1 < Groups(m + 1, k)
  {
    OneMore(m, k - 1);
  }

  lemma AtGroups(m: nat, p: nat)
    requires m % 2 == 1
    ensures Groups(m, 0) == m && Groups(m + 1, 0) == m + 1
    ensures 2 * p + 1 < m ==> SameOrRepeated(m, 0, 2 * p + 1, 2 * p + 1)
    ensures SameOrRepeated(m, 0, 2 * p, 2 * p)
    ensures 2 * p == m - 1 ==> SameOrRepeated(m, 0, 2 * p, 2 * p + 1)
  {
  }

  /** Repeating the last 2^k hashes does not change the root when there is an odd number, at least three, of such
      groups. */
  lemma RepeatedGroup(pair: PairHash, xs: seq<Hash>, m: nat, k: nat)
    requires m % 2 == 1 && m >= 3 && |xs| == Groups(m, k)
    ensures Pow2(k) <= |xs| && Root(pair, xs + xs[|xs| - Pow2(k)..]) == Root(pair, xs)
  {
    hide Node, Place, Root;
    OneMore(m - 1, k);
    OneMore(m, k);
    var ys := xs + xs[|xs| - Pow2(k)..];
    GroupDepth(m, k);
    GroupDepth(m + 1, k);
    assert Depth(m + 1) == Depth(m) > 0 by {
      assert (m + 1 + 1) / 2 == (m + 1) / 2;
    }
    forall i | 0 <= i < Pow2(Depth(|xs|)) ensures Completed(pair, ys, 0)[i] == Completed(pair, xs, 0)[i] {
      RepeatedPlace(pair, xs, ys, m, k, i);
    }
    assert Completed(pair, ys, 0) == Completed(pair, xs, 0);
    SameRoot(pair, xs, ys);
  }

  lemma RepeatedPlace(pair: PairHash, xs: seq<Hash>, ys: seq<Hash>, m: nat, k: nat, i: nat)
    requires m % 2 == 1 && m >= 3 && |xs| == Groups(m, k) && |ys| == Groups(m + 1, k) && k < Depth(|xs|) == Depth(|ys|)
    requires Pow2(k) <= |xs| && ys == xs + xs[|xs| - Pow2(k)..] && i < Pow2(Depth(|xs|))
    ensures Completed(pair, ys, 0)[i] == Completed(pair, xs, 0)[i]
  {
    hide Place, Depth, Width;
    var d := Depth(|xs|);
    GroupPlace(m, k, d, 0, i);
    OneMore(m - 1, k);
    WidthOfLeaves(|xs|);
    WidthOfLeaves(|ys|);
    PlaceInLevel(|xs|, 0, i);
    PlaceInLevel(|ys|, 0, i);
    var p, q := Place(|xs|, d, 0, i), Place(|ys|, d, 0, i);
    assert ys[q] == xs[p];
  }

  lemma WidthOfLeaves(n: nat)
    ensures Width(n, 0) == n
  {
  }

  /** In particular, for an odd number of at least three hashes, repeating the last one. */
  lemma RepeatedLast(pair: PairHash, xs: seq<Hash>)
    requires |xs| % 2 == 1 && |xs| >= 3
    ensures Root(pair, xs + [xs[|xs| - 1]]) == Root(pair, xs)
  {
    hide Root;
    assert xs[|xs| - 1..] == [xs[|xs| - 1]];
    RepeatedGroup(pair, xs, |xs|, 0);
  }

  /** The trees over one, two and three hashes. */
  lemma SmallTrees(pair: PairHash, x: Hash, y: Hash, z: Hash)
    ensures Root(pair, [x]) == x && Root(pair, [x, y]) == pair(x, y)
    ensures Root(pair, [x, y, z]) == pair(pair(x, y), pair(z, z))
  {
    assert Width(1, 0) == 1 && Width(2, 0) == 2 && Width(2, 1) == 1;
    assert Node(pair, [x, y], 1, 0) == pair(x, y);
    assert Width(3, 0) == 3 && Width(3, 1) == 2 && Width(3, 2) == 1 && Depth(3) == 2;
    assert Node(pair, [x, y, z], 1, 0) == pair(x, y) && Node(pair, [x, y, z], 1, 1) == pair(z, z);
    assert Node(pair, [x, y, z], 2, 0) == pair(pair(x, y), pair(z, z));
  }

  // ---------- the root from the roots of the halves ----------

  /** In a list twice as long as a power of two, the lower levels are those of the two halves side by side. */
  lemma {:induction false} HalfNode(pair: PairHash, xs: seq<Hash>, d: nat, level: nat, i: nat)
    requires |xs| == Pow2(d + 1) && level <= d && i < Pow2(d + 1 - level)
    ensures Pow2(d) <= |xs| && i < Width(|xs|, level)
    ensures var half := Pow2(d - level);
      if i < half then i < Width(Pow2(d), level) && Node(pair, xs, level, i) == Node(pair, xs[..Pow2(d)], level, i)
      else i - half < Width(Pow2(d), level) && Node(pair, xs, level, i) == Node(pair, xs[Pow2(d)..], level, i - half)
    decreases level
  {
    hide Node, Width, Pow2;
    Pow2Twice(d);
    Pow2Twice(d - level);
    Pow2Width(d + 1, level);
    Pow2Width(d, level);
    var half, left, right := Pow2(d - level), xs[..Pow2(d)], xs[Pow2(d)..];
    if level == 0 {
      Leaf(pair, xs, i);
      if i < half { Leaf(pair, left, i); } else { Leaf(pair, right, i - half); }
    } else {
      Pow2Twice(d + 1 - level);
      Pow2Width(d + 1, level - 1);
      Pow2Width(d, level - 1);
      HalfNode(pair, xs, d, level - 1, 2 * i);
      HalfNode(pair, xs, d, level - 1, 2 * i + 1);
      NodeUp(pair, xs, level - 1, i);
      if i < half { NodeUp(pair, left, level - 1, i); } else { NodeUp(pair, right, level - 1, i - half); }
    }
  }

  lemma Leaf(pair: PairHash, leaves: seq<Hash>, i: nat)
    requires i < |leaves|
    ensures i < Width(|leaves|, 0) && Node(pair, leaves, 0, i) == leaves[i]
  {
  }

  /** The root of a full list of two or more is the pair hash of the root of its first half and that of its second, in this
      order. */
  lemma RootOfHalves(pair: PairHash, xs: seq<Hash>, d: nat)
    requires |xs| == Pow2(d + 1)
    ensures Pow2(d) <= |xs| && Root(pair, xs) == pair(Root(pair, xs[..Pow2(d)]), Root(pair, xs[Pow2(d)..]))
  {
    hide Node, Width, Pow2, Root, Depth;
    Pow2Shape(d);
    Pow2Shape(d + 1);
    Pow2Twice(d);
    Tops(0, 0);
    Pow2Twice(0);
    Pow2Width(d + 1, d);
    Pow2Width(d + 1, d + 1);
    RootIsTop(pair, xs);
    RootIsTop(pair, xs[..Pow2(d)]);
    RootIsTop(pair, xs[Pow2(d)..]);
    NodeUp(pair, xs, d, 0);
    HalfNode(pair, xs, d, d, 0);
    HalfNode(pair, xs, d, d, 1);
  }

  /** Leaves and nodes are hashed alike, so a list of two has the root of a list of one. */
  lemma LeafLikeNode(pair: PairHash, x: Hash, y: Hash)
    ensures Root(pair, [pair(x, y)]) == Root(pair, [x, y])
  {
    assert Width(2, 1) == 1 && Width(2, 0) == 2 && Width(1, 0) == 1;
    assert Node(pair, [x, y], 1, 0) == pair(x, y);
    assert Node(pair, [pair(x, y)], 0, 0) == pair(x, y);
  }
}
