/** Merkle trees over a list of transaction ids: level by level, and node by node. */
module MerkleTree {
  import opened Hashing
  import opened Powers

  /** The number of nodes at a height. */
  function Width(n: nat, height: nat): nat {
    (n + Pow2(height) - 1) / Pow2(height)
  }

  /** The first leaf of a node, cut off at the end of the list. */
  function Leaf(n: nat, height: nat, pos: nat): nat {
    if pos * Pow2(height) < n then pos * Pow2(height) else n
  }

  lemma WidthBound(n: nat, height: nat, pos: nat)
    ensures pos < Width(n, height) <==> pos * Pow2(height) < n
  {
    hide Pow2;
    CeilingBound(n, Pow2(height), pos);
  }

  lemma LeafBound(n: nat, height: nat, pos: nat)
    ensures pos < Width(n, height) <==> Leaf(n, height, pos) < n
    ensures Leaf(n, height, pos) <= Leaf(n, height, pos + 1)
    ensures pos < Width(n, height) ==> Leaf(n, height, pos) < Leaf(n, height, pos + 1)
    ensures height == 0 && pos < n ==> Leaf(n, height, pos) == pos && Leaf(n, height, pos + 1) == pos + 1
    ensures Leaf(n, height, 0) == 0
    ensures height == 0 ==> Width(n, height) == n
  {
    WidthBound(n, height, pos);
    assert height == 0 ==> Pow2(height) == 1;
    hide Pow2;
    Distribute(pos, 1, Pow2(height));
  }

  /** The leaves of a node are those of its left child, then those of its right child. */
  lemma LeafSplit(n: nat, height: nat, pos: nat)
    requires height > 0
    ensures Leaf(n, height, pos) == Leaf(n, height - 1, 2 * pos)
    ensures Leaf(n, height, pos + 1) == Leaf(n, height - 1, 2 * pos + 2)
    ensures pos < Width(n, height) <==> 2 * pos < Width(n, height - 1)
    ensures 2 * pos + 1 >= Width(n, height - 1) ==> Leaf(n, height - 1, 2 * pos + 1) == Leaf(n, height - 1, 2 * pos + 2)
  {
    var d := Pow2(height - 1);
    assert pos * Pow2(height) == (2 * pos) * d;
    assert (pos + 1) * Pow2(height) == (2 * pos + 2) * d;
    WidthBound(n, height, pos);
    WidthBound(n, height - 1, 2 * pos);
    LeafBound(n, height - 1, 2 * pos + 1);
  }

  /** The hash of a node; a missing right child is replaced by the left one. */
  function NodeHash(h: Combine, ids: seq<Hash>, height: nat, pos: nat): Hash
    requires pos < Width(|ids|, height)
    decreases height
  {
    LeafBound(|ids|, height, pos);
    if height == 0 then ids[pos]
    else
      LeafSplit(|ids|, height, pos);
      if 2 * pos + 1 < Width(|ids|, height - 1)
      then h(Pair(NodeHash(h, ids, height - 1, 2 * pos), NodeHash(h, ids, height - 1, 2 * pos + 1)))
      else h(Pair(NodeHash(h, ids, height - 1, 2 * pos), NodeHash(h, ids, height - 1, 2 * pos)))
  }

  // ---------------------------------------------------------------- the reference: level by level

  /** The next level; an odd last node is paired with itself. */
  function Up(h: Combine, s: seq<Hash>): (r: seq<Hash>)
    ensures |r| == (|s| + 1) / 2
  {
    seq((|s| + 1) / 2, i requires 0 <= i < (|s| + 1) / 2 =>
      h(Pair(s[2 * i], if 2 * i + 1 < |s| then s[2 * i + 1] else s[2 * i])))
  }

  function MerkleRoot(h: Combine, s: seq<Hash>): Hash
    requires s != []
    decreases |s|
  {
    if |s| == 1 then s[0] else MerkleRoot(h, Up(h, s))
  }

  /** The height at which a single node is left. */
  function Height(n: nat): nat {
    if n <= 1 then 0 else 1 + Height((n + 1) / 2)
  }

  lemma WidthUp(n: nat, height: nat)
    requires height > 0
    ensures Width(n, height) == Width((n + 1) / 2, height - 1)
  {
    hide Width;
    var v, w := Width(n, height), Width((n + 1) / 2, height - 1);
    WidthUpAt(n, height, v);
    WidthUpAt(n, height, w);
  }

  lemma WidthUpAt(n: nat, height: nat, pos: nat)
    requires height > 0
    ensures pos < Width(n, height) <==> pos < Width((n + 1) / 2, height - 1)
  {
    assert Pow2(height) == 2 * Pow2(height - 1);
    hide Width, Pow2;
    WidthBound(n, height, pos);
    WidthBound((n + 1) / 2, height - 1, pos);
    Regroup(pos, 2, Pow2(height - 1));
  }

  lemma BottomUp(h: Combine, ids: seq<Hash>, pos: nat)
    requires pos < Width(|ids|, 1)
    ensures pos < Width(|Up(h, ids)|, 0) && NodeHash(h, ids, 1, pos) == NodeHash(h, Up(h, ids), 0, pos)
  {
    hide Width, Leaf, Pow2;
    WidthUp(|ids|, 1);
    LeafSplit(|ids|, 1, pos);
    LeafBound(|ids|, 0, 2 * pos);
    LeafBound(|Up(h, ids)|, 0, pos);
  }

  /** Going up one level first gives the same nodes. */
  lemma {:induction false} NodeHashUp(h: Combine, ids: seq<Hash>, height: nat, pos: nat)
    requires height > 0 && pos < Width(|ids|, height)
    ensures pos < Width(|Up(h, ids)|, height - 1)
    ensures NodeHash(h, ids, height, pos) == NodeHash(h, Up(h, ids), height - 1, pos)
    decreases height
  {
    hide Width, Leaf, Pow2, Up;
    if height == 1 {
      BottomUp(h, ids, pos);
    } else {
      WidthUp(|ids|, height);
      WidthUp(|ids|, height - 1);
      LeafSplit(|ids|, height, pos);
      NodeHashUp(h, ids, height - 1, 2 * pos);
      if 2 * pos + 1 < Width(|ids|, height - 1) {
        NodeHashUp(h, ids, height - 1, 2 * pos + 1);
      }
    }
  }

  /** The top node is the Merkle root, and the only one at its height; lower levels have more. */
  lemma {:induction false} TopIsRoot(h: Combine, ids: seq<Hash>)
    requires ids != []
    ensures Width(|ids|, Height(|ids|)) == 1 && NodeHash(h, ids, Height(|ids|), 0) == MerkleRoot(h, ids)
    decreases |ids|
  {
    hide Width, Leaf, Pow2, NodeHash, Up;
    if |ids| == 1 {
      OnlyNode(h, ids);
    } else {
      TopIsRoot(h, Up(h, ids));
      WidthUp(|ids|, Height(|ids|));
      NodeHashUp(h, ids, Height(|ids|), 0);
    }
  }

  lemma OnlyNode(h: Combine, ids: seq<Hash>)
    requires |ids| == 1
    ensures Width(1, 0) == 1 && NodeHash(h, ids, 0, 0) == ids[0]
  {
  }

  lemma {:induction false} BelowTop(n: nat, height: nat)
    requires height < Height(n)
    ensures Width(n, height) > 1
    decreases n
  {
    if height > 0 {
      WidthUp(n, height);
      BelowTop((n + 1) / 2, height - 1);
    }
  }

  lemma {:induction false} TopWidth(n: nat)
    ensures Width(n, Height(n)) <= 1
    decreases n
  {
    if n > 1 {
      WidthUp(n, Height(n));
      TopWidth((n + 1) / 2);
    }
  }

  // ---------------------------------------------------------------- branches

  /** The node that number i of a level is hashed with: its neighbour, or itself if it has none. */
  function Sibling(s: seq<Hash>, i: nat): Hash
    requires i < |s|
  {
    if i % 2 == 1 then s[i - 1] else if i + 1 < |s| then s[i + 1] else s[i]
  }

  /** The siblings on the way from a leaf to the root. */
  function Branch(h: Combine, s: seq<Hash>, i: nat): seq<Hash>
    requires i < |s|
    decreases |s|
  {
    if |s| == 1 then [] else [Sibling(s, i)] + Branch(h, Up(h, s), i / 2)
  }

  lemma {:induction false} BranchHeight(h: Combine, s: seq<Hash>, i: nat)
    requires i < |s|
    ensures |Branch(h, s, i)| == Height(|s|)
    decreases |s|
  {
    if |s| > 1 {
      BranchHeight(h, Up(h, s), i / 2);
    }
  }

  /** A full tree has as many leaves as its height says. */
  lemma {:induction false} FullHeight(height: nat)
    ensures Height(Pow2(height)) == height
  {
    if height > 0 {
      FullHeight(height - 1);
      assert (Pow2(height) + 1) / 2 == Pow2(height - 1);
    }
  }
}
