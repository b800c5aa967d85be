/** The size of a serialized partial Merkle tree, and the guarantee that is stated for it. */
module PartialMerkleSize {
  import opened Hashing
  import opened Powers
  import opened MerkleTree
  import opened PartialMerkle
  import opened PartialMerkleRoundTrip

  /** The length of a compact size. */
  function Prefix(n: int): int {
    if n < 253 then 1 else if n <= 0xFFFF then 3 else if n <= 0xFFFF_FFFF then 5 else 9
  }

  function FlagBytes(bits: int): int {
    (bits + 7) / 8
  }

  /** Four bytes for the number of transactions, then the hashes and the flag bytes with their numbers. */
  function SerializedSize(e: Encoded): int {
    var flags := FlagBytes(|e.bits|);
    4 + Prefix(|e.hashes|) + 32 * |e.hashes| + Prefix(flags) + flags
  }

  /** 10 + ceil(32.25 * n) for a tree of n hashes. */
  function StatedSize(n: int): int {
    10 + 32 * n + (n + 3) / 4
  }

  /** The stated size is kept exactly if the flags of nodes with a single child find room in what the prefixes leave. */
  lemma StatedSizeIff(h: Combine, ids: seq<Hash>, matches: seq<bool>, height: nat, pos: nat)
    requires pos < Width(|ids|, height)
    ensures var e := Build(h, ids, matches, height, pos);
            var n, flags := |e.hashes|, FlagBytes(2 * |e.hashes| - 1 + OnlyChildren(ids, matches, height, pos));
            SerializedSize(e) <= StatedSize(n) <==> Prefix(n) + Prefix(flags) + flags <= 6 + (n + 3) / 4
  {
    BuildAtMostLeaves(h, ids, matches, height, pos);
    BuildFlags(h, ids, matches, height, pos);
    hide Build, OnlyChildren, Prefix, FlagBytes;
  }

  /** In particular it is kept by trees in which at most one visited node has a single child, up to 65535 hashes. */
  lemma StatedSizeKept(h: Combine, ids: seq<Hash>, matches: seq<bool>, height: nat, pos: nat)
    requires pos < Width(|ids|, height) && OnlyChildren(ids, matches, height, pos) <= 1
    requires |Build(h, ids, matches, height, pos).hashes| <= 0xFFFF
    ensures var e := Build(h, ids, matches, height, pos); SerializedSize(e) <= StatedSize(|e.hashes|)
  {
    BuildAtMostLeaves(h, ids, matches, height, pos);
    StatedSizeIff(h, ids, matches, height, pos);
    hide Build, OnlyChildren;
  }

  // ---------------------------------------------------------------- trees with all leaves matched

  /** The number of nodes with a single child over m leaves. */
  function Only(m: nat, height: nat): nat {
    if height == 0 then 0
    else if m <= Pow2(height - 1) then 1 + Only(m, height - 1)
    else Only(Pow2(height - 1), height - 1) + Only(m - Pow2(height - 1), height - 1)
  }

  function Leaves(n: nat, height: nat, pos: nat): int {
    Leaf(n, height, pos + 1) - Leaf(n, height, pos)
  }

  lemma LeavesSplit(n: nat, height: nat, pos: nat)
    requires height > 0 && pos < Width(n, height)
    ensures var m, d := Leaves(n, height, pos), Pow2(height - 1);
            && m > 0 && 2 * pos < Width(n, height - 1)
            && (2 * pos + 1 < Width(n, height - 1) <==> m > d)
            && Leaves(n, height - 1, 2 * pos) == (if m <= d then m else d)
            && Leaves(n, height - 1, 2 * pos + 1) == (if m <= d then 0 else m - d)
  {
    var d, x := Pow2(height - 1), 2 * pos * Pow2(height - 1);
    LeafSplit(n, height, pos);
    LeafBound(n, height, pos);
    WidthBound(n, height, pos);
    WidthBound(n, height - 1, 2 * pos);
    WidthBound(n, height - 1, 2 * pos + 1);
    assert pos * Pow2(height) == x && (2 * pos + 1) * d == x + d && (2 * pos + 2) * d == x + 2 * d;
    assert Leaf(n, height - 1, 2 * pos) == x;
    assert Leaf(n, height - 1, 2 * pos + 1) == if x + d < n then x + d else n;
    assert Leaf(n, height - 1, 2 * pos + 2) == if x + 2 * d < n then x + 2 * d else n;
  }

  /** With all leaves matched there is a hash for every leaf, and every node with a single child is visited. */
  lemma {:induction false} AllMatched(h: Combine, ids: seq<Hash>, matches: seq<bool>, height: nat, pos: nat)
    requires pos < Width(|ids|, height) && |matches| == |ids| && forall i :: 0 <= i < |matches| ==> matches[i]
    ensures Leaves(|ids|, height, pos) > 0
    ensures |Build(h, ids, matches, height, pos).hashes| == Leaves(|ids|, height, pos)
    ensures OnlyChildren(ids, matches, height, pos) == Only(Leaves(|ids|, height, pos), height)
    decreases height
  {
    hide *;
    var n := |ids|;
    if height == 0 {
      BuildStop(h, ids, matches, height, pos);
      LeavesOne(n, pos);
      OnlyLeaf(Leaves(n, height, pos));
    } else {
      LeavesSplit(n, height, pos);
      SomeMatch(ids, matches, height, pos);
      OnlyStep(Leaves(n, height, pos), height);
      BuildInner(h, ids, matches, height, pos);
      OnlyChildrenInner(ids, matches, height, pos);
      AllMatched(h, ids, matches, height - 1, 2 * pos);
      if 2 * pos + 1 < Width(n, height - 1) {
        AllMatched(h, ids, matches, height - 1, 2 * pos + 1);
      }
    }
  }

  lemma SomeMatch(ids: seq<Hash>, matches: seq<bool>, height: nat, pos: nat)
    requires pos < Width(|ids|, height) && |matches| == |ids| && forall i :: 0 <= i < |matches| ==> matches[i]
    ensures AnyMatch(matches, Leaf(|ids|, height, pos), Leaf(|ids|, height, pos + 1))
  {
    LeafBound(|ids|, height, pos);
    hide Leaf, Width;
    assert matches[Leaf(|ids|, height, pos)];
  }

  lemma LeavesOne(n: nat, pos: nat)
    requires pos < Width(n, 0)
    ensures Leaves(n, 0, pos) == 1
  {
    LeafBound(n, 0, pos);
  }

  lemma OnlyLeaf(m: int)
    requires m >= 0
    ensures Only(m, 0) == 0
  {
  }

  lemma OnlyStep(m: int, height: nat)
    requires m >= 0 && height > 0
    ensures Only(m, height) ==
            if m <= Pow2(height - 1) then 1 + Only(m, height - 1)
            else Only(Pow2(height - 1), height - 1) + Only(m - Pow2(height - 1), height - 1)
  {
  }

  /** A full tree has no such nodes. */
  lemma {:induction false} OnlyFull(height: nat)
    ensures Only(Pow2(height), height) == 0
  {
    if height > 0 {
      OnlyFull(height - 1);
      assert Pow2(height) - Pow2(height - 1) == Pow2(height - 1);
    }
  }

  /** A full tree of 2^low leaves as the leftmost part of a taller one. */
  lemma {:induction false} OnlyTall(low: nat, height: nat)
    requires low <= height
    ensures Only(Pow2(low), height) == height - low
    decreases height
  {
    if low == height {
      OnlyFull(low);
    } else {
      OnlyTall(low, height - 1);
      PowLess(low, height - 1);
      OnlyStep(Pow2(low), height);
    }
  }

  lemma {:induction false} PowLess(a: nat, b: nat)
    requires a <= b
    ensures Pow2(a) <= Pow2(b)
    decreases b
  {
    if a < b {
      PowLess(a, b - 1);
    }
  }

  /** A block of 1028 transactions that all match: the size is one byte more than stated. */
  lemma StatedSizeExceeded(h: Combine, ids: seq<Hash>)
    requires |ids| == 1028
    ensures Width(1028, 11) == 1
    ensures var e := Build(h, ids, seq(1028, _ => true), 11, 0);
            |e.hashes| == 1028 && |e.bits| == 2063 && SerializedSize(e) == StatedSize(1028) + 1
  {
    var matches := seq(1028, _ => true);
    Tall();
    AllMatched(h, ids, matches, 11, 0);
    BuildFlags(h, ids, matches, 11, 0);
    OnlyFull(10);
    OnlyTall(2, 10);
    OnlyStep(1028, 11);
    hide Build, OnlyChildren, Only, Width, Leaf, Pow2;
  }

  lemma Tall()
    ensures Pow2(2) == 4 && Pow2(10) == 1024 && Pow2(11) == 2048
    ensures Width(1028, 11) == 1 && Leaves(1028, 11, 0) == 1028
  {
    assert Pow2(2) == 4 && Pow2(4) == 16;
    assert Pow2(8) == 256 by { assert Pow2(6) == 64; }
    assert Pow2(10) == 1024 && Pow2(11) == 2048;
  }
}
