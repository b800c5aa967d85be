/** CPartialMerkleTree: the object that builds, carries and checks a partial Merkle tree. */
module PartialMerkleTree {
  import opened Hashing
  import opened Powers
  import opened MerkleTree
  import opened PartialMerkle
  import opened PartialMerkleRoundTrip
  import opened BitPacking

  class Tree {
    var nTransactions: nat
    var vBits: seq<bool>
    var vHash: seq<Hash>
    var fBad: bool

    constructor Empty()
      ensures nTransactions == 0 && vBits == [] && vHash == [] && fBad
    {
      nTransactions, vBits, vHash, fBad := 0, [], [], true;
    }

    /** From a list of transaction ids and a mask that selects some of them. */
    constructor FromMatches(h: Combine, ids: seq<Hash>, matches: seq<bool>)
      requires ids != [] && |matches| == |ids|
      ensures nTransactions == |ids| && !fBad
      ensures vBits == Encode(h, ids, matches).bits && vHash == Encode(h, ids, matches).hashes
    {
      nTransactions, vBits, vHash, fBad := |ids|, [], [], false;
      new;
      var height := TreeHeight(|ids|);
      EncodeIsBuild(h, ids, matches);
      hide *;
      TraverseAndBuild(h, height, 0, ids, matches);
      assert [] + vBits == vBits && [] + vHash == vHash;
    }

    method TraverseAndBuild(h: Combine, height: nat, pos: nat, ids: seq<Hash>, matches: seq<bool>)
      requires pos < Width(|ids|, height) && |matches| == |ids| && nTransactions == |ids|
      modifies this`vBits, this`vHash
      ensures vBits == old(vBits) + Build(h, ids, matches, height, pos).bits
      ensures vHash == old(vHash) + Build(h, ids, matches, height, pos).hashes
      decreases height
    {
      var parent := ParentOfMatch(height, pos, matches);
      hide Width, Leaf, NodeHash, AnyMatch, Build;
      vBits := vBits + [parent];
      if height == 0 || !parent {
        BuildStop(h, ids, matches, height, pos);
        vHash := vHash + [NodeHash(h, ids, height, pos)];
      } else {
        BuildInner(h, ids, matches, height, pos);
        TraverseAndBuild(h, height - 1, 2 * pos, ids, matches);
        ghost var l := Build(h, ids, matches, height - 1, 2 * pos);
        Associative(old(vBits), [true], l.bits);
        if 2 * pos + 1 < Width(nTransactions, height - 1) {
          TraverseAndBuild(h, height - 1, 2 * pos + 1, ids, matches);
          ghost var r := Build(h, ids, matches, height - 1, 2 * pos + 1);
          Associative(old(vBits), [true] + l.bits, r.bits);
          Associative(old(vHash), l.hashes, r.hashes);
        }
      }
    }

    /** Some transaction below the node is matched. */
    method ParentOfMatch(height: nat, pos: nat, matches: seq<bool>) returns (parent: bool)
      requires |matches| == nTransactions
      ensures parent <==> AnyMatch(matches, Leaf(nTransactions, height, pos), Leaf(nTransactions, height, pos + 1))
    {
      var lo, hi := pos * Pow2(height), (pos + 1) * Pow2(height);
      assert hi == lo + Pow2(height);
      hide Pow2;
      parent := false;
      var p := lo;
      while p < hi && p < nTransactions
        invariant lo <= p <= hi && (parent <==> exists q :: lo <= q < p && q < nTransactions && matches[q])
        decreases nTransactions - p
      {
        parent := parent || matches[p];
        p := p + 1;
      }
    }

    /** Reads one subtree; the cursors move on, matches are appended and bad data is flagged. */
    method TraverseAndExtract(h: Combine, height: nat, pos: nat, bitsUsed: nat, hashUsed: nat, ids: seq<Hash>,
                              indexes: seq<nat>)
      returns (hash: Hash, bits: nat, hashes: nat, found: seq<Hash>, at: seq<nat>)
      modifies this`fBad
      ensures (hash, Cursor(bits, hashes, fBad, found, at)) ==
              Extract(h, nTransactions, vBits, vHash, height, pos, Cursor(bitsUsed, hashUsed, old(fBad), ids, indexes))
      decreases height
    {
      hide Extract, Width;
      ghost var c := Cursor(bitsUsed, hashUsed, fBad, ids, indexes);
      bits, hashes, found, at := bitsUsed, hashUsed, ids, indexes;
      if !(bits < |vBits| && height > 0 && vBits[bits]) {
        ExtractStop(h, nTransactions, vBits, vHash, height, pos, c);
      } else {
        ExtractInner(h, nTransactions, vBits, vHash, height, pos, c);
      }
      if bitsUsed >= |vBits| {
        fBad := true;
        return ZERO_HASH, bits, hashes, found, at;
      }
      var parent := vBits[bits];
      bits := bits + 1;
      if height == 0 || !parent {
        if hashUsed >= |vHash| {
          fBad := true;
          return ZERO_HASH, bits, hashes, found, at;
        }
        hash := vHash[hashes];
        hashes := hashes + 1;
        if height == 0 && parent {
          found, at := found + [hash], at + [pos];
        }
        return;
      }
      var left, right;
      left, bits, hashes, found, at := TraverseAndExtract(h, height - 1, 2 * pos, bits, hashes, found, at);
      if 2 * pos + 1 < Width(nTransactions, height - 1) {
        right, bits, hashes, found, at := TraverseAndExtract(h, height - 1, 2 * pos + 1, bits, hashes, found, at);
        if right == left {
          fBad := true;
        }
      } else {
        right := left;
      }
      hash := h(Pair(left, right));
    }

    /** The claimed Merkle root and the matches, or zero. The caller's index list is appended to. */
    method ExtractMatchesInto(h: Combine, indexes: seq<nat>) returns (root: Hash, ids: seq<Hash>, at: seq<nat>)
      modifies this`fBad
      ensures var r := ExtractMatches(h, nTransactions, vBits, vHash, old(fBad), indexes);
              root == r.0 && fBad == r.1.bad && ids == r.1.ids && at == r.1.indexes
      ensures nTransactions == 0 || nTransactions > 16_666 || |vHash| > nTransactions || |vBits| < |vHash| ==>
                root == ZERO_HASH && ids == [] && at == indexes && fBad == old(fBad)
    {
      ids, at := [], indexes;
      if nTransactions == 0 || nTransactions > MAX_TRANSACTIONS {
        return ZERO_HASH, ids, at;
      }
      if |vHash| > nTransactions || |vBits| < |vHash| {
        return ZERO_HASH, ids, at;
      }
      var height := TreeHeight(nTransactions);
      var bits, hashes;
      hide Extract, Height;
      root, bits, hashes, ids, at := TraverseAndExtract(h, height, 0, 0, 0, ids, at);
      if fBad || (bits + 7) / 8 != (|vBits| + 7) / 8 || hashes != |vHash| {
        root := ZERO_HASH;
      }
    }

    /** Serialization: the flags as bytes. */
    method FlagBytes() returns (bytes: seq<bv8>)
      ensures Packing(vBits, bytes)
    {
      bytes := Pack(vBits);
    }

    /** Deserialization into this object. */
    method Load(n: nat, hashes: seq<Hash>, bytes: seq<bv8>)
      modifies this
      ensures nTransactions == n && vHash == hashes && vBits == Unpacked(bytes) && !fBad
    {
      nTransactions, vHash := n, hashes;
      vBits := Unpack(bytes);
      fBad := false;
    }
  }

  lemma Associative<T>(a: seq<T>, b: seq<T>, c: seq<T>)
    ensures a + b + c == a + (b + c)
  {
  }

  /** The height of the tree: the first at which a single node is left. */
  method TreeHeight(n: nat) returns (height: nat)
    ensures height == Height(n)
  {
    height := 0;
    TopWidth(n);
    hide Width;
    while Width(n, height) > 1
      invariant height <= Height(n)
      decreases Height(n) - height
    {
      height := height + 1;
    }
    if height < Height(n) {
      BelowTop(n, height);
    }
  }
}
