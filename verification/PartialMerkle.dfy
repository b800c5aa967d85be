/** Partial Merkle trees (BIP 37): what building and extracting compute, and why extraction can be trusted. */
module PartialMerkle {
  import opened Hashing
  import opened MerkleTree

  const MAX_TRANSACTIONS := 1_000_000 / 60

  // ---------------------------------------------------------------- building

  ghost predicate AnyMatch(matches: seq<bool>, lo: nat, hi: nat) {
    exists p :: lo <= p < hi && p < |matches| && matches[p]
  }

  datatype Encoded = Encoded(bits: seq<bool>, hashes: seq<Hash>)

  /** A flag per visited node, depth first; a hash where the traversal stops. */
  ghost function Build(h: Combine, ids: seq<Hash>, matches: seq<bool>, height: nat, pos: nat): Encoded
    requires pos < Width(|ids|, height)
    decreases height
  {
    var parent := AnyMatch(matches, Leaf(|ids|, height, pos), Leaf(|ids|, height, pos + 1));
    if height == 0 || !parent then Encoded([parent], [NodeHash(h, ids, height, pos)])
    else
      LeafSplit(|ids|, height, pos);
      var l := Build(h, ids, matches, height - 1, 2 * pos);
      if 2 * pos + 1 < Width(|ids|, height - 1) then
        var r := Build(h, ids, matches, height - 1, 2 * pos + 1);
        Encoded([true] + l.bits + r.bits, l.hashes + r.hashes)
      else Encoded([true] + l.bits, l.hashes)
  }

  // ---------------------------------------------------------------- extracting

  /** How far the flags and hashes have been read, whether something was wrong, and the matches found. */
  datatype Cursor = Cursor(bits: nat, hashes: nat, bad: bool, ids: seq<Hash>, indexes: seq<nat>)

  function Extract(h: Combine, n: nat, vBits: seq<bool>, vHash: seq<Hash>, height: nat, pos: nat, c: Cursor): (Hash,
                   Cursor)
    decreases height
  {
    if c.bits >= |vBits| then (ZERO_HASH, c.(bad := true))
    else if height == 0 || !vBits[c.bits] then
      if c.hashes >= |vHash| then (ZERO_HASH, c.(bits := c.bits + 1, bad := true))
      else (vHash[c.hashes], Taken(c, vHash[c.hashes], height == 0 && vBits[c.bits], pos))
    else
      var l := Extract(h, n, vBits, vHash, height - 1, 2 * pos, c.(bits := c.bits + 1));
      if 2 * pos + 1 < Width(n, height - 1) then
        var r := Extract(h, n, vBits, vHash, height - 1, 2 * pos + 1, l.1);
        (h(Pair(l.0, r.0)), r.1.(bad := r.1.bad || r.0 == l.0))
      else (h(Pair(l.0, l.0)), l.1)
  }

  /** A hash was used; at a flagged leaf it is a match. */
  function Taken(c: Cursor, hash: Hash, isMatch: bool, pos: nat): Cursor {
    var d := c.(bits := c.bits + 1, hashes := c.hashes + 1);
    if isMatch then d.(ids := c.ids + [hash], indexes := c.indexes + [pos]) else d
  }

  /** ExtractMatches: the claimed root, or zero; and the cursor it leaves behind. The caller's index list is
      appended to, its list of ids is replaced. */
  function ExtractMatches(h: Combine, n: nat, vBits: seq<bool>, vHash: seq<Hash>, bad: bool,
                          indexes: seq<nat>): (Hash, Cursor) {
    var start := Cursor(0, 0, bad, [], indexes);
    if n == 0 || n > MAX_TRANSACTIONS || |vHash| > n || |vBits| < |vHash| then (ZERO_HASH, start)
    else
      var r := Extract(h, n, vBits, vHash, Height(n), 0, start);
      if r.1.bad || (r.1.bits + 7) / 8 != (|vBits| + 7) / 8 || r.1.hashes != |vHash| then (ZERO_HASH, r.1) else r
  }

  // ---------------------------------------------------------------- soundness

  /** The matches found since `from` are entries of the list, under the leaves lo to hi, in order. */
  ghost predicate Genuine(ids: seq<Hash>, c: Cursor, from: nat, lo: nat, hi: nat) {
    && from <= |c.ids| && |c.ids| == |c.indexes|
    && (forall k :: from <= k < |c.ids| ==>
          lo <= c.indexes[k] < hi && c.indexes[k] < |ids| && c.ids[k] == ids[c.indexes[k]])
    && (forall j, k :: from <= j < k < |c.ids| ==> c.indexes[j] < c.indexes[k])
  }

  ghost predicate Extends(c: Cursor, d: Cursor) {
    c.ids <= d.ids && c.indexes <= d.indexes
  }

  lemma GenuineJoin(ids: seq<Hash>, c: Cursor, d: Cursor, from: nat, lo: nat, mid: nat, hi: nat)
    requires Genuine(ids, c, from, lo, mid) && Genuine(ids, d, |c.ids|, mid, hi) && Extends(c, d) && lo <= mid <= hi
    ensures Genuine(ids, d, from, lo, hi)
  {
  }

  lemma ExtractStop(h: Combine, n: nat, vBits: seq<bool>, vHash: seq<Hash>, height: nat, pos: nat, c: Cursor)
    requires !(c.bits < |vBits| && height > 0 && vBits[c.bits])
    ensures Extract(h, n, vBits, vHash, height, pos, c) ==
      if c.bits >= |vBits| then (ZERO_HASH, c.(bad := true))
      else if c.hashes >= |vHash| then (ZERO_HASH, c.(bits := c.bits + 1, bad := true))
      else (vHash[c.hashes], Taken(c, vHash[c.hashes], height == 0 && vBits[c.bits], pos))
  {
  }

  lemma {:induction false} ExtractExtends(h: Combine, n: nat, vBits: seq<bool>, vHash: seq<Hash>, height: nat,
                                          pos: nat, c: Cursor)
    ensures Extends(c, Extract(h, n, vBits, vHash, height, pos, c).1)
    ensures c.bad ==> Extract(h, n, vBits, vHash, height, pos, c).1.bad
    decreases height
  {
    hide Extract, Width;
    if c.bits < |vBits| && height > 0 && vBits[c.bits] {
      var d := c.(bits := c.bits + 1);
      ExtractInner(h, n, vBits, vHash, height, pos, c);
      ExtractExtends(h, n, vBits, vHash, height - 1, 2 * pos, d);
      if 2 * pos + 1 < Width(n, height - 1) {
        ExtractExtends(h, n, vBits, vHash, height - 1, 2 * pos + 1,
          Extract(h, n, vBits, vHash, height - 1, 2 * pos, d).1);
      }
    } else {
      ExtractStop(h, n, vBits, vHash, height, pos, c);
    }
  }

  /** Whatever the flags and hashes are: if the extracted node hash is the tree's, then every match is an
      entry of the list at its index, or there is a collision. */
  lemma {:induction false} ExtractGenuine(h: Combine, ids: seq<Hash>, vBits: seq<bool>, vHash: seq<Hash>,
                                          height: nat, pos: nat, c: Cursor) returns (p: Pair, q: Pair)
    requires pos < Width(|ids|, height) && |c.ids| == |c.indexes|
    requires Extract(h, |ids|, vBits, vHash, height, pos, c).0 == NodeHash(h, ids, height, pos)
    ensures Collision(h, p, q) || Genuine(ids, Extract(h, |ids|, vBits, vHash, height, pos, c).1, |c.ids|,
                                          Leaf(|ids|, height, pos), Leaf(|ids|, height, pos + 1))
    decreases height, 0
  {
    var n := |ids|;
    p, q := Pair(ZERO_HASH, ZERO_HASH), Pair(ZERO_HASH, ZERO_HASH);
    hide Width, Leaf, NodeHash, Genuine, Extract;
    if c.bits < |vBits| && height > 0 && vBits[c.bits] {
      LeafSplit(n, height, pos);
      NodeHashInner(h, ids, height, pos);
      ExtractInner(h, n, vBits, vHash, height, pos, c);
      var d := c.(bits := c.bits + 1);
      if 2 * pos + 1 < Width(n, height - 1) {
        p, q := ExtractGenuineTwo(h, ids, vBits, vHash, height - 1, 2 * pos, d);
        var l := Extract(h, n, vBits, vHash, height - 1, 2 * pos, d);
        var r := Extract(h, n, vBits, vHash, height - 1, 2 * pos + 1, l.1);
        GenuineBad(ids, r.1, r.1.bad || r.0 == l.0, |c.ids|, Leaf(n, height, pos), Leaf(n, height, pos + 1));
      } else {
        var l, a := Extract(h, n, vBits, vHash, height - 1, 2 * pos, d), NodeHash(h, ids, height - 1, 2 * pos);
        if l.0 != a {
          p, q := Pair(l.0, l.0), Pair(a, a);
        } else {
          p, q := ExtractGenuine(h, ids, vBits, vHash, height - 1, 2 * pos, d);
        }
      }
    } else {
      ExtractGenuineStop(h, ids, vBits, vHash, height, pos, c);
    }
  }

  lemma ExtractInner(h: Combine, n: nat, vBits: seq<bool>, vHash: seq<Hash>, height: nat, pos: nat, c: Cursor)
    requires c.bits < |vBits| && height > 0 && vBits[c.bits]
    ensures
      var l := Extract(h, n, vBits, vHash, height - 1, 2 * pos, c.(bits := c.bits + 1));
      var r := Extract(h, n, vBits, vHash, height - 1, 2 * pos + 1, l.1);
      Extract(h, n, vBits, vHash, height, pos, c) ==
        if 2 * pos + 1 < Width(n, height - 1) then (h(Pair(l.0, r.0)), r.1.(bad := r.1.bad || r.0 == l.0))
        else (h(Pair(l.0, l.0)), l.1)
  {
  }

  /** The flag for bad data does not matter. */
  lemma GenuineBad(ids: seq<Hash>, c: Cursor, bad: bool, from: nat, lo: nat, hi: nat)
    ensures Genuine(ids, c, from, lo, hi) ==> Genuine(ids, c.(bad := bad), from, lo, hi)
  {
  }

  /** Where the traversal stops. */
  lemma ExtractGenuineStop(h: Combine, ids: seq<Hash>, vBits: seq<bool>, vHash: seq<Hash>, height: nat, pos: nat,
                           c: Cursor)
    requires pos < Width(|ids|, height) && |c.ids| == |c.indexes|
    requires !(c.bits < |vBits| && height > 0 && vBits[c.bits])
    requires Extract(h, |ids|, vBits, vHash, height, pos, c).0 == NodeHash(h, ids, height, pos)
    ensures Genuine(ids, Extract(h, |ids|, vBits, vHash, height, pos, c).1, |c.ids|,
                    Leaf(|ids|, height, pos), Leaf(|ids|, height, pos + 1))
  {
    hide Width, Leaf, NodeHash;
    LeafBound(|ids|, height, pos);
    if height == 0 {
      NodeHashBottom(h, ids, pos);
    }
  }

  lemma NodeHashInner(h: Combine, ids: seq<Hash>, height: nat, pos: nat)
    requires pos < Width(|ids|, height) && height > 0
    ensures 2 * pos < Width(|ids|, height - 1)
    ensures NodeHash(h, ids, height, pos) ==
      if 2 * pos + 1 < Width(|ids|, height - 1)
      then h(Pair(NodeHash(h, ids, height - 1, 2 * pos), NodeHash(h, ids, height - 1, 2 * pos + 1)))
      else h(Pair(NodeHash(h, ids, height - 1, 2 * pos), NodeHash(h, ids, height - 1, 2 * pos)))
  {
    LeafSplit(|ids|, height, pos);
  }

  lemma NodeHashBottom(h: Combine, ids: seq<Hash>, pos: nat)
    requires pos < Width(|ids|, 0)
    ensures pos < |ids| && NodeHash(h, ids, 0, pos) == ids[pos]
  {
    LeafBound(|ids|, 0, pos);
  }

  /** Two siblings whose combined hash is right. */
  lemma {:induction false} ExtractGenuineTwo(h: Combine, ids: seq<Hash>, vBits: seq<bool>, vHash: seq<Hash>,
                                             height: nat, pos: nat, c: Cursor) returns (p: Pair, q: Pair)
    requires pos + 1 < Width(|ids|, height) && |c.ids| == |c.indexes|
    requires var l := Extract(h, |ids|, vBits, vHash, height, pos, c);
             var r := Extract(h, |ids|, vBits, vHash, height, pos + 1, l.1);
             h(Pair(l.0, r.0)) == h(Pair(NodeHash(h, ids, height, pos), NodeHash(h, ids, height, pos + 1)))
    ensures var l := Extract(h, |ids|, vBits, vHash, height, pos, c);
            var r := Extract(h, |ids|, vBits, vHash, height, pos + 1, l.1);
            Collision(h, p, q) || Genuine(ids, r.1, |c.ids|, Leaf(|ids|, height, pos), Leaf(|ids|, height, pos + 2))
    decreases height, 1
  {
    hide Width, Leaf, NodeHash, Extract, Genuine;
    var n := |ids|;
    var l := Extract(h, n, vBits, vHash, height, pos, c);
    var r := Extract(h, n, vBits, vHash, height, pos + 1, l.1);
    var a, b := NodeHash(h, ids, height, pos), NodeHash(h, ids, height, pos + 1);
    if Pair(l.0, r.0) != Pair(a, b) {
      p, q := Pair(l.0, r.0), Pair(a, b);
    } else {
      p, q := ExtractGenuine(h, ids, vBits, vHash, height, pos, c);
      if !Collision(h, p, q) {
        GenuineLengths(ids, l.1, |c.ids|, Leaf(n, height, pos), Leaf(n, height, pos + 1));
        p, q := ExtractGenuine(h, ids, vBits, vHash, height, pos + 1, l.1);
        ExtractExtends(h, n, vBits, vHash, height, pos + 1, l.1);
        if !Collision(h, p, q) {
          LeafBound(n, height, pos);
          LeafBound(n, height, pos + 1);
          GenuineJoin(ids, l.1, r.1, |c.ids|, Leaf(n, height, pos), Leaf(n, height, pos + 1), Leaf(n, height, pos + 2));
        }
      }
    }
  }

  lemma GenuineLengths(ids: seq<Hash>, c: Cursor, from: nat, lo: nat, hi: nat)
    requires Genuine(ids, c, from, lo, hi)
    ensures |c.ids| == |c.indexes|
  {
  }

  /** Soundness: extraction that arrives at the root of a list of n ids, with the right n, has found only
      entries of that list, each at its index and in order, or a collision is exhibited. A zero root would
      not be told from a failure. */
  lemma ExtractMatchesSound(h: Combine, ids: seq<Hash>, vBits: seq<bool>, vHash: seq<Hash>,
                            bad: bool) returns (p: Pair, q: Pair)
    requires ids != [] && MerkleRoot(h, ids) != ZERO_HASH
    requires ExtractMatches(h, |ids|, vBits, vHash, bad, []).0 == MerkleRoot(h, ids)
    ensures Collision(h, p, q) || Genuine(ids, ExtractMatches(h, |ids|, vBits, vHash, bad, []).1, 0, 0, |ids|)
  {
    TopIsRoot(h, ids);
    var n := |ids|;
    hide Width, Leaf, Genuine;
    LeafBound(n, Height(n), 0);
    LeafBound(n, Height(n), 1);
    p, q := ExtractGenuine(h, ids, vBits, vHash, Height(n), 0, Cursor(0, 0, bad, [], []));
  }

  /** The cursors stay within the data. */
  lemma {:induction false} ExtractWithin(h: Combine, n: nat, vBits: seq<bool>, vHash: seq<Hash>, height: nat,
                                         pos: nat, c: Cursor)
    requires c.bits <= |vBits| && c.hashes <= |vHash|
    ensures var r := Extract(h, n, vBits, vHash, height, pos, c).1; r.bits <= |vBits| && r.hashes <= |vHash|
    decreases height
  {
    hide Extract, Width;
    if c.bits < |vBits| && height > 0 && vBits[c.bits] {
      var d := c.(bits := c.bits + 1);
      ExtractInner(h, n, vBits, vHash, height, pos, c);
      ExtractWithin(h, n, vBits, vHash, height - 1, 2 * pos, d);
      if 2 * pos + 1 < Width(n, height - 1) {
        ExtractWithin(h, n, vBits, vHash, height - 1, 2 * pos + 1,
          Extract(h, n, vBits, vHash, height - 1, 2 * pos, d).1);
      }
    } else {
      ExtractStop(h, n, vBits, vHash, height, pos, c);
    }
  }

  /** A successful extraction has used up the data: every hash, and all flags but less than a byte of padding. */
  lemma SuccessUsesAll(h: Combine, n: nat, vBits: seq<bool>, vHash: seq<Hash>, bad: bool, indexes: seq<nat>)
    requires ExtractMatches(h, n, vBits, vHash, bad, indexes).0 != ZERO_HASH
    ensures var c := ExtractMatches(h, n, vBits, vHash, bad, indexes).1;
            && 1 <= n <= 16_666 && !c.bad && !bad
            && c.hashes == |vHash| <= n && c.bits <= |vBits| < c.bits + 8
  {
    var start := Cursor(0, 0, bad, [], indexes);
    hide Extract;
    ExtractWithin(h, n, vBits, vHash, Height(n), 0, start);
    ExtractExtends(h, n, vBits, vHash, Height(n), 0, start);
  }
}
