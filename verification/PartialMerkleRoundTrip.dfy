/** Partial Merkle trees: extracting what was built, through the packed flag bytes. */
module PartialMerkleRoundTrip {
  import opened Hashing
  import opened MerkleTree
  import Powers
  import opened PartialMerkle
  import opened BitPacking

  /** The indexes of the matches from lo to hi. */
  function Indexes(matches: seq<bool>, lo: nat, hi: nat): seq<nat>
    decreases hi
  {
    if lo >= hi then []
    else Indexes(matches, lo, hi - 1) + if hi - 1 < |matches| && matches[hi - 1] then [hi - 1] else []
  }

  lemma {:induction false} IndexesJoin(matches: seq<bool>, lo: nat, mid: nat, hi: nat)
    requires lo <= mid <= hi
    ensures Indexes(matches, lo, hi) == Indexes(matches, lo, mid) + Indexes(matches, mid, hi)
    decreases hi
  {
    if mid < hi {
      IndexesJoin(matches, lo, mid, hi - 1);
    }
  }

  predicate Within(indexes: seq<nat>, n: nat) {
    forall i :: 0 <= i < |indexes| ==> indexes[i] < n
  }

  lemma AnyMatchNext(matches: seq<bool>, lo: nat, hi: nat)
    requires lo < hi
    ensures AnyMatch(matches, lo, hi) <==> AnyMatch(matches, lo, hi - 1) || (hi - 1 < |matches| && matches[hi - 1])
  {
  }

  lemma {:induction false} IndexesEmpty(matches: seq<bool>, lo: nat, hi: nat)
    ensures Indexes(matches, lo, hi) == [] <==> !AnyMatch(matches, lo, hi)
    ensures Within(Indexes(matches, lo, hi), |matches|)
    decreases hi
  {
    if lo < hi {
      hide AnyMatch;
      AnyMatchNext(matches, lo, hi);
      IndexesEmpty(matches, lo, hi - 1);
    }
  }

  /** The entries at these indexes. */
  function Select(ids: seq<Hash>, indexes: seq<nat>): seq<Hash>
    requires Within(indexes, |ids|)
  {
    seq(|indexes|, i requires 0 <= i < |indexes| => ids[indexes[i]])
  }

  lemma SelectJoin(ids: seq<Hash>, a: seq<nat>, b: seq<nat>)
    requires Within(a, |ids|) && Within(b, |ids|)
    ensures Within(a + b, |ids|) && Select(ids, a + b) == Select(ids, a) + Select(ids, b)
  {
  }

  /** No visited node has two equal children. */
  ghost predicate Distinct(h: Combine, ids: seq<Hash>, matches: seq<bool>, height: nat, pos: nat)
    requires pos < Width(|ids|, height)
    decreases height
  {
    if height == 0 || !AnyMatch(matches, Leaf(|ids|, height, pos), Leaf(|ids|, height, pos + 1)) then true
    else
      LeafSplit(|ids|, height, pos);
      && Distinct(h, ids, matches, height - 1, 2 * pos)
      && (2 * pos + 1 < Width(|ids|, height - 1) ==>
            && Distinct(h, ids, matches, height - 1, 2 * pos + 1)
            && NodeHash(h, ids, height - 1, 2 * pos) != NodeHash(h, ids, height - 1, 2 * pos + 1))
  }

  /** What stands in a sequence from a position on. */
  predicate StandsAt<T(==)>(s: seq<T>, k: nat, part: seq<T>) {
    k + |part| <= |s| && s[k..k + |part|] == part
  }

  lemma StandsJoin<T>(s: seq<T>, k: nat, a: seq<T>, b: seq<T>)
    ensures StandsAt(s, k, a + b) <==> StandsAt(s, k, a) && StandsAt(s, k + |a|, b)
  {
    if k + |a + b| <= |s| {
      assert s[k..k + |a + b|] == s[k..k + |a|] + s[k + |a|..k + |a| + |b|];
      if StandsAt(s, k, a + b) {
        assert (a + b)[..|a|] == a && (a + b)[|a|..] == b;
        assert s[k..k + |a|] == s[k..k + |a + b|][..|a|];
        assert s[k + |a|..k + |a| + |b|] == s[k..k + |a + b|][|a|..];
      }
    }
  }

  /** The cursor after a built subtree has been read. */
  ghost function Read(h: Combine, ids: seq<Hash>, matches: seq<bool>, height: nat, pos: nat, c: Cursor): (r: Cursor)
    requires pos < Width(|ids|, height) && |matches| == |ids|
    ensures r.bits == c.bits + |Build(h, ids, matches, height, pos).bits|
    ensures r.hashes == c.hashes + |Build(h, ids, matches, height, pos).hashes|
  {
    var e := Build(h, ids, matches, height, pos);
    var found := Indexes(matches, Leaf(|ids|, height, pos), Leaf(|ids|, height, pos + 1));
    IndexesEmpty(matches, Leaf(|ids|, height, pos), Leaf(|ids|, height, pos + 1));
    Cursor(c.bits + |e.bits|, c.hashes + |e.hashes|, c.bad || !Distinct(h, ids, matches, height, pos),
           c.ids + Select(ids, found), c.indexes + found)
  }

  /** Where the traversal stops. */
  lemma ReadStop(h: Combine, ids: seq<Hash>, matches: seq<bool>, vBits: seq<bool>, vHash: seq<Hash>,
                 height: nat, pos: nat, c: Cursor)
    requires pos < Width(|ids|, height) && |matches| == |ids|
    requires height == 0 || !AnyMatch(matches, Leaf(|ids|, height, pos), Leaf(|ids|, height, pos + 1))
    requires StandsAt(vBits, c.bits, Build(h, ids, matches, height, pos).bits)
    requires StandsAt(vHash, c.hashes, Build(h, ids, matches, height, pos).hashes)
    ensures Extract(h, |ids|, vBits, vHash, height, pos, c) ==
            (NodeHash(h, ids, height, pos), Read(h, ids, matches, height, pos, c))
  {
    hide Width, Leaf, Read, NodeHash, AnyMatch;
    var parent := AnyMatch(matches, Leaf(|ids|, height, pos), Leaf(|ids|, height, pos + 1));
    var node := NodeHash(h, ids, height, pos);
    assert vBits[c.bits] == vBits[c.bits..c.bits + 1][0] == parent;
    assert vHash[c.hashes] == vHash[c.hashes..c.hashes + 1][0] == node;
    ReadStopCursor(h, ids, matches, height, pos, c);
    hide Build;
  }

  lemma ReadStopCursor(h: Combine, ids: seq<Hash>, matches: seq<bool>, height: nat, pos: nat, c: Cursor)
    requires pos < Width(|ids|, height) && |matches| == |ids|
    requires height == 0 || !AnyMatch(matches, Leaf(|ids|, height, pos), Leaf(|ids|, height, pos + 1))
    ensures Read(h, ids, matches, height, pos, c) ==
            Taken(c, NodeHash(h, ids, height, pos),
              AnyMatch(matches, Leaf(|ids|, height, pos), Leaf(|ids|, height, pos + 1)), pos)
  {
    var lo, hi := Leaf(|ids|, height, pos), Leaf(|ids|, height, pos + 1);
    LeafBound(|ids|, height, pos);
    IndexesEmpty(matches, lo, hi);
    hide Width, Leaf, NodeHash;
    if AnyMatch(matches, lo, hi) {
      assert Indexes(matches, lo, hi) == Indexes(matches, lo, lo) + [lo] == [pos];
      NodeHashBottom(h, ids, pos);
      assert Select(ids, [pos]) == [ids[pos]];
    } else {
      assert Indexes(matches, lo, hi) == [] && Select(ids, []) == [];
      assert c.ids + [] == c.ids && c.indexes + [] == c.indexes;
    }
    hide AnyMatch, Indexes, Select;
  }

  /** Two subtrees one after the other are read as their matches together. */
  lemma ReadJoin(ids: seq<Hash>, matches: seq<bool>, lo: nat, mid: nat, hi: nat)
    requires lo <= mid <= hi && |matches| == |ids|
    ensures Within(Indexes(matches, lo, mid), |ids|) && Within(Indexes(matches, mid, hi), |ids|)
    ensures Within(Indexes(matches, lo, hi), |ids|)
    ensures Indexes(matches, lo, hi) == Indexes(matches, lo, mid) + Indexes(matches, mid, hi)
    ensures Select(ids, Indexes(matches, lo, hi)) ==
              Select(ids, Indexes(matches, lo, mid)) + Select(ids, Indexes(matches, mid, hi))
  {
    IndexesEmpty(matches, lo, mid);
    IndexesEmpty(matches, mid, hi);
    IndexesJoin(matches, lo, mid, hi);
    hide Indexes;
    SelectJoin(ids, Indexes(matches, lo, mid), Indexes(matches, mid, hi));
  }

  /** Extraction of a built subtree gives its hash, its matches in order, and stops right behind it; the data
      counts as bad exactly if some visited node has equal children. */
  lemma {:induction false} ReadBack(h: Combine, ids: seq<Hash>, matches: seq<bool>, vBits: seq<bool>, vHash: seq<Hash>,
                                    height: nat, pos: nat, c: Cursor)
    requires pos < Width(|ids|, height) && |matches| == |ids|
    requires StandsAt(vBits, c.bits, Build(h, ids, matches, height, pos).bits)
    requires StandsAt(vHash, c.hashes, Build(h, ids, matches, height, pos).hashes)
    ensures Extract(h, |ids|, vBits, vHash, height, pos, c) ==
            (NodeHash(h, ids, height, pos), Read(h, ids, matches, height, pos, c))
    decreases height
  {
    var n := |ids|;
    hide Width, Leaf, NodeHash, Extract, StandsAt, AnyMatch, Read, Build;
    if height == 0 || !AnyMatch(matches, Leaf(n, height, pos), Leaf(n, height, pos + 1)) {
      ReadStop(h, ids, matches, vBits, vHash, height, pos, c);
    } else {
      NodeHashInner(h, ids, height, pos);
      ReadInner(h, ids, matches, height, pos, c);
      BuildInner(h, ids, matches, height, pos);
      var l := Build(h, ids, matches, height - 1, 2 * pos);
      var d := c.(bits := c.bits + 1);
      if 2 * pos + 1 < Width(n, height - 1) {
        var r := Build(h, ids, matches, height - 1, 2 * pos + 1);
        StandsJoin(vBits, c.bits, [true] + l.bits, r.bits);
        StandsJoin(vHash, c.hashes, l.hashes, r.hashes);
        StandsFirst(vBits, c.bits, true, l.bits);
        ExtractInner(h, n, vBits, vHash, height, pos, c);
        ReadBack(h, ids, matches, vBits, vHash, height - 1, 2 * pos, d);
        ReadBack(h, ids, matches, vBits, vHash, height - 1, 2 * pos + 1, Read(h, ids, matches, height - 1, 2 * pos, d));
      } else {
        StandsFirst(vBits, c.bits, true, l.bits);
        ExtractInner(h, n, vBits, vHash, height, pos, c);
        ReadBack(h, ids, matches, vBits, vHash, height - 1, 2 * pos, d);
      }
    }
  }

  lemma BuildInner(h: Combine, ids: seq<Hash>, matches: seq<bool>, height: nat, pos: nat)
    requires pos < Width(|ids|, height) && height > 0
    requires AnyMatch(matches, Leaf(|ids|, height, pos), Leaf(|ids|, height, pos + 1))
    ensures 2 * pos < Width(|ids|, height - 1)
    ensures
      var l := Build(h, ids, matches, height - 1, 2 * pos);
      if 2 * pos + 1 < Width(|ids|, height - 1) then
        var r := Build(h, ids, matches, height - 1, 2 * pos + 1);
        Build(h, ids, matches, height, pos) == Encoded([true] + l.bits + r.bits, l.hashes + r.hashes)
      else Build(h, ids, matches, height, pos) == Encoded([true] + l.bits, l.hashes)
  {
    LeafSplit(|ids|, height, pos);
    hide Width, Leaf, NodeHash;
  }

  lemma DistinctInner(h: Combine, ids: seq<Hash>, matches: seq<bool>, height: nat, pos: nat)
    requires pos < Width(|ids|, height) && height > 0
    requires AnyMatch(matches, Leaf(|ids|, height, pos), Leaf(|ids|, height, pos + 1))
    ensures 2 * pos < Width(|ids|, height - 1)
    ensures Distinct(h, ids, matches, height, pos) <==>
      && Distinct(h, ids, matches, height - 1, 2 * pos)
      && (2 * pos + 1 < Width(|ids|, height - 1) ==>
            && Distinct(h, ids, matches, height - 1, 2 * pos + 1)
            && NodeHash(h, ids, height - 1, 2 * pos) != NodeHash(h, ids, height - 1, 2 * pos + 1))
  {
    LeafSplit(|ids|, height, pos);
    hide Width, Leaf, NodeHash;
  }

  /** Reading a subtree is reading its flag and then its children. */
  lemma ReadInner(h: Combine, ids: seq<Hash>, matches: seq<bool>, height: nat, pos: nat, c: Cursor)
    requires pos < Width(|ids|, height) && height > 0 && |matches| == |ids|
    requires AnyMatch(matches, Leaf(|ids|, height, pos), Leaf(|ids|, height, pos + 1))
    ensures 2 * pos < Width(|ids|, height - 1)
    ensures
      var l := Read(h, ids, matches, height - 1, 2 * pos, c.(bits := c.bits + 1));
      if 2 * pos + 1 < Width(|ids|, height - 1) then
        var r := Read(h, ids, matches, height - 1, 2 * pos + 1, l);
        Read(h, ids, matches, height, pos, c) == r.(bad := r.bad ||
            NodeHash(h, ids, height - 1, 2 * pos + 1) == NodeHash(h, ids, height - 1, 2 * pos))
      else Read(h, ids, matches, height, pos, c) == l
  {
    var n := |ids|;
    hide Width, Leaf, NodeHash, Indexes, Select, AnyMatch, Distinct, Build;
    LeafSplit(n, height, pos);
    LeafBound(n, height - 1, 2 * pos);
    LeafBound(n, height - 1, 2 * pos + 1);
    BuildInner(h, ids, matches, height, pos);
    DistinctInner(h, ids, matches, height, pos);
    var lo, mid, hi := Leaf(n, height - 1, 2 * pos), Leaf(n, height - 1, 2 * pos + 1), Leaf(n, height - 1, 2 * pos + 2);
    ReadJoin(ids, matches, lo, mid, hi);
    if 2 * pos + 1 < Width(n, height - 1) {
      var a, b := Indexes(matches, lo, mid), Indexes(matches, mid, hi);
      assert c.indexes + a + b == c.indexes + (a + b);
      assert c.ids + Select(ids, a) + Select(ids, b) == c.ids + (Select(ids, a) + Select(ids, b));
    }
  }

  lemma StandsFirst<T>(s: seq<T>, k: nat, x: T, rest: seq<T>)
    requires StandsAt(s, k, [x] + rest)
    ensures k < |s| && s[k] == x && StandsAt(s, k + 1, rest)
  {
    assert s[k..k + 1 + |rest|][0] == x;
    StandsJoin(s, k, [x], rest);
  }

  // ---------------------------------------------------------------- sizes

  /** The number of visited nodes that have a single child. */
  ghost function OnlyChildren(ids: seq<Hash>, matches: seq<bool>, height: nat, pos: nat): nat
    requires pos < Width(|ids|, height)
    decreases height
  {
    if height == 0 || !AnyMatch(matches, Leaf(|ids|, height, pos), Leaf(|ids|, height, pos + 1)) then 0
    else
      LeafSplit(|ids|, height, pos);
      OnlyChildren(ids, matches, height - 1, 2 * pos) +
      if 2 * pos + 1 < Width(|ids|, height - 1) then OnlyChildren(ids, matches, height - 1, 2 * pos + 1) else 1
  }

  lemma BuildStop(h: Combine, ids: seq<Hash>, matches: seq<bool>, height: nat, pos: nat)
    requires pos < Width(|ids|, height)
    requires height == 0 || !AnyMatch(matches, Leaf(|ids|, height, pos), Leaf(|ids|, height, pos + 1))
    ensures Build(h, ids, matches, height, pos) ==
            Encoded([AnyMatch(matches, Leaf(|ids|, height, pos), Leaf(|ids|, height, pos + 1))],
              [NodeHash(h, ids, height, pos)])
    ensures OnlyChildren(ids, matches, height, pos) == 0
  {
    hide Width, Leaf, AnyMatch, NodeHash;
  }

  /** There is at most one hash per leaf. */
  lemma {:induction false} BuildAtMostLeaves(h: Combine, ids: seq<Hash>, matches: seq<bool>, height: nat, pos: nat)
    requires pos < Width(|ids|, height)
    ensures 1 <= |Build(h, ids, matches, height, pos).hashes| <= Leaf(|ids|, height, pos + 1) - Leaf(|ids|, height, pos)
    decreases height
  {
    hide *;
    var n := |ids|;
    if height > 0 && AnyMatch(matches, Leaf(n, height, pos), Leaf(n, height, pos + 1)) {
      LeafSplit(n, height, pos);
      BuildInner(h, ids, matches, height, pos);
      BuildAtMostLeaves(h, ids, matches, height - 1, 2 * pos);
      if 2 * pos + 1 < Width(n, height - 1) {
        BuildAtMostLeaves(h, ids, matches, height - 1, 2 * pos + 1);
      }
    } else {
      LeafBound(n, height, pos);
      BuildStop(h, ids, matches, height, pos);
    }
  }

  /** The nodes on one path for every match. */
  function Paths(matches: nat, height: nat): nat {
    matches * height
  }

  /** There are at most as many hashes as one path for every match has nodes, and one more. */
  lemma {:induction false} BuildAtMostPaths(h: Combine, ids: seq<Hash>, matches: seq<bool>, height: nat, pos: nat)
    requires pos < Width(|ids|, height)
    ensures |Build(h, ids, matches, height, pos).hashes| <=
            1 + Paths(|Indexes(matches, Leaf(|ids|, height, pos), Leaf(|ids|, height, pos + 1))|, height)
    decreases height
  {
    hide *;
    var n := |ids|;
    if height > 0 && AnyMatch(matches, Leaf(n, height, pos), Leaf(n, height, pos + 1)) {
      BuildInner(h, ids, matches, height, pos);
      var lo, mid := Leaf(n, height - 1, 2 * pos), Leaf(n, height - 1, 2 * pos + 1);
      var hi := Leaf(n, height - 1, 2 * pos + 2);
      LeafSplit(n, height, pos);
      LeafBound(n, height - 1, 2 * pos);
      LeafBound(n, height - 1, 2 * pos + 1);
      IndexesJoin(matches, lo, mid, hi);
      IndexesEmpty(matches, lo, hi);
      PathBound(|Indexes(matches, lo, mid)|, |Indexes(matches, mid, hi)|, height);
      BuildAtMostPaths(h, ids, matches, height - 1, 2 * pos);
      if 2 * pos + 1 < Width(n, height - 1) {
        BuildAtMostPaths(h, ids, matches, height - 1, 2 * pos + 1);
      }
    } else {
      BuildStop(h, ids, matches, height, pos);
    }
  }

  /** Flags are one less than twice the hashes, and one more for every visited node with a single child. */
  lemma {:induction false} BuildFlags(h: Combine, ids: seq<Hash>, matches: seq<bool>, height: nat, pos: nat)
    requires pos < Width(|ids|, height)
    ensures |Build(h, ids, matches, height, pos).bits| ==
            2 * |Build(h, ids, matches, height, pos).hashes| - 1 + OnlyChildren(ids, matches, height, pos)
    decreases height
  {
    hide *;
    if height > 0 && AnyMatch(matches, Leaf(|ids|, height, pos), Leaf(|ids|, height, pos + 1)) {
      BuildInner(h, ids, matches, height, pos);
      OnlyChildrenInner(ids, matches, height, pos);
      BuildFlags(h, ids, matches, height - 1, 2 * pos);
      if 2 * pos + 1 < Width(|ids|, height - 1) {
        BuildFlags(h, ids, matches, height - 1, 2 * pos + 1);
      }
    } else {
      BuildStop(h, ids, matches, height, pos);
    }
  }

  /** Three leaves, of which the last is matched: two hashes and four flags, one more than 2 * 2 - 1. */
  lemma MoreFlagsThanStated(h: Combine, a: Hash, b: Hash, c: Hash)
    ensures Width(3, 2) == 1
    ensures var e := Build(h, [a, b, c], [false, false, true], 2, 0); |e.hashes| == 2 && |e.bits| == 4
  {
    var ids, matches := [a, b, c], [false, false, true];
    assert Powers.Pow2(0) == 1 && Powers.Pow2(1) == 2 && Powers.Pow2(2) == 4;
    assert matches[2];
    BuildInner(h, ids, matches, 2, 0);
    BuildStop(h, ids, matches, 1, 0);
    BuildInner(h, ids, matches, 1, 1);
    BuildStop(h, ids, matches, 0, 2);
  }

  lemma OnlyChildrenInner(ids: seq<Hash>, matches: seq<bool>, height: nat, pos: nat)
    requires pos < Width(|ids|, height) && height > 0
    requires AnyMatch(matches, Leaf(|ids|, height, pos), Leaf(|ids|, height, pos + 1))
    ensures 2 * pos < Width(|ids|, height - 1)
    ensures OnlyChildren(ids, matches, height, pos) == OnlyChildren(ids, matches, height - 1, 2 * pos) +
            if 2 * pos + 1 < Width(|ids|, height - 1) then OnlyChildren(ids, matches, height - 1, 2 * pos + 1) else 1
  {
    LeafSplit(|ids|, height, pos);
    hide Width, Leaf;
  }

  lemma PathBound(a: nat, b: nat, height: nat)
    requires a + b > 0 && height > 0
    ensures 1 + Paths(a, height - 1) + 1 + Paths(b, height - 1) <= 1 + Paths(a + b, height)
  {
    assert (a + b) * height == a * (height - 1) + b * (height - 1) + (a + b);
    assert b * (height - 1) >= 0;
  }

  // ---------------------------------------------------------------- the round trip

  /** The whole tree. */
  ghost function Encode(h: Combine, ids: seq<Hash>, matches: seq<bool>): Encoded
    requires ids != []
  {
    TopIsRoot(h, ids);
    Build(h, ids, matches, Height(|ids|), 0)
  }

  /** No two siblings above a match are equal. */
  ghost predicate Unambiguous(h: Combine, ids: seq<Hash>, matches: seq<bool>)
    requires ids != []
  {
    TopIsRoot(h, ids);
    Distinct(h, ids, matches, Height(|ids|), 0)
  }

  lemma EncodeIsBuild(h: Combine, ids: seq<Hash>, matches: seq<bool>)
    requires ids != []
    ensures Width(|ids|, Height(|ids|)) == 1 && Encode(h, ids, matches) == Build(h, ids, matches, Height(|ids|), 0)
  {
    TopIsRoot(h, ids);
    hide Build, Width, Height;
  }

  lemma EncodeSizes(h: Combine, ids: seq<Hash>, matches: seq<bool>)
    requires ids != []
    ensures 1 <= |Encode(h, ids, matches).hashes| <= |ids|
    ensures |Encode(h, ids, matches).hashes| <= 1 + Paths(|Indexes(matches, 0, |ids|)|, Height(|ids|))
    ensures |Encode(h, ids, matches).hashes| <= |Encode(h, ids, matches).bits|
  {
    var n, height := |ids|, Height(|ids|);
    EncodeIsBuild(h, ids, matches);
    hide *;
    LeafBound(n, height, 0);
    LeafBound(n, height, 1);
    BuildAtMostLeaves(h, ids, matches, height, 0);
    BuildAtMostPaths(h, ids, matches, height, 0);
    BuildFlags(h, ids, matches, height, 0);
  }

  lemma ReadWhole(h: Combine, ids: seq<Hash>, matches: seq<bool>, vBits: seq<bool>)
    requires ids != [] && |matches| == |ids| && Encode(h, ids, matches).bits <= vBits
    ensures
      var e, found := Encode(h, ids, matches), Indexes(matches, 0, |ids|);
      && Within(found, |ids|)
      && Extract(h, |ids|, vBits, e.hashes, Height(|ids|), 0, Cursor(0, 0, false, [], [])) ==
         (MerkleRoot(h, ids), Cursor(|e.bits|, |e.hashes|, !Unambiguous(h, ids, matches), Select(ids, found), found))
  {
    var n, height := |ids|, Height(|ids|);
    TopIsRoot(h, ids);
    EncodeIsBuild(h, ids, matches);
    var e, c := Encode(h, ids, matches), Cursor(0, 0, false, [], []);
    assert StandsAt(vBits, 0, e.bits) && StandsAt(e.hashes, 0, e.hashes);
    ReadWholeCursor(h, ids, matches);
    hide *;
    ReadBack(h, ids, matches, vBits, e.hashes, height, 0, c);
  }

  lemma ReadWholeCursor(h: Combine, ids: seq<Hash>, matches: seq<bool>)
    requires ids != [] && |matches| == |ids|
    ensures
      var e, found := Encode(h, ids, matches), Indexes(matches, 0, |ids|);
      && Width(|ids|, Height(|ids|)) == 1 && Within(found, |ids|)
      && Read(h, ids, matches, Height(|ids|), 0, Cursor(0, 0, false, [], [])) ==
         Cursor(|e.bits|, |e.hashes|, !Unambiguous(h, ids, matches), Select(ids, found), found)
  {
    var n, height := |ids|, Height(|ids|);
    EncodeIsBuild(h, ids, matches);
    IndexesEmpty(matches, 0, n);
    hide Width, Leaf, Build, Encode, Height, Distinct, Indexes, Select;
    LeafBound(n, height, 0);
    LeafBound(n, height, 1);
    var found := Indexes(matches, 0, n);
    assert [] + found == found && [] + Select(ids, found) == Select(ids, found);
  }

  /** Build, pack the flags, unpack and extract: the Merkle root and exactly the matches, in order; unless two
      siblings above a match are equal, and then nothing. */
  lemma RoundTrip(h: Combine, ids: seq<Hash>, matches: seq<bool>, bytes: seq<bv8>)
    requires 1 <= |ids| <= 16_666 && |matches| == |ids| && Packing(Encode(h, ids, matches).bits, bytes)
    ensures
      var r := ExtractMatches(h, |ids|, Unpacked(bytes), Encode(h, ids, matches).hashes, false, []);
      var found := Indexes(matches, 0, |ids|);
      if Unambiguous(h, ids, matches)
      then r.0 == MerkleRoot(h, ids) && r.1.indexes == found && Within(found, |ids|) && r.1.ids == Select(ids, found)
      else r.0 == ZERO_HASH && r.1.bad
  {
    hide Encode, Unambiguous, Extract, Unpacked, MerkleRoot, Indexes, Select;
    var e := Encode(h, ids, matches);
    UnpackedPacking(e.bits, bytes);
    EncodeSizes(h, ids, matches);
    ReadWhole(h, ids, matches, Unpacked(bytes));
  }
}
