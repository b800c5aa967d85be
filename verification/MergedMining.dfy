/** Merged mining: proof that a block's hash was committed to by the coinbase of a parent chain's block. */
module MergedMining {
  import opened Octets
  import opened Hashing
  import opened Powers
  import opened MerkleTree
  import Sets

  type Script = seq<Byte>

  /** A transaction: the input scripts, and everything else that goes into its id. */
  datatype Tx = Tx(vin: seq<Script>, rest: seq<Byte>)

  datatype ParentHeader = ParentHeader(chainId: int, hashMerkleRoot: Hash)

  datatype AuxPow = AuxPow(tx: Tx, vMerkleBranch: seq<Hash>, nIndex: int,
                           vChainMerkleBranch: seq<Hash>, nChainIndex: int, parent: ParentHeader)

  datatype Verdict =
    | Valid | NotGenerate | OwnChainId | BranchTooLong | WrongMerkleRoot | NoInputs | MissingRoot
    | MultipleHeaders | HeaderNotBefore | RootTooLate | MissingSizeAndNonce | WrongSize | WrongIndex

  const MERGED_MINING_HEADER: seq<Byte> := [0xfa, 0xbe, 0x6d, 0x6d]

  // ---------------------------------------------------------------- Merkle branches

  /** One level: the index's low bit says on which side the node is. */
  function Level(node: Hash, sibling: Hash, index: int): Pair {
    if index % 2 == 1 then Pair(sibling, node) else Pair(node, sibling)
  }

  function Climb(h: Combine, leaf: Hash, branch: seq<Hash>, index: int): Hash
    decreases |branch|
  {
    if branch == [] then leaf
    else Climb(h, h(Level(leaf, branch[0], index)), branch[1..], index / 2)
  }

  function BranchRoot(h: Combine, leaf: Hash, branch: seq<Hash>, index: int): Hash {
    if index == -1 then ZERO_HASH else Climb(h, leaf, branch, index)
  }

  method CheckMerkleBranch(h: Combine, leaf: Hash, branch: seq<Hash>, index: int) returns (hash: Hash)
    ensures hash == BranchRoot(h, leaf, branch, index) && (index == -1 ==> hash == ZERO_HASH)
  {
    if index == -1 {
      return ZERO_HASH;
    }
    hash := leaf;
    var n := index;
    for i := 0 to |branch|
      invariant Climb(h, hash, branch[i..], n) == Climb(h, leaf, branch, index)
    {
      assert branch[i..][0] == branch[i] && branch[i..][1..] == branch[i + 1..];
      if n % 2 == 1 {
        hash := h(Pair(branch[i], hash));
      } else {
        hash := h(Pair(hash, branch[i]));
      }
      n := n / 2;
    }
  }

  /** From leaf i of any list, its branch climbs to the list's Merkle root. */
  lemma {:induction false} BranchClimbs(h: Combine, s: seq<Hash>, i: nat)
    requires i < |s|
    ensures Climb(h, s[i], Branch(h, s, i), i) == MerkleRoot(h, s)
    decreases |s|
  {
    hide *;
    BranchAt(h, s, i);
    if |s| == 1 {
      ClimbNone(h, s[i], i);
    } else {
      UpAt(h, s, i);
      BranchClimbs(h, Up(h, s), i / 2);
      ClimbNext(h, s[i], Sibling(s, i), Branch(h, Up(h, s), i / 2), i);
    }
  }

  lemma BranchAt(h: Combine, s: seq<Hash>, i: nat)
    requires i < |s|
    ensures |s| == 1 ==> Branch(h, s, i) == [] && MerkleRoot(h, s) == s[0]
    ensures |s| > 1 ==> |Up(h, s)| == (|s| + 1) / 2 && i / 2 < |Up(h, s)| && MerkleRoot(h, s) == MerkleRoot(h, Up(h, s))
    ensures |s| > 1 ==> Branch(h, s, i) == [Sibling(s, i)] + Branch(h, Up(h, s), i / 2)
  {
  }

  lemma UpAt(h: Combine, s: seq<Hash>, i: nat)
    requires i < |s| && i / 2 < |Up(h, s)|
    ensures Up(h, s)[i / 2] == h(Level(s[i], Sibling(s, i), i))
  {
  }

  lemma ClimbNone(h: Combine, leaf: Hash, index: int)
    ensures Climb(h, leaf, [], index) == leaf
  {
  }

  lemma ClimbNext(h: Combine, leaf: Hash, sibling: Hash, rest: seq<Hash>, index: int)
    ensures Climb(h, leaf, [sibling] + rest, index) == Climb(h, h(Level(leaf, sibling, index)), rest, index / 2)
  {
    assert ([sibling] + rest)[1..] == rest;
  }

  /** Two leaves with branches of one length to the same root at the same index: the level where the paths
      meet has two different inputs with one hash. */
  function ClimbCollision(h: Combine, a: Hash, branchA: seq<Hash>, b: Hash, branchB: seq<Hash>,
                          index: int): (r: (Pair, Pair))
    requires |branchA| == |branchB| && a != b && Climb(h, a, branchA, index) == Climb(h, b, branchB, index)
    ensures Collision(h, r.0, r.1)
    decreases |branchA|
  {
    var x, y := Level(a, branchA[0], index), Level(b, branchB[0], index);
    if h(x) == h(y) then (x, y) else ClimbCollision(h, h(x), branchA[1..], h(y), branchB[1..], index / 2)
  }

  // ---------------------------------------------------------------- the coinbase script

  predicate OccursAt(text: seq<Byte>, pattern: seq<Byte>, k: int) {
    0 <= k <= |text| - |pattern| && text[k..k + |pattern|] == pattern
  }

  /** The first occurrence of the pattern from a position on, or the end. */
  function Search(text: seq<Byte>, pattern: seq<Byte>, from: nat): (k: nat)
    requires from <= |text| && pattern != []
    ensures from <= k <= |text|
    ensures k < |text| ==> OccursAt(text, pattern, k)
    ensures forall j :: from <= j < k ==> !OccursAt(text, pattern, j)
    decreases |text| - from
  {
    if from == |text| || OccursAt(text, pattern, from) then from else Search(text, pattern, from + 1)
  }

  function Little32(s: seq<Byte>, k: nat): int
    requires k + 4 <= |s|
  {
    var a: int, b: int, c: int, d: int := s[k], s[k + 1], s[k + 2], s[k + 3];
    a + 0x100 * b + 0x1_0000 * c + 0x100_0000 * d
  }

  // ---------------------------------------------------------------- the expected index

  const MULTIPLIER := 1103515245
  const INCREMENT := 12345

  /** The generator of the slot number, in arithmetic modulo m. */
  function Slot(nonce: int, chainId: int, m: int): int
    requires m > 0
  {
    (((nonce * MULTIPLIER + INCREMENT) % m + chainId) % m * MULTIPLIER + INCREMENT) % m
  }

  /** 32-bit arithmetic, as unsigned numbers; heights are at most 30. */
  function ExpectedIndex(nonce: int, chainId: int, height: nat): (r: int)
    ensures 0 <= r < Pow2(height)
  {
    Slot(nonce, chainId, 0x1_0000_0000) % Pow2(height)
  }

  /** The slot in numbers. */
  lemma SlotNumbers(nonce: int, chainId: int, m: int)
    requires m > 0
    ensures Slot(nonce, chainId, m) == (nonce * 1217745895947410025 + chainId * 1103515245 + 13622895711870) % m
  {
    SlotModulus(nonce, chainId, m);
    hide Slot;
    assert PlainSlot(nonce, chainId) == nonce * 1217745895947410025 + chainId * 1103515245 + 13622895711870;
  }

  /** Two chains have the same slot, for a nonce and a height, exactly if their ids agree in that many bits. */
  lemma SlotsClashIff(nonce: int, a: int, b: int, height: nat)
    requires height <= 32
    ensures ExpectedIndex(nonce, a, height) == ExpectedIndex(nonce, b, height) <==> (a - b) % Pow2(height) == 0
  {
    hide Slot, PlainSlot;
    Pow2Word();
    IndexPlain(nonce, a, height, 32);
    IndexPlain(nonce, b, height, 32);
    PlainDifference(nonce, a, b);
    hide Pow2;
    SameRemainder(PlainSlot(nonce, a), PlainSlot(nonce, b), Pow2(height));
    OddFactor(a - b, height);
  }

  lemma PlainDifference(nonce: int, a: int, b: int)
    ensures PlainSlot(nonce, a) - PlainSlot(nonce, b) == (a - b) * MULTIPLIER
  {
  }

  lemma SameRemainder(x: int, y: int, m: int)
    requires m > 0
    ensures x % m == y % m <==> (x - y) % m == 0
  {
    var p, q := x / m, y / m;
    assert x == p * m + x % m && y == q * m + y % m;
    Distribute(p, -q, m);
    if x % m == y % m {
      DivModUnique(x - y, m, p - q, 0);
    } else if x % m > y % m {
      DivModUnique(x - y, m, p - q, x % m - y % m);
    } else {
      Distribute(p - q, -1, m);
      DivModUnique(x - y, m, p - q - 1, m + x % m - y % m);
    }
  }

  /** The multiplier is odd. */
  lemma {:induction false} OddFactor(x: int, height: nat)
    ensures x * MULTIPLIER % Pow2(height) == 0 <==> x % Pow2(height) == 0
    decreases height
  {
    hide *;
    Pow2Halves(height);
    if height > 0 {
      var p, y := Pow2(height - 1), x / 2;
      Halves(x);
      if x % 2 == 0 {
        OddFactor(y, height - 1);
        TwiceDivides(y, p);
        TwiceDivides(y * MULTIPLIER, p);
      } else {
        NotTwice(x, p);
        NotTwice(x * MULTIPLIER, p);
      }
    }
  }

  lemma Pow2Halves(height: nat)
    ensures height == 0 ==> Pow2(height) == 1
    ensures height > 0 ==> Pow2(height) == 2 * Pow2(height - 1) && Pow2(height - 1) > 0
  {
  }

  lemma Halves(x: int)
    ensures x % 2 == 0 ==> x == 2 * (x / 2) && x * MULTIPLIER == 2 * (x / 2 * MULTIPLIER)
    ensures x % 2 == 1 ==> x * MULTIPLIER % 2 == 1
  {
    assert x * MULTIPLIER == 2 * (x * 551757622) + x;
  }

  lemma TwiceDivides(y: int, p: int)
    requires p > 0
    ensures 2 * y % (2 * p) == 0 <==> y % p == 0
  {
    var q := y / p;
    assert y == q * p + y % p;
    Regroup(q, 2, p);
    DivModUnique(2 * y, 2 * p, q, 2 * (y % p));
  }

  lemma NotTwice(x: int, p: int)
    requires p > 0 && x % 2 == 1
    ensures x % (2 * p) != 0
  {
    if x % (2 * p) == 0 {
      var q := x / (2 * p);
      assert x == q * (2 * p);
      Regroup(q, 2, p);
      DivModUnique(x, 2, q * p, 0);
    }
  }

  /** The same slot without any overflow. */
  function PlainSlot(nonce: int, chainId: int): int {
    (nonce * MULTIPLIER + INCREMENT + chainId) * MULTIPLIER + INCREMENT
  }

  lemma SlotModulus(nonce: int, chainId: int, m: int)
    requires m > 0
    ensures Slot(nonce, chainId, m) == PlainSlot(nonce, chainId) % m
  {
    var x := nonce * MULTIPLIER + INCREMENT;
    ModAdd(x, chainId, m);
    ModMul(x + chainId, MULTIPLIER, m);
    ModAdd((x % m + chainId) % m * MULTIPLIER, INCREMENT, m);
    ModAdd((x + chainId) * MULTIPLIER, INCREMENT, m);
  }

  /** Any word width of at least `height` bits gives the same index, 64 bits in particular. */
  lemma ExpectedIndexAnyWidth(nonce: int, chainId: int, height: nat, width: nat)
    requires height <= width && height <= 32
    ensures ExpectedIndex(nonce, chainId, height) == Slot(nonce, chainId, Pow2(width)) % Pow2(height)
  {
    hide Slot, PlainSlot;
    IndexPlain(nonce, chainId, height, width);
    IndexPlain(nonce, chainId, height, 32);
    Pow2Word();
    hide Pow2;
  }

  lemma IndexPlain(nonce: int, chainId: int, height: nat, width: nat)
    requires height <= width
    ensures Slot(nonce, chainId, Pow2(width)) % Pow2(height) == PlainSlot(nonce, chainId) % Pow2(height)
  {
    SlotModulus(nonce, chainId, Pow2(width));
    Pow2Add(height, width - height);
    ModMod(PlainSlot(nonce, chainId), Pow2(height), Pow2(width - height));
  }

  // ---------------------------------------------------------------- the check

  /** The chain Merkle root as it has to stand in the coinbase script. */
  function Commitment(h: Combine, a: AuxPow, hashAuxBlock: Hash): (r: seq<Byte>)
    ensures |r| == 32
  {
    BigEndian(BranchRoot(h, hashAuxBlock, a.vChainMerkleBranch, a.nChainIndex))
  }

  function Check(h: Combine, id: Tx -> Hash, a: AuxPow, hashAuxBlock: Hash, chainId: int, strict: bool): Verdict {
    if a.nIndex != 0 then NotGenerate
    else if strict && a.parent.chainId == chainId then OwnChainId
    else if |a.vChainMerkleBranch| > 30 then BranchTooLong
    else if BranchRoot(h, id(a.tx), a.vMerkleBranch, a.nIndex) != a.parent.hashMerkleRoot then WrongMerkleRoot
    else if a.tx.vin == [] then NoInputs
    else CheckScript(a.tx.vin[0], Commitment(h, a, hashAuxBlock), |a.vChainMerkleBranch|, a.nChainIndex, chainId)
  }

  function CheckScript(script: Script, root: seq<Byte>, height: nat, chainIndex: int, chainId: int): Verdict
    requires |root| == 32
  {
    var head, pc := Search(script, MERGED_MINING_HEADER, 0), Search(script, root, 0);
    if pc == |script| then MissingRoot
    else if head < |script| && Search(script, MERGED_MINING_HEADER, head + 1) < |script| then MultipleHeaders
    else if head < |script| && head + 4 != pc then HeaderNotBefore
    else if head == |script| && pc > 20 then RootTooLate
    else if |script| - (pc + 32) < 8 then MissingSizeAndNonce
    else if Little32(script, pc + 32) != Pow2(height) then WrongSize
    else if chainIndex != ExpectedIndex(Little32(script, pc + 36), chainId, height) then WrongIndex
    else Valid
  }

  /** Where the commitment stands. */
  function Offset(h: Combine, a: AuxPow, hashAuxBlock: Hash): nat
    requires a.tx.vin != []
  {
    Search(a.tx.vin[0], Commitment(h, a, hashAuxBlock), 0)
  }

  /** The script commits to the root at pc: its first occurrence, with the only header right before it or early
      without one, and with the size and the index of a tree of this height behind it. */
  ghost predicate CommitsAt(script: Script, root: seq<Byte>, height: nat, chainIndex: int, chainId: int, pc: int) {
    && OccursAt(script, root, pc) && (forall j :: OccursAt(script, root, j) ==> pc <= j)
    && (((forall k :: !OccursAt(script, MERGED_MINING_HEADER, k)) && pc <= 20)
        || (forall k :: OccursAt(script, MERGED_MINING_HEADER, k) <==> k == pc - 4))
    && pc + |root| + 8 <= |script|
    && Little32(script, pc + |root|) == Pow2(height)
    && chainIndex == ExpectedIndex(Little32(script, pc + |root| + 4), chainId, height)
  }

  lemma ScriptValidIff(script: Script, root: seq<Byte>, height: nat, chainIndex: int, chainId: int)
    requires |root| == 32
    ensures CheckScript(script, root, height, chainIndex, chainId) == Valid <==>
            exists pc :: CommitsAt(script, root, height, chainIndex, chainId, pc)
  {
    hide ExpectedIndex, Pow2;
    var head, pc := Search(script, MERGED_MINING_HEADER, 0), Search(script, root, 0);
    if CheckScript(script, root, height, chainIndex, chainId) == Valid {
      if head < |script| {
        var again := Search(script, MERGED_MINING_HEADER, head + 1);
        OnlyOnce(script, head, again);
      }
      assert CommitsAt(script, root, height, chainIndex, chainId, pc);
    }
    if at :| CommitsAt(script, root, height, chainIndex, chainId, at) {
      assert at == pc;
      if head < |script| {
        assert head == pc - 4;
      } else {
        assert !OccursAt(script, MERGED_MINING_HEADER, at - 4);
      }
    }
  }

  lemma OnlyOnce(script: Script, head: nat, again: nat)
    requires head < |script| && head == Search(script, MERGED_MINING_HEADER, 0)
    requires again == |script| == Search(script, MERGED_MINING_HEADER, head + 1)
    ensures forall k :: OccursAt(script, MERGED_MINING_HEADER, k) <==> k == head
  {
  }

  /** check accepts exactly this. */
  lemma ValidIff(h: Combine, id: Tx -> Hash, a: AuxPow, hashAuxBlock: Hash, chainId: int, strict: bool)
    ensures Check(h, id, a, hashAuxBlock, chainId, strict) == Valid <==>
            && a.nIndex == 0 && (strict ==> a.parent.chainId != chainId) && |a.vChainMerkleBranch| <= 30
            && Climb(h, id(a.tx), a.vMerkleBranch, 0) == a.parent.hashMerkleRoot
            && a.tx.vin != []
            && exists pc :: CommitsAt(a.tx.vin[0], Commitment(h, a, hashAuxBlock), |a.vChainMerkleBranch|,
                                      a.nChainIndex, chainId, pc)
  {
    hide CheckScript, CommitsAt, Climb, Commitment;
    if a.tx.vin != [] {
      ScriptValidIff(a.tx.vin[0], Commitment(h, a, hashAuxBlock), |a.vChainMerkleBranch|, a.nChainIndex, chainId);
    }
  }

  // ---------------------------------------------------------------- genuine proofs are accepted

  /** Four bytes, lowest first, are read back. */
  lemma LittleBack(s: seq<Byte>, k: nat, x: nat)
    requires k + 4 <= |s| && x < TWO_32 && s[k..k + 4] == Bytes(x, 4)
    ensures Little32(s, k) == x
  {
    var y, z, w := x / 256, x / 256 / 256, x / 256 / 256 / 256;
    assert Bytes(x, 4) == [x % 256] + Bytes(y, 3);
    assert Bytes(y, 3) == [y % 256] + Bytes(z, 2);
    assert Bytes(z, 2) == [z % 256] + Bytes(w, 1);
    assert Bytes(w, 1) == [w % 256] + Bytes(w / 256, 0);
    hide Bytes;
    var t := s[k..k + 4];
    assert t == [x % 256, y % 256, z % 256, w % 256];
    assert s[k] == t[0] && s[k + 1] == t[1] && s[k + 2] == t[2] && s[k + 3] == t[3];
    FourDigits(x);
  }

  lemma FourDigits(x: nat)
    requires x < TWO_32
    ensures var y, z, w := x / 256, x / 256 / 256, x / 256 / 256 / 256;
            x == x % 256 + 0x100 * (y % 256) + 0x1_0000 * (z % 256) + 0x100_0000 * (w % 256)
  {
  }

  /** The script of a parent coinbase: something, the header, the root of the chains' tree, its size and nonce. */
  function CommittingScript(prefix: Script, root: Hash, size: nat, nonce: nat, suffix: Script): Script {
    prefix + MERGED_MINING_HEADER + BigEndian(root) + Bytes(size, 4) + Bytes(nonce, 4) + suffix
  }

  lemma ScriptParts(prefix: Script, root: Hash, size: nat, nonce: nat, suffix: Script)
    requires size < TWO_32 && nonce < TWO_32
    ensures var script, pc := CommittingScript(prefix, root, size, nonce, suffix), |prefix| + 4;
            && |script| >= pc + 40 && OccursAt(script, BigEndian(root), pc)
            && OccursAt(script, MERGED_MINING_HEADER, |prefix|)
            && Little32(script, pc + 32) == size && Little32(script, pc + 36) == nonce
  {
    var script, pc := CommittingScript(prefix, root, size, nonce, suffix), |prefix| + 4;
    hide Bytes, BigEndian, Little32;
    assert script[|prefix|..|prefix| + 4] == MERGED_MINING_HEADER;
    assert script[pc..pc + 32] == BigEndian(root);
    assert script[pc + 32..pc + 36] == Bytes(size, 4);
    assert script[pc + 36..pc + 40] == Bytes(nonce, 4);
    LittleBack(script, pc + 32, size);
    LittleBack(script, pc + 36, nonce);
  }

  /** A parent block whose first transaction commits to a full tree of chains with our block at its slot: the proof made
      of the two branches is accepted, if the header and the root occur in the script nowhere else. */
  lemma GenuineAccepted(h: Combine, id: Tx -> Hash, tx: Tx, ids: seq<Hash>, blocks: seq<Hash>, height: nat, nonce: nat,
                        prefix: Script, suffix: Script, parentChain: int, chainId: int, strict: bool)
    requires ids != [] && ids[0] == id(tx) && height <= 30 && |blocks| == Pow2(height) && nonce < TWO_32
    requires strict ==> parentChain != chainId
    requires var script := CommittingScript(prefix, MerkleRoot(h, blocks), Pow2(height), nonce, suffix);
             && tx.vin != [] && tx.vin[0] == script
             && (forall k :: OccursAt(script, MERGED_MINING_HEADER, k) ==> k == |prefix|)
             && (forall k :: OccursAt(script, BigEndian(MerkleRoot(h, blocks)), k) ==> k >= |prefix| + 4)
    ensures var slot := ExpectedIndex(nonce, chainId, height);
            var proof := AuxPow(tx, Branch(h, ids, 0), 0, Branch(h, blocks, slot), slot,
                                ParentHeader(parentChain, MerkleRoot(h, ids)));
            Check(h, id, proof, blocks[slot], chainId, strict) == Valid
  {
    var slot := ExpectedIndex(nonce, chainId, height);
    var root := MerkleRoot(h, blocks);
    var proof := AuxPow(tx, Branch(h, ids, 0), 0, Branch(h, blocks, slot), slot,
                        ParentHeader(parentChain, MerkleRoot(h, ids)));
    SizeFits(height);
    BranchClimbs(h, ids, 0);
    BranchClimbs(h, blocks, slot);
    BranchHeight(h, blocks, slot);
    FullHeight(height);
    hide Pow2, Climb, Branch, MerkleRoot, Height, CommittingScript, Little32, BigEndian, OccursAt, ExpectedIndex, Check;
    ScriptParts(prefix, root, Pow2(height), nonce, suffix);
    assert CommitsAt(tx.vin[0], BigEndian(root), height, slot, chainId, |prefix| + 4);
    assert Commitment(h, proof, blocks[slot]) == BigEndian(root);
    ValidIff(h, id, proof, blocks[slot], chainId, strict);
  }

  lemma SizeFits(height: nat)
    requires height <= 30
    ensures Pow2(height) < TWO_32
  {
    Pow2Word();
    Pow2Less(height, 32);
  }

  // ---------------------------------------------------------------- one piece of work, one block

  /** Valid proofs with the same coinbase script and the commitment at the same offset. */
  lemma SameOffsetSameBlock(h: Combine, id: Tx -> Hash, a: AuxPow, hashA: Hash, strictA: bool,
                            b: AuxPow, hashB: Hash, strictB: bool, chainId: int) returns (p: Pair, q: Pair)
    requires Check(h, id, a, hashA, chainId, strictA) == Valid && Check(h, id, b, hashB, chainId, strictB) == Valid
    requires a.tx.vin[0] == b.tx.vin[0] && Offset(h, a, hashA) == Offset(h, b, hashB)
    ensures hashA == hashB || Collision(h, p, q)
  {
    p, q := Pair(hashA, hashA), Pair(hashA, hashA);
    var script, pc := a.tx.vin[0], Offset(h, a, hashA);
    assert script[pc..pc + 32] == Commitment(h, a, hashA) == Commitment(h, b, hashB);
    BigEndianInjective(BranchRoot(h, hashA, a.vChainMerkleBranch, a.nChainIndex),
                       BranchRoot(h, hashB, b.vChainMerkleBranch, b.nChainIndex));
    SameHeight(|a.vChainMerkleBranch|, |b.vChainMerkleBranch|);
    if hashA != hashB {
      var c := ClimbCollision(h, hashA, a.vChainMerkleBranch, hashB, b.vChainMerkleBranch, a.nChainIndex);
      p, q := c.0, c.1;
    }
  }

  lemma SameHeight(a: nat, b: nat)
    requires Pow2(a) == Pow2(b)
    ensures a == b
  {
    if a < b {
      Pow2Less(a, b);
    } else if b < a {
      Pow2Less(b, a);
    }
  }

  /** With the merged-mining header in the script, two valid proofs for one chain are for one block. */
  lemma SameCoinbaseSameBlock(h: Combine, id: Tx -> Hash, a: AuxPow, hashA: Hash, strictA: bool,
                              b: AuxPow, hashB: Hash, strictB: bool, chainId: int) returns (p: Pair, q: Pair)
    requires Check(h, id, a, hashA, chainId, strictA) == Valid && Check(h, id, b, hashB, chainId, strictB) == Valid
    requires a.tx.vin[0] == b.tx.vin[0]
    requires exists k :: OccursAt(a.tx.vin[0], MERGED_MINING_HEADER, k)
    ensures hashA == hashB || Collision(h, p, q)
  {
    p, q := SameOffsetSameBlock(h, id, a, hashA, strictA, b, hashB, strictB, chainId);
  }

  /** Without the header the commitment starts within the first 21 positions. */
  lemma WithoutHeaderEarly(h: Combine, id: Tx -> Hash, a: AuxPow, hashA: Hash, strict: bool, chainId: int)
    requires Check(h, id, a, hashA, chainId, strict) == Valid
    requires forall k :: !OccursAt(a.tx.vin[0], MERGED_MINING_HEADER, k)
    ensures Offset(h, a, hashA) <= 20
  {
  }

  /** So at most 21 blocks can share a coinbase script: of 22 valid proofs with one script and no header, two are for
      the same block, or a collision is exhibited. */
  lemma AtMost21PerScript(h: Combine, id: Tx -> Hash, proofs: seq<AuxPow>, hashes: seq<Hash>, strict: seq<bool>,
                          chainId: int,
                          script: Script) returns (i: nat, j: nat, p: Pair, q: Pair)
    requires |proofs| == |hashes| == |strict| >= 22
    requires forall k :: 0 <= k < |proofs| ==> Check(h, id, proofs[k], hashes[k], chainId, strict[k]) == Valid
    requires forall k :: 0 <= k < |proofs| ==> proofs[k].tx.vin != [] && proofs[k].tx.vin[0] == script
    requires forall k :: !OccursAt(script, MERGED_MINING_HEADER, k)
    ensures i < j < |hashes| && (hashes[i] == hashes[j] || Collision(h, p, q))
  {
    hide Check, OccursAt, Collision, Offset;
    var offsets := seq(|proofs|, k requires 0 <= k < |proofs| => Offset(h, proofs[k], hashes[k]));
    forall k | 0 <= k < |offsets| ensures 0 <= offsets[k] < 21 {
      WithoutHeaderEarly(h, id, proofs[k], hashes[k], strict[k], chainId);
    }
    i, j := Sets.Pigeonhole(offsets, 21);
    p, q := SameOffsetSameBlock(h, id, proofs[i], hashes[i], strict[i], proofs[j], hashes[j], strict[j], chainId);
  }

  /** One parent block with the header in its coinbase proves at most one of our blocks, or a collision of nodes or of
      ids is exhibited, or, if the coinbases are looked for at different depths, a transaction whose id is that of an
      inner node. */
  lemma SameParentSameBlock(h: Combine, id: Tx -> Hash, a: AuxPow, hashA: Hash, strictA: bool,
                            b: AuxPow, hashB: Hash, strictB: bool, chainId: int) returns (p: Pair, q: Pair)
    requires Check(h, id, a, hashA, chainId, strictA) == Valid && Check(h, id, b, hashB, chainId, strictB) == Valid
    requires a.parent.hashMerkleRoot == b.parent.hashMerkleRoot
    requires exists k :: OccursAt(a.tx.vin[0], MERGED_MINING_HEADER, k)
    ensures || hashA == hashB || Collision(h, p, q) || (a.tx != b.tx && id(a.tx) == id(b.tx))
            || (|a.vMerkleBranch| != |b.vMerkleBranch| && (id(a.tx) == h(p) || id(b.tx) == h(p)))
  {
    if a.tx == b.tx {
      p, q := SameCoinbaseSameBlock(h, id, a, hashA, strictA, b, hashB, strictB, chainId);
    } else if id(a.tx) != id(b.tx) {
      hide Climb, OccursAt;
      if |a.vMerkleBranch| <= |b.vMerkleBranch| {
        p, q := Meeting(h, id(a.tx), a.vMerkleBranch, id(b.tx), b.vMerkleBranch);
      } else {
        p, q := Meeting(h, id(b.tx), b.vMerkleBranch, id(a.tx), a.vMerkleBranch);
      }
    } else {
      p, q := Pair(hashA, hashA), Pair(hashA, hashA);
    }
  }

  /** Two leftmost leaves at any depths under one root. */
  lemma Meeting(h: Combine, x: Hash, xs: seq<Hash>, y: Hash, ys: seq<Hash>) returns (p: Pair, q: Pair)
    requires x != y && |xs| <= |ys| && Climb(h, x, xs, 0) == Climb(h, y, ys, 0)
    ensures Collision(h, p, q) || (|xs| < |ys| && x == h(p))
  {
    var k := |ys| - |xs|;
    ClimbSplit(h, y, ys, k);
    var node := Climb(h, y, ys[..k], 0);
    if x != node {
      var c := ClimbCollision(h, x, xs, node, ys[k..], 0);
      p, q := c.0, c.1;
    } else {
      assert k > 0;
      p := ClimbLast(h, y, ys[..k]);
      q := p;
    }
  }

  lemma {:induction false} ClimbSplit(h: Combine, leaf: Hash, branch: seq<Hash>, k: nat)
    requires k <= |branch|
    ensures Climb(h, leaf, branch, 0) == Climb(h, Climb(h, leaf, branch[..k], 0), branch[k..], 0)
    decreases k
  {
    if k == 0 {
      assert branch[0..] == branch;
    } else {
      var next := h(Level(leaf, branch[0], 0));
      ClimbSplit(h, next, branch[1..], k - 1);
      assert branch[..k][1..] == branch[1..][..k - 1] && branch[1..][k - 1..] == branch[k..];
    }
  }

  /** The end of a climb is the hash of two nodes. */
  lemma {:induction false} ClimbLast(h: Combine, leaf: Hash, branch: seq<Hash>) returns (p: Pair)
    requires branch != []
    ensures Climb(h, leaf, branch, 0) == h(p)
    decreases |branch|
  {
    var level := Level(leaf, branch[0], 0);
    if |branch| == 1 {
      p := level;
    } else {
      p := ClimbLast(h, h(level), branch[1..]);
    }
  }

  // ---------------------------------------------------------------- initAuxPow

  /** The smallest proof for a block: a parent block with nothing but a coinbase. The Merkle root of a
      one-transaction block is that transaction's id. */
  function InitAuxPow(id: Tx -> Hash, blockHash: Hash, rest: seq<Byte>): AuxPow {
    var tx := Tx([InitScript(blockHash)], rest);
    AuxPow(tx, [], 0, [], 0, ParentHeader(0, id(tx)))
  }

  function InitScript(blockHash: Hash): Script {
    [40] + BigEndian(blockHash) + [1, 0, 0, 0, 0, 0, 0, 0]
  }

  lemma HeaderInInit(blockHash: Hash, k: int)
    ensures OccursAt(InitScript(blockHash), MERGED_MINING_HEADER, k) <==>
            OccursAt(BigEndian(blockHash), MERGED_MINING_HEADER, k - 1)
  {
    var script, rev := InitScript(blockHash), BigEndian(blockHash);
    assert forall i :: 1 <= i <= 32 ==> script[i] == rev[i - 1];
    if OccursAt(script, MERGED_MINING_HEADER, k) {
      assert script[k..k + 4][0] == script[k] && script[k..k + 4][3] == script[k + 3];
      assert 1 <= k && k + 3 <= 32;
      assert script[k..k + 4] == rev[k - 1..k + 3];
    }
    if OccursAt(rev, MERGED_MINING_HEADER, k - 1) {
      assert script[k..k + 4] == rev[k - 1..k + 3];
    }
  }

  lemma RootInInit(blockHash: Hash)
    ensures OccursAt(InitScript(blockHash), BigEndian(blockHash), 1)
    ensures OccursAt(InitScript(blockHash), BigEndian(blockHash), 0) <==>
              forall i :: 0 <= i < 32 ==> BigEndian(blockHash)[i] == 40
  {
    var script, rev := InitScript(blockHash), BigEndian(blockHash);
    assert script[1..33] == rev;
    if OccursAt(script, rev, 0) {
      forall j: nat | j < 32 ensures rev[j] == 40 {
        AllPush(blockHash, j);
      }
    }
    if forall i :: 0 <= i < 32 ==> BigEndian(blockHash)[i] == 40 {
      assert script[0..32] == rev;
    }
  }

  lemma {:induction false} AllPush(blockHash: Hash, j: nat)
    requires OccursAt(InitScript(blockHash), BigEndian(blockHash), 0) && j < 32
    ensures BigEndian(blockHash)[j] == 40
  {
    var script, rev := InitScript(blockHash), BigEndian(blockHash);
    assert rev[j] == script[0..32][j] == script[j];
    if j > 0 {
      AllPush(blockHash, j - 1);
      assert script[j] == rev[j - 1];
    }
  }

  /** It passes the check unless our chain id is the parent's zero and that is forbidden, or the block hash
      happens to contain the merged-mining header or to consist of the push opcode's byte only. */
  lemma InitAuxPowValid(h: Combine, id: Tx -> Hash, blockHash: Hash, rest: seq<Byte>, chainId: int, strict: bool)
    ensures Check(h, id, InitAuxPow(id, blockHash, rest), blockHash, chainId, strict) == Valid <==>
            && !(strict && chainId == 0)
            && (forall k :: !OccursAt(BigEndian(blockHash), MERGED_MINING_HEADER, k))
            && (exists i :: 0 <= i < 32 && BigEndian(blockHash)[i] != 40)
  {
    var a := InitAuxPow(id, blockHash, rest);
    assert Commitment(h, a, blockHash) == BigEndian(blockHash);
    InitScriptValid(blockHash, chainId);
    hide CheckScript, OccursAt;
  }

  /** A block hash that ends in the header: the minimal proof is refused. */
  lemma HashWithHeader(h: Combine, id: Tx -> Hash, rest: seq<Byte>, chainId: int, strict: bool)
    ensures Check(h, id, InitAuxPow(id, 0xfabe6d6d, rest), 0xfabe6d6d, chainId, strict) != Valid
  {
    HeaderAtEnd();
    hide Check, InitAuxPow, OccursAt, BigEndian;
    InitAuxPowValid(h, id, 0xfabe6d6d, rest, chainId, strict);
  }

  lemma HeaderAtEnd()
    ensures OccursAt(BigEndian(0xfabe6d6d), MERGED_MINING_HEADER, 28)
  {
    hide Bytes;
    BytesStep(0xfabe6d6d, 32);
    BytesStep(0xfabe6d, 31);
    BytesStep(0xfabe, 30);
    BytesStep(0xfa, 29);
    var low, all := Bytes(0xfabe6d6d, 32), BigEndian(0xfabe6d6d);
    assert low == [0x6d, 0x6d, 0xbe, 0xfa] + Bytes(0, 28);
    assert all[28] == low[3] && all[29] == low[2] && all[30] == low[1] && all[31] == low[0];
    assert all[28..32] == MERGED_MINING_HEADER;
  }

  lemma BytesStep(x: nat, k: nat)
    requires k > 0
    ensures Bytes(x, k) == [x % 256] + Bytes(x / 256, k - 1)
  {
  }

  lemma InitScriptValid(blockHash: Hash, chainId: int)
    ensures CheckScript(InitScript(blockHash), BigEndian(blockHash), 0, 0, chainId) == Valid <==>
            && (forall k :: !OccursAt(BigEndian(blockHash), MERGED_MINING_HEADER, k))
            && (exists i :: 0 <= i < 32 && BigEndian(blockHash)[i] != 40)
  {
    var script, rev := InitScript(blockHash), BigEndian(blockHash);
    var head, pc := Search(script, MERGED_MINING_HEADER, 0), Search(script, rev, 0);
    RootInInit(blockHash);
    assert pc == if OccursAt(script, rev, 0) then 0 else 1;
    if head < |script| {
      HeaderInInit(blockHash, head);
    } else {
      forall k ensures !OccursAt(rev, MERGED_MINING_HEADER, k) {
        HeaderInInit(blockHash, k + 1);
      }
      InitSizeAndNonce(blockHash);
    }
    hide OccursAt, BigEndian, InitScript;
  }

  /** Behind the commitment stand size one and nonce zero; one byte earlier there is no valid size. */
  lemma InitSizeAndNonce(blockHash: Hash)
    ensures |InitScript(blockHash)| == 41
    ensures Little32(InitScript(blockHash), 33) == 1 && Little32(InitScript(blockHash), 37) == 0
    ensures (forall i :: 0 <= i < 32 ==> BigEndian(blockHash)[i] == 40) ==> Little32(InitScript(blockHash), 32) != 1
  {
    assert InitScript(blockHash)[32] == BigEndian(blockHash)[31];
  }
}
