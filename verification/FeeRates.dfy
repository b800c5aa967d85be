/** Fee rates of packages: the ranking of candidates for a block, and the minimum rate it has to pay. */
module FeeRates {
  import opened Mempool
  import opened PackageTracking
  import opened Options
  import Powers
  import Sets

  /** CFeeRate::GetFee: the fee for so many bytes, rounded toward zero but not to zero. */
  function GetFee(satoshisPerK: nat, bytes: nat): int {
    var fee := satoshisPerK * bytes / 1000;
    if fee == 0 && bytes != 0 && satoshisPerK > 0 then 1 else fee
  }

  /** The fee is the rate times the size, rounded down to a satoshi; but whatever has a size pays at least one at a
      positive rate, and nothing is paid otherwise. */
  lemma GetFeeIs(rate: nat, bytes: nat)
    ensures var fee := GetFee(rate, bytes);
            if rate == 0 || bytes == 0 then fee == 0
            else fee >= 1 && rate * bytes < 1000 * fee + 1000 && (fee > 1 ==> 1000 * fee <= rate * bytes)
  {
    if rate == 0 || bytes == 0 {
      assert rate * bytes == 0;
    }
  }

  /** CompareModifiedEntry, and CompareTxMemPoolEntryByAncestorFee, but for the order of equal rates. */
  predicate Better(a: Modified, b: Modified) {
    a.fees * b.size > b.fees * a.size
  }

  /** A positive factor can be cancelled from a comparison. */
  lemma Cancel(a: int, b: int, c: int)
    requires c > 0 && a * c < b * c
    ensures a < b
  {
    if a >= b {
      Powers.MulMono(b, a, c);
    }
  }

  lemma CrossTransitive(f: int, x: int, g: int, y: int, h: int, z: int)
    requires x > 0 && y > 0 && z > 0 && g * x <= f * y && h * y <= g * z
    ensures h * x <= f * z
  {
    Powers.MulMono(g * x, f * y, z);
    Powers.MulMono(h * y, g * z, x);
    assert h * x * y == h * y * x && g * z * x == g * x * z && f * y * z == f * z * y;
    assert (f * z + 1) * y == f * z * y + y;
    Cancel(h * x, f * z + 1, y);
  }

  lemma BetterTransitive(a: Modified, b: Modified, c: Modified)
    requires a.size > 0 && b.size > 0 && c.size > 0
    requires !Better(b, a) && !Better(c, b)
    ensures !Better(c, a)
  {
    CrossTransitive(a.fees, a.size, b.fees, b.size, c.fees, c.size);
  }

  /** What pays less than GetFee asks pays less than the rate. */
  lemma BelowFee(rate: nat, fees: int, bytes: nat)
    requires bytes > 0 && fees < GetFee(rate, bytes)
    ensures 1000 * fees < rate * bytes
  {
    var p := rate * bytes;
    if rate > 0 {
      Powers.MulMono(1, rate, bytes);
    }
    assert 1000 * (p / 1000) <= p;
  }

  /** When the best package pays too little, so does every other. */
  lemma NoneBetter(rate: nat, best: Modified, other: Modified)
    requires best.size > 0 && other.size > 0 && !Better(other, best) && best.fees < GetFee(rate, best.size)
    ensures 1000 * other.fees < rate * other.size
  {
    BelowFee(rate, best.fees, best.size);
    hide GetFee;
    var f, g, x, y := best.fees, other.fees, best.size, other.size;
    Powers.MulMono(1000 * f + 1, rate * x, y);
    assert (1000 * f + 1) * y == 1000 * (f * y) + y;
    assert rate * x * y == rate * y * x && 1000 * (g * x) == 1000 * g * x;
    Cancel(1000 * g, rate * y, x);
  }

  /** t has the best recorded rate in s. */
  ghost predicate Best(pool: Pool, m: map<Tx, Modified>, s: set<Tx>, t: Tx)
    requires s <= pool.Keys
  {
    t in s && forall u :: u in s ==> !Better(Recorded(pool, m, u), Recorded(pool, m, t))
  }

  lemma {:induction false} BestExists(pool: Pool, m: map<Tx, Modified>, s: set<Tx>) returns (t: Tx)
    requires s != {} && s <= pool.Keys && forall u :: u in s ==> Recorded(pool, m, u).size > 0
    ensures Best(pool, m, s, t)
    decreases |s|
  {
    hide Better, Recorded;
    Sets.Inhabited(s);
    var x :| x in s;
    if s == {x} {
      assert !Better(Recorded(pool, m, x), Recorded(pool, m, x)) by { NotBetterItself(Recorded(pool, m, x)); }
      return x;
    }
    var rest := s - {x};
    var y := BestExists(pool, m, rest);
    var rx, ry := Recorded(pool, m, x), Recorded(pool, m, y);
    NotBetterItself(rx);
    if Better(rx, ry) {
      t := x;
      NotBoth(rx, ry);
      forall u | u in s ensures !Better(Recorded(pool, m, u), rx) {
        if u != x {
          assert u in rest;
          BetterTransitive(rx, ry, Recorded(pool, m, u));
        }
      }
    } else {
      t := y;
      forall u | u in s ensures !Better(Recorded(pool, m, u), ry) {
        assert u != x ==> u in rest;
      }
    }
  }

  lemma NotBetterItself(a: Modified)
    ensures !Better(a, a)
  {
  }

  lemma NotBoth(a: Modified, b: Modified)
    ensures Better(a, b) ==> !Better(b, a)
  {
  }

  // ---------------------------------------------------------------- sizes are positive

  lemma PackagePositive(pool: Pool, s: set<Tx>, t: Tx)
    requires ValidPool(pool) && t in pool && t in s
    ensures Total(Size(pool), s) > 0
  {
    TotalWithout(Size(pool), s, t);
    TotalNatural(Size(pool), s - {t});
  }

  lemma RecordedPositive(pool: Pool, inBlock: set<Tx>, m: map<Tx, Modified>, makers: map<Tx, Tx>, failed: set<Tx>,
                         t: Tx)
    requires ValidPool(pool) && Tracked(pool, inBlock, m, makers, failed) && t in pool && t !in inBlock
    ensures Recorded(pool, m, t).size > 0
  {
    RecordedOk(pool, inBlock, m, makers, failed, t);
    PackagePositive(pool, Remaining(pool, inBlock, t), t);
  }

  lemma CachedPositive(pool: Pool, t: Tx)
    requires ValidPool(pool) && t in pool
    ensures Recorded(pool, map[], t).size > 0
  {
    PackagePositive(pool, Package(pool, t), t);
  }

  // ---------------------------------------------------------------- what the recorded fees are

  /** The recorded fees are those of what is left of the package exactly if the deltas of the selected ancestors
      cancel out but for the one that made the record: it took off its modified fee, the others their plain fees. */
  lemma FeesExactIff(pool: Pool, inBlock: set<Tx>, m: map<Tx, Modified>, makers: map<Tx, Tx>, failed: set<Tx>, t: Tx)
    requires Acyclic(pool) && Tracked(pool, inBlock, m, makers, failed) && t in m && t !in failed
    ensures t in pool && t in makers && makers[t] in Ancestors(pool, t) * inBlock
    ensures m[t].fees == Total(ModifiedFee(pool), Remaining(pool, inBlock, t))
            <==> Total(FeeDelta(pool), Ancestors(pool, t) * inBlock - {makers[t]}) == 0
  {
    TrackedAt(pool, inBlock, m, makers, failed, t);
    hide Acyclic, Tracked, Total, Ancestors, Remaining;
  }

  // A transaction, its parent and its grandparent, both of which an operator favours.
  const ELDER := Entry({}, 100, 400, 0, 100, 100, 900, true, false, 1, 100, 0, 1000)
  const MIDDLE := Entry({1}, 100, 400, 0, 100, 100, 900, true, false, 2, 200, 0, 2000)
  const YOUNGEST := Entry({2}, 100, 400, 0, 100, 10, 0, true, false, 3, 300, 0, 2010)

  function Family(): Pool {
    map[1 := ELDER, 2 := MIDDLE, 3 := YOUNGEST]
  }

  lemma FamilyAncestors()
    ensures Acyclic(Family())
    ensures Ancestors(Family(), 1) == {} && Ancestors(Family(), 2) == {1} && Ancestors(Family(), 3) == {1, 2}
  {
    assert forall a :: !Above(Family(), a, 1);
    assert forall a :: Above(Family(), a, 2) <==> a == 1;
    assert forall a :: Above(Family(), a, 3) <==> a == 1 || a == 2;
  }

  lemma TotalTwo(w: Tx -> int, x: Tx, y: Tx)
    requires x != y
    ensures Total(w, {x, y}) == w(x) + w(y)
  {
    TotalOne(w, x);
    TotalWith(w, {x}, y);
    assert {x} + {y} == {x, y};
  }

  lemma TotalThree(w: Tx -> int, x: Tx, y: Tx, z: Tx)
    requires x != y && x != z && y != z
    ensures Total(w, {x, y, z}) == w(x) + w(y) + w(z)
  {
    TotalTwo(w, x, y);
    TotalWith(w, {x, y}, z);
    assert {x, y} + {z} == {x, y, z};
  }

  /** A cached total of the family. */
  lemma FamilyTotals(w: Tx -> int)
    requires Acyclic(Family())
    ensures Total(w, Package(Family(), 1)) == w(1)
    ensures Total(w, Package(Family(), 2)) == w(1) + w(2)
    ensures Total(w, Package(Family(), 3)) == w(1) + w(2) + w(3)
  {
    FamilyAncestors();
    hide Acyclic, Ancestors;
    assert Package(Family(), 1) == {1} && Package(Family(), 2) == {1, 2} && Package(Family(), 3) == {1, 2, 3};
    TotalOne(w, 1);
    TotalTwo(w, 1, 2);
    TotalThree(w, 1, 2, 3);
  }

  lemma FamilySums()
    requires Acyclic(Family())
    ensures var pool := Family(); forall t :: t in pool ==>
              && pool[t].sizeWithAncestors == Total(Size(pool), Package(pool, t))
              && pool[t].sigopsWithAncestors == Total(SigOps(pool), Package(pool, t))
              && pool[t].modFeesWithAncestors == Total(ModifiedFee(pool), Package(pool, t))
  {
    hide Total, Package, Acyclic;
    var pool := Family();
    FamilyTotals(Size(pool));
    FamilyTotals(SigOps(pool));
    FamilyTotals(ModifiedFee(pool));
  }

  lemma FamilyValid()
    ensures ValidPool(Family())
  {
    hide *;
    FamilyAncestors();
    FamilyCounts();
    FamilySums();
    FamilySizes();
    AllValid(Family());
  }

  lemma AllValid(pool: Pool)
    requires Acyclic(pool)
    requires forall t :: t in pool ==> pool[t].countWithAncestors == |Ancestors(pool, t)| + 1
    requires forall t :: t in pool ==>
               && pool[t].sizeWithAncestors == Total(Size(pool), Package(pool, t))
               && pool[t].sigopsWithAncestors == Total(SigOps(pool), Package(pool, t))
               && pool[t].modFeesWithAncestors == Total(ModifiedFee(pool), Package(pool, t))
    requires forall t :: t in pool ==> pool[t].size > 0 && pool[t].weight <= WITNESS_SCALE_FACTOR * pool[t].size
    ensures ValidPool(pool)
  {
  }

  lemma FamilySizes()
    ensures forall t :: t in Family() ==>
              Family()[t].size > 0 && Family()[t].weight <= WITNESS_SCALE_FACTOR * Family()[t].size
  {
  }

  lemma FamilyCounts()
    requires Acyclic(Family())
    ensures forall t :: t in Family() ==> Family()[t].countWithAncestors == |Ancestors(Family(), t)| + 1
  {
    FamilyAncestors();
    hide Ancestors, Acyclic, Above;
    assert |{1, 2}| == 2 by { assert {1, 2} == {1} + {2}; }
  }

  lemma FamilyUpdated(makers: map<Tx, Tx>)
    requires Acyclic(Family()) && Ancestors(Family(), 3) == {1, 2} && 3 in makers && makers[3] in {1, 2}
    ensures 3 in Updated(Family(), map[], makers, {1, 2}) && Updated(Family(), map[], makers, {1, 2})[3].fees == 910
  {
    hide Total, Ancestors, Acyclic, Updated;
    var pool := Family();
    TotalTwo(BaseFee(pool), 1, 2);
    TotalOne(FeeDelta(pool), makers[3]);
    assert {1, 2} * {1, 2} == {1, 2};
    assert Lookup(Updated(pool, map[], makers, {1, 2}), 3) == UpdatedAt(pool, map[], makers, {1, 2}, {1, 2}, 3);
  }

  /** Parent and grandparent go into the block together. Whichever is accounted for first, the child ranks with the
      favour of the other: alone it pays 10 where 200 are asked for, but 910 are on record. */
  lemma FavourIsInherited(earlier: map<Tx, Tx>, makers: map<Tx, Tx>)
    requires Acyclic(Family()) && Made(Family(), map[], earlier, makers, {1, 2}, {1, 2})
    ensures ValidPool(Family())
    ensures 3 in Updated(Family(), map[], makers, {1, 2}) && Updated(Family(), map[], makers, {1, 2})[3].fees == 910
    ensures Total(ModifiedFee(Family()), Remaining(Family(), {1, 2}, 3)) == 10 < GetFee(2000, 100) == 200
  {
    hide *;
    FamilyValid();
    FamilyAncestors();
    FamilyMaker(earlier, makers);
    FamilyUpdated(makers);
    FamilyLeft();
  }

  lemma FamilyMaker(earlier: map<Tx, Tx>, makers: map<Tx, Tx>)
    requires Acyclic(Family()) && Made(Family(), map[], earlier, makers, {1, 2}, {1, 2})
    requires Ancestors(Family(), 3) == {1, 2}
    ensures 3 in makers && makers[3] in {1, 2}
  {
    assert MadeAt(Family(), map[], earlier, makers, {1, 2}, {1, 2}, 3);
    hide Acyclic, Ancestors, Made;
    assert {1, 2} * {1, 2} == {1, 2};
  }

  lemma FamilyLeft()
    requires Acyclic(Family()) && Ancestors(Family(), 3) == {1, 2}
    ensures Total(ModifiedFee(Family()), Remaining(Family(), {1, 2}, 3)) == 10 < GetFee(2000, 100) == 200
  {
    hide Acyclic, Ancestors, Total;
    assert Remaining(Family(), {1, 2}, 3) == {3};
    TotalOne(ModifiedFee(Family()), 3);
  }
}
