/** What becomes of a package that failed: a second look at stale totals, and a fresh look at a fuller block. */
module PackageRetry {
  import opened Mempool
  import opened PackageTracking
  import opened FeeRates
  import opened BlockSelection
  import Sets

  /** When the block grows from b to c, what it takes from a package it gains, and more. */
  lemma TotalMoves(pool: Pool, b: set<Tx>, c: set<Tx>, t: Tx, w: Tx -> int)
    requires Acyclic(pool) && t in pool && b <= c && Natural(w)
    ensures Total(w, c) == Total(w, b) + Total(w, c - b)
    ensures Total(w, Remaining(pool, c, t)) == Total(w, Remaining(pool, b, t)) - Total(w, Package(pool, t) * (c - b))
    ensures 0 <= Total(w, Package(pool, t) * (c - b)) <= Total(w, c - b)
  {
    var a, p := c - b, Package(pool, t);
    hide Acyclic, Total, Package;
    TotalUnion(w, b, a);
    assert b + a == c;
    TotalMinus(w, p - b, a);
    assert Remaining(pool, c, t) == p - b - a;
    assert (p - b) * a == p * a;
    TotalUnion(w, p * a, a - p);
    TotalNatural(w, a - p);
    TotalNatural(w, p * a);
    assert p * a + (a - p) == a;
  }

  lemma Naturals(pool: Pool)
    ensures Natural(Size(pool)) && Natural(Weight(pool)) && Natural(SigOps(pool)) && Natural(Serialized(pool))
  {
  }

  /** What rules a package out other than weight and sigops still does when the block has grown. */
  lemma UnsuitedStays(pool: Pool, rules: Rules, b: set<Tx>, c: set<Tx>, t: Tx)
    requires Acyclic(pool) && t in pool && b <= c <= pool.Keys && Unsuited(pool, rules, b, t)
    requires forall u :: u in c ==> Admissible(pool[u], rules.includeWitness)
    ensures Unsuited(pool, rules, c, t)
  {
    if u :| u in Remaining(pool, b, t) && u in pool && !Admissible(pool[u], rules.includeWitness) {
      hide Acyclic, Total, Package;
      assert u in Remaining(pool, c, t);
    } else {
      Naturals(pool);
      hide Acyclic, Total, Remaining, Admissible, Natural, Serialized;
      TotalMoves(pool, b, c, t, Serialized(pool));
    }
  }

  // ---------------------------------------------------------------- a second look

  /** A package that failed would fail again if it were met in the pool's own order, where only the cached totals
      of the whole package are known. */
  lemma RetryFails(pool: Pool, rules: Rules, b: set<Tx>, c: set<Tx>, t: Tx, size: int, sigops: int)
    requires Acyclic(pool) && t in pool && b <= c <= pool.Keys
    requires forall u :: u in c ==> Admissible(pool[u], rules.includeWitness)
    requires size <= pool[t].sizeWithAncestors && sigops <= pool[t].sigopsWithAncestors
    requires TestsFail(pool, rules, b, t, size, sigops)
    ensures TestsFail(pool, rules, c, t, pool[t].sizeWithAncestors, pool[t].sigopsWithAncestors)
  {
    Naturals(pool);
    if Unsuited(pool, rules, b, t) {
      UnsuitedStays(pool, rules, b, c, t);
    } else {
      hide Acyclic, Total, Admissible, Unsuited, Natural, Weight, SigOps;
      TotalMoves(pool, b, c, t, Weight(pool));
      TotalMoves(pool, b, c, t, SigOps(pool));
    }
  }

  /** The records of the package loop are within those bounds. */
  lemma FailedFailsAgain(pool: Pool, rules: Rules, b: set<Tx>, m: map<Tx, Modified>, makers: map<Tx, Tx>,
                         failed: set<Tx>,
                         c: set<Tx>, t: Tx)
    requires ValidPool(pool) && Tracked(pool, b, m, makers, failed) && t in pool && t !in b && b <= c <= pool.Keys
    requires forall u :: u in c ==> Admissible(pool[u], rules.includeWitness)
    requires var r := Recorded(pool, m, t); TestsFail(pool, rules, b, t, r.size, r.sigops)
    ensures TestsFail(pool, rules, c, t, pool[t].sizeWithAncestors, pool[t].sigopsWithAncestors)
  {
    RecordedOk(pool, b, m, makers, failed, t);
    var r := Recorded(pool, m, t);
    hide ValidPool, Acyclic, Tracked, Total, Remaining, TestsFail, Admissible, Recorded;
    RetryFails(pool, rules, b, c, t, r.size, r.sigops);
  }

  // ---------------------------------------------------------------- a fresh look

  /** By how much what is left of t's package would overfill a block of b. */
  ghost function Excess(pool: Pool, rules: Rules, b: set<Tx>, t: Tx): int
    requires Acyclic(pool) && t in pool
  {
    4000 + Total(Weight(pool), b) + WITNESS_SCALE_FACTOR * Total(Size(pool), Remaining(pool, b, t)) - rules.maxWeight
  }

  /** By how much the block has grown less than the package was reckoned to take: transactions weigh up to four
      times their virtual size, which is rounded up and counts sigops. */
  ghost function Saving(pool: Pool, b: set<Tx>, c: set<Tx>, t: Tx): int
    requires Acyclic(pool) && t in pool
  {
    WITNESS_SCALE_FACTOR * Total(Size(pool), Package(pool, t) * (c - b)) - Total(Weight(pool), c - b)
  }

  /** Rejected on account of something else than the weight. */
  ghost predicate RejectedOtherwise(pool: Pool, rules: Rules, b: set<Tx>, t: Tx)
    requires Acyclic(pool) && t in pool
  {
    || 400 + Total(SigOps(pool), b) + Total(SigOps(pool), Remaining(pool, b, t)) >= MAX_BLOCK_SIGOPS_COST
    || Unsuited(pool, rules, b, t)
  }

  lemma ExcessMoves(pool: Pool, rules: Rules, b: set<Tx>, c: set<Tx>, t: Tx)
    requires Acyclic(pool) && t in pool && b <= c
    ensures Excess(pool, rules, c, t) == Excess(pool, rules, b, t) - Saving(pool, b, c, t)
  {
    Naturals(pool);
    hide Acyclic, Total, Remaining, Package, Natural, Weight, Size;
    TotalMoves(pool, b, c, t, Weight(pool));
    TotalMoves(pool, b, c, t, Size(pool));
  }

  /** A rejected package fits a fuller block exactly if only its weight was and is against it, and what the block
      has saved on its ancestors exceeds what was too much. */
  lemma StaysRejectedIff(pool: Pool, rules: Rules, b: set<Tx>, c: set<Tx>, t: Tx)
    requires Acyclic(pool) && t in pool && b <= c <= pool.Keys && Rejected(pool, rules, b, t)
    requires forall u :: u in c ==> Admissible(pool[u], rules.includeWitness)
    ensures Rejected(pool, rules, c, t) <==>
            RejectedOtherwise(pool, rules, c, t) || Saving(pool, b, c, t) <= Excess(pool, rules, b, t)
    ensures RejectedOtherwise(pool, rules, b, t) ==> RejectedOtherwise(pool, rules, c, t)
  {
    ExcessMoves(pool, rules, b, c, t);
    Naturals(pool);
    if Unsuited(pool, rules, b, t) {
      UnsuitedStays(pool, rules, b, c, t);
    }
    hide Acyclic, Total, Admissible, Unsuited, Natural, SigOps, Saving, Remaining;
    TotalMoves(pool, b, c, t, SigOps(pool));
  }

  lemma {:induction false} TotalAtLeast(w: Tx -> int, v: Tx -> int, s: set<Tx>)
    requires forall x :: x in s ==> w(x) >= WITNESS_SCALE_FACTOR * v(x)
    ensures Total(w, s) >= WITNESS_SCALE_FACTOR * Total(v, s)
    decreases |s|
  {
    if s != {} {
      Sets.Inhabited(s);
      var x :| x in s;
      TotalWithout(w, s, x);
      TotalWithout(v, s, x);
      TotalAtLeast(w, v, s - {x});
      hide Total;
    }
  }

  /** Nothing is saved on ancestors that weigh four times their size, whatever else went in. */
  lemma RejectedStays(pool: Pool, rules: Rules, b: set<Tx>, c: set<Tx>, t: Tx)
    requires Acyclic(pool) && t in pool && b <= c <= pool.Keys && Rejected(pool, rules, b, t)
    requires forall u :: u in c ==> Admissible(pool[u], rules.includeWitness)
    requires forall u :: u in Package(pool, t) * (c - b) ==> pool[u].weight >= WITNESS_SCALE_FACTOR * pool[u].size
    ensures Rejected(pool, rules, c, t)
  {
    StaysRejectedIff(pool, rules, b, c, t);
    TotalAtLeast(Weight(pool), Size(pool), Package(pool, t) * (c - b));
    Naturals(pool);
    TotalMoves(pool, b, c, t, Weight(pool));
    hide Acyclic, Total, Admissible, Package, Remaining, Unsuited, Natural, Weight, Size;
  }

  // A parent whose weight is not a multiple of four, and its child.
  const ROUNDED := Entry({}, 100, 397, 0, 100, 100, 0, true, false, 1, 100, 0, 100)
  const EVEN := Entry({1}, 100, 400, 0, 100, 100, 0, true, false, 2, 200, 0, 200)

  function Couple(): Pool {
    map[1 := ROUNDED, 2 := EVEN]
  }

  lemma CoupleAncestors()
    ensures Acyclic(Couple()) && Ancestors(Couple(), 1) == {} && Ancestors(Couple(), 2) == {1}
  {
    assert forall a :: !Above(Couple(), a, 1);
    assert forall a :: Above(Couple(), a, 2) <==> a == 1;
  }

  lemma CoupleSums()
    requires Acyclic(Couple())
    ensures var pool := Couple(); forall t :: t in pool ==>
              && pool[t].sizeWithAncestors == Total(Size(pool), Package(pool, t))
              && pool[t].sigopsWithAncestors == Total(SigOps(pool), Package(pool, t))
              && pool[t].modFeesWithAncestors == Total(ModifiedFee(pool), Package(pool, t))
  {
    CoupleAncestors();
    var pool := Couple();
    assert Package(pool, 1) == {1} && Package(pool, 2) == {1, 2};
    hide Total, Package, Acyclic, Ancestors;
    TotalOne(Size(pool), 1);
    TotalOne(SigOps(pool), 1);
    TotalOne(ModifiedFee(pool), 1);
    TotalTwo(Size(pool), 1, 2);
    TotalTwo(SigOps(pool), 1, 2);
    TotalTwo(ModifiedFee(pool), 1, 2);
  }

  lemma CoupleCounts()
    requires Acyclic(Couple())
    ensures forall t :: t in Couple() ==> Couple()[t].countWithAncestors == |Ancestors(Couple(), t)| + 1
    ensures forall t :: t in Couple() ==>
              Couple()[t].size > 0 && Couple()[t].weight <= WITNESS_SCALE_FACTOR * Couple()[t].size
  {
    CoupleAncestors();
  }

  /** The tests on a package with these totals. */
  lemma CoupleTests(b: set<Tx>, t: Tx, weight: int, size: int)
    requires Acyclic(Couple()) && t in Couple() && b <= Couple().Keys
    requires Total(Weight(Couple()), b) == weight && Total(SigOps(Couple()), b) == 0
    requires Total(Size(Couple()), Remaining(Couple(), b, t)) == size
    requires Total(SigOps(Couple()), Remaining(Couple(), b, t)) == 0
    ensures Rejected(Couple(), Rules(4800, 1000, false, true), b, t) <==> 4000 + weight + 4 * size >= 4800
  {
    hide Total, Acyclic, Remaining;
    assert forall u :: u in Couple() ==> Admissible(Couple()[u], true);
  }

  lemma CoupleTotals()
    requires Acyclic(Couple())
    ensures var pool := Couple();
            && Total(Weight(pool), {}) == 0 && Total(SigOps(pool), {}) == 0
            && Total(Weight(pool), {1}) == 397 && Total(SigOps(pool), {1}) == 0
            && Total(Size(pool), Remaining(pool, {}, 1)) == 100 && Total(SigOps(pool), Remaining(pool, {}, 1)) == 0
            && Total(Size(pool), Remaining(pool, {}, 2)) == 200 && Total(SigOps(pool), Remaining(pool, {}, 2)) == 0
            && Total(Size(pool), Remaining(pool, {1}, 2)) == 100 && Total(SigOps(pool), Remaining(pool, {1}, 2)) == 0
  {
    CoupleAncestors();
    var pool := Couple();
    assert Remaining(pool, {}, 1) == {1} && Remaining(pool, {}, 2) == {1, 2} && Remaining(pool, {1}, 2) == {2};
    hide Total, Remaining, Acyclic, Ancestors, Package;
    TotalEmpty(Weight(pool));
    TotalEmpty(SigOps(pool));
    TotalOne(Weight(pool), 1);
    TotalOne(SigOps(pool), 1);
    TotalOne(SigOps(pool), 2);
    TotalOne(Size(pool), 1);
    TotalOne(Size(pool), 2);
    TotalTwo(Size(pool), 1, 2);
    TotalTwo(SigOps(pool), 1, 2);
  }

  /** With its parent the child does not fit an empty block; the parent alone does; and then so does the child,
      because the parent weighs three units less than four times its rounded size. */
  lemma FitsLater()
    ensures ValidPool(Couple())
    ensures var rules := Rules(4800, 1000, false, true);
            && Rejected(Couple(), rules, {}, 2)
            && !Rejected(Couple(), rules, {}, 1)
            && !Rejected(Couple(), rules, {1}, 2)
  {
    hide *;
    CoupleAncestors();
    CoupleCounts();
    CoupleSums();
    AllValid(Couple());
    CoupleTotals();
    CoupleKeys();
    CoupleTests({}, 2, 0, 200);
    CoupleTests({}, 1, 0, 100);
    CoupleTests({1}, 2, 397, 100);
  }

  lemma CoupleKeys()
    ensures Couple().Keys == {1, 2}
  {
  }
}
