/** Bookkeeping of block assembly: what selecting transactions does to the packages of the others. */
module PackageTracking {
  import opened Mempool
  import opened Options

  /** CTxMemPoolModifiedEntry. */
  datatype Modified = Modified(size: int, sigops: int, fees: int)

  /** A selection is closed if it contains the parents of what it contains. */
  ghost predicate Closed(pool: Pool, s: set<Tx>) {
    forall t :: t in s ==> t in pool && pool[t].parents <= s
  }

  lemma {:induction false} ClosedAbove(pool: Pool, s: set<Tx>, a: Tx, t: Tx)
    requires Acyclic(pool) && Closed(pool, s) && t in s && Above(pool, a, t)
    ensures a in s
    decreases if t in pool then pool[t].countWithAncestors else 0
  {
    if a !in pool[t].parents {
      var p :| p in pool[t].parents && Above(pool, a, p);
      ClosedAbove(pool, s, a, p);
    }
  }

  /** A closed selection contains all ancestors of what it contains. */
  lemma ClosedAncestors(pool: Pool, s: set<Tx>, t: Tx)
    requires Acyclic(pool) && Closed(pool, s) && t in s
    ensures Ancestors(pool, t) <= s
  {
    forall a | a in Ancestors(pool, t) ensures a in s {
      ClosedAbove(pool, s, a, t);
    }
  }

  /** The part of t's package that is not in the block yet. */
  function Remaining(pool: Pool, inBlock: set<Tx>, t: Tx): set<Tx>
    requires Acyclic(pool) && t in pool
  {
    Package(pool, t) - inBlock
  }

  // ---------------------------------------------------------------- UpdatePackagesForAdded

  /** What is recorded for d, or would be recorded when it is first looked at. */
  function Recorded(pool: Pool, m: map<Tx, Modified>, d: Tx): Modified
    requires d in pool
  {
    if d in m then m[d]
    else Modified(pool[d].sizeWithAncestors, pool[d].sigopsWithAncestors, pool[d].modFeesWithAncestors)
  }

  /** The ancestor whose selection made the record of d, if any; `makers` remembers it for every record. */
  function Maker(makers: map<Tx, Tx>, d: Tx): set<Tx> {
    if d in makers then {makers[d]} else {}
  }

  /** The record r without the selected ancestors `gone`. If they are the first it loses, the one that makes the
      record takes its delta with it; the others leave theirs. */
  ghost function Without(pool: Pool, r: Modified, gone: set<Tx>, maker: set<Tx>): Modified {
    Modified(r.size - Total(Size(pool), gone), r.sigops - Total(SigOps(pool), gone),
             r.fees - Total(BaseFee(pool), gone) - Total(FeeDelta(pool), maker))
  }

  /** The record of d after the members of `done` have been accounted for, out of those just `added`. */
  ghost function UpdatedAt(pool: Pool, m: map<Tx, Modified>, makers: map<Tx, Tx>, added: set<Tx>, done: set<Tx>,
                           d: Tx): Option<Modified>
    requires Acyclic(pool)
  {
    if d !in pool || d in added || Ancestors(pool, d) * done == {} then Lookup(m, d)
    else Some(Without(pool, Recorded(pool, m, d), Ancestors(pool, d) * done, if d in m then {} else Maker(makers, d)))
  }

  ghost function Updated(pool: Pool, m: map<Tx, Modified>, makers: map<Tx, Tx>, added: set<Tx>): (r: map<Tx, Modified>)
    requires Acyclic(pool)
    ensures forall d :: Lookup(r, d) == UpdatedAt(pool, m, makers, added, added, d)
  {
    map d | d in pool.Keys + m.Keys && UpdatedAt(pool, m, makers, added, added, d).Some? ::
      UpdatedAt(pool, m, makers, added, added, d).value
  }

  /** A record that was missing has been made by an ancestor among `done`; all other makers are the old ones. */
  ghost predicate MadeAt(pool: Pool, m: map<Tx, Modified>, earlier: map<Tx, Tx>, makers: map<Tx, Tx>, added: set<Tx>,
                         done: set<Tx>, d: Tx)
    requires Acyclic(pool)
  {
    if d in pool && d !in added && d !in m && Ancestors(pool, d) * done != {}
    then d in makers && makers[d] in Ancestors(pool, d) * done
    else Lookup(makers, d) == Lookup(earlier, d)
  }

  ghost predicate Made(pool: Pool, m: map<Tx, Modified>, earlier: map<Tx, Tx>, makers: map<Tx, Tx>, added: set<Tx>,
                       done: set<Tx>)
    requires Acyclic(pool)
  {
    forall d :: MadeAt(pool, m, earlier, makers, added, done, d)
  }

  /** One more ancestor is accounted for. Making the record takes its modified fee off, changing one its plain fee. */
  function Less(pool: Pool, m: map<Tx, Modified>, d: Tx, a: Tx): Modified
    requires d in pool && a in pool
  {
    var r := Recorded(pool, m, d);
    Modified(r.size - pool[a].size, r.sigops - pool[a].sigops,
             r.fees - if d in m then pool[a].fee else pool[a].fee + pool[a].feeDelta)
  }

  lemma LessSame(pool: Pool, m: map<Tx, Modified>, n: map<Tx, Modified>, d: Tx, a: Tx)
    requires d in pool && a in pool && Lookup(m, d) == Lookup(n, d)
    ensures Less(pool, m, d, a) == Less(pool, n, d, a)
  {
  }

  /** All records are as they should be when `done` has been accounted for. */
  ghost predicate UpToDate(pool: Pool, m: map<Tx, Modified>, now: map<Tx, Modified>, makers: map<Tx, Tx>,
                           added: set<Tx>, done: set<Tx>)
    requires Acyclic(pool)
  {
    forall d :: Lookup(now, d) == UpdatedAt(pool, m, makers, added, done, d)
  }

  /** a has been taken off the records of its descendants outside `added`, which were made where missing. */
  ghost predicate Subtracted(pool: Pool, before: map<Tx, Modified>, now: map<Tx, Modified>, added: set<Tx>, a: Tx)
    requires Acyclic(pool) && a in pool
  {
    forall d :: Lookup(now, d) ==
      if d in Descendants(pool, a) && d !in added then Some(Less(pool, before, d, a)) else Lookup(before, d)
  }

  /** a is the maker of the records that were missing. */
  ghost predicate MadeBy(pool: Pool, before: map<Tx, Modified>, earlier: map<Tx, Tx>, makers: map<Tx, Tx>,
                         added: set<Tx>, a: Tx)
    requires Acyclic(pool) && a in pool
  {
    forall d :: Lookup(makers, d) ==
      if d in Descendants(pool, a) && d !in added && d !in before then Some(a) else Lookup(earlier, d)
  }

  lemma WithoutNext(pool: Pool, r: Modified, gone: set<Tx>, maker: set<Tx>, a: Tx)
    requires a in pool && a !in gone
    ensures var w := Without(pool, r, gone, maker);
            Without(pool, r, gone + {a}, maker) ==
              Modified(w.size - pool[a].size, w.sigops - pool[a].sigops, w.fees - pool[a].fee)
  {
    hide Total;
    TotalWith(Size(pool), gone, a);
    TotalWith(SigOps(pool), gone, a);
    TotalWith(BaseFee(pool), gone, a);
  }

  lemma WithoutNone(pool: Pool, r: Modified)
    ensures Without(pool, r, {}, {}) == r
  {
    TotalEmpty(Size(pool));
    TotalEmpty(SigOps(pool));
    TotalEmpty(BaseFee(pool));
    TotalEmpty(FeeDelta(pool));
  }

  /** The ancestor that makes a record takes its delta with it. */
  lemma WithoutFirst(pool: Pool, r: Modified, a: Tx)
    requires a in pool
    ensures Without(pool, r, {a}, {a}) ==
            Modified(r.size - pool[a].size, r.sigops - pool[a].sigops, r.fees - (pool[a].fee + pool[a].feeDelta))
  {
    TotalOne(Size(pool), a);
    TotalOne(SigOps(pool), a);
    TotalOne(BaseFee(pool), a);
    TotalOne(FeeDelta(pool), a);
  }

  /** A record that a changes. */
  lemma UpdatedNext(pool: Pool, m: map<Tx, Modified>, now: map<Tx, Modified>, earlier: map<Tx, Tx>, makers: map<Tx, Tx>,
                    next: map<Tx, Tx>, added: set<Tx>, done: set<Tx>, a: Tx, d: Tx)
    requires Acyclic(pool) && a in pool && a !in done && d in pool && d !in added && a in Ancestors(pool, d)
    requires Lookup(now, d) == UpdatedAt(pool, m, makers, added, done, d)
    requires MadeAt(pool, m, earlier, makers, added, done, d)
    requires Lookup(next, d) == if d !in now then Some(a) else Lookup(makers, d)
    ensures UpdatedAt(pool, m, next, added, done + {a}, d) == Some(Less(pool, now, d, a))
    ensures MadeAt(pool, m, earlier, next, added, done + {a}, d)
  {
    hide Ancestors, Acyclic, Without;
    var anc := Ancestors(pool, d);
    var r := Recorded(pool, m, d);
    assert anc * (done + {a}) == anc * done + {a};
    if anc * done == {} {
      assert anc * (done + {a}) == {a} && {} + {a} == {a};
      if d in m {
        WithoutNone(pool, r);
        WithoutNext(pool, r, {}, {}, a);
      } else {
        WithoutFirst(pool, r, a);
      }
    } else {
      WithoutNext(pool, r, anc * done, if d in m then {} else Maker(makers, d), a);
    }
  }

  lemma UpToDateStart(pool: Pool, m: map<Tx, Modified>, makers: map<Tx, Tx>, added: set<Tx>)
    requires Acyclic(pool)
    ensures UpToDate(pool, m, m, makers, added, {}) && Made(pool, m, makers, makers, added, {})
  {
  }

  lemma UpToDateNext(pool: Pool, m: map<Tx, Modified>, before: map<Tx, Modified>, now: map<Tx, Modified>,
                     earlier: map<Tx, Tx>,
                     makers: map<Tx, Tx>, next: map<Tx, Tx>, added: set<Tx>, done: set<Tx>, a: Tx)
    requires Acyclic(pool) && a in pool && a in added && a !in done
    requires UpToDate(pool, m, before, makers, added, done) && Made(pool, m, earlier, makers, added, done)
    requires Subtracted(pool, before, now, added, a) && MadeBy(pool, before, makers, next, added, a)
    ensures UpToDate(pool, m, now, next, added, done + {a}) && Made(pool, m, earlier, next, added, done + {a})
  {
    forall d
      ensures Lookup(now, d) == UpdatedAt(pool, m, next, added, done + {a}, d)
      ensures MadeAt(pool, m, earlier, next, added, done + {a}, d)
    {
      UpToDateNextAt(pool, m, before, now, earlier, makers, next, added, done, a, d);
    }
  }

  lemma UpToDateNextAt(pool: Pool, m: map<Tx, Modified>, before: map<Tx, Modified>, now: map<Tx, Modified>,
                       earlier: map<Tx, Tx>,
                       makers: map<Tx, Tx>, next: map<Tx, Tx>, added: set<Tx>, done: set<Tx>, a: Tx, d: Tx)
    requires Acyclic(pool) && a in pool && a in added && a !in done
    requires UpToDate(pool, m, before, makers, added, done) && Made(pool, m, earlier, makers, added, done)
    requires Subtracted(pool, before, now, added, a) && MadeBy(pool, before, makers, next, added, a)
    ensures Lookup(now, d) == UpdatedAt(pool, m, next, added, done + {a}, d)
    ensures MadeAt(pool, m, earlier, next, added, done + {a}, d)
  {
    assert Lookup(before, d) == UpdatedAt(pool, m, makers, added, done, d);
    assert MadeAt(pool, m, earlier, makers, added, done, d);
    assert Lookup(now, d) ==
      if d in Descendants(pool, a) && d !in added then Some(Less(pool, before, d, a)) else Lookup(before, d);
    assert Lookup(next, d) ==
      if d in Descendants(pool, a) && d !in added && d !in before then Some(a) else Lookup(makers, d);
    if d in pool && d !in added && a in Ancestors(pool, d) {
      UpdatedNext(pool, m, before, earlier, makers, next, added, done, a, d);
    } else if d in pool && d !in added {
      assert d !in Descendants(pool, a);
      assert Ancestors(pool, d) * (done + {a}) == Ancestors(pool, d) * done;
    }
  }

  lemma UpToDateEnd(pool: Pool, m: map<Tx, Modified>, now: map<Tx, Modified>, makers: map<Tx, Tx>, added: set<Tx>)
    requires Acyclic(pool) && UpToDate(pool, m, now, makers, added, added)
    ensures now == Updated(pool, m, makers, added)
  {
    SameLookups(now, Updated(pool, m, makers, added));
  }

  // ---------------------------------------------------------------- the records stay right

  /** The fees recorded for t when its selected ancestors have been accounted for: those of what is left of its
      package, with the deltas of the selected ancestors but the one that made the record. */
  ghost function FeesLeft(pool: Pool, inBlock: set<Tx>, makers: map<Tx, Tx>, t: Tx): int
    requires Acyclic(pool) && t in pool
  {
    Total(ModifiedFee(pool), Remaining(pool, inBlock, t)) +
    Total(FeeDelta(pool), Ancestors(pool, t) * inBlock - Maker(makers, t))
  }

  /** The record of an unselected entry never under-counts what is left of its package, and never exceeds the
      cached totals; it is exact unless the entry failed before and was re-inserted. */
  ghost predicate RecordOk(pool: Pool, inBlock: set<Tx>, makers: map<Tx, Tx>, failed: set<Tx>, t: Tx, r: Modified)
    requires Acyclic(pool)
  {
    && t in pool && t !in inBlock
    && Total(Size(pool), Remaining(pool, inBlock, t)) <= r.size <= pool[t].sizeWithAncestors
    && Total(SigOps(pool), Remaining(pool, inBlock, t)) <= r.sigops <= pool[t].sigopsWithAncestors
    && (t !in failed ==> r.size == Total(Size(pool), Remaining(pool, inBlock, t)))
    && (t !in failed ==> r.sigops == Total(SigOps(pool), Remaining(pool, inBlock, t)))
    && (t !in failed ==> r.fees == FeesLeft(pool, inBlock, makers, t))
  }

  /** t has no selected ancestor, or one of them made its record. */
  ghost predicate MakerOk(pool: Pool, inBlock: set<Tx>, makers: map<Tx, Tx>, t: Tx)
    requires Acyclic(pool) && t in pool
  {
    Ancestors(pool, t) * inBlock == {} || (t in makers && makers[t] in Ancestors(pool, t) * inBlock)
  }

  /** All records are right, and an entry with a selected ancestor has a record or has failed. */
  ghost predicate Tracked(pool: Pool, inBlock: set<Tx>, m: map<Tx, Modified>, makers: map<Tx, Tx>, failed: set<Tx>)
    requires Acyclic(pool)
  {
    && (forall t :: t in m ==> RecordOk(pool, inBlock, makers, failed, t, m[t]))
    && (forall t :: t in m && t in pool && t !in failed ==>
          Ancestors(pool, t) * inBlock != {} && MakerOk(pool, inBlock, makers, t))
    && (forall t :: t in pool && t !in inBlock && t !in m && t !in failed ==> Ancestors(pool, t) * inBlock == {})
  }

  lemma TrackedAt(pool: Pool, inBlock: set<Tx>, m: map<Tx, Modified>, makers: map<Tx, Tx>, failed: set<Tx>, t: Tx)
    requires Acyclic(pool) && Tracked(pool, inBlock, m, makers, failed) && t in m
    ensures RecordOk(pool, inBlock, makers, failed, t, m[t]) && t in pool
    ensures t !in failed ==>
              t in makers && makers[t] in Ancestors(pool, t) * inBlock && MakerOk(pool, inBlock, makers, t)
  {
    assert RecordOk(pool, inBlock, makers, failed, t, m[t]);
  }

  lemma TrackedMissing(pool: Pool, inBlock: set<Tx>, m: map<Tx, Modified>, makers: map<Tx, Tx>, failed: set<Tx>, t: Tx)
    requires Acyclic(pool) && Tracked(pool, inBlock, m, makers, failed) && t in pool && t !in inBlock && t !in m
    ensures t !in failed ==> Ancestors(pool, t) * inBlock == {} && MakerOk(pool, inBlock, makers, t)
  {
  }

  lemma RemainingLess(pool: Pool, inBlock: set<Tx>, added: set<Tx>, t: Tx, w: Tx -> int)
    requires Acyclic(pool) && t in pool && t !in added && added !! inBlock
    ensures Total(w, Remaining(pool, inBlock + added, t)) ==
            Total(w, Remaining(pool, inBlock, t)) - Total(w, Ancestors(pool, t) * added)
  {
    var rem := Remaining(pool, inBlock, t);
    TotalMinus(w, rem, added);
    assert Remaining(pool, inBlock + added, t) == rem - added;
    assert rem * added == Ancestors(pool, t) * added;
  }

  /** A full cached total is exact while no ancestor is selected, and never too small. */
  lemma CacheOk(pool: Pool, inBlock: set<Tx>, t: Tx, w: Tx -> int)
    requires Acyclic(pool) && t in pool && t !in inBlock && Natural(w)
    ensures Total(w, Package(pool, t)) >= Total(w, Remaining(pool, inBlock, t))
    ensures Ancestors(pool, t) * inBlock == {} ==> Total(w, Package(pool, t)) == Total(w, Remaining(pool, inBlock, t))
  {
    TotalMinus(w, Package(pool, t), inBlock);
    TotalNatural(w, Package(pool, t) * inBlock);
    if Ancestors(pool, t) * inBlock == {} {
      assert Remaining(pool, inBlock, t) == Package(pool, t);
    }
  }

  lemma FeesCached(pool: Pool, inBlock: set<Tx>, makers: map<Tx, Tx>, t: Tx)
    requires Acyclic(pool) && t in pool && t !in inBlock && Ancestors(pool, t) * inBlock == {}
    ensures FeesLeft(pool, inBlock, makers, t) == Total(ModifiedFee(pool), Package(pool, t))
  {
    TotalEmpty(FeeDelta(pool));
    assert Remaining(pool, inBlock, t) == Package(pool, t);
    assert Ancestors(pool, t) * inBlock - Maker(makers, t) == {};
  }

  /** Selecting further ancestors takes their fees off what is left, and not their deltas. */
  lemma FeesLess(pool: Pool, inBlock: set<Tx>, makers: map<Tx, Tx>, added: set<Tx>, t: Tx)
    requires Acyclic(pool) && t in pool && t !in added && added !! inBlock && Maker(makers, t) <= inBlock
    ensures FeesLeft(pool, inBlock + added, makers, t) ==
            FeesLeft(pool, inBlock, makers, t) - Total(BaseFee(pool), Ancestors(pool, t) * added)
  {
    RemainingLess(pool, inBlock, added, t, ModifiedFee(pool));
    hide Total, Remaining, Ancestors;
    var anc, maker := Ancestors(pool, t), Maker(makers, t);
    ModifiedFees(pool, anc * added);
    TotalUnion(FeeDelta(pool), anc * inBlock - maker, anc * added);
    assert anc * (inBlock + added) - maker == anc * inBlock - maker + anc * added;
  }

  /** Of the first ancestors that are selected, the maker of the record takes its delta with it. */
  lemma FeesFirst(pool: Pool, inBlock: set<Tx>, makers: map<Tx, Tx>, added: set<Tx>, t: Tx)
    requires Acyclic(pool) && t in pool && t !in inBlock + added && added !! inBlock
    requires Ancestors(pool, t) * inBlock == {}
    requires t in makers && makers[t] in Ancestors(pool, t) * added
    ensures FeesLeft(pool, inBlock + added, makers, t) ==
            Total(ModifiedFee(pool), Package(pool, t)) - Total(BaseFee(pool), Ancestors(pool, t) * added)
            - Total(FeeDelta(pool), Maker(makers, t))
  {
    RemainingLess(pool, inBlock, added, t, ModifiedFee(pool));
    assert Remaining(pool, inBlock, t) == Package(pool, t);
    hide Total, Remaining, Ancestors, Package;
    var anc := Ancestors(pool, t);
    ModifiedFees(pool, anc * added);
    TotalMinus(FeeDelta(pool), anc * added, Maker(makers, t));
    assert anc * (inBlock + added) == anc * added;
    assert anc * added * Maker(makers, t) == Maker(makers, t);
  }

  lemma RecordedOk(pool: Pool, inBlock: set<Tx>, m: map<Tx, Modified>, makers: map<Tx, Tx>, failed: set<Tx>, t: Tx)
    requires ValidPool(pool) && Tracked(pool, inBlock, m, makers, failed) && t in pool && t !in inBlock
    ensures RecordOk(pool, inBlock, makers, failed, t, Recorded(pool, m, t))
    ensures t !in failed ==> MakerOk(pool, inBlock, makers, t) && (t in m <==> Ancestors(pool, t) * inBlock != {})
  {
    assert Acyclic(pool);
    hide *;
    if t in m {
      TrackedAt(pool, inBlock, m, makers, failed, t);
      RecordedIn(pool, m, t);
    } else {
      TrackedMissing(pool, inBlock, m, makers, failed, t);
      CachedOk(pool, inBlock, m, makers, failed, t);
    }
  }

  lemma RecordedIn(pool: Pool, m: map<Tx, Modified>, t: Tx)
    requires t in pool && t in m
    ensures Recorded(pool, m, t) == m[t]
  {
  }

  lemma CachedOk(pool: Pool, inBlock: set<Tx>, m: map<Tx, Modified>, makers: map<Tx, Tx>, failed: set<Tx>, t: Tx)
    requires ValidPool(pool) && Acyclic(pool) && t in pool && t !in inBlock && t !in m
    requires t !in failed ==> Ancestors(pool, t) * inBlock == {}
    ensures RecordOk(pool, inBlock, makers, failed, t, Recorded(pool, m, t))
  {
    WeightsNatural(pool);
    hide ValidPool, Acyclic, Ancestors, Package, Remaining, Total, FeesLeft, Size, SigOps, ModifiedFee, Natural;
    CachedAt(pool, t);
    CacheOk(pool, inBlock, t, Size(pool));
    CacheOk(pool, inBlock, t, SigOps(pool));
    if t !in failed {
      FeesCached(pool, inBlock, makers, t);
    }
  }

  lemma WeightsNatural(pool: Pool)
    ensures Natural(Size(pool)) && Natural(SigOps(pool))
  {
  }

  lemma CachedAt(pool: Pool, t: Tx)
    requires ValidPool(pool) && t in pool
    ensures pool[t].sizeWithAncestors == Total(Size(pool), Package(pool, t))
    ensures pool[t].sigopsWithAncestors == Total(SigOps(pool), Package(pool, t))
    ensures pool[t].modFeesWithAncestors == Total(ModifiedFee(pool), Package(pool, t))
  {
  }

  /** Selecting a set of entries, dropping their records and updating the others keeps all records right. */
  lemma UpdatedTracked(pool: Pool, inBlock: set<Tx>, m: map<Tx, Modified>, earlier: map<Tx, Tx>, makers: map<Tx, Tx>,
                       failed: set<Tx>,
                       added: set<Tx>)
    requires ValidPool(pool) && Closed(pool, inBlock) && Tracked(pool, inBlock, m, earlier, failed) && added !! inBlock
    requires Made(pool, m - added, earlier, makers, added, added)
    ensures Tracked(pool, inBlock + added, Updated(pool, m - added, makers, added), makers, failed)
  {
    var u, both := Updated(pool, m - added, makers, added), inBlock + added;
    forall t | t in u
      ensures RecordOk(pool, both, makers, failed, t, u[t])
      ensures t in pool && t !in failed ==> Ancestors(pool, t) * both != {} && MakerOk(pool, both, makers, t)
    {
      UpdatedRecord(pool, inBlock, m, earlier, makers, failed, added, t);
    }
    forall t | t in pool && t !in both && t !in u && t !in failed ensures Ancestors(pool, t) * both == {} {
      UpdatedMissing(pool, inBlock, m, earlier, makers, failed, added, t);
    }
  }

  lemma UpdatedMissing(pool: Pool, inBlock: set<Tx>, m: map<Tx, Modified>, earlier: map<Tx, Tx>, makers: map<Tx, Tx>,
                       failed: set<Tx>,
                       added: set<Tx>, t: Tx)
    requires Acyclic(pool) && Tracked(pool, inBlock, m, earlier, failed)
    requires t in pool && t !in inBlock + added && t !in Updated(pool, m - added, makers, added) && t !in failed
    ensures Ancestors(pool, t) * (inBlock + added) == {}
  {
    assert Lookup(Updated(pool, m - added, makers, added), t) == UpdatedAt(pool, m - added, makers, added, added, t);
    assert Lookup(m, t) == None;
    assert Ancestors(pool, t) * (inBlock + added) == Ancestors(pool, t) * inBlock + Ancestors(pool, t) * added;
  }

  lemma UpdatedRecord(pool: Pool, inBlock: set<Tx>, m: map<Tx, Modified>, earlier: map<Tx, Tx>, makers: map<Tx, Tx>,
                      failed: set<Tx>,
                      added: set<Tx>, t: Tx)
    requires ValidPool(pool) && Acyclic(pool) && Closed(pool, inBlock) && Tracked(pool, inBlock, m, earlier, failed)
    requires added !! inBlock && t in Updated(pool, m - added, makers, added)
    requires Made(pool, m - added, earlier, makers, added, added)
    ensures RecordOk(pool, inBlock + added, makers, failed, t, Updated(pool, m - added, makers, added)[t])
    ensures t in pool
    ensures t !in failed ==> Ancestors(pool, t) * (inBlock + added) != {} && MakerOk(pool, inBlock + added, makers, t)
  {
    hide *;
    UpdatedOnlyOpen(pool, inBlock, m, earlier, makers, failed, added, t);
    RecordedElsewhere(pool, m, added, t);
    RecordedOk(pool, inBlock, m, earlier, failed, t);
    UpdatedValue(pool, m - added, makers, added, t);
    MadeOne(pool, m - added, earlier, makers, added, t);
    LessOk(pool, inBlock, m, earlier, makers, added, failed, t);
  }

  lemma MadeOne(pool: Pool, m: map<Tx, Modified>, earlier: map<Tx, Tx>, makers: map<Tx, Tx>, added: set<Tx>, t: Tx)
    requires Acyclic(pool) && Made(pool, m, earlier, makers, added, added)
    ensures MadeAt(pool, m, earlier, makers, added, added, t)
  {
  }

  lemma RecordedElsewhere(pool: Pool, m: map<Tx, Modified>, added: set<Tx>, t: Tx)
    requires t in pool && t !in added
    ensures Recorded(pool, m - added, t) == Recorded(pool, m, t) && (t in m - added <==> t in m)
  {
  }

  lemma UpdatedValue(pool: Pool, m: map<Tx, Modified>, makers: map<Tx, Tx>, added: set<Tx>, t: Tx)
    requires Acyclic(pool) && t in pool && t !in added && t in Updated(pool, m, makers, added)
    ensures Updated(pool, m, makers, added)[t] ==
            Without(pool, Recorded(pool, m, t), Ancestors(pool, t) * added, if t in m then {} else Maker(makers, t))
    ensures t in m || Ancestors(pool, t) * added != {}
  {
    hide Acyclic, Ancestors, Updated, Without;
    assert Lookup(Updated(pool, m, makers, added), t) == UpdatedAt(pool, m, makers, added, added, t);
    WithoutNone(pool, Recorded(pool, m, t));
  }

  /** No selected transaction gets a record. */
  lemma UpdatedOnlyOpen(pool: Pool, inBlock: set<Tx>, m: map<Tx, Modified>, earlier: map<Tx, Tx>, makers: map<Tx, Tx>,
                        failed: set<Tx>,
                        added: set<Tx>, t: Tx)
    requires Acyclic(pool) && Closed(pool, inBlock) && Tracked(pool, inBlock, m, earlier, failed)
    requires added !! inBlock && t in Updated(pool, m - added, makers, added)
    ensures t in pool && t !in inBlock && t !in added
  {
    assert Lookup(Updated(pool, m - added, makers, added), t) == UpdatedAt(pool, m - added, makers, added, added, t);
    assert t in m ==> RecordOk(pool, inBlock, earlier, failed, t, m[t]);
    hide Acyclic, RecordOk, Tracked, Closed, Updated, MakerOk;
    if t in inBlock {
      ClosedAncestors(pool, inBlock, t);
    }
  }

  /** Taking newly selected ancestors off a right record keeps it right. */
  lemma LessOk(pool: Pool, inBlock: set<Tx>, m: map<Tx, Modified>, earlier: map<Tx, Tx>, makers: map<Tx, Tx>,
               added: set<Tx>,
               failed: set<Tx>, t: Tx)
    requires Acyclic(pool) && ValidPool(pool) && t in pool && t !in inBlock + added && added !! inBlock
    requires RecordOk(pool, inBlock, earlier, failed, t, Recorded(pool, m, t))
    requires MadeAt(pool, m - added, earlier, makers, added, added, t)
    requires t !in failed ==> MakerOk(pool, inBlock, earlier, t) && (t in m <==> Ancestors(pool, t) * inBlock != {})
    requires t in m || Ancestors(pool, t) * added != {}
    ensures RecordOk(pool, inBlock + added, makers, failed, t,
                     Without(pool, Recorded(pool, m, t), Ancestors(pool, t) * added,
                             if t in m then {} else Maker(makers, t)))
    ensures t !in failed ==> Ancestors(pool, t) * (inBlock + added) != {} && MakerOk(pool, inBlock + added, makers, t)
  {
    hide Acyclic, Total, Remaining, Ancestors, FeesLeft, ValidPool;
    RemainingLess(pool, inBlock, added, t, Size(pool));
    RemainingLess(pool, inBlock, added, t, SigOps(pool));
    var anc := Ancestors(pool, t);
    assert anc * (inBlock + added) == anc * inBlock + anc * added;
    TotalNatural(Size(pool), anc * added);
    TotalNatural(SigOps(pool), anc * added);
    if t !in failed {
      FeesOk(pool, inBlock, m, earlier, makers, added, t);
    }
  }

  lemma FeesOk(pool: Pool, inBlock: set<Tx>, m: map<Tx, Modified>, earlier: map<Tx, Tx>, makers: map<Tx, Tx>,
               added: set<Tx>, t: Tx)
    requires Acyclic(pool) && ValidPool(pool) && t in pool && t !in inBlock + added && added !! inBlock
    requires Recorded(pool, m, t).fees == FeesLeft(pool, inBlock, earlier, t)
    requires MadeAt(pool, m - added, earlier, makers, added, added, t)
    requires MakerOk(pool, inBlock, earlier, t) && (t in m <==> Ancestors(pool, t) * inBlock != {})
    requires t in m || Ancestors(pool, t) * added != {}
    ensures Recorded(pool, m, t).fees - Total(BaseFee(pool), Ancestors(pool, t) * added)
              - Total(FeeDelta(pool), if t in m then {} else Maker(makers, t))
            == FeesLeft(pool, inBlock + added, makers, t)
  {
    hide Acyclic, Total, Remaining, Ancestors;
    if t in m {
      assert Maker(makers, t) == Maker(earlier, t) && Lookup(makers, t) == Lookup(earlier, t);
      FeesLess(pool, inBlock, makers, added, t);
      TotalEmpty(FeeDelta(pool));
    } else {
      hide FeesLeft;
      FeesFirst(pool, inBlock, makers, added, t);
    }
  }

  // ---------------------------------------------------------------- blocks

  function ToSet(v: seq<Tx>): set<Tx> {
    set x | x in v
  }

  /** No transaction twice, and every in-pool parent before its child. */
  ghost predicate InOrder(pool: Pool, v: seq<Tx>) {
    && (forall i, j :: 0 <= i < j < |v| ==> v[i] != v[j])
    && (forall j :: 0 <= j < |v| ==> v[j] in pool && pool[v[j]].parents <= ToSet(v[..j]))
  }

  lemma InOrderClosed(pool: Pool, v: seq<Tx>)
    requires InOrder(pool, v)
    ensures Closed(pool, ToSet(v))
  {
    forall t | t in ToSet(v) ensures t in pool && pool[t].parents <= ToSet(v) {
      var j :| 0 <= j < |v| && v[j] == t;
      assert forall x :: x in v[..j] ==> x in v;
    }
  }

  lemma InOrderNext(pool: Pool, v: seq<Tx>, t: Tx)
    requires InOrder(pool, v) && t in pool && t !in v && pool[t].parents <= ToSet(v)
    ensures InOrder(pool, v + [t]) && ToSet(v + [t]) == ToSet(v) + {t}
  {
    var w := v + [t];
    forall j | 0 <= j < |w| ensures w[j] in pool && pool[w[j]].parents <= ToSet(w[..j]) {
      assert w[..j] == v[..j];
      assert v[..|v|] == v;
    }
  }

  function Fees(pool: Pool, v: seq<Tx>): int {
    if |v| == 0 then 0
    else Fees(pool, v[..|v| - 1]) + if v[|v| - 1] in pool then pool[v[|v| - 1]].fee else 0
  }

  lemma FeesNext(pool: Pool, v: seq<Tx>, t: Tx)
    requires t in pool
    ensures Fees(pool, v + [t]) == Fees(pool, v) + pool[t].fee
  {
    assert (v + [t])[..|v|] == v;
  }
}
