/** BlockAssembler: greedy selection of transactions from a memory pool, by priority and then package by package. The
    order in which equal candidates come is left open, so what is proved holds for any of them. */
module BlockAssembler {
  import opened Mempool
  import opened PackageTracking
  import opened FeeRates
  import opened BlockSelection
  import opened Options
  import Powers
  import Sets

  const MAX_BLOCK_SERIALIZED_SIZE := 4_000_000
  const MAX_BLOCK_WEIGHT := 4_000_000
  const DEFAULT_BLOCK_MAX_SIZE := 750_000
  const DEFAULT_BLOCK_MAX_WEIGHT := 3_000_000
  const MAX_CONSECUTIVE_FAILURES := 1000

  function Clamp(low: nat, high: nat, x: nat): (r: nat)
    requires low <= high
    ensures low <= r <= high && (low <= x <= high ==> r == x) && (x < low ==> r == low) && (x > high ==> r == high)
  {
    if (if x < high then x else high) < low then low else if x < high then x else high
  }

  class Assembler {
    const pool: Pool
    const nBlockMaxWeight: nat
    const nBlockMaxSize: nat
    const blockMinFeeRate: nat  // per 1000 bytes
    var fIncludeWitness: bool
    var fNeedSizeAccounting: bool
    var nBlockWeight: nat
    var nBlockSize: nat
    var nBlockTx: nat
    var nBlockSigOpsCost: nat
    var nFees: int
    var inBlock: set<Tx>
    var vtx: seq<Tx>           // without the coinbase
    var lastFewTxs: nat
    var blockFinished: bool
    ghost var makers: map<Tx, Tx>  // for every modified entry, the ancestor whose selection made it

    /** The block so far is valid as far as selection is concerned. The coinbase has 1000 bytes, 4000
        weight units and 400 sigops reserved; `accounted` says that sizes have been counted throughout. */
    ghost predicate Sound(accounted: bool)
      reads this`fIncludeWitness, this`nBlockWeight, this`nBlockSize, this`nBlockTx, this`nBlockSigOpsCost, this`nFees
      reads this`inBlock, this`vtx
    {
      && ValidPool(pool) && nBlockMaxWeight >= 4000 && nBlockMaxSize >= 1000
      && Selection(pool, vtx, inBlock, fIncludeWitness) && nBlockTx == |vtx| && nFees == Fees(pool, vtx)
      && nBlockWeight == 4000 + Total(Weight(pool), inBlock) <= nBlockMaxWeight
      && nBlockSigOpsCost == 400 + Total(SigOps(pool), inBlock) <= MAX_BLOCK_SIGOPS_COST
      && (accounted ==> nBlockSize == 1000 + Total(Serialized(pool), inBlock) <= nBlockMaxSize)
    }

    constructor (pool: Pool, weightArg: Option<nat>, sizeArg: Option<nat>, minTxFee: nat)
      requires weightArg.Some? ==> weightArg.value < Powers.TWO_32
      requires sizeArg.Some? ==> sizeArg.value < Powers.TWO_32
      ensures this.pool == pool && blockMinFeeRate == minTxFee
      ensures 4000 <= nBlockMaxWeight <= MAX_BLOCK_WEIGHT - 4000
      ensures 1000 <= nBlockMaxSize <= MAX_BLOCK_SERIALIZED_SIZE - 1000
      ensures nBlockMaxWeight == Clamp(4000, 3_996_000, if weightArg.Some? then weightArg.value else
                if sizeArg.Some? then 4 * sizeArg.value % Powers.TWO_32 else 3_000_000)
      ensures nBlockMaxSize == Clamp(1000, 3_999_000, if sizeArg.Some? then sizeArg.value else
                if weightArg.Some? then 4_000_000 else 750_000)
      ensures fNeedSizeAccounting <==> nBlockMaxSize < MAX_BLOCK_SERIALIZED_SIZE - 1000
    {
      var maxWeight, maxSize := DEFAULT_BLOCK_MAX_WEIGHT, DEFAULT_BLOCK_MAX_SIZE;
      if weightArg.Some? {
        maxWeight, maxSize := weightArg.value, MAX_BLOCK_SERIALIZED_SIZE;
      }
      if sizeArg.Some? {
        maxSize := sizeArg.value;
        if !weightArg.Some? {
          maxWeight := maxSize * WITNESS_SCALE_FACTOR % Powers.TWO_32;
        }
      }
      maxSize := Clamp(1000, MAX_BLOCK_SERIALIZED_SIZE - 1000, maxSize);
      this.pool := pool;
      nBlockMaxWeight := Clamp(4000, MAX_BLOCK_WEIGHT - 4000, maxWeight);
      nBlockMaxSize := maxSize;
      blockMinFeeRate := minTxFee;
      fNeedSizeAccounting := maxSize < MAX_BLOCK_SERIALIZED_SIZE - 1000;
    }

    method ResetBlock()
      requires ValidPool(pool) && nBlockMaxWeight >= 4000 && nBlockMaxSize >= 1000
      modifies this
      ensures inBlock == {} && vtx == [] && Sound(true) && !fIncludeWitness && !blockFinished && lastFewTxs == 0
      ensures fNeedSizeAccounting == old(fNeedSizeAccounting)
    {
      hide ValidPool, Total, Weight, SigOps, Serialized;
      inBlock, vtx := {}, [];
      nBlockSize, nBlockWeight, nBlockSigOpsCost := 1000, 4000, 400;
      fIncludeWitness := false;
      nBlockTx, nFees, lastFewTxs, blockFinished := 0, 0, 0, false;
      TotalEmpty(Weight(pool));
      TotalEmpty(SigOps(pool));
      TotalEmpty(Serialized(pool));
    }

    /** t fits: its parents are there and no limit is exceeded by adding it. */
    ghost predicate Fits(t: Tx)
      reads this
    {
      && t in pool && t !in inBlock && pool[t].parents <= inBlock && Admissible(pool[t], fIncludeWitness)
      && nBlockWeight + pool[t].weight <= nBlockMaxWeight
      && nBlockSigOpsCost + pool[t].sigops <= MAX_BLOCK_SIGOPS_COST
      && (fNeedSizeAccounting ==> nBlockSize + pool[t].serialized <= nBlockMaxSize)
    }

    method AddToBlock(t: Tx, ghost accounted: bool)
      requires Sound(accounted) && Fits(t) && (accounted ==> fNeedSizeAccounting)
      modifies this`vtx, this`inBlock, this`nBlockSize, this`nBlockWeight, this`nBlockTx, this`nBlockSigOpsCost,
               this`nFees
      ensures Sound(accounted)
      ensures vtx == old(vtx) + [t] && inBlock == old(inBlock) + {t}
      ensures nBlockWeight == old(nBlockWeight) + pool[t].weight
      ensures nBlockSigOpsCost == old(nBlockSigOpsCost) + pool[t].sigops
      ensures nBlockSize == old(nBlockSize) + if fNeedSizeAccounting then pool[t].serialized else 0
    {
      hide ValidPool, Total, Selection, Fees, Weight, SigOps, Serialized;
      SelectionNext(pool, vtx, inBlock, fIncludeWitness, t);
      vtx := vtx + [t];
      if fNeedSizeAccounting {
        nBlockSize := nBlockSize + pool[t].serialized;
      }
      nBlockWeight := nBlockWeight + pool[t].weight;
      nBlockTx := nBlockTx + 1;
      nBlockSigOpsCost := nBlockSigOpsCost + pool[t].sigops;
      nFees := nFees + pool[t].fee;
      inBlock := inBlock + {t};
    }

    /** A parent of t is not in the block yet. */
    method IsStillDependent(t: Tx) returns (dependent: bool)
      requires t in pool
      ensures dependent <==> !(pool[t].parents <= inBlock)
    {
      var rest := pool[t].parents;
      while rest != {}
        invariant rest <= pool[t].parents && pool[t].parents - rest <= inBlock
        decreases |rest|
      {
        Sets.Inhabited(rest);
        var p :| p in rest;
        if p !in inBlock {
          return true;
        }
        rest := rest - {p};
      }
      dependent := false;
    }

    predicate OverWeight(t: Tx)
      requires t in pool
      reads this
    {
      nBlockWeight + pool[t].weight >= nBlockMaxWeight
    }

    predicate OverSize(t: Tx)
      requires t in pool
      reads this
    {
      fNeedSizeAccounting && nBlockSize + pool[t].serialized >= nBlockMaxSize
    }

    predicate OverSigOps(t: Tx)
      requires t in pool
      reads this
    {
      nBlockSigOpsCost + pool[t].sigops >= MAX_BLOCK_SIGOPS_COST
    }

    /** TestForBlock: true only if t fits. A block is finished when so little is left of the limit that t exceeds, or
        when more than fifty more were looked at after it came close to a limit. */
    method TestForBlock(t: Tx) returns (fits: bool)
      requires t in pool && nBlockMaxWeight >= 4000 && nBlockMaxSize >= 1000
      modifies this`blockFinished, this`lastFewTxs
      ensures fits <==> !OverWeight(t) && !OverSize(t) && !OverSigOps(t) && pool[t].isFinal
      ensures blockFinished <==>
                || old(blockFinished)
                || (OverWeight(t) && (nBlockWeight > nBlockMaxWeight - 400 || old(lastFewTxs) > 50))
                || (!OverWeight(t) && OverSize(t) && (nBlockSize > nBlockMaxSize - 100 || old(lastFewTxs) > 50))
                || (!OverWeight(t) && !OverSize(t) && OverSigOps(t) && nBlockSigOpsCost > MAX_BLOCK_SIGOPS_COST - 8)
      ensures lastFewTxs == old(lastFewTxs) +
                if old(lastFewTxs) > 50 then 0
                else if OverWeight(t) && nBlockMaxWeight - 4000 < nBlockWeight <= nBlockMaxWeight - 400 then 1
                else if !OverWeight(t) && OverSize(t) && nBlockMaxSize - 1000 < nBlockSize <= nBlockMaxSize - 100 then 1
                else 0
    {
      if nBlockWeight + pool[t].weight >= nBlockMaxWeight {
        if nBlockWeight > nBlockMaxWeight - 400 || lastFewTxs > 50 {
          blockFinished := true;
          return false;
        }
        if nBlockWeight > nBlockMaxWeight - 4000 {
          lastFewTxs := lastFewTxs + 1;
        }
        return false;
      }
      if fNeedSizeAccounting {
        if nBlockSize + pool[t].serialized >= nBlockMaxSize {
          if nBlockSize > nBlockMaxSize - 100 || lastFewTxs > 50 {
            blockFinished := true;
            return false;
          }
          if nBlockSize > nBlockMaxSize - 1000 {
            lastFewTxs := lastFewTxs + 1;
          }
          return false;
        }
      }
      if nBlockSigOpsCost + pool[t].sigops >= MAX_BLOCK_SIGOPS_COST {
        if nBlockSigOpsCost > MAX_BLOCK_SIGOPS_COST - 8 {
          blockFinished := true;
          return false;
        }
        return false;
      }
      fits := pool[t].isFinal;
    }

    /** While transactions are selected by priority, sizes are counted. */
    function PriorityRules(): Rules
      reads this`fIncludeWitness
    {
      Rules(nBlockMaxWeight, nBlockMaxSize, true, fIncludeWitness)
    }

    /** A block that is flagged as finished, or of which the last few transactions are counted, is nearly full. */
    ghost predicate Flagged()
      reads this
    {
      blockFinished || lastFewTxs > 0 ==> Crowded(pool, PriorityRules(), inBlock)
    }

    lemma TestsAlone(t: Tx)
      requires Sound(true) && fNeedSizeAccounting && t in pool
      ensures FitsAlone(pool, PriorityRules(), inBlock, t) <==>
              !OverWeight(t) && !OverSize(t) && !OverSigOps(t) && pool[t].isFinal
      ensures Crowded(pool, PriorityRules(), inBlock) <==>
              || nBlockWeight > nBlockMaxWeight - 4000 || nBlockSize > nBlockMaxSize - 1000
              || nBlockSigOpsCost > MAX_BLOCK_SIGOPS_COST - 8
    {
      hide ValidPool, Selection, Total, Fees, Weight, SigOps, Serialized;
    }

    /** One candidate of the priority queue: dropped, told to wait for its parents, or tried. */
    method TryPriority(t: Tx) returns (wait: bool, added: bool)
      requires Sound(true) && fNeedSizeAccounting && t in pool && t !in inBlock && Flagged()
      modifies this`vtx, this`inBlock, this`nBlockSize, this`nBlockWeight, this`nBlockTx, this`nBlockSigOpsCost,
               this`nFees, this`blockFinished, this`lastFewTxs
      ensures Sound(true) && Flagged()
      ensures wait <==> WitnessOk(pool[t], fIncludeWitness) && !(pool[t].parents <= old(inBlock))
      ensures added <==> Ready(pool, PriorityRules(), old(inBlock), t)
      ensures added ==> vtx == old(vtx) + [t] && inBlock == old(inBlock) + {t}
      ensures !added ==> vtx == old(vtx) && inBlock == old(inBlock)
    {
      hide ValidPool, Selection, Total, Fees, Weight, SigOps, Serialized, Crowded, FitsAlone;
      wait, added := false, false;
      if !fIncludeWitness && pool[t].hasWitness {
        return;
      }
      wait := IsStillDependent(t);
      if !wait {
        TestsAlone(t);
        added := TestForBlock(t);
        if added {
          AddToBlock(t, true);
          if Crowded(pool, PriorityRules(), old(inBlock)) {
            CrowdedStays(pool, PriorityRules(), old(inBlock), inBlock);
          }
        }
      }
    }

    /** Fill part of the block by priority. */
    method AddPriorityTxs(prioritySizeArg: nat, priority: Tx -> real) returns (ghost ending: Ending)
      requires Sound(true) && vtx == [] && !blockFinished && lastFewTxs == 0
      modifies this
      ensures Sound(true)
      ensures fNeedSizeAccounting == old(fNeedSizeAccounting) && fIncludeWitness == old(fIncludeWitness)
      ensures var limit := if nBlockMaxSize < prioritySizeArg then nBlockMaxSize else prioritySizeArg;
              ByPriority(pool, PriorityRules(), vtx, priority, limit, ending)
    {
      hide ValidPool, Selection, Total, Fees, Weight, SigOps, Serialized;
      var prioritySize := if nBlockMaxSize < prioritySizeArg then nBlockMaxSize else prioritySizeArg;
      ending := Disabled;
      if prioritySize == 0 {
        return;
      }
      var sizeAccounting := fNeedSizeAccounting;
      fNeedSizeAccounting := true;
      hide ByPriority;
      ending := PriorityLoop(prioritySize, priority);
      fNeedSizeAccounting := sizeAccounting;
    }

    /** The invariant of the priority loop. */
    ghost predicate Prioritizing(queue: multiset<Tx>, waiting: set<Tx>, priority: Tx -> real, limit: nat)
      reads this
    {
      && Sound(true) && fNeedSizeAccounting && Flagged() && Queued(pool, PriorityRules(), inBlock, queue, waiting)
      && Prioritized(pool, PriorityRules(), vtx, priority, limit)
      && (vtx != [] ==> GoesOn(pool, vtx, priority, limit, |vtx|))
    }

    lemma SoundParts()
      requires Sound(true)
      ensures inBlock == ToSet(vtx) && nBlockSize == 1000 + Total(Serialized(pool), inBlock)
    {
      hide ValidPool, Total, Weight, SigOps, Serialized, Fees;
    }

    lemma SoundUncounted()
      requires Sound(true)
      ensures Sound(fNeedSizeAccounting)
    {
      hide ValidPool, Selection, Total, Weight, SigOps, Serialized, Fees;
    }

    lemma SoundFees(accounted: bool)
      requires Sound(accounted)
      ensures nFees == Fees(pool, vtx) && nBlockWeight <= nBlockMaxWeight && nBlockSigOpsCost <= 80_000
    {
      hide ValidPool, Selection, Total, Weight, SigOps, Serialized, Fees;
    }

    lemma SameRules()
      ensures PriorityRules() == Rules(nBlockMaxWeight, nBlockMaxSize, true, fIncludeWitness)
    {
    }

    lemma PrioritizingParts(queue: multiset<Tx>, waiting: set<Tx>, priority: Tx -> real, limit: nat)
      requires Prioritizing(queue, waiting, priority, limit)
      ensures Sound(true) && fNeedSizeAccounting && Flagged() && Queued(pool, PriorityRules(), inBlock, queue, waiting)
      ensures Prioritized(pool, PriorityRules(), vtx, priority, limit)
      ensures vtx != [] ==> GoesOn(pool, vtx, priority, limit, |vtx|)
      ensures PriorityRules().includeWitness == fIncludeWitness
    {
      hide Sound, Queued, Prioritized, GoesOn, Crowded;
    }

    lemma MakePrioritizing(queue: multiset<Tx>, waiting: set<Tx>, priority: Tx -> real, limit: nat)
      requires Sound(true) && fNeedSizeAccounting && Flagged() && Queued(pool, PriorityRules(), inBlock, queue, waiting)
      requires Prioritized(pool, PriorityRules(), vtx, priority, limit)
      requires vtx != [] ==> GoesOn(pool, vtx, priority, limit, |vtx|)
      ensures Prioritizing(queue, waiting, priority, limit)
    {
      hide Sound, Queued, Prioritized, GoesOn, Crowded;
    }

    lemma PrioritizingStart(priority: Tx -> real, limit: nat)
      requires Sound(true) && fNeedSizeAccounting && vtx == [] && !blockFinished && lastFewTxs == 0
      ensures Prioritizing(multiset(pool.Keys), {}, priority, limit)
    {
      SoundParts();
      hide Sound, Queued, Crowded;
      QueuedStart(pool, PriorityRules());
      assert inBlock == {};
    }

    /** When the loop is left by its condition. */
    lemma PrioritizingEnd(queue: multiset<Tx>, waiting: set<Tx>, priority: Tx -> real, limit: nat)
      requires Prioritizing(queue, waiting, priority, limit) && (|queue| == 0 || blockFinished)
      ensures Sound(true)
      ensures ByPriority(pool, PriorityRules(), vtx, priority, limit,
                         if |queue| == 0 then QueueEmpty else BlockFinished)
    {
      SoundParts();
      hide Sound, Queued, Crowded, Prioritized, Ready;
      QueuedReady(pool, PriorityRules(), inBlock, queue, waiting);
    }

    /** One turn of the priority loop; QueueEmpty stands for going on. */
    method PriorityTurn(queue: multiset<Tx>, waiting: set<Tx>, priority: Tx -> real, prioritySize: nat)
      returns (rest: multiset<Tx>, still: set<Tx>, ending: Ending)
      requires Prioritizing(queue, waiting, priority, prioritySize) && |queue| != 0
      modifies this`vtx, this`inBlock, this`nBlockSize, this`nBlockWeight, this`nBlockTx, this`nBlockSigOpsCost,
               this`nFees, this`blockFinished, this`lastFewTxs
      ensures ending == QueueEmpty ==> Prioritizing(rest, still, priority, prioritySize)
      ensures ending == QueueEmpty ==>
                || |pool.Keys - inBlock| < |pool.Keys - old(inBlock)|
                || (inBlock == old(inBlock) && |rest| < |queue|)
      ensures ending != QueueEmpty ==>
                Sound(true) && ByPriority(pool, PriorityRules(), vtx, priority, prioritySize, ending)
    {
      hide *;
      PrioritizingParts(queue, waiting, priority, prioritySize);
      var t := Highest(queue, priority);
      SoundParts();
      QueuedAt(pool, PriorityRules(), inBlock, queue, waiting, t);
      ReadyParents(pool, PriorityRules(), inBlock, t);
      ghost var v, b := vtx, inBlock;
      var wait, added := TryPriority(t);
      QueuedNext(pool, PriorityRules(), b, inBlock, queue, waiting, t, wait, added);
      rest, still, ending := queue - multiset{t}, waiting, QueueEmpty;
      if wait {
        still := still + {t};
      }
      if added {
        AddedFirst(pool, PriorityRules(), v, b, queue, waiting, priority, prioritySize, t);
        SoundParts();
        if nBlockSize >= prioritySize {
          return rest, still, SizeReached;
        }
        if !AllowFree(priority(t)) {
          return rest, still, PriorityLow;
        }
        var children := Children(pool, still, t);
        rest, still := rest + multiset(children), still - children;
        Sets.Fewer(pool.Keys - inBlock, pool.Keys - b, t);
      }
      MakePrioritizing(rest, still, priority, prioritySize);
    }

    /** The front of the heap. */
    method Highest(queue: multiset<Tx>, priority: Tx -> real) returns (t: Tx)
      requires |queue| != 0
      ensures t in queue && forall u :: u in queue ==> priority(u) <= priority(t)
    {
      HighestExists(queue, priority);
      t :| t in queue && forall u :: u in queue ==> priority(u) <= priority(t);
    }

    method PriorityLoop(prioritySize: nat, priority: Tx -> real) returns (ghost ending: Ending)
      requires Sound(true) && fNeedSizeAccounting && vtx == [] && !blockFinished && lastFewTxs == 0
      modifies this`vtx, this`inBlock, this`nBlockSize, this`nBlockWeight, this`nBlockTx, this`nBlockSigOpsCost,
               this`nFees, this`blockFinished, this`lastFewTxs
      ensures Sound(true)
      ensures ByPriority(pool, PriorityRules(), vtx, priority, prioritySize, ending)
    {
      hide Sound, Prioritizing, ByPriority;
      var queue := multiset(pool.Keys);
      var waiting: set<Tx> := {};
      PrioritizingStart(priority, prioritySize);
      while |queue| != 0 && !blockFinished
        invariant Prioritizing(queue, waiting, priority, prioritySize)
        decreases |pool.Keys - inBlock|, |queue|
      {
        var why;
        queue, waiting, why := PriorityTurn(queue, waiting, priority, prioritySize);
        if why != QueueEmpty {
          return why;
        }
      }
      PrioritizingEnd(queue, waiting, priority, prioritySize);
      ending := if |queue| == 0 then QueueEmpty else BlockFinished;
    }

    // ---------------------------------------------------------------- packages

    method TestPackage(packageSize: nat, packageSigOpsCost: nat) returns (fits: bool)
      ensures fits <==> nBlockWeight + WITNESS_SCALE_FACTOR * packageSize < nBlockMaxWeight
                        && nBlockSigOpsCost + packageSigOpsCost < MAX_BLOCK_SIGOPS_COST
    {
      if nBlockWeight + WITNESS_SCALE_FACTOR * packageSize >= nBlockMaxWeight {
        return false;
      }
      if nBlockSigOpsCost + packageSigOpsCost >= MAX_BLOCK_SIGOPS_COST {
        return false;
      }
      fits := true;
    }

    /** The transaction-level checks, whatever order the package comes in: all transactions admissible and,
        if sizes count, room for all of them together. */
    method TestPackageTransactions(package: set<Tx>) returns (ok: bool)
      requires package <= pool.Keys && package != {}
      ensures ok <==> (forall t :: t in package ==> Admissible(pool[t], fIncludeWitness))
                      && (fNeedSizeAccounting ==> nBlockSize + Total(Serialized(pool), package) < nBlockMaxSize)
    {
      hide Total, Serialized;
      ghost var w := Serialized(pool);
      assert forall t :: t in pool ==> w(t) == pool[t].serialized by { SerializedAt(pool); }
      assert Natural(w) by { SerializedAt(pool); }
      var potentialSize := nBlockSize;
      var rest := package;
      while rest != {}
        invariant rest <= package
        invariant forall t :: t in package && t !in rest ==> Admissible(pool[t], fIncludeWitness)
        invariant fNeedSizeAccounting ==> potentialSize + Total(w, rest) == nBlockSize + Total(w, package)
        invariant fNeedSizeAccounting && rest != package ==> potentialSize < nBlockMaxSize
        decreases |rest|
      {
        Sets.Inhabited(rest);
        var t :| t in rest;
        if !pool[t].isFinal {
          return false;
        }
        if !fIncludeWitness && pool[t].hasWitness {
          return false;
        }
        TotalWithout(w, rest, t);
        TotalNatural(w, rest - {t});
        if fNeedSizeAccounting {
          if potentialSize + pool[t].serialized >= nBlockMaxSize {
            return false;
          }
          potentialSize := potentialSize + pool[t].serialized;
        }
        rest := rest - {t};
      }
      TotalEmpty(w);
      ok := true;
    }

    /** SortForBlock: the package by ascending ancestor count. */
    method SortForBlock(package: set<Tx>) returns (sorted: seq<Tx>)
      requires package <= pool.Keys
      ensures Arranged(pool, package, sorted)
    {
      var rest := package;
      sorted := [];
      while rest != {}
        invariant rest <= package && Arranged(pool, package - rest, sorted) && ToSet(sorted) <= pool.Keys
        invariant forall t :: t in sorted ==> t in pool && Least(pool, rest, t)
        decreases |rest|
      {
        LeastCount(pool, rest);
        var t :| t in rest && Least(pool, rest, t);
        ArrangedNext(pool, package - rest, sorted, t);
        assert package - rest + {t} == package - (rest - {t});
        sorted := sorted + [t];
        rest := rest - {t};
      }
    }

    /** A package that passed the tests goes in, parents first, and its records go. */
    method AddPackage(t: Tx, modified: map<Tx, Modified>) returns (m: map<Tx, Modified>)
      requires Sound(fNeedSizeAccounting) && t in pool && t !in inBlock && Acyclic(pool)
      requires forall u :: u in Remaining(pool, inBlock, t) ==> Admissible(pool[u], fIncludeWitness)
      requires Room(Remaining(pool, inBlock, t))
      modifies this`vtx, this`inBlock, this`nBlockSize, this`nBlockWeight, this`nBlockTx, this`nBlockSigOpsCost,
               this`nFees
      ensures Sound(fNeedSizeAccounting) && old(vtx) <= vtx
      ensures inBlock == old(inBlock) + Remaining(pool, old(inBlock), t)
      ensures m == modified - Remaining(pool, old(inBlock), t)
    {
      hide Sound, Remaining, Total, Weight, SigOps, Serialized;
      ghost var start := inBlock;
      var package := Remaining(pool, inBlock, t);
      RemainingInPool(pool, inBlock, t);
      var sorted := SortForBlock(package);
      m := modified;
      ghost var rest := package;
      for i := 0 to |sorted|
        invariant Sound(fNeedSizeAccounting) && old(vtx) <= vtx
        invariant rest == package - ToSet(sorted[..i]) && Room(rest)
        invariant inBlock == start + ToSet(sorted[..i]) && m == modified - ToSet(sorted[..i])
      {
        ParentsFirst(pool, start, t, sorted, i);
        PrefixNext(pool, package, sorted, i);
        RoomFor(rest, sorted[i]);
        AddToBlock(sorted[i], fNeedSizeAccounting);
        m := m - {sorted[i]};
        rest := rest - {sorted[i]};
      }
      assert sorted[..|sorted|] == sorted;
    }

    /** UpdatePackagesForAdded: every other descendant of what was added loses its new ancestors, in any order. */
    method UpdatePackagesForAdded(added: set<Tx>, modified: map<Tx, Modified>) returns (m: map<Tx, Modified>)
      requires Acyclic(pool) && added <= pool.Keys
      modifies this`makers
      ensures m == Updated(pool, modified, makers, added)
      ensures Made(pool, modified, old(makers), makers, added, added)
    {
      hide Acyclic, Updated, UpToDate, Subtracted, Made, MadeBy;
      m := modified;
      var rest := added;
      ghost var done: set<Tx> := {};
      UpToDateStart(pool, modified, makers, added);
      while rest != {}
        invariant rest + done == added && rest !! done
        invariant UpToDate(pool, modified, m, makers, added, done)
        invariant Made(pool, modified, old(makers), makers, added, done)
        decreases |rest|
      {
        Sets.Inhabited(rest);
        var a :| a in rest;
        ghost var before, made := m, makers;
        m := SubtractAncestor(added, a, m);
        UpToDateNext(pool, modified, before, m, old(makers), made, makers, added, done, a);
        rest, done := rest - {a}, done + {a};
      }
      assert done == added;
      UpToDateEnd(pool, modified, m, makers, added);
    }

    /** The inner loop: a is taken off the records of its descendants, which are made where missing. */
    method SubtractAncestor(added: set<Tx>, a: Tx, modified: map<Tx, Modified>) returns (m: map<Tx, Modified>)
      requires Acyclic(pool) && a in pool
      modifies this`makers
      ensures Subtracted(pool, modified, m, added, a) && MadeBy(pool, modified, old(makers), makers, added, a)
    {
      m := modified;
      var descendants := Descendants(pool, a);
      assert descendants <= pool.Keys;
      hide Acyclic, Descendants, Less;
      var rest := descendants;
      while rest != {}
        invariant rest <= descendants
        invariant forall d :: Lookup(m, d) ==
                    if d in descendants - rest - added then Some(Less(pool, modified, d, a)) else Lookup(modified, d)
        invariant forall d :: Lookup(makers, d) ==
                    if d in descendants - rest - added && d !in modified then Some(a) else Lookup(old(makers), d)
        decreases |rest|
      {
        Sets.Inhabited(rest);
        var d :| d in rest;
        rest := rest - {d};
        if d in added {
          continue;
        }
        assert Lookup(m, d) == Lookup(modified, d);
        assert Less(pool, m, d, a) == Less(pool, modified, d, a) by { LessSame(pool, m, modified, d, a); }
        m := SubtractFrom(d, a, m);
      }
    }

    /** The record of d is made or changed. */
    method SubtractFrom(d: Tx, a: Tx, modified: map<Tx, Modified>) returns (m: map<Tx, Modified>)
      requires a in pool && d in pool
      modifies this`makers
      ensures m == modified[d := Less(pool, modified, d, a)]
      ensures makers == if d in modified then old(makers) else old(makers)[d := a]
    {
      m := modified;
      if d !in m {
        m := m[d := Modified(pool[d].sizeWithAncestors - pool[a].size, pool[d].sigopsWithAncestors - pool[a].sigops,
                             pool[d].modFeesWithAncestors - (pool[a].fee + pool[a].feeDelta))];
        makers := makers[d := a];
      } else {
        m := m[d := Modified(m[d].size - pool[a].size, m[d].sigops - pool[a].sigops, m[d].fees - pool[a].fee)];
      }
    }

    /** All of s would fit. */
    ghost predicate Room(s: set<Tx>)
      reads this
    {
      && nBlockWeight + Total(Weight(pool), s) <= nBlockMaxWeight
      && nBlockSigOpsCost + Total(SigOps(pool), s) <= MAX_BLOCK_SIGOPS_COST
      && (fNeedSizeAccounting ==> nBlockSize + Total(Serialized(pool), s) <= nBlockMaxSize)
    }

    lemma RoomFor(s: set<Tx>, t: Tx)
      requires t in s && t in pool
      ensures Total(Weight(pool), s) == pool[t].weight + Total(Weight(pool), s - {t})
      ensures Total(SigOps(pool), s) == pool[t].sigops + Total(SigOps(pool), s - {t})
      ensures Total(Serialized(pool), s) == pool[t].serialized + Total(Serialized(pool), s - {t})
      ensures Total(Weight(pool), s - {t}) >= 0 && Total(SigOps(pool), s - {t}) >= 0
      ensures Total(Serialized(pool), s - {t}) >= 0
    {
      TotalNatural(Weight(pool), s - {t});
      TotalNatural(SigOps(pool), s - {t});
      TotalNatural(Serialized(pool), s - {t});
      hide Total;
      TotalWithout(Weight(pool), s, t);
      TotalWithout(SigOps(pool), s, t);
      TotalWithout(Serialized(pool), s, t);
    }

    /** What the package loop keeps. */
    ghost predicate Tracking(modified: map<Tx, Modified>, failed: set<Tx>)
      reads this
    {
      && Sound(fNeedSizeAccounting) && Acyclic(pool) && Tracked(pool, inBlock, modified, makers, failed)
    }

    function Limits(): Rules
      reads this`fNeedSizeAccounting, this`fIncludeWitness
    {
      Rules(nBlockMaxWeight, nBlockMaxSize, fNeedSizeAccounting, fIncludeWitness)
    }

    lemma RejectedNow(t: Tx)
      requires Acyclic(pool) && t in pool && Selection(pool, vtx, inBlock, fIncludeWitness)
      requires Rejected(pool, Limits(), inBlock, t)
      ensures WasRejected(pool, Limits(), vtx, t)
    {
      hide Rejected;
      assert vtx[..|vtx|] == vtx;
    }

    /** The tests a candidate has to pass, on what is recorded for it; then it goes in with its package. */
    method TryPackage(t: Tx, modified: map<Tx, Modified>, ghost failed: set<Tx>)
      returns (tested: bool, added: bool, m: map<Tx, Modified>)
      requires Tracking(modified, failed) && t in pool && t !in inBlock
      modifies this`vtx, this`inBlock, this`nBlockSize, this`nBlockWeight, this`nBlockTx, this`nBlockSigOpsCost,
               this`nFees, this`makers
      ensures Tracking(m, failed) && old(vtx) <= vtx
      ensures added ==> inBlock == old(inBlock) + Remaining(pool, old(inBlock), t)
      ensures !added ==> m == modified && inBlock == old(inBlock) && vtx == old(vtx)
      ensures added ==> tested && t in inBlock && forall u :: u in modified ==> u in m || u in inBlock
      ensures !added && t !in failed ==> WasRejected(pool, Limits(), vtx, t)
      ensures var r := Recorded(pool, modified, t);
              && (tested <==> !TooMuch(pool, Limits(), old(inBlock), r.size, r.sigops))
              && (added <==> !TestsFail(pool, Limits(), old(inBlock), t, r.size, r.sigops))
    {
      hide ValidPool, Acyclic, Selection, Total, Fees, Weight, SigOps, Serialized, Size, Remaining, Updated, Tracked;
      added, m := false, modified;
      RecordedOk(pool, inBlock, modified, makers, failed, t);
      RemainingInPool(pool, inBlock, t);
      RemainingNatural(pool, inBlock, t);
      ghost var start := inBlock;
      var recorded := Recorded(pool, modified, t);
      tested := TestPackage(recorded.size, recorded.sigops);
      if !tested {
        if t !in failed {
          RejectedNow(t);
        }
        return;
      }
      var package := Remaining(pool, inBlock, t);
      var ok := TestPackageTransactions(package);
      if !ok {
        RejectedNow(t);
        return;
      }
      WeightBound(pool, package);
      m := AddPackage(t, modified);
      m := UpdatePackagesForAdded(package, m);
      added := true;
      SelectionClosed(pool, old(vtx), start, fIncludeWitness);
      UpdatedTracked(pool, start, modified, old(makers), makers, failed, package);
      UpdatedKeepsKeys(pool, modified - package, makers, package);
    }

    /** t is in the block, has a record, or was rejected on its merits. */
    ghost predicate Settled(t: Tx, modified: map<Tx, Modified>)
      requires Acyclic(pool) && t in pool
      reads this
    {
      t in inBlock || t in modified || WasRejected(pool, Limits(), vtx, t)
    }

    /** The invariant of the package loop while it has still to visit the entries `unvisited` of the pool. */
    ghost predicate Progress(unvisited: set<Tx>, modified: map<Tx, Modified>, failed: set<Tx>)
      reads this
    {
      && Tracking(modified, failed) && unvisited + inBlock + failed <= pool.Keys
      && (forall u :: u in failed ==> WasRejected(pool, Limits(), vtx, u))
      && (forall u :: u in pool && u !in unvisited ==> Settled(u, modified))
    }

    lemma ProgressStart(earlier: map<Tx, Tx>)
      requires Sound(fNeedSizeAccounting) && Acyclic(pool) && Made(pool, map[], earlier, makers, inBlock, inBlock)
      ensures Progress(pool.Keys, Updated(pool, map[], makers, inBlock), {})
    {
      hide *;
      SoundSelection();
      TrackedStart(pool, vtx, inBlock, earlier, makers, fIncludeWitness);
      MakeProgress(Updated(pool, map[], makers, inBlock));
    }

    lemma MakeProgress(modified: map<Tx, Modified>)
      requires Sound(fNeedSizeAccounting) && Acyclic(pool) && inBlock <= pool.Keys
      requires Tracked(pool, inBlock, modified, makers, {})
      ensures Progress(pool.Keys, modified, {})
    {
      hide Sound, Acyclic, Tracked, WasRejected, Settled;
    }

    lemma SoundSelection()
      requires Sound(fNeedSizeAccounting)
      ensures ValidPool(pool) && Selection(pool, vtx, inBlock, fIncludeWitness)
    {
    }

    lemma ProgressFacts(unvisited: set<Tx>, modified: map<Tx, Modified>, failed: set<Tx>)
      requires Progress(unvisited, modified, failed)
      ensures unvisited + inBlock <= pool.Keys && modified.Keys <= pool.Keys && modified.Keys !! inBlock
      ensures Sound(fNeedSizeAccounting) && Acyclic(pool)
    {
      TrackedKeys(pool, inBlock, modified, makers, failed);
    }

    /** Candidates have a size. */
    ghost predicate Positive(unvisited: set<Tx>, modified: map<Tx, Modified>) {
      && (forall u :: u in unvisited && u in pool ==> Recorded(pool, map[], u).size > 0)
      && (forall u :: u in modified ==> modified[u].size > 0)
    }

    lemma ProgressPositive(unvisited: set<Tx>, modified: map<Tx, Modified>, failed: set<Tx>)
      requires Progress(unvisited, modified, failed)
      ensures unvisited <= pool.Keys && modified.Keys <= pool.Keys && Positive(unvisited, modified)
    {
      ProgressFacts(unvisited, modified, failed);
      hide Acyclic, Selection, Settled, Tracked, ValidPool;
      forall u | u in unvisited ensures Recorded(pool, map[], u).size > 0 {
        CachedPositive(pool, u);
      }
      forall u | u in modified ensures modified[u].size > 0 {
        RecordedPositive(pool, inBlock, modified, makers, failed, u);
      }
    }

    /** The pool's entries come by ancestor score. */
    method NextOfPool(unvisited: set<Tx>) returns (next: Tx)
      requires ValidPool(pool) && unvisited <= pool.Keys && unvisited != {}
      ensures next in unvisited && Best(pool, map[], unvisited, next)
    {
      hide ValidPool, Better;
      forall u | u in unvisited ensures Recorded(pool, map[], u).size > 0 {
        CachedPositive(pool, u);
      }
      ghost var best := BestExists(pool, map[], unvisited);
      next :| next in unvisited &&
              forall u :: u in unvisited ==> !Better(Recorded(pool, map[], u), Recorded(pool, map[], next));
    }

    /** If the best candidate pays too little, so does all the rest. */
    lemma RestIsCheap(unvisited: set<Tx>, modified: map<Tx, Modified>, failed: set<Tx>, t: Tx)
      requires Progress(unvisited, modified, failed) && t in pool && t !in inBlock
      requires Ranked(unvisited, modified, failed, t)
      requires var r := Recorded(pool, modified, t); r.size >= 0 && r.fees < GetFee(blockMinFeeRate, r.size)
      ensures Acyclic(pool) && RestCheap()
    {
      hide Better, GetFee, WasRejected, Total, Remaining, FeesLeft, Acyclic, ValidPool, Selection, Tracked;
      RecordedPositive(pool, inBlock, modified, makers, failed, t);
      forall u | u in pool && u !in inBlock && !WasRejected(pool, Limits(), vtx, u)
        ensures MakerOk(pool, inBlock, makers, u)
        ensures 1000 * FeesLeft(pool, inBlock, makers, u) <
                blockMinFeeRate * Total(Size(pool), Remaining(pool, inBlock, u))
      {
        assert Settled(u, modified) || u in unvisited;
        assert u !in failed;
        RecordedOk(pool, inBlock, modified, makers, failed, u);
        RecordedPositive(pool, inBlock, modified, makers, failed, u);
        NoneBetter(blockMinFeeRate, Recorded(pool, modified, t), Recorded(pool, modified, u));
      }
    }

    lemma ProgressSkip(unvisited: set<Tx>, modified: map<Tx, Modified>, failed: set<Tx>, t: Tx)
      requires Progress(unvisited, modified, failed) && t in unvisited && SkipMapTxEntry(t, modified, failed)
      ensures Progress(unvisited - {t}, modified, failed)
    {
      hide Tracking, WasRejected;
    }

    lemma ProgressEnd(failed: set<Tx>)
      requires Progress({}, map[], failed)
      ensures Acyclic(pool) && forall t :: t in pool ==> t in inBlock || WasRejected(pool, Limits(), vtx, t)
    {
      hide Sound, WasRejected;
    }

    /** One candidate, with the bookkeeping of failures. */
    method Consider(t: Tx, usingModified: bool, modified: map<Tx, Modified>, failed: set<Tx>, ghost unvisited: set<Tx>)
      returns (tested: bool, added: bool, m: map<Tx, Modified>, f: set<Tx>)
      requires Progress(unvisited, modified, failed) && t in pool && t !in inBlock && (usingModified <==> t in modified)
      modifies this`vtx, this`inBlock, this`nBlockSize, this`nBlockWeight, this`nBlockTx, this`nBlockSigOpsCost,
               this`nFees, this`makers
      ensures Progress(if usingModified then unvisited else unvisited - {t}, m, f) && old(vtx) <= vtx
      ensures added ==> |pool.Keys - inBlock| < |pool.Keys - old(inBlock)|
      ensures added ==> inBlock == old(inBlock) + Remaining(pool, old(inBlock), t)
      ensures !added ==> m == modified - {t} && inBlock == old(inBlock) && vtx == old(vtx)
      ensures var r := Recorded(pool, modified, t);
              && (tested <==> !TooMuch(pool, Limits(), old(inBlock), r.size, r.sigops))
              && (added <==> !TestsFail(pool, Limits(), old(inBlock), t, r.size, r.sigops))
    {
      hide Sound, Acyclic, WasRejected, Remaining, Tracked, TestsFail, TooMuch, Recorded;
      ghost var before := inBlock;
      tested, added, m := TryPackage(t, modified, failed);
      f := failed;
      WasRejectedMonotone(pool, Limits(), old(vtx), vtx);
      RemainingInPool(pool, before, t);
      if !added {
        TrackedDrop(pool, inBlock, modified, makers, failed, t);
        if usingModified {
          m, f := modified - {t}, failed + {t};
        }
      } else {
        Sets.Fewer(pool.Keys - inBlock, pool.Keys - before, t);
      }
    }

    predicate SkipMapTxEntry(t: Tx, modified: map<Tx, Modified>, failed: set<Tx>)
      reads this`inBlock
    {
      t in modified || t in inBlock || t in failed
    }

    /** No candidate of the package loop has a better recorded rate than t. */
    ghost predicate Ranked(unvisited: set<Tx>, modified: map<Tx, Modified>, failed: set<Tx>, t: Tx)
      requires t in pool
      reads this
    {
      forall u :: u in pool && (u in modified || (u in unvisited && !SkipMapTxEntry(u, modified, failed))) ==>
        !Better(Recorded(pool, modified, u), Recorded(pool, modified, t))
    }

    /** The next candidate: the next entry of the pool, or the best modified one if it has the higher score or
        the pool is through. */
    method Choose(unvisited: set<Tx>, modified: map<Tx, Modified>, ghost failed: set<Tx>, next: Tx)
      returns (t: Tx, usingModified: bool)
      requires Progress(unvisited, modified, failed) && (unvisited != {} || modified.Keys != {})
      requires unvisited <= pool.Keys
      requires unvisited != {} ==> Best(pool, map[], unvisited, next) && !SkipMapTxEntry(next, modified, failed)
      ensures if usingModified then t in modified else t in unvisited && t == next
      ensures t in pool && t !in inBlock && Ranked(unvisited, modified, failed, t)
      ensures Recorded(pool, modified, t).size > 0
    {
      hide Progress;
      ProgressFacts(unvisited, modified, failed);
      ProgressPositive(unvisited, modified, failed);
      hide Better, Sound, Acyclic;
      usingModified := unvisited == {};
      t := next;
      if modified.Keys != {} {
        ghost var best := BestExists(pool, modified, modified.Keys);
        var modit :| modit in modified.Keys && forall u :: u in modified.Keys ==> !Better(modified[u], modified[modit]);
        if unvisited != {} {
          var fromPool := Recorded(pool, map[], next);
          NotBoth(modified[modit], fromPool);
          usingModified := Better(modified[modit], fromPool);
          if !usingModified && !Better(fromPool, modified[modit]) {
            usingModified := *;  // at equal rates the hashes decide
          }
        }
        if usingModified {
          RankedModified(unvisited, modified, failed, next, modit);
          return modit, usingModified;
        }
        RankedNext(unvisited, modified, failed, next, modit);
      }
    }

    lemma RankedNext(unvisited: set<Tx>, modified: map<Tx, Modified>, failed: set<Tx>, next: Tx, modit: Tx)
      requires unvisited <= pool.Keys && modified.Keys <= pool.Keys && Positive(unvisited, modified)
      requires Best(pool, map[], unvisited, next) && next !in modified
      requires Best(pool, modified, modified.Keys, modit) && !Better(modified[modit], Recorded(pool, map[], next))
      ensures Ranked(unvisited, modified, failed, next)
    {
      hide Better;
      forall u | u in modified ensures !Better(modified[u], Recorded(pool, map[], next)) {
        assert !Better(Recorded(pool, modified, u), Recorded(pool, modified, modit));
        BetterTransitive(Recorded(pool, map[], next), modified[modit], modified[u]);
      }
      assert forall u :: u in unvisited ==> !Better(Recorded(pool, map[], u), Recorded(pool, map[], next));
    }

    lemma RankedModified(unvisited: set<Tx>, modified: map<Tx, Modified>, failed: set<Tx>, next: Tx, modit: Tx)
      requires unvisited <= pool.Keys && modified.Keys <= pool.Keys && Positive(unvisited, modified)
      requires Best(pool, modified, modified.Keys, modit)
      requires unvisited != {} ==>
                 Best(pool, map[], unvisited, next) && !Better(Recorded(pool, map[], next), modified[modit])
      ensures Ranked(unvisited, modified, failed, modit)
    {
      hide Better;
      forall u | u in unvisited && u !in modified ensures !Better(Recorded(pool, map[], u), modified[modit]) {
        var best := Recorded(pool, map[], next);
        assert !Better(Recorded(pool, map[], u), best);
        BetterTransitive(modified[modit], best, Recorded(pool, map[], u));
      }
      assert forall u :: u in modified ==> !Better(Recorded(pool, modified, u), Recorded(pool, modified, modit));
    }

    /** The candidate is the one to look at. */
    lemma ChosenCandidate(unvisited: set<Tx>, modified: map<Tx, Modified>, failed: set<Tx>, t: Tx)
      requires Progress(unvisited, modified, failed) && t in pool && t !in inBlock
      requires Ranked(unvisited, modified, failed, t)
      ensures Acyclic(pool) && Chosen(pool, Limits(), vtx, Pick(t, |vtx|, makers, Recorded(pool, modified, t)))
    {
      hide Better, WasRejected, Total, Remaining, FeesLeft, Acyclic, ValidPool, InOrder, Tracked;
      RecordedPositive(pool, inBlock, modified, makers, failed, t);
      RecordedOk(pool, inBlock, modified, makers, failed, t);
      forall u | u in pool && u !in vtx && !WasRejected(pool, Limits(), vtx, u)
        ensures !Better(Left(pool, ToSet(vtx), makers, u), Recorded(pool, modified, t))
      {
        assert Settled(u, modified) || u in unvisited;
        assert u !in failed;
        RecordedOk(pool, inBlock, modified, makers, failed, u);
      }
    }

    /** What the outcome says of the candidate. */
    ghost predicate Judged(outcome: Outcome, v: seq<Tx>, p: Pick)
      requires Acyclic(pool)
      reads this`vtx, this`fNeedSizeAccounting, this`fIncludeWitness
    {
      match outcome
      case Skipped => vtx == v
      case TooCheap => vtx == v && Chosen(pool, Limits(), v, p) &&
                       p.record.fees < GetFee(blockMinFeeRate, p.record.size)
      case TooBig => vtx == v && Chosen(pool, Limits(), v, p) &&
                     TooMuch(pool, Limits(), ToSet(v), p.record.size, p.record.sigops)
      case Unsuitable => vtx == v && Chosen(pool, Limits(), v, p) && Unsuited(pool, Limits(), ToSet(v), p.t)
      case Taken => PickOk(pool, Limits(), blockMinFeeRate, v, vtx, p)
    }

    /** Choose a candidate and consider it, unless what it pays is too little. */
    method TryCandidate(unvisited: set<Tx>, modified: map<Tx, Modified>, failed: set<Tx>, next: Tx)
      returns (outcome: Outcome, rest: set<Tx>, m: map<Tx, Modified>, f: set<Tx>, ghost pick: Pick)
      requires Progress(unvisited, modified, failed) && (unvisited != {} || modified.Keys != {})
      requires unvisited <= pool.Keys
      requires unvisited != {} ==> Best(pool, map[], unvisited, next) && !SkipMapTxEntry(next, modified, failed)
      modifies this`vtx, this`inBlock, this`nBlockSize, this`nBlockWeight, this`nBlockTx, this`nBlockSigOpsCost,
               this`nFees, this`makers
      ensures Progress(rest, m, f) && old(vtx) <= vtx
      ensures if outcome == TooCheap then RestCheap()
              else Lower(pool.Keys - inBlock, rest, m.Keys, pool.Keys - old(inBlock), unvisited, modified.Keys)
      ensures Acyclic(pool) && Judged(outcome, old(vtx), pick) && outcome != Skipped
    {
      hide *;
      ProgressFacts(unvisited, modified, failed);
      NotSkipped(next, modified, failed);
      var t, usingModified := Choose(unvisited, modified, failed, next);
      rest, m, f := unvisited, modified, failed;
      var recorded := Recorded(pool, modified, t);
      pick := Pick(t, |vtx|, makers, recorded);
      ChosenCandidate(unvisited, modified, failed, t);
      if recorded.fees < GetFee(blockMinFeeRate, recorded.size) {
        RestIsCheap(unvisited, modified, failed, t);
        JudgedCheap(pick);
        return TooCheap, rest, m, f, pick;
      }
      ghost var v, b := vtx, inBlock;
      BlockIs();
      var tested, added;
      tested, added, m, f := Consider(t, usingModified, modified, failed, unvisited);
      if !usingModified {
        rest := unvisited - {t};
      }
      outcome := if added then Taken else if tested then Unsuitable else TooBig;
      ProgressBlock(rest, m, f);
      JudgedOn(outcome, v, pick);
      LowerNext(pool.Keys - inBlock, pool.Keys - b, unvisited, modified, t, usingModified, m, rest);
    }

    lemma NotSkipped(t: Tx, modified: map<Tx, Modified>, failed: set<Tx>)
      ensures SkipMapTxEntry(t, modified, failed) <==> t in modified || t in inBlock || t in failed
    {
    }

    lemma JudgedSkipped(p: Pick)
      requires Acyclic(pool)
      ensures Judged(Skipped, vtx, p)
    {
    }

    lemma JudgedIs(outcome: Outcome, v: seq<Tx>, p: Pick)
      requires Acyclic(pool) && Judged(outcome, v, p)
      ensures if outcome == Taken then PickOk(pool, Limits(), blockMinFeeRate, v, vtx, p) else vtx == v
    {
      hide PickOk, Chosen, TooMuch, Unsuited, GetFee;
    }

    lemma JudgedCheap(p: Pick)
      requires Acyclic(pool) && Chosen(pool, Limits(), vtx, p) && p.record.size >= 0
      requires p.record.fees < GetFee(blockMinFeeRate, p.record.size)
      ensures Judged(TooCheap, vtx, p)
    {
      hide Chosen, GetFee;
    }

    lemma JudgedOn(outcome: Outcome, v: seq<Tx>, p: Pick)
      requires Acyclic(pool) && v <= vtx && Chosen(pool, Limits(), v, p) && p.t in pool && p.record.size >= 0
      requires p.record.fees >= GetFee(blockMinFeeRate, p.record.size)
      requires outcome == Taken ==> !TestsFail(pool, Limits(), ToSet(v), p.t, p.record.size, p.record.sigops)
      requires outcome == Taken ==> ToSet(vtx) == ToSet(v) + Remaining(pool, ToSet(v), p.t)
      requires outcome == TooBig || outcome == Unsuitable || outcome == Taken
      requires outcome == TooBig || outcome == Unsuitable ==> vtx == v
      requires outcome == TooBig ==> TooMuch(pool, Limits(), ToSet(v), p.record.size, p.record.sigops)
      requires outcome == Unsuitable ==>
                 && !TooMuch(pool, Limits(), ToSet(v), p.record.size, p.record.sigops)
                 && TestsFail(pool, Limits(), ToSet(v), p.t, p.record.size, p.record.sigops)
      ensures Judged(outcome, v, p)
    {
      hide Chosen, GetFee, TooMuch, Unsuited, Remaining, ToSet;
    }

    /** The weight of a block of these transactions. */
    ghost function WeightOf(v: seq<Tx>): int {
      4000 + Total(Weight(pool), ToSet(v))
    }

    lemma BlockIs()
      requires Sound(fNeedSizeAccounting)
      ensures inBlock == ToSet(vtx) && nBlockWeight == WeightOf(vtx)
    {
      hide ValidPool, Total, Weight, SigOps, Serialized, Fees, InOrder;
    }

    lemma ProgressBlock(unvisited: set<Tx>, modified: map<Tx, Modified>, failed: set<Tx>)
      requires Progress(unvisited, modified, failed)
      ensures inBlock == ToSet(vtx) && nBlockWeight == WeightOf(vtx)
    {
      ProgressFacts(unvisited, modified, failed);
      hide Progress, Sound;
      BlockIs();
    }

    /** One turn of the package loop: skip a stale entry of the pool, or try a candidate. */
    method PackageTurn(unvisited: set<Tx>, modified: map<Tx, Modified>, failed: set<Tx>)
      returns (outcome: Outcome, rest: set<Tx>, m: map<Tx, Modified>, f: set<Tx>, ghost pick: Pick)
      requires Progress(unvisited, modified, failed) && (unvisited != {} || modified.Keys != {})
      modifies this`vtx, this`inBlock, this`nBlockSize, this`nBlockWeight, this`nBlockTx, this`nBlockSigOpsCost,
               this`nFees, this`makers
      ensures Progress(rest, m, f) && old(vtx) <= vtx
      ensures if outcome == TooCheap then RestCheap()
              else Lower(pool.Keys - inBlock, rest, m.Keys, pool.Keys - old(inBlock), unvisited, modified.Keys)
      ensures Acyclic(pool) && Judged(outcome, old(vtx), pick)
      ensures outcome == Skipped ==>
                exists t :: t in unvisited && SkipMapTxEntry(t, modified, failed) && rest == unvisited - {t}
    {
      hide *;
      ProgressFacts(unvisited, modified, failed);
      SoundSelection();
      var next := 0;
      if unvisited != {} {
        next := NextOfPool(unvisited);
        if SkipMapTxEntry(next, modified, failed) {
          ProgressSkip(unvisited, modified, failed, next);
          pick := Pick(next, 0, makers, Modified(0, 0, 0));
          JudgedSkipped(pick);
          LowerSkip(pool.Keys - inBlock, unvisited, modified.Keys, next);
          return Skipped, unvisited - {next}, modified, failed, pick;
        }
      }
      outcome, rest, m, f, pick := TryCandidate(unvisited, modified, failed, next);
    }

    /** The descendants of what the priority loop selected get their records. */
    method StartPackages() returns (modified: map<Tx, Modified>)
      requires Sound(fNeedSizeAccounting) && Acyclic(pool)
      modifies this`makers
      ensures Progress(pool.Keys, modified, {})
    {
      SoundSelection();
      hide Sound, Acyclic, Updated, WasRejected, Made, Progress, ValidPool, InOrder;
      modified := UpdatePackagesForAdded(inBlock, map[]);
      ProgressStart(old(makers));
    }

    /** Whatever is neither in the block nor was rejected pays less than the minimum rate for what is left of its
        package, deltas of selected ancestors included but for the one that made its record. */
    ghost predicate RestCheap()
      requires Acyclic(pool)
      reads this
    {
      forall u :: u in pool ==>
        || u in inBlock
        || WasRejected(pool, Limits(), vtx, u)
        || (MakerOk(pool, inBlock, makers, u) &&
            1000 * FeesLeft(pool, inBlock, makers, u) <
            blockMinFeeRate * Total(Size(pool), Remaining(pool, inBlock, u)))
    }

    /** The package loop. Every package in it was the best choice at its time and pays the minimum rate. A transaction
        left out by a loop that ran to its end was rejected on its merits; it stops before that only when everything
        else pays too little, or with the block nearly full after 1001 packages in a row were too big. */
    method AddPackageTxs() returns (stop: Stop, ghost picks: seq<Pick>, ghost log: seq<Outcome>)
      requires Sound(fNeedSizeAccounting) && Acyclic(pool)
      modifies this`vtx, this`inBlock, this`nBlockSize, this`nBlockWeight, this`nBlockTx, this`nBlockSigOpsCost,
               this`nFees, this`makers
      ensures Sound(fNeedSizeAccounting) && old(vtx) <= vtx
      ensures PicksOk(pool, Limits(), blockMinFeeRate, vtx, |old(vtx)|, picks)
      ensures match stop
              case RanOut => forall t :: t in pool ==> t in inBlock || WasRejected(pool, Limits(), vtx, t)
              case FoundCheap => RestCheap()
              case NearlyFull => nBlockWeight > nBlockMaxWeight - 4000
      ensures stop == NearlyFull <==> nBlockWeight > nBlockMaxWeight - 4000 && Failures(log) > 1000
      ensures |picks| == Count(log, Taken)
    {
      hide *;
      var failed: set<Tx> := {};
      picks, log := [], [];
      var modified := StartPackages();
      var unvisited, consecutiveFailed := pool.Keys, 0;
      stop := RanOut;
      PackagingStart(unvisited, modified, failed);
      while stop == RanOut && (unvisited != {} || modified.Keys != {})
        invariant Packaging(|old(vtx)|, unvisited, modified, failed, picks, log, stop) && old(vtx) <= vtx
        invariant consecutiveFailed == Failures(log)
        decreases stop == RanOut, |pool.Keys - inBlock|, |unvisited|, |modified.Keys|
      {
        PackagingParts(|old(vtx)|, unvisited, modified, failed, picks, log, stop);
        ProgressBlock(unvisited, modified, failed);
        var outcome;
        ghost var pick, v := Pick(0, 0, map[], Modified(0, 0, 0)), vtx;
        ghost var open, left, keys := pool.Keys - inBlock, unvisited, modified.Keys;
        outcome, unvisited, modified, failed, pick := PackageTurn(unvisited, modified, failed);
        LowerIs(pool.Keys - inBlock, unvisited, modified.Keys, open, left, keys);
        LogNext(log, outcome);
        match outcome {
          case TooCheap =>
            stop := FoundCheap;
          case TooBig =>
            consecutiveFailed := consecutiveFailed + 1;
            if consecutiveFailed > MAX_CONSECUTIVE_FAILURES && nBlockWeight > nBlockMaxWeight - 4000 {
              stop := NearlyFull;
            }
          case Taken =>
            consecutiveFailed := 0;
          case Skipped | Unsuitable =>
        }
        PackagingNext(|old(vtx)|, v, unvisited, modified, failed, picks, log, outcome, pick, stop);
        log := log + [outcome];
        picks := if outcome == Taken then picks + [pick] else picks;
      }
      PackagingEnd(|old(vtx)|, unvisited, modified, failed, picks, log, stop);
    }

    /** What the package loop has done so far, and whether it has to stop. */
    ghost predicate Packaging(start: nat, unvisited: set<Tx>, modified: map<Tx, Modified>, failed: set<Tx>,
                              picks: seq<Pick>, log: seq<Outcome>, stop: Stop)
      reads this
    {
      && Progress(unvisited, modified, failed) && Acyclic(pool) && start <= |vtx|
      && PicksOk(pool, Limits(), blockMinFeeRate, vtx, start, picks) && |picks| == Count(log, Taken)
      && (stop == FoundCheap ==> RestCheap())
      && (stop == NearlyFull <==> nBlockWeight > nBlockMaxWeight - 4000 && Failures(log) > 1000)
    }

    lemma PackagingStart(unvisited: set<Tx>, modified: map<Tx, Modified>, failed: set<Tx>)
      requires Progress(unvisited, modified, failed) && Acyclic(pool)
      ensures Packaging(|vtx|, unvisited, modified, failed, [], [], RanOut) && Failures([]) == 0
    {
      hide Progress, Acyclic, RestCheap;
    }

    lemma PackagingParts(start: nat, unvisited: set<Tx>, modified: map<Tx, Modified>, failed: set<Tx>,
                         picks: seq<Pick>, log: seq<Outcome>, stop: Stop)
      requires Packaging(start, unvisited, modified, failed, picks, log, stop)
      ensures Progress(unvisited, modified, failed) && Acyclic(pool) && start <= |vtx|
      ensures PicksOk(pool, Limits(), blockMinFeeRate, vtx, start, picks) && |picks| == Count(log, Taken)
      ensures stop == NearlyFull <==> nBlockWeight > nBlockMaxWeight - 4000 && Failures(log) > 1000
    {
      hide Progress, Acyclic, RestCheap, PicksOk, Failures, Count;
    }

    lemma PackagingNext(start: nat, v: seq<Tx>, unvisited: set<Tx>, modified: map<Tx, Modified>, failed: set<Tx>,
                        picks: seq<Pick>, log: seq<Outcome>, outcome: Outcome, pick: Pick, stop: Stop)
      requires Progress(unvisited, modified, failed) && Acyclic(pool) && start <= |v|
      requires PicksOk(pool, Limits(), blockMinFeeRate, v, start, picks) && |picks| == Count(log, Taken)
      requires Judged(outcome, v, pick) && (outcome == TooCheap ==> RestCheap())
      requires stop == FoundCheap <==> outcome == TooCheap
      requires stop == NearlyFull <==> outcome == TooBig && Failures(log) + 1 > MAX_CONSECUTIVE_FAILURES &&
                                       nBlockWeight > nBlockMaxWeight - 4000
      requires !(Failures(log) > 1000 && WeightOf(v) > nBlockMaxWeight - 4000)
      ensures Packaging(start, unvisited, modified, failed, if outcome == Taken then picks + [pick] else picks,
                        log + [outcome], stop)
    {
      hide Progress, Acyclic, RestCheap, PicksOk, Failures, Count, Judged, PickOk, WeightOf, ToSet;
      LogNext(log, outcome);
      JudgedIs(outcome, v, pick);
      ProgressBlock(unvisited, modified, failed);
      if outcome == Taken {
        PickLonger(pool, Limits(), blockMinFeeRate, v, vtx, pick);
        PicksNext(pool, Limits(), blockMinFeeRate, v, vtx, start, picks, pick);
      }
    }

    lemma PackagingEnd(start: nat, unvisited: set<Tx>, modified: map<Tx, Modified>, failed: set<Tx>,
                       picks: seq<Pick>, log: seq<Outcome>, stop: Stop)
      requires Packaging(start, unvisited, modified, failed, picks, log, stop)
      requires stop == RanOut ==> unvisited == {} && modified.Keys == {}
      ensures Sound(fNeedSizeAccounting) && Acyclic(pool)
      ensures PicksOk(pool, Limits(), blockMinFeeRate, vtx, start, picks) && |picks| == Count(log, Taken)
      ensures match stop
              case RanOut => forall t :: t in pool ==> t in inBlock || WasRejected(pool, Limits(), vtx, t)
              case FoundCheap => RestCheap()
              case NearlyFull => nBlockWeight > nBlockMaxWeight - 4000
      ensures stop == NearlyFull <==> nBlockWeight > nBlockMaxWeight - 4000 && Failures(log) > 1000
    {
      hide Progress, Acyclic, RestCheap, PicksOk, Failures, Count, WasRejected, Sound;
      ProgressFacts(unvisited, modified, failed);
      if stop == RanOut {
        assert modified == map[];
        ProgressEnd(failed);
      }
    }
  }

  /** How many packages in a row were too big, since the last that was taken. */
  function Failures(log: seq<Outcome>): nat {
    if log == [] then 0
    else
      var n := |log| - 1;
      if log[n] == Taken then 0 else Failures(log[..n]) + if log[n] == TooBig then 1 else 0
  }

  function Count(log: seq<Outcome>, o: Outcome): nat {
    if log == [] then 0 else Count(log[..|log| - 1], o) + if log[|log| - 1] == o then 1 else 0
  }

  lemma LogNext(log: seq<Outcome>, o: Outcome)
    ensures Failures(log + [o]) == if o == Taken then 0 else Failures(log) + if o == TooBig then 1 else 0
    ensures Count(log + [o], Taken) == Count(log, Taken) + if o == Taken then 1 else 0
  {
    assert (log + [o])[..|log|] == log;
  }

  /** Why the package loop stopped. */
  datatype Stop = RanOut | FoundCheap | NearlyFull

  /** The whole block: the reserved coinbase, then the selection. */
  method CreateNewBlock(assembler: Assembler, includeWitness: bool, prioritySize: nat, priority: Tx -> real,
                        subsidy: int)
    returns (stop: Stop, coinbaseValue: int, ghost first: nat, ghost ending: Ending, ghost picks: seq<Pick>)
    requires ValidPool(assembler.pool) && assembler.nBlockMaxWeight >= 4000 && assembler.nBlockMaxSize >= 1000
    modifies assembler
    ensures assembler.fIncludeWitness == includeWitness
    ensures assembler.fNeedSizeAccounting == old(assembler.fNeedSizeAccounting)
    ensures assembler.Sound(assembler.fNeedSizeAccounting)
    ensures assembler.nBlockWeight <= assembler.nBlockMaxWeight && assembler.nBlockSigOpsCost <= 80_000
    ensures coinbaseValue == subsidy + Fees(assembler.pool, assembler.vtx)
    ensures var limit := if assembler.nBlockMaxSize < prioritySize then assembler.nBlockMaxSize else prioritySize;
            && first <= |assembler.vtx|
            && ByPriority(assembler.pool, assembler.PriorityRules(), assembler.vtx[..first], priority, limit, ending)
    ensures PicksOk(assembler.pool, assembler.Limits(), assembler.blockMinFeeRate, assembler.vtx, first, picks)
    ensures stop == RanOut ==> forall t :: t in assembler.pool ==>
              t in assembler.inBlock || WasRejected(assembler.pool, assembler.Limits(), assembler.vtx, t)
    ensures stop == FoundCheap ==> assembler.RestCheap()
    ensures stop == NearlyFull ==> assembler.nBlockWeight > assembler.nBlockMaxWeight - 4000
  {
    hide *;
    StartBlock(assembler, includeWitness);
    ending := assembler.AddPriorityTxs(prioritySize, priority);
    first := |assembler.vtx|;
    ValidIsAcyclic(assembler.pool);
    assembler.SoundUncounted();
    ghost var v, log := assembler.vtx, [];
    stop, picks, log := assembler.AddPackageTxs();
    assert assembler.vtx[..first] == v;
    assembler.SoundFees(assembler.fNeedSizeAccounting);
    assembler.SameRules();
    coinbaseValue := assembler.nFees + subsidy;
  }

  /** Nothing but the reserved coinbase. */
  method StartBlock(assembler: Assembler, includeWitness: bool)
    requires ValidPool(assembler.pool) && assembler.nBlockMaxWeight >= 4000 && assembler.nBlockMaxSize >= 1000
    modifies assembler
    ensures assembler.fIncludeWitness == includeWitness
    ensures assembler.fNeedSizeAccounting == old(assembler.fNeedSizeAccounting)
    ensures assembler.Sound(true) && assembler.vtx == [] && !assembler.blockFinished && assembler.lastFewTxs == 0
  {
    assembler.ResetBlock();
    EmptySelection(assembler.pool, includeWitness);
    assembler.fIncludeWitness := includeWitness;
    hide ValidPool, Total, Weight, SigOps, Serialized, Selection;
  }

  lemma EmptySelection(pool: Pool, includeWitness: bool)
    ensures Selection(pool, [], {}, includeWitness)
  {
  }

  lemma ValidIsAcyclic(pool: Pool)
    requires ValidPool(pool)
    ensures Acyclic(pool)
  {
  }

  /** What comes of one turn of the package loop. */
  datatype Outcome = Skipped | TooCheap | TooBig | Unsuitable | Taken

  /** The measure of the package loop goes down. */
  ghost predicate Lower(open: set<Tx>, unvisited: set<Tx>, modified: set<Tx>, open0: set<Tx>, unvisited0: set<Tx>,
                        modified0: set<Tx>) {
    || |open| < |open0|
    || (|open| == |open0| && |unvisited| < |unvisited0|)
    || (|open| == |open0| && |unvisited| == |unvisited0| && |modified| < |modified0|)
  }

  lemma LowerIs(open: set<Tx>, unvisited: set<Tx>, modified: set<Tx>, open0: set<Tx>, unvisited0: set<Tx>,
                modified0: set<Tx>)
    ensures Lower(open, unvisited, modified, open0, unvisited0, modified0) ==>
              || |open| < |open0| || (|open| == |open0| && |unvisited| < |unvisited0|)
              || (|open| == |open0| && |unvisited| == |unvisited0| && |modified| < |modified0|)
  {
  }

  lemma LowerSkip(open: set<Tx>, unvisited: set<Tx>, modified: set<Tx>, t: Tx)
    requires t in unvisited
    ensures Lower(open, unvisited - {t}, modified, open, unvisited, modified)
  {
  }

  lemma LowerNext(open: set<Tx>, open0: set<Tx>, unvisited: set<Tx>, modified: map<Tx, Modified>, t: Tx,
                  usingModified: bool, m: map<Tx, Modified>, rest: set<Tx>)
    requires |open| < |open0| || (open == open0 && m == modified - {t})
    requires if usingModified then t in modified && rest == unvisited
             else t in unvisited && t !in modified && rest == unvisited - {t}
    ensures Lower(open, rest, m.Keys, open0, unvisited, modified.Keys)
  {
    if usingModified {
      assert (modified - {t}).Keys == modified.Keys - {t};
    } else {
      assert (modified - {t}).Keys == modified.Keys;
    }
  }

  lemma TrackedStart(pool: Pool, v: seq<Tx>, s: set<Tx>, earlier: map<Tx, Tx>, makers: map<Tx, Tx>,
                     includeWitness: bool)
    requires ValidPool(pool) && Selection(pool, v, s, includeWitness) && Made(pool, map[], earlier, makers, s, s)
    ensures s <= pool.Keys && Tracked(pool, s, Updated(pool, map[], makers, s), makers, {})
  {
    var none: map<Tx, Modified> := map[];
    assert none - s == none;
    assert {} + s == s;
    UpdatedTracked(pool, {}, none, earlier, makers, {}, s);
  }

  lemma TrackedKeys(pool: Pool, inBlock: set<Tx>, m: map<Tx, Modified>, makers: map<Tx, Tx>, failed: set<Tx>)
    requires Acyclic(pool) && Tracked(pool, inBlock, m, makers, failed)
    ensures m.Keys <= pool.Keys && m.Keys !! inBlock
  {
    assert forall t :: t in m ==> RecordOk(pool, inBlock, makers, failed, t, m[t]);
  }

  lemma TrackedDrop(pool: Pool, inBlock: set<Tx>, m: map<Tx, Modified>, makers: map<Tx, Tx>, failed: set<Tx>, t: Tx)
    requires Acyclic(pool) && Tracked(pool, inBlock, m, makers, failed)
    ensures Tracked(pool, inBlock, m - {t}, makers, failed + {t})
  {
  }

  lemma UpdatedKeepsKeys(pool: Pool, m: map<Tx, Modified>, makers: map<Tx, Tx>, added: set<Tx>)
    requires Acyclic(pool)
    ensures m.Keys <= Updated(pool, m, makers, added).Keys
  {
    forall d | d in m ensures d in Updated(pool, m, makers, added) {
      assert Lookup(Updated(pool, m, makers, added), d) == UpdatedAt(pool, m, makers, added, added, d);
    }
  }

  lemma SelectionClosed(pool: Pool, v: seq<Tx>, s: set<Tx>, includeWitness: bool)
    requires Selection(pool, v, s, includeWitness)
    ensures Closed(pool, s)
  {
    InOrderClosed(pool, v);
  }

  lemma WeightBound(pool: Pool, s: set<Tx>)
    requires ValidPool(pool) && s <= pool.Keys
    ensures Total(Weight(pool), s) <= WITNESS_SCALE_FACTOR * Total(Size(pool), s)
  {
    TotalAtMost(Weight(pool), Size(pool), s);
  }

  lemma RemainingInPool(pool: Pool, inBlock: set<Tx>, t: Tx)
    requires Acyclic(pool) && t in pool
    ensures Remaining(pool, inBlock, t) <= pool.Keys && Remaining(pool, inBlock, t) !! inBlock
    ensures t !in inBlock ==> t in Remaining(pool, inBlock, t)
  {
  }

  lemma RemainingNatural(pool: Pool, inBlock: set<Tx>, t: Tx)
    requires Acyclic(pool) && t in pool
    ensures Total(Size(pool), Remaining(pool, inBlock, t)) >= 0 && Total(SigOps(pool), Remaining(pool, inBlock, t)) >= 0
  {
    hide Total, Acyclic, Remaining;
    TotalNatural(Size(pool), Remaining(pool, inBlock, t));
    TotalNatural(SigOps(pool), Remaining(pool, inBlock, t));
  }

  lemma PrefixNext(pool: Pool, s: set<Tx>, v: seq<Tx>, i: int)
    requires s <= pool.Keys && Arranged(pool, s, v) && 0 <= i < |v|
    ensures ToSet(v[..i + 1]) == ToSet(v[..i]) + {v[i]} && v[i] !in ToSet(v[..i]) && v[i] in s
  {
    assert v[..i + 1] == v[..i] + [v[i]];
    assert v[i] in ToSet(v);
  }

  /** t has the fewest ancestors in s. */
  predicate Least(pool: Pool, s: set<Tx>, t: Tx)
    requires s <= pool.Keys && t in pool
  {
    forall u :: u in s ==> pool[t].countWithAncestors <= pool[u].countWithAncestors
  }

  lemma {:induction false} LeastCount(pool: Pool, s: set<Tx>)
    requires s != {} && s <= pool.Keys
    ensures exists t :: t in s && Least(pool, s, t)
    decreases |s|
  {
    Sets.Inhabited(s);
    var x :| x in s;
    if s == {x} {
      assert Least(pool, s, x);
    } else {
      var r := s - {x};
      LeastCount(pool, r);
      var y :| y in r && Least(pool, r, y);
      assert Least(pool, s, if pool[x].countWithAncestors <= pool[y].countWithAncestors then x else y);
    }
  }

  /** v lists the set s once each, by ascending ancestor count. */
  ghost predicate Arranged(pool: Pool, s: set<Tx>, v: seq<Tx>)
    requires s <= pool.Keys
  {
    && ToSet(v) == s
    && (forall i, j :: 0 <= i < j < |v| ==> v[i] != v[j])
    && (forall i, j :: 0 <= i < j < |v| && v[i] in pool && v[j] in pool ==>
          pool[v[i]].countWithAncestors <= pool[v[j]].countWithAncestors)
  }

  lemma ArrangedNext(pool: Pool, s: set<Tx>, v: seq<Tx>, t: Tx)
    requires s <= pool.Keys && Arranged(pool, s, v) && t in pool && t !in s
    requires forall u :: u in v && u in pool ==> pool[u].countWithAncestors <= pool[t].countWithAncestors
    ensures Arranged(pool, s + {t}, v + [t]) && ToSet(v + [t]) == s + {t}
  {
    assert forall x :: x in v + [t] <==> x in v || x == t;
    assert forall i :: 0 <= i < |v| ==> v[i] in ToSet(v);
  }

  /** Parents of a package's transaction are in the block or earlier in the arrangement. */
  lemma ParentsFirst(pool: Pool, inBlock: set<Tx>, t: Tx, v: seq<Tx>, i: int)
    requires Acyclic(pool) && t in pool && Remaining(pool, inBlock, t) <= pool.Keys
    requires Arranged(pool, Remaining(pool, inBlock, t), v) && 0 <= i < |v|
    ensures v[i] in pool && v[i] !in inBlock && pool[v[i]].parents <= inBlock + ToSet(v[..i])
  {
    var u := v[i];
    assert u in ToSet(v);
    if u != t {
      AncestorsClosed(pool, t, u);
    }
    forall p | p in pool[u].parents && p !in inBlock ensures p in v[..i] {
      assert p in Ancestors(pool, u) && p in Package(pool, t) && p in ToSet(v);
      var j :| 0 <= j < |v| && v[j] == p;
      assert j < i;
      assert v[..i][j] == p;
    }
  }

  lemma SerializedAt(pool: Pool)
    ensures forall t :: t in pool ==> Serialized(pool)(t) == pool[t].serialized
    ensures Natural(Serialized(pool))
  {
  }
}
