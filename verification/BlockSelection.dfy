/** What may go into a block, and what it means that block assembly selected or left out a transaction: by priority
    first, then package by package. */
module BlockSelection {
  import opened Mempool
  import opened PackageTracking
  import opened FeeRates
  import Sets

  const MAX_BLOCK_SIGOPS_COST := 80_000

  /** Final at the next block, and without a witness before witnesses are allowed. */
  predicate Admissible(e: Entry, includeWitness: bool) {
    e.isFinal && (includeWitness || !e.hasWitness)
  }

  /** v lists the set s without repetition, parents first, and only admissible transactions. */
  ghost predicate Selection(pool: Pool, v: seq<Tx>, s: set<Tx>, includeWitness: bool) {
    InOrder(pool, v) && s == ToSet(v) && s <= pool.Keys && forall t :: t in s ==> Admissible(pool[t], includeWitness)
  }

  lemma SelectionNext(pool: Pool, v: seq<Tx>, s: set<Tx>, includeWitness: bool, t: Tx)
    requires Selection(pool, v, s, includeWitness)
    requires t in pool && t !in s && pool[t].parents <= s && Admissible(pool[t], includeWitness)
    ensures Selection(pool, v + [t], s + {t}, includeWitness)
    ensures Fees(pool, v + [t]) == Fees(pool, v) + pool[t].fee
    ensures Total(Weight(pool), s + {t}) == Total(Weight(pool), s) + pool[t].weight
    ensures Total(SigOps(pool), s + {t}) == Total(SigOps(pool), s) + pool[t].sigops
    ensures Total(Serialized(pool), s + {t}) == Total(Serialized(pool), s) + pool[t].serialized
  {
    InOrderNext(pool, v, t);
    FeesNext(pool, v, t);
    hide InOrder, Fees;
    TotalWith(Weight(pool), s, t);
    TotalWith(SigOps(pool), s, t);
    TotalWith(Serialized(pool), s, t);
  }

  /** The limits of a block and what may go into it. */
  datatype Rules = Rules(maxWeight: nat, maxSize: nat, sizes: bool, includeWitness: bool)

  /** With only b selected, what is left of t's package has too large a total size or holds something inadmissible. */
  ghost predicate Unsuited(pool: Pool, rules: Rules, b: set<Tx>, t: Tx)
    requires Acyclic(pool) && t in pool
  {
    var r := Remaining(pool, b, t);
    || (rules.sizes && 1000 + Total(Serialized(pool), b) + Total(Serialized(pool), r) >= rules.maxSize)
    || exists u :: u in r && u in pool && !Admissible(pool[u], rules.includeWitness)
  }

  /** With only b selected, a package of this size and sigops is too big. */
  ghost predicate TooMuch(pool: Pool, rules: Rules, b: set<Tx>, size: int, sigops: int) {
    || 4000 + Total(Weight(pool), b) + WITNESS_SCALE_FACTOR * size >= rules.maxWeight
    || 400 + Total(SigOps(pool), b) + sigops >= MAX_BLOCK_SIGOPS_COST
  }

  /** With only b selected, t does not pass the tests of the package loop on this size and sigops of its package. */
  ghost predicate TestsFail(pool: Pool, rules: Rules, b: set<Tx>, t: Tx, size: int, sigops: int)
    requires Acyclic(pool) && t in pool
  {
    TooMuch(pool, rules, b, size, sigops) || Unsuited(pool, rules, b, t)
  }

  /** With only b selected, t fails on what is really left of its package. */
  ghost predicate Rejected(pool: Pool, rules: Rules, b: set<Tx>, t: Tx)
    requires Acyclic(pool) && t in pool
  {
    var r := Remaining(pool, b, t);
    TestsFail(pool, rules, b, t, Total(Size(pool), r), Total(SigOps(pool), r))
  }

  /** t was rejected when the block held no more than a first part of v. */
  ghost predicate WasRejected(pool: Pool, rules: Rules, v: seq<Tx>, t: Tx)
    requires Acyclic(pool) && t in pool
  {
    exists k :: 0 <= k <= |v| && Rejected(pool, rules, ToSet(v[..k]), t)
  }

  lemma WasRejectedMonotone(pool: Pool, rules: Rules, v: seq<Tx>, w: seq<Tx>)
    requires Acyclic(pool) && v <= w
    ensures forall t :: t in pool && WasRejected(pool, rules, v, t) ==> WasRejected(pool, rules, w, t)
  {
    forall t | t in pool && WasRejected(pool, rules, v, t) ensures WasRejected(pool, rules, w, t) {
      var k :| 0 <= k <= |v| && Rejected(pool, rules, ToSet(v[..k]), t);
      assert v[..k] == w[..k];
    }
  }

  // ---------------------------------------------------------------- by priority

  const COIN := 100_000_000

  /** AllowFree. */
  predicate AllowFree(priority: real): (free: bool)
    ensures free <==> priority > 57_600_000.0
  {
    priority > (COIN * 144 / 250) as real
  }

  predicate WitnessOk(e: Entry, includeWitness: bool) {
    includeWitness || !e.hasWitness
  }

  /** With only b selected, t alone stays below all limits; sizes are counted. */
  ghost predicate FitsAlone(pool: Pool, rules: Rules, b: set<Tx>, t: Tx) {
    && t in pool && pool[t].isFinal
    && 4000 + Total(Weight(pool), b) + pool[t].weight < rules.maxWeight
    && 1000 + Total(Serialized(pool), b) + pool[t].serialized < rules.maxSize
    && 400 + Total(SigOps(pool), b) + pool[t].sigops < MAX_BLOCK_SIGOPS_COST
  }

  /** t could be the next transaction after b. */
  ghost predicate Ready(pool: Pool, rules: Rules, b: set<Tx>, t: Tx) {
    && t in pool && t !in b && pool[t].parents <= b
    && WitnessOk(pool[t], rules.includeWitness) && FitsAlone(pool, rules, b, t)
  }

  lemma ReadyParents(pool: Pool, rules: Rules, b: set<Tx>, t: Tx)
    ensures Ready(pool, rules, b, t) ==> t in pool && t !in b && pool[t].parents <= b
  {
    hide FitsAlone;
  }

  lemma TotalGrows(w: Tx -> int, b: set<Tx>, c: set<Tx>)
    requires Natural(w) && b <= c
    ensures Total(w, b) <= Total(w, c)
  {
    TotalUnion(w, b, c - b);
    assert b + (c - b) == c;
    TotalNatural(w, c - b);
  }

  /** What does not fit does not fit later. */
  lemma FitsLess(pool: Pool, rules: Rules, b: set<Tx>, c: set<Tx>, t: Tx)
    requires b <= c && FitsAlone(pool, rules, c, t)
    ensures FitsAlone(pool, rules, b, t)
  {
    TotalGrows(Weight(pool), b, c);
    TotalGrows(Serialized(pool), b, c);
    TotalGrows(SigOps(pool), b, c);
    hide Total;
  }

  /** Why the selection by priority ended. */
  datatype Ending = Disabled | QueueEmpty | BlockFinished | SizeReached | PriorityLow

  /** The block is nearly full in one respect. */
  ghost predicate Crowded(pool: Pool, rules: Rules, b: set<Tx>) {
    || 4000 + Total(Weight(pool), b) > rules.maxWeight - 4000
    || 1000 + Total(Serialized(pool), b) > rules.maxSize - 1000
    || 400 + Total(SigOps(pool), b) > MAX_BLOCK_SIGOPS_COST - 8
  }

  lemma CrowdedStays(pool: Pool, rules: Rules, b: set<Tx>, c: set<Tx>)
    requires b <= c && Crowded(pool, rules, b)
    ensures Crowded(pool, rules, c)
  {
    TotalGrows(Weight(pool), b, c);
    TotalGrows(Serialized(pool), b, c);
    TotalGrows(SigOps(pool), b, c);
    hide Total;
  }

  /** Number k of v was ready when it was selected, and of all that were ready none had a higher priority. */
  ghost predicate Foremost(pool: Pool, rules: Rules, v: seq<Tx>, priority: Tx -> real, k: nat)
    requires k < |v|
  {
    var b := ToSet(v[..k]);
    && Ready(pool, rules, b, v[k])
    && forall u :: u in pool && Ready(pool, rules, b, u) ==> priority(u) <= priority(v[k])
  }

  /** Before the last of v there was room left in the part of the block for priorities, and they were not too low. */
  ghost predicate GoesOn(pool: Pool, v: seq<Tx>, priority: Tx -> real, limit: nat, k: nat)
    requires 0 < k <= |v|
  {
    1000 + Total(Serialized(pool), ToSet(v[..k])) < limit && AllowFree(priority(v[k - 1]))
  }

  /** v was selected by priority, so far. */
  ghost predicate Prioritized(pool: Pool, rules: Rules, v: seq<Tx>, priority: Tx -> real, limit: nat) {
    && (forall k :: 0 <= k < |v| ==> Foremost(pool, rules, v, priority, k))
    && (forall k :: 0 < k < |v| ==> GoesOn(pool, v, priority, limit, k))
  }

  /** All of v was selected by priority, and this is why it ended: there was nothing else ready, the block was nearly
      full, the part of the block for priorities was used up, or priorities were too low. */
  ghost predicate ByPriority(pool: Pool, rules: Rules, v: seq<Tx>, priority: Tx -> real, limit: nat, ending: Ending) {
    && Prioritized(pool, rules, v, priority, limit)
    && match ending
       case Disabled => v == [] && limit == 0
       case QueueEmpty => forall t :: t in pool ==> !Ready(pool, rules, ToSet(v), t)
       case BlockFinished => Crowded(pool, rules, ToSet(v))
       case SizeReached => v != [] && 1000 + Total(Serialized(pool), ToSet(v)) >= limit
       case PriorityLow => v != [] && !AllowFree(priority(v[|v| - 1]))
  }

  lemma PrioritizedNext(pool: Pool, rules: Rules, v: seq<Tx>, priority: Tx -> real, limit: nat, t: Tx)
    requires Prioritized(pool, rules, v, priority, limit) && Ready(pool, rules, ToSet(v), t)
    requires forall u :: u in pool && Ready(pool, rules, ToSet(v), u) ==> priority(u) <= priority(t)
    requires v != [] ==> GoesOn(pool, v, priority, limit, |v|)
    ensures Prioritized(pool, rules, v + [t], priority, limit)
  {
    hide Ready, ToSet, AllowFree, Total;
    var w := v + [t];
    forall k | 0 <= k < |w| ensures Foremost(pool, rules, w, priority, k) {
      if k < |v| {
        assert Foremost(pool, rules, v, priority, k) && w[..k] == v[..k];
      } else {
        assert w[..k] == v;
      }
    }
    forall k | 0 < k < |w| ensures GoesOn(pool, w, priority, limit, k) {
      assert w[..k] == v[..k] && w[k - 1] == v[k - 1];
      assert v[..|v|] == v;
      if k < |v| {
        assert GoesOn(pool, v, priority, limit, k);
      }
    }
  }

  // ---------------------------------------------------------------- package by package

  /** What is left of t's package when b is selected. */
  ghost function Left(pool: Pool, b: set<Tx>, makers: map<Tx, Tx>, t: Tx): Modified
    requires Acyclic(pool) && t in pool
  {
    var r := Remaining(pool, b, t);
    Modified(Total(Size(pool), r), Total(SigOps(pool), r), FeesLeft(pool, b, makers, t))
  }

  /** A candidate, with what was recorded for it and who had made the records, when the block had `at` transactions. */
  datatype Pick = Pick(t: Tx, at: nat, makers: map<Tx, Tx>, record: Modified)

  /** With v selected, p is the candidate to look at: its record is right unless it was rejected before, and of all that
      were not rejected none has a better rate for what is left of its package. */
  ghost predicate Chosen(pool: Pool, rules: Rules, v: seq<Tx>, p: Pick)
    requires Acyclic(pool)
  {
    && p.at == |v| && p.t in pool && p.t !in v && p.record.size > 0
    && (WasRejected(pool, rules, v, p.t) || p.record == Left(pool, ToSet(v), p.makers, p.t))
    && forall u :: u in pool && u !in v && !WasRejected(pool, rules, v, u) ==>
         !Better(Left(pool, ToSet(v), p.makers, u), p.record)
  }

  /** The candidate pays the minimum rate, passes the tests, and what was left of its package makes w of v. */
  ghost predicate PickOk(pool: Pool, rules: Rules, rate: nat, v: seq<Tx>, w: seq<Tx>, p: Pick)
    requires Acyclic(pool)
  {
    && Chosen(pool, rules, v, p) && p.record.fees >= GetFee(rate, p.record.size)
    && !TestsFail(pool, rules, ToSet(v), p.t, p.record.size, p.record.sigops)
    && v <= w && ToSet(w) == ToSet(v) + Remaining(pool, ToSet(v), p.t)
  }

  /** From its first `start` transactions on, v consists of the packages of these picks. */
  ghost predicate PicksOk(pool: Pool, rules: Rules, rate: nat, v: seq<Tx>, start: nat, picks: seq<Pick>)
    requires Acyclic(pool)
    decreases |picks|
  {
    if picks == [] then |v| == start
    else
      var p := picks[|picks| - 1];
      start <= p.at <= |v| && PickOk(pool, rules, rate, v[..p.at], v, p) &&
      PicksOk(pool, rules, rate, v[..p.at], start, picks[..|picks| - 1])
  }

  lemma PickLonger(pool: Pool, rules: Rules, rate: nat, v: seq<Tx>, w: seq<Tx>, p: Pick)
    requires Acyclic(pool) && PickOk(pool, rules, rate, v, w, p)
    ensures |v| <= |w|
  {
  }

  lemma PicksNext(pool: Pool, rules: Rules, rate: nat, v: seq<Tx>, w: seq<Tx>, start: nat, picks: seq<Pick>, p: Pick)
    requires Acyclic(pool) && PicksOk(pool, rules, rate, v, start, picks) && PickOk(pool, rules, rate, v, w, p)
    requires start <= |v|
    ensures PicksOk(pool, rules, rate, w, start, picks + [p])
  {
    hide Left, WasRejected, Better, TestsFail, ToSet, GetFee, Remaining;
    var all := picks + [p];
    assert all[..|all| - 1] == picks && w[..p.at] == v;
  }

  // ---------------------------------------------------------------- the priority queue

  /** Whatever may still be added is in the queue, or waits for a parent that is not in the block. */
  ghost predicate Queued(pool: Pool, rules: Rules, b: set<Tx>, queue: multiset<Tx>, waiting: set<Tx>) {
    && (forall u :: u in waiting ==> u in pool && u !in b && !(pool[u].parents <= b))
    && (forall u :: u in queue ==> queue[u] == 1 && u in pool && u !in b && u !in waiting)
    && (forall u :: u in pool && u !in b && WitnessOk(pool[u], rules.includeWitness) && FitsAlone(pool, rules, b, u) ==>
          u in queue || u in waiting)
  }

  lemma QueuedStart(pool: Pool, rules: Rules)
    ensures Queued(pool, rules, {}, multiset(pool.Keys), {})
  {
    hide FitsAlone;
  }

  lemma QueuedReady(pool: Pool, rules: Rules, b: set<Tx>, queue: multiset<Tx>, waiting: set<Tx>)
    requires Queued(pool, rules, b, queue, waiting)
    ensures forall u :: Ready(pool, rules, b, u) ==> u in queue
  {
    hide FitsAlone;
  }

  lemma QueuedAt(pool: Pool, rules: Rules, b: set<Tx>, queue: multiset<Tx>, waiting: set<Tx>, t: Tx)
    requires Queued(pool, rules, b, queue, waiting) && t in queue
    ensures t in pool && t !in b && |queue - multiset{t}| < |queue|
  {
    hide FitsAlone;
  }

  /** Those that wait for t. */
  function Children(pool: Pool, waiting: set<Tx>, t: Tx): set<Tx> {
    set c | c in waiting && c in pool && t in pool[c].parents
  }

  /** A candidate has been tried: it waits, is dropped or has been added, and then its children are candidates again. */
  lemma QueuedNext(pool: Pool, rules: Rules, b: set<Tx>, c: set<Tx>, queue: multiset<Tx>, waiting: set<Tx>, t: Tx,
                   wait: bool, added: bool)
    requires Queued(pool, rules, b, queue, waiting) && t in queue
    requires wait <==> WitnessOk(pool[t], rules.includeWitness) && !(pool[t].parents <= b)
    requires added <==> Ready(pool, rules, b, t)
    requires c == if added then b + {t} else b
    ensures var rest, children := queue - multiset{t}, Children(pool, waiting, t);
            if added then Queued(pool, rules, c, rest + multiset(children), waiting - children)
            else Queued(pool, rules, c, rest, if wait then waiting + {t} else waiting)
  {
    hide FitsAlone;
    if added {
      forall u | FitsAlone(pool, rules, c, u) ensures FitsAlone(pool, rules, b, u) {
        FitsLess(pool, rules, b, c, u);
      }
    }
  }

  /** t, of the highest priority in the queue, has been added. */
  lemma AddedFirst(pool: Pool, rules: Rules, v: seq<Tx>, b: set<Tx>, queue: multiset<Tx>, waiting: set<Tx>,
                   priority: Tx -> real, limit: nat, t: Tx)
    requires Prioritized(pool, rules, v, priority, limit) && (v != [] ==> GoesOn(pool, v, priority, limit, |v|))
    requires Queued(pool, rules, b, queue, waiting) && ToSet(v) == b && Ready(pool, rules, b, t)
    requires forall u :: u in queue ==> priority(u) <= priority(t)
    ensures Prioritized(pool, rules, v + [t], priority, limit)
    ensures ToSet(v + [t]) == b + {t}
    ensures var size := 1000 + Total(Serialized(pool), b + {t});
            && (GoesOn(pool, v + [t], priority, limit, |v| + 1) <==> size < limit && AllowFree(priority(t)))
            && (size >= limit ==> ByPriority(pool, rules, v + [t], priority, limit, SizeReached))
            && (!AllowFree(priority(t)) ==> ByPriority(pool, rules, v + [t], priority, limit, PriorityLow))
  {
    hide Prioritized, Ready, Queued, AllowFree, Total;
    QueuedReady(pool, rules, b, queue, waiting);
    PrioritizedNext(pool, rules, v, priority, limit, t);
    var w := v + [t];
    assert w[..|v| + 1] == w;
    assert ToSet(w) == b + {t};
  }

  lemma {:induction false} HighestOf(s: set<Tx>, priority: Tx -> real) returns (t: Tx)
    requires s != {}
    ensures t in s && forall u :: u in s ==> priority(u) <= priority(t)
    decreases |s|
  {
    Sets.Inhabited(s);
    t :| t in s;
    if s != {t} {
      var y := HighestOf(s - {t}, priority);
      assert forall u :: u in s ==> u == t || u in s - {t};
      if priority(y) > priority(t) {
        t := y;
      }
    }
  }

  lemma HighestExists(queue: multiset<Tx>, priority: Tx -> real)
    requires |queue| != 0
    ensures exists t :: t in queue && forall u :: u in queue ==> priority(u) <= priority(t)
  {
    var s := set t | t in queue;
    assert (forall t :: t !in queue) ==> queue == multiset{};
    var x :| x in queue;
    assert x in s;
    var t := HighestOf(s, priority);
    assert t in queue && forall u :: u in queue ==> u in s;
  }
}
