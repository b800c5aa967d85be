/** The memory pool as block assembly sees it: a finite DAG of entries with cached ancestor totals. */
module Mempool {
  import Sets

  type Tx = int

  /** A pool entry. `parents` are its in-pool parents; `fee` is what it pays and `feeDelta` what an
      operator adds for ranking it; the last four fields are the cached totals over the entry and all its
      in-pool ancestors, the last one of the fees with their deltas. */
  datatype Entry = Entry(parents: set<Tx>, size: nat, weight: nat, sigops: nat, serialized: nat, fee: int,
                         feeDelta: int, isFinal: bool, hasWitness: bool, countWithAncestors: nat,
                         sizeWithAncestors: nat, sigopsWithAncestors: nat, modFeesWithAncestors: int)

  type Pool = map<Tx, Entry>

  const WITNESS_SCALE_FACTOR := 4

  /** Parents are in the pool and have fewer ancestors, so the pool has no cycle. */
  predicate Acyclic(pool: Pool) {
    forall t, p :: t in pool && p in pool[t].parents ==>
      p in pool && pool[p].countWithAncestors < pool[t].countWithAncestors
  }

  /** t depends on a, directly or not. */
  predicate Above(pool: Pool, a: Tx, t: Tx)
    requires Acyclic(pool) && t in pool
    ensures Above(pool, a, t) ==> a in pool && pool[a].countWithAncestors < pool[t].countWithAncestors
    decreases pool[t].countWithAncestors
  {
    a in pool[t].parents || exists p :: p in pool[t].parents && Above(pool, a, p)
  }

  lemma {:induction false} AboveTransitive(pool: Pool, a: Tx, b: Tx, t: Tx)
    requires Acyclic(pool) && t in pool && Above(pool, b, t) && Above(pool, a, b)
    ensures Above(pool, a, t)
    decreases pool[t].countWithAncestors
  {
    if b !in pool[t].parents {
      var p :| p in pool[t].parents && Above(pool, b, p);
      AboveTransitive(pool, a, b, p);
    }
  }

  function Ancestors(pool: Pool, t: Tx): set<Tx>
    requires Acyclic(pool) && t in pool
  {
    set a | a in pool && Above(pool, a, t)
  }

  /** Ancestors of ancestors are ancestors. */
  lemma AncestorsClosed(pool: Pool, t: Tx, a: Tx)
    requires Acyclic(pool) && t in pool && a in Ancestors(pool, t)
    ensures Ancestors(pool, a) <= Ancestors(pool, t)
  {
    forall b | b in Ancestors(pool, a) ensures b in Ancestors(pool, t) {
      AboveTransitive(pool, b, a, t);
    }
  }

  // ---------------------------------------------------------------- totals over sets

  ghost function Total(w: Tx -> int, s: set<Tx>): int {
    if s == {} then 0
    else
      Sets.Inhabited(s);
      var x :| x in s;
      w(x) + Total(w, s - {x})
  }

  lemma TotalEmpty(w: Tx -> int)
    ensures Total(w, {}) == 0
  {
  }

  lemma {:induction false} TotalWithout(w: Tx -> int, s: set<Tx>, x: Tx)
    requires x in s
    ensures Total(w, s) == w(x) + Total(w, s - {x})
    decreases |s|
  {
    Sets.Inhabited(s);
    var y :| y in s && Total(w, s) == w(y) + Total(w, s - {y});
    if y != x {
      TotalWithout(w, s - {y}, x);
      TotalWithout(w, s - {x}, y);
      assert s - {y} - {x} == s - {x} - {y};
    }
  }

  lemma TotalWith(w: Tx -> int, s: set<Tx>, x: Tx)
    requires x !in s
    ensures Total(w, s + {x}) == Total(w, s) + w(x)
  {
    TotalWithout(w, s + {x}, x);
    assert s + {x} - {x} == s;
  }

  lemma TotalOne(w: Tx -> int, x: Tx)
    ensures Total(w, {x}) == w(x)
  {
    TotalEmpty(w);
    TotalWith(w, {}, x);
    assert {} + {x} == {x};
  }

  lemma {:induction false} TotalUnion(w: Tx -> int, a: set<Tx>, b: set<Tx>)
    requires a !! b
    ensures Total(w, a + b) == Total(w, a) + Total(w, b)
    decreases |b|
  {
    if b == {} {
      assert a + b == a;
    } else {
      Sets.Inhabited(b);
      var x :| x in b;
      TotalUnion(w, a, b - {x});
      TotalWithout(w, b, x);
      TotalWithout(w, a + b, x);
      assert a + b - {x} == a + (b - {x});
    }
  }

  lemma TotalMinus(w: Tx -> int, a: set<Tx>, b: set<Tx>)
    ensures Total(w, a - b) == Total(w, a) - Total(w, a * b)
  {
    TotalUnion(w, a - b, a * b);
    assert (a - b) + (a * b) == a;
  }

  ghost predicate Natural(w: Tx -> int) {
    forall x :: w(x) >= 0
  }

  lemma {:induction false} TotalNatural(w: Tx -> int, s: set<Tx>)
    requires Natural(w)
    ensures Total(w, s) >= 0
    decreases |s|
  {
    if s != {} {
      Sets.Inhabited(s);
      var x :| x in s;
      TotalWithout(w, s, x);
      TotalNatural(w, s - {x});
    }
  }

  lemma {:induction false} TotalAtMost(w: Tx -> int, v: Tx -> int, s: set<Tx>)
    requires forall x :: x in s ==> w(x) <= WITNESS_SCALE_FACTOR * v(x)
    ensures Total(w, s) <= WITNESS_SCALE_FACTOR * Total(v, s)
    decreases |s|
  {
    if s != {} {
      Sets.Inhabited(s);
      var x :| x in s;
      TotalWithout(w, s, x);
      TotalWithout(v, s, x);
      TotalAtMost(w, v, s - {x});
      hide Total;
    }
  }

  // ---------------------------------------------------------------- the pool's own invariant

  function Size(pool: Pool): Tx -> int { t => if t in pool then pool[t].size else 0 }
  function Weight(pool: Pool): Tx -> int { t => if t in pool then pool[t].weight else 0 }
  function SigOps(pool: Pool): Tx -> int { t => if t in pool then pool[t].sigops else 0 }
  function Serialized(pool: Pool): Tx -> int { t => if t in pool then pool[t].serialized else 0 }

  function BaseFee(pool: Pool): Tx -> int { t => if t in pool then pool[t].fee else 0 }
  function FeeDelta(pool: Pool): Tx -> int { t => if t in pool then pool[t].feeDelta else 0 }
  function ModifiedFee(pool: Pool): Tx -> int { t => if t in pool then pool[t].fee + pool[t].feeDelta else 0 }

  lemma {:induction false} ModifiedFees(pool: Pool, s: set<Tx>)
    ensures Total(ModifiedFee(pool), s) == Total(BaseFee(pool), s) + Total(FeeDelta(pool), s)
    decreases |s|
  {
    if s != {} {
      Sets.Inhabited(s);
      var x :| x in s;
      TotalWithout(ModifiedFee(pool), s, x);
      TotalWithout(BaseFee(pool), s, x);
      TotalWithout(FeeDelta(pool), s, x);
      ModifiedFees(pool, s - {x});
    }
  }

  /** An entry and its ancestors. */
  function Package(pool: Pool, t: Tx): set<Tx>
    requires Acyclic(pool) && t in pool
  {
    Ancestors(pool, t) + {t}
  }

  /** What the memory pool maintains: cached totals are right, no transaction is empty, and a virtual size is
      at least a quarter of the weight. */
  ghost predicate ValidPool(pool: Pool) {
    && Acyclic(pool)
    && (forall t :: t in pool ==> pool[t].countWithAncestors == |Ancestors(pool, t)| + 1)
    && (forall t :: t in pool ==> pool[t].sizeWithAncestors == Total(Size(pool), Package(pool, t)))
    && (forall t :: t in pool ==> pool[t].sigopsWithAncestors == Total(SigOps(pool), Package(pool, t)))
    && (forall t :: t in pool ==> pool[t].modFeesWithAncestors == Total(ModifiedFee(pool), Package(pool, t)))
    && (forall t :: t in pool ==> pool[t].size > 0)
    && (forall t :: t in pool ==> pool[t].weight <= WITNESS_SCALE_FACTOR * pool[t].size)
  }

  /** CalculateDescendants: t itself and everything that depends on it. */
  function Descendants(pool: Pool, a: Tx): set<Tx>
    requires Acyclic(pool)
  {
    set d | d in pool && (d == a || Above(pool, a, d))
  }
}
