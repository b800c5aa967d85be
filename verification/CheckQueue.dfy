/** CCheckQueue: one master and any number of workers sharing a queue of checks under a mutex. Every
    critical section is one atomic step of a state machine over arbitrary interleavings. */
module CheckQueue {
  import opened Powers

  /** A queued verification; `ok` is what its operator() returns. */
  datatype Check = Check(id: nat, ok: bool)

  predicate Good(cs: seq<Check>) {
    forall i :: 0 <= i < |cs| ==> cs[i].ok
  }

  /** The fields the mutex protects. nTodo is a 32-bit unsigned counter. */
  datatype Shared = Shared(queue: seq<Check>, nIdle: int, nTotal: int, fAllOk: bool, nTodo: nat,
                           fQuit: bool, nBatchSize: nat)

  /** How a critical section ends: the loop returns, waits on its condition variable, or has work. */
  datatype Outcome = Return(ok: bool) | Sleep | Batch(checks: seq<Check>)

  function Min(a: nat, b: nat): nat { if a < b then a else b }
  function Max(a: nat, b: nat): nat { if a < b then b else a }

  function BatchSize(sh: Shared): nat
    requires sh.nTotal + sh.nIdle + 1 > 0
  {
    Max(1, Min(sh.nBatchSize, |sh.queue| / (sh.nTotal + sh.nIdle + 1)))
  }

  /** The last n checks, in the order the pop loop hands them out. */
  function PopOrder(queue: seq<Check>, n: nat): (r: seq<Check>)
    requires n <= |queue|
    ensures |r| == n
    ensures forall i :: 0 <= i < n ==> r[i] == queue[|queue| - 1 - i]
  {
    seq(n, i requires 0 <= i < n => queue[|queue| - 1 - i])
  }

  function Backwards(cs: seq<Check>): (r: seq<Check>)
    ensures |r| == |cs| && forall i :: 0 <= i < |r| ==> r[i] == cs[|cs| - 1 - i]
  {
    seq(|cs|, i requires 0 <= i < |cs| => cs[|cs| - 1 - i])
  }

  /** The clean-up of the previous iteration, or the head count on the first one. */
  function CleanUp(sh: Shared, nNow: nat, fOk: bool): Shared {
    if nNow > 0
    then sh.(fAllOk := sh.fAllOk && fOk, nTodo := (sh.nTodo + TWO_32 - nNow % TWO_32) % TWO_32)
    else sh.(nTotal := sh.nTotal + 1)
  }

  /** From the loop head on: return, go to sleep, or take a batch. */
  function Dispatch(sh: Shared, master: bool): (Shared, Outcome)
    requires sh.nTotal + sh.nIdle + 1 > 0
  {
    if |sh.queue| == 0 then
      if (master || sh.fQuit) && sh.nTodo == 0
      then (sh.(nTotal := sh.nTotal - 1, fAllOk := if master then true else sh.fAllOk), Return(sh.fAllOk))
      else (sh.(nIdle := sh.nIdle + 1), Sleep)
    else
      BatchFits(sh);
      var n := BatchSize(sh);
      (sh.(queue := sh.queue[..|sh.queue| - n]), Batch(PopOrder(sh.queue, n)))
  }

  // ---------------------------------------------------------------- the object

  class Queue {
    var queue: seq<Check>
    var nIdle: int
    var nTotal: int
    var fAllOk: bool
    var nTodo: nat
    var fQuit: bool
    const nBatchSize: nat

    ghost function State(): Shared
      reads this
    {
      Shared(queue, nIdle, nTotal, fAllOk, nTodo, fQuit, nBatchSize)
    }

    constructor (nBatchSizeIn: nat)
      ensures State() == Initial(nBatchSizeIn)
    {
      queue, nIdle, nTotal, fAllOk, nTodo, fQuit, nBatchSize := [], 0, 0, true, 0, false, nBatchSizeIn;
    }

    method Add(vChecks: seq<Check>)
      modifies this
      ensures State() == Push(old(State()), vChecks)
    {
      for i := 0 to |vChecks|
        invariant State() == old(State()).(queue := old(queue) + vChecks[..i])
      {
        queue := queue + [vChecks[i]];
      }
      assert vChecks[..|vChecks|] == vChecks;
      nTodo := (nTodo + |vChecks|) % TWO_32;
    }

    /** Lock to release on entering the loop body; `notify` asks for condMaster.notify_one. */
    method Begin(fMaster: bool, nNow: nat, fOk: bool) returns (r: Outcome, notify: bool)
      requires CleanUp(State(), nNow, fOk).nTotal + nIdle + 1 > 0
      modifies this
      ensures (State(), r) == Dispatch(CleanUp(old(State()), nNow, fOk), fMaster)
      ensures notify <==> nNow > 0 && !fMaster && CleanUp(old(State()), nNow, fOk).nTodo == 0
    {
      notify := false;
      if nNow > 0 {
        fAllOk := fAllOk && fOk;
        nTodo := (nTodo + TWO_32 - nNow % TWO_32) % TWO_32;
        notify := nTodo == 0 && !fMaster;
      } else {
        nTotal := nTotal + 1;
      }
      assert State() == CleanUp(old(State()), nNow, fOk);
      r := LoopHead(fMaster);
    }

    /** Re-acquired lock to release after cond.wait. */
    method Resume(fMaster: bool) returns (r: Outcome)
      requires nTotal + nIdle > 0
      modifies this
      ensures (State(), r) == Dispatch(old(State()).(nIdle := old(nIdle) - 1), fMaster)
    {
      nIdle := nIdle - 1;
      r := LoopHead(fMaster);
    }

    method LoopHead(fMaster: bool) returns (r: Outcome)
      requires nTotal + nIdle + 1 > 0
      modifies this
      ensures (State(), r) == Dispatch(old(State()), fMaster)
      ensures r.Return? <==> old(queue) == [] && (fMaster || fQuit) && old(nTodo) == 0
      ensures r.Return? ==> r.ok == old(fAllOk) && nTotal == old(nTotal) - 1
      ensures r.Sleep? ==> queue == old(queue) == [] && nIdle == old(nIdle) + 1
      ensures r.Batch? ==> old(queue) == queue + Backwards(r.checks) && nIdle == old(nIdle) && nTotal == old(nTotal)
    {
      if |queue| == 0 {
        if (fMaster || fQuit) && nTodo == 0 {
          nTotal := nTotal - 1;
          r := Return(fAllOk);
          if fMaster {
            fAllOk := true;
          }
          return;
        }
        nIdle := nIdle + 1;
        return Sleep;
      }
      var nNow := Max(1, Min(nBatchSize, |queue| / (nTotal + nIdle + 1)));
      BatchFits(State());
      var vChecks := PopBatch(nNow);
      r := Batch(vChecks);
    }

    /** The last checks of the queue, one by one. */
    method PopBatch(nNow: nat) returns (vChecks: seq<Check>)
      requires nNow <= |queue|
      modifies this`queue
      ensures vChecks == PopOrder(old(queue), nNow) && old(queue) == queue + Backwards(vChecks)
    {
      vChecks := [];
      ghost var was := queue;
      while |vChecks| < nNow
        invariant |vChecks| <= nNow <= |was|
        invariant queue == was[..|was| - |vChecks|]
        invariant vChecks == PopOrder(was, |vChecks|)
      {
        vChecks := vChecks + [queue[|queue| - 1]];
        queue := queue[..|queue| - 1];
      }
    }
  }

  /** The worker's own loop over its batch, which stops calling checks after a failure. */
  method RunBatch(vChecks: seq<Check>, fAllOk: bool) returns (fOk: bool)
    ensures fOk <==> fAllOk && Good(vChecks)
  {
    fOk := fAllOk;
    for i := 0 to |vChecks|
      invariant fOk <==> fAllOk && Good(vChecks[..i])
    {
      if fOk {
        fOk := vChecks[i].ok;
      }
      assert vChecks[..i + 1] == vChecks[..i] + [vChecks[i]];
    }
    assert vChecks[..|vChecks|] == vChecks;
  }

  function Initial(nBatchSize: nat): Shared {
    Shared([], 0, 0, true, 0, false, nBatchSize)
  }

  function Push(sh: Shared, cs: seq<Check>): Shared {
    sh.(queue := sh.queue + cs, nTodo := (sh.nTodo + |cs|) % TWO_32)
  }

  /** A batch is never empty, never larger than what is queued, and larger than one only within the limit and with as
      much left for each of the other threads and one more; it is the largest such batch. */
  lemma BatchFits(sh: Shared)
    requires sh.nTotal + sh.nIdle + 1 > 0 && |sh.queue| > 0
    ensures 1 <= BatchSize(sh) <= |sh.queue|
    ensures sh.nTotal + sh.nIdle > 0 ==> BatchSize(sh) <= Max(1, |sh.queue| / 2)
    ensures var n, d := BatchSize(sh), sh.nTotal + sh.nIdle + 1;
            && (n == 1 || (n <= sh.nBatchSize && n * d <= |sh.queue|))
            && (n >= sh.nBatchSize || (n + 1) * d > |sh.queue|)
  {
    var d := sh.nTotal + sh.nIdle + 1;
    DivideShrinks(|sh.queue|, d);
    if d >= 2 {
      HalfBounds(|sh.queue|, d);
    }
    Share(|sh.queue|, d, BatchSize(sh));
  }

  /** Up to the quotient there is enough, and beyond it there is not. */
  lemma Share(n: nat, d: int, k: nat)
    requires d > 0
    ensures k <= n / d ==> k * d <= n
    ensures k >= n / d ==> (k + 1) * d > n
  {
    var q := n / d;
    assert n == q * d + n % d;
    Distribute(q, 1, d);
    if k <= q {
      MulMono(k, q, d);
    }
    if k >= q {
      MulMono(q + 1, k + 1, d);
    }
  }

  lemma DivideShrinks(n: nat, d: int)
    requires d > 0
    ensures 0 <= n / d <= n
  {
    var q := n / d;
    assert n == q * d + n % d;
    MulAtLeast(q, d);
  }

  lemma MulAtLeast(q: nat, d: int)
    requires d > 0
    ensures q * d >= q
  {
  }

  lemma HalfBounds(n: nat, d: int)
    requires d >= 2
    ensures n / d <= n / 2
  {
    var q := n / d;
    DivideShrinks(n, d);
    assert n == q * d + n % d;
    MulAtLeast(q, d - 1);
    assert q * d == q * (d - 1) + q;
  }
}
