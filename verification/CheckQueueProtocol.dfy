/** All interleavings of CCheckQueue's master (thread 0) and workers (threads 1..). */
module CheckQueueProtocol {
  import opened CheckQueue
  import opened Powers

  datatype Thread =
    | Outside                                         // not inside Loop
    | Working(rest: seq<Check>, nNow: nat, fOk: bool) // holds a batch; `rest` is not executed yet
    | Sleeping(notified: bool)                        // in cond.wait; notified if a signal is pending

  /** `added` collects the checks of the current round, `log` what every finished Wait returned for
      the checks of its round. */
  datatype State = State(sh: Shared, threads: seq<Thread>, added: seq<Check>, log: seq<(seq<Check>, bool)>)

  datatype Action =
    | Add(checks: seq<Check>, waked: nat) // by the master; `waked` is the worker notify_one picks
    | Enter(t: nat)                       // Loop is called: first critical section
    | Execute(t: nat)                     // run one check of the batch, without the lock
    | Finish(t: nat)                      // batch done: next critical section
    | Wake(t: nat)                        // wake-up from cond.wait, notified or spurious

  predicate Allowed(s: State, a: Action) {
    match a
    case Add(cs, w) =>
      && |s.threads| > 0 && s.threads[0].Outside?
      && |s.added| + |cs| < TWO_32
      && (|cs| == 1 && (exists t :: 0 < t < |s.threads| && s.threads[t].Sleeping?) ==>
            0 < w < |s.threads| && s.threads[w].Sleeping?)
    case Enter(t) => t < |s.threads| && s.threads[t].Outside?
    case Execute(t) => t < |s.threads| && s.threads[t].Working? && |s.threads[t].rest| > 0
    case Finish(t) => t < |s.threads| && s.threads[t].Working? && |s.threads[t].rest| == 0
    case Wake(t) => t < |s.threads| && s.threads[t].Sleeping?
  }

  function Signal(th: Thread): Thread {
    if th.Sleeping? then Sleeping(true) else th
  }

  /** us is ts with signals delivered to some sleepers. */
  predicate Signalled(ts: seq<Thread>, us: seq<Thread>) {
    |us| == |ts| && forall i :: 0 <= i < |ts| ==> us[i] == ts[i] || us[i] == Signal(ts[i])
  }

  /** condWorker.notify_one or notify_all after Add. */
  function SignalWorkers(threads: seq<Thread>, n: nat, w: nat): (r: seq<Thread>)
    ensures Signalled(threads, r)
    ensures |threads| > 0 ==> r[0] == threads[0]
  {
    if n == 0 then threads
    else if n == 1 then (if 0 < w < |threads| then threads[w := Signal(threads[w])] else threads)
    else seq(|threads|, i requires 0 <= i < |threads| => if i == 0 then threads[0] else Signal(threads[i]))
  }

  /** A single check wakes a sleeping worker, if there is one; several wake all of them. */
  lemma AddWakes(s: State, cs: seq<Check>, w: nat, t: nat)
    requires Allowed(s, Add(cs, w)) && Counted(s) && 0 < t < |s.threads| && s.threads[t].Sleeping? && cs != []
    ensures var us := Step(s, Add(cs, w)).threads;
            if |cs| == 1 then 0 < w < |us| && us[w] == Sleeping(true) else us[t] == Sleeping(true)
  {
  }

  /** The end of a critical section of thread t. */
  function Settle(s: State, t: nat, sh: Shared): State
    requires t < |s.threads| && sh.nTotal + sh.nIdle + 1 > 0
  {
    var (sh', out) := Dispatch(sh, t == 0);
    match out
    case Return(ok) =>
      if t == 0 then State(sh', s.threads[t := Outside], [], s.log + [(s.added, ok)])
      else s.(sh := sh', threads := s.threads[t := Outside])
    case Sleep => s.(sh := sh', threads := s.threads[t := Sleeping(false)])
    case Batch(cs) => s.(sh := sh', threads := s.threads[t := Working(cs, |cs|, sh.fAllOk)])
  }

  ghost predicate Counted(s: State) {
    && s.sh.nTotal == Sum(Inside, s.threads)
    && s.sh.nIdle == Sum(Idle, s.threads)
  }

  ghost function Step(s: State, a: Action): State
    requires Allowed(s, a) && Counted(s)
  {
    match a
    case Add(cs, w) =>
      s.(sh := Push(s.sh, cs), threads := SignalWorkers(s.threads, |cs|, w), added := s.added + cs)
    case Enter(t) => Settle(s, t, CleanUp(s.sh, 0, true))
    case Execute(t) =>
      var th := s.threads[t];
      s.(threads := s.threads[t := th.(rest := th.rest[1..], fOk := th.fOk && th.rest[0].ok)])
    case Finish(t) =>
      var th := s.threads[t];
      var sh := CleanUp(s.sh, th.nNow, th.fOk);
      SumAt(Inside, s.threads, t);
      if sh.nTodo == 0 && t != 0
      then Settle(s.(threads := s.threads[0 := Signal(s.threads[0])]), t, sh)
      else Settle(s, t, sh)
    case Wake(t) => SumAt(Inside, s.threads, t); Settle(s, t, s.sh.(nIdle := s.sh.nIdle - 1))
  }

  // ---------------------------------------------------------------- sums over threads

  function Sum(w: Thread -> nat, ts: seq<Thread>): nat {
    if |ts| == 0 then 0 else w(ts[0]) + Sum(w, ts[1..])
  }

  function Inside(th: Thread): nat { if th.Outside? then 0 else 1 }
  function Idle(th: Thread): nat { if th.Sleeping? then 1 else 0 }
  function Held(th: Thread): nat { if th.Working? then th.nNow else 0 }

  lemma {:induction false} SumUpdate(w: Thread -> nat, ts: seq<Thread>, i: nat, th: Thread)
    requires i < |ts|
    ensures Sum(w, ts[i := th]) == Sum(w, ts) - w(ts[i]) + w(th)
  {
    if i == 0 {
      assert ts[0 := th][1..] == ts[1..];
    } else {
      assert ts[i := th][1..] == ts[1..][i - 1 := th];
      SumUpdate(w, ts[1..], i - 1, th);
    }
  }

  lemma {:induction false} SumAt(w: Thread -> nat, ts: seq<Thread>, i: nat)
    requires i < |ts|
    ensures Sum(w, ts) >= w(ts[i])
  {
    if i > 0 {
      SumAt(w, ts[1..], i - 1);
    }
  }

  lemma {:induction false} SumSame(w: Thread -> nat, ts: seq<Thread>, us: seq<Thread>)
    requires |ts| == |us| && forall i :: 0 <= i < |ts| ==> w(ts[i]) == w(us[i])
    ensures Sum(w, ts) == Sum(w, us)
  {
    if |ts| > 0 {
      SumSame(w, ts[1..], us[1..]);
    }
  }

  lemma {:induction false} SumPositive(w: Thread -> nat, ts: seq<Thread>) returns (i: nat)
    requires Sum(w, ts) > 0
    ensures i < |ts| && w(ts[i]) > 0
  {
    if w(ts[0]) > 0 {
      i := 0;
    } else {
      i := SumPositive(w, ts[1..]);
      i := i + 1;
    }
  }

  // ---------------------------------------------------------------- the invariant

  function Outstanding(s: State): nat {
    |s.sh.queue| + Sum(Held, s.threads)
  }

  /** A batch on its way still agrees with the verdict of its round. */
  predicate BatchGood(th: Thread) {
    th.Working? ==> th.fOk && Good(th.rest)
  }

  predicate BatchesGood(ts: seq<Thread>) {
    forall i :: 0 <= i < |ts| ==> BatchGood(ts[i])
  }

  predicate NoEmptyBatch(ts: seq<Thread>) {
    forall i :: 0 <= i < |ts| && ts[i].Working? ==> ts[i].nNow > 0
  }

  /** Every finished Wait returned the conjunction of the checks of its round. */
  predicate LogGood(log: seq<(seq<Check>, bool)>) {
    forall i :: 0 <= i < |log| ==> (log[i].1 <==> Good(log[i].0))
  }

  ghost predicate Inv(s: State) {
    && |s.threads| > 0
    && !s.sh.fQuit
    && Counted(s)
    // nTodo counts exactly the queued and the in-flight checks
    && Outstanding(s) <= |s.added| < TWO_32
    && s.sh.nTodo == Outstanding(s)
    && NoEmptyBatch(s.threads)
    // the verdict of the round is spread over fAllOk, the queue and the batches
    && (Good(s.added) <==> s.sh.fAllOk && Good(s.sh.queue) && BatchesGood(s.threads))
    // a master asleep without a pending signal waits for somebody else's batch
    && (s.threads[0] == Sleeping(false) ==> |s.sh.queue| == 0 && s.sh.nTodo > 0)
    && (s.threads[0].Sleeping? ==> |s.sh.queue| == 0)
    // what earlier Waits returned
    && LogGood(s.log)
  }

  predicate Init(s: State) {
    && |s.threads| > 0 && (forall i :: 0 <= i < |s.threads| ==> s.threads[i].Outside?)
    && s.sh == Initial(s.sh.nBatchSize) && s.added == [] && s.log == []
  }

  lemma {:induction false} SumZero(w: Thread -> nat, ts: seq<Thread>)
    requires forall i :: 0 <= i < |ts| ==> w(ts[i]) == 0
    ensures Sum(w, ts) == 0
  {
    if |ts| > 0 {
      SumZero(w, ts[1..]);
    }
  }

  lemma InitInv(s: State)
    requires Init(s)
    ensures Inv(s)
  {
    SumZero(Inside, s.threads);
    SumZero(Idle, s.threads);
    SumZero(Held, s.threads);
  }

  /** Thread t holds the lock: sh is what it has made of the shared fields, s the rest. */
  ghost predicate InSection(s: State, t: nat, sh: Shared) {
    && t < |s.threads|
    && !sh.fQuit
    && var others := s.threads[t := Outside];
    && sh.nTotal == Sum(Inside, others) + 1
    && sh.nIdle == Sum(Idle, others)
    && sh.nTodo == |sh.queue| + Sum(Held, others) <= |s.added| < TWO_32
    && NoEmptyBatch(others)
    && (Good(s.added) <==> sh.fAllOk && Good(sh.queue) && BatchesGood(others))
    && (others[0] == Sleeping(false) ==> |sh.queue| == 0 && sh.nTodo > 0)
    && (others[0].Sleeping? ==> |sh.queue| == 0)
    && LogGood(s.log)
  }

  /** With nothing outstanding no thread holds a batch. */
  lemma NothingHeld(ts: seq<Thread>)
    requires Sum(Held, ts) == 0
    requires NoEmptyBatch(ts)
    ensures forall i :: 0 <= i < |ts| ==> !ts[i].Working?
  {
    forall i | 0 <= i < |ts| ensures !ts[i].Working? {
      SumAt(Held, ts, i);
    }
  }

  lemma GoodPops(queue: seq<Check>, n: nat)
    requires n <= |queue|
    ensures Good(queue) <==> Good(queue[..|queue| - n]) && Good(PopOrder(queue, n))
  {
    if Good(queue[..|queue| - n]) && Good(PopOrder(queue, n)) {
      forall i | 0 <= i < |queue| ensures queue[i].ok {
        if i >= |queue| - n {
          assert PopOrder(queue, n)[|queue| - 1 - i].ok;
        } else {
          assert queue[..|queue| - n][i].ok;
        }
      }
    }
  }

  lemma SumsWith(ts: seq<Thread>, t: nat, th: Thread)
    requires t < |ts|
    ensures var others := ts[t := Outside];
            && Sum(Inside, ts[t := th]) == Sum(Inside, others) + Inside(th)
            && Sum(Idle, ts[t := th]) == Sum(Idle, others) + Idle(th)
            && Sum(Held, ts[t := th]) == Sum(Held, others) + Held(th)
  {
    SumUpdate(Inside, ts, t, th);
    SumUpdate(Inside, ts, t, Outside);
    SumUpdate(Idle, ts, t, th);
    SumUpdate(Idle, ts, t, Outside);
    SumUpdate(Held, ts, t, th);
    SumUpdate(Held, ts, t, Outside);
  }

  lemma BatchesWith(ts: seq<Thread>, t: nat, th: Thread)
    requires t < |ts|
    ensures BatchesGood(ts[t := th]) <==> BatchesGood(ts[t := Outside]) && BatchGood(th)
  {
    var us, os := ts[t := th], ts[t := Outside];
    if BatchesGood(us) {
      forall i | 0 <= i < |ts| ensures BatchGood(os[i]) {
        assert BatchGood(us[i]);
      }
      assert BatchGood(us[t]);
    }
    if BatchesGood(os) && BatchGood(th) {
      forall i | 0 <= i < |ts| ensures BatchGood(us[i]) {
        assert BatchGood(os[i]);
      }
    }
  }

  lemma SettleBatch(s: State, t: nat, sh: Shared)
    requires InSection(s, t, sh) && |sh.queue| > 0
    ensures Inv(Settle(s, t, sh))
  {
    BatchFits(sh);
    var n := BatchSize(sh);
    var th := Working(PopOrder(sh.queue, n), n, sh.fAllOk);
    GoodPops(sh.queue, n);
    SumsWith(s.threads, t, th);
    BatchesWith(s.threads, t, th);
    var r := Settle(s, t, sh);
    assert r == s.(sh := sh.(queue := sh.queue[..|sh.queue| - n]), threads := s.threads[t := th]);
    assert NoEmptyBatch(r.threads) by {
      var others := s.threads[t := Outside];
      assert forall i :: 0 <= i < |others| && i != t ==> r.threads[i] == others[i];
    }
  }

  lemma SettleReturn(s: State, sh: Shared)
    requires InSection(s, 0, sh) && |sh.queue| == 0 && sh.nTodo == 0
    ensures Inv(Settle(s, 0, sh))
  {
    NothingHeld(s.threads[0 := Outside]);
  }

  lemma SettleSleep(s: State, t: nat, sh: Shared)
    requires InSection(s, t, sh) && |sh.queue| == 0 && !(t == 0 && sh.nTodo == 0)
    ensures Inv(Settle(s, t, sh))
  {
    SumsWith(s.threads, t, Sleeping(false));
    BatchesWith(s.threads, t, Sleeping(false));
    var r := Settle(s, t, sh);
    assert NoEmptyBatch(r.threads) by {
      var others := s.threads[t := Outside];
      assert forall i :: 0 <= i < |others| && i != t ==> r.threads[i] == others[i];
    }
  }

  lemma SettleInv(s: State, t: nat, sh: Shared)
    requires InSection(s, t, sh)
    ensures Inv(Settle(s, t, sh))
  {
    if |sh.queue| > 0 {
      SettleBatch(s, t, sh);
    } else if t == 0 && sh.nTodo == 0 {
      SettleReturn(s, sh);
    } else {
      SettleSleep(s, t, sh);
    }
  }

  /** Signals change no count, no batch and no verdict. */
  lemma SignalledSame(ts: seq<Thread>, us: seq<Thread>)
    requires Signalled(ts, us)
    ensures Sum(Inside, us) == Sum(Inside, ts) && Sum(Idle, us) == Sum(Idle, ts) && Sum(Held, us) == Sum(Held, ts)
    ensures BatchesGood(us) <==> BatchesGood(ts)
    ensures NoEmptyBatch(us) <==> NoEmptyBatch(ts)
  {
    SumSame(Inside, us, ts);
    SumSame(Idle, us, ts);
    SumSame(Held, us, ts);
    assert forall i :: 0 <= i < |ts| ==> (BatchGood(us[i]) <==> BatchGood(ts[i]));
    assert forall i :: 0 <= i < |ts| && (us[i].Working? || ts[i].Working?) ==> us[i] == ts[i];
  }

  lemma AddInv(s: State, cs: seq<Check>, w: nat)
    requires Inv(s) && Allowed(s, Add(cs, w))
    ensures Inv(Step(s, Add(cs, w)))
  {
    var ts := SignalWorkers(s.threads, |cs|, w);
    SignalledSame(s.threads, ts);
    GoodAppend(s.added, cs);
    GoodAppend(s.sh.queue, cs);
    var r := s.(sh := Push(s.sh, cs), threads := ts, added := s.added + cs);
    assert Step(s, Add(cs, w)) == r;
    assert Good(r.added) <==> r.sh.fAllOk && Good(r.sh.queue) && BatchesGood(r.threads);
    assert r.sh.nTodo == Outstanding(r);
  }

  lemma GoodAppend(a: seq<Check>, b: seq<Check>)
    ensures Good(a + b) <==> Good(a) && Good(b)
  {
    if Good(a + b) {
      forall i | 0 <= i < |a| ensures a[i].ok { assert (a + b)[i].ok; }
      forall i | 0 <= i < |b| ensures b[i].ok { assert (a + b)[|a| + i].ok; }
    }
  }

  lemma ExecuteInv(s: State, t: nat)
    requires Inv(s) && Allowed(s, Execute(t))
    ensures Inv(Step(s, Execute(t)))
  {
    var th := s.threads[t];
    var th' := th.(rest := th.rest[1..], fOk := th.fOk && th.rest[0].ok);
    assert s.threads[t := th] == s.threads;
    SumsWith(s.threads, t, th);
    SumsWith(s.threads, t, th');
    BatchesWith(s.threads, t, th);
    BatchesWith(s.threads, t, th');
    GoodAppend([th.rest[0]], th.rest[1..]);
    assert [th.rest[0]] + th.rest[1..] == th.rest;
    assert Good([th.rest[0]]) <==> th.rest[0].ok by {
      assert [th.rest[0]][0] == th.rest[0];
    }
  }

  lemma EnterInv(s: State, t: nat)
    requires Inv(s) && Allowed(s, Enter(t))
    ensures Inv(Step(s, Enter(t)))
  {
    assert s.threads[t := Outside] == s.threads;
    SettleInv(s, t, CleanUp(s.sh, 0, true));
  }

  lemma WakeInv(s: State, t: nat)
    requires Inv(s) && Allowed(s, Wake(t))
    ensures Inv(Step(s, Wake(t)))
  {
    assert s.threads[t := s.threads[t]] == s.threads;
    SumsWith(s.threads, t, s.threads[t]);
    BatchesWith(s.threads, t, s.threads[t]);
    SettleInv(s, t, s.sh.(nIdle := s.sh.nIdle - 1));
  }

  lemma FinishInv(s: State, t: nat)
    requires Inv(s) && Allowed(s, Finish(t))
    ensures Inv(Step(s, Finish(t)))
  {
    var th := s.threads[t];
    var sh := CleanUp(s.sh, th.nNow, th.fOk);
    var s1 := if sh.nTodo == 0 && t != 0 then s.(threads := s.threads[0 := Signal(s.threads[0])]) else s;
    SumAt(Held, s.threads, t);
    assert sh.nTodo == s.sh.nTodo - th.nNow;
    SignalledSame(s.threads, s1.threads);
    assert s1.threads[t := th] == s1.threads;
    SumsWith(s1.threads, t, th);
    BatchesWith(s1.threads, t, th);
    SettleInv(s1, t, sh);
  }

  lemma StepInv(s: State, a: Action)
    requires Inv(s) && Allowed(s, a)
    ensures Inv(Step(s, a))
  {
    match a
    case Add(cs, w) => AddInv(s, cs, w);
    case Enter(t) => EnterInv(s, t);
    case Execute(t) => ExecuteInv(s, t);
    case Finish(t) => FinishInv(s, t);
    case Wake(t) => WakeInv(s, t);
  }

  // ---------------------------------------------------------------- whole runs

  ghost predicate AllowedRun(s: State, acts: seq<Action>)
    requires Inv(s)
    decreases |acts|
  {
    |acts| > 0 ==> Allowed(s, acts[0]) && (StepInv(s, acts[0]); AllowedRun(Step(s, acts[0]), acts[1..]))
  }

  ghost function Run(s: State, acts: seq<Action>): State
    requires Inv(s) && AllowedRun(s, acts)
    decreases |acts|
  {
    if |acts| == 0 then s else (StepInv(s, acts[0]); Run(Step(s, acts[0]), acts[1..]))
  }

  lemma {:induction false} RunInv(s: State, acts: seq<Action>)
    requires Inv(s) && AllowedRun(s, acts)
    ensures Inv(Run(s, acts))
    decreases |acts|
  {
    if |acts| > 0 {
      StepInv(s, acts[0]);
      RunInv(Step(s, acts[0]), acts[1..]);
    }
  }

  /** Main theorem. Whatever the interleaving, every Wait has returned true exactly if all checks added
      in its round pass, and nTodo, nTotal and nIdle count what they say. */
  lemma WaitReturnsConjunction(s: State, acts: seq<Action>)
    requires Init(s) && (InitInv(s); AllowedRun(s, acts))
    ensures (InitInv(s); LogGood(Run(s, acts).log))
    ensures (InitInv(s); var r := Run(s, acts); r.sh.nTodo == Outstanding(r) && Counted(r))
  {
    InitInv(s);
    RunInv(s, acts);
  }

  /** Exactly when the master leaves the loop a Wait is over: all checks of its round are done, its verdict is recorded,
      and the next round begins. */
  lemma WaitRecorded(s: State, a: Action)
    requires Inv(s) && Allowed(s, a)
    ensures var r := Step(s, a);
            if !a.Add? && a.t == 0 && r.threads[0].Outside?
            then r.log == s.log + [(s.added, Good(s.added))] && r.added == [] && Outstanding(r) == 0 && r.sh.fAllOk
            else r.log == s.log && r.added == if a.Add? then s.added + a.checks else s.added
  {
    StepInv(s, a);
    var r := Step(s, a);
    if !a.Add? && a.t == 0 && r.threads[0].Outside? {
      assert r.log[|r.log| - 1] == (s.added, r.log[|r.log| - 1].1);
    }
  }

  /** While the master sleeps without a pending signal, some worker holds an unfinished batch. */
  lemma NoLostWakeUp(s: State) returns (t: nat)
    requires Inv(s) && s.threads[0] == Sleeping(false)
    ensures 0 < t < |s.threads| && s.threads[t].Working? && s.threads[t].nNow > 0
  {
    t := SumPositive(Held, s.threads);
  }

  /** Everything except a wake-up without a signal makes progress. */
  predicate Productive(s: State, a: Action)
    requires Allowed(s, a)
  {
    a.Wake? ==> s.threads[a.t].notified
  }

  /** A round never gets stuck: while the master is in Wait, someone can make progress. */
  lemma NoDeadlock(s: State) returns (a: Action)
    requires Inv(s) && !s.threads[0].Outside?
    ensures !a.Add? && Allowed(s, a) && Productive(s, a)
  {
    var t: nat := 0;
    if s.threads[0] == Sleeping(false) {
      t := NoLostWakeUp(s);
    }
    match s.threads[t]
    case Working(rest, _, _) => a := if |rest| > 0 then Execute(t) else Finish(t);
    case Sleeping(_) => a := Wake(t);
  }

  /** What is left to do in a round: queued checks, batches, pending signals, threads still to arrive. */
  function Weight(th: Thread): nat {
    match th
    case Outside => 1
    case Working(rest, _, _) => |rest| + 2
    case Sleeping(notified) => if notified then 1 else 0
  }

  function Measure(s: State): nat {
    4 * |s.sh.queue| + Sum(Weight, s.threads)
  }

  /** After a critical section thread t weighs nothing, or it weighs less than what it took. */
  lemma SettleMeasure(s: State, t: nat, sh: Shared)
    requires t < |s.threads| && sh.nTotal + sh.nIdle + 1 > 0 && !sh.fQuit
    requires !(t == 0 && |sh.queue| == 0 && sh.nTodo == 0)
    ensures Measure(Settle(s, t, sh)) <= 4 * |sh.queue| + Sum(Weight, s.threads) - Weight(s.threads[t])
  {
    if |sh.queue| > 0 {
      BatchFits(sh);
      var n := BatchSize(sh);
      SumUpdate(Weight, s.threads, t, Working(PopOrder(sh.queue, n), n, sh.fAllOk));
    } else {
      SumUpdate(Weight, s.threads, t, Sleeping(false));
    }
  }

  /** During a Wait the measure never grows and falls with every productive step, until the master returns. */
  lemma StepMeasure(s: State, a: Action)
    requires Inv(s) && !s.threads[0].Outside? && Allowed(s, a) && !a.Add?
    ensures var r := Step(s, a);
            r.threads[0].Outside? || (Measure(r) <= Measure(s) && (Productive(s, a) ==> Measure(r) < Measure(s)))
  {
    var r := Step(s, a);
    if !r.threads[0].Outside? {
      match a
      case Enter(t) =>
        SettleMeasure(s, t, CleanUp(s.sh, 0, true));
      case Execute(t) =>
        SumUpdate(Weight, s.threads, t, r.threads[t]);
      case Finish(t) =>
        var th := s.threads[t];
        var sh := CleanUp(s.sh, th.nNow, th.fOk);
        SumAt(Inside, s.threads, t);
        if sh.nTodo == 0 && t != 0 {
          SumUpdate(Weight, s.threads, 0, Signal(s.threads[0]));
          SettleMeasure(s.(threads := s.threads[0 := Signal(s.threads[0])]), t, sh);
        } else {
          SettleMeasure(s, t, sh);
        }
      case Wake(t) =>
        SumAt(Inside, s.threads, t);
        SettleMeasure(s, t, s.sh.(nIdle := s.sh.nIdle - 1));
    }
  }

  /** The master stays in Wait throughout the run. */
  ghost predicate DuringWait(s: State, acts: seq<Action>)
    requires Inv(s) && AllowedRun(s, acts)
    decreases |acts|
  {
    && !s.threads[0].Outside?
    && (|acts| > 0 ==> !acts[0].Add? && (StepInv(s, acts[0]); DuringWait(Step(s, acts[0]), acts[1..])))
  }

  ghost function ProductiveSteps(s: State, acts: seq<Action>): nat
    requires Inv(s) && AllowedRun(s, acts)
    decreases |acts|
  {
    if |acts| == 0 then 0
    else (StepInv(s, acts[0]);
          (if Productive(s, acts[0]) then 1 else 0) + ProductiveSteps(Step(s, acts[0]), acts[1..]))
  }

  /** Termination: however the threads are scheduled and however often they wake up for nothing, Wait
      ends after at most Measure(s) productive steps. */
  lemma {:induction false} WaitTerminates(s: State, acts: seq<Action>)
    requires Inv(s) && AllowedRun(s, acts) && DuringWait(s, acts)
    ensures ProductiveSteps(s, acts) <= Measure(s)
    decreases |acts|
  {
    if |acts| > 0 {
      StepInv(s, acts[0]);
      var r := Step(s, acts[0]);
      StepMeasure(s, acts[0]);
      assert !r.threads[0].Outside?;
      WaitTerminates(r, acts[1..]);
    }
  }
}
