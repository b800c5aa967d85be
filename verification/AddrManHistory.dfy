/** What the address manager remembers of contacts with an address, over operations and whole runs. */
module AddrManHistory {
  import opened AddrMan
  import opened AddrManInvariant

  /** The part of an entry that only contacts with it may change. */
  datatype History = History(service: Service, source: NetAddr, lastTry: int, lastCountAttempt: int,
                             lastSuccess: int, attempts: int)

  function HistoryOf(i: Info): History {
    History(i.service, i.source, i.lastTry, i.lastCountAttempt, i.lastSuccess, i.attempts)
  }

  /** No entry appears, and what is left has its history. */
  ghost predicate Survive(m: map<Id, Info>, n: map<Id, Info>) {
    n.Keys <= m.Keys && forall id :: id in n ==> HistoryOf(n[id]) == HistoryOf(m[id])
  }

  lemma SurviveTwice(a: map<Id, Info>, b: map<Id, Info>, c: map<Id, Info>)
    requires Survive(a, b) && Survive(b, c)
    ensures Survive(a, c)
  {
  }

  lemma DeleteSurvive(s: State, id: Id)
    requires Deletable(s, id)
    ensures Survive(s.mapInfo, Delete(s, id).mapInfo)
  {
  }

  lemma ClearNewSurvive(s: State, sl: Slot)
    requires Clearable(s, sl)
    ensures Survive(s.mapInfo, ClearNew(s, sl).mapInfo)
  {
    if sl in s.news {
      var id := s.news[sl];
      var d := Dropped(s, sl);
      assert Survive(s.mapInfo, d.mapInfo);
      hide Delete;
      if s.mapInfo[id].refCount == 1 {
        DeleteSurvive(d, id);
        hide Survive;
        SurviveTwice(s.mapInfo, d.mapInfo, Delete(d, id).mapInfo);
      }
    }
  }

  lemma ListSurvive(s: State, id: Id, source: NetAddr, now: int)
    requires Listable(s, id, source, now)
    ensures Survive(s.mapInfo, List(s, id, source, now).mapInfo)
  {
    var sl := NewSlot(s.key, s.mapInfo[id].service, NewBucket(s.key, s.mapInfo[id].service, source));
    hide ClearNew, Delete;
    if !(sl in s.news && s.news[sl] == id) {
      if MayTake(s, sl, id, now) {
        ClearNewSurvive(s, sl);
      } else if s.mapInfo[id].refCount == 0 {
        DeleteSurvive(s, id);
      }
    }
  }

  lemma MakeRoomSurvive(s: State, sl: Slot)
    requires Evictable(s, sl)
    ensures Survive(s.mapInfo, MakeRoom(s, sl).mapInfo)
  {
    if sl in s.tried {
      hide ClearNew;
      ClearNewSurvive(Evicted(s, sl), HomeSlot(s.key, s.mapInfo[s.tried[sl]]));
    }
  }

  lemma MakeTriedSurvive(s: State, id: Id)
    requires Triable(s, id)
    ensures Survive(s.mapInfo, MakeTried(s, id).mapInfo)
  {
    hide MakeRoom;
    MakeRoomSurvive(Unlisted(s, id), TriedSlot(s.key, s.mapInfo[id].service));
  }

  // ---------------------------------------------------------------- single operations

  /** Announcements change no history; the one entry they can create has none. */
  lemma AddHistory(s: State, a: Address, source: NetAddr, penalty: int, routable: bool, now: int, rnd: nat, id: Id)
    requires Inv(s)
    ensures AddOk(s, a, source, penalty, routable, now, rnd)
    ensures var r := Add(s, a, source, penalty, routable, now, rnd).0;
            && r.lastGood == s.lastGood && s.idCount <= r.idCount
            && (id in r.mapInfo && id in s.mapInfo ==> HistoryOf(r.mapInfo[id]) == HistoryOf(s.mapInfo[id]))
            && (id in r.mapInfo && id !in s.mapInfo ==>
                  id == s.idCount && HistoryOf(r.mapInfo[id]) == History(a.service, source, 0, 0, 0, 0))
  {
    hide Mid, List, Listable, NoNews, Refreshed, Announced, Survive;
    AddInv(s, a, source, penalty, routable, now, rnd);
    if routable {
      if Found(s, a.service.net) {
        var known := s.mapAddr[a.service.net];
        var r := SetInfo(s, known, Refreshed(s.mapInfo[known], a, Penalty(a, source, penalty), now));
        RefreshedSurvive(s, known, a, Penalty(a, source, penalty), now);
        if !NoNews(r.mapInfo[known], a, rnd) {
          ListSurvive(r, known, source, now);
          ListFields(r, known, source, now);
          SurviveTwice(s.mapInfo, r.mapInfo, List(r, known, source, now).mapInfo);
          SurviveAt(s.mapInfo, List(r, known, source, now).mapInfo, id);
        } else {
          SurviveAt(s.mapInfo, r.mapInfo, id);
        }
      } else {
        var n := Announced(s, a, source, Penalty(a, source, penalty));
        ListSurvive(n, s.idCount, source, now);
        ListFields(n, s.idCount, source, now);
        SurviveAt(n.mapInfo, List(n, s.idCount, source, now).mapInfo, id);
        AnnouncedAt(s, a, source, Penalty(a, source, penalty), id);
      }
    }
  }

  lemma SurviveAt(m: map<Id, Info>, n: map<Id, Info>, id: Id)
    requires Survive(m, n)
    ensures id in n ==> id in m && HistoryOf(n[id]) == HistoryOf(m[id])
  {
  }

  lemma RefreshedSurvive(s: State, id: Id, a: Address, penalty: int, now: int)
    requires id in s.mapInfo
    ensures Survive(s.mapInfo, SetInfo(s, id, Refreshed(s.mapInfo[id], a, penalty, now)).mapInfo)
  {
  }

  lemma AnnouncedAt(s: State, a: Address, source: NetAddr, penalty: int, id: Id)
    requires Inv(s)
    ensures var n := Announced(s, a, source, penalty);
            && n.lastGood == s.lastGood && n.idCount == s.idCount + 1
            && (id in n.mapInfo <==> id in s.mapInfo || id == s.idCount)
            && (id in s.mapInfo ==> HistoryOf(n.mapInfo[id]) == HistoryOf(s.mapInfo[id]))
            && (id == s.idCount ==> HistoryOf(n.mapInfo[id]) == History(a.service, source, 0, 0, 0, 0))
  {
    hide AddrIndex, RandomIndex, NewTable, TriedTable, RefCounts, Times;
  }

  lemma ListFields(s: State, id: Id, source: NetAddr, now: int)
    requires Listable(s, id, source, now)
    ensures List(s, id, source, now).lastGood == s.lastGood && List(s, id, source, now).idCount == s.idCount
    ensures List(s, id, source, now).key == s.key
  {
  }

  lemma MakeTriedFields(s: State, id: Id)
    requires Triable(s, id)
    ensures MakeTried(s, id).lastGood == s.lastGood && MakeTried(s, id).idCount == s.idCount
    ensures MakeTried(s, id).key == s.key
  {
  }

  /** A success is remembered by its entry, which is in the tried table then, and by the manager; nobody else's
      history changes. */
  lemma GoodHistory(s: State, a: Service, time: int, id: Id)
    requires Inv(s) && time > 0
    ensures GoodOk(s, a, time)
    ensures var r := Good(s, a, time);
            && r.lastGood == time && r.idCount == s.idCount && (id in r.mapInfo ==> id in s.mapInfo)
            && (id in r.mapInfo && !(Known(s, a) && id == s.mapAddr[a.net]) ==>
                  HistoryOf(r.mapInfo[id]) == HistoryOf(s.mapInfo[id]))
            && (Known(s, a) && id == s.mapAddr[a.net] ==>
                  && id in r.mapInfo && r.mapInfo[id].inTried
                  && r.mapInfo[id].attempts == 0 && r.mapInfo[id].lastTry == r.mapInfo[id].lastSuccess == time
                  && TriedSlot(s.key, a) in r.tried && r.tried[TriedSlot(s.key, a)] == id)
  {
    hide Mid, MakeTried, Triable, Survive, InSomeBucket;
    GoodInv(s, a, time);
    if Known(s, a) {
      var known := s.mapAddr[a.net];
      var s1 := SetInfo(s.(lastGood := time), known, Succeeded(s.mapInfo[known], time));
      if s.mapInfo[known].inTried {
        TriedAt(s, known);
      } else {
        GoodNeverBailsOut(s, known);
        MakeTriedSurvive(s1, known);
        SurviveAt(s1.mapInfo, MakeTried(s1, known).mapInfo, id);
        MakeTriedFields(s1, known);
        MakeTriedPlace(s1, known);
      }
    }
  }

  lemma TriedAt(s: State, id: Id)
    requires Inv(s) && id in s.mapInfo && s.mapInfo[id].inTried
    ensures var sl := TriedSlot(s.key, s.mapInfo[id].service); sl in s.tried && s.tried[sl] == id
  {
  }

  lemma MakeTriedPlace(s: State, id: Id)
    requires Triable(s, id)
    ensures var sl := TriedSlot(s.key, s.mapInfo[id].service); var r := MakeTried(s, id);
            id in r.mapInfo && r.mapInfo[id].inTried && sl in r.tried && r.tried[sl] == id
  {
    hide MakeRoom;
  }

  /** An announcement of a known address never takes services away nor moves its time back. */
  lemma AddKnownGrows(s: State, a: Address, source: NetAddr, penalty: int, now: int, rnd: nat)
    requires Inv(s) && Found(s, a.service.net) && penalty >= 0 && s.mapInfo[s.mapAddr[a.service.net]].time >= 0
    ensures AddOk(s, a, source, penalty, true, now, rnd)
    ensures var id := s.mapAddr[a.service.net]; var m := Add(s, a, source, penalty, true, now, rnd).0.mapInfo;
            id in m ==> s.mapInfo[id].services + a.services == m[id].services && s.mapInfo[id].time <= m[id].time
  {
    AddInv(s, a, source, penalty, true, now, rnd);
    var id := s.mapAddr[a.service.net];
    var r := SetInfo(s, id, Refreshed(s.mapInfo[id], a, Penalty(a, source, penalty), now));
    hide Mid, List, Listable;
    if !NoNews(r.mapInfo[id], a, rnd) {
      ListTimes(r, id, source, now);
    }
  }

  lemma ListTimes(s: State, id: Id, source: NetAddr, now: int)
    requires Listable(s, id, source, now)
    ensures var m := List(s, id, source, now).mapInfo;
            id in m ==> m[id].services == s.mapInfo[id].services && m[id].time == s.mapInfo[id].time
  {
  }

  /** After a contact the stored time is at most twenty minutes behind it, and has not moved back. */
  lemma ConnectedTime(s: State, a: Service, time: int)
    requires Known(s, a)
    ensures var id := s.mapAddr[a.net]; var i := Connected(s, a, time).mapInfo[id];
            && time - i.time <= 20 * 60 && i.time >= s.mapInfo[id].time
            && Connected(s, a, time) == SetInfo(s, id, s.mapInfo[id].(time := i.time))
  {
    var id := s.mapAddr[a.net];
    assert s.mapInfo[id := s.mapInfo[id]] == s.mapInfo;
  }

  /** An attempt is recorded by its entry; a failure counts, once, unless one has been counted since the last success
      of the manager. Nothing else changes, and nothing at all for an unknown service. */
  lemma AttemptRecorded(s: State, a: Service, countFailure: bool, time: int)
    ensures !Known(s, a) ==> Attempt(s, a, countFailure, time) == s
    ensures Known(s, a) ==>
              var id := s.mapAddr[a.net];
              var i, r := s.mapInfo[id], Attempt(s, a, countFailure, time);
              var counts := countFailure && i.lastCountAttempt < s.lastGood;
              && id in r.mapInfo && r.mapInfo[id].lastTry == time
              && r.mapInfo[id].attempts == i.attempts + (if counts then 1 else 0)
              && r.mapInfo[id].lastCountAttempt == (if counts then time else i.lastCountAttempt)
              && r == SetInfo(s, id, i.(lastTry := time, attempts := r.mapInfo[id].attempts,
                                        lastCountAttempt := r.mapInfo[id].lastCountAttempt))
  {
  }

  // ---------------------------------------------------------------- failures are counted once

  /** An operation other than a success elsewhere, at times not before the last success. */
  predicate NoSuccess(s: State, op: Op) {
    !op.MarkingGood? && PositiveTimes(op) && (op.Attempting? ==> op.tryTime >= s.lastGood)
  }

  /** The history of an entry after an operation that is no success. */
  function AfterOp(h: History, op: Op, lastGood: int): History {
    if !op.Attempting? || op.tried != h.service then h
    else if op.countFailure && h.lastCountAttempt < lastGood
    then h.(lastTry := op.tryTime, lastCountAttempt := op.tryTime, attempts := h.attempts + 1)
    else h.(lastTry := op.tryTime)
  }

  lemma OpHistory(s: State, op: Op, id: Id)
    requires Inv(s) && NoSuccess(s, op)
    ensures OpOk(s, op)
    ensures var r := Step(s, op);
            && r.lastGood == s.lastGood && s.idCount <= r.idCount
            && (id in r.mapInfo && id < s.idCount ==> id in s.mapInfo)
            && (id in s.mapInfo && id in r.mapInfo ==>
                  HistoryOf(r.mapInfo[id]) == AfterOp(HistoryOf(s.mapInfo[id]), op, s.lastGood))
  {
    hide Mid, Add, AddOk, GetAddrFrom, Good, GoodOk;
    OpInv(s, op);
    IdsBelow(s, id);
    match op
    case Adding(a, source, penalty, routable, now, rnd) =>
      AddHistory(s, a, source, penalty, routable, now, rnd, id);
    case Sampling(rand, now) =>
      SamplingKeeps(s, rand, now);
    case Attempting(a, _, _) =>
      KnownById(s, a, id);
    case Connecting(_, _) =>
    case SettingServices(_, _) =>
  }

  /** An entry is what is known under its service. */
  lemma KnownById(s: State, a: Service, id: Id)
    requires Inv(s)
    ensures id in s.mapInfo ==> (s.mapInfo[id].service == a <==> Known(s, a) && s.mapAddr[a.net] == id)
  {
    hide RandomIndex, NewTable, TriedTable, RefCounts, Times;
  }

  lemma IdsBelow(s: State, id: Id)
    requires Inv(s)
    ensures id in s.mapInfo ==> id < s.idCount
  {
  }

  lemma SamplingKeeps(s: State, rand: nat -> nat, now: int)
    requires Inv(s)
    ensures Listed(s)
    ensures var (r, out) := GetAddrFrom(s, 0, [], GetAddrLimit(|s.vRandom|), rand, now);
            SameButRandom(s.mapInfo, r.mapInfo) && r == s.(mapInfo := r.mapInfo, vRandom := r.vRandom)
  {
    ListedInv(s);
    assert Picked(s.mapInfo, s.vRandom[..0], now) == [];
    hide Mid, GetAddrFrom, Picked;
    var k := GetAddrFromSpec(s, 0, [], GetAddrLimit(|s.vRandom|), rand, now);
  }

  ghost predicate NoSuccessRun(s: State, ops: seq<Op>)
    requires RunOk(s, ops)
    decreases |ops|
  {
    |ops| > 0 ==> NoSuccess(s, ops[0]) && NoSuccessRun(Step(s, ops[0]), ops[1..])
  }

  /** The time of the first attempt on a service whose failure is to be counted, or -1. */
  function FirstFailure(ops: seq<Op>, a: Service): int {
    if ops == [] then -1
    else if ops[0].Attempting? && ops[0].tried == a && ops[0].countFailure then ops[0].tryTime
    else FirstFailure(ops[1..], a)
  }

  /** The time of the last attempt on it, or the one given. */
  function LastTry(ops: seq<Op>, a: Service, before: int): int {
    if ops == [] then before
    else LastTry(ops[1..], a, if ops[0].Attempting? && ops[0].tried == a then ops[0].tryTime else before)
  }

  /** Whether the run has such an attempt. */
  predicate Failed(ops: seq<Op>, a: Service) {
    exists i :: 0 <= i < |ops| && ops[i].Attempting? && ops[i].tried == a && ops[i].countFailure
  }

  lemma {:induction false} FirstFailureIs(ops: seq<Op>, a: Service)
    requires forall i :: 0 <= i < |ops| ==> PositiveTimes(ops[i])
    ensures FirstFailure(ops, a) > 0 <==> Failed(ops, a)
    ensures FirstFailure(ops, a) > 0 || FirstFailure(ops, a) == -1
  {
    if ops != [] {
      FirstFailureIs(ops[1..], a);
      if Failed(ops[1..], a) {
        var i :| 0 <= i < |ops[1..]| && ops[1..][i].Attempting? && ops[1..][i].tried == a && ops[1..][i].countFailure;
        assert ops[i + 1] == ops[1..][i];
      }
      if Failed(ops, a) && FirstFailure(ops, a) == FirstFailure(ops[1..], a) {
        var i :| 0 <= i < |ops| && ops[i].Attempting? && ops[i].tried == a && ops[i].countFailure;
        assert i > 0 ==> ops[1..][i - 1] == ops[i];
      }
    }
  }

  /** The history of an entry after a run without a success. */
  function AfterRun(h: History, ops: seq<Op>, lastGood: int): History {
    var failure := FirstFailure(ops, h.service);
    if failure >= 0 && h.lastCountAttempt < lastGood
    then h.(lastTry := LastTry(ops, h.service, h.lastTry), lastCountAttempt := failure, attempts := h.attempts + 1)
    else h.(lastTry := LastTry(ops, h.service, h.lastTry))
  }

  lemma AfterFirst(h: History, ops: seq<Op>, lastGood: int)
    requires ops != [] && PositiveTimes(ops[0]) && (ops[0].Attempting? ==> ops[0].tryTime >= lastGood)
    ensures AfterRun(AfterOp(h, ops[0], lastGood), ops[1..], lastGood) == AfterRun(h, ops, lastGood)
  {
  }

  /** Over any run without a success an entry that stays has exactly one failure more if the run has one to be counted
      and none was counted since the last success, and otherwise none; the time of the last attempt is kept. */
  lemma {:induction false} RunCountsOnce(s: State, ops: seq<Op>, id: Id)
    requires Inv(s) && RunOk(s, ops) && NoSuccessRun(s, ops) && id < s.idCount && id in Run(s, ops).mapInfo
    ensures id in s.mapInfo
    ensures HistoryOf(Run(s, ops).mapInfo[id]) == AfterRun(HistoryOf(s.mapInfo[id]), ops, s.lastGood)
    ensures var i := s.mapInfo[id];
            Run(s, ops).mapInfo[id].attempts ==
            i.attempts + if Failed(ops, i.service) && i.lastCountAttempt < s.lastGood then 1 else 0
    decreases |ops|
  {
    hide Mid, OpOk, Step, NoSuccess;
    if |ops| > 0 {
      NoSuccessInv(s, ops[0]);
      OpHistory(s, ops[0], id);
      RunCountsOnce(Step(s, ops[0]), ops[1..], id);
      NoSuccessIs(s, ops[0]);
      AfterFirst(HistoryOf(s.mapInfo[id]), ops, s.lastGood);
    }
    RunTimes(s, ops);
    FirstFailureIs(ops, s.mapInfo[id].service);
  }

  lemma NoSuccessIs(s: State, op: Op)
    requires NoSuccess(s, op)
    ensures PositiveTimes(op) && (op.Attempting? ==> op.tryTime >= s.lastGood)
  {
  }

  lemma {:induction false} RunTimes(s: State, ops: seq<Op>)
    requires RunOk(s, ops) && NoSuccessRun(s, ops)
    ensures forall i :: 0 <= i < |ops| ==> PositiveTimes(ops[i])
    decreases |ops|
  {
    hide OpOk, Step;
    if ops != [] {
      RunTimes(Step(s, ops[0]), ops[1..]);
      forall i | 0 <= i < |ops| ensures PositiveTimes(ops[i]) {
        assert i > 0 ==> ops[i] == ops[1..][i - 1];
      }
    }
  }

  lemma NoSuccessInv(s: State, op: Op)
    requires Inv(s) && NoSuccess(s, op)
    ensures OpOk(s, op) && Inv(Step(s, op))
  {
    OpInv(s, op);
    hide Mid, Step;
  }
}
