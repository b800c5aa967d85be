/** Every operation of the address manager keeps the consistency that Check_ tests. */
module AddrManInvariant {
  import opened AddrMan

  /** The same entries, except for where they stand in vRandom. */
  ghost predicate SameButRandom(m: map<Id, Info>, n: map<Id, Info>) {
    && n.Keys == m.Keys
    && forall id :: id in m ==> n[id].(randomPos := m[id].randomPos) == m[id]
  }

  lemma SameButRandomTables(key: Key, m: map<Id, Info>, n: map<Id, Info>, mapAddr: map<NetAddr, Id>,
                            news: map<Slot, Id>, tried: map<Slot, Id>)
    requires SameButRandom(m, n)
    ensures AddrIndex(m, mapAddr) ==> AddrIndex(n, mapAddr)
    ensures NewTable(key, m, news) ==> NewTable(key, n, news)
    ensures TriedTable(key, m, tried) ==> TriedTable(key, n, tried)
  {
    assert forall id :: id in m ==> n[id].service == m[id].service && n[id].inTried == m[id].inTried;
  }

  lemma SameButRandomCounts(m: map<Id, Info>, n: map<Id, Info>, news: map<Slot, Id>, floating: set<Id>)
    requires SameButRandom(m, n)
    ensures RefCounts(m, news, floating) ==> RefCounts(n, news, floating)
    ensures Times(m) ==> Times(n)
    ensures NewIds(n) == NewIds(m) && TriedIds(n) == TriedIds(m)
  {
    assert forall id :: id in m ==> n[id].(randomPos := m[id].randomPos) == m[id];
  }

  lemma SwapRandomIndex(s: State, p: nat, q: nat)
    requires RandomIndex(s.mapInfo, s.vRandom) && p < |s.vRandom| && q < |s.vRandom|
    ensures RandomIndex(SwapRandom(s, p, q).mapInfo, SwapRandom(s, p, q).vRandom)
    ensures SameButRandom(s.mapInfo, SwapRandom(s, p, q).mapInfo)
  {
    if p != q {
      var m, v, r := s.mapInfo, s.vRandom, SwapRandom(s, p, q);
      var id1, id2 := v[p], v[q];
      assert m[id1].randomPos == p && m[id2].randomPos == q;
      forall id | id in m
        ensures r.mapInfo[id] == if id == id1 then m[id].(randomPos := q)
                                 else if id == id2 then m[id].(randomPos := p) else m[id]
        ensures 0 <= r.mapInfo[id].randomPos < |v| && r.vRandom[r.mapInfo[id].randomPos] == id
      {
        assert v[m[id].randomPos] == id;
      }
      forall i | 0 <= i < |v| ensures r.vRandom[i] in m && r.mapInfo[r.vRandom[i]].randomPos == i {
        assert m[v[i]].randomPos == i;
      }
    }
  }

  lemma SwapRandomMid(s: State, p: nat, q: nat, floating: set<Id>, lag: int)
    requires Mid(s, floating, lag) && p < |s.vRandom| && q < |s.vRandom|
    ensures Mid(SwapRandom(s, p, q), floating, lag)
    ensures SameButRandom(s.mapInfo, SwapRandom(s, p, q).mapInfo)
  {
    var r := SwapRandom(s, p, q);
    SwapRandomIndex(s, p, q);
    SameButRandomTables(s.key, s.mapInfo, r.mapInfo, s.mapAddr, s.news, s.tried);
    SameButRandomCounts(s.mapInfo, r.mapInfo, s.news, floating);
  }

  /** Removing an entry that no table mentions. */
  lemma RemoveTables(key: Key, m: map<Id, Info>, id: Id, mapAddr: map<NetAddr, Id>, news: map<Slot, Id>,
                     tried: map<Slot, Id>)
    requires id in m && !m[id].inTried && SlotsOf(news, id) == {}
    ensures AddrIndex(m, mapAddr) ==> AddrIndex(m - {id}, mapAddr - {m[id].service.net})
    ensures NewTable(key, m, news) ==> NewTable(key, m - {id}, news)
    ensures TriedTable(key, m, tried) ==> TriedTable(key, m - {id}, tried)
  {
    forall sl | sl in news ensures news[sl] != id {
      assert sl !in SlotsOf(news, id);
    }
  }

  lemma RemoveCounts(m: map<Id, Info>, id: Id, news: map<Slot, Id>, floating: set<Id>)
    requires id in m && !m[id].inTried
    ensures RefCounts(m, news, floating) ==> RefCounts(m - {id}, news, floating - {id})
    ensures Times(m) ==> Times(m - {id})
    ensures NewIds(m - {id}) == NewIds(m) - {id} && TriedIds(m - {id}) == TriedIds(m)
  {
  }

  lemma RemoveLastRandom(m: map<Id, Info>, vRandom: seq<Id>)
    requires RandomIndex(m, vRandom) && |vRandom| > 0
    ensures RandomIndex(m - {vRandom[|vRandom| - 1]}, vRandom[..|vRandom| - 1])
  {
  }

  lemma DropLastMid(s: State, id: Id, floating: set<Id>, lag: int)
    requires Mid(s, floating, lag) && id in floating && |s.vRandom| > 0 && s.vRandom[|s.vRandom| - 1] == id
    ensures Mid(DropLast(s, id), floating - {id}, lag)
  {
    RemoveTables(s.key, s.mapInfo, id, s.mapAddr, s.news, s.tried);
    RemoveCounts(s.mapInfo, id, s.news, floating);
    RemoveLastRandom(s.mapInfo, s.vRandom);
    assert id in NewIds(s.mapInfo);
  }

  lemma DeletableIndex(s: State, id: Id)
    requires RandomIndex(s.mapInfo, s.vRandom)
    requires id in s.mapInfo && !s.mapInfo[id].inTried && s.mapInfo[id].refCount == 0
    ensures Deletable(s, id) && s.vRandom[s.mapInfo[id].randomPos] == id
    ensures SameButRandom(s.mapInfo - {id}, Delete(s, id).mapInfo)
  {
    hide RandomIndex, SwapRandom, SameButRandom;
    RandomPlace(s, id);
    var p, q := s.mapInfo[id].randomPos, |s.vRandom| - 1;
    SwapRandomIndex(s, p, q);
    SameWithout(s.mapInfo, SwapRandom(s, p, q).mapInfo, id);
    assert Delete(s, id).mapInfo == SwapRandom(s, p, q).mapInfo - {id};
  }

  lemma RandomPlace(s: State, id: Id)
    requires RandomIndex(s.mapInfo, s.vRandom) && id in s.mapInfo
    ensures var p := s.mapInfo[id].randomPos;
            0 <= p < |s.vRandom| && s.vRandom[p] == id && s.vRandom[|s.vRandom| - 1] in s.mapInfo
  {
  }

  lemma SameWithout(m: map<Id, Info>, n: map<Id, Info>, id: Id)
    requires SameButRandom(m, n)
    ensures SameButRandom(m - {id}, n - {id})
  {
  }

  lemma DeleteMid(s: State, id: Id, floating: set<Id>, lag: int)
    requires Mid(s, floating, lag) && id in floating
    ensures Deletable(s, id)
    ensures Mid(Delete(s, id), floating - {id}, lag)
    ensures SameButRandom(s.mapInfo - {id}, Delete(s, id).mapInfo)
    ensures Delete(s, id).news == s.news && Delete(s, id).tried == s.tried
  {
    hide AddrIndex, RandomIndex, NewTable, TriedTable, RefCounts, Times, SlotsOf, NewIds, TriedIds, SwapRandom;
    FloatingFacts(s, floating, lag, id);
    DeletableIndex(s, id);
    var p := s.mapInfo[id].randomPos;
    SwapRandomMid(s, p, |s.vRandom| - 1, floating, lag);
    DropLastMid(SwapRandom(s, p, |s.vRandom| - 1), id, floating, lag);
  }

  lemma AddTables(key: Key, m: map<Id, Info>, id: Id, i: Info, mapAddr: map<NetAddr, Id>, news: map<Slot, Id>,
                  tried: map<Slot, Id>)
    requires id !in m && !i.inTried && i.service.net !in mapAddr
    ensures AddrIndex(m, mapAddr) ==> AddrIndex(m[id := i], mapAddr[i.service.net := id])
    ensures NewTable(key, m, news) ==> NewTable(key, m[id := i], news)
    ensures TriedTable(key, m, tried) ==> TriedTable(key, m[id := i], tried)
  {
  }

  lemma AddCounts(key: Key, m: map<Id, Info>, id: Id, i: Info, news: map<Slot, Id>)
    requires id !in m && !i.inTried && i.refCount == 0 && i.lastTry == 0 && i.lastSuccess == 0
    requires NewTable(key, m, news)
    ensures RefCounts(m, news, {}) ==> RefCounts(m[id := i], news, {id})
    ensures Times(m) ==> Times(m[id := i])
    ensures NewIds(m[id := i]) == NewIds(m) + {id} && TriedIds(m[id := i]) == TriedIds(m)
  {
    assert SlotsOf(news, id) == {};
  }

  lemma CreateMid(s: State, a: Address, source: NetAddr)
    requires Inv(s) && a.service.net !in s.mapAddr
    ensures Mid(Create(s, a, source), {s.idCount}, 1)
  {
    var r, id := Create(s, a, source), s.idCount;
    assert id !in s.mapInfo;
    AddTables(s.key, s.mapInfo, id, r.mapInfo[id], s.mapAddr, s.news, s.tried);
    AddCounts(s.key, s.mapInfo, id, r.mapInfo[id], s.news);
    assert id !in NewIds(s.mapInfo);
    assert RandomIndex(r.mapInfo, r.vRandom);
  }

  /** Exchanging an entry for one of the same service at the same place. */
  lemma ReplaceIndexes(m: map<Id, Info>, id: Id, i: Info, mapAddr: map<NetAddr, Id>, vRandom: seq<Id>)
    requires id in m && i.service == m[id].service && i.randomPos == m[id].randomPos
    ensures AddrIndex(m, mapAddr) ==> AddrIndex(m[id := i], mapAddr)
    ensures RandomIndex(m, vRandom) ==> RandomIndex(m[id := i], vRandom)
  {
  }

  lemma ReplaceTables(key: Key, m: map<Id, Info>, id: Id, i: Info, news: map<Slot, Id>, tried: map<Slot, Id>)
    requires id in m && i.service == m[id].service && i.inTried == m[id].inTried
    ensures NewTable(key, m, news) ==> NewTable(key, m[id := i], news)
    ensures TriedTable(key, m, tried) ==> TriedTable(key, m[id := i], tried)
    ensures NewIds(m[id := i]) == NewIds(m) && TriedIds(m[id := i]) == TriedIds(m)
  {
  }

  lemma ReplaceTimes(m: map<Id, Info>, id: Id, i: Info)
    requires Times(m) && i.lastTry >= 0 && i.lastSuccess >= 0 && (i.inTried ==> i.lastSuccess != 0)
    ensures Times(m[id := i])
  {
  }

  lemma ReplaceRefs(m: map<Id, Info>, id: Id, i: Info, news: map<Slot, Id>, floating: set<Id>)
    requires id in m && i.inTried == m[id].inTried && i.refCount == m[id].refCount
    requires RefCounts(m, news, floating)
    ensures RefCounts(m[id := i], news, floating)
  {
  }

  /** New statistics for an entry: same address, same tables. */
  lemma UpdateMid(s: State, id: Id, i: Info, floating: set<Id>, lag: int)
    requires Mid(s, floating, lag) && id in s.mapInfo
    requires i.service == s.mapInfo[id].service && i.randomPos == s.mapInfo[id].randomPos
    requires i.inTried == s.mapInfo[id].inTried && i.refCount == s.mapInfo[id].refCount
    requires i.lastTry >= 0 && i.lastSuccess >= 0 && (i.inTried ==> i.lastSuccess != 0)
    ensures Mid(SetInfo(s, id, i), floating, lag)
  {
    hide AddrIndex, RandomIndex, NewTable, TriedTable, RefCounts, Times, SlotsOf, NewIds, TriedIds, SwapRandom;
    ReplaceIndexes(s.mapInfo, id, i, s.mapAddr, s.vRandom);
    ReplaceTables(s.key, s.mapInfo, id, i, s.news, s.tried);
    ReplaceTimes(s.mapInfo, id, i);
    ReplaceRefs(s.mapInfo, id, i, s.news, floating);
  }

  lemma SubTable(key: Key, m: map<Id, Info>, news: map<Slot, Id>, gone: set<Slot>)
    requires NewTable(key, m, news)
    ensures NewTable(key, m, news - gone)
  {
  }

  lemma SlotsRemoved(news: map<Slot, Id>, gone: set<Slot>, id: Id)
    ensures SlotsOf(news - gone, id) == SlotsOf(news, id) - gone
  {
  }

  /** Taking slots away from one entry, with its reference count lowered to match. */
  lemma LessRefs(m: map<Id, Info>, id: Id, i: Info, news: map<Slot, Id>, gone: set<Slot>, floating: set<Id>)
    requires RefCounts(m, news, floating) && id in m && !m[id].inTried && id !in floating
    requires i == m[id].(refCount := m[id].refCount - |gone|) && gone <= SlotsOf(news, id)
    ensures RefCounts(m[id := i], news - gone, if i.refCount == 0 then floating + {id} else floating)
  {
    forall j | j in m ensures SlotsOf(news - gone, j) == if j == id then SlotsOf(news, j) - gone else SlotsOf(news, j) {
      SlotsRemoved(news, gone, j);
    }
    assert |SlotsOf(news, id) - gone| == |SlotsOf(news, id)| - |gone|;
  }

  lemma LessMid(s: State, id: Id, gone: set<Slot>, floating: set<Id>, lag: int)
    requires Mid(s, floating, lag) && id in s.mapInfo && !s.mapInfo[id].inTried && id !in floating
    requires gone <= SlotsOf(s.news, id)
    ensures var i := s.mapInfo[id].(refCount := s.mapInfo[id].refCount - |gone|);
            Mid(SetInfo(s, id, i).(news := s.news - gone), if i.refCount == 0 then floating + {id} else floating, lag)
  {
    hide AddrIndex, RandomIndex, NewTable, TriedTable, RefCounts, SlotsOf, NewIds, TriedIds, SwapRandom;
    var i := s.mapInfo[id].(refCount := s.mapInfo[id].refCount - |gone|);
    ReplaceIndexes(s.mapInfo, id, i, s.mapAddr, s.vRandom);
    ReplaceTables(s.key, s.mapInfo, id, i, s.news, s.tried);
    SubTable(s.key, s.mapInfo[id := i], s.news, gone);
    ReplaceTimes(s.mapInfo, id, i);
    LessRefs(s.mapInfo, id, i, s.news, gone, floating);
  }

  lemma OccupantHasRefs(s: State, sl: Slot, floating: set<Id>, lag: int)
    requires Mid(s, floating, lag) && sl in s.news
    ensures var id := s.news[sl];
            && id in s.mapInfo && !s.mapInfo[id].inTried && id !in floating && s.mapInfo[id].refCount > 0
            && {sl} <= SlotsOf(s.news, id)
  {
    assert sl in SlotsOf(s.news, s.news[sl]);
  }

  lemma ClearNewMid(s: State, sl: Slot, floating: set<Id>, lag: int)
    requires Mid(s, floating, lag)
    ensures Clearable(s, sl)
    ensures Mid(ClearNew(s, sl), floating, lag)
    ensures ClearNew(s, sl).news == s.news - {sl} && ClearNew(s, sl).tried == s.tried
    ensures forall id :: id in s.mapInfo && (sl in s.news ==> id != s.news[sl]) ==>
              id in ClearNew(s, sl).mapInfo &&
              ClearNew(s, sl).mapInfo[id].(randomPos := s.mapInfo[id].randomPos) == s.mapInfo[id]
  {
    hide AddrIndex, RandomIndex, NewTable, TriedTable, RefCounts, Times, SlotsOf, NewIds, TriedIds, SwapRandom;
    if sl in s.news {
      var id := s.news[sl];
      OccupantHasRefs(s, sl, floating, lag);
      LessMid(s, id, {sl}, floating, lag);
      if s.mapInfo[id].refCount == 1 {
        DeleteMid(Dropped(s, sl), id, floating + {id}, lag);
        assert floating + {id} - {id} == floating;
      }
    }
  }

  lemma MoreTable(key: Key, m: map<Id, Info>, news: map<Slot, Id>, sl: Slot, id: Id)
    requires NewTable(key, m, news) && id in m && !m[id].inTried
    requires 0 <= sl.0 < NEW_BUCKET_COUNT && sl == NewSlot(key, m[id].service, sl.0)
    ensures NewTable(key, m, news[sl := id])
  {
  }

  lemma MoreRefs(m: map<Id, Info>, id: Id, i: Info, news: map<Slot, Id>, sl: Slot, floating: set<Id>)
    requires RefCounts(m, news, floating) && id in m && !m[id].inTried && sl !in news
    requires i == m[id].(refCount := m[id].refCount + 1) && i.refCount <= NEW_BUCKETS_PER_ADDRESS
    ensures RefCounts(m[id := i], news[sl := id], floating - {id})
  {
    forall j | j in m ensures m[id := i][j].refCount == |SlotsOf(news[sl := id], j)| {
      SlotsAdded(news, sl, id, j);
    }
  }

  lemma SlotsAdded(news: map<Slot, Id>, sl: Slot, id: Id, j: Id)
    requires sl !in news
    ensures |SlotsOf(news[sl := id], j)| == |SlotsOf(news, j)| + if j == id then 1 else 0
  {
    assert SlotsOf(news[sl := id], j) == SlotsOf(news, j) + if j == id then {sl} else {};
    assert sl !in SlotsOf(news, j);
  }

  lemma FloatingFacts(s: State, floating: set<Id>, lag: int, id: Id)
    requires Mid(s, floating, lag) && id in floating
    ensures id in s.mapInfo && !s.mapInfo[id].inTried && s.mapInfo[id].refCount == 0
  {
  }

  lemma PlacedMid(s: State, sl: Slot, id: Id, floating: set<Id>, lag: int)
    requires Mid(s, floating, lag) && id in s.mapInfo && !s.mapInfo[id].inTried && sl !in s.news
    requires s.mapInfo[id].refCount < NEW_BUCKETS_PER_ADDRESS
    requires 0 <= sl.0 < NEW_BUCKET_COUNT && sl == NewSlot(s.key, s.mapInfo[id].service, sl.0)
    ensures Mid(Placed(s, sl, id), floating - {id}, lag)
  {
    hide AddrIndex, RandomIndex, NewTable, TriedTable, RefCounts, SlotsOf, NewIds, TriedIds, SwapRandom;
    var i := s.mapInfo[id].(refCount := s.mapInfo[id].refCount + 1);
    ReplaceIndexes(s.mapInfo, id, i, s.mapAddr, s.vRandom);
    ReplaceTables(s.key, s.mapInfo, id, i, s.news, s.tried);
    MoreTable(s.key, s.mapInfo[id := i], s.news, sl, id);
    ReplaceTimes(s.mapInfo, id, i);
    MoreRefs(s.mapInfo, id, i, s.news, sl, floating);
  }

  lemma UnlistedMid(s: State, id: Id)
    requires Inv(s) && id in s.mapInfo && !s.mapInfo[id].inTried
    ensures Mid(Unlisted(s, id), {id}, 1)
    ensures Unlisted(s, id).mapInfo[id] == s.mapInfo[id].(refCount := 0)
  {
    LessMid(s, id, SlotsOf(s.news, id), {}, 0);
    assert s.mapInfo[id].refCount == |SlotsOf(s.news, id)|;
    hide AddrIndex, RandomIndex, NewTable, TriedTable, RefCounts, Times, SlotsOf, NewIds, TriedIds, SwapRandom;
    assert {} + {id} == {id};
  }

  lemma EvictedTables(key: Key, m: map<Id, Info>, news: map<Slot, Id>, tried: map<Slot, Id>, sl: Slot, i: Info)
    requires NewTable(key, m, news) && TriedTable(key, m, tried) && sl in tried
    requires i == m[tried[sl]].(inTried := false)
    ensures NewTable(key, m[tried[sl] := i], news) && TriedTable(key, m[tried[sl] := i], tried - {sl})
    ensures SlotsOf(news, tried[sl]) == {}
    ensures NewIds(m[tried[sl] := i]) == NewIds(m) + {tried[sl]} && tried[sl] !in NewIds(m)
    ensures TriedIds(m[tried[sl] := i]) == TriedIds(m) - {tried[sl]} && tried[sl] in TriedIds(m)
  {
  }

  lemma EvictedRefs(m: map<Id, Info>, id: Id, i: Info, news: map<Slot, Id>, floating: set<Id>)
    requires RefCounts(m, news, floating) && id in m && m[id].inTried && SlotsOf(news, id) == {}
    requires i == m[id].(inTried := false)
    ensures RefCounts(m[id := i], news, floating + {id})
  {
  }

  lemma EvictedMid(s: State, sl: Slot, floating: set<Id>, lag: int)
    requires Mid(s, floating, lag) && sl in s.tried
    ensures s.tried[sl] in s.mapInfo && s.mapInfo[s.tried[sl]].inTried
    ensures s.mapInfo[s.tried[sl]].refCount == 0
    ensures Mid(Evicted(s, sl), floating + {s.tried[sl]}, lag + 1)
  {
    var id := s.tried[sl];
    var i := s.mapInfo[id].(inTried := false);
    ReplaceIndexes(s.mapInfo, id, i, s.mapAddr, s.vRandom);
    EvictedTables(s.key, s.mapInfo, s.news, s.tried, sl, i);
    EvictedRefs(s.mapInfo, id, i, s.news, floating);
    ReplaceTimes(s.mapInfo, id, i);
    assert s.mapInfo[id].refCount == |SlotsOf(s.news, id)|;
    hide AddrIndex, RandomIndex, NewTable, TriedTable, RefCounts, Times, SlotsOf, NewIds, TriedIds, SwapRandom;
  }

  /** Afterwards tried slot sl is free, and the floating entries are still there. */
  lemma MakeRoomMid(s: State, sl: Slot, id: Id)
    requires Mid(s, {id}, 1) && id in s.mapInfo
    ensures Evictable(s, sl) && Mid(MakeRoom(s, sl), {id}, 1)
    ensures sl !in MakeRoom(s, sl).tried && MakeRoom(s, sl).key == s.key
    ensures id in MakeRoom(s, sl).mapInfo
    ensures MakeRoom(s, sl).mapInfo[id].(randomPos := s.mapInfo[id].randomPos) == s.mapInfo[id]
  {
    hide AddrIndex, RandomIndex, NewTable, TriedTable, RefCounts, Times, SlotsOf, NewIds, TriedIds, SwapRandom;
    if sl in s.tried {
      var out := s.tried[sl];
      var both := {id} + {out};
      FloatingFacts(s, {id}, 1, id);
      EvictedMid(s, sl, {id}, 1);
      var home := HomeSlot(s.key, s.mapInfo[out]);
      var e := Evicted(s, sl);
      if home in e.news {
        OccupantHasRefs(e, home, both, 2);
      }
      ClearNewMid(e, home, both, 2);
      var c := ClearNew(e, home);
      FloatingFacts(c, both, 2, out);
      PlacedMid(c, home, out, both, 2);
      assert both - {out} == {id};
    }
  }

  lemma TriedTables(key: Key, m: map<Id, Info>, news: map<Slot, Id>, tried: map<Slot, Id>, id: Id, i: Info)
    requires NewTable(key, m, news) && TriedTable(key, m, tried) && id in m && !m[id].inTried
    requires i == m[id].(inTried := true) && TriedSlot(key, i.service) !in tried && SlotsOf(news, id) == {}
    ensures NewTable(key, m[id := i], news) && TriedTable(key, m[id := i], tried[TriedSlot(key, i.service) := id])
    ensures NewIds(m[id := i]) == NewIds(m) - {id} && id in NewIds(m)
    ensures TriedIds(m[id := i]) == TriedIds(m) + {id} && id !in TriedIds(m)
  {
    forall sl | sl in news ensures news[sl] != id {
      assert sl !in SlotsOf(news, id);
    }
  }

  lemma TriedRefs(m: map<Id, Info>, id: Id, i: Info, news: map<Slot, Id>, floating: set<Id>)
    requires RefCounts(m, news, floating) && id in floating
    requires i == m[id].(inTried := true)
    ensures RefCounts(m[id := i], news, floating - {id}) && SlotsOf(news, id) == {}
  {
  }

  lemma EnterTriedMid(s: State, id: Id, floating: set<Id>, lag: int)
    requires Mid(s, floating, lag) && id in floating && id in s.mapInfo && s.mapInfo[id].lastSuccess > 0
    requires TriedSlot(s.key, s.mapInfo[id].service) !in s.tried
    ensures Mid(SetInfo(s, id, s.mapInfo[id].(inTried := true))
                .(tried := s.tried[TriedSlot(s.key, s.mapInfo[id].service) := id], nTried := s.nTried + 1),
                floating - {id}, lag - 1)
  {
    var i := s.mapInfo[id].(inTried := true);
    FloatingFacts(s, floating, lag, id);
    ReplaceIndexes(s.mapInfo, id, i, s.mapAddr, s.vRandom);
    TriedRefs(s.mapInfo, id, i, s.news, floating);
    TriedTables(s.key, s.mapInfo, s.news, s.tried, id, i);
    ReplaceTimes(s.mapInfo, id, i);
    hide AddrIndex, RandomIndex, NewTable, TriedTable, RefCounts, Times, SlotsOf, NewIds, TriedIds, SwapRandom;
  }

  /** MakeTried's asserts hold and it keeps the whole invariant, evictions included. */
  lemma MakeTriedInv(s: State, id: Id)
    requires Inv(s) && id in s.mapInfo && !s.mapInfo[id].inTried && s.mapInfo[id].lastSuccess > 0
    ensures Triable(s, id) && Inv(MakeTried(s, id))
  {
    hide AddrIndex, RandomIndex, NewTable, TriedTable, RefCounts, Times, SlotsOf, NewIds, TriedIds, SwapRandom;
    var sl := TriedSlot(s.key, s.mapInfo[id].service);
    UnlistedMid(s, id);
    MakeRoomMid(Unlisted(s, id), sl, id);
    EnterTriedMid(MakeRoom(Unlisted(s, id), sl), id, {id}, 1);
    assert {id} - {id} == {};
  }

  /** ClearNew removes nothing but the holder of the slot, and that only with its last reference. */
  lemma ClearNewKeeps(s: State, sl: Slot, floating: set<Id>, lag: int, id: Id)
    requires Mid(s, floating, lag)
    ensures Clearable(s, sl)
    ensures id in ClearNew(s, sl).mapInfo <==>
            id in s.mapInfo && !(sl in s.news && s.news[sl] == id && s.mapInfo[id].refCount == 1)
  {
    hide AddrIndex, RandomIndex, NewTable, TriedTable, RefCounts, Times, SlotsOf, NewIds, TriedIds, SwapRandom;
    ClearNewMid(s, sl, floating, lag);
    if sl in s.news {
      OccupantHasRefs(s, sl, floating, lag);
      if s.mapInfo[s.news[sl]].refCount == 1 {
        LessMid(s, s.news[sl], {sl}, floating, lag);
        DeleteMid(Dropped(s, sl), s.news[sl], floating + {s.news[sl]}, lag);
      }
    }
  }

  /** What MakeTried does to the two tables: the entry takes its tried slot, whoever was there goes back
      to the new slot its own source selects, and no other slot changes. */
  lemma MakeTriedTables(s: State, id: Id)
    requires Inv(s) && id in s.mapInfo && !s.mapInfo[id].inTried && s.mapInfo[id].lastSuccess > 0
    ensures Triable(s, id)
    ensures var sl := TriedSlot(s.key, s.mapInfo[id].service);
            var r := MakeTried(s, id);
            var left := s.news - SlotsOf(s.news, id);
            && r.tried == s.tried[sl := id]
            && if sl in s.tried then r.news == left[HomeSlot(s.key, s.mapInfo[s.tried[sl]]) := s.tried[sl]]
               else r.news == left
  {
    hide AddrIndex, RandomIndex, NewTable, TriedTable, RefCounts, Times, SlotsOf, NewIds, TriedIds, SwapRandom;
    MakeTriedInv(s, id);
    var sl := TriedSlot(s.key, s.mapInfo[id].service);
    UnlistedMid(s, id);
    var u := Unlisted(s, id);
    MakeRoomMid(u, sl, id);
    if sl in s.tried {
      EvictedMid(u, sl, {id}, 1);
      var out := s.tried[sl];
      FloatingFacts(u, {id}, 1, id);
      var home := HomeSlot(s.key, u.mapInfo[out]);
      ClearNewMid(Evicted(u, sl), home, {id} + {out}, 2);
      assert (u.news - {home})[home := out] == u.news[home := out];
    }
  }

  lemma UnlistedAt(s: State, id: Id, sl: Slot)
    requires id in s.mapInfo
    ensures sl in Unlisted(s, id).news <==> sl in s.news && s.news[sl] != id
  {
  }

  /** The only entry MakeTried can lose is one whose last new slot the evicted entry needs. */
  lemma MakeTriedKeeps(s: State, id: Id, j: Id)
    requires Inv(s) && id in s.mapInfo && !s.mapInfo[id].inTried && s.mapInfo[id].lastSuccess > 0
    ensures Triable(s, id)
    ensures var sl := TriedSlot(s.key, s.mapInfo[id].service);
            j in MakeTried(s, id).mapInfo <==>
            j in s.mapInfo && !(sl in s.tried && j != id && var home := HomeSlot(s.key, s.mapInfo[s.tried[sl]]);
                                home in s.news && s.news[home] == j && s.mapInfo[j].refCount == 1)
  {
    hide AddrIndex, RandomIndex, NewTable, TriedTable, RefCounts, Times, SlotsOf, NewIds, TriedIds, SwapRandom;
    MakeTriedInv(s, id);
    var sl := TriedSlot(s.key, s.mapInfo[id].service);
    UnlistedMid(s, id);
    var u := Unlisted(s, id);
    MakeRoomMid(u, sl, id);
    if sl in s.tried {
      var out := s.tried[sl];
      FloatingFacts(u, {id}, 1, id);
      EvictedMid(u, sl, {id}, 1);
      var e, home := Evicted(u, sl), HomeSlot(s.key, s.mapInfo[out]);
      UnlistedAt(s, id, home);
      ClearNewKeeps(e, home, {id} + {out}, 2, j);
      if home in e.news {
        OccupantHasRefs(e, home, {id} + {out}, 2);
      }
    }
  }

  /** A reference count above zero means the entry can be found in a bucket: Good_ never bails out. */
  lemma GoodNeverBailsOut(s: State, id: Id)
    requires Inv(s) && id in s.mapInfo && !s.mapInfo[id].inTried
    ensures InSomeBucket(s, id)
  {
    assert SlotsOf(s.news, id) != {};
    var sl :| sl in SlotsOf(s.news, id);
    assert HoldsAt(s, id, sl.0);
  }

  lemma GoodInv(s: State, a: Service, time: int)
    requires Inv(s) && time > 0
    ensures GoodOk(s, a, time) && Inv(Good(s, a, time))
  {
    hide AddrIndex, RandomIndex, NewTable, TriedTable, RefCounts, Times, SlotsOf, NewIds, TriedIds, SwapRandom;
    if Known(s, a) {
      var id := s.mapAddr[a.net];
      UpdateMid(s.(lastGood := time), id, Succeeded(s.mapInfo[id], time), {}, 0);
      if !s.mapInfo[id].inTried {
        MakeTriedInv(SetInfo(s.(lastGood := time), id, Succeeded(s.mapInfo[id], time)), id);
      }
    }
  }

  lemma ListInv(s: State, id: Id, source: NetAddr, now: int, floating: set<Id>)
    requires Mid(s, floating, 0) && floating <= {id} && id in s.mapInfo && !s.mapInfo[id].inTried
    requires s.mapInfo[id].refCount < NEW_BUCKETS_PER_ADDRESS && (s.mapInfo[id].refCount == 0 <==> id in floating)
    ensures Listable(s, id, source, now) && Inv(List(s, id, source, now))
  {
    hide AddrIndex, RandomIndex, NewTable, TriedTable, RefCounts, Times, SlotsOf, NewIds, TriedIds, SwapRandom;
    var sl := NewSlot(s.key, s.mapInfo[id].service, NewBucket(s.key, s.mapInfo[id].service, source));
    if sl in s.news {
      OccupantHasRefs(s, sl, floating, 0);
    }
    assert floating - {id} == {};
    if sl in s.news && s.news[sl] == id {
      assert floating == {};
    } else if MayTake(s, sl, id, now) {
      ClearNewMid(s, sl, floating, 0);
      PlacedMid(ClearNew(s, sl), sl, id, floating, 0);
    } else if s.mapInfo[id].refCount == 0 {
      DeleteMid(s, id, floating, 0);
    } else {
      assert floating == {};
    }
  }

  lemma EntryFacts(s: State, floating: set<Id>, lag: int, id: Id)
    requires Mid(s, floating, lag) && id in s.mapInfo && id !in floating
    ensures !s.mapInfo[id].inTried ==> 0 < s.mapInfo[id].refCount <= NEW_BUCKETS_PER_ADDRESS
    ensures s.mapInfo[id].lastTry >= 0 && s.mapInfo[id].lastSuccess >= 0
    ensures s.mapInfo[id].inTried ==> s.mapInfo[id].lastSuccess > 0
  {
  }

  lemma AddrFacts(s: State, floating: set<Id>, lag: int, net: NetAddr)
    requires Mid(s, floating, lag)
    ensures net in s.mapAddr <==> Found(s, net)
  {
  }

  lemma AnnouncedMid(s: State, a: Address, source: NetAddr, penalty: int)
    requires Inv(s) && a.service.net !in s.mapAddr
    ensures Mid(Announced(s, a, source, penalty), {s.idCount}, 0)
  {
    hide AddrIndex, RandomIndex, NewTable, TriedTable, RefCounts, Times, SlotsOf, NewIds, TriedIds, SwapRandom;
    CreateMid(s, a, source);
    var c := Create(s, a, source);
    var i := c.mapInfo[s.idCount];
    UpdateMid(c, s.idCount, i.(time := Max(0, i.time - penalty)), {s.idCount}, 1);
  }

  lemma AddInv(s: State, a: Address, source: NetAddr, penalty: int, routable: bool, now: int, rnd: nat)
    requires Inv(s)
    ensures AddOk(s, a, source, penalty, routable, now, rnd)
    ensures Inv(Add(s, a, source, penalty, routable, now, rnd).0)
  {
    hide AddrIndex, RandomIndex, NewTable, TriedTable, RefCounts, Times, SlotsOf, NewIds, TriedIds, SwapRandom;
    var net := a.service.net;
    AddrFacts(s, {}, 0, net);
    if !routable {
    } else if Found(s, net) {
      var id := s.mapAddr[net];
      EntryFacts(s, {}, 0, id);
      var i := Refreshed(s.mapInfo[id], a, Penalty(a, source, penalty), now);
      UpdateMid(s, id, i, {}, 0);
      if !NoNews(i, a, rnd) {
        ListInv(SetInfo(s, id, i), id, source, now, {});
      }
    } else {
      AnnouncedMid(s, a, source, Penalty(a, source, penalty));
      ListInv(Announced(s, a, source, Penalty(a, source, penalty)), s.idCount, source, now, {s.idCount});
    }
  }

  lemma AttemptInv(s: State, a: Service, countFailure: bool, time: int)
    requires Inv(s) && time >= 0
    ensures Inv(Attempt(s, a, countFailure, time))
  {
    hide AddrIndex, RandomIndex, NewTable, TriedTable, RefCounts, Times, SlotsOf, NewIds, TriedIds, SwapRandom;
    if Known(s, a) {
      var id := s.mapAddr[a.net];
      EntryFacts(s, {}, 0, id);
      UpdateMid(s, id, Attempt(s, a, countFailure, time).mapInfo[id], {}, 0);
    }
  }

  lemma ConnectedInv(s: State, a: Service, time: int)
    requires Inv(s)
    ensures Inv(Connected(s, a, time))
  {
    hide AddrIndex, RandomIndex, NewTable, TriedTable, RefCounts, Times, SlotsOf, NewIds, TriedIds, SwapRandom;
    if Known(s, a) {
      var id := s.mapAddr[a.net];
      EntryFacts(s, {}, 0, id);
      UpdateMid(s, id, s.mapInfo[id].(time := time), {}, 0);
    }
  }

  lemma SetServicesInv(s: State, a: Service, services: set<nat>)
    requires Inv(s)
    ensures Inv(SetServices(s, a, services))
  {
    hide AddrIndex, RandomIndex, NewTable, TriedTable, RefCounts, Times, SlotsOf, NewIds, TriedIds, SwapRandom;
    if Known(s, a) {
      var id := s.mapAddr[a.net];
      EntryFacts(s, {}, 0, id);
      UpdateMid(s, id, s.mapInfo[id].(services := services), {}, 0);
    }
  }

  /** Add answers true exactly for a routable address it did not know, whether or not it keeps it. */
  lemma AddAnswer(s: State, a: Address, source: NetAddr, penalty: int, routable: bool, now: int, rnd: nat)
    requires Inv(s)
    ensures AddOk(s, a, source, penalty, routable, now, rnd)
    ensures Add(s, a, source, penalty, routable, now, rnd).1 <==> routable && a.service.net !in s.mapAddr
  {
    AddInv(s, a, source, penalty, routable, now, rnd);
    hide AddrIndex, RandomIndex, NewTable, TriedTable, RefCounts, Times, SlotsOf, NewIds, TriedIds, SwapRandom;
    AddrFacts(s, {}, 0, a.service.net);
  }

  /** A new address is kept if and only if its slot is free or its holder may be displaced: it is
      terrible, or listed elsewhere as well. Otherwise Add still answers true. */
  lemma AddKeepsIff(s: State, a: Address, source: NetAddr, penalty: int, now: int, rnd: nat)
    requires Inv(s) && a.service.net !in s.mapAddr
    ensures AddOk(s, a, source, penalty, true, now, rnd)
    ensures var sl := NewSlot(s.key, a.service, NewBucket(s.key, a.service, source));
            a.service.net in Add(s, a, source, penalty, true, now, rnd).0.mapAddr <==>
            (sl in s.news ==> IsTerrible(s.mapInfo[s.news[sl]], now) || s.mapInfo[s.news[sl]].refCount > 1)
  {
    AddInv(s, a, source, penalty, true, now, rnd);
    var n := Announced(s, a, source, Penalty(a, source, penalty));
    AnnouncedMid(s, a, source, Penalty(a, source, penalty));
    var sl := NewSlot(s.key, a.service, NewBucket(s.key, a.service, source));
    var id := s.idCount;
    if sl in n.news {
      OccupantHasRefs(n, sl, {id}, 0);
      assert n.news[sl] != id;
      assert n.mapInfo[n.news[sl]] == s.mapInfo[s.news[sl]];
    }
    var r := List(n, id, source, now);
    assert Add(s, a, source, penalty, true, now, rnd).0 == r;
    if MayTake(n, sl, id, now) {
      ClearNewMid(n, sl, {id}, 0);
      PlacedMid(ClearNew(n, sl), sl, id, {id}, 0);
      hide AddrIndex, RandomIndex, NewTable, TriedTable, RefCounts, Times, SlotsOf, NewIds, TriedIds, SwapRandom;
      AddrFacts(r, {}, 0, a.service.net);
      StoredFacts(r, {id} - {id}, 0, id);
    } else {
      hide AddrIndex, RandomIndex, NewTable, TriedTable, RefCounts, Times, SlotsOf, NewIds, TriedIds, SwapRandom;
    }
  }

  /** A manager with one address, under a key that sends all addresses to one slot. */
  function OneAddress(): State {
    var key := Key(_ => 0, (_, _) => 0, (_, _, _) => 0);
    State(1, map[0 := Info(Service(10, 8333), {}, 1000, 99, 0, 0, 0, 0, 1, false, 0)], map[10 := 0], [0],
          0, map[], 1, map[(0, 0) := 0], 1, key)
  }

  lemma OneAddressInv()
    ensures Inv(OneAddress())
  {
    OneAddressTables();
    OneAddressCounts();
    hide AddrIndex, RandomIndex, NewTable, TriedTable, RefCounts, Times, NewIds, TriedIds;
  }

  lemma OneAddressTables()
    ensures var s := OneAddress();
            && AddrIndex(s.mapInfo, s.mapAddr) && RandomIndex(s.mapInfo, s.vRandom)
            && NewTable(s.key, s.mapInfo, s.news) && TriedTable(s.key, s.mapInfo, s.tried)
  {
    assert NewSlot(OneAddress().key, Service(10, 8333), 0) == (0, 0);
  }

  lemma OneAddressCounts()
    ensures var s := OneAddress();
            && RefCounts(s.mapInfo, s.news, {}) && Times(s.mapInfo)
            && |TriedIds(s.mapInfo)| == 0 && |NewIds(s.mapInfo)| == 1
  {
    var s := OneAddress();
    assert SlotsOf(s.news, 0) == {(0, 0)};
    assert NewIds(s.mapInfo) == {0} && TriedIds(s.mapInfo) == {};
  }

  lemma OneAddressFacts(a: Service)
    requires a.net != 10
    ensures var s := OneAddress();
            && NewSlot(s.key, a, NewBucket(s.key, a, 99)) == (0, 0) && (0, 0) in s.news && s.news[(0, 0)] in s.mapInfo
            && !IsTerrible(s.mapInfo[s.news[(0, 0)]], 1000) && s.mapInfo[s.news[(0, 0)]].refCount == 1
            && a.net !in s.mapAddr
  {
  }

  /** A second address finds the slot taken by one that may stay. The answer is that it was added; it is not stored. */
  lemma AnsweredNotKept()
    ensures var s, a := OneAddress(), Address(Service(20, 8333), {}, 1000);
            && Inv(s) && a.service.net !in s.mapAddr
            && AddOk(s, a, 99, 0, true, 1000, 0)
            && Add(s, a, 99, 0, true, 1000, 0).1 && a.service.net !in Add(s, a, 99, 0, true, 1000, 0).0.mapAddr
  {
    hide *;
    OneAddressInv();
    OneAddressFacts(Service(20, 8333));
    var s, a := OneAddress(), Address(Service(20, 8333), {}, 1000);
    AddKeepsIff(s, a, 99, 0, 1000, 0);
    AddAnswer(s, a, 99, 0, true, 1000, 0);
  }

  lemma StoredFacts(s: State, floating: set<Id>, lag: int, id: Id)
    requires Mid(s, floating, lag) && id in s.mapInfo
    ensures s.mapInfo[id].service.net in s.mapAddr && s.mapAddr[s.mapInfo[id].service.net] == id
  {
  }

  /** The addresses of those of the given entries that are not terrible, in order. */
  function Picked(m: map<Id, Info>, ids: seq<Id>, now: int): (r: seq<Address>)
    requires forall i :: 0 <= i < |ids| ==> ids[i] in m
    ensures |r| <= |ids|
  {
    if |ids| == 0 then []
    else
      var i := m[ids[|ids| - 1]];
      Picked(m, ids[..|ids| - 1], now) + if IsTerrible(i, now) then [] else [ToAddress(i)]
  }

  lemma {:induction false} PickedSame(m: map<Id, Info>, n: map<Id, Info>, ids: seq<Id>, now: int)
    requires SameButRandom(m, n) && forall i :: 0 <= i < |ids| ==> ids[i] in m
    ensures Picked(m, ids, now) == Picked(n, ids, now)
  {
    if |ids| > 0 {
      PickedSame(m, n, ids[..|ids| - 1], now);
      var id := ids[|ids| - 1];
      assert n[id].(randomPos := m[id].randomPos) == m[id];
    }
  }

  /** The address of a stored entry among ids that is not terrible. */
  ghost predicate GoodPick(s: State, ids: seq<Id>, a: Address, now: int) {
    Known(s, a.service) && s.mapAddr[a.service.net] in ids && !IsTerrible(s.mapInfo[s.mapAddr[a.service.net]], now)
  }

  ghost predicate GoodPicks(s: State, ids: seq<Id>, r: seq<Address>, now: int) {
    && (forall i :: 0 <= i < |r| ==> GoodPick(s, ids, r[i], now))
    && (forall i, j :: 0 <= i < j < |r| ==> r[i].service.net != r[j].service.net)
  }

  lemma {:induction false} PickedAreGood(s: State, ids: seq<Id>, now: int)
    requires AddrIndex(s.mapInfo, s.mapAddr) && forall i :: 0 <= i < |ids| ==> ids[i] in s.mapInfo
    requires forall i, j :: 0 <= i < j < |ids| ==> ids[i] != ids[j]
    ensures GoodPicks(s, ids, Picked(s.mapInfo, ids, now), now)
  {
    if |ids| > 0 {
      var front, id := ids[..|ids| - 1], ids[|ids| - 1];
      PickedAreGood(s, front, now);
      var f, r := Picked(s.mapInfo, front, now), Picked(s.mapInfo, ids, now);
      assert s.mapAddr[s.mapInfo[id].service.net] == id && id !in front;
      forall i | 0 <= i < |r| ensures GoodPick(s, ids, r[i], now) {
        assert i < |f| ==> r[i] == f[i] && GoodPick(s, front, f[i], now);
        assert forall x :: x in front ==> x in ids;
      }
      forall i, j | 0 <= i < j < |r| ensures r[i].service.net != r[j].service.net {
        assert r[i] == f[i] && GoodPick(s, front, f[i], now);
        assert j < |f| ==> r[j] == f[j];
      }
    }
  }

  lemma SwapTail(s: State, n: nat, p: nat)
    requires RandomIndex(s.mapInfo, s.vRandom) && n <= p < |s.vRandom|
    ensures SwapRandom(s, n, p).vRandom[..n] == s.vRandom[..n]
  {
  }

  lemma ListedInv(s: State)
    requires Inv(s)
    ensures Listed(s) && (forall i, j :: 0 <= i < j < |s.vRandom| ==> s.vRandom[i] != s.vRandom[j])
  {
  }

  /** out is what a walk over the first k places of r's vRandom picks, and r is s reordered. */
  ghost predicate Sampled(s: State, r: State, out: seq<Address>, k: nat, limit: nat, now: int) {
    && Inv(r) && Listed(r) && SameButRandom(s.mapInfo, r.mapInfo)
    && r == s.(mapInfo := r.mapInfo, vRandom := r.vRandom)
    && k <= |r.vRandom| == |s.vRandom| && out == Picked(r.mapInfo, r.vRandom[..k], now)
    && |out| <= limit && (k == |r.vRandom| || |out| == limit)
  }

  lemma RandomOf(s: State)
    requires Inv(s)
    ensures RandomIndex(s.mapInfo, s.vRandom)
  {
  }

  lemma SwapInv(s: State, n: nat, p: nat)
    requires Inv(s) && Listed(s) && n <= p < |s.vRandom|
    ensures Inv(SwapRandom(s, n, p)) && SameButRandom(s.mapInfo, SwapRandom(s, n, p).mapInfo)
  {
    hide Mid, SwapRandom, SameButRandom;
    SwapRandomMid(s, n, p, {}, 0);
  }

  lemma SwapStep(s: State, n: nat, p: nat, now: int)
    requires Inv(s) && Listed(s) && n <= p < |s.vRandom|
    ensures var r := SwapRandom(s, n, p);
            && Inv(r) && Listed(r) && SameButRandom(s.mapInfo, r.mapInfo)
            && Picked(r.mapInfo, r.vRandom[..n], now) == Picked(s.mapInfo, s.vRandom[..n], now)
  {
    RandomOf(s);
    hide *;
    var r := SwapRandom(s, n, p);
    SwapInv(s, n, p);
    SwapTail(s, n, p);
    ListedInv(r);
    PickedSame(s.mapInfo, r.mapInfo, s.vRandom[..n], now);
  }

  lemma SampledFurther(s: State, m: State, r: State, out: seq<Address>, k: nat, limit: nat, now: int)
    requires SameButRandom(s.mapInfo, m.mapInfo) && m == s.(mapInfo := m.mapInfo, vRandom := m.vRandom)
    requires |m.vRandom| == |s.vRandom| && Sampled(m, r, out, k, limit, now)
    ensures Sampled(s, r, out, k, limit, now)
  {
    hide Mid, Picked;
    assert forall id :: id in s.mapInfo ==> m.mapInfo[id].(randomPos := s.mapInfo[id].randomPos) == s.mapInfo[id];
  }

  lemma PickedNext(m: map<Id, Info>, v: seq<Id>, n: nat, now: int)
    requires n < |v| && forall i :: 0 <= i < |v| ==> v[i] in m
    ensures Picked(m, v[..n + 1], now) == PickNext(Picked(m, v[..n], now), m[v[n]], now)
  {
    assert v[..n + 1][..n] == v[..n];
  }

  lemma {:induction false} GetAddrFromSpec(s: State, n: nat, acc: seq<Address>, limit: nat, rand: nat -> nat, now: int)
    returns (k: nat)
    requires Inv(s) && Listed(s) && n <= |s.vRandom| && |acc| <= limit
    requires acc == Picked(s.mapInfo, s.vRandom[..n], now)
    ensures var (r, out) := GetAddrFrom(s, n, acc, limit, rand, now); Sampled(s, r, out, k, limit, now)
    decreases |s.vRandom| - n
  {
    hide Mid, SwapRandom, Picked, Draw;
    if n == |s.vRandom| || |acc| >= limit {
      k := n;
    } else {
      hide Sampled, SameButRandom, IsTerrible;
      var p := Draw(rand, n, |s.vRandom|);
      var m := SwapRandom(s, n, p);
      SwapStep(s, n, p, now);
      PickedNext(m.mapInfo, m.vRandom, n, now);
      var acc' := PickNext(acc, m.mapInfo[m.vRandom[n]], now);
      k := GetAddrFromSpec(m, n + 1, acc', limit, rand, now);
      var (r, out) := GetAddrFrom(m, n + 1, acc', limit, rand, now);
      SampledFurther(s, m, r, out, k, limit, now);
    }
  }

  /** GetAddr: at most 23% and at most 2500 addresses, all stored and not terrible, none twice;
      only the order of vRandom changes. Fewer than the limit means every good entry is among them. */
  lemma GetAddrSpec(s: State, rand: nat -> nat, now: int)
    requires Inv(s)
    ensures Listed(s)
    ensures var (r, out) := GetAddrFrom(s, 0, [], GetAddrLimit(|s.vRandom|), rand, now);
            && Inv(r) && SameButRandom(s.mapInfo, r.mapInfo)
            && |out| <= GETADDR_MAX && 100 * |out| <= GETADDR_MAX_PCT * |s.vRandom|
            && GoodPicks(r, r.vRandom, out, now)
            && (|out| < GetAddrLimit(|s.vRandom|) ==> Listed(r) && out == Picked(r.mapInfo, r.vRandom, now))
  {
    ListedInv(s);
    var limit := GetAddrLimit(|s.vRandom|);
    var k := GetAddrFromSpec(s, 0, [], limit, rand, now);
    var (r, out) := GetAddrFrom(s, 0, [], limit, rand, now);
    hide GetAddrFrom, Picked;
    SampledGood(s, r, out, k, limit, now);
  }

  lemma SampledGood(s: State, r: State, out: seq<Address>, k: nat, limit: nat, now: int)
    requires Sampled(s, r, out, k, limit, now)
    ensures GoodPicks(r, r.vRandom, out, now)
    ensures |out| < limit ==> out == Picked(r.mapInfo, r.vRandom, now)
  {
    ListedInv(r);
    var ids := r.vRandom[..k];
    PickedAreGood(r, ids, now);
    assert r.vRandom[..|r.vRandom|] == r.vRandom;
    hide Mid, Picked;
    assert forall x :: x in ids ==> x in r.vRandom;
    forall i | 0 <= i < |out| ensures GoodPick(r, r.vRandom, out[i], now) {
      assert GoodPick(r, ids, out[i], now);
    }
  }

  lemma OpInv(s: State, op: Op)
    requires Inv(s) && PositiveTimes(op)
    ensures OpOk(s, op) && Inv(Step(s, op))
  {
    match op
    case Adding(a, source, penalty, routable, now, rnd) => AddInv(s, a, source, penalty, routable, now, rnd);
    case MarkingGood(a, t) => GoodInv(s, a, t);
    case Attempting(a, c, t) => AttemptInv(s, a, c, t);
    case Connecting(a, t) => ConnectedInv(s, a, t);
    case SettingServices(a, v) => SetServicesInv(s, a, v);
    case Sampling(rand, now) => GetAddrSpec(s, rand, now);
  }

  lemma {:induction false} RunInv(s: State, ops: seq<Op>)
    requires Inv(s) && forall i :: 0 <= i < |ops| ==> PositiveTimes(ops[i])
    ensures RunOk(s, ops) && Inv(Run(s, ops))
    decreases |ops|
  {
    hide Mid;
    if |ops| > 0 {
      OpInv(s, ops[0]);
      RunInv(Step(s, ops[0]), ops[1..]);
    }
  }

  /** Main theorem: from a new address manager no sequence of operations trips an assert or leaves a
      state that Check_ would reject. */
  lemma EveryRunConsistent(key: Key, ops: seq<Op>)
    requires forall i :: 0 <= i < |ops| ==> PositiveTimes(ops[i])
    ensures RunOk(Empty(key), ops) && Inv(Run(Empty(key), ops))
  {
    assert SlotsOf(map[], 0) == {};
    assert NewIds(map[]) == {} && TriedIds(map[]) == {};
    RunInv(Empty(key), ops);
  }
}
