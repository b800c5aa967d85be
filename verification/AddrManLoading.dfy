/** Unserialize on streams of any version and bucket count: what it makes of them is consistent. */
module AddrManLoading {
  import opened AddrMan
  import opened AddrManInvariant
  import opened AddrManStream
  import opened Options
  import RT = AddrManRoundTrip

  /** New entries that no slot refers to. */
  function Loose(m: map<Id, Info>): set<Id> {
    set id | id in m && !m[id].inTried && m[id].refCount == 0
  }

  /** Consistent, but that new entries may still be without a reference. */
  ghost predicate Loadable(s: State) {
    Mid(s, Loose(s.mapInfo), 0)
  }

  lemma LooseIs(s: State, floating: set<Id>, lag: int)
    requires Mid(s, floating, lag)
    ensures floating == Loose(s.mapInfo)
  {
    hide AddrIndex, RandomIndex, NewTable, TriedTable, Times, NewIds, TriedIds;
    forall id ensures id in floating <==> id in Loose(s.mapInfo) { }
  }

  lemma IdsBelow(s: State)
    requires Loadable(s)
    ensures s.idCount !in s.mapInfo
  {
  }

  // ---------------------------------------------------------------- entries

  /** A new entry under the next id. */
  function Enter(s: State, i: Info): State {
    SetInfo(s, s.idCount, i).(idCount := s.idCount + 1, nNew := s.nNew + 1,
                              mapAddr := s.mapAddr[i.service.net := s.idCount],
                              vRandom := s.vRandom + [s.idCount])
  }

  predicate Enterable(s: State, i: Info) {
    && i.service.net !in s.mapAddr && i.randomPos == |s.vRandom|
    && !i.inTried && i.refCount == 0 && i.lastTry == 0 && i.lastSuccess >= 0
  }

  lemma EnterCounts(key: Key, m: map<Id, Info>, id: Id, i: Info, news: map<Slot, Id>, floating: set<Id>)
    requires id !in m && !i.inTried && i.refCount == 0 && i.lastTry == 0 && i.lastSuccess >= 0
    requires NewTable(key, m, news)
    ensures RefCounts(m, news, floating) ==> RefCounts(m[id := i], news, floating + {id})
    ensures Times(m) ==> Times(m[id := i])
    ensures NewIds(m[id := i]) == NewIds(m) + {id} && TriedIds(m[id := i]) == TriedIds(m) && id !in NewIds(m)
  {
    assert SlotsOf(news, id) == {};
  }

  lemma EnterRandom(m: map<Id, Info>, id: Id, i: Info, vRandom: seq<Id>)
    requires RandomIndex(m, vRandom) && id !in m && i.randomPos == |vRandom|
    ensures RandomIndex(m[id := i], vRandom + [id])
  {
  }

  lemma EnterLoads(s: State, i: Info)
    requires Loadable(s) && Enterable(s, i)
    ensures Loadable(Enter(s, i)) && s.idCount in Loose(Enter(s, i).mapInfo)
  {
    hide AddrIndex, RandomIndex, NewTable, TriedTable, RefCounts, Times, NewIds, TriedIds, SlotsOf;
    var id, floating := s.idCount, Loose(s.mapInfo);
    assert id !in s.mapInfo;
    AddTables(s.key, s.mapInfo, id, i, s.mapAddr, s.news, s.tried);
    EnterCounts(s.key, s.mapInfo, id, i, s.news, floating);
    EnterRandom(s.mapInfo, id, i, s.vRandom);
    assert Loose(Enter(s, i).mapInfo) == floating + {id};
    hide Loose;
  }

  /** An entry of the new table as it is read. */
  function Fresh(r: Record, place: int): Info {
    Overwritten(NO_INFO, r).(randomPos := place)
  }

  /** While n new entries have been read, the counters are still those of the header. */
  function Partial(s: State, n: int): State {
    s.(idCount := n, nNew := n, nTried := 0)
  }

  /** Reading an entry is entering it, and placing it where the places on the stream are of no use. */
  lemma WithNewIs(s: State, n: Id, r: Record, reuse: bool)
    requires n !in s.mapInfo
    ensures var i := Fresh(r, |s.vRandom|);
            var e, home := Enter(Partial(s, n), i), HomeSlot(s.key, i);
            && n in e.mapInfo && e.mapInfo[n] == i && e.news == s.news && e.key == s.key
            && Partial(WithNew(s, n, r, reuse), n + 1) == if reuse || home in s.news then e else Placed(e, home, n)
  {
    hide HomeSlot;
    assert HomeSlot(s.key, Fresh(r, |s.vRandom|)) ==
        HomeSlot(s.key, Overwritten(NO_INFO, r).(randomPos := |s.vRandom|));
  }

  lemma WithNewFrame(s: State, n: Id, r: Record, reuse: bool)
    requires n !in s.mapInfo
    ensures var t := WithNew(s, n, r, reuse);
            && t.mapAddr.Keys == s.mapAddr.Keys + {r.service.net}
            && t.nNew == s.nNew && t.nTried == s.nTried
            && n in t.mapInfo && !t.mapInfo[n].inTried
            && (forall k :: k in s.mapInfo ==> k in t.mapInfo && t.mapInfo[k].inTried == s.mapInfo[k].inTried)
  {
    hide HomeSlot;
  }

  lemma WithNewLoads(s: State, n: Id, r: Record, reuse: bool)
    requires Loadable(Partial(s, n)) && n !in s.mapInfo && r.service.net !in s.mapAddr && r.lastSuccess >= 0
    ensures Loadable(Partial(WithNew(s, n, r, reuse), n + 1))
  {
    hide Loadable, WithNew, Enter, HomeSlot, Loose, Placed;
    var i := Fresh(r, |s.vRandom|);
    WithNewIs(s, n, r, reuse);
    EnterLoads(Partial(s, n), i);
    HomeInRange(s.key, i);
    if !reuse && HomeSlot(s.key, i) !in s.news {
      PlacedLoads(Enter(Partial(s, n), i), HomeSlot(s.key, i), n);
    }
  }

  lemma HomeInRange(key: Key, i: Info)
    ensures var home := HomeSlot(key, i); 0 <= home.0 < NEW_BUCKET_COUNT && home == NewSlot(key, i.service, home.0)
  {
  }

  /** An entry gets one more reference. */
  lemma PlacedLoads(s: State, sl: Slot, id: Id)
    requires Loadable(s) && id in s.mapInfo && !s.mapInfo[id].inTried && sl !in s.news
    requires s.mapInfo[id].refCount < NEW_BUCKETS_PER_ADDRESS
    requires 0 <= sl.0 < NEW_BUCKET_COUNT && sl == NewSlot(s.key, s.mapInfo[id].service, sl.0)
    ensures Loadable(Placed(s, sl, id))
  {
    PlacedMid(s, sl, id, Loose(s.mapInfo), 0);
    LooseIs(Placed(s, sl, id), Loose(s.mapInfo) - {id}, 0);
  }

  // ---------------------------------------------------------------- tried entries

  /** While `left` tried entries are still to be read, their number is too large by that. */
  function Owing(s: State, left: int): State {
    s.(nTried := s.nTried - left)
  }

  lemma WithTriedFrame(s: State, r: Record)
    requires s.idCount !in s.mapInfo
    ensures var t := WithTried(s, r);
            && t.mapAddr.Keys <= s.mapAddr.Keys + {r.service.net}
            && t.nNew == s.nNew && t.idCount >= s.idCount
            && (forall k :: k in s.mapInfo ==> k in t.mapInfo && t.mapInfo[k] == s.mapInfo[k])
  {
    hide TriedSlot;
  }

  /** Moving a new entry without references to the tried table. */
  function Promoted(e: State, id: Id, sl: Slot): State
    requires id in e.mapInfo
  {
    SetInfo(e, id, e.mapInfo[id].(inTried := true)).(tried := e.tried[sl := id], nTried := e.nTried + 1,
                                                    nNew := e.nNew - 1)
  }

  lemma WithTriedIs(s: State, r: Record, left: int)
    requires s.idCount !in s.mapInfo
    ensures var o, sl, i := Owing(s, left), TriedSlot(s.key, r.service), Fresh(r, |s.vRandom|);
            var e := Enter(o, i);
            && s.idCount in e.mapInfo && e.mapInfo[s.idCount] == i && e.tried == s.tried && e.key == s.key
            && i.service == r.service && i.lastSuccess == r.lastSuccess
            && Owing(WithTried(s, r), left - 1) == if sl in s.tried then o else Promoted(e, s.idCount, sl)
  {
    hide TriedSlot;
  }

  lemma WithTriedLoads(s: State, r: Record, left: int)
    requires Loadable(Owing(s, left)) && s.idCount !in s.mapInfo && r.service.net !in s.mapAddr && r.lastSuccess > 0
    ensures Loadable(Owing(WithTried(s, r), left - 1))
  {
    hide Loadable, WithTried, Enter, TriedSlot, Loose, Promoted;
    WithTriedIs(s, r, left);
    var o, i := Owing(s, left), Fresh(r, |s.vRandom|);
    if TriedSlot(s.key, r.service) !in s.tried {
      EnterLoads(o, i);
      PromotedLoads(Enter(o, i), s.idCount);
    }
  }

  lemma PromotedLoads(e: State, id: Id)
    requires Loadable(e) && id in e.mapInfo && id in Loose(e.mapInfo) && e.mapInfo[id].lastSuccess > 0
    requires TriedSlot(e.key, e.mapInfo[id].service) !in e.tried
    ensures Loadable(Promoted(e, id, TriedSlot(e.key, e.mapInfo[id].service)))
  {
    hide Mid, TriedSlot, Loose;
    var sl := TriedSlot(e.key, e.mapInfo[id].service);
    EnterTriedMid(e, id, Loose(e.mapInfo), 0);
    var t := SetInfo(e, id, e.mapInfo[id].(inTried := true)).(tried := e.tried[sl := id], nTried := e.nTried + 1);
    UncountedLoads(t, Loose(e.mapInfo) - {id});
    assert t.(nNew := t.nNew - 1) == Promoted(e, id, sl);
  }

  lemma UncountedLoads(s: State, floating: set<Id>)
    requires Mid(s, floating, -1)
    ensures Loadable(s.(nNew := s.nNew - 1))
  {
    LooseIs(s, floating, -1);
    hide AddrIndex, RandomIndex, NewTable, TriedTable, RefCounts, Times, NewIds, TriedIds, Loose;
  }

  // ---------------------------------------------------------------- streams

  /** The part of the stream that has the entries. */
  predicate Clean(st: seq<Token>, from: nat, news: nat) {
    && (forall i :: 0 <= i < |st| && st[i].Entry? ==>
          st[i].rec.lastSuccess >= 0 && (from + i >= news ==> st[i].rec.lastSuccess > 0))
    && (forall i, j :: 0 <= i < j < |st| && st[i].Entry? && st[j].Entry? ==>
          st[i].rec.service.net != st[j].rec.service.net)
  }

  /** None of the addresses to come is there already. */
  predicate Unheard(st: seq<Token>, s: State) {
    forall i :: 0 <= i < |st| && st[i].Entry? ==> st[i].rec.service.net !in s.mapAddr
  }

  lemma CleanNext(st: seq<Token>, from: nat, news: nat)
    requires Clean(st, from, news) && st != []
    ensures Clean(st[1..], from + 1, news)
  {
    var t := st[1..];
    forall i | 0 <= i < |t| && t[i].Entry?
      ensures t[i].rec.lastSuccess >= 0 && (from + 1 + i >= news ==> t[i].rec.lastSuccess > 0)
    {
      assert t[i] == st[i + 1];
    }
    forall i, j | 0 <= i < j < |t| && t[i].Entry? && t[j].Entry? ensures t[i].rec.service.net != t[j].rec.service.net {
      assert t[i] == st[i + 1] && t[j] == st[j + 1];
    }
  }

  lemma UnheardNext(st: seq<Token>, s: State, t: State, from: nat, news: nat)
    requires Clean(st, from, news) && Unheard(st, s) && st != [] && st[0].Entry?
    requires t.mapAddr.Keys <= s.mapAddr.Keys + {st[0].rec.service.net}
    ensures Unheard(st[1..], t)
  {
    var u := st[1..];
    forall i | 0 <= i < |u| && u[i].Entry? ensures u[i].rec.service.net !in t.mapAddr {
      assert u[i] == st[i + 1];
    }
  }

  /** Entries 0 to n - 1 are the new ones. */
  ghost predicate NewFirst(s: State, n: int) {
    forall k :: 0 <= k < n ==> k in s.mapInfo && !s.mapInfo[k].inTried
  }

  lemma {:induction false} LoadNewLoads(s: State, st: seq<Token>, n: nat, reuse: bool)
    requires n <= s.nNew && Loadable(Partial(s, n)) && NewFirst(s, n) && Clean(st, n, s.nNew) && Unheard(st, s)
    ensures var r := LoadNew(s, st, n, reuse);
            r.Success? ==>
              && Loadable(Partial(r.value, s.nNew)) && NewFirst(r.value, s.nNew)
              && r.value.nNew == s.nNew && r.value.nTried == s.nTried
              && Clean(r.rest, s.nNew, s.nNew) && Unheard(r.rest, r.value)
    decreases s.nNew - n
  {
    if n < s.nNew && st != [] && st[0].Entry? {
      var r := st[0].rec;
      var t := WithNew(s, n, r, reuse);
      LoadNewNext(s, st, n, reuse);
      IdsBelow(Partial(s, n));
      hide *;
      FirstIsNew(st, s, n, s.nNew);
      WithNewLoads(s, n, r, reuse);
      WithNewFrame(s, n, r, reuse);
      NewFirstNext(s, t, n);
      CleanNext(st, n, s.nNew);
      UnheardNext(st, s, t, n, s.nNew);
      LoadNewLoads(t, st[1..], n + 1, reuse);
    } else {
      hide Loadable, Clean, Unheard;
      assert n < s.nNew ==> LoadNew(s, st, n, reuse).Failure?;
    }
  }

  lemma LoadNewNext(s: State, st: seq<Token>, n: nat, reuse: bool)
    requires n < s.nNew && st != [] && st[0].Entry?
    ensures LoadNew(s, st, n, reuse) == LoadNew(WithNew(s, n, st[0].rec, reuse), st[1..], n + 1, reuse)
  {
  }

  lemma NewFirstNext(s: State, t: State, n: nat)
    requires NewFirst(s, n) && n in t.mapInfo && !t.mapInfo[n].inTried
    requires forall k :: k in s.mapInfo ==> k in t.mapInfo && t.mapInfo[k].inTried == s.mapInfo[k].inTried
    ensures NewFirst(t, n + 1)
  {
  }

  lemma FirstIsNew(st: seq<Token>, s: State, from: nat, news: nat)
    requires Clean(st, from, news) && Unheard(st, s) && st != [] && st[0].Entry?
    ensures st[0].rec.lastSuccess >= 0 && st[0].rec.service.net !in s.mapAddr
    ensures from >= news ==> st[0].rec.lastSuccess > 0
  {
  }

  /** `count` tried entries are to be read from here. */
  ghost predicate TriedReady(s: State, st: seq<Token>, count: nat, from: nat) {
    && 0 <= s.nNew <= from && Loadable(Owing(s, count)) && NewFirst(s, s.nNew)
    && Clean(st, from, s.nNew) && Unheard(st, s)
  }

  lemma TriedReadyNext(s: State, st: seq<Token>, count: nat, from: nat)
    requires TriedReady(s, st, count, from) && count > 0 && st != [] && st[0].Entry?
    ensures var t := WithTried(s, st[0].rec); TriedReady(t, st[1..], count - 1, from + 1) && t.nNew == s.nNew
  {
    var r := st[0].rec;
    var t := WithTried(s, r);
    IdsBelow(Owing(s, count));
    hide Loadable, NewFirst, Clean, Unheard, WithTried;
    FirstIsNew(st, s, from, s.nNew);
    WithTriedLoads(s, r, count);
    WithTriedFrame(s, r);
    NewFirstSame(s, t, s.nNew);
    CleanNext(st, from, s.nNew);
    UnheardNext(st, s, t, from, s.nNew);
  }

  lemma TriedReadyEnd(s: State, st: seq<Token>, from: nat)
    requires TriedReady(s, st, 0, from)
    ensures Loadable(s) && NewFirst(s, s.nNew)
  {
    assert Owing(s, 0) == s;
    hide Mid;
  }

  lemma {:induction false} LoadTriedLoads(s: State, st: seq<Token>, count: nat, from: nat)
    requires TriedReady(s, st, count, from)
    ensures var r := LoadTried(s, st, count);
            r.Success? ==> Loadable(r.value) && NewFirst(r.value, s.nNew) && r.value.nNew == s.nNew
    decreases count
  {
    hide *;
    if count == 0 {
      LoadTriedDone(s, st, count);
      TriedReadyEnd(s, st, from);
    } else if st != [] && st[0].Entry? {
      LoadTriedNext(s, st, count);
      TriedReadyNext(s, st, count, from);
      LoadTriedLoads(WithTried(s, st[0].rec), st[1..], count - 1, from + 1);
    } else {
      LoadTriedStop(s, st, count);
    }
  }

  lemma LoadTriedDone(s: State, st: seq<Token>, count: int)
    requires count <= 0
    ensures LoadTried(s, st, count) == Success(s, st) && Owing(s, 0) == s
  {
  }

  lemma LoadTriedNext(s: State, st: seq<Token>, count: int)
    requires count > 0 && st != [] && st[0].Entry?
    ensures LoadTried(s, st, count) == LoadTried(WithTried(s, st[0].rec), st[1..], count - 1)
  {
  }

  lemma NewFirstSame(s: State, t: State, n: int)
    requires NewFirst(s, n) && forall k :: k in s.mapInfo ==> k in t.mapInfo && t.mapInfo[k] == s.mapInfo[k]
    ensures NewFirst(t, n)
  {
  }

  lemma LoadTriedStop(s: State, st: seq<Token>, count: int)
    requires count > 0 && (st == [] || !st[0].Entry?)
    ensures LoadTried(s, st, count).Failure?
  {
  }

  // ---------------------------------------------------------------- places

  lemma WithPlaceLoads(s: State, b: int, index: int, reuse: bool)
    requires Loadable(s) && NewFirst(s, s.nNew) && (reuse ==> 0 <= b < NEW_BUCKET_COUNT)
    ensures var t := WithPlace(s, b, index, reuse); Loadable(t) && NewFirst(t, t.nNew) && t.nNew == s.nNew
  {
    if 0 <= index < s.nNew && index in s.mapInfo {
      var i := s.mapInfo[index];
      var sl := NewSlot(s.key, i.service, b);
      if reuse && sl !in s.news && i.refCount < NEW_BUCKETS_PER_ADDRESS {
        hide Mid;
        PlacedLoads(s, sl, index);
        assert WithPlace(s, b, index, reuse) == Placed(s, sl, index);
      }
    }
  }

  lemma {:induction false} LoadBucketLoads(s: State, st: seq<Token>, b: int, size: int, reuse: bool)
    requires Loadable(s) && NewFirst(s, s.nNew) && (reuse ==> 0 <= b < NEW_BUCKET_COUNT)
    ensures var r := LoadBucket(s, st, b, size, reuse);
            r.Success? ==> Loadable(r.value) && NewFirst(r.value, r.value.nNew) && r.value.nNew == s.nNew
    decreases |st|
  {
    if size > 0 && st != [] && st[0].Num? {
      hide Loadable, NewFirst, WithPlace;
      WithPlaceLoads(s, b, st[0].n, reuse);
      LoadBucketLoads(WithPlace(s, b, st[0].n, reuse), st[1..], b, size - 1, reuse);
    }
  }

  lemma {:induction false} LoadBucketsLoads(s: State, st: seq<Token>, b: nat, buckets: int, reuse: bool)
    requires Loadable(s) && NewFirst(s, s.nNew) && (reuse ==> buckets == NEW_BUCKET_COUNT)
    ensures var r := LoadBuckets(s, st, b, buckets, reuse);
            r.Success? ==> Loadable(r.value) && r.value.nNew == s.nNew
    decreases |st|
  {
    if b < buckets && st != [] && st[0].Num? {
      hide Loadable, NewFirst, LoadBucket;
      LoadBucketLoads(s, st[1..], b, st[0].n, reuse);
      var r := LoadBucket(s, st[1..], b, st[0].n, reuse);
      if r.Success? {
        LoadBucketsLoads(r.value, r.rest, b + 1, buckets, reuse);
      }
    }
  }

  // ---------------------------------------------------------------- pruning

  /** Pruning meets no assert, and leaves only entries that have a reference. */
  lemma {:induction false} PruneLoads(s: State, ids: seq<Id>)
    requires Loadable(s) && forall id :: id in Loose(s.mapInfo) ==> id in ids
    ensures Prune(s, ids).Some? && Inv(Prune(s, ids).value)
    decreases |ids|
  {
    if ids == [] {
      hide Mid;
      assert forall id :: id !in Loose(s.mapInfo);
      assert Loose(s.mapInfo) == {};
    } else {
      var id := ids[0];
      assert ids == [id] + ids[1..];
      if id in Loose(s.mapInfo) {
        DeleteMid(s, id, Loose(s.mapInfo), 0);
        var t := Delete(s, id);
        LooseIs(t, Loose(s.mapInfo) - {id}, 0);
        hide Mid, Deletable, Delete;
        PruneLoads(t, ids[1..]);
      } else {
        hide Mid;
        PruneLoads(s, ids[1..]);
      }
    }
  }

  // ---------------------------------------------------------------- the whole stream

  /** The counters are not negative, no address comes twice, and tried entries had a success. */
  ghost predicate Healthy(st: seq<Token>) {
    HeaderOk(st) && 0 <= st[3].n && 0 <= st[4].n && Clean(st[6..], 0, st[3].n)
  }

  /** A healthy stream of any version, for any number of buckets, is read into a manager that is consistent once
      entries without a reference are dropped. */
  lemma UnprunedLoads(st: seq<Token>, key0: Key)
    requires Healthy(st) && Complete(st, key0)
    ensures Loadable(Unpruned(st, key0))
  {
    var n, reuse := st[3].n, Reuse(st);
    assert Clean(st[6..], 0, n);
    UnprunedIs(st, key0);
    hide *;
    BegunLoads(st, key0);
    LoadNewLoads(Begun(st, key0), st[6..], 0, reuse);
    var r1 := LoadNew(Begun(st, key0), st[6..], 0, reuse);
    var t1 := r1.value.(idCount := n);
    TriedStarts(r1.value, r1.rest, n, st[4].n);
    LoadTriedLoads(t1, r1.rest, st[4].n, n);
    var r2 := LoadTried(t1, r1.rest, st[4].n);
    LoadBucketsLoads(r2.value, r2.rest, 0, Buckets(st), reuse);
  }

  lemma UnprunedIs(st: seq<Token>, key0: Key)
    requires HeaderOk(st) && Complete(st, key0)
    ensures var r1 := LoadNew(Begun(st, key0), st[6..], 0, Reuse(st));
            r1.Success? &&
            var r2 := LoadTried(r1.value.(idCount := st[3].n), r1.rest, st[4].n);
            r2.Success? &&
            var r3 := LoadBuckets(r2.value, r2.rest, 0, Buckets(st), Reuse(st));
            r3.Success? && Unpruned(st, key0) == r3.value
  {
    hide LoadNew, LoadTried, LoadBuckets;
  }

  /** No assert fails on the way: a healthy stream gives a consistent manager, or ends too early. */
  lemma HealthyLoads(st: seq<Token>, key0: Key)
    requires Healthy(st)
    ensures Unserialize(Empty(key0), st).Some? <==> Complete(st, key0)
    ensures Unserialize(Empty(key0), st).Some? ==> Inv(Unserialize(Empty(key0), st).value)
  {
    UnserializeIs(st, key0);
    hide *;
    if Complete(st, key0) {
      UnprunedLoads(st, key0);
      var s := Unpruned(st, key0);
      LooseIsKnown(s);
      PruneLoads(s, Sorted(s.mapInfo.Keys));
    }
  }

  lemma LooseIsKnown(s: State)
    ensures forall id :: id in Loose(s.mapInfo) ==> id in Sorted(s.mapInfo.Keys)
  {
  }

  lemma TriedStarts(s: State, st: seq<Token>, n: int, count: nat)
    requires Loadable(Partial(s, n)) && NewFirst(s, n) && 0 <= n == s.nNew && s.nTried == count && Clean(st, n, n)
    requires Unheard(st, s)
    ensures TriedReady(s.(idCount := n), st, count, n)
  {
    hide Mid, Clean;
    assert Partial(s, n) == Owing(s.(idCount := n), count);
  }

  lemma UnserializeIs(st: seq<Token>, key0: Key)
    requires HeaderOk(st)
    ensures Unserialize(Empty(key0), st) ==
            if Complete(st, key0) then Prune(Unpruned(st, key0), Sorted(Unpruned(st, key0).mapInfo.Keys)) else None
  {
    hide LoadNew, LoadTried, LoadBuckets, Prune, Sorted;
  }

  lemma ForeignHealthy(s: State, version: nat, buckets: int)
    requires Inv(s) && Serializable(s)
    ensures Healthy(Serialize(s)[0 := Byte(version)][5 := Num(buckets)])
  {
    RT.SizesFit(s);
    BodyClean(s);
    CountersNatural(s);
    SerializeIs(s);
    hide Body, Clean, Inv, Serializable, Serialize, Header;
    HeaderChanged(s, Body(s), version, buckets);
  }

  lemma SerializeIs(s: State)
    requires Serializable(s)
    ensures Serialize(s) == Header(s) + Body(s) && |Header(s)| == 6
  {
  }

  lemma HeaderChanged(s: State, body: seq<Token>, version: nat, buckets: int)
    requires 0 <= s.nNew <= NEW_BUCKET_COUNT * BUCKET_SIZE && 0 <= s.nTried <= TRIED_BUCKET_COUNT * BUCKET_SIZE
    ensures var st := (Header(s) + body)[0 := Byte(version)][5 := Num(buckets)];
            HeaderOk(st) && st[3].n == s.nNew && st[4].n == s.nTried && st[6..] == body
  {
    var head := [Byte(version), Byte(32), Secret(s.key), Num(s.nNew), Num(s.nTried), Num(buckets)];
    assert (Header(s) + body)[0 := Byte(version)][5 := Num(buckets)] == head + body;
    assert (head + body)[6..] == body;
  }

  lemma CountersNatural(s: State)
    requires Inv(s)
    ensures s.nNew >= 0 && s.nTried >= 0
  {
  }

  lemma BodyClean(s: State)
    requires Inv(s) && Serializable(s)
    ensures Clean(Body(s), 0, s.nNew)
  {
    RT.OrderFacts(s);
    BodySuccesses(s);
    BodyDistinct(s);
    hide Body, Inv, Serializable, NewOrder, TriedOrder;
  }

  lemma BodySuccesses(s: State)
    requires Inv(s) && Serializable(s)
    ensures var body := Body(s);
            forall i :: 0 <= i < |body| && body[i].Entry? ==>
              body[i].rec.lastSuccess >= 0 && (i >= |NewOrder(s)| ==> body[i].rec.lastSuccess > 0)
  {
    hide Body, Inv, Serializable, NewOrder;
    var body := Body(s);
    forall i | 0 <= i < |body| && body[i].Entry?
      ensures body[i].rec.lastSuccess >= 0 && (i >= |NewOrder(s)| ==> body[i].rec.lastSuccess > 0)
    {
      EntrySound(s, i);
    }
  }

  lemma BodyDistinct(s: State)
    requires Inv(s) && Serializable(s)
    ensures var body := Body(s);
            forall i, j :: 0 <= i < j < |body| && body[i].Entry? && body[j].Entry? ==>
              body[i].rec.service.net != body[j].rec.service.net
  {
    hide Body, Inv, Serializable;
    var body := Body(s);
    forall i, j | 0 <= i < j < |body| && body[i].Entry? && body[j].Entry?
      ensures body[i].rec.service.net != body[j].rec.service.net
    {
      EntriesDiffer(s, i, j);
    }
  }

  lemma EntrySound(s: State, i: nat)
    requires Inv(s) && Serializable(s) && i < |Body(s)| && Body(s)[i].Entry?
    ensures Body(s)[i].rec.lastSuccess >= 0 && (i >= |NewOrder(s)| ==> Body(s)[i].rec.lastSuccess > 0)
  {
    assert Mid(s, {}, 0);
    hide *;
    BodyAt(s, i);
    RT.OrderKinds(s, i);
    RecordIs(s.mapInfo[RT.Order(s)[i]]);
    EntryFacts(s, {}, 0, RT.Order(s)[i]);
  }

  lemma RecordIs(i: Info)
    ensures ToRecord(i).lastSuccess == i.lastSuccess && ToRecord(i).service == i.service
  {
  }

  lemma EntriesDiffer(s: State, i: nat, j: nat)
    requires Inv(s) && Serializable(s) && i < j < |Body(s)| && Body(s)[i].Entry? && Body(s)[j].Entry?
    ensures Body(s)[i].rec.service.net != Body(s)[j].rec.service.net
  {
    hide *;
    BodyAt(s, i);
    BodyAt(s, j);
    var o := RT.Order(s);
    RecordIs(s.mapInfo[o[i]]);
    RecordIs(s.mapInfo[o[j]]);
    RT.OrderDistinct(s, i, j);
    RT.NetsDiffer(s, o[i], o[j]);
  }

  /** The entries come first, in order. */
  lemma BodyAt(s: State, i: nat)
    requires Serializable(s) && i < |Body(s)| && Body(s)[i].Entry?
    ensures i < |RT.Order(s)| && RT.Order(s)[i] in s.mapInfo && Body(s)[i] == Entry(ToRecord(s.mapInfo[RT.Order(s)[i]]))
  {
    hide *;
    BodyRecord(s, i);
    OrderAt(s, i);
  }

  ghost predicate AllIn(m: map<Id, Info>, x: seq<Id>) {
    forall k :: 0 <= k < |x| ==> x[k] in m
  }

  ghost predicate PlacesIn(s: State, x: seq<Id>) {
    forall sl :: sl in s.news ==> s.news[sl] in x
  }

  lemma OrdersIn(s: State)
    requires Serializable(s)
    ensures AllIn(s.mapInfo, NewOrder(s)) && AllIn(s.mapInfo, TriedOrder(s)) && PlacesIn(s, NewOrder(s))
  {
    hide NewOrder, TriedOrder;
  }

  /** The body of a stream as a function of the orders. */
  ghost predicate IsBody(s: State, x: seq<Id>, y: seq<Id>, body: seq<Token>)
    requires AllIn(s.mapInfo, x) && AllIn(s.mapInfo, y) && PlacesIn(s, x)
  {
    body == Records(s.mapInfo, x) + (Records(s.mapInfo, y) + BucketsFrom(s, x, 0))
  }

  lemma BodyIs(s: State)
    requires Serializable(s) && AllIn(s.mapInfo, NewOrder(s)) && AllIn(s.mapInfo, TriedOrder(s))
    requires PlacesIn(s, NewOrder(s))
    ensures IsBody(s, NewOrder(s), TriedOrder(s), Body(s))
  {
    hide NewOrder, TriedOrder, AllIn, Records, BucketsFrom;
  }

  lemma BodyRecord(s: State, i: nat)
    requires Serializable(s) && i < |Body(s)| && Body(s)[i].Entry?
    ensures i < |NewOrder(s)| + |TriedOrder(s)|
    ensures var x, y := NewOrder(s), TriedOrder(s);
            Body(s)[i] == Entry(ToRecord(s.mapInfo[if i < |x| then x[i] else y[i - |x|]]))
  {
    hide *;
    OrdersIn(s);
    BodyIs(s);
    RecordAt(s, NewOrder(s), TriedOrder(s), Body(s), i);
  }

  lemma RecordAt(s: State, x: seq<Id>, y: seq<Id>, body: seq<Token>, i: nat)
    requires AllIn(s.mapInfo, x) && AllIn(s.mapInfo, y) && PlacesIn(s, x) && IsBody(s, x, y, body)
    requires i < |body| && body[i].Entry?
    ensures i < |x| + |y|
    ensures var id := if i < |x| then x[i] else y[i - |x|]; id in s.mapInfo && body[i] == Entry(ToRecord(s.mapInfo[id]))
  {
    BucketsAreNumbers(s, x, 0);
    hide BucketsFrom, Records, ToRecord;
    InThree(s.mapInfo, x, y, BucketsFrom(s, x, 0), i);
  }

  lemma OrderAt(s: State, i: nat)
    ensures |RT.Order(s)| == |NewOrder(s)| + |TriedOrder(s)|
    ensures i < |NewOrder(s)| ==> RT.Order(s)[i] == NewOrder(s)[i]
    ensures |NewOrder(s)| <= i < |RT.Order(s)| ==> RT.Order(s)[i] == TriedOrder(s)[i - |NewOrder(s)|]
  {
    hide NewOrder, TriedOrder;
  }

  lemma InThree(m: map<Id, Info>, x: seq<Id>, y: seq<Id>, c: seq<Token>, i: nat)
    requires (forall k :: 0 <= k < |x| ==> x[k] in m) && (forall k :: 0 <= k < |y| ==> y[k] in m) && Numbers(c)
    requires var all := Records(m, x) + (Records(m, y) + c); i < |all| && all[i].Entry?
    ensures i < |x| + |y|
    ensures (Records(m, x) + (Records(m, y) + c))[i] == Entry(ToRecord(m[if i < |x| then x[i] else y[i - |x|]]))
  {
    hide Records, ToRecord;
  }

  predicate Numbers(v: seq<Token>) {
    forall i :: 0 <= i < |v| ==> v[i].Num?
  }

  lemma NoNumbers()
    ensures Numbers([])
  {
  }

  lemma OneNumber(n: int)
    ensures Numbers([Num(n)])
  {
  }

  lemma NumbersJoin(v: seq<Token>, w: seq<Token>)
    requires Numbers(v) && Numbers(w)
    ensures Numbers(v + w)
  {
  }

  lemma {:induction false} BucketsAreNumbers(s: State, order: seq<Id>, b: nat)
    requires b <= NEW_BUCKET_COUNT && forall sl :: sl in s.news ==> s.news[sl] in order
    ensures Numbers(BucketsFrom(s, order, b))
    decreases NEW_BUCKET_COUNT - b
  {
    hide Numbers, BucketTail, IndexOf;
    if b == NEW_BUCKET_COUNT {
      NoNumbers();
    } else {
      PlacesAreNumbers(s, order, b, 0);
      BucketsAreNumbers(s, order, b + 1);
      var t := BucketTail(s, order, b, 0);
      OneNumber(|t|);
      NumbersJoin([Num(|t|)], t);
      NumbersJoin([Num(|t|)] + t, BucketsFrom(s, order, b + 1));
    }
  }

  lemma {:induction false} PlacesAreNumbers(s: State, order: seq<Id>, b: int, p: nat)
    requires p <= BUCKET_SIZE && forall sl :: sl in s.news ==> s.news[sl] in order
    ensures Numbers(BucketTail(s, order, b, p))
    decreases BUCKET_SIZE - p
  {
    if p < BUCKET_SIZE {
      PlacesAreNumbers(s, order, b, p + 1);
    }
  }

  function Buckets(st: seq<Token>): int
    requires HeaderOk(st)
  {
    if st[0].b != 0 then FlipBit30(st[5].n) else st[5].n
  }

  predicate Reuse(st: seq<Token>)
    requires HeaderOk(st)
  {
    st[0].b == 1 && Buckets(st) == NEW_BUCKET_COUNT
  }

  /** The manager when the header has been read. */
  function Begun(st: seq<Token>, key0: Key): State
    requires HeaderOk(st)
  {
    Cleared(Empty(key0)).(key := st[2].key, nNew := st[3].n, nTried := st[4].n)
  }

  /** Every value that is read is there and of the right kind. */
  ghost predicate Complete(st: seq<Token>, key0: Key)
    requires HeaderOk(st)
  {
    var r1 := LoadNew(Begun(st, key0), st[6..], 0, Reuse(st));
    r1.Success? &&
    var r2 := LoadTried(r1.value.(idCount := st[3].n), r1.rest, st[4].n);
    r2.Success? && LoadBuckets(r2.value, r2.rest, 0, Buckets(st), Reuse(st)).Success?
  }

  /** The manager when everything has been read. */
  ghost function Unpruned(st: seq<Token>, key0: Key): State
    requires HeaderOk(st) && Complete(st, key0)
  {
    var r1 := LoadNew(Begun(st, key0), st[6..], 0, Reuse(st));
    var r2 := LoadTried(r1.value.(idCount := st[3].n), r1.rest, st[4].n);
    LoadBuckets(r2.value, r2.rest, 0, Buckets(st), Reuse(st)).value
  }

  lemma BegunLoads(st: seq<Token>, key0: Key)
    requires HeaderOk(st)
    ensures var s := Begun(st, key0); Loadable(Partial(s, 0)) && NewFirst(s, 0) && Unheard(st[6..], s)
  {
    assert Loose(Begun(st, key0).mapInfo) == {};
    assert NewIds(Begun(st, key0).mapInfo) == {} && TriedIds(Begun(st, key0).mapInfo) == {};
  }
}
