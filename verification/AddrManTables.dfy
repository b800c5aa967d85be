/** CAddrMan as an object: the bucket tables are two-dimensional arrays updated in place, and every
    method is proved to do what the value model's function does. */
module AddrManTables {
  import Powers
  import opened AddrMan
  import opened AddrManInvariant

  const FREE := -1

  /** The slots of a table that are not free. */
  ghost function Table(t: array2<int>): map<Slot, Id>
    reads t
  {
    map b, p | 0 <= b < t.Length0 && 0 <= p < t.Length1 && t[b, p] != FREE :: (b, p) := t[b, p]
  }

  method SetSlot(t: array2<int>, b: int, p: int, id: Id)
    requires 0 <= b < t.Length0 && 0 <= p < t.Length1
    modifies t
    ensures Table(t) == if id == FREE then old(Table(t)) - {(b, p)} else old(Table(t))[(b, p) := id]
  {
    t[b, p] := id;
    ghost var want := if id == FREE then old(Table(t)) - {(b, p)} else old(Table(t))[(b, p) := id];
    assert forall c, q :: (c, q) in Table(t) <==> (c, q) in want;
    assert Table(t) == want;
  }

  lemma SlotAt(t: array2<int>, b: int, p: int)
    requires 0 <= b < t.Length0 && 0 <= p < t.Length1
    ensures (b, p) in Table(t) <==> t[b, p] != FREE
    ensures (b, p) in Table(t) ==> Table(t)[(b, p)] == t[b, p]
  {
  }

  class AddressManager {
    var nIdCount: int
    var mapInfo: map<Id, Info>
    var mapAddr: map<NetAddr, Id>
    var vRandom: seq<Id>
    var nTried: int
    const vvTried: array2<int>
    var nNew: int
    const vvNew: array2<int>
    var nLastGood: int
    const nKey: Key

    ghost predicate Valid() {
      && vvTried.Length0 == TRIED_BUCKET_COUNT && vvTried.Length1 == BUCKET_SIZE
      && vvNew.Length0 == NEW_BUCKET_COUNT && vvNew.Length1 == BUCKET_SIZE
      && vvTried != vvNew
    }

    ghost function Value(): State
      reads this, vvTried, vvNew
    {
      State(nIdCount, mapInfo, mapAddr, vRandom, nTried, Table(vvTried), nNew, Table(vvNew), nLastGood, nKey)
    }

    constructor (key: Key)
      ensures Valid() && fresh(vvTried) && fresh(vvNew)
      ensures Value() == Empty(key)
    {
      vvTried := new int[TRIED_BUCKET_COUNT, BUCKET_SIZE]((b, p) => FREE);
      vvNew := new int[NEW_BUCKET_COUNT, BUCKET_SIZE]((b, p) => FREE);
      mapInfo, mapAddr, vRandom := map[], map[], [];
      nIdCount, nTried, nNew, nLastGood, nKey := 0, 0, 0, 1, key;
      new;
      assert Table(vvTried) == map[] && Table(vvNew) == map[];
    }

    method CreateEntry(a: Address, source: NetAddr) returns (id: Id)
      requires Valid()
      modifies this
      ensures id == old(nIdCount) && Value() == Create(old(Value()), a, source)
    {
      hide Table;
      id := nIdCount;
      nIdCount := nIdCount + 1;
      mapInfo := mapInfo[id := Info(a.service, a.services, a.time, source, 0, 0, 0, 0, 0, false, -1)];
      mapAddr := mapAddr[a.service.net := id];
      mapInfo := mapInfo[id := mapInfo[id].(randomPos := |vRandom|)];
      vRandom := vRandom + [id];
    }

    method SwapEntries(p: nat, q: nat)
      requires Valid()
      requires p == q || (p < |vRandom| && q < |vRandom| && vRandom[p] in mapInfo && vRandom[q] in mapInfo)
      modifies this
      ensures Value() == SwapRandom(old(Value()), p, q)
    {
      if p == q {
        return;
      }
      var id1, id2 := vRandom[p], vRandom[q];
      mapInfo := mapInfo[id1 := mapInfo[id1].(randomPos := q)];
      mapInfo := mapInfo[id2 := mapInfo[id2].(randomPos := p)];
      vRandom := vRandom[p := id2];
      vRandom := vRandom[q := id1];
    }

    method DeleteEntry(id: Id)
      requires Valid() && Deletable(Value(), id)
      modifies this
      ensures Value() == Delete(old(Value()), id)
    {
      hide SwapRandom, Table;
      SwapEntries(mapInfo[id].randomPos, |vRandom| - 1);
      vRandom := vRandom[..|vRandom| - 1];
      mapAddr := mapAddr - {mapInfo[id].service.net};
      mapInfo := mapInfo - {id};
      nNew := nNew - 1;
    }

    method ClearSlot(b: int, p: int)
      requires Valid() && 0 <= b < NEW_BUCKET_COUNT && 0 <= p < BUCKET_SIZE && Clearable(Value(), (b, p))
      modifies this, vvNew
      ensures Value() == ClearNew(old(Value()), (b, p))
    {
      hide Table;
      SlotAt(vvNew, b, p);
      if vvNew[b, p] != FREE {
        var id := vvNew[b, p];
        mapInfo := mapInfo[id := mapInfo[id].(refCount := mapInfo[id].refCount - 1)];
        SetSlot(vvNew, b, p, FREE);
        assert Value() == Dropped(old(Value()), (b, p));
        if mapInfo[id].refCount == 0 {
          DeleteEntry(id);
        }
      }
    }

    /** One bucket of the loop at the head of MakeTried. */
    method UnlistAt(id: Id, bucket: int)
      requires Valid() && id in mapInfo && id != FREE && 0 <= bucket < NEW_BUCKET_COUNT
      modifies this, vvNew
      ensures Value() == WithoutAt(old(Value()), id, NewSlot(nKey, old(mapInfo)[id].service, bucket))
    {
      hide Table, Position;
      var pos := Position(nKey, true, bucket, mapInfo[id].service);
      SlotAt(vvNew, bucket, pos);
      if vvNew[bucket, pos] == id {
        SetSlot(vvNew, bucket, pos, FREE);
        mapInfo := mapInfo[id := mapInfo[id].(refCount := mapInfo[id].refCount - 1)];
      }
    }

    /** The loop at the head of MakeTried: look for the entry in every new bucket. */
    method Unlist(id: Id)
      requires Valid() && Inv(Value()) && id in mapInfo
      modifies this, vvNew
      ensures Value() == Unlisted(old(Value()), id)
    {
      ghost var s := Value();
      hide Mid, Table, Partly;
      PartlyEnds(s, id);
      for bucket := 0 to NEW_BUCKET_COUNT
        invariant Value() == Partly(s, id, bucket)
      {
        PartlyNext(s, id, bucket);
        UnlistAt(id, bucket);
      }
      nNew := nNew - 1;
    }

    /** Make room in a tried slot: its holder moves back to the new table. */
    method EvictAt(b: int, p: int)
      requires Valid() && 0 <= b < TRIED_BUCKET_COUNT && 0 <= p < BUCKET_SIZE && Evictable(Value(), (b, p))
      modifies this, vvNew, vvTried
      ensures Value() == MakeRoom(old(Value()), (b, p))
    {
      hide Table, Position, NewBucket, ClearNew, Clearable;
      SlotAt(vvTried, b, p);
      if vvTried[b, p] != FREE {
        var id := vvTried[b, p];
        var info := mapInfo[id];
        mapInfo := mapInfo[id := info.(inTried := false)];
        SetSlot(vvTried, b, p, FREE);
        nTried := nTried - 1;
        var ub := NewBucket(nKey, info.service, info.source);
        var up := Position(nKey, true, ub, info.service);
        assert Value() == Evicted(old(Value()), (b, p));
        ClearSlot(ub, up);
        mapInfo := mapInfo[id := mapInfo[id].(refCount := 1)];
        SetSlot(vvNew, ub, up, id);
        nNew := nNew + 1;
      }
    }

    method MakeEntryTried(id: Id)
      requires Valid() && Inv(Value()) && id in mapInfo && !mapInfo[id].inTried && mapInfo[id].lastSuccess > 0
      modifies this, vvNew, vvTried
      ensures Triable(old(Value()), id) && Value() == MakeTried(old(Value()), id)
    {
      hide Table, Mid, TriedBucket, Position, Evictable, MakeRoom;
      MakeTriedInv(Value(), id);
      EntryBasics(Value(), id);
      Unlist(id);
      var kb := TriedBucket(nKey, mapInfo[id].service);
      var kp := Position(nKey, false, kb, mapInfo[id].service);
      EvictAt(kb, kp);
      SetSlot(vvTried, kb, kp, id);
      nTried := nTried + 1;
      mapInfo := mapInfo[id := mapInfo[id].(inTried := true)];
    }

    /** Good_; `rnd` is the bucket at which the search starts. */
    method GoodService(a: Service, time: int, rnd: nat)
      requires Valid() && Inv(Value()) && time > 0
      modifies this, vvNew, vvTried
      ensures GoodOk(old(Value()), a, time) && Inv(Value()) && Value() == Good(old(Value()), a, time)
    {
      hide Table, Mid, MakeTried, Triable, GoodOk, InSomeBucket, HoldsAt, Position;
      GoodInv(Value(), a, time);
      ghost var s := Value();
      nLastGood := time;
      if a.net !in mapAddr || mapAddr[a.net] !in mapInfo {
        return;
      }
      var id := mapAddr[a.net];
      if mapInfo[id].service != a {
        return;
      }
      mapInfo := mapInfo[id := mapInfo[id].(lastSuccess := time)];
      mapInfo := mapInfo[id := mapInfo[id].(lastTry := time)];
      mapInfo := mapInfo[id := mapInfo[id].(attempts := 0)];
      assert Value() == SetInfo(s.(lastGood := time), id, Succeeded(s.mapInfo[id], time));
      if mapInfo[id].inTried {
        return;
      }
      SucceededInv(s, id, time);
      EntryBasics(s, id);
      var bucket := FindBucket(id, rnd);
      assert InSomeBucket(Value(), id) <==> InSomeBucket(s, id) by {
        SameBuckets(s, Value(), id);
      }
      if bucket == -1 {
        return;
      }
      MakeEntryTried(id);
    }

    /** Search the new buckets for an entry, starting anywhere; -1 if none holds it. */
    method FindBucket(id: Id, rnd: nat) returns (bucket: int)
      requires Valid() && id in mapInfo && id != FREE
      ensures bucket == -1 || 0 <= bucket < NEW_BUCKET_COUNT
      ensures bucket == -1 <==> !InSomeBucket(Value(), id)
      ensures bucket != -1 ==> HoldsAt(Value(), id, bucket)
    {
      hide Table, Position;
      for n := 0 to NEW_BUCKET_COUNT
        invariant forall m :: 0 <= m < n ==> !HoldsAt(Value(), id, Probe(m, rnd))
      {
        var b := Probe(n, rnd);
        var p := Position(nKey, true, b, mapInfo[id].service);
        SlotAt(vvNew, b, p);
        if vvNew[b, p] == id {
          assert HoldsAt(Value(), id, b);
          return b;
        }
      }
      forall b | 0 <= b < NEW_BUCKET_COUNT ensures !HoldsAt(Value(), id, b) {
        assert Probe((b - rnd) % NEW_BUCKET_COUNT, rnd) == b;
      }
      bucket := -1;
    }

    /** The tail of Add_: list the entry where its source says, or drop it if it got no slot at all. */
    method ListEntry(id: Id, source: NetAddr, now: int)
      requires Valid() && Listable(Value(), id, source, now) && id != FREE
      modifies this, vvNew
      ensures Value() == List(old(Value()), id, source, now)
    {
      hide Table, Position, NewBucket, ClearNew, Clearable, Deletable, Delete, IsTerrible;
      var ub := NewBucket(nKey, mapInfo[id].service, source);
      var up := Position(nKey, true, ub, mapInfo[id].service);
      SlotAt(vvNew, ub, up);
      if vvNew[ub, up] != id {
        var insert := vvNew[ub, up] == FREE;
        if !insert {
          var existing := mapInfo[vvNew[ub, up]];
          if IsTerrible(existing, now) || (existing.refCount > 1 && mapInfo[id].refCount == 0) {
            insert := true;
          }
        }
        if insert {
          ClearSlot(ub, up);
          mapInfo := mapInfo[id := mapInfo[id].(refCount := mapInfo[id].refCount + 1)];
          SetSlot(vvNew, ub, up, id);
        } else if mapInfo[id].refCount == 0 {
          DeleteEntry(id);
        }
      }
    }

    method AddAddress(a: Address, source: NetAddr, timePenalty: int, routable: bool, now: int,
                      rnd: nat) returns (isNew: bool)
      requires Valid() && Inv(Value())
      modifies this, vvNew
      ensures AddOk(old(Value()), a, source, timePenalty, routable, now, rnd) && Inv(Value())
      ensures (Value(), isNew) == Add(old(Value()), a, source, timePenalty, routable, now, rnd)
    {
      hide Table, Mid, Listable, List;
      ghost var s := Value();
      AddInv(s, a, source, timePenalty, routable, now, rnd);
      if !routable {
        return false;
      }
      isNew := false;
      var penalty := timePenalty;
      if a.service.net == source {
        penalty := 0;
      }
      var id;
      if a.service.net in mapAddr && mapAddr[a.service.net] in mapInfo {
        id := mapAddr[a.service.net];
        EntryBasics(s, id);
        RefreshEntry(id, a, penalty, now);
        var stop := NothingNew(mapInfo[id], a, rnd);
        if stop {
          return false;
        }
      } else {
        NextIdIsNotFree(s);
        id := CreateEntry(a, source);
        mapInfo := mapInfo[id := mapInfo[id].(time := Max(0, mapInfo[id].time - penalty))];
        nNew := nNew + 1;
        isNew := true;
        assert Value() == Announced(s, a, source, Penalty(a, source, timePenalty));
      }
      ListEntry(id, source, now);
    }

    method RefreshEntry(id: Id, a: Address, penalty: int, now: int)
      requires Valid() && id in mapInfo
      modifies this
      ensures Value() == SetInfo(old(Value()), id, Refreshed(old(mapInfo)[id], a, penalty, now))
    {
      hide Table;
      var currentlyOnline := now - a.time < 24 * 60 * 60;
      var updateInterval := if currentlyOnline then 60 * 60 else 24 * 60 * 60;
      if a.time != 0 && (mapInfo[id].time == 0 || mapInfo[id].time < a.time - updateInterval - penalty) {
        mapInfo := mapInfo[id := mapInfo[id].(time := Max(0, a.time - penalty))];
      }
      mapInfo := mapInfo[id := mapInfo[id].(services := mapInfo[id].services + a.services)];
    }

    method AttemptService(a: Service, countFailure: bool, time: int)
      requires Valid() && Inv(Value()) && time >= 0
      modifies this
      ensures Inv(Value()) && Value() == Attempt(old(Value()), a, countFailure, time)
      ensures Known(old(Value()), a) ==>
                var id := old(mapAddr)[a.net];
                var i := old(mapInfo)[id];
                var counts := countFailure && i.lastCountAttempt < old(nLastGood);
                mapInfo == old(mapInfo)[id := i.(lastTry := time,
                                                 lastCountAttempt := if counts then time else i.lastCountAttempt,
                                                 attempts := i.attempts + if counts then 1 else 0)]
    {
      hide Table, Mid;
      AttemptInv(Value(), a, countFailure, time);
      if a.net !in mapAddr || mapAddr[a.net] !in mapInfo {
        return;
      }
      var id := mapAddr[a.net];
      if mapInfo[id].service != a {
        return;
      }
      mapInfo := mapInfo[id := mapInfo[id].(lastTry := time)];
      if countFailure && mapInfo[id].lastCountAttempt < nLastGood {
        mapInfo := mapInfo[id := mapInfo[id].(lastCountAttempt := time)];
        mapInfo := mapInfo[id := mapInfo[id].(attempts := mapInfo[id].attempts + 1)];
      }
      assert Value() == Attempt(old(Value()), a, countFailure, time);
    }

    method ConnectedService(a: Service, time: int)
      requires Valid() && Inv(Value())
      modifies this
      ensures Inv(Value()) && Value() == Connected(old(Value()), a, time)
    {
      hide Table, Mid;
      ConnectedInv(Value(), a, time);
      if a.net in mapAddr && mapAddr[a.net] in mapInfo && mapInfo[mapAddr[a.net]].service == a {
        var id := mapAddr[a.net];
        if time - mapInfo[id].time > 20 * 60 {
          mapInfo := mapInfo[id := mapInfo[id].(time := time)];
        }
      }
    }

    method SetServicesOf(a: Service, services: set<nat>)
      requires Valid() && Inv(Value())
      modifies this
      ensures Inv(Value()) && Value() == SetServices(old(Value()), a, services)
    {
      hide Table, Mid;
      SetServicesInv(Value(), a, services);
      if a.net in mapAddr && mapAddr[a.net] in mapInfo && mapInfo[mapAddr[a.net]].service == a {
        var id := mapAddr[a.net];
        mapInfo := mapInfo[id := mapInfo[id].(services := services)];
      }
    }

    /** GetAddr_; rand(n) is the n-th draw of RandomInt. */
    method GetAddresses(rand: nat -> nat, now: int) returns (vAddr: seq<Address>)
      requires Valid() && Inv(Value())
      modifies this
      ensures Listed(old(Value())) && Inv(Value())
      ensures (Value(), vAddr) == GetAddrFrom(old(Value()), 0, [], GetAddrLimit(|old(vRandom)|), rand, now)
    {
      hide Table, Mid, SwapRandom, Draw, IsTerrible;
      ListedInv(Value());
      GetAddrSpec(Value(), rand, now);
      var nNodes := GETADDR_MAX_PCT * |vRandom| / 100;
      if nNodes > GETADDR_MAX {
        nNodes := GETADDR_MAX;
      }
      vAddr := [];
      var n := 0;
      while n < |vRandom| && |vAddr| < nNodes
        invariant n <= |vRandom| && Inv(Value()) && Listed(Value())
        invariant GetAddrFrom(Value(), n, vAddr, nNodes, rand, now) ==
                    GetAddrFrom(old(Value()), 0, [], nNodes, rand, now)
      {
        var rndPos := Draw(rand, n, |vRandom|);
        SwapRandomMid(Value(), n, rndPos, {}, 0);
        SwapEntries(n, rndPos);
        ListedInv(Value());
        var ai := mapInfo[vRandom[n]];
        if !IsTerrible(ai, now) {
          vAddr := vAddr + [ToAddress(ai)];
        }
        n := n + 1;
      }
    }
  }

  /** The tests of Add_ that end it for an address it already has. */
  method NothingNew(i: Info, a: Address, rnd: nat) returns (stop: bool)
    requires 0 <= i.refCount
    ensures stop <==> NoNews(i, a, rnd)
  {
    if a.time == 0 || (i.time != 0 && a.time <= i.time) {
      return true;
    }
    if i.inTried {
      return true;
    }
    if i.refCount == NEW_BUCKETS_PER_ADDRESS {
      return true;
    }
    var factor := 1;
    for n := 0 to i.refCount
      invariant factor == Powers.Pow2(n)
    {
      factor := factor * 2;
    }
    stop := factor > 1 && rnd % factor != 0;
  }

  lemma NextIdIsNotFree(s: State)
    requires Inv(s)
    ensures s.idCount != FREE
  {
  }

  /** The n-th bucket a search that starts at rnd looks at. */
  function Probe(n: int, rnd: int): (b: int)
    ensures 0 <= b < NEW_BUCKET_COUNT
  {
    (n + rnd) % NEW_BUCKET_COUNT
  }

  lemma SucceededInv(s: State, id: Id, time: int)
    requires Inv(s) && id in s.mapInfo && time > 0
    ensures Inv(SetInfo(s.(lastGood := time), id, Succeeded(s.mapInfo[id], time)))
  {
    UpdateMid(s.(lastGood := time), id, Succeeded(s.mapInfo[id], time), {}, 0);
    hide AddrIndex, RandomIndex, NewTable, TriedTable, RefCounts, Times;
  }

  lemma EntryBasics(s: State, id: Id)
    requires Inv(s) && id in s.mapInfo
    ensures id != FREE && s.mapInfo[id].refCount >= 0
  {
  }

  /** Where an entry is listed does not depend on its statistics. */
  lemma SameBuckets(s: State, r: State, id: Id)
    requires id in s.mapInfo && id in r.mapInfo && r.mapInfo[id].service == s.mapInfo[id].service
    requires r.news == s.news && r.key == s.key
    ensures InSomeBucket(r, id) <==> InSomeBucket(s, id)
  {
    assert forall b :: HoldsAt(r, id, b) <==> HoldsAt(s, id, b);
  }

  /** s with slot sl taken from entry id, if it is the holder. */
  function WithoutAt(s: State, id: Id, sl: Slot): State
    requires id in s.mapInfo
  {
    if sl in s.news && s.news[sl] == id
    then SetInfo(s, id, s.mapInfo[id].(refCount := s.mapInfo[id].refCount - 1)).(news := s.news - {sl})
    else s
  }

  /** The slots of entry id in the buckets before b. */
  ghost function SlotsBelow(s: State, id: Id, b: int): set<Slot> {
    set sl | sl in s.news && s.news[sl] == id && sl.0 < b
  }

  /** s after the entry has been removed from the buckets before b. */
  ghost function Partly(s: State, id: Id, b: int): State
    requires id in s.mapInfo
  {
    var gone := SlotsBelow(s, id, b);
    SetInfo(s, id, s.mapInfo[id].(refCount := s.mapInfo[id].refCount - |gone|)).(news := s.news - gone)
  }

  /** Bucket b can hold the entry only at its computed position. */
  lemma NextBucket(s: State, id: Id, b: int)
    requires Inv(s) && id in s.mapInfo && 0 <= b < NEW_BUCKET_COUNT
    ensures id != FREE
    ensures var sl := NewSlot(s.key, s.mapInfo[id].service, b);
            SlotsBelow(s, id, b + 1) == if HoldsAt(s, id, b) then SlotsBelow(s, id, b) + {sl} else SlotsBelow(s, id, b)
    ensures NewSlot(s.key, s.mapInfo[id].service, b) !in SlotsBelow(s, id, b)
  {
  }

  lemma PartlyNext(s: State, id: Id, b: int)
    requires Inv(s) && id in s.mapInfo && 0 <= b < NEW_BUCKET_COUNT
    ensures id != FREE && id in Partly(s, id, b).mapInfo
    ensures Partly(s, id, b).mapInfo[id].service == s.mapInfo[id].service
    ensures Partly(s, id, b + 1) == WithoutAt(Partly(s, id, b), id, NewSlot(s.key, s.mapInfo[id].service, b))
  {
    hide Mid, SlotsBelow, NewSlot;
    NextBucket(s, id, b);
    var sl := NewSlot(s.key, s.mapInfo[id].service, b);
    var gone := SlotsBelow(s, id, b);
    if HoldsAt(s, id, b) {
      assert s.news - (gone + {sl}) == s.news - gone - {sl};
    }
  }

  lemma PartlyEnds(s: State, id: Id)
    requires Inv(s) && id in s.mapInfo
    ensures Partly(s, id, 0) == s
    ensures Partly(s, id, NEW_BUCKET_COUNT) == Unlisted(s, id).(nNew := s.nNew)
  {
    hide Inv, SlotsBelow, SlotsOf;
    SlotsBelowAll(s, id);
    assert s.news - {} == s.news && s.mapInfo[id := s.mapInfo[id]] == s.mapInfo;
  }

  lemma SlotsBelowAll(s: State, id: Id)
    requires Inv(s)
    ensures SlotsBelow(s, id, 0) == {} && SlotsBelow(s, id, NEW_BUCKET_COUNT) == SlotsOf(s.news, id)
  {
    hide AddrIndex, RandomIndex, TriedTable, RefCounts, Times, NewIds, TriedIds;
  }
}
