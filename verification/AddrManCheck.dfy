/** CAddrMan::Check_, the debug self-test: what it accepts, and that this is the invariant. */
module AddrManCheck {
  import opened AddrMan
  import opened AddrManTables
  import Sets

  /** The test of one entry; 0 is success. */
  function EntryError(s: State, id: Id): int
    requires id in s.mapInfo
  {
    var i := s.mapInfo[id];
    if i.inTried && i.lastSuccess == 0 then -1
    else if i.inTried && i.refCount != 0 then -2
    else if !i.inTried && (i.refCount < 0 || i.refCount > NEW_BUCKETS_PER_ADDRESS) then -3
    else if !i.inTried && i.refCount == 0 then -4
    else if (if i.service.net in s.mapAddr then s.mapAddr[i.service.net] else 0) != id then -5
    else if i.randomPos < 0 || i.randomPos >= |s.vRandom| || s.vRandom[i.randomPos] != id then -14
    else if i.lastTry < 0 then -6
    else if i.lastSuccess < 0 then -8
    else 0
  }

  lemma EntriesPass(s: State, id: Id)
    requires Inv(s) && id in s.mapInfo
    ensures EntryError(s, id) == 0
  {
    if s.mapInfo[id].inTried {
      assert SlotsOf(s.news, id) == {};
    }
  }

  function ToSet(v: seq<Id>): set<Id> {
    set x | x in v
  }

  lemma RandomCovers(s: State)
    requires RandomIndex(s.mapInfo, s.vRandom)
    ensures |s.vRandom| == |s.mapInfo.Keys|
  {
    forall id | id in s.mapInfo ensures id in s.vRandom {
      assert s.vRandom[s.mapInfo[id].randomPos] == id;
    }
    Sets.CountOf(s.vRandom, s.mapInfo.Keys);
  }

  lemma KindsCover(m: map<Id, Info>)
    ensures |m.Keys| == |NewIds(m)| + |TriedIds(m)|
  {
    assert NewIds(m) + TriedIds(m) == m.Keys && NewIds(m) !! TriedIds(m);
  }

  /** vRandom has exactly one place per entry, new or tried. */
  lemma RandomSize(s: State)
    requires Inv(s)
    ensures |s.vRandom| == s.nTried + s.nNew
  {
    RandomCovers(s);
    KindsCover(s.mapInfo);
    hide AddrIndex, RandomIndex, NewTable, TriedTable, RefCounts, Times;
  }

  // ---------------------------------------------------------------- tried table

  predicate StillTried(s: State, id: Id, n: int, i: int)
    requires id in s.mapInfo
  {
    s.mapInfo[id].inTried && !Visited(TriedSlot(s.key, s.mapInfo[id].service), n, i)
  }

  /** The tried entries whose slot has not been visited yet. */
  function TriedLeft(s: State, n: int, i: int): set<Id> {
    set id | id in s.mapInfo && StillTried(s, id, n, i)
  }

  lemma TriedLeftNext(s: State, n: int, i: int)
    requires TriedTable(s.key, s.mapInfo, s.tried)
    ensures (n, i) in s.tried ==> s.tried[(n, i)] in TriedLeft(s, n, i)
    ensures TriedLeft(s, n, i + 1) == TriedLeft(s, n, i) - (if (n, i) in s.tried then {s.tried[(n, i)]} else {})
  {
    forall id | id in s.mapInfo
      ensures StillTried(s, id, n, i + 1) <==> StillTried(s, id, n, i) && !((n, i) in s.tried && s.tried[(n, i)] == id)
    {
      var sl := TriedSlot(s.key, s.mapInfo[id].service);
      assert sl == (sl.0, sl.1);
    }
    if (n, i) in s.tried {
      assert StillTried(s, s.tried[(n, i)], n, i);
    }
  }

  lemma TriedLeftRow(s: State, n: int)
    ensures TriedLeft(s, n, BUCKET_SIZE) == TriedLeft(s, n + 1, 0)
    ensures TriedLeft(s, 0, 0) == TriedIds(s.mapInfo)
    ensures TriedLeft(s, TRIED_BUCKET_COUNT, 0) == {}
  {
    forall id | id in s.mapInfo
      ensures StillTried(s, id, n, BUCKET_SIZE) <==> StillTried(s, id, n + 1, 0)
      ensures StillTried(s, id, 0, 0) <==> s.mapInfo[id].inTried
      ensures !StillTried(s, id, TRIED_BUCKET_COUNT, 0)
    {
      var sl := TriedSlot(s.key, s.mapInfo[id].service);
      assert 0 <= sl.0 < TRIED_BUCKET_COUNT && 0 <= sl.1 < BUCKET_SIZE;
    }
  }

  /** What the visited slots have shown: tried entries in their places, and all but `left` of them found. */
  ghost predicate TriedSeen(s: State, left: set<Id>, n: int, i: int) {
    && left <= TriedIds(s.mapInfo)
    && (forall sl :: sl in s.tried && Visited(sl, n, i) ==>
          s.tried[sl] in TriedIds(s.mapInfo) && sl == TriedSlot(s.key, s.mapInfo[s.tried[sl]].service))
    && (forall id :: id in TriedIds(s.mapInfo) && id !in left ==>
          var sl := TriedSlot(s.key, s.mapInfo[id].service); sl in s.tried && s.tried[sl] == id)
  }

  lemma TriedSeenNext(s: State, left: set<Id>, n: int, i: int)
    requires TriedSeen(s, left, n, i)
    requires (n, i) in s.tried ==>
               s.tried[(n, i)] in left && (n, i) == TriedSlot(s.key, s.mapInfo[s.tried[(n, i)]].service)
    ensures TriedSeen(s, left - (if (n, i) in s.tried then {s.tried[(n, i)]} else {}), n, i + 1)
  {
    forall sl | sl in s.tried && Visited(sl, n, i + 1) ensures Visited(sl, n, i) || sl == (n, i) {
      assert sl == (sl.0, sl.1);
    }
  }

  lemma TriedSeenEnd(s: State)
    requires TriedSeen(s, {}, TRIED_BUCKET_COUNT, 0)
    requires forall sl :: sl in s.tried ==> 0 <= sl.0 < TRIED_BUCKET_COUNT && 0 <= sl.1 < BUCKET_SIZE
    ensures TriedTable(s.key, s.mapInfo, s.tried)
  {
    forall sl | sl in s.tried ensures Visited(sl, TRIED_BUCKET_COUNT, 0) { }
  }

  lemma TriedSeenRow(s: State, left: set<Id>, n: int)
    requires TriedSeen(s, left, n, BUCKET_SIZE)
    requires forall sl :: sl in s.tried ==> 0 <= sl.0 < TRIED_BUCKET_COUNT && 0 <= sl.1 < BUCKET_SIZE
    ensures TriedSeen(s, left, n + 1, 0)
  {
    forall sl | sl in s.tried && Visited(sl, n + 1, 0) ensures Visited(sl, n, BUCKET_SIZE) { }
  }

  /** The walk over the tried table ends well exactly if the table is right. */
  method CheckTried(m: AddressManager, tried: set<Id>) returns (err: int, left: set<Id>)
    requires m.Valid() && tried == TriedIds(m.mapInfo)
    ensures err == 0 && left == {} <==> TriedTable(m.nKey, m.mapInfo, m.Value().tried)
  {
    ghost var s := m.Value();
    ghost var right := TriedTable(s.key, s.mapInfo, s.tried);
    InTable(m.vvTried);
    hide Table, TriedLeft, TriedIds, TriedSeen;
    left := tried;
    TriedLeftRow(s, 0);
    TriedSeenStart(s);
    for n := 0 to TRIED_BUCKET_COUNT
      invariant (right ==> left == TriedLeft(s, n, 0)) && TriedSeen(s, left, n, 0)
    {
      for i := 0 to BUCKET_SIZE
        invariant (right ==> left == TriedLeft(s, n, i)) && TriedSeen(s, left, n, i)
      {
        if right {
          TriedLeftNext(s, n, i);
        }
        SlotAt(m.vvTried, n, i);
        var id := m.vvTried[n, i];
        if id != FREE {
          if id !in left {
            return -11, left;
          }
          LeftIsTried(s, left, n, i);
          if TriedBucket(m.nKey, m.mapInfo[id].service) != n {
            return -17, left;
          }
          if Position(m.nKey, false, n, m.mapInfo[id].service) != i {
            return -18, left;
          }
          TriedSeenNext(s, left, n, i);
          left := left - {id};
        } else {
          TriedSeenNext(s, left, n, i);
          assert left - {} == left;
        }
      }
      TriedLeftRow(s, n);
      TriedSeenRow(s, left, n);
    }
    if left == {} {
      TriedSeenEnd(s);
    }
    err := 0;
  }

  lemma TriedSeenStart(s: State)
    requires forall sl :: sl in s.tried ==> 0 <= sl.0 < TRIED_BUCKET_COUNT && 0 <= sl.1 < BUCKET_SIZE
    ensures TriedSeen(s, TriedIds(s.mapInfo), 0, 0)
  {
  }

  lemma LeftIsTried(s: State, left: set<Id>, n: int, i: int)
    requires TriedSeen(s, left, n, i)
    ensures forall id :: id in left ==> id in s.mapInfo
  {
  }

  /** A table has no slots outside its bounds. */
  lemma InTable(t: array2<int>)
    ensures forall sl :: sl in Table(t) ==> 0 <= sl.0 < t.Length0 && 0 <= sl.1 < t.Length1
  {
  }

  // ---------------------------------------------------------------- new table

  /** The slots of entry id that have not been visited yet. */
  function SlotsLeft(s: State, id: Id, n: int, i: int): set<Slot> {
    set sl | sl in s.news && s.news[sl] == id && !Visited(sl, n, i)
  }

  /** left says of every new entry with slots still to come how many they are. */
  ghost predicate CountsLeft(s: State, left: map<Id, int>, n: int, i: int) {
    && (forall id :: id in left <==> id in s.mapInfo && SlotsLeft(s, id, n, i) != {})
    && (forall id :: id in left ==> left[id] == |SlotsLeft(s, id, n, i)|)
  }

  lemma SlotsLeftNext(s: State, id: Id, n: int, i: int)
    ensures var here := (n, i) in s.news && s.news[(n, i)] == id;
            && (here ==> (n, i) in SlotsLeft(s, id, n, i))
            && SlotsLeft(s, id, n, i + 1) == SlotsLeft(s, id, n, i) - (if here then {(n, i)} else {})
  {
    forall sl | sl in s.news && s.news[sl] == id
      ensures !Visited(sl, n, i + 1) <==> !Visited(sl, n, i) && sl != (n, i)
    {
      assert sl == (sl.0, sl.1);
    }
  }

  /** What the loop body does with the counter of the entry it finds. */
  function Counted(left: map<Id, int>, id: Id): map<Id, int>
    requires id in left
  {
    if left[id] == 1 then left - {id} else left[id := left[id] - 1]
  }

  lemma CountsLeftNext(s: State, left: map<Id, int>, n: int, i: int)
    requires NewTable(s.key, s.mapInfo, s.news) && CountsLeft(s, left, n, i)
    ensures (n, i) in s.news ==> s.news[(n, i)] in left && CountsLeft(s, Counted(left, s.news[(n, i)]), n, i + 1)
    ensures (n, i) !in s.news ==> CountsLeft(s, left, n, i + 1)
  {
    assert (n, i) in s.news ==> s.news[(n, i)] in s.mapInfo;
    hide NewTable, SlotsLeft;
    if (n, i) in s.news {
      var id := s.news[(n, i)];
      SlotsLeftNext(s, id, n, i);
      assert |SlotsLeft(s, id, n, i + 1)| == left[id] - 1;
      forall j ensures j in Counted(left, id) <==> j in s.mapInfo && SlotsLeft(s, j, n, i + 1) != {}
               ensures j in Counted(left, id) ==> Counted(left, id)[j] == |SlotsLeft(s, j, n, i + 1)|
      {
        if j != id {
          SlotsLeftNext(s, j, n, i);
        }
      }
    } else {
      forall j ensures SlotsLeft(s, j, n, i + 1) == SlotsLeft(s, j, n, i) {
        SlotsLeftNext(s, j, n, i);
      }
    }
  }

  lemma SlotsLeftRow(s: State, id: Id, n: int)
    requires NewTable(s.key, s.mapInfo, s.news)
    ensures SlotsLeft(s, id, n, BUCKET_SIZE) == SlotsLeft(s, id, n + 1, 0)
    ensures SlotsLeft(s, id, 0, 0) == SlotsOf(s.news, id)
    ensures SlotsLeft(s, id, NEW_BUCKET_COUNT, 0) == {}
  {
    forall sl | sl in s.news && s.news[sl] == id
      ensures 0 <= sl.0 < NEW_BUCKET_COUNT && 0 <= sl.1 < BUCKET_SIZE
    {
      assert sl.1 == NewSlot(s.key, s.mapInfo[id].service, sl.0).1;
    }
  }

  lemma CountsLeftRow(s: State, left: map<Id, int>, n: int)
    requires NewTable(s.key, s.mapInfo, s.news) && CountsLeft(s, left, n, BUCKET_SIZE)
    ensures CountsLeft(s, left, n + 1, 0)
  {
    forall id ensures SlotsLeft(s, id, n, BUCKET_SIZE) == SlotsLeft(s, id, n + 1, 0) {
      SlotsLeftRow(s, id, n);
    }
  }

  lemma CountsLeftEnd(s: State, left: map<Id, int>)
    requires NewTable(s.key, s.mapInfo, s.news) && CountsLeft(s, left, NEW_BUCKET_COUNT, 0)
    ensures left == map[]
  {
    forall id ensures id !in left {
      SlotsLeftRow(s, id, 0);
    }
  }

  /** Reference counts of new entries count their slots. */
  ghost predicate NewRefs(s: State) {
    forall id :: id in NewIds(s.mapInfo) ==> s.mapInfo[id].refCount == |SlotsOf(s.news, id)|
  }

  /** The slots of entry id that have been visited. */
  function SlotsSeen(s: State, id: Id, n: int, i: int): set<Slot> {
    set sl | sl in s.news && s.news[sl] == id && Visited(sl, n, i)
  }

  function Left(left: map<Id, int>, id: Id): int {
    if id in left then left[id] else 0
  }

  /** The new slots visited hold new entries, in places of theirs. */
  ghost predicate NewPlaces(s: State, n: int, i: int) {
    forall sl :: sl in s.news && Visited(sl, n, i) ==>
      s.news[sl] in NewIds(s.mapInfo) && sl == NewSlot(s.key, s.mapInfo[s.news[sl]].service, sl.0)
  }

  /** Reference counts are made up of the slots seen and what is left. */
  ghost predicate NewCounts(s: State, left: map<Id, int>, n: int, i: int) {
    forall id :: id in NewIds(s.mapInfo) ==> |SlotsSeen(s, id, n, i)| + Left(left, id) == s.mapInfo[id].refCount
  }

  ghost predicate NewSeen(s: State, left: map<Id, int>, n: int, i: int) {
    && left.Keys <= NewIds(s.mapInfo) && (forall id :: id in left ==> left[id] > 0)
    && NewPlaces(s, n, i) && NewCounts(s, left, n, i)
  }

  lemma SlotsSeenNext(s: State, id: Id, n: int, i: int)
    ensures var here := (n, i) in s.news && s.news[(n, i)] == id;
            && (n, i) !in SlotsSeen(s, id, n, i)
            && SlotsSeen(s, id, n, i + 1) == SlotsSeen(s, id, n, i) + (if here then {(n, i)} else {})
  {
    forall sl | sl in s.news && s.news[sl] == id
      ensures Visited(sl, n, i + 1) <==> Visited(sl, n, i) || sl == (n, i)
    {
      assert sl == (sl.0, sl.1);
    }
  }

  lemma NewPlacesNext(s: State, n: int, i: int)
    requires NewPlaces(s, n, i)
    requires (n, i) in s.news ==>
               s.news[(n, i)] in NewIds(s.mapInfo) && (n, i) == NewSlot(s.key, s.mapInfo[s.news[(n, i)]].service, n)
    ensures NewPlaces(s, n, i + 1)
  {
    forall sl | sl in s.news && Visited(sl, n, i + 1) ensures Visited(sl, n, i) || sl == (n, i) {
      assert sl == (sl.0, sl.1);
    }
  }

  lemma NewCountsNext(s: State, left: map<Id, int>, n: int, i: int)
    requires NewCounts(s, left, n, i) && ((n, i) in s.news ==> s.news[(n, i)] in left)
    ensures NewCounts(s, if (n, i) in s.news then Counted(left, s.news[(n, i)]) else left, n, i + 1)
  {
    var next := if (n, i) in s.news then Counted(left, s.news[(n, i)]) else left;
    hide SlotsSeen;
    forall id | id in NewIds(s.mapInfo)
      ensures |SlotsSeen(s, id, n, i + 1)| + Left(next, id) == s.mapInfo[id].refCount
    {
      SlotsSeenNext(s, id, n, i);
    }
  }

  lemma NewSeenNext(s: State, left: map<Id, int>, n: int, i: int)
    requires NewSeen(s, left, n, i)
    requires (n, i) in s.news ==>
               s.news[(n, i)] in left && (n, i) == NewSlot(s.key, s.mapInfo[s.news[(n, i)]].service, n)
    ensures NewSeen(s, if (n, i) in s.news then Counted(left, s.news[(n, i)]) else left, n, i + 1)
  {
    hide NewPlaces, NewCounts, NewIds;
    NewPlacesNext(s, n, i);
    NewCountsNext(s, left, n, i);
  }

  lemma SlotsSeenAll(s: State, id: Id, n: int)
    requires InRange(s)
    ensures SlotsSeen(s, id, n, BUCKET_SIZE) == SlotsSeen(s, id, n + 1, 0)
    ensures SlotsSeen(s, id, 0, 0) == {}
    ensures SlotsSeen(s, id, NEW_BUCKET_COUNT, 0) == SlotsOf(s.news, id)
  {
  }

  lemma NewSeenRow(s: State, left: map<Id, int>, n: int)
    requires NewSeen(s, left, n, BUCKET_SIZE)
    requires InRange(s)
    ensures NewSeen(s, left, n + 1, 0)
  {
    forall sl | sl in s.news && Visited(sl, n + 1, 0) ensures Visited(sl, n, BUCKET_SIZE) { }
    forall id | id in NewIds(s.mapInfo) ensures SlotsSeen(s, id, n, BUCKET_SIZE) == SlotsSeen(s, id, n + 1, 0) {
      SlotsSeenAll(s, id, n);
    }
    hide SlotsSeen;
  }

  lemma NewSeenEnd(s: State)
    requires NewSeen(s, map[], NEW_BUCKET_COUNT, 0)
    requires InRange(s)
    ensures NewTable(s.key, s.mapInfo, s.news) && NewRefs(s)
  {
    forall sl | sl in s.news ensures Visited(sl, NEW_BUCKET_COUNT, 0) { }
    forall id | id in NewIds(s.mapInfo) ensures s.mapInfo[id].refCount == |SlotsOf(s.news, id)| {
      SlotsSeenAll(s, id, 0);
    }
    hide SlotsSeen, SlotsOf;
  }

  /** The counters the walk over the new table starts with. */
  ghost predicate Starts(s: State, counts: map<Id, int>) {
    && counts.Keys == NewIds(s.mapInfo)
    && forall id :: id in counts ==> counts[id] == s.mapInfo[id].refCount && counts[id] > 0
  }

  lemma NewSeenStart(s: State, counts: map<Id, int>)
    requires Starts(s, counts)
    requires InRange(s)
    ensures NewSeen(s, counts, 0, 0)
  {
    forall id | id in NewIds(s.mapInfo) ensures SlotsSeen(s, id, 0, 0) == {} {
      SlotsSeenAll(s, id, 0);
    }
    hide SlotsSeen;
  }

  lemma CountsStart(s: State, counts: map<Id, int>)
    requires NewTable(s.key, s.mapInfo, s.news) && NewRefs(s) && Starts(s, counts)
    ensures CountsLeft(s, counts, 0, 0)
  {
    forall id ensures SlotsLeft(s, id, 0, 0) == SlotsOf(s.news, id) {
      SlotsLeftRow(s, id, 0);
    }
    forall id | id in s.mapInfo && s.mapInfo[id].inTried ensures SlotsOf(s.news, id) == {} { }
  }

  ghost predicate InRange(s: State) {
    forall sl :: sl in s.news ==> 0 <= sl.0 < NEW_BUCKET_COUNT && 0 <= sl.1 < BUCKET_SIZE
  }

  lemma NewInRange(m: AddressManager)
    requires m.Valid()
    ensures InRange(m.Value())
  {
    InTable(m.vvNew);
  }

  /** The walk is at position i of bucket n; `right` says whether it is to end well. */
  ghost predicate Walking(s: State, left: map<Id, int>, n: int, i: int, right: bool) {
    && InRange(s) && NewSeen(s, left, n, i)
    && (right ==> NewTable(s.key, s.mapInfo, s.news) && CountsLeft(s, left, n, i))
  }

  lemma WalkStart(s: State, counts: map<Id, int>, right: bool)
    requires InRange(s) && Starts(s, counts) && (right ==> NewTable(s.key, s.mapInfo, s.news) && NewRefs(s))
    ensures Walking(s, counts, 0, 0, right)
  {
    hide NewSeen, CountsLeft, Starts, NewTable, NewRefs;
    NewSeenStart(s, counts);
    if right {
      CountsStart(s, counts);
    }
  }

  lemma WalkRow(s: State, left: map<Id, int>, n: int, right: bool)
    requires Walking(s, left, n, BUCKET_SIZE, right)
    ensures Walking(s, left, n + 1, 0, right)
  {
    hide NewSeen, CountsLeft, NewTable;
    NewSeenRow(s, left, n);
    if right {
      CountsLeftRow(s, left, n);
    }
  }

  lemma WalkEnd(s: State, left: map<Id, int>, right: bool)
    requires Walking(s, left, NEW_BUCKET_COUNT, 0, right)
    ensures right ==> left == map[]
    ensures left == map[] ==> NewTable(s.key, s.mapInfo, s.news) && NewRefs(s)
  {
    hide NewSeen, CountsLeft, NewTable, NewRefs;
    if right {
      CountsLeftEnd(s, left);
    }
    if left == map[] {
      NewSeenEnd(s);
    }
  }

  /** The walk over the new table ends well exactly if the table and the reference counts are right. */
  method CheckNew(m: AddressManager, counts: map<Id, int>) returns (err: int, left: map<Id, int>)
    requires m.Valid() && Starts(m.Value(), counts)
    ensures err == 0 && left == map[] <==> NewTable(m.nKey, m.mapInfo, m.Value().news) && NewRefs(m.Value())
  {
    ghost var s := m.Value();
    hide Table, NewTable, NewRefs, Starts, InRange;
    NewInRange(m);
    err, left := WalkNew(m, counts, s, NewTable(s.key, s.mapInfo, s.news) && NewRefs(s));
  }

  method WalkNew(m: AddressManager, counts: map<Id, int>, ghost s: State, ghost right: bool)
    returns (err: int, left: map<Id, int>)
    requires m.Valid() && s == m.Value() && InRange(s) && Starts(s, counts)
    requires right ==> NewTable(s.key, s.mapInfo, s.news) && NewRefs(s)
    ensures right ==> err == 0 && left == map[]
    ensures err == 0 && left == map[] ==> NewTable(s.key, s.mapInfo, s.news) && NewRefs(s)
  {
    hide Table, NewTable, NewRefs, Starts, Walking, InRange, AddressManager.Value;
    left := counts;
    WalkStart(s, counts, right);
    for n := 0 to NEW_BUCKET_COUNT
      invariant Walking(s, left, n, 0, right)
    {
      err, left := CheckNewBucket(m, n, left, s, right);
      if err != 0 {
        return;
      }
    }
    WalkEnd(s, left, right);
    err := 0;
  }

  /** The inner loop. */
  method CheckNewBucket(m: AddressManager, n: int, counts: map<Id, int>, ghost s: State, ghost right: bool)
    returns (err: int, left: map<Id, int>)
    requires m.Valid() && s == m.Value() && 0 <= n < NEW_BUCKET_COUNT && Walking(s, counts, n, 0, right)
    ensures right ==> err == 0
    ensures err == 0 ==> Walking(s, left, n + 1, 0, right)
  {
    hide Table, Walking, AddressManager.Value;
    left := counts;
    for i := 0 to BUCKET_SIZE
      invariant Walking(s, left, n, i, right)
    {
      err, left := CheckNewSlot(m, n, i, left, s, right);
      if err != 0 {
        return;
      }
    }
    WalkRow(s, left, n, right);
    err := 0;
  }

  method CheckNewSlot(m: AddressManager, n: int, i: int, counts: map<Id, int>, ghost s: State, ghost right: bool)
    returns (err: int, left: map<Id, int>)
    requires m.Valid() && s == m.Value() && 0 <= n < NEW_BUCKET_COUNT && 0 <= i < BUCKET_SIZE
    requires Walking(s, counts, n, i, right)
    ensures right ==> err == 0
    ensures err == 0 ==> Walking(s, left, n, i + 1, right)
  {
    hide Table, CountsLeft, SlotsLeft, NewSeen, NewTable, InRange;
    left := counts;
    if right {
      CountsLeftNext(s, left, n, i);
      NewPlace(s, n, i);
    }
    SlotAt(m.vvNew, n, i);
    var id := m.vvNew[n, i];
    if id != FREE {
      if id !in left {
        return -12, left;
      }
      LeftIsNew(s, left, n, i);
      if Position(m.nKey, true, n, m.mapInfo[id].service) != i {
        return -19, left;
      }
      NewSeenNext(s, left, n, i);
      left := if left[id] == 1 then left - {id} else left[id := left[id] - 1];
    } else {
      NewSeenNext(s, left, n, i);
    }
    err := 0;
  }

  lemma NewPlace(s: State, n: int, i: int)
    requires NewTable(s.key, s.mapInfo, s.news)
    ensures (n, i) in s.news ==>
              s.news[(n, i)] in s.mapInfo && Position(s.key, true, n, s.mapInfo[s.news[(n, i)]].service) == i
  {
  }

  lemma LeftIsNew(s: State, left: map<Id, int>, n: int, i: int)
    requires NewSeen(s, left, n, i)
    ensures forall id :: id in left ==> id in s.mapInfo
  {
  }

  // ---------------------------------------------------------------- the whole test

  /** The address index after lookups with operator[], which supplies id 0 where an entry's address is missing. */
  ghost predicate ZeroFilled(m: map<Id, Info>, before: map<NetAddr, Id>, now: map<NetAddr, Id>) {
    && (forall a :: a in before ==> a in now && now[a] == before[a])
    && (forall a :: a in now && a !in before ==> now[a] == 0 && exists id :: id in m && m[id].service.net == a)
  }

  /** Supplying zeros changes no test. */
  lemma ZeroFilledError(s: State, now: map<NetAddr, Id>, id: Id)
    requires ZeroFilled(s.mapInfo, s.mapAddr, now) && id in s.mapInfo
    ensures EntryError(s.(mapAddr := now), id) == EntryError(s, id)
  {
  }

  /** If the test of the entry passes, only id 0 can have been missing. */
  lemma ZeroFilledFine(s: State, id: Id)
    requires id in s.mapInfo && EntryError(s, id) == 0
    ensures s.mapInfo[id].service.net !in s.mapAddr ==> id == 0
  {
  }

  lemma ZeroFilledNext(m: map<Id, Info>, before: map<NetAddr, Id>, now: map<NetAddr, Id>, id: Id)
    requires ZeroFilled(m, before, now) && id in m
    ensures var a := m[id].service.net; ZeroFilled(m, before, if a in now then now else now[a := 0])
  {
  }

  /** The test of entry n comes to the lookup of its address. */
  predicate LooksUp(e: int) {
    e != -1 && e != -2 && e != -3 && e != -4
  }

  /** The loop over all entries, in whatever order they come. */
  method CheckEntries(m: AddressManager) returns (err: int, tried: set<Id>, counts: map<Id, int>)
    requires m.Valid()
    modifies m`mapAddr
    ensures err == 0 <==> forall id :: id in m.mapInfo ==> EntryError(old(m.Value()), id) == 0
    ensures err == 0 ==> tried == TriedIds(m.mapInfo) && Starts(m.Value(), counts)
    ensures ZeroFilled(m.mapInfo, old(m.mapAddr), m.mapAddr)
    ensures err == 0 ==> Supplied(m.mapInfo, old(m.mapAddr), m.mapAddr)
  {
    ghost var s := m.Value();
    hide Table, EntryError, ZeroFilled, Supplied, Tested;
    tried, counts := {}, map[];
    var rest := m.mapInfo.Keys;
    TestedStart(s);
    while rest != {}
      invariant rest <= m.mapInfo.Keys && Tested(s, m.mapAddr, rest, tried, counts)
      decreases |rest|
    {
      Sets.Inhabited(rest);
      var n :| n in rest;
      TestedFilled(s, m.mapAddr, rest, tried, counts);
      ghost var before := m.mapAddr;
      var e := CheckEntry(m, n, s);
      if e != 0 {
        return e, tried, counts;
      }
      TestedNext(s, before, m.mapAddr, rest, tried, counts, n);
      if m.mapInfo[n].inTried {
        tried := tried + {n};
      } else {
        counts := counts[n := m.mapInfo[n].refCount];
      }
      rest := rest - {n};
    }
    TestedEnd(s, m.mapAddr, tried, counts);
    SameStarts(s, m.Value(), counts);
    err := 0;
  }

  /** All entries but `rest` have passed, and are listed by their kind. */
  ghost predicate Tested(s: State, now: map<NetAddr, Id>, rest: set<Id>, tried: set<Id>, counts: map<Id, int>) {
    && ZeroFilled(s.mapInfo, s.mapAddr, now) && Supplied(s.mapInfo, s.mapAddr, now)
    && tried == TriedIds(s.mapInfo) - rest && counts.Keys == NewIds(s.mapInfo) - rest
    && (forall id :: id in s.mapInfo && id !in rest ==> EntryError(s, id) == 0)
    && (forall id :: id in counts ==> counts[id] == s.mapInfo[id].refCount)
  }

  lemma TestedStart(s: State)
    ensures Tested(s, s.mapAddr, s.mapInfo.Keys, {}, map[])
  {
    hide EntryError, ZeroFilled, Supplied;
    NothingFilled(s);
  }

  lemma TestedFilled(s: State, now: map<NetAddr, Id>, rest: set<Id>, tried: set<Id>, counts: map<Id, int>)
    requires Tested(s, now, rest, tried, counts)
    ensures ZeroFilled(s.mapInfo, s.mapAddr, now) && Supplied(s.mapInfo, s.mapAddr, now)
  {
  }

  lemma TestedNext(s: State, before: map<NetAddr, Id>, now: map<NetAddr, Id>, rest: set<Id>, tried: set<Id>,
                   counts: map<Id, int>, n: Id)
    requires Tested(s, before, rest, tried, counts) && n in rest && n in s.mapInfo && EntryError(s, n) == 0
    requires ZeroFilled(s.mapInfo, s.mapAddr, now) && Supplied(s.mapInfo, s.mapAddr, now)
    ensures if s.mapInfo[n].inTried then Tested(s, now, rest - {n}, tried + {n}, counts)
            else Tested(s, now, rest - {n}, tried, counts[n := s.mapInfo[n].refCount])
  {
    hide EntryError, ZeroFilled, Supplied;
  }

  lemma TestedEnd(s: State, now: map<NetAddr, Id>, tried: set<Id>, counts: map<Id, int>)
    requires Tested(s, now, {}, tried, counts)
    ensures tried == TriedIds(s.mapInfo) && Starts(s, counts)
    ensures forall id :: id in s.mapInfo ==> EntryError(s, id) == 0
    ensures ZeroFilled(s.mapInfo, s.mapAddr, now) && Supplied(s.mapInfo, s.mapAddr, now)
  {
    hide EntryError, ZeroFilled, Supplied;
    assert NewIds(s.mapInfo) - {} == NewIds(s.mapInfo) && TriedIds(s.mapInfo) - {} == TriedIds(s.mapInfo);
    AllFine(s, counts);
  }

  /** The body of that loop. */
  method CheckEntry(m: AddressManager, n: Id, ghost s: State) returns (e: int)
    requires n in m.mapInfo && s.mapInfo == m.mapInfo && s.vRandom == m.vRandom
    requires ZeroFilled(s.mapInfo, s.mapAddr, m.mapAddr) && Supplied(s.mapInfo, s.mapAddr, m.mapAddr)
    modifies m`mapAddr
    ensures e == EntryError(s, n) && ZeroFilled(s.mapInfo, s.mapAddr, m.mapAddr)
    ensures e == 0 ==> Supplied(s.mapInfo, s.mapAddr, m.mapAddr)
  {
    hide EntryError, ZeroFilled;
    var state := State(m.nIdCount, m.mapInfo, m.mapAddr, m.vRandom, m.nTried, map[], m.nNew, map[],
                       m.nLastGood, m.nKey);
    e := EntryError(state, n);
    SameEntryError(s.(mapAddr := m.mapAddr), state, n);
    ZeroFilledError(s, m.mapAddr, n);
    ZeroFilledNext(m.mapInfo, s.mapAddr, m.mapAddr, n);
    var net := m.mapInfo[n].service.net;
    if LooksUp(e) && net !in m.mapAddr {
      m.mapAddr := m.mapAddr[net := 0];
    }
    if e == 0 {
      ZeroFilledFine(state, n);
    }
  }

  /** Nothing was supplied but for id 0. */
  ghost predicate Supplied(m: map<Id, Info>, before: map<NetAddr, Id>, now: map<NetAddr, Id>) {
    forall a :: a in now && a !in before ==> 0 in m && m[0].service.net == a
  }

  lemma NothingFilled(s: State)
    ensures ZeroFilled(s.mapInfo, s.mapAddr, s.mapAddr) && Supplied(s.mapInfo, s.mapAddr, s.mapAddr)
  {
  }

  lemma AllFine(s: State, counts: map<Id, int>)
    requires counts.Keys == NewIds(s.mapInfo) && forall id :: id in counts ==> counts[id] == s.mapInfo[id].refCount
    requires forall id :: id in s.mapInfo ==> EntryError(s, id) == 0
    ensures Starts(s, counts)
  {
    hide EntryError;
    forall id | id in counts ensures counts[id] > 0 {
      EntryFine(s, id);
    }
  }

  lemma SameStarts(s: State, t: State, counts: map<Id, int>)
    requires Starts(s, counts) && t.mapInfo == s.mapInfo
    ensures Starts(t, counts)
  {
  }

  lemma EntryFine(s: State, id: Id)
    requires id in s.mapInfo && EntryError(s, id) == 0
    ensures !s.mapInfo[id].inTried ==> s.mapInfo[id].refCount > 0
  {
  }

  lemma SameEntryError(s: State, t: State, id: Id)
    requires t.mapInfo == s.mapInfo && t.mapAddr == s.mapAddr && t.vRandom == s.vRandom && id in s.mapInfo
    ensures EntryError(t, id) == EntryError(s, id)
  {
  }

  lemma SameRefs(s: State, t: State)
    requires t == s.(mapAddr := t.mapAddr)
    ensures NewRefs(t) <==> NewRefs(s)
  {
  }

  /** What Check_ tests. */
  ghost predicate Passes(s: State) {
    && |s.vRandom| == s.nTried + s.nNew
    && (forall id :: id in s.mapInfo ==> EntryError(s, id) == 0)
    && |TriedIds(s.mapInfo)| == s.nTried && |NewIds(s.mapInfo)| == s.nNew
    && TriedTable(s.key, s.mapInfo, s.tried) && NewTable(s.key, s.mapInfo, s.news) && NewRefs(s)
  }

  /** Check_ answers zero exactly if everything it tests is right. It can change the address index: lookups supply
      id 0 for addresses that are missing, which if the test passes can only be that of entry 0 itself. */
  method Check(m: AddressManager, keyIsNull: bool) returns (err: int)
    requires m.Valid()
    modifies m`mapAddr
    ensures err == 0 <==> Passes(old(m.Value())) && !keyIsNull
    ensures ZeroFilled(m.mapInfo, old(m.mapAddr), m.mapAddr)
    ensures err == 0 ==> Supplied(m.mapInfo, old(m.mapAddr), m.mapAddr)
  {
    hide Table, EntryError, NewTable, TriedTable, TriedIds, NewIds, NewRefs, ZeroFilled;
    ghost var s := m.Value();
    NothingFilled(s);
    if |m.vRandom| != m.nTried + m.nNew {
      return -7;
    }
    var tried, counts;
    err, tried, counts := CheckEntries(m);
    if err != 0 {
      return;
    }
    SameRefs(s, m.Value());
    if |tried| != m.nTried {
      return -9;
    }
    assert |counts| == |counts.Keys|;
    if |counts| != m.nNew {
      return -10;
    }
    var left;
    err, left := CheckTried(m, tried);
    if err != 0 {
      return;
    }
    var open;
    err, open := CheckNew(m, counts);
    if err != 0 {
      return;
    }
    if left != {} {
      return -13;
    }
    if open != map[] {
      return -15;
    }
    if keyIsNull {
      return -16;
    }
    err := 0;
  }

  // ---------------------------------------------------------------- the test and the invariant

  /** What Check_ does not look at: ids are below the counter, and the address index has no entry for an address
      that is not stored, nor lacks one for id 0, which the lookup would supply. */
  ghost predicate Untested(s: State) {
    && 0 <= s.idCount && (forall id :: id in s.mapInfo ==> 0 <= id < s.idCount)
    && (forall a :: a in s.mapAddr ==> s.mapAddr[a] in s.mapInfo && s.mapInfo[s.mapAddr[a]].service.net == a)
    && (0 in s.mapInfo ==> s.mapInfo[0].service.net in s.mapAddr)
  }

  /** The test is exactly the invariant, but for what it does not look at. */
  lemma PassesIffInv(s: State)
    ensures Inv(s) <==> Passes(s) && Untested(s)
  {
    if Inv(s) {
      InvPasses(s);
    }
    if Passes(s) && Untested(s) {
      PassesInv(s);
    }
    hide Mid, Passes, Untested;
  }

  /** A stale entry of the address index goes unnoticed. */
  lemma StalePasses(key: Key)
    ensures var s := Empty(key).(mapAddr := map[5 := 3]); Passes(s) && !Inv(s)
  {
    var s := Empty(key).(mapAddr := map[5 := 3]);
    assert 5 in s.mapAddr && s.mapAddr[5] !in s.mapInfo;
    assert TriedIds(s.mapInfo) == {} && NewIds(s.mapInfo) == {};
  }

  lemma InvPasses(s: State)
    requires Inv(s)
    ensures Passes(s) && Untested(s)
  {
    RandomSize(s);
    forall id | id in s.mapInfo ensures EntryError(s, id) == 0 {
      EntriesPass(s, id);
    }
    hide EntryError;
  }

  lemma PassesInv(s: State)
    requires Passes(s) && Untested(s)
    ensures Inv(s)
  {
    hide EntryError, AddrIndex, RandomIndex, NewTable, TriedTable, RefCounts, Times, NewRefs, TriedIds, NewIds;
    EntriesRight(s);
    KindsCover(s.mapInfo);
    RandomExact(s);
    RefsRight(s);
  }

  lemma RefsRight(s: State)
    requires NewTable(s.key, s.mapInfo, s.news) && NewRefs(s)
    requires forall id :: id in s.mapInfo ==>
               if s.mapInfo[id].inTried then s.mapInfo[id].refCount == 0
               else 0 < s.mapInfo[id].refCount <= NEW_BUCKETS_PER_ADDRESS
    ensures RefCounts(s.mapInfo, s.news, {})
  {
    forall id | id in s.mapInfo ensures s.mapInfo[id].refCount == |SlotsOf(s.news, id)| {
      if s.mapInfo[id].inTried {
        assert SlotsOf(s.news, id) == {};
      } else {
        assert id in NewIds(s.mapInfo);
      }
    }
    hide NewTable, NewRefs, SlotsOf;
  }

  /** What the tests of the entries say. */
  lemma EntriesRight(s: State)
    requires Untested(s) && forall id :: id in s.mapInfo ==> EntryError(s, id) == 0
    ensures AddrIndex(s.mapInfo, s.mapAddr) && Times(s.mapInfo)
    ensures forall id :: id in s.mapInfo ==>
              0 <= s.mapInfo[id].randomPos < |s.vRandom| && s.vRandom[s.mapInfo[id].randomPos] == id
    ensures forall id :: id in s.mapInfo ==>
              if s.mapInfo[id].inTried then s.mapInfo[id].refCount == 0
              else 0 < s.mapInfo[id].refCount <= NEW_BUCKETS_PER_ADDRESS
  {
    forall id | id in s.mapInfo ensures EntryError(s, id) == 0 { }
  }

  /** Entries that know their places in a list as long as they are many fill it. */
  lemma RandomExact(s: State)
    requires |s.vRandom| == |s.mapInfo.Keys|
    requires forall id :: id in s.mapInfo ==>
               0 <= s.mapInfo[id].randomPos < |s.vRandom| && s.vRandom[s.mapInfo[id].randomPos] == id
    ensures RandomIndex(s.mapInfo, s.vRandom)
  {
    var all := ToSet(s.vRandom);
    forall id | id in s.mapInfo ensures id in all {
      assert s.vRandom[s.mapInfo[id].randomPos] == id;
    }
    AtMostLength(s.vRandom);
    SameSize(s.mapInfo.Keys, all);
    forall i | 0 <= i < |s.vRandom| ensures s.vRandom[i] in s.mapInfo && s.mapInfo[s.vRandom[i]].randomPos == i {
      assert s.vRandom[i] in all;
    }
  }

  lemma SameSize(a: set<int>, b: set<int>)
    requires a <= b && |a| >= |b|
    ensures a == b
  {
    assert b == a + (b - a);
  }

  /** As many different elements as places: none twice. */
  lemma {:induction false} AtMostLength(v: seq<Id>)
    ensures |ToSet(v)| <= |v|
    ensures |ToSet(v)| == |v| ==> forall i, j :: 0 <= i < j < |v| ==> v[i] != v[j]
  {
    if |v| > 0 {
      var n := |v| - 1;
      AtMostLength(v[..n]);
      assert v == v[..n] + [v[n]];
      assert ToSet(v) == ToSet(v[..n]) + {v[n]};
      if v[n] in ToSet(v[..n]) {
        assert ToSet(v) == ToSet(v[..n]);
      }
    }
  }
}
