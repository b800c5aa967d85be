/** CAddrMan: five redundant indexes over one set of peer addresses. Value model of the state, its
    invariant and every operation; asserts of the source are preconditions here. */
module AddrMan {
  import Powers

  const TRIED_BUCKET_COUNT := 256
  const NEW_BUCKET_COUNT := 1024
  const BUCKET_SIZE := 64
  const NEW_BUCKETS_PER_ADDRESS := 8
  const HORIZON_DAYS := 30
  const RETRIES := 3
  const MAX_FAILURES := 10
  const MIN_FAIL_DAYS := 7
  const GETADDR_MAX_PCT := 23
  const GETADDR_MAX := 2500

  type Id = int
  type NetAddr = int

  /** An address with its port (CService). */
  datatype Service = Service(net: NetAddr, port: nat)

  /** CAddress: what peers tell us about a service. */
  datatype Address = Address(service: Service, services: set<nat>, time: int)

  /** The secret key, represented by the keyed hashes it selects. */
  datatype Key = Key(tried: Service -> nat, fromSource: (Service, NetAddr) -> nat,
                     position: (bool, int, Service) -> nat)

  type Slot = (int, int)

  datatype Info = Info(service: Service, services: set<nat>, time: int, source: NetAddr,
                       lastTry: int, lastCountAttempt: int, lastSuccess: int, attempts: int,
                       refCount: int, inTried: bool, randomPos: int)

  function TriedBucket(key: Key, a: Service): (b: int)
    ensures 0 <= b < TRIED_BUCKET_COUNT
  {
    key.tried(a) % TRIED_BUCKET_COUNT
  }

  function NewBucket(key: Key, a: Service, source: NetAddr): (b: int)
    ensures 0 <= b < NEW_BUCKET_COUNT
  {
    key.fromSource(a, source) % NEW_BUCKET_COUNT
  }

  function Position(key: Key, inNew: bool, bucket: int, a: Service): (p: int)
    ensures 0 <= p < BUCKET_SIZE
  {
    key.position(inNew, bucket, a) % BUCKET_SIZE
  }

  /** The only slot an address can have in the tried table. */
  function TriedSlot(key: Key, a: Service): Slot {
    (TriedBucket(key, a), Position(key, false, TriedBucket(key, a), a))
  }

  /** The only slot an address can have in a given new bucket. */
  function NewSlot(key: Key, a: Service, bucket: int): Slot {
    (bucket, Position(key, true, bucket, a))
  }

  predicate IsTerrible(i: Info, now: int) {
    if i.lastTry != 0 && i.lastTry >= now - 60 then false
    else
      || i.time > now + 10 * 60
      || i.time == 0
      || now - i.time > HORIZON_DAYS * 24 * 60 * 60
      || (i.lastSuccess == 0 && i.attempts >= RETRIES)
      || (now - i.lastSuccess > MIN_FAIL_DAYS * 24 * 60 * 60 && i.attempts >= MAX_FAILURES)
  }

  /** A table slot that holds -1 in the source is absent from the map here. */
  datatype State = State(idCount: int, mapInfo: map<Id, Info>, mapAddr: map<NetAddr, Id>, vRandom: seq<Id>,
                         nTried: int, tried: map<Slot, Id>, nNew: int, news: map<Slot, Id>,
                         lastGood: int, key: Key)

  function Empty(key: Key): State {
    State(0, map[], map[], [], 0, map[], 0, map[], 1, key)
  }

  function NewIds(m: map<Id, Info>): set<Id> {
    set id | id in m && !m[id].inTried
  }

  function TriedIds(m: map<Id, Info>): set<Id> {
    set id | id in m && m[id].inTried
  }

  function SlotsOf(news: map<Slot, Id>, id: Id): set<Slot> {
    set sl | sl in news && news[sl] == id
  }

  ghost predicate AddrIndex(m: map<Id, Info>, mapAddr: map<NetAddr, Id>) {
    && (forall id :: id in m ==> m[id].service.net in mapAddr && mapAddr[m[id].service.net] == id)
    && (forall a :: a in mapAddr ==> mapAddr[a] in m && m[mapAddr[a]].service.net == a)
  }

  ghost predicate RandomIndex(m: map<Id, Info>, vRandom: seq<Id>) {
    && (forall id :: id in m ==> 0 <= m[id].randomPos < |vRandom| && vRandom[m[id].randomPos] == id)
    && (forall i :: 0 <= i < |vRandom| ==> vRandom[i] in m && m[vRandom[i]].randomPos == i)
  }

  ghost predicate NewTable(key: Key, m: map<Id, Info>, news: map<Slot, Id>) {
    forall sl :: sl in news ==>
      && 0 <= sl.0 < NEW_BUCKET_COUNT
      && news[sl] in m && !m[news[sl]].inTried
      && sl == NewSlot(key, m[news[sl]].service, sl.0)
  }

  ghost predicate TriedTable(key: Key, m: map<Id, Info>, tried: map<Slot, Id>) {
    && (forall sl :: sl in tried ==>
          tried[sl] in m && m[tried[sl]].inTried && sl == TriedSlot(key, m[tried[sl]].service))
    && (forall id :: id in m && m[id].inTried ==>
          TriedSlot(key, m[id].service) in tried && tried[TriedSlot(key, m[id].service)] == id)
  }

  /** Reference counts count slots; only ids in `floating` may have none. */
  ghost predicate RefCounts(m: map<Id, Info>, news: map<Slot, Id>, floating: set<Id>) {
    && (forall id :: id in m ==> m[id].refCount == |SlotsOf(news, id)|)
    && (forall id :: id in m ==> m[id].refCount <= NEW_BUCKETS_PER_ADDRESS)
    && (forall id :: id in m && !m[id].inTried && id !in floating ==> m[id].refCount > 0)
    && (forall id :: id in floating ==> id in m && !m[id].inTried && m[id].refCount == 0)
  }

  ghost predicate Times(m: map<Id, Info>) {
    forall id :: id in m ==> m[id].lastTry >= 0 && m[id].lastSuccess >= 0 && (m[id].inTried ==> m[id].lastSuccess != 0)
  }

  /** What holds inside an operation: `floating` entries are in no table, and nNew lags by `lag`. */
  ghost predicate Mid(s: State, floating: set<Id>, lag: int) {
    && 0 <= s.idCount && (forall id :: id in s.mapInfo ==> 0 <= id < s.idCount)
    && AddrIndex(s.mapInfo, s.mapAddr)
    && RandomIndex(s.mapInfo, s.vRandom)
    && NewTable(s.key, s.mapInfo, s.news)
    && TriedTable(s.key, s.mapInfo, s.tried)
    && RefCounts(s.mapInfo, s.news, floating)
    && Times(s.mapInfo)
    && s.nTried == |TriedIds(s.mapInfo)|
    && s.nNew + lag == |NewIds(s.mapInfo)|
  }

  /** The consistency Check_ tests, and what its tests need to be able to hold. */
  ghost predicate Inv(s: State) {
    Mid(s, {}, 0)
  }

  function SetInfo(s: State, id: Id, i: Info): State {
    s.(mapInfo := s.mapInfo[id := i])
  }

  function Create(s: State, a: Address, source: NetAddr): State {
    var id := s.idCount;
    var i := Info(a.service, a.services, a.time, source, 0, 0, 0, 0, 0, false, |s.vRandom|);
    s.(idCount := id + 1,
       mapInfo := s.mapInfo[id := i],
       mapAddr := s.mapAddr[a.service.net := id],
       vRandom := s.vRandom + [id])
  }

  function SwapRandom(s: State, p: nat, q: nat): (r: State)
    requires p == q || (p < |s.vRandom| && q < |s.vRandom| && s.vRandom[p] in s.mapInfo && s.vRandom[q] in s.mapInfo)
    ensures |r.vRandom| == |s.vRandom| && r.mapInfo.Keys == s.mapInfo.Keys
    ensures q < |s.vRandom| && p < |s.vRandom| ==> r.vRandom[q] == s.vRandom[p]
    ensures r == s.(mapInfo := r.mapInfo, vRandom := r.vRandom)
  {
    if p == q then s
    else
      var id1, id2 := s.vRandom[p], s.vRandom[q];
      var m1 := s.mapInfo[id1 := s.mapInfo[id1].(randomPos := q)];
      var m2 := m1[id2 := m1[id2].(randomPos := p)];
      s.(mapInfo := m2, vRandom := s.vRandom[p := id2][q := id1])
  }

  predicate Deletable(s: State, id: Id) {
    && id in s.mapInfo && !s.mapInfo[id].inTried && s.mapInfo[id].refCount == 0
    && 0 <= s.mapInfo[id].randomPos < |s.vRandom|
    && s.vRandom[s.mapInfo[id].randomPos] in s.mapInfo
    && s.vRandom[|s.vRandom| - 1] in s.mapInfo
  }

  function Delete(s: State, id: Id): State
    requires Deletable(s, id)
  {
    DropLast(SwapRandom(s, s.mapInfo[id].randomPos, |s.vRandom| - 1), id)
  }

  /** Forget entry id, which stands last in vRandom. */
  function DropLast(s: State, id: Id): State
    requires id in s.mapInfo && |s.vRandom| > 0
  {
    s.(vRandom := s.vRandom[..|s.vRandom| - 1],
       mapAddr := s.mapAddr - {s.mapInfo[id].service.net},
       mapInfo := s.mapInfo - {id},
       nNew := s.nNew - 1)
  }

  /** Slot sl loses its occupant, which loses one reference. */
  function Dropped(s: State, sl: Slot): State
    requires sl in s.news && s.news[sl] in s.mapInfo
  {
    var id := s.news[sl];
    SetInfo(s, id, s.mapInfo[id].(refCount := s.mapInfo[id].refCount - 1)).(news := s.news - {sl})
  }

  predicate Clearable(s: State, sl: Slot) {
    sl in s.news ==>
      && s.news[sl] in s.mapInfo && s.mapInfo[s.news[sl]].refCount > 0
      && (s.mapInfo[s.news[sl]].refCount == 1 ==> Deletable(Dropped(s, sl), s.news[sl]))
  }

  /** Empty slot sl of the new table; an entry without references left is deleted. */
  function ClearNew(s: State, sl: Slot): State
    requires Clearable(s, sl)
  {
    if sl !in s.news then s
    else
      var id := s.news[sl];
      if s.mapInfo[id].refCount == 1 then Delete(Dropped(s, sl), id) else Dropped(s, sl)
  }

  /** Remove an entry from all new buckets (the loop at the head of MakeTried). */
  function Unlisted(s: State, id: Id): State
    requires id in s.mapInfo
  {
    SetInfo(s, id, s.mapInfo[id].(refCount := s.mapInfo[id].refCount - |SlotsOf(s.news, id)|))
      .(news := s.news - SlotsOf(s.news, id), nNew := s.nNew - 1)
  }

  /** The occupant of tried slot sl leaves the tried table. */
  function Evicted(s: State, sl: Slot): State
    requires sl in s.tried && s.tried[sl] in s.mapInfo
  {
    var id := s.tried[sl];
    SetInfo(s, id, s.mapInfo[id].(inTried := false)).(tried := s.tried - {sl}, nTried := s.nTried - 1)
  }

  /** Where an evicted entry goes back to in the new table: its primary source decides. */
  function HomeSlot(key: Key, i: Info): Slot {
    NewSlot(key, i.service, NewBucket(key, i.service, i.source))
  }

  predicate Evictable(s: State, sl: Slot) {
    sl in s.tried ==>
      && s.tried[sl] in s.mapInfo
      && var e := Evicted(s, sl);
         var home := HomeSlot(s.key, s.mapInfo[s.tried[sl]]);
         Clearable(e, home) && s.tried[sl] in ClearNew(e, home).mapInfo
  }

  /** Make room in tried slot sl: its occupant moves back to the new table. */
  function MakeRoom(s: State, sl: Slot): State
    requires Evictable(s, sl)
  {
    if sl !in s.tried then s
    else
      var id := s.tried[sl];
      var home := HomeSlot(s.key, s.mapInfo[id]);
      var c := ClearNew(Evicted(s, sl), home);
      SetInfo(c, id, c.mapInfo[id].(refCount := 1)).(news := c.news[home := id], nNew := c.nNew + 1)
  }

  predicate Triable(s: State, id: Id) {
    && id in s.mapInfo
    && Unlisted(s, id).mapInfo[id].refCount == 0
    && var sl := TriedSlot(s.key, s.mapInfo[id].service);
       && Evictable(Unlisted(s, id), sl)
       && id in MakeRoom(Unlisted(s, id), sl).mapInfo && sl !in MakeRoom(Unlisted(s, id), sl).tried
  }

  function MakeTried(s: State, id: Id): State
    requires Triable(s, id)
  {
    var sl := TriedSlot(s.key, s.mapInfo[id].service);
    var r := MakeRoom(Unlisted(s, id), sl);
    SetInfo(r, id, r.mapInfo[id].(inTried := true)).(tried := r.tried[sl := id], nTried := r.nTried + 1)
  }

  /** Slot sl, which is free, is given to entry id. */
  function Placed(s: State, sl: Slot, id: Id): State
    requires id in s.mapInfo
  {
    SetInfo(s, id, s.mapInfo[id].(refCount := s.mapInfo[id].refCount + 1)).(news := s.news[sl := id])
  }

  predicate Found(s: State, net: NetAddr) {
    net in s.mapAddr && s.mapAddr[net] in s.mapInfo
  }

  /** The exact service (port included) is stored. */
  predicate Known(s: State, a: Service) {
    Found(s, a.net) && s.mapInfo[s.mapAddr[a.net]].service == a
  }

  /** Some new bucket holds id where a search through the buckets looks for it. */
  predicate InSomeBucket(s: State, id: Id)
    requires id in s.mapInfo
  {
    exists b :: 0 <= b < NEW_BUCKET_COUNT && HoldsAt(s, id, b)
  }

  predicate HoldsAt(s: State, id: Id, b: int)
    requires id in s.mapInfo
  {
    var sl := NewSlot(s.key, s.mapInfo[id].service, b);
    sl in s.news && s.news[sl] == id
  }

  function Succeeded(i: Info, time: int): Info {
    i.(lastSuccess := time, lastTry := time, attempts := 0)
  }

  predicate GoodOk(s: State, a: Service, time: int) {
    Known(s, a) && !s.mapInfo[s.mapAddr[a.net]].inTried ==>
      var id := s.mapAddr[a.net];
      Triable(SetInfo(s.(lastGood := time), id, Succeeded(s.mapInfo[id], time)), id)
  }

  /** Good_: the last branch but one is the "something bad happened" bail-out. */
  function Good(s: State, a: Service, time: int): State
    requires GoodOk(s, a, time)
  {
    var s0 := s.(lastGood := time);
    if !Known(s, a) then s0
    else
      var id := s.mapAddr[a.net];
      var s1 := SetInfo(s0, id, Succeeded(s.mapInfo[id], time));
      if s.mapInfo[id].inTried then s1
      else if !InSomeBucket(s, id) then s1
      else MakeTried(s1, id)
  }

  function Max(a: int, b: int): int { if a < b then b else a }

  /** nTime and nServices of an entry that is announced again. */
  function Refreshed(i: Info, a: Address, penalty: int, now: int): Info {
    var interval := if now - a.time < 24 * 60 * 60 then 60 * 60 else 24 * 60 * 60;
    var newer := a.time != 0 && (i.time == 0 || i.time < a.time - interval - penalty);
    i.(time := if newer then Max(0, a.time - penalty) else i.time,
       services := i.services + a.services)
  }

  /** Whether entry id may take slot sl from whoever holds it. */
  predicate MayTake(s: State, sl: Slot, id: Id, now: int)
    requires id in s.mapInfo
    requires sl in s.news ==> s.news[sl] in s.mapInfo
  {
    sl in s.news ==>
      IsTerrible(s.mapInfo[s.news[sl]], now) || (s.mapInfo[s.news[sl]].refCount > 1 && s.mapInfo[id].refCount == 0)
  }

  predicate Listable(s: State, id: Id, source: NetAddr, now: int) {
    && id in s.mapInfo
    && var sl := NewSlot(s.key, s.mapInfo[id].service, NewBucket(s.key, s.mapInfo[id].service, source));
       if sl in s.news && s.news[sl] == id then true
       else
         && (sl in s.news ==> s.news[sl] in s.mapInfo)
         && if MayTake(s, sl, id, now) then Clearable(s, sl) && id in ClearNew(s, sl).mapInfo
            else s.mapInfo[id].refCount == 0 ==> Deletable(s, id)
  }

  /** The tail of Add_: list entry id in the bucket its source selects, or drop it if it got no slot at all. */
  function List(s: State, id: Id, source: NetAddr, now: int): State
    requires Listable(s, id, source, now)
  {
    var sl := NewSlot(s.key, s.mapInfo[id].service, NewBucket(s.key, s.mapInfo[id].service, source));
    if sl in s.news && s.news[sl] == id then s
    else if MayTake(s, sl, id, now) then Placed(ClearNew(s, sl), sl, id)
    else if s.mapInfo[id].refCount == 0 then Delete(s, id)
    else s
  }

  /** A brand new entry, counted in nNew. */
  function Announced(s: State, a: Address, source: NetAddr, penalty: int): State {
    var c := Create(s, a, source);
    var i := c.mapInfo[s.idCount];
    SetInfo(c, s.idCount, i.(time := Max(0, i.time - penalty))).(nNew := c.nNew + 1)
  }

  /** An announcement that tells nothing new, or may not add a reference. */
  predicate NoNews(i: Info, a: Address, rnd: nat) {
    || a.time == 0 || (i.time != 0 && a.time <= i.time)
    || i.inTried
    || i.refCount == NEW_BUCKETS_PER_ADDRESS
    || (i.refCount > 0 && rnd % Powers.Pow2(i.refCount) != 0)
  }

  function Penalty(a: Address, source: NetAddr, penalty: int): int {
    if a.service.net == source then 0 else penalty
  }

  predicate AddOk(s: State, a: Address, source: NetAddr, penalty: int, routable: bool, now: int, rnd: nat) {
    routable ==>
      if Found(s, a.service.net) then
        var id := s.mapAddr[a.service.net];
        var r := SetInfo(s, id, Refreshed(s.mapInfo[id], a, Penalty(a, source, penalty), now));
        NoNews(r.mapInfo[id], a, rnd) || Listable(r, id, source, now)
      else Listable(Announced(s, a, source, Penalty(a, source, penalty)), s.idCount, source, now)
  }

  /** Add_, with the answer it gives. `rnd` is what RandomInt draws from. */
  function Add(s: State, a: Address, source: NetAddr, penalty: int, routable: bool, now: int, rnd: nat): (State, bool)
    requires AddOk(s, a, source, penalty, routable, now, rnd)
  {
    if !routable then (s, false)
    else if Found(s, a.service.net) then
      var id := s.mapAddr[a.service.net];
      var r := SetInfo(s, id, Refreshed(s.mapInfo[id], a, Penalty(a, source, penalty), now));
      (if NoNews(r.mapInfo[id], a, rnd) then r else List(r, id, source, now), false)
    else (List(Announced(s, a, source, Penalty(a, source, penalty)), s.idCount, source, now), true)
  }

  function Attempt(s: State, a: Service, countFailure: bool, time: int): State {
    if !Known(s, a) then s
    else
      var id := s.mapAddr[a.net];
      var i := s.mapInfo[id].(lastTry := time);
      SetInfo(s, id, if countFailure && i.lastCountAttempt < s.lastGood
                     then i.(lastCountAttempt := time, attempts := i.attempts + 1) else i)
  }

  function Connected(s: State, a: Service, time: int): State {
    if !Known(s, a) then s
    else
      var id := s.mapAddr[a.net];
      if time - s.mapInfo[id].time > 20 * 60 then SetInfo(s, id, s.mapInfo[id].(time := time)) else s
  }

  function SetServices(s: State, a: Service, services: set<nat>): State {
    if !Known(s, a) then s
    else SetInfo(s, s.mapAddr[a.net], s.mapInfo[s.mapAddr[a.net]].(services := services))
  }

  function ToAddress(i: Info): Address {
    Address(i.service, i.services, i.time)
  }

  function GetAddrLimit(size: nat): nat {
    var n := GETADDR_MAX_PCT * size / 100;
    if n > GETADDR_MAX then GETADDR_MAX else n
  }

  predicate Listed(s: State) {
    forall i :: 0 <= i < |s.vRandom| ==> s.vRandom[i] in s.mapInfo
  }

  /** A random position from n on. */
  function Draw(rand: nat -> nat, n: nat, size: nat): (p: nat)
    requires n < size
    ensures n <= p < size
  {
    rand(n) % (size - n) + n
  }

  /** GetAddr_'s loop from position n on; rand(n) is the n-th draw of RandomInt. */
  function GetAddrFrom(s: State, n: nat, acc: seq<Address>, limit: nat, rand: nat -> nat, now: int): (State,
                       seq<Address>)
    requires Listed(s) && n <= |s.vRandom|
    decreases |s.vRandom| - n
  {
    if n == |s.vRandom| || |acc| >= limit then (s, acc)
    else
      var r := SwapRandom(s, n, Draw(rand, n, |s.vRandom|));
      GetAddrFrom(r, n + 1, PickNext(acc, r.mapInfo[r.vRandom[n]], now), limit, rand, now)
  }

  function PickNext(acc: seq<Address>, i: Info, now: int): seq<Address> {
    if IsTerrible(i, now) then acc else acc + [ToAddress(i)]
  }

  datatype Op =
    | Adding(a: Address, source: NetAddr, penalty: int, routable: bool, now: int, rnd: nat)
    | MarkingGood(good: Service, goodTime: int)
    | Attempting(tried: Service, countFailure: bool, tryTime: int)
    | Connecting(peer: Service, peerTime: int)
    | SettingServices(serving: Service, services: set<nat>)
    | Sampling(rand: nat -> nat, sampleNow: int)

  predicate PositiveTimes(op: Op) {
    match op
    case MarkingGood(_, t) => t > 0
    case Attempting(_, _, t) => t > 0
    case _ => true
  }

  /** The asserts along the operation hold. */
  predicate OpOk(s: State, op: Op) {
    match op
    case Adding(a, source, penalty, routable, now, rnd) => AddOk(s, a, source, penalty, routable, now, rnd)
    case MarkingGood(a, t) => GoodOk(s, a, t)
    case Sampling(_, _) => Listed(s)
    case _ => true
  }

  function Step(s: State, op: Op): State
    requires OpOk(s, op)
  {
    match op
    case Adding(a, source, penalty, routable, now, rnd) => Add(s, a, source, penalty, routable, now, rnd).0
    case MarkingGood(a, t) => Good(s, a, t)
    case Attempting(a, c, t) => Attempt(s, a, c, t)
    case Connecting(a, t) => Connected(s, a, t)
    case SettingServices(a, v) => SetServices(s, a, v)
    case Sampling(rand, now) => GetAddrFrom(s, 0, [], GetAddrLimit(|s.vRandom|), rand, now).0
  }

  /** The asserts hold all along the run. */
  predicate RunOk(s: State, ops: seq<Op>)
    decreases |ops|
  {
    |ops| > 0 ==> OpOk(s, ops[0]) && RunOk(Step(s, ops[0]), ops[1..])
  }

  function Run(s: State, ops: seq<Op>): State
    requires RunOk(s, ops)
    decreases |ops|
  {
    if |ops| == 0 then s else Run(Step(s, ops[0]), ops[1..])
  }

  /** Slot sl comes before (n, i) in the order in which loops over a table visit the slots. */
  predicate Visited(sl: Slot, n: int, i: int) {
    sl.0 < n || (sl.0 == n && sl.1 < i)
  }
}
