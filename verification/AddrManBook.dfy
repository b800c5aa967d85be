/** The five indexes of the address manager together behave like one book: a map from network addresses to cards,
    each with the slots of the new table it is listed in. No ids, no reference counts, no random order. */
module AddrManBook {
  import opened AddrMan
  import opened AddrManInvariant
  import opened AddrManHistory
  import opened AddrManStream
  import opened AddrManRoundTrip
  import opened Options
  import Powers
  import Sets

  datatype Card = Card(service: Service, services: set<nat>, time: int, source: NetAddr,
                       lastTry: int, lastCountAttempt: int, lastSuccess: int, attempts: int,
                       tried: bool, slots: set<Slot>)

  type Cards = map<NetAddr, Card>

  datatype Book = Book(cards: Cards, lastGood: int)

  // ---------------------------------------------------------------- the operations on a book

  /** Nobody would miss this address: it was not tried within the last minute, and its time is unset, ten minutes
      ahead or thirty days old, or it failed three times and never answered, or ten times and not within a week. */
  predicate Hopeless(c: Card, now: int) {
    && (c.lastTry == 0 || c.lastTry + 60 < now)
    && (|| c.time == 0 || c.time > now + 600 || c.time + 2_592_000 < now
        || (c.attempts >= 3 && c.lastSuccess == 0)
        || (c.attempts >= 10 && c.lastSuccess + 604_800 < now))
  }

  /** A slot is taken away from whoever has it, and with the last slot the address is forgotten. */
  function Released(b: Cards, sl: Slot): Cards {
    map net | net in b && b[net].slots != {sl} :: b[net].(slots := b[net].slots - {sl})
  }

  /** A slot can be had: it is free, or its owner is hopeless, or, for one that needs it, is listed elsewhere too. */
  predicate Yields(b: Cards, sl: Slot, needy: bool, now: int) {
    forall net :: net in b && sl in b[net].slots ==> Hopeless(b[net], now) || (needy && |b[net].slots| > 1)
  }

  /** What an announcement makes of a card: its services are added, and its time replaces an unset one or one that
      is older by more than the penalty and an hour, or a day if the address has not been online for a day. */
  function Told(c: Card, a: Address, penalty: int, now: int): Card {
    var window := if a.time > now - 86_400 then 3_600 else 86_400;
    c.(services := c.services + a.services,
       time := if a.time == 0 || (c.time != 0 && c.time + penalty + window >= a.time) then c.time
               else if a.time > penalty then a.time - penalty else 0)
  }

  /** An announcement earns a card another slot: it is news, and wins against odds of one in 2^slots. */
  predicate EarnsSlot(c: Card, a: Address, rnd: nat) {
    && a.time != 0 && (c.time == 0 || c.time < a.time)
    && !c.tried && |c.slots| < 8 && rnd % Powers.Pow2(|c.slots|) == 0
  }

  /** The slot of the new table that a source selects for a service: one of 64 in one of 1024 buckets. */
  function SlotFrom(key: Key, a: Service, source: NetAddr): Slot {
    var bucket := key.fromSource(a, source) % 1024;
    (bucket, key.position(true, bucket, a) % 64)
  }

  /** The slot of a service in the tried table: one of 64 in one of 256 buckets. */
  function TriedPlace(key: Key, a: Service): Slot {
    var bucket := key.tried(a) % 256;
    (bucket, key.position(false, bucket, a) % 64)
  }

  function Announce(b: Cards, key: Key, a: Address, source: NetAddr, penalty: int, now: int, rnd: nat): Cards {
    var net := a.service.net;
    var late := if source == net then 0 else penalty;
    if net !in b then
      var sl := SlotFrom(key, a.service, source);
      var time := if a.time > late then a.time - late else 0;
      if !Yields(b, sl, true, now) then b
      else Released(b, sl)[net := Card(a.service, a.services, time, source, 0, 0, 0, 0, false, {sl})]
    else
      var c := Told(b[net], a, late, now);
      var sl := SlotFrom(key, c.service, source);
      var told := b[net := c];
      if !EarnsSlot(c, a, rnd) || sl in c.slots || !Yields(told, sl, false, now) then told
      else Released(told, sl)[net := c.(slots := c.slots + {sl})]
  }

  /** The address is on record under just this port. */
  predicate Has(b: Cards, a: Service) {
    a.net in b && b[a.net].service == a
  }

  /** Who has the tried slot of this service. */
  function Rivals(b: Cards, key: Key, a: Service): set<NetAddr> {
    set net | net in b && b[net].tried && TriedPlace(key, b[net].service) == TriedPlace(key, a)
  }

  /** A success. An address that was new moves to the tried table; a rival there goes back to the new table, to the
      slot its source selects. */
  ghost function Succeed(b: Cards, key: Key, a: Service, time: int): Cards {
    if !Has(b, a) then b
    else
      var c := b[a.net].(lastSuccess := time, lastTry := time, attempts := 0);
      if c.tried then b[a.net := c]
      else
        var moved := b[a.net := c.(tried := true, slots := {})];
        if Rivals(b, key, a) == {} then moved
        else
          Sets.Inhabited(Rivals(b, key, a));
          var rival :| rival in Rivals(b, key, a);
          var home := SlotFrom(key, b[rival].service, b[rival].source);
          Released(moved, home)[rival := b[rival].(tried := false, slots := {home})]
  }

  /** A failure counts once until some peer answers again. */
  function Fail(b: Cards, a: Service, countFailure: bool, time: int, lastGood: int): Cards {
    if !Has(b, a) then b
    else
      var counts := countFailure && b[a.net].lastCountAttempt < lastGood;
      b[a.net := b[a.net].(lastTry := time,
                           lastCountAttempt := if counts then time else b[a.net].lastCountAttempt,
                           attempts := b[a.net].attempts + if counts then 1 else 0)]
  }

  function Contact(b: Cards, a: Service, time: int): Cards {
    if Has(b, a) && b[a.net].time < time - 1_200 then b[a.net := b[a.net].(time := time)] else b
  }

  function Serve(b: Cards, a: Service, services: set<nat>): Cards {
    if Has(b, a) then b[a.net := b[a.net].(services := services)] else b
  }

  ghost function BookStep(b: Book, key: Key, op: Op): Book {
    match op
    case Adding(a, source, penalty, routable, now, rnd) =>
      if routable then b.(cards := Announce(b.cards, key, a, source, penalty, now, rnd)) else b
    case MarkingGood(a, t) => Book(Succeed(b.cards, key, a, t), t)
    case Attempting(a, c, t) => b.(cards := Fail(b.cards, a, c, t, b.lastGood))
    case Connecting(a, t) => b.(cards := Contact(b.cards, a, t))
    case SettingServices(a, v) => b.(cards := Serve(b.cards, a, v))
    case Sampling(_, _) => b
  }

  ghost function BookRun(b: Book, key: Key, ops: seq<Op>): Book
    decreases |ops|
  {
    if |ops| == 0 then b else BookRun(BookStep(b, key, ops[0]), key, ops[1..])
  }

  // ---------------------------------------------------------------- the book of a manager

  function CardOf(i: Info, slots: set<Slot>): Card {
    Card(i.service, i.services, i.time, i.source, i.lastTry, i.lastCountAttempt, i.lastSuccess, i.attempts, i.inTried,
         slots)
  }

  function CardFor(s: State, id: Id): Card
    requires id in s.mapInfo
  {
    CardOf(s.mapInfo[id], SlotsOf(s.news, id))
  }

  function CardsOf(s: State): Cards {
    map net | net in s.mapAddr && s.mapAddr[net] in s.mapInfo :: CardFor(s, s.mapAddr[net])
  }

  function BookOf(s: State): Book {
    Book(CardsOf(s), s.lastGood)
  }

  lemma Terrible(i: Info, slots: set<Slot>, now: int)
    ensures IsTerrible(i, now) <==> Hopeless(CardOf(i, slots), now)
  {
  }

  lemma InvMid(s: State)
    requires Inv(s)
    ensures Mid(s, {}, 0)
  {
  }

  lemma AddrIndexOf(s: State, floating: set<Id>, lag: int)
    requires Mid(s, floating, lag)
    ensures AddrIndex(s.mapInfo, s.mapAddr)
  {
  }

  lemma ByAddress(s: State, net: NetAddr)
    requires AddrIndex(s.mapInfo, s.mapAddr)
    ensures net in CardsOf(s) <==> net in s.mapAddr
    ensures net in s.mapAddr ==> Found(s, net) && CardsOf(s)[net] == CardFor(s, s.mapAddr[net])
  {
    hide CardFor;
  }

  /** What the book of a manager is, entry by entry. */
  lemma ById(s: State, id: Id)
    requires AddrIndex(s.mapInfo, s.mapAddr) && id in s.mapInfo
    ensures var net := s.mapInfo[id].service.net;
            net in CardsOf(s) && s.mapAddr[net] == id && CardsOf(s)[net] == CardFor(s, id)
  {
    hide CardFor;
  }

  lemma MakeCards(s: State, b: Cards)
    requires AddrIndex(s.mapInfo, s.mapAddr) && b.Keys == s.mapAddr.Keys
    requires forall id :: id in s.mapInfo ==>
               s.mapInfo[id].service.net in b && b[s.mapInfo[id].service.net] == CardFor(s, id)
    ensures CardsOf(s) == b
  {
    hide CardFor, AddrIndex;
    forall net ensures net in CardsOf(s) <==> net in b {
      ByAddress(s, net);
    }
    forall net | net in b ensures net in CardsOf(s) && CardsOf(s)[net] == b[net] {
      ByAddress(s, net);
      var id: Id := s.mapAddr[net];
      Stored(s, net);
      assert s.mapInfo[id].service.net == net;
    }
  }

  lemma Stored(s: State, net: NetAddr)
    requires AddrIndex(s.mapInfo, s.mapAddr) && net in s.mapAddr
    ensures s.mapAddr[net] in s.mapInfo && s.mapInfo[s.mapAddr[net]].service.net == net
  {
  }

  /** At most one entry changes. */
  lemma OneCard(s: State, r: State, id: Id)
    requires AddrIndex(s.mapInfo, s.mapAddr) && id in s.mapInfo && r.mapAddr == s.mapAddr
    requires r.mapInfo.Keys == s.mapInfo.Keys && r.mapInfo[id].service == s.mapInfo[id].service
    requires forall j :: j in s.mapInfo && j != id ==> CardFor(r, j) == CardFor(s, j)
    ensures AddrIndex(r.mapInfo, r.mapAddr) && CardsOf(r) == CardsOf(s)[s.mapInfo[id].service.net := CardFor(r, id)]
  {
    forall j | j in s.mapInfo ensures r.mapInfo[j].service == s.mapInfo[j].service {
      if j != id {
        assert CardFor(r, j) == CardFor(s, j);
      }
    }
    assert AddrIndex(r.mapInfo, r.mapAddr);
    hide CardFor;
    var b := CardsOf(s)[s.mapInfo[id].service.net := CardFor(r, id)];
    forall j | j in r.mapInfo ensures r.mapInfo[j].service.net in b && b[r.mapInfo[j].service.net] == CardFor(r, j) {
      ById(s, j);
      ById(s, id);
    }
    forall net ensures net in b <==> net in r.mapAddr {
      ByAddress(s, net);
    }
    MakeCards(r, b);
  }

  lemma SameCards(s: State, r: State)
    requires AddrIndex(s.mapInfo, s.mapAddr) && r.mapAddr == s.mapAddr && r.news == s.news
    requires SameButRandom(s.mapInfo, r.mapInfo)
    ensures CardsOf(r) == CardsOf(s)
  {
    forall net | net in s.mapAddr ensures CardFor(r, s.mapAddr[net]) == CardFor(s, s.mapAddr[net]) {
      var id: Id := s.mapAddr[net];
      assert r.mapInfo[id].(randomPos := s.mapInfo[id].randomPos) == s.mapInfo[id];
    }
  }

  lemma UpdateCards(s: State, id: Id, i: Info)
    requires AddrIndex(s.mapInfo, s.mapAddr) && id in s.mapInfo && i.service == s.mapInfo[id].service
    ensures CardsOf(SetInfo(s, id, i)) == CardsOf(s)[i.service.net := CardOf(i, SlotsOf(s.news, id))]
  {
    hide AddrIndex;
    OneCard(s, SetInfo(s, id, i), id);
  }

  /** An entry goes. */
  lemma LessCard(s: State, r: State, id: Id)
    requires AddrIndex(s.mapInfo, s.mapAddr) && AddrIndex(r.mapInfo, r.mapAddr) && id in s.mapInfo
    requires r.mapAddr == s.mapAddr - {s.mapInfo[id].service.net} && r.news == s.news
    requires SameButRandom(s.mapInfo - {id}, r.mapInfo)
    ensures CardsOf(r) == CardsOf(s) - {s.mapInfo[id].service.net}
  {
    forall j | j in r.mapInfo
      ensures j in s.mapInfo && j != id && r.mapInfo[j].service == s.mapInfo[j].service
      ensures CardFor(r, j) == CardFor(s, j)
    {
      assert j in s.mapInfo - {id};
      assert r.mapInfo[j].(randomPos := s.mapInfo[j].randomPos) == s.mapInfo[j];
    }
    hide CardFor, SameButRandom;
    var b := CardsOf(s) - {s.mapInfo[id].service.net};
    forall j | j in r.mapInfo ensures r.mapInfo[j].service.net in b && b[r.mapInfo[j].service.net] == CardFor(r, j) {
      ById(s, j);
      ById(s, id);
    }
    forall net ensures net in b <==> net in r.mapAddr {
      ByAddress(s, net);
    }
    MakeCards(r, b);
  }

  lemma DeleteCards(s: State, id: Id, floating: set<Id>, lag: int)
    requires Mid(s, floating, lag) && id in floating
    ensures Deletable(s, id) && id in s.mapInfo
    ensures CardsOf(Delete(s, id)) == CardsOf(s) - {s.mapInfo[id].service.net}
  {
    hide Mid, SwapRandom, SameButRandom;
    DeleteMid(s, id, floating, lag);
    AddrIndexOf(s, floating, lag);
    AddrIndexOf(Delete(s, id), floating - {id}, lag);
    SwappedService(s, id, floating, lag);
    hide AddrIndex;
    LessCard(s, Delete(s, id), id);
  }

  lemma SwappedService(s: State, id: Id, floating: set<Id>, lag: int)
    requires Mid(s, floating, lag) && Deletable(s, id)
    ensures var r := SwapRandom(s, s.mapInfo[id].randomPos, |s.vRandom| - 1);
            id in r.mapInfo && r.mapInfo[id].service == s.mapInfo[id].service
  {
    hide *;
    MidRandom(s, floating, lag);
    DeletableIs(s, id);
    SwapRandomIndex(s, s.mapInfo[id].randomPos, |s.vRandom| - 1);
    SameAt(s.mapInfo, SwapRandom(s, s.mapInfo[id].randomPos, |s.vRandom| - 1).mapInfo, id);
  }

  lemma MidRandom(s: State, floating: set<Id>, lag: int)
    requires Mid(s, floating, lag)
    ensures RandomIndex(s.mapInfo, s.vRandom)
  {
  }

  lemma DeletableIs(s: State, id: Id)
    requires Deletable(s, id)
    ensures id in s.mapInfo && 0 <= s.mapInfo[id].randomPos < |s.vRandom|
    ensures s.vRandom[s.mapInfo[id].randomPos] in s.mapInfo && s.vRandom[|s.vRandom| - 1] in s.mapInfo
  {
  }

  // ---------------------------------------------------------------- slots

  lemma HolderIs(s: State, sl: Slot, net: NetAddr)
    requires AddrIndex(s.mapInfo, s.mapAddr) && net in CardsOf(s)
    ensures net in s.mapAddr && (sl in CardsOf(s)[net].slots <==> sl in s.news && s.news[sl] == s.mapAddr[net])
  {
    ByAddress(s, net);
    hide AddrIndex;
  }

  lemma ReleasedNone(b: Cards, sl: Slot)
    requires forall net :: net in b ==> sl !in b[net].slots
    ensures Released(b, sl) == b
  {
    forall net | net in b ensures b[net].slots != {sl} && b[net].slots - {sl} == b[net].slots {
      assert sl !in b[net].slots;
    }
  }

  lemma ReleasedOne(b: Cards, sl: Slot, net: NetAddr)
    requires net in b && sl in b[net].slots && forall n :: n in b && n != net ==> sl !in b[n].slots
    ensures Released(b, sl) ==
              if b[net].slots == {sl} then b - {net} else b[net := b[net].(slots := b[net].slots - {sl})]
  {
    forall n | n in b && n != net ensures b[n].slots != {sl} && b[n].slots - {sl} == b[n].slots {
      assert sl !in b[n].slots;
    }
  }

  /** The holder of a slot loses it, and nobody else loses anything. */
  lemma DroppedCards(s: State, sl: Slot, floating: set<Id>, lag: int)
    requires Mid(s, floating, lag) && sl in s.news
    ensures s.news[sl] in s.mapInfo
    ensures var id := s.news[sl];
            CardsOf(Dropped(s, sl)) == CardsOf(s)[s.mapInfo[id].service.net :=
              CardOf(s.mapInfo[id], SlotsOf(s.news, id) - {sl})]
  {
    hide *;
    OccupantHasRefs(s, sl, floating, lag);
    AddrIndexOf(s, floating, lag);
    DroppedParts(s, sl);
    var id: Id := s.news[sl];
    var r := Dropped(s, sl);
    SlotsRemoved(s.news, {sl}, id);
    CardForIs(r, id);
    forall j | j in s.mapInfo && j != id ensures CardFor(r, j) == CardFor(s, j) {
      SlotsRemoved(s.news, {sl}, j);
      OtherSlots(s, sl, j);
      CardForIs(s, j);
      CardForIs(r, j);
    }
    OneCard(s, r, id);
  }

  lemma DroppedParts(s: State, sl: Slot)
    requires sl in s.news && s.news[sl] in s.mapInfo
    ensures var id, r := s.news[sl], Dropped(s, sl);
            && r.mapInfo == s.mapInfo[id := r.mapInfo[id]] && r.mapAddr == s.mapAddr && r.news == s.news - {sl}
            && r.mapInfo[id].service == s.mapInfo[id].service
            && forall slots :: CardOf(r.mapInfo[id], slots) == CardOf(s.mapInfo[id], slots)
  {
  }

  lemma OtherSlots(s: State, sl: Slot, j: Id)
    requires sl in s.news ==> s.news[sl] != j
    ensures SlotsOf(s.news, j) - {sl} == SlotsOf(s.news, j)
  {
  }

  lemma OnlySlot(s: State, sl: Slot, floating: set<Id>, lag: int)
    requires Mid(s, floating, lag) && sl in s.news && s.news[sl] in s.mapInfo
    ensures s.mapInfo[s.news[sl]].refCount == |SlotsOf(s.news, s.news[sl])|
    ensures s.mapInfo[s.news[sl]].refCount == 1 <==> SlotsOf(s.news, s.news[sl]) == {sl}
  {
    var id: Id := s.news[sl];
    assert s.mapInfo[id].refCount == |SlotsOf(s.news, id)|;
    hide Mid;
    assert sl in SlotsOf(s.news, id);
    assert |SlotsOf(s.news, id) - {sl}| == |SlotsOf(s.news, id)| - 1;
  }

  /** A free slot. */
  lemma FreeReleased(s: State, sl: Slot)
    requires AddrIndex(s.mapInfo, s.mapAddr) && sl !in s.news
    ensures Released(CardsOf(s), sl) == CardsOf(s) && forall net :: net in CardsOf(s) ==> sl !in CardsOf(s)[net].slots
  {
    hide AddrIndex, CardsOf, Released;
    forall net | net in CardsOf(s) ensures sl !in CardsOf(s)[net].slots {
      HolderIs(s, sl, net);
    }
    ReleasedNone(CardsOf(s), sl);
  }

  /** A slot has one holder. */
  lemma OneHolder(s: State, sl: Slot, n: NetAddr)
    requires AddrIndex(s.mapInfo, s.mapAddr) && sl in s.news && s.news[sl] in s.mapInfo && n in CardsOf(s)
    ensures sl in CardsOf(s)[n].slots <==> n == s.mapInfo[s.news[sl]].service.net
  {
    hide CardsOf;
    HolderIs(s, sl, n);
    Stored(s, n);
    ById(s, s.news[sl]);
  }

  lemma HeldReleased(s: State, sl: Slot, floating: set<Id>, lag: int)
    requires Mid(s, floating, lag) && sl in s.news
    ensures s.news[sl] in s.mapInfo
    ensures var id := s.news[sl];
            Released(CardsOf(s), sl) == if s.mapInfo[id].refCount == 1 then CardsOf(s) - {s.mapInfo[id].service.net}
                                        else CardsOf(Dropped(s, sl))
  {
    hide *;
    OccupantHasRefs(s, sl, floating, lag);
    AddrIndexOf(s, floating, lag);
    OnlySlot(s, sl, floating, lag);
    DroppedCards(s, sl, floating, lag);
    var id: Id := s.news[sl];
    ById(s, id);
    CardForIs(s, id);
    forall n | n in CardsOf(s) ensures sl in CardsOf(s)[n].slots <==> n == s.mapInfo[id].service.net {
      OneHolder(s, sl, n);
    }
    ReleasedOne(CardsOf(s), sl, s.mapInfo[id].service.net);
  }

  lemma CardForIs(s: State, id: Id)
    requires id in s.mapInfo
    ensures CardFor(s, id) == CardOf(s.mapInfo[id], SlotsOf(s.news, id)) && CardFor(s, id).slots == SlotsOf(s.news, id)
    ensures forall slots :: CardFor(s, id).(slots := slots) == CardOf(s.mapInfo[id], slots)
    ensures CardFor(s, id).tried == s.mapInfo[id].inTried && CardFor(s, id).service == s.mapInfo[id].service
  {
  }

  /** Emptying a slot of the new table is releasing it in the book. */
  lemma ClearCards(s: State, sl: Slot, floating: set<Id>, lag: int)
    requires Mid(s, floating, lag)
    ensures Clearable(s, sl) && CardsOf(ClearNew(s, sl)) == Released(CardsOf(s), sl)
  {
    hide *;
    ClearNewMid(s, sl, floating, lag);
    AddrIndexOf(s, floating, lag);
    ClearNewIs(s, sl);
    if sl !in s.news {
      FreeReleased(s, sl);
    } else {
      HeldReleased(s, sl, floating, lag);
      if s.mapInfo[s.news[sl]].refCount == 1 {
        DroppedMid(s, sl, floating, lag);
        DeleteCards(Dropped(s, sl), s.news[sl], floating + {s.news[sl]}, lag);
        DroppedCards(s, sl, floating, lag);
      }
    }
  }

  lemma ClearNewIs(s: State, sl: Slot)
    requires Clearable(s, sl)
    ensures sl !in s.news ==> ClearNew(s, sl) == s
    ensures sl in s.news ==>
              && s.news[sl] in s.mapInfo
              && if s.mapInfo[s.news[sl]].refCount == 1
                 then Deletable(Dropped(s, sl), s.news[sl]) && ClearNew(s, sl) == Delete(Dropped(s, sl), s.news[sl])
                 else ClearNew(s, sl) == Dropped(s, sl)
  {
    hide Deletable, Delete, Dropped;
  }

  lemma DroppedMid(s: State, sl: Slot, floating: set<Id>, lag: int)
    requires Mid(s, floating, lag) && sl in s.news && s.news[sl] in s.mapInfo && s.mapInfo[s.news[sl]].refCount == 1
    ensures var id := s.news[sl];
            Mid(Dropped(s, sl), floating + {id}, lag) && id in Dropped(s, sl).mapInfo &&
            Dropped(s, sl).mapInfo[id].service == s.mapInfo[id].service
  {
    hide Mid;
    OccupantHasRefs(s, sl, floating, lag);
    LessMid(s, s.news[sl], {sl}, floating, lag);
  }

  // ---------------------------------------------------------------- announcements

  lemma PlacedCards(s: State, sl: Slot, id: Id)
    requires AddrIndex(s.mapInfo, s.mapAddr) && id in s.mapInfo && sl !in s.news
    ensures CardsOf(Placed(s, sl, id)) ==
              CardsOf(s)[s.mapInfo[id].service.net := CardOf(s.mapInfo[id], SlotsOf(s.news, id) + {sl})]
  {
    hide AddrIndex;
    SlotsPlaced(s.news, sl, id, id);
    forall j | j in s.mapInfo && j != id ensures CardFor(Placed(s, sl, id), j) == CardFor(s, j) {
      SlotsPlaced(s.news, sl, id, j);
    }
    OneCard(s, Placed(s, sl, id), id);
  }

  lemma SlotsPlaced(news: map<Slot, Id>, sl: Slot, id: Id, j: Id)
    requires sl !in news
    ensures SlotsOf(news[sl := id], j) == if j == id then SlotsOf(news, j) + {sl} else SlotsOf(news, j)
  {
  }

  lemma MayTakeIff(s: State, sl: Slot, id: Id, now: int, floating: set<Id>)
    requires Mid(s, floating, 0) && id in s.mapInfo && (s.mapInfo[id].refCount == 0 <==> id in floating)
    ensures (sl in s.news ==> s.news[sl] in s.mapInfo) && (SlotsOf(s.news, id) == {} <==> id in floating)
    ensures MayTake(s, sl, id, now) <==> Yields(CardsOf(s), sl, SlotsOf(s.news, id) == {}, now)
  {
    AddrIndexOf(s, floating, 0);
    assert s.mapInfo[id].refCount == |SlotsOf(s.news, id)|;
    hide Mid, AddrIndex, IsTerrible, Hopeless, CardsOf, CardFor;
    if sl in s.news {
      var j: Id := s.news[sl];
      OccupantHasRefs(s, sl, floating, 0);
      OnlySlot(s, sl, floating, 0);
      ById(s, j);
      CardForIs(s, j);
      Terrible(s.mapInfo[j], SlotsOf(s.news, j), now);
      forall n | n in CardsOf(s) ensures sl in CardsOf(s)[n].slots <==> n == s.mapInfo[j].service.net {
        OneHolder(s, sl, n);
      }
    } else {
      FreeReleased(s, sl);
    }
  }

  function Listing(b: Cards, net: NetAddr, sl: Slot, now: int): Cards
    requires net in b
  {
    var c := b[net];
    if sl in c.slots then b
    else if Yields(b, sl, c.slots == {}, now) then Released(b, sl)[net := c.(slots := c.slots + {sl})]
    else if c.slots == {} then b - {net}
    else b
  }

  lemma ListCards(s: State, id: Id, source: NetAddr, now: int, floating: set<Id>)
    requires Mid(s, floating, 0) && floating <= {id} && id in s.mapInfo && !s.mapInfo[id].inTried
    requires s.mapInfo[id].refCount < NEW_BUCKETS_PER_ADDRESS && (s.mapInfo[id].refCount == 0 <==> id in floating)
    ensures Listable(s, id, source, now) && s.mapInfo[id].service.net in CardsOf(s)
    ensures CardsOf(List(s, id, source, now)) ==
              Listing(CardsOf(s), s.mapInfo[id].service.net, SlotFrom(s.key, s.mapInfo[id].service, source), now)
  {
    hide *;
    var sl := SlotFrom(s.key, s.mapInfo[id].service, source);
    ListInv(s, id, source, now, floating);
    AddrIndexOf(s, floating, 0);
    ById(s, id);
    CardForIs(s, id);
    MayTakeIff(s, sl, id, now, floating);
    ListIs(s, id, source, now);
    SlotsHold(s, id, sl);
    ListingIs(CardsOf(s), s.mapInfo[id].service.net, sl, now);
    if sl in s.news && s.news[sl] == id {
    } else if MayTake(s, sl, id, now) {
      TakenCards(s, sl, id, floating, 0);
    } else if s.mapInfo[id].refCount == 0 {
      DeleteCards(s, id, floating, 0);
    }
  }

  lemma SlotsHold(s: State, id: Id, sl: Slot)
    ensures sl in SlotsOf(s.news, id) <==> sl in s.news && s.news[sl] == id
  {
  }

  lemma ListIs(s: State, id: Id, source: NetAddr, now: int)
    requires Listable(s, id, source, now) && id in s.mapInfo
    ensures var sl := SlotFrom(s.key, s.mapInfo[id].service, source);
            var r := List(s, id, source, now);
            if sl in s.news && s.news[sl] == id then r == s
            else
              && (sl in s.news ==> s.news[sl] in s.mapInfo)
              && if MayTake(s, sl, id, now)
                 then Clearable(s, sl) && id in ClearNew(s, sl).mapInfo && r == Placed(ClearNew(s, sl), sl, id)
                 else if s.mapInfo[id].refCount == 0 then Deletable(s, id) && r == Delete(s, id)
                 else r == s
  {
    hide MayTake, Clearable, ClearNew, Deletable, Delete, Placed;
  }

  lemma ListingIs(b: Cards, net: NetAddr, sl: Slot, now: int)
    requires net in b
    ensures var c := b[net];
            Listing(b, net, sl, now) ==
            if sl in c.slots then b
            else if Yields(b, sl, c.slots == {}, now) then Released(b, sl)[net := c.(slots := c.slots + {sl})]
            else if c.slots == {} then b - {net} else b
  {
  }

  /** A slot changes hands. */
  lemma TakenCards(s: State, sl: Slot, id: Id, floating: set<Id>, lag: int)
    requires Mid(s, floating, lag) && id in s.mapInfo && !(sl in s.news && s.news[sl] == id)
    ensures Clearable(s, sl) && id in ClearNew(s, sl).mapInfo
    ensures CardsOf(Placed(ClearNew(s, sl), sl, id)) ==
              Released(CardsOf(s), sl)[s.mapInfo[id].service.net := CardOf(s.mapInfo[id], SlotsOf(s.news, id) + {sl})]
  {
    hide *;
    ClearNewMid(s, sl, floating, lag);
    var c := ClearNew(s, sl);
    assert c.mapInfo[id].(randomPos := s.mapInfo[id].randomPos) == s.mapInfo[id];
    AddrIndexOf(c, floating, lag);
    ClearCards(s, sl, floating, lag);
    PlacedCards(c, sl, id);
    SlotsRemoved(s.news, {sl}, id);
    OtherSlots(s, sl, id);
    SameCard(c.mapInfo[id], s.mapInfo[id], SlotsOf(s.news, id) + {sl});
  }

  lemma SameCard(i: Info, j: Info, slots: set<Slot>)
    requires i.(randomPos := j.randomPos) == j
    ensures CardOf(i, slots) == CardOf(j, slots) && i.service == j.service
  {
  }

  lemma ToldIs(i: Info, slots: set<Slot>, a: Address, penalty: int, now: int)
    ensures CardOf(Refreshed(i, a, penalty, now), slots) == Told(CardOf(i, slots), a, penalty, now)
    ensures Told(CardOf(i, slots), a, penalty, now).service == i.service
  {
  }

  lemma EarnsIff(i: Info, slots: set<Slot>, a: Address, rnd: nat)
    requires i.refCount == |slots| <= 8
    ensures EarnsSlot(CardOf(i, slots), a, rnd) <==> !NoNews(i, a, rnd)
  {
    assert Powers.Pow2(0) == 1;
  }

  lemma RefCountIs(s: State, id: Id)
    requires Inv(s) && id in s.mapInfo
    ensures s.mapInfo[id].refCount == |SlotsOf(s.news, id)| <= 8
    ensures !s.mapInfo[id].inTried <==> SlotsOf(s.news, id) != {}
  {
    if s.mapInfo[id].inTried {
      assert SlotsOf(s.news, id) == {};
    }
  }

  /** A known address is announced. */
  lemma AddKnown(s: State, a: Address, source: NetAddr, penalty: int, now: int, rnd: nat)
    requires Inv(s) && a.service.net in s.mapAddr
    ensures AddOk(s, a, source, penalty, true, now, rnd)
    ensures CardsOf(Add(s, a, source, penalty, true, now, rnd).0) ==
              Announce(CardsOf(s), s.key, a, source, penalty, now, rnd)
  {
    hide *;
    InvMid(s);
    AddInv(s, a, source, penalty, true, now, rnd);
    AddrIndexOf(s, {}, 0);
    var net := a.service.net;
    ByAddress(s, net);
    Stored(s, net);
    var id: Id := s.mapAddr[net];
    CardForIs(s, id);
    EntryFacts(s, {}, 0, id);
    RefCountIs(s, id);
    var late := if source == net then 0 else penalty;
    var i := Refreshed(s.mapInfo[id], a, late, now);
    RefreshedIs(s.mapInfo[id], a, late, now);
    UpdateMid(s, id, i, {}, 0);
    ToldIs(s.mapInfo[id], SlotsOf(s.news, id), a, late, now);
    EarnsIff(i, SlotsOf(s.news, id), a, rnd);
    UpdateCards(s, id, i);
    AddKnownIs(s, a, source, penalty, now, rnd);
    AnnounceKnownIs(CardsOf(s), s.key, a, source, penalty, now, rnd);
    if !NoNews(i, a, rnd) {
      NewsIs(i, a, rnd);
      SetInfoIs(s, id, i);
      ListCards(SetInfo(s, id, i), id, source, now, {});
    }
  }

  lemma SetInfoIs(s: State, id: Id, i: Info)
    ensures var r := SetInfo(s, id, i); r.mapInfo == s.mapInfo[id := i] && r.key == s.key && r.news == s.news
  {
  }

  lemma RefreshedIs(i: Info, a: Address, penalty: int, now: int)
    ensures var r := Refreshed(i, a, penalty, now); r == i.(time := r.time, services := r.services)
  {
  }

  lemma AddKnownIs(s: State, a: Address, source: NetAddr, penalty: int, now: int, rnd: nat)
    requires Found(s, a.service.net) && AddOk(s, a, source, penalty, true, now, rnd)
    ensures var late := if source == a.service.net then 0 else penalty;
            var id := s.mapAddr[a.service.net];
            var i := Refreshed(s.mapInfo[id], a, late, now);
            var r := Add(s, a, source, penalty, true, now, rnd).0;
            if NoNews(i, a, rnd) then r == SetInfo(s, id, i)
            else Listable(SetInfo(s, id, i), id, source, now) && r == List(SetInfo(s, id, i), id, source, now)
  {
    hide Refreshed, NoNews, Listable, List;
  }

  lemma AnnounceKnownIs(b: Cards, key: Key, a: Address, source: NetAddr, penalty: int, now: int, rnd: nat)
    requires a.service.net in b && (b[a.service.net].tried || b[a.service.net].slots != {})
    ensures var late := if source == a.service.net then 0 else penalty;
            var c := Told(b[a.service.net], a, late, now);
            var told := b[a.service.net := c];
            Announce(b, key, a, source, penalty, now, rnd) ==
              if EarnsSlot(c, a, rnd) then Listing(told, a.service.net, SlotFrom(key, c.service, source), now) else told
  {
    hide Yields, Released, SlotFrom;
  }

  lemma NewsIs(i: Info, a: Address, rnd: nat)
    requires !NoNews(i, a, rnd) && i.refCount <= 8
    ensures !i.inTried && i.refCount < NEW_BUCKETS_PER_ADDRESS
  {
  }

  lemma AnnouncedCards(s: State, a: Address, source: NetAddr, penalty: int)
    requires Inv(s) && a.service.net !in s.mapAddr
    ensures var time := if a.time > penalty then a.time - penalty else 0;
            CardsOf(Announced(s, a, source, penalty)) ==
              CardsOf(s)[a.service.net := Card(a.service, a.services, time, source, 0, 0, 0, 0, false, {})]
  {
    hide *;
    InvMid(s);
    AnnouncedMid(s, a, source, penalty);
    var n, id := Announced(s, a, source, penalty), s.idCount;
    AddrIndexOf(s, {}, 0);
    AddrIndexOf(n, {id}, 0);
    AnnouncedParts(s, a, source, penalty);
    var time := if a.time > penalty then a.time - penalty else 0;
    var b := CardsOf(s)[a.service.net := Card(a.service, a.services, time, source, 0, 0, 0, 0, false, {})];
    forall j | j in n.mapInfo ensures n.mapInfo[j].service.net in b && b[n.mapInfo[j].service.net] == CardFor(n, j) {
      CardForIs(n, j);
      if j != id {
        ById(s, j);
        CardForIs(s, j);
      }
    }
    forall net ensures net in b <==> net in n.mapAddr {
      ByAddress(s, net);
    }
    MakeCards(n, b);
  }

  lemma AnnouncedParts(s: State, a: Address, source: NetAddr, penalty: int)
    requires Inv(s)
    ensures var time := if a.time > penalty then a.time - penalty else 0;
            var n := Announced(s, a, source, penalty);
            && s.idCount !in s.mapInfo && SlotsOf(s.news, s.idCount) == {}
            && n.mapInfo.Keys == s.mapInfo.Keys + {s.idCount} && n.news == s.news
            && n.mapAddr.Keys == s.mapAddr.Keys + {a.service.net}
            && (forall j :: j in s.mapInfo ==> n.mapInfo[j] == s.mapInfo[j])
            && n.mapInfo[s.idCount].service == a.service
            && CardOf(n.mapInfo[s.idCount], {}) == Card(a.service, a.services, time, source, 0, 0, 0, 0, false, {})
  {
    hide AddrIndex, RandomIndex, TriedTable, RefCounts, Times;
  }

  /** A card without slots is listed for the first time, or not at all. */
  lemma FirstListing(b: Cards, net: NetAddr, c: Card, sl: Slot, now: int)
    requires net !in b && c.slots == {}
    ensures Listing(b[net := c], net, sl, now) ==
              if Yields(b, sl, true, now) then Released(b, sl)[net := c.(slots := {sl})] else b
  {
    hide Yields, Released, Hopeless;
    SlotlessYields(b, net, c, sl, now);
    RewrittenReleased(b, net, c, c.(slots := {sl}), sl);
    assert c.slots + {sl} == {sl};
    assert b[net := c] - {net} == b;
  }

  lemma SlotlessYields(b: Cards, net: NetAddr, c: Card, sl: Slot, now: int)
    requires net !in b && c.slots == {}
    ensures Yields(b[net := c], sl, true, now) <==> Yields(b, sl, true, now)
  {
    hide Hopeless;
    assert forall n :: n in b ==> b[net := c][n] == b[n];
  }

  lemma RewrittenReleased(b: Cards, net: NetAddr, c: Card, d: Card, sl: Slot)
    ensures Released(b[net := c], sl)[net := d] == Released(b, sl)[net := d]
  {
  }

  /** An unknown address is announced. */
  lemma AddUnknown(s: State, a: Address, source: NetAddr, penalty: int, now: int, rnd: nat)
    requires Inv(s) && a.service.net !in s.mapAddr
    ensures AddOk(s, a, source, penalty, true, now, rnd)
    ensures CardsOf(Add(s, a, source, penalty, true, now, rnd).0) ==
              Announce(CardsOf(s), s.key, a, source, penalty, now, rnd)
  {
    hide Mid, CardsOf, Listable, List, Released, Yields, SlotsOf, NewSlot, NewBucket;
    AddInv(s, a, source, penalty, true, now, rnd);
    AddrIndexOf(s, {}, 0);
    var net, late := a.service.net, Penalty(a, source, penalty);
    ByAddress(s, net);
    hide AddrIndex;
    AnnouncedMid(s, a, source, late);
    AnnouncedCards(s, a, source, late);
    var n := Announced(s, a, source, late);
    ListCards(n, s.idCount, source, now, {s.idCount});
    var time := if a.time > late then a.time - late else 0;
    FirstListing(CardsOf(s), net, Card(a.service, a.services, time, source, 0, 0, 0, 0, false, {}),
                 SlotFrom(s.key, a.service, source), now);
  }

  // ---------------------------------------------------------------- successes

  lemma SameParts(s: State, r: State)
    requires r.mapInfo == s.mapInfo && r.mapAddr == s.mapAddr && r.news == s.news
    ensures CardsOf(r) == CardsOf(s)
  {
    forall id | id in s.mapInfo ensures CardFor(r, id) == CardFor(s, id) {
    }
    hide CardFor;
  }

  lemma UnlistedCards(s: State, id: Id)
    requires AddrIndex(s.mapInfo, s.mapAddr) && id in s.mapInfo
    ensures CardsOf(Unlisted(s, id)) == CardsOf(s)[s.mapInfo[id].service.net := CardOf(s.mapInfo[id], {})]
  {
    hide AddrIndex, SlotsOf;
    SlotsUnlisted(s, id, id);
    forall j | j in s.mapInfo && j != id ensures CardFor(Unlisted(s, id), j) == CardFor(s, j) {
      SlotsUnlisted(s, id, j);
    }
    OneCard(s, Unlisted(s, id), id);
  }

  lemma SlotsUnlisted(s: State, id: Id, j: Id)
    requires id in s.mapInfo
    ensures SlotsOf(Unlisted(s, id).news, j) == if j == id then {} else SlotsOf(s.news, j)
  {
  }

  lemma EvictedCards(s: State, sl: Slot)
    requires AddrIndex(s.mapInfo, s.mapAddr) && sl in s.tried && s.tried[sl] in s.mapInfo
    ensures var o := s.tried[sl];
            CardsOf(Evicted(s, sl)) ==
              CardsOf(s)[s.mapInfo[o].service.net := CardOf(s.mapInfo[o].(inTried := false), SlotsOf(s.news, o))]
  {
    hide AddrIndex;
    OneCard(s, Evicted(s, sl), s.tried[sl]);
  }

  lemma EvictedParts(s: State, sl: Slot)
    requires sl in s.tried && s.tried[sl] in s.mapInfo
    ensures var o := s.tried[sl];
            var e := Evicted(s, sl);
            e.mapInfo == s.mapInfo[o := s.mapInfo[o].(inTried := false)] && e.news == s.news && e.key == s.key
  {
  }

  /** An entry without references has no slots. */
  lemma NoRefs(s: State, floating: set<Id>, lag: int, id: Id)
    requires Mid(s, floating, lag) && id in s.mapInfo && s.mapInfo[id].refCount == 0
    ensures SlotsOf(s.news, id) == {} && forall sl :: sl in s.news ==> s.news[sl] != id
  {
    assert s.mapInfo[id].refCount == |SlotsOf(s.news, id)|;
    forall sl | sl in s.news ensures s.news[sl] != id {
      assert sl !in SlotsOf(s.news, id);
    }
  }

  lemma MakeRoomIs(s: State, sl: Slot)
    requires Evictable(s, sl) && sl in s.tried
    ensures var o := s.tried[sl];
            && o in s.mapInfo
            && var e, home := Evicted(s, sl), SlotFrom(s.key, s.mapInfo[o].service, s.mapInfo[o].source);
               && Clearable(e, home) && o in ClearNew(e, home).mapInfo
               && var c, r := ClearNew(e, home), MakeRoom(s, sl);
                  && r.mapAddr == c.mapAddr && r.news == c.news[home := o]
                  && r.mapInfo == c.mapInfo[o := c.mapInfo[o].(refCount := 1)]
  {
    hide Evicted, Clearable, ClearNew;
  }

  lemma PlacedParts(s: State, sl: Slot, id: Id)
    requires id in s.mapInfo && s.mapInfo[id].refCount == 0
    ensures var r := Placed(s, sl, id);
            r.mapAddr == s.mapAddr && r.news == s.news[sl := id] &&
            r.mapInfo == s.mapInfo[id := s.mapInfo[id].(refCount := 1)]
  {
  }

  /** The rival goes back to the slot its source selects. */
  lemma MakeRoomCards(s: State, sl: Slot, id: Id)
    requires Mid(s, {id}, 1) && id in s.mapInfo && sl in s.tried
    ensures Evictable(s, sl) && s.tried[sl] in s.mapInfo
    ensures var i := s.mapInfo[s.tried[sl]];
            var home := SlotFrom(s.key, i.service, i.source);
            CardsOf(MakeRoom(s, sl)) ==
              Released(CardsOf(s), home)[i.service.net := CardOf(i.(inTried := false), {home})]
  {
    hide *;
    MakeRoomMid(s, sl, id);
    MakeRoomIs(s, sl);
    AddrIndexOf(s, {id}, 1);
    EvictedMid(s, sl, {id}, 1);
    EvictedCards(s, sl);
    EvictedParts(s, sl);
    var o: Id := s.tried[sl];
    var i, e := s.mapInfo[o], Evicted(s, sl);
    var home := SlotFrom(s.key, i.service, i.source);
    NoRefs(e, {id} + {o}, 2, o);
    TakenCards(e, home, o, {id} + {o}, 2);
    var c := ClearNew(e, home);
    ClearNewMid(e, home, {id} + {o}, 2);
    assert c.mapInfo[o].(randomPos := e.mapInfo[o].randomPos) == e.mapInfo[o];
    PlacedParts(c, home, o);
    SameParts(Placed(c, home, o), MakeRoom(s, sl));
    assert {} + {home} == {home};
    RewrittenReleased(CardsOf(s), i.service.net, CardOf(i.(inTried := false), {}), CardOf(i.(inTried := false), {home}),
                      home);
  }

  lemma MakeTriedIs(s: State, id: Id)
    requires Triable(s, id)
    ensures var sl := TriedSlot(s.key, s.mapInfo[id].service);
            var u := Unlisted(s, id);
            && Evictable(u, sl) && u.tried == s.tried && u.mapAddr == s.mapAddr && u.key == s.key
            && (sl !in s.tried ==> MakeRoom(u, sl) == u)
            && id in MakeRoom(u, sl).mapInfo
            && var m, r := MakeRoom(u, sl), MakeTried(s, id);
               && r.mapInfo == m.mapInfo[id := m.mapInfo[id].(inTried := true)]
               && r.mapAddr == m.mapAddr && r.news == m.news
  {
    hide Evictable, TriedSlot;
  }

  /** The entry moves to the tried table, and a rival back. */
  lemma MakeTriedCards(s: State, id: Id)
    requires Inv(s) && id in s.mapInfo && !s.mapInfo[id].inTried && s.mapInfo[id].lastSuccess > 0
    ensures Triable(s, id)
    ensures var i := s.mapInfo[id];
            var sl := TriedSlot(s.key, i.service);
            var b := CardsOf(s)[i.service.net := CardOf(i, {})];
            var c := CardOf(i.(inTried := true), {});
            if sl !in s.tried then CardsOf(MakeTried(s, id)) == b[i.service.net := c]
            else s.tried[sl] in s.mapInfo && s.tried[sl] != id && var j := s.mapInfo[s.tried[sl]];
                 var home := SlotFrom(s.key, j.service, j.source);
                 CardsOf(MakeTried(s, id)) ==
                   Released(b, home)[j.service.net := CardOf(j.(inTried := false), {home})][i.service.net := c]
  {
    hide *;
    InvMid(s);
    MakeTriedInv(s, id);
    MakeTriedIs(s, id);
    AddrIndexOf(s, {}, 0);
    UnlistedMid(s, id);
    UnlistedCards(s, id);
    UnlistedKeeps(s, id);
    var sl := TriedSlot(s.key, s.mapInfo[id].service);
    var u := Unlisted(s, id);
    MakeRoomMid(u, sl, id);
    var m := MakeRoom(u, sl);
    AddrIndexOf(m, {id}, 1);
    FloatingFacts(m, {id}, 1, id);
    NoRefs(m, {id}, 1, id);
    EnteredCards(m, MakeTried(s, id), id);
    EnteredCard(m.mapInfo[id], s.mapInfo[id]);
    if sl in s.tried {
      TriedAt(s, sl);
      MakeRoomCards(u, sl, id);
    }
  }

  lemma TriedAt(s: State, sl: Slot)
    requires Inv(s) && sl in s.tried
    ensures s.tried[sl] in s.mapInfo && s.mapInfo[s.tried[sl]].inTried
  {
  }

  lemma UnlistedKeeps(s: State, id: Id)
    requires id in s.mapInfo
    ensures id in Unlisted(s, id).mapInfo
    ensures forall j :: j in s.mapInfo && j != id ==>
              j in Unlisted(s, id).mapInfo && Unlisted(s, id).mapInfo[j] == s.mapInfo[j]
  {
  }

  lemma EnteredCard(i: Info, j: Info)
    requires i.(randomPos := j.randomPos) == j.(refCount := 0)
    ensures CardOf(i.(inTried := true), {}) == CardOf(j.(inTried := true), {}) && i.service == j.service
  {
  }

  lemma EnteredCards(s: State, r: State, id: Id)
    requires AddrIndex(s.mapInfo, s.mapAddr) && id in s.mapInfo && SlotsOf(s.news, id) == {}
    requires r.mapInfo == s.mapInfo[id := s.mapInfo[id].(inTried := true)] && r.mapAddr == s.mapAddr && r.news == s.news
    ensures CardsOf(r) == CardsOf(s)[s.mapInfo[id].service.net := CardOf(s.mapInfo[id].(inTried := true), {})]
  {
    hide AddrIndex;
    OneCard(s, r, id);
  }

  lemma RivalsAre(s: State, a: Service)
    requires Inv(s)
    ensures var sl := TriedSlot(s.key, a);
            && (sl in s.tried ==> s.tried[sl] in s.mapInfo)
            && Rivals(CardsOf(s), s.key, a) == if sl in s.tried then {s.mapInfo[s.tried[sl]].service.net} else {}
  {
    hide *;
    InvMid(s);
    AddrIndexOf(s, {}, 0);
    var b, sl := CardsOf(s), TriedSlot(s.key, a);
    if sl in s.tried {
      TriedAt(s, sl);
      ById(s, s.tried[sl]);
    }
    RivalsIs(b, s.key, a);
    forall net | net in b
      ensures net in Rivals(b, s.key, a) <==> sl in s.tried && s.mapInfo[s.tried[sl]].service.net == net
    {
      ByAddress(s, net);
      Stored(s, net);
      CardForIs(s, s.mapAddr[net]);
      TriedIff(s, s.mapAddr[net], sl);
      if sl in s.tried && s.mapInfo[s.tried[sl]].service.net == net {
        ById(s, s.tried[sl]);
      }
    }
    Sets.AtMostOne(Rivals(b, s.key, a), sl in s.tried, if sl in s.tried then s.mapInfo[s.tried[sl]].service.net else 0);
  }

  lemma RivalsIs(b: Cards, key: Key, a: Service)
    ensures forall net :: net in Rivals(b, key, a) <==>
              net in b && b[net].tried && TriedSlot(key, b[net].service) == TriedSlot(key, a)
  {
    forall s: Service ensures TriedSlot(key, s) == TriedPlace(key, s) {
    }
    hide TriedSlot, TriedPlace;
  }

  lemma TriedIff(s: State, id: Id, sl: Slot)
    requires Inv(s) && id in s.mapInfo
    ensures s.mapInfo[id].inTried && TriedSlot(s.key, s.mapInfo[id].service) == sl <==>
            sl in s.tried && s.tried[sl] == id
  {
    hide TriedSlot;
  }

  lemma KnownIff(s: State, a: Service)
    requires Inv(s)
    ensures Known(s, a) <==> Has(CardsOf(s), a)
    ensures Known(s, a) ==>
              && a.net in s.mapAddr && s.mapAddr[a.net] in s.mapInfo && s.mapInfo[s.mapAddr[a.net]].service == a
              && CardsOf(s)[a.net] == CardFor(s, s.mapAddr[a.net])
  {
    AddrIndexOf(s, {}, 0);
    ByAddress(s, a.net);
    hide Mid, AddrIndex, CardsOf;
  }

  lemma PromotedReleased(b: Cards, net: NetAddr, x: Card, c: Card, home: Slot, rival: NetAddr, y: Card)
    requires net != rival && c.slots == {}
    ensures Released(b[net := x], home)[rival := y][net := c] == Released(b[net := c], home)[rival := y]
  {
    assert c.slots - {home} == c.slots;
  }

  /** What Good_ does after the statistics: s is the state with the success recorded. */
  lemma GoodIs(s: State, a: Service, time: int)
    requires Inv(s) && time > 0 && Known(s, a)
    ensures var id := s.mapAddr[a.net];
            var r := SetInfo(s.(lastGood := time), id, Succeeded(s.mapInfo[id], time));
            && GoodOk(s, a, time) && Inv(r) && r.mapInfo == s.mapInfo[id := Succeeded(s.mapInfo[id], time)]
            && r.key == s.key && r.tried == s.tried && r.news == s.news
            && if s.mapInfo[id].inTried then Good(s, a, time) == r
               else Triable(r, id) && Good(s, a, time) == MakeTried(r, id)
  {
    GoodInv(s, a, time);
    var id: Id := s.mapAddr[a.net];
    UpdateMid(s.(lastGood := time), id, Succeeded(s.mapInfo[id], time), {}, 0);
    if !s.mapInfo[id].inTried {
      GoodNeverBailsOut(s, id);
    }
    hide Mid, Triable, MakeTried, InSomeBucket;
  }

  lemma SucceededCards(s: State, id: Id, time: int)
    requires Inv(s) && id in s.mapInfo
    ensures var i := Succeeded(s.mapInfo[id], time);
            CardsOf(SetInfo(s.(lastGood := time), id, i)) ==
              CardsOf(s)[i.service.net := CardOf(i, SlotsOf(s.news, id))]
  {
    AddrIndexOf(s, {}, 0);
    hide Mid, AddrIndex;
    UpdateCards(s.(lastGood := time), id, Succeeded(s.mapInfo[id], time));
    SameParts(s, s.(lastGood := time));
  }

  /** Good_ is Succeed in the book. */
  lemma GoodCards(s: State, a: Service, time: int)
    requires Inv(s) && time > 0
    ensures GoodOk(s, a, time) && CardsOf(Good(s, a, time)) == Succeed(CardsOf(s), s.key, a, time)
  {
    hide *;
    KnownIff(s, a);
    if !Known(s, a) {
      GoodUnknown(s, a, time);
    } else {
      var id: Id := s.mapAddr[a.net];
      GoodIs(s, a, time);
      SucceededCards(s, id, time);
      CardForIs(s, id);
      SucceededCard(s.mapInfo[id], SlotsOf(s.news, id), time);
      SucceedIs(CardsOf(s), s.key, a, time);
      if !s.mapInfo[id].inTried {
        PromotedCards(s, SetInfo(s.(lastGood := time), id, Succeeded(s.mapInfo[id], time)), a, time);
      }
    }
  }

  lemma GoodUnknown(s: State, a: Service, time: int)
    requires Inv(s) && !Known(s, a) && !Has(CardsOf(s), a)
    ensures GoodOk(s, a, time) && CardsOf(Good(s, a, time)) == Succeed(CardsOf(s), s.key, a, time)
  {
    hide Mid, CardsOf, Known, Has;
    SameParts(s, s.(lastGood := time));
  }

  lemma SucceededCard(i: Info, slots: set<Slot>, time: int)
    ensures CardOf(Succeeded(i, time), slots) == CardOf(i, slots).(lastSuccess := time, lastTry := time, attempts := 0)
    ensures CardOf(Succeeded(i, time).(inTried := true), {}) ==
              CardOf(i, slots).(lastSuccess := time, lastTry := time, attempts := 0, tried := true, slots := {})
    ensures Succeeded(i, time).service == i.service && Succeeded(i, time).inTried == i.inTried
    ensures Succeeded(i, time).lastSuccess == time
  {
  }

  lemma SucceedIs(b: Cards, key: Key, a: Service, time: int)
    requires Has(b, a)
    ensures a.net in b
    ensures var c := b[a.net].(lastSuccess := time, lastTry := time, attempts := 0);
            var moved := b[a.net := c.(tried := true, slots := {})];
            && (c.tried ==> Succeed(b, key, a, time) == b[a.net := c])
            && (!c.tried && Rivals(b, key, a) == {} ==> Succeed(b, key, a, time) == moved)
            && (forall rival :: !c.tried && rival in b && Rivals(b, key, a) == {rival} ==>
                  var home := SlotFrom(key, b[rival].service, b[rival].source);
                  Succeed(b, key, a, time) ==
                    Released(moved, home)[rival := b[rival].(tried := false, slots := {home})])
  {
    hide Released, SlotFrom, Rivals;
  }

  lemma PromotedCards(s: State, r: State, a: Service, time: int)
    requires Inv(s) && time > 0 && Known(s, a) && Has(CardsOf(s), a)
    requires a.net in s.mapAddr && s.mapAddr[a.net] in s.mapInfo
    requires var id := s.mapAddr[a.net];
             var i := Succeeded(s.mapInfo[id], time);
             && Inv(r) && r.mapInfo == s.mapInfo[id := i] && r.key == s.key && r.tried == s.tried && Triable(r, id)
             && CardsOf(r) == CardsOf(s)[a.net := CardOf(i, SlotsOf(s.news, id))] && !s.mapInfo[id].inTried
    ensures CardsOf(MakeTried(r, s.mapAddr[a.net])) == Succeed(CardsOf(s), s.key, a, time)
  {
    hide *;
    KnownIff(s, a);
    var id: Id := s.mapAddr[a.net];
    var b, i := CardsOf(s), Succeeded(s.mapInfo[id], time);
    CardForIs(s, id);
    SucceededCard(s.mapInfo[id], SlotsOf(s.news, id), time);
    SucceedIs(b, s.key, a, time);
    RivalsAre(s, a);
    MakeTriedCards(r, id);
    var sl := TriedSlot(s.key, a);
    assert CardsOf(r)[a.net := CardOf(i, {})] == b[a.net := CardOf(i, {})];
    if sl in s.tried {
      TriedAt(s, sl);
      InvMid(s);
      AddrIndexOf(s, {}, 0);
      var o: Id := s.tried[sl];
      ById(s, o);
      ById(s, id);
      CardForIs(s, o);
      RivalCard(s.mapInfo[o], SlotsOf(s.news, o));
      var home := SlotFrom(s.key, s.mapInfo[o].service, s.mapInfo[o].source);
      EmptySlots(i.(inTried := true));
      PromotedReleased(b, a.net, CardOf(i, {}), CardOf(i.(inTried := true), {}), home, s.mapInfo[o].service.net,
                       CardOf(s.mapInfo[o].(inTried := false), {home}));
    }
  }

  lemma EmptySlots(i: Info)
    ensures CardOf(i, {}).slots == {}
  {
  }

  lemma RivalCard(j: Info, slots: set<Slot>)
    ensures CardOf(j, slots).source == j.source
    ensures forall home :: CardOf(j.(inTried := false), home) == CardOf(j, slots).(tried := false, slots := home)
  {
  }

  // ---------------------------------------------------------------- statistics

  lemma StatisticsCards(s: State, a: Service, i: Info)
    requires Inv(s) && Known(s, a) && i.service == a
    ensures a.net in s.mapAddr && s.mapAddr[a.net] in s.mapInfo && a.net in CardsOf(s)
    ensures var id := s.mapAddr[a.net];
            && CardsOf(SetInfo(s, id, i)) == CardsOf(s)[a.net := CardOf(i, SlotsOf(s.news, id))]
            && CardsOf(s)[a.net] == CardOf(s.mapInfo[id], SlotsOf(s.news, id)) && s.mapInfo[id].service == a
  {
    KnownIff(s, a);
    AddrIndexOf(s, {}, 0);
    hide Mid, AddrIndex, CardsOf;
    UpdateCards(s, s.mapAddr[a.net], i);
    CardForIs(s, s.mapAddr[a.net]);
  }

  lemma AttemptCards(s: State, a: Service, countFailure: bool, time: int)
    requires Inv(s)
    ensures CardsOf(Attempt(s, a, countFailure, time)) == Fail(CardsOf(s), a, countFailure, time, s.lastGood)
  {
    hide Mid, CardsOf, Known, Has, SlotsOf;
    KnownIff(s, a);
    if Known(s, a) {
      StatisticsCards(s, a, Attempt(s, a, countFailure, time).mapInfo[s.mapAddr[a.net]]);
    }
  }

  lemma ConnectedCards(s: State, a: Service, time: int)
    requires Inv(s)
    ensures CardsOf(Connected(s, a, time)) == Contact(CardsOf(s), a, time)
  {
    hide Mid, CardsOf, Known, Has, SlotsOf;
    KnownIff(s, a);
    if Known(s, a) {
      StatisticsCards(s, a, s.mapInfo[s.mapAddr[a.net]].(time := time));
    }
  }

  lemma ServicesCards(s: State, a: Service, services: set<nat>)
    requires Inv(s)
    ensures CardsOf(SetServices(s, a, services)) == Serve(CardsOf(s), a, services)
  {
    hide Mid, CardsOf, Known, Has, SlotsOf;
    KnownIff(s, a);
    if Known(s, a) {
      StatisticsCards(s, a, s.mapInfo[s.mapAddr[a.net]].(services := services));
    }
  }

  // ---------------------------------------------------------------- samples

  /** The addresses worth passing on. */
  function Worthy(b: Cards, now: int): set<NetAddr> {
    set net | net in b && !Hopeless(b[net], now)
  }

  function NetsOf(v: seq<Address>): seq<NetAddr> {
    seq(|v|, i requires 0 <= i < |v| => v[i].service.net)
  }

  function AddressOf(c: Card): Address {
    Address(c.service, c.services, c.time)
  }

  lemma {:induction false} PickedAll(s: State, ids: seq<Id>, now: int, id: Id)
    requires id in ids && (forall i :: 0 <= i < |ids| ==> ids[i] in s.mapInfo) && !IsTerrible(s.mapInfo[id], now)
    ensures s.mapInfo[id].service.net in NetsOf(Picked(s.mapInfo, ids, now))
  {
    hide IsTerrible;
    var front, last, r := ids[..|ids| - 1], ids[|ids| - 1], Picked(s.mapInfo, ids, now);
    if id == last {
      assert NetsOf(r)[|r| - 1] == s.mapInfo[id].service.net;
    } else {
      assert id in front;
      PickedAll(s, front, now, id);
      var f := Picked(s.mapInfo, front, now);
      var k :| 0 <= k < |NetsOf(f)| && NetsOf(f)[k] == s.mapInfo[id].service.net;
      assert NetsOf(r)[k] == r[k].service.net && r[k] == f[k];
    }
  }

  /** How many entries there are. */
  lemma RandomLength(s: State)
    requires Inv(s)
    ensures |s.vRandom| == |CardsOf(s)|
  {
    AddrIndexOf(s, {}, 0);
    RandomOf(s);
    ListedInv(s);
    hide Mid, CardsOf;
    var nets := seq(|s.vRandom|, i requires 0 <= i < |s.vRandom| => s.mapInfo[s.vRandom[i]].service.net);
    forall i, j | 0 <= i < j < |nets| ensures nets[i] != nets[j] {
      ById(s, s.vRandom[i]);
      ById(s, s.vRandom[j]);
    }
    forall net ensures net in CardsOf(s).Keys <==> net in nets {
      ByAddress(s, net);
      if net in s.mapAddr {
        var id: Id := s.mapAddr[net];
        Stored(s, net);
        assert nets[s.mapInfo[id].randomPos] == net;
      } else if k :| 0 <= k < |nets| && nets[k] == net {
        ById(s, s.vRandom[k]);
      }
    }
    Sets.CountOf(nets, CardsOf(s).Keys);
  }

  /** GetAddr_ draws 23 percent of the entries, rounded down, and at most 2500. */
  lemma LimitIs(size: nat)
    ensures var limit := GetAddrLimit(size);
            100 * limit <= 23 * size && limit <= 2500 && (limit == 2500 || 100 * (limit + 1) > 23 * size)
  {
  }

  function Least(a: nat, b: nat): nat { if a < b then a else b }

  /** A sample: different addresses worth passing on, as their cards have them; as many as the limit allows, or all
      there are. Taking it does not change the book. */
  lemma SampleIs(s: State, rand: nat -> nat, now: int)
    requires Inv(s)
    ensures Listed(s)
    ensures var b := CardsOf(s);
            var (r, out) := GetAddrFrom(s, 0, [], GetAddrLimit(|s.vRandom|), rand, now);
            && BookOf(r) == BookOf(s) && |out| == Least(GetAddrLimit(|b|), |Worthy(b, now)|)
            && (forall i :: 0 <= i < |out| ==> out[i].service.net in Worthy(b, now) &&
                                               out[i] == AddressOf(b[out[i].service.net]))
            && (forall i, j :: 0 <= i < j < |out| ==> out[i].service.net != out[j].service.net)
  {
    hide *;
    GetAddrSpec(s, rand, now);
    var limit := GetAddrLimit(|s.vRandom|);
    FirstPicked(s, now);
    var k := GetAddrFromSpec(s, 0, [], limit, rand, now);
    var (r, out) := GetAddrFrom(s, 0, [], limit, rand, now);
    RandomLength(s);
    SampledCards(s, r, out, k, limit, now);
  }

  /** What was picked is the address of an entry. */
  lemma {:induction false} PickedFrom(s: State, ids: seq<Id>, now: int, k: nat) returns (id: Id)
    requires (forall i :: 0 <= i < |ids| ==> ids[i] in s.mapInfo) && k < |Picked(s.mapInfo, ids, now)|
    ensures id in s.mapInfo && Picked(s.mapInfo, ids, now)[k] == ToAddress(s.mapInfo[id])
    ensures !IsTerrible(s.mapInfo[id], now)
  {
    hide IsTerrible;
    var front := ids[..|ids| - 1];
    if k < |Picked(s.mapInfo, front, now)| {
      id := PickedFrom(s, front, now, k);
    } else {
      id := ids[|ids| - 1];
    }
  }

  lemma PickedCard(s: State, ids: seq<Id>, now: int, k: nat)
    requires Inv(s) && (forall i :: 0 <= i < |ids| ==> ids[i] in s.mapInfo) && k < |Picked(s.mapInfo, ids, now)|
    ensures var a := Picked(s.mapInfo, ids, now)[k];
            a.service.net in Worthy(CardsOf(s), now) && a == AddressOf(CardsOf(s)[a.service.net])
  {
    var id := PickedFrom(s, ids, now, k);
    AddrIndexOf(s, {}, 0);
    ById(s, id);
    Terrible(s.mapInfo[id], SlotsOf(s.news, id), now);
    hide Mid, AddrIndex, IsTerrible, Hopeless, SlotsOf, CardsOf, Picked;
  }

  lemma WorthyPicked(s: State, now: int, net: NetAddr)
    requires Inv(s) && Listed(s) && net in Worthy(CardsOf(s), now)
    ensures net in NetsOf(Picked(s.mapInfo, s.vRandom, now))
  {
    AddrIndexOf(s, {}, 0);
    RandomOf(s);
    ByAddress(s, net);
    Stored(s, net);
    var id: Id := s.mapAddr[net];
    Terrible(s.mapInfo[id], SlotsOf(s.news, id), now);
    assert s.vRandom[s.mapInfo[id].randomPos] == id;
    hide Mid, AddrIndex, RandomIndex, IsTerrible, Hopeless, SlotsOf, CardsOf, Picked, NetsOf;
    PickedAll(s, s.vRandom, now, id);
  }

  lemma SampledCards(s: State, r: State, out: seq<Address>, k: nat, limit: nat, now: int)
    requires Inv(s) && Sampled(s, r, out, k, limit, now)
    ensures BookOf(r) == BookOf(s)
    ensures forall i :: 0 <= i < |out| ==> out[i].service.net in Worthy(CardsOf(s), now) &&
                                           out[i] == AddressOf(CardsOf(s)[out[i].service.net])
    ensures forall i, j :: 0 <= i < j < |out| ==> out[i].service.net != out[j].service.net
    ensures |out| == Least(limit, |Worthy(CardsOf(s), now)|)
  {
    hide *;
    InvMid(s);
    AddrIndexOf(s, {}, 0);
    SampledIs(s, r, out, k, limit, now);
    SampledGood(s, r, out, k, limit, now);
    DifferentPicks(r, out, now);
    SameCards(s, r);
    BookIs(s);
    BookIs(r);
    ListedIs(r, k);
    NetsAre(out);
    LeastIs(limit, |Worthy(CardsOf(s), now)|);
    forall i | 0 <= i < |out|
      ensures out[i].service.net in Worthy(CardsOf(s), now) && out[i].service.net in CardsOf(s)
      ensures out[i] == AddressOf(CardsOf(s)[out[i].service.net])
    {
      WorthyIs(CardsOf(s), now, out[i].service.net);
      PickedCard(r, r.vRandom[..k], now, i);
    }
    var nets := NetsOf(out);
    if k == |r.vRandom| {
      assert r.vRandom[..k] == r.vRandom;
      forall net | net in Worthy(CardsOf(s), now) ensures net in nets {
        WorthyPicked(r, now, net);
      }
    }
    Sets.SomeOf(nets, Worthy(CardsOf(s), now));
  }

  lemma SampledIs(s: State, r: State, out: seq<Address>, k: nat, limit: nat, now: int)
    requires Sampled(s, r, out, k, limit, now)
    ensures Inv(r) && Listed(r) && SameButRandom(s.mapInfo, r.mapInfo)
    ensures r.mapAddr == s.mapAddr && r.news == s.news && r.lastGood == s.lastGood
    ensures k <= |r.vRandom| && |out| <= limit && (k == |r.vRandom| || |out| == limit)
    ensures (forall i :: 0 <= i < k ==> r.vRandom[..k][i] in r.mapInfo) && out == Picked(r.mapInfo, r.vRandom[..k], now)
  {
    hide Mid, SameButRandom, Picked;
  }

  lemma DifferentPicks(s: State, out: seq<Address>, now: int)
    requires GoodPicks(s, s.vRandom, out, now)
    ensures forall i, j :: 0 <= i < j < |out| ==> out[i].service.net != out[j].service.net
  {
    hide GoodPick;
  }

  lemma NetsAre(v: seq<Address>)
    ensures |NetsOf(v)| == |v| && forall i :: 0 <= i < |v| ==> NetsOf(v)[i] == v[i].service.net
  {
  }

  lemma LeastIs(a: nat, b: nat)
    ensures a <= b ==> Least(a, b) == a
    ensures b <= a ==> Least(a, b) == b
  {
  }

  lemma ListedIs(s: State, k: nat)
    requires Listed(s) && k <= |s.vRandom|
    ensures forall i :: 0 <= i < k ==> s.vRandom[..k][i] in s.mapInfo
  {
  }

  lemma FirstPicked(s: State, now: int)
    ensures [] == Picked(s.mapInfo, s.vRandom[..0], now)
  {
  }

  lemma {:induction false} GetAddrGrows(s: State, n: nat, acc: seq<Address>, limit: nat, rand: nat -> nat, now: int)
    requires Inv(s) && Listed(s) && n <= |s.vRandom|
    ensures acc <= GetAddrFrom(s, n, acc, limit, rand, now).1
    decreases |s.vRandom| - n
  {
    hide Mid, SwapRandom, IsTerrible, Draw;
    if n < |s.vRandom| && |acc| < limit {
      var p := Draw(rand, n, |s.vRandom|);
      var m := SwapRandom(s, n, p);
      SwapStep(s, n, p, now);
      GetAddrGrows(m, n + 1, PickNext(acc, m.mapInfo[m.vRandom[n]], now), limit, rand, now);
    }
  }

  /** Nobody is left out for good: for every address worth passing on there are draws that put it first. */
  lemma AnyoneDrawn(s: State, now: int, net: NetAddr) returns (rand: nat -> nat)
    requires Inv(s) && net in Worthy(CardsOf(s), now) && GetAddrLimit(|s.vRandom|) > 0
    ensures Listed(s)
    ensures var out := GetAddrFrom(s, 0, [], GetAddrLimit(|s.vRandom|), rand, now).1;
            |out| > 0 && out[0] == AddressOf(CardsOf(s)[net])
  {
    hide *;
    InvMid(s);
    AddrIndexOf(s, {}, 0);
    RandomOf(s);
    ListedInv(s);
    WorthyIs(CardsOf(s), now, net);
    ByAddress(s, net);
    Stored(s, net);
    var id: Id := s.mapAddr[net];
    CardForIs(s, id);
    AddressIs(s.mapInfo[id], SlotsOf(s.news, id));
    Terrible(s.mapInfo[id], SlotsOf(s.news, id), now);
    RandomPlace(s, id);
    rand := _ => s.mapInfo[id].randomPos;
    FirstDrawn(s, s.mapInfo[id].randomPos, GetAddrLimit(|s.vRandom|), rand, now);
  }

  lemma WorthyIs(b: Cards, now: int, net: NetAddr)
    ensures net in Worthy(b, now) <==> net in b && !Hopeless(b[net], now)
  {
  }

  lemma AddressIs(i: Info, slots: set<Slot>)
    ensures AddressOf(CardOf(i, slots)) == ToAddress(i)
  {
  }

  lemma FirstDrawn(s: State, p: nat, limit: nat, rand: nat -> nat, now: int)
    requires Inv(s) && Listed(s) && p < |s.vRandom| && rand(0) == p && limit > 0
    requires s.vRandom[p] in s.mapInfo && !IsTerrible(s.mapInfo[s.vRandom[p]], now)
    ensures var out := GetAddrFrom(s, 0, [], limit, rand, now).1;
            |out| > 0 && out[0] == ToAddress(s.mapInfo[s.vRandom[p]])
  {
    hide *;
    SwapFirst(s, p);
    var m, id := SwapRandom(s, 0, p), s.vRandom[p];
    SwapStep(s, 0, p, now);
    DrawIs(rand, |s.vRandom|);
    SameAt(s.mapInfo, m.mapInfo, id);
    SameButTerrible(s.mapInfo[id], m.mapInfo[id], now);
    GetAddrNext(s, 0, [], limit, rand, now);
    PickedNow([], m.mapInfo[id], now);
    assert [] + [ToAddress(m.mapInfo[id])] == [ToAddress(m.mapInfo[id])];
    GetAddrGrows(m, 1, [ToAddress(m.mapInfo[id])], limit, rand, now);
  }

  lemma SwapFirst(s: State, p: nat)
    requires Listed(s) && p < |s.vRandom|
    ensures s.vRandom[0] in s.mapInfo && s.vRandom[p] in s.mapInfo
    ensures SwapRandom(s, 0, p).vRandom[0] == s.vRandom[p] && Listed(SwapRandom(s, 0, p))
  {
  }

  lemma DrawIs(rand: nat -> nat, size: nat)
    requires rand(0) < size
    ensures Draw(rand, 0, size) == rand(0)
  {
  }

  lemma SameAt(m: map<Id, Info>, n: map<Id, Info>, id: Id)
    requires SameButRandom(m, n) && id in m
    ensures id in n && n[id].(randomPos := m[id].randomPos) == m[id] && ToAddress(n[id]) == ToAddress(m[id])
    ensures n[id].service == m[id].service
  {
  }

  lemma PickedNow(acc: seq<Address>, i: Info, now: int)
    ensures !IsTerrible(i, now) ==> PickNext(acc, i, now) == acc + [ToAddress(i)]
  {
    hide IsTerrible;
  }

  lemma GetAddrNext(s: State, n: nat, acc: seq<Address>, limit: nat, rand: nat -> nat, now: int)
    requires Listed(s) && n < |s.vRandom| && |acc| < limit
    ensures var m := SwapRandom(s, n, Draw(rand, n, |s.vRandom|));
            && Listed(m) && n < |m.vRandom| && m.vRandom[n] in m.mapInfo
            && GetAddrFrom(s, n, acc, limit, rand, now) ==
               GetAddrFrom(m, n + 1, PickNext(acc, m.mapInfo[m.vRandom[n]], now), limit, rand, now)
  {
    hide IsTerrible, Draw;
  }

  lemma SameButTerrible(i: Info, j: Info, now: int)
    requires j.(randomPos := i.randomPos) == i
    ensures IsTerrible(i, now) <==> IsTerrible(j, now)
  {
  }

  // ---------------------------------------------------------------- every run

  /** Every operation on a consistent manager is its operation on the book. */
  lemma StepRefines(s: State, op: Op)
    requires Inv(s) && PositiveTimes(op)
    ensures OpOk(s, op) && Inv(Step(s, op)) && Step(s, op).key == s.key
    ensures BookOf(Step(s, op)) == BookStep(BookOf(s), s.key, op)
  {
    hide Mid, CardsOf, Add, AddOk, Good, GoodOk, GetAddrFrom, Attempt, Connected, SetServices, Announce, Succeed, Fail,
         Contact, Serve, Listed, SlotsOf;
    OpInv(s, op);
    StepKeeps(s, op);
    match op
    case Adding(a, source, penalty, routable, now, rnd) =>
      if !routable {
        NotRoutable(s, a, source, penalty, now, rnd);
      } else if a.service.net in s.mapAddr {
        AddKnown(s, a, source, penalty, now, rnd);
      } else {
        AddUnknown(s, a, source, penalty, now, rnd);
      }
    case MarkingGood(a, t) => GoodCards(s, a, t);
    case Attempting(a, c, t) => AttemptCards(s, a, c, t);
    case Connecting(a, t) => ConnectedCards(s, a, t);
    case SettingServices(a, v) => ServicesCards(s, a, v);
    case Sampling(rand, now) => SampleIs(s, rand, now);
  }

  /** The key never changes, and the time of the last success only with a success. */
  lemma StepKeeps(s: State, op: Op)
    requires Inv(s) && PositiveTimes(op) && OpOk(s, op)
    ensures Step(s, op).key == s.key && Step(s, op).lastGood == if op.MarkingGood? then op.goodTime else s.lastGood
  {
    hide Mid, GetAddrFrom, Add, AddOk, Good, GoodOk;
    match op
    case Sampling(rand, now) => SamplingKeeps(s, rand, now);
    case Adding(a, source, penalty, routable, now, rnd) => AddFields(s, a, source, penalty, routable, now, rnd);
    case MarkingGood(a, t) => GoodFields(s, a, t);
    case _ =>
  }

  lemma AddFields(s: State, a: Address, source: NetAddr, penalty: int, routable: bool, now: int, rnd: nat)
    requires AddOk(s, a, source, penalty, routable, now, rnd)
    ensures var r := Add(s, a, source, penalty, routable, now, rnd).0; r.key == s.key && r.lastGood == s.lastGood
  {
    hide List, Listable, NoNews, Refreshed;
    var late := Penalty(a, source, penalty);
    if routable && Found(s, a.service.net) {
      var id := s.mapAddr[a.service.net];
      var r := SetInfo(s, id, Refreshed(s.mapInfo[id], a, late, now));
      if !NoNews(r.mapInfo[id], a, rnd) {
        ListFields(r, id, source, now);
      }
    } else if routable {
      ListFields(Announced(s, a, source, late), s.idCount, source, now);
    }
  }

  lemma GoodFields(s: State, a: Service, time: int)
    requires GoodOk(s, a, time)
    ensures Good(s, a, time).key == s.key && Good(s, a, time).lastGood == time
  {
    hide MakeTried, Triable, InSomeBucket;
    if Known(s, a) && !s.mapInfo[s.mapAddr[a.net]].inTried {
      var id := s.mapAddr[a.net];
      MakeTriedFields(SetInfo(s.(lastGood := time), id, Succeeded(s.mapInfo[id], time)), id);
    }
  }

  lemma NotRoutable(s: State, a: Address, source: NetAddr, penalty: int, now: int, rnd: nat)
    requires AddOk(s, a, source, penalty, false, now, rnd)
    ensures Add(s, a, source, penalty, false, now, rnd) == (s, false)
  {
  }

  /** Every run of the manager, from any consistent state, is the run of its book. */
  lemma {:induction false} RunRefines(s: State, ops: seq<Op>)
    requires Inv(s) && forall i :: 0 <= i < |ops| ==> PositiveTimes(ops[i])
    ensures RunOk(s, ops) && Inv(Run(s, ops)) && BookOf(Run(s, ops)) == BookRun(BookOf(s), s.key, ops)
    decreases |ops|
  {
    hide Mid, Step, BookStep, BookOf;
    if |ops| > 0 {
      StepRefines(s, ops[0]);
      RunRefines(Step(s, ops[0]), ops[1..]);
    }
  }

  /** A new manager is the empty book. */
  lemma EmptyBook(key: Key, ops: seq<Op>)
    requires forall i :: 0 <= i < |ops| ==> PositiveTimes(ops[i])
    ensures RunOk(Empty(key), ops) && BookOf(Run(Empty(key), ops)) == BookRun(Book(map[], 1), key, ops)
  {
    EveryRunConsistent(key, []);
    RunRefines(Empty(key), ops);
  }

  // ---------------------------------------------------------------- the stored form

  /** When an address was last tried is not stored. */
  function Forgetful(b: Cards): Cards {
    map net | net in b :: b[net].(lastTry := 0, lastCountAttempt := 0)
  }

  lemma RenumberedSlots(s: State, r: State, order: seq<Id>, k: nat)
    requires Renumbered(s, order, r) && k < |order|
    ensures SlotsOf(r.news, k) == SlotsOf(s.news, order[k])
  {
    forall sl | sl in s.news ensures r.news[sl] == k <==> s.news[sl] == order[k] {
      var j: Id := r.news[sl];
      assert order[j] == s.news[sl];
      assert j < k ==> order[j] != order[k];
      assert k < j ==> order[k] != order[j];
    }
  }

  lemma RenumberedCard(s: State, r: State, order: seq<Id>, k: nat)
    requires Renumbered(s, order, r) && k < |order|
    ensures k in r.mapInfo && order[k] in s.mapInfo && r.mapInfo[k].service == s.mapInfo[order[k]].service
    ensures CardFor(r, k) == CardFor(s, order[k]).(lastTry := 0, lastCountAttempt := 0)
  {
    RenumberedSlots(s, r, order, k);
    assert r.mapInfo[k] == Returned(s.mapInfo[order[k]], k);
  }

  lemma RenumberedParts(s: State, r: State, order: seq<Id>)
    requires Renumbered(s, order, r)
    ensures r.key == s.key && forall k :: k in r.mapInfo <==> 0 <= k < |order|
    ensures forall net :: net in r.mapAddr <==> net in s.mapAddr
  {
  }

  /** A manager that is written and read again has the same book, but for the last tries and the last success. */
  lemma SavedBook(s: State, key0: Key)
    requires Inv(s)
    ensures Serializable(s)
    ensures var r := Unserialize(Empty(key0), Serialize(s));
            r.Some? && Inv(r.value) && BookOf(r.value) == Book(Forgetful(CardsOf(s)), 1) && r.value.key == s.key
  {
    hide *;
    RoundTrip(s, key0);
    LoadedFields(Empty(key0), Serialize(s));
    BookIs(Unserialize(Empty(key0), Serialize(s)).value);
    var r, order := Unserialize(Empty(key0), Serialize(s)).value, Order(s);
    InvMid(s);
    InvMid(r);
    AddrIndexOf(s, {}, 0);
    AddrIndexOf(r, {}, 0);
    RenumberedParts(s, r, order);
    var b := Forgetful(CardsOf(s));
    ForgetfulIs(CardsOf(s));
    forall k | k in r.mapInfo ensures r.mapInfo[k].service.net in b && b[r.mapInfo[k].service.net] == CardFor(r, k) {
      RenumberedCard(s, r, order, k);
      ById(s, order[k]);
    }
    forall net ensures net in b <==> net in r.mapAddr {
      ByAddress(s, net);
    }
    MakeCards(r, b);
  }

  lemma BookIs(s: State)
    ensures BookOf(s) == Book(CardsOf(s), s.lastGood)
  {
  }

  lemma ForgetfulIs(b: Cards)
    ensures Forgetful(b).Keys == b.Keys
    ensures forall net :: net in b ==> Forgetful(b)[net] == b[net].(lastTry := 0, lastCountAttempt := 0)
  {
  }
}
