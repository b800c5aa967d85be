/** Writing a consistent address manager and reading it into a new one gives back the same entries,
    slots and counters, renumbered, and nothing is lost on the way. */
module AddrManRoundTrip {
  import opened AddrMan
  import opened AddrManStream
  import opened Options
  import Sets

  // ---------------------------------------------------------------- the renumbering

  /** In a consistent state the referenced entries are the new ones. */
  lemma OrderFacts(s: State)
    requires Inv(s)
    ensures ReferencedIds(s.mapInfo) == NewIds(s.mapInfo)
    ensures |NewOrder(s)| == s.nNew && |TriedOrder(s)| == s.nTried
    ensures Serializable(s)
  {
    forall id | id in s.mapInfo ensures s.mapInfo[id].refCount != 0 <==> !s.mapInfo[id].inTried {
      if s.mapInfo[id].inTried {
        assert SlotsOf(s.news, id) == {};
      }
    }
  }

  lemma {:induction false} IndexOfAt(v: seq<Id>, i: nat)
    requires Increasing(v) && i < |v|
    ensures IndexOf(v, v[i]) == i
  {
    if i > 0 {
      assert v[1..][i - 1] == v[i];
      IndexOfAt(v[1..], i - 1);
    }
  }

  // ---------------------------------------------------------------- reading the entries back

  /** Entry k of the order, as it is right after reading: no slots yet. */
  function Fresh(i: Info, k: int, tried: bool): Info {
    Overwritten(NO_INFO, ToRecord(i)).(randomPos := k, inTried := tried)
  }

  /** t holds the first |order| entries of s under their place in the order, and nothing else. */
  ghost predicate Holds(s: State, order: seq<Id>, nNew: nat, t: State) {
    && (forall i :: 0 <= i < |order| ==> order[i] in s.mapInfo)
    && (forall k :: k in t.mapInfo <==> 0 <= k < |order|)
    && (forall k :: 0 <= k < |order| ==> t.mapInfo[k] == Fresh(s.mapInfo[order[k]], k, k >= nNew))
    && |t.vRandom| == |order| && (forall k :: 0 <= k < |order| ==> t.vRandom[k] == k)
    && (forall k :: 0 <= k < |order| ==>
          s.mapInfo[order[k]].service.net in t.mapAddr && t.mapAddr[s.mapInfo[order[k]].service.net] == k)
    && (forall a :: a in t.mapAddr ==> 0 <= t.mapAddr[a] < |order| && s.mapInfo[order[t.mapAddr[a]]].service.net == a)
  }

  /** Different entries of a consistent state have different addresses. */
  ghost predicate DistinctNets(s: State, order: seq<Id>) {
    && (forall i :: 0 <= i < |order| ==> order[i] in s.mapInfo)
    && (forall i, j :: 0 <= i < j < |order| ==> s.mapInfo[order[i]].service.net != s.mapInfo[order[j]].service.net)
  }

  lemma HoldsNext(s: State, order: seq<Id>, nNew: nat, t: State, t': State, id: Id)
    requires DistinctNets(s, order + [id]) && Holds(s, order, nNew, t) && id in s.mapInfo
    requires t' == t.(mapInfo := t.mapInfo[|order| := Fresh(s.mapInfo[id], |order|, |order| >= nNew)],
                      mapAddr := t.mapAddr[s.mapInfo[id].service.net := |order|],
                      vRandom := t.vRandom + [|order|],
                      tried := t'.tried, idCount := t'.idCount)
    ensures Holds(s, order + [id], nNew, t')
  {
    var o, n := order + [id], |order|;
    assert o[n] == id && forall k :: 0 <= k < n ==> o[k] == order[k];
    forall k | 0 <= k < n ensures s.mapInfo[o[k]].service.net != s.mapInfo[id].service.net {
      assert s.mapInfo[o[k]].service.net != s.mapInfo[o[n]].service.net;
    }
  }

  lemma {:induction false} LoadNewHolds(s: State, order: seq<Id>, n: nat, t: State, rest: seq<Token>)
    requires DistinctNets(s, order) && n <= |order| == t.nNew
    requires Holds(s, order[..n], |order|, t)
    ensures var r := LoadNew(t, Records(s.mapInfo, order)[n..] + rest, n, true);
            r.Success? && r.rest == rest && Holds(s, order, |order|, r.value)
            && r.value == t.(mapInfo := r.value.mapInfo, mapAddr := r.value.mapAddr, vRandom := r.value.vRandom)
    decreases |order| - n
  {
    var recs := Records(s.mapInfo, order);
    if n == |order| {
      assert order[..n] == order && recs[n..] + rest == rest;
    } else {
      var st := recs[n..] + rest;
      assert st[0] == recs[n] && st[1..] == recs[n + 1..] + rest;
      var t' := WithNew(t, n, ToRecord(s.mapInfo[order[n]]), true);
      assert order[..n + 1] == order[..n] + [order[n]];
      assert DistinctNets(s, order[..n + 1]);
      HoldsNext(s, order[..n], |order|, t, t', order[n]);
      LoadNewHolds(s, order, n + 1, t', rest);
    }
  }

  /** The tried table of t mentions exactly the entries nNew.. of the order, each at its own slot. */
  ghost predicate TriedHeld(s: State, order: seq<Id>, nNew: nat, t: State) {
    && (forall i :: 0 <= i < |order| ==> order[i] in s.mapInfo)
    && (forall sl :: sl in t.tried ==>
          nNew <= t.tried[sl] < |order| && sl == TriedSlot(s.key, s.mapInfo[order[t.tried[sl]]].service))
    && (forall k :: nNew <= k < |order| ==> TriedSlot(s.key, s.mapInfo[order[k]].service) in t.tried &&
                                            t.tried[TriedSlot(s.key, s.mapInfo[order[k]].service)] == k)
  }

  /** Tried entries of a consistent state have different slots. */
  ghost predicate DistinctSlots(s: State, order: seq<Id>, nNew: nat) {
    && (forall i :: 0 <= i < |order| ==> order[i] in s.mapInfo)
    && (forall i, j :: nNew <= i < j < |order| ==>
          TriedSlot(s.key, s.mapInfo[order[i]].service) != TriedSlot(s.key, s.mapInfo[order[j]].service))
  }

  lemma TriedHeldNext(s: State, order: seq<Id>, nNew: nat, t: State, t': State, id: Id)
    requires nNew <= |order| && id in s.mapInfo && DistinctSlots(s, order + [id], nNew) && TriedHeld(s, order, nNew, t)
    ensures TriedSlot(s.key, s.mapInfo[id].service) !in t.tried
    ensures t'.tried == t.tried[TriedSlot(s.key, s.mapInfo[id].service) := |order|] ==>
              TriedHeld(s, order + [id], nNew, t')
  {
    var o, n := order + [id], |order|;
    assert o[n] == id && forall k :: 0 <= k < n ==> o[k] == order[k];
    forall k | nNew <= k < n
      ensures TriedSlot(s.key, s.mapInfo[o[k]].service) != TriedSlot(s.key, s.mapInfo[id].service)
    {
      assert TriedSlot(s.key, s.mapInfo[o[k]].service) != TriedSlot(s.key, s.mapInfo[o[n]].service);
    }
  }

  /** Entry n of the order finds its tried slot free. */
  lemma TriedStep(s: State, order: seq<Id>, nNew: nat, n: nat, t: State)
    requires DistinctNets(s, order) && DistinctSlots(s, order, nNew) && nNew <= n < |order|
    requires Holds(s, order[..n], nNew, t) && TriedHeld(s, order[..n], nNew, t) && t.idCount == n && t.key == s.key
    ensures var t' := WithTried(t, ToRecord(s.mapInfo[order[n]]));
            && Holds(s, order[..n + 1], nNew, t') && TriedHeld(s, order[..n + 1], nNew, t')
            && t' == t.(mapInfo := t'.mapInfo, mapAddr := t'.mapAddr, vRandom := t'.vRandom, tried := t'.tried,
                         idCount := n + 1)
  {
    var id := order[n];
    var t' := WithTried(t, ToRecord(s.mapInfo[id]));
    assert order[..n + 1] == order[..n] + [id];
    TriedHeldNext(s, order[..n], nNew, t, t', id);
    HoldsNext(s, order[..n], nNew, t, t', id);
  }

  lemma {:induction false} LoadTriedHolds(s: State, order: seq<Id>, nNew: nat, n: nat, t: State, rest: seq<Token>)
    requires DistinctNets(s, order) && DistinctSlots(s, order, nNew) && nNew <= n <= |order|
    requires Holds(s, order[..n], nNew, t) && TriedHeld(s, order[..n], nNew, t) && t.idCount == n && t.key == s.key
    ensures var r := LoadTried(t, Records(s.mapInfo, order)[n..] + rest, |order| - n);
            && r.Success? && r.rest == rest && Holds(s, order, nNew, r.value) && TriedHeld(s, order, nNew, r.value)
            && r.value == t.(mapInfo := r.value.mapInfo, mapAddr := r.value.mapAddr, vRandom := r.value.vRandom,
                             tried := r.value.tried, idCount := |order|)
    decreases |order| - n
  {
    hide Holds, TriedHeld, DistinctSlots, WithTried;
    var recs := Records(s.mapInfo, order);
    if n == |order| {
      assert order[..n] == order && recs[n..] + rest == rest;
    } else {
      var st := recs[n..] + rest;
      assert st[0] == recs[n] && st[1..] == recs[n + 1..] + rest;
      TriedStep(s, order, nNew, n, t);
      LoadTriedHolds(s, order, nNew, n + 1, WithTried(t, ToRecord(s.mapInfo[order[n]])), rest);
    }
  }

  // ---------------------------------------------------------------- reading the new buckets back

  function VisitedSlots(s: State, id: Id, b: int, p: int): set<Slot> {
    set sl | sl in s.news && s.news[sl] == id && Visited(sl, b, p)
  }

  /** The slots of s in front of (b, p), with renumbered holders. */
  ghost function UptoNews(s: State, order: seq<Id>, b: int, p: int): map<Slot, Id>
    requires forall sl :: sl in s.news ==> s.news[sl] in order
  {
    map sl | sl in s.news && Visited(sl, b, p) :: IndexOf(order, s.news[sl])
  }

  /** The entries, with the references those slots give them. */
  ghost function UptoInfo(s: State, order: seq<Id>, m: map<Id, Info>, b: int, p: int): map<Id, Info> {
    map k | k in m :: if 0 <= k < |order| then m[k].(refCount := |VisitedSlots(s, order[k], b, p)|) else m[k]
  }

  /** t after the places in front of (b, p) have been read. */
  ghost function Upto(s: State, order: seq<Id>, t: State, b: int, p: int): State
    requires forall sl :: sl in s.news ==> s.news[sl] in order
  {
    t.(news := UptoNews(s, order, b, p), mapInfo := UptoInfo(s, order, t.mapInfo, b, p))
  }

  /** t can take the new buckets of s: its first entries are those of `order`. */
  ghost predicate Ready(s: State, order: seq<Id>, t: State) {
    && Increasing(order) && t.nNew == |order| && t.key == s.key
    && (forall sl :: sl in s.news ==> s.news[sl] in order)
    && (forall k :: 0 <= k < |order| ==>
          order[k] in s.mapInfo && k in t.mapInfo && t.mapInfo[k].service == s.mapInfo[order[k]].service)
  }

  lemma VisitedNext(s: State, id: Id, b: int, p: int)
    ensures var here := (b, p) in s.news && s.news[(b, p)] == id;
            VisitedSlots(s, id, b, p + 1) == VisitedSlots(s, id, b, p) + (if here then {(b, p)} else {})
    ensures (b, p) !in VisitedSlots(s, id, b, p)
  {
    forall sl | sl in s.news && s.news[sl] == id
      ensures Visited(sl, b, p + 1) <==> Visited(sl, b, p) || sl == (b, p)
    {
      assert sl == (sl.0, sl.1);
    }
  }

  lemma UptoNewsNext(s: State, order: seq<Id>, b: int, p: int)
    requires forall sl :: sl in s.news ==> s.news[sl] in order
    ensures (b, p) !in UptoNews(s, order, b, p)
    ensures UptoNews(s, order, b, p + 1) ==
            if (b, p) in s.news then UptoNews(s, order, b, p)[(b, p) := IndexOf(order, s.news[(b, p)])]
            else UptoNews(s, order, b, p)
  {
    forall sl | sl in s.news ensures Visited(sl, b, p + 1) <==> Visited(sl, b, p) || sl == (b, p) {
      assert sl == (sl.0, sl.1);
    }
  }

  /** A slot not visited yet leaves its holder below the maximum of references. */
  lemma RoomLeft(s: State, b: int, p: int)
    requires Inv(s) && (b, p) in s.news
    ensures |VisitedSlots(s, s.news[(b, p)], b, p)| < NEW_BUCKETS_PER_ADDRESS
    ensures NewSlot(s.key, s.mapInfo[s.news[(b, p)]].service, b) == (b, p)
  {
    var id := s.news[(b, p)];
    var all := SlotsOf(s.news, id);
    assert (b, p) in all && VisitedSlots(s, id, b, p) <= all - {(b, p)};
    Smaller(VisitedSlots(s, id, b, p), all - {(b, p)});
    assert s.mapInfo[id].refCount == |all|;
  }

  lemma {:induction false} Smaller<T>(a: set<T>, b: set<T>)
    requires a <= b
    ensures |a| <= |b|
  {
    if a != {} {
      var x :| x in a;
      Smaller(a - {x}, b - {x});
    }
  }

  lemma UptoSkip(s: State, order: seq<Id>, t: State, b: int, p: int)
    requires Ready(s, order, t) && (b, p) !in s.news
    ensures Upto(s, order, t, b, p + 1) == Upto(s, order, t, b, p)
  {
    UptoNewsNext(s, order, b, p);
    forall id ensures VisitedSlots(s, id, b, p + 1) == VisitedSlots(s, id, b, p) {
      VisitedNext(s, id, b, p);
    }
    hide VisitedSlots, UptoNews;
    assert UptoInfo(s, order, t.mapInfo, b, p + 1) == UptoInfo(s, order, t.mapInfo, b, p);
  }

  lemma UptoInfoNext(s: State, order: seq<Id>, m: map<Id, Info>, b: int, p: int, k: nat)
    requires Increasing(order) && k < |order| && k in m && (b, p) in s.news && s.news[(b, p)] == order[k]
    ensures var u := UptoInfo(s, order, m, b, p);
            UptoInfo(s, order, m, b, p + 1) == u[k := u[k].(refCount := u[k].refCount + 1)]
  {
    forall j ensures |VisitedSlots(s, j, b, p + 1)| == |VisitedSlots(s, j, b, p)| + if j == order[k] then 1 else 0 {
      VisitedNext(s, j, b, p);
    }
    hide VisitedSlots;
    assert forall j :: 0 <= j < |order| && j != k ==> order[j] != order[k];
  }

  lemma UptoPlace(s: State, order: seq<Id>, t: State, b: int, p: int)
    requires Inv(s) && Ready(s, order, t) && (b, p) in s.news
    ensures WithPlace(Upto(s, order, t, b, p), b, IndexOf(order, s.news[(b, p)]), true) == Upto(s, order, t, b, p + 1)
  {
    hide Mid, NewSlot, UptoNews, VisitedSlots;
    var id := s.news[(b, p)];
    var k := IndexOf(order, id);
    RoomLeft(s, b, p);
    UptoNewsNext(s, order, b, p);
    UptoInfoNext(s, order, t.mapInfo, b, p, k);
    var u := Upto(s, order, t, b, p);
    assert k in u.mapInfo && u.mapInfo[k].service == s.mapInfo[id].service;
    assert u.mapInfo[k].refCount == |VisitedSlots(s, id, b, p)|;
  }

  lemma LoadOne(s: State, n: int, st: seq<Token>, b: int, size: nat)
    ensures LoadBucket(s, [Num(n)] + st, b, size + 1, true) == LoadBucket(WithPlace(s, b, n, true), st, b, size, true)
  {
    var all := [Num(n)] + st;
    assert all[0] == Num(n) && all[1..] == st;
  }

  lemma {:induction false} LoadBucketUpto(s: State, order: seq<Id>, t: State, b: int, p: nat, rest: seq<Token>)
    requires Inv(s) && Ready(s, order, t) && p <= BUCKET_SIZE
    ensures var tail := BucketTail(s, order, b, p);
            LoadBucket(Upto(s, order, t, b, p), tail + rest, b, |tail|, true) ==
              Success(Upto(s, order, t, b, BUCKET_SIZE), rest)
    decreases BUCKET_SIZE - p
  {
    hide Mid, Upto, WithPlace, IndexOf;
    var tail := BucketTail(s, order, b, p);
    if p == BUCKET_SIZE {
      assert tail + rest == rest;
    } else {
      LoadBucketUpto(s, order, t, b, p + 1, rest);
      var next := BucketTail(s, order, b, p + 1);
      if (b, p) in s.news {
        UptoPlace(s, order, t, b, p);
        var num := Num(IndexOf(order, s.news[(b, p)]));
        assert tail == [num] + next;
        hide BucketTail;
        LoadOne(Upto(s, order, t, b, p), num.n, next + rest, b, |next|);
        assert tail + rest == [num] + (next + rest);
      } else {
        UptoSkip(s, order, t, b, p);
        assert tail == next;
      }
    }
  }

  lemma SlotInRange(s: State, sl: Slot)
    requires Inv(s) && sl in s.news
    ensures 0 <= sl.0 < NEW_BUCKET_COUNT && 0 <= sl.1 < BUCKET_SIZE
  {
    assert sl.1 == NewSlot(s.key, s.mapInfo[s.news[sl]].service, sl.0).1;
  }

  lemma RowEnd(s: State, order: seq<Id>, t: State, b: int)
    requires Inv(s) && Ready(s, order, t)
    ensures Upto(s, order, t, b, BUCKET_SIZE) == Upto(s, order, t, b + 1, 0)
  {
    hide Mid, IndexOf;
    forall sl | sl in s.news ensures Visited(sl, b, BUCKET_SIZE) <==> Visited(sl, b + 1, 0) {
      SlotInRange(s, sl);
    }
    hide Visited;
    assert UptoNews(s, order, b, BUCKET_SIZE) == UptoNews(s, order, b + 1, 0);
    forall id ensures VisitedSlots(s, id, b, BUCKET_SIZE) == VisitedSlots(s, id, b + 1, 0) { }
    hide VisitedSlots, UptoNews;
    assert UptoInfo(s, order, t.mapInfo, b, BUCKET_SIZE) == UptoInfo(s, order, t.mapInfo, b + 1, 0);
  }

  lemma {:induction false} LoadBucketsUpto(s: State, order: seq<Id>, t: State, b: nat)
    requires Inv(s) && Ready(s, order, t) && b <= NEW_BUCKET_COUNT
    ensures LoadBuckets(Upto(s, order, t, b, 0), BucketsFrom(s, order, b), b, NEW_BUCKET_COUNT, true) ==
            Success(Upto(s, order, t, NEW_BUCKET_COUNT, 0), [])
    decreases NEW_BUCKET_COUNT - b
  {
    hide Mid, Upto, BucketTail, LoadBucket;
    if b < NEW_BUCKET_COUNT {
      var tail, more := BucketTail(s, order, b, 0), BucketsFrom(s, order, b + 1);
      var st := BucketsFrom(s, order, b);
      assert st == [Num(|tail|)] + tail + more && st[0] == Num(|tail|) && st[1..] == tail + more;
      LoadBucketUpto(s, order, t, b, 0, more);
      RowEnd(s, order, t, b);
      LoadBucketsUpto(s, order, t, b + 1);
    }
  }

  lemma {:induction false} PruneNothing(s: State, ids: seq<Id>)
    requires forall id :: id in s.mapInfo && !s.mapInfo[id].inTried ==> s.mapInfo[id].refCount != 0
    ensures Prune(s, ids) == Some(s)
    decreases |ids|
  {
    if |ids| > 0 {
      PruneNothing(s, ids[1..]);
    }
  }

  // ---------------------------------------------------------------- the round trip

  /** r is s with entry order[k] called k: same addresses, statistics on disk, slots and counters. */
  ghost predicate Renumbered(s: State, order: seq<Id>, r: State) {
    && |order| == |s.mapInfo| == r.idCount
    && (forall i, j :: 0 <= i < j < |order| ==> order[i] != order[j])
    && (forall i :: 0 <= i < |order| ==> order[i] in s.mapInfo)
    && (forall id :: id in s.mapInfo ==> id in order)
    && r.key == s.key && r.nNew == s.nNew && r.nTried == s.nTried
    && (forall k :: k in r.mapInfo <==> 0 <= k < |order|)
    && (forall k :: 0 <= k < |order| ==>
          r.mapInfo[k] == Returned(s.mapInfo[order[k]], k))
    && |r.vRandom| == |order| && (forall k :: 0 <= k < |order| ==> r.vRandom[k] == k)
    && (forall a :: a in r.mapAddr <==> a in s.mapAddr)
    && (forall a :: a in r.mapAddr ==> 0 <= r.mapAddr[a] < |order| && order[r.mapAddr[a]] == s.mapAddr[a])
    && SameSlots(s.news, order, r.news) && SameSlots(s.tried, order, r.tried)
  }

  ghost predicate SameSlots(t: map<Slot, Id>, order: seq<Id>, u: map<Slot, Id>) {
    && u.Keys == t.Keys
    && forall sl :: sl in u ==> 0 <= u[sl] < |order| && order[u[sl]] == t[sl]
  }

  /** New entries first, then tried ones; every entry once. */
  ghost function Order(s: State): (v: seq<Id>)
    ensures forall i :: 0 <= i < |v| ==> v[i] in s.mapInfo
  {
    NewOrder(s) + TriedOrder(s)
  }

  lemma OrderKinds(s: State, i: nat)
    requires Inv(s) && i < |Order(s)|
    ensures Order(s)[i] in s.mapInfo && (s.mapInfo[Order(s)[i]].inTried <==> i >= |NewOrder(s)|)
  {
    hide Mid, Sorted;
    OrderFacts(s);
    var a, b := NewOrder(s), TriedOrder(s);
    if i < |a| {
      assert Order(s)[i] == a[i] && a[i] in NewIds(s.mapInfo);
    } else {
      assert Order(s)[i] == b[i - |a|] && b[i - |a|] in TriedIds(s.mapInfo);
    }
  }

  lemma OrderDistinct(s: State, i: nat, j: nat)
    requires Inv(s) && i < j < |Order(s)|
    ensures Order(s)[i] != Order(s)[j]
  {
    hide Mid, Sorted;
    OrderKinds(s, i);
    OrderKinds(s, j);
    var a, b, o := NewOrder(s), TriedOrder(s), Order(s);
    if j < |a| {
      assert o[i] == a[i] && o[j] == a[j];
    } else if i >= |a| {
      assert o[i] == b[i - |a|] && o[j] == b[j - |a|];
    }
  }

  lemma OrderCovers(s: State)
    requires Inv(s)
    ensures |Order(s)| == |s.mapInfo|
    ensures forall id :: id in s.mapInfo ==> id in Order(s)
  {
    hide Mid, Sorted;
    OrderFacts(s);
    var m := s.mapInfo;
    assert NewIds(m) + TriedIds(m) == m.Keys && NewIds(m) !! TriedIds(m);
    forall id | id in m ensures id in Order(s) {
      assert id in NewIds(m) || id in TriedIds(m);
      assert id in NewOrder(s) || id in TriedOrder(s);
    }
  }

  lemma NetsDiffer(s: State, x: Id, y: Id)
    requires Inv(s) && x in s.mapInfo && y in s.mapInfo && x != y
    ensures s.mapInfo[x].service.net != s.mapInfo[y].service.net
    ensures s.mapInfo[x].inTried && s.mapInfo[y].inTried ==>
            TriedSlot(s.key, s.mapInfo[x].service) != TriedSlot(s.key, s.mapInfo[y].service)
  {
    assert s.mapAddr[s.mapInfo[x].service.net] == x && s.mapAddr[s.mapInfo[y].service.net] == y;
    if s.mapInfo[x].inTried && s.mapInfo[y].inTried {
      assert s.tried[TriedSlot(s.key, s.mapInfo[x].service)] == x;
      assert s.tried[TriedSlot(s.key, s.mapInfo[y].service)] == y;
    }
  }

  lemma OrderSeparates(s: State)
    requires Inv(s)
    ensures DistinctNets(s, Order(s)) && DistinctSlots(s, Order(s), |NewOrder(s)|)
  {
    hide Mid, Order;
    var o := Order(s);
    forall i | 0 <= i < |o| ensures o[i] in s.mapInfo && (s.mapInfo[o[i]].inTried <==> i >= |NewOrder(s)|) {
      OrderKinds(s, i);
    }
    forall i, j | 0 <= i < j < |o|
      ensures s.mapInfo[o[i]].service.net != s.mapInfo[o[j]].service.net
      ensures |NewOrder(s)| <= i ==>
                TriedSlot(s.key, s.mapInfo[o[i]].service) != TriedSlot(s.key, s.mapInfo[o[j]].service)
    {
      OrderDistinct(s, i, j);
      NetsDiffer(s, o[i], o[j]);
    }
  }

  /** The state right before pruning. */
  ghost function Reloaded(s: State, t: State): State
    requires Serializable(s)
  {
    Upto(s, NewOrder(s), t, NEW_BUCKET_COUNT, 0)
  }

  lemma AllVisited(s: State, id: Id)
    requires Inv(s)
    ensures VisitedSlots(s, id, NEW_BUCKET_COUNT, 0) == SlotsOf(s.news, id)
    ensures VisitedSlots(s, id, 0, 0) == {}
  {
    hide Mid;
    forall sl | sl in s.news ensures 0 <= sl.0 < NEW_BUCKET_COUNT && 0 <= sl.1 < BUCKET_SIZE {
      SlotInRange(s, sl);
    }
  }

  lemma UptoStart(s: State, order: seq<Id>, t: State)
    requires Inv(s) && Ready(s, order, t) && t.news == map[]
    requires forall k :: k in t.mapInfo ==> t.mapInfo[k].refCount == 0
    ensures Upto(s, order, t, 0, 0) == t
  {
    hide Mid;
    forall sl | sl in s.news ensures !Visited(sl, 0, 0) {
      SlotInRange(s, sl);
    }
    assert UptoNews(s, order, 0, 0) == map[];
    forall id ensures VisitedSlots(s, id, 0, 0) == {} {
      AllVisited(s, id);
    }
    hide VisitedSlots;
    assert UptoInfo(s, order, t.mapInfo, 0, 0) == t.mapInfo;
  }

  lemma ReloadedNews(s: State, t: State)
    requires Inv(s) && Serializable(s)
    ensures SameSlots(s.news, Order(s), Reloaded(s, t).news)
  {
    hide Mid, Sorted, IndexOf;
    var a, u := NewOrder(s), Reloaded(s, t).news;
    forall sl | sl in s.news ensures Visited(sl, NEW_BUCKET_COUNT, 0) {
      SlotInRange(s, sl);
    }
    assert u == UptoNews(s, a, NEW_BUCKET_COUNT, 0);
    assert u.Keys == s.news.Keys;
    forall sl | sl in u ensures 0 <= u[sl] < |a| && a[u[sl]] == s.news[sl] { }
    hide UptoNews, NewOrder;
    assert forall k :: 0 <= k < |a| ==> Order(s)[k] == a[k];
  }

  lemma TriedFacts(s: State, sl: Slot, id: Id)
    requires Inv(s)
    ensures sl in s.tried && s.tried[sl] == id <==>
            id in s.mapInfo && s.mapInfo[id].inTried && sl == TriedSlot(s.key, s.mapInfo[id].service)
  {
  }

  lemma ReloadedTriedAt(s: State, t: State, sl: Slot)
    requires Inv(s) && TriedHeld(s, Order(s), |NewOrder(s)|, t)
    ensures sl in t.tried <==> sl in s.tried
    ensures sl in t.tried ==> 0 <= t.tried[sl] < |Order(s)| && Order(s)[t.tried[sl]] == s.tried[sl]
  {
    hide Mid, Order, NewOrder, TriedSlot;
    var o := Order(s);
    OrderCovers(s);
    if sl in s.tried {
      var id := s.tried[sl];
      TriedFacts(s, sl, id);
      assert id in o;
      var k :| 0 <= k < |o| && o[k] == id;
      OrderKinds(s, k);
      assert sl == TriedSlot(s.key, s.mapInfo[o[k]].service);
    }
    if sl in t.tried {
      OrderKinds(s, t.tried[sl]);
      TriedFacts(s, sl, o[t.tried[sl]]);
    }
  }

  lemma ReloadedTried(s: State, t: State)
    requires Inv(s) && TriedHeld(s, Order(s), |NewOrder(s)|, t)
    ensures SameSlots(s.tried, Order(s), t.tried)
  {
    hide Mid, Order, NewOrder, TriedHeld;
    forall sl ensures sl in t.tried <==> sl in s.tried
              ensures sl in t.tried ==> 0 <= t.tried[sl] < |Order(s)| && Order(s)[t.tried[sl]] == s.tried[sl]
    {
      ReloadedTriedAt(s, t, sl);
    }
  }

  /** A tried entry has no reference, a new one as many as it has slots. */
  lemma RefsOf(s: State, id: Id)
    requires Inv(s) && id in s.mapInfo
    ensures s.mapInfo[id].refCount == |SlotsOf(s.news, id)|
    ensures s.mapInfo[id].inTried ==> s.mapInfo[id].refCount == 0
    ensures !s.mapInfo[id].inTried ==> s.mapInfo[id].refCount > 0
  {
    if s.mapInfo[id].inTried {
      assert SlotsOf(s.news, id) == {};
    }
  }

  /** Entry id with its new number, as it must come back. */
  function Returned(i: Info, k: int): Info {
    Overwritten(NO_INFO, ToRecord(i)).(randomPos := k, inTried := i.inTried, refCount := i.refCount)
  }

  lemma ReloadedInfo(s: State, t: State, k: nat)
    requires Inv(s) && Serializable(s) && Holds(s, Order(s), |NewOrder(s)|, t) && k < |Order(s)|
    ensures Order(s)[k] in s.mapInfo && k in Reloaded(s, t).mapInfo
    ensures Reloaded(s, t).mapInfo[k] == Returned(s.mapInfo[Order(s)[k]], k)
  {
    hide Mid, Sorted;
    OrderKinds(s, k);
    var id := Order(s)[k];
    RefsOf(s, id);
    AllVisited(s, id);
    assert k < |NewOrder(s)| ==> NewOrder(s)[k] == id;
    assert t.mapInfo[k] == Fresh(s.mapInfo[id], k, k >= |NewOrder(s)|);
    hide VisitedSlots, SlotsOf;
  }

  lemma ReloadedAddr(s: State, t: State, a: NetAddr)
    requires Inv(s) && Holds(s, Order(s), |NewOrder(s)|, t)
    ensures a in t.mapAddr <==> a in s.mapAddr
    ensures a in t.mapAddr ==> 0 <= t.mapAddr[a] < |Order(s)| && Order(s)[t.mapAddr[a]] == s.mapAddr[a]
  {
    OrderCovers(s);
    var o := Order(s);
    hide Order, NewOrder, RandomIndex, NewTable, TriedTable, RefCounts, Times;
    if a in s.mapAddr {
      var id := s.mapAddr[a];
      assert id in o;
      var k :| 0 <= k < |o| && o[k] == id;
      assert s.mapInfo[o[k]].service.net == a;
    }
    if a in t.mapAddr {
      assert s.mapAddr[s.mapInfo[o[t.mapAddr[a]]].service.net] == o[t.mapAddr[a]];
    }
  }

  lemma ReloadedRenumbered(s: State, t: State)
    requires Inv(s) && Serializable(s)
    requires Holds(s, Order(s), |NewOrder(s)|, t) && TriedHeld(s, Order(s), |NewOrder(s)|, t)
    requires t.idCount == |Order(s)| && t.key == s.key && t.nNew == s.nNew && t.nTried == s.nTried
    ensures Renumbered(s, Order(s), Reloaded(s, t))
  {
    hide *;
    OrderCovers(s);
    AllOrderDistinct(s);
    ReloadedNews(s, t);
    ReloadedTried(s, t);
    ReloadedInfos(s, t);
    ReloadedAddrs(s, t);
    SameKeys(s, t);
    HeldPlaces(s, t);
    AllRenumbered(s, Order(s), Reloaded(s, t));
  }

  lemma HeldPlaces(s: State, t: State)
    requires Holds(s, Order(s), |NewOrder(s)|, t)
    ensures (forall k :: k in t.mapInfo <==> 0 <= k < |Order(s)|)
    ensures |t.vRandom| == |Order(s)| && forall k :: 0 <= k < |Order(s)| ==> t.vRandom[k] == k
  {
    hide Order, NewOrder;
  }

  lemma AllOrderDistinct(s: State)
    requires Inv(s)
    ensures forall i, j :: 0 <= i < j < |Order(s)| ==> Order(s)[i] != Order(s)[j]
  {
    hide Inv, Order;
    forall i, j | 0 <= i < j < |Order(s)| ensures Order(s)[i] != Order(s)[j] {
      OrderDistinct(s, i, j);
    }
  }

  lemma ReloadedInfos(s: State, t: State)
    requires Inv(s) && Serializable(s) && Holds(s, Order(s), |NewOrder(s)|, t)
    ensures var o, r := Order(s), Reloaded(s, t);
            forall i :: 0 <= i < |o| ==>
                o[i] in s.mapInfo && i in r.mapInfo && r.mapInfo[i] == Returned(s.mapInfo[o[i]], i)
  {
    hide *;
    forall i | 0 <= i < |Order(s)|
      ensures Order(s)[i] in s.mapInfo && i in Reloaded(s, t).mapInfo
      ensures Reloaded(s, t).mapInfo[i] == Returned(s.mapInfo[Order(s)[i]], i)
    {
      ReloadedInfo(s, t, i);
    }
  }

  lemma ReloadedAddrs(s: State, t: State)
    requires Inv(s) && Holds(s, Order(s), |NewOrder(s)|, t)
    ensures forall a :: a in t.mapAddr <==> a in s.mapAddr
    ensures forall a :: a in t.mapAddr ==> 0 <= t.mapAddr[a] < |Order(s)| && Order(s)[t.mapAddr[a]] == s.mapAddr[a]
  {
    hide *;
    forall a ensures a in t.mapAddr <==> a in s.mapAddr
             ensures a in t.mapAddr ==> 0 <= t.mapAddr[a] < |Order(s)| && Order(s)[t.mapAddr[a]] == s.mapAddr[a]
    {
      ReloadedAddr(s, t, a);
    }
  }

  /** The parts of being renumbered. */
  lemma AllRenumbered(s: State, o: seq<Id>, r: State)
    requires |o| == |s.mapInfo| == r.idCount && r.key == s.key && r.nNew == s.nNew && r.nTried == s.nTried
    requires forall i, j :: 0 <= i < j < |o| ==> o[i] != o[j]
    requires forall id :: id in s.mapInfo ==> id in o
    requires forall k :: k in r.mapInfo <==> 0 <= k < |o|
    requires forall i :: 0 <= i < |o| ==> o[i] in s.mapInfo && r.mapInfo[i] == Returned(s.mapInfo[o[i]], i)
    requires |r.vRandom| == |o| && forall k :: 0 <= k < |o| ==> r.vRandom[k] == k
    requires forall a :: a in r.mapAddr <==> a in s.mapAddr
    requires forall a :: a in r.mapAddr ==> 0 <= r.mapAddr[a] < |o| && o[r.mapAddr[a]] == s.mapAddr[a]
    requires SameSlots(s.news, o, r.news) && SameSlots(s.tried, o, r.tried)
    ensures Renumbered(s, o, r)
  {
    hide SameSlots, Returned;
  }

  lemma SameKeys(s: State, t: State)
    requires Serializable(s)
    ensures var r := Reloaded(s, t);
            && r.mapInfo.Keys == t.mapInfo.Keys && r.vRandom == t.vRandom
            && r.mapAddr == t.mapAddr && r.tried == t.tried
            && r.idCount == t.idCount && r.key == t.key && r.nNew == t.nNew && r.nTried == t.nTried
  {
  }

  function Image(ks: set<Id>, order: seq<Id>): set<Id> {
    set k | k in ks && 0 <= k < |order| :: order[k]
  }

  lemma {:induction false} ImageSize(ks: set<Id>, order: seq<Id>)
    requires forall k :: k in ks ==> 0 <= k < |order|
    requires forall i, j :: 0 <= i < j < |order| ==> order[i] != order[j]
    ensures |Image(ks, order)| == |ks|
  {
    if ks == {} {
      assert Image({}, order) == {};
    } else {
      Sets.Inhabited(ks);
      var x :| x in ks;
      ImageSize(ks - {x}, order);
      var rest := Image(ks - {x}, order);
      assert Image(ks, order) == rest + {order[x]};
      assert order[x] !in rest;
    }
  }

  lemma ImageOfKind(order: seq<Id>, ks: set<Id>, ids: set<Id>)
    requires forall k :: k in ks <==> 0 <= k < |order| && order[k] in ids
    requires forall id :: id in ids ==> id in order
    ensures Image(ks, order) == ids
  {
    forall id | id in ids ensures id in Image(ks, order) {
      var k :| 0 <= k < |order| && order[k] == id;
      assert k in ks;
    }
  }

  lemma RenumberedCounts(s: State, order: seq<Id>, r: State)
    requires Renumbered(s, order, r)
    ensures |NewIds(r.mapInfo)| == |NewIds(s.mapInfo)| && |TriedIds(r.mapInfo)| == |TriedIds(s.mapInfo)|
  {
    hide SameSlots;
    forall k | 0 <= k < |order| ensures k in r.mapInfo && r.mapInfo[k].inTried == s.mapInfo[order[k]].inTried { }
    ImageSize(NewIds(r.mapInfo), order);
    ImageSize(TriedIds(r.mapInfo), order);
    ImageOfKind(order, NewIds(r.mapInfo), NewIds(s.mapInfo));
    ImageOfKind(order, TriedIds(r.mapInfo), TriedIds(s.mapInfo));
  }

  lemma RenumberedRefs(s: State, order: seq<Id>, r: State)
    requires Renumbered(s, order, r) && RefCounts(s.mapInfo, s.news, {}) && Times(s.mapInfo)
    ensures RefCounts(r.mapInfo, r.news, {}) && Times(r.mapInfo)
  {
    forall k | k in r.mapInfo ensures SlotsOf(r.news, k) == SlotsOf(s.news, order[k]) { }
    hide SlotsOf, SameSlots;
  }

  lemma RenumberedNews(s: State, order: seq<Id>, r: State)
    requires Renumbered(s, order, r) && NewTable(s.key, s.mapInfo, s.news)
    ensures NewTable(r.key, r.mapInfo, r.news)
  {
  }

  lemma RenumberedTried(s: State, order: seq<Id>, r: State)
    requires Renumbered(s, order, r) && TriedTable(s.key, s.mapInfo, s.tried)
    ensures TriedTable(r.key, r.mapInfo, r.tried)
  {
    forall sl | sl in r.tried
      ensures r.tried[sl] in r.mapInfo && r.mapInfo[r.tried[sl]].inTried
      ensures sl == TriedSlot(r.key, r.mapInfo[r.tried[sl]].service)
    {
      assert order[r.tried[sl]] == s.tried[sl];
      assert r.mapInfo[r.tried[sl]] == Returned(s.mapInfo[s.tried[sl]], r.tried[sl]);
    }
    forall k | k in r.mapInfo && r.mapInfo[k].inTried
      ensures TriedSlot(r.key, r.mapInfo[k].service) in r.tried && r.tried[TriedSlot(r.key, r.mapInfo[k].service)] == k
    {
      var id := order[k];
      assert r.mapInfo[k] == Returned(s.mapInfo[id], k);
      SlotOfTried(s, id);
      var sl := TriedSlot(s.key, s.mapInfo[id].service);
      assert sl in r.tried && order[r.tried[sl]] == order[k];
    }
  }

  lemma SlotOfTried(s: State, id: Id)
    requires TriedTable(s.key, s.mapInfo, s.tried) && id in s.mapInfo && s.mapInfo[id].inTried
    ensures TriedSlot(s.key, s.mapInfo[id].service) in s.tried && s.tried[TriedSlot(s.key, s.mapInfo[id].service)] == id
  {
  }

  lemma AddrOf(m: map<Id, Info>, mapAddr: map<NetAddr, Id>, id: Id)
    requires AddrIndex(m, mapAddr) && id in m
    ensures m[id].service.net in mapAddr && mapAddr[m[id].service.net] == id
  {
  }

  lemma RenumberedIndexes(s: State, order: seq<Id>, r: State)
    requires Renumbered(s, order, r) && AddrIndex(s.mapInfo, s.mapAddr)
    ensures AddrIndex(r.mapInfo, r.mapAddr) && RandomIndex(r.mapInfo, r.vRandom)
  {
    hide SameSlots;
    forall k | k in r.mapInfo
      ensures r.mapInfo[k].service.net in r.mapAddr && r.mapAddr[r.mapInfo[k].service.net] == k
    {
      var net := r.mapInfo[k].service.net;
      var i := s.mapInfo[order[k]];
      assert r.mapInfo[k] == Returned(i, k);
      AddrOf(s.mapInfo, s.mapAddr, order[k]);
      assert order[r.mapAddr[net]] == order[k];
    }
    forall a | a in r.mapAddr ensures r.mapAddr[a] in r.mapInfo && r.mapInfo[r.mapAddr[a]].service.net == a {
      assert s.mapInfo[s.mapAddr[a]].service.net == a;
    }
  }

  /** A renumbered consistent state is consistent. */
  lemma RenumberedInv(s: State, order: seq<Id>, r: State)
    requires Inv(s) && Renumbered(s, order, r)
    ensures Inv(r)
  {
    hide AddrIndex, RandomIndex, NewTable, TriedTable, RefCounts, Times, SameSlots, NewIds, TriedIds;
    RenumberedCounts(s, order, r);
    RenumberedRefs(s, order, r);
    RenumberedNews(s, order, r);
    RenumberedTried(s, order, r);
    RenumberedIndexes(s, order, r);
  }

  /** A state into which everything has been read but the new buckets. */
  ghost predicate EntriesRead(s: State, t: State) {
    && Holds(s, Order(s), |NewOrder(s)|, t) && TriedHeld(s, Order(s), |NewOrder(s)|, t)
    && t.idCount == |Order(s)| && t.key == s.key && t.nNew == s.nNew && t.nTried == s.nTried
    && t.news == map[] && t.lastGood == 1
  }

  lemma ReadyForBuckets(s: State, t: State)
    requires Inv(s) && EntriesRead(s, t)
    ensures Serializable(s) && Ready(s, NewOrder(s), t)
    ensures Upto(s, NewOrder(s), t, 0, 0) == t
  {
    hide Mid, Sorted;
    OrderFacts(s);
    var a, o := NewOrder(s), Order(s);
    assert forall k :: 0 <= k < |a| ==> o[k] == a[k];
    hide TriedHeld;
    UptoStart(s, a, t);
  }

  lemma BucketsRead(s: State, t: State)
    requires Inv(s) && EntriesRead(s, t)
    ensures Serializable(s)
    ensures LoadBuckets(t, BucketsFrom(s, NewOrder(s), 0), 0, NEW_BUCKET_COUNT, true) == Success(Reloaded(s, t), [])
    ensures Renumbered(s, Order(s), Reloaded(s, t))
    ensures Prune(Reloaded(s, t), Sorted(Reloaded(s, t).mapInfo.Keys)) == Some(Reloaded(s, t))
  {
    hide Mid, NewOrder, Order, Upto, Holds, TriedHeld, LoadBuckets, BucketsFrom;
    ReadyForBuckets(s, t);
    LoadBucketsUpto(s, NewOrder(s), t, 0);
    ReloadedRenumbered(s, t);
    var r := Reloaded(s, t);
    forall k | k in r.mapInfo && !r.mapInfo[k].inTried ensures r.mapInfo[k].refCount != 0 {
      RefsOf(s, Order(s)[k]);
    }
    PruneNothing(r, Sorted(r.mapInfo.Keys));
  }

  lemma OrderSplits(s: State)
    ensures Order(s)[..|NewOrder(s)|] == NewOrder(s)
    ensures Records(s.mapInfo, Order(s))[|NewOrder(s)|..] == Records(s.mapInfo, TriedOrder(s))
    ensures DistinctNets(s, Order(s)) ==> DistinctNets(s, NewOrder(s))
  {
    hide NewOrder, TriedOrder;
    var a, b, o := NewOrder(s), TriedOrder(s), Order(s);
    assert forall i :: 0 <= i < |a| ==> a[i] == o[i];
    assert forall i :: 0 <= i < |b| ==> b[i] == o[|a| + i];
  }

  /** The manager right after the header has been read. */
  function HeaderRead(s: State, key0: Key): State {
    Cleared(Empty(key0)).(key := s.key, nNew := s.nNew, nTried := s.nTried)
  }

  lemma NewReadBack(s: State, key0: Key, rest: seq<Token>)
    requires Inv(s) && Serializable(s)
    ensures var r := LoadNew(HeaderRead(s, key0), Records(s.mapInfo, NewOrder(s)) + rest, 0, true);
            && r.Success? && r.rest == rest && Holds(s, NewOrder(s), s.nNew, r.value)
            && r.value == HeaderRead(s, key0).(mapInfo := r.value.mapInfo, mapAddr := r.value.mapAddr,
                                                    vRandom := r.value.vRandom)
  {
    hide Mid, LoadNew, NewOrder, Order;
    OrderSplits(s);
    OrderFacts(s);
    OrderSeparates(s);
    var a, ra := NewOrder(s), Records(s.mapInfo, NewOrder(s));
    assert a[..0] == [] && ra[0..] == ra;
    LoadNewHolds(s, a, 0, HeaderRead(s, key0), rest);
  }

  lemma TriedReadBack(s: State, t: State, rest: seq<Token>)
    requires Inv(s) && Serializable(s) && Holds(s, NewOrder(s), s.nNew, t)
    requires t.tried == map[] && t.news == map[] && t.idCount == s.nNew
    requires t.key == s.key && t.nNew == s.nNew && t.nTried == s.nTried && t.lastGood == 1
    ensures var r := LoadTried(t, Records(s.mapInfo, TriedOrder(s)) + rest, s.nTried);
            r.Success? && r.rest == rest && EntriesRead(s, r.value)
  {
    hide Mid, LoadTried, NewOrder, TriedOrder, Holds;
    OrderSplits(s);
    OrderFacts(s);
    OrderSeparates(s);
    LoadTriedHolds(s, Order(s), s.nNew, s.nNew, t, rest);
  }

  lemma {:induction false} RangeSize(xs: set<int>, n: nat)
    requires forall x :: x in xs ==> 0 <= x < n
    ensures |xs| <= n
  {
    if n == 0 {
      if xs != {} {
        Sets.Inhabited(xs);
        assert false;
      }
    } else {
      RangeSize(xs - {n - 1}, n - 1);
    }
  }

  function Code(sl: Slot): int { sl.0 * BUCKET_SIZE + sl.1 }

  lemma {:induction false} CodesSize(slots: set<Slot>)
    requires forall sl :: sl in slots ==> 0 <= sl.1 < BUCKET_SIZE
    ensures |set sl | sl in slots :: Code(sl)| == |slots|
  {
    if slots == {} {
      assert (set sl | sl in slots :: Code(sl)) == {};
    } else {
      var x :| x in slots;
      CodesSize(slots - {x});
      var rest := set sl | sl in slots - {x} :: Code(sl);
      assert (set sl | sl in slots :: Code(sl)) == rest + {Code(x)};
      assert Code(x) !in rest by {
        forall sl | sl in slots - {x} ensures Code(sl) != Code(x) {
          assert sl == (sl.0, sl.1) && x == (x.0, x.1);
        }
      }
    }
  }

  /** A table of `buckets` buckets has at most that many times 64 occupied slots. */
  lemma TableSize(t: map<Slot, Id>, buckets: nat)
    requires forall sl :: sl in t ==> 0 <= sl.0 < buckets && 0 <= sl.1 < BUCKET_SIZE
    ensures |t| <= buckets * BUCKET_SIZE
  {
    var codes := set sl | sl in t.Keys :: Code(sl);
    CodesSize(t.Keys);
    RangeSize(codes, buckets * BUCKET_SIZE);
  }

  /** There are no more entries in a table than slots. */
  lemma {:induction false} HoldersFit(ids: set<Id>, t: map<Slot, Id>)
    requires forall id :: id in ids ==> exists sl :: sl in t && t[sl] == id
    ensures |ids| <= |t|
  {
    if ids != {} {
      Sets.Inhabited(ids);
      var id :| id in ids;
      var sl :| sl in t && t[sl] == id;
      forall j | j in ids - {id} ensures exists q :: q in t - {sl} && (t - {sl})[q] == j {
        var q :| q in t && t[q] == j;
        assert q in t - {sl};
      }
      HoldersFit(ids - {id}, t - {sl});
      assert (t - {sl}).Keys == t.Keys - {sl};
    }
  }

  /** The counters of a consistent state pass the limit checks of Unserialize. */
  lemma SizesFit(s: State)
    requires Inv(s)
    ensures s.nNew <= NEW_BUCKET_COUNT * BUCKET_SIZE && s.nTried <= TRIED_BUCKET_COUNT * BUCKET_SIZE
  {
    forall id | id in NewIds(s.mapInfo) ensures exists sl :: sl in s.news && s.news[sl] == id {
      RefsOf(s, id);
      assert SlotsOf(s.news, id) != {};
      var sl :| sl in SlotsOf(s.news, id);
    }
    forall id | id in TriedIds(s.mapInfo) ensures exists sl :: sl in s.tried && s.tried[sl] == id {
      TriedFacts(s, TriedSlot(s.key, s.mapInfo[id].service), id);
    }
    forall sl | sl in s.news ensures 0 <= sl.0 < NEW_BUCKET_COUNT && 0 <= sl.1 < BUCKET_SIZE {
      SlotInRange(s, sl);
    }
    forall sl | sl in s.tried ensures 0 <= sl.0 < TRIED_BUCKET_COUNT && 0 <= sl.1 < BUCKET_SIZE {
      TriedFacts(s, sl, s.tried[sl]);
    }
    hide AddrIndex, RandomIndex, NewTable, TriedTable, RefCounts, Times;
    HoldersFit(NewIds(s.mapInfo), s.news);
    HoldersFit(TriedIds(s.mapInfo), s.tried);
    TableSize(s.news, NEW_BUCKET_COUNT);
    TableSize(s.tried, TRIED_BUCKET_COUNT);
  }

  /** Main theorem: Unserialize into a new manager inverts Serialize up to renumbering, no entry is lost
      to a collision or pruned, and the result is consistent again. */
  lemma RoundTrip(s: State, key0: Key)
    requires Inv(s)
    ensures Serializable(s)
    ensures var r := Unserialize(Empty(key0), Serialize(s));
            r.Some? && Renumbered(s, Order(s), r.value) && Inv(r.value)
  {
    hide Mid, Order, NewOrder, TriedOrder, Holds, TriedHeld, LoadBuckets, BucketsFrom, LoadNew, LoadTried, Reloaded,
         EntriesRead, Renumbered, Serializable;
    OrderFacts(s);
    SizesFit(s);
    BodyReadBack(s, key0);
    var st := Serialize(s);
    assert st[6..] == Body(s);
    FlipTwice(NEW_BUCKET_COUNT);
    hide Body;
  }

  lemma BodyReadBack(s: State, key0: Key)
    requires Inv(s) && Serializable(s)
    ensures var r1 := LoadNew(HeaderRead(s, key0), Body(s), 0, true);
            && r1.Success?
            && var r2 := LoadTried(r1.value.(idCount := s.nNew), r1.rest, s.nTried);
            && r2.Success?
            && var r3 := LoadBuckets(r2.value, r2.rest, 0, NEW_BUCKET_COUNT, true);
            && r3.Success?
            && Prune(r3.value, Sorted(r3.value.mapInfo.Keys)) == Some(r3.value)
            && Renumbered(s, Order(s), r3.value) && Inv(r3.value)
  {
    hide Mid, Order, NewOrder, TriedOrder, TriedHeld, LoadBuckets, BucketsFrom, LoadNew, LoadTried, Reloaded,
         Renumbered;
    var buckets := BucketsFrom(s, NewOrder(s), 0);
    var tried := Records(s.mapInfo, TriedOrder(s));
    NewReadBack(s, key0, tried + buckets);
    var t := LoadNew(HeaderRead(s, key0), Body(s), 0, true).value.(idCount := s.nNew);
    assert Holds(s, NewOrder(s), s.nNew, t);
    hide Holds;
    TriedReadBack(s, t, buckets);
    var u := LoadTried(t, tried + buckets, s.nTried).value;
    BucketsRead(s, u);
    RenumberedInv(s, Order(s), Reloaded(s, u));
  }
}
