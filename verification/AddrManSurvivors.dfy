/** Which entries of a stream come through Unserialize when the places it lists are of no use. */
module AddrManSurvivors {
  import opened AddrMan
  import opened AddrManInvariant
  import opened AddrManStream
  import opened AddrManLoading
  import opened AddrManAnyStream
  import opened Options
  import RT = AddrManRoundTrip

  // ---------------------------------------------------------------- how much is read

  lemma {:induction false} LoadNewReads(s: State, st: seq<Token>, n: nat, reuse: bool)
    requires n <= s.nNew
    ensures var r, k := LoadNew(s, st, n, reuse), s.nNew - n;
            && (r.Success? <==> |st| >= k && forall j :: 0 <= j < k ==> st[j].Entry?)
            && (r.Success? ==> r.rest == st[k..] && r.value.nNew == s.nNew)
    decreases s.nNew - n
  {
    var k := s.nNew - n;
    if k > 0 && st != [] && st[0].Entry? {
      var t := WithNew(s, n, st[0].rec, reuse);
      LoadNewNext(s, st, n, reuse);
      WithNewCounter(s, n, st[0].rec, reuse);
      LoadNewReads(t, st[1..], n + 1, reuse);
      hide LoadNew, WithNew;
      EntriesNext(st, k);
    }
  }

  lemma EntriesNext(st: seq<Token>, k: nat)
    requires k > 0 && st != [] && st[0].Entry?
    ensures (|st| >= k && forall j :: 0 <= j < k ==> st[j].Entry?) <==>
            (|st[1..]| >= k - 1 && forall j :: 0 <= j < k - 1 ==> st[1..][j].Entry?)
    ensures |st| >= k ==> st[1..][k - 1..] == st[k..]
  {
    if |st| >= k && forall j :: 0 <= j < k - 1 ==> st[1..][j].Entry? {
      forall j | 0 <= j < k ensures st[j].Entry? {
        assert j > 0 ==> st[j] == st[1..][j - 1];
      }
    }
  }

  lemma {:induction false} LoadTriedReads(s: State, st: seq<Token>, k: nat)
    ensures var r := LoadTried(s, st, k);
            && (r.Success? <==> |st| >= k && forall j :: 0 <= j < k ==> st[j].Entry?)
            && (r.Success? ==> r.rest == st[k..])
    decreases k
  {
    if k > 0 && st != [] && st[0].Entry? {
      var t := WithTried(s, st[0].rec);
      LoadTriedNext(s, st, k);
      LoadTriedReads(t, st[1..], k - 1);
      hide LoadTried, WithTried;
      EntriesNext(st, k);
    }
  }

  lemma {:induction false} LoadBucketReads(t: State, tail: seq<Token>, rest: seq<Token>, b: int, reuse: bool)
    requires Numbers(tail)
    ensures var r := LoadBucket(t, tail + rest, b, |tail|, reuse); r.Success? && r.rest == rest
    decreases |tail|
  {
    if tail == [] {
      assert tail + rest == rest;
    } else {
      assert (tail + rest)[0] == tail[0] && (tail + rest)[1..] == tail[1..] + rest;
      hide WithPlace;
      LoadBucketReads(WithPlace(t, b, tail[0].n, reuse), tail[1..], rest, b, reuse);
    }
  }

  /** What Serialize writes of the buckets is enough for up to 1024 of them, and no more. */
  lemma {:induction false} LoadBucketsReads(t: State, s: State, order: seq<Id>, b: nat, buckets: int, reuse: bool)
    requires b <= NEW_BUCKET_COUNT && PlacesIn(s, order)
    ensures LoadBuckets(t, BucketsFrom(s, order, b), b, buckets, reuse).Success? <==> buckets <= NEW_BUCKET_COUNT
    decreases NEW_BUCKET_COUNT - b
  {
    hide BucketTail, LoadBucket, IndexOf;
    if b < NEW_BUCKET_COUNT && b < buckets {
      var tail, next := BucketTail(s, order, b, 0), BucketsFrom(s, order, b + 1);
      var st := [Num(|tail|)] + tail + next;
      assert st[0] == Num(|tail|) && st[1..] == tail + next;
      PlacesAreNumbers(s, order, b, 0);
      LoadBucketReads(t, tail, next, b, reuse);
      LoadBucketsReads(LoadBucket(t, tail + next, b, |tail|, reuse).value, s, order, b + 1, buckets, reuse);
    }
  }

  // ---------------------------------------------------------------- who holds which slot

  /** The one slot an entry is given: a tried one, or its home in the new table. */
  function SlotFor(key: Key, r: Record, tried: bool): Slot {
    if tried then TriedSlot(key, r.service) else NewSlot(key, r.service, NewBucket(key, r.service, r.source))
  }

  /** One of the first n records, of which nNew are new, claims this slot of the one table or the other. */
  ghost predicate Taken(key: Key, v: seq<Record>, nNew: int, n: nat, tried: bool, sl: Slot)
    requires n <= |v|
  {
    exists j :: 0 <= j < n && (j >= nNew <==> tried) && SlotFor(key, v[j], tried) == sl
  }

  /** No record before number i claims the same slot. */
  ghost predicate First(key: Key, v: seq<Record>, nNew: int, i: nat)
    requires i < |v|
  {
    !Taken(key, v, nNew, i, i >= nNew, SlotFor(key, v[i], i >= nNew))
  }

  lemma TakenNext(key: Key, v: seq<Record>, nNew: int, n: nat, tried: bool, sl: Slot)
    requires n < |v|
    ensures Taken(key, v, nNew, n + 1, tried, sl) <==>
            Taken(key, v, nNew, n, tried, sl) || ((n >= nNew <==> tried) && SlotFor(key, v[n], tried) == sl)
  {
    hide SlotFor;
    if Taken(key, v, nNew, n, tried, sl) {
      var j :| 0 <= j < n && (j >= nNew <==> tried) && SlotFor(key, v[j], tried) == sl;
    }
  }

  function InfoOf(t: State, a: NetAddr): Option<Info> {
    if Found(t, a) then Some(t.mapInfo[t.mapAddr[a]]) else None
  }

  /** What has become of record i: a new one is kept, with a reference if its home was free; a tried one is kept
      if its slot was. */
  ghost predicate Fate(t: State, key: Key, v: seq<Record>, nNew: int, i: nat)
    requires i < |v|
  {
    match InfoOf(t, v[i].service.net)
    case None => i >= nNew && !First(key, v, nNew, i)
    case Some(info) =>
      && ToRecord(info) == v[i] && (info.inTried <==> i >= nNew)
      && if i >= nNew then First(key, v, nNew, i) else info.refCount == if First(key, v, nNew, i) then 1 else 0
  }

  /** t is what the first n records have become. */
  ghost predicate Kept(t: State, key: Key, v: seq<Record>, nNew: int, n: nat)
    requires n <= |v|
  {
    && t.key == key
    && (forall i :: 0 <= i < n ==> Fate(t, key, v, nNew, i))
    && (forall sl :: sl in t.news <==> Taken(key, v, nNew, n, false, sl))
    && (forall sl :: sl in t.tried <==> Taken(key, v, nNew, n, true, sl))
    && Rooted(t) && (forall a :: a in t.mapAddr ==> Among(v, n, a))
  }

  ghost predicate Rooted(t: State) {
    forall a :: a in t.mapAddr ==> Found(t, a)
  }

  ghost predicate Among(v: seq<Record>, n: nat, a: NetAddr)
    requires n <= |v|
  {
    exists i :: 0 <= i < n && v[i].service.net == a
  }

  lemma AmongNext(v: seq<Record>, n: nat, a: NetAddr)
    requires n < |v|
    ensures Among(v, n, a) || a == v[n].service.net ==> Among(v, n + 1, a)
  {
    if Among(v, n, a) {
      var i :| 0 <= i < n && v[i].service.net == a;
    }
  }

  predicate Distinct(v: seq<Record>) {
    forall i, j :: 0 <= i < j < |v| ==> v[i].service.net != v[j].service.net
  }

  /** t' differs from t by record n. */
  ghost predicate OneMore(t: State, t': State, key: Key, v: seq<Record>, nNew: int, n: nat)
    requires n < |v|
  {
    var tried, net := n >= nNew, v[n].service.net;
    var sl := SlotFor(key, v[n], tried);
    && t'.key == t.key && t'.mapAddr.Keys <= t.mapAddr.Keys + {net} && Rooted(t')
    && (forall a :: a != net ==> InfoOf(t', a) == InfoOf(t, a))
    && t'.news.Keys == t.news.Keys + (if tried then {} else {sl})
    && t'.tried.Keys == t.tried.Keys + (if tried then {sl} else {})
  }

  lemma KeptNext(t: State, t': State, key: Key, v: seq<Record>, nNew: int, n: nat)
    requires n < |v| && Distinct(v) && Kept(t, key, v, nNew, n)
    requires OneMore(t, t', key, v, nNew, n) && Fate(t', key, v, nNew, n)
    ensures Kept(t', key, v, nNew, n + 1)
  {
    hide SlotFor, Taken, Among, First, InfoOf, Rooted;
    forall sl ensures sl in t'.news <==> Taken(key, v, nNew, n + 1, false, sl)
              ensures sl in t'.tried <==> Taken(key, v, nNew, n + 1, true, sl)
    {
      TakenNext(key, v, nNew, n, false, sl);
      TakenNext(key, v, nNew, n, true, sl);
    }
    forall a | a in t'.mapAddr ensures Among(v, n + 1, a) {
      AmongNext(v, n, a);
    }
    forall i | 0 <= i < n + 1 ensures Fate(t', key, v, nNew, i) {
      if i < n {
        assert Fate(t, key, v, nNew, i) && v[i].service.net != v[n].service.net;
      }
    }
  }

  // ---------------------------------------------------------------- new entries

  ghost predicate IdsUnder(t: State, n: int) {
    forall id :: id in t.mapInfo ==> id < n
  }

  lemma WithNewOneMore(t: State, key: Key, v: seq<Record>, nNew: int, n: nat)
    requires n < |v| && n < nNew && t.key == key && IdsUnder(t, n) && Rooted(t) && v[n].service.net !in t.mapAddr
    ensures var t' := WithNew(t, n, v[n], false);
            && OneMore(t, t', key, v, nNew, n) && IdsUnder(t', n + 1)
            && var home := SlotFor(key, v[n], false);
               var info := InfoOf(t', v[n].service.net);
               && info.Some? && ToRecord(info.value) == v[n] && !info.value.inTried
               && info.value.refCount == if home in t.news then 0 else 1
  {
    hide NewSlot, NewBucket;
    var r := v[n];
    var i := Overwritten(NO_INFO, r).(randomPos := |t.vRandom|);
    assert HomeSlot(t.key, i) == SlotFor(key, r, false);
    hide SlotFor, HomeSlot;
  }

  lemma NewKept(t: State, key: Key, v: seq<Record>, nNew: int, n: nat)
    requires n < |v| && n < nNew && Distinct(v) && Kept(t, key, v, nNew, n) && IdsUnder(t, n)
    ensures var t' := WithNew(t, n, v[n], false); Kept(t', key, v, nNew, n + 1) && IdsUnder(t', n + 1)
  {
    var t' := WithNew(t, n, v[n], false);
    hide WithNew, SlotFor, Taken, InfoOf, OneMore, IdsUnder, Rooted;
    NotAmong(v, n);
    WithNewOneMore(t, key, v, nNew, n);
    assert Fate(t', key, v, nNew, n);
    KeptNext(t, t', key, v, nNew, n);
  }

  lemma NotAmong(v: seq<Record>, n: nat)
    requires n < |v| && Distinct(v)
    ensures !Among(v, n, v[n].service.net)
  {
  }

  /** The tokens are these records. */
  predicate AreRecords(st: seq<Token>, v: seq<Record>) {
    |st| >= |v| && forall i :: 0 <= i < |v| ==> st[i] == Entry(v[i])
  }

  lemma {:induction false} LoadNewKept(t: State, st: seq<Token>, v: seq<Record>, n: nat)
    requires n <= t.nNew <= |v| && Distinct(v) && AreRecords(st, v) && Kept(t, t.key, v, t.nNew, n) && IdsUnder(t, n)
    ensures var r := LoadNew(t, st[n..], n, false);
            && r.Success? && r.rest == st[t.nNew..] && r.value.nNew == t.nNew && r.value.key == t.key
            && Kept(r.value, t.key, v, t.nNew, t.nNew) && IdsUnder(r.value, t.nNew)
    decreases t.nNew - n
  {
    hide *;
    if n < t.nNew {
      var t' := WithNew(t, n, v[n], false);
      TokenAt(st, v, n);
      LoadNewNext(t, st[n..], n, false);
      WithNewCounter(t, n, v[n], false);
      NewKept(t, t.key, v, t.nNew, n);
      KeptKey(t', t.key, v, t.nNew, n + 1);
      LoadNewKept(t', st, v, n + 1);
    } else {
      EnoughTokens(st, v);
      LoadNewDone(t, st[n..], n);
      KeptKey(t, t.key, v, t.nNew, n);
    }
  }

  lemma LoadNewDone(t: State, st: seq<Token>, n: nat)
    requires n >= t.nNew
    ensures LoadNew(t, st, n, false) == Success(t, st)
  {
  }

  lemma EnoughTokens(st: seq<Token>, v: seq<Record>)
    requires AreRecords(st, v)
    ensures |st| >= |v|
  {
  }

  lemma TokenAt(st: seq<Token>, v: seq<Record>, n: nat)
    requires n < |v| && AreRecords(st, v)
    ensures n < |st| && st[n..] != [] && st[n..][0] == Entry(v[n]) && st[n..][1..] == st[n + 1..]
  {
  }

  lemma KeptKey(t: State, key: Key, v: seq<Record>, nNew: int, n: nat)
    requires n <= |v| && Kept(t, key, v, nNew, n)
    ensures t.key == key
  {
  }

  // ---------------------------------------------------------------- tried entries

  lemma WithTriedOneMore(t: State, key: Key, v: seq<Record>, nNew: int, n: nat)
    requires nNew <= n < |v| && t.key == key && IdsUnder(t, t.idCount) && Rooted(t)
    requires v[n].service.net !in t.mapAddr
    ensures var t' := WithTried(t, v[n]);
            && OneMore(t, t', key, v, nNew, n) && IdsUnder(t', t'.idCount)
            && var info := InfoOf(t', v[n].service.net);
               if SlotFor(key, v[n], true) in t.tried then info == None
               else info.Some? && ToRecord(info.value) == v[n] && info.value.inTried
  {
    hide TriedSlot;
    assert SlotFor(key, v[n], true) == TriedSlot(key, v[n].service);
    hide SlotFor;
  }

  lemma TriedKept(t: State, key: Key, v: seq<Record>, nNew: int, n: nat)
    requires nNew <= n < |v| && Distinct(v) && Kept(t, key, v, nNew, n) && IdsUnder(t, t.idCount)
    ensures var t' := WithTried(t, v[n]); Kept(t', key, v, nNew, n + 1) && IdsUnder(t', t'.idCount)
  {
    var t' := WithTried(t, v[n]);
    hide WithTried, SlotFor, Taken, InfoOf, OneMore, IdsUnder, Rooted;
    NotAmong(v, n);
    WithTriedOneMore(t, key, v, nNew, n);
    assert Fate(t', key, v, nNew, n);
    KeptNext(t, t', key, v, nNew, n);
  }

  lemma {:induction false} LoadTriedKept(t: State, st: seq<Token>, v: seq<Record>, nNew: int, n: nat)
    requires nNew <= n <= |v| && Distinct(v) && AreRecords(st, v) && Kept(t, t.key, v, nNew, n)
    requires IdsUnder(t, t.idCount)
    ensures var r := LoadTried(t, st[n..], |v| - n);
            r.Success? && r.rest == st[|v|..] && r.value.key == t.key && Kept(r.value, t.key, v, nNew, |v|)
    decreases |v| - n
  {
    hide *;
    if n < |v| {
      var t' := WithTried(t, v[n]);
      TokenAt(st, v, n);
      LoadTriedNext(t, st[n..], |v| - n);
      TriedKept(t, t.key, v, nNew, n);
      KeptKey(t', t.key, v, nNew, n + 1);
      LoadTriedKept(t', st, v, nNew, n + 1);
    } else {
      EnoughTokens(st, v);
      LoadTriedDone(t, st[n..], 0);
      KeptKey(t, t.key, v, nNew, n);
    }
  }

  // ---------------------------------------------------------------- pruning

  /** The same entry, perhaps elsewhere in vRandom; but a loose one is gone. */
  predicate SameOrPruned(x: Option<Info>, y: Option<Info>) {
    match x
    case None => y == None
    case Some(i) =>
      if !i.inTried && i.refCount == 0 then y == None
      else y.Some? && y.value == i.(randomPos := y.value.randomPos)
  }

  lemma SwappedInfos(s: State, p: nat, q: nat)
    requires p == q || (p < |s.vRandom| && q < |s.vRandom| && s.vRandom[p] in s.mapInfo && s.vRandom[q] in s.mapInfo)
    ensures SameButRandom(s.mapInfo, SwapRandom(s, p, q).mapInfo)
  {
  }

  lemma DroppedInfos(s: State, t: State, id: Id)
    requires id in s.mapInfo && |t.vRandom| > 0 && t.mapAddr == s.mapAddr && SameButRandom(s.mapInfo, t.mapInfo)
    ensures SameButRandom(s.mapInfo - {id}, DropLast(t, id).mapInfo)
    ensures DropLast(t, id).mapAddr == s.mapAddr - {s.mapInfo[id].service.net}
  {
    assert t.mapInfo[id].(randomPos := s.mapInfo[id].randomPos) == s.mapInfo[id];
  }

  lemma DeletedInfos(s: State, id: Id)
    requires Deletable(s, id)
    ensures SameButRandom(s.mapInfo - {id}, Delete(s, id).mapInfo)
    ensures Delete(s, id).mapAddr == s.mapAddr - {s.mapInfo[id].service.net}
  {
    hide SameButRandom, DropLast, SwapRandom;
    var p, q := s.mapInfo[id].randomPos, |s.vRandom| - 1;
    SwappedInfos(s, p, q);
    DroppedInfos(s, SwapRandom(s, p, q), id);
  }

  /** Consistent but for times of success, the number of tried entries, and entries without a reference. */
  ghost predicate Prunable(s: State, d: nat) {
    Loadable(Sane(s, d))
  }

  lemma PrunableNext(s: State, d: nat, id: Id)
    requires Prunable(s, d) && id in Loose(s.mapInfo)
    ensures Deletable(s, id) && Prunable(Delete(s, id), d) && Loose(Delete(s, id).mapInfo) == Loose(s.mapInfo) - {id}
  {
    var u := Sane(s, d);
    SaneLoose(s, d);
    DeleteMid(u, id, Loose(u.mapInfo), 0);
    LooseIs(Delete(u, id), Loose(u.mapInfo) - {id}, 0);
    hide Mid, Deletable, Delete, Loose, Sane;
    SaneDelete(s, d, id);
    SaneLoose(Delete(s, id), d);
  }

  lemma SaneLoose(s: State, d: nat)
    ensures Loose(Sane(s, d).mapInfo) == Loose(s.mapInfo)
  {
    forall id ensures id in Loose(Sane(s, d).mapInfo) <==> id in Loose(s.mapInfo) {
      SaneAt(s.mapInfo, id);
    }
  }

  lemma PrunableAddrs(s: State, d: nat)
    requires Prunable(s, d)
    ensures AddrIndex(s.mapInfo, s.mapAddr)
  {
    SaneAlike(s.mapInfo);
    AlikeIndexes(SaneInfos(s.mapInfo), s.mapInfo, s.mapAddr, s.vRandom);
    hide RandomIndex, NewTable, TriedTable, RefCounts, Times, NewIds, TriedIds, Alike, SaneInfos, Loose;
  }

  lemma DeletedInfo(s: State, d: nat, id: Id, a: NetAddr)
    requires Prunable(s, d) && Deletable(s, id)
    ensures var x, y := InfoOf(s, a), InfoOf(Delete(s, id), a);
            if x.Some? && s.mapAddr[a] == id then y == None
            else x.Some? == y.Some? && (x.Some? ==> y.value == x.value.(randomPos := y.value.randomPos))
  {
    PrunableAddrs(s, d);
    DeletedInfos(s, id);
    hide Prunable, Delete;
  }

  lemma {:induction false} PruneInfo(s: State, d: nat, ids: seq<Id>, a: NetAddr)
    requires Prunable(s, d) && forall id :: id in Loose(s.mapInfo) ==> id in ids
    ensures Prune(s, ids).Some? && SameOrPruned(InfoOf(s, a), InfoOf(Prune(s, ids).value, a))
    decreases |ids|
  {
    hide Prunable;
    if ids == [] {
      assert forall id :: id !in Loose(s.mapInfo);
      if Found(s, a) {
        assert s.mapAddr[a] !in Loose(s.mapInfo);
      }
    } else {
      var id := ids[0];
      assert ids == [id] + ids[1..];
      if id in Loose(s.mapInfo) {
        PrunableNext(s, d, id);
        DeletedInfo(s, d, id, a);
        hide Deletable, Delete;
        PruneInfo(Delete(s, id), d, ids[1..], a);
      } else {
        PruneInfo(s, d, ids[1..], a);
      }
    }
  }

  // ---------------------------------------------------------------- the whole stream

  function AtLeastNone(n: int): nat { if n < 0 then 0 else n }

  /** How many entries the header announces, and whether they are there. */
  function EntryCount(st: seq<Token>): nat
    requires HeaderOk(st)
  {
    AtLeastNone(st[3].n) + AtLeastNone(st[4].n)
  }

  predicate HasEntries(st: seq<Token>) {
    HeaderOk(st) && AllEntries(st[6..], EntryCount(st))
  }

  predicate AllEntries(st: seq<Token>, k: nat) {
    |st| >= k && forall j :: 0 <= j < k ==> st[j].Entry?
  }

  function Entries(st: seq<Token>): (v: seq<Record>)
    requires HasEntries(st)
    ensures |v| == EntryCount(st) && forall i :: 0 <= i < |v| ==> v[i] == st[6..][i].rec
  {
    seq(EntryCount(st), i requires 0 <= i < EntryCount(st) => st[6..][i].rec)
  }

  lemma LoadNewAll(s: State, st: seq<Token>, reuse: bool)
    ensures var r, k := LoadNew(s, st, 0, reuse), AtLeastNone(s.nNew);
            (r.Success? <==> AllEntries(st, k)) && (r.Success? ==> r.rest == st[k..])
  {
    if s.nNew >= 0 {
      LoadNewReads(s, st, 0, reuse);
    } else {
      assert st[0..] == st;
    }
  }

  lemma LoadTriedAny(s: State, st: seq<Token>, n: int)
    ensures var r, k := LoadTried(s, st, n), AtLeastNone(n);
            (r.Success? <==> AllEntries(st, k)) && (r.Success? ==> r.rest == st[k..])
  {
    if n >= 0 {
      LoadTriedReads(s, st, n);
    } else {
      assert st[0..] == st;
    }
  }

  lemma EntriesTogether(st: seq<Token>, n: nat, k: nat)
    requires AllEntries(st, n) && AllEntries(st[n..], k)
    ensures AllEntries(st, n + k)
  {
    forall j | 0 <= j < n + k ensures st[j].Entry? {
      assert j >= n ==> st[j] == st[n..][j - n];
    }
  }

  lemma EntriesThere(st: seq<Token>, key0: Key)
    requires HeaderOk(st) && Complete(st, key0)
    ensures HasEntries(st)
  {
    UnprunedIs(st, key0);
    var s := Begun(st, key0);
    hide LoadNew, LoadTried, LoadBuckets, AllEntries, Complete, Reuse, Buckets;
    LoadNewAll(s, st[6..], Reuse(st));
    var r := LoadNew(s, st[6..], 0, Reuse(st));
    LoadTriedAny(r.value.(idCount := st[3].n), r.rest, st[4].n);
    EntriesTogether(st[6..], AtLeastNone(st[3].n), AtLeastNone(st[4].n));
  }

  lemma EntriesDistinct(st: seq<Token>)
    requires HasEntries(st) && NetsOnce(st[6..])
    ensures Distinct(Entries(st)) && AreRecords(st[6..], Entries(st))
  {
    hide HeaderOk;
  }

  lemma BegunKept(st: seq<Token>, key0: Key)
    requires HasEntries(st)
    ensures var s := Begun(st, key0);
            && Kept(s, st[2].key, Entries(st), AtLeastNone(st[3].n), 0) && IdsUnder(s, 0)
            && s.nNew == st[3].n && s.key == st[2].key
  {
  }

  /** What the stream lists is there exactly if nothing listed before it in the same table has its slot. */
  ghost predicate Survives(t: State, key: Key, v: seq<Record>, nNew: int, i: nat)
    requires i < |v|
  {
    var info := InfoOf(t, v[i].service.net);
    && (info.Some? <==> First(key, v, nNew, i))
    && (info.Some? ==> ToRecord(info.value) == v[i] && (info.value.inTried <==> i >= nNew))
  }

  lemma FateSettled(s: State, t: State, key: Key, v: seq<Record>, nNew: int, i: nat)
    requires i < |v| && Fate(s, key, v, nNew, i)
    requires SameOrPruned(InfoOf(s, v[i].service.net), InfoOf(t, v[i].service.net))
    ensures Survives(t, key, v, nNew, i)
  {
    hide First;
  }

  /** After reading all of a stream whose places are of no use. */
  lemma UnprunedKept(st: seq<Token>, key0: Key)
    requires HeaderOk(st) && NetsOnce(st[6..]) && Complete(st, key0) && !Reuse(st)
    ensures HasEntries(st)
    ensures Kept(Unpruned(st, key0), st[2].key, Entries(st), AtLeastNone(st[3].n), EntryCount(st))
  {
    EntriesThere(st, key0);
    UnprunedIs(st, key0);
    var s, tokens, v, n, k := Begun(st, key0), st[6..], Entries(st), AtLeastNone(st[3].n), AtLeastNone(st[4].n);
    hide *;
    EntriesDistinct(st);
    BegunKept(st, key0);
    EnoughTokens(tokens, v);
    FirstPart(s, tokens, v, n);
    var r1 := LoadNew(s, tokens, 0, false);
    var t1 := r1.value.(idCount := st[3].n);
    SecondPart(r1.value, t1, tokens, v, n, st[4].n);
    var r2 := LoadTried(t1, tokens[n..], st[4].n);
    BucketsIgnored(r2.value, r2.rest, 0, Buckets(st), false);
  }

  lemma FirstPart(s: State, st: seq<Token>, v: seq<Record>, n: nat)
    requires n == AtLeastNone(s.nNew) <= |v| && Distinct(v) && AreRecords(st, v) && Kept(s, s.key, v, n, 0)
    requires IdsUnder(s, 0)
    ensures var r := LoadNew(s, st, 0, false);
            && r.Success? && r.rest == st[n..] && r.value.key == s.key && r.value.nNew == s.nNew
            && Kept(r.value, s.key, v, n, n) && (s.nNew >= 0 ==> IdsUnder(r.value, n)) && (s.nNew < 0 ==> r.value == s)
  {
    assert st[0..] == st;
    if s.nNew >= 0 {
      hide *;
      LoadNewKept(s, st, v, 0);
    }
  }

  lemma SecondPart(s: State, t: State, st: seq<Token>, v: seq<Record>, n: nat, nTried: int)
    requires n == AtLeastNone(s.nNew) && t == s.(idCount := s.nNew) && |v| == n + AtLeastNone(nTried)
    requires Distinct(v) && AreRecords(st, v) && Kept(s, s.key, v, n, n) && IdsUnder(s, s.nNew)
    ensures var r := LoadTried(t, st[n..], nTried); r.Success? && Kept(r.value, s.key, v, n, |v|)
  {
    forall i | 0 <= i < n ensures Fate(t, t.key, v, n, i) {
      assert Fate(s, s.key, v, n, i);
    }
    assert Kept(t, t.key, v, n, n) by { hide Taken, Among, Fate; }
    if nTried >= 0 {
      hide *;
      LoadTriedKept(t, st, v, n, n);
    }
  }

  /** A complete stream without repeated addresses whose places are of no use: every entry keeps what is stored of
      it, or had to give way to one listed before it; and there are no others. */
  lemma SurvivesIff(st: seq<Token>, key0: Key)
    requires HeaderOk(st) && NetsOnce(st[6..]) && Complete(st, key0) && !Reuse(st)
    ensures HasEntries(st) && Unserialize(Empty(key0), st).Some?
    ensures var t, v := Unserialize(Empty(key0), st).value, Entries(st);
            && (forall i :: 0 <= i < |v| ==> Survives(t, st[2].key, v, AtLeastNone(st[3].n), i))
            && (forall a :: Found(t, a) ==> Among(v, |v|, a))
  {
    var key, n := st[2].key, AtLeastNone(st[3].n);
    hide *;
    UnprunedKept(st, key0);
    EntryNumber(st);
    AllPruned(st, key0);
    AllSettled(Unpruned(st, key0), Unserialize(Empty(key0), st).value, key, Entries(st), n);
  }

  /** Every address of s is as it was in t, or pruned. */
  ghost predicate Pruned(s: State, t: State) {
    forall a :: SameOrPruned(InfoOf(s, a), InfoOf(t, a))
  }

  lemma AllPruned(st: seq<Token>, key0: Key)
    requires HeaderOk(st) && NetsOnce(st[6..]) && Complete(st, key0)
    ensures Unserialize(Empty(key0), st).Some?
    ensures Pruned(Unpruned(st, key0), Unserialize(Empty(key0), st).value)
  {
    hide HeaderOk, NetsOnce, Complete, SameOrPruned, InfoOf, Unserialize, Unpruned;
    PrunedInfo(st, key0, 0);
    forall a ensures SameOrPruned(InfoOf(Unpruned(st, key0), a), InfoOf(Unserialize(Empty(key0), st).value, a)) {
      PrunedInfo(st, key0, a);
    }
  }

  lemma AllSettled(s: State, t: State, key: Key, v: seq<Record>, nNew: int)
    requires Kept(s, key, v, nNew, |v|) && Pruned(s, t)
    ensures forall i :: 0 <= i < |v| ==> Survives(t, key, v, nNew, i)
    ensures forall a :: Found(t, a) ==> Among(v, |v|, a)
  {
    hide Kept, SameOrPruned, InfoOf, Survives, Among, Found;
    forall i | 0 <= i < |v| ensures Survives(t, key, v, nNew, i) {
      KeptFate(s, key, v, nNew, |v|, i);
      FateSettled(s, t, key, v, nNew, i);
    }
    forall a | Found(t, a) ensures Among(v, |v|, a) {
      NothingElse(s, t, key, v, nNew, a);
    }
  }

  lemma EntryNumber(st: seq<Token>)
    requires HasEntries(st)
    ensures |Entries(st)| == EntryCount(st)
  {
  }

  lemma KeptFate(t: State, key: Key, v: seq<Record>, nNew: int, n: nat, i: nat)
    requires i < n <= |v| && Kept(t, key, v, nNew, n)
    ensures Fate(t, key, v, nNew, i)
  {
  }

  lemma NothingElse(s: State, t: State, key: Key, v: seq<Record>, nNew: int, a: NetAddr)
    requires Kept(s, key, v, nNew, |v|) && SameOrPruned(InfoOf(s, a), InfoOf(t, a)) && Found(t, a)
    ensures Among(v, |v|, a)
  {
    hide Among, Taken, Fate;
  }

  lemma PrunedInfo(st: seq<Token>, key0: Key, a: NetAddr)
    requires HeaderOk(st) && NetsOnce(st[6..]) && Complete(st, key0)
    ensures var r := Unserialize(Empty(key0), st);
            r.Some? && SameOrPruned(InfoOf(Unpruned(st, key0), a), InfoOf(r.value, a))
  {
    UnserializeIs(st, key0);
    var s := Unpruned(st, key0);
    hide *;
    if st[3].n < 0 {
      NoneNew(st, key0);
      TriedStays(s, a);
    } else {
      UnprunedSane(st, key0);
      PrunableIs(s, Missing(st));
      LooseIsKnown(s);
      PruneInfo(s, Missing(st), Sorted(s.mapInfo.Keys), a);
    }
  }

  lemma PrunableIs(s: State, d: nat)
    requires Loadable(Sane(s, d))
    ensures Prunable(s, d)
  {
  }

  lemma TriedStays(s: State, a: NetAddr)
    requires AllTried(s)
    ensures SameOrPruned(InfoOf(s, a), InfoOf(s, a))
  {
    if Found(s, a) {
      var id: Id := s.mapAddr[a];
      assert id in s.mapInfo && s.mapInfo[id].inTried;
    }
  }

  // ---------------------------------------------------------------- what a manager writes, in a foreign format

  /** The stream of a manager, with any version byte and number of buckets in front. */
  ghost predicate IsForeign(s: State, st: seq<Token>) {
    && HeaderOk(st) && st[2] == Secret(s.key) && st[3].n == s.nNew && st[4].n == s.nTried
    && Serializable(s) && st[6..] == Body(s)
  }

  lemma ForeignIs(s: State, version: nat, buckets: int)
    requires Inv(s) && Serializable(s)
    ensures var st := Serialize(s)[0 := Byte(version)][5 := Num(buckets)]; IsForeign(s, st) && Healthy(st)
  {
    hide *;
    RT.SizesFit(s);
    CountersNatural(s);
    SerializeIs(s);
    ForeignHealthy(s, version, buckets);
    ForeignHeader(s, Body(s), version, buckets);
    MakeForeign(s, Serialize(s)[0 := Byte(version)][5 := Num(buckets)]);
  }

  lemma MakeForeign(s: State, st: seq<Token>)
    requires HeaderOk(st) && st[2] == Secret(s.key) && st[3].n == s.nNew && st[4].n == s.nTried
    requires Serializable(s) && st[6..] == Body(s)
    ensures IsForeign(s, st)
  {
    hide HeaderOk, Serializable, Body;
  }

  lemma ForeignHeader(s: State, body: seq<Token>, version: nat, buckets: int)
    requires 0 <= s.nNew <= NEW_BUCKET_COUNT * BUCKET_SIZE && 0 <= s.nTried <= TRIED_BUCKET_COUNT * BUCKET_SIZE
    ensures var st := (Header(s) + body)[0 := Byte(version)][5 := Num(buckets)];
            HeaderOk(st) && st[2] == Secret(s.key) && st[3].n == s.nNew && st[4].n == s.nTried && st[6..] == body
  {
    HeaderChanged(s, body, version, buckets);
  }

  lemma ForeignParts(s: State, st: seq<Token>)
    requires Inv(s) && IsForeign(s, st)
    ensures HeaderOk(st) && |st| >= 6 && Serializable(s) && st[2] == Secret(s.key) && st[6..] == Body(s)
    ensures st[3].n == |NewOrder(s)| && st[4].n == |TriedOrder(s)|
  {
    RT.OrderFacts(s);
    hide Inv, Serializable, Body, NewOrder, TriedOrder, HeaderOk;
  }

  lemma BodyParts(s: State, x: seq<Id>, y: seq<Id>, body: seq<Token>)
    requires AllIn(s.mapInfo, x) && AllIn(s.mapInfo, y) && PlacesIn(s, x) && IsBody(s, x, y, body)
    ensures |body| >= |x| + |y| && body[|x| + |y|..] == BucketsFrom(s, x, 0)
    ensures AllEntries(body, |x|) && AllEntries(body[|x|..], |y|)
    ensures forall i :: 0 <= i < |x| + |y| ==>
              body[i] == Entry(ToRecord(s.mapInfo[if i < |x| then x[i] else y[i - |x|]]))
  {
    hide BucketsFrom, ToRecord;
    var c := Records(s.mapInfo, y) + BucketsFrom(s, x, 0);
    assert body[|x|..] == c;
  }

  /** The stream is long enough for up to 1024 buckets and no more. */
  lemma ForeignComplete(s: State, st: seq<Token>, key0: Key)
    requires Inv(s) && IsForeign(s, st)
    ensures HeaderOk(st) && (Complete(st, key0) <==> Buckets(st) <= NEW_BUCKET_COUNT)
  {
    var x, y := NewOrder(s), TriedOrder(s);
    hide *;
    ForeignParts(s, st);
    CompleteIs(st, key0);
    BegunCounters(st, key0);
    OrdersIn(s);
    BodyIs(s);
    BodyParts(s, x, y, Body(s));
    PartsComplete(s, Begun(st, key0), x, Body(s), |y|, Buckets(st), Reuse(st));
  }

  lemma PartsComplete(s: State, t: State, x: seq<Id>, body: seq<Token>, k: nat, buckets: int, reuse: bool)
    requires PlacesIn(s, x) && t.nNew == |x| && AllEntries(body, |x|) && AllEntries(body[|x|..], k)
    requires |body| >= |x| + k && body[|x| + k..] == BucketsFrom(s, x, 0)
    ensures var r1 := LoadNew(t, body, 0, reuse);
            r1.Success? &&
            var r2 := LoadTried(r1.value.(idCount := |x|), r1.rest, k);
            r2.Success? && (LoadBuckets(r2.value, r2.rest, 0, buckets, reuse).Success? <==> buckets <= NEW_BUCKET_COUNT)
  {
    hide LoadNew, LoadTried, LoadBuckets, AllEntries, PlacesIn, BucketsFrom, AtLeastNone;
    CountIs(|x|);
    CountIs(k);
    LoadNewAll(t, body, reuse);
    var r1 := LoadNew(t, body, 0, reuse);
    var t1 := r1.value.(idCount := |x|);
    LoadTriedAny(t1, body[|x|..], k);
    assert body[|x|..][k..] == body[|x| + k..];
    LoadBucketsReads(LoadTried(t1, body[|x|..], k).value, s, x, 0, buckets, reuse);
  }

  lemma CountIs(n: nat)
    ensures AtLeastNone(n) == n
  {
  }

  lemma BegunCounters(st: seq<Token>, key0: Key)
    requires HeaderOk(st)
    ensures Begun(st, key0).nNew == st[3].n
  {
  }

  lemma CompleteIs(st: seq<Token>, key0: Key)
    requires HeaderOk(st)
    ensures Complete(st, key0) <==>
            var r1 := LoadNew(Begun(st, key0), st[6..], 0, Reuse(st));
            r1.Success? &&
            var r2 := LoadTried(r1.value.(idCount := st[3].n), r1.rest, st[4].n);
            r2.Success? && LoadBuckets(r2.value, r2.rest, 0, Buckets(st), Reuse(st)).Success?
  {
    hide LoadNew, LoadTried, LoadBuckets, Buckets, Reuse, Begun;
  }

  /** The records of a manager in the order in which it writes them. */
  ghost predicate Written(s: State, v: seq<Record>) {
    |v| == |RT.Order(s)| && forall i :: 0 <= i < |v| ==> v[i] == ToRecord(s.mapInfo[RT.Order(s)[i]])
  }

  lemma ForeignEntries(s: State, st: seq<Token>)
    requires Inv(s) && IsForeign(s, st)
    ensures HasEntries(st) && st[3].n == |NewOrder(s)| && Written(s, Entries(st))
  {
    var x, y := NewOrder(s), TriedOrder(s);
    hide *;
    ForeignParts(s, st);
    OrdersIn(s);
    BodyIs(s);
    BodyParts(s, x, y, Body(s));
    EntriesTogether(Body(s), |x|, |y|);
    EntriesAre(st, |x|, |y|);
    OrderAt(s, 0);
    forall i | 0 <= i < |x| + |y|
      ensures RT.Order(s)[i] in s.mapInfo && Entries(st)[i] == ToRecord(s.mapInfo[RT.Order(s)[i]])
    {
      OrderAt(s, i);
      assert Body(s)[i] == st[6..][i] == Entry(Entries(st)[i]);
    }
    EntriesWritten(s, Entries(st));
  }

  lemma EntriesWritten(s: State, v: seq<Record>)
    requires |v| == |RT.Order(s)|
    requires forall i :: 0 <= i < |v| ==> RT.Order(s)[i] in s.mapInfo && v[i] == ToRecord(s.mapInfo[RT.Order(s)[i]])
    ensures Written(s, v)
  {
    hide RT.Order, ToRecord;
  }

  lemma EntriesAre(st: seq<Token>, n: nat, k: nat)
    requires HeaderOk(st) && st[3].n == n && st[4].n == k && AllEntries(st[6..], n + k)
    ensures HasEntries(st) && |Entries(st)| == n + k <= |st[6..]|
    ensures forall i :: 0 <= i < n + k ==> st[6..][i] == Entry(Entries(st)[i])
  {
  }

  // ---------------------------------------------------------------- in terms of the manager that wrote it

  /** No new entry with a smaller id has the same home. */
  ghost predicate HomeFirst(s: State, id: Id)
    requires id in s.mapInfo
  {
    forall j :: j in s.mapInfo && !s.mapInfo[j].inTried && j < id ==>
      HomeSlot(s.key, s.mapInfo[j]) != HomeSlot(s.key, s.mapInfo[id])
  }

  /** Tried entries come back, and new ones if they are the first to claim their home. */
  ghost predicate ComesBack(s: State, t: State, id: Id)
    requires id in s.mapInfo
  {
    var i := s.mapInfo[id];
    var info := InfoOf(t, i.service.net);
    && (info.Some? <==> i.inTried || HomeFirst(s, id))
    && (info.Some? ==> ToRecord(info.value) == ToRecord(i) && info.value.inTried == i.inTried)
  }

  lemma SlotOfRecord(key: Key, i: Info)
    ensures SlotFor(key, ToRecord(i), false) == HomeSlot(key, i)
    ensures SlotFor(key, ToRecord(i), true) == TriedSlot(key, i.service)
  {
  }

  lemma WrittenSlot(s: State, v: seq<Record>, i: nat)
    requires Written(s, v) && i < |v|
    ensures RT.Order(s)[i] in s.mapInfo && v[i].service == s.mapInfo[RT.Order(s)[i]].service
    ensures SlotFor(s.key, v[i], false) == HomeSlot(s.key, s.mapInfo[RT.Order(s)[i]])
    ensures SlotFor(s.key, v[i], true) == TriedSlot(s.key, s.mapInfo[RT.Order(s)[i]].service)
  {
    SlotOfRecord(s.key, s.mapInfo[RT.Order(s)[i]]);
    hide RT.Order, SlotFor, HomeSlot, TriedSlot;
  }

  lemma TriedFirst(s: State, v: seq<Record>, i: nat)
    requires Inv(s) && Written(s, v) && |NewOrder(s)| <= i < |v|
    ensures First(s.key, v, |NewOrder(s)|, i)
  {
    hide Inv, Written, SlotFor, TriedSlot, HomeSlot, NewOrder, RT.Order;
    var n, o := |NewOrder(s)|, RT.Order(s);
    forall j | 0 <= j < i && j >= n ensures SlotFor(s.key, v[j], true) != SlotFor(s.key, v[i], true) {
      WrittenLength(s, v);
      WrittenSlot(s, v, i);
      WrittenSlot(s, v, j);
      RT.OrderDistinct(s, j, i);
      RT.OrderKinds(s, i);
      RT.OrderKinds(s, j);
      RT.NetsDiffer(s, o[j], o[i]);
    }
  }

  lemma WrittenLength(s: State, v: seq<Record>)
    requires Written(s, v)
    ensures |v| == |RT.Order(s)|
  {
    hide RT.Order;
  }

  /** New entries come by id. */
  lemma NewById(s: State, i: nat, j: nat)
    requires Inv(s) && i < |NewOrder(s)| && j < |NewOrder(s)|
    ensures RT.Order(s)[i] < RT.Order(s)[j] <==> i < j
  {
    hide Inv;
    OrderAt(s, i);
    OrderAt(s, j);
    var x := NewOrder(s);
    assert Increasing(x);
  }

  lemma NewAmong(s: State, id: Id) returns (i: nat)
    requires Inv(s) && id in s.mapInfo && !s.mapInfo[id].inTried
    ensures i < |NewOrder(s)| && i < |RT.Order(s)| && RT.Order(s)[i] == id
  {
    RT.OrderFacts(s);
    hide Inv, Sorted;
    var x := NewOrder(s);
    assert id in NewIds(s.mapInfo) && id in x;
    i :| 0 <= i < |x| && x[i] == id;
  }

  lemma NewFirstIff(s: State, v: seq<Record>, i: nat)
    requires Inv(s) && Written(s, v) && i < |NewOrder(s)| && i < |v| && RT.Order(s)[i] in s.mapInfo
    ensures First(s.key, v, |NewOrder(s)|, i) <==> HomeFirst(s, RT.Order(s)[i])
  {
    hide Inv, Written, SlotFor, HomeSlot, NewOrder, RT.Order;
    var n, o := |NewOrder(s)|, RT.Order(s);
    WrittenLength(s, v);
    WrittenSlot(s, v, i);
    if First(s.key, v, n, i) {
      forall j | j in s.mapInfo && !s.mapInfo[j].inTried && j < o[i]
        ensures HomeSlot(s.key, s.mapInfo[j]) != HomeSlot(s.key, s.mapInfo[o[i]])
      {
        var k := NewAmong(s, j);
        NewById(s, k, i);
        WrittenSlot(s, v, k);
        assert SlotFor(s.key, v[k], false) != SlotFor(s.key, v[i], false);
      }
    }
    if HomeFirst(s, o[i]) {
      forall k | 0 <= k < i ensures SlotFor(s.key, v[k], false) != SlotFor(s.key, v[i], false) {
        NewById(s, k, i);
        WrittenSlot(s, v, k);
        RT.OrderKinds(s, k);
      }
    }
  }

  lemma SurvivorComesBack(s: State, t: State, v: seq<Record>, id: Id)
    requires Inv(s) && Written(s, v) && id in s.mapInfo
    requires forall i :: 0 <= i < |v| ==> Survives(t, s.key, v, |NewOrder(s)|, i)
    ensures ComesBack(s, t, id)
  {
    hide Inv, Written, First, HomeFirst, NewOrder, RT.Order, InfoOf;
    RT.OrderCovers(s);
    var i :| 0 <= i < |RT.Order(s)| && RT.Order(s)[i] == id;
    WrittenLength(s, v);
    assert Survives(t, s.key, v, |NewOrder(s)|, i);
    RT.OrderKinds(s, i);
    if i < |NewOrder(s)| {
      NewFirstIff(s, v, i);
    } else {
      TriedFirst(s, v, i);
    }
    assert v[i] == ToRecord(s.mapInfo[id]) by { WrittenIs(s, v, i); }
    assert v[i].service.net == s.mapInfo[id].service.net;
  }

  lemma WrittenIs(s: State, v: seq<Record>, i: nat)
    requires Written(s, v) && i < |v|
    ensures RT.Order(s)[i] in s.mapInfo && v[i] == ToRecord(s.mapInfo[RT.Order(s)[i]])
  {
    hide RT.Order, ToRecord;
  }

  /** What a consistent manager writes is read with any version byte, and with a bucket count up to 1024; a larger one
      needs more than the stream has. The manager read is consistent. If the version or the count is not our own, the
      places are of no use: then all tried entries come back, and a new entry does exactly if none with a smaller
      id has the same home slot. */
  lemma ForeignFormatLoads(s: State, version: nat, buckets: int, key0: Key)
    requires Inv(s)
    ensures Serializable(s)
    ensures var st := Serialize(s)[0 := Byte(version)][5 := Num(buckets)];
            var r := Unserialize(Empty(key0), st);
            && HeaderOk(st) && (r.Some? <==> Buckets(st) <= NEW_BUCKET_COUNT) && (r.Some? ==> Inv(r.value))
            && (r.Some? && !Reuse(st) ==>
                  && (forall id :: id in s.mapInfo ==> ComesBack(s, r.value, id))
                  && (forall a :: Found(r.value, a) ==> a in s.mapAddr))
  {
    RT.OrderFacts(s);
    SerializeIs(s);
    hide *;
    var st := Serialize(s)[0 := Byte(version)][5 := Num(buckets)];
    ForeignIs(s, version, buckets);
    HealthyLoads(st, key0);
    ForeignComplete(s, st, key0);
    if Complete(st, key0) && !Reuse(st) {
      ForeignReturns(s, st, key0);
    }
  }

  lemma ForeignReturns(s: State, st: seq<Token>, key0: Key)
    requires Inv(s) && IsForeign(s, st) && Healthy(st) && Complete(st, key0) && !Reuse(st)
    ensures Unserialize(Empty(key0), st).Some?
    ensures var t := Unserialize(Empty(key0), st).value;
            (forall id :: id in s.mapInfo ==> ComesBack(s, t, id)) && (forall a :: Found(t, a) ==> a in s.mapAddr)
  {
    assert NetsOnce(st[6..]) && st[2] == Secret(s.key);
    hide *;
    SurvivesIff(st, key0);
    ForeignEntries(s, st);
    CountIs(|NewOrder(s)|);
    var t, v := Unserialize(Empty(key0), st).value, Entries(st);
    forall id | id in s.mapInfo ensures ComesBack(s, t, id) {
      SurvivorComesBack(s, t, v, id);
    }
    forall a | Found(t, a) ensures a in s.mapAddr {
      AmongWritten(s, v, a);
    }
  }

  lemma AmongWritten(s: State, v: seq<Record>, a: NetAddr)
    requires Inv(s) && Written(s, v) && Among(v, |v|, a)
    ensures a in s.mapAddr
  {
    var i :| 0 <= i < |v| && v[i].service.net == a;
    hide RT.Order, RandomIndex, NewTable, TriedTable, RefCounts, Times, NewIds, TriedIds;
    WrittenIs(s, v, i);
  }
}
