/** Unserialize on any stream without repeated addresses. What it does does not depend on the times of success, nor
    on a negative number of tried entries, so that a stream can be compared with one that is healthy. */
module AddrManAnyStream {
  import opened AddrMan
  import opened AddrManInvariant
  import opened AddrManStream
  import opened AddrManLoading
  import opened Options
  import RT = AddrManRoundTrip

  // ---------------------------------------------------------------- with a success, and d more tried entries

  function SaneInfo(i: Info): Info { i.(lastSuccess := 1) }

  function SaneInfos(m: map<Id, Info>): map<Id, Info> {
    map id | id in m :: SaneInfo(m[id])
  }

  function Sane(s: State, d: int): State {
    s.(mapInfo := SaneInfos(s.mapInfo), nTried := s.nTried + d)
  }

  function SaneRecord(r: Record): Record { r.(lastSuccess := 1) }

  function SaneToken(x: Token): Token { if x.Entry? then Entry(SaneRecord(x.rec)) else x }

  function SaneTokens(st: seq<Token>): (r: seq<Token>)
    ensures |r| == |st| && forall i :: 0 <= i < |st| ==> r[i] == SaneToken(st[i])
  {
    seq(|st|, i requires 0 <= i < |st| => SaneToken(st[i]))
  }

  function SaneParsed(p: Parsed<State>, d: int): Parsed<State> {
    match p
    case Failure => Failure
    case Success(s, rest) => Success(Sane(s, d), SaneTokens(rest))
  }

  lemma SaneTail(st: seq<Token>, k: nat)
    requires k <= |st|
    ensures SaneTokens(st)[k..] == SaneTokens(st[k..])
  {
  }

  lemma SaneSet(m: map<Id, Info>, id: Id, i: Info)
    ensures SaneInfos(m[id := i]) == SaneInfos(m)[id := SaneInfo(i)]
  {
  }

  // ---------------------------------------------------------------- reading

  lemma SaneHome(s: State, d: int, id: Id)
    requires id in s.mapInfo
    ensures id in Sane(s, d).mapInfo && AtHome(Sane(s, d), id) == Sane(AtHome(s, id), d)
  {
    var i := s.mapInfo[id];
    assert HomeSlot(s.key, SaneInfo(i)) == HomeSlot(s.key, i);
    hide HomeSlot, SaneInfos;
    SaneSet(s.mapInfo, id, i.(refCount := i.refCount + 1));
    SaneAt(s.mapInfo, id);
  }

  lemma SaneAt(m: map<Id, Info>, id: Id)
    ensures id in SaneInfos(m) <==> id in m
    ensures id in m ==> SaneInfos(m)[id] == SaneInfo(m[id])
  {
  }

  lemma SaneWithNew(s: State, d: int, n: Id, r: Record, reuse: bool)
    ensures WithNew(Sane(s, d), n, SaneRecord(r), reuse) == Sane(WithNew(s, n, r, reuse), d)
  {
    hide AtHome, SaneInfos;
    SaneAt(s.mapInfo, n);
    var i := Overwritten(if n in s.mapInfo then s.mapInfo[n] else NO_INFO, r).(randomPos := |s.vRandom|);
    SaneSet(s.mapInfo, n, i);
    var t := SetInfo(s, n, i).(mapAddr := s.mapAddr[r.service.net := n], vRandom := s.vRandom + [n]);
    SaneHome(t, d, n);
  }

  lemma {:induction false} SaneLoadNew(s: State, d: int, st: seq<Token>, n: int, reuse: bool)
    ensures LoadNew(Sane(s, d), SaneTokens(st), n, reuse) == SaneParsed(LoadNew(s, st, n, reuse), d)
    decreases s.nNew - n
  {
    hide WithNew, SaneTokens, SaneInfos;
    if n < s.nNew && st != [] && st[0].Entry? {
      SaneTail(st, 1);
      SaneWithNew(s, d, n, st[0].rec, reuse);
      WithNewCounter(s, n, st[0].rec, reuse);
      SaneLoadNew(WithNew(s, n, st[0].rec, reuse), d, st[1..], n + 1, reuse);
    }
  }

  lemma WithNewCounter(s: State, n: Id, r: Record, reuse: bool)
    ensures WithNew(s, n, r, reuse).nNew == s.nNew
  {
    hide HomeSlot;
  }

  lemma SaneWithTried(s: State, d: int, r: Record)
    ensures WithTried(Sane(s, d), SaneRecord(r)) == Sane(WithTried(s, r), d)
  {
    hide TriedSlot, SaneInfos;
    SaneSet(s.mapInfo, s.idCount, Overwritten(NO_INFO, r).(randomPos := |s.vRandom|, inTried := true));
  }

  lemma {:induction false} SaneLoadTried(s: State, d: int, st: seq<Token>, count: int)
    ensures LoadTried(Sane(s, d), SaneTokens(st), count) == SaneParsed(LoadTried(s, st, count), d)
    decreases count
  {
    hide WithTried, SaneTokens, SaneInfos;
    if count > 0 && st != [] && st[0].Entry? {
      SaneTail(st, 1);
      SaneWithTried(s, d, st[0].rec);
      SaneLoadTried(WithTried(s, st[0].rec), d, st[1..], count - 1);
    }
  }

  lemma SaneWithPlace(s: State, d: int, b: int, index: int, reuse: bool)
    ensures WithPlace(Sane(s, d), b, index, reuse) == Sane(WithPlace(s, b, index, reuse), d)
  {
    hide NewSlot, SaneInfos;
    SaneAt(s.mapInfo, index);
    if index in s.mapInfo {
      var i := s.mapInfo[index];
      SaneSet(s.mapInfo, index, i.(refCount := i.refCount + 1));
    }
  }

  lemma {:induction false} SaneLoadBucket(s: State, d: int, st: seq<Token>, b: int, size: int, reuse: bool)
    ensures LoadBucket(Sane(s, d), SaneTokens(st), b, size, reuse) == SaneParsed(LoadBucket(s, st, b, size, reuse), d)
    decreases |st|
  {
    hide WithPlace, SaneTokens, SaneInfos;
    if size > 0 && st != [] && st[0].Num? {
      SaneTail(st, 1);
      SaneWithPlace(s, d, b, st[0].n, reuse);
      SaneLoadBucket(WithPlace(s, b, st[0].n, reuse), d, st[1..], b, size - 1, reuse);
    }
  }

  lemma {:induction false} SaneLoadBuckets(s: State, d: int, st: seq<Token>, b: int, buckets: int, reuse: bool)
    ensures LoadBuckets(Sane(s, d), SaneTokens(st), b, buckets, reuse) ==
            SaneParsed(LoadBuckets(s, st, b, buckets, reuse), d)
    decreases |st|
  {
    hide LoadBucket, SaneTokens, SaneInfos;
    if b < buckets && st != [] && st[0].Num? {
      SaneTail(st, 1);
      SaneLoadBucket(s, d, st[1..], b, st[0].n, reuse);
      var r := LoadBucket(s, st[1..], b, st[0].n, reuse);
      if r.Success? {
        SaneLoadBuckets(r.value, d, r.rest, b + 1, buckets, reuse);
      }
    }
  }

  // ---------------------------------------------------------------- pruning

  lemma SaneDelete(s: State, d: int, id: Id)
    ensures Deletable(Sane(s, d), id) <==> Deletable(s, id)
    ensures Deletable(s, id) ==> Delete(Sane(s, d), id) == Sane(Delete(s, id), d)
  {
    SaneAt(s.mapInfo, id);
    assert Sane(s, d).mapInfo.Keys == s.mapInfo.Keys;
    if Deletable(s, id) {
      hide SaneInfos;
      var p, q := s.mapInfo[id].randomPos, |s.vRandom| - 1;
      SaneSwap(s, d, p, q);
      SaneDropLast(SwapRandom(s, p, q), d, id);
    }
  }

  lemma SaneSwap(s: State, d: int, p: nat, q: nat)
    requires p == q || (p < |s.vRandom| && q < |s.vRandom| && s.vRandom[p] in s.mapInfo && s.vRandom[q] in s.mapInfo)
    ensures p == q || (s.vRandom[p] in Sane(s, d).mapInfo && s.vRandom[q] in Sane(s, d).mapInfo)
    ensures SwapRandom(Sane(s, d), p, q) == Sane(SwapRandom(s, p, q), d)
  {
    hide SaneInfos;
    if p != q {
      var id1, id2 := s.vRandom[p], s.vRandom[q];
      SaneAt(s.mapInfo, id1);
      SaneAt(s.mapInfo, id2);
      var m1 := s.mapInfo[id1 := s.mapInfo[id1].(randomPos := q)];
      SaneSet(s.mapInfo, id1, s.mapInfo[id1].(randomPos := q));
      SaneAt(m1, id2);
      SaneSet(m1, id2, m1[id2].(randomPos := p));
    }
  }

  lemma SaneDropLast(s: State, d: int, id: Id)
    requires id in s.mapInfo && |s.vRandom| > 0
    ensures id in Sane(s, d).mapInfo && DropLast(Sane(s, d), id) == Sane(DropLast(s, id), d)
  {
    assert SaneInfos(s.mapInfo) - {id} == SaneInfos(s.mapInfo - {id});
  }

  function SaneResult(r: Option<State>, d: int): Option<State> {
    match r
    case None => None
    case Some(s) => Some(Sane(s, d))
  }

  lemma {:induction false} SanePrune(s: State, d: int, ids: seq<Id>)
    ensures Prune(Sane(s, d), ids) == SaneResult(Prune(s, ids), d)
    decreases |ids|
  {
    hide Deletable, Delete, SaneInfos;
    if ids != [] {
      var id := ids[0];
      SaneAt(s.mapInfo, id);
      SaneDelete(s, d, id);
      if Deletable(s, id) {
        SanePrune(Delete(s, id), d, ids[1..]);
      }
      SanePrune(s, d, ids[1..]);
    }
  }

  // ---------------------------------------------------------------- the whole stream

  /** No address comes twice. */
  predicate NetsOnce(st: seq<Token>) {
    forall i, j :: 0 <= i < j < |st| && st[i].Entry? && st[j].Entry? ==> st[i].rec.service.net != st[j].rec.service.net
  }

  /** By how much the number of tried entries is below zero. */
  function Missing(st: seq<Token>): (d: nat)
    requires HeaderOk(st)
  {
    if st[4].n < 0 then -st[4].n else 0
  }

  function SaneStream(st: seq<Token>): (r: seq<Token>)
    requires HeaderOk(st)
    ensures HeaderOk(r) && r[..4] == st[..4] && r[5] == st[5] && r[4].n == st[4].n + Missing(st)
    ensures r[6..] == SaneTokens(st[6..])
  {
    st[..6][4 := Num(st[4].n + Missing(st))] + SaneTokens(st[6..])
  }

  lemma SaneHeader(st: seq<Token>, key0: Key)
    requires HeaderOk(st)
    ensures var r := SaneStream(st);
            && Buckets(r) == Buckets(st) && Reuse(r) == Reuse(st) && r[3] == st[3] && r[2] == st[2]
            && Begun(r, key0) == Sane(Begun(st, key0), Missing(st))
  {
    var r := SaneStream(st);
    assert r[0] == r[..4][0] && r[2] == r[..4][2] && r[3] == r[..4][3];
    assert SaneInfos(map[]) == map[];
  }

  lemma SaneTriedCount(s: State, st: seq<Token>, n: int, d: nat)
    requires d == if n < 0 then -n else 0
    ensures LoadTried(s, st, n + d) == LoadTried(s, st, n)
  {
  }

  /** Reading in three parts, the last two with what the one before has left. */
  function ReadTried(r: Parsed<State>, nNew: int, nTried: int): Parsed<State> {
    if r.Failure? then Failure else LoadTried(r.value.(idCount := nNew), r.rest, nTried)
  }

  function ReadBuckets(r: Parsed<State>, buckets: int, reuse: bool): Parsed<State> {
    if r.Failure? then Failure else LoadBuckets(r.value, r.rest, 0, buckets, reuse)
  }

  function ReadAll(s: State, st: seq<Token>, nTried: int, buckets: int, reuse: bool): Parsed<State> {
    ReadBuckets(ReadTried(LoadNew(s, st, 0, reuse), s.nNew, nTried), buckets, reuse)
  }

  lemma ReadAllIs(st: seq<Token>, key0: Key)
    requires HeaderOk(st)
    ensures var r := ReadAll(Begun(st, key0), st[6..], st[4].n, Buckets(st), Reuse(st));
            (Complete(st, key0) <==> r.Success?) && (r.Success? ==> Unpruned(st, key0) == r.value)
  {
    hide LoadNew, LoadTried, LoadBuckets, Buckets, Reuse;
  }

  lemma SaneReadTried(r: Parsed<State>, d: nat, nNew: int, nTried: int)
    requires d == if nTried < 0 then -nTried else 0
    ensures ReadTried(SaneParsed(r, d), nNew, nTried + d) == SaneParsed(ReadTried(r, nNew, nTried), d)
  {
    if r.Success? {
      var t := r.value.(idCount := nNew);
      hide LoadTried, SaneTokens, SaneInfos;
      SaneLoadTried(t, d, r.rest, nTried);
      SaneTriedCount(Sane(t, d), SaneTokens(r.rest), nTried, d);
    }
  }

  lemma SaneReadBuckets(r: Parsed<State>, d: nat, buckets: int, reuse: bool)
    ensures ReadBuckets(SaneParsed(r, d), buckets, reuse) == SaneParsed(ReadBuckets(r, buckets, reuse), d)
  {
    if r.Success? {
      hide LoadBuckets, SaneTokens, SaneInfos;
      SaneLoadBuckets(r.value, d, r.rest, 0, buckets, reuse);
    }
  }

  lemma SaneReadAll(s: State, d: nat, st: seq<Token>, nTried: int, buckets: int, reuse: bool)
    requires d == if nTried < 0 then -nTried else 0
    ensures ReadAll(Sane(s, d), SaneTokens(st), nTried + d, buckets, reuse) ==
            SaneParsed(ReadAll(s, st, nTried, buckets, reuse), d)
  {
    hide LoadNew, ReadTried, ReadBuckets, SaneTokens, SaneInfos, SaneParsed;
    SaneLoadNew(s, d, st, 0, reuse);
    var r := LoadNew(s, st, 0, reuse);
    SaneReadTried(r, d, s.nNew, nTried);
    SaneReadBuckets(ReadTried(r, s.nNew, nTried), d, buckets, reuse);
  }

  lemma SaneUnpruned(st: seq<Token>, key0: Key)
    requires HeaderOk(st)
    ensures Complete(SaneStream(st), key0) <==> Complete(st, key0)
    ensures Complete(st, key0) ==> Unpruned(SaneStream(st), key0) == Sane(Unpruned(st, key0), Missing(st))
  {
    var d := Missing(st);
    hide Complete, Unpruned, ReadAll, SaneTokens, Sane, Buckets, Reuse, Begun, SaneStream, HeaderOk;
    SaneHeader(st, key0);
    ReadAllIs(st, key0);
    ReadAllIs(SaneStream(st), key0);
    SaneReadAll(Begun(st, key0), d, st[6..], st[4].n, Buckets(st), Reuse(st));
  }

  lemma SaneHealthy(st: seq<Token>)
    requires HeaderOk(st) && NetsOnce(st[6..]) && st[3].n >= 0
    ensures Healthy(SaneStream(st))
  {
    var r := SaneStream(st);
    assert r[3] == r[..4][3];
    var tokens, u := st[6..], r[6..];
    assert forall i :: 0 <= i < |u| ==> u[i] == SaneToken(tokens[i]);
    hide SaneStream, SaneTokens;
  }

  /** When everything is read, the manager is one that is consistent once entries without a reference are dropped,
      but for times of success and a negative number of tried entries. */
  lemma UnprunedSane(st: seq<Token>, key0: Key)
    requires HeaderOk(st) && NetsOnce(st[6..]) && st[3].n >= 0 && Complete(st, key0)
    ensures Loadable(Sane(Unpruned(st, key0), Missing(st)))
  {
    hide *;
    SaneUnpruned(st, key0);
    SaneHealthy(st);
    UnprunedLoads(SaneStream(st), key0);
  }

  ghost predicate Successes(m: map<Id, Info>) {
    forall id :: id in m ==> m[id].lastSuccess >= 0 && (m[id].inTried ==> m[id].lastSuccess != 0)
  }

  /** The same entries but for their times of success. */
  ghost predicate Alike(m: map<Id, Info>, n: map<Id, Info>) {
    && n.Keys == m.Keys
    && forall id :: id in m ==> n[id].(lastSuccess := m[id].lastSuccess) == m[id]
  }

  lemma AlikeIndexes(m: map<Id, Info>, n: map<Id, Info>, mapAddr: map<NetAddr, Id>, vRandom: seq<Id>)
    requires Alike(m, n)
    ensures AddrIndex(m, mapAddr) ==> AddrIndex(n, mapAddr)
    ensures RandomIndex(m, vRandom) ==> RandomIndex(n, vRandom)
  {
    assert forall id :: id in m ==> n[id].service == m[id].service && n[id].randomPos == m[id].randomPos;
  }

  lemma AlikeTables(key: Key, m: map<Id, Info>, n: map<Id, Info>, news: map<Slot, Id>, tried: map<Slot, Id>)
    requires Alike(m, n)
    ensures NewTable(key, m, news) ==> NewTable(key, n, news)
    ensures TriedTable(key, m, tried) ==> TriedTable(key, n, tried)
  {
    assert forall id :: id in m ==> n[id].service == m[id].service && n[id].inTried == m[id].inTried;
  }

  lemma AlikeCounts(m: map<Id, Info>, n: map<Id, Info>, news: map<Slot, Id>)
    requires Alike(m, n)
    ensures RefCounts(m, news, {}) ==> RefCounts(n, news, {})
    ensures NewIds(m) == NewIds(n) && TriedIds(m) == TriedIds(n)
  {
    assert forall id :: id in m ==> n[id].(lastSuccess := m[id].lastSuccess) == m[id];
  }

  lemma SaneAlike(m: map<Id, Info>)
    ensures Alike(m, SaneInfos(m)) && Alike(SaneInfos(m), m)
  {
  }

  lemma SaneTimes(m: map<Id, Info>)
    ensures Times(m) <==> Times(SaneInfos(m)) && Successes(m)
  {
    forall id | id in m ensures SaneInfos(m)[id] == SaneInfo(m[id]) { }
  }

  lemma SaneInv(s: State, d: nat)
    requires Inv(Sane(s, d))
    ensures Inv(s) <==> d == 0 && Successes(s.mapInfo)
  {
    var m, n := s.mapInfo, SaneInfos(s.mapInfo);
    SaneAlike(m);
    AlikeIndexes(n, m, s.mapAddr, s.vRandom);
    AlikeTables(s.key, n, m, s.news, s.tried);
    AlikeCounts(n, m, s.news);
    SaneTimes(m);
    assert forall id :: id in m <==> id in n;
    hide AddrIndex, RandomIndex, NewTable, TriedTable, RefCounts, Times, Successes, NewIds, TriedIds, SaneInfos, Alike;
  }

  // ---------------------------------------------------------------- without new entries

  lemma {:induction false} BucketIgnored(t: State, st: seq<Token>, b: int, size: int, reuse: bool)
    requires !reuse || t.nNew <= 0
    ensures var r := LoadBucket(t, st, b, size, reuse); r.Success? ==> r.value == t
    decreases |st|
  {
    if size > 0 && st != [] && st[0].Num? {
      BucketIgnored(t, st[1..], b, size - 1, reuse);
    }
  }

  lemma {:induction false} BucketsIgnored(t: State, st: seq<Token>, b: int, buckets: int, reuse: bool)
    requires !reuse || t.nNew <= 0
    ensures var r := LoadBuckets(t, st, b, buckets, reuse); r.Success? ==> r.value == t
    decreases |st|
  {
    if b < buckets && st != [] && st[0].Num? {
      hide LoadBucket;
      BucketIgnored(t, st[1..], b, st[0].n, reuse);
      var r := LoadBucket(t, st[1..], b, st[0].n, reuse);
      if r.Success? {
        BucketsIgnored(t, r.rest, b + 1, buckets, reuse);
      }
    }
  }

  ghost predicate AllTried(s: State) {
    forall id :: id in s.mapInfo ==> s.mapInfo[id].inTried
  }

  lemma {:induction false} LoadTriedAll(s: State, st: seq<Token>, count: int)
    requires AllTried(s)
    ensures var r := LoadTried(s, st, count); r.Success? ==> AllTried(r.value) && r.value.nNew == s.nNew
    decreases count
  {
    if count > 0 && st != [] && st[0].Entry? {
      LoadTriedAll(WithTried(s, st[0].rec), st[1..], count - 1);
    }
  }

  /** With a negative number of new entries there are none, and nothing is pruned. */
  lemma NoneNew(st: seq<Token>, key0: Key)
    requires HeaderOk(st) && st[3].n < 0 && Complete(st, key0)
    ensures var s := Unpruned(st, key0); Unserialize(Empty(key0), st) == Some(s) && AllTried(s) && s.nNew < 0
  {
    UnserializeIs(st, key0);
    UnprunedIs(st, key0);
    var s := Begun(st, key0);
    assert LoadNew(s, st[6..], 0, Reuse(st)) == Success(s, st[6..]);
    hide LoadTried, LoadBuckets, Prune, Sorted;
    var t := s.(idCount := st[3].n);
    LoadTriedAll(t, st[6..], st[4].n);
    var r := LoadTried(t, st[6..], st[4].n);
    BucketsIgnored(r.value, r.rest, 0, Buckets(st), Reuse(st));
    RT.PruneNothing(r.value, Sorted(r.value.mapInfo.Keys));
  }

  // ---------------------------------------------------------------- the result

  /** On any stream without repeated addresses no assert fails, so that it is read unless it ends too early. The
      manager is then consistent exactly if the counters are not negative and what it keeps has times of success,
      tried entries a positive one. */
  lemma LoadsIff(st: seq<Token>, key0: Key)
    requires HeaderOk(st) && NetsOnce(st[6..])
    ensures Unserialize(Empty(key0), st).Some? <==> Complete(st, key0)
    ensures var r := Unserialize(Empty(key0), st);
            r.Some? ==> (Inv(r.value) <==> st[3].n >= 0 && st[4].n >= 0 && Successes(r.value.mapInfo))
  {
    UnserializeIs(st, key0);
    hide *;
    if Complete(st, key0) {
      if st[3].n < 0 {
        NoneNew(st, key0);
        NotNegative(Unpruned(st, key0));
      } else {
        var s := Unpruned(st, key0);
        UnprunedSane(st, key0);
        PruneSane(s, Missing(st));
        SaneInv(Prune(s, Sorted(s.mapInfo.Keys)).value, Missing(st));
        MissingIs(st);
      }
    }
  }

  lemma MissingIs(st: seq<Token>)
    requires HeaderOk(st)
    ensures Missing(st) == 0 <==> st[4].n >= 0
  {
  }

  lemma NotNegative(s: State)
    requires s.nNew < 0
    ensures !Inv(s)
  {
  }

  lemma PruneSane(s: State, d: nat)
    requires Loadable(Sane(s, d))
    ensures var r := Prune(s, Sorted(s.mapInfo.Keys)); r.Some? && Inv(Sane(r.value, d))
  {
    hide *;
    SaneKeys(s, d);
    var ids := Sorted(s.mapInfo.Keys);
    SanePrune(s, d, ids);
    LooseIsKnown(Sane(s, d));
    PruneLoads(Sane(s, d), ids);
    SaneSome(Prune(s, ids), d);
  }

  lemma SaneKeys(s: State, d: int)
    ensures Sane(s, d).mapInfo.Keys == s.mapInfo.Keys
  {
  }

  lemma SaneSome(r: Option<State>, d: int)
    ensures r.Some? == SaneResult(r, d).Some? && (r.Some? ==> SaneResult(r, d).value == Sane(r.value, d))
  {
  }

  /** A tried entry without a success is read all the same, and Check_ would object. */
  lemma NeverSucceeded(key: Key, key0: Key)
    ensures var st := [Byte(0), Byte(32), Secret(key), Num(0), Num(1), Num(0),
                       Entry(Record(Service(7, 8333), {}, 0, 0, 0, 0))];
            && HeaderOk(st) && NetsOnce(st[6..])
            && Unserialize(Empty(key0), st).Some? && !Inv(Unserialize(Empty(key0), st).value)
  {
    var r := Record(Service(7, 8333), {}, 0, 0, 0, 0);
    var st := [Byte(0), Byte(32), Secret(key), Num(0), Num(1), Num(0), Entry(r)];
    assert st[6..] == [Entry(r)];
    var s := Begun(st, key0);
    var t := WithTried(s, r);
    assert LoadNew(s, st[6..], 0, false) == Success(s, st[6..]);
    assert s.(idCount := 0) == s;
    LoadTriedNext(s, st[6..], 1);
    LoadTriedDone(t, st[6..][1..], 0);
    assert LoadBuckets(t, [], 0, 0, false) == Success(t, []);
    UnserializeIs(st, key0);
    assert t.mapInfo == map[0 := Fresh(r, 0).(inTried := true)];
    RT.PruneNothing(t, Sorted(t.mapInfo.Keys));
  }
}
