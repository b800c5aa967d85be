/** Serialize and Unserialize of CAddrMan over a stream of typed values. */
module AddrManStream {
  import opened AddrMan
  import opened Options
  import Sets

  /** The fields of a CAddrInfo that go to disk. */
  datatype Record = Record(service: Service, services: set<nat>, time: int, source: NetAddr, lastSuccess: int,
                           attempts: int)

  datatype Token = Byte(b: nat) | Secret(key: Key) | Num(n: int) | Entry(rec: Record)

  /** What is read, and what remains on the stream; reading past the end or a wrong value fails. */
  datatype Parsed<T> = Failure | Success(value: T, rest: seq<Token>)

  const TWO_30 := 0x4000_0000

  /** n ^ (1 << 30) */
  function FlipBit30(n: int): int {
    if (n / TWO_30) % 2 == 0 then n + TWO_30 else n - TWO_30
  }

  /** Flipping a bit twice; as it is written, and as it is read. */
  lemma FlipTwice(n: int)
    ensures FlipBit30(FlipBit30(n)) == n
    ensures FlipBit30(NEW_BUCKET_COUNT) == 0x4000_0400 && FlipBit30(0x4000_0400) == NEW_BUCKET_COUNT
  {
  }

  function ToRecord(i: Info): Record {
    Record(i.service, i.services, i.time, i.source, i.lastSuccess, i.attempts)
  }

  /** Overwrite the stored fields of i, as `s >> info` does. */
  function Overwritten(i: Info, r: Record): Info {
    i.(service := r.service, services := r.services, time := r.time, source := r.source,
       lastSuccess := r.lastSuccess, attempts := r.attempts)
  }

  const NO_INFO := Info(Service(0, 0), {}, 0, 0, 0, 0, 0, 0, 0, false, -1)

  // ---------------------------------------------------------------- ids in map order

  ghost predicate IsLeast(ids: set<Id>, m: Id) {
    m in ids && forall x :: x in ids ==> m <= x
  }

  lemma {:induction false} LeastExists(ids: set<Id>) returns (m: Id)
    requires ids != {}
    ensures IsLeast(ids, m)
  {
    Sets.Inhabited(ids);
    var y :| y in ids;
    var below := set x | x in ids && x < y;
    if below == {} {
      assert forall x :: x in ids ==> x !in below;
      m := y;
    } else {
      assert y !in below;
      m := LeastExists(below);
      assert forall x :: x in ids ==> x in below || y <= x;
    }
  }

  lemma LeastOfAny(ids: set<Id>)
    requires ids != {}
    ensures exists m :: IsLeast(ids, m)
  {
    var m := LeastExists(ids);
  }

  ghost function Least(ids: set<Id>): (m: Id)
    requires ids != {}
    ensures IsLeast(ids, m)
  {
    LeastOfAny(ids);
    var m :| IsLeast(ids, m);
    m
  }

  predicate Increasing(v: seq<Id>) {
    forall i, j :: 0 <= i < j < |v| ==> v[i] < v[j]
  }

  /** The ids in the order a std::map iterates over them. */
  ghost function Sorted(ids: set<Id>): (v: seq<Id>)
    ensures Increasing(v) && (forall id :: id in v <==> id in ids) && |v| == |ids|
    ensures forall i :: 0 <= i < |v| ==> v[i] in ids
  {
    if ids == {} then []
    else
      var m := Least(ids);
      var tail := Sorted(ids - {m});
      assert forall i :: 0 <= i < |tail| ==> tail[i] in ids - {m};
      [m] + tail
  }

  ghost function ReferencedIds(m: map<Id, Info>): set<Id> {
    set id | id in m && m[id].refCount != 0
  }

  ghost function NewOrder(s: State): (v: seq<Id>)
    ensures forall i :: 0 <= i < |v| ==> v[i] in s.mapInfo
  {
    Sorted(ReferencedIds(s.mapInfo))
  }

  ghost function TriedOrder(s: State): (v: seq<Id>)
    ensures forall i :: 0 <= i < |v| ==> v[i] in s.mapInfo
  {
    Sorted(TriedIds(s.mapInfo))
  }

  function IndexOf(v: seq<Id>, id: Id): (i: nat)
    requires id in v
    ensures i < |v| && v[i] == id
  {
    if v[0] == id then 0 else 1 + IndexOf(v[1..], id)
  }

  // ---------------------------------------------------------------- writing

  function Records(m: map<Id, Info>, ids: seq<Id>): (r: seq<Token>)
    requires forall i :: 0 <= i < |ids| ==> ids[i] in m
    ensures |r| == |ids|
    ensures forall i :: 0 <= i < |ids| ==> r[i] == Entry(ToRecord(m[ids[i]]))
  {
    seq(|ids|, i requires 0 <= i < |ids| => Entry(ToRecord(m[ids[i]])))
  }

  /** The places of the new entries in positions p.. of bucket b. */
  function BucketTail(s: State, order: seq<Id>, b: int, p: nat): seq<Token>
    requires p <= BUCKET_SIZE && forall sl :: sl in s.news ==> s.news[sl] in order
    decreases BUCKET_SIZE - p
  {
    if p == BUCKET_SIZE then []
    else (if (b, p) in s.news then [Num(IndexOf(order, s.news[(b, p)]))] else []) + BucketTail(s, order, b, p + 1)
  }

  /** Buckets b.. : the number of entries of each, then their places. */
  function BucketsFrom(s: State, order: seq<Id>, b: nat): seq<Token>
    requires b <= NEW_BUCKET_COUNT && forall sl :: sl in s.news ==> s.news[sl] in order
    decreases NEW_BUCKET_COUNT - b
  {
    if b == NEW_BUCKET_COUNT then []
    else
      var t := BucketTail(s, order, b, 0);
      [Num(|t|)] + t + BucketsFrom(s, order, b + 1)
  }

  /** The asserts of Serialize: neither counter is too small for what the tables hold. */
  ghost predicate Serializable(s: State) {
    && |NewOrder(s)| <= s.nNew && |TriedOrder(s)| <= s.nTried
    && forall sl :: sl in s.news ==> s.news[sl] in NewOrder(s)
  }

  ghost function Header(s: State): seq<Token> {
    [Byte(1), Byte(32), Secret(s.key), Num(s.nNew), Num(s.nTried), Num(FlipBit30(NEW_BUCKET_COUNT))]
  }

  /** All new entries, all tried entries, then the places of the new buckets. */
  ghost function Body(s: State): seq<Token>
    requires Serializable(s)
  {
    Records(s.mapInfo, NewOrder(s)) + (Records(s.mapInfo, TriedOrder(s)) + BucketsFrom(s, NewOrder(s), 0))
  }

  ghost function Serialize(s: State): seq<Token>
    requires Serializable(s)
  {
    Header(s) + Body(s)
  }

  // ---------------------------------------------------------------- reading

  /** Give entry id a reference at its own home slot, if that is free (old or foreign formats). */
  function AtHome(s: State, id: Id): State
    requires id in s.mapInfo
  {
    var home := HomeSlot(s.key, s.mapInfo[id]);
    if home in s.news then s
    else SetInfo(s, id, s.mapInfo[id].(refCount := s.mapInfo[id].refCount + 1)).(news := s.news[home := id])
  }

  /** One entry of the new table becomes entry n. */
  function WithNew(s: State, n: Id, r: Record, reuse: bool): State {
    var i := Overwritten(if n in s.mapInfo then s.mapInfo[n] else NO_INFO, r).(randomPos := |s.vRandom|);
    var s1 := SetInfo(s, n, i).(mapAddr := s.mapAddr[r.service.net := n], vRandom := s.vRandom + [n]);
    if reuse then s1 else AtHome(s1, n)
  }

  function LoadNew(s: State, st: seq<Token>, n: int, reuse: bool): Parsed<State>
    decreases s.nNew - n
  {
    if n >= s.nNew then Success(s, st)
    else if |st| == 0 || !st[0].Entry? then Failure
    else LoadNew(WithNew(s, n, st[0].rec, reuse), st[1..], n + 1, reuse)
  }

  /** One entry of the tried table takes the next id, unless its slot is taken. */
  function WithTried(s: State, r: Record): State {
    var sl := TriedSlot(s.key, r.service);
    if sl in s.tried then s.(nTried := s.nTried - 1)
    else
      var id := s.idCount;
      var i := Overwritten(NO_INFO, r).(randomPos := |s.vRandom|, inTried := true);
      SetInfo(s, id, i).(mapAddr := s.mapAddr[r.service.net := id], vRandom := s.vRandom + [id],
                         tried := s.tried[sl := id], idCount := id + 1)
  }

  /** `count` entries of the tried table are still to be read. */
  function LoadTried(s: State, st: seq<Token>, count: int): Parsed<State>
    decreases count
  {
    if count <= 0 then Success(s, st)
    else if |st| == 0 || !st[0].Entry? then Failure
    else LoadTried(WithTried(s, st[0].rec), st[1..], count - 1)
  }

  /** One place read for bucket b. */
  function WithPlace(s: State, b: int, index: int, reuse: bool): State {
    if 0 <= index < s.nNew && index in s.mapInfo then
      var i := s.mapInfo[index];
      var sl := NewSlot(s.key, i.service, b);
      if reuse && sl !in s.news && i.refCount < NEW_BUCKETS_PER_ADDRESS
      then SetInfo(s, index, i.(refCount := i.refCount + 1)).(news := s.news[sl := index])
      else s
    else s
  }

  /** `size` places of bucket b are still to be read. */
  function LoadBucket(s: State, st: seq<Token>, b: int, size: int, reuse: bool): (r: Parsed<State>)
    ensures r.Success? ==> |r.rest| <= |st|
    decreases |st|
  {
    if size <= 0 then Success(s, st)
    else if |st| == 0 || !st[0].Num? then Failure
    else LoadBucket(WithPlace(s, b, st[0].n, reuse), st[1..], b, size - 1, reuse)
  }

  function LoadBuckets(s: State, st: seq<Token>, b: int, buckets: int, reuse: bool): Parsed<State>
    decreases |st|
  {
    if b >= buckets then Success(s, st)
    else if |st| == 0 || !st[0].Num? then Failure
    else match LoadBucket(s, st[1..], b, st[0].n, reuse)
      case Failure => Failure
      case Success(s1, rest) => LoadBuckets(s1, rest, b + 1, buckets, reuse)
  }

  /** Delete the entries that ended up with no reference; None if an assert of Delete fails. */
  function Prune(s: State, ids: seq<Id>): Option<State>
    decreases |ids|
  {
    if |ids| == 0 then Some(s)
    else if ids[0] in s.mapInfo && !s.mapInfo[ids[0]].inTried && s.mapInfo[ids[0]].refCount == 0 then
      if Deletable(s, ids[0]) then Prune(Delete(s, ids[0]), ids[1..]) else None
    else Prune(s, ids[1..])
  }

  /** Clear: the tables and counters are reset, mapInfo and mapAddr are not. */
  function Cleared(s: State): State {
    s.(vRandom := [], news := map[], tried := map[], idCount := 0, nTried := 0, nNew := 0, lastGood := 1)
  }

  predicate HeaderOk(st: seq<Token>) {
    && |st| >= 6 && st[0].Byte? && st[1].Byte? && st[2].Secret? && st[3].Num? && st[4].Num? && st[5].Num?
    && st[1].b == 32
    && st[3].n <= NEW_BUCKET_COUNT * BUCKET_SIZE && st[4].n <= TRIED_BUCKET_COUNT * BUCKET_SIZE
  }

  /** Unserialize into manager m; None stands for the exceptions and asserts on the way. */
  ghost function Unserialize(m: State, st: seq<Token>): Option<State> {
    if !HeaderOk(st) then None
    else
      var version, nNew, nTried := st[0].b, st[3].n, st[4].n;
      var buckets := if version != 0 then FlipBit30(st[5].n) else st[5].n;
      var reuse := version == 1 && buckets == NEW_BUCKET_COUNT;
      var s0 := Cleared(m).(key := st[2].key, nNew := nNew, nTried := nTried);
      match LoadNew(s0, st[6..], 0, reuse)
      case Failure => None
      case Success(s1, st1) =>
        match LoadTried(s1.(idCount := nNew), st1, nTried)
        case Failure => None
        case Success(s2, st2) =>
          match LoadBuckets(s2, st2, 0, buckets, reuse)
          case Failure => None
          case Success(s3, _) => Prune(s3, Sorted(s3.mapInfo.Keys))
  }

  /** A stream is refused if its key has another length, or it announces more entries than there are slots. */
  lemma Refused(m: State, st: seq<Token>)
    requires |st| >= 6 && (st[1] != Byte(32) || (st[3].Num? && st[3].n > 65536) || (st[4].Num? && st[4].n > 16384))
    ensures Unserialize(m, st) == None
  {
  }

  lemma {:induction false} LoadNewFields(s: State, st: seq<Token>, n: int, reuse: bool)
    ensures var r := LoadNew(s, st, n, reuse); r.Success? ==> r.value.lastGood == s.lastGood && r.value.key == s.key
    decreases s.nNew - n
  {
    if n < s.nNew && |st| > 0 && st[0].Entry? {
      LoadNewFields(WithNew(s, n, st[0].rec, reuse), st[1..], n + 1, reuse);
    }
  }

  lemma {:induction false} LoadTriedFields(s: State, st: seq<Token>, count: int)
    ensures var r := LoadTried(s, st, count); r.Success? ==> r.value.lastGood == s.lastGood && r.value.key == s.key
    decreases count
  {
    if count > 0 && |st| > 0 && st[0].Entry? {
      LoadTriedFields(WithTried(s, st[0].rec), st[1..], count - 1);
    }
  }

  lemma {:induction false} LoadBucketFields(s: State, st: seq<Token>, b: int, size: int, reuse: bool)
    ensures var r := LoadBucket(s, st, b, size, reuse);
            r.Success? ==> r.value.lastGood == s.lastGood && r.value.key == s.key
    decreases |st|
  {
    if size > 0 && |st| > 0 && st[0].Num? {
      LoadBucketFields(WithPlace(s, b, st[0].n, reuse), st[1..], b, size - 1, reuse);
    }
  }

  lemma {:induction false} LoadBucketsFields(s: State, st: seq<Token>, b: int, buckets: int, reuse: bool)
    ensures var r := LoadBuckets(s, st, b, buckets, reuse);
            r.Success? ==> r.value.lastGood == s.lastGood && r.value.key == s.key
    decreases |st|
  {
    hide LoadBucket;
    if b < buckets && |st| > 0 && st[0].Num? {
      LoadBucketFields(s, st[1..], b, st[0].n, reuse);
      var r := LoadBucket(s, st[1..], b, st[0].n, reuse);
      if r.Success? {
        LoadBucketsFields(r.value, r.rest, b + 1, buckets, reuse);
      }
    }
  }

  lemma {:induction false} PruneFields(s: State, ids: seq<Id>)
    ensures var r := Prune(s, ids); r.Some? ==> r.value.lastGood == s.lastGood && r.value.key == s.key
    decreases |ids|
  {
    if |ids| > 0 {
      if ids[0] in s.mapInfo && !s.mapInfo[ids[0]].inTried && s.mapInfo[ids[0]].refCount == 0 {
        if Deletable(s, ids[0]) {
          PruneFields(Delete(s, ids[0]), ids[1..]);
        }
      } else {
        PruneFields(s, ids[1..]);
      }
    }
  }

  /** The key is read, and nobody is known to have answered yet. */
  lemma LoadedFields(m: State, st: seq<Token>)
    ensures var r := Unserialize(m, st);
            r.Some? ==> |st| >= 6 && st[2].Secret? && r.value.key == st[2].key && r.value.lastGood == 1
  {
    hide LoadNew, LoadTried, LoadBuckets, Prune, Sorted, FlipBit30;
    if HeaderOk(st) {
      var version, nNew, nTried := st[0].b, st[3].n, st[4].n;
      var buckets := if version != 0 then FlipBit30(st[5].n) else st[5].n;
      var reuse := version == 1 && buckets == NEW_BUCKET_COUNT;
      var s0 := Cleared(m).(key := st[2].key, nNew := nNew, nTried := nTried);
      LoadNewFields(s0, st[6..], 0, reuse);
      var r1 := LoadNew(s0, st[6..], 0, reuse);
      if r1.Success? {
        LoadTriedFields(r1.value.(idCount := nNew), r1.rest, nTried);
        var r2 := LoadTried(r1.value.(idCount := nNew), r1.rest, nTried);
        if r2.Success? {
          LoadBucketsFields(r2.value, r2.rest, 0, buckets, reuse);
          var r3 := LoadBuckets(r2.value, r2.rest, 0, buckets, reuse);
          if r3.Success? {
            PruneFields(r3.value, Sorted(r3.value.mapInfo.Keys));
          }
        }
      }
    }
  }
}
