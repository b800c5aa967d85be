/** Compact blocks (BIP 152): reconstruction of a block from short ids, a pool of transactions and what is missing. */
module CompactBlocks {
  import opened Options
  import Sets

  type Tx = int
  type ShortId = int

  /** What InitData and FillBlock answer. NoReturn stands for a call that does not end. */
  datatype ReadStatus = Ok | Invalid | Failed | CheckBlockFailed | NoReturn

  /** What becomes of the loop over short ids. */
  datatype Mapping = Complete | Crowded | Endless

  /** A transaction sent along, with its distance from the previous one. */
  datatype Prefilled = Prefilled(index: nat, tx: Tx)

  datatype Compact = Compact(headerNull: bool, shortIds: seq<ShortId>, prefilled: seq<Prefilled>)

  const MAX_INDEX := 0xFFFF
  const SLOT_LIMIT := 0x1_0000
  const MAX_TRANSACTIONS := 1_000_000 / 10

  // ---------------------------------------------------------------- free slots

  /** The slots below n without a transaction, in order. */
  function Free(avail: seq<Option<Tx>>, n: nat): (r: seq<nat>)
    requires n <= |avail|
    ensures |r| <= n
  {
    if n == 0 then [] else Free(avail, n - 1) + if avail[n - 1] == None then [n - 1] else []
  }

  lemma {:induction false} FreeNone(avail: seq<Option<Tx>>, n: nat)
    requires n <= |avail| && forall k :: 0 <= k < n ==> avail[k] == None
    ensures |Free(avail, n)| == n
  {
    if n > 0 {
      FreeNone(avail, n - 1);
    }
  }

  /** Taking a free slot. */
  lemma {:induction false} FreeTaken(avail: seq<Option<Tx>>, n: nat, k: nat, t: Tx)
    requires n <= |avail| && k < |avail| && avail[k] == None
    ensures |Free(avail[k := Some(t)], n)| == |Free(avail, n)| - if k < n then 1 else 0
  {
    if n > 0 {
      FreeTaken(avail, n - 1, k, t);
    }
  }

  lemma {:induction false} FreeMonotone(avail: seq<Option<Tx>>, m: nat, n: nat)
    requires m <= n <= |avail|
    ensures Free(avail, m) <= Free(avail, n)
    ensures (forall k :: m <= k < n ==> avail[k].Some?) ==> Free(avail, m) == Free(avail, n)
    decreases n
  {
    if m < n {
      FreeMonotone(avail, m, n - 1);
    }
  }

  lemma {:induction false} FreeAreFree(avail: seq<Option<Tx>>, n: nat, i: nat)
    requires n <= |avail| && i < |Free(avail, n)|
    ensures Free(avail, n)[i] < n && avail[Free(avail, n)[i]] == None
  {
    if i < |Free(avail, n)| - 1 || avail[n - 1] != None {
      FreeAreFree(avail, n - 1, i);
    }
  }

  // ---------------------------------------------------------------- prefilled transactions

  /** The slot of the i-th prefilled transaction. */
  function Position(prefilled: seq<Prefilled>, i: nat): int
    requires i <= |prefilled|
  {
    if i == 0 then -1 else Position(prefilled, i - 1) + prefilled[i - 1].index + 1
  }

  // ---------------------------------------------------------------- filling

  /** Free slots take the missing transactions in order; too few are an error, and what is over is returned. */
  function Fill(avail: seq<Option<Tx>>, missing: seq<Tx>): Option<(seq<Tx>, seq<Tx>)> {
    if avail == [] then Some(([], missing))
    else if avail[0].None? && missing == [] then None
    else
      var t := if avail[0].Some? then avail[0].value else missing[0];
      var rest := if avail[0].Some? then missing else missing[1..];
      match Fill(avail[1..], rest)
      case None => None
      case Some(p) => Some(([t] + p.0, p.1))
  }

  /** The missing transactions run out at the free slot k. */
  ghost predicate RanShort(avail: seq<Option<Tx>>, missing: seq<Tx>, k: nat) {
    k < |avail| && avail[k] == None && |Free(avail, k)| == |missing|
  }

  /** The slots when the transactions of the first k have been moved to the block. */
  function MovedOut(avail: seq<Option<Tx>>, k: nat): seq<Option<Tx>>
    requires k <= |avail|
  {
    seq(k, _ => None) + avail[k..]
  }

  lemma MovedNext(avail: seq<Option<Tx>>, k: nat)
    requires k < |avail|
    ensures |MovedOut(avail, k)| == |avail| && MovedOut(avail, k)[k] == avail[k]
    ensures MovedOut(avail, k)[k := None] == MovedOut(avail, k + 1)
    ensures avail[k] == None ==> MovedOut(avail, k) == MovedOut(avail, k + 1)
    ensures |Free(avail, k + 1)| == |Free(avail, k)| + if avail[k] == None then 1 else 0
  {
  }

  /** Filling succeeds iff there is a transaction for every free slot. */
  lemma {:induction false} FillEnough(avail: seq<Option<Tx>>, missing: seq<Tx>)
    ensures Fill(avail, missing).Some? <==> |missing| >= |Free(avail, |avail|)|
    decreases |avail|
  {
    if avail != [] {
      FreeFirst(avail, |avail|);
      if avail[0].Some? || missing != [] {
        FillEnough(avail[1..], if avail[0].Some? then missing else missing[1..]);
      }
    }
  }

  lemma {:induction false} FreeFirst(avail: seq<Option<Tx>>, n: nat)
    requires 0 < n <= |avail|
    ensures |Free(avail, n)| == |Free(avail[1..], n - 1)| + if avail[0] == None then 1 else 0
  {
    if n > 1 {
      FreeFirst(avail, n - 1);
    }
  }

  /** After a failure for want of transactions, a second try needs one also for every slot that was moved out. */
  lemma {:induction false} RetryNeedsMore(avail: seq<Option<Tx>>, k: nat, n: nat)
    requires k <= n <= |avail|
    ensures |Free(MovedOut(avail, k), n)| == |Free(avail, n)| + k - |Free(avail, k)|
    decreases n
  {
    if n > k {
      RetryNeedsMore(avail, k, n - 1);
    } else {
      FreeNone(MovedOut(avail, k), k);
    }
  }

  /** What is available belongs to the block. */
  ghost predicate Agrees(avail: seq<Option<Tx>>, block: seq<Tx>) {
    |avail| == |block| && forall k :: 0 <= k < |block| && avail[k].Some? ==> avail[k].value == block[k]
  }

  /** The transactions to ask for. */
  function Missing(avail: seq<Option<Tx>>, block: seq<Tx>): seq<Tx>
    requires |avail| == |block|
  {
    if avail == [] then [] else (if avail[0].None? then [block[0]] else []) + Missing(avail[1..], block[1..])
  }

  /** With the missing transactions in order the block is complete again. */
  lemma {:induction false} FillRestores(avail: seq<Option<Tx>>, block: seq<Tx>)
    requires Agrees(avail, block)
    ensures Fill(avail, Missing(avail, block)) == Some((block, []))
    decreases |avail|
  {
    if avail != [] {
      FillRestores(avail[1..], block[1..]);
      assert block == [block[0]] + block[1..];
      var m := Missing(avail, block);
      if avail[0].None? {
        assert m[1..] == Missing(avail[1..], block[1..]);
      } else {
        assert m == Missing(avail[1..], block[1..]);
      }
    }
  }

  // ---------------------------------------------------------------- what a compact block stands for

  function Total(c: Compact): nat {
    |c.shortIds| + |c.prefilled|
  }

  /** The first i prefilled transactions are present and have slots. */
  predicate PrefilledOk(c: Compact, isNull: Tx -> bool, i: nat)
    requires i <= |c.prefilled|
  {
    forall j :: 0 <= j < i ==> HasSlot(c, isNull, j)
  }

  predicate HasSlot(c: Compact, isNull: Tx -> bool, j: nat)
    requires j < |c.prefilled|
  {
    var k := Position(c.prefilled, j + 1);
    !isNull(c.prefilled[j].tx) && k <= MAX_INDEX && k <= |c.shortIds| + j
  }

  lemma PrefilledNext(c: Compact, isNull: Tx -> bool, i: nat)
    requires i < |c.prefilled|
    ensures PrefilledOk(c, isNull, i + 1) <==> PrefilledOk(c, isNull, i) && HasSlot(c, isNull, i)
    ensures PrefilledOk(c, isNull, |c.prefilled|) ==> PrefilledOk(c, isNull, i + 1)
  {
    hide HasSlot;
  }

  /** The slots with the first i prefilled transactions in them. */
  function Placed(c: Compact, i: nat): (r: seq<Option<Tx>>)
    requires i <= |c.prefilled|
    ensures |r| == Total(c)
  {
    if i == 0 then seq(Total(c), _ => None)
    else
      var r, k := Placed(c, i - 1), Position(c.prefilled, i);
      if 0 <= k < Total(c) then r[k := Some(c.prefilled[i - 1].tx)] else r
  }

  /** Prefilled transactions take different slots, so that one is left for every short id. */
  lemma {:induction false} PlacedFree(c: Compact, isNull: Tx -> bool, i: nat)
    requires i <= |c.prefilled| && PrefilledOk(c, isNull, i)
    ensures |Free(Placed(c, i), Total(c))| == Total(c) - i
    ensures -1 <= Position(c.prefilled, i) < Total(c) - |c.prefilled| + i
    ensures forall k :: Position(c.prefilled, i) < k < Total(c) ==> Placed(c, i)[k] == None
  {
    if i == 0 {
      FreeNone(Placed(c, 0), Total(c));
    } else {
      PlacedFree(c, isNull, i - 1);
      assert HasSlot(c, isNull, i - 1);
      FreeTaken(Placed(c, i - 1), Total(c), Position(c.prefilled, i), c.prefilled[i - 1].tx);
    }
  }

  lemma {:induction false} FreeHas(avail: seq<Option<Tx>>, n: nat, k: nat) returns (i: nat)
    requires k < n <= |avail| && avail[k] == None
    ensures i < |Free(avail, n)| && Free(avail, n)[i] == k
  {
    if k == n - 1 {
      i := |Free(avail, n - 1)|;
    } else {
      i := FreeHas(avail, n - 1, k);
    }
  }

  /** Slot numbers survive the cut to 16 bits exactly if there are no more than 65536 transactions. */
  lemma SlotsFit(c: Compact, isNull: Tx -> bool)
    requires PrefilledOk(c, isNull, |c.prefilled|)
    ensures var free := Free(Placed(c, |c.prefilled|), Total(c));
            (forall i :: 0 <= i < |free| ==> free[i] % SLOT_LIMIT == free[i]) <==> Total(c) <= SLOT_LIMIT
  {
    var placed, n := Placed(c, |c.prefilled|), Total(c);
    PlacedFree(c, isNull, |c.prefilled|);
    if n <= SLOT_LIMIT {
      forall i | 0 <= i < |Free(placed, n)| ensures Free(placed, n)[i] % SLOT_LIMIT == Free(placed, n)[i] {
        FreeAreFree(placed, n, i);
      }
    } else {
      LastPosition(c, isNull);
      var i := FreeHas(placed, n, SLOT_LIMIT);
    }
  }

  lemma LastPosition(c: Compact, isNull: Tx -> bool)
    requires PrefilledOk(c, isNull, |c.prefilled|)
    ensures Position(c.prefilled, |c.prefilled|) <= MAX_INDEX
  {
    if |c.prefilled| > 0 {
      assert HasSlot(c, isNull, |c.prefilled| - 1);
    }
  }

  /** Every offset of a free slot fits 16 bits, or none is looked for. */
  predicate OffsetsFit(c: Compact) {
    |c.prefilled| < SLOT_LIMIT || c.shortIds == []
  }

  /** A 16-bit offset after n increments. */
  function OffsetAfter(from: nat, n: nat): nat {
    (from + n) % SLOT_LIMIT
  }

  /** How many slots have a transaction. */
  ghost function Taken(avail: seq<Option<Tx>>): int {
    |avail| - |Free(avail, |avail|)|
  }

  lemma {:induction false} TakenBefore(avail: seq<Option<Tx>>, n: nat)
    requires n <= |avail|
    ensures n - |Free(avail, n)| <= Taken(avail)
    decreases |avail| - n
  {
    if n < |avail| {
      TakenBefore(avail, n + 1);
    }
  }

  /** ++ on 16 bits. */
  function Increment(p: nat): (r: nat)
    requires p < SLOT_LIMIT
    ensures r == if p + 1 == SLOT_LIMIT then 0 else p + 1
  {
    (p + 1) % SLOT_LIMIT
  }

  /** While not all offsets are taken, an offset behind a taken slot fits, and there is a slot at it. */
  lemma SkipTaken(avail: seq<Option<Tx>>, i: nat, p: nat)
    requires i + p < |avail| && avail[i + p].Some? && |Free(avail, i + p)| == i < |Free(avail, |avail|)|
    requires Taken(avail) < SLOT_LIMIT
    ensures p + 1 < SLOT_LIMIT && i + p + 1 < |avail| && |Free(avail, i + p + 1)| == i
  {
    NextFree(avail, i + p);
    TakenBefore(avail, i + p + 1);
    NextFree(avail, i + p + 1);
  }

  lemma AlwaysTaken(avail: seq<Option<Tx>>)
    ensures SLOT_LIMIT <= |avail| && (forall k :: 0 <= k < SLOT_LIMIT ==> avail[k].Some?) ==>
              forall n: nat :: avail[OffsetAfter(0, n)].Some?
  {
    forall n: nat ensures OffsetAfter(0, n) < SLOT_LIMIT {
    }
  }

  lemma FreeStart(avail: seq<Option<Tx>>)
    ensures Free(avail, 0) == []
  {
  }

  /** A free slot comes right behind the free slots before it. */
  lemma FreeAt(avail: seq<Option<Tx>>, p: nat)
    requires p < |avail| && avail[p] == None
    ensures var i, free := |Free(avail, p)|, Free(avail, |avail|);
            |Free(avail, p + 1)| == i + 1 && i < |free| && free[i] == p
  {
    FreeMonotone(avail, p + 1, |avail|);
    assert Free(avail, p + 1)[|Free(avail, p)|] == p;
  }

  lemma {:induction false} FreeAll(avail: seq<Option<Tx>>, m: nat, n: nat)
    requires m <= n <= |avail| && forall k :: m <= k < n ==> avail[k] == None
    ensures |Free(avail, n)| == |Free(avail, m)| + n - m
    decreases n
  {
    if m < n {
      FreeAll(avail, m, n - 1);
    }
  }

  /** Accepted prefilled transactions have slots below 65536. */
  lemma PrefilledAtMost(c: Compact, isNull: Tx -> bool)
    requires PrefilledOk(c, isNull, |c.prefilled|)
    ensures |c.prefilled| <= SLOT_LIMIT
  {
    var placed, n := Placed(c, |c.prefilled|), |c.prefilled|;
    PlacedFree(c, isNull, n);
    LastPosition(c, isNull);
    if n > SLOT_LIMIT {
      FreeAll(placed, SLOT_LIMIT, Total(c));
    }
  }

  /** If there are 65536 of them, they take all of these. */
  lemma AllTaken(c: Compact, isNull: Tx -> bool)
    requires PrefilledOk(c, isNull, |c.prefilled|) && |c.prefilled| >= SLOT_LIMIT
    ensures |c.prefilled| == SLOT_LIMIT
    ensures forall k :: 0 <= k < SLOT_LIMIT ==> Placed(c, |c.prefilled|)[k].Some?
  {
    PrefilledAtMost(c, isNull);
    var placed := Placed(c, |c.prefilled|);
    PlacedFree(c, isNull, |c.prefilled|);
    LastPosition(c, isNull);
    FreeAll(placed, SLOT_LIMIT, Total(c));
    forall k | 0 <= k < SLOT_LIMIT ensures placed[k].Some? {
      if placed[k] == None {
        var i := FreeHas(placed, SLOT_LIMIT, k);
      }
    }
  }

  lemma SlotsTaken(c: Compact, isNull: Tx -> bool)
    requires PrefilledOk(c, isNull, |c.prefilled|)
    ensures var placed := Placed(c, |c.prefilled|);
            && |Free(placed, Total(c))| == |c.shortIds| && Taken(placed) <= SLOT_LIMIT
            && (c.shortIds == [] ==> OffsetsFit(c))
            && (c.shortIds != [] ==> (OffsetsFit(c) <==> Taken(placed) < SLOT_LIMIT))
            && (Taken(placed) == SLOT_LIMIT ==>
                  SLOT_LIMIT <= |placed| && forall k :: 0 <= k < SLOT_LIMIT ==> placed[k].Some?)
  {
    hide PrefilledOk, Placed, Free;
    PlacedFree(c, isNull, |c.prefilled|);
    PrefilledAtMost(c, isNull);
    if |c.prefilled| == SLOT_LIMIT {
      AllTaken(c, isNull);
    }
  }

  /** A message that passes all tests of the prefilled transactions and on which the search for a slot goes round for
      ever: 65536 of them, each right behind the one before, and one short id. */
  lemma EndlessSearch(short: ShortId, tx: Tx) returns (c: Compact)
    ensures InBounds(c) && PrefilledOk(c, _ => false, |c.prefilled|) && c.shortIds == [short] && !OffsetsFit(c)
    ensures forall n: nat :: Placed(c, |c.prefilled|)[OffsetAfter(0, n)].Some?
  {
    c := Compact(false, [short], seq(SLOT_LIMIT, _ => Prefilled(0, tx)));
    forall i | 0 < i <= SLOT_LIMIT ensures Position(c.prefilled, i) == i - 1 {
      Consecutive(c.prefilled, i);
    }
    AllTaken(c, _ => false);
    assert |Placed(c, |c.prefilled|)| == SLOT_LIMIT + 1;
  }

  lemma {:induction false} Consecutive(prefilled: seq<Prefilled>, i: nat)
    requires i <= |prefilled| && forall j :: 0 <= j < |prefilled| ==> prefilled[j].index == 0
    ensures Position(prefilled, i) == i - 1
  {
    if i > 0 {
      Consecutive(prefilled, i - 1);
    }
  }

  /** The compact block c stands for this list of transactions: prefilled ones are where they belong, and the i-th
      short id is that of the transaction in the i-th other slot. */
  ghost predicate Encodes(c: Compact, short: Tx -> ShortId, block: seq<Tx>) {
    var placed := Placed(c, |c.prefilled|);
    var free := Free(placed, Total(c));
    && Agrees(placed, block) && |free| == |c.shortIds|
    && forall i :: 0 <= i < |free| ==> free[i] < |block| && short(block[free[i]]) == c.shortIds[i]
  }

  /** The message has a header and not too few or too many transactions. */
  predicate InBounds(c: Compact): (ok: bool)
    ensures ok <==> !c.headerNull && 1 <= Total(c) <= 100_000
  {
    !c.headerNull && 0 < Total(c) <= MAX_TRANSACTIONS
  }

  /** Short ids tell these transactions apart. */
  ghost predicate Separates(short: Tx -> ShortId, a: seq<Tx>, b: seq<Tx>) {
    forall x, y :: x in a && y in b && short(x) == short(y) ==> x == y
  }

  /** Every short id is mapped to a slot, 16 bits wide, in which it is listed. */
  ghost predicate Mapped(c: Compact, free: seq<nat>, m: map<ShortId, nat>, n: nat)
    requires n <= |c.shortIds| && n <= |free|
  {
    && (forall i :: 0 <= i < n ==> c.shortIds[i] in m)
    && (forall id :: id in m ==> exists i :: 0 <= i < n && c.shortIds[i] == id && m[id] == free[i] % SLOT_LIMIT)
  }

  /** Everything available was prefilled, or comes from the candidates by way of its short id. */
  ghost predicate Sourced(avail: seq<Option<Tx>>, placed: seq<Option<Tx>>, m: map<ShortId, nat>, short: Tx -> ShortId,
                          cands: seq<Tx>)
    requires |avail| == |placed|
  {
    forall k :: 0 <= k < |avail| && avail[k].Some? ==>
      avail[k] == placed[k] || (avail[k].value in cands && short(avail[k].value) in m && m[short(avail[k].value)] == k)
  }

  /** If short ids tell block and candidates apart, what is available belongs to the block. */
  lemma SourcedAgrees(c: Compact, short: Tx -> ShortId, block: seq<Tx>, avail: seq<Option<Tx>>, m: map<ShortId, nat>,
                      cands: seq<Tx>)
    requires |avail| == Total(c) <= SLOT_LIMIT && Encodes(c, short, block) && Separates(short, block, cands)
    requires var placed := Placed(c, |c.prefilled|); var free := Free(placed, Total(c));
             Mapped(c, free, m, |c.shortIds|) && Sourced(avail, placed, m, short, cands)
    ensures Agrees(avail, block)
  {
    var placed := Placed(c, |c.prefilled|);
    var free := Free(placed, Total(c));
    hide Free, Placed, Position;
    forall k | 0 <= k < |block| && avail[k].Some? ensures avail[k].value == block[k] {
      var t := avail[k].value;
      if avail[k] != placed[k] {
        var i :| 0 <= i < |c.shortIds| && c.shortIds[i] == short(t) && m[short(t)] == free[i] % SLOT_LIMIT;
        assert free[i] == k;
      }
    }
  }

  // ---------------------------------------------------------------- nothing at hand is asked for

  /** No two candidates share a listed short id, no two ids a slot, and the pool lists nothing twice. */
  ghost predicate Clear(m: map<ShortId, nat>, short: Tx -> ShortId, pool: seq<Tx>, extra: seq<Tx>) {
    && (forall x, y :: x in pool + extra && y in pool + extra && short(x) == short(y) && short(x) in m ==> x == y)
    && (forall a, b :: a in m && b in m && m[a] == m[b] ==> a == b)
    && (forall i, j :: 0 <= i < j < |pool| ==> pool[i] != pool[j])
  }

  function Filled(have: seq<bool>): set<nat> {
    set k: nat | k < |have| && have[k]
  }

  /** The slots marked are those filled from candidates that were seen, and the counter counts them; other slots are
      as they were. */
  ghost predicate Tidy(avail: seq<Option<Tx>>, have: seq<bool>, count: int, placed: seq<Option<Tx>>,
                       m: map<ShortId, nat>, short: Tx -> ShortId, seen: seq<Tx>) {
    && |avail| == |have| == |placed| && count == |Filled(have)|
    && (forall k :: 0 <= k < |have| && have[k] ==>
          avail[k].Some? && avail[k].value in seen && short(avail[k].value) in m && m[short(avail[k].value)] == k)
    && (forall k :: 0 <= k < |avail| && k !in m.Values ==> avail[k] == placed[k])
  }

  /** Candidates seen are in their slots. */
  ghost predicate Reached(have: seq<bool>, m: map<ShortId, nat>, short: Tx -> ShortId, seen: seq<Tx>) {
    forall t :: t in seen && short(t) in m ==> m[short(t)] < |have| && have[m[short(t)]]
  }

  lemma TidyStart(placed: seq<Option<Tx>>, m: map<ShortId, nat>, short: Tx -> ShortId)
    ensures Tidy(placed, seq(|placed|, _ => false), 0, placed, m, short, [])
    ensures Reached(seq(|placed|, _ => false), m, short, [])
  {
    assert Filled(seq(|placed|, _ => false)) == {};
  }

  lemma TidySeen(avail: seq<Option<Tx>>, have: seq<bool>, count: int, placed: seq<Option<Tx>>,
                 m: map<ShortId, nat>, short: Tx -> ShortId, seen: seq<Tx>, all: seq<Tx>)
    requires Tidy(avail, have, count, placed, m, short, seen) && forall t :: t in seen ==> t in all
    ensures Tidy(avail, have, count, placed, m, short, all)
  {
    forall k | 0 <= k < |have| && have[k] ensures avail[k].Some? && avail[k].value in all {
      var x := avail[k].value;
      assert x in seen;
    }
  }

  /** A candidate takes its slot. */
  lemma TidyTake(avail: seq<Option<Tx>>, have: seq<bool>, count: int, placed: seq<Option<Tx>>,
                 m: map<ShortId, nat>, short: Tx -> ShortId, seen: seq<Tx>, t: Tx)
    requires Tidy(avail, have, count, placed, m, short, seen) && t in seen
    requires short(t) in m && m[short(t)] < |have| && !have[m[short(t)]]
    ensures var k := m[short(t)]; Tidy(avail[k := Some(t)], have[k := true], count + 1, placed, m, short, seen)
  {
    var k := m[short(t)];
    assert Filled(have[k := true]) == Filled(have) + {k};
  }

  lemma ReachedNext(have: seq<bool>, now: seq<bool>, m: map<ShortId, nat>, short: Tx -> ShortId, seen: seq<Tx>, t: Tx)
    requires Reached(have, m, short, seen) && |now| == |have| && forall k :: 0 <= k < |have| && have[k] ==> now[k]
    requires short(t) in m ==> m[short(t)] < |now| && now[m[short(t)]]
    ensures Reached(now, m, short, seen + [t])
  {
  }

  /** When the counter has reached the number of short ids, every slot is filled. */
  lemma ReachedAll(avail: seq<Option<Tx>>, have: seq<bool>, count: int, placed: seq<Option<Tx>>,
                   m: map<ShortId, nat>, short: Tx -> ShortId, seen: seq<Tx>, all: seq<Tx>)
    requires Tidy(avail, have, count, placed, m, short, seen) && count == |m|
    ensures Reached(have, m, short, all)
  {
    var values := set id | id in m.Keys :: m[id];
    ValuesAtMost(m.Keys, m);
    forall k | k in Filled(have) ensures k in values {
      var id := short(avail[k].value);
      assert id in m && m[id] == k;
    }
    SameSize(Filled(have), values);
    forall t | t in all && short(t) in m ensures m[short(t)] < |have| && have[m[short(t)]] {
      var id := short(t);
      assert m[id] in values;
      assert m[id] in Filled(have);
    }
  }

  lemma {:induction false} ValuesAtMost(ids: set<ShortId>, m: map<ShortId, nat>)
    requires ids <= m.Keys
    ensures |set id | id in ids :: m[id]| <= |ids|
    decreases |ids|
  {
    if ids == {} {
      assert (set id | id in ids :: m[id]) == {};
    } else {
      Sets.Inhabited(ids);
      var x :| x in ids;
      var rest := ids - {x};
      ValuesAtMost(rest, m);
      assert (set id | id in ids :: m[id]) == (set id | id in rest :: m[id]) + {m[x]};
    }
  }

  lemma SameSize(a: set<nat>, b: set<nat>)
    requires a <= b && |a| >= |b|
    ensures a == b
  {
    assert b == a + (b - a);
  }

  /** A second match is the same transaction again. */
  lemma SameMatch(avail: seq<Option<Tx>>, have: seq<bool>, count: int, placed: seq<Option<Tx>>, m: map<ShortId, nat>,
                  short: Tx -> ShortId, pool: seq<Tx>, extra: seq<Tx>, seen: seq<Tx>, t: Tx)
    requires Clear(m, short, pool, extra) && Tidy(avail, have, count, placed, m, short, seen)
    requires (forall x :: x in seen ==> x in pool + extra) && t in pool + extra
    requires short(t) in m && m[short(t)] < |have| && have[m[short(t)]]
    ensures avail[m[short(t)]] == Some(t) && t in seen
  {
    var x := avail[m[short(t)]].value;
    assert x in seen && m[short(x)] == m[short(t)];
  }

  /** All of the block's transactions at hand are in place. */
  ghost predicate Served(avail: seq<Option<Tx>>, block: seq<Tx>, cands: seq<Tx>) {
    |avail| == |block| && forall k :: 0 <= k < |block| && block[k] in cands ==> avail[k].Some?
  }

  // ---------------------------------------------------------------- what candidates do to a slot

  /** Candidate t is for slot k. */
  predicate For(m: map<ShortId, nat>, short: Tx -> ShortId, t: Tx, k: nat) {
    short(t) in m && m[short(t)] == k
  }

  /** Of the candidates seen, the first n from the pool, number f is the first for slot k, and all others for it are
      extra transactions with the same witness hash. */
  ghost predicate Sole(m: map<ShortId, nat>, short: Tx -> ShortId, wtxid: Tx -> int, seen: seq<Tx>, n: nat, k: nat,
                       f: nat) {
    && f < |seen| && For(m, short, seen[f], k) && (forall i :: 0 <= i < f ==> !For(m, short, seen[i], k))
    && forall i :: f < i < |seen| && For(m, short, seen[i], k) ==> i >= n && wtxid(seen[i]) == wtxid(seen[f])
  }

  /** Slot k is as it was if no candidate seen is for it; else it holds the sole one for it, or nothing. */
  ghost predicate Resolved(cell: Option<Tx>, has: bool, was: Option<Tx>, m: map<ShortId, nat>, short: Tx -> ShortId,
                           wtxid: Tx -> int, seen: seq<Tx>, n: nat, k: nat) {
    if forall i :: 0 <= i < |seen| ==> !For(m, short, seen[i], k) then !has && cell == was
    else
      && has && (cell.None? ==> forall f: nat :: !Sole(m, short, wtxid, seen, n, k, f))
      && (cell.Some? ==> exists f: nat :: f < |seen| && Sole(m, short, wtxid, seen, n, k, f) && seen[f] == cell.value)
  }

  ghost predicate AllResolved(avail: seq<Option<Tx>>, have: seq<bool>, placed: seq<Option<Tx>>, m: map<ShortId, nat>,
                              short: Tx -> ShortId, wtxid: Tx -> int, seen: seq<Tx>, n: nat) {
    && |avail| == |have| == |placed|
    && forall k :: 0 <= k < |avail| ==> Resolved(avail[k], have[k], placed[k], m, short, wtxid, seen, n, k)
  }

  /** The next candidate comes from the pool, or is an extra one. */
  predicate Onward(seen: seq<Tx>, n: nat, next: nat) {
    n <= |seen| && (next == n || (n == |seen| && next == n + 1))
  }

  lemma OnwardIs(seen: seq<Tx>, n: nat)
    requires n <= |seen|
    ensures Onward(seen, n, n) && Onward(seen, |seen|, |seen| + 1)
  {
  }

  lemma ForNext(m: map<ShortId, nat>, short: Tx -> ShortId, seen: seq<Tx>, t: Tx, k: nat)
    ensures (forall i :: 0 <= i < |seen + [t]| ==> !For(m, short, (seen + [t])[i], k)) <==>
            (forall i :: 0 <= i < |seen| ==> !For(m, short, seen[i], k)) && !For(m, short, t, k)
  {
    var all := seen + [t];
    assert all[|seen|] == t && forall i :: 0 <= i < |seen| ==> all[i] == seen[i];
  }

  lemma SoleNext(m: map<ShortId, nat>, short: Tx -> ShortId, wtxid: Tx -> int, seen: seq<Tx>, n: nat, next: nat, t: Tx,
                 k: nat, f: nat)
    requires Onward(seen, n, next)
    ensures Sole(m, short, wtxid, seen + [t], next, k, f) <==>
            if f < |seen| then
              && Sole(m, short, wtxid, seen, n, k, f)
              && (For(m, short, t, k) ==> next == n && wtxid(t) == wtxid(seen[f]))
            else f == |seen| && For(m, short, t, k) && forall i :: 0 <= i < |seen| ==> !For(m, short, seen[i], k)
  {
    var all := seen + [t];
    hide For;
    assert all[|seen|] == t && forall i :: 0 <= i < |seen| ==> all[i] == seen[i];
    if f < |seen| {
      assert Sole(m, short, wtxid, all, next, k, f) ==> Sole(m, short, wtxid, seen, n, k, f);
    }
  }

  /** What one candidate does to slot k. */
  lemma ResolvedNext(cell: Option<Tx>, has: bool, was: Option<Tx>, m: map<ShortId, nat>, short: Tx -> ShortId,
                     wtxid: Tx -> int, seen: seq<Tx>, n: nat, next: nat, t: Tx, k: nat)
    requires Resolved(cell, has, was, m, short, wtxid, seen, n, k) && Onward(seen, n, next)
    ensures var mine := For(m, short, t, k);
            var after := if !mine then cell
                         else if !has then Some(t)
                         else if cell.Some? && (next > n || wtxid(cell.value) != wtxid(t)) then None else cell;
            Resolved(after, has || mine, was, m, short, wtxid, seen + [t], next, k)
  {
    var all := seen + [t];
    hide For, Sole;
    ForNext(m, short, seen, t, k);
    assert all[|seen|] == t && forall i :: 0 <= i < |seen| ==> all[i] == seen[i];
    if has && cell.Some? {
      var f: nat :| f < |seen| && Sole(m, short, wtxid, seen, n, k, f) && seen[f] == cell.value;
      SoleNext(m, short, wtxid, seen, n, next, t, k, f);
    }
    if !has && For(m, short, t, k) {
      SoleNext(m, short, wtxid, seen, n, next, t, k, |seen|);
    }
    forall g: nat | Sole(m, short, wtxid, all, next, k, g)
      ensures has ==> cell.Some? && (For(m, short, t, k) ==> next == n && wtxid(t) == wtxid(cell.value))
    {
      SoleNext(m, short, wtxid, seen, n, next, t, k, g);
      if has && cell.Some? {
        var f: nat :| f < |seen| && Sole(m, short, wtxid, seen, n, k, f) && seen[f] == cell.value;
        SoleFirst(m, short, wtxid, seen, n, k, f, g);
      }
    }
  }

  lemma SourcedNext(avail: seq<Option<Tx>>, placed: seq<Option<Tx>>, m: map<ShortId, nat>, short: Tx -> ShortId,
                    cands: seq<Tx>, i: nat)
    requires |avail| == |placed| && Sourced(avail, placed, m, short, cands) && i < |cands|
    requires short(cands[i]) in m && m[short(cands[i])] < |avail|
    ensures var k := m[short(cands[i])];
            && Sourced(avail[k := Some(cands[i])], placed, m, short, cands)
            && Sourced(avail[k := None], placed, m, short, cands)
  {
    assert cands[i] in cands;
  }

  lemma SourcedMore(avail: seq<Option<Tx>>, placed: seq<Option<Tx>>, m: map<ShortId, nat>, short: Tx -> ShortId,
                    cands: seq<Tx>, more: seq<Tx>)
    requires |avail| == |placed|
    ensures Sourced(avail, placed, m, short, cands) ==> Sourced(avail, placed, m, short, cands + more)
    ensures Sourced(placed, placed, m, short, cands)
  {
  }

  /** The slots that hold a candidate. */
  function Held(avail: seq<Option<Tx>>, have: seq<bool>): set<nat> {
    set k: nat | k < |have| && k < |avail| && have[k] && avail[k].Some?
  }

  lemma HeldNext(avail: seq<Option<Tx>>, have: seq<bool>, k: nat, t: Tx)
    requires k < |avail| == |have|
    ensures !have[k] ==> |Held(avail[k := Some(t)], have[k := true])| == |Held(avail, have)| + 1
    ensures have[k] && avail[k].Some? ==> |Held(avail[k := None], have)| == |Held(avail, have)| - 1
  {
    if !have[k] {
      assert Held(avail[k := Some(t)], have[k := true]) == Held(avail, have) + {k};
    } else if avail[k].Some? {
      assert Held(avail[k := None], have) == Held(avail, have) - {k};
    }
  }

  lemma UnseenResolved(placed: seq<Option<Tx>>, m: map<ShortId, nat>, short: Tx -> ShortId, wtxid: Tx -> int)
    ensures AllResolved(placed, seq(|placed|, _ => false), placed, m, short, wtxid, [], 0)
    ensures Held(placed, seq(|placed|, _ => false)) == {}
  {
  }

  /** One more candidate changes the slot it is for. */
  lemma AllResolvedNext(avail: seq<Option<Tx>>, have: seq<bool>, placed: seq<Option<Tx>>, m: map<ShortId, nat>,
                        short: Tx -> ShortId, wtxid: Tx -> int, seen: seq<Tx>, n: nat, next: nat, t: Tx)
    requires AllResolved(avail, have, placed, m, short, wtxid, seen, n) && Onward(seen, n, next)
    requires short(t) in m ==> m[short(t)] < |avail|
    ensures |avail| == |have| == |placed|
    ensures var k := if short(t) in m then m[short(t)] else 0;
            var all := seen + [t];
            if short(t) !in m then AllResolved(avail, have, placed, m, short, wtxid, all, next)
            else if !have[k] then
              AllResolved(avail[k := Some(t)], have[k := true], placed, m, short, wtxid, all, next)
            else if avail[k].Some? && (next > n || wtxid(avail[k].value) != wtxid(t)) then
              AllResolved(avail[k := None], have, placed, m, short, wtxid, all, next)
            else AllResolved(avail, have, placed, m, short, wtxid, all, next)
  {
    hide Resolved;
    forall k: nat | k < |avail|
      ensures var after := if !For(m, short, t, k) then avail[k]
                           else if !have[k] then Some(t)
                           else if avail[k].Some? && (next > n || wtxid(avail[k].value) != wtxid(t)) then None
                           else avail[k];
              Resolved(after, have[k] || For(m, short, t, k), placed[k], m, short, wtxid, seen + [t], next, k)
    {
      ResolvedNext(avail[k], have[k], placed[k], m, short, wtxid, seen, n, next, t, k);
    }
  }

  /** There is at most one. */
  lemma SoleFirst(m: map<ShortId, nat>, short: Tx -> ShortId, wtxid: Tx -> int, seen: seq<Tx>, n: nat, k: nat, f: nat,
                  g: nat)
    requires Sole(m, short, wtxid, seen, n, k, f)
    ensures f < |seen| && (Sole(m, short, wtxid, seen, n, k, g) ==> f == g)
  {
    hide For;
  }

  // ---------------------------------------------------------------- the partially downloaded block

  class PartiallyDownloadedBlock {
    var headerNull: bool
    var txnAvailable: seq<Option<Tx>>
    var mempoolCount: int
    var extraCount: int

    constructor ()
      ensures headerNull && txnAvailable == [] && mempoolCount == 0 && extraCount == 0
    {
      headerNull, txnAvailable, mempoolCount, extraCount := true, [], 0, 0;
    }

    method PlacePrefilled(c: Compact, isNull: Tx -> bool) returns (ok: bool)
      requires txnAvailable == Placed(c, 0)
      modifies this`txnAvailable
      ensures ok <==> PrefilledOk(c, isNull, |c.prefilled|)
      ensures ok ==> txnAvailable == Placed(c, |c.prefilled|)
    {
      var last := -1;
      assert PrefilledOk(c, isNull, 0);
      hide PrefilledOk;
      for i := 0 to |c.prefilled|
        invariant PrefilledOk(c, isNull, i) && txnAvailable == Placed(c, i) && last == Position(c.prefilled, i)
      {
        PlacedFree(c, isNull, i);
        PrefilledNext(c, isNull, i);
        if isNull(c.prefilled[i].tx) {
          return false;
        }
        last := last + c.prefilled[i].index + 1;
        if last > MAX_INDEX {
          return false;
        }
        if last > |c.shortIds| + i {
          return false;
        }
        txnAvailable := txnAvailable[last := Some(c.prefilled[i].tx)];
      }
      ok := true;
    }

    /** The i-th short id goes to the i-th free slot. There is always one, but its distance from i may not fit
        the 16 bits of the offset: then the search goes round for ever. */
    method MapShortIds(c: Compact, ghost isNull: Tx -> bool, crowded: nat -> bool) returns (m: map<ShortId, nat>,
                       outcome: Mapping)
      requires PrefilledOk(c, isNull, |c.prefilled|) && txnAvailable == Placed(c, |c.prefilled|)
      ensures outcome == Endless <==> !OffsetsFit(c)
      ensures outcome == Crowded <==> OffsetsFit(c) && exists i :: 0 <= i < |c.shortIds| && crowded(i)
      ensures |Free(txnAvailable, Total(c))| == |c.shortIds|
      ensures outcome == Complete ==> Mapped(c, Free(txnAvailable, Total(c)), m, |c.shortIds|)
    {
      FreeStart(txnAvailable);
      hide Mapped, PrefilledOk, Placed, Free, Taken, OffsetsFit;
      SlotsTaken(c, isNull);
      ghost var free := Free(txnAvailable, Total(c));
      m := map[];
      var indexOffset := 0;
      MappedEmpty(c, free);
      for i := 0 to |c.shortIds|
        invariant 0 <= indexOffset < SLOT_LIMIT && i + indexOffset <= |txnAvailable|
        invariant |Free(txnAvailable, i + indexOffset)| == i
        invariant Mapped(c, free, m, i) && forall j :: 0 <= j < i ==> !crowded(j)
        invariant i > 0 ==> OffsetsFit(c)
        invariant i == 0 ==> indexOffset == 0
      {
        var next := NextOffset(i, indexOffset);
        if next.None? {
          return m, Endless;
        }
        indexOffset := next.value;
        FreeAt(txnAvailable, i + indexOffset);
        MappedNext(c, free, m, i);
        m := m[c.shortIds[i] := (i + indexOffset) % SLOT_LIMIT];
        if crowded(i) {
          return m, Crowded;  // too many in one bucket of the map
        }
      }
      outcome := Complete;
    }

    /** The inner loop over 16-bit offsets. After 65536 turns every offset has been tried, and the loop does not end. */
    method NextOffset(i: nat, from: nat) returns (next: Option<nat>)
      requires from < SLOT_LIMIT && i + from <= |txnAvailable|
      requires |Free(txnAvailable, i + from)| == i < |Free(txnAvailable, |txnAvailable|)|
      requires Taken(txnAvailable) <= SLOT_LIMIT
      requires Taken(txnAvailable) == SLOT_LIMIT ==>
                 i == from == 0 && forall k :: 0 <= k < SLOT_LIMIT ==> txnAvailable[k].Some?
      ensures next.None? <==> Taken(txnAvailable) == SLOT_LIMIT
      ensures next.None? ==> forall n: nat :: txnAvailable[i + OffsetAfter(from, n)].Some?
      ensures next.Some? ==> var p := next.value;
                && from <= p < SLOT_LIMIT && i + p < |txnAvailable| && txnAvailable[i + p] == None
                && |Free(txnAvailable, i + p)| == i
    {
      ghost var fits := Taken(txnAvailable) < SLOT_LIMIT;
      var p, turns := from, 0;
      NextFree(txnAvailable, i + p);
      hide Free, Taken, OffsetAfter;
      while turns < SLOT_LIMIT && txnAvailable[i + p].Some?
        invariant turns <= SLOT_LIMIT && 0 <= p < SLOT_LIMIT && i + p < |txnAvailable|
        invariant fits ==> p == from + turns && |Free(txnAvailable, i + p)| == i
        decreases SLOT_LIMIT - turns
      {
        if fits {
          SkipTaken(txnAvailable, i, p);
        }
        p, turns := Increment(p), turns + 1;
      }
      if turns == SLOT_LIMIT {
        AlwaysTaken(txnAvailable);
        return None;
      }
      next := Some(p);
    }

    /** Slots found for transactions of the pool; a second match empties the slot. */
    method TakeFromPool(m: map<ShortId, nat>, pool: seq<Tx>, short: Tx -> ShortId, ghost placed: seq<Option<Tx>>,
                        ghost extra: seq<Tx>, ghost wtxid: Tx -> int) returns (have: seq<bool>, ghost seen: nat)
      requires |txnAvailable| == |placed| && forall id :: id in m ==> m[id] < |txnAvailable|
      requires txnAvailable == placed
      modifies this`txnAvailable, this`mempoolCount
      ensures |have| == |txnAvailable| == |placed| && Sourced(txnAvailable, placed, m, short, pool)
      ensures seen <= |pool| && (seen == |pool| || mempoolCount == |m|)
      ensures mempoolCount == old(mempoolCount) + |Held(txnAvailable, have)|
      ensures AllResolved(txnAvailable, have, placed, m, short, wtxid, pool[..seen], seen)
      ensures Clear(m, short, pool, extra) && old(mempoolCount) == 0 ==>
                Tidy(txnAvailable, have, mempoolCount, placed, m, short, pool) && Reached(have, m, short, pool)
    {
      hide *;
      have := seq(|txnAvailable|, _ => false);
      ghost var clear := Clear(m, short, pool, extra) && mempoolCount == 0;
      TidyStart(placed, m, short);
      assert pool[..0] == [] && pool[..|pool|] == pool;
      UnseenResolved(placed, m, short, wtxid);
      SourcedMore(placed, placed, m, short, pool, []);
      for i := 0 to |pool|
        invariant |have| == |txnAvailable| == |placed| && Sourced(txnAvailable, placed, m, short, pool)
        invariant AllResolved(txnAvailable, have, placed, m, short, wtxid, pool[..i], i)
        invariant mempoolCount == old(mempoolCount) + |Held(txnAvailable, have)|
        invariant clear ==> Tidy(txnAvailable, have, mempoolCount, placed, m, short, pool[..i])
        invariant clear ==> Reached(have, m, short, pool[..i])
      {
        var id := short(pool[i]);
        assert id in m ==> m[id] < |txnAvailable|;
        if clear {
          PoolStep(txnAvailable, have, mempoolCount, placed, m, short, pool, extra, i);
        }
        assert pool[..i + 1] == pool[..i] + [pool[i]];
        AllResolvedNext(txnAvailable, have, placed, m, short, wtxid, pool[..i], i, i + 1, pool[i])
          by { OnwardIs(pool[..i], i); }
        seen := i + 1;
        if id in m {
          var k := m[id];
          HeldNext(txnAvailable, have, k, pool[i]);
          SourcedNext(txnAvailable, placed, m, short, pool, i);
          if !have[k] {
            txnAvailable := txnAvailable[k := Some(pool[i])];
            have := have[k := true];
            mempoolCount := mempoolCount + 1;
          } else if txnAvailable[k].Some? {
            txnAvailable := txnAvailable[k := None];
            mempoolCount := mempoolCount - 1;
          }
        }
        if mempoolCount == |m| {
          if clear {
            ReachedAll(txnAvailable, have, mempoolCount, placed, m, short, pool[..i + 1], pool);
            TidySeen(txnAvailable, have, mempoolCount, placed, m, short, pool[..i + 1], pool);
          }
          return;
        }
      }
      seen := |pool|;
    }

    /** The same with the extra transactions, where a second match with the same witness hash changes nothing. */
    method TakeFromExtra(m: map<ShortId, nat>, extra: seq<Tx>, short: Tx -> ShortId, wtxid: Tx -> int,
                         haveTxn: seq<bool>, ghost placed: seq<Option<Tx>>, ghost pool: seq<Tx>,
                         ghost fromPool: seq<Tx>) returns (have: seq<bool>, ghost seen: nat)
      requires |haveTxn| == |txnAvailable| == |placed| && forall id :: id in m ==> m[id] < |txnAvailable|
      requires Sourced(txnAvailable, placed, m, short, pool)
      requires AllResolved(txnAvailable, haveTxn, placed, m, short, wtxid, fromPool, |fromPool|)
      modifies this`txnAvailable, this`mempoolCount, this`extraCount
      ensures |have| == |txnAvailable| == |placed| && Sourced(txnAvailable, placed, m, short, pool + extra)
      ensures seen <= |extra| && (seen == |extra| || mempoolCount == |m|)
      ensures extraCount - old(extraCount) == mempoolCount - old(mempoolCount)
      ensures mempoolCount == old(mempoolCount) + |Held(txnAvailable, have)| - |Held(old(txnAvailable), haveTxn)|
      ensures AllResolved(txnAvailable, have, placed, m, short, wtxid, fromPool + extra[..seen], |fromPool|)
      ensures Clear(m, short, pool, extra) && old(Tidy(txnAvailable, haveTxn, mempoolCount, placed, m, short, pool))
              && Reached(haveTxn, m, short, pool) ==>
                && Tidy(txnAvailable, have, mempoolCount, placed, m, short, pool + extra)
                && Reached(have, m, short, pool + extra)
    {
      hide *;
      have := haveTxn;
      ghost var clear := Clear(m, short, pool, extra) && Tidy(txnAvailable, have, mempoolCount, placed, m, short, pool)
                         && Reached(haveTxn, m, short, pool);
      assert pool + extra[..0] == pool && pool + extra[..|extra|] == pool + extra;
      assert fromPool + extra[..0] == fromPool && fromPool + extra[..|extra|] == fromPool + extra;
      SourcedMore(txnAvailable, placed, m, short, pool, extra);
      for i := 0 to |extra|
        invariant |have| == |txnAvailable| == |placed| && Sourced(txnAvailable, placed, m, short, pool + extra)
        invariant extraCount - old(extraCount) == mempoolCount - old(mempoolCount)
        invariant mempoolCount == old(mempoolCount) + |Held(txnAvailable, have)| - |Held(old(txnAvailable), haveTxn)|
        invariant AllResolved(txnAvailable, have, placed, m, short, wtxid, fromPool + extra[..i], |fromPool|)
        invariant clear ==> Tidy(txnAvailable, have, mempoolCount, placed, m, short, pool + extra[..i])
                            && Reached(have, m, short, pool + extra[..i])
      {
        var id := short(extra[i]);
        assert id in m ==> m[id] < |txnAvailable|;
        if clear {
          ExtraStep(txnAvailable, have, mempoolCount, placed, m, short, pool, extra, i);
        }
        assert fromPool + extra[..i + 1] == fromPool + extra[..i] + [extra[i]];
        AllResolvedNext(txnAvailable, have, placed, m, short, wtxid, fromPool + extra[..i], |fromPool|, |fromPool|,
                        extra[i])
          by { OnwardIs(fromPool + extra[..i], |fromPool|); }
        seen := i + 1;
        if id in m {
          var k := m[id];
          HeldNext(txnAvailable, have, k, extra[i]);
          assert (pool + extra)[|pool| + i] == extra[i];
          SourcedNext(txnAvailable, placed, m, short, pool + extra, |pool| + i);
          if !have[k] {
            txnAvailable := txnAvailable[k := Some(extra[i])];
            have := have[k := true];
            mempoolCount, extraCount := mempoolCount + 1, extraCount + 1;
          } else if txnAvailable[k].Some? && wtxid(txnAvailable[k].value) != wtxid(extra[i]) {
            txnAvailable := txnAvailable[k := None];
            mempoolCount, extraCount := mempoolCount - 1, extraCount - 1;
          }
        }
        if mempoolCount == |m| {
          if clear {
            ReachedAll(txnAvailable, have, mempoolCount, placed, m, short, pool + extra[..i + 1], pool + extra);
            TidySeen(txnAvailable, have, mempoolCount, placed, m, short, pool + extra[..i + 1], pool + extra);
          }
          return;
        }
      }
      seen := |extra|;
    }

    /** Start a reconstruction. Whatever block the message stands for, if short ids tell its transactions from
        those at hand, then all that is filled in belongs to it. */
    method InitData(c: Compact, pool: seq<Tx>, extra: seq<Tx>, short: Tx -> ShortId, wtxid: Tx -> int,
                    isNull: Tx -> bool, crowded: nat -> bool)
      returns (status: ReadStatus, ghost m: map<ShortId, nat>, ghost have: seq<bool>, ghost fromPool: nat,
               ghost fromExtra: nat)
      modifies this
      ensures var unused := old(headerNull) && old(txnAvailable) == [];
              && (status == Invalid <==> !InBounds(c) || (unused && !PrefilledOk(c, isNull, |c.prefilled|)))
              && (status == NoReturn <==>
                    InBounds(c) && unused && PrefilledOk(c, isNull, |c.prefilled|) && !OffsetsFit(c))
              && (status == Ok <==> InBounds(c) && unused && PrefilledOk(c, isNull, |c.prefilled|) && OffsetsFit(c)
                                    && (forall i :: 0 <= i < |c.shortIds| ==> !crowded(i)) && Different(c.shortIds))
      ensures status == Ok ==> !headerNull && |txnAvailable| == Total(c)
      ensures status == Ok ==>
                var placed := Placed(c, |c.prefilled|);
                && |Free(placed, Total(c))| == |c.shortIds| && Mapped(c, Free(placed, Total(c)), m, |c.shortIds|)
                && fromPool <= |pool| && fromExtra <= |extra|
                && (fromExtra == |extra| || mempoolCount == |m|)
                && (old(mempoolCount) == 0 ==> mempoolCount == |Held(txnAvailable, have)|)
                && AllResolved(txnAvailable, have, placed, m, short, wtxid, pool[..fromPool] + extra[..fromExtra],
                               fromPool)
      ensures forall block :: status == Ok && Total(c) <= SLOT_LIMIT && Encodes(c, short, block) &&
                Separates(short, block, pool + extra)
                ==> Agrees(txnAvailable, block)
                    && (old(mempoolCount) == 0 && Different(pool) ==> Served(txnAvailable, block, pool + extra))
    {
      m, have, fromPool, fromExtra := map[], [], 0, 0;
      if c.headerNull || (c.shortIds == [] && c.prefilled == []) {
        return Invalid, m, have, 0, 0;
      }
      if |c.shortIds| + |c.prefilled| > MAX_TRANSACTIONS {
        return Invalid, m, have, 0, 0;
      }
      if !headerNull || txnAvailable != [] {
        return Failed, m, have, 0, 0;
      }
      hide Mapped, Encodes, Separates, Agrees, Served, AllResolved, Held, Different, OffsetsFit, PrefilledOk, Free;
      headerNull := false;
      txnAvailable := seq(Total(c), _ => None);
      var ok := PlacePrefilled(c, isNull);
      if !ok {
        return Invalid, m, have, 0, 0;
      }
      PlacedFree(c, isNull, |c.prefilled|);
      ghost var placed := txnAvailable;
      var ids, outcome := MapShortIds(c, isNull, crowded);
      m := ids;
      if outcome == Endless {
        return NoReturn, m, have, 0, 0;
      }
      if outcome == Crowded {
        return Failed, m, have, 0, 0;
      }
      MappedDistinct(c, Free(placed, Total(c)), m);
      if |ids| != |c.shortIds| {
        return Failed, m, have, 0, 0;
      }
      MappedInRange(c, Free(placed, Total(c)), m, placed);
      have, fromPool, fromExtra := TakeCandidates(c, ids, pool, extra, short, wtxid);
      status := Ok;
    }

    /** What the pool and the extra transactions have to offer. */
    method TakeCandidates(ghost c: Compact, m: map<ShortId, nat>, pool: seq<Tx>, extra: seq<Tx>, short: Tx -> ShortId,
                          wtxid: Tx -> int) returns (ghost have: seq<bool>, ghost fromPool: nat, ghost fromExtra: nat)
      requires txnAvailable == Placed(c, |c.prefilled|) && forall id :: id in m ==> m[id] < |txnAvailable|
      requires |Free(txnAvailable, Total(c))| == |c.shortIds| && Different(c.shortIds)
      requires Mapped(c, Free(txnAvailable, Total(c)), m, |c.shortIds|)
      modifies this`txnAvailable, this`mempoolCount, this`extraCount
      ensures |txnAvailable| == Total(c)
      ensures fromPool <= |pool| && fromExtra <= |extra| && (fromExtra == |extra| || mempoolCount == |m|)
      ensures old(mempoolCount) == 0 ==> mempoolCount == |Held(txnAvailable, have)|
      ensures AllResolved(txnAvailable, have, Placed(c, |c.prefilled|), m, short, wtxid,
                          pool[..fromPool] + extra[..fromExtra], fromPool)
      ensures forall block ::
                Total(c) <= SLOT_LIMIT && Encodes(c, short, block) && Separates(short, block, pool + extra)
                ==> Agrees(txnAvailable, block)
                    && (old(mempoolCount) == 0 && Different(pool) ==> Served(txnAvailable, block, pool + extra))
    {
      hide *;
      ghost var placed := txnAvailable;
      var haveTxn;
      haveTxn, fromPool := TakeFromPool(m, pool, short, placed, extra, wtxid);
      haveTxn, fromExtra := TakeFromExtra(m, extra, short, wtxid, haveTxn, placed, pool, pool[..fromPool]);
      have := haveTxn;
      forall block | Total(c) <= SLOT_LIMIT && Encodes(c, short, block) && Separates(short, block, pool + extra)
        ensures Agrees(txnAvailable, block)
        ensures old(mempoolCount) == 0 && Different(pool) ==> Served(txnAvailable, block, pool + extra)
      {
        SourcedAgrees(c, short, block, txnAvailable, m, pool + extra);
        if old(mempoolCount) == 0 && Different(pool) {
          EncodedIsClear(c, short, block, m, pool, extra);
          TidyServes(c, short, block, txnAvailable, have, mempoolCount, m, pool + extra);
        }
      }
    }

    /** Complete the block. The object cannot be used again; CheckBlock is `check`. */
    method FillBlock(missing: seq<Tx>, check: seq<Tx> -> ReadStatus) returns (status: ReadStatus, vtx: seq<Tx>)
      modifies this
      ensures old(headerNull) ==> status == Invalid && headerNull && txnAvailable == old(txnAvailable)
      ensures !old(headerNull) ==>
                match Fill(old(txnAvailable), missing)
                case None =>
                  && status == Invalid && !headerNull
                  && exists k :: RanShort(old(txnAvailable), missing, k) &&
                                 txnAvailable == MovedOut(old(txnAvailable), k)
                case Some(p) =>
                  vtx == p.0 && headerNull && txnAvailable == [] && status == if p.1 == [] then check(vtx) else Invalid
    {
      vtx := [];
      if headerNull {
        return Invalid, vtx;
      }
      ghost var avail := txnAvailable;
      var offset := 0;
      FillingStart(avail, missing);
      hide Fill, MovedOut, Filling, RanShort;
      for i := 0 to |txnAvailable|
        invariant 0 <= offset <= |missing| && |txnAvailable| == |avail| && !headerNull
        invariant txnAvailable == MovedOut(avail, i) && Filling(avail, missing, i, offset, vtx)
      {
        FillingNext(avail, missing, i, offset, vtx);
        MovedNext(avail, i);
        if txnAvailable[i].None? {
          if |missing| <= offset {
            return Invalid, vtx;
          }
          vtx := vtx + [missing[offset]];
          offset := offset + 1;
        } else {
          vtx := vtx + [txnAvailable[i].value];
          txnAvailable := txnAvailable[i := None];  // moved out
        }
      }
      FillingEnd(avail, missing, offset, vtx);
      headerNull, txnAvailable := true, [];
      if |missing| != offset {
        return Invalid, vtx;
      }
      status := check(vtx);
    }

    predicate IsTxAvailable(k: nat)
      requires headerNull || k < |txnAvailable|
      reads this
    {
      !headerNull && txnAvailable[k].Some?
    }
  }

  /** No transaction is listed twice. */
  ghost predicate Different(s: seq<Tx>) {
    forall i, j :: 0 <= i < j < |s| ==> s[i] != s[j]
  }

  /** One turn of the loop over the pool. */
  lemma PoolStep(avail: seq<Option<Tx>>, have: seq<bool>, count: int, placed: seq<Option<Tx>>, m: map<ShortId, nat>,
                 short: Tx -> ShortId, pool: seq<Tx>, extra: seq<Tx>, i: nat)
    requires Clear(m, short, pool, extra) && i < |pool| && |have| == |avail|
    requires short(pool[i]) in m ==> m[short(pool[i])] < |avail|
    requires Tidy(avail, have, count, placed, m, short, pool[..i]) && Reached(have, m, short, pool[..i])
    ensures short(pool[i]) in m ==> !have[m[short(pool[i])]]
    ensures var t := pool[i];
            if short(t) in m then
              var k := m[short(t)];
              Tidy(avail[k := Some(t)], have[k := true], count + 1, placed, m, short, pool[..i + 1])
              && Reached(have[k := true], m, short, pool[..i + 1])
            else Tidy(avail, have, count, placed, m, short, pool[..i + 1]) && Reached(have, m, short, pool[..i + 1])
  {
    var t := pool[i];
    assert pool[..i + 1] == pool[..i] + [t];
    if short(t) in m && have[m[short(t)]] {
      SameMatch(avail, have, count, placed, m, short, pool, extra, pool[..i], t);
    }
    TidySeen(avail, have, count, placed, m, short, pool[..i], pool[..i + 1]);
    hide Tidy, Reached;
    if short(t) in m {
      var k := m[short(t)];
      TidyTake(avail, have, count, placed, m, short, pool[..i + 1], t);
      ReachedNext(have, have[k := true], m, short, pool[..i], t);
    } else {
      ReachedNext(have, have, m, short, pool[..i], t);
    }
  }

  /** One turn of the loop over the extra transactions. */
  lemma ExtraStep(avail: seq<Option<Tx>>, have: seq<bool>, count: int, placed: seq<Option<Tx>>, m: map<ShortId, nat>,
                  short: Tx -> ShortId, pool: seq<Tx>, extra: seq<Tx>, i: nat)
    requires Clear(m, short, pool, extra) && i < |extra| && |have| == |avail|
    requires short(extra[i]) in m ==> m[short(extra[i])] < |avail|
    requires Tidy(avail, have, count, placed, m, short, pool + extra[..i]) && Reached(have, m, short, pool + extra[..i])
    ensures var t := extra[i];
            if short(t) in m && !have[m[short(t)]] then
              var k := m[short(t)];
              Tidy(avail[k := Some(t)], have[k := true], count + 1, placed, m, short, pool + extra[..i + 1])
              && Reached(have[k := true], m, short, pool + extra[..i + 1])
            else
              && (short(t) in m ==> avail[m[short(t)]] == Some(t))
              && Tidy(avail, have, count, placed, m, short, pool + extra[..i + 1])
              && Reached(have, m, short, pool + extra[..i + 1])
  {
    var t, seen := extra[i], pool + extra[..i];
    assert pool + extra[..i + 1] == seen + [t];
    if short(t) in m && have[m[short(t)]] {
      SameMatch(avail, have, count, placed, m, short, pool, extra, seen, t);
    }
    TidySeen(avail, have, count, placed, m, short, seen, seen + [t]);
    hide Tidy, Reached;
    if short(t) in m && !have[m[short(t)]] {
      var k := m[short(t)];
      TidyTake(avail, have, count, placed, m, short, seen + [t], t);
      ReachedNext(have, have[k := true], m, short, seen, t);
    } else {
      ReachedNext(have, have, m, short, seen, t);
    }
  }

  /** A listed short id belongs to the block's transaction in its slot. */
  lemma ListedAt(c: Compact, short: Tx -> ShortId, block: seq<Tx>, m: map<ShortId, nat>, id: ShortId)
    requires Total(c) <= SLOT_LIMIT && Encodes(c, short, block)
    requires Mapped(c, Free(Placed(c, |c.prefilled|), Total(c)), m, |c.shortIds|)
    ensures id in m ==> m[id] < |block| && short(block[m[id]]) == id
  {
    hide *;
    var free := Free(Placed(c, |c.prefilled|), Total(c));
    if id in m {
      EncodedAt(c, short, block);
      var i := MappedAt(c, free, m, id);
      CutSlot(free[i]);
    }
  }

  lemma EncodedAt(c: Compact, short: Tx -> ShortId, block: seq<Tx>)
    requires Encodes(c, short, block)
    ensures var free := Free(Placed(c, |c.prefilled|), Total(c));
            && |free| == |c.shortIds| && |block| == Total(c)
            && forall i :: 0 <= i < |free| ==> free[i] < |block| && short(block[free[i]]) == c.shortIds[i]
  {
    hide Free, Placed;
  }

  lemma MappedAt(c: Compact, free: seq<nat>, m: map<ShortId, nat>, id: ShortId) returns (i: nat)
    requires |free| == |c.shortIds| && Mapped(c, free, m, |c.shortIds|) && id in m
    ensures i < |free| && c.shortIds[i] == id && m[id] == free[i] % SLOT_LIMIT
  {
    i :| i < |free| && c.shortIds[i] == id && m[id] == free[i] % SLOT_LIMIT;
  }

  lemma CutSlot(k: nat)
    ensures k < SLOT_LIMIT ==> k % SLOT_LIMIT == k
  {
  }

  /** If the message stands for a block that short ids tell from the candidates, no candidates clash. */
  lemma EncodedIsClear(c: Compact, short: Tx -> ShortId, block: seq<Tx>, m: map<ShortId, nat>, pool: seq<Tx>,
                       extra: seq<Tx>)
    requires Total(c) <= SLOT_LIMIT && Encodes(c, short, block) && Separates(short, block, pool + extra)
    requires Different(pool)
    requires Mapped(c, Free(Placed(c, |c.prefilled|), Total(c)), m, |c.shortIds|)
    ensures Clear(m, short, pool, extra)
  {
    hide Encodes, Mapped, Free, Placed;
    forall x, y | x in pool + extra && y in pool + extra && short(x) == short(y) && short(x) in m ensures x == y {
      ListedAt(c, short, block, m, short(x));
      var t := block[m[short(x)]];
      assert t in block && short(t) == short(x) == short(y);
    }
    forall a, b | a in m && b in m && m[a] == m[b] ensures a == b {
      ListedAt(c, short, block, m, a);
      ListedAt(c, short, block, m, b);
    }
  }

  lemma TidyServes(c: Compact, short: Tx -> ShortId, block: seq<Tx>, avail: seq<Option<Tx>>, have: seq<bool>,
                   count: int,
                   m: map<ShortId, nat>, cands: seq<Tx>)
    requires |avail| == Total(c) <= SLOT_LIMIT && Encodes(c, short, block) && Different(c.shortIds)
    requires var placed := Placed(c, |c.prefilled|);
             && Mapped(c, Free(placed, Total(c)), m, |c.shortIds|)
             && Tidy(avail, have, count, placed, m, short, cands) && Reached(have, m, short, cands)
    ensures Served(avail, block, cands)
  {
    var placed := Placed(c, |c.prefilled|);
    forall k | 0 <= k < |block| && block[k] in cands ensures avail[k].Some? {
      if placed[k] == None {
        var i := FreeHas(placed, Total(c), k);
        MappedTo(c, placed, m, i);
        var t := block[k];
        assert t in cands && short(t) == c.shortIds[i] && short(t) in m;
        assert have[m[short(t)]];
      } else {
        NotMapped(c, placed, m, k);
      }
    }
  }

  lemma MappedTo(c: Compact, placed: seq<Option<Tx>>, m: map<ShortId, nat>, i: nat)
    requires |placed| == Total(c) <= SLOT_LIMIT && |Free(placed, Total(c))| == |c.shortIds| && Different(c.shortIds)
    requires Mapped(c, Free(placed, Total(c)), m, |c.shortIds|) && i < |c.shortIds|
    ensures c.shortIds[i] in m && m[c.shortIds[i]] == Free(placed, Total(c))[i]
  {
    FreeAreFree(placed, Total(c), i);
    var free, id := Free(placed, Total(c)), c.shortIds[i];
    var j :| 0 <= j < |c.shortIds| && c.shortIds[j] == id && m[id] == free[j] % SLOT_LIMIT;
    assert j == i;
  }

  lemma NotMapped(c: Compact, placed: seq<Option<Tx>>, m: map<ShortId, nat>, k: nat)
    requires |placed| == Total(c) <= SLOT_LIMIT && |Free(placed, Total(c))| == |c.shortIds| && k < |placed|
    requires placed[k].Some?
    requires Mapped(c, Free(placed, Total(c)), m, |c.shortIds|)
    ensures k !in m.Values
  {
    forall id | id in m ensures m[id] != k {
      var j :| 0 <= j < |c.shortIds| && c.shortIds[j] == id && m[id] == Free(placed, Total(c))[j] % SLOT_LIMIT;
      FreeAreFree(placed, Total(c), j);
    }
  }

  function Prepend(a: seq<Tx>, r: Option<(seq<Tx>, seq<Tx>)>): Option<(seq<Tx>, seq<Tx>)> {
    match r
    case None => None
    case Some(p) => Some((a + p.0, p.1))
  }

  lemma PrependNothing(r: Option<(seq<Tx>, seq<Tx>)>)
    ensures Prepend([], r) == r
  {
    if r.Some? {
      assert [] + r.value.0 == r.value.0;
    }
  }

  /** The loop of FillBlock has filled the first i slots with vtx, `offset` of them from the missing ones. */
  ghost predicate Filling(avail: seq<Option<Tx>>, missing: seq<Tx>, i: nat, offset: nat, vtx: seq<Tx>) {
    && i <= |avail| && offset <= |missing| && |Free(avail, i)| == offset
    && Prepend(vtx, Fill(avail[i..], missing[offset..])) == Fill(avail, missing)
  }

  lemma FillingStart(avail: seq<Option<Tx>>, missing: seq<Tx>)
    ensures Filling(avail, missing, 0, 0, []) && MovedOut(avail, 0) == avail
  {
    hide Fill;
    assert avail[0..] == avail && missing[0..] == missing;
    PrependNothing(Fill(avail, missing));
  }

  lemma FillingNext(avail: seq<Option<Tx>>, missing: seq<Tx>, i: nat, offset: nat, vtx: seq<Tx>)
    requires Filling(avail, missing, i, offset, vtx) && i < |avail|
    ensures avail[i].Some? ==> Filling(avail, missing, i + 1, offset, vtx + [avail[i].value])
    ensures avail[i].None? && offset < |missing| ==> Filling(avail, missing, i + 1, offset + 1, vtx + [missing[offset]])
    ensures avail[i].None? && offset == |missing| ==> Fill(avail, missing) == None && RanShort(avail, missing, i)
  {
    FillNext(avail, missing, i, offset, vtx);
    MovedNext(avail, i);
    hide Fill, MovedOut, Prepend, Free;
  }

  lemma FillingEnd(avail: seq<Option<Tx>>, missing: seq<Tx>, offset: nat, vtx: seq<Tx>)
    requires Filling(avail, missing, |avail|, offset, vtx)
    ensures Fill(avail, missing) == Some((vtx, missing[offset..]))
  {
    assert vtx + [] == vtx;
  }

  lemma FillNext(avail: seq<Option<Tx>>, missing: seq<Tx>, i: nat, offset: nat, vtx: seq<Tx>)
    requires i < |avail| && offset <= |missing|
    ensures Prepend(vtx, Fill(avail[i..], missing[offset..])) ==
      if avail[i].Some? then Prepend(vtx + [avail[i].value], Fill(avail[i + 1..], missing[offset..]))
      else if offset < |missing| then Prepend(vtx + [missing[offset]], Fill(avail[i + 1..], missing[offset + 1..]))
      else None
  {
    assert avail[i..][1..] == avail[i + 1..];
    if avail[i].Some? {
      PrependTwice(vtx, avail[i].value, Fill(avail[i + 1..], missing[offset..]));
    } else if offset < |missing| {
      assert missing[offset..][1..] == missing[offset + 1..];
      PrependTwice(vtx, missing[offset], Fill(avail[i + 1..], missing[offset + 1..]));
    }
  }

  lemma PrependTwice(a: seq<Tx>, t: Tx, r: Option<(seq<Tx>, seq<Tx>)>)
    ensures Prepend(a, Prepend([t], r)) == Prepend(a + [t], r)
  {
    if r.Some? {
      assert a + ([t] + r.value.0) == a + [t] + r.value.0;
    }
  }

  lemma MappedInRange(c: Compact, free: seq<nat>, m: map<ShortId, nat>, placed: seq<Option<Tx>>)
    requires |placed| == Total(c) && free == Free(placed, Total(c)) && |free| == |c.shortIds|
    requires Mapped(c, free, m, |c.shortIds|)
    ensures forall id :: id in m ==> m[id] < |placed|
  {
    forall id | id in m ensures m[id] < |placed| {
      var i :| 0 <= i < |c.shortIds| && c.shortIds[i] == id && m[id] == free[i] % SLOT_LIMIT;
      FreeAreFree(placed, Total(c), i);
    }
  }

  /** The map is as large as the list iff no short id is there twice. */
  lemma MappedDistinct(c: Compact, free: seq<nat>, m: map<ShortId, nat>)
    requires |free| == |c.shortIds| && Mapped(c, free, m, |c.shortIds|)
    ensures |m| == |c.shortIds| <==> Different(c.shortIds)
  {
    var ids := c.shortIds;
    assert m.Keys == set x | x in ids by {
      forall x ensures x in m <==> x in ids {
        if x in ids {
          var i :| 0 <= i < |ids| && ids[i] == x;
        }
      }
    }
    assert |m.Keys| == |m|;
    AllDifferent(ids);
  }

  lemma {:induction false} AllDifferent(s: seq<int>)
    ensures |set x | x in s| <= |s|
    ensures |set x | x in s| == |s| <==> Different(s)
  {
    if s != [] {
      var n := |s| - 1;
      var a, b := set x | x in s[..n], set x | x in s;
      AllDifferent(s[..n]);
      assert s == s[..n] + [s[n]];
      assert b == a + {s[n]};
      if s[n] in a {
        assert b == a;
        var i :| 0 <= i < n && s[i] == s[n];
      } else {
        assert forall i :: 0 <= i < n ==> s[i] in a;
      }
    }
  }

  lemma NextFree(avail: seq<Option<Tx>>, p: nat)
    requires p <= |avail| && |Free(avail, p)| < |Free(avail, |avail|)|
    ensures p < |avail| && |Free(avail, p + 1)| == |Free(avail, p)| + if avail[p] == None then 1 else 0
  {
  }

  lemma MappedEmpty(c: Compact, free: seq<nat>)
    ensures Mapped(c, free, map[], 0)
  {
  }

  lemma MappedNext(c: Compact, free: seq<nat>, m: map<ShortId, nat>, i: nat)
    requires i < |c.shortIds| && i < |free| && Mapped(c, free, m, i)
    ensures Mapped(c, free, m[c.shortIds[i] := free[i] % SLOT_LIMIT], i + 1)
  {
    var n := m[c.shortIds[i] := free[i] % SLOT_LIMIT];
    forall id | id in n ensures exists j :: 0 <= j < i + 1 && c.shortIds[j] == id && n[id] == free[j] % SLOT_LIMIT {
      if id != c.shortIds[i] {
        var j :| 0 <= j < i && c.shortIds[j] == id && m[id] == free[j] % SLOT_LIMIT;
      }
    }
  }

  // ---------------------------------------------------------------- the whole exchange

  /** The sender's form of a block: the first transaction prefilled, short ids for the others. */
  function Announce(block: seq<Tx>, short: Tx -> ShortId): Compact
    requires block != []
  {
    Compact(false, seq(|block| - 1, i requires 0 <= i < |block| - 1 => short(block[i + 1])), [Prefilled(0, block[0])])
  }

  /** It stands for the block. */
  lemma AnnounceEncodes(block: seq<Tx>, short: Tx -> ShortId)
    requires block != []
    ensures Encodes(Announce(block, short), short, block)
  {
    var c := Announce(block, short);
    var none: seq<Option<Tx>> := Placed(c, 0);
    assert Position(c.prefilled, 0) == -1 && Position(c.prefilled, 1) == 0;
    var placed := Placed(c, 1);
    assert placed == none[0 := Some(block[0])];
    FreeTail(placed, |block|);
  }

  lemma {:induction false} FreeTail(avail: seq<Option<Tx>>, n: nat)
    requires 1 <= n <= |avail| && avail[0].Some? && forall k :: 0 < k < |avail| ==> avail[k] == None
    ensures |Free(avail, n)| == n - 1 && forall i :: 0 <= i < n - 1 ==> Free(avail, n)[i] == i + 1
  {
    if n > 1 {
      FreeTail(avail, n - 1);
    }
  }

  lemma {:induction false} MissingEnd(avail: seq<Option<Tx>>, block: seq<Tx>, a: Option<Tx>, t: Tx)
    requires |avail| == |block|
    ensures Missing(avail + [a], block + [t]) == Missing(avail, block) + if a.None? then [t] else []
  {
    if avail == [] {
      assert ([a] + [])[1..] == [];
      assert avail + [a] == [a] && block + [t] == [t];
    } else {
      assert (avail + [a])[1..] == avail[1..] + [a] && (block + [t])[1..] == block[1..] + [t];
      MissingEnd(avail[1..], block[1..], a, t);
    }
  }

  /** Announce, start, request what is not there, fill: the receiver has the block, and has asked for nothing it had. */
  method Exchange(block: seq<Tx>, pool: seq<Tx>, extra: seq<Tx>, short: Tx -> ShortId, wtxid: Tx -> int,
                  isNull: Tx -> bool,
                  crowded: nat -> bool, check: seq<Tx> -> ReadStatus)
    returns (init: ReadStatus, status: ReadStatus, vtx: seq<Tx>, requested: seq<Tx>)
    requires 1 <= |block| <= SLOT_LIMIT && Separates(short, block, pool + extra)
    ensures init == Ok <==> !isNull(block[0]) && (forall i :: 0 <= i < |block| - 1 ==> !crowded(i))
                            && Different(Announce(block, short).shortIds)
    ensures init == Ok ==> vtx == block && status == check(block)
    ensures init == Ok && Different(pool) ==> forall t :: t in requested ==> t !in pool + extra
  {
    var c := Announce(block, short);
    AnnounceEncodes(block, short);
    AnnounceBounds(block, short, isNull);
    hide Encodes, Separates, Announce, PrefilledOk, AllResolved, Mapped, Held, Different, Placed, Free;
    var partial := new PartiallyDownloadedBlock();
    ghost var m, have, fromPool, fromExtra := map[], [], 0, 0;
    init, m, have, fromPool, fromExtra := partial.InitData(c, pool, extra, short, wtxid, isNull, crowded);
    status, vtx, requested := Invalid, [], [];
    if init == Ok {
      requested := Request(partial, block);
      FillRestores(partial.txnAvailable, block);
      if Different(pool) {
        ServedMissing(partial.txnAvailable, block, pool + extra);
      }
      status, vtx := partial.FillBlock(requested, check);
    }
  }

  /** The transactions that are not there yet, in order. */
  method Request(partial: PartiallyDownloadedBlock, block: seq<Tx>) returns (requested: seq<Tx>)
    requires !partial.headerNull && |partial.txnAvailable| == |block|
    ensures requested == Missing(partial.txnAvailable, block)
  {
    requested := [];
    ghost var avail := partial.txnAvailable;
    for k := 0 to |block|
      invariant requested == Missing(avail[..k], block[..k])
    {
      MissingEnd(avail[..k], block[..k], avail[k], block[k]);
      assert avail[..k + 1] == avail[..k] + [avail[k]] && block[..k + 1] == block[..k] + [block[k]];
      if !partial.IsTxAvailable(k) {
        requested := requested + [block[k]];
      }
    }
    assert avail[..|block|] == avail && block[..|block|] == block;
  }

  /** If all that is at hand is in place, nothing at hand is missing. */
  lemma {:induction false} ServedMissing(avail: seq<Option<Tx>>, block: seq<Tx>, cands: seq<Tx>)
    requires Served(avail, block, cands)
    ensures forall t :: t in Missing(avail, block) ==> t !in cands
    decreases |avail|
  {
    if avail != [] {
      forall k | 0 <= k < |block[1..]| && block[1..][k] in cands ensures avail[1..][k].Some? {
        assert block[k + 1] in cands;
      }
      ServedMissing(avail[1..], block[1..], cands);
    }
  }

  lemma AnnounceBounds(block: seq<Tx>, short: Tx -> ShortId, isNull: Tx -> bool)
    requires 1 <= |block| <= SLOT_LIMIT
    ensures var c := Announce(block, short);
            && Total(c) == |block| && |c.shortIds| == |block| - 1 && InBounds(c)
            && (PrefilledOk(c, isNull, |c.prefilled|) <==> !isNull(block[0]))
  {
    var c := Announce(block, short);
    assert Position(c.prefilled, 1) == Position(c.prefilled, 0) + 1 == 0;
    assert HasSlot(c, isNull, 0) <==> !isNull(block[0]);
  }
}
