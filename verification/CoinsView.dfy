/** Value model of a stack of CCoinsViewCache layers over a coin database, proved
    indistinguishable from one plain map per layer. */
module CoinsView {
  import opened Coins
  import opened Options

  type BlockHash = int
  const NULL_HASH: BlockHash := 0

  datatype Entry = Entry(coins: Coins, isDirty: bool, isFresh: bool)

  type CoinsMap = map<Txid, Entry>

  /** A cache names the entry an active CCoinsModifier refers to in `open`. */
  datatype Stack =
    | Database(coins: map<Txid, Coins>, diskBest: BlockHash)
    | Cache(base: Stack, entries: CoinsMap, best: BlockHash, open: Option<Txid>)

  // ---------------------------------------------------------------- reading

  /** What GetCoins(k) hands back at the top of s. */
  function Got(s: Stack, k: Txid): Option<Coins> {
    match s
    case Database(coins, _) => Lookup(coins, k)
    case Cache(base, entries, _, _) => if k in entries then Some(entries[k].coins) else Got(base, k)
  }

  /** The coins visible under k, with "pruned" and "missing" identified. */
  function Live(s: Stack, k: Txid): Option<Coins> {
    match Got(s, k)
    case Some(c) => if c.IsPruned() then None else Some(c)
    case None => None
  }

  function LiveCoins(c: Coins): Option<Coins> {
    if c.IsPruned() then None else Some(c)
  }

  /** The stack after GetCoins(k): every cache on the way now holds what its base returned. */
  function Fetch(s: Stack, k: Txid): (r: Stack)
    ensures s.Cache? ==> r.Cache? && r.open == s.open && r.best == s.best
    ensures s.Database? ==> r == s
  {
    match s
    case Database(_, _) => s
    case Cache(base, entries, _, _) =>
      if k in entries then s
      else match Got(base, k)
        case None => s.(base := Fetch(base, k))
        case Some(c) => s.(base := Fetch(base, k), entries := entries[k := Entry(c, false, c.IsPruned())])
  }

  function HaveCoins(s: Stack, k: Txid): bool {
    match s
    case Database(coins, _) => k in coins
    case Cache(_, _, _, _) => match Got(s, k)
      case Some(c) => |c.vout| > 0
      case None => false
  }

  /** What GetBestBlock returns; a cache with a null hash asks its base. */
  function Best(s: Stack): BlockHash {
    match s
    case Database(_, best) => best
    case Cache(base, _, best, _) => if best == NULL_HASH then Best(base) else best
  }

  /** The stack after GetBestBlock: null hashes on the way have been filled in. */
  function FillBest(s: Stack): (r: Stack)
    ensures s.Cache? ==> r.Cache? && r.open == s.open && r.entries == s.entries
    ensures s.Database? ==> r == s
  {
    match s
    case Database(_, _) => s
    case Cache(base, _, best, _) => if best == NULL_HASH then s.(base := FillBest(base), best := Best(base)) else s
  }

  // ---------------------------------------------------------------- modifying

  /** ModifyCoins(k): make sure an entry exists, mark it dirty, and open a modifier on it. */
  function ModifyCoins(s: Stack, k: Txid): (r: Stack)
    requires s.Cache? && s.open.None?
    ensures r.Cache? && r.open == Some(k) && k in r.entries
  {
    var s1 := if k in s.entries then s else s.(base := Fetch(s.base, k));
    var e :=
      if k in s.entries then s.entries[k]
      else match Got(s.base, k)
        case None => Entry(EMPTY, false, true)
        case Some(c) => Entry(c, false, c.IsPruned());
    s1.(entries := s.entries[k := e.(isDirty := true)], open := Some(k))
  }

  /** ModifyNewCoins(k, coinbase); None is the logic_error for coins that already exist here. */
  function ModifyNewCoins(s: Stack, k: Txid, coinbase: bool): (r: Option<Stack>)
    requires s.Cache? && s.open.None?
    ensures r.Some? ==> r.value.Cache? && r.value.open == Some(k) && k in r.value.entries
  {
    var e := if k in s.entries then s.entries[k] else Entry(EMPTY, false, false);
    if !coinbase && !e.coins.IsPruned() then None
    else
      var isFresh := e.isFresh || (!coinbase && !e.isDirty);
      Some(s.(entries := s.entries[k := Entry(EMPTY, true, isFresh)], open := Some(k)))
  }

  /** The caller's assignment through the modifier. */
  function Write(s: Stack, c: Coins): (r: Stack)
    requires s.Cache? && s.open.Some? && s.open.value in s.entries
  {
    s.(entries := s.entries[s.open.value := s.entries[s.open.value].(coins := c)])
  }

  /** ~CCoinsModifier: trim, then drop an entry that is both fresh and pruned. */
  function Close(s: Stack): (r: Stack)
    requires s.Cache? && s.open.Some? && s.open.value in s.entries
    ensures r.Cache? && r.open.None?
  {
    var k := s.open.value;
    var e := s.entries[k].(coins := Cleaned(s.entries[k].coins));
    s.(open := None,
       entries := if e.isFresh && e.coins.IsPruned() then s.entries - {k} else s.entries[k := e])
  }

  // ---------------------------------------------------------------- flushing

  /** The child marks k fresh although this cache holds unspent coins for it. */
  predicate Misapplied(ours: CoinsMap, child: CoinsMap, k: Txid) {
    k in child && child[k].isDirty && child[k].isFresh && k in ours && !ours[k].coins.IsPruned()
  }

  /** What BatchWrite leaves under k. */
  function MergedAt(ours: CoinsMap, child: CoinsMap, k: Txid): Option<Entry> {
    if k !in child || !child[k].isDirty then Lookup(ours, k)
    else
      var e := child[k];
      if k !in ours then
        if e.isFresh && e.coins.IsPruned() then None else Some(Entry(e.coins, true, e.isFresh))
      else if ours[k].isFresh && e.coins.IsPruned() then None
      else Some(Entry(e.coins, true, ours[k].isFresh))
  }

  function Merged(ours: CoinsMap, child: CoinsMap): (r: CoinsMap)
    ensures forall k :: Lookup(r, k) == MergedAt(ours, child, k)
  {
    map k | k in ours.Keys + child.Keys && MergedAt(ours, child, k).Some? :: MergedAt(ours, child, k).value
  }

  /** What the database's BatchWrite leaves under k: dirty entries erased if pruned, else written. */
  function MergedCoinsAt(coins: map<Txid, Coins>, child: CoinsMap, k: Txid): Option<Coins> {
    if k in child && child[k].isDirty then LiveCoins(child[k].coins)
    else Lookup(coins, k)
  }

  function MergedCoins(coins: map<Txid, Coins>, child: CoinsMap): (r: map<Txid, Coins>)
    ensures forall k :: Lookup(r, k) == MergedCoinsAt(coins, child, k)
  {
    map k | k in coins.Keys + child.Keys && MergedCoinsAt(coins, child, k).Some? :: MergedCoinsAt(coins, child, k).value
  }

  /** BatchWrite; None is the "FRESH flag misapplied" logic_error. */
  ghost function BatchWrite(s: Stack, child: CoinsMap, best: BlockHash): (r: Option<Stack>)
    requires s.Cache? ==> s.open.None?
  {
    match s
    case Database(coins, oldBest) =>
      Some(Database(MergedCoins(coins, child), if best == NULL_HASH then oldBest else best))
    case Cache(base, entries, _, open) =>
      if exists k :: Misapplied(entries, child, k) then None
      else Some(Cache(base, Merged(entries, child), best, open))
  }

  predicate Flushable(s: Stack) {
    s.Cache? && s.open.None? && (s.base.Cache? ==> s.base.open.None?)
  }

  /** Flush: write everything to the base and forget it here; the best block is kept. */
  ghost function Flush(s: Stack): (r: Option<Stack>)
    requires Flushable(s)
  {
    match BatchWrite(s.base, s.entries, s.best)
    case None => None
    case Some(b) => Some(Cache(b, map[], s.best, s.open))
  }

  function Uncache(s: Stack, k: Txid): (r: Stack)
    requires s.Cache?
    ensures r.Cache? && r.open == s.open
  {
    if k in s.entries && !s.entries[k].isDirty && !s.entries[k].isFresh
    then s.(entries := s.entries - {k}) else s
  }

  // ---------------------------------------------------------------- invariant

  /** FRESH promises that the base shows nothing; a clean entry promises to agree with the base. */
  ghost predicate EntryOk(base: Stack, k: Txid, e: Entry) {
    && (e.isFresh ==> Live(base, k) == None)
    && (!e.isDirty ==> Live(base, k) == LiveCoins(e.coins))
  }

  ghost predicate Inv(s: Stack) {
    match s
    case Database(coins, _) => forall k :: k in coins ==> coins[k].Trimmed() && !coins[k].IsPruned()
    case Cache(base, entries, _, open) =>
      && Inv(base)
      && (base.Cache? ==> base.open.None?)
      && (open.Some? ==> open.value in entries && entries[open.value].isDirty)
      && (forall k :: k in entries ==> EntryOk(base, k, entries[k]))
      && (forall k :: k in entries && open != Some(k) ==> entries[k].coins.Trimmed() && !Needless(entries[k]))
  }

  /** A changed entry that is spent and that nobody below knows of: there is nothing to write down. */
  predicate Needless(e: Entry) {
    e.isDirty && e.isFresh && e.coins.IsPruned()
  }

  lemma {:induction false} FetchKeepsGot(s: Stack, k: Txid, j: Txid)
    ensures Got(Fetch(s, k), j) == Got(s, j)
  {
    if s.Cache? && k !in s.entries {
      FetchKeepsGot(s.base, k, j);
    }
  }

  lemma {:induction false} GotTrimmed(s: Stack, k: Txid)
    requires Inv(s)
    requires s.Cache? ==> s.open.None?
    ensures Got(s, k).Some? ==> Got(s, k).value.Trimmed()
  {
    if s.Cache? && k !in s.entries {
      GotTrimmed(s.base, k);
    }
  }

  lemma {:induction false} FetchKeepsInv(s: Stack, k: Txid)
    requires Inv(s)
    ensures Inv(Fetch(s, k))
  {
    if s.Cache? && k !in s.entries {
      var r := Fetch(s, k);
      FetchKeepsInv(s.base, k);
      GotTrimmed(s.base, k);
      forall j ensures Live(r.base, j) == Live(s.base, j) {
        FetchKeepsGot(s.base, k, j);
      }
      assert forall j :: j in s.entries ==> EntryOk(s.base, j, s.entries[j]);
      forall j | j in r.entries ensures EntryOk(r.base, j, r.entries[j]) { }
    }
  }

  /** A cache's answer to HaveCoins is exact although it only looks at vout's length. */
  lemma HaveCoinsExact(s: Stack, k: Txid)
    requires Inv(s)
    requires s.Cache? ==> s.open.None?
    ensures HaveCoins(s, k) <==> Live(s, k).Some?
  {
    GotTrimmed(s, k);
    if Got(s, k).Some? {
      TrimmedEmptyIffPruned(Got(s, k).value);
    }
  }

  /** Layer by layer, down to the first that knows k: whoever asked the layer below now holds its answer, clean, and
      fresh if it is spent; nothing else changed. */
  ghost predicate Filled(s: Stack, r: Stack, k: Txid) {
    if s.Cache? && k !in s.entries then
      && r.Cache? && r.best == s.best && r.open == s.open && Filled(s.base, r.base, k)
      && (k in r.entries <==> Got(s.base, k).Some?) && r.entries - {k} == s.entries
      && (k in r.entries ==> Some(r.entries[k].coins) == Got(s.base, k) && !r.entries[k].isDirty &&
                             (r.entries[k].isFresh <==> Live(s.base, k).None?))
    else r == s
  }

  lemma {:induction false} FetchFills(s: Stack, k: Txid)
    ensures Filled(s, Fetch(s, k), k)
  {
    if s.Cache? && k !in s.entries {
      FetchFills(s.base, k);
      assert s.entries - {k} == s.entries;
    }
  }

  /** A modifier opens a dirty entry with the coins visible there. One that had to be made is fresh exactly if the
      base shows no coins. */
  lemma ModifyOpens(s: Stack, k: Txid)
    requires s.Cache? && s.open.None? && Inv(s)
    ensures var r := ModifyCoins(s, k);
            && r.entries[k].isDirty && r.entries - {k} == s.entries - {k} && r.best == s.best
            && r.entries[k].coins == (if Got(s, k).Some? then Got(s, k).value else EMPTY)
            && if k in s.entries then r.base == s.base && r.entries[k].isFresh == s.entries[k].isFresh
               else Filled(s.base, r.base, k) && (r.entries[k].isFresh <==> Live(s.base, k).None?)
  {
    FetchFills(s.base, k);
  }

  /** What a flush makes of a dirty entry in the cache below: it is gone if it is spent and fresh there, else it is
      there with its coins, dirty. It is fresh there if it was, or if only the flushed cache had it, fresh. */
  lemma FlushedEntry(s: Stack, k: Txid)
    requires Inv(s) && Flushable(s) && s.base.Cache? && k in s.entries && s.entries[k].isDirty
    ensures Flush(s).Some?
    ensures var b, e := Flush(s).value.base, s.entries[k];
            var isNew := if k in s.base.entries then s.base.entries[k].isFresh else e.isFresh;
            && b.base == s.base.base && b.open == s.base.open
            && Lookup(b.entries, k) == if isNew && e.coins.IsPruned() then None else Some(Entry(e.coins, true, isNew))
  {
    NeverMisapplied(s);
    assert MergedAt(s.base.entries, s.entries, k) == Lookup(Merged(s.base.entries, s.entries), k);
  }

  // ---------------------------------------------------------------- flush keeps the view

  /** Under the invariant BatchWrite never raises "FRESH flag misapplied". */
  lemma NeverMisapplied(s: Stack)
    requires Inv(s) && Flushable(s)
    ensures s.base.Cache? ==> forall k :: !Misapplied(s.base.entries, s.entries, k)
    ensures Flush(s).Some?
  {
    if s.base.Cache? {
      forall k ensures !Misapplied(s.base.entries, s.entries, k) {
        if k in s.entries {
          assert EntryOk(s.base, k, s.entries[k]);
        }
      }
    }
  }

  /** Flush moves the flushed view into the base and leaves the view here as it was. */
  lemma FlushMovesView(s: Stack, k: Txid)
    requires Inv(s) && Flushable(s)
    ensures Flush(s).Some?
    ensures Live(Flush(s).value.base, k) == Live(s, k)
    ensures Live(Flush(s).value, k) == Live(s, k)
  {
    NeverMisapplied(s);
    if k in s.entries {
      assert EntryOk(s.base, k, s.entries[k]);
    }
    if s.base.Cache? {
      assert MergedAt(s.base.entries, s.entries, k) == Lookup(Merged(s.base.entries, s.entries), k);
      if k in s.base.entries {
        assert EntryOk(s.base.base, k, s.base.entries[k]);
      }
    } else {
      var b := Flush(s).value.base;
      assert MergedCoinsAt(s.base.coins, s.entries, k) == Lookup(b.coins, k) == Got(b, k);
      if k in s.entries && s.entries[k].isDirty {
        assert Live(b, k) == LiveCoins(s.entries[k].coins);
      } else {
        assert Got(b, k) == Got(s.base, k);
      }
    }
  }

  lemma FlushKeepsInv(s: Stack)
    requires Inv(s) && Flushable(s)
    ensures Flush(s).Some? && Inv(Flush(s).value)
  {
    NeverMisapplied(s);
    var b := Flush(s).value.base;
    if s.base.Cache? {
      forall k | k in b.entries
        ensures EntryOk(b.base, k, b.entries[k]) && b.entries[k].coins.Trimmed() && !Needless(b.entries[k])
      {
        assert MergedAt(s.base.entries, s.entries, k) == Lookup(b.entries, k);
        if k in s.entries {
          assert EntryOk(s.base, k, s.entries[k]);
        }
        if k in s.base.entries {
          assert EntryOk(s.base.base, k, s.base.entries[k]);
        }
      }
    }
  }

  /** Flush passes the best block on, except that a never-read null hash wipes the
      hash an unflushed cache below had set; exactly then the answer can change. */
  lemma FlushBestBlock(s: Stack)
    requires Inv(s) && Flushable(s)
    ensures Flush(s).Some?
    ensures Best(Flush(s).value) == Best(s) <==>
            s.best != NULL_HASH || s.base.Database? || s.base.best == NULL_HASH || Best(s.base.base) == s.base.best
  {
    NeverMisapplied(s);
  }

  /** The best block the base then answers with: the flushed one; without one a database keeps its own, but a cache
      forgets its name and asks below. */
  lemma FlushPassesBest(s: Stack)
    requires Inv(s) && Flushable(s)
    ensures Flush(s).Some?
    ensures Best(Flush(s).value.base) ==
            if s.best != NULL_HASH then s.best else if s.base.Database? then Best(s.base) else Best(s.base.base)
  {
    NeverMisapplied(s);
  }

  /** A concrete stack on which Flush loses the best block. */
  lemma FlushCanLoseBestBlock()
    ensures var s := Cache(Cache(Database(map[], 1), map[], 2, None), map[], NULL_HASH, None);
            Inv(s) && Best(s) == 2 && Flush(s).Some? && Best(Flush(s).value) == 1
  {
    var s := Cache(Cache(Database(map[], 1), map[], 2, None), map[], NULL_HASH, None);
    FlushBestBlock(s);
    assert Best(s.base) == 2 && Best(s.base.base) == 1;
    assert Flush(s).value.base.best == NULL_HASH;
    assert Best(Flush(s).value.base) == Best(Database(map[], 1));
  }

  // ---------------------------------------------------------------- BIP 30

  /** Without an unspent duplicate visible here, ModifyNewCoins neither throws nor breaks the invariant. */
  lemma ModifyNewCoinsSafe(s: Stack, k: Txid, coinbase: bool)
    requires Inv(s) && s.Cache? && s.open.None?
    requires coinbase || Live(s, k) == None
    ensures ModifyNewCoins(s, k, coinbase).Some? && Inv(ModifyNewCoins(s, k, coinbase).value)
  {
    if k in s.entries {
      assert EntryOk(s.base, k, s.entries[k]);
    }
    var r := ModifyNewCoins(s, k, coinbase).value;
    forall j | j in r.entries ensures EntryOk(r.base, j, r.entries[j]) {
      if j in s.entries {
        assert EntryOk(s.base, j, s.entries[j]);
      }
    }
  }

  /** The exact condition: a non-coinbase call keeps the invariant precisely when nothing unspent is
      visible under k. In particular an unspent duplicate known only to the base is wrongly marked fresh. */
  lemma ModifyNewCoinsNeedsBip30(s: Stack, k: Txid)
    requires Inv(s) && s.Cache? && s.open.None?
    ensures (ModifyNewCoins(s, k, false).Some? && Inv(ModifyNewCoins(s, k, false).value)) <==> Live(s, k) == None
  {
    if Live(s, k) == None {
      ModifyNewCoinsSafe(s, k, false);
    } else if k !in s.entries {
      var r := ModifyNewCoins(s, k, false).value;
      assert !EntryOk(r.base, k, r.entries[k]);
    }
  }

  /** A stack with an unspent coin on disk that the cache has not read. A new coin of the same id is taken for fresh,
      so that when it is spent its entry is dropped, and the old coin is back. */
  lemma DuplicateReappears()
    ensures var coin := Coins(false, [TxOut(5, [])], 1, 1);
            var s := Cache(Database(map[7 := coin], 1), map[], NULL_HASH, None);
            && Inv(s) && Live(s, 7) == Some(coin)
            && ModifyNewCoins(s, 7, false).Some? && !Inv(ModifyNewCoins(s, 7, false).value)
            && Live(Close(Write(ModifyNewCoins(s, 7, false).value, EMPTY)), 7) == Some(coin)
  {
    var coin := Coins(false, [TxOut(5, [])], 1, 1);
    var s := Cache(Database(map[7 := coin], 1), map[], NULL_HASH, None);
    assert !coin.vout[0].IsNull() && !coin.IsPruned();
    assert Got(s.base, 7) == Some(coin);
    ModifyNewCoinsNeedsBip30(s, 7);
  }

  // ---------------------------------------------------------------- modifiers

  lemma ModifyCoinsKeepsView(s: Stack, k: Txid, j: Txid)
    requires Inv(s) && s.Cache? && s.open.None?
    ensures Live(ModifyCoins(s, k), j) == Live(s, j)
    ensures Live(ModifyCoins(s, k).base, j) == Live(s.base, j)
  {
    FetchKeepsGot(s.base, k, j);
  }

  lemma ModifyCoinsKeepsInv(s: Stack, k: Txid)
    requires Inv(s) && s.Cache? && s.open.None?
    ensures Inv(ModifyCoins(s, k))
  {
    var r := ModifyCoins(s, k);
    FetchKeepsInv(s.base, k);
    forall j | j in r.entries ensures EntryOk(r.base, j, r.entries[j]) {
      FetchKeepsGot(s.base, k, j);
      if j in s.entries {
        assert EntryOk(s.base, j, s.entries[j]);
      }
    }
  }

  lemma WriteKeepsInv(s: Stack, c: Coins)
    requires Inv(s) && s.Cache? && s.open.Some?
    ensures Inv(Write(s, c))
  {
    var r := Write(s, c);
    forall j | j in r.entries ensures EntryOk(r.base, j, r.entries[j]) {
      assert EntryOk(s.base, j, s.entries[j]);
    }
  }

  /** Closing a modifier changes what is visible only by trimming the coins it was opened on. */
  lemma CloseTrims(s: Stack, j: Txid)
    requires Inv(s) && s.Cache? && s.open.Some?
    ensures Inv(Close(s))
    ensures j != s.open.value ==> Live(Close(s), j) == Live(s, j)
    ensures j == s.open.value ==> Live(Close(s), j) == LiveCoins(Cleaned(s.entries[j].coins))
  {
    var r, k := Close(s), s.open.value;
    assert EntryOk(s.base, k, s.entries[k]);
    forall i | i in r.entries ensures EntryOk(r.base, i, r.entries[i]) {
      assert EntryOk(s.base, i, s.entries[i]);
    }
  }

  // ---------------------------------------------------------------- whole runs

  /** Steps that may happen at any layer and must not be observable above it. */
  datatype Quiet = Fetching(k: Txid) | Uncaching(k: Txid) | Flushing | ReadingBest

  datatype Op =
    | At(depth: nat, quiet: Quiet)          // a quiet step `depth` layers below the top
    | Modifying(k: Txid)                    // ModifyCoins on the top cache
    | ModifyingNew(k: Txid, coinbase: bool) // ModifyNewCoins on the top cache
    | Writing(c: Coins)                     // assignment through the open modifier
    | Closing                               // the modifier goes out of scope
    | SettingBest(h: BlockHash)
    | Pushing                               // a new empty cache on top
    | Popping                               // the top cache is destroyed, its changes forgotten

  function Depth(s: Stack): nat {
    if s.Database? then 0 else 1 + Depth(s.base)
  }

  ghost function QuietStep(s: Stack, q: Quiet): (r: Option<Stack>)
    requires s.Cache? && (q.Flushing? ==> Flushable(s))
  {
    match q
    case Fetching(k) => Some(Fetch(s, k))
    case Uncaching(k) => Some(Uncache(s, k))
    case Flushing => Flush(s)
    case ReadingBest => Some(FillBest(s))
  }

  predicate QuietAllowed(s: Stack, d: nat, q: Quiet)
    ensures QuietAllowed(s, d, q) ==> d < Depth(s)
  {
    s.Cache? && if d == 0 then (q.Flushing? ==> Flushable(s)) else QuietAllowed(s.base, d - 1, q)
  }

  ghost function QuietAt(s: Stack, d: nat, q: Quiet): (r: Option<Stack>)
    requires QuietAllowed(s, d, q)
  {
    if d == 0 then QuietStep(s, q)
    else match QuietAt(s.base, d - 1, q)
      case None => None
      case Some(b) => Some(s.(base := b))
  }

  /** What the source asks of its callers: one modifier at a time, opened on the top cache only, no
      flush under an open modifier, and BIP 30 for non-coinbase ModifyNewCoins. */
  predicate Allowed(s: Stack, op: Op) {
    match op
    case At(d, q) => QuietAllowed(s, d, q)
    case Modifying(_) => s.Cache? && s.open.None?
    case ModifyingNew(k, coinbase) => s.Cache? && s.open.None? && (coinbase || Live(s, k) == None)
    case Writing(_) => s.Cache? && s.open.Some? && s.open.value in s.entries
    case Closing => s.Cache? && s.open.Some? && s.open.value in s.entries
    case SettingBest(_) => s.Cache?
    case Pushing => s.Cache? ==> s.open.None?
    case Popping => s.Cache? && s.open.None?
  }

  ghost function Step(s: Stack, op: Op): (r: Option<Stack>)
    requires Allowed(s, op)
  {
    match op
    case At(d, q) => QuietAt(s, d, q)
    case Modifying(k) => Some(ModifyCoins(s, k))
    case ModifyingNew(k, coinbase) => ModifyNewCoins(s, k, coinbase)
    case Writing(c) => Some(Write(s, c))
    case Closing => Some(Close(s))
    case SettingBest(h) => Some(s.(best := h))
    case Pushing => Some(Cache(s, map[], NULL_HASH, None))
    case Popping => Some(s.base)
  }

  // The reference: one plain map and one name of a best block per layer, top first, and the key being modified.

  type PlainMap = map<Txid, Coins>

  datatype Plain = Plain(levels: seq<PlainMap>, names: seq<BlockHash>, open: Option<Txid>)

  function Keys(s: Stack): (r: set<Txid>)
    ensures forall k :: Got(s, k).Some? ==> k in r
  {
    match s
    case Database(coins, _) => coins.Keys
    case Cache(base, entries, _, _) => Keys(base) + entries.Keys
  }

  function View(s: Stack): (r: PlainMap)
    ensures forall k :: k in r <==> Live(s, k).Some?
    ensures forall k :: k in r ==> r[k] == Live(s, k).value
  {
    map k | k in Keys(s) && Live(s, k).Some? :: Live(s, k).value
  }

  function Views(s: Stack): (r: seq<PlainMap>)
    ensures |r| == Depth(s) + 1
  {
    [View(s)] + (if s.Database? then [] else Views(s.base))
  }

  function Names(s: Stack): (r: seq<BlockHash>)
    ensures |r| == Depth(s) + 1
  {
    match s
    case Database(_, best) => [best]
    case Cache(base, _, best, _) => [best] + Names(base)
  }

  function Abs(s: Stack): Plain {
    Plain(Views(s), Names(s), if s.Cache? then s.open else None)
  }

  /** The best block that a list of names stands for: the first that is not null. */
  function Answer(names: seq<BlockHash>): BlockHash {
    if names == [] then NULL_HASH else if names[0] != NULL_HASH then names[0] else Answer(names[1..])
  }

  /** Asking the first layer leaves the answer in all layers that were asked. */
  function Asked(names: seq<BlockHash>): (r: seq<BlockHash>)
    ensures |r| == |names|
  {
    if names == [] || names[0] != NULL_HASH then names else [Answer(names)] + Asked(names[1..])
  }

  /** Flushing layer d gives its name to the layer below; but the database does not take a null one. */
  function Passed(names: seq<BlockHash>, d: nat): (r: seq<BlockHash>)
    requires d + 1 < |names|
    ensures |r| == |names|
  {
    if names[d] == NULL_HASH && d + 2 == |names| then names else names[d + 1 := names[d]]
  }

  /** What GetBestBlock answers is the name that the layers stand for. */
  lemma {:induction false} BestIsAnswer(s: Stack)
    ensures Best(s) == Answer(Names(s))
  {
    if s.Cache? {
      BestIsAnswer(s.base);
    }
  }

  function Put(m: PlainMap, k: Txid, c: Coins): PlainMap {
    if c.IsPruned() then m - {k} else m[k := c]
  }

  predicate PlainAllowed(p: Plain, op: Op) {
    match op
    case At(d, q) => d + 1 < |p.levels| == |p.names|
    case ModifyingNew(_, _) => |p.levels| > 0
    case Writing(_) => |p.levels| > 0 && p.open.Some?
    case Closing => |p.levels| > 0 && p.open.Some?
    case Pushing => |p.levels| > 0
    case Popping => |p.levels| > 0 && |p.names| > 0
    case SettingBest(_) => |p.names| > 0
    case _ => true
  }

  function PlainStep(p: Plain, op: Op): Plain
    requires PlainAllowed(p, op)
  {
    match op
    case At(d, q) => p.(levels := QuietViews(p.levels, d, q), names := QuietNames(p.names, d, q))
    case Modifying(k) => p.(open := Some(k))
    case ModifyingNew(k, _) => p.(levels := p.levels[0 := p.levels[0] - {k}], open := Some(k))
    case Writing(c) => p.(levels := p.levels[0 := Put(p.levels[0], p.open.value, c)])
    case Closing => p.(levels := p.levels[0 := PlainClose(p.levels[0], p.open.value)], open := None)
    case SettingBest(h) => p.(names := p.names[0 := h])
    case Pushing => Plain([p.levels[0]] + p.levels, [NULL_HASH] + p.names, None)
    case Popping => Plain(p.levels[1..], p.names[1..], None)
  }

  lemma SameLive(r: Stack, s: Stack)
    requires forall k :: Live(r, k) == Live(s, k)
    ensures View(r) == View(s)
  {
    forall k ensures k in View(r) <==> k in View(s) {
      assert Live(r, k) == Live(s, k);
    }
  }

  /** r can stand in for s as the base of any cache. */
  ghost predicate Equivalent(s: Stack, r: Stack) {
    Inv(r) && r.Cache? && s.Cache? && r.open == s.open && forall k :: Live(r, k) == Live(s, k)
  }

  lemma {:induction false} FetchEquivalent(s: Stack, k: Txid)
    requires Inv(s)
    ensures s.Cache? ==> Equivalent(s, Fetch(s, k))
    ensures Views(Fetch(s, k)) == Views(s)
  {
    if s.Cache? {
      FetchKeepsInv(s, k);
      FetchEquivalent(s.base, k);
      forall j ensures Live(Fetch(s, k), j) == Live(s, j) {
        FetchKeepsGot(s, k, j);
      }
      SameLive(Fetch(s, k), s);
    }
  }

  lemma {:induction false} FillBestEquivalent(s: Stack)
    requires Inv(s)
    ensures s.Cache? ==> Equivalent(s, FillBest(s))
    ensures Views(FillBest(s)) == Views(s)
  {
    if s.Cache? {
      FillBestEquivalent(s.base);
      BaseEquivalent(s, FillBest(s));
      SameLive(FillBest(s), s);
    }
  }

  lemma UncacheEquivalent(s: Stack, k: Txid)
    requires Inv(s) && s.Cache?
    ensures Equivalent(s, Uncache(s, k))
    ensures Views(Uncache(s, k)) == Views(s)
  {
    var r := Uncache(s, k);
    forall j ensures Live(r, j) == Live(s, j) {
      if j in s.entries {
        assert EntryOk(s.base, j, s.entries[j]);
      }
    }
    SameLive(r, s);
  }

  lemma FlushEquivalent(s: Stack)
    requires Inv(s) && Flushable(s)
    ensures Flush(s).Some? && Equivalent(s, Flush(s).value)
    ensures View(Flush(s).value.base) == View(s)
  {
    FlushKeepsInv(s);
    var r := Flush(s).value;
    forall k ensures Live(r.base, k) == Live(s, k) && Live(r, k) == Live(s, k) {
      FlushMovesView(s, k);
    }
    SameLive(r.base, s);
  }

  lemma FlushViews(s: Stack)
    requires Inv(s) && Flushable(s)
    ensures Flush(s).Some? && Views(Flush(s).value) == Views(s)[1 := View(s)]
  {
    FlushEquivalent(s);
    var r := Flush(s).value;
    SameLive(r, s);
    ViewsHead(s);
    ViewsHead(s.base);
    ViewsHead(r);
    ViewsHead(r.base);
  }

  lemma ViewsHead(s: Stack)
    ensures Views(s)[0] == View(s)
    ensures s.Cache? ==> Views(s) == [View(s)] + Views(s.base)
  {
  }

  /** Exchanging a cache's base for an equivalent one is not observable. */
  lemma BaseEquivalent(s: Stack, r: Stack)
    requires Inv(s) && s.Cache? && r.Cache? && r.entries == s.entries && r.open == s.open
    requires Inv(r.base) && (r.base.Cache? ==> r.base.open.None?)
    requires forall k :: Live(r.base, k) == Live(s.base, k)
    ensures Equivalent(s, r)
  {
    forall k | k in r.entries ensures EntryOk(r.base, k, r.entries[k]) {
      assert EntryOk(s.base, k, s.entries[k]);
    }
    forall k ensures Live(r, k) == Live(s, k) {
      if k !in s.entries {
        assert Live(r.base, k) == Live(s.base, k);
      }
    }
  }

  lemma QuietTop(s: Stack, q: Quiet)
    requires Inv(s) && QuietAllowed(s, 0, q)
    ensures QuietStep(s, q).Some? && Equivalent(s, QuietStep(s, q).value)
    ensures Views(QuietStep(s, q).value) == QuietViews(Views(s), 0, q)
  {
    match q
    case Fetching(k) => FetchEquivalent(s, k);
    case Uncaching(k) => UncacheEquivalent(s, k);
    case Flushing => FlushEquivalent(s); FlushViews(s);
    case ReadingBest => FillBestEquivalent(s);
  }

  /** What a quiet step does to the layers' views. */
  function QuietViews(views: seq<PlainMap>, d: nat, q: Quiet): seq<PlainMap>
    requires d + 1 < |views|
  {
    if q.Flushing? then views[d + 1 := views[d]] else views
  }

  /** And to their names of the best block. */
  function QuietNames(names: seq<BlockHash>, d: nat, q: Quiet): (r: seq<BlockHash>)
    requires d + 1 < |names|
    ensures |r| == |names|
  {
    match q
    case Flushing => Passed(names, d)
    case ReadingBest => names[..d] + Asked(names[d..])
    case _ => names
  }

  lemma QuietNamesBelow(h: BlockHash, names: seq<BlockHash>, d: nat, q: Quiet)
    requires 0 < d < |names|
    ensures [h] + QuietNames(names, d - 1, q) == QuietNames([h] + names, d, q)
  {
    var all := [h] + names;
    if q.ReadingBest? {
      hide Asked;
      assert all[d..] == names[d - 1..] && all[..d] == [h] + names[..d - 1];
      assert [h] + (names[..d - 1] + Asked(names[d - 1..])) == [h] + names[..d - 1] + Asked(names[d - 1..]);
    } else if q.Flushing? {
      PassedBelow(h, names, d);
    }
  }

  lemma PassedBelow(h: BlockHash, names: seq<BlockHash>, d: nat)
    requires 0 < d < |names|
    ensures [h] + Passed(names, d - 1) == Passed([h] + names, d)
  {
  }

  lemma {:induction false} FetchNames(s: Stack, k: Txid)
    ensures Names(Fetch(s, k)) == Names(s)
  {
    if s.Cache? && k !in s.entries {
      FetchNames(s.base, k);
    }
  }

  lemma {:induction false} FillBestNames(s: Stack)
    ensures Names(FillBest(s)) == Asked(Names(s))
  {
    BestIsAnswer(s);
    if s.Cache? {
      FillBestNames(s.base);
      assert Names(s)[1..] == Names(s.base);
    } else {
      assert Names(s)[1..] == [];
    }
  }

  lemma FlushNames(s: Stack)
    requires Inv(s) && Flushable(s)
    ensures Flush(s).Some? && Names(Flush(s).value) == Passed(Names(s), 0)
  {
    NeverMisapplied(s);
    var r := Flush(s).value;
    assert Names(r) == [s.best] + Names(r.base);
  }

  lemma {:induction false} QuietAtNames(s: Stack, d: nat, q: Quiet)
    requires Inv(s) && QuietAllowed(s, d, q)
    ensures QuietAt(s, d, q).Some? && Names(QuietAt(s, d, q).value) == QuietNames(Names(s), d, q)
  {
    if d > 0 {
      QuietAtNames(s.base, d - 1, q);
      QuietNamesBelow(s.best, Names(s.base), d, q);
    } else {
      match q
      case Fetching(k) => FetchNames(s, k);
      case Uncaching(k) =>
      case Flushing => FlushNames(s);
      case ReadingBest =>
        FillBestNames(s);
        assert Names(s)[..0] == [] && Names(s)[0..] == Names(s);
    }
  }

  lemma QuietViewsBelow(v: PlainMap, views: seq<PlainMap>, d: nat, q: Quiet)
    requires 0 < d < |views|
    requires d + 1 < |[v] + views|
    ensures [v] + QuietViews(views, d - 1, q) == QuietViews([v] + views, d, q)
  {
  }

  /** Fetching, uncaching, flushing or reading the best block at any layer cannot be observed from
      above; a flush makes the view of the layer below equal to the flushed one. */
  lemma {:induction false} QuietEquivalent(s: Stack, d: nat, q: Quiet)
    requires Inv(s) && QuietAllowed(s, d, q)
    ensures QuietAt(s, d, q).Some? && Equivalent(s, QuietAt(s, d, q).value)
    ensures Views(QuietAt(s, d, q).value) == QuietViews(Views(s), d, q)
  {
    if d == 0 {
      QuietTop(s, q);
    } else {
      QuietEquivalent(s.base, d - 1, q);
      var r := s.(base := QuietAt(s.base, d - 1, q).value);
      assert QuietAt(s, d, q) == Some(r);
      BaseEquivalent(s, r);
      SameLive(r, s);
      ViewsHead(r);
      ViewsHead(s);
      QuietViewsBelow(View(s), Views(s.base), d, q);
    }
  }

  /** The step does not throw, keeps the invariant, and does to the layers' views
      exactly what the plain maps do. */
  ghost predicate Refines(s: Stack, op: Op)
    requires Allowed(s, op)
  {
    && Step(s, op).Some?
    && Inv(Step(s, op).value)
    && PlainAllowed(Abs(s), op)
    && Abs(Step(s, op).value) == PlainStep(Abs(s), op)
  }

  lemma ModifyingRefines(s: Stack, k: Txid)
    requires Inv(s) && s.Cache? && s.open.None?
    ensures Refines(s, Modifying(k))
  {
    ModifyCoinsKeepsInv(s, k);
    forall j ensures Live(ModifyCoins(s, k), j) == Live(s, j) {
      ModifyCoinsKeepsView(s, k, j);
    }
    SameLive(ModifyCoins(s, k), s);
    FetchEquivalent(s.base, k);
    FetchNames(s.base, k);
  }

  /** Changing only the top cache's entries changes only the top view. */
  lemma TopOnly(s: Stack, r: Stack)
    requires s.Cache? && r.Cache? && r.base == s.base && r.best == s.best
    ensures Abs(r) == Abs(s).(levels := Abs(s).levels[0 := View(r)], open := r.open)
  {
    ViewsHead(s);
    ViewsHead(r);
  }

  lemma ModifyNewView(s: Stack, k: Txid, coinbase: bool)
    requires s.Cache? && s.open.None? && ModifyNewCoins(s, k, coinbase).Some?
    ensures View(ModifyNewCoins(s, k, coinbase).value) == View(s) - {k}
  {
    var r := ModifyNewCoins(s, k, coinbase).value;
    forall j ensures j in View(r) <==> j in View(s) - {k} {
      assert j != k ==> Live(r, j) == Live(s, j);
    }
  }

  lemma ModifyingNewRefines(s: Stack, k: Txid, coinbase: bool)
    requires Inv(s) && s.Cache? && s.open.None? && (coinbase || Live(s, k) == None)
    ensures Refines(s, ModifyingNew(k, coinbase))
  {
    ModifyNewCoinsSafe(s, k, coinbase);
    ModifyNewView(s, k, coinbase);
    TopOnly(s, ModifyNewCoins(s, k, coinbase).value);
  }

  lemma WriteView(s: Stack, c: Coins)
    requires s.Cache? && s.open.Some? && s.open.value in s.entries
    ensures View(Write(s, c)) == Put(View(s), s.open.value, c)
  {
    var r, m := Write(s, c), Put(View(s), s.open.value, c);
    forall j ensures j in View(r) <==> j in m {
      assert j != s.open.value ==> Live(r, j) == Live(s, j);
    }
  }

  lemma WritingRefines(s: Stack, c: Coins)
    requires Inv(s) && s.Cache? && s.open.Some?
    ensures Refines(s, Writing(c))
  {
    WriteKeepsInv(s, c);
    WriteView(s, c);
    TopOnly(s, Write(s, c));
  }

  function PlainClose(m: PlainMap, k: Txid): PlainMap {
    if k in m then m[k := Cleaned(m[k])] else m
  }

  lemma CloseView(s: Stack)
    requires Inv(s) && s.Cache? && s.open.Some?
    ensures View(Close(s)) == PlainClose(View(s), s.open.value)
  {
    var r, m := Close(s), PlainClose(View(s), s.open.value);
    forall j ensures j in View(r) <==> j in m
             ensures j in m ==> View(r)[j] == m[j]
    {
      CloseTrims(s, j);
    }
  }

  lemma ClosingRefines(s: Stack)
    requires Inv(s) && s.Cache? && s.open.Some?
    ensures Refines(s, Closing)
  {
    CloseTrims(s, s.open.value);
    CloseView(s);
    TopOnly(s, Close(s));
  }

  lemma QuietRefines(s: Stack, d: nat, q: Quiet)
    requires Inv(s) && QuietAllowed(s, d, q)
    ensures Refines(s, At(d, q))
  {
    QuietEquivalent(s, d, q);
    QuietAtNames(s, d, q);
  }

  lemma SettingBestRefines(s: Stack, h: BlockHash)
    requires Inv(s) && s.Cache?
    ensures Refines(s, SettingBest(h))
  {
    hide *;
    var r := s.(best := h);
    BaseSound(s);
    BaseEquivalent(s, r);
    EquivalentView(s, r);
    ViewsHead(s);
    ViewsHead(r);
    NamesHead(s);
    NamesHead(r);
    SettingBestIs(s, h);
  }

  lemma SettingBestIs(s: Stack, h: BlockHash)
    requires s.Cache?
    ensures var r := s.(best := h);
            && Allowed(s, SettingBest(h)) && |Names(s)| > 0
            && (Refines(s, SettingBest(h)) <==>
                  Inv(r) && Views(r) == Views(s) && Names(r) == Names(s)[0 := h])
  {
    hide Inv, Views;
  }

  lemma BaseSound(s: Stack)
    requires Inv(s) && s.Cache?
    ensures Inv(s.base) && (s.base.Cache? ==> s.base.open.None?)
  {
  }

  lemma EquivalentView(s: Stack, r: Stack)
    requires Equivalent(s, r)
    ensures Inv(r) && View(r) == View(s)
  {
    hide Inv, View, Live;
    SameLive(r, s);
  }

  lemma NamesHead(s: Stack)
    ensures s.Cache? ==> Names(s) == [s.best] + Names(s.base) && |Names(s)| > 0
  {
  }

  lemma PushingRefines(s: Stack)
    requires Inv(s) && Allowed(s, Pushing)
    ensures Refines(s, Pushing)
  {
    var r := Cache(s, map[], NULL_HASH, None);
    SameLive(r, s);
    ViewsHead(s);
    ViewsHead(r);
  }

  lemma PoppingRefines(s: Stack)
    requires Inv(s) && Allowed(s, Popping)
    ensures Refines(s, Popping)
  {
    ViewsHead(s);
    assert Names(s)[1..] == Names(s.base);
  }

  lemma StepRefines(s: Stack, op: Op)
    requires Inv(s) && Allowed(s, op)
    ensures Refines(s, op)
  {
    match op
    case At(d, q) => QuietRefines(s, d, q);
    case SettingBest(h) => SettingBestRefines(s, h);
    case Pushing => PushingRefines(s);
    case Popping => PoppingRefines(s);
    case Modifying(k) => ModifyingRefines(s, k);
    case ModifyingNew(k, coinbase) => ModifyingNewRefines(s, k, coinbase);
    case Writing(c) => WritingRefines(s, c);
    case Closing => ClosingRefines(s);
  }

  /** Every step of the run is one the source's callers may take. */
  ghost predicate AllowedRun(s: Stack, ops: seq<Op>)
    decreases |ops|
  {
    |ops| > 0 ==> Allowed(s, ops[0]) && (Step(s, ops[0]).Some? ==> AllowedRun(Step(s, ops[0]).value, ops[1..]))
  }

  ghost function Run(s: Stack, ops: seq<Op>): (r: Option<Stack>)
    requires AllowedRun(s, ops)
    decreases |ops|
  {
    if |ops| == 0 then Some(s)
    else match Step(s, ops[0])
      case None => None
      case Some(s1) => Run(s1, ops[1..])
  }

  predicate PlainAllowedRun(p: Plain, ops: seq<Op>)
    decreases |ops|
  {
    |ops| > 0 ==> PlainAllowed(p, ops[0]) && PlainAllowedRun(PlainStep(p, ops[0]), ops[1..])
  }

  function PlainRun(p: Plain, ops: seq<Op>): Plain
    requires PlainAllowedRun(p, ops)
    decreases |ops|
  {
    if |ops| == 0 then p else PlainRun(PlainStep(p, ops[0]), ops[1..])
  }

  /** Layer d from the top. */
  function Layer(s: Stack, d: nat): Stack
    requires d <= Depth(s)
  {
    if d == 0 then s else Layer(s.base, d - 1)
  }

  /** What a layer shows, and the best block it answers with, are those of the plain model. */
  lemma {:induction false} LayerShows(s: Stack, d: nat)
    requires d <= Depth(s)
    ensures View(Layer(s, d)) == Abs(s).levels[d] && Best(Layer(s, d)) == Answer(Abs(s).names[d..])
  {
    ViewsHead(s);
    NamesHead(s);
    hide View, Views, Names, Best, Answer;
    if d > 0 {
      LayerShows(s.base, d - 1);
      assert Names(s)[d..] == Names(s.base)[d - 1..];
    } else {
      BestIsAnswer(s);
      assert Names(s)[0..] == Names(s);
    }
  }

  /** Main theorem. No run of allowed steps throws, all keep the invariant at every layer,
      and every layer always shows exactly the plain map of the reference run and answers with its best block. */
  lemma {:induction false} RunRefines(s: Stack, ops: seq<Op>)
    requires Inv(s) && AllowedRun(s, ops)
    ensures Run(s, ops).Some? && Inv(Run(s, ops).value)
    ensures PlainAllowedRun(Abs(s), ops)
    ensures Abs(Run(s, ops).value) == PlainRun(Abs(s), ops)
    ensures forall d :: 0 <= d <= Depth(Run(s, ops).value) ==>
              && View(Layer(Run(s, ops).value, d)) == PlainRun(Abs(s), ops).levels[d]
              && Best(Layer(Run(s, ops).value, d)) == Answer(PlainRun(Abs(s), ops).names[d..])
    decreases |ops|
  {
    if |ops| > 0 {
      StepRefines(s, ops[0]);
      RunRefines(Step(s, ops[0]).value, ops[1..]);
    } else {
      forall d | 0 <= d <= Depth(s)
        ensures View(Layer(s, d)) == Abs(s).levels[d] && Best(Layer(s, d)) == Answer(Abs(s).names[d..])
      {
        LayerShows(s, d);
      }
    }
  }
}
