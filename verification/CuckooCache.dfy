/** CuckooCache::cache: a lossy set with lazy erasure, eight places per element and two epochs. */
module CuckooCache {
  import opened Powers

  type Element = int

  const NUM_LOCS := 8

  // ---------------------------------------------------------------- what a table holds

  /** The kept elements: those whose slot is not up for collection. */
  function Kept(table: seq<Element>, collected: seq<bool>): multiset<Element>
    requires |table| == |collected|
    decreases |table|
  {
    if table == [] then multiset{}
    else
      var n := |table| - 1;
      Kept(table[..n], collected[..n]) + Held(!collected[n], table[n])
  }

  /** The number of kept elements of the current epoch. */
  function Live(epoch: seq<bool>, collected: seq<bool>): nat
    requires |epoch| == |collected|
    decreases |epoch|
  {
    if epoch == [] then 0
    else
      var n := |epoch| - 1;
      Live(epoch[..n], collected[..n]) + One(epoch[n] && !collected[n])
  }

  function Max(a: int, b: int): int { if a < b then b else a }

  function One(b: bool): nat { if b then 1 else 0 }

  function Held(keep: bool, e: Element): multiset<Element> { if keep then multiset{e} else multiset{} }

  /** Rewriting one slot. */
  lemma {:induction false} KeptUpdate(table: seq<Element>, collected: seq<bool>, i: nat, e: Element, c: bool)
    requires |table| == |collected| && i < |table|
    ensures Kept(table[i := e], collected[i := c]) + Held(!collected[i], table[i]) ==
              Kept(table, collected) + Held(!c, e)
    decreases |table|
  {
    hide Held, Kept;
    var n := |table| - 1;
    var t, f := table[i := e], collected[i := c];
    KeptLast(table, collected);
    KeptLast(t, f);
    if i == n {
      assert t[..n] == table[..n] && f[..n] == collected[..n];
      Swap(Kept(table[..n], collected[..n]), Held(!c, e), Held(!collected[i], table[i]));
    } else {
      assert t[..n] == table[..n][i := e] && f[..n] == collected[..n][i := c];
      KeptUpdate(table[..n], collected[..n], i, e, c);
      AddBoth(Kept(t[..n], f[..n]), Kept(table[..n], collected[..n]),
              Held(!collected[i], table[i]), Held(!c, e), Held(!collected[n], table[n]));
    }
  }

  lemma KeptLast(table: seq<Element>, collected: seq<bool>)
    requires |table| == |collected| > 0
    ensures var n := |table| - 1;
            Kept(table, collected) == Kept(table[..n], collected[..n]) + Held(!collected[n], table[n])
  {
  }

  lemma Swap(a: multiset<Element>, b: multiset<Element>, c: multiset<Element>)
    ensures a + b + c == a + c + b
  {
  }

  lemma AddBoth(a: multiset<Element>, b: multiset<Element>, c: multiset<Element>, d: multiset<Element>,
                x: multiset<Element>)
    requires a + c == b + d
    ensures a + x + c == b + x + d
  {
    forall z ensures (a + x + c)[z] == (b + x + d)[z] {
      assert (a + c)[z] == (b + d)[z];
    }
  }

  lemma {:induction false} LiveUpdate(epoch: seq<bool>, collected: seq<bool>, i: nat, e: bool, c: bool)
    requires |epoch| == |collected| && i < |epoch|
    ensures Live(epoch[i := e], collected[i := c]) + One(epoch[i] && !collected[i]) ==
              Live(epoch, collected) + One(e && !c)
    decreases |epoch|
  {
    var n := |epoch| - 1;
    var t, f := epoch[i := e], collected[i := c];
    if i == n {
      assert t[..n] == epoch[..n] && f[..n] == collected[..n];
    } else {
      assert t[..n] == epoch[..n][i := e] && f[..n] == collected[..n][i := c];
      LiveUpdate(epoch[..n], collected[..n], i, e, c);
    }
  }

  lemma {:induction false} LiveNone(epoch: seq<bool>, collected: seq<bool>)
    requires |epoch| == |collected| && forall i :: 0 <= i < |epoch| ==> !epoch[i] || collected[i]
    ensures Live(epoch, collected) == 0
    decreases |epoch|
  {
    if epoch != [] {
      LiveNone(epoch[..|epoch| - 1], collected[..|epoch| - 1]);
    }
  }

  lemma {:induction false} KeptNone(table: seq<Element>, collected: seq<bool>)
    requires |table| == |collected| && forall i :: 0 <= i < |table| ==> collected[i]
    ensures Kept(table, collected) == multiset{}
    decreases |table|
  {
    if table != [] {
      KeptNone(table[..|table| - 1], collected[..|table| - 1]);
    }
  }

  // ---------------------------------------------------------------- the cache

  class Cache {
    const size: nat
    const depthLimit: nat
    const epochSize: nat
    const hash: (int, Element) -> nat
    var table: seq<Element>
    var collected: seq<bool>
    var epoch: seq<bool>
    var counter: nat           // epoch_heuristic_counter

    /** 45 percent of the slots, in 32 bits. */
    static function PerEpoch(n: nat): (r: nat)
      ensures r >= 1 && (100 <= 45 * n < 0x1_0000_0000 ==> 0 <= 45 * n - 100 * r < 100)
    {
      Max(1, 45 * n % 0x1_0000_0000 / 100)
    }

    /** setup: a power of two, all slots collected. */
    constructor (depth: nat, hash: (int, Element) -> nat, blank: Element)
      requires depth >= 1
      ensures Valid() && size == Pow2(depth) && depthLimit == depth && this.hash == hash
      ensures Kept(table, collected) == multiset{} && forall i :: 0 <= i < size ==> collected[i]
      ensures counter == epochSize && (100 <= 45 * size < 0x1_0000_0000 ==> 0 <= 45 * size - 100 * epochSize < 100)
    {
      var n := Pow2(depth);
      size, depthLimit, this.hash := n, depth, hash;
      table := seq(n, _ => blank);
      collected := seq(n, _ => true);
      epoch := seq(n, _ => false);
      var perEpoch := PerEpoch(n);
      epochSize, counter := perEpoch, perEpoch;
      new;
      hide PerEpoch, Pow2;
      LiveNone(epoch, collected);
      KeptNone(table, collected);
    }

    /** The eight places of an element. The size is a power of two, so that masking is a remainder. */
    function Locs(e: Element): (r: seq<nat>)
      requires size > 0
      ensures |r| == NUM_LOCS && forall k :: 0 <= k < NUM_LOCS ==> r[k] < size
    {
      seq(NUM_LOCS, k => hash(k, e) % size)
    }

    lemma LocsAre(e: Element, k: nat)
      requires size > 0 && k < 8
      ensures |Locs(e)| == 8 && Locs(e)[k] == hash(k, e) % size
    {
    }

    function Bound(): nat {
      epochSize + Max(1, epochSize / 16)
    }

    ghost predicate Shape()
      reads this
    {
      |table| == |collected| == |epoch| == size > 0 && epochSize >= 1 && depthLimit >= 1
    }

    /** Every kept element is in one of its places. */
    ghost predicate Placed()
      requires Shape()
      reads this
    {
      forall i :: 0 <= i < size && !collected[i] ==> i in Locs(table[i])
    }

    /** Kept elements are in their places, and the current epoch cannot outgrow its bound before the next scan. */
    ghost predicate Valid()
      reads this
    {
      Shape() && Placed() && Live(epoch, collected) + counter <= Bound()
    }

    // -------------------------------------------------------------- epochs

    /** epoch_check: erases nothing or the whole older epoch. Leaves room for one insertion. */
    method EpochCheck()
      requires Valid()
      modifies this`collected, this`epoch, this`counter
      ensures Shape() && Placed() && Live(epoch, collected) + 1 + counter <= Bound()
      ensures forall i :: 0 <= i < size && old(collected[i]) ==> collected[i]
      ensures if old(counter) == 0 && old(Live(epoch, collected)) >= epochSize
              then Live(epoch, collected) == 0 && counter == epochSize && forall i :: 0 <= i < size ==>
                     (collected[i] <==> old(collected[i]) || !old(epoch[i])) && !epoch[i]
              else collected == old(collected) && epoch == old(epoch)
      ensures old(counter) > 0 ==> counter == old(counter) - 1
      ensures old(counter) == 0 && old(Live(epoch, collected)) < epochSize ==>
                counter == Max(1, Max(epochSize / 16, epochSize - old(Live(epoch, collected))))
    {
      if counter != 0 {
        counter := counter - 1;
        return;
      }
      var unused := 0;
      for i := 0 to size
        invariant unused == Live(epoch[..i], collected[..i])
      {
        assert epoch[..i + 1][..i] == epoch[..i] && collected[..i + 1][..i] == collected[..i];
        if epoch[i] && !collected[i] {
          unused := unused + 1;
        }
      }
      assert epoch[..size] == epoch && collected[..size] == collected;
      if unused >= epochSize {
        Age();
        LiveNone(epoch, collected);
        counter := epochSize;
      } else {
        counter := Max(1, Max(epochSize / 16, epochSize - unused));
      }
    }

    /** The older epoch is given up, the current one becomes the older. */
    method Age()
      requires Shape() && Placed()
      modifies this`collected, this`epoch
      ensures Shape() && Placed()
      ensures forall i :: 0 <= i < size ==> (collected[i] <==> old(collected[i]) || !old(epoch[i])) && !epoch[i]
    {
      for i := 0 to size
        invariant Shape()
        invariant forall j :: 0 <= j < i ==> (collected[j] <==> old(collected[j]) || !old(epoch[j])) && !epoch[j]
        invariant forall j :: i <= j < size ==> collected[j] == old(collected[j]) && epoch[j] == old(epoch[j])
      {
        if epoch[i] {
          epoch := epoch[i := false];
        } else {
          collected := collected[i := true];
        }
      }
    }

    // -------------------------------------------------------------- inserting

    /** Rewrite one slot with an element in one of its places. */
    method Store(loc: nat, e: Element, isCurrent: bool)
      requires Shape() && Placed() && loc < size && loc in Locs(e)
      modifies this`table, this`collected, this`epoch
      ensures Shape() && Placed()
      ensures table == old(table)[loc := e] && collected == old(collected)[loc := false]
      ensures epoch == old(epoch)[loc := isCurrent]
      ensures Kept(table, collected) + Held(!old(collected[loc]), old(table[loc])) ==
                old(Kept(table, collected)) + multiset{e}
      ensures Live(epoch, collected) + One(old(epoch[loc]) && !old(collected[loc])) ==
                old(Live(epoch, collected)) + One(isCurrent)
    {
      hide Kept, Live, Locs;
      KeptUpdate(table, collected, loc, e, false);
      LiveUpdate(epoch, collected, loc, isCurrent, false);
      table, collected, epoch := table[loc := e], collected[loc := false], epoch[loc := isCurrent];
    }

    /** One of the element's places is up for collection. */
    predicate HasRoom(e: Element, c: seq<bool>)
      requires size > 0 && |c| == size
    {
      exists k :: 0 <= k < NUM_LOCS && c[Locs(e)[k]]
    }

    /** insert. What is kept after the epoch check is kept, together with the new element, except for at most one. */
    method Insert(e: Element) returns (ghost before: multiset<Element>, ghost added: multiset<Element>,
                  ghost dropped: multiset<Element>)
      requires Valid()
      modifies this
      ensures Valid() && |dropped| <= 1 && Kept(table, collected) + dropped == before + added
      ensures added == multiset{e} || (added == multiset{} && e in before)
      ensures old(HasRoom(e, collected)) ==> dropped == multiset{}
      ensures before <= old(Kept(table, collected))
      ensures before == old(Kept(table, collected)) || old(Live(epoch, collected)) >= epochSize
      ensures dropped == multiset{} && added == multiset{e} ==>
                Live(epoch, collected) == 1 || Live(epoch, collected) == old(Live(epoch, collected)) + 1
      ensures added == multiset{} ==> table == old(table) && Fresh(e)
      ensures old(Listed(e)) ==> dropped == multiset{} && table == old(table) && Fresh(e)
    {
      hide Kept, Live;
      EpochCheck();
      KeptShrinks(table, old(collected), collected);
      RoomGrows(e, old(collected), collected);
      before := Kept(table, collected);
      added, dropped := InsertNow(e);
    }

    /** The element is kept and of the current epoch. */
    ghost predicate Fresh(e: Element)
      requires Shape()
      reads this
    {
      exists k :: 0 <= k < NUM_LOCS && IsAt(e, Locs(e)[k]) && epoch[Locs(e)[k]]
    }

    /** The element is in one of its places, collected or not. */
    ghost predicate Listed(e: Element)
      requires Shape()
      reads this
    {
      exists k :: 0 <= k < NUM_LOCS && table[Locs(e)[k]] == e
    }

    /** The element was in one of its places; that slot is kept now and of the current epoch. */
    ghost predicate Renewed(e: Element, t: seq<Element>, c: seq<bool>, p: seq<bool>)
      requires Shape() && |t| == |c| == |p| == size
      reads this
    {
      exists k :: 0 <= k < NUM_LOCS && t[Locs(e)[k]] == e && Written(t, c, p, Locs(e)[k], e, true)
    }

    ghost predicate IsAt(e: Element, loc: nat)
      requires Shape() && loc < size
      reads this
    {
      table[loc] == e && !collected[loc]
    }

    method InsertNow(e: Element) returns (ghost added: multiset<Element>, ghost dropped: multiset<Element>)
      requires Shape() && Placed() && Live(epoch, collected) + 1 + counter <= Bound()
      modifies this`table, this`collected, this`epoch
      ensures Valid() && |dropped| <= 1 && Kept(table, collected) + dropped == old(Kept(table, collected)) + added
      ensures old(HasRoom(e, collected)) ==> dropped == multiset{}
      ensures added == multiset{e} || (added == multiset{} && e in old(Kept(table, collected)))
      ensures dropped == multiset{} && added == multiset{e} ==>
                Live(epoch, collected) == old(Live(epoch, collected)) + 1
      ensures added == multiset{} ==> table == old(table) && Fresh(e)
      ensures old(Listed(e)) ==>
                dropped == multiset{} && table == old(table) && Renewed(e, old(table), old(collected), old(epoch))
    {
      hide Kept, Live;
      added, dropped := multiset{e}, multiset{};
      var locs := Locs(e);
      for k := 0 to NUM_LOCS
        invariant table == old(table) && collected == old(collected) && epoch == old(epoch)
        invariant forall j :: 0 <= j < k ==> table[locs[j]] != e
      {
        var loc := locs[k];
        if table[loc] == e {
          Store(loc, e, true);
          assert IsAt(e, Locs(e)[k]) && epoch[Locs(e)[k]] && old(table) == table;
          if !old(collected[loc]) {
            added := multiset{};
            KeptMember(old(table), old(collected), loc);
            Cancel(Kept(table, collected), old(Kept(table, collected)), multiset{e});
          }
          return;
        }
      }
      dropped := Cuckoo(e);
    }

    /** The table, up to the slot of x, is what it was; x is now in one of its places that was up for collection. */
    ghost predicate Settled(x: Element, isCurrent: bool, t: seq<Element>, c: seq<bool>, p: seq<bool>)
      requires Shape() && |t| == |c| == |p| == size
      reads this
    {
      exists k :: 0 <= k < NUM_LOCS && c[Locs(x)[k]] && Written(t, c, p, Locs(x)[k], x, isCurrent)
    }

    /** Slot loc, and nothing else, was rewritten. */
    ghost predicate Written(t: seq<Element>, c: seq<bool>, p: seq<bool>, loc: nat, x: Element, isCurrent: bool)
      requires |t| == |c| == |p| == size && loc < size
      reads this
    {
      table == t[loc := x] && collected == c[loc := false] && epoch == p[loc := isCurrent]
    }

    /** The place an element takes if none of its places is up for collection: the second one, although a comment
        in the source promises the first. */
    function FirstChoice(e: Element): (loc: nat)
      requires size > 0
      ensures loc < size
    {
      Locs(e)[1]
    }

    /** Move elements on until one finds a collected slot or the tries run out. An element without room takes its
        first choice, and with two tries or more nothing is lost if the element that was there has room itself. */
    method Cuckoo(e: Element) returns (ghost dropped: multiset<Element>)
      requires Shape() && Placed() && Live(epoch, collected) + 1 + counter <= Bound()
      modifies this`table, this`collected, this`epoch
      ensures Valid() && |dropped| <= 1 && Kept(table, collected) + dropped == old(Kept(table, collected)) + multiset{e}
      ensures dropped == multiset{} ==> Live(epoch, collected) == old(Live(epoch, collected)) + 1
      ensures old(HasRoom(e, collected)) ==>
                dropped == multiset{} && Settled(e, true, old(table), old(collected), old(epoch))
      ensures !old(HasRoom(e, collected)) && depthLimit == 1 ==>
                dropped == multiset{old(table)[FirstChoice(e)]} &&
                Written(old(table), old(collected), old(epoch), FirstChoice(e), e, true)
      ensures !old(HasRoom(e, collected)) && depthLimit >= 2 && HasRoom(old(table)[FirstChoice(e)], old(collected)) ==>
                var loc := FirstChoice(e);
                dropped == multiset{} && Settled(old(table)[loc], old(epoch)[loc], old(table)[loc := e],
                                                 old(collected)[loc := false], old(epoch)[loc := true])
    {
      hide Kept, Live, Locs, FirstChoice, HasRoom, Settled, Placed;
      var hand, lastEpoch, lastLoc: int := e, true, -1;  // no slot
      ghost var next := FirstChoice(e);
      for depth := 0 to depthLimit
        invariant Shape() && Placed()
        invariant Kept(table, collected) + multiset{hand} == old(Kept(table, collected)) + multiset{e}
        invariant Live(epoch, collected) + One(lastEpoch) == old(Live(epoch, collected)) + 1
        invariant depth == 0 ==> hand == e && lastEpoch && lastLoc == -1 && unchanged(this)
        invariant depth > 0 ==> !old(HasRoom(e, collected))
        invariant depth == 1 ==>
                    && hand == old(table)[next] && lastEpoch == old(epoch)[next]
                    && table == old(table)[next := e] && epoch == old(epoch)[next := true]
                    && collected == old(collected)[next := false] == old(collected)
        invariant depth > 1 ==> !HasRoom(old(table)[next], old(collected))
      {
        var settled;
        settled, lastLoc, hand, lastEpoch := Place(hand, lastEpoch, lastLoc);
        if settled {
          return multiset{};
        }
      }
      dropped := multiset{hand};
    }

    /** One try: into a slot up for collection, or into the place after the last one looked at. */
    method Place(hand: Element, isCurrent: bool, lastLoc: int)
      returns (settled: bool, loc: nat, evicted: Element, evictedEpoch: bool)
      requires Shape() && Placed()
      modifies this`table, this`collected, this`epoch
      ensures Shape() && Placed() && loc < size && (settled <==> old(HasRoom(hand, collected)))
      ensures Written(old(table), old(collected), old(epoch), loc, hand, isCurrent)
      ensures settled ==> Settled(hand, isCurrent, old(table), old(collected), old(epoch))
      ensures !settled ==> !old(collected)[loc] && loc in Locs(hand)
      ensures !settled && lastLoc !in Locs(hand) ==> loc == FirstChoice(hand)
      ensures !settled ==> forall k :: 0 <= k < NUM_LOCS && Locs(hand)[k] == lastLoc && lastLoc !in Locs(hand)[..k] ==>
                loc == Locs(hand)[if k == NUM_LOCS - 1 then 0 else k + 1]
      ensures evicted == old(table)[loc] && evictedEpoch == old(epoch)[loc]
      ensures Kept(table, collected) + Held(!settled, evicted) == old(Kept(table, collected)) + multiset{hand}
      ensures Live(epoch, collected) + One(!settled && evictedEpoch) == old(Live(epoch, collected)) + One(isCurrent)
    {
      hide Kept, Live, Locs;
      var locs := Locs(hand);
      var free := FreeSlot(locs);
      settled := free < NUM_LOCS;
      if settled {
        loc := locs[free];
      } else {
        var k := IndexOf(locs, lastLoc);
        loc := locs[(1 + k) % NUM_LOCS];
      }
      evicted, evictedEpoch := table[loc], epoch[loc];
      Store(loc, hand, isCurrent);
    }

    lemma RoomGrows(e: Element, c: seq<bool>, d: seq<bool>)
      requires size > 0 && |c| == |d| == size && forall i :: 0 <= i < size && c[i] ==> d[i]
      ensures HasRoom(e, c) ==> HasRoom(e, d)
    {
      if HasRoom(e, c) {
        var k :| 0 <= k < NUM_LOCS && c[Locs(e)[k]];
        assert d[Locs(e)[k]];
      }
    }

    /** The first of these slots that is collected, or eight. */
    method FreeSlot(locs: seq<nat>) returns (k: nat)
      requires Shape() && |locs| == NUM_LOCS && forall j :: 0 <= j < NUM_LOCS ==> locs[j] < size
      ensures k <= NUM_LOCS && (k < NUM_LOCS ==> collected[locs[k]]) && forall j :: 0 <= j < k ==> !collected[locs[j]]
    {
      k := 0;
      while k < NUM_LOCS && !collected[locs[k]]
        invariant 0 <= k <= NUM_LOCS && forall j :: 0 <= j < k ==> !collected[locs[j]]
      {
        k := k + 1;
      }
    }

    /** The first position of a slot, or eight. */
    method IndexOf(locs: seq<nat>, loc: int) returns (k: nat)
      requires |locs| == NUM_LOCS
      ensures k <= NUM_LOCS && (k < NUM_LOCS ==> locs[k] == loc) && forall j :: 0 <= j < k ==> locs[j] != loc
    {
      k := 0;
      while k < NUM_LOCS && locs[k] != loc
        invariant 0 <= k <= NUM_LOCS && forall j :: 0 <= j < k ==> locs[j] != loc
      {
        k := k + 1;
      }
    }

    /** contains: whether the element is in one of its places, collected or not; on request it is given up. */
    method Contains(e: Element, erase: bool) returns (found: bool)
      requires Valid()
      modifies this`collected
      ensures Valid() && (found <==> exists k :: 0 <= k < NUM_LOCS && table[Locs(e)[k]] == e)
      ensures !(found && erase) ==> collected == old(collected)
      ensures found && erase ==>
                exists k :: 0 <= k < NUM_LOCS && table[Locs(e)[k]] == e &&
                            collected == old(collected)[Locs(e)[k] := true]
    {
      hide Live;
      var locs := Locs(e);
      for k := 0 to NUM_LOCS
        invariant collected == old(collected) && forall j :: 0 <= j < k ==> table[locs[j]] != e
      {
        if table[locs[k]] == e {
          if erase {
            LiveUpdate(epoch, collected, locs[k], epoch[locs[k]], true);
            collected := collected[locs[k] := true];
            assert epoch[locs[k] := epoch[locs[k]]] == epoch;
          }
          return true;
        }
      }
      found := false;
    }
  }

  lemma {:induction false} KeptMember(table: seq<Element>, collected: seq<bool>, i: nat)
    requires |table| == |collected| && i < |table| && !collected[i]
    ensures table[i] in Kept(table, collected)
    decreases |table|
  {
    var n := |table| - 1;
    if i < n {
      KeptMember(table[..n], collected[..n], i);
    }
  }

  lemma {:induction false} KeptShrinks(table: seq<Element>, c: seq<bool>, d: seq<bool>)
    requires |table| == |c| == |d| && forall i :: 0 <= i < |c| && c[i] ==> d[i]
    ensures Kept(table, d) <= Kept(table, c)
    decreases |table|
  {
    if table != [] {
      var n := |table| - 1;
      KeptShrinks(table[..n], c[..n], d[..n]);
      KeptLast(table, c);
      KeptLast(table, d);
      hide Kept;
    }
  }

  lemma Cancel(a: multiset<Element>, b: multiset<Element>, x: multiset<Element>)
    requires a + x == b + x
    ensures a == b
  {
    assert a == (a + x) - x && b == (b + x) - x;
  }

  /** A kept element is found: it is in one of its places. */
  lemma {:induction false} KeptIsPlaced(c: Cache, x: Element)
    requires c.Valid() && x in Kept(c.table, c.collected)
    ensures exists k :: 0 <= k < NUM_LOCS && c.table[c.Locs(x)[k]] == x
  {
    var i := KeptSlot(c.table, c.collected, x);
    assert i in c.Locs(x);
    var k :| 0 <= k < NUM_LOCS && c.Locs(x)[k] == i;
  }

  lemma {:induction false} KeptSlot(table: seq<Element>, collected: seq<bool>, x: Element) returns (i: nat)
    requires |table| == |collected| && x in Kept(table, collected)
    ensures i < |table| && table[i] == x && !collected[i]
    decreases |table|
  {
    var n := |table| - 1;
    if !collected[n] && table[n] == x {
      i := n;
    } else {
      i := KeptSlot(table[..n], collected[..n], x);
    }
  }
}
