/** CRollingBloomFilter: remembers at least the last nElements keys. */
module RollingBloom {
  import opened BitPlanes
  import opened Powers

  type Key = int

  /** A cell of the filter: a pair of words and a bit. */
  datatype Cell = Cell(pair: nat, bit: nat)

  /** What decides where keys go: 32-bit hashes by function number and tweak, the number of words, the number of
      hash functions, and the insertions in a generation. */
  datatype Layout = Layout(hash: (int, int, Key) -> nat, tweak: int, words: nat, funcs: nat, per: nat)

  predicate Proper(l: Layout) {
    l.words > 0 && l.words % 2 == 0 && l.per > 0
  }

  /** Where hash function n puts a key. */
  function CellOf(l: Layout, n: int, key: Key): (c: Cell)
    requires Proper(l)
    ensures c.bit < 64 && 2 * c.pair + 1 < l.words
  {
    var h := l.hash(n, l.tweak, key);
    Cell(h / 64 % l.words / 2, h % 64)
  }

  // ---------------------------------------------------------------- which insertion wrote a cell last

  predicate Hits(l: Layout, key: Key, funcs: nat, c: Cell)
    requires Proper(l)
  {
    exists n :: 0 <= n < funcs && CellOf(l, n, key) == c
  }

  /** The epoch, of `per` insertions each, in which the cell was written last, or -1. */
  function LastEpoch(l: Layout, history: seq<Key>, c: Cell): int
    requires Proper(l)
    decreases |history|
  {
    if history == [] then -1
    else
      var n := |history| - 1;
      if Hits(l, history[n], l.funcs, c) then n / l.per else LastEpoch(l, history[..n], c)
  }

  /** The epoch of the latest of n insertions. */
  function Current(n: nat, per: nat): nat
    requires per > 0
  {
    if n == 0 then 0 else
      DivMonotone(0, n - 1, per);
      (n - 1) / per
  }

  lemma {:induction false} LastEpochRange(l: Layout, history: seq<Key>, c: Cell)
    requires Proper(l)
    ensures -1 <= LastEpoch(l, history, c) <= Current(|history|, l.per)
    ensures history == [] ==> LastEpoch(l, history, c) == -1
    decreases |history|
  {
    var n := |history| - 1;
    if n >= 0 {
      DivMonotone(0, n, l.per);
      if !Hits(l, history[n], l.funcs, c) {
        LastEpochRange(l, history[..n], c);
        if n > 0 {
          DivMonotone(n - 1, n, l.per);
        }
      }
    }
  }

  /** A key's cells are written no earlier than with the key. */
  lemma {:induction false} LastEpochOf(l: Layout, history: seq<Key>, t: nat, c: Cell)
    requires Proper(l) && t < |history| && Hits(l, history[t], l.funcs, c)
    ensures LastEpoch(l, history, c) >= t / l.per
    decreases |history|
  {
    var n := |history| - 1;
    if Hits(l, history[n], l.funcs, c) {
      DivMonotone(t, n, l.per);
    } else {
      LastEpochOf(l, history[..n], t, c);
    }
  }

  /** The tag a cell must have: its last epoch's generation, if that is one of the current three. */
  function ExpectedTag(last: int, current: int): int {
    if last >= 0 && last >= current - 2 then last % 3 + 1 else 0
  }

  /** When an epoch begins, the wipe removes the epoch three before and nothing younger. */
  lemma WipeExpected(last: int, current: int)
    requires -1 <= last <= current && 0 <= current
    ensures ExpectedTag(last, current + 1) ==
            if ExpectedTag(last, current) == (current + 1) % 3 + 1 then 0 else ExpectedTag(last, current)
  {
  }

  // ---------------------------------------------------------------- the words

  function TagAt(d: seq<Word>, c: Cell): int
    requires 2 * c.pair + 1 < |d| && c.bit < 64
  {
    Tag(d[2 * c.pair], d[2 * c.pair + 1], c.bit)
  }

  predicate InRange(words: nat, c: Cell) {
    2 * c.pair + 1 < words && c.bit < 64
  }

  /** The tags are those of the epochs, up to the current one. */
  ghost predicate Tagged(l: Layout, d: seq<Word>, history: seq<Key>, current: int)
    requires Proper(l) && |d| == l.words
  {
    forall c :: InRange(l.words, c) ==> TagAt(d, c) == ExpectedTag(LastEpoch(l, history, c), current)
  }

  /** d is e after the cells of generation g were wiped. */
  ghost predicate WipedOf(d: seq<Word>, e: seq<Word>, g: int)
    requires |d| == |e|
  {
    forall c :: InRange(|d|, c) ==> TagAt(d, c) == if TagAt(e, c) == g then 0 else TagAt(e, c)
  }

  /** d is e after the cells of a key's first n functions were set to generation g. */
  ghost predicate MarkedOf(l: Layout, d: seq<Word>, e: seq<Word>, key: Key, n: nat, g: int)
    requires Proper(l) && |d| == |e| == l.words
  {
    forall c :: InRange(l.words, c) ==> TagAt(d, c) == if Hits(l, key, n, c) then g else TagAt(e, c)
  }

  /** The two planes of an epoch's wipe keep the tags right. */
  lemma WipedTagged(l: Layout, d: seq<Word>, e: seq<Word>, history: seq<Key>)
    requires Proper(l) && |d| == |e| == l.words
    requires Tagged(l, e, history, Current(|history|, l.per))
    requires WipedOf(d, e, (Current(|history|, l.per) + 1) % 3 + 1)
    ensures Tagged(l, d, history, Current(|history|, l.per) + 1)
  {
    var current := Current(|history|, l.per);
    forall c | InRange(l.words, c) ensures TagAt(d, c) == ExpectedTag(LastEpoch(l, history, c), current + 1) {
      LastEpochRange(l, history, c);
      WipeExpected(LastEpoch(l, history, c), current);
      hide *;
    }
  }

  lemma MarkedTagged(l: Layout, d: seq<Word>, e: seq<Word>, history: seq<Key>, key: Key)
    requires Proper(l) && |d| == |e| == l.words
    requires Tagged(l, e, history, |history| / l.per)
    requires MarkedOf(l, d, e, key, l.funcs, |history| / l.per % 3 + 1)
    ensures Tagged(l, d, history + [key], |history| / l.per)
  {
    var all := history + [key];
    assert all[..|history|] == history;
    DivMonotone(0, |history|, l.per);
    forall c | InRange(l.words, c) ensures TagAt(d, c) == ExpectedTag(LastEpoch(l, all, c), |history| / l.per) {
      hide TagAt, InRange, Hits;
    }
  }

  // ---------------------------------------------------------------- the filter

  class RollingBloomFilter {
    const nElements: nat
    const nEntriesPerGeneration: nat
    const nHashFuncs: nat
    const hash: (int, int, Key) -> nat
    const data: array<Word>
    var nEntriesThisGeneration: nat
    var nGeneration: int
    var nTweak: int
    ghost var history: seq<Key>  // what was inserted since the last reset

    /** The number of filter bits comes from the false positive rate. */
    constructor (nElements: nat, hashFuncs: nat, filterBits: nat, hash: (int, int, Key) -> nat, tweak: int)
      requires nElements > 0 && 1 <= hashFuncs <= 50 && filterBits > 0
      ensures Valid() && history == [] && fresh(data) && this.nElements == nElements
    {
      this.nElements, nHashFuncs, this.hash := nElements, hashFuncs, hash;
      nEntriesPerGeneration := (nElements + 1) / 2;
      data := new Word[(filterBits + 63) / 64 * 2](_ => Zero());
      nTweak, nEntriesThisGeneration, nGeneration, history := tweak, 0, 1, [];
    }

    function CurrentLayout(): Layout
      reads this`nTweak
    {
      Layout(hash, nTweak, data.Length, nHashFuncs, nEntriesPerGeneration)
    }

    /** Generations count epochs of insertions, and the tags are those of the last three. */
    ghost predicate Valid()
      reads this, data
    {
      && Proper(CurrentLayout()) && nElements <= 2 * nEntriesPerGeneration
      && Counted(|history|, nEntriesPerGeneration, nEntriesThisGeneration, nGeneration)
      && Tagged(CurrentLayout(), data[..], history, Current(|history|, nEntriesPerGeneration))
    }

    method Reset(tweak: int)
      requires Valid()
      modifies this, data
      ensures Valid() && history == []
    {
      nTweak, nEntriesThisGeneration, nGeneration, history := tweak, 0, 1, [];
      for i := 0 to data.Length
        invariant forall j :: 0 <= j < i ==> data[j] == Zero()
        modifies data
      {
        data[i] := Zero();
      }
    }

    method Insert(key: Key)
      requires Valid()
      modifies this, data
      ensures Valid() && history == old(history) + [key] && nTweak == old(nTweak)
    {
      hide Tagged, WipedOf, MarkedOf, Current, Hits;
      ghost var l, n := CurrentLayout(), |history|;
      CountNext(n, nEntriesPerGeneration, nEntriesThisGeneration, nGeneration);
      if nEntriesThisGeneration == nEntriesPerGeneration {
        nEntriesThisGeneration := 0;
        nGeneration := nGeneration + 1;
        if nGeneration == 4 {
          nGeneration := 1;
        }
        ghost var before := data[..];
        Wipe();
        WipedTagged(l, data[..], before, history);
      }
      nEntriesThisGeneration := nEntriesThisGeneration + 1;
      ghost var wiped := data[..];
      Mark(key);
      MarkedTagged(l, data[..], wiped, history, key);
      history := history + [key];
    }

    /** Wipe old entries that used this generation number. */
    method Wipe()
      requires data.Length % 2 == 0 && 1 <= nGeneration < 4
      modifies data
      ensures WipedOf(data[..], old(data[..]), nGeneration)
    {
      ghost var e := data[..];
      var p := 0;
      while p < data.Length
        invariant 0 <= p <= data.Length && p % 2 == 0
        invariant forall i :: p <= i < data.Length ==> data[i] == e[i]
        invariant forall c :: InRange(p, c) ==>
                    TagAt(data[..], c) == if TagAt(e, c) == nGeneration then 0 else TagAt(e, c)
        decreases data.Length - p
        modifies data
      {
        ghost var d := data[..];
        var p1, p2 := data[p], data[p + 1];
        var mask := WipeMask(p1, p2, nGeneration);
        data[p] := And(p1, mask);
        data[p + 1] := And(p2, mask);
        WipeStep(e, d, data[..], p, nGeneration);
        p := p + 2;
      }
    }

    /** Set the key's cells to the current generation. */
    method Mark(key: Key)
      requires Proper(CurrentLayout()) && 1 <= nGeneration < 4
      modifies data
      ensures MarkedOf(CurrentLayout(), data[..], old(data[..]), key, nHashFuncs, nGeneration)
    {
      ghost var l, e := CurrentLayout(), data[..];
      assert MarkedOf(l, data[..], e, key, 0, nGeneration);
      hide MarkedOf;
      for n := 0 to nHashFuncs
        invariant MarkedOf(l, data[..], e, key, n, nGeneration)
        modifies data
      {
        ghost var d := data[..];
        var h := hash(n, nTweak, key);
        var bit, pos := h % 64, h / 64 % data.Length;
        data[pos / 2 * 2] := Put(data[pos / 2 * 2], bit, nGeneration % 2 == 1);
        data[pos / 2 * 2 + 1] := Put(data[pos / 2 * 2 + 1], bit, nGeneration / 2 == 1);
        MarkStep(l, e, d, data[..], key, n, nGeneration);
      }
    }

    /** True exactly if none of the key's cells is empty; true for every recent key. */
    method Contains(key: Key) returns (r: bool)
      requires Valid()
      ensures key in history[if |history| > nElements then |history| - nElements else 0..] ==> r
      ensures r <==> forall n :: 0 <= n < nHashFuncs ==> TagAt(data[..], CellOf(CurrentLayout(), n, key)) != 0
    {
      ghost var recent := if |history| > nElements then |history| - nElements else 0;
      if key in history[recent..] {
        ghost var t :| recent <= t < |history| && history[t] == key;
        RecentKeysFound(CurrentLayout(), data[..], history, nElements, t);
      }
      hide Tagged;
      for n := 0 to nHashFuncs
        invariant forall m :: 0 <= m < n ==> TagAt(data[..], CellOf(CurrentLayout(), m, key)) != 0
      {
        var h := hash(n, nTweak, key);
        var bit, pos := h % 64, h / 64 % data.Length;
        assert CellOf(CurrentLayout(), n, key) == Cell(pos / 2, bit);
        if !Or(data[pos / 2 * 2], data[pos / 2 * 2 + 1])[bit] {
          return false;
        }
      }
      r := true;
    }
  }

  lemma WipeStep(e: seq<Word>, d: seq<Word>, f: seq<Word>, p: nat, g: int)
    requires |d| == |e| == |f| && p % 2 == 0 && p + 1 < |d| && 1 <= g < 4 && d[p] == e[p] && d[p + 1] == e[p + 1]
    requires forall c :: InRange(p, c) ==> TagAt(d, c) == if TagAt(e, c) == g then 0 else TagAt(e, c)
    requires var m := WipeMask(d[p], d[p + 1], g); f == d[p := And(d[p], m)][p + 1 := And(d[p + 1], m)]
    ensures forall c :: InRange(p + 2, c) ==> TagAt(f, c) == if TagAt(e, c) == g then 0 else TagAt(e, c)
  {
    hide And, WipeMask, Tag;
    forall c | InRange(p + 2, c) ensures TagAt(f, c) == if TagAt(e, c) == g then 0 else TagAt(e, c) {
      if 2 * c.pair == p {
        Wiped(d[p], d[p + 1], g, c.bit);
      } else {
        assert InRange(p, c);
      }
    }
  }

  lemma MarkStep(l: Layout, e: seq<Word>, d: seq<Word>, f: seq<Word>, key: Key, n: nat, g: int)
    requires Proper(l) && |d| == |e| == |f| == l.words && 1 <= g < 4 && MarkedOf(l, d, e, key, n, g)
    requires var c := CellOf(l, n, key);
             f == d[2 * c.pair := Put(d[2 * c.pair], c.bit, g % 2 == 1)]
                   [2 * c.pair + 1 := Put(d[2 * c.pair + 1], c.bit, g / 2 == 1)]
    ensures MarkedOf(l, f, e, key, n + 1, g)
  {
    hide CellOf, Put, Tag;
    var x := CellOf(l, n, key);
    forall c | InRange(l.words, c) ensures TagAt(f, c) == if Hits(l, key, n + 1, c) then g else TagAt(e, c) {
      HitsNext(l, key, n, c);
      assert TagAt(d, c) == if Hits(l, key, n, c) then g else TagAt(e, c);
      if c.pair == x.pair {
        PutTag(d[2 * x.pair], d[2 * x.pair + 1], x.bit, g, c.bit);
      }
    }
  }

  lemma HitsNext(l: Layout, key: Key, n: nat, c: Cell)
    requires Proper(l)
    ensures Hits(l, key, n + 1, c) <==> Hits(l, key, n, c) || CellOf(l, n, key) == c
  {
  }

  // ---------------------------------------------------------------- no false negatives

  /** Every one of the last nElements keys is found. */
  lemma RecentKeysFound(l: Layout, d: seq<Word>, history: seq<Key>, nElements: nat, t: nat)
    requires Proper(l) && |d| == l.words && nElements <= 2 * l.per
    requires Tagged(l, d, history, Current(|history|, l.per))
    requires |history| - nElements <= t < |history|
    ensures forall n :: 0 <= n < l.funcs ==> TagAt(d, CellOf(l, n, history[t])) != 0
  {
    RecentEpoch(|history|, l.per, t);
    forall n | 0 <= n < l.funcs ensures TagAt(d, CellOf(l, n, history[t])) != 0 {
      var c := CellOf(l, n, history[t]);
      assert Hits(l, history[t], l.funcs, c) && InRange(l.words, c);
      LastEpochOf(l, history, t, c);
      LastEpochRange(l, history, c);
      DivMonotone(0, t, l.per);
      hide CellOf, LastEpoch, Hits, TagAt;
    }
  }

  lemma RecentEpoch(n: nat, per: nat, t: nat)
    requires per > 0 && n - 2 * per <= t < n
    ensures t / per >= Current(n, per) - 2
  {
    var c := Current(n, per);
    assert n - 1 == c * per + (n - 1) % per;
    if c >= 2 {
      Distribute(c, -2, per);
      DivAtLeast(t, per, c - 2);
    } else {
      DivMonotone(0, t, per);
    }
  }

  // ---------------------------------------------------------------- counters

  /** n insertions have led to these counters. */
  ghost predicate Counted(n: nat, per: nat, this_: nat, generation: int)
    requires per > 0
  {
    generation == Current(n, per) % 3 + 1 && this_ == n - Current(n, per) * per && (n > 0 ==> 0 < this_ <= per)
  }

  lemma CountNext(n: nat, per: nat, this_: nat, generation: int)
    requires per > 0 && Counted(n, per, this_, generation)
    ensures n / per == Current(n + 1, per) == if this_ == per then Current(n, per) + 1 else Current(n, per)
    ensures n / per * per == if this_ == per then n else n - this_
  {
    var c := Current(n, per);
    if this_ == per {
      Distribute(c, 1, per);
      DivModUnique(n, per, c + 1, 0);
    } else {
      DivModUnique(n, per, c, this_);
    }
  }
}
