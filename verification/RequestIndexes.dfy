/** BlockTransactionsRequest: indexes sent as the gaps between them. */
module RequestIndexes {
  import opened Options
  import opened Powers

  const MAX_INDEX := 0xFFFF

  predicate Indexes(s: seq<int>) {
    forall i :: 0 <= i < |s| ==> 0 <= s[i] <= MAX_INDEX
  }

  predicate Increasing(s: seq<int>) {
    forall i :: 0 < i < |s| ==> s[i - 1] < s[i]
  }

  /** The gap before an index, as an unsigned 64-bit number. */
  function Gap(s: seq<int>, i: nat): int
    requires i < |s|
  {
    (s[i] - if i == 0 then 0 else s[i - 1] + 1) % TWO_64
  }

  function Gaps(s: seq<int>): (r: seq<int>)
    ensures |r| == |s|
  {
    seq(|s|, i requires 0 <= i < |s| => Gap(s, i))
  }

  /** Adding the gaps up; an index beyond 16 bits is an error. */
  function Sums(gaps: seq<int>, offset: int): Option<seq<int>> {
    if gaps == [] then Some([])
    else if gaps[0] + offset > MAX_INDEX then None
    else
      match Sums(gaps[1..], (gaps[0] + offset + 1) % (MAX_INDEX + 1))
      case None => None
      case Some(s) => Some([gaps[0] + offset] + s)
  }

  function Read(gaps: seq<int>): Option<seq<int>> {
    if exists i :: 0 <= i < |gaps| && gaps[i] > MAX_INDEX then None else Sums(gaps, 0)
  }

  lemma GapRange(s: seq<int>, i: nat)
    requires i < |s| && Indexes(s)
    ensures Gap(s, i) <= MAX_INDEX <==> i == 0 || s[i - 1] < s[i]
    ensures (i == 0 || s[i - 1] < s[i]) ==> Gap(s, i) == s[i] - if i == 0 then 0 else s[i - 1] + 1
  {
  }

  /** What has to be added to the gap before index i. */
  function Offset(s: seq<int>, i: nat): int
    requires i <= |s|
  {
    if i == 0 || i == |s| then 0 else s[i - 1] + 1
  }

  lemma {:induction false} SumsOfGaps(s: seq<int>, i: nat)
    requires i <= |s| && Indexes(s) && Increasing(s)
    ensures Sums(Gaps(s)[i..], Offset(s, i)) == Some(s[i..])
    decreases |s| - i
  {
    hide Gap, Gaps, Sums;
    SumsNone(Offset(s, i));
    if i < |s| {
      var rest := Gaps(s)[i + 1..];
      GapRange(s, i);
      GapsFrom(s, i);
      SumsOfGaps(s, i + 1);
      SumsFirst(Gap(s, i), rest, Offset(s, i));
      if i + 1 == |s| {
        assert rest == [];
        SumsNone((s[i] + 1) % (MAX_INDEX + 1));
      } else {
        assert s[i] < s[i + 1];
      }
    } else {
      assert Gaps(s)[i..] == [] && s[i..] == [];
    }
  }

  lemma SumsNone(offset: int)
    ensures Sums([], offset) == Some([])
  {
  }

  lemma GapsFrom(s: seq<int>, i: nat)
    requires i < |s|
    ensures Gaps(s)[i..] == [Gap(s, i)] + Gaps(s)[i + 1..] && s[i..] == [s[i]] + s[i + 1..]
  {
  }

  lemma SumsFirst(gap: int, rest: seq<int>, offset: int)
    ensures gap + offset <= MAX_INDEX ==>
      Sums([gap] + rest, offset) == Prepend([gap + offset], Sums(rest, (gap + offset + 1) % (MAX_INDEX + 1)))
  {
    assert ([gap] + rest)[1..] == rest;
  }

  /** Indexes survive exactly if they are strictly increasing; otherwise reading fails. */
  lemma RoundTrip(s: seq<int>)
    requires Indexes(s)
    ensures Read(Gaps(s)) == if Increasing(s) then Some(s) else None
  {
    if Increasing(s) {
      forall i | 0 <= i < |s| ensures Gaps(s)[i] <= MAX_INDEX {
        GapRange(s, i);
      }
      SumsOfGaps(s, 0);
      assert Gaps(s)[0..] == Gaps(s) && s[0..] == s;
    } else {
      var i :| 0 < i < |s| && s[i - 1] >= s[i];
      GapRange(s, i);
      assert Gaps(s)[i] > MAX_INDEX;
    }
  }

  // ---------------------------------------------------------------- arbitrary streams

  /** Every index is above the one before, unless that was the last one there is. */
  predicate Wrapping(s: seq<int>, offset: int) {
    && (s != [] ==> s[0] >= offset)
    && forall i :: 0 < i < |s| ==> s[i - 1] < s[i] || s[i - 1] == MAX_INDEX
  }

  lemma {:induction false} SumsWrap(gaps: seq<int>, offset: int)
    requires (forall i :: 0 <= i < |gaps| ==> gaps[i] >= 0) && offset >= 0
    ensures var r := Sums(gaps, offset);
            r.Some? ==> |r.value| == |gaps| && Indexes(r.value) && Wrapping(r.value, offset)
  {
    if gaps != [] && gaps[0] + offset <= MAX_INDEX {
      SumsWrap(gaps[1..], (gaps[0] + offset + 1) % (MAX_INDEX + 1));
    }
  }

  /** Whatever stream is accepted, 16-bit indexes are read, one for every gap. They are strictly increasing exactly
      if the largest index comes at most at the end: after it the offset is zero again. */
  lemma AcceptedIncreasingIff(gaps: seq<int>)
    requires forall i :: 0 <= i < |gaps| ==> gaps[i] >= 0
    ensures var r := Read(gaps);
            r.Some? ==>
              && |r.value| == |gaps| && Indexes(r.value)
              && (Increasing(r.value) <==> forall i :: 0 <= i < |gaps| - 1 ==> r.value[i] != MAX_INDEX)
  {
    var r := Read(gaps);
    if r.Some? {
      SumsWrap(gaps, 0);
      var s := r.value;
      hide Sums, Read;
      if Increasing(s) {
        forall i | 0 <= i < |gaps| - 1 ensures s[i] != MAX_INDEX {
          assert s[i + 1 - 1] < s[i + 1];
        }
      }
    }
  }

  /** The largest index and then another one: a list no writer sends is read. */
  lemma NotIncreasingAccepted()
    ensures var s := [MAX_INDEX, 0];
            Read([MAX_INDEX, 0]) == Some(s) && !Increasing(s) && Read(Gaps(s)) == None
  {
    var s := [MAX_INDEX, 0];
    SumsNone(1);
    SumsFirst(0, [], 0);
    SumsFirst(MAX_INDEX, [0], 0);
    assert s == [MAX_INDEX] + [0] && [0] == [0] + [];
    assert Sums(s, 0) == Some([MAX_INDEX] + ([0] + []));
    assert s[0] >= s[1];
    RoundTrip(s);
  }

  method WriteIndexes(s: seq<int>) returns (gaps: seq<int>)
    ensures gaps == Gaps(s)
  {
    gaps := [];
    for i := 0 to |s|
      invariant |gaps| == i && forall j :: 0 <= j < i ==> gaps[j] == Gap(s, j)
    {
      var gap := (s[i] - if i == 0 then 0 else s[i - 1] + 1) % TWO_64;
      gaps := gaps + [gap];
    }
  }

  /** Read in pieces of a thousand, then add up in place. */
  method ReadIndexes(gaps: seq<int>) returns (r: Option<seq<int>>)
    requires forall i :: 0 <= i < |gaps| ==> gaps[i] >= 0
    ensures r == Read(gaps)
  {
    var indexes := new int[|gaps|];
    var size, i := 0, 0;
    while size < |gaps|
      invariant 0 <= i == size <= |gaps|
      invariant forall j :: 0 <= j < i ==> indexes[j] == gaps[j] <= MAX_INDEX
    {
      size := if 1000 + size < |gaps| then 1000 + size else |gaps|;
      while i < size
        invariant 0 <= i <= size <= |gaps|
        invariant forall j :: 0 <= j < i ==> indexes[j] == gaps[j] <= MAX_INDEX
      {
        if gaps[i] > MAX_INDEX {
          return None;
        }
        indexes[i] := gaps[i];
        i := i + 1;
      }
    }
    var offset := 0;
    assert gaps[0..] == gaps && indexes[..0] == [];
    PrependNothing(Sums(gaps, 0));
    for j := 0 to |gaps|
      invariant forall k :: j <= k < |gaps| ==> indexes[k] == gaps[k]
      invariant Prepend(indexes[..j], Sums(gaps[j..], offset)) == Sums(gaps, 0)
    {
      assert gaps[j..][1..] == gaps[j + 1..];
      if indexes[j] + offset > MAX_INDEX {
        return None;
      }
      ghost var before := indexes[..j];
      indexes[j] := indexes[j] + offset;
      ghost var next := Sums(gaps[j + 1..], (indexes[j] + 1) % (MAX_INDEX + 1));
      PrependTwice(before, indexes[j], next);
      assert indexes[..j + 1] == before + [indexes[j]];
      offset := (indexes[j] + 1) % (MAX_INDEX + 1);
    }
    assert indexes[..|gaps|] == indexes[..] && indexes[..] + [] == indexes[..];
    r := Some(indexes[..]);
  }

  function Prepend(a: seq<int>, r: Option<seq<int>>): Option<seq<int>> {
    if r.None? then None else Some(a + r.value)
  }

  lemma PrependNothing(r: Option<seq<int>>)
    ensures Prepend([], r) == r
  {
    if r.Some? {
      assert [] + r.value == r.value;
    }
  }

  lemma PrependTwice(a: seq<int>, x: int, r: Option<seq<int>>)
    ensures Prepend(a, Prepend([x], r)) == Prepend(a + [x], r)
  {
    if r.Some? {
      assert a + ([x] + r.value) == a + [x] + r.value;
    }
  }
}
