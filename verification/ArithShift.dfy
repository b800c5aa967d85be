/** base_uint<256>: shifts, by whole limbs and by bits within limbs. */
module ArithShift {
  import opened Powers
  import opened Limbs
  import opened ArithUint256

  /** Two limbs, one of whole multiples of 2^t and one below 2^t, have a sum that is a limb. */
  lemma SumIsLimb(a: Limb, b: Limb, t: nat)
    requires t <= 32 && a % Pow2(t) == 0 && b < Pow2(t)
    ensures a + b < BASE
  {
    hide Pow2;
    var d, e := Pow2(t), Pow2(32 - t);
    Pow2Add(32 - t, t);
    Pow2Word();
    MultipleBelow(a, d, e);
  }

  /** pn[m] |= x for bits that are still clear. */
  method OrLimb(pn: array<Limb>, m: nat, x: Limb, ghost t: nat)
    requires pn.Length == WIDTH && m < WIDTH && t <= 32
    requires (pn[m] % Pow2(t) == 0 && x < Pow2(t)) || (x % Pow2(t) == 0 && pn[m] < Pow2(t))
    modifies pn
    ensures old(pn[m]) + x < BASE && pn[..] == old(pn[..])[m := old(pn[m]) + x]
    ensures Value(pn[..]) == old(Value(pn[..])) + x * Weight(m)
  {
    if pn[m] % Pow2(t) == 0 && x < Pow2(t) {
      OrDisjoint(pn[m], x, t);
      SumIsLimb(pn[m], x, t);
    } else {
      OrDisjointSwap(x, pn[m], t);
      SumIsLimb(x, pn[m], t);
    }
    hide Value, Weight, Pow2;
    SetLimb(pn, m, Or(pn[m], x));
  }

  // ---------------------------------------------------------------- left

  /** The part of a limb that stays when it is shifted left by s < 32 bits, and the part that moves on. */
  function Stays(x: Limb, s: nat): (r: Limb) { x * Pow2(s) % BASE }

  function MovesOn(x: Limb, s: nat): (r: int) { x * Pow2(s) / BASE }

  lemma StaysMultiple(x: Limb, s: nat)
    requires s <= 32
    ensures Stays(x, s) % Pow2(s) == 0
  {
    var d, e := Pow2(s), Pow2(32 - s);
    Pow2Add(s, 32 - s);
    Pow2Word();
    hide Pow2;
    ModMod(x * d, d, e);
    ModShift(0, d, x);
  }

  /** What moves on is the limb shifted right by 32 - s. */
  lemma MovesOnIsShift(x: Limb, s: nat)
    requires s <= 32
    ensures MovesOn(x, s) == x / Pow2(32 - s) && 0 <= MovesOn(x, s) < Pow2(s)
  {
    var d, e := Pow2(s), Pow2(32 - s);
    Pow2Add(s, 32 - s);
    Pow2Word();
    assert e * d == BASE by { Regroup(1, d, e); }
    hide Pow2, BASE;
    ScaledDivision(x, d, e);
    DivLess(x, e, d);
    DivNonNegative(x, e);
  }

  lemma DivNonNegative(x: nat, e: int)
    requires e > 0
    ensures x / e >= 0
  {
  }

  lemma ShiftColumn(x: Limb, s: nat, w: int)
    ensures Stays(x, s) * w + MovesOn(x, s) * (BASE * w) == x * Pow2(s) * w
  {
    Column(x * Pow2(s), w);
  }

  /** Limbs beyond the last are whole multiples of 2^256. */
  lemma Beyond(m: nat)
    requires m >= WIDTH
    ensures Weight(m) == Weight(m - WIDTH) * TWO_256
  {
    WeightAdd(m - WIDTH, WIDTH);
    Weight8();
    hide Weight;
  }

  /** What limb i contributes at limb m if it is in range, and what is lost otherwise. */
  function Lost(x: int, m: nat): int {
    if m < WIDTH then 0 else x * Weight(m - WIDTH)
  }

  lemma LostIsDropped(x: int, m: nat)
    ensures x * Weight(m) == (if m < WIDTH then x * Weight(m) else 0) + Lost(x, m) * TWO_256
  {
    if m >= WIDTH {
      Beyond(m);
      Regroup(x, Weight(m - WIDTH), TWO_256);
    }
  }

  method ShiftLeftAssign(pn: array<Limb>, shift: nat)
    requires pn.Length == WIDTH
    modifies pn
    ensures Value(pn[..]) == (old(Value(pn[..])) * Pow2(shift)) % TWO_256
  {
    var a := pn[..];
    forall i | 0 <= i < WIDTH {
      pn[i] := 0;
    }
    ValueZero(pn[..]);
    ValueEmpty();
    hide Value, Weight, Pow2, Stays, MovesOn;
    var k, s := shift / 32, shift % 32;
    ghost var dropped := 0;
    assert a[..0] == [];
    for i := 0 to WIDTH
      invariant forall m :: i + k < m < WIDTH ==> pn[m] == 0
      invariant i + k < WIDTH ==> pn[i + k] == if i == 0 then 0 else MovesOn(a[i - 1], s)
      invariant Value(a[..i]) * Pow2(shift) == Value(pn[..]) + dropped * TWO_256
    {
      ghost var before := Value(pn[..]);
      ShiftLimbLeft(pn, a, i, k, s);
      ShiftLeftStep(a, i, k, s, shift, before, Value(pn[..]), dropped);
      dropped := dropped + Lost(Stays(a[i], s), i + k) + Lost(MovesOn(a[i], s), i + k + 1);
    }
    Whole(a);
    Fits(pn[..]);
    Dropped(Value(pn[..]), dropped, Value(a) * Pow2(shift));
  }

  /** The loop body. */
  method ShiftLimbLeft(pn: array<Limb>, a: seq<Limb>, i: nat, k: nat, s: nat)
    requires pn.Length == |a| == WIDTH && i < WIDTH && s < 32
    requires forall m :: i + k < m < WIDTH ==> pn[m] == 0
    requires i + k < WIDTH ==> pn[i + k] == if i == 0 then 0 else MovesOn(a[i - 1], s)
    modifies pn
    ensures forall m :: i + 1 + k < m < WIDTH ==> pn[m] == 0
    ensures i + 1 + k < WIDTH ==> pn[i + 1 + k] == MovesOn(a[i], s)
    ensures Value(pn[..]) == old(Value(pn[..]))
              + (if i + k < WIDTH then Stays(a[i], s) * Weight(i + k) else 0)
              + (if i + k + 1 < WIDTH then MovesOn(a[i], s) * Weight(i + k + 1) else 0)
  {
    hide Value, Weight, Pow2, Stays, MovesOn;
    MovesOnIsShift(a[i], s);
    StaysMultiple(a[i], s);
    Pow2Small(s);
    if i > 0 {
      MovesOnIsShift(a[i - 1], s);
    }
    if i + k + 1 < WIDTH && s != 0 {
      OrLimb(pn, i + k + 1, a[i] / Pow2(32 - s), s);
    }
    if i + k < WIDTH {
      assert Stays(a[i], s) == a[i] * Pow2(s) % BASE by { StaysIs(a[i], s); }
      OrLimb(pn, i + k, a[i] * Pow2(s) % BASE, s);
    }
  }

  lemma StaysIs(x: Limb, s: nat)
    ensures Stays(x, s) == x * Pow2(s) % BASE
  {
  }

  lemma Pow2Small(s: nat)
    requires s <= 32
    ensures 1 <= Pow2(s) <= BASE && 0 % Pow2(s) == 0
    ensures s == 0 ==> Pow2(s) == 1
  {
    Pow2Word();
    if s < 32 {
      Pow2Less(s, 32);
    }
    hide Pow2;
    DivModUnique(0, Pow2(s), 0, 0);
  }

  lemma ShiftLeftStep(a: seq<Limb>, i: nat, k: nat, s: nat, shift: nat, before: int, after: int, dropped: int)
    requires |a| == WIDTH && i < WIDTH && shift == 32 * k + s && s < 32
    requires Value(a[..i]) * Pow2(shift) == before + dropped * TWO_256
    requires after == before + (if i + k < WIDTH then Stays(a[i], s) * Weight(i + k) else 0)
                             + (if i + k + 1 < WIDTH then MovesOn(a[i], s) * Weight(i + k + 1) else 0)
    ensures Value(a[..i + 1]) * Pow2(shift) == after +
              (dropped + Lost(Stays(a[i], s), i + k) + Lost(MovesOn(a[i], s), i + k + 1)) * TWO_256
  {
    var x: int, v: int := a[i], Value(a[..i]);
    ValueNext(a, i);
    assert Weight(i + k + 1) == BASE * Weight(i + k);
    hide Value, Weight, Pow2, Stays, MovesOn, Lost;
    ShiftWeight(i, k, s, shift);
    ShiftColumn(a[i], s, Weight(i + k));
    LostIsDropped(Stays(a[i], s), i + k);
    LostIsDropped(MovesOn(a[i], s), i + k + 1);
    Distribute(v, x * Weight(i), Pow2(shift));
    Regroup(x, Weight(i), Pow2(shift));
    Regroup(x, Pow2(s), Weight(i + k));
  }

  lemma ShiftWeight(i: nat, k: nat, s: nat, shift: nat)
    requires shift == 32 * k + s
    ensures Weight(i) * Pow2(shift) == Pow2(s) * Weight(i + k)
  {
    Pow2Add(32 * k, s);
    WeightPow2(k);
    WeightAdd(i, k);
    hide Weight, Pow2;
    Regroup(Weight(i), Weight(k), Pow2(s));
    Regroup(Pow2(s), Weight(i), Weight(k));
  }

  // ---------------------------------------------------------------- right

  /** The low s bits of a limb, moved to the top of the next lower limb. */
  function MovesDown(x: Limb, s: nat): (r: int)
    requires s <= 32
  {
    (x % Pow2(s)) * Pow2(32 - s)
  }

  /** That is the limb shifted left by 32 - s. */
  lemma MovesDownIsShift(x: Limb, s: nat)
    requires s <= 32
    ensures 0 <= MovesDown(x, s) < BASE && MovesDown(x, s) == x * Pow2(32 - s) % BASE
    ensures MovesDown(x, s) % Pow2(32 - s) == 0
    ensures 0 <= x / Pow2(s) < Pow2(32 - s) && x / Pow2(s) < BASE
  {
    hide Pow2;
    var d, e := Pow2(s), Pow2(32 - s);
    Pow2Add(s, 32 - s);
    Pow2Word();
    ScaledDivision(x, e, d);
    ModShift(0, e, x % d);
    Regroup(e, d, 1);
    DivLess(x, d, e);
    DivNonNegative(x, d);
    Pow2Small(32 - s);
  }

  method ShiftRightAssign(pn: array<Limb>, shift: nat)
    requires pn.Length == WIDTH
    modifies pn
    ensures Value(pn[..]) == old(Value(pn[..])) / Pow2(shift)
  {
    var a := pn[..];
    forall i | 0 <= i < WIDTH {
      pn[i] := 0;
    }
    ValueZero(pn[..]);
    ValueEmpty();
    hide Value, Weight, Pow2, MovesDown;
    var k, s := shift / 32, shift % 32;
    assert a[..0] == [];
    for i := 0 to WIDTH
      invariant forall m :: 0 <= m < WIDTH && i - k <= m ==> pn[m] == 0
      invariant 0 <= i - k - 1 ==> pn[i - k - 1] == a[i - 1] / Pow2(s)
      invariant Value(a[..i]) == Value(pn[..]) * Pow2(shift) + Shifted(a, i, k, s)
    {
      ghost var before := Value(pn[..]);
      ShiftLimbRight(pn, a, i, k, s);
      ShiftRightStep(a, i, k, s, shift, before, Value(pn[..]));
    }
    Whole(a);
    ShiftedBound(a, k, s, shift);
    DivModUnique(Value(a), Pow2(shift), Value(pn[..]), Shifted(a, WIDTH, k, s));
  }

  /** What is shifted out of the lowest i limbs. */
  ghost function Shifted(a: seq<Limb>, i: nat, k: nat, s: nat): int
    requires i <= |a|
  {
    if i <= k then Value(a[..i]) else Value(a[..k]) + (a[k] % Pow2(s)) * Weight(k)
  }

  lemma ShiftedBound(a: seq<Limb>, k: nat, s: nat, shift: nat)
    requires |a| == WIDTH && s < 32 && shift == 32 * k + s
    ensures 0 <= Shifted(a, WIDTH, k, s) < Pow2(shift)
  {
    Pow2Add(32 * k, s);
    WeightPow2(k);
    ValueBound(a[..if WIDTH <= k then WIDTH else k]);
    hide Value, Weight, Pow2;
    var w, d := Weight(k), Pow2(s);
    if k < WIDTH {
      TwoDigits(Value(a[..k]), a[k] % d, w, d);
    } else {
      Weight8AtMost(k);
      MulMono(1, d, w);
      assert a[..WIDTH] == a;
    }
  }

  lemma Weight8AtMost(k: nat)
    requires WIDTH <= k
    ensures Weight(WIDTH) <= Weight(k)
  {
    WeightAdd(WIDTH, k - WIDTH);
    hide Weight;
    MulMono(1, Weight(k - WIDTH), Weight(WIDTH));
  }

  /** The loop body. */
  method ShiftLimbRight(pn: array<Limb>, a: seq<Limb>, i: nat, k: nat, s: nat)
    requires pn.Length == |a| == WIDTH && i < WIDTH && s < 32
    requires forall m :: 0 <= m < WIDTH && i - k <= m ==> pn[m] == 0
    requires 0 <= i - k - 1 ==> pn[i - k - 1] == a[i - 1] / Pow2(s)
    modifies pn
    ensures forall m :: 0 <= m < WIDTH && i + 1 - k <= m ==> pn[m] == 0
    ensures 0 <= i - k ==> pn[i - k] == a[i] / Pow2(s)
    ensures Value(pn[..]) == old(Value(pn[..]))
              + (if i - k - 1 >= 0 then MovesDown(a[i], s) * Weight(i - k - 1) else 0)
              + (if i - k >= 0 then a[i] / Pow2(s) * Weight(i - k) else 0)
  {
    hide Value, Weight, Pow2, MovesDown;
    MovesDownIsShift(a[i], s);
    Pow2Small(32 - s);
    if i > 0 {
      MovesDownIsShift(a[i - 1], s);
    }
    if i - k - 1 >= 0 {
      if s != 0 {
        OrLimb(pn, i - k - 1, a[i] * Pow2(32 - s) % BASE, 32 - s);
      } else {
        MovesDownNone(a[i]);
      }
    }
    if i - k >= 0 {
      OrLimb(pn, i - k, a[i] / Pow2(s), 32 - s);
    }
  }

  lemma MovesDownNone(x: Limb)
    ensures MovesDown(x, 0) == 0
  {
  }

  lemma ShiftRightStep(a: seq<Limb>, i: nat, k: nat, s: nat, shift: nat, before: int, after: int)
    requires |a| == WIDTH && i < WIDTH && shift == 32 * k + s && s < 32
    requires Value(a[..i]) == before * Pow2(shift) + Shifted(a, i, k, s)
    requires after == before + (if i - k - 1 >= 0 then MovesDown(a[i], s) * Weight(i - k - 1) else 0)
                             + (if i - k >= 0 then a[i] / Pow2(s) * Weight(i - k) else 0)
    ensures Value(a[..i + 1]) == after * Pow2(shift) + Shifted(a, i + 1, k, s)
  {
    ValueNext(a, i);
    var x: int, p: int := a[i], Pow2(shift);
    hide Value, Weight, Pow2, MovesDown;
    if i >= k {
      WholeLimb(x, Pow2(s), Weight(i));
      HighPart(x, i, k, s, shift);
      var high := x / Pow2(s) * Weight(i - k);
      if i > k {
        LowPart(a[i], i, k, s, shift);
        var low := MovesDown(a[i], s) * Weight(i - k - 1);
        Distribute(before + low, high, p);
        Distribute(before, low, p);
      } else {
        Distribute(before, high, p);
      }
    }
  }

  lemma WholeLimb(x: int, d: int, w: int)
    requires d > 0
    ensures x * w == (x / d) * (d * w) + (x % d) * w
  {
    Regroup(x / d, d, w);
    Distribute((x / d) * d, x % d, w);
  }

  lemma HighPart(x: int, i: nat, k: nat, s: nat, shift: nat)
    requires k <= i && shift == 32 * k + s
    ensures (x / Pow2(s) * Weight(i - k)) * Pow2(shift) == (x / Pow2(s)) * (Pow2(s) * Weight(i))
  {
    hide Weight, Pow2;
    ShiftWeight(i - k, k, s, shift);
    assert i - k + k == i;
    Regroup(x / Pow2(s), Weight(i - k), Pow2(shift));
  }

  lemma LowPart(x: Limb, i: nat, k: nat, s: nat, shift: nat)
    requires k < i && shift == 32 * k + s && s < 32
    ensures (MovesDown(x, s) * Weight(i - k - 1)) * Pow2(shift) == (x % Pow2(s)) * Weight(i)
  {
    assert Weight(i) == BASE * Weight(i - 1);
    hide Weight, Pow2;
    ShiftWeight(i - k - 1, k, s, shift);
    assert i - k - 1 + k == i - 1;
    Pow2Add(32 - s, s);
    Pow2Word();
    var r, e, d, w := x % Pow2(s), Pow2(32 - s), Pow2(s), Weight(i - 1);
    calc {
      (r * e * Weight(i - k - 1)) * Pow2(shift);
      { Regroup(r * e, Weight(i - k - 1), Pow2(shift)); }
      r * e * (d * w);
      { Regroup(r, e, d * w); }
      r * (e * (d * w));
      { Regroup(e, d, w); }
      r * (e * d * w);
    }
  }
}
