/** Numbers as little-endian 32-bit limbs, and the bit operations on limbs as arithmetic. */
module Limbs {
  import opened Powers

  const BASE := 0x1_0000_0000

  type Limb = x: int | 0 <= x < BASE

  /** The weight of limb i. */
  function Weight(i: nat): (w: int)
    ensures w >= 1
  {
    if i == 0 then 1 else BASE * Weight(i - 1)
  }

  function Value(s: seq<Limb>): (v: int)
    ensures v >= 0
    decreases |s|
  {
    if s == [] then 0
    else
      var n := |s| - 1;
      assert s[n] * Weight(n) >= 0;
      Value(s[..n]) + s[n] * Weight(n)
  }

  lemma {:induction false} WeightAdd(i: nat, j: nat)
    ensures Weight(i + j) == Weight(i) * Weight(j)
    decreases i
  {
    if i > 0 {
      WeightAdd(i - 1, j);
      var a, b := Weight(i - 1), Weight(j);
      assert Weight(i + j) == BASE * Weight(i - 1 + j);
      assert BASE * (a * b) == (BASE * a) * b;
    }
  }

  lemma {:induction false} WeightPow2(i: nat)
    ensures Weight(i) == Pow2(32 * i)
  {
    if i > 0 {
      WeightPow2(i - 1);
      Pow2Add(32, 32 * (i - 1));
      Pow2Word();
      hide Pow2;
      assert 32 + 32 * (i - 1) == 32 * i;
    }
  }

  lemma Weight8()
    ensures Weight(8) == TWO_256
  {
    WeightPow2(8);
    Pow2Hash();
    hide Pow2;
  }

  lemma {:induction false} ValueBound(s: seq<Limb>)
    ensures Value(s) < Weight(|s|)
    decreases |s|
  {
    if s != [] {
      var n := |s| - 1;
      ValueBound(s[..n]);
      var w: int, x: int := Weight(n), s[n];
      MulMono(x, BASE - 1, w);
      hide Value;
    }
  }

  /** One limb more. */
  lemma ValueNext(s: seq<Limb>, i: nat)
    requires i < |s|
    ensures Value(s[..i + 1]) == Value(s[..i]) + s[i] * Weight(i)
  {
    assert s[..i + 1][..i] == s[..i];
  }

  lemma {:induction false} ValueUpdate(s: seq<Limb>, i: nat, x: Limb)
    requires i < |s|
    ensures Value(s[i := x]) == Value(s) + (x - s[i]) * Weight(i)
    decreases |s|
  {
    var n := |s| - 1;
    var t := s[i := x];
    if i == n {
      assert t[..n] == s[..n];
      assert (x - s[i]) * Weight(i) == x * Weight(i) - s[i] * Weight(i);
    } else {
      assert t[..n] == s[..n][i := x];
      ValueUpdate(s[..n], i, x);
    }
  }

  /** The limbs from i on carry a multiple of limb i's weight. */
  lemma {:induction false} ValueSplit(s: seq<Limb>, i: nat)
    requires i <= |s|
    ensures Value(s) == Value(s[..i]) + Weight(i) * Value(s[i..])
    decreases |s|
  {
    if i == |s| {
      assert s[..i] == s;
    } else {
      var n := |s| - 1;
      ValueSplit(s[..n], i);
      assert s[..n][..i] == s[..i] && s[..n][i..] == s[i..][..n - i];
      var hi: int, x: int := Value(s[..n][i..]), s[n];
      WeightAdd(i, n - i);
      var a: int, b: int := Weight(i), Weight(n - i);
      assert Value(s[i..]) == hi + x * b;
      hide Value, Weight;
      Regroup(x, a, b);
      Distribute(hi, x * b, a);
    }
  }

  lemma {:induction false} ValueZero(s: seq<Limb>)
    requires forall i :: 0 <= i < |s| ==> s[i] == 0
    ensures Value(s) == 0
    decreases |s|
  {
    if s != [] {
      ValueZero(s[..|s| - 1]);
    }
  }

  // ---------------------------------------------------------------- bitwise or

  function Or(a: nat, b: nat): (r: nat)
    decreases a + b
  {
    if a == 0 then b else if b == 0 then a
    else 2 * Or(a / 2, b / 2) + if a % 2 == 1 || b % 2 == 1 then 1 else 0
  }

  /** Without common bits, or is addition. */
  lemma {:induction false} OrDisjoint(a: nat, b: nat, k: nat)
    requires a % Pow2(k) == 0 && b < Pow2(k)
    ensures Or(a, b) == a + b
    decreases k
  {
    if k > 0 && a != 0 && b != 0 {
      var d := Pow2(k - 1);
      var q := a / (2 * d);
      assert a == 2 * (q * d) by { assert a == q * (2 * d); }
      DivModUnique(a / 2, d, q, 0);
      OrDisjoint(a / 2, b / 2, k - 1);
    }
  }

  lemma OrDisjointSwap(a: nat, b: nat, k: nat)
    requires a % Pow2(k) == 0 && b < Pow2(k)
    ensures Or(b, a) == a + b
  {
    OrDisjoint(a, b, k);
    OrCommutes(a, b);
  }

  lemma {:induction false} OrCommutes(a: nat, b: nat)
    ensures Or(a, b) == Or(b, a)
    decreases a + b
  {
    if a != 0 && b != 0 {
      OrCommutes(a / 2, b / 2);
    }
  }

  lemma OrHalf(a: nat, b: nat)
    ensures Or(a, b) == 2 * Or(a / 2, b / 2) + if a % 2 == 1 || b % 2 == 1 then 1 else 0
  {
  }

  lemma HalfDivMod(x: nat, k: nat)
    requires k > 0
    ensures x / Pow2(k) == (x / 2) / Pow2(k - 1) && (x % Pow2(k)) / 2 == (x / 2) % Pow2(k - 1)
    ensures (x % Pow2(k)) % 2 == x % 2
  {
    var d := Pow2(k - 1);
    assert Pow2(k) == 2 * d;
    hide Pow2;
    var q, r := (x / 2) / d, (x / 2) % d;
    assert x / 2 == q * d + r;
    Regroup(q, 2, d);
    DivModUnique(x, 2 * d, q, 2 * r + x % 2);
  }

  /** High bits and low bits are combined separately. */
  lemma {:induction false} OrSplit(a: nat, b: nat, k: nat)
    ensures a / Pow2(k) >= 0 && b / Pow2(k) >= 0
    ensures Or(a, b) == Pow2(k) * Or(a / Pow2(k), b / Pow2(k)) + Or(a % Pow2(k), b % Pow2(k))
    decreases k
  {
    if k > 0 {
      OrSplit(a / 2, b / 2, k - 1);
      HalfDivMod(a, k);
      HalfDivMod(b, k);
      OrHalf(a, b);
      OrHalf(a % Pow2(k), b % Pow2(k));
      var d := Pow2(k - 1);
      assert Pow2(k) == 2 * d;
      hide Pow2, Or;
      Regroup(2, d, Or(a / (2 * d), b / (2 * d)));
    }
  }
}
