/** base_uint<256>: comparison, bit length and shift-subtract division. */
module ArithDivide {
  import opened Powers
  import opened Limbs
  import opened ArithUint256
  import opened ArithShift

  // ---------------------------------------------------------------- comparison

  lemma TopDecides(s: seq<Limb>, t: seq<Limb>, i: nat)
    requires |s| == |t| == WIDTH && i < WIDTH && s[i + 1..] == t[i + 1..] && s[i] < t[i]
    ensures Value(s) < Value(t)
  {
    hide Value, Weight;
    ValueSplit(s, i + 1);
    ValueSplit(t, i + 1);
    ValueNext(s, i);
    ValueNext(t, i);
    ValueBound(s[..i]);
    var x: int, y: int, w: int := s[i], t[i], Weight(i);
    MulMono(x + 1, y, w);
    Distribute(x, 1, w);
  }

  /** -1, 0 or 1 as the first number is less, equal or greater. */
  method CompareTo(pn: array<Limb>, b: array<Limb>) returns (c: int)
    requires pn.Length == WIDTH && b.Length == WIDTH
    ensures c == -1 <==> Value(pn[..]) < Value(b[..])
    ensures c == 0 <==> Value(pn[..]) == Value(b[..])
    ensures c == 1 <==> Value(pn[..]) > Value(b[..])
  {
    hide Value;
    var i := WIDTH - 1;
    while i >= 0
      invariant -1 <= i < WIDTH && pn[..][i + 1..] == b[..][i + 1..]
    {
      assert pn[..][i..] == [pn[i]] + pn[..][i + 1..] && b[..][i..] == [b[i]] + b[..][i + 1..];
      if pn[i] < b[i] {
        TopDecides(pn[..], b[..], i);
        return -1;
      }
      if pn[i] > b[i] {
        TopDecides(b[..], pn[..], i);
        return 1;
      }
      i := i - 1;
    }
    assert pn[..] == pn[..][0..] == b[..][0..] == b[..];
    c := 0;
  }

  // ---------------------------------------------------------------- bit length

  /** r is the position of the highest set bit plus one, or zero for zero. */
  predicate IsBitLength(v: int, r: nat) {
    if r == 0 then v == 0 else Pow2(r - 1) <= v < Pow2(r)
  }

  method Bits(pn: array<Limb>) returns (r: nat)
    requires pn.Length == WIDTH
    ensures IsBitLength(Value(pn[..]), r) && r <= 32 * WIDTH
  {
    hide Value, Weight, Pow2;
    ghost var s := pn[..];
    var pos := WIDTH - 1;
    while pos >= 0
      invariant -1 <= pos < WIDTH && forall j :: pos < j < WIDTH ==> s[j] == 0
    {
      if pn[pos] != 0 {
        var bits := HighBit(pn[pos]);
        TopLimb(s, pos, bits);
        return 32 * pos + bits + 1;
      }
      pos := pos - 1;
    }
    ValueZero(s);
    return 0;
  }

  /** The highest set bit of a limb. */
  method HighBit(x: Limb) returns (bits: nat)
    requires x != 0
    ensures bits < 32 && Pow2(bits) <= x < Pow2(bits + 1)
  {
    Pow2Word();
    Pow2Small(0);
    assert Pow2(1) == 2;
    bits := 31;
    hide Pow2;
    while bits > 0
      invariant 0 <= bits < 32 && x < Pow2(bits + 1)
    {
      HighBitStep(x, bits);
      if x / Pow2(bits) % 2 == 1 {
        return;
      }
      bits := bits - 1;
    }
  }

  lemma HighBitStep(x: int, bits: nat)
    requires 0 <= x < Pow2(bits + 1)
    ensures x / Pow2(bits) % 2 == 1 <==> Pow2(bits) <= x
  {
    var d := Pow2(bits);
    assert Pow2(bits + 1) == 2 * d;
    hide Pow2;
    if x < d {
      DivModUnique(x, d, 0, x);
    } else {
      DivModUnique(x, d, 1, x - d);
    }
  }

  lemma TopLimb(s: seq<Limb>, pos: nat, bits: nat)
    requires |s| == WIDTH && pos < WIDTH && bits < 32 && Pow2(bits) <= s[pos] < Pow2(bits + 1)
    requires forall j :: pos < j < WIDTH ==> s[j] == 0
    ensures IsBitLength(Value(s), 32 * pos + bits + 1)
  {
    hide Value, Weight, Pow2;
    ValueSplit(s, pos + 1);
    ValueZero(s[pos + 1..]);
    ValueNext(s, pos);
    ValueBound(s[..pos]);
    WeightPow2(pos);
    Pow2Add(bits, 32 * pos);
    Pow2Add(bits + 1, 32 * pos);
    var w: int, x: int := Weight(pos), s[pos];
    MulMono(Pow2(bits), x, w);
    MulMono(x + 1, Pow2(bits + 1), w);
    Distribute(x, 1, w);
    assert Weight(pos + 1) * 0 == 0;
    assert bits + 32 * pos == 32 * pos + bits + 1 - 1 && bits + 1 + 32 * pos == 32 * pos + bits + 1;
  }

  lemma BitLengthMonotone(v: int, r: nat, w: int, q: nat)
    requires IsBitLength(v, r) && IsBitLength(w, q) && q < r
    ensures w < v
  {
    if q < r - 1 {
      Pow2Less(q, r - 1);
    }
  }

  // ---------------------------------------------------------------- division

  /** Division by zero is refused, and leaves zero. */
  method DivAssign(pn: array<Limb>, b: array<Limb>) returns (ok: bool)
    requires pn.Length == WIDTH && b.Length == WIDTH
    modifies pn
    ensures ok <==> old(Value(b[..])) != 0
    ensures Value(pn[..]) == if ok then old(Value(pn[..])) / old(Value(b[..])) else 0
  {
    hide Value, Pow2;
    ghost var n, d := Value(pn[..]), Value(b[..]);
    var div := Copy(b);
    var num := Copy(pn);
    Clear(pn);
    var numBits := Bits(num);
    var divBits := Bits(div);
    if divBits == 0 {
      return false;
    }
    BitLengthPositive(d, divBits);
    ok := true;
    if divBits > numBits {
      BitLengthMonotone(d, divBits, n, numBits);
      Fits(num[..]);
      DivModUnique(n, d, 0, n);
      return;
    }
    var shift := numBits - divBits;
    Aligned(n, d, numBits, divBits);
    ShiftLeftAssign(div, shift);
    DivLoop(pn, num, div, shift, n, d);
  }

  method Copy(b: array<Limb>) returns (c: array<Limb>)
    requires b.Length == WIDTH
    ensures fresh(c) && c.Length == WIDTH && c[..] == b[..]
  {
    c := new Limb[WIDTH](_ => 0);
    for i := 0 to WIDTH
      invariant forall j :: 0 <= j < i ==> c[j] == b[j]
    {
      c[i] := b[i];
    }
  }

  method Clear(pn: array<Limb>)
    requires pn.Length == WIDTH
    modifies pn
    ensures Value(pn[..]) == 0 && forall i :: 0 <= i < WIDTH ==> pn[i] == 0
  {
    for i := 0 to WIDTH
      invariant forall j :: 0 <= j < i ==> pn[j] == 0
    {
      pn[i] := 0;
    }
    ValueZero(pn[..]);
  }

  lemma BitLengthPositive(v: int, r: nat)
    requires IsBitLength(v, r) && r > 0
    ensures v > 0
  {
  }

  /** Aligned, the divisor does not overflow and its double is more than the dividend. */
  lemma Aligned(n: int, d: int, numBits: nat, divBits: nat)
    requires IsBitLength(n, numBits) && IsBitLength(d, divBits) && 0 < divBits <= numBits <= 256
    ensures 0 < d * Pow2(numBits - divBits) < TWO_256
    ensures (d * Pow2(numBits - divBits)) % TWO_256 == d * Pow2(numBits - divBits)
    ensures n < 2 * (d * Pow2(numBits - divBits))
  {
    hide Pow2;
    var p := Pow2(numBits - divBits);
    Pow2Hash();
    if numBits < 256 {
      Pow2Less(numBits, 256);
    }
    Pow2Add(divBits, numBits - divBits);
    Pow2Add(divBits - 1, numBits - divBits);
    Pow2Double(divBits - 1 + (numBits - divBits));
    MulMono(d + 1, Pow2(divBits), p);
    Distribute(d, 1, p);
    MulMono(Pow2(divBits - 1), d, p);
    Pow2Positive(divBits - 1);
    MulMono(1, d, p);
    DivModUnique(d * p, TWO_256, 0, d * p);
  }

  lemma Pow2Double(k: nat)
    ensures Pow2(k + 1) == 2 * Pow2(k)
  {
  }

  lemma Pow2Positive(k: nat)
    ensures Pow2(k) >= 1
  {
  }

  /** Shift and subtract: the quotient so far times the divisor, plus what is left, is the dividend. */
  method DivLoop(pn: array<Limb>, num: array<Limb>, div: array<Limb>, start: nat, ghost n: int, ghost d: int)
    requires pn.Length == num.Length == div.Length == WIDTH && pn != num && pn != div && num != div
    requires Value(pn[..]) == 0 && Value(num[..]) == n && d > 0 && start < 256
    requires Value(div[..]) == d * Pow2(start) && n < 2 * Value(div[..])
    modifies pn, num, div
    ensures Value(pn[..]) == n / d
  {
    hide Value, Pow2;
    var shift := start;
    ghost var left := n;
    Fits(num[..]);
    ZeroMultiple(start + 1);
    while shift >= 0
      invariant -1 <= shift <= start && left == Value(num[..]) >= 0
      invariant shift >= 0 ==> Value(div[..]) == d * Pow2(shift) && left < 2 * Value(div[..])
      invariant shift < 0 ==> left < d
      invariant Value(pn[..]) * d + left == n && Value(pn[..]) % Pow2(shift + 1) == 0
    {
      var c := CompareTo(num, div);
      ghost var q, p := Value(pn[..]), Pow2(shift);
      MultipleStep(q, shift);
      HalfDivisor(d, shift);
      if c >= 0 {
        Fits(num[..]);
        SmallMod(left - d * p);
        SubAssign(num, div);
        left := left - d * p;
        SetBitAt(pn, shift);
        Distribute(q, p, d);
      }
      ShiftRightAssign(div, 1);
      shift := shift - 1;
    }
    DivModUnique(n, d, Value(pn[..]), left);
  }

  lemma ZeroMultiple(k: nat)
    ensures 0 % Pow2(k) == 0
  {
    DivModUnique(0, Pow2(k), 0, 0);
  }

  lemma SmallMod(x: int)
    ensures 0 <= x < TWO_256 ==> x % TWO_256 == x
  {
  }

  lemma MultipleStep(q: int, shift: nat)
    requires q % Pow2(shift + 1) == 0
    ensures q % Pow2(shift) == 0 && (q + Pow2(shift)) % Pow2(shift) == 0
  {
    var d := Pow2(shift);
    assert Pow2(shift + 1) == d * 2;
    hide Pow2;
    ModMod(q, d, 2);
    ModShift(q, d, 1);
  }

  lemma HalfDivisor(d: int, shift: nat)
    ensures shift > 0 ==>
              d * Pow2(shift) / Pow2(1) == d * Pow2(shift - 1) && d * Pow2(shift) == 2 * (d * Pow2(shift - 1))
    ensures shift == 0 ==> d * Pow2(shift) == d
  {
    if shift > 0 {
      var p := Pow2(shift - 1);
      assert Pow2(shift) == 2 * p && Pow2(1) == 2;
      hide Pow2;
      Regroup(d, 2, p);
    }
  }

  /** A multiple of a power of two has low limbs and low bits clear. */
  lemma LimbOfMultiple(s: seq<Limb>, k: nat, j: nat)
    requires k < |s| && j <= 32 && Value(s) % Pow2(32 * k + j) == 0
    ensures s[k] % Pow2(j) == 0
  {
    hide Pow2, Weight;
    var w, p, e := Weight(k), Pow2(j), Pow2(32 - j);
    WeightPow2(k);
    Pow2Add(32 * k, j);
    Pow2Add(32 - j, j);
    Pow2Word();
    ValueSplit(s, k);
    ValueBound(s[..k]);
    ValueSplit(s[k..], 1);
    ValueOne(s, k);
    var low, high, rest := Value(s[..k]), Value(s[k..]), Value(s[k..][1..]);
    hide Value;
    LowIsZero(Value(s), low, high, w, p);
    Regroup(rest, e, p);
    ModShift(s[k], p, rest * e);
  }

  lemma ValueOne(s: seq<Limb>, k: nat)
    requires k < |s|
    ensures Value(s[k..][..1]) == s[k] && Weight(1) == BASE
  {
    assert s[k..][..1] == [s[k]] && s[k..][..1][..0] == [];
  }

  /** If low + w * high is a multiple of w * p and low < w, then high is a multiple of p. */
  lemma LowIsZero(v: int, low: int, high: int, w: int, p: int)
    requires w > 0 && p > 0 && w * p > 0 && v == low + w * high && 0 <= low < w && v % (w * p) == 0
    ensures high % p == 0
  {
    var m := v / (w * p);
    assert v == m * (w * p);
    Regroup(m, w, p);
    DivModUnique(v, w, high, low);
    DivModUnique(v, w, m * p, 0);
    ModShift(0, p, m);
  }

  /** pn[shift / 32] |= 1 << (shift & 31). */
  method SetBitAt(pn: array<Limb>, shift: nat)
    requires pn.Length == WIDTH && shift < 256 && Value(pn[..]) % Pow2(shift + 1) == 0
    modifies pn
    ensures Value(pn[..]) == old(Value(pn[..])) + Pow2(shift)
  {
    hide Value, Pow2, Weight;
    var k, j := shift / 32, shift % 32;
    LimbOfMultiple(pn[..], k, j + 1);
    Pow2Less(j, j + 1);
    Pow2Less(j, 32);
    Pow2Word();
    Pow2Add(j, 32 * k);
    WeightPow2(k);
    OrLimb(pn, k, Pow2(j), j + 1);
  }
}
