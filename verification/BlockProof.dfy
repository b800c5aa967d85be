/** Compact targets and block proofs on limbs, as the arithmetic of CompactTarget. */
module BlockProof {
  import opened Powers
  import opened Limbs
  import opened ArithUint256
  import opened ArithShift
  import opened ArithDivide
  import opened CompactTarget

  /** Assignment from a 64-bit number. */
  method AssignWord(pn: array<Limb>, b: int)
    requires pn.Length == WIDTH && 0 <= b < TWO_64
    modifies pn
    ensures Value(pn[..]) == b
  {
    hide Value, Weight;
    Clear(pn);
    WeightLow();
    SetLimb(pn, 0, b % BASE);
    SetLimb(pn, 1, b / BASE);
  }

  lemma WeightLow()
    ensures Weight(0) == 1 && Weight(1) == BASE
  {
  }

  lemma LowLimbs(s: seq<Limb>)
    requires |s| == WIDTH
    ensures Value(s) == s[0] + BASE * s[1] + Weight(2) * Value(s[2..])
  {
    hide Value, Weight;
    ValueSplit(s, 2);
    ValueNext(s, 1);
    ValueNext(s, 0);
    assert s[..0] == [];
    ValueEmpty();
    WeightLow();
  }

  method EqualTo(pn: array<Limb>, b: int) returns (equal: bool)
    requires pn.Length == WIDTH && 0 <= b < TWO_64
    ensures equal <==> Value(pn[..]) == b
  {
    hide Value, Weight;
    ghost var s := pn[..];
    LowLimbs(s);
    var i := WIDTH - 1;
    while i >= 2
      invariant 1 <= i < WIDTH && forall j :: i < j < WIDTH ==> s[j] == 0
    {
      if pn[i] != 0 {
        HighLimb(s, i);
        return false;
      }
      i := i - 1;
    }
    ValueZero(s[2..]);
    assert Weight(2) * 0 == 0;
    equal := pn[1] == b / BASE && pn[0] == b % BASE;
  }

  lemma HighLimb(s: seq<Limb>, i: nat)
    requires |s| == WIDTH && 2 <= i < WIDTH && s[i] != 0
    ensures Value(s) >= TWO_64
  {
    hide Value, Weight;
    ValueSplit(s, i + 1);
    ValueNext(s, i);
    WeightAdd(2, i - 2);
    assert Weight(2) == TWO_64 by { WeightAdd(1, 1); WeightLow(); }
    MulMono(1, Weight(i - 2), TWO_64);
    MulMono(1, s[i], Weight(i));
    MulMono(0, Value(s[i + 1..]), Weight(i + 1));
  }

  method SetCompact(pn: array<Limb>, nCompact: Word) returns (negative: bool, overflow: bool)
    requires pn.Length == WIDTH
    modifies pn
    ensures Decoded(Value(pn[..]), negative, overflow) == Decode(nCompact)
  {
    hide Value, Weight, Pow2;
    Pow2Byte();
    Pow2Zero();
    var size := nCompact / EXPONENT_UNIT;
    var word := nCompact % MANTISSA_LIMIT;
    if size <= 3 {
      word := word / Pow2(8 * (3 - size));
      MantissaShift(nCompact);
      AssignWord(pn, word);
      SmallMod(word);
    } else {
      AssignWord(pn, word);
      ShiftLeftAssign(pn, 8 * (size - 3));
    }
    assert word == Mantissa(nCompact);
    hide Mantissa;
    negative := word != 0 && nCompact / MANTISSA_LIMIT % 2 == 1;
    overflow := word != 0 && (size > 34 || (word > 0xff && size > 33) || (word > 0xffff && size > 32));
  }

  /** The shift of a small exponent. */
  lemma MantissaShift(n: Word)
    requires n / EXPONENT_UNIT <= 3
    ensures Mantissa(n) == n % MANTISSA_LIMIT / Pow2(8 * (3 - n / EXPONENT_UNIT))
  {
    hide Pow2;
    Pow2Byte();
    Pow2Zero();
  }

  /** The low 64 bits. */
  method GetLow64(pn: array<Limb>) returns (low: int)
    requires pn.Length == WIDTH
    ensures Value(pn[..]) < TWO_64 ==> low == Value(pn[..])
    ensures 0 <= low < TWO_64
  {
    hide Value, Weight;
    low := Or(pn[0], pn[1] * BASE);
    ghost var s := pn[..];
    LowLimbs(s);
    OrWords(s[0], s[1]);
    if Value(s) < TWO_64 {
      assert Weight(2) == TWO_64 by { WeightAdd(1, 1); WeightLow(); }
      var high := Value(s[2..]);
      if high > 0 {
        MulMono(1, high, TWO_64);
        assert false;
      }
    }
  }

  lemma OrWords(a: Limb, b: Limb)
    ensures Or(a, b * BASE) == a + b * BASE
  {
    Pow2Word();
    hide Pow2;
    ModShift(0, BASE, b);
    OrDisjointSwap(b * BASE, a, 32);
  }

  /** The three highest bytes. */
  method HighBytes(pn: array<Limb>, size: nat) returns (top: int)
    requires pn.Length == WIDTH && Value(pn[..]) >= 0 && IsByteSize(Value(pn[..]), size)
    ensures top == Top(Value(pn[..]), size)
  {
    hide Value, Weight, Pow2;
    ghost var v := Value(pn[..]);
    TopRange(v, size);
    if size <= 3 {
      SmallValue(v, size);
      var low := GetLow64(pn);
      top := low * Pow2(8 * (3 - size)) % TWO_64 % BASE;
    } else {
      var bn := Copy(pn);
      ShiftRightAssign(bn, 8 * (size - 3));
      top := GetLow64(bn);
      top := top % BASE;
    }
  }

  method GetCompact(pn: array<Limb>, negative: bool) returns (compact: int)
    requires pn.Length == WIDTH
    ensures Value(pn[..]) >= 0 && compact == Encode(Value(pn[..]), negative)
  {
    hide Value, Weight, Pow2, Top, Size, Encode, IsByteSize;
    ghost var v := Value(pn[..]);
    Fits(pn[..]);
    var bits := Bits(pn);
    var size := (bits + 7) / 8;
    BitsToBytes(v, bits);
    compact := HighBytes(pn, size);
    StoredFields(v, size, negative);
    if compact / MANTISSA_LIMIT % 2 == 1 {
      compact := compact / 256;
      size := size + 1;
    }
    assert compact < MANTISSA_LIMIT && size < 256;
    var sign := negative && compact != 0;
    OrFields(compact, size, sign);
    compact := Or(compact, size * EXPONENT_UNIT);
    compact := Or(compact, if sign then MANTISSA_LIMIT else 0);
  }

  lemma StoredFields(v: nat, size: nat, negative: bool)
    requires v < TWO_256 && IsByteSize(v, size)
    ensures
      var top := Top(v, size);
      var c, s := if top / MANTISSA_LIMIT % 2 == 1 then top / 256 else top,
                  if top / MANTISSA_LIMIT % 2 == 1 then size + 1 else size;
      && 0 <= c < MANTISSA_LIMIT && s < 256
      && Encode(v, negative) == c + s * EXPONENT_UNIT + if negative && c != 0 then MANTISSA_LIMIT else 0
  {
    hide Top, Pow2;
    ByteSizeIs(v);
    ByteSizeUnique(v, size, ByteSize(v));
    TopRange(v, size);
    SizeBound(v);
    EncodeNormal(v, negative);
  }

  lemma SmallValue(v: int, size: nat)
    requires IsByteSize(v, size) && size <= 3
    ensures v < TWO_64
  {
    hide Pow2;
    Pow2Byte();
    if size > 0 {
      Pow2Split(8 * size, 24);
    }
  }

  lemma OrFields(c: int, s: nat, sign: bool)
    requires 0 <= c < MANTISSA_LIMIT && s < 256
    ensures Or(c, s * EXPONENT_UNIT) == c + s * EXPONENT_UNIT
    ensures Or(c + s * EXPONENT_UNIT, if sign then MANTISSA_LIMIT else 0) ==
              c + s * EXPONENT_UNIT + if sign then MANTISSA_LIMIT else 0
  {
    hide Or, Pow2;
    Pow2Byte();
    Pow2Zero();
    OrDisjointSwap(s * EXPONENT_UNIT, c, 24);
    if sign {
      assert Pow2(23) == MANTISSA_LIMIT by { Pow2Add(23, 1); }
      OrSplit(c + s * EXPONENT_UNIT, MANTISSA_LIMIT, 23);
      OrDisjoint(2 * s, 1, 1);
    }
    OrNothing(c);
    OrNothing(c + s * EXPONENT_UNIT);
  }

  lemma OrNothing(x: nat)
    ensures Or(x, 0) == x
  {
  }

  /** Work done by a block with these bits: floor(2^256 / (target + 1)), or zero for a bad target. */
  method GetBlockProof(nBits: Word) returns (proof: array<Limb>)
    ensures proof.Length == WIDTH && Value(proof[..]) == CompactTarget.BlockProof(nBits)
  {
    hide Value, Decode;
    proof := new Limb[WIDTH](_ => 0);
    var negative, overflow := SetCompact(proof, nBits);
    ghost var t := Value(proof[..]);
    TargetBelowMax(nBits);
    var zero := EqualTo(proof, 0);
    if negative || overflow || zero {
      AssignWord(proof, 0);
      return;
    }
    ProofFormula(t);
    var one := new Limb[WIDTH](_ => 0);
    AssignWord(one, 1);
    var next := Copy(proof);
    AddAssign(next, one);
    var rest := Complement(proof);
    SmallMod(t + 1);
    var ok := DivAssign(rest, next);
    assert ok;
    SmallMod((TWO_256 - 1 - t) / (t + 1) + 1);
    AddAssign(rest, one);
    proof := rest;
  }
}
