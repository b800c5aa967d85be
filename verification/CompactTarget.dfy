/** The compact form of difficulty targets: what it decodes to, and what encoding keeps. */
module CompactTarget {
  import opened Powers

  type Word = x: int | 0 <= x < 0x1_0000_0000

  const MANTISSA_LIMIT := 0x80_0000
  const EXPONENT_UNIT := 0x100_0000

  datatype Decoded = Decoded(value: int, negative: bool, overflow: bool)

  // ---------------------------------------------------------------- decoding

  /** The 23-bit mantissa, without the digits that a small exponent cuts off. */
  function Mantissa(n: Word): (m: int)
    ensures 0 <= m < MANTISSA_LIMIT
  {
    var size, word := n / EXPONENT_UNIT, n % MANTISSA_LIMIT;
    if size == 0 then 0 else if size == 1 then word / 0x1_0000 else if size == 2 then word / 0x100 else word
  }

  /** The number of bytes the mantissa is shifted up. */
  function ShiftBytes(n: Word): nat {
    if n / EXPONENT_UNIT <= 3 then 0 else n / EXPONENT_UNIT - 3
  }

  function Decode(n: Word): Decoded {
    var size, word := n / EXPONENT_UNIT, Mantissa(n);
    Decoded(word * Pow2(8 * ShiftBytes(n)) % TWO_256,
            word != 0 && n / MANTISSA_LIMIT % 2 == 1,
            word != 0 && (size > 34 || (word > 0xff && size > 33) || (word > 0xffff && size > 32)))
  }

  /** 256^32 is 2^256, so that the flag's three cases are exactly the overflows. */
  lemma DecodeExact(n: Word)
    ensures Decode(n).overflow <==> Mantissa(n) * Pow2(8 * ShiftBytes(n)) >= TWO_256
    ensures !Decode(n).overflow ==> Decode(n).value == Mantissa(n) * Pow2(8 * ShiftBytes(n))
    ensures Decode(n).negative <==> Mantissa(n) != 0 && n / 0x80_0000 % 2 == 1
  {
    var word, k := Mantissa(n), ShiftBytes(n);
    hide Pow2, Mantissa;
    OverflowCases(word, k);
    var p := Pow2(8 * k);
    MulMono(0, word, p);
    if word * p < TWO_256 {
      DivModUnique(word * p, TWO_256, 0, word * p);
    }
  }

  lemma OverflowCases(word: int, k: nat)
    requires 0 <= word < MANTISSA_LIMIT
    ensures word * Pow2(8 * k) >= TWO_256 <==>
            word != 0 && (k > 31 || (word > 0xff && k > 30) || (word > 0xffff && k > 29))
  {
    hide Pow2;
    Pow2Hash();
    Pow2Byte();
    if k > 31 {
      Pow2Split(256, 8 * k);
      CompareProducts(word, 1, Pow2(8 * k));
    } else if k == 31 {
      Pow2Split(8 * k, 256);
      CompareProducts(word, 0x100, Pow2(8 * k));
    } else if k == 30 {
      Pow2Split(8 * k, 256);
      CompareProducts(word, 0x1_0000, Pow2(8 * k));
    } else {
      Pow2Split(8 * k + 24, 256);
      Pow2Add(8 * k, 24);
      CompareProducts(word, 0x100_0000, Pow2(8 * k));
    }
  }

  lemma CompareProducts(a: int, b: int, p: int)
    requires p > 0
    ensures a >= b <==> a * p >= b * p
    ensures a == 0 ==> a * p == 0
  {
    if a >= b {
      MulMono(b, a, p);
    } else {
      MulMono(a, b - 1, p);
      Distribute(b, -1, p);
    }
  }

  lemma Pow2Byte()
    ensures Pow2(8) == 0x100 && Pow2(16) == 0x1_0000 && Pow2(24) == 0x100_0000
  {
    Pow2Add(8, 8);
    Pow2Add(8, 16);
    assert Pow2(8) == 0x100;
  }

  lemma Pow2Split(a: nat, b: nat)
    requires a <= b
    ensures Pow2(b) == Pow2(a) * Pow2(b - a) && Pow2(a) <= Pow2(b)
  {
    Pow2Add(a, b - a);
    hide Pow2;
    MulMono(1, Pow2(b - a), Pow2(a));
  }

  // ---------------------------------------------------------------- block proof

  /** The expected number of hashes for a target. */
  function BlockProof(n: Word): int {
    var d := Decode(n);
    if d.negative || d.overflow || d.value == 0 then 0 else TWO_256 / (d.value + 1)
  }

  /** A target that is negative, too large or zero proves nothing; otherwise the proof is the largest number whose
      product with the target's successor is at most 2^256. */
  lemma ProofIs(n: Word)
    ensures var d, p := Decode(n), BlockProof(n);
            if d.negative || d.overflow || d.value <= 0 then p == 0
            else p >= 1 && p * (d.value + 1) <= TWO_256 < (p + 1) * (d.value + 1)
  {
    TargetBelowMax(n);
    hide Decode;
    var d, p := Decode(n), BlockProof(n);
    if p != 0 || !(d.negative || d.overflow || d.value == 0) {
      DivAtLeast(TWO_256, d.value + 1, 1);
      assert TWO_256 == TWO_256 / (d.value + 1) * (d.value + 1) + TWO_256 % (d.value + 1);
      Distribute(p, 1, d.value + 1);
    }
  }

  /** No compact target is the largest 256-bit number, so that one more is still a number. */
  lemma TargetBelowMax(n: Word)
    ensures 0 <= Decode(n).value < TWO_256 - 1
  {
    var word, k := Mantissa(n), ShiftBytes(n);
    hide Mantissa, Pow2;
    if k == 0 {
      Pow2Zero();
    } else {
      Pow2Add(1, 8 * k - 1);
      Pow2Zero();
      Regroup(word, 2, Pow2(8 * k - 1));
      EvenBelowMax(word * Pow2(8 * k - 1));
    }
  }

  lemma Pow2Zero()
    ensures Pow2(0) == 1 && Pow2(1) == 2
  {
  }

  lemma EvenBelowMax(x: int)
    ensures 2 * x % TWO_256 < TWO_256 - 1
  {
  }

  /** 2^256 / (t + 1) without 2^256. */
  lemma ProofFormula(t: int)
    requires 1 <= t < TWO_256 - 1
    ensures (TWO_256 - 1 - t) / (t + 1) + 1 == TWO_256 / (t + 1) < TWO_256
  {
    var d := t + 1;
    var q, r := (TWO_256 - d) / d, (TWO_256 - d) % d;
    assert TWO_256 - d == q * d + r;
    Distribute(q, 1, d);
    DivModUnique(TWO_256, d, q + 1, r);
    DivLess(TWO_256, d, TWO_256);
  }

  // ---------------------------------------------------------------- encoding

  /** The number of bytes of a number. */
  function ByteSize(v: nat): nat {
    if v == 0 then 0 else 1 + ByteSize(v / 256)
  }

  predicate IsByteSize(v: int, s: nat) {
    if s == 0 then v == 0 else Pow2(8 * (s - 1)) <= v < Pow2(8 * s)
  }

  /** The three highest of `size` bytes. */
  function Top(v: nat, size: nat): int {
    if size <= 3 then v * Pow2(8 * (3 - size)) else v / Pow2(8 * (size - 3))
  }

  function Encode(v: nat, negative: bool): int {
    Assemble(Top(v, ByteSize(v)), ByteSize(v), negative)
  }

  /** A mantissa that would set the sign bit loses a byte. */
  function Assemble(top: int, size: nat, negative: bool): int {
    var c, s := if top / MANTISSA_LIMIT % 2 == 1 then top / 256 else top,
                if top / MANTISSA_LIMIT % 2 == 1 then size + 1 else size;
    c + s * EXPONENT_UNIT + if negative && c != 0 then MANTISSA_LIMIT else 0
  }

  lemma {:induction false} ByteSizeIs(v: nat)
    ensures IsByteSize(v, ByteSize(v))
  {
    if v > 0 {
      var s := ByteSize(v / 256);
      ByteSizeIs(v / 256);
      Pow2Byte();
      Pow2Add(8, 8 * s);
      if s > 0 {
        Pow2Add(8, 8 * (s - 1));
      } else {
        Pow2Zero();
      }
      hide Pow2;
    }
  }

  lemma ByteSizeUnique(v: int, s: nat, t: nat)
    requires IsByteSize(v, s) && IsByteSize(v, t)
    ensures s == t
  {
    hide Pow2;
    Pow2Zero();
    if s < t {
      Pow2Split(8 * s, 8 * (t - 1));
    } else if t < s {
      Pow2Split(8 * t, 8 * (s - 1));
    }
  }

  /** The bit length in whole bytes is the byte size. */
  lemma BitsToBytes(v: int, bits: nat)
    requires if bits == 0 then v == 0 else Pow2(bits - 1) <= v < Pow2(bits)
    ensures IsByteSize(v, (bits + 7) / 8)
  {
    hide Pow2;
    if bits > 0 {
      var s := (bits + 7) / 8;
      Pow2Split(8 * (s - 1), bits - 1);
      Pow2Split(bits, 8 * s);
    }
  }

  /** The top has three significant bytes. */
  lemma TopRange(v: nat, size: nat)
    requires IsByteSize(v, size)
    ensures 0 <= Top(v, size) < 0x100_0000 && (size > 0 ==> Top(v, size) >= 0x1_0000)
  {
    hide Pow2;
    Pow2Byte();
    Pow2Zero();
    if size == 0 {
    } else if size <= 3 {
      var p := Pow2(8 * (3 - size));
      Pow2Add(8 * size, 8 * (3 - size));
      Pow2Add(8 * (size - 1), 8 * (3 - size));
      MulMono(v, Pow2(8 * size) - 1, p);
      Distribute(Pow2(8 * size), -1, p);
      MulMono(Pow2(8 * (size - 1)), v, p);
    } else {
      var p := Pow2(8 * (size - 3));
      Pow2Add(24, 8 * (size - 3));
      Pow2Add(16, 8 * (size - 3));
      DivLess(v, p, 0x100_0000);
      DivAtLeast(v, p, 0x1_0000);
    }
  }

  /** The exponent that is stored. */
  function Size(v: nat): nat {
    if Top(v, ByteSize(v)) >= MANTISSA_LIMIT then ByteSize(v) + 1 else ByteSize(v)
  }

  /** A larger exponent takes a byte off the top. */
  lemma TopNext(v: nat, size: nat)
    ensures Top(v, size + 1) == Top(v, size) / 256
  {
    hide Pow2;
    Pow2Byte();
    Pow2Zero();
    if size <= 2 {
      var p := Pow2(8 * (2 - size));
      Pow2Add(8 * (2 - size), 8);
      Regroup(v, p, 256);
      DivModUnique(v * p * 256, 256, v * p, 0);
    } else {
      Pow2Add(8 * (size - 3), 8);
      DivDiv(v, Pow2(8 * (size - 3)), 256);
    }
  }

  lemma DivDiv(x: nat, d: int, e: int)
    requires d > 0 && e > 0 && d * e > 0
    ensures x / (d * e) == (x / d) / e
  {
    var a, r := x / d, x % d;
    var b, t := a / e, a % e;
    assert x == a * d + r && a == b * e + t;
    Distribute(b * e, t, d);
    Regroup(b, d, e);
    MulMono(t, e - 1, d);
    MulMono(0, t, d);
    Distribute(e, -1, d);
    DivModUnique(x, d * e, b, t * d + r);
  }

  /** What is stored: the top at the stored exponent, below the sign bit. */
  lemma EncodeNormal(v: nat, negative: bool)
    ensures 0 <= Top(v, Size(v)) < MANTISSA_LIMIT && (v > 0 ==> Top(v, Size(v)) >= 0x8000)
    ensures Encode(v, negative) == Top(v, Size(v)) + Size(v) * EXPONENT_UNIT +
                                   if negative && Top(v, Size(v)) != 0 then MANTISSA_LIMIT else 0
    ensures v == 0 ==> Top(v, Size(v)) == 0
  {
    hide Top;
    ByteSizeIs(v);
    TopRange(v, ByteSize(v));
    TopNext(v, ByteSize(v));
    TopZero(ByteSize(v));
    TopZero(Size(v));
  }

  lemma TopZero(size: nat)
    ensures Top(0, size) == 0
  {
    if size > 3 {
      hide Pow2;
      DivModUnique(0, Pow2(8 * (size - 3)), 0, 0);
    }
  }

  lemma SizeBound(v: nat)
    requires v < TWO_256
    ensures Size(v) <= 33
  {
    hide Top;
    var s := ByteSize(v);
    ByteSizeIs(v);
    hide Pow2;
    Pow2Hash();
    if s > 32 {
      Pow2Split(256, 8 * (s - 1));
    }
  }

  lemma Fields(c: int, s: nat, sign: bool)
    requires 0 <= c < MANTISSA_LIMIT && s < 256
    ensures var n := c + s * EXPONENT_UNIT + if sign then MANTISSA_LIMIT else 0;
            && 0 <= n < 0x1_0000_0000 && n / EXPONENT_UNIT == s && n % MANTISSA_LIMIT == c
            && (n / MANTISSA_LIMIT % 2 == 1 <==> sign)
  {
  }

  /** What survives encoding: all of a small number, the high bytes of a large one. */
  function Rounded(v: nat): int {
    if Size(v) <= 3 then v else v / Pow2(8 * (Size(v) - 3)) * Pow2(8 * (Size(v) - 3))
  }

  /** The decoder's mantissa for what the encoder stored. */
  lemma MantissaOfEncode(v: nat, negative: bool)
    requires v < TWO_256
    ensures 0 <= Encode(v, negative) < 0x1_0000_0000
    ensures Encode(v, negative) / EXPONENT_UNIT == Size(v)
    ensures Mantissa(Encode(v, negative)) == if Size(v) <= 3 then v else Top(v, Size(v))
    ensures Encode(v, negative) / MANTISSA_LIMIT % 2 == 1 <==> negative && v != 0
  {
    var c, s := Top(v, Size(v)), Size(v);
    EncodeNormal(v, negative);
    SizeBound(v);
    Fields(c, s, negative && c != 0);
    hide Encode;
    hide Size;
    SmallTop(v, s);
  }

  lemma SmallTop(v: nat, s: nat)
    ensures s == 1 ==> Top(v, s) / 0x1_0000 == v
    ensures s == 2 ==> Top(v, s) / 0x100 == v
    ensures s == 3 ==> Top(v, s) == v
    ensures s == 0 ==> Top(v, s) == v * 0x100_0000
  {
    hide Pow2;
    Pow2Byte();
    Pow2Zero();
  }

  /** Decoding what was encoded gives the rounded number, its sign, and no overflow. */
  lemma DecodeEncode(v: nat, negative: bool)
    requires v < TWO_256
    ensures 0 <= Encode(v, negative) < 0x1_0000_0000
    ensures Decode(Encode(v, negative)) == Decoded(Rounded(v), negative && v != 0, false)
    ensures Rounded(v) <= v
  {
    hide Pow2, Encode, Mantissa, Top;
    MantissaOfEncode(v, negative);
    EncodeNormal(v, negative);
    RoundedBelow(v);
    DecodeExact(Encode(v, negative));
    Pow2Zero();
    hide Size;
  }

  lemma RoundedBelow(v: nat)
    ensures 0 <= Rounded(v) <= v
    ensures Size(v) > 3 ==> Rounded(v) == Top(v, Size(v)) * Pow2(8 * (Size(v) - 3))
  {
    hide Size;
    if Size(v) > 3 {
      hide Pow2;
      var u := Pow2(8 * (Size(v) - 3));
      assert v == v / u * u + v % u;
      DivAtLeast(v, u, 0);
      MulMono(0, v / u, u);
    }
  }

  /** The rounded number has the same exponent and the same top. */
  lemma RoundedNormal(v: nat)
    ensures Rounded(v) >= 0 && Size(Rounded(v)) == Size(v) && Top(Rounded(v), Size(v)) == Top(v, Size(v))
  {
    RoundedBelow(v);
    if Size(v) > 3 {
      EncodeNormal(v, false);
      var c, s := Top(v, Size(v)), Size(v);
      hide Rounded;
      assert v > 0 by { SizeZero(); }
      SizeOfProduct(c, s);
    }
  }

  lemma SizeZero()
    ensures Size(0) == 0
  {
    TopZero(0);
  }

  /** A normal mantissa and exponent are found again. */
  lemma SizeOfProduct(c: int, s: nat)
    requires s > 3 && 0x8000 <= c < MANTISSA_LIMIT
    ensures c * Pow2(8 * (s - 3)) >= 0
    ensures Size(c * Pow2(8 * (s - 3))) == s && Top(c * Pow2(8 * (s - 3)), s) == c
  {
    hide Pow2;
    var u := Pow2(8 * (s - 3));
    MulMono(0, c, u);
    var r := c * u;
    Pow2Byte();
    Pow2Zero();
    Pow2Add(8, 8 * (s - 3));
    Pow2Add(16, 8 * (s - 3));
    Pow2Add(24, 8 * (s - 3));
    ByteSizeIs(r);
    assert Top(r, s) == c by { DivModUnique(r, u, c, 0); }
    if c >= 0x1_0000 {
      MulMono(0x1_0000, c, u);
      MulMono(c, 0x100_0000 - 1, u);
      assert IsByteSize(r, s);
      ByteSizeUnique(r, s, ByteSize(r));
    } else {
      MulMono(0x100, c, u);
      MulMono(c, 0x1_0000 - 1, u);
      assert IsByteSize(r, s - 1);
      ByteSizeUnique(r, s - 1, ByteSize(r));
      assert Top(r, s - 1) == c * 256 by { TopOfProduct(c, s); }
    }
  }

  lemma TopOfProduct(c: int, s: nat)
    requires s > 3 && c >= 0 && c * Pow2(8 * (s - 3)) >= 0
    ensures Top(c * Pow2(8 * (s - 3)), s - 1) == c * 256
  {
    hide Pow2;
    Pow2Byte();
    Pow2Zero();
    Pow2Add(8, 8 * (s - 4));
    Regroup(c, 256, Pow2(8 * (s - 4)));
    if s > 4 {
      DivModUnique(c * Pow2(8 * (s - 3)), Pow2(8 * (s - 4)), c * 256, 0);
    }
  }

  /** Encoding, decoding and encoding again gives the same word. */
  lemma EncodeIdempotent(v: nat, negative: bool)
    requires v < TWO_256
    ensures 0 <= Encode(v, negative) < 0x1_0000_0000 && Decode(Encode(v, negative)).value >= 0
    ensures Encode(Decode(Encode(v, negative)).value, negative) == Encode(v, negative)
  {
    hide Encode, Decode, Size, Top;
    DecodeEncode(v, negative);
    RoundedNormal(v);
    EncodeNormal(v, negative);
    EncodeNormal(Rounded(v), negative);
  }

  /** The error is less than one unit of the mantissa's last place. */
  lemma RoundedClose(v: nat)
    ensures Size(v) <= 3 ==> Rounded(v) == v
    ensures Size(v) > 3 ==> v < Rounded(v) + Pow2(8 * (Size(v) - 3))
  {
    hide Size;
    if Size(v) > 3 {
      hide Pow2;
      var u := Pow2(8 * (Size(v) - 3));
      assert v == v / u * u + v % u;
    }
  }
}
