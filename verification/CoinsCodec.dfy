/** The stored form of CCoins: version, header code, bit mask of unspent outputs, the outputs, height. */
module CoinsCodec {
  import opened Octets
  import opened C = Coins
  import opened Varint
  import opened AmountCompression
  import opened Powers
  import opened Options

  /** How scripts are written and read. */
  datatype ScriptCodec = ScriptCodec(write: seq<Byte> -> seq<Byte>, read: seq<Byte> -> Option<Parsed<seq<Byte>>>)

  /** What is written for a script is read as `back`. */
  ghost predicate Returns(codec: ScriptCodec, script: seq<Byte>, back: seq<Byte>) {
    forall rest :: codec.read(codec.write(script) + rest) == Some(Parsed(back, rest))
  }

  /** The unspent outputs' scripts are read as `back` says. */
  ghost predicate AllReturn(codec: ScriptCodec, vout: seq<TxOut>, back: seq<Byte> -> seq<Byte>) {
    forall j :: 0 <= j < |vout| && !vout[j].IsNull() ==> Returns(codec, vout[j].script, back(vout[j].script))
  }

  function OutBack(o: TxOut, back: seq<Byte> -> seq<Byte>): TxOut {
    if o.IsNull() then o else o.(script := back(o.script))
  }

  function OutsBack(vout: seq<TxOut>, back: seq<Byte> -> seq<Byte>): (r: seq<TxOut>)
    ensures |r| == |vout| && forall j :: 0 <= j < |vout| ==> r[j] == OutBack(vout[j], back)
  {
    seq(|vout|, j requires 0 <= j < |vout| => OutBack(vout[j], back))
  }

  // ---------------------------------------------------------------- the bit mask

  predicate Avail(vout: seq<TxOut>, i: nat) {
    i < |vout| && !vout[i].IsNull()
  }

  function One(b: bool): int { if b then 1 else 0 }

  /** Flags as a number, lowest first. */
  function Number(f: seq<bool>): (r: nat)
    ensures r < Pow2(|f|) && (r == 0 <==> forall i :: 0 <= i < |f| ==> !f[i])
  {
    if f == [] then 0
    else
      assert f == [f[0]] + f[1..];
      One(f[0]) + 2 * Number(f[1..])
  }

  /** The lowest k bits of a number. */
  function Bits(n: nat, k: nat): (r: seq<bool>)
    ensures |r| == k
  {
    if k == 0 then [] else [n % 2 == 1] + Bits(n / 2, k - 1)
  }

  lemma {:induction false} BitsOfNumber(f: seq<bool>)
    ensures Bits(Number(f), |f|) == f
  {
    if f != [] {
      BitsOfNumber(f[1..]);
      assert f == [f[0]] + f[1..];
    }
  }

  /** Eight flags as a byte. */
  function ByteOf(f: seq<bool>): (r: Byte)
    requires |f| == 8
    ensures r == 0 <==> forall i :: 0 <= i < 8 ==> !f[i]
  {
    assert Pow2(8) == 256;
    Number(f)
  }

  function Bits8(ch: Byte): (r: seq<bool>)
    ensures |r| == 8
  {
    Bits(ch, 8)
  }

  /** The flags of outputs 2 + 8b and the next seven. */
  function Flags(vout: seq<TxOut>, b: nat): (r: seq<bool>)
    ensures |r| == 8
  {
    seq(8, i requires 0 <= i < 8 => Avail(vout, 2 + 8 * b + i))
  }

  lemma FlagsAt(vout: seq<TxOut>, b: nat, i: nat)
    requires i < 8
    ensures Flags(vout, b)[i] == Avail(vout, 2 + 8 * b + i)
  {
  }

  function MaskByte(vout: seq<TxOut>, b: nat): Byte {
    ByteOf(Flags(vout, b))
  }

  /** The number of bytes that cover all outputs. */
  function Bytes(vout: seq<TxOut>): nat {
    if |vout| <= 2 then 0 else (|vout| - 2 + 7) / 8
  }

  /** The number of bytes up to the last non-zero one, of the first n. */
  function LastUsed(vout: seq<TxOut>, n: nat): (r: nat)
    ensures r <= n && (r > 0 ==> MaskByte(vout, r - 1) != 0)
    ensures forall b :: r <= b < n ==> MaskByte(vout, b) == 0
  {
    if n == 0 then 0 else if MaskByte(vout, n - 1) != 0 then n else LastUsed(vout, n - 1)
  }

  function Mask(vout: seq<TxOut>): (r: seq<Byte>) {
    seq(LastUsed(vout, Bytes(vout)), b requires 0 <= b => MaskByte(vout, b))
  }

  function NonZero(m: seq<Byte>): nat {
    if m == [] then 0 else NonZero(m[1..]) + One(m[0] != 0)
  }

  function AllBits(m: seq<Byte>): (r: seq<bool>)
    ensures |r| == 8 * |m|
  {
    if m == [] then [] else Bits8(m[0]) + AllBits(m[1..])
  }

  // ---------------------------------------------------------------- writing

  function OutBytes(codec: ScriptCodec, o: TxOut): seq<Byte> {
    (if o.value < 0 then [] else Write(Compress(o.value))) + codec.write(o.script)
  }

  /** The unspent outputs from i on. */
  function Outs(codec: ScriptCodec, vout: seq<TxOut>, i: nat): seq<Byte>
    decreases |vout| - i
  {
    if i >= |vout| then []
    else (if vout[i].IsNull() then [] else OutBytes(codec, vout[i])) + Outs(codec, vout, i + 1)
  }

  /** How many non-zero mask bytes there are, less one if neither of the first two outputs is unspent. */
  function Code(c: Coins): int {
    var first, second := Avail(c.vout, 0), Avail(c.vout, 1);
    8 * (NonZero(Mask(c.vout)) - One(!first && !second)) + One(c.coinBase) + 2 * One(first) + 4 * One(second)
  }

  function Encode(codec: ScriptCodec, c: Coins): seq<Byte> {
    Write(c.version) + (Write(Code(c)) + (Mask(c.vout) + (Outs(codec, c.vout, 0) + Write(c.height))))
  }

  // ---------------------------------------------------------------- reading

  /** Mask bytes until `count` non-zero ones have come. */
  function ReadMask(count: nat, s: seq<Byte>): Option<Parsed<seq<bool>>>
    decreases |s|
  {
    if count == 0 then Some(Parsed([], s))
    else if s == [] then None
    else
      match ReadMask(if s[0] != 0 then count - 1 else count, s[1..])
      case None => None
      case Some(p) => Some(Parsed(Bits8(s[0]) + p.value, p.rest))
  }

  /** The amount of a 64-bit code: the result is 64 bits wide, and signed. */
  function Amount(code: nat): int {
    Signed(Decompress(code) % TWO_64, TWO_64)
  }

  function ReadOut(codec: ScriptCodec, s: seq<Byte>): Option<Parsed<TxOut>> {
    match ReadWord(s, TWO_64)
    case None => None
    case Some(v) =>
      match codec.read(v.rest)
      case None => None
      case Some(p) => Some(Parsed(TxOut(Amount(v.value), p.value), p.rest))
  }

  function ReadOuts(codec: ScriptCodec, avail: seq<bool>, i: nat, s: seq<Byte>): Option<Parsed<seq<TxOut>>>
    decreases |avail| - i
  {
    if i >= |avail| then Some(Parsed([], s))
    else
      match if avail[i] then ReadOut(codec, s) else Some(Parsed(NULL_OUT, s))
      case None => None
      case Some(o) =>
        match ReadOuts(codec, avail, i + 1, o.rest)
        case None => None
        case Some(p) => Some(Parsed([o.value] + p.value, p.rest))
  }

  function MaskCode(code: nat): nat {
    code / 8 + One(code / 2 % 4 == 0)
  }

  /** Version and height are signed, the header code is not; all have 32 bits. */
  function Decode(codec: ScriptCodec, s: seq<Byte>): Option<Parsed<Coins>> {
    match ReadWord(s, TWO_32)
    case None => None
    case Some(version) =>
      match ReadWord(version.rest, TWO_32)
      case None => None
      case Some(code) =>
        match ReadMask(MaskCode(code.value), code.rest)
        case None => None
        case Some(mask) =>
          match ReadOuts(codec, [code.value / 2 % 2 == 1, code.value / 4 % 2 == 1] + mask.value, 0, mask.rest)
          case None => None
          case Some(outs) =>
            match ReadWord(outs.rest, TWO_32)
            case None => None
            case Some(height) =>
              Some(Parsed(C.Coins.Coins(code.value % 2 == 1, Trim(outs.value), Signed(height.value, TWO_32),
                                        Signed(version.value, TWO_32)), height.rest))
  }

  // ---------------------------------------------------------------- the round trip

  lemma {:induction false} ReadMaskBack(m: seq<Byte>, rest: seq<Byte>)
    requires m == [] || m[|m| - 1] != 0
    ensures ReadMask(NonZero(m), m + rest) == Some(Parsed(AllBits(m), rest))
    decreases |m|
  {
    if m == [] {
      assert m + rest == rest;
    } else {
      hide Bits8;
      assert (m + rest)[1..] == m[1..] + rest;
      NonZeroSome(m);
      ReadMaskBack(m[1..], rest);
    }
  }

  lemma {:induction false} NonZeroSome(m: seq<Byte>)
    requires m != [] && m[|m| - 1] != 0
    ensures NonZero(m) > 0
    decreases |m|
  {
    if |m| > 1 {
      NonZeroSome(m[1..]);
    }
  }

  lemma {:induction false} AllBitsAt(m: seq<Byte>, b: nat, i: nat)
    requires b < |m| && i < 8
    ensures AllBits(m)[8 * b + i] == Bits8(m[b])[i]
    decreases b
  {
    hide Bits8;
    if b > 0 {
      AllBitsAt(m[1..], b - 1, i);
    }
  }

  /** The flags as the reader assembles them. */
  function Flagged(vout: seq<TxOut>): (r: seq<bool>)
    ensures |r| == 2 + 8 * |Mask(vout)|
  {
    [Avail(vout, 0), Avail(vout, 1)] + AllBits(Mask(vout))
  }

  lemma FlaggedAt(vout: seq<TxOut>, i: nat)
    requires i < |Flagged(vout)|
    ensures Flagged(vout)[i] == Avail(vout, i)
  {
    if i >= 2 {
      hide AllBits, Bits8, Flags, Mask, MaskByte, Avail;
      var b, j := (i - 2) / 8, (i - 2) % 8;
      assert i - 2 == 8 * b + j;
      AllBitsAt(Mask(vout), b, j);
      MaskAt(vout, b);
      FlagsAt(vout, b, j);
    }
  }

  lemma MaskAt(vout: seq<TxOut>, b: nat)
    requires b < |Mask(vout)|
    ensures Bits8(Mask(vout)[b]) == Flags(vout, b)
  {
    BitsOfNumber(Flags(vout, b));
    hide Bits, Number, Flags;
  }

  /** The mask reaches the last unspent output. */
  lemma FlaggedCovers(vout: seq<TxOut>)
    requires |vout| > 0 ==> !vout[|vout| - 1].IsNull()
    ensures |vout| <= |Flagged(vout)|
  {
    if |vout| > 2 {
      var n := Bytes(vout);
      var i := |vout| - 3;
      assert 2 + 8 * (i / 8) + i % 8 == |vout| - 1;
      FlagsAt(vout, i / 8, i % 8);
      assert MaskByte(vout, n - 1) != 0;
    }
  }

  predicate Storable(o: TxOut) {
    if o.IsNull() then o == NULL_OUT else 0 <= o.value <= MAX_MONEY
  }

  /** Unspent and spent outputs, and spent ones up to a length. */
  function Padded(vout: seq<TxOut>, n: nat): (r: seq<TxOut>)
    requires |vout| <= n
    ensures |r| == n
  {
    vout + seq(n - |vout|, _ => NULL_OUT)
  }

  /** A number within the type's range is read back. */
  lemma WordBack(n: int, s: seq<Byte>, m: nat)
    requires m > 0x80
    ensures ReadWord(Write(n) + s, m) == Some(Parsed((if n < 0 then n % 0x80 else n) % m, s))
    ensures 0 <= n < m ==> ReadWord(Write(n) + s, m) == Some(Parsed(n, s))
  {
    hide Write, Read;
    ReadWrite(n, s);
  }

  lemma ReadOutBack(codec: ScriptCodec, o: TxOut, back: seq<Byte>, rest: seq<Byte>)
    requires Returns(codec, o.script, back) && 0 <= o.value <= MAX_MONEY
    ensures ReadOut(codec, OutBytes(codec, o) + rest) == Some(Parsed(o.(script := back), rest))
  {
    var w := codec.write(o.script);
    assert OutBytes(codec, o) + rest == Write(Compress(o.value)) + (w + rest);
    hide Write, Read, Compress, Decompress, ReadWord, Amount;
    WordBack(Compress(o.value), w + rest, TWO_64);
    AmountBack(o.value);
  }

  lemma AmountBack(n: nat)
    requires n <= MAX_MONEY
    ensures Compress(n) < TWO_64 && Amount(Compress(n)) == n
  {
    hide Compress, Decompress;
    CompressFits(n);
    DecompressCompress(n);
  }

  lemma {:induction false} ReadOutsBack(codec: ScriptCodec, vout: seq<TxOut>, back: seq<Byte> -> seq<Byte>, i: nat,
                                        rest: seq<Byte>)
    requires AllReturn(codec, vout, back) && |vout| <= |Flagged(vout)| && i <= |Flagged(vout)|
    requires forall j :: 0 <= j < |vout| ==> Storable(vout[j])
    ensures ReadOuts(codec, Flagged(vout), i, Outs(codec, vout, i) + rest) ==
            Some(Parsed(Padded(OutsBack(vout, back), |Flagged(vout)|)[i..], rest))
    decreases |Flagged(vout)| - i
  {
    var f := Flagged(vout);
    if i == |f| {
      assert Outs(codec, vout, i) + rest == rest;
    } else {
      hide Flagged, OutBytes, Outs, Padded, ReadOut, ReadOuts;
      FlaggedAt(vout, i);
      ReadOutsBack(codec, vout, back, i + 1, rest);
      OutsNext(codec, vout, i, rest);
      PaddedNext(OutsBack(vout, back), |f|, i);
      var tail := Outs(codec, vout, i + 1) + rest;
      if Avail(vout, i) {
        ReadOutBack(codec, vout[i], back(vout[i].script), tail);
      }
      ReadOutsNext(codec, f, i, Outs(codec, vout, i) + rest);
    }
  }

  lemma OutsNext(codec: ScriptCodec, vout: seq<TxOut>, i: nat, rest: seq<Byte>)
    ensures Outs(codec, vout, i) + rest ==
            if Avail(vout, i) then OutBytes(codec, vout[i]) + (Outs(codec, vout, i + 1) + rest)
            else Outs(codec, vout, i + 1) + rest
  {
    if Avail(vout, i) {
      assert Outs(codec, vout, i) + rest == OutBytes(codec, vout[i]) + (Outs(codec, vout, i + 1) + rest);
    }
  }

  lemma PaddedNext(vout: seq<TxOut>, n: nat, i: nat)
    requires |vout| <= n && i < n && forall j :: 0 <= j < |vout| ==> Storable(vout[j])
    ensures Padded(vout, n)[i..] == [if Avail(vout, i) then vout[i] else NULL_OUT] + Padded(vout, n)[i + 1..]
  {
  }

  lemma ReadOutsNext(codec: ScriptCodec, avail: seq<bool>, i: nat, s: seq<Byte>)
    requires i < |avail|
    ensures ReadOuts(codec, avail, i, s) ==
      match if avail[i] then ReadOut(codec, s) else Some(Parsed(NULL_OUT, s))
      case None => None
      case Some(o) =>
        match ReadOuts(codec, avail, i + 1, o.rest)
        case None => None
        case Some(p) => Some(Parsed([o.value] + p.value, p.rest))
  {
  }

  lemma {:induction false} TrimPadded(vout: seq<TxOut>, n: nat)
    requires |vout| <= n && (|vout| > 0 ==> !vout[|vout| - 1].IsNull())
    ensures Trim(Padded(vout, n)) == vout
    decreases n
  {
    if n > |vout| {
      assert Padded(vout, n)[..n - 1] == Padded(vout, n - 1);
      TrimPadded(vout, n - 1);
    } else {
      assert Padded(vout, n) == vout;
    }
  }

  /** What writing and reading makes of a 32-bit number: itself, or its low seven bits if it is negative. */
  function Cut(n: int): int { Signed(Sent(n), TWO_32) }

  function Sent(n: int): nat { (if n < 0 then n % 0x80 else n) % TWO_32 }

  lemma CutIs(n: int)
    ensures Cut(n) == n <==> 0 <= n < TWO_32 / 2
    ensures -TWO_32 / 2 <= n < TWO_32 / 2 ==> Cut(n) == if n < 0 then n % 0x80 else n
  {
  }

  /** The header code of coins with a 32-bit number of outputs fits 32 bits. */
  lemma CodeFits(c: Coins)
    requires |c.vout| < TWO_32 - 16
    ensures Code(c) < TWO_32
  {
    NonZeroAtMost(Mask(c.vout));
    assert 8 * |Mask(c.vout)| <= |c.vout| + 7;
    hide Mask, NonZero, Avail;
  }

  lemma {:induction false} NonZeroAtMost(m: seq<Byte>)
    ensures NonZero(m) <= |m|
  {
    if m != [] {
      NonZeroAtMost(m[1..]);
    }
  }

  lemma CodeParts(k: nat, coinBase: bool, first: bool, second: bool)
    ensures var n := 8 * k + One(coinBase) + 2 * One(first) + 4 * One(second);
            && (n % 2 == 1 <==> coinBase) && (n / 2 % 2 == 1 <==> first) && (n / 4 % 2 == 1 <==> second)
            && n / 8 == k && (n / 2 % 4 == 0 <==> !first && !second)
  {
    var y := 2 * k + One(second);
    var x := 2 * y + One(first);
    var n := 2 * x + One(coinBase);
    LowBit(k, second);
    LowBit(y, first);
    LowBit(x, coinBase);
    assert n / 4 == n / 2 / 2 && n / 8 == n / 4 / 2;
  }

  lemma LowBit(x: nat, b: bool)
    ensures (2 * x + One(b)) / 2 == x && ((2 * x + One(b)) % 2 == 1 <==> b)
  {
  }

  lemma CodeFields(c: Coins)
    requires c.Trimmed() && !c.IsPruned()
    ensures Code(c) >= 0 && (Code(c) % 2 == 1 <==> c.coinBase)
    ensures (Code(c) / 2 % 2 == 1 <==> Avail(c.vout, 0)) && (Code(c) / 4 % 2 == 1 <==> Avail(c.vout, 1))
    ensures MaskCode(Code(c)) == NonZero(Mask(c.vout))
  {
    var first, second := Avail(c.vout, 0), Avail(c.vout, 1);
    if !first && !second {
      MaskNeeded(c);
    }
    hide Mask, NonZero, Avail;
    CodeParts(NonZero(Mask(c.vout)) - One(!first && !second), c.coinBase, first, second);
  }

  /** With the first two outputs spent there is a mask byte. */
  lemma MaskNeeded(c: Coins)
    requires c.Trimmed() && !c.IsPruned() && !Avail(c.vout, 0) && !Avail(c.vout, 1)
    ensures NonZero(Mask(c.vout)) > 0
  {
    assert |c.vout| > 2;
    FlaggedCovers(c.vout);
    MaskEndsNonZero(c.vout);
    hide Mask;
    NonZeroSome(Mask(c.vout));
  }

  lemma MaskEndsNonZero(vout: seq<TxOut>)
    ensures Mask(vout) == [] || Mask(vout)[|Mask(vout)| - 1] != 0
  {
  }

  /** Decoding, step by step. */
  lemma DecodeSteps(codec: ScriptCodec, s: seq<Byte>, version: nat, s1: seq<Byte>, code: nat, s2: seq<Byte>,
                    mask: seq<bool>, s3: seq<Byte>, outs: seq<TxOut>, s4: seq<Byte>, height: nat, rest: seq<Byte>)
    requires ReadWord(s, TWO_32) == Some(Parsed(version, s1)) && ReadWord(s1, TWO_32) == Some(Parsed(code, s2))
    requires ReadMask(MaskCode(code), s2) == Some(Parsed(mask, s3))
    requires ReadOuts(codec, [code / 2 % 2 == 1, code / 4 % 2 == 1] + mask, 0, s3) == Some(Parsed(outs, s4))
    requires ReadWord(s4, TWO_32) == Some(Parsed(height, rest))
    ensures Decode(codec, s) ==
            Some(Parsed(C.Coins.Coins(code % 2 == 1, Trim(outs),
                                      Signed(height, TWO_32), Signed(version, TWO_32)), rest))
  {
    hide ReadWord, Signed, ReadMask, ReadOuts, MaskCode, Trim;
  }

  lemma EncodeParts(codec: ScriptCodec, c: Coins, rest: seq<Byte>)
    ensures Encode(codec, c) + rest ==
            Write(c.version) + (Write(Code(c)) + (Mask(c.vout) + (Outs(codec, c.vout, 0) + (Write(c.height) + rest))))
  {
    hide Write, Code, Mask, Outs;
    var o, h := Outs(codec, c.vout, 0), Write(c.height);
    assert o + h + rest == o + (h + rest);
    assert Mask(c.vout) + (o + h) + rest == Mask(c.vout) + (o + (h + rest));
  }

  /** What the source stores: trimmed, not pruned, with amounts of money and a 32-bit number of outputs. */
  predicate StorableCoins(c: Coins) {
    c.Trimmed() && !c.IsPruned() && (forall j :: 0 <= j < |c.vout| ==> Storable(c.vout[j])) && |c.vout| < TWO_32 - 16
  }

  /** They come back as they were, but for a negative version or height and for scripts that the codec changes. */
  lemma RoundTrip(codec: ScriptCodec, c: Coins, back: seq<Byte> -> seq<Byte>, rest: seq<Byte>)
    requires StorableCoins(c) && AllReturn(codec, c.vout, back)
    ensures Decode(codec, Encode(codec, c) + rest) ==
            Some(Parsed(c.(vout := OutsBack(c.vout, back), version := Cut(c.version), height := Cut(c.height)), rest))
  {
    hide Write, Read, Mask, Outs, Code, Padded, ReadMask, ReadOuts, AllBits, Decode, AllReturn, MaskCode, Trim, Encode,
         ReadWord, Signed;
    var vout, f := c.vout, Flagged(c.vout);
    var s4 := Write(c.height) + rest;
    var s3 := Outs(codec, vout, 0) + s4;
    var s2 := Mask(vout) + s3;
    var s1 := Write(Code(c)) + s2;
    var s0 := Write(c.version) + s1;
    EncodeParts(codec, c, rest);
    CodeFields(c);
    CodeFits(c);
    WordBack(c.version, s1, TWO_32);
    WordBack(Code(c), s2, TWO_32);
    MaskEndsNonZero(vout);
    ReadMaskBack(Mask(vout), s3);
    FlaggedCovers(vout);
    ReadOutsBack(codec, vout, back, 0, s4);
    TrimPadded(OutsBack(vout, back), |f|);
    WordBack(c.height, rest, TWO_32);
    var all := Padded(OutsBack(vout, back), |f|);
    assert all[0..] == all;
    DecodeSteps(codec, s0, Sent(c.version), s1, Code(c), s2, AllBits(Mask(vout)), s3, all, s4, Sent(c.height), rest);
  }

  /** So they survive exactly if version and height are not negative 32-bit numbers and all unspent scripts survive. */
  lemma SurvivesIff(codec: ScriptCodec, c: Coins, back: seq<Byte> -> seq<Byte>, rest: seq<Byte>)
    requires StorableCoins(c) && AllReturn(codec, c.vout, back)
    ensures Decode(codec, Encode(codec, c) + rest) == Some(Parsed(c, rest)) <==>
            && 0 <= c.version < TWO_32 / 2 && 0 <= c.height < TWO_32 / 2
            && forall j :: 0 <= j < |c.vout| && !c.vout[j].IsNull() ==> back(c.vout[j].script) == c.vout[j].script
  {
    RoundTrip(codec, c, back, rest);
    CutIs(c.version);
    CutIs(c.height);
    OutsBackSame(c.vout, back);
    hide Decode, Encode, Cut, StorableCoins, AllReturn, OutBack;
  }

  lemma OutsBackSame(vout: seq<TxOut>, back: seq<Byte> -> seq<Byte>)
    ensures OutsBack(vout, back) == vout <==>
            forall j :: 0 <= j < |vout| && !vout[j].IsNull() ==> back(vout[j].script) == vout[j].script
  {
    if OutsBack(vout, back) == vout {
      forall j | 0 <= j < |vout| && !vout[j].IsNull() ensures back(vout[j].script) == vout[j].script {
        assert OutsBack(vout, back)[j] == vout[j];
      }
    }
  }

  /** A coin of a transaction with version -1 comes back with version 127. */
  lemma NegativeVersionLost(codec: ScriptCodec, rest: seq<Byte>)
    requires Returns(codec, [], [])
    ensures var c := Coins(false, [TxOut(5, [])], 1, -1);
            && c.Trimmed() && !c.IsPruned() && Storable(c.vout[0])
            && Decode(codec, Encode(codec, c) + rest) == Some(Parsed(c.(version := 127), rest))
  {
    var c := Coins(false, [TxOut(5, [])], 1, -1);
    assert !c.vout[0].IsNull();
    assert StorableCoins(c);
    CutIs(-1);
    CutIs(1);
    assert OutsBack(c.vout, script => script) == c.vout;
    hide Decode, Encode, Returns, StorableCoins, Cut, Signed, Sent, OutsBack;
    RoundTrip(codec, c, script => script, rest);
  }
}
