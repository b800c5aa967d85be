/** CCoins::CalcMaskSize, Serialize and Unserialize as the loops they are. */
module CoinsStream {
  import opened Octets
  import opened C = Coins
  import opened Varint
  import opened AmountCompression
  import opened CoinsCodec
  import opened Powers
  import opened Options
  import Limbs

  // ---------------------------------------------------------------- the mask's size

  /** The non-zero ones of the first n mask bytes. */
  function CountNonZero(vout: seq<TxOut>, n: nat): nat {
    if n == 0 then 0 else CountNonZero(vout, n - 1) + One(MaskByte(vout, n - 1) != 0)
  }

  lemma {:induction false} NonZeroEnd(m: seq<Byte>, x: Byte)
    ensures NonZero(m + [x]) == NonZero(m) + One(x != 0)
  {
    if m == [] {
      assert ([] + [x])[1..] == [];
    } else {
      assert (m + [x])[1..] == m[1..] + [x];
      NonZeroEnd(m[1..], x);
    }
  }

  function MaskPrefix(vout: seq<TxOut>, n: nat): (r: seq<Byte>)
    ensures |r| == n
  {
    if n == 0 then [] else MaskPrefix(vout, n - 1) + [MaskByte(vout, n - 1)]
  }

  lemma {:induction false} CountIsNonZero(vout: seq<TxOut>, n: nat)
    ensures NonZero(MaskPrefix(vout, n)) == CountNonZero(vout, n)
  {
    if n > 0 {
      CountIsNonZero(vout, n - 1);
      NonZeroEnd(MaskPrefix(vout, n - 1), MaskByte(vout, n - 1));
      hide MaskByte;
    }
  }

  lemma {:induction false} MaskPrefixAt(vout: seq<TxOut>, n: nat, b: nat)
    requires b < n
    ensures MaskPrefix(vout, n)[b] == MaskByte(vout, b)
  {
    if b < n - 1 {
      MaskPrefixAt(vout, n - 1, b);
    }
  }

  lemma MaskIsPrefix(vout: seq<TxOut>)
    ensures Mask(vout) == MaskPrefix(vout, LastUsed(vout, Bytes(vout)))
  {
    var n := LastUsed(vout, Bytes(vout));
    forall b | 0 <= b < n ensures Mask(vout)[b] == MaskPrefix(vout, n)[b] {
      MaskPrefixAt(vout, n, b);
    }
    hide MaskByte;
  }

  /** Bytes after the last used one are zero. */
  lemma {:induction false} CountLastUsed(vout: seq<TxOut>, n: nat)
    ensures CountNonZero(vout, LastUsed(vout, n)) == CountNonZero(vout, n)
  {
    hide MaskByte;
    if n > 0 && MaskByte(vout, n - 1) == 0 {
      CountLastUsed(vout, n - 1);
    }
  }

  method CalcMaskSize(vout: seq<TxOut>) returns (nBytes: nat, nNonzeroBytes: nat)
    ensures nBytes == |Mask(vout)| && nNonzeroBytes == NonZero(Mask(vout))
  {
    MaskIsPrefix(vout);
    CountIsNonZero(vout, LastUsed(vout, Bytes(vout)));
    CountLastUsed(vout, Bytes(vout));
    hide Mask, NonZero, MaskByte, MaskPrefix;
    nBytes, nNonzeroBytes := 0, 0;
    var b := 0;
    while 2 + b * 8 < |vout|
      invariant 0 <= b <= Bytes(vout) && nBytes == LastUsed(vout, b) && nNonzeroBytes == CountNonZero(vout, b)
      decreases Bytes(vout) - b
    {
      var zero := AllSpent(vout, b);
      if !zero {
        nBytes := b + 1;
        nNonzeroBytes := nNonzeroBytes + 1;
      }
      b := b + 1;
    }
  }

  /** The inner loop: no output of a mask byte is unspent. */
  method AllSpent(vout: seq<TxOut>, b: nat) returns (zero: bool)
    ensures zero <==> MaskByte(vout, b) == 0
  {
    hide Number;
    ghost var f := Flags(vout, b);
    zero := true;
    var i := 0;
    while i < 8 && 2 + b * 8 + i < |vout|
      invariant 0 <= i <= 8 && (zero <==> forall j :: 0 <= j < i ==> !f[j])
    {
      FlagsAt(vout, b, i);
      if !vout[2 + b * 8 + i].IsNull() {
        zero := false;
      }
      i := i + 1;
    }
    forall j | i <= j < 8 ensures !f[j] {
      FlagsAt(vout, b, j);
    }
  }

  // ---------------------------------------------------------------- writing

  lemma {:induction false} NumberEnd(f: seq<bool>, x: bool)
    ensures Number(f + [x]) == Number(f) + Pow2(|f|) * One(x)
  {
    if f == [] {
      assert ([] + [x])[1..] == [];
    } else {
      assert (f + [x])[1..] == f[1..] + [x];
      NumberEnd(f[1..], x);
      assert Pow2(|f|) == 2 * Pow2(|f| - 1);
    }
  }

  /** One mask byte, bit by bit. */
  method AvailByte(vout: seq<TxOut>, b: nat) returns (ch: int)
    ensures ch == MaskByte(vout, b)
  {
    var f := Flags(vout, b);
    ch := 0;
    var i := 0;
    assert f[..0] == [];
    while i < 8 && 2 + b * 8 + i < |vout|
      invariant 0 <= i <= 8 && ch == Number(f[..i])
    {
      assert f[..i + 1] == f[..i] + [f[i]];
      NumberEnd(f[..i], f[i]);
      FlagsAt(vout, b, i);
      if !vout[2 + b * 8 + i].IsNull() {
        ModShift(0, Pow2(i), 1);
        Limbs.OrDisjointSwap(Pow2(i), ch, i);
        ch := Limbs.Or(ch, Pow2(i));
      }
      i := i + 1;
    }
    RestClear(vout, b, i);
  }

  /** Flags beyond the outputs are clear. */
  lemma {:induction false} RestClear(vout: seq<TxOut>, b: nat, i: nat)
    requires i <= 8 && (i == 8 || 2 + b * 8 + i >= |vout|)
    ensures Number(Flags(vout, b)[..i]) == MaskByte(vout, b)
    decreases 8 - i
  {
    var f := Flags(vout, b);
    if i == 8 {
      assert f[..8] == f;
    } else {
      RestClear(vout, b, i + 1);
      assert f[..i + 1] == f[..i] + [f[i]];
      NumberEnd(f[..i], f[i]);
      FlagsAt(vout, b, i);
      hide Number, MaskByte;
    }
  }

  method Serialize(codec: ScriptCodec, c: Coins) returns (s: seq<Byte>)
    requires c.Trimmed() && !c.IsPruned() && forall i :: 0 <= i < |c.vout| ==> Storable(c.vout[i])
    ensures s == Encode(codec, c)
  {
    hide Write, Outs, Mask, NonZero, Avail;
    var vout := c.vout;
    var maskSize, maskCode := CalcMaskSize(vout);
    var first := |vout| > 0 && !vout[0].IsNull();
    var second := |vout| > 1 && !vout[1].IsNull();
    AvailIs(vout, 0);
    AvailIs(vout, 1);
    CodeFields(c);
    if !first && !second {
      MaskNeeded(c);
    }
    assert first || second || maskCode > 0;
    var code := 8 * (maskCode - if first || second then 0 else 1) + (if c.coinBase then 1 else 0)
                + (if first then 2 else 0) + if second then 4 else 0;
    assert code == Code(c);
    hide Code;
    var version := WriteVarInt(c.version);
    var header := WriteVarInt(code);
    var mask := WriteMask(vout, maskSize);
    var outs := WriteOuts(codec, vout);
    var height := WriteVarInt(c.height);
    s := version + (header + (mask + (outs + height)));
  }

  lemma AvailIs(vout: seq<TxOut>, i: nat)
    ensures Avail(vout, i) <==> i < |vout| && !vout[i].IsNull()
  {
  }

  method WriteMask(vout: seq<TxOut>, maskSize: nat) returns (mask: seq<Byte>)
    requires maskSize == |Mask(vout)|
    ensures mask == Mask(vout)
  {
    MaskIsPrefix(vout);
    mask := [];
    for b := 0 to maskSize
      invariant mask == MaskPrefix(vout, b)
    {
      var ch := AvailByte(vout, b);
      mask := mask + [ch];
    }
  }

  method WriteOuts(codec: ScriptCodec, vout: seq<TxOut>) returns (out: seq<Byte>)
    requires forall i :: 0 <= i < |vout| ==> Storable(vout[i])
    ensures out == Outs(codec, vout, 0)
  {
    hide Compress, Write;
    out := [];
    assert [] + Outs(codec, vout, 0) == Outs(codec, vout, 0);
    for i := 0 to |vout|
      invariant out + Outs(codec, vout, i) == Outs(codec, vout, 0)
    {
      if !vout[i].IsNull() {
        CompressFits(vout[i].value);
        var amount := CompressAmount(vout[i].value);
        var bytes := WriteVarInt(amount);
        ghost var o, tail := OutBytes(codec, vout[i]), Outs(codec, vout, i + 1);
        assert out + (o + tail) == out + o + tail;
        out := out + (bytes + codec.write(vout[i].script));
      } else {
        assert Outs(codec, vout, i) == [] + Outs(codec, vout, i + 1) == Outs(codec, vout, i + 1);
      }
    }
  }

  // ---------------------------------------------------------------- reading

  function Prepend<T>(a: seq<T>, r: Option<Parsed<seq<T>>>): Option<Parsed<seq<T>>> {
    match r
    case None => None
    case Some(p) => Some(Parsed(a + p.value, p.rest))
  }

  method ReadMaskBytes(maskCode: nat, s: seq<Byte>) returns (r: Option<Parsed<seq<bool>>>)
    ensures r == ReadMask(maskCode, s)
  {
    hide Bits;
    var count, rest := maskCode, s;
    var avail: seq<bool> := [];
    PrependNothing(ReadMask(maskCode, s));
    while count > 0
      invariant Prepend(avail, ReadMask(count, rest)) == ReadMask(maskCode, s)
      decreases |rest|
    {
      if rest == [] {
        return None;
      }
      var ch := rest[0];
      ghost var next := ReadMask(if ch != 0 then count - 1 else count, rest[1..]);
      var bits := ReadBits(ch);
      PrependTwice(avail, bits, next);
      avail, rest := avail + bits, rest[1..];
      if ch != 0 {
        count := count - 1;
      }
    }
    r := Some(Parsed(avail, rest));
    assert avail + [] == avail;
  }

  method ReadBits(ch: Byte) returns (bits: seq<bool>)
    ensures bits == Bits8(ch)
  {
    bits := [];
    var n: nat := ch;
    for p := 0 to 8
      invariant bits + Bits(n, 8 - p) == Bits(ch, 8)
    {
      bits := bits + [n % 2 == 1];
      n := n / 2;
    }
  }

  lemma PrependNothing<T>(r: Option<Parsed<seq<T>>>)
    ensures Prepend([], r) == r
  {
    if r.Some? {
      assert [] + r.value.value == r.value.value;
    }
  }

  lemma PrependTwice<T>(a: seq<T>, b: seq<T>, r: Option<Parsed<seq<T>>>)
    ensures Prepend(a, Prepend(b, r)) == Prepend(a + b, r)
  {
    if r.Some? {
      assert a + (b + r.value.value) == a + b + r.value.value;
    }
  }

  method ReadAllOuts(codec: ScriptCodec, avail: seq<bool>, s: seq<Byte>) returns (r: Option<Parsed<seq<TxOut>>>)
    ensures r == ReadOuts(codec, avail, 0, s)
  {
    hide ReadOut;
    var vout: seq<TxOut> := [];
    var rest := s;
    PrependNothing(ReadOuts(codec, avail, 0, s));
    for i := 0 to |avail|
      invariant Prepend(vout, ReadOuts(codec, avail, i, rest)) == ReadOuts(codec, avail, 0, s)
    {
      var o := NULL_OUT;
      ghost var from := rest;
      if avail[i] {
        var p := ReadCompressed(codec, rest);
        if p == None {
          return None;
        }
        o, rest := p.value.value, p.value.rest;
      }
      assert ReadOuts(codec, avail, i, from) == Prepend([o], ReadOuts(codec, avail, i + 1, rest));
      PrependTwice(vout, [o], ReadOuts(codec, avail, i + 1, rest));
      vout := vout + [o];
    }
    r := Some(Parsed(vout, rest));
    assert vout + [] == vout;
  }

  /** One output through the compressor. */
  method ReadCompressed(codec: ScriptCodec, s: seq<Byte>) returns (r: Option<Parsed<TxOut>>)
    ensures r == ReadOut(codec, s)
  {
    var v := ReadVarInt(s, TWO_64);
    if v == None {
      return None;
    }
    var p := codec.read(v.value.rest);
    if p == None {
      return None;
    }
    var amount := DecompressAmount(v.value.value);
    r := Some(Parsed(TxOut(Signed(amount, TWO_64), p.value.value), p.value.rest));
  }

  method Unserialize(codec: ScriptCodec, s: seq<Byte>) returns (r: Option<Parsed<Coins>>)
    ensures r == Decode(codec, s)
  {
    hide ReadWord, ReadMask, ReadOuts, MaskCode, Trim;
    var version := ReadVarInt(s, TWO_32);
    if version == None {
      return None;
    }
    var code := ReadVarInt(version.value.rest, TWO_32);
    if code == None {
      return None;
    }
    var n := code.value.value;
    var mask := ReadMaskBytes(MaskCode(n), code.value.rest);
    if mask == None {
      return None;
    }
    var outs := ReadAllOuts(codec, [n / 2 % 2 == 1, n / 4 % 2 == 1] + mask.value.value, mask.value.rest);
    if outs == None {
      return None;
    }
    var height := ReadVarInt(outs.value.rest, TWO_32);
    if height == None {
      return None;
    }
    var c := Cleanup(C.Coins.Coins(n % 2 == 1, outs.value.value, Signed(height.value.value, TWO_32),
                                         Signed(version.value.value, TWO_32)));
    r := Some(Parsed(c, height.value.rest));
  }
}
