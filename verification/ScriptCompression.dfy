/** CScriptCompressor: short forms for common output scripts. The elliptic curve is a parameter. */
module ScriptCompression {
  import opened C = Coins
  import opened CoinsCodec
  import opened Octets
  import opened Options
  import opened Powers
  import opened Varint

  const OP_RETURN: Byte := 0x6a
  const OP_DUP: Byte := 0x76
  const OP_EQUAL: Byte := 0x87
  const OP_EQUALVERIFY: Byte := 0x88
  const OP_HASH160: Byte := 0xa9
  const OP_CHECKSIG: Byte := 0xac

  const SPECIAL_SCRIPTS := 6
  const MAX_SCRIPT_SIZE := 10_000

  /** Whether 65 bytes are a point of the curve, and the point with a given compressed form. */
  datatype Curve = Curve(isFullyValid: seq<Byte> -> bool, decompress: seq<Byte> -> Option<seq<Byte>>)

  /** The compressed form of an uncompressed key: the parity of the second coordinate, and the first one. */
  function Parity(key: seq<Byte>): Byte
    requires |key| == 65
  {
    key[64] % 2
  }

  /** A valid key is got back from its parity and first coordinate; keys have 65 bytes, the first of which is 4. */
  ghost predicate Lifts(curve: Curve) {
    && (forall key :: |key| == 65 && key[0] == 4 && curve.isFullyValid(key) ==>
          curve.decompress([2 + Parity(key)] + key[1..33]) == Some(key))
    && (forall k :: curve.decompress(k).Some? ==>
          |curve.decompress(k).value| == 65 && curve.decompress(k).value[0] == 4)
  }

  // ---------------------------------------------------------------- writing

  predicate IsToKeyId(s: seq<Byte>) {
    |s| == 25 && s[0] == OP_DUP && s[1] == OP_HASH160 && s[2] == 20 && s[23] == OP_EQUALVERIFY && s[24] == OP_CHECKSIG
  }

  predicate IsToScriptId(s: seq<Byte>) {
    |s| == 23 && s[0] == OP_HASH160 && s[1] == 20 && s[22] == OP_EQUAL
  }

  predicate IsToCompressedKey(s: seq<Byte>) {
    |s| == 35 && s[0] == 33 && s[34] == OP_CHECKSIG && (s[1] == 2 || s[1] == 3)
  }

  predicate IsToFullKey(curve: Curve, s: seq<Byte>) {
    |s| == 67 && s[0] == 65 && s[66] == OP_CHECKSIG && s[1] == 4 && curve.isFullyValid(s[1..66])
  }

  /** Compress: the short form, if there is one. */
  function Short(curve: Curve, s: seq<Byte>): Option<seq<Byte>> {
    if IsToKeyId(s) then Some([0] + s[3..23])
    else if IsToScriptId(s) then Some([1] + s[2..22])
    else if IsToCompressedKey(s) then Some([s[1]] + s[2..34])
    else if IsToFullKey(curve, s) then Some([4 + s[65] % 2] + s[2..34])
    else None
  }

  /** Serialize; the size is 32 bits wide. */
  function WriteScript(curve: Curve, s: seq<Byte>): seq<Byte> {
    match Short(curve, s)
    case Some(short) => short
    case None => Write((|s| + SPECIAL_SCRIPTS) % TWO_32) + s
  }

  // ---------------------------------------------------------------- reading

  function GetSpecialSize(n: nat): nat {
    if n <= 1 then 20 else if n <= 5 then 32 else 0
  }

  /** Decompress into an empty script, which stays empty if the key is not on the curve. */
  function Long(curve: Curve, n: nat, v: seq<Byte>): seq<Byte>
    requires n < SPECIAL_SCRIPTS && |v| == GetSpecialSize(n)
  {
    if n == 0 then [OP_DUP, OP_HASH160, 20] + v + [OP_EQUALVERIFY, OP_CHECKSIG]
    else if n == 1 then [OP_HASH160, 20] + v + [OP_EQUAL]
    else if n <= 3 then [33, n] + v + [OP_CHECKSIG]
    else match curve.decompress([n - 2] + v)
      case None => []
      case Some(key) => [65] + key + [OP_CHECKSIG]
  }

  /** Unserialize into an empty script; reading or skipping past the end fails. */
  function ReadScript(curve: Curve, s: seq<Byte>): Option<Parsed<seq<Byte>>> {
    match ReadWord(s, TWO_32)
    case None => None
    case Some(p) =>
      if p.value < SPECIAL_SCRIPTS then
        var k := GetSpecialSize(p.value);
        if |p.rest| < k then None else Some(Parsed(Long(curve, p.value, p.rest[..k]), p.rest[k..]))
      else
        var k := p.value - SPECIAL_SCRIPTS;
        if |p.rest| < k then None
        else Some(Parsed(if k > MAX_SCRIPT_SIZE then [OP_RETURN] else p.rest[..k], p.rest[k..]))
  }

  function Compressor(curve: Curve): ScriptCodec {
    ScriptCodec(s => WriteScript(curve, s), s => ReadScript(curve, s))
  }

  // ---------------------------------------------------------------- what is read back

  /** An overly long script comes back as a short one that cannot be spent. */
  function Back(s: seq<Byte>): seq<Byte> {
    if |s| > MAX_SCRIPT_SIZE then [OP_RETURN] else s
  }

  /** The short form is read as the script. */
  lemma ShortLong(curve: Curve, s: seq<Byte>)
    requires Lifts(curve) && Short(curve, s).Some?
    ensures var f := Short(curve, s).value;
            f[0] < SPECIAL_SCRIPTS && |f| == 1 + GetSpecialSize(f[0]) && Long(curve, f[0], f[1..]) == s
  {
    var f := Short(curve, s).value;
    if IsToKeyId(s) {
      assert f[1..] == s[3..23];
    } else if IsToScriptId(s) {
      assert f[1..] == s[2..22];
    } else if IsToCompressedKey(s) {
      assert f[1..] == s[2..34];
    } else {
      FullKey(curve, s);
    }
  }

  lemma FullKey(curve: Curve, s: seq<Byte>)
    requires Lifts(curve) && IsToFullKey(curve, s)
    ensures var n := 4 + s[65] % 2; Long(curve, n, s[2..34]) == s
  {
    var key := s[1..66];
    assert Parity(key) == s[65] % 2 && key[1..33] == s[2..34];
    assert [65] + key + [OP_CHECKSIG] == s;
  }

  lemma OneByte(b: Byte, rest: seq<Byte>)
    requires b < SPECIAL_SCRIPTS
    ensures ReadWord([b] + rest, TWO_32) == Some(Parsed(b, rest))
  {
    assert Write(b) == [b];
    WordBack(b, rest, TWO_32);
  }

  lemma ReadShort(curve: Curve, s: seq<Byte>, rest: seq<Byte>)
    requires Lifts(curve) && Short(curve, s).Some?
    ensures ReadScript(curve, WriteScript(curve, s) + rest) == Some(Parsed(s, rest))
  {
    var f := Short(curve, s).value;
    ShortLong(curve, s);
    hide ReadWord, Short, Long, Lifts;
    var tail := f[1..] + rest;
    assert f + rest == [f[0]] + tail;
    OneByte(f[0], tail);
    assert tail[..|f| - 1] == f[1..] && tail[|f| - 1..] == rest;
  }

  lemma ReadPlain(curve: Curve, s: seq<Byte>, rest: seq<Byte>)
    requires Short(curve, s).None? && |s| < TWO_32 - SPECIAL_SCRIPTS
    ensures ReadScript(curve, WriteScript(curve, s) + rest) == Some(Parsed(Back(s), rest))
  {
    var n := |s| + SPECIAL_SCRIPTS;
    hide ReadWord, Short, Write, Long;
    assert WriteScript(curve, s) + rest == Write(n) + (s + rest);
    WordBack(n, s + rest, TWO_32);
    assert (s + rest)[..|s|] == s && (s + rest)[|s|..] == rest;
  }

  /** Every script below 4 GB is read as it was, or as OP_RETURN if it is longer than 10000 bytes. */
  lemma ScriptReturns(curve: Curve, s: seq<Byte>)
    requires Lifts(curve) && |s| < TWO_32 - SPECIAL_SCRIPTS
    ensures Returns(Compressor(curve), s, Back(s))
  {
    forall rest ensures ReadScript(curve, WriteScript(curve, s) + rest) == Some(Parsed(Back(s), rest)) {
      if Short(curve, s).Some? {
        ReadShort(curve, s, rest);
      } else {
        ReadPlain(curve, s, rest);
      }
    }
    hide ReadScript, WriteScript, Back;
  }

  lemma BackSame(s: seq<Byte>)
    ensures Back(s) == s <==> |s| <= MAX_SCRIPT_SIZE
  {
  }

  /** Stored coins survive exactly if version and height are not negative and no unspent script is longer than
      10000 bytes. */
  lemma StoredSurvivesIff(curve: Curve, c: Coins, rest: seq<Byte>)
    requires Lifts(curve) && StorableCoins(c)
    requires forall j :: 0 <= j < |c.vout| ==> |c.vout[j].script| < TWO_32 - SPECIAL_SCRIPTS
    ensures Decode(Compressor(curve), Encode(Compressor(curve), c) + rest) == Some(Parsed(c, rest)) <==>
            && 0 <= c.version < TWO_32 / 2 && 0 <= c.height < TWO_32 / 2
            && forall j :: 0 <= j < |c.vout| && !c.vout[j].IsNull() ==> |c.vout[j].script| <= MAX_SCRIPT_SIZE
  {
    hide StorableCoins, Decode, Encode, Returns, Back, Compressor, Lifts;
    forall j | 0 <= j < |c.vout| && !c.vout[j].IsNull()
      ensures Returns(Compressor(curve), c.vout[j].script, Back(c.vout[j].script))
      ensures Back(c.vout[j].script) == c.vout[j].script <==> |c.vout[j].script| <= MAX_SCRIPT_SIZE
    {
      ScriptReturns(curve, c.vout[j].script);
      BackSame(c.vout[j].script);
    }
    SurvivesIff(Compressor(curve), c, Back, rest);
  }

  /** A coin with a script of 10001 bytes comes back with OP_RETURN instead. */
  lemma LongScriptLost(curve: Curve, rest: seq<Byte>)
    requires Lifts(curve)
    ensures var c := Coins(false, [TxOut(5, seq(10_001, _ => 0))], 1, 1);
            && StorableCoins(c)
            && Decode(Compressor(curve), Encode(Compressor(curve), c) + rest) ==
               Some(Parsed(c.(vout := [TxOut(5, [OP_RETURN])]), rest))
  {
    var script: seq<Byte> := seq(10_001, _ => 0);
    var c := Coins(false, [TxOut(5, script)], 1, 1);
    assert !c.vout[0].IsNull();
    hide Decode, Encode, Returns, Compressor, Lifts;
    ScriptReturns(curve, script);
    RoundTrip(Compressor(curve), c, Back, rest);
    CutIs(1);
    assert OutsBack(c.vout, Back) == [TxOut(5, [OP_RETURN])];
  }
}
