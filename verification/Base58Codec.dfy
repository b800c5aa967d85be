/** EncodeBase58 and DecodeBase58, and that they invert each other. */
module Base58Codec {
  import opened Radix
  import opened Base58
  import opened Options

  // ---------------------------------------------------------------- what they compute

  function ToText(s: seq<int>): (r: string)
    requires Digits(s, 58)
    ensures |r| == |s| && forall i :: 0 <= i < |s| ==> r[i] == CharOf(s[i])
  {
    seq(|s|, i requires 0 <= i < |s| => CharOf(s[i]))
  }

  predicate AllDigits(t: string) {
    forall i :: 0 <= i < |t| ==> DigitOf(t[i]).Some?
  }

  function ToDigits(t: string): (r: seq<int>)
    requires AllDigits(t)
    ensures |r| == |t| && Digits(r, 58) && forall i :: 0 <= i < |t| ==> r[i] == DigitOf(t[i]).value
  {
    seq(|t|, i requires 0 <= i < |t| => DigitOf(t[i]).value)
  }

  /** The number of leading spaces. */
  function Spaces(t: string): (k: nat)
    ensures k <= |t| && (k < |t| ==> !IsSpace(t[k])) && forall i :: 0 <= i < k ==> IsSpace(t[i])
  {
    if t != "" && IsSpace(t[0]) then
      var k := Spaces(t[1..]);
      assert forall i :: 0 < i < k + 1 ==> t[i] == t[1..][i - 1];
      1 + k
    else 0
  }

  /** The length of the text up to the first space. */
  function Word(t: string): (k: nat)
    ensures k <= |t| && (k < |t| ==> IsSpace(t[k])) && forall i :: 0 <= i < k ==> !IsSpace(t[i])
  {
    if t != "" && !IsSpace(t[0]) then
      var k := Word(t[1..]);
      assert forall i :: 0 < i < k + 1 ==> t[i] == t[1..][i - 1];
      1 + k
    else 0
  }

  function Encoded(bytes: seq<int>): string
    requires Digits(bytes, 256)
  {
    ToText(Convert(bytes, 256, 58))
  }

  /** The first word of a text. */
  function WordIn(t: string): string {
    var a := t[Spaces(t)..];
    a[..Word(a)]
  }

  /** One word of the alphabet, with spaces around it at most. */
  function Decoded(t: string): Option<seq<int>> {
    var a := t[Spaces(t)..];
    var w := WordIn(t);
    if AllDigits(w) && Spaces(a[Word(a)..]) == |a| - Word(a) then Some(Convert(ToDigits(w), 58, 256)) else None
  }

  // ---------------------------------------------------------------- round trips

  lemma WordOf(t: string)
    requires AllDigits(t)
    ensures Spaces(t) == 0 && Word(t) == |t|
  {
    forall i | 0 <= i < |t| ensures !IsSpace(t[i]) {
      AlphabetBijective(0, t[i]);
    }
  }

  lemma DecodedWord(t: string)
    requires AllDigits(t)
    ensures Decoded(t) == Some(Convert(ToDigits(t), 58, 256))
  {
    WordOf(t);
    assert t[0..] == t && t[..|t|] == t && t[|t|..] == "";
    hide Convert;
  }

  /** Every byte string survives. */
  lemma DecodeEncode(bytes: seq<int>)
    requires Digits(bytes, 256)
    ensures Decoded(Encoded(bytes)) == Some(bytes)
  {
    var s := Convert(bytes, 256, 58);
    var t := ToText(s);
    hide Convert, CharOf, DigitOf;
    forall i | 0 <= i < |t| ensures DigitOf(t[i]) == Some(s[i]) {
      AlphabetBijective(s[i], t[i]);
    }
    assert ToDigits(t) == s;
    DecodedWord(t);
    ConvertBack(bytes, 256, 58);
  }

  /** Every text of the alphabet survives. */
  lemma EncodeDecode(t: string)
    requires AllDigits(t)
    ensures Decoded(t).Some? && Digits(Decoded(t).value, 256) && Encoded(Decoded(t).value) == t
  {
    var s := ToDigits(t);
    hide Convert, CharOf, DigitOf, Decoded;
    DecodedWord(t);
    ConvertBack(s, 58, 256);
    assert ToText(s) == t by {
      forall i | 0 <= i < |t| ensures CharOf(s[i]) == t[i] {
        AlphabetBijective(s[i], t[i]);
      }
    }
  }

  predicate AllSpaces(t: string) {
    forall i :: 0 <= i < |t| ==> IsSpace(t[i])
  }

  /** What is accepted is a word of the alphabet between spaces, and it is the encoding of what it decodes to. */
  lemma Accepted(t: string)
    requires Decoded(t).Some?
    ensures AllDigits(WordIn(t)) && Digits(Decoded(t).value, 256) && Encoded(Decoded(t).value) == WordIn(t)
    ensures var i := Spaces(t); var j := i + |WordIn(t)|;
            j <= |t| && t == t[..i] + WordIn(t) + t[j..] && AllSpaces(t[..i]) && AllSpaces(t[j..])
  {
    hide *;
    AcceptedWord(t);
    EncodeDecode(WordIn(t));
    DecodedWord(WordIn(t));
    AcceptedSpaces(t);
  }

  lemma AcceptedWord(t: string)
    requires Decoded(t).Some?
    ensures AllDigits(WordIn(t)) && Decoded(t) == Some(Convert(ToDigits(WordIn(t)), 58, 256))
  {
    hide Convert, DigitOf, CharOf;
  }

  lemma AcceptedSpaces(t: string)
    requires Decoded(t).Some?
    ensures var i := Spaces(t); var j := i + |WordIn(t)|;
            j <= |t| && t == t[..i] + WordIn(t) + t[j..] && AllSpaces(t[..i]) && AllSpaces(t[j..])
  {
    hide *;
    var i := Spaces(t);
    var k := Word(t[i..]);
    WordInIs(t);
    AcceptedTail(t);
    SpacesBefore(t);
    SpacesBefore(t[i..][k..]);
    Pieces(t, i, k);
  }

  lemma WordInIs(t: string)
    ensures WordIn(t) == t[Spaces(t)..][..Word(t[Spaces(t)..])]
  {
  }

  lemma Pieces(t: string, i: nat, k: nat)
    requires i + k <= |t|
    ensures var w, tail := t[i..][..k], t[i..][k..];
            t == t[..i] + w + t[i + k..] && t[i + k..] == tail && tail[..|tail|] == tail && |w| == k
  {
  }

  lemma SpacesBefore(t: string)
    ensures AllSpaces(t[..Spaces(t)])
  {
  }

  lemma AcceptedTail(t: string)
    requires Decoded(t).Some?
    ensures var a := t[Spaces(t)..]; Spaces(a[Word(a)..]) == |a| - Word(a)
  {
    hide Convert, DigitOf, CharOf, Spaces, Word;
  }

  // ---------------------------------------------------------------- the loops

  /** Leading zeros skipped, the buffer holds the digits of its number. */
  method SkipZeros(b: array<int>, length: nat, base: int, ghost v: int) returns (s: seq<int>)
    requires length <= b.Length && base >= 2 && Digits(b[..], base) && Value(b[..], base) == v >= 0
    requires forall k :: 0 <= k < b.Length - length ==> b[k] == 0
    ensures s == Canon(v, base)
  {
    hide Canon, Value;
    var it := b.Length - length;
    while it != b.Length && b[it] == 0
      invariant 0 <= it <= b.Length && forall k :: 0 <= k < it ==> b[k] == 0
      decreases b.Length - it
    {
      it := it + 1;
    }
    s := b[it..];
    assert s == b[..][it..];
    ValueSkipZeros(b[..], it, base);
    CanonOfValue(s, base);
  }

  /** The prefix read so far is a smaller number than the whole buffer can hold. */
  lemma PrefixFits(s: seq<int>, k: nat, n: nat, a: int, b: int, size: nat)
    requires a >= 2 && b >= 2 && Digits(s, a) && k < |s| <= n && Pow(b, size) >= Pow(a, n)
    ensures 0 <= Value(s[..k], a) && Value(s[..k + 1], a) == a * Value(s[..k], a) + s[k]
    ensures a * Value(s[..k], a) + s[k] < Pow(b, size)
  {
    ValueNonNegative(s[..k], a);
    ValueNonNegative(s[..k + 1], a);
    assert s[..k + 1][..k] == s[..k];
    assert Value(s[..k + 1], a) == Value(s[..k], a) * a + s[k];
    hide Pow, Value;
    PowMono(a, k + 1, n);
  }

  /** The digits of s in base b, by Horner's rule in a buffer of a sufficient size. */
  method ChangeBase(s: seq<int>, a: int, b: int, size: nat) returns (r: seq<int>)
    requires a >= 2 && b >= 2 && Digits(s, a) && Pow(b, size) >= Pow(a, |s|)
    ensures Value(s, a) >= 0 && r == Canon(Value(s, a), b)
  {
    hide Pow, Value, Canon;
    var buffer := new int[size](_ => 0);
    var length: nat := 0;
    BufferZero(buffer[..], b);
    ValueNone(a);
    assert s[..0] == [];
    for k := 0 to |s|
      invariant length <= size && Digits(buffer[..], b) && Value(buffer[..], b) == Value(s[..k], a)
      invariant forall j :: 0 <= j < size - length ==> buffer[j] == 0
    {
      PrefixFits(s, k, |s|, a, b, size);
      length := MulAdd(buffer, length, b, a, s[k]);
    }
    assert s[..|s|] == s;
    ValueNonNegative(s, a);
    r := SkipZeros(buffer, length, b, Value(s, a));
  }

  lemma BufferZero(s: seq<int>, b: int)
    requires b > 0 && forall i :: 0 <= i < |s| ==> s[i] == 0
    ensures Value(s, b) == 0
  {
    ValueSkipZeros(s, |s|, b);
    assert s[|s|..] == [];
  }

  method EncodeBase58(bytes: seq<int>) returns (str: string)
    requires Digits(bytes, 256)
    ensures str == Encoded(bytes)
  {
    hide Canon, CharOf, Value, Pow, Repeat;
    var zeroes := 0;
    while zeroes < |bytes| && bytes[zeroes] == 0
      invariant 0 <= zeroes <= |bytes| && forall i :: 0 <= i < zeroes ==> bytes[i] == 0
    {
      zeroes := zeroes + 1;
    }
    ZerosUnique(bytes, zeroes);
    var body := bytes[zeroes..];
    assert Digits(body, 256);
    EnoughDigits();
    SizeSuffices(256, 58, 138, 100, |body|);
    var b58 := ChangeBase(body, 256, 58, |body| * 138 / 100 + 1);
    str := seq(zeroes, _ => '1') + ToText(b58);
    TextOf(zeroes, b58);
  }

  lemma ZerosUnique(s: seq<int>, z: nat)
    requires z <= |s| && (z < |s| ==> s[z] != 0) && forall i :: 0 <= i < z ==> s[i] == 0
    ensures Zeros(s) == z
  {
  }

  lemma TextOf(z: nat, s: seq<int>)
    requires Digits(s, 58)
    ensures Digits(Repeat(z) + s, 58) && seq(z, _ => '1') + ToText(s) == ToText(Repeat(z) + s)
  {
    AlphabetBijective(0, '1');
    hide CharOf;
  }

  method DecodeBase58(psz: string) returns (r: Option<seq<int>>)
    ensures r == Decoded(psz)
  {
    hide Canon, DigitOf, Value, Pow, Repeat, IsSpace, Spaces, Word, Convert, AllDigits;
    var p := SkipSpaces(psz, 0);
    assert psz[0..] == psz;
    var a := psz[p..];
    var ok, digits, end := ReadWord(a);
    if !ok {
      return None;
    }
    var q := SkipSpaces(a, end);
    if q != |a| {
      return None;
    }
    var bytes := DigitsToBytes(digits, |a|);
    r := Some(bytes);
  }

  method SkipSpaces(t: string, from: nat) returns (q: nat)
    requires from <= |t|
    ensures q == from + Spaces(t[from..])
  {
    hide IsSpace;
    q := from;
    while q < |t| && IsSpace(t[q])
      invariant from <= q <= |t| && forall i :: from <= i < q ==> IsSpace(t[i])
    {
      q := q + 1;
    }
    SpacesUnique(t[from..], q - from);
  }

  lemma SpacesUnique(t: string, k: nat)
    requires k <= |t| && (k < |t| ==> !IsSpace(t[k])) && forall i :: 0 <= i < k ==> IsSpace(t[i])
    ensures Spaces(t) == k
  {
  }

  lemma WordUnique(t: string, k: nat)
    requires k <= |t| && (k < |t| ==> IsSpace(t[k])) && forall i :: 0 <= i < k ==> !IsSpace(t[i])
    ensures Word(t) == k
  {
  }

  /** The digits up to the first space, unless one is not in the alphabet. */
  method ReadWord(a: string) returns (ok: bool, digits: seq<int>, end: nat)
    ensures ok <==> AllDigits(a[..Word(a)])
    ensures ok ==> end == Word(a) && digits == ToDigits(a[..end])
  {
    hide DigitOf, IsSpace;
    digits, end := [], 0;
    while end < |a| && !IsSpace(a[end])
      invariant 0 <= end <= |a| && |digits| == end && forall i :: 0 <= i < end ==> !IsSpace(a[i])
      invariant forall i :: 0 <= i < end ==> DigitOf(a[i]) == Some(digits[i])
    {
      var d := DigitOf(a[end]);
      if d == None {
        assert end < Word(a) && a[..Word(a)][end] == a[end];
        return false, digits, end;
      }
      digits := digits + [d.value];
      end := end + 1;
    }
    WordUnique(a, end);
    ok := true;
  }

  /** The bytes of a digit string; the buffer is allocated for n characters. */
  method DigitsToBytes(s: seq<int>, n: nat) returns (vch: seq<int>)
    requires Digits(s, 58) && |s| <= n
    ensures vch == Convert(s, 58, 256)
  {
    hide Canon, Value, Pow, Repeat;
    var zeroes := 0;
    while zeroes < |s| && s[zeroes] == 0
      invariant 0 <= zeroes <= |s| && forall i :: 0 <= i < zeroes ==> s[i] == 0
    {
      zeroes := zeroes + 1;
    }
    ZerosUnique(s, zeroes);
    var body := s[zeroes..];
    assert Digits(body, 58);
    EnoughBytes();
    SizeSuffices(58, 256, 733, 1000, n - zeroes);
    PowMono(58, |body|, n - zeroes);
    var b256 := ChangeBase(body, 58, 256, (n - zeroes) * 733 / 1000 + 1);
    vch := Repeat(zeroes) + b256;
  }

  // ---------------------------------------------------------------- with a checksum

  /** Four bytes of a hash. */
  type Checksum = seq<int> -> seq<int>

  ghost predicate FourBytes(checksum: Checksum) {
    forall s :: |checksum(s)| == 4 && Digits(checksum(s), 256)
  }

  function EncodedCheck(bytes: seq<int>, checksum: Checksum): string
    requires Digits(bytes + checksum(bytes), 256)
  {
    Encoded(bytes + checksum(bytes))
  }

  /** The bytes before a checksum that is right. */
  function DecodedCheck(t: string, checksum: Checksum): Option<seq<int>> {
    var d := Decoded(t);
    if d.None? || |d.value| < 4 then None
    else
      var n := |d.value| - 4;
      if checksum(d.value[..n]) == d.value[n..] then Some(d.value[..n]) else None
  }

  /** What was encoded is accepted and given back; what is accepted, apart from spaces around it, was encoded. */
  lemma CheckedRoundTrip(bytes: seq<int>, t: string, checksum: Checksum)
    requires FourBytes(checksum)
    ensures Digits(bytes, 256) ==>
              Digits(bytes + checksum(bytes), 256) &&
                DecodedCheck(EncodedCheck(bytes, checksum), checksum) == Some(bytes)
    ensures DecodedCheck(t, checksum) == Some(bytes) ==>
              Digits(bytes + checksum(bytes), 256) && EncodedCheck(bytes, checksum) == WordIn(t)
  {
    hide Encoded, Decoded;
    var all := bytes + checksum(bytes);
    assert |checksum(bytes)| == 4 && Digits(checksum(bytes), 256);
    assert all[..|bytes|] == bytes && all[|bytes|..] == checksum(bytes);
    if Digits(bytes, 256) {
      DecodeEncode(all);
    }
    if DecodedCheck(t, checksum) == Some(bytes) {
      Accepted(t);
      var d := Decoded(t).value;
      assert d == d[..|d| - 4] + d[|d| - 4..];
    }
  }
}
