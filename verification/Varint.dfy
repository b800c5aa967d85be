/** Variable-length integers: base 128, most significant digit first, each but the last one less than it counts. */
module Varint {
  import opened Octets
  import opened Powers
  import opened Options

  /** A value read from a stream, and what follows it. */
  datatype Parsed<T> = Parsed(value: T, rest: seq<Byte>)

  /** The digits of n, all with the continuation bit. */
  function Digits(n: nat): (r: seq<Byte>)
    ensures |r| > 0
  {
    if n <= 0x7F then [n + 0x80] else Digits(n / 0x80 - 1) + [n % 0x80 + 0x80]
  }

  /** The encoding; a negative number is cut to its low seven bits. */
  function Write(n: int): (r: seq<Byte>)
    ensures |r| > 0
  {
    if n <= 0x7F then [n % 0x80] else Digits(n / 0x80 - 1) + [n % 0x80]
  }

  function ReadFrom(n: nat, s: seq<Byte>): Option<Parsed<nat>>
    decreases |s|
  {
    if s == [] then None
    else
      var m := n * 0x80 + s[0] % 0x80;
      if s[0] >= 0x80 then ReadFrom(m + 1, s[1..]) else Some(Parsed(m, s[1..]))
  }

  function Read(s: seq<Byte>): Option<Parsed<nat>> {
    ReadFrom(0, s)
  }

  /** The number as it arrives in an unsigned type with m values. */
  function ReadWord(s: seq<Byte>, m: nat): (r: Option<Parsed<nat>>)
    requires m > 0
    ensures r.Some? ==> r.value.value < m
  {
    match Read(s)
    case None => None
    case Some(p) => Some(Parsed(p.value % m, p.rest))
  }

  /** The bits of an unsigned number with m values, taken for a signed one. */
  function Signed(x: nat, m: nat): int {
    if x < m / 2 then x else x - m
  }

  lemma {:induction false} ReadDigits(n: nat, s: seq<Byte>)
    ensures ReadFrom(0, Digits(n) + s) == ReadFrom(n + 1, s)
  {
    if n <= 0x7F {
      assert (Digits(n) + s)[1..] == s;
    } else {
      var m, d := n / 0x80 - 1, [n % 0x80 + 0x80];
      ReadDigits(m, d + s);
      assert Digits(n) + s == Digits(m) + (d + s);
      assert (d + s)[1..] == s;
    }
  }

  /** Reading gives the number back, or its low seven bits if it was negative. */
  lemma ReadWrite(n: int, s: seq<Byte>)
    ensures Read(Write(n) + s) == Some(Parsed(if n < 0 then n % 0x80 else n, s))
  {
    if n <= 0x7F {
      assert (Write(n) + s)[1..] == s;
    } else {
      var m, d := n / 0x80 - 1, [n % 0x80];
      assert Write(n) + s == Digits(m) + (d + s);
      assert (d + s)[1..] == s;
      assert ReadFrom(m + 1, d + s) == Some(Parsed(n, s));
      hide Write, Digits, ReadFrom;
      ReadDigits(m, d + s);
    }
  }

  /** A sequence from its end to its beginning. */
  function Backwards(s: seq<Byte>): (r: seq<Byte>)
    ensures |r| == |s|
  {
    if s == [] then [] else [s[|s| - 1]] + Backwards(s[..|s| - 1])
  }

  /** The digits that are still to come, before those in the buffer. */
  function Pending(m: int, more: bool): seq<Byte> {
    if !more then Write(m) else if m < 0 then [] else Digits(m)
  }

  /** WriteVarInt: digits from the last to the first into a buffer, which is then written backwards. */
  method WriteVarInt(n: int) returns (out: seq<Byte>)
    ensures out == Write(n)
  {
    var tmp: seq<Byte> := [];
    var m := n;
    assert Write(n) + Backwards([]) == Write(n);
    hide Write, Digits, Backwards, Pending;
    PendingStart(n);
    while m > 0x7F
      invariant (tmp == [] ==> m == n) && (tmp != [] ==> m >= 0)
      invariant Pending(m, tmp != []) + Backwards(tmp) == Write(n)
      decreases m
    {
      PendingNext(m, tmp);
      tmp := tmp + [Digit(m, tmp != [])];
      m := m / 0x80 - 1;
    }
    PendingLast(m, tmp);
    tmp := tmp + [Digit(m, tmp != [])];
    out := WriteBackwards(tmp);
  }

  function Digit(m: int, more: bool): Byte {
    m % 0x80 + if more then 0x80 else 0
  }

  lemma PendingStart(n: int)
    ensures Pending(n, false) == Write(n) && Backwards([]) == []
  {
  }

  lemma PendingNext(m: int, tmp: seq<Byte>)
    requires m > 0x7F
    ensures Pending(m, tmp != []) + Backwards(tmp) ==
            Pending(m / 0x80 - 1, true) + Backwards(tmp + [Digit(m, tmp != [])])
  {
    var d := Digit(m, tmp != []);
    assert (tmp + [d])[..|tmp|] == tmp;
    assert Pending(m, tmp != []) == Digits(m / 0x80 - 1) + [d];
    hide Digits, Backwards;
  }

  lemma PendingLast(m: int, tmp: seq<Byte>)
    requires m <= 0x7F && (tmp != [] ==> m >= 0)
    ensures Pending(m, tmp != []) + Backwards(tmp) == Backwards(tmp + [Digit(m, tmp != [])])
  {
    var d := Digit(m, tmp != []);
    assert Pending(m, tmp != []) == [d];
    hide Pending, Digit;
    assert (tmp + [d])[..|tmp|] == tmp;
    assert Backwards(tmp + [d]) == [d] + Backwards(tmp);
  }

  method WriteBackwards(tmp: seq<Byte>) returns (out: seq<Byte>)
    ensures out == Backwards(tmp)
  {
    hide Backwards;
    out := [];
    var i := |tmp|;
    assert tmp[..i] == tmp;
    while i > 0
      invariant 0 <= i <= |tmp| && out + Backwards(tmp[..i]) == Backwards(tmp)
    {
      i := i - 1;
      BackwardsNext(tmp, i);
      assert out + ([tmp[i]] + Backwards(tmp[..i])) == out + [tmp[i]] + Backwards(tmp[..i]);
      out := out + [tmp[i]];
    }
    BackwardsNone(tmp);
  }

  lemma BackwardsNext(tmp: seq<Byte>, i: nat)
    requires i < |tmp|
    ensures Backwards(tmp[..i + 1]) == [tmp[i]] + Backwards(tmp[..i])
  {
    assert tmp[..i + 1][..i] == tmp[..i];
  }

  lemma BackwardsNone(tmp: seq<Byte>)
    ensures Backwards(tmp[..0]) == []
  {
  }

  /** ReadVarInt on a stream, until a byte without the continuation bit, in an unsigned type with m values. Digits
      that do not fit are shifted out: what is left is the number modulo m. */
  method ReadVarInt(s: seq<Byte>, m: nat) returns (r: Option<Parsed<nat>>)
    requires m > 0 && m % 0x80 == 0
    ensures r == ReadWord(s, m)
  {
    var n: nat, rest := 0, s;
    ghost var whole: nat := 0;
    ReadIs(s);
    hide Read, ReadFrom;
    while rest != []
      invariant ReadFrom(whole, rest) == Read(s) && n == whole % m
      decreases |rest|
    {
      var ch := rest[0];
      ReadFromNext(whole, rest);
      Shifted(whole, ch % 0x80, m);
      rest := rest[1..];
      whole := whole * 0x80 + ch % 0x80;
      n := n * 0x80 % m + ch % 0x80;  // the shifted bits and the digit do not overlap
      if ch >= 0x80 {
        ModAdd(whole, 1, m);
        whole := whole + 1;
        n := (n + 1) % m;
      } else {
        return Some(Parsed(n, rest));
      }
    }
    ReadFromEnd(whole);
    r := None;
  }

  lemma ReadFromNext(n: nat, s: seq<Byte>)
    requires s != []
    ensures var m := n * 0x80 + s[0] % 0x80;
            ReadFrom(n, s) == if s[0] >= 0x80 then ReadFrom(m + 1, s[1..]) else Some(Parsed(m, s[1..]))
  {
  }

  lemma ReadFromEnd(n: nat)
    ensures ReadFrom(n, []) == None
  {
  }

  lemma ReadIs(s: seq<Byte>)
    ensures Read(s) == ReadFrom(0, s)
  {
  }

  lemma Shifted(whole: nat, d: nat, m: nat)
    requires m > 0 && m % 0x80 == 0 && d < 0x80
    ensures (whole * 0x80 + d) % m == (whole % m) * 0x80 % m + d
  {
    var z := whole * 0x80;
    ModMul(whole, 0x80, m);
    MultipleBelow(z, d, m);
    hide *;
    DivModUnique(z + d, m, z / m, z % m + d);
  }

  /** The remainder of a multiple of 128 leaves room for a digit. */
  lemma MultipleBelow(z: nat, d: nat, m: nat)
    requires m > 0 && m % 0x80 == 0 && z % 0x80 == 0 && d < 0x80
    ensures z % m + d < m
  {
    var k := m / 0x80;
    assert m == 0x80 * k;
    ModMod(z, 0x80, k);
    var y := z % m;
    assert y % 0x80 == 0 && y < m;
    var j := y / 0x80;
    assert y == 0x80 * j && j < k;
  }
}
