/** Base58: byte strings as text, leading zero bytes as leading ones. */
module Base58 {
  import opened Powers
  import opened Radix
  import opened Options

  // ---------------------------------------------------------------- the alphabet

  /** Alphanumeric characters without 0, I, O and l. */
  function CharOf(d: int): char
    requires 0 <= d < 58
  {
    if d < 9 then '1' + d as char
    else if d < 17 then 'A' + (d - 9) as char
    else if d < 22 then 'J' + (d - 17) as char
    else if d < 33 then 'P' + (d - 22) as char
    else if d < 44 then 'a' + (d - 33) as char
    else 'm' + (d - 44) as char
  }

  function DigitOf(c: char): (r: Option<int>)
    ensures r.Some? ==> 0 <= r.value < 58
  {
    if '1' <= c <= '9' then Some(c as int - '1' as int)
    else if 'A' <= c <= 'H' then Some(c as int - 'A' as int + 9)
    else if 'J' <= c <= 'N' then Some(c as int - 'J' as int + 17)
    else if 'P' <= c <= 'Z' then Some(c as int - 'P' as int + 22)
    else if 'a' <= c <= 'k' then Some(c as int - 'a' as int + 33)
    else if 'm' <= c <= 'z' then Some(c as int - 'm' as int + 44)
    else None
  }

  predicate IsSpace(c: char) {
    c == ' ' || c == '\t' || c == '\n' || c == '\r' || c as int == 11 || c as int == 12
  }

  lemma AlphabetBijective(d: int, c: char)
    ensures 0 <= d < 58 ==> DigitOf(CharOf(d)) == Some(d) && !IsSpace(CharOf(d)) && (CharOf(d) == '1' <==> d == 0)
    ensures DigitOf(c).Some? ==> CharOf(DigitOf(c).value) == c && !IsSpace(c)
  {
  }

  // ---------------------------------------------------------------- the buffers are large enough

  lemma PowersOfTwo()
    ensures Pow(2, 29) == 0x2000_0000 && Pow(2, 41) == 0x200_0000_0000 && Pow(2, 59) == 0x800_0000_0000_0000
    ensures Pow(2, 129) == 0x2_0000_0000_0000_0000_0000_0000_0000_0000
  {
    hide Pow;
    Byte();
    PowAdd(2, 8, 8);
    PowAdd(2, 16, 8);
    PowAdd(2, 24, 5);
    PowAdd(2, 24, 16);
    PowAdd(2, 40, 1);
    PowAdd(2, 29, 29);
    PowAdd(2, 58, 1);
    PowAdd(2, 59, 5);
    PowAdd(2, 64, 64);
    PowAdd(2, 128, 1);
  }

  lemma PowersOf58()
    ensures Pow(58, 5) == 656356768 && Pow(58, 7) == 2207984167552 && Pow(58, 10) == 430804206899405824
    ensures Pow(58, 22) == 624332378391008467754527498760580235264
  {
    assert Pow(58, 5) == 656356768 && Pow(58, 2) == 3364;
    PowAdd(58, 5, 2);
    PowAdd(58, 5, 5);
    PowAdd(58, 10, 10);
    PowAdd(58, 20, 2);
    hide Pow;
  }

  /** 58^138 >= 256^100, by way of 58^7 >= 2^41. */
  lemma EnoughDigits()
    ensures Pow(58, 138) >= Pow(256, 100)
  {
    hide Pow;
    PowersOfTwo();
    PowersOf58();
    PowPow(58, 7, 19);
    PowPow(2, 41, 19);
    PowAdd(58, 133, 5);
    PowAdd(2, 779, 29);
    PowMono(2, 800, 808);
    PowBase(Pow(2, 41), Pow(58, 7), 19);
    MulMono(Pow(2, 779), Pow(58, 133), Pow(58, 5));
    MulMono(Pow(2, 29), Pow(58, 5), Pow(2, 779));
    PowPow(2, 8, 100);
    Byte();
  }

  lemma Byte()
    ensures Pow(2, 1) == 2 && Pow(2, 5) == 32 && Pow(2, 8) == 256
  {
  }

  /** 256^733 >= 58^1000, by way of 58^22 <= 2^129. */
  lemma EnoughBytes()
    ensures Pow(256, 733) >= Pow(58, 1000)
  {
    hide Pow;
    PowersOfTwo();
    PowersOf58();
    PowPow(58, 22, 45);
    PowPow(2, 129, 45);
    PowAdd(58, 990, 10);
    PowAdd(2, 5805, 59);
    PowBase(Pow(58, 22), Pow(2, 129), 45);
    MulMono(Pow(58, 990), Pow(2, 5805), Pow(58, 10));
    MulMono(Pow(58, 10), Pow(2, 59), Pow(2, 5805));
    PowPow(2, 8, 733);
    Byte();
  }

  /** If b^p >= a^q, then n digits in base a need at most n * p / q + 1 in base b. */
  lemma SizeSuffices(a: nat, b: nat, p: nat, q: nat, n: nat)
    requires a > 1 && b > 1 && q > 0 && Pow(b, p) >= Pow(a, q)
    ensures Pow(b, n * p / q + 1) >= Pow(a, n)
  {
    hide Pow;
    DivAtLeast(n * p, q, 0);
    var size := n * p / q + 1;
    assert size * q >= n * p by {
      assert n * p == n * p / q * q + n * p % q;
      Distribute(n * p / q, 1, q);
    }
    if Pow(b, size) < Pow(a, n) {
      PowBaseStrict(Pow(b, size), Pow(a, n), q);
      PowPow(b, size, q);
      PowPow(a, n, q);
      PowMono(b, n * p, size * q);
      Commute(n, p);
      Commute(n, q);
      PowPow(b, p, n);
      PowPow(a, q, n);
      PowBase(Pow(a, q), Pow(b, p), n);
    }
  }

  lemma Commute(a: int, b: int)
    ensures a * b == b * a
  {
  }

  // ---------------------------------------------------------------- multiply and add, in place

  /** A digit in front. */
  lemma {:induction false} ValueFront(x: int, s: seq<int>, b: int)
    requires b > 0
    ensures Value([x] + s, b) == x * Pow(b, |s|) + Value(s, b)
    decreases |s|
  {
    if s == [] {
      assert ([x] + s)[..0] == [] && [x] + s == [x];
    } else {
      var n := |s| - 1;
      ValueFront(x, s[..n], b);
      assert ([x] + s)[..|s|] == [x] + s[..n];
      var p, v := Pow(b, n), Value(s[..n], b);
      assert Pow(b, |s|) == b * p;
      hide Pow, Value;
      Distribute(x * p, v, b);
      Regroup(x, b, p);
    }
  }

  lemma {:induction false} ValueSkipZeros(s: seq<int>, k: nat, b: int)
    requires b > 0 && k <= |s| && forall i :: 0 <= i < k ==> s[i] == 0
    ensures Value(s, b) == Value(s[k..], b)
    decreases k
  {
    if k > 0 {
      assert s == [0] + s[1..];
      ValueFront(0, s[1..], b);
      ValueSkipZeros(s[1..], k - 1, b);
      assert s[1..][k - 1..] == s[k..];
    } else {
      assert s[0..] == s;
    }
  }

  /** One digit: what it was times the factor, plus the carry. */
  lemma MulAddColumn(old_: seq<int>, now: seq<int>, next: seq<int>, i: nat, base: int, factor: int, carry: int,
                     add: int)
    requires |old_| == |now| == |next| && i < |now| && base >= 2
    requires var k := |now| - 1 - i; now[k] == old_[k] && next == now[k := (carry + factor * now[k]) % base]
    requires Value(now[|now| - i..], base) + carry * Pow(base, i) == factor * Value(old_[|old_| - i..], base) + add
    ensures var k := |now| - 1 - i;
            Value(next[k..], base) + (carry + factor * now[k]) / base * Pow(base, i + 1) ==
              factor * Value(old_[k..], base) + add
  {
    var k := |now| - 1 - i;
    var x, p := old_[k], Pow(base, i);
    var n := carry + factor * x;
    assert next[k..] == [n % base] + now[k + 1..] && old_[k..] == [x] + old_[k + 1..];
    assert now[|now| - i..] == now[k + 1..] && old_[|old_| - i..] == old_[k + 1..];
    ValueFront(n % base, now[k + 1..], base);
    ValueFront(x, old_[k + 1..], base);
    var v, w := Value(now[k + 1..], base), Value(old_[k + 1..], base);
    assert Pow(base, i + 1) == base * p;
    hide Pow, Value;
    ColumnSum(carry, x, v, w, p, base, factor, add);
  }

  lemma ColumnSum(carry: int, x: int, v: int, w: int, p: int, base: int, factor: int, add: int)
    requires base >= 2 && v + carry * p == factor * w + add
    ensures var n := carry + factor * x;
            n % base * p + v + n / base * (base * p) == factor * (x * p + w) + add
  {
    var n := carry + factor * x;
    assert n == n / base * base + n % base;
    Regroup(n / base, base, p);
    Distribute(n / base * base, n % base, p);
    Distribute(carry, factor * x, p);
    Regroup(factor, x, p);
    Distribute(x * p, w, factor);
  }

  /** b = b * factor + add on the lowest digits; `length` of them are in use. The carry ends at zero because the
      result fits. */
  method MulAdd(b: array<int>, length: nat, base: int, factor: int, add: int) returns (newLength: nat)
    requires base >= 2 && factor >= 2 && 0 <= add < factor && length <= b.Length && Digits(b[..], base)
    requires forall k :: 0 <= k < b.Length - length ==> b[k] == 0
    requires factor * Value(b[..], base) + add < Pow(base, b.Length)
    modifies b
    ensures newLength <= b.Length && Digits(b[..], base) && forall k :: 0 <= k < b.Length - newLength ==> b[k] == 0
    ensures Value(b[..], base) == factor * old(Value(b[..], base)) + add
  {
    hide Pow, Value;
    var n := b.Length;
    ghost var before := b[..];
    var carry, i := add, 0;
    ValueNone(base);
    assert before[n..] == [];
    while (carry != 0 || i < length) && i < n
      invariant 0 <= i <= n && carry >= 0 && Digits(b[..], base)
      invariant forall k :: 0 <= k < n - i ==> b[k] == before[k]
      invariant Value(b[..][n - i..], base) + carry * Pow(base, i) == factor * Value(before[n - i..], base) + add
      decreases n - i
    {
      ghost var now, carried := b[..], carry;
      var k := n - 1 - i;
      var product := factor * b[k];
      MulNonNegative(factor, b[k]);
      carry := carry + product;
      b[k] := carry % base;
      MulAddColumn(before, now, b[..], i, base, factor, carried, add);
      carry := carry / base;
      i := i + 1;
    }
    MulAddDone(before, b[..], i, length, base, factor, carry, add);
    assert carry == 0;
    newLength := i;
  }

  lemma ValueNone(base: int)
    requires base > 0
    ensures Value([], base) == 0 && Pow(base, 0) == 1
  {
  }

  lemma MulNonNegative(a: int, b: int)
    ensures a >= 0 && b >= 0 ==> a * b >= 0
  {
  }

  lemma MulAddDone(before: seq<int>, now: seq<int>, i: nat, length: nat, base: int, factor: int, carry: int, add: int)
    requires |before| == |now| && i <= |now| && base >= 2 && factor >= 2 && carry >= 0 && Digits(now, base)
    requires forall k :: 0 <= k < |now| - i ==> now[k] == before[k]
    requires forall k :: 0 <= k < |now| - length ==> before[k] == 0
    requires length <= |now| && ((carry == 0 && i >= length) || i == |now|)
    requires Value(now[|now| - i..], base) + carry * Pow(base, i) == factor * Value(before[|now| - i..], base) + add
    requires factor * Value(before, base) + add < Pow(base, |now|)
    ensures carry == 0 && Value(now, base) == factor * Value(before, base) + add
    ensures forall k :: 0 <= k < |now| - i ==> now[k] == 0
  {
    hide Pow, Value;
    var n := |now|;
    ValueSkipZeros(before, n - i, base);
    ValueSkipZeros(now, n - i, base);
    ValueNonNegative(now, base);
    if i == n {
      assert now[0..] == now && before[0..] == before;
      if carry > 0 {
        MulMono(1, carry, Pow(base, n));
      }
    }
  }
}
