/** Amounts with their trailing decimal zeros counted off. */
module AmountCompression {
  import opened Powers

  const COIN := 100_000_000
  const MAX_MONEY := 10_000_000_000 * COIN

  function Pow10(e: nat): (r: nat)
    ensures r > 0
  {
    if e == 0 then 1 else 10 * Pow10(e - 1)
  }

  /** n without up to 9 - e trailing zeros, and e plus their number. */
  function Strip(n: nat, e: nat): (r: (nat, nat))
    requires n > 0 && e <= 9
    ensures e <= r.1 <= 9 && 0 < r.0 <= n && (r.1 < 9 ==> r.0 % 10 != 0)
    decreases n
  {
    if n % 10 == 0 && e < 9 then Strip(n / 10, e + 1) else (n, e)
  }

  function Compress(n: nat): nat {
    if n == 0 then 0
    else
      var s := Strip(n, 0);
      if s.1 < 9 then 1 + (s.0 / 10 * 9 + s.0 % 10 - 1) * 10 + s.1 else 1 + (s.0 - 1) * 10 + 9
  }

  function Decompress(x: nat): nat {
    if x == 0 then 0
    else
      var e, y := (x - 1) % 10, (x - 1) / 10;
      (if e < 9 then y / 9 * 10 + y % 9 + 1 else y + 1) * Pow10(e)
  }

  lemma {:induction false} StripPow(n: nat, e: nat)
    requires n > 0 && e <= 9
    ensures n * Pow10(e) == Strip(n, e).0 * Pow10(Strip(n, e).1)
    decreases n
  {
    if n % 10 == 0 && e < 9 {
      StripPow(n / 10, e + 1);
      var m, p := n / 10, Pow10(e);
      assert n == m * 10 && Pow10(e + 1) == 10 * p;
      hide Strip, Pow10;
      Regroup(m, 10, p);
    }
  }

  lemma DecompressCompress(n: nat)
    ensures Decompress(Compress(n)) == n
  {
    if n > 0 {
      StripPow(n, 0);
      var s := Strip(n, 0);
      assert Pow10(0) == 1;
      hide Strip, Pow10;
      var x := Compress(n);
      if s.1 < 9 {
        assert (x - 1) % 10 == s.1 && (x - 1) / 10 == s.0 / 10 * 9 + s.0 % 10 - 1;
      } else {
        assert (x - 1) % 10 == 9 && (x - 1) / 10 == s.0 - 1;
      }
    }
  }

  /** Stripping undoes a power of ten. */
  lemma {:induction false} StripOf(m: nat, k: nat, e: nat)
    requires m > 0 && k + e <= 9 && (k + e < 9 ==> m % 10 != 0)
    ensures m * Pow10(k) > 0 && Strip(m * Pow10(k), e) == (m, k + e)
    decreases k
  {
    if k > 0 {
      StripOf(m, k - 1, e + 1);
      var q := Pow10(k - 1);
      assert Pow10(k) == 10 * q;
      hide Pow10, Strip;
      Regroup(m, 10, q);
      StripTen(m * q, e);
    } else {
      assert Pow10(0) == 1;
    }
  }

  lemma StripTen(p: nat, e: nat)
    requires p > 0 && e < 9
    ensures Strip(10 * p, e) == Strip(p, e + 1)
  {
  }

  lemma CompressDecompress(x: nat)
    ensures Compress(Decompress(x)) == x
  {
    if x > 0 {
      var e, y := (x - 1) % 10, (x - 1) / 10;
      var m := if e < 9 then y / 9 * 10 + y % 9 + 1 else y + 1;
      assert e < 9 ==> m / 10 == y / 9 && m % 10 == y % 9 + 1;
      hide Strip, Pow10;
      StripOf(m, e, 0);
      assert x == 1 + 10 * y + e && y == y / 9 * 9 + y % 9;
    }
  }

  /** No money amount overflows 64 bits. */
  lemma CompressFits(n: nat)
    requires n <= MAX_MONEY
    ensures Compress(n) < TWO_64
  {
  }

  /** CompressAmount, in 64-bit arithmetic. */
  method CompressAmount(amount: nat) returns (x: nat)
    requires amount < TWO_64
    ensures x == Compress(amount) % TWO_64 && (amount <= MAX_MONEY ==> x == Compress(amount))
  {
    if amount == 0 {
      return 0;
    }
    var n, e := amount, 0;
    while n % 10 == 0 && e < 9
      invariant 0 < n <= amount && e <= 9 && Strip(n, e) == Strip(amount, 0)
    {
      n := n / 10;
      e := e + 1;
    }
    if e < 9 {
      var d := n % 10;
      assert 1 <= d <= 9;
      n := n / 10;
      x := (1 + (n * 9 + d - 1) * 10 + e) % TWO_64;
    } else {
      x := (1 + (n - 1) * 10 + 9) % TWO_64;
    }
    if amount <= MAX_MONEY {
      CompressFits(amount);
    }
  }

  /** DecompressAmount, in 64-bit arithmetic: the amount modulo 2^64, for every code. */
  method DecompressAmount(code: nat) returns (n: nat)
    requires code < TWO_64
    ensures n == Decompress(code) % TWO_64
  {
    if code == 0 {
      return 0;
    }
    var e;
    n, e := Mantissa(code);
    n := Scale(n, e);
  }

  method Mantissa(code: nat) returns (n: nat, e: nat)
    requires 0 < code < TWO_64
    ensures n < TWO_64 && n * Pow10(e) == Decompress(code)
  {
    StartFits(code);
    hide Decompress, Pow10;
    var x := code - 1;
    e := x % 10;
    x := x / 10;
    if e < 9 {
      var d := x % 9 + 1;
      x := x / 9;
      n := x * 10 + d;
    } else {
      n := x + 1;
    }
  }

  /** Multiply by ten e times. */
  method Scale(start: nat, exponent: nat) returns (n: nat)
    requires start < TWO_64
    ensures n == start * Pow10(exponent) % TWO_64
  {
    assert Pow10(0) == 1;
    hide Pow10;
    NoWrap(start);
    var e := exponent;
    n := start;
    while e > 0
      invariant e >= 0 && n < TWO_64 && n * Pow10(e) % TWO_64 == start * Pow10(exponent) % TWO_64
    {
      Shorter(n, e);
      ModMul(n * 10, Pow10(e - 1), TWO_64);
      n := n * 10 % TWO_64;
      e := e - 1;
    }
    NoWrap(n);
  }

  lemma NoWrap(x: nat)
    ensures x < TWO_64 ==> x % TWO_64 == x
  {
  }

  lemma StartFits(code: nat)
    requires 0 < code < TWO_64
    ensures var e, y := (code - 1) % 10, (code - 1) / 10;
            var n := if e < 9 then y / 9 * 10 + y % 9 + 1 else y + 1;
            n < TWO_64 && n * Pow10(e) == Decompress(code)
  {
  }

  lemma Shorter(n: nat, e: nat)
    requires e > 0
    ensures n * Pow10(e) == n * 10 * Pow10(e - 1)
  {
    var p := Pow10(e - 1);
    assert Pow10(e) == 10 * p;
    hide Pow10;
    Regroup(n, 10, p);
  }
}
