/** Powers of two and remainders. */
module Powers {

  function Pow2(n: nat): (r: int)
    ensures r >= 1
  {
    if n == 0 then 1 else 2 * Pow2(n - 1)
  }

  lemma {:induction false} Pow2Add(a: nat, b: nat)
    ensures Pow2(a + b) == Pow2(a) * Pow2(b)
    decreases a
  {
    if a > 0 {
      Pow2Add(a - 1, b);
      assert Pow2(a + b) == 2 * Pow2(a - 1 + b);
      assert 2 * (Pow2(a - 1) * Pow2(b)) == (2 * Pow2(a - 1)) * Pow2(b);
    }
  }

  lemma {:induction false} Pow2Less(a: nat, b: nat)
    requires a < b
    ensures Pow2(a) < Pow2(b)
    decreases b
  {
    if a < b - 1 {
      Pow2Less(a, b - 1);
    }
  }

  lemma Pow2Word()
    ensures Pow2(32) == 0x1_0000_0000
  {
    var a, b := Pow2(8), Pow2(16);
    Pow2Add(8, 8);
    Pow2Add(16, 16);
    assert a == 0x100;
    hide Pow2;
    assert b == 0x100 * 0x100;
  }

  const TWO_32 := 0x1_0000_0000
  const TWO_64 := 0x1_0000_0000_0000_0000
  const TWO_128 := 0x1_0000_0000_0000_0000_0000_0000_0000_0000
  const TWO_256 := 0x1_0000_0000_0000_0000_0000_0000_0000_0000_0000_0000_0000_0000_0000_0000_0000_0000

  lemma Pow2Hash()
    ensures Pow2(64) == TWO_64 && Pow2(256) == TWO_256
  {
    Pow2Word();
    Pow2Add(32, 32);
    Pow2Add(64, 64);
    Pow2Add(128, 128);
    var a, b, c, d := Pow2(32), Pow2(64), Pow2(128), Pow2(256);
    hide Pow2;
    assert b == 0x1_0000_0000 * 0x1_0000_0000;
    assert c == TWO_64 * TWO_64 == TWO_128;
    assert d == TWO_128 * TWO_128;
  }

  /** A division is known by its quotient and remainder. */
  lemma DivModUnique(x: int, d: int, q: int, r: int)
    requires d > 0 && x == q * d + r && 0 <= r < d
    ensures x / d == q && x % d == r
  {
    var k := x / d - q;
    assert x == (x / d) * d + x % d;
    assert r - x % d == k * d by { assert (x / d) * d - q * d == k * d; }
    assert k > 0 ==> k * d >= d;
    assert k < 0 ==> k * d <= -d;
  }

  /** Dividing twice. */
  lemma DivDiv(x: int, d: int, e: int)
    requires d > 0 && e > 0 && d * e > 0
    ensures x / d / e == x / (d * e)
  {
    var q, r := x / d, x % d;
    var p, s := q / e, q % e;
    MulMono(s + 1, e, d);
    Distribute(s, 1, d);
    MulMono(0, s, d);
    TwiceDivided(x, q, r, p, s, d, e);
    DivModUnique(x, d * e, p, s * d + r);
  }

  lemma TwiceDivided(x: int, q: int, r: int, p: int, s: int, d: int, e: int)
    requires x == q * d + r && q == p * e + s
    ensures x == p * (d * e) + (s * d + r)
  {
    assert q * d == p * e * d + s * d;
    assert p * e * d == p * (d * e);
  }

  lemma ModShift(x: int, d: int, k: int)
    requires d > 0
    ensures (x + k * d) % d == x % d
  {
    assert x + k * d == (x / d + k) * d + x % d;
    DivModUnique(x + k * d, d, x / d + k, x % d);
  }

  /** Reducing first modulo a multiple changes nothing. */
  lemma ModMod(x: int, d: int, e: int)
    requires d > 0 && e > 0 && d * e > 0
    ensures (x % (d * e)) % d == x % d
  {
    var q := x / (d * e);
    assert x == q * (d * e) + x % (d * e);
    assert q * (d * e) == (q * e) * d;
    ModShift(x % (d * e), d, q * e);
  }

  lemma ModAdd(x: int, y: int, d: int)
    requires d > 0
    ensures (x % d + y) % d == (x + y) % d
  {
    assert x == (x / d) * d + x % d;
    ModShift(x % d + y, d, x / d);
  }

  lemma ModMul(x: int, y: int, d: int)
    requires d > 0
    ensures ((x % d) * y) % d == (x * y) % d
  {
    var q := x / d;
    assert x == q * d + x % d;
    assert x * y == (x % d) * y + (q * y) * d by {
      assert (q * d + x % d) * y == (q * d) * y + (x % d) * y;
      assert (q * d) * y == (q * y) * d;
    }
    ModShift((x % d) * y, d, q * y);
  }

  // ---------------------------------------------------------------- products

  lemma MulMono(a: int, b: int, c: int)
    requires a <= b && c >= 0
    ensures a * c <= b * c && c * a <= c * b
  {
    assert (b - a) * c >= 0;
  }

  lemma Distribute(a: int, b: int, c: int)
    ensures (a + b) * c == a * c + b * c && c * (a + b) == c * a + c * b
  {
  }

  lemma Regroup(a: int, b: int, c: int)
    ensures a * (b * c) == (a * b) * c && a * (b * c) == b * (a * c)
  {
  }

  /** Quotients below a bound. */
  /** What is below a quotient rounded up. */
  lemma CeilingBound(n: int, d: int, k: int)
    requires d > 0
    ensures k < (n + d - 1) / d <==> k * d < n
  {
    var w := (n + d - 1) / d;
    assert n + d - 1 == w * d + (n + d - 1) % d;
    if k < w {
      MulMono(k + 1, w, d);
      Distribute(k, 1, d);
    } else {
      MulMono(w, k, d);
    }
  }

  /** A number of two digits. */
  lemma TwoDigits(v: int, r: int, w: int, d: int)
    requires 0 <= v < w && 0 <= r < d
    ensures 0 <= v + r * w < w * d
  {
    MulMono(r, d - 1, w);
    MulMono(0, r, w);
    Distribute(d, -1, w);
  }

  lemma DivLess(x: int, d: int, e: int)
    requires d > 0 && x < e * d
    ensures x / d < e
  {
    var q := x / d;
    assert x == q * d + x % d;
    if q >= e {
      MulMono(e, q, d);
    }
  }

  lemma MultipleBelow(x: int, d: int, e: int)
    requires d > 0 && x % d == 0 && x < e * d
    ensures x + d <= e * d
  {
    var q := x / d;
    DivLess(x, d, e);
    assert x == q * d;
    MulMono(q, e - 1, d);
    Distribute(e, -1, d);
  }

  /** A common factor does not change a quotient. */
  lemma ScaledDivision(x: int, d: int, e: int)
    requires d > 0 && e > 0 && e * d > 0
    ensures (x * d) / (e * d) == x / e && (x * d) % (e * d) == (x % e) * d
  {
    var q, r := x / e, x % e;
    Distribute(q * e, r, d);
    Regroup(q, e, d);
    MulMono(r, e - 1, d);
    Distribute(e, -1, d);
    MulMono(0, r, d);
    DivModUnique(x * d, e * d, q, r * d);
  }

  lemma DivAtLeast(x: int, d: int, e: int)
    requires d > 0 && e * d <= x
    ensures e <= x / d
  {
    var q := x / d;
    assert x == q * d + x % d;
    if q < e {
      MulMono(q, e - 1, d);
      Distribute(e, -1, d);
    }
  }

  lemma DivMonotone(a: nat, b: nat, d: nat)
    requires a <= b && d > 0
    ensures 0 <= a / d <= b / d
  {
    var x := a / d;
    assert a == x * d + a % d;
    DivAtLeast(b, d, x);
    DivAtLeast(a, d, 0);
  }
}
