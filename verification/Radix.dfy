/** Digit strings in any base, most significant digit first, and the change of base that keeps leading zeros. */
module Radix {
  import opened Powers

  function Pow(b: nat, n: nat): (r: nat)
    requires b > 0
    ensures r > 0
  {
    if n == 0 then 1 else b * Pow(b, n - 1)
  }

  predicate Digits(s: seq<int>, b: int) {
    forall i :: 0 <= i < |s| ==> 0 <= s[i] < b
  }

  function Value(s: seq<int>, b: int): int {
    if s == [] then 0 else Value(s[..|s| - 1], b) * b + s[|s| - 1]
  }

  /** The digits of a number without leading zeros. */
  function Canon(v: nat, b: int): (r: seq<int>)
    requires b >= 2
    ensures Digits(r, b) && (v == 0 <==> r == []) && (r != [] ==> r[0] != 0)
    decreases v
  {
    if v == 0 then []
    else
      Quotient(v, b);
      Canon(v / b, b) + [v % b]
  }

  lemma Quotient(v: nat, b: int)
    requires b >= 2 && v > 0
    ensures 0 <= v / b < v && v == v / b * b + v % b
  {
    DivAtLeast(v, b, 0);
    MulMono(1, b, v);
    DivLess(v, b, v);
  }

  lemma {:induction false} ValueNonNegative(s: seq<int>, b: int)
    requires Digits(s, b) && b > 0
    ensures 0 <= Value(s, b) < Pow(b, |s|)
    decreases |s|
  {
    if s != [] {
      var n := |s| - 1;
      ValueNonNegative(s[..n], b);
      var v, p := Value(s[..n], b), Pow(b, n);
      assert Pow(b, |s|) == b * p;
      hide Pow, Value;
      MulMono(0, v, b);
      MulMono(v, p - 1, b);
      Distribute(p, -1, b);
    }
  }

  lemma {:induction false} ValueOfCanon(v: nat, b: int)
    requires b >= 2
    ensures Value(Canon(v, b), b) == v
    decreases v
  {
    if v > 0 {
      Quotient(v, b);
      ValueOfCanon(v / b, b);
      assert (Canon(v / b, b) + [v % b])[..|Canon(v / b, b)|] == Canon(v / b, b);
    }
  }

  /** Digits without a leading zero are the canonical ones. */
  lemma {:induction false} CanonOfValue(s: seq<int>, b: int)
    requires b >= 2 && Digits(s, b) && (s != [] ==> s[0] != 0)
    ensures Value(s, b) >= 0 && Canon(Value(s, b), b) == s
    decreases |s|
  {
    if s != [] {
      var n := |s| - 1;
      var v := Value(s[..n], b);
      CanonOfValue(s[..n], b);
      ValueNonNegative(s[..n], b);
      assert s == s[..n] + [s[n]];
      MulMono(0, v, b);
      if v == 0 {
        assert s[..n] == [];
        assert v * b == 0;
      } else {
        MulMono(1, v, b);
      }
      CanonStep(v, s[n], b);
    }
  }

  lemma CanonStep(v: nat, d: int, b: int)
    requires b >= 2 && 0 <= d < b && v * b + d > 0
    ensures Canon(v * b + d, b) == Canon(v, b) + [d]
  {
    DivModUnique(v * b + d, b, v, d);
  }

  /** The number of leading zeros. */
  function Zeros(s: seq<int>): (z: nat)
    ensures z <= |s| && (z < |s| ==> s[z] != 0) && forall i :: 0 <= i < z ==> s[i] == 0
  {
    if s != [] && s[0] == 0 then
      var z := Zeros(s[1..]);
      assert forall i :: 0 < i < z + 1 ==> s[i] == s[1..][i - 1];
      1 + z
    else 0
  }

  function Repeat(z: nat): (r: seq<int>)
    ensures |r| == z && forall i :: 0 <= i < z ==> r[i] == 0
  {
    if z == 0 then [] else [0] + Repeat(z - 1)
  }

  /** Change of base: as many leading zeros, then the digits of the same number. */
  function Convert(s: seq<int>, a: int, b: int): (r: seq<int>)
    requires a >= 2 && b >= 2 && Digits(s, a)
    ensures Digits(r, b)
  {
    var z := Zeros(s);
    ValueNonNegative(s[z..], a);
    Repeat(z) + Canon(Value(s[z..], a), b)
  }

  lemma {:induction false} ZerosOf(z: nat, t: seq<int>)
    requires t != [] ==> t[0] != 0
    ensures Zeros(Repeat(z) + t) == z && (Repeat(z) + t)[z..] == t
  {
    if z == 0 {
      assert Repeat(z) + t == t;
    } else {
      ZerosOf(z - 1, t);
      assert (Repeat(z) + t)[1..] == Repeat(z - 1) + t;
    }
  }

  lemma {:induction false} ZerosPrefix(s: seq<int>)
    ensures s == Repeat(Zeros(s)) + s[Zeros(s)..]
  {
    var z := Zeros(s);
    assert s[..z] == Repeat(z);
  }

  /** Changing the base and changing it back. */
  lemma ConvertBack(s: seq<int>, a: int, b: int)
    requires a >= 2 && b >= 2 && Digits(s, a)
    ensures Convert(Convert(s, a, b), b, a) == s
  {
    var z := Zeros(s);
    var t := s[z..];
    ValueNonNegative(t, a);
    var c := Canon(Value(t, a), b);
    ZerosOf(z, c);
    ValueOfCanon(Value(t, a), b);
    CanonOfValue(t, a);
    ZerosPrefix(s);
    hide Value, Canon;
  }

  // ---------------------------------------------------------------- powers

  lemma {:induction false} PowAdd(b: nat, m: nat, n: nat)
    requires b > 0
    ensures Pow(b, m + n) == Pow(b, m) * Pow(b, n)
    decreases m
  {
    if m > 0 {
      PowAdd(b, m - 1, n);
      var x, y := Pow(b, m - 1), Pow(b, n);
      assert Pow(b, m + n) == b * Pow(b, m - 1 + n);
      Regroup(b, x, y);
    }
  }

  lemma {:induction false} PowPow(b: nat, m: nat, n: nat)
    requires b > 0
    ensures Pow(b, m * n) == Pow(Pow(b, m), n)
    decreases n
  {
    if n == 0 {
      assert m * n == 0;
    } else {
      PowPow(b, m, n - 1);
      assert m * n == m + m * (n - 1);
      PowAdd(b, m, m * (n - 1));
    }
  }

  lemma {:induction false} PowMono(b: nat, m: nat, n: nat)
    requires b > 0 && m <= n
    ensures Pow(b, m) <= Pow(b, n)
    decreases n
  {
    if m < n {
      PowMono(b, m, n - 1);
      MulMono(1, b, Pow(b, n - 1));
    }
  }

  lemma {:induction false} PowBase(a: nat, b: nat, n: nat)
    requires 0 < a <= b
    ensures Pow(a, n) <= Pow(b, n)
    decreases n
  {
    if n > 0 {
      PowBase(a, b, n - 1);
      var x, y := Pow(a, n - 1), Pow(b, n - 1);
      MulMono(x, y, a);
      MulMono(a, b, y);
    }
  }

  lemma {:induction false} PowBaseStrict(a: nat, b: nat, n: nat)
    requires 0 < a < b && n > 0
    ensures Pow(a, n) < Pow(b, n)
    decreases n
  {
    PowBase(a, b, n - 1);
    var x, y := Pow(a, n - 1), Pow(b, n - 1);
    MulMono(x, y, a);
    MulMono(a + 1, b, y);
    Distribute(a, 1, y);
  }
}
