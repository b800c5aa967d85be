/** base_uint<256>: limb arithmetic in place, proved to be arithmetic modulo 2^256. An operand may be the same
    array as the target; where that matters the contract says so. */
module ArithUint256 {
  import opened Powers
  import opened Limbs

  const WIDTH := 8

  /** One column of an addition or multiplication: the low limb stays, the rest is carried. */
  lemma Column(n: int, w: int)
    ensures (n % BASE) * w + (n / BASE) * (BASE * w) == n * w
  {
    Regroup(n / BASE, BASE, w);
    Distribute(n % BASE, (n / BASE) * BASE, w);
  }

  /** What is left after whole multiples of 2^256 are dropped. */
  lemma Dropped(v: int, q: int, x: int)
    requires x == v + q * TWO_256 && 0 <= v < TWO_256
    ensures v == x % TWO_256
  {
    DivModUnique(x, TWO_256, q, v);
  }

  lemma Fits(s: seq<Limb>)
    requires |s| == WIDTH
    ensures 0 <= Value(s) < TWO_256
  {
    ValueBound(s);
    Weight8();
  }

  method AddAssign(pn: array<Limb>, b: array<Limb>)
    requires pn.Length == WIDTH && b.Length == WIDTH
    modifies pn
    ensures Value(pn[..]) == (old(Value(pn[..])) + old(Value(b[..]))) % TWO_256
  {
    hide Value, Weight;
    ghost var s, t := pn[..], b[..];
    var carry := 0;
    assert s[..0] == t[..0] == [];
    ValueEmpty();
    for i := 0 to WIDTH
      invariant 0 <= carry <= 1 && forall j :: i <= j < WIDTH ==> pn[j] == s[j] && b[j] == t[j]
      invariant Value(pn[..][..i]) + carry * Weight(i) == Value(s[..i]) + Value(t[..i])
    {
      ghost var before := pn[..];
      var n := carry + pn[i] + b[i];
      pn[i] := n % BASE;
      AddColumn(s, t, before, pn[..], i, carry);
      carry := n / BASE;
    }
    Whole(s);
    Whole(t);
    Whole(pn[..]);
    Weight8();
    Fits(pn[..]);
    Dropped(Value(pn[..]), carry, Value(s) + Value(t));
  }

  lemma Whole(s: seq<Limb>)
    requires |s| == WIDTH
    ensures s[..WIDTH] == s
  {
  }

  lemma AddColumn(s: seq<Limb>, t: seq<Limb>, p: seq<Limb>, q: seq<Limb>, i: nat, carry: int)
    requires |s| == |t| == |p| == WIDTH && i < WIDTH && p[i] == s[i] && 0 <= carry <= 1
    requires q == p[i := (carry + s[i] + t[i]) % BASE]
    requires Value(p[..i]) + carry * Weight(i) == Value(s[..i]) + Value(t[..i])
    ensures Value(q[..i + 1]) + ((carry + s[i] + t[i]) / BASE) * Weight(i + 1) == Value(s[..i + 1]) + Value(t[..i + 1])
  {
    var w: int, x: int, y: int := Weight(i), s[i], t[i];
    assert Weight(i + 1) == BASE * w;
    ValueNext(s, i);
    ValueNext(t, i);
    ValueNext(q, i);
    assert q[..i] == p[..i];
    hide Value, Weight;
    Column(carry + x + y, w);
    Distribute(carry, x + y, w);
    Distribute(x, y, w);
  }

  // ---------------------------------------------------------------- complement, increment, negation, subtraction

  method Complement(pn: array<Limb>) returns (ret: array<Limb>)
    requires pn.Length == WIDTH
    ensures fresh(ret) && ret.Length == WIDTH && Value(ret[..]) == TWO_256 - 1 - Value(pn[..])
  {
    ret := new Limb[WIDTH](_ => 0);
    ghost var s := pn[..];
    for i := 0 to WIDTH
      invariant fresh(ret) && Value(ret[..][..i]) + Value(s[..i]) == Weight(i) - 1
    {
      ghost var before := ret[..];
      ret[i] := BASE - 1 - pn[i];
      ComplementColumn(s, before, ret[..], i);
    }
    Whole(s);
    Whole(ret[..]);
    Weight8();
  }

  lemma ComplementColumn(s: seq<Limb>, p: seq<Limb>, q: seq<Limb>, i: nat)
    requires |s| == |p| == WIDTH && i < WIDTH && q == p[i := BASE - 1 - s[i]]
    requires Value(p[..i]) + Value(s[..i]) == Weight(i) - 1
    ensures Value(q[..i + 1]) + Value(s[..i + 1]) == Weight(i + 1) - 1
  {
    assert Weight(i + 1) == BASE * Weight(i);
    hide Value, Weight;
    ValueNext(s, i);
    ValueNext(q, i);
    assert q[..i] == p[..i];
    ComplementDigit(s[i], Weight(i));
  }

  lemma ComplementDigit(x: int, w: int)
    ensures (BASE - 1 - x) * w + x * w == BASE * w - w
  {
    hide *;
    Distribute(BASE - 1 - x, x, w);
    Distribute(BASE, -1, w);
  }

  /** A limb that wraps around passes the one on. */
  lemma WrapUp(x: int, w: int)
    requires 0 <= x < BASE
    ensures ((x + 1) % BASE - x) * w == if (x + 1) % BASE == 0 then w - BASE * w else w
  {
    if x == BASE - 1 {
      Distribute(1, -BASE, w);
    }
  }

  lemma WrapDown(x: int, w: int)
    requires 0 <= x < BASE
    ensures ((x - 1) % BASE - x) * w == if (x - 1) % BASE == BASE - 1 then BASE * w - w else -w
  {
    if x == 0 {
      Distribute(BASE, -1, w);
    }
  }

  /** Setting one limb. */
  method SetLimb(pn: array<Limb>, i: nat, x: Limb)
    requires pn.Length == WIDTH && i < WIDTH
    modifies pn
    ensures pn[..] == old(pn[..])[i := x]
    ensures Value(pn[..]) == old(Value(pn[..])) + (x - old(pn[i])) * Weight(i)
  {
    ValueUpdate(pn[..], i, x);
    pn[i] := x;
  }

  method Increment(pn: array<Limb>)
    requires pn.Length == WIDTH
    modifies pn
    ensures Value(pn[..]) == (old(Value(pn[..])) + 1) % TWO_256
  {
    hide Value;
    ghost var v := Value(pn[..]);
    Weight8();
    var i, more := 0, true;
    while more
      invariant 0 <= i <= WIDTH && (more ==> i < WIDTH)
      invariant more ==> Value(pn[..]) + Weight(i) == v + 1
      invariant !more ==> Value(pn[..]) == v + 1 || Value(pn[..]) + Weight(WIDTH) == v + 1
      decreases if more then WIDTH - i else -1
    {
      ghost var w: int, x: int := Weight(i), pn[i];
      assert Weight(i + 1) == BASE * w;
      WrapUp(x, w);
      hide Weight;
      SetLimb(pn, i, (pn[i] + 1) % BASE);
      more := pn[i] == 0 && i < WIDTH - 1;
      if more {
        i := i + 1;
      }
    }
    Fits(pn[..]);
    hide Weight;
    Dropped(Value(pn[..]), if Value(pn[..]) == v + 1 then 0 else 1, v + 1);
  }

  method Decrement(pn: array<Limb>)
    requires pn.Length == WIDTH
    modifies pn
    ensures Value(pn[..]) == (old(Value(pn[..])) - 1) % TWO_256
  {
    hide Value;
    ghost var v := Value(pn[..]);
    Weight8();
    var i, more := 0, true;
    while more
      invariant 0 <= i <= WIDTH && (more ==> i < WIDTH)
      invariant more ==> Value(pn[..]) - Weight(i) == v - 1
      invariant !more ==> Value(pn[..]) == v - 1 || Value(pn[..]) - Weight(WIDTH) == v - 1
      decreases if more then WIDTH - i else -1
    {
      ghost var w: int, x: int := Weight(i), pn[i];
      assert Weight(i + 1) == BASE * w;
      WrapDown(x, w);
      hide Weight;
      SetLimb(pn, i, (pn[i] - 1) % BASE);
      more := pn[i] == BASE - 1 && i < WIDTH - 1;
      if more {
        i := i + 1;
      }
    }
    Fits(pn[..]);
    hide Weight;
    Dropped(Value(pn[..]), if Value(pn[..]) == v - 1 then 0 else -1, v - 1);
  }

  method Negate(pn: array<Limb>) returns (ret: array<Limb>)
    requires pn.Length == WIDTH
    ensures fresh(ret) && ret.Length == WIDTH && Value(ret[..]) == -Value(pn[..]) % TWO_256
  {
    ret := Complement(pn);
    Increment(ret);
    hide Value;
    ModShift(-Value(pn[..]), TWO_256, 1);
  }

  method SubAssign(pn: array<Limb>, b: array<Limb>)
    requires pn.Length == WIDTH && b.Length == WIDTH
    modifies pn
    ensures Value(pn[..]) == (old(Value(pn[..])) - old(Value(b[..]))) % TWO_256
  {
    var n := Negate(b);
    ghost var x, y := Value(pn[..]), Value(b[..]);
    AddAssign(pn, n);
    hide Value;
    ModAdd(-y, x, TWO_256);
  }

  // ---------------------------------------------------------------- multiplication

  /** A column's sum fits in 64 bits, its carry in 32. */
  lemma ColumnFits(carry: int, p: int, a: int, b: int)
    requires 0 <= carry < BASE && 0 <= p < BASE && 0 <= a < BASE && 0 <= b < BASE
    ensures 0 <= carry + p + a * b < TWO_64 && 0 <= (carry + p + a * b) / BASE < BASE
  {
    var x := a * b;
    assert 0 <= x <= (BASE - 1) * (BASE - 1) by {
      MulMono(0, a, b);
      MulMono(a, BASE - 1, b);
      MulMono(b, BASE - 1, BASE - 1);
    }
    HighWord(carry + p + x);
  }

  lemma HighWord(x: int)
    requires 0 <= x < TWO_64
    ensures 0 <= x / BASE < BASE
  {
  }

  method MulWordAssign(pn: array<Limb>, b32: Limb)
    requires pn.Length == WIDTH
    modifies pn
    ensures Value(pn[..]) == (old(Value(pn[..])) * b32) % TWO_256
  {
    ghost var s := pn[..];
    var carry := 0;
    for i := 0 to WIDTH
      invariant 0 <= carry < BASE && forall j :: i <= j < WIDTH ==> pn[j] == s[j]
      invariant Value(pn[..][..i]) + carry * Weight(i) == Value(s[..i]) * b32
    {
      ghost var before := pn[..];
      ColumnFits(carry, 0, b32, pn[i]);
      var n := carry + b32 * pn[i];
      assert n < TWO_64;
      pn[i] := n % BASE;
      MulWordColumn(s, before, pn[..], i, carry, b32);
      carry := n / BASE;
    }
    Whole(s);
    Whole(pn[..]);
    Weight8();
    Fits(pn[..]);
    hide Value, Weight;
    Dropped(Value(pn[..]), carry, Value(s) * b32);
  }

  lemma MulWordColumn(s: seq<Limb>, p: seq<Limb>, q: seq<Limb>, i: nat, carry: int, b: int)
    requires |s| == |p| == WIDTH && i < WIDTH && p[i] == s[i] && 0 <= b && 0 <= carry
    requires q == p[i := (carry + b * s[i]) % BASE]
    requires Value(p[..i]) + carry * Weight(i) == Value(s[..i]) * b
    ensures Value(q[..i + 1]) + ((carry + b * s[i]) / BASE) * Weight(i + 1) == Value(s[..i + 1]) * b
  {
    var w: int, x: int, v: int := Weight(i), s[i], Value(s[..i]);
    assert Weight(i + 1) == BASE * w;
    ValueNext(s, i);
    ValueNext(q, i);
    assert q[..i] == p[..i];
    hide Value, Weight;
    Column(carry + b * x, w);
    Distribute(carry, b * x, w);
    Distribute(v, x * w, b);
    Regroup(b, x, w);
  }

  /** Schoolbook multiplication. A number multiplied in place by itself becomes zero, since the factor is
      cleared with the target. */
  method MulAssign(pn: array<Limb>, b: array<Limb>)
    requires pn.Length == WIDTH && b.Length == WIDTH
    modifies pn
    ensures Value(pn[..]) == if b == pn then 0 else (old(Value(pn[..])) * old(Value(b[..]))) % TWO_256
  {
    var a := pn[..];
    forall i | 0 <= i < WIDTH {
      pn[i] := 0;
    }
    ghost var t, dropped := b[..], 0;
    ValueZero(pn[..]);
    hide Value;
    ValueEmpty();
    assert a[..0] == [];
    for j := 0 to WIDTH
      invariant b[..] == t && (b == pn ==> forall k :: 0 <= k < WIDTH ==> t[k] == 0)
      invariant Value(pn[..]) + dropped * TWO_256 == Value(a[..j]) * Value(t)
    {
      ghost var start := Value(pn[..]);
      var carry := MulRow(pn, a[j], b, j, t);
      RowDone(a, t, j, start, Value(pn[..]), carry, dropped);
      dropped := dropped + carry + a[j] * Value(t[WIDTH - j..]);
    }
    Whole(a);
    Fits(pn[..]);
    if b == pn {
      ValueZero(t);
    } else {
      assert t == old(b[..]);
    }
    Dropped(Value(pn[..]), dropped, Value(a) * Value(t));
  }

  /** The inner loop: one limb times the other factor is added from limb j on. */
  method MulRow(pn: array<Limb>, x: Limb, b: array<Limb>, j: nat, ghost t: seq<Limb>) returns (carry: int)
    requires pn.Length == WIDTH && b.Length == WIDTH && j < WIDTH && b[..] == t
    requires b == pn ==> forall k :: 0 <= k < WIDTH ==> t[k] == 0
    modifies pn
    ensures b[..] == t && 0 <= carry < BASE
    ensures Value(pn[..]) + carry * Weight(WIDTH) == old(Value(pn[..])) + x * Weight(j) * Value(t[..WIDTH - j])
  {
    hide Value, Weight;
    carry := 0;
    ghost var start := Value(pn[..]);
    assert t[..0] == [];
    ValueEmpty();
    for i := 0 to WIDTH - j
      invariant b[..] == t && 0 <= carry < BASE && (b == pn ==> carry == 0)
      invariant Value(pn[..]) + carry * Weight(i + j) == start + x * Weight(j) * Value(t[..i])
    {
      ColumnFits(carry, pn[i + j], x, b[i]);
      var n := carry + pn[i + j] + x * b[i];
      assert n < TWO_64;
      assert b[i] == t[i];
      MulColumn(t, pn[i + j], carry, x, i, j);
      SetLimb(pn, i + j, n % BASE);
      if b == pn {
        assert n == 0;
        assert b[..] == t;
      }
      carry := n / BASE;
    }
  }

  lemma ValueEmpty()
    ensures Value([]) == 0
  {
  }

  lemma MulColumn(t: seq<Limb>, p: int, carry: int, x: int, i: nat, j: nat)
    requires |t| == WIDTH && i + j < WIDTH
    ensures var n := carry + p + x * t[i];
            (n % BASE - p) * Weight(i + j) + (n / BASE) * Weight(i + 1 + j) - carry * Weight(i + j) ==
            x * Weight(j) * Value(t[..i + 1]) - x * Weight(j) * Value(t[..i])
  {
    var y: int, w: int, u: int, wj: int := t[i], Weight(i + j), Weight(i), Weight(j);
    WeightAdd(i, j);
    assert Weight(i + 1 + j) == BASE * w;
    ValueNext(t, i);
    ColumnDelta(carry, p, x * y, w);
    RowDelta(x, wj, Value(t[..i]), y, u);
    hide *;
  }

  lemma ColumnDelta(carry: int, p: int, z: int, w: int)
    ensures var n := carry + p + z; (n % BASE - p) * w + (n / BASE) * (BASE * w) - carry * w == z * w
  {
    var n := carry + p + z;
    Column(n, w);
    Distribute(n % BASE, -p, w);
    Distribute(carry + p, z, w);
    Distribute(carry, p, w);
  }

  lemma RowDelta(x: int, wj: int, v: int, y: int, u: int)
    ensures x * wj * (v + y * u) - x * wj * v == x * y * (u * wj)
  {
    Distribute(v, y * u, x * wj);
    Rearrange(x, y, u, wj);
  }

  lemma Rearrange(x: int, y: int, u: int, v: int)
    ensures x * v * (y * u) == x * y * (u * v)
  {
    calc {
      x * v * (y * u);
      { Regroup(x, v, y * u); }
      x * (v * (y * u));
      { Regroup(v, y, u); }
      x * (y * (v * u));
      { Regroup(x, y, v * u); }
      x * y * (u * v);
    }
  }

  lemma RowDone(s: seq<Limb>, t: seq<Limb>, j: nat, start: int, v: int, carry: int, dropped: int)
    requires |s| == |t| == WIDTH && j < WIDTH
    requires start + dropped * TWO_256 == Value(s[..j]) * Value(t)
    requires v + carry * Weight(WIDTH) == start + s[j] * Weight(j) * Value(t[..WIDTH - j])
    ensures v + (dropped + carry + s[j] * Value(t[WIDTH - j..])) * TWO_256 == Value(s[..j + 1]) * Value(t)
  {
    hide Value, Weight;
    var x: int, wj: int, low: int, high: int := s[j], Weight(j), Value(t[..WIDTH - j]), Value(t[WIDTH - j..]);
    Weight8();
    WeightAdd(j, WIDTH - j);
    ValueSplit(t, WIDTH - j);
    ValueNext(s, j);
    var m := Weight(WIDTH - j);
    assert j + (WIDTH - j) == WIDTH && m * wj == TWO_256;
    RowTotal(x, wj, low, high, m);
    RowSum(Value(s[..j]), Value(t), x * wj, x * wj * low, x * high, start, v, carry, dropped);
  }

  lemma RowSum(sv: int, tv: int, xw: int, low: int, high: int, start: int, v: int, carry: int, dropped: int)
    requires xw * tv == low + high * TWO_256
    requires start + dropped * TWO_256 == sv * tv && v + carry * TWO_256 == start + low
    ensures v + (dropped + carry + high) * TWO_256 == (sv + xw) * tv
  {
    Distribute(sv, xw, tv);
  }

  lemma RowTotal(x: int, wj: int, low: int, high: int, m: int)
    ensures x * wj * (low + m * high) == x * wj * low + x * high * (m * wj)
  {
    Distribute(low, m * high, x * wj);
    Rearrange(x, high, m, wj);
  }
}
