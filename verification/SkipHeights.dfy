/** The heights that skip pointers lead to, and how many steps a walk along them takes. */
module SkipHeights {
  import opened Powers

  /** Bitwise and. */
  function And(a: nat, b: nat): (r: nat)
    ensures r <= a && r <= b
    decreases a
  {
    if a == 0 || b == 0 then 0 else 2 * And(a / 2, b / 2) + if a % 2 == 1 && b % 2 == 1 then 1 else 0
  }

  /** Turn the lowest one bit into a zero. */
  function InvertLowestOne(n: nat): (r: nat)
    ensures r <= n && (n > 0 ==> r < n)
  {
    if n == 0 then 0 else And(n, n - 1)
  }

  /** The height the skip pointer leads to; always lower. */
  function GetSkipHeight(height: nat): (r: nat)
    ensures height > 0 ==> r < height
  {
    if height < 2 then 0
    else if height % 2 == 1 then InvertLowestOne(InvertLowestOne(height - 1)) + 1
    else InvertLowestOne(height)
  }

  /** Where the walk to a lower height goes next: along the skip pointer, unless that leads too far or the
      predecessor's is better. */
  function Next(walk: nat, height: nat): (r: nat)
    requires height < walk
    ensures height <= r < walk
  {
    var skip, skipPrev := GetSkipHeight(walk), GetSkipHeight(walk - 1);
    if skip == height || (skip > height && !(skipPrev < skip - 2 && skipPrev >= height)) then skip else walk - 1
  }

  /** The number of steps of the walk. */
  function Steps(walk: nat, height: nat): nat
    requires height <= walk
    decreases walk
  {
    if walk == height then 0 else 1 + Steps(Next(walk, height), height)
  }

  // ---------------------------------------------------------------- bits

  function Ones(n: nat): nat {
    if n == 0 then 0 else n % 2 + Ones(n / 2)
  }

  lemma {:induction false} AndItself(n: nat)
    ensures And(n, n) == n
  {
    if n > 0 {
      AndItself(n / 2);
    }
  }

  lemma InvertOdd(u: nat)
    ensures InvertLowestOne(2 * u + 1) == 2 * u
  {
    AndItself(u);
  }

  lemma InvertEven(u: nat)
    ensures InvertLowestOne(2 * u) == 2 * InvertLowestOne(u)
  {
    if u > 0 {
      assert (2 * u - 1) / 2 == u - 1;
    }
  }

  lemma OnesOf(u: nat)
    ensures Ones(2 * u) == Ones(u) && Ones(2 * u + 1) == Ones(u) + 1
  {
  }

  /** Inverting the lowest one takes a one away. */
  lemma {:induction false} OnesInvert(n: nat)
    ensures Ones(InvertLowestOne(n)) == if n == 0 then 0 else Ones(n) - 1
    ensures n > 0 ==> Ones(n) > 0
  {
    if n > 0 {
      var u := n / 2;
      OnesOf(u);
      if n % 2 == 1 {
        InvertOdd(u);
      } else {
        InvertEven(u);
        OnesInvert(u);
        OnesOf(InvertLowestOne(u));
      }
      hide InvertLowestOne, Ones;
      assert n == 2 * u + n % 2;
    }
  }

  /** A number without its lowest k bits, and those bits. */
  function High(n: nat, k: nat): nat {
    if k == 0 then n else High(n / 2, k - 1)
  }

  function Low(n: nat, k: nat): (r: nat)
    ensures r <= n
    decreases k
  {
    if k == 0 then 0 else 2 * Low(n / 2, k - 1) + n % 2
  }

  lemma {:induction false} OnesSplit(n: nat, k: nat)
    ensures Ones(n) == Ones(High(n, k)) + Ones(Low(n, k))
    ensures Ones(Low(n, k)) <= k
    decreases k
  {
    hide *;
    BitsAt(n, k);
    if k > 0 {
      var u := n / 2;
      OnesSplit(u, k - 1);
      OnesOf(Low(u, k - 1));
      OnesOf(u);
      LastBit(n, u);
    }
  }

  lemma BitsAt(n: nat, k: nat)
    ensures k == 0 ==> High(n, k) == n && Low(n, k) == 0 && Ones(0) == 0
    ensures k > 0 ==> High(n, k) == High(n / 2, k - 1) && Low(n, k) == 2 * Low(n / 2, k - 1) + n % 2
  {
  }

  lemma LastBit(n: nat, u: nat)
    requires u == n / 2
    ensures n == 2 * u + n % 2 && (n % 2 == 0 || n % 2 == 1)
  {
  }

  /** Going down leaves the upper bits alone as long as it takes away no more than the lower ones. */
  lemma {:induction false} HighDown(x: nat, n: nat, k: nat)
    requires x <= n
    ensures High(x, k) <= High(n, k)
    ensures High(x, k) == High(n, k) <==> x >= n - Low(n, k)
    decreases k
  {
    if k > 0 {
      HighDown(x / 2, n / 2, k - 1);
    }
  }

  /** Numbers at most 2^k apart have upper bits at most one apart. */
  lemma {:induction false} HighApart(x: nat, n: nat, k: nat)
    requires x <= n <= x + Pow2(k)
    ensures High(n, k) <= High(x, k) + 1
    decreases k
  {
    if k > 0 {
      HighApart(x / 2, n / 2, k - 1);
    }
  }

  // ---------------------------------------------------------------- skips

  lemma SkipEven(u: nat)
    ensures GetSkipHeight(2 * u) == 2 * InvertLowestOne(u)
  {
    InvertEven(u);
    hide InvertLowestOne;
    assert (2 * u) % 2 == 0;
  }

  lemma SkipOdd(u: nat)
    requires u > 0
    ensures GetSkipHeight(2 * u + 1) == 2 * InvertLowestOne(InvertLowestOne(u)) + 1
  {
    hide InvertLowestOne;
    InvertEven(u);
    InvertEven(InvertLowestOne(u));
    assert (2 * u + 1) % 2 == 1;
  }

  lemma SkipOne()
    ensures GetSkipHeight(1) == 0 && Ones(0) == 0
  {
  }

  /** A skip takes at least a one away, and so does a step back from an odd height. */
  lemma SkipOnes(walk: nat)
    requires walk > 0
    ensures Ones(GetSkipHeight(walk)) < Ones(walk)
    ensures walk % 2 == 1 ==> Ones(walk - 1) == Ones(walk) - 1
  {
    hide *;
    var u := walk / 2;
    LastBit(walk, u);
    OnesOf(u);
    var c := InvertLowestOne(u);
    OnesInvert(u);
    if walk % 2 == 0 {
      SkipEven(u);
      OnesOf(c);
    } else if u == 0 {
      SkipOne();
    } else {
      SkipOdd(u);
      OnesInvert(c);
      OnesOf(InvertLowestOne(c));
    }
  }

  /** An even height whose predecessor's skip is better. */
  lemma PrevSkip(walk: nat)
    requires walk % 2 == 0 && walk > 0 && GetSkipHeight(walk - 1) < GetSkipHeight(walk) - 2
    ensures walk > 2 && GetSkipHeight(walk - 2) >= GetSkipHeight(walk - 1) - 1
    ensures Ones(GetSkipHeight(walk - 1)) < Ones(walk)
  {
    hide *;
    var u := walk / 2;
    LastBit(walk, u);
    SkipEven(u);
    SkipEven(u - 1);
    if u > 1 {
      SkipOdd(u - 1);
      OnesOf(InvertLowestOne(InvertLowestOne(u - 1)));
      OnesOf(u);
      PrevSkipHalf(u);
    }
  }

  lemma PrevSkipHalf(u: nat)
    requires u > 1 && InvertLowestOne(InvertLowestOne(u - 1)) < InvertLowestOne(u) - 1
    ensures Ones(InvertLowestOne(InvertLowestOne(u - 1))) + 1 < Ones(u)
  {
    hide *;
    var v := u / 2;
    LastBit(u, v);
    OnesOf(v);
    if u % 2 == 1 {
      InvertOdd(v);
      OnesInvert(u - 1);
      OnesInvert(InvertLowestOne(u - 1));
    } else {
      var c := InvertLowestOne(v - 1);
      InvertOdd(v - 1);
      InvertEven(v);
      InvertEven(v - 1);
      OnesOf(c);
      QuarterSkip(v);
    }
  }

  lemma QuarterSkip(v: nat)
    requires v > 0 && InvertLowestOne(v - 1) < InvertLowestOne(v)
    ensures Ones(InvertLowestOne(v - 1)) + 1 < Ones(v)
  {
    hide *;
    var w := v / 2;
    LastBit(v, w);
    OnesOf(w);
    OnesInvert(v - 1);
    if v % 2 == 1 {
      InvertOdd(w);
    } else {
      InvertEven(w);
      InvertOdd(w - 1);
    }
  }

  /** While lower bits are left, inverting the lowest one leaves the upper bits. */
  lemma {:induction false} InvertStays(n: nat, k: nat)
    requires Low(n, k) > 0
    ensures InvertLowestOne(n) >= n - Low(n, k)
    decreases k
  {
    var u := n / 2;
    if n % 2 == 1 {
      InvertOdd(u);
    } else {
      InvertEven(u);
      InvertStays(u, k - 1);
    }
    hide InvertLowestOne;
    assert n == 2 * u + n % 2;
  }

  lemma {:induction false} HighStep(n: nat, k: nat)
    ensures High(n, k + 1) == High(n, k) / 2
    decreases k
  {
    if k > 0 {
      HighStep(n / 2, k - 1);
    }
  }
}
