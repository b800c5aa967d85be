/** How many steps a walk along skip pointers takes. While it leaves the upper bits of its height alone, what counts
    is the number of ones among the lower bits. */
module SkipWalks {
  import opened Powers
  import opened SkipHeights

  lemma StepsNone(height: nat)
    ensures Steps(height, height) == 0
  {
  }

  lemma StepsNext(walk: nat, height: nat)
    requires height < walk
    ensures Steps(walk, height) == 1 + Steps(Next(walk, height), height)
  {
  }

  lemma {:induction false} StepsAtMost(walk: nat, height: nat)
    requires height <= walk
    ensures Steps(walk, height) <= walk - height
    decreases walk
  {
    if walk > height {
      hide Next;
      StepsAtMost(Next(walk, height), height);
    }
  }

  // ---------------------------------------------------------------- numbers with the same upper bits

  /** x differs from m, a multiple of 2^k, in the lowest k bits at most. */
  ghost predicate Above(x: nat, m: nat, k: nat) {
    m > 0 && Low(m, k) == 0 && High(x, k) == High(m, k)
  }

  /** The ones that x has more than m. */
  ghost function Extra(x: nat, m: nat): int {
    Ones(x) - Ones(m)
  }

  lemma {:induction false} LowOfBase(n: nat, k: nat)
    ensures Low(n - Low(n, k), k) == 0
    decreases k
  {
    if k > 0 {
      LowOfBase(n / 2, k - 1);
      assert (n - Low(n, k)) / 2 == n / 2 - Low(n / 2, k - 1);
    }
  }

  lemma AboveBase(n: nat, k: nat)
    requires High(n, k) > 0
    ensures Above(n, n - Low(n, k), k) && Extra(n, n - Low(n, k)) == Ones(Low(n, k))
  {
    hide *;
    var m := n - Low(n, k);
    LowOfBase(n, k);
    HighDown(m, n, k);
    HighNone(k);
    OnesSplit(n, k);
    OnesSplit(m, k);
    BitsAt(0, 0);
    MakeAbove(n, m, k);
  }

  lemma {:induction false} HighNone(k: nat)
    ensures High(0, k) == 0
  {
    if k > 0 {
      HighNone(k - 1);
    }
  }

  lemma MakeAbove(x: nat, m: nat, k: nat)
    requires m > 0 && Low(m, k) == 0 && High(x, k) == High(m, k)
    ensures Above(x, m, k) && Extra(x, m) == Ones(x) - Ones(m)
  {
  }

  lemma {:induction false} Compare(x: nat, y: nat, k: nat)
    requires Low(x, k) == 0 && High(x, k) <= High(y, k)
    ensures x <= y
    decreases k
  {
    if k > 0 {
      Compare(x / 2, y / 2, k - 1);
    }
  }

  lemma AboveFacts(x: nat, m: nat, k: nat)
    requires Above(x, m, k)
    ensures m <= x && m == x - Low(x, k) && Extra(x, m) == Ones(Low(x, k)) && 0 <= Extra(x, m) <= k
    ensures Extra(x, m) == 0 <==> x == m
  {
    Compare(m, x, k);
    HighDown(m, x, k);
    OnesSplit(x, k);
    OnesSplit(m, k);
    LowOfBase(x, k);
    HighDown(x - Low(x, k), x, k);
    Compare(x - Low(x, k), m, k);
    OnesInvert(Low(x, k));
    hide High, Low, InvertLowestOne;
  }

  /** Going down to m at most. */
  lemma AboveDown(x: nat, y: nat, m: nat, k: nat)
    requires Above(x, m, k) && m <= y <= x
    ensures Above(y, m, k)
  {
    AboveFacts(x, m, k);
    hide High, Low, Ones;
    HighDown(y, x, k);
  }

  lemma AboveInvert(x: nat, m: nat, k: nat)
    requires Above(x, m, k) && x > m
    ensures Above(InvertLowestOne(x), m, k) && Extra(InvertLowestOne(x), m) == Extra(x, m) - 1
  {
    AboveFacts(x, m, k);
    hide High, Low, Above, InvertLowestOne;
    InvertStays(x, k);
    AboveDown(x, InvertLowestOne(x), m, k);
    OnesInvert(x);
  }

  lemma AboveEven(m: nat, x: nat, k: nat)
    requires Above(x, m, k) && k > 0
    ensures m % 2 == 0 && m >= 2
  {
  }

  /** The number below a multiple of 2^k. */
  lemma {:induction false} BelowBase(m: nat, k: nat)
    requires Low(m, k) == 0 && m > 0
    ensures High(m - 1, k) == High(m, k) - 1 && Full(m - 1, k)
    decreases k
  {
    if k > 0 {
      BelowBase(m / 2, k - 1);
      assert (m - 1) / 2 == m / 2 - 1;
    }
  }

  /** The lowest k bits are ones. */
  ghost predicate Full(n: nat, k: nat) {
    k == 0 || (n % 2 == 1 && Full(n / 2, k - 1))
  }

  lemma {:induction false} FullOnes(n: nat, k: nat)
    requires Full(n, k)
    ensures Ones(Low(n, k)) == k
    decreases k
  {
    if k > 0 {
      FullOnes(n / 2, k - 1);
      OnesOf(Low(n / 2, k - 1));
    }
  }

  /** Full up to one bit less, and that bit is a one. */
  lemma {:induction false} FullLess(n: nat, k: nat)
    requires Full(n, k + 1)
    ensures Full(n, k) && High(n, k) % 2 == 1
    decreases k
  {
    if k > 0 {
      FullLess(n / 2, k - 1);
    }
  }

  /** Where a walk to `height` leaves the heights above m. */
  ghost predicate Exit(m: nat, height: nat) {
    InvertLowestOne(m) <= height < m
  }

  lemma {:induction false} InvertBase(m: nat, k: nat)
    requires Low(m, k) == 0 && m > 0
    ensures Low(InvertLowestOne(m), k) == 0 && High(InvertLowestOne(m), k) <= High(m, k) - 1
    decreases k
  {
    if k > 0 {
      var u := m / 2;
      assert m == 2 * u;
      InvertEven(u);
      InvertBase(u, k - 1);
      hide InvertLowestOne;
      assert 2 * InvertLowestOne(u) / 2 == InvertLowestOne(u);
    }
  }

  lemma MakeExit(walk: nat, height: nat, k: nat)
    requires height <= walk && High(walk, k) == High(height, k) + 1
    ensures var m := walk - Low(walk, k);
            Above(walk, m, k) && Exit(m, height) && Full(m - 1, k) && High(m - 1, k) == High(height, k)
  {
    hide *;
    var m := walk - Low(walk, k);
    AboveBase(walk, k);
    LowOfBase(walk, k);
    AboveIs(walk, m, k);
    HighDown(height, walk, k);
    InvertBase(m, k);
    Compare(InvertLowestOne(m), height, k);
    BelowBase(m, k);
    ExitIs(m, height);
  }

  lemma AboveIs(x: nat, m: nat, k: nat)
    requires Above(x, m, k)
    ensures m > 0 && High(x, k) == High(m, k)
  {
  }

  lemma ExitIs(m: nat, height: nat)
    ensures Exit(m, height) <==> InvertLowestOne(m) <= height < m
  {
  }

  // ---------------------------------------------------------------- from an odd height

  /** Skips by the heights they start from. */
  lemma SkipIs(n: nat)
    requires n > 0
    ensures n % 2 == 0 ==> GetSkipHeight(n) == InvertLowestOne(n)
    ensures n % 2 == 1 && n > 1 ==> GetSkipHeight(n) == InvertLowestOne(InvertLowestOne(n - 1)) + 1
  {
  }

  lemma NextIs(walk: nat, height: nat)
    requires height < walk
    ensures var skip, skipPrev := GetSkipHeight(walk), GetSkipHeight(walk - 1);
            Next(walk, height) ==
            if skip == height || (skip > height && !(skipPrev < skip - 2 && skipPrev >= height)) then skip else walk - 1
  {
    hide GetSkipHeight;
  }

  lemma InvertParity(n: nat)
    requires n % 2 == 0
    ensures InvertLowestOne(n) % 2 == 0
  {
    hide InvertLowestOne;
    LastBit(n, n / 2);
    InvertEven(n / 2);
  }

  /** The even height under an odd one, twice inverted. */
  lemma OddSkip(w: nat, m: nat, k: nat)
    requires Above(w, m, k) && k > 0 && w % 2 == 1
    ensures w > m && Above(w - 1, m, k) && Extra(w - 1, m) == Extra(w, m) - 1
    ensures GetSkipHeight(w) == InvertLowestOne(InvertLowestOne(w - 1)) + 1
    ensures GetSkipHeight(w - 1) == InvertLowestOne(w - 1)
    ensures Extra(w, m) >= 3 ==> Above(GetSkipHeight(w), m, k) && Extra(GetSkipHeight(w), m) == Extra(w, m) - 2
    ensures Extra(w, m) == 2 ==> InvertLowestOne(w - 1) == m
    ensures Extra(w, m) == 1 ==> w - 1 == m
    ensures Extra(w, m) >= 1 && GetSkipHeight(w) % 2 == 1
  {
    hide *;
    var v := w - 1;
    AboveEven(m, w, k);
    AboveFacts(w, m, k);
    AboveDown(w, v, m, k);
    AboveFacts(v, m, k);
    SkipOnes(w);
    ExtraIs(w, m);
    ExtraIs(v, m);
    SkipIs(w);
    SkipIs(v);
    InvertParity(v);
    InvertParity(InvertLowestOne(v));
    if v > m {
      var x := InvertLowestOne(v);
      AboveInvert(v, m, k);
      AboveFacts(x, m, k);
      if x > m {
        AboveInvert(x, m, k);
        AboveNextOdd(InvertLowestOne(x), m, k);
      }
    }
  }

  lemma ExtraIs(x: nat, m: nat)
    ensures Extra(x, m) == Ones(x) - Ones(m)
  {
  }

  lemma AboveNextOdd(x: nat, m: nat, k: nat)
    requires Above(x, m, k) && k > 0 && x % 2 == 0
    ensures Above(x + 1, m, k) && Extra(x + 1, m) == Extra(x, m) + 1
  {
    assert (x + 1) / 2 == x / 2;
    OnesOf(x / 2);
  }

  /** From an odd height a skip stays above m or goes to the height that m skips to, or one more, or below. */
  lemma OddSkipOut(w: nat, m: nat, k: nat)
    requires Above(w, m, k) && k > 0 && w % 2 == 1
    ensures GetSkipHeight(w) >= m || GetSkipHeight(w) <= InvertLowestOne(m) + 1
    ensures Extra(w, m) >= 3 <==> GetSkipHeight(w) >= m
  {
    hide *;
    OddSkip(w, m, k);
    AboveEven(m, w, k);
    InvertLess(m);
    InvertLess(InvertLowestOne(m));
    if Extra(w, m) >= 3 {
      AboveFacts(GetSkipHeight(w), m, k);
    }
  }

  lemma InvertLess(n: nat)
    ensures InvertLowestOne(n) <= n && (n % 2 == 0 && n > 0 ==> InvertLowestOne(n) <= n - 2)
  {
    hide InvertLowestOne;
    if n % 2 == 0 {
      InvertParity(n);
    }
  }

  /** Through the ones above m, two at a time, and to the height below m. */
  lemma {:induction false} OddSteps(w: nat, height: nat, m: nat, k: nat)
    requires Above(w, m, k) && k > 0 && Exit(m, height) && w % 2 == 1
    ensures height < w && Steps(w, height) <= Extra(w, m) / 2 + 2 + Steps(m - 1, height)
    decreases w
  {
    hide *;
    OddSkip(w, m, k);
    ExitIs(m, height);
    StepsNext(w, height);
    NextIs(w, height);
    var s := GetSkipHeight(w);
    if Extra(w, m) >= 3 {
      AboveFacts(s, m, k);
      InvertLess(InvertLowestOne(w - 1));
      OddSteps(s, height, m, k);
    } else if Extra(w, m) == 2 {
      InvertLess(m);
      if s >= height {
        StepsAtMost(s, height);
      } else {
        FromOneAbove(w - 1, height, m, k);
      }
    } else {
      FromBase(m, height);
      InvertLess(InvertLowestOne(m));
      if s >= height {
        StepsAtMost(s, height);
      }
    }
  }

  /** From m itself. */
  lemma FromBase(m: nat, height: nat)
    requires m % 2 == 0 && Exit(m, height)
    ensures Steps(m, height) <= 1 + Steps(m - 1, height)
  {
    hide *;
    ExitIs(m, height);
    SkipIs(m);
    StepsNext(m, height);
    NextIs(m, height);
    StepsNone(height);
  }

  /** From an even height with a single one above m, when m's own skip leads too far. */
  lemma FromOneAbove(v: nat, height: nat, m: nat, k: nat)
    requires Above(v, m, k) && k > 0 && Exit(m, height) && v % 2 == 0 && v > m
    requires InvertLowestOne(v) == m && InvertLowestOne(m) + 1 < height
    ensures Steps(v, height) <= 2 + Steps(m - 1, height)
  {
    hide *;
    ExitIs(m, height);
    SkipIs(v);
    StepsNext(v, height);
    NextIs(v, height);
    AboveDown(v, v - 1, m, k);
    OddSkipOut(v - 1, m, k);
    AboveEven(m, v, k);
    FromBase(m, height);
  }

  // ---------------------------------------------------------------- from an even height

  /** From a multiple of eight the predecessor's skip is not better. */
  lemma EightPrev(w: nat)
    requires w % 8 == 0 && w > 0
    ensures GetSkipHeight(w - 1) >= InvertLowestOne(w) && InvertLowestOne(w) % 8 == 0
  {
    hide *;
    var u := w / 8;
    assert w == 2 * (2 * (2 * u));
    SkipOdd(4 * u - 1);
    InvertOdd(2 * u - 1);
    InvertEven(2 * u - 1);
    InvertOdd(u - 1);
    InvertEven(4 * u);
    InvertEven(2 * u);
    InvertEven(u);
    InvertLess(u);
    assert 4 * u - 1 == 2 * (2 * u - 1) + 1 && 2 * u - 1 == 2 * (u - 1) + 1;
    assert w - 1 == 2 * (4 * u - 1) + 1;
    InvertStrict(u);
  }

  lemma InvertStrict(n: nat)
    ensures n > 0 ==> InvertLowestOne(n) < n
  {
  }

  /** One at a time. */
  lemma {:induction false} EightSteps(w: nat, height: nat, m: nat, k: nat)
    requires Above(w, m, k) && k >= 3 && Exit(m, height) && w % 8 == 0
    ensures height < w && Steps(w, height) <= Extra(w, m) + 1 + Steps(m - 1, height)
    decreases w
  {
    hide *;
    AboveFacts(w, m, k);
    AboveEven(m, w, k);
    ExitIs(m, height);
    if w == m {
      FromBase(m, height);
    } else {
      var s := InvertLowestOne(w);
      AboveInvert(w, m, k);
      AboveFacts(s, m, k);
      EightPrev(w);
      SkipIs(w);
      StepsNext(w, height);
      NextIs(w, height);
      InvertStrict(w);
      EightSteps(s, height, m, k);
    }
  }

  /** From other even heights it is better, but for small ones. */
  lemma OtherPrev(w: nat)
    requires w % 2 == 0 && w % 8 != 0 && w >= 8
    ensures GetSkipHeight(w - 1) < InvertLowestOne(w) - 2
  {
    hide *;
    var q, r := w / 8, w % 8;
    Eighths(w);
    if r == 4 {
      OtherPrevFour(q);
    } else if r == 2 {
      OtherPrevTwo(2 * q);
    } else {
      OtherPrevTwo(2 * q + 1);
    }
  }

  lemma Eighths(w: nat)
    ensures w == 8 * (w / 8) + w % 8 && w % 2 == w % 8 % 2
  {
    var q, r := w / 8, w % 8;
    assert w == 8 * q + r;
    LastBit(r, r / 2);
    DivModUnique(w, 2, 4 * q + r / 2, r % 2);
  }

  lemma OtherPrevTwo(a: nat)
    requires a > 0
    ensures GetSkipHeight(4 * a + 1) < InvertLowestOne(4 * a + 2) - 2
  {
    hide *;
    SkipOdd(2 * a);
    InvertEven(2 * a + 1);
    InvertOdd(a);
    InvertLess(2 * a);
    InvertLess(InvertLowestOne(2 * a));
    assert 4 * a + 1 == 2 * (2 * a) + 1 && 4 * a + 2 == 2 * (2 * a + 1);
  }

  lemma OtherPrevFour(a: nat)
    requires a > 0
    ensures GetSkipHeight(8 * a + 3) < InvertLowestOne(8 * a + 4) - 2
  {
    hide *;
    SkipOdd(4 * a + 1);
    InvertOdd(2 * a);
    InvertLess(4 * a);
    InvertEven(4 * a + 2);
    InvertEven(2 * a + 1);
    InvertOdd(a);
    assert 4 * a + 1 == 2 * (2 * a) + 1 && 8 * a + 3 == 2 * (4 * a + 1) + 1;
    assert 8 * a + 4 == 2 * (4 * a + 2) && 4 * a + 2 == 2 * (2 * a + 1);
  }

  lemma {:induction false} OnesPred(n: nat)
    requires n > 0
    ensures Ones(n - 1) >= Ones(n) - 1
  {
    hide *;
    var u := n / 2;
    LastBit(n, u);
    OnesOf(u);
    if n % 2 == 0 {
      OnesOf(u - 1);
      OnesPred(u);
    }
  }

  /** An odd height that an even one steps back to and that skips from there. */
  lemma ByPrev(w: nat, height: nat, m: nat, k: nat)
    requires Above(w, m, k) && k > 0 && Exit(m, height) && w % 2 == 0 && w > m && Next(w, height) == w - 1
    ensures Steps(w, height) <= (Extra(w, m) - 1) / 2 + 4 + Steps(m - 1, height)
  {
    hide *;
    ExitIs(m, height);
    AboveEven(m, w, k);
    AboveFacts(w, m, k);
    AboveInvert(w, m, k);
    AboveFacts(InvertLowestOne(w), m, k);
    AboveDown(w, w - 1, m, k);
    SkipIs(w);
    SkipIs(w - 1);
    InvertParity(w);
    NextIs(w, height);
    PrevSkip(w);
    var s := GetSkipHeight(w - 1);
    NextIs(w - 1, height);
    StepsNext(w, height);
    StepsNext(w - 1, height);
    OddSkipOut(w - 1, m, k);
    if s >= m {
      OddSkip(w - 1, m, k);
      ExtraIs(s, m);
      ExtraIs(w, m);
      AboveFacts(w - 1, m, k);
      OddSteps(s, height, m, k);
    } else {
      StepsAtMost(s, height);
    }
  }

  lemma OtherByPrev(w: nat, height: nat, m: nat, k: nat)
    requires Above(w, m, k) && k >= 3 && Exit(m, height) && w % 2 == 0 && w % 8 != 0 && Extra(w, m) >= 3
    ensures w > m && height < w && Next(w, height) == w - 1
  {
    hide *;
    ExitIs(m, height);
    AboveFacts(w, m, k);
    AboveEight(w, m, k);
    AboveEven(m, w, k);
    AboveDown(w, w - 1, m, k);
    AboveFacts(w - 1, m, k);
    OtherPrev(w);
    SkipIs(w);
    NextIs(w, height);
    AboveInvert(w, m, k);
    AboveFacts(InvertLowestOne(w), m, k);
    PredExtra(w, m);
    OddSkipOut(w - 1, m, k);
  }

  lemma AboveEight(x: nat, m: nat, k: nat)
    requires Above(x, m, k) && k >= 3
    ensures m % 8 == 0 && m >= 8
  {
    assert Low(m, k) == 2 * Low(m / 2, k - 1) + m % 2;
    assert Low(m / 2, k - 1) == 2 * Low(m / 2 / 2, k - 2) + m / 2 % 2;
    assert Low(m / 2 / 2, k - 2) == 2 * Low(m / 2 / 2 / 2, k - 3) + m / 2 / 2 % 2;
  }

  /** Before an even number comes one with at least as many ones. */
  lemma PredExtra(w: nat, m: nat)
    requires w % 2 == 0 && w > 0
    ensures Extra(w - 1, m) >= Extra(w, m)
  {
    hide *;
    var u := w / 2;
    LastBit(w, u);
    OnesOf(u);
    OnesOf(u - 1);
    OnesPred(u);
    ExtraIs(w, m);
    ExtraIs(w - 1, m);
  }

  lemma {:induction false} EvenSteps(w: nat, height: nat, m: nat, k: nat)
    requires Above(w, m, k) && k >= 3 && Exit(m, height) && w % 2 == 0 && w % 8 != 0
    ensures height < w && Steps(w, height) <= Extra(w, m) / 2 + 4 + Steps(m - 1, height)
    decreases w
  {
    hide *;
    ExitIs(m, height);
    AboveFacts(w, m, k);
    AboveEight(w, m, k);
    if Extra(w, m) >= 3 {
      OtherByPrev(w, height, m, k);
    }
    if Next(w, height) == w - 1 {
      ByPrev(w, height, m, k);
    } else {
      var s := InvertLowestOne(w);
      AboveInvert(w, m, k);
      AboveFacts(s, m, k);
      InvertParity(w);
      InvertStrict(w);
      SkipIs(w);
      NextIs(w, height);
      StepsNext(w, height);
      if s % 8 == 0 {
        EightSteps(s, height, m, k);
      } else {
        EvenSteps(s, height, m, k);
      }
    }
  }

  // ---------------------------------------------------------------- from any height

  /** How many steps it takes to get below m from height w with this many more ones. */
  function Leaving(w: nat, ones: nat): nat {
    if w % 8 == 0 then ones + 1 else if w % 2 == 1 then ones / 2 + 2 else ones / 2 + 4
  }

  lemma LeavingSteps(w: nat, height: nat, k: nat)
    requires k >= 3 && height <= w && High(w, k) == High(height, k) + 1
    ensures var m := w - Low(w, k);
            && height < m && Full(m - 1, k) && High(m - 1, k) == High(height, k)
            && Steps(w, height) <= Leaving(w, Ones(Low(w, k))) + Steps(m - 1, height)
  {
    hide *;
    var m := w - Low(w, k);
    MakeExit(w, height, k);
    ExitIs(m, height);
    AboveFacts(w, m, k);
    LeavingIs(w, Ones(Low(w, k)));
    if w % 8 == 0 {
      EightSteps(w, height, m, k);
    } else if w % 2 == 1 {
      OddSteps(w, height, m, k);
    } else {
      EvenSteps(w, height, m, k);
    }
  }

  lemma LeavingIs(w: nat, ones: nat)
    ensures Leaving(w, ones) == if w % 8 == 0 then ones + 1 else if w % 2 == 1 then ones / 2 + 2 else ones / 2 + 4
  {
  }

  // ---------------------------------------------------------------- from a height that ends in ones

  /** The zeros of the height to go to cost: a bit has to be got rid of with all the ones below it. */
  ghost function Cost(height: nat, k: nat): nat {
    if k <= 3 then 4 else Cost(height, k - 1) + if High(height, k - 1) % 2 == 0 then (k - 1) / 2 + 2 else 0
  }

  function CostLimit(k: nat): nat {
    if k <= 3 then 4 else CostLimit(k - 1) + (k - 1) / 2 + 2
  }

  lemma {:induction false} CostWithin(height: nat, k: nat)
    ensures Cost(height, k) <= CostLimit(k)
    decreases k
  {
    if k > 3 {
      hide High;
      CostWithin(height, k - 1);
    }
  }

  lemma {:induction false} FullSteps(w: nat, height: nat, k: nat)
    requires k >= 3 && height <= w && Full(w, k) && High(w, k) == High(height, k)
    ensures Steps(w, height) <= Cost(height, k)
    decreases k
  {
    hide *;
    CostIs(height, k);
    if k == 3 {
      FullThree(w, height);
    } else {
      var j := k - 1;
      FullLess(w, j);
      HighStep(w, j);
      HighStep(height, j);
      HighDown(height, w, j);
      if High(w, j) == High(height, j) {
        FullSteps(w, height, j);
      } else {
        var m := w - Low(w, j);
        MakeExit(w, height, j);
        ExitIs(m, height);
        AboveFacts(w, m, j);
        FullOnes(w, j);
        FullOdd(w, j);
        OddSteps(w, height, m, j);
        FullSteps(m - 1, height, j);
      }
    }
  }

  lemma CostIs(height: nat, k: nat)
    ensures k <= 3 ==> Cost(height, k) == 4
    ensures k > 3 ==>
              Cost(height, k) == Cost(height, k - 1) + if High(height, k - 1) % 2 == 0 then (k - 1) / 2 + 2 else 0
  {
    hide High;
  }

  lemma FullOdd(n: nat, k: nat)
    requires Full(n, k) && k > 0
    ensures n % 2 == 1
  {
  }

  lemma FullThree(w: nat, height: nat)
    requires height <= w && Full(w, 3) && High(w, 3) == High(height, 3)
    ensures Steps(w, height) <= 4
  {
    var a := w / 8;
    ThreeBits(w, height);
    hide *;
    if height >= 8 * a + 3 {
      StepsAtMost(w, height);
    } else {
      FromSeven(a, height);
    }
  }

  lemma ThreeBits(w: nat, height: nat)
    requires height <= w && Full(w, 3) && High(w, 3) == High(height, 3)
    ensures w == 8 * (w / 8) + 7 && height >= 8 * (w / 8)
  {
    assert Full(w, 3) == (w % 2 == 1 && Full(w / 2, 2));
    assert Full(w / 2, 2) == (w / 2 % 2 == 1 && Full(w / 2 / 2, 1));
    assert Full(w / 2 / 2, 1) == (w / 2 / 2 % 2 == 1 && Full(w / 2 / 2 / 2, 0));
    HighThree(w);
    HighThree(height);
  }

  lemma HighThree(n: nat)
    ensures High(n, 3) == n / 8
  {
    assert High(n, 3) == High(n / 2, 2) == High(n / 2 / 2, 1) == High(n / 2 / 2 / 2, 0);
  }

  lemma SevenSkips(a: nat)
    ensures GetSkipHeight(8 * a + 7) == 8 * a + 1 && GetSkipHeight(8 * a + 6) == 8 * a + 4
    ensures GetSkipHeight(8 * a + 5) <= 8 * a + 1
  {
    hide *;
    SkipOdd(4 * a + 3);
    InvertOdd(2 * a + 1);
    InvertEven(2 * a + 1);
    InvertOdd(a);
    SkipEven(4 * a + 3);
    SkipOdd(4 * a + 2);
    InvertLess(2 * (2 * a));
    assert 4 * a + 3 == 2 * (2 * a + 1) + 1 && 8 * a + 7 == 2 * (4 * a + 3) + 1 && 8 * a + 6 == 2 * (4 * a + 3);
    assert 8 * a + 5 == 2 * (4 * a + 2) + 1 && 4 * a + 2 == 2 * (2 * a + 1) && 2 * InvertLowestOne(2 * a + 1) == 4 * a;
  }

  lemma FromSeven(a: nat, height: nat)
    requires 8 * a <= height <= 8 * a + 2
    ensures Steps(8 * a + 7, height) <= 4
  {
    hide *;
    var w := 8 * a + 7;
    SevenSkips(a);
    NextIs(w, height);
    StepsNext(w, height);
    if height <= 8 * a + 1 {
      StepsAtMost(8 * a + 1, height);
    } else {
      NextIs(w - 1, height);
      StepsNext(w - 1, height);
      StepsAtMost(w - 3, height);
    }
  }

  // ---------------------------------------------------------------- the bound

  function Larger(a: nat, b: nat): nat { if a < b then b else a }

  function LeavingLimit(k: nat): nat
    requires k >= 3
  {
    Larger(k - 2, (k - 1) / 2 + 4)
  }

  lemma LimitIs(k: nat)
    requires k >= 3
    ensures LeavingLimit(k) >= k - 2 && LeavingLimit(k) >= (k - 1) / 2 + 4
    ensures LeavingLimit(k) == k - 2 || LeavingLimit(k) == (k - 1) / 2 + 4
  {
  }

  /** The most steps that going back up to 2^k blocks can take. */
  function Most(k: nat): nat {
    if k <= 3 then 9 else Larger(Most(k - 1) + (k - 1) / 2 + 2, LeavingLimit(k - 1) + CostLimit(k - 1))
  }

  lemma LowOnesEven(n: nat, k: nat)
    requires k > 0 && n % 2 == 0
    ensures Ones(Low(n, k)) == Ones(Low(n / 2, k - 1)) <= k - 1
  {
    hide *;
    BitsAt(n, k);
    OnesOf(Low(n / 2, k - 1));
    OnesSplit(n / 2, k - 1);
  }

  lemma LeavingWithin(w: nat, k: nat)
    requires k >= 3
    ensures Leaving(w, Ones(Low(w, k))) <= LeavingLimit(k)
  {
    hide *;
    LimitIs(k);
    OnesSplit(w, k);
    LeavingIs(w, Ones(Low(w, k)));
    EightHalves(w);
    if w % 8 == 0 {
      LowOnesEven(w, k);
      LowOnesEven(w / 2, k - 1);
      LowOnesEven(w / 2 / 2, k - 2);
    } else if w % 2 == 0 {
      LowOnesEven(w, k);
    }
  }

  lemma EightHalves(w: nat)
    ensures w % 8 == 0 ==> w % 2 == 0 && w / 2 % 2 == 0 && w / 2 / 2 % 2 == 0
  {
  }

  lemma MostIs(k: nat)
    ensures Most(3) == 9
    ensures k >= 3 ==> Most(k + 1) >= Most(k) + k / 2 + 2 && Most(k + 1) >= LeavingLimit(k) + CostLimit(k)
  {
    hide LeavingLimit, CostLimit;
  }

  /** The topmost of the lower bits. */
  lemma {:induction false} LowTop(n: nat, k: nat)
    ensures Low(n, k + 1) == Low(n, k) + if High(n, k) % 2 == 1 then Pow2(k) else 0
    ensures Low(n, k) < Pow2(k)
    decreases k
  {
    if k > 0 {
      LowTop(n / 2, k - 1);
    }
  }

  lemma OnesTop(n: nat, k: nat)
    ensures Ones(Low(n, k + 1)) == Ones(Low(n, k)) + High(n, k) % 2
  {
    hide *;
    var h := High(n, k);
    OnesSplit(n, k);
    OnesSplit(n, k + 1);
    HighStep(n, k);
    LastBit(h, h / 2);
    OnesOf(h / 2);
  }

  lemma LeavingMore(w: nat, ones: nat)
    ensures Leaving(w, ones) <= Leaving(w, ones + 1) <= Leaving(w, ones) + 1
  {
  }

  /** Ones that make leaving expensive are not zeros that make the rest so. */
  lemma {:induction false} Balance(w: nat, height: nat, k: nat)
    requires k >= 3 && Low(w, k) <= Low(height, k)
    ensures Leaving(w, Ones(Low(w, k))) + Cost(height, k) <= Most(k)
    decreases k
  {
    hide *;
    CostIs(height, k);
    MostIs(k);
    if k == 3 {
      LeavingWithin(w, 3);
      LimitIs(3);
    } else {
      var j := k - 1;
      LowTop(w, j);
      LowTop(height, j);
      OnesTop(w, j);
      MostIs(j);
      LeavingMore(w, Ones(Low(w, j)));
      BitIs(High(w, j));
      BitIs(High(height, j));
      if High(w, j) % 2 == High(height, j) % 2 {
        Balance(w, height, j);
      } else {
        LeavingWithin(w, j);
        CostWithin(height, j);
      }
    }
  }

  lemma BitIs(n: nat)
    ensures n % 2 == 0 || n % 2 == 1
  {
  }

  /** Between heights with the same upper bits. */
  lemma {:induction false} StepsWithin(walk: nat, height: nat, k: nat)
    requires k >= 3 && height <= walk && High(walk, k) == High(height, k)
    ensures Steps(walk, height) <= Most(k)
    decreases k
  {
    hide *;
    MostIs(k);
    if k == 3 {
      HighThree(walk);
      HighThree(height);
      StepsAtMost(walk, height);
    } else {
      var j := k - 1;
      MostIs(j);
      HighStep(walk, j);
      HighStep(height, j);
      HighDown(height, walk, j);
      if High(walk, j) == High(height, j) {
        StepsWithin(walk, height, j);
      } else {
        LeavingSteps(walk, height, j);
        LeavingWithin(walk, j);
        FullSteps(walk - Low(walk, j) - 1, height, j);
        CostWithin(height, j);
      }
    }
  }

  lemma {:induction false} ApartLow(x: nat, n: nat, k: nat)
    requires High(n, k) == High(x, k) + 1
    ensures n - x == Pow2(k) + Low(n, k) - Low(x, k)
    decreases k
  {
    if k > 0 {
      ApartLow(x / 2, n / 2, k - 1);
    }
  }

  /** From any height, going back up to 2^k blocks takes at most so many steps. */
  lemma StepsBound(walk: nat, height: nat, k: nat)
    requires k >= 3 && height <= walk <= height + Pow2(k)
    ensures Steps(walk, height) <= Most(k)
  {
    hide *;
    HighApart(height, walk, k);
    HighDown(height, walk, k);
    if High(walk, k) == High(height, k) {
      StepsWithin(walk, height, k);
    } else {
      ApartLow(height, walk, k);
      LeavingSteps(walk, height, k);
      FullSteps(walk - Low(walk, k) - 1, height, k);
      Balance(walk, height, k);
    }
  }

  /** The number given where skip heights are computed. */
  lemma Most18()
    ensures Most(18) == 110 && Pow2(18) == 0x40000
  {
    assert CostLimit(5) == 11 && CostLimit(7) == 20 && CostLimit(9) == 31 && CostLimit(11) == 44;
    assert CostLimit(13) == 59 && CostLimit(15) == 76 && CostLimit(17) == 95;
    assert Most(4) == 12 && Most(5) == 16 && Most(6) == 20 && Most(7) == 25 && Most(8) == 30 && Most(9) == 36;
    assert Most(10) == 42 && Most(11) == 49 && Most(12) == 56 && Most(13) == 64 && Most(14) == 72 && Most(15) == 81;
    assert Most(16) == 90 && Most(17) == 100;
    assert Pow2(9) == 512;
    Pow2Add(9, 9);
  }

  lemma StepsLimits(walk: nat, height: nat)
    requires height <= walk
    ensures forall k :: k >= 3 && walk - height <= Pow2(k) ==> Steps(walk, height) <= Most(k)
    ensures walk - height <= 0x40000 ==> Steps(walk, height) <= 110
  {
    hide *;
    forall k | k >= 3 && walk - height <= Pow2(k) ensures Steps(walk, height) <= Most(k) {
      StepsBound(walk, height, k);
    }
    Most18();
    if walk - height <= 0x40000 {
      StepsBound(walk, height, 18);
    }
  }

  /** It grows like a quarter of k squared. */
  lemma {:induction false} MostQuadratic(k: nat)
    requires k >= 3
    ensures 4 * Most(k) <= (k + 4) * (k + 4)
  {
    hide *;
    MostNext(k);
    if k > 3 {
      var j := k - 1;
      MostQuadratic(j);
      CostQuadratic(j);
      LimitIs(j);
      Squares(j);
    }
  }

  lemma MostNext(k: nat)
    ensures k == 3 ==> Most(k) == 9
    ensures k > 3 ==> Most(k) == Most(k - 1) + (k - 1) / 2 + 2 || Most(k) == LeavingLimit(k - 1) + CostLimit(k - 1)
  {
    hide LeavingLimit, CostLimit;
  }

  lemma Squares(j: nat)
    ensures (j + 5) * (j + 5) == j * j + 10 * j + 25 && (j + 4) * (j + 4) == j * j + 8 * j + 16
    ensures (j + 1) * (j + 1) == j * j + 2 * j + 1
  {
  }

  lemma {:induction false} CostQuadratic(k: nat)
    requires k >= 3
    ensures 4 * CostLimit(k) == k * k + 6 * k - 12 + k % 2
  {
    hide *;
    CostLimitIs(k);
    if k > 3 {
      var j := k - 1;
      CostQuadratic(j);
      Parity(j);
      CostStep(CostLimit(j), j, j / 2);
    }
  }

  lemma Parity(j: nat)
    ensures 2 * (j / 2) == j - j % 2 && (j + 1) % 2 == 1 - j % 2
  {
  }

  lemma CostStep(c: int, j: int, h: int)
    requires j >= 0 && 2 * h == j - j % 2 && (j + 1) % 2 == 1 - j % 2 && 4 * c == j * j + 6 * j - 12 + j % 2
    ensures 4 * (c + h + 2) == (j + 1) * (j + 1) + 6 * (j + 1) - 12 + (j + 1) % 2
  {
    Squares(j);
  }

  lemma CostLimitIs(k: nat)
    ensures k == 3 ==> CostLimit(k) == 4
    ensures k > 3 ==> CostLimit(k) == CostLimit(k - 1) + (k - 1) / 2 + 2
  {
  }
}
