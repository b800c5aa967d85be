/** Facts about finite sets and counting. */
module Sets {

  lemma Inhabited(s: set<int>)
    requires s != {}
    ensures exists x :: x in s
  {
    if forall x :: x !in s {
      assert false;
    }
  }

  lemma AtMostOne(s: set<int>, one: bool, e: int)
    requires forall x :: x in s <==> one && x == e
    ensures s == if one then {e} else {}
  {
    var rest := if one then s - {e} else s;
    if rest != {} {
      Inhabited(rest);
    }
    assert one ==> s == rest + {e};
  }

  lemma Fewer(s: set<int>, t: set<int>, x: int)
    requires s <= t && x in t && x !in s
    ensures |s| < |t|
  {
    var rest := t - s - {x};
    assert t == s + rest + {x};
    assert |s + rest| == |s| + |rest|;
  }

  /** Numbers that are all different. */
  lemma {:induction false} CountOf(v: seq<int>, s: set<int>)
    requires forall i, j :: 0 <= i < j < |v| ==> v[i] != v[j]
    requires forall x :: x in s <==> x in v
    ensures |s| == |v|
  {
    if |v| == 0 {
      AtMostOne(s, false, 0);
    } else {
      var n := |v| - 1;
      assert v[n] in v;
      forall x ensures x in s - {v[n]} <==> x in v[..n] {
        assert x in v <==> x in v[..n] || x == v[n];
      }
      CountOf(v[..n], s - {v[n]});
    }
  }

  lemma SomeOf(v: seq<int>, s: set<int>)
    requires forall i, j :: 0 <= i < j < |v| ==> v[i] != v[j]
    requires forall i :: 0 <= i < |v| ==> v[i] in s
    ensures |v| <= |s| && ((forall x :: x in s ==> x in v) ==> |v| == |s|)
  {
    var t := set x | x in v;
    CountOf(v, t);
    assert s == t + (s - t);
    if forall x :: x in s ==> x in v {
      AtMostOne(s - t, false, 0);
    }
  }

  /** More numbers below m than m: one is there twice. */
  lemma {:induction false} Pigeonhole(f: seq<int>, m: nat) returns (i: nat, j: nat)
    requires |f| > m && forall k :: 0 <= k < |f| ==> 0 <= f[k] < m
    ensures i < j < |f| && f[i] == f[j]
    decreases m
  {
    assert 0 <= f[0] < m;
    if k, l :| 0 <= k < l < |f| && f[k] == f[l] == m - 1 {
      return k, l;
    }
    if k :| 0 <= k < |f| && f[k] == m - 1 {
      var rest := f[..k] + f[k + 1..];
      forall l | 0 <= l < |rest| ensures 0 <= rest[l] < m - 1 {
        assert rest[l] == f[if l < k then l else l + 1];
      }
      i, j := Pigeonhole(rest, m - 1);
      i, j := if i < k then i else i + 1, if j < k then j else j + 1;
    } else {
      i, j := Pigeonhole(f[..|f| - 1], m - 1);
    }
  }
}
