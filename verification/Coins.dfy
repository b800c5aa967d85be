/** The unspent outputs of one transaction (CCoins) and the loops that keep them trimmed. */
module Coins {
  import opened Octets

  /** A 256-bit hash, named by its integer value. */
  type Txid = int

  /** A transaction output; value -1 marks a spent ("null") one. */
  datatype TxOut = TxOut(value: int, script: seq<Byte>) {
    predicate IsNull() {
      value == -1
    }
  }

  const NULL_OUT := TxOut(-1, [])

  datatype Coins = Coins(coinBase: bool, vout: seq<TxOut>, height: int, version: int) {

    predicate IsPruned() {
      forall i :: 0 <= i < |vout| ==> vout[i].IsNull()
    }

    predicate IsAvailable(n: nat) {
      n < |vout| && !vout[n].IsNull()
    }

    /** No spent output at the end of vout: the form every stored CCoins is kept in. */
    predicate Trimmed() {
      |vout| > 0 ==> !vout[|vout| - 1].IsNull()
    }
  }

  const EMPTY := Coins(false, [], 0, 0)

  /** vout without its trailing spent outputs. */
  function Trim(vout: seq<TxOut>): (r: seq<TxOut>)
    ensures r <= vout
    ensures |r| > 0 ==> !r[|r| - 1].IsNull()
    ensures forall i :: |r| <= i < |vout| ==> vout[i].IsNull()
  {
    if |vout| > 0 && vout[|vout| - 1].IsNull() then Trim(vout[..|vout| - 1]) else vout
  }

  function Cleaned(c: Coins): (r: Coins)
    ensures r.Trimmed()
    ensures r.IsPruned() <==> c.IsPruned()
    ensures forall n: nat :: r.IsAvailable(n) <==> c.IsAvailable(n)
    ensures forall n: nat :: c.IsAvailable(n) ==> n < |r.vout| && r.vout[n] == c.vout[n]
    ensures c.Trimmed() ==> r == c
  {
    c.(vout := Trim(c.vout))
  }

  /** CCoins::Cleanup: pop spent outputs off the back until none is left there. */
  method Cleanup(c: Coins) returns (r: Coins)
    ensures r == Cleaned(c)
  {
    var vout := c.vout;
    while |vout| > 0 && vout[|vout| - 1].IsNull()
      invariant Trim(vout) == Trim(c.vout)
    {
      vout := vout[..|vout| - 1];
    }
    r := c.(vout := vout);
  }

  /** CCoins::Spend: exactly output n stops being available, and the result is trimmed again. */
  method Spend(c: Coins, n: nat) returns (ok: bool, r: Coins)
    ensures ok <==> c.IsAvailable(n)
    ensures !ok ==> r == c
    ensures ok ==> r.Trimmed() && !r.IsAvailable(n)
    ensures forall m: nat :: m != n ==> (r.IsAvailable(m) <==> c.IsAvailable(m))
    ensures forall m: nat :: r.IsAvailable(m) ==> m < |c.vout| && r.vout[m] == c.vout[m]
    ensures r.coinBase == c.coinBase && r.height == c.height && r.version == c.version
  {
    if n >= |c.vout| || c.vout[n].IsNull() {
      return false, c;
    }
    r := Cleanup(c.(vout := c.vout[n := NULL_OUT]));
    ok := true;
  }

  /** Trimmed coins have an empty vout exactly when they are pruned (what HaveCoins relies on). */
  lemma TrimmedEmptyIffPruned(c: Coins)
    requires c.Trimmed()
    ensures |c.vout| == 0 <==> c.IsPruned()
  {
    if |c.vout| > 0 {
      assert !c.vout[|c.vout| - 1].IsNull();
    }
  }
}
