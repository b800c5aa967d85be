/** Hash values and hash functions. A hash function is a parameter; collision resistance is never assumed,
    instead a broken claim comes with the colliding inputs. */
module Hashing {
  import opened Octets
  import opened Powers

  /** A 256-bit hash as a number. */
  type Hash = x: int | 0 <= x < TWO_256

  const ZERO_HASH: Hash := 0

  /** Two hashes that are concatenated and hashed. */
  datatype Pair = Pair(left: Hash, right: Hash)

  type Combine = Pair -> Hash

  predicate Collision(h: Combine, p: Pair, q: Pair) {
    p != q && h(p) == h(q)
  }

  // ---------------------------------------------------------------- bytes

  /** The lowest k bytes of a number, lowest first. */
  function Bytes(x: nat, k: nat): (s: seq<Byte>)
    ensures |s| == k
  {
    if k == 0 then [] else [x % 256] + Bytes(x / 256, k - 1)
  }

  lemma {:induction false} BytesInjective(x: nat, y: nat, k: nat)
    requires x < Pow2(8 * k) && y < Pow2(8 * k) && Bytes(x, k) == Bytes(y, k)
    ensures x == y
    decreases k
  {
    if k > 0 {
      Pow2Add(8, 8 * (k - 1));
      assert Pow2(8) == 256;
      assert Bytes(x, k)[0] == x % 256 && Bytes(y, k)[0] == y % 256;
      assert Bytes(x, k)[1..] == Bytes(x / 256, k - 1) && Bytes(y, k)[1..] == Bytes(y / 256, k - 1);
      BytesInjective(x / 256, y / 256, k - 1);
    }
  }

  lemma {:induction false} ByteAt(x: nat, k: nat, i: nat)
    requires i < k
    ensures Bytes(x, k)[i] == x / Pow2(8 * i) % 256
    decreases k
  {
    if i == 0 {
      assert Pow2(0) == 1;
    } else {
      ByteAt(x / 256, k - 1, i - 1);
      Pow2Add(8, 8 * (i - 1));
      assert Pow2(8) == 256;
      hide Pow2;
      DivDiv(x, 256, Pow2(8 * (i - 1)));
    }
  }

  function Reversed(s: seq<Byte>): (r: seq<Byte>)
    ensures |r| == |s|
  {
    seq(|s|, i requires 0 <= i < |s| => s[|s| - 1 - i])
  }

  lemma ReversedInjective(s: seq<Byte>, t: seq<Byte>)
    requires Reversed(s) == Reversed(t)
    ensures s == t
  {
    forall i | 0 <= i < |s| ensures s[i] == t[i] {
      assert Reversed(s)[|s| - 1 - i] == s[i];
      assert Reversed(t)[|s| - 1 - i] == t[i];
    }
  }

  /** The bytes of a hash, highest first, as they are printed. */
  function BigEndian(x: Hash): (s: seq<Byte>)
    ensures |s| == 32
  {
    Reversed(Bytes(x, 32))
  }

  /** Byte i is the one of weight 256^(31 - i). */
  lemma BigEndianAt(x: Hash, i: nat)
    requires i < 32
    ensures BigEndian(x)[i] == x / Pow2(8 * (31 - i)) % 256
  {
    hide Pow2, Bytes;
    ByteAt(x, 32, 31 - i);
  }

  lemma BigEndianInjective(x: Hash, y: Hash)
    requires BigEndian(x) == BigEndian(y)
    ensures x == y
  {
    ReversedInjective(Bytes(x, 32), Bytes(y, 32));
    Pow2Hash();
    hide Pow2;
    BytesInjective(x, y, 32);
  }
}
