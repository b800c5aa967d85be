/** bit_packed_atomic_flags: one flag per slot, eight to a byte. */
module CollectionFlags {
  import opened BitPacking

  lemma UnsetBit(b: bv8, j: nat, k: nat)
    requires j < 8 && k < 8
    ensures Bit(b & !Mask(j), k) <==> k != j && Bit(b, k)
  {
  }

  lemma AllSet(k: nat)
    requires k < 8
    ensures Bit(0xFF, k)
  {
  }

  class Flags {
    var mem: array<bv8>

    /** All flags are set. */
    constructor (size: nat)
      ensures fresh(mem) && 8 * mem.Length >= size && forall s :: 0 <= s < 8 * mem.Length ==> BitAt(mem[..], s)
    {
      mem := new bv8[(size + 7) / 8](_ => 0xFF);
      new;
      forall s | 0 <= s < 8 * mem.Length ensures BitAt(mem[..], s) {
        AllSet(s % 8);
      }
    }

    /** Sets one flag and no other. */
    method BitSet(s: nat)
      requires s < 8 * mem.Length
      modifies mem
      ensures forall t :: 0 <= t < 8 * mem.Length ==> (BitAt(mem[..], t) <==> t == s || BitAt(old(mem[..]), t))
    {
      hide Mask, Bit;
      forall t | 0 <= t < 8 * mem.Length
        ensures BitAt(mem[..][s / 8 := mem[s / 8] | Mask(s % 8)], t) <==> t == s || BitAt(mem[..], t)
      {
        SameBit(s, t);
        SetBit(mem[s / 8], s % 8, t % 8);
      }
      ghost var after := mem[..][s / 8 := mem[s / 8] | Mask(s % 8)];
      mem[s / 8] := mem[s / 8] | Mask(s % 8);
      assert mem[..] == after;
    }

    /** Clears one flag and no other. */
    method BitUnset(s: nat)
      requires s < 8 * mem.Length
      modifies mem
      ensures forall t :: 0 <= t < 8 * mem.Length ==> (BitAt(mem[..], t) <==> t != s && BitAt(old(mem[..]), t))
    {
      hide Mask, Bit;
      forall t | 0 <= t < 8 * mem.Length
        ensures BitAt(mem[..][s / 8 := mem[s / 8] & !Mask(s % 8)], t) <==> t != s && BitAt(mem[..], t)
      {
        SameBit(s, t);
        UnsetBit(mem[s / 8], s % 8, t % 8);
      }
      ghost var after := mem[..][s / 8 := mem[s / 8] & !Mask(s % 8)];
      mem[s / 8] := mem[s / 8] & !Mask(s % 8);
      assert mem[..] == after;
    }

    method BitIsSet(s: nat) returns (r: bool)
      requires s < 8 * mem.Length
      ensures r <==> BitAt(mem[..], s)
    {
      r := Mask(s % 8) & mem[s / 8] != 0;
    }
  }
}
