/** Flag bits packed eight to a byte, lowest bit first. */
module BitPacking {

  /** 1 << k. */
  function Mask(k: nat): bv8
    requires k < 8
  {
    match k
    case 0 => 1 case 1 => 2 case 2 => 4 case 3 => 8 case 4 => 16 case 5 => 32 case 6 => 64 case 7 => 128
  }

  predicate Bit(b: bv8, k: nat)
    requires k < 8
  {
    b & Mask(k) != 0
  }

  predicate BitAt(bytes: seq<bv8>, p: nat)
    requires p < 8 * |bytes|
  {
    Bit(bytes[p / 8], p % 8)
  }

  /** Setting one bit changes that bit only. */
  lemma SetBit(b: bv8, j: nat, k: nat)
    requires j < 8 && k < 8
    ensures Bit(b | Mask(j), k) <==> k == j || Bit(b, k)
  {
  }

  lemma ClearBits(k: nat)
    requires k < 8
    ensures !Bit(0, k)
  {
  }

  /** The bytes hold these bits, padded with zeros. */
  ghost predicate Packing(bits: seq<bool>, bytes: seq<bv8>) {
    && |bytes| == (|bits| + 7) / 8
    && forall p :: 0 <= p < 8 * |bytes| ==> (BitAt(bytes, p) <==> p < |bits| && bits[p])
  }

  function Unpacked(bytes: seq<bv8>): (bits: seq<bool>)
    ensures |bits| == 8 * |bytes|
  {
    seq(8 * |bytes|, p requires 0 <= p < 8 * |bytes| => BitAt(bytes, p))
  }

  method Pack(bits: seq<bool>) returns (bytes: seq<bv8>)
    ensures Packing(bits, bytes)
  {
    var v := new bv8[(|bits| + 7) / 8](_ => 0);
    forall p | 0 <= p < 8 * v.Length ensures !BitAt(v[..], p) {
      ClearBits(p % 8);
    }
    for p := 0 to |bits|
      invariant forall q :: 0 <= q < 8 * v.Length ==> (BitAt(v[..], q) <==> q < p && bits[q])
    {
      ghost var before := v[..];
      if bits[p] {
        v[p / 8] := v[p / 8] | Mask(p % 8);
      }
      PackStep(bits, before, v[..], p);
    }
    bytes := v[..];
  }

  lemma SameBit(p: nat, q: nat)
    ensures q == p <==> q / 8 == p / 8 && q % 8 == p % 8
  {
  }

  lemma PackStep(bits: seq<bool>, before: seq<bv8>, after: seq<bv8>, p: nat)
    requires p < |bits| <= 8 * |before| && |after| == |before|
    requires forall q :: 0 <= q < 8 * |before| ==> (BitAt(before, q) <==> q < p && bits[q])
    requires after == if bits[p] then before[p / 8 := before[p / 8] | Mask(p % 8)] else before
    ensures forall q :: 0 <= q < 8 * |after| ==> (BitAt(after, q) <==> q < p + 1 && bits[q])
  {
    hide Mask, Bit;
    forall q | 0 <= q < 8 * |after| ensures BitAt(after, q) <==> q < p + 1 && bits[q] {
      assert BitAt(before, q) <==> q < p && bits[q];
      SameBit(p, q);
      SetBit(before[p / 8], p % 8, q % 8);
    }
  }

  method Unpack(bytes: seq<bv8>) returns (bits: seq<bool>)
    ensures bits == Unpacked(bytes)
  {
    var v := new bool[8 * |bytes|];
    for p := 0 to v.Length
      invariant forall q :: 0 <= q < p ==> v[q] == BitAt(bytes, q)
    {
      v[p] := bytes[p / 8] & Mask(p % 8) != 0;
    }
    bits := v[..];
  }

  /** Unpacking gives the bits back, followed by less than a byte of padding. */
  lemma UnpackedPacking(bits: seq<bool>, bytes: seq<bv8>)
    requires Packing(bits, bytes)
    ensures bits <= Unpacked(bytes) && |Unpacked(bytes)| < |bits| + 8
    ensures forall p :: |bits| <= p < |Unpacked(bytes)| ==> !Unpacked(bytes)[p]
  {
    var all := Unpacked(bytes);
    assert all[..|bits|] == bits by {
      forall p | 0 <= p < |bits| ensures all[p] == bits[p] {
        assert BitAt(bytes, p) <==> p < |bits| && bits[p];
      }
    }
  }
}
