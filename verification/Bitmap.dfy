/** bitmap_set and bitmap_get of lib/math.c: single bits in an array of bytes. */
module Bitmap {

  function Mask(k: nat): bv8
    requires k < 8
  {
    (1 as bv8) << k
  }

  predicate Bit(bytes: seq<bv8>, n: nat)
    requires n / 8 < |bytes|
  {
    bytes[n / 8] & Mask(n % 8) != 0
  }

  lemma MaskBits(b: bv8, j: nat, k: nat)
    requires j < 8 && k < 8
    ensures (b | Mask(j)) & Mask(k) != 0 <==> j == k || b & Mask(k) != 0
    ensures (b & !Mask(j)) & Mask(k) != 0 <==> j != k && b & Mask(k) != 0
  {
    assert Mask(0) == 1 && Mask(1) == 2 && Mask(2) == 4 && Mask(3) == 8;
    assert Mask(4) == 16 && Mask(5) == 32 && Mask(6) == 64 && Mask(7) == 128;
  }

  /** bitmap_set: one bit changes and no other. */
  method Set(bitmap: array<bv8>, n: nat, b: bool)
    requires n / 8 < bitmap.Length
    modifies bitmap
    ensures forall m :: 0 <= m / 8 < bitmap.Length ==>
              (Bit(bitmap[..], m) <==> if m == n then b else old(Bit(bitmap[..], m)))
  {
    if b {
      bitmap[n / 8] := bitmap[n / 8] | Mask(n % 8);
    } else {
      bitmap[n / 8] := bitmap[n / 8] & !Mask(n % 8);
    }
    forall m | 0 <= m / 8 < bitmap.Length
      ensures Bit(bitmap[..], m) <==> if m == n then b else old(Bit(bitmap[..], m))
    {
      MaskBits(old(bitmap[n / 8]), n % 8, m % 8);
    }
  }

  /** bitmap_get. */
  method Get(bitmap: array<bv8>, n: nat) returns (b: bool)
    requires n / 8 < bitmap.Length
    ensures b <==> Bit(bitmap[..], n)
  {
    b := bitmap[n / 8] & Mask(n % 8) != 0;
  }
}
