/** npow2 of lib/math.c on 64-bit words, and the layout that buddy_init_region computes with it. */
module BuddyLayout {
  import opened Common
  import opened Powers
  import opened BuddyTree
  import Buddy

  // ----- Bits of a number -----

  predicate Bit(n: nat, i: nat) {
    if i == 0 then n % 2 == 1 else Bit(n / 2, i - 1)
  }

  /** a | b */
  function Or(a: nat, b: nat): nat {
    if a == 0 && b == 0 then 0
    else 2 * Or(a / 2, b / 2) + (if a % 2 == 1 || b % 2 == 1 then 1 else 0)
  }

  lemma {:induction false} OrBits(a: nat, b: nat, i: nat)
    ensures Bit(Or(a, b), i) <==> Bit(a, i) || Bit(b, i)
  {
    if a == 0 && b == 0 {
      ZeroBits(i);
    } else if i > 0 {
      OrBits(a / 2, b / 2, i - 1);
    }
  }

  /** a and b have no bit in common. */
  ghost predicate NoCommonBit(a: nat, b: nat) { forall i: nat :: !(Bit(a, i) && Bit(b, i)) }

  lemma {:induction false} OrDisjoint(a: nat, b: nat)
    requires NoCommonBit(a, b)
    ensures Or(a, b) == a + b
  {
    if a > 0 || b > 0 {
      assert !(Bit(a, 0) && Bit(b, 0));
      forall i: nat ensures !(Bit(a / 2, i) && Bit(b / 2, i)) { assert !(Bit(a, i + 1) && Bit(b, i + 1)); }
      OrDisjoint(a / 2, b / 2);
    }
  }

  lemma {:induction false} ZeroBits(i: nat)
    ensures !Bit(0, i)
  {
    if i > 0 { ZeroBits(i - 1); }
  }

  lemma {:induction false} ShrBits(n: nat, k: nat, i: nat)
    ensures Bit(Shr(n, k), i) <==> Bit(n, i + k)
  {
    if k > 0 { ShrBits(n / 2, k - 1, i); }
  }

  lemma {:induction false} HighBits(n: nat, L: nat, i: nat)
    requires n < Pow2(L) && i >= L
    ensures !Bit(n, i)
  {
    if L == 0 { ZeroBits(i); } else { HighBits(n / 2, L - 1, i - 1); }
  }

  lemma {:induction false} TopBit(n: nat, L: nat)
    requires Pow2(L) <= n < Pow2(L + 1)
    ensures Bit(n, L)
  {
    if L > 0 { TopBit(n / 2, L - 1); }
  }

  /** The top k of L bits are ones, and there are no others above. */
  ghost predicate TopOnes(n: nat, L: nat, k: nat) {
    && (forall i: nat :: L - k <= i < L ==> Bit(n, i))
    && (forall i: nat :: i >= L ==> !Bit(n, i))
  }

  /** Or-ing a number with itself shifted by k doubles the number of leading ones. */
  lemma Smear(n: nat, L: nat, k: nat)
    requires TopOnes(n, L, k)
    ensures TopOnes(Or(n, Shr(n, k)), L, 2 * k)
  {
    var m := Or(n, Shr(n, k));
    forall i: nat | L - 2 * k <= i < L ensures Bit(m, i) {
      OrBits(n, Shr(n, k), i);
      ShrBits(n, k, i);
    }
    forall i: nat | i >= L ensures !Bit(m, i) {
      OrBits(n, Shr(n, k), i);
      ShrBits(n, k, i);
    }
  }

  lemma {:induction false} AllOnes(n: nat, L: nat)
    requires forall i: nat :: i < L ==> Bit(n, i)
    requires forall i: nat :: i >= L ==> !Bit(n, i)
    ensures n == Pow2(L) - 1
  {
    if L == 0 {
      NoBits(n);
    } else {
      assert Bit(n, 0);
      forall i: nat ensures Bit(n / 2, i) <==> i < L - 1 {
        assert Bit(n, i + 1) == Bit(n / 2, i);
      }
      AllOnes(n / 2, L - 1);
    }
  }

  lemma {:induction false} NoBits(n: nat)
    requires forall i: nat :: !Bit(n, i)
    ensures n == 0
  {
    if n > 0 {
      assert !Bit(n, 0);
      forall i: nat ensures !Bit(n / 2, i) { assert !Bit(n, i + 1); }
      NoBits(n / 2);
    }
  }

  // ----- npow2 -----

  /** npow2, step by step. The final + 1 wraps around. */
  method NPow2(n0: nat) returns (p: nat)
    requires n0 < WORD
    ensures n0 == 0 ==> p == 1
    ensures n0 > 0 && RoundUp(n0) < WORD ==> p == RoundUp(n0)
    ensures n0 > 0 && RoundUp(n0) >= WORD ==> p == 0
  {
    if n0 == 0 {
      return 1;
    }
    var n := n0 - 1;
    n := Or(n, Shr(n, 1));
    n := Or(n, Shr(n, 2));
    n := Or(n, Shr(n, 4));
    n := Or(n, Shr(n, 8));
    n := Or(n, Shr(n, 16));
    n := Or(n, Shr(n, 32));
    assert n == Spread(n0 - 1);
    Smeared(n0 - 1);
    AtMostWord(n0);
    WrapWord(n + 1);
    p := (n + 1) % WORD;
  }

  lemma WrapWord(x: nat)
    requires x <= WORD
    ensures x % WORD == if x == WORD then 0 else x
  {}

  /** The number of bits of n. */
  function Length(n: nat): nat {
    if n == 0 then 0 else Buddy.Log2(n) + 1
  }

  /** The least power of two at or above n. */
  function RoundUp(n: nat): nat
    requires n > 0
  {
    Pow2(Length(n - 1))
  }

  lemma AtMostWord(n: nat)
    requires 0 < n < WORD
    ensures RoundUp(n) <= WORD
  {
    TopOfWord(n - 1);
    Pow2Mono(Length(n - 1), 64);
    Buddy.WordIsPow2();
  }

  lemma RoundUpIsLeast(n: nat)
    requires n > 0
    ensures n <= RoundUp(n)
    ensures forall j: nat :: n <= Pow2(j) ==> RoundUp(n) <= Pow2(j)
  {
    var L := Length(n - 1);
    assert L == 0 || Pow2(L - 1) <= n - 1;
    forall j: nat | n <= Pow2(j) ensures RoundUp(n) <= Pow2(j) {
      if j < L { Pow2Mono(j, L - 1); }
      else { Pow2Mono(L, j); }
    }
  }

  lemma TopOfWord(n: nat)
    requires n < WORD
    ensures TopOnes(n, Length(n), 1) && Length(n) <= 64
  {
    if n == 0 {
      forall i: nat ensures !Bit(n, i) { ZeroBits(i); }
    } else {
      Buddy.Log2Small(n);
      TopBit(n, Buddy.Log2(n));
      forall i: nat | i >= Length(n) ensures !Bit(n, i) { HighBits(n, Length(n), i); }
    }
  }

  function Spread(n: nat): nat {
    var n := Or(n, Shr(n, 1));
    var n := Or(n, Shr(n, 2));
    var n := Or(n, Shr(n, 4));
    var n := Or(n, Shr(n, 8));
    var n := Or(n, Shr(n, 16));
    Or(n, Shr(n, 32))
  }

  /** After the shifts by 1, 2, 4, 8, 16 and 32 every bit below the highest one is set. */
  lemma Smeared(n: nat)
    requires n < WORD
    ensures Spread(n) == Pow2(Length(n)) - 1
  {
    var L := Length(n);
    TopOfWord(n);
    var a := Or(n, Shr(n, 1));  Smear(n, L, 1);
    var b := Or(a, Shr(a, 2));  Smear(a, L, 2);
    var c := Or(b, Shr(b, 4));  Smear(b, L, 4);
    var d := Or(c, Shr(c, 8));  Smear(c, L, 8);
    var e := Or(d, Shr(d, 16)); Smear(d, L, 16);
    var f := Or(e, Shr(e, 32)); Smear(e, L, 32);
    AllOnes(f, L);
  }

  // ----- Layout of a region -----

  /** sizeof(struct buddy_region_header) up to its bitmap. */
  const HEADER: nat := 32

  function BitmapBytes(len: nat): nat { len / 8192 + 1 }

  /** One byte for every two pages or part of them, and one more if nothing is left over. */
  lemma BitmapSize(len: nat)
    ensures 8192 * (BitmapBytes(len) - 1) <= len < 8192 * BitmapBytes(len)
  {}

  /** The first page boundary above x. */
  function NextPage(x: nat): (y: nat)
    ensures x < y <= x + PAGE && y % PAGE == 0
  {
    x / PAGE * PAGE + PAGE
  }

  function UsableBase(base: nat, len: nat): nat { NextPage(base + HEADER + BitmapBytes(len)) }

  /** The tree depth for a given number of bytes. */
  function DepthFor(avail: nat): nat
    requires avail > PAGE
  {
    LongEnough(avail);
    Length(avail - 1) - 13
  }

  lemma LongEnough(avail: nat)
    requires avail > PAGE
    ensures Length(avail - 1) >= 13
  {
    assert Pow2(12) == PAGE;
    if Length(avail - 1) <= 12 { Pow2Mono(Length(avail - 1), 12); }
  }

  lemma {:induction false} ShrPow2(L: nat, k: nat)
    requires k <= L
    ensures Shr(Pow2(L), k) == Pow2(L - k)
    decreases k
  {
    if k > 0 { ShrPow2(L - 1, k - 1); }
  }

  lemma {:induction false} Log2OfPow2(L: nat)
    ensures Buddy.Log2(Pow2(L)) == L
  {
    if L > 0 {
      assert Pow2(L) / 2 == Pow2(L - 1);
      Log2OfPow2(L - 1);
    }
  }

  /** A power of two of bytes is a power of two of pages. */
  lemma PagePow(L: nat)
    requires L >= 12
    ensures Pow2(L) == Bytes(L - 12) && Pow2(L) / PAGE == Pow2(L - 12) && Buddy.Log2(Pow2(L) / PAGE) == L - 12
  {
    assert Pow2(12) == PAGE;
    Pow2Add(12, L - 12);
    Log2OfPow2(L - 12);
  }

  /** The usable area is the largest power of two below the bytes that are left. */
  lemma UsableLength(avail: nat)
    requires PAGE < avail
    ensures RoundUp(avail) / 2 == Bytes(DepthFor(avail))
    ensures Bytes(DepthFor(avail)) < avail <= 2 * Bytes(DepthFor(avail))
    ensures Shr(Bytes(DepthFor(avail)), 12) > 0 && Buddy.Log2(Shr(Bytes(DepthFor(avail)), 12)) == DepthFor(avail)
  {
    RoundUpIsLeast(avail);
    LongEnough(avail);
    var L := Length(avail - 1);
    PagePow(L - 1);
    ShrPow2(L - 1, 12);
    Log2OfPow2(L - 13);
  }

  /** buddy_init_region, for a region that leaves more than one page after its header. */
  method InitRegion(base: nat, len: nat) returns (usableBase: nat, usableLen: nat, maxDepth: nat)
    requires base + len <= WORD && len <= WORD / 2 && UsableBase(base, len) + PAGE < base + len
    ensures usableBase == UsableBase(base, len) && usableBase % PAGE == 0
    ensures usableLen == Bytes(maxDepth)
    ensures usableBase + usableLen < base + len <= usableBase + 2 * usableLen
    // Every node of the tree has its two bits in the bitmap, which ends before the usable area.
    ensures Pow2(maxDepth + 1) - 1 <= 4 * BitmapBytes(len)
    ensures base + HEADER + BitmapBytes(len) <= usableBase
    ensures usableBase <= base + HEADER + BitmapBytes(len) + PAGE
    ensures 8192 * (BitmapBytes(len) - 1) <= len < 8192 * BitmapBytes(len)
    // The row that buddy_free_helper reads below one-page blocks lies in the bitmap only sometimes.
    ensures Pow2(maxDepth + 2) - 1 <= 4 * BitmapBytes(len) <==> Pow2(maxDepth) <= BitmapBytes(len)
  {
    var bitmapBytes := Shr(len, 13) + 1;
    Shr13(len);
    BitmapSize(len);
    var end := base + len;
    usableBase := NextPage(base + HEADER + bitmapBytes);
    var avail := end - usableBase;
    BelowWord(avail);
    var p := NPow2(avail);
    UsableLength(avail);
    usableLen := p / 2;
    maxDepth := Buddy.Log2(Shr(usableLen, 12));
    BitmapFits(maxDepth, len);
  }

  lemma Shr4(x: nat, d: nat)
    requires d >= 4
    ensures Shr(x, d) == Shr(x / 16, d - 4)
  {
    assert Shr(x, d) == Shr(x / 2 / 2, d - 2);
    assert Shr(x / 2 / 2, d - 2) == Shr(x / 2 / 2 / 2 / 2, d - 4);
    assert x / 2 / 2 / 2 / 2 == x / 16;
  }

  lemma Shr13(len: nat)
    ensures Shr(len, 13) == len / 8192
  {
    Shr4(len, 13);
    Shr4(len / 16, 9);
    Shr4(len / 16 / 16, 5);
    assert len / 16 / 16 / 16 / 2 == len / 8192;
  }

  lemma BelowWord(avail: nat)
    requires PAGE < avail <= WORD / 2
    ensures RoundUp(avail) < WORD
  {
    RoundUpIsLeast(avail);
    assert Pow2(64) == WORD by { Buddy.WordIsPow2(); }
    assert Pow2(63) == WORD / 2;
  }

  lemma BitmapFits(maxDepth: nat, len: nat)
    requires Bytes(maxDepth) < len
    ensures Pow2(maxDepth + 1) - 1 <= 4 * BitmapBytes(len)
  {
    if maxDepth > 0 { assert Pow2(maxDepth) == 2 * Pow2(maxDepth - 1); }
  }

  /** A request rounded up with npow2 is served by the smallest power of two that holds it. */
  lemma RequestLength(size: nat)
    requires size > 0 && RoundUp(size) >= PAGE
    ensures Bytes(Buddy.Log2(RoundUp(size) / PAGE)) == RoundUp(size)
    ensures size <= Bytes(Buddy.Log2(RoundUp(size) / PAGE))
    ensures forall j: nat :: size <= Pow2(j) ==> Bytes(Buddy.Log2(RoundUp(size) / PAGE)) <= Pow2(j)
  {
    RoundUpIsLeast(size);
    var L := Length(size - 1);
    assert Pow2(12) == PAGE;
    if L < 12 { Pow2Mono(L + 1, 12); }
    PagePow(L);
  }
}
