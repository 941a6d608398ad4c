/** slab_create: how many objects a slab has, and whether they fit into the block that it gets (mem/slab.c). */
module SlabLayout {
  import opened Common
  import opened Powers
  import opened BuddyTree
  import opened BuddyLayout
  import opened Slabs
  import Buddy

  /** The number of objects that slab_create counts. The block is asked for with the given cache size, and the
      objects are counted with the power of two at or above it. */
  function ObjectCount(base: nat, size: nat, cacheSize: nat, kind: Kind): nat
    requires size > 0 && cacheSize > 0 && Start(base, kind) <= base + RoundUp(cacheSize)
  {
    Fitting(base + RoundUp(cacheSize) - Start(base, kind), size)
  }

  /** How many objects fit into some bytes. */
  function Fitting(len: nat, size: nat): nat
    requires size > 0
  {
    len / size
  }

  /** slab_create; `room` tells whether the buddy allocator has a block, which then starts at `base`. It never
      has one of less than a page. */
  method Create(size: nat, cacheSize: nat, kind: Kind, base: nat, room: bool) returns (slab: Slab?)
    requires base % PAGE == 0 && 0 < cacheSize <= WORD / 2 && Start(base, kind) <= base + RoundUp(cacheSize)
    ensures slab == null <==> size < 8 || cacheSize < PAGE || !room
    ensures slab != null ==>
              && fresh(slab) && slab.base == base && slab.size == size && slab.kind == kind
              && slab.start == Start(base, kind) && slab.num == ObjectCount(base, size, cacheSize, kind)
              && (slab.num > 0 ==> slab.Valid() && slab.list == slab.Objects() && slab.live == {})
              && (slab.num == 0 ==> slab.free == 0 && slab.nextfree == slab.start)
  {
    if size < 8 || cacheSize < PAGE || !room {
      return null;
    }
    var num := CountObjects(base, size, cacheSize, kind);
    slab := new Slab(base, size, kind, Start(base, kind), num);
  }

  method CountObjects(base: nat, size: nat, cacheSize: nat, kind: Kind) returns (num: nat)
    requires size > 0 && PAGE <= cacheSize <= WORD / 2 && Start(base, kind) <= base + RoundUp(cacheSize)
    ensures num == ObjectCount(base, size, cacheSize, kind)
  {
    var rounded := Rounded(cacheSize);
    num := Fitting(base + rounded - Start(base, kind), size);
  }

  /** npow2 where it does not wrap around. */
  method Rounded(n: nat) returns (p: nat)
    requires PAGE <= n <= WORD / 2
    ensures p == RoundUp(n)
  {
    if n > PAGE {
      BelowWord(n);
    } else {
      PagePow(12);
      LeastPower(n, 12);
    }
    p := NPow2(n);
  }

  lemma QuotientFits(x: nat, n: nat)
    requires n > 0
    ensures Fitting(x, n) * n <= x < Fitting(x, n) * n + n
  {
    assert x == n * (x / n) + x % n;
  }

  /** Object i of as many as fit ends inside, and after the last there is no room for another. */
  lemma FittingSpan(len: nat, size: nat, i: nat)
    requires size > 0 && i < Fitting(len, size)
    ensures i * size + size <= len && (i + 1 == Fitting(len, size) ==> len < i * size + 2 * size)
  {
    var num := Fitting(len, size);
    QuotientFits(len, size);
    MultipleStep(i, num, size);
    if i + 1 == num { OneMoreMultiple(i, size); }
  }

  lemma OneMoreMultiple(i: nat, m: nat)
    ensures (i + 1) * m == i * m + m
  {}

  /** The bytes of the block that the buddy allocator grants for a request. */
  function GrantedBytes(cacheSize: nat): nat
    requires cacheSize >= PAGE
  {
    Bytes(Buddy.Log2(cacheSize / PAGE))
  }

  /** Rounding up doubles the granted block, unless the request is a power of two of pages. */
  lemma RoundedRequest(cacheSize: nat)
    requires cacheSize >= PAGE
    ensures var g := GrantedBytes(cacheSize);
            && g <= cacheSize && RoundUp(cacheSize) == (if cacheSize == g then g else 2 * g)
            && (cacheSize == g <==> exists j :: cacheSize == Bytes(j))
  {
    Buddy.GrantedSize(cacheSize);
    var j := Buddy.Log2(cacheSize / PAGE);
    PagePow(12 + j);
    LeastPower(cacheSize, 12 + j);
  }

  lemma LeastPower(n: nat, k: nat)
    requires n > 0 && Pow2(k) <= n < 2 * Pow2(k)
    ensures RoundUp(n) == if n == Pow2(k) then Pow2(k) else 2 * Pow2(k)
  {
    RoundUpIsLeast(n);
    var L := Length(n - 1);
    assert n <= Pow2(k + 1);
    if n > Pow2(k) {
      if L <= k { Pow2Mono(L, k); } else { Pow2Mono(k + 1, L); }
    }
  }

  /** The objects lie after the header, and the last one ends less than an object before the end of what was counted. */
  lemma ObjectsSpan(base: nat, size: nat, cacheSize: nat, kind: Kind, i: nat)
    requires base % PAGE == 0 && size > 0 && cacheSize > 0 && Start(base, kind) <= base + RoundUp(cacheSize)
    requires i < ObjectCount(base, size, cacheSize, kind)
    ensures var num := ObjectCount(base, size, cacheSize, kind);
            var a := Slots(Start(base, kind), size, num)[i];
            && base + Slabs.HEADER <= a && a + size <= base + RoundUp(cacheSize)
            && (i == num - 1 ==> base + RoundUp(cacheSize) < a + 2 * size)
  {
    var start := Start(base, kind);
    var num := ObjectCount(base, size, cacheSize, kind);
    RangeStart(base, kind);
    SlotAddress(start, size, num, i);
    FittingSpan(base + RoundUp(cacheSize) - start, size, i);
  }

  ghost predicate AllInside(base: nat, size: nat, num: nat, kind: Kind, len: nat) {
    forall i :: 0 <= i < num ==>
      var a := Slots(Start(base, kind), size, num)[i]; base + Slabs.HEADER <= a && a + size <= base + len
  }

  /** All objects of a slab lie inside its block exactly if the cache size is a power of two of pages. */
  lemma ObjectsFitExactly(base: nat, size: nat, cacheSize: nat, kind: Kind)
    requires base % PAGE == 0 && size > 0 && cacheSize >= PAGE && Start(base, kind) <= base + RoundUp(cacheSize)
    requires ObjectCount(base, size, cacheSize, kind) > 0
    ensures AllInside(base, size, ObjectCount(base, size, cacheSize, kind), kind, GrantedBytes(cacheSize)) <==>
            exists j :: cacheSize == Bytes(j)
  {
    var num, g := ObjectCount(base, size, cacheSize, kind), GrantedBytes(cacheSize);
    RoundedRequest(cacheSize);
    RangeStart(base, kind);
    forall i | 0 <= i < num
      ensures var a := Slots(Start(base, kind), size, num)[i];
              base + Slabs.HEADER <= a && a + size <= base + RoundUp(cacheSize)
    {
      ObjectsSpan(base, size, cacheSize, kind, i);
    }
    if cacheSize != g {
      ObjectsSpan(base, size, cacheSize, kind, num - 1);
      var a := Slots(Start(base, kind), size, num)[num - 1];
      assert a + size > base + g;
    }
  }
}
