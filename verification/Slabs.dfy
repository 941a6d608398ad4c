/** One slab of mem/slab.c: equal objects in one block, the free ones threaded through their first words. */
module Slabs {
  import opened Common
  import opened Powers
  import opened BuddyLayout

  // ----- Alignment -----

  lemma {:induction false} OrZero(a: nat)
    ensures Or(a, 0) == a
  {
    if a > 0 { OrZero(a / 2); }
  }

  lemma Doubled(q: nat, m: nat, a: nat)
    requires q * m <= a / 2 < q * m + m
    ensures q * (2 * m) <= a < q * (2 * m) + 2 * m
  {
    assert q * (2 * m) == 2 * (q * m);
  }

  lemma {:induction false} ShrBounds(a: nat, k: nat)
    ensures Shr(a, k) * Pow2(k) <= a < Shr(a, k) * Pow2(k) + Pow2(k)
  {
    if k > 0 {
      ShrBounds(a / 2, k - 1);
      Doubled(Shr(a / 2, k - 1), Pow2(k - 1), a);
    }
  }

  /** The number with its low k bits set. */
  function SetLow(a: nat, k: nat): nat { Shr(a, k) * Pow2(k) + Pow2(k) - 1 }

  lemma DoubledMask(q: nat, m: nat)
    requires m > 0
    ensures (2 * m - 1) % 2 == 1 && (2 * m - 1) / 2 == m - 1
    ensures q * (2 * m) + 2 * m - 1 == 2 * (q * m + m - 1) + 1
  {
    assert q * (2 * m) == 2 * (q * m);
  }

  /** SetLow is what the source writes as a bitwise or with a mask. */
  lemma {:induction false} OrMask(a: nat, k: nat)
    ensures Or(a, Pow2(k) - 1) == SetLow(a, k)
  {
    if k == 0 {
      OrZero(a);
    } else {
      OrMask(a / 2, k - 1);
      DoubledMask(Shr(a / 2, k - 1), Pow2(k - 1));
    }
  }

  const HEADER := 80 // sizeof(slab_t)

  /** The flags of slab_create, as the exponent of the alignment: 8 bytes, a page, 64 kilobytes. */
  datatype Kind = Plain | PageAligned | Dma64K

  function Exponent(kind: Kind): nat {
    match kind
    case Plain => 3
    case PageAligned => 12
    case Dma64K => 16
  }

  /** Where slab_create puts the first object. */
  function Start(base: nat, kind: Kind): nat { SetLow(base + HEADER - 1, Exponent(kind)) + 1 }

  /** Where slab_range believes the first object to be. */
  function Low(base: nat, kind: Kind): nat { SetLow(base, Exponent(kind)) + 1 }

  lemma AlignValues()
    ensures Pow2(3) == 8 && Pow2(12) == 4096 && Pow2(16) == 65536
  {
    Pow2Add(4, 4);
    Pow2Add(8, 4);
    Pow2Add(12, 4);
  }

  lemma MultipleStep(q: nat, r: nat, m: nat)
    requires q < r
    ensures q * m + m <= r * m
  {
    assert r * m == q * m + m + (r - q - 1) * m;
  }

  /** A number lies between only one pair of adjacent multiples. */
  lemma SameMultiple(q: nat, r: nat, m: nat, a: nat)
    requires q * m <= a < q * m + m && r * m <= a < r * m + m
    ensures q == r
  {
    if q < r {
      MultipleStep(q, r, m);
      assert false;
    } else if r < q {
      MultipleStep(r, q, m);
      assert false;
    }
  }

  lemma PastHeader(b: nat, r: nat, pages: nat)
    requires b * PAGE < r * (pages * PAGE) + pages * PAGE
    ensures b * PAGE + PAGE <= r * (pages * PAGE) + pages * PAGE
  {
    assert r * (pages * PAGE) + pages * PAGE == (r * pages + pages) * PAGE;
  }

  lemma PlainStart(base: nat)
    requires base % 8 == 0
    ensures SetLow(base + HEADER - 1, 3) + 1 == base + HEADER
    ensures SetLow(base, 3) + 1 == base + 8
  {
    AlignValues();
    ShrBounds(base + HEADER - 1, 3);
    ShrBounds(base, 3);
    Eighth(base, Shr(base, 3));
    Eighth(base + HEADER - 1, Shr(base + HEADER - 1, 3));
  }

  lemma Eighth(a: nat, q: nat)
    requires q * 8 <= a < q * 8 + 8
    ensures q == a / 8
  {}

  lemma CoarseStart(base: nat, k: nat, pages: nat)
    requires base % PAGE == 0 && Pow2(k) == pages * PAGE
    ensures SetLow(base + HEADER - 1, k) == SetLow(base, k) >= base + HEADER - 1
  {
    var q, r, m := Shr(base + HEADER - 1, k), Shr(base, k), Pow2(k);
    ShrBounds(base + HEADER - 1, k);
    ShrBounds(base, k);
    PastHeader(base / PAGE, r, pages);
    SameMultiple(q, r, m, base + HEADER - 1);
  }

  lemma PlainRange(base: nat)
    requires base % PAGE == 0
    ensures Start(base, Plain) == base + HEADER && Low(base, Plain) == base + 8
  {
    assert base == 8 * (512 * (base / PAGE));
    PlainStart(base);
  }

  lemma CoarseRange(base: nat, kind: Kind)
    requires base % PAGE == 0 && kind != Plain
    ensures base + HEADER <= Start(base, kind) == Low(base, kind)
  {
    var k, pages := Exponent(kind), if kind == PageAligned then 1 else 16;
    assert Pow2(k) == pages * PAGE by { AlignValues(); }
    CoarseStart(base, k, pages);
  }

  /** Blocks come from the buddy allocator, so they start at a page. Then slab_range is right for
      the two coarse alignments, and 72 bytes too low for the plain one. */
  lemma RangeStart(base: nat, kind: Kind)
    requires base % PAGE == 0
    ensures Start(base, kind) == Low(base, kind) + if kind == Plain then HEADER - 8 else 0
    ensures base + HEADER <= Start(base, kind)
  {
    if kind == Plain {
      PlainRange(base);
    } else {
      CoarseRange(base, kind);
    }
  }

  lemma NextMultiple(x: nat, k: nat)
    ensures SetLow(x, k) + 1 == (Shr(x, k) + 1) * Pow2(k) && x < SetLow(x, k) + 1 <= x + Pow2(k)
  {
    ShrBounds(x, k);
    Distribute(Shr(x, k), Pow2(k));
  }

  lemma Distribute(q: nat, m: nat)
    ensures (q + 1) * m == q * m + m
  {}

  /** The first object lies at the first multiple of 8, of 4096 or of 65536 behind the header. */
  lemma StartAligned(base: nat, kind: Kind)
    ensures base + HEADER <= Start(base, kind)
    ensures kind == Plain ==> Start(base, kind) % 8 == 0 && Start(base, kind) < base + HEADER + 8
    ensures kind == PageAligned ==> Start(base, kind) % 4096 == 0 && Start(base, kind) < base + HEADER + 4096
    ensures kind == Dma64K ==> Start(base, kind) % 65536 == 0 && Start(base, kind) < base + HEADER + 65536
  {
    AlignValues();
    NextMultiple(base + HEADER - 1, Exponent(kind));
    Multiples(Shr(base + HEADER - 1, Exponent(kind)) + 1);
  }

  lemma Multiples(q: nat)
    ensures q * 8 % 8 == 0 && q * 4096 % 4096 == 0 && q * 65536 % 65536 == 0
  {}

  // ----- Objects and the free list -----

  /** The addresses of num objects. */
  function Slots(start: nat, size: nat, num: nat): (r: seq<nat>)
    ensures |r| == num
    decreases num
  {
    if num == 0 then [] else [start] + Slots(start + size, size, num - 1)
  }

  lemma {:induction false} SlotAddress(start: nat, size: nat, num: nat, i: nat)
    requires i < num
    ensures Slots(start, size, num)[i] == start + i * size
    decreases num
  {
    if i > 0 {
      SlotAddress(start + size, size, num - 1, i - 1);
      assert i * size == size + (i - 1) * size;
    }
  }

  /** The objects do not overlap and lie between the first address and the end of the last. */
  lemma SlotsApart(start: nat, size: nat, num: nat, i: nat, j: nat)
    requires i < j < num
    ensures Slots(start, size, num)[i] + size <= Slots(start, size, num)[j]
    ensures Slots(start, size, num)[j] + size <= start + num * size
  {
    SlotAddress(start, size, num, i);
    SlotAddress(start, size, num, j);
    MultipleStep(i, j, size);
    MultipleStep(j, num, size);
  }

  ghost predicate Rising(s: seq<nat>) { forall i, j :: 0 <= i < j < |s| ==> s[i] < s[j] }

  lemma SlotsRise(start: nat, size: nat, num: nat)
    requires size > 0
    ensures Rising(Slots(start, size, num)) && forall a :: a in Slots(start, size, num) ==> a >= start
  {
    forall i, j | 0 <= i < j < num ensures Slots(start, size, num)[i] < Slots(start, size, num)[j] {
      SlotsApart(start, size, num, i, j);
    }
    forall i | 0 <= i < num ensures Slots(start, size, num)[i] >= start { SlotAddress(start, size, num, i); }
  }

  predicate After(slots: seq<nat>, size: nat, i: nat)
    requires 0 < i < |slots|
  {
    slots[i] == slots[i - 1] + size
  }

  /** The first address is `start`, and each one lies `size` bytes after the one before. */
  ghost predicate Spaced(slots: seq<nat>, start: nat, size: nat) {
    (slots != [] ==> slots[0] == start) && forall i :: 0 < i < |slots| ==> After(slots, size, i)
  }

  lemma SlotsSpaced(start: nat, size: nat, num: nat)
    ensures Spaced(Slots(start, size, num), start, size)
  {
    forall i | 0 < i < num ensures After(Slots(start, size, num), size, i) {
      SlotAddress(start, size, num, i - 1);
      SlotAddress(start, size, num, i);
      assert i * size == size + (i - 1) * size;
    }
  }

  lemma {:induction false} RisingOnce(s: seq<nat>, a: nat)
    requires Rising(s)
    ensures multiset(s)[a] <= 1
  {
    if s != [] {
      var rest := s[1..];
      assert s == [s[0]] + rest;
      RisingOnce(rest, a);
      if a == s[0] { assert a !in rest; }
    }
  }

  /** Following the words from `first` visits exactly `list` and then finds NULL. */
  ghost predicate Chain(mem: map<nat, nat>, first: nat, list: seq<nat>)
    decreases |list|
  {
    if list == [] then first == 0
    else first == list[0] != 0 && first in mem && Chain(mem, mem[first], list[1..])
  }

  lemma {:induction false} ChainFrame(mem: map<nat, nat>, first: nat, list: seq<nat>, a: nat, word: nat)
    requires Chain(mem, first, list) && a !in list
    ensures Chain(mem[a := word], first, list)
    decreases |list|
  {
    if list != [] { ChainFrame(mem, mem[first], list[1..], a, word); }
  }

  function Next(list: seq<nat>, i: nat): nat { if i + 1 < |list| then list[i + 1] else 0 }

  /** Words that link each address to the next, the last to NULL, form the whole chain. */
  lemma {:induction false} LinksChain(mem: map<nat, nat>, list: seq<nat>)
    requires forall i :: 0 <= i < |list| ==> list[i] != 0 && list[i] in mem
    requires forall i :: 0 <= i < |list| ==> mem[list[i]] == Next(list, i)
    ensures Chain(mem, if list == [] then 0 else list[0], list)
  {
    if list != [] {
      var rest := list[1..];
      forall i | 0 <= i < |rest|
        ensures rest[i] in mem && mem[rest[i]] == Next(rest, i)
      {
        assert rest[i] == list[i + 1] && Next(rest, i) == Next(list, i + 1);
      }
      assert mem[list[0]] == Next(list, 0);
      LinksChain(mem, rest);
    }
  }

  /** The first i addresses are linked. */
  ghost predicate Threaded(mem: map<nat, nat>, list: seq<nat>, i: nat) {
    forall j :: 0 <= j < i && j < |list| ==> list[j] in mem && mem[list[j]] == Next(list, j)
  }

  lemma ThreadOne(mem: map<nat, nat>, list: seq<nat>, i: nat)
    requires i < |list| && Threaded(mem, list, i) && forall j :: 0 <= j < i ==> list[j] < list[i]
    ensures Threaded(mem[list[i] := Next(list, i)], list, i + 1)
  {}

  /** The loop of slab_create. */
  method Thread(start: nat, size: nat, num: nat, ghost slots: seq<nat>) returns (mem: map<nat, nat>)
    requires |slots| == num && Rising(slots) && Spaced(slots, start, size) && start > 0
    ensures num > 0 ==> Chain(mem, start, slots)
  {
    mem := map[];
    var ptr := start;
    for i := 0 to num
      invariant i < num ==> ptr == slots[i]
      invariant Threaded(mem, slots, i)
    {
      ThreadOne(mem, slots, i);
      assert i < num - 1 ==> After(slots, size, i + 1);
      ghost var before := mem;
      mem := mem[ptr := ptr + size];
      if i == num - 1 {
        mem := mem[ptr := 0];
      }
      assert mem == before[slots[i] := Next(slots, i)];
      ptr := mem[ptr];
    }
    LinksChain(mem, slots);
  }

  class Slab {
    const base: nat
    const size: nat
    const num: nat
    const kind: Kind
    ghost const start: nat
    var free: nat
    var nextfree: nat
    /** The first word of each object. */
    var mem: map<nat, nat>
    ghost var list: seq<nat>
    ghost var live: set<nat>

    ghost function Objects(): seq<nat> { Slots(start, size, num) }

    /** Every object is either on the free list, once, or live. */
    ghost predicate Valid()
      reads this
    {
      Consistent(list, live)
    }

    /** The same for any list and any set of live objects. */
    ghost predicate Consistent(l: seq<nat>, v: set<nat>)
      reads this
    {
      && size > 0 && start > 0
      && Chain(mem, nextfree, l)
      && multiset(l) + multiset(v) == multiset(Objects())
      && free == |l|
    }

    /** slab_create once the place and number of the objects are known. */
    constructor (base: nat, size: nat, kind: Kind, start: nat, num: nat)
      requires size > 0 && start > 0
      ensures this.base == base && this.size == size && this.kind == kind && this.start == start && this.num == num
      ensures num > 0 ==> Valid() && list == Objects() && live == {}
      ensures num == 0 ==> free == 0 && nextfree == start
    {
      this.base, this.size, this.kind, this.start, this.num := base, size, kind, start, num;
      free := num;
      nextfree := start;
      list := Slots(start, size, num);
      live := {};
      new;
      SlotsRise(start, size, num);
      SlotsSpaced(start, size, num);
      mem := Thread(start, size, num, Slots(start, size, num));
    }

    /** slab_alloc: an object that nobody has. NULL stands for the point where the source goes on
        to a further slab, which happens exactly when all objects are live. */
    method Alloc() returns (ptr: nat)
      requires Valid()
      modifies this
      ensures Valid()
      ensures ptr == 0 <==> |old(live)| == num
      ensures ptr == 0 <==> old(list) == []
      ensures ptr == 0 ==> live == old(live) && list == old(list)
      ensures ptr != 0 ==> ptr in Objects() && ptr !in old(live) && live == old(live) + {ptr}
      ensures ptr != 0 ==> ptr == old(list)[0] && list == old(list)[1..]
    {
      FreePlusLive();
      if nextfree == 0 {
        return 0;
      }
      FreeIsNotLive(this, list[0]);
      free := free - 1;
      ptr := nextfree;
      nextfree := mem[nextfree];
      assert list == [ptr] + list[1..];
      live := live + {ptr};
      list := list[1..];
    }

    lemma FreePlusLive()
      requires Valid()
      ensures free + |live| == num
    {
      assert |multiset(list) + multiset(live)| == |list| + |live|;
      assert |multiset(Objects())| == |Objects()|;
    }

    /** slab_free in a slab without a successor. An address outside what slab_range computes is dropped. A live
        object goes back to the front of the free list. With any other address the free list is no
        list of objects any more. */
    method Free(ptr: nat)
      requires Valid()
      modifies this
      ensures ptr == 0 || !InRange(base, size, num, kind, ptr) ==> Valid() && live == old(live) && list == old(list)
      ensures ptr != 0 && InRange(base, size, num, kind, ptr) && ptr in old(live) ==>
                Valid() && live == old(live) - {ptr} && list == [ptr] + old(list)
      ensures ptr != 0 && InRange(base, size, num, kind, ptr) && ptr !in old(live) ==>
                forall l, v :: !Consistent(l, v)
    {
      if ptr == 0 {
        return;
      }
      var low := Low(base, kind);
      var high := low + size * num;
      if ptr < low || ptr > high {
        return;
      }
      if ptr in live {
        LiveIsNotFree(this, ptr);
        ChainFrame(mem, nextfree, list, ptr, nextfree);
        assert live == (live - {ptr}) + {ptr};
        list := [ptr] + list;
      } else {
        NoListAfter(this, ptr);
      }
      mem := mem[ptr := nextfree];
      nextfree := ptr;
      free := free + 1;
      live := live - {ptr};
    }

    /** The owner of a live object writes its first word. */
    method Write(ptr: nat, word: nat)
      requires Valid() && ptr in live
      modifies this`mem
      ensures Valid() && mem == old(mem)[ptr := word]
    {
      LiveIsNotFree(this, ptr);
      ChainFrame(mem, nextfree, list, ptr, word);
      mem := mem[ptr := word];
    }
  }

  /** A list that leads to an address still does after a change at that address. */
  lemma {:induction false} ChainReaches(mem: map<nat, nat>, first: nat, l: seq<nat>, a: nat, word: nat, m: seq<nat>)
    requires Chain(mem, first, l) && a in l && Chain(mem[a := word], first, m)
    ensures a in m
    decreases |l|
  {
    if l[0] != a { ChainReaches(mem, mem[first], l[1..], a, word, m[1..]); }
  }

  lemma TooMany<T>(l: multiset<T>, v: multiset<T>, all: multiset<T>, a: T)
    requires l[a] > all[a]
    ensures l + v != all
  {
    assert (l + v)[a] == l[a] + v[a];
  }

  /** Putting an address that is not live in front of the free list leaves no list of objects. */
  lemma NoListAfter(s: Slab, a: nat)
    requires s.Valid() && a !in s.live && a != 0
    ensures forall l, v: set<nat> ::
              Chain(s.mem[a := s.nextfree], a, l) ==> multiset(l) + multiset(v) != multiset(s.Objects())
  {
    forall l, v: set<nat> | Chain(s.mem[a := s.nextfree], a, l)
      ensures multiset(l) + multiset(v) != multiset(s.Objects())
    {
      NotOnce(s, a, l);
      TooMany(multiset(l), multiset(v), multiset(s.Objects()), a);
    }
  }

  lemma NotOnce(s: Slab, a: nat, l: seq<nat>)
    requires s.Valid() && a !in s.live && a != 0 && Chain(s.mem[a := s.nextfree], a, l)
    ensures multiset(l)[a] > multiset(s.Objects())[a]
  {
    assert l == [a] + l[1..];
    SlotsRise(s.start, s.size, s.num);
    RisingOnce(s.Objects(), a);
    if a in s.list {
      ChainReaches(s.mem, s.nextfree, s.list, a, s.nextfree, l[1..]);
      assert a in multiset(l[1..]);
    } else {
      assert multiset(s.Objects())[a] == multiset(s.list)[a] + multiset(s.live)[a];
    }
  }

  lemma FreeIsNotLive(s: Slab, a: nat)
    requires s.Valid() && a in s.list
    ensures a in s.Objects() && a !in s.live && multiset(s.list)[a] == 1
  {
    assert a in multiset(s.list);
    assert multiset(s.Objects())[a] == multiset(s.list)[a] + multiset(s.live)[a];
    SlotsRise(s.start, s.size, s.num);
    RisingOnce(s.Objects(), a);
  }

  lemma LiveIsNotFree(s: Slab, a: nat)
    requires s.Valid() && a in s.live
    ensures a in s.Objects() && a !in s.list && a != 0
  {
    assert a in multiset(s.live);
    assert multiset(s.Objects())[a] == multiset(s.list)[a] + multiset(s.live)[a];
    SlotsRise(s.start, s.size, s.num);
    RisingOnce(s.Objects(), a);
  }

  /** What slab_range covers, both ends included. */
  predicate InRange(base: nat, size: nat, num: nat, kind: Kind, a: nat) {
    Low(base, kind) <= a <= Low(base, kind) + size * num
  }

  /** The bytes of object i and all objects after it. */
  function Tail(size: nat, num: nat, i: nat): nat
    requires i <= num
  {
    (num - i) * size
  }

  lemma TailSplit(size: nat, num: nat, i: nat)
    requires i < num
    ensures size * num == i * size + Tail(size, num, i)
    ensures Tail(size, num, i) >= size == Tail(size, num, num - 1)
  {
    MultipleStep(0, num - i, size);
  }

  /** Object i can be given back exactly when slab_range covers it: always with a coarse
      alignment, otherwise when the objects from i on are together at least as long as the
      part of the header that slab_range forgets. */
  lemma Freeable(base: nat, size: nat, num: nat, kind: Kind, i: nat)
    requires base % PAGE == 0 && i < num
    ensures InRange(base, size, num, kind, Slots(Start(base, kind), size, num)[i]) <==>
            kind != Plain || Tail(size, num, i) >= HEADER - 8
  {
    RangeStart(base, kind);
    SlotAddress(Start(base, kind), size, num, i);
    TailSplit(size, num, i);
  }

  /** Every object can be given back exactly when the alignment is coarse or objects have 72 bytes. */
  lemma AllFreeable(base: nat, size: nat, num: nat, kind: Kind)
    requires base % PAGE == 0 && num > 0
    ensures (forall i :: 0 <= i < num ==> InRange(base, size, num, kind, Slots(Start(base, kind), size, num)[i])) <==>
            kind != Plain || size >= HEADER - 8
  {
    var slots := Slots(Start(base, kind), size, num);
    forall i | 0 <= i < num
      ensures kind != Plain || size >= HEADER - 8 ==> InRange(base, size, num, kind, slots[i])
    {
      Freeable(base, size, num, kind, i);
      TailSplit(size, num, i);
    }
    Freeable(base, size, num, kind, num - 1);
    TailSplit(size, num, num - 1);
    assert InRange(base, size, num, kind, slots[num - 1]) ==> kind != Plain || size >= HEADER - 8;
  }
}
