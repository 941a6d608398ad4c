/** Runs on one slab, and chains of slabs (mem/slab.c). */
module SlabRun {
  import opened Common
  import opened Slabs

  // ----- Runs on one slab -----

  /** What users of a slab do; `i` counts the objects they hold. */
  datatype Event = Ask | GiveBack(i: nat) | Fill(i: nat, word: nat)

  /** The free list, and the objects handed out and not given back, in the order of their hand-out. */
  datatype State = State(list: seq<nat>, handed: seq<nat>)

  /** The last address that slab_free takes for one of this slab's. */
  function Top(slab: Slab): nat { Low(slab.base, slab.kind) + slab.size * slab.num }

  /** One event on a slab whose range runs from low to high. */
  function Next(low: nat, high: nat, s: State, ev: Event): State {
    match ev
    case Ask => if s.list == [] then s else State(s.list[1..], s.handed + [s.list[0]])
    case GiveBack(i) =>
      if i >= |s.handed| then s
      else if low <= s.handed[i] <= high then State([s.handed[i]] + s.list, Without(s.handed, i))
      else State(s.list, Without(s.handed, i))
    case Fill(_, _) => s
  }

  /** An allocation hands out the first object of the list, if there is one. */
  lemma AskMeans(low: nat, high: nat, s: State)
    ensures var s' := Next(low, high, s, Ask);
            if s.list == [] then s' == s
            else s.list == [s'.handed[|s.handed|]] + s'.list && s'.handed[..|s.handed|] == s.handed &&
                 |s'.handed| == |s.handed| + 1
  {}

  /** A free takes the object from its holder and puts it first on the list, or drops it if it is out of range. */
  lemma GiveBackMeans(low: nat, high: nat, s: State, i: nat)
    requires i < |s.handed|
    ensures var s' := Next(low, high, s, GiveBack(i));
            && |s'.handed| == |s.handed| - 1 && s'.handed[..i] == s.handed[..i] && s'.handed[i..] == s.handed[i + 1..]
            && (if low <= s.handed[i] <= high then s'.list[..1] == [s.handed[i]] && s'.list[1..] == s.list
                else s'.list == s.list)
  {}

  /** Objects are handed out and come back, but are neither made nor lost, except by frees out of range. */
  lemma Conserved(low: nat, high: nat, s: State, ev: Event)
    requires ev.GiveBack? && ev.i < |s.handed| ==> low <= s.handed[ev.i] <= high
    ensures var s' := Next(low, high, s, ev);
            multiset(s'.list) + multiset(s'.handed) == multiset(s.list) + multiset(s.handed)
  {
    match ev
    case Ask => if s.list != [] { assert s.list == [s.list[0]] + s.list[1..]; }
    case GiveBack(i) => if i < |s.handed| { assert s.handed == s.handed[..i] + [s.handed[i]] + s.handed[i + 1..]; }
    case Fill(_, _) =>
  }

  function After(low: nat, high: nat, slots: seq<nat>, events: seq<Event>): State {
    if events == [] then State(slots, [])
    else Next(low, high, After(low, high, slots, events[..|events| - 1]), events[|events| - 1])
  }

  ghost predicate NoTwice(s: seq<nat>) { forall i, j :: 0 <= i < j < |s| ==> s[i] != s[j] }

  /** Nobody holds an object that somebody else holds, and every held object is live. */
  ghost predicate HeldOnce(slab: Slab, handed: seq<nat>)
    reads slab
  {
    slab.Valid() && NoTwice(handed) && forall i :: 0 <= i < |handed| ==> handed[i] in slab.live
  }

  lemma DropOne(s: seq<nat>, i: nat)
    requires i < |s| && NoTwice(s)
    ensures NoTwice(Without(s, i)) && forall j :: 0 <= j < |s| - 1 ==> Without(s, i)[j] in s && Without(s, i)[j] != s[i]
  {}

  method Serve(slab: Slab, handed: seq<nat>, ev: Event) returns (handed': seq<nat>)
    requires HeldOnce(slab, handed)
    modifies slab
    ensures HeldOnce(slab, handed')
    ensures State(slab.list, handed') ==
            Next(Low(slab.base, slab.kind), Top(slab), State(old(slab.list), handed), ev)
  {
    handed' := handed;
    match ev
    case Ask =>
      var ptr := slab.Alloc();
      if ptr != 0 { handed' := handed + [ptr]; }
    case GiveBack(i) =>
      if i < |handed| {
        LiveIsNotFree(slab, handed[i]);
        DropOne(handed, i);
        slab.Free(handed[i]);
        handed' := Without(handed, i);
      }
    case Fill(i, word) =>
      if i < |handed| { slab.Write(handed[i], word); }
  }

  /** Any run of allocations, writes into held objects and frees of held objects on a new slab: the free list and the
      hand-outs are those that the events say, and no object is in two hands. */
  method Replay(slab: Slab, events: seq<Event>) returns (handed: seq<nat>)
    requires slab.Valid() && slab.list == slab.Objects() && slab.live == {}
    modifies slab
    ensures HeldOnce(slab, handed) && slab.free + |slab.live| == slab.num
    ensures State(slab.list, handed) ==
            After(Low(slab.base, slab.kind), Top(slab), slab.Objects(), events)
  {
    handed := [];
    ghost var low, slots := Low(slab.base, slab.kind), slab.Objects();
    ghost var high := Top(slab);
    for n := 0 to |events|
      invariant HeldOnce(slab, handed) && State(slab.list, handed) == After(low, high, slots, events[..n])
    {
      assert events[..n + 1][..n] == events[..n];
      handed := Serve(slab, handed, events[n]);
    }
    assert events[..|events|] == events;
    slab.FreePlusLive();
  }

  // ----- Chains of slabs -----

  ghost predicate AllValid(slabs: seq<Slab>)
    reads slabs
  {
    && (forall i :: 0 <= i < |slabs| ==> slabs[i].Valid())
    && (forall i, j :: 0 <= i < j < |slabs| ==> slabs[i] != slabs[j])
  }

  /** The recursion of slab_alloc: past the slabs that are full. */
  method FirstNotFull(slabs: seq<Slab>) returns (at: nat)
    requires AllValid(slabs)
    ensures at <= |slabs| && forall i :: 0 <= i < at ==> slabs[i].list == []
    ensures at < |slabs| ==> slabs[at].list != []
  {
    at := 0;
    while at < |slabs| && slabs[at].nextfree == 0
      invariant at <= |slabs| && forall i :: 0 <= i < at ==> slabs[i].list == []
    {
      assert slabs[at].Valid();
      at := at + 1;
    }
    assert at < |slabs| ==> slabs[at].Valid();
  }

  /** slab_alloc on a chain, of which the last slab may just have been made because all others are full: NULL
      exactly if all are full; otherwise an object of the first slab that has one, which nobody has. */
  method AllocChain(slabs: seq<Slab>) returns (ptr: nat, at: nat)
    requires AllValid(slabs)
    modifies slabs
    ensures AllValid(slabs) && at <= |slabs|
    ensures forall i :: 0 <= i < at ==> old(slabs[i].list) == []
    ensures ptr == 0 <==> at == |slabs|
    ensures at < |slabs| ==>
              ptr in slabs[at].Objects() && ptr !in old(slabs[at].live) && slabs[at].live == old(slabs[at].live) + {ptr}
    ensures forall i :: 0 <= i < |slabs| && i != at ==> unchanged(slabs[i])
  {
    at := FirstNotFull(slabs);
    ptr := 0;
    if at < |slabs| {
      ptr := slabs[at].Alloc();
    }
  }

  /** The first slab from number j on whose range has the address. */
  function FirstInRange(slabs: seq<Slab>, j: nat, ptr: nat): (at: nat)
    requires j <= |slabs|
    ensures j <= at <= |slabs|
    decreases |slabs| - j
  {
    if j == |slabs| || Covers(slabs[j], ptr) then j else FirstInRange(slabs, j + 1, ptr)
  }

  predicate Covers(slab: Slab, ptr: nat) { InRange(slab.base, slab.size, slab.num, slab.kind, ptr) }

  /** The slab into which slab_free puts an address; None if it drops it. */
  function Target(slabs: seq<Slab>, ptr: nat): Option<nat>
    requires slabs != []
  {
    if Covers(slabs[0], ptr) then Some(0)
    else
      var j := FirstInRange(slabs, 1, ptr);
      if j + 1 < |slabs| then Some(j + 1) else None
  }

  /** The search of slab_free. The range that is tested is always that of the slab before the current one,
      except at the start. */
  method FindSlab(slabs: seq<Slab>, ptr: nat) returns (at: Option<nat>)
    requires slabs != []
    ensures at == Target(slabs, ptr)
  {
    var k, tested := 0, 0;
    while !Covers(slabs[tested], ptr)
      invariant k < |slabs| && (tested == 0 == k || tested + 1 == k)
      invariant k > 0 ==> !Covers(slabs[0], ptr)
      invariant tested > 0 ==> FirstInRange(slabs, 1, ptr) == FirstInRange(slabs, tested, ptr)
      decreases |slabs| - k
    {
      tested := k;
      k := k + 1;
      if k == |slabs| {
        return None;
      }
    }
    return Some(k);
  }

  /** An object is put back into the first slab that covers it exactly if that is the first one of the chain.
      Otherwise it goes to the slab after it, or nowhere. */
  lemma OwnSlabExactly(slabs: seq<Slab>, j: nat, ptr: nat)
    requires j < |slabs| && Covers(slabs[j], ptr)
    requires forall i :: 0 <= i < j ==> !Covers(slabs[i], ptr)
    ensures Target(slabs, ptr) == Some(j) <==> j == 0
    ensures j > 0 ==> Target(slabs, ptr) == if j + 1 < |slabs| then Some(j + 1) else None
  {
    if j > 0 { FirstIsOnly(slabs, 1, j, ptr); }
  }

  /** An address that no slab covers goes nowhere. */
  lemma NoSlab(slabs: seq<Slab>, ptr: nat)
    requires slabs != [] && forall k :: 0 <= k < |slabs| ==> !Covers(slabs[k], ptr)
    ensures Target(slabs, ptr) == None
  {
    NoSlabFrom(slabs, ptr, 1);
  }

  lemma {:induction false} NoSlabFrom(slabs: seq<Slab>, ptr: nat, i: nat)
    requires i <= |slabs| && forall k :: 0 <= k < |slabs| ==> !Covers(slabs[k], ptr)
    ensures FirstInRange(slabs, i, ptr) == |slabs|
    decreases |slabs| - i
  {
    if i < |slabs| { NoSlabFrom(slabs, ptr, i + 1); }
  }

  lemma {:induction false} FirstIsOnly(slabs: seq<Slab>, i: nat, j: nat, ptr: nat)
    requires i <= j < |slabs| && Covers(slabs[j], ptr) && forall k :: i <= k < j ==> !Covers(slabs[k], ptr)
    ensures FirstInRange(slabs, i, ptr) == j
    decreases j - i
  {
    if i < j { FirstIsOnly(slabs, i + 1, j, ptr); }
  }
}
