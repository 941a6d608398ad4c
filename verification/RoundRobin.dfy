/** The search order of schedule() (sched/proc.c), seen by one processor while the others are quiet. */
module RoundRobin {
  import opened RbShape
  import opened RbHeap
  import opened RbInsert
  import opened RbQuery
  import Protocol

  type RunState = Protocol.RunState

  // ----- A ring of processes -----

  /** The positions after `i`, in the order in which the search meets them; `i` itself comes last. */
  function Ring<T>(s: seq<T>, i: nat): (r: seq<T>)
    requires i < |s|
    ensures |r| == |s|
  {
    s[i + 1..] + s[..i + 1]
  }

  /** The position `d` steps after `i`. */
  function Pos(n: nat, i: nat, d: nat): (p: nat)
    requires i < n && d <= n
    ensures p < n
  {
    if i + d < n then i + d else i + d - n
  }

  lemma RingAt<T>(s: seq<T>, i: nat, d: nat)
    requires i < |s| && 0 < d <= |s|
    ensures Ring(s, i)[d - 1] == s[Pos(|s|, i, d)]
  {}

  /** The ring seen from a later position is the same ring turned. */
  lemma RingTurns<T>(s: seq<T>, i: nat, h: nat, d: nat)
    requires i < |s| && 0 < h <= d <= |s|
    ensures Ring(s, Pos(|s|, i, h))[..d - h] == Ring(s, i)[h..d]
    ensures Pos(|s|, Pos(|s|, i, h), d - h) == Pos(|s|, i, d)
  {
    var a, b := Ring(s, Pos(|s|, i, h))[..d - h], Ring(s, i)[h..d];
    forall e | 0 <= e < d - h ensures a[e] == b[e] {
      RingAt(s, Pos(|s|, i, h), e + 1);
      RingAt(s, i, h + e + 1);
    }
  }

  /** The ring holds everything once, wherever it starts. */
  lemma RingCount<T>(s: seq<T>, i: nat)
    requires i < |s|
    ensures multiset(Ring(s, i)) == multiset(s)
  {
    assert s == s[..i + 1] + s[i + 1..];
  }

  /** The number of true elements before the first, or all if there is none. */
  function First(s: seq<bool>): (d: nat)
    ensures d <= |s| && (d < |s| ==> s[d]) && forall e :: 0 <= e < d ==> !s[e]
  {
    if s == [] || s[0] then 0 else 1 + First(s[1..])
  }

  /** How many of the first `d` elements are true, counted from the first true one. */
  lemma {:induction false} CountFromFirst(s: seq<bool>, d: nat)
    requires First(s) < d <= |s|
    ensures multiset(s[..d])[true] == 1 + multiset(s[First(s) + 1..d])[true]
    decreases d
  {
    assert s[..d] == [s[0]] + s[1..d];
    if !s[0] {
      CountFromFirst(s[1..], d - 1);
      assert s[1..][..d - 1] == s[1..d] && s[1..][First(s)..d - 1] == s[First(s) + 1..d];
    }
  }

  /** One hop: to the first ready position after `i`. */
  function Hop(ready: seq<bool>, i: nat): (p: nat)
    requires i < |ready| && true in ready
    ensures p < |ready| && ready[p]
  {
    var d := First(Ring(ready, i));
    assert d < |ready| by {
      var k :| 0 <= k < |ready| && ready[k];
      var e := if k > i then k - i else k + |ready| - i;
      RingAt(ready, i, e);
    }
    RingAt(ready, i, d + 1);
    Pos(|ready|, i, d + 1)
  }

  function Hops(ready: seq<bool>, i: nat, k: nat): (p: nat)
    requires i < |ready| && true in ready
    ensures p < |ready|
    decreases k
  {
    if k == 0 then i else Hops(ready, Hop(ready, i), k - 1)
  }

  /** A ready position `d` steps away is reached by as many hops as there are ready
      positions up to it. */
  lemma {:induction false} HopsReach(ready: seq<bool>, i: nat, d: nat)
    requires i < |ready| && 0 < d <= |ready| && ready[Pos(|ready|, i, d)]
    ensures true in ready
    ensures Hops(ready, i, multiset(Ring(ready, i)[..d])[true]) == Pos(|ready|, i, d)
    decreases d
  {
    var n, ring := |ready|, Ring(ready, i);
    RingAt(ready, i, d);
    assert ready[Pos(n, i, d)] in ready;
    var h := First(ring) + 1;
    CountFromFirst(ring, d);
    RingTurns(ready, i, h, d);
    var i' := Pos(n, i, h);
    assert Hop(ready, i) == i';
    if h < d {
      HopsReach(ready, i', d - h);
    } else {
      assert ring[h..d] == [];
      assert Hops(ready, i', 0) == i';
    }
  }

  /** No ready position waits longer than there are ready positions. */
  lemma HopsBound(ready: seq<bool>, i: nat, d: nat)
    requires i < |ready| && d <= |ready|
    ensures multiset(Ring(ready, i)[..d])[true] <= multiset(ready)[true]
  {
    var ring := Ring(ready, i);
    assert ring == ring[..d] + ring[d..];
    RingCount(ready, i);
  }

  // ----- Process states under timer ticks -----

  /** What one processor's scheduler works on: the state of each pid, pid 0 being the
      processor's own idle process, and the position of the current pid in unsigned order. */
  datatype View = View(state: map<Key, RunState>, at: nat)

  /** Stopped once the current process has been stopped. */
  predicate Eligible(v: View, current: Key, pid: Key) {
    pid != 0 && pid in v.state &&
    (v.state[pid] == Protocol.Stopped || (pid == current && v.state[pid] == Protocol.Running))
  }

  function Ready(pids: seq<Key>, v: View): (r: seq<bool>)
    requires v.at < |pids|
    ensures |r| == |pids| && forall i :: 0 <= i < |pids| ==> r[i] == Eligible(v, pids[v.at], pids[i])
  {
    seq(|pids|, i requires 0 <= i < |pids| => Eligible(v, pids[v.at], pids[i]))
  }

  /** The start of schedule(): the current process, if running, is stopped. */
  function Settle(v: View, current: Key): map<Key, RunState> {
    if current in v.state && v.state[current] == Protocol.Running then v.state[current := Protocol.Stopped] else v.state
  }

  lemma SettledIsReady(pids: seq<Key>, v: View)
    requires v.at < |pids| && forall p :: 0 <= p < |pids| ==> pids[p] in v.state
    ensures forall p :: 0 <= p < |pids| ==> pids[p] in Settle(v, pids[v.at])
    ensures forall p :: 0 <= p < |pids| ==>
              (Ready(pids, v)[p] <==> pids[p] != 0 && Settle(v, pids[v.at])[pids[p]] == Protocol.Stopped)
  {}

  /** A whole schedule(): the first stopped process after the current one is picked.
      With none the search goes on and nothing happens. */
  function AfterTick(pids: seq<Key>, v: View): (v': View)
    requires v.at < |pids|
    ensures v'.at < |pids|
  {
    if true in Ready(pids, v) then
      var at := Hop(Ready(pids, v), v.at);
      View(Settle(v, pids[v.at])[pids[at] := Protocol.Running], at)
    else v
  }

  function Ticks(pids: seq<Key>, v: View, k: nat): (v': View)
    requires v.at < |pids|
    ensures v'.at < |pids|
    decreases k
  {
    if k == 0 then v else Ticks(pids, AfterTick(pids, v), k - 1)
  }

  /** A tick changes who runs but not who is eligible. */
  lemma TickKeepsReady(pids: seq<Key>, v: View)
    requires v.at < |pids| && true in Ready(pids, v)
    ensures Ready(pids, AfterTick(pids, v)) == Ready(pids, v)
  {}

  lemma TickHops(pids: seq<Key>, v: View) returns (v': View)
    requires v.at < |pids| && true in Ready(pids, v)
    ensures v' == AfterTick(pids, v) && v'.at == Hop(Ready(pids, v), v.at) && Ready(pids, v') == Ready(pids, v)
  {
    v' := AfterTick(pids, v);
    TickKeepsReady(pids, v);
  }

  lemma {:induction false} TicksAreHops(pids: seq<Key>, v: View, k: nat, ready: seq<bool>) returns (w: View)
    requires v.at < |pids| && ready == Ready(pids, v) && true in ready
    ensures w == Ticks(pids, v, k) && w.at == Hops(ready, v.at, k)
    decreases k
  {
    if k == 0 {
      w := v;
    } else {
      var v' := TickHops(pids, v);
      w := TicksAreHops(pids, v', k - 1, ready);
    }
  }

  /** Under timer ticks alone an eligible process is picked within as many ticks as there
      are eligible processes. */
  lemma EligibleIsPicked(pids: seq<Key>, v: View, q: nat) returns (ticks: nat)
    requires v.at < |pids| && q < |pids| && Eligible(v, pids[v.at], pids[q])
    ensures 0 < ticks <= multiset(Ready(pids, v))[true]
    ensures Ticks(pids, v, ticks).at == q
  {
    var ready, i := Ready(pids, v), v.at;
    var d := if q > i then q - i else q + |pids| - i;
    assert Pos(|pids|, i, d) == q;
    ticks := multiset(Ring(ready, i)[..d])[true];
    HopsReach(ready, i, d);
    HopsBound(ready, i, d);
    var _ := TicksAreHops(pids, v, ticks, ready);
    RingAt(ready, i, d);
    assert Ring(ready, i)[..d][d - 1] in Ring(ready, i)[..d];
  }

  // ----- The code -----

  ghost function Pids(s: seq<Entry>): (r: seq<Key>)
    ensures |r| == |s| && forall i :: 0 <= i < |s| ==> r[i] == s[i].key
  {
    seq(|s|, i requires 0 <= i < |s| => s[i].key)
  }

  /** proc_next: the pid after `pid` in unsigned order; the idle process after the last one,
      or if `pid` is gone. */
  method ProcNext(tree: RbTree, pid: Key) returns (next: Key, ghost i: nat)
    requires tree.Linked() && Sorted(tree.Entries())
    ensures !HasKey(tree.Entries(), pid) ==> next == 0
    ensures HasKey(tree.Entries(), pid) ==>
              && i < |tree.Entries()| && tree.Entries()[i].key == pid
              && next == if i + 1 < |tree.Entries()| then tree.Entries()[i + 1].key else 0
  {
    var node, _ := Search(tree, pid);
    i := 0;
    if node == null {
      return 0, i;
    }
    i :| 0 <= i < |tree.Entries()| && tree.Entries()[i] == Entry(node, pid);
    node := Successor(tree, node, i);
    if node == null {
      return 0, i;
    }
    EntryCell(tree, i + 1);
    next := node.key;
  }

  /** The pid after position `p` of the ring. */
  lemma NextInRing(pids: seq<Key>, p: nat)
    requires p < |pids| && pids[0] == 0
    ensures (if p + 1 < |pids| then pids[p + 1] else 0) == pids[Pos(|pids|, p, 1)]
  {}

  /** Calling proc_next once per process goes round all of them in unsigned pid order, through pid 0, each
      once, and comes back to the start. */
  method GoRound(tree: RbTree, start: Key, ghost i: nat) returns (seen: seq<Key>)
    requires tree.Valid() && i < |tree.Entries()|
    requires tree.Entries()[0].key == 0 && tree.Entries()[i].key == start
    ensures seen == Ring(Pids(tree.Entries()), i)
    ensures multiset(seen) == multiset(Pids(tree.Entries())) && seen[|seen| - 1] == start
  {
    ghost var pids := Pids(tree.Entries());
    var pid := start;
    seen := [];
    ghost var p := i;
    for d := 0 to tree.numNodes
      invariant d <= |pids| && p < |pids| && p == Pos(|pids|, i, d) && pid == pids[p] && |seen| == d
      invariant forall e :: 0 <= e < d ==> seen[e] == Ring(pids, i)[e]
    {
      NextInRing(pids, p);
      assert tree.Entries()[p].key == pid;
      ghost var at;
      pid, at := ProcNext(tree, pid);
      assert at == p;
      p := Pos(|pids|, p, 1);
      RingAt(pids, i, d + 1);
      seen := seen + [pid];
    }
    RingCount(pids, i);
  }

  /** The part of the ring searched so far holds nothing ready; `p` is where the search stands. */
  ghost predicate Searched(ready: seq<bool>, i: nat, d: nat, p: nat)
    requires i < |ready|
  {
    && p < |ready|
    && (d <= |ready| ==> p == Pos(|ready|, i, d))
    && forall e :: 0 <= e < d && e < |ready| ==> !Ring(ready, i)[e]
  }

  lemma SearchedOneMore(ready: seq<bool>, i: nat, d: nat, p: nat)
    requires i < |ready| && Searched(ready, i, d, p)
    ensures var p' := Pos(|ready|, p, 1);
            if ready[p'] then First(Ring(ready, i)) == d < |ready| && (true in ready ==> p' == Hop(ready, i))
            else Searched(ready, i, d + 1, p')
  {
    var p' := Pos(|ready|, p, 1);
    if d < |ready| {
      RingAt(ready, i, d + 1);
    } else {
      var e := if p' > i then p' - i else p' + |ready| - i;
      RingAt(ready, i, e);
    }
  }

  /** The loop of schedule(): go round the processes until one is stopped, at most `iterations` times. */
  method Look(tree: RbTree, state: map<Key, RunState>, start: Key, iterations: nat,
              ghost pids: seq<Key>, ghost ready: seq<bool>, ghost i: nat)
    returns (picked: bool, pid: Key)
    requires tree.Linked() && Sorted(tree.Entries()) && pids == Pids(tree.Entries())
    requires i < |pids| == |ready| && pids[0] == 0 && pids[i] == start
    requires forall p :: 0 <= p < |pids| ==> pids[p] in state
    requires forall p :: 0 <= p < |pids| ==> (ready[p] <==> pids[p] != 0 && state[pids[p]] == Protocol.Stopped)
    ensures picked <==> First(Ring(ready, i)) < |pids| && First(Ring(ready, i)) < iterations
    ensures picked ==> true in ready && pid == pids[Hop(ready, i)]
  {
    pid := start;
    var counter := 0;
    ghost var p := i;
    while counter < iterations
      invariant counter <= iterations
      invariant Searched(ready, i, counter, p) && pid == pids[p]
    {
      NextInRing(pids, p);
      SearchedOneMore(ready, i, counter, p);
      assert tree.Entries()[p].key == pid;
      ghost var at;
      pid, at := ProcNext(tree, pid);
      assert at == p;
      p := Pos(|pids|, p, 1);
      if pid != 0 && state[pid] == Protocol.Stopped {
        assert ready[p] in ready;
        return true, pid;
      }
      counter := counter + 1;
    }
    return false, pid;
  }

  /** What schedule() does in at most `iterations` rounds: the first stopped process in ring order is
      picked, which takes at most one round per process; with none it only stops the current process. */
  ghost predicate Scheduled(pids: seq<Key>, v: View, v': View, iterations: nat, picked: bool) {
    v.at < |pids| &&
    var first := First(Ring(Ready(pids, v), v.at));
    && (picked <==> first < |pids| && first < iterations)
    && (picked ==> true in Ready(pids, v) && v' == AfterTick(pids, v))
    && (!picked ==> v' == View(Settle(v, pids[v.at]), v.at))
  }

  /** Pid 0 comes first, every pid has a state, and the current pid is in its place. */
  ghost predicate Fits(pids: seq<Key>, state: map<Key, RunState>, current: Key, at: nat) {
    && pids != [] && pids[0] == 0
    && (forall p :: 0 <= p < |pids| ==> pids[p] in state)
    && at < |pids| && pids[at] == current
  }

  lemma PickFits(pids: seq<Key>, v: View, iterations: nat, picked: bool, pid: Key)
    requires v.at < |pids| && Fits(pids, v.state, pids[v.at], v.at)
    requires var first := First(Ring(Ready(pids, v), v.at)); picked <==> first < |pids| && first < iterations
    requires picked ==> true in Ready(pids, v) && pid == pids[Hop(Ready(pids, v), v.at)]
    ensures var st := Settle(v, pids[v.at]);
            if picked then var at := Hop(Ready(pids, v), v.at);
              && Fits(pids, st[pid := Protocol.Running], pid, at)
              && Scheduled(pids, v, View(st[pid := Protocol.Running], at), iterations, true)
            else
              && Fits(pids, st, pids[v.at], v.at)
              && Scheduled(pids, v, View(st, v.at), iterations, false)
  {}

  /** rbt_insert into an empty tree. */
  method InsertFirst(tree: RbTree, pid: Key) returns (node: RbNode)
    requires tree.Valid() && tree.Entries() == []
    modifies tree, tree.repr`parent, tree.repr`left, tree.repr`right, tree.repr`color
    ensures tree.Valid() && tree.Entries() == [Entry(node, pid)]
  {
    var n, at := Insert(tree, pid, true);
    node := n;
  }

  lemma PidsOfOne(node: RbNode, pid: Key)
    ensures Pids([Entry(node, pid)]) == [pid]
  {}

  lemma AloneFits(state: map<Key, RunState>)
    requires state == map[0 := Protocol.Running]
    ensures Fits([0], state, 0, 0)
  {}

  /** One processor's view of the process states; the process tree is shared. */
  class Scheduler {
    var state: map<Key, RunState>
    var current: Key
    ghost var at: nat

    ghost predicate Valid(pids: seq<Key>)
      reads this
    {
      Fits(pids, state, current, at)
    }

    ghost function AsView(): View
      reads this
    {
      View(state, at)
    }

    /** proc_init, on a new process tree. */
    constructor (tree: RbTree)
      requires tree.Valid() && tree.Entries() == []
      modifies tree, tree.repr`parent, tree.repr`left, tree.repr`right, tree.repr`color
      ensures tree.Valid() && Pids(tree.Entries()) == [0]
      ensures Valid([0]) && AsView() == View(map[0 := Protocol.Running], 0)
    {
      state := map[0 := Protocol.Running];
      current := 0;
      at := 0;
      new;
      var node := InsertFirst(tree, current);
      PidsOfOne(node, current);
      assert Valid([0]) by { AloneFits(state); }
    }

    /** The first `iterations` rounds of schedule(). Its counter is never advanced, so the code
        goes on until it has picked a process. */
    method Schedule(tree: RbTree, iterations: nat) returns (picked: bool)
      requires tree.Valid() && Valid(Pids(tree.Entries()))
      modifies this
      ensures Valid(Pids(tree.Entries()))
      ensures Scheduled(Pids(tree.Entries()), old(AsView()), AsView(), iterations, picked)
    {
      ghost var pids := Pids(tree.Entries());
      ghost var before := AsView();
      SettledIsReady(pids, before);
      if state[current] == Protocol.Running {
        state := state[current := Protocol.Stopped];
      }
      var pid;
      picked, pid := Look(tree, state, current, iterations, pids, Ready(pids, before), at);
      PickFits(pids, before, iterations, picked, pid);
      if picked {
        at := Hop(Ready(pids, before), at);
        state := state[pid := Protocol.Running];
        current := pid;
      }
    }
  }
}
