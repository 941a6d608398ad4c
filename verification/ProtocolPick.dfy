/** schedule() on one processor while the others are quiet: the protocol's steps pick the process that the search
    order of the scheduler says (sched/proc.c). */
module ProtocolPick {
  import opened Common
  import opened Protocol
  import opened ProtocolRun
  import RbShape
  import RoundRobin

  // ----- The ring of processes -----

  /** All processes and the idle process, by unsigned pid. */
  ghost predicate Ordered(s: State, order: seq<Pid>) {
    && order != [] && order[0] == Idle && Idle !in s.procs
    && (forall i :: 0 <= i < |order| ==> 0 <= Key(order[i]) < WORD)
    && (forall i, j :: 0 <= i < j < |order| ==> Key(order[i]) < Key(order[j]))
    && (forall p :: p in order <==> p == Idle || p in s.procs)
  }

  function Pids(order: seq<Pid>): (pids: seq<RbShape.Key>)
    requires forall i :: 0 <= i < |order| ==> 0 <= Key(order[i]) < WORD
    ensures |pids| == |order| && forall i :: 0 <= i < |order| ==> pids[i] == Key(order[i])
  {
    seq(|order|, i requires 0 <= i < |order| => Key(order[i]))
  }

  /** proc_next goes round the ring. */
  lemma NextIsRing(s: State, order: seq<Pid>, i: nat)
    requires Ordered(s, order) && i < |order|
    ensures IsNext(s.procs.Keys, order[i], order[RoundRobin.Pos(|order|, i, 1)])
  {
    var at, next := order[i], order[RoundRobin.Pos(|order|, i, 1)];
    assert at in order && next in order;
    forall p | p in s.procs && Key(p) > Key(at) ensures i + 1 < |order| && Key(next) <= Key(p) {
      assert p in order;
      var j :| 0 <= j < |order| && order[j] == p;
      assert j > i;
    }
    if i + 1 < |order| { assert Key(order[0]) < Key(order[i + 1]); }
  }

  // ----- The search -----

  /** Which processes the search would pick. */
  ghost function Pickable(s: State, order: seq<Pid>): seq<bool> {
    seq(|order|, i requires 0 <= i < |order| => IsState(s, order[i], Stopped))
  }

  lemma HopOn(ready: seq<bool>, i: nat)
    requires i < |ready| && true in ready
    ensures var j := RoundRobin.Pos(|ready|, i, 1);
            if ready[j] then RoundRobin.Hop(ready, i) == j && RoundRobin.First(RoundRobin.Ring(ready, i)) == 0
            else RoundRobin.Hop(ready, i) == RoundRobin.Hop(ready, j) &&
                 RoundRobin.First(RoundRobin.Ring(ready, i)) == 1 + RoundRobin.First(RoundRobin.Ring(ready, j))
  {
    var n, j := |ready|, RoundRobin.Pos(|ready|, i, 1);
    var ring, ring' := RoundRobin.Ring(ready, i), RoundRobin.Ring(ready, j);
    RoundRobin.RingAt(ready, i, 1);
    RoundRobin.RingTurns(ready, i, 1, n);
    if !ready[j] {
      var d, d' := RoundRobin.First(ring), RoundRobin.First(ring');
      Found(ready, i);
      Found(ready, j);
      assert forall e :: 0 <= e < n - 1 ==> ring'[e] == ring[1..n][e] == ring[e + 1];
      RoundRobin.RingAt(ready, j, n);
      assert !ring'[n - 1];
      assert d' == d - 1;
    }
  }

  lemma Found(ready: seq<bool>, i: nat)
    requires i < |ready| && true in ready
    ensures RoundRobin.First(RoundRobin.Ring(ready, i)) < |ready|
  {
    RoundRobin.RingCount(ready, i);
    assert true in multiset(RoundRobin.Ring(ready, i));
  }

  /** The state once processor c has picked q. */
  function Picked(s: State, c: nat, q: Pid): State
    requires c < |s.cpus|
  {
    SetCpu(SetState(s, q, Running), c, Exec(q))
  }

  /** One round of the search that finds nothing. */
  lemma LookedOn(s: State, c: nat, order: seq<Pid>, i: nat, j: nat) returns (s1: State)
    requires Ordered(s, order) && i < |order| && c < |s.cpus| && s.cpus[c] == Search(order[i])
    requires j == RoundRobin.Pos(|order|, i, 1) && !IsState(s, order[j], Stopped)
    ensures Enabled(s, Look(c, order[j])) && s1 == Apply(s, Look(c, order[j])) == SetCpu(s, c, Search(order[j]))
    ensures Ordered(s1, order) && Pickable(s1, order) == Pickable(s, order)
    ensures forall q :: Picked(s1, c, q) == Picked(s, c, q)
  {
    NextIsRing(s, order, i);
    s1 := SetCpu(s, c, Search(order[j]));
    forall q ensures Picked(s1, c, q) == Picked(s, c, q) {
      assert s.cpus[c := Search(order[j])][c := Exec(q)] == s.cpus[c := Exec(q)];
    }
  }

  lemma LookedPicks(s: State, c: nat, order: seq<Pid>, i: nat, j: nat)
    requires Ordered(s, order) && i < |order| && c < |s.cpus| && s.cpus[c] == Search(order[i])
    requires j == RoundRobin.Pos(|order|, i, 1) && IsState(s, order[j], Stopped)
    ensures CanRun(s, [Look(c, order[j])]) && Run(s, [Look(c, order[j])]) == Picked(s, c, order[j])
  {
    NextIsRing(s, order, i);
    var s1 := Picked(s, c, order[j]);
    assert Run(s1, []) == s1;
  }

  /** Going on from position i, the processor picks the first process that can be picked. */
  lemma {:induction false} SearchPicks(s: State, c: nat, order: seq<Pid>, i: nat, ready: seq<bool>)
    returns (es: seq<Event>, t: State)
    requires Ordered(s, order) && i < |order| && c < |s.cpus| && s.cpus[c] == Search(order[i])
    requires ready == Pickable(s, order) && true in ready
    ensures CanRun(s, es) && Run(s, es) == t == Picked(s, c, order[RoundRobin.Hop(ready, i)])
    ensures forall e :: e in es ==> e.Look? && e.c == c
    decreases RoundRobin.First(RoundRobin.Ring(ready, i))
  {
    var j := RoundRobin.Pos(|order|, i, 1);
    HopOn(ready, i);
    if ready[j] {
      es, t := [Look(c, order[j])], Picked(s, c, order[j]);
      LookedPicks(s, c, order, i, j);
    } else {
      var s1 := LookedOn(s, c, order, i, j);
      var rest;
      rest, t := SearchPicks(s1, c, order, j, ready);
      es := [Look(c, order[j])] + rest;
      assert es[1..] == rest;
    }
  }

  // ----- The whole of schedule() -----

  /** The scheduler's view of the process states. */
  ghost predicate Sees(s: State, order: seq<Pid>, v: RoundRobin.View) {
    && Ordered(s, order) && v.at < |order|
    && forall i :: 0 <= i < |order| ==>
         Key(order[i]) in v.state && (order[i] != Idle ==> v.state[Key(order[i])] == s.procs[order[i]].state)
  }

  /** The state in which the process that had processor c is stopped if it was running, and the search starts. */
  function Settled(s: State, c: nat, p: Pid): State
    requires c < |s.cpus|
  {
    SetCpu(if IsState(s, p, Running) then SetState(s, p, Stopped) else s, c, Search(p))
  }

  /** Processor c enters schedule(), after a tick or in sswtch, and p has had it. */
  predicate AtSchedule(s: State, c: nat, p: Pid) {
    c < |s.cpus| && (s.cpus[c] == Ticked(p) || s.cpus[c] == Switched(p))
  }

  /** The first steps of schedule(), after a tick or after sswtch: the process that had the processor is stopped if it
      is running, and the search starts behind it. */
  lemma Settles(s: State, c: nat, p: Pid) returns (es: seq<Event>)
    requires AtSchedule(s, c, p)
    ensures CanRun(s, es) && (forall e :: e in es ==> e.c == c)
    ensures Run(s, es) == Settled(s, c, p)
  {
    var ticked := s.cpus[c].Ticked?;
    var e1 := if ticked then TestTicked(c) else TestSwitched(c);
    var s1 := Apply(s, e1);
    if IsState(s, p, Running) {
      var e2 := if ticked then StopTicked(c) else StopSwitched(c);
      var s2 := Apply(s1, e2);
      es := [e1, e2];
      assert es[1..] == [e2] && [e2][1..] == [];
      assert Run(s2, []) == s2 && Run(s1, [e2]) == s2 && CanRun(s1, [e2]);
      assert s.cpus[c := s1.cpus[c]][c := Search(p)] == s.cpus[c := Search(p)];
    } else {
      es := [e1];
      assert es[1..] == [] && Run(s1, []) == s1;
    }
  }

  lemma {:induction false} RunOn(s: State, es: seq<Event>, es': seq<Event>)
    requires CanRun(s, es) && CanRun(Run(s, es), es')
    ensures CanRun(s, es + es') && Run(s, es + es') == Run(Run(s, es), es')
    decreases |es|
  {
    if es == [] {
      assert es + es' == es';
    } else {
      assert (es + es')[1..] == es[1..] + es';
      RunOn(Apply(s, es[0]), es[1..], es');
    }
  }

  lemma SameOrder(s: State, s1: State, order: seq<Pid>)
    requires Ordered(s, order) && s1.procs.Keys == s.procs.Keys
    ensures Ordered(s1, order)
  {
    assert forall p :: p in s1.procs <==> p in s.procs;
  }

  lemma SettledSeen(s: State, c: nat, order: seq<Pid>, v: RoundRobin.View, v1: RoundRobin.View)
    requires Sees(s, order, v) && c < |s.cpus|
    requires v1 == RoundRobin.View(RoundRobin.Settle(v, Key(order[v.at])), v.at)
    ensures Sees(Settled(s, c, order[v.at]), order, v1)
  {
    var s1 := Settled(s, c, order[v.at]);
    assert forall i :: 0 <= i < |order| ==> order[i] in order;
    SameOrder(s, s1, order);
    forall i | 0 <= i < |order|
      ensures Key(order[i]) in v1.state && (order[i] != Idle ==> v1.state[Key(order[i])] == s1.procs[order[i]].state)
    {
      assert i != v.at ==> Key(order[i]) != Key(order[v.at]);
    }
  }

  lemma PickedSeen(s1: State, c: nat, order: seq<Pid>, v1: RoundRobin.View, k: nat)
    requires Sees(s1, order, v1) && c < |s1.cpus| && k < |order|
    ensures Sees(Picked(s1, c, order[k]), order, RoundRobin.View(v1.state[Key(order[k]) := Running], k))
  {
    var s2, v2 := Picked(s1, c, order[k]), RoundRobin.View(v1.state[Key(order[k]) := Running], k);
    assert forall i :: 0 <= i < |order| ==> order[i] in order;
    SameOrder(s1, s2, order);
    forall i | 0 <= i < |order|
      ensures Key(order[i]) in v2.state && (order[i] != Idle ==> v2.state[Key(order[i])] == s2.procs[order[i]].state)
    {
      assert i != k ==> Key(order[i]) != Key(order[k]);
    }
  }

  lemma SettledPickable(s: State, s1: State, order: seq<Pid>, v: RoundRobin.View, v1: RoundRobin.View)
    requires Sees(s, order, v) && Sees(s1, order, v1)
    requires v1 == RoundRobin.View(RoundRobin.Settle(v, Key(order[v.at])), v.at)
    ensures Pickable(s1, order) == RoundRobin.Ready(Pids(order), v)
  {
    RoundRobin.SettledIsReady(Pids(order), v);
    assert forall i :: 0 <= i < |order| ==> order[i] in order;
    var a, b := Pickable(s1, order), RoundRobin.Ready(Pids(order), v);
    forall i | 0 <= i < |order| ensures a[i] == b[i] {
      assert i > 0 ==> Key(order[0]) < Key(order[i]);
    }
  }

  lemma TickView(pids: seq<RbShape.Key>, v: RoundRobin.View, ready: seq<bool>) returns (v1: RoundRobin.View, k: nat)
    requires v.at < |pids| && ready == RoundRobin.Ready(pids, v) && true in ready
    ensures v1 == RoundRobin.View(RoundRobin.Settle(v, pids[v.at]), v.at) && k == RoundRobin.Hop(ready, v.at) < |pids|
    ensures RoundRobin.AfterTick(pids, v) == RoundRobin.View(v1.state[pids[k] := Running], k)
  {
    v1, k := RoundRobin.View(RoundRobin.Settle(v, pids[v.at]), v.at), RoundRobin.Hop(ready, v.at);
  }

  /** From the settled state on. */
  lemma PicksSettled(s1: State, c: nat, order: seq<Pid>, v1: RoundRobin.View, ready: seq<bool>, k: nat)
    returns (es: seq<Event>, t: State)
    requires Sees(s1, order, v1) && c < |s1.cpus| && s1.cpus[c] == Search(order[v1.at])
    requires ready == Pickable(s1, order) && true in ready && k == RoundRobin.Hop(ready, v1.at)
    ensures CanRun(s1, es) && Run(s1, es) == t && forall e :: e in es ==> e.c == c
    ensures k < |order| && t.cpus == s1.cpus[c := Exec(order[k])]
    ensures Sees(t, order, RoundRobin.View(v1.state[Key(order[k]) := Running], k))
  {
    es, t := SearchPicks(s1, c, order, v1.at, ready);
    PickedSeen(s1, c, order, v1, k);
  }

  lemma SettlesSeen(s: State, c: nat, order: seq<Pid>, v: RoundRobin.View, v1: RoundRobin.View, ready: seq<bool>)
    returns (es: seq<Event>, s1: State)
    requires Sees(s, order, v) && c < |s.cpus| && ready == RoundRobin.Ready(Pids(order), v)
    requires AtSchedule(s, c, order[v.at])
    requires v1 == RoundRobin.View(RoundRobin.Settle(v, Key(order[v.at])), v.at)
    ensures CanRun(s, es) && Run(s, es) == s1 && (forall e :: e in es ==> e.c == c)
    ensures Sees(s1, order, v1) && ready == Pickable(s1, order)
    ensures s1.cpus == s.cpus[c := Search(order[v1.at])]
  {
    es := Settles(s, c, order[v.at]);
    s1 := Settled(s, c, order[v.at]);
    SettledSeen(s, c, order, v, v1);
    SettledPickable(s, s1, order, v, v1);
  }

  /** A processor that has been ticked, or has given up its process, picks the process that the scheduler's search
      order says, the first one behind it that can be picked, and leaves all states as the scheduler does. */
  lemma PicksInOrder(s: State, c: nat, order: seq<Pid>, v: RoundRobin.View, pids: seq<RbShape.Key>, ready: seq<bool>)
    returns (es: seq<Event>, t: State, v': RoundRobin.View)
    requires Sees(s, order, v) && c < |s.cpus|
    requires AtSchedule(s, c, order[v.at])
    requires pids == Pids(order) && ready == RoundRobin.Ready(pids, v) && true in ready
    ensures CanRun(s, es) && Run(s, es) == t && forall e :: e in es ==> e.c == c
    ensures v' == RoundRobin.AfterTick(pids, v) && Sees(t, order, v') && t.cpus == s.cpus[c := Exec(order[v'.at])]
  {
    var v1, k := TickView(pids, v, ready);
    var es1, s1 := SettlesSeen(s, c, order, v, v1, ready);
    var es2;
    es2, t := PicksSettled(s1, c, order, v1, ready, k);
    es := Joined(s, es1, s1, es2, t, c);
    v' := RoundRobin.View(v1.state[pids[k] := Running], k);
    LastWrite(s.cpus, c, Search(order[v1.at]), Exec(order[k]));
    assert v1.at == v.at && pids[k] == Key(order[k]);
  }

  lemma LastWrite(cpus: seq<Cpu>, c: nat, a: Cpu, b: Cpu)
    requires c < |cpus|
    ensures cpus[c := a][c := b] == cpus[c := b]
  {}

  lemma Joined(s: State, es1: seq<Event>, s1: State, es2: seq<Event>, t: State, c: nat) returns (es: seq<Event>)
    requires CanRun(s, es1) && Run(s, es1) == s1 && CanRun(s1, es2) && Run(s1, es2) == t
    requires (forall e :: e in es1 ==> e.c == c) && (forall e :: e in es2 ==> e.c == c)
    ensures CanRun(s, es) && Run(s, es) == t && forall e :: e in es ==> e.c == c
  {
    es := es1 + es2;
    RunOn(s, es1, es2);
  }
}
