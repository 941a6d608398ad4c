/** No user process is lost: it, or its kernel partner, can always go on.

    proc_enter_kernel does not set an old partner running again, so a partner executes its second system call in
    state blocked. A timer tick that hits it there takes the processor away from it for good. */
module ProtocolLost {
  import opened Common
  import opened Protocol
  import opened ProtocolRun

  // ----- Who goes on -----

  ghost predicate PartnerActs(s: State, u: Pid) {
    exists k :: Partners(s, u, k) && Active(s, k)
  }

  ghost predicate IsChild(s: State, u: Pid) {
    exists c :: 0 <= c < |s.cpus| && s.cpus[c].InFork? && s.cpus[c].child == u
  }

  /** u is executing or pickable, or its partner is, or it is being made by a fork. */
  ghost predicate GoesOn(s: State, u: Pid) { Active(s, u) || PartnerActs(s, u) || IsChild(s, u) }

  ghost predicate NoneLost(s: State) {
    forall u :: u in s.procs && u.User? ==> GoesOn(s, u)
  }

  /** A user process executes in state running. */
  ghost predicate UsersRun(s: State) {
    forall c :: 0 <= c < |s.cpus| ==> RunsUser(s, s.cpus[c])
  }

  ghost predicate RunsUser(s: State, cpu: Cpu) {
    (cpu.Exec? || cpu.Ticked?) && cpu.p.User? ==> IsState(s, cpu.p, Running)
  }

  /** schedule() after a tick finds the kernel partner of a live user process not running. */
  predicate Drops(s: State, e: Event)
    requires Enabled(s, e)
  {
    e.TestTicked? && KernelWithUser(s, s.cpus[e.c].p) && !IsState(s, s.cpus[e.c].p, Running)
  }

  // ----- One step -----

  /** What a step owes to those that go on: only `drop` stops being active. */
  ghost predicate LeavesOnly(s: State, s': State, c: nat, drop: Pid) {
    && Moved(s, s', c)
    && (forall u :: u in s'.procs && u.User? && u !in s.procs ==> GoesOn(s', u))
    && (forall u, k :: u in s'.procs && Partners(s, u, k) ==> Partners(s', u, k))
    && (forall p :: p in s'.procs && p != drop && Active(s, p) ==> Active(s', p))
    && (s.cpus[c].InFork? ==> Active(s', s.cpus[c].child))
  }

  lemma GoesOnAfter(s: State, s': State, c: nat, drop: Pid, u: Pid)
    requires LeavesOnly(s, s', c, drop) && u in s'.procs && GoesOn(s, u)
    requires u == drop || Partners(s, u, drop) ==> GoesOn(s', u)
    ensures GoesOn(s', u)
  {
    if Active(s, u) {
    } else if PartnerActs(s, u) {
      var k :| Partners(s, u, k) && Active(s, k);
      assert Partners(s', u, k);
    } else {
      var d :| 0 <= d < |s.cpus| && s.cpus[d].InFork? && s.cpus[d].child == u;
      if d != c { assert s'.cpus[d] == s.cpus[d]; }
    }
  }

  lemma NoneLostAfter(s: State, s': State, c: nat, drop: Pid)
    requires NoneLost(s) && LeavesOnly(s, s', c, drop)
    requires forall u :: u in s'.procs && u.User? && (u == drop || Partners(s, u, drop)) ==> GoesOn(s', u)
    ensures NoneLost(s')
  {
    forall u | u in s'.procs && u.User? ensures GoesOn(s', u) {
      if u in s.procs { GoesOnAfter(s, s', c, drop, u); }
    }
  }

  lemma UsersRunAfter(s: State, s': State, c: nat)
    requires UsersRun(s) && Moved(s, s', c) && RunsUser(s', s'.cpus[c])
    requires forall p: Pid :: p.User? && HeldElsewhere(s, c, p) && IsState(s, p, Running) ==> IsState(s', p, Running)
    ensures UsersRun(s')
  {
    HeldMoves(s, s', c);
    forall d | 0 <= d < |s'.cpus| ensures RunsUser(s', s'.cpus[d]) {
      if d != c { assert RunsUser(s, s.cpus[d]) && HeldElsewhere(s, c, Held(s.cpus[d])); }
    }
  }

  /** Processor c keeps its process or leaves it pickable, and whoever was pickable still is, or c has it. */
  ghost predicate Gentle(s: State, s': State, c: nat) {
    && Moved(s, s', c) && SameTable(s, s') && StaysPending(s, s', c) && !s.cpus[c].InFork?
    && (var p := Held(s.cpus[c]); p == Idle || Held(s'.cpus[c]) == p || IsState(s', p, Stopped))
    && (forall p :: IsState(s, p, Stopped) ==> IsState(s', p, Stopped) || Held(s'.cpus[c]) == p)
  }

  lemma GentleKeeps(s: State, s': State, c: nat)
    requires NoneLost(s) && Gentle(s, s', c)
    ensures NoneLost(s')
  {
    HeldMoves(s, s', c);
    SameTableKeeps(s, s', c);
    assert LeavesOnly(s, s', c, Idle);
    NoneLostAfter(s, s', c, Idle);
  }

  /** What is true before a step that is neither a race nor a drop, and after it. */
  ghost predicate Found(s: State) { Inv(s) && UsersRun(s) && NoneLost(s) }

  ghost predicate Proper(s: State, e: Event) { Enabled(s, e) && !Race(s, e) && !Drops(s, e) }

  lemma TickedFound(s: State, e: Event)
    requires Found(s) && Proper(s, e) && (e.Tick? || e.StopTicked? || e.Switch? || e.TestSwitched?)
    ensures NoneLost(Apply(s, e)) && UsersRun(Apply(s, e))
  {
    var s', c := Apply(s, e), e.c;
    assert PhaseOk(s, s.cpus[c]) && RunsUser(s, s.cpus[c]);
    assert Gentle(s, s', c);
    GentleKeeps(s, s', c);
    HolderIsAlone(s, c);
    UsersRunAfter(s, s', c);
  }

  lemma StopSwitchedFound(s: State, c: nat)
    requires Found(s) && Proper(s, StopSwitched(c))
    ensures NoneLost(Apply(s, StopSwitched(c))) && UsersRun(Apply(s, StopSwitched(c)))
  {
    var s' := Apply(s, StopSwitched(c));
    assert PhaseOk(s, s.cpus[c]);
    assert Gentle(s, s', c);
    GentleKeeps(s, s', c);
    HeldMoves(s, s', c);
    UsersRunAfter(s, s', c);
  }

  lemma TestTickedFound(s: State, c: nat)
    requires Found(s) && Proper(s, TestTicked(c))
    ensures NoneLost(Apply(s, TestTicked(c))) && UsersRun(Apply(s, TestTicked(c)))
  {
    var s', p := Apply(s, TestTicked(c)), s.cpus[c].p;
    assert RunsUser(s, s.cpus[c]);
    UsersRunAfter(s, s', c);
    HeldMoves(s, s', c);
    if IsState(s, p, Running) || p == Idle {
      assert Gentle(s, s', c);
      GentleKeeps(s, s', c);
    } else {
      SameTableKeeps(s, s', c);
      assert forall u :: !Partners(s, u, p);
      NoneLostAfter(s, s', c, p);
    }
  }

  lemma LookFound(s: State, c: nat, next: Pid)
    requires Found(s) && Proper(s, Look(c, next))
    ensures NoneLost(Apply(s, Look(c, next))) && UsersRun(Apply(s, Look(c, next)))
  {
    var s' := Apply(s, Look(c, next));
    assert Gentle(s, s', c);
    GentleKeeps(s, s', c);
    UsersRunAfter(s, s', c);
  }

  lemma EnterFound(s: State, e: Event)
    requires Found(s) && Proper(s, e) && (e.EnterLoad? || e.EnterStore? || e.EnterOld? || e.EnterBlock?)
    ensures NoneLost(Apply(s, e)) && UsersRun(Apply(s, e))
  {
    var s', c := Apply(s, e), e.c;
    assert PhaseOk(s, s.cpus[c]);
    assert Gentle(s, s', c);
    GentleKeeps(s, s', c);
    HolderIsAlone(s, c);
    UsersRunAfter(s, s', c);
  }

  lemma EnterNewFound(s: State, c: nat)
    requires Found(s) && Proper(s, EnterNew(c))
    ensures NoneLost(Apply(s, EnterNew(c))) && UsersRun(Apply(s, EnterNew(c)))
  {
    var s' := Apply(s, EnterNew(c));
    assert PhaseOk(s, s.cpus[c]);
    HeldMoves(s, s', c);
    EnterNewTable(s, c);
    assert LeavesOnly(s, s', c, Idle);
    NoneLostAfter(s, s', c, Idle);
    UsersRunAfter(s, s', c);
  }

  lemma EnterLinkFound(s: State, c: nat)
    requires Found(s) && Proper(s, EnterLink(c))
    ensures NoneLost(Apply(s, EnterLink(c))) && UsersRun(Apply(s, EnterLink(c)))
  {
    var s', u, k := Apply(s, EnterLink(c)), s.cpus[c].u, s.cpus[c].k;
    assert PhaseOk(s, s.cpus[c]);
    HeldMoves(s, s', c);
    EnterLinkTable(s, c);
    assert LeavesOnly(s, s', c, u);
    assert Partners(s', u, k) && IsHeld(s', k) && PartnerActs(s', u);
    NoneLostAfter(s, s', c, u);
    UsersRunAfter(s, s', c);
  }

  lemma LeaveFound(s: State, e: Event)
    requires Found(s) && Proper(s, e) && (e.LeaveStart? || e.LeaveRun? || e.ForkLoad? || e.ForkStore?)
    ensures NoneLost(Apply(s, e)) && UsersRun(Apply(s, e))
  {
    var s', c := Apply(s, e), e.c;
    assert PhaseOk(s, s.cpus[c]);
    assert Held(s.cpus[c]) in s.procs;
    assert Gentle(s, s', c);
    GentleKeeps(s, s', c);
    HolderIsAlone(s, c);
    UsersRunAfter(s, s', c);
  }

  lemma LeaveBlockFound(s: State, c: nat)
    requires Found(s) && Proper(s, LeaveBlock(c))
    ensures NoneLost(Apply(s, LeaveBlock(c))) && UsersRun(Apply(s, LeaveBlock(c)))
  {
    var s', u, k := Apply(s, LeaveBlock(c)), s.cpus[c].u, s.cpus[c].k;
    assert PhaseOk(s, s.cpus[c]);
    HeldMoves(s, s', c);
    HolderIsAlone(s, c);
    SameTableKeeps(s, s', c);
    assert LeavesOnly(s, s', c, k);
    assert Active(s', u) && forall v :: Partners(s, v, k) ==> v == u;
    NoneLostAfter(s, s', c, k);
    UsersRunAfter(s, s', c);
  }

  lemma ForkNewFound(s: State, c: nat)
    requires Found(s) && Proper(s, ForkNew(c))
    ensures NoneLost(Apply(s, ForkNew(c))) && UsersRun(Apply(s, ForkNew(c)))
  {
    var s' := Apply(s, ForkNew(c));
    ForkNewLeaves(s, c);
    NoneLostAfter(s, s', c, Idle);
    assert User(s.users) !in s.procs;
    UsersRunAfter(s, s', c);
  }

  lemma ForkNewLeaves(s: State, c: nat)
    requires Inv(s) && Enabled(s, ForkNew(c)) && !Race(s, ForkNew(c))
    ensures LeavesOnly(s, Apply(s, ForkNew(c)), c, Idle)
  {
    var s', child := Apply(s, ForkNew(c)), User(s.users);
    ForkNewActive(s, c);
    ForkNewTable(s, c);
    assert s'.cpus[c].InFork? && s'.cpus[c].child == child && IsChild(s', child);
  }

  lemma ForkNewActive(s: State, c: nat)
    requires Counted(s) && Enabled(s, ForkNew(c)) && !Race(s, ForkNew(c))
    ensures forall p :: Active(s, p) ==> Active(Apply(s, ForkNew(c)), p)
  {
    HeldMoves(s, Apply(s, ForkNew(c)), c);
    assert User(s.users) !in s.procs;
  }

  lemma ForkDoneFound(s: State, c: nat)
    requires Found(s) && Proper(s, ForkDone(c))
    ensures NoneLost(Apply(s, ForkDone(c))) && UsersRun(Apply(s, ForkDone(c)))
  {
    var s' := Apply(s, ForkDone(c));
    assert PhaseOk(s, s.cpus[c]);
    HeldMoves(s, s', c);
    SameTableKeeps(s, s', c);
    assert LeavesOnly(s, s', c, Idle);
    NoneLostAfter(s, s', c, Idle);
    UsersRunAfter(s, s', c);
  }

  lemma ExitFound(s: State, c: nat)
    requires Found(s) && Proper(s, Exit(c))
    ensures NoneLost(Apply(s, Exit(c))) && UsersRun(Apply(s, Exit(c)))
  {
    var s', k := Apply(s, Exit(c)), s.cpus[c].p;
    HeldMoves(s, s', c);
    ExitTable(s, c);
    ExitIsAlone(s, c);
    assert LeavesOnly(s, s', c, k);
    assert forall v :: Partners(s, v, k) ==> v == s.procs[k].buddy.value;
    NoneLostAfter(s, s', c, k);
    UsersRunAfter(s, s', c);
  }

  lemma StepFound(s: State, e: Event)
    requires Found(s) && Proper(s, e)
    ensures Found(Apply(s, e))
  {
    StepKeeps(s, e);
    match e
    case StopSwitched(c) => StopSwitchedFound(s, c);
    case TestTicked(c) => TestTickedFound(s, c);
    case Look(c, next) => LookFound(s, c, next);
    case EnterNew(c) => EnterNewFound(s, c);
    case EnterLink(c) => EnterLinkFound(s, c);
    case LeaveBlock(c) => LeaveBlockFound(s, c);
    case ForkNew(c) => ForkNewFound(s, c);
    case ForkDone(c) => ForkDoneFound(s, c);
    case Exit(c) => ExitFound(s, c);
    case _ =>
      if e.EnterLoad? || e.EnterStore? || e.EnterOld? || e.EnterBlock? { EnterFound(s, e); }
      else if e.LeaveStart? || e.LeaveRun? || e.ForkLoad? || e.ForkStore? { LeaveFound(s, e); }
      else { TickedFound(s, e); }
  }

  /** A drop loses the user process of the partner that it takes the processor from. */
  lemma DropLoses(s: State, e: Event)
    requires Inv(s) && Enabled(s, e) && Drops(s, e)
    ensures !NoneLost(Apply(s, e))
  {
    var s', c, k := Apply(s, e), e.c, s.cpus[e.c].p;
    var u := s.procs[k].buddy.value;
    HeldMoves(s, s', c);
    HolderIsAlone(s, c);
    assert Partners(s, u, k) && IsHeld(s, k) && Active(s, k) && !Active(s', k);
    assert !Active(s, u) && !Active(s', u);
    forall b | Partners(s', u, b) ensures !Active(s', b) { OnePartner(s, u, k, b); }
    forall d | 0 <= d < |s.cpus| && s.cpus[d].InFork? ensures s.cpus[d].child != u {
      assert PhaseOk(s, s.cpus[d]);
      NoPartnerOfChild(s, s.cpus[d].child, k);
    }
    assert !GoesOn(s', u);
  }

  // ----- Whole runs -----

  ghost predicate NeverLost(s: State, es: seq<Event>)
    requires CanRun(s, es)
    decreases |es|
  {
    NoneLost(s) && (es == [] || NeverLost(Apply(s, es[0]), es[1..]))
  }

  predicate DropFree(s: State, es: seq<Event>)
    requires CanRun(s, es)
    decreases |es|
  {
    es == [] || (!Drops(s, es[0]) && DropFree(Apply(s, es[0]), es[1..]))
  }

  lemma {:induction false} LostExactly(s: State, es: seq<Event>)
    requires Found(s) && CanRun(s, es) && RaceFree(s, es)
    ensures NeverLost(s, es) <==> DropFree(s, es)
    decreases |es|
  {
    if es != [] {
      if Drops(s, es[0]) {
        DropLoses(s, es[0]);
      } else {
        StepFound(s, es[0]);
        LostExactly(Apply(s, es[0]), es[1..]);
      }
    }
  }

  lemma BootedFound(s: State)
    requires Booted(s)
    ensures Found(s)
  {
    BootedInv(s);
    assert Held(s.cpus[0]) == User(1) && IsHeld(s, User(1));
  }

  /** From boot, on any number of processors, a run without a race keeps every user process going exactly if no tick
      takes the processor from a kernel partner in state blocked. */
  lemma NoneLostExactly(s: State, es: seq<Event>)
    requires Booted(s) && CanRun(s, es) && RaceFree(s, es)
    ensures NeverLost(s, es) <==> DropFree(s, es)
  {
    BootedFound(s);
    LostExactly(s, es);
  }

  // ----- Which ticks are harmless -----

  /** No tick hits the kernel partner of a user process. */
  predicate TicksSpare(s: State, es: seq<Event>)
    requires CanRun(s, es)
    decreases |es|
  {
    es == [] || ((es[0].Tick? ==> !HasUser(s, s.cpus[es[0].c].p)) && TicksSpare(Apply(s, es[0]), es[1..]))
  }

  /** k has ever worked for a user process. */
  predicate HasUser(s: State, k: Pid) { k.Kern? && k in s.procs && s.procs[k].buddy.Some? }

  ghost predicate NoPartnerTicked(s: State) {
    forall c :: 0 <= c < |s.cpus| && s.cpus[c].Ticked? ==> !HasUser(s, s.cpus[c].p)
  }

  lemma SparedStep(s: State, e: Event)
    requires Inv(s) && NoPartnerTicked(s) && Enabled(s, e) && !Race(s, e)
    requires e.Tick? ==> !HasUser(s, s.cpus[e.c].p)
    ensures !Drops(s, e) && NoPartnerTicked(Apply(s, e))
  {
    LinksStay(s, e);
    NewlyTicked(s, e);
    SparedAfter(s, Apply(s, e), e.c);
  }

  lemma SparedAfter(s: State, s': State, c: nat)
    requires Exclusive(s) && NoPartnerTicked(s) && Moved(s, s', c)
    requires forall k :: k in s.procs && HasUser(s', k) ==> HasUser(s, k)
    requires s'.cpus[c].Ticked? ==>
               var p := s'.cpus[c].p; p == Idle || (p == Held(s.cpus[c]) && !HasUser(s, p))
    ensures NoPartnerTicked(s')
  {
    forall d | 0 <= d < |s'.cpus| && s'.cpus[d].Ticked? ensures !HasUser(s', s'.cpus[d].p) {
      assert Held(s.cpus[d]) != Idle ==> Held(s.cpus[d]) in s.procs;
    }
  }

  lemma NewlyTicked(s: State, e: Event)
    requires Enabled(s, e)
    ensures var s' := Apply(s, e);
            && Moved(s, s', e.c)
            && (s'.cpus[e.c].Ticked? ==> s'.cpus[e.c] == Ticked(Idle) || (e.Tick? && s'.cpus[e.c].p == s.cpus[e.c].p))
  {}

  /** No kernel process that exists gets a link. */
  lemma LinksStay(s: State, e: Event)
    requires Inv(s) && Enabled(s, e) && !Race(s, e)
    ensures forall k :: k in s.procs && HasUser(Apply(s, e), k) ==> HasUser(s, k)
  {
    if e.EnterLink? { assert PhaseOk(s, s.cpus[e.c]); }
  }

  /** If timer ticks hit user processes and the do-nothing process only, as they do while interrupts are off in the
      kernel, no user process is ever lost. */
  lemma {:induction false} SparedNeverLost(s: State, es: seq<Event>)
    requires Found(s) && NoPartnerTicked(s) && CanRun(s, es) && RaceFree(s, es) && TicksSpare(s, es)
    ensures NeverLost(s, es)
    decreases |es|
  {
    if es != [] {
      SparedStep(s, es[0]);
      StepFound(s, es[0]);
      SparedNeverLost(Apply(s, es[0]), es[1..]);
    }
  }

  // ----- A process is lost -----

  /** Wherever a user process makes a further system call, one tick in it loses the process. */
  lemma TickLoses(s0: State, s: State, c: nat) returns (t: State)
    requires Reaches(s0, s) && CanReenter(s, c) && IsState(s, s.procs[s.cpus[c].p].buddy.value, Blocked)
    ensures Reaches(s0, t) && Enabled(t, TestTicked(c)) && Drops(t, TestTicked(c))
  {
    EntersAgain(s0, s, c);
    var s1 := AfterReenter(s, c);
    t := Apply(s1, Tick(c));
    Reach(s0, s1, Tick(c), t);
  }

  /** With one processor a run from boot loses the only process. */
  lemma ReachesLost(s: State) returns (t: State)
    requires Booted(s) && |s.cpus| == 1
    ensures Reaches(s, t) && Enabled(t, TestTicked(0)) && Drops(t, TestTicked(0))
  {
    ReachesItself(s);
    Enters(s, s, 0);
    var s1 := AfterEnter(s, 0, User(1));
    Leaves(s, s1, 0);
    t := TickLoses(s, AfterLeave(s1, 0), 0);
  }
}
