/** Whole runs of the process state protocol: they are safe exactly if no step races. */
module ProtocolRun {
  import opened Common
  import opened Protocol

  predicate CanRun(s: State, es: seq<Event>)
    decreases |es|
  {
    es == [] || (Enabled(s, es[0]) && CanRun(Apply(s, es[0]), es[1..]))
  }

  function Run(s: State, es: seq<Event>): State
    requires CanRun(s, es)
    decreases |es|
  {
    if es == [] then s else Run(Apply(s, es[0]), es[1..])
  }

  /** Every state on the way, first and last included, is safe. */
  ghost predicate AlwaysSafe(s: State, es: seq<Event>)
    requires CanRun(s, es)
    decreases |es|
  {
    Safe(s) && (es == [] || AlwaysSafe(Apply(s, es[0]), es[1..]))
  }

  ghost predicate RaceFree(s: State, es: seq<Event>)
    requires CanRun(s, es)
    decreases |es|
  {
    es == [] || (!Race(s, es[0]) && RaceFree(Apply(s, es[0]), es[1..]))
  }

  /** After boot: the first user process runs on processor 0, the do-nothing kernel process
      made before it may be picked, the other processors are parked. */
  predicate Booted(s: State) {
    && |s.cpus| > 0 && s.cpus[0] == Exec(User(1))
    && (forall c :: 0 < c < |s.cpus| ==> s.cpus[c] == Exec(Idle))
    && s.procs == map[User(1) := Proc(Running, None), Kern(1) := Proc(Stopped, None)]
    && s.users == 1 && s.kerns == 1 && s.given == {User(1), Kern(1)}
  }

  lemma BootedInv(s: State)
    requires Booted(s)
    ensures Inv(s)
  {
    assert forall u, k :: !Partners(s, u, k);
  }

  lemma {:induction false} RunExact(s: State, es: seq<Event>)
    requires Inv(s) && CanRun(s, es)
    ensures AlwaysSafe(s, es) <==> RaceFree(s, es)
    ensures RaceFree(s, es) ==> Inv(Run(s, es))
    decreases |es|
  {
    if es != [] {
      StepExact(s, es[0]);
      if !Race(s, es[0]) {
        StepKeeps(s, es[0]);
        RunExact(Apply(s, es[0]), es[1..]);
      } else {
        assert !Safe(Apply(s, es[0]));
      }
    }
  }

  /** From boot, over any number of processors and any interleaving: no process is ever held twice, no pair is ever
      active together, no kernel process is active without its user process, and no pid is given twice, exactly in
      the runs without a race. */
  lemma SafeExactlyWithoutRace(s: State, es: seq<Event>)
    requires Booted(s) && CanRun(s, es)
    ensures AlwaysSafe(s, es) <==> RaceFree(s, es)
  {
    BootedInv(s);
    RunExact(s, es);
  }

  /** The counters are at or above every pid given, and above while a processor is about to take one. */
  ghost predicate Ahead(s: State, cpu: Cpu) {
    && (forall n: nat :: Kern(n) in s.given ==> n < s.kerns || (n == s.kerns && !cpu.Stored?))
    && (forall n: nat :: User(n) in s.given ==> n < s.users || (n == s.users && !cpu.ForkStored?))
    && (cpu.Loaded? ==> cpu.n == s.kerns) && (cpu.ForkLoaded? ==> cpu.n == s.users)
  }

  /** With one processor nothing can happen to a process that has just been given away, or to a counter. */
  ghost predicate Undisturbed(s: State) {
    && |s.cpus| == 1 && !s.cpus[0].Stopping? && (s.cpus[0].Switched? ==> IsState(s, s.cpus[0].p, Stopped))
    && Ahead(s, s.cpus[0])
  }

  lemma UndisturbedStep(s: State, e: Event)
    requires Undisturbed(s) && Inv(s) && Enabled(s, e)
    ensures !Race(s, e) && Undisturbed(Apply(s, e))
  {
    assert PhaseOk(s, s.cpus[0]);
    assert Held(s.cpus[0]) != Idle ==> Held(s.cpus[0]) in s.procs;
    AheadStep(s, e);
  }

  lemma AheadStep(s: State, e: Event)
    requires |s.cpus| == 1 && Enabled(s, e) && Ahead(s, s.cpus[0])
    ensures !PidRace(s, e) && Ahead(Apply(s, e), Apply(s, e).cpus[0])
  {}

  lemma {:induction false} OneCpuRaceFree(s: State, es: seq<Event>)
    requires Undisturbed(s) && Inv(s) && CanRun(s, es)
    ensures RaceFree(s, es)
    decreases |es|
  {
    if es != [] {
      UndisturbedStep(s, es[0]);
      StepKeeps(s, es[0]);
      OneCpuRaceFree(Apply(s, es[0]), es[1..]);
    }
  }

  lemma OneCpuSafe(s: State, es: seq<Event>)
    requires Booted(s) && |s.cpus| == 1 && CanRun(s, es)
    ensures AlwaysSafe(s, es)
  {
    BootedInv(s);
    OneCpuRaceFree(s, es);
    RunExact(s, es);
  }

  ghost predicate NoneSwitched(s: State) {
    forall c :: 0 <= c < |s.cpus| ==> !s.cpus[c].Switched? && !s.cpus[c].Stopping?
  }

  ghost predicate PidsApart(s: State, es: seq<Event>)
    requires CanRun(s, es)
    decreases |es|
  {
    es == [] || (!PidRace(s, es[0]) && PidsApart(Apply(s, es[0]), es[1..]))
  }

  /** On any number of processors a run in which no kernel process gives up the processor by itself is safe exactly
      if no pid is taken twice: timer ticks, system calls and exits do not race. */
  lemma {:induction false} SafeWithoutSwitch(s: State, es: seq<Event>)
    requires Inv(s) && NoneSwitched(s) && CanRun(s, es)
    requires forall i :: 0 <= i < |es| ==> !es[i].Switch?
    ensures AlwaysSafe(s, es) <==> PidsApart(s, es)
    decreases |es|
  {
    if es != [] {
      assert !es[0].Switch?;
      StepExact(s, es[0]);
      if !PidRace(s, es[0]) {
        StepKeeps(s, es[0]);
        SafeWithoutSwitch(Apply(s, es[0]), es[1..]);
      }
    }
  }

  // ----- The race happens -----

  ghost predicate Reaches(s: State, t: State) {
    exists es :: CanRun(s, es) && Run(s, es) == t
  }

  lemma {:induction false} RunOneMore(s: State, es: seq<Event>, e: Event)
    requires CanRun(s, es) && Enabled(Run(s, es), e)
    ensures CanRun(s, es + [e]) && Run(s, es + [e]) == Apply(Run(s, es), e)
    decreases |es|
  {
    if es == [] {
      assert es + [e] == [e];
      assert Run(Apply(s, e), []) == Apply(s, e);
    } else {
      assert (es + [e])[1..] == es[1..] + [e];
      RunOneMore(Apply(s, es[0]), es[1..], e);
    }
  }

  lemma Reach(s: State, t: State, e: Event, t': State)
    requires Reaches(s, t) && Enabled(t, e) && Apply(t, e) == t'
    ensures Reaches(s, t')
  {
    var es :| CanRun(s, es) && Run(s, es) == t;
    RunOneMore(s, es, e);
  }

  lemma ReachesItself(s: State)
    ensures Reaches(s, s)
  {
    assert CanRun(s, []) && Run(s, []) == s;
  }

  /** The state in which the partner k of u, made under the next pid, has the processor. */
  function AfterEnter(s: State, c: nat, u: Pid): State
    requires c < |s.cpus|
  {
    var k := Kern(s.kerns + 1);
    s.(procs := s.procs[k := Proc(Running, Some(u))][u := Proc(Blocked, Some(k))], cpus := s.cpus[c := Exec(k)],
       kerns := s.kerns + 1, given := s.given + {k})
  }

  /** A first system call, with nothing in between. */
  lemma Enters(s0: State, s: State, c: nat)
    requires Reaches(s0, s) && Enabled(s, EnterLoad(c)) && Kern(s.kerns + 1) !in s.given
    ensures Reaches(s0, AfterEnter(s, c, s.cpus[c].p))
  {
    var s2 := EntersBlocked(s0, s, c);
    Reach(s0, s2, EnterLink(c), AfterEnter(s, c, s.cpus[c].p));
  }

  lemma EntersBlocked(s0: State, s: State, c: nat) returns (t: State)
    requires Reaches(s0, s) && Enabled(s, EnterLoad(c)) && Kern(s.kerns + 1) !in s.given
    ensures Reaches(s0, t)
    ensures var u, k := s.cpus[c].p, Kern(s.kerns + 1);
            t == s.(procs := s.procs[k := Proc(Running, Some(u))][u := Proc(Blocked, None)],
                    cpus := s.cpus[c := Entered(u, k)], kerns := s.kerns + 1, given := s.given + {k})
  {
    var s1 := EntersMade(s0, s, c);
    t := Apply(s1, EnterBlock(c));
    Reach(s0, s1, EnterBlock(c), t);
  }

  lemma EntersCounted(s0: State, s: State, c: nat) returns (t: State)
    requires Reaches(s0, s) && Enabled(s, EnterLoad(c))
    ensures Reaches(s0, t) && t == s.(cpus := s.cpus[c := Stored(s.cpus[c].p)], kerns := s.kerns + 1)
  {
    var s1 := Apply(s, EnterLoad(c));
    Reach(s0, s, EnterLoad(c), s1);
    t := Apply(s1, EnterStore(c));
    Reach(s0, s1, EnterStore(c), t);
  }

  lemma EntersMade(s0: State, s: State, c: nat) returns (t: State)
    requires Reaches(s0, s) && Enabled(s, EnterLoad(c)) && Kern(s.kerns + 1) !in s.given
    ensures Reaches(s0, t)
    ensures var u, k := s.cpus[c].p, Kern(s.kerns + 1);
            t == s.(procs := s.procs[k := Proc(Running, Some(u))], cpus := s.cpus[c := Entry(u, k)],
                    kerns := s.kerns + 1, given := s.given + {k})
  {
    var s2 := EntersCounted(s0, s, c);
    t := Apply(s2, EnterNew(c));
    Reach(s0, s2, EnterNew(c), t);
  }

  /** The state after the kernel process of processor c has gone back to its user process. */
  function AfterLeave(s: State, c: nat): State
    requires c < |s.cpus| && s.cpus[c].Exec? && KernelWithUser(s, s.cpus[c].p)
  {
    var k := s.cpus[c].p;
    var u := s.procs[k].buddy.value;
    s.(procs := s.procs[k := s.procs[k].(state := Blocked)][u := s.procs[u].(state := Running)],
       cpus := s.cpus[c := Exec(u)])
  }

  lemma Leaves(s0: State, s: State, c: nat)
    requires Reaches(s0, s) && Enabled(s, LeaveStart(c)) && s.procs[s.cpus[c].p].buddy.value.User?
    ensures Reaches(s0, AfterLeave(s, c))
  {
    var s1 := Apply(s, LeaveStart(c));
    Reach(s0, s, LeaveStart(c), s1);
    var s2 := Apply(s1, LeaveBlock(c));
    Reach(s0, s1, LeaveBlock(c), s2);
    Reach(s0, s2, LeaveRun(c), AfterLeave(s, c));
  }

  /** Processor c executes a user process that has a partner. */
  predicate CanReenter(s: State, c: nat) {
    && c < |s.cpus| && s.cpus[c].Exec? && s.cpus[c].p in s.procs && s.procs[s.cpus[c].p].buddy.Some?
    && Partners(s, s.cpus[c].p, s.procs[s.cpus[c].p].buddy.value)
  }

  /** The state after a further system call, which leaves the state of the partner as it was. */
  function AfterReenter(s: State, c: nat): State
    requires CanReenter(s, c)
  {
    var u := s.cpus[c].p;
    s.(procs := s.procs[u := s.procs[u].(state := Blocked)], cpus := s.cpus[c := Exec(s.procs[u].buddy.value)])
  }

  lemma EntersAgain(s0: State, s: State, c: nat)
    requires Reaches(s0, s) && CanReenter(s, c)
    ensures Reaches(s0, AfterReenter(s, c))
  {
    var s1 := Apply(s, EnterOld(c));
    Reach(s0, s, EnterOld(c), s1);
    var s2 := Apply(s1, EnterBlock(c));
    Reach(s0, s1, EnterBlock(c), s2);
    Reach(s0, s2, EnterLink(c), AfterReenter(s, c));
  }

  const WAITING := Proc(Blocked, Some(Kern(2)))

  function TwoCpus(user: Proc, partner: RunState, first: Cpu, second: Cpu): State {
    State(map[User(1) := user, Kern(1) := Proc(Stopped, None), Kern(2) := Proc(partner, Some(User(1)))],
          [first, second], 1, 2, {User(1), Kern(1), Kern(2)})
  }

  /** Process 1 makes a system call. */
  lemma FirstCall(s: State)
    requires Booted(s) && |s.cpus| == 2
    ensures Reaches(s, TwoCpus(WAITING, Running, Exec(Kern(2)), Exec(Idle)))
  {
    ReachesItself(s);
    Enters(s, s, 0);
    assert AfterEnter(s, 0, User(1)) == TwoCpus(WAITING, Running, Exec(Kern(2)), Exec(Idle));
  }

  /** Its kernel partner gives up processor 0. */
  lemma PartnerGivesUp(s: State)
    requires Reaches(s, TwoCpus(WAITING, Running, Exec(Kern(2)), Exec(Idle)))
    ensures Reaches(s, TwoCpus(WAITING, Stopped, Switched(Kern(2)), Exec(Idle)))
  {
    Reach(s, TwoCpus(WAITING, Running, Exec(Kern(2)), Exec(Idle)), Switch(0),
          TwoCpus(WAITING, Stopped, Switched(Kern(2)), Exec(Idle)));
  }

  lemma OtherCpuTicks(s: State)
    requires Reaches(s, TwoCpus(WAITING, Stopped, Switched(Kern(2)), Exec(Idle)))
    ensures Reaches(s, TwoCpus(WAITING, Stopped, Switched(Kern(2)), Search(Idle)))
  {
    var s0 := TwoCpus(WAITING, Stopped, Switched(Kern(2)), Exec(Idle));
    var s1 := TwoCpus(WAITING, Stopped, Switched(Kern(2)), Ticked(Idle));
    Reach(s, s0, Tick(1), s1);
    Reach(s, s1, TestTicked(1), TwoCpus(WAITING, Stopped, Switched(Kern(2)), Search(Idle)));
  }

  /** Processor 1 picks the partner up. */
  lemma OtherCpuPicks(s: State)
    requires Reaches(s, TwoCpus(WAITING, Stopped, Switched(Kern(2)), Search(Idle)))
    ensures Reaches(s, TwoCpus(WAITING, Running, Switched(Kern(2)), Exec(Kern(2))))
  {
    var s2 := TwoCpus(WAITING, Stopped, Switched(Kern(2)), Search(Idle));
    var s3 := TwoCpus(WAITING, Stopped, Switched(Kern(2)), Search(User(1)));
    Reach(s, s2, Look(1, User(1)), s3);
    Reach(s, s3, Look(1, Kern(2)), TwoCpus(WAITING, Running, Switched(Kern(2)), Exec(Kern(2))));
  }

  /** Processor 0, still in its schedule(), finds the partner running and stops it. */
  lemma FirstCpuStops(s: State)
    requires Reaches(s, TwoCpus(WAITING, Running, Switched(Kern(2)), Exec(Kern(2))))
    ensures Race(TwoCpus(WAITING, Running, Stopping(Kern(2)), Exec(Kern(2))), StopSwitched(0))
    ensures Reaches(s, TwoCpus(WAITING, Stopped, Search(Kern(2)), Exec(Kern(2))))
  {
    var s0 := TwoCpus(WAITING, Running, Switched(Kern(2)), Exec(Kern(2)));
    var s1 := TwoCpus(WAITING, Running, Stopping(Kern(2)), Exec(Kern(2)));
    Reach(s, s0, TestSwitched(0), s1);
    assert Held(s1.cpus[1]) == Kern(2);
    Reach(s, s1, StopSwitched(0), TwoCpus(WAITING, Stopped, Search(Kern(2)), Exec(Kern(2))));
  }

  const NOTHING_RUNS := map[User(1) := WAITING, Kern(1) := Proc(Running, None), Kern(2) := Proc(Stopped, Some(User(1)))]

  /** Processor 0 runs the do-nothing process. */
  lemma FirstCpuRuns(s: State)
    requires Reaches(s, TwoCpus(WAITING, Stopped, Search(Kern(2)), Exec(Kern(2))))
    ensures Reaches(s, State(NOTHING_RUNS, [Exec(Kern(1)), Exec(Kern(2))], 1, 2, {User(1), Kern(1), Kern(2)}))
  {
    Reach(s, TwoCpus(WAITING, Stopped, Search(Kern(2)), Exec(Kern(2))), Look(0, Kern(1)),
          State(NOTHING_RUNS, [Exec(Kern(1)), Exec(Kern(2))], 1, 2, {User(1), Kern(1), Kern(2)}));
  }

  /** After one tick it is ready to search again. */
  lemma FirstCpuTicks(s: State)
    requires Reaches(s, State(NOTHING_RUNS, [Exec(Kern(1)), Exec(Kern(2))], 1, 2, {User(1), Kern(1), Kern(2)}))
    ensures Reaches(s, TwoCpus(WAITING, Stopped, Search(Kern(1)), Exec(Kern(2))))
  {
    var s2 := State(NOTHING_RUNS, [Exec(Kern(1)), Exec(Kern(2))], 1, 2, {User(1), Kern(1), Kern(2)});
    var s3 := s2.(cpus := [Ticked(Kern(1)), Exec(Kern(2))]);
    Reach(s, s2, Tick(0), s3);
    var s4 := s2.(cpus := [TickStop(Kern(1)), Exec(Kern(2))]);
    Reach(s, s3, TestTicked(0), s4);
    Reach(s, s4, StopTicked(0), TwoCpus(WAITING, Stopped, Search(Kern(1)), Exec(Kern(2))));
  }

  lemma FirstCpuSearches(s: State)
    requires Reaches(s, TwoCpus(WAITING, Stopped, Search(Kern(1)), Exec(Kern(2))))
    ensures Reaches(s, TwoCpus(WAITING, Stopped, Search(User(1)), Exec(Kern(2))))
  {
    var s0 := TwoCpus(WAITING, Stopped, Search(Kern(1)), Exec(Kern(2)));
    var s1 := s0.(cpus := [Search(Idle), Exec(Kern(2))]);
    Reach(s, s0, Look(0, Idle), s1);
    Reach(s, s1, Look(0, User(1)), s0.(cpus := [Search(User(1)), Exec(Kern(2))]));
  }

  /** Processor 0 finds the partner marked stopped and picks it up as well. */
  lemma FirstCpuPicks(s: State)
    requires Reaches(s, TwoCpus(WAITING, Stopped, Search(User(1)), Exec(Kern(2))))
    ensures Reaches(s, TwoCpus(WAITING, Running, Exec(Kern(2)), Exec(Kern(2))))
  {
    Reach(s, TwoCpus(WAITING, Stopped, Search(User(1)), Exec(Kern(2))), Look(0, Kern(2)),
          TwoCpus(WAITING, Running, Exec(Kern(2)), Exec(Kern(2))));
  }

  /** With two processors a run from boot ends with both executing the same kernel process. */
  lemma RaceReachesDoubleExecution(s: State)
    requires Booted(s) && |s.cpus| == 2
    ensures Reaches(s, TwoCpus(WAITING, Running, Exec(Kern(2)), Exec(Kern(2))))
  {
    FirstCall(s);
    PartnerGivesUp(s);
    OtherCpuTicks(s);
    OtherCpuPicks(s);
    FirstCpuStops(s);
    FirstCpuRuns(s);
    FirstCpuTicks(s);
    FirstCpuSearches(s);
    FirstCpuPicks(s);
  }

  // ----- A pid is given twice -----

  /** The state after two processors have read the same user pid counter and written it back. */
  function BothStored(s: State, c: nat, d: nat): State
    requires c < |s.cpus| && d < |s.cpus| && s.cpus[c].Exec? && s.cpus[d].Exec?
  {
    s.(cpus := s.cpus[c := ForkStored(s.cpus[c].p)][d := ForkStored(s.cpus[d].p)], users := s.users + 1)
  }

  lemma BothCount(s0: State, s: State, c: nat, d: nat)
    requires Reaches(s0, s) && c != d && Enabled(s, ForkLoad(c)) && Enabled(s, ForkLoad(d))
    ensures Reaches(s0, BothStored(s, c, d))
  {
    var s1 := Apply(s, ForkLoad(c));
    Reach(s0, s, ForkLoad(c), s1);
    var s2 := Apply(s1, ForkLoad(d));
    Reach(s0, s1, ForkLoad(d), s2);
    var s3 := Apply(s2, ForkStore(c));
    Reach(s0, s2, ForkStore(c), s3);
    Reach(s0, s3, ForkStore(d), BothStored(s, c, d));
  }

  /** Wherever two processors can fork, they can end up with the same pid for the two children. */
  lemma TwoForkOnePid(s0: State, s: State, c: nat, d: nat) returns (t: State)
    requires Reaches(s0, s) && c != d && Enabled(s, ForkLoad(c)) && Enabled(s, ForkLoad(d))
    ensures Reaches(s0, t) && Enabled(t, ForkNew(d)) && PidRace(t, ForkNew(d))
  {
    BothCount(s0, s, c, d);
    var s4 := BothStored(s, c, d);
    t := Apply(s4, ForkNew(c));
    Reach(s0, s4, ForkNew(c), t);
  }

  /** The state after processor c has forked. */
  function AfterFork(s: State): State {
    var child := User(s.users + 1);
    s.(procs := s.procs[child := Proc(Stopped, None)], users := s.users + 1, given := s.given + {child})
  }

  lemma Forks(s0: State, s: State, c: nat)
    requires Reaches(s0, s) && Enabled(s, ForkLoad(c)) && User(s.users + 1) !in s.given
    ensures Reaches(s0, AfterFork(s))
  {
    var s3 := ForksMade(s0, s, c);
    assert s.cpus[c := s.cpus[c]] == s.cpus;
    Reach(s0, s3, ForkDone(c), AfterFork(s));
  }

  lemma ForksCounted(s0: State, s: State, c: nat) returns (t: State)
    requires Reaches(s0, s) && Enabled(s, ForkLoad(c))
    ensures Reaches(s0, t) && t == s.(cpus := s.cpus[c := ForkStored(s.cpus[c].p)], users := s.users + 1)
  {
    var s1 := Apply(s, ForkLoad(c));
    Reach(s0, s, ForkLoad(c), s1);
    t := Apply(s1, ForkStore(c));
    Reach(s0, s1, ForkStore(c), t);
  }

  lemma ForksMade(s0: State, s: State, c: nat) returns (t: State)
    requires Reaches(s0, s) && Enabled(s, ForkLoad(c)) && User(s.users + 1) !in s.given
    ensures Reaches(s0, t)
    ensures var child := User(s.users + 1);
            t == s.(procs := s.procs[child := Proc(Running, None)], cpus := s.cpus[c := InFork(s.cpus[c].p, child)],
                    users := s.users + 1, given := s.given + {child})
  {
    var s2 := ForksCounted(s0, s, c);
    t := Apply(s2, ForkNew(c));
    Reach(s0, s2, ForkNew(c), t);
  }

  /** Process 1 is in the kernel on processor 0, and has one child, process 2. */
  function WithChild(child: RunState, second: Cpu): State {
    State(map[User(1) := WAITING, Kern(1) := Proc(Stopped, None), Kern(2) := Proc(Running, Some(User(1))),
              User(2) := Proc(child, None)],
          [Exec(Kern(2)), second], 2, 2, {User(1), Kern(1), Kern(2), User(2)})
  }

  lemma FirstFork(s: State)
    requires Reaches(s, TwoCpus(WAITING, Running, Exec(Kern(2)), Exec(Idle)))
    ensures Reaches(s, WithChild(Stopped, Exec(Idle)))
  {
    var s1 := TwoCpus(WAITING, Running, Exec(Kern(2)), Exec(Idle));
    Forks(s, s1, 0);
    assert AfterFork(s1) == WithChild(Stopped, Exec(Idle));
  }

  lemma ChildSearched(s: State)
    requires Reaches(s, WithChild(Stopped, Exec(Idle)))
    ensures Reaches(s, WithChild(Stopped, Search(Idle)))
  {
    Reach(s, WithChild(Stopped, Exec(Idle)), Tick(1), WithChild(Stopped, Ticked(Idle)));
    Reach(s, WithChild(Stopped, Ticked(Idle)), TestTicked(1), WithChild(Stopped, Search(Idle)));
  }

  lemma ChildRuns(s: State)
    requires Reaches(s, WithChild(Stopped, Search(Idle)))
    ensures Reaches(s, WithChild(Running, Exec(User(2))))
  {
    Reach(s, WithChild(Stopped, Search(Idle)), Look(1, User(1)), WithChild(Stopped, Search(User(1))));
    Reach(s, WithChild(Stopped, Search(User(1))), Look(1, User(2)), WithChild(Running, Exec(User(2))));
  }

  /** Process 1 forks, and processor 1 executes the child. */
  lemma ChildExecutes(s: State)
    requires Booted(s) && |s.cpus| == 2
    ensures Reaches(s, WithChild(Running, Exec(User(2))))
  {
    FirstCall(s);
    FirstFork(s);
    ChildSearched(s);
    ChildRuns(s);
  }

  /** With two processors a run from boot gives one pid twice. */
  lemma ReachesRepeatedPid(s: State) returns (t: State)
    requires Booted(s) && |s.cpus| == 2
    ensures Reaches(s, t) && Enabled(t, ForkNew(1)) && PidRace(t, ForkNew(1))
  {
    ChildExecutes(s);
    var s1 := WithChild(Running, Exec(User(2)));
    Enters(s, s1, 1);
    t := TwoForkOnePid(s, AfterEnter(s1, 1, User(2)), 0, 1);
  }

  // ----- A kernel process is revived without its user process -----

  /** Process 1 with partner -2, and its child 2 with partner -3. */
  function TwoPairs(user: RunState, partner: RunState, user': RunState, partner': RunState,
                    first: Cpu, second: Cpu): State {
    State(map[User(1) := Proc(user, Some(Kern(2))), Kern(1) := Proc(Stopped, None),
              Kern(2) := Proc(partner, Some(User(1))), User(2) := Proc(user', Some(Kern(3))),
              Kern(3) := Proc(partner', Some(User(2)))],
          [first, second], 2, 3, {User(1), Kern(1), Kern(2), User(2), Kern(3)})
  }

  /** Both processes are in the kernel, and the partner of process 2 gives up processor 1. */
  lemma ChildGivesUp(s: State)
    requires Reaches(s, WithChild(Running, Exec(User(2))))
    ensures Reaches(s, TwoPairs(Blocked, Running, Blocked, Stopped, Exec(Kern(2)), Switched(Kern(3))))
  {
    var s0 := WithChild(Running, Exec(User(2)));
    Enters(s, s0, 1);
    var s1 := TwoPairs(Blocked, Running, Blocked, Running, Exec(Kern(2)), Exec(Kern(3)));
    assert AfterEnter(s0, 1, User(2)) == s1;
    Reach(s, s1, Switch(1), TwoPairs(Blocked, Running, Blocked, Stopped, Exec(Kern(2)), Switched(Kern(3))));
  }

  /** Process 1 leaves the kernel. */
  lemma ParentLeaves(s: State)
    requires Reaches(s, TwoPairs(Blocked, Running, Blocked, Stopped, Exec(Kern(2)), Switched(Kern(3))))
    ensures Reaches(s, TwoPairs(Running, Blocked, Blocked, Stopped, Exec(User(1)), Switched(Kern(3))))
  {
    var s1 := TwoPairs(Blocked, Running, Blocked, Stopped, Exec(Kern(2)), Switched(Kern(3)));
    Leaves(s, s1, 0);
    assert AfterLeave(s1, 0) == TwoPairs(Running, Blocked, Blocked, Stopped, Exec(User(1)), Switched(Kern(3)));
  }

  /** A tick takes processor 0 from it. */
  lemma ParentTicked(s: State)
    requires Reaches(s, TwoPairs(Running, Blocked, Blocked, Stopped, Exec(User(1)), Switched(Kern(3))))
    ensures Reaches(s, TwoPairs(Running, Blocked, Blocked, Stopped, TickStop(User(1)), Switched(Kern(3))))
  {
    var s1 := TwoPairs(Running, Blocked, Blocked, Stopped, Exec(User(1)), Switched(Kern(3)));
    var s2 := TwoPairs(Running, Blocked, Blocked, Stopped, Ticked(User(1)), Switched(Kern(3)));
    Reach(s, s1, Tick(0), s2);
    Reach(s, s2, TestTicked(0), TwoPairs(Running, Blocked, Blocked, Stopped, TickStop(User(1)), Switched(Kern(3))));
  }

  lemma ParentStops(s: State)
    requires Reaches(s, TwoPairs(Running, Blocked, Blocked, Stopped, TickStop(User(1)), Switched(Kern(3))))
    ensures Reaches(s, TwoPairs(Stopped, Blocked, Blocked, Stopped, Search(User(1)), Switched(Kern(3))))
  {
    var s1 := TwoPairs(Running, Blocked, Blocked, Stopped, TickStop(User(1)), Switched(Kern(3)));
    Reach(s, s1, StopTicked(0), TwoPairs(Stopped, Blocked, Blocked, Stopped, Search(User(1)), Switched(Kern(3))));
  }

  /** Processor 0 picks up the partner of process 2. */
  lemma PartnerPicked(s: State)
    requires Reaches(s, TwoPairs(Stopped, Blocked, Blocked, Stopped, Search(User(1)), Switched(Kern(3))))
    ensures Reaches(s, TwoPairs(Stopped, Blocked, Blocked, Running, Exec(Kern(3)), Switched(Kern(3))))
  {
    var s1 := TwoPairs(Stopped, Blocked, Blocked, Stopped, Search(User(1)), Switched(Kern(3)));
    var s2 := TwoPairs(Stopped, Blocked, Blocked, Stopped, Search(User(2)), Switched(Kern(3)));
    Reach(s, s1, Look(0, User(2)), s2);
    Reach(s, s2, Look(0, Kern(3)), TwoPairs(Stopped, Blocked, Blocked, Running, Exec(Kern(3)), Switched(Kern(3))));
  }

  /** Processor 1 finds it running, and process 2 goes on to its next system call. */
  lemma ChildReenters(s: State)
    requires Reaches(s, TwoPairs(Stopped, Blocked, Blocked, Running, Exec(Kern(3)), Switched(Kern(3))))
    ensures Reaches(s, TwoPairs(Stopped, Blocked, Blocked, Blocked, Exec(Kern(3)), Stopping(Kern(3))))
  {
    var s1 := TwoPairs(Stopped, Blocked, Blocked, Running, Exec(Kern(3)), Switched(Kern(3)));
    var s2 := TwoPairs(Stopped, Blocked, Blocked, Running, Exec(Kern(3)), Stopping(Kern(3)));
    Reach(s, s1, TestSwitched(1), s2);
    Leaves(s, s2, 0);
    var s3 := TwoPairs(Stopped, Blocked, Running, Blocked, Exec(User(2)), Stopping(Kern(3)));
    assert AfterLeave(s2, 0) == s3;
    EntersAgain(s, s3, 0);
    assert AfterReenter(s3, 0) == TwoPairs(Stopped, Blocked, Blocked, Blocked, Exec(Kern(3)), Stopping(Kern(3)));
  }

  /** In that call process 2 exits. */
  lemma ChildExits(s: State) returns (t: State)
    requires Reaches(s, TwoPairs(Stopped, Blocked, Blocked, Blocked, Exec(Kern(3)), Stopping(Kern(3))))
    ensures Reaches(s, t) && t.cpus == [Ticked(Idle), Stopping(Kern(3))] && Orphan(t, Kern(3))
  {
    var s1 := TwoPairs(Stopped, Blocked, Blocked, Blocked, Exec(Kern(3)), Stopping(Kern(3)));
    t := Apply(s1, Exit(0));
    Reach(s, s1, Exit(0), t);
  }

  lemma ChildAway(s: State)
    requires Reaches(s, WithChild(Running, Exec(User(2))))
    ensures Reaches(s, TwoPairs(Stopped, Blocked, Blocked, Stopped, Search(User(1)), Switched(Kern(3))))
  {
    ChildGivesUp(s);
    ParentLeaves(s);
    ParentTicked(s);
    ParentStops(s);
  }

  lemma ChildBack(s: State)
    requires Reaches(s, TwoPairs(Stopped, Blocked, Blocked, Stopped, Search(User(1)), Switched(Kern(3))))
    ensures Reaches(s, TwoPairs(Stopped, Blocked, Blocked, Blocked, Exec(Kern(3)), Stopping(Kern(3))))
  {
    PartnerPicked(s);
    ChildReenters(s);
  }

  /** With two processors a run from boot is about to mark a kernel process stopped whose user process has exited. */
  lemma ReachesOrphanRace(s: State) returns (t: State)
    requires Booted(s) && |s.cpus| == 2
    ensures Reaches(s, t) && Enabled(t, StopSwitched(1)) && StopRace(t, StopSwitched(1))
    ensures Orphan(t, t.cpus[1].p) && !IsHeld(t, t.cpus[1].p)
  {
    ChildExecutes(s);
    ChildAway(s);
    ChildBack(s);
    t := ChildExits(s);
    assert forall d :: 0 <= d < |t.cpus| ==> Held(t.cpus[d]) == Idle;
  }
}
