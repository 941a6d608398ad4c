/** The process state protocol of sched/proc.c and sched/syscall.c over any number of processors.

    Each lock-protected section is one step. A processor either works for a process or is
    inside schedule(). A user process that makes a system call is replaced on its
    processor by its kernel partner, and comes back when the call returns. */
module Protocol {
  import opened Common

  /** The pids of user processes count up from 1, those of kernel processes down from -1.
      Pid 0 is each processor's own idle process. */
  datatype Pid = Idle | User(n: nat) | Kern(n: nat)

  datatype RunState = Running | Stopped | Blocked

  datatype Proc = Proc(state: RunState, buddy: Option<Pid>)

  /** What a processor is doing:
      - Exec: executing its current process;
      - Loaded, Stored: in proc_createv, making the partner of u, after the pid counter has been read, and after it
        has been written back one higher;
      - Repeated: in proc_createv with a pid that was given before;
      - Entry: in proc_enter_kernel for user process u, its partner k found or made;
      - Entered: the same after u is marked blocked, before u gets its link to k;
      - LeaveA, LeaveB: in proc_leave_kernel, before and after k is marked blocked;
      - ForkLoaded, ForkStored: in proc_createv for the child of a fork, at the same two points;
      - InFork: in sys_fork, after the child has been made;
      - Ticked: in schedule() after a timer tick or an exit, before the state of the current process is tested;
      - TickStop: the test has found it running, and the write that stops it comes next;
      - Switched, Stopping: the same two points after sswtch, which has already stopped the process;
      - Search: in the loop of schedule(), after looking at process `at`. */
  datatype Cpu =
    | Exec(p: Pid)
    | Loaded(u: Pid, n: nat)
    | Stored(u: Pid)
    | Repeated(p: Pid)
    | Entry(u: Pid, k: Pid)
    | Entered(u: Pid, k: Pid)
    | LeaveA(k: Pid, u: Pid)
    | LeaveB(u: Pid)
    | ForkLoaded(k: Pid, n: nat)
    | ForkStored(k: Pid)
    | InFork(k: Pid, child: Pid)
    | Ticked(p: Pid)
    | TickStop(p: Pid)
    | Switched(p: Pid)
    | Stopping(p: Pid)
    | Search(at: Pid)

  /** The process table, the processors, the two pid counters, and the pids given so far. */
  datatype State = State(procs: map<Pid, Proc>, cpus: seq<Cpu>, users: nat, kerns: nat, given: set<Pid>)

  /** The process that a processor works for. */
  function Held(c: Cpu): Pid {
    match c
    case Exec(p) => p
    case Loaded(u, _) => u
    case Stored(u) => u
    case Repeated(_) => Idle
    case Entry(u, _) => u
    case Entered(u, _) => u
    case LeaveA(k, _) => k
    case LeaveB(u) => u
    case ForkLoaded(k, _) => k
    case ForkStored(k) => k
    case InFork(k, _) => k
    case Ticked(p) => p
    case TickStop(p) => p
    case Switched(_) => Idle
    case Stopping(_) => Idle
    case Search(_) => Idle
  }

  predicate IsHeld(s: State, p: Pid) {
    exists c :: 0 <= c < |s.cpus| && Held(s.cpus[c]) == p
  }

  predicate IsState(s: State, p: Pid, r: RunState) { p in s.procs && s.procs[p].state == r }

  /** Executing, or free to be picked by the scheduler. */
  predicate Active(s: State, p: Pid) { IsHeld(s, p) || IsState(s, p, Stopped) }

  /** k is the kernel partner of the live user process u. */
  predicate Partners(s: State, u: Pid, k: Pid) {
    u in s.procs && u.User? && k in s.procs && k.Kern? && s.procs[k].buddy == Some(u)
  }

  // ----- Steps -----

  /** Keys of the process table: pids as unsigned 64-bit numbers. */
  function Key(p: Pid): int {
    match p
    case Idle => 0
    case User(n) => n
    case Kern(n) => WORD - n
  }

  /** proc_next: the process with the next key, or the idle process at the end. If `at` is gone its structure may
      already be another process's, so that any process can come next. */
  predicate IsNext(procs: set<Pid>, at: Pid, next: Pid) {
    if at != Idle && at !in procs then next == Idle || next in procs
    else if next == Idle then forall p :: p in procs ==> Key(p) <= Key(at)
    else next in procs && Key(next) > Key(at) && forall p :: p in procs && Key(p) > Key(at) ==> Key(next) <= Key(p)
  }

  datatype Event =
    | Tick(c: nat) | TestTicked(c: nat) | StopTicked(c: nat)
    | Switch(c: nat) | TestSwitched(c: nat) | StopSwitched(c: nat) | Look(c: nat, next: Pid)
    | EnterLoad(c: nat) | EnterStore(c: nat) | EnterNew(c: nat)
    | EnterOld(c: nat) | EnterBlock(c: nat) | EnterLink(c: nat)
    | LeaveStart(c: nat) | LeaveBlock(c: nat) | LeaveRun(c: nat)
    | ForkLoad(c: nat) | ForkStore(c: nat) | ForkNew(c: nat) | ForkDone(c: nat) | Exit(c: nat)

  predicate Enabled(s: State, e: Event) {
    e.c < |s.cpus| &&
    var cpu := s.cpus[e.c];
    match e
    case Tick(_) => cpu.Exec?
    case Switch(_) => cpu.Exec? && cpu.p.Kern?
    case TestTicked(_) => cpu.Ticked?
    case StopTicked(_) => cpu.TickStop?
    case TestSwitched(_) => cpu.Switched?
    case StopSwitched(_) => cpu.Stopping?
    case Look(_, next) => cpu.Search? && IsNext(s.procs.Keys, cpu.at, next)
    case EnterLoad(_) => cpu.Exec? && cpu.p.User? && cpu.p in s.procs && s.procs[cpu.p].buddy == None
    case EnterStore(_) => cpu.Loaded?
    case EnterNew(_) => cpu.Stored?
    case EnterOld(_) => cpu.Exec? && cpu.p.User? && cpu.p in s.procs && s.procs[cpu.p].buddy != None
    case EnterBlock(_) => cpu.Entry?
    case EnterLink(_) => cpu.Entered?
    case LeaveStart(_) => cpu.Exec? && KernelWithUser(s, cpu.p)
    case LeaveBlock(_) => cpu.LeaveA?
    case LeaveRun(_) => cpu.LeaveB?
    case ForkLoad(_) => cpu.Exec? && KernelWithUser(s, cpu.p)
    case ForkStore(_) => cpu.ForkLoaded?
    case ForkNew(_) => cpu.ForkStored?
    case ForkDone(_) => cpu.InFork?
    // The exit of pid 1 reboots the machine instead.
    case Exit(_) => cpu.Exec? && KernelWithUser(s, cpu.p) && s.procs[cpu.p].buddy != Some(User(1))
  }

  /** k works for a live user process. HeldHasUser shows that this excludes only the do-nothing process. */
  predicate KernelWithUser(s: State, k: Pid) {
    k.Kern? && k in s.procs && s.procs[k].buddy.Some? && s.procs[k].buddy.value in s.procs
  }

  function SetState(s: State, p: Pid, r: RunState): State {
    if p in s.procs then s.(procs := s.procs[p := s.procs[p].(state := r)]) else s
  }

  function SetBuddy(s: State, p: Pid, q: Pid): State {
    if p in s.procs then s.(procs := s.procs[p := s.procs[p].(buddy := Some(q))]) else s
  }

  function SetCpu(s: State, c: nat, cpu: Cpu): State
    requires c < |s.cpus|
  {
    s.(cpus := s.cpus[c := cpu])
  }

  function Apply(s: State, e: Event): State
    requires Enabled(s, e)
  {
    var c := e.c;
    var cpu := s.cpus[c];
    match e
    case Tick(_) => SetCpu(s, c, Ticked(cpu.p))
    case Switch(_) => SetCpu(SetState(s, cpu.p, Stopped), c, Switched(cpu.p))
    case TestTicked(_) => SetCpu(s, c, if IsState(s, cpu.p, Running) then TickStop(cpu.p) else Search(cpu.p))
    case StopTicked(_) => SetCpu(SetState(s, cpu.p, Stopped), c, Search(cpu.p))
    case TestSwitched(_) => SetCpu(s, c, if IsState(s, cpu.p, Running) then Stopping(cpu.p) else Search(cpu.p))
    case StopSwitched(_) => SetCpu(SetState(s, cpu.p, Stopped), c, Search(cpu.p))
    case Look(_, next) =>
      if IsState(s, next, Stopped) then SetCpu(SetState(s, next, Running), c, Exec(next))
      else SetCpu(s, c, Search(next))
    case EnterLoad(_) => SetCpu(s, c, Loaded(cpu.p, s.kerns))
    case EnterStore(_) => SetCpu(s.(kerns := cpu.n + 1), c, Stored(cpu.u))
    case EnterNew(_) =>
      var k := Kern(s.kerns);
      if k in s.given then SetCpu(s, c, Repeated(k))
      else SetCpu(s.(procs := s.procs[k := Proc(Running, Some(cpu.u))], given := s.given + {k}), c, Entry(cpu.u, k))
    case EnterOld(_) => SetCpu(s, c, Entry(cpu.p, s.procs[cpu.p].buddy.value))
    case EnterBlock(_) => SetCpu(SetState(s, cpu.u, Blocked), c, Entered(cpu.u, cpu.k))
    case EnterLink(_) => SetCpu(SetBuddy(s, cpu.u, cpu.k), c, Exec(cpu.k))
    case LeaveStart(_) => SetCpu(s, c, LeaveA(cpu.p, s.procs[cpu.p].buddy.value))
    case LeaveBlock(_) => SetCpu(SetState(s, cpu.k, Blocked), c, LeaveB(cpu.u))
    case LeaveRun(_) => SetCpu(SetState(s, cpu.u, Running), c, Exec(cpu.u))
    case ForkLoad(_) => SetCpu(s, c, ForkLoaded(cpu.p, s.users))
    case ForkStore(_) => SetCpu(s.(users := cpu.n + 1), c, ForkStored(cpu.k))
    case ForkNew(_) =>
      var child := User(s.users);
      if child in s.given then SetCpu(s, c, Repeated(child))
      else
        SetCpu(s.(procs := s.procs[child := Proc(Running, None)], given := s.given + {child}), c, InFork(cpu.k, child))
    case ForkDone(_) => SetCpu(SetState(s, cpu.child, Stopped), c, Exec(cpu.k))
    case Exit(_) => SetCpu(s.(procs := s.procs - {s.procs[cpu.p].buddy.value}), c, Ticked(Idle))
  }

  // ----- Safety -----

  /** A process is held by at most one processor, and a held process is not free to be picked. */
  ghost predicate Exclusive(s: State) {
    && (forall c :: 0 <= c < |s.cpus| && Held(s.cpus[c]) != Idle ==>
          Held(s.cpus[c]) in s.procs && s.procs[Held(s.cpus[c])].state != Stopped)
    && (forall c, d :: 0 <= c < d < |s.cpus| && Held(s.cpus[c]) != Idle ==> Held(s.cpus[c]) != Held(s.cpus[d]))
  }

  /** A user process and its kernel partner are never both executing or pickable. */
  ghost predicate PairsExclusive(s: State) {
    forall u, k :: Partners(s, u, k) ==> !(Active(s, u) && Active(s, k))
  }

  /** k is a kernel process whose user process is gone. */
  predicate Orphan(s: State, k: Pid) {
    k in s.procs && k.Kern? && s.procs[k].buddy.Some? && s.procs[k].buddy.value !in s.procs
  }

  /** Such a process is never executing or pickable. */
  ghost predicate NoOrphanActive(s: State) {
    forall k :: Orphan(s, k) ==> !Active(s, k)
  }

  ghost predicate NoneRepeated(s: State) {
    forall c :: 0 <= c < |s.cpus| ==> !s.cpus[c].Repeated?
  }

  ghost predicate Safe(s: State) { Exclusive(s) && PairsExclusive(s) && NoOrphanActive(s) && NoneRepeated(s) }

  // ----- Invariant -----

  /** A processor is in between making the partner k of u and giving u its link to k. */
  predicate Pending(s: State, u: Pid, k: Pid) {
    exists c :: 0 <= c < |s.cpus| && (s.cpus[c] == Entry(u, k) || s.cpus[c] == Entered(u, k))
  }

  /** The partner links of the two processes of a pair agree, except in between. */
  ghost predicate Links(s: State) {
    && (forall u :: u in s.procs && u.User? && s.procs[u].buddy.Some? ==> Partners(s, u, s.procs[u].buddy.value))
    && (forall u, k :: Partners(s, u, k) ==>
          s.procs[u].buddy == Some(k) || (s.procs[u].buddy == None && Pending(s, u, k)))
    && (forall k :: k in s.procs && k.Kern? && s.procs[k].buddy.Some? ==> s.procs[k].buddy.value.User?)
  }

  /** Pids in use, also those of partners that are gone, have been given. */
  ghost predicate Counted(s: State) {
    forall p :: p in s.procs ==> p in s.given && (s.procs[p].buddy.Some? ==> s.procs[p].buddy.value in s.given)
  }

  ghost predicate PhaseOk(s: State, cpu: Cpu) {
    match cpu
    case Loaded(u, _) => u in s.procs && u.User? && s.procs[u].buddy == None
    case Stored(u) => u in s.procs && u.User? && s.procs[u].buddy == None
    case Repeated(_) => false
    case Entry(u, k) => Partners(s, u, k) && (s.procs[u].buddy == None || s.procs[u].buddy == Some(k))
    case Entered(u, k) => Partners(s, u, k) && (s.procs[u].buddy == None || s.procs[u].buddy == Some(k))
    case LeaveA(k, u) => Partners(s, u, k)
    case LeaveB(u) => u.User?
    case ForkLoaded(k, _) => k.Kern?
    case ForkStored(k) => k.Kern?
    case InFork(k, child) =>
      k.Kern? && child.User? && !Active(s, child) && child in s.procs && s.procs[child].buddy == None
    case Switched(p) => p in s.procs && p.Kern?
    case Stopping(p) => p in s.procs && p.Kern?
    case _ => true
  }

  ghost predicate Phases(s: State) {
    && (forall c :: 0 <= c < |s.cpus| ==> PhaseOk(s, s.cpus[c]))
    && (forall c, d :: 0 <= c < d < |s.cpus| && s.cpus[c].InFork? && s.cpus[d].InFork? ==>
          s.cpus[c].child != s.cpus[d].child)
  }

  ghost predicate Inv(s: State) { Safe(s) && Links(s) && Counted(s) && Phases(s) }

  ghost predicate PartnerActive(s: State, k: Pid) {
    exists u :: Partners(s, u, k) && Active(s, u)
  }

  /** A processor that has given its process away in sswtch, and then found it running, marks it stopped while
      another processor has it, or has already gone back to its user process, or when that has exited. */
  ghost predicate StopRace(s: State, e: Event)
    requires Enabled(s, e)
  {
    e.StopSwitched? &&
    var p := s.cpus[e.c].p;
    IsHeld(s, p) || PartnerActive(s, p) || Orphan(s, p)
  }

  /** A processor takes the pid that is in the counter after another one has taken it. */
  ghost predicate PidRace(s: State, e: Event)
    requires Enabled(s, e)
  {
    (e.EnterNew? && Kern(s.kerns) in s.given) || (e.ForkNew? && User(s.users) in s.given)
  }

  ghost predicate Race(s: State, e: Event)
    requires Enabled(s, e)
  {
    StopRace(s, e) || PidRace(s, e)
  }

  // ----- Who holds what, when one processor moves -----

  predicate HeldElsewhere(s: State, c: nat, p: Pid) {
    exists d :: 0 <= d < |s.cpus| && d != c && Held(s.cpus[d]) == p
  }

  /** Only processor c differs. */
  predicate Moved(s: State, s': State, c: nat) {
    c < |s.cpus| == |s'.cpus| && forall d :: 0 <= d < |s.cpus| && d != c ==> s'.cpus[d] == s.cpus[d]
  }

  /** Only the processor that moved can take or drop a process. */
  lemma HeldMoves(s: State, s': State, c: nat)
    requires Moved(s, s', c)
    ensures forall p :: IsHeld(s', p) <==> Held(s'.cpus[c]) == p || HeldElsewhere(s, c, p)
    ensures forall p :: IsHeld(s, p) <==> Held(s.cpus[c]) == p || HeldElsewhere(s, c, p)
    ensures forall d :: 0 <= d < |s.cpus| && d != c ==> HeldElsewhere(s, c, Held(s.cpus[d]))
  {
    forall p ensures IsHeld(s', p) <==> Held(s'.cpus[c]) == p || HeldElsewhere(s, c, p) {
      if HeldElsewhere(s, c, p) {
        var d :| 0 <= d < |s.cpus| && d != c && Held(s.cpus[d]) == p;
        assert s'.cpus[d] == s.cpus[d];
      }
    }
  }

  lemma HolderIsAlone(s: State, c: nat)
    requires Exclusive(s) && c < |s.cpus|
    ensures Held(s.cpus[c]) != Idle ==> !HeldElsewhere(s, c, Held(s.cpus[c]))
  {}

  /** Exclusive, from the point of view of the processor that moved. */
  lemma ExclusiveAfter(s: State, s': State, c: nat)
    requires Exclusive(s) && Moved(s, s', c)
    requires var p := Held(s'.cpus[c]);
             p != Idle ==> p in s'.procs && s'.procs[p].state != Stopped && !HeldElsewhere(s, c, p)
    requires forall p :: p != Idle && HeldElsewhere(s, c, p) ==> p in s'.procs && s'.procs[p].state != Stopped
    ensures Exclusive(s')
  {
    HeldMoves(s, s', c);
  }

  /** No process is added or removed, and no partner link changes. */
  ghost predicate SameTable(s: State, s': State) {
    && s'.procs.Keys == s.procs.Keys && s'.given == s.given
    && forall p :: p in s.procs ==> s'.procs[p].buddy == s.procs[p].buddy
  }

  /** A processor in the middle of making a link stays there. */
  predicate StaysPending(s: State, s': State, c: nat)
    requires Moved(s, s', c)
  {
    match s.cpus[c]
    case Entry(u, k) => s'.cpus[c] == Entered(u, k)
    case Entered(u, k) => false
    case _ => true
  }

  lemma PendingKept(s: State, s': State, c: nat)
    requires Moved(s, s', c) && StaysPending(s, s', c)
    ensures forall u, k :: Pending(s, u, k) ==> Pending(s', u, k)
  {
    forall u, k | Pending(s, u, k) ensures Pending(s', u, k) {
      var d :| 0 <= d < |s.cpus| && (s.cpus[d] == Entry(u, k) || s.cpus[d] == Entered(u, k));
      if d == c { assert s'.cpus[c] == Entered(u, k); } else { assert s'.cpus[d] == s.cpus[d]; }
    }
  }

  lemma SameTableKeeps(s: State, s': State, c: nat)
    requires SameTable(s, s') && Moved(s, s', c) && StaysPending(s, s', c)
    ensures forall u, k :: Partners(s', u, k) <==> Partners(s, u, k)
    ensures Links(s) ==> Links(s')
    ensures Counted(s) ==> Counted(s')
  {
    assert forall p :: p in s.procs <==> p in s'.procs;
    PendingKept(s, s', c);
  }

  /** What a step over the same table owes: only `n` becomes active, it is no child of a fork
      in progress, none of its partners is active, and its user process is not gone. */
  ghost predicate Wakes(s: State, s': State, c: nat, n: Pid) {
    && (forall p :: Active(s', p) ==> Active(s, p) || p == n)
    && (forall u, k :: Partners(s, u, k) && (u == n || k == n) ==> !(Active(s', u) && Active(s', k)))
    && (forall d :: 0 <= d < |s.cpus| && d != c && s.cpus[d].InFork? ==> s.cpus[d].child != n)
    && !Orphan(s, n)
  }

  lemma PhasesAfter(s: State, s': State, c: nat, n: Pid)
    requires Phases(s) && Moved(s, s', c) && SameTable(s, s') && StaysPending(s, s', c) && Wakes(s, s', c, n)
    requires PhaseOk(s', s'.cpus[c]) && !s'.cpus[c].InFork?
    ensures Phases(s')
  {
    SameTableKeeps(s, s', c);
    forall d | 0 <= d < |s.cpus| && d != c ensures PhaseOk(s', s'.cpus[d]) {
      assert PhaseOk(s, s.cpus[d]);
    }
  }

  lemma SameTableInv(s: State, s': State, c: nat, n: Pid)
    requires Inv(s) && Moved(s, s', c) && SameTable(s, s') && StaysPending(s, s', c) && Wakes(s, s', c, n)
    requires Exclusive(s') && PhaseOk(s', s'.cpus[c]) && !s'.cpus[c].InFork?
    ensures Inv(s')
  {
    SameTableKeeps(s, s', c);
    PhasesAfter(s, s', c, n);
    forall u, k | Partners(s', u, k) ensures !(Active(s', u) && Active(s', k)) {
      assert Partners(s, u, k);
    }
    forall k | Orphan(s', k) ensures !Active(s', k) {
      assert Orphan(s, k);
    }
    PhasesClean(s');
  }

  /** Processor c keeps its process or drops it, and nothing else about any process changes than the state of
      that one. */
  ghost predicate Quiet(s: State, s': State, c: nat) {
    && Moved(s, s', c) && SameTable(s, s') && StaysPending(s, s', c)
    && (forall p :: p in s.procs && p != Held(s.cpus[c]) ==> s'.procs[p] == s.procs[p])
    && (Held(s'.cpus[c]) == Idle || (Held(s'.cpus[c]) == Held(s.cpus[c]) && !IsState(s', Held(s.cpus[c]), Stopped)))
  }

  lemma QuietExclusive(s: State, s': State, c: nat)
    requires Exclusive(s) && Quiet(s, s', c)
    ensures Exclusive(s')
  {
    HeldMoves(s, s', c);
    HolderIsAlone(s, c);
    ExclusiveAfter(s, s', c);
  }

  lemma QuietWakes(s: State, s': State, c: nat)
    requires Phases(s) && Quiet(s, s', c)
    ensures Wakes(s, s', c, Idle)
  {
    HeldMoves(s, s', c);
    forall d | 0 <= d < |s.cpus| && s.cpus[d].InFork? ensures s.cpus[d].child != Idle {
      assert PhaseOk(s, s.cpus[d]);
    }
  }

  lemma QuietKeeps(s: State, s': State, c: nat)
    requires Inv(s) && Quiet(s, s', c) && PhaseOk(s', s'.cpus[c]) && !s'.cpus[c].InFork?
    ensures Inv(s')
  {
    QuietExclusive(s, s', c);
    QuietWakes(s, s', c);
    SameTableInv(s, s', c, Idle);
  }

  lemma TickKeeps(s: State, c: nat)
    requires Inv(s) && Enabled(s, Tick(c))
    ensures Inv(Apply(s, Tick(c)))
  {
    assert PhaseOk(s, s.cpus[c]) && Quiet(s, Apply(s, Tick(c)), c);
    QuietKeeps(s, Apply(s, Tick(c)), c);
  }

  lemma TestTickedKeeps(s: State, c: nat)
    requires Inv(s) && Enabled(s, TestTicked(c))
    ensures Inv(Apply(s, TestTicked(c)))
  {
    assert PhaseOk(s, s.cpus[c]) && Quiet(s, Apply(s, TestTicked(c)), c);
    QuietKeeps(s, Apply(s, TestTicked(c)), c);
  }

  lemma StopTickedKeeps(s: State, c: nat)
    requires Inv(s) && Enabled(s, StopTicked(c))
    ensures Inv(Apply(s, StopTicked(c)))
  {
    assert PhaseOk(s, s.cpus[c]) && Quiet(s, Apply(s, StopTicked(c)), c);
    QuietKeeps(s, Apply(s, StopTicked(c)), c);
  }

  lemma SwitchKeeps(s: State, c: nat)
    requires Inv(s) && Enabled(s, Switch(c))
    ensures Inv(Apply(s, Switch(c)))
  {
    assert PhaseOk(s, s.cpus[c]) && Quiet(s, Apply(s, Switch(c)), c);
    QuietKeeps(s, Apply(s, Switch(c)), c);
  }

  lemma TestSwitchedKeeps(s: State, c: nat)
    requires Inv(s) && Enabled(s, TestSwitched(c))
    ensures Inv(Apply(s, TestSwitched(c)))
  {
    assert PhaseOk(s, s.cpus[c]) && Quiet(s, Apply(s, TestSwitched(c)), c);
    QuietKeeps(s, Apply(s, TestSwitched(c)), c);
  }

  lemma StopSwitchedKeeps(s: State, c: nat)
    requires Inv(s) && Enabled(s, StopSwitched(c)) && !Race(s, StopSwitched(c))
    ensures Inv(Apply(s, StopSwitched(c)))
  {
    var s' := Apply(s, StopSwitched(c));
    HeldMoves(s, s', c);
    HolderIsAlone(s, c);
    ExclusiveAfter(s, s', c);
    SameTableInv(s, s', c, s.cpus[c].p);
  }

  lemma LookKeeps(s: State, c: nat, next: Pid)
    requires Inv(s) && Enabled(s, Look(c, next))
    ensures Inv(Apply(s, Look(c, next)))
  {
    if IsState(s, next, Stopped) {
      LookPicks(s, c, next);
    } else {
      assert Quiet(s, Apply(s, Look(c, next)), c);
      QuietKeeps(s, Apply(s, Look(c, next)), c);
    }
  }

  lemma LookPicks(s: State, c: nat, next: Pid)
    requires Inv(s) && Enabled(s, Look(c, next)) && IsState(s, next, Stopped)
    ensures Inv(Apply(s, Look(c, next)))
  {
    var s' := Apply(s, Look(c, next));
    PickExclusive(s, c, next);
    PickWakes(s, c, next);
    SameTableInv(s, s', c, Idle);
  }

  lemma PickWakes(s: State, c: nat, next: Pid)
    requires Phases(s) && Enabled(s, Look(c, next)) && IsState(s, next, Stopped)
    ensures Wakes(s, Apply(s, Look(c, next)), c, Idle)
  {
    var s' := Apply(s, Look(c, next));
    HeldMoves(s, s', c);
    assert forall p :: Active(s', p) ==> Active(s, p);
    forall d | 0 <= d < |s.cpus| && s.cpus[d].InFork? ensures s.cpus[d].child != Idle {
      assert PhaseOk(s, s.cpus[d]);
    }
  }

  lemma PickExclusive(s: State, c: nat, next: Pid)
    requires Exclusive(s) && Enabled(s, Look(c, next)) && IsState(s, next, Stopped)
    ensures Exclusive(Apply(s, Look(c, next)))
  {
    var s' := Apply(s, Look(c, next));
    HeldMoves(s, s', c);
    ExclusiveAfter(s, s', c);
  }

  lemma EnterLoadKeeps(s: State, c: nat)
    requires Inv(s) && Enabled(s, EnterLoad(c))
    ensures Inv(Apply(s, EnterLoad(c)))
  {
    assert PhaseOk(s, s.cpus[c]) && Quiet(s, Apply(s, EnterLoad(c)), c);
    QuietKeeps(s, Apply(s, EnterLoad(c)), c);
  }

  lemma EnterStoreKeeps(s: State, c: nat)
    requires Inv(s) && Enabled(s, EnterStore(c))
    ensures Inv(Apply(s, EnterStore(c)))
  {
    assert PhaseOk(s, s.cpus[c]) && Quiet(s, Apply(s, EnterStore(c)), c);
    QuietKeeps(s, Apply(s, EnterStore(c)), c);
  }

  lemma EnterOldKeeps(s: State, c: nat)
    requires Inv(s) && Enabled(s, EnterOld(c))
    ensures Inv(Apply(s, EnterOld(c)))
  {
    assert PhaseOk(s, s.cpus[c]) && Quiet(s, Apply(s, EnterOld(c)), c);
    QuietKeeps(s, Apply(s, EnterOld(c)), c);
  }

  lemma EnterBlockKeeps(s: State, c: nat)
    requires Inv(s) && Enabled(s, EnterBlock(c))
    ensures Inv(Apply(s, EnterBlock(c)))
  {
    assert PhaseOk(s, s.cpus[c]) && Quiet(s, Apply(s, EnterBlock(c)), c);
    QuietKeeps(s, Apply(s, EnterBlock(c)), c);
  }

  lemma LeaveStartKeeps(s: State, c: nat)
    requires Inv(s) && Enabled(s, LeaveStart(c))
    ensures Inv(Apply(s, LeaveStart(c)))
  {
    assert PhaseOk(s, s.cpus[c]) && Quiet(s, Apply(s, LeaveStart(c)), c);
    QuietKeeps(s, Apply(s, LeaveStart(c)), c);
  }

  lemma LeaveBlockKeeps(s: State, c: nat)
    requires Inv(s) && Enabled(s, LeaveBlock(c))
    ensures Inv(Apply(s, LeaveBlock(c)))
  {
    var s' := Apply(s, LeaveBlock(c));
    HeldMoves(s, s', c);
    HolderIsAlone(s, c);
    ExclusiveAfter(s, s', c);
    LeaveBlockWakes(s, c);
    SameTableInv(s, s', c, s.cpus[c].u);
  }

  lemma LeaveBlockWakes(s: State, c: nat)
    requires Inv(s) && Enabled(s, LeaveBlock(c))
    ensures Wakes(s, Apply(s, LeaveBlock(c)), c, s.cpus[c].u)
  {
    var s' := Apply(s, LeaveBlock(c));
    var u, k := s.cpus[c].u, s.cpus[c].k;
    HeldMoves(s, s', c);
    HolderIsAlone(s, c);
    assert PhaseOk(s, s.cpus[c]) && Partners(s, u, k);
    assert !Active(s', k);
    forall b | Partners(s, u, b) ensures b == k { OnePartner(s, u, k, b); }
    forall d | 0 <= d < |s.cpus| && d != c && s.cpus[d].InFork? ensures s.cpus[d].child != u {
      assert PhaseOk(s, s.cpus[d]);
      NoPartnerOfChild(s, s.cpus[d].child, k);
    }
  }

  /** A process that has no link and that no processor works for has no partner. */
  lemma NoPartnerOfChild(s: State, u: Pid, k: Pid)
    requires Links(s) && u in s.procs && s.procs[u].buddy == None && !Active(s, u)
    ensures !Partners(s, u, k)
  {
    if Partners(s, u, k) {
      PendingIsHeld(s, u, k);
      assert false;
    }
  }

  lemma PendingIsHeld(s: State, u: Pid, k: Pid)
    requires Pending(s, u, k)
    ensures IsHeld(s, u)
  {
    var d :| 0 <= d < |s.cpus| && (s.cpus[d] == Entry(u, k) || s.cpus[d] == Entered(u, k));
    assert Held(s.cpus[d]) == u;
  }

  lemma ForkLoadKeeps(s: State, c: nat)
    requires Inv(s) && Enabled(s, ForkLoad(c))
    ensures Inv(Apply(s, ForkLoad(c)))
  {
    assert PhaseOk(s, s.cpus[c]) && Quiet(s, Apply(s, ForkLoad(c)), c);
    QuietKeeps(s, Apply(s, ForkLoad(c)), c);
  }

  lemma ForkStoreKeeps(s: State, c: nat)
    requires Inv(s) && Enabled(s, ForkStore(c))
    ensures Inv(Apply(s, ForkStore(c)))
  {
    assert PhaseOk(s, s.cpus[c]) && Quiet(s, Apply(s, ForkStore(c)), c);
    QuietKeeps(s, Apply(s, ForkStore(c)), c);
  }

  lemma LeaveRunKeeps(s: State, c: nat)
    requires Inv(s) && Enabled(s, LeaveRun(c))
    ensures Inv(Apply(s, LeaveRun(c)))
  {
    assert PhaseOk(s, s.cpus[c]) && Quiet(s, Apply(s, LeaveRun(c)), c);
    QuietKeeps(s, Apply(s, LeaveRun(c)), c);
  }

  lemma ForkDoneKeeps(s: State, c: nat)
    requires Inv(s) && Enabled(s, ForkDone(c))
    ensures Inv(Apply(s, ForkDone(c)))
  {
    var s' := Apply(s, ForkDone(c));
    ForkDoneExclusive(s, c);
    ForkDoneWakes(s, c);
    SameTableInv(s, s', c, s.cpus[c].child);
  }

  lemma ForkDoneExclusive(s: State, c: nat)
    requires Exclusive(s) && Phases(s) && Enabled(s, ForkDone(c))
    ensures Exclusive(Apply(s, ForkDone(c)))
  {
    var s' := Apply(s, ForkDone(c));
    assert PhaseOk(s, s.cpus[c]);
    HeldMoves(s, s', c);
    HolderIsAlone(s, c);
    ExclusiveAfter(s, s', c);
  }

  lemma ForkDoneWakes(s: State, c: nat)
    requires Links(s) && Phases(s) && Enabled(s, ForkDone(c))
    ensures Wakes(s, Apply(s, ForkDone(c)), c, s.cpus[c].child)
  {
    var s' := Apply(s, ForkDone(c));
    var child := s.cpus[c].child;
    assert PhaseOk(s, s.cpus[c]);
    HeldMoves(s, s', c);
    forall k ensures !Partners(s, child, k) { NoPartnerOfChild(s, child, k); }
  }

  // ----- Steps that change the table -----

  /** A user process has one partner only. */
  lemma OnePartner(s: State, u: Pid, k: Pid, k': Pid)
    requires Exclusive(s) && Links(s) && Partners(s, u, k) && Partners(s, u, k')
    ensures k == k'
  {
    if s.procs[u].buddy == None {
      var c :| 0 <= c < |s.cpus| && (s.cpus[c] == Entry(u, k) || s.cpus[c] == Entered(u, k));
      var d :| 0 <= d < |s.cpus| && (s.cpus[d] == Entry(u, k') || s.cpus[d] == Entered(u, k'));
      assert Held(s.cpus[c]) == Held(s.cpus[d]) == u;
    }
  }

  /** Making the kernel partner of a user process. */
  lemma EnterNewTable(s: State, c: nat)
    requires Links(s) && Counted(s) && Enabled(s, EnterNew(c)) && !Race(s, EnterNew(c))
    requires PhaseOk(s, s.cpus[c])
    ensures var s' := Apply(s, EnterNew(c)); var u, k := s.cpus[c].u, Kern(s.kerns);
            && (forall a, b :: Partners(s', a, b) <==> Partners(s, a, b) || (a == u && b == k))
            && Links(s') && Counted(s')
  {
    var s' := Apply(s, EnterNew(c));
    var u, k := s.cpus[c].u, Kern(s.kerns);
    assert k !in s.procs && s'.procs[k].buddy == Some(u);
    assert forall p :: p in s'.procs && p != k ==> p in s.procs && s'.procs[p] == s.procs[p];
    forall a, b ensures Partners(s', a, b) <==> Partners(s, a, b) || (a == u && b == k) {
      if Partners(s, a, b) { assert b in s.procs; }
    }
    PendingKept(s, s', c);
    assert s'.cpus[c] == Entry(u, k);
  }

  lemma EnterNewKeeps(s: State, c: nat)
    requires Inv(s) && Enabled(s, EnterNew(c)) && !Race(s, EnterNew(c))
    ensures Inv(Apply(s, EnterNew(c)))
  {
    var s' := Apply(s, EnterNew(c));
    var k := Kern(s.kerns);
    assert PhaseOk(s, s.cpus[c]);
    HeldMoves(s, s', c);
    HolderIsAlone(s, c);
    ExclusiveAfter(s, s', c);
    EnterNewTable(s, c);
    assert !HeldElsewhere(s, c, k) && !Active(s', k);
    assert forall p :: Active(s', p) ==> Active(s, p);
    forall d | 0 <= d < |s.cpus| && d != c ensures PhaseOk(s', s'.cpus[d]) {
      assert PhaseOk(s, s.cpus[d]);
    }
  }

  /** Giving a user process its link to the partner that already has one to it. */
  lemma EnterLinkTable(s: State, c: nat)
    requires Inv(s) && Enabled(s, EnterLink(c))
    ensures var s' := Apply(s, EnterLink(c));
            && (forall a, b :: Partners(s', a, b) <==> Partners(s, a, b))
            && Links(s') && Counted(s')
  {
    var s' := Apply(s, EnterLink(c));
    var u, k := s.cpus[c].u, s.cpus[c].k;
    assert PhaseOk(s, s.cpus[c]);
    assert forall p :: p in s.procs <==> p in s'.procs;
    forall a, b | Partners(s', a, b)
      ensures s'.procs[a].buddy == Some(b) || (s'.procs[a].buddy == None && Pending(s', a, b))
    {
      assert Partners(s, a, b);
      if a == u {
        OnePartner(s, u, k, b);
      } else if Pending(s, a, b) {
        var d :| 0 <= d < |s.cpus| && (s.cpus[d] == Entry(a, b) || s.cpus[d] == Entered(a, b));
        assert s'.cpus[d] == s.cpus[d];
      }
    }
  }

  lemma EnterLinkKeeps(s: State, c: nat)
    requires Inv(s) && Enabled(s, EnterLink(c))
    ensures Inv(Apply(s, EnterLink(c)))
  {
    var s' := Apply(s, EnterLink(c));
    var u, k := s.cpus[c].u, s.cpus[c].k;
    assert PhaseOk(s, s.cpus[c]) && Partners(s, u, k);
    HeldMoves(s, s', c);
    HolderIsAlone(s, c);
    ExclusiveAfter(s, s', c);
    EnterLinkTable(s, c);
    EnterLinkPhases(s, c);
    assert !Active(s', u) && forall p :: Active(s', p) ==> Active(s, p) || p == k;
    forall a, b | Partners(s', a, b) ensures !(Active(s', a) && Active(s', b)) {
      assert Partners(s, a, b);
    }
  }

  lemma EnterLinkPhases(s: State, c: nat)
    requires Inv(s) && Enabled(s, EnterLink(c))
    ensures Phases(Apply(s, EnterLink(c)))
  {
    var s' := Apply(s, EnterLink(c));
    assert PhaseOk(s, s.cpus[c]);
    HeldMoves(s, s', c);
    EnterLinkTable(s, c);
    forall d | 0 <= d < |s.cpus| && d != c ensures PhaseOk(s', s'.cpus[d]) {
      assert PhaseOk(s, s.cpus[d]);
    }
  }

  /** A new process has no partner and is nobody's partner. */
  lemma ForkNewTable(s: State, c: nat)
    requires Links(s) && Counted(s) && Enabled(s, ForkNew(c)) && !Race(s, ForkNew(c))
    ensures var s' := Apply(s, ForkNew(c));
            && (forall a, b :: Partners(s', a, b) <==> Partners(s, a, b))
            && Links(s') && Counted(s')
  {
    var s' := Apply(s, ForkNew(c));
    assert forall p :: p in s.procs ==> s'.procs[p] == s.procs[p];
    PendingKept(s, s', c);
  }

  lemma ForkNewWakes(s: State, c: nat)
    requires Exclusive(s) && Counted(s) && Enabled(s, ForkNew(c)) && !Race(s, ForkNew(c))
    ensures var s' := Apply(s, ForkNew(c));
            !Active(s', User(s.users)) && forall p :: Active(s', p) ==> Active(s, p)
  {
    var s' := Apply(s, ForkNew(c));
    HeldMoves(s, s', c);
    assert User(s.users) !in s.procs && !HeldElsewhere(s, c, User(s.users));
  }

  lemma ForkNewPhases(s: State, c: nat)
    requires Inv(s) && Enabled(s, ForkNew(c)) && !Race(s, ForkNew(c))
    ensures Phases(Apply(s, ForkNew(c)))
  {
    var s' := Apply(s, ForkNew(c));
    var child := User(s.users);
    ForkNewTable(s, c);
    ForkNewWakes(s, c);
    forall d | 0 <= d < |s.cpus| && d != c
      ensures PhaseOk(s', s'.cpus[d]) && (s.cpus[d].InFork? ==> s.cpus[d].child != child)
    {
      assert PhaseOk(s, s.cpus[d]);
    }
    assert PhaseOk(s', s'.cpus[c]);
  }

  lemma ForkNewKeeps(s: State, c: nat)
    requires Inv(s) && Enabled(s, ForkNew(c)) && !Race(s, ForkNew(c))
    ensures Inv(Apply(s, ForkNew(c)))
  {
    var s' := Apply(s, ForkNew(c));
    HeldMoves(s, s', c);
    HolderIsAlone(s, c);
    ExclusiveAfter(s, s', c);
    ForkNewTable(s, c);
    ForkNewPhases(s, c);
    assert forall p :: Active(s', p) ==> Active(s, p);
  }

  lemma ExitTable(s: State, c: nat)
    requires Links(s) && Counted(s) && Enabled(s, Exit(c))
    ensures var s' := Apply(s, Exit(c)); var u := s.procs[s.cpus[c].p].buddy.value;
            && (forall a, b :: Partners(s', a, b) <==> Partners(s, a, b) && a != u)
            && Links(s') && Counted(s')
  {
    var s' := Apply(s, Exit(c));
    assert forall p :: p in s'.procs ==> p in s.procs && s'.procs[p] == s.procs[p];
    assert s.procs[s.cpus[c].p].buddy.value.User?;
    PendingKept(s, s', c);
  }

  /** What a processor is doing has nothing to do with user process u. */
  predicate NotAbout(cpu: Cpu, u: Pid) {
    match cpu
    case Loaded(v, _) => v != u
    case Stored(v) => v != u
    case Entry(v, _) => v != u
    case Entered(v, _) => v != u
    case LeaveA(_, v) => v != u
    case InFork(_, child) => child != u
    case _ => true
  }

  /** The process that exits is neither executing nor pickable, nor in any hand-over elsewhere. */
  lemma ExitIsAlone(s: State, c: nat)
    requires Inv(s) && Enabled(s, Exit(c))
    ensures var u := s.procs[s.cpus[c].p].buddy.value;
            !Active(s, u) && forall d :: 0 <= d < |s.cpus| && d != c ==> NotAbout(s.cpus[d], u)
  {
    var k := s.cpus[c].p;
    var u := s.procs[k].buddy.value;
    assert Partners(s, u, k);
    assert Held(s.cpus[c]) == k && IsHeld(s, k) && Active(s, k);
    forall d | 0 <= d < |s.cpus| && d != c ensures NotAbout(s.cpus[d], u) {
      assert PhaseOk(s, s.cpus[d]);
      assert IsHeld(s, Held(s.cpus[d]));
      if s.cpus[d].LeaveA? && s.cpus[d].u == u { OnePartner(s, u, k, s.cpus[d].k); }
    }
  }

  lemma ExitPhases(s: State, c: nat)
    requires Inv(s) && Enabled(s, Exit(c))
    ensures Phases(Apply(s, Exit(c)))
  {
    var s' := Apply(s, Exit(c));
    HeldMoves(s, s', c);
    ExitIsAlone(s, c);
    ExitTable(s, c);
    assert forall p :: Active(s', p) ==> Active(s, p) || p == Idle;
    forall d | 0 <= d < |s.cpus| && d != c ensures PhaseOk(s', s'.cpus[d]) {
      assert PhaseOk(s, s.cpus[d]);
      assert NotAbout(s.cpus[d], s.procs[s.cpus[c].p].buddy.value);
    }
  }

  /** The kernel process of a process that exits is given up with it. */
  lemma ExitOrphans(s: State, c: nat)
    requires Inv(s) && Enabled(s, Exit(c))
    ensures NoOrphanActive(Apply(s, Exit(c)))
  {
    var s' := Apply(s, Exit(c));
    var k := s.cpus[c].p;
    var u := s.procs[k].buddy.value;
    HeldMoves(s, s', c);
    HolderIsAlone(s, c);
    assert Partners(s, u, k) && !Active(s', k);
    forall b | Orphan(s', b) ensures !Active(s', b) {
      assert s'.procs[b] == s.procs[b];
      if s.procs[b].buddy == Some(u) {
        assert Partners(s, u, b);
        OnePartner(s, u, k, b);
      } else {
        assert Orphan(s, b);
      }
    }
  }

  lemma ExitKeeps(s: State, c: nat)
    requires Inv(s) && Enabled(s, Exit(c))
    ensures Inv(Apply(s, Exit(c)))
  {
    var s' := Apply(s, Exit(c));
    HeldMoves(s, s', c);
    ExitIsAlone(s, c);
    ExclusiveAfter(s, s', c);
    ExitTable(s, c);
    ExitPhases(s, c);
    ExitOrphans(s, c);
    assert forall p :: Active(s', p) ==> Active(s, p) || p == Idle;
    PhasesClean(s');
  }

  lemma PhasesClean(s: State)
    requires Phases(s)
    ensures NoneRepeated(s)
  {
    forall c | 0 <= c < |s.cpus| ensures !s.cpus[c].Repeated? { assert PhaseOk(s, s.cpus[c]); }
  }

  // ----- Whole runs -----

  lemma StepKeeps(s: State, e: Event)
    requires Inv(s) && Enabled(s, e) && !Race(s, e)
    ensures Inv(Apply(s, e))
  {
    match e
    case Tick(c) => TickKeeps(s, c);
    case Switch(c) => SwitchKeeps(s, c);
    case TestTicked(c) => TestTickedKeeps(s, c);
    case StopTicked(c) => StopTickedKeeps(s, c);
    case TestSwitched(c) => TestSwitchedKeeps(s, c);
    case StopSwitched(c) => StopSwitchedKeeps(s, c);
    case Look(c, next) => LookKeeps(s, c, next);
    case EnterLoad(c) => EnterLoadKeeps(s, c);
    case EnterStore(c) => EnterStoreKeeps(s, c);
    case EnterNew(c) => EnterNewKeeps(s, c);
    case EnterOld(c) => EnterOldKeeps(s, c);
    case EnterBlock(c) => EnterBlockKeeps(s, c);
    case EnterLink(c) => EnterLinkKeeps(s, c);
    case LeaveStart(c) => LeaveStartKeeps(s, c);
    case LeaveBlock(c) => LeaveBlockKeeps(s, c);
    case LeaveRun(c) => LeaveRunKeeps(s, c);
    case ForkLoad(c) => ForkLoadKeeps(s, c);
    case ForkStore(c) => ForkStoreKeeps(s, c);
    case ForkNew(c) => ForkNewKeeps(s, c);
    case ForkDone(c) => ForkDoneKeeps(s, c);
    case Exit(c) => ExitKeeps(s, c);
  }

  /** The race of the write leaves the process pickable while it, or its user process, is executing, or when there
      is no user process for it any more. */
  lemma StopRaceBreaks(s: State, e: Event)
    requires Inv(s) && Enabled(s, e) && StopRace(s, e)
    ensures !Safe(Apply(s, e))
  {
    var s' := Apply(s, e);
    var p := s.cpus[e.c].p;
    assert PhaseOk(s, s.cpus[e.c]);
    HeldMoves(s, s', e.c);
    assert IsState(s', p, Stopped) && Active(s', p);
    if IsHeld(s, p) {
      var d :| 0 <= d < |s.cpus| && Held(s.cpus[d]) == p;
      assert s'.cpus[d] == s.cpus[d];
    } else if PartnerActive(s, p) {
      var u :| Partners(s, u, p) && Active(s, u);
      assert Partners(s', u, p) && Active(s', u);
    } else {
      assert Orphan(s', p);
    }
  }

  lemma RaceBreaks(s: State, e: Event)
    requires Inv(s) && Enabled(s, e) && Race(s, e)
    ensures !Safe(Apply(s, e))
  {
    if StopRace(s, e) { StopRaceBreaks(s, e); } else { assert Apply(s, e).cpus[e.c].Repeated?; }
  }

  /** In a good state every kernel process that a processor works for, but the do-nothing process, has a live user
      process. */
  lemma HeldHasUser(s: State, c: nat)
    requires Inv(s) && c < |s.cpus| && Held(s.cpus[c]).Kern?
    ensures var k := Held(s.cpus[c]); k in s.procs && (s.procs[k].buddy.Some? ==> KernelWithUser(s, k))
  {
    var k := Held(s.cpus[c]);
    assert IsHeld(s, k);
    assert Active(s, k) && !Orphan(s, k);
  }

  /** A step from a good state ends in a safe one exactly when it is not the race. */
  lemma StepExact(s: State, e: Event)
    requires Inv(s) && Enabled(s, e)
    ensures Safe(Apply(s, e)) <==> !Race(s, e)
  {
    if Race(s, e) { RaceBreaks(s, e); } else { StepKeeps(s, e); }
  }
}
