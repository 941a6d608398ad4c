/** The boot handshake: the boot processor starts all others, waits until each has posted a
    semaphore, and then frees the semaphore (init/main.c, lib/sem.c, lib/lock.c).

    Every access to the semaphore's memory is one step. Steps of all processors interleave freely. */
module Boot {

  /** An application processor: not started, initialising, and then inside sem_post: the
      compare-and-swap that takes the lock, the load and the store of count++, the release. */
  datatype Ap = Off | Initialising | Acquire | Load | Store(seen: int) | Release | Parked

  /** The boot processor: launching processor i, in round i of the waiting loop, inside sem_trywait of
      that round (take the lock, test the count, write it back, release), freeing, done. */
  datatype Bsp =
    | Launch(i: nat)
    | Wait(i: nat)
    | Lock(i: nat)
    | Test(i: nat)
    | Take(i: nat, seen: int)
    | Unlock(i: nat, got: bool)
    | Destroy
    | Passed

  /** lock and count are the fields of the semaphore; it is allocated while `alive`. */
  datatype State = State(bsp: Bsp, aps: seq<Ap>, lock: bool, count: int, alive: bool)

  /** After sem_create(0). */
  predicate Init(s: State) {
    && s.bsp == Launch(0) && !s.lock && s.count == 0 && s.alive
    && forall k :: 0 <= k < |s.aps| ==> s.aps[k] == Off
  }

  /** spinlock_attempt_acquire either takes a free lock or leaves everything as it is. */
  predicate BspStep(s: State, s': State) {
    match s.bsp
    case Launch(i) =>
      if i < |s.aps| then s' == s.(bsp := Launch(i + 1), aps := s.aps[i := Initialising])
      else s' == s.(bsp := Wait(0))
    case Wait(i) => s' == s.(bsp := if i < |s.aps| then Lock(i) else Destroy)
    case Lock(i) => s' == if s.lock then s else s.(lock := true, bsp := Test(i))
    case Test(i) => s' == s.(bsp := if s.count > 0 then Take(i, s.count) else Unlock(i, false))
    case Take(i, seen) => s' == s.(count := seen - 1, bsp := Unlock(i, true))
    case Unlock(i, got) => s' == s.(lock := false, bsp := if got then Wait(i + 1) else Lock(i))
    case Destroy => s' == s.(alive := false, bsp := Passed)
    case Passed => s' == s
  }

  predicate ApStep(s: State, k: nat, s': State) {
    k < |s.aps| &&
    match s.aps[k]
    case Off => s' == s
    case Initialising => s' == s.(aps := s.aps[k := Acquire])
    case Acquire => s' == if s.lock then s else s.(lock := true, aps := s.aps[k := Load])
    case Load => s' == s.(aps := s.aps[k := Store(s.count)])
    case Store(seen) => s' == s.(count := seen + 1, aps := s.aps[k := Release])
    case Release => s' == s.(lock := false, aps := s.aps[k := Parked])
    case Parked => s' == s
  }

  ghost predicate Step(s: State, s': State) {
    BspStep(s, s') || exists k :: ApStep(s, k, s')
  }

  /** The next step of the processor reads or writes the semaphore. */
  predicate BspTouches(b: Bsp) { b.Lock? || b.Test? || b.Take? || b.Unlock? }

  predicate ApTouches(a: Ap) { a.Acquire? || a.Load? || a.Store? || a.Release? }

  // ----- Invariant -----

  predicate ApHolds(a: Ap) { a.Load? || a.Store? || a.Release? }

  predicate BspHolds(b: Bsp) { b.Test? || b.Take? || b.Unlock? }

  predicate HasPosted(a: Ap) { a.Release? || a.Parked? }

  /** How many processors have incremented the count. */
  function Posted(aps: seq<Ap>): nat {
    if aps == [] then 0 else Posted(aps[1..]) + (if HasPosted(aps[0]) then 1 else 0)
  }

  lemma {:induction false} PostedUpdate(aps: seq<Ap>, k: nat, a: Ap)
    requires k < |aps|
    ensures Posted(aps[k := a]) == Posted(aps) - (if HasPosted(aps[k]) then 1 else 0) + (if HasPosted(a) then 1 else 0)
  {
    if k > 0 {
      assert aps[k := a][1..] == aps[1..][k - 1 := a];
      PostedUpdate(aps[1..], k - 1, a);
    } else {
      assert aps[k := a][1..] == aps[1..];
    }
  }

  lemma {:induction false} PostedAll(aps: seq<Ap>)
    ensures Posted(aps) <= |aps|
    ensures Posted(aps) == |aps| ==> forall k :: 0 <= k < |aps| ==> HasPosted(aps[k])
  {
    if aps != [] { PostedAll(aps[1..]); }
  }

  lemma {:induction false} PostedNone(aps: seq<Ap>)
    requires forall k :: 0 <= k < |aps| ==> !HasPosted(aps[k])
    ensures Posted(aps) == 0
  {
    if aps != [] { PostedNone(aps[1..]); }
  }

  /** How many units the boot processor has taken, of those it wants. */
  function Taken(b: Bsp, n: nat): nat {
    match b
    case Launch(_) => 0
    case Wait(i) => i
    case Lock(i) => i
    case Test(i) => i
    case Take(i, _) => i
    case Unlock(i, got) => if got then i + 1 else i
    case Destroy => n
    case Passed => n
  }

  /** The lock is held by at most one processor, and held exactly when the lock word says so. */
  predicate Exclusive(s: State) {
    && (BspHolds(s.bsp) ==> s.lock)
    && (forall k :: 0 <= k < |s.aps| && ApHolds(s.aps[k]) ==> s.lock && !BspHolds(s.bsp))
    && (forall j, k :: 0 <= j < k < |s.aps| ==> !(ApHolds(s.aps[j]) && ApHolds(s.aps[k])))
    && (s.lock ==> BspHolds(s.bsp) || SomeApHolds(s.aps))
  }

  lemma HoldersUpdate(aps: seq<Ap>, k: nat, a: Ap)
    requires k < |aps|
    ensures ApHolds(a) ==> SomeApHolds(aps[k := a])
    ensures SomeApHolds(aps) && !ApHolds(aps[k]) ==> SomeApHolds(aps[k := a])
  {
    if ApHolds(a) {
      assert ApHolds(aps[k := a][k]);
    } else if SomeApHolds(aps) && !ApHolds(aps[k]) {
      var j :| 0 <= j < |aps| && ApHolds(aps[j]);
      assert ApHolds(aps[k := a][j]);
    }
  }

  predicate SomeApHolds(aps: seq<Ap>) { exists k :: 0 <= k < |aps| && ApHolds(aps[k]) }

  /** The value a processor has loaded inside the lock is still the count. */
  predicate Fresh(s: State) {
    && (s.bsp.Take? ==> s.bsp.seen == s.count && s.count > 0)
    && (forall k :: 0 <= k < |s.aps| && s.aps[k].Store? ==> s.aps[k].seen == s.count)
  }

  /** How many processors have been launched. */
  function Started(s: State): (n: nat)
    ensures n <= |s.aps|
  {
    if s.bsp.Launch? && s.bsp.i <= |s.aps| then s.bsp.i else |s.aps|
  }

  predicate Inv(s: State) { Exclusive(s) && Fresh(s) && Counted(s) }

  /** The count is what has been posted and not taken, and who has not been launched is off. */
  predicate Counted(s: State) {
    && s.count >= 0 && s.count == Posted(s.aps) - Taken(s.bsp, |s.aps|)
    && Taken(s.bsp, |s.aps|) <= |s.aps|
    && (s.bsp.Lock? || s.bsp.Test? || s.bsp.Take? || s.bsp.Unlock? ==> s.bsp.i < |s.aps|)
    && (s.bsp.Launch? ==> s.bsp.i <= |s.aps| && forall k :: s.bsp.i <= k < |s.aps| ==> s.aps[k] == Off)
    && (forall k :: 0 <= k < Started(s) ==> s.aps[k] != Off)
    && (Taken(s.bsp, |s.aps|) == |s.aps| && !s.bsp.Launch? ==> AllParked(s))
    && (s.alive <==> !s.bsp.Passed?)
  }

  predicate AllParked(s: State) { forall k :: 0 <= k < |s.aps| ==> s.aps[k] == Parked }

  lemma InitInv(s: State)
    requires Init(s)
    ensures Inv(s)
  {
    PostedNone(s.aps);
  }

  /** Once all units are taken inside the lock, everyone has posted and let go of the lock. */
  lemma LastUnit(s: State)
    requires Inv(s) && s.bsp.Take? && s.bsp.i + 1 == |s.aps|
    ensures AllParked(s)
  {
    PostedAll(s.aps);
    assert forall k :: 0 <= k < |s.aps| ==> HasPosted(s.aps[k]) && !ApHolds(s.aps[k]);
  }

  lemma LaunchInv(s: State, s': State)
    requires Inv(s) && BspStep(s, s') && s.bsp.Launch?
    ensures Inv(s')
  {
    if s.bsp.i < |s.aps| {
      PostedUpdate(s.aps, s.bsp.i, Initialising);
      HoldersUpdate(s.aps, s.bsp.i, Initialising);
    } else {
      PostedAll(s.aps);
    }
  }

  lemma TakeInv(s: State, s': State)
    requires Inv(s) && BspStep(s, s') && s.bsp.Take?
    ensures Inv(s')
  {
    if s.bsp.i + 1 == |s.aps| { LastUnit(s); }
  }

  lemma BspStepInv(s: State, s': State)
    requires Inv(s) && BspStep(s, s')
    ensures Inv(s')
  {
    match s.bsp
    case Launch(_) => LaunchInv(s, s');
    case Take(_, _) => TakeInv(s, s');
    case _ =>
  }

  lemma ApStepInv(s: State, k: nat, s': State)
    requires Inv(s) && ApStep(s, k, s')
    ensures Inv(s')
  {
    ApExclusive(s, k, s');
    ApFresh(s, k, s');
    ApCounted(s, k, s');
  }

  lemma ApCounted(s: State, k: nat, s': State)
    requires Exclusive(s) && Fresh(s) && Counted(s) && ApStep(s, k, s')
    ensures Counted(s')
  {
    if s' != s {
      assert s'.aps == s.aps[k := s'.aps[k]] && s'.bsp == s.bsp && s'.alive == s.alive;
      PostedUpdate(s.aps, k, s'.aps[k]);
    }
  }

  lemma ApFresh(s: State, k: nat, s': State)
    requires Exclusive(s) && Fresh(s) && ApStep(s, k, s')
    ensures Fresh(s')
  {}

  lemma ApExclusive(s: State, k: nat, s': State)
    requires Exclusive(s) && ApStep(s, k, s')
    ensures Exclusive(s')
  {
    if s' != s && !(s.aps[k].Acquire? && s.lock) { HoldersUpdate(s.aps, k, s'.aps[k]); }
  }

  // ----- Runs -----

  ghost predicate Run(t: seq<State>) {
    && |t| > 0 && Init(t[0])
    && forall i :: 0 <= i < |t| - 1 ==> Step(t[i], t[i + 1])
  }

  lemma {:induction false} RunInv(t: seq<State>, i: nat)
    requires Run(t) && i < |t|
    ensures Inv(t[i])
  {
    if i == 0 {
      InitInv(t[0]);
    } else {
      RunInv(t, i - 1);
      assert Step(t[i - 1], t[i]);
      if BspStep(t[i - 1], t[i]) {
        BspStepInv(t[i - 1], t[i]);
      } else {
        var k :| ApStep(t[i - 1], k, t[i]);
        ApStepInv(t[i - 1], k, t[i]);
      }
    }
  }

  /** In every run with any number of processors: the boot processor gets past the handshake only after
      every other processor has posted and returned; no processor touches the semaphore once it
      is freed; and the lock is never held twice. */
  lemma HandshakeSafe(t: seq<State>, i: nat)
    requires Run(t) && i < |t|
    ensures t[i].bsp.Destroy? || t[i].bsp.Passed? ==> AllParked(t[i])
    ensures !t[i].alive ==> !BspTouches(t[i].bsp) && forall k :: 0 <= k < |t[i].aps| ==> !ApTouches(t[i].aps[k])
    ensures Exclusive(t[i])
  {
    RunInv(t, i);
  }

  // ----- The handshake comes to its end -----

  function ApLeft(a: Ap): nat {
    match a
    case Off => 6
    case Initialising => 5
    case Acquire => 4
    case Load => 3
    case Store(_) => 2
    case Release => 1
    case Parked => 0
  }

  function ApsLeft(aps: seq<Ap>): nat {
    if aps == [] then 0 else ApLeft(aps[0]) + ApsLeft(aps[1..])
  }

  lemma {:induction false} ApsLeftUpdate(aps: seq<Ap>, k: nat, a: Ap)
    requires k < |aps|
    ensures ApsLeft(aps[k := a]) == ApsLeft(aps) - ApLeft(aps[k]) + ApLeft(a)
  {
    if k > 0 {
      assert aps[k := a][1..] == aps[1..][k - 1 := a];
      ApsLeftUpdate(aps[1..], k - 1, a);
    } else {
      assert aps[k := a][1..] == aps[1..];
    }
  }

  /** What is left for the boot processor, with n processors to wait for. A look at a count of 0 goes in vain. */
  function BspLeft(b: Bsp, n: nat, count: int): int {
    match b
    case Launch(i) => 7 * n + 3 + (n - i)
    case Wait(i) => 7 * (n - i) + 2
    case Lock(i) => 7 * (n - i)
    case Test(i) => if count > 0 then 7 * (n - i) - 1 else 7 * (n - i) + 2
    case Take(i, _) => 7 * (n - i) - 2
    case Unlock(i, got) => if got then 7 * (n - i) - 3 else 7 * (n - i) + 1
    case Destroy => 1
    case Passed => 0
  }

  function Left(s: State): int { BspLeft(s.bsp, |s.aps|, s.count) + ApsLeft(s.aps) }

  lemma LeftIsNat(s: State)
    requires Inv(s)
    ensures Left(s) >= 0
  {}

  lemma BspProgress(s: State) returns (s': State)
    requires Inv(s) && !s.bsp.Passed? && (s.bsp.Lock? ==> !s.lock && s.count > 0)
    ensures BspStep(s, s') && Left(s') < Left(s)
  {
    match s.bsp
    case Launch(i) =>
      if i < |s.aps| {
        s' := s.(bsp := Launch(i + 1), aps := s.aps[i := Initialising]);
        ApsLeftUpdate(s.aps, i, Initialising);
      } else {
        s' := s.(bsp := Wait(0));
      }
    case Wait(i) => s' := s.(bsp := if i < |s.aps| then Lock(i) else Destroy);
    case Lock(i) => s' := s.(lock := true, bsp := Test(i));
    case Test(i) => s' := s.(bsp := if s.count > 0 then Take(i, s.count) else Unlock(i, false));
    case Take(i, seen) => s' := s.(count := seen - 1, bsp := Unlock(i, true));
    case Unlock(i, got) => s' := s.(lock := false, bsp := if got then Wait(i + 1) else Lock(i));
    case Destroy => s' := s.(alive := false, bsp := Passed);
  }

  /** A processor inside sem_post comes nearer to its end, and so does one before it while the lock is free. The boot
      processor does not look at the count meanwhile. */
  lemma ApProgress(s: State, k: nat) returns (s': State)
    requires Inv(s) && k < |s.aps| && s.aps[k] != Off && s.aps[k] != Parked
    requires ApHolds(s.aps[k]) || (!s.lock && !s.aps[k].Release?)
    ensures ApStep(s, k, s') && Left(s') < Left(s)
  {
    match s.aps[k] {
      case Initialising => s' := s.(aps := s.aps[k := Acquire]);
      case Acquire => s' := s.(lock := true, aps := s.aps[k := Load]);
      case Load => s' := s.(aps := s.aps[k := Store(s.count)]);
      case Store(seen) => s' := s.(count := seen + 1, aps := s.aps[k := Release]);
      case Release => s' := s.(lock := false, aps := s.aps[k := Parked]);
    }
    ApsLeftUpdate(s.aps, k, s'.aps[k]);
  }

  lemma {:induction false} NotAllPosted(aps: seq<Ap>) returns (k: nat)
    requires Posted(aps) < |aps|
    ensures k < |aps| && !HasPosted(aps[k])
  {
    if HasPosted(aps[0]) {
      k := NotAllPosted(aps[1..]);
      k := k + 1;
    } else {
      k := 0;
    }
  }

  /** In every good state before the end some processor has a step that brings the end nearer. */
  lemma Progress(s: State) returns (s': State)
    requires Inv(s) && !s.bsp.Passed?
    ensures Step(s, s') && Inv(s') && Left(s') < Left(s)
  {
    if SomeApHolds(s.aps) {
      var k :| 0 <= k < |s.aps| && ApHolds(s.aps[k]);
      s' := ApProgress(s, k);
      ApStepInv(s, k, s');
    } else if s.bsp.Lock? && s.count == 0 {
      var k := NotAllPosted(s.aps);
      s' := ApProgress(s, k);
      ApStepInv(s, k, s');
    } else {
      s' := BspProgress(s);
      BspStepInv(s, s');
    }
  }

  /** From every good state the handshake can be finished: all processors parked, all units taken, semaphore freed. */
  lemma {:induction false} Finishes(s: State) returns (t: seq<State>)
    requires Inv(s)
    ensures |t| > 0 && t[0] == s && forall i :: 0 <= i < |t| - 1 ==> Step(t[i], t[i + 1])
    ensures var end := t[|t| - 1]; end.bsp == Passed && AllParked(end) && end.count == 0 && !end.alive
    decreases Left(s)
  {
    LeftIsNat(s);
    if s.bsp.Passed? {
      t := [s];
      PostedParked(s.aps);
    } else {
      var s' := Progress(s);
      LeftIsNat(s');
      var rest := Finishes(s');
      t := [s] + rest;
      forall i | 0 <= i < |t| - 1 ensures Step(t[i], t[i + 1]) {
        if i > 0 { assert Step(rest[i - 1], rest[i]); }
      }
    }
  }

  lemma {:induction false} PostedParked(aps: seq<Ap>)
    requires forall k :: 0 <= k < |aps| ==> aps[k] == Parked
    ensures Posted(aps) == |aps|
  {
    if aps != [] { PostedParked(aps[1..]); }
  }

  /** Every run, with any number of processors and wherever it has got to, can be continued to the end. */
  lemma HandshakeEnds(t: seq<State>) returns (t': seq<State>)
    requires Run(t)
    ensures Run(t') && |t'| >= |t| && t'[..|t|] == t
    ensures var end := t'[|t'| - 1]; end.bsp == Passed && AllParked(end) && end.count == 0 && !end.alive
  {
    RunInv(t, |t| - 1);
    var rest := Finishes(t[|t| - 1]);
    t' := t + rest[1..];
    forall i | 0 <= i < |t'| - 1 ensures Step(t'[i], t'[i + 1]) {
      if i < |t| - 1 { assert Step(t[i], t[i + 1]); } else { assert Step(rest[i - |t| + 1], rest[i - |t| + 2]); }
    }
  }
}
