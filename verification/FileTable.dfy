/** Reference counts of files over open, fork and exit (sched/syscall.c, sched/proc.c). */
module FileTable {
  import opened Common
  import opened RbShape
  import opened RbHeap
  import opened Descriptors

  // ----- All descriptors of all processes -----

  /** A live process and its descriptors 0, 1, 2, ... */
  datatype Proc = Proc(pid: int, fds: seq<Extra>)

  /** The files that the descriptors from number k on point to. A file is named by the number of the vfs_open
      call that made it. */
  ghost function FilesFrom(fds: seq<Extra>, k: nat): multiset<Key>
    requires k <= |fds|
    decreases |fds| - k
  {
    if k == |fds| then multiset{} else multiset{fds[k].value} + FilesFrom(fds, k + 1)
  }

  ghost function FilesOf(fds: seq<Extra>): multiset<Key> { FilesFrom(fds, 0) }

  lemma {:induction false} FileOfEach(fds: seq<Extra>, j: nat, k: nat)
    requires j <= k < |fds|
    ensures fds[k].value in FilesFrom(fds, j)
    decreases k - j
  {
    if j < k { FileOfEach(fds, j + 1, k); }
  }

  lemma {:induction false} FilesSnoc(fds: seq<Extra>, desc: Extra, k: nat)
    requires k <= |fds|
    ensures FilesFrom(fds + [desc], k) == FilesFrom(fds, k) + multiset{desc.value}
    decreases |fds| - k
  {
    if k < |fds| { FilesSnoc(fds, desc, k + 1); }
  }

  ghost function Held(procs: seq<Proc>): multiset<Key> {
    if procs == [] then multiset{} else FilesOf(procs[0].fds) + Held(procs[1..])
  }

  lemma WithoutTail<T>(s: seq<T>, i: nat)
    requires i < |s|
    ensures i == 0 ==> Without(s, i) == s[1..]
    ensures i > 0 ==> Without(s, i) == [s[0]] + Without(s[1..], i - 1)
  {}

  lemma {:induction false} HeldSplit(procs: seq<Proc>, i: nat)
    requires i < |procs|
    ensures Held(procs) == Held(Without(procs, i)) + FilesOf(procs[i].fds)
  {
    WithoutTail(procs, i);
    if i > 0 {
      HeldSplit(procs[1..], i - 1);
      assert procs[i] == procs[1..][i - 1];
    }
  }

  lemma {:induction false} HeldAppend(procs: seq<Proc>, p: Proc)
    ensures Held(procs + [p]) == Held(procs) + FilesOf(p.fds)
  {
    if procs != [] {
      assert (procs + [p])[1..] == procs[1..] + [p];
      HeldAppend(procs[1..], p);
    } else {
      assert (procs + [p])[1..] == [];
    }
  }

  lemma HeldOpen(procs: seq<Proc>, i: nat, desc: Extra)
    requires i < |procs|
    ensures Held(procs[i := Proc(procs[i].pid, procs[i].fds + [desc])]) == Held(procs) + multiset{desc.value}
  {
    var fds := procs[i].fds + [desc];
    var procs' := procs[i := Proc(procs[i].pid, fds)];
    HeldSplit(procs, i);
    HeldSplit(procs', i);
    assert Without(procs, i) == Without(procs', i);
    FilesSnoc(procs[i].fds, desc, 0);
  }

  // ----- Exact counts -----

  /** The reference count of a file, and how many times vfs_close has been called on it. */
  datatype Use = Use(refcount: nat, closes: nat)

  /** With `held` all descriptors: every count is exact, and exactly the files without a
      descriptor have been closed, once. */
  ghost predicate Counts(files: seq<Use>, held: multiset<Key>) {
    && (forall f :: f in held ==> f < |files|)
    && (forall f: Key :: 0 <= f < |files| ==> files[f] == Use(held[f], if held[f] == 0 then 1 else 0))
  }

  function Raised(u: Use): Use { u.(refcount := u.refcount + 1) }

  /** One reference less, and the file is closed with the last. */
  function Dropped(u: Use): Use
    requires u.refcount > 0
  {
    Use(u.refcount - 1, if u.refcount == 1 then u.closes + 1 else u.closes)
  }

  lemma OneMore(files: seq<Use>, held: multiset<Key>, f: Key)
    requires Counts(files, held) && f in held
    ensures f < |files| && Counts(files[f := Raised(files[f])], held + multiset{f})
  {}

  lemma OneLess(files: seq<Use>, held: multiset<Key>, f: Key)
    requires Counts(files, held + multiset{f})
    ensures f < |files| && files[f].refcount > 0 && Counts(files[f := Dropped(files[f])], held)
  {
    assert f in held + multiset{f};
    var files' := files[f := Dropped(files[f])];
    forall g: Key | 0 <= g < |files| ensures files'[g] == Use(held[g], if held[g] == 0 then 1 else 0) {
      assert (held + multiset{f})[g] == held[g] + if g == f then 1 else 0;
    }
    assert forall g :: g in held ==> g in held + multiset{f};
  }

  lemma NewFile(files: seq<Use>, held: multiset<Key>, f: Key)
    requires Counts(files, held) && f == |files|
    ensures Counts(files + [Use(1, 0)], held + multiset{f})
  {}

  // ----- What the three calls do -----

  /** Process number i opens a file with some flags, forks a child, or exits. */
  datatype Event = Open(i: nat, flags: Key) | Fork(i: nat, child: int) | Exit(i: nat)

  /** The processes, and the number of files there have been. */
  datatype State = State(procs: seq<Proc>, made: nat)

  function Next(s: State, ev: Event): State {
    if ev.i >= |s.procs| then s else
      var p := s.procs[ev.i];
      match ev
      case Open(i, flags) =>
        if s.made < WORD then State(s.procs[i := Proc(p.pid, p.fds + [Extra(s.made, 0, flags)])], s.made + 1) else s
      case Fork(_, child) => State(s.procs + [Proc(child, p.fds)], s.made)
      case Exit(i) => State(Without(s.procs, i), s.made)
  }

  /** The state after a run from one process without descriptors. */
  function After(init: int, events: seq<Event>): State {
    if events == [] then State([Proc(init, [])], 0)
    else Next(After(init, events[..|events| - 1]), events[|events| - 1])
  }

  // ----- What the calls mean for processes and files -----

  /** Process i has one descriptor more, for a new file at position 0 with the given flags, and every other process
      has what it had. The file has one reference. */
  ghost predicate Opened(view: seq<Proc>, view': seq<Proc>, files: seq<Use>, files': seq<Use>, i: nat, flags: Key)
    requires i < |view| && |files| < WORD
  {
    && |view'| == |view| && (forall j :: 0 <= j < |view| && j != i ==> view'[j] == view[j])
    && view'[i].pid == view[i].pid && view'[i].fds == view[i].fds + [Extra(|files|, 0, flags)]
    && |files'| == |files| + 1 && (forall f :: 0 <= f < |files| ==> files'[f] == files[f])
    && files'[|files|].refcount == 1 && files'[|files|].closes == 0
  }

  /** There is a new process with the descriptors of process i, and every other process has what it had. Each file has
      as many references more as process i has descriptors for it, and none is closed. */
  ghost predicate Forked(view: seq<Proc>, view': seq<Proc>, files: seq<Use>, files': seq<Use>, i: nat, child: int)
    requires i < |view|
  {
    && |view'| == |view| + 1 && (forall j :: 0 <= j < |view| ==> view'[j] == view[j])
    && view'[|view|].pid == child && view'[|view|].fds == view[i].fds
    && |files'| == |files|
    && forall f: Key :: 0 <= f < |files| ==> Shared(files[f], files'[f], FilesOf(view[i].fds)[f])
  }

  /** n references more, or less. */
  ghost predicate Shared(u: Use, u': Use, n: nat) { u'.refcount == u.refcount + n && u'.closes == u.closes }

  ghost predicate Released(u: Use, u': Use, n: nat) {
    u'.refcount == u.refcount - n && u'.closes == u.closes + if u.refcount > 0 && u'.refcount == 0 then 1 else 0
  }

  /** Process i is gone, and every other process has what it had. Each file has as many references less as process i
      had descriptors for it, and is closed if it had some and has none now. */
  ghost predicate Exited(view: seq<Proc>, view': seq<Proc>, files: seq<Use>, files': seq<Use>, i: nat)
    requires i < |view|
  {
    && |view'| == |view| - 1 && (forall j :: 0 <= j < |view'| ==> view'[j] == view[if j < i then j else j + 1])
    && |files'| == |files|
    && forall f: Key :: 0 <= f < |files| ==> Released(files[f], files'[f], FilesOf(view[i].fds)[f])
  }

  lemma FewerHeld(files: seq<Use>, files': seq<Use>, held: multiset<Key>, d: multiset<Key>)
    requires Counts(files, held + d) && Counts(files', held) && |files'| == |files|
    ensures forall f: Key :: 0 <= f < |files| ==> Released(files[f], files'[f], d[f])
  {}

  lemma MoreHeld(files: seq<Use>, files': seq<Use>, held: multiset<Key>, d: multiset<Key>)
    requires Counts(files, held) && Counts(files', held + d) && |files'| == |files| && d <= held
    ensures forall f: Key :: 0 <= f < |files| ==> Shared(files[f], files'[f], d[f])
  {}

  lemma FilesOfHeld(view: seq<Proc>, i: nat)
    requires i < |view|
    ensures FilesOf(view[i].fds) <= Held(view)
  {
    HeldSplit(view, i);
  }

  lemma OpenMeans(view: seq<Proc>, files: seq<Use>, i: nat, flags: Key)
    requires i < |view| && |files| < WORD
    ensures Opened(view, Next(State(view, |files|), Open(i, flags)).procs, files, files + [Use(1, 0)], i, flags)
  {}

  lemma ForkMeans(view: seq<Proc>, files: seq<Use>, files': seq<Use>, i: nat, child: int) returns (view': seq<Proc>)
    requires i < |view| && Counts(files, Held(view)) && |files'| == |files|
    requires Counts(files', Held(view) + FilesOf(view[i].fds))
    ensures view' == Next(State(view, |files|), Fork(i, child)).procs == view + [Proc(child, view[i].fds)]
    ensures Forked(view, view', files, files', i, child)
  {
    view' := view + [Proc(child, view[i].fds)];
    FilesOfHeld(view, i);
    MoreHeld(files, files', Held(view), FilesOf(view[i].fds));
  }

  lemma ExitMeans(view: seq<Proc>, files: seq<Use>, files': seq<Use>, i: nat) returns (view': seq<Proc>)
    requires i < |view| && Counts(files, Held(view)) && |files'| == |files|
    requires Counts(files', Held(Without(view, i)))
    ensures view' == Next(State(view, |files|), Exit(i)).procs == Without(view, i)
    ensures Exited(view, view', files, files', i)
  {
    view' := Without(view, i);
    HeldSplit(view, i);
    FewerHeld(files, files', Held(view'), FilesOf(view[i].fds));
  }

  // ----- The code -----

  datatype Process = Process(pid: int, fdMap: RbTree)

  /** Every process has its map in memory of its own inside `region`. */
  ghost predicate Separate(procs: seq<Process>, region: set<object>)
    reads region
  {
    && (forall i :: 0 <= i < |procs| ==> procs[i].fdMap in region && procs[i].fdMap.repr <= region)
    && (forall i, j :: 0 <= i < j < |procs| ==>
          procs[i].fdMap != procs[j].fdMap && procs[i].fdMap.repr !! procs[j].fdMap.repr)
  }

  /** The maps of the processes hold the descriptors of `view`. */
  ghost predicate Match(procs: seq<Process>, view: seq<Proc>, region: set<object>)
    requires Separate(procs, region)
    reads region
  {
    |view| == |procs| &&
    forall i :: 0 <= i < |procs| ==> procs[i].pid == view[i].pid && Maps(procs[i].fdMap, view[i].fds)
  }

  /** A new descriptor in one process's map; the maps of all others stay as they are. */
  method EnterInto(procs: seq<Process>, i: nat, desc: Extra, ghost view: seq<Proc>, ghost region: set<object>)
    returns (fd: Key)
    requires Separate(procs, region) && Match(procs, view, region) && i < |procs| && |view[i].fds| < WORD
    modifies procs[i].fdMap, procs[i].fdMap.repr
    ensures fresh(procs[i].fdMap.repr - old(procs[i].fdMap.repr))
    ensures Separate(procs, region + procs[i].fdMap.repr)
    ensures Match(procs, view[i := Proc(view[i].pid, view[i].fds + [desc])], region + procs[i].fdMap.repr)
    ensures fd == |view[i].fds|
  {
    fd := NewDescriptor(procs[i].fdMap, desc, view[i].fds);
  }

  /** The counts are exact, and no process has more descriptors than there have been files. */
  ghost predicate Exact(files: seq<Use>, view: seq<Proc>) {
    Counts(files, Held(view)) && |files| <= WORD && forall i :: 0 <= i < |view| ==> |view[i].fds| <= |files|
  }

  lemma OpenExact(files: seq<Use>, view: seq<Proc>, i: nat, desc: Extra)
    requires Exact(files, view) && i < |view| && desc.value == |files| < WORD
    ensures Exact(files + [Use(1, 0)], view[i := Proc(view[i].pid, view[i].fds + [desc])])
  {
    NewFile(files, Held(view), desc.value);
    HeldOpen(view, i, desc);
  }

  /** The files of the kernel and its processes, whose maps are in `region` and hold the descriptors of `view`. */
  datatype Table = Table(procs: seq<Process>, files: seq<Use>)

  ghost predicate Valid(t: Table, view: seq<Proc>, region: set<object>)
    reads region
  {
    Separate(t.procs, region) && Match(t.procs, view, region) && Exact(t.files, view)
  }

  method Boot(init: int) returns (t: Table, ghost region: set<object>)
    ensures Valid(t, [Proc(init, [])], region) && t.files == [] && fresh(region)
  {
    var fdMap := new RbTree();
    t := Table([Process(init, fdMap)], []);
    region := {fdMap};
    assert Held([Proc(init, [])]) == multiset{};
  }

  /** sys_open in process i. vfs_open makes a file with count 0, or fails without memory. */
  method OpenFile(t: Table, i: nat, flags: Key, ghost view: seq<Proc>, ghost region: set<object>)
    returns (t': Table, fd: Option<Key>, ghost view': seq<Proc>, ghost region': set<object>)
    requires Valid(t, view, region) && i < |t.procs|
    modifies region
    ensures Valid(t', view', region') && fresh(region' - region)
    ensures State(view', |t'.files|) == Next(State(view, |t.files|), Open(i, flags))
    ensures fd == if |t.files| < WORD then Some(|view[i].fds|) else None
    ensures |t.files| < WORD ==> Opened(view, view', t.files, t'.files, i, flags)
    ensures |t.files| == WORD ==> t' == t && view' == view
  {
    t', view', region' := t, view, region;
    if |t.files| == WORD {
      return t', None, view', region';
    }
    var file: Key := |t.files|;
    OpenExact(t.files, view, i, Extra(file, 0, flags));
    OpenMeans(view, t.files, i, flags);
    var files := t.files + [Use(0, 0)];
    files := files[file := Raised(files[file])];
    assert files == t.files + [Use(1, 0)];
    var n := EnterInto(t.procs, i, Extra(file, 0, flags), view, region);
    t', fd := t.(files := files), Some(n);
    region' := region + t.procs[i].fdMap.repr;
    view' := view[i := Proc(view[i].pid, view[i].fds + [Extra(file, 0, flags)])];
  }

  /** The counts in the loop of sys_fork, with `now` all descriptors so far: those from before the fork, which
      include the parent's, and copies of the parent's descriptors below number k. */
  ghost predicate Copying(files: seq<Use>, fds: seq<Extra>, k: nat, held: multiset<Key>, now: multiset<Key>) {
    && Counts(files, now) && FilesOf(fds) <= now
    && k <= |fds| && now + FilesFrom(fds, k) == held + FilesOf(fds)
  }

  lemma CopyingOneMore(files: seq<Use>, fds: seq<Extra>, k: nat, held: multiset<Key>, now: multiset<Key>)
    returns (files': seq<Use>, now': multiset<Key>)
    requires Copying(files, fds, k, held, now) && k < |fds|
    ensures var f := fds[k].value; f < |files| && files' == files[f := Raised(files[f])]
    ensures Copying(files', fds, k + 1, held, now')
  {
    FileOfEach(fds, 0, k);
    OneMore(files, now, fds[k].value);
    files' := files[fds[k].value := Raised(files[fds[k].value])];
    now' := now + multiset{fds[k].value};
  }

  lemma CopyingDone(files: seq<Use>, fds: seq<Extra>, held: multiset<Key>, now: multiset<Key>)
    requires Copying(files, fds, |fds|, held, now)
    ensures Counts(files, held + FilesOf(fds))
  {
    assert now == now + FilesFrom(fds, |fds|);
  }

  /** The loop of sys_fork before round k: the child has the descriptors below number k. */
  ghost predicate CopyState(files: seq<Use>, parent: RbTree, child: RbTree, node: RbNode?,
                            fds: seq<Extra>, k: nat, held: multiset<Key>, now: multiset<Key>)
    reads parent, parent.repr, child, child.repr
  {
    && Stands(parent, fds, node, k) && Maps(child, fds[..k]) && parent != child && parent.repr !! child.repr
    && Copying(files, fds, k, held, now)
  }

  /** One round of the loop of sys_fork. */
  method CopyOne(files0: seq<Use>, parent: RbTree, child: RbTree, node: RbNode,
                 ghost fds: seq<Extra>, ghost k: nat, ghost held: multiset<Key>, ghost now: multiset<Key>)
    returns (files: seq<Use>, next: RbNode?, ghost now': multiset<Key>)
    requires CopyState(files0, parent, child, node, fds, k, held, now)
    modifies child, child.repr
    ensures k < |fds| && CopyState(files, parent, child, next, fds, k + 1, held, now') && |files| == |files0|
    ensures fresh(child.repr - old(child.repr))
  {
    StandsAt(parent, fds, node, k);
    ghost var raised;
    raised, now' := CopyingOneMore(files0, fds, k, held, now);
    var file := node.extra.value;
    files := files0[file := Raised(files0[file])];
    next := CopyDescriptor(parent, child, node, fds, k);
  }

  lemma CopyStateDone(files: seq<Use>, parent: RbTree, child: RbTree,
                      fds: seq<Extra>, k: nat, held: multiset<Key>, now: multiset<Key>)
    requires CopyState(files, parent, child, null, fds, k, held, now)
    ensures Maps(child, fds) && Copying(files, fds, |fds|, held, now)
  {
    assert fds[..k] == fds;
  }

  /** The loop of sys_fork: each file gets a reference, and the child the same descriptor. */
  method CopyInto(files0: seq<Use>, parent: RbTree, child: RbTree, ghost fds: seq<Extra>, ghost held: multiset<Key>)
    returns (files: seq<Use>, ghost now: multiset<Key>)
    requires Maps(parent, fds) && Maps(child, []) && parent != child && parent.repr !! child.repr
    requires Copying(files0, fds, 0, held, held)
    modifies child, child.repr
    ensures Maps(child, fds) && fresh(child.repr - old(child.repr))
    ensures |files| == |files0| && Copying(files, fds, |fds|, held, now)
  {
    var node := First(parent, fds);
    ghost var k := 0;
    files, now := files0, held;
    ghost var repr := child.repr;
    while node != null
      invariant CopyState(files, parent, child, node, fds, k, held, now) && k <= |fds|
      invariant fresh(child.repr - repr) && |files| == |files0|
      decreases |fds| - k
    {
      files, node, now := CopyOne(files, parent, child, node, fds, k, held, now);
      k := k + 1;
    }
    CopyStateDone(files, parent, child, fds, k, held, now);
  }

  /** The new map of the child. */
  method CopyAll(files0: seq<Use>, parent: RbTree, ghost fds: seq<Extra>, ghost held: multiset<Key>)
    returns (files: seq<Use>, child: RbTree)
    requires Maps(parent, fds) && Counts(files0, held) && FilesOf(fds) <= held
    ensures fresh(child) && fresh(child.repr) && Maps(child, fds)
    ensures |files| == |files0| && Counts(files, held + FilesOf(fds))
  {
    child := new RbTree();
    ghost var now;
    files, now := CopyInto(files0, parent, child, fds, held);
    CopyingDone(files, fds, held, now);
  }

  lemma ForkExact(files: seq<Use>, view: seq<Proc>, i: nat, files': seq<Use>, child: int)
    requires Exact(files, view) && i < |view| && |files'| == |files|
    requires Counts(files', Held(view) + FilesOf(view[i].fds))
    ensures Exact(files', view + [Proc(child, view[i].fds)])
  {
    HeldAppend(view, Proc(child, view[i].fds));
  }

  /** sys_fork by process i. */
  method ForkProcess(t: Table, i: nat, pid: int, ghost view: seq<Proc>, ghost region: set<object>)
    returns (t': Table, ghost view': seq<Proc>, ghost region': set<object>)
    requires Valid(t, view, region) && i < |t.procs|
    ensures Valid(t', view', region') && fresh(region' - region)
    ensures State(view', |t'.files|) == Next(State(view, |t.files|), Fork(i, pid))
    ensures Forked(view, view', t.files, t'.files, i, pid)
  {
    FilesOfHeld(view, i);
    var files, child := CopyAll(t.files, t.procs[i].fdMap, view[i].fds, Held(view));
    view' := ForkMeans(view, t.files, files, i, pid);
    ForkExact(t.files, view, i, files, pid);
    AppendKeeps(t.procs, view, region, Process(pid, child), view[i].fds);
    t' := Table(t.procs + [Process(pid, child)], files);
    region' := region + {child} + child.repr;
  }

  /** A process more, with memory of its own, or a process less. */
  lemma AppendKeeps(procs: seq<Process>, view: seq<Proc>, region: set<object>, p: Process, fds: seq<Extra>)
    requires Separate(procs, region) && Match(procs, view, region)
    requires p.fdMap !in region && p.fdMap.repr !! region && Maps(p.fdMap, fds)
    ensures Separate(procs + [p], region + {p.fdMap} + p.fdMap.repr)
    ensures Match(procs + [p], view + [Proc(p.pid, fds)], region + {p.fdMap} + p.fdMap.repr)
  {}

  lemma WithoutKeeps(procs: seq<Process>, view: seq<Proc>, region: set<object>, i: nat)
    requires Separate(procs, region) && Match(procs, view, region) && i < |procs|
    ensures Separate(Without(procs, i), region) && Match(Without(procs, i), Without(view, i), region)
  {}

  /** The descriptor loop of proc_term. */
  method DropAll(files0: seq<Use>, fdMap: RbTree, ghost fds: seq<Extra>, ghost rest: multiset<Key>)
    returns (files: seq<Use>)
    requires Maps(fdMap, fds) && Counts(files0, rest + FilesOf(fds))
    ensures |files| == |files0| && Counts(files, rest)
  {
    files := files0;
    var node := First(fdMap, fds);
    ghost var k := 0;
    while node != null
      invariant Stands(fdMap, fds, node, k)
      invariant |files| == |files0| && Counts(files, rest + FilesFrom(fds, k))
      decreases |fds| - k
    {
      StandsAt(fdMap, fds, node, k);
      assert rest + FilesFrom(fds, k) == rest + FilesFrom(fds, k + 1) + multiset{fds[k].value};
      var next := Advance(fdMap, fds, node, k);
      var file := node.extra.value;
      OneLess(files, rest + FilesFrom(fds, k + 1), file);
      files := files[file := Dropped(files[file])];
      node := next;
      k := k + 1;
    }
    assert rest + FilesFrom(fds, k) == rest;
  }

  /** proc_term of process i, as far as its descriptors go. */
  method ExitProcess(t: Table, i: nat, ghost view: seq<Proc>, ghost region: set<object>)
    returns (t': Table, ghost view': seq<Proc>)
    requires Valid(t, view, region) && i < |t.procs|
    ensures Valid(t', view', region)
    ensures State(view', |t'.files|) == Next(State(view, |t.files|), Exit(i))
    ensures Exited(view, view', t.files, t'.files, i)
  {
    HeldSplit(view, i);
    WithoutKeeps(t.procs, view, region, i);
    var files := DropAll(t.files, t.procs[i].fdMap, view[i].fds, Held(Without(view, i)));
    t' := Table(Without(t.procs, i), files);
    view' := ExitMeans(view, t.files, files, i);
  }

  /** One event; events of processes that do not exist are skipped. */
  method Serve(t: Table, ev: Event, ghost view: seq<Proc>, ghost region: set<object>)
    returns (t': Table, ghost view': seq<Proc>, ghost region': set<object>)
    requires Valid(t, view, region)
    modifies region
    ensures Valid(t', view', region') && fresh(region' - region)
    ensures State(view', |t'.files|) == Next(State(view, |t.files|), ev)
  {
    t', view', region' := t, view, region;
    if ev.i < |t.procs| {
      match ev
      case Open(i, flags) =>
        var fd;
        t', fd, view', region' := OpenFile(t, i, flags, view, region);
      case Fork(i, child) => t', view', region' := ForkProcess(t, i, child, view, region);
      case Exit(i) => t', view' := ExitProcess(t, i, view, region);
    }
  }

  /** Any run of opens, forks and exits: the maps hold exactly the descriptors that the events say, numbered without
      a gap, every count is the number of descriptors, and exactly the files without one are closed, once. */
  method Replay(init: int, events: seq<Event>) returns (t: Table, ghost region: set<object>)
    ensures Valid(t, After(init, events).procs, region) && |t.files| == After(init, events).made
  {
    t, region := Boot(init);
    ghost var view := [Proc(init, [])];
    for n := 0 to |events|
      invariant Valid(t, view, region) && fresh(region)
      invariant State(view, |t.files|) == After(init, events[..n])
    {
      assert events[..n + 1][..n] == events[..n];
      t, view, region := Serve(t, events[n], view, region);
    }
    assert events[..|events|] == events;
  }
}
