/** File descriptors over open, fork and exit (sched/syscall.c, sched/proc.c). */
module Descriptors {
  import opened Common
  import opened RbShape
  import opened RbHeap
  import opened RbInsert
  import opened RbQuery

  // ----- Descriptor numbers in a process's fd_map -----

  /** The descriptors are numbered 0, 1, 2, and so on, without a gap. */
  ghost predicate Numbered(s: seq<Entry>) {
    forall i :: 0 <= i < |s| ==> s[i].key == i
  }

  /** The first free key of a gapless map is the number of its entries. */
  lemma NextIsCount(s: seq<Entry>, j: nat, key: Key)
    requires Sorted(s) && Numbered(s) && s != [] && FreeAfterRun(s, j, key)
    requires |s| < WORD
    ensures key == |s|
  {
    assert j + 1 == |s|;
  }

  /** Inserted anywhere but at the end the next number would be out of order. */
  lemma NextOutOfOrder(s: seq<Entry>, at: nat, node: RbNode)
    requires Numbered(s) && at < |s| < WORD
    ensures !Sorted(s[..at] + [Entry(node, |s|)] + s[at..])
  {
    var s' := s[..at] + [Entry(node, |s|)] + s[at..];
    assert s'[at].key == |s| && s'[at + 1].key == at;
  }

  /** Inserting the next number at its place keeps the map gapless. */
  lemma NextGoesLast(s: seq<Entry>, at: nat, node: RbNode)
    requires Numbered(s) && at <= |s| < WORD
    requires Sorted(s[..at] + [Entry(node, |s|)] + s[at..])
    ensures at == |s| && Numbered(s[..at] + [Entry(node, |s|)] + s[at..])
  {
    if at < |s| {
      NextOutOfOrder(s, at, node);
      assert false;
    }
  }

  /** A key that continues a gapless map is new to it. */
  lemma CountIsNew(s: seq<Entry>, fd: Key)
    requires Numbered(s) && fd == |s|
    ensures !HasKey(s, fd)
  {}

  /** rbt_next_key on a gapless fd_map. */
  method NextNumber(fdMap: RbTree) returns (fd: Key)
    requires fdMap.Valid() && Numbered(fdMap.Entries()) && |fdMap.Entries()| < WORD
    ensures fd == |fdMap.Entries()|
  {
    ghost var j;
    fd, j := NextKey(fdMap);
    if fdMap.Entries() != [] { NextIsCount(fdMap.Entries(), j, fd); }
  }

  /** rbt_insert of the next number. */
  method AddNumber(fdMap: RbTree, fd: Key) returns (node: RbNode)
    requires fdMap.Valid() && Numbered(fdMap.Entries()) && fd == |fdMap.Entries()|
    modifies fdMap, fdMap.repr`parent, fdMap.repr`left, fdMap.repr`right, fdMap.repr`color
    ensures fdMap.Valid() && Numbered(fdMap.Entries())
    ensures fresh(node) && fdMap.repr == old(fdMap.repr) + {node}
    ensures fdMap.Entries() == old(fdMap.Entries()) + [Entry(node, fd)]
  {
    ghost var s := fdMap.Entries();
    CountIsNew(s, fd);
    var n;
    ghost var at;
    n, at := Insert(fdMap, fd, true);
    node := n;
    NextGoesLast(s, at, node);
  }

  // ----- Descriptors in a process's fd_map -----

  /** The map holds exactly the descriptors `fds` under the numbers 0, 1, 2, ... The words of a node stand
      for the descriptor that its value points to: the file, the position and the flags. */
  ghost predicate Maps(fdMap: RbTree, fds: seq<Extra>)
    reads fdMap, fdMap.repr
  {
    && fdMap.Valid() && Numbered(fdMap.Entries()) && |fdMap.Entries()| == |fds|
    && forall i :: 0 <= i < |fds| ==> fdMap.Entries()[i].n in fdMap.repr && fdMap.Entries()[i].n.extra == fds[i]
  }

  /** A new node with a descriptor under the next number. */
  method AddDescriptor(fdMap: RbTree, fd: Key, desc: Extra, ghost fds: seq<Extra>)
    requires Maps(fdMap, fds) && fd == |fds|
    modifies fdMap, fdMap.repr`parent, fdMap.repr`left, fdMap.repr`right, fdMap.repr`color
    ensures Maps(fdMap, fds + [desc])
    ensures fresh(fdMap.repr - old(fdMap.repr))
  {
    ghost var s := fdMap.Entries();
    var node := AddNumber(fdMap, fd);
    assert fdMap.Entries()[..fd] == s && fdMap.Entries()[fd].n == node;
    SetWords(fdMap, node, desc);
  }

  /** sys_open's use of the fd_map. */
  method NewDescriptor(fdMap: RbTree, desc: Extra, ghost fds: seq<Extra>) returns (fd: Key)
    requires Maps(fdMap, fds) && |fds| < WORD
    modifies fdMap, fdMap.repr`parent, fdMap.repr`left, fdMap.repr`right, fdMap.repr`color
    ensures Maps(fdMap, fds + [desc]) && fd == |fds|
    ensures fresh(fdMap.repr - old(fdMap.repr))
  {
    fd := NextNumber(fdMap);
    AddDescriptor(fdMap, fd, desc, fds);
  }

  /** The first node, as rbt_minimum finds it. */
  method First(fdMap: RbTree, ghost fds: seq<Extra>) returns (node: RbNode?)
    requires Maps(fdMap, fds)
    ensures Stands(fdMap, fds, node, 0)
  {
    node := fdMap.root;
    if node != null {
      node := Leftmost(fdMap);
    }
  }

  /** The loops over an fd_map stand at descriptor number k, or past the last one. */
  ghost predicate Stands(fdMap: RbTree, fds: seq<Extra>, node: RbNode?, k: nat)
    reads fdMap, fdMap.repr
  {
    && Maps(fdMap, fds) && k <= |fds|
    && (if k < |fds| then node == fdMap.Entries()[k].n else node == null)
  }

  lemma StandsAt(fdMap: RbTree, fds: seq<Extra>, node: RbNode, k: nat)
    requires Stands(fdMap, fds, node, k)
    ensures k < |fds| && node in fdMap.repr && node.key == k && node.extra == fds[k]
  {
    EntryCell(fdMap, k);
  }

  method Advance(fdMap: RbTree, ghost fds: seq<Extra>, node: RbNode, ghost k: nat) returns (next: RbNode?)
    requires Stands(fdMap, fds, node, k)
    ensures k < |fds| && Stands(fdMap, fds, next, k + 1)
  {
    next := Successor(fdMap, node, k);
  }

  lemma PrefixGrows(fds: seq<Extra>, k: nat)
    requires k < |fds|
    ensures fds[..k] + [fds[k]] == fds[..k + 1]
  {}

  /** One round of the loop of sys_fork: the child gets descriptor number k of the parent, as it stands. */
  method CopyDescriptor(parent: RbTree, child: RbTree, node: RbNode, ghost fds: seq<Extra>, ghost k: nat)
    returns (next: RbNode?)
    requires Stands(parent, fds, node, k) && Maps(child, fds[..k]) && parent != child && parent.repr !! child.repr
    modifies child, child.repr
    ensures k < |fds| && Stands(parent, fds, next, k + 1) && Maps(child, fds[..k + 1])
    ensures fresh(child.repr - old(child.repr))
  {
    StandsAt(parent, fds, node, k);
    PrefixGrows(fds, k);
    AddDescriptor(child, node.key, node.extra, fds[..k]);
    next := Advance(parent, fds, node, k);
  }
}
