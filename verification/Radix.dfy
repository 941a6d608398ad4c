/** Radix trees of numbered nodes, as sets of edges. Page tables in memory and indirect
    blocks on disk are both such trees; what follows holds for any of them. */
module Radix {
  import opened Common

  /** Edge (f, i) leads from slot i of node f to a child. */
  type Edges = map<(nat, nat), nat>

  /** No node hangs in two slots, and none has the root as a child. */
  ghost predicate TreeShaped(e: Edges, root: nat) {
    && (forall k :: k in e ==> e[k] != root)
    && (forall k, l :: k in e && l in e && e[k] == e[l] ==> k == l)
  }

  function Follow(e: Edges, f: Option<nat>, i: nat): Option<nat> {
    if f.Some? && (f.value, i) in e then Some(e[(f.value, i)]) else None
  }

  /** The node at the end of a path of slot numbers. */
  function Walk(e: Edges, root: nat, path: seq<nat>): Option<nat> {
    if path == [] then Some(root)
    else Follow(e, Walk(e, root, path[..|path| - 1]), path[|path| - 1])
  }

  lemma WalkSnoc(e: Edges, root: nat, path: seq<nat>, i: nat)
    ensures Walk(e, root, path + [i]) == Follow(e, Walk(e, root, path), i)
  {
    assert (path + [i])[..|path|] == path;
  }

  /** In a tree-shaped radix tree every node is reached along one path only. */
  lemma {:induction false} UniquePath(e: Edges, root: nat, p: seq<nat>, q: seq<nat>)
    requires TreeShaped(e, root)
    requires Walk(e, root, p).Some? && Walk(e, root, p) == Walk(e, root, q)
    ensures p == q
  {
    if p != [] && q != [] {
      UniquePath(e, root, p[..|p| - 1], q[..|q| - 1]);
      assert p == p[..|p| - 1] + [p[|p| - 1]] && q == q[..|q| - 1] + [q[|q| - 1]];
    }
  }

  /** g is not in the tree: no edge leaves it and none leads to it. */
  ghost predicate Fresh(e: Edges, root: nat, g: nat) {
    g != root && forall k :: k in e ==> e[k] != g && k.0 != g
  }

  lemma {:induction false} FreshUnreached(e: Edges, root: nat, g: nat, p: seq<nat>)
    requires Fresh(e, root, g)
    ensures Walk(e, root, p) != Some(g)
  {
    if p != [] { FreshUnreached(e, root, g, p[..|p| - 1]); }
  }

  /** Hanging a fresh node into an empty slot (f, i) adds one path and changes no other. */
  lemma {:induction false} WalkAdd(e: Edges, root: nat, f: nat, i: nat, g: nat, p: seq<nat>)
    requires (f, i) !in e && Fresh(e, root, g) && f != g
    ensures Walk(e[(f, i) := g], root, p) ==
            if p != [] && p[|p| - 1] == i && Walk(e, root, p[..|p| - 1]) == Some(f) then Some(g)
            else Walk(e, root, p)
  {
    if p != [] {
      WalkAdd(e, root, f, i, g, p[..|p| - 1]);
      FreshUnreached(e, root, g, p[..|p| - 1]);
    }
  }

  lemma AddKeepsShape(e: Edges, root: nat, f: nat, i: nat, g: nat)
    requires TreeShaped(e, root) && (f, i) !in e && Fresh(e, root, g)
    ensures TreeShaped(e[(f, i) := g], root)
  {}

  /** Cutting off a childless node removes one path and changes no other. */
  lemma {:induction false} WalkCut(e: Edges, root: nat, f: nat, i: nat, p: seq<nat>)
    requires TreeShaped(e, root) && (f, i) in e && forall k :: k in e ==> k.0 != e[(f, i)]
    ensures Walk(e - {(f, i)}, root, p) == if Walk(e, root, p) == Some(e[(f, i)]) then None else Walk(e, root, p)
  {
    if p != [] {
      WalkCut(e, root, f, i, p[..|p| - 1]);
    }
  }

  lemma CutKeepsShape(e: Edges, root: nat, f: nat, i: nat)
    requires TreeShaped(e, root) && (f, i) in e
    ensures TreeShaped(e - {(f, i)}, root)
    ensures forall k :: k in e - {(f, i)} ==> (e - {(f, i)})[k] != e[(f, i)]
  {}
}
