/** The e-graph: e-nodes in insertion order over a union-find of their indices. */
module EGraphs {
  import opened Terms
  import opened UnionFind

  predicate SameLabel(a: ENode, b: ENode) {
    && a.isConst == b.isConst
    && a.opcode == b.opcode
    && a.reg == b.reg
    && (a.isConst ==> a.value == b.value)
    && |a.children| == |b.children|
  }

  /** Equal labels over children in equal classes. */
  ghost predicate Alike(rt: seq<nat>, a: ENode, b: ENode)
    requires WellFormedNode(a, |rt|) && WellFormedNode(b, |rt|)
  {
    SameLabel(a, b) && forall k :: 0 <= k < |a.children| ==> rt[a.children[k]] == rt[b.children[k]]
  }

  /** A partition fits a node table. */
  ghost predicate Fits(nodes: seq<ENode>, rt: seq<nat>) {
    WellFormedNodes(nodes) && Canonical(rt) && |rt| == |nodes|
  }

  ghost predicate AlikeAt(nodes: seq<ENode>, rt: seq<nat>, i: nat, j: nat)
    requires Fits(nodes, rt) && i < |nodes| && j < |nodes|
  {
    WiderNode(nodes[i], i, |rt|);
    WiderNode(nodes[j], j, |rt|);
    Alike(rt, nodes[i], nodes[j])
  }

  lemma WiderNode(n: ENode, a: nat, b: nat)
    requires WellFormedNode(n, a) && a <= b
    ensures WellFormedNode(n, b)
  {
  }

  /** Congruence closed: alike e-nodes share a class. */
  ghost predicate Closed(nodes: seq<ENode>, rt: seq<nat>)
    requires Fits(nodes, rt)
  {
    forall i, j :: 0 <= i < |nodes| && 0 <= j < |nodes| && AlikeAt(nodes, rt, i, j) ==> rt[i] == rt[j]
  }

  /** The pairs (x, y), x < y, that come before (i, j) in a sweep are closed. */
  ghost predicate ClosedUpTo(nodes: seq<ENode>, rt: seq<nat>, i: nat, j: nat)
    requires Fits(nodes, rt)
  {
    forall x: nat, y: nat :: x < y < |nodes| && (x < i || (x == i && y < j)) && AlikeAt(nodes, rt, x, y) ==> rt[x] == rt[y]
  }

  /** E-node `i` shares a class with every later one before `j` that it is alike to. */
  ghost predicate RowClosed(nodes: seq<ENode>, rt: seq<nat>, i: nat, j: nat)
    requires Fits(nodes, rt) && i < |nodes|
  {
    forall y: nat :: i < y < |nodes| && y < j && AlikeAt(nodes, rt, i, y) ==> rt[i] == rt[y]
  }

  lemma RowDone(nodes: seq<ENode>, rt: seq<nat>, i: nat)
    requires Fits(nodes, rt) && i < |nodes| && ClosedUpTo(nodes, rt, i, i + 1) && RowClosed(nodes, rt, i, |nodes|)
    ensures ClosedUpTo(nodes, rt, i + 1, i + 2)
  {
    forall x: nat, y: nat | x < y < |nodes| && (x < i + 1 || (x == i + 1 && y < i + 2)) && AlikeAt(nodes, rt, x, y)
      ensures rt[x] == rt[y]
    {
    }
  }

  lemma ClosedAfterSweep(nodes: seq<ENode>, rt: seq<nat>, i: nat, j: nat)
    requires Fits(nodes, rt) && i >= |nodes| && ClosedUpTo(nodes, rt, i, j)
    ensures Closed(nodes, rt)
  {
    forall x, y | 0 <= x < |nodes| && 0 <= y < |nodes| && AlikeAt(nodes, rt, x, y) ensures rt[x] == rt[y] {
      assert AlikeAt(nodes, rt, y, x);
    }
  }

  ghost predicate RelatedNodes(R: Relation, a: ENode, b: ENode) {
    SameLabel(a, b) && forall k :: 0 <= k < |a.children| ==> R(a.children[k], b.children[k])
  }

  /** An equivalence on e-node indices that is closed under congruence. */
  ghost predicate IndexCongruence(nodes: seq<ENode>, R: Relation) {
    && IsEquivalence(R)
    && forall i: nat, j: nat :: i < |nodes| && j < |nodes| && RelatedNodes(R, nodes[i], nodes[j]) ==> R(i, j)
  }

  ghost predicate Coarser(rt: seq<nat>, m: seq<nat>) {
    && |rt| == |m|
    && forall x, y :: 0 <= x < |rt| && 0 <= y < |rt| && rt[x] == rt[y] ==> m[x] == m[y]
  }

  /** `m` adds to `rt` nothing but consequences of congruence. */
  ghost predicate Entailed(nodes: seq<ENode>, rt: seq<nat>, m: seq<nat>) {
    forall R: Relation :: IndexCongruence(nodes, R) && Within(rt, R) ==> Within(m, R)
  }

  lemma EntailedStep(nodes: seq<ENode>, rt: seq<nat>, m: seq<nat>, i: nat, j: nat)
    requires Fits(nodes, m) && i < |nodes| && j < |nodes| && AlikeAt(nodes, m, i, j)
    requires Coarser(rt, m) && Entailed(nodes, rt, m)
    ensures Coarser(rt, Merge(m, i, j)) && Entailed(nodes, rt, Merge(m, i, j))
  {
    MergeKeepsTogether(m, i, j);
    forall R: Relation | IndexCongruence(nodes, R) && Within(rt, R) ensures Within(Merge(m, i, j), R) {
      assert Within(m, R);
      WiderNode(nodes[i], i, |m|);
      WiderNode(nodes[j], j, |m|);
      assert RelatedNodes(R, nodes[i], nodes[j]);
      MergeStaysWithin(m, i, j, R);
    }
  }

  /** A closed partition entails nothing further. */
  lemma ClosedIsFixed(nodes: seq<ENode>, rt: seq<nat>, m: seq<nat>)
    requires Fits(nodes, rt) && Fits(nodes, m) && Closed(nodes, rt)
    requires Coarser(rt, m) && Entailed(nodes, rt, m)
    ensures m == rt
  {
    var R := Kernel(rt);
    forall i: nat, j: nat | i < |nodes| && j < |nodes| && RelatedNodes(R, nodes[i], nodes[j]) ensures R(i, j) {
      WiderNode(nodes[i], i, |rt|);
      WiderNode(nodes[j], j, |rt|);
      assert forall k :: 0 <= k < |nodes[i].children| ==> R(nodes[i].children[k], nodes[j].children[k]);
      assert AlikeAt(nodes, rt, i, j);
    }
    assert IndexCongruence(nodes, R) && Within(rt, R);
    assert Within(m, R);
    CanonicalUnique(rt, m);
  }

  // ----- e-graphs as values -----

  datatype Snapshot = Snapshot(nodes: seq<ENode>, rt: seq<nat>)

  /** A node table with a partition of its indices. */
  type Graph = s: Snapshot | Fits(s.nodes, s.rt) ghost witness Snapshot([], [])

  ghost predicate AlikeTo(s: Graph, i: nat, n: ENode)
    requires WellFormedNode(n, |s.nodes|) && i < |s.nodes|
  {
    WiderNode(s.nodes[i], i, |s.rt|);
    Alike(s.rt, s.nodes[i], n)
  }

  /** The first e-node from `from` on that is alike to `n`; the size of the table if there is none. */
  ghost function FirstAlike(s: Graph, n: ENode, from: nat): (i: nat)
    requires WellFormedNode(n, |s.nodes|) && from <= |s.nodes|
    ensures from <= i <= |s.nodes| && (i < |s.nodes| ==> AlikeTo(s, i, n))
    ensures forall k :: from <= k < i ==> !AlikeTo(s, k, n)
    decreases |s.nodes| - from
  {
    if from == |s.nodes| || AlikeTo(s, from, n) then from else FirstAlike(s, n, from + 1)
  }

  /** Hash-consing: the e-graph after `n` was looked up or appended in a class of its own, and the
      index of its e-node, which is the first alike to `n`. */
  ghost function Added(s: Graph, n: ENode): (r: (Graph, nat))
    requires WellFormedNode(n, |s.nodes|)
    ensures r.1 < |r.0.nodes| && AlikeIn(r.0, r.1, n) && forall k :: 0 <= k < r.1 ==> !AlikeIn(s, k, n)
    ensures r.0 == s || (r.1 == |s.nodes| && r.0.nodes == s.nodes + [n] && r.0.rt == s.rt + [r.1])
  {
    var i := FirstAlike(s, n, 0);
    if i < |s.nodes| then (s, i) else (Snapshot(s.nodes + [n], s.rt + [i]), i)
  }

  ghost predicate AlikeIn(s: Graph, i: nat, n: ENode) {
    WellFormedNode(n, |s.nodes|) && i < |s.nodes| && AlikeTo(s, i, n)
  }

  /** No two e-nodes share a class. */
  ghost predicate Discrete(rt: seq<nat>) {
    forall i :: 0 <= i < |rt| ==> rt[i] == i
  }

  lemma {:induction false} FirstAlikeIs(s: Graph, n: ENode, from: nat, id: nat)
    requires WellFormedNode(n, |s.nodes|) && from <= id <= |s.nodes| && (id < |s.nodes| ==> AlikeTo(s, id, n))
    requires forall k :: from <= k < id ==> !AlikeTo(s, k, n)
    ensures FirstAlike(s, n, from) == id
    decreases id - from
  {
    if from < id {
      FirstAlikeIs(s, n, from + 1, id);
    }
  }

  predicate SameNode(a: ENode, b: ENode) {
    SameLabel(a, b) && a.children == b.children
  }

  /** A constant has nothing but its value. */
  predicate Bare(n: ENode) {
    n.isConst ==> n == ENode("", true, n.value, "", [])
  }

  /** No e-node stands in the table twice. */
  ghost predicate HashConsed(nodes: seq<ENode>) {
    && (forall i :: 0 <= i < |nodes| ==> Bare(nodes[i]))
    && (forall i, j {:trigger SameNode(nodes[i], nodes[j])} :: 0 <= i < j < |nodes| ==> !SameNode(nodes[i], nodes[j]))
  }

  lemma AddedHashConsed(s: Graph, n: ENode)
    requires HashConsed(s.nodes) && WellFormedNode(n, |s.nodes|) && Bare(n)
    ensures HashConsed(Added(s, n).0.nodes)
  {
    forall i | 0 <= i < |s.nodes| && SameNode(s.nodes[i], n) ensures AlikeTo(s, i, n) {
      WiderNode(s.nodes[i], i, |s.rt|);
    }
  }

  class EGraph {
    var nodes: seq<ENode>
    var parent: seq<nat>
    ghost var unions: nat  // the unions so far that joined two different classes

    ghost predicate Shape()
      reads this
    {
      WellFormedNodes(nodes) && ValidParents(parent) && |parent| == |nodes|
    }

    /** Conservation: every e-node is either still counted as a class or was lost to one union. */
    ghost predicate Valid()
      reads this
    {
      Shape() && |nodes| == NumRoots(Part()) + unions
    }

    /** The partition of e-node indices: the abstract state of `parent`. */
    ghost function Part(): (rt: seq<nat>)
      reads this
      requires Shape()
      ensures Fits(nodes, rt)
    {
      Roots(parent)
    }

    ghost function Now(): Graph
      reads this
      requires Shape()
    {
      Snapshot(nodes, Part())
    }

    constructor ()
      ensures Valid() && nodes == [] && parent == []
    {
      nodes, parent, unions := [], [], 0;
      new;
      assert Representatives(Part(), 0) == {};
    }

    method Find(c: nat) returns (r: nat)
      requires Valid() && c < |nodes|
      modifies this`parent
      ensures Valid() && Part() == old(Part())
      ensures r == Part()[c]
    {
      r := c;
      while parent[r] != r
        invariant Valid() && r < |nodes|
        invariant Part() == old(Part()) && Part()[r] == Part()[c]
        decreases r
      {
        HalvingKeepsRoots(parent, r);
        assert Root(parent, r) == Root(parent, parent[r]) == Root(parent, parent[parent[r]]);
        parent := parent[r := parent[parent[r]]];
        r := parent[r];
      }
    }

    /** Joins two classes under the lower name; reports whether they were different. */
    method Union(a: nat, b: nat) returns (joined: bool)
      requires Valid() && a < |nodes| && b < |nodes|
      modifies this`parent, this`unions
      ensures Valid() && Part() == Merge(old(Part()), a, b)
      ensures joined <==> old(Part()[a] != Part()[b])
      ensures unions == old(unions) + if joined then 1 else 0
    {
      var ra := Find(a);
      var rb := Find(b);
      MergeCount(Part(), a, b);
      if ra == rb {
        return false;
      }
      unions := unions + 1;
      if ra < rb {
        LinkRoots(parent, a, b, ra, rb);
        parent := parent[rb := ra];
      } else {
        LinkRoots(parent, a, b, rb, ra);
        parent := parent[ra := rb];
      }
      return true;
    }

    /** The label and child comparison shared by hash-consing and rebuilding. */
    method CompareNodes(a: ENode, b: ENode) returns (same: bool)
      requires Valid() && WellFormedNode(a, |nodes|) && WellFormedNode(b, |nodes|)
      modifies this`parent
      ensures Valid() && Part() == old(Part())
      ensures same <==> Alike(Part(), a, b)
    {
      if !SameLabel(a, b) {
        return false;
      }
      var c := 0;
      while c < |a.children|
        invariant 0 <= c <= |a.children|
        invariant Valid() && Part() == old(Part())
        invariant forall k :: 0 <= k < c ==> Part()[a.children[k]] == Part()[b.children[k]]
      {
        var x := Find(a.children[c]);
        var y := Find(b.children[c]);
        if x != y {
          return false;
        }
        c := c + 1;
      }
      return true;
    }

    /** Hash-consing: the first e-node alike to `n`, or `n` itself in a class of its own. */
    method AddNode(n: ENode) returns (id: nat)
      requires Valid() && WellFormedNode(n, |nodes|)
      modifies this`nodes, this`parent
      ensures Valid() && (Now(), id) == Added(old(Now()), n)
    {
      ghost var s := Now();
      var i := 0;
      while i < |nodes|
        invariant 0 <= i <= |nodes|
        invariant Valid() && Now() == s
        invariant forall k :: 0 <= k < i ==> !AlikeTo(s, k, n)
      {
        WiderNode(nodes[i], i, |nodes|);
        var same := CompareNodes(nodes[i], n);
        assert same == AlikeTo(s, i, n);
        if same {
          FirstAlikeIs(s, n, 0, i);
          return i;
        }
        i := i + 1;
      }
      FirstAlikeIs(s, n, 0, i);
      id := |nodes|;
      Append(n);
    }

    /** Gives a new e-node a class of its own. */
    method Append(n: ENode)
      requires Valid() && WellFormedNode(n, |nodes|)
      modifies this`nodes, this`parent
      ensures Valid() && nodes == old(nodes) + [n] && Part() == old(Part()) + [|old(nodes)|]
    {
      PushRoots(parent);
      PushCount(Part());
      nodes := nodes + [n];
      parent := parent + [|parent|];
    }

    /** Counts the classes by asking every e-node whether it represents its own. */
    method ClassCount() returns (n: nat)
      requires Valid()
      modifies this`parent
      ensures Valid() && Part() == old(Part())
      ensures n == NumRoots(Part())
    {
      ghost var rt := Part();
      n := 0;
      var i := 0;
      while i < |nodes|
        invariant 0 <= i <= |nodes| && |rt| == |nodes|
        invariant Valid() && Part() == rt
        invariant n == |Representatives(rt, i)|
      {
        var r := Find(i);
        RepresentativesStep(rt, i);
        if r == i {
          n := n + 1;
        }
        i := i + 1;
      }
    }

    /** Restores congruence after unions: the least coarsening that is closed under congruence. */
    method Rebuild()
      requires Valid()
      modifies this`parent, this`unions
      ensures Valid()
      ensures Closed(nodes, Part())
      ensures Coarser(old(Part()), Part())
      ensures Entailed(nodes, old(Part()), Part())
      ensures unions >= old(unions)
    {
      var changed := true;
      while changed
        invariant Valid() && Coarser(old(Part()), Part()) && Entailed(nodes, old(Part()), Part())
        invariant unions >= old(unions)
        invariant !changed ==> Closed(nodes, Part())
        decreases NumRoots(Part()), changed
      {
        changed := RebuildPass(old(Part()));
      }
    }

    /** One sweep over all pairs. */
    method RebuildPass(ghost origin: seq<nat>) returns (changed: bool)
      requires Valid() && Coarser(origin, Part()) && Entailed(nodes, origin, Part())
      modifies this`parent, this`unions
      ensures Valid() && Coarser(origin, Part()) && Entailed(nodes, origin, Part())
      ensures changed ==> unions > old(unions)
      ensures !changed ==> unions == old(unions) && Part() == old(Part()) && Closed(nodes, Part())
    {
      changed := false;
      var i := 0;
      while i < |nodes|
        invariant 0 <= i <= |nodes|
        invariant Valid() && Coarser(origin, Part()) && Entailed(nodes, origin, Part())
        invariant changed ==> unions > old(unions)
        invariant !changed ==> unions == old(unions) && Part() == old(Part()) && ClosedUpTo(nodes, Part(), i, i + 1)
      {
        var joined := RebuildRow(origin, i);
        changed := changed || joined;
        i := i + 1;
      }
      if !changed {
        ClosedAfterSweep(nodes, Part(), i, i + 1);
      }
    }

    /** Compares one e-node with all later ones. */
    method RebuildRow(ghost origin: seq<nat>, i: nat) returns (changed: bool)
      requires Valid() && Coarser(origin, Part()) && Entailed(nodes, origin, Part()) && i < |nodes|
      modifies this`parent, this`unions
      ensures Valid() && Coarser(origin, Part()) && Entailed(nodes, origin, Part())
      ensures changed ==> unions > old(unions)
      ensures !changed ==> unions == old(unions) && Part() == old(Part())
      ensures !changed && ClosedUpTo(nodes, Part(), i, i + 1) ==> ClosedUpTo(nodes, Part(), i + 1, i + 2)
    {
      ghost var rt := Part();
      changed := false;
      var j := i + 1;
      while j < |nodes|
        invariant i < j <= |nodes|
        invariant Valid() && Coarser(origin, Part()) && Entailed(nodes, origin, Part())
        invariant changed ==> unions > old(unions)
        invariant !changed ==> unions == old(unions) && Part() == rt && RowClosed(nodes, rt, i, j)
      {
        var joined := RebuildPair(origin, i, j);
        changed := changed || joined;
        j := j + 1;
      }
      if !changed && ClosedUpTo(nodes, Part(), i, i + 1) {
        RowDone(nodes, rt, i);
      }
    }

    /** Joins one pair of e-nodes if they are alike. */
    method RebuildPair(ghost origin: seq<nat>, i: nat, j: nat) returns (joined: bool)
      requires Valid() && Coarser(origin, Part()) && Entailed(nodes, origin, Part())
      requires i < |nodes| && j < |nodes|
      modifies this`parent, this`unions
      ensures Valid() && Coarser(origin, Part()) && Entailed(nodes, origin, Part())
      ensures joined ==> unions > old(unions)
      ensures !joined ==> unions == old(unions) && Part() == old(Part()) && (AlikeAt(nodes, Part(), i, j) ==> Part()[i] == Part()[j])
    {
      WiderNode(nodes[i], i, |nodes|);
      WiderNode(nodes[j], j, |nodes|);
      joined := CompareNodes(nodes[i], nodes[j]);
      if joined {
        EntailedStep(nodes, origin, Part(), i, j);
        MergeCount(Part(), i, j);
        joined := Union(i, j);
      }
    }
  }
}
