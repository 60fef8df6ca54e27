/** Rules whose sides are operators over leaves: they never put a leaf and an operator into one class,
so that what is extracted for an instruction is again an operator over leaves. */
module FlatRules {
  import opened Terms
  import opened UnionFind
  import opened EGraphs
  import opened Matching
  import opened Soundness
  import opened Sweeps
  import opened Saturation
  import opened OeuphBridge

  /** An operator, named or with operands, over variables and constants. */
  ghost predicate FlatPattern(t: PTerm) {
    t.POp? && (t.op != "" || t.args != []) && forall k :: 0 <= k < |t.args| ==> !t.args[k].POp?
  }

  ghost predicate Flat(rules: seq<Rule>)
    requires WellFormedRules(rules)
  {
    forall k :: 0 <= k < |rules| ==>
      WellFormedRule(rules[k]) && FlatPattern(Tree(rules[k].lhs)) && FlatPattern(Tree(rules[k].rhs))
  }

  // ----- e-graphs in two layers -----

  predicate LeavesBelow(nodes: seq<ENode>, n: ENode)
    requires WellFormedNode(n, |nodes|)
  {
    TrueLeaf(n) || LeafChildren(nodes, n)
  }

  ghost predicate InLayers(s: Graph) {
    forall i :: 0 <= i < |s.nodes| ==>
      FitsRecord(s.nodes[i]) && WellFormedNode(s.nodes[i], |s.nodes|) && LeavesBelow(s.nodes, s.nodes[i])
  }

  ghost predicate Unmixed(s: Graph) {
    forall i, j {:trigger TrueLeaf(s.nodes[i]), TrueLeaf(s.nodes[j])} ::
      0 <= i < |s.nodes| && 0 <= j < |s.nodes| && s.rt[i] == s.rt[j] ==> (TrueLeaf(s.nodes[i]) <==> TrueLeaf(s.nodes[j]))
  }

  /** Leaves, and operators over leaves, in separate classes; names fit their buffers. */
  ghost predicate Layered(s: Graph) {
    InLayers(s) && Unmixed(s)
  }

  lemma ImportedLayered(s: Graph, root: nat, v: InstrView)
    requires Imported(s, root, v)
    ensures Layered(s)
  {
    forall i | 0 <= i < |s.nodes| ensures WellFormedNode(s.nodes[i], |s.nodes|) && LeavesBelow(s.nodes, s.nodes[i]) {
      WiderNode(s.nodes[i], i, |s.nodes|);
      if i == root {
        forall k | 0 <= k < |s.nodes[i].children| ensures TrueLeaf(s.nodes[s.nodes[i].children[k]]) {
          assert s.nodes[s.nodes[i].children[k]] == OperandLeaf(v.operands[k]);
        }
      }
    }
  }

  // ----- one attempt -----

  /** Adding a leaf, or an operator over leaves. */
  lemma AddedLayered(s: Graph, n: ENode)
    requires Layered(s) && WellFormedNode(n, |s.nodes|) && FitsRecord(n) && LeavesBelow(s.nodes, n)
    ensures Layered(Added(s, n).0) && (TrueLeaf(Added(s, n).0.nodes[Added(s, n).1]) <==> TrueLeaf(n))
  {
    var (g, id) := Added(s, n);
    if g == s {
      assert AlikeTo(s, id, n);
    } else {
      assert forall i :: 0 <= i < |s.nodes| ==> g.nodes[i] == s.nodes[i] && g.rt[i] == s.rt[i];
      forall i | 0 <= i < |g.nodes| ensures WellFormedNode(g.nodes[i], |g.nodes|) && LeavesBelow(g.nodes, g.nodes[i]) {
        WiderNode(g.nodes[i], i, |g.nodes|);
        assert i < |s.nodes| ==> LeavesBelow(s.nodes, s.nodes[i]);
      }
      assert g.rt[id] == id;
    }
  }

  /** Bindings of classes of leaves. */
  ghost predicate BindsLeaves(s: Graph, items: seq<Binding>) {
    BindsClasses(items, s.rt) && forall k :: 0 <= k < |items| && items[k].ToClass? ==> TrueLeaf(s.nodes[items[k].eclass])
  }

  lemma GrownBindsLeaves(s: Graph, g: Graph, items: seq<Binding>)
    requires GrownFrom(s, g) && BindsLeaves(s, items)
    ensures BindsLeaves(g, items)
  {
    forall k | 0 <= k < |items| && items[k].ToClass? ensures g.rt[items[k].eclass] == items[k].eclass && TrueLeaf(g.nodes[items[k].eclass]) {
      assert g.nodes[items[k].eclass] == s.nodes[items[k].eclass];
    }
  }

  /** A match of a flat pattern binds the classes of the operands of an operator. */
  lemma FlatMatchBindsLeaves(s: Graph, t: PTerm, n: nat)
    requires Layered(s) && n < |s.nodes| && FlatPattern(t) && Found(s, t, n).Some?
    ensures BindsLeaves(s, Found(s, t, n).value) && !TrueLeaf(s.nodes[n])
  {
    var items := Found(s, t, n).value;
    FirstMatchSound(s.nodes, s.rt, t, n, []);
    forall k | 0 <= k < |items| && items[k].ToClass? ensures TrueLeaf(s.nodes[items[k].eclass]) {
      assert items[k].name in VarNames(t);
      var a :| 0 <= a < |t.args| && items[k].name in VarNames(t.args[a]);
      var c := s.nodes[n].children[a];
      assert ClassMatches(s.nodes, s.rt, t.args[a], c, items);
      LookupOwn(items, k);
      assert items[k].eclass == s.rt[c];
      assert LeavesBelow(s.nodes, s.nodes[n]) && TrueLeaf(s.nodes[c]);
      assert s.rt[s.rt[c]] == s.rt[c];
    }
  }

  /** The instance of a leaf pattern is a leaf. */
  lemma LeafBuilt(s: Graph, t: PTerm, items: seq<Binding>)
    requires Layered(s) && BindsLeaves(s, items) && !t.POp?
    ensures var r := Built(s, t, items); Layered(r.graph) && (r.made.Some? ==> TrueLeaf(r.graph.nodes[r.made.value]))
  {
    match t {
      case PVar(x) =>
      case PConst(v) => AddedLayered(s, ENode("", true, v, "", []));
      case PConstVar(x) =>
        if Lookup(items, x).Some? && Lookup(items, x).value.ToValue? {
          AddedLayered(s, ENode("", true, Lookup(items, x).value.value, "", []));
        }
    }
  }

  ghost predicate AllLeaves(s: Graph, kids: seq<nat>) {
    forall k :: 0 <= k < |kids| ==> kids[k] < |s.nodes| && TrueLeaf(s.nodes[kids[k]])
  }

  lemma {:induction false} LeavesBuilt(s: Graph, ts: seq<PTerm>, items: seq<Binding>)
    requires Layered(s) && BindsLeaves(s, items) && forall k :: 0 <= k < |ts| ==> !ts[k].POp?
    ensures var r := BuiltAll(s, ts, items); Layered(r.graph) && (r.made.Some? ==> AllLeaves(r.graph, r.made.value))
    decreases |ts|
  {
    if ts != [] {
      LeavesBuilt(s, ts[..|ts| - 1], items);
      var init := BuiltAll(s, ts[..|ts| - 1], items);
      if init.made.Some? {
        GrownBindsLeaves(s, init.graph, items);
        LeafBuilt(init.graph, ts[|ts| - 1], items);
        var last := Built(init.graph, ts[|ts| - 1], items);
        assert forall k :: 0 <= k < |init.graph.nodes| ==> last.graph.nodes[k] == init.graph.nodes[k];
      }
    }
  }

  lemma FlatBuilt(s: Graph, t: PTerm, items: seq<Binding>)
    requires Layered(s) && BindsLeaves(s, items) && FlatPattern(t) && Slim(t)
    ensures var r := Built(s, t, items); Layered(r.graph) && (r.made.Some? ==> !TrueLeaf(r.graph.nodes[r.made.value]))
  {
    LeavesBuilt(s, t.args, items);
    var kids := BuiltAll(s, t.args, items);
    if kids.made.Some? {
      AddedLayered(kids.graph, ENode(t.op, false, 0, "", kids.made.value));
    }
  }

  lemma JoinedLayered(s: Graph, a: nat, b: nat)
    requires Layered(s) && a < |s.nodes| && b < |s.nodes| && !TrueLeaf(s.nodes[a]) && !TrueLeaf(s.nodes[b])
    ensures Layered(Joined(s, a, b))
  {
  }

  lemma AppliedLayered(s: Graph, from: PTerm, to: PTerm, side: SideCondition, n: nat)
    requires n < |s.nodes| && Slim(to) && FlatPattern(from) && FlatPattern(to) && Layered(s)
    ensures Layered(Applied(s, from, to, side, n).graph)
  {
    var found := Found(s, from, n);
    if found.Some? && SideHolds(side, found.value) {
      FlatMatchBindsLeaves(s, from, n);
      FlatBuilt(s, to, found.value);
      var r := Built(s, to, found.value);
      if r.made.Some? {
        assert r.graph.nodes[n] == s.nodes[n];
        JoinedLayered(r.graph, n, r.made.value);
      }
    }
  }

  // ----- whole runs -----

  ghost function IsLayered(): Property {
    (s: Graph) => Layered(s)
  }

  lemma FlatUnbroken(from: PTerm, to: PTerm, side: SideCondition)
    requires FlatPattern(from) && FlatPattern(to)
    ensures Unbroken(IsLayered(), from, to, side)
  {
    forall s: Graph, n: nat | n < |s.nodes| && Slim(to) && IsLayered()(s) ensures IsLayered()(Applied(s, from, to, side, n).graph) {
      AppliedLayered(s, from, to, side, n);
    }
  }

  lemma SweepLayered(s: Graph, rules: seq<Rule>)
    requires WellFormedRules(rules) && Flat(rules) && Layered(s)
    ensures Layered(SweptRules(s, rules).graph)
  {
    forall k | 0 <= k < |rules| ensures WellFormedRule(rules[k]) && UnbrokenByRule(IsLayered(), rules[k]) {
      assert FlatPattern(Tree(rules[k].lhs));
      FlatUnbroken(Tree(rules[k].lhs), Tree(rules[k].rhs), rules[k].side);
      FlatUnbroken(Tree(rules[k].rhs), Tree(rules[k].lhs), rules[k].side);
    }
    assert IsLayered()(s);
    SweepInvariant(IsLayered(), s, rules);
    assert IsLayered()(SweptRules(s, rules).graph);
  }

  /** Alike e-nodes are both leaves or both not, so congruence does not mix them either. */
  ghost function SameLayer(nodes: seq<ENode>): Relation {
    (i: nat, j: nat) => (i < |nodes| && TrueLeaf(nodes[i])) == (j < |nodes| && TrueLeaf(nodes[j]))
  }

  lemma ClosureLayered(s: Graph, g: Graph)
    requires Layered(s) && ClosureOf(s, g)
    ensures Layered(g)
  {
    var R := SameLayer(s.nodes);
    assert IndexCongruence(s.nodes, R);
    forall x: nat, y: nat | x < |s.rt| && y < |s.rt| && s.rt[x] == s.rt[y] ensures R(x, y) {
      assert TrueLeaf(s.nodes[x]) == TrueLeaf(s.nodes[y]);
    }
    assert Within(s.rt, R);
    assert Within(g.rt, R);
    forall i, j | 0 <= i < |g.nodes| && 0 <= j < |g.nodes| && g.rt[i] == g.rt[j] ensures TrueLeaf(g.nodes[i]) <==> TrueLeaf(g.nodes[j]) {
      assert R(i, j);
    }
  }

  lemma {:induction false} TraceLayered(rules: seq<Rule>, tr: seq<Graph>)
    requires WellFormedRules(rules) && Flat(rules) && Trace(rules, tr) && Layered(tr[0])
    ensures Layered(Last(tr))
    decreases |tr|
  {
    if |tr| > 1 {
      var init := tr[..|tr| - 1];
      TraceInit(rules, tr);
      TraceLayered(rules, init);
      SweepLayered(Last(init), rules);
      ClosureLayered(SweptRules(Last(init), rules).graph, Last(tr));
    }
  }
}
