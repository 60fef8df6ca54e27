/** What keeps an e-graph sound: no congruence that contains the admissible instances of the rules
distinguishes two members of one class. */
module Soundness {
  import opened Terms
  import opened UnionFind
  import opened EGraphs
  import opened Matching

  /** New e-nodes in classes of their own are sound. */
  lemma GrownSound(R: TermRel, nodes: seq<ENode>, rt: seq<nat>, nodes': seq<ENode>, rt': seq<nat>)
    requires Fits(nodes, rt) && Fits(nodes', rt') && Grown(nodes, rt, nodes', rt')
    requires Congruence(R) && Sound(R, nodes, rt)
    ensures Sound(R, nodes', rt')
  {
    forall i, j | 0 <= i < |nodes'| && 0 <= j < |nodes'| && rt'[i] == rt'[j]
      ensures R(TermOf(nodes', i), TermOf(nodes', j))
    {
      if i < |nodes| && j < |nodes| {
        assert rt[i] == rt[j];
        assert nodes' == nodes + nodes'[|nodes|..];
        TermOfPrefix(nodes, nodes'[|nodes|..], i);
        TermOfPrefix(nodes, nodes'[|nodes|..], j);
      } else {
        assert rt'[i] <= i && rt'[j] <= j && i == j;
      }
    }
  }

  lemma MergeSound(R: TermRel, nodes: seq<ENode>, rt: seq<nat>, a: nat, b: nat)
    requires Fits(nodes, rt) && a < |nodes| && b < |nodes|
    requires Congruence(R) && Sound(R, nodes, rt) && R(TermOf(nodes, a), TermOf(nodes, b))
    ensures Sound(R, nodes, Merge(rt, a, b))
  {
    var m := Merge(rt, a, b);
    forall i, j | 0 <= i < |nodes| && 0 <= j < |nodes| && m[i] == m[j]
      ensures R(TermOf(nodes, i), TermOf(nodes, j))
    {
      if rt[i] != rt[j] {
        var (x, y) := if rt[i] == rt[a] then (a, b) else (b, a);
        assert R(TermOf(nodes, x), TermOf(nodes, y));
        assert R(TermOf(nodes, i), TermOf(nodes, x)) && R(TermOf(nodes, y), TermOf(nodes, j));
        assert R(TermOf(nodes, i), TermOf(nodes, y));
      }
    }
  }

  /** `R` on terms, as a relation on e-node indices. */
  ghost function OnIndices(R: TermRel, nodes: seq<ENode>): Relation
    requires WellFormedNodes(nodes)
  {
    (i: nat, j: nat) => i == j || (i < |nodes| && j < |nodes| && R(TermOf(nodes, i), TermOf(nodes, j)))
  }

  lemma RelatedNodesRelatedTerms(R: TermRel, nodes: seq<ENode>, i: nat, j: nat)
    requires WellFormedNodes(nodes) && Congruence(R) && i < |nodes| && j < |nodes|
    requires RelatedNodes(OnIndices(R, nodes), nodes[i], nodes[j])
    ensures R(TermOf(nodes, i), TermOf(nodes, j))
  {
    var a, b := nodes[i], nodes[j];
    if !a.isConst && !(a.opcode == "" && a.children == []) {
      var us := seq(|a.children|, k requires 0 <= k < |a.children| => TermOf(nodes, a.children[k]));
      var vs := seq(|b.children|, k requires 0 <= k < |b.children| => TermOf(nodes, b.children[k]));
      forall k | 0 <= k < |us| ensures R(us[k], vs[k]) {
        assert OnIndices(R, nodes)(a.children[k], b.children[k]);
      }
      assert Pointwise(R, us, vs);
      assert TermOf(nodes, i) == TApp(a.opcode, us) && TermOf(nodes, j) == TApp(a.opcode, vs);
    }
  }

  lemma OnIndicesCongruence(R: TermRel, nodes: seq<ENode>)
    requires WellFormedNodes(nodes) && Congruence(R)
    ensures IndexCongruence(nodes, OnIndices(R, nodes))
  {
    var S := OnIndices(R, nodes);
    forall x: nat, y: nat | S(x, y) ensures S(y, x) {
      assert x == y || R(TermOf(nodes, x), TermOf(nodes, y));
    }
    forall x: nat, y: nat, z: nat | S(x, y) && S(y, z) ensures S(x, z) {
      if x != y && y != z {
        assert R(TermOf(nodes, x), TermOf(nodes, y)) && R(TermOf(nodes, y), TermOf(nodes, z));
      }
    }
    forall i: nat, j: nat | i < |nodes| && j < |nodes| && RelatedNodes(S, nodes[i], nodes[j]) ensures S(i, j) {
      RelatedNodesRelatedTerms(R, nodes, i, j);
    }
  }

  /** Consequences of congruence are sound in every model. */
  lemma EntailedSound(R: TermRel, nodes: seq<ENode>, rt: seq<nat>, m: seq<nat>)
    requires Fits(nodes, rt) && Fits(nodes, m) && Congruence(R) && Sound(R, nodes, rt) && Entailed(nodes, rt, m)
    ensures Sound(R, nodes, m)
  {
    OnIndicesCongruence(R, nodes);
    assert Within(rt, OnIndices(R, nodes));
    assert Within(m, OnIndices(R, nodes));
    forall i, j | 0 <= i < |nodes| && 0 <= j < |nodes| && m[i] == m[j] ensures R(TermOf(nodes, i), TermOf(nodes, j)) {
      assert OnIndices(R, nodes)(i, j);
    }
  }

  /** Joining a matched e-node with the instance of the other side is sound in every model
      that licenses the rule. */
  lemma RuleStepSound(R: TermRel, nodes: seq<ENode>, rt: seq<nat>, from: PTerm, to: PTerm, side: SideCondition,
                      items: seq<Binding>, n: nat, made: nat)
    requires Fits(nodes, rt) && n < |nodes| && made < |nodes|
    requires Congruence(R) && Licenses(R, from, to, side) && Sound(R, nodes, rt)
    requires OpsNamed(from) && OpsNamed(to)
    requires Matches(nodes, rt, from, n, items) && Matches(nodes, rt, to, made, items)
    requires Admits(from, side, ConstsOf(items))
    ensures Sound(R, nodes, Merge(rt, n, made))
  {
    var vars, consts := VarsOf(nodes, items), ConstsOf(items);
    MatchDenotes(R, nodes, rt, from, n, items);
    MatchDenotes(R, nodes, rt, to, made, items);
    assert R(Inst(from, vars, consts), Inst(to, vars, consts));
    assert R(TermOf(nodes, n), Inst(to, vars, consts));
    MergeSound(R, nodes, rt, n, made);
  }

  ghost predicate SideHolds(side: SideCondition, items: seq<Binding>) {
    side.None? || exists k :: 0 <= k < |items| && items[k].ToValue? && side.value(items[k].value)
  }

  lemma SideAdmits(side: SideCondition, items: seq<Binding>, from: PTerm)
    requires DistinctNames(items) && NamedIn(items, 0, from) && SideHolds(side, items)
    ensures Admits(from, side, ConstsOf(items))
  {
    if side.Some? {
      var k :| 0 <= k < |items| && items[k].ToValue? && side.value(items[k].value);
      LookupOwn(items, k);
      assert items[k].name in ConstNames(from) && side.value(ConstsOf(items)(items[k].name));
    }
  }

  /** No model of the ruleset distinguishes two members of one class. */
  ghost predicate AllSound(rules: seq<Rule>, nodes: seq<ENode>, rt: seq<nat>)
    requires WellFormedRules(rules) && Fits(nodes, rt)
  {
    forall R: TermRel :: Models(R, rules) ==> Sound(R, nodes, rt)
  }

  /** In every algebra whose rules hold, for every register valuation, the terms of two e-nodes with
      the same root have the same value. */
  lemma SameRootSameValue<V(!new)>(A: Algebra<V>, regs: string -> V, rules: seq<Rule>, nodes: seq<ENode>, rt: seq<nat>, i: nat, j: nat)
    requires WellFormedRules(rules) && Fits(nodes, rt) && AllSound(rules, nodes, rt) && RulesHold(A, rules)
    requires i < |nodes| && j < |nodes| && rt[i] == rt[j]
    ensures Eval(A, regs, TermOf(nodes, i)) == Eval(A, regs, TermOf(nodes, j))
  {
    AlgebraModels(A, regs, rules);
    assert Sound(SameValue(A, regs), nodes, rt);
    assert SameValue(A, regs)(TermOf(nodes, i), TermOf(nodes, j));
  }
}
