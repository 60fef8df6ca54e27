/** What the optimiser must achieve: a rule that applies to an instruction is applied, and what is chosen
costs no more than what the rule makes of it. */
module Progress {
  import opened Basics
  import opened Terms
  import opened UnionFind
  import opened EGraphs
  import opened Matching
  import opened MatchCompleteness
  import opened Soundness
  import opened Sweeps
  import opened SweepCompleteness
  import opened Saturation
  import opened Extraction
  import opened OeuphBridge
  import opened Writeback
  import opened FlatRules
  import opened OeuphInstr

  // ----- runs -----

  lemma ClosureKept(s: Graph, g: Graph)
    requires ClosureOf(s, g)
    ensures Kept(s, g)
  {
  }

  lemma TraceTail(rules: seq<Rule>, tr: seq<Graph>)
    requires WellFormedRules(rules) && Trace(rules, tr) && |tr| > 1
    ensures Trace(rules, tr[1..]) && Last(tr[1..]) == Last(tr) && Kept(tr[1], Last(tr))
  {
    var rest := tr[1..];
    forall k | 0 <= k < |rest| - 1 ensures Iterated(rules, rest[k], rest[k + 1]) {
      assert Iterated(rules, tr[k + 1], tr[k + 2]);
    }
    TraceKeeps(rules, rest);
  }

  /** Where a direction of a rule has a match before a run that tries anything, both sides hold after it. */
  lemma RunCompletes(rules: seq<Rule>, tr: seq<Graph>, k: nat, from: PTerm, to: PTerm, n: nat)
    requires WellFormedRules(rules) && Trace(rules, tr) && |tr| > 1 && HashConsed(tr[0].nodes)
    requires k < |rules| && Applicable(rules[k], from, to) && n < |tr[0].nodes| && HasMatch(tr[0], from, n)
    ensures n < |Last(tr).nodes| && Holds(Last(tr), from, to, n)
  {
    SweepCompletes(tr[0], rules, k, from, to, n);
    assert Iterated(rules, tr[0], tr[1]);
    ClosureKept(SweptRules(tr[0], rules).graph, tr[1]);
    HoldsKept(SweptRules(tr[0], rules).graph, tr[1], from, to, n);
    TraceTail(rules, tr);
    HoldsKept(tr[1], Last(tr), from, to, n);
  }

  /** The same for chains of rules that build on each other. */
  lemma RunFollowsChain(rules: seq<Rule>, tr: seq<Graph>, links: seq<Link>, n: nat)
    requires WellFormedRules(rules) && Trace(rules, tr) && |tr| > 1 && HashConsed(tr[0].nodes)
    requires Chain(rules, links) && n < |tr[0].nodes| && HasMatch(tr[0], links[0].from, n)
    ensures n < |Last(tr).nodes| && Concludes(Last(tr), links[|links| - 1], n)
  {
    SweepFollowsChain(tr[0], rules, links, n);
    assert Iterated(rules, tr[0], tr[1]);
    ClosureKept(SweptRules(tr[0], rules).graph, tr[1]);
    ConcludesKept(SweptRules(tr[0], rules).graph, tr[1], links[|links| - 1], n);
    TraceTail(rules, tr);
    ConcludesKept(tr[1], Last(tr), links[|links| - 1], n);
  }

  // ----- the cost of instances -----

  /** What an instance costs whose variables stand for leaves. */
  ghost function PatternCost(model: CostModel, t: PTerm): nat
    decreases t, 0
  {
    match t
    case POp(op, args) => NodeCost(ENode(op, false, 0, "", []), model) + PatternsCost(model, args)
    case _ => 1
  }

  ghost function PatternsCost(model: CostModel, ts: seq<PTerm>): nat
    decreases ts, 0
  {
    if ts == [] then 0 else PatternsCost(model, ts[..|ts| - 1]) + PatternCost(model, ts[|ts| - 1])
  }

  ghost predicate HoldsLeaf(s: Graph, c: nat) {
    exists l: nat :: l < |s.nodes| && s.rt[l] == c && TrueLeaf(s.nodes[l])
  }

  /** Every variable of the pattern is bound to a class with a leaf in it. */
  ghost predicate LeavesFor(s: Graph, t: PTerm, items: seq<Binding>) {
    forall x :: x in VarNames(t) && Lookup(items, x).Some? && Lookup(items, x).value.ToClass? ==>
      HoldsLeaf(s, Lookup(items, x).value.eclass)
  }

  /** A term of the class of a matched e-node that costs no more than the pattern. */
  lemma {:induction false} InstanceTree(s: Graph, model: CostModel, t: PTerm, n: nat, items: seq<Binding>) returns (u: ETree)
    requires HashConsed(s.nodes) && n < |s.nodes| && Matches(s.nodes, s.rt, t, n, items) && LeavesFor(s, t, items)
    ensures Represents(s.nodes, s.rt, u, s.rt[n]) && TreeCost(s.nodes, model, u) <= PatternCost(model, t)
    decreases t, 0
  {
    match t {
      case PVar(x) =>
        assert x in VarNames(t) && HoldsLeaf(s, s.rt[n]);
        var l: nat :| l < |s.nodes| && s.rt[l] == s.rt[n] && TrueLeaf(s.nodes[l]);
        u := LeafTree(s, model, l);
      case PConst(_) => u := LeafTree(s, model, n);
      case PConstVar(_) => u := LeafTree(s, model, n);
      case POp(op, args) =>
        forall k | 0 <= k < |args| ensures LeavesFor(s, args[k], items) {
          assert VarNames(args[k]) <= VarNames(t);
        }
        var us := InstanceTrees(s, model, args, s.nodes[n].children, items);
        u := ETree(n, us);
    }
  }

  lemma LeafTree(s: Graph, model: CostModel, l: nat) returns (u: ETree)
    requires HashConsed(s.nodes) && l < |s.nodes| && TrueLeaf(s.nodes[l])
    ensures Represents(s.nodes, s.rt, u, s.rt[l]) && TreeCost(s.nodes, model, u) == 1
  {
    assert Bare(s.nodes[l]);
    u := ETree(l, []);
  }

  lemma {:induction false} InstanceTrees(s: Graph, model: CostModel, ts: seq<PTerm>, cs: seq<nat>, items: seq<Binding>)
    returns (us: seq<ETree>)
    requires HashConsed(s.nodes) && |ts| == |cs| && forall k :: 0 <= k < |cs| ==> cs[k] < |s.nodes|
    requires forall k :: 0 <= k < |ts| ==> ClassMatches(s.nodes, s.rt, ts[k], cs[k], items) && LeavesFor(s, ts[k], items)
    ensures |us| == |ts| && forall k :: 0 <= k < |us| ==> Represents(s.nodes, s.rt, us[k], s.rt[cs[k]])
    ensures TreesCost(s.nodes, model, us) <= PatternsCost(model, ts)
    decreases ts, 0
  {
    us := [];
    if ts != [] {
      var n := |ts| - 1;
      us := InstanceTrees(s, model, ts[..n], cs[..n], items);
      assert ClassMatches(s.nodes, s.rt, ts[n], cs[n], items) && LeavesFor(s, ts[n], items);
      var j: nat :| j < |s.nodes| && s.rt[j] == s.rt[cs[n]] && Matches(s.nodes, s.rt, ts[n], j, items);
      var u := InstanceTree(s, model, ts[n], j, items);
      OneTreeMore(s.nodes, model, us, u);
      us := us + [u];
    }
  }

  // ----- what a rule does to an instruction -----

  /** An operator pattern that an imported instruction matches has no operators below. */
  lemma ImportedOperands(s: Graph, root: nat, v0: InstrView, from: PTerm)
    requires Imported(s, root, v0) && from.POp? && OpsNamed(from) && HasMatch(s, from, root)
    ensures forall k :: 0 <= k < |from.args| ==> !from.args[k].POp?
  {
    var items :| Matches(s.nodes, s.rt, from, root, items);
    var cs := s.nodes[root].children;
    forall k | 0 <= k < |from.args| ensures !from.args[k].POp? {
      assert ClassMatches(s.nodes, s.rt, from.args[k], cs[k], items);
      var j: nat :| j < |s.nodes| && s.rt[j] == s.rt[cs[k]] && Matches(s.nodes, s.rt, from.args[k], j, items);
      assert j == cs[k] && TrueLeaf(s.nodes[j]);
      assert OpsNamed(from.args[k]);
    }
  }

  /** Its variables stand for classes with leaves in them, in every later e-graph. */
  lemma OperandsBindLeaves(s: Graph, g: Graph, root: nat, v0: InstrView, from: PTerm, items: seq<Binding>)
    requires Imported(s, root, v0) && Kept(s, g) && from.POp? && forall k :: 0 <= k < |from.args| ==> !from.args[k].POp?
    requires Matches(g.nodes, g.rt, from, root, items)
    ensures LeavesFor(g, from, items)
  {
    var cs := s.nodes[root].children;
    assert g.nodes[root] == s.nodes[root];
    forall x | x in VarNames(from)
      ensures Lookup(items, x).Some? && Lookup(items, x).value.ToClass? && HoldsLeaf(g, Lookup(items, x).value.eclass)
    {
      var k :| 0 <= k < |from.args| && x in VarNames(from.args[k]);
      assert ClassMatches(g.nodes, g.rt, from.args[k], cs[k], items);
      var j: nat :| j < |g.nodes| && g.rt[j] == g.rt[cs[k]] && Matches(g.nodes, g.rt, from.args[k], j, items);
      assert s.nodes[cs[k]] == OperandLeaf(v0.operands[k]) && g.nodes[cs[k]] == s.nodes[cs[k]];
      assert g.rt[cs[k]] == Lookup(items, x).value.eclass;
    }
  }

  /** The pattern spells the instruction when its variables stand for operands, constant variables for integers. */
  ghost predicate Spelled(from: PTerm, v: InstrView, env: string -> OperandView) {
    && from.POp? && from.op == Trunc(v.opcode) && |from.args| == |v.operands| && VarNames(from) !! ConstNames(from)
    && forall k :: 0 <= k < |v.operands| ==> SpelledOperand(from.args[k], v.operands[k], env)
  }

  ghost predicate SpelledOperand(t: PTerm, o: OperandView, env: string -> OperandView) {
    match t
    case PVar(x) => OperandLeaf(env(x)) == OperandLeaf(o)
    case PConst(c) => o == ViewInt(c)
    case PConstVar(x) => o.ViewInt? && env(x) == o
    case POp(_, _) => false
  }

  ghost predicate LeafAt(s: Graph, i: nat, o: OperandView) {
    i < |s.nodes| && s.nodes[i] == OperandLeaf(o)
  }

  ghost function LeafClassOf(s: Graph, o: OperandView): nat {
    if exists i: nat :: LeafAt(s, i, o) then
      var i: nat :| LeafAt(s, i, o);
      s.rt[i]
    else 0
  }

  lemma LeafClassIs(s: Graph, i: nat, o: OperandView)
    requires HashConsed(s.nodes) && LeafAt(s, i, o)
    ensures LeafClassOf(s, o) == s.rt[i]
  {
    forall j: nat | LeafAt(s, j, o) ensures j == i {
      assert SameNode(s.nodes[i], s.nodes[j]) && SameNode(s.nodes[j], s.nodes[i]);
    }
  }

  /** What a caller can see in the instruction: a pattern that spells it has a match at its e-node. */
  lemma SpelledMatches(s: Graph, root: nat, v: InstrView, from: PTerm, env: string -> OperandView)
    requires Imported(s, root, v) && Spelled(from, v, env)
    ensures HasMatch(s, from, root)
  {
    var (consts, cs) := (ConstNames(from), s.nodes[root].children);
    var want := (x: string) =>
      if x in consts then ToValue(x, if env(x).ViewInt? then env(x).value else 0) else ToClass(x, LeafClassOf(s, env(x)));
    var b := BindingsFor(VarNames(from) + consts, want);
    forall k | 0 <= k < |from.args| ensures ClassMatches(s.nodes, s.rt, from.args[k], cs[k], b) {
      var t := from.args[k];
      assert VarNames(t) <= VarNames(from) && ConstNames(t) <= consts;
      assert SpelledOperand(t, v.operands[k], env) && s.nodes[cs[k]] == OperandLeaf(v.operands[k]);
      if t.PVar? {
        assert t.name in VarNames(t);
        assert LeafAt(s, cs[k], env(t.name));
        LeafClassIs(s, cs[k], env(t.name));
      } else if t.PConstVar? {
        assert t.name in ConstNames(t);
      }
      assert Matches(s.nodes, s.rt, t, cs[k], b);
    }
    assert Matches(s.nodes, s.rt, from, root, b);
  }

  /** A direction of a rule applies to an imported instruction: operator against operator, with a match. */
  ghost predicate AppliesTo(rules: seq<Rule>, k: nat, from: PTerm, to: PTerm, o: Outcome)
    requires WellFormedRules(rules)
  {
    && k < |rules| && WellFormedRule(rules[k]) && Applicable(rules[k], from, to) && from.POp?
    && Ran(o) && o.root < |o.tr[0].nodes| && HasMatch(o.tr[0], from, o.root)
  }

  lemma RuleTakesEffect(rules: seq<Rule>, budget: Budget, model: CostModel, v0: InstrView, o: Outcome, k: nat, from: PTerm, to: PTerm)
    requires WellFormedRules(rules) && Explained(rules, budget, model, v0, o) && AppliesTo(rules, k, from, to, o)
    requires budget.maxIterations > 0
    ensures Kept(o.tr[0], Last(o.tr)) && HashConsed(Last(o.tr).nodes) && Holds(Last(o.tr), from, to, o.root)
  {
    TraceKeeps(rules, o.tr);
    RunCompletes(rules, o.tr, k, from, to, o.root);
  }

  lemma AffordableTree(s: Graph, model: CostModel, v0: InstrView, g: Graph, root: nat, from: PTerm, to: PTerm) returns (u: ETree)
    requires Imported(s, root, v0) && Kept(s, g) && HashConsed(g.nodes) && Holds(g, from, to, root) && Covers(from, to)
    requires from.POp? && OpsNamed(from) && HasMatch(s, from, root)
    ensures Represents(g.nodes, g.rt, u, g.rt[root]) && TreeCost(g.nodes, model, u) <= PatternCost(model, to)
  {
    ImportedOperands(s, root, v0, from);
    var items :| Matches(g.nodes, g.rt, from, root, items) && ClassMatches(g.nodes, g.rt, to, root, items);
    OperandsBindLeaves(s, g, root, v0, from, items);
    var j: nat :| j < |g.nodes| && g.rt[j] == g.rt[root] && Matches(g.nodes, g.rt, to, j, items);
    u := InstanceTree(g, model, to, j, items);
  }

  /** The cheapest term of the class of the instruction, whose root is chosen, costs at most `bound`. */
  ghost predicate CostsAtMost(model: CostModel, o: Outcome, bound: nat) {
    && Ran(o) && o.root < |Last(o.tr).nodes|
    && exists t :: CheapestTerm(model, Last(o.tr), o.root, o.chosen, t) && TreeCost(Last(o.tr).nodes, model, t) <= bound
  }

  lemma CheapestAtMost(model: CostModel, o: Outcome, u: ETree, bound: nat)
    requires Ran(o) && o.root < |Last(o.tr).nodes| && Cheapest(model, Last(o.tr), o.root, o.chosen)
    requires var s := Last(o.tr); Represents(s.nodes, s.rt, u, s.rt[o.root]) && TreeCost(s.nodes, model, u) <= bound
    ensures CostsAtMost(model, o, bound)
  {
    var t :| CheapestTerm(model, Last(o.tr), o.root, o.chosen, t);
  }

  /** With a positive iteration budget, whatever stops the run: if a rule applies to an instruction, its
      class comes to hold the instance of the other side, and the cheapest term of the class, whose
      root is chosen, costs no more than that instance. */
  lemma ChosenAffordable(rules: seq<Rule>, budget: Budget, model: CostModel, v0: InstrView, o: Outcome, k: nat, from: PTerm, to: PTerm)
    requires WellFormedRules(rules) && Explained(rules, budget, model, v0, o) && AppliesTo(rules, k, from, to, o)
    requires budget.maxIterations > 0
    ensures o.root < |Last(o.tr).nodes| && Holds(Last(o.tr), from, to, o.root)
    ensures CostsAtMost(model, o, PatternCost(model, to))
  {
    RuleTakesEffect(rules, budget, model, v0, o, k, from, to);
    assert OpsNamed(from);
    var u := AffordableTree(o.tr[0], model, v0, Last(o.tr), o.root, from, to);
    CheapestAtMost(model, o, u, PatternCost(model, to));
  }

  // ----- the cost of instructions -----

  /** An instruction costs its opcode and one for every operand. */
  ghost function ViewCost(model: CostModel, v: InstrView): nat {
    NodeCost(ENode(v.opcode, false, 0, "", []), model) + |v.operands|
  }

  lemma {:induction false} TreesCostMany(nodes: seq<ENode>, rt: seq<nat>, model: CostModel, us: seq<ETree>, cs: seq<nat>)
    requires Fits(nodes, rt) && |us| == |cs| && forall k :: 0 <= k < |us| ==> cs[k] < |nodes| && Represents(nodes, rt, us[k], rt[cs[k]])
    ensures TreesCost(nodes, model, us) >= |us|
  {
    if us != [] {
      TreesCostMany(nodes, rt, model, us[..|us| - 1], cs[..|us| - 1]);
      assert Represents(nodes, rt, us[|us| - 1], rt[cs[|us| - 1]]);
    }
  }

  /** A term costs at least its root and one for every operand. */
  lemma TreeCostsRoot(s: Graph, model: CostModel, t: ETree, c: nat)
    requires Represents(s.nodes, s.rt, t, c)
    ensures TreeCost(s.nodes, model, t) >= NodeCost(s.nodes[t.node], model) + |s.nodes[t.node].children|
  {
    TreesCostMany(s.nodes, s.rt, model, t.kids, s.nodes[t.node].children);
  }

  /** The e-node of the instruction is there to the end. */
  lemma RootNode(rules: seq<Rule>, budget: Budget, model: CostModel, v0: InstrView, o: Outcome)
    requires WellFormedRules(rules) && o.Chosen? && Explained(rules, budget, model, v0, o)
    ensures var n := Last(o.tr).nodes[o.root];
            !n.isConst && n.opcode == Trunc(v0.opcode) && n.reg == "" && |n.children| == |v0.operands|
  {
    TraceKeeps(rules, o.tr);
    assert Last(o.tr).nodes[o.root] == o.tr[0].nodes[o.root];
  }

  /** What is written, if anything, costs no more than the chosen term; and an instruction that costs more
      than that is not its own choice. */
  lemma WrittenAffordable(rules: seq<Rule>, budget: Budget, model: CostModel, v0: InstrView, o: Outcome, bound: nat)
    requires WellFormedRules(rules) && InGraph(o) && Explained(rules, budget, model, v0, o) && CostsAtMost(model, o, bound)
    ensures Rewrites(v0, o) ==> ViewCost(model, OutcomeView(v0, o)) <= bound
    ensures bound < ViewCost(model, Renamed(v0)) ==> o.chosen != o.root
  {
    var s := Last(o.tr);
    RootNode(rules, budget, model, v0, o);
    ChoiceAffordable(model, o, bound);
  }

  lemma ChoiceAffordable(model: CostModel, o: Outcome, bound: nat)
    requires CostsAtMost(model, o, bound)
    ensures o.chosen < |Last(o.tr).nodes|
    ensures var n := Last(o.tr).nodes[o.chosen]; NodeCost(n, model) + |n.children| <= bound
  {
    var s := Last(o.tr);
    var t :| CheapestTerm(model, s, o.root, o.chosen, t) && TreeCost(s.nodes, model, t) <= bound;
    TreeCostsRoot(s, model, t, s.rt[o.root]);
  }

  /** Whatever the rules: if a rule applies that makes something of an instruction that costs less than its
      opcode alone, the instruction is rewritten under another opcode, or a leaf was chosen. */
  lemma OpcodeIsReplaced(rules: seq<Rule>, budget: Budget, model: CostModel, v0: InstrView, o: Outcome, k: nat, from: PTerm, to: PTerm)
    requires WellFormedRules(rules) && InGraph(o) && Explained(rules, budget, model, v0, o) && AppliesTo(rules, k, from, to, o)
    requires budget.maxIterations > 0 && PatternCost(model, to) < NodeCost(ENode(v0.opcode, false, 0, "", []), model)
    ensures Last(o.tr).nodes[o.chosen].IsLeaf() || (Rewrites(v0, o) && OutcomeView(v0, o).opcode != v0.opcode)
    ensures Rewrites(v0, o) ==> ViewCost(model, OutcomeView(v0, o)) <= PatternCost(model, to)
  {
    ChosenAffordable(rules, budget, model, v0, o, k, from, to);
    ChoiceAffordable(model, o, PatternCost(model, to));
    WrittenAffordable(rules, budget, model, v0, o, PatternCost(model, to));
  }

  // ----- rules that name their opcodes -----

  /** A leaf, or a named operator that holds no register name. */
  predicate ProperNode(n: ENode) {
    TrueLeaf(n) || (!n.isConst && n.opcode != "" && n.reg == "")
  }

  ghost predicate Proper(s: Graph) {
    forall i :: 0 <= i < |s.nodes| ==> ProperNode(s.nodes[i])
  }

  ghost predicate AllOpsNamed(t: PTerm) {
    t.POp? ==> t.op != "" && forall k :: 0 <= k < |t.args| ==> AllOpsNamed(t.args[k])
  }

  ghost predicate Named(rules: seq<Rule>)
    requires WellFormedRules(rules)
  {
    forall k :: 0 <= k < |rules| ==> WellFormedRule(rules[k]) && AllOpsNamed(Tree(rules[k].lhs)) && AllOpsNamed(Tree(rules[k].rhs))
  }

  lemma AddedProper(s: Graph, n: ENode)
    requires Proper(s) && WellFormedNode(n, |s.nodes|) && ProperNode(n)
    ensures Proper(Added(s, n).0)
  {
  }

  lemma {:induction false} BuiltProper(s: Graph, t: PTerm, items: seq<Binding>)
    requires BindsClasses(items, s.rt) && Slim(t) && AllOpsNamed(t) && Proper(s)
    ensures Proper(Built(s, t, items).graph)
    decreases t, 0
  {
    match t {
      case PVar(_) =>
      case PConst(v) => AddedProper(s, ENode("", true, v, "", []));
      case PConstVar(x) =>
        if Lookup(items, x).Some? && Lookup(items, x).value.ToValue? {
          AddedProper(s, ENode("", true, Lookup(items, x).value.value, "", []));
        }
      case POp(op, args) =>
        BuiltAllProper(s, args, items);
        var kids := BuiltAll(s, args, items);
        if kids.made.Some? {
          AddedProper(kids.graph, ENode(op, false, 0, "", kids.made.value));
        }
    }
  }

  lemma {:induction false} BuiltAllProper(s: Graph, ts: seq<PTerm>, items: seq<Binding>)
    requires BindsClasses(items, s.rt) && Proper(s) && forall k :: 0 <= k < |ts| ==> Slim(ts[k]) && AllOpsNamed(ts[k])
    ensures Proper(BuiltAll(s, ts, items).graph)
    decreases ts, 0
  {
    if ts != [] {
      BuiltAllProper(s, ts[..|ts| - 1], items);
      var init := BuiltAll(s, ts[..|ts| - 1], items);
      if init.made.Some? {
        BuiltProper(init.graph, ts[|ts| - 1], items);
      }
    }
  }

  ghost function IsProper(): Property {
    (s: Graph) => Proper(s)
  }

  lemma NamedUnbroken(from: PTerm, to: PTerm, side: SideCondition)
    requires AllOpsNamed(to)
    ensures Unbroken(IsProper(), from, to, side)
  {
    forall s: Graph, n: nat | n < |s.nodes| && Slim(to) && IsProper()(s) ensures IsProper()(Applied(s, from, to, side, n).graph) {
      var found := Found(s, from, n);
      if found.Some? && SideHolds(side, found.value) {
        FirstMatchSound(s.nodes, s.rt, from, n, []);
        BuiltProper(s, to, found.value);
      }
    }
  }

  lemma SweepProper(s: Graph, rules: seq<Rule>)
    requires WellFormedRules(rules) && Named(rules) && Proper(s)
    ensures Proper(SweptRules(s, rules).graph)
  {
    forall k | 0 <= k < |rules| ensures WellFormedRule(rules[k]) && UnbrokenByRule(IsProper(), rules[k]) {
      assert AllOpsNamed(Tree(rules[k].lhs));
      NamedUnbroken(Tree(rules[k].lhs), Tree(rules[k].rhs), rules[k].side);
      NamedUnbroken(Tree(rules[k].rhs), Tree(rules[k].lhs), rules[k].side);
    }
    assert IsProper()(s);
    SweepInvariant(IsProper(), s, rules);
    assert IsProper()(SweptRules(s, rules).graph);
  }

  lemma {:induction false} TraceProper(rules: seq<Rule>, tr: seq<Graph>)
    requires WellFormedRules(rules) && Named(rules) && Trace(rules, tr) && Proper(tr[0])
    ensures Proper(Last(tr))
    decreases |tr|
  {
    if |tr| > 1 {
      TraceInit(rules, tr);
      TraceProper(rules, tr[..|tr| - 1]);
      SweepProper(Last(tr[..|tr| - 1]), rules);
    }
  }

  // ----- instructions that must be rewritten -----

  /** In a layered, hash-consed e-graph an operator that says what a clean instruction says is its e-node. */
  lemma SaidOnce(s0: Graph, root: nat, v0: InstrView, s: Graph, c: nat)
    requires Imported(s0, root, v0) && Kept(s0, s) && HashConsed(s.nodes) && Layered(s) && Proper(s) && Clean(v0) && v0.opcode != ""
    requires c < |s.nodes| && WellFormedNode(s.nodes[c], |s.nodes|) && !TrueLeaf(s.nodes[c]) && AlreadyWritten(v0, s.nodes, s.nodes[c])
    ensures c == root
  {
    var (n, own) := (s.nodes[c], s.nodes[root]);
    assert own == s0.nodes[root] && LeavesBelow(s.nodes, n) && ProperNode(n);
    forall k | 0 <= k < |n.children| ensures n.children[k] == own.children[k] {
      var (a, b) := (n.children[k], own.children[k]);
      assert s.nodes[b] == s0.nodes[b] == OperandLeaf(v0.operands[k]);
      assert TrueLeaf(s.nodes[a]) && FitsRecord(s.nodes[a]) && OperandMatches(v0.operands[k], s.nodes[a]);
      assert SameNode(s.nodes[a], s.nodes[b]) && SameNode(s.nodes[b], s.nodes[a]);
    }
    assert SameNode(n, own) && SameNode(own, n);
  }

  /** What the last e-graph of a run of flat rules that name their opcodes is like. */
  lemma FlatRunEnds(rules: seq<Rule>, budget: Budget, model: CostModel, v0: InstrView, o: Outcome)
    requires WellFormedRules(rules) && o.Chosen? && InGraph(o) && Explained(rules, budget, model, v0, o)
    requires Flat(rules) && Named(rules) && Clean(v0) && v0.opcode != ""
    ensures var (s0, s) := (o.tr[0], Last(o.tr));
            && Kept(s0, s) && HashConsed(s.nodes) && Layered(s) && Proper(s)
            && !TrueLeaf(s.nodes[o.chosen]) && !s.nodes[o.chosen].IsLeaf()
  {
    var (s0, s) := (o.tr[0], Last(o.tr));
    TraceKeeps(rules, o.tr);
    ImportedLayered(s0, o.root, v0);
    TraceLayered(rules, o.tr);
    assert Proper(s0);
    TraceProper(rules, o.tr);
    assert s.nodes[o.root] == s0.nodes[o.root] && !TrueLeaf(s0.nodes[o.root]);
    assert ProperNode(s.nodes[o.chosen]);
  }

  lemma ImprovableIsRewritten(rules: seq<Rule>, budget: Budget, model: CostModel, v0: InstrView, o: Outcome)
    requires WellFormedRules(rules) && o.Chosen? && InGraph(o) && Explained(rules, budget, model, v0, o)
    requires Flat(rules) && Named(rules) && Clean(v0) && v0.opcode != "" && o.chosen != o.root
    ensures Rewrites(v0, o)
  {
    var s := Last(o.tr);
    FlatRunEnds(rules, budget, model, v0, o);
    if AlreadyWritten(v0, s.nodes, s.nodes[o.chosen]) {
      SaidOnce(o.tr[0], o.root, v0, s, o.chosen);
    }
  }

  lemma CleanCost(model: CostModel, v0: InstrView)
    requires Clean(v0)
    ensures ViewCost(model, Renamed(v0)) == ViewCost(model, v0)
  {
  }

  // ----- chains of flat rules -----

  /** In a layered e-graph a flat pattern binds classes of leaves. */
  lemma FlatLeavesFor(s: Graph, t: PTerm, n: nat, items: seq<Binding>)
    requires Layered(s) && HashConsed(s.nodes) && FlatPattern(t) && n < |s.nodes| && Matches(s.nodes, s.rt, t, n, items)
    ensures LeavesFor(s, t, items)
  {
    var cs := s.nodes[n].children;
    assert LeavesBelow(s.nodes, s.nodes[n]) && Bare(s.nodes[n]);
    forall x | x in VarNames(t) && Lookup(items, x).Some? && Lookup(items, x).value.ToClass?
      ensures HoldsLeaf(s, Lookup(items, x).value.eclass)
    {
      var k :| 0 <= k < |t.args| && x in VarNames(t.args[k]);
      assert ClassMatches(s.nodes, s.rt, t.args[k], cs[k], items);
      var j: nat :| j < |s.nodes| && s.rt[j] == s.rt[cs[k]] && Matches(s.nodes, s.rt, t.args[k], j, items);
      assert TrueLeaf(s.nodes[cs[k]]) && s.rt[cs[k]] == Lookup(items, x).value.eclass;
    }
  }

  lemma CoveredLeaves(s: Graph, from: PTerm, to: PTerm, items: seq<Binding>)
    requires Covers(from, to) && LeavesFor(s, from, items)
    ensures LeavesFor(s, to, items)
  {
  }

  lemma ChainTree(s: Graph, model: CostModel, link: Link, n: nat) returns (u: ETree)
    requires Layered(s) && HashConsed(s.nodes) && FlatPattern(link.from) && Covers(link.from, link.to)
    requires n < |s.nodes| && Concludes(s, link, n)
    ensures Represents(s.nodes, s.rt, u, s.rt[n]) && TreeCost(s.nodes, model, u) <= PatternCost(model, link.to)
  {
    var m: nat :| m < |s.nodes| && s.rt[m] == s.rt[n] && Holds(s, link.from, link.to, m);
    var items :| Matches(s.nodes, s.rt, link.from, m, items) && ClassMatches(s.nodes, s.rt, link.to, m, items);
    FlatLeavesFor(s, link.from, m, items);
    CoveredLeaves(s, link.from, link.to, items);
    var j: nat :| j < |s.nodes| && s.rt[j] == s.rt[m] && Matches(s.nodes, s.rt, link.to, j, items);
    u := InstanceTree(s, model, link.to, j, items);
  }

  lemma ChainAffordable(rules: seq<Rule>, budget: Budget, model: CostModel, v0: InstrView, o: Outcome, links: seq<Link>, env: string -> OperandView)
    requires WellFormedRules(rules) && o.Chosen? && InGraph(o) && Explained(rules, budget, model, v0, o)
    requires budget.maxIterations > 0 && Flat(rules) && Named(rules) && Clean(v0) && v0.opcode != ""
    requires Chain(rules, links) && Spelled(links[0].from, v0, env)
    ensures CostsAtMost(model, o, PatternCost(model, links[|links| - 1].to))
  {
    var (s, link) := (Last(o.tr), links[|links| - 1]);
    SpelledMatches(o.tr[0], o.root, v0, links[0].from, env);
    RunFollowsChain(rules, o.tr, links, o.root);
    FlatRunEnds(rules, budget, model, v0, o);
    LinkFlat(rules, link);
    var u := ChainTree(s, model, link, o.root);
    CheapestAtMost(model, o, u, PatternCost(model, link.to));
  }

  lemma LinkFlat(rules: seq<Rule>, link: Link)
    requires WellFormedRules(rules) && Flat(rules) && link.rule < |rules| && Applicable(rules[link.rule], link.from, link.to)
    ensures FlatPattern(link.from) && Covers(link.from, link.to)
  {
    assert WellFormedRule(rules[link.rule]) && FlatPattern(Tree(rules[link.rule].lhs)) && FlatPattern(Tree(rules[link.rule].rhs));
  }

  /** Under flat rules that name their opcodes: if a chain of rules, each applied to what the one before
      concludes, makes something cheaper of a clean instruction, then one iteration is enough to rewrite
      it into an instruction that costs no more than that, and means the same. */
  lemma ImprovableIsImproved(rules: seq<Rule>, budget: Budget, model: CostModel, v0: InstrView, o: Outcome, links: seq<Link>,
                             env: string -> OperandView)
    requires WellFormedRules(rules) && InGraph(o) && Explained(rules, budget, model, v0, o)
    requires budget.maxIterations > 0 && Flat(rules) && Named(rules) && Clean(v0) && v0.opcode != ""
    requires Chain(rules, links) && Spelled(links[0].from, v0, env)
    requires PatternCost(model, links[|links| - 1].to) < ViewCost(model, v0)
    ensures Rewrites(v0, o) && InstrPreserved(rules, v0, OutcomeView(v0, o))
    ensures ViewCost(model, OutcomeView(v0, o)) <= PatternCost(model, links[|links| - 1].to)
  {
    var bound := PatternCost(model, links[|links| - 1].to);
    ChainAffordable(rules, budget, model, v0, o, links, env);
    CleanCost(model, v0);
    WrittenAffordable(rules, budget, model, v0, o, bound);
    ImprovableIsRewritten(rules, budget, model, v0, o);
    FlatOutcome(rules, budget, model, v0, o);
    FaithfulPreserves(rules, budget, model, v0, o);
  }
}
