/** The sample instruction that strength reduction is for, and two rules that one sweep chains. */
module ProgressExamples {
  import opened Basics
  import opened Terms
  import opened EGraphs
  import opened Matching
  import opened MatchCompleteness
  import opened Sweeps
  import opened SweepCompleteness
  import opened Saturation
  import opened Extraction
  import opened OeuphBridge
  import opened Writeback
  import opened FlatRules
  import opened OeuphInstr
  import opened Progress

  /** (op ?x (iconst c)) */
  function Binary(op: string, c: int): Pattern {
    Pattern([PatNode(KindOp, op, 0, [1, 2]), PatNode(KindVar, "?x", 0, []), PatNode(KindConst, "", c, [])], 0)
  }

  ghost function BinaryTree(op: string, c: int): PTerm {
    POp(op, [PVar("?x"), PConst(c)])
  }

  lemma BinaryIs(op: string, c: int)
    requires 0 < |op| <= NAME_LIMIT
    ensures WellFormedPattern(Binary(op, c)) && Tree(Binary(op, c)) == BinaryTree(op, c)
    ensures OpsNamed(BinaryTree(op, c)) && AllOpsNamed(BinaryTree(op, c)) && FlatPattern(BinaryTree(op, c))
    ensures Committed(BinaryTree(op, c), {})
    ensures VarNames(BinaryTree(op, c)) == {"?x"} && ConstNames(BinaryTree(op, c)) == {}
  {
    var (p, t) := (Binary(op, c), BinaryTree(op, c));
    assert TreeOf(p, 1) == PVar("?x") && TreeOf(p, 2) == PConst(c);
    FlatCommitted(t.args, {});
    assert t.args[0] == PVar("?x") && VarNames(t.args[0]) == {"?x"} && VarNames(t.args[1]) == {};
    assert ConstNames(t.args[0]) == {} && ConstNames(t.args[1]) == {};
  }

  /** Operands that are no operators are always committed. */
  lemma {:induction false} FlatCommitted(ts: seq<PTerm>, bound: set<string>)
    requires forall k :: 0 <= k < |ts| ==> !ts[k].POp?
    ensures CommittedAll(ts, bound)
    decreases |ts|
  {
    if ts != [] {
      FlatCommitted(ts[1..], bound + Names(ts[0]));
    }
  }

  // ----- imul x, 8 -----

  const MUL_8_SHL_3 := Rule("mul-8-shl-3", Binary("imul", 8), Binary("shl", 3), true, None)

  /** d = imul r, 8 */
  ghost function Times8(d: Option<string>, r: string): InstrView {
    InstrView("imul", d, [ViewReg(r), ViewInt(8)])
  }

  lemma Mul8Applies()
    ensures WellFormedRule(MUL_8_SHL_3) && Applicable(MUL_8_SHL_3, BinaryTree("imul", 8), BinaryTree("shl", 3))
  {
    BinaryIs("imul", 8);
    BinaryIs("shl", 3);
  }

  lemma Times8Spelled(d: Option<string>, r: string) returns (env: string -> OperandView)
    ensures Spelled(BinaryTree("imul", 8), Times8(d, r), env)
  {
    env := (x: string) => ViewReg(r);
    BinaryIs("imul", 8);
  }

  /** Under the cost model for performance imul costs 30 and this shl 6. */
  lemma ShlCosts(c: int)
    ensures PatternCost(CostPerformance, BinaryTree("shl", c)) == 6
    ensures NodeCost(ENode("imul", false, 0, "", []), CostPerformance) == 30
  {
    var args := [PVar("?x"), PConst(c)];
    assert args[..1] == [PVar("?x")] && args[..1][..0] == [];
    assert PatternsCost(CostPerformance, args[..1]) == 1;
    assert PatternsCost(CostPerformance, args) == 2;
  }

  /** In whatever ruleset the rule stands, with any positive iteration budget: the instruction is not left
      as it is, nor rewritten under its opcode, unless its value was found in a leaf. */
  lemma Times8IsReduced(rules: seq<Rule>, k: nat, budget: Budget, d: Option<string>, r: string, o: Outcome)
    requires WellFormedRules(rules) && k < |rules| && rules[k] == MUL_8_SHL_3 && budget.maxIterations > 0
    requires InGraph(o) && Explained(rules, budget, CostPerformance, Times8(d, r), o)
    ensures o.Chosen?
    ensures Last(o.tr).nodes[o.chosen].IsLeaf()
         || (Rewrites(Times8(d, r), o) && OutcomeView(Times8(d, r), o).opcode != "imul"
             && ViewCost(CostPerformance, OutcomeView(Times8(d, r), o)) <= 6)
  {
    var v := Times8(d, r);
    var (from, to) := (BinaryTree("imul", 8), BinaryTree("shl", 3));
    Mul8Applies();
    ShlCosts(3);
    var env := Times8Spelled(d, r);
    SpelledMatches(o.tr[0], o.root, v, from, env);
    OpcodeIsReplaced(rules, budget, CostPerformance, v, o, k, from, to);
  }

  // ----- f x, through imul x, 2 to shl x, 1 -----

  /** (f ?x) */
  const CALL := Pattern([PatNode(KindOp, "f", 0, [1]), PatNode(KindVar, "?x", 0, [])], 0)
  ghost const CALL_TREE: PTerm := POp("f", [PVar("?x")])

  lemma CallIs()
    ensures WellFormedPattern(CALL) && Tree(CALL) == CALL_TREE && OpsNamed(CALL_TREE) && AllOpsNamed(CALL_TREE)
    ensures FlatPattern(CALL_TREE) && Committed(CALL_TREE, {}) && VarNames(CALL_TREE) == {"?x"} && ConstNames(CALL_TREE) == {}
  {
    assert TreeOf(CALL, 1) == PVar("?x");
    FlatCommitted(CALL_TREE.args, {});
    assert CALL_TREE.args[0] == PVar("?x") && VarNames(CALL_TREE.args[0]) == {"?x"} && ConstNames(CALL_TREE.args[0]) == {};
  }

  const DOUBLE := Rule("double", CALL, Binary("imul", 2), false, None)
  const MUL_2_SHL_1 := Rule("mul-2-shl-1", Binary("imul", 2), Binary("shl", 1), true, None)
  const DOUBLING := [DOUBLE, MUL_2_SHL_1]

  ghost const DOUBLE_THEN_SHIFT: seq<Link> :=
    [Link(0, CALL_TREE, BinaryTree("imul", 2)), Link(1, BinaryTree("imul", 2), BinaryTree("shl", 1))]

  /** A pattern generalises itself. */
  lemma InstanceOfItself(op: string, c: int)
    requires 0 < |op| <= NAME_LIMIT
    ensures InstanceOf(BinaryTree(op, c), BinaryTree(op, c))
  {
    BinaryIs(op, c);
    var t := BinaryTree(op, c);
    var same: Substitution := (x: string) => PVar(x);
    assert seq(2, k requires 0 <= k < 2 => Substituted(t.args[k], same)) == t.args;
    assert ForLeaves(t, same) && t == Substituted(t, same);
  }

  lemma DoubleApplies()
    ensures WellFormedRule(DOUBLE) && Applicable(DOUBLE, CALL_TREE, BinaryTree("imul", 2))
    ensures FlatPattern(Tree(DOUBLE.lhs)) && FlatPattern(Tree(DOUBLE.rhs)) && AllOpsNamed(Tree(DOUBLE.lhs)) && AllOpsNamed(Tree(DOUBLE.rhs))
  {
    CallIs();
    BinaryIs("imul", 2);
  }

  lemma Mul2Applies()
    ensures WellFormedRule(MUL_2_SHL_1) && Applicable(MUL_2_SHL_1, BinaryTree("imul", 2), BinaryTree("shl", 1))
    ensures FlatPattern(Tree(MUL_2_SHL_1.lhs)) && FlatPattern(Tree(MUL_2_SHL_1.rhs))
    ensures AllOpsNamed(Tree(MUL_2_SHL_1.lhs)) && AllOpsNamed(Tree(MUL_2_SHL_1.rhs))
  {
    BinaryIs("imul", 2);
    BinaryIs("shl", 1);
  }

  lemma DoublingRules()
    ensures WellFormedRules(DOUBLING) && Flat(DOUBLING) && Named(DOUBLING)
  {
    DoubleApplies();
    Mul2Applies();
  }

  lemma DoublingChain()
    ensures WellFormedRules(DOUBLING) && Chain(DOUBLING, DOUBLE_THEN_SHIFT)
  {
    DoublingRules();
    DoubleApplies();
    Mul2Applies();
    InstanceOfItself("imul", 2);
    ChainOfTwo(DOUBLING, DOUBLE_THEN_SHIFT);
  }

  lemma ChainOfTwo(rules: seq<Rule>, links: seq<Link>)
    requires WellFormedRules(rules) && |links| == 2 && links[0].rule < links[1].rule < |rules|
    requires WellFormedRule(rules[links[0].rule]) && Applicable(rules[links[0].rule], links[0].from, links[0].to)
    requires WellFormedRule(rules[links[1].rule]) && Applicable(rules[links[1].rule], links[1].from, links[1].to)
    requires InstanceOf(links[0].to, links[1].from)
    ensures Chain(rules, links)
  {
  }

  /** d = f r */
  ghost function Doubled(d: Option<string>, r: string): InstrView {
    InstrView("f", d, [ViewReg(r)])
  }

  lemma DoubledSpelled(d: Option<string>, r: string) returns (env: string -> OperandView)
    ensures Spelled(CALL_TREE, Doubled(d, r), env)
  {
    CallIs();
    env := (x: string) => ViewReg(r);
  }

  lemma DoubledCosts(d: Option<string>, r: string)
    requires |r| <= NAME_LIMIT
    ensures Clean(Doubled(d, r)) && ViewCost(CostPerformance, Doubled(d, r)) == 11
  {
  }

  /** One iteration is enough for the second rule to build on what the first concluded: x doubled by f is
      shifted in the end, because the opcode f costs 10 and the shift 6. */
  lemma DoubledIsShifted(budget: Budget, d: Option<string>, r: string, o: Outcome)
    requires budget.maxIterations > 0 && |r| <= NAME_LIMIT
    requires InGraph(o) && Explained(DOUBLING, budget, CostPerformance, Doubled(d, r), o)
    ensures WellFormedRules(DOUBLING) && Rewrites(Doubled(d, r), o) && ViewCost(CostPerformance, OutcomeView(Doubled(d, r), o)) <= 6
    ensures InstrPreserved(DOUBLING, Doubled(d, r), OutcomeView(Doubled(d, r), o))
  {
    DoublingRules();
    DoublingChain();
    ShlCosts(1);
    DoubledCosts(d, r);
    var env := DoubledSpelled(d, r);
    ImprovableIsImproved(DOUBLING, budget, CostPerformance, Doubled(d, r), o, DOUBLE_THEN_SHIFT, env);
  }
}
