/** Two runs that count as saturated although a rule is not satisfied. */
module SaturationExamples {
  import opened Basics
  import opened Terms
  import opened UnionFind
  import opened EGraphs
  import opened Matching
  import opened Sweeps
  import opened Saturation

  /** One operator over one variable. */
  function Unary(op: string): Pattern {
    Pattern([PatNode(KindOp, op, 0, [1]), PatNode(KindVar, "x", 0, [])], 0)
  }

  ghost function UnaryTree(op: string): PTerm {
    POp(op, [PVar("x")])
  }

  lemma UnaryIs(op: string)
    requires 0 < |op| <= NAME_LIMIT
    ensures WellFormedPattern(Unary(op)) && Tree(Unary(op)) == UnaryTree(op)
    ensures Slim(UnaryTree(op)) && OpsNamed(UnaryTree(op))
  {
    assert TreeOf(Unary(op), 1) == PVar("x");
  }

  /** (k (g ?x) ?y): the second variable is bound by nothing. */
  const LOOSE := Pattern([PatNode(KindOp, "k", 0, [1, 3]), PatNode(KindOp, "g", 0, [2]), PatNode(KindVar, "x", 0, []),
                          PatNode(KindVar, "y", 0, [])], 0)

  ghost const LOOSE_TREE: PTerm := POp("k", [UnaryTree("g"), PVar("y")])

  lemma LooseIs()
    ensures WellFormedPattern(LOOSE) && Tree(LOOSE) == LOOSE_TREE && Slim(LOOSE_TREE) && OpsNamed(LOOSE_TREE)
  {
    assert TreeOf(LOOSE, 2) == PVar("x") && TreeOf(LOOSE, 3) == PVar("y");
    assert TreeOf(LOOSE, 1) == UnaryTree("g");
  }

  /** (g ?x) -> (h ?x), and then (f ?x) -> (k (g ?x) ?y). */
  const FIRST := Rule("first", Unary("g"), Unary("h"), false, None)
  const SECOND := Rule("second", Unary("f"), LOOSE, false, None)

  lemma RulesWellFormed()
    ensures WellFormedRules([FIRST, SECOND]) && WellFormedRules([FIRST])
  {
    UnaryIs("g");
    UnaryIs("h");
    UnaryIs("f");
    LooseIs();
  }

  // ----- the e-graphs f(a), and f(a) with g(a) -----

  ghost const REG_A: ENode := ENode("", false, 0, "a", [])
  ghost const OVER_A: string -> ENode := (op: string) => ENode(op, false, 0, "", [0])
  ghost const BEFORE: Snapshot := Snapshot([REG_A, OVER_A("f")], [0, 1])
  ghost const AFTER: Snapshot := Snapshot([REG_A, OVER_A("f"), OVER_A("g")], [0, 1, 2])
  ghost const FOUND_A: seq<Binding> := [ToClass("x", 0)]

  lemma GraphsFit()
    ensures Fits(BEFORE.nodes, BEFORE.rt) && Fits(AFTER.nodes, AFTER.rt)
    ensures IsClosed(BEFORE) && IsClosed(AFTER)
  {
  }

  /** An operator over one variable matches the e-node of that operator over register a. */
  lemma UnaryFound(s: Graph, op: string, n: nat)
    requires n < |s.nodes| && s.nodes[n] == OVER_A(op) && s.rt[0] == 0
    ensures Found(s, UnaryTree(op), n) == Some(FOUND_A)
  {
    var x := PVar("x");
    assert [] + FOUND_A == FOUND_A;
    assert FirstMatch(s.nodes, s.rt, x, 0, []) == Some(FOUND_A);
    FirstInClassStep(s.nodes, s.rt, x, 0, 0, []);
    assert FirstInClass(s.nodes, s.rt, x, 0, 0, []) == Some(FOUND_A);
    assert MatchArgs(s.nodes, s.rt, [x], [0], []) == Some(FOUND_A);
  }

  lemma UnaryBuilt()
    ensures Fits(BEFORE.nodes, BEFORE.rt) && Fits(AFTER.nodes, AFTER.rt) && BindsClasses(FOUND_A, BEFORE.rt) && Slim(UnaryTree("g"))
    ensures Built(BEFORE, UnaryTree("g"), FOUND_A) == Instance(AFTER, Some(2))
  {
    GraphsFit();
    UnaryIs("g");
    var x := PVar("x");
    assert Built(BEFORE, x, FOUND_A) == Instance(BEFORE, Some(0));
    assert [x][..0] == [] && [] + [0] == [0];
    assert BuiltAll(BEFORE, [x], FOUND_A) == Instance(BEFORE, Some([0]));
    FirstAlikeIs(BEFORE, OVER_A("g"), 0, 2);
  }

  /** The failed instance of (k (g ?x) ?y) leaves g(a) behind. */
  lemma LooseLeavesG()
    ensures Fits(BEFORE.nodes, BEFORE.rt) && Fits(AFTER.nodes, AFTER.rt) && BindsClasses(FOUND_A, BEFORE.rt) && Slim(LOOSE_TREE)
    ensures Built(BEFORE, LOOSE_TREE, FOUND_A) == Instance(AFTER, None)
  {
    GraphsFit();
    LooseIs();
    UnaryBuilt();
    OperandUnbound(BEFORE, AFTER, "k", UnaryTree("g"), "y", FOUND_A);
  }

  /** When the first operand has an instance and the second is an unbound variable. */
  lemma OperandUnbound(s: Graph, g: Graph, op: string, t: PTerm, y: string, items: seq<Binding>)
    requires Slim(POp(op, [t, PVar(y)])) && Slim(t) && BindsClasses(items, s.rt) && BindsClasses(items, g.rt)
    requires Built(s, t, items).graph == g && Built(s, t, items).made.Some? && Lookup(items, y).None?
    ensures Built(s, POp(op, [t, PVar(y)]), items) == Instance(g, None)
  {
    var args := [t, PVar(y)];
    assert [t][..0] == [];
    assert BuiltAll(s, [t][..0], items) == Instance(s, Some([]));
    assert BuiltAll(s, [t], items).graph == g && BuiltAll(s, [t], items).made.Some?;
    assert args[..1] == [t];
    assert BuiltAll(s, args, items) == Instance(g, None);
  }

  lemma SecondSweep()
    ensures Fits(BEFORE.nodes, BEFORE.rt) && Fits(AFTER.nodes, AFTER.rt) && WellFormedRule(SECOND)
    ensures SweptRule(BEFORE, SECOND) == Step(AFTER, 1, 0)
  {
    GraphsFit();
    RulesWellFormed();
    UnaryIs("f");
    LooseIs();
    var s: Graph := BEFORE;
    var f := Attempts(UnaryTree("f"), LOOSE_TREE, None);
    assert f(s, 0) == Step(s, 0, 0);
    UnaryFound(s, "f", 1);
    LooseLeavesG();
    assert f(s, 1) == Step(AFTER, 1, 0);
    IterateStep(f, s, 0);
    IterateStep(f, s, 1);
    assert Iterate(f, s, 2) == Step(AFTER, 1, 0);
  }

  lemma WholeSweep()
    ensures Fits(BEFORE.nodes, BEFORE.rt) && Fits(AFTER.nodes, AFTER.rt)
    ensures SweptRules(BEFORE, [FIRST, SECOND]) == Step(AFTER, 1, 0)
  {
    GraphsFit();
    RulesWellFormed();
    UnaryIs("g");
    var s: Graph := BEFORE;
    var f := RuleSweeps([FIRST, SECOND]);
    RuleIgnored(s, FIRST, "f");
    SecondSweep();
    IterateStep(f, s, 0);
    IterateStep(f, s, 1);
  }

  ghost const DEFAULT_BUDGET: Budget := Budget(4096, 2048, 30, (k: nat) => false)

  /** The first rule fires at g(a), whose class holds nothing else. */
  lemma FirstUnsatisfied()
    ensures Fits(AFTER.nodes, AFTER.rt) && WellFormedRules([FIRST, SECOND]) && WellFormedRules([FIRST])
    ensures !RulesSatisfied(AFTER, [FIRST, SECOND]) && !RulesSatisfied(AFTER, [FIRST])
  {
    GraphsFit();
    RulesWellFormed();
    UnaryIs("g");
    UnaryIs("h");
    var s: Graph := AFTER;
    UnaryFound(s, "g", 2);
    assert Fires(s, UnaryTree("g"), UnaryTree("h"), None, 2);
    assert !ClassMatches(s.nodes, s.rt, UnaryTree("h"), 2, FOUND_A);
    assert !Satisfied(s, UnaryTree("g"), UnaryTree("h"), None, 2);
    assert !RuleSatisfiedBefore(s, FIRST, 3);
    assert [FIRST, SECOND][0] == FIRST && [FIRST][0] == FIRST;
  }

  lemma IdleIterationOnFA()
    ensures Fits(BEFORE.nodes, BEFORE.rt) && Fits(AFTER.nodes, AFTER.rt)
    ensures Iterated([FIRST, SECOND], BEFORE, AFTER) && !Grew([FIRST, SECOND], BEFORE)
  {
    GraphsFit();
    WholeSweep();
    ClosedIsItsClosure(AFTER);
  }

  lemma ClosedIsItsClosure(s: Graph)
    requires IsClosed(s)
    ensures ClosureOf(s, s)
  {
  }

  lemma WithinDefaultBudget()
    ensures Fits(AFTER.nodes, AFTER.rt) && !OverBudget(DEFAULT_BUDGET, AFTER, 1)
  {
    GraphsFit();
    SubsetSize(Representatives(AFTER.rt, 3), {0, 1, 2});
  }

  /** Budgets are inclusive, and the reason is the first that was exceeded: three e-nodes in three classes. */
  lemma BudgetBoundaries()
    ensures Fits(AFTER.nodes, AFTER.rt)
    ensures !OverBudget(Budget(3, 3, 1, (k: nat) => false), AFTER, 1)
    ensures BudgetReason(Budget(3, 3, 1, (k: nat) => false), AFTER, 1) == "iterations"
    ensures OverBudget(Budget(2, 3, 1, (k: nat) => false), AFTER, 1)
    ensures BudgetReason(Budget(2, 2, 1, (k: nat) => true), AFTER, 1) == "nodes"
    ensures OverBudget(Budget(3, 2, 1, (k: nat) => false), AFTER, 1)
    ensures BudgetReason(Budget(3, 2, 1, (k: nat) => true), AFTER, 1) == "classes"
    ensures OverBudget(Budget(3, 3, 1, (k: nat) => k >= 1), AFTER, 1) && !OverBudget(Budget(3, 3, 1, (k: nat) => k >= 2), AFTER, 1)
    ensures BudgetReason(Budget(3, 3, 1, (k: nat) => k >= 1), AFTER, 1) == "time"
  {
    GraphsFit();
    assert Representatives(AFTER.rt, 3) == {0, 1, 2};
  }

  /** An uncovered rule: from f(a), under the default budget, one iteration joins nothing and the run
      counts as saturated, but the instance that failed left an e-node at which the first rule is not
      satisfied. */
  lemma SaturatedButUnsatisfied()
    ensures Fits(BEFORE.nodes, BEFORE.rt) && Fits(AFTER.nodes, AFTER.rt) && IsClosed(BEFORE) && WellFormedRules([FIRST, SECOND])
    ensures Trace([FIRST, SECOND], [BEFORE, AFTER]) && Ended([FIRST, SECOND], DEFAULT_BUDGET, [BEFORE, AFTER], 0, true)
    ensures !RulesSatisfied(AFTER, [FIRST, SECOND])
  {
    GraphsFit();
    RulesWellFormed();
    IdleIterationOnFA();
    WithinDefaultBudget();
    FirstUnsatisfied();
    OneIdleIteration([FIRST, SECOND], BEFORE, AFTER);
  }

  lemma OneIdleIteration(rules: seq<Rule>, s: Graph, g: Graph)
    requires Iterated(rules, s, g) && !Grew(rules, s) && !OverBudget(DEFAULT_BUDGET, g, 1)
    ensures Trace(rules, [s, g]) && Ended(rules, DEFAULT_BUDGET, [s, g], 0, true)
  {
    var tr: seq<Graph> := [s];
    TraceGrows(rules, tr, g);
    EndedNow(rules, DEFAULT_BUDGET, tr, 0, g, true);
    assert tr + [g] == [s, g];
  }

  /** Without a positive iteration budget a run counts as saturated although it tried nothing. */
  lemma NothingTriedButSaturated(budget: Budget)
    requires budget.maxIterations <= 0
    ensures Fits(AFTER.nodes, AFTER.rt) && IsClosed(AFTER)
    ensures var (rules, tr) := ([FIRST], [AFTER]);
            WellFormedRules(rules) && Trace(rules, tr) && Ended(rules, budget, tr, 0, true) && !RulesSatisfied(AFTER, rules)
  {
    GraphsFit();
    RulesWellFormed();
    FirstUnsatisfied();
  }
}
