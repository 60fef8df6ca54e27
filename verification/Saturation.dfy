/** Bounded equality saturation: the loops of the program, proved to compute the sweeps, and what a run of
them reports. */
module Saturation {
  import opened Terms
  import opened UnionFind
  import opened EGraphs
  import opened Matching
  import opened Soundness
  import opened Sweeps

  /** `late(k)` says whether the wall-clock budget has run out when iteration `k` ends. */
  datatype Budget = Budget(maxNodes: int, maxClasses: int, maxIterations: int, late: nat -> bool)

  /** What a run reports, as a value. */
  datatype Report = Report(iterations: nat, nodes: nat, classes: nat, matches: nat, applications: nat, saturated: bool, budgetHit: string)

  class Stats {
    var iterations: nat
    var nodes: nat
    var classes: nat
    var matches: nat
    var applications: nat
    var saturated: bool
    var budgetHit: string

    ghost function Now(): Report
      reads this
    {
      Report(iterations, nodes, classes, matches, applications, saturated, budgetHit)
    }

    constructor ()
      ensures Now() == Report(0, 0, 0, 0, 0, true, "")
    {
      iterations, nodes, classes, matches, applications := 0, 0, 0, 0, 0;
      saturated, budgetHit := true, "";
    }
  }

  // ----- one sweep -----

  /** The side condition holds of some constant binding. */
  method CheckSide(side: SideCondition, items: seq<Binding>) returns (ok: bool)
    ensures ok <==> SideHolds(side, items)
  {
    if side.None? {
      return true;
    }
    ok := false;
    var k := 0;
    while k < |items|
      invariant 0 <= k <= |items|
      invariant ok <==> exists j :: 0 <= j < k && items[j].ToValue? && side.value(items[j].value)
    {
      if items[k].ToValue? && side.value(items[k].value) {
        ok := true;
      }
      k := k + 1;
    }
  }

  /** Builds the instance for an accepted match and joins it with the matched e-node. */
  method Conclude(g: EGraph, to: Pattern, ni: nat, b: Bindings, stats: Stats, ghost s: Graph) returns (applied: bool)
    requires g.Valid() && g.Now() == s && WellFormedPattern(to) && ni < |g.nodes| && BindsClasses(b.items, s.rt)
    modifies g, stats`applications
    ensures g.Valid() && Slim(Tree(to))
    ensures var step := Concluded(s, Tree(to), b.items, ni);
            && g.Now() == step.graph && g.unions == old(g.unions) + step.joins
            && stats.applications == old(stats.applications) + step.joins
            && (applied <==> step.joins > 0)
  {
    TreeSlim(to, to.root);
    var made := Instantiate(g, to, to.root, b);
    if made.None? {
      return false;
    }
    applied := g.Union(ni, made.value);
    if applied {
      stats.applications := stats.applications + 1;
    }
  }

  /** Tries one direction of one rule at one e-node. */
  method ApplyAt(g: EGraph, from: Pattern, to: Pattern, side: SideCondition, ni: nat, stats: Stats)
    returns (applied: bool, ghost step: Step)
    requires g.Valid() && WellFormedPattern(from) && WellFormedPattern(to) && ni < |g.nodes|
    modifies g, stats`matches, stats`applications
    ensures g.Valid() && Slim(Tree(to)) && step == Applied(old(g.Now()), Tree(from), Tree(to), side, ni)
    ensures g.Now() == step.graph && g.unions == old(g.unions) + step.joins
    ensures stats.matches == old(stats.matches) + step.matches && stats.applications == old(stats.applications) + step.joins
    ensures applied <==> step.joins > 0
  {
    TreeSlim(to, to.root);
    ghost var s := g.Now();
    step := Applied(s, Tree(from), Tree(to), side, ni);
    var b := new Bindings();
    var matched := MatchNode(g, from, from.root, ni, b);
    if !matched {
      return false, step;
    }
    FirstMatchSound(s.nodes, s.rt, Tree(from), ni, []);
    stats.matches := stats.matches + 1;
    var ok := CheckSide(side, b.items);
    if !ok {
      return false, step;
    }
    applied := Conclude(g, to, ni, b, stats, s);
  }

  /** Tries one direction of one rule at every e-node present when the sweep starts. */
  method SweepDirection(g: EGraph, from: Pattern, to: Pattern, side: SideCondition, stats: Stats)
    returns (grew: bool, ghost step: Step)
    requires g.Valid() && WellFormedPattern(from) && WellFormedPattern(to)
    modifies g, stats`matches, stats`applications
    ensures g.Valid() && step == SweptDirection(old(g.Now()), Tree(from), Tree(to), side)
    ensures g.Now() == step.graph && g.unions == old(g.unions) + step.joins
    ensures stats.matches == old(stats.matches) + step.matches && stats.applications == old(stats.applications) + step.joins
    ensures grew <==> step.joins > 0
  {
    ghost var s, f := g.Now(), Attempts(Tree(from), Tree(to), side);
    var snapshot := |g.nodes|;
    grew := false;
    step := Step(s, 0, 0);
    var ni := 0;
    while ni < snapshot
      invariant 0 <= ni <= snapshot <= |g.nodes| && g.Valid()
      invariant step == Iterate(f, s, ni) && g.Now() == step.graph
      invariant g.unions == old(g.unions) + step.joins
      invariant stats.matches == old(stats.matches) + step.matches && stats.applications == old(stats.applications) + step.joins
      invariant grew <==> step.joins > 0
    {
      var applied;
      ghost var last;
      applied, last := ApplyAt(g, from, to, side, ni, stats);
      AttemptStep(s, Tree(from), Tree(to), side, ni, step);
      step := Then(step, last);
      grew := grew || applied;
      ni := ni + 1;
    }
  }

  /** Tries one rule in each of its directions. */
  method SweepRule(g: EGraph, rule: Rule, stats: Stats) returns (grew: bool, ghost step: Step)
    requires g.Valid() && WellFormedRule(rule)
    modifies g, stats`matches, stats`applications
    ensures g.Valid() && step == SweptRule(old(g.Now()), rule)
    ensures g.Now() == step.graph && g.unions == old(g.unions) + step.joins
    ensures stats.matches == old(stats.matches) + step.matches && stats.applications == old(stats.applications) + step.joins
    ensures grew <==> step.joins > 0
  {
    grew, step := SweepDirection(g, rule.lhs, rule.rhs, rule.side, stats);
    if rule.bidirectional {
      var backward;
      ghost var last;
      backward, last := SweepDirection(g, rule.rhs, rule.lhs, rule.side, stats);
      step := Then(step, last);
      grew := grew || backward;
    }
  }

  /** Tries every rule, in order. */
  method SweepRules(g: EGraph, rules: seq<Rule>, stats: Stats) returns (grew: bool, ghost step: Step)
    requires g.Valid() && WellFormedRules(rules)
    modifies g, stats`matches, stats`applications
    ensures g.Valid() && step == SweptRules(old(g.Now()), rules)
    ensures g.Now() == step.graph && g.unions == old(g.unions) + step.joins
    ensures stats.matches == old(stats.matches) + step.matches && stats.applications == old(stats.applications) + step.joins
    ensures grew <==> step.joins > 0
  {
    ghost var s, f := g.Now(), RuleSweeps(rules);
    grew := false;
    step := Step(s, 0, 0);
    var ri := 0;
    while ri < |rules|
      invariant 0 <= ri <= |rules| && g.Valid()
      invariant step == Iterate(f, s, ri) && g.Now() == step.graph
      invariant g.unions == old(g.unions) + step.joins
      invariant stats.matches == old(stats.matches) + step.matches && stats.applications == old(stats.applications) + step.joins
      invariant grew <==> step.joins > 0
    {
      assert WellFormedRule(rules[ri]);
      var some;
      ghost var last;
      some, last := SweepRule(g, rules[ri], stats);
      RuleStep(s, rules, ri, step);
      step := Then(step, last);
      grew := grew || some;
      ri := ri + 1;
    }
  }

  // ----- one iteration -----

  /** `g` is the congruence closure of `s`. */
  ghost predicate ClosureOf(s: Graph, g: Graph) {
    g.nodes == s.nodes && IsClosed(g) && Coarser(s.rt, g.rt) && Entailed(s.nodes, s.rt, g.rt)
  }

  /** A sweep, then a rebuild. */
  ghost predicate Iterated(rules: seq<Rule>, s: Graph, g: Graph) {
    ClosureOf(SweptRules(s, rules).graph, g)
  }

  ghost predicate Grew(rules: seq<Rule>, s: Graph) {
    SweptRules(s, rules).joins > 0
  }

  method SweepAndRebuild(g: EGraph, rules: seq<Rule>, stats: Stats, ghost s: Graph) returns (grew: bool)
    requires g.Valid() && WellFormedRules(rules) && g.Now() == s
    modifies g, stats`matches, stats`applications
    ensures g.Valid() && Iterated(rules, s, g.Now())
    ensures grew <==> Grew(rules, s)
    ensures stats.matches == old(stats.matches) + SweptRules(s, rules).matches
    ensures stats.applications == old(stats.applications) + SweptRules(s, rules).joins
    ensures g.unions >= old(g.unions) + SweptRules(s, rules).joins
  {
    ghost var step;
    grew, step := SweepRules(g, rules, stats);
    g.Rebuild();
  }

  /** What a sweep and its rebuild keep: e-nodes and identifications, soundness in every model, and
      that no e-node stands in the table twice. */
  lemma IterationKeeps(rules: seq<Rule>, s: Graph, g: Graph)
    requires WellFormedRules(rules) && Iterated(rules, s, g)
    ensures Kept(s, g)
    ensures AllSound(rules, s.nodes, s.rt) ==> AllSound(rules, g.nodes, g.rt)
    ensures HashConsed(s.nodes) ==> HashConsed(g.nodes)
  {
    var mid := SweptRules(s, rules).graph;
    SweepKept(s, rules, |rules|);
    KeptTransitive(s, mid, g);
    if AllSound(rules, s.nodes, s.rt) {
      SweepSound(s, rules);
      forall R: TermRel | Models(R, rules) ensures Sound(R, g.nodes, g.rt) {
        EntailedSound(R, mid.nodes, mid.rt, g.rt);
      }
    }
    if HashConsed(s.nodes) {
      SweepHashConsed(s, rules);
    }
  }

  /** An iteration that joined nothing on a closed e-graph: the rules are satisfied at every e-node that
      was there before, so they are satisfied exactly if they are at the new ones.  New ones are only
      left behind by instances that fail for an unbound variable. */
  lemma IdleIteration(rules: seq<Rule>, s: Graph, g: Graph)
    requires WellFormedRules(rules) && Iterated(rules, s, g) && !Grew(rules, s) && IsClosed(s)
    ensures g == SweptRules(s, rules).graph && GrownFrom(s, g)
    ensures RulesSatisfiedBefore(g, rules, |s.nodes|)
    ensures |g.nodes| == |s.nodes| ==> RulesSatisfied(g, rules)
    ensures AllCovered(rules) ==> g == s
  {
    SweepIdle(s, rules);
    SweepClosed(s, rules);
    ClosedIsFixed(g.nodes, SweptRules(s, rules).graph.rt, g.rt);
  }

  // ----- the run -----

  /** The e-graphs at the ends of the iterations. */
  ghost predicate Trace(rules: seq<Rule>, tr: seq<Graph>) {
    tr != [] && forall k :: 0 <= k < |tr| - 1 ==> Iterated(rules, tr[k], tr[k + 1])
  }

  ghost predicate AllGrew(rules: seq<Rule>, tr: seq<Graph>) {
    forall k :: 0 <= k < |tr| - 1 ==> Grew(rules, tr[k])
  }

  ghost function Last(tr: seq<Graph>): Graph
    requires tr != []
  {
    tr[|tr| - 1]
  }

  /** Some budget was exceeded when iteration `k` ended in `g`. */
  ghost predicate OverBudget(budget: Budget, g: Graph, k: nat) {
    |g.nodes| > budget.maxNodes || NumRoots(g.rt) > budget.maxClasses || budget.late(k)
  }

  /** The reason recorded when a budget stops saturation is the first budget that was exceeded. */
  ghost function BudgetReason(budget: Budget, g: Graph, k: nat): string {
    if |g.nodes| > budget.maxNodes then "nodes"
    else if NumRoots(g.rt) > budget.maxClasses then "classes"
    else if budget.late(k) then "time"
    else "iterations"
  }

  /** How a run ended: without trying anything; with an idle iteration within the budgets, which is
      the only other way to count as saturated; over a budget; or out of iterations. */
  ghost predicate Ended(rules: seq<Rule>, budget: Budget, tr: seq<Graph>, before: nat, saturated: bool) {
    if |tr| <= 1 then saturated && budget.maxIterations <= 0
    else
      && |tr| - 1 <= budget.maxIterations && AllGrew(rules, tr[..|tr| - 1])
      && (saturated <==> !OverBudget(budget, Last(tr), before + |tr| - 1) && !Grew(rules, tr[|tr| - 2]))
      && (!saturated && !OverBudget(budget, Last(tr), before + |tr| - 1) ==> |tr| - 1 == budget.maxIterations)
  }

  lemma EndedNow(rules: seq<Rule>, budget: Budget, tr: seq<Graph>, before: nat, g: Graph, saturated: bool)
    requires 0 < |tr| <= budget.maxIterations && AllGrew(rules, tr)
    requires saturated <==> !OverBudget(budget, g, before + |tr|) && !Grew(rules, Last(tr))
    requires !saturated && !OverBudget(budget, g, before + |tr|) ==> |tr| == budget.maxIterations
    ensures Ended(rules, budget, tr + [g], before, saturated)
  {
    assert (tr + [g])[..|tr|] == tr;
  }

  // ----- what a run adds to the report -----

  /** The matches found by the sweeps of a run. */
  ghost function MatchesOf(rules: seq<Rule>, tr: seq<Graph>): nat {
    if |tr| <= 1 then 0 else MatchesOf(rules, tr[..|tr| - 1]) + SweptRules(tr[|tr| - 2], rules).matches
  }

  /** The classes joined by them. */
  ghost function JoinsOf(rules: seq<Rule>, tr: seq<Graph>): nat {
    if |tr| <= 1 then 0 else JoinsOf(rules, tr[..|tr| - 1]) + SweptRules(tr[|tr| - 2], rules).joins
  }

  /** The report after a run: what its sweeps did, and, unless it saturated, that and why it did not. */
  ghost function AfterRun(r: Report, rules: seq<Rule>, budget: Budget, tr: seq<Graph>, ended: bool): Report
    requires tr != []
  {
    r.(iterations := r.iterations + |tr| - 1, matches := r.matches + MatchesOf(rules, tr),
       applications := r.applications + JoinsOf(rules, tr), saturated := r.saturated && ended,
       budgetHit := if ended then r.budgetHit else BudgetReason(budget, Last(tr), r.iterations + |tr| - 1))
  }

  ghost function AfterIteration(r: Report, rules: seq<Rule>, budget: Budget, s: Graph, now: Graph, within: bool): Report {
    var k := r.iterations + 1;
    r.(iterations := k, matches := r.matches + SweptRules(s, rules).matches,
       applications := r.applications + SweptRules(s, rules).joins, saturated := r.saturated && within,
       budgetHit := if within then r.budgetHit else BudgetReason(budget, now, k))
  }

  lemma OneMoreIteration(r: Report, rules: seq<Rule>, budget: Budget, tr: seq<Graph>, now: Graph, within: bool)
    requires tr != []
    ensures AfterIteration(AfterRun(r, rules, budget, tr, true), rules, budget, Last(tr), now, within)
         == AfterRun(r, rules, budget, tr + [now], within)
    ensures JoinsOf(rules, tr + [now]) == JoinsOf(rules, tr) + SweptRules(Last(tr), rules).joins
  {
    assert (tr + [now])[..|tr|] == tr;
  }

  lemma TraceGrows(rules: seq<Rule>, tr: seq<Graph>, g: Graph)
    requires Trace(rules, tr) && Iterated(rules, Last(tr), g)
    ensures Trace(rules, tr + [g])
  {
    forall k | 0 <= k < |tr| ensures Iterated(rules, (tr + [g])[k], (tr + [g])[k + 1]) {
      assert k < |tr| - 1 ==> Iterated(rules, tr[k], tr[k + 1]);
    }
  }

  lemma AllGrewGrows(rules: seq<Rule>, tr: seq<Graph>, g: Graph)
    requires tr != [] && AllGrew(rules, tr) && Grew(rules, Last(tr))
    ensures AllGrew(rules, tr + [g])
  {
  }

  lemma TraceInit(rules: seq<Rule>, tr: seq<Graph>)
    requires WellFormedRules(rules) && Trace(rules, tr) && |tr| > 1
    ensures Trace(rules, tr[..|tr| - 1]) && Iterated(rules, Last(tr[..|tr| - 1]), Last(tr))
  {
    var init := tr[..|tr| - 1];
    forall k | 0 <= k < |init| - 1 ensures Iterated(rules, init[k], init[k + 1]) {
      assert Iterated(rules, tr[k], tr[k + 1]);
    }
  }

  /** What a whole trace keeps. */
  lemma {:induction false} TraceKeeps(rules: seq<Rule>, tr: seq<Graph>)
    requires WellFormedRules(rules) && Trace(rules, tr)
    ensures Kept(tr[0], Last(tr))
    ensures AllSound(rules, tr[0].nodes, tr[0].rt) ==> AllSound(rules, Last(tr).nodes, Last(tr).rt)
    ensures HashConsed(tr[0].nodes) ==> HashConsed(Last(tr).nodes)
    ensures IsClosed(tr[0]) ==> IsClosed(Last(tr))
    decreases |tr|
  {
    if |tr| > 1 {
      var init := tr[..|tr| - 1];
      TraceInit(rules, tr);
      TraceKeeps(rules, init);
      IterationKeeps(rules, Last(init), Last(tr));
      KeptTransitive(tr[0], Last(init), Last(tr));
    }
  }

  /** Every rule is satisfied at the e-nodes from `n` on. */
  ghost predicate RulesSatisfiedFrom(s: Graph, rules: seq<Rule>, n: nat)
    requires WellFormedRules(rules)
  {
    forall k, i: nat :: 0 <= k < |rules| && n <= i < |s.nodes| ==>
      && WellFormedRule(rules[k])
      && Satisfied(s, Tree(rules[k].lhs), Tree(rules[k].rhs), rules[k].side, i)
      && (rules[k].bidirectional ==> Satisfied(s, Tree(rules[k].rhs), Tree(rules[k].lhs), rules[k].side, i))
  }

  lemma SatisfiedSplit(s: Graph, rules: seq<Rule>, n: nat)
    requires WellFormedRules(rules) && n <= |s.nodes| && RulesSatisfiedBefore(s, rules, n)
    ensures RulesSatisfied(s, rules) <==> RulesSatisfiedFrom(s, rules, n)
  {
    if RulesSatisfied(s, rules) {
      forall k, i: nat | 0 <= k < |rules| && n <= i < |s.nodes|
        ensures WellFormedRule(rules[k])
        ensures Satisfied(s, Tree(rules[k].lhs), Tree(rules[k].rhs), rules[k].side, i)
        ensures rules[k].bidirectional ==> Satisfied(s, Tree(rules[k].rhs), Tree(rules[k].lhs), rules[k].side, i)
      {
        assert RuleSatisfiedBefore(s, rules[k], |s.nodes|);
      }
    }
    if RulesSatisfiedFrom(s, rules, n) {
      forall k | 0 <= k < |rules| ensures WellFormedRule(rules[k]) && RuleSatisfiedBefore(s, rules[k], |s.nodes|) {
        assert RuleSatisfiedBefore(s, rules[k], n);
      }
    }
  }

  /** An e-graph `g` that an idle iteration on a closed e-graph `s` ends in: the rules are satisfied if
      and only if they are at the e-nodes the iteration left behind. */
  ghost predicate AtRest(rules: seq<Rule>, s: Graph, g: Graph)
    requires WellFormedRules(rules)
  {
    && GrownFrom(s, g) && IsClosed(g)
    && (RulesSatisfied(g, rules) <==> RulesSatisfiedFrom(g, rules, |s.nodes|))
    && (|g.nodes| == |s.nodes| || AllCovered(rules) ==> g == s && RulesSatisfied(g, rules))
  }

  lemma IdleRests(rules: seq<Rule>, s: Graph, g: Graph)
    requires WellFormedRules(rules) && Iterated(rules, s, g) && !Grew(rules, s) && IsClosed(s)
    ensures AtRest(rules, s, g)
  {
    IdleIteration(rules, s, g);
    SatisfiedSplit(g, rules, |s.nodes|);
  }

  /** What it means that a run from a closed e-graph counts as saturated.  Without a positive iteration
      budget nothing was tried.  Otherwise the last sweep joined nothing, and the rules are satisfied
      if and only if they are at the e-nodes that it left behind: when it left none, and so whenever
      the rules only use the variables they match, all of them are. */
  lemma SaturatedMeans(rules: seq<Rule>, budget: Budget, tr: seq<Graph>, before: nat)
    requires WellFormedRules(rules) && Trace(rules, tr) && IsClosed(tr[0]) && Ended(rules, budget, tr, before, true)
    ensures |tr| == 1 <==> budget.maxIterations <= 0
    ensures |tr| > 1 ==> AtRest(rules, tr[|tr| - 2], Last(tr))
  {
    if |tr| > 1 {
      TraceInit(rules, tr);
      TraceKeeps(rules, tr[..|tr| - 1]);
      IdleRests(rules, tr[|tr| - 2], Last(tr));
    }
  }

  /** A run so far: its e-graphs, and the report it started with. */
  datatype Course = Course(tr: seq<Graph>, start: Report)

  /** How the loop stands: whether it goes on, and how it ended if not. */
  ghost predicate Iterating(rules: seq<Rule>, budget: Budget, c: Course, r: Report, goesOn: bool, ended: bool) {
    && Trace(rules, c.tr) && r == AfterRun(c.start, rules, budget, c.tr, ended)
    && (if goesOn then AllGrew(rules, c.tr) && ended && (|c.tr| > 1 ==> |c.tr| <= budget.maxIterations)
        else Ended(rules, budget, c.tr, c.start.iterations, ended))
  }

  lemma NothingTried(rules: seq<Rule>, budget: Budget, tr: seq<Graph>, r0: Report, r: Report, ended: bool)
    requires Iterating(rules, budget, Course(tr, r0), r, true, ended) && |tr| > budget.maxIterations
    ensures Ended(rules, budget, tr, r0.iterations, ended)
  {
  }

  lemma IterationEnds(rules: seq<Rule>, budget: Budget, c: Course, r: Report, now: Graph, grew: bool, last: bool, ended: bool)
    requires c.tr != [] && |c.tr| <= budget.maxIterations && (last <==> |c.tr| == budget.maxIterations)
    requires Iterating(rules, budget, c, r, true, true) && Iterated(rules, Last(c.tr), now) && (grew <==> Grew(rules, Last(c.tr)))
    requires ended <==> !OverBudget(budget, now, c.start.iterations + |c.tr|) && (!grew || !last)
    ensures var next := AfterIteration(r, rules, budget, Last(c.tr), now, ended);
            Iterating(rules, budget, Course(c.tr + [now], c.start), next, grew && ended, ended)
    ensures JoinsOf(rules, c.tr + [now]) == JoinsOf(rules, c.tr) + SweptRules(Last(c.tr), rules).joins
  {
    TraceGrows(rules, c.tr, now);
    OneMoreIteration(c.start, rules, budget, c.tr, now, ended);
    if grew && ended {
      AllGrewGrows(rules, c.tr, now);
    } else {
      EndedNow(rules, budget, c.tr, c.start.iterations, now, ended);
    }
  }

  /** The checks after an iteration: the first budget that was exceeded is recorded, and so is
      running out of iterations. */
  method CheckBudgets(g: EGraph, budget: Budget, stats: Stats, grew: bool, last: bool, ghost now: Graph) returns (within: bool)
    requires g.Valid() && g.Now() == now
    modifies g`parent, stats`saturated, stats`budgetHit
    ensures g.Valid() && g.Now() == now
    ensures within <==> !OverBudget(budget, now, stats.iterations) && (!grew || !last)
    ensures stats.saturated == (old(stats.saturated) && within)
    ensures stats.budgetHit == if within then old(stats.budgetHit) else BudgetReason(budget, now, stats.iterations)
  {
    if |g.nodes| > budget.maxNodes {
      stats.saturated, stats.budgetHit := false, "nodes";
      return false;
    }
    var classes := g.ClassCount();
    if classes > budget.maxClasses {
      stats.saturated, stats.budgetHit := false, "classes";
      return false;
    }
    if budget.late(stats.iterations) {
      stats.saturated, stats.budgetHit := false, "time";
      return false;
    }
    if grew && last {
      stats.saturated, stats.budgetHit := false, "iterations";
      return false;
    }
    return true;
  }

  /** One iteration and the checks that follow it. */
  method Iteration(g: EGraph, rules: seq<Rule>, budget: Budget, stats: Stats, last: bool, ghost s: Graph)
    returns (grew: bool, within: bool, ghost now: Graph)
    requires g.Valid() && WellFormedRules(rules) && g.Now() == s
    modifies g, stats`iterations, stats`matches, stats`applications, stats`saturated, stats`budgetHit
    ensures g.Valid() && g.Now() == now && Iterated(rules, s, now)
    ensures grew <==> Grew(rules, s)
    ensures within <==> !OverBudget(budget, now, stats.iterations) && (!grew || !last)
    ensures stats.Now() == AfterIteration(old(stats.Now()), rules, budget, s, now, within)
    ensures g.unions >= old(g.unions) + SweptRules(s, rules).joins
  {
    stats.iterations := stats.iterations + 1;
    grew := SweepAndRebuild(g, rules, stats, s);
    now := g.Now();
    within := CheckBudgets(g, budget, stats, grew, last, now);
  }

  /** One turn of the loop, with the e-graphs and the report so far. */
  method Advance(g: EGraph, rules: seq<Rule>, budget: Budget, stats: Stats, last: bool, ghost c: Course, ghost r: Report)
    returns (goesOn: bool, ghost ended: bool, ghost now: Graph)
    requires g.Valid() && WellFormedRules(rules) && c.tr != [] && g.Now() == Last(c.tr) && r == stats.Now()
    requires |c.tr| <= budget.maxIterations && (last <==> |c.tr| == budget.maxIterations)
    requires Iterating(rules, budget, c, r, true, true)
    modifies g, stats`iterations, stats`matches, stats`applications, stats`saturated, stats`budgetHit
    ensures g.Valid() && now == g.Now() && (goesOn ==> ended)
    ensures Iterating(rules, budget, Course(c.tr + [now], c.start), stats.Now(), goesOn, ended)
    ensures g.unions - old(g.unions) >= JoinsOf(rules, c.tr + [now]) - JoinsOf(rules, c.tr)
  {
    var grew, within;
    grew, within, now := Iteration(g, rules, budget, stats, last, Last(c.tr));
    assert stats.iterations == c.start.iterations + |c.tr|;
    assert Iterated(rules, Last(c.tr), now);
    assert grew <==> Grew(rules, Last(c.tr));
    assert within <==> !OverBudget(budget, now, c.start.iterations + |c.tr|) && (!grew || !last);
    IterationEnds(rules, budget, c, r, now, grew, last, within);
    goesOn, ended := grew && within, within;
  }

  /** Runs sweeps and rebuilds until nothing changes or a budget is hit.  The trace of the run is
      returned; what it keeps is stated by `TraceKeeps`, what its end means by `SaturatedMeans`.
      `ended` is what this run adds to the flag that all instructions of a module share. */
  method Saturate(g: EGraph, rules: seq<Rule>, budget: Budget, stats: Stats) returns (ghost tr: seq<Graph>, ghost ended: bool)
    requires g.Valid() && WellFormedRules(rules)
    modifies g, stats`iterations, stats`matches, stats`applications, stats`saturated, stats`budgetHit
    ensures g.Valid() && Trace(rules, tr) && tr[0] == old(g.Now()) && Last(tr) == g.Now()
    ensures Ended(rules, budget, tr, old(stats.iterations), ended)
    ensures stats.Now() == AfterRun(old(stats.Now()), rules, budget, tr, ended)
    ensures g.unions >= old(g.unions) + JoinsOf(rules, tr)
  {
    tr, ended := [g.Now()], true;
    ghost var r0, unions := stats.Now(), g.unions;
    var goesOn, iter := true, 0;
    while iter < budget.maxIterations && goesOn
      invariant 0 <= iter == |tr| - 1 && tr[0] == old(g.Now())
      invariant g.Valid() && Last(tr) == g.Now() && g.unions >= unions + JoinsOf(rules, tr)
      invariant Iterating(rules, budget, Course(tr, r0), stats.Now(), goesOn, ended) && (goesOn ==> ended)
    {
      iter := iter + 1;
      ghost var now;
      goesOn, ended, now := Advance(g, rules, budget, stats, iter == budget.maxIterations, Course(tr, r0), stats.Now());
      tr := tr + [now];
    }
    if goesOn {
      NothingTried(rules, budget, tr, r0, stats.Now(), ended);
    }
  }
}
