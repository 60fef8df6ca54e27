/** What one sweep of the saturation loop does to an e-graph, as functions on e-graph values, and what
such a sweep keeps. */
module Sweeps {
  import opened Basics
  import opened Terms
  import opened UnionFind
  import opened EGraphs
  import opened Matching
  import opened Soundness

  // ----- the sweep -----

  /** An e-graph with the matches found and the classes joined on the way to it. */
  datatype Step = Step(graph: Graph, matches: nat, joins: nat)

  ghost function Found(s: Graph, from: PTerm, n: nat): Option<seq<Binding>>
    requires n < |s.nodes|
  {
    FirstMatch(s.nodes, s.rt, from, n, [])
  }

  /** One direction of a rule, tried at one e-node. */
  ghost function Applied(s: Graph, from: PTerm, to: PTerm, side: SideCondition, n: nat): (r: Step)
    requires n < |s.nodes| && Slim(to)
    ensures s.nodes <= r.graph.nodes
  {
    var found := Found(s, from, n);
    if found.None? then Step(s, 0, 0)
    else if !SideHolds(side, found.value) then Step(s, 1, 0)
    else
      FirstMatchSound(s.nodes, s.rt, from, n, []);
      Concluded(s, to, found.value, n)
  }

  /** Where a match was accepted: the instance of the other side is built and joined with the e-node. */
  ghost function Concluded(s: Graph, to: PTerm, items: seq<Binding>, n: nat): (r: Step)
    requires n < |s.nodes| && Slim(to) && BindsClasses(items, s.rt)
    ensures s.nodes <= r.graph.nodes
  {
    var r := Built(s, to, items);
    if r.made.None? then Step(r.graph, 1, 0) else Step(Joined(r.graph, n, r.made.value), 1, Differ(r.graph, n, r.made.value))
  }

  ghost function Joined(s: Graph, a: nat, b: nat): (g: Graph)
    requires a < |s.nodes| && b < |s.nodes|
    ensures g.nodes == s.nodes
  {
    Snapshot(s.nodes, Merge(s.rt, a, b))
  }

  ghost function Differ(s: Graph, a: nat, b: nat): nat
    requires a < |s.nodes| && b < |s.nodes|
  {
    if s.rt[a] == s.rt[b] then 0 else 1
  }

  ghost function Then(before: Step, last: Step): Step {
    Step(last.graph, before.matches + last.matches, before.joins + last.joins)
  }

  /** Steps one after the other, the k-th told its number. */
  type Stepper = (Graph, nat) -> Step

  ghost function Iterate(f: Stepper, s: Graph, n: nat): Step {
    if n == 0 then Step(s, 0, 0)
    else
      var before := Iterate(f, s, n - 1);
      Then(before, f(before.graph, n - 1))
  }

  lemma IterateStep(f: Stepper, s: Graph, n: nat)
    ensures Iterate(f, s, n + 1) == Then(Iterate(f, s, n), f(Iterate(f, s, n).graph, n))
  {
  }

  /** Trying one direction of a rule, at one e-node after the other. */
  ghost function Attempts(from: PTerm, to: PTerm, side: SideCondition): Stepper {
    (s: Graph, n: nat) => if n < |s.nodes| && Slim(to) then Applied(s, from, to, side, n) else Step(s, 0, 0)
  }

  lemma AttemptStep(s: Graph, from: PTerm, to: PTerm, side: SideCondition, n: nat, before: Step)
    requires before == Iterate(Attempts(from, to, side), s, n) && n < |before.graph.nodes| && Slim(to)
    ensures Then(before, Applied(before.graph, from, to, side, n)) == Iterate(Attempts(from, to, side), s, n + 1)
  {
    IterateStep(Attempts(from, to, side), s, n);
  }

  /** One direction of a rule, tried at every e-node there when it starts. */
  ghost function SweptDirection(s: Graph, from: PTerm, to: PTerm, side: SideCondition): Step {
    Iterate(Attempts(from, to, side), s, |s.nodes|)
  }

  ghost function SweptRule(s: Graph, r: Rule): Step
    requires WellFormedRule(r)
  {
    var forward := SweptDirection(s, Tree(r.lhs), Tree(r.rhs), r.side);
    if !r.bidirectional then forward
    else
      Then(forward, SweptDirection(forward.graph, Tree(r.rhs), Tree(r.lhs), r.side))
  }

  ghost function RuleSweeps(rules: seq<Rule>): Stepper {
    (s: Graph, k: nat) => if k < |rules| && WellFormedRule(rules[k]) then SweptRule(s, rules[k]) else Step(s, 0, 0)
  }

  lemma RuleStep(s: Graph, rules: seq<Rule>, k: nat, before: Step)
    requires WellFormedRules(rules) && k < |rules| && before == Iterate(RuleSweeps(rules), s, k)
    ensures Then(before, SweptRule(before.graph, rules[k])) == Iterate(RuleSweeps(rules), s, k + 1)
  {
    IterateStep(RuleSweeps(rules), s, k);
  }

  /** Every rule, in order. */
  ghost function SweptRules(s: Graph, rules: seq<Rule>): Step {
    Iterate(RuleSweeps(rules), s, |rules|)
  }

  // ----- a sweep forgets nothing -----

  /** Later e-graphs keep every e-node and every identification. */
  ghost predicate Kept(s: Graph, g: Graph) {
    && s.nodes <= g.nodes
    && forall x, y :: 0 <= x < |s.nodes| && 0 <= y < |s.nodes| && s.rt[x] == s.rt[y] ==> g.rt[x] == g.rt[y]
  }

  lemma KeptTransitive(s: Graph, g: Graph, h: Graph)
    requires Kept(s, g) && Kept(g, h)
    ensures Kept(s, h)
  {
  }

  lemma GrownKept(s: Graph, g: Graph)
    requires GrownFrom(s, g)
    ensures Kept(s, g)
  {
  }

  lemma JoinedKept(s: Graph, a: nat, b: nat)
    requires a < |s.nodes| && b < |s.nodes|
    ensures Kept(s, Joined(s, a, b))
  {
    MergeKeepsTogether(s.rt, a, b);
  }

  lemma AppliedKept(s: Graph, from: PTerm, to: PTerm, side: SideCondition, n: nat)
    requires n < |s.nodes| && Slim(to)
    ensures Kept(s, Applied(s, from, to, side, n).graph)
  {
    var found := Found(s, from, n);
    if found.Some? && SideHolds(side, found.value) {
      FirstMatchSound(s.nodes, s.rt, from, n, []);
      var r := Built(s, to, found.value);
      GrownKept(s, r.graph);
      if r.made.Some? {
        JoinedKept(r.graph, n, r.made.value);
        KeptTransitive(s, r.graph, Joined(r.graph, n, r.made.value));
      }
    }
  }

  ghost predicate KeepsAll(f: Stepper) {
    forall s: Graph, n: nat :: Kept(s, f(s, n).graph)
  }

  lemma {:induction false} IterateKept(f: Stepper, s: Graph, n: nat)
    requires KeepsAll(f)
    ensures Kept(s, Iterate(f, s, n).graph)
  {
    if n > 0 {
      IterateKept(f, s, n - 1);
      KeptTransitive(s, Iterate(f, s, n - 1).graph, Iterate(f, s, n).graph);
    }
  }

  lemma DirectionKept(s: Graph, from: PTerm, to: PTerm, side: SideCondition)
    ensures Kept(s, SweptDirection(s, from, to, side).graph)
  {
    forall g: Graph, n: nat ensures Kept(g, Attempts(from, to, side)(g, n).graph) {
      if n < |g.nodes| && Slim(to) {
        AppliedKept(g, from, to, side, n);
      }
    }
    IterateKept(Attempts(from, to, side), s, |s.nodes|);
  }

  lemma RuleKept(s: Graph, r: Rule)
    requires WellFormedRule(r)
    ensures Kept(s, SweptRule(s, r).graph)
  {
    DirectionKept(s, Tree(r.lhs), Tree(r.rhs), r.side);
    if r.bidirectional {
      var forward := SweptDirection(s, Tree(r.lhs), Tree(r.rhs), r.side).graph;
      DirectionKept(forward, Tree(r.rhs), Tree(r.lhs), r.side);
      KeptTransitive(s, forward, SweptRule(s, r).graph);
    }
  }

  lemma SweepKept(s: Graph, rules: seq<Rule>, n: nat)
    ensures Kept(s, Iterate(RuleSweeps(rules), s, n).graph)
  {
    forall g: Graph, k: nat ensures Kept(g, RuleSweeps(rules)(g, k).graph) {
      if k < |rules| && WellFormedRule(rules[k]) {
        RuleKept(g, rules[k]);
      }
    }
    IterateKept(RuleSweeps(rules), s, n);
  }

  // ----- invariants of a sweep -----

  type Property = Graph -> bool

  ghost predicate Inductive(P: Property, f: Stepper) {
    forall s: Graph, n: nat :: P(s) ==> P(f(s, n).graph)
  }

  lemma {:induction false} IterateInvariant(P: Property, f: Stepper, s: Graph, n: nat)
    requires Inductive(P, f) && P(s)
    ensures P(Iterate(f, s, n).graph)
  {
    if n > 0 {
      IterateInvariant(P, f, s, n - 1);
    }
  }

  /** A property of e-graphs that one attempt at one e-node cannot break. */
  ghost predicate Unbroken(P: Property, from: PTerm, to: PTerm, side: SideCondition) {
    forall s: Graph, n: nat :: n < |s.nodes| && Slim(to) && P(s) ==> P(Applied(s, from, to, side, n).graph)
  }

  lemma UnbrokenInductive(P: Property, from: PTerm, to: PTerm, side: SideCondition)
    requires Unbroken(P, from, to, side)
    ensures Inductive(P, Attempts(from, to, side))
  {
  }

  ghost predicate UnbrokenByRule(P: Property, r: Rule)
    requires WellFormedRule(r)
  {
    && Unbroken(P, Tree(r.lhs), Tree(r.rhs), r.side)
    && (r.bidirectional ==> Unbroken(P, Tree(r.rhs), Tree(r.lhs), r.side))
  }

  lemma RuleInvariant(P: Property, s: Graph, r: Rule)
    requires WellFormedRule(r) && UnbrokenByRule(P, r) && P(s)
    ensures P(SweptRule(s, r).graph)
  {
    UnbrokenInductive(P, Tree(r.lhs), Tree(r.rhs), r.side);
    IterateInvariant(P, Attempts(Tree(r.lhs), Tree(r.rhs), r.side), s, |s.nodes|);
    if r.bidirectional {
      var forward := SweptDirection(s, Tree(r.lhs), Tree(r.rhs), r.side).graph;
      UnbrokenInductive(P, Tree(r.rhs), Tree(r.lhs), r.side);
      IterateInvariant(P, Attempts(Tree(r.rhs), Tree(r.lhs), r.side), forward, |forward.nodes|);
    }
  }

  /** What no rule of a ruleset can break, no sweep breaks. */
  lemma SweepInvariant(P: Property, s: Graph, rules: seq<Rule>)
    requires P(s) && forall k :: 0 <= k < |rules| ==> WellFormedRule(rules[k]) && UnbrokenByRule(P, rules[k])
    ensures P(SweptRules(s, rules).graph)
  {
    forall g: Graph, k: nat | P(g) ensures P(RuleSweeps(rules)(g, k).graph) {
      if k < |rules| {
        RuleInvariant(P, g, rules[k]);
      }
    }
    IterateInvariant(P, RuleSweeps(rules), s, |rules|);
  }

  // ----- soundness -----

  ghost function SoundFor(R: TermRel): Graph -> bool {
    (s: Graph) => Sound(R, s.nodes, s.rt)
  }

  /** One attempt is sound in every model that licenses this direction, before any rebuild. */
  lemma AppliedSound(R: TermRel, s: Graph, from: PTerm, to: PTerm, side: SideCondition, n: nat)
    requires n < |s.nodes| && Slim(to) && OpsNamed(from) && OpsNamed(to)
    requires Congruence(R) && Licenses(R, from, to, side) && Sound(R, s.nodes, s.rt)
    ensures SoundFor(R)(Applied(s, from, to, side, n).graph)
  {
    var found := Found(s, from, n);
    if found.Some? && SideHolds(side, found.value) {
      FirstMatchSound(s.nodes, s.rt, from, n, []);
      var r := Built(s, to, found.value);
      GrownSound(R, s.nodes, s.rt, r.graph.nodes, r.graph.rt);
      if r.made.Some? {
        BuiltMatches(s, to, found.value);
        MatchesGrow(s.nodes, s.rt, r.graph.nodes, r.graph.rt, from, n, found.value, found.value);
        SideAdmits(side, found.value, from);
        RuleStepSound(R, r.graph.nodes, r.graph.rt, from, to, side, found.value, n, r.made.value);
      }
    }
  }

  lemma DirectionUnbroken(R: TermRel, from: PTerm, to: PTerm, side: SideCondition)
    requires OpsNamed(from) && OpsNamed(to) && Congruence(R) && Licenses(R, from, to, side)
    ensures Unbroken(SoundFor(R), from, to, side)
  {
    forall s: Graph, n: nat | n < |s.nodes| && Slim(to) && SoundFor(R)(s)
      ensures SoundFor(R)(Applied(s, from, to, side, n).graph)
    {
      AppliedSound(R, s, from, to, side, n);
    }
  }

  lemma SweepSoundFor(R: TermRel, s: Graph, rules: seq<Rule>)
    requires WellFormedRules(rules) && Models(R, rules) && Sound(R, s.nodes, s.rt)
    ensures SoundFor(R)(SweptRules(s, rules).graph)
  {
    forall k | 0 <= k < |rules| ensures WellFormedRule(rules[k]) && UnbrokenByRule(SoundFor(R), rules[k]) {
      assert WellFormedRule(rules[k]) && LicensesRule(R, rules[k]);
      DirectionUnbroken(R, Tree(rules[k].lhs), Tree(rules[k].rhs), rules[k].side);
      if rules[k].bidirectional {
        DirectionUnbroken(R, Tree(rules[k].rhs), Tree(rules[k].lhs), rules[k].side);
      }
    }
    assert SoundFor(R)(s);
    SweepInvariant(SoundFor(R), s, rules);
  }

  /** A sweep is sound in every model of the ruleset. */
  lemma SweepSound(s: Graph, rules: seq<Rule>)
    requires WellFormedRules(rules) && AllSound(rules, s.nodes, s.rt)
    ensures AllSound(rules, SweptRules(s, rules).graph.nodes, SweptRules(s, rules).graph.rt)
  {
    var g := SweptRules(s, rules).graph;
    forall R: TermRel | Models(R, rules) ensures Sound(R, g.nodes, g.rt) {
      SweepSoundFor(R, s, rules);
    }
  }

  // ----- hash-consing -----

  ghost function IsHashConsed(): Graph -> bool {
    (s: Graph) => HashConsed(s.nodes)
  }

  lemma AppliedHashConsed(s: Graph, from: PTerm, to: PTerm, side: SideCondition, n: nat)
    requires n < |s.nodes| && Slim(to) && HashConsed(s.nodes)
    ensures IsHashConsed()(Applied(s, from, to, side, n).graph)
  {
    var found := Found(s, from, n);
    if found.Some? && SideHolds(side, found.value) {
      FirstMatchSound(s.nodes, s.rt, from, n, []);
      BuiltHashConsed(s, to, found.value);
    }
  }

  /** No e-node ever stands in the table twice, also before the classes are rebuilt. */
  lemma SweepHashConsed(s: Graph, rules: seq<Rule>)
    requires WellFormedRules(rules) && HashConsed(s.nodes)
    ensures HashConsed(SweptRules(s, rules).graph.nodes)
  {
    var P := IsHashConsed();
    forall g: Graph, from, to, side, n: nat | n < |g.nodes| && Slim(to) && P(g) ensures P(Applied(g, from, to, side, n).graph) {
      AppliedHashConsed(g, from, to, side, n);
    }
    forall k | 0 <= k < |rules| ensures WellFormedRule(rules[k]) && UnbrokenByRule(P, rules[k]) {
    }
    assert P(s);
    SweepInvariant(P, s, rules);
    assert P(SweptRules(s, rules).graph);
  }

  // ----- when a rule fires, and what it then leaves behind -----

  /** One direction of a rule fires at an e-node: the matcher finds bindings, the side condition
      holds of them, and they cover the other side. */
  ghost predicate Fires(s: Graph, from: PTerm, to: PTerm, side: SideCondition, n: nat)
    requires n < |s.nodes|
  {
    var found := Found(s, from, n);
    found.Some? && SideHolds(side, found.value) && Bound(to, found.value)
  }

  /** Where the rule fires, the class of the e-node already holds the instance of the other side. */
  ghost predicate Satisfied(s: Graph, from: PTerm, to: PTerm, side: SideCondition, n: nat)
    requires n < |s.nodes|
  {
    Fires(s, from, to, side, n) ==> ClassMatches(s.nodes, s.rt, to, n, Found(s, from, n).value)
  }

  /** New e-nodes in classes of their own do not change what the matcher finds at the old ones. */
  lemma {:induction false} FirstMatchGrow(s: Graph, g: Graph, t: PTerm, n: nat, items: seq<Binding>)
    requires GrownFrom(s, g) && n < |s.nodes|
    ensures FirstMatch(g.nodes, g.rt, t, n, items) == FirstMatch(s.nodes, s.rt, t, n, items)
    decreases t, 0, 0
  {
    assert g.nodes[n] == s.nodes[n] && g.rt[n] == s.rt[n];
    if t.POp? && !s.nodes[n].isConst && s.nodes[n].opcode == t.op && |s.nodes[n].children| == |t.args| {
      MatchArgsGrow(s, g, t.args, s.nodes[n].children, items);
    }
  }

  lemma {:induction false} MatchArgsGrow(s: Graph, g: Graph, ts: seq<PTerm>, cs: seq<nat>, items: seq<Binding>)
    requires GrownFrom(s, g) && |ts| == |cs| && forall k :: 0 <= k < |cs| ==> cs[k] < |s.nodes|
    ensures MatchArgs(g.nodes, g.rt, ts, cs, items) == MatchArgs(s.nodes, s.rt, ts, cs, items)
    decreases ts, 0, 0
  {
    if ts != [] {
      FirstInClassGrow(s, g, ts[0], cs[0], 0, items);
      var b := FirstInClass(s.nodes, s.rt, ts[0], s.rt[cs[0]], 0, items);
      if b.Some? {
        MatchArgsGrow(s, g, ts[1..], cs[1..], b.value);
      }
    }
  }

  lemma {:induction false} FirstInClassGrow(s: Graph, g: Graph, t: PTerm, c: nat, j: nat, items: seq<Binding>)
    requires GrownFrom(s, g) && c < |s.nodes| && j <= |s.nodes|
    ensures FirstInClass(g.nodes, g.rt, t, s.rt[c], j, items) == FirstInClass(s.nodes, s.rt, t, s.rt[c], j, items)
    decreases t, 1, |s.nodes| - j
  {
    if j == |s.nodes| {
      NoneBeyond(s, g, t, c, j, items);
    } else {
      FirstMatchGrow(s, g, t, j, items);
      FirstInClassGrow(s, g, t, c, j + 1, items);
    }
  }

  lemma {:induction false} NoneBeyond(s: Graph, g: Graph, t: PTerm, c: nat, j: nat, items: seq<Binding>)
    requires GrownFrom(s, g) && c < |s.nodes| <= j <= |g.nodes|
    ensures FirstInClass(g.nodes, g.rt, t, s.rt[c], j, items) == None
    decreases |g.nodes| - j
  {
    if j < |g.nodes| {
      NoneBeyond(s, g, t, c, j + 1, items);
    }
  }

  lemma SatisfiedGrow(s: Graph, g: Graph, from: PTerm, to: PTerm, side: SideCondition, n: nat)
    requires GrownFrom(s, g) && n < |s.nodes| && Satisfied(s, from, to, side, n)
    ensures Satisfied(g, from, to, side, n)
  {
    FirstMatchGrow(s, g, from, n, []);
    if Fires(g, from, to, side, n) {
      var items := Found(s, from, n).value;
      ClassMatchesGrow(s.nodes, s.rt, g.nodes, g.rt, to, n, items, items);
    }
  }

  // ----- sweeps that join nothing -----

  /** The other side uses only variables of the matched side. */
  ghost predicate Covers(from: PTerm, to: PTerm) {
    VarNames(to) <= VarNames(from) && ConstNames(to) <= ConstNames(from)
  }

  ghost predicate AllCovered(rules: seq<Rule>)
    requires WellFormedRules(rules)
  {
    forall k :: 0 <= k < |rules| ==>
      && WellFormedRule(rules[k])
      && Covers(Tree(rules[k].lhs), Tree(rules[k].rhs))
      && (rules[k].bidirectional ==> Covers(Tree(rules[k].rhs), Tree(rules[k].lhs)))
  }

  lemma CoveredBound(s: Graph, from: PTerm, to: PTerm, n: nat)
    requires n < |s.nodes| && Covers(from, to) && Found(s, from, n).Some?
    ensures Bound(to, Found(s, from, n).value)
  {
    FirstMatchSound(s.nodes, s.rt, from, n, []);
    MatchBinds(s.nodes, s.rt, from, n, Found(s, from, n).value);
    NamesBound(to, Found(s, from, n).value);
  }

  /** An attempt that joins nothing at most leaves e-nodes of a failed instance behind, and nothing at
      all where the other side is covered; and it finds the rule satisfied. */
  lemma AppliedIdle(s: Graph, from: PTerm, to: PTerm, side: SideCondition, n: nat)
    requires n < |s.nodes| && Slim(to) && Applied(s, from, to, side, n).joins == 0
    ensures GrownFrom(s, Applied(s, from, to, side, n).graph)
    ensures Satisfied(Applied(s, from, to, side, n).graph, from, to, side, n)
    ensures Covers(from, to) ==> Applied(s, from, to, side, n).graph == s
  {
    var found := Found(s, from, n);
    if found.Some? && SideHolds(side, found.value) {
      FirstMatchSound(s.nodes, s.rt, from, n, []);
      BuiltWhenBound(s, to, found.value);
      var r := Built(s, to, found.value);
      if r.made.Some? {
        IdleInstance(s, to, found.value, n);
      } else {
        FirstMatchGrow(s, r.graph, from, n, []);
      }
      if Covers(from, to) {
        CoveredBound(s, from, to, n);
      }
    }
  }

  /** An instance that lies in the class of an old e-node was there before. */
  lemma IdleInstance(s: Graph, to: PTerm, items: seq<Binding>, n: nat)
    requires n < |s.nodes| && Slim(to) && BindsClasses(items, s.rt) && Built(s, to, items).made.Some?
    requires var r := Built(s, to, items); Differ(r.graph, n, r.made.value) == 0
    ensures Built(s, to, items).graph == s == Joined(s, n, Built(s, to, items).made.value)
    ensures ClassMatches(s.nodes, s.rt, to, n, items)
  {
    var r := Built(s, to, items);
    assert r.graph.rt[n] == s.rt[n] <= n;
    assert r.made.value < |s.nodes|;
    BuiltOld(s, to, items);
    BuiltMatches(s, to, items);
    MergeCount(s.rt, n, r.made.value);
  }

  lemma GrownTransitive(s: Graph, g: Graph, h: Graph)
    requires GrownFrom(s, g) && GrownFrom(g, h)
    ensures GrownFrom(s, h)
  {
  }

  /** The rule is satisfied at the e-nodes before `n`. */
  ghost predicate SatisfiedBefore(s: Graph, from: PTerm, to: PTerm, side: SideCondition, n: nat) {
    forall i: nat :: i < n && i < |s.nodes| ==> Satisfied(s, from, to, side, i)
  }

  lemma SatisfiedBeforeGrow(s: Graph, g: Graph, from: PTerm, to: PTerm, side: SideCondition, n: nat)
    requires GrownFrom(s, g) && n <= |s.nodes| && SatisfiedBefore(s, from, to, side, n)
    ensures SatisfiedBefore(g, from, to, side, n)
  {
    forall i: nat | i < n ensures Satisfied(g, from, to, side, i) {
      SatisfiedGrow(s, g, from, to, side, i);
    }
  }

  /** What step `k` establishes when it joins nothing, and what growth then keeps. */
  type Claims = (nat, Graph) -> bool

  ghost predicate IdleClaims(s: Graph, f: Stepper, C: Claims) {
    && (forall g: Graph, k: nat :: GrownFrom(s, g) && f(g, k).joins == 0 ==> GrownFrom(g, f(g, k).graph) && C(k, f(g, k).graph))
    && (forall g: Graph, h: Graph, k: nat :: GrownFrom(s, g) && GrownFrom(g, h) && C(k, g) ==> C(k, h))
  }

  /** After steps that all join nothing, all their claims hold. */
  lemma {:induction false} IterateIdle(s: Graph, f: Stepper, C: Claims, n: nat)
    requires IdleClaims(s, f, C) && Iterate(f, s, n).joins == 0
    ensures GrownFrom(s, Iterate(f, s, n).graph)
    ensures forall k: nat :: k < n ==> C(k, Iterate(f, s, n).graph)
  {
    if n > 0 {
      IterateIdle(s, f, C, n - 1);
      var before := Iterate(f, s, n - 1).graph;
      var after := f(before, n - 1).graph;
      GrownTransitive(s, before, after);
      forall k: nat | k < n - 1 ensures C(k, after) {
        assert C(k, before);
      }
    }
  }

  /** If idle steps leave the e-graph as it is, so do all of them together. */
  lemma {:induction false} IterateStill(s: Graph, f: Stepper, n: nat)
    requires (forall k: nat :: k < n && f(s, k).joins == 0 ==> f(s, k).graph == s) && Iterate(f, s, n).joins == 0
    ensures Iterate(f, s, n).graph == s
  {
    if n > 0 {
      IterateStill(s, f, n - 1);
    }
  }

  ghost function SatisfiedAt(s: Graph, from: PTerm, to: PTerm, side: SideCondition): Claims {
    (n: nat, g: Graph) => n < |s.nodes| && n < |g.nodes| ==> Satisfied(g, from, to, side, n)
  }

  lemma DirectionClaims(s: Graph, from: PTerm, to: PTerm, side: SideCondition)
    requires Slim(to)
    ensures IdleClaims(s, Attempts(from, to, side), SatisfiedAt(s, from, to, side))
  {
    var f, C := Attempts(from, to, side), SatisfiedAt(s, from, to, side);
    forall g: Graph, k: nat | GrownFrom(s, g) && f(g, k).joins == 0
      ensures GrownFrom(g, f(g, k).graph) && C(k, f(g, k).graph)
    {
      if k < |g.nodes| {
        AppliedIdle(g, from, to, side, k);
      }
    }
    forall g: Graph, h: Graph, k: nat | GrownFrom(s, g) && GrownFrom(g, h) && C(k, g) ensures C(k, h) {
      if k < |s.nodes| {
        SatisfiedGrow(g, h, from, to, side, k);
      }
    }
  }

  lemma DirectionIdle(s: Graph, from: PTerm, to: PTerm, side: SideCondition)
    requires Slim(to) && SweptDirection(s, from, to, side).joins == 0
    ensures GrownFrom(s, SweptDirection(s, from, to, side).graph)
    ensures SatisfiedBefore(SweptDirection(s, from, to, side).graph, from, to, side, |s.nodes|)
    ensures Covers(from, to) ==> SweptDirection(s, from, to, side).graph == s
  {
    var f, C := Attempts(from, to, side), SatisfiedAt(s, from, to, side);
    var g := SweptDirection(s, from, to, side).graph;
    DirectionClaims(s, from, to, side);
    IterateIdle(s, f, C, |s.nodes|);
    forall i: nat | i < |s.nodes| ensures Satisfied(g, from, to, side, i) {
      assert C(i, g);
    }
    if Covers(from, to) {
      forall k: nat | k < |s.nodes| && f(s, k).joins == 0 ensures f(s, k).graph == s {
        AppliedIdle(s, from, to, side, k);
      }
      IterateStill(s, f, |s.nodes|);
    }
  }

  /** Both directions of a rule, as far as it has them. */
  ghost predicate RuleSatisfiedBefore(s: Graph, r: Rule, n: nat)
    requires WellFormedRule(r)
  {
    && SatisfiedBefore(s, Tree(r.lhs), Tree(r.rhs), r.side, n)
    && (r.bidirectional ==> SatisfiedBefore(s, Tree(r.rhs), Tree(r.lhs), r.side, n))
  }

  lemma RuleSatisfiedGrow(s: Graph, g: Graph, r: Rule, n: nat)
    requires WellFormedRule(r) && GrownFrom(s, g) && n <= |s.nodes| && RuleSatisfiedBefore(s, r, n)
    ensures RuleSatisfiedBefore(g, r, n)
  {
    SatisfiedBeforeGrow(s, g, Tree(r.lhs), Tree(r.rhs), r.side, n);
    if r.bidirectional {
      SatisfiedBeforeGrow(s, g, Tree(r.rhs), Tree(r.lhs), r.side, n);
    }
  }

  ghost predicate RuleCovered(r: Rule)
    requires WellFormedRule(r)
  {
    Covers(Tree(r.lhs), Tree(r.rhs)) && (r.bidirectional ==> Covers(Tree(r.rhs), Tree(r.lhs)))
  }

  lemma RuleIdle(s: Graph, r: Rule)
    requires WellFormedRule(r) && SweptRule(s, r).joins == 0
    ensures GrownFrom(s, SweptRule(s, r).graph) && RuleSatisfiedBefore(SweptRule(s, r).graph, r, |s.nodes|)
    ensures RuleCovered(r) ==> SweptRule(s, r).graph == s
  {
    TreeSlim(r.lhs, r.lhs.root);
    TreeSlim(r.rhs, r.rhs.root);
    DirectionIdle(s, Tree(r.lhs), Tree(r.rhs), r.side);
    if r.bidirectional {
      var forward := SweptDirection(s, Tree(r.lhs), Tree(r.rhs), r.side).graph;
      DirectionIdle(forward, Tree(r.rhs), Tree(r.lhs), r.side);
      GrownTransitive(s, forward, SweptRule(s, r).graph);
      SatisfiedBeforeGrow(forward, SweptRule(s, r).graph, Tree(r.lhs), Tree(r.rhs), r.side, |s.nodes|);
    }
  }

  /** Every rule is satisfied at the e-nodes before `n`. */
  ghost predicate RulesSatisfiedBefore(s: Graph, rules: seq<Rule>, n: nat)
    requires WellFormedRules(rules)
  {
    forall k :: 0 <= k < |rules| ==> WellFormedRule(rules[k]) && RuleSatisfiedBefore(s, rules[k], n)
  }

  /** Wherever any rule fires, its conclusion is already in the e-graph. */
  ghost predicate RulesSatisfied(s: Graph, rules: seq<Rule>)
    requires WellFormedRules(rules)
  {
    RulesSatisfiedBefore(s, rules, |s.nodes|)
  }

  ghost function RuleSatisfiedAt(s: Graph, rules: seq<Rule>): Claims {
    (k: nat, g: Graph) => k < |rules| ==> WellFormedRule(rules[k]) && RuleSatisfiedBefore(g, rules[k], |s.nodes|)
  }

  lemma RulesClaims(s: Graph, rules: seq<Rule>)
    requires WellFormedRules(rules)
    ensures IdleClaims(s, RuleSweeps(rules), RuleSatisfiedAt(s, rules))
  {
    var f, C := RuleSweeps(rules), RuleSatisfiedAt(s, rules);
    forall g: Graph, k: nat | GrownFrom(s, g) && f(g, k).joins == 0
      ensures GrownFrom(g, f(g, k).graph) && C(k, f(g, k).graph)
    {
      if k < |rules| {
        assert WellFormedRule(rules[k]);
        RuleIdle(g, rules[k]);
      }
    }
    forall g: Graph, h: Graph, k: nat | GrownFrom(s, g) && GrownFrom(g, h) && C(k, g) ensures C(k, h) {
      if k < |rules| {
        RuleSatisfiedGrow(g, h, rules[k], |s.nodes|);
      }
    }
  }

  /** After a sweep that joined nothing, the rules are satisfied at every e-node it started from. */
  lemma SweepIdle(s: Graph, rules: seq<Rule>)
    requires WellFormedRules(rules) && SweptRules(s, rules).joins == 0
    ensures GrownFrom(s, SweptRules(s, rules).graph)
    ensures RulesSatisfiedBefore(SweptRules(s, rules).graph, rules, |s.nodes|)
    ensures AllCovered(rules) ==> SweptRules(s, rules).graph == s
  {
    var f, C, g := RuleSweeps(rules), RuleSatisfiedAt(s, rules), SweptRules(s, rules).graph;
    RulesClaims(s, rules);
    IterateIdle(s, f, C, |rules|);
    forall k | 0 <= k < |rules| ensures WellFormedRule(rules[k]) && RuleSatisfiedBefore(g, rules[k], |s.nodes|) {
      assert C(k, g);
    }
    if AllCovered(rules) {
      forall k: nat | k < |rules| && f(s, k).joins == 0 ensures f(s, k).graph == s {
        assert WellFormedRule(rules[k]) && RuleCovered(rules[k]);
        RuleIdle(s, rules[k]);
      }
      IterateStill(s, f, |rules|);
    }
  }

  // ----- closed e-graphs stay closed while nothing is joined -----

  lemma AddedClosed(s: Graph, n: ENode)
    requires Closed(s.nodes, s.rt) && WellFormedNode(n, |s.nodes|)
    ensures Closed(Added(s, n).0.nodes, Added(s, n).0.rt)
  {
    var g := Added(s, n).0;
    if g != s {
      forall i, j | 0 <= i < |g.nodes| && 0 <= j < |g.nodes| && AlikeAt(g.nodes, g.rt, i, j) ensures g.rt[i] == g.rt[j] {
        if i < |s.nodes| && j < |s.nodes| {
          assert g.nodes[i] == s.nodes[i] && g.nodes[j] == s.nodes[j];
          assert AlikeAt(s.nodes, s.rt, i, j);
        } else if i != j {
          var k := if i < j then i else j;
          assert g.nodes[k] == s.nodes[k];
          WiderNode(s.nodes[k], k, |s.nodes|);
          assert AlikeIn(s, k, n);
        }
      }
    }
  }

  lemma {:induction false} BuiltClosed(s: Graph, t: PTerm, items: seq<Binding>)
    requires BindsClasses(items, s.rt) && Slim(t) && Closed(s.nodes, s.rt)
    ensures Closed(Built(s, t, items).graph.nodes, Built(s, t, items).graph.rt)
    decreases t, 0
  {
    match t {
      case PVar(_) =>
      case PConst(v) => AddedClosed(s, ENode("", true, v, "", []));
      case PConstVar(x) =>
        if Lookup(items, x).Some? && Lookup(items, x).value.ToValue? {
          AddedClosed(s, ENode("", true, Lookup(items, x).value.value, "", []));
        }
      case POp(op, args) =>
        BuiltAllClosed(s, args, items);
        var kids := BuiltAll(s, args, items);
        if kids.made.Some? {
          AddedClosed(kids.graph, ENode(op, false, 0, "", kids.made.value));
        }
    }
  }

  lemma {:induction false} BuiltAllClosed(s: Graph, ts: seq<PTerm>, items: seq<Binding>)
    requires BindsClasses(items, s.rt) && Closed(s.nodes, s.rt) && forall k :: 0 <= k < |ts| ==> Slim(ts[k])
    ensures Closed(BuiltAll(s, ts, items).graph.nodes, BuiltAll(s, ts, items).graph.rt)
    decreases ts, 0
  {
    if ts != [] {
      BuiltAllClosed(s, ts[..|ts| - 1], items);
      var init := BuiltAll(s, ts[..|ts| - 1], items);
      if init.made.Some? {
        BuiltClosed(init.graph, ts[|ts| - 1], items);
      }
    }
  }

  lemma AppliedClosed(s: Graph, from: PTerm, to: PTerm, side: SideCondition, n: nat)
    requires n < |s.nodes| && Slim(to) && Closed(s.nodes, s.rt) && Applied(s, from, to, side, n).joins == 0
    ensures Closed(Applied(s, from, to, side, n).graph.nodes, Applied(s, from, to, side, n).graph.rt)
  {
    var found := Found(s, from, n);
    if found.Some? && SideHolds(side, found.value) {
      FirstMatchSound(s.nodes, s.rt, from, n, []);
      BuiltClosed(s, to, found.value);
      var r := Built(s, to, found.value);
      if r.made.Some? {
        IdleInstance(s, to, found.value, n);
      }
    }
  }

  ghost predicate IdleClosed(f: Stepper) {
    forall s: Graph, k: nat :: IsClosed(s) && f(s, k).joins == 0 ==> IsClosed(f(s, k).graph)
  }

  ghost predicate IsClosed(s: Graph) {
    Closed(s.nodes, s.rt)
  }

  lemma {:induction false} IterateClosed(s: Graph, f: Stepper, n: nat)
    requires IdleClosed(f) && IsClosed(s) && Iterate(f, s, n).joins == 0
    ensures IsClosed(Iterate(f, s, n).graph)
  {
    if n > 0 {
      IterateClosed(s, f, n - 1);
    }
  }

  lemma RuleClosed(s: Graph, r: Rule)
    requires WellFormedRule(r) && IsClosed(s) && SweptRule(s, r).joins == 0
    ensures IsClosed(SweptRule(s, r).graph)
  {
    DirectionClosed(s, Tree(r.lhs), Tree(r.rhs), r.side);
    if r.bidirectional {
      DirectionClosed(SweptDirection(s, Tree(r.lhs), Tree(r.rhs), r.side).graph, Tree(r.rhs), Tree(r.lhs), r.side);
    }
  }

  lemma DirectionClosed(s: Graph, from: PTerm, to: PTerm, side: SideCondition)
    requires IsClosed(s) && SweptDirection(s, from, to, side).joins == 0
    ensures IsClosed(SweptDirection(s, from, to, side).graph)
  {
    var f := Attempts(from, to, side);
    forall g: Graph, k: nat | IsClosed(g) && f(g, k).joins == 0 ensures IsClosed(f(g, k).graph) {
      if k < |g.nodes| && Slim(to) {
        AppliedClosed(g, from, to, side, k);
      }
    }
    IterateClosed(s, f, |s.nodes|);
  }

  /** A closed e-graph is still closed after a sweep that joined nothing. */
  lemma SweepClosed(s: Graph, rules: seq<Rule>)
    requires WellFormedRules(rules) && IsClosed(s) && SweptRules(s, rules).joins == 0
    ensures IsClosed(SweptRules(s, rules).graph)
  {
    var f := RuleSweeps(rules);
    forall g: Graph, k: nat | IsClosed(g) && f(g, k).joins == 0 ensures IsClosed(f(g, k).graph) {
      if k < |rules| {
        RuleClosed(g, rules[k]);
      }
    }
    IterateClosed(s, f, |rules|);
  }

  // ----- rulesets that cannot fire -----

  /** No pattern that is matched is headed by the opcode. */
  ghost predicate Ignores(rules: seq<Rule>, opcode: string)
    requires WellFormedRules(rules)
  {
    forall k :: 0 <= k < |rules| ==>
      && WellFormedRule(rules[k])
      && HeadedElsewhere(Tree(rules[k].lhs), opcode)
      && (rules[k].bidirectional ==> HeadedElsewhere(Tree(rules[k].rhs), opcode))
  }

  ghost predicate HeadedElsewhere(t: PTerm, opcode: string) {
    t.POp? && t.op != opcode
  }

  /** Every e-node is a leaf or has the opcode. */
  ghost predicate OnlyOpcode(s: Graph, opcode: string) {
    forall i :: 0 <= i < |s.nodes| ==> TrueLeaf(s.nodes[i]) || s.nodes[i].opcode == opcode
  }

  /** Steps that do nothing do nothing together. */
  lemma {:induction false} IterateNothing(s: Graph, f: Stepper, n: nat)
    requires forall k: nat :: k < n ==> f(s, k) == Step(s, 0, 0)
    ensures Iterate(f, s, n) == Step(s, 0, 0)
  {
    if n > 0 {
      IterateNothing(s, f, n - 1);
    }
  }

  lemma DirectionIgnored(s: Graph, from: PTerm, to: PTerm, side: SideCondition, opcode: string)
    requires OpsNamed(from) && HeadedElsewhere(from, opcode) && OnlyOpcode(s, opcode)
    ensures SweptDirection(s, from, to, side) == Step(s, 0, 0)
  {
    var f := Attempts(from, to, side);
    forall k: nat | k < |s.nodes| ensures f(s, k) == Step(s, 0, 0) {
      assert TrueLeaf(s.nodes[k]) || s.nodes[k].opcode == opcode;
      assert Found(s, from, k).None?;
    }
    IterateNothing(s, f, |s.nodes|);
  }

  lemma RuleIgnored(s: Graph, r: Rule, opcode: string)
    requires WellFormedRule(r) && OnlyOpcode(s, opcode)
    requires HeadedElsewhere(Tree(r.lhs), opcode) && (r.bidirectional ==> HeadedElsewhere(Tree(r.rhs), opcode))
    ensures SweptRule(s, r) == Step(s, 0, 0)
  {
    DirectionIgnored(s, Tree(r.lhs), Tree(r.rhs), r.side, opcode);
    if r.bidirectional {
      DirectionIgnored(s, Tree(r.rhs), Tree(r.lhs), r.side, opcode);
    }
  }

  /** A sweep of such rules over leaves and e-nodes of that opcode does nothing. */
  lemma SweepIgnored(s: Graph, rules: seq<Rule>, opcode: string)
    requires WellFormedRules(rules) && Ignores(rules, opcode) && OnlyOpcode(s, opcode)
    ensures SweptRules(s, rules) == Step(s, 0, 0)
  {
    var f := RuleSweeps(rules);
    forall k: nat | k < |rules| ensures f(s, k) == Step(s, 0, 0) {
      assert WellFormedRule(rules[k]) && HeadedElsewhere(Tree(rules[k].lhs), opcode);
      RuleIgnored(s, rules[k], opcode);
    }
    IterateNothing(s, f, |rules|);
  }
}
