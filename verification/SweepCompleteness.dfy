/** What a sweep must conclude: wherever a rule can be applied, it is, and later rules of the same sweep
build on what earlier ones concluded. */
module SweepCompleteness {
  import opened Basics
  import opened Terms
  import opened UnionFind
  import opened EGraphs
  import opened Matching
  import opened MatchCompleteness
  import opened Sweeps

  // ----- matches survive joins -----

  /** Class bindings follow their classes into a later e-graph. */
  ghost function Moved(items: seq<Binding>, g: Graph): (r: seq<Binding>)
    ensures |r| == |items|
  {
    seq(|items|, k requires 0 <= k < |items| => MovedBinding(items[k], g))
  }

  ghost function MovedBinding(b: Binding, g: Graph): (r: Binding)
    ensures r.name == b.name
  {
    match b
    case ToClass(x, c) => if c < |g.rt| then ToClass(x, g.rt[c]) else b
    case ToValue(_, _) => b
  }

  lemma {:induction false} LookupMoved(items: seq<Binding>, g: Graph, x: string)
    ensures Lookup(items, x).Some? ==> Lookup(Moved(items, g), x) == Some(MovedBinding(Lookup(items, x).value, g))
    decreases |items|
  {
    if items != [] {
      LookupMoved(items[1..], g, x);
      assert Moved(items, g)[1..] == Moved(items[1..], g);
    }
  }

  lemma {:induction false} MatchesKept(s: Graph, g: Graph, t: PTerm, n: nat, items: seq<Binding>)
    requires Kept(s, g) && n < |s.nodes| && Matches(s.nodes, s.rt, t, n, items)
    ensures Matches(g.nodes, g.rt, t, n, Moved(items, g))
    decreases t, 0
  {
    assert g.nodes[n] == s.nodes[n];
    match t {
      case PVar(x) =>
        LookupMoved(items, g, x);
        assert s.rt[s.rt[n]] == s.rt[n];
      case PConst(_) =>
      case PConstVar(x) => LookupMoved(items, g, x);
      case POp(_, args) =>
        forall k | 0 <= k < |args| ensures ClassMatches(g.nodes, g.rt, args[k], g.nodes[n].children[k], Moved(items, g)) {
          ClassMatchesKept(s, g, args[k], s.nodes[n].children[k], items);
        }
    }
  }

  lemma {:induction false} ClassMatchesKept(s: Graph, g: Graph, t: PTerm, c: nat, items: seq<Binding>)
    requires Kept(s, g) && c < |s.nodes| && ClassMatches(s.nodes, s.rt, t, c, items)
    ensures ClassMatches(g.nodes, g.rt, t, c, Moved(items, g))
    decreases t, 1
  {
    var j: nat :| j < |s.nodes| && s.rt[j] == s.rt[c] && Matches(s.nodes, s.rt, t, j, items);
    MatchesKept(s, g, t, j, items);
  }

  lemma HasMatchKept(s: Graph, g: Graph, t: PTerm, n: nat)
    requires Kept(s, g) && n < |s.nodes| && HasMatch(s, t, n)
    ensures HasMatch(g, t, n)
  {
    var items :| Matches(s.nodes, s.rt, t, n, items);
    MatchesKept(s, g, t, n, items);
  }

  /** Under one set of bindings the e-node matches one side, and its class the other. */
  ghost predicate Holds(s: Graph, from: PTerm, to: PTerm, n: nat)
    requires n < |s.nodes|
  {
    exists items :: Matches(s.nodes, s.rt, from, n, items) && ClassMatches(s.nodes, s.rt, to, n, items)
  }

  lemma HoldsKept(s: Graph, g: Graph, from: PTerm, to: PTerm, n: nat)
    requires Kept(s, g) && n < |s.nodes| && Holds(s, from, to, n)
    ensures Holds(g, from, to, n)
  {
    var items :| Matches(s.nodes, s.rt, from, n, items) && ClassMatches(s.nodes, s.rt, to, n, items);
    MatchesKept(s, g, from, n, items);
    ClassMatchesKept(s, g, to, n, items);
  }

  // ----- one direction of one rule -----

  /** A direction without a side condition, whose matches the matcher never misses and whose instances
      can always be built. */
  ghost predicate Eager(from: PTerm, to: PTerm, side: SideCondition) {
    && side.None? && Committed(from, {}) && |Names(from)| <= PAT_MAX_NODES
    && Slim(to) && Covers(from, to)
  }

  lemma AttemptCompletes(s: Graph, from: PTerm, to: PTerm, side: SideCondition, n: nat)
    requires Eager(from, to, side) && HashConsed(s.nodes) && n < |s.nodes| && HasMatch(s, from, n)
    ensures Holds(Applied(s, from, to, side, n).graph, from, to, n)
  {
    CommittedFound(s, from, n);
    FirstMatchSound(s.nodes, s.rt, from, n, []);
    var items := Found(s, from, n).value;
    CoveredBound(s, from, to, n);
    BuiltWhenBound(s, to, items);
    InstanceJoined(s, from, to, items, n);
  }

  lemma InstanceJoined(s: Graph, from: PTerm, to: PTerm, items: seq<Binding>, n: nat)
    requires n < |s.nodes| && Slim(to) && BindsClasses(items, s.rt) && Built(s, to, items).made.Some?
    requires Matches(s.nodes, s.rt, from, n, items)
    ensures Holds(Concluded(s, to, items, n).graph, from, to, n)
  {
    var r := Built(s, to, items);
    var (h, made) := (r.graph, r.made.value);
    var g := Joined(h, n, made);
    MatchesGrow(s.nodes, s.rt, h.nodes, h.rt, from, n, items, items);
    BuiltMatches(s, to, items);
    JoinedKept(h, n, made);
    MergeKeepsTogether(h.rt, n, made);
    MatchesKept(h, g, from, n, items);
    MatchesKept(h, g, to, made, items);
    assert ClassMatches(g.nodes, g.rt, to, n, Moved(items, g));
  }

  /** What is counted as a match is an e-node that some bindings match. */
  lemma AttemptCounts(s: Graph, from: PTerm, to: PTerm, side: SideCondition, n: nat)
    requires Eager(from, to, side) && HashConsed(s.nodes) && n < |s.nodes|
    ensures Applied(s, from, to, side, n).matches == if HasMatch(s, from, n) then 1 else 0
    ensures !HasMatch(s, from, n) ==> Applied(s, from, to, side, n).graph == s
  {
    if HasMatch(s, from, n) {
      CommittedFound(s, from, n);
    } else if Finds(s, from, n) {
      FoundHasMatch(s, from, n);
    }
  }

  /** With a side condition: a match counts, and takes effect exactly if some constant it binds satisfies
      the condition. */
  lemma SideDecides(s: Graph, from: PTerm, to: PTerm, side: SideCondition, n: nat)
    requires n < |s.nodes| && Slim(to) && Covers(from, to) && Found(s, from, n).Some? && side.Some?
    ensures Applied(s, from, to, side, n).matches == 1
    ensures var items := Found(s, from, n).value;
            if exists k :: 0 <= k < |items| && items[k].ToValue? && side.value(items[k].value)
            then Holds(Applied(s, from, to, side, n).graph, from, to, n)
            else Applied(s, from, to, side, n).graph == s
  {
    var items := Found(s, from, n).value;
    if exists k :: 0 <= k < |items| && items[k].ToValue? && side.value(items[k].value) {
      FirstMatchSound(s.nodes, s.rt, from, n, []);
      CoveredBound(s, from, to, n);
      BuiltWhenBound(s, to, items);
      InstanceJoined(s, from, to, items, n);
    }
  }

  lemma {:induction false} IterateKeptFrom(f: Stepper, s: Graph, i: nat, n: nat)
    requires KeepsAll(f) && i <= n
    ensures Kept(Iterate(f, s, i).graph, Iterate(f, s, n).graph)
    decreases n - i
  {
    if i < n {
      IterateKeptFrom(f, s, i, n - 1);
      KeptTransitive(Iterate(f, s, i).graph, Iterate(f, s, n - 1).graph, Iterate(f, s, n).graph);
    }
  }

  lemma AttemptsKeep(from: PTerm, to: PTerm, side: SideCondition)
    ensures KeepsAll(Attempts(from, to, side)) && Inductive(IsHashConsed(), Attempts(from, to, side))
  {
    forall g: Graph, n: nat ensures Kept(g, Attempts(from, to, side)(g, n).graph) {
      if n < |g.nodes| && Slim(to) {
        AppliedKept(g, from, to, side, n);
      }
    }
    forall g: Graph, n: nat | IsHashConsed()(g) ensures IsHashConsed()(Attempts(from, to, side)(g, n).graph) {
      if n < |g.nodes| && Slim(to) {
        AppliedHashConsed(g, from, to, side, n);
      }
    }
  }

  /** Wherever one side has a match, both hold after the direction was swept. */
  lemma DirectionCompletes(s: Graph, from: PTerm, to: PTerm, side: SideCondition, n: nat)
    requires Eager(from, to, side) && HashConsed(s.nodes) && n < |s.nodes| && HasMatch(s, from, n)
    ensures n < |SweptDirection(s, from, to, side).graph.nodes| && Holds(SweptDirection(s, from, to, side).graph, from, to, n)
  {
    var f := Attempts(from, to, side);
    AttemptsKeep(from, to, side);
    var before := Iterate(f, s, n).graph;
    IterateKept(f, s, n);
    assert IsHashConsed()(s);
    IterateInvariant(IsHashConsed(), f, s, n);
    assert HashConsed(before.nodes);
    HasMatchKept(s, before, from, n);
    AttemptCompletes(before, from, to, side, n);
    IterateStep(f, s, n);
    IterateKeptFrom(f, s, n + 1, |s.nodes|);
    HoldsKept(Iterate(f, s, n + 1).graph, SweptDirection(s, from, to, side).graph, from, to, n);
  }

  lemma DirectionHashConsed(s: Graph, from: PTerm, to: PTerm, side: SideCondition)
    requires HashConsed(s.nodes)
    ensures HashConsed(SweptDirection(s, from, to, side).graph.nodes)
  {
    AttemptsKeep(from, to, side);
    assert IsHashConsed()(s);
    IterateInvariant(IsHashConsed(), Attempts(from, to, side), s, |s.nodes|);
  }

  // ----- one rule -----

  /** A direction that the rule has. */
  ghost predicate Directed(r: Rule, from: PTerm, to: PTerm)
    requires WellFormedRule(r)
  {
    || (from == Tree(r.lhs) && to == Tree(r.rhs))
    || (r.bidirectional && from == Tree(r.rhs) && to == Tree(r.lhs))
  }

  /** What is left to ask of a direction of a rule: no side condition, a committed pattern, a covered
      other side. */
  ghost predicate Applicable(r: Rule, from: PTerm, to: PTerm)
    requires WellFormedRule(r)
  {
    Directed(r, from, to) && r.side.None? && Committed(from, {}) && Covers(from, to)
  }

  lemma ApplicableEager(r: Rule, from: PTerm, to: PTerm)
    requires WellFormedRule(r) && Applicable(r, from, to)
    ensures Eager(from, to, r.side)
  {
    FewNames(r.lhs);
    FewNames(r.rhs);
    TreeSlim(r.lhs, r.lhs.root);
    TreeSlim(r.rhs, r.rhs.root);
  }

  lemma RuleCompletes(s: Graph, r: Rule, from: PTerm, to: PTerm, n: nat)
    requires WellFormedRule(r) && Applicable(r, from, to)
    requires HashConsed(s.nodes) && n < |s.nodes| && HasMatch(s, from, n)
    ensures n < |SweptRule(s, r).graph.nodes| && Holds(SweptRule(s, r).graph, from, to, n)
  {
    ApplicableEager(r, from, to);
    var (left, right) := (Tree(r.lhs), Tree(r.rhs));
    var forward := SweptDirection(s, left, right, r.side).graph;
    DirectionKept(s, left, right, r.side);
    if from == left && to == right {
      DirectionCompletes(s, from, to, r.side, n);
      if r.bidirectional {
        DirectionKept(forward, right, left, r.side);
        HoldsKept(forward, SweptRule(s, r).graph, from, to, n);
      }
    } else {
      DirectionHashConsed(s, left, right, r.side);
      HasMatchKept(s, forward, from, n);
      DirectionCompletes(forward, from, to, r.side, n);
    }
  }

  // ----- the sweep -----

  /** Wherever a direction of the rule has a match in `g`, both sides hold in the later `h`. */
  ghost predicate Completed(r: Rule, g: Graph, h: Graph) {
    && WellFormedRule(r) && Kept(g, h) && HashConsed(g.nodes) && HashConsed(h.nodes)
    && forall from, to, n: nat :: n < |g.nodes| && Applicable(r, from, to) && HasMatch(g, from, n) ==> Holds(h, from, to, n)
  }

  lemma SweptRuleCompleted(s: Graph, r: Rule)
    requires WellFormedRule(r) && HashConsed(s.nodes)
    ensures Completed(r, s, SweptRule(s, r).graph)
  {
    var h := SweptRule(s, r).graph;
    RuleKept(s, r);
    DirectionHashConsed(s, Tree(r.lhs), Tree(r.rhs), r.side);
    if r.bidirectional {
      DirectionHashConsed(SweptDirection(s, Tree(r.lhs), Tree(r.rhs), r.side).graph, Tree(r.rhs), Tree(r.lhs), r.side);
    }
    forall from, to, n: nat | n < |s.nodes| && Applicable(r, from, to) && HasMatch(s, from, n) ensures Holds(h, from, to, n) {
      RuleCompletes(s, r, from, to, n);
    }
  }

  /** The e-graphs at the turns of the rules, and after the last. */
  ghost predicate Turns(rules: seq<Rule>, turns: seq<Graph>) {
    |turns| == |rules| + 1 && forall k :: 0 <= k < |rules| ==> Completed(rules[k], turns[k], turns[k + 1])
  }

  lemma RulesHashConsed(rules: seq<Rule>)
    requires WellFormedRules(rules)
    ensures Inductive(IsHashConsed(), RuleSweeps(rules))
  {
    forall g: Graph, k: nat | IsHashConsed()(g) ensures IsHashConsed()(RuleSweeps(rules)(g, k).graph) {
      if k < |rules| {
        SweptRuleCompleted(g, rules[k]);
      }
    }
  }

  lemma TurnCompleted(s: Graph, rules: seq<Rule>, k: nat)
    requires WellFormedRules(rules) && k < |rules| && HashConsed(s.nodes)
    ensures Completed(rules[k], Iterate(RuleSweeps(rules), s, k).graph, Iterate(RuleSweeps(rules), s, k + 1).graph)
  {
    RulesHashConsed(rules);
    assert IsHashConsed()(s);
    IterateInvariant(IsHashConsed(), RuleSweeps(rules), s, k);
    SweptRuleCompleted(Iterate(RuleSweeps(rules), s, k).graph, rules[k]);
    IterateStep(RuleSweeps(rules), s, k);
  }

  ghost function Stages(f: Stepper, s: Graph, n: nat): (r: seq<Graph>)
    ensures |r| == n + 1 && r[0] == s && forall k :: 0 <= k <= n ==> r[k] == Iterate(f, s, k).graph
  {
    seq(n + 1, k requires 0 <= k <= n => Iterate(f, s, k).graph)
  }

  lemma SweepTurns(s: Graph, rules: seq<Rule>) returns (turns: seq<Graph>)
    requires WellFormedRules(rules) && HashConsed(s.nodes)
    ensures Turns(rules, turns) && turns[0] == s && turns[|rules|] == SweptRules(s, rules).graph
  {
    turns := Stages(RuleSweeps(rules), s, |rules|);
    forall k | 0 <= k < |rules| ensures Completed(rules[k], turns[k], turns[k + 1]) {
      StageCompleted(s, rules, turns, k);
    }
  }

  lemma StageCompleted(s: Graph, rules: seq<Rule>, turns: seq<Graph>, k: nat)
    requires WellFormedRules(rules) && k < |rules| && HashConsed(s.nodes) && turns == Stages(RuleSweeps(rules), s, |rules|)
    ensures Completed(rules[k], turns[k], turns[k + 1])
  {
    TurnCompleted(s, rules, k);
    assert turns[k] == Iterate(RuleSweeps(rules), s, k).graph && turns[k + 1] == Iterate(RuleSweeps(rules), s, k + 1).graph;
  }

  /** Each e-graph keeps what the one before has. */
  ghost predicate Lasting(turns: seq<Graph>) {
    forall k :: 0 <= k < |turns| - 1 ==> Kept(turns[k], turns[k + 1]) && HashConsed(turns[k].nodes)
  }

  lemma TurnsLast(rules: seq<Rule>, turns: seq<Graph>)
    requires Turns(rules, turns)
    ensures Lasting(turns)
  {
    forall k | 0 <= k < |turns| - 1 ensures Kept(turns[k], turns[k + 1]) && HashConsed(turns[k].nodes) {
      assert Completed(rules[k], turns[k], turns[k + 1]);
    }
  }

  lemma {:induction false} LastingKeep(turns: seq<Graph>, i: nat, k: nat)
    requires Lasting(turns) && i <= k < |turns|
    ensures Kept(turns[i], turns[k])
    decreases k - i
  {
    if i < k {
      LastingKeep(turns, i, k - 1);
      KeptTransitive(turns[i], turns[k - 1], turns[k]);
    }
  }

  /** Every rule, in each of its directions that is applicable, at every e-node the sweep starts with:
      if some bindings match there, then after the sweep there are bindings under which the e-node
      matches and its class holds the instance of the other side. */
  lemma SweepCompletes(s: Graph, rules: seq<Rule>, k: nat, from: PTerm, to: PTerm, n: nat)
    requires WellFormedRules(rules) && HashConsed(s.nodes) && k < |rules| && Applicable(rules[k], from, to)
    requires n < |s.nodes| && HasMatch(s, from, n)
    ensures n < |SweptRules(s, rules).graph.nodes| && Holds(SweptRules(s, rules).graph, from, to, n)
  {
    var turns := SweepTurns(s, rules);
    TurnsLast(rules, turns);
    LastingKeep(turns, 0, k);
    LastingKeep(turns, k + 1, |rules|);
    HasMatchKept(s, turns[k], from, n);
    assert Completed(rules[k], turns[k], turns[k + 1]);
    HoldsKept(turns[k + 1], turns[|rules|], from, to, n);
  }

  // ----- patterns that generalise others -----

  type Substitution = string -> PTerm

  ghost function Substituted(t: PTerm, sub: Substitution): PTerm {
    match t
    case PVar(x) => sub(x)
    case PConst(_) => t
    case PConstVar(x) => sub(x)
    case POp(op, args) => POp(op, seq(|args|, k requires 0 <= k < |args| => Substituted(args[k], sub)))
  }

  /** Variables for variables or constants, each of its kind. */
  ghost predicate ForLeaves(t: PTerm, sub: Substitution) {
    && (forall x :: x in VarNames(t) ==> !sub(x).POp?)
    && (forall x :: x in ConstNames(t) ==> sub(x).PConst? || sub(x).PConstVar?)
  }

  /** `u` is `t` with leaves for its variables. */
  ghost predicate InstanceOf(u: PTerm, t: PTerm) {
    VarNames(t) !! ConstNames(t) && exists sub: Substitution :: ForLeaves(t, sub) && u == Substituted(t, sub)
  }

  ghost function LeafValue(u: PTerm, items: seq<Binding>): int {
    match u
    case PConst(v) => v
    case PConstVar(y) => if Lookup(items, y).Some? && Lookup(items, y).value.ToValue? then Lookup(items, y).value.value else 0
    case _ => 0
  }

  ghost predicate ConstantAt(s: Graph, i: nat, v: int) {
    i < |s.nodes| && IsConstant(s.nodes[i], v)
  }

  ghost function ConstantClass(s: Graph, v: int): nat {
    if exists i: nat :: ConstantAt(s, i, v) then
      var i: nat :| ConstantAt(s, i, v);
      s.rt[i]
    else 0
  }

  /** The class that a leaf pattern stands for under the bindings. */
  ghost function LeafClass(s: Graph, u: PTerm, items: seq<Binding>): nat {
    match u
    case PVar(y) => if Lookup(items, y).Some? && Lookup(items, y).value.ToClass? then Lookup(items, y).value.eclass else 0
    case _ => ConstantClass(s, LeafValue(u, items))
  }

  lemma LeafStandsFor(s: Graph, u: PTerm, n: nat, items: seq<Binding>)
    requires HashConsed(s.nodes) && n < |s.nodes| && !u.POp? && Matches(s.nodes, s.rt, u, n, items)
    ensures LeafClass(s, u, items) == s.rt[n]
    ensures !u.PVar? ==> s.nodes[n].isConst && LeafValue(u, items) == s.nodes[n].value
  {
    if !u.PVar? {
      assert ConstantAt(s, n, LeafValue(u, items));
      forall i: nat | ConstantAt(s, i, LeafValue(u, items)) ensures i == n {
        ConstantsUnique(s.nodes, i, n, LeafValue(u, items));
      }
    }
  }

  /** Bindings of given names to what is wanted. */
  lemma {:induction false} BindingsFor(names: set<string>, want: string -> Binding) returns (b: seq<Binding>)
    requires forall x :: x in names ==> want(x).name == x
    ensures forall x :: x in names ==> Lookup(b, x) == Some(want(x))
    decreases names
  {
    b := [];
    if names != {} {
      var x :| x in names;
      b := BindingsFor(names - {x}, want);
      b := [want(x)] + b;
    }
  }

  /** The bindings give every variable what its leaf stands for. */
  ghost predicate Translates(s: Graph, t: PTerm, sub: Substitution, items: seq<Binding>, b: seq<Binding>) {
    && (forall x :: x in VarNames(t) ==> Lookup(b, x) == Some(ToClass(x, LeafClass(s, sub(x), items))))
    && (forall x :: x in ConstNames(t) ==> Lookup(b, x) == Some(ToValue(x, LeafValue(sub(x), items))))
  }

  lemma {:induction false} TranslatedMatches(s: Graph, t: PTerm, sub: Substitution, n: nat, items: seq<Binding>, b: seq<Binding>)
    requires HashConsed(s.nodes) && n < |s.nodes| && ForLeaves(t, sub) && Translates(s, t, sub, items, b)
    requires Matches(s.nodes, s.rt, Substituted(t, sub), n, items)
    ensures Matches(s.nodes, s.rt, t, n, b)
    decreases t
  {
    match t {
      case PVar(x) =>
        assert x in VarNames(t);
        LeafStandsFor(s, sub(x), n, items);
      case PConst(_) =>
      case PConstVar(x) =>
        assert x in ConstNames(t);
        LeafStandsFor(s, sub(x), n, items);
      case POp(_, args) =>
        var us := Substituted(t, sub).args;
        forall k | 0 <= k < |args| ensures ClassMatches(s.nodes, s.rt, args[k], s.nodes[n].children[k], b) {
          assert ClassMatches(s.nodes, s.rt, us[k], s.nodes[n].children[k], items);
          var j: nat :| j < |s.nodes| && s.rt[j] == s.rt[s.nodes[n].children[k]] && Matches(s.nodes, s.rt, us[k], j, items);
          assert VarNames(args[k]) <= VarNames(t) && ConstNames(args[k]) <= ConstNames(t);
          TranslatedMatches(s, args[k], sub, j, items, b);
        }
    }
  }

  /** What matches an instance over leaves matches the pattern. */
  lemma InstanceMatches(s: Graph, u: PTerm, t: PTerm, n: nat)
    requires HashConsed(s.nodes) && n < |s.nodes| && InstanceOf(u, t) && HasMatch(s, u, n)
    ensures HasMatch(s, t, n)
  {
    var sub: Substitution :| ForLeaves(t, sub) && u == Substituted(t, sub);
    var items :| Matches(s.nodes, s.rt, u, n, items);
    var consts := ConstNames(t);
    var want := (x: string) =>
      if x in consts then ToValue(x, LeafValue(sub(x), items)) else ToClass(x, LeafClass(s, sub(x), items));
    var b := BindingsFor(VarNames(t) + consts, want);
    TranslatedMatches(s, t, sub, n, items, b);
  }

  // ----- chains within one sweep -----

  /** A rule in one of its directions. */
  datatype Link = Link(rule: nat, from: PTerm, to: PTerm)

  /** Later and later rules, each matching what the one before concludes. */
  ghost predicate Chain(rules: seq<Rule>, links: seq<Link>)
    requires WellFormedRules(rules)
  {
    && links != []
    && (forall i :: 0 <= i < |links| ==> links[i].rule < |rules| && WellFormedRule(rules[links[i].rule])
                                         && Applicable(rules[links[i].rule], links[i].from, links[i].to))
    && forall i :: 0 <= i < |links| - 1 ==>
         links[i].rule < links[i + 1].rule && InstanceOf(links[i].to, links[i + 1].from)
  }

  /** In the class of the e-node both sides of the link hold. */
  ghost predicate Concludes(s: Graph, link: Link, n: nat)
    requires n < |s.nodes|
  {
    exists m: nat :: m < |s.nodes| && s.rt[m] == s.rt[n] && Holds(s, link.from, link.to, m)
  }

  lemma ConcludesKept(s: Graph, g: Graph, link: Link, n: nat)
    requires Kept(s, g) && n < |s.nodes| && Concludes(s, link, n)
    ensures Concludes(g, link, n)
  {
    var m: nat :| m < |s.nodes| && s.rt[m] == s.rt[n] && Holds(s, link.from, link.to, m);
    HoldsKept(s, g, link.from, link.to, m);
  }

  /** A conclusion is there for the rules after it to match. */
  lemma ConclusionMatches(s: Graph, link: Link, next: PTerm, n: nat) returns (m: nat)
    requires HashConsed(s.nodes) && n < |s.nodes| && Concludes(s, link, n) && InstanceOf(link.to, next)
    ensures m < |s.nodes| && s.rt[m] == s.rt[n] && HasMatch(s, next, m)
  {
    var a: nat :| a < |s.nodes| && s.rt[a] == s.rt[n] && Holds(s, link.from, link.to, a);
    var items :| Matches(s.nodes, s.rt, link.from, a, items) && ClassMatches(s.nodes, s.rt, link.to, a, items);
    m :| m < |s.nodes| && s.rt[m] == s.rt[a] && Matches(s.nodes, s.rt, link.to, m, items);
    InstanceMatches(s, link.to, next, m);
  }

  lemma LinkMatches(before: Graph, now: Graph, link: Link, next: Link, n: nat) returns (m: nat)
    requires Kept(before, now) && HashConsed(now.nodes) && n < |before.nodes| && Concludes(before, link, n) && InstanceOf(link.to, next.from)
    ensures m < |now.nodes| && now.rt[m] == now.rt[n] && HasMatch(now, next.from, m)
  {
    ConcludesKept(before, now, link, n);
    m := ConclusionMatches(now, link, next.from, n);
  }

  lemma LinkConcludes(now: Graph, after: Graph, next: Link, n: nat, m: nat)
    requires Kept(now, after) && n < |now.nodes| && m < |now.nodes| && now.rt[m] == now.rt[n] && Holds(after, next.from, next.to, m)
    ensures Concludes(after, next, n)
  {
  }

  /** Where `g` has a match, both sides hold in `h`. */
  ghost predicate Carries(g: Graph, h: Graph, link: Link) {
    Kept(g, h) && forall n: nat :: n < |g.nodes| && HasMatch(g, link.from, n) ==> Holds(h, link.from, link.to, n)
  }

  /** Every link is carried out at its turn. */
  ghost predicate Followed(turns: seq<Graph>, links: seq<Link>) {
    && (forall i :: 0 <= i < |links| ==> links[i].rule + 1 < |turns| && Carries(turns[links[i].rule], turns[links[i].rule + 1], links[i]))
    && forall i :: 0 <= i < |links| - 1 ==> links[i].rule < links[i + 1].rule && InstanceOf(links[i].to, links[i + 1].from)
  }

  lemma ChainFollowed(rules: seq<Rule>, turns: seq<Graph>, links: seq<Link>)
    requires WellFormedRules(rules) && Turns(rules, turns) && Chain(rules, links)
    ensures Followed(turns, links)
  {
    forall i | 0 <= i < |links| ensures Carries(turns[links[i].rule], turns[links[i].rule + 1], links[i]) {
      var k := links[i].rule;
      assert Completed(rules[k], turns[k], turns[k + 1]);
    }
  }

  /** One link more. */
  lemma LinkReached(turns: seq<Graph>, link: Link, next: Link, n: nat)
    requires Lasting(turns) && link.rule < next.rule && next.rule + 1 < |turns| && InstanceOf(link.to, next.from)
    requires Carries(turns[next.rule], turns[next.rule + 1], next)
    requires n < |turns[link.rule + 1].nodes| && Concludes(turns[link.rule + 1], link, n)
    ensures n < |turns[next.rule + 1].nodes| && Concludes(turns[next.rule + 1], next, n)
  {
    var k := next.rule;
    LastingKeep(turns, link.rule + 1, k);
    var m := LinkMatches(turns[link.rule + 1], turns[k], link, next, n);
    LinkConcludes(turns[k], turns[k + 1], next, n, m);
  }

  lemma {:induction false} LinksReached(turns: seq<Graph>, links: seq<Link>, n: nat, i: nat)
    requires Lasting(turns) && Followed(turns, links) && i < |links| && turns != []
    requires n < |turns[0].nodes| && HasMatch(turns[0], links[0].from, n)
    ensures n < |turns[links[i].rule + 1].nodes| && Concludes(turns[links[i].rule + 1], links[i], n)
  {
    if i == 0 {
      var k := links[0].rule;
      LastingKeep(turns, 0, k);
      HasMatchKept(turns[0], turns[k], links[0].from, n);
      LinkConcludes(turns[k], turns[k + 1], links[0], n, n);
    } else {
      LinksReached(turns, links, n, i - 1);
      assert links[i - 1].rule < links[i].rule && InstanceOf(links[i - 1].to, links[i].from);
      LinkReached(turns, links[i - 1], links[i], n);
    }
  }

  lemma LastReached(turns: seq<Graph>, links: seq<Link>, n: nat)
    requires Lasting(turns) && Followed(turns, links) && links != [] && turns != []
    requires n < |turns[0].nodes| && HasMatch(turns[0], links[0].from, n)
    ensures n < |turns[|turns| - 1].nodes| && Concludes(turns[|turns| - 1], links[|links| - 1], n)
  {
    var last := links[|links| - 1];
    LinksReached(turns, links, n, |links| - 1);
    LastingKeep(turns, last.rule + 1, |turns| - 1);
    ConcludesKept(turns[last.rule + 1], turns[|turns| - 1], last, n);
  }

  /** One sweep follows a whole chain: where the first rule has a match, the class of that e-node holds
      both sides of the last one after the sweep. */
  lemma SweepFollowsChain(s: Graph, rules: seq<Rule>, links: seq<Link>, n: nat)
    requires WellFormedRules(rules) && HashConsed(s.nodes) && Chain(rules, links)
    requires n < |s.nodes| && HasMatch(s, links[0].from, n)
    ensures n < |SweptRules(s, rules).graph.nodes| && Concludes(SweptRules(s, rules).graph, links[|links| - 1], n)
  {
    var turns := SweepTurns(s, rules);
    TurnsLast(rules, turns);
    ChainFollowed(rules, turns, links);
    LastReached(turns, links, n);
  }
}
