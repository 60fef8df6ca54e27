/** What the optimiser does to one instruction: import, saturation, extraction and writeback. */
module OeuphInstr {
  import opened Basics
  import opened Terms
  import opened UnionFind
  import opened EGraphs
  import opened Matching
  import opened Soundness
  import opened Sweeps
  import opened Saturation
  import opened Extraction
  import opened WeaveEdits
  import opened WeaveIr
  import opened OeuphBridge
  import opened Writeback
  import opened FlatRules

  // ----- the e-node chosen for an instruction -----

  /** A cheapest term of the class of `root`, `chosen` being the lowest root of one. */
  ghost predicate CheapestTerm(model: CostModel, s: Graph, root: nat, chosen: nat, t: ETree)
    requires root < |s.nodes|
  {
    && Represents(s.nodes, s.rt, t, s.rt[root]) && t.node == chosen
    && forall u :: Represents(s.nodes, s.rt, u, s.rt[root]) ==>
         && TreeCost(s.nodes, model, t) <= TreeCost(s.nodes, model, u)
         && (TreeCost(s.nodes, model, u) == TreeCost(s.nodes, model, t) ==> chosen <= u.node)
  }

  ghost predicate Cheapest(model: CostModel, s: Graph, root: nat, chosen: nat)
    requires root < |s.nodes|
  {
    && chosen < |s.nodes| && s.rt[root] == s.rt[chosen]
    && exists t :: CheapestTerm(model, s, root, chosen, t)
  }

  lemma BestIsCheapest(s: Graph, model: CostModel, best: Costs, who: seq<int>, root: nat)
    requires root < |s.nodes| && Optimal(s.nodes, s.rt, model, best, who)
    ensures 0 <= who[s.rt[root]] && Cheapest(model, s, root, who[s.rt[root]])
  {
    var c := s.rt[root];
    assert s.rt[c] == c;
    assert BestFor(s.nodes, s.rt, model, best, who, c);
    var t :| Represents(s.nodes, s.rt, t, c) && TreeCost(s.nodes, model, t) == best[c].value && t.node == who[c];
    assert CheapestTerm(model, s, root, who[c], t);
  }

  /** Extracts the best e-node of the class that `rootClass` belongs to now. */
  method BestOf(g: EGraph, rootClass: nat, model: CostModel, ghost s: Graph, ghost root: nat) returns (chosen: nat)
    requires g.Valid() && g.Now() == s && rootClass < |g.nodes| && root < |s.nodes| && s.rt[rootClass] == s.rt[root]
    modifies g`parent
    ensures g.Valid() && g.Now() == s && Cheapest(model, s, root, chosen)
  {
    var bestNode := new int[|g.nodes|];
    var bestCost := new Option<nat>[|g.nodes|];
    Extract(g, model, bestNode, bestCost);
    var c := g.Find(rootClass);
    BestIsCheapest(s, model, bestCost[..], bestNode[..], root);
    chosen := bestNode[c];
  }

  /** Saturates the e-graph of one instruction and extracts the e-node for it. */
  method Choose(g: EGraph, root: nat, rules: seq<Rule>, budget: Budget, model: CostModel, stats: Stats)
    returns (chosen: nat, ghost tr: seq<Graph>, ghost ended: bool)
    requires g.Valid() && WellFormedRules(rules) && root < |g.nodes|
    modifies g, stats
    ensures g.Valid() && Trace(rules, tr) && tr[0] == old(g.Now()) && Last(tr) == g.Now()
    ensures Ended(rules, budget, tr, old(stats.iterations), ended)
    ensures root < |g.nodes| && Cheapest(model, g.Now(), root, chosen)
    ensures stats.Now() == AfterRun(old(stats.Now()), rules, budget, tr, ended)
    ensures g.unions >= old(g.unions) + JoinsOf(rules, tr)
  {
    var rootClass := g.Find(root);
    tr, ended := Saturate(g, rules, budget, stats);
    TraceKeeps(rules, tr);
    assert Last(tr).rt[rootClass] == Last(tr).rt[root];
    chosen := BestOf(g, rootClass, model, Last(tr), root);
  }

  // ----- what became of an instruction -----

  /** Import refused it; or its e-graph, where it was imported at `root`, ran through `tr`, and e-node
      `chosen` was extracted.  `ended` tells whether the run counts as saturated; `before` is the number
      of iterations that had been counted when it started. */
  datatype Outcome = Refused | Chosen(tr: seq<Graph>, root: nat, chosen: nat, ended: bool, before: nat)

  ghost predicate InGraph(o: Outcome) {
    o.Chosen? ==>
      && o.tr != [] && o.root < |Last(o.tr).nodes| && o.chosen < |Last(o.tr).nodes|
      && WellFormedNode(Last(o.tr).nodes[o.chosen], |Last(o.tr).nodes|)
  }

  /** The chosen e-node is an operator that does not say what the instruction says already. */
  ghost predicate Rewrites(v0: InstrView, o: Outcome)
    requires InGraph(o)
  {
    && o.Chosen? && !Last(o.tr).nodes[o.chosen].IsLeaf()
    && !AlreadyWritten(v0, Last(o.tr).nodes, Last(o.tr).nodes[o.chosen])
  }

  /** What the instruction says afterwards. */
  ghost function OutcomeView(v0: InstrView, o: Outcome): InstrView
    requires InGraph(o)
  {
    if Rewrites(v0, o) then WrittenView(Last(o.tr).nodes, Last(o.tr).nodes[o.chosen], v0.dest) else v0
  }

  /** Import refuses exactly what has too many operands.  Otherwise the e-graph of the instruction goes
      through a run of the saturation loop, to its end, and the e-node is the lowest root of a cheapest
      term of the class of the instruction in the last e-graph. */
  ghost predicate Explained(rules: seq<Rule>, budget: Budget, model: CostModel, v0: InstrView, o: Outcome)
  {
    match o
    case Refused => |v0.operands| > MAX_CHILDREN
    case Chosen(tr, root, chosen, ended, before) =>
      && Trace(rules, tr) && Imported(tr[0], root, v0) && Ended(rules, budget, tr, before, ended)
      && InGraph(o) && Cheapest(model, Last(tr), root, chosen)
  }

  ghost predicate Ran(o: Outcome) {
    o.Chosen? && o.tr != []
  }

  /** The size of an e-graph, added to a report. */
  ghost function Counted(r: Report, s: Graph): Report {
    r.(nodes := r.nodes + |s.nodes|, classes := r.classes + NumRoots(s.rt))
  }

  /** Adds the size of the e-graph to the report. */
  method CountGraph(g: EGraph, stats: Stats)
    requires g.Valid()
    modifies g`parent, stats`nodes, stats`classes
    ensures g.Valid() && g.Now() == old(g.Now())
    ensures stats.Now() == Counted(old(stats.Now()), g.Now())
  {
    var classes := g.ClassCount();
    stats.nodes := stats.nodes + |g.nodes|;
    stats.classes := stats.classes + classes;
  }

  /** What an instruction adds to the report. */
  ghost function Reported(r: Report, rules: seq<Rule>, budget: Budget, o: Outcome): Report {
    if !Ran(o) then r
    else Counted(AfterRun(r, rules, budget, o.tr, o.ended), Last(o.tr))
  }

  /** Joined classes are paid for with e-nodes. */
  ghost predicate Conserved(rules: seq<Rule>, o: Outcome) {
    Ran(o) ==> JoinsOf(rules, o.tr) <= |Last(o.tr).nodes| - NumRoots(Last(o.tr).rt)
  }

  /** Imports, saturates, extracts and writes back one attached instruction. */
  method OptimizeInstr(ir: Module, ins: nat, rules: seq<Rule>, budget: Budget, model: CostModel, stats: Stats)
    returns (ghost o: Outcome)
    requires ir.Valid() && Listed(ir.nodes, ins) && WellFormedRules(rules)
    modifies ir`nodes, stats
    ensures ir.Valid() && InGraph(o)
    ensures Explained(rules, budget, model, old(ViewAt(ir.nodes, ins)), o) && (o.Chosen? ==> o.before == old(stats.iterations))
    ensures !Rewrites(old(ViewAt(ir.nodes, ins)), o) ==> ir.nodes == old(ir.nodes)
    ensures Rewrites(old(ViewAt(ir.nodes, ins)), o) ==>
              Rewritten(old(ir.nodes), ir.nodes, ins, OutcomeView(old(ViewAt(ir.nodes, ins)), o))
    ensures stats.Now() == Reported(old(stats.Now()), rules, budget, o) && Conserved(rules, o)
  {
    var g := new EGraph();
    var root := ImportInstr(g, ir, ins);
    if root.None? {
      return Refused;
    }
    ghost var r0 := stats.Now();
    var chosen;
    ghost var tr, ended;
    chosen, tr, ended := Choose(g, root.value, rules, budget, model, stats);
    WiderNode(g.nodes[chosen], chosen, |g.nodes|);
    o := Chosen(tr, root.value, chosen, ended, r0.iterations);
    var written := WritebackInstr(ir, ins, g.nodes, g.nodes[chosen]);
    CountGraph(g, stats);
  }

  // ----- what a rewrite means -----

  /** The outcome is backed by its hash-consed, closed e-graph: classes are sound, and `root` still
      stands for what import made of the instruction. */
  lemma ExplainedJustified(rules: seq<Rule>, budget: Budget, model: CostModel, v0: InstrView, o: Outcome)
    requires WellFormedRules(rules) && o.Chosen? && Explained(rules, budget, model, v0, o)
    ensures var s := Last(o.tr);
            && AllSound(rules, s.nodes, s.rt) && IsClosed(s) && HashConsed(s.nodes)
            && TermOf(s.nodes, o.root) == ImportedTerm(v0) && |v0.operands| <= MAX_CHILDREN
  {
    var (s0, s) := (o.tr[0], Last(o.tr));
    DiscreteSound(rules, s0);
    TraceKeeps(rules, o.tr);
    assert s.nodes == s0.nodes + s.nodes[|s0.nodes|..];
    TermOfPrefix(s0.nodes, s.nodes[|s0.nodes|..], o.root);
    ImportedDenotes(s0, o.root, v0);
    assert |s0.nodes[o.root].children| == |v0.operands|;
  }

  /** The guard under which a rewrite is certain to keep the meaning: the instruction was clean and
      the chosen e-node has only leaves below it. */
  ghost predicate Faithful(v0: InstrView, o: Outcome)
    requires InGraph(o)
  {
    Rewrites(v0, o) ==> Clean(v0) && LeafChildren(Last(o.tr).nodes, Last(o.tr).nodes[o.chosen])
  }

  ghost predicate EqualInModels(rules: seq<Rule>, t: Term, u: Term)
    requires WellFormedRules(rules)
  {
    forall R: TermRel :: Models(R, rules) ==> R(t, u)
  }

  /** Same destination, and the same term in every model of the rules; or simply untouched. */
  ghost predicate InstrPreserved(rules: seq<Rule>, v0: InstrView, v: InstrView)
    requires WellFormedRules(rules)
  {
    v == v0 || (v.dest == v0.dest && Plain(v0) && Plain(v) && EqualInModels(rules, ViewTerm(v0), ViewTerm(v)))
  }

  lemma FaithfulPreserves(rules: seq<Rule>, budget: Budget, model: CostModel, v0: InstrView, o: Outcome)
    requires WellFormedRules(rules) && InGraph(o) && Explained(rules, budget, model, v0, o) && Faithful(v0, o)
    ensures InstrPreserved(rules, v0, OutcomeView(v0, o))
  {
    if Rewrites(v0, o) {
      var (s, v) := (Last(o.tr), OutcomeView(v0, o));
      ExplainedJustified(rules, budget, model, v0, o);
      ImportExactly(v0);
      WritebackFaithful(s.nodes, o.chosen, v0.dest);
      forall R: TermRel | Models(R, rules) ensures R(ViewTerm(v0), ViewTerm(v)) {
        assert Sound(R, s.nodes, s.rt);
      }
    }
  }

  // ----- when nothing can fire -----

  /** Nothing is tried, or no pattern that is matched is headed by the opcode as the e-graph has it. */
  ghost predicate Quiet(rules: seq<Rule>, budget: Budget, opcode: string)
    requires WellFormedRules(rules)
  {
    budget.maxIterations <= 0 || Ignores(rules, Trunc(opcode))
  }

  lemma {:induction false} IgnoredStill(rules: seq<Rule>, tr: seq<Graph>, opcode: string)
    requires WellFormedRules(rules) && Trace(rules, tr) && Ignores(rules, opcode) && OnlyOpcode(tr[0], opcode) && IsClosed(tr[0])
    ensures Last(tr) == tr[0]
    decreases |tr|
  {
    if |tr| > 1 {
      var (s, g) := (tr[0], Last(tr));
      TraceInit(rules, tr);
      IgnoredStill(rules, tr[..|tr| - 1], opcode);
      SweepIgnored(s, rules, opcode);
      ClosedIsFixed(s.nodes, s.rt, g.rt);
    }
  }

  /** Then the e-graph stays as it is and the instruction itself is chosen: it is kept exactly when it
      fits, and is otherwise replaced by itself with its names cut. */
  lemma QuietOutcome(rules: seq<Rule>, budget: Budget, model: CostModel, v0: InstrView, o: Outcome)
    requires WellFormedRules(rules) && InGraph(o) && Explained(rules, budget, model, v0, o) && Quiet(rules, budget, v0.opcode)
    ensures o.Chosen? ==> Last(o.tr) == o.tr[0] && o.chosen == o.root
    ensures Rewrites(v0, o) <==> !KeptAsIs(v0)
    ensures Rewrites(v0, o) ==> OutcomeView(v0, o) == Renamed(v0)
  {
    if o.Chosen? {
      if |o.tr| > 1 {
        IgnoredStill(rules, o.tr, Trunc(v0.opcode));
      }
      OwnNode(o.tr[0], o.root, v0);
      assert |o.tr[0].nodes[o.root].children| == |v0.operands|;
    }
  }

  // ----- when rules are flat -----

  /** Under flat rules a rewrite of a clean instruction is faithful, and leaves a clean one. */
  lemma FlatOutcome(rules: seq<Rule>, budget: Budget, model: CostModel, v0: InstrView, o: Outcome)
    requires WellFormedRules(rules) && InGraph(o) && Explained(rules, budget, model, v0, o) && Flat(rules) && Clean(v0)
    ensures Faithful(v0, o) && Clean(OutcomeView(v0, o))
  {
    if Rewrites(v0, o) {
      var s := Last(o.tr);
      ImportedLayered(o.tr[0], o.root, v0);
      TraceLayered(rules, o.tr);
      assert LeavesBelow(s.nodes, s.nodes[o.chosen]);
      var cs := s.nodes[o.chosen].children;
      forall k | 0 <= k < |cs| ensures |s.nodes[cs[k]].reg| <= NAME_LIMIT {
        assert FitsRecord(s.nodes[cs[k]]);
      }
    }
  }
}
