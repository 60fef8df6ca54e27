/** The whole optimisation run over a module, and what it keeps. */
module OeuphRun {
  import opened Basics
  import opened Terms
  import opened UnionFind
  import opened Sweeps
  import opened Saturation
  import opened Extraction
  import opened WeaveTable
  import opened WeaveEdits
  import opened WeaveIr
  import opened OeuphBridge
  import opened Writeback
  import opened FlatRules
  import opened OeuphInstr

  // ----- executing instructions -----

  /** An algebra for opcodes and constants, and some reading of every other kind of operand. */
  datatype Machine<!V> = Machine(alg: Algebra<V>, other: OperandView -> V)

  type Registers<V> = string -> V

  ghost function OperandValue<V>(M: Machine<V>, s: Registers<V>, o: OperandView): V {
    match o
    case ViewInt(v) => M.alg.con(v)
    case ViewReg(x) => s(x)
    case ViewOther(_, _) => M.other(o)
  }

  ghost function InstrValue<V>(M: Machine<V>, s: Registers<V>, v: InstrView): V {
    M.alg.app(v.opcode, seq(|v.operands|, k requires 0 <= k < |v.operands| => OperandValue(M, s, v.operands[k])))
  }

  ghost function Assign<V>(s: Registers<V>, dest: Option<string>, value: V): Registers<V> {
    if dest.None? then s else x => if x == dest.value then value else s(x)
  }

  /** Executes instructions one after the other. */
  ghost function Exec<V>(M: Machine<V>, vs: seq<InstrView>, s: Registers<V>): Registers<V> {
    if vs == [] then s
    else
      var before := Exec(M, vs[..|vs| - 1], s);
      Assign(before, vs[|vs| - 1].dest, InstrValue(M, before, vs[|vs| - 1]))
  }

  lemma PlainValue<V>(M: Machine<V>, s: Registers<V>, v: InstrView)
    requires Plain(v)
    ensures InstrValue(M, s, v) == Eval(M.alg, s, ViewTerm(v))
  {
    var ts := OperandTerms(v.operands);
    forall k | 0 <= k < |ts| ensures Eval(M.alg, s, ts[k]) == OperandValue(M, s, v.operands[k]) {
    }
    assert Eval(M.alg, s, ViewTerm(v)) == M.alg.app(v.opcode, seq(|ts|, k requires 0 <= k < |ts| => Eval(M.alg, s, ts[k])));
    assert seq(|ts|, k requires 0 <= k < |ts| => Eval(M.alg, s, ts[k]))
        == seq(|v.operands|, k requires 0 <= k < |v.operands| => OperandValue(M, s, v.operands[k]));
  }

  // ----- preservation -----

  ghost predicate BlockPreserved(rules: seq<Rule>, vs0: seq<InstrView>, vs: seq<InstrView>)
    requires WellFormedRules(rules)
  {
    |vs| == |vs0| && forall k :: 0 <= k < |vs0| ==> InstrPreserved(rules, vs0[k], vs[k])
  }

  /** Functions and block lists as before; blocks of the same length writing the same registers. */
  ghost predicate SameShape(t0: Table, t: Table) {
    && |t0| <= |t|
    && (forall f :: 0 <= f < |t0| && t0[f].kind == Function ==> t[f] == t0[f])
    && forall b :: 0 <= b < |t0| && t0[b].kind == Block ==>
         && t[b] == t0[b].(children := t[b].children)
         && |t[b].children| == |t0[b].children|
         && forall k :: 0 <= k < |t0[b].children| ==> BlockView(t, b)[k].dest == BlockView(t0, b)[k].dest
  }

  ghost predicate SameMeaning(rules: seq<Rule>, t0: Table, t: Table)
    requires WellFormedRules(rules)
  {
    |t0| <= |t| && forall b :: 0 <= b < |t0| && t0[b].kind == Block ==> BlockPreserved(rules, BlockView(t0, b), BlockView(t, b))
  }

  lemma ShapeTransitive(t0: Table, t1: Table, t2: Table)
    requires SameShape(t0, t1) && SameShape(t1, t2)
    ensures SameShape(t0, t2)
  {
    forall b | 0 <= b < |t0| && t0[b].kind == Block
      ensures t2[b] == t0[b].(children := t2[b].children) && |t2[b].children| == |t0[b].children|
      ensures forall k :: 0 <= k < |t0[b].children| ==> BlockView(t2, b)[k].dest == BlockView(t0, b)[k].dest
    {
      assert t1[b].kind == Block;
      assert forall k :: 0 <= k < |t0[b].children| ==> BlockView(t1, b)[k].dest == BlockView(t0, b)[k].dest;
      assert forall k :: 0 <= k < |t1[b].children| ==> BlockView(t2, b)[k].dest == BlockView(t1, b)[k].dest;
    }
  }

  lemma {:induction false} PreservedExec<V(!new)>(M: Machine<V>, rules: seq<Rule>, vs0: seq<InstrView>, vs: seq<InstrView>, s: Registers<V>)
    requires WellFormedRules(rules) && RulesHold(M.alg, rules) && BlockPreserved(rules, vs0, vs)
    ensures Exec(M, vs, s) == Exec(M, vs0, s)
    decreases |vs0|
  {
    if vs0 != [] {
      var n := |vs0| - 1;
      PreservedExec(M, rules, vs0[..n], vs[..n], s);
      var before := Exec(M, vs0[..n], s);
      if vs[n] != vs0[n] {
        assert InstrPreserved(rules, vs0[n], vs[n]);
        AlgebraModels(M.alg, before, rules);
        assert SameValue(M.alg, before)(ViewTerm(vs0[n]), ViewTerm(vs[n]));
        PlainValue(M, before, vs0[n]);
        PlainValue(M, before, vs[n]);
      }
    }
  }

  /** On every machine in which the rules are true equations, a preserved block takes every register
      state to the same final state as before the run. */
  lemma RunPreservesExecution<V(!new)>(M: Machine<V>, rules: seq<Rule>, t0: Table, t: Table, b: nat, s: Registers<V>)
    requires WellFormedRules(rules) && RulesHold(M.alg, rules) && Is(t0, b, Block) && |t0| <= |t|
    requires BlockPreserved(rules, BlockView(t0, b), BlockView(t, b))
    ensures Exec(M, BlockView(t, b), s) == Exec(M, BlockView(t0, b), s)
  {
    PreservedExec(M, rules, BlockView(t0, b), BlockView(t, b), s);
  }

  // ----- places -----

  /** Where an instruction stands: in which function, block of the function, and position of the block. */
  datatype Place = Place(fn: nat, blk: nat, pos: nat)

  /** The layout order. */
  ghost predicate Earlier(p: Place, q: Place) {
    p.fn < q.fn || (p.fn == q.fn && (p.blk < q.blk || (p.blk == q.blk && p.pos < q.pos)))
  }

  ghost predicate HasBlock(t: Table, functions: seq<nat>, fn: nat, blk: nat) {
    && fn < |functions| && functions[fn] < |t| && blk < |t[functions[fn]].children|
    && t[functions[fn]].children[blk] < |t|
  }

  ghost function BlockAt(t: Table, functions: seq<nat>, fn: nat, blk: nat): (b: nat)
    requires HasBlock(t, functions, fn, blk)
    ensures b < |t|
  {
    t[functions[fn]].children[blk]
  }

  ghost predicate HasPlace(t: Table, functions: seq<nat>, p: Place) {
    HasBlock(t, functions, p.fn, p.blk) && p.pos < |t[BlockAt(t, functions, p.fn, p.blk)].children|
  }

  /** What the instruction there says. */
  ghost function Says(t: Table, functions: seq<nat>, p: Place): InstrView {
    if HasPlace(t, functions, p) then BlockView(t, BlockAt(t, functions, p.fn, p.blk))[p.pos] else InstrView("", None, [])
  }

  lemma BlockPlaced(t: Table, functions: seq<nat>, fn: nat, blk: nat)
    requires Owned(t, functions) && fn < |functions| && functions[fn] < |t| && blk < |t[functions[fn]].children|
    ensures HasBlock(t, functions, fn, blk) && Is(t, BlockAt(t, functions, fn, blk), Block)
  {
    assert functions[fn] in functions;
    assert NodeOk(t, functions[fn]);
    assert t[functions[fn]].children[blk] in t[functions[fn]].children;
  }

  /** A block stands in one place. */
  lemma BlockOnce(t: Table, functions: seq<nat>, f: nat, b: nat, g: nat, c: nat)
    requires Owned(t, functions) && HasBlock(t, functions, f, b) && HasBlock(t, functions, g, c)
    requires BlockAt(t, functions, f, b) == BlockAt(t, functions, g, c)
    ensures f == g && b == c
  {
    assert functions[f] in functions && functions[g] in functions;
    assert NodeOk(t, functions[f]) && NodeOk(t, functions[g]);
    assert t[functions[f]].children[b] in t[functions[f]].children;
    assert t[functions[g]].children[c] in t[functions[g]].children;
    assert functions[f] == functions[g];
  }

  /** Every live block stands somewhere. */
  lemma BlockSomewhere(t: Table, functions: seq<nat>, b: nat) returns (fn: nat, blk: nat)
    requires Owned(t, functions) && Is(t, b, Block)
    ensures HasBlock(t, functions, fn, blk) && BlockAt(t, functions, fn, blk) == b
  {
    assert NodeOk(t, b);
    fn := PositionIn(functions, t[b].parent);
    blk := PositionIn(t[t[b].parent].children, b);
  }

  lemma ShapePlaces(t0: Table, t: Table, functions: seq<nat>, p: Place)
    requires Owned(t0, functions) && SameShape(t0, t) && HasBlock(t0, functions, p.fn, p.blk)
    ensures HasBlock(t, functions, p.fn, p.blk) && BlockAt(t, functions, p.fn, p.blk) == BlockAt(t0, functions, p.fn, p.blk)
    ensures HasPlace(t, functions, p) <==> HasPlace(t0, functions, p)
  {
    BlockPlaced(t0, functions, p.fn, p.blk);
    assert functions[p.fn] in functions;
  }

  // ----- the log of a run -----

  /** An instruction: where it stands, what it said, and what was done about it. */
  datatype Entry = Entry(place: Place, view: InstrView, outcome: Outcome)

  /** What a run is given. */
  datatype Job = Job(rules: seq<Rule>, budget: Budget, model: CostModel, t0: Table, functions: seq<nat>)

  ghost predicate Entered(job: Job, e: Entry) {
    && HasPlace(job.t0, job.functions, e.place) && e.view == Says(job.t0, job.functions, e.place)
    && InGraph(e.outcome) && Explained(job.rules, job.budget, job.model, e.view, e.outcome)
  }

  /** The report after the entries. */
  ghost function Tally(rules: seq<Rule>, budget: Budget, log: seq<Entry>): Report {
    if log == [] then Report(0, 0, 0, 0, 0, true, "")
    else Reported(Tally(rules, budget, log[..|log| - 1]), rules, budget, log[|log| - 1].outcome)
  }

  /** The run was told the number of iterations before it. */
  ghost predicate Told(job: Job, log: seq<Entry>, o: Outcome) {
    Conserved(job.rules, o) && (o.Chosen? ==> o.before == Tally(job.rules, job.budget, log).iterations)
  }

  /** Entries of the job, in layout order, no place twice. */
  ghost predicate Entries(job: Job, log: seq<Entry>) {
    && (forall j :: 0 <= j < |log| ==> Entered(job, log[j]) && Told(job, log[..j], log[j].outcome))
    && forall i, j :: 0 <= i < j < |log| ==> Earlier(log[i].place, log[j].place)
  }

  ghost predicate Logged(log: seq<Entry>, p: Place) {
    exists j :: 0 <= j < |log| && log[j].place == p
  }

  /** One entry for every instruction of every block of every function, in layout order. */
  ghost predicate Complete(job: Job, log: seq<Entry>) {
    Entries(job, log) && forall p :: HasPlace(job.t0, job.functions, p) ==> Logged(log, p)
  }

  /** The instructions in the log say what their outcomes make of them, all others what they said. */
  ghost predicate Effected(job: Job, t: Table, log: seq<Entry>) {
    && SameShape(job.t0, t)
    && (forall j :: 0 <= j < |log| ==>
          InGraph(log[j].outcome) && Says(t, job.functions, log[j].place) == OutcomeView(log[j].view, log[j].outcome))
    && forall p :: HasPlace(job.t0, job.functions, p) && !Logged(log, p) ==> Says(t, job.functions, p) == Says(job.t0, job.functions, p)
  }

  // ----- the report -----

  /** A quantity summed over the entries. */
  ghost function Total(log: seq<Entry>, of: Outcome -> nat): nat {
    if log == [] then 0 else Total(log[..|log| - 1], of) + of(log[|log| - 1].outcome)
  }

  ghost function NodesOf(): Outcome -> nat {
    (o: Outcome) => if Ran(o) then |Last(o.tr).nodes| else 0
  }

  ghost function ClassesOf(): Outcome -> nat {
    (o: Outcome) => if Ran(o) then NumRoots(Last(o.tr).rt) else 0
  }

  ghost function IterationsOf(): Outcome -> nat {
    (o: Outcome) => if Ran(o) then |o.tr| - 1 else 0
  }

  ghost function MatchesFound(rules: seq<Rule>): Outcome -> nat {
    (o: Outcome) => if Ran(o) then MatchesOf(rules, o.tr) else 0
  }

  ghost function ClassesJoined(rules: seq<Rule>): Outcome -> nat {
    (o: Outcome) => if Ran(o) then JoinsOf(rules, o.tr) else 0
  }

  ghost predicate Unfinished(o: Outcome) {
    Ran(o) && !o.ended
  }

  /** The last run that did not saturate. */
  ghost predicate LastUnfinished(log: seq<Entry>, j: nat) {
    j < |log| && Unfinished(log[j].outcome) && forall i :: j < i < |log| ==> !Unfinished(log[i].outcome)
  }

  ghost function ReasonOf(budget: Budget, o: Outcome): string {
    if Ran(o) then BudgetReason(budget, Last(o.tr), o.before + |o.tr| - 1) else ""
  }

  datatype Account = Account(log: seq<Entry>, report: Report)

  /** E-nodes, classes, iterations, matches and joined classes, summed up.  Joined classes are never more
      than e-nodes without classes, and every run was told the number of iterations before it. */
  ghost predicate Totals(rules: seq<Rule>, a: Account) {
    && a.report.nodes == Total(a.log, NodesOf()) && a.report.classes == Total(a.log, ClassesOf())
    && a.report.iterations == Total(a.log, IterationsOf())
    && a.report.matches == Total(a.log, MatchesFound(rules)) && a.report.applications == Total(a.log, ClassesJoined(rules))
    && a.report.applications <= a.report.nodes - a.report.classes
    && forall j :: 0 <= j < |a.log| && a.log[j].outcome.Chosen? ==> a.log[j].outcome.before == Total(a.log[..j], IterationsOf())
  }

  /** Whether all runs saturated, and why the last one that did not was stopped. */
  ghost predicate Endings(budget: Budget, a: Account) {
    && (a.report.saturated <==> forall j :: 0 <= j < |a.log| ==> !Unfinished(a.log[j].outcome))
    && (a.report.saturated ==> a.report.budgetHit == "")
    && forall j: nat :: LastUnfinished(a.log, j) ==> a.report.budgetHit == ReasonOf(budget, a.log[j].outcome)
  }

  /** The report sums up the entries of the log. */
  ghost predicate SumsUp(rules: seq<Rule>, budget: Budget, a: Account) {
    Totals(rules, a) && Endings(budget, a)
  }

  lemma TotalMore(log: seq<Entry>, e: Entry, of: Outcome -> nat)
    ensures Total(log + [e], of) == Total(log, of) + of(e.outcome)
  {
    assert (log + [e])[..|log|] == log;
  }

  lemma TotalsMore(rules: seq<Rule>, budget: Budget, log: seq<Entry>, e: Entry, r: Report)
    requires Totals(rules, Account(log, r)) && InGraph(e.outcome) && Conserved(rules, e.outcome)
    requires e.outcome.Chosen? ==> e.outcome.before == r.iterations
    ensures Totals(rules, Account(log + [e], Reported(r, rules, budget, e.outcome)))
  {
    var more := log + [e];
    TotalMore(log, e, NodesOf());
    TotalMore(log, e, ClassesOf());
    TotalMore(log, e, IterationsOf());
    TotalMore(log, e, MatchesFound(rules));
    TotalMore(log, e, ClassesJoined(rules));
    forall j | 0 <= j < |more| && more[j].outcome.Chosen? ensures more[j].outcome.before == Total(more[..j], IterationsOf()) {
      assert more[..j] == log[..j];
    }
  }

  lemma LastOfMore(budget: Budget, log: seq<Entry>, e: Entry, r: Report, j: nat)
    requires LastUnfinished(log + [e], j) && j < |log| && Endings(budget, Account(log, r))
    ensures !Unfinished(e.outcome) && r.budgetHit == ReasonOf(budget, log[j].outcome)
  {
    var more := log + [e];
    assert more[|log|] == e && forall i :: 0 <= i < |log| ==> more[i] == log[i];
    assert !Unfinished(more[|log|].outcome);
    forall i | j < i < |log| ensures !Unfinished(log[i].outcome) {
      assert more[i] == log[i];
    }
    assert LastUnfinished(log, j);
  }

  /** What an outcome does to flag and reason. */
  lemma ReportedEnding(rules: seq<Rule>, budget: Budget, o: Outcome, r: Report)
    requires o.Chosen? ==> o.before == r.iterations
    ensures var r' := Reported(r, rules, budget, o);
            && r'.saturated == (r.saturated && !Unfinished(o))
            && r'.budgetHit == if Unfinished(o) then ReasonOf(budget, o) else r.budgetHit
  {
    if Ran(o) {
      var a := AfterRun(r, rules, budget, o.tr, o.ended);
      assert Reported(r, rules, budget, o) == Counted(a, Last(o.tr));
      assert a.saturated == (r.saturated && o.ended);
      assert a.budgetHit == if o.ended then r.budgetHit else BudgetReason(budget, Last(o.tr), r.iterations + |o.tr| - 1);
    }
  }

  lemma EndingsMore(budget: Budget, log: seq<Entry>, e: Entry, r: Report, r': Report)
    requires Endings(budget, Account(log, r)) && r'.saturated == (r.saturated && !Unfinished(e.outcome))
    requires r'.budgetHit == if Unfinished(e.outcome) then ReasonOf(budget, e.outcome) else r.budgetHit
    ensures Endings(budget, Account(log + [e], r'))
  {
    var more := log + [e];
    assert more[|log|] == e && forall j :: 0 <= j < |log| ==> more[j] == log[j];
    forall j: nat | LastUnfinished(more, j) ensures r'.budgetHit == ReasonOf(budget, more[j].outcome) {
      if j < |log| {
        LastOfMore(budget, log, e, r, j);
      }
    }
    if r.saturated && !Unfinished(e.outcome) {
      assert forall j :: 0 <= j < |more| ==> !Unfinished(more[j].outcome);
    }
  }

  /** The report that is kept step by step sums up the entries. */
  lemma {:induction false} TallySumsUp(job: Job, log: seq<Entry>)
    requires Entries(job, log)
    ensures SumsUp(job.rules, job.budget, Account(log, Tally(job.rules, job.budget, log)))
    decreases |log|
  {
    if log != [] {
      var (init, e) := (log[..|log| - 1], log[|log| - 1]);
      assert log == init + [e] && Entered(job, e) && Told(job, init, e.outcome);
      InitEntries(job, init, e);
      TallySumsUp(job, init);
      TotalsMore(job.rules, job.budget, init, e, Tally(job.rules, job.budget, init));
      ReportedEnding(job.rules, job.budget, e.outcome, Tally(job.rules, job.budget, init));
      EndingsMore(job.budget, init, e, Tally(job.rules, job.budget, init), Tally(job.rules, job.budget, log));
    }
  }

  lemma InitEntries(job: Job, log: seq<Entry>, e: Entry)
    requires Entries(job, log + [e])
    ensures Entries(job, log)
  {
    var more := log + [e];
    forall j | 0 <= j < |log| ensures Entered(job, log[j]) && Told(job, log[..j], log[j].outcome) {
      assert more[j] == log[j] && more[..j] == log[..j];
    }
    forall i, j | 0 <= i < j < |log| ensures Earlier(log[i].place, log[j].place) {
      assert more[i] == log[i] && more[j] == log[j];
    }
  }

  // ----- what a run keeps -----

  /** Every rewrite in the block is faithful. */
  ghost predicate FaithfulIn(job: Job, log: seq<Entry>, b: nat) {
    forall j :: 0 <= j < |log| && Entered(job, log[j]) && BlockAt(job.t0, job.functions, log[j].place.fn, log[j].place.blk) == b ==>
      Faithful(log[j].view, log[j].outcome)
  }

  ghost predicate AllFaithful(log: seq<Entry>) {
    forall j :: 0 <= j < |log| ==> InGraph(log[j].outcome) && Faithful(log[j].view, log[j].outcome)
  }

  lemma FaithfulEntryPreserved(job: Job, t: Table, log: seq<Entry>, j: nat)
    requires WellFormedRules(job.rules) && j < |log| && Effected(job, t, log)
    requires Entered(job, log[j]) && Faithful(log[j].view, log[j].outcome)
    ensures InstrPreserved(job.rules, Says(job.t0, job.functions, log[j].place), Says(t, job.functions, log[j].place))
  {
    FaithfulPreserves(job.rules, job.budget, job.model, log[j].view, log[j].outcome);
  }

  lemma FaithfulPlacePreserved(job: Job, t: Table, log: seq<Entry>, p: Place)
    requires WellFormedRules(job.rules) && HasPlace(job.t0, job.functions, p) && Complete(job, log) && Effected(job, t, log)
    requires FaithfulIn(job, log, BlockAt(job.t0, job.functions, p.fn, p.blk))
    ensures InstrPreserved(job.rules, Says(job.t0, job.functions, p), Says(t, job.functions, p))
  {
    var j :| 0 <= j < |log| && log[j].place == p;
    assert Entered(job, log[j]);
    FaithfulEntryPreserved(job, t, log, j);
  }

  /** A block all of whose rewrites were faithful keeps its meaning, whatever happened elsewhere. */
  lemma FaithfulBlockPreserved(job: Job, t: Table, log: seq<Entry>, b: nat)
    requires WellFormedRules(job.rules) && Owned(job.t0, job.functions) && Is(job.t0, b, Block)
    requires Complete(job, log) && Effected(job, t, log) && FaithfulIn(job, log, b)
    ensures |job.t0| <= |t| && BlockPreserved(job.rules, BlockView(job.t0, b), BlockView(t, b))
  {
    var fn, blk := BlockSomewhere(job.t0, job.functions, b);
    assert |t[b].children| == |job.t0[b].children|;
    forall k: nat | k < |job.t0[b].children| ensures InstrPreserved(job.rules, BlockView(job.t0, b)[k], BlockView(t, b)[k]) {
      var p := Place(fn, blk, k);
      ShapePlaces(job.t0, t, job.functions, p);
      FaithfulPlacePreserved(job, t, log, p);
    }
  }

  lemma FaithfulRunPreserves(job: Job, t: Table, log: seq<Entry>)
    requires WellFormedRules(job.rules) && Owned(job.t0, job.functions)
    requires Complete(job, log) && Effected(job, t, log) && AllFaithful(log)
    ensures SameMeaning(job.rules, job.t0, t)
  {
    forall b | 0 <= b < |job.t0| && job.t0[b].kind == Block ensures BlockPreserved(job.rules, BlockView(job.t0, b), BlockView(t, b)) {
      FaithfulBlockPreserved(job, t, log, b);
    }
  }

  /** Every instruction of every block is clean. */
  ghost predicate AllClean(t: Table) {
    forall b: nat, k: nat :: b < |t| && t[b].kind == Block && k < |t[b].children| ==> Clean(BlockView(t, b)[k])
  }

  /** Under flat rules every rewrite in a clean module is faithful. */
  lemma FlatRunFaithful(job: Job, log: seq<Entry>)
    requires WellFormedRules(job.rules) && Owned(job.t0, job.functions) && Entries(job, log) && Flat(job.rules) && AllClean(job.t0)
    ensures AllFaithful(log)
  {
    forall j | 0 <= j < |log| ensures InGraph(log[j].outcome) && Faithful(log[j].view, log[j].outcome) {
      var (e, p) := (log[j], log[j].place);
      assert Entered(job, e);
      BlockPlaced(job.t0, job.functions, p.fn, p.blk);
      assert Clean(BlockView(job.t0, BlockAt(job.t0, job.functions, p.fn, p.blk))[p.pos]);
      FlatOutcome(job.rules, job.budget, job.model, e.view, e.outcome);
    }
  }

  // ----- the state of a run -----

  /** The log holds exactly the places before `cur`. */
  ghost predicate Reached(job: Job, log: seq<Entry>, cur: Place) {
    && (forall j :: 0 <= j < |log| ==> Earlier(log[j].place, cur))
    && forall p :: HasPlace(job.t0, job.functions, p) && Earlier(p, cur) ==> Logged(log, p)
  }

  /** The table and the log, with the place whose turn it is. */
  datatype Stage = Stage(t: Table, log: seq<Entry>, cur: Place)

  ghost predicate Running(job: Job, s: Stage) {
    Entries(job, s.log) && Reached(job, s.log, s.cur) && Effected(job, s.t, s.log)
  }

  lemma RunStarts(job: Job) returns (s: Stage)
    ensures s == Stage(job.t0, [], Place(0, 0, 0)) && Running(job, s)
  {
    s := Stage(job.t0, [], Place(0, 0, 0));
  }

  /** Behind the last instruction of a block comes the next block. */
  lemma BlockDone(job: Job, s: Stage) returns (next: Stage)
    requires Running(job, s) && HasBlock(job.t0, job.functions, s.cur.fn, s.cur.blk)
    requires s.cur.pos == |job.t0[BlockAt(job.t0, job.functions, s.cur.fn, s.cur.blk)].children|
    ensures next == s.(cur := Place(s.cur.fn, s.cur.blk + 1, 0)) && Running(job, next)
  {
    next := s.(cur := Place(s.cur.fn, s.cur.blk + 1, 0));
    forall p | HasPlace(job.t0, job.functions, p) && Earlier(p, next.cur) ensures Logged(s.log, p) {
      assert Earlier(p, s.cur);
    }
  }

  /** Behind the last block of a function comes the next function. */
  lemma FunctionDone(job: Job, s: Stage) returns (next: Stage)
    requires Running(job, s) && s.cur.fn < |job.functions| && job.functions[s.cur.fn] < |job.t0|
    requires s.cur == Place(s.cur.fn, |job.t0[job.functions[s.cur.fn]].children|, 0)
    ensures next == s.(cur := Place(s.cur.fn + 1, 0, 0)) && Running(job, next)
  {
    next := s.(cur := Place(s.cur.fn + 1, 0, 0));
    forall p | HasPlace(job.t0, job.functions, p) && Earlier(p, next.cur) ensures Logged(s.log, p) {
      assert Earlier(p, s.cur);
    }
  }

  /** Functions are as they were. */
  lemma FunctionShape(job: Job, s: Stage)
    requires Owned(job.t0, job.functions) && Running(job, s) && s.cur.fn < |job.functions|
    ensures var f := job.functions[s.cur.fn]; f < |job.t0| <= |s.t| && s.t[f] == job.t0[f]
  {
    assert job.functions[s.cur.fn] in job.functions;
  }

  /** Blocks have as many instructions as they had. */
  lemma BlockShape(job: Job, s: Stage)
    requires Owned(job.t0, job.functions) && Running(job, s) && s.cur.fn < |job.functions| && job.functions[s.cur.fn] < |job.t0|
    requires s.cur.blk < |job.t0[job.functions[s.cur.fn]].children|
    ensures HasBlock(job.t0, job.functions, s.cur.fn, s.cur.blk)
    ensures var b := BlockAt(job.t0, job.functions, s.cur.fn, s.cur.blk);
            b < |s.t| && |s.t[b].children| == |job.t0[b].children|
  {
    BlockPlaced(job.t0, job.functions, s.cur.fn, s.cur.blk);
  }

  /** What holds at the end. */
  lemma RunDone(job: Job, s: Stage)
    requires WellFormedRules(job.rules) && Owned(job.t0, job.functions) && Running(job, s) && s.cur == Place(|job.functions|, 0, 0)
    ensures Complete(job, s.log) && Effected(job, s.t, s.log) && SameShape(job.t0, s.t)
    ensures SumsUp(job.rules, job.budget, Account(s.log, Tally(job.rules, job.budget, s.log)))
    ensures Flat(job.rules) && AllClean(job.t0) ==> AllFaithful(s.log) && SameMeaning(job.rules, job.t0, s.t)
  {
    forall p | HasPlace(job.t0, job.functions, p) ensures Logged(s.log, p) {
      assert Earlier(p, s.cur);
    }
    TallySumsUp(job, s.log);
    if Flat(job.rules) && AllClean(job.t0) {
      FlatRunFaithful(job, s.log);
      FaithfulRunPreserves(job, s.t, s.log);
    }
  }

  // ----- one more instruction -----

  lemma RewrittenShape(t: Table, functions: seq<nat>, t': Table, ins: nat, v: InstrView)
    requires Owned(t, functions) && Listed(t, ins) && Rewritten(t, t', ins, v) && v.dest == t[ins].name
    ensures SameShape(t, t')
  {
    var b := t[ins].parent;
    assert NodeOk(t, b);
    var k := PositionIn(t[b].children, ins);
    assert BlockView(t, b)[k] == ViewAt(t, ins);
    forall c | 0 <= c < |t| && t[c].kind == Block
      ensures t'[c] == t[c].(children := t'[c].children) && |t'[c].children| == |t[c].children|
      ensures forall j :: 0 <= j < |t[c].children| ==> BlockView(t', c)[j].dest == BlockView(t, c)[j].dest
    {
      if c != b {
        assert c != ins;
      }
    }
  }

  /** A rewrite at position `p` of block `b` changes what that one instruction says. */
  lemma RewrittenView(t: Table, functions: seq<nat>, t': Table, b: nat, p: nat, v: InstrView)
    requires Owned(t, functions) && Is(t, b, Block) && p < |t[b].children| && Listed(t, t[b].children[p])
    requires Rewritten(t, t', t[b].children[p], v)
    ensures t[t[b].children[p]].parent == b && BlockView(t, b)[p] == ViewAt(t, t[b].children[p])
    ensures |t| <= |t'| && BlockView(t', b) == BlockView(t, b)[p := v]
    ensures forall c :: 0 <= c < |t| && t[c].kind == Block && c != b ==> BlockView(t', c) == BlockView(t, c)
  {
    assert NodeOk(t, b);
    PositionUnique(t[b].children, p);
  }

  /** Only the instruction in place `cur` says something new. */
  ghost predicate ChangedAt(t: Table, t': Table, functions: seq<nat>, cur: Place, v: InstrView) {
    && SameShape(t, t') && Says(t', functions, cur) == v
    && forall p :: HasPlace(t, functions, p) && p != cur ==> Says(t', functions, p) == Says(t, functions, p)
  }

  lemma RewriteChanges(t: Table, functions: seq<nat>, t': Table, cur: Place, v: InstrView)
    requires Owned(t, functions) && HasPlace(t, functions, cur)
    requires var ins := t[BlockAt(t, functions, cur.fn, cur.blk)].children[cur.pos];
             Listed(t, ins) && Rewritten(t, t', ins, v) && v.dest == t[ins].name
    ensures ChangedAt(t, t', functions, cur, v)
  {
    var b := BlockAt(t, functions, cur.fn, cur.blk);
    BlockPlaced(t, functions, cur.fn, cur.blk);
    RewrittenShape(t, functions, t', t[b].children[cur.pos], v);
    RewrittenView(t, functions, t', b, cur.pos, v);
    ShapePlaces(t, t', functions, cur);
    forall p | HasPlace(t, functions, p) && p != cur ensures Says(t', functions, p) == Says(t, functions, p) {
      ShapePlaces(t, t', functions, p);
      BlockPlaced(t, functions, p.fn, p.blk);
      if BlockAt(t, functions, p.fn, p.blk) == b {
        BlockOnce(t, functions, p.fn, p.blk, cur.fn, cur.blk);
      }
    }
  }

  lemma NothingChanges(t: Table, functions: seq<nat>, cur: Place)
    ensures ChangedAt(t, t, functions, cur, Says(t, functions, cur))
  {
  }

  /** One entry more, for the place whose turn it was. */
  ghost predicate Stepped(s: Stage, next: Stage, e: Entry) {
    next.log == s.log + [e] && e.place == s.cur && next.cur == s.cur.(pos := s.cur.pos + 1)
  }

  lemma SteppedLog(s: Stage, next: Stage, e: Entry)
    requires Stepped(s, next, e)
    ensures |next.log| == |s.log| + 1 && next.log[|s.log|] == e && next.log[..|s.log|] == s.log
    ensures forall j :: 0 <= j < |s.log| ==> next.log[j] == s.log[j] && next.log[..j] == s.log[..j]
  {
    forall j | 0 <= j < |s.log| ensures next.log[j] == s.log[j] && next.log[..j] == s.log[..j] {
    }
  }

  lemma EntriesMore(job: Job, s: Stage, next: Stage, e: Entry)
    requires Stepped(s, next, e) && Entries(job, s.log) && Reached(job, s.log, s.cur) && Entered(job, e) && Told(job, s.log, e.outcome)
    ensures Entries(job, next.log)
  {
    SteppedLog(s, next, e);
    forall j | 0 <= j < |next.log| ensures Entered(job, next.log[j]) && Told(job, next.log[..j], next.log[j].outcome) {
      if j < |s.log| {
        assert Entered(job, s.log[j]) && Told(job, s.log[..j], s.log[j].outcome);
      }
    }
  }

  lemma ReachedMore(job: Job, s: Stage, next: Stage, e: Entry)
    requires Stepped(s, next, e) && Reached(job, s.log, s.cur)
    ensures Reached(job, next.log, next.cur)
  {
    SteppedLog(s, next, e);
    forall p | HasPlace(job.t0, job.functions, p) && Earlier(p, next.cur) ensures Logged(next.log, p) {
      if p == e.place {
        assert next.log[|s.log|].place == p;
      } else {
        assert Earlier(p, e.place);
        var j :| 0 <= j < |s.log| && s.log[j].place == p;
        assert next.log[j].place == p;
      }
    }
  }

  lemma EffectedMore(job: Job, s: Stage, next: Stage, e: Entry)
    requires Stepped(s, next, e) && Owned(job.t0, job.functions) && Running(job, s) && Entered(job, e)
    requires ChangedAt(s.t, next.t, job.functions, e.place, OutcomeView(e.view, e.outcome))
    ensures Effected(job, next.t, next.log)
  {
    SteppedLog(s, next, e);
    ShapeTransitive(job.t0, s.t, next.t);
    forall j | 0 <= j < |next.log|
      ensures InGraph(next.log[j].outcome)
      ensures Says(next.t, job.functions, next.log[j].place) == OutcomeView(next.log[j].view, next.log[j].outcome)
    {
      if j < |s.log| {
        assert Earlier(s.log[j].place, e.place) && Entered(job, s.log[j]);
        ShapePlaces(job.t0, s.t, job.functions, s.log[j].place);
      }
    }
    forall p | HasPlace(job.t0, job.functions, p) && !Logged(next.log, p)
      ensures Says(next.t, job.functions, p) == Says(job.t0, job.functions, p)
    {
      assert next.log[|s.log|].place != p;
      assert !Logged(s.log, p);
      ShapePlaces(job.t0, s.t, job.functions, p);
    }
  }

  /** Before its turn an instruction says what it said when the run started. */
  lemma NotYetChanged(job: Job, t: Table, log: seq<Entry>, cur: Place)
    requires Owned(job.t0, job.functions) && Running(job, Stage(t, log, cur)) && HasPlace(job.t0, job.functions, cur)
    ensures HasPlace(t, job.functions, cur) && Says(t, job.functions, cur) == Says(job.t0, job.functions, cur)
  {
    ShapePlaces(job.t0, t, job.functions, cur);
    assert !Logged(log, cur);
  }

  lemma TallyMore(rules: seq<Rule>, budget: Budget, log: seq<Entry>, e: Entry)
    ensures Tally(rules, budget, log + [e]) == Reported(Tally(rules, budget, log), rules, budget, e.outcome)
  {
    assert (log + [e])[..|log|] == log;
  }

  lemma StepTaken(job: Job, s: Stage, t': Table, e: Entry) returns (next: Stage)
    requires Owned(job.t0, job.functions) && Running(job, s) && e.place == s.cur && Entered(job, e) && Told(job, s.log, e.outcome)
    requires ChangedAt(s.t, t', job.functions, e.place, OutcomeView(e.view, e.outcome))
    ensures Running(job, next) && next.t == t' && next.cur == s.cur.(pos := s.cur.pos + 1)
    ensures Tally(job.rules, job.budget, next.log) == Reported(Tally(job.rules, job.budget, s.log), job.rules, job.budget, e.outcome)
  {
    next := Stage(t', s.log + [e], s.cur.(pos := s.cur.pos + 1));
    EntriesMore(job, s, next, e);
    ReachedMore(job, s, next, e);
    EffectedMore(job, s, next, e);
    TallyMore(job.rules, job.budget, s.log, e);
  }

  /** The instruction that has its turn, as the table has it now. */
  lemma TurnOf(job: Job, s: Stage) returns (ins: nat)
    requires Owned(job.t0, job.functions) && Owned(s.t, job.functions) && Running(job, s) && HasPlace(job.t0, job.functions, s.cur)
    ensures HasPlace(s.t, job.functions, s.cur)
    ensures BlockAt(s.t, job.functions, s.cur.fn, s.cur.blk) == BlockAt(job.t0, job.functions, s.cur.fn, s.cur.blk)
    ensures ins == s.t[BlockAt(s.t, job.functions, s.cur.fn, s.cur.blk)].children[s.cur.pos]
    ensures Listed(s.t, ins) && ViewAt(s.t, ins) == Says(job.t0, job.functions, s.cur)
  {
    var (t, cur) := (s.t, s.cur);
    ShapePlaces(job.t0, t, job.functions, cur);
    NotYetChanged(job, t, s.log, cur);
    BlockPlaced(t, job.functions, cur.fn, cur.blk);
    var b := BlockAt(t, job.functions, cur.fn, cur.blk);
    ins := t[b].children[cur.pos];
    assert NodeOk(t, b) && ins in t[b].children;
  }

  /** The instruction in its turn, or what was made of it. */
  ghost predicate Written(job: Job, t: Table, t': Table, e: Entry, ins: nat)
    requires InGraph(e.outcome)
  {
    && HasPlace(t, job.functions, e.place) && ins == t[BlockAt(t, job.functions, e.place.fn, e.place.blk)].children[e.place.pos]
    && Listed(t, ins) && ViewAt(t, ins) == e.view
    && if Rewrites(e.view, e.outcome) then Rewritten(t, t', ins, OutcomeView(e.view, e.outcome)) else t' == t
  }

  lemma WrittenChanges(job: Job, t: Table, t': Table, e: Entry, ins: nat)
    requires Owned(t, job.functions) && InGraph(e.outcome) && Written(job, t, t', e, ins) && Says(t, job.functions, e.place) == e.view
    ensures ChangedAt(t, t', job.functions, e.place, OutcomeView(e.view, e.outcome))
  {
    if Rewrites(e.view, e.outcome) {
      RewriteChanges(t, job.functions, t', e.place, OutcomeView(e.view, e.outcome));
    } else {
      NothingChanges(t, job.functions, e.place);
    }
  }

  lemma TurnChanges(job: Job, s: Stage, t': Table, e: Entry, ins: nat)
    requires Owned(job.t0, job.functions) && Owned(s.t, job.functions) && Running(job, s) && e.place == s.cur
    requires Entered(job, e) && Written(job, s.t, t', e, ins)
    ensures ChangedAt(s.t, t', job.functions, e.place, OutcomeView(e.view, e.outcome))
  {
    NotYetChanged(job, s.t, s.log, s.cur);
    WrittenChanges(job, s.t, t', e, ins);
  }

  /** Its entry, and what the step keeps. */
  lemma TurnTaken(job: Job, s: Stage, t': Table, e: Entry, ins: nat) returns (next: Stage)
    requires Owned(job.t0, job.functions) && Owned(s.t, job.functions) && Running(job, s) && e.place == s.cur
    requires Entered(job, e) && Told(job, s.log, e.outcome) && Written(job, s.t, t', e, ins)
    ensures Running(job, next) && next.t == t' && next.cur == s.cur.(pos := s.cur.pos + 1)
    ensures Tally(job.rules, job.budget, next.log) == Reported(Tally(job.rules, job.budget, s.log), job.rules, job.budget, e.outcome)
  {
    TurnChanges(job, s, t', e, ins);
    next := StepTaken(job, s, t', e);
  }

  /** One instruction, which gets its entry. */
  method OptimizeAt(ir: Module, blk: nat, ii: nat, rules: seq<Rule>, budget: Budget, model: CostModel, stats: Stats,
                    ghost job: Job, ghost s: Stage) returns (ghost next: Stage)
    requires ir.Valid() && WellFormedRules(rules) && job == Job(rules, budget, model, job.t0, ir.functions) && Owned(job.t0, job.functions)
    requires HasPlace(job.t0, job.functions, s.cur) && blk == BlockAt(job.t0, job.functions, s.cur.fn, s.cur.blk) && ii == s.cur.pos
    requires Running(job, s) && s.t == ir.nodes && stats.Now() == Tally(rules, budget, s.log)
    modifies ir`nodes, stats
    ensures ir.Valid() && Running(job, next) && next.t == ir.nodes && next.cur == s.cur.(pos := ii + 1)
    ensures stats.Now() == Tally(rules, budget, next.log)
  {
    ghost var turn := TurnOf(job, s);
    var ins := ir.nodes[blk].children[ii];
    ghost var o := OptimizeInstr(ir, ins, rules, budget, model, stats);
    next := TurnTaken(job, s, ir.nodes, Entry(s.cur, Says(job.t0, job.functions, s.cur), o), ins);
  }

  /** Every instruction of a block, in order. */
  method OptimizeBlock(ir: Module, blk: nat, rules: seq<Rule>, budget: Budget, model: CostModel, stats: Stats,
                       ghost job: Job, ghost s: Stage) returns (ghost next: Stage)
    requires ir.Valid() && WellFormedRules(rules) && job == Job(rules, budget, model, job.t0, ir.functions) && Owned(job.t0, job.functions)
    requires HasBlock(job.t0, job.functions, s.cur.fn, s.cur.blk) && blk == BlockAt(job.t0, job.functions, s.cur.fn, s.cur.blk)
    requires blk < |ir.nodes| && |ir.nodes[blk].children| == |job.t0[blk].children| && s.cur.pos == 0
    requires Running(job, s) && s.t == ir.nodes && stats.Now() == Tally(rules, budget, s.log)
    modifies ir`nodes, stats
    ensures ir.Valid() && Running(job, next) && next.t == ir.nodes && next.cur == Place(s.cur.fn, s.cur.blk + 1, 0)
    ensures stats.Now() == Tally(rules, budget, next.log)
  {
    next := s;
    var ninstr := |ir.nodes[blk].children|;
    var ii := 0;
    while ii < ninstr
      invariant 0 <= ii <= ninstr && ir.Valid() && next.t == ir.nodes && next.cur == s.cur.(pos := ii)
      invariant Running(job, next) && stats.Now() == Tally(rules, budget, next.log)
    {
      next := OptimizeAt(ir, blk, ii, rules, budget, model, stats, job, next);
      ii := ii + 1;
    }
    next := BlockDone(job, next);
  }

  /** Every block of a function, in order. */
  method OptimizeFunction(ir: Module, fn: nat, rules: seq<Rule>, budget: Budget, model: CostModel, stats: Stats,
                          ghost job: Job, ghost s: Stage) returns (ghost next: Stage)
    requires ir.Valid() && WellFormedRules(rules) && job == Job(rules, budget, model, job.t0, ir.functions) && Owned(job.t0, job.functions)
    requires s.cur.fn < |job.functions| && fn == job.functions[s.cur.fn] && s.cur == Place(s.cur.fn, 0, 0)
    requires Running(job, s) && s.t == ir.nodes && stats.Now() == Tally(rules, budget, s.log)
    modifies ir`nodes, stats
    ensures ir.Valid() && Running(job, next) && next.t == ir.nodes && next.cur == Place(s.cur.fn + 1, 0, 0)
    ensures stats.Now() == Tally(rules, budget, next.log)
  {
    next := s;
    FunctionShape(job, next);
    var bi := 0;
    while bi < |ir.nodes[fn].children|
      invariant fn < |job.t0| && 0 <= bi <= |job.t0[fn].children| && fn < |ir.nodes| && ir.nodes[fn] == job.t0[fn]
      invariant ir.Valid() && next.t == ir.nodes && next.cur == Place(s.cur.fn, bi, 0)
      invariant Running(job, next) && stats.Now() == Tally(rules, budget, next.log)
    {
      var blk := ir.nodes[fn].children[bi];
      BlockShape(job, next);
      next := OptimizeBlock(ir, blk, rules, budget, model, stats, job, next);
      FunctionShape(job, next);
      bi := bi + 1;
    }
    next := FunctionDone(job, next);
  }

  /** Optimises every instruction of every block of every function, in order.  The log has one entry for
      each of them, in layout order, also for those left as they are: what the instruction said when the
      run started and the run of the saturation loop that decided about it.  Afterwards it says what that
      outcome makes of it.  The report sums up the entries.  Positions, counts and destinations never
      change.  When the rules are flat and every instruction was clean, all blocks keep their meaning. */
  method Run(ir: Module, rules: seq<Rule>, budget: Budget, model: CostModel) returns (stats: Stats, ghost log: seq<Entry>)
    requires ir.Valid() && WellFormedRules(rules)
    modifies ir`nodes
    ensures ir.Valid() && fresh(stats)
    ensures SameShape(old(ir.nodes), ir.nodes)
    ensures Complete(Job(rules, budget, model, old(ir.nodes), ir.functions), log)
    ensures Effected(Job(rules, budget, model, old(ir.nodes), ir.functions), ir.nodes, log)
    ensures SumsUp(rules, budget, Account(log, stats.Now()))
    ensures Flat(rules) && AllClean(old(ir.nodes)) ==> AllFaithful(log) && SameMeaning(rules, old(ir.nodes), ir.nodes)
  {
    stats := new Stats();
    ghost var job := Job(rules, budget, model, ir.nodes, ir.functions);
    ghost var s := RunStarts(job);
    var fi := 0;
    while fi < |ir.functions|
      invariant 0 <= fi <= |ir.functions| && ir.Valid() && fresh(stats) && s.t == ir.nodes && s.cur == Place(fi, 0, 0)
      invariant Running(job, s) && stats.Now() == Tally(rules, budget, s.log)
    {
      s := OptimizeFunction(ir, ir.functions[fi], rules, budget, model, stats, job, s);
      fi := fi + 1;
    }
    log := s.log;
    RunDone(job, s);
  }
}
