/** Terms, e-nodes, patterns, and the equational theory a ruleset presents.

A ruleset asserts equations.  What it is allowed to identify is stated without choosing a
semantics: a relation on terms is a model of the ruleset when it is a congruence that contains
every admissible instance of every rule.  Algebras are one source of such relations. */
module Terms {
  import opened Basics

  /** The finite term an e-node denotes. */
  datatype Term = TConst(value: int) | TReg(name: string) | TApp(op: string, args: seq<Term>)

  /** `enode` without its write-only `eclass` field. */
  datatype ENode = ENode(opcode: string, isConst: bool, value: int, reg: string, children: seq<nat>) {
    predicate IsLeaf() {
      isConst || opcode == ""
    }
  }

  /** A constant or a register, with nothing below it. */
  predicate TrueLeaf(n: ENode) {
    n.isConst || (n.opcode == "" && n.children == [])
  }

  const MAX_CHILDREN: nat := 4

  predicate WellFormedNode(n: ENode, bound: nat) {
    && |n.children| <= MAX_CHILDREN
    && forall k :: 0 <= k < |n.children| ==> n.children[k] < bound
  }

  /** Children always have smaller indices than their parent. */
  predicate WellFormedNodes(nodes: seq<ENode>) {
    forall i :: 0 <= i < |nodes| ==> WellFormedNode(nodes[i], i)
  }

  ghost function TermOf(nodes: seq<ENode>, i: nat): Term
    requires WellFormedNodes(nodes) && i < |nodes|
    decreases i
  {
    var n := nodes[i];
    if n.isConst then TConst(n.value)
    else if n.opcode == "" && n.children == [] then TReg(n.reg)
    else TApp(n.opcode, seq(|n.children|, k requires 0 <= k < |n.children| => TermOf(nodes, n.children[k])))
  }

  lemma {:induction false} TermOfPrefix(nodes: seq<ENode>, more: seq<ENode>, i: nat)
    requires WellFormedNodes(nodes) && WellFormedNodes(nodes + more) && i < |nodes|
    ensures TermOf(nodes + more, i) == TermOf(nodes, i)
    decreases i
  {
    var n := nodes[i];
    assert (nodes + more)[i] == n;
    forall k | 0 <= k < |n.children| ensures TermOf(nodes + more, n.children[k]) == TermOf(nodes, n.children[k]) {
      TermOfPrefix(nodes, more, n.children[k]);
    }
    assert seq(|n.children|, k requires 0 <= k < |n.children| => TermOf(nodes + more, n.children[k]))
        == seq(|n.children|, k requires 0 <= k < |n.children| => TermOf(nodes, n.children[k]));
  }

  // ----- congruences on terms -----

  type TermRel = (Term, Term) -> bool

  ghost predicate Pointwise(R: TermRel, xs: seq<Term>, ys: seq<Term>) {
    |xs| == |ys| && forall k :: 0 <= k < |xs| ==> R(xs[k], ys[k])
  }

  ghost predicate Congruence(R: TermRel) {
    && (forall t :: R(t, t))
    && (forall t, u :: R(t, u) ==> R(u, t))
    && (forall t, u, v :: R(t, u) && R(u, v) ==> R(t, v))
    && (forall op, xs, ys :: Pointwise(R, xs, ys) ==> R(TApp(op, xs), TApp(op, ys)))
  }

  // ----- patterns -----

  datatype PatKind = KindVar | KindConst | KindConstVar | KindOp

  /** `ccw_pat_node`: one record for every kind, unused fields zero. */
  datatype PatNode = PatNode(kind: PatKind, text: string, value: int, children: seq<nat>)

  datatype Pattern = Pattern(nodes: seq<PatNode>, root: nat)

  const PAT_MAX_NODES: nat := 64
  const PAT_MAX_CHILDREN: nat := 4

  predicate WellFormedPatNode(p: PatNode, i: nat, count: nat) {
    && |p.text| <= NAME_LIMIT
    && |p.children| <= PAT_MAX_CHILDREN
    && forall k :: 0 <= k < |p.children| ==> i < p.children[k] < count
  }

  /** What the pattern parser establishes: children lie above their parent, within the table. */
  predicate WellFormedPattern(pat: Pattern) {
    && pat.root < |pat.nodes| <= PAT_MAX_NODES
    && forall i :: 0 <= i < |pat.nodes| ==> WellFormedPatNode(pat.nodes[i], i, |pat.nodes|)
  }

  /** The tree a pattern table spells. */
  datatype PTerm = PVar(name: string) | PConst(value: int) | PConstVar(name: string) | POp(op: string, args: seq<PTerm>)

  ghost function TreeOf(pat: Pattern, i: nat): PTerm
    requires WellFormedPattern(pat) && i < |pat.nodes|
    decreases |pat.nodes| - i
  {
    var p := pat.nodes[i];
    match p.kind
    case KindVar => PVar(p.text)
    case KindConst => PConst(p.value)
    case KindConstVar => PConstVar(p.text)
    case KindOp => POp(p.text, seq(|p.children|, k requires 0 <= k < |p.children| => TreeOf(pat, p.children[k])))
  }

  ghost function Tree(pat: Pattern): PTerm
    requires WellFormedPattern(pat)
  {
    TreeOf(pat, pat.root)
  }

  type VarEnv = string -> Term
  type ConstEnv = string -> int

  ghost function Inst(t: PTerm, vars: VarEnv, consts: ConstEnv): Term {
    match t
    case PVar(x) => vars(x)
    case PConst(v) => TConst(v)
    case PConstVar(x) => TConst(consts(x))
    case POp(op, args) => TApp(op, seq(|args|, k requires 0 <= k < |args| => Inst(args[k], vars, consts)))
  }

  ghost function VarNames(t: PTerm): set<string> {
    match t
    case PVar(x) => {x}
    case PConst(_) => {}
    case PConstVar(_) => {}
    case POp(_, args) => set k, x | 0 <= k < |args| && x in VarNames(args[k]) :: x
  }

  ghost function ConstNames(t: PTerm): set<string> {
    match t
    case PVar(_) => {}
    case PConst(_) => {}
    case PConstVar(x) => {x}
    case POp(_, args) => set k, x | 0 <= k < |args| && x in ConstNames(args[k]) :: x
  }

  /** Every operator pattern names an opcode or has operands. */
  ghost predicate OpsNamed(t: PTerm) {
    t.POp? ==> (t.op != "" || t.args != []) && forall k :: 0 <= k < |t.args| ==> OpsNamed(t.args[k])
  }

  // ----- rules -----

  type SideCondition = Option<int -> bool>

  datatype Rule = Rule(name: string, lhs: Pattern, rhs: Pattern, bidirectional: bool, side: SideCondition)

  ghost predicate WellFormedRule(r: Rule) {
    WellFormedPattern(r.lhs) && WellFormedPattern(r.rhs) && OpsNamed(Tree(r.lhs)) && OpsNamed(Tree(r.rhs))
  }

  ghost predicate WellFormedRules(rules: seq<Rule>) {
    forall k :: 0 <= k < |rules| ==> WellFormedRule(rules[k])
  }

  /** A side condition admits a match when some constant bound by the matched side satisfies it. */
  ghost predicate Admits(from: PTerm, side: SideCondition, consts: ConstEnv) {
    side.Some? ==> exists x :: x in ConstNames(from) && side.value(consts(x))
  }

  ghost predicate Licenses(R: TermRel, from: PTerm, to: PTerm, side: SideCondition) {
    forall vars: VarEnv, consts: ConstEnv ::
      Admits(from, side, consts) ==> R(Inst(from, vars, consts), Inst(to, vars, consts))
  }

  ghost predicate LicensesRule(R: TermRel, r: Rule)
    requires WellFormedRule(r)
  {
    && Licenses(R, Tree(r.lhs), Tree(r.rhs), r.side)
    && (r.bidirectional ==> Licenses(R, Tree(r.rhs), Tree(r.lhs), r.side))
  }

  /** `R` is a model of the ruleset. */
  ghost predicate Models(R: TermRel, rules: seq<Rule>)
    requires WellFormedRules(rules)
  {
    Congruence(R) && forall k :: 0 <= k < |rules| ==> LicensesRule(R, rules[k])
  }

  // ----- algebras -----

  /** An interpretation of constants and opcodes in any type of values. */
  datatype Algebra<!V> = Algebra(con: int -> V, app: (string, seq<V>) -> V)

  ghost function Eval<V>(A: Algebra<V>, regs: string -> V, t: Term): V {
    match t
    case TConst(v) => A.con(v)
    case TReg(x) => regs(x)
    case TApp(op, args) => A.app(op, seq(|args|, k requires 0 <= k < |args| => Eval(A, regs, args[k])))
  }

  ghost function EvalPattern<V>(A: Algebra<V>, vars: string -> V, consts: ConstEnv, t: PTerm): V {
    match t
    case PVar(x) => vars(x)
    case PConst(v) => A.con(v)
    case PConstVar(x) => A.con(consts(x))
    case POp(op, args) => A.app(op, seq(|args|, k requires 0 <= k < |args| => EvalPattern(A, vars, consts, args[k])))
  }

  ghost predicate EquationHolds<V(!new)>(A: Algebra<V>, from: PTerm, to: PTerm, side: SideCondition) {
    forall vars: string -> V, consts: ConstEnv ::
      Admits(from, side, consts) ==> EvalPattern(A, vars, consts, from) == EvalPattern(A, vars, consts, to)
  }

  /** Every rule is a true equation of the algebra, whenever its side condition admits it. */
  ghost predicate RulesHold<V(!new)>(A: Algebra<V>, rules: seq<Rule>)
    requires WellFormedRules(rules)
  {
    forall k :: 0 <= k < |rules| ==>
      && EquationHolds(A, Tree(rules[k].lhs), Tree(rules[k].rhs), rules[k].side)
      && (rules[k].bidirectional ==> EquationHolds(A, Tree(rules[k].rhs), Tree(rules[k].lhs), rules[k].side))
  }

  /** Equality of values, as a relation on terms. */
  ghost function SameValue<V>(A: Algebra<V>, regs: string -> V): TermRel {
    (t: Term, u: Term) => Eval(A, regs, t) == Eval(A, regs, u)
  }

  lemma {:induction false} EvalInst<V>(A: Algebra<V>, regs: string -> V, t: PTerm, vars: VarEnv, consts: ConstEnv)
    ensures Eval(A, regs, Inst(t, vars, consts)) == EvalPattern(A, x => Eval(A, regs, vars(x)), consts, t)
  {
    if t.POp? {
      var lifted := x => Eval(A, regs, vars(x));
      var args := t.args;
      var insts := seq(|args|, k requires 0 <= k < |args| => Inst(args[k], vars, consts));
      forall k | 0 <= k < |args|
        ensures Eval(A, regs, insts[k]) == EvalPattern(A, lifted, consts, args[k])
      {
        EvalInst(A, regs, args[k], vars, consts);
      }
      assert seq(|insts|, k requires 0 <= k < |insts| => Eval(A, regs, insts[k]))
          == seq(|args|, k requires 0 <= k < |args| => EvalPattern(A, lifted, consts, args[k]));
    }
  }

  lemma EvalPointwise<V>(A: Algebra<V>, regs: string -> V, op: string, xs: seq<Term>, ys: seq<Term>)
    requires Pointwise(SameValue(A, regs), xs, ys)
    ensures SameValue(A, regs)(TApp(op, xs), TApp(op, ys))
  {
    forall k | 0 <= k < |xs| ensures Eval(A, regs, xs[k]) == Eval(A, regs, ys[k]) {
      assert SameValue(A, regs)(xs[k], ys[k]);
    }
    assert Eval(A, regs, TApp(op, xs)) == A.app(op, seq(|xs|, k requires 0 <= k < |xs| => Eval(A, regs, xs[k])));
    assert Eval(A, regs, TApp(op, ys)) == A.app(op, seq(|ys|, k requires 0 <= k < |ys| => Eval(A, regs, ys[k])));
    assert seq(|xs|, k requires 0 <= k < |xs| => Eval(A, regs, xs[k]))
        == seq(|ys|, k requires 0 <= k < |ys| => Eval(A, regs, ys[k]));
  }

  lemma SameValueCongruence<V>(A: Algebra<V>, regs: string -> V)
    ensures Congruence(SameValue(A, regs))
  {
    forall op, xs, ys | Pointwise(SameValue(A, regs), xs, ys)
      ensures SameValue(A, regs)(TApp(op, xs), TApp(op, ys))
    {
      EvalPointwise(A, regs, op, xs, ys);
    }
  }

  lemma LicenseFromEquation<V(!new)>(A: Algebra<V>, regs: string -> V, from: PTerm, to: PTerm, side: SideCondition)
    requires EquationHolds(A, from, to, side)
    ensures Licenses(SameValue(A, regs), from, to, side)
  {
    forall vars: VarEnv, consts: ConstEnv | Admits(from, side, consts)
      ensures SameValue(A, regs)(Inst(from, vars, consts), Inst(to, vars, consts))
    {
      EvalInst(A, regs, from, vars, consts);
      EvalInst(A, regs, to, vars, consts);
    }
  }

  /** An algebra in which the rules are true equations gives, for every register valuation,
      a model of the ruleset: terms of equal value. */
  lemma AlgebraModels<V(!new)>(A: Algebra<V>, regs: string -> V, rules: seq<Rule>)
    requires WellFormedRules(rules) && RulesHold(A, rules)
    ensures Models(SameValue(A, regs), rules)
  {
    SameValueCongruence(A, regs);
    forall k | 0 <= k < |rules| ensures LicensesRule(SameValue(A, regs), rules[k]) {
      var r := rules[k];
      LicenseFromEquation(A, regs, Tree(r.lhs), Tree(r.rhs), r.side);
      if r.bidirectional {
        LicenseFromEquation(A, regs, Tree(r.rhs), Tree(r.lhs), r.side);
      }
    }
  }
}
