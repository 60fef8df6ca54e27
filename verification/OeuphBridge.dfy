/** From instructions to e-nodes and back. */
module OeuphBridge {
  import opened Basics
  import opened Terms
  import opened EGraphs
  import opened Soundness
  import opened Sweeps
  import opened WeaveTable
  import opened WeaveIr

  // ----- what an instruction says -----

  datatype OperandView = ViewInt(value: int) | ViewReg(name: string) | ViewOther(kind: OperandKind, text: Option<string>)

  datatype InstrView = InstrView(opcode: string, dest: Option<string>, operands: seq<OperandView>)

  function OperandAt(t: Table, o: nat): OperandView {
    if !Is(t, o, Operand) then ViewOther(OpReg, None)
    else if t[o].okind == OpConstInt then ViewInt(t[o].ival)
    else if t[o].okind == OpReg && t[o].name.Some? then ViewReg(t[o].name.value)
    else ViewOther(t[o].okind, t[o].name)
  }

  function OperandsAt(t: Table, os: seq<nat>): seq<OperandView> {
    seq(|os|, k requires 0 <= k < |os| => OperandAt(t, os[k]))
  }

  function ViewAt(t: Table, i: nat): InstrView
    requires i < |t|
  {
    InstrView(t[i].opcode, t[i].name, OperandsAt(t, t[i].children))
  }

  /** Registers and integers only. */
  predicate Plain(v: InstrView) {
    forall k :: 0 <= k < |v.operands| ==> !v.operands[k].ViewOther?
  }

  /** An instruction the e-graph represents exactly: registers and integers, every name short enough
      for its buffer, and an opcode or operands to tell it from a register. */
  predicate Clean(v: InstrView) {
    && Plain(v) && (v.opcode != "" || v.operands != []) && |v.opcode| <= NAME_LIMIT && |v.operands| <= MAX_CHILDREN
    && forall k :: 0 <= k < |v.operands| && v.operands[k].ViewReg? ==> |v.operands[k].name| <= NAME_LIMIT
  }

  function OperandTerm(o: OperandView): Term {
    match o
    case ViewInt(v) => TConst(v)
    case ViewReg(x) => TReg(x)
    case ViewOther(_, _) => TReg("")
  }

  function OperandTerms(os: seq<OperandView>): seq<Term> {
    seq(|os|, k requires 0 <= k < |os| => OperandTerm(os[k]))
  }

  /** The term an instruction computes. */
  function ViewTerm(v: InstrView): Term {
    TApp(v.opcode, OperandTerms(v.operands))
  }

  // ----- what import makes of an instruction -----

  /** The name an operand is known by in the e-graph. */
  function KnownName(o: OperandView): string
    requires !o.ViewInt?
  {
    match o
    case ViewReg(x) => Trunc(x)
    case ViewOther(_, x) => Trunc(if x.Some? then x.value else "")
  }

  function RenamedOperand(o: OperandView): OperandView {
    if o.ViewInt? then o else ViewReg(KnownName(o))
  }

  function RenamedOperands(os: seq<OperandView>): seq<OperandView> {
    seq(|os|, k requires 0 <= k < |os| => RenamedOperand(os[k]))
  }

  /** Every name cut to its buffer, every operand that is no integer a register, nameless ones register "". */
  function Renamed(v: InstrView): InstrView {
    InstrView(Trunc(v.opcode), v.dest, RenamedOperands(v.operands))
  }

  /** The term that import gives an instruction. */
  function ImportedTerm(v: InstrView): Term {
    if v.opcode == "" && v.operands == [] then TReg("") else ViewTerm(Renamed(v))
  }

  /** For instructions over registers and integers, import is exact if and only if they are clean. */
  lemma ImportExactly(v: InstrView)
    requires Plain(v) && |v.operands| <= MAX_CHILDREN
    ensures ImportedTerm(v) == ViewTerm(v) <==> Clean(v)
  {
    var (us, vs) := (OperandTerms(RenamedOperands(v.operands)), OperandTerms(v.operands));
    assert forall k :: 0 <= k < |v.operands| ==>
                         (us[k] == vs[k] <==> (v.operands[k].ViewReg? ==> |v.operands[k].name| <= NAME_LIMIT));
    if Clean(v) {
      assert us == vs;
    } else if |v.opcode| <= NAME_LIMIT && (v.opcode != "" || v.operands != []) {
      var k :| 0 <= k < |v.operands| && v.operands[k].ViewReg? && |v.operands[k].name| > NAME_LIMIT;
      assert us[k] != vs[k];
    }
  }

  /** Of any number of instructions that differ only behind their buffers, the e-graph sees one. */
  lemma RenamedAlike(v: InstrView, w: InstrView)
    requires Renamed(v) == Renamed(w)
    ensures ImportedTerm(v) == ImportedTerm(w)
  {
    assert |v.operands| == |RenamedOperands(v.operands)| == |w.operands|;
    if v.opcode == "" || w.opcode == "" {
      assert v.opcode == w.opcode;
    }
  }

  // ----- import -----

  lemma DiscreteSound(rules: seq<Rule>, s: Graph)
    requires WellFormedRules(rules) && Discrete(s.rt)
    ensures AllSound(rules, s.nodes, s.rt)
  {
  }

  /** What fits the record of an e-node. */
  predicate FitsRecord(n: ENode) {
    Bare(n) && (!n.isConst ==> n.value == 0) && |n.opcode| <= NAME_LIMIT && |n.reg| <= NAME_LIMIT
  }

  /** What every import step keeps. */
  ghost predicate Fresh(s: Graph) {
    && Discrete(s.rt) && IsClosed(s) && HashConsed(s.nodes)
    && forall i :: 0 <= i < |s.nodes| ==> FitsRecord(s.nodes[i])
  }

  /** Hash-consing keeps a fresh e-graph fresh, and finds exactly the e-node asked for. */
  lemma AddedFresh(s: Graph, n: ENode)
    requires Fresh(s) && WellFormedNode(n, |s.nodes|) && FitsRecord(n)
    ensures Fresh(Added(s, n).0) && s.nodes <= Added(s, n).0.nodes && Added(s, n).0.nodes[Added(s, n).1] == n
    ensures Added(s, n).0.nodes == s.nodes || Added(s, n).0.nodes == s.nodes + [n]
  {
    var (g, id) := Added(s, n);
    AddedClosed(s, n);
    AddedHashConsed(s, n);
    if g == s {
      assert AlikeTo(s, id, n);
      assert s.nodes[id].children == n.children;
    }
  }

  /** Imported so far: leaves only. */
  ghost predicate LeavesOnly(s: Graph) {
    Fresh(s) && forall i :: 0 <= i < |s.nodes| ==> TrueLeaf(s.nodes[i])
  }

  /** The leaf of an operand: a constant, or whatever name the operand has. */
  function OperandLeaf(o: OperandView): (n: ENode)
    ensures TrueLeaf(n) && FitsRecord(n)
  {
    if o.ViewInt? then ENode("", true, o.value, "", []) else ENode("", false, 0, KnownName(o), [])
  }

  method ImportOperand(g: EGraph, ir: Module, o: nat) returns (id: nat)
    requires g.Valid() && LeavesOnly(g.Now())
    modifies g
    ensures g.Valid() && LeavesOnly(g.Now()) && old(g.nodes) <= g.nodes
    ensures id < |g.nodes| && g.nodes[id] == OperandLeaf(OperandAt(ir.nodes, o))
  {
    var n;
    if Is(ir.nodes, o, Operand) && ir.nodes[o].okind == OpConstInt {
      n := ENode("", true, ir.nodes[o].ival, "", []);
    } else {
      var name := if Is(ir.nodes, o, Operand) then ir.nodes[o].name else None;
      n := ENode("", false, 0, Trunc(if name.Some? then name.value else ""), []);
    }
    AddedFresh(g.Now(), n);
    id := g.AddNode(n);
  }

  /** The leaves of operands, in order. */
  ghost predicate LeavesOf(s: Graph, os: seq<OperandView>, kids: seq<nat>) {
    && |kids| == |os|
    && forall k :: 0 <= k < |os| ==> kids[k] < |s.nodes| && s.nodes[kids[k]] == OperandLeaf(os[k])
  }

  /** What an imported instruction is in its e-graph: one e-node over the leaves of its operands, and
      nothing else but leaves. */
  ghost predicate Imported(s: Graph, root: nat, v: InstrView) {
    && Fresh(s) && root < |s.nodes|
    && var n := s.nodes[root];
       && !n.isConst && n.opcode == Trunc(v.opcode) && n.reg == ""
       && LeavesOf(s, v.operands, n.children)
       && forall i :: 0 <= i < |s.nodes| && i != root ==> TrueLeaf(s.nodes[i])
  }

  /** One instruction becomes one e-node over the leaves of its operands; more than four operands
      cannot be represented. */
  method ImportInstr(g: EGraph, ir: Module, ins: nat) returns (root: Option<nat>)
    requires g.Valid() && g.nodes == [] && ins < |ir.nodes|
    modifies g
    ensures g.Valid()
    ensures root.None? <==> |ir.nodes[ins].children| > MAX_CHILDREN
    ensures root.Some? ==> Imported(g.Now(), root.value, ViewAt(ir.nodes, ins))
    ensures root.Some? ==> TermOf(g.nodes, root.value) == ImportedTerm(ViewAt(ir.nodes, ins))
  {
    var operands := ir.nodes[ins].children;
    ghost var v := ViewAt(ir.nodes, ins);
    if |operands| > MAX_CHILDREN {
      return None;
    }
    var kids: seq<nat> := [];
    var i := 0;
    while i < |operands|
      invariant 0 <= i <= |operands| && g.Valid() && LeavesOnly(g.Now()) && LeavesOf(g.Now(), v.operands[..i], kids)
    {
      ghost var before := g.Now();
      var child := ImportOperand(g, ir, operands[i]);
      LeavesOfMore(before, g.Now(), v.operands, i, kids, child);
      kids := kids + [child];
      i := i + 1;
    }
    assert v.operands[..i] == v.operands;
    ghost var s, n := g.Now(), ENode(Trunc(v.opcode), false, 0, "", kids);
    AddedFresh(s, n);
    var id := g.AddNode(ENode(Trunc(ir.nodes[ins].opcode), false, 0, "", kids));
    RootImported(s, g.Now(), n, id, v);
    ImportedDenotes(g.Now(), id, v);
    return Some(id);
  }

  lemma LeavesOfMore(s: Graph, g: Graph, os: seq<OperandView>, i: nat, kids: seq<nat>, child: nat)
    requires i < |os| && LeavesOf(s, os[..i], kids) && s.nodes <= g.nodes
    requires child < |g.nodes| && g.nodes[child] == OperandLeaf(os[i])
    ensures LeavesOf(g, os[..i + 1], kids + [child])
  {
    forall k | 0 <= k < i + 1 ensures (kids + [child])[k] < |g.nodes| && g.nodes[(kids + [child])[k]] == OperandLeaf(os[..i + 1][k]) {
      if k < i {
        assert os[..i][k] == os[..i + 1][k];
      }
    }
  }

  lemma RootImported(s: Graph, g: Graph, n: ENode, id: nat, v: InstrView)
    requires LeavesOnly(s) && Fresh(g) && s.nodes <= g.nodes && id < |g.nodes| && g.nodes[id] == n
    requires g.nodes == s.nodes || g.nodes == s.nodes + [n]
    requires !n.isConst && n.opcode == Trunc(v.opcode) && n.reg == "" && LeavesOf(s, v.operands, n.children)
    ensures Imported(g, id, v)
  {
    forall i | 0 <= i < |g.nodes| && i != id ensures TrueLeaf(g.nodes[i]) {
      if i == |s.nodes| {
        assert SameNode(g.nodes[i], g.nodes[id]);
      }
    }
    forall k | 0 <= k < |v.operands| ensures g.nodes[n.children[k]] == OperandLeaf(v.operands[k]) {
      assert g.nodes[n.children[k]] == s.nodes[n.children[k]];
    }
  }

  lemma ImportedDenotes(s: Graph, id: nat, v: InstrView)
    requires Imported(s, id, v)
    ensures TermOf(s.nodes, id) == ImportedTerm(v)
  {
    var cs := s.nodes[id].children;
    forall k | 0 <= k < |cs| ensures TermOf(s.nodes, cs[k]) == OperandTerm(RenamedOperand(v.operands[k])) {
      assert s.nodes[cs[k]] == OperandLeaf(v.operands[k]);
    }
    assert seq(|cs|, k requires 0 <= k < |cs| => TermOf(s.nodes, cs[k])) == OperandTerms(RenamedOperands(v.operands));
  }

  // ----- writeback -----

  /** The operand written for a child e-node: its constant, or a register with its name field. */
  function WrittenOperand(child: ENode): OperandView {
    if child.isConst then ViewInt(child.value) else ViewReg(child.reg)
  }

  function WrittenOperands(nodes: seq<ENode>, n: ENode): seq<OperandView>
    requires WellFormedNode(n, |nodes|)
  {
    seq(|n.children|, k requires 0 <= k < |n.children| => WrittenOperand(nodes[n.children[k]]))
  }

  /** The instruction written for an e-node. */
  function WrittenView(nodes: seq<ENode>, n: ENode, dest: Option<string>): InstrView
    requires WellFormedNode(n, |nodes|)
  {
    InstrView(n.opcode, dest, WrittenOperands(nodes, n))
  }

  predicate LeafChildren(nodes: seq<ENode>, n: ENode)
    requires WellFormedNode(n, |nodes|)
  {
    forall k :: 0 <= k < |n.children| ==> TrueLeaf(nodes[n.children[k]])
  }

  /** Writeback is faithful exactly when every child is a leaf: then the written instruction
      computes the very term of the e-node, and otherwise it computes a different term. */
  lemma WritebackFaithful(nodes: seq<ENode>, i: nat, dest: Option<string>)
    requires WellFormedNodes(nodes) && i < |nodes| && WellFormedNode(nodes[i], |nodes|) && !nodes[i].IsLeaf()
    ensures ViewTerm(WrittenView(nodes, nodes[i], dest)) == TermOf(nodes, i) <==> LeafChildren(nodes, nodes[i])
  {
    var n := nodes[i];
    var us := OperandTerms(WrittenOperands(nodes, n));
    var vs := seq(|n.children|, k requires 0 <= k < |n.children| => TermOf(nodes, n.children[k]));
    assert TermOf(nodes, i) == TApp(n.opcode, vs);
    assert forall k :: 0 <= k < |n.children| ==> (us[k] == vs[k] <==> TrueLeaf(nodes[n.children[k]]));
    if LeafChildren(nodes, n) {
      assert us == vs;
    } else {
      var k :| 0 <= k < |n.children| && !TrueLeaf(nodes[n.children[k]]);
      assert us[k] != vs[k];
    }
  }

  /** The comparison that decides whether there is anything to write. */
  function OperandMatches(o: OperandView, child: ENode): bool {
    if child.isConst then o == ViewInt(child.value)
    else match o
         case ViewInt(_) => false
         case ViewReg(x) => x == child.reg
         case ViewOther(_, x) => x == Some(child.reg)
  }

  ghost predicate AlreadyWritten(v: InstrView, nodes: seq<ENode>, n: ENode)
    requires WellFormedNode(n, |nodes|)
  {
    && v.opcode == n.opcode && |v.operands| == |n.children|
    && forall k :: 0 <= k < |n.children| ==> OperandMatches(v.operands[k], nodes[n.children[k]])
  }

  // ----- an instruction whose e-graph is never changed -----

  /** Written back from its own e-node, an instruction stays untouched when its opcode is empty, or when
      opcode and names fit their buffers and every operand that is no integer has a name. */
  predicate KeptAsIs(v: InstrView) {
    || |v.operands| > MAX_CHILDREN || v.opcode == ""
    || (|v.opcode| <= NAME_LIMIT && forall k :: 0 <= k < |v.operands| ==> KeptOperand(v.operands[k]))
  }

  predicate KeptOperand(o: OperandView) {
    match o
    case ViewInt(_) => true
    case ViewReg(x) => |x| <= NAME_LIMIT
    case ViewOther(_, x) => x.Some? && |x.value| <= NAME_LIMIT
  }

  /** The comparison with its own e-node succeeds exactly for those, and what is written otherwise is the
      instruction with its names cut. */
  lemma OwnNode(s: Graph, root: nat, v: InstrView)
    requires Imported(s, root, v) && WellFormedNode(s.nodes[root], |s.nodes|)
    ensures s.nodes[root].IsLeaf() || AlreadyWritten(v, s.nodes, s.nodes[root]) <==> KeptAsIs(v)
    ensures WrittenView(s.nodes, s.nodes[root], v.dest) == Renamed(v)
  {
    var n := s.nodes[root];
    forall k | 0 <= k < |v.operands|
      ensures OperandMatches(v.operands[k], s.nodes[n.children[k]]) <==> KeptOperand(v.operands[k])
      ensures WrittenOperand(s.nodes[n.children[k]]) == RenamedOperand(v.operands[k])
    {
      assert s.nodes[n.children[k]] == OperandLeaf(v.operands[k]);
    }
    assert WrittenOperands(s.nodes, n) == RenamedOperands(v.operands);
  }
}
