/** Rebuilding one instruction from an e-node, through the ordinary builder and edit interface. */
module Writeback {
  import opened Basics
  import opened Terms
  import opened WeaveTable
  import opened WeaveEdits
  import opened WeaveIr
  import opened OeuphBridge

  function ViewOr(t: Table, i: nat): InstrView {
    if i < |t| then ViewAt(t, i) else InstrView("", None, [])
  }

  /** What the instructions of a block say, in order. */
  function BlockView(t: Table, b: nat): seq<InstrView>
    requires b < |t|
  {
    seq(|t[b].children|, k requires 0 <= k < |t[b].children| => ViewOr(t, t[b].children[k]))
  }

  /** A detached instruction under construction at the end of an otherwise unchanged table. */
  ghost predicate Building(t0: Table, t: Table, opcode: string, dest: Option<string>, operands: seq<OperandView>) {
    && t0 < t
    && var n := t[|t0|];
       && n.kind == Instr && n.opcode == opcode && n.name == dest && !n.attached
       && (forall o :: o in n.children ==> |t0| < o && Is(t, o, Operand))
       && OperandsAt(t, n.children) == operands
  }

  lemma BuildOperandStep(t0: Table, t: Table, opcode: string, dest: Option<string>, operands: seq<OperandView>, o: IrNode)
    requires Building(t0, t, opcode, dest, operands) && o.kind == Operand
    ensures var t1 := AddNode(t, o);
            var t2 := t1[|t0| := t1[|t0|].(children := t1[|t0|].children + [|t|])];
            Building(t0, t2, opcode, dest, operands + [OperandAt([o], 0)])
  {
    var t1 := AddNode(t, o);
    var cs := t[|t0|].children;
    var t2 := t1[|t0| := t1[|t0|].(children := cs + [|t|])];
    forall k | 0 <= k < |cs| ensures OperandAt(t2, cs[k]) == OperandAt(t, cs[k]) {
      assert cs[k] in cs;
    }
    forall o' | o' in cs + [|t|] ensures |t0| < o' && Is(t2, o', Operand) {
      assert o' in cs || o' == |t|;
    }
    assert OperandsAt(t2, cs + [|t|]) == OperandsAt(t, cs) + [OperandAt([o], 0)];
  }

  /** Builds the operand of one child e-node. */
  method BuildOperand(ir: Module, child: ENode, built: nat, ghost t0: Table, ghost opcode: string, ghost dest: Option<string>,
                      ghost operands: seq<OperandView>) returns (ok: bool)
    requires ir.Valid() && built == |t0| && Building(t0, ir.nodes, opcode, dest, operands)
    modifies ir`nodes
    ensures ir.Valid() && ok
    ensures Building(t0, ir.nodes, opcode, dest, operands + [WrittenOperand(child)])
  {
    ghost var t := ir.nodes;
    var o;
    if child.isConst {
      o := ir.OperandNew(OpConstInt, None, TY_I64, child.value);
    } else {
      o := ir.OperandNew(OpReg, Some(child.reg), TY_VOID, 0);
    }
    BuildOperandStep(t0, t, opcode, dest, operands, ir.nodes[o]);
    ok := ir.InstrAddOperand(built, o);
  }

  /** Builds the instruction of an e-node, detached. */
  method BuildFrom(ir: Module, nodes: seq<ENode>, n: ENode, ty: nat, dest: Option<string>) returns (ok: bool, built: nat)
    requires ir.Valid() && WellFormedNode(n, |nodes|)
    modifies ir`nodes
    ensures ir.Valid() && ok && built == old(|ir.nodes|)
    ensures Building(old(ir.nodes), ir.nodes, n.opcode, dest, WrittenOperands(nodes, n))
  {
    ghost var t0 := ir.nodes;
    built := ir.InstrBuild(n.opcode, ty);
    if dest.Some? {
      ok := ir.InstrSetDest(built, dest);
    }
    assert OperandsAt(ir.nodes, []) == [];
    ghost var written: seq<OperandView> := [];
    var i := 0;
    while i < |n.children|
      invariant 0 <= i <= |n.children|
      invariant ir.Valid() && Building(t0, ir.nodes, n.opcode, dest, written)
      invariant written == WrittenOperands(nodes, n)[..i]
    {
      ok := BuildOperand(ir, nodes[n.children[i]], built, t0, n.opcode, dest, written);
      if !ok {
        return;
      }
      written := written + [WrittenOperand(nodes[n.children[i]])];
      i := i + 1;
    }
    assert written == WrittenOperands(nodes, n);
    ok := true;
  }

  /** One instruction of one block was replaced by a new one; nothing else a reader can see changed. */
  ghost predicate Rewritten(t0: Table, t': Table, ins: nat, view: InstrView)
    requires Listed(t0, ins)
  {
    var b := t0[ins].parent;
    && |t0| <= |t'|
    && (forall m :: 0 <= m < |t0| && m != b && m != ins ==> t'[m] == t0[m]) && t'[ins].kind == Instr
    && t'[b] == t0[b].(children := t'[b].children)
    && |t'[b].children| == |t0[b].children|
    && (forall c :: 0 <= c < |t0| && t0[c].kind == Block && c != b ==> BlockView(t', c) == BlockView(t0, c))
    && BlockView(t', b) == BlockView(t0, b)[PositionIn(t0[b].children, ins) := view]
    && (forall k :: 0 <= k < |t0[b].children| && k != PositionIn(t0[b].children, ins) ==>
          t'[b].children[k] == t0[b].children[k])
  }

  /** Another instruction of the original table keeps what it says. */
  lemma OtherInstrKept(t0: Table, functions: seq<nat>, t: Table, ins: nat, i: nat)
    requires Owned(t0, functions) && Listed(t0, ins) && t0 < t && Is(t, |t0|, Instr)
    requires Is(t0, i, Instr) && i != ins
    ensures var k := PositionIn(t0[t0[ins].parent].children, ins);
            t[t0[ins].parent] == t0[t0[ins].parent] && t[t0[ins].parent].children[k] == ins
            && ViewOr(ReplaceAt(t, t0[ins].parent, k, |t0|), i) == ViewOr(t0, i)
  {
    var k := PositionIn(t0[t0[ins].parent].children, ins);
    var t' := ReplaceAt(t, t0[ins].parent, k, |t0|);
    assert NodeOk(t0, i);
    assert t'[i] == t0[i];
    forall j | 0 <= j < |t0[i].children| ensures OperandAt(t', t0[i].children[j]) == OperandAt(t0, t0[i].children[j]) {
      assert t0[i].children[j] in t0[i].children;
    }
  }

  lemma BuiltKept(t0: Table, t: Table, ins: nat, opcode: string, dest: Option<string>, operands: seq<OperandView>)
    requires Listed(t0, ins) && Building(t0, t, opcode, dest, operands) && dest == t0[ins].name
    ensures var k := PositionIn(t0[t0[ins].parent].children, ins);
            t[t0[ins].parent] == t0[t0[ins].parent]
            && ViewOr(ReplaceAt(t, t0[ins].parent, k, |t0|), |t0|) == InstrView(opcode, dest, operands)
  {
    var k := PositionIn(t0[t0[ins].parent].children, ins);
    var t' := ReplaceAt(t, t0[ins].parent, k, |t0|);
    var cs := t[|t0|].children;
    forall j | 0 <= j < |cs| ensures OperandAt(t', cs[j]) == OperandAt(t, cs[j]) {
      assert cs[j] in cs;
    }
    assert OperandsAt(t', cs) == OperandsAt(t, cs);
  }

  lemma ReplaceRewrites(t0: Table, functions: seq<nat>, t: Table, ins: nat, opcode: string, dest: Option<string>, operands: seq<OperandView>)
    requires Owned(t0, functions) && Listed(t0, ins) && Building(t0, t, opcode, dest, operands) && dest == t0[ins].name
    ensures var k := PositionIn(t0[t0[ins].parent].children, ins);
            t[t0[ins].parent] == t0[t0[ins].parent]
            && Rewritten(t0, ReplaceAt(t, t0[ins].parent, k, |t0|), ins, InstrView(opcode, dest, operands))
  {
    var b := t0[ins].parent;
    var k := PositionIn(t0[b].children, ins);
    var t' := ReplaceAt(t, b, k, |t0|);
    BuiltKept(t0, t, ins, opcode, dest, operands);
    forall c, j | 0 <= c < |t0| && t0[c].kind == Block && 0 <= j < |t0[c].children| && t0[c].children[j] != ins
      ensures ViewOr(t', t0[c].children[j]) == ViewOr(t0, t0[c].children[j])
    {
      assert NodeOk(t0, c);
      assert t0[c].children[j] in t0[c].children;
      OtherInstrKept(t0, functions, t, ins, t0[c].children[j]);
    }
    assert NodeOk(t0, b);
    forall c | 0 <= c < |t0| && t0[c].kind == Block && c != b ensures BlockView(t', c) == BlockView(t0, c) {
      assert NodeOk(t0, c);
      assert ins !in t0[c].children;
    }
    assert BlockView(t', b) == BlockView(t0, b)[k := InstrView(opcode, dest, operands)];
  }

  /** Compares an instruction with the e-node chosen for it. */
  method NothingToDo(ir: Module, ins: nat, nodes: seq<ENode>, n: ENode) returns (same: bool)
    requires ins < |ir.nodes| && WellFormedNode(n, |nodes|)
    ensures same <==> AlreadyWritten(ViewAt(ir.nodes, ins), nodes, n)
  {
    var operands := ir.nodes[ins].children;
    if ir.nodes[ins].opcode != n.opcode || |operands| != |n.children| {
      return false;
    }
    same := true;
    var i := 0;
    while i < |n.children| && same
      invariant 0 <= i <= |n.children|
      invariant same ==> forall k :: 0 <= k < i ==> OperandMatches(OperandAt(ir.nodes, operands[k]), nodes[n.children[k]])
      invariant !same ==> exists k :: 0 <= k < i && !OperandMatches(OperandAt(ir.nodes, operands[k]), nodes[n.children[k]])
    {
      var (child, o) := (nodes[n.children[i]], operands[i]);
      var isInt := Is(ir.nodes, o, Operand) && ir.nodes[o].okind == OpConstInt;
      if child.isConst {
        same := isInt && ir.nodes[o].ival == child.value;
      } else {
        same := !isInt && Is(ir.nodes, o, Operand) && ir.nodes[o].name == Some(child.reg);
      }
      i := i + 1;
    }
  }

  /** Rewrites an instruction into its chosen e-node, unless the e-node is a leaf or already there. */
  method WritebackInstr(ir: Module, ins: nat, nodes: seq<ENode>, n: ENode) returns (written: bool)
    requires ir.Valid() && Listed(ir.nodes, ins) && WellFormedNode(n, |nodes|)
    modifies ir`nodes
    ensures ir.Valid()
    ensures written <==> !n.IsLeaf() && !old(AlreadyWritten(ViewAt(ir.nodes, ins), nodes, n))
    ensures !written ==> ir.nodes == old(ir.nodes)
    ensures written ==> Rewritten(old(ir.nodes), ir.nodes, ins, WrittenView(nodes, n, old(ir.nodes[ins].name)))
  {
    if n.IsLeaf() {
      return false;
    }
    var same := NothingToDo(ir, ins, nodes, n);
    if same {
      return false;
    }
    ghost var t0 := ir.nodes;
    var dest := ir.nodes[ins].name;
    var ok, built := BuildFrom(ir, nodes, n, ir.nodes[ins].ty, dest);
    if !ok {
      return false;
    }
    ReplaceRewrites(t0, ir.functions, ir.nodes, ins, n.opcode, dest, WrittenOperands(nodes, n));
    written := ir.InstrReplace(ins, built);
  }
}
