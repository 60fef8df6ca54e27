/** Small modules: a merge that keeps everything, one that uncovers a jump, one that removes the entry
block, one that never ends, and a block whose successors are counted twice. */
module WeaveExamples {
  import opened Basics
  import opened WeaveTable
  import opened WeaveCfg
  import opened WeaveRuns
  import opened WeaveEdits

  /** One function with blocks a (2), b (3) and c (4) in the given layout.  Block a ends in a jump to b;
      before it, if `earlier`, stands a jump to c.  Blocks b and c are empty. */
  function Example(layout: seq<nat>, earlier: bool): Table {
    [BLANK,
     BLANK.(kind := Function, name := Some("f"), children := layout),
     BLANK.(kind := Block, parent := 1, name := Some("a"), children := if earlier then [5, 6] else [6]),
     BLANK.(kind := Block, parent := 1, name := Some("b")),
     BLANK.(kind := Block, parent := 1, name := Some("c")),
     BLANK.(kind := Instr, parent := if earlier then 2 else 0, attached := earlier, opcode := "br", children := [7]),
     BLANK.(kind := Instr, parent := 2, attached := true, opcode := "br", children := [8]),
     BLANK.(kind := Operand, okind := OpBlock, name := Some("c")),
     BLANK.(kind := Operand, okind := OpBlock, name := Some("b"))]
  }

  /** What the proofs need to know of the example. */
  ghost predicate Shape(t: Table, layout: seq<nat>, earlier: bool) {
    && |t| == 9 && t[0].kind == Dead
    && t[1].kind == Function && t[1].children == layout
    && t[2].kind == Block && t[2].parent == 1 && t[2].name == Some("a") && t[2].children == (if earlier then [5, 6] else [6])
    && t[3].kind == Block && t[3].parent == 1 && t[3].name == Some("b") && t[3].children == []
    && t[4].kind == Block && t[4].parent == 1 && t[4].name == Some("c") && t[4].children == []
    && t[5].kind == Instr && t[5].opcode == "br" && t[5].children == [7] && t[5].attached == earlier && (earlier ==> t[5].parent == 2)
    && t[6].kind == Instr && t[6].opcode == "br" && t[6].children == [8] && t[6].attached && t[6].parent == 2
    && t[7].kind == Operand && t[7].okind == OpBlock && t[7].name == Some("c")
    && t[8].kind == Operand && t[8].okind == OpBlock && t[8].name == Some("b")
  }

  lemma ExampleShape(layout: seq<nat>, earlier: bool)
    ensures Shape(Example(layout, earlier), layout, earlier)
  {
  }

  ghost predicate Layouts(layout: seq<nat>, k: nat) {
    (layout == [2, 3, 4] && k == 1) || (layout == [3, 2, 4] && k == 0)
  }

  lemma ShapeOwned(t: Table, layout: seq<nat>, earlier: bool, k: nat)
    requires Shape(t, layout, earlier) && Layouts(layout, k)
    ensures Owned(t, [1])
  {
    ShapeBlocks(t, layout, earlier, k);
    ShapeInstrs(t, layout, earlier);
  }

  lemma ShapeBlocks(t: Table, layout: seq<nat>, earlier: bool, k: nat)
    requires Shape(t, layout, earlier) && Layouts(layout, k)
    ensures FunctionOk(t, 1) && BlockOk(t, 2) && BlockOk(t, 3) && BlockOk(t, 4)
  {
    assert 2 in layout && 3 in layout && 4 in layout;
  }

  lemma ShapeInstrs(t: Table, layout: seq<nat>, earlier: bool)
    requires Shape(t, layout, earlier)
    ensures InstrOk(t, 5) && InstrOk(t, 6)
  {
    assert earlier ==> t[2].children[0] == 5;
    assert t[2].children[|t[2].children| - 1] == 6;
  }

  lemma OneOperand(t: Table, layout: seq<nat>, o: nat)
    requires OperandTarget(t, layout, o) != 0
    ensures Resolved(t, layout, [o]) == [OperandTarget(t, layout, o)]
    ensures Dedup(Resolved(t, layout, [o])) == Resolved(t, layout, [o])
  {
    assert [o][..0] == [] && Resolved(t, layout, []) == [];
    var x := OperandTarget(t, layout, o);
    assert [] + [x] == [x] && [x][..0] == [] && Dedup([]) == [];
  }

  lemma ShapeTarget(t: Table, layout: seq<nat>, earlier: bool, k: nat)
    requires Shape(t, layout, earlier) && Layouts(layout, k)
    ensures OperandTarget(t, layout, 8) == 3
  {
    if layout[0] == 2 {
      assert layout[1..] == [3, 4] && FirstNamed(t, [3, 4], Some("b")) == 3;
    }
  }

  lemma ShapeSuccs(t: Table, layout: seq<nat>, earlier: bool, k: nat)
    requires Shape(t, layout, earlier) && Layouts(layout, k)
    ensures RawTargets(t, 2) == [3] == Succs(t, 2) && Succs(t, 3) == [] == Succs(t, 4)
  {
    ShapeTarget(t, layout, earlier, k);
    assert t[2].children[|t[2].children| - 1] == 6 && JumpOperands(t, 2) == [8] && Layout(t, 2) == layout;
    OneOperand(t, layout, 8);
  }

  lemma OnlyMember(s: seq<nat>, x: nat)
    requires NoDup(s) && x in s && forall y :: y in s ==> y == x
    ensures |s| == 1
  {
    forall i | 0 <= i < |s| ensures s[i] == x {
      assert s[i] in s;
    }
    PositionUnique(s, 0);
    PositionUnique(s, |s| - 1);
  }

  lemma ShapeMergeable(t: Table, layout: seq<nat>, earlier: bool, k: nat)
    requires Shape(t, layout, earlier) && Layouts(layout, k)
    ensures Mergeable(t, 2, 3)
  {
    ShapeSuccs(t, layout, earlier, k);
    ShapePreds(t, layout, earlier, k);
  }

  lemma ShapePreds(t: Table, layout: seq<nat>, earlier: bool, k: nat)
    requires Shape(t, layout, earlier) && Layouts(layout, k)
    ensures |Preds(t, 3)| == 1
  {
    ShapeSuccs(t, layout, earlier, k);
    LayoutMembers(layout, k);
    OnePred(t, layout, 2, 3);
  }

  lemma LayoutMembers(layout: seq<nat>, k: nat)
    requires Layouts(layout, k)
    ensures NoDup(layout) && 2 in layout && forall x :: x in layout ==> x == 2 || x == 3 || x == 4
  {
  }

  lemma OnePred(t: Table, layout: seq<nat>, a: nat, b: nat)
    requires Is(t, b, Block) && Layout(t, b) == layout && NoDup(layout) && a in layout
    requires forall x :: x in layout ==> (b in Succs(t, x) <==> x == a)
    ensures |Preds(t, b)| == 1
  {
    FilterMembers(t, layout, b);
    OnlyMember(Filter(t, layout, b), a);
  }

  /** The merge of b into a is accepted; b is at position `k` of the layout. */
  lemma ExampleMergeable(layout: seq<nat>, earlier: bool, k: nat)
    requires Layouts(layout, k)
    ensures var t := Example(layout, earlier); Owned(t, [1]) && Mergeable(t, 2, 3) && MergeArgs(t, 2, 3, k)
  {
    var t := Example(layout, earlier);
    ExampleShape(layout, earlier);
    ShapeOwned(t, layout, earlier, k);
    ShapeMergeable(t, layout, earlier, k);
    assert NodeOk(t, 2) && NodeOk(t, 3) && layout[k] == 3;
  }

  lemma ShapeOtherTarget(t: Table, layout: seq<nat>)
    requires Shape(t, [2, 3, 4], true) && layout == [2, 4]
    ensures OperandTarget(t, layout, 7) == 4
  {
    assert layout[1..] == [4] && FirstNamed(t, [4], Some("c")) == 4;
  }

  lemma ShapeUncovered(t: Table)
    requires Shape(t, [2, 3, 4], true)
    ensures Uncovered(t, 2, 1) == [4]
  {
    var rest := RemoveAt(t[1].children, 1);
    assert rest == [2, 4];
    ShapeOtherTarget(t, rest);
    OneOperand(t, rest, 7);
    assert t[2].children[0] == 5;
  }

  /** Block b is appended to block a, and every run is kept. */
  lemma CleanMerge()
    ensures var t := Example([2, 3, 4], false);
            && Owned(t, [1]) && Mergeable(t, 2, 3) && MergeArgs(t, 2, 3, 1)
            && RunsKept(FlowOf(t), FlowOf(MergeBlocks(t, 2, 3, 1)), Region(t, 1, 3))
  {
    var t := Example([2, 3, 4], false);
    ExampleMergeable([2, 3, 4], false, 1);
    ExampleShape([2, 3, 4], false);
    KeptInstance(t, [1], 2, 3, 1, 1);
  }

  lemma KeptInstance(t: Table, functions: seq<nat>, a: nat, b: nat, k: nat, f: nat)
    requires Owned(t, functions) && Mergeable(t, a, b) && MergeArgs(t, a, b, k) && a != b && t[a].parent == f
    requires Uncovered(t, a, k) == []
    ensures RunsKept(FlowOf(t), FlowOf(MergeBlocks(t, a, b, k)), Region(t, f, b))
  {
    MergeKeepsRunsExactly(t, functions, a, b, k);
  }

  lemma UncoveredInstance(t: Table, functions: seq<nat>, a: nat, b: nat, k: nat, f: nat)
    requires Owned(t, functions) && Mergeable(t, a, b) && MergeArgs(t, a, b, k) && a != b && t[a].parent == f
    requires t[b].children == [] && Uncovered(t, a, k) != []
    ensures RawTargets(MergeBlocks(t, a, b, k), a) == Uncovered(t, a, k)
    ensures !RunsKept(FlowOf(t), FlowOf(MergeBlocks(t, a, b, k)), Region(t, f, b))
  {
    EmptySecond(t, functions, a, b, k);
    MergeKeepsRunsExactly(t, functions, a, b, k);
  }

  /** Dropping the jump to the empty block b uncovers the jump to c, which was never taken before. */
  lemma JumpUncovered()
    ensures var t := Example([2, 3, 4], true);
            && Owned(t, [1]) && Mergeable(t, 2, 3) && MergeArgs(t, 2, 3, 1)
            && RawTargets(t, 2) == [3] && RawTargets(MergeBlocks(t, 2, 3, 1), 2) == [4]
            && !RunsKept(FlowOf(t), FlowOf(MergeBlocks(t, 2, 3, 1)), Region(t, 1, 3))
  {
    var t := Example([2, 3, 4], true);
    ExampleMergeable([2, 3, 4], true, 1);
    ExampleShape([2, 3, 4], true);
    ShapeSuccs(t, [2, 3, 4], true, 1);
    ShapeUncovered(t);
    UncoveredInstance(t, [1], 2, 3, 1, 1);
  }

  /** The function starts at b and runs nothing else; after the merge it starts at a. */
  lemma EntryRemoved()
    ensures var t := Example([3, 2, 4], false);
            && Owned(t, [1]) && Mergeable(t, 2, 3) && MergeArgs(t, 2, 3, 0)
            && Entry(t, 1) == Some(3) != Entry(MergeBlocks(t, 2, 3, 0), 1)
  {
    ExampleMergeable([3, 2, 4], false, 0);
    MergeKeepsEntry(Example([3, 2, 4], false), [1], 2, 3, 0);
  }

  // ----- a block that jumps to itself -----

  /** One function with one block a (2), which adds (3) and jumps (4) to itself. */
  function Loop(): Table {
    [BLANK,
     BLANK.(kind := Function, name := Some("f"), children := [2]),
     BLANK.(kind := Block, parent := 1, name := Some("a"), children := [3, 4]),
     BLANK.(kind := Instr, parent := 2, attached := true, opcode := "add"),
     BLANK.(kind := Instr, parent := 2, attached := true, opcode := "br", children := [5]),
     BLANK.(kind := Operand, okind := OpBlock, name := Some("a"))]
  }

  ghost predicate LoopShape(t: Table) {
    && |t| == 6 && t[0].kind == Dead
    && t[1].kind == Function && t[1].children == [2]
    && t[2].kind == Block && t[2].parent == 1 && t[2].name == Some("a") && t[2].children == [3, 4]
    && t[3].kind == Instr && t[3].children == [] && t[3].attached && t[3].parent == 2
    && t[4].kind == Instr && t[4].opcode == "br" && t[4].children == [5] && t[4].attached && t[4].parent == 2
    && t[5].kind == Operand && t[5].okind == OpBlock && t[5].name == Some("a")
  }

  lemma LoopOwned(t: Table)
    requires LoopShape(t)
    ensures Owned(t, [1])
  {
    assert 2 in t[1].children && t[2].children[0] == 3 && t[2].children[1] == 4;
    assert FunctionOk(t, 1) && BlockOk(t, 2);
    assert InstrOk(t, 3) && InstrOk(t, 4);
  }

  lemma LoopMergeable(t: Table)
    requires LoopShape(t)
    ensures Mergeable(t, 2, 2)
  {
    var layout := [2];
    assert t[2].children[|t[2].children| - 1] == 4 && JumpOperands(t, 2) == [5] && Layout(t, 2) == layout;
    assert OperandTarget(t, layout, 5) == 2;
    OneOperand(t, layout, 5);
    OnePred(t, layout, 2, 2);
  }

  lemma LoopDiverges(t: Table)
    requires LoopShape(t)
    ensures SelfMergeDiverges(t, 2, 2)
  {
    LoopMergeable(t);
  }

  lemma LoopIsLoop()
    ensures LoopShape(Loop())
  {
  }

  /** Merging the block with itself passes every test, and its copying loop never ends. */
  lemma SelfMergeExample()
    ensures Owned(Loop(), [1]) && SelfMergeDiverges(Loop(), 2, 2)
    ensures forall n: nat :: |PushLoop([3], n)| == 1 + n
  {
    LoopIsLoop();
    LoopOwned(Loop());
    LoopDiverges(Loop());
    forall n: nat ensures |PushLoop([3], n)| == 1 + n {
      PushLoopGrows([3], n);
    }
  }

  // ----- a block with two edges to one successor -----

  /** One function with blocks a (2) and b (3); a branches (4) to b either way. */
  function TwoEdges(): Table {
    [BLANK,
     BLANK.(kind := Function, name := Some("f"), children := [2, 3]),
     BLANK.(kind := Block, parent := 1, name := Some("a"), children := [4]),
     BLANK.(kind := Block, parent := 1, name := Some("b")),
     BLANK.(kind := Instr, parent := 2, attached := true, opcode := "br.cond", children := [5, 6]),
     BLANK.(kind := Operand, okind := OpBlock, name := Some("b")),
     BLANK.(kind := Operand, okind := OpBlock, name := Some("b"))]
  }

  ghost predicate TwoEdgesShape(t: Table) {
    && |t| == 7 && t[0].kind == Dead
    && t[1].kind == Function && t[1].children == [2, 3]
    && t[2].kind == Block && t[2].parent == 1 && t[2].name == Some("a") && t[2].children == [4]
    && t[3].kind == Block && t[3].parent == 1 && t[3].name == Some("b") && t[3].children == []
    && t[4].kind == Instr && t[4].opcode == "br.cond" && t[4].children == [5, 6] && t[4].attached && t[4].parent == 2
    && t[5].kind == Operand && t[5].okind == OpBlock && t[5].name == Some("b")
    && t[6].kind == Operand && t[6].okind == OpBlock && t[6].name == Some("b")
  }

  lemma TwoEdgesOwned(t: Table)
    requires TwoEdgesShape(t)
    ensures Owned(t, [1])
  {
    assert t[1].children[0] == 2 && t[1].children[1] == 3 && t[2].children[0] == 4;
    assert FunctionOk(t, 1) && BlockOk(t, 2) && BlockOk(t, 3);
    assert InstrOk(t, 4);
  }

  lemma TwoEdgesTargets(t: Table)
    requires TwoEdgesShape(t)
    ensures RawTargets(t, 2) == [3, 3] && Succs(t, 2) == [3]
  {
    var layout := [2, 3];
    assert t[2].children[|t[2].children| - 1] == 4 && JumpOperands(t, 2) == [5, 6] && Layout(t, 2) == layout;
    TwoEdgesEach(t, layout);
    OneOperand(t, layout, 5);
    ResolvedTwice(t, layout, 5, 6, 3);
    assert [3] + [3] == [3, 3];
    DedupStep([3], 3);
  }

  lemma TwoEdgesEach(t: Table, layout: seq<nat>)
    requires TwoEdgesShape(t) && layout == [2, 3]
    ensures OperandTarget(t, layout, 5) == OperandTarget(t, layout, 6) == 3
  {
    assert layout[1..] == [3] && FirstNamed(t, [3], Some("b")) == 3;
  }

  lemma ResolvedTwice(t: Table, layout: seq<nat>, a: nat, b: nat, x: nat)
    requires OperandTarget(t, layout, a) == OperandTarget(t, layout, b) == x != 0 && Resolved(t, layout, [a]) == [x]
    ensures Resolved(t, layout, [a, b]) == [x] + [x]
  {
    assert [a, b][..1] == [a];
  }

  /** The block has one successor, but two are counted. */
  lemma SuccessorCountedTwice()
    ensures Owned(TwoEdges(), [1]) && Succs(TwoEdges(), 2) == [3] && Counted(RawTargets(TwoEdges(), 2), 0) == 2
  {
    var t := TwoEdges();
    assert TwoEdgesShape(t);
    TwoEdgesOwned(t);
    TwoEdgesTargets(t);
    CountedExactly(RawTargets(t, 2), 0);
  }
}
