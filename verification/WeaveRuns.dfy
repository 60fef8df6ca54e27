/** Deleting an unreachable block and merging a block into its only predecessor leave every run
of the function as it was. */
module WeaveRuns {
  import opened Basics
  import opened WeaveTable
  import opened WeaveCfg

  /** Function `f` lost block `b` from position `k`; the other blocks kept their names, and the
      operands theirs. */
  ghost predicate LosesBlock(t: Table, t': Table, f: nat, b: nat, k: nat) {
    && |t'| == |t| && Is(t, f, Function) && Is(t', f, Function) && NoDup(t[f].children)
    && k < |t[f].children| && t[f].children[k] == b && t'[f].children == RemoveAt(t[f].children, k)
    && (forall c :: c in t[f].children && c != b ==>
          c < |t| && t'[c].kind == t[c].kind && t'[c].name == t[c].name && t'[c].parent == t[c].parent)
    && (forall o :: 0 <= o < |t| && (t[o].kind == Operand || t'[o].kind == Operand) ==> t'[o] == t[o])
  }

  lemma {:induction false} FirstNamedSame(t: Table, t': Table, blocks: seq<nat>, name: Option<string>)
    requires |t'| == |t|
    requires forall c :: c in blocks ==> c < |t| && t'[c].kind == t[c].kind && t'[c].name == t[c].name
    ensures FirstNamed(t', blocks, name) == FirstNamed(t, blocks, name)
  {
    if blocks != [] {
      assert forall c :: c in blocks[1..] ==> c in blocks;
      FirstNamedSame(t, t', blocks[1..], name);
    }
  }

  /** A name that did not resolve to the lost block resolves as before. */
  lemma {:induction false} FirstNamedWithout(t: Table, t': Table, blocks: seq<nat>, k: nat, name: Option<string>)
    requires |t'| == |t| && k < |blocks| && NoDup(blocks)
    requires forall c :: c in blocks && c != blocks[k] ==> c < |t| && t'[c].kind == t[c].kind && t'[c].name == t[c].name
    requires FirstNamed(t, blocks, name) != blocks[k] && blocks[k] != 0
    ensures FirstNamed(t', RemoveAt(blocks, k), name) == FirstNamed(t, blocks, name)
  {
    var rest := RemoveAt(blocks, k);
    if k == 0 {
      assert rest == blocks[1..];
      FirstNamedSame(t, t', rest, name);
    } else {
      assert rest == [blocks[0]] + RemoveAt(blocks[1..], k - 1);
      assert rest[1..] == RemoveAt(blocks[1..], k - 1);
      assert blocks[0] != blocks[k];
      if name.Some? && !(Is(t, blocks[0], Block) && t[blocks[0]].name == name) {
        assert forall c :: c in blocks[1..] ==> c in blocks;
        FirstNamedWithout(t, t', blocks[1..], k - 1, name);
      }
    }
  }

  lemma {:induction false} ResolvedWithout(t: Table, t': Table, f: nat, b: nat, k: nat, operands: seq<nat>)
    requires LosesBlock(t, t', f, b, k) && b != 0 && b !in Resolved(t, t[f].children, operands)
    ensures Resolved(t', t'[f].children, operands) == Resolved(t, t[f].children, operands)
  {
    if operands != [] {
      var o := operands[|operands| - 1];
      ResolvedWithout(t, t', f, b, k, operands[..|operands| - 1]);
      if Is(t, o, Operand) && t[o].okind == OpBlock {
        FirstNamedWithout(t, t', t[f].children, k, t[o].name);
      }
    }
  }

  /** A block that is untouched, down to its last instruction, keeps its jump. */
  lemma SameJump(t: Table, t': Table, x: nat)
    requires |t'| == |t| && Is(t, x, Block) && t'[x] == t[x]
    requires forall i :: i in t[x].children ==> i < |t| && t'[i] == t[i]
    ensures JumpOperands(t', x) == JumpOperands(t, x)
  {
    if t[x].children != [] {
      assert t[x].children[|t[x].children| - 1] in t[x].children;
    }
  }

  /** Two blocks with the same jump, none of whose targets is the lost block, have the same targets. */
  lemma SameTargets(t: Table, t': Table, f: nat, b: nat, k: nat, x: nat, x': nat)
    requires LosesBlock(t, t', f, b, k) && b != 0 && x < |t| && x' < |t|
    requires t[x].parent == f && t'[x'].parent == f && JumpOperands(t', x') == JumpOperands(t, x)
    requires b !in Succs(t, x)
    ensures Succs(t', x') == Succs(t, x)
  {
    ResolvedWithout(t, t', f, b, k, JumpOperands(t, x));
    assert RawTargets(t', x') == RawTargets(t, x);
  }

  // ----- deleting an unreachable block -----

  lemma KillLosesBlock(t: Table, functions: seq<nat>, b: nat, k: nat)
    requires Owned(t, functions) && SitsAt(t, b, k)
    ensures LosesBlock(t, KillBlock(t, b, k), t[b].parent, b, k)
  {
    assert NodeOk(t, b) && NodeOk(t, t[b].parent);
  }

  /** A block outside the killed one, with its instructions, is untouched. */
  lemma KillUntouched(t: Table, functions: seq<nat>, b: nat, k: nat, x: nat)
    requires Owned(t, functions) && SitsAt(t, b, k) && Is(t, x, Block) && x != b
    ensures KillBlock(t, b, k)[x] == t[x]
    ensures forall i :: i in t[x].children ==> i < |t| && KillBlock(t, b, k)[i] == t[i]
  {
    assert NodeOk(t, b) && NodeOk(t, x);
  }

  /** Every other block of the function keeps its successors and its instructions. */
  lemma KillKeepsBlock(t: Table, functions: seq<nat>, b: nat, k: nat, x: nat)
    requires Owned(t, functions) && SitsAt(t, b, k) && Preds(t, b) == []
    requires Is(t, x, Block) && x != b && t[x].parent == t[b].parent
    ensures Succs(KillBlock(t, b, k), x) == Succs(t, x) && b !in Succs(t, x)
    ensures Emits(KillBlock(t, b, k), x) == Emits(t, x)
  {
    CfgDuality(t, functions, x, b);
    KillLosesBlock(t, functions, b, k);
    KillUntouched(t, functions, b, k, x);
    SameJump(t, KillBlock(t, b, k), x);
    SameTargets(t, KillBlock(t, b, k), t[b].parent, b, k, x, x);
  }

  // ----- runs of two graphs that agree on a region -----

  /** In both graphs the blocks of `region` other than `a` do the same and stay in the region. */
  ghost predicate AgreeOn(g: Flow, g': Flow, region: set<nat>, a: nat) {
    && |g.succs| == |g.emits| == |g'.succs| == |g'.emits|
    && forall x :: x in region ==>
         && x < |g.succs|
         && (forall y :: y in g'.succs[x] ==> y in region)
         && (x != a ==> g'.succs[x] == g.succs[x] && g'.emits[x] == g.emits[x])
  }

  /** In `g`, block `a` falls through to `b`; in `g'`, `a` does the work of both. */
  ghost predicate Fuses(g: Flow, g': Flow, a: nat, b: nat) {
    && a < |g.succs| && b < |g.succs| && |g.succs| == |g.emits| == |g'.succs| == |g'.emits|
    && g.succs[a] == [b]
    && g'.succs[a] == g.succs[b] && g'.emits[a] == g.emits[a] + g.emits[b]
  }

  lemma NextInRegion(g: Flow, g': Flow, region: set<nat>, a: nat, x: nat, oracle: Oracle, choices: nat)
    requires AgreeOn(g, g', region, a) && x in region
    ensures Next(g', x, oracle, choices).at.Some? ==> Next(g', x, oracle, choices).at.value in region
    ensures x != a ==> Next(g', x, oracle, choices) == Next(g, x, oracle, choices)
  {
    var ss := g'.succs[x];
    if ss != [] {
      assert ss[0] in ss && ss[oracle(choices) % |ss|] in ss;
    }
  }

  lemma {:induction false} AgreeingRuns(g: Flow, g': Flow, region: set<nat>, a: nat, p: Point, oracle: Oracle, n: nat)
    requires AgreeOn(g, g', region, a) && a !in region && (p.at.Some? ==> p.at.value in region)
    ensures Run(g', p, oracle, n) == Run(g, p, oracle, n)
    decreases n
  {
    if n > 0 && p.at.Some? {
      NextInRegion(g, g', region, a, p.at.value, oracle, p.choices);
      AgreeingRuns(g, g', region, a, Next(g, p.at.value, oracle, p.choices), oracle, n - 1);
    }
  }

  lemma FusedStep(g: Flow, g': Flow, a: nat, b: nat, p: Point, oracle: Oracle, m: nat)
    requires Fuses(g, g', a, b) && p.at == Some(a)
    ensures Next(g', a, oracle, p.choices) == Next(g, b, oracle, p.choices)
    ensures var tail := Run(g, Next(g, b, oracle, p.choices), oracle, m);
            Run(g, p, oracle, m + 2) == Trace(EmitsAt(g', a) + tail.executed, tail.end)
  {
    var mid := Point(Some(b), p.choices);
    var tail := Run(g, Next(g, b, oracle, p.choices), oracle, m);
    assert Next(g, a, oracle, p.choices) == mid;
    assert Run(g, mid, oracle, m + 1) == Trace(EmitsAt(g, b) + tail.executed, tail.end);
    assert Run(g, p, oracle, m + 2) == Trace(EmitsAt(g, a) + (EmitsAt(g, b) + tail.executed), tail.end);
    assert EmitsAt(g, a) + (EmitsAt(g, b) + tail.executed) == EmitsAt(g', a) + tail.executed;
  }

  lemma AgreeingStep(g: Flow, g': Flow, region: set<nat>, a: nat, p: Point, oracle: Oracle, n: nat, m: nat)
    requires AgreeOn(g, g', region, a) && p.at.Some? && p.at.value in region && p.at.value != a
    requires Run(g', Next(g', p.at.value, oracle, p.choices), oracle, n) == Run(g, Next(g', p.at.value, oracle, p.choices), oracle, m)
    ensures Run(g', p, oracle, n + 1) == Run(g, p, oracle, m + 1)
  {
    NextInRegion(g, g', region, a, p.at.value, oracle, p.choices);
  }

  lemma FusingStep(g: Flow, g': Flow, a: nat, b: nat, p: Point, oracle: Oracle, n: nat, m: nat)
    requires Fuses(g, g', a, b) && p.at == Some(a)
    requires Run(g', Next(g', a, oracle, p.choices), oracle, n) == Run(g, Next(g', a, oracle, p.choices), oracle, m)
    ensures Run(g', p, oracle, n + 1) == Run(g, p, oracle, m + 2)
  {
    FusedStep(g, g', a, b, p, oracle, m);
  }

  /** A run of the fused graph is a run of the original that takes at least as many blocks. */
  lemma {:induction false} FusedRuns(g: Flow, g': Flow, region: set<nat>, a: nat, b: nat, p: Point, oracle: Oracle, n: nat)
    returns (m: nat)
    requires AgreeOn(g, g', region, a) && Fuses(g, g', a, b) && (p.at.Some? ==> p.at.value in region)
    ensures n <= m && Run(g', p, oracle, n) == Run(g, p, oracle, m)
    decreases n
  {
    if n == 0 || p.at.None? {
      return n;
    }
    var x := p.at.value;
    NextInRegion(g, g', region, a, x, oracle, p.choices);
    var rest := FusedRuns(g, g', region, a, b, Next(g', x, oracle, p.choices), oracle, n - 1);
    if x == a {
      FusingStep(g, g', a, b, p, oracle, n - 1, rest);
      m := rest + 2;
    } else {
      AgreeingStep(g, g', region, a, p, oracle, n - 1, rest);
      m := rest + 1;
    }
  }

  /** The blocks of one function, without block `b`. */
  ghost function Region(t: Table, f: nat, b: nat): set<nat>
    requires f < |t|
  {
    set x | x in t[f].children && x != b
  }

  /** A run that starts in another block of the function is unchanged by the deletion. */
  lemma DeleteKeepsRuns(t: Table, functions: seq<nat>, b: nat, k: nat, p: Point, oracle: Oracle, n: nat)
    requires Owned(t, functions) && SitsAt(t, b, k) && Preds(t, b) == []
    requires p.at.Some? ==> p.at.value in Region(t, t[b].parent, b)
    ensures Run(FlowOf(KillBlock(t, b, k)), p, oracle, n) == Run(FlowOf(t), p, oracle, n)
  {
    var f := t[b].parent;
    assert NodeOk(t, b) && NodeOk(t, f);
    forall x | x in Region(t, f, b)
      ensures x < |t| && Succs(KillBlock(t, b, k), x) == Succs(t, x) && Emits(KillBlock(t, b, k), x) == Emits(t, x)
      ensures forall y :: y in Succs(t, x) ==> y in Region(t, f, b)
    {
      KillKeepsBlock(t, functions, b, k, x);
      SuccsAreBlocks(t, x);
    }
    AgreeingRuns(FlowOf(t), FlowOf(KillBlock(t, b, k)), Region(t, f, b), b, p, oracle, n);
  }

  // ----- merging -----

  /** `ccw_ir_block_merge` accepts the pair: one target, which is the second block, whose only
      predecessor is the first. */
  ghost predicate Mergeable(t: Table, a: nat, b: nat) {
    && Is(t, a, Block) && Is(t, b, Block) && t[a].parent == t[b].parent
    && |RawTargets(t, a)| == 1 && Succs(t, a) == [b] && |Preds(t, b)| == 1
  }

  lemma TargetsNeedChildren(t: Table, a: nat)
    requires a < |t| && RawTargets(t, a) != []
    ensures Is(t, a, Block) && t[a].children != []
  {
    assert JumpOperands(t, a) != [];
  }

  lemma OnlyElement(s: seq<nat>, x: nat)
    requires |s| == 1 && x in s
    ensures s == [x]
  {
  }

  lemma BlocksOk(t: Table, functions: seq<nat>, b: nat)
    requires Owned(t, functions) && Is(t, b, Block)
    ensures BlockOk(t, b) && b != 0
  {
    assert NodeOk(t, b);
  }

  lemma MergeableShape(t: Table, functions: seq<nat>, a: nat, b: nat)
    requires Owned(t, functions) && Mergeable(t, a, b)
    ensures t[a].children != [] && BlockOk(t, a) && BlockOk(t, b) && b != 0
    ensures Preds(t, b) == [a]
  {
    TargetsNeedChildren(t, a);
    BlocksOk(t, functions, a);
    BlocksOk(t, functions, b);
    CfgDuality(t, functions, a, b);
    OnlyElement(Preds(t, b), a);
  }

  lemma OnlyPredecessor(t: Table, functions: seq<nat>, a: nat, b: nat, x: nat)
    requires Owned(t, functions) && Mergeable(t, a, b) && Is(t, x, Block) && x != a
    ensures b !in Succs(t, x)
  {
    MergeableShape(t, functions, a, b);
    CfgDuality(t, functions, x, b);
  }

  lemma MergeLosesBlock(t: Table, functions: seq<nat>, a: nat, b: nat, k: nat)
    requires Owned(t, functions) && MergeArgs(t, a, b, k) && a != b
    ensures LosesBlock(t, MergeBlocks(t, a, b, k), t[a].parent, b, k)
  {
    assert NodeOk(t, t[a].parent);
    assert t[a].children[|t[a].children| - 1] in t[a].children;
  }

  lemma MergeUntouched(t: Table, functions: seq<nat>, a: nat, b: nat, k: nat, x: nat)
    requires Owned(t, functions) && MergeArgs(t, a, b, k) && Is(t, x, Block) && x != a && x != b
    ensures MergeBlocks(t, a, b, k)[x] == t[x]
    ensures forall i :: i in t[x].children ==> i < |t| && MergeBlocks(t, a, b, k)[i] == t[i]
  {
    assert NodeOk(t, x);
    assert t[a].children[|t[a].children| - 1] in t[a].children;
  }

  lemma MergeKeepsBlock(t: Table, functions: seq<nat>, a: nat, b: nat, k: nat, x: nat)
    requires Owned(t, functions) && Mergeable(t, a, b) && MergeArgs(t, a, b, k) && a != b
    requires Is(t, x, Block) && x != a && x != b && t[x].parent == t[a].parent
    ensures Succs(MergeBlocks(t, a, b, k), x) == Succs(t, x) && b !in Succs(t, x)
    ensures Emits(MergeBlocks(t, a, b, k), x) == Emits(t, x)
  {
    MergeableShape(t, functions, a, b);
    OnlyPredecessor(t, functions, a, b, x);
    MergeLosesBlock(t, functions, a, b, k);
    MergeUntouched(t, functions, a, b, k, x);
    SameJump(t, MergeBlocks(t, a, b, k), x);
    SameTargets(t, MergeBlocks(t, a, b, k), t[a].parent, b, k, x, x);
  }

  lemma MergedInstr(t: Table, a: nat, b: nat, k: nat, i: nat)
    requires MergeArgs(t, a, b, k) && a != b && i in t[b].children
    ensures i < |t| && MergeBlocks(t, a, b, k)[i] == t[i].(parent := a) && t[i].kind == Instr
  {
    assert t[a].children[|t[a].children| - 1] in t[a].children;
  }

  lemma MergedFirst(t: Table, a: nat, b: nat, k: nat)
    requires MergeArgs(t, a, b, k) && a != b
    ensures MergeBlocks(t, a, b, k)[a] == t[a].(children := t[a].children[..|t[a].children| - 1] + t[b].children)
  {
  }

  /** A block that ends as another one does has its jump. */
  lemma SameEnd(t: Table, t': Table, a: nat, b: nat, front: seq<nat>)
    requires Is(t, b, Block) && Is(t', a, Block) && t[b].children != [] && t'[a].children == front + t[b].children
    requires |t'| == |t| && t[b].children[|t[b].children| - 1] < |t|
    requires var last := t[b].children[|t[b].children| - 1];
             t'[last].kind == t[last].kind && t'[last].opcode == t[last].opcode && t'[last].children == t[last].children
    ensures JumpOperands(t', a) == JumpOperands(t, b)
  {
    var cs := t[b].children;
    assert (front + cs)[|front + cs| - 1] == cs[|cs| - 1];
  }

  lemma MergedJump(t: Table, a: nat, b: nat, k: nat)
    requires MergeArgs(t, a, b, k) && a != b && t[b].children != []
    ensures JumpOperands(MergeBlocks(t, a, b, k), a) == JumpOperands(t, b)
  {
    MergedFirst(t, a, b, k);
    MergedInstr(t, a, b, k, t[b].children[|t[b].children| - 1]);
    SameEnd(t, MergeBlocks(t, a, b, k), a, b, t[a].children[..|t[a].children| - 1]);
  }

  /** The targets of the instruction before a block's jump, once the block at `k` is gone from the
      layout.  With nothing to append after it, dropping the jump uncovers them. */
  function Uncovered(t: Table, a: nat, k: nat): seq<nat>
    requires a < |t| && t[a].parent < |t| && k < |t[t[a].parent].children|
  {
    var cs := t[a].children;
    if |cs| < 2 || !Is(t, cs[|cs| - 2], Instr) || !IsTerminatorOpcode(t[cs[|cs| - 2]].opcode) then []
    else Resolved(t, RemoveAt(t[t[a].parent].children, k), t[cs[|cs| - 2]].children)
  }

  /** A merge splices cleanly: there is something to append, or nothing to uncover. */
  predicate SplicesCleanly(t: Table, a: nat, b: nat, k: nat)
    requires a < |t| && b < |t| && t[a].parent < |t| && k < |t[t[a].parent].children|
  {
    t[b].children != [] || Uncovered(t, a, k) == []
  }

  lemma {:induction false} ResolvedSame(t: Table, t': Table, layout: seq<nat>, operands: seq<nat>)
    requires |t'| == |t|
    requires forall c :: c in layout ==> c < |t| && t'[c].kind == t[c].kind && t'[c].name == t[c].name
    requires forall o :: 0 <= o < |t| && (t[o].kind == Operand || t'[o].kind == Operand) ==> t'[o] == t[o]
    ensures Resolved(t', layout, operands) == Resolved(t, layout, operands)
  {
    if operands != [] {
      var o := operands[|operands| - 1];
      ResolvedSame(t, t', layout, operands[..|operands| - 1]);
      if Is(t, o, Operand) && t[o].okind == OpBlock {
        FirstNamedSame(t, t', layout, t[o].name);
      }
    }
  }

  lemma UncoveredTargets(t: Table, t': Table, a: nat, f: nat, k: nat, b: nat)
    requires Is(t, a, Block) && t[a].parent == f && LosesBlock(t, t', f, b, k) && t[a].children != []
    requires a < |t'| && t'[a] == t[a].(children := t[a].children[..|t[a].children| - 1])
    requires SameNodes(t, t', t[a].children[..|t[a].children| - 1])
    ensures RawTargets(t', a) == Uncovered(t, a, k)
  {
    var cs := t[a].children;
    if |cs| >= 2 {
      var last := cs[|cs| - 2];
      assert t'[a].children[|cs| - 2] == last && last in t'[a].children;
      forall c | c in t'[f].children ensures c in t[f].children && c != b {
      }
      ResolvedSame(t, t', t'[f].children, t[last].children);
    }
  }

  lemma KeptInstr(t: Table, a: nat, b: nat, k: nat, i: nat)
    requires MergeArgs(t, a, b, k) && a != b && t[b].children == [] && Is(t, t[a].parent, Function)
    requires i in t[a].children[..|t[a].children| - 1]
    ensures i < |t| && MergeBlocks(t, a, b, k)[i] == t[i]
  {
    assert i in t[a].children && i != t[a].children[|t[a].children| - 1];
  }

  ghost predicate SameNodes(t: Table, t': Table, ids: seq<nat>) {
    |t'| == |t| && forall i :: i in ids ==> i < |t| && t'[i] == t[i]
  }

  lemma EmptySecondShape(t: Table, a: nat, b: nat, k: nat, front: seq<nat>)
    requires MergeArgs(t, a, b, k) && a != b && t[b].children == [] && Is(t, t[a].parent, Function)
    requires front == t[a].children[..|t[a].children| - 1]
    ensures MergeBlocks(t, a, b, k)[a] == t[a].(children := front) && SameNodes(t, MergeBlocks(t, a, b, k), front)
  {
    MergedFirst(t, a, b, k);
    assert front + [] == front;
    var t' := MergeBlocks(t, a, b, k);
    forall i | i in front ensures i < |t| && t'[i] == t[i] {
      KeptInstr(t, a, b, k, i);
    }
  }

  lemma EmptySecond(t: Table, functions: seq<nat>, a: nat, b: nat, k: nat)
    requires Owned(t, functions) && MergeArgs(t, a, b, k) && a != b && t[b].children == []
    ensures RawTargets(MergeBlocks(t, a, b, k), a) == Uncovered(t, a, k)
  {
    var t', f := MergeBlocks(t, a, b, k), t[a].parent;
    MergeLosesBlock(t, functions, a, b, k);
    EmptySecondShape(t, a, b, k, t[a].children[..|t[a].children| - 1]);
    UncoveredTargets(t, t', a, f, k, b);
  }

  /** The merged block does what the two blocks did one after the other, and goes where the
      second one went. */
  lemma MergedBlock(t: Table, functions: seq<nat>, a: nat, b: nat, k: nat)
    requires Owned(t, functions) && Mergeable(t, a, b) && MergeArgs(t, a, b, k) && a != b && SplicesCleanly(t, a, b, k)
    ensures Succs(MergeBlocks(t, a, b, k), a) == Succs(t, b) && b !in Succs(t, b)
    ensures Emits(MergeBlocks(t, a, b, k), a) == Emits(t, a) + Emits(t, b)
  {
    var t' := MergeBlocks(t, a, b, k);
    MergeableShape(t, functions, a, b);
    OnlyPredecessor(t, functions, a, b, b);
    if t[b].children == [] {
      EmptySecond(t, functions, a, b, k);
      assert JumpOperands(t, b) == [] && Succs(t, b) == [] == Succs(t', a);
      assert Emits(t', a) == Emits(t, a) && Emits(t, b) == [];
    } else {
      MergeLosesBlock(t, functions, a, b, k);
      MergedJump(t, a, b, k);
      MergedFirst(t, a, b, k);
      SameTargets(t, t', t[a].parent, b, k, b, a);
      MergedEmits(t, t', a, b);
    }
  }

  lemma MergedEmits(t: Table, t': Table, a: nat, b: nat)
    requires Is(t, a, Block) && Is(t, b, Block) && Is(t', a, Block) && Succs(t', a) == Succs(t, b) && Succs(t, a) != []
    requires t[a].children != [] && t[b].children != []
    requires t'[a].children == t[a].children[..|t[a].children| - 1] + t[b].children
    ensures Emits(t', a) == Emits(t, a) + Emits(t, b)
  {
    var cs := t'[a].children;
    assert cs[..|cs| - 1] == t[a].children[..|t[a].children| - 1] + t[b].children[..|t[b].children| - 1];
  }

  lemma FlowsAgree(t: Table, t': Table, region: set<nat>, a: nat)
    requires |t| == |t'|
    requires forall x :: x in region ==> AgreeAt(t, t', region, a, x)
    ensures AgreeOn(FlowOf(t), FlowOf(t'), region, a)
  {
  }

  lemma FlowsFuse(t: Table, t': Table, a: nat, b: nat)
    requires |t| == |t'| && a < |t| && b < |t| && Succs(t, a) == [b]
    requires Succs(t', a) == Succs(t, b) && Emits(t', a) == Emits(t, a) + Emits(t, b)
    ensures Fuses(FlowOf(t), FlowOf(t'), a, b)
  {
  }

  /** Outside the removed block the two graphs agree, and the first block fuses both. */
  lemma MergedFlow(t: Table, functions: seq<nat>, a: nat, b: nat, k: nat)
    requires Owned(t, functions) && Mergeable(t, a, b) && MergeArgs(t, a, b, k) && a != b && SplicesCleanly(t, a, b, k)
    ensures AgreeOn(FlowOf(t), FlowOf(MergeBlocks(t, a, b, k)), Region(t, t[a].parent, b), a)
    ensures Fuses(FlowOf(t), FlowOf(MergeBlocks(t, a, b, k)), a, b)
  {
    MergedFuses(t, functions, a, b, k);
    MergedAgrees(t, functions, a, b, k, MergeBlocks(t, a, b, k), Region(t, t[a].parent, b));
  }

  lemma MergedFuses(t: Table, functions: seq<nat>, a: nat, b: nat, k: nat)
    requires Owned(t, functions) && Mergeable(t, a, b) && MergeArgs(t, a, b, k) && a != b && SplicesCleanly(t, a, b, k)
    ensures Fuses(FlowOf(t), FlowOf(MergeBlocks(t, a, b, k)), a, b)
  {
    MergedBlock(t, functions, a, b, k);
    FlowsFuse(t, MergeBlocks(t, a, b, k), a, b);
  }

  ghost predicate AgreeAt(t: Table, t': Table, region: set<nat>, a: nat, x: nat) {
    && x < |t| && (forall y :: y in Succs(t', x) ==> y in region)
    && (x != a ==> Succs(t', x) == Succs(t, x) && Emits(t', x) == Emits(t, x))
  }

  lemma MergedAgrees(t: Table, functions: seq<nat>, a: nat, b: nat, k: nat, t': Table, region: set<nat>)
    requires Owned(t, functions) && Mergeable(t, a, b) && MergeArgs(t, a, b, k) && a != b && SplicesCleanly(t, a, b, k)
    requires t' == MergeBlocks(t, a, b, k) && region == Region(t, t[a].parent, b)
    ensures AgreeOn(FlowOf(t), FlowOf(t'), region, a)
  {
    forall x | x in region ensures AgreeAt(t, t', region, a, x) {
      RegionBlock(t, functions, t[a].parent, b, x);
      MergedSuccs(t, functions, a, b, k, x);
    }
    FlowsAgree(t, t', region, a);
  }

  lemma RegionBlock(t: Table, functions: seq<nat>, f: nat, b: nat, x: nat)
    requires Owned(t, functions) && Is(t, f, Function) && x in Region(t, f, b)
    ensures Is(t, x, Block) && t[x].parent == f && x != b
  {
    assert NodeOk(t, f);
  }

  lemma MergedSuccs(t: Table, functions: seq<nat>, a: nat, b: nat, k: nat, x: nat)
    requires Owned(t, functions) && Mergeable(t, a, b) && MergeArgs(t, a, b, k) && a != b && SplicesCleanly(t, a, b, k)
    requires Is(t, x, Block) && t[x].parent == t[a].parent && x != b
    ensures forall y :: y in Succs(MergeBlocks(t, a, b, k), x) ==> y in Region(t, t[a].parent, b)
    ensures x != a ==> Succs(MergeBlocks(t, a, b, k), x) == Succs(t, x) && Emits(MergeBlocks(t, a, b, k), x) == Emits(t, x)
  {
    if x == a {
      MergedBlock(t, functions, a, b, k);
      SuccsInRegion(t, b, b, t[a].parent);
    } else {
      MergeKeepsBlock(t, functions, a, b, k, x);
      SuccsInRegion(t, x, b, t[a].parent);
    }
  }

  lemma SuccsInRegion(t: Table, x: nat, b: nat, f: nat)
    requires x < |t| && t[x].parent == f && Is(t, f, Function) && b !in Succs(t, x)
    ensures forall y :: y in Succs(t, x) ==> y in Region(t, f, b)
  {
    SuccsAreBlocks(t, x);
  }

  /** For every branch oracle and every number of blocks, the run of the merged function is a run
      of the original one: the same instructions in the same order, ending at the same place with
      the same choices made; and what the original executes in that many blocks the merged one
      has executed too. */
  lemma MergeKeepsRuns(t: Table, functions: seq<nat>, a: nat, b: nat, k: nat, p: Point, oracle: Oracle, n: nat)
    requires Owned(t, functions) && Mergeable(t, a, b) && MergeArgs(t, a, b, k) && a != b && SplicesCleanly(t, a, b, k)
    requires p.at.Some? ==> p.at.value in Region(t, t[a].parent, b)
    ensures exists m :: n <= m && Run(FlowOf(MergeBlocks(t, a, b, k)), p, oracle, n) == Run(FlowOf(t), p, oracle, m)
    ensures Run(FlowOf(t), p, oracle, n).executed <= Run(FlowOf(MergeBlocks(t, a, b, k)), p, oracle, n).executed
  {
    MergedFlow(t, functions, a, b, k);
    var m := FusedRuns(FlowOf(t), FlowOf(MergeBlocks(t, a, b, k)), Region(t, t[a].parent, b), a, b, p, oracle, n);
    RunPrefix(FlowOf(t), p, oracle, n, m);
  }

  /** Every run of the second graph is a run of the first. */
  ghost predicate RunsKept(g: Flow, g': Flow, region: set<nat>) {
    forall p: Point, oracle: Oracle, n: nat :: (p.at.Some? ==> p.at.value in region) ==> RunMatched(g, g', p, oracle, n)
  }

  ghost predicate RunMatched(g: Flow, g': Flow, p: Point, oracle: Oracle, n: nat) {
    exists m :: n <= m && Run(g', p, oracle, n) == Run(g, p, oracle, m)
  }

  /** A block that executes less than before cannot be matched by any run. */
  lemma ShorterBlock(g: Flow, g': Flow, region: set<nat>, a: nat)
    requires a in region && |EmitsAt(g', a)| < |EmitsAt(g, a)|
    ensures !RunsKept(g, g', region)
  {
    var p, oracle: Oracle := Point(Some(a), 0), _ => 0;
    assert Run(g', Next(g', a, oracle, 0), oracle, 0).executed == [];
    var once := Run(g', p, oracle, 1);
    assert once.executed == EmitsAt(g', a);
    forall m | 1 <= m ensures Run(g, p, oracle, m) != once {
      assert |Run(g, p, oracle, m).executed| >= |EmitsAt(g, a)|;
    }
    assert !RunMatched(g, g', p, oracle, 1);
  }

  lemma UncoveredEmits(t: Table, functions: seq<nat>, a: nat, b: nat, k: nat)
    requires Owned(t, functions) && Mergeable(t, a, b) && MergeArgs(t, a, b, k) && a != b && !SplicesCleanly(t, a, b, k)
    ensures |Emits(MergeBlocks(t, a, b, k), a)| < |Emits(t, a)|
  {
    EmptySecond(t, functions, a, b, k);
    assert NodeOk(t, a);
    EmptySecondShape(t, a, b, k, t[a].children[..|t[a].children| - 1]);
    EmitsLess(t, MergeBlocks(t, a, b, k), a);
  }

  /** A block that lost its jump, and now ends in one again, executes less. */
  lemma EmitsLess(t: Table, t': Table, a: nat)
    requires Is(t, a, Block) && Is(t', a, Block) && t[a].children != []
    requires t'[a].children == t[a].children[..|t[a].children| - 1] && RawTargets(t', a) != []
    ensures |Emits(t', a)| < |Emits(t, a)|
  {
    TargetsNeedChildren(t', a);
    assert RawTargets(t', a)[0] in Succs(t', a);
  }

  /** Runs are kept exactly when the merge splices cleanly: when the second block is empty, dropping
      the jump of the first must not uncover another one. */
  lemma MergeKeepsRunsExactly(t: Table, functions: seq<nat>, a: nat, b: nat, k: nat)
    requires Owned(t, functions) && Mergeable(t, a, b) && MergeArgs(t, a, b, k) && a != b
    ensures RunsKept(FlowOf(t), FlowOf(MergeBlocks(t, a, b, k)), Region(t, t[a].parent, b)) <==> SplicesCleanly(t, a, b, k)
  {
    var g, g', region := FlowOf(t), FlowOf(MergeBlocks(t, a, b, k)), Region(t, t[a].parent, b);
    if SplicesCleanly(t, a, b, k) {
      MergedFlow(t, functions, a, b, k);
      FusedRunsKept(g, g', region, a, b);
    } else {
      BlocksOk(t, functions, a);
      UncoveredEmits(t, functions, a, b, k);
      ShorterBlock(g, g', region, a);
    }
  }

  lemma FusedRunsKept(g: Flow, g': Flow, region: set<nat>, a: nat, b: nat)
    requires AgreeOn(g, g', region, a) && Fuses(g, g', a, b)
    ensures RunsKept(g, g', region)
  {
    forall p: Point, oracle: Oracle, n: nat | p.at.Some? ==> p.at.value in region
      ensures RunMatched(g, g', p, oracle, n)
    {
      var m := FusedRuns(g, g', region, a, b, p, oracle, n);
    }
  }

  /** The entry block of a function is the first of its layout. */
  function Entry(t: Table, f: nat): Option<nat> {
    if Is(t, f, Function) && t[f].children != [] then Some(t[f].children[0]) else None
  }

  /** A merge keeps the entry block exactly when the block it removes is not the entry. */
  lemma MergeKeepsEntry(t: Table, functions: seq<nat>, a: nat, b: nat, k: nat)
    requires Owned(t, functions) && MergeArgs(t, a, b, k) && a != b
    ensures Entry(MergeBlocks(t, a, b, k), t[a].parent) == Entry(t, t[a].parent) <==> Entry(t, t[a].parent) != Some(b)
  {
    MergeLosesBlock(t, functions, a, b, k);
    var cs := t[t[a].parent].children;
    var r := RemoveAt(cs, k);
    assert a in r;
    assert r == cs[..k] + cs[k + 1..];
    if k == 0 {
      assert r[0] == cs[1];
    }
  }

  /** From the entry, whole-function runs are preserved unless the removed block is the entry. */
  lemma MergeKeepsFunction(t: Table, functions: seq<nat>, a: nat, b: nat, k: nat, oracle: Oracle, n: nat)
    requires Owned(t, functions) && Mergeable(t, a, b) && MergeArgs(t, a, b, k) && a != b && SplicesCleanly(t, a, b, k)
    requires Entry(t, t[a].parent) != Some(b)
    ensures var t', start := MergeBlocks(t, a, b, k), Point(Entry(t, t[a].parent), 0);
            && Entry(t', t[a].parent) == start.at
            && Run(FlowOf(t), start, oracle, n).executed <= Run(FlowOf(t'), start, oracle, n).executed
            && exists m :: n <= m && Run(FlowOf(t'), start, oracle, n) == Run(FlowOf(t), start, oracle, m)
  {
    MergeKeepsEntry(t, functions, a, b, k);
    EntryInRegion(t, functions, t[a].parent, b);
    MergeKeepsRuns(t, functions, a, b, k, Point(Entry(t, t[a].parent), 0), oracle, n);
  }

  lemma EntryInRegion(t: Table, functions: seq<nat>, f: nat, b: nat)
    requires Owned(t, functions) && Is(t, f, Function) && Entry(t, f) != Some(b)
    ensures Entry(t, f).Some? ==> Entry(t, f).value in Region(t, f, b)
  {
    assert NodeOk(t, f);
  }
}
