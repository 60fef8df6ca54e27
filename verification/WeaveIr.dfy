/** The IR module object: every builder, edit and CFG query, proved against the transition
function and the graph it denotes. */
module WeaveIr {
  import opened Basics
  import opened WeaveTable
  import opened WeaveCfg
  import opened WeaveRuns
  import opened WeaveEdits

  method IndexOf(v: seq<nat>, n: nat) returns (k: int)
    ensures if n in v then 0 <= k < |v| && k == PositionIn(v, n) else k == -1
  {
    k := 0;
    while k < |v|
      invariant 0 <= k <= |v|
      invariant n in v <==> n in v[k..]
      invariant n in v ==> PositionIn(v, n) == k + PositionIn(v[k..], n)
    {
      assert v[k..][0] == v[k] && v[k..][1..] == v[k + 1..];
      if v[k] == n {
        return;
      }
      k := k + 1;
    }
    k := -1;
  }

  /** The loop that marks the instructions of a deleted block dead. */
  ghost predicate Marked(t: Table, t': Table, done: seq<nat>) {
    |t'| == |t| && forall n :: 0 <= n < |t| ==>
      t'[n] == if n in done then t[n].(kind := Dead, attached := false) else t[n]
  }

  /** The loop that moves the instructions of the second block under the first. */
  ghost predicate Moved(t: Table, t': Table, a: nat, base: seq<nat>, done: seq<nat>) {
    |t'| == |t| && forall n :: 0 <= n < |t| ==>
      t'[n] == if n == a then t[n].(children := base + done)
               else if n in done then t[n].(parent := a)
               else t[n]
  }

  class Module {
    var nodes: Table
    var functions: seq<nat>

    ghost predicate Valid()
      reads this
    {
      Owned(nodes, functions)
    }

    ghost function Now(): State
      reads this
    {
      State(nodes, functions)
    }

    constructor ()
      ensures Valid() && Now() == EMPTY_MODULE
    {
      nodes, functions := [BLANK], [];
    }

    /** Allocates the next id. */
    method NewNode(n: IrNode) returns (id: nat)
      modifies this`nodes
      ensures id == old(|nodes|) && nodes == old(nodes) + [n]
    {
      id := |nodes|;
      nodes := nodes + [n];
    }

    // ----- builders -----

    method FunctionAdd(name: string, ty: nat) returns (id: nat)
      requires Valid()
      modifies this
      ensures Valid() && Now() == Apply(old(Now()), AddFunction(name, ty)) && id == old(|nodes|)
    {
      ApplyOwned(Now(), AddFunction(name, ty));
      id := NewNode(BLANK.(kind := Function, name := Some(name), ty := ty));
      functions := functions + [id];
    }

    method BlockAdd(fn: nat, name: string) returns (id: nat)
      requires Valid()
      modifies this
      ensures Valid() && Now() == Apply(old(Now()), AddBlockTo(fn, name))
      ensures id == if old(Is(nodes, fn, Function)) then old(|nodes|) else 0
    {
      ApplyOwned(Now(), AddBlockTo(fn, name));
      if !Is(nodes, fn, Function) {
        return 0;
      }
      id := NewNode(BLANK.(kind := Block, name := Some(name), parent := fn));
      nodes := nodes[fn := nodes[fn].(children := nodes[fn].children + [id])];
    }

    method InstrBuild(opcode: string, ty: nat) returns (id: nat)
      requires Valid()
      modifies this`nodes
      ensures Valid() && Now() == Apply(old(Now()), BuildInstr(opcode, ty)) && id == old(|nodes|)
    {
      ApplyOwned(Now(), BuildInstr(opcode, ty));
      id := NewNode(BLANK.(kind := Instr, opcode := opcode, ty := ty));
    }

    method OperandNew(okind: OperandKind, name: Option<string>, ty: nat, ival: int) returns (id: nat)
      requires Valid()
      modifies this`nodes
      ensures Valid() && Now() == Apply(old(Now()), MakeOperand(okind, name, ty, ival)) && id == old(|nodes|)
    {
      ApplyOwned(Now(), MakeOperand(okind, name, ty, ival));
      id := NewNode(BLANK.(kind := Operand, okind := okind, name := name, ty := ty, ival := ival));
    }

    method InstrSetDest(ins: nat, dest: Option<string>) returns (ok: bool)
      requires Valid()
      modifies this`nodes
      ensures Valid() && Now() == Apply(old(Now()), SetDest(ins, dest)) && ok == old(Accepts(nodes, SetDest(ins, dest)))
    {
      ApplyOwned(Now(), SetDest(ins, dest));
      ok := Is(nodes, ins, Instr);
      if ok {
        nodes := nodes[ins := nodes[ins].(name := dest)];
      }
    }

    method InstrAddOperand(ins: nat, operand: nat) returns (ok: bool)
      requires Valid()
      modifies this`nodes
      ensures Valid() && Now() == Apply(old(Now()), AddOperand(ins, operand))
      ensures ok == old(Accepts(nodes, AddOperand(ins, operand)))
    {
      ApplyOwned(Now(), AddOperand(ins, operand));
      ok := Is(nodes, ins, Instr) && Is(nodes, operand, Operand);
      if ok {
        nodes := nodes[ins := nodes[ins].(children := nodes[ins].children + [operand])];
      }
    }

    method InstrSetOperand(ins: nat, index: int, operand: nat) returns (ok: bool)
      requires Valid()
      modifies this`nodes
      ensures Valid() && Now() == Apply(old(Now()), SetOperand(ins, index, operand))
      ensures ok == old(Accepts(nodes, SetOperand(ins, index, operand)))
    {
      ApplyOwned(Now(), SetOperand(ins, index, operand));
      ok := Is(nodes, ins, Instr) && Is(nodes, operand, Operand) && 0 <= index < |nodes[ins].children|;
      if ok {
        nodes := nodes[ins := nodes[ins].(children := nodes[ins].children[index := operand])];
      }
    }

    // ----- splices -----

    method BlockAppendInstr(blk: nat, ins: nat) returns (ok: bool)
      requires Valid()
      modifies this`nodes
      ensures Valid() && Now() == Apply(old(Now()), Append(blk, ins)) && ok == old(Accepts(nodes, Append(blk, ins)))
    {
      ApplyOwned(Now(), Append(blk, ins));
      if !Is(nodes, blk, Block) || !Is(nodes, ins, Instr) || nodes[ins].attached {
        return false;
      }
      ghost var t, cs := nodes, nodes[blk].children;
      nodes := nodes[ins := nodes[ins].(parent := blk, attached := true)];
      nodes := nodes[blk := nodes[blk].(children := nodes[blk].children + [ins])];
      assert InsertAt(cs, |cs|, ins) == cs + [ins];
      assert nodes == AttachAt(t, blk, |cs|, ins);
      return true;
    }

    /** The block of an attached instruction and its position there. */
    method Locate(ins: nat) returns (ok: bool, blk: nat, k: nat)
      requires Valid()
      ensures ok <==> Listed(nodes, ins)
      ensures ok ==> blk == nodes[ins].parent && Is(nodes, blk, Block) && k < |nodes[blk].children|
                     && k == PositionIn(nodes[blk].children, ins)
    {
      ok, blk, k := false, 0, 0;
      if !Is(nodes, ins, Instr) || !nodes[ins].attached {
        return;
      }
      blk := nodes[ins].parent;
      if !Is(nodes, blk, Block) {
        return;
      }
      var idx := IndexOf(nodes[blk].children, ins);
      if idx < 0 {
        return;
      }
      return true, blk, idx;
    }

    method InstrReplace(oldIns: nat, newIns: nat) returns (ok: bool)
      requires Valid()
      modifies this`nodes
      ensures Valid() && Now() == Apply(old(Now()), ReplaceInstr(oldIns, newIns))
      ensures ok == old(Accepts(nodes, ReplaceInstr(oldIns, newIns)))
    {
      ApplyOwned(Now(), ReplaceInstr(oldIns, newIns));
      if !Is(nodes, newIns, Instr) || nodes[newIns].attached {
        return false;
      }
      var found, blk, k := Locate(oldIns);
      if !found {
        return false;
      }
      ghost var t := nodes;
      var o := nodes[oldIns];
      if nodes[newIns].name.None? && o.name.Some? {
        nodes := nodes[newIns := nodes[newIns].(name := o.name)];
      }
      nodes := nodes[blk := nodes[blk].(children := nodes[blk].children[k := newIns])];
      nodes := nodes[newIns := nodes[newIns].(parent := o.parent, attached := true)];
      nodes := nodes[oldIns := nodes[oldIns].(attached := false, parent := 0)];
      assert nodes == ReplaceAt(t, blk, k, newIns);
      return true;
    }

    method InstrInsertBefore(anchor: nat, newIns: nat) returns (ok: bool)
      requires Valid()
      modifies this`nodes
      ensures Valid() && Now() == Apply(old(Now()), InsertBefore(anchor, newIns))
      ensures ok == old(Accepts(nodes, InsertBefore(anchor, newIns)))
    {
      ApplyOwned(Now(), InsertBefore(anchor, newIns));
      if !Is(nodes, newIns, Instr) || nodes[newIns].attached {
        return false;
      }
      var found, blk, k := Locate(anchor);
      if !found {
        return false;
      }
      var cs := nodes[blk].children;
      nodes := nodes[blk := nodes[blk].(children := cs[..k] + [newIns] + cs[k..])];
      nodes := nodes[newIns := nodes[newIns].(parent := blk, attached := true)];
      return true;
    }

    method InstrDelete(ins: nat) returns (ok: bool)
      requires Valid()
      modifies this`nodes
      ensures Valid() && Now() == Apply(old(Now()), DeleteInstr(ins)) && ok == old(Accepts(nodes, DeleteInstr(ins)))
    {
      ApplyOwned(Now(), DeleteInstr(ins));
      var found, blk, k := Locate(ins);
      if !found {
        return false;
      }
      var cs := nodes[blk].children;
      nodes := nodes[blk := nodes[blk].(children := cs[..k] + cs[k + 1..])];
      nodes := nodes[ins := nodes[ins].(attached := false, parent := 0)];
      return true;
    }

    // ----- CFG queries -----

    method BlockTarget(fn: nat, name: Option<string>) returns (target: nat)
      ensures target == if Is(nodes, fn, Function) then FirstNamed(nodes, nodes[fn].children, name) else 0
    {
      if !Is(nodes, fn, Function) || name.None? {
        return 0;
      }
      var blocks := nodes[fn].children;
      var i := 0;
      while i < |blocks|
        invariant 0 <= i <= |blocks|
        invariant FirstNamed(nodes, blocks, name) == FirstNamed(nodes, blocks[i..], name)
      {
        assert blocks[i..][1..] == blocks[i + 1..];
        if Is(nodes, blocks[i], Block) && nodes[blocks[i]].name == name {
          return blocks[i];
        }
        i := i + 1;
      }
      return 0;
    }

    /** The block an operand names in a function; 0 if it names none. */
    method ResolveOperand(fn: nat, o: nat) returns (target: nat)
      ensures target == OperandTarget(nodes, if Is(nodes, fn, Function) then nodes[fn].children else [], o)
    {
      target := 0;
      if Is(nodes, o, Operand) && nodes[o].okind == OpBlock {
        target := BlockTarget(fn, nodes[o].name);
      }
    }

    /** Collects the resolved targets of a terminator.  Repetitions are dropped as far as the buffer holds
        the target already; without a buffer every one of them is counted. */
    method BlockSuccessors(blk: nat, out: array?<nat>) returns (count: nat)
      modifies out
      ensures Collected(RawTargets(nodes, blk), out, count)
    {
      count := 0;
      if !Is(nodes, blk, Block) || nodes[blk].children == [] {
        return;
      }
      var last := nodes[blk].children[|nodes[blk].children| - 1];
      if !Is(nodes, last, Instr) || !IsTerminatorOpcode(nodes[last].opcode) {
        return;
      }
      var operands := nodes[last].children;
      ghost var layout := Layout(nodes, blk);
      ghost var raw := [];
      var i := 0;
      while i < |operands|
        invariant 0 <= i <= |operands|
        invariant raw == Resolved(nodes, layout, operands[..i])
        invariant Collected(raw, out, count)
      {
        ResolvedStep(nodes, layout, operands, i);
        var target := ResolveOperand(nodes[blk].parent, operands[i]);
        if target != 0 {
          count := Record(out, count, target, raw);
          raw := raw + [target];
        }
        i := i + 1;
      }
      assert operands[..i] == operands;
    }

    // ----- queries through the buffer -----

    method SuccessorCount(blk: nat) returns (count: nat)
      ensures count == |RawTargets(nodes, blk)|
    {
      count := BlockSuccessors(blk, null);
      CountedExactly(RawTargets(nodes, blk), 0);
    }

    method SuccessorRef(blk: nat, idx: int) returns (b: nat)
      ensures b == if 0 <= idx < |Succs(nodes, blk)| then Succs(nodes, blk)[idx] else 0
    {
      var count := SuccessorCount(blk);
      if idx < 0 || idx >= count {
        return 0;
      }
      var successors := new nat[count](_ => 0);
      var actual := BlockSuccessors(blk, successors);
      CountedExactly(RawTargets(nodes, blk), count);
      if idx < actual {
        assert successors[..actual][idx] == successors[idx];
        return successors[idx];
      }
      return 0;
    }

    /** How often a candidate's successor list names the block: once or not at all. */
    method CountIn(candidate: nat, blk: nat) returns (hits: nat)
      requires blk != 0
      ensures hits == if blk in Succs(nodes, candidate) then 1 else 0
    {
      hits := 0;
      ghost var ss := Succs(nodes, candidate);
      var count := SuccessorCount(candidate);
      var j := 0;
      while j < count
        invariant 0 <= j <= count
        invariant hits == HitsUpto(ss, blk, j)
      {
        var s := SuccessorRef(candidate, j);
        HitsStep(ss, blk, j);
        if s == blk {
          hits := hits + 1;
        }
        j := j + 1;
      }
      assert ss[..|ss|] == ss;
    }

    method PredecessorCount(blk: nat) returns (count: nat)
      requires Valid()
      ensures count == |Preds(nodes, blk)|
    {
      count := 0;
      if !Is(nodes, blk, Block) || !Is(nodes, nodes[blk].parent, Function) {
        return;
      }
      BlocksOk(nodes, functions, blk);
      var layout := nodes[nodes[blk].parent].children;
      var i := 0;
      while i < |layout|
        invariant 0 <= i <= |layout|
        invariant count == |Filter(nodes, layout[..i], blk)|
      {
        FilterStep(nodes, layout, blk, i);
        var hits := CountIn(layout[i], blk);
        count := count + hits;
        i := i + 1;
      }
      assert layout[..i] == layout;
    }

    method PredecessorRef(blk: nat, idx: int) returns (b: nat)
      requires Valid()
      ensures b == if 0 <= idx < |Preds(nodes, blk)| then Preds(nodes, blk)[idx] else 0
    {
      if !Is(nodes, blk, Block) || !Is(nodes, nodes[blk].parent, Function) || idx < 0 {
        return 0;
      }
      BlocksOk(nodes, functions, blk);
      var layout := nodes[nodes[blk].parent].children;
      var found := 0;
      var i := 0;
      while i < |layout|
        invariant 0 <= i <= |layout|
        invariant found == |Filter(nodes, layout[..i], blk)| <= idx
      {
        FilterStep(nodes, layout, blk, i);
        var hits := CountIn(layout[i], blk);
        if hits == 1 && found == idx {
          return layout[i];
        }
        found := found + hits;
        i := i + 1;
      }
      assert layout[..i] == layout;
      return 0;
    }

    // ----- block edits -----

    method BlockDelete(blk: nat) returns (ok: bool)
      requires Valid()
      modifies this`nodes
      ensures Valid() && Now() == Apply(old(Now()), DeleteBlock(blk)) && ok == old(Accepts(nodes, DeleteBlock(blk)))
    {
      ApplyOwned(Now(), DeleteBlock(blk));
      DeleteAccepted(Now(), blk);
      if !Is(nodes, blk, Block) || !Is(nodes, nodes[blk].parent, Function) {
        return false;
      }
      var preds := PredecessorCount(blk);
      if preds != 0 {
        return false;
      }
      KillListed(blk);
      return true;
    }

    /** Marks the block's instructions dead, then unlists and kills the block. */
    method KillListed(blk: nat)
      requires InLayout(nodes, blk) && BlockOk(nodes, blk)
      modifies this`nodes
      ensures nodes == KillBlock(old(nodes), blk, old(LayoutPosition(nodes, blk)))
    {
      ghost var t := nodes;
      var fn := nodes[blk].parent;
      var index := IndexOf(nodes[fn].children, blk);
      MarkDead(nodes[blk].children);
      ghost var t1 := nodes;
      assert t1[fn] == t[fn];
      Unlist(fn, blk, index);
      KillIs(t, t1, nodes, blk, index);
    }

    method MarkDead(cs: seq<nat>)
      requires forall i :: i in cs ==> i < |nodes|
      modifies this`nodes
      ensures Marked(old(nodes), nodes, cs)
    {
      var i := 0;
      while i < |cs|
        invariant 0 <= i <= |cs|
        invariant Marked(old(nodes), nodes, cs[..i])
      {
        assert cs[..i + 1] == cs[..i] + [cs[i]];
        assert cs[i] in cs;
        nodes := nodes[cs[i] := nodes[cs[i]].(attached := false, kind := Dead)];
        i := i + 1;
      }
      assert cs[..i] == cs;
    }

    /** Takes a block off its function's list and marks it dead. */
    method Unlist(fn: nat, blk: nat, index: nat)
      requires fn < |nodes| && blk < |nodes| && fn != blk && index < |nodes[fn].children|
      modifies this`nodes
      ensures Unlisted(old(nodes), nodes, fn, blk, index)
    {
      var layout := nodes[fn].children;
      nodes := nodes[fn := nodes[fn].(children := layout[..index] + layout[index + 1..])];
      nodes := nodes[blk := nodes[blk].(kind := Dead)];
    }

    method BlockMerge(first: nat, second: nat) returns (ok: bool)
      requires Valid() && !SelfMergeDiverges(nodes, first, second)
      modifies this`nodes
      ensures Valid() && Now() == Apply(old(Now()), Merge(first, second))
      ensures ok <==> old(Mergeable(nodes, first, second))
    {
      ApplyOwned(Now(), Merge(first, second));
      MergeAccepted(Now(), first, second);
      ok := TestMerge(first, second);
      if ok {
        SpliceBlocks(first, second);
      }
    }

    /** The tests of a merge: blocks of one function, joined by the only edge out of one and into the other. */
    method TestMerge(first: nat, second: nat) returns (ok: bool)
      requires Valid()
      ensures ok <==> MergeTests(nodes, first, second)
    {
      if !Is(nodes, first, Block) || !Is(nodes, second, Block) || nodes[first].parent != nodes[second].parent {
        return false;
      }
      var count := SuccessorCount(first);
      if count != 1 {
        return false;
      }
      var target := SuccessorRef(first, 0);
      if target != second {
        return false;
      }
      var preds := PredecessorCount(second);
      return preds == 1;
    }

    /** The splice itself: drop the jump, move the instructions over, unlist and kill the block. */
    method SpliceBlocks(first: nat, second: nat)
      requires InLayout(nodes, second) && MergeArgs(nodes, first, second, LayoutPosition(nodes, second))
      modifies this`nodes
      ensures nodes == MergeBlocks(old(nodes), first, second, old(LayoutPosition(nodes, second)))
    {
      ghost var t := nodes;
      var fn, moved := nodes[first].parent, if first == second then [] else nodes[second].children;
      DropJump(first);
      ghost var t1 := nodes;
      MoveInstrs(first, moved);
      ghost var t2 := nodes;
      assert nodes[fn] == t[fn];
      var index := IndexOf(nodes[fn].children, second);
      Unlist(fn, second, index);
      MergeIs(t, t1, t2, nodes, first, second, index);
    }

    /** Marks the last instruction of a block dead and shortens the block. */
    method DropJump(blk: nat)
      requires Is(nodes, blk, Block) && BlockOk(nodes, blk) && nodes[blk].children != []
      modifies this`nodes
      ensures Dropped(old(nodes), nodes, blk)
    {
      var n := |nodes[blk].children| - 1;
      var jump := nodes[blk].children[n];
      assert jump in nodes[blk].children;
      nodes := nodes[jump := nodes[jump].(attached := false, kind := Dead)];
      nodes := nodes[blk := nodes[blk].(children := nodes[blk].children[..n])];
    }

    /** The copying loop of a self-merge, for at most `turns` turns: the block's own vector is read and
        pushed to.  `SelfMergeNeverEnds` says that it is then still within its guard. */
    method MoveOwnInstrs(blk: nat, turns: nat) returns (i: nat)
      requires Is(nodes, blk, Block)
      requires forall j :: j in nodes[blk].children ==> j < |nodes| && j != blk && nodes[j].parent == blk
      modifies this`nodes
      ensures nodes == old(nodes)[blk := old(nodes)[blk].(children := PushLoop(old(nodes)[blk].children, i))]
      ensures i <= turns && (i == turns || i >= |nodes[blk].children|)
    {
      ghost var t, items := nodes, nodes[blk].children;
      i := 0;
      while i < |nodes[blk].children| && i < turns
        invariant 0 <= i <= turns
        invariant nodes == t[blk := t[blk].(children := PushLoop(items, i))]
        invariant forall j :: j in PushLoop(items, i) ==> j in items
      {
        var ins := nodes[blk].children[i];
        assert ins in PushLoop(items, i) && ins in old(nodes)[blk].children;
        nodes := nodes[ins := nodes[ins].(parent := blk)];
        nodes := nodes[blk := nodes[blk].(children := nodes[blk].children + [ins])];
        i := i + 1;
      }
    }

    /** Appends instructions to a block, re-parenting each. */
    method MoveInstrs(blk: nat, moved: seq<nat>)
      requires blk < |nodes| && forall i :: i in moved ==> i < |nodes| && i != blk
      modifies this`nodes
      ensures Moved(old(nodes), nodes, blk, old(nodes)[blk].children, moved)
    {
      ghost var base := nodes[blk].children;
      var i := 0;
      while i < |moved|
        invariant 0 <= i <= |moved|
        invariant Moved(old(nodes), nodes, blk, base, moved[..i])
      {
        assert moved[..i + 1] == moved[..i] + [moved[i]];
        assert moved[i] in moved;
        nodes := nodes[moved[i] := nodes[moved[i]].(parent := blk)];
        nodes := nodes[blk := nodes[blk].(children := nodes[blk].children + [moved[i]])];
        assert base + moved[..i + 1] == base + moved[..i] + [moved[i]];
        i := i + 1;
      }
      assert moved[..i] == moved;
    }
  }

  ghost predicate Dropped(t: Table, t': Table, blk: nat)
    requires Is(t, blk, Block) && t[blk].children != []
  {
    var n := |t[blk].children| - 1;
    var jump := t[blk].children[n];
    |t'| == |t| && forall m :: 0 <= m < |t| ==>
      t'[m] == if m == blk then t[m].(children := t[blk].children[..n])
               else if m == jump then t[m].(attached := false, kind := Dead)
               else t[m]
  }

  /** `t'` is `t` after `Unlist`. */
  ghost predicate Unlisted(t: Table, t': Table, fn: nat, b: nat, k: nat)
    requires fn < |t| && b < |t| && k < |t[fn].children|
  {
    t' == t[fn := t[fn].(children := RemoveAt(t[fn].children, k))][b := t[b].(kind := Dead)]
  }

  /** The steps of a deletion add up to the deletion. */
  lemma KillIs(t: Table, t1: Table, t': Table, b: nat, k: nat)
    requires SitsAt(t, b, k) && Is(t, t[b].parent, Function) && BlockOk(t, b)
    requires Marked(t, t1, t[b].children) && t1[t[b].parent] == t[t[b].parent]
    requires Unlisted(t1, t', t[b].parent, b, k)
    ensures t' == KillBlock(t, b, k)
  {
  }

  /** Whether a block is among the first `j` of a list. */
  ghost function HitsUpto(ss: seq<nat>, blk: nat, j: nat): nat {
    if blk in ss[..if j < |ss| then j else |ss|] then 1 else 0
  }

  lemma HitsStep(ss: seq<nat>, blk: nat, j: nat)
    requires NoDup(ss) && blk != 0
    ensures HitsUpto(ss, blk, j + 1) == HitsUpto(ss, blk, j) + if blk == (if j < |ss| then ss[j] else 0) then 1 else 0
  {
    if j < |ss| {
      assert ss[..j + 1] == ss[..j] + [ss[j]];
    }
  }

  /** The steps of a merge add up to the merge. */
  lemma MergeIs(t: Table, t1: Table, t2: Table, t': Table, a: nat, b: nat, k: nat)
    requires MergeArgs(t, a, b, k) && Dropped(t, t1, a)
    requires Moved(t1, t2, a, t1[a].children, if a == b then [] else t[b].children) && t2[t[a].parent] == t[t[a].parent]
    requires Unlisted(t2, t', t[a].parent, b, k)
    ensures t' == MergeBlocks(t, a, b, k)
  {
    assert t[a].children[|t[a].children| - 1] in t[a].children;
    var merged := MergeBlocks(t, a, b, k);
    forall n | 0 <= n < |t| ensures t'[n] == merged[n] {
      MergeAt(t, t1, t2, t', a, b, k, n);
    }
  }

  lemma MergeAt(t: Table, t1: Table, t2: Table, t': Table, a: nat, b: nat, k: nat, n: nat)
    requires MergeArgs(t, a, b, k) && Dropped(t, t1, a) && n < |t|
    requires Moved(t1, t2, a, t1[a].children, if a == b then [] else t[b].children) && t2[t[a].parent] == t[t[a].parent]
    requires Unlisted(t2, t', t[a].parent, b, k)
    ensures t'[n] == MergeBlocks(t, a, b, k)[n]
  {
    assert t[a].children[|t[a].children| - 1] in t[a].children;
  }

  lemma DeleteAccepted(s: State, b: nat)
    requires Owned(s.nodes, s.functions)
    ensures Accepts(s.nodes, DeleteBlock(b)) <==> Is(s.nodes, b, Block) && |Preds(s.nodes, b)| == 0
    ensures Is(s.nodes, b, Block) ==> InLayout(s.nodes, b) && BlockOk(s.nodes, b)
    ensures Apply(s, DeleteBlock(b)) == if Is(s.nodes, b, Block) && |Preds(s.nodes, b)| == 0
                                        then s.(nodes := KillBlock(s.nodes, b, LayoutPosition(s.nodes, b))) else s
  {
    if Is(s.nodes, b, Block) {
      BlocksOk(s.nodes, s.functions, b);
    }
  }

  /** Whether the call succeeds, in the terms the code tests. */
  ghost predicate MergeTests(t: Table, a: nat, b: nat) {
    && Is(t, a, Block) && Is(t, b, Block) && t[a].parent == t[b].parent
    && |RawTargets(t, a)| == 1 && b == (if 0 < |Succs(t, a)| then Succs(t, a)[0] else 0) && |Preds(t, b)| == 1
  }

  lemma MergeTestsExactly(t: Table, functions: seq<nat>, a: nat, b: nat)
    requires Owned(t, functions)
    ensures MergeTests(t, a, b) <==> Mergeable(t, a, b)
    ensures Mergeable(t, a, b) ==> InLayout(t, b)
  {
    if Is(t, b, Block) {
      BlocksOk(t, functions, b);
    }
    if MergeTests(t, a, b) {
      assert |Succs(t, a)| <= 1;
      assert Succs(t, a) == [b];
    }
  }

  lemma MergeAccepted(s: State, a: nat, b: nat)
    requires Owned(s.nodes, s.functions) && !SelfMergeDiverges(s.nodes, a, b)
    ensures MergeTests(s.nodes, a, b) <==> Mergeable(s.nodes, a, b)
    ensures Mergeable(s.nodes, a, b) ==>
              && InLayout(s.nodes, b) && MergeArgs(s.nodes, a, b, LayoutPosition(s.nodes, b))
              && Apply(s, Merge(a, b)) == s.(nodes := MergeBlocks(s.nodes, a, b, LayoutPosition(s.nodes, b)))
    ensures !Mergeable(s.nodes, a, b) ==> Apply(s, Merge(a, b)) == s
  {
    MergeTestsExactly(s.nodes, s.functions, a, b);
    if Mergeable(s.nodes, a, b) {
      MergeableShape(s.nodes, s.functions, a, b);
    }
  }

  /** The buffer after the targets `raw` were offered to it, and their count. */
  ghost predicate Collected(raw: seq<nat>, out: array?<nat>, count: nat)
    reads out
  {
    if out == null then count == Counted(raw, 0)
    else
      var stored := Stored(raw, out.Length);
      count == Counted(raw, out.Length) && out[..|stored|] == stored
  }

  /** Counts a target unless the buffer holds it, and stores it if there is room. */
  method Record(out: array?<nat>, count: nat, target: nat, ghost raw: seq<nat>) returns (r: nat)
    requires Collected(raw, out, count)
    modifies out
    ensures Collected(raw + [target], out, r)
  {
    ghost var capacity := if out == null then 0 else out.Length;
    ghost var stored := Stored(raw, capacity);
    CountedStep(raw, target, capacity);
    var j := 0;
    while j < count
      invariant 0 <= j <= count
      invariant target !in stored[..if j < |stored| then j else |stored|]
    {
      if out != null && j < out.Length {
        assert j < |stored| && out[j] == out[..|stored|][j] == stored[j];
        if out[j] == target {
          return count;
        }
      }
      j := j + 1;
    }
    assert stored[..|stored|] == stored;
    if out != null && count < out.Length {
      ghost var slots := out[..];
      StoredNext(slots, stored, target);
      out[count] := target;
      assert out[..] == slots[count := target];
      assert out[..count + 1] == out[..][..count + 1];
    }
    return count + 1;
  }

  lemma StoredNext(slots: seq<nat>, stored: seq<nat>, target: nat)
    requires |stored| < |slots| && slots[..|stored|] == stored
    ensures slots[|stored| := target][..|stored| + 1] == stored + [target]
  {
  }

  lemma ResolvedStep(t: Table, layout: seq<nat>, operands: seq<nat>, i: nat)
    requires i < |operands|
    ensures var target := OperandTarget(t, layout, operands[i]);
            Resolved(t, layout, operands[..i + 1])
            == if target == 0 then Resolved(t, layout, operands[..i]) else Resolved(t, layout, operands[..i]) + [target]
    ensures |Resolved(t, layout, operands[..i + 1])| <= |Resolved(t, layout, operands)|
  {
    assert operands[..i + 1][..i] == operands[..i];
    ResolvedLength(t, layout, operands, i + 1);
  }

  lemma {:induction false} ResolvedLength(t: Table, layout: seq<nat>, operands: seq<nat>, i: nat)
    requires i <= |operands|
    ensures |Resolved(t, layout, operands[..i])| <= |Resolved(t, layout, operands)|
    decreases |operands|
  {
    if i < |operands| {
      var init := operands[..|operands| - 1];
      ResolvedLength(t, layout, init, i);
      assert init[..i] == operands[..i];
    } else {
      assert operands[..i] == operands;
    }
  }

  lemma FilterStep(t: Table, layout: seq<nat>, b: nat, i: nat)
    requires i < |layout|
    ensures Filter(t, layout[..i + 1], b)
         == Filter(t, layout[..i], b) + if b in Succs(t, layout[i]) then [layout[i]] else []
    ensures Filter(t, layout[..i + 1], b) <= Filter(t, layout, b)
  {
    assert layout[..i + 1][..i] == layout[..i];
    FilterPrefix(t, layout, b, i + 1);
  }

  lemma {:induction false} FilterPrefix(t: Table, layout: seq<nat>, b: nat, i: nat)
    requires i <= |layout|
    ensures Filter(t, layout[..i], b) <= Filter(t, layout, b)
    decreases |layout|
  {
    if i == |layout| {
      assert layout[..i] == layout;
    } else {
      var init := layout[..|layout| - 1];
      assert init[..i] == layout[..i];
      FilterPrefix(t, init, b, i);
      FilterGrows(t, layout, b);
    }
  }

  lemma FilterGrows(t: Table, layout: seq<nat>, b: nat)
    requires layout != []
    ensures Filter(t, layout[..|layout| - 1], b) <= Filter(t, layout, b)
  {
  }
}
