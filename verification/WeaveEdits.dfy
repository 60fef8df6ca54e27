/** The builder and editing interface of the IR as one transition function, and what every
history of calls keeps. */
module WeaveEdits {
  import opened Basics
  import opened WeaveTable
  import opened WeaveCfg
  import opened WeaveRuns

  datatype State = State(nodes: Table, functions: seq<nat>)

  datatype Edit =
    | AddFunction(name: string, ty: nat)
    | AddBlockTo(fn: nat, name: string)
    | BuildInstr(opcode: string, ty: nat)
    | MakeOperand(okind: OperandKind, oname: Option<string>, ty: nat, ival: int)
    | SetDest(ins: nat, dest: Option<string>)
    | AddOperand(ins: nat, operand: nat)
    | SetOperand(ins: nat, index: int, operand: nat)
    | Append(blk: nat, ins: nat)
    | ReplaceInstr(old_ins: nat, new_ins: nat)
    | InsertBefore(anchor: nat, new_ins: nat)
    | DeleteInstr(ins: nat)
    | DeleteBlock(blk: nat)
    | Merge(first: nat, second: nat)

  /** An attached instruction that its block really lists. */
  ghost predicate Listed(t: Table, i: nat) {
    Is(t, i, Instr) && t[i].attached && Is(t, t[i].parent, Block) && i in t[t[i].parent].children
  }

  ghost predicate Loose(t: Table, i: nat) {
    Is(t, i, Instr) && !t[i].attached
  }

  ghost predicate InLayout(t: Table, b: nat) {
    Is(t, b, Block) && Is(t, t[b].parent, Function) && b in t[t[b].parent].children
  }

  ghost function LayoutPosition(t: Table, b: nat): (k: nat)
    requires InLayout(t, b)
    ensures SitsAt(t, b, k)
  {
    PositionIn(t[t[b].parent].children, b)
  }

  /** The one merge that never returns: a block that jumps only to itself, merged with itself,
      feeds its own instruction vector while iterating over it. */
  ghost predicate SelfMergeDiverges(t: Table, first: nat, second: nat) {
    first == second && Mergeable(t, first, second) && |t[first].children| != 1
  }

  /** A vector after `n` turns of a loop that pushes its i-th entry onto it, while i is within its count. */
  function PushLoop(items: seq<nat>, n: nat): seq<nat> {
    if n == 0 then items
    else
      var before := PushLoop(items, n - 1);
      if n - 1 < |before| then before + [before[n - 1]] else before
  }

  /** Every turn adds one entry: those of the start over and over. */
  lemma {:induction false} PushLoopGrows(items: seq<nat>, n: nat)
    requires items != []
    ensures |PushLoop(items, n)| == |items| + n && items <= PushLoop(items, n)
    ensures forall k :: |items| <= k < |items| + n ==> PushLoop(items, n)[k] == PushLoop(items, n)[k - |items|]
  {
    if n > 0 {
      PushLoopGrows(items, n - 1);
      var (before, after) := (PushLoop(items, n - 1), PushLoop(items, n));
      assert forall k :: 0 <= k < |before| ==> after[k] == before[k];
    }
  }

  /** The copying loop of a block merged with itself, whose jump was dropped, runs forever exactly when the
      block held more than its jump: its guard then holds after any number of turns. */
  lemma SelfMergeNeverEnds(t: Table, b: nat)
    requires Mergeable(t, b, b) && t[b].children != []
    ensures var kept := t[b].children[..|t[b].children| - 1];
            && (SelfMergeDiverges(t, b, b) <==> forall n: nat :: n < |PushLoop(kept, n)|)
            && (SelfMergeDiverges(t, b, b) ==> forall n: nat :: |PushLoop(kept, n)| == |t[b].children| - 1 + n)
  {
    var kept := t[b].children[..|t[b].children| - 1];
    if kept == [] {
      assert PushLoop(kept, 0) == [];
    } else {
      forall n: nat ensures |PushLoop(kept, n)| == |t[b].children| - 1 + n {
        PushLoopGrows(kept, n);
      }
    }
  }

  /** Whether the call succeeds. */
  ghost predicate Accepts(t: Table, e: Edit) {
    match e
    case AddFunction(_, _) => true
    case AddBlockTo(fn, _) => Is(t, fn, Function)
    case BuildInstr(_, _) => true
    case MakeOperand(_, _, _, _) => true
    case SetDest(ins, _) => Is(t, ins, Instr)
    case AddOperand(ins, o) => Is(t, ins, Instr) && Is(t, o, Operand)
    case SetOperand(ins, k, o) => Is(t, ins, Instr) && Is(t, o, Operand) && 0 <= k < |t[ins].children|
    case Append(blk, ins) => Is(t, blk, Block) && Loose(t, ins)
    case ReplaceInstr(o, n) => Listed(t, o) && Loose(t, n)
    case InsertBefore(a, n) => Listed(t, a) && Loose(t, n)
    case DeleteInstr(i) => Listed(t, i)
    case DeleteBlock(b) => InLayout(t, b) && Preds(t, b) == []
    case Merge(a, b) => InLayout(t, b) && Mergeable(t, a, b) && t[a].children != [] && !SelfMergeDiverges(t, a, b)
  }

  /** The state after a call; a refused call changes nothing. */
  ghost function Apply(s: State, e: Edit): State {
    var t := s.nodes;
    if !Accepts(t, e) then s
    else
      match e
      case AddFunction(name, ty) =>
        State(AddNode(t, BLANK.(kind := Function, name := Some(name), ty := ty)), Push(s.functions, |t|))
      case AddBlockTo(fn, name) => s.(nodes := AddBlock(t, fn, name))
      case BuildInstr(op, ty) => s.(nodes := AddNode(t, BLANK.(kind := Instr, opcode := op, ty := ty)))
      case MakeOperand(k, name, ty, v) =>
        s.(nodes := AddNode(t, BLANK.(kind := Operand, okind := k, name := name, ty := ty, ival := v)))
      case SetDest(ins, dest) => s.(nodes := t[ins := t[ins].(name := dest)])
      case AddOperand(ins, o) => s.(nodes := t[ins := t[ins].(children := t[ins].children + [o])])
      case SetOperand(ins, k, o) => s.(nodes := t[ins := t[ins].(children := t[ins].children[k := o])])
      case Append(blk, ins) => s.(nodes := AttachAt(t, blk, |t[blk].children|, ins))
      case ReplaceInstr(o, n) => s.(nodes := ReplaceAt(t, t[o].parent, PositionIn(t[t[o].parent].children, o), n))
      case InsertBefore(a, n) => s.(nodes := AttachAt(t, t[a].parent, PositionIn(t[t[a].parent].children, a), n))
      case DeleteInstr(i) => s.(nodes := DetachAt(t, t[i].parent, PositionIn(t[t[i].parent].children, i)))
      case DeleteBlock(b) => s.(nodes := KillBlock(t, b, LayoutPosition(t, b)))
      case Merge(a, b) => s.(nodes := MergeBlocks(t, a, b, LayoutPosition(t, b)))
  }

  // ----- every call keeps ownership -----

  lemma InstrFieldsOwned(t: Table, functions: seq<nat>, ins: nat, n: IrNode)
    requires Owned(t, functions) && Is(t, ins, Instr)
    requires n.kind == Instr && n.parent == t[ins].parent && n.attached == t[ins].attached
    requires forall o :: o in n.children ==> Is(t, o, Operand)
    ensures Owned(t[ins := n], functions) && Evolves(t, t[ins := n])
  {
    var t' := t[ins := n];
    forall m | 0 <= m < |t'| ensures NodeOk(t', m) {
      assert NodeOk(t, m);
    }
  }

  lemma OperandsOwned(t: Table, functions: seq<nat>, ins: nat, cs: seq<nat>)
    requires Owned(t, functions) && Is(t, ins, Instr)
    requires forall o :: o in cs ==> Is(t, o, Operand) || o in t[ins].children
    ensures Owned(t[ins := t[ins].(children := cs)], functions) && Evolves(t, t[ins := t[ins].(children := cs)])
  {
    assert NodeOk(t, ins);
    InstrFieldsOwned(t, functions, ins, t[ins].(children := cs));
  }

  lemma DestOwned(t: Table, functions: seq<nat>, ins: nat, dest: Option<string>)
    requires Owned(t, functions) && Is(t, ins, Instr)
    ensures Owned(t[ins := t[ins].(name := dest)], functions) && Evolves(t, t[ins := t[ins].(name := dest)])
  {
    assert NodeOk(t, ins);
    InstrFieldsOwned(t, functions, ins, t[ins].(name := dest));
  }

  lemma BlockEditOwned(s: State, e: Edit)
    requires Owned(s.nodes, s.functions) && Accepts(s.nodes, e) && (e.DeleteBlock? || e.Merge?)
    ensures Owned(Apply(s, e).nodes, Apply(s, e).functions) && Evolves(s.nodes, Apply(s, e).nodes)
  {
    if e.DeleteBlock? {
      KillOwned(s.nodes, s.functions, e.blk, LayoutPosition(s.nodes, e.blk));
    } else {
      BlocksOk(s.nodes, s.functions, e.first);
      BlocksOk(s.nodes, s.functions, e.second);
      MergeOwned(s.nodes, s.functions, e.first, e.second, LayoutPosition(s.nodes, e.second));
    }
  }

  lemma SpliceOwned(s: State, e: Edit)
    requires Owned(s.nodes, s.functions) && Accepts(s.nodes, e)
    requires e.Append? || e.ReplaceInstr? || e.InsertBefore? || e.DeleteInstr?
    ensures Owned(Apply(s, e).nodes, Apply(s, e).functions) && Evolves(s.nodes, Apply(s, e).nodes)
  {
    var (t, fs) := (s.nodes, s.functions);
    match e {
      case Append(blk, ins) => AttachOwned(t, fs, blk, |t[blk].children|, ins);
      case ReplaceInstr(o, n) => ReplaceOwned(t, fs, t[o].parent, PositionIn(t[t[o].parent].children, o), n);
      case InsertBefore(a, n) => AttachOwned(t, fs, t[a].parent, PositionIn(t[t[a].parent].children, a), n);
      case DeleteInstr(i) => DetachOwned(t, fs, t[i].parent, PositionIn(t[t[i].parent].children, i));
      case _ =>
    }
  }

  lemma ApplyOwned(s: State, e: Edit)
    requires Owned(s.nodes, s.functions)
    ensures Owned(Apply(s, e).nodes, Apply(s, e).functions) && Evolves(s.nodes, Apply(s, e).nodes)
  {
    var (t, fs) := (s.nodes, s.functions);
    if Accepts(t, e) {
      match e {
        case AddFunction(name, ty) => AddNodeOwned(t, fs, BLANK.(kind := Function, name := Some(name), ty := ty));
        case AddBlockTo(fn, name) => AddBlockOwned(t, fs, fn, name);
        case BuildInstr(op, ty) => AddNodeOwned(t, fs, BLANK.(kind := Instr, opcode := op, ty := ty));
        case MakeOperand(k, name, ty, v) =>
          AddNodeOwned(t, fs, BLANK.(kind := Operand, okind := k, name := name, ty := ty, ival := v));
        case SetDest(ins, dest) => DestOwned(t, fs, ins, dest);
        case AddOperand(ins, o) => OperandsOwned(t, fs, ins, t[ins].children + [o]);
        case SetOperand(ins, k, o) => OperandsOwned(t, fs, ins, t[ins].children[k := o]);
        case DeleteBlock(_) => BlockEditOwned(s, e);
        case Merge(_, _) => BlockEditOwned(s, e);
        case _ => SpliceOwned(s, e);
      }
    }
  }

  // ----- histories -----

  ghost function ApplyAll(s: State, edits: seq<Edit>): State {
    if edits == [] then s else Apply(ApplyAll(s, edits[..|edits| - 1]), edits[|edits| - 1])
  }

  const EMPTY_MODULE: State := State([BLANK], [])

  /** After any sequence of calls, accepted or refused, every live block sits exactly once in its
      function, every attached instruction exactly once in exactly its block, detached and dead
      ones in none; and no dead id was ever revived on the way. */
  lemma {:induction false} HistoryOwned(edits: seq<Edit>)
    ensures Owned(ApplyAll(EMPTY_MODULE, edits).nodes, ApplyAll(EMPTY_MODULE, edits).functions)
    ensures forall n :: 0 <= n <= |edits| ==>
              Evolves(ApplyAll(EMPTY_MODULE, edits[..n]).nodes, ApplyAll(EMPTY_MODULE, edits).nodes)
  {
    if edits == [] {
      assert edits[..0] == [];
    } else {
      var init := edits[..|edits| - 1];
      HistoryOwned(init);
      ApplyOwned(ApplyAll(EMPTY_MODULE, init), edits[|edits| - 1]);
      forall n | 0 <= n <= |edits|
        ensures Evolves(ApplyAll(EMPTY_MODULE, edits[..n]).nodes, ApplyAll(EMPTY_MODULE, edits).nodes)
      {
        if n < |edits| {
          assert init[..n] == edits[..n];
          EvolvesTransitive(ApplyAll(EMPTY_MODULE, edits[..n]).nodes, ApplyAll(EMPTY_MODULE, init).nodes,
                            ApplyAll(EMPTY_MODULE, edits).nodes);
        } else {
          assert edits[..n] == edits;
        }
      }
    }
  }
}
