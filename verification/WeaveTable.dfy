/** The Weave IR node table, its ownership invariant, and what each structural edit does to it. */
module WeaveTable {
  import opened Basics

  datatype NodeKind = Dead | Function | Block | Instr | Operand
  datatype OperandKind = OpReg | OpConstInt | OpConstFloat | OpFunc | OpBlock

  /** `ccw_ir_node`.  Its id is its position in the table; id 0 is nil and permanently dead.
      `name` is a function or block name, an operand name, or an instruction's destination. */
  datatype IrNode = IrNode(kind: NodeKind, parent: nat, name: Option<string>, opcode: string, ty: nat,
                           okind: OperandKind, ival: int, children: seq<nat>, attached: bool)

  type Table = seq<IrNode>

  const BLANK: IrNode := IrNode(Dead, 0, None, "", 0, OpReg, 0, [], false)
  const TY_VOID: nat := 0
  const TY_I64: nat := 5

  predicate Is(t: Table, id: nat, kind: NodeKind) {
    id < |t| && t[id].kind == kind
  }

  // ----- vectors of ids -----

  function RemoveAt(s: seq<nat>, k: nat): (r: seq<nat>)
    requires k < |s|
    ensures forall x :: x in s && x != s[k] ==> x in r
    ensures NoDup(s) ==> NoDup(r) && forall x :: x in r <==> x in s && x != s[k]
  {
    var r := s[..k] + s[k + 1..];
    assert forall i :: 0 <= i < |r| ==> r[i] == if i < k then s[i] else s[i + 1];
    assert forall i :: 0 <= i < |s| && i != k ==> s[i] == if i < k then r[i] else r[i - 1];
    r
  }

  function InsertAt(s: seq<nat>, k: nat, n: nat): (r: seq<nat>)
    requires k <= |s|
    ensures NoDup(s) && n !in s ==> NoDup(r)
    ensures forall x :: x in r <==> x in s || x == n
  {
    var r := s[..k] + [n] + s[k..];
    assert forall i :: 0 <= i < |r| ==> r[i] == if i < k then s[i] else if i == k then n else s[i - 1];
    assert forall i :: 0 <= i < |s| ==> s[i] == if i < k then r[i] else r[i + 1];
    assert r[k] == n;
    r
  }

  function Push(s: seq<nat>, n: nat): (r: seq<nat>)
    ensures NoDup(s) && n !in s ==> NoDup(r)
    ensures forall x :: x in r <==> x in s || x == n
  {
    assert (s + [n])[|s|] == n;
    assert forall i :: 0 <= i < |s| ==> (s + [n])[i] == s[i];
    s + [n]
  }

  // ----- ownership -----

  ghost predicate FunctionOk(t: Table, f: nat)
    requires f < |t|
  {
    NoDup(t[f].children) && forall b :: b in t[f].children ==> Is(t, b, Block) && t[b].parent == f
  }

  ghost predicate BlockOk(t: Table, b: nat)
    requires b < |t|
  {
    && Is(t, t[b].parent, Function) && b in t[t[b].parent].children
    && NoDup(t[b].children)
    && forall i :: i in t[b].children ==> Is(t, i, Instr) && t[i].attached && t[i].parent == b
  }

  ghost predicate InstrOk(t: Table, i: nat)
    requires i < |t|
  {
    && (t[i].attached ==> Is(t, t[i].parent, Block) && i in t[t[i].parent].children)
    && forall o :: o in t[i].children ==> Is(t, o, Operand)
  }

  ghost predicate NodeOk(t: Table, n: nat)
    requires n < |t|
  {
    match t[n].kind
    case Function => FunctionOk(t, n)
    case Block => BlockOk(t, n)
    case Instr => InstrOk(t, n)
    case _ => true
  }

  /** Every live block sits exactly once in exactly its function, every attached instruction
      exactly once in exactly its block, and detached or dead ones in none. */
  ghost predicate Owned(t: Table, functions: seq<nat>) {
    && |t| > 0 && t[0].kind == Dead
    && NoDup(functions) && (forall f :: f in functions <==> Is(t, f, Function))
    && forall n :: 0 <= n < |t| ==> NodeOk(t, n)
  }

  /** Ids are never reused: a node keeps its kind until it dies, and stays dead. */
  ghost predicate Evolves(t: Table, t': Table) {
    |t| <= |t'| && forall n :: 0 <= n < |t| ==> t'[n].kind == t[n].kind || t'[n].kind == Dead
  }

  lemma EvolvesTransitive(t: Table, u: Table, v: Table)
    requires Evolves(t, u) && Evolves(u, v)
    ensures Evolves(t, v)
    ensures forall n :: 0 <= n < |t| && t[n].kind == Dead ==> v[n].kind == Dead
  {
  }

  /** The occurrences of an instruction in block vectors, read off the invariant. */
  lemma OwnershipOfInstr(t: Table, functions: seq<nat>, i: nat)
    requires Owned(t, functions) && i < |t|
    ensures Is(t, i, Instr) && t[i].attached <==> exists b: nat :: Is(t, b, Block) && i in t[b].children
    ensures forall b: nat, c: nat :: Is(t, b, Block) && Is(t, c, Block) && i in t[b].children && i in t[c].children ==> b == c
  {
    if Is(t, i, Instr) && t[i].attached {
      assert NodeOk(t, i);
      assert i in t[t[i].parent].children;
    }
    forall b: nat | Is(t, b, Block) && i in t[b].children
      ensures Is(t, i, Instr) && t[i].attached && t[i].parent == b
    {
      assert NodeOk(t, b);
    }
  }

  // ----- edits, as table transformations -----

  function AddNode(t: Table, n: IrNode): Table {
    t + [n]
  }

  function AddBlock(t: Table, f: nat, name: string): Table
    requires f < |t|
  {
    (t + [BLANK.(kind := Block, name := Some(name), parent := f)])[f := t[f].(children := Push(t[f].children, |t|))]
  }

  function AttachAt(t: Table, b: nat, k: nat, i: nat): Table
    requires b < |t| && i < |t| && b != i && k <= |t[b].children|
  {
    t[b := t[b].(children := InsertAt(t[b].children, k, i))][i := t[i].(parent := b, attached := true)]
  }

  function DetachAt(t: Table, b: nat, k: nat): Table
    requires b < |t| && k < |t[b].children| && t[b].children[k] < |t| && t[b].children[k] != b
  {
    var i := t[b].children[k];
    t[b := t[b].(children := RemoveAt(t[b].children, k))][i := t[i].(parent := 0, attached := false)]
  }

  function ReplaceAt(t: Table, b: nat, k: nat, n: nat): Table
    requires b < |t| && k < |t[b].children| && n < |t| && n != b && t[b].children[k] < |t|
  {
    var o := t[b].children[k];
    var inherited := if t[n].name.None? then t[o].name else t[n].name;
    t[b := t[b].(children := t[b].children[k := n])]
     [n := t[n].(name := inherited, parent := t[o].parent, attached := true)]
     [o := t[o].(attached := false, parent := 0)]
  }

  /** The new instruction stands where the old one stood, in the same block, under the old destination if it
      brought none; the old one is nowhere; every other node is as it was. */
  lemma ReplaceMeans(t: Table, functions: seq<nat>, b: nat, k: nat, n: nat)
    requires Owned(t, functions) && Is(t, b, Block) && k < |t[b].children| && Is(t, n, Instr) && !t[n].attached
    ensures t[b].children[k] < |t| && n != b && n != t[b].children[k]
    ensures var (t', o) := (ReplaceAt(t, b, k, n), t[b].children[k]);
            && |t'| == |t| && |t'[b].children| == |t[b].children| && t'[b].children[k] == n
            && (forall j :: 0 <= j < |t[b].children| && j != k ==> t'[b].children[j] == t[b].children[j])
            && t'[n].parent == b && t'[n].attached && t'[n].opcode == t[n].opcode && t'[n].children == t[n].children
            && t'[n].name == (if t[n].name.Some? then t[n].name else t[o].name)
            && !t'[o].attached && t'[o].parent == 0
            && forall m :: 0 <= m < |t| && m != b && m != n && m != o ==> t'[m] == t[m]
  {
    assert NodeOk(t, b);
    assert t[b].children[k] in t[b].children;
  }

  /** The new instruction comes immediately before the anchor; all others keep their order. */
  lemma InsertMeans(t: Table, functions: seq<nat>, b: nat, k: nat, n: nat)
    requires Owned(t, functions) && Is(t, b, Block) && k < |t[b].children| && Is(t, n, Instr) && !t[n].attached
    ensures n != b
    ensures var (t', cs) := (AttachAt(t, b, k, n), t[b].children);
            && |t'| == |t| && |t'[b].children| == |cs| + 1 && t'[b].children[k] == n && t'[b].children[k + 1] == cs[k]
            && (forall j :: 0 <= j < |cs| ==> t'[b].children[if j < k then j else j + 1] == cs[j])
            && t'[n] == t[n].(parent := b, attached := true)
            && forall m :: 0 <= m < |t| && m != b && m != n ==> t'[m] == t[m]
  {
  }

  /** The instruction is in no block any more; all others keep their order. */
  lemma DeleteMeans(t: Table, functions: seq<nat>, b: nat, k: nat)
    requires Owned(t, functions) && Is(t, b, Block) && k < |t[b].children|
    ensures t[b].children[k] < |t| && t[b].children[k] != b
    ensures var (t', cs) := (DetachAt(t, b, k), t[b].children);
            && |t'| == |t| && |t'[b].children| == |cs| - 1 && cs[k] !in t'[b].children
            && (forall j :: 0 <= j < |cs| && j != k ==> t'[b].children[if j < k then j else j - 1] == cs[j])
            && t'[cs[k]] == t[cs[k]].(parent := 0, attached := false)
            && forall m :: 0 <= m < |t| && m != b && m != cs[k] ==> t'[m] == t[m]
  {
    assert NodeOk(t, b);
    assert t[b].children[k] in t[b].children;
  }

  function KillBlock(t: Table, b: nat, k: nat): (t': Table)
    requires b < |t| && t[b].parent < |t| && k < |t[t[b].parent].children|
    ensures |t'| == |t|
  {
    seq(|t|, n requires 0 <= n < |t| =>
      if n == b then t[n].(kind := Dead)
      else if n == t[b].parent then t[n].(children := RemoveAt(t[n].children, k))
      else if n in t[b].children then t[n].(kind := Dead, attached := false)
      else t[n])
  }

  /** Block `b`, at position `k` of its function, merged into block `a`. */
  function MergeBlocks(t: Table, a: nat, b: nat, k: nat): (t': Table)
    requires a < |t| && b < |t| && t[a].children != [] && t[a].parent < |t| && k < |t[t[a].parent].children|
    ensures |t'| == |t|
  {
    var last := |t[a].children| - 1;
    var jump := t[a].children[last];
    seq(|t|, n requires 0 <= n < |t| =>
      if n == a && n == b then t[n].(kind := Dead, children := t[a].children[..last])
      else if n == a then t[n].(children := t[a].children[..last] + t[b].children)
      else if n == b then t[n].(kind := Dead)
      else if n == t[a].parent then t[n].(children := RemoveAt(t[n].children, k))
      else if n == jump then t[n].(kind := Dead, attached := false)
      else if n in t[b].children then t[n].(parent := a)
      else t[n])
  }

  // ----- every edit keeps ownership -----

  lemma AddNodeOwned(t: Table, functions: seq<nat>, n: IrNode)
    requires Owned(t, functions) && n.children == [] && !n.attached && n.kind in {Instr, Operand, Function}
    ensures Owned(AddNode(t, n), if n.kind == Function then Push(functions, |t|) else functions)
    ensures Evolves(t, AddNode(t, n))
  {
    var t' := AddNode(t, n);
    forall m | 0 <= m < |t'| ensures NodeOk(t', m) {
      if m < |t| {
        assert NodeOk(t, m);
      }
    }
  }

  lemma AddBlockOwned(t: Table, functions: seq<nat>, f: nat, name: string)
    requires Owned(t, functions) && Is(t, f, Function)
    ensures Owned(AddBlock(t, f, name), functions) && Evolves(t, AddBlock(t, f, name))
  {
    var t' := AddBlock(t, f, name);
    assert NodeOk(t, f);
    forall m | 0 <= m < |t'| ensures NodeOk(t', m) {
      if m < |t| {
        assert NodeOk(t, m);
        if Is(t, m, Block) {
          assert forall x :: x in t[f].children ==> x in t'[f].children;
        }
      } else {
        assert t'[f].children[|t[f].children|] == |t|;
      }
    }
  }

  lemma AttachOwned(t: Table, functions: seq<nat>, b: nat, k: nat, i: nat)
    requires Owned(t, functions) && Is(t, b, Block) && k <= |t[b].children| && Is(t, i, Instr) && !t[i].attached
    ensures Owned(AttachAt(t, b, k, i), functions) && Evolves(t, AttachAt(t, b, k, i))
  {
    var t' := AttachAt(t, b, k, i);
    forall m | 0 <= m < |t'| ensures NodeOk(t', m) {
      AttachNodeOk(t, functions, b, k, i, m);
    }
  }

  lemma AttachNodeOk(t: Table, functions: seq<nat>, b: nat, k: nat, i: nat, m: nat)
    requires Owned(t, functions) && Is(t, b, Block) && k <= |t[b].children| && Is(t, i, Instr) && !t[i].attached && m < |t|
    ensures NodeOk(AttachAt(t, b, k, i), m)
  {
    assert NodeOk(t, b);
    assert NodeOk(t, m);
  }

  lemma DetachOwned(t: Table, functions: seq<nat>, b: nat, k: nat)
    requires Owned(t, functions) && Is(t, b, Block) && k < |t[b].children|
    ensures t[b].children[k] < |t| && t[b].children[k] != b
    ensures Owned(DetachAt(t, b, k), functions) && Evolves(t, DetachAt(t, b, k))
  {
    assert NodeOk(t, b);
    assert t[b].children[k] in t[b].children;
    var t' := DetachAt(t, b, k);
    forall m | 0 <= m < |t'| ensures NodeOk(t', m) {
      assert NodeOk(t, m);
    }
  }

  lemma ReplacedMembers(s: seq<nat>, k: nat, n: nat)
    requires NoDup(s) && k < |s| && n !in s
    ensures NoDup(s[k := n])
    ensures forall x :: x in s[k := n] <==> x == n || (x in s && x != s[k])
  {
    var r := s[k := n];
    assert r[k] == n;
    assert forall j :: 0 <= j < |s| && j != k ==> r[j] == s[j];
  }

  lemma ReplaceBlockOk(t: Table, b: nat, k: nat, n: nat, m: nat)
    requires Is(t, b, Block) && BlockOk(t, b) && k < |t[b].children| && Is(t, n, Instr) && !t[n].attached
    requires Is(t, m, Block) && BlockOk(t, m) && t[b].children[k] in t[b].children
    ensures NodeOk(ReplaceAt(t, b, k, n), m)
  {
    var t' := ReplaceAt(t, b, k, n);
    if m == b {
      ReplacedMembers(t[b].children, k, n);
      assert t'[b].children == t[b].children[k := n];
      forall i | i in t'[b].children ensures Is(t', i, Instr) && t'[i].attached && t'[i].parent == b {
        assert i == n || (i in t[b].children && i != t[b].children[k]);
      }
    } else {
      assert t'[m] == t[m];
      forall i | i in t[m].children ensures t'[i] == t[i] {
        assert i != n && i != t[b].children[k];
      }
    }
  }

  lemma ReplaceInstrOk(t: Table, b: nat, k: nat, n: nat, m: nat)
    requires Is(t, b, Block) && BlockOk(t, b) && k < |t[b].children| && Is(t, n, Instr) && !t[n].attached
    requires Is(t, m, Instr) && InstrOk(t, m) && t[b].children[k] in t[b].children
    ensures NodeOk(ReplaceAt(t, b, k, n), m)
  {
    ReplacedMembers(t[b].children, k, n);
    var t' := ReplaceAt(t, b, k, n);
    assert t'[m].children == t[m].children;
    if m != n && m != t[b].children[k] {
      assert t'[m] == t[m];
    }
  }

  lemma ReplaceOwned(t: Table, functions: seq<nat>, b: nat, k: nat, n: nat)
    requires Owned(t, functions) && Is(t, b, Block) && k < |t[b].children| && Is(t, n, Instr) && !t[n].attached
    ensures t[b].children[k] < |t| && t[b].children[k] != n
    ensures Owned(ReplaceAt(t, b, k, n), functions) && Evolves(t, ReplaceAt(t, b, k, n))
  {
    assert NodeOk(t, b);
    assert t[b].children[k] in t[b].children;
    var t' := ReplaceAt(t, b, k, n);
    forall m | 0 <= m < |t'| ensures NodeOk(t', m) {
      assert NodeOk(t, m);
      if t[m].kind == Block {
        ReplaceBlockOk(t, b, k, n, m);
      } else if t[m].kind == Instr {
        ReplaceInstrOk(t, b, k, n, m);
      }
    }
  }

  /** Block `b` sits at position `k` of its function. */
  ghost predicate SitsAt(t: Table, b: nat, k: nat) {
    Is(t, b, Block) && t[b].parent < |t| && k < |t[t[b].parent].children| && t[t[b].parent].children[k] == b
  }

  lemma KillFunctionOk(t: Table, b: nat, k: nat, m: nat)
    requires SitsAt(t, b, k) && BlockOk(t, b) && Is(t, m, Function) && FunctionOk(t, m)
    ensures NodeOk(KillBlock(t, b, k), m)
  {
    var t' := KillBlock(t, b, k);
    assert t'[m].kind == Function;
    forall c | c in t'[m].children ensures Is(t', c, Block) && t'[c].parent == m {
      assert c in t[m].children && c != b;
    }
  }

  lemma KillBlockOk(t: Table, b: nat, k: nat, m: nat)
    requires SitsAt(t, b, k) && BlockOk(t, b) && Is(t, m, Block) && BlockOk(t, m)
    ensures NodeOk(KillBlock(t, b, k), m)
  {
    var t' := KillBlock(t, b, k);
    if m != b {
      assert t'[m] == t[m];
      assert t'[t[m].parent].kind == Function;
      assert m in t'[t[m].parent].children;
      forall i | i in t[m].children ensures Is(t', i, Instr) && t'[i].attached && t'[i].parent == m {
        assert i !in t[b].children;
      }
    }
  }

  lemma KillInstrOk(t: Table, b: nat, k: nat, m: nat)
    requires SitsAt(t, b, k) && BlockOk(t, b) && Is(t, m, Instr) && InstrOk(t, m)
    ensures NodeOk(KillBlock(t, b, k), m)
  {
    var t' := KillBlock(t, b, k);
    if m !in t[b].children {
      assert t'[m] == t[m];
      forall o | o in t[m].children ensures Is(t', o, Operand) {
        assert o !in t[b].children;
      }
    }
  }

  lemma KillNodeOk(t: Table, functions: seq<nat>, b: nat, k: nat, m: nat)
    requires Owned(t, functions) && SitsAt(t, b, k) && m < |t|
    ensures NodeOk(KillBlock(t, b, k), m)
  {
    assert NodeOk(t, b) && NodeOk(t, m);
    if t[m].kind == Function {
      KillFunctionOk(t, b, k, m);
    } else if t[m].kind == Block {
      KillBlockOk(t, b, k, m);
    } else if t[m].kind == Instr {
      KillInstrOk(t, b, k, m);
    } else {
      assert KillBlock(t, b, k)[m].kind == t[m].kind;
    }
  }

  lemma KillOwned(t: Table, functions: seq<nat>, b: nat, k: nat)
    requires Owned(t, functions) && SitsAt(t, b, k)
    ensures Owned(KillBlock(t, b, k), functions) && Evolves(t, KillBlock(t, b, k))
  {
    var t' := KillBlock(t, b, k);
    assert NodeOk(t, b);
    forall m | 0 <= m < |t'| ensures NodeOk(t', m) {
      KillNodeOk(t, functions, b, k, m);
    }
  }

  /** Block `b`, at position `k` of its function, can be merged into block `a`. */
  ghost predicate MergeArgs(t: Table, a: nat, b: nat, k: nat) {
    && SitsAt(t, b, k) && BlockOk(t, b) && Is(t, a, Block) && BlockOk(t, a)
    && t[a].parent == t[b].parent && t[a].children != []
    && (a == b ==> |t[a].children| == 1)
  }

  lemma MergedChildren(t: Table, a: nat, b: nat, k: nat)
    requires MergeArgs(t, a, b, k) && a != b
    ensures var last := |t[a].children| - 1;
            var cs := t[a].children[..last] + t[b].children;
            NoDup(cs) && forall i :: i in cs <==> i != t[a].children[last] && (i in t[a].children || i in t[b].children)
  {
    var last := |t[a].children| - 1;
    var cs := t[a].children[..last] + t[b].children;
    assert forall i :: i in t[a].children[..last] <==> i in t[a].children && i != t[a].children[last];
    assert t[a].children[last] in t[a].children;
    forall i, j | 0 <= i < |t[a].children| && 0 <= j < |t[b].children| ensures t[a].children[i] != t[b].children[j] {
      assert t[a].children[i] in t[a].children && t[b].children[j] in t[b].children;
    }
  }

  lemma MergeFunctionOk(t: Table, a: nat, b: nat, k: nat, m: nat)
    requires MergeArgs(t, a, b, k) && Is(t, m, Function) && FunctionOk(t, m)
    ensures NodeOk(MergeBlocks(t, a, b, k), m)
  {
    var t' := MergeBlocks(t, a, b, k);
    var jump := t[a].children[|t[a].children| - 1];
    assert jump in t[a].children;
    assert t'[m].kind == Function;
    forall c | c in t'[m].children ensures Is(t', c, Block) && t'[c].parent == m {
      assert c in t[m].children && c != b;
    }
  }

  lemma MergeFirstOk(t: Table, a: nat, b: nat, k: nat)
    requires MergeArgs(t, a, b, k) && a != b
    ensures NodeOk(MergeBlocks(t, a, b, k), a)
  {
    var t' := MergeBlocks(t, a, b, k);
    assert t[a].children[|t[a].children| - 1] in t[a].children;
    MergedChildren(t, a, b, k);
    forall i | i in t'[a].children ensures Is(t', i, Instr) && t'[i].attached && t'[i].parent == a {
      assert i in t[a].children || i in t[b].children;
    }
    assert a in t'[t[a].parent].children;
  }

  /** The instructions of a block, as far as their parents go. */
  ghost predicate Children(t: Table, b: nat)
    requires b < |t|
  {
    forall i :: i in t[b].children ==> Is(t, i, Instr) && t[i].parent == b
  }

  lemma MergeOtherKept(t: Table, a: nat, b: nat, k: nat, m: nat)
    requires Is(t, a, Block) && Is(t, b, Block) && Is(t, m, Block) && m != a && m != b
    requires t[a].children != [] && t[a].parent < |t| && k < |t[t[a].parent].children| && Is(t, t[a].parent, Function)
    requires Children(t, a) && Children(t, b) && Children(t, m)
    ensures MergeBlocks(t, a, b, k)[m] == t[m]
    ensures forall i :: i in t[m].children ==> MergeBlocks(t, a, b, k)[i] == t[i]
  {
    assert t[a].children[|t[a].children| - 1] in t[a].children;
    forall i | i in t[m].children ensures MergeBlocks(t, a, b, k)[i] == t[i] {
      assert i !in t[a].children && i !in t[b].children;
    }
  }

  lemma MergeOtherOk(t: Table, a: nat, b: nat, k: nat, m: nat)
    requires MergeArgs(t, a, b, k) && Is(t, m, Block) && BlockOk(t, m) && m != a && m != b
    ensures NodeOk(MergeBlocks(t, a, b, k), m)
  {
    var t' := MergeBlocks(t, a, b, k);
    MergeOtherKept(t, a, b, k, m);
    assert t'[t[m].parent].kind == Function && m in t'[t[m].parent].children;
  }

  lemma MergeBlockOk(t: Table, a: nat, b: nat, k: nat, m: nat)
    requires MergeArgs(t, a, b, k) && Is(t, m, Block) && BlockOk(t, m)
    ensures NodeOk(MergeBlocks(t, a, b, k), m)
  {
    if m == b {
      assert MergeBlocks(t, a, b, k)[m].kind == Dead;
    } else if m == a {
      MergeFirstOk(t, a, b, k);
    } else {
      MergeOtherOk(t, a, b, k, m);
    }
  }

  lemma MergeMovedInstr(t: Table, a: nat, b: nat, k: nat, m: nat)
    requires MergeArgs(t, a, b, k) && a != b && Is(t, m, Instr) && (m in t[a].children || m in t[b].children)
    requires m != t[a].children[|t[a].children| - 1]
    ensures var t' := MergeBlocks(t, a, b, k); t'[m].parent == a && Is(t', a, Block) && m in t'[a].children
  {
    MergedChildren(t, a, b, k);
  }

  lemma MergeInstrAttached(t: Table, a: nat, b: nat, k: nat, m: nat)
    requires MergeArgs(t, a, b, k) && Is(t, m, Instr) && InstrOk(t, m) && t[m].attached
    requires m != t[a].children[|t[a].children| - 1]
    ensures var t' := MergeBlocks(t, a, b, k); Is(t', t'[m].parent, Block) && m in t'[t'[m].parent].children
  {
    var p := t[m].parent;
    if (p == a || p == b) && a != b {
      MergeMovedInstr(t, a, b, k, m);
    } else {
      assert p != a && p != b;
      assert t[a].children[|t[a].children| - 1] in t[a].children;
      assert MergeBlocks(t, a, b, k)[m] == t[m] && MergeBlocks(t, a, b, k)[p] == t[p];
    }
  }

  lemma MergeInstrOk(t: Table, a: nat, b: nat, k: nat, m: nat)
    requires MergeArgs(t, a, b, k) && Is(t, m, Instr) && InstrOk(t, m)
    ensures NodeOk(MergeBlocks(t, a, b, k), m)
  {
    var t' := MergeBlocks(t, a, b, k);
    var jump := t[a].children[|t[a].children| - 1];
    assert jump in t[a].children;
    if m != jump {
      assert t'[m].children == t[m].children && t'[m].attached == t[m].attached;
      forall o | o in t[m].children ensures Is(t', o, Operand) {
        assert o !in t[b].children && o != jump;
      }
      if t[m].attached {
        MergeInstrAttached(t, a, b, k, m);
      }
    }
  }

  lemma MergeOwned(t: Table, functions: seq<nat>, a: nat, b: nat, k: nat)
    requires Owned(t, functions) && MergeArgs(t, a, b, k)
    ensures Owned(MergeBlocks(t, a, b, k), functions) && Evolves(t, MergeBlocks(t, a, b, k))
  {
    var t' := MergeBlocks(t, a, b, k);
    assert t[a].children[|t[a].children| - 1] in t[a].children;
    forall m | 0 <= m < |t'| ensures NodeOk(t', m) {
      assert NodeOk(t, m);
      if t[m].kind == Function {
        MergeFunctionOk(t, a, b, k, m);
      } else if t[m].kind == Block {
        MergeBlockOk(t, a, b, k, m);
      } else if t[m].kind == Instr {
        MergeInstrOk(t, a, b, k, m);
      }
    }
  }
}
