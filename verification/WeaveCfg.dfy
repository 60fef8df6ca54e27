/** The control-flow graph derived from terminators, and runs over it. */
module WeaveCfg {
  import opened Basics
  import opened WeaveTable

  predicate IsTerminatorOpcode(op: string) {
    op == "br" || op == "br.cond" || op == "switch" || op == "ret"
  }

  // ----- successors -----

  /** The first block of the list with the given name; 0 if there is none. */
  function FirstNamed(t: Table, blocks: seq<nat>, name: Option<string>): nat {
    if name.None? || blocks == [] then 0
    else if Is(t, blocks[0], Block) && t[blocks[0]].name == name then blocks[0]
    else FirstNamed(t, blocks[1..], name)
  }

  function Layout(t: Table, b: nat): seq<nat>
    requires b < |t|
  {
    if Is(t, t[b].parent, Function) then t[t[b].parent].children else []
  }

  /** The block an operand resolves to in the given layout; 0 if it is not a resolvable block name. */
  function OperandTarget(t: Table, layout: seq<nat>, o: nat): nat {
    if Is(t, o, Operand) && t[o].okind == OpBlock then FirstNamed(t, layout, t[o].name) else 0
  }

  function Resolved(t: Table, layout: seq<nat>, operands: seq<nat>): seq<nat> {
    if operands == [] then []
    else
      var init, target := Resolved(t, layout, operands[..|operands| - 1]), OperandTarget(t, layout, operands[|operands| - 1]);
      if target == 0 then init else init + [target]
  }

  /** The terminator's operands, empty when the block does not end in a recognised terminator. */
  function JumpOperands(t: Table, b: nat): seq<nat> {
    if !Is(t, b, Block) || t[b].children == [] then []
    else
      var last := t[b].children[|t[b].children| - 1];
      if Is(t, last, Instr) && IsTerminatorOpcode(t[last].opcode) then t[last].children else []
  }

  /** Resolved targets with repetitions. */
  function RawTargets(t: Table, b: nat): seq<nat> {
    if b < |t| then Resolved(t, Layout(t, b), JumpOperands(t, b)) else []
  }

  function Dedup(s: seq<nat>): (r: seq<nat>)
    ensures NoDup(r) && |r| <= |s|
    ensures forall x :: x in r <==> x in s
  {
    if s == [] then []
    else
      assert s == s[..|s| - 1] + [s[|s| - 1]];
      var init, last := Dedup(s[..|s| - 1]), s[|s| - 1];
      if last in init then init else Push(init, last)
  }

  /** The successor blocks, first occurrences in operand order. */
  function Succs(t: Table, b: nat): seq<nat> {
    Dedup(RawTargets(t, b))
  }

  // ----- counting successors through a buffer -----

  /** What a buffer of the given capacity holds of the targets: the first distinct ones. */
  function Stored(raw: seq<nat>, capacity: nat): seq<nat> {
    if |Dedup(raw)| <= capacity then Dedup(raw) else Dedup(raw)[..capacity]
  }

  /** How many entries the buffer does not hold. */
  function Outside(raw: seq<nat>, stored: seq<nat>): nat {
    if raw == [] then 0
    else Outside(raw[..|raw| - 1], stored) + if raw[|raw| - 1] in stored then 0 else 1
  }

  /** The count: repetitions are only noticed of what the buffer holds. */
  function Counted(raw: seq<nat>, capacity: nat): nat {
    |Stored(raw, capacity)| + Outside(raw, Stored(raw, capacity))
  }

  lemma DedupStep(s: seq<nat>, x: nat)
    ensures Dedup(s + [x]) == if x in Dedup(s) then Dedup(s) else Dedup(s) + [x]
    ensures |Dedup(s)| <= |s|
  {
    assert (s + [x])[..|s|] == s;
  }

  lemma {:induction false} NothingOutside(raw: seq<nat>, stored: seq<nat>)
    requires forall x :: x in raw ==> x in stored
    ensures Outside(raw, stored) == 0
  {
    if raw != [] {
      assert raw[|raw| - 1] in raw;
      NothingOutside(raw[..|raw| - 1], stored);
    }
  }

  lemma {:induction false} AllOutside(raw: seq<nat>)
    ensures Outside(raw, []) == |raw|
  {
    if raw != [] {
      AllOutside(raw[..|raw| - 1]);
    }
  }

  /** With room for all distinct targets, those are stored and counted; without a buffer, every entry is counted. */
  lemma CountedExactly(raw: seq<nat>, capacity: nat)
    ensures |Dedup(raw)| <= capacity ==> Stored(raw, capacity) == Dedup(raw) && Counted(raw, capacity) == |Dedup(raw)|
    ensures Counted(raw, 0) == |raw|
  {
    if |Dedup(raw)| <= capacity {
      NothingOutside(raw, Dedup(raw));
    }
    assert Stored(raw, 0) == [];
    AllOutside(raw);
  }

  /** One more target: known, stored, or counted only. */
  lemma CountedStep(raw: seq<nat>, x: nat, capacity: nat)
    ensures var (before, after) := (Stored(raw, capacity), Stored(raw + [x], capacity));
            && after == (if x in before || |before| >= capacity then before else before + [x])
            && Counted(raw + [x], capacity) == Counted(raw, capacity) + (if x in before then 0 else 1)
            && (Counted(raw, capacity) < capacity <==> |before| < capacity)
            && (|before| < capacity ==> Counted(raw, capacity) == |before|)
  {
    DedupStep(raw, x);
    assert (raw + [x])[..|raw|] == raw;
    if |Stored(raw, capacity)| < capacity {
      CountedExactly(raw, capacity);
      CountedExactly(raw + [x], capacity);
    }
  }

  /** The number of entries is the number of distinct targets if and only if none is repeated. */
  lemma {:induction false} NoRepeatsExactly(raw: seq<nat>)
    ensures |raw| == |Dedup(raw)| <==> NoDup(raw)
  {
    if raw != [] {
      var (init, last) := (raw[..|raw| - 1], raw[|raw| - 1]);
      NoRepeatsExactly(init);
      assert raw == init + [last];
      DedupStep(init, last);
      NoDupAppend(init, last);
    }
  }

  lemma NoDupAppend(s: seq<nat>, x: nat)
    ensures NoDup(s + [x]) <==> NoDup(s) && x !in s
  {
    var r := s + [x];
    assert forall i :: 0 <= i < |s| ==> r[i] == s[i];
    assert r[|s|] == x;
  }

  // ----- predecessors -----

  function Filter(t: Table, layout: seq<nat>, b: nat): seq<nat> {
    if layout == [] then []
    else
      var init, last := Filter(t, layout[..|layout| - 1], b), layout[|layout| - 1];
      if b in Succs(t, last) then init + [last] else init
  }

  /** The blocks of the function, in layout order, that have `b` among their successors. */
  function Preds(t: Table, b: nat): seq<nat> {
    if Is(t, b, Block) then Filter(t, Layout(t, b), b) else []
  }

  // ----- facts about targets -----

  lemma {:induction false} FirstNamedFound(t: Table, blocks: seq<nat>, name: Option<string>)
    ensures FirstNamed(t, blocks, name) != 0 ==>
              FirstNamed(t, blocks, name) in blocks && Is(t, FirstNamed(t, blocks, name), Block)
  {
    if name.Some? && blocks != [] {
      FirstNamedFound(t, blocks[1..], name);
    }
  }

  lemma {:induction false} ResolvedTargets(t: Table, layout: seq<nat>, operands: seq<nat>)
    ensures forall x :: x in Resolved(t, layout, operands) <==>
              x != 0 && exists k :: 0 <= k < |operands| && OperandTarget(t, layout, operands[k]) == x
    ensures forall x :: x in Resolved(t, layout, operands) ==> x in layout && Is(t, x, Block)
  {
    if operands != [] {
      var init := operands[..|operands| - 1];
      ResolvedTargets(t, layout, init);
      var o := operands[|operands| - 1];
      if OperandTarget(t, layout, o) != 0 {
        FirstNamedFound(t, layout, t[o].name);
      }
      forall x ensures x in Resolved(t, layout, operands) <==>
                       x != 0 && exists k :: 0 <= k < |operands| && OperandTarget(t, layout, operands[k]) == x
      {
        if x in Resolved(t, layout, init) {
          var k :| 0 <= k < |init| && OperandTarget(t, layout, init[k]) == x;
          assert operands[k] == init[k];
        }
        if k :| x != 0 && 0 <= k < |operands| && OperandTarget(t, layout, operands[k]) == x {
          assert k < |init| ==> init[k] == operands[k];
        }
      }
    }
  }

  lemma SuccsAreBlocks(t: Table, b: nat)
    requires b < |t|
    ensures forall x :: x in Succs(t, b) ==> x in Layout(t, b) && Is(t, x, Block) && x != 0
  {
    ResolvedTargets(t, Layout(t, b), JumpOperands(t, b));
  }

  lemma {:induction false} FilterMembers(t: Table, layout: seq<nat>, b: nat)
    requires NoDup(layout)
    ensures NoDup(Filter(t, layout, b))
    ensures forall x :: x in Filter(t, layout, b) <==> x in layout && b in Succs(t, x)
  {
    if layout != [] {
      var (init, last) := (layout[..|layout| - 1], layout[|layout| - 1]);
      FilterMembers(t, init, b);
      assert layout == init + [last];
      NoDupAppend(init, last);
      NoDupAppend(Filter(t, init, b), last);
    }
  }

  /** Predecessors and successors are each other's mirror image, and neither list repeats a block. */
  lemma CfgDuality(t: Table, functions: seq<nat>, a: nat, b: nat)
    requires Owned(t, functions) && Is(t, a, Block) && Is(t, b, Block)
    ensures a in Preds(t, b) <==> b in Succs(t, a)
    ensures NoDup(Preds(t, b)) && NoDup(Succs(t, a))
    ensures b in Succs(t, a) ==> t[a].parent == t[b].parent
  {
    assert NodeOk(t, a) && NodeOk(t, b) && NodeOk(t, t[a].parent) && NodeOk(t, t[b].parent);
    FilterMembers(t, Layout(t, b), b);
    SuccsAreBlocks(t, a);
  }

  ghost function LeadsTo(t: Table, b: nat): nat -> bool {
    (x: nat) => b in Succs(t, x)
  }

  lemma {:induction false} FilterSelects(t: Table, layout: seq<nat>, b: nat)
    ensures Filter(t, layout, b) == Select(layout, LeadsTo(t, b))
  {
    if layout != [] {
      FilterSelects(t, layout[..|layout| - 1], b);
    }
  }

  /** Predecessors are exactly the blocks that lead to a block, in layout order. */
  lemma FilterInOrder(t: Table, layout: seq<nat>, b: nat) returns (at: seq<nat>)
    ensures Selected(Filter(t, layout, b), layout, LeadsTo(t, b), at)
  {
    FilterSelects(t, layout, b);
    at := SelectInOrder(layout, LeadsTo(t, b));
  }

  // ----- runs -----

  /** What a block executes apart from the jump that leaves it. */
  function Emits(t: Table, b: nat): seq<nat> {
    if !Is(t, b, Block) then []
    else if Succs(t, b) != [] && t[b].children != [] then t[b].children[..|t[b].children| - 1]
    else t[b].children
  }

  /** A control-flow graph: for every block its successors and what it executes. */
  datatype Flow = Flow(succs: seq<seq<nat>>, emits: seq<seq<nat>>)

  function FlowOf(t: Table): (g: Flow)
    ensures |g.succs| == |g.emits| == |t|
    ensures forall b :: 0 <= b < |t| ==> g.succs[b] == Succs(t, b) && g.emits[b] == Emits(t, b)
  {
    Flow(seq(|t|, b requires 0 <= b < |t| => Succs(t, b)), seq(|t|, b requires 0 <= b < |t| => Emits(t, b)))
  }

  /** A branch oracle decides the k-th real choice of a run. */
  type Oracle = nat -> nat

  /** Where a run stands: at a block, or nowhere; and how many choices it has made. */
  datatype Point = Point(at: Option<nat>, choices: nat)

  /** Where control goes from the end of a block: nowhere, to the only successor, or to the
      successor the oracle picks. */
  function Next(g: Flow, b: nat, oracle: Oracle, choices: nat): Point {
    if b >= |g.succs| || g.succs[b] == [] then Point(None, choices)
    else if |g.succs[b]| == 1 then Point(Some(g.succs[b][0]), choices)
    else Point(Some(g.succs[b][oracle(choices) % |g.succs[b]|]), choices + 1)
  }

  datatype Trace = Trace(executed: seq<nat>, end: Point)

  function EmitsAt(g: Flow, b: nat): seq<nat> {
    if b < |g.emits| then g.emits[b] else []
  }

  /** The instructions executed by `n` blocks of a run, and where it then stands. */
  function Run(g: Flow, p: Point, oracle: Oracle, n: nat): Trace
    decreases n
  {
    if n == 0 || p.at.None? then Trace([], p)
    else
      var rest := Run(g, Next(g, p.at.value, oracle, p.choices), oracle, n - 1);
      Trace(EmitsAt(g, p.at.value) + rest.executed, rest.end)
  }

  /** A longer run only adds to what a shorter one executed. */
  lemma {:induction false} RunPrefix(g: Flow, p: Point, oracle: Oracle, n: nat, m: nat)
    requires n <= m
    ensures Run(g, p, oracle, n).executed <= Run(g, p, oracle, m).executed
    decreases n
  {
    if n > 0 && p.at.Some? {
      RunPrefix(g, Next(g, p.at.value, oracle, p.choices), oracle, n - 1, m - 1);
    }
  }
}
