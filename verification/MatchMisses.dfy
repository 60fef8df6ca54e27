/** For every pattern that is not committed, a hash-consed e-graph in which the matcher misses a match.

Leaf classes 0 and 1 stand for two registers, 2 and 3 for the constants 0 and 1.  A term is spelled
in a world: variables in the world stand for register 1 or constant 1, all others for register 0 or
constant 0.  Where the pattern is not committed, a class is given two operators: first one spelled
with the offending variable in the world, then one spelled without.  The matcher takes the first,
and nothing else in the e-graph fits that choice. */
module MatchMisses {
  import opened Basics
  import opened Terms
  import opened EGraphs
  import opened Matching
  import opened MatchCompleteness
  import Numerals

  type World = set<string>

  function Bit(w: World, x: string): nat {
    if x in w then 1 else 0
  }

  /** The bindings of the variables of `t` are those of the world. */
  ghost predicate Agrees(t: PTerm, w: World, b: seq<Binding>) {
    && (forall x :: x in VarNames(t) ==> Lookup(b, x) == Some(ToClass(x, Bit(w, x))))
    && (forall x :: x in ConstNames(t) ==> Lookup(b, x) == Some(ToValue(x, Bit(w, x))))
  }

  // ----- e-graphs that spell terms -----

  predicate Solid(n: ENode) {
    n.isConst || n.children != []
  }

  ghost predicate LoneExcept(s: Graph, p: int) {
    forall i, j {:trigger Solid(s.nodes[i]), Solid(s.nodes[j])} ::
      0 <= i < |s.nodes| && 0 <= j < |s.nodes| && s.rt[i] == s.rt[j] && Solid(s.nodes[i]) && Solid(s.nodes[j]) ==>
        i == j || s.rt[i] == p
  }

  /** Registers are named by their own index, or not at all. */
  ghost predicate RegistersNumbered(s: Graph) {
    forall i :: 0 <= i < |s.nodes| && !s.nodes[i].isConst && s.nodes[i].opcode == "" && s.nodes[i].children == [] ==>
      s.nodes[i].reg == "" || s.nodes[i].reg == Numerals.Decimal(i)
  }

  /** An e-graph, and the one class of it that may have two solid members; a negative number if none may. */
  datatype Scene = Scene(graph: Graph, p: int)

  /** A hash-consed e-graph over the four leaf classes in which no class but `p` has two solid members. */
  ghost predicate Tidy(z: Scene) {
    var s := z.graph;
    && 4 <= |s.nodes| && s.rt[0] == 0 && s.rt[1] == 1 && s.rt[2] == 2 && s.rt[3] == 3
    && IsConstant(s.nodes[2], 0) && IsConstant(s.nodes[3], 1)
    && (z.p < 0 || 4 <= z.p) && HashConsed(s.nodes) && RegistersNumbered(s) && LoneExcept(s, z.p)
  }

  /** The class of `c` spells the term in the world, without class `p`. */
  ghost predicate Spells(z: Scene, t: PTerm, c: nat, w: World)
    requires c < |z.graph.nodes|
    decreases t, 1
  {
    match t
    case PVar(x) => z.graph.rt[c] == Bit(w, x)
    case PConst(v) => exists j :: 0 <= j < |z.graph.nodes| && z.graph.rt[j] == z.graph.rt[c] && IsConstant(z.graph.nodes[j], v)
    case PConstVar(x) => z.graph.rt[c] == 2 + Bit(w, x)
    case POp(_, args) =>
      && (args != [] ==> z.graph.rt[c] != z.p)
      && exists m: nat :: m < |z.graph.nodes| && z.graph.rt[m] == z.graph.rt[c] && SpellsAt(z, t, m, w)
  }

  ghost predicate Labelled(n: ENode, t: PTerm) {
    t.POp? && !n.isConst && n.opcode == t.op && |n.children| == |t.args|
  }

  ghost predicate SpellsAt(z: Scene, t: PTerm, m: nat, w: World)
    requires m < |z.graph.nodes| && t.POp?
    decreases t, 0
  {
    && Labelled(z.graph.nodes[m], t)
    && forall k :: 0 <= k < |t.args| ==> Spells(z, t.args[k], z.graph.nodes[m].children[k], w)
  }

  ghost predicate AllSpelled(z: Scene, ts: seq<PTerm>, cs: seq<nat>, w: World) {
    |ts| == |cs| && forall k :: 0 <= k < |ts| ==> cs[k] < |z.graph.nodes| && Spells(z, ts[k], cs[k], w)
  }

  ghost predicate Later(s: Graph, g: Graph) {
    s.nodes <= g.nodes && s.rt <= g.rt
  }

  lemma {:induction false} SpellsLater(s: Graph, g: Graph, t: PTerm, c: nat, w: World, p: int)
    requires Later(s, g) && c < |s.nodes| && Spells(Scene(s, p), t, c, w)
    ensures Spells(Scene(g, p), t, c, w)
    decreases t, 1
  {
    if t.PConst? {
      var j :| 0 <= j < |s.nodes| && s.rt[j] == s.rt[c] && IsConstant(s.nodes[j], t.value);
      assert g.nodes[j] == s.nodes[j] && g.rt[j] == s.rt[j];
    }
    if t.POp? {
      var m: nat :| m < |s.nodes| && s.rt[m] == s.rt[c] && SpellsAt(Scene(s, p), t, m, w);
      assert g.nodes[m] == s.nodes[m] && g.rt[m] == s.rt[m];
      SpellsAtLater(s, g, t, m, w, p);
    }
  }

  lemma {:induction false} SpellsAtLater(s: Graph, g: Graph, t: PTerm, m: nat, w: World, p: int)
    requires Later(s, g) && m < |s.nodes| && t.POp? && SpellsAt(Scene(s, p), t, m, w)
    ensures SpellsAt(Scene(g, p), t, m, w)
    decreases t, 0
  {
    forall k | 0 <= k < |t.args| ensures Spells(Scene(g, p), t.args[k], s.nodes[m].children[k], w) {
      SpellsLater(s, g, t.args[k], s.nodes[m].children[k], w, p);
    }
  }

  lemma AllSpelledLater(s: Graph, g: Graph, ts: seq<PTerm>, cs: seq<nat>, w: World, p: int)
    requires Later(s, g) && AllSpelled(Scene(s, p), ts, cs, w)
    ensures AllSpelled(Scene(g, p), ts, cs, w)
  {
    forall k | 0 <= k < |ts| ensures Spells(Scene(g, p), ts[k], cs[k], w) {
      SpellsLater(s, g, ts[k], cs[k], w, p);
    }
  }

  /** A class that does not exist yet is not used. */
  lemma {:induction false} SpellsElsewhere(s: Graph, t: PTerm, c: nat, w: World, p: int)
    requires c < |s.nodes| <= p && Spells(Scene(s, -1), t, c, w)
    ensures Spells(Scene(s, p), t, c, w)
    decreases t
  {
    if t.POp? {
      var m: nat :| m < |s.nodes| && s.rt[m] == s.rt[c] && SpellsAt(Scene(s, -1), t, m, w);
      forall k | 0 <= k < |t.args| ensures Spells(Scene(s, p), t.args[k], s.nodes[m].children[k], w) {
        SpellsElsewhere(s, t.args[k], s.nodes[m].children[k], w, p);
      }
      assert SpellsAt(Scene(s, p), t, m, w);
    }
  }

  // ----- what is spelled matches under the bindings of its world, and no others -----

  lemma {:induction false} SpelledMatches(s: Graph, t: PTerm, c: nat, w: World, p: int, b: seq<Binding>)
    requires Tidy(Scene(s, p)) && c < |s.nodes| && Spells(Scene(s, p), t, c, w)
    ensures ClassMatches(s.nodes, s.rt, t, c, b) <==> Agrees(t, w, b)
    decreases t, 1
  {
    match t {
      case PVar(x) => assert Agrees(t, w, b) ==> Matches(s.nodes, s.rt, t, c, b);
      case PConst(v) =>
        var j :| 0 <= j < |s.nodes| && s.rt[j] == s.rt[c] && IsConstant(s.nodes[j], v);
        assert Matches(s.nodes, s.rt, t, j, b);
      case PConstVar(x) => ConstantMatches(s, x, c, w, p, b);
      case POp(_, args) =>
        var m: nat :| m < |s.nodes| && s.rt[m] == s.rt[c] && SpellsAt(Scene(s, p), t, m, w);
        SpelledAtMatches(s, t, m, w, p, b);
        if j: nat :| j < |s.nodes| && s.rt[j] == s.rt[c] && Matches(s.nodes, s.rt, t, j, b) {
          assert args != [] ==> Solid(s.nodes[j]) && Solid(s.nodes[m]);
        }
    }
  }

  lemma ConstantMatches(s: Graph, x: string, c: nat, w: World, p: int, b: seq<Binding>)
    requires Tidy(Scene(s, p)) && c < |s.nodes| && s.rt[c] == 2 + Bit(w, x)
    ensures ClassMatches(s.nodes, s.rt, PConstVar(x), c, b) <==> Lookup(b, x) == Some(ToValue(x, Bit(w, x)))
  {
    var m := 2 + Bit(w, x);
    if j: nat :| j < |s.nodes| && s.rt[j] == s.rt[c] && Matches(s.nodes, s.rt, PConstVar(x), j, b) {
      assert Solid(s.nodes[j]) && Solid(s.nodes[m]);
    }
    if Lookup(b, x) == Some(ToValue(x, Bit(w, x))) {
      assert Matches(s.nodes, s.rt, PConstVar(x), m, b);
    }
  }

  lemma {:induction false} SpelledAtMatches(s: Graph, t: PTerm, m: nat, w: World, p: int, b: seq<Binding>)
    requires Tidy(Scene(s, p)) && m < |s.nodes| && t.POp? && SpellsAt(Scene(s, p), t, m, w)
    ensures Matches(s.nodes, s.rt, t, m, b) <==> Agrees(t, w, b)
    decreases t, 0
  {
    forall k | 0 <= k < |t.args|
      ensures ClassMatches(s.nodes, s.rt, t.args[k], s.nodes[m].children[k], b) <==> Agrees(t.args[k], w, b)
    {
      SpelledMatches(s, t.args[k], s.nodes[m].children[k], w, p, b);
    }
    AgreesEach(t, w, b);
  }

  lemma AgreesEach(t: PTerm, w: World, b: seq<Binding>)
    requires t.POp?
    ensures Agrees(t, w, b) <==> forall k :: 0 <= k < |t.args| ==> Agrees(t.args[k], w, b)
  {
    if Agrees(t, w, b) {
      forall k | 0 <= k < |t.args| ensures Agrees(t.args[k], w, b) {
        assert VarNames(t.args[k]) <= VarNames(t) && ConstNames(t.args[k]) <= ConstNames(t);
      }
    }
  }

  /** Bindings that give every variable its value in the world. */
  lemma {:induction false} WorldBindings(vars: set<string>, consts: set<string>, w: World) returns (b: seq<Binding>)
    requires vars !! consts
    ensures forall x :: x in vars ==> Lookup(b, x) == Some(ToClass(x, Bit(w, x)))
    ensures forall x :: x in consts ==> Lookup(b, x) == Some(ToValue(x, Bit(w, x)))
    ensures forall k :: 0 <= k < |b| && b[k].ToClass? ==> b[k].eclass == Bit(w, b[k].name)
    decreases vars + consts
  {
    b := [];
    if vars != {} {
      var x :| x in vars;
      b := WorldBindings(vars - {x}, consts, w);
      b := [ToClass(x, Bit(w, x))] + b;
    } else if consts != {} {
      var x :| x in consts;
      b := WorldBindings(vars, consts - {x}, w);
      b := [ToValue(x, Bit(w, x))] + b;
    }
  }

  // ----- the first violation -----

  ghost predicate Reused(t: PTerm, bound: set<string>, later: seq<PTerm>) {
    t.POp? && !((Names(t) - bound) !! NamesAll(later))
  }

  /** `u` is the first operator operand, left to right and inside out, that binds a new variable of a
      later operand of the same operator, and `x` is such a variable. */
  ghost predicate Violated(ts: seq<PTerm>, bound: set<string>, u: PTerm, x: string)
    decreases ts
  {
    ts != [] &&
    if !Committed(ts[0], bound) then Violated(ts[0].args, bound, u, x)
    else if Reused(ts[0], bound, ts[1..]) then u == ts[0] && x in Names(u) && x !in bound && x in NamesAll(ts[1..])
    else Violated(ts[1..], bound + Names(ts[0]), u, x)
  }

  /** Variables stand for classes or for constants, and operators fit an e-node. */
  ghost predicate Proper(t: PTerm, consts: set<string>) {
    Slim(t) && VarNames(t) !! consts && ConstNames(t) <= consts
  }

  ghost predicate AllProper(ts: seq<PTerm>, consts: set<string>) {
    forall k :: 0 <= k < |ts| ==> Proper(ts[k], consts)
  }

  lemma ProperArgs(t: PTerm, consts: set<string>)
    requires Proper(t, consts) && t.POp?
    ensures AllProper(t.args, consts)
  {
    forall k | 0 <= k < |t.args| ensures Proper(t.args[k], consts) {
      assert VarNames(t.args[k]) <= VarNames(t) && ConstNames(t.args[k]) <= ConstNames(t);
    }
  }

  lemma {:induction false} FindViolation(ts: seq<PTerm>, bound: set<string>, consts: set<string>) returns (u: PTerm, x: string)
    requires !CommittedAll(ts, bound) && AllProper(ts, consts)
    ensures Violated(ts, bound, u, x) && u.POp? && u.args != [] && Proper(u, consts) && x in Names(u)
    decreases ts
  {
    if !Committed(ts[0], bound) {
      ProperArgs(ts[0], consts);
      u, x := FindViolation(ts[0].args, bound, consts);
    } else if Reused(ts[0], bound, ts[1..]) {
      u := ts[0];
      x :| x in Names(u) - bound && x in NamesAll(ts[1..]);
    } else {
      u, x := FindViolation(ts[1..], bound + Names(ts[0]), consts);
    }
  }

  // ----- e-graphs in which the pattern is missed -----

  /** Class `p` holds two operators: first `u` spelled with `x` in the world, then without. */
  ghost predicate Trap(z: Scene, u: PTerm, x: string) {
    && u.POp? && u.args != [] && 0 <= z.p < |z.graph.nodes| && z.graph.rt[z.p] == z.p
    && SpellsAt(z, u, z.p, {x})
    && exists q: nat :: q < |z.graph.nodes| && z.graph.rt[q] == z.p && SpellsAt(z, u, q, {})
  }

  /** Everything is spelled outside the world, but the first violation has its class replaced by the trap. */
  ghost predicate Doomed(z: Scene, ts: seq<PTerm>, cs: seq<nat>, bound: set<string>, u: PTerm, x: string)
    decreases ts
  {
    && ts != [] && |cs| == |ts| && cs[0] < |z.graph.nodes| &&
    if !Committed(ts[0], bound) then
      && AllSpelled(z, ts[1..], cs[1..], {}) && z.graph.rt[cs[0]] != z.p
      && exists m: nat :: m < |z.graph.nodes| && z.graph.rt[m] == z.graph.rt[cs[0]]
                          && Labelled(z.graph.nodes[m], ts[0]) && Doomed(z, ts[0].args, z.graph.nodes[m].children, bound, u, x)
    else if Reused(ts[0], bound, ts[1..]) then
      && AllSpelled(z, ts[1..], cs[1..], {}) && z.graph.rt[cs[0]] == z.p
      && u == ts[0] && x in Names(u) && x !in bound && x in NamesAll(ts[1..])
    else Spells(z, ts[0], cs[0], {}) && Doomed(z, ts[1..], cs[1..], bound + Names(ts[0]), u, x)
  }

  /** Under the bindings outside the world there is a match. */
  lemma {:induction false} DoomedMatches(s: Graph, ts: seq<PTerm>, cs: seq<nat>, bound: set<string>, u: PTerm, x: string, p: nat, b: seq<Binding>)
    requires Tidy(Scene(s, p)) && Trap(Scene(s, p), u, x) && Doomed(Scene(s, p), ts, cs, bound, u, x)
    requires forall k :: 0 <= k < |ts| ==> Agrees(ts[k], {}, b)
    ensures forall k :: 0 <= k < |ts| ==> cs[k] < |s.nodes| && ClassMatches(s.nodes, s.rt, ts[k], cs[k], b)
    decreases ts
  {
    assert Agrees(ts[0], {}, b);
    var (rest, more) := (ts[1..], cs[1..]);
    assert forall k :: 0 < k < |ts| ==> ts[k] == rest[k - 1] && cs[k] == more[k - 1];
    if !Committed(ts[0], bound) {
      AllSpelledMatch(s, rest, more, p, b);
      var m: nat :| m < |s.nodes| && s.rt[m] == s.rt[cs[0]]
                    && Labelled(s.nodes[m], ts[0]) && Doomed(Scene(s, p), ts[0].args, s.nodes[m].children, bound, u, x);
      AgreesEach(ts[0], {}, b);
      DoomedMatches(s, ts[0].args, s.nodes[m].children, bound, u, x, p, b);
      assert Matches(s.nodes, s.rt, ts[0], m, b);
    } else if Reused(ts[0], bound, rest) {
      AllSpelledMatch(s, rest, more, p, b);
      TrapMatches(s, u, x, p, cs[0], b);
    } else {
      SpelledMatches(s, ts[0], cs[0], {}, p, b);
      DoomedMatches(s, rest, more, bound + Names(ts[0]), u, x, p, b);
    }
  }

  lemma TrapMatches(s: Graph, u: PTerm, x: string, p: nat, c: nat, b: seq<Binding>)
    requires Tidy(Scene(s, p)) && Trap(Scene(s, p), u, x) && c < |s.nodes| && s.rt[c] == p && Agrees(u, {}, b)
    ensures ClassMatches(s.nodes, s.rt, u, c, b)
  {
    var q: nat :| q < |s.nodes| && s.rt[q] == p && SpellsAt(Scene(s, p), u, q, {});
    SpelledAtMatches(s, u, q, {}, p, b);
  }

  lemma AllSpelledMatch(s: Graph, ts: seq<PTerm>, cs: seq<nat>, p: nat, b: seq<Binding>)
    requires Tidy(Scene(s, p)) && AllSpelled(Scene(s, p), ts, cs, {}) && forall k :: 0 <= k < |ts| ==> Agrees(ts[k], {}, b)
    ensures forall k :: 0 <= k < |ts| ==> ClassMatches(s.nodes, s.rt, ts[k], cs[k], b)
  {
    forall k | 0 <= k < |ts| ensures ClassMatches(s.nodes, s.rt, ts[k], cs[k], b) {
      SpelledMatches(s, ts[k], cs[k], {}, p, b);
    }
  }

  /** Bindings as outside the world. */
  ghost predicate Plain(items: seq<Binding>, consts: set<string>) {
    forall k :: 0 <= k < |items| ==>
      items[k] == if items[k].name in consts then ToValue(items[k].name, 0) else ToClass(items[k].name, 0)
  }

  /** How the matcher stands before operands: it has bound exactly `bound`, all outside the world. */
  ghost predicate Before(s: Graph, items: seq<Binding>, bound: set<string>, consts: set<string>, all: set<string>) {
    && Room(items, s.rt, all) && Binds(items, bound) && Plain(items, consts) && |all| <= PAT_MAX_NODES
    && forall k :: 0 <= k < |items| ==> items[k].name in bound
  }

  lemma {:induction false} SkipBelow(s: Graph, t: PTerm, c: nat, j: nat, items: seq<Binding>)
    requires c < |s.nodes| && s.rt[c] == c && j <= c
    ensures FirstInClass(s.nodes, s.rt, t, c, j, items) == FirstInClass(s.nodes, s.rt, t, c, c, items)
    decreases c - j
  {
    if j < c {
      FirstInClassStep(s.nodes, s.rt, t, c, j, items);
      SkipBelow(s, t, c, j + 1, items);
    }
  }

  /** The scan of the trap takes its first operator, which binds `x` inside the world. */
  lemma TrapTaken(s: Graph, u: PTerm, x: string, p: nat, items: seq<Binding>, bound: set<string>, consts: set<string>, all: set<string>)
    requires Tidy(Scene(s, p)) && Trap(Scene(s, p), u, x) && Before(s, items, bound, consts, all)
    requires Committed(u, bound) && Proper(u, consts) && Names(u) <= all && x in Names(u) && x !in bound
    ensures FirstInClass(s.nodes, s.rt, u, p, 0, items).Some?
    ensures var b := FirstInClass(s.nodes, s.rt, u, p, 0, items).value;
            Lookup(b, x) == Some(if x in VarNames(u) then ToClass(x, 1) else ToValue(x, 1))
  {
    var b := WorldBindings(VarNames(u), ConstNames(u), {x});
    NamesSplit(u);
    SpelledAtMatches(s, u, p, {x}, p, b);
    assert AgreesOn(s.nodes, s.rt, items, b, Names(u)) by {
      forall k | 0 <= k < |items| && items[k].name in Names(u)
        ensures Lookup(b, items[k].name).Some? && Alternative(s.nodes, s.rt, items[k], Lookup(b, items[k].name).value)
      {
        assert items[k].name != x;
      }
    }
    CommittedFinds(s.nodes, s.rt, u, p, items, bound, b, all);
    SkipBelow(s, u, p, 0, items);
    FirstInClassStep(s.nodes, s.rt, u, p, p, items);
    FirstMatchSound(s.nodes, s.rt, u, p, items);
    SpelledAtMatches(s, u, p, {x}, p, FirstMatch(s.nodes, s.rt, u, p, items).value);
  }

  /** After an operand spelled outside the world. */
  lemma GoodOperand(s: Graph, t: PTerm, c: nat, p: nat, items: seq<Binding>, bound: set<string>, consts: set<string>, all: set<string>)
    requires Tidy(Scene(s, p)) && c < |s.nodes| && Spells(Scene(s, p), t, c, {}) && Before(s, items, bound, consts, all)
    requires Proper(t, consts) && Names(t) <= all && FirstInClass(s.nodes, s.rt, t, s.rt[c], 0, items).Some?
    ensures Before(s, FirstInClass(s.nodes, s.rt, t, s.rt[c], 0, items).value, bound + Names(t), consts, all)
  {
    var b := FirstInClass(s.nodes, s.rt, t, s.rt[c], 0, items).value;
    OperandFound(s.nodes, s.rt, t, c, items, all);
    BindsMore(items, b, bound, Names(t));
    FirstInClassSound(s.nodes, s.rt, t, c, 0, items);
    SpelledMatches(s, t, c, {}, p, b);
    NamesSplit(t);
    forall k | 0 <= k < |b|
      ensures b[k].name in bound + Names(t)
      ensures b[k] == if b[k].name in consts then ToValue(b[k].name, 0) else ToClass(b[k].name, 0)
    {
      if k < |items| {
        assert b[k] == items[k];
      } else {
        LookupOwn(b, k);
      }
    }
  }

  lemma OperandsMatch(s: Graph, ts: seq<PTerm>, cs: seq<nat>, items: seq<Binding>) returns (b: seq<Binding>)
    requires |ts| == |cs| && (forall k :: 0 <= k < |cs| ==> cs[k] < |s.nodes|) && DistinctNames(items) && BindsClasses(items, s.rt)
    requires MatchArgs(s.nodes, s.rt, ts, cs, items).Some?
    ensures items <= b && b == items + b[|items|..]
    ensures forall k :: 0 <= k < |ts| ==> ClassMatches(s.nodes, s.rt, ts[k], cs[k], b)
  {
    var t := POp("", ts);
    assert t.args[0..] == ts && cs[0..] == cs;
    MatchArgsSound(s.nodes, s.rt, t, 0, cs, items, items);
    b := MatchArgs(s.nodes, s.rt, ts, cs, items).value;
  }

  /** An operand spelled outside the world does not match with one of its variables bound inside. */
  lemma OutsideOnly(s: Graph, t: PTerm, c: nat, p: int, b: seq<Binding>, x: string)
    requires Tidy(Scene(s, p)) && c < |s.nodes| && Spells(Scene(s, p), t, c, {}) && x in VarNames(t) + ConstNames(t)
    requires Lookup(b, x) == Some(ToClass(x, 1)) || Lookup(b, x) == Some(ToValue(x, 1))
    ensures !ClassMatches(s.nodes, s.rt, t, c, b)
  {
    SpelledMatches(s, t, c, {}, p, b);
  }

  /** With `x` bound inside the world, operands spelled outside it that use `x` cannot all match. */
  lemma LaterOperandsFail(s: Graph, ts: seq<PTerm>, cs: seq<nat>, p: nat, items: seq<Binding>, x: string)
    requires Tidy(Scene(s, p)) && AllSpelled(Scene(s, p), ts, cs, {}) && x in NamesAll(ts)
    requires DistinctNames(items) && BindsClasses(items, s.rt)
    requires Lookup(items, x) == Some(ToClass(x, 1)) || Lookup(items, x) == Some(ToValue(x, 1))
    ensures MatchArgs(s.nodes, s.rt, ts, cs, items).None?
  {
    NamesAllSplit(ts);
    var k :| 0 <= k < |ts| && x in VarNames(ts[k]) + ConstNames(ts[k]);
    assert Spells(Scene(s, p), ts[k], cs[k], {});
    if MatchArgs(s.nodes, s.rt, ts, cs, items).Some? {
      var b := OperandsMatch(s, ts, cs, items);
      LookupExtends(items, b[|items|..], x);
      OutsideOnly(s, ts[k], cs[k], p, b, x);
    }
  }

  /** The matcher fails. */
  lemma {:induction false} DoomedNone(s: Graph, ts: seq<PTerm>, cs: seq<nat>, bound: set<string>, u: PTerm, x: string, p: nat,
                                      items: seq<Binding>, consts: set<string>, all: set<string>)
    requires Tidy(Scene(s, p)) && Trap(Scene(s, p), u, x) && Doomed(Scene(s, p), ts, cs, bound, u, x) && Before(s, items, bound, consts, all)
    requires AllProper(ts, consts) && NamesAll(ts) <= all && forall k :: 0 <= k < |cs| ==> cs[k] < |s.nodes|
    ensures MatchArgs(s.nodes, s.rt, ts, cs, items).None?
    decreases ts
  {
    if FirstInClass(s.nodes, s.rt, ts[0], s.rt[cs[0]], 0, items).Some? {
      var b := FirstInClass(s.nodes, s.rt, ts[0], s.rt[cs[0]], 0, items).value;
      if !Committed(ts[0], bound) {
        var m: nat :| m < |s.nodes| && s.rt[m] == s.rt[cs[0]]
                      && Labelled(s.nodes[m], ts[0]) && Doomed(Scene(s, p), ts[0].args, s.nodes[m].children, bound, u, x);
        var w := ScanFound(s.nodes, s.rt, ts[0], cs[0], 0, items);
        assert Solid(s.nodes[w]) && Solid(s.nodes[m]);
        assert w == m;
        ProperArgs(ts[0], consts);
        DoomedNone(s, ts[0].args, s.nodes[m].children, bound, u, x, p, items, consts, all);
      } else if Reused(ts[0], bound, ts[1..]) {
        TrapTaken(s, u, x, p, items, bound, consts, all);
        OperandFound(s.nodes, s.rt, ts[0], cs[0], items, all);
        LaterOperandsFail(s, ts[1..], cs[1..], p, b, x);
      } else {
        GoodOperand(s, ts[0], cs[0], p, items, bound, consts, all);
        DoomedNone(s, ts[1..], cs[1..], bound + Names(ts[0]), u, x, p, b, consts, all);
      }
    }
  }

  // ----- building them -----

  /** A new e-node, in a class of its own or in that of `c`. */
  ghost function Put(s: Graph, n: ENode, c: nat): (g: Graph)
    requires WellFormedNode(n, |s.nodes|) && c <= |s.nodes|
    ensures Later(s, g)
  {
    Snapshot(s.nodes + [n], s.rt + [if c < |s.nodes| then s.rt[c] else c])
  }

  lemma PutTidy(s: Graph, n: ENode, c: nat, p: int)
    requires Tidy(Scene(s, p)) && WellFormedNode(n, |s.nodes|) && c <= |s.nodes| && !n.isConst
    requires n.opcode == "" && n.children == [] ==> n.reg == Numerals.Decimal(|s.nodes|)
    requires forall i :: 0 <= i < |s.nodes| ==> !SameNode(s.nodes[i], n)
    requires c < |s.nodes| && n.children != [] ==> s.rt[c] == p
    ensures Tidy(Scene(Put(s, n, c), p))
  {
    var g := Put(s, n, c);
    assert forall i :: 0 <= i < |s.nodes| ==> g.nodes[i] == s.nodes[i] && g.rt[i] == s.rt[i];
  }

  lemma DecimalInjective(a: nat, b: nat)
    requires Numerals.Decimal(a) == Numerals.Decimal(b)
    ensures a == b
  {
    Numerals.DecimalValue(a);
    Numerals.DecimalValue(b);
  }

  /** A new register in the class of `c`. */
  lemma Alias(s: Graph, c: nat, p: int) returns (g: Graph)
    requires Tidy(Scene(s, p)) && c < |s.nodes|
    ensures Tidy(Scene(g, p)) && Later(s, g) && |g.nodes| == |s.nodes| + 1 && g.rt[|s.nodes|] == s.rt[c]
  {
    var n := ENode("", false, 0, Numerals.Decimal(|s.nodes|), []);
    forall i | 0 <= i < |s.nodes| ensures !SameNode(s.nodes[i], n) {
      if SameNode(s.nodes[i], n) {
        DecimalInjective(i, |s.nodes|);
      }
    }
    PutTidy(s, n, c, p);
    g := Put(s, n, c);
  }

  /** An operator over operands of which the last is the newest e-node. */
  lemma PutOperator(s: Graph, t: PTerm, cs: seq<nat>, c: nat, p: int) returns (g: Graph)
    requires Tidy(Scene(s, p)) && t.POp? && Slim(t) && |cs| == |t.args| > 0 && c <= |s.nodes|
    requires (forall k :: 0 <= k < |cs| ==> cs[k] < |s.nodes|) && cs[|cs| - 1] == |s.nodes| - 1
    requires c < |s.nodes| ==> s.rt[c] == p
    ensures Tidy(Scene(g, p)) && Later(s, g) && |g.nodes| == |s.nodes| + 1
    ensures g.rt[|s.nodes|] == if c < |s.nodes| then s.rt[c] else c
    ensures Labelled(g.nodes[|s.nodes|], t) && g.nodes[|s.nodes|].children == cs
  {
    var n := ENode(t.op, false, 0, "", cs);
    assert forall i :: 0 <= i < |s.nodes| && |s.nodes[i].children| == |cs| ==> s.nodes[i].children[|cs| - 1] < i;
    PutTidy(s, n, c, p);
    g := Put(s, n, c);
  }

  /** A constant, or an operator without operands, looked up or added. */
  lemma PutLeaf(s: Graph, n: ENode, p: int) returns (g: Graph, c: nat)
    requires Tidy(Scene(s, p)) && n.children == [] && n.reg == "" && Bare(n)
    ensures Tidy(Scene(g, p)) && Later(s, g) && c < |g.nodes| && SameLabel(g.nodes[c], n)
    ensures n.isConst ==> IsConstant(g.nodes[c], n.value)
  {
    g, c := Added(s, n).0, Added(s, n).1;
    AddedHashConsed(s, n);
    assert AlikeIn(g, c, n);
    assert forall i :: 0 <= i < |s.nodes| ==> g.nodes[i] == s.nodes[i] && g.rt[i] == s.rt[i];
  }

  lemma SpellConstant(s: Graph, v: int, w: World, p: int) returns (g: Graph)
    requires Tidy(Scene(s, p))
    ensures Tidy(Scene(g, p)) && Later(s, g) && |s.nodes| < |g.nodes| && Spells(Scene(g, p), PConst(v), |g.nodes| - 1, w)
  {
    var h, c := PutLeaf(s, ENode("", true, v, "", []), p);
    g := Alias(h, c, p);
    assert g.nodes[c] == h.nodes[c] && g.rt[c] == h.rt[c];
    assert IsConstant(g.nodes[c], v);
  }

  lemma SpellNullary(s: Graph, t: PTerm, w: World, p: int) returns (g: Graph)
    requires Tidy(Scene(s, p)) && t.POp? && t.args == []
    ensures Tidy(Scene(g, p)) && Later(s, g) && |s.nodes| < |g.nodes| && Spells(Scene(g, p), t, |g.nodes| - 1, w)
  {
    var h, c := PutLeaf(s, ENode(t.op, false, 0, "", []), p);
    assert SpellsAt(Scene(h, p), t, c, w);
    g := Alias(h, c, p);
    SpellsAtLater(h, g, t, c, w, p);
    assert g.rt[c] == h.rt[c];
  }

  /** An operator over spelled operands, in a class of its own. */
  lemma SpellOperator(s: Graph, t: PTerm, cs: seq<nat>, w: World, p: int) returns (g: Graph)
    requires Tidy(Scene(s, p)) && p < |s.nodes| && t.POp? && Slim(t) && t.args != [] && AllSpelled(Scene(s, p), t.args, cs, w)
    requires cs[|cs| - 1] == |s.nodes| - 1
    ensures Tidy(Scene(g, p)) && Later(s, g) && |s.nodes| < |g.nodes| && Spells(Scene(g, p), t, |g.nodes| - 1, w)
  {
    var c := |s.nodes|;
    var h := PutOperator(s, t, cs, c, p);
    AllSpelledLater(s, h, t.args, cs, w, p);
    assert SpellsAt(Scene(h, p), t, c, w);
    g := Alias(h, c, p);
    SpellsAtLater(h, g, t, c, w, p);
    assert g.rt[c] == h.rt[c];
  }

  lemma LaterTransitive(s: Graph, g: Graph, h: Graph)
    requires Later(s, g) && Later(g, h)
    ensures Later(s, h)
  {
  }

  /** Spells a term; the newest e-node is in its class. */
  lemma {:induction false} Spell(s: Graph, t: PTerm, w: World, p: int) returns (g: Graph)
    requires Tidy(Scene(s, p)) && p < |s.nodes| && Slim(t)
    ensures Tidy(Scene(g, p)) && Later(s, g) && |s.nodes| < |g.nodes| && Spells(Scene(g, p), t, |g.nodes| - 1, w)
    decreases t, 1
  {
    match t {
      case PVar(x) => g := Alias(s, Bit(w, x), p);
      case PConst(v) => g := SpellConstant(s, v, w, p);
      case PConstVar(x) => g := Alias(s, 2 + Bit(w, x), p);
      case POp(op, args) =>
        if args == [] {
          g := SpellNullary(s, t, w, p);
        } else {
          var h, cs := SpellAll(s, args, w, p);
          g := SpellOperator(h, t, cs, w, p);
          LaterTransitive(s, h, g);
        }
    }
  }

  lemma AllSpelledCons(s: Graph, g: Graph, ts: seq<PTerm>, c: nat, rest: seq<nat>, w: World, p: int)
    requires ts != [] && Later(s, g) && c < |s.nodes| && Spells(Scene(s, p), ts[0], c, w) && AllSpelled(Scene(g, p), ts[1..], rest, w)
    ensures AllSpelled(Scene(g, p), ts, [c] + rest, w)
  {
    SpellsLater(s, g, ts[0], c, w, p);
    forall k | 0 < k < |ts| ensures ([c] + rest)[k] < |g.nodes| && Spells(Scene(g, p), ts[k], ([c] + rest)[k], w) {
      assert ts[k] == ts[1..][k - 1] && ([c] + rest)[k] == rest[k - 1];
    }
  }

  lemma {:induction false} SpellAll(s: Graph, ts: seq<PTerm>, w: World, p: int) returns (g: Graph, cs: seq<nat>)
    requires Tidy(Scene(s, p)) && p < |s.nodes| && forall k :: 0 <= k < |ts| ==> Slim(ts[k])
    ensures Tidy(Scene(g, p)) && Later(s, g) && AllSpelled(Scene(g, p), ts, cs, w)
    ensures if ts == [] then g == s else cs[|cs| - 1] == |g.nodes| - 1
    decreases ts, 0
  {
    g, cs := s, [];
    if ts != [] {
      var h := Spell(s, ts[0], w, p);
      var rest: seq<nat>;
      g, rest := SpellAll(h, ts[1..], w, p);
      cs := SpelledCons(s, h, g, ts, rest, w, p);
    }
  }

  lemma SpelledCons(s: Graph, h: Graph, g: Graph, ts: seq<PTerm>, rest: seq<nat>, w: World, p: int) returns (cs: seq<nat>)
    requires Later(s, h) && Later(h, g) && ts != [] && |s.nodes| < |h.nodes| && Spells(Scene(h, p), ts[0], |h.nodes| - 1, w)
    requires AllSpelled(Scene(g, p), ts[1..], rest, w) && if ts[1..] == [] then g == h else rest[|rest| - 1] == |g.nodes| - 1
    ensures Later(s, g) && AllSpelled(Scene(g, p), ts, cs, w) && cs[|cs| - 1] == |g.nodes| - 1
  {
    LaterTransitive(s, h, g);
    cs := [|h.nodes| - 1] + rest;
    AllSpelledCons(h, g, ts, |h.nodes| - 1, rest, w, p);
  }

  // ----- the trap -----

  ghost const BASE: Snapshot :=
    Snapshot([ENode("", false, 0, "0", []), ENode("", false, 0, "1", []), ENode("", true, 0, "", []), ENode("", true, 1, "", [])], [0, 1, 2, 3])

  lemma BaseFits()
    ensures Fits(BASE.nodes, BASE.rt) && LoneExcept(BASE, -1)
  {
  }

  lemma BaseHashConsed()
    ensures HashConsed(BASE.nodes)
  {
    forall i, j | 0 <= i < j < 4 ensures !SameNode(BASE.nodes[i], BASE.nodes[j]) {
      assert BASE.nodes[0].reg[0] != BASE.nodes[1].reg[0];
    }
  }

  lemma BaseTidy()
    ensures Fits(BASE.nodes, BASE.rt) && Tidy(Scene(BASE, -1))
  {
    BaseFits();
    BaseHashConsed();
    assert Numerals.Decimal(0) == "0" && Numerals.Decimal(1) == "1";
    assert RegistersNumbered(BASE);
  }

  /** With its class named, a single spelled operator can be joined by a second one. */
  lemma TidyFor(s: Graph, p: int)
    requires Tidy(Scene(s, -1)) && 4 <= p
    ensures Tidy(Scene(s, p))
  {
  }

  lemma SetTrap(u: PTerm, x: string) returns (s: Graph, p: nat)
    requires u.POp? && Slim(u) && u.args != []
    ensures Tidy(Scene(s, p)) && 4 <= p && Trap(Scene(s, p), u, x)
  {
    BaseTidy();
    var s0: Graph := BASE;
    var s1, first := SpellAll(s0, u.args, {x}, -1);
    p := |s1.nodes|;
    var s2 := PutOperator(s1, u, first, p, -1);
    TidyFor(s2, p);
    FirstOperator(s1, s2, u, first, x, p);
    var s3, second := SpellAll(s2, u.args, {}, p);
    s := PutOperator(s3, u, second, p, p);
    AllSpelledLater(s3, s, u.args, second, {}, p);
    assert SpellsAt(Scene(s, p), u, |s3.nodes|, {});
    LaterTransitive(s2, s3, s);
    SpellsAtLater(s2, s, u, p, {x}, p);
  }

  lemma FirstOperator(s: Graph, g: Graph, u: PTerm, cs: seq<nat>, x: string, p: nat)
    requires Later(s, g) && u.POp? && p == |s.nodes| < |g.nodes| && AllSpelled(Scene(s, -1), u.args, cs, {x})
    requires Labelled(g.nodes[p], u) && g.nodes[p].children == cs
    ensures SpellsAt(Scene(g, p), u, p, {x})
  {
    forall k | 0 <= k < |u.args| ensures Spells(Scene(g, p), u.args[k], cs[k], {x}) {
      SpellsElsewhere(s, u.args[k], cs[k], {x}, p);
      SpellsLater(s, g, u.args[k], cs[k], {x}, p);
    }
  }

  lemma TrapLater(s: Graph, g: Graph, u: PTerm, x: string, p: nat)
    requires Later(s, g) && Trap(Scene(s, p), u, x)
    ensures Trap(Scene(g, p), u, x)
  {
    SpellsAtLater(s, g, u, p, {x}, p);
    var q: nat :| q < |s.nodes| && s.rt[q] == p && SpellsAt(Scene(s, p), u, q, {});
    SpellsAtLater(s, g, u, q, {}, p);
    assert g.rt[q] == p;
  }

  lemma {:induction false} DoomedLater(s: Graph, g: Graph, ts: seq<PTerm>, cs: seq<nat>, bound: set<string>, u: PTerm, x: string, p: nat)
    requires Later(s, g) && Doomed(Scene(s, p), ts, cs, bound, u, x)
    ensures Doomed(Scene(g, p), ts, cs, bound, u, x)
    decreases ts
  {
    if !Committed(ts[0], bound) {
      AllSpelledLater(s, g, ts[1..], cs[1..], {}, p);
      var m: nat :| m < |s.nodes| && s.rt[m] == s.rt[cs[0]]
                    && Labelled(s.nodes[m], ts[0]) && Doomed(Scene(s, p), ts[0].args, s.nodes[m].children, bound, u, x);
      assert g.nodes[m] == s.nodes[m] && g.rt[m] == s.rt[m];
      DoomedLater(s, g, ts[0].args, s.nodes[m].children, bound, u, x, p);
    } else if Reused(ts[0], bound, ts[1..]) {
      AllSpelledLater(s, g, ts[1..], cs[1..], {}, p);
    } else {
      SpellsLater(s, g, ts[0], cs[0], {}, p);
      DoomedLater(s, g, ts[1..], cs[1..], bound + Names(ts[0]), u, x, p);
    }
  }

  /** Spells the operands after the newest e-node. */
  lemma SpellRest(s: Graph, ts: seq<PTerm>, p: int) returns (g: Graph, cs: seq<nat>)
    requires Tidy(Scene(s, p)) && p < |s.nodes| && forall k :: 0 <= k < |ts| ==> Slim(ts[k])
    ensures Tidy(Scene(g, p)) && Later(s, g) && |cs| == 1 + |ts| && cs[0] == |s.nodes| - 1 && cs[|cs| - 1] == |g.nodes| - 1
    ensures AllSpelled(Scene(g, p), ts, cs[1..], {})
  {
    var rest;
    g, rest := SpellAll(s, ts, {}, p);
    cs := [|s.nodes| - 1] + rest;
    assert cs[1..] == rest;
  }

  lemma {:induction false} DoomedInRange(s: Graph, ts: seq<PTerm>, cs: seq<nat>, bound: set<string>, u: PTerm, x: string, p: nat)
    requires Doomed(Scene(s, p), ts, cs, bound, u, x)
    ensures |cs| == |ts| > 0 && forall k :: 0 <= k < |cs| ==> cs[k] < |s.nodes|
    decreases ts
  {
    var rest := cs[1..];
    assert forall k :: 0 < k < |cs| ==> cs[k] == rest[k - 1];
    if Committed(ts[0], bound) && !Reused(ts[0], bound, ts[1..]) {
      DoomedInRange(s, ts[1..], rest, bound + Names(ts[0]), u, x, p);
    }
  }

  /** An operator over doomed operands, and the operands after it. */
  lemma DoomInside(s: Graph, ts: seq<PTerm>, kids: seq<nat>, bound: set<string>, u: PTerm, x: string, p: nat)
    returns (g: Graph, cs: seq<nat>)
    requires Tidy(Scene(s, p)) && p < |s.nodes| && ts != [] && !Committed(ts[0], bound) && forall k :: 0 <= k < |ts| ==> Slim(ts[k])
    requires Doomed(Scene(s, p), ts[0].args, kids, bound, u, x)
    requires kids[|kids| - 1] == |s.nodes| - 1
    ensures Tidy(Scene(g, p)) && Later(s, g) && Doomed(Scene(g, p), ts, cs, bound, u, x)
    ensures cs[|cs| - 1] == |g.nodes| - 1
  {
    var m := |s.nodes|;
    DoomedInRange(s, ts[0].args, kids, bound, u, x, p);
    var h := PutOperator(s, ts[0], kids, m, p);
    var h' := Alias(h, m, p);
    g, cs := SpellRest(h', ts[1..], p);
    LaterTransitive(s, h, h');
    LaterTransitive(s, h', g);
    DoomedLater(s, g, ts[0].args, kids, bound, u, x, p);
    assert g.nodes[m] == h.nodes[m] && g.rt[m] == m == g.rt[cs[0]];
  }

  lemma DoomHere(s: Graph, ts: seq<PTerm>, bound: set<string>, u: PTerm, x: string, p: nat) returns (g: Graph, cs: seq<nat>)
    requires Tidy(Scene(s, p)) && Trap(Scene(s, p), u, x) && ts != [] && forall k :: 0 <= k < |ts| ==> Slim(ts[k])
    requires Committed(ts[0], bound) && Reused(ts[0], bound, ts[1..]) && Violated(ts, bound, u, x)
    ensures Tidy(Scene(g, p)) && Later(s, g) && Doomed(Scene(g, p), ts, cs, bound, u, x)
    ensures cs[|cs| - 1] == |g.nodes| - 1
  {
    var h := Alias(s, p, p);
    g, cs := SpellRest(h, ts[1..], p);
    LaterTransitive(s, h, g);
    assert g.rt[cs[0]] == h.rt[cs[0]] == p;
  }

  lemma DoomedAfter(s: Graph, g: Graph, ts: seq<PTerm>, c: nat, rest: seq<nat>, bound: set<string>, u: PTerm, x: string, p: nat)
    returns (cs: seq<nat>)
    requires Later(s, g) && ts != [] && c < |s.nodes| && Spells(Scene(s, p), ts[0], c, {})
    requires Committed(ts[0], bound) && !Reused(ts[0], bound, ts[1..]) && Doomed(Scene(g, p), ts[1..], rest, bound + Names(ts[0]), u, x)
    ensures Doomed(Scene(g, p), ts, cs, bound, u, x) && cs[|cs| - 1] == rest[|rest| - 1]
  {
    SpellsLater(s, g, ts[0], c, {}, p);
    cs := [c] + rest;
    assert cs[1..] == rest;
  }

  /** Spells one operand beside the trap. */
  lemma SpellBeside(s: Graph, t: PTerm, u: PTerm, x: string, p: nat) returns (g: Graph)
    requires Tidy(Scene(s, p)) && Trap(Scene(s, p), u, x) && Slim(t)
    ensures Tidy(Scene(g, p)) && Later(s, g) && |s.nodes| < |g.nodes| && Spells(Scene(g, p), t, |g.nodes| - 1, {})
    ensures Trap(Scene(g, p), u, x)
  {
    g := Spell(s, t, {}, p);
    TrapLater(s, g, u, x, p);
  }

  /** Builds the operands around the trap. */
  lemma {:induction false} Doom(s: Graph, ts: seq<PTerm>, bound: set<string>, u: PTerm, x: string, p: nat) returns (g: Graph, cs: seq<nat>)
    requires Tidy(Scene(s, p)) && Trap(Scene(s, p), u, x) && Violated(ts, bound, u, x) && forall k :: 0 <= k < |ts| ==> Slim(ts[k])
    ensures Tidy(Scene(g, p)) && Later(s, g) && Doomed(Scene(g, p), ts, cs, bound, u, x)
    ensures cs[|cs| - 1] == |g.nodes| - 1
    decreases ts, 1
  {
    if !Committed(ts[0], bound) {
      g, cs := DoomFirst(s, ts, bound, u, x, p);
    } else if Reused(ts[0], bound, ts[1..]) {
      g, cs := DoomHere(s, ts, bound, u, x, p);
    } else {
      g, cs := DoomAfter(s, ts, bound, u, x, p);
    }
  }

  lemma {:induction false} DoomFirst(s: Graph, ts: seq<PTerm>, bound: set<string>, u: PTerm, x: string, p: nat) returns (g: Graph, cs: seq<nat>)
    requires Tidy(Scene(s, p)) && Trap(Scene(s, p), u, x) && Violated(ts, bound, u, x) && forall k :: 0 <= k < |ts| ==> Slim(ts[k])
    requires !Committed(ts[0], bound)
    ensures Tidy(Scene(g, p)) && Later(s, g) && Doomed(Scene(g, p), ts, cs, bound, u, x)
    ensures cs[|cs| - 1] == |g.nodes| - 1
    decreases ts, 0
  {
    var h, kids := Doom(s, ts[0].args, bound, u, x, p);
    g, cs := DoomInside(h, ts, kids, bound, u, x, p);
    LaterTransitive(s, h, g);
  }

  lemma {:induction false} DoomAfter(s: Graph, ts: seq<PTerm>, bound: set<string>, u: PTerm, x: string, p: nat) returns (g: Graph, cs: seq<nat>)
    requires Tidy(Scene(s, p)) && Trap(Scene(s, p), u, x) && Violated(ts, bound, u, x) && forall k :: 0 <= k < |ts| ==> Slim(ts[k])
    requires Committed(ts[0], bound) && !Reused(ts[0], bound, ts[1..])
    ensures Tidy(Scene(g, p)) && Later(s, g) && Doomed(Scene(g, p), ts, cs, bound, u, x)
    ensures cs[|cs| - 1] == |g.nodes| - 1
    decreases ts, 0
  {
    var h := SpellBeside(s, ts[0], u, x, p);
    var rest: seq<nat>;
    g, rest := Doom(h, ts[1..], bound + Names(ts[0]), u, x, p);
    cs := DoomedAfter(h, g, ts, |h.nodes| - 1, rest, bound, u, x, p);
    LaterTransitive(s, h, g);
  }

  // ----- the theorem -----

  /** On every hash-consed e-graph the matcher succeeds exactly when some bindings make the e-node match. */
  ghost predicate NeverMisses(t: PTerm) {
    forall s: Graph, n: nat :: n < |s.nodes| && HashConsed(s.nodes) ==>
      (Finds(s, t, n) <==> HasMatch(s, t, n))
  }

  /** A pattern that is not committed is missed in some hash-consed e-graph. */
  lemma UncommittedMissed(t: PTerm) returns (s: Graph, n: nat)
    requires Slim(t) && !Committed(t, {}) && VarNames(t) !! ConstNames(t) && |Names(t)| <= PAT_MAX_NODES
    ensures n < |s.nodes| && HashConsed(s.nodes) && !Finds(s, t, n) && HasMatch(s, t, n)
  {
    ProperArgs(t, ConstNames(t));
    var u, x := FindViolation(t.args, {}, ConstNames(t));
    var p;
    s, n, p := DoomRoot(t, u, x);
    DoomedNone(s, t.args, s.nodes[n].children, {}, u, x, p, [], ConstNames(t), Names(t));
    RootMatches(s, t, n, u, x, p);
  }

  lemma DoomRoot(t: PTerm, u: PTerm, x: string) returns (s: Graph, n: nat, p: nat)
    requires Slim(t) && t.POp? && Violated(t.args, {}, u, x) && u.POp? && u.args != [] && Slim(u)
    ensures Tidy(Scene(s, p)) && Trap(Scene(s, p), u, x) && n < |s.nodes| && Labelled(s.nodes[n], t)
    ensures Doomed(Scene(s, p), t.args, s.nodes[n].children, {}, u, x)
  {
    var trapped, before, cs;
    trapped, p := SetTrap(u, x);
    before, cs := Doom(trapped, t.args, {}, u, x, p);
    DoomedInRange(before, t.args, cs, {}, u, x, p);
    n := |before.nodes|;
    s := PutOperator(before, t, cs, n, p);
    LaterTransitive(trapped, before, s);
    TrapLater(trapped, s, u, x, p);
    DoomedLater(before, s, t.args, cs, {}, u, x, p);
  }

  lemma RootMatches(s: Graph, t: PTerm, n: nat, u: PTerm, x: string, p: nat)
    requires Tidy(Scene(s, p)) && Trap(Scene(s, p), u, x) && n < |s.nodes| && Labelled(s.nodes[n], t) && VarNames(t) !! ConstNames(t)
    requires Doomed(Scene(s, p), t.args, s.nodes[n].children, {}, u, x)
    ensures HasMatch(s, t, n)
  {
    var b := WorldBindings(VarNames(t), ConstNames(t), {});
    AgreesEach(t, {}, b);
    DoomedMatches(s, t.args, s.nodes[n].children, {}, u, x, p, b);
    assert Matches(s.nodes, s.rt, t, n, b);
  }

  lemma MixedKindsNeverMatch(s: Graph, t: PTerm, n: nat)
    requires n < |s.nodes| && !(VarNames(t) !! ConstNames(t))
    ensures !HasMatch(s, t, n)
  {
    if items :| Matches(s.nodes, s.rt, t, n, items) {
      MatchBinds(s.nodes, s.rt, t, n, items);
    }
  }

  /** Exactly when the matcher's commitment loses nothing: when the pattern is committed, or when it
      uses one name for both kinds of variable, so that nothing matches it at all. */
  lemma NeverMissesExactly(t: PTerm)
    requires Slim(t) && |Names(t)| <= PAT_MAX_NODES
    ensures NeverMisses(t) <==> Committed(t, {}) || !(VarNames(t) !! ConstNames(t))
  {
    if Committed(t, {}) || !(VarNames(t) !! ConstNames(t)) {
      forall s: Graph, n: nat | n < |s.nodes| && HashConsed(s.nodes) ensures Finds(s, t, n) <==> HasMatch(s, t, n) {
        if Finds(s, t, n) {
          FoundHasMatch(s, t, n);
        } else if HasMatch(s, t, n) {
          if Committed(t, {}) {
            CommittedFound(s, t, n);
          } else {
            MixedKindsNeverMatch(s, t, n);
          }
        }
      }
    } else {
      var s, n := UncommittedMissed(t);
      assert Finds(s, t, n) != HasMatch(s, t, n);
    }
  }

  /** The same for the tables that the pattern parser builds, whose variables are never too many. */
  lemma PatternNeverMissesExactly(pat: Pattern)
    requires WellFormedPattern(pat)
    ensures NeverMisses(Tree(pat)) <==> Committed(Tree(pat), {}) || !(VarNames(Tree(pat)) !! ConstNames(Tree(pat)))
  {
    TreeSlim(pat, pat.root);
    FewNames(pat);
    NeverMissesExactly(Tree(pat));
  }
}
