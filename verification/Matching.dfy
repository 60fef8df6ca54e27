/** E-matching and instantiation, both proved against one relation: "e-node n matches pattern
tree t under these bindings". */
module Matching {
  import opened Basics
  import opened Terms
  import opened EGraphs

  datatype Binding = ToClass(name: string, eclass: nat) | ToValue(name: string, value: int)

  /** The first binding of a name. */
  function Lookup(items: seq<Binding>, name: string): (r: Option<Binding>)
    ensures r.Some? ==> r.value in items && r.value.name == name
    ensures r.None? <==> forall k :: 0 <= k < |items| ==> items[k].name != name
  {
    if items == [] then None
    else if items[0].name == name then Some(items[0])
    else Lookup(items[1..], name)
  }

  lemma {:induction false} LookupExtends(items: seq<Binding>, more: seq<Binding>, name: string)
    ensures Lookup(items, name).Some? ==> Lookup(items + more, name) == Lookup(items, name)
    ensures Lookup(items, name).None? ==> Lookup(items + more, name) == Lookup(more, name)
  {
    if items == [] {
      assert items + more == more;
    } else {
      assert (items + more)[1..] == items[1..] + more;
      LookupExtends(items[1..], more, name);
    }
  }

  ghost predicate DistinctNames(items: seq<Binding>) {
    forall j, k :: 0 <= j < k < |items| ==> items[j].name != items[k].name
  }

  lemma {:induction false} LookupOwn(items: seq<Binding>, k: nat)
    requires DistinctNames(items) && k < |items|
    ensures Lookup(items, items[k].name) == Some(items[k])
  {
    if k > 0 {
      LookupOwn(items[1..], k - 1);
    }
  }

  /** Class bindings name classes by their representatives. */
  ghost predicate BindsClasses(items: seq<Binding>, rt: seq<nat>) {
    forall k :: 0 <= k < |items| && items[k].ToClass? ==> items[k].eclass < |rt| && rt[items[k].eclass] == items[k].eclass
  }

  /** Bindings added past position `from` come from the variables of `t`, each of the right kind. */
  ghost predicate NamedIn(items: seq<Binding>, from: nat, t: PTerm) {
    forall k :: from <= k < |items| ==> items[k].name in if items[k].ToValue? then ConstNames(t) else VarNames(t)
  }

  lemma NamedInArg(before: seq<Binding>, items: seq<Binding>, from: nat, t: PTerm, i: nat)
    requires t.POp? && i < |t.args| && from <= |before| && before <= items
    requires NamedIn(before, from, t) && NamedIn(items, |before|, t.args[i])
    ensures NamedIn(items, from, t)
  {
    forall k | from <= k < |items| ensures items[k].name in if items[k].ToValue? then ConstNames(t) else VarNames(t) {
      if k < |before| {
        assert items[k] == before[k];
      } else {
        assert items[k].name in if items[k].ToValue? then ConstNames(t.args[i]) else VarNames(t.args[i]);
      }
    }
  }

  // ----- the matching relation -----

  ghost predicate Matches(nodes: seq<ENode>, rt: seq<nat>, t: PTerm, n: nat, items: seq<Binding>)
    requires Fits(nodes, rt) && n < |nodes|
    decreases t, 0
  {
    match t
    case PVar(x) => Lookup(items, x) == Some(ToClass(x, rt[n]))
    case PConst(v) => nodes[n].isConst && nodes[n].value == v
    case PConstVar(x) => nodes[n].isConst && Lookup(items, x) == Some(ToValue(x, nodes[n].value))
    case POp(op, args) =>
      && !nodes[n].isConst && nodes[n].opcode == op && |nodes[n].children| == |args|
      && forall k :: 0 <= k < |args| ==> ClassMatches(nodes, rt, args[k], nodes[n].children[k], items)
  }

  /** Some e-node in the class of `c` matches. */
  ghost predicate ClassMatches(nodes: seq<ENode>, rt: seq<nat>, t: PTerm, c: nat, items: seq<Binding>)
    requires Fits(nodes, rt) && c < |nodes|
    decreases t, 1
  {
    exists j: nat :: j < |nodes| && rt[j] == rt[c] && Matches(nodes, rt, t, j, items)
  }

  /** A match binds every variable of the pattern, to the kind of thing it stands for. */
  lemma {:induction false} MatchBinds(nodes: seq<ENode>, rt: seq<nat>, t: PTerm, n: nat, items: seq<Binding>)
    requires Fits(nodes, rt) && n < |nodes| && Matches(nodes, rt, t, n, items)
    ensures forall x :: x in VarNames(t) ==> Lookup(items, x).Some? && Lookup(items, x).value.ToClass?
    ensures forall x :: x in ConstNames(t) ==> Lookup(items, x).Some? && Lookup(items, x).value.ToValue?
    decreases t
  {
    if t.POp? {
      forall k | 0 <= k < |t.args|
        ensures forall x :: x in VarNames(t.args[k]) ==> Lookup(items, x).Some? && Lookup(items, x).value.ToClass?
        ensures forall x :: x in ConstNames(t.args[k]) ==> Lookup(items, x).Some? && Lookup(items, x).value.ToValue?
      {
        assert ClassMatches(nodes, rt, t.args[k], nodes[n].children[k], items);
        var j: nat :| j < |nodes| && rt[j] == rt[nodes[n].children[k]] && Matches(nodes, rt, t.args[k], j, items);
        MatchBinds(nodes, rt, t.args[k], j, items);
      }
    }
  }

  /** The node table and its partition grew by e-nodes in classes of their own. */
  ghost predicate Grown(nodes: seq<ENode>, rt: seq<nat>, nodes': seq<ENode>, rt': seq<nat>) {
    && nodes <= nodes' && rt <= rt' && |nodes| == |rt| && |nodes'| == |rt'|
    && forall k :: |rt| <= k < |rt'| ==> rt'[k] == k
  }

  /** A match survives new e-nodes and new bindings. */
  lemma {:induction false} MatchesGrow(nodes: seq<ENode>, rt: seq<nat>, nodes': seq<ENode>, rt': seq<nat>,
                                       t: PTerm, n: nat, items: seq<Binding>, items': seq<Binding>)
    requires Fits(nodes, rt) && Fits(nodes', rt') && Grown(nodes, rt, nodes', rt')
    requires n < |nodes| && items <= items' && Matches(nodes, rt, t, n, items)
    ensures Matches(nodes', rt', t, n, items')
    decreases t, 0
  {
    assert nodes'[n] == nodes[n];
    assert items' == items + items'[|items|..];
    match t {
      case PVar(x) => LookupExtends(items, items'[|items|..], x);
      case PConst(_) =>
      case PConstVar(x) => LookupExtends(items, items'[|items|..], x);
      case POp(op, args) =>
        forall k | 0 <= k < |args|
          ensures ClassMatches(nodes', rt', args[k], nodes[n].children[k], items')
        {
          ClassMatchesGrow(nodes, rt, nodes', rt', args[k], nodes[n].children[k], items, items');
        }
    }
  }

  lemma {:induction false} ClassMatchesGrow(nodes: seq<ENode>, rt: seq<nat>, nodes': seq<ENode>, rt': seq<nat>,
                                            t: PTerm, c: nat, items: seq<Binding>, items': seq<Binding>)
    requires Fits(nodes, rt) && Fits(nodes', rt') && Grown(nodes, rt, nodes', rt')
    requires c < |nodes| && items <= items' && ClassMatches(nodes, rt, t, c, items)
    ensures ClassMatches(nodes', rt', t, c, items')
    decreases t, 1
  {
    var j: nat :| j < |nodes| && rt[j] == rt[c] && Matches(nodes, rt, t, j, items);
    MatchesGrow(nodes, rt, nodes', rt', t, j, items, items');
  }

  // ----- the matcher's choice -----

  ghost function BindClass(items: seq<Binding>, name: string, eclass: nat): Option<seq<Binding>> {
    match Lookup(items, name)
    case Some(b) => if b == ToClass(name, eclass) then Some(items) else None
    case None => if |items| >= PAT_MAX_NODES then None else Some(items + [ToClass(name, eclass)])
  }

  ghost function BindValue(items: seq<Binding>, name: string, value: int): Option<seq<Binding>> {
    match Lookup(items, name)
    case Some(b) => if b == ToValue(name, value) then Some(items) else None
    case None => if |items| >= PAT_MAX_NODES then None else Some(items + [ToValue(name, value)])
  }

  /** The bindings the matcher ends with: operands left to right, each committed to the first
      e-node of its class that matches. */
  ghost function FirstMatch(nodes: seq<ENode>, rt: seq<nat>, t: PTerm, n: nat, items: seq<Binding>): Option<seq<Binding>>
    requires Fits(nodes, rt) && n < |nodes|
    decreases t, 0, 0
  {
    match t
    case PVar(x) => BindClass(items, x, rt[n])
    case PConst(v) => if nodes[n].isConst && nodes[n].value == v then Some(items) else None
    case PConstVar(x) => if nodes[n].isConst then BindValue(items, x, nodes[n].value) else None
    case POp(op, args) =>
      if nodes[n].isConst || nodes[n].opcode != op || |nodes[n].children| != |args| then None
      else MatchArgs(nodes, rt, args, nodes[n].children, items)
  }

  ghost function MatchArgs(nodes: seq<ENode>, rt: seq<nat>, ts: seq<PTerm>, cs: seq<nat>, items: seq<Binding>)
    : Option<seq<Binding>>
    requires Fits(nodes, rt) && |ts| == |cs| && forall k :: 0 <= k < |cs| ==> cs[k] < |nodes|
    decreases ts, 0, 0
  {
    if ts == [] then Some(items)
    else
      match FirstInClass(nodes, rt, ts[0], rt[cs[0]], 0, items)
      case None => None
      case Some(b) => MatchArgs(nodes, rt, ts[1..], cs[1..], b)
  }

  ghost function FirstInClass(nodes: seq<ENode>, rt: seq<nat>, t: PTerm, want: nat, j: nat, items: seq<Binding>)
    : Option<seq<Binding>>
    requires Fits(nodes, rt) && j <= |nodes|
    decreases t, 1, |nodes| - j
  {
    if j == |nodes| then None
    else if rt[j] == want && FirstMatch(nodes, rt, t, j, items).Some? then FirstMatch(nodes, rt, t, j, items)
    else FirstInClass(nodes, rt, t, want, j + 1, items)
  }

  lemma FirstInClassStep(nodes: seq<ENode>, rt: seq<nat>, t: PTerm, want: nat, j: nat, items: seq<Binding>)
    requires Fits(nodes, rt) && j < |nodes|
    ensures FirstInClass(nodes, rt, t, want, j, items)
         == if rt[j] == want && FirstMatch(nodes, rt, t, j, items).Some? then FirstMatch(nodes, rt, t, j, items)
            else FirstInClass(nodes, rt, t, want, j + 1, items)
  {
  }

  /** What holds of the bindings a match from `start` ends with. */
  ghost predicate Extended(start: seq<Binding>, items: seq<Binding>, rt: seq<nat>, t: PTerm) {
    start <= items && DistinctNames(items) && BindsClasses(items, rt) && NamedIn(items, |start|, t)
  }

  lemma NewBinding(items: seq<Binding>, b: Binding, rt: seq<nat>)
    requires DistinctNames(items) && BindsClasses(items, rt) && BindsClasses([b], rt)
    ensures Lookup(items, b.name).None? ==>
              DistinctNames(items + [b]) && BindsClasses(items + [b], rt) && Lookup(items + [b], b.name) == Some(b)
  {
    LookupExtends(items, [b], b.name);
  }

  /** Whatever the matcher returns is a match. */
  lemma {:induction false} FirstMatchSound(nodes: seq<ENode>, rt: seq<nat>, t: PTerm, n: nat, items: seq<Binding>)
    requires Fits(nodes, rt) && n < |nodes| && DistinctNames(items) && BindsClasses(items, rt)
    requires FirstMatch(nodes, rt, t, n, items).Some?
    ensures Extended(items, FirstMatch(nodes, rt, t, n, items).value, rt, t)
    ensures Matches(nodes, rt, t, n, FirstMatch(nodes, rt, t, n, items).value)
    decreases t, 2, 0
  {
    var b := FirstMatch(nodes, rt, t, n, items).value;
    match t {
      case PVar(x) => NewBinding(items, ToClass(x, rt[n]), rt);
      case PConst(_) =>
      case PConstVar(x) => NewBinding(items, ToValue(x, nodes[n].value), rt);
      case POp(op, args) =>
        assert args[0..] == args && nodes[n].children[0..] == nodes[n].children;
        MatchArgsSound(nodes, rt, t, 0, nodes[n].children, items, items);
    }
  }

  /** From operand `i` on, with the bindings `items` left by the operands before it. */
  lemma {:induction false} MatchArgsSound(nodes: seq<ENode>, rt: seq<nat>, t: PTerm, i: nat, cs: seq<nat>,
                                          start: seq<Binding>, items: seq<Binding>)
    requires Fits(nodes, rt) && t.POp? && |t.args| == |cs| && i <= |cs| && forall k :: 0 <= k < |cs| ==> cs[k] < |nodes|
    requires Extended(start, items, rt, t)
    requires forall k :: 0 <= k < i ==> ClassMatches(nodes, rt, t.args[k], cs[k], items)
    requires MatchArgs(nodes, rt, t.args[i..], cs[i..], items).Some?
    ensures Extended(start, MatchArgs(nodes, rt, t.args[i..], cs[i..], items).value, rt, t)
    ensures forall k :: 0 <= k < |cs| ==>
              ClassMatches(nodes, rt, t.args[k], cs[k], MatchArgs(nodes, rt, t.args[i..], cs[i..], items).value)
    decreases t, 1, |cs| - i
  {
    if i < |cs| {
      var a := t.args[i];
      assert t.args[i..][1..] == t.args[i + 1..] && cs[i..][1..] == cs[i + 1..];
      FirstInClassSound(nodes, rt, a, cs[i], 0, items);
      var b := FirstInClass(nodes, rt, a, rt[cs[i]], 0, items).value;
      NamedInArg(items, b, |start|, t, i);
      forall k | 0 <= k < i ensures ClassMatches(nodes, rt, t.args[k], cs[k], b) {
        ClassMatchesGrow(nodes, rt, nodes, rt, t.args[k], cs[k], items, b);
      }
      MatchArgsSound(nodes, rt, t, i + 1, cs, start, b);
    }
  }

  lemma {:induction false} FirstInClassSound(nodes: seq<ENode>, rt: seq<nat>, t: PTerm, c: nat, j: nat, items: seq<Binding>)
    requires Fits(nodes, rt) && c < |nodes| && j <= |nodes| && DistinctNames(items) && BindsClasses(items, rt)
    requires FirstInClass(nodes, rt, t, rt[c], j, items).Some?
    ensures Extended(items, FirstInClass(nodes, rt, t, rt[c], j, items).value, rt, t)
    ensures ClassMatches(nodes, rt, t, c, FirstInClass(nodes, rt, t, rt[c], j, items).value)
    decreases t, 3, |nodes| - j
  {
    if rt[j] == rt[c] && FirstMatch(nodes, rt, t, j, items).Some? {
      FirstMatchSound(nodes, rt, t, j, items);
    } else {
      FirstInClassSound(nodes, rt, t, c, j + 1, items);
    }
  }

  // ----- what a match means for every model of the rules -----

  /** Members of one class denote `R`-related terms. */
  ghost predicate Sound(R: TermRel, nodes: seq<ENode>, rt: seq<nat>)
    requires Fits(nodes, rt)
  {
    forall i, j :: 0 <= i < |nodes| && 0 <= j < |nodes| && rt[i] == rt[j] ==> R(TermOf(nodes, i), TermOf(nodes, j))
  }

  ghost function VarsOf(nodes: seq<ENode>, items: seq<Binding>): VarEnv
    requires WellFormedNodes(nodes)
  {
    x => match Lookup(items, x)
         case Some(ToClass(_, c)) => if c < |nodes| then TermOf(nodes, c) else TConst(0)
         case _ => TConst(0)
  }

  ghost function ConstsOf(items: seq<Binding>): ConstEnv {
    x => match Lookup(items, x)
         case Some(ToValue(_, v)) => v
         case _ => 0
  }

  /** A matched e-node denotes, up to `R`, the instance of the pattern under the bindings. */
  lemma {:induction false} MatchDenotes(R: TermRel, nodes: seq<ENode>, rt: seq<nat>, t: PTerm, n: nat, items: seq<Binding>)
    requires Fits(nodes, rt) && n < |nodes| && Congruence(R) && Sound(R, nodes, rt)
    requires Matches(nodes, rt, t, n, items) && OpsNamed(t)
    ensures R(TermOf(nodes, n), Inst(t, VarsOf(nodes, items), ConstsOf(items)))
    decreases t, 0
  {
    var vars, consts := VarsOf(nodes, items), ConstsOf(items);
    match t {
      case PVar(x) =>
        assert rt[rt[n]] == rt[n];
        assert Inst(t, vars, consts) == TermOf(nodes, rt[n]);
      case PConst(_) =>
      case PConstVar(_) =>
      case POp(op, args) =>
        var cs := nodes[n].children;
        var us := seq(|cs|, k requires 0 <= k < |cs| => TermOf(nodes, cs[k]));
        var vs := seq(|args|, k requires 0 <= k < |args| => Inst(args[k], vars, consts));
        forall k | 0 <= k < |cs| ensures R(us[k], vs[k]) {
          ClassDenotes(R, nodes, rt, args[k], cs[k], items);
        }
        assert Pointwise(R, us, vs);
        assert TermOf(nodes, n) == TApp(op, us);
        assert Inst(t, vars, consts) == TApp(op, vs);
    }
  }

  lemma {:induction false} ClassDenotes(R: TermRel, nodes: seq<ENode>, rt: seq<nat>, t: PTerm, c: nat, items: seq<Binding>)
    requires Fits(nodes, rt) && c < |nodes| && Congruence(R) && Sound(R, nodes, rt)
    requires ClassMatches(nodes, rt, t, c, items) && OpsNamed(t)
    ensures R(TermOf(nodes, c), Inst(t, VarsOf(nodes, items), ConstsOf(items)))
    decreases t, 1
  {
    var j: nat :| j < |nodes| && rt[j] == rt[c] && Matches(nodes, rt, t, j, items);
    MatchDenotes(R, nodes, rt, t, j, items);
    assert R(TermOf(nodes, c), TermOf(nodes, j));
  }

  /** Why operators must be named or have operands: an unnamed operator without operands matches
      every register leaf, though its instance is another term. */
  lemma UnnamedOperatorMisread(nodes: seq<ENode>, rt: seq<nat>, n: nat, items: seq<Binding>)
    requires Fits(nodes, rt) && n < |nodes| && !nodes[n].isConst && nodes[n].opcode == "" && nodes[n].children == []
    ensures FirstMatch(nodes, rt, POp("", []), n, items) == Some(items)
    ensures TermOf(nodes, n) == TReg(nodes[n].reg) != Inst(POp("", []), VarsOf(nodes, items), ConstsOf(items))
  {
    assert MatchArgs(nodes, rt, [], nodes[n].children, items) == Some(items);
  }

  // ----- the procedures -----

  class Bindings {
    var items: seq<Binding>

    constructor ()
      ensures items == []
    {
      items := [];
    }

    /** Binds a name to a class, or checks the earlier binding of it. */
    method AddClass(name: string, eclass: nat) returns (ok: bool)
      requires |name| <= NAME_LIMIT
      modifies this
      ensures ok <==> BindClass(old(items), name, eclass).Some?
      ensures items == if ok then BindClass(old(items), name, eclass).value else old(items)
    {
      var found := Lookup(items, name);
      if found.Some? {
        return found.value.ToClass? && found.value.eclass == eclass;
      }
      if |items| >= PAT_MAX_NODES {
        return false;
      }
      items := items + [ToClass(Trunc(name), eclass)];
      return true;
    }

    /** Binds a name to a constant, or checks the earlier binding of it. */
    method AddValue(name: string, value: int) returns (ok: bool)
      requires |name| <= NAME_LIMIT
      modifies this
      ensures ok <==> BindValue(old(items), name, value).Some?
      ensures items == if ok then BindValue(old(items), name, value).value else old(items)
    {
      var found := Lookup(items, name);
      if found.Some? {
        return found.value.ToValue? && found.value.value == value;
      }
      if |items| >= PAT_MAX_NODES {
        return false;
      }
      items := items + [ToValue(Trunc(name), value)];
      return true;
    }
  }

  /** Matches pattern node `pidx` against e-node `nidx`, extending `b`.  After a failure `b` may
      hold the bindings of operands that did match; the caller restores it. */
  method MatchNode(g: EGraph, pat: Pattern, pidx: nat, nidx: nat, b: Bindings) returns (ok: bool)
    requires g.Valid() && WellFormedPattern(pat) && pidx < |pat.nodes| && nidx < |g.nodes|
    modifies g`parent, b
    ensures g.Valid() && g.Part() == old(g.Part())
    ensures ok <==> FirstMatch(g.nodes, g.Part(), TreeOf(pat, pidx), nidx, old(b.items)).Some?
    ensures ok ==> b.items == FirstMatch(g.nodes, g.Part(), TreeOf(pat, pidx), nidx, old(b.items)).value
    decreases |pat.nodes| - pidx, 0
  {
    var p, n := pat.nodes[pidx], g.nodes[nidx];
    match p.kind {
      case KindVar =>
        var c := g.Find(nidx);
        ok := b.AddClass(p.text, c);
        return;
      case KindConst =>
        return n.isConst && n.value == p.value;
      case KindConstVar =>
        if n.isConst {
          ok := b.AddValue(p.text, n.value);
        } else {
          ok := false;
        }
        return;
      case KindOp =>
    }
    if n.isConst || n.opcode != p.text || |n.children| != |p.children| {
      return false;
    }
    ghost var args := TreeOf(pat, pidx).args;
    var i := 0;
    assert args[0..] == args && n.children[0..] == n.children;
    while i < |p.children|
      invariant 0 <= i <= |p.children|
      invariant g.Valid() && g.Part() == old(g.Part())
      invariant MatchArgs(g.nodes, g.Part(), args[i..], n.children[i..], b.items)
             == MatchArgs(g.nodes, g.Part(), args, n.children, old(b.items))
    {
      assert args[i..][1..] == args[i + 1..] && n.children[i..][1..] == n.children[i + 1..];
      var matched := MatchClass(g, pat, p.children[i], n.children[i], b);
      if !matched {
        return false;
      }
      i := i + 1;
    }
    return true;
  }

  /** Tries the e-nodes of one class in index order and keeps the first that matches. */
  method MatchClass(g: EGraph, pat: Pattern, pidx: nat, child: nat, b: Bindings) returns (matched: bool)
    requires g.Valid() && WellFormedPattern(pat) && pidx < |pat.nodes| && child < |g.nodes|
    modifies g`parent, b
    ensures g.Valid() && g.Part() == old(g.Part())
    ensures matched <==> FirstInClass(g.nodes, g.Part(), TreeOf(pat, pidx), g.Part()[child], 0, old(b.items)).Some?
    ensures b.items == if matched
                       then FirstInClass(g.nodes, g.Part(), TreeOf(pat, pidx), g.Part()[child], 0, old(b.items)).value
                       else old(b.items)
    decreases |pat.nodes| - pidx, 1
  {
    ghost var t, nodes, rt, items := TreeOf(pat, pidx), g.nodes, g.Part(), b.items;
    var want := g.Find(child);
    ghost var goal := FirstInClass(nodes, rt, t, want, 0, items);
    matched := false;
    var j := 0;
    while j < |g.nodes| && !matched
      invariant 0 <= j <= |g.nodes|
      invariant g.Valid() && g.nodes == nodes && g.Part() == rt
      invariant if matched then goal == Some(b.items) else b.items == items && FirstInClass(nodes, rt, t, want, j, items) == goal
    {
      FirstInClassStep(nodes, rt, t, want, j, items);
      var cls := g.Find(j);
      if cls == want {
        var saved := b.items;
        matched := MatchNode(g, pat, pidx, j, b);
        if !matched {
          b.items := saved;
        }
      }
      j := j + 1;
    }
  }

  // ----- instances -----

  /** Every variable of the pattern is bound, each to the kind of thing it stands for. */
  ghost predicate Bound(t: PTerm, items: seq<Binding>) {
    match t
    case PVar(x) => Lookup(items, x).Some? && Lookup(items, x).value.ToClass?
    case PConst(_) => true
    case PConstVar(x) => Lookup(items, x).Some? && Lookup(items, x).value.ToValue?
    case POp(_, args) => forall k :: 0 <= k < |args| ==> Bound(args[k], items)
  }

  lemma {:induction false} NamesBound(t: PTerm, items: seq<Binding>)
    requires forall x :: x in VarNames(t) ==> Lookup(items, x).Some? && Lookup(items, x).value.ToClass?
    requires forall x :: x in ConstNames(t) ==> Lookup(items, x).Some? && Lookup(items, x).value.ToValue?
    ensures Bound(t, items)
    decreases t
  {
    match t {
      case PVar(x) => assert x in VarNames(t);
      case PConst(_) =>
      case PConstVar(x) => assert x in ConstNames(t);
      case POp(_, args) =>
        forall k | 0 <= k < |args| ensures Bound(args[k], items) {
          assert VarNames(args[k]) <= VarNames(t) && ConstNames(args[k]) <= ConstNames(t);
          NamesBound(args[k], items);
        }
    }
  }

  /** What a pattern table can hold: short opcodes and few operands. */
  ghost predicate Slim(t: PTerm) {
    t.POp? ==> |t.op| <= NAME_LIMIT && |t.args| <= MAX_CHILDREN && forall k :: 0 <= k < |t.args| ==> Slim(t.args[k])
  }

  lemma {:induction false} TreeSlim(pat: Pattern, i: nat)
    requires WellFormedPattern(pat) && i < |pat.nodes|
    ensures Slim(TreeOf(pat, i))
    decreases |pat.nodes| - i
  {
    if pat.nodes[i].kind.KindOp? {
      forall k | 0 <= k < |pat.nodes[i].children| ensures Slim(TreeOf(pat, pat.nodes[i].children[k])) {
        TreeSlim(pat, pat.nodes[i].children[k]);
      }
    }
  }

  /** An e-graph with what was made in it, if anything could be. */
  datatype Instance<+T> = Instance(graph: Graph, made: Option<T>)

  ghost predicate GrownFrom(s: Graph, g: Graph) {
    Grown(s.nodes, s.rt, g.nodes, g.rt)
  }

  /** Builds the instance of a pattern bottom-up, hash-consing every e-node.  An unbound variable stops
      it, but what was built before stays. */
  ghost function Built(s: Graph, t: PTerm, items: seq<Binding>): (r: Instance<nat>)
    requires BindsClasses(items, s.rt) && Slim(t)
    ensures GrownFrom(s, r.graph) && (r.made.Some? ==> r.made.value < |r.graph.nodes|)
    decreases t, 0
  {
    match t
    case PVar(x) =>
      var b := Lookup(items, x);
      Instance(s, if b.Some? && b.value.ToClass? then Some(b.value.eclass) else None)
    case PConst(v) => MadeNode(s, ENode("", true, v, "", []))
    case PConstVar(x) =>
      var b := Lookup(items, x);
      if b.Some? && b.value.ToValue? then MadeNode(s, ENode("", true, b.value.value, "", [])) else Instance(s, None)
    case POp(op, args) =>
      var kids := BuiltAll(s, args, items);
      if kids.made.None? then Instance(kids.graph, None) else MadeNode(kids.graph, ENode(op, false, 0, "", kids.made.value))
  }

  ghost function MadeNode(s: Graph, n: ENode): (r: Instance<nat>)
    requires WellFormedNode(n, |s.nodes|)
    ensures GrownFrom(s, r.graph) && r.made.Some? && AlikeIn(r.graph, r.made.value, n)
  {
    Instance(Added(s, n).0, Some(Added(s, n).1))
  }

  /** Instances of operand patterns, left to right. */
  ghost function BuiltAll(s: Graph, ts: seq<PTerm>, items: seq<Binding>): (r: Instance<seq<nat>>)
    requires BindsClasses(items, s.rt) && forall k :: 0 <= k < |ts| ==> Slim(ts[k])
    ensures GrownFrom(s, r.graph)
    ensures r.made.Some? ==> |r.made.value| == |ts| && forall k :: 0 <= k < |ts| ==> r.made.value[k] < |r.graph.nodes|
    decreases ts, 0
  {
    if ts == [] then Instance(s, Some([]))
    else
      var init := BuiltAll(s, ts[..|ts| - 1], items);
      if init.made.None? then init
      else
        var last := Built(init.graph, ts[|ts| - 1], items);
        Instance(last.graph, if last.made.Some? then Some(init.made.value + [last.made.value]) else None)
  }

  /** There is an instance exactly when every variable is bound. */
  lemma {:induction false} BuiltWhenBound(s: Graph, t: PTerm, items: seq<Binding>)
    requires BindsClasses(items, s.rt) && Slim(t)
    ensures Built(s, t, items).made.Some? <==> Bound(t, items)
    decreases t, 0
  {
    if t.POp? {
      BuiltAllWhenBound(s, t.args, items);
    }
  }

  lemma {:induction false} BuiltAllWhenBound(s: Graph, ts: seq<PTerm>, items: seq<Binding>)
    requires BindsClasses(items, s.rt) && forall k :: 0 <= k < |ts| ==> Slim(ts[k])
    ensures BuiltAll(s, ts, items).made.Some? <==> forall k :: 0 <= k < |ts| ==> Bound(ts[k], items)
    decreases ts, 0
  {
    if ts != [] {
      var init := ts[..|ts| - 1];
      BuiltAllWhenBound(s, init, items);
      BuiltWhenBound(BuiltAll(s, init, items).graph, ts[|ts| - 1], items);
      assert ts == init + [ts[|ts| - 1]];
    }
  }

  ghost predicate InstancesMatch(s: Graph, args: seq<PTerm>, kids: seq<nat>, items: seq<Binding>) {
    && |kids| == |args|
    && forall k :: 0 <= k < |kids| ==> kids[k] < |s.nodes| && Matches(s.nodes, s.rt, args[k], kids[k], items)
  }

  /** The e-node made for a pattern matches it under the bindings. */
  lemma {:induction false} BuiltMatches(s: Graph, t: PTerm, items: seq<Binding>)
    requires BindsClasses(items, s.rt) && Slim(t) && Built(s, t, items).made.Some?
    ensures var r := Built(s, t, items); Matches(r.graph.nodes, r.graph.rt, t, r.made.value, items)
    decreases t, 0
  {
    if t.POp? {
      BuiltAllMatch(s, t.args, items);
      var kids := BuiltAll(s, t.args, items);
      OpMatches(kids.graph, Built(s, t, items).graph, t, kids.made.value, Built(s, t, items).made.value, items);
    }
  }

  lemma {:induction false} BuiltAllMatch(s: Graph, ts: seq<PTerm>, items: seq<Binding>)
    requires BindsClasses(items, s.rt) && forall k :: 0 <= k < |ts| ==> Slim(ts[k])
    requires BuiltAll(s, ts, items).made.Some?
    ensures InstancesMatch(BuiltAll(s, ts, items).graph, ts, BuiltAll(s, ts, items).made.value, items)
    decreases ts, 0
  {
    if ts != [] {
      var init := ts[..|ts| - 1];
      var before := BuiltAll(s, init, items);
      BuiltAllMatch(s, init, items);
      BuiltMatches(before.graph, ts[|ts| - 1], items);
      InstancesAppend(before.graph, BuiltAll(s, ts, items).graph, ts, before.made.value,
                      Built(before.graph, ts[|ts| - 1], items).made.value, items);
    }
  }

  lemma InstancesAppend(s: Graph, g: Graph, ts: seq<PTerm>, kids: seq<nat>, child: nat, items: seq<Binding>)
    requires GrownFrom(s, g) && ts != [] && InstancesMatch(s, ts[..|ts| - 1], kids, items)
    requires child < |g.nodes| && Matches(g.nodes, g.rt, ts[|ts| - 1], child, items)
    ensures InstancesMatch(g, ts, kids + [child], items)
  {
    forall k | 0 <= k < |kids| ensures Matches(g.nodes, g.rt, ts[k], kids[k], items) {
      MatchesGrow(s.nodes, s.rt, g.nodes, g.rt, ts[k], kids[k], items, items);
    }
  }

  /** An e-node alike to an operator over matching children matches the operator pattern. */
  lemma OpMatches(s: Graph, g: Graph, t: PTerm, kids: seq<nat>, made: nat, items: seq<Binding>)
    requires GrownFrom(s, g) && t.POp? && InstancesMatch(s, t.args, kids, items)
    requires AlikeIn(g, made, ENode(t.op, false, 0, "", kids))
    ensures Matches(g.nodes, g.rt, t, made, items)
  {
    forall k | 0 <= k < |t.args| ensures ClassMatches(g.nodes, g.rt, t.args[k], g.nodes[made].children[k], items) {
      MatchesGrow(s.nodes, s.rt, g.nodes, g.rt, t.args[k], kids[k], items, items);
    }
  }

  /** An instance whose e-node was there before added nothing. */
  lemma {:induction false} BuiltOld(s: Graph, t: PTerm, items: seq<Binding>)
    requires BindsClasses(items, s.rt) && Slim(t)
    requires Built(s, t, items).made.Some? && Built(s, t, items).made.value < |s.nodes|
    ensures Built(s, t, items).graph == s
    decreases t, 0
  {
    if t.POp? {
      var kids := BuiltAll(s, t.args, items);
      var made := Built(s, t, items).made.value;
      forall k | 0 <= k < |t.args| ensures kids.made.value[k] < |s.nodes| {
        assert kids.graph.nodes[made] == s.nodes[made] && s.nodes[made].children[k] < made;
      }
      BuiltAllOld(s, t.args, items);
    }
  }

  lemma {:induction false} BuiltAllOld(s: Graph, ts: seq<PTerm>, items: seq<Binding>)
    requires BindsClasses(items, s.rt) && forall k :: 0 <= k < |ts| ==> Slim(ts[k])
    requires BuiltAll(s, ts, items).made.Some? && forall k :: 0 <= k < |ts| ==> BuiltAll(s, ts, items).made.value[k] < |s.nodes|
    ensures BuiltAll(s, ts, items).graph == s
    decreases ts, 0
  {
    if ts != [] {
      var init := BuiltAll(s, ts[..|ts| - 1], items);
      var all := BuiltAll(s, ts, items).made.value;
      assert all[..|ts| - 1] == init.made.value && all[|ts| - 1] == Built(init.graph, ts[|ts| - 1], items).made.value;
      BuiltAllOld(s, ts[..|ts| - 1], items);
      BuiltOld(s, ts[|ts| - 1], items);
    }
  }

  lemma {:induction false} BuiltHashConsed(s: Graph, t: PTerm, items: seq<Binding>)
    requires BindsClasses(items, s.rt) && Slim(t) && HashConsed(s.nodes)
    ensures HashConsed(Built(s, t, items).graph.nodes)
    decreases t, 0
  {
    match t {
      case PVar(_) =>
      case PConst(v) => AddedHashConsed(s, ENode("", true, v, "", []));
      case PConstVar(x) =>
        if Lookup(items, x).Some? && Lookup(items, x).value.ToValue? {
          AddedHashConsed(s, ENode("", true, Lookup(items, x).value.value, "", []));
        }
      case POp(op, args) =>
        BuiltAllHashConsed(s, args, items);
        var kids := BuiltAll(s, args, items);
        if kids.made.Some? {
          AddedHashConsed(kids.graph, ENode(op, false, 0, "", kids.made.value));
        }
    }
  }

  lemma {:induction false} BuiltAllHashConsed(s: Graph, ts: seq<PTerm>, items: seq<Binding>)
    requires BindsClasses(items, s.rt) && HashConsed(s.nodes) && forall k :: 0 <= k < |ts| ==> Slim(ts[k])
    ensures HashConsed(BuiltAll(s, ts, items).graph.nodes)
    decreases ts, 0
  {
    if ts != [] {
      BuiltAllHashConsed(s, ts[..|ts| - 1], items);
      var init := BuiltAll(s, ts[..|ts| - 1], items);
      if init.made.Some? {
        BuiltHashConsed(init.graph, ts[|ts| - 1], items);
      }
    }
  }

  /** Builds the instance of a pattern in the e-graph.  The e-node returned matches the pattern
      under the bindings; there is none exactly when a variable is unbound. */
  method Instantiate(g: EGraph, pat: Pattern, pidx: nat, b: Bindings) returns (made: Option<nat>)
    requires g.Valid() && WellFormedPattern(pat) && pidx < |pat.nodes|
    requires BindsClasses(b.items, g.Part())
    modifies g`nodes, g`parent
    ensures g.Valid() && Slim(TreeOf(pat, pidx))
    ensures Instance(g.Now(), made) == Built(old(g.Now()), TreeOf(pat, pidx), b.items)
    ensures made.Some? <==> Bound(TreeOf(pat, pidx), b.items)
    ensures made.Some? ==> made.value < |g.nodes| && Matches(g.nodes, g.Part(), TreeOf(pat, pidx), made.value, b.items)
    decreases |pat.nodes| - pidx, 1
  {
    ghost var t, s := TreeOf(pat, pidx), g.Now();
    TreeSlim(pat, pidx);
    BuiltWhenBound(s, t, b.items);
    if Bound(t, b.items) {
      BuiltMatches(s, t, b.items);
    }
    var p := pat.nodes[pidx];
    match p.kind {
      case KindVar =>
        var bind := Lookup(b.items, p.text);
        if bind.None? || bind.value.ToValue? {
          return None;
        }
        made := FirstOfClass(g, bind.value.eclass);
      case KindConst =>
        var id := g.AddNode(ENode("", true, p.value, "", []));
        return Some(id);
      case KindConstVar =>
        var bind := Lookup(b.items, p.text);
        if bind.None? || bind.value.ToClass? {
          return None;
        }
        var id := g.AddNode(ENode("", true, bind.value.value, "", []));
        return Some(id);
      case KindOp =>
        var kids := InstantiateChildren(g, pat, pidx, b);
        if kids.None? {
          return None;
        }
        var id := g.AddNode(ENode(Trunc(p.text), false, 0, "", kids.value));
        return Some(id);
    }
  }

  /** Instances of the operand patterns of an operator, left to right. */
  method InstantiateChildren(g: EGraph, pat: Pattern, pidx: nat, b: Bindings) returns (kids: Option<seq<nat>>)
    requires g.Valid() && WellFormedPattern(pat) && pidx < |pat.nodes| && pat.nodes[pidx].kind.KindOp?
    requires BindsClasses(b.items, g.Part()) && Slim(TreeOf(pat, pidx))
    modifies g`nodes, g`parent
    ensures g.Valid()
    ensures Instance(g.Now(), kids) == BuiltAll(old(g.Now()), TreeOf(pat, pidx).args, b.items)
    decreases |pat.nodes| - pidx, 0
  {
    var p := pat.nodes[pidx];
    ghost var s, args := g.Now(), TreeOf(pat, pidx).args;
    var made: seq<nat> := [];
    var i := 0;
    while i < |p.children|
      invariant 0 <= i <= |p.children|
      invariant g.Valid() && Instance(g.Now(), Some(made)) == BuiltAll(s, args[..i], b.items)
    {
      BuiltAllStep(s, args, i, b.items);
      var child := Instantiate(g, pat, p.children[i], b);
      if child.None? {
        BuiltAllStops(s, args, i + 1, b.items);
        return None;
      }
      made := made + [child.value];
      i := i + 1;
    }
    assert args[..i] == args;
    return Some(made);
  }

  lemma BuiltAllStep(s: Graph, ts: seq<PTerm>, i: nat, items: seq<Binding>)
    requires BindsClasses(items, s.rt) && (forall k :: 0 <= k < |ts| ==> Slim(ts[k])) && i < |ts|
    requires BuiltAll(s, ts[..i], items).made.Some?
    ensures var init := BuiltAll(s, ts[..i], items);
            && BindsClasses(items, init.graph.rt)
            && var last := Built(init.graph, ts[i], items);
               BuiltAll(s, ts[..i + 1], items)
               == Instance(last.graph, if last.made.Some? then Some(init.made.value + [last.made.value]) else None)
  {
    assert ts[..i + 1][..i] == ts[..i];
  }

  /** Once an operand has no instance, the later ones are not tried. */
  lemma {:induction false} BuiltAllStops(s: Graph, ts: seq<PTerm>, i: nat, items: seq<Binding>)
    requires BindsClasses(items, s.rt) && (forall k :: 0 <= k < |ts| ==> Slim(ts[k])) && i <= |ts|
    requires BuiltAll(s, ts[..i], items).made.None?
    ensures BuiltAll(s, ts, items) == BuiltAll(s, ts[..i], items)
    decreases |ts|
  {
    if i == |ts| {
      assert ts[..i] == ts;
    } else {
      var init := ts[..|ts| - 1];
      assert init[..i] == ts[..i];
      BuiltAllStops(s, init, i, items);
    }
  }

  /** The representative of a class is its first member. */
  method FirstOfClass(g: EGraph, c: nat) returns (made: Option<nat>)
    requires g.Valid() && c < |g.nodes| && g.Part()[c] == c
    modifies g`parent
    ensures g.Valid() && g.Part() == old(g.Part())
    ensures made == Some(c)
  {
    var i := 0;
    while i < |g.nodes|
      invariant 0 <= i <= c
      invariant g.Valid() && g.Part() == old(g.Part())
    {
      var r := g.Find(i);
      if r == c {
        return Some(i);
      }
      i := i + 1;
    }
    assert false;
  }
}
