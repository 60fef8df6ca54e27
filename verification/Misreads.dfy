/** Exactly which patterns denote what they match. */
module Misreads {
  import opened Basics
  import opened Terms
  import opened EGraphs
  import opened Matching
  import opened MatchCompleteness
  import opened MatchMisses

  // ----- where every e-node is alone in its class -----

  /** There, whatever matches a pattern denotes its instance if and only if its operators are named. */
  lemma {:induction false} DenotesWhenNamed(s: Graph, t: PTerm, n: nat, items: seq<Binding>)
    requires Discrete(s.rt) && n < |s.nodes| && Matches(s.nodes, s.rt, t, n, items)
    ensures TermOf(s.nodes, n) == Inst(t, VarsOf(s.nodes, items), ConstsOf(items)) <==> OpsNamed(t)
    decreases t
  {
    if t.POp? {
      var cs := s.nodes[n].children;
      var us := seq(|cs|, k requires 0 <= k < |cs| => TermOf(s.nodes, cs[k]));
      var vs := seq(|t.args|, k requires 0 <= k < |t.args| => Inst(t.args[k], VarsOf(s.nodes, items), ConstsOf(items)));
      assert Inst(t, VarsOf(s.nodes, items), ConstsOf(items)) == TApp(t.op, vs);
      forall k | 0 <= k < |cs| ensures us[k] == vs[k] <==> OpsNamed(t.args[k]) {
        assert ClassMatches(s.nodes, s.rt, t.args[k], cs[k], items);
        DenotesWhenNamed(s, t.args[k], cs[k], items);
      }
      if !(t.op == "" && t.args == []) {
        assert TermOf(s.nodes, n) == TApp(t.op, us);
        assert us == vs <==> forall k :: 0 <= k < |cs| ==> us[k] == vs[k];
      }
    }
  }

  /** The bindings found so far are among those of the match. */
  ghost predicate Among(items: seq<Binding>, b: seq<Binding>) {
    forall k :: 0 <= k < |items| ==> Lookup(b, items[k].name) == Some(items[k])
  }

  lemma {:induction false} AloneInClass(s: Graph, t: PTerm, c: nat, j: nat, items: seq<Binding>)
    requires Discrete(s.rt) && j <= c < |s.nodes| && FirstMatch(s.nodes, s.rt, t, c, items).Some?
    ensures FirstInClass(s.nodes, s.rt, t, c, j, items) == FirstMatch(s.nodes, s.rt, t, c, items)
    decreases c - j
  {
    FirstInClassStep(s.nodes, s.rt, t, c, j, items);
    if j < c {
      AloneInClass(s, t, c, j + 1, items);
    }
  }

  /** There the matcher has no choice, so it finds every match. */
  lemma {:induction false} DiscreteFinds(s: Graph, t: PTerm, n: nat, items: seq<Binding>, b: seq<Binding>, all: set<string>)
    requires Discrete(s.rt) && n < |s.nodes| && Matches(s.nodes, s.rt, t, n, b)
    requires Room(items, s.rt, all) && Among(items, b) && Names(t) <= all && |all| <= PAT_MAX_NODES
    ensures FirstMatch(s.nodes, s.rt, t, n, items).Some?
    ensures Room(FirstMatch(s.nodes, s.rt, t, n, items).value, s.rt, all) && Among(FirstMatch(s.nodes, s.rt, t, n, items).value, b)
    decreases t, 0
  {
    match t {
      case PVar(x) => BindsAmong(s, ToClass(x, s.rt[n]), items, b, all);
      case PConst(_) =>
      case PConstVar(x) => BindsAmong(s, ToValue(x, s.nodes[n].value), items, b, all);
      case POp(_, args) =>
        assert forall k :: 0 <= k < |args| ==> ClassMatches(s.nodes, s.rt, args[k], s.nodes[n].children[k], b);
        DiscreteFindsAll(s, args, s.nodes[n].children, items, b, all);
    }
  }

  lemma BindsAmong(s: Graph, own: Binding, items: seq<Binding>, b: seq<Binding>, all: set<string>)
    requires Room(items, s.rt, all) && Among(items, b) && Lookup(b, own.name) == Some(own) && BindsClasses([own], s.rt)
    requires own.name in all && |all| <= PAT_MAX_NODES
    ensures Lookup(items, own.name).Some? ==> Lookup(items, own.name) == Some(own)
    ensures Lookup(items, own.name).None? ==> |items| < PAT_MAX_NODES && Room(items + [own], s.rt, all) && Among(items + [own], b)
  {
    if Lookup(items, own.name).None? {
      RoomLeft(items, s.rt, all, own.name);
      NewBinding(items, own, s.rt);
    }
  }

  lemma {:induction false} DiscreteFindsAll(s: Graph, ts: seq<PTerm>, cs: seq<nat>, items: seq<Binding>, b: seq<Binding>, all: set<string>)
    requires Discrete(s.rt) && |ts| == |cs| && forall k :: 0 <= k < |cs| ==> cs[k] < |s.nodes|
    requires forall k :: 0 <= k < |cs| ==> ClassMatches(s.nodes, s.rt, ts[k], cs[k], b)
    requires Room(items, s.rt, all) && Among(items, b) && NamesAll(ts) <= all && |all| <= PAT_MAX_NODES
    ensures MatchArgs(s.nodes, s.rt, ts, cs, items).Some?
    ensures Room(MatchArgs(s.nodes, s.rt, ts, cs, items).value, s.rt, all) && Among(MatchArgs(s.nodes, s.rt, ts, cs, items).value, b)
    decreases ts, 0
  {
    if ts != [] {
      assert Matches(s.nodes, s.rt, ts[0], cs[0], b);
      DiscreteFinds(s, ts[0], cs[0], items, b, all);
      AloneInClass(s, ts[0], cs[0], 0, items);
      DiscreteFindsAll(s, ts[1..], cs[1..], FirstMatch(s.nodes, s.rt, ts[0], cs[0], items).value, b, all);
    }
  }

  // ----- an instance of a pattern, alone in an e-graph -----

  ghost const ONE_REGISTER: Snapshot := Snapshot([ENode("", false, 0, "x", [])], [0])

  lemma GrownDiscrete(s: Graph, g: Graph)
    requires Discrete(s.rt) && GrownFrom(s, g)
    ensures Discrete(g.rt)
  {
  }

  /** For every pattern, an e-graph that identifies nothing and in which the matcher finds it: its instance
      with every variable the register and every constant zero. */
  lemma Instantiated(t: PTerm) returns (s: Graph, n: nat)
    requires Slim(t) && VarNames(t) !! ConstNames(t) && |Names(t)| <= PAT_MAX_NODES
    ensures n < |s.nodes| && Discrete(s.rt) && HashConsed(s.nodes) && FirstMatch(s.nodes, s.rt, t, n, []).Some?
  {
    var base: Graph := ONE_REGISTER;
    var b := WorldBindings(VarNames(t), ConstNames(t), {});
    NamesBound(t, b);
    assert BindsClasses(b, base.rt);
    BuiltWhenBound(base, t, b);
    BuiltMatches(base, t, b);
    BuiltHashConsed(base, t, b);
    s, n := Built(base, t, b).graph, Built(base, t, b).made.value;
    GrownDiscrete(base, s);
    DiscreteFinds(s, t, n, [], b, Names(t));
  }

  // ----- the theorem -----

  /** Whatever the matcher finds denotes, in every sound congruence, the instance of the pattern. */
  ghost predicate DenotesAlways(t: PTerm) {
    forall s: Graph, n: nat, R: TermRel :: n < |s.nodes| && Congruence(R) && Sound(R, s.nodes, s.rt) ==> DenotesAt(s, t, n, R)
  }

  ghost predicate DenotesAt(s: Graph, t: PTerm, n: nat, R: TermRel)
    requires n < |s.nodes|
  {
    var found := FirstMatch(s.nodes, s.rt, t, n, []);
    found.Some? ==> R(TermOf(s.nodes, n), Inst(t, VarsOf(s.nodes, found.value), ConstsOf(found.value)))
  }

  /** For every pattern with an unnamed operator without operands, an e-graph without any identification
      in which what the matcher finds is another term than the instance. */
  lemma MisreadExists(t: PTerm) returns (s: Graph, n: nat)
    requires Slim(t) && VarNames(t) !! ConstNames(t) && |Names(t)| <= PAT_MAX_NODES && !OpsNamed(t)
    ensures n < |s.nodes| && Discrete(s.rt) && HashConsed(s.nodes) && FirstMatch(s.nodes, s.rt, t, n, []).Some?
    ensures var items := FirstMatch(s.nodes, s.rt, t, n, []).value;
            TermOf(s.nodes, n) != Inst(t, VarsOf(s.nodes, items), ConstsOf(items))
  {
    s, n := Instantiated(t);
    FirstMatchSound(s.nodes, s.rt, t, n, []);
    DenotesWhenNamed(s, t, n, FirstMatch(s.nodes, s.rt, t, n, []).value);
  }

  lemma NamedDenotes(s: Graph, t: PTerm, n: nat, R: TermRel)
    requires n < |s.nodes| && Congruence(R) && Sound(R, s.nodes, s.rt) && (OpsNamed(t) || !(VarNames(t) !! ConstNames(t)))
    ensures DenotesAt(s, t, n, R)
  {
    if FirstMatch(s.nodes, s.rt, t, n, []).Some? {
      var items := FirstMatch(s.nodes, s.rt, t, n, []).value;
      FirstMatchSound(s.nodes, s.rt, t, n, []);
      MatchBinds(s.nodes, s.rt, t, n, items);
      KindsApart(t, items);
      MatchDenotes(R, s.nodes, s.rt, t, n, items);
    }
  }

  lemma UnnamedMisread(t: PTerm) returns (s: Graph, n: nat, R: TermRel)
    requires Slim(t) && VarNames(t) !! ConstNames(t) && |Names(t)| <= PAT_MAX_NODES && !OpsNamed(t)
    ensures n < |s.nodes| && Congruence(R) && Sound(R, s.nodes, s.rt) && !DenotesAt(s, t, n, R)
  {
    s, n := MisreadExists(t);
    R := (a, b) => a == b;
    EqualityCongruence(R);
  }

  /** A match denotes the instance of its pattern exactly when every operator is named or has operands,
      or when nothing matches for a name of both kinds. */
  lemma DenotesExactly(t: PTerm)
    requires Slim(t) && |Names(t)| <= PAT_MAX_NODES
    ensures DenotesAlways(t) <==> OpsNamed(t) || !(VarNames(t) !! ConstNames(t))
  {
    if OpsNamed(t) || !(VarNames(t) !! ConstNames(t)) {
      forall s: Graph, n: nat, R: TermRel | n < |s.nodes| && Congruence(R) && Sound(R, s.nodes, s.rt) ensures DenotesAt(s, t, n, R) {
        NamedDenotes(s, t, n, R);
      }
    } else {
      var s, n, R := UnnamedMisread(t);
    }
  }

  lemma KindsApart(t: PTerm, items: seq<Binding>)
    requires forall x :: x in VarNames(t) ==> Lookup(items, x).Some? && Lookup(items, x).value.ToClass?
    requires forall x :: x in ConstNames(t) ==> Lookup(items, x).Some? && Lookup(items, x).value.ToValue?
    ensures VarNames(t) !! ConstNames(t)
  {
  }

  lemma EqualityCongruence(R: TermRel)
    requires forall a, b :: R(a, b) <==> a == b
    ensures Congruence(R)
  {
    forall op, xs, ys | Pointwise(R, xs, ys) ensures R(TApp(op, xs), TApp(op, ys)) {
      assert xs == ys;
    }
  }
}
