/** Patterns with a repeated variable: committed ones, one that is missed, and one that only a closed
e-graph saves. */
module MatchExamples {
  import opened Basics
  import opened Terms
  import opened EGraphs
  import opened Matching
  import opened MatchCompleteness
  import opened MatchMisses

  // ----- which patterns are committed -----

  lemma PairNames(a: PTerm, b: PTerm)
    ensures NamesAll([a, b][1..]) == Names(b)
  {
    assert [a, b][1..] == [b] && [b][1..] == [];
  }

  lemma UnaryNames(g: string, x: string)
    ensures Names(POp(g, [PVar(x)])) == {x}
    ensures Committed(POp(g, [PVar(x)]), {}) && Committed(POp(g, [PVar(x)]), {x})
  {
    var ts := [PVar(x)];
    assert ts[1..] == [];
    assert NamesAll(ts) == Names(ts[0]) + NamesAll(ts[1..]);
  }

  /** An operator operand that binds a variable of the operand after it. */
  lemma UsedAgain(op: string, a: PTerm, b: PTerm, x: string)
    requires a.POp? && x in Names(a) && x in Names(b)
    ensures !Committed(POp(op, [a, b]), {})
  {
    PairNames(a, b);
  }

  /** (f ?x ?x) and (f ?x (g ?x)) repeat a variable, but only where it is already bound; so does the
      pattern (icmp-eq ?x ?x) of the shipped rules. */
  lemma RepeatedButCommitted(f: string, g: string, x: string)
    ensures Committed(POp(f, [PVar(x), PVar(x)]), {}) && Committed(POp(f, [PVar(x), POp(g, [PVar(x)])]), {})
  {
    UnaryNames(g, x);
    VariableFirst(f, x, PVar(x));
    VariableFirst(f, x, POp(g, [PVar(x)]));
  }

  lemma VariableFirst(f: string, x: string, b: PTerm)
    requires Committed(b, {x}) && Names(b) == {x}
    ensures Committed(POp(f, [PVar(x), b]), {})
  {
    var ts := [PVar(x), b];
    assert ts[1..] == [b] && [b][1..] == [];
    assert {} + Names(PVar(x)) == {x};
    assert NamesAll([b][1..]) == {};
    assert CommittedAll([b], {x});
  }

  // ----- a repeated variable can be missed -----

  /** The e-nodes a, b, g(a), g(b), f(g(b), b), with g(a) and g(b) in one class. */
  ghost const MISS_NODES: seq<ENode> :=
    [ENode("", false, 0, "a", []), ENode("", false, 0, "b", []),
     ENode("g", false, 0, "", [0]), ENode("g", false, 0, "", [1]), ENode("f", false, 0, "", [3, 1])]
  ghost const MISS_PART: seq<nat> := [0, 1, 2, 2, 4]
  ghost const MISS_X: PTerm := PVar("?x")
  ghost const MISS_GX: PTerm := POp("g", [MISS_X])
  ghost const MISS_PATTERN: PTerm := POp("f", [MISS_GX, MISS_X])
  ghost const MISS_GOOD: seq<Binding> := [ToClass("?x", 1)]
  ghost const MISS_BAD: seq<Binding> := [ToClass("?x", 0)]

  lemma MissFits()
    ensures Fits(MISS_NODES, MISS_PART)
  {
  }

  lemma MissClosed()
    ensures Fits(MISS_NODES, MISS_PART) && Closed(MISS_NODES, MISS_PART)
  {
    MissFits();
    forall i, j | 0 <= i < 5 && 0 <= j < 5 && SameLabel(MISS_NODES[i], MISS_NODES[j]) ensures MISS_PART[i] == MISS_PART[j] {
      MissLabels(i, j);
    }
  }

  lemma MissLabels(i: nat, j: nat)
    requires i < 5 && j < 5 && SameLabel(MISS_NODES[i], MISS_NODES[j])
    ensures MISS_PART[i] == MISS_PART[j]
  {
    assert MISS_NODES[0].reg[0] != MISS_NODES[1].reg[0];
    assert MISS_NODES[2].opcode[0] != MISS_NODES[4].opcode[0];
  }

  lemma MissHashConsed()
    ensures HashConsed(MISS_NODES)
  {
    assert MISS_NODES[0].reg[0] != MISS_NODES[1].reg[0];
  }

  lemma MissHasMatch()
    ensures Fits(MISS_NODES, MISS_PART) && Matches(MISS_NODES, MISS_PART, MISS_PATTERN, 4, MISS_GOOD)
  {
    MissFits();
    assert Matches(MISS_NODES, MISS_PART, MISS_X, 1, MISS_GOOD);
    assert ClassMatches(MISS_NODES, MISS_PART, MISS_X, 1, MISS_GOOD);
    assert Matches(MISS_NODES, MISS_PART, MISS_GX, 3, MISS_GOOD);
    assert ClassMatches(MISS_NODES, MISS_PART, MISS_GX, 3, MISS_GOOD);
  }

  /** The operand (g ?x) commits to g(a). */
  lemma MissCommits()
    ensures Fits(MISS_NODES, MISS_PART)
    ensures FirstInClass(MISS_NODES, MISS_PART, MISS_GX, 2, 0, []) == Some(MISS_BAD)
  {
    MissFits();
    assert [] + MISS_BAD == MISS_BAD;
    assert FirstMatch(MISS_NODES, MISS_PART, MISS_X, 0, []) == Some(MISS_BAD);
    FirstInClassStep(MISS_NODES, MISS_PART, MISS_X, 0, 0, []);
    assert FirstInClass(MISS_NODES, MISS_PART, MISS_X, 0, 0, []) == Some(MISS_BAD);
    assert MatchArgs(MISS_NODES, MISS_PART, [MISS_X], [0], []) == Some(MISS_BAD);
    assert FirstMatch(MISS_NODES, MISS_PART, MISS_GX, 2, []) == Some(MISS_BAD);
    FirstInClassStep(MISS_NODES, MISS_PART, MISS_GX, 2, 0, []);
    FirstInClassStep(MISS_NODES, MISS_PART, MISS_GX, 2, 1, []);
    FirstInClassStep(MISS_NODES, MISS_PART, MISS_GX, 2, 2, []);
  }

  /** With ?x bound to a, the operand ?x cannot match b. */
  lemma {:induction false} MissStuck(j: nat)
    requires j <= 5
    ensures Fits(MISS_NODES, MISS_PART)
    ensures FirstInClass(MISS_NODES, MISS_PART, MISS_X, 1, j, MISS_BAD) == None
    decreases 5 - j
  {
    MissFits();
    if j < 5 {
      FirstInClassStep(MISS_NODES, MISS_PART, MISS_X, 1, j, MISS_BAD);
      MissStuck(j + 1);
    }
  }

  /** (f (g ?x) ?x) against f(g(b), b): binding ?x to b matches, but the first operand commits
      to g(a), after which the second cannot match.  The e-graph is hash-consed and closed. */
  lemma RepeatedVariableMissed()
    ensures Fits(MISS_NODES, MISS_PART) && HashConsed(MISS_NODES) && Closed(MISS_NODES, MISS_PART)
    ensures !Committed(MISS_PATTERN, {})
    ensures FirstMatch(MISS_NODES, MISS_PART, MISS_PATTERN, 4, []).None?
    ensures exists items :: Matches(MISS_NODES, MISS_PART, MISS_PATTERN, 4, items)
  {
    MissClosed();
    MissHashConsed();
    MissHasMatch();
    MissCommits();
    MissStuck(0);
    UnaryNames("g", "?x");
    UsedAgain("f", MISS_GX, MISS_X, "?x");
    var ts, cs: seq<nat> := [MISS_GX, MISS_X], [3, 1];
    assert ts[1..] == [MISS_X] && cs[1..] == [1];
    assert MatchArgs(MISS_NODES, MISS_PART, ts[1..], cs[1..], MISS_BAD) == None;
    assert MatchArgs(MISS_NODES, MISS_PART, ts, cs, []) == None;
  }

  // ----- closed e-graphs -----

  ghost function TwinPattern(f: string, g: string, x: string): PTerm {
    POp(f, [POp(g, [PVar(x)]), POp(g, [PVar(x)])])
  }

  /** The operator pattern (g ?x) binds `x` to the class of the operand, whatever was bound to it before. */
  lemma UnaryMatch(s: Graph, g: string, x: string, n: nat, items: seq<Binding>)
    requires n < |s.nodes| && !s.nodes[n].isConst && s.nodes[n].opcode == g && |s.nodes[n].children| == 1
    ensures FirstMatch(s.nodes, s.rt, POp(g, [PVar(x)]), n, items) == BindClass(items, x, s.rt[s.nodes[n].children[0]])
  {
    var (v, cs) := (PVar(x), s.nodes[n].children);
    var want := s.rt[cs[0]];
    SkipBelow(s, v, want, 0, items);
    AllOrNone(s, x, want, want, items);
    assert [v][1..] == [] && cs[1..] == [];
    assert MatchArgs(s.nodes, s.rt, [v], cs, items) == BindClass(items, x, want);
  }

  /** A variable binds the same at every member of a class. */
  lemma {:induction false} AllOrNone(s: Graph, x: string, want: nat, j: nat, items: seq<Binding>)
    requires want < |s.nodes| && s.rt[want] == want <= j <= |s.nodes|
    ensures BindClass(items, x, want).None? ==> FirstInClass(s.nodes, s.rt, PVar(x), want, j, items) == None
    ensures j == want ==> FirstInClass(s.nodes, s.rt, PVar(x), want, j, items) == BindClass(items, x, want)
    decreases |s.nodes| - j
  {
    if j < |s.nodes| {
      FirstInClassStep(s.nodes, s.rt, PVar(x), want, j, items);
      AllOrNone(s, x, want, j + 1, items);
    }
  }

  /** Two operands (g ?x) in one class both match, the second as the first. */
  lemma TwinOperandsFound(s: Graph, g: string, x: string, cs: seq<nat>, i: nat)
    requires |cs| == 2 && cs[0] < |s.nodes| && cs[1] < |s.nodes| && s.rt[cs[0]] == s.rt[cs[1]]
    requires i < |s.nodes| && s.rt[i] == s.rt[cs[0]]
    requires !s.nodes[i].isConst && s.nodes[i].opcode == g && |s.nodes[i].children| == 1
    ensures MatchArgs(s.nodes, s.rt, [POp(g, [PVar(x)]), POp(g, [PVar(x)])], cs, []).Some?
  {
    var gx := POp(g, [PVar(x)]);
    UnaryMatch(s, g, x, i, []);
    ScanFinds(s.nodes, s.rt, gx, cs[0], 0, [], i);
    var w := ScanFound(s.nodes, s.rt, gx, cs[0], 0, []);
    UnaryMatch(s, g, x, w, []);
    var found := FirstMatch(s.nodes, s.rt, gx, w, []).value;
    UnaryMatch(s, g, x, w, found);
    ScanFinds(s.nodes, s.rt, gx, cs[1], 0, found, w);
    var rest := FirstInClass(s.nodes, s.rt, gx, s.rt[cs[1]], 0, found);
    assert [gx, gx][1..] == [gx] && [gx][1..] == [] && cs[1..] == [cs[1]] && cs[1..][1..] == [];
    assert MatchArgs(s.nodes, s.rt, [gx], cs[1..], found) == rest;
  }

  /** (f (g ?x) (g ?x)) is not committed, but on closed e-graphs it is never missed: both operands then
      lie in one class.  The matcher also runs between a union and the next rebuild, where they need not. */
  lemma TwinsFoundWhenClosed(s: Graph, f: string, g: string, x: string, n: nat)
    requires n < |s.nodes| && g != "" && Closed(s.nodes, s.rt) && HasMatch(s, TwinPattern(f, g, x), n)
    requires forall i :: 0 <= i < |s.nodes| && s.nodes[i].opcode != "" ==> s.nodes[i].reg == ""
    ensures !Committed(TwinPattern(f, g, x), {}) && Finds(s, TwinPattern(f, g, x), n)
  {
    var gx := POp(g, [PVar(x)]);
    UnaryNames(g, x);
    UsedAgain(f, gx, gx, x);
    var (t, cs) := (TwinPattern(f, g, x), s.nodes[n].children);
    var b :| Matches(s.nodes, s.rt, t, n, b);
    assert ClassMatches(s.nodes, s.rt, t.args[0], cs[0], b) && ClassMatches(s.nodes, s.rt, t.args[1], cs[1], b);
    var i := UnaryOperand(s, g, x, cs[0], b);
    var j := UnaryOperand(s, g, x, cs[1], b);
    assert AlikeAt(s.nodes, s.rt, i, j);
    TwinOperandsFound(s, g, x, cs, i);
  }

  lemma UnaryOperand(s: Graph, g: string, x: string, c: nat, b: seq<Binding>) returns (j: nat)
    requires c < |s.nodes| && ClassMatches(s.nodes, s.rt, POp(g, [PVar(x)]), c, b)
    ensures j < |s.nodes| && s.rt[j] == s.rt[c] && !s.nodes[j].isConst && s.nodes[j].opcode == g && |s.nodes[j].children| == 1
    ensures Lookup(b, x) == Some(ToClass(x, s.rt[s.nodes[j].children[0]]))
  {
    j :| j < |s.nodes| && s.rt[j] == s.rt[c] && Matches(s.nodes, s.rt, POp(g, [PVar(x)]), j, b);
    assert ClassMatches(s.nodes, s.rt, PVar(x), s.nodes[j].children[0], b);
  }
}
