/** When the matcher's commitment to the first e-node of each class loses nothing.

The matcher never revisits an operand that matched.  This is harmless where an operand that is
itself an operator binds no new variable that a later operand uses: then a match is found exactly
when one exists. */
module MatchCompleteness {
  import opened Basics
  import opened Terms
  import opened EGraphs
  import opened Matching

  ghost function Names(t: PTerm): set<string>
    decreases t, 0
  {
    match t
    case PVar(x) => {x}
    case PConst(_) => {}
    case PConstVar(x) => {x}
    case POp(_, args) => NamesAll(args)
  }

  ghost function NamesAll(ts: seq<PTerm>): set<string>
    decreases ts, 0
  {
    if ts == [] then {} else Names(ts[0]) + NamesAll(ts[1..])
  }

  /** The names of a pattern are those of its variables of either kind. */
  lemma {:induction false} NamesSplit(t: PTerm)
    ensures Names(t) == VarNames(t) + ConstNames(t)
    decreases t, 0
  {
    if t.POp? {
      NamesAllSplit(t.args);
      assert forall k :: 0 <= k < |t.args| ==> VarNames(t.args[k]) <= VarNames(t) && ConstNames(t.args[k]) <= ConstNames(t);
    }
  }

  lemma {:induction false} NamesAllSplit(ts: seq<PTerm>)
    ensures forall k :: 0 <= k < |ts| ==> VarNames(ts[k]) + ConstNames(ts[k]) <= NamesAll(ts)
    ensures forall x :: x in NamesAll(ts) ==> exists k :: 0 <= k < |ts| && x in VarNames(ts[k]) + ConstNames(ts[k])
    decreases ts, 0
  {
    if ts != [] {
      NamesSplit(ts[0]);
      NamesAllSplit(ts[1..]);
      forall k | 0 <= k < |ts| ensures VarNames(ts[k]) + ConstNames(ts[k]) <= NamesAll(ts) {
        assert k == 0 || ts[k] == ts[1..][k - 1];
      }
      forall x | x in NamesAll(ts) ensures exists k :: 0 <= k < |ts| && x in VarNames(ts[k]) + ConstNames(ts[k]) {
        if x !in Names(ts[0]) {
          var k :| 0 <= k < |ts[1..]| && x in VarNames(ts[1..][k]) + ConstNames(ts[1..][k]);
          assert ts[1..][k] == ts[k + 1];
        }
      }
    }
  }

  /** With the variables `bound` bound, going left to right: an operand that is itself an operator
      binds no new variable that occurs in a later operand, at every level. */
  ghost predicate Committed(t: PTerm, bound: set<string>)
    decreases t, 0
  {
    t.POp? ==> CommittedAll(t.args, bound)
  }

  ghost predicate CommittedAll(ts: seq<PTerm>, bound: set<string>)
    decreases ts, 0
  {
    ts != [] ==>
      && Committed(ts[0], bound)
      && (ts[0].POp? ==> (Names(ts[0]) - bound) !! NamesAll(ts[1..]))
      && CommittedAll(ts[1..], bound + Names(ts[0]))
  }

  // ----- how the matcher's bindings compare with those of a match -----

  /** Two bindings of one name that agree: to one class, or to constants of one class. */
  ghost predicate Alternative(nodes: seq<ENode>, rt: seq<nat>, b: Binding, c: Binding)
    requires |nodes| == |rt|
  {
    b == c || (b.ToValue? && c.ToValue? && b.name == c.name && exists i, j ::
                 0 <= i < |nodes| && 0 <= j < |nodes| && rt[i] == rt[j]
                 && IsConstant(nodes[i], b.value) && IsConstant(nodes[j], c.value))
  }

  predicate IsConstant(n: ENode, value: int) {
    n.isConst && n.value == value
  }

  lemma ConstantsUnique(nodes: seq<ENode>, i: nat, j: nat, value: int)
    requires HashConsed(nodes) && i < |nodes| && j < |nodes| && IsConstant(nodes[i], value) && IsConstant(nodes[j], value)
    ensures i == j
  {
    assert Bare(nodes[i]) && Bare(nodes[j]);
    assert SameNode(nodes[i], nodes[j]);
  }

  /** The bindings found so far agree with those of the match on the given names. */
  ghost predicate AgreesOn(nodes: seq<ENode>, rt: seq<nat>, items: seq<Binding>, b: seq<Binding>, names: set<string>)
    requires |nodes| == |rt|
  {
    forall k :: 0 <= k < |items| && items[k].name in names ==>
      Lookup(b, items[k].name).Some? && Alternative(nodes, rt, items[k], Lookup(b, items[k].name).value)
  }

  /** The names bound so far are among `all`. */
  ghost predicate Room(items: seq<Binding>, rt: seq<nat>, all: set<string>) {
    && DistinctNames(items) && BindsClasses(items, rt)
    && forall k :: 0 <= k < |items| ==> items[k].name in all
  }

  ghost predicate Binds(items: seq<Binding>, names: set<string>) {
    forall x :: x in names ==> Lookup(items, x).Some?
  }

  lemma {:induction false} RoomLeft(items: seq<Binding>, rt: seq<nat>, all: set<string>, x: string)
    requires Room(items, rt, all) && x in all && Lookup(items, x).None?
    ensures |items| < |all|
    decreases |items|
  {
    if items != [] {
      var last := items[|items| - 1];
      var init := items[..|items| - 1];
      LookupNone(items, init, x);
      assert Room(init, rt, all - {last.name});
      RoomLeft(init, rt, all - {last.name}, x);
    }
  }

  lemma LookupNone(items: seq<Binding>, init: seq<Binding>, x: string)
    requires init <= items && Lookup(items, x).None?
    ensures Lookup(init, x).None?
  {
    assert forall k :: 0 <= k < |init| ==> init[k] == items[k];
  }

  /** What the matcher found for one operand: no name but those of the operand is new, and all of them
      are bound. */
  lemma OperandFound(nodes: seq<ENode>, rt: seq<nat>, t: PTerm, c: nat, items: seq<Binding>, all: set<string>)
    requires Fits(nodes, rt) && c < |nodes| && Room(items, rt, all) && Names(t) <= all
    requires FirstInClass(nodes, rt, t, rt[c], 0, items).Some?
    ensures var b := FirstInClass(nodes, rt, t, rt[c], 0, items).value;
            && items <= b && Room(b, rt, all) && Binds(b, Names(t))
            && forall k :: |items| <= k < |b| ==> b[k].name in Names(t)
  {
    var b := FirstInClass(nodes, rt, t, rt[c], 0, items).value;
    FirstInClassSound(nodes, rt, t, c, 0, items);
    NamesSplit(t);
    var j: nat :| j < |nodes| && rt[j] == rt[c] && Matches(nodes, rt, t, j, b);
    MatchBinds(nodes, rt, t, j, b);
    forall k | |items| <= k < |b| ensures b[k].name in Names(t) {
      assert b[k].name in if b[k].ToValue? then ConstNames(t) else VarNames(t);
    }
    forall k | 0 <= k < |b| ensures b[k].name in all {
      if k < |items| {
        assert b[k] == items[k];
      }
    }
  }

  lemma BindsMore(items: seq<Binding>, b: seq<Binding>, names: set<string>, more: set<string>)
    requires items <= b && Binds(items, names) && Binds(b, more)
    ensures Binds(b, names + more)
  {
    assert b == items + b[|items|..];
    forall x | x in names ensures Lookup(b, x).Some? {
      LookupExtends(items, b[|items|..], x);
    }
  }

  /** Some member of the class matches, so the scan finds one. */
  lemma {:induction false} ScanFinds(nodes: seq<ENode>, rt: seq<nat>, t: PTerm, c: nat, j: nat, items: seq<Binding>, w: nat)
    requires Fits(nodes, rt) && c < |nodes| && j <= w < |nodes| && rt[w] == rt[c] && FirstMatch(nodes, rt, t, w, items).Some?
    ensures FirstInClass(nodes, rt, t, rt[c], j, items).Some?
    decreases w - j
  {
    FirstInClassStep(nodes, rt, t, rt[c], j, items);
    if j < w && !(rt[j] == rt[c] && FirstMatch(nodes, rt, t, j, items).Some?) {
      ScanFinds(nodes, rt, t, c, j + 1, items, w);
    }
  }

  /** What the scan returns is the match of some member of the class. */
  lemma {:induction false} ScanFound(nodes: seq<ENode>, rt: seq<nat>, t: PTerm, c: nat, j: nat, items: seq<Binding>) returns (w: nat)
    requires Fits(nodes, rt) && c < |nodes| && j <= |nodes| && FirstInClass(nodes, rt, t, rt[c], j, items).Some?
    ensures j <= w < |nodes| && rt[w] == rt[c]
    ensures FirstInClass(nodes, rt, t, rt[c], j, items) == FirstMatch(nodes, rt, t, w, items)
    decreases |nodes| - j
  {
    FirstInClassStep(nodes, rt, t, rt[c], j, items);
    if rt[j] == rt[c] && FirstMatch(nodes, rt, t, j, items).Some? {
      w := j;
    } else {
      w := ScanFound(nodes, rt, t, c, j + 1, items);
    }
  }

  // ----- completeness -----

  /** An e-node that matches an operator pattern under `b` is matched from any bindings that agree with `b`. */
  lemma {:induction false} CommittedFinds(nodes: seq<ENode>, rt: seq<nat>, t: PTerm, n: nat, items: seq<Binding>,
                                          bound: set<string>, b: seq<Binding>, all: set<string>)
    requires Fits(nodes, rt) && HashConsed(nodes) && n < |nodes| && t.POp? && Matches(nodes, rt, t, n, b)
    requires Committed(t, bound) && Binds(items, bound) && AgreesOn(nodes, rt, items, b, Names(t))
    requires Room(items, rt, all) && Names(t) <= all && |all| <= PAT_MAX_NODES
    ensures FirstMatch(nodes, rt, t, n, items).Some?
    decreases t, 0
  {
    assert forall k :: 0 <= k < |t.args| ==> ClassMatches(nodes, rt, t.args[k], nodes[n].children[k], b);
    CommittedFindsAll(nodes, rt, t.args, nodes[n].children, items, bound, b, all);
  }

  lemma {:induction false} CommittedFindsAll(nodes: seq<ENode>, rt: seq<nat>, ts: seq<PTerm>, cs: seq<nat>, items: seq<Binding>,
                                             bound: set<string>, b: seq<Binding>, all: set<string>)
    requires Fits(nodes, rt) && HashConsed(nodes) && |ts| == |cs| && forall k :: 0 <= k < |cs| ==> cs[k] < |nodes|
    requires forall k :: 0 <= k < |cs| ==> ClassMatches(nodes, rt, ts[k], cs[k], b)
    requires CommittedAll(ts, bound) && Binds(items, bound) && AgreesOn(nodes, rt, items, b, NamesAll(ts))
    requires Room(items, rt, all) && NamesAll(ts) <= all && |all| <= PAT_MAX_NODES
    ensures MatchArgs(nodes, rt, ts, cs, items).Some?
    decreases ts, 0
  {
    if ts != [] {
      CommittedFindsClass(nodes, rt, ts[0], cs[0], items, bound, b, all);
      OperandFound(nodes, rt, ts[0], cs[0], items, all);
      var found := FirstInClass(nodes, rt, ts[0], rt[cs[0]], 0, items).value;
      BindsMore(items, found, bound, Names(ts[0]));
      AgreesAfter(nodes, rt, ts[0], cs[0], items, bound, b, NamesAll(ts[1..]));
      CommittedFindsAll(nodes, rt, ts[1..], cs[1..], found, bound + Names(ts[0]), b, all);
    }
  }

  lemma {:induction false} CommittedFindsClass(nodes: seq<ENode>, rt: seq<nat>, t: PTerm, c: nat, items: seq<Binding>,
                                               bound: set<string>, b: seq<Binding>, all: set<string>)
    requires Fits(nodes, rt) && HashConsed(nodes) && c < |nodes| && ClassMatches(nodes, rt, t, c, b)
    requires Committed(t, bound) && Binds(items, bound) && AgreesOn(nodes, rt, items, b, Names(t))
    requires Room(items, rt, all) && Names(t) <= all && |all| <= PAT_MAX_NODES
    ensures FirstInClass(nodes, rt, t, rt[c], 0, items).Some?
    decreases t, 1
  {
    var j: nat :| j < |nodes| && rt[j] == rt[c] && Matches(nodes, rt, t, j, b);
    match t {
      case PVar(x) =>
        VariableFinds(nodes, rt, x, ToClass(x, rt[j]), items, b, all);
        ScanFinds(nodes, rt, t, c, 0, items, j);
      case PConst(_) =>
        ScanFinds(nodes, rt, t, c, 0, items, j);
      case PConstVar(x) =>
        var w := ConstantFinds(nodes, rt, x, j, items, b, all);
        ScanFinds(nodes, rt, t, c, 0, items, w);
      case POp(_, _) =>
        CommittedFinds(nodes, rt, t, j, items, bound, b, all);
        ScanFinds(nodes, rt, t, c, 0, items, j);
    }
  }

  lemma VariableFinds(nodes: seq<ENode>, rt: seq<nat>, x: string, want: Binding, items: seq<Binding>, b: seq<Binding>, all: set<string>)
    requires |nodes| == |rt| && want.ToClass? && want.name == x && Lookup(b, x) == Some(want)
    requires AgreesOn(nodes, rt, items, b, {x}) && Room(items, rt, all) && x in all && |all| <= PAT_MAX_NODES
    ensures BindClass(items, x, want.eclass).Some?
  {
    if Lookup(items, x).None? {
      RoomLeft(items, rt, all, x);
    }
  }

  /** A constant variable that is already bound is bound to a constant of the class. */
  lemma ConstantFinds(nodes: seq<ENode>, rt: seq<nat>, x: string, j: nat, items: seq<Binding>, b: seq<Binding>, all: set<string>)
    returns (w: nat)
    requires Fits(nodes, rt) && HashConsed(nodes) && j < |nodes| && Matches(nodes, rt, PConstVar(x), j, b)
    requires AgreesOn(nodes, rt, items, b, {x}) && Room(items, rt, all) && x in all && |all| <= PAT_MAX_NODES
    ensures w < |nodes| && rt[w] == rt[j] && FirstMatch(nodes, rt, PConstVar(x), w, items).Some?
  {
    w := j;
    if Lookup(items, x).None? {
      RoomLeft(items, rt, all, x);
    } else {
      var (own, other) := (Lookup(items, x).value, Lookup(b, x).value);
      assert Alternative(nodes, rt, own, other);
      if own != other {
        var i, k :| 0 <= i < |nodes| && 0 <= k < |nodes| && rt[i] == rt[k]
                    && IsConstant(nodes[i], own.value) && IsConstant(nodes[k], other.value);
        ConstantsUnique(nodes, j, k, other.value);
        w := i;
      }
    }
  }

  /** After an operand, the bindings still agree with the match on what later operands use. */
  lemma AgreesAfter(nodes: seq<ENode>, rt: seq<nat>, t: PTerm, c: nat, items: seq<Binding>,
                    bound: set<string>, b: seq<Binding>, later: set<string>)
    requires Fits(nodes, rt) && c < |nodes| && ClassMatches(nodes, rt, t, c, b) && Binds(items, bound)
    requires t.POp? ==> (Names(t) - bound) !! later
    requires AgreesOn(nodes, rt, items, b, later) && FirstInClass(nodes, rt, t, rt[c], 0, items).Some?
    requires DistinctNames(items) && BindsClasses(items, rt)
    ensures AgreesOn(nodes, rt, FirstInClass(nodes, rt, t, rt[c], 0, items).value, b, later)
  {
    var found := FirstInClass(nodes, rt, t, rt[c], 0, items).value;
    FirstInClassSound(nodes, rt, t, c, 0, items);
    NamesSplit(t);
    forall k | 0 <= k < |found| && found[k].name in later
      ensures Lookup(b, found[k].name).Some? && Alternative(nodes, rt, found[k], Lookup(b, found[k].name).value)
    {
      if k < |items| {
        assert found[k] == items[k];
      } else {
        assert found[k].name in if found[k].ToValue? then ConstNames(t) else VarNames(t);
        NewName(items, found, k);
        if !t.POp? {
          LeafBinding(nodes, rt, t, c, items, b);
        }
      }
    }
  }

  lemma NewName(items: seq<Binding>, found: seq<Binding>, k: nat)
    requires items <= found && DistinctNames(found) && |items| <= k < |found|
    ensures Lookup(items, found[k].name).None?
  {
    forall i | 0 <= i < |items| ensures items[i].name != found[k].name {
      assert items[i] == found[i];
    }
  }

  /** A variable as an operand is bound as in the match, or to another constant of the class. */
  lemma LeafBinding(nodes: seq<ENode>, rt: seq<nat>, t: PTerm, c: nat, items: seq<Binding>, b: seq<Binding>)
    requires Fits(nodes, rt) && c < |nodes| && !t.POp? && ClassMatches(nodes, rt, t, c, b)
    requires FirstInClass(nodes, rt, t, rt[c], 0, items).Some?
    ensures var found := FirstInClass(nodes, rt, t, rt[c], 0, items).value;
            found == items || (|found| == |items| + 1 && items <= found && Lookup(b, found[|items|].name).Some?
                               && Alternative(nodes, rt, found[|items|], Lookup(b, found[|items|].name).value))
  {
    var w := ScanFound(nodes, rt, t, c, 0, items);
    var j: nat :| j < |nodes| && rt[j] == rt[c] && Matches(nodes, rt, t, j, b);
    if t.PConstVar? {
      assert IsConstant(nodes[w], nodes[w].value) && IsConstant(nodes[j], nodes[j].value);
    }
  }

  /** For a committed pattern over a hash-consed table, the matcher succeeds exactly when some
      bindings make the e-node match. */
  lemma CommittedMatchComplete(nodes: seq<ENode>, rt: seq<nat>, t: PTerm, n: nat)
    requires Fits(nodes, rt) && HashConsed(nodes) && n < |nodes| && Committed(t, {}) && |Names(t)| <= PAT_MAX_NODES
    ensures FirstMatch(nodes, rt, t, n, []).Some? <==> exists items :: Matches(nodes, rt, t, n, items)
  {
    if FirstMatch(nodes, rt, t, n, []).Some? {
      FirstMatchSound(nodes, rt, t, n, []);
      assert Matches(nodes, rt, t, n, FirstMatch(nodes, rt, t, n, []).value);
    }
    if items :| Matches(nodes, rt, t, n, items) {
      if t.POp? {
        CommittedFinds(nodes, rt, t, n, [], {}, items, Names(t));
      }
    }
  }

  /** The matcher succeeds at the e-node. */
  ghost predicate Finds(s: Graph, t: PTerm, n: nat)
    requires n < |s.nodes|
  {
    FirstMatch(s.nodes, s.rt, t, n, []).Some?
  }

  /** Some bindings make the e-node match. */
  ghost predicate HasMatch(s: Graph, t: PTerm, n: nat)
    requires n < |s.nodes|
  {
    exists items :: Matches(s.nodes, s.rt, t, n, items)
  }

  lemma FoundHasMatch(s: Graph, t: PTerm, n: nat)
    requires n < |s.nodes| && Finds(s, t, n)
    ensures HasMatch(s, t, n)
  {
    FirstMatchSound(s.nodes, s.rt, t, n, []);
    assert Matches(s.nodes, s.rt, t, n, FirstMatch(s.nodes, s.rt, t, n, []).value);
  }

  lemma CommittedFound(s: Graph, t: PTerm, n: nat)
    requires n < |s.nodes| && HashConsed(s.nodes) && Committed(t, {}) && |Names(t)| <= PAT_MAX_NODES && HasMatch(s, t, n)
    ensures Finds(s, t, n)
  {
    var items :| Matches(s.nodes, s.rt, t, n, items);
    CommittedMatchComplete(s.nodes, s.rt, t, n);
    assert exists b :: Matches(s.nodes, s.rt, t, n, b);
  }

  // ----- a pattern table never has more variables than bindings have room for -----

  ghost function Texts(pat: Pattern, n: nat): set<string>
    requires n <= |pat.nodes|
  {
    if n == 0 then {} else Texts(pat, n - 1) + {pat.nodes[n - 1].text}
  }

  lemma {:induction false} FewTexts(pat: Pattern, n: nat)
    requires n <= |pat.nodes|
    ensures |Texts(pat, n)| <= n
    ensures forall k :: 0 <= k < n ==> pat.nodes[k].text in Texts(pat, n)
  {
    if n > 0 {
      FewTexts(pat, n - 1);
    }
  }

  lemma {:induction false} NamesAreTexts(pat: Pattern, i: nat)
    requires WellFormedPattern(pat) && i < |pat.nodes|
    ensures Names(TreeOf(pat, i)) <= Texts(pat, |pat.nodes|)
    decreases |pat.nodes| - i
  {
    var t := TreeOf(pat, i);
    FewTexts(pat, |pat.nodes|);
    if t.POp? {
      forall k | 0 <= k < |t.args| ensures Names(t.args[k]) <= Texts(pat, |pat.nodes|) {
        NamesAreTexts(pat, pat.nodes[i].children[k]);
      }
      NamesAllWithin(t.args, Texts(pat, |pat.nodes|));
    }
  }

  lemma {:induction false} NamesAllWithin(ts: seq<PTerm>, s: set<string>)
    requires forall k :: 0 <= k < |ts| ==> Names(ts[k]) <= s
    ensures NamesAll(ts) <= s
  {
    if ts != [] {
      NamesAllWithin(ts[1..], s);
    }
  }

  lemma FewNames(pat: Pattern)
    requires WellFormedPattern(pat)
    ensures |Names(Tree(pat))| <= PAT_MAX_NODES
  {
    NamesAreTexts(pat, pat.root);
    FewTexts(pat, |pat.nodes|);
    SubsetSize(Names(Tree(pat)), Texts(pat, |pat.nodes|));
  }
}
