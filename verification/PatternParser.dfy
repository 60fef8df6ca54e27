/** Lowering of S-expressions into the bounded pattern table, in place. */
module PatternParser {
  import opened Basics
  import opened Numerals
  import opened Terms

  /** A parsed S-expression: an atom (which may lack text, or be double-quoted) or a list. */
  datatype Sexp = Atom(val: Option<string>, quoted: bool) | SList(items: seq<Sexp>)

  // ----- what a pattern source denotes -----

  predicate IsVariable(s: string) {
    s != "" && s[0] == '?'
  }

  ghost function LowerAtom(s: Sexp): Option<PTerm>
    requires s.Atom?
  {
    if s.val.None? || s.quoted then None
    else if IsVariable(s.val.value) then Some(PVar(Trunc(s.val.value)))
    else if ParseInteger(s.val.value).Some? then Some(PConst(ParseInteger(s.val.value).value))
    else Some(POp(Trunc(s.val.value), []))
  }

  ghost function LowerConst(items: seq<Sexp>): Option<PTerm> {
    if |items| != 2 || items[1].SList? || items[1].val.None? then None
    else if IsVariable(items[1].val.value) then Some(PConstVar(Trunc(items[1].val.value)))
    else if ParseInteger(items[1].val.value).Some? then Some(PConst(ParseInteger(items[1].val.value).value))
    else None
  }

  /** The pattern tree of a source, if it is one; the head of a list may be quoted. */
  ghost function Lower(s: Sexp): Option<PTerm> {
    if s.Atom? then LowerAtom(s)
    else if s.items == [] || s.items[0].SList? || s.items[0].val.None? then None
    else if s.items[0].val.value == "iconst" then LowerConst(s.items)
    else if |s.items| - 1 > PAT_MAX_CHILDREN || exists k :: 1 <= k < |s.items| && Lower(s.items[k]).None? then None
    else Some(POp(Trunc(s.items[0].val.value),
                  seq(|s.items| - 1, k requires 0 <= k < |s.items| - 1 => Lower(s.items[k + 1]).value)))
  }

  /** The number of table entries a tree takes. */
  ghost function Size(t: PTerm): nat
    decreases t, 0
  {
    1 + if t.POp? then SizeAll(t.args) else 0
  }

  ghost function SizeAll(ts: seq<PTerm>): nat
    decreases ts, 0
  {
    if ts == [] then 0 else SizeAll(ts[..|ts| - 1]) + Size(ts[|ts| - 1])
  }

  lemma {:induction false} SizePrefix(ts: seq<PTerm>, n: nat)
    requires n <= |ts|
    ensures SizeAll(ts[..n]) <= SizeAll(ts)
    ensures n < |ts| ==> SizeAll(ts[..n]) + Size(ts[n]) == SizeAll(ts[..n + 1]) <= SizeAll(ts)
  {
    if n < |ts| {
      assert ts[..n + 1][..n] == ts[..n];
      if n + 1 == |ts| {
        assert ts[..n + 1] == ts;
      } else {
        SizePrefix(ts[..|ts| - 1], n);
        assert ts[..|ts| - 1][..n] == ts[..n] && ts[..|ts| - 1][..n + 1] == ts[..n + 1];
      }
    } else {
      assert ts[..n] == ts;
    }
  }

  ghost predicate GoodTable(nodes: seq<PatNode>) {
    |nodes| <= PAT_MAX_NODES && forall i :: 0 <= i < |nodes| ==> WellFormedPatNode(nodes[i], i, |nodes|)
  }

  /** The tree spelled from entry `i` of a table. */
  ghost function TreeAt(nodes: seq<PatNode>, i: nat): PTerm
    requires GoodTable(nodes) && i < |nodes|
  {
    TreeOf(Pattern(nodes, 0), i)
  }

  /** A tree depends only on the entries from its root upwards. */
  lemma {:induction false} TreeFrame(nodes: seq<PatNode>, nodes': seq<PatNode>, i: nat)
    requires GoodTable(nodes) && GoodTable(nodes') && i < |nodes| <= |nodes'|
    requires forall k :: i <= k < |nodes| ==> nodes'[k] == nodes[k]
    ensures TreeAt(nodes', i) == TreeAt(nodes, i)
    decreases |nodes| - i
  {
    var cs := nodes[i].children;
    forall k | 0 <= k < |cs| ensures TreeAt(nodes', cs[k]) == TreeAt(nodes, cs[k]) {
      TreeFrame(nodes, nodes', cs[k]);
    }
    assert seq(|cs|, k requires 0 <= k < |cs| => TreeOf(Pattern(nodes', 0), cs[k]))
        == seq(|cs|, k requires 0 <= k < |cs| => TreeOf(Pattern(nodes, 0), cs[k]));
  }

  const ZERO_NODE: PatNode := PatNode(KindVar, "", 0, [])

  class Parser {
    var nodes: seq<PatNode>
    var failed: bool
    var reason: string

    constructor ()
      ensures nodes == [] && !failed && reason == ""
    {
      nodes, failed, reason := [], false, "";
    }

    /** Records the first failure only. */
    method Fail(msg: string)
      modifies this`failed, this`reason
      ensures failed && reason == if old(failed) then old(reason) else msg
    {
      if !failed {
        reason := msg;
      }
      failed := true;
    }

    method AllocNode() returns (id: Option<nat>)
      modifies this
      ensures if old(|nodes|) < PAT_MAX_NODES
              then id == Some(old(|nodes|)) && nodes == old(nodes) + [ZERO_NODE] && failed == old(failed)
              else id == None && nodes == old(nodes) && failed
    {
      if |nodes| >= PAT_MAX_NODES {
        Fail("pattern too large");
        return None;
      }
      id := Some(|nodes|);
      nodes := nodes + [ZERO_NODE];
    }

    /** The table after a source was lowered onto its end. */
    ghost predicate Lowered(before: seq<PatNode>, s: Sexp, id: Option<nat>)
      reads this
    {
      && GoodTable(nodes) && before <= nodes
      && (id.Some? <==> Lower(s).Some? && |before| + Size(Lower(s).value) <= PAT_MAX_NODES)
      && (failed <==> id.None?)
      && (id.Some? ==> id.value == |before| && |nodes| == |before| + Size(Lower(s).value)
                       && TreeAt(nodes, id.value) == Lower(s).value)
    }

    method ParseNode(s: Sexp) returns (id: Option<nat>)
      requires GoodTable(nodes) && !failed
      modifies this
      ensures Lowered(old(nodes), s, id)
      decreases s, 2
    {
      if s.SList? {
        id := ParseList(s);
      } else {
        id := ParseAtom(s);
      }
    }

    method ParseAtom(s: Sexp) returns (id: Option<nat>)
      requires s.Atom? && GoodTable(nodes) && !failed
      modifies this
      ensures Lowered(old(nodes), s, id)
    {
      if s.val.None? || s.quoted {
        Fail("pattern atoms must be identifiers or integers");
        return None;
      }
      id := AllocNode();
      if id.None? {
        return None;
      }
      var text := s.val.value;
      var value := ParseInteger(text);
      if IsVariable(text) {
        nodes := nodes[id.value := PatNode(KindVar, Trunc(text), 0, [])];
      } else if value.Some? {
        nodes := nodes[id.value := PatNode(KindConst, "", value.value, [])];
      } else {
        nodes := nodes[id.value := PatNode(KindOp, Trunc(text), 0, [])];
      }
    }

    method ParseConst(s: Sexp, id: nat) returns (ok: bool)
      requires s.SList? && s.items != [] && GoodTable(nodes) && !failed && id + 1 == |nodes| && nodes[id] == ZERO_NODE
      modifies this
      ensures ok <==> LowerConst(s.items).Some?
      ensures failed <==> !ok
      ensures GoodTable(nodes) && |nodes| == old(|nodes|) && nodes[..id] == old(nodes)[..id]
      ensures ok ==> TreeAt(nodes, id) == LowerConst(s.items).value
    {
      if |s.items| != 2 || s.items[1].SList? || s.items[1].val.None? {
        Fail("iconst needs exactly one integer or ?var");
        return false;
      }
      var text := s.items[1].val.value;
      var value := ParseInteger(text);
      if IsVariable(text) {
        nodes := nodes[id := PatNode(KindConstVar, Trunc(text), 0, [])];
      } else if value.Some? {
        nodes := nodes[id := PatNode(KindConst, "", value.value, [])];
      } else {
        Fail("iconst needs an integer or ?var");
        return false;
      }
      return true;
    }

    method ParseList(s: Sexp) returns (id: Option<nat>)
      requires s.SList? && GoodTable(nodes) && !failed
      modifies this
      ensures Lowered(old(nodes), s, id)
      decreases s, 1
    {
      ghost var before := nodes;
      if s.items == [] || s.items[0].SList? || s.items[0].val.None? {
        Fail("list must start with an opcode");
        return None;
      }
      id := AllocNode();
      if id.None? {
        return None;
      }
      var head := s.items[0].val.value;
      if head == "iconst" {
        var ok := ParseConst(s, id.value);
        assert ok ==> Size(Lower(s).value) == 1;
        return if ok then id else None;
      }
      nodes := nodes[id.value := PatNode(KindOp, Trunc(head), 0, [])];
      var ok := ParseOperands(s, id.value, before);
      return if ok then id else None;
    }

    /** Lowers the operands of a list, hanging each below the entry of the list. */
    method ParseOperands(s: Sexp, id: nat, ghost before: seq<PatNode>) returns (ok: bool)
      requires s.SList? && s.items != [] && OperandsLowered(before, s, 1, nodes) && !failed
      requires s.items[0].val.value != "iconst" && id == |before|
      modifies this
      ensures ok <==> Lower(s).Some? && |before| + Size(Lower(s).value) <= PAT_MAX_NODES
      ensures failed <==> !ok
      ensures GoodTable(nodes) && before <= nodes
      ensures ok ==> |nodes| == |before| + Size(Lower(s).value) && TreeAt(nodes, id) == Lower(s).value
      decreases s, 0
    {
      var i := 1;
      while i < |s.items|
        invariant 1 <= i <= |s.items|
        invariant OperandsLowered(before, s, i, nodes) && !failed
      {
        ghost var mid := nodes;
        var child := ParseNode(s.items[i]);
        if child.None? || failed {
          ChildFailed(before, s, i, |mid|, Lower(s.items[i]));
          return false;
        }
        assert nodes[id] == mid[id];
        if |nodes[id].children| >= PAT_MAX_CHILDREN {
          Fail("too many operands in pattern");
          return false;
        }
        ListStep(before, s, i, mid, nodes, child.value);
        nodes := nodes[id := nodes[id].(children := nodes[id].children + [child.value])];
        i := i + 1;
      }
      ListDone(before, s, nodes);
      return true;
    }
  }

  /** Operands 1..i of a list have been lowered into the table and hung below its own entry. */
  ghost predicate OperandsLowered(before: seq<PatNode>, s: Sexp, i: nat, nodes: seq<PatNode>) {
    && s.SList? && 1 <= i <= |s.items| && s.items[0].Atom? && s.items[0].val.Some?
    && GoodTable(nodes) && |before| < |nodes| && before <= nodes
    && var n := nodes[|before|];
       && n.kind == KindOp && n.text == Trunc(s.items[0].val.value) && |n.children| == i - 1
       && (forall k :: 1 <= k < i ==> Lower(s.items[k]).Some? && TreeAt(nodes, n.children[k - 1]) == Lower(s.items[k]).value)
       && |nodes| == |before| + 1 + SizeAll(Operands(s, i))
  }

  ghost function Operands(s: Sexp, i: nat): (ts: seq<PTerm>)
    requires s.SList? && 1 <= i <= |s.items| && forall k :: 1 <= k < i ==> Lower(s.items[k]).Some?
  {
    seq(i - 1, k requires 0 <= k < i - 1 => Lower(s.items[k + 1]).value)
  }

  function WithChild(nodes: seq<PatNode>, id: nat, child: nat): seq<PatNode>
    requires id < |nodes|
  {
    nodes[id := nodes[id].(children := nodes[id].children + [child])]
  }

  /** Hanging a later subtree below an entry keeps every subtree above that entry. */
  lemma WithChildTrees(nodes: seq<PatNode>, id: nat, child: nat)
    requires GoodTable(nodes) && id < child < |nodes| && |nodes[id].children| < PAT_MAX_CHILDREN
    ensures GoodTable(WithChild(nodes, id, child))
    ensures forall i :: id < i < |nodes| ==> TreeAt(WithChild(nodes, id, child), i) == TreeAt(nodes, i)
  {
    var after := WithChild(nodes, id, child);
    forall i | 0 <= i < |after| ensures WellFormedPatNode(after[i], i, |after|) {
      assert WellFormedPatNode(nodes[i], i, |nodes|);
    }
    forall i | id < i < |nodes| ensures TreeAt(after, i) == TreeAt(nodes, i) {
      TreeFrame(nodes, after, i);
    }
  }

  lemma ListStep(before: seq<PatNode>, s: Sexp, i: nat, mid: seq<PatNode>, nodes: seq<PatNode>, child: nat)
    requires OperandsLowered(before, s, i, mid) && i < |s.items| && i - 1 < PAT_MAX_CHILDREN
    requires GoodTable(nodes) && mid <= nodes && Lower(s.items[i]).Some?
    requires child == |mid| && |nodes| == |mid| + Size(Lower(s.items[i]).value)
    requires TreeAt(nodes, child) == Lower(s.items[i]).value
    ensures OperandsLowered(before, s, i + 1, WithChild(nodes, |before|, child))
  {
    var id := |before|;
    var cs := mid[id].children;
    assert nodes[id] == mid[id];
    WithChildTrees(nodes, id, child);
    var after := WithChild(nodes, id, child);
    assert WellFormedPatNode(mid[id], id, |mid|);
    forall k | 1 <= k < i + 1 ensures TreeAt(after, (cs + [child])[k - 1]) == Lower(s.items[k]).value {
      if k < i {
        TreeFrame(mid, nodes, cs[k - 1]);
      }
    }
    OperandsStep(s, i);
  }

  lemma OperandsStep(s: Sexp, i: nat)
    requires s.SList? && 1 <= i < |s.items| && forall k :: 1 <= k <= i ==> Lower(s.items[k]).Some?
    ensures SizeAll(Operands(s, i + 1)) == SizeAll(Operands(s, i)) + Size(Lower(s.items[i]).value)
  {
    assert Operands(s, i + 1)[..i - 1] == Operands(s, i);
  }

  lemma ListDone(before: seq<PatNode>, s: Sexp, nodes: seq<PatNode>)
    requires s.SList? && OperandsLowered(before, s, |s.items|, nodes) && s.items[0].val.value != "iconst"
    ensures Lower(s).Some? && TreeAt(nodes, |before|) == Lower(s).value
    ensures |nodes| == |before| + Size(Lower(s).value)
  {
    assert Lower(s).Some?;
    assert Lower(s).value.args == Operands(s, |s.items|);
    assert TreeAt(nodes, |before|).args == Operands(s, |s.items|);
  }

  /** A failing operand means the whole list has no lowering, or none that fits. */
  lemma ChildFailed(before: seq<PatNode>, s: Sexp, i: nat, mid: nat, child: Option<PTerm>)
    requires s.SList? && 1 <= i < |s.items| && s.items[0].Atom? && s.items[0].val.Some? && s.items[0].val.value != "iconst"
    requires forall k :: 1 <= k < i ==> Lower(s.items[k]).Some?
    requires mid == |before| + 1 + SizeAll(Operands(s, i)) && child == Lower(s.items[i])
    requires child.None? || mid + Size(child.value) > PAT_MAX_NODES
    ensures Lower(s).None? || |before| + Size(Lower(s).value) > PAT_MAX_NODES
  {
    if Lower(s).Some? {
      var args := Lower(s).value.args;
      assert args[..i - 1] == Operands(s, i) && args[i - 1] == child.value;
      SizePrefix(args, i - 1);
      assert mid + Size(child.value) <= |before| + 1 + SizeAll(args);
    }
  }

  /** Parses a pattern.  It succeeds exactly when the source denotes a tree that fits the table, and
      the table then spells that tree from entry 0. */
  method ParsePattern(s: Sexp) returns (pat: Option<Pattern>, reason: string)
    ensures pat.Some? <==> Lower(s).Some? && Size(Lower(s).value) <= PAT_MAX_NODES
    ensures pat.Some? ==> WellFormedPattern(pat.value) && pat.value.root == 0 && Tree(pat.value) == Lower(s).value
    ensures pat.Some? ==> |pat.value.nodes| == Size(Lower(s).value)
  {
    var p := new Parser();
    var root := p.ParseNode(s);
    if p.failed || root.None? {
      return None, p.reason;
    }
    return Some(Pattern(p.nodes, root.value)), p.reason;
  }

  /** A list headed by an empty quoted string parses to an operator without a name. */
  lemma UnnamedOperatorParses()
    ensures Lower(SList([Atom(Some(""), true)])) == Some(POp("", []))
    ensures !OpsNamed(POp("", []))
  {
    var s := SList([Atom(Some(""), true)]);
    assert Lower(s).value.args == [];
  }

  function Plain(s: string): Sexp {
    Atom(Some(s), false)
  }

  /** (imul ?x (iconst 8)), (f ?x -1), (f (iconst ?c)), and quoted operands, which are refused. */
  lemma SampleSources()
    ensures Lower(SList([Plain("imul"), Plain("?x"), SList([Plain("iconst"), Plain("8")])])) == Some(POp("imul", [PVar("?x"), PConst(8)]))
    ensures Lower(SList([Plain("f"), Plain("?x"), Plain("-1")])) == Some(POp("f", [PVar("?x"), PConst(-1)]))
    ensures Lower(SList([Plain("f"), SList([Plain("iconst"), Plain("?c")])])) == Some(POp("f", [PConstVar("?c")]))
    ensures Lower(SList([Plain("f"), Atom(Some("?x"), true)])) == None
  {
    SampleIntegers();
    var (eight, c) := (SList([Plain("iconst"), Plain("8")]), SList([Plain("iconst"), Plain("?c")]));
    var (s, t, u) := (SList([Plain("imul"), Plain("?x"), eight]), SList([Plain("f"), Plain("?x"), Plain("-1")]), SList([Plain("f"), c]));
    assert Lower(eight) == Some(PConst(8)) && Lower(c) == Some(PConstVar("?c"));
    assert Lower(s.items[1]) == Some(PVar("?x")) && Lower(s.items[2]) == Some(PConst(8));
    assert Lower(s).value.args == [PVar("?x"), PConst(8)];
    assert Lower(t.items[1]) == Some(PVar("?x")) && Lower(t.items[2]) == Some(PConst(-1));
    assert Lower(t).value.args == [PVar("?x"), PConst(-1)];
    assert Lower(u.items[1]) == Some(PConstVar("?c"));
    assert Lower(u).value.args == [PConstVar("?c")];
    var v := SList([Plain("f"), Atom(Some("?x"), true)]);
    assert Lower(v.items[1]) == None;
  }

  lemma SampleIntegers()
    ensures ParseInteger("8") == Some(8) && ParseInteger("-1") == Some(-1)
  {
    assert "8"[..0] == "" && "-1"[1..] == "1" && "1"[..0] == "";
  }
}
