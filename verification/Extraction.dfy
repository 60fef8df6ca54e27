/** Cost models and the fixpoint extractor: termination, well-foundedness and optimality. */
module Extraction {
  import opened Basics
  import opened Terms
  import opened UnionFind
  import opened EGraphs
  import opened Matching

  datatype CostModel = CostPerformance | CostCanonical

  function NodeCost(n: ENode, model: CostModel): (cost: nat)
    ensures cost >= 1
    ensures n.IsLeaf() ==> cost == 1
    ensures !n.IsLeaf() ==> cost >= 2
  {
    if n.IsLeaf() then 1
    else if model == CostCanonical then 10 + n.opcode[0] as int % 256
    else if n.opcode == "imul" then 30
    else if n.opcode == "idiv" then 40
    else if n.opcode == "shl" || n.opcode == "shr" then 4
    else if n.opcode == "iadd" || n.opcode == "isub" then 5
    else if n.opcode == "imov" then 2
    else 10
  }

  /** For performance: moves before shifts, shifts before sums, sums before anything unknown, and that before
      products and quotients.  A shift and a sum together still cost less than a product. */
  lemma PerformanceOrder(move: ENode, shift: ENode, sum: ENode, other: ENode, product: ENode, quotient: ENode)
    requires !move.isConst && !shift.isConst && !sum.isConst && !other.isConst && !product.isConst && !quotient.isConst
    requires move.opcode == "imov" && (shift.opcode == "shl" || shift.opcode == "shr") && (sum.opcode == "iadd" || sum.opcode == "isub")
    requires other.opcode !in {"", "imov", "shl", "shr", "iadd", "isub", "imul", "idiv"}
    requires product.opcode == "imul" && quotient.opcode == "idiv"
    ensures 1 < NodeCost(move, CostPerformance) < NodeCost(shift, CostPerformance) < NodeCost(sum, CostPerformance)
    ensures NodeCost(sum, CostPerformance) < NodeCost(other, CostPerformance) < NodeCost(product, CostPerformance)
    ensures NodeCost(product, CostPerformance) < NodeCost(quotient, CostPerformance)
    ensures NodeCost(shift, CostPerformance) + NodeCost(sum, CostPerformance) + 3 < NodeCost(product, CostPerformance)
  {
  }

  /** The canonical form prefers opcodes by their first letters. */
  lemma CanonicalOrder(a: ENode, b: ENode)
    requires !a.IsLeaf() && !b.IsLeaf() && a.opcode[0] <= '\U{7f}' && b.opcode[0] <= '\U{7f}'
    ensures NodeCost(a, CostCanonical) <= NodeCost(b, CostCanonical) <==> a.opcode[0] <= b.opcode[0]
  {
  }

  // ----- the terms a class represents -----

  /** A choice of one e-node per class, all the way down. */
  datatype ETree = ETree(node: nat, kids: seq<ETree>)

  ghost predicate Represents(nodes: seq<ENode>, rt: seq<nat>, t: ETree, c: nat)
    requires Fits(nodes, rt)
    decreases t
  {
    && t.node < |nodes| && rt[t.node] == c
    && |t.kids| == |nodes[t.node].children|
    && forall k :: 0 <= k < |t.kids| ==> Represents(nodes, rt, t.kids[k], rt[nodes[t.node].children[k]])
  }

  ghost function TreeCost(nodes: seq<ENode>, model: CostModel, t: ETree): nat
    decreases t, 0
  {
    (if t.node < |nodes| then NodeCost(nodes[t.node], model) else 0) + TreesCost(nodes, model, t.kids)
  }

  ghost function TreesCost(nodes: seq<ENode>, model: CostModel, ts: seq<ETree>): nat
    decreases ts, 0
  {
    if ts == [] then 0 else TreesCost(nodes, model, ts[..|ts| - 1]) + TreeCost(nodes, model, ts[|ts| - 1])
  }

  ghost function TreeTerm(nodes: seq<ENode>, t: ETree): Term {
    if t.node >= |nodes| then TConst(0)
    else
      var n := nodes[t.node];
      if n.isConst then TConst(n.value)
      else if n.opcode == "" && n.children == [] then TReg(n.reg)
      else TApp(n.opcode, seq(|t.kids|, k requires 0 <= k < |t.kids| => TreeTerm(nodes, t.kids[k])))
  }

  /** Every term a class represents is equal, in every model, to the term of its representative. */
  lemma {:induction false} RepresentsDenotes(R: TermRel, nodes: seq<ENode>, rt: seq<nat>, t: ETree, c: nat)
    requires Fits(nodes, rt) && Congruence(R) && Sound(R, nodes, rt) && Represents(nodes, rt, t, c)
    ensures c < |nodes| && R(TreeTerm(nodes, t), TermOf(nodes, c))
    decreases t
  {
    var n := nodes[t.node];
    assert rt[c] == c;
    if !n.isConst && !(n.opcode == "" && n.children == []) {
      var us := seq(|t.kids|, k requires 0 <= k < |t.kids| => TreeTerm(nodes, t.kids[k]));
      var vs := seq(|n.children|, k requires 0 <= k < |n.children| => TermOf(nodes, n.children[k]));
      forall k | 0 <= k < |us| ensures R(us[k], vs[k]) {
        var d := n.children[k];
        RepresentsDenotes(R, nodes, rt, t.kids[k], rt[d]);
        assert rt[rt[d]] == rt[d];
        assert R(TermOf(nodes, rt[d]), TermOf(nodes, d));
      }
      assert Pointwise(R, us, vs);
      assert TermOf(nodes, t.node) == TApp(n.opcode, vs);
      assert TreeTerm(nodes, t) == TApp(n.opcode, us);
    }
    assert R(TreeTerm(nodes, t), TermOf(nodes, t.node));
  }

  // ----- the cost of an e-node given the best costs of its children's classes -----

  type Costs = seq<Option<nat>>

  ghost function ChildrenCost(rt: seq<nat>, best: Costs, cs: seq<nat>): Option<nat>
    requires |best| == |rt| && Canonical(rt) && forall k :: 0 <= k < |cs| ==> cs[k] < |rt|
  {
    if cs == [] then Some(0)
    else
      var init, last := ChildrenCost(rt, best, cs[..|cs| - 1]), best[rt[cs[|cs| - 1]]];
      if init.Some? && last.Some? then Some(init.value + last.value) else None
  }

  ghost function OpCost(nodes: seq<ENode>, rt: seq<nat>, model: CostModel, best: Costs, i: nat): Option<nat>
    requires Fits(nodes, rt) && |best| == |nodes| && i < |nodes|
  {
    WiderNode(nodes[i], i, |rt|);
    var kids := ChildrenCost(rt, best, nodes[i].children);
    if kids.Some? then Some(NodeCost(nodes[i], model) + kids.value) else None
  }

  ghost predicate Leq(a: Option<nat>, b: Option<nat>) {
    b.Some? ==> a.Some? && a.value <= b.value
  }

  lemma {:induction false} ChildrenCostMonotone(rt: seq<nat>, best: Costs, best': Costs, cs: seq<nat>)
    requires |best| == |best'| == |rt| && Canonical(rt) && forall k :: 0 <= k < |cs| ==> cs[k] < |rt|
    requires forall c :: 0 <= c < |rt| ==> Leq(best'[c], best[c])
    ensures Leq(ChildrenCost(rt, best', cs), ChildrenCost(rt, best, cs))
  {
    if cs != [] {
      ChildrenCostMonotone(rt, best, best', cs[..|cs| - 1]);
    }
  }

  lemma {:induction false} ChildrenCostKnown(rt: seq<nat>, best: Costs, cs: seq<nat>)
    requires |best| == |rt| && Canonical(rt) && forall k :: 0 <= k < |cs| ==> cs[k] < |rt|
    ensures ChildrenCost(rt, best, cs).Some? <==> forall k :: 0 <= k < |cs| ==> best[rt[cs[k]]].Some?
    ensures ChildrenCost(rt, best, cs).Some? ==>
              forall k :: 0 <= k < |cs| ==> best[rt[cs[k]]].value <= ChildrenCost(rt, best, cs).value
  {
    if cs != [] {
      ChildrenCostKnown(rt, best, cs[..|cs| - 1]);
      forall k | 0 <= k < |cs| - 1 ensures cs[..|cs| - 1][k] == cs[k] {
      }
    }
  }

  /** If no e-node can improve its class, no tree is cheaper than the recorded cost. */
  ghost predicate Settled(nodes: seq<ENode>, rt: seq<nat>, model: CostModel, best: Costs, who: seq<int>, i: nat)
    requires Fits(nodes, rt) && |best| == |who| == |nodes| && i < |nodes|
  {
    var cost := OpCost(nodes, rt, model, best, i);
    && cost.Some? ==>
      && Leq(best[rt[i]], cost)
      && (best[rt[i]] == cost ==> who[rt[i]] <= i)
  }

  lemma {:induction false} SettledLowerBound(nodes: seq<ENode>, rt: seq<nat>, model: CostModel, best: Costs, who: seq<int>,
                                             t: ETree, c: nat)
    requires Fits(nodes, rt) && |best| == |who| == |nodes| && Represents(nodes, rt, t, c)
    requires forall i :: 0 <= i < |nodes| ==> Settled(nodes, rt, model, best, who, i)
    ensures OpCost(nodes, rt, model, best, t.node).Some?
    ensures OpCost(nodes, rt, model, best, t.node).value <= TreeCost(nodes, model, t)
    ensures best[c].Some? && best[c].value <= TreeCost(nodes, model, t)
    decreases t, 0
  {
    WiderNode(nodes[t.node], t.node, |rt|);
    SettledLowerBounds(nodes, rt, model, best, who, t, nodes[t.node].children, |t.kids|);
    assert nodes[t.node].children[..|t.kids|] == nodes[t.node].children && t.kids[..|t.kids|] == t.kids;
    assert Settled(nodes, rt, model, best, who, t.node);
  }

  lemma {:induction false} SettledLowerBounds(nodes: seq<ENode>, rt: seq<nat>, model: CostModel, best: Costs, who: seq<int>,
                                              t: ETree, cs: seq<nat>, n: nat)
    requires Fits(nodes, rt) && |best| == |who| == |nodes|
    requires n <= |t.kids| == |cs| && forall k :: 0 <= k < |cs| ==> cs[k] < |nodes|
    requires forall k :: 0 <= k < |cs| ==> Represents(nodes, rt, t.kids[k], rt[cs[k]])
    requires forall i :: 0 <= i < |nodes| ==> Settled(nodes, rt, model, best, who, i)
    ensures ChildrenCost(rt, best, cs[..n]).Some?
    ensures ChildrenCost(rt, best, cs[..n]).value <= TreesCost(nodes, model, t.kids[..n])
    decreases t, 0, n
  {
    if n > 0 {
      assert cs[..n][..n - 1] == cs[..n - 1] && t.kids[..n][..n - 1] == t.kids[..n - 1];
      SettledLowerBounds(nodes, rt, model, best, who, t, cs, n - 1);
      SettledLowerBound(nodes, rt, model, best, who, t.kids[n - 1], rt[cs[n - 1]]);
    }
  }

  // ----- termination measure -----

  ghost function Sum(s: seq<nat>): nat {
    if s == [] then 0 else Sum(s[..|s| - 1]) + s[|s| - 1]
  }

  lemma {:induction false} SumUpdate(s: seq<nat>, i: nat, v: nat)
    requires i < |s|
    ensures Sum(s[i := v]) == Sum(s) - s[i] + v
  {
    var init := s[..|s| - 1];
    if i == |s| - 1 {
      assert s[i := v][..|s| - 1] == init;
    } else {
      SumUpdate(init, i, v);
      assert s[i := v][..|s| - 1] == init[i := v];
    }
  }

  ghost function Unknown(best: Costs): seq<nat> {
    seq(|best|, i requires 0 <= i < |best| => if best[i].None? then 1 else 0)
  }

  ghost function Known(best: Costs): seq<nat> {
    seq(|best|, i requires 0 <= i < |best| => if best[i].None? then 0 else best[i].value)
  }

  ghost function Chosen(who: seq<int>): seq<nat> {
    seq(|who|, i requires 0 <= i < |who| => if who[i] < 0 then 0 else who[i])
  }

  /** Progress: fewer classes without a cost, or a smaller total cost, or smaller chosen indices. */
  ghost predicate Falls(best: Costs, who: seq<int>, best': Costs, who': seq<int>) {
    var (u, k, w, u', k', w') := (Sum(Unknown(best)), Sum(Known(best)), Sum(Chosen(who)),
                                  Sum(Unknown(best')), Sum(Known(best')), Sum(Chosen(who')));
    u' < u || (u' == u && (k' < k || (k' == k && w' < w)))
  }

  lemma FallsTransitive(b0: Costs, w0: seq<int>, b1: Costs, w1: seq<int>, b2: Costs, w2: seq<int>)
    requires Falls(b0, w0, b1, w1) && Falls(b1, w1, b2, w2)
    ensures Falls(b0, w0, b2, w2)
  {
  }

  /** Every update the extractor makes is progress. */
  lemma UpdateFalls(best: Costs, who: seq<int>, c: nat, cost: nat, i: nat)
    requires c < |best| == |who|
    requires best[c].None? || cost < best[c].value || (cost == best[c].value && i < who[c])
    ensures Falls(best, who, best[c := Some(cost)], who[c := i])
  {
    assert Unknown(best[c := Some(cost)]) == Unknown(best)[c := 0];
    assert Known(best[c := Some(cost)]) == Known(best)[c := cost];
    assert Chosen(who[c := i]) == Chosen(who)[c := i];
    SumUpdate(Unknown(best), c, 0);
    SumUpdate(Known(best), c, cost);
    SumUpdate(Chosen(who), c, i);
  }

  // ----- the invariant of the fixpoint loop -----

  ghost predicate Tracks(nodes: seq<ENode>, rt: seq<nat>, model: CostModel, best: Costs, who: seq<int>, wit: seq<ETree>)
    requires Fits(nodes, rt)
  {
    && |best| == |who| == |wit| == |nodes|
    && forall c :: 0 <= c < |nodes| && best[c].Some? ==> TracksAt(nodes, rt, model, best, who, wit[c], c)
  }

  /** A recorded cost is the cost of a tree of the class, and the chosen e-node still attains it
      or better. */
  ghost predicate TracksAt(nodes: seq<ENode>, rt: seq<nat>, model: CostModel, best: Costs, who: seq<int>, t: ETree, c: nat)
    requires Fits(nodes, rt) && |best| == |who| == |nodes| && c < |nodes| && best[c].Some?
  {
    && Represents(nodes, rt, t, c) && TreeCost(nodes, model, t) == best[c].value
    && 0 <= who[c] < |nodes| && rt[who[c]] == c
    && Leq(OpCost(nodes, rt, model, best, who[c]), best[c])
  }

  /** The tree that uses e-node `i` over the recorded trees of its children's classes. */
  lemma {:induction false} TreeFromWitnesses(nodes: seq<ENode>, rt: seq<nat>, model: CostModel, best: Costs, who: seq<int>,
                                             wit: seq<ETree>, cs: seq<nat>) returns (kids: seq<ETree>)
    requires Fits(nodes, rt) && Tracks(nodes, rt, model, best, who, wit)
    requires forall k :: 0 <= k < |cs| ==> cs[k] < |nodes|
    requires ChildrenCost(rt, best, cs).Some?
    ensures |kids| == |cs| && TreesCost(nodes, model, kids) == ChildrenCost(rt, best, cs).value
    ensures forall k :: 0 <= k < |kids| ==> Represents(nodes, rt, kids[k], rt[cs[k]])
  {
    if cs == [] {
      kids := [];
    } else {
      var init := TreeFromWitnesses(nodes, rt, model, best, who, wit, cs[..|cs| - 1]);
      var c := rt[cs[|cs| - 1]];
      assert TracksAt(nodes, rt, model, best, who, wit[c], c);
      kids := init + [wit[c]];
      OneTreeMore(nodes, model, init, wit[c]);
    }
  }

  lemma OneTreeMore(nodes: seq<ENode>, model: CostModel, ts: seq<ETree>, t: ETree)
    ensures TreesCost(nodes, model, ts + [t]) == TreesCost(nodes, model, ts) + TreeCost(nodes, model, t)
  {
    assert (ts + [t])[..|ts|] == ts;
  }

  lemma UpdateTracks(nodes: seq<ENode>, rt: seq<nat>, model: CostModel, best: Costs, who: seq<int>, wit: seq<ETree>,
                     i: nat, cost: nat) returns (wit': seq<ETree>)
    requires Fits(nodes, rt) && Tracks(nodes, rt, model, best, who, wit) && i < |nodes|
    requires OpCost(nodes, rt, model, best, i) == Some(cost)
    requires best[rt[i]].None? || cost <= best[rt[i]].value
    ensures Tracks(nodes, rt, model, best[rt[i] := Some(cost)], who[rt[i] := i], wit')
  {
    var c := rt[i];
    var best', who' := best[c := Some(cost)], who[c := i];
    WiderNode(nodes[i], i, |rt|);
    var kids := TreeFromWitnesses(nodes, rt, model, best, who, wit, nodes[i].children);
    var t := ETree(i, kids);
    wit' := wit[c := t];
    assert forall d :: 0 <= d < |nodes| ==> Leq(best'[d], best[d]);
    forall d | 0 <= d < |nodes| && best'[d].Some? ensures TracksAt(nodes, rt, model, best', who', wit'[d], d) {
      if d == c {
        ChildrenCostMonotone(rt, best, best', nodes[i].children);
        assert Represents(nodes, rt, t, c);
      } else {
        assert TracksAt(nodes, rt, model, best, who, wit[d], d);
        var w := who[d];
        WiderNode(nodes[w], w, |rt|);
        ChildrenCostMonotone(rt, best, best', nodes[w].children);
      }
    }
  }

  // ----- what extraction promises -----

  /** For a class: the recorded cost is the least cost of any term the class represents, and the
      recorded e-node is the lowest-numbered root of a cheapest term. */
  ghost predicate BestFor(nodes: seq<ENode>, rt: seq<nat>, model: CostModel, best: Costs, who: seq<int>, c: nat)
    requires Fits(nodes, rt) && |best| == |who| == |nodes| && c < |nodes|
  {
    && best[c].Some? && 0 <= who[c] < |nodes| && rt[who[c]] == c
    && (exists t :: Represents(nodes, rt, t, c) && TreeCost(nodes, model, t) == best[c].value && t.node == who[c])
    && (forall t :: Represents(nodes, rt, t, c) ==> best[c].value <= TreeCost(nodes, model, t))
    && (forall t :: Represents(nodes, rt, t, c) && TreeCost(nodes, model, t) == best[c].value ==> who[c] <= t.node)
  }

  ghost predicate Optimal(nodes: seq<ENode>, rt: seq<nat>, model: CostModel, best: Costs, who: seq<int>)
    requires Fits(nodes, rt)
  {
    && |best| == |who| == |nodes|
    && (forall c :: 0 <= c < |nodes| && rt[c] == c ==> BestFor(nodes, rt, model, best, who, c))
    && (forall c :: 0 <= c < |nodes| && rt[c] == c ==> OpCost(nodes, rt, model, best, who[c]) == best[c])
  }

  ghost predicate AllSettled(nodes: seq<ENode>, rt: seq<nat>, model: CostModel, best: Costs, who: seq<int>, n: nat)
    requires Fits(nodes, rt) && |best| == |who| == |nodes| && n <= |nodes|
  {
    forall i :: 0 <= i < n ==> Settled(nodes, rt, model, best, who, i)
  }

  /** No term of a class beats a settled cost, or ties with it from a lower e-node. */
  lemma SettledBeats(nodes: seq<ENode>, rt: seq<nat>, model: CostModel, best: Costs, who: seq<int>, c: nat, t: ETree)
    requires Fits(nodes, rt) && |best| == |who| == |nodes| && AllSettled(nodes, rt, model, best, who, |nodes|)
    requires c < |nodes| && rt[c] == c && best[c].Some? && Represents(nodes, rt, t, c)
    ensures best[c].value <= TreeCost(nodes, model, t)
    ensures TreeCost(nodes, model, t) == best[c].value ==> who[c] <= t.node
  {
    SettledLowerBound(nodes, rt, model, best, who, t, c);
    assert Settled(nodes, rt, model, best, who, t.node);
  }

  lemma SettledBest(nodes: seq<ENode>, rt: seq<nat>, model: CostModel, best: Costs, who: seq<int>, wit: seq<ETree>, c: nat)
    requires Fits(nodes, rt) && Tracks(nodes, rt, model, best, who, wit)
    requires AllSettled(nodes, rt, model, best, who, |nodes|) && c < |nodes| && rt[c] == c && best[c].Some?
    ensures BestFor(nodes, rt, model, best, who, c) && OpCost(nodes, rt, model, best, who[c]) == best[c]
  {
    assert TracksAt(nodes, rt, model, best, who, wit[c], c);
    var w := who[c];
    assert Settled(nodes, rt, model, best, who, w);
    WiderNode(nodes[w], w, |rt|);
    assert OpCost(nodes, rt, model, best, w) == best[c];
    var kids := TreeFromWitnesses(nodes, rt, model, best, who, wit, nodes[w].children);
    assert Represents(nodes, rt, ETree(w, kids), c);
    forall t | Represents(nodes, rt, t, c)
      ensures best[c].value <= TreeCost(nodes, model, t)
      ensures TreeCost(nodes, model, t) == best[c].value ==> w <= t.node
    {
      SettledBeats(nodes, rt, model, best, who, c, t);
    }
  }

  /** A settled state that tracks its trees and knows every class is optimal. */
  lemma SettledIsOptimal(nodes: seq<ENode>, rt: seq<nat>, model: CostModel, best: Costs, who: seq<int>, wit: seq<ETree>)
    requires Fits(nodes, rt) && Tracks(nodes, rt, model, best, who, wit)
    requires AllSettled(nodes, rt, model, best, who, |nodes|)
    requires forall i :: 0 <= i < |nodes| ==> best[rt[i]].Some?
    ensures Optimal(nodes, rt, model, best, who)
  {
    forall c | 0 <= c < |nodes| && rt[c] == c
      ensures BestFor(nodes, rt, model, best, who, c)
      ensures OpCost(nodes, rt, model, best, who[c]) == best[c]
    {
      assert best[rt[c]].Some?;
      SettledBest(nodes, rt, model, best, who, wit, c);
    }
  }

  ghost predicate AllKnown(rt: seq<nat>, best: Costs, n: nat)
    requires |best| == |rt| && Canonical(rt) && n <= |rt|
  {
    forall k :: 0 <= k < n ==> best[rt[k]].Some?
  }

  /** Because children precede parents, an e-node reached by the sweep has a cost. */
  lemma CostKnown(nodes: seq<ENode>, rt: seq<nat>, model: CostModel, best: Costs, i: nat)
    requires Fits(nodes, rt) && |best| == |nodes| && i < |nodes| && AllKnown(rt, best, i)
    ensures OpCost(nodes, rt, model, best, i).Some?
  {
    WiderNode(nodes[i], i, |rt|);
    ChildrenCostKnown(rt, best, nodes[i].children);
  }

  /** The e-node is cheaper than what its class has recorded, or as cheap with a lower index. */
  predicate Improves(best: Option<nat>, who: int, cost: nat, i: nat) {
    best.None? || cost < best.value || (cost == best.value && i < who)
  }

  /** The state of one sweep, having offered the e-nodes before `i` to their classes. */
  ghost predicate Sweep(nodes: seq<ENode>, rt: seq<nat>, model: CostModel, best0: Costs, who0: seq<int>,
                        best: Costs, who: seq<int>, wit: seq<ETree>, i: nat, changed: bool)
    requires Fits(nodes, rt) && i <= |nodes|
  {
    && Tracks(nodes, rt, model, best, who, wit)
    && AllKnown(rt, best, i)
    && (changed ==> Falls(best0, who0, best, who))
    && (!changed ==> best == best0 && who == who0 && AllSettled(nodes, rt, model, best, who, i))
  }

  lemma SweepUpdate(nodes: seq<ENode>, rt: seq<nat>, model: CostModel, best0: Costs, who0: seq<int>,
                    best: Costs, who: seq<int>, wit: seq<ETree>, i: nat, changed: bool, cost: nat) returns (wit': seq<ETree>)
    requires Fits(nodes, rt) && i < |nodes| && Sweep(nodes, rt, model, best0, who0, best, who, wit, i, changed)
    requires OpCost(nodes, rt, model, best, i) == Some(cost) && Improves(best[rt[i]], who[rt[i]], cost, i)
    ensures Sweep(nodes, rt, model, best0, who0, best[rt[i] := Some(cost)], who[rt[i] := i], wit', i + 1, true)
  {
    wit' := UpdateTracks(nodes, rt, model, best, who, wit, i, cost);
    UpdateFalls(best, who, rt[i], cost, i);
    if changed {
      FallsTransitive(best0, who0, best, who, best[rt[i] := Some(cost)], who[rt[i] := i]);
    }
    KnownAfterUpdate(rt, best, i, cost);
  }

  lemma KnownAfterUpdate(rt: seq<nat>, best: Costs, i: nat, cost: nat)
    requires |best| == |rt| && Canonical(rt) && i < |rt| && AllKnown(rt, best, i)
    ensures AllKnown(rt, best[rt[i] := Some(cost)], i + 1)
  {
  }

  lemma SweepKeep(nodes: seq<ENode>, rt: seq<nat>, model: CostModel, best0: Costs, who0: seq<int>,
                  best: Costs, who: seq<int>, wit: seq<ETree>, i: nat, changed: bool, cost: nat)
    requires Fits(nodes, rt) && i < |nodes| && Sweep(nodes, rt, model, best0, who0, best, who, wit, i, changed)
    requires OpCost(nodes, rt, model, best, i) == Some(cost) && !Improves(best[rt[i]], who[rt[i]], cost, i)
    ensures Sweep(nodes, rt, model, best0, who0, best, who, wit, i + 1, changed)
  {
  }

  // ----- the extractor -----

  /** Fills `bestNode` and `bestCost`; a class that is not a representative keeps -1 and no cost. */
  method Extract(g: EGraph, model: CostModel, bestNode: array<int>, bestCost: array<Option<nat>>)
    requires g.Valid() && bestNode.Length == bestCost.Length == |g.nodes|
    modifies g`parent, bestNode, bestCost
    ensures g.Valid() && g.Part() == old(g.Part())
    ensures Optimal(g.nodes, g.Part(), model, bestCost[..], bestNode[..])
  {
    ghost var nodes, rt := g.nodes, g.Part();
    var i := 0;
    while i < |g.nodes|
      invariant 0 <= i <= |g.nodes|
      invariant g.Valid() && g.Part() == rt
      invariant forall k :: 0 <= k < i ==> bestNode[k] == -1 && bestCost[k] == None
    {
      bestNode[i] := -1;
      bestCost[i] := None;
      i := i + 1;
    }
    ghost var wit := seq(|g.nodes|, _ => ETree(0, []));
    var changed := true;
    while changed
      invariant g.Valid() && g.nodes == nodes && g.Part() == rt
      invariant Tracks(nodes, rt, model, bestCost[..], bestNode[..], wit)
      invariant !changed ==> AllSettled(nodes, rt, model, bestCost[..], bestNode[..], |nodes|)
                             && AllKnown(rt, bestCost[..], |nodes|)
      decreases Sum(Unknown(bestCost[..])), Sum(Known(bestCost[..])), Sum(Chosen(bestNode[..])), changed
    {
      changed, wit := ExtractPass(g, model, bestNode, bestCost, wit);
    }
    SettledIsOptimal(nodes, rt, model, bestCost[..], bestNode[..], wit);
  }

  /** One sweep over the e-nodes in index order. */
  method ExtractPass(g: EGraph, model: CostModel, bestNode: array<int>, bestCost: array<Option<nat>>, ghost wit0: seq<ETree>)
    returns (changed: bool, ghost wit: seq<ETree>)
    requires g.Valid() && bestNode.Length == bestCost.Length == |g.nodes|
    requires Tracks(g.nodes, g.Part(), model, bestCost[..], bestNode[..], wit0)
    modifies g`parent, bestNode, bestCost
    ensures g.Valid() && g.Part() == old(g.Part())
    ensures Sweep(g.nodes, g.Part(), model, old(bestCost[..]), old(bestNode[..]), bestCost[..], bestNode[..], wit, |g.nodes|, changed)
  {
    ghost var nodes, rt, best0, who0 := g.nodes, g.Part(), bestCost[..], bestNode[..];
    changed := false;
    wit := wit0;
    var i := 0;
    while i < |g.nodes|
      invariant 0 <= i <= |g.nodes|
      invariant g.Valid() && g.nodes == nodes && g.Part() == rt
      invariant Sweep(nodes, rt, model, best0, who0, bestCost[..], bestNode[..], wit, i, changed)
    {
      ghost var best, who := bestCost[..], bestNode[..];
      CostKnown(nodes, rt, model, best, i);
      var improved, cost := ExtractAt(g, model, bestNode, bestCost, i);
      if improved {
        wit := SweepUpdate(nodes, rt, model, best0, who0, best, who, wit, i, changed, cost.value);
        changed := true;
      } else {
        SweepKeep(nodes, rt, model, best0, who0, best, who, wit, i, changed, cost.value);
      }
      i := i + 1;
    }
  }

  lemma ChildrenCostMore(rt: seq<nat>, best: Costs, cs: seq<nat>, c: nat)
    requires |best| == |rt| && Canonical(rt) && c < |cs| && forall k :: 0 <= k < |cs| ==> cs[k] < |rt|
    requires ChildrenCost(rt, best, cs[..c]).Some? && best[rt[cs[c]]].Some?
    ensures ChildrenCost(rt, best, cs[..c + 1]) == Some(ChildrenCost(rt, best, cs[..c]).value + best[rt[cs[c]]].value)
  {
    assert cs[..c + 1][..c] == cs[..c];
  }

  lemma ChildrenCostMissing(rt: seq<nat>, best: Costs, cs: seq<nat>, c: nat)
    requires |best| == |rt| && Canonical(rt) && c < |cs| && forall k :: 0 <= k < |cs| ==> cs[k] < |rt|
    requires best[rt[cs[c]]].None?
    ensures ChildrenCost(rt, best, cs).None?
  {
    ChildrenCostKnown(rt, best, cs);
  }

  /** The cost of one e-node, if every child class has one. */
  method CostOf(g: EGraph, model: CostModel, bestCost: array<Option<nat>>, i: nat) returns (cost: Option<nat>)
    requires g.Valid() && bestCost.Length == |g.nodes| && i < |g.nodes|
    modifies g`parent
    ensures g.Valid() && g.Part() == old(g.Part())
    ensures cost == OpCost(g.nodes, g.Part(), model, bestCost[..], i)
  {
    WiderNode(g.nodes[i], i, |g.nodes|);
    var kids := CostOfChildren(g, bestCost, g.nodes[i].children, bestCost[..]);
    cost := if kids.Some? then Some(NodeCost(g.nodes[i], model) + kids.value) else None;
  }

  /** The cost of the child classes together, if each has one. */
  method CostOfChildren(g: EGraph, bestCost: array<Option<nat>>, cs: seq<nat>, ghost best: Costs) returns (cost: Option<nat>)
    requires g.Valid() && bestCost.Length == |g.nodes| && best == bestCost[..] && forall k :: 0 <= k < |cs| ==> cs[k] < |g.nodes|
    modifies g`parent
    ensures g.Valid() && g.Part() == old(g.Part())
    ensures cost == ChildrenCost(g.Part(), best, cs)
  {
    ghost var rt := g.Part();
    var total := 0;
    var c := 0;
    while c < |cs|
      invariant 0 <= c <= |cs|
      invariant g.Valid() && g.Part() == rt
      invariant ChildrenCost(rt, best, cs[..c]) == Some(total)
    {
      var cls := g.Find(cs[c]);
      if bestCost[cls].None? {
        ChildrenCostMissing(rt, best, cs, c);
        return None;
      }
      ChildrenCostMore(rt, best, cs, c);
      total := total + bestCost[cls].value;
      c := c + 1;
    }
    assert cs[..c] == cs;
    return Some(total);
  }

  /** Offers one e-node to its class. */
  method ExtractAt(g: EGraph, model: CostModel, bestNode: array<int>, bestCost: array<Option<nat>>, i: nat)
    returns (improved: bool, ghost cost: Option<nat>)
    requires g.Valid() && bestNode.Length == bestCost.Length == |g.nodes| && i < |g.nodes|
    modifies g`parent, bestNode, bestCost
    ensures g.Valid() && g.Part() == old(g.Part())
    ensures cost == OpCost(g.nodes, g.Part(), model, old(bestCost[..]), i)
    ensures improved <==> cost.Some? && Improves(old(bestCost[..])[g.Part()[i]], old(bestNode[..])[g.Part()[i]], cost.value, i)
    ensures bestCost[..] == if improved then old(bestCost[..])[g.Part()[i] := cost] else old(bestCost[..])
    ensures bestNode[..] == if improved then old(bestNode[..])[g.Part()[i] := i] else old(bestNode[..])
  {
    var offer := CostOf(g, model, bestCost, i);
    cost := offer;
    if offer.None? {
      return false, cost;
    }
    var cls := g.Find(i);
    improved := Improves(bestCost[cls], bestNode[cls], offer.value, i);
    if improved {
      bestCost[cls] := offer;
      bestNode[cls] := i;
    }
  }

  // ----- following the chosen e-nodes -----

  /** Below a chosen e-node every class is strictly cheaper, even where the class graph is cyclic. */
  lemma ChildrenCheaper(nodes: seq<ENode>, rt: seq<nat>, model: CostModel, best: Costs, who: seq<int>, c: nat, k: nat)
    requires Fits(nodes, rt) && Optimal(nodes, rt, model, best, who) && c < |nodes| && rt[c] == c
    requires k < |nodes[who[c]].children|
    ensures nodes[who[c]].children[k] < |rt|
    ensures best[rt[nodes[who[c]].children[k]]].Some? && best[rt[nodes[who[c]].children[k]]].value < best[c].value
  {
    assert BestFor(nodes, rt, model, best, who, c);
    var w := who[c];
    WiderNode(nodes[w], w, |rt|);
    ChildrenCostKnown(rt, best, nodes[w].children);
  }

  /** The term read off by following the chosen e-nodes from a class. */
  ghost function Extracted(nodes: seq<ENode>, rt: seq<nat>, model: CostModel, best: Costs, who: seq<int>, c: nat): (t: ETree)
    requires Fits(nodes, rt) && Optimal(nodes, rt, model, best, who) && c < |nodes| && rt[c] == c
    decreases best[c].value
  {
    assert BestFor(nodes, rt, model, best, who, c);
    var cs := nodes[who[c]].children;
    ETree(who[c], seq(|cs|, k requires 0 <= k < |cs| =>
      ChildrenCheaper(nodes, rt, model, best, who, c, k);
      assert rt[rt[cs[k]]] == rt[cs[k]];
      Extracted(nodes, rt, model, best, who, rt[cs[k]])))
  }

  /** It is a term of the class, and a cheapest one. */
  lemma {:induction false} ExtractedIsCheapest(nodes: seq<ENode>, rt: seq<nat>, model: CostModel, best: Costs, who: seq<int>, c: nat)
    requires Fits(nodes, rt) && Optimal(nodes, rt, model, best, who) && c < |nodes| && rt[c] == c
    ensures Represents(nodes, rt, Extracted(nodes, rt, model, best, who, c), c)
    ensures TreeCost(nodes, model, Extracted(nodes, rt, model, best, who, c)) == best[c].value
    decreases best[c].value
  {
    assert BestFor(nodes, rt, model, best, who, c);
    var t := Extracted(nodes, rt, model, best, who, c);
    var cs := nodes[who[c]].children;
    WiderNode(nodes[who[c]], who[c], |rt|);
    forall k | 0 <= k < |cs|
      ensures best[rt[cs[k]]].Some? && Represents(nodes, rt, t.kids[k], rt[cs[k]])
      ensures TreeCost(nodes, model, t.kids[k]) == best[rt[cs[k]]].value
    {
      ChildrenCheaper(nodes, rt, model, best, who, c, k);
      assert rt[rt[cs[k]]] == rt[cs[k]];
      ExtractedIsCheapest(nodes, rt, model, best, who, rt[cs[k]]);
    }
    CostsAgree(nodes, rt, model, best, t.kids, cs);
  }

  lemma {:induction false} CostsAgree(nodes: seq<ENode>, rt: seq<nat>, model: CostModel, best: Costs, kids: seq<ETree>, cs: seq<nat>)
    requires Canonical(rt) && |best| == |rt| && |kids| == |cs| && forall k :: 0 <= k < |cs| ==> cs[k] < |rt|
    requires forall k :: 0 <= k < |cs| ==> best[rt[cs[k]]] == Some(TreeCost(nodes, model, kids[k]))
    ensures ChildrenCost(rt, best, cs) == Some(TreesCost(nodes, model, kids))
  {
    if cs != [] {
      CostsAgree(nodes, rt, model, best, kids[..|kids| - 1], cs[..|cs| - 1]);
    }
  }
}
