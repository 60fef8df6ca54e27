/** Execution order of a plan: the acyclicity test of the planner, the selection loop of the
executors, and the one order both compute. */
module SchedOrder {
  import opened Basics

  /** Edges run between node ids, which start at 1; positions start at 0. */
  type Edge = (nat, nat)

  ghost predicate InRange(nn: nat, edges: seq<Edge>) {
    forall k :: 0 <= k < |edges| ==> 1 <= edges[k].0 <= nn && 1 <= edges[k].1 <= nn
  }

  // ----- ready nodes and the greedy order -----

  ghost predicate Ready(nn: nat, edges: seq<Edge>, done: set<nat>, i: nat) {
    i < nn && i !in done && forall k :: 0 <= k < |edges| && edges[k].1 == i + 1 ==> edges[k].0 >= 1 && edges[k].0 - 1 in done
  }

  /** The lowest ready node at or after position `from`. */
  ghost function LeastReadyFrom(nn: nat, edges: seq<Edge>, done: set<nat>, from: nat): (r: Option<nat>)
    ensures r.Some? ==> from <= r.value && Ready(nn, edges, done, r.value)
    ensures forall i: nat :: from <= i && Ready(nn, edges, done, i) ==> r.Some? && r.value <= i
    decreases nn - from
  {
    if from >= nn then None
    else if Ready(nn, edges, done, from) then Some(from)
    else LeastReadyFrom(nn, edges, done, from + 1)
  }

  ghost function LeastReady(nn: nat, edges: seq<Edge>, done: set<nat>): Option<nat> {
    LeastReadyFrom(nn, edges, done, 0)
  }

  ghost function Elems(order: seq<nat>): set<nat> {
    set i | i in order
  }

  ghost function Remaining(nn: nat, order: seq<nat>): set<nat> {
    set i: nat | i < nn && i !in order
  }

  /** Extends an order by the lowest ready node until none is ready. */
  ghost function GreedyFrom(nn: nat, edges: seq<Edge>, order: seq<nat>): seq<nat>
    decreases Remaining(nn, order)
  {
    var next := LeastReady(nn, edges, Elems(order));
    if next.None? then order
    else
      assert next.value in Remaining(nn, order) && next.value !in Remaining(nn, order + [next.value]);
      assert Remaining(nn, order + [next.value]) <= Remaining(nn, order);
      GreedyFrom(nn, edges, order + [next.value])
  }

  ghost function PlanOrder(nn: nat, edges: seq<Edge>): seq<nat> {
    GreedyFrom(nn, edges, [])
  }

  // ----- what an order promises -----

  /** Every node of the order comes after all its predecessors, and only once. */
  ghost predicate Respects(nn: nat, edges: seq<Edge>, order: seq<nat>) {
    && NoDup(order)
    && forall j :: 0 <= j < |order| ==> Ready(nn, edges, Elems(order[..j]), order[j])
  }

  /** All nodes, each once, each after its predecessors. */
  ghost predicate Topological(nn: nat, edges: seq<Edge>, order: seq<nat>) {
    Respects(nn, edges, order) && forall i: nat :: i < nn ==> i in order
  }

  lemma RespectsAppend(nn: nat, edges: seq<Edge>, order: seq<nat>, i: nat)
    requires Respects(nn, edges, order) && Ready(nn, edges, Elems(order), i)
    ensures Respects(nn, edges, order + [i])
  {
    var longer := order + [i];
    forall j | 0 <= j < |longer| ensures Ready(nn, edges, Elems(longer[..j]), longer[j]) {
      assert longer[..j] == if j < |order| then order[..j] else order;
    }
    assert i !in order;
  }

  lemma {:induction false} GreedyRespects(nn: nat, edges: seq<Edge>, order: seq<nat>)
    requires Respects(nn, edges, order)
    ensures order <= GreedyFrom(nn, edges, order)
    ensures Respects(nn, edges, GreedyFrom(nn, edges, order))
    ensures LeastReady(nn, edges, Elems(GreedyFrom(nn, edges, order))).None?
    decreases Remaining(nn, order)
  {
    var next := LeastReady(nn, edges, Elems(order));
    if next.Some? {
      RespectsAppend(nn, edges, order, next.value);
      assert next.value in Remaining(nn, order) && next.value !in Remaining(nn, order + [next.value]);
      assert Remaining(nn, order + [next.value]) <= Remaining(nn, order);
      GreedyRespects(nn, edges, order + [next.value]);
    }
  }

  lemma PlanOrderRespects(nn: nat, edges: seq<Edge>)
    ensures Respects(nn, edges, PlanOrder(nn, edges))
    ensures LeastReady(nn, edges, Elems(PlanOrder(nn, edges))).None?
  {
    GreedyRespects(nn, edges, []);
  }

  // ----- cycles -----

  ghost predicate HasEdge(edges: seq<Edge>, a: nat, b: nat) {
    (a, b) in edges
  }

  /** A closed walk along edges, given by the ids it visits. */
  ghost predicate Cycle(edges: seq<Edge>, c: seq<nat>) {
    && c != []
    && (forall k :: 0 <= k < |c| - 1 ==> HasEdge(edges, c[k], c[k + 1]))
    && HasEdge(edges, c[|c| - 1], c[0])
  }

  /** Along an edge, positions in a topological order grow. */
  lemma EdgeForward(nn: nat, edges: seq<Edge>, order: seq<nat>, a: nat, b: nat)
    requires Topological(nn, edges, order) && HasEdge(edges, a, b) && 1 <= a <= nn && 1 <= b <= nn
    ensures PositionIn(order, a - 1) < PositionIn(order, b - 1)
  {
    var k :| 0 <= k < |edges| && edges[k] == (a, b);
    var j := PositionIn(order, b - 1);
    assert Ready(nn, edges, Elems(order[..j]), order[j]);
    assert a - 1 in order[..j];
    var m :| 0 <= m < j && order[..j][m] == a - 1;
    PositionUnique(order, m);
  }

  lemma {:induction false} WalkForward(nn: nat, edges: seq<Edge>, order: seq<nat>, c: seq<nat>, k: nat)
    requires InRange(nn, edges) && Topological(nn, edges, order) && Cycle(edges, c) && k < |c|
    ensures forall m :: 0 <= m < |c| ==> 1 <= c[m] <= nn
    ensures PositionIn(order, c[0] - 1) + k <= PositionIn(order, c[k] - 1)
  {
    CycleInRange(nn, edges, c);
    if k > 0 {
      WalkForward(nn, edges, order, c, k - 1);
      EdgeForward(nn, edges, order, c[k - 1], c[k]);
    }
  }

  lemma CycleInRange(nn: nat, edges: seq<Edge>, c: seq<nat>)
    requires InRange(nn, edges) && Cycle(edges, c)
    ensures forall m :: 0 <= m < |c| ==> 1 <= c[m] <= nn
  {
    forall m | 0 <= m < |c| ensures 1 <= c[m] <= nn {
      if m < |c| - 1 {
        assert HasEdge(edges, c[m], c[m + 1]);
      }
    }
  }

  lemma TopologicalNoCycle(nn: nat, edges: seq<Edge>, order: seq<nat>, c: seq<nat>)
    requires InRange(nn, edges) && Topological(nn, edges, order)
    ensures !Cycle(edges, c)
  {
    if Cycle(edges, c) {
      WalkForward(nn, edges, order, c, |c| - 1);
      EdgeForward(nn, edges, order, c[|c| - 1], c[0]);
    }
  }

  // ----- a stuck plan has a cycle, by pigeonhole -----

  /** Each entry of the walk is a predecessor of the one before it, among nodes not yet done. */
  ghost predicate BackWalk(nn: nat, edges: seq<Edge>, done: set<nat>, w: seq<nat>) {
    && (forall k :: 0 <= k < |w| ==> w[k] < nn && w[k] !in done)
    && forall k :: 0 <= k < |w| - 1 ==> HasEdge(edges, w[k + 1] + 1, w[k] + 1)
  }

  lemma {:induction false} StuckWalk(nn: nat, edges: seq<Edge>, done: set<nat>, start: nat, n: nat) returns (w: seq<nat>)
    requires InRange(nn, edges) && LeastReady(nn, edges, done).None? && start < nn && start !in done
    ensures |w| == n + 1 && BackWalk(nn, edges, done, w)
  {
    if n == 0 {
      w := [start];
    } else {
      w := StuckWalk(nn, edges, done, start, n - 1);
      var last := w[n - 1];
      assert !Ready(nn, edges, done, last);
      var k :| 0 <= k < |edges| && edges[k].1 == last + 1 && !(edges[k].0 >= 1 && edges[k].0 - 1 in done);
      assert edges[k] == (edges[k].0 - 1 + 1, last + 1);
      w := w + [edges[k].0 - 1];
    }
  }

  ghost function Upto(n: nat): (s: set<nat>)
    ensures |s| == n && forall i: nat :: i in s <==> i < n
  {
    if n == 0 then {} else Upto(n - 1) + {n - 1}
  }

  lemma {:induction false} DistinctSize(s: seq<nat>)
    requires NoDup(s)
    ensures |Elems(s)| == |s|
  {
    if s != [] {
      var init := s[..|s| - 1];
      DistinctSize(init);
      assert Elems(s) == Elems(init) + {s[|s| - 1]};
    }
  }

  /** Distinct numbers below `n` are at most `n` many; if exactly `n`, all of them. */
  lemma Pigeonhole(s: seq<nat>, n: nat)
    requires NoDup(s) && forall k :: 0 <= k < |s| ==> s[k] < n
    ensures |s| <= n
    ensures |s| == n ==> forall i: nat :: i < n ==> i in s
  {
    DistinctSize(s);
    SubsetSize(Elems(s), Upto(n));
    if |s| == n {
      forall i: nat | i < n ensures i in s {
        assert i in Upto(n);
      }
    }
  }

  lemma WalkToCycle(nn: nat, edges: seq<Edge>, done: set<nat>, w: seq<nat>) returns (c: seq<nat>)
    requires BackWalk(nn, edges, done, w) && |w| == nn + 1
    ensures Cycle(edges, c)
  {
    if NoDup(w) {
      Pigeonhole(w, nn);
      assert false;
    }
    var i, j :| 0 <= i < j < |w| && w[i] == w[j];
    c := seq(j - i, k requires 0 <= k < j - i => w[j - k] + 1);
    forall k | 0 <= k < |c| - 1 ensures HasEdge(edges, c[k], c[k + 1]) {
      var m := j - k - 1;
      assert HasEdge(edges, w[m + 1] + 1, w[m] + 1);
    }
    assert HasEdge(edges, w[i + 1] + 1, w[i] + 1);
  }

  lemma PlanOrderWithin(nn: nat, edges: seq<Edge>)
    ensures |PlanOrder(nn, edges)| <= nn
    ensures |PlanOrder(nn, edges)| == nn <==> Topological(nn, edges, PlanOrder(nn, edges))
  {
    var order := PlanOrder(nn, edges);
    PlanOrderRespects(nn, edges);
    forall k | 0 <= k < |order| ensures order[k] < nn {
      assert Ready(nn, edges, Elems(order[..k]), order[k]);
    }
    Pigeonhole(order, nn);
    if Topological(nn, edges, order) {
      DistinctSize(order);
      assert Upto(nn) <= Elems(order);
      SubsetSize(Upto(nn), Elems(order));
    }
  }

  /** The greedy order is complete exactly when the plan has no cycle. */
  lemma CompleteIffAcyclic(nn: nat, edges: seq<Edge>)
    requires InRange(nn, edges)
    ensures |PlanOrder(nn, edges)| == nn <==> forall c :: !Cycle(edges, c)
  {
    var order := PlanOrder(nn, edges);
    PlanOrderRespects(nn, edges);
    PlanOrderWithin(nn, edges);
    if |order| == nn {
      forall c ensures !Cycle(edges, c) {
        TopologicalNoCycle(nn, edges, order, c);
      }
    } else {
      var i: nat :| i < nn && i !in order;
      var w := StuckWalk(nn, edges, Elems(order), i, nn);
      var c := WalkToCycle(nn, edges, Elems(order), w);
    }
  }

  // ----- the greedy order is the least -----

  /** Lexicographic comparison. */
  ghost predicate LexLeq(s: seq<nat>, t: seq<nat>) {
    || s <= t
    || exists k :: 0 <= k < |s| && k < |t| && s[..k] == t[..k] && s[k] < t[k]
  }

  lemma {:induction false} GreedyLeast(nn: nat, edges: seq<Edge>, order: seq<nat>, t: seq<nat>)
    requires Respects(nn, edges, t) && order <= t
    requires Respects(nn, edges, order) && Topological(nn, edges, t)
    ensures LexLeq(GreedyFrom(nn, edges, order), t)
    decreases Remaining(nn, order)
  {
    var n := |order|;
    var next := LeastReady(nn, edges, Elems(order));
    if next.Some? {
      var longer := order + [next.value];
      assert next.value in Remaining(nn, order) && next.value !in Remaining(nn, longer);
      assert Remaining(nn, longer) <= Remaining(nn, order);
      RespectsAppend(nn, edges, order, next.value);
      GreedyRespects(nn, edges, longer);
      assert next.value in t && next.value !in order;
      assert n == |t| ==> order == t;
      if n < |t| {
        assert t[..n] == order;
        assert Ready(nn, edges, Elems(t[..n]), t[n]);
        if t[n] == next.value {
          assert longer <= t;
          GreedyLeast(nn, edges, longer, t);
        } else {
          var g := GreedyFrom(nn, edges, longer);
          assert g[n] == longer[n] && g[..n] == longer[..n];
          assert g[..n] == t[..n] && g[n] < t[n];
        }
      }
    }
  }

  /** Of all topological orders of the plan, the executed one is the lexicographically least. */
  lemma PlanOrderIsLeast(nn: nat, edges: seq<Edge>, t: seq<nat>)
    requires Topological(nn, edges, t)
    ensures LexLeq(PlanOrder(nn, edges), t)
  {
    GreedyLeast(nn, edges, [], t);
  }
}
