/** The two loops that walk a plan: the planner's in-degree test and the executors' rescan. */
module SchedExec {
  import opened Basics
  import opened SchedOrder

  const UINT_MAX: nat := 0xFFFF_FFFF

  // ----- in-degrees -----

  ghost predicate Blocks(e: Edge, done: set<nat>, i: nat) {
    e.1 == i + 1 && !(e.0 >= 1 && e.0 - 1 in done)
  }

  /** The edges into `i` whose source is not done, with repetitions. */
  ghost function Pending(edges: seq<Edge>, done: set<nat>, i: nat): (n: nat)
    ensures n <= |edges|
  {
    if edges == [] then 0
    else Pending(edges[..|edges| - 1], done, i) + if Blocks(edges[|edges| - 1], done, i) then 1 else 0
  }

  ghost function CountFrom(edges: seq<Edge>, id: nat, i: nat): nat {
    if edges == [] then 0
    else CountFrom(edges[..|edges| - 1], id, i) + if edges[|edges| - 1] == (id, i + 1) then 1 else 0
  }

  lemma {:induction false} PendingZero(edges: seq<Edge>, done: set<nat>, i: nat)
    ensures Pending(edges, done, i) == 0 <==> forall k :: 0 <= k < |edges| ==> !Blocks(edges[k], done, i)
  {
    if edges != [] {
      var init := edges[..|edges| - 1];
      PendingZero(init, done, i);
      assert forall k :: 0 <= k < |init| ==> init[k] == edges[k];
    }
  }

  lemma ReadyWhenZero(nn: nat, edges: seq<Edge>, done: set<nat>, i: nat)
    requires i < nn && i !in done
    ensures Ready(nn, edges, done, i) <==> Pending(edges, done, i) == 0
  {
    PendingZero(edges, done, i);
    assert Ready(nn, edges, done, i) <==> forall k :: 0 <= k < |edges| ==> !Blocks(edges[k], done, i);
  }

  lemma {:induction false} PendingAfter(edges: seq<Edge>, done: set<nat>, id: nat, i: nat)
    requires id >= 1 && id - 1 !in done
    ensures Pending(edges, done, i) == Pending(edges, done + {id - 1}, i) + CountFrom(edges, id, i)
  {
    if edges != [] {
      PendingAfter(edges[..|edges| - 1], done, id, i);
    }
  }

  lemma {:induction false} CountFromPrefix(edges: seq<Edge>, j: nat, id: nat, i: nat)
    requires j <= |edges|
    ensures CountFrom(edges[..j], id, i) <= CountFrom(edges, id, i)
    ensures j < |edges| ==> CountFrom(edges[..j + 1], id, i) == CountFrom(edges[..j], id, i) + (if edges[j] == (id, i + 1) then 1 else 0)
    ensures j < |edges| ==> CountFrom(edges[..j + 1], id, i) <= CountFrom(edges, id, i)
    decreases |edges|
  {
    if j == |edges| {
      assert edges[..j] == edges;
    } else {
      var init := edges[..|edges| - 1];
      assert edges[..j + 1][..j] == edges[..j];
      if j + 1 == |edges| {
        assert edges[..j + 1] == edges;
      } else {
        CountFromPrefix(init, j, id, i);
        assert init[..j] == edges[..j] && init[..j + 1] == edges[..j + 1];
      }
    }
  }

  /** Removing nodes takes edges off. */
  lemma {:induction false} PendingFalls(edges: seq<Edge>, done: set<nat>, i: nat)
    ensures Pending(edges, done, i) <= Pending(edges, {}, i)
  {
    if edges != [] {
      PendingFalls(edges[..|edges| - 1], done, i);
    }
  }

  /** No node has so many edges into it that a 32-bit counter would reach its mark. */
  ghost predicate FewIncoming(nn: nat, edges: seq<Edge>) {
    forall i: nat :: i < nn ==> Pending(edges, {}, i) < UINT_MAX
  }

  ghost function Sources(edges: seq<Edge>, i: nat): set<nat> {
    set e | e in edges && e.1 == i + 1 :: e.0
  }

  /** Without repeated edges, a node has at most one edge from every node. */
  lemma {:induction false} PendingSources(edges: seq<Edge>, i: nat)
    requires forall j, k :: 0 <= j < k < |edges| ==> edges[j] != edges[k]
    ensures Pending(edges, {}, i) == |Sources(edges, i)|
  {
    if edges != [] {
      var (init, last) := (edges[..|edges| - 1], edges[|edges| - 1]);
      PendingSources(init, i);
      assert edges == init + [last] && last !in init;
      SourcesMore(init, last, i);
    }
  }

  lemma SourcesMore(edges: seq<Edge>, e: Edge, i: nat)
    requires e !in edges
    ensures |Sources(edges + [e], i)| == |Sources(edges, i)| + if e.1 == i + 1 then 1 else 0
  {
    if e.1 == i + 1 {
      assert e.0 !in Sources(edges, i);
      assert Sources(edges + [e], i) == Sources(edges, i) + {e.0};
    } else {
      assert Sources(edges + [e], i) == Sources(edges, i);
    }
  }

  lemma {:induction false} Upto(n: nat) returns (s: set<nat>)
    ensures |s| == n && forall x :: x in s <==> 1 <= x <= n
  {
    if n == 0 {
      s := {};
    } else {
      s := Upto(n - 1);
      s := s + {n};
    }
  }

  lemma DistinctEdgesAreFew(nn: nat, edges: seq<Edge>)
    requires InRange(nn, edges) && nn < UINT_MAX && forall j, k :: 0 <= j < k < |edges| ==> edges[j] != edges[k]
    ensures FewIncoming(nn, edges)
  {
    var ids := Upto(nn);
    forall i: nat | i < nn ensures Pending(edges, {}, i) < UINT_MAX {
      PendingSources(edges, i);
      SubsetSize(Sources(edges, i), ids);
    }
  }

  /** Counters of unremoved nodes hold their pending edges; removed nodes hold the marker. */
  ghost predicate Degrees(nn: nat, edges: seq<Edge>, order: seq<nat>, deg: seq<nat>) {
    && |deg| == nn
    && forall i :: 0 <= i < nn ==> deg[i] == if i in order then UINT_MAX else Pending(edges, Elems(order), i)
  }

  method InitialDegrees(nn: nat, edges: seq<Edge>) returns (deg: array<nat>)
    requires InRange(nn, edges)
    ensures fresh(deg) && Degrees(nn, edges, [], deg[..])
  {
    deg := new nat[nn](_ => 0);
    var i := 0;
    while i < |edges|
      invariant 0 <= i <= |edges|
      invariant forall v :: 0 <= v < nn ==> deg[v] == Pending(edges[..i], {}, v)
    {
      assert edges[..i + 1][..i] == edges[..i];
      deg[edges[i].1 - 1] := deg[edges[i].1 - 1] + 1;
      i := i + 1;
    }
    assert edges[..i] == edges;
    assert Elems([]) == {};
  }

  /** Finds the first counter at zero and marks it. */
  method TakeZero(deg: array<nat>) returns (id: nat)
    modifies deg
    ensures id == 0 ==> deg[..] == old(deg[..]) && forall i :: 0 <= i < deg.Length ==> deg[i] != 0
    ensures id != 0 ==> id <= deg.Length && old(deg[..])[id - 1] == 0 && deg[..] == old(deg[..])[id - 1 := UINT_MAX]
                        && forall i :: 0 <= i < id - 1 ==> old(deg[..])[i] != 0
  {
    id := 0;
    var i := 0;
    while i < deg.Length
      invariant 0 <= i <= deg.Length
      invariant deg[..] == old(deg[..])
      invariant forall k :: 0 <= k < i ==> deg[k] != 0
    {
      if deg[i] == 0 {
        id := i + 1;
        deg[i] := UINT_MAX;
        return;
      }
      i := i + 1;
    }
  }

  /** Takes the edges of a removed node off the counters of unremoved ones. */
  method Release(nn: nat, edges: seq<Edge>, id: nat, deg: array<nat>, ghost order: seq<nat>)
    requires InRange(nn, edges) && FewIncoming(nn, edges) && 1 <= id <= nn && id - 1 !in order
    requires deg.Length == nn
    requires forall i :: 0 <= i < nn ==>
               deg[..][i] == if i in order + [id - 1] then UINT_MAX else Pending(edges, Elems(order), i)
    modifies deg
    ensures Degrees(nn, edges, order + [id - 1], deg[..])
  {
    ghost var done := Elems(order);
    ghost var order' := order + [id - 1];
    assert Elems(order') == done + {id - 1};
    forall i: nat | i < nn ensures Pending(edges, done, i) < UINT_MAX {
      PendingFalls(edges, done, i);
    }
    var j := 0;
    while j < |edges|
      invariant 0 <= j <= |edges|
      invariant forall i :: 0 <= i < nn ==> if i in order' then deg[i] == UINT_MAX
                                            else deg[i] == Pending(edges, done, i) - CountFrom(edges[..j], id, i) < UINT_MAX
    {
      forall i | 0 <= i < nn
        ensures CountFrom(edges[..j + 1], id, i) == CountFrom(edges[..j], id, i) + (if edges[j] == (id, i + 1) then 1 else 0)
        ensures CountFrom(edges[..j + 1], id, i) <= Pending(edges, done, i)
      {
        CountFromPrefix(edges, j, id, i);
        PendingAfter(edges, done, id, i);
      }
      if edges[j].0 == id && deg[edges[j].1 - 1] != UINT_MAX {
        deg[edges[j].1 - 1] := deg[edges[j].1 - 1] - 1;
      }
      j := j + 1;
    }
    assert edges[..j] == edges;
    forall i | 0 <= i < nn
      ensures Pending(edges, done + {id - 1}, i) == Pending(edges, done, i) - CountFrom(edges, id, i)
    {
      PendingAfter(edges, done, id, i);
    }
  }

  lemma ZeroIsLeastReady(nn: nat, edges: seq<Edge>, order: seq<nat>, deg: seq<nat>, i: nat)
    requires Degrees(nn, edges, order, deg) && i < nn && deg[i] == 0
    requires forall k :: 0 <= k < i ==> deg[k] != 0
    ensures LeastReady(nn, edges, Elems(order)) == Some(i)
  {
    ReadyWhenZero(nn, edges, Elems(order), i);
    forall k: nat | k < i ensures !Ready(nn, edges, Elems(order), k) {
      if k !in order {
        ReadyWhenZero(nn, edges, Elems(order), k);
      }
    }
  }

  lemma NoZeroNoneReady(nn: nat, edges: seq<Edge>, order: seq<nat>, deg: seq<nat>)
    requires Degrees(nn, edges, order, deg) && forall k :: 0 <= k < nn ==> deg[k] != 0
    ensures LeastReady(nn, edges, Elems(order)).None?
  {
    forall k: nat | k < nn ensures !Ready(nn, edges, Elems(order), k) {
      if k !in order {
        ReadyWhenZero(nn, edges, Elems(order), k);
      }
    }
  }

  /** An order under construction. */
  ghost predicate Towards(nn: nat, edges: seq<Edge>, order: seq<nat>) {
    Respects(nn, edges, order) && GreedyFrom(nn, edges, order) == PlanOrder(nn, edges)
  }

  lemma TakenStep(nn: nat, edges: seq<Edge>, order: seq<nat>, deg: seq<nat>, i: nat)
    requires Towards(nn, edges, order) && Degrees(nn, edges, order, deg) && i < nn && deg[i] == 0
    requires forall k :: 0 <= k < i ==> deg[k] != 0
    ensures i !in order && Towards(nn, edges, order + [i])
    ensures Remaining(nn, order + [i]) < Remaining(nn, order)
  {
    ZeroIsLeastReady(nn, edges, order, deg, i);
    RespectsAppend(nn, edges, order, i);
    assert i in Remaining(nn, order) && i !in Remaining(nn, order + [i]);
    assert Remaining(nn, order + [i]) <= Remaining(nn, order);
  }

  /** The counters after node `i` was taken: its own is marked. */
  lemma TakenDegrees(nn: nat, edges: seq<Edge>, order: seq<nat>, before: seq<nat>, i: nat, deg: seq<nat>)
    requires Degrees(nn, edges, order, before) && i < nn && deg == before[i := UINT_MAX]
    ensures forall k :: 0 <= k < nn ==> deg[k] == if k in order + [i] then UINT_MAX else Pending(edges, Elems(order), k)
  {
  }

  /** Removes nodes of in-degree zero, lowest first, until none is left.  The removal order is the
      plan order, and the answer is whether the plan has no cycle.  The counters are 32 bits wide,
      with the largest value as the mark of a removed node. */
  method Acyclic(nn: nat, edges: seq<Edge>) returns (ok: bool, ghost order: seq<nat>)
    requires InRange(nn, edges) && FewIncoming(nn, edges)
    ensures order == PlanOrder(nn, edges)
    ensures ok <==> forall c :: !Cycle(edges, c)
  {
    order := [];
    var deg := InitialDegrees(nn, edges);
    var seen := 0;
    while true
      invariant deg.Length == nn && fresh(deg) && Degrees(nn, edges, order, deg[..])
      invariant Towards(nn, edges, order) && seen == |order|
      decreases Remaining(nn, order)
    {
      ghost var before := deg[..];
      var id := TakeZero(deg);
      if id == 0 {
        NoZeroNoneReady(nn, edges, order, deg[..]);
        break;
      }
      TakenStep(nn, edges, order, before, id - 1);
      TakenDegrees(nn, edges, order, before, id - 1, deg[..]);
      seen := seen + 1;
      Release(nn, edges, id, deg, order);
      order := order + [id - 1];
    }
    CompleteIffAcyclic(nn, edges);
    ok := seen == nn;
  }

  // ----- plans and their execution -----

  datatype PlanKind = Kernel | Rewrite | Barrier

  datatype PlanNode = PlanNode(id: nat, kind: PlanKind, name: string, members: seq<string>)

  ghost predicate NodesNumbered(nodes: seq<PlanNode>) {
    forall i :: 0 <= i < |nodes| ==> nodes[i].id == i + 1
  }

  /** One thing an executor does to the module. */
  datatype Action = RunRuleset(name: string) | LoadKernel(name: string) | ApplyKernel(name: string, capability: string)

  datatype Mode = Rewrites | Kernels

  /** The actions of one node, in order: a rewrite node runs its members one after the other; a kernel node
      loads its kernel and then applies it to its members; there is nothing else to do. */
  ghost predicate BlockOf(n: PlanNode, mode: Mode, block: seq<Action>) {
    if mode == Rewrites && n.kind == Rewrite then
      |block| == |n.members| && forall k :: 0 <= k < |block| ==> block[k] == RunRuleset(n.members[k])
    else if mode == Kernels && n.kind == Kernel then
      && |block| == |n.members| + 1 && block[0] == LoadKernel(n.name)
      && forall k :: 0 < k < |block| ==> block[k] == ApplyKernel(n.name, n.members[k - 1])
    else block == []
  }

  function NodeActions(n: PlanNode, mode: Mode): (block: seq<Action>)
    ensures BlockOf(n, mode, block)
  {
    match mode
    case Rewrites =>
      if n.kind == Rewrite then seq(|n.members|, k requires 0 <= k < |n.members| => RunRuleset(n.members[k])) else []
    case Kernels =>
      if n.kind == Kernel
      then [LoadKernel(n.name)] + seq(|n.members|, k requires 0 <= k < |n.members| => ApplyKernel(n.name, n.members[k]))
      else []
  }

  ghost function OrderActions(nodes: seq<PlanNode>, order: seq<nat>, mode: Mode): seq<Action> {
    if order == [] then []
    else
      var last := order[|order| - 1];
      OrderActions(nodes, order[..|order| - 1], mode) + if last < |nodes| then NodeActions(nodes[last], mode) else []
  }

  lemma {:induction false} OrderActionsPrefix(nodes: seq<PlanNode>, order: seq<nat>, n: nat, mode: Mode)
    requires n <= |order|
    ensures OrderActions(nodes, order[..n], mode) <= OrderActions(nodes, order, mode)
    decreases |order|
  {
    if n < |order| {
      OrderActionsPrefix(nodes, order[..|order| - 1], n, mode);
      assert order[..|order| - 1][..n] == order[..n];
    } else {
      assert order[..n] == order;
    }
  }

  // ----- the log of an execution -----

  /** All actions of an execution, and where the block of each node of the order starts. */
  datatype Tiling = Tiling(actions: seq<Action>, at: seq<nat>)

  ghost predicate Cut(g: Tiling, j: nat) {
    j + 1 < |g.at| && g.at[j] <= g.at[j + 1] <= |g.actions|
  }

  ghost function Segment(g: Tiling, j: nat): seq<Action>
    requires Cut(g, j)
  {
    g.actions[g.at[j]..g.at[j + 1]]
  }

  /** The blocks of the nodes, one after the other, are all there is. */
  ghost predicate Tiled(nodes: seq<PlanNode>, order: seq<nat>, mode: Mode, g: Tiling) {
    && |g.at| == |order| + 1 && g.at[0] == 0 && g.at[|order|] == |g.actions|
    && forall j :: 0 <= j < |order| ==> Cut(g, j) && order[j] < |nodes| && BlockOf(nodes[order[j]], mode, Segment(g, j))
  }

  lemma SegmentKept(g: Tiling, h: Tiling, j: nat)
    requires Cut(g, j) && Cut(h, j) && g.actions <= h.actions && h.at[j] == g.at[j] && h.at[j + 1] == g.at[j + 1]
    ensures Segment(h, j) == Segment(g, j)
  {
    assert g.actions == h.actions[..|g.actions|];
  }

  lemma TiledMore(nodes: seq<PlanNode>, order: seq<nat>, mode: Mode, g: Tiling, i: nat, block: seq<Action>) returns (h: Tiling)
    requires Tiled(nodes, order, mode, g) && i < |nodes| && BlockOf(nodes[i], mode, block)
    ensures Tiled(nodes, order + [i], mode, h) && h.actions == g.actions + block
  {
    h := Tiling(g.actions + block, g.at + [|g.actions| + |block|]);
    var longer := order + [i];
    forall j | 0 <= j < |longer| ensures Cut(h, j) && longer[j] < |nodes| && BlockOf(nodes[longer[j]], mode, Segment(h, j)) {
      if j < |order| {
        assert Cut(g, j) && order[j] < |nodes| && BlockOf(nodes[order[j]], mode, Segment(g, j));
        assert h.at[j] == g.at[j] && h.at[j + 1] == g.at[j + 1];
        SegmentKept(g, h, j);
      } else {
        assert h.at[j] == |g.actions| && h.at[j + 1] == |h.actions|;
        assert Segment(h, j) == block;
      }
    }
  }

  lemma {:induction false} OrderTiled(nodes: seq<PlanNode>, order: seq<nat>, mode: Mode) returns (g: Tiling)
    requires forall j :: 0 <= j < |order| ==> order[j] < |nodes|
    ensures Tiled(nodes, order, mode, g) && g.actions == OrderActions(nodes, order, mode)
    decreases |order|
  {
    if order == [] {
      g := Tiling([], [0]);
    } else {
      var (init, last) := (order[..|order| - 1], order[|order| - 1]);
      assert order == init + [last] && forall j :: 0 <= j < |init| ==> init[j] == order[j];
      g := OrderTiled(nodes, init, mode);
      g := TiledMore(nodes, init, mode, g, last, NodeActions(nodes[last], mode));
    }
  }

  lemma {:induction false} BlocksFollow(nodes: seq<PlanNode>, order: seq<nat>, mode: Mode, g: Tiling, i: nat, j: nat)
    requires Tiled(nodes, order, mode, g) && i <= j <= |order|
    ensures g.at[i] <= g.at[j]
    decreases j - i
  {
    if i < j {
      BlocksFollow(nodes, order, mode, g, i, j - 1);
      assert Cut(g, j - 1);
    }
  }

  /** The block of node `a` ends before the block of node `b` starts. */
  ghost predicate EndsBefore(order: seq<nat>, g: Tiling, a: nat, b: nat)
    requires |g.at| == |order| + 1
  {
    exists i, j :: 0 <= i < j < |order| && order[i] == a && order[j] == b && g.at[i + 1] <= g.at[j]
  }

  lemma EdgeInOrder(nodes: seq<PlanNode>, edges: seq<Edge>, order: seq<nat>, mode: Mode, g: Tiling, a: nat, b: nat)
    requires Topological(|nodes|, edges, order) && Tiled(nodes, order, mode, g) && HasEdge(edges, a + 1, b + 1) && b < |nodes|
    ensures EndsBefore(order, g, a, b)
  {
    assert b in order;
    var j := PositionIn(order, b);
    assert Ready(|nodes|, edges, Elems(order[..j]), order[j]);
    assert a in Elems(order[..j]);
    var i := PositionIn(order[..j], a);
    BlocksFollow(nodes, order, mode, g, i + 1, j);
    assert order[i] == a;
  }

  /** In a plan without cycles every node has exactly one block, and it starts after the blocks of all
      predecessors of the node have ended. */
  lemma BlocksInOrder(nodes: seq<PlanNode>, edges: seq<Edge>, mode: Mode, g: Tiling)
    requires InRange(|nodes|, edges) && (forall c :: !Cycle(edges, c)) && Tiled(nodes, PlanOrder(|nodes|, edges), mode, g)
    ensures NoDup(PlanOrder(|nodes|, edges)) && forall i: nat :: i < |nodes| ==> i in PlanOrder(|nodes|, edges)
    ensures forall k :: 0 <= k < |edges| ==> EndsBefore(PlanOrder(|nodes|, edges), g, edges[k].0 - 1, edges[k].1 - 1)
  {
    var order := PlanOrder(|nodes|, edges);
    CompleteIffAcyclic(|nodes|, edges);
    PlanOrderWithin(|nodes|, edges);
    forall k | 0 <= k < |edges| ensures EndsBefore(order, g, edges[k].0 - 1, edges[k].1 - 1) {
      assert HasEdge(edges, edges[k].0, edges[k].1);
      EdgeInOrder(nodes, edges, order, mode, g, edges[k].0 - 1, edges[k].1 - 1);
    }
  }

  datatype Outcome = Completed | CycleFound | ActionFailed(action: Action)

  /** Whether an action succeeds after the actions performed so far. */
  type Works = (seq<Action>, Action) -> bool

  /** Every action succeeded when its turn came. */
  ghost predicate AllWork(works: Works, log: seq<Action>) {
    forall k :: 0 <= k < |log| ==> works(log[..k], log[k])
  }

  lemma OneMoreWorks(works: Works, log: seq<Action>, a: Action)
    requires AllWork(works, log) && works(log, a)
    ensures AllWork(works, log + [a])
  {
    forall k | 0 <= k < |log| + 1 ensures works((log + [a])[..k], (log + [a])[k]) {
      assert (log + [a])[..k] == log[..k];
      assert k == |log| ==> log[..k] == log;
    }
  }

  /** What an execution reports: everything, the blocks of the nodes in plan order; or everything that could
      be ordered, when the plan has a cycle; or everything up to the first action that fails. */
  ghost predicate Executed(nodes: seq<PlanNode>, edges: seq<Edge>, mode: Mode, works: Works, outcome: Outcome, log: seq<Action>, g: Tiling) {
    && Tiled(nodes, PlanOrder(|nodes|, edges), mode, g) && log <= g.actions && AllWork(works, log)
    && match outcome
       case Completed => log == g.actions && forall c :: !Cycle(edges, c)
       case CycleFound => log == g.actions && exists c :: Cycle(edges, c)
       case ActionFailed(a) => |log| < |g.actions| && g.actions[|log|] == a && !works(log, a)
  }

  /** The scan for the first node that is not done and has no unfinished predecessor. */
  method SelectNext(nodes: seq<PlanNode>, edges: seq<Edge>, done: array<bool>, ghost order: seq<nat>) returns (selected: nat)
    requires NodesNumbered(nodes) && InRange(|nodes|, edges) && done.Length == |nodes|
    requires forall i :: 0 <= i < |nodes| ==> (done[i] <==> i in order)
    ensures selected <= |nodes|
    ensures LeastReady(|nodes|, edges, Elems(order)) == if selected == |nodes| then None else Some(selected)
  {
    var i := 0;
    while i < |nodes|
      invariant 0 <= i <= |nodes|
      invariant forall k: nat :: k < i ==> !Ready(|nodes|, edges, Elems(order), k)
    {
      var ready := !done[i];
      var j := 0;
      while j < |edges| && ready
        invariant 0 <= j <= |edges|
        invariant ready ==> i !in order
        invariant ready ==> forall k :: 0 <= k < j && edges[k].1 == i + 1 ==> edges[k].0 - 1 in Elems(order)
        invariant !ready ==> !Ready(|nodes|, edges, Elems(order), i)
      {
        if edges[j].1 == nodes[i].id && !done[edges[j].0 - 1] {
          ready := false;
        }
        j := j + 1;
      }
      if ready {
        assert Ready(|nodes|, edges, Elems(order), i);
        return i;
      }
      i := i + 1;
    }
    selected := |nodes|;
  }

  /** Performs the actions of one node until one fails. */
  method Perform(actions: seq<Action>, works: Works, log0: seq<Action>) returns (failed: Option<Action>, log: seq<Action>)
    requires AllWork(works, log0)
    ensures log0 <= log <= log0 + actions && AllWork(works, log)
    ensures failed.None? ==> log == log0 + actions
    ensures failed.Some? ==> |log| < |log0| + |actions| && (log0 + actions)[|log|] == failed.value && !works(log, failed.value)
  {
    log := log0;
    var k := 0;
    while k < |actions|
      invariant 0 <= k <= |actions|
      invariant log == log0 + actions[..k] && AllWork(works, log)
    {
      if !works(log, actions[k]) {
        return Some(actions[k]), log;
      }
      OneMoreWorks(works, log, actions[k]);
      assert actions[..k + 1] == actions[..k] + [actions[k]];
      log := log + [actions[k]];
      k := k + 1;
    }
    assert actions[..k] == actions;
    return None, log;
  }

  lemma ExecutionStep(nodes: seq<PlanNode>, edges: seq<Edge>, order: seq<nat>, selected: nat, mode: Mode)
    requires Towards(|nodes|, edges, order) && LeastReady(|nodes|, edges, Elems(order)) == Some(selected)
    ensures selected < |nodes| && selected !in order && Towards(|nodes|, edges, order + [selected])
    ensures OrderActions(nodes, order + [selected], mode) == OrderActions(nodes, order, mode) + NodeActions(nodes[selected], mode)
    ensures OrderActions(nodes, order + [selected], mode) <= OrderActions(nodes, PlanOrder(|nodes|, edges), mode)
  {
    var longer := order + [selected];
    var plan := PlanOrder(|nodes|, edges);
    RespectsAppend(|nodes|, edges, order, selected);
    GreedyRespects(|nodes|, edges, longer);
    assert longer <= plan;
    assert longer == plan[..|longer|];
    OrderActionsPrefix(nodes, plan, |longer|, mode);
    assert longer[..|order|] == order;
  }

  lemma FullOrder(nn: nat, edges: seq<Edge>, order: seq<nat>)
    requires Towards(nn, edges, order) && |order| == nn
    ensures order == PlanOrder(nn, edges)
  {
    GreedyRespects(nn, edges, order);
    PlanOrderWithin(nn, edges);
  }

  /** How an execution stands: the nodes done in plan order, and their actions performed. */
  ghost predicate Executing(nodes: seq<PlanNode>, edges: seq<Edge>, mode: Mode, works: Works, order: seq<nat>, log: seq<Action>) {
    Towards(|nodes|, edges, order) && log == OrderActions(nodes, order, mode) && AllWork(works, log)
  }

  lemma PlanTiled(nodes: seq<PlanNode>, edges: seq<Edge>, mode: Mode) returns (g: Tiling)
    ensures Tiled(nodes, PlanOrder(|nodes|, edges), mode, g) && g.actions == OrderActions(nodes, PlanOrder(|nodes|, edges), mode)
  {
    PlanOrderWithin(|nodes|, edges);
    PlanOrderRespects(|nodes|, edges);
    g := OrderTiled(nodes, PlanOrder(|nodes|, edges), mode);
  }

  lemma ExecutionComplete(nodes: seq<PlanNode>, edges: seq<Edge>, mode: Mode, works: Works, order: seq<nat>, log: seq<Action>)
    returns (g: Tiling)
    requires InRange(|nodes|, edges) && Executing(nodes, edges, mode, works, order, log) && |order| == |nodes|
    ensures Executed(nodes, edges, mode, works, Completed, log, g)
  {
    g := PlanTiled(nodes, edges, mode);
    FullOrder(|nodes|, edges, order);
    CompleteIffAcyclic(|nodes|, edges);
  }

  lemma ExecutionStuck(nodes: seq<PlanNode>, edges: seq<Edge>, mode: Mode, works: Works, order: seq<nat>, log: seq<Action>)
    returns (g: Tiling)
    requires InRange(|nodes|, edges) && Executing(nodes, edges, mode, works, order, log) && |order| < |nodes|
    requires LeastReady(|nodes|, edges, Elems(order)).None?
    ensures Executed(nodes, edges, mode, works, CycleFound, log, g)
  {
    g := PlanTiled(nodes, edges, mode);
    CompleteIffAcyclic(|nodes|, edges);
  }

  /** One more node was selected, and all its actions performed or the first that failed found. */
  lemma ExecutionAfter(nodes: seq<PlanNode>, edges: seq<Edge>, mode: Mode, works: Works, order: seq<nat>, log0: seq<Action>,
                       selected: nat, failed: Option<Action>, log: seq<Action>) returns (g: Tiling)
    requires Executing(nodes, edges, mode, works, order, log0) && LeastReady(|nodes|, edges, Elems(order)) == Some(selected)
    requires selected < |nodes| && log0 <= log <= log0 + NodeActions(nodes[selected], mode) && AllWork(works, log)
    requires failed.None? ==> log == log0 + NodeActions(nodes[selected], mode)
    requires failed.Some? ==>
               var all := log0 + NodeActions(nodes[selected], mode);
               |log| < |all| && all[|log|] == failed.value && !works(log, failed.value)
    ensures selected !in order
    ensures failed.None? ==> Executing(nodes, edges, mode, works, order + [selected], log)
    ensures failed.Some? ==> Executed(nodes, edges, mode, works, ActionFailed(failed.value), log, g)
  {
    g := PlanTiled(nodes, edges, mode);
    ExecutionStep(nodes, edges, order, selected, mode);
  }

  /** Executes a plan: the rewrite nodes or the kernel nodes, each node after all its predecessors,
      ties to the lowest id.  `works` says whether an action succeeds after those before it. */
  method Execute(nodes: seq<PlanNode>, edges: seq<Edge>, mode: Mode, works: Works) returns (outcome: Outcome, log: seq<Action>, ghost g: Tiling)
    requires NodesNumbered(nodes) && InRange(|nodes|, edges)
    ensures Executed(nodes, edges, mode, works, outcome, log, g)
  {
    var nn := |nodes|;
    var done := new bool[nn](_ => false);
    ghost var order: seq<nat> := [];
    log := [];
    var completed := 0;
    while completed < nn
      invariant completed == |order| <= nn
      invariant forall i :: 0 <= i < nn ==> (done[i] <==> i in order)
      invariant Executing(nodes, edges, mode, works, order, log)
    {
      var selected := SelectNext(nodes, edges, done, order);
      if selected == nn {
        g := ExecutionStuck(nodes, edges, mode, works, order, log);
        return CycleFound, log, g;
      }
      ghost var before := log;
      var failed;
      failed, log := Perform(NodeActions(nodes[selected], mode), works, log);
      g := ExecutionAfter(nodes, edges, mode, works, order, before, selected, failed, log);
      if failed.Some? {
        return ActionFailed(failed.value), log, g;
      }
      done[selected] := true;
      order := order + [selected];
      completed := completed + 1;
      OneMoreDone(nn, edges, order);
    }
    g := ExecutionComplete(nodes, edges, mode, works, order, log);
    return Completed, log, g;
  }

  lemma OneMoreDone(nn: nat, edges: seq<Edge>, order: seq<nat>)
    requires Towards(nn, edges, order)
    ensures |order| <= nn
  {
    GreedyRespects(nn, edges, order);
    PlanOrderWithin(nn, edges);
  }
}
