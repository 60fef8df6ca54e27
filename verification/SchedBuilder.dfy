/** The plan builder: nodes, explicit edges, the implicit edges of barriers, and sealing. */
module SchedBuilder {
  import opened Basics
  import opened Numerals
  import opened SchedOrder
  import opened SchedExec
  import opened PlanText

  // ----- resolving names against the manifests -----

  datatype KernelInfo = KernelInfo(name: string, caps: seq<string>)

  /** `*` stands for any run of characters. */
  predicate Wildcard(pattern: string, text: string)
    decreases |pattern| + |text|
  {
    if pattern == "" then text == ""
    else if pattern[0] == '*' then Wildcard(pattern[1..], text) || (text != "" && Wildcard(pattern, text[1..]))
    else text != "" && pattern[0] == text[0] && Wildcard(pattern[1..], text[1..])
  }

  lemma {:induction false} WildcardJoin(p: string, q: string, text: string, i: nat)
    requires i <= |text| && Wildcard(p, text[..i]) && Wildcard(q, text[i..])
    ensures Wildcard(p + q, text)
    decreases |p| + i
  {
    if p == "" {
      assert p + q == q && text[i..] == text;
    } else {
      assert (p + q)[1..] == p[1..] + q;
      if p[0] == '*' && Wildcard(p[1..], text[..i]) {
        WildcardJoin(p[1..], q, text, i);
      } else {
        assert text[..i][1..] == text[1..][..i - 1] && text[i..] == text[1..][i - 1..];
        WildcardJoin(if p[0] == '*' then p else p[1..], q, text[1..], i - 1);
      }
    }
  }

  lemma {:induction false} WildcardSplit(p: string, q: string, text: string) returns (i: nat)
    requires Wildcard(p + q, text)
    ensures i <= |text| && Wildcard(p, text[..i]) && Wildcard(q, text[i..])
    decreases |p| + |text|
  {
    if p == "" {
      assert p + q == q && text[0..] == text;
      i := 0;
    } else {
      assert (p + q)[1..] == p[1..] + q;
      if p[0] == '*' && Wildcard(p[1..] + q, text) {
        i := WildcardSplit(p[1..], q, text);
      } else {
        i := WildcardSplit(if p[0] == '*' then p else p[1..], q, text[1..]);
        i := i + 1;
        assert text[..i][1..] == text[1..][..i - 1] && text[i..] == text[1..][i - 1..];
      }
    }
  }

  /** A pattern matches a text exactly when the text falls into pieces its pieces match. */
  lemma WildcardConcat(p: string, q: string, text: string)
    ensures Wildcard(p + q, text) <==> exists i :: 0 <= i <= |text| && Wildcard(p, text[..i]) && Wildcard(q, text[i..])
  {
    if Wildcard(p + q, text) {
      var i := WildcardSplit(p, q, text);
    }
    if i :| 0 <= i <= |text| && Wildcard(p, text[..i]) && Wildcard(q, text[i..]) {
      WildcardJoin(p, q, text, i);
    }
  }

  /** A star matches everything. */
  lemma {:induction false} WildcardStar(text: string)
    ensures Wildcard("*", text)
  {
    if text != "" {
      WildcardStar(text[1..]);
    }
  }

  /** A pattern without stars matches only itself. */
  lemma {:induction false} WildcardLiteral(pattern: string, text: string)
    requires '*' !in pattern
    ensures Wildcard(pattern, text) <==> text == pattern
  {
    if pattern != "" && text != "" {
      WildcardLiteral(pattern[1..], text[1..]);
      assert pattern == [pattern[0]] + pattern[1..] && text == [text[0]] + text[1..];
    }
  }

  function MatchingRules(rules: seq<string>, pattern: string): seq<string> {
    if rules == [] then []
    else
      var init, last := MatchingRules(rules[..|rules| - 1], pattern), rules[|rules| - 1];
      if Wildcard(pattern, last) then init + [last] else init
  }

  /** The members of a rewrite node: exactly the rulesets of the manifest that match, in manifest order. */
  lemma MatchingRulesInOrder(rules: seq<string>, pattern: string) returns (at: seq<nat>)
    ensures Selected(MatchingRules(rules, pattern), rules, (name: string) => Wildcard(pattern, name), at)
  {
    var keep := (name: string) => Wildcard(pattern, name);
    MatchingSelects(rules, pattern, keep);
    at := SelectInOrder(rules, keep);
  }

  lemma {:induction false} MatchingSelects(rules: seq<string>, pattern: string, keep: string -> bool)
    requires forall name :: keep(name) <==> Wildcard(pattern, name)
    ensures MatchingRules(rules, pattern) == Select(rules, keep)
  {
    if rules != [] {
      MatchingSelects(rules[..|rules| - 1], pattern, keep);
    }
  }

  /** The first kernel of the manifest with the name. */
  function KernelNamed(kernels: seq<KernelInfo>, name: string): (k: Option<nat>)
    ensures k.Some? ==> k.value < |kernels| && kernels[k.value].name == name
    ensures forall j :: 0 <= j < |kernels| && kernels[j].name == name ==> k.Some? && k.value <= j
  {
    if kernels == [] then None
    else
      var k := KernelNamed(kernels[..|kernels| - 1], name);
      if k.Some? then k else if kernels[|kernels| - 1].name == name then Some(|kernels| - 1) else None
  }

  ghost function Providers(kernels: seq<KernelInfo>, cap: string): set<nat> {
    set k: nat | k < |kernels| && cap in kernels[k].caps
  }

  /** A capability resolves to a provider with the preferred name, or without a preference to the
      only provider. */
  ghost predicate Chosen(kernels: seq<KernelInfo>, cap: string, prefer: Option<string>, k: nat) {
    && k in Providers(kernels, cap)
    && if prefer.Some? then kernels[k].name == prefer.value else Providers(kernels, cap) == {k}
  }

  // ----- edges -----

  ghost predicate NoRepeats(edges: seq<Edge>) {
    forall i, j :: 0 <= i < j < |edges| ==> edges[i] != edges[j]
  }

  function WithEdge(edges: seq<Edge>, e: Edge): seq<Edge> {
    if e in edges then edges else edges + [e]
  }

  /** Edges from every barrier among the first `upto` nodes to node `id`. */
  function FromBarriers(nodes: seq<PlanNode>, upto: nat, id: nat, edges: seq<Edge>): seq<Edge>
    requires upto <= |nodes|
  {
    if upto == 0 then edges
    else
      var before := FromBarriers(nodes, upto - 1, id, edges);
      if nodes[upto - 1].kind == Barrier then WithEdge(before, (nodes[upto - 1].id, id)) else before
  }

  /** Edges from the ids below `upto` to `id`. */
  function FromAllBelow(upto: nat, id: nat, edges: seq<Edge>): seq<Edge> {
    if upto <= 1 then edges else WithEdge(FromAllBelow(upto - 1, id, edges), (upto - 1, id))
  }

  /** Exactly the barriers' edges are added, none of them twice. */
  lemma {:induction false} FromBarriersAdds(nodes: seq<PlanNode>, upto: nat, id: nat, edges: seq<Edge>, x: Edge)
    requires upto <= |nodes| && NodesNumbered(nodes) && NoRepeats(edges)
    ensures NoRepeats(FromBarriers(nodes, upto, id, edges))
    ensures x in FromBarriers(nodes, upto, id, edges)
       <==> x in edges || (1 <= x.0 <= upto && nodes[x.0 - 1].kind == Barrier && x.1 == id)
  {
    if upto > 0 {
      FromBarriersAdds(nodes, upto - 1, id, edges, x);
    }
  }

  /** Exactly the edges from all lower ids are added, none of them twice. */
  lemma {:induction false} FromAllBelowAdds(upto: nat, id: nat, edges: seq<Edge>, x: Edge)
    requires NoRepeats(edges)
    ensures NoRepeats(FromAllBelow(upto, id, edges))
    ensures x in FromAllBelow(upto, id, edges) <==> x in edges || (1 <= x.0 < upto && x.1 == id)
  {
    if upto > 1 {
      FromAllBelowAdds(upto - 1, id, edges, x);
    }
  }

  // ----- what the builder keeps -----

  /** Barrier `b` waits for every lower id and holds back every higher one. */
  ghost predicate BarrierFenced(nn: nat, edges: seq<Edge>, b: nat) {
    && (forall x: nat :: 1 <= x < b ==> HasEdge(edges, x, b))
    && (forall x: nat :: b < x <= nn ==> HasEdge(edges, b, x))
  }

  ghost predicate Fenced(nodes: seq<PlanNode>, edges: seq<Edge>) {
    forall i :: 0 <= i < |nodes| && nodes[i].kind == Barrier ==> BarrierFenced(|nodes|, edges, i + 1)
  }

  ghost predicate NodeKept(n: PlanNode) {
    && CleanScalar(n.name)
    && (n.kind == Rewrite ==> n.members != [])
    && (n.kind == Barrier ==> n.members == [])
  }

  ghost predicate PlanKept(nodes: seq<PlanNode>, edges: seq<Edge>) {
    && NodesNumbered(nodes) && InRange(|nodes|, edges) && NoRepeats(edges)
    && (forall i :: 0 <= i < |nodes| ==> NodeKept(nodes[i]))
    && Fenced(nodes, edges)
  }

  lemma StillFenced(nn: nat, edges: seq<Edge>, more: seq<Edge>, b: nat)
    requires BarrierFenced(nn, edges, b) && forall e :: e in edges ==> e in more
    requires b <= nn ==> HasEdge(more, b, nn + 1)
    ensures BarrierFenced(nn + 1, more, b)
  {
    MoreFenced(nn, edges, more, b);
  }

  lemma AddWorkKept(nodes: seq<PlanNode>, edges: seq<Edge>, n: PlanNode)
    requires PlanKept(nodes, edges) && n.id == |nodes| + 1 && n.kind != Barrier && NodeKept(n)
    ensures PlanKept(nodes + [n], FromBarriers(nodes, |nodes|, n.id, edges))
  {
    var nn, es := |nodes|, FromBarriers(nodes, |nodes|, n.id, edges);
    forall x ensures NoRepeats(es) && (x in es <==> x in edges || (1 <= x.0 <= nn && nodes[x.0 - 1].kind == Barrier && x.1 == n.id)) {
      FromBarriersAdds(nodes, nn, n.id, edges, x);
    }
    forall k | 0 <= k < |es| ensures 1 <= es[k].0 <= nn + 1 && 1 <= es[k].1 <= nn + 1 {
      assert es[k] in es;
    }
    forall i | 0 <= i < nn && nodes[i].kind == Barrier ensures BarrierFenced(nn + 1, es, i + 1) {
      StillFenced(nn, edges, es, i + 1);
    }
  }

  lemma AddBarrierKept(nodes: seq<PlanNode>, edges: seq<Edge>, n: PlanNode)
    requires PlanKept(nodes, edges) && n.id == |nodes| + 1 && n.kind == Barrier && NodeKept(n)
    ensures PlanKept(nodes + [n], FromAllBelow(n.id, n.id, edges))
  {
    var nn, es := |nodes|, FromAllBelow(n.id, n.id, edges);
    forall x ensures NoRepeats(es) && (x in es <==> x in edges || (1 <= x.0 < n.id && x.1 == n.id)) {
      FromAllBelowAdds(n.id, n.id, edges, x);
    }
    forall k | 0 <= k < |es| ensures 1 <= es[k].0 <= nn + 1 && 1 <= es[k].1 <= nn + 1 {
      assert es[k] in es;
    }
    forall i | 0 <= i < nn && nodes[i].kind == Barrier ensures BarrierFenced(nn + 1, es, i + 1) {
      StillFenced(nn, edges, es, i + 1);
    }
    assert BarrierFenced(nn + 1, es, n.id);
  }

  lemma AddEdgeKept(nodes: seq<PlanNode>, edges: seq<Edge>, e: Edge)
    requires PlanKept(nodes, edges) && 1 <= e.0 <= |nodes| && 1 <= e.1 <= |nodes|
    ensures PlanKept(nodes, WithEdge(edges, e))
  {
    var nn, es := |nodes|, WithEdge(edges, e);
    forall i | 0 <= i < nn && nodes[i].kind == Barrier ensures BarrierFenced(nn, es, i + 1) {
      MoreFenced(nn, edges, es, i + 1);
    }
  }

  lemma MoreFenced(nn: nat, edges: seq<Edge>, more: seq<Edge>, b: nat)
    requires BarrierFenced(nn, edges, b) && forall e :: e in edges ==> e in more
    ensures BarrierFenced(nn, more, b)
  {
    forall x: nat | 1 <= x < b ensures HasEdge(more, x, b) {
      assert HasEdge(edges, x, b);
    }
    forall x: nat | b < x <= nn ensures HasEdge(more, b, x) {
      assert HasEdge(edges, b, x);
    }
  }

  /** A work node is appended, fenced behind every earlier barrier. */
  ghost predicate WorkAdded(nodes: seq<PlanNode>, edges: seq<Edge>, nodes': seq<PlanNode>, edges': seq<Edge>, n: PlanNode) {
    && n.id == |nodes| + 1 && nodes' == nodes + [n]
    && edges' == FromBarriers(nodes, |nodes|, n.id, edges)
  }

  // ----- barrier safety -----

  /** In every topological order of a plan the builder made, all lower ids come before a barrier
      and all higher ids after it. */
  lemma BarrierSeparates(nodes: seq<PlanNode>, edges: seq<Edge>, order: seq<nat>, b: nat, i: nat)
    requires PlanKept(nodes, edges) && Topological(|nodes|, edges, order)
    requires b < |nodes| && nodes[b].kind == Barrier && i < |nodes| && i != b
    ensures i < b <==> PositionIn(order, i) < PositionIn(order, b)
  {
    assert BarrierFenced(|nodes|, edges, b + 1);
    if i < b {
      assert HasEdge(edges, i + 1, b + 1);
      EdgeForward(|nodes|, edges, order, i + 1, b + 1);
    } else {
      assert HasEdge(edges, b + 1, i + 1);
      EdgeForward(|nodes|, edges, order, b + 1, i + 1);
    }
  }

  /** In a plan without cycles no edge leads from a barrier or above it to a barrier or below it. */
  lemma NoEdgeBackAcross(nodes: seq<PlanNode>, edges: seq<Edge>, b: nat, e: Edge)
    requires PlanKept(nodes, edges) && (forall c :: !Cycle(edges, c))
    requires b < |nodes| && nodes[b].kind == Barrier && e in edges
    ensures !(e.1 <= b + 1 <= e.0)
  {
    if e.1 <= b + 1 <= e.0 {
      assert BarrierFenced(|nodes|, edges, b + 1) && HasEdge(edges, e.0, e.1);
      var k :| 0 <= k < |edges| && edges[k] == e;
      assert 1 <= e.1 && e.0 <= |nodes|;
      assert e.1 < b + 1 ==> HasEdge(edges, e.1, b + 1);
      assert b + 1 < e.0 ==> HasEdge(edges, b + 1, e.0);
      var c := [e.0] + (if e.1 < e.0 then [e.1] else []) + (if e.1 < b + 1 < e.0 then [b + 1] else []);
      assert Cycle(edges, c);
    }
  }

  // ----- the builder -----

  class Sched {
    const name: string
    const kernels: seq<KernelInfo>
    const rules: seq<string>
    var nodes: seq<PlanNode>
    var edges: seq<Edge>
    var edgeSet: set<Edge>
    var isSealed: bool

    ghost predicate Valid()
      reads this
    {
      && CleanScalar(name) && PlanKept(nodes, edges)
      && (forall e :: e in edgeSet <==> e in edges)
      && (isSealed ==> forall c :: !Cycle(edges, c))
    }

    constructor (name: string, kernels: seq<KernelInfo>, rules: seq<string>)
      requires CleanScalar(name)
      ensures Valid() && nodes == [] && edges == [] && !isSealed
      ensures this.name == name && this.kernels == kernels && this.rules == rules
    {
      this.name, this.kernels, this.rules := name, kernels, rules;
      nodes, edges, edgeSet, isSealed := [], [], {}, false;
    }

    method AddEdgeRaw(from: nat, to: nat)
      requires forall e :: e in edgeSet <==> e in edges
      modifies this`edges, this`edgeSet
      ensures edges == WithEdge(old(edges), (from, to)) && forall e :: e in edgeSet <==> e in edges
    {
      if (from, to) in edgeSet {
        return;
      }
      edgeSet := edgeSet + {(from, to)};
      edges := edges + [(from, to)];
    }

    /** Appends a node; work nodes are fenced behind every earlier barrier. */
    method AddNode(kind: PlanKind, name: string, members: seq<string>) returns (id: Option<nat>)
      requires Valid() && (kind == Rewrite ==> members != []) && (kind == Barrier ==> members == [])
      modifies this`nodes, this`edges, this`edgeSet
      ensures id.Some? <==> !isSealed && CleanScalar(name)
      ensures id.None? ==> nodes == old(nodes) && edges == old(edges) && edgeSet == old(edgeSet)
      ensures id.Some? ==> id.value == |old(nodes)| + 1 && NodeKept(PlanNode(id.value, kind, name, members))
      ensures id.Some? && kind != Barrier ==>
                Valid() && WorkAdded(old(nodes), old(edges), nodes, edges, PlanNode(id.value, kind, name, members))
      ensures id.Some? && kind == Barrier ==>
                nodes == old(nodes) + [PlanNode(id.value, kind, name, members)] && edges == old(edges) && edgeSet == old(edgeSet)
    {
      if isSealed || !CleanScalar(name) {
        return None;
      }
      var n := PlanNode(|nodes| + 1, kind, name, members);
      if kind != Barrier {
        AddWorkKept(nodes, edges, n);
        var i := 0;
        while i < |nodes|
          invariant 0 <= i <= |nodes| && nodes == old(nodes)
          invariant edges == FromBarriers(nodes, i, n.id, old(edges))
          invariant forall e :: e in edgeSet <==> e in edges
        {
          if nodes[i].kind == Barrier {
            AddEdgeRaw(nodes[i].id, n.id);
          }
          i := i + 1;
        }
      }
      nodes := nodes + [n];
      return Some(n.id);
    }

    /** The first kernel of the manifest with the name, with its capabilities. */
    method RequireKernel(kernel: string) returns (id: Option<nat>)
      requires Valid()
      modifies this`nodes, this`edges, this`edgeSet
      ensures Valid()
      ensures id.Some? <==> !isSealed && CleanScalar(kernel) && KernelNamed(kernels, kernel).Some?
      ensures id.Some? ==> WorkAdded(old(nodes), old(edges), nodes, edges,
                                     PlanNode(id.value, Kernel, kernel, kernels[KernelNamed(kernels, kernel).value].caps))
      ensures id.None? ==> nodes == old(nodes) && edges == old(edges)
    {
      var k := KernelNamed(kernels, kernel);
      if k.None? {
        return None;
      }
      id := AddNode(Kernel, kernels[k.value].name, kernels[k.value].caps);
    }

    /** Scans the providers of a capability: the first one, overridden by every later one that has
        the preferred name. */
    method PickProvider(cap: string, prefer: Option<string>) returns (pick: Option<nat>, found: nat)
      ensures found == |Providers(kernels, cap)|
      ensures pick.None? ==> Providers(kernels, cap) == {}
      ensures pick.Some? ==> pick.value in Providers(kernels, cap)
      ensures pick.Some? && prefer.Some? && kernels[pick.value].name != prefer.value ==>
                forall j :: j in Providers(kernels, cap) ==> kernels[j].name != prefer.value
    {
      pick, found := None, 0;
      var k := 0;
      while k < |kernels|
        invariant 0 <= k <= |kernels|
        invariant found == |Providers(kernels[..k], cap)|
        invariant pick.None? ==> Providers(kernels[..k], cap) == {}
        invariant pick.Some? ==> pick.value in Providers(kernels[..k], cap)
        invariant pick.Some? && prefer.Some? && kernels[pick.value].name != prefer.value ==>
                    forall j :: j in Providers(kernels[..k], cap) ==> kernels[j].name != prefer.value
      {
        ghost var before := Providers(kernels[..k], cap);
        if cap in kernels[k].caps {
          assert Providers(kernels[..k + 1], cap) == before + {k};
          found := found + 1;
          if pick.None? || prefer == Some(kernels[k].name) {
            pick := Some(k);
          }
        } else {
          assert Providers(kernels[..k + 1], cap) == before;
        }
        k := k + 1;
      }
      assert kernels[..k] == kernels;
    }

    /** Appends the kernel a capability resolves to. */
    method RequireCapability(cap: string, prefer: Option<string>) returns (id: Option<nat>)
      requires Valid()
      modifies this`nodes, this`edges, this`edgeSet
      ensures Valid()
      ensures id.Some? ==> !isSealed
      ensures id.Some? ==> exists k: nat :: (
                && Chosen(kernels, cap, prefer, k)
                && WorkAdded(old(nodes), old(edges), nodes, edges, PlanNode(id.value, Kernel, kernels[k].name, kernels[k].caps)))
      ensures id.None? ==> nodes == old(nodes) && edges == old(edges)
      ensures id.None? ==> isSealed || forall k: nat :: Chosen(kernels, cap, prefer, k) ==> !CleanScalar(kernels[k].name)
    {
      var pick, found := PickProvider(cap, prefer);
      if pick.None? {
        return None;
      }
      var k := pick.value;
      if prefer.Some? && kernels[k].name != prefer.value {
        return None;
      }
      if prefer.None? && found != 1 {
        return None;
      }
      if prefer.None? {
        OnlyOne(Providers(kernels, cap), k);
      }
      assert Chosen(kernels, cap, prefer, k);
      id := AddNode(Kernel, kernels[k].name, kernels[k].caps);
    }

    /** A rewrite node runs, in manifest order, every ruleset whose name the pattern matches. */
    method RewriteAll(pattern: string) returns (id: Option<nat>)
      requires Valid()
      modifies this`nodes, this`edges, this`edgeSet
      ensures Valid()
      ensures id.Some? <==> !isSealed && MatchingRules(rules, pattern) != [] && CleanScalar(pattern)
      ensures id.Some? ==> WorkAdded(old(nodes), old(edges), nodes, edges,
                                     PlanNode(id.value, Rewrite, pattern, MatchingRules(rules, pattern)))
      ensures id.None? ==> nodes == old(nodes) && edges == old(edges)
    {
      if isSealed {
        return None;
      }
      var members: seq<string> := [];
      var i := 0;
      while i < |rules|
        invariant 0 <= i <= |rules|
        invariant Valid() && nodes == old(nodes) && edges == old(edges)
        invariant members == MatchingRules(rules[..i], pattern)
      {
        assert rules[..i + 1][..i] == rules[..i];
        if Wildcard(pattern, rules[i]) {
          members := members + [rules[i]];
        }
        i := i + 1;
      }
      assert rules[..i] == rules;
      if members == [] {
        return None;
      }
      id := AddNode(Rewrite, pattern, members);
    }

    method AddEdge(a: nat, b: nat) returns (ok: bool)
      requires Valid()
      modifies this`edges, this`edgeSet
      ensures Valid()
      ensures ok <==> !isSealed && 1 <= a <= |nodes| && 1 <= b <= |nodes|
      ensures edges == if ok then WithEdge(old(edges), (a, b)) else old(edges)
    {
      if isSealed || a == 0 || b == 0 || a > |nodes| || b > |nodes| {
        return false;
      }
      AddEdgeKept(nodes, edges, (a, b));
      AddEdgeRaw(a, b);
      return true;
    }

    /** Adds an edge from every id below the barrier's. */
    method FenceBelow(id: nat)
      requires forall e :: e in edgeSet <==> e in edges
      modifies this`edges, this`edgeSet
      ensures edges == FromAllBelow(id, id, old(edges)) && forall e :: e in edgeSet <==> e in edges
    {
      var i := 1;
      while i < id
        invariant 1 <= i && (i <= id || i == 1)
        invariant edges == FromAllBelow(i, id, old(edges))
        invariant forall e :: e in edgeSet <==> e in edges
      {
        AddEdgeRaw(i, id);
        i := i + 1;
      }
    }

    /** Appends a node that every lower id runs before, and every later node after. */
    method AddBarrier(title: Option<string>) returns (id: Option<nat>)
      requires Valid()
      modifies this`nodes, this`edges, this`edgeSet
      ensures Valid()
      ensures id.Some? <==> !isSealed && (title.Some? ==> CleanScalar(title.value))
      ensures id.Some? ==> id.value == |old(nodes)| + 1
      ensures id.Some? ==> nodes == old(nodes) + [PlanNode(id.value, Barrier, if title.Some? then title.value else "barrier", [])]
      ensures id.Some? ==> edges == FromAllBelow(id.value, id.value, old(edges))
      ensures id.None? ==> nodes == old(nodes) && edges == old(edges)
    {
      var text := if title.Some? then title.value else "barrier";
      id := AddNode(Barrier, text, []);
      if id.None? {
        return;
      }
      AddBarrierKept(old(nodes), old(edges), PlanNode(id.value, Barrier, text, []));
      FenceBelow(id.value);
    }

    /** Seals a plan that has work to do and no cycle, and prints it. */
    method Seal() returns (text: Option<string>)
      requires Valid() && |nodes| < UINT_MAX
      modifies this`isSealed
      ensures Valid()
      ensures text.Some? <==> !old(isSealed) && (exists i :: 0 <= i < |nodes| && nodes[i].kind != Barrier) && forall c :: !Cycle(edges, c)
      ensures isSealed <==> old(isSealed) || text.Some?
      ensures text.Some? ==> text.value == Unlines(PlanLines(name, nodes, edges))
    {
      if isSealed {
        return None;
      }
      var useful := exists i :: 0 <= i < |nodes| && nodes[i].kind != Barrier;
      if !useful {
        return None;
      }
      DistinctEdgesAreFew(|nodes|, edges);
      var ok, _ := Acyclic(|nodes|, edges);
      if !ok {
        return None;
      }
      var t := PrintPlan(name, nodes, edges);
      isSealed := true;
      return Some(t);
    }
  }

  lemma OnlyOne(s: set<nat>, k: nat)
    requires |s| == 1 && k in s
    ensures s == {k}
  {
    assert |s - {k}| == 0;
  }

  lemma {:induction false} UnlinesAppend(lines: seq<string>, line: string)
    ensures Unlines(lines + [line]) == Unlines(lines) + (line + "\n")
  {
    if lines == [] {
      assert [line][1..] == [];
    } else {
      assert (lines + [line])[1..] == lines[1..] + [line];
      UnlinesAppend(lines[1..], line);
    }
  }

  lemma {:induction false} UnwordsAppend(words: seq<string>, w: string)
    requires words != []
    ensures Unwords(words + [w]) == Unwords(words) + (" " + w)
  {
    assert (words + [w])[1..] == words[1..] + [w];
    if |words| > 1 {
      UnwordsAppend(words[1..], w);
    } else {
      assert words[1..] + [w] == [w];
    }
  }

  lemma UnwordsTwo(a: string, b: string)
    ensures Unwords([a, b]) == a + (" " + b)
  {
    assert [a, b][1..] == [b];
  }

  lemma UnwordsCons(a: string, words: seq<string>)
    requires words != []
    ensures Unwords([a] + words) == a + (" " + Unwords(words))
  {
    assert ([a] + words)[1..] == words;
  }

  /** `node <id> <kind> <name>` followed by the members, each after a space. */
  method PrintNode(n: PlanNode) returns (line: string)
    ensures line == Unwords(NodeWords(n))
  {
    var id, code := Decimal(n.id), Decimal(KindCode(n.kind));
    ghost var head := ["node", id, code, n.name];
    line := "node" + (" " + (id + (" " + (code + (" " + n.name)))));
    UnwordsTwo(code, n.name);
    UnwordsCons(id, [code, n.name]);
    UnwordsCons("node", [id, code, n.name]);
    assert head == ["node"] + ([id] + [code, n.name]) && [id] + [code, n.name] == [id, code, n.name];
    var j := 0;
    assert head + n.members[..j] == head;
    while j < |n.members|
      invariant 0 <= j <= |n.members|
      invariant line == Unwords(head + n.members[..j])
    {
      UnwordsAppend(head + n.members[..j], n.members[j]);
      assert head + n.members[..j + 1] == head + n.members[..j] + [n.members[j]];
      line := line + (" " + n.members[j]);
      j := j + 1;
    }
    assert n.members[..j] == n.members;
  }

  method PrintEdge(e: Edge) returns (line: string)
    ensures line == Unwords(EdgeWords(e))
  {
    var from, to := Decimal(e.0), Decimal(e.1);
    line := "edge" + (" " + (from + (" " + to)));
    UnwordsTwo(from, to);
    UnwordsCons("edge", [from, to]);
    assert ["edge"] + [from, to] == EdgeWords(e);
  }

  method PrintPlan(name: string, nodes: seq<PlanNode>, edges: seq<Edge>) returns (text: string)
    ensures text == Unlines(PlanLines(name, nodes, edges))
  {
    ghost var head := [HEADER, "name " + name];
    ghost var lines := head;
    text := "" + (HEADER + "\n") + (("name " + name) + "\n");
    UnlinesAppend([], HEADER);
    UnlinesAppend([HEADER], "name " + name);
    assert [] + [HEADER] == [HEADER] && [HEADER] + ["name " + name] == head;
    var i := 0;
    assert head + NodeLines(nodes)[..i] == head;
    while i < |nodes|
      invariant 0 <= i <= |nodes|
      invariant lines == head + NodeLines(nodes)[..i] && text == Unlines(lines)
    {
      var line := PrintNode(nodes[i]);
      UnlinesAppend(lines, line);
      text := text + (line + "\n");
      lines := lines + [line];
      i := i + 1;
    }
    i := 0;
    assert head + NodeLines(nodes) + EdgeLines(edges)[..i] == lines;
    while i < |edges|
      invariant 0 <= i <= |edges|
      invariant lines == head + NodeLines(nodes) + EdgeLines(edges)[..i] && text == Unlines(lines)
    {
      var line := PrintEdge(edges[i]);
      UnlinesAppend(lines, line);
      text := text + (line + "\n");
      lines := lines + [line];
      i := i + 1;
    }
    assert lines == PlanLines(name, nodes, edges);
  }

  // ----- from builder to executor -----

  /** A sealed plan whose scalars are single words is executed as it was built: the executor reads
      back its nodes and edges, finds no cycle, and runs a topological order in which barriers
      separate what was added before them from what was added after. */
  lemma SealedPlanRuns(name: string, nodes: seq<PlanNode>, edges: seq<Edge>)
    requires CleanScalar(name) && |Tokens(name, ' ')| == 1
    requires PlanKept(nodes, edges) && 0 < |nodes| < TWO_32 && AllTokens(nodes) && forall c :: !Cycle(edges, c)
    ensures ParsePlan(Unlines(PlanLines(name, nodes, edges))) == Some((nodes, edges))
    ensures Topological(|nodes|, edges, PlanOrder(|nodes|, edges))
    ensures forall b, i: nat :: 0 <= b < |nodes| && nodes[b].kind == Barrier && i < |nodes| && i != b ==>
              i in PlanOrder(|nodes|, edges) && b in PlanOrder(|nodes|, edges) &&
              (i < b <==> PositionIn(PlanOrder(|nodes|, edges), i) < PositionIn(PlanOrder(|nodes|, edges), b))
  {
    TokensRoundTrip(name, nodes, edges);
    CompleteIffAcyclic(|nodes|, edges);
    PlanOrderWithin(|nodes|, edges);
    forall b, i: nat | 0 <= b < |nodes| && nodes[b].kind == Barrier && i < |nodes| && i != b
      ensures i in PlanOrder(|nodes|, edges) && b in PlanOrder(|nodes|, edges)
      ensures i < b <==> PositionIn(PlanOrder(|nodes|, edges), i) < PositionIn(PlanOrder(|nodes|, edges), b)
    {
      BarrierSeparates(nodes, edges, PlanOrder(|nodes|, edges), b, i);
    }
  }
}
