/** The union-find of the e-graph, as a `parent` array and as the partition it denotes.

The array is rewritten by path halving; the partition it stands for is the sequence of
roots, in which every class is named by its least member.  All later specifications speak
of that canonical sequence, so that path halving is invisible to them. */
module UnionFind {

  ghost predicate ValidParents(p: seq<nat>) {
    forall i :: 0 <= i < |p| ==> p[i] <= i
  }

  /** Following parents from `c` until a self-parent. */
  ghost function Root(p: seq<nat>, c: nat): (r: nat)
    requires ValidParents(p) && c < |p|
    ensures r <= c && p[r] == r
    decreases c
  {
    if p[c] == c then c else Root(p, p[c])
  }

  /** Every entry names the least member of its class, and the name of a class names itself. */
  ghost predicate Canonical(rt: seq<nat>) {
    forall i :: 0 <= i < |rt| ==> rt[i] <= i && rt[rt[i]] == rt[i]
  }

  ghost function Roots(p: seq<nat>): (rt: seq<nat>)
    requires ValidParents(p)
    ensures |rt| == |p| && Canonical(rt)
    ensures forall i :: 0 <= i < |p| ==> rt[i] == Root(p, i)
  {
    seq(|p|, i requires 0 <= i < |p| => Root(p, i))
  }

  /** Path halving at one place leaves every root where it was. */
  lemma {:induction false} HalvingKeepsRoot(p: seq<nat>, c: nat, x: nat)
    requires ValidParents(p) && c < |p| && x < |p|
    ensures ValidParents(p[c := p[p[c]]])
    ensures Root(p[c := p[p[c]]], x) == Root(p, x)
    decreases x
  {
    var q := p[c := p[p[c]]];
    if p[x] != x {
      HalvingKeepsRoot(p, c, p[x]);
      if x == c && q[x] != x {
        HalvingKeepsRoot(p, c, q[x]);
      }
    }
  }

  lemma HalvingKeepsRoots(p: seq<nat>, c: nat)
    requires ValidParents(p) && c < |p|
    ensures ValidParents(p[c := p[p[c]]])
    ensures Roots(p[c := p[p[c]]]) == Roots(p)
  {
    var q := p[c := p[p[c]]];
    forall x | 0 <= x < |p| ensures Roots(q)[x] == Roots(p)[x] {
      HalvingKeepsRoot(p, c, x);
    }
  }

  /** The partition after the classes of `a` and `b` are joined: the lower name wins. */
  ghost function Merge(rt: seq<nat>, a: nat, b: nat): (m: seq<nat>)
    requires Canonical(rt) && a < |rt| && b < |rt|
    ensures |m| == |rt| && Canonical(m)
  {
    var lo := if rt[a] < rt[b] then rt[a] else rt[b];
    seq(|rt|, i requires 0 <= i < |rt| => if rt[i] == rt[a] || rt[i] == rt[b] then lo else rt[i])
  }

  /** Redirecting the higher of two roots to the lower one merges exactly their two classes. */
  lemma {:induction false} LinkRoot(p: seq<nat>, lo: nat, hi: nat, x: nat)
    requires ValidParents(p) && lo < hi < |p| && p[lo] == lo && p[hi] == hi && x < |p|
    ensures ValidParents(p[hi := lo])
    ensures Root(p[hi := lo], x) == if Root(p, x) == hi then lo else Root(p, x)
    decreases x
  {
    if x != hi && p[x] != x {
      LinkRoot(p, lo, hi, p[x]);
    }
  }

  lemma LinkRoots(p: seq<nat>, a: nat, b: nat, lo: nat, hi: nat)
    requires ValidParents(p) && a < |p| && b < |p|
    requires lo < hi && {lo, hi} == {Root(p, a), Root(p, b)}
    ensures ValidParents(p[hi := lo])
    ensures Roots(p[hi := lo]) == Merge(Roots(p), a, b)
  {
    assert lo in {Root(p, a), Root(p, b)} && hi in {Root(p, a), Root(p, b)};
    assert Root(p, a) in {lo, hi} && Root(p, b) in {lo, hi};
    forall x | 0 <= x < |p| ensures Roots(p[hi := lo])[x] == Merge(Roots(p), a, b)[x] {
      LinkRoot(p, lo, hi, x);
    }
  }

  lemma {:induction false} PushRoot(p: seq<nat>, x: nat)
    requires ValidParents(p) && x < |p|
    ensures ValidParents(p + [|p|]) && Root(p + [|p|], x) == Root(p, x)
    decreases x
  {
    if p[x] != x {
      PushRoot(p, p[x]);
    }
  }

  lemma PushRoots(p: seq<nat>)
    requires ValidParents(p)
    ensures ValidParents(p + [|p|]) && Roots(p + [|p|]) == Roots(p) + [|p|]
  {
    forall x | 0 <= x <= |p| ensures Roots(p + [|p|])[x] == (Roots(p) + [|p|])[x] {
      if x < |p| {
        PushRoot(p, x);
      }
    }
  }

  // ----- counting classes -----

  ghost function Representatives(rt: seq<nat>, n: nat): set<nat>
    requires n <= |rt|
  {
    set i: nat | i < n && rt[i] == i
  }

  lemma RepresentativesStep(rt: seq<nat>, i: nat)
    requires i < |rt|
    ensures |Representatives(rt, i + 1)| == |Representatives(rt, i)| + if rt[i] == i then 1 else 0
  {
    assert Representatives(rt, i + 1) == Representatives(rt, i) + if rt[i] == i then {i} else {};
  }

  ghost function NumRoots(rt: seq<nat>): nat {
    |Representatives(rt, |rt|)|
  }

  /** Joining two different classes loses exactly one class; joining one with itself loses none. */
  lemma MergeCount(rt: seq<nat>, a: nat, b: nat)
    requires Canonical(rt) && a < |rt| && b < |rt|
    ensures rt[a] == rt[b] ==> Merge(rt, a, b) == rt
    ensures rt[a] != rt[b] ==> NumRoots(Merge(rt, a, b)) == NumRoots(rt) - 1
  {
    var m := Merge(rt, a, b);
    if rt[a] != rt[b] {
      var hi := if rt[a] < rt[b] then rt[b] else rt[a];
      assert Representatives(m, |m|) == Representatives(rt, |rt|) - {hi};
      assert hi in Representatives(rt, |rt|);
    }
  }

  lemma PushCount(rt: seq<nat>)
    requires Canonical(rt)
    ensures Canonical(rt + [|rt|]) && NumRoots(rt + [|rt|]) == NumRoots(rt) + 1
  {
    assert Representatives(rt + [|rt|], |rt| + 1) == Representatives(rt, |rt|) + {|rt|};
  }

  // ----- any sequence of unions computes the equivalence closure -----

  type Relation = (nat, nat) -> bool

  ghost predicate IsEquivalence(R: Relation) {
    && (forall x: nat :: R(x, x))
    && (forall x: nat, y: nat :: R(x, y) ==> R(y, x))
    && (forall x: nat, y: nat, z: nat :: R(x, y) && R(y, z) ==> R(x, z))
  }

  /** Members of one class of the partition are related by `R`. */
  ghost predicate Within(rt: seq<nat>, R: Relation) {
    forall x, y :: 0 <= x < |rt| && 0 <= y < |rt| && rt[x] == rt[y] ==> R(x, y)
  }

  ghost predicate PairsInRange(pairs: seq<(nat, nat)>, n: nat) {
    forall k :: 0 <= k < |pairs| ==> pairs[k].0 < n && pairs[k].1 < n
  }

  ghost predicate Requested(pairs: seq<(nat, nat)>, R: Relation) {
    forall k :: 0 <= k < |pairs| ==> R(pairs[k].0, pairs[k].1)
  }

  ghost function MergeAll(rt: seq<nat>, pairs: seq<(nat, nat)>): (m: seq<nat>)
    requires Canonical(rt) && PairsInRange(pairs, |rt|)
    ensures |m| == |rt| && Canonical(m)
    decreases |pairs|
  {
    if pairs == [] then rt
    else Merge(MergeAll(rt, pairs[..|pairs| - 1]), pairs[|pairs| - 1].0, pairs[|pairs| - 1].1)
  }

  lemma MergeKeepsTogether(rt: seq<nat>, a: nat, b: nat)
    requires Canonical(rt) && a < |rt| && b < |rt|
    ensures Merge(rt, a, b)[a] == Merge(rt, a, b)[b]
    ensures forall x, y :: 0 <= x < |rt| && 0 <= y < |rt| && rt[x] == rt[y] ==> Merge(rt, a, b)[x] == Merge(rt, a, b)[y]
  {
  }

  lemma MergeStaysWithin(rt: seq<nat>, a: nat, b: nat, R: Relation)
    requires Canonical(rt) && a < |rt| && b < |rt|
    requires IsEquivalence(R) && Within(rt, R) && R(a, b)
    ensures Within(Merge(rt, a, b), R)
  {
    var m := Merge(rt, a, b);
    forall x, y | 0 <= x < |rt| && 0 <= y < |rt| && m[x] == m[y] ensures R(x, y) {
      if rt[x] != rt[y] {
        var (ax, ay) := (if rt[x] == rt[a] then a else b, if rt[y] == rt[a] then a else b);
        assert R(x, ax) && R(ay, y);
        assert R(ax, ay);
        assert R(x, ay);
      }
    }
  }

  /** The partition after any sequence of unions contains the starting partition and every
      requested pair, and lies within every equivalence that contains both. */
  lemma {:induction false} MergeAllIsClosure(rt: seq<nat>, pairs: seq<(nat, nat)>)
    requires Canonical(rt) && PairsInRange(pairs, |rt|)
    ensures forall k :: 0 <= k < |pairs| ==> MergeAll(rt, pairs)[pairs[k].0] == MergeAll(rt, pairs)[pairs[k].1]
    ensures forall x, y :: 0 <= x < |rt| && 0 <= y < |rt| && rt[x] == rt[y] ==>
              MergeAll(rt, pairs)[x] == MergeAll(rt, pairs)[y]
    ensures forall R: Relation ::
              IsEquivalence(R) && Within(rt, R) && Requested(pairs, R) ==> Within(MergeAll(rt, pairs), R)
    decreases |pairs|
  {
    if pairs != [] {
      var init, last := pairs[..|pairs| - 1], pairs[|pairs| - 1];
      MergeAllIsClosure(rt, init);
      MergeKeepsTogether(MergeAll(rt, init), last.0, last.1);
      forall R: Relation | IsEquivalence(R) && Within(rt, R) && Requested(pairs, R)
        ensures Within(MergeAll(rt, pairs), R)
      {
        forall k | 0 <= k < |init| ensures R(init[k].0, init[k].1) {
          assert init[k] == pairs[k];
        }
        MergeStaysWithin(MergeAll(rt, init), last.0, last.1, R);
      }
      forall k | 0 <= k < |pairs|
        ensures MergeAll(rt, pairs)[pairs[k].0] == MergeAll(rt, pairs)[pairs[k].1]
      {
        assert k < |init| ==> init[k] == pairs[k];
      }
    }
  }

  /** Canonical partitions with the same classes are the same sequence. */
  lemma CanonicalUnique(s: seq<nat>, t: seq<nat>)
    requires Canonical(s) && Canonical(t) && |s| == |t|
    requires forall x, y :: 0 <= x < |s| && 0 <= y < |s| ==> (s[x] == s[y] <==> t[x] == t[y])
    ensures s == t
  {
    forall x | 0 <= x < |s| ensures s[x] == t[x] {
      assert t[x] == t[s[x]] && s[x] == s[t[x]];
    }
  }

  /** Two request sequences with the same pairs, in whatever order and multiplicity, end in the
      same partition with the same class names. */
  lemma OrderIndependent(rt: seq<nat>, ps: seq<(nat, nat)>, qs: seq<(nat, nat)>)
    requires Canonical(rt) && PairsInRange(ps, |rt|) && PairsInRange(qs, |rt|)
    requires forall p :: p in ps <==> p in qs
    ensures MergeAll(rt, ps) == MergeAll(rt, qs)
  {
    OrderRefines(rt, ps, qs);
    OrderRefines(rt, qs, ps);
    MutuallyWithin(MergeAll(rt, ps), MergeAll(rt, qs));
  }

  lemma MutuallyWithin(s: seq<nat>, t: seq<nat>)
    requires Canonical(s) && Canonical(t) && |s| == |t| && Within(s, Kernel(t)) && Within(t, Kernel(s))
    ensures s == t
  {
    forall x, y | 0 <= x < |s| && 0 <= y < |s| ensures s[x] == s[y] <==> t[x] == t[y] {
      assert s[x] == s[y] ==> Kernel(t)(x, y);
      assert t[x] == t[y] ==> Kernel(s)(x, y);
    }
    CanonicalUnique(s, t);
  }

  /** The equivalence a partition stands for. */
  ghost function Kernel(m: seq<nat>): (R: Relation)
    ensures IsEquivalence(R)
  {
    (x: nat, y: nat) => x == y || (x < |m| && y < |m| && m[x] == m[y])
  }

  lemma OrderRefines(rt: seq<nat>, ps: seq<(nat, nat)>, qs: seq<(nat, nat)>)
    requires Canonical(rt) && PairsInRange(ps, |rt|) && PairsInRange(qs, |rt|)
    requires forall p :: p in ps ==> p in qs
    ensures Within(MergeAll(rt, ps), Kernel(MergeAll(rt, qs)))
  {
    var R := Kernel(MergeAll(rt, qs));
    MergeAllIsClosure(rt, ps);
    assert Within(rt, R) && Requested(ps, R) by {
      MergeAllIsClosure(rt, qs);
      forall k | 0 <= k < |ps| ensures R(ps[k].0, ps[k].1) {
        assert ps[k] in qs;
      }
    }
  }
}
