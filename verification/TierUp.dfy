/** Environments of the Parthia evaluator, and the tier-up that flattens the captured frames of a hot
closure into one frame above the root. */
module TierUp {
  import opened Basics

  /** A frame's bindings, the most recent first. */
  type Binds<V> = seq<(string, V)>

  ghost function Find<V>(binds: Binds<V>, name: string): (v: Option<V>)
    ensures v.Some? ==> (name, v.value) in binds
  {
    if binds == [] then None
    else if binds[0].0 == name then Some(binds[0].1)
    else Find(binds[1..], name)
  }

  /** Looks through a chain of frames, the innermost first. */
  ghost function FindIn<V>(chain: seq<Binds<V>>, name: string): (v: Option<V>)
    ensures v.Some? ==> exists i :: 0 <= i < |chain| && (name, v.value) in chain[i]
  {
    if chain == [] then None
    else if Find(chain[0], name).Some? then Find(chain[0], name)
    else FindIn(chain[1..], name)
  }

  ghost function Flatten<V>(chain: seq<Binds<V>>): Binds<V> {
    if chain == [] then [] else chain[0] + Flatten(chain[1..])
  }

  /** Copies bindings one by one in front of `flat`, unless their name is already found in `flat` or
      in the root. */
  ghost function Copied<V>(pending: Binds<V>, flat: Binds<V>, root: Binds<V>): Binds<V> {
    if pending == [] then flat
    else Copied(pending[1..], if FindIn([flat, root], pending[0].0).None? then [pending[0]] + flat else flat, root)
  }

  // ----- what the flat frame holds -----

  lemma FindInTwo<V>(a: Binds<V>, b: Binds<V>, name: string)
    ensures FindIn([a, b], name) == if Find(a, name).Some? then Find(a, name) else Find(b, name)
  {
    assert [a, b][1..] == [b] && [b][1..] == [];
  }

  lemma {:induction false} FindConcat<V>(a: Binds<V>, b: Binds<V>, name: string)
    ensures Find(a + b, name) == if Find(a, name).Some? then Find(a, name) else Find(b, name)
  {
    if a == [] {
      assert a + b == b;
    } else {
      assert (a + b)[1..] == a[1..] + b;
      FindConcat(a[1..], b, name);
    }
  }

  lemma {:induction false} FindFlatten<V>(chain: seq<Binds<V>>, name: string)
    ensures Find(Flatten(chain), name) == FindIn(chain, name)
  {
    if chain != [] {
      FindConcat(chain[0], Flatten(chain[1..]), name);
      FindFlatten(chain[1..], name);
    }
  }

  lemma {:induction false} FindInConcat<V>(a: seq<Binds<V>>, b: seq<Binds<V>>, name: string)
    ensures FindIn(a + b, name) == if FindIn(a, name).Some? then FindIn(a, name) else FindIn(b, name)
  {
    if a == [] {
      assert a + b == b;
    } else {
      assert (a + b)[1..] == a[1..] + b;
      FindInConcat(a[1..], b, name);
    }
  }

  /** The flat frame holds the innermost captured binding of every name the root does not bind, and
      nothing else. */
  lemma {:induction false} FindCopied<V>(pending: Binds<V>, flat: Binds<V>, root: Binds<V>, name: string)
    ensures Find(Copied(pending, flat, root), name)
         == if Find(flat, name).Some? then Find(flat, name)
            else if Find(root, name).Some? then None
            else Find(pending, name)
  {
    if pending != [] {
      var (n, v) := pending[0];
      FindInTwo(flat, root, n);
      var flat' := if FindIn([flat, root], n).None? then [(n, v)] + flat else flat;
      assert ([(n, v)] + flat)[1..] == flat;
      FindCopied(pending[1..], flat', root, name);
    }
  }

  ghost function FlatFrame<V>(captured: seq<Binds<V>>, root: Binds<V>): Binds<V> {
    Copied(Flatten(captured), [], root)
  }

  lemma FlatHolds<V>(captured: seq<Binds<V>>, root: Binds<V>, name: string)
    ensures Find(FlatFrame(captured, root), name) == if Find(root, name).Some? then None else FindIn(captured, name)
  {
    FindCopied(Flatten(captured), [], root, name);
    FindFlatten(captured, name);
  }

  // ----- when tier-up keeps the meaning of names -----

  /** The captured value of every name the root binds is the root's own. */
  ghost predicate SameInRoot<V>(captured: seq<Binds<V>>, root: Binds<V>) {
    forall name :: FindIn(captured, name).Some? && Find(root, name).Some? ==> FindIn(captured, name) == Find(root, name)
  }

  /** No captured name is bound in the root. */
  ghost predicate NoneInRoot<V>(captured: seq<Binds<V>>, root: Binds<V>) {
    forall name :: FindIn(captured, name).Some? ==> Find(root, name).None?
  }

  ghost predicate SameNames<V>(captured: seq<Binds<V>>, flat: Binds<V>, root: Binds<V>) {
    forall name :: FindIn([flat, root], name) == FindIn(captured + [root], name)
  }

  lemma LookupBoth<V>(captured: seq<Binds<V>>, flat: Binds<V>, root: Binds<V>, name: string)
    ensures FindIn([flat, root], name) == if Find(flat, name).Some? then Find(flat, name) else Find(root, name)
    ensures FindIn(captured + [root], name) == if FindIn(captured, name).Some? then FindIn(captured, name) else Find(root, name)
  {
    FindInTwo(flat, root, name);
    FindInConcat(captured, [root], name);
    assert [root][1..] == [];
  }

  /** Right after tier-up every name means what it meant exactly when the root's binding of every
      captured name is the captured one. */
  lemma UnchangedNow<V>(captured: seq<Binds<V>>, root: Binds<V>)
    ensures SameNames(captured, FlatFrame(captured, root), root) <==> SameInRoot(captured, root)
  {
    var flat := FlatFrame(captured, root);
    forall name
      ensures FindIn([flat, root], name) == FindIn(captured + [root], name)
         <==> (FindIn(captured, name).Some? && Find(root, name).Some? ==> FindIn(captured, name) == Find(root, name))
    {
      FlatHolds(captured, root, name);
      LookupBoth(captured, flat, root, name);
    }
  }

  lemma UnchangedLater<V>(captured: seq<Binds<V>>, root: Binds<V>, later: Binds<V>)
    requires NoneInRoot(captured, root)
    ensures SameNames(captured, FlatFrame(captured, root), later + root)
  {
    var flat := FlatFrame(captured, root);
    forall name ensures FindIn([flat, later + root], name) == FindIn(captured + [later + root], name) {
      FlatHolds(captured, root, name);
      LookupBoth(captured, flat, later + root, name);
    }
  }

  /** Names keep their meaning through every later extension of the root, whose new bindings go in
      front of the ones it has, exactly when no captured name was bound in the root at tier-up. */
  lemma UnchangedForever<V>(captured: seq<Binds<V>>, root: Binds<V>, a: V, b: V)
    requires a != b
    ensures (forall later: Binds<V> :: SameNames(captured, FlatFrame(captured, root), later + root)) <==> NoneInRoot(captured, root)
  {
    if NoneInRoot(captured, root) {
      forall later: Binds<V> ensures SameNames(captured, FlatFrame(captured, root), later + root) {
        UnchangedLater(captured, root, later);
      }
    } else {
      var name :| FindIn(captured, name).Some? && Find(root, name).Some?;
      var other := if FindIn(captured, name).value == a then b else a;
      var later := [(name, other)];
      FlatHolds(captured, root, name);
      LookupBoth(captured, FlatFrame(captured, root), later + root, name);
      assert (later + root)[0] == (name, other);
      assert !SameNames(captured, FlatFrame(captured, root), later + root);
    }
  }

  /** The duplicate check looks through to the root, so a captured binding that shadows a root
      binding is dropped: the name changes its meaning. */
  lemma ShadowingBindingLost<V>(name: string, inner: V, outer: V)
    requires inner != outer
    ensures FindIn([[(name, inner)]] + [[(name, outer)]], name) == Some(inner)
    ensures FindIn([FlatFrame([[(name, inner)]], [(name, outer)]), [(name, outer)]], name) == Some(outer)
  {
    var captured, root := [[(name, inner)]], [(name, outer)];
    FlatHolds(captured, root, name);
    LookupBoth(captured, FlatFrame(captured, root), root, name);
  }

  // ----- frames -----

  /** Values, as far as lookups look into them. */
  datatype Val = Plain(id: int) | Structure(env: Frame) | Function(closure: Closure)

  class Frame {
    var binds: Binds<Val>
    const parent: Frame?
    /** The frames behind this one, up to the root. */
    ghost const ancestors: seq<Frame>

    ghost predicate Linked()
      decreases |ancestors|
    {
      if parent == null then ancestors == []
      else ancestors == [parent] + parent.ancestors && parent.Linked()
    }

    ghost function Chain(): seq<Frame> {
      [this] + ancestors
    }

    constructor (parent: Frame?)
      requires parent != null ==> parent.Linked()
      ensures binds == [] && this.parent == parent && Linked()
    {
      binds := [];
      this.parent := parent;
      ancestors := if parent == null then [] else [parent] + parent.ancestors;
    }

    method Bind(name: string, value: Val)
      modifies this`binds
      ensures binds == [(name, value)] + old(binds)
    {
      binds := [(name, value)] + binds;
    }

    method LookupHere(name: string) returns (v: Option<Val>)
      ensures v == Find(binds, name)
    {
      var b := 0;
      while b < |binds|
        invariant 0 <= b <= |binds|
        invariant Find(binds[b..], name) == Find(binds, name)
      {
        if binds[b].0 == name {
          return Some(binds[b].1);
        }
        assert binds[b..][1..] == binds[b + 1..];
        b := b + 1;
      }
      return None;
    }

    method Lookup(name: string) returns (v: Option<Val>)
      requires Linked()
      ensures v == FindIn(Contents(Chain()), name)
    {
      ghost var goal := FindIn(Contents(Chain()), name);
      var f: Frame? := this;
      while f != null
        invariant f != null ==> f.Linked() && FindIn(Contents(f.Chain()), name) == goal
        invariant f == null ==> goal == None
        decreases if f == null then 0 else 1 + |f.ancestors|
      {
        ChainStep(f, name);
        v := f.LookupHere(name);
        if v.Some? {
          return;
        }
        f := f.parent;
      }
      return None;
    }
  }

  ghost function Contents(frames: seq<Frame>): (c: seq<Binds<Val>>)
    reads frames
    ensures |c| == |frames| && forall i :: 0 <= i < |c| ==> c[i] == frames[i].binds
  {
    if frames == [] then [] else [frames[0].binds] + Contents(frames[1..])
  }

  lemma ChainStep(f: Frame, name: string)
    requires f.Linked()
    ensures FindIn(Contents(f.Chain()), name)
         == if Find(f.binds, name).Some? then Find(f.binds, name)
            else if f.parent == null then None
            else FindIn(Contents(f.parent.Chain()), name)
  {
    assert f.Chain()[1..] == f.ancestors;
    assert Contents(f.Chain())[1..] == Contents(f.ancestors);
  }

  /** The frames a closure captured: all of its chain but the root. */
  ghost function Captured(home: Frame): seq<Frame> {
    home.Chain()[..|home.ancestors|]
  }

  ghost function Root(home: Frame): Frame {
    home.Chain()[|home.ancestors|]
  }

  lemma {:induction false} ChainLinks(f: Frame, i: nat)
    requires f.Linked() && i <= |f.ancestors|
    ensures f.Chain()[i].Linked() && f.Chain()[i].Chain() == f.Chain()[i..]
    ensures f.Chain()[i].parent == if i < |f.ancestors| then f.Chain()[i + 1] else null
    decreases i
  {
    if i > 0 {
      assert f.parent.Chain() == f.ancestors == f.Chain()[1..];
      ChainLinks(f.parent, i - 1);
      assert f.Chain()[1..][i - 1..] == f.Chain()[i..];
    }
  }

  /** No frame occurs twice in a chain. */
  lemma ChainDistinct(f: Frame)
    requires f.Linked()
    ensures forall i, j :: 0 <= i < j <= |f.ancestors| ==> f.Chain()[i] != f.Chain()[j]
  {
    forall i, j | 0 <= i < j <= |f.ancestors| ensures f.Chain()[i] != f.Chain()[j] {
      ChainLinks(f, i);
      ChainLinks(f, j);
      assert |f.Chain()[i].Chain()| != |f.Chain()[j].Chain()|;
    }
  }

  /** A flat frame above the root that agrees with the captured frames on every name. */
  ghost predicate StandsFor(flat: Frame, home: Frame)
    reads flat, Captured(home)
  {
    flat.parent == Root(home) && forall name :: Find(flat.binds, name) == FindIn(Contents(Captured(home)), name)
  }

  // ----- closures -----

  const HOT_THRESHOLD: nat := 64
  const ULONG_RANGE: nat := 0x1_0000_0000_0000_0000

  class Runtime {
    var specialised: nat

    constructor ()
      ensures specialised == 0
    {
      specialised := 0;
    }
  }

  class Closure {
    var env: Frame
    var calls: nat
    var hot: bool
    /** The environment the closure was created in. */
    ghost const home: Frame

    constructor (env: Frame)
      requires env.Linked()
      ensures this.env == env && home == env && calls == 0 && !hot && Wired() && Faithful()
    {
      this.env, home, calls, hot := env, env, 0, false;
    }

    /** Until it is hot a closure uses the environment it was created in. */
    ghost predicate Wired()
      reads this
    {
      home.Linked() && env.Linked() && (!hot ==> env == home)
    }

    /** The closure still sees its home environment: directly, or through a flat frame above the
        root that agrees with the captured frames on every name. */
    ghost predicate Faithful()
      reads this, env, Captured(home)
    {
      home.Linked() && env.Linked() && (env == home || StandsFor(env, home))
    }
  }

  lemma ChainSplit(home: Frame)
    ensures home.Chain() == Captured(home) + [Root(home)]
    ensures Contents(home.Chain()) == Contents(Captured(home)) + [Root(home).binds]
  {
    assert home.Chain() == Captured(home) + [Root(home)];
  }

  lemma FlatChain(flat: Frame)
    requires flat.Linked() && flat.parent != null && flat.parent.ancestors == []
    ensures Contents(flat.Chain()) == [flat.binds, flat.parent.binds]
  {
    assert flat.Chain() == [flat, flat.parent];
  }

  /** A faithful closure looks up every name as in the environment it was created in, whatever the
      root has come to hold. */
  lemma FaithfulLookup(c: Closure, name: string)
    requires c.Faithful()
    ensures FindIn(Contents(c.env.Chain()), name) == FindIn(Contents(c.home.Chain()), name)
  {
    if c.env != c.home {
      ChainSplit(c.home);
      ChainLinks(c.home, |c.home.ancestors|);
      FlatChain(c.env);
      LookupBoth(Contents(Captured(c.home)), c.env.binds, Root(c.home).binds, name);
    }
  }

  /** Defining a global, as a later phrase does, leaves closures faithful. */
  method Define(root: Frame, name: string, value: Val, c: Closure)
    requires c.Faithful() && root == Root(c.home)
    modifies root`binds
    ensures root.binds == [(name, value)] + old(root.binds)
    ensures c.Faithful()
  {
    ChainDistinct(c.home);
    root.Bind(name, value);
  }

  /** Flattens the captured frames of a closure into one frame above the root; a closure of the root
      itself is left alone. */
  method SpecialiseClosure(rt: Runtime, c: Closure)
    requires c.env.Linked()
    modifies rt, c`env, c`hot
    ensures old(c.env).parent == null ==> c.env == old(c.env) && c.hot == old(c.hot) && rt.specialised == old(rt.specialised)
    ensures old(c.env).parent != null ==> Specialised(old(c.env), c.env) && fresh(c.env) && c.hot && rt.specialised == old(rt.specialised) + 1
  {
    var env := c.env;
    var root := FindRoot(env);
    if root == env {
      return;
    }
    var flat := FlattenInto(env, root);
    ghost var (captured, rootBinds, flatBinds) := (Contents(Captured(env)), root.binds, flat.binds);
    c.env := flat;
    c.hot := true;
    rt.specialised := rt.specialised + 1;
    assert Contents(Captured(env)) == captured && Root(env).binds == rootBinds && flat.binds == flatBinds;
  }

  /** Copies the captured frames, from the innermost out, into a new frame above the root. */
  method FlattenInto(env: Frame, root: Frame) returns (flat: Frame)
    requires env.Linked() && env != root && root == Root(env)
    ensures fresh(flat) && Specialised(env, flat)
  {
    ChainLinks(env, |env.ancestors|);
    ghost var chain, captured := env.Chain(), Contents(Captured(env));
    flat := new Frame(root);
    ghost var rootBinds := root.binds;
    var f := env;
    ghost var k := 0;
    assert captured[0..] == captured;
    while f != root
      invariant 0 <= k < |chain| && f == chain[k]
      invariant flat.Linked() && flat.parent == root && fresh(flat)
      invariant root.binds == rootBinds && forall i :: 0 <= i < |captured| ==> captured[i] == chain[i].binds
      invariant Copied(Flatten(captured[k..]), flat.binds, rootBinds) == FlatFrame(captured, rootBinds)
      decreases |chain| - k
    {
      ChainLinks(env, k);
      assert captured[k..][1..] == captured[k + 1..];
      CopyFrame(f, flat, Flatten(captured[k + 1..]));
      f := f.parent;
      k := k + 1;
    }
    ChainDistinct(env);
    assert captured[k..] == [];
    assert captured == Contents(Captured(env));
  }

  /** The outcome of tier-up. */
  ghost predicate Specialised(env: Frame, flat: Frame)
    reads flat, env.Chain()
  {
    && flat.Linked() && flat.parent == Root(env)
    && flat.binds == FlatFrame(Contents(Captured(env)), Root(env).binds)
  }

  method FindRoot(env: Frame) returns (root: Frame)
    requires env.Linked()
    ensures root == Root(env) && root.parent == null
  {
    root := env;
    ghost var k := 0;
    while root.parent != null
      invariant 0 <= k <= |env.ancestors| && root == env.Chain()[k]
      decreases |env.ancestors| - k
    {
      ChainLinks(env, k);
      root := root.parent;
      k := k + 1;
    }
    ChainLinks(env, k);
  }

  /** Copies the bindings of one frame that neither the flat frame nor its root binds. */
  method CopyFrame(f: Frame, flat: Frame, ghost rest: Binds<Val>)
    requires f != flat && flat.Linked() && flat.parent != null && flat.parent.parent == null && flat.parent != flat
    modifies flat`binds
    ensures Copied(rest, flat.binds, flat.parent.binds) == Copied(old(f.binds) + rest, old(flat.binds), flat.parent.binds)
  {
    ghost var start := Copied(f.binds + rest, flat.binds, flat.parent.binds);
    ghost var before, rootBinds := f.binds, flat.parent.binds;
    FlatChain(flat);
    assert before[0..] == before;
    var b := 0;
    while b < |f.binds|
      invariant f.binds == before && flat.parent.binds == rootBinds
      invariant 0 <= b <= |f.binds|
      invariant Copied(f.binds[b..] + rest, flat.binds, rootBinds) == start
    {
      FlatChain(flat);
      ghost var pending := f.binds[b..] + rest;
      assert pending[0] == f.binds[b] && pending[1..] == f.binds[b + 1..] + rest;
      var found := flat.Lookup(f.binds[b].0);
      if found.None? {
        flat.Bind(f.binds[b].0, f.binds[b].1);
      }
      b := b + 1;
    }
    assert f.binds[b..] + rest == rest;
  }

  /** Whenever no captured name is bound in the root, tier-up leaves the closure faithful. */
  lemma SpecialisedIsFaithful(home: Frame, flat: Frame)
    requires home.Linked() && home.parent != null && Specialised(home, flat)
    requires NoneInRoot(Contents(Captured(home)), Root(home).binds)
    ensures StandsFor(flat, home)
  {
    ChainLinks(home, |home.ancestors|);
    forall name ensures Find(flat.binds, name) == FindIn(Contents(Captured(home)), name) {
      FlatHolds(Contents(Captured(home)), Root(home).binds, name);
    }
  }

  /** Counts a call, and specialises a closure that has become hot.  A call that does not specialise
      leaves a faithful closure faithful; one that does, if no captured name is bound in the root. */
  method CountCall(rt: Runtime, c: Closure)
    requires c.Wired() && c.calls < ULONG_RANGE
    modifies rt, c
    ensures c.Wired() && c.calls == (old(c.calls) + 1) % ULONG_RANGE
    ensures c.hot <==> old(c.hot) || (c.calls >= HOT_THRESHOLD && c.home.parent != null)
    ensures c.hot == old(c.hot) ==> c.env == old(c.env) && (old(c.Faithful()) ==> c.Faithful())
    ensures c.hot && !old(c.hot) ==> Specialised(c.home, c.env) && fresh(c.env)
    ensures c.hot && !old(c.hot) && NoneInRoot(Contents(Captured(c.home)), Root(c.home).binds) ==> c.Faithful()
    ensures rt.specialised == old(rt.specialised) + if c.hot && !old(c.hot) then 1 else 0
  {
    c.calls := (c.calls + 1) % ULONG_RANGE;
    if !c.hot && c.calls >= HOT_THRESHOLD {
      SpecialiseClosure(rt, c);
      if c.hot && NoneInRoot(Contents(Captured(c.home)), Root(c.home).binds) {
        SpecialisedIsFaithful(c.home, c.env);
      }
    }
  }

  // ----- long names -----

  /** Every frame is linked, and frames behind it and in structures it binds are frames too. */
  ghost predicate Closed(world: set<Frame>)
    reads world
  {
    forall f :: f in world ==>
      && f.Linked() && (forall g :: g in f.ancestors ==> g in world)
      && forall b :: b in f.binds && b.1.Structure? ==> b.1.env in world
  }

  /** The value of `path[0].path[1]...`: every name but the first is looked up in a structure. */
  ghost function PathValue(world: set<Frame>, env: Frame, path: seq<string>): Option<Val>
    requires Closed(world) && env in world
    reads world
    decreases |path|
  {
    if path == [] then None
    else
      var v := FindIn(Contents(env.Chain()), path[0]);
      if |path| == 1 || v.None? || !v.value.Structure? then if |path| == 1 then v else None
      else
        FoundInWorld(world, env, path[0]);
        PathValue(world, v.value.env, path[1..])
  }

  lemma FoundInWorld(world: set<Frame>, env: Frame, name: string)
    requires Closed(world) && env in world
    ensures var v := FindIn(Contents(env.Chain()), name); v.Some? && v.value.Structure? ==> v.value.env in world
  {
    var v := FindIn(Contents(env.Chain()), name);
    if v.Some? && v.value.Structure? {
      var i :| 0 <= i < |env.Chain()| && (name, v.value) in Contents(env.Chain())[i];
      assert env.Chain()[i] in world;
    }
  }

  ghost predicate InWorld(world: set<Frame>, v: Option<Val>) {
    v.Some? && v.value.Structure? ==> v.value.env in world
  }

  /** The value of a long name whose first `i` names led to `v`. */
  ghost function PathFrom(world: set<Frame>, v: Option<Val>, path: seq<string>, i: nat): Option<Val>
    requires Closed(world) && InWorld(world, v) && i <= |path|
    reads world
  {
    if i == |path| then v
    else if v.None? || !v.value.Structure? then None
    else PathValue(world, v.value.env, path[i..])
  }

  /** One more name. */
  lemma PathStep(world: set<Frame>, env: Frame, path: seq<string>, i: nat)
    requires Closed(world) && env in world && i < |path|
    ensures var v := FindIn(Contents(env.Chain()), path[i]);
            InWorld(world, v) && PathValue(world, env, path[i..]) == PathFrom(world, v, path, i + 1)
  {
    FoundInWorld(world, env, path[i]);
    var rest := path[i..];
    assert rest[0] == path[i] && rest[1..] == path[i + 1..];
  }

  method LookupName(env: Frame, path: seq<string>, i: nat, ghost world: set<Frame>) returns (v: Option<Val>)
    requires Closed(world) && env in world && i < |path|
    ensures InWorld(world, v) && PathValue(world, env, path[i..]) == PathFrom(world, v, path, i + 1)
  {
    PathStep(world, env, path, i);
    v := env.Lookup(path[i]);
  }

  /** Looks up a long name, name by name. */
  method LookupPath(env: Frame, path: seq<string>, ghost world: set<Frame>) returns (v: Option<Val>)
    requires Closed(world) && env in world
    ensures v == PathValue(world, env, path)
  {
    if path == [] {
      return None;
    }
    ghost var goal := PathValue(world, env, path);
    assert path[0..] == path;
    v := LookupName(env, path, 0, world);
    var i := 1;
    while v.Some? && i < |path|
      invariant 1 <= i <= |path|
      invariant InWorld(world, v) && goal == PathFrom(world, v, path, i)
      decreases |path| - i
    {
      if !v.value.Structure? {
        return None;
      }
      v := LookupName(v.value.env, path, i, world);
      i := i + 1;
    }
  }

  /** Long names too keep their meaning for a faithful closure. */
  lemma FaithfulPath(c: Closure, world: set<Frame>, path: seq<string>)
    requires c.Faithful() && Closed(world) && c.env in world && c.home in world
    ensures PathValue(world, c.env, path) == PathValue(world, c.home, path)
  {
    if path != [] {
      FaithfulLookup(c, path[0]);
    }
  }

  /** A frozen copy: what a captured frame gains after tier-up is no longer seen by the closure. */
  lemma CapturedFrozen(c: Closure, name: string, value: Val)
    requires c.home.Linked() && c.home.parent != null && c.env != c.home && c.env.Linked() && c.env.parent == Root(c.home)
    requires c.home.binds != [] && c.home.binds[0] == (name, value)
    requires Find(c.env.binds, name) != Some(value) && Find(Root(c.home).binds, name) != Some(value)
    ensures FindIn(Contents(c.home.Chain()), name) == Some(value) != FindIn(Contents(c.env.Chain()), name)
  {
    ChainLinks(c.home, |c.home.ancestors|);
    FlatChain(c.env);
    FindInTwo(c.env.binds, Root(c.home).binds, name);
    ChainStep(c.home, name);
  }
}
